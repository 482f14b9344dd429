# Plant-care robot: links, drivers and motion, verified

The robot's firmware (STM32 under RT-Thread) talks over serial lines to a camera
and to a desktop panel, both written in Python. This project models the code
that carries the hard obligations and proves what it promises.

- `Streams` says what it means for a stream parser not to notice where reads
  cut the stream, and proves it for all parsers whose decisions are final.
- `RxBuffers` is the 400-byte buffer that the four receiving threads parse in place.
- `SensorPorts` (distance and attitude sensors), `CommandLink` (panel to robot),
  `CameraLink` (camera to robot), `PanelLink` (robot to panel) and `ModeLink`
  (robot to camera) each join one parser, its encoder on the other side and its
  handlers: from bytes in arbitrary reads to the state the receiver ends in.
- `Dht11` is the temperature sensor driver, an edge interrupt interleaved with a
  10 ms task.
- `Headings` and `Obstacles` are the angle arithmetic and the obstacle-avoidance
  machine; `Motors` the PID controllers, ramps and motor outputs.
- `Ethernet`, `DmaReceive`, `Flash` and `MicroDelay` are driver algorithms:
  scatter and gather over DMA descriptors, circular DMA reception, the flash
  programmer and the delay loop.
- `DecimalPrinters` are the two number printers, `LeafVote` the smoothing of
  leaf states on the camera, `Alarms` the spoken alarms.
- `Options` and `Arithmetic` hold what several of them share.

Code that works step by step is modelled by methods that do the same to a class
or an array and are proved against a function of the old state; the theorems
are about those functions, over every input and every run. Floats are exact
reals. Interrupts, threads and semaphores appear as interleavings of steps and
as reads of arbitrary size. `dafny verify dfyconfig.toml` checks everything.

## What the proofs brought to light

- The command parser tests for a four-byte frame once nine bytes have not
  arrived, so a clock frame whose month byte equals the tail byte 0x55 is read
  differently depending on where a read ends (`uart5_port.c:49-65`). No real
  month is affected; `CommandLink.CutSafeIffCutsDoNotMatter` is the exact
  condition.
- The command handler and the camera handler look for headers at every offset
  of a frame and read up to seven bytes past it (`usart5.c:71-153`,
  `usart4.c:43-87`). The models therefore take the memory behind the frame
  (`beyond`) as an arbitrary parameter. A light packet whose coordinates contain
  the header and a tag can be misread (`CameraLink.EchoMisreports`); the exact
  condition is `CameraLink.MeantUnlessEchoing`, met by all coordinates below
  0xA300, and `CameraLink.SpoiledIsExact` says which parts of the view are
  concerned. A short frame with the bytes of a clock command sets the clock from
  the memory behind it (`CommandLink.ShortClockReadsMemory`; exactly when,
  `CommandLink.MemoryDoesNotMatterIff`); nothing but the clock can be so set.
- A camera or command stream that breaks inside a frame can block its parser for
  good, until the overflow reset (`CameraLink.BlockedForGood`,
  `CommandLink.BlockedForGood`): the commands it swallows include the emergency
  stop (`CommandLink.SilentUntilOverflow`).
- The attitude parser, fallen out of step, comes back with the first frame in whose
  payload no header recurs, and need not without one
  (`SensorPorts.CleanFrameResynchronises`, `SensorPorts.StaysOutOfStep`).
- The panel parser comes back with the first frame that is not an obstacle frame of
  a certain shape (`PanelLink.RestoresIff`). Such frames can keep it out of step
  only back to back (`PanelLink.StaysOutOfStep`), which the round robin never
  sends: corrupted bytes cost at most two packets behind them
  (`PanelLink.RunGetsThrough`).
- The attitude handler prefers a header that recurs inside a frame to the
  frame's own (`SensorPorts.MisreadFrame`; exactly when,
  `SensorPorts.AttitudeOfFrame`).
- Temperature and humidity lose their tenths before they are scaled for the
  panel (`usart5.c:40-43`, `PanelLink.TemperatureLosesItsTenths`,
  `PanelLink.HumidityLosesItsTenths`); the panel divides by ten as if they were
  there.
- A turn that should end near 180 degrees may not: the end test compares angles
  without their wrap (`Headings.TurnEndTest`, reached in
  `Obstacles.SeamKeepsTurning`).
- If the idle interrupt is served between the last byte of a lap and the
  transfer-complete interrupt, a whole ring of stale bytes is announced
  (`DmaReceive.StaleRing`).
- The limit of `PID_pOut_Max` has no effect on its result (`Mypid.c:81-84`,
  `Motors.Mypid.POutMax`).
- The flash range checks admit ranges below the part and ranges whose 32-bit sum
  wraps (`Flash.RangeCheck`, `Flash.RangeCheckMisses`): erasing 16 bytes at
  address 0 clears the first sector.
- The delay is too short once microseconds times reload value exceed 32 bits
  (`MicroDelay.TicksAreMeantIff`, `MicroDelay.DelayWraps`).
- An Ethernet frame longer than the four buffers is accepted, since no descriptor
  is handed over before the gather loop ends; the HAL then programs its first
  descriptor twice, the first-segment mark is lost, and nothing is sent
  (`stm32f4xx_hal_eth.c:946-980`, `Ethernet.TxRing.Transmit`,
  `Ethernet.LoseOversizeFrame`).
- Soil and humidity alarms can be kept silent for ever by the two before them,
  the obstacle alarm doing so without being said (`Alarms.SoilAndHumidityStarve`).
- The climate sensor's alarm flag is cleared in several places and set in none.

The reads of the receiving threads are bounded in the whole-session statements
(at most 394, 390, 394 and 392 bytes for usart1, usart2, uart4 and uart5), which
is what keeps the overflow reset from firing. The serial framework's receive
ring has 64 bytes (`RT_SERIAL_RB_BUFSZ`), so every read meets the bound.

## Model

| member | source | states |
|---|---|---|
| `Streams.FeedIsWholeScan` | stm32F407vet6主要程序/Hardware/usart1_port.c:75-107 | For any parser whose moves are not revised by later bytes, feeding a stream in any chunks from any waiting residue emits the items and keeps the residue of one scan of the whole stream |
| `Streams.CutsDoNotMatter` | stm32F407vet6主要程序/Hardware/uart4_port.c:107-139 | Two ways of cutting the same stream into reads are indistinguishable |
| `Streams.ScanResumes` | stm32F407vet6主要程序/Hardware/usart1_port.c:95-103 | Scanning a buffer and later its residue with new bytes behind it is scanning everything at once |
| `RxBuffers.RxBuffer.ShiftLeft` | stm32F407vet6主要程序/Hardware/usart1_port.c:24-34 | In place, the buffer loses its first `count` bytes, or all of them |
| `RxBuffers.RxBuffer.Take` | stm32F407vet6主要程序/Hardware/uart5_port.c:53-56 | The frame at offset `i` is handed out and everything up to its end leaves the buffer |
| `RxBuffers.RxBuffer.Receive` | stm32F407vet6主要程序/Hardware/uart5_port.c:114-120 | A read is appended; if it would overflow, what was kept is dropped first |
| `RxBuffers.RxBuffer.KeepLast` | stm32F407vet6主要程序/Hardware/uart5_port.c:74-78 | Without a header only the last byte is kept |
| `SensorPorts.WindowIsSteadfast` | stm32F407vet6主要程序/Hardware/usart1_port.c:37-60 | No window test of the distance or attitude parser is revised by bytes that come later |
| `SensorPorts.ScanEmitsLeftmostFrames` | stm32F407vet6主要程序/Hardware/usart1_port.c:37-60 | The scan emits exactly the leftmost non-overlapping frames: each matches, none overlap, and no window passed over matches |
| `SensorPorts.LeftmostIsUnique` | stm32F407vet6主要程序/Hardware/usart1_port.c:37-60 | There is only one such selection of frames for a stream |
| `SensorPorts.KeepsLessThanAFrame` | stm32F407vet6主要程序/Hardware/usart2_port.c:38-59 | At most 6 (distance) or 10 (attitude) bytes are kept, whatever the bytes |
| `SensorPorts.Sensors.VL53_DataProc` | stm32F407vet6主要程序/Software/VL53_DMA.c:102-133 | The in-place handler leaves the state the last matching offset decides |
| `SensorPorts.Sensors.HWT101_DataProc` | stm32F407vet6主要程序/Software/Usart2DMA_IMU.c:29-46 | Likewise for the attitude handler, Obspack bytes included |
| `SensorPorts.Deliver` | stm32F407vet6主要程序/Hardware/usart1_port.c:44-51 | A matched window goes to the handler and leaves the buffer with everything before it |
| `SensorPorts.TryParse` | stm32F407vet6主要程序/Hardware/usart1_port.c:37-60 | Parsing in place emits the frames and keeps the residue of the pure scan, and the handler state is the fold of its frames |
| `SensorPorts.RxEntry` | stm32F407vet6主要程序/Hardware/usart1_port.c:75-107 | For every byte stream in chunks of at most 394 (distance) or 390 (attitude) bytes: the frames, the residue and the readings are those of one scan of the whole stream, and the overflow reset never fires |
| `SensorPorts.DistanceRoundTrip` | stm32F407vet6主要程序/Software/VL53_DMA.c:102-133 | A frame showing four digits, zeros possibly as blanks, is read as their decimal value |
| `SensorPorts.NoOverflow` | stm32F407vet6主要程序/Software/VL53_DMA.c:133 | With decimal digits the 16-bit sum does not wrap |
| `SensorPorts.DistanceOfAnyBytes` | stm32F407vet6主要程序/Software/VL53_DMA.c:102-133 | Of a range frame with any other bytes in its digit positions the distance is made of what each exceeds 0x30 by, modulo 256, and wraps at 16 bits |
| `SensorPorts.AttitudeOfFrame` | stm32F407vet6主要程序/Software/Usart2DMA_IMU.c:29-46 | The readings a frame gives, roll, pitch, yaw and Obspack bytes, are its own if and only if its header does not recur in the payload with other angles behind it |
| `SensorPorts.MisreadFrame` | stm32F407vet6主要程序/Software/Usart2DMA_IMU.c:36-43 | A frame whose header recurs, and the yaw that is read instead of its own |
| `SensorPorts.AnglesOfFrame` | stm32F407vet6主要程序/Software/Usart2DMA_IMU.c:36-43 | Roll, pitch and yaw are the signed angles of their two bytes, low byte first, 65536 to a turn, and the Obspack bytes are those of the yaw, high byte first |
| `SensorPorts.YawStaysTold` | stm32F407vet6主要程序/Software/Usart2DMA_IMU.c:40-43 | After any frames of either sensor the two Obspack bytes are the reported yaw |
| `SensorPorts.ShortReads` | stm32F407vet6主要程序/Hardware/usart1_port.c:95-103 | Reads that leave room for a partial frame are one scan of the whole stream |
| `SensorPorts.LastRangeDecides` | stm32F407vet6主要程序/Software/VL53_DMA.c:133 | After any history the distance is that of the last frame |
| `SensorPorts.LastAttitudeDecides` | stm32F407vet6主要程序/Software/Usart2DMA_IMU.c:38-43 | After any history roll, pitch, yaw and the Obspack bytes are those of the last frame |
| `SensorPorts.YawRange` | stm32F407vet6主要程序/Software/Usart2DMA_IMU.c:40 | Yaw lies in [-180, 180) for all raw bytes |
| `SensorPorts.RangeFrameGetsThrough` | stm32F407vet6主要程序/Hardware/usart1_port.c:37-60 | Behind any bytes whatever, a range frame whose digit positions hold digits or blanks is delivered, after just what the bytes give by themselves, and nothing is left: garbage never costs a range frame |
| `SensorPorts.CleanFrameResynchronises` | stm32F407vet6主要程序/Hardware/usart2_port.c:38-59 | Behind any bytes whatever, one attitude frame without a second header brings the parser into step: every frame after it is delivered, and one item stands in its place, the frame itself unless a header was among the bytes kept |
| `SensorPorts.StaysOutOfStep` | stm32F407vet6主要程序/Hardware/usart2_port.c:38-59 | Without such a frame this fails: a steady frame in which the header recurs is never delivered again once the parser has fallen out of step, however often it is repeated |
| `CommandLink.CutSafeMeaning` | stm32F407vet6主要程序/Hardware/uart5_port.c:49-65 | A stream is safe to cut exactly if no clock frame it contains has the tail byte as its month |
| `CommandLink.CutSafeIffCutsDoNotMatter` | stm32F407vet6主要程序/Hardware/uart5_port.c:37-79 | For every stream: all ways of cutting it agree with the whole scan if and only if it is safe to cut |
| `CommandLink.SafeFeed` | stm32F407vet6主要程序/Hardware/uart5_port.c:94-126 | From any waiting residue, a safe stream in any chunks is scanned as a whole |
| `CommandLink.UnsafeCut` | stm32F407vet6主要程序/Hardware/uart5_port.c:49-65 | In an unsafe stream, cutting inside the offending clock frame shows |
| `CommandLink.MonthOfTailByteIsMisread` | stm32F407vet6主要程序/Hardware/uart5_port.c:59-65 | A concrete clock frame with month 0x55 that is read differently when cut after four bytes |
| `CommandLink.HexTextRoundTrip` | 软件助手/serial_panel.py:601-612 | The hexadecimal text the panel builds turns back into the bytes it stands for |
| `CommandLink.FrontMessage` | 软件助手/serial_panel.py:206-277 | Every valid command or timestamp is recognised at the front of a stream, whatever follows |
| `CommandLink.SessionIsCutSafe` | 软件助手/serial_panel.py:206-277 | Any list of valid messages is safe to cut and scans to exactly its frames, with nothing left |
| `CommandLink.SessionIsDelivered` | stm32F407vet6主要程序/Hardware/uart5_port.c:37-79 | So it is delivered in any chunks |
| `CommandLink.PrefixIsDelivered` | stm32F407vet6主要程序/Hardware/uart5_port.c:37-79 | After any part of a session, whole messages have been emitted and the residue is a proper prefix of the next |
| `CommandLink.KeptIsShort` | stm32F407vet6主要程序/Hardware/uart5_port.c:94-126 | So at most 8 bytes are ever kept during a session |
| `CommandLink.Flags.Step` | stm32F407vet6主要程序/Software/usart5.c:73-152 | One offset of the handler: the command test and the clock test |
| `CommandLink.Flags.StepCommand` | stm32F407vet6主要程序/Software/usart5.c:75-140 | The commands: each code with its values and side conditions |
| `CommandLink.Flags.PlantSoft_DataProc` | stm32F407vet6主要程序/Software/usart5.c:66-154 | The handler leaves the state its fold over the offsets describes |
| `CommandLink.HandlerMeansMessage` | stm32F407vet6主要程序/Software/usart5.c:66-154 | On an encoded message, whatever memory lies behind it, the handler does what the message means |
| `CommandLink.OtherCommandsDoNothing` | stm32F407vet6主要程序/Software/usart5.c:75-140 | Every command code and value acts as the message of the panel it encodes, or changes nothing if it encodes none |
| `CommandLink.FlagsIgnoreMemory` | stm32F407vet6主要程序/Software/usart5.c:71-153 | For every recognised frame, any two memories behind it and any two prior states that differ in the clock only: the control flags come out the same |
| `CommandLink.MemoryDoesNotMatterIff` | stm32F407vet6主要程序/Software/usart5.c:71-153 | A recognised frame is handled the same in every state whatever lies behind it, if and only if at no place in it the bytes of a clock command stand with their tail behind the frame |
| `CommandLink.ShortClockReadsMemory` | stm32F407vet6主要程序/Software/usart5.c:142-153 | A recognised frame that fails the condition, and two memories of which one sets the clock and the other does not |
| `CommandLink.ClockIsShown` | stm32F407vet6主要程序/Software/usart5.c:142-152 | A clock frame that is read from its own bytes sets the clock to its six bytes, whatever they are |
| `CommandLink.EmergencyIsObeyed` | stm32F407vet6主要程序/Software/usart5.c:114-125 | An emergency command that is recognised takes effect, whatever frames came before and whatever memory they were read with |
| `CommandLink.BlockedForGood` | stm32F407vet6主要程序/Hardware/uart5_port.c:49-72 | A residue is blocked if and only if no bytes whatever make the parser deliver another frame, an emergency stop included |
| `CommandLink.SilentUntilOverflow` | stm32F407vet6主要程序/Hardware/uart5_port.c:111-122 | From a blocked residue nothing is delivered while the reads fit; from the first that does not fit the reads go as from an empty buffer |
| `CommandLink.Deliver` | stm32F407vet6主要程序/Hardware/uart5_port.c:53-64 | A recognised frame goes to the handler with any memory behind it and leaves the buffer: the control flags are those the frames so far determine, and so is the clock as long as no frame since it was last set read it from behind itself |
| `CommandLink.TryParse` | stm32F407vet6主要程序/Hardware/uart5_port.c:37-79 | Parsing in place is the pure scan; the control flags are the fold of the frames in every case, the clock too unless a frame has read it from the memory behind and no clock frame has set it since |
| `CommandLink.RxEntry` | stm32F407vet6主要程序/Hardware/uart5_port.c:94-126 | For every byte stream in any reads, corrupted frames and overflow resets included: frames and residue are those of scanning what each read finds in the buffer, the control flags are the fold of the frames without any condition, and the clock is under the condition of `TryParse` |
| `CommandLink.SessionReads` | stm32F407vet6主要程序/Hardware/uart5_port.c:114-117 | The reads of a session, at most 392 bytes each, never meet a full buffer and are the rest of its scan |
| `CommandLink.Session` | stm32F407vet6主要程序/Hardware/uart5_port.c:94-126 | End to end: any list of messages in chunks of at most 392 bytes leaves exactly the frames sent, an empty buffer and the control flags and clock of the fold of the message meanings |
| `CameraLink.FrontIsSteadfast` | stm32F407vet6主要程序/Hardware/uart4_port.c:37-92 | No recognition is revised by later bytes |
| `CameraLink.AnyCutsAgree` | stm32F407vet6主要程序/Hardware/uart4_port.c:107-139 | So every stream, blocked ones included, may be cut anywhere |
| `CameraLink.BlockedForGood` | stm32F407vet6主要程序/Hardware/uart4_port.c:80-84 | A residue is blocked if and only if no bytes whatever make the parser emit again |
| `CameraLink.SilentUntilOverflow` | stm32F407vet6主要程序/Hardware/uart4_port.c:127-134 | From a blocked residue nothing is delivered while the reads fit; from the first that does not fit the reads go as from an empty buffer |
| `CameraLink.PacketsAreDelivered` | MaixCam视觉/green.py:178-196 | Any list of camera packets in any chunks arrives as exactly those packets |
| `CameraLink.PacketRoundTrip` | MaixCam视觉/green.py:178-196 | Decoding an encoded packet returns it |
| `CameraLink.RecognisedIsPacket` | stm32F407vet6主要程序/Hardware/uart4_port.c:37-92 | Every frame the parser recognises, in any stream, is the encoding of a packet |
| `CameraLink.Vision.Maixcam_DataProc` | stm32F407vet6主要程序/Software/usart4.c:37-88 | The handler leaves the state its fold over the offsets describes |
| `CameraLink.Vision.Step` | stm32F407vet6主要程序/Software/usart4.c:45-86 | One offset of the handler: the four tests, in their order |
| `CameraLink.HandlerMeansPacket` | stm32F407vet6主要程序/Software/usart4.c:37-88 | On a packet that does not echo, whatever lies behind it, the handler does what the packet means |
| `CameraLink.MeantUnlessEchoing` | stm32F407vet6主要程序/Software/usart4.c:37-88 | A packet is handled as meant in every memory and from every state if and only if it does not echo: no header recurs in its payload with a tag whose tail is in place or lies behind the packet |
| `CameraLink.SpoiledIsExact` | stm32F407vet6主要程序/Software/usart4.c:45-86 | Which parts of the view (location, lights, leaf, plant type) a packet may leave otherwise than it says, in some memory and state: exactly those its echoes are tagged for |
| `CameraLink.QuietPacketsSettle` | stm32F407vet6主要程序/Software/usart4.c:45-86 | Whatever was in doubt, packets that do not echo leave in doubt no more than each one of them alone: each part is certain again once one has reported it |
| `CameraLink.EchoMisreports` | stm32F407vet6主要程序/Software/usart4.c:61-66 | For an echoing light packet, bytes behind it with which the handler changes more than it should |
| `CameraLink.SmallCoordinatesDoNotEcho` | MaixCam视觉/green.py:188-192 | Coordinates below 0xA300 never echo |
| `CameraLink.Deliver` | stm32F407vet6主要程序/Hardware/uart4_port.c:47-79 | A recognised packet goes to the handler with the memory behind it and leaves the buffer; every part of the view that no echo has spoiled since it was last reported is what the packets so far say |
| `CameraLink.TryParse` | stm32F407vet6主要程序/Hardware/uart4_port.c:37-92 | Parsing in place is the pure scan; every part of the view that no echo has spoiled since it was last reported is that of the fold of the packets |
| `CameraLink.RxEntry` | stm32F407vet6主要程序/Hardware/uart4_port.c:107-139 | For every byte stream in any reads, blocked streams, echoes and overflow resets included: frames and residue are those of scanning what each read finds in the buffer, and every part of the view that no echo has spoiled since it was last reported is that of the fold of the packets |
| `CameraLink.RoomyReads` | stm32F407vet6主要程序/Hardware/uart4_port.c:107-139 | While every read fits behind the residue, that is one scan of the whole stream |
| `CameraLink.ShortStreamsAreRoomy` | stm32F407vet6主要程序/Hardware/uart4_port.c:127-130 | Any stream of at most 400 bytes leaves room |
| `CameraLink.SessionsAreRoomy` | stm32F407vet6主要程序/Hardware/uart4_port.c:127-130 | Any session of camera packets in reads of at most 394 bytes leaves room, however long it is |
| `CameraLink.Session` | stm32F407vet6主要程序/Software/usart4.c:37-88 | End to end: any packets that do not echo leave exactly the packets sent, an empty buffer and coordinates, leaf state, plant type and light flags of the fold of what was sent |
| `PanelLink.FrontIsSteadfast` | 软件助手/serial_panel.py:452-499 | No decision of the panel parser is revised by later bytes |
| `PanelLink.GarbageIsSkipped` | 软件助手/serial_panel.py:454-461 | Bytes before the first header do not influence what follows |
| `PanelLink.ShortBufferWaits` | 软件助手/serial_panel.py:453 | A buffer too short for the loop is a residue up to its first header |
| `PanelLink.Panel.Handle` | 软件助手/serial_panel.py:473-480 | A frame adds the event its type and payload stand for |
| `PanelLink.Panel.ParseReceiveBuffer` | 软件助手/serial_panel.py:452-481 | Terminates, emits the items of the pure scan, keeps its residue up to leading garbage, and tells the events of the frames |
| `PanelLink.ReadOne` | 软件助手/serial_panel.py:434-450 | One read is appended and parsed: events, residue and exact buffer |
| `PanelLink.ReadAll` | 软件助手/serial_panel.py:434-481 | Arbitrary bytes in arbitrary chunks: the events depend on the concatenated stream alone, and so does the residue after leading non-header bytes |
| `PanelLink.FramesLeaveNothing` | 软件助手/serial_panel.py:452-481 | Complete frames in any chunks leave the buffer empty |
| `PanelLink.Uplink.Refresh` | stm32F407vet6主要程序/Software/usart5.c:36-53 | All seven packets are those of the sample |
| `PanelLink.Uplink.SendData` | stm32F407vet6主要程序/Software/usart5.c:30-64 | Every fourth call sends the packet whose turn it is, and the counter stays below 28 |
| `PanelLink.RoundRobin` | stm32F407vet6主要程序/Software/usart5.c:55-63 | The k-th packet sent is packet k mod 7, filled from the sample of call 4k + 3 |
| `PanelLink.RunUplink` | stm32F407vet6主要程序/Software/usart5.c:30-64 | Over any run of samples exactly the round-robin packets are sent |
| `PanelLink.FramesRoundTrip` | 软件助手/serial_panel.py:452-481 | Any list of complete frames decodes to exactly that list, whatever the payloads |
| `PanelLink.FrameResynchronises` | 软件助手/serial_panel.py:452-499 | Behind any bytes whatever, one complete frame that does not derail brings the parser into step: the scan goes on exactly at the frame after it |
| `PanelLink.RestoresIff` | 软件助手/serial_panel.py:452-499 | A complete frame brings the parser into step behind every byte sequence and before every list of complete frames if and only if it does not derail, that is, unless it is an obstacle frame in which a tail byte is followed by header and type of another obstacle frame |
| `PanelLink.FramesGetThrough` | 软件助手/serial_panel.py:452-499 | So of complete frames behind any bytes all after the first that does not derail are delivered, last and in order, and nothing is left |
| `PanelLink.Recover` | 软件助手/serial_panel.py:434-526 | End to end, from any waiting buffer and in any chunks: after corrupted bytes and one frame that does not derail, everything the following frames say is told, last and in order |
| `PanelLink.PacketDerails` | stm32F407vet6主要程序/Software/usart5.c:36-63 | Of the seven packets only the obstacle packet can derail: each sensor, leaf and plant-type packet restores the step whatever it carries |
| `PanelLink.RunGetsThrough` | stm32F407vet6主要程序/Software/usart5.c:30-64 | Of a run of the round robin behind any bytes at most two packets are lost: the first, and the second if the first was the obstacle packet |
| `PanelLink.TelemetryRecovers` | 软件助手/serial_panel.py:434-526 | End to end, from any waiting buffer and in any chunks: a run whose beginning is replaced by any bytes shows, from the packet `RunGetsThrough` names on, every quantity, last and in order |
| `PanelLink.StaysOutOfStep` | 软件助手/serial_panel.py:452-499 | A frame of the first derailing kind, repeated back to back, is never recognised again once the parser has fallen out of step, however often it comes |
| `PanelLink.TellPacket` | 软件助手/serial_panel.py:501-526 | What the panel shows for each of the seven packets, in terms of the measured sample |
| `PanelLink.YawModulo360` | 软件助手/serial_panel.py:516-518 | The unsigned angle shown is the signed yaw modulo 360 |
| `PanelLink.SensedYawIsShown` | stm32F407vet6主要程序/Software/Usart2DMA_IMU.c:40-43 | Across both links: whatever frames the sensors sent, the angle the panel shows for the obstacle packet is the yaw the attitude handler reported, modulo 360, and the distance is the one reported |
| `PanelLink.MoistureWithinATenth` | stm32F407vet6主要程序/Software/usart5.c:36-38 | Soil moisture is shown within a tenth |
| `PanelLink.TemperatureLosesItsTenths` | stm32F407vet6主要程序/Software/usart5.c:40-41 | The temperature shown is the whole part; it is the measured one if and only if there are no tenths |
| `PanelLink.HumidityLosesItsTenths` | stm32F407vet6主要程序/Software/usart5.c:42-43 | So is the humidity |
| `PanelLink.SentIsShown` | stm32F407vet6主要程序/Software/usart5.c:30-64 | All packets of a run tell exactly the values sent |
| `PanelLink.TelemetrySession` | 软件助手/serial_panel.py:452-526 | End to end: the packets of any run, in any chunks into an empty buffer, are shown in order and leave the buffer empty |
| `ModeLink.FrontIsSteadfast` | MaixCam视觉/green.py:212-235 | No decision of the mode parser is revised by later bytes |
| `ModeLink.DropToHeader` | MaixCam视觉/green.py:216-223 | Jumping to the first header is dropping byte after byte |
| `ModeLink.ModeReceiver.ParseModeBuffer` | MaixCam视觉/green.py:212-235 | Parsing in place is the pure scan, and the queue grows by the accepted modes |
| `ModeLink.ModeReceiver.ReadAndParse` | MaixCam视觉/green.py:248-255 | A read is appended, the buffer cut to its last 64 bytes, and scanned |
| `ModeLink.ModeReceiver.RecvModePacket` | MaixCam视觉/green.py:238-262 | The oldest pending mode is returned; the port is read only when none is pending |
| `ModeLink.ShortStreamsInAnyChunks` | MaixCam视觉/green.py:212-235 | Below the 64-byte cap any chunks give the scan of the whole stream |
| `ModeLink.PollsRest` | MaixCam视觉/green.py:248-255 | After every read the residue is one that waits within the cap |
| `ModeLink.OnlyModesAreAccepted` | MaixCam视觉/green.py:226-235 | Of all packets in any stream exactly the two mode frames are accepted, as the modes 1 and 2 |
| `ModeLink.FirstFrameCloses` | stm32F407vet6主要程序/Software/usart4.c:6-10 | Whatever the residue, the first frame of a burst ends any open packet and at most repeats its mode |
| `ModeLink.ScanBurst` | stm32F407vet6主要程序/Software/usart4.c:6-35 | A burst after any clean residue yields its mode two or three times and nothing else, leaving an empty residue |
| `ModeLink.StartOfBurstIsKept` | MaixCam视觉/green.py:217-220 | Pieces of the first frame are never lost |
| `ModeLink.BurstGetsThrough` | MaixCam视觉/green.py:238-262 | From every reachable residue, in any chunks and with the truncation to 64 bytes, a burst enqueues its mode two or three times and leaves an empty residue |
| `ModeLink.BurstAfterAnything` | MaixCam视觉/green.py:238-262 | Any residue, any bytes and a burst behind them, in reads of any size and with the truncation: the last two modes accepted are those of the burst, and the residue is empty |
| `ModeLink.BurstsGetThrough` | MaixCam视觉/green.py:238-262 | Any list of bursts from every reachable residue, in reads of at most 61 bytes wherever they end: every mode is accepted three times in order, but the very first perhaps twice, and the residue is empty |
| `ModeLink.LongReadLeaves` | MaixCam视觉/green.py:248-255 | A read longer than the buffer, whatever it begins with and whatever was kept: of its last 64 bytes exactly the whole frames are accepted, and the beginning of a last frame is kept |
| `ModeLink.SixteenFramesSurvive` | MaixCam视觉/green.py:248-255 | Of sixteen or more frames in one read exactly the last sixteen are accepted |
| `ModeLink.PollAll` | MaixCam视觉/green.py:238-262 | Calls of recv_mode_packet until nothing is pending, reading only when the queue is empty, return the pending modes and then those of the polled stream, in order |
| `ModeLink.PollBurst` | MaixCam视觉/green.py:238-262 | End to end: polling a burst returns its mode two or three times and leaves queue and buffer empty |
| `ModeLink.PollBursts` | MaixCam视觉/green.py:238-262 | End to end: polling any list of bursts returns each mode three times in order, the very first perhaps twice |
| `ModeLink.PollAfterAnything` | MaixCam视觉/green.py:238-262 | End to end: whatever was pending and whatever came before, after a burst the last two modes returned are its own, and queue and buffer are empty |
| `Dht11.Sensor.Task10ms` | stm32F407vet6主要程序/Software/DH11.c:211-278 | The 10 ms task moves the driver as its step function says and keeps the alarm flag at zero |
| `Dht11.Sensor.ExtiCallback` | stm32F407vet6主要程序/Software/DH11.c:307-387 | The edge interrupt moves the driver as its step function says, and not at all for other pins |
| `Dht11.Sensor.ShiftBit` | stm32F407vet6主要程序/Software/DH11.c:339-357 | A bit is shifted into its byte, most significant first; the fortieth completes the frame |
| `Dht11.Sensor.Process` | stm32F407vet6主要程序/Software/DH11.c:165-179 | Readings are published only for a frame whose checksum holds; the alarm flag is cleared or left |
| `Dht11.TaskKeepsSafe` | stm32F407vet6主要程序/Software/DH11.c:211-278 | A task call keeps the invariant: active capture only while waiting with the interrupt enabled and fewer than 40 bits, never both flags, the pin low during the start pulse only and listening while waiting |
| `Dht11.EdgeKeepsSafe` | stm32F407vet6主要程序/Software/DH11.c:307-387 | So does every edge |
| `Dht11.Run` | stm32F407vet6主要程序/Software/DH11.c:211-387 | So does every interleaving of tasks and edges |
| `Dht11.PublishedOnlyWithChecksum` | stm32F407vet6主要程序/Software/DH11.c:165-179 | Humidity and temperature change exactly when a task call finds a complete frame of 40 bits whose last byte is the sum of the other four modulo 256, and then they are its whole units plus tenths |
| `Dht11.StartIsTimely` | stm32F407vet6主要程序/Software/DH11.c:211-278 | From every safe state the next start request comes within a bounded number of task calls, whatever the edges do |
| `Dht11.RequestsAreRegular` | stm32F407vet6主要程序/Software/DH11.c:211-278 | Successive start requests are 104 to 106 task calls apart |
| `Dht11.AlternatingEdgesAreCaptured` | stm32F407vet6主要程序/Software/DH11.c:307-387 | After a release, alternating edges put the driver into exactly the state their number and times determine |
| `Dht11.DoneIffAlternating` | stm32F407vet6主要程序/Software/DH11.c:307-387 | The frame is done if and only if 83 alternating edges beginning with a fall were seen; the first wrong edge before raises the error instead |
| `Dht11.PackRoundTrip` | stm32F407vet6主要程序/Software/DH11.c:339-357 | Packing the 40 bits of five bytes gives the five bytes |
| `Dht11.ElapsedAcrossWrap` | stm32F407vet6主要程序/Software/DH11.c:93-96 | Elapsed microseconds are right across the wrap of the 32-bit cycle counter |
| `Dht11.FrameRoundTrip` | stm32F407vet6主要程序/Software/DH11.c:307-387 | Pulses whose high times encode any five bytes decode to those bytes, across counter wrap |
| `Dht11.TicksDoNotDisturbCapture` | stm32F407vet6主要程序/Software/DH11.c:211-278 | Task calls interleaved with a capture, up to its timeout, only count down |
| `Dht11.ReleasedIff` | stm32F407vet6主要程序/Software/DH11.c:252-261 | The task call that ends the start pulse, and no other, begins a capture |
| `Dht11.FrameIsDecided` | stm32F407vet6主要程序/Software/DH11.c:165-179 | From the task call that releases the line: pulses of any five bytes, a one being high for more than 50 microseconds, interleaved with task calls before the timeout: at the next task call they are published if the last is the sum of the others modulo 256, and else no reading changes |
| `Dht11.RequestIsDecided` | stm32F407vet6主要程序/Software/DH11.c:145-179 | The same end to end from the task call that starts a request, with any edges in the start pulse |
| `Dht11.RequestIsPublished` | stm32F407vet6主要程序/Software/DH11.c:145-179 | So a request answered by a good frame publishes it |
| `Dht11.CorruptedByteIsDiscarded` | stm32F407vet6主要程序/Software/DH11.c:145-179 | And a frame in which exactly one byte of a good one is wrong never changes a reading |
| `Headings.WrapNormalises` | stm32F407vet6主要程序/Software/CarTurn.c:54-67 | One wrap brings every heading within 540 degrees into (-180, 180] and changes it by whole turns only |
| `Headings.UnrollIsNearest` | stm32F407vet6主要程序/Software/CarTurn.c:35-44 | The yaw that is compared is the measured one up to whole turns, within 180 degrees of the target |
| `Headings.TurnsTheShortWay` | stm32F407vet6主要程序/Software/CarTurn.c:30-51 | The turn controller output is five times the circular distance, turning by a fifth of it leads to the target, and it is zero only there |
| `Headings.CarTurn` | stm32F407vet6主要程序/Software/CarTurn.c:29-52 | One call moves the turn controller by the positional step at the unrolled yaw and drives the wheels opposite ways |
| `Headings.TurnEndTest` | stm32F407vet6主要程序/Software/SportMode.c:128 | The test that ends a turn holds if and only if the circular distance is below 5 and the two angles are not on opposite sides of 180 |
| `Headings.SeamIsMissed` | stm32F407vet6主要程序/Software/SportMode.c:128 | At two yaws the sensor can report: facing about from -1.40625 degrees, at -180 the test fails 1.40625 degrees from the target |
| `Obstacles.SeamTick` | stm32F407vet6主要程序/Software/SportMode.c:126-130 | A machine facing about there turns on |
| `Obstacles.SeamKeepsTurning` | stm32F407vet6主要程序/Software/SportMode.c:109-130 | And a run that reaches it |
| `Headings.CircularDistanceIsUnique` | stm32F407vet6主要程序/Software/CarTurn.c:54-67 | The circular distance is well defined |
| `Obstacles.Avoider.FindingObs` | stm32F407vet6主要程序/Software/SportMode.c:98-237 | One call moves the machine and commands the motors as its step function says |
| `Obstacles.TickKeepsSound` | stm32F407vet6主要程序/Software/SportMode.c:98-237 | Inductive invariant: the shown state mirrors the machine, the counter keeps its range in every state, and states 3, 5, 7 and 9 hold base +60, -60, +90 and -90 |
| `Obstacles.RunIsSound` | stm32F407vet6主要程序/Software/SportMode.c:98-237 | It holds after every run |
| `Obstacles.CounterIsBounded` | stm32F407vet6主要程序/Software/SportMode.c:116-200 | The counter never exceeds 101 |
| `Obstacles.RunAvoider` | stm32F407vet6主要程序/Software/SportMode.c:98-237 | Over any run the machine and its commands are those of the step function |
| `Obstacles.HeadingsAreNormalised` | stm32F407vet6主要程序/Software/SportMode.c:119-219 | Every heading the machine turns to or drives along is normalised and congruent to the one asked for |
| `Obstacles.TurnEndsNearHeading` | stm32F407vet6主要程序/Software/SportMode.c:126-194 | A turning state goes on to the next if and only if the circular distance to its heading is below 5 and does not cross 180 |
| `Obstacles.CounterTellsStanding` | stm32F407vet6主要程序/Software/SportMode.c:132-204 | In a looking state the counter is the number of executed calls since it was entered, all of which commanded a halt |
| `Obstacles.DrivesOnlyAfterAClearLook` | stm32F407vet6主要程序/Software/SportMode.c:132-212 | Driving begins only after exactly 100 executed halts in one looking state that ended with a distance above 400 |
| `Obstacles.DrivingHoldsTheHeading` | stm32F407vet6主要程序/Software/SportMode.c:206-227 | While driving, every command is to drive along the yaw measured on entry, or none |
| `Obstacles.DrivesUntilFar` | stm32F407vet6主要程序/Software/SportMode.c:214-235 | From its first tick on, while no executed call has seen a mileage above 350, every executed call drives on along the yaw measured on entry; the first above 350 halts, clears the counter and goes to state 0; calls under emergency stop halt and change nothing |
| `Obstacles.SearchesAround` | stm32F407vet6主要程序/Software/SportMode.c:116-204 | In every run the states 1 to 10 go by the yaw at which the obstacle was met: turn about, then 60 degrees to either side of that, then 90 |
| `Obstacles.SearchGoesInOrder` | stm32F407vet6主要程序/Software/SportMode.c:126-204 | A turning state leads to the looking state after it; a looking state, at its hundredth executed call, to driving on if the way is clear, else to the next turning state, and the last to state 0 |
| `Obstacles.FacesAboutAfterFifty` | stm32F407vet6主要程序/Software/SportMode.c:109-124 | The machine faces about exactly at the fiftieth executed call in a row that sees an obstacle, or at the first if the search before found no way |
| `Ethernet.WireIsFrame` | stm32F407vet6主要程序/drivers/drv_eth.c:204-251 | The buffers from a descriptor on hold a frame if and only if every byte lies at its position in the ring |
| `Ethernet.PreparedIsSent` | stm32F407vet6主要程序/libraries/STM32F4xx_HAL_Driver/Src/stm32f4xx_hal_eth.c:940-980 | For a frame up to the size of the ring, a DMA that walks the descriptors as the HAL programs them, from the first-segment mark to the last-segment mark, sends exactly what lies in the buffers |
| `Ethernet.OversizeIsNotSent` | stm32F407vet6主要程序/libraries/STM32F4xx_HAL_Driver/Src/stm32f4xx_hal_eth.c:946-980 | For a longer frame the HAL comes round to its own first descriptor: no first-segment mark is left, and from no descriptor anything is sent |
| `Ethernet.SendableIff` | stm32F407vet6主要程序/libraries/STM32F4xx_HAL_Driver/Src/stm32f4xx_hal_eth.c:940-980 | Some memory and descriptors make the DMA send a frame if and only if it is no longer than the ring |
| `Ethernet.LoseOversizeFrame` | stm32F407vet6主要程序/drivers/drv_eth.c:192-286 | With every descriptor free, any frame longer than the ring is accepted, and nothing is sent |
| `Ethernet.TxRing.CopyPbuf` | stm32F407vet6主要程序/drivers/drv_eth.c:218-250 | One packet buffer of any length is copied over as many descriptors as it needs, filling each before the next |
| `Ethernet.TxRing.Gather` | stm32F407vet6主要程序/drivers/drv_eth.c:204-251 | For every partition into packet buffers: accepted exactly if no visited descriptor is the DMA's, the length is the total, and each byte of the last lap of the concatenation lies at its position |
| `Ethernet.TxRing.TransmitFrame` | stm32F407vet6主要程序/libraries/STM32F4xx_HAL_Driver/Src/stm32f4xx_hal_eth.c:892-997 | Every descriptor of the frame's last lap has its marks, its size and the DMA as owner; only descriptors of the frame change |
| `Ethernet.TxRing.Transmit` | stm32F407vet6主要程序/drivers/drv_eth.c:192-286 | An accepted frame leaves whole, by the walk over the descriptors, if and only if it fits the ring; whatever the DMA was already to send from any descriptor stays as it was |
| `Ethernet.FillPbuf` | stm32F407vet6主要程序/drivers/drv_eth.c:332-351 | One packet buffer is filled from as many DMA buffers as it needs |
| `Ethernet.Scatter` | stm32F407vet6主要程序/drivers/drv_eth.c:326-353 | For every partition the packet buffers have their lengths and together hold the bytes received |
| `Ethernet.SearchIsResumed` | stm32F407vet6主要程序/libraries/STM32F4xx_HAL_Driver/Src/stm32f4xx_hal_eth.c:1085-1150 | A received frame is found when the last of its descriptors has arrived and not before; a search that came to some of them is taken up there by the next |
| `Ethernet.RxRing.GetReceivedFrame` | stm32F407vet6主要程序/libraries/STM32F4xx_HAL_Driver/Src/stm32f4xx_hal_eth.c:1085-1150 | The loop, which keeps first descriptor and segment count across calls, is the pure search on which the resumption is proved |
| `Ethernet.RxRing.Release` | stm32F407vet6主要程序/drivers/drv_eth.c:356-366 | Exactly the frame's descriptors go back to the DMA and nothing else of any descriptor changes |
| `Ethernet.RxRing.Receive` | stm32F407vet6主要程序/drivers/drv_eth.c:288-377 | For every state and partition: no frame, nothing changes but the search; else the packet buffers hold the bytes received, if there are any, and the descriptors go back to the DMA in any case |
| `Ethernet.DepositIsRead` | stm32F407vet6主要程序/drivers/drv_eth.c:326-353 | What the DMA deposits from any descriptor on is what is read back |
| `Ethernet.Collect` | stm32F407vet6主要程序/drivers/drv_eth.c:288-377 | A frame that has arrived with its checksum is received without it, whatever packet buffers it is cut into, and the DMA owns every descriptor again |
| `Ethernet.Loopback` | stm32F407vet6主要程序/drivers/drv_eth.c:192-377 | End to end, through the descriptors of both sides: what one driver accepts another receives unchanged, however either side partitions it |
| `DmaReceive.Port.constructor` | stm32F407vet6主要程序/drivers/drv_usart_v2.c:172 | Nothing has come in and the remembered counter is the ring size |
| `DmaReceive.Port.DmaRecvIsr` | stm32F407vet6主要程序/drivers/drv_usart_v2.c:383-425 | The remembered counter always agrees with what was announced, and a harmless interrupt announces exactly the bytes that came in |
| `DmaReceive.HarmlessIff` | stm32F407vet6主要程序/drivers/drv_usart_v2.c:396-415 | Exactly when an interrupt announces all outstanding bytes or none, per kind of interrupt |
| `DmaReceive.IdleCatchesUpIff` | stm32F407vet6主要程序/drivers/drv_usart_v2.c:398-403 | An idle interrupt catches up if and only if fewer bytes than the ring are outstanding |
| `DmaReceive.StaleRing` | stm32F407vet6主要程序/drivers/drv_usart_v2.c:410-412 | With nothing outstanding, transfer-complete announces a whole ring of stale bytes |
| `DmaReceive.DueModulo` | stm32F407vet6主要程序/drivers/drv_usart_v2.c:418-421 | After any announcement the announced count agrees with the received one modulo the ring size |
| `DmaReceive.EachInterrupt` | stm32F407vet6主要程序/drivers/drv_usart_v2.c:396-421 | In every reception with at least one and at most rx_bufsz bytes outstanding at transfer-complete and fewer at idle and half-transfer, each interrupt announces all outstanding bytes or none, and idle all |
| `DmaReceive.Serve` | stm32F407vet6主要程序/drivers/drv_usart_v2.c:383-425 | One byte or interrupt at the port keeps the announced bytes a prefix of what came in |
| `DmaReceive.Receive` | stm32F407vet6主要程序/drivers/drv_usart_v2.c:383-425 | Under that condition alone, over any sequence of bytes and interrupts: the announced bytes are a prefix of what came in, and all of it after an idle interrupt |
| `DmaReceive.PromptIsTimely` | stm32F407vet6主要程序/drivers/drv_usart_v2.c:383-425 | Interrupts served before the next byte meet the condition |
| `Flash.SectorOfItsCells` | stm32F407vet6主要程序/drivers/drv_flash_f4.c:58-93 | An address belongs to exactly the sector whose cells contain it |
| `Flash.RangeMeetsSector` | stm32F407vet6主要程序/drivers/drv_flash_f4.c:334-342 | The sectors from that of the first to that of the last address are exactly those the range meets |
| `Flash.PlanCovers` | stm32F407vet6主要程序/drivers/drv_flash_f4.c:232-287 | The programs issued are naturally aligned and cover the range in order, without gap or overlap |
| `Flash.PlanIsShortest` | stm32F407vet6主要程序/drivers/drv_flash_f4.c:232-287 | No aligned cover by bytes, halfwords and words needs fewer programs |
| `Flash.PlanIsShort` | stm32F407vet6主要程序/drivers/drv_flash_f4.c:232-287 | At most size / 4 + 4 programs |
| `Flash.RangeCheck` | stm32F407vet6主要程序/drivers/drv_flash_f4.c:217-221 | The range check admits every range inside the part; an admitted range is inside if and only if it does not begin below the part and its 32-bit sum does not wrap |
| `Flash.RangeCheckMisses` | stm32F407vet6主要程序/drivers/drv_flash_f4.c:217-221 | Two admitted ranges outside the part; erasing the first would clear the first sector |
| `Flash.Part.Read` | stm32F407vet6主要程序/drivers/drv_flash_f4.c:181-197 | For every address and size: the bytes loaded from the range, or the error; inside the part, its cells |
| `Flash.Part.WriteTurn` | stm32F407vet6主要程序/drivers/drv_flash_f4.c:232-287 | One turn issues the program of the plan; it fails if and only if a bit would have to be set |
| `Flash.Part.Write` | stm32F407vet6主要程序/drivers/drv_flash_f4.c:210-297 | Succeeds if and only if no bit has to be set; then the range holds the data, nothing else changed and the programs are those of the plan |
| `Flash.Part.EraseSector` | stm32F407vet6主要程序/drivers/drv_flash_f4.c:344 | Exactly the cells of one sector are erased |
| `Flash.Part.Erase` | stm32F407vet6主要程序/drivers/drv_flash_f4.c:309-360 | For every address and size: the sectors from that of the first to that of the last address are erased; inside the part a cell is erased if and only if its sector meets the range |
| `Flash.Part.Store` | stm32F407vet6主要程序/drivers/drv_flash_f4.c:181-360 | Round trip: erase, write and read return the data, and sectors the range does not meet are as before |
| `DecimalPrinters.Line.AppendUnsigned` | stm32F407vet6主要程序/Software/VL53_DMA.c:26-47 | Appends the decimal digits, never more than the 16 places of its scratch array |
| `DecimalPrinters.Line.AppendSigned` | stm32F407vet6主要程序/Software/VL53_DMA.c:49-58 | Appends sign and digits |
| `DecimalPrinters.Line.AppendFloat` | stm32F407vet6主要程序/Software/VL53_DMA.c:60-100 | The console printer appends the specified text, for every value and number of decimals that fits its signed integers |
| `DecimalPrinters.Line.AppendFixed` | stm32F407vet6主要程序/applications/main.c:55-95 | The display printer appends the same text, though it rounds first and cuts off, for all that fits its unsigned integers |
| `DecimalPrinters.RoundedFraction` | stm32F407vet6主要程序/Software/VL53_DMA.c:78-84 | Rounding the fraction with a carry into the whole part yields quotient and remainder of the rounded total |
| `DecimalPrinters.CutFraction` | stm32F407vet6主要程序/applications/main.c:73-75 | Adding half a unit and cutting both parts off yields the same |
| `DecimalPrinters.RoundsHalfAwayFromZero` | stm32F407vet6主要程序/Software/VL53_DMA.c:78-84 | The printed number is within half a unit of the value, no other is closer, and of two as close it is the one away from zero |
| `DecimalPrinters.PrintedRoundTrip` | stm32F407vet6主要程序/Software/VL53_DMA.c:60-100 | The text reads back as the rounded value with its sign and places |
| `DecimalPrinters.DecimalRoundTrip` | stm32F407vet6主要程序/applications/main.c:32-53 | A printed integer reads back as itself |
| `DecimalPrinters.NoLeadingZero` | stm32F407vet6主要程序/applications/main.c:32-53 | No leading zeros are printed |
| `DecimalPrinters.LastDigitsAt` | stm32F407vet6主要程序/applications/main.c:82-93 | The i-th printed place is the digit the division picks out |
| `Motors.Mypid.POut` | stm32F407vet6主要程序/Software/Mypid.c:63-73 | Every field moves as the positional step on which the run theorems are stated, the last error remembered for the derivative |
| `Motors.Mypid.POutMax` | stm32F407vet6主要程序/Software/Mypid.c:75-88 | Is the positional controller: its limit has no effect on the output |
| `Motors.Mypid.IOut` | stm32F407vet6主要程序/Software/Mypid.c:105-114 | Every field moves as the incremental step on which the run theorems are stated |
| `Motors.Mypid.IOutMax` | stm32F407vet6主要程序/Software/Mypid.c:116-134 | Every field moves as the incremental step with the output brought into [-Max, Max] |
| `Motors.IncrementsAddUp` | stm32F407vet6主要程序/Software/Mypid.c:105-114 | After any run from rest the incremental output is Kp times the last error plus Ki times the sum of all errors |
| `Motors.PositionIs` | stm32F407vet6主要程序/Software/Mypid.c:63-73 | After any run from rest the positional output is that plus Kd times the last difference of errors |
| `Motors.IncrementalIsPositional` | stm32F407vet6主要程序/Software/Mypid.c:63-114 | Over any run from rest positional and incremental output differ by the derivative term alone, so they are equal if Kd is zero |
| `Motors.LimitedAgreesWithin` | stm32F407vet6主要程序/Software/Mypid.c:116-134 | Until the first saturation the limited controller is the unlimited one |
| `Motors.FirstSaturation` | stm32F407vet6主要程序/Software/Mypid.c:122-129 | At the first saturation the output is the limit if the unlimited output exceeds it, minus the limit if that is below minus the limit, and else the unlimited one |
| `Motors.LimitedFromRest` | stm32F407vet6主要程序/Software/Mypid.c:116-134 | So from rest it is Kp times the last error plus Ki times the sum, or the limit on that side |
| `Motors.LimitedIs` | stm32F407vet6主要程序/Software/Mypid.c:116-134 | One call from any state adds Kp times the change of the error plus Ki times the error, and limits the result on its side |
| `Motors.LimitedMoves` | stm32F407vet6主要程序/Software/Mypid.c:116-134 | So does every call of any run, beyond saturations too |
| `Motors.AlwaysWithinLimit` | stm32F407vet6主要程序/Software/Mypid.c:122-129 | After any run from any state the output is within the limit |
| `Motors.Drive.SetCCR` | stm32F407vet6主要程序/Software/TB6612.c:60-100 | Direction is the sign, duty the size, at most 4199 |
| `Motors.Drive.PidTarget` | stm32F407vet6主要程序/Software/TB6612.c:102-109 | The duty is the truncated controller output itself; the second limit never acts |
| `Motors.Drive.PidTargetRamp` | stm32F407vet6主要程序/Software/TB6612.c:111-169 | Targets take one ramp step, then as above |
| `Motors.RampIs` | stm32F407vet6主要程序/Software/TB6612.c:111-165 | After n calls from any target a ramp is at min(speed, target + 40n) or max(speed, target - 40n) |
| `Motors.RampArrivesIff` | stm32F407vet6主要程序/Software/TB6612.c:111-165 | It has arrived exactly when the steps cover the way |
| `Motors.FollowRamp` | stm32F407vet6主要程序/Software/TB6612.c:111-169 | Whatever the encoders read, both targets follow the closed form and no duty exceeds 4199 |
| `MicroDelay.OneLook` | stm32F407vet6主要程序/drivers/drv_common.c:145-154 | A look counts no more than has passed, and just one cycle less per reload if it comes within a period |
| `MicroDelay.UsDelay` | stm32F407vet6主要程序/drivers/drv_common.c:134-162 | For any looks: never returns before its ticks have passed; with looks within a period it counts all but a cycle per reload and returns at the first look that shows its ticks |
| `MicroDelay.TicksAreMeantIff` | stm32F407vet6主要程序/drivers/drv_common.c:140 | The tick count is the one meant if and only if the product fits 32 bits |
| `MicroDelay.DelayWraps` | stm32F407vet6主要程序/drivers/drv_common.c:140 | 25566 microseconds at 168 MHz, taken for 95 ticks instead of four million |
| `LeafVote.VoteState` | MaixCam视觉/green.py:417-436 | The scored table and its search find the vote |
| `LeafVote.WeightOfFive` | MaixCam视觉/green.py:420-424 | In a full window the frames weigh one to five, the newest most |
| `LeafVote.VoteByWeights` | MaixCam视觉/green.py:426-436 | Exactly when each state wins, by weights alone: rot gets 1.5 if present, yellow 1.0 if present and rot is not, and of equals the first in the order normal, yellow, rot, none wins |
| `LeafVote.NewRotWins` | MaixCam视觉/green.py:426-436 | A rotten leaf in the newest frame outvotes three normal ones and a yellow one |
| `LeafVote.TwoNewestWin` | MaixCam视觉/green.py:417-436 | Two newest equal frames outvote any rest of a window of at most five, bonus included |
| `LeafVote.VoteIsPresent` | MaixCam视觉/green.py:417-436 | Only a state shown in the window can win |
| `LeafVote.Stabiliser.Frame` | MaixCam视觉/green.py:632-639 | A frame keeps window, pending value, count and stable state what the frames so far determine |
| `LeafVote.CountToThree` | MaixCam视觉/green.py:439-449 | Counting agreeing votes to three is looking at the last three votes |
| `LeafVote.FourFramesDecide` | MaixCam视觉/green.py:632-639 | Four equal frames decide the stable state, whatever came before |
| `LeafVote.ThreeFramesMayNot` | MaixCam视觉/green.py:632-639 | After four rotten frames three normal ones never change it |
| `LeafVote.ChangesAreVoted` | MaixCam视觉/green.py:439-449 | Every change is to a value voted in three consecutive frames and seen in each of their windows |
| `LeafVote.NoFlicker` | MaixCam视觉/green.py:439-449 | Once changed, the stable state is the same after each of the next two frames |
| `Alarms.Voice.Check` | stm32F407vet6主要程序/Software/usart6.c:17-75 | One check says at most one alarm and moves latches and wait as the step function says |
| `Alarms.RepeatsOnlyAfterClearing` | stm32F407vet6主要程序/Software/usart6.c:59-74 | Over every run no alarm is repeated before a reading that clears it: distance at least 400, gas below 7.4, soil flag zero, humidity below 65 |
| `Alarms.ClearingRearms` | stm32F407vet6主要程序/Software/usart6.c:59-74 | And each such reading arms the alarm again |
| `Alarms.SaidIsSo` | stm32F407vet6主要程序/Software/usart6.c:33-56 | What is said is so: distance between 0 and 400, gas at least 9.0, soil flag one, humidity at least 70 |
| `Alarms.SaidAtOnce` | stm32F407vet6主要程序/Software/usart6.c:33-56 | An armed alarm is said at once if its cause is there and none before it asks for attention |
| `Alarms.ObstaclesAreSpaced` | stm32F407vet6主要程序/Software/usart6.c:26-41 | Obstacle alarms are at least 800 checks apart |
| `Alarms.PersistentAirIsHeard` | stm32F407vet6主要程序/Software/usart6.c:31-46 | Bad air that persists is announced within 802 checks even while obstacles keep the voice busy |
| `Alarms.PersistentIsHeardIff` | stm32F407vet6主要程序/Software/usart6.c:31-56 | An alarm that is armed and whose cause persists is heard if and only if at some check nothing holds it back: no alarm before it is due, and the obstacle alarm need not wait |
| `Alarms.PersistentObstacleIsHeard` | stm32F407vet6主要程序/Software/usart6.c:26-41 | An obstacle that stays is announced exactly at the check at which the wait has run down, and nothing is said until then |
| `Alarms.PersistentIsHeard` | stm32F407vet6主要程序/Software/usart6.c:31-74 | Any alarm that is armed and whose cause persists is heard within 803 checks, unless a reading arms an alarm before it again |
| `Alarms.SoilAndHumidityStarve` | stm32F407vet6主要程序/Software/usart6.c:31-74 | In every run that alternates between an obstacle in clean air and a clear way in bad air, no soil or humidity alarm is ever said, whatever soil and humidity are |
| `Alarms.StarvingRun` | stm32F407vet6主要程序/Software/usart6.c:31-74 | Such a run of any length: both causes call at every check, both alarms stay armed, neither is said |

## Left out

- RT-Thread threads, semaphores and devices: a read delivers an arbitrary chunk; queues between interrupt and thread are not part of this model.
- Opening, configuring and closing ports and peripherals, pin and interrupt set-up, HAL status polling: register plumbing. Where the HAL's effect matters (Ethernet descriptors, flash programs and erases) it is modelled and assumed to succeed.
- Double buffering of transmissions (`ActiveBuffer_U1` and its like): only easy members.
- IEEE rounding: yaw, PID, printers and scores use exact reals, so ties and carries are those of real arithmetic.
- CommandLink.RxEntry: of the clock, and only of the clock, nothing is claimed from a frame that reads it from the memory behind itself up to the next clock frame that does not; what that memory holds is not part of this model.
- CommandLink.TryParse: as `RxEntry`.
- CommandLink.Deliver: as `RxEntry`.
- CameraLink.RxEntry: of a part of the view that an echo has spoiled nothing is claimed until a packet reports it again; an echo whose tail lies inside its packet is misread in every memory, one whose tail would lie behind it in some.
- CameraLink.TryParse: as `RxEntry`.
- CameraLink.Deliver: as `RxEntry`.
- CameraLink.Session: requires that no packet echoes; the exact condition and a misread are proved separately.
- SensorPorts.RxEntry: requires reads that leave room for a partial frame; longer ones do not occur.
- ModeLink.BurstsGetThrough: requires reads of at most 61 bytes; a read longer than the buffer cuts off earlier bursts, and `LongReadLeaves` says what it leaves.
- PanelLink.Panel.Handle: the type and text labels and the hexadecimal dump of an event are left out; the values are not.
- Dht11.Sensor.Task10ms: the `DHT11_*` getters are left out, and a task call is not interrupted halfway.
- Obstacles.Avoider.FindingObs: `Milleage1` and `Milleage2` are inputs; the PID inside `Car_Turn` and `Car_Goline` is represented by the heading commanded (`Headings.CarTurn` is the call itself).
- Obstacles.TurnEndsNearHeading: that a turn ever ends depends on the vehicle and is not claimed.
- Ethernet.TxRing.Gather: descriptors the DMA releases during the call are taken as released before or after it.
- Ethernet.TxRing.Transmit: what the DMA is to send is read off the descriptors when the call returns, not while they are being programmed.
- Ethernet.RxRing.Receive: restarting a stalled DMA through its poll registers is left out; error flags of received frames are not looked at by the code either.
- DmaReceive.Port.DmaRecvIsr: of an interrupt that is not harmless only the number announced is stated; reading from the serial framework's ring happens later in the program; an announcement here shows the ring's bytes at the time it is made.
- Flash.Part.Write: admitted ranges outside the part are excluded, since what the bus does with programs there is not known; the little-endian word and halfword values are kept as their bytes, and HAL programming errors do not occur.
- DecimalPrinters.Line.AppendFloat: values and decimals that exceed 32-bit integers are excluded, here and for `AppendFixed`, as is writing past the caller's buffer, which the code does not check either.
- Motors.Drive.PidTargetRamp: both motors are treated alike by one member per step; the emergency stop across modes is not claimed.
- MicroDelay.UsDelay: a reload value of zero, which stops the timer, is excluded; loop and interrupt time appear only through the looks.
- LeafVote.Stabiliser.Frame: object detection, and the resending of the stable state by time, are left out.
- `Finding_light`, `MaixCam_Sport`, `Maixcam_SetMode`'s call counter, `drv_pwm.c`, `main_pad_line`, `fifo.c`, `drv_pm.c`, `voc_relabel.py`, `auth_state.py`, the panel's widgets and the camera's vision code: further state machines of the same kind, or only easy members.
- `PID_pOut_bujinMax`: as `PID_pOut_Max`.
