/**
  The telemetry stream: the controller's packets and their round robin
  (usart5.c), and the desktop panel's buffer parser and frame handlers
  (serial_panel.py).
 */
module PanelLink {
  import opened Streams
  import opened Options
  import SensorPorts

  // --- The panel's parser --------------------------------------------------

  /** The length announced by the type bytes of a frame, if they are known. */
  function ExpectedLength(s: seq<Byte>): Option<nat> {
    if |s| < 2 || s[0] != 0xAA then None
    else if s[1] == 0x10 then
      if |s| < 3 then None
      else if 0x10 <= s[2] <= 0x13 then Some(6)
      else None
    else if s[1] == 0x20 then Some(7)
    else if s[1] == 0x30 || s[1] == 0x70 then Some(4)
    else None
  }

  /** The panel resynchronises: a header with an unknown type or a wrong tail is skipped by one byte. */
  function Next(s: seq<Byte>): Move<seq<Byte>> {
    if |s| == 0 then Wait
    else if s[0] != 0xAA then Drop(1)
    else if |s| < 4 then Wait
    else
      match ExpectedLength(s)
      case None => Drop(1)
      case Some(n) => if |s| < n then Wait else if s[n - 1] != 0x55 then Drop(1) else Take(n, s[..n])
  }

  function Front(): (next: Parser<seq<Byte>>)
    ensures Proper(next)
  {
    s => Next(s)
  }

  lemma FrontIsSteadfast()
    ensures Steadfast(Front())
  {
    forall s, t | !Next(s).Wait? ensures Next(s + t) == Next(s) {
      if Next(s).Take? {
        assert (s + t)[..Next(s).count] == s[..Next(s).count];
      }
    }
  }

  /** The bytes from the first header byte on. */
  function FromHeader(s: seq<Byte>): (t: seq<Byte>)
    ensures |t| <= |s|
    ensures |t| == 0 || t[0] == 0xAA
    decreases |s|
  {
    if |s| == 0 || s[0] == 0xAA then s else FromHeader(s[1..])
  }

  lemma {:induction false} GarbageIsSkipped(s: seq<Byte>, t: seq<Byte>)
    ensures Scan(Front(), s + t) == Scan(Front(), FromHeader(s) + t)
    decreases |s|
  {
    if |s| > 0 && s[0] != 0xAA {
      assert (s + t)[1..] == s[1..] + t;
      GarbageIsSkipped(s[1..], t);
    }
  }

  lemma {:induction false} ShortBufferWaits(s: seq<Byte>)
    requires |s| < 4
    ensures Scan(Front(), s) == Scanned([], FromHeader(s))
    decreases |s|
  {
    if |s| > 0 && s[0] != 0xAA {
      ShortBufferWaits(s[1..]);
    }
  }

  /** What exactly is left in the buffer: under four bytes nothing is touched, garbage included. */
  function Left(s: seq<Byte>): (left: seq<Byte>)
    decreases |s|
  {
    var h := FromHeader(s);
    if |s| < 4 then s
    else if |h| < 4 then h
    else if Next(h).Wait? then h
    else Left(h[Next(h).count..])
  }

  // The index of the first header byte, or -1.
  function Find(s: seq<Byte>): (i: int)
    ensures -1 <= i < |s|
    ensures FromHeader(s) == if i < 0 then [] else s[i..]
    ensures 0 <= i ==> s[i] == 0xAA
    decreases |s|
  {
    if |s| == 0 then -1
    else if s[0] == 0xAA then 0
    else
      var j := Find(s[1..]);
      if j < 0 then -1 else j + 1
  }

  // --- Frames and what they tell -------------------------------------------

  datatype Event =
    | SoilMoisture(percent: real)
    | Temperature(celsius: real)
    | AirHumidity(percent: real)
    | AirQuality(ppm: int)
    | Obstacle(angle: real, distance: int)
    | LeafStatus(code: Byte)
    | PlantType(code: Byte)

  function Word(high: Byte, low: Byte): U16 {
    high as int * 0x100 + low as int
  }

  /** The event a complete frame is turned into. */
  function Tell(frame: seq<Byte>): Option<Event> {
    if |frame| == 6 && frame[1] == 0x10 then
      var raw := Word(frame[3], frame[4]);
      if frame[2] == 0x10 then Some(SoilMoisture(raw as real / 10.0))
      else if frame[2] == 0x11 then Some(Temperature(raw as real / 10.0))
      else if frame[2] == 0x12 then Some(AirHumidity(raw as real / 10.0))
      else if frame[2] == 0x13 then Some(AirQuality(raw))
      else None
    else if |frame| == 7 && frame[1] == 0x20 then
      Some(Obstacle(Word(frame[2], frame[3]) as real / 32768.0 * 180.0, Word(frame[4], frame[5])))
    else if |frame| == 4 && frame[1] == 0x30 then Some(LeafStatus(frame[2]))
    else if |frame| == 4 && frame[1] == 0x70 then Some(PlantType(frame[2]))
    else None
  }

  function Told(frame: seq<Byte>): seq<Event> {
    match Tell(frame)
    case None => []
    case Some(e) => [e]
  }

  function TellAll(frames: seq<seq<Byte>>): seq<Event> {
    if |frames| == 0 then [] else TellAll(frames[..|frames| - 1]) + Told(frames[|frames| - 1])
  }

  class Panel {
    var receiveBuffer: seq<Byte>
    // The signals emitted so far.
    var events: seq<Event>

    constructor ()
      ensures receiveBuffer == [] && events == []
    {
      receiveBuffer, events := [], [];
    }

    method Handle(frame: seq<Byte>)
      modifies this`events
      ensures events == old(events) + TellAll([frame])
    {
      assert TellAll([frame][..0]) == [];
      match Tell(frame) {
        case None =>
        case Some(e) => events := events + [e];
      }
    }

    /** Deletes what precedes the first header byte, everything if there is none. */
    method SeekHeader()
      modifies this`receiveBuffer
      ensures receiveBuffer == FromHeader(old(receiveBuffer))
    {
      var header := Find(receiveBuffer);
      if header < 0 {
        receiveBuffer := [];
      } else if header > 0 {
        receiveBuffer := receiveBuffer[header..];
      }
    }

    /** At a header: skip it, take a frame, or wait for the rest of one. */
    method TryFrame(frames: seq<seq<Byte>>, ghost whole: Scanned<seq<Byte>>, ghost was: seq<Event>)
      returns (frames': seq<seq<Byte>>, waiting: bool)
      requires |receiveBuffer| >= 4 && receiveBuffer[0] == 0xAA
      requires whole == Emit(frames, Scan(Front(), receiveBuffer))
      requires events == was + TellAll(frames)
      modifies this
      ensures waiting ==> receiveBuffer == old(receiveBuffer) && Next(receiveBuffer).Wait?
      ensures !waiting ==> |receiveBuffer| < old(|receiveBuffer|)
      ensures whole == Emit(frames', Scan(Front(), receiveBuffer))
      ensures events == was + TellAll(frames')
      ensures !waiting ==> !Next(old(receiveBuffer)).Wait? && receiveBuffer == old(receiveBuffer)[Next(old(receiveBuffer)).count..]
    {
      frames', waiting := frames, false;
      match ExpectedLength(receiveBuffer) {
        case None =>
          receiveBuffer := receiveBuffer[1..];
        case Some(n) =>
          if |receiveBuffer| < n {
            waiting := true;
          } else if receiveBuffer[n - 1] != 0x55 {
            receiveBuffer := receiveBuffer[1..];
          } else {
            var frame := receiveBuffer[..n];
            EmitAppends(frames, [frame], Scan(Front(), receiveBuffer[n..]));
            TellOneMore(was, frames, frame);
            Handle(frame);
            frames' := frames + [frame];
            receiveBuffer := receiveBuffer[n..];
          }
      }
    }

    /** Parses the receive buffer in place; `frames` records the frames handled. */
    method ParseReceiveBuffer() returns (frames: seq<seq<Byte>>)
      modifies this
      ensures frames == Scan(Front(), old(receiveBuffer)).items
      ensures FromHeader(receiveBuffer) == Scan(Front(), old(receiveBuffer)).residue
      ensures receiveBuffer == Left(old(receiveBuffer))
      ensures events == old(events) + TellAll(frames)
    {
      ghost var whole, was := Scan(Front(), receiveBuffer), events;
      frames := [];
      EmitAppends([], [], whole);
      var waiting := false;
      while |receiveBuffer| >= 4 && !waiting
        invariant whole == Emit(frames, Scan(Front(), receiveBuffer))
        invariant waiting ==> Scan(Front(), receiveBuffer) == Scanned([], FromHeader(receiveBuffer))
        invariant if waiting then receiveBuffer == Left(old(receiveBuffer)) else Left(receiveBuffer) == Left(old(receiveBuffer))
        invariant events == was + TellAll(frames)
        decreases !waiting, |receiveBuffer|
      {
        SkipToHeader(receiveBuffer);
        SeekHeader();
        if |receiveBuffer| < 4 {
          ShortBufferWaits(receiveBuffer);
          waiting := true;
        } else {
          frames, waiting := TryFrame(frames, whole, was);
        }
      }
      if !waiting {
        ShortBufferWaits(receiveBuffer);
      }
      assert frames + [] == frames;
    }
  }

  lemma SkipToHeader(s: seq<Byte>)
    ensures Scan(Front(), s) == Scan(Front(), FromHeader(s))
  {
    GarbageIsSkipped(s, []);
    assert s + [] == s && FromHeader(s) + [] == FromHeader(s);
  }

  lemma {:induction false} TellOneMore(was: seq<Event>, frames: seq<seq<Byte>>, frame: seq<Byte>)
    ensures was + TellAll(frames + [frame]) == (was + TellAll(frames)) + TellAll([frame])
  {
    TellMore(was, frames, [frame]);
  }

  // --- Any chunks of any stream --------------------------------------------

  lemma {:induction false} FromHeaderAppend(s: seq<Byte>, t: seq<Byte>)
    ensures FromHeader(s + t) == if |FromHeader(s)| == 0 then FromHeader(t) else FromHeader(s) + t
    decreases |s|
  {
    if |s| == 0 {
      assert s + t == t;
    } else if s[0] != 0xAA {
      assert (s + t)[1..] == s[1..] + t;
      FromHeaderAppend(s[1..], t);
    }
  }

  /** _read_serial_data: one read is appended and the buffer parsed. */
  method ReadOne(panel: Panel, chunk: seq<Byte>) returns (frames: seq<seq<Byte>>)
    modifies panel
    ensures var got := Scan(Front(), FromHeader(old(panel.receiveBuffer)) + chunk);
            frames == got.items && FromHeader(panel.receiveBuffer) == got.residue
    ensures panel.receiveBuffer == Left(old(panel.receiveBuffer) + chunk)
    ensures panel.events == old(panel.events) + TellAll(frames)
  {
    GarbageIsSkipped(panel.receiveBuffer, chunk);
    panel.receiveBuffer := panel.receiveBuffer + chunk;
    frames := panel.ParseReceiveBuffer();
  }

  // What exactly is in the buffer after some reads.
  function LeftAll(buffer: seq<Byte>, chunks: seq<seq<Byte>>): seq<Byte>
    decreases |chunks|
  {
    if |chunks| == 0 then buffer else LeftAll(Left(buffer + chunks[0]), chunks[1..])
  }

  // The whole stream, `frames` having been handled and `chunks` being still to come.
  ghost predicate Feeding(whole: Scanned<seq<Byte>>, frames: seq<seq<Byte>>, kept: seq<Byte>, chunks: seq<seq<Byte>>) {
    whole == Emit(frames, Feed(Front(), kept, chunks))
  }

  lemma {:induction false} FeedingTurn(whole: Scanned<seq<Byte>>, frames: seq<seq<Byte>>, kept: seq<Byte>,
                                       chunks: seq<seq<Byte>>, got: Scanned<seq<Byte>>)
    requires |chunks| > 0 && Feeding(whole, frames, kept, chunks)
    requires got == Scan(Front(), kept + chunks[0])
    ensures Feeding(whole, frames + got.items, got.residue, chunks[1..])
  {
    EmitAppends(frames, got.items, Feed(Front(), got.residue, chunks[1..]));
  }

  /**
    The panel over any sequence of reads, on arbitrary bytes: the frames
    handled are those of the whole stream, and what is kept agrees with it
    once leading garbage is disregarded.
   */
  method ReadAll(panel: Panel, chunks: seq<seq<Byte>>) returns (frames: seq<seq<Byte>>)
    requires Next(FromHeader(panel.receiveBuffer)).Wait?
    modifies panel
    ensures frames == Scan(Front(), old(panel.receiveBuffer) + Flatten(chunks)).items
    ensures FromHeader(panel.receiveBuffer) == Scan(Front(), old(panel.receiveBuffer) + Flatten(chunks)).residue
    ensures panel.receiveBuffer == LeftAll(old(panel.receiveBuffer), chunks)
    ensures panel.events == old(panel.events) + TellAll(frames)
  {
    ghost var was := panel.events;
    ghost var whole := Scan(Front(), panel.receiveBuffer + Flatten(chunks));
    StartFeeding(panel.receiveBuffer, chunks);
    frames := [];
    var rest := chunks;
    while |rest| > 0
      invariant Feeding(whole, frames, FromHeader(panel.receiveBuffer), rest)
      invariant LeftAll(panel.receiveBuffer, rest) == LeftAll(old(panel.receiveBuffer), chunks)
      invariant panel.events == was + TellAll(frames)
    {
      ghost var kept := FromHeader(panel.receiveBuffer);
      var got := ReadOne(panel, rest[0]);
      TellMore(was, frames, got);
      FeedingTurn(whole, frames, kept, rest, Scanned(got, FromHeader(panel.receiveBuffer)));
      frames := frames + got;
      rest := rest[1..];
    }
    FeedingEnds(whole, frames, FromHeader(panel.receiveBuffer), rest);
  }

  lemma {:induction false} StartFeeding(buffer: seq<Byte>, chunks: seq<seq<Byte>>)
    requires Next(FromHeader(buffer)).Wait?
    ensures Feeding(Scan(Front(), buffer + Flatten(chunks)), [], FromHeader(buffer), chunks)
  {
    FrontIsSteadfast();
    FeedIsWholeScan(Front(), FromHeader(buffer), chunks);
    GarbageIsSkipped(buffer, Flatten(chunks));
    var whole := Feed(Front(), FromHeader(buffer), chunks);
    assert [] + whole.items == whole.items;
  }

  lemma {:induction false} FeedingEnds(whole: Scanned<seq<Byte>>, frames: seq<seq<Byte>>, kept: seq<Byte>,
                                       chunks: seq<seq<Byte>>)
    requires Feeding(whole, frames, kept, chunks) && |chunks| == 0
    ensures whole == Scanned(frames, kept)
  {
    assert frames + [] == frames;
  }

  lemma {:induction false} TellConcat(a: seq<seq<Byte>>, b: seq<seq<Byte>>)
    ensures TellAll(a + b) == TellAll(a) + TellAll(b)
    decreases |b|
  {
    if |b| == 0 {
      assert a + b == a;
    } else {
      LastOfTwo(a, b);
      TellConcat(a, b[..|b| - 1]);
      Associate(TellAll(a), TellAll(b[..|b| - 1]), Told(b[|b| - 1]));
    }
  }

  lemma {:induction false} TellMore(was: seq<Event>, frames: seq<seq<Byte>>, got: seq<seq<Byte>>)
    ensures was + TellAll(frames + got) == (was + TellAll(frames)) + TellAll(got)
  {
    TellConcat(frames, got);
    Associate(was, TellAll(frames), TellAll(got));
  }

  // --- The controller's telemetry ------------------------------------------

  /** What the telemetry task reads when it is called. */
  datatype Sample = Sample(soil: real, temperature: real, humidity: real, air: real, distance: U16,
                           obsYaw2: Byte, obsYaw3: Byte, blade: Byte, plantType: Byte)
  {
    // The ranges of the sources: soil moisture and gas readings fit 16 bits, the
    // climate sensor delivers one byte and tenths counted by another.
    predicate Valid() {
      0.0 <= soil < 6553.6 && 0.0 <= temperature <= 280.5 && 0.0 <= humidity <= 280.5 && 0.0 <= air < 65536.0
    }
  }

  function High(n: nat): Byte {
    n / 0x100 % 0x100
  }

  function Low(n: nat): Byte {
    n % 0x100
  }

  function SensorPacket(kind: Byte, n: nat): seq<Byte> {
    [0xAA, 0x10, kind, High(n), Low(n), 0x55]
  }

  /** The packet sent in slot `slot` of the round robin. */
  function PacketOf(slot: nat, d: Sample): seq<Byte>
    requires slot < 7 && d.Valid()
  {
    if slot == 0 then SensorPacket(0x10, (d.soil * 10.0).Floor)
    else if slot == 1 then SensorPacket(0x11, d.temperature.Floor * 10)
    else if slot == 2 then SensorPacket(0x12, d.humidity.Floor * 10)
    else if slot == 3 then SensorPacket(0x13, d.air.Floor)
    else if slot == 4 then [0xAA, 0x20, d.obsYaw2, d.obsYaw3, High(d.distance), Low(d.distance), 0x55]
    else if slot == 5 then [0xAA, 0x30, d.blade, 0x55]
    else [0xAA, 0x70, d.plantType, 0x55]
  }

  predicate IsSensorPack(pack: seq<Byte>, kind: Byte) {
    |pack| == 6 && pack[0] == 0xAA && pack[1] == 0x10 && pack[2] == kind && pack[5] == 0x55
  }

  // Overwrites the two bytes at `at` with a 16-bit value, high byte first.
  function WithWord(pack: seq<Byte>, at: nat, n: nat): (pack': seq<Byte>)
    requires at + 1 < |pack|
  {
    pack[at := High(n)][at + 1 := Low(n)]
  }

  lemma SensorPackFilled(pack: seq<Byte>, kind: Byte, n: nat)
    requires IsSensorPack(pack, kind)
    ensures WithWord(pack, 3, n) == SensorPacket(kind, n)
    ensures IsSensorPack(SensorPacket(kind, n), kind)
  {
  }

  class Uplink {
    var Soilpack: seq<Byte>
    var Temppack: seq<Byte>
    var Humipack: seq<Byte>
    var Airpack: seq<Byte>
    var Obspack: seq<Byte>
    var Plantstatepack: seq<Byte>
    var PlantTypepack: seq<Byte>
    var cnt: Byte

    ghost predicate Valid()
      reads this
    {
      && IsSensorPack(Soilpack, 0x10) && IsSensorPack(Temppack, 0x11)
      && IsSensorPack(Humipack, 0x12) && IsSensorPack(Airpack, 0x13)
      && |Obspack| == 7 && Obspack[0] == 0xAA && Obspack[1] == 0x20 && Obspack[6] == 0x55
      && |Plantstatepack| == 4 && Plantstatepack[0] == 0xAA && Plantstatepack[1] == 0x30 && Plantstatepack[3] == 0x55
      && |PlantTypepack| == 4 && PlantTypepack[0] == 0xAA && PlantTypepack[1] == 0x70 && PlantTypepack[3] == 0x55
      && cnt < 28
    }

    constructor ()
      ensures Valid() && cnt == 0
    {
      Soilpack := [0xAA, 0x10, 0x10, 0x00, 0x00, 0x55];
      Temppack := [0xAA, 0x10, 0x11, 0x00, 0x00, 0x55];
      Humipack := [0xAA, 0x10, 0x12, 0x00, 0x00, 0x55];
      Airpack := [0xAA, 0x10, 0x13, 0x00, 0x00, 0x55];
      Obspack := [0xAA, 0x20, 0x00, 0x00, 0x00, 0x00, 0x55];
      Plantstatepack := [0xAA, 0x30, 0x00, 0x55];
      PlantTypepack := [0xAA, 0x70, 0x00, 0x55];
      cnt := 0;
    }

    // Refreshes all packets from the sample.
    method Refresh(d: Sample)
      requires Valid() && d.Valid()
      modifies this
      ensures Valid() && cnt == old(cnt)
      ensures Soilpack == PacketOf(0, d) && Temppack == PacketOf(1, d)
      ensures Humipack == PacketOf(2, d) && Airpack == PacketOf(3, d)
      ensures Obspack == PacketOf(4, d) && Plantstatepack == PacketOf(5, d) && PlantTypepack == PacketOf(6, d)
    {
      var percentSoil := (d.soil * 10.0).Floor;
      var airppm := d.air.Floor;
      SensorPackFilled(Soilpack, 0x10, percentSoil);
      SensorPackFilled(Temppack, 0x11, d.temperature.Floor * 10);
      SensorPackFilled(Humipack, 0x12, d.humidity.Floor * 10);
      SensorPackFilled(Airpack, 0x13, airppm);
      Soilpack := WithWord(Soilpack, 3, percentSoil);
      Temppack := WithWord(Temppack, 3, d.temperature.Floor * 10);
      Humipack := WithWord(Humipack, 3, d.humidity.Floor * 10);
      Airpack := WithWord(Airpack, 3, airppm);
      // Bytes 2 and 3 are written by the attitude handler as frames arrive.
      Obspack := Obspack[2 := d.obsYaw2][3 := d.obsYaw3];
      Obspack := WithWord(Obspack, 4, d.distance);
      Plantstatepack := Plantstatepack[2 := d.blade];
      PlantTypepack := PlantTypepack[2 := d.plantType];
    }

    /** One call of the telemetry task: every fourth call sends one packet, the seven in turn. */
    method SendData(d: Sample) returns (sent: Option<seq<Byte>>)
      requires Valid() && d.Valid()
      modifies this
      ensures Valid() && cnt as int == (old(cnt) as int + 1) % 28
      ensures var n := old(cnt) as int + 1;
              sent == if n % 4 == 0 then Some(PacketOf(n / 4 - 1, d)) else None
    {
      Refresh(d);
      cnt := cnt + 1;
      sent := None;
      if cnt == 1 * 4 { sent := Some(Soilpack); }
      if cnt == 2 * 4 { sent := Some(Temppack); }
      if cnt == 3 * 4 { sent := Some(Humipack); }
      if cnt == 4 * 4 { sent := Some(Airpack); }
      if cnt == 5 * 4 { sent := Some(Obspack); }
      if cnt == 6 * 4 { sent := Some(Plantstatepack); }
      if cnt == 7 * 4 { sent := Some(PlantTypepack); }
      cnt := cnt % 28;
    }
  }

  // --- All calls of the telemetry task -------------------------------------

  ghost predicate AllValid(ds: seq<Sample>) {
    forall i | 0 <= i < |ds| :: ds[i].Valid()
  }

  // The slot served by call number `n`, counted from one, if it sends.
  function SlotOf(n: nat): nat
    requires n >= 4
  {
    (n / 4 - 1) % 7
  }

  /** The packets sent by a run of calls. */
  function Sent(ds: seq<Sample>): (sent: seq<seq<Byte>>)
    requires AllValid(ds)
    ensures |sent| == |ds| / 4
  {
    if |ds| == 0 then []
    else Sent(ds[..|ds| - 1]) + (if |ds| % 4 == 0 then [PacketOf(SlotOf(|ds|), ds[|ds| - 1])] else [])
  }

  lemma SentGrows(ds: seq<Sample>)
    requires |ds| > 0 && AllValid(ds)
    ensures Sent(ds)[..(|ds| - 1) / 4] == Sent(ds[..|ds| - 1])
    ensures |ds| % 4 == 0 ==> Sent(ds)[|ds| / 4 - 1] == PacketOf(SlotOf(|ds|), ds[|ds| - 1])
  {
  }

  /** One packet every four calls, the seven kinds in turn, each filled from the sample of its call. */
  lemma {:induction false} RoundRobin(ds: seq<Sample>)
    requires AllValid(ds)
    ensures |Sent(ds)| == |ds| / 4
    ensures forall k | 0 <= k < |ds| / 4 :: Sent(ds)[k] == PacketOf(k % 7, ds[4 * k + 3])
  {
    if |ds| > 0 {
      var init := ds[..|ds| - 1];
      RoundRobin(init);
      SentGrows(ds);
      forall k | 0 <= k < |ds| / 4 ensures Sent(ds)[k] == PacketOf(k % 7, ds[4 * k + 3]) {
        if k < |init| / 4 {
          assert Sent(ds)[k] == Sent(ds)[..|init| / 4][k];
        }
      }
    }
  }

  lemma CounterFollowsCalls(n: nat)
    ensures (n % 28 + 1) % 28 == (n + 1) % 28
    ensures (n % 28 + 1) % 4 == (n + 1) % 4
    ensures (n + 1) % 4 == 0 ==> (n % 28 + 1) / 4 - 1 == SlotOf(n + 1)
  {
    var q, r := n / 28, n % 28;
    assert n == 28 * q + r;
    assert (n + 1) / 4 == 7 * q + (r + 1) / 4;
  }

  method RunUplink(uplink: Uplink, ds: seq<Sample>) returns (sent: seq<seq<Byte>>)
    requires uplink.Valid() && uplink.cnt == 0 && AllValid(ds)
    modifies uplink
    ensures uplink.Valid() && uplink.cnt == |ds| % 28
    ensures sent == Sent(ds)
  {
    sent := [];
    for i := 0 to |ds|
      invariant uplink.Valid() && uplink.cnt == i % 28
      invariant sent == Sent(ds[..i])
    {
      CounterFollowsCalls(i);
      assert ds[..i + 1][..i] == ds[..i];
      var packet := uplink.SendData(ds[i]);
      match packet {
        case None =>
        case Some(p) => sent := sent + [p];
      }
    }
    assert ds[..|ds|] == ds;
  }

  // --- From the controller to the panel ------------------------------------

  /** A frame the panel accepts as soon as it is complete. */
  predicate Complete(frame: seq<Byte>) {
    4 <= |frame| && ExpectedLength(frame) == Some(|frame|) && frame[|frame| - 1] == 0x55
  }

  lemma PacketsAreComplete(slot: nat, d: Sample)
    requires slot < 7 && d.Valid()
    ensures Complete(PacketOf(slot, d))
  {
  }

  lemma ScanComplete(frame: seq<Byte>, rest: seq<Byte>)
    requires Complete(frame)
    ensures Scan(Front(), frame + rest) == Emit([frame], Scan(Front(), rest))
  {
    var s, n := frame + rest, |frame|;
    assert s[..n] == frame && s[n..] == rest;
    assert Next(s) == Take(n, frame);
  }

  predicate AllComplete(frames: seq<seq<Byte>>) {
    forall i | 0 <= i < |frames| :: Complete(frames[i])
  }

  /** Complete frames laid end to end decode to exactly those frames, whatever their payload. */
  lemma {:induction false} FramesRoundTrip(frames: seq<seq<Byte>>)
    requires AllComplete(frames)
    ensures Scan(Front(), Flatten(frames)) == Scanned(frames, [])
    decreases |frames|
  {
    if |frames| > 0 {
      var first, rest := frames[0], frames[1..];
      assert AllComplete(rest) by {
        assert forall i | 0 <= i < |rest| :: rest[i] == frames[i + 1];
      }
      FramesRoundTrip(rest);
      ScanComplete(first, Flatten(rest));
    }
  }

  // --- After corrupted bytes -----------------------------------------------

  /**
    A frame the parser can lose its step over: an obstacle frame in which a
    tail byte is followed by the header and type of another, so that what
    begins inside it can end inside the next frame.
   */
  predicate Derails(frame: seq<Byte>) {
    |frame| == 7 &&
    ((frame[2] == 0x55 && frame[3] == 0xAA && frame[4] == 0x20) ||
     ((frame[2] == 0x55 || frame[3] == 0x55) && frame[4] == 0xAA && frame[5] == 0x20))
  }

  // The beginning of a complete frame.
  predicate Opens(s: seq<Byte>) {
    |s| >= 4 && s[0] == 0xAA && s[1] != 0x55
  }

  // Nothing that can look like a frame begins at offset `k` or later of `frame` and ends behind it.
  predicate EndsInside(frame: seq<Byte>, k: nat) {
    && 3 <= k && (|frame| == 6 ==> 4 <= k)
    && (|frame| == 7 ==>
          && (k == 3 ==> !(frame[3] == 0xAA && frame[4] == 0x20))
          && (k <= 4 ==> !(frame[4] == 0xAA && frame[5] == 0x20)))
  }

  lemma TailByteIsLate(frame: seq<Byte>, end: nat)
    requires Complete(frame) && 0 < end <= |frame| && frame[end - 1] == 0x55
    ensures !Derails(frame) ==> EndsInside(frame, end)
  {
  }

  // What looks like a frame and begins in the garbage ends in the first frame behind it, at one of its tail bytes.
  lemma FalseFrameEnds(garbage: seq<Byte>, frame: seq<Byte>, s: seq<Byte>)
    requires |garbage| > 0 && Complete(frame) && Opens(s)
    requires Next(garbage + (frame + s)).Take?
    ensures var end := Next(garbage + (frame + s)).count - |garbage|;
            end <= |frame| && (end > 0 && !Derails(frame) ==> EndsInside(frame, end))
  {
    var all := garbage + (frame + s);
    var end := Next(all).count - |garbage|;
    assert all[|garbage|] == frame[0] && all[|garbage| + |frame|] == s[0];
    if 0 < end <= |frame| {
      assert all[Next(all).count - 1] == frame[end - 1];
      TailByteIsLate(frame, end);
    }
  }

  lemma StaysInside(frame: seq<Byte>, k: nat, s: seq<Byte>)
    requires Complete(frame) && EndsInside(frame, k) && k < |frame| && Opens(s)
    ensures var move := Next(frame[k..] + s);
            move == Drop(1) || (move.Take? && k + move.count <= |frame|)
  {
    var all := frame[k..] + s;
    assert all[|frame| - k] == s[0] && all[|frame| - k + 1] == s[1];
  }

  lemma RestOfFrame(frame: seq<Byte>, k: nat, s: seq<Byte>, n: nat)
    requires k + n <= |frame|
    ensures (frame[k..] + s)[n..] == frame[k + n..] + s
  {
  }

  // From inside such a frame the parser comes out at its end.
  lemma {:induction false} ComesOut(frame: seq<Byte>, k: nat, s: seq<Byte>) returns (items: seq<seq<Byte>>)
    requires Complete(frame) && EndsInside(frame, k) && k <= |frame| && Opens(s)
    ensures Scan(Front(), frame[k..] + s) == Emit(items, Scan(Front(), s))
    decreases |frame| - k
  {
    items := [];
    if k == |frame| {
      assert frame[k..] + s == s;
      EmitAppends([], [], Scan(Front(), s));
    } else {
      var move := Next(frame[k..] + s);
      StaysInside(frame, k, s);
      RestOfFrame(frame, k, s, move.count);
      items := ComesOut(frame, k + move.count, s);
      if move.Take? {
        items := TakesFirst(frame[k..] + s, frame[k + move.count..] + s, items, s);
      }
    }
  }

  lemma RestOfGarbage(garbage: seq<Byte>, t: seq<Byte>, n: nat)
    requires n <= |garbage|
    ensures (garbage + t)[n..] == garbage[n..] + t
  {
  }

  lemma RestBehindGarbage(garbage: seq<Byte>, frame: seq<Byte>, s: seq<Byte>, end: nat)
    requires end <= |frame|
    ensures (garbage + (frame + s))[|garbage| + end..] == frame[end..] + s
  {
  }

  // A false frame ends at offset `end` of the frame.
  lemma {:induction false} FalseFrameComesOut(all: seq<Byte>, frame: seq<Byte>, end: nat, s: seq<Byte>)
    returns (items: seq<seq<Byte>>)
    requires Complete(frame) && EndsInside(frame, end) && end <= |frame| && Opens(s)
    requires Next(all).Take? && all[Next(all).count..] == frame[end..] + s
    ensures Scan(Front(), all) == Emit(items, Scan(Front(), s))
  {
    items := ComesOut(frame, end, s);
    items := TakesFirst(all, frame[end..] + s, items, s);
  }

  /**
    Whatever bytes come before it, a frame that does not derail brings the
    panel back into step: something is made of the bytes and of that frame, and
    from the next frame on nothing is lost.
   */
  lemma {:induction false} FrameResynchronises(garbage: seq<Byte>, frame: seq<Byte>, s: seq<Byte>)
    returns (items: seq<seq<Byte>>)
    requires Complete(frame) && !Derails(frame) && Opens(s)
    ensures Scan(Front(), garbage + (frame + s)) == Emit(items, Scan(Front(), s))
    decreases |garbage|
  {
    var all := garbage + (frame + s);
    if |garbage| == 0 {
      assert all == frame + s;
      ScanComplete(frame, s);
      items := [frame];
    } else {
      NeverWaits(all);
      var n: nat := Next(all).count;
      if Next(all).Drop? {
        RestOfGarbage(garbage, frame + s, 1);
        items := FrameResynchronises(garbage[1..], frame, s);
      } else if n <= |garbage| {
        RestOfGarbage(garbage, frame + s, n);
        items := FrameResynchronises(garbage[n..], frame, s);
        items := TakesFirst(all, garbage[n..] + (frame + s), items, s);
      } else {
        FalseFrameEnds(garbage, frame, s);
        RestBehindGarbage(garbage, frame, s, n - |garbage|);
        items := FalseFrameComesOut(all, frame, n - |garbage|, s);
      }
    }
  }

  // The longest frame has seven bytes.
  lemma NeverWaits(s: seq<Byte>)
    requires |s| >= 7
    ensures Next(s) == Drop(1) || Next(s).Take?
  {
  }

  lemma {:induction false} TakesMore(s: seq<Byte>, more: seq<seq<Byte>>, rest: Scanned<seq<Byte>>)
    requires Next(s).Take? && Scan(Front(), s[Next(s).count..]) == Emit(more, rest)
    ensures Scan(Front(), s) == Emit([Next(s).item] + more, rest)
  {
    EmitAppends([Next(s).item], more, rest);
  }

  lemma {:induction false} TakesFirst(all: seq<Byte>, rest: seq<Byte>, more: seq<seq<Byte>>, s: seq<Byte>)
    returns (items: seq<seq<Byte>>)
    requires Next(all).Take? && all[Next(all).count..] == rest
    requires Scan(Front(), rest) == Emit(more, Scan(Front(), s))
    ensures Scan(Front(), all) == Emit(items, Scan(Front(), s))
  {
    TakesMore(all, more, Scan(Front(), s));
    items := [Next(all).item] + more;
  }

  lemma FlattenOfComplete(frames: seq<seq<Byte>>)
    requires AllComplete(frames) && |frames| > 0
    ensures Opens(Flatten(frames))
  {
    assert Flatten(frames) == frames[0] + Flatten(frames[1..]);
  }

  /** So of complete frames behind any bytes at most those up to the first that does not derail are lost, and nothing stays behind. */
  lemma {:induction false} FramesGetThrough(garbage: seq<Byte>, frame: seq<Byte>, frames: seq<seq<Byte>>)
    returns (items: seq<seq<Byte>>)
    requires Complete(frame) && !Derails(frame) && AllComplete(frames) && |frames| > 0
    ensures Scan(Front(), garbage + (frame + Flatten(frames))) == Scanned(items + frames, [])
  {
    FlattenOfComplete(frames);
    items := FrameResynchronises(garbage, frame, Flatten(frames));
    FramesRoundTrip(frames);
  }

  ghost predicate RestoredBehind(frame: seq<Byte>, garbage: seq<Byte>, frames: seq<seq<Byte>>) {
    exists items :: Scan(Front(), garbage + (frame + Flatten(frames))) == Scanned(items + frames, [])
  }

  /** Whatever bytes come before the frame and whatever frames after it, these are delivered, last and in order. */
  ghost predicate Restores(frame: seq<Byte>) {
    forall garbage, frames | AllComplete(frames) && |frames| > 0 :: RestoredBehind(frame, garbage, frames)
  }

  // A leaf status that is the tail byte.
  const TAIL_STATUS: seq<Byte> := [0xAA, 0x30, 0x55, 0x55]

  // Bytes that end at the frame's first tail byte as a frame of their own.
  function FalseStart(frame: seq<Byte>): seq<Byte>
    requires |frame| == 7
  {
    if frame[2] == 0x55 then [0xAA, 0x10, 0x10] else [0xAA, 0x20, 0x00]
  }

  lemma {:induction false} FalseFrameCrosses(frame: seq<Byte>, k: nat)
    requires Complete(frame) && |frame| == 7 && 3 <= k <= 4 && frame[k] == 0xAA && frame[k + 1] == 0x20
    ensures Scan(Front(), frame[k..] + TAIL_STATUS) == Scanned([frame[k..] + TAIL_STATUS[..k]], [])
  {
    var all, item := frame[k..] + TAIL_STATUS, frame[k..] + TAIL_STATUS[..k];
    assert all[..7] == item && all[7..] == TAIL_STATUS[k..];
    assert Next(all) == Take(7, item);
    var rest := TAIL_STATUS[k..];
    assert k == 3 ==> rest == [0x55] && rest[1..] == [];
    assert Scan(Front(), rest) == Scanned([], []);
  }

  // The parser enters at offset `j` of the frame and takes the next frame's tail for its own.
  lemma {:induction false} LosesNext(frame: seq<Byte>, j: nat)
    requires Complete(frame) && Derails(frame) && j == if frame[2] == 0x55 then 3 else 4
    ensures |Scan(Front(), frame[j..] + TAIL_STATUS).items| == 1
    ensures |Scan(Front(), frame[j..] + TAIL_STATUS).items[0]| == 7
  {
    if j == 3 && !(frame[3] == 0xAA && frame[4] == 0x20) {
      assert (frame[3..] + TAIL_STATUS)[1..] == frame[4..] + TAIL_STATUS;
      assert Next(frame[3..] + TAIL_STATUS) == Drop(1);
      FalseFrameCrosses(frame, 4);
    } else {
      FalseFrameCrosses(frame, j);
    }
  }

  // The false start ends at offset `j` of the frame.
  lemma {:induction false} FalseStartEnds(frame: seq<Byte>, j: nat)
    requires Complete(frame) && Derails(frame) && j == if frame[2] == 0x55 then 3 else 4
    ensures var all := FalseStart(frame) + (frame + TAIL_STATUS);
            Scan(Front(), all) == Emit([all[..3 + j]], Scan(Front(), frame[j..] + TAIL_STATUS))
  {
    var all := FalseStart(frame) + (frame + TAIL_STATUS);
    assert Next(all) == Take(3 + j, all[..3 + j]);
    RestBehindGarbage(FalseStart(frame), frame, TAIL_STATUS, j);
  }

  lemma NotLast(items: seq<seq<Byte>>, item: seq<Byte>, got: seq<seq<Byte>>)
    requires |got| > 0 && |got[|got| - 1]| != |item|
    ensures got != items + [item]
  {
    assert (items + [item])[|items|] == item;
  }

  lemma FlattenOne(frame: seq<Byte>)
    ensures Flatten([frame]) == frame
  {
    assert [frame][1..] == [];
  }

  lemma {:induction false} DerailingLosesNext(frame: seq<Byte>)
    requires Complete(frame) && Derails(frame)
    ensures !RestoredBehind(frame, FalseStart(frame), [TAIL_STATUS])
  {
    var j := if frame[2] == 0x55 then 3 else 4;
    FlattenOne(TAIL_STATUS);
    FalseStartEnds(frame, j);
    LosesNext(frame, j);
    var got := Scan(Front(), FalseStart(frame) + (frame + TAIL_STATUS));
    forall items: seq<seq<Byte>> ensures got != Scanned(items + [TAIL_STATUS], []) {
      NotLast(items, TAIL_STATUS, got.items);
    }
  }

  /** Exactly which frames bring the panel back into step. */
  lemma {:induction false} RestoresIff(frame: seq<Byte>)
    requires Complete(frame)
    ensures Restores(frame) <==> !Derails(frame)
  {
    if Derails(frame) {
      DerailingLosesNext(frame);
      assert Complete(TAIL_STATUS) && AllComplete([TAIL_STATUS]);
    } else {
      forall garbage, frames | AllComplete(frames) && |frames| > 0 ensures RestoredBehind(frame, garbage, frames) {
        var items := FramesGetThrough(garbage, frame, frames);
      }
    }
  }

  /** The telemetry behind any bytes: once a frame has come that does not derail, what the following frames tell is told, last and in order. */
  method Recover(panel: Panel, chunks: seq<seq<Byte>>, ghost garbage: seq<Byte>, ghost frame: seq<Byte>,
                 ghost frames: seq<seq<Byte>>) returns (ghost before: seq<Event>)
    requires Next(FromHeader(panel.receiveBuffer)).Wait?
    requires Complete(frame) && !Derails(frame) && AllComplete(frames) && |frames| > 0
    requires Flatten(chunks) == garbage + (frame + Flatten(frames))
    modifies panel
    ensures panel.events == before + TellAll(frames)
    ensures old(panel.events) <= before
    ensures FromHeader(panel.receiveBuffer) == []
  {
    ghost var was, kept := panel.events, panel.receiveBuffer;
    ghost var items := FramesGetThrough(kept + garbage, frame, frames);
    assert kept + Flatten(chunks) == (kept + garbage) + (frame + Flatten(frames));
    var got := ReadAll(panel, chunks);
    TellMore(was, items, frames);
    before := was + TellAll(items);
  }

  /** Frames that derail can do so for ever: behind its own last four bytes no copy of such a frame is ever recognised. */
  lemma {:induction false} StaysOutOfStep(frame: seq<Byte>, n: nat)
    requires Complete(frame) && |frame| == 7 && frame[2] == 0x55 && frame[3] == 0xAA && frame[4] == 0x20
    ensures Scan(Front(), frame[3..] + Flatten(Copies(frame, n))) ==
            Scanned(Copies(frame[3..] + frame[..3], n), frame[3..])
    decreases n
  {
    if n == 0 {
      assert frame[3..] + Flatten(Copies(frame, n)) == frame[3..];
    } else {
      var rest := Flatten(Copies(frame, n - 1));
      MoreCopies(frame, n);
      FlattenSplit(frame[3..], Copies(frame, n));
      TakesAcross(frame, rest);
      StaysOutOfStep(frame, n - 1);
      EmitOneMore(frame[3..] + frame[..3], n, frame[3..]);
    }
  }

  lemma {:induction false} TakesAcross(frame: seq<Byte>, rest: seq<Byte>)
    requires Complete(frame) && |frame| == 7 && frame[2] == 0x55 && frame[3] == 0xAA && frame[4] == 0x20
    ensures Scan(Front(), (frame[3..] + frame) + rest) ==
            Emit([frame[3..] + frame[..3]], Scan(Front(), frame[3..] + rest))
  {
    var all := (frame[3..] + frame) + rest;
    assert all[..7] == frame[3..] + frame[..3] && all[7..] == frame[3..] + rest;
    assert Next(all) == Take(7, frame[3..] + frame[..3]);
  }

  lemma EmitOneMore(item: seq<Byte>, n: nat, residue: seq<Byte>)
    requires n > 0
    ensures Emit([item], Scanned(Copies(item, n - 1), residue)) == Scanned(Copies(item, n), residue)
  {
    MoreCopies(item, n);
  }

  /**
    Part `s` of a stream of complete frames: parsing takes whole frames off it
    and leaves the beginning of the next, never garbage.
   */
  lemma {:induction false} LeftOfFrames(frames: seq<seq<Byte>>, s: seq<Byte>, t: seq<Byte>) returns (k: nat)
    requires AllComplete(frames) && s + t == Flatten(frames)
    ensures k <= |frames| && Left(s) + t == Flatten(frames[k..])
    ensures k < |frames| ==> |Left(s)| < |frames[k]|
    decreases |frames|
  {
    k := 0;
    assert frames[0..] == frames;
    if |frames| > 0 {
      var first, rest := frames[0], frames[1..];
      if |s| < |first| {
        LeftInsideFrame(first, s, t, Flatten(rest));
      } else {
        var s' := s[|first|..];
        LeftAfterFrame(first, s, t, Flatten(rest));
        assert AllComplete(rest) by {
          assert forall i | 0 <= i < |rest| :: rest[i] == frames[i + 1];
        }
        var m := LeftOfFrames(rest, s', t);
        assert frames[m + 1..] == rest[m..];
        k := m + 1;
      }
    }
  }

  lemma {:induction false} LeftInsideFrame(first: seq<Byte>, s: seq<Byte>, t: seq<Byte>, rest: seq<Byte>)
    requires Complete(first) && s + t == first + rest && |s| < |first|
    ensures Left(s) == s
  {
    assert s == first[..|s|] by {
      assert (s + t)[..|s|] == s && (first + rest)[..|s|] == first[..|s|];
    }
  }

  lemma {:induction false} LeftAfterFrame(first: seq<Byte>, s: seq<Byte>, t: seq<Byte>, rest: seq<Byte>)
    requires Complete(first) && s + t == first + rest && |s| >= |first|
    ensures Left(s) == Left(s[|first|..]) && s[|first|..] + t == rest
  {
    var n := |first|;
    assert s[..n] == first by {
      assert (s + t)[..n] == s[..n] && (first + rest)[..n] == first;
    }
    assert s[n..] + t == (s + t)[n..] == (first + rest)[n..] == rest;
    assert Next(s) == Take(n, first);
  }

  /** Reading complete frames in any chunks leaves nothing at all behind. */
  lemma {:induction false} FramesLeaveNothing(frames: seq<seq<Byte>>, kept: seq<Byte>, chunks: seq<seq<Byte>>)
    requires AllComplete(frames) && kept + Flatten(chunks) == Flatten(frames)
    requires |frames| > 0 ==> |kept| < |frames[0]|
    ensures LeftAll(kept, chunks) == []
    decreases |chunks|
  {
    if |chunks| == 0 {
      assert kept + [] == kept;
    } else {
      FlattenSplit(kept, chunks);
      var k := LeftOfFrames(frames, kept + chunks[0], Flatten(chunks[1..]));
      assert AllComplete(frames[k..]) by {
        assert forall i | 0 <= i < |frames[k..]| :: frames[k..][i] == frames[k + i];
      }
      FramesLeaveNothing(frames[k..], Left(kept + chunks[0]), chunks[1..]);
    }
  }

  lemma SentIsComplete(ds: seq<Sample>)
    requires AllValid(ds)
    ensures AllComplete(Sent(ds))
  {
    RoundRobin(ds);
    forall i | 0 <= i < |Sent(ds)| ensures Complete(Sent(ds)[i]) {
      PacketsAreComplete(i % 7, ds[4 * i + 3]);
    }
  }

  /** What the panel shows for a packet of the controller. */
  function Shown(slot: nat, d: Sample): Event
    requires slot < 7
  {
    if slot == 0 then SoilMoisture((d.soil * 10.0).Floor as real / 10.0)
    else if slot == 1 then Temperature(d.temperature.Floor as real)
    else if slot == 2 then AirHumidity(d.humidity.Floor as real)
    else if slot == 3 then AirQuality(d.air.Floor)
    else if slot == 4 then
      var yaw := SensorPorts.Degrees(SensorPorts.Int16(d.obsYaw2, d.obsYaw3));
      Obstacle(if yaw < 0.0 then yaw + 360.0 else yaw, d.distance)
    else if slot == 5 then LeafStatus(d.blade)
    else PlantType(d.plantType)
  }

  lemma WordRoundTrip(n: U16)
    ensures Word(High(n), Low(n)) == n
  {
  }

  /** Decoding a packet recovers what was put into it; the obstacle angle is the signed yaw modulo 360. */
  lemma {:induction false} TellPacket(slot: nat, d: Sample)
    requires slot < 7 && d.Valid()
    ensures Tell(PacketOf(slot, d)) == Some(Shown(slot, d))
  {
    if slot == 0 {
      WordRoundTrip((d.soil * 10.0).Floor);
    } else if slot == 1 {
      TellWholeDegrees(0x11, d.temperature.Floor);
    } else if slot == 2 {
      TellWholeDegrees(0x12, d.humidity.Floor);
    } else if slot == 3 {
      WordRoundTrip(d.air.Floor);
    } else if slot == 4 {
      TellObstacle(d);
    }
  }

  lemma TellObstacle(d: Sample)
    requires d.Valid()
    ensures Tell(PacketOf(4, d)) == Some(Shown(4, d))
  {
    WordRoundTrip(d.distance);
    YawModulo360(d.obsYaw2, d.obsYaw3);
  }

  lemma TenTimes(n: nat)
    ensures (n * 10) as real / 10.0 == n as real
  {
  }

  lemma TellWholeDegrees(kind: Byte, n: nat)
    requires (kind == 0x11 || kind == 0x12) && n <= 280
    ensures Tell(SensorPacket(kind, n * 10)) == Some(if kind == 0x11 then Temperature(n as real) else AirHumidity(n as real))
  {
    WordRoundTrip(n * 10);
    TenTimes(n);
  }

  lemma YawModulo360(high: Byte, low: Byte)
    ensures var yaw := SensorPorts.Degrees(SensorPorts.Int16(high, low));
            Word(high, low) as real / 32768.0 * 180.0 == if yaw < 0.0 then yaw + 360.0 else yaw
  {
  }

  /**
    Across both links: the angle the panel shows for an obstacle packet filled
    from the attitude handler's bytes is the yaw that handler reported, modulo
    360, whatever frames the sensors have sent.
   */
  lemma {:induction false} SensedYawIsShown(f: SensorPorts.Format, was: SensorPorts.Readings, frames: seq<seq<Byte>>, d: Sample)
    requires |was.digits| == 4 && SensorPorts.YawIsTold(was) && d.Valid()
    requires var r := SensorPorts.HandleAll(f, was, frames);
             |r.obsYaw| == 2 && d.obsYaw2 == r.obsYaw[0] && d.obsYaw3 == r.obsYaw[1] && d.distance == r.distance
    ensures var r := SensorPorts.HandleAll(f, was, frames);
            Tell(PacketOf(4, d)) == Some(Obstacle(if r.yaw < 0.0 then r.yaw + 360.0 else r.yaw, r.distance))
  {
    SensorPorts.YawStaysTold(f, was, frames);
    AngleIsUnsigned(SensorPorts.HandleAll(f, was, frames).yaw, d.obsYaw2, d.obsYaw3);
    WordRoundTrip(d.distance);
  }

  lemma AngleIsUnsigned(x: real, high: Byte, low: Byte)
    requires SensorPorts.IsAngle(x, high, low)
    ensures Word(high, low) as real / 32768.0 * 180.0 == if x < 0.0 then x + 360.0 else x
  {
  }

  /** Moisture is shown to within a tenth. */
  lemma MoistureWithinATenth(d: Sample)
    ensures 0.0 <= d.soil - Shown(0, d).percent < 0.1
  {
  }

  lemma SplitTenths(tenths: int, q: int, r: int)
    requires tenths == 10 * q + r
    ensures tenths as real * 0.1 == q as real + r as real * 0.1
  {
  }

  lemma FloorOfTenths(n: int, r: nat)
    requires r < 10
    ensures (n as real + r as real * 0.1).Floor == n
    ensures n as real == n as real + r as real * 0.1 <==> r == 0
  {
  }

  /**
    Temperature is cut to an integer before it is scaled by ten: of a reading
    of `whole` degrees and `tenths` tenths the panel shows only whole degrees,
    which is the reading exactly when there are no tenths left over.
   */
  lemma {:induction false} TemperatureLosesItsTenths(whole: Byte, tenths: Byte, d: Sample)
    requires d.temperature == whole as real + tenths as real * 0.1
    ensures Shown(1, d).celsius == (whole as int + tenths as int / 10) as real
    ensures Shown(1, d).celsius == d.temperature <==> tenths as int % 10 == 0
  {
    WholeUnits(whole, tenths, d.temperature);
  }

  /** So is humidity. */
  lemma {:induction false} HumidityLosesItsTenths(whole: Byte, tenths: Byte, d: Sample)
    requires d.humidity == whole as real + tenths as real * 0.1
    ensures Shown(2, d).percent == (whole as int + tenths as int / 10) as real
    ensures Shown(2, d).percent == d.humidity <==> tenths as int % 10 == 0
  {
    WholeUnits(whole, tenths, d.humidity);
  }

  lemma WholeUnits(whole: Byte, tenths: Byte, x: real)
    requires x == whole as real + tenths as real * 0.1
    ensures x.Floor == whole as int + tenths as int / 10
    ensures x.Floor as real == x <==> tenths as int % 10 == 0
  {
    var q, r := tenths as int / 10, tenths as int % 10;
    SplitTenths(tenths, q, r);
    FloorOfTenths(whole as int + q, r);
  }

  function ShownAll(ds: seq<Sample>): seq<Event> {
    seq(|ds| / 4, k requires 0 <= k < |ds| / 4 => Shown(k % 7, ds[4 * k + 3]))
  }

  lemma {:induction false} TellEach(frames: seq<seq<Byte>>, events: seq<Event>)
    requires |frames| == |events|
    requires forall k | 0 <= k < |frames| :: Tell(frames[k]) == Some(events[k])
    ensures TellAll(frames) == events
  {
    if |frames| > 0 {
      var n := |frames| - 1;
      TellEach(frames[..n], events[..n]);
      assert events == events[..n] + [events[n]];
    }
  }

  lemma {:induction false} TellOne(ds: seq<Sample>, k: nat)
    requires AllValid(ds) && k < |ds| / 4
    ensures Tell(Sent(ds)[k]) == Some(ShownAll(ds)[k])
  {
    SentAt(ds, k);
    TellPacket(k % 7, ds[4 * k + 3]);
  }

  lemma {:induction false} SentAt(ds: seq<Sample>, k: nat)
    requires AllValid(ds) && k < |ds| / 4
    ensures Sent(ds)[k] == PacketOf(k % 7, ds[4 * k + 3])
  {
    RoundRobin(ds);
  }

  lemma {:induction false} SentIsShown(ds: seq<Sample>)
    requires AllValid(ds)
    ensures TellAll(Sent(ds)) == ShownAll(ds)
  {
    RoundRobin(ds);
    forall k | 0 <= k < |Sent(ds)| ensures Tell(Sent(ds)[k]) == Some(ShownAll(ds)[k]) {
      TellOne(ds, k);
    }
    TellEach(Sent(ds), ShownAll(ds));
  }

  // --- A run of the telemetry task behind corrupted bytes ------------------

  /** Only the obstacle packet can derail; a sensor, leaf or plant-type packet restores the step whatever it carries. */
  lemma PacketDerails(slot: nat, d: Sample)
    requires slot < 7 && d.Valid()
    ensures Complete(PacketOf(slot, d))
    ensures Derails(PacketOf(slot, d)) ==> slot == 4
  {
  }

  // The first packet that is sure to be shown if the bytes before packet `k` are corrupted.
  function FirstSure(k: nat): nat {
    if k % 7 == 4 then k + 2 else k + 1
  }

  lemma CompleteFrom(frames: seq<seq<Byte>>, k: nat)
    requires AllComplete(frames) && k <= |frames|
    ensures AllComplete(frames[k..])
  {
    assert forall i | 0 <= i < |frames[k..]| :: frames[k..][i] == frames[k + i];
  }

  lemma FlattenFrom(frames: seq<seq<Byte>>, k: nat)
    requires k < |frames|
    ensures Flatten(frames[k..]) == frames[k] + Flatten(frames[k + 1..])
  {
    assert frames[k..][1..] == frames[k + 1..];
  }

  /**
    Whatever bytes come before the `k`-th packet of a run, at most two packets
    are lost: that one, and the next if it was the obstacle packet.
   */
  lemma {:induction false} RunGetsThrough(garbage: seq<Byte>, ds: seq<Sample>, k: nat) returns (items: seq<seq<Byte>>)
    requires AllValid(ds) && FirstSure(k) < |ds| / 4
    ensures Scan(Front(), garbage + Flatten(Sent(ds)[k..])) == Scanned(items + Sent(ds)[FirstSure(k)..], [])
  {
    var sent, j := Sent(ds), FirstSure(k);
    SentRestores(ds, j - 1);
    SentIsComplete(ds);
    CompleteFrom(sent, j);
    FlattenFrom(sent, j - 1);
    if j == k + 1 {
      items := FramesGetThrough(garbage, sent[k], sent[j..]);
    } else {
      FlattenFrom(sent, k);
      Associate(garbage, sent[k], Flatten(sent[k + 1..]));
      items := FramesGetThrough(garbage + sent[k], sent[k + 1], sent[j..]);
    }
  }

  lemma {:induction false} SentRestores(ds: seq<Sample>, k: nat)
    requires AllValid(ds) && k < |ds| / 4 && k % 7 != 4
    ensures Complete(Sent(ds)[k]) && !Derails(Sent(ds)[k])
  {
    SentAt(ds, k);
    PacketDerails(k % 7, ds[4 * k + 3]);
  }

  lemma {:induction false} SentIsShownFrom(ds: seq<Sample>, k: nat)
    requires AllValid(ds) && k <= |ds| / 4
    ensures TellAll(Sent(ds)[k..]) == ShownAll(ds)[k..]
  {
    RoundRobin(ds);
    forall i | 0 <= i < |Sent(ds)[k..]| ensures Tell(Sent(ds)[k..][i]) == Some(ShownAll(ds)[k..][i]) {
      TellOne(ds, k + i);
    }
    TellEach(Sent(ds)[k..], ShownAll(ds)[k..]);
  }

  /**
    A run of the telemetry task whose first `k` packets are lost, corrupted or
    replaced by any bytes, read by the panel in any chunks: from the second
    packet behind these bytes on, or the third if the first was the obstacle
    packet, every quantity is shown, last and in order.
   */
  method TelemetryRecovers(panel: Panel, chunks: seq<seq<Byte>>, ghost garbage: seq<Byte>, ghost ds: seq<Sample>, ghost k: nat)
    returns (ghost before: seq<Event>)
    requires Next(FromHeader(panel.receiveBuffer)).Wait?
    requires AllValid(ds) && FirstSure(k) < |ds| / 4
    requires Flatten(chunks) == garbage + Flatten(Sent(ds)[k..])
    modifies panel
    ensures panel.events == before + ShownAll(ds)[FirstSure(k)..]
    ensures old(panel.events) <= before
    ensures FromHeader(panel.receiveBuffer) == []
  {
    ghost var was, kept, sure := panel.events, panel.receiveBuffer, Sent(ds)[FirstSure(k)..];
    ghost var items := RunGetsThrough(kept + garbage, ds, k);
    assert kept + Flatten(chunks) == (kept + garbage) + Flatten(Sent(ds)[k..]);
    var got := ReadAll(panel, chunks);
    TellMore(was, items, sure);
    SentIsShownFrom(ds, FirstSure(k));
    before := was + TellAll(items);
  }

  /**
    Whatever a run of the telemetry task sends, read by the panel in any
    chunks, is shown: every fourth sample, one quantity at a time in rotation,
    and nothing else; no frame is left pending.
   */
  method TelemetrySession(panel: Panel, chunks: seq<seq<Byte>>, ghost ds: seq<Sample>)
    requires panel.receiveBuffer == [] && AllValid(ds)
    requires Flatten(chunks) == Flatten(Sent(ds))
    modifies panel
    ensures panel.events == old(panel.events) + ShownAll(ds)
    ensures panel.receiveBuffer == []
  {
    assert [] + Flatten(chunks) == Flatten(Sent(ds));
    SentIsComplete(ds);
    FramesRoundTrip(Sent(ds));
    FramesLeaveNothing(Sent(ds), [], chunks);
    SentIsShown(ds);
    var frames := ReadAll(panel, chunks);
  }
}
