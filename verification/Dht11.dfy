/**
  DH11.c: the climate sensor driver. An edge interrupt captures 40 bits while a
  10 ms task starts requests, times them out and publishes readings. `Driver`
  is the driver's static state; edge and task steps interleave freely.
 */
module Dht11 {
  import opened Streams
  import opened Options

  const POWERUP_WAIT_TICKS := 100
  const START_LOW_TICKS := 2
  const SAMPLE_INTERVAL_TICKS := 100
  const FRAME_TIMEOUT_TICKS := 2
  const BIT_HIGH_THRESHOLD_US := 50

  datatype Phase = PowerupWait | Idle | StartLow | WaitFrame
  datatype Capture = RespFall | RespRise | FirstDataFall | BitRise | BitFall

  // What the data line's pin is set to.
  datatype Pin = DrivenHigh | DrivenLow | Listening

  datatype Driver = Driver(
    pin: Pin, phase: Phase, capture: Capture, ticks: U16, bytes: seq<Byte>, bitIndex: Byte,
    done: bool, error: bool, active: bool, extiEnabled: bool, highStart: U32,
    temperature: real, humidity: real, hasValid: bool)

  // Microseconds between two readings of the 32-bit cycle counter.
  function ElapsedUs(start: U32, end: U32, cyclesPerUs: nat): nat
    requires cyclesPerUs > 0
  {
    ((end as int - start as int) % 0x1_0000_0000) / cyclesPerUs
  }

  // --- Steps ---------------------------------------------------------------

  const ZEROS: seq<Byte> := [0, 0, 0, 0, 0]

  function ResetCapture(d: Driver): Driver {
    d.(bytes := ZEROS, bitIndex := 0, done := false, error := false, capture := RespFall, highStart := 0)
  }

  function EnterIdle(d: Driver): Driver {
    d.(extiEnabled := false, active := false, phase := Idle, ticks := SAMPLE_INTERVAL_TICKS, pin := DrivenHigh)
  }

  function StartRequest(d: Driver): Driver {
    ResetCapture(d).(phase := StartLow, ticks := START_LOW_TICKS, pin := DrivenLow)
  }

  function ReleaseAndListen(d: Driver): Driver {
    ResetCapture(d).(active := true, phase := WaitFrame, ticks := FRAME_TIMEOUT_TICKS, extiEnabled := true, pin := Listening)
  }

  predicate ChecksumHolds(bytes: seq<Byte>)
    requires |bytes| == 5
  {
    (bytes[0] as int + bytes[1] as int + bytes[2] as int + bytes[3] as int) % 0x100 == bytes[4]
  }

  // Whole units in one byte, tenths in the next.
  function Reading(whole: Byte, tenths: Byte): real {
    whole as real + tenths as real * 0.1
  }

  function ProcessFrame(d: Driver): Driver
    requires |d.bytes| == 5
  {
    EnterIdle(if ChecksumHolds(d.bytes)
              then d.(humidity := Reading(d.bytes[0], d.bytes[1]), temperature := Reading(d.bytes[2], d.bytes[3]), hasValid := true)
              else d)
  }

  /** One 10 ms call. */
  function Task(d: Driver): Driver
    requires |d.bytes| == 5
  {
    if d.done then ProcessFrame(d.(done := false))
    else if d.error then EnterIdle(d.(error := false))
    else
      match d.phase
      case PowerupWait => if d.ticks > 0 then d.(ticks := d.ticks - 1) else StartRequest(d)
      case Idle => if d.ticks > 0 then d.(ticks := d.ticks - 1) else StartRequest(d)
      case StartLow => if d.ticks > 1 then d.(ticks := d.ticks - 1) else ReleaseAndListen(d)
      case WaitFrame => if d.ticks > 0 then d.(ticks := d.ticks - 1) else EnterIdle(d)
  }

  function ShiftIn(b: Byte, bit: bool): Byte {
    b as int * 2 % 0x100 + if bit then 1 else 0
  }

  function TakeBit(d: Driver, bit: bool): Driver
    requires |d.bytes| == 5 && d.bitIndex < 40
  {
    var i := d.bitIndex / 8;
    var d' := d.(bytes := d.bytes[i := ShiftIn(d.bytes[i], bit)], bitIndex := d.bitIndex + 1);
    if d'.bitIndex >= 40 then d'.(active := false, extiEnabled := false, done := true)
    else d'.(capture := BitRise)
  }

  function Fault(d: Driver): Driver {
    d.(active := false, extiEnabled := false, error := true)
  }

  /** One edge interrupt: the line is now `high`, the cycle counter reads `now`. */
  function Edge(d: Driver, high: bool, now: U32, cyclesPerUs: nat): Driver
    requires cyclesPerUs > 0 && |d.bytes| == 5 && (d.active ==> d.bitIndex < 40)
  {
    if !d.active then d
    else if !high then
      match d.capture
      case RespFall => d.(capture := RespRise)
      case FirstDataFall => d.(capture := BitRise)
      case BitFall => TakeBit(d, ElapsedUs(d.highStart, now, cyclesPerUs) > BIT_HIGH_THRESHOLD_US)
      case _ => Fault(d)
    else
      match d.capture
      case RespRise => d.(capture := FirstDataFall)
      case BitRise => d.(highStart := now, capture := BitFall)
      case _ => Fault(d)
  }

  // --- The driver ----------------------------------------------------------

  class Sensor {
    const cyclesPerUs: nat
    const frameBytes: array<Byte>
    var pin: Pin
    var state: Phase
    var captureState: Capture
    var stateTicks: U16
    var bitIndex: Byte
    var frameDone: bool
    var frameError: bool
    var transactionActive: bool
    var extiEnabled: bool
    var highStartCycle: U32
    var temperatureC: real
    var humidityRh: real
    var hasValidData: bool
    // DHT11_AlarmFlag: assigned, but never anything but zero.
    var alarmFlag: Byte

    function Value(): (d: Driver)
      reads this, frameBytes
    {
      Driver(pin, state, captureState, stateTicks, frameBytes[..], bitIndex, frameDone, frameError,
             transactionActive, extiEnabled, highStartCycle, temperatureC, humidityRh, hasValidData)
    }

    predicate Valid()
      reads this, frameBytes
    {
      frameBytes.Length == 5 && cyclesPerUs > 0 && Safe(Value()) && alarmFlag == 0
    }

    constructor (clockMHz: nat)
      ensures Valid() && fresh(frameBytes)
      ensures Value() == PowerUp()
    {
      cyclesPerUs := if clockMHz == 0 then 1 else clockMHz;
      frameBytes := new Byte[5](_ => 0);
      pin := DrivenHigh;
      state, captureState, stateTicks, bitIndex := PowerupWait, RespFall, POWERUP_WAIT_TICKS, 0;
      frameDone, frameError, transactionActive, extiEnabled := false, false, false, false;
      highStartCycle, temperatureC, humidityRh, hasValidData, alarmFlag := 0, 0.0, 0.0, false, 0;
      new;
      assert frameBytes[..] == ZEROS;
    }

    method ResetCaptureState()
      requires frameBytes.Length == 5
      modifies `bitIndex, `frameDone, `frameError, `captureState, `highStartCycle, frameBytes
      ensures Value() == ResetCapture(old(Value()))
    {
      var i := 0;
      while i < 5
        invariant 0 <= i <= 5
        invariant forall k | 0 <= k < i :: frameBytes[k] == 0
        invariant unchanged(this)
      {
        frameBytes[i] := 0;
        i := i + 1;
      }
      assert frameBytes[..] == ZEROS;
      bitIndex := 0;
      frameDone := false;
      frameError := false;
      captureState := RespFall;
      highStartCycle := 0;
    }

    method GoIdle()
      modifies `extiEnabled, `transactionActive, `state, `stateTicks, `pin
      ensures Value() == EnterIdle(old(Value()))
    {
      extiEnabled := false;
      transactionActive := false;
      state := Idle;
      stateTicks := SAMPLE_INTERVAL_TICKS;
      pin := DrivenHigh;
    }

    method Start()
      requires frameBytes.Length == 5
      modifies `bitIndex, `frameDone, `frameError, `captureState, `highStartCycle, frameBytes, `pin, `state, `stateTicks
      ensures Value() == StartRequest(old(Value()))
    {
      ResetCaptureState();
      pin := DrivenLow;
      state := StartLow;
      stateTicks := START_LOW_TICKS;
    }

    method Listen()
      requires frameBytes.Length == 5
      modifies `bitIndex, `frameDone, `frameError, `captureState, `highStartCycle, frameBytes,
               `pin, `state, `stateTicks, `transactionActive, `extiEnabled
      ensures Value() == ReleaseAndListen(old(Value()))
    {
      pin := Listening;
      ResetCaptureState();
      transactionActive := true;
      state := WaitFrame;
      stateTicks := FRAME_TIMEOUT_TICKS;
      extiEnabled := true;
    }

    // The readings of a frame that passed its checksum.
    method Publish()
      requires frameBytes.Length == 5
      modifies `humidityRh, `temperatureC, `hasValidData, `alarmFlag
      ensures humidityRh == Reading(frameBytes[0], frameBytes[1])
      ensures temperatureC == Reading(frameBytes[2], frameBytes[3])
      ensures hasValidData && alarmFlag == 0
    {
      humidityRh := Reading(frameBytes[0], frameBytes[1]);
      temperatureC := Reading(frameBytes[2], frameBytes[3]);
      hasValidData := true;
      alarmFlag := 0;
    }

    method Process()
      requires frameBytes.Length == 5
      modifies `humidityRh, `temperatureC, `hasValidData, `alarmFlag,
               `extiEnabled, `transactionActive, `state, `stateTicks, `pin
      ensures Value() == ProcessFrame(old(Value()))
      ensures alarmFlag == 0 || alarmFlag == old(alarmFlag)
    {
      var checksum := (frameBytes[0] as int + frameBytes[1] as int + frameBytes[2] as int + frameBytes[3] as int) % 0x100;
      if checksum == frameBytes[4] {
        Publish();
      }
      GoIdle();
    }

    method HandleFailedFrame()
      modifies this
      ensures Value() == EnterIdle(old(Value()))
      ensures alarmFlag == 0
    {
      alarmFlag := 0;
      GoIdle();
    }

    method Task10ms()
      requires Valid()
      modifies this, frameBytes
      ensures Valid()
      ensures Value() == Task(old(Value()))
    {
      TaskKeepsSafe(Value());
      if frameDone {
        frameDone := false;
        Process();
        return;
      }
      if frameError {
        frameError := false;
        HandleFailedFrame();
        return;
      }
      Advance();
    }

    // The task's switch over the states, no frame being complete or faulty.
    method Advance()
      requires frameBytes.Length == 5 && !frameDone && !frameError
      modifies this, frameBytes
      ensures Value() == Task(old(Value()))
      ensures alarmFlag == 0 || alarmFlag == old(alarmFlag)
    {
      match state {
        case PowerupWait =>
          if stateTicks > 0 { stateTicks := stateTicks - 1; } else { Start(); }
        case Idle =>
          if stateTicks > 0 { stateTicks := stateTicks - 1; } else { Start(); }
        case StartLow =>
          if stateTicks > 0 { stateTicks := stateTicks - 1; }
          if stateTicks == 0 { Listen(); }
        case WaitFrame =>
          if stateTicks > 0 { stateTicks := stateTicks - 1; } else { HandleFailedFrame(); }
      }
    }

    method StopCapture()
      modifies `transactionActive, `extiEnabled
      ensures Value() == old(Value()).(active := false, extiEnabled := false)
    {
      transactionActive := false;
      extiEnabled := false;
    }

    method RaiseError()
      modifies `transactionActive, `extiEnabled, `frameError
      ensures Value() == Fault(old(Value()))
    {
      StopCapture();
      frameError := true;
    }

    method ExtiCallback(ownPin: bool, high: bool, now: U32)
      requires Valid()
      modifies this, frameBytes
      ensures Valid()
      ensures Value() == if ownPin then Edge(old(Value()), high, now, cyclesPerUs) else old(Value())
    {
      if !ownPin {
        return;
      }
      EdgeKeepsSafe(Value(), high, now, cyclesPerUs);
      if !transactionActive {
        return;
      }
      if !high {
        Fall(now);
      } else {
        Rise(now);
      }
    }

    // A falling edge while capturing.
    method Fall(now: U32)
      requires frameBytes.Length == 5 && cyclesPerUs > 0 && transactionActive && bitIndex < 40
      modifies this, frameBytes
      ensures Value() == Edge(old(Value()), false, now, cyclesPerUs)
      ensures alarmFlag == old(alarmFlag)
    {
      match captureState {
        case RespFall => captureState := RespRise;
        case FirstDataFall => captureState := BitRise;
        case BitFall => ShiftBit(ElapsedUs(highStartCycle, now, cyclesPerUs) > BIT_HIGH_THRESHOLD_US);
        case _ => RaiseError();
      }
    }

    // A rising edge while capturing.
    method Rise(now: U32)
      requires frameBytes.Length == 5 && cyclesPerUs > 0 && transactionActive && bitIndex < 40
      modifies this
      ensures Value() == Edge(old(Value()), true, now, cyclesPerUs)
      ensures alarmFlag == old(alarmFlag)
    {
      match captureState {
        case RespRise => captureState := FirstDataFall;
        case BitRise =>
          highStartCycle := now;
          captureState := BitFall;
        case _ => RaiseError();
      }
    }

    method ShiftBit(bit: bool)
      requires frameBytes.Length == 5 && bitIndex < 40
      modifies `bitIndex, `captureState, `transactionActive, `extiEnabled, `frameDone, frameBytes
      ensures Value() == TakeBit(old(Value()), bit)
    {
      var byteIndex := bitIndex / 8;
      ghost var shifted := ShiftIn(frameBytes[byteIndex], bit);
      frameBytes[byteIndex] := frameBytes[byteIndex] as int * 2 % 0x100;
      frameBytes[byteIndex] := frameBytes[byteIndex] + if bit then 1 else 0;
      assert frameBytes[..] == old(frameBytes[..])[byteIndex := shifted];
      bitIndex := bitIndex + 1;
      if bitIndex >= 40 {
        StopCapture();
        frameDone := true;
      } else {
        captureState := BitRise;
      }
    }
  }

  // --- Safety in every interleaving ----------------------------------------

  function PowerUp(): Driver {
    Driver(DrivenHigh, PowerupWait, RespFall, POWERUP_WAIT_TICKS, ZEROS, 0, false, false, false, false, 0, 0.0, 0.0, false)
  }

  /**
    Capture runs only while a frame is awaited, with the interrupt enabled and
    room for bits; done and error exclude each other and it. The pin listens
    while a frame is awaited and is low during the start pulse only.
   */
  predicate Safe(d: Driver) {
    && |d.bytes| == 5
    && (d.active <==> d.extiEnabled)
    && (d.active ==> d.phase == WaitFrame && d.bitIndex < 40 && !d.done && !d.error)
    && !(d.done && d.error)
    && (d.done ==> d.phase == WaitFrame && d.bitIndex == 40)
    && (d.error ==> d.phase == WaitFrame)
    && d.ticks <= (match d.phase case PowerupWait => 100 case Idle => 100 case StartLow => 2 case WaitFrame => 2)
    && (d.phase == StartLow ==> d.ticks > 0)
    && (d.phase == StartLow <==> d.pin == DrivenLow)
    && (d.phase == WaitFrame <==> d.pin == Listening)
  }

  lemma TaskKeepsSafe(d: Driver)
    requires Safe(d)
    ensures Safe(Task(d))
  {
  }

  lemma EdgeKeepsSafe(d: Driver, high: bool, now: U32, cyclesPerUs: nat)
    requires Safe(d) && cyclesPerUs > 0
    ensures Safe(Edge(d, high, now, cyclesPerUs))
  {
  }

  datatype Event = Interrupt(high: bool, now: U32) | Tick

  function Step(d: Driver, e: Event, cyclesPerUs: nat): Driver
    requires Safe(d) && cyclesPerUs > 0
  {
    match e
    case Interrupt(high, now) => Edge(d, high, now, cyclesPerUs)
    case Tick => Task(d)
  }

  lemma StepKeepsSafe(d: Driver, e: Event, cyclesPerUs: nat)
    requires Safe(d) && cyclesPerUs > 0
    ensures Safe(Step(d, e, cyclesPerUs))
  {
    match e {
      case Interrupt(high, now) => EdgeKeepsSafe(d, high, now, cyclesPerUs);
      case Tick => TaskKeepsSafe(d);
    }
  }

  /** The state after a sequence of edges and task calls in any order. */
  function Run(d: Driver, es: seq<Event>, cyclesPerUs: nat): (d': Driver)
    requires Safe(d) && cyclesPerUs > 0
    ensures Safe(d')
  {
    if |es| == 0 then d
    else
      var before, last := Run(d, es[..|es| - 1], cyclesPerUs), es[|es| - 1];
      StepKeepsSafe(before, last, cyclesPerUs);
      Step(before, last, cyclesPerUs)
  }

  /** Readings change only when a 10 ms call finds 40 captured bits whose checksum holds, and then they are those of the frame. */
  lemma PublishedOnlyWithChecksum(d: Driver, e: Event, cyclesPerUs: nat)
    requires Safe(d) && cyclesPerUs > 0
    ensures var d' := Step(d, e, cyclesPerUs);
            if e.Tick? && d.done &&
               (d.bytes[0] as int + d.bytes[1] as int + d.bytes[2] as int + d.bytes[3] as int) % 0x100 == d.bytes[4] as int
            then d.bitIndex == 40 && Published(d', d.bytes)
            else SameReadings(d, d')
  {
  }

  /** The readings are those of the frame: whole units and tenths of humidity, then of temperature. */
  predicate Published(d: Driver, bytes: seq<Byte>)
    requires |bytes| == 5
  {
    && d.hasValid
    && d.humidity == bytes[0] as real + bytes[1] as real / 10.0
    && d.temperature == bytes[2] as real + bytes[3] as real / 10.0
  }

  predicate SameReadings(d: Driver, d': Driver) {
    d'.humidity == d.humidity && d'.temperature == d.temperature && d'.hasValid == d.hasValid
  }

  // --- Cadence -------------------------------------------------------------

  predicate Starts(d: Driver, e: Event)
    requires Safe(d)
  {
    e.Tick? && !d.done && !d.error && (d.phase == PowerupWait || d.phase == Idle) && d.ticks == 0
  }

  // The most task calls until the next request starts, that call included.
  function AtMost(d: Driver): nat {
    if d.done || d.error then 102
    else
      match d.phase
      case PowerupWait => d.ticks + 1
      case Idle => d.ticks + 1
      case StartLow => d.ticks + 104
      case WaitFrame => d.ticks + 102
  }

  // The fewest.
  function AtLeast(d: Driver): nat {
    if d.done || d.error then 102
    else
      match d.phase
      case PowerupWait => d.ticks + 1
      case Idle => d.ticks + 1
      case StartLow => d.ticks + 102
      case WaitFrame => 102
  }

  function CountTicks(es: seq<Event>): nat
    decreases |es|
  {
    if |es| == 0 then 0 else (if es[0].Tick? then 1 else 0) + CountTicks(es[1..])
  }

  /** How many task calls a run makes up to and including the one that starts a request. */
  function TicksToStart(d: Driver, es: seq<Event>, cyclesPerUs: nat): Option<nat>
    requires Safe(d) && cyclesPerUs > 0
    decreases |es|
  {
    if |es| == 0 then None
    else if Starts(d, es[0]) then Some(1)
    else
      StepKeepsSafe(d, es[0], cyclesPerUs);
      match TicksToStart(Step(d, es[0], cyclesPerUs), es[1..], cyclesPerUs)
      case None => None
      case Some(n) => Some(n + if es[0].Tick? then 1 else 0)
  }

  lemma StepBounds(d: Driver, e: Event, cyclesPerUs: nat)
    requires Safe(d) && cyclesPerUs > 0 && !Starts(d, e)
    ensures var d', t := Step(d, e, cyclesPerUs), if e.Tick? then 1 else 0;
            AtMost(d') + t <= AtMost(d) && AtLeast(d) <= AtLeast(d') + t
  {
  }

  lemma {:induction false} StartIsTimely(d: Driver, es: seq<Event>, cyclesPerUs: nat)
    requires Safe(d) && cyclesPerUs > 0
    ensures match TicksToStart(d, es, cyclesPerUs)
            case None => CountTicks(es) < AtMost(d)
            case Some(n) => AtLeast(d) <= n <= AtMost(d)
    decreases |es|
  {
    if |es| > 0 && !Starts(d, es[0]) {
      StepKeepsSafe(d, es[0], cyclesPerUs);
      StepBounds(d, es[0], cyclesPerUs);
      StartIsTimely(Step(d, es[0], cyclesPerUs), es[1..], cyclesPerUs);
    }
  }

  /**
    Whatever edges arrive, once a request has started the next one starts no
    sooner than the 104th and no later than the 106th task call after it.
   */
  lemma RequestsAreRegular(d: Driver, e: Event, es: seq<Event>, cyclesPerUs: nat)
    requires Safe(d) && cyclesPerUs > 0 && Starts(d, e)
    ensures Safe(Step(d, e, cyclesPerUs))
    ensures match TicksToStart(Step(d, e, cyclesPerUs), es, cyclesPerUs)
            case None => CountTicks(es) < 106
            case Some(n) => 104 <= n <= 106
  {
    StepKeepsSafe(d, e, cyclesPerUs);
    StartIsTimely(Step(d, e, cyclesPerUs), es, cyclesPerUs);
  }

  // --- Decoding a frame ----------------------------------------------------

  const FRAME_EDGES := 83

  /** A driver that has just released the line. */
  predicate Released(d: Driver) {
    && Safe(d) && d.active && d.capture == RespFall && d.bitIndex == 0 && d.bytes == ZEROS && d.highStart == 0
  }

  /** The task call at the end of the start pulse releases the line, and no other call does. */
  lemma ReleasedIff(d: Driver)
    requires Safe(d)
    ensures d.phase == StartLow && d.ticks <= 1 ==> Released(Task(d)) && Task(d).ticks == FRAME_TIMEOUT_TICKS
    ensures !d.active && Released(Task(d)) ==> d.phase == StartLow && d.ticks <= 1
  {
  }

  predicate AllEdges(es: seq<Event>) {
    forall k | 0 <= k < |es| :: es[k].Interrupt?
  }

  // Edge `k` has the polarity the protocol calls for: falls and rises alternate, a fall first.
  predicate InTurn(es: seq<Event>, k: nat)
    requires k < |es| && es[k].Interrupt?
  {
    es[k].high == (k % 2 == 1)
  }

  predicate Alternates(es: seq<Event>) {
    AllEdges(es) && forall k | 0 <= k < |es| :: InTurn(es, k)
  }

  function CaptureAfter(n: nat): Capture {
    if n == 0 then RespFall
    else if n == 1 then RespRise
    else if n == 2 then FirstDataFall
    else if n % 2 == 1 then BitRise
    else BitFall
  }

  function BitsAfter(n: nat): nat {
    if n < 3 then 0 else (n - 3) / 2
  }

  // Bit `j`: was the line high for longer than the threshold?
  function LongHigh(es: seq<Event>, j: nat, cyclesPerUs: nat): bool
    requires AllEdges(es) && 4 + 2 * j < |es| && cyclesPerUs > 0
  {
    ElapsedUs(es[3 + 2 * j].now, es[4 + 2 * j].now, cyclesPerUs) > BIT_HIGH_THRESHOLD_US
  }

  function Bits(es: seq<Event>, cyclesPerUs: nat): seq<bool>
    requires AllEdges(es) && cyclesPerUs > 0
  {
    seq(BitsAfter(|es|), j requires 0 <= j < BitsAfter(|es|) => LongHigh(es, j, cyclesPerUs))
  }

  /** Bits packed into five bytes, most significant first. */
  function Pack(bits: seq<bool>): (bytes: seq<Byte>)
    requires |bits| <= 40
    ensures |bytes| == 5
  {
    if |bits| == 0 then ZEROS
    else
      var n := |bits| - 1;
      var before := Pack(bits[..n]);
      before[n / 8 := ShiftIn(before[n / 8], bits[n])]
  }

  // The time of the last rise that starts a bit, as the driver remembers it.
  function LastRise(es: seq<Event>): U32
    requires AllEdges(es)
  {
    if |es| < 4 then 0 else if |es| % 2 == 0 then es[|es| - 1].now else es[|es| - 2].now
  }

  // The driver in the middle of a frame.
  function Captured(d: Driver, es: seq<Event>, cyclesPerUs: nat): Driver
    requires AllEdges(es) && |es| <= FRAME_EDGES && cyclesPerUs > 0
  {
    d.(capture := CaptureAfter(|es|), bitIndex := BitsAfter(|es|),
       bytes := Pack(Bits(es, cyclesPerUs)), highStart := LastRise(es))
  }

  lemma BitsGrow(es: seq<Event>, e: Event, cyclesPerUs: nat)
    requires AllEdges(es) && e.Interrupt? && cyclesPerUs > 0
    ensures AllEdges(es + [e])
    ensures Bits(es + [e], cyclesPerUs) ==
            if |es| >= 4 && |es| % 2 == 0
            then Bits(es, cyclesPerUs) + [ElapsedUs(LastRise(es), e.now, cyclesPerUs) > BIT_HIGH_THRESHOLD_US]
            else Bits(es, cyclesPerUs)
  {
  }

  lemma PackGrows(bits: seq<bool>, bit: bool)
    requires |bits| < 40
    ensures Pack(bits + [bit]) == Pack(bits)[|bits| / 8 := ShiftIn(Pack(bits)[|bits| / 8], bit)]
  {
    assert (bits + [bit])[..|bits|] == bits;
  }

  lemma LastRiseGrows(es: seq<Event>, e: Event)
    requires AllEdges(es) && e.Interrupt?
    ensures AllEdges(es + [e])
    ensures LastRise(es + [e]) == if |es| >= 3 && |es| % 2 == 1 then e.now else LastRise(es)
  {
  }

  lemma CapturedIsSafe(d: Driver, es: seq<Event>, cyclesPerUs: nat)
    requires Released(d) && AllEdges(es) && |es| < FRAME_EDGES && cyclesPerUs > 0
    ensures Safe(Captured(d, es, cyclesPerUs))
  {
  }

  // An edge that ends no bit: the response, and the rise that starts a bit.
  lemma CaptureAdvancesWithoutBit(d: Driver, es: seq<Event>, e: Event, cyclesPerUs: nat)
    requires Released(d) && AllEdges(es) && |es| < FRAME_EDGES - 1 && cyclesPerUs > 0
    requires e.Interrupt? && e.high == (|es| % 2 == 1)
    requires |es| < 4 || |es| % 2 == 1
    ensures AllEdges(es + [e])
    ensures Edge(Captured(d, es, cyclesPerUs), e.high, e.now, cyclesPerUs) == Captured(d, es + [e], cyclesPerUs)
  {
    BitsGrow(es, e, cyclesPerUs);
    LastRiseGrows(es, e);
  }

  lemma FallTakesBit(d: Driver, now: U32, cyclesPerUs: nat)
    requires |d.bytes| == 5 && d.active && d.bitIndex < 40 && d.capture == BitFall && cyclesPerUs > 0
    ensures Edge(d, false, now, cyclesPerUs) ==
            TakeBit(d, ElapsedUs(d.highStart, now, cyclesPerUs) > BIT_HIGH_THRESHOLD_US)
  {
  }

  // What the packed bits become when the bit ending with `e` is added.
  lemma PackedBitsGrow(es: seq<Event>, e: Event, cyclesPerUs: nat)
    requires AllEdges(es) && e.Interrupt? && 4 <= |es| < FRAME_EDGES && |es| % 2 == 0 && cyclesPerUs > 0
    ensures AllEdges(es + [e]) && LastRise(es + [e]) == LastRise(es)
    ensures var bit := ElapsedUs(LastRise(es), e.now, cyclesPerUs) > BIT_HIGH_THRESHOLD_US;
            var packed, i := Pack(Bits(es, cyclesPerUs)), BitsAfter(|es|) / 8;
            Pack(Bits(es + [e], cyclesPerUs)) == packed[i := ShiftIn(packed[i], bit)]
  {
    BitsGrow(es, e, cyclesPerUs);
    LastRiseGrows(es, e);
    PackGrows(Bits(es, cyclesPerUs), ElapsedUs(LastRise(es), e.now, cyclesPerUs) > BIT_HIGH_THRESHOLD_US);
  }

  lemma TakeBitFields(d: Driver, bit: bool)
    requires |d.bytes| == 5 && d.bitIndex < 39
    ensures var i := d.bitIndex / 8;
            TakeBit(d, bit) == d.(bytes := d.bytes[i := ShiftIn(d.bytes[i], bit)], bitIndex := d.bitIndex + 1, capture := BitRise)
  {
  }

  // The fall that ends a bit.
  lemma CaptureAdvancesWithBit(d: Driver, es: seq<Event>, e: Event, cyclesPerUs: nat)
    requires Released(d) && AllEdges(es) && 4 <= |es| < FRAME_EDGES - 1 && cyclesPerUs > 0
    requires e.Interrupt? && !e.high && |es| % 2 == 0
    ensures AllEdges(es + [e])
    ensures Edge(Captured(d, es, cyclesPerUs), e.high, e.now, cyclesPerUs) == Captured(d, es + [e], cyclesPerUs)
  {
    var was := Captured(d, es, cyclesPerUs);
    PackedBitsGrow(es, e, cyclesPerUs);
    FallTakesBit(was, e.now, cyclesPerUs);
    TakeBitFields(was, ElapsedUs(was.highStart, e.now, cyclesPerUs) > BIT_HIGH_THRESHOLD_US);
  }

  // One more edge in turn, short of the last.
  lemma CaptureAdvances(d: Driver, es: seq<Event>, e: Event, cyclesPerUs: nat)
    requires Released(d) && AllEdges(es) && |es| < FRAME_EDGES - 1 && cyclesPerUs > 0
    requires e.Interrupt? && e.high == (|es| % 2 == 1)
    ensures Safe(Captured(d, es, cyclesPerUs)) && AllEdges(es + [e])
    ensures Step(Captured(d, es, cyclesPerUs), e, cyclesPerUs) == Captured(d, es + [e], cyclesPerUs)
  {
    CapturedIsSafe(d, es, cyclesPerUs);
    if |es| < 4 || |es| % 2 == 1 {
      CaptureAdvancesWithoutBit(d, es, e, cyclesPerUs);
    } else {
      CaptureAdvancesWithBit(d, es, e, cyclesPerUs);
    }
  }

  /** While edges alternate, the bits seen so far are packed and the capture goes on. */
  lemma {:induction false} AlternatingEdgesAreCaptured(d: Driver, es: seq<Event>, cyclesPerUs: nat)
    requires Released(d) && Alternates(es) && |es| < FRAME_EDGES && cyclesPerUs > 0
    ensures Run(d, es, cyclesPerUs) == Captured(d, es, cyclesPerUs)
    decreases |es|
  {
    if |es| > 0 {
      var init, last := es[..|es| - 1], es[|es| - 1];
      assert es == init + [last] && InTurn(es, |es| - 1);
      assert Alternates(init) by {
        assert forall k | 0 <= k < |init| :: init[k] == es[k] && InTurn(es, k);
      }
      AlternatingEdgesAreCaptured(d, init, cyclesPerUs);
      CaptureAdvances(d, init, last, cyclesPerUs);
    }
  }

  // A driver that has stopped listening is not disturbed by edges.
  lemma {:induction false} EdgesIgnored(d: Driver, es: seq<Event>, n: nat, cyclesPerUs: nat)
    requires Safe(d) && AllEdges(es) && n <= |es| && cyclesPerUs > 0
    requires !Run(d, es[..n], cyclesPerUs).active
    ensures Run(d, es, cyclesPerUs) == Run(d, es[..n], cyclesPerUs)
    decreases |es|
  {
    if n < |es| {
      var init := es[..|es| - 1];
      assert init[..n] == es[..n];
      EdgesIgnored(d, init, n, cyclesPerUs);
    } else {
      assert es[..n] == es;
    }
  }

  // The fall that ends the last bit.
  lemma LastBitCompletes(d: Driver, es: seq<Event>, e: Event, cyclesPerUs: nat)
    requires Released(d) && AllEdges(es) && |es| == FRAME_EDGES - 1 && cyclesPerUs > 0
    requires e.Interrupt? && !e.high
    ensures AllEdges(es + [e])
    ensures var d' := Edge(Captured(d, es, cyclesPerUs), e.high, e.now, cyclesPerUs);
            d'.done && !d'.error && !d'.active && d'.bytes == Pack(Bits(es + [e], cyclesPerUs))
  {
    PackedBitsGrow(es, e, cyclesPerUs);
    FallTakesBit(Captured(d, es, cyclesPerUs), e.now, cyclesPerUs);
  }

  lemma FrameCompletes(d: Driver, es: seq<Event>, cyclesPerUs: nat)
    requires Released(d) && Alternates(es) && |es| == FRAME_EDGES && cyclesPerUs > 0
    ensures var d' := Run(d, es, cyclesPerUs);
            d'.done && !d'.error && !d'.active && d'.bytes == Pack(Bits(es, cyclesPerUs))
  {
    var init, last := es[..|es| - 1], es[|es| - 1];
    assert es == init + [last] && InTurn(es, |es| - 1);
    PrefixAlternates(es, |es| - 1);
    AlternatingEdgesAreCaptured(d, init, cyclesPerUs);
    LastBitCompletes(d, init, last, cyclesPerUs);
  }

  // The first edge out of turn.
  lemma WrongEdgeFaults(d: Driver, es: seq<Event>, cyclesPerUs: nat)
    requires Released(d) && AllEdges(es) && 0 < |es| <= FRAME_EDGES && cyclesPerUs > 0
    requires Alternates(es[..|es| - 1]) && !InTurn(es, |es| - 1)
    ensures var d' := Run(d, es, cyclesPerUs); d'.error && !d'.done && !d'.active
  {
    AlternatingEdgesAreCaptured(d, es[..|es| - 1], cyclesPerUs);
  }

  // How many of the first 83 edges are in turn before the first that is not.
  function TurnsTaken(es: seq<Event>): (n: nat)
    requires AllEdges(es)
    ensures n <= |es| && n <= FRAME_EDGES
    ensures forall k | 0 <= k < n :: InTurn(es, k)
    ensures n < |es| && n < FRAME_EDGES ==> !InTurn(es, n)
  {
    TurnsFrom(es, 0)
  }

  function TurnsFrom(es: seq<Event>, from: nat): (n: nat)
    requires AllEdges(es) && from <= |es| && from <= FRAME_EDGES
    requires forall k | 0 <= k < from :: InTurn(es, k)
    ensures n <= |es| && n <= FRAME_EDGES
    ensures forall k | 0 <= k < n :: InTurn(es, k)
    ensures n < |es| && n < FRAME_EDGES ==> !InTurn(es, n)
    decreases |es| - from
  {
    if from < |es| && from < FRAME_EDGES && InTurn(es, from) then TurnsFrom(es, from + 1) else from
  }

  lemma PrefixAlternates(es: seq<Event>, n: nat)
    requires AllEdges(es) && n <= |es|
    requires forall k | 0 <= k < n :: InTurn(es, k)
    ensures Alternates(es[..n])
  {
    assert forall k | 0 <= k < n :: es[..n][k] == es[k] && InTurn(es, k);
  }

  /**
    Whatever edges follow a release: the frame is done exactly when the first
    83 alternate, and in error exactly when one of them comes out of turn.
   */
  lemma DoneIffAlternating(d: Driver, es: seq<Event>, cyclesPerUs: nat)
    requires Released(d) && AllEdges(es) && cyclesPerUs > 0
    ensures var d', n := Run(d, es, cyclesPerUs), TurnsTaken(es);
            && (d'.done <==> n == FRAME_EDGES)
            && (d'.error <==> n < |es| && n < FRAME_EDGES)
            && (d'.active <==> n == |es| && n < FRAME_EDGES)
  {
    var n := TurnsTaken(es);
    PrefixAlternates(es, n);
    if n == FRAME_EDGES {
      FrameCompletes(d, es[..n], cyclesPerUs);
      EdgesIgnored(d, es, n, cyclesPerUs);
    } else if n < |es| {
      assert es[..n + 1][..n] == es[..n] && es[..n + 1][n] == es[n];
      assert !InTurn(es[..n + 1], n);
      WrongEdgeFaults(d, es[..n + 1], cyclesPerUs);
      EdgesIgnored(d, es, n + 1, cyclesPerUs);
    } else {
      assert es[..n] == es;
      AlternatingEdgesAreCaptured(d, es, cyclesPerUs);
    }
  }

  // --- Round trip of a frame -----------------------------------------------

  function Weight(m: nat): nat
    requires m <= 8
  {
    [256, 128, 64, 32, 16, 8, 4, 2, 1][m]
  }

  // The `m` most significant bits of a byte, as a number.
  function Top(b: Byte, m: nat): nat
    requires m <= 8
  {
    b / Weight(m)
  }

  // Bit `m` of a byte, counted from the most significant.
  function BitOf(b: Byte, m: nat): bool
    requires m < 8
  {
    b / Weight(m + 1) % 2 == 1
  }

  lemma ShiftBuildsByte(b: Byte, m: nat)
    requires m < 8
    ensures Top(b, m) < 0x100 && Top(b, m + 1) == ShiftIn(Top(b, m), BitOf(b, m))
  {
  }

  function BitsOfBytes(bytes: seq<Byte>): seq<bool>
    requires |bytes| == 5
  {
    seq(40, j requires 0 <= j < 40 => BitOf(bytes[j / 8], j % 8))
  }

  function BitsIn(n: nat, i: nat): nat {
    if n <= 8 * i then 0 else if n >= 8 * i + 8 then 8 else n - 8 * i
  }

  lemma {:induction false} PackInverts(bytes: seq<Byte>, n: nat)
    requires |bytes| == 5 && n <= 40
    ensures forall i | 0 <= i < 5 :: Pack(BitsOfBytes(bytes)[..n])[i] == Top(bytes[i], BitsIn(n, i))
  {
    var bits := BitsOfBytes(bytes);
    if n > 0 {
      PackInverts(bytes, n - 1);
      assert bits[..n][..n - 1] == bits[..n - 1];
      ShiftBuildsByte(bytes[(n - 1) / 8], (n - 1) % 8);
    }
  }

  /** Packing the bits of five bytes gives them back. */
  lemma PackRoundTrip(bytes: seq<Byte>)
    requires |bytes| == 5
    ensures Pack(BitsOfBytes(bytes)) == bytes
  {
    PackInverts(bytes, 40);
    assert BitsOfBytes(bytes)[..40] == BitsOfBytes(bytes);
  }

  /** Elapsed time is right across the wrap of the cycle counter, as long as it is below one turn. */
  lemma ElapsedAcrossWrap(start: nat, end: nat, cyclesPerUs: nat)
    requires start <= end < start + 0x1_0000_0000 && cyclesPerUs > 0
    ensures ElapsedUs(start % 0x1_0000_0000, end % 0x1_0000_0000, cyclesPerUs) == (end - start) / cyclesPerUs
  {
    var M := 0x1_0000_0000;
    var a, b := start % M, end % M;
    assert (b - a) % M == end - start by {
      if end / M == start / M {
      } else {
        assert end / M == start / M + 1;
      }
    }
  }

  // The edges of a frame at true times `at`, as the driver's counter shows them.
  function Pulses(at: seq<nat>): (es: seq<Event>)
    ensures |es| == |at| && AllEdges(es)
  {
    seq(|at|, k requires 0 <= k < |at| => Interrupt(k % 2 == 1, at[k] % 0x1_0000_0000))
  }

  /** The line is high for more than 50 us in a one bit and at most that in a zero bit. */
  predicate Encodes(at: seq<nat>, bytes: seq<Byte>, cyclesPerUs: nat)
    requires |bytes| == 5 && cyclesPerUs > 0
  {
    |at| == FRAME_EDGES &&
    forall j | 0 <= j < 40 ::
      && at[3 + 2 * j] <= at[4 + 2 * j] < at[3 + 2 * j] + 0x1_0000_0000
      && ((at[4 + 2 * j] - at[3 + 2 * j]) / cyclesPerUs > 50 <==> BitsOfBytes(bytes)[j])
  }

  /** Five bytes sent as pulses, at any counter value, are captured as those bytes. */
  lemma FrameRoundTrip(d: Driver, at: seq<nat>, bytes: seq<Byte>, cyclesPerUs: nat)
    requires Released(d) && cyclesPerUs > 0
    requires |bytes| == 5 && Encodes(at, bytes, cyclesPerUs)
    ensures var d' := Run(d, Pulses(at), cyclesPerUs); d'.done && d'.bytes == bytes
  {
    var es := Pulses(at);
    assert Alternates(es) by {
      assert forall k | 0 <= k < |es| :: InTurn(es, k);
    }
    FrameCompletes(d, es, cyclesPerUs);
    forall j | 0 <= j < 40 ensures Bits(es, cyclesPerUs)[j] == BitsOfBytes(bytes)[j] {
      ElapsedAcrossWrap(at[3 + 2 * j], at[4 + 2 * j], cyclesPerUs);
    }
    assert Bits(es, cyclesPerUs) == BitsOfBytes(bytes);
    PackRoundTrip(bytes);
  }

  // --- Task calls during a frame -------------------------------------------

  function EdgesOf(es: seq<Event>): (edges: seq<Event>)
    ensures AllEdges(edges)
  {
    if |es| == 0 then []
    else EdgesOf(es[..|es| - 1]) + if es[|es| - 1].Interrupt? then [es[|es| - 1]] else []
  }

  lemma {:induction false} CountTicksAppends(es: seq<Event>, e: Event)
    ensures CountTicks(es + [e]) == CountTicks(es) + if e.Tick? then 1 else 0
    decreases |es|
  {
    if |es| == 0 {
      assert es + [e] == [e] && |[e][1..]| == 0;
    } else {
      assert (es + [e])[1..] == es[1..] + [e];
      CountTicksAppends(es[1..], e);
    }
  }

  lemma TickWhileCapturing(d: Driver)
    requires Safe(d) && d.active && d.ticks > 0
    ensures Task(d) == d.(ticks := d.ticks - 1)
  {
  }

  lemma EdgeIgnoresTicks(d: Driver, ticks: U16, high: bool, now: U32, cyclesPerUs: nat)
    requires Safe(d) && cyclesPerUs > 0
    ensures Edge(d.(ticks := ticks), high, now, cyclesPerUs) == Edge(d, high, now, cyclesPerUs).(ticks := ticks)
  {
  }

  // Task calls so far have only run the timeout down.
  predicate Undisturbed(d: Driver, es: seq<Event>, cyclesPerUs: nat)
    requires Safe(d) && cyclesPerUs > 0 && CountTicks(es) <= d.ticks
  {
    Run(d, es, cyclesPerUs) == Run(d, EdgesOf(es), cyclesPerUs).(ticks := d.ticks - CountTicks(es))
  }

  lemma RunAppends(d: Driver, es: seq<Event>, e: Event, cyclesPerUs: nat)
    requires Safe(d) && cyclesPerUs > 0
    ensures Run(d, es + [e], cyclesPerUs) == Step(Run(d, es, cyclesPerUs), e, cyclesPerUs)
  {
    assert (es + [e])[..|es|] == es;
  }

  lemma EdgesOfAppends(es: seq<Event>, e: Event)
    ensures EdgesOf(es + [e]) == if e.Interrupt? then EdgesOf(es) + [e] else EdgesOf(es)
  {
    assert (es + [e])[..|es|] == es;
    assert EdgesOf(es) + [] == EdgesOf(es);
  }

  lemma TickTurn(d: Driver, es: seq<Event>, cyclesPerUs: nat)
    requires Safe(d) && cyclesPerUs > 0 && CountTicks(es) < d.ticks
    requires Undisturbed(d, es, cyclesPerUs) && Run(d, es, cyclesPerUs).active
    ensures CountTicks(es + [Tick]) == CountTicks(es) + 1
    ensures Undisturbed(d, es + [Tick], cyclesPerUs)
  {
    CountTicksAppends(es, Tick);
    EdgesOfAppends(es, Tick);
    RunAppends(d, es, Tick, cyclesPerUs);
    TickWhileCapturing(Run(d, es, cyclesPerUs));
  }

  lemma EdgeTurn(d: Driver, es: seq<Event>, e: Event, cyclesPerUs: nat)
    requires Safe(d) && cyclesPerUs > 0 && CountTicks(es) <= d.ticks
    requires Undisturbed(d, es, cyclesPerUs) && e.Interrupt?
    ensures CountTicks(es + [e]) == CountTicks(es)
    ensures Undisturbed(d, es + [e], cyclesPerUs)
  {
    var edges := EdgesOf(es);
    CountTicksAppends(es, e);
    EdgesOfAppends(es, e);
    RunAppends(d, es, e, cyclesPerUs);
    RunAppends(d, edges, e, cyclesPerUs);
    EdgeIgnoresTicks(Run(d, edges, cyclesPerUs), d.ticks - CountTicks(es), e.high, e.now, cyclesPerUs);
  }

  lemma EdgesOfFront(init: seq<Event>, last: Event)
    requires Alternates(EdgesOf(init + [last]))
    ensures Alternates(EdgesOf(init))
    ensures |EdgesOf(init)| + (if last.Interrupt? then 1 else 0) == |EdgesOf(init + [last])|
  {
    EdgesOfAppends(init, last);
    if last.Interrupt? {
      AlternatesButLast(EdgesOf(init), last);
    }
  }

  lemma AlternatesButLast(edges: seq<Event>, last: Event)
    requires Alternates(edges + [last])
    ensures Alternates(edges)
  {
    PrefixAlternates(edges + [last], |edges|);
    assert (edges + [last])[..|edges|] == edges;
  }

  /**
    Task calls that fall between the edges of a frame, as many as the timeout
    allows, do not disturb it: they only run the timeout down.
   */
  lemma {:induction false} TicksDoNotDisturbCapture(d: Driver, es: seq<Event>, cyclesPerUs: nat)
    requires Released(d) && cyclesPerUs > 0 && CountTicks(es) <= d.ticks
    requires Alternates(EdgesOf(es)) && |EdgesOf(es)| <= FRAME_EDGES
    requires |EdgesOf(es)| == FRAME_EDGES ==> es[|es| - 1].Interrupt?
    ensures Undisturbed(d, es, cyclesPerUs)
    decreases |es|
  {
    if |es| > 0 {
      var init, last := es[..|es| - 1], es[|es| - 1];
      assert es == init + [last];
      EdgesOfFront(init, last);
      CountTicksAppends(init, last);
      TicksDoNotDisturbCapture(d, init, cyclesPerUs);
      if last.Interrupt? {
        EdgeTurn(d, init, last, cyclesPerUs);
      } else {
        AlternatingEdgesAreCaptured(d, EdgesOf(init), cyclesPerUs);
        TickTurn(d, init, cyclesPerUs);
      }
    }
  }

  lemma {:induction false} EdgesKeepReadings(d: Driver, edges: seq<Event>, cyclesPerUs: nat)
    requires Safe(d) && cyclesPerUs > 0 && AllEdges(edges)
    ensures SameReadings(d, Run(d, edges, cyclesPerUs))
  {
    if |edges| > 0 {
      EdgesKeepReadings(d, edges[..|edges| - 1], cyclesPerUs);
    }
  }

  /** What becomes of the readings: those of the frame if its last byte is the sum of the others modulo 256, else none are touched. */
  predicate Decided(d: Driver, d': Driver, bytes: seq<Byte>)
    requires |bytes| == 5
  {
    if (bytes[0] as int + bytes[1] as int + bytes[2] as int + bytes[3] as int) % 0x100 == bytes[4] as int
    then Published(d', bytes) else SameReadings(d, d')
  }

  // The end of a frame, seen from the release of the line.
  lemma {:induction false} FrameAfterRelease(d: Driver, es: seq<Event>, at: seq<nat>, bytes: seq<Byte>, cyclesPerUs: nat)
    requires Released(d) && cyclesPerUs > 0 && CountTicks(es) <= d.ticks
    requires |bytes| == 5 && Encodes(at, bytes, cyclesPerUs)
    requires EdgesOf(es) == Pulses(at) && es[|es| - 1].Interrupt?
    ensures Decided(d, Run(d, es + [Tick], cyclesPerUs), bytes)
  {
    assert Alternates(Pulses(at)) by {
      assert forall k | 0 <= k < |at| :: InTurn(Pulses(at), k);
    }
    TicksDoNotDisturbCapture(d, es, cyclesPerUs);
    FrameRoundTrip(d, at, bytes, cyclesPerUs);
    EdgesKeepReadings(d, EdgesOf(es), cyclesPerUs);
    assert (es + [Tick])[..|es|] == es;
    PublishedOnlyWithChecksum(Run(d, es, cyclesPerUs), Tick, cyclesPerUs);
  }

  lemma {:induction false} RunJoins(d: Driver, a: seq<Event>, b: seq<Event>, cyclesPerUs: nat)
    requires Safe(d) && cyclesPerUs > 0
    ensures Run(d, a + b, cyclesPerUs) == Run(Run(d, a, cyclesPerUs), b, cyclesPerUs)
    decreases |b|
  {
    if |b| == 0 {
      assert a + b == a;
    } else {
      var init, last := b[..|b| - 1], b[|b| - 1];
      RunJoins(d, a, init, cyclesPerUs);
      assert (a + b)[..|a + b| - 1] == a + init;
    }
  }

  // Edges during the start pulse are ignored; task calls run it down.
  lemma {:induction false} StartPulseLasts(d: Driver, es: seq<Event>, cyclesPerUs: nat)
    requires Safe(d) && d.phase == StartLow && cyclesPerUs > 0 && CountTicks(es) < d.ticks
    ensures var d' := Run(d, es, cyclesPerUs); d'.phase == StartLow && d'.ticks as int == d.ticks as int - CountTicks(es)
    ensures SameReadings(d, Run(d, es, cyclesPerUs))
    decreases |es|
  {
    if |es| > 0 {
      var init, last := es[..|es| - 1], es[|es| - 1];
      assert es == init + [last];
      CountTicksAppends(init, last);
      StartPulseLasts(d, init, cyclesPerUs);
    }
  }

  /**
    A frame is published by the first task call after it if its checksum is
    right, and otherwise leaves the readings as they were, also when task calls
    fell inside it. `d` is any state of the start pulse that the next task call
    ends by releasing the line.
   */
  lemma {:induction false} FrameIsDecided(d: Driver, es: seq<Event>, at: seq<nat>, bytes: seq<Byte>, cyclesPerUs: nat)
    requires Safe(d) && d.phase == StartLow && d.ticks <= 1
    requires cyclesPerUs > 0 && CountTicks(es) <= 2
    requires |bytes| == 5 && Encodes(at, bytes, cyclesPerUs)
    requires EdgesOf(es) == Pulses(at) && es[|es| - 1].Interrupt?
    ensures Decided(d, Run(d, [Tick] + (es + [Tick]), cyclesPerUs), bytes)
  {
    ReleasedIff(d);
    RunJoins(d, [Tick], es + [Tick], cyclesPerUs);
    assert [Tick][..0] == [];
    assert Run(d, [Tick], cyclesPerUs) == Task(d);
    FrameAfterRelease(Task(d), es, at, bytes, cyclesPerUs);
  }

  /**
    End to end from the task call that starts a request: the start pulse, with
    one task call and any edges in it, the release, the frame and the task call
    behind it.
   */
  lemma {:induction false} RequestIsDecided(d: Driver, pulse: seq<Event>, es: seq<Event>, at: seq<nat>, bytes: seq<Byte>,
                                            cyclesPerUs: nat)
    requires Safe(d) && Starts(d, Tick) && CountTicks(pulse) == 1
    requires cyclesPerUs > 0 && CountTicks(es) <= 2
    requires |bytes| == 5 && Encodes(at, bytes, cyclesPerUs)
    requires EdgesOf(es) == Pulses(at) && es[|es| - 1].Interrupt?
    ensures Decided(d, Run(d, [Tick] + pulse + ([Tick] + (es + [Tick])), cyclesPerUs), bytes)
  {
    TaskKeepsSafe(d);
    RunJoins(d, [Tick] + pulse, [Tick] + (es + [Tick]), cyclesPerUs);
    RunJoins(d, [Tick], pulse, cyclesPerUs);
    assert [Tick][..0] == [];
    assert Run(d, [Tick], cyclesPerUs) == Task(d);
    StartPulseLasts(Task(d), pulse, cyclesPerUs);
    FrameIsDecided(Run(Task(d), pulse, cyclesPerUs), es, at, bytes, cyclesPerUs);
  }

  /** A request answered by a good frame publishes it. */
  lemma {:induction false} RequestIsPublished(d: Driver, pulse: seq<Event>, es: seq<Event>, at: seq<nat>, bytes: seq<Byte>,
                                              cyclesPerUs: nat)
    requires Safe(d) && Starts(d, Tick) && CountTicks(pulse) == 1
    requires cyclesPerUs > 0 && CountTicks(es) <= 2
    requires |bytes| == 5 && Encodes(at, bytes, cyclesPerUs)
    requires (bytes[0] as int + bytes[1] as int + bytes[2] as int + bytes[3] as int) % 0x100 == bytes[4] as int
    requires EdgesOf(es) == Pulses(at) && es[|es| - 1].Interrupt?
    ensures Published(Run(d, [Tick] + pulse + ([Tick] + (es + [Tick])), cyclesPerUs), bytes)
  {
    RequestIsDecided(d, pulse, es, at, bytes, cyclesPerUs);
  }

  lemma OneByteOff(good: seq<Byte>, k: nat, b: Byte)
    requires |good| == 5 && k < 5 && b != good[k]
    requires (good[0] as int + good[1] as int + good[2] as int + good[3] as int) % 0x100 == good[4] as int
    ensures var bytes := good[k := b];
            (bytes[0] as int + bytes[1] as int + bytes[2] as int + bytes[3] as int) % 0x100 != bytes[4] as int
  {
  }

  /** A frame in which exactly one byte of a good one is wrong never changes a reading. */
  lemma {:induction false} CorruptedByteIsDiscarded(d: Driver, pulse: seq<Event>, es: seq<Event>, at: seq<nat>,
                                                    good: seq<Byte>, k: nat, b: Byte, cyclesPerUs: nat)
    requires Safe(d) && Starts(d, Tick) && CountTicks(pulse) == 1
    requires cyclesPerUs > 0 && CountTicks(es) <= 2
    requires |good| == 5 && k < 5 && b != good[k]
    requires (good[0] as int + good[1] as int + good[2] as int + good[3] as int) % 0x100 == good[4] as int
    requires Encodes(at, good[k := b], cyclesPerUs)
    requires EdgesOf(es) == Pulses(at) && es[|es| - 1].Interrupt?
    ensures SameReadings(d, Run(d, [Tick] + pulse + ([Tick] + (es + [Tick])), cyclesPerUs))
  {
    OneByteOff(good, k, b);
    RequestIsDecided(d, pulse, es, at, good[k := b], cyclesPerUs);
  }
}
