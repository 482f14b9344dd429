/**
  usart1_port.c and usart2_port.c: the sliding-window parsers of the VL53 range
  finder (7-byte frames) and of the HWT101 attitude sensor (11-byte frames),
  with the two frame handlers. The port files repeat one algorithm; `Format`
  carries what differs.
 */
module SensorPorts {
  import opened Streams
  import opened RxBuffers

  datatype Format = Vl53 | Hwt101 {
    function Length(): nat {
      match this
      case Vl53 => 7
      case Hwt101 => 11
    }

    // The parser's test of the window that starts at `i`.
    predicate Matches(s: seq<Byte>, i: nat)
      requires i + Length() <= |s|
    {
      match this
      case Vl53 => s[i] == 0x65 && s[i + 1] == 0x3A && s[i + 6] == 0x6D
      case Hwt101 => s[i] == 0x55 && s[i + 1] == 0x53
    }

    // How far past its header a frame handler reads.
    function Reach(): nat {
      match this
      case Vl53 => 7
      case Hwt101 => 8
    }

    // The handler's own test, repeated at every offset of the frame it is given.
    predicate Hit(data: seq<Byte>, i: nat) {
      i + Reach() <= |data| &&
      match this
      case Vl53 => data[i] == 0x65 && data[i + 1] == 0x3A && data[i + 6] == 0x6D
      case Hwt101 => data[i] == 0x55 && data[i + 1] == 0x53
    }
  }

  /** Take the frame at the front if there is one, else slide by one byte; wait when a frame could still begin here. */
  function Next(f: Format, s: seq<Byte>): Move<seq<Byte>> {
    if |s| < f.Length() then Wait
    else if f.Matches(s, 0) then Take(f.Length(), s[..f.Length()])
    else Drop(1)
  }

  function Window(f: Format): (next: Parser<seq<Byte>>)
    ensures Proper(next)
  {
    s => Next(f, s)
  }

  lemma WindowIsSteadfast(f: Format)
    ensures Steadfast(Window(f))
  {
    forall s, t | |s| >= f.Length()
      ensures Next(f, s + t) == Next(f, s)
    {
      assert (s + t)[..f.Length()] == s[..f.Length()];
    }
  }

  // --- What the scan means -------------------------------------------------

  // Where the search for frame `k` begins.
  function SearchFrom(f: Format, starts: seq<nat>, k: nat): nat
    requires k <= |starts|
  {
    if k == 0 then 0 else starts[k - 1] + f.Length()
  }

  // Window `p` was searched for frame `k` and passed over.
  ghost predicate PassedOver(f: Format, s: seq<Byte>, starts: seq<nat>, k: nat, p: nat)
    requires k <= |starts|
  {
    SearchFrom(f, starts, k) <= p && p + f.Length() <= |s| && (k < |starts| ==> p < starts[k])
  }

  /** Frames at `starts`: each matches, none overlap, and no window passed over before, between or after them matches. */
  ghost predicate Leftmost(f: Format, s: seq<Byte>, starts: seq<nat>) {
    && (forall k | 0 <= k < |starts| :: starts[k] + f.Length() <= |s| && f.Matches(s, starts[k]))
    && (forall j, k | 0 <= j < k < |starts| :: starts[j] + f.Length() <= starts[k])
    && (forall k, p | 0 <= k <= |starts| && PassedOver(f, s, starts, k, p) :: !f.Matches(s, p))
  }

  function Cut(f: Format, s: seq<Byte>, starts: seq<nat>): seq<seq<Byte>>
    requires forall k | 0 <= k < |starts| :: starts[k] + f.Length() <= |s|
  {
    if |starts| == 0 then []
    else var at := starts[0]; var end := at + f.Length(); [s[at..end]] + Cut(f, s, starts[1..])
  }

  function Starts(f: Format, s: seq<Byte>, from: nat): (starts: seq<nat>)
    ensures forall k | 0 <= k < |starts| :: from <= starts[k] && starts[k] + f.Length() <= |s|
    decreases |s| - from
  {
    if from + f.Length() > |s| then []
    else if f.Matches(s, from) then [from] + Starts(f, s, from + f.Length())
    else Starts(f, s, from + 1)
  }

  lemma PassedOverInRest(f: Format, s: seq<Byte>, at: nat, rest: seq<nat>, k: nat, p: nat)
    requires k <= |rest| + 1 && at <= p
    requires PassedOver(f, s, [at] + rest, k, p)
    requires forall j | 0 <= j < |rest| :: at + f.Length() <= rest[j]
    ensures k > 0 && at + f.Length() <= p && PassedOver(f, s, rest, k - 1, p)
  {
  }

  lemma {:induction false} StartsAreLeftmost(f: Format, s: seq<Byte>, from: nat, starts: seq<nat>)
    requires starts == Starts(f, s, from)
    ensures forall k | 0 <= k < |starts| :: f.Matches(s, starts[k])
    ensures forall j, k | 0 <= j < k < |starts| :: starts[j] + f.Length() <= starts[k]
    ensures forall k, p | 0 <= k <= |starts| && from <= p && PassedOver(f, s, starts, k, p) :: !f.Matches(s, p)
    decreases |s| - from
  {
    if from + f.Length() > |s| {
    } else if f.Matches(s, from) {
      var next := from + f.Length();
      var rest := Starts(f, s, next);
      StartsAreLeftmost(f, s, next, rest);
      forall k, p | 0 <= k <= |starts| && from <= p && PassedOver(f, s, starts, k, p)
        ensures !f.Matches(s, p)
      {
        PassedOverInRest(f, s, from, rest, k, p);
      }
    } else {
      StartsAreLeftmost(f, s, from + 1, starts);
    }
  }

  lemma SameWindow(f: Format, s: seq<Byte>, from: nat, here: seq<Byte>)
    requires from <= |s| && here == s[from..] && f.Length() <= |here|
    ensures f.Matches(here, 0) == f.Matches(s, from)
    ensures here[..f.Length()] == s[from..from + f.Length()]
    ensures here[f.Length()..] == s[from + f.Length()..] && here[1..] == s[from + 1..]
  {
  }

  lemma {:induction false} ScanCutsAtStarts(f: Format, s: seq<Byte>, from: nat, here: seq<Byte>)
    requires from <= |s| && here == s[from..]
    ensures Scan(Window(f), here).items == Cut(f, s, Starts(f, s, from))
    decreases |here|
  {
    if |here| >= f.Length() {
      SameWindow(f, s, from, here);
      var n := Next(f, here).count;
      ScanCutsAtStarts(f, s, from + n, here[n..]);
    }
  }

  /** The scan emits exactly the leftmost non-overlapping frames of the stream. */
  lemma {:induction false} ScanEmitsLeftmostFrames(f: Format, s: seq<Byte>) returns (starts: seq<nat>)
    ensures Leftmost(f, s, starts)
    ensures Scan(Window(f), s).items == Cut(f, s, starts)
  {
    starts := Starts(f, s, 0);
    StartsAreLeftmost(f, s, 0, starts);
    ScanCutsAtStarts(f, s, 0, s);
  }

  /** There is only one such selection of frames. */
  lemma LeftmostIsUnique(f: Format, s: seq<Byte>, a: seq<nat>, b: seq<nat>)
    requires Leftmost(f, s, a) && Leftmost(f, s, b)
    ensures a == b
  {
    LeftmostPrefixesAgree(f, s, a, b, |a|);
    LeftmostPrefixesAgree(f, s, b, a, |b|);
  }

  lemma {:induction false} LeftmostPrefixesAgree(f: Format, s: seq<Byte>, a: seq<nat>, b: seq<nat>, n: nat)
    requires Leftmost(f, s, a) && Leftmost(f, s, b) && n <= |a|
    ensures n <= |b| && a[..n] == b[..n]
  {
    if n > 0 {
      var m := n - 1;
      LeftmostPrefixesAgree(f, s, a, b, m);
      assert m > 0 ==> a[..m][m - 1] == b[..m][m - 1];
      assert SearchFrom(f, a, m) == SearchFrom(f, b, m);
      assert !PassedOver(f, s, b, m, a[m]);
      assert !PassedOver(f, s, a, m, b[m]);
      assert a[..n] == a[..m] + [a[m]] && b[..n] == b[..m] + [b[m]];
    }
  }

  lemma {:induction false} KeepsLessThanAFrame(f: Format, s: seq<Byte>)
    ensures |Scan(Window(f), s).residue| < f.Length()
  {
    ScanStopsWaiting(Window(f), s);
  }

  // --- After corrupted bytes -----------------------------------------------

  /** A range frame as the sensor sends it: its digit positions hold digits or blanks. */
  predicate RangeFrame(frame: seq<Byte>) {
    && |frame| == 7 && frame[0] == 0x65 && frame[1] == 0x3A && frame[6] == 0x6D
    && forall k | 2 <= k <= 5 :: frame[k] == 0x20 || 0x30 <= frame[k] <= 0x39
  }

  lemma TakesFront(f: Format, frame: seq<Byte>, rest: seq<Byte>)
    requires |frame| == f.Length() && f.Matches(frame, 0)
    ensures Scan(Window(f), frame + rest) == Emit([frame], Scan(Window(f), rest))
  {
    var s := frame + rest;
    assert s[..|frame|] == frame && s[|frame|..] == rest;
    assert Next(f, s) == Take(|frame|, frame);
  }

  lemma SlidesOne(f: Format, s: seq<Byte>)
    requires |s| >= f.Length() && !f.Matches(s, 0)
    ensures Scan(Window(f), s) == Scan(Window(f), s[1..])
  {
  }

  /** Whatever came before, no byte of a range frame is taken for part of another: garbage never costs a range frame. */
  lemma {:induction false} RangeFrameGetsThrough(s: seq<Byte>, frame: seq<Byte>)
    requires RangeFrame(frame)
    ensures Scan(Window(Vl53), s + frame) == Scanned(Scan(Window(Vl53), s).items + [frame], [])
    decreases |s|
  {
    var all := s + frame;
    if |s| == 0 {
      assert all == frame + [];
      TakesFront(Vl53, frame, []);
    } else if |s| < 7 {
      assert all[1..] == s[1..] + frame && all[6] == frame[6 - |s|];
      SlidesOne(Vl53, all);
      RangeFrameGetsThrough(s[1..], frame);
    } else if Vl53.Matches(s, 0) {
      assert all == s[..7] + (s[7..] + frame) && s == s[..7] + s[7..];
      TakesFront(Vl53, s[..7], s[7..] + frame);
      RangeFrameGetsThrough(s[7..], frame);
      EmitAppends([s[..7]], Scan(Window(Vl53), s[7..]).items, Scanned([frame], []));
    } else {
      assert all[1..] == s[1..] + frame;
      SlidesOne(Vl53, all);
      SlidesOne(Vl53, s);
      RangeFrameGetsThrough(s[1..], frame);
    }
  }

  // The header of an attitude frame stands at offset `i`.
  predicate HeaderAt(s: seq<Byte>, i: nat)
    requires i + 1 < |s|
  {
    s[i] == 0x55 && s[i + 1] == 0x53
  }

  predicate NoHeader(s: seq<Byte>) {
    forall i | 0 <= i < |s| - 1 :: !HeaderAt(s, i)
  }

  /** An attitude frame in whose other bytes the header does not recur. */
  predicate CleanAttitudeFrame(frame: seq<Byte>) {
    |frame| == 11 && HeaderAt(frame, 0) && NoHeader(frame[1..])
  }

  ghost predicate AttitudeFrames(frames: seq<seq<Byte>>) {
    forall frame | frame in frames :: |frame| == 11 && HeaderAt(frame, 0)
  }

  lemma {:induction false} AttitudeFramesAreScanned(frames: seq<seq<Byte>>)
    requires AttitudeFrames(frames)
    ensures Scan(Window(Hwt101), Flatten(frames)) == Scanned(frames, [])
    ensures |frames| > 0 ==> |Flatten(frames)| >= 11 && Flatten(frames)[0] == 0x55
    decreases |frames|
  {
    if |frames| > 0 {
      assert frames[0] in frames;
      AttitudeFramesAreScanned(frames[1..]);
      FlattenSplit([], frames);
      TakesFront(Hwt101, frames[0], Flatten(frames[1..]));
    }
  }

  // Bytes without a header before a stream that begins with one are dropped one by one.
  lemma {:induction false} DropsHeaderless(front: seq<Byte>, s: seq<Byte>)
    requires NoHeader(front) && |s| >= 11 && s[0] == 0x55
    ensures Scan(Window(Hwt101), front + s) == Scan(Window(Hwt101), s)
    decreases |front|
  {
    if |front| == 0 {
      assert front + s == s;
    } else {
      var all := front + s;
      assert all[1..] == front[1..] + s;
      assert |front| > 1 ==> !HeaderAt(front, 0);
      assert Next(Hwt101, all) == Drop(1);
      assert forall i | 0 <= i < |front[1..]| - 1 :: HeaderAt(front[1..], i) == HeaderAt(front, i + 1);
      DropsHeaderless(front[1..], s);
    }
  }

  /** What is emitted in place of `frame` behind the kept bytes: the frame itself, unless a header among those swallows its front. */
  function InPlaceOf(kept: seq<Byte>, frame: seq<Byte>): seq<Byte>
    requires |frame| == 11
    decreases |kept|
  {
    if |kept| < 2 || 11 <= |kept| then frame
    else if HeaderAt(kept, 0) then kept + frame[..11 - |kept|]
    else InPlaceOf(kept[1..], frame)
  }

  lemma {:induction false} FirstAfterKept(kept: seq<Byte>, frame: seq<Byte>, s: seq<Byte>)
    requires |kept| < 11 && CleanAttitudeFrame(frame) && |s| >= 11 && s[0] == 0x55
    ensures Scan(Window(Hwt101), kept + (frame + s)) == Emit([InPlaceOf(kept, frame)], Scan(Window(Hwt101), s))
    decreases |kept|
  {
    var all := kept + (frame + s);
    if |kept| == 0 {
      assert all == frame + s && all[..11] == frame && all[11..] == s;
      assert Next(Hwt101, all) == Take(11, frame);
    } else if |kept| >= 2 && HeaderAt(kept, 0) {
      var tail := frame[11 - |kept|..];
      assert all[..11] == InPlaceOf(kept, frame) && all[11..] == tail + s;
      assert Next(Hwt101, all) == Take(11, InPlaceOf(kept, frame));
      assert forall i | 0 <= i < |tail| - 1 :: HeaderAt(tail, i) == HeaderAt(frame[1..], 10 - |kept| + i);
      DropsHeaderless(tail, s);
    } else {
      assert all[1..] == kept[1..] + (frame + s);
      assert Next(Hwt101, all) == Drop(1);
      FirstAfterKept(kept[1..], frame, s);
    }
  }

  /**
    Whatever came before, one clean attitude frame brings the parser back into
    step: only that frame can be lost, and only to a header in the bytes kept;
    one item is emitted in its place.
   */
  lemma {:induction false} CleanFrameResynchronises(s: seq<Byte>, frame: seq<Byte>, frames: seq<seq<Byte>>)
    requires CleanAttitudeFrame(frame) && AttitudeFrames(frames) && |frames| > 0
    ensures var before := Scan(Window(Hwt101), s);
            && Scan(Window(Hwt101), s + (frame + Flatten(frames))) ==
               Scanned(before.items + ([InPlaceOf(before.residue, frame)] + frames), [])
            && (NoHeader(before.residue) ==> InPlaceOf(before.residue, frame) == frame)
  {
    var before := Scan(Window(Hwt101), s);
    AttitudeFramesAreScanned(frames);
    WindowIsSteadfast(Hwt101);
    ScanResumes(Window(Hwt101), s, frame + Flatten(frames));
    KeepsLessThanAFrame(Hwt101, s);
    FirstAfterKept(before.residue, frame, Flatten(frames));
    if NoHeader(before.residue) {
      NothingInItsPlace(before.residue, frame);
    }
  }

  lemma {:induction false} NothingInItsPlace(kept: seq<Byte>, frame: seq<Byte>)
    requires |frame| == 11 && NoHeader(kept)
    ensures InPlaceOf(kept, frame) == frame
    decreases |kept|
  {
    if 2 <= |kept| < 11 {
      assert !HeaderAt(kept, 0);
      assert forall i | 0 <= i < |kept[1..]| - 1 :: HeaderAt(kept[1..], i) == HeaderAt(kept, i + 1);
      NothingInItsPlace(kept[1..], frame);
    }
  }

  /** Without such a frame this fails: out of step once, the parser stays out of step with a steady sensor for ever. */
  lemma {:induction false} StaysOutOfStep(frame: seq<Byte>, k: nat, n: nat)
    requires |frame| == 11 && 1 <= k <= 9 && HeaderAt(frame, k)
    ensures Scan(Window(Hwt101), frame[k..] + Flatten(Copies(frame, n))) ==
            Scanned(Copies(frame[k..] + frame[..k], n), frame[k..])
    decreases n
  {
    var tail := frame[k..];
    if n == 0 {
      assert tail + Flatten(Copies(frame, n)) == tail;
    } else {
      var all := tail + Flatten(Copies(frame, n));
      MoreCopies(frame, n);
      MoreCopies(tail + frame[..k], n);
      assert all == tail + (frame + Flatten(Copies(frame, n - 1)));
      assert all[..11] == tail + frame[..k];
      assert all[11..] == tail + Flatten(Copies(frame, n - 1));
      assert Next(Hwt101, all) == Take(11, tail + frame[..k]);
      StaysOutOfStep(frame, k, n - 1);
    }
  }

  // --- Frame handlers ------------------------------------------------------

  // A digit position of the range frame: a blank counts as zero, anything else loses 0x30 modulo 256.
  function Digit(c: Byte): Byte {
    if c == 0x20 then 0 else (c as int - 0x30) % 0x100
  }

  function Millimetres(qian: Byte, bai: Byte, shi: Byte, ge: Byte): U16 {
    (qian as int * 1000 + bai as int * 100 + shi as int * 10 + ge as int) % 0x1_0000
  }

  function Int16(high: Byte, low: Byte): int {
    var raw := high as int * 0x100 + low as int;
    if raw < 0x8000 then raw else raw - 0x1_0000
  }

  // raw / 32768 * 180, the sensor's full scale, in degrees.
  function Degrees(raw: int): real {
    raw as real / 32768.0 * 180.0
  }

  datatype Readings = Readings(digits: seq<Byte>, distance: U16, roll: real, pitch: real, yaw: real, obsYaw: seq<Byte>)

  // The last offset below `n` at which the handler recognises a frame, or -1.
  function LastHit(f: Format, data: seq<Byte>, n: nat): (i: int)
    ensures -1 <= i < n
    ensures 0 <= i ==> f.Hit(data, i)
  {
    if n == 0 then -1 else if f.Hit(data, n - 1) then n - 1 else LastHit(f, data, n - 1)
  }

  function Digits(was: seq<Byte>, data: seq<Byte>, hit: int): seq<Byte>
    requires |was| == 4 && (0 <= hit ==> hit + 6 < |data|)
  {
    if hit < 0 then was
    else [Digit(data[hit + 2]), Digit(data[hit + 3]), Digit(data[hit + 4]), Digit(data[hit + 5])]
  }

  function Attitude(r: Readings, frame: seq<Byte>): Readings
    requires 8 <= |frame|
  {
    r.(roll := Degrees(Int16(frame[3], frame[2])),
    pitch := Degrees(Int16(frame[5], frame[4])),
    yaw := Degrees(Int16(frame[7], frame[6])),
    obsYaw := [frame[7], frame[6]])
  }

  function Handle(f: Format, r: Readings, data: seq<Byte>): (r': Readings)
    requires |r.digits| == 4
    ensures |r'.digits| == 4
  {
    var i := LastHit(f, data, if |data| == 0 then 0 else |data| - 1);
    match f
    case Vl53 =>
      var digits := Digits(r.digits, data, i);
      r.(digits := digits, distance := Millimetres(digits[0], digits[1], digits[2], digits[3]))
    case Hwt101 =>
      if i < 0 then r else Attitude(r, data[i..])
  }

  function HandleAll(f: Format, r: Readings, frames: seq<seq<Byte>>): (r': Readings)
    requires |r.digits| == 4
    ensures |r'.digits| == 4
    decreases |frames|
  {
    if frames == [] then r else HandleAll(f, Handle(f, r, frames[0]), frames[1..])
  }

  class Sensors {
    // Last digits of the range frame and the distance in millimetres computed from them.
    var qian: Byte
    var bai: Byte
    var shi: Byte
    var ge: Byte
    var Distance: U16
    var Roll: real
    var Pitch: real
    var Yaw: real
    // Bytes 2 and 3 of the obstacle telemetry packet.
    var obsYaw2: Byte
    var obsYaw3: Byte

    function Value(): Readings
      reads this
    {
      Readings([qian, bai, shi, ge], Distance, Roll, Pitch, Yaw, [obsYaw2, obsYaw3])
    }

    method VL53_DataProc(data: seq<Byte>)
      modifies this
      ensures Value() == Handle(Vl53, old(Value()), data)
    {
      var i := 0;
      while i + 1 < |data|
        invariant 0 <= i <= if |data| == 0 then 0 else |data| - 1
        invariant unchanged(`Distance, `Roll, `Pitch, `Yaw, `obsYaw2, `obsYaw3)
        invariant [qian, bai, shi, ge] == Digits(old([qian, bai, shi, ge]), data, LastHit(Vl53, data, i))
      {
        if i + 6 < |data| && data[i] == 0x65 && data[i + 1] == 0x3A && data[i + 6] == 0x6D {
          qian := Digit(data[i + 2]);
          bai := Digit(data[i + 3]);
          shi := Digit(data[i + 4]);
          ge := Digit(data[i + 5]);
        }
        i := i + 1;
      }
      Distance := Millimetres(qian, bai, shi, ge);
    }

    method HWT101_DataProc(data: seq<Byte>)
      modifies this
      ensures Value() == Handle(Hwt101, old(Value()), data)
    {
      var i := 0;
      while i + 1 < |data|
        invariant 0 <= i <= if |data| == 0 then 0 else |data| - 1
        invariant Value() == (var h := LastHit(Hwt101, data, i);
                              if h < 0 then old(Value()) else Attitude(old(Value()), data[h..]))
      {
        if i + 7 < |data| && data[i] == 0x55 && data[i + 1] == 0x53 {
          Roll := Degrees(Int16(data[i + 3], data[i + 2]));
          Pitch := Degrees(Int16(data[i + 5], data[i + 4]));
          Yaw := Degrees(Int16(data[i + 7], data[i + 6]));
          obsYaw3 := data[i + 6];
          obsYaw2 := data[i + 7];
        }
        i := i + 1;
      }
    }

    method DataProc(f: Format, frame: seq<Byte>)
      modifies this
      ensures Value() == Handle(f, old(Value()), frame)
    {
      match f {
        case Vl53 => VL53_DataProc(frame);
        case Hwt101 => HWT101_DataProc(frame);
      }
    }
  }

  // --- The receive threads -------------------------------------------------

  lemma {:induction false} HandleAllAppends(f: Format, r: Readings, frames: seq<seq<Byte>>, last: seq<Byte>)
    requires |r.digits| == 4
    ensures HandleAll(f, r, frames + [last]) == Handle(f, HandleAll(f, r, frames), last)
    decreases |frames|
  {
    if |frames| == 0 {
      assert frames + [last] == [last];
      assert [last][1..] == [];
    } else {
      assert (frames + [last])[1..] == frames[1..] + [last];
      HandleAllAppends(f, Handle(f, r, frames[0]), frames[1..], last);
    }
  }

  lemma WindowTurn(f: Format, all: seq<Byte>, i: nat, frames: seq<seq<Byte>>, whole: Scanned<seq<Byte>>)
    requires i + f.Length() <= |all|
    requires whole == Emit(frames, Scan(Window(f), all[i..]))
    ensures var end := i + f.Length();
            if f.Matches(all, i) then whole == Emit(frames + [all[i..end]], Scan(Window(f), all[end..][0..]))
            else whole == Emit(frames, Scan(Window(f), all[i + 1..]))
  {
    SameWindow(f, all, i, all[i..]);
    Turn(Window(f), all, i, frames);
    var rest := all[i + f.Length()..];
    assert rest[0..] == rest;
  }

  /** Hands the frame at `i` to the handler and removes everything up to its end. */
  method Deliver(f: Format, buf: RxBuffer, sensors: Sensors, i: nat, frames: seq<seq<Byte>>, ghost was: Readings)
    returns (frames': seq<seq<Byte>>)
    requires buf.Valid() && i + f.Length() <= buf.length && |was.digits| == 4
    requires sensors.Value() == HandleAll(f, was, frames)
    modifies buf`length, buf.data, sensors
    ensures buf.Valid()
    ensures frames' == frames + [old(buf.Contents())[i..i + f.Length()]]
    ensures buf.Contents() == old(buf.Contents())[i + f.Length()..]
    ensures sensors.Value() == HandleAll(f, was, frames')
  {
    var frame := buf.Take(i, f.Length());
    HandleAllAppends(f, was, frames, frame);
    sensors.DataProc(f, frame);
    frames' := frames + [frame];
  }

  // One turn of the parsing loop, at offset `i`.
  method ParseAt(f: Format, buf: RxBuffer, sensors: Sensors, i: nat, frames: seq<seq<Byte>>,
                 ghost whole: Scanned<seq<Byte>>, ghost was: Readings)
    returns (i': nat, frames': seq<seq<Byte>>)
    requires buf.Valid() && i + f.Length() <= buf.length && |was.digits| == 4
    requires whole == Emit(frames, Scan(Window(f), buf.Contents()[i..]))
    requires sensors.Value() == HandleAll(f, was, frames)
    modifies buf`length, buf.data, sensors
    ensures buf.Valid() && i' <= buf.length
    ensures buf.length - i' < old(buf.length) - i
    ensures whole == Emit(frames', Scan(Window(f), buf.Contents()[i'..]))
    ensures sensors.Value() == HandleAll(f, was, frames')
  {
    WindowTurn(f, buf.Contents(), i, frames, whole);
    if f.Matches(buf.Contents(), i) {
      frames' := Deliver(f, buf, sensors, i, frames, was);
      i' := 0;
    } else {
      i', frames' := i + 1, frames;
    }
  }

  /** Parses the buffer in place, handing each frame to the sensor's handler; `frames` records the calls. */
  method TryParse(f: Format, buf: RxBuffer, sensors: Sensors) returns (frames: seq<seq<Byte>>)
    requires buf.Valid()
    modifies buf`length, buf.data, sensors
    ensures buf.Valid()
    ensures Scanned(frames, buf.Contents()) == Scan(Window(f), old(buf.Contents()))
    ensures sensors.Value() == HandleAll(f, old(sensors.Value()), frames)
  {
    ghost var whole, was := Scan(Window(f), buf.Contents()), sensors.Value();
    var i: nat := 0;
    frames := [];
    EmitAppends([], [], whole);
    assert buf.Contents()[0..] == buf.Contents();
    while i + f.Length() <= buf.length
      invariant buf.Valid() && i <= buf.length
      invariant whole == Emit(frames, Scan(Window(f), buf.Contents()[i..]))
      invariant sensors.Value() == HandleAll(f, was, frames)
      decreases buf.length - i
    {
      i, frames := ParseAt(f, buf, sensors, i, frames, whole, was);
    }
    ghost var rest := buf.Contents()[i..];
    if i > 0 {
      buf.ShiftLeft(i);
    }
    assert buf.Contents() == rest;
    assert frames + [] == frames;
  }

  /**
    The receive thread over any sequence of device reads. While a read leaves
    room for the longest partial frame, nothing is ever discarded, and frames,
    kept bytes and readings are those of the whole stream.
   */
  method RxEntry(f: Format, buf: RxBuffer, sensors: Sensors, chunks: seq<seq<Byte>>) returns (frames: seq<seq<Byte>>)
    requires buf.Valid() && buf.length < f.Length()
    requires forall c | c in chunks :: |c| <= CAPACITY - (f.Length() - 1)
    modifies buf`length, buf.data, sensors
    ensures buf.Valid() && buf.length < f.Length()
    ensures Scanned(frames, buf.Contents()) == Scan(Window(f), old(buf.Contents()) + Flatten(chunks))
    ensures sensors.Value() == HandleAll(f, old(sensors.Value()), frames)
  {
    ghost var whole, was := Reads(Window(f), buf.Contents(), chunks), sensors.Value();
    ShortReads(f, buf.Contents(), chunks);
    StartReading(Window(f), buf.Contents(), chunks);
    frames := [];
    var rest := chunks;
    while |rest| > 0
      invariant buf.Valid() && buf.length < f.Length()
      invariant forall c | c in rest :: |c| <= CAPACITY - (f.Length() - 1)
      invariant Reading(Window(f), whole, frames, buf.Contents(), rest)
      invariant sensors.Value() == HandleAll(f, was, frames)
    {
      frames := ReadOne(f, buf, sensors, rest, frames, whole, was);
      rest := rest[1..];
    }
    ReadingEnds(Window(f), whole, frames, buf.Contents(), rest);
  }

  // One read of the receive thread.
  method ReadOne(f: Format, buf: RxBuffer, sensors: Sensors, chunks: seq<seq<Byte>>, frames: seq<seq<Byte>>,
                 ghost whole: Scanned<seq<Byte>>, ghost was: Readings)
    returns (frames': seq<seq<Byte>>)
    requires buf.Valid() && |chunks| > 0 && |chunks[0]| <= CAPACITY && |was.digits| == 4
    requires Reading(Window(f), whole, frames, buf.Contents(), chunks)
    requires sensors.Value() == HandleAll(f, was, frames)
    modifies buf`length, buf.data, sensors
    ensures buf.Valid() && buf.length < f.Length()
    ensures Reading(Window(f), whole, frames', buf.Contents(), chunks[1..])
    ensures sensors.Value() == HandleAll(f, was, frames')
  {
    ghost var kept := buf.Contents();
    KeepsLessThanAFrame(f, Joined(kept, chunks[0]));
    buf.Receive(chunks[0]);
    var got := TryParse(f, buf, sensors);
    frames' := frames + got;
    HandleAllConcat(f, was, frames, got);
    ReadingTurn(Window(f), whole, frames, kept, chunks, Scanned(got, buf.Contents()));
  }

  /** Reads that leave room for a partial frame are one scan of the whole stream. */
  lemma {:induction false} ShortReads(f: Format, kept: seq<Byte>, chunks: seq<seq<Byte>>)
    requires |kept| < f.Length()
    requires forall c | c in chunks :: |c| <= CAPACITY - (f.Length() - 1)
    ensures Reads(Window(f), kept, chunks) == Scan(Window(f), kept + Flatten(chunks))
    decreases |chunks|
  {
    if |chunks| == 0 {
      assert kept + Flatten(chunks) == kept;
    } else {
      FlattenSplit(kept, chunks);
      var s := kept + chunks[0];
      ScanStopsWaiting(Window(f), s);
      KeepsLessThanAFrame(f, s);
      WindowIsSteadfast(f);
      ScanResumes(Window(f), s, Flatten(chunks[1..]));
      ShortReads(f, Scan(Window(f), s).residue, chunks[1..]);
    }
  }

  lemma {:induction false} HandleAllConcat(f: Format, r: Readings, a: seq<seq<Byte>>, b: seq<seq<Byte>>)
    requires |r.digits| == 4
    ensures HandleAll(f, r, a + b) == HandleAll(f, HandleAll(f, r, a), b)
    decreases |a|
  {
    if |a| == 0 {
      assert a + b == b;
    } else {
      assert (a + b)[1..] == a[1..] + b;
      HandleAllConcat(f, Handle(f, r, a[0]), a[1..], b);
    }
  }

  // --- What the readings mean ----------------------------------------------

  // A character that may stand for decimal digit `d`: the digit itself, or a blank for zero.
  predicate Shows(c: Byte, d: nat) {
    d < 10 && (c == 0x30 + d || (c == 0x20 && d == 0))
  }

  lemma ShownDigit(c: Byte, d: nat)
    requires Shows(c, d)
    ensures Digit(c) == d
  {
  }

  lemma NoOverflow(qian: Byte, bai: Byte, shi: Byte, ge: Byte)
    requires qian < 10 && bai < 10 && shi < 10 && ge < 10
    ensures Millimetres(qian, bai, shi, ge) == 1000 * qian as int + 100 * bai as int + 10 * shi as int + ge as int
  {
  }

  /** A range frame showing a four-digit number, zeros blanked or not, sets the distance to that number. */
  lemma DistanceRoundTrip(frame: seq<Byte>, qian: nat, bai: nat, shi: nat, ge: nat, r: Readings)
    requires |r.digits| == 4 && |frame| == 7 && Vl53.Matches(frame, 0)
    requires Shows(frame[2], qian) && Shows(frame[3], bai) && Shows(frame[4], shi) && Shows(frame[5], ge)
    ensures Handle(Vl53, r, frame).distance == 1000 * qian + 100 * bai + 10 * shi + ge
  {
    OnlyFrontHit(Vl53, frame, 6);
    ShownDigit(frame[2], qian);
    ShownDigit(frame[3], bai);
    ShownDigit(frame[4], shi);
    ShownDigit(frame[5], ge);
    NoOverflow(qian, bai, shi, ge);
  }

  // What the handler takes for a digit: zero for a blank, and of any other byte what it exceeds 0x30 by, modulo 256.
  predicate Taken(c: Byte, d: Byte) {
    if c == 0x20 then d == 0 else (d as int + 0x30 - c as int) % 0x100 == 0
  }

  /** Of any other range frame the distance is made of these in the same way, modulo 65536. */
  lemma {:induction false} DistanceOfAnyBytes(frame: seq<Byte>, qian: Byte, bai: Byte, shi: Byte, ge: Byte, r: Readings)
    requires |r.digits| == 4 && |frame| == 7 && Vl53.Matches(frame, 0)
    requires Taken(frame[2], qian) && Taken(frame[3], bai) && Taken(frame[4], shi) && Taken(frame[5], ge)
    ensures Handle(Vl53, r, frame).distance ==
            (1000 * qian as int + 100 * bai as int + 10 * shi as int + ge as int) % 0x1_0000
  {
    OnlyFrontHit(Vl53, frame, 6);
    DigitTaken(frame[2], qian);
    DigitTaken(frame[3], bai);
    DigitTaken(frame[4], shi);
    DigitTaken(frame[5], ge);
  }

  lemma DigitTaken(c: Byte, d: Byte)
    requires Taken(c, d)
    ensures Digit(c) == d
  {
  }

  /** A handler looks past offset 0 of its frame only when the header bytes recur there. */
  lemma {:induction false} OnlyFrontHit(f: Format, frame: seq<Byte>, n: nat)
    requires f.Hit(frame, 0) && 0 < n
    requires forall i | 0 < i < n :: !f.Hit(frame, i)
    ensures LastHit(f, frame, n) == 0
  {
    if n > 1 {
      OnlyFrontHit(f, frame, n - 1);
    }
  }

  // Where the handler reads the angles; the two offsets exclude each other.
  function Heard(frame: seq<Byte>): (h: nat)
    requires |frame| == 11
    ensures h <= 3
  {
    if HeaderAt(frame, 3) then 3 else if HeaderAt(frame, 2) then 2 else 0
  }

  lemma HeardIsLastHit(frame: seq<Byte>)
    requires |frame| == 11 && Hwt101.Matches(frame, 0)
    ensures LastHit(Hwt101, frame, 10) == Heard(frame)
  {
    var h := Heard(frame);
    LaterHit(Hwt101, frame, h, 10);
    var last := LastHit(Hwt101, frame, 10);
    assert Hwt101.Hit(frame, last);
  }

  /**
    The readings an attitude frame gives are its own if and only if its header
    does not recur with other angles behind it.
   */
  lemma {:induction false} AttitudeOfFrame(r: Readings, frame: seq<Byte>)
    requires |r.digits| == 4 && |frame| == 11 && Hwt101.Matches(frame, 0)
    ensures var h := Heard(frame);
            Handle(Hwt101, r, frame) == Attitude(r, frame) <==> frame[h + 2..h + 8] == frame[2..8]
  {
    HeardIsLastHit(frame);
    var h := Heard(frame);
    var there := frame[h..];
    assert Handle(Hwt101, r, frame) == Attitude(r, there);
    AnglesAreBytes(there[3], there[2], frame[3], frame[2]);
    AnglesAreBytes(there[5], there[4], frame[5], frame[4]);
    AnglesAreBytes(there[7], there[6], frame[7], frame[6]);
    SameBytes(frame, h);
  }

  /** A frame whose angles are misread: the yaw bytes are 2 and 1, and 4 and 3 are read. */
  lemma MisreadFrame(r: Readings)
    requires |r.digits| == 4
    ensures var frame: seq<Byte> := [0x55, 0x53, 0x55, 0x53, 0, 0, 1, 2, 3, 4, 5];
            && Hwt101.Matches(frame, 0)
            && Attitude(r, frame).yaw == Degrees(0x201) && Handle(Hwt101, r, frame).yaw == Degrees(0x403)
            && Handle(Hwt101, r, frame) != Attitude(r, frame)
  {
    var frame: seq<Byte> := [0x55, 0x53, 0x55, 0x53, 0, 0, 1, 2, 3, 4, 5];
    HeardIsLastHit(frame);
  }

  lemma SameBytes(frame: seq<Byte>, h: nat)
    requires |frame| == 11 && h <= 3
    ensures frame[h + 2..h + 8] == frame[2..8] <==>
            && frame[h + 2] == frame[2] && frame[h + 3] == frame[3] && frame[h + 4] == frame[4]
            && frame[h + 5] == frame[5] && frame[h + 6] == frame[6] && frame[h + 7] == frame[7]
  {
    var there, here := frame[h + 2..h + 8], frame[2..8];
    assert there == here <==>
           && there[0] == here[0] && there[1] == here[1] && there[2] == here[2]
           && there[3] == here[3] && there[4] == here[4] && there[5] == here[5];
  }

  lemma AnglesAreBytes(high: Byte, low: Byte, otherHigh: Byte, otherLow: Byte)
    ensures Degrees(Int16(high, low)) == Degrees(Int16(otherHigh, otherLow)) <==> high == otherHigh && low == otherLow
  {
  }

  lemma {:induction false} LaterHit(f: Format, frame: seq<Byte>, i: nat, n: nat)
    requires f.Hit(frame, i) && i < n
    ensures LastHit(f, frame, n) >= i
  {
    if n > i + 1 {
      LaterHit(f, frame, i, n - 1);
    }
  }

  lemma HitInFrame(f: Format, frame: seq<Byte>)
    requires |frame| == f.Length() && f.Matches(frame, 0)
    ensures LastHit(f, frame, |frame| - 1) >= 0
  {
    LaterHit(f, frame, 0, f.Length() - 1);
  }

  lemma DistanceOfHit(r: Readings, data: seq<Byte>)
    requires |r.digits| == 4 && |data| > 0 && LastHit(Vl53, data, |data| - 1) >= 0
    ensures var h := LastHit(Vl53, data, |data| - 1);
            Handle(Vl53, r, data).distance
            == Millimetres(Digit(data[h + 2]), Digit(data[h + 3]), Digit(data[h + 4]), Digit(data[h + 5]))
  {
  }

  /** A range frame alone decides the distance, whatever came before. */
  lemma {:induction false} LastRangeDecides(r: Readings, other: Readings, frames: seq<seq<Byte>>, last: seq<Byte>)
    requires |r.digits| == 4 && |other.digits| == 4
    requires |last| == 7 && Vl53.Matches(last, 0)
    ensures HandleAll(Vl53, r, frames + [last]).distance == Handle(Vl53, other, last).distance
  {
    HitInFrame(Vl53, last);
    HandleAllAppends(Vl53, r, frames, last);
    DistanceOfHit(HandleAll(Vl53, r, frames), last);
    DistanceOfHit(other, last);
  }

  /** An attitude frame alone decides the angles, whatever came before. */
  lemma {:induction false} LastAttitudeDecides(r: Readings, other: Readings, frames: seq<seq<Byte>>, last: seq<Byte>)
    requires |r.digits| == 4 && |other.digits| == 4
    requires |last| == 11 && Hwt101.Matches(last, 0)
    ensures var now, alone := HandleAll(Hwt101, r, frames + [last]), Handle(Hwt101, other, last);
            now.roll == alone.roll && now.pitch == alone.pitch && now.yaw == alone.yaw && now.obsYaw == alone.obsYaw
  {
    HandleAllAppends(Hwt101, r, frames, last);
    HitInFrame(Hwt101, last);
  }

  /** The sensor's yaw lies in [-180, 180). */
  lemma YawRange(high: Byte, low: Byte)
    ensures -180.0 <= Degrees(Int16(high, low)) < 180.0
  {
  }

  /** `x` is the angle in [-180, 180) that the two bytes mean, of which 65536 are a whole turn. */
  predicate IsAngle(x: real, high: Byte, low: Byte) {
    && -180.0 <= x < 180.0
    && (32768.0 * x == 180.0 * (high as int * 256 + low as int) as real ||
        32768.0 * (x + 360.0) == 180.0 * (high as int * 256 + low as int) as real)
  }

  lemma DegreesAreAngles(high: Byte, low: Byte)
    ensures IsAngle(Degrees(Int16(high, low)), high, low)
  {
  }

  /** What a frame says, byte by byte, from the header that is heard: low byte first of each angle, and the yaw bytes in the order of the obstacle packet. */
  lemma {:induction false} AnglesOfFrame(r: Readings, frame: seq<Byte>)
    requires |r.digits| == 4 && |frame| == 11 && Hwt101.Matches(frame, 0)
    ensures var now, h := Handle(Hwt101, r, frame), Heard(frame);
            && IsAngle(now.roll, frame[h + 3], frame[h + 2])
            && IsAngle(now.pitch, frame[h + 5], frame[h + 4])
            && IsAngle(now.yaw, frame[h + 7], frame[h + 6])
            && now.obsYaw == [frame[h + 7], frame[h + 6]]
  {
    HeardIsLastHit(frame);
    var there := frame[Heard(frame)..];
    DegreesAreAngles(there[3], there[2]);
    DegreesAreAngles(there[5], there[4]);
    DegreesAreAngles(there[7], there[6]);
  }

  /** The two bytes kept for the obstacle packet are the yaw reported. */
  predicate YawIsTold(r: Readings) {
    |r.obsYaw| == 2 && IsAngle(r.yaw, r.obsYaw[0], r.obsYaw[1])
  }

  lemma {:induction false} HandleTellsYaw(f: Format, r: Readings, data: seq<Byte>)
    requires |r.digits| == 4 && YawIsTold(r)
    ensures YawIsTold(Handle(f, r, data))
  {
    var i := LastHit(f, data, if |data| == 0 then 0 else |data| - 1);
    if f == Hwt101 && i >= 0 {
      DegreesAreAngles(data[i..][7], data[i..][6]);
    }
  }

  /** So they are at all times: after any frames of either sensor, whatever the bytes. */
  lemma {:induction false} YawStaysTold(f: Format, r: Readings, frames: seq<seq<Byte>>)
    requires |r.digits| == 4 && YawIsTold(r)
    ensures YawIsTold(HandleAll(f, r, frames))
    decreases |frames|
  {
    if |frames| > 0 {
      HandleTellsYaw(f, r, frames[0]);
      YawStaysTold(f, Handle(f, r, frames[0]), frames[1..]);
    }
  }
}
