/**
  The mode commands from the controller to the camera: the 12-byte bursts of
  usart4.c and the buffer parser of green.py, which never keeps more than its
  last 64 bytes.
 */
module ModeLink {
  import opened Streams
  import opened Options

  const RX_BUFFER_MAX := 64

  // --- The parser's moves --------------------------------------------------

  predicate HeaderAt(s: seq<Byte>, i: nat) {
    i + 1 < |s| && s[i] == 0xA4 && s[i + 1] == 0xB4
  }

  // The first offset from `from` on that holds the tail byte, or -1.
  function FindTail(s: seq<Byte>, from: nat): (i: int)
    ensures i < 0 || (from <= i < |s| && s[i] == 0xC4)
    ensures forall j | from <= j < (if i < 0 then |s| else i) :: s[j] != 0xC4
    decreases |s| - from
  {
    if from >= |s| then -1 else if s[from] == 0xC4 then from else FindTail(s, from + 1)
  }

  // The first offset from `from` on that holds the header, or -1.
  function FindHeader(s: seq<Byte>, from: nat): (i: int)
    ensures i < 0 || (from <= i && HeaderAt(s, i))
    ensures forall j | from <= j < (if i < 0 then |s| else i) :: !HeaderAt(s, j)
    decreases |s| - from
  {
    if from >= |s| then -1 else if HeaderAt(s, from) then from else FindHeader(s, from + 1)
  }

  function Next(s: seq<Byte>): Move<seq<Byte>> {
    if |s| <= 1 then Wait
    else if !HeaderAt(s, 0) then Drop(1)
    else
      var end := FindTail(s, 2);
      if end < 0 then Wait else Take(end + 1, s[..end + 1])
  }

  function Front(): (next: Parser<seq<Byte>>)
    ensures Proper(next)
  {
    s => Next(s)
  }

  lemma {:induction false} FirstTail(s: seq<Byte>, from: nat, i: nat)
    requires from <= i < |s| && s[i] == 0xC4
    requires forall j | from <= j < i :: s[j] != 0xC4
    ensures FindTail(s, from) == i
    decreases i - from
  {
    if from < i {
      FirstTail(s, from + 1, i);
    }
  }

  lemma FrontIsSteadfast()
    ensures Steadfast(Front())
  {
    forall s, t | !Next(s).Wait? ensures Next(s + t) == Next(s) {
      if Next(s).Take? {
        var end := FindTail(s, 2);
        FirstTail(s + t, 2, end);
        assert (s + t)[..end + 1] == s[..end + 1];
      }
    }
  }

  // The modes a packet's payload stands for: one byte, 1 or 2.
  function Accept(packet: seq<Byte>): seq<Byte> {
    if |packet| == 4 && (packet[2] == 1 || packet[2] == 2) then [packet[2]] else []
  }

  function AcceptAll(packets: seq<seq<Byte>>): seq<Byte> {
    if |packets| == 0 then [] else AcceptAll(packets[..|packets| - 1]) + Accept(packets[|packets| - 1])
  }

  function Last(s: seq<Byte>): seq<Byte> {
    if |s| > RX_BUFFER_MAX then s[|s| - RX_BUFFER_MAX..] else s
  }

  // --- The receiver --------------------------------------------------------

  lemma {:induction false} DropToHeader(s: seq<Byte>, start: nat)
    requires start <= |s|
    requires forall j | 0 <= j < start :: !HeaderAt(s, j)
    requires start < |s| || |s| == 0
    ensures Scan(Front(), s) == Scan(Front(), s[start..])
    decreases start
  {
    if start > 0 {
      assert Next(s) == Drop(1);
      assert forall j | 0 <= j < start - 1 :: HeaderAt(s[1..], j) == HeaderAt(s, j + 1);
      DropToHeader(s[1..], start - 1);
      assert s[1..][start - 1..] == s[start..];
    } else {
      assert s[0..] == s;
    }
  }

  class ModeReceiver {
    var buffer: seq<Byte>
    var queue: seq<Byte>

    constructor ()
      ensures buffer == [] && queue == []
    {
      buffer, queue := [], [];
    }

    /** Takes packets off the buffer until none is complete; `packets` records them. */
    method ParseModeBuffer() returns (packets: seq<seq<Byte>>)
      modifies this
      ensures Scanned(packets, buffer) == Scan(Front(), old(buffer))
      ensures queue == old(queue) + AcceptAll(packets)
    {
      ghost var whole, was := Scan(Front(), buffer), queue;
      packets := [];
      EmitAppends([], [], whole);
      var waiting := false;
      while !waiting
        invariant whole == Emit(packets, Scan(Front(), buffer))
        invariant waiting ==> Next(buffer).Wait?
        invariant queue == was + AcceptAll(packets)
        decreases !waiting, |buffer|
      {
        packets, waiting := ParseOnce(packets, whole, was);
      }
      assert packets + [] == packets;
    }

    // Cuts the buffer down to the first header, or to its last byte if there is none.
    method SeekHeader() returns (found: bool)
      modifies this`buffer
      ensures Scan(Front(), buffer) == Scan(Front(), old(buffer))
      ensures |buffer| <= |old(buffer)|
      ensures if found then HeaderAt(buffer, 0) else |buffer| <= 1
    {
      var start := FindHeader(buffer, 0);
      found := start >= 0;
      if start < 0 {
        if |buffer| > 1 {
          DropToHeader(buffer, |buffer| - 1);
          buffer := buffer[|buffer| - 1..];
        }
      } else if start > 0 {
        DropToHeader(buffer, start);
        buffer := buffer[start..];
      }
    }

    // Removes the packet that ends at `end` and queues its mode.
    method TakePacket(end: nat, packets: seq<seq<Byte>>, ghost was: seq<Byte>) returns (packets': seq<seq<Byte>>)
      requires 2 <= end < |buffer| && queue == was + AcceptAll(packets)
      modifies this
      ensures buffer == old(buffer)[end + 1..]
      ensures packets' == packets + [old(buffer)[..end + 1]]
      ensures queue == was + AcceptAll(packets')
    {
      var packet := buffer[..end + 1];
      AcceptOneMore(was, packets, packet);
      buffer := buffer[end + 1..];
      var payload := packet[2..|packet| - 1];
      if |payload| == 1 && (payload[0] == 1 || payload[0] == 2) {
        queue := queue + [payload[0]];
      }
      packets' := packets + [packet];
    }

    // One turn of the loop.
    method ParseOnce(packets: seq<seq<Byte>>, ghost whole: Scanned<seq<Byte>>, ghost was: seq<Byte>)
      returns (packets': seq<seq<Byte>>, waiting: bool)
      requires whole == Emit(packets, Scan(Front(), buffer))
      requires queue == was + AcceptAll(packets)
      modifies this
      ensures whole == Emit(packets', Scan(Front(), buffer))
      ensures if waiting then Next(buffer).Wait? else |buffer| < |old(buffer)|
      ensures queue == was + AcceptAll(packets')
    {
      packets', waiting := packets, true;
      var found := SeekHeader();
      if found {
        var end := FindTail(buffer, 2);
        if end >= 0 {
          EmitAppends(packets, [buffer[..end + 1]], Scan(Front(), buffer[end + 1..]));
          packets' := TakePacket(end, packets, was);
          waiting := false;
        }
      }
    }

    // Reads `data`, keeps the last 64 bytes and parses them.
    method ReadAndParse(data: seq<Byte>) returns (packets: seq<seq<Byte>>)
      modifies this
      ensures Scanned(packets, buffer) == Scan(Front(), Last(old(buffer) + data))
      ensures queue == old(queue) + AcceptAll(packets)
    {
      var all := buffer + data;
      buffer := all;
      if |buffer| > RX_BUFFER_MAX {
        buffer := buffer[|buffer| - RX_BUFFER_MAX..];
      }
      assert buffer == Last(all);
      packets := ParseModeBuffer();
    }

    /**
      One poll. A queued mode is handed out without reading; otherwise `data`,
      whatever the port holds, is read and parsed, and the first mode found is
      handed out.
     */
    method RecvModePacket(data: seq<Byte>) returns (mode: Option<Byte>, read: bool, packets: seq<seq<Byte>>)
      modifies this
      ensures read <==> |old(queue)| == 0
      ensures !read ==> packets == [] && buffer == old(buffer)
      ensures read ==> Scanned(packets, buffer) == Scan(Front(), Last(old(buffer) + data))
      ensures var pending := old(queue) + AcceptAll(packets);
              if |pending| == 0 then mode == None && queue == []
              else mode == Some(pending[0]) && queue == pending[1..]
    {
      mode, read, packets := None, |queue| == 0, [];
      if read {
        packets := ReadAndParse(data);
      }
      assert queue == old(queue) + AcceptAll(packets);
      if |queue| > 0 {
        mode := Some(queue[0]);
        queue := queue[1..];
      }
    }
  }

  lemma AcceptOneMore(was: seq<Byte>, packets: seq<seq<Byte>>, packet: seq<Byte>)
    ensures was + AcceptAll(packets + [packet]) == (was + AcceptAll(packets)) + Accept(packet)
  {
    assert (packets + [packet])[..|packets|] == packets;
    assert was + (AcceptAll(packets) + Accept(packet)) == (was + AcceptAll(packets)) + Accept(packet);
  }

  // --- Chunks --------------------------------------------------------------

  /** What a sequence of reads makes of the stream when the buffer is cut to its last 64 bytes before each parse. */
  function Polls(kept: seq<Byte>, chunks: seq<seq<Byte>>): Scanned<seq<Byte>>
    decreases |chunks|
  {
    if |chunks| == 0 then Scanned([], kept)
    else
      var first := Scan(Front(), Last(kept + chunks[0]));
      Emit(first.items, Polls(first.residue, chunks[1..]))
  }

  /** Below the cap nothing is lost and the cuts between reads do not matter. */
  lemma {:induction false} ShortStreamsInAnyChunks(kept: seq<Byte>, chunks: seq<seq<Byte>>)
    requires Next(kept).Wait?
    requires |kept| + |Flatten(chunks)| <= RX_BUFFER_MAX
    ensures Polls(kept, chunks) == Scan(Front(), kept + Flatten(chunks))
    decreases |chunks|
  {
    if |chunks| == 0 {
      assert kept + Flatten(chunks) == kept;
    } else {
      FlattenSplit(kept, chunks);
      var s := kept + chunks[0];
      ScanStopsWaiting(Front(), s);
      FrontIsSteadfast();
      ScanResumes(Front(), s, Flatten(chunks[1..]));
      ShortStreamsInAnyChunks(Scan(Front(), s).residue, chunks[1..]);
    }
  }

  /** What the buffer can hold between polls. */
  predicate Resting(kept: seq<Byte>) {
    Next(kept).Wait? && |kept| <= RX_BUFFER_MAX
  }

  lemma PollsRest(kept: seq<Byte>, data: seq<Byte>)
    ensures Resting(Scan(Front(), Last(kept + data)).residue)
  {
    ScanStopsWaiting(Front(), Last(kept + data));
  }

  lemma {:induction false} TakenIsPacket(s: seq<Byte>)
    requires Next(s).Take?
    ensures var p := Next(s).item; |p| >= 3 && p[0] == 0xA4 && p[1] == 0xB4 && p[|p| - 1] == 0xC4
  {
  }

  lemma OnlyFrames(p: seq<Byte>)
    requires |p| >= 3 && p[0] == 0xA4 && p[1] == 0xB4 && p[|p| - 1] == 0xC4
    ensures Accept(p) == if p == [0xA4, 0xB4, 1, 0xC4] then [1] else if p == [0xA4, 0xB4, 2, 0xC4] then [2] else []
  {
  }

  /** Of all packets in any stream exactly the two mode frames are accepted, as the modes 1 and 2. */
  lemma {:induction false} OnlyModesAreAccepted(s: seq<Byte>)
    ensures forall p | p in Scan(Front(), s).items ::
              Accept(p) == if p == [0xA4, 0xB4, 1, 0xC4] then [1] else if p == [0xA4, 0xB4, 2, 0xC4] then [2] else []
    decreases |s|
  {
    if !Next(s).Wait? {
      OnlyModesAreAccepted(s[Next(s).count..]);
      if Next(s).Take? {
        var rest := Scan(Front(), s[Next(s).count..]);
        TakenIsPacket(s);
        OnlyFrames(Next(s).item);
        assert forall p | p in [Next(s).item] + rest.items :: p == Next(s).item || p in rest.items;
      }
    }
  }

  // --- Bursts --------------------------------------------------------------

  function Frame(mode: Byte): seq<Byte> {
    [0xA4, 0xB4, mode, 0xC4]
  }

  /** The controller repeats a mode frame three times (the table MaixCam_Mode). */
  function Burst(mode: Byte): seq<Byte> {
    Frame(mode) + Frame(mode) + Frame(mode)
  }

  // Bytes in front of a burst that cannot complete a packet of their own.
  predicate Clean(x: seq<Byte>) {
    |x| <= 1 || forall i | 0 <= i < |x| :: x[i] != 0xC4
  }

  lemma CleanRest(x: seq<Byte>, y: seq<Byte>)
    requires |x| > 0 && Clean(x)
    ensures Clean(x[1..]) && (x + y)[1..] == x[1..] + y
  {
    if |x| > 2 {
      forall i | 0 <= i < |x[1..]| ensures x[1..][i] != 0xC4 {
        assert x[1..][i] == x[i + 1];
      }
    }
  }

  lemma {:induction false} NoTail(s: seq<Byte>, from: nat)
    requires forall j | from <= j < |s| :: s[j] != 0xC4
    ensures FindTail(s, from) < 0
    decreases |s| - from
  {
    if from < |s| {
      NoTail(s, from + 1);
    }
  }

  lemma ScanFrame(mode: Byte, rest: seq<Byte>)
    requires mode != 0xC4
    ensures Scan(Front(), Frame(mode) + rest) == Emit([Frame(mode)], Scan(Front(), rest))
  {
    var s := Frame(mode) + rest;
    FirstTail(s, 2, 3);
    assert s[..4] == Frame(mode) && s[4..] == rest;
  }

  // A packet was open in `x`: the frame's tail closes it, and the frame is lost with it.
  lemma OpenPacketSwallows(x: seq<Byte>, mode: Byte, rest: seq<Byte>)
    requires Clean(x) && HeaderAt(x, 0) && (mode == 1 || mode == 2)
    ensures var s := x + (Frame(mode) + rest);
            Next(s) == Take(|x| + 4, x + Frame(mode)) && s[|x| + 4..] == rest
  {
    var s := x + (Frame(mode) + rest);
    var end := |x| + 3;
    forall j | 2 <= j < end ensures s[j] != 0xC4 {
      if j < |x| {
        assert s[j] == x[j];
      } else {
        assert s[j] == Frame(mode)[j - |x|];
      }
    }
    FirstTail(s, 2, end);
    assert s[..end + 1] == x + Frame(mode);
  }

  lemma ScanOpenPacket(x: seq<Byte>, mode: Byte, rest: seq<Byte>)
    requires Clean(x) && HeaderAt(x, 0) && (mode == 1 || mode == 2)
    ensures Scan(Front(), x + (Frame(mode) + rest)) == Emit([x + Frame(mode)], Scan(Front(), rest))
  {
    OpenPacketSwallows(x, mode, rest);
  }

  // A byte that starts no header is dropped when a frame's first byte follows.
  lemma ScanDropsByte(x: seq<Byte>, f: seq<Byte>)
    requires |x| > 0 && Clean(x) && |x + f| > 1 && !HeaderAt(x + f, 0)
    ensures Scan(Front(), x + f) == Scan(Front(), x[1..] + f)
  {
    CleanRest(x, f);
  }

  lemma NoNewHeader(x: seq<Byte>, f: seq<Byte>)
    requires |x| > 0 && (|f| > 0 ==> f[0] == 0xA4)
    ensures HeaderAt(x + f, 0) == HeaderAt(x, 0)
  {
  }

  /** The first frame of a burst closes whatever was open before it. */
  lemma {:induction false} FirstFrameCloses(x: seq<Byte>, mode: Byte, rest: seq<Byte>) returns (packet: seq<Byte>)
    requires Clean(x) && (mode == 1 || mode == 2)
    ensures Scan(Front(), x + (Frame(mode) + rest)) == Emit([packet], Scan(Front(), rest))
    ensures Accept(packet) == [] || Accept(packet) == [mode]
    decreases |x|
  {
    if |x| == 0 {
      assert x + (Frame(mode) + rest) == Frame(mode) + rest;
      ScanFrame(mode, rest);
      packet := Frame(mode);
    } else if HeaderAt(x, 0) {
      ScanOpenPacket(x, mode, rest);
      packet := x + Frame(mode);
    } else {
      NoNewHeader(x, Frame(mode) + rest);
      ScanDropsByte(x, Frame(mode) + rest);
      CleanRest(x, []);
      packet := FirstFrameCloses(x[1..], mode, rest);
    }
  }

  lemma ScanTwoFrames(mode: Byte)
    requires mode != 0xC4
    ensures Scan(Front(), Frame(mode) + Frame(mode)) == Scanned([Frame(mode), Frame(mode)], [])
  {
    var f := Frame(mode);
    ScanFrame(mode, f);
    assert f + [] == f;
    ScanFrame(mode, []);
    assert [f] + ([f] + []) == [f, f];
  }

  lemma BurstIsThreeFrames(x: seq<Byte>, mode: Byte)
    ensures x + Burst(mode) == x + (Frame(mode) + (Frame(mode) + Frame(mode)))
  {
  }

  lemma EmitThree(packet: seq<Byte>, f: seq<Byte>)
    ensures Emit([packet], Scanned([f, f], [])) == Scanned([packet, f, f], [])
  {
  }

  lemma ScanBurstPackets(x: seq<Byte>, mode: Byte) returns (packet: seq<Byte>)
    requires Clean(x) && (mode == 1 || mode == 2)
    ensures Scan(Front(), x + Burst(mode)) == Scanned([packet, Frame(mode), Frame(mode)], [])
    ensures Accept(packet) == [] || Accept(packet) == [mode]
  {
    BurstIsThreeFrames(x, mode);
    packet := FirstFrameCloses(x, mode, Frame(mode) + Frame(mode));
    ScanTwoFrames(mode);
    EmitThree(packet, Frame(mode));
  }

  /** A whole burst behind clean bytes: the mode is accepted twice, or three times if nothing was open, and nothing is left. */
  lemma ScanBurst(x: seq<Byte>, mode: Byte)
    requires Clean(x) && (mode == 1 || mode == 2)
    ensures Scan(Front(), x + Burst(mode)).residue == []
    ensures var modes := AcceptAll(Scan(Front(), x + Burst(mode)).items);
            modes == [mode, mode] || modes == [mode, mode, mode]
  {
    var packet := ScanBurstPackets(x, mode);
    AcceptThree(packet, Frame(mode));
  }

  lemma AcceptThree(a: seq<Byte>, f: seq<Byte>)
    ensures AcceptAll([a, f, f]) == Accept(a) + Accept(f) + Accept(f)
  {
    assert [a, f, f][..2] == [a, f] && [a, f][..1] == [a];
    assert [a][..0] == [];
    assert AcceptAll([a]) == AcceptAll([a][..0]) + Accept(a);
  }

  // No packet is complete in `x` followed by the first `n` bytes of a frame.
  lemma NothingCompleteYet(x: seq<Byte>, f: seq<Byte>, mode: Byte)
    requires Clean(x) && (mode == 1 || mode == 2) && |f| < 4 && f <= Frame(mode)
    requires HeaderAt(x + f, 0)
    ensures Next(x + f).Wait?
  {
    var s := x + f;
    forall j | 2 <= j < |s| ensures s[j] != 0xC4 {
      if j < |x| {
        assert s[j] == x[j];
      } else {
        assert s[j] == f[j - |x|];
      }
    }
    NoTail(s, 2);
  }

  predicate EndsWith(s: seq<Byte>, f: seq<Byte>) {
    |f| <= |s| && s[|s| - |f|..] == f
  }

  /** Less than one frame of a burst completes nothing, and is kept. */
  lemma {:induction false} StartOfBurstIsKept(x: seq<Byte>, f: seq<Byte>, mode: Byte)
    requires Clean(x) && (mode == 1 || mode == 2) && |f| < 4 && f <= Frame(mode)
    ensures Scan(Front(), x + f).items == []
    ensures EndsWith(Scan(Front(), x + f).residue, f)
    decreases |x|
  {
    if HeaderAt(x + f, 0) {
      NothingCompleteYet(x, f, mode);
    } else if |x| > 0 && |x + f| > 1 {
      ScanDropsByte(x, f);
      CleanRest(x, f);
      StartOfBurstIsKept(x[1..], f, mode);
    }
  }

  // --- Bursts in any chunks, from any state --------------------------------

  lemma RestingIsClean(kept: seq<Byte>, x: seq<Byte>, from: nat, to: nat)
    requires Next(kept).Wait? && from <= to <= |kept| && x == kept[from..to]
    ensures Clean(x)
  {
    if |kept| > 1 {
      forall i | 0 <= i < |kept| ensures kept[i] != 0xC4 {
      }
    }
  }

  // After a read the buffer is clean bytes followed by what has arrived of the burst.
  lemma BurstSoFar(kept: seq<Byte>, done: seq<Byte>, c: seq<Byte>) returns (x: seq<Byte>)
    requires Resting(kept) && EndsWith(kept, done) && |done + c| <= RX_BUFFER_MAX
    ensures Clean(x) && Last(kept + c) == x + (done + c)
  {
    var all := kept + c;
    var from := if |all| > RX_BUFFER_MAX then |all| - RX_BUFFER_MAX else 0;
    var to := |kept| - |done|;
    x := kept[from..to];
    RestingIsClean(kept, x, from, to);
    assert kept == kept[..to] + done;
    assert all[from..] == x + (done + c);
  }

  lemma FrontOfBurst(now: seq<Byte>, mode: Byte)
    requires now <= Burst(mode)
    ensures if |now| < 4 then now <= Frame(mode) else now == Frame(mode) + now[4..]
  {
    assert Burst(mode)[..4] == Frame(mode);
  }

  lemma EmitNothing(got: Scanned<seq<Byte>>)
    ensures Emit([], got) == got
  {
  }

  lemma KeptAfterFirstFrame(x: seq<Byte>, mode: Byte, now: seq<Byte>)
    requires Clean(x) && (mode == 1 || mode == 2) && 4 <= |now| && now <= Burst(mode)
    ensures |Scan(Front(), x + now).residue| <= |now| - 4
    ensures Next(Scan(Front(), x + now).residue).Wait?
  {
    FrontOfBurst(now, mode);
    var packet := FirstFrameCloses(x, mode, now[4..]);
    ScanStopsWaiting(Front(), now[4..]);
  }

  lemma Regroup(x: seq<Byte>, now: seq<Byte>, rest: seq<Byte>, burst: seq<Byte>)
    requires now + rest == burst
    ensures (x + now) + rest == x + burst && now <= burst && |now| + |rest| == |burst|
  {
  }

  // The first frame has arrived whole: from here on nothing can be cut off.
  lemma BurstFromFirstFrame(x: seq<Byte>, mode: Byte, now: seq<Byte>, chunks: seq<seq<Byte>>)
    requires Clean(x) && (mode == 1 || mode == 2)
    requires 4 <= |now| && now + Flatten(chunks) == Burst(mode)
    ensures var first := Scan(Front(), x + now);
            Emit(first.items, Polls(first.residue, chunks)) == Scan(Front(), x + Burst(mode))
  {
    Regroup(x, now, Flatten(chunks), Burst(mode));
    KeptAfterFirstFrame(x, mode, now);
    ShortStreamsInAnyChunks(Scan(Front(), x + now).residue, chunks);
    FrontIsSteadfast();
    ScanResumes(Front(), x + now, Flatten(chunks));
  }

  lemma {:induction false} BurstInProgress(kept: seq<Byte>, done: seq<Byte>, chunks: seq<seq<Byte>>, mode: Byte)
    requires Resting(kept) && EndsWith(kept, done) && |done| < 4
    requires mode == 1 || mode == 2
    requires done + Flatten(chunks) == Burst(mode)
    ensures Polls(kept, chunks).residue == []
    ensures var modes := AcceptAll(Polls(kept, chunks).items);
            modes == [mode, mode] || modes == [mode, mode, mode]
    decreases |chunks|
  {
    assert |chunks| > 0;
    var c, later := chunks[0], chunks[1..];
    var now := done + c;
    FlattenSplit(done, chunks);
    FrontOfBurst(now, mode);
    var x := BurstSoFar(kept, done, c);
    var first := Scan(Front(), x + now);
    if |now| < 4 {
      StartOfBurstIsKept(x, now, mode);
      PollsRest(kept, c);
      BurstInProgress(first.residue, now, later, mode);
      EmitNothing(Polls(first.residue, later));
    } else {
      BurstFromFirstFrame(x, mode, now, later);
      ScanBurst(x, mode);
    }
  }

  /**
    Whatever the camera has received before, one burst of the controller, read
    in any chunks, gets the mode accepted at least twice, nothing else with
    it, and leaves the buffer empty.
   */
  lemma BurstGetsThrough(kept: seq<Byte>, chunks: seq<seq<Byte>>, mode: Byte)
    requires Resting(kept)
    requires mode == 1 || mode == 2
    requires Flatten(chunks) == Burst(mode)
    ensures Polls(kept, chunks).residue == []
    ensures var modes := AcceptAll(Polls(kept, chunks).items);
            modes == [mode, mode] || modes == [mode, mode, mode]
  {
    assert [] + Flatten(chunks) == Burst(mode);
    BurstInProgress(kept, [], chunks, mode);
  }

  // --- A burst behind any bytes, and many bursts ----------------------------

  // Ends in two acceptances of the mode.
  predicate EndsInMode(modes: seq<Byte>, mode: Byte) {
    |modes| >= 2 && modes[|modes| - 1] == mode && modes[|modes| - 2] == mode
  }

  lemma {:induction false} BurstOrFrame(x: seq<Byte>, now: seq<Byte>, rest: seq<seq<Byte>>, mode: Byte)
    requires Next(x).Wait? && (mode == 1 || mode == 2)
    requires |x + now| <= RX_BUFFER_MAX && now + Flatten(rest) == Burst(mode)
    ensures var first := Scan(Front(), x + now);
            var got := Emit(first.items, Polls(first.residue, rest));
            got.residue == [] && EndsInMode(AcceptAll(got.items), mode)
  {
    RestingIsClean(x, x, 0, |x|);
    FrontOfBurst(now, mode);
    var first := Scan(Front(), x + now);
    if |now| < 4 {
      StartOfBurstIsKept(x, now, mode);
      ScanStopsWaiting(Front(), x + now);
      BurstInProgress(first.residue, now, rest, mode);
      EmitNothing(Polls(first.residue, rest));
    } else {
      BurstFromFirstFrame(x, mode, now, rest);
      ScanBurst(x, mode);
    }
  }

  // What is accepted first does not change how it ends.
  lemma {:induction false} EndsAfter(items: seq<seq<Byte>>, got: Scanned<seq<Byte>>, mode: Byte)
    requires EndsInMode(AcceptAll(got.items), mode)
    ensures EndsInMode(AcceptAll(Emit(items, got).items), mode)
  {
    AcceptConcat(items, got.items);
  }

  // The read in which the burst begins: `front` is what else the buffer holds.
  lemma {:induction false} BurstBegins(front: seq<Byte>, now: seq<Byte>, rest: seq<seq<Byte>>, mode: Byte)
    requires |front + now| <= RX_BUFFER_MAX && (mode == 1 || mode == 2)
    requires now + Flatten(rest) == Burst(mode)
    ensures var first := Scan(Front(), front + now);
            var got := Emit(first.items, Polls(first.residue, rest));
            got.residue == [] && EndsInMode(AcceptAll(got.items), mode)
  {
    var before := Scan(Front(), front);
    FrontIsSteadfast();
    ScanResumes(Front(), front, now);
    ScanStopsWaiting(Front(), front);
    BurstOrFrame(before.residue, now, rest, mode);
    var first := Scan(Front(), before.residue + now);
    var polled := Polls(first.residue, rest);
    EmitAppends(before.items, first.items, polled);
    EndsAfter(before.items, Emit(first.items, polled), mode);
  }

  // Of a buffer that ends with the start of a burst, the cap cuts only what lies before it.
  lemma CapSpares(front: seq<Byte>, now: seq<Byte>) returns (kept: seq<Byte>)
    requires |now| <= RX_BUFFER_MAX
    ensures Last(front + now) == kept + now && |kept + now| <= RX_BUFFER_MAX
  {
    var all := front + now;
    kept := if |all| > RX_BUFFER_MAX then front[|all| - RX_BUFFER_MAX..] else front;
  }

  lemma SplitRead(chunk: seq<Byte>, later: seq<Byte>, before: seq<Byte>, burst: seq<Byte>)
    requires chunk + later == before + burst
    ensures |chunk| < |before| ==> later == before[|chunk|..] + burst
    ensures |before| <= |chunk| ==> chunk == before + chunk[|before|..] && chunk[|before|..] + later == burst
  {
    if |chunk| < |before| {
      assert (chunk + later)[|chunk|..] == later && (before + burst)[|chunk|..] == before[|chunk|..] + burst;
    } else {
      assert (chunk + later)[..|before|] == chunk[..|before|] && (before + burst)[..|before|] == before;
      assert (chunk + later)[|before|..] == chunk[|before|..] + later && (before + burst)[|before|..] == burst;
    }
  }

  /**
    Any bytes whatever and a burst behind them, cut into any reads: the last
    two modes accepted are the burst's, and the buffer ends empty.
   */
  lemma {:induction false} BurstAfterAnything(kept: seq<Byte>, before: seq<Byte>, chunks: seq<seq<Byte>>, mode: Byte)
    requires mode == 1 || mode == 2
    requires Flatten(chunks) == before + Burst(mode)
    ensures Polls(kept, chunks).residue == []
    ensures EndsInMode(AcceptAll(Polls(kept, chunks).items), mode)
    decreases |chunks|
  {
    assert |chunks| > 0;
    var chunk, rest := chunks[0], chunks[1..];
    SplitRead(chunk, Flatten(rest), before, Burst(mode));
    var first := Scan(Front(), Last(kept + chunk));
    if |chunk| < |before| {
      BurstAfterAnything(first.residue, before[|chunk|..], rest, mode);
      EndsAfter(first.items, Polls(first.residue, rest), mode);
    } else {
      var now := chunk[|before|..];
      assert kept + chunk == (kept + before) + now;
      var front := CapSpares(kept + before, now);
      BurstBegins(front, now, rest, mode);
    }
  }

  ghost predicate AllModes(modes: seq<Byte>) {
    forall m | m in modes :: m == 1 || m == 2
  }

  lemma RestOfModes(modes: seq<Byte>)
    requires AllModes(modes) && |modes| > 0
    ensures modes[0] == 1 || modes[0] == 2
    ensures AllModes(modes[1..])
    ensures Accept(Frame(modes[0])) + modes[1..] == modes
  {
    assert modes[0] in modes;
    assert forall m | m in modes[1..] :: m in modes;
  }

  function Frames(modes: seq<Byte>): seq<Byte> {
    if |modes| == 0 then [] else Frame(modes[0]) + Frames(modes[1..])
  }

  function Thrice(modes: seq<Byte>): seq<Byte> {
    if |modes| == 0 then [] else [modes[0], modes[0], modes[0]] + Thrice(modes[1..])
  }

  function Bursts(modes: seq<Byte>): seq<Byte> {
    if |modes| == 0 then [] else Burst(modes[0]) + Bursts(modes[1..])
  }

  lemma FramesOfOne(m: Byte, rest: seq<Byte>)
    ensures Frames([m] + rest) == Frame(m) + Frames(rest)
  {
    assert ([m] + rest)[1..] == rest;
  }

  lemma {:induction false} FramesOfThree(m: Byte, rest: seq<Byte>)
    ensures Frames([m, m, m] + rest) == Burst(m) + Frames(rest)
  {
    FramesOfOne(m, rest);
    FramesOfOne(m, [m] + rest);
    FramesOfOne(m, [m] + ([m] + rest));
    assert [m, m, m] + rest == [m] + ([m] + ([m] + rest));
  }

  lemma {:induction false} BurstsAreFrames(modes: seq<Byte>)
    requires AllModes(modes)
    ensures Bursts(modes) == Frames(Thrice(modes)) && AllModes(Thrice(modes))
  {
    if |modes| > 0 {
      RestOfModes(modes);
      BurstsAreFrames(modes[1..]);
      FramesOfThree(modes[0], Thrice(modes[1..]));
    }
  }

  lemma {:induction false} FramesAreAccepted(modes: seq<Byte>)
    requires AllModes(modes)
    ensures Scan(Front(), Frames(modes)).residue == []
    ensures AcceptAll(Scan(Front(), Frames(modes)).items) == modes
    decreases |modes|
  {
    if |modes| > 0 {
      var rest := Scan(Front(), Frames(modes[1..]));
      RestOfModes(modes);
      FramesAreAccepted(modes[1..]);
      ScanFrame(modes[0], Frames(modes[1..]));
      AcceptFirst(Frame(modes[0]), rest.items);
    } else {
      assert Scan(Front(), []) == Scanned([], []);
    }
  }

  lemma AcceptFirst(packet: seq<Byte>, packets: seq<seq<Byte>>)
    ensures AcceptAll([packet] + packets) == Accept(packet) + AcceptAll(packets)
  {
    AcceptConcat([packet], packets);
    assert [packet][..0] == [];
  }

  lemma InsideFrame(mode: Byte, n: nat)
    requires n < 4 && (mode == 1 || mode == 2)
    ensures |Scan(Front(), Frame(mode)[..n]).residue| <= 3
  {
    ScanStopsWaiting(Front(), Frame(mode)[..n]);
  }

  /** After any part of a stream of frames less than a frame is kept. */
  lemma {:induction false} FramesKeepFew(modes: seq<Byte>, n: nat)
    requires AllModes(modes) && n <= |Frames(modes)|
    ensures |Scan(Front(), Frames(modes)[..n]).residue| <= 3
    decreases |modes|
  {
    if |modes| > 0 {
      RestOfModes(modes);
      PrefixOfTwo(Frame(modes[0]), Frames(modes[1..]), n);
      if n < 4 {
        InsideFrame(modes[0], n);
      } else {
        FramesKeepFew(modes[1..], n - 4);
        ScanFrame(modes[0], Frames(modes[1..])[..n - 4]);
      }
    }
  }

  /** Reads of at most 61 bytes of such a stream are never cut off. */
  lemma {:induction false} FramesAreNotCut(modes: seq<Byte>, done: seq<Byte>, chunks: seq<seq<Byte>>)
    requires AllModes(modes) && done + Flatten(chunks) == Frames(modes)
    requires forall c | c in chunks :: |c| <= RX_BUFFER_MAX - 3
    ensures var got := Scan(Front(), done);
            Emit(got.items, Polls(got.residue, chunks)) == Scan(Front(), Frames(modes))
    decreases |chunks|
  {
    var got := Scan(Front(), done);
    if |chunks| == 0 {
      assert done + Flatten(chunks) == done;
      PollsDone(got.items, got.residue, chunks);
    } else {
      FlattenSplit(done, chunks);
      assert Frames(modes)[..|done|] == done;
      FramesKeepFew(modes, |done|);
      FrontIsSteadfast();
      ScanResumes(Front(), done, chunks[0]);
      FramesAreNotCut(modes, done + chunks[0], chunks[1..]);
      PollsNext(got.items, got.residue, chunks);
    }
  }

  // The first frame has arrived whole, and more of the stream with it.
  lemma {:induction false} FirstOfMany(x: seq<Byte>, now: seq<Byte>, chunks: seq<seq<Byte>>, modes: seq<Byte>)
    requires Clean(x) && |modes| > 0 && AllModes(modes) && 4 <= |now|
    requires now + Flatten(chunks) == Frames(modes)
    requires forall c | c in chunks :: |c| <= RX_BUFFER_MAX - 3
    ensures var first := Scan(Front(), x + now);
            var got := Emit(first.items, Polls(first.residue, chunks));
            got.residue == [] && (AcceptAll(got.items) == modes || AcceptAll(got.items) == modes[1..])
  {
    var more := now[4..];
    RestOfModes(modes);
    SplitRead(now, Flatten(chunks), Frame(modes[0]), Frames(modes[1..]));
    assert now == Frame(modes[0]) + more;
    var packet := FirstFrameCloses(x, modes[0], more);
    FramesAreNotCut(modes[1..], more, chunks);
    FramesAreAccepted(modes[1..]);
    var later := Scan(Front(), more);
    var polled := Polls(later.residue, chunks);
    EmitAppends([packet], later.items, polled);
    AcceptFirst(packet, later.items + polled.items);
  }

  lemma StartOfFrames(now: seq<Byte>, modes: seq<Byte>)
    requires |modes| > 0 && now <= Frames(modes) && |now| < 4
    ensures now <= Frame(modes[0])
  {
    assert Frames(modes)[..4] == Frame(modes[0]);
    assert Frames(modes)[..4][..|now|] == now;
  }

  lemma {:induction false} FramesInProgress(kept: seq<Byte>, done: seq<Byte>, chunks: seq<seq<Byte>>, modes: seq<Byte>)
    requires Resting(kept) && EndsWith(kept, done) && |done| < 4
    requires |modes| > 0 && AllModes(modes) && done + Flatten(chunks) == Frames(modes)
    requires forall c | c in chunks :: |c| <= RX_BUFFER_MAX - 3
    ensures Polls(kept, chunks).residue == []
    ensures AcceptAll(Polls(kept, chunks).items) == modes || AcceptAll(Polls(kept, chunks).items) == modes[1..]
    decreases |chunks|
  {
    assert |chunks| > 0;
    var c, later := chunks[0], chunks[1..];
    var now := done + c;
    FlattenSplit(done, chunks);
    var x := BurstSoFar(kept, done, c);
    var first := Scan(Front(), x + now);
    if |now| < 4 {
      RestOfModes(modes);
      StartOfFrames(now, modes);
      StartOfBurstIsKept(x, now, modes[0]);
      PollsRest(kept, c);
      FramesInProgress(first.residue, now, later, modes);
      EmitNothing(Polls(first.residue, later));
    } else {
      FirstOfMany(x, now, later, modes);
    }
  }

  /**
    Any list of bursts from any reachable residue, in any reads of at most 61
    bytes: every mode is accepted three times, in order, but the first perhaps
    only twice, and nothing stays behind.
   */
  lemma {:induction false} BurstsGetThrough(kept: seq<Byte>, chunks: seq<seq<Byte>>, modes: seq<Byte>)
    requires Resting(kept) && |modes| > 0 && AllModes(modes)
    requires Flatten(chunks) == Bursts(modes)
    requires forall c | c in chunks :: |c| <= RX_BUFFER_MAX - 3
    ensures Polls(kept, chunks).residue == []
    ensures var accepted := AcceptAll(Polls(kept, chunks).items);
            accepted == Thrice(modes) || accepted == Thrice(modes)[1..]
  {
    BurstsAreFrames(modes);
    assert [] + Flatten(chunks) == Frames(Thrice(modes));
    FramesInProgress(kept, [], chunks, Thrice(modes));
  }

  // --- Reads that are cut off -----------------------------------------------

  lemma {:induction false} FramesInFront(modes: seq<Byte>, rest: seq<Byte>)
    requires AllModes(modes) && Next(rest).Wait?
    ensures Scan(Front(), Frames(modes) + rest).residue == rest
    ensures AcceptAll(Scan(Front(), Frames(modes) + rest).items) == modes
  {
    FramesAreAccepted(modes);
    FrontIsSteadfast();
    ScanResumes(Front(), Frames(modes), rest);
    var got := Scan(Front(), Frames(modes));
    assert got.residue + rest == rest;
    assert got.items + [] == got.items;
  }

  // The end of a frame whose beginning has been cut off is dropped.
  lemma {:induction false} EndOfFrameIsDropped(front: seq<Byte>, mode: Byte, rest: seq<Byte>)
    requires (mode == 1 || mode == 2) && |front| < 4 && EndsWith(Frame(mode), front) && |rest| > 0
    ensures Scan(Front(), front + rest) == Scan(Front(), rest)
    decreases |front|
  {
    if |front| == 0 {
      assert front + rest == rest;
    } else {
      assert front == Frame(mode)[4 - |front|..];
      assert (front + rest)[1..] == front[1..] + rest;
      assert Next(front + rest) == Drop(1);
      EndOfFrameIsDropped(front[1..], mode, rest);
    }
  }

  lemma LastIs(early: seq<Byte>, late: seq<Byte>)
    requires |late| == RX_BUFFER_MAX
    ensures Last(early + late) == late
  {
  }

  /**
    A read longer than the buffer, whatever its first bytes and whatever was
    kept: of its last 64 bytes, which may begin and end inside a frame, exactly
    the whole frames are accepted, and the beginning of the last is kept.
   */
  lemma {:induction false} LongReadLeaves(kept: seq<Byte>, before: seq<Byte>, front: seq<Byte>, first: Byte,
                                          modes: seq<Byte>, back: seq<Byte>, last: Byte)
    requires AllModes([first] + modes + [last])
    requires |front| < 4 && EndsWith(Frame(first), front) && |back| < 4 && back <= Frame(last)
    requires |front + (Frames(modes) + back)| == RX_BUFFER_MAX
    ensures var got := Polls(kept, [before + (front + (Frames(modes) + back))]);
            AcceptAll(got.items) == modes && got.residue == back
  {
    var late := front + (Frames(modes) + back);
    ModesBetween(first, modes, last);
    Associate(kept, before, late);
    LastIs(kept + before, late);
    PollsOne(kept, before + late);
    LongReadIsScanned(front, first, modes, back, last);
  }

  lemma ModesBetween(first: Byte, modes: seq<Byte>, last: Byte)
    requires AllModes([first] + modes + [last])
    ensures first == 1 || first == 2
    ensures last == 1 || last == 2
    ensures AllModes(modes)
  {
    var all := [first] + modes + [last];
    assert first in all && last in all;
    assert forall m | m in modes :: m in all;
  }

  lemma {:induction false} LongReadIsScanned(front: seq<Byte>, first: Byte, modes: seq<Byte>, back: seq<Byte>, last: Byte)
    requires (first == 1 || first == 2) && AllModes(modes) && (last == 1 || last == 2)
    requires |front| < 4 && EndsWith(Frame(first), front) && |back| < 4 && back <= Frame(last)
    requires |Frames(modes) + back| > 0
    ensures var got := Scan(Front(), front + (Frames(modes) + back));
            AcceptAll(got.items) == modes && got.residue == back
  {
    EndOfFrameIsDropped(front, first, Frames(modes) + back);
    FramesInFront(modes, back);
  }

  lemma {:induction false} PollsOne(kept: seq<Byte>, chunk: seq<Byte>)
    ensures Polls(kept, [chunk]) == Scan(Front(), Last(kept + chunk))
  {
    var first := Scan(Front(), Last(kept + chunk));
    assert [chunk][1..] == [];
    PollsDone(first.items, first.residue, [chunk][1..]);
  }

  lemma FirstAndRest(modes: seq<Byte>, k: nat)
    requires 0 < k <= |modes|
    ensures modes[..k] == [modes[0]] + modes[1..][..k - 1]
    ensures modes[1..][k - 1..] == modes[k..]
  {
  }

  lemma {:induction false} FramesSplit(modes: seq<Byte>, k: nat)
    requires k <= |modes|
    ensures Frames(modes) == Frames(modes[..k]) + Frames(modes[k..])
    decreases |modes|
  {
    if k == 0 {
      assert modes[k..] == modes && |modes[..k]| == 0;
    } else {
      var early := modes[1..][..k - 1];
      FramesSplit(modes[1..], k - 1);
      FirstAndRest(modes, k);
      FramesOfOne(modes[0], early);
      Associate(Frame(modes[0]), Frames(early), Frames(modes[k..]));
    }
  }

  lemma {:induction false} FramesAreFourEach(modes: seq<Byte>)
    ensures |Frames(modes)| == 4 * |modes|
  {
    if |modes| > 0 {
      FramesAreFourEach(modes[1..]);
    }
  }

  /** Of sixteen or more frames in one read exactly the last sixteen are accepted. */
  lemma {:induction false} SixteenFramesSurvive(kept: seq<Byte>, modes: seq<Byte>)
    requires AllModes(modes) && |modes| >= 16
    ensures var got := Polls(kept, [Frames(modes)]);
            AcceptAll(got.items) == modes[|modes| - 16..] && got.residue == []
  {
    var late := modes[|modes| - 16..];
    FramesSplit(modes, |modes| - 16);
    FramesAreFourEach(late);
    assert [] + (Frames(late) + []) == Frames(late);
    assert forall m | m in [1] + late + [1] :: m == 1 || m in modes;
    LongReadLeaves(kept, Frames(modes[..|modes| - 16]), [], 1, late, [], 1);
  }

  // --- The camera's polling loop -------------------------------------------

  lemma {:induction false} AcceptConcat(a: seq<seq<Byte>>, b: seq<seq<Byte>>)
    ensures AcceptAll(a + b) == AcceptAll(a) + AcceptAll(b)
    decreases |b|
  {
    if |b| == 0 {
      assert a + b == a;
    } else {
      assert (a + b)[..|a + b| - 1] == a + b[..|b| - 1];
      AcceptConcat(a, b[..|b| - 1]);
      assert AcceptAll(a) + (AcceptAll(b[..|b| - 1]) + Accept(b[|b| - 1])) == AcceptAll(a) + AcceptAll(b);
    }
  }

  lemma {:induction false} PollsNext(items: seq<seq<Byte>>, kept: seq<Byte>, chunks: seq<seq<Byte>>)
    requires |chunks| > 0
    ensures var first := Scan(Front(), Last(kept + chunks[0]));
            Emit(items, Polls(kept, chunks)) == Emit(items + first.items, Polls(first.residue, chunks[1..]))
  {
    var first := Scan(Front(), Last(kept + chunks[0]));
    EmitAppends(items, first.items, Polls(first.residue, chunks[1..]));
  }

  lemma ReturnOne(modes: seq<Byte>, queue: seq<Byte>, got: seq<Byte>, told: seq<Byte>)
    requires modes + queue == told
    ensures modes + (queue + got) == told + got
    ensures |queue + got| > 0 ==> (modes + [(queue + got)[0]]) + (queue + got)[1..] == told + got
  {
  }

  // The polled stream, `items` having been taken and `chunks` being still to come.
  ghost predicate Polling(polled: Scanned<seq<Byte>>, items: seq<seq<Byte>>, kept: seq<Byte>, chunks: seq<seq<Byte>>) {
    polled == Emit(items, Polls(kept, chunks))
  }

  // One call, with what the port has to give; it is asked only when no mode is pending.
  method PollOnce(receiver: ModeReceiver, chunks: seq<seq<Byte>>, modes: seq<Byte>,
                  ghost polled: Scanned<seq<Byte>>, ghost items: seq<seq<Byte>>, ghost pending: seq<Byte>)
    returns (modes': seq<Byte>, chunks': seq<seq<Byte>>, ghost items': seq<seq<Byte>>)
    requires |chunks| > 0 || |receiver.queue| > 0
    requires Polling(polled, items, receiver.buffer, chunks)
    requires modes + receiver.queue == pending + AcceptAll(items)
    modifies receiver
    ensures Polling(polled, items', receiver.buffer, chunks')
    ensures modes' + receiver.queue == pending + AcceptAll(items')
    ensures |chunks'| < |chunks| || (chunks' == chunks && |receiver.queue| < |old(receiver.queue)|)
  {
    ghost var queue := receiver.queue;
    var mode, read, packets := receiver.RecvModePacket(if |chunks| > 0 then chunks[0] else []);
    items' := items + packets;
    Accepted(pending, items, packets);
    ReturnOne(modes, queue, AcceptAll(packets), pending + AcceptAll(items));
    modes' := if mode.Some? then modes + [mode.value] else modes;
    chunks' := chunks;
    if read {
      PollsNext(items, old(receiver.buffer), chunks);
      chunks' := chunks[1..];
    }
  }

  /**
    recv_mode_packet called until the port is silent and nothing is pending.
    The port is read only when no mode is pending, so the reads may fall
    anywhere; the modes returned are those of the polled stream.
   */
  method PollAll(receiver: ModeReceiver, chunks: seq<seq<Byte>>) returns (modes: seq<Byte>)
    modifies receiver
    ensures var polled := Polls(old(receiver.buffer), chunks);
            modes == old(receiver.queue) + AcceptAll(polled.items) && receiver.buffer == polled.residue
    ensures receiver.queue == []
  {
    ghost var items: seq<seq<Byte>>, polled, pending := [], Polls(receiver.buffer, chunks), receiver.queue;
    var rest := chunks;
    modes := [];
    EmitNothing(polled);
    while |rest| > 0 || |receiver.queue| > 0
      invariant Polling(polled, items, receiver.buffer, rest)
      invariant modes + receiver.queue == pending + AcceptAll(items)
      decreases |rest|, |receiver.queue|
    {
      modes, rest, items := PollOnce(receiver, rest, modes, polled, items, pending);
    }
    PollsDone(items, receiver.buffer, rest);
  }

  lemma {:induction false} PollsDone(items: seq<seq<Byte>>, kept: seq<Byte>, chunks: seq<seq<Byte>>)
    requires |chunks| == 0
    ensures Emit(items, Polls(kept, chunks)) == Scanned(items, kept)
  {
  }

  lemma {:induction false} Accepted(pending: seq<Byte>, items: seq<seq<Byte>>, packets: seq<seq<Byte>>)
    ensures pending + AcceptAll(items) + AcceptAll(packets) == pending + AcceptAll(items + packets)
    ensures |packets| == 0 ==> items + packets == items
  {
    AcceptConcat(items, packets);
  }

  /** A burst reaches the camera's program: its mode is returned two or three times, and nothing stays behind. */
  method PollBurst(receiver: ModeReceiver, chunks: seq<seq<Byte>>, ghost mode: Byte) returns (modes: seq<Byte>)
    requires receiver.queue == [] && Resting(receiver.buffer)
    requires mode == 1 || mode == 2
    requires Flatten(chunks) == Burst(mode)
    modifies receiver
    ensures modes == [mode, mode] || modes == [mode, mode, mode]
    ensures receiver.queue == [] && receiver.buffer == []
  {
    BurstGetsThrough(receiver.buffer, chunks, mode);
    modes := PollAll(receiver, chunks);
  }

  /** Bursts reach the camera's program in order, each mode three times, the first perhaps only twice. */
  method PollBursts(receiver: ModeReceiver, chunks: seq<seq<Byte>>, ghost sent: seq<Byte>) returns (modes: seq<Byte>)
    requires receiver.queue == [] && Resting(receiver.buffer)
    requires |sent| > 0 && AllModes(sent) && Flatten(chunks) == Bursts(sent)
    requires forall c | c in chunks :: |c| <= RX_BUFFER_MAX - 3
    modifies receiver
    ensures modes == Thrice(sent) || modes == Thrice(sent)[1..]
    ensures receiver.queue == [] && receiver.buffer == []
  {
    BurstsGetThrough(receiver.buffer, chunks, sent);
    modes := PollAll(receiver, chunks);
  }

  /** Whatever was pending and whatever came before, in reads of any size: after a burst the last mode returned is its own. */
  method PollAfterAnything(receiver: ModeReceiver, chunks: seq<seq<Byte>>, ghost before: seq<Byte>, ghost mode: Byte)
    returns (modes: seq<Byte>)
    requires mode == 1 || mode == 2
    requires Flatten(chunks) == before + Burst(mode)
    modifies receiver
    ensures EndsInMode(modes, mode)
    ensures receiver.queue == [] && receiver.buffer == []
  {
    BurstAfterAnything(receiver.buffer, before, chunks, mode);
    modes := PollAll(receiver, chunks);
  }
}
