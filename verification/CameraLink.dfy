/**
  The camera stream: the packets written by green.py, the in-place parser of
  uart4_port.c and the packet handler of usart4.c. A packet's length is fixed
  by its tag byte.
 */
module CameraLink {
  import opened Streams
  import opened RxBuffers

  // --- The parser's moves --------------------------------------------------

  // The length of the packet recognised at header byte `i`, or 0.
  function FrameLength(s: seq<Byte>, i: nat): (n: nat)
    ensures n > 0 ==> 3 <= n <= 7 && i + n <= |s|
  {
    if i + 6 < |s| && s[i + 1] == 0xB1 && s[i + 6] == 0xC3 then 7
    else if i + 3 < |s| && (s[i + 1] == 0xB2 || s[i + 1] == 0xB3) && s[i + 3] == 0xC3 then 4
    else if i + 2 < |s| && s[i + 1] == 0xB4 && s[i + 2] == 0xC3 then 3
    else 0
  }

  function Next(s: seq<Byte>): Move<seq<Byte>> {
    if |s| == 0 then Wait
    else if s[0] != 0xA3 then if |s| == 1 then Wait else Drop(1)
    else
      var n := FrameLength(s, 0);
      if n > 0 then Take(n, s[..n]) else Wait
  }

  function Front(): (next: Parser<seq<Byte>>)
    ensures Proper(next)
  {
    s => Next(s)
  }

  lemma FrontIsSteadfast()
    ensures Steadfast(Front())
  {
    forall s, t | !Next(s).Wait? ensures Next(s + t) == Next(s) {
      if Next(s).Take? {
        assert (s + t)[..Next(s).count] == s[..Next(s).count];
      }
    }
  }

  /** However the stream is cut, well-formed or not, the packets delivered and the bytes kept are the same. */
  lemma {:induction false} AnyCutsAgree(kept: seq<Byte>, chunks: seq<seq<Byte>>)
    requires Next(kept).Wait?
    ensures Feed(Front(), kept, chunks) == Scan(Front(), kept + Flatten(chunks))
  {
    FrontIsSteadfast();
    FeedIsWholeScan(Front(), kept, chunks);
  }

  // --- Streams that block the parser ---------------------------------------

  /** The kept bytes start with a header whose tag is unknown, or whose tail byte has arrived and is wrong. */
  predicate Blocked(kept: seq<Byte>) {
    |kept| >= 2 && kept[0] == 0xA3 && FrameLength(kept, 0) == 0 &&
    (if kept[1] == 0xB1 then |kept| > 6
     else if kept[1] == 0xB2 || kept[1] == 0xB3 then |kept| > 3
     else if kept[1] == 0xB4 then |kept| > 2
     else true)
  }

  function Tails(n: nat): seq<Byte> {
    seq(n, _ => 0xC3)
  }

  // Bytes that would complete a packet.
  function Completion(kept: seq<Byte>): seq<Byte>
    requires Next(kept).Wait? && !Blocked(kept)
  {
    if |kept| == 0 || kept[0] != 0xA3 then [0xA3, 0xB4, 0xC3]
    else if |kept| == 1 then [0xB4, 0xC3]
    else Tails(if kept[1] == 0xB1 then 7 - |kept| else if kept[1] == 0xB4 then 1 else 4 - |kept|)
  }

  lemma CompletionCompletes(kept: seq<Byte>)
    requires Next(kept).Wait? && !Blocked(kept)
    ensures |Scan(Front(), kept + Completion(kept)).items| == 1
  {
    var s := kept + Completion(kept);
    if |kept| == 0 || kept[0] == 0xA3 {
      assert FrameLength(s, 0) == |s|;
      EndsWithPacket(s);
    } else {
      var rest := Completion(kept);
      assert s[1..] == rest && Next(s) == Drop(1);
      EndsWithPacket(rest);
    }
  }

  lemma EndsWithPacket(s: seq<Byte>)
    requires |s| > 0 && s[0] == 0xA3 && FrameLength(s, 0) == |s|
    ensures |Scan(Front(), s).items| == 1
  {
    assert s[|s|..] == [];
  }

  /** Exactly when no further input can ever produce another packet; only the overflow reset ends this. */
  lemma BlockedForGood(kept: seq<Byte>)
    requires Next(kept).Wait?
    ensures Blocked(kept) <==> forall t :: Scan(Front(), kept + t).items == []
  {
    if Blocked(kept) {
      forall t ensures Scan(Front(), kept + t).items == [] {
        assert Next(kept + t).Wait?;
      }
    } else {
      CompletionCompletes(kept);
    }
  }

  /** Every read is swallowed until the first that does not fit; that one is parsed as if nothing had been kept. */
  lemma {:induction false} SilentUntilOverflow(kept: seq<Byte>, before: seq<seq<Byte>>, after: seq<seq<Byte>>)
    requires Next(kept).Wait? && Blocked(kept) && |kept| + |Flatten(before)| <= CAPACITY
    ensures Reads(Front(), kept, before) == Scanned([], kept + Flatten(before))
    ensures |after| > 0 && |after[0]| <= CAPACITY < |kept| + |Flatten(before)| + |after[0]| ==>
              Reads(Front(), kept, before + after) == Reads(Front(), [], after)
  {
    forall t ensures Front()(kept + t).Wait? {
      assert Next(kept + t).Wait?;
    }
    StuckUntilOverflow(Front(), kept, before, after);
  }

  // --- Packets of the camera -----------------------------------------------

  datatype Packet =
    | LightAt(x: U16, y: U16)
    | NoLight
    | LeafState(id: Byte)
    | PlantType(code: Byte)
  {
    function Encode(): seq<Byte> {
      match this
      case LightAt(x, y) => [0xA3, 0xB1, x / 0x100, x % 0x100, y / 0x100, y % 0x100, 0xC3]
      case NoLight => [0xA3, 0xB4, 0xC3]
      case LeafState(id) => [0xA3, 0xB2, id, 0xC3]
      case PlantType(code) => [0xA3, 0xB3, code, 0xC3]
    }
  }

  function EncodeAll(ps: seq<Packet>): seq<Byte> {
    if |ps| == 0 then [] else ps[0].Encode() + EncodeAll(ps[1..])
  }

  function EncodeEach(ps: seq<Packet>): seq<seq<Byte>> {
    seq(|ps|, i requires 0 <= i < |ps| => ps[i].Encode())
  }

  lemma EncodeEachSplits(ps: seq<Packet>)
    requires |ps| > 0
    ensures EncodeEach(ps) == [ps[0].Encode()] + EncodeEach(ps[1..])
    ensures EncodeEach(ps)[..|ps| - 1] == EncodeEach(ps[..|ps| - 1])
    ensures EncodeEach(ps)[|ps| - 1] == ps[|ps| - 1].Encode()
  {
  }

  lemma ScanPacket(p: Packet, rest: seq<Byte>)
    ensures Scan(Front(), p.Encode() + rest) == Emit([p.Encode()], Scan(Front(), rest))
  {
    var s := p.Encode() + rest;
    assert s[..|p.Encode()|] == p.Encode() && s[|p.Encode()|..] == rest;
    assert Next(s) == Take(|p.Encode()|, p.Encode());
  }

  lemma {:induction false} StreamIsDelivered(ps: seq<Packet>)
    ensures Scan(Front(), EncodeAll(ps)) == Scanned(EncodeEach(ps), [])
    decreases |ps|
  {
    if |ps| > 0 {
      EncodeEachSplits(ps);
      ScanPacket(ps[0], EncodeAll(ps[1..]));
      StreamIsDelivered(ps[1..]);
    }
  }

  /** Whatever the payload bytes and however the stream is cut, exactly the packets sent are delivered. */
  lemma {:induction false} PacketsAreDelivered(ps: seq<Packet>, chunks: seq<seq<Byte>>)
    requires Flatten(chunks) == EncodeAll(ps)
    ensures Feed(Front(), [], chunks) == Scanned(EncodeEach(ps), [])
  {
    AnyCutsAgree([], chunks);
    assert [] + Flatten(chunks) == EncodeAll(ps);
    StreamIsDelivered(ps);
  }

  // --- The packet handler --------------------------------------------------

  datatype View = View(x: U16, y: U16, found: Byte, lightOn: Byte, blade: Byte, plantType: Byte)

  /** What a packet reports. */
  function Meaning(p: Packet, v: View): View {
    match p
    case LightAt(x, y) => v.(x := x, y := y, found := 1, lightOn := 0)
    case NoLight => v.(lightOn := 1, found := 0)
    case LeafState(id) => v.(blade := id)
    case PlantType(code) => v.(plantType := if 4 <= code <= 6 then code - 3 else v.plantType)
  }

  function MeaningAll(ps: seq<Packet>, v: View): View {
    if |ps| == 0 then v else Meaning(ps[|ps| - 1], MeaningAll(ps[..|ps| - 1], v))
  }

  function Word(high: Byte, low: Byte): U16 {
    high as int * 0x100 + low as int
  }

  // The handler's work at offset `i` of the memory it is given.
  function ObeyAt(data: seq<Byte>, i: nat, v: View): View
    requires i + 6 < |data|
  {
    if data[i] != 0xA3 then v
    else if data[i + 1] == 0xB1 && data[i + 6] == 0xC3 then
      v.(x := Word(data[i + 2], data[i + 3]), y := Word(data[i + 4], data[i + 5]), found := 1, lightOn := 0)
    else if data[i + 1] == 0xB2 && data[i + 3] == 0xC3 then v.(blade := data[i + 2])
    else if data[i + 1] == 0xB3 && data[i + 3] == 0xC3 then
      v.(plantType := if 4 <= data[i + 2] <= 6 then data[i + 2] - 3 else v.plantType)
    else if data[i + 1] == 0xB4 && data[i + 2] == 0xC3 then v.(lightOn := 1, found := 0)
    else v
  }

  // The handler's work at offsets `0 .. n`.
  function Obey(data: seq<Byte>, n: nat, v: View): View
    requires n + 6 <= |data|
  {
    if n == 0 then v else ObeyAt(data, n - 1, Obey(data, n - 1, v))
  }

  class Vision {
    var Source_X: U16
    var Source_Y: U16
    var finding_flag: Byte
    var lightONOFF_flag: Byte
    var blade_state: Byte
    var Soil_PlantType: Byte

    function Value(): View
      reads this
    {
      View(Source_X, Source_Y, finding_flag, lightONOFF_flag, blade_state, Soil_PlantType)
    }

    /** The handler, given the memory that begins with a packet of `size` bytes; it may look five bytes past the packet. */
    method Maixcam_DataProc(data: seq<Byte>, size: nat)
      requires 0 < size && size + 5 <= |data|
      modifies this
      ensures Value() == Obey(data, size - 1, old(Value()))
    {
      for i := 0 to size - 1
        invariant Value() == Obey(data, i, old(Value()))
      {
        Step(data, i);
      }
    }

    /** One pass of the handler's loop. */
    method Step(data: seq<Byte>, i: nat)
      requires i + 6 < |data|
      modifies this
      ensures Value() == ObeyAt(data, i, old(Value()))
    {
      if data[i] == 0xA3 && data[i + 1] == 0xB1 && data[i + 6] == 0xC3 {
        Source_X := Word(data[i + 2], data[i + 3]);
        Source_Y := Word(data[i + 4], data[i + 5]);
        finding_flag := 1;
        lightONOFF_flag := 0;
      }
      if data[i] == 0xA3 && data[i + 1] == 0xB2 && data[i + 3] == 0xC3 {
        blade_state := data[i + 2];
      }
      if data[i] == 0xA3 && data[i + 1] == 0xB3 && data[i + 3] == 0xC3 {
        if data[i + 2] == 0x04 { Soil_PlantType := 1; }
        if data[i + 2] == 0x05 { Soil_PlantType := 2; }
        if data[i + 2] == 0x06 { Soil_PlantType := 3; }
      }
      if data[i] == 0xA3 && data[i + 1] == 0xB4 && data[i + 2] == 0xC3 {
        lightONOFF_flag := 1;
        finding_flag := 0;
      }
    }
  }

  /**
    Byte `i` of a light packet starts something the handler may take for
    another packet: its tail is in place, or lies behind the packet.
   */
  predicate EchoAt(frame: seq<Byte>, i: nat)
    requires |frame| == 7 && 2 <= i <= 4
  {
    frame[i] == 0xA3 &&
    if frame[i + 1] == 0xB1 then true
    else if frame[i + 1] == 0xB2 then i == 4 || frame[i + 3] == 0xC3
    else if frame[i + 1] == 0xB3 then i < 4 && frame[i + 3] == 0xC3 && 4 <= frame[i + 2] <= 6
    else frame[i + 1] == 0xB4 && frame[i + 2] == 0xC3
  }

  predicate Echoes(frame: seq<Byte>) {
    |frame| == 7 && (EchoAt(frame, 2) || EchoAt(frame, 3) || EchoAt(frame, 4))
  }

  /** The handler reports what the packet says, whatever lies behind it, unless a light packet echoes. */
  lemma HandlerMeansPacket(p: Packet, beyond: seq<Byte>, v: View)
    requires !Echoes(p.Encode()) && 5 <= |beyond|
    ensures Obey(p.Encode() + beyond, |p.Encode()| - 1, v) == Meaning(p, v)
  {
    var data := p.Encode() + beyond;
    var first := ObeyAt(data, 0, v);
    assert Obey(data, 1, v) == first by { assert Obey(data, 0, v) == v; }
    assert Obey(data, 2, v) == first;
    if p.LightAt? {
      assert ObeyAt(data, 2, first) == first;
      assert Obey(data, 3, v) == first;
      assert ObeyAt(data, 3, first) == first;
      assert Obey(data, 4, v) == first;
      assert ObeyAt(data, 4, first) == first;
      assert Obey(data, 5, v) == first;
      assert Obey(data, 6, v) == first;
    } else if !p.NoLight? {
      assert Obey(data, 3, v) == first;
    }
  }

  lemma AllSixOffsets(data: seq<Byte>, v: View)
    requires 12 <= |data|
    ensures Obey(data, 6, v) ==
            ObeyAt(data, 5, ObeyAt(data, 4, ObeyAt(data, 3, ObeyAt(data, 2, ObeyAt(data, 1, ObeyAt(data, 0, v))))))
  {
    assert Obey(data, 0, v) == v;
    assert Obey(data, 2, v) == ObeyAt(data, 1, ObeyAt(data, 0, v));
    assert Obey(data, 4, v) == ObeyAt(data, 3, ObeyAt(data, 2, Obey(data, 2, v)));
    assert Obey(data, 6, v) == ObeyAt(data, 5, ObeyAt(data, 4, Obey(data, 4, v)));
  }

  // Memory behind an echoing light packet that completes the echo.
  function Lure(frame: seq<Byte>): seq<Byte>
    requires |frame| == 7
  {
    var other: Byte := if frame[5] == 0 then 1 else 0;
    if EchoAt(frame, 2) then [other, 0xC3, 0, 0, 0]
    else if EchoAt(frame, 3) then [0, other, 0xC3, 0, 0]
    else if frame[5] == 0xB1 then [0, 0, other, 0xC3, 0]
    else [0xC3, 0, 0, 0, 0]
  }

  /** An echoing light packet can be misreported. */
  lemma EchoMisreports(p: Packet, v: View)
    requires Echoes(p.Encode())
    requires v.plantType == 0 && v.blade != 0xC3 && v.blade != p.Encode()[4] && v.blade != p.Encode()[5]
    ensures Obey(p.Encode() + Lure(p.Encode()), 6, v) != Meaning(p, v)
  {
    AllSixOffsets(p.Encode() + Lure(p.Encode()), v);
  }

  ghost predicate AlwaysMeant(p: Packet) {
    forall beyond, v | 5 <= |beyond| :: Obey(p.Encode() + beyond, |p.Encode()| - 1, v) == Meaning(p, v)
  }

  /** Exactly which packets the handler reports as meant in every state and whatever lies behind them. */
  lemma MeantUnlessEchoing(p: Packet)
    ensures AlwaysMeant(p) <==> !Echoes(p.Encode())
  {
    if Echoes(p.Encode()) {
      var a, b := p.Encode()[4], p.Encode()[5];
      var blade: Byte := if a != 0 && b != 0 then 0 else if a != 1 && b != 1 then 1 else 2;
      var v := View(0, 0, 0, 0, blade, 0);
      EchoMisreports(p, v);
    } else {
      forall beyond, v | 5 <= |beyond|
        ensures Obey(p.Encode() + beyond, |p.Encode()| - 1, v) == Meaning(p, v)
      {
        HandlerMeansPacket(p, beyond, v);
      }
    }
  }

  // The packet a recognised frame encodes.
  function Decode(frame: seq<Byte>): Packet {
    if |frame| == 7 then LightAt(Word(frame[2], frame[3]), Word(frame[4], frame[5]))
    else if |frame| == 4 then if frame[1] == 0xB2 then LeafState(frame[2]) else PlantType(frame[2])
    else NoLight
  }

  // --- What an echo leaves in doubt ----------------------------------------

  /** Parts of the view that may differ from what the packets report. */
  datatype Doubt = Doubt(location: bool, lights: bool, leaf: bool, plant: bool)

  const CERTAIN := Doubt(false, false, false, false)

  predicate Within(a: Doubt, b: Doubt) {
    && (a.location ==> b.location) && (a.lights ==> b.lights)
    && (a.leaf ==> b.leaf) && (a.plant ==> b.plant)
  }

  /** The views agree in every part that is not in doubt. */
  predicate Agrees(d: Doubt, v: View, w: View) {
    && (d.location || (v.x == w.x && v.y == w.y))
    && (d.lights || (v.found == w.found && v.lightOn == w.lightOn))
    && (d.leaf || v.blade == w.blade)
    && (d.plant || v.plantType == w.plantType)
  }

  predicate EchoesAs(frame: seq<Byte>, tag: Byte) {
    && |frame| == 7
    && ((EchoAt(frame, 2) && frame[3] == tag) || (EchoAt(frame, 3) && frame[4] == tag) ||
        (EchoAt(frame, 4) && frame[5] == tag))
  }

  /** What the echoes of one packet may spoil. */
  function Spoiled(frame: seq<Byte>): Doubt {
    Doubt(EchoesAs(frame, 0xB1), EchoesAs(frame, 0xB4), EchoesAs(frame, 0xB2), EchoesAs(frame, 0xB3))
  }

  // A packet settles the parts it reports.
  function Unsettled(p: Packet, d: Doubt): Doubt {
    match p
    case LightAt(_, _) => d.(location := false, lights := false)
    case NoLight => d.(lights := false)
    case LeafState(_) => d.(leaf := false)
    case PlantType(code) => if 4 <= code <= 6 then d.(plant := false) else d
  }

  function DoubtAfter(frame: seq<Byte>, d: Doubt): Doubt {
    var spoiled, left := Spoiled(frame), Unsettled(Decode(frame), d);
    Doubt(spoiled.location || left.location, spoiled.lights || left.lights,
          spoiled.leaf || left.leaf, spoiled.plant || left.plant)
  }

  lemma HandlerMeansParts(p: Packet, beyond: seq<Byte>, v: View)
    requires 5 <= |beyond|
    ensures Agrees(Spoiled(p.Encode()), Obey(p.Encode() + beyond, |p.Encode()| - 1, v), Meaning(p, v))
  {
    if p.LightAt? {
      AllSixOffsets(p.Encode() + beyond, v);
    } else {
      HandlerMeansPacket(p, beyond, v);
    }
  }

  predicate PartsMeantFor(p: Packet, d: Doubt, beyond: seq<Byte>, v: View)
    requires 5 <= |beyond|
  {
    Agrees(d, Obey(p.Encode() + beyond, |p.Encode()| - 1, v), Meaning(p, v))
  }

  ghost predicate PartsMeant(p: Packet, d: Doubt) {
    forall beyond, v | 5 <= |beyond| :: PartsMeantFor(p, d, beyond, v)
  }

  // Memory that completes a location echo at offset `i`.
  function FalseLocation(frame: seq<Byte>, i: nat): seq<Byte>
    requires |frame| == 7 && 2 <= i <= 4
  {
    var other: Byte := if frame[5] == 0 then 1 else 0;
    seq(5, k => if k + 1 == i then 0xC3 else if k + 2 == i then other else 0)
  }

  lemma LocationIsSpoiled(p: Packet, i: nat, v: View)
    requires p.LightAt? && 2 <= i <= 4 && EchoAt(p.Encode(), i) && p.Encode()[i + 1] == 0xB1
    ensures var now := Obey(p.Encode() + FalseLocation(p.Encode(), i), 6, v);
            !(now.x == p.x && now.y == p.y)
  {
    AllSixOffsets(p.Encode() + FalseLocation(p.Encode(), i), v);
  }

  lemma OthersAreSpoiled(p: Packet)
    requires p.LightAt?
    ensures var frame := p.Encode();
            var blade: Byte := if frame[4] != 0 && frame[5] != 0 then 0 else if frame[4] != 1 && frame[5] != 1 then 1 else 2;
            var now := Obey(frame + [0xC3, 0, 0, 0, 0], 6, View(0, 0, 0, 0, blade, 0));
            && (EchoesAs(frame, 0xB2) ==> now.blade != blade)
            && (EchoesAs(frame, 0xB3) ==> now.plantType != 0)
            && (EchoesAs(frame, 0xB4) ==> now.found == 0)
  {
    var frame := p.Encode();
    var blade: Byte := if frame[4] != 0 && frame[5] != 0 then 0 else if frame[4] != 1 && frame[5] != 1 then 1 else 2;
    AllSixOffsets(frame + [0xC3, 0, 0, 0, 0], View(0, 0, 0, 0, blade, 0));
  }

  /** Exactly the spoiled parts can come out otherwise than the packet says. */
  lemma SpoiledIsExact(p: Packet, d: Doubt)
    ensures PartsMeant(p, d) <==> Within(Spoiled(p.Encode()), d)
  {
    var frame := p.Encode();
    if Within(Spoiled(frame), d) {
      forall beyond, v | 5 <= |beyond| ensures PartsMeantFor(p, d, beyond, v) {
        HandlerMeansParts(p, beyond, v);
      }
    } else {
      var blade: Byte := if frame[4] != 0 && frame[5] != 0 then 0 else if frame[4] != 1 && frame[5] != 1 then 1 else 2;
      var v := View(0, 0, 0, 0, blade, 0);
      if EchoesAs(frame, 0xB1) && !d.location {
        var i := if EchoAt(frame, 2) && frame[3] == 0xB1 then 2 else if EchoAt(frame, 3) && frame[4] == 0xB1 then 3 else 4;
        LocationIsSpoiled(p, i, v);
        assert !PartsMeantFor(p, d, FalseLocation(frame, i), v);
      } else {
        OthersAreSpoiled(p);
        assert !PartsMeantFor(p, d, [0xC3, 0, 0, 0, 0], v);
      }
    }
  }

  /** Coordinates of any image narrower than 0xA300 never echo. */
  lemma SmallCoordinatesDoNotEcho(x: U16, y: U16)
    requires x < 0xA300 && y < 0xA300
    ensures !Echoes(LightAt(x, y).Encode())
  {
  }

  // --- The receive thread --------------------------------------------------

  function DecodeEach(frames: seq<seq<Byte>>): seq<Packet> {
    seq(|frames|, i requires 0 <= i < |frames| => Decode(frames[i]))
  }

  /** Everything the parser recognises is the encoding of a packet. */
  lemma {:induction false} RecognisedIsPacket(s: seq<Byte>, i: nat)
    requires i < |s| && s[i] == 0xA3 && FrameLength(s, i) > 0
    ensures var frame := s[i..i + FrameLength(s, i)]; Decode(frame).Encode() == frame
  {
  }

  /** The parts of the view in doubt after `frames`, those of `d` having been in doubt before. */
  function DoubtAll(frames: seq<seq<Byte>>, d: Doubt): Doubt {
    if |frames| == 0 then d else DoubtAfter(frames[|frames| - 1], DoubtAll(frames[..|frames| - 1], d))
  }

  /** After any frames: every part of the view no echo has spoiled since it was last settled is what the packets reported. */
  ghost predicate Reported(frames: seq<seq<Byte>>, was: View, now: View) {
    Agrees(DoubtAll(frames, CERTAIN), now, MeaningAll(DecodeEach(frames), was))
  }

  lemma DecodeEachSplits(frames: seq<seq<Byte>>)
    requires |frames| > 0
    ensures DecodeEach(frames)[..|frames| - 1] == DecodeEach(frames[..|frames| - 1])
    ensures DecodeEach(frames)[|frames| - 1] == Decode(frames[|frames| - 1])
  {
  }

  lemma {:induction false} ReportedOneMore(frames: seq<seq<Byte>>, frame: seq<Byte>, beyond: seq<Byte>, was: View,
                                           mid: View, now: View)
    requires Reported(frames, was, mid)
    requires Decode(frame).Encode() == frame && 5 <= |beyond| && now == Obey(frame + beyond, |frame| - 1, mid)
    ensures Reported(frames + [frame], was, now)
  {
    assert (frames + [frame])[..|frames|] == frames;
    DecodeEachSplits(frames + [frame]);
    HandlerMeansParts(Decode(frame), beyond, mid);
  }

  /** Hands the `n` bytes at `i` to the handler and removes everything up to their end. */
  method Deliver(buf: RxBuffer, vision: Vision, beyond: seq<Byte>, i: nat, n: nat,
                 frames: seq<seq<Byte>>, ghost was: View)
    returns (frames': seq<seq<Byte>>)
    requires buf.Valid() && 5 <= |beyond| && i < buf.length
    requires buf.Contents()[i] == 0xA3 && n == FrameLength(buf.Contents(), i) > 0
    requires Reported(frames, was, vision.Value())
    modifies buf`length, buf.data, vision
    ensures buf.Valid()
    ensures frames' == frames + [old(buf.Contents())[i..i + n]]
    ensures buf.Contents() == old(buf.Contents())[i + n..]
    ensures Reported(frames', was, vision.Value())
  {
    var memory := buf.data[..][i..] + beyond;
    ghost var now := vision.Value();
    RecognisedIsPacket(buf.Contents(), i);
    FrontOfMemory(buf.data[..], buf.length, beyond, i, n);
    vision.Maixcam_DataProc(memory, n);
    var frame := buf.Take(i, n);
    frames' := frames + [frame];
    assert memory == memory[..n] + memory[n..];
    ReportedOneMore(frames, frame, memory[n..], was, now, vision.Value());
  }

  lemma NextAt(all: seq<Byte>, i: nat)
    requires i < |all|
    ensures Next(all[i..]) ==
            if all[i] != 0xA3 then (if i + 1 == |all| then Wait else Drop(1))
            else if FrameLength(all, i) > 0 then Take(FrameLength(all, i), all[i..i + FrameLength(all, i)])
            else Wait
  {
    var here, n := all[i..], FrameLength(all, i);
    assert FrameLength(here, 0) == n;
    assert here[..n] == all[i..i + n];
  }

  // One turn of the parsing loop, at offset `i`.
  method ParseAt(buf: RxBuffer, vision: Vision, beyond: seq<Byte>, i: nat, frames: seq<seq<Byte>>,
                 ghost whole: Scanned<seq<Byte>>, ghost was: View)
    returns (i': nat, frames': seq<seq<Byte>>, blocked: bool)
    requires buf.Valid() && 5 <= |beyond| && i < buf.length
    requires Parsing(Front(), whole, buf.Contents(), i, frames)
    requires Reported(frames, was, vision.Value())
    modifies buf`length, buf.data, vision
    ensures buf.Valid() && i' <= buf.length
    ensures blocked || buf.length - i' < old(buf.length) - i
    ensures blocked ==> whole == Scanned(frames', buf.Contents()[i'..])
    ensures !blocked ==> Parsing(Front(), whole, buf.Contents(), i', frames')
    ensures Reported(frames', was, vision.Value())
  {
    i', frames', blocked := i, frames, false;
    var all := buf.Contents();
    if all[i] != 0xA3 {
      NextAt(all, i);
      SkipTurn(Front(), whole, all, i, frames);
      i' := i + 1;
      return;
    }
    var n := FrameLength(all, i);
    if n == 0 {
      NextAt(all, i);
      StopTurn(Front(), whole, all, i, frames);
      blocked := true;
      return;
    }
    NextAt(all, i);
    TakeTurn(Front(), whole, all, i, frames, n, all[i..i + n]);
    frames' := Deliver(buf, vision, beyond, i, n, frames, was);
    i' := 0;
  }

  /**
    Parses the buffer in place, handing each packet to the handler. `beyond` is
    whatever memory follows the buffer: the handler may look past a packet.
   */
  method TryParse(buf: RxBuffer, vision: Vision, beyond: seq<Byte>) returns (frames: seq<seq<Byte>>)
    requires buf.Valid() && 5 <= |beyond|
    modifies buf`length, buf.data, vision
    ensures buf.Valid()
    ensures Scanned(frames, buf.Contents()) == Scan(Front(), old(buf.Contents()))
    ensures Reported(frames, old(vision.Value()), vision.Value())
  {
    ghost var whole, was := Scan(Front(), buf.Contents()), vision.Value();
    var i: nat := 0;
    var blocked := false;
    frames := [];
    StartParsing(Front(), buf.Contents());
    while i < buf.length && !blocked
      invariant buf.Valid() && i <= buf.length
      invariant blocked ==> whole == Scanned(frames, buf.Contents()[i..])
      invariant !blocked ==> Parsing(Front(), whole, buf.Contents(), i, frames)
      invariant Reported(frames, was, vision.Value())
      decreases !blocked, buf.length - i
    {
      i, frames, blocked := ParseAt(buf, vision, beyond, i, frames, whole, was);
    }
    if blocked {
      if i > 0 {
        buf.ShiftLeft(i);
      }
    } else {
      buf.KeepLast();
    }
  }

  lemma {:induction false} MeaningConcat(a: seq<seq<Byte>>, b: seq<seq<Byte>>, v: View)
    ensures MeaningAll(DecodeEach(a + b), v) == MeaningAll(DecodeEach(b), MeaningAll(DecodeEach(a), v))
    decreases |b|
  {
    if |b| == 0 {
      assert a + b == a;
    } else {
      LastOfTwo(a, b);
      DecodeEachSplits(a + b);
      DecodeEachSplits(b);
      MeaningConcat(a, b[..|b| - 1], v);
    }
  }

  lemma {:induction false} DoubtConcat(a: seq<seq<Byte>>, b: seq<seq<Byte>>)
    ensures DoubtAll(a + b, CERTAIN) == DoubtAll(b, DoubtAll(a, CERTAIN))
    decreases |b|
  {
    if |b| == 0 {
      assert a + b == a;
    } else {
      LastOfTwo(a, b);
      DoubtConcat(a, b[..|b| - 1]);
    }
  }

  lemma OnePasses(frame: seq<Byte>, d: Doubt, v: View, w: View)
    requires Agrees(d, v, w)
    ensures Agrees(DoubtAfter(frame, d), Meaning(Decode(frame), v), Meaning(Decode(frame), w))
  {
  }

  // Frames handled from two views that agree but for `d`: no more is in doubt after them than `d` before them accounts for.
  lemma {:induction false} DoubtPasses(frames: seq<seq<Byte>>, d: Doubt, v: View, w: View)
    requires Agrees(d, v, w)
    ensures Agrees(DoubtAll(frames, d), MeaningAll(DecodeEach(frames), v), MeaningAll(DecodeEach(frames), w))
  {
    if |frames| > 0 {
      var init, last := frames[..|frames| - 1], frames[|frames| - 1];
      DecodeEachSplits(frames);
      DoubtPasses(init, d, v, w);
      OnePasses(last, DoubtAll(init, d), MeaningAll(DecodeEach(init), v), MeaningAll(DecodeEach(init), w));
    }
  }

  lemma UnsettledGrows(p: Packet, d: Doubt, e: Doubt)
    requires Within(d, e)
    ensures Within(Unsettled(p, d), Unsettled(p, e))
  {
  }

  lemma OneGrows(frame: seq<Byte>, d: Doubt, e: Doubt)
    requires Within(d, e)
    ensures Within(DoubtAfter(frame, d), DoubtAfter(frame, e))
  {
    UnsettledGrows(Decode(frame), d, e);
  }

  lemma {:induction false} DoubtGrows(frames: seq<seq<Byte>>, d: Doubt)
    ensures Within(DoubtAll(frames, CERTAIN), DoubtAll(frames, d))
  {
    if |frames| > 0 {
      var init, last := frames[..|frames| - 1], frames[|frames| - 1];
      DoubtGrows(init, d);
      OneGrows(last, DoubtAll(init, CERTAIN), DoubtAll(init, d));
    }
  }

  lemma {:induction false} ReportedMore(frames: seq<seq<Byte>>, got: seq<seq<Byte>>, was: View, mid: View, now: View)
    requires Reported(frames, was, mid) && Reported(got, mid, now)
    ensures Reported(frames + got, was, now)
  {
    MeaningConcat(frames, got, was);
    DoubtConcat(frames, got);
    DoubtPasses(got, DoubtAll(frames, CERTAIN), mid, MeaningAll(DecodeEach(frames), was));
    DoubtGrows(got, DoubtAll(frames, CERTAIN));
  }

  /** The reads never meet a full buffer, so the overflow reset never fires. */
  predicate Roomy(kept: seq<Byte>, chunks: seq<seq<Byte>>)
    decreases |chunks|
  {
    |chunks| > 0 ==>
      |kept| + |chunks[0]| <= CAPACITY && Roomy(Scan(Front(), kept + chunks[0]).residue, chunks[1..])
  }

  /** The receive thread over any sequence of reads, blocked streams and overflow resets included. */
  method RxEntry(buf: RxBuffer, vision: Vision, beyond: seq<Byte>, chunks: seq<seq<Byte>>)
    returns (frames: seq<seq<Byte>>)
    requires buf.Valid() && 5 <= |beyond|
    requires forall c | c in chunks :: |c| <= CAPACITY
    modifies buf`length, buf.data, vision
    ensures buf.Valid()
    ensures Scanned(frames, buf.Contents()) == Reads(Front(), old(buf.Contents()), chunks)
    ensures Reported(frames, old(vision.Value()), vision.Value())
  {
    ghost var whole, was := Reads(Front(), buf.Contents(), chunks), vision.Value();
    StartReading(Front(), buf.Contents(), chunks);
    frames := [];
    var rest := chunks;
    while |rest| > 0
      invariant buf.Valid()
      invariant forall c | c in rest :: |c| <= CAPACITY
      invariant Reading(Front(), whole, frames, buf.Contents(), rest)
      invariant Reported(frames, was, vision.Value())
    {
      frames := ReadOne(buf, vision, beyond, rest, frames, whole, was);
      rest := rest[1..];
    }
    ReadingEnds(Front(), whole, frames, buf.Contents(), rest);
  }

  // One read of the receive thread.
  method ReadOne(buf: RxBuffer, vision: Vision, beyond: seq<Byte>, chunks: seq<seq<Byte>>, frames: seq<seq<Byte>>,
                 ghost whole: Scanned<seq<Byte>>, ghost was: View)
    returns (frames': seq<seq<Byte>>)
    requires buf.Valid() && 5 <= |beyond| && |chunks| > 0 && |chunks[0]| <= CAPACITY
    requires Reading(Front(), whole, frames, buf.Contents(), chunks)
    requires Reported(frames, was, vision.Value())
    modifies buf`length, buf.data, vision
    ensures buf.Valid()
    ensures Reading(Front(), whole, frames', buf.Contents(), chunks[1..])
    ensures Reported(frames', was, vision.Value())
  {
    ghost var kept, mid := buf.Contents(), vision.Value();
    buf.Receive(chunks[0]);
    var got := TryParse(buf, vision, beyond);
    frames' := frames + got;
    ReportedMore(frames, got, was, mid, vision.Value());
    ReadingTurn(Front(), whole, frames, kept, chunks, Scanned(got, buf.Contents()));
  }

  /** While there is room, the reads are one scan of the whole stream. */
  lemma {:induction false} RoomyReads(kept: seq<Byte>, chunks: seq<seq<Byte>>)
    requires Next(kept).Wait? && Roomy(kept, chunks)
    ensures Reads(Front(), kept, chunks) == Scan(Front(), kept + Flatten(chunks))
    decreases |chunks|
  {
    if |chunks| == 0 {
      assert kept + Flatten(chunks) == kept;
    } else {
      FlattenSplit(kept, chunks);
      var s := kept + chunks[0];
      ScanStopsWaiting(Front(), s);
      FrontIsSteadfast();
      ScanResumes(Front(), s, Flatten(chunks[1..]));
      RoomyReads(Scan(Front(), s).residue, chunks[1..]);
    }
  }

  /** Any stream that fits the buffer as a whole leaves room. */
  lemma {:induction false} ShortStreamsAreRoomy(kept: seq<Byte>, chunks: seq<seq<Byte>>)
    requires |kept| + |Flatten(chunks)| <= CAPACITY
    ensures Roomy(kept, chunks)
    decreases |chunks|
  {
    if |chunks| > 0 {
      FlattenSplit(kept, chunks);
      ScanStopsWaiting(Front(), kept + chunks[0]);
      ShortStreamsAreRoomy(Scan(Front(), kept + chunks[0]).residue, chunks[1..]);
    }
  }

  // --- Whole sessions ------------------------------------------------------

  lemma WaitsInsidePacket(p: Packet, n: nat)
    requires n < |p.Encode()|
    ensures Next(p.Encode()[..n]).Wait?
  {
  }

  /** After any prefix of a packet stream less than one packet is kept. */
  lemma {:induction false} PrefixKeepsFew(ps: seq<Packet>, n: nat)
    requires n <= |EncodeAll(ps)|
    ensures |Scan(Front(), EncodeAll(ps)[..n]).residue| <= 6
    decreases |ps|
  {
    if |ps| > 0 {
      var first, tail := ps[0].Encode(), EncodeAll(ps[1..]);
      PrefixOfTwo(first, tail, n);
      if n < |first| {
        WaitsInsidePacket(ps[0], n);
      } else {
        PrefixKeepsFew(ps[1..], n - |first|);
        ScanPacket(ps[0], tail[..n - |first|]);
      }
    }
  }

  /** Reads of at most 394 bytes of a packet stream always leave room. */
  lemma {:induction false} SessionsAreRoomy(ps: seq<Packet>, done: seq<Byte>, chunks: seq<seq<Byte>>)
    requires done + Flatten(chunks) == EncodeAll(ps)
    requires forall c | c in chunks :: |c| <= CAPACITY - 6
    ensures Roomy(Scan(Front(), done).residue, chunks)
    decreases |chunks|
  {
    if |chunks| > 0 {
      FlattenSplit(done, chunks);
      assert EncodeAll(ps)[..|done|] == done;
      PrefixKeepsFew(ps, |done|);
      FrontIsSteadfast();
      ScanResumes(Front(), done, chunks[0]);
      SessionsAreRoomy(ps, done + chunks[0], chunks[1..]);
    }
  }

  ghost predicate NoneEchoes(ps: seq<Packet>) {
    forall p | p in ps :: !Echoes(p.Encode())
  }

  lemma {:induction false} SessionIsQuiet(ps: seq<Packet>)
    requires NoneEchoes(ps)
    ensures DoubtAll(EncodeEach(ps), CERTAIN) == CERTAIN
  {
    if |ps| > 0 {
      EncodeEachSplits(ps);
      SessionIsQuiet(ps[..|ps| - 1]);
    }
  }

  lemma {:induction false} PacketRoundTrip(p: Packet)
    ensures Decode(p.Encode()) == p
  {
  }

  lemma SettlesMore(p: Packet, d: Doubt, e: Doubt)
    requires !Echoes(p.Encode())
    ensures DoubtAfter(p.Encode(), d) == Unsettled(p, d)
    ensures Within(Unsettled(p, d), d)
    ensures Within(d, e) ==> Within(Unsettled(p, d), Unsettled(p, e))
  {
    PacketRoundTrip(p);
  }

  /** Whatever was in doubt: packets that do not echo leave in doubt no more than each one of them alone. */
  lemma {:induction false} QuietPacketsSettle(ps: seq<Packet>, d: Doubt)
    requires NoneEchoes(ps)
    ensures Within(DoubtAll(EncodeEach(ps), d), d)
    ensures forall p | p in ps :: Within(DoubtAll(EncodeEach(ps), d), Unsettled(p, d))
  {
    if |ps| > 0 {
      var init, last := ps[..|ps| - 1], ps[|ps| - 1];
      EncodeEachSplits(ps);
      QuietPacketsSettle(init, d);
      SettlesMore(last, DoubtAll(EncodeEach(init), d), d);
      assert forall p | p in ps :: p in init || p == last;
    }
  }

  lemma DecodeEncodeEach(ps: seq<Packet>)
    ensures DecodeEach(EncodeEach(ps)) == ps
  {
    forall i | 0 <= i < |ps| ensures DecodeEach(EncodeEach(ps))[i] == ps[i] {
      PacketRoundTrip(ps[i]);
    }
  }

  /**
    Any packets of the camera none of which echoes, delivered in any reads of
    at most 394 bytes to an empty buffer: exactly these packets reach the
    handler, nothing is left over, and the controller's view is what the
    packets reported, taken in order.
   */
  method Session(buf: RxBuffer, vision: Vision, beyond: seq<Byte>, chunks: seq<seq<Byte>>, ghost ps: seq<Packet>)
    returns (frames: seq<seq<Byte>>)
    requires buf.Valid() && buf.length == 0 && 5 <= |beyond|
    requires Flatten(chunks) == EncodeAll(ps) && NoneEchoes(ps)
    requires forall c | c in chunks :: |c| <= CAPACITY - 6
    modifies buf`length, buf.data, vision
    ensures buf.Valid() && buf.length == 0
    ensures frames == EncodeEach(ps)
    ensures vision.Value() == MeaningAll(ps, old(vision.Value()))
  {
    assert buf.Contents() == [] && [] + Flatten(chunks) == EncodeAll(ps);
    SessionsAreRoomy(ps, [], chunks);
    StreamIsDelivered(ps);
    SessionIsQuiet(ps);
    DecodeEncodeEach(ps);
    RoomyReads([], chunks);
    frames := RxEntry(buf, vision, beyond, chunks);
  }
}
