/**
  The command stream from the desktop panel to the controller: the panel's
  encoders (serial_panel.py), the in-place parser (uart5_port.c) and the
  command handler (usart5.c).
 */
module CommandLink {
  import opened Streams
  import opened Options
  import opened RxBuffers

  // --- The parser's moves --------------------------------------------------

  /** The parser has one look-ahead rule per frame length, the longer one first. */
  function Next(s: seq<Byte>): Move<seq<Byte>> {
    if |s| == 0 then Wait
    else if s[0] != 0xAA then if |s| == 1 then Wait else Drop(1)
    else if |s| > 8 && s[1] == 0x60 && s[8] == 0x55 then Take(9, s[..9])
    else if |s| > 3 && s[3] == 0x55 then Take(4, s[..4])
    else Wait
  }

  function Front(): (next: Parser<seq<Byte>>)
    ensures Proper(next)
  {
    s => Next(s)
  }

  // --- Streams that block the parser ---------------------------------------

  /**
    A header whose fourth byte has arrived and is no tail, unless it begins a
    clock frame that is still incomplete.
   */
  predicate Blocked(kept: seq<Byte>) {
    |kept| >= 4 && kept[0] == 0xAA && kept[3] != 0x55 && !(kept[1] == 0x60 && |kept| <= 8)
  }

  // Bytes that would complete a frame.
  function Completion(kept: seq<Byte>): seq<Byte>
    requires Next(kept).Wait? && !Blocked(kept)
  {
    if |kept| == 0 || kept[0] != 0xAA then [0xAA, 0x10, 0x01, 0x55]
    else if |kept| < 4 then seq(4 - |kept|, _ => 0x55)
    else seq(9 - |kept|, _ => 0x55)
  }

  lemma CompletionCompletes(kept: seq<Byte>)
    requires Next(kept).Wait? && !Blocked(kept)
    ensures |Scan(Front(), kept + Completion(kept)).items| >= 1
  {
    var s := kept + Completion(kept);
    if |kept| == 0 || kept[0] == 0xAA {
      TakesFrame(s);
    } else {
      assert Next(s) == Drop(1) && s[1..] == Completion(kept);
      TakesFrame(s[1..]);
    }
  }

  lemma TakesFrame(s: seq<Byte>)
    requires Next(s).Take?
    ensures |Scan(Front(), s).items| >= 1
  {
  }

  /** Exactly when no further input can ever produce another frame, an emergency stop included; only the overflow reset ends this. */
  lemma {:induction false} BlockedForGood(kept: seq<Byte>)
    requires Next(kept).Wait?
    ensures Blocked(kept) <==> forall t :: Scan(Front(), kept + t).items == []
  {
    if Blocked(kept) {
      forall t ensures Scan(Front(), kept + t).items == [] {
        assert Next(kept + t).Wait?;
      }
    } else {
      CompletionCompletes(kept);
    }
  }

  /** Every read is swallowed until the first that does not fit; that one is parsed as if nothing had been kept. */
  lemma {:induction false} SilentUntilOverflow(kept: seq<Byte>, before: seq<seq<Byte>>, after: seq<seq<Byte>>)
    requires Next(kept).Wait? && Blocked(kept) && |kept| + |Flatten(before)| <= CAPACITY
    ensures Reads(Front(), kept, before) == Scanned([], kept + Flatten(before))
    ensures |after| > 0 && |after[0]| <= CAPACITY < |kept| + |Flatten(before)| + |after[0]| ==>
              Reads(Front(), kept, before + after) == Reads(Front(), [], after)
  {
    forall t ensures Front()(kept + t).Wait? {
      assert Next(kept + t).Wait?;
    }
    StuckUntilOverflow(Front(), kept, before, after);
  }

  // --- Where cutting the stream matters ------------------------------------

  /** A clock frame whose fourth byte is the frame tail; its first four bytes read as a command. */
  predicate Ambiguous(frame: seq<Byte>) {
    |frame| == 9 && frame[3] == 0x55
  }

  /** No move made on the whole stream takes an ambiguous frame. */
  predicate CutSafe(s: seq<Byte>)
    decreases |s|
  {
    match Next(s)
    case Wait => true
    case Drop(n) => CutSafe(s[n..])
    case Take(n, frame) => !Ambiguous(frame) && CutSafe(s[n..])
  }

  lemma {:induction false} CutSafeMeaning(s: seq<Byte>)
    ensures CutSafe(s) <==> forall f | f in Scan(Front(), s).items :: !Ambiguous(f)
    decreases |s|
  {
    if !Next(s).Wait? {
      var rest := Scan(Front(), s[Next(s).count..]);
      CutSafeMeaning(s[Next(s).count..]);
      if Next(s).Take? {
        assert Scan(Front(), s).items == [Next(s).item] + rest.items;
        assert forall f :: f in [Next(s).item] + rest.items <==> f == Next(s).item || f in rest.items;
      }
    }
  }

  // Bytes `a` arrive and are parsed; then `b` arrives.
  function Resume(a: seq<Byte>, b: seq<Byte>): Scanned<seq<Byte>> {
    var first := Scan(Front(), a);
    Emit(first.items, Scan(Front(), first.residue + b))
  }

  predicate CutShows(a: seq<Byte>, b: seq<Byte>) {
    Resume(a, b) != Scan(Front(), a + b)
  }

  lemma NextKeepsItsMove(s: seq<Byte>, t: seq<Byte>)
    requires !Next(s).Wait?
    ensures Next(s + t) == Next(s) || (Next(s + t).Take? && Ambiguous(Next(s + t).item))
  {
    var n := Next(s).count;
    assert (s + t)[..n] == s[..n];
  }

  lemma AfterFront(s: seq<Byte>, t: seq<Byte>, n: nat)
    requires n <= |s|
    ensures (s + t)[n..] == s[n..] + t
  {
  }

  lemma {:induction false} SafeScanResumes(s: seq<Byte>, t: seq<Byte>)
    requires CutSafe(s + t)
    ensures Scan(Front(), s + t) == Emit(Scan(Front(), s).items, Scan(Front(), Scan(Front(), s).residue + t))
    ensures CutSafe(Scan(Front(), s).residue + t)
    ensures CutSafe(s)
    decreases |s|
  {
    var later := Scan(Front(), Scan(Front(), s).residue + t);
    if Next(s).Wait? {
      EmitAppends([], [], later);
    } else {
      var n := Next(s).count;
      AfterFront(s, t, n);
      NextKeepsItsMove(s, t);
      SafeScanResumes(s[n..], t);
      if Next(s).Take? {
        EmitAppends([Next(s).item], Scan(Front(), s[n..]).items, later);
      }
    }
  }

  lemma {:induction false} SafeFeed(residue: seq<Byte>, chunks: seq<seq<Byte>>)
    requires Next(residue).Wait? && CutSafe(residue + Flatten(chunks))
    ensures Feed(Front(), residue, chunks) == Scan(Front(), residue + Flatten(chunks))
    decreases |chunks|
  {
    if |chunks| == 0 {
      assert residue + Flatten(chunks) == residue;
    } else {
      FlattenSplit(residue, chunks);
      var s := residue + chunks[0];
      ScanStopsWaiting(Front(), s);
      SafeScanResumes(s, Flatten(chunks[1..]));
      SafeFeed(Scan(Front(), s).residue, chunks[1..]);
    }
  }

  /** Where to cut a stream that is not safe: four bytes into its first ambiguous frame. */
  function CutPoint(s: seq<Byte>): (n: nat)
    requires !CutSafe(s)
    ensures 4 <= n <= |s|
    decreases |s|
  {
    if Next(s).Take? && Ambiguous(Next(s).item) then 4
    else Next(s).count + CutPoint(s[Next(s).count..])
  }

  lemma {:induction false} UnsafeCut(s: seq<Byte>, a: seq<Byte>, b: seq<Byte>)
    requires !CutSafe(s)
    requires s == a + b && |a| == CutPoint(s)
    ensures CutShows(a, b)
    decreases |s|
  {
    if Next(s).Take? && Ambiguous(Next(s).item) {
      CutInsideClock(a, b);
    } else {
      var m := Next(s).count;
      assert s[m..] == a[m..] + b;
      UnsafeCut(s[m..], a[m..], b);
      CutFurtherOn(a, b);
    }
  }

  // Delivered after four bytes, an ambiguous clock frame is taken for a command.
  lemma CutInsideClock(a: seq<Byte>, b: seq<Byte>)
    requires Next(a + b).Take? && Ambiguous(Next(a + b).item) && |a| == 4
    ensures CutShows(a, b)
  {
    assert a[..4] == a && Next(a) == Take(4, a);
    assert Resume(a, b).items[0] == a;
    assert |Scan(Front(), a + b).items[0]| == 9;
  }

  function Lead(s: seq<Byte>, rest: Scanned<seq<Byte>>): Scanned<seq<Byte>> {
    if Next(s).Take? then Emit([Next(s).item], rest) else rest
  }

  lemma LeadIsInjective(s: seq<Byte>, a: Scanned<seq<Byte>>, b: Scanned<seq<Byte>>)
    requires Lead(s, a) == Lead(s, b)
    ensures a == b
  {
    if Next(s).Take? {
      assert Lead(s, a).items[1..] == a.items && Lead(s, b).items[1..] == b.items;
    }
  }

  lemma ResumeLeads(a: seq<Byte>, b: seq<Byte>)
    requires !Next(a).Wait?
    ensures Resume(a, b) == Lead(a, Resume(a[Next(a).count..], b))
  {
    if Next(a).Take? {
      var first := Scan(Front(), a[Next(a).count..]);
      EmitAppends([Next(a).item], first.items, Scan(Front(), first.residue + b));
    }
  }

  lemma SameFirstMove(a: seq<Byte>, b: seq<Byte>)
    requires !Next(a + b).Wait? && Next(a + b).count + 4 <= |a|
    ensures Next(a) == Next(a + b)
    ensures (a + b)[Next(a + b).count..] == a[Next(a + b).count..] + b
  {
    var m := Next(a + b).count;
    assert (a + b)[..m] == a[..m];
  }

  lemma {:induction false} CutFurtherOn(a: seq<Byte>, b: seq<Byte>)
    requires !Next(a + b).Wait? && Next(a + b).count + 4 <= |a|
    requires CutShows(a[Next(a + b).count..], b)
    ensures CutShows(a, b)
  {
    SameFirstMove(a, b);
    var rest := a[Next(a).count..];
    ResumeLeads(a, b);
    if !CutShows(a, b) {
      LeadIsInjective(a, Resume(rest, b), Scan(Front(), rest + b));
    }
  }

  lemma {:induction false} SafeInAnyChunks(s: seq<Byte>, chunks: seq<seq<Byte>>)
    requires CutSafe(s) && Flatten(chunks) == s
    ensures Feed(Front(), [], chunks) == Scan(Front(), s)
  {
    assert [] + Flatten(chunks) == s;
    SafeFeed([], chunks);
  }

  lemma {:induction false} MisreadInTwoChunks(a: seq<Byte>, b: seq<Byte>)
    requires CutShows(a, b)
    ensures Flatten([a, b]) == a + b
    ensures Feed(Front(), [], [a, b]) != Scan(Front(), a + b)
  {
    FlattenTwo(a, b);
    FeedTwo(a, b);
  }

  ghost predicate CutsDoNotMatterFor(s: seq<Byte>) {
    forall chunks | Flatten(chunks) == s :: Feed(Front(), [], chunks) == Scan(Front(), s)
  }

  /** Exactly when the parser does not care how a stream is cut into chunks. */
  lemma CutSafeIffCutsDoNotMatter(s: seq<Byte>)
    ensures CutSafe(s) <==> CutsDoNotMatterFor(s)
  {
    if CutSafe(s) {
      forall chunks | Flatten(chunks) == s ensures Feed(Front(), [], chunks) == Scan(Front(), s) {
        SafeInAnyChunks(s, chunks);
      }
    } else {
      var a, b := s[..CutPoint(s)], s[CutPoint(s)..];
      assert a + b == s;
      UnsafeCut(s, a, b);
      MisreadInTwoChunks(a, b);
    }
  }

  lemma FlattenTwo(a: seq<Byte>, b: seq<Byte>)
    ensures Flatten([a, b]) == a + b
  {
    assert [a, b][1..] == [b];
    assert Flatten([b]) == b + Flatten([b][1..]);
  }

  lemma FeedTwo(a: seq<Byte>, b: seq<Byte>)
    ensures Feed(Front(), [], [a, b]) == Resume(a, b)
  {
    assert [a, b][1..] == [b];
    FeedOneChunk(Scan(Front(), a).residue, b);
    assert [] + a == a;
  }

  lemma FeedOneChunk(residue: seq<Byte>, b: seq<Byte>)
    ensures Feed(Front(), residue, [b]) == Scan(Front(), residue + b)
  {
    var r := Scan(Front(), residue + b);
    assert [b][1..] == [];
    assert r.items + [] == r.items;
  }

  // --- Messages of the panel -----------------------------------------------

  datatype Message =
    | SeekLight(on: bool)
    | Pump(on: bool)
    | FillLight(on: bool)
    | Emergency(on: bool)
    | PlantType(code: Byte)
    | Clock(year: Byte, month: Byte, day: Byte, hour: Byte, minute: Byte, second: Byte)
  {
    // What the panel's widgets and the calendar can produce.
    predicate Valid() {
      match this
      case PlantType(code) => 1 <= code <= 3
      case Clock(y, mo, d, h, mi, s) => y < 100 && 1 <= mo <= 12 && 1 <= d <= 31 && h < 24 && mi < 60 && s < 60
      case _ => true
    }

    function Encode(): seq<Byte> {
      match this
      case SeekLight(on) => Command(0x10, if on then 0x02 else 0x01)
      case Pump(on) => Command(0x20, if on then 0x01 else 0x00)
      case FillLight(on) => Command(0x30, if on then 0x01 else 0x00)
      case Emergency(on) => Command(0x40, if on then 0x01 else 0x00)
      case PlantType(code) => Command(0x70, code)
      case Clock(y, mo, d, h, mi, s) => [0xAA, 0x60, y, mo, d, h, mi, s, 0x55]
    }
  }

  function Command(command: Byte, value: Byte): seq<Byte> {
    [0xAA, command, value, 0x55]
  }

  // The panel writes its frames as hexadecimal text, two digits a byte, and sends what the text denotes.
  function HexDigit(n: nat): char
    requires n < 16
  {
    "0123456789ABCDEF"[n]
  }

  function HexText(bytes: seq<Byte>): string {
    if |bytes| == 0 then ""
    else [HexDigit(bytes[0] / 16), HexDigit(bytes[0] % 16)] + (if |bytes| == 1 then "" else " " + HexText(bytes[1..]))
  }

  function HexValue(c: char): Option<nat> {
    if '0' <= c <= '9' then Some((c - '0') as int)
    else if 'A' <= c <= 'F' then Some((c - 'A') as int + 10)
    else if 'a' <= c <= 'f' then Some((c - 'a') as int + 10)
    else None
  }

  // bytes.fromhex: blanks are skipped between bytes, anything else unpaired is an error.
  function FromHex(text: string): Option<seq<Byte>>
    decreases |text|
  {
    if |text| == 0 then Some([])
    else if text[0] == ' ' then FromHex(text[1..])
    else if |text| == 1 then None
    else
      match (HexValue(text[0]), HexValue(text[1]), FromHex(text[2..]))
      case (Some(high), Some(low), Some(rest)) => if high < 16 && low < 16 then Some([high * 16 + low] + rest) else None
      case _ => None
  }

  lemma HexByte(b: Byte)
    ensures HexValue(HexDigit(b / 16)) == Some(b / 16) && HexValue(HexDigit(b % 16)) == Some(b % 16)
    ensures HexDigit(b / 16) != ' '
  {
    HexDigitRoundTrip(b / 16);
    HexDigitRoundTrip(b % 16);
  }

  lemma HexDigitRoundTrip(n: nat)
    requires n < 16
    ensures HexValue(HexDigit(n)) == Some(n) && HexDigit(n) != ' '
  {
  }

  lemma {:induction false} FromHexPair(b: Byte, tail: string, rest: seq<Byte>)
    requires FromHex(tail) == Some(rest)
    ensures FromHex([HexDigit(b / 16), HexDigit(b % 16)] + tail) == Some([b] + rest)
  {
    var text := [HexDigit(b / 16), HexDigit(b % 16)] + tail;
    assert text[2..] == tail;
    HexByte(b);
  }

  lemma FromHexBlank(tail: string)
    ensures FromHex(" " + tail) == FromHex(tail)
  {
    assert (" " + tail)[1..] == tail;
  }

  /** What the panel puts on the wire is what its text spells. */
  lemma {:induction false} HexTextRoundTrip(bytes: seq<Byte>)
    ensures FromHex(HexText(bytes)) == Some(bytes)
    decreases |bytes|
  {
    if |bytes| > 0 {
      var rest := bytes[1..];
      assert bytes == [bytes[0]] + rest;
      HexTextRoundTrip(rest);
      FromHexBlank(HexText(rest));
      FromHexPair(bytes[0], if |bytes| == 1 then "" else " " + HexText(rest), rest);
    }
  }

  function EncodeAll(ms: seq<Message>): seq<Byte> {
    if |ms| == 0 then [] else ms[0].Encode() + EncodeAll(ms[1..])
  }

  function EncodeEach(ms: seq<Message>): seq<seq<Byte>> {
    seq(|ms|, i requires 0 <= i < |ms| => ms[i].Encode())
  }

  lemma EncodeEachSplits(ms: seq<Message>)
    requires |ms| > 0
    ensures EncodeEach(ms) == [ms[0].Encode()] + EncodeEach(ms[1..])
    ensures EncodeEach(ms)[..|ms| - 1] == EncodeEach(ms[..|ms| - 1])
    ensures EncodeEach(ms)[|ms| - 1] == ms[|ms| - 1].Encode()
  {
  }

  ghost predicate AllValid(ms: seq<Message>) {
    forall m | m in ms :: m.Valid()
  }

  lemma {:induction false} FrontMessage(m: Message, rest: seq<Byte>)
    requires m.Valid()
    ensures Next(m.Encode() + rest) == Take(|m.Encode()|, m.Encode())
    ensures !Ambiguous(m.Encode())
    ensures (m.Encode() + rest)[|m.Encode()|..] == rest
  {
    var s := m.Encode() + rest;
    assert s[..|m.Encode()|] == m.Encode();
  }

  lemma ScanMessage(m: Message, rest: seq<Byte>)
    requires m.Valid()
    ensures Scan(Front(), m.Encode() + rest) == Emit([m.Encode()], Scan(Front(), rest))
  {
    FrontMessage(m, rest);
  }

  lemma {:induction false} SessionIsCutSafe(ms: seq<Message>)
    requires AllValid(ms)
    ensures CutSafe(EncodeAll(ms))
    ensures Scan(Front(), EncodeAll(ms)) == Scanned(EncodeEach(ms), [])
    decreases |ms|
  {
    if |ms| > 0 {
      EncodeEachSplits(ms);
      FrontMessage(ms[0], EncodeAll(ms[1..]));
      SessionIsCutSafe(ms[1..]);
    }
  }

  /** However the panel's bytes are cut, the parser delivers exactly the frames that were sent. */
  lemma {:induction false} SessionIsDelivered(ms: seq<Message>, chunks: seq<seq<Byte>>)
    requires AllValid(ms)
    requires Flatten(chunks) == EncodeAll(ms)
    ensures Feed(Front(), [], chunks) == Scanned(EncodeEach(ms), [])
  {
    SessionIsCutSafe(ms);
    SafeInAnyChunks(EncodeAll(ms), chunks);
  }

  /** A month byte equal to the frame tail would break this: the clock frame, cut after four bytes, is read as a command. */
  lemma MonthOfTailByteIsMisread()
    ensures var head, rest := [0xAA, 0x60, 26, 0x55], [1, 12, 0, 0, 0x55];
            && Next(head + rest) == Take(9, head + rest)
            && Flatten([head, rest]) == head + rest
            && Feed(Front(), [], [head, rest]) != Scan(Front(), head + rest)
  {
    var head: seq<Byte>, rest: seq<Byte> := [0xAA, 0x60, 26, 0x55], [1, 12, 0, 0, 0x55];
    assert (head + rest)[..9] == head + rest;
    CutInsideClock(head, rest);
    MisreadInTwoChunks(head, rest);
  }

  // --- The command handler -------------------------------------------------

  datatype Control = Control(
    maixMode: Byte, plantLeafInspection: Byte, startTime: U16, lightState: Byte,
    water: Byte, lightOn: Byte, motor: Byte, plantType: Byte,
    year: Byte, month: Byte, day: Byte, hour: Byte, minute: Byte, second: Byte)

  /** What a message asks for. */
  function Meaning(m: Message, c: Control): Control {
    match m
    case SeekLight(false) => c.(maixMode := 1, plantLeafInspection := 1, startTime := 0)
    case SeekLight(true) => c.(maixMode := 2, startTime := 0, lightState := if c.lightState == 5 then 1 else c.lightState)
    case Pump(on) => c.(water := if on then 1 else 0)
    case FillLight(on) => c.(lightOn := if on then 1 else 0)
    case Emergency(on) => c.(motor := if on then 0 else 1)
    case PlantType(code) => c.(plantType := code)
    case Clock(y, mo, d, h, mi, s) => c.(year := y, month := mo, day := d, hour := h, minute := mi, second := s)
  }

  function MeaningAll(ms: seq<Message>, c: Control): Control {
    if |ms| == 0 then c else Meaning(ms[|ms| - 1], MeaningAll(ms[..|ms| - 1], c))
  }

  // The handler's reaction to the four bytes of a command.
  function ObeyCommand(command: Byte, value: Byte, c: Control): Control {
    if command == 0x10 then
      if value == 0x01 then c.(maixMode := 1, plantLeafInspection := 1, startTime := 0)
      else if value == 0x02 then c.(lightState := if c.lightState == 5 then 1 else c.lightState, maixMode := 2, startTime := 0)
      else c
    else if command == 0x20 then
      if value == 0x00 then c.(water := 0) else if value == 0x01 then c.(water := 1) else c
    else if command == 0x30 then
      if value == 0x00 then c.(lightOn := 0) else if value == 0x01 then c.(lightOn := 1) else c
    else if command == 0x40 then
      if value == 0x01 then c.(motor := 0) else if value == 0x00 then c.(motor := 1) else c
    else if command == 0x70 then
      if 1 <= value <= 3 then c.(plantType := value) else c
    else c
  }

  // The handler's work at offset `i` of the memory it is given.
  function ObeyAt(data: seq<Byte>, i: nat, c: Control): Control
    requires i + 8 < |data|
  {
    if data[i] != 0xAA then c
    else
      var c' := if data[i + 3] == 0x55 then ObeyCommand(data[i + 1], data[i + 2], c) else c;
      if data[i + 1] == 0x60 && data[i + 8] == 0x55 then
        c'.(year := data[i + 2], month := data[i + 3], day := data[i + 4],
            hour := data[i + 5], minute := data[i + 6], second := data[i + 7])
      else c'
  }

  // The handler's work at offsets `0 .. n`.
  function Obey(data: seq<Byte>, n: nat, c: Control): Control
    requires n + 8 <= |data|
  {
    if n == 0 then c else ObeyAt(data, n - 1, Obey(data, n - 1, c))
  }

  class Flags {
    var MaixMode_flag: Byte
    var Plantleaf_insflag: Byte
    var starttime_cnt: U16
    var Modestate_light: Byte
    var Water_flag: Byte
    var lightONOFF_flag: Byte
    var Motor_flag: Byte
    var Soil_PlantType: Byte
    var Year: Byte
    var Month: Byte
    var Day: Byte
    var Hour: Byte
    var Minute: Byte
    var Second: Byte

    function Value(): Control
      reads this
    {
      Control(MaixMode_flag, Plantleaf_insflag, starttime_cnt, Modestate_light, Water_flag, lightONOFF_flag,
              Motor_flag, Soil_PlantType, Year, Month, Day, Hour, Minute, Second)
    }

    /** One pass of the handler's loop. */
    method Step(data: seq<Byte>, i: nat)
      requires i + 8 < |data|
      modifies this
      ensures Value() == ObeyAt(data, i, old(Value()))
    {
      if data[i] == 0xAA && data[i + 3] == 0x55 {
        StepCommand(data[i + 1], data[i + 2]);
      }
      if data[i] == 0xAA && data[i + 1] == 0x60 && data[i + 8] == 0x55 {
        Year := data[i + 2];
        Month := data[i + 3];
        Day := data[i + 4];
        Hour := data[i + 5];
        Minute := data[i + 6];
        Second := data[i + 7];
      }
    }

    method StepCommand(command: Byte, value: Byte)
      modifies this
      ensures Value() == ObeyCommand(command, value, old(Value()))
    {
      if command == 0x10 {
        if value == 0x01 {
          MaixMode_flag := 1;
          Plantleaf_insflag := 1;
          starttime_cnt := 0;
        }
        if value == 0x02 {
          if Modestate_light == 5 {
            Modestate_light := 1;
          }
          MaixMode_flag := 2;
          starttime_cnt := 0;
        }
      }
      if command == 0x20 {
        if value == 0x00 { Water_flag := 0; }
        if value == 0x01 { Water_flag := 1; }
      }
      if command == 0x30 {
        if value == 0x00 { lightONOFF_flag := 0; }
        if value == 0x01 { lightONOFF_flag := 1; }
      }
      if command == 0x40 {
        if value == 0x01 { Motor_flag := 0; }
        if value == 0x00 { Motor_flag := 1; }
      }
      if command == 0x70 {
        if value == 0x01 { Soil_PlantType := 1; }
        if value == 0x02 { Soil_PlantType := 2; }
        if value == 0x03 { Soil_PlantType := 3; }
      }
    }

    /** The handler, given the memory that begins with a frame of `size` bytes; it may look seven bytes past the frame. */
    method PlantSoft_DataProc(data: seq<Byte>, size: nat)
      requires 0 < size && size + 7 <= |data|
      modifies this
      ensures Value() == Obey(data, size - 1, old(Value()))
    {
      for i := 0 to size - 1
        invariant Value() == Obey(data, i, old(Value()))
      {
        Step(data, i);
      }
    }
  }

  /** The handler does what the message asks, whatever bytes lie behind the frame. */
  lemma HandlerMeansMessage(m: Message, beyond: seq<Byte>, c: Control)
    requires m.Valid() && 7 <= |beyond|
    ensures Obey(m.Encode() + beyond, |m.Encode()| - 1, c) == Meaning(m, c)
  {
    var data := m.Encode() + beyond;
    NoFurtherHeader(data, |m.Encode()| - 1, c);
  }

  lemma {:induction false} NoFurtherHeader(data: seq<Byte>, n: nat, c: Control)
    requires 0 < n && n + 8 <= |data|
    requires forall i | 0 < i < n :: data[i] != 0xAA
    ensures Obey(data, n, c) == ObeyAt(data, 0, c)
  {
    if n > 1 {
      NoFurtherHeader(data, n - 1, c);
    } else {
      assert Obey(data, 0, c) == c;
    }
  }

  /** The handler knows the commands of the panel and no others: any other code or value leaves everything as it was. */
  lemma OtherCommandsDoNothing(command: Byte, value: Byte, c: Control)
    ensures forall m: Message | m.Valid() && m.Encode() == Command(command, value) ::
              ObeyCommand(command, value, c) == Meaning(m, c)
    ensures (forall m: Message | m.Valid() :: m.Encode() != Command(command, value)) ==>
              ObeyCommand(command, value, c) == c
    ensures 1 <= value <= 3 ==> ObeyCommand(0x70, value, c) == c.(plantType := value)
  {
    var sent := Command(command, value);
    forall m: Message | m.Valid() && m.Encode() == sent ensures ObeyCommand(command, value, c) == Meaning(m, c) {
      assert |m.Encode()| == 4 && m.Encode()[1] == command && m.Encode()[2] == value;
    }
    if ObeyCommand(command, value, c) != c {
      var on := if command == 0x10 then value == 2 else value == 1;
      var m := if command == 0x10 then SeekLight(on) else if command == 0x20 then Pump(on)
               else if command == 0x30 then FillLight(on) else if command == 0x40 then Emergency(on) else PlantType(value);
      assert m.Valid() && m.Encode() == sent;
    }
  }

  // --- The receive thread --------------------------------------------------

  /** A frame as the parser recognises it. */
  predicate Recognised(frame: seq<Byte>) {
    && (|frame| == 4 || (|frame| == 9 && frame[1] == 0x60))
    && frame[0] == 0xAA && frame[|frame| - 1] == 0x55
  }

  function ObeyFrame(frame: seq<Byte>, c: Control): Control {
    if |frame| == 0 then c else Obey(frame + [0, 0, 0, 0, 0, 0, 0], |frame| - 1, c)
  }

  function ObeyFrames(frames: seq<seq<Byte>>, c: Control): Control {
    if |frames| == 0 then c
    else ObeyFrame(frames[|frames| - 1], ObeyFrames(frames[..|frames| - 1], c))
  }

  // The control flags: everything but the clock.
  function Flagged(c: Control): Control {
    c.(year := 0, month := 0, day := 0, hour := 0, minute := 0, second := 0)
  }

  // At an offset inside a recognised frame, no byte behind the frame reaches the flags.
  lemma FlagsAtOffset(frame: seq<Byte>, a: seq<Byte>, b: seq<Byte>, i: nat, c: Control, d: Control)
    requires Recognised(frame) && 7 <= |a| && 7 <= |b| && i + 1 < |frame|
    requires Flagged(c) == Flagged(d)
    ensures Flagged(ObeyAt(frame + a, i, c)) == Flagged(ObeyAt(frame + b, i, d))
  {
  }

  /** Of a recognised frame the control flags depend on the frame alone, whatever bytes lie behind it and whatever the clock was. */
  lemma {:induction false} FlagsIgnoreMemory(frame: seq<Byte>, a: seq<Byte>, b: seq<Byte>, n: nat, c: Control, d: Control)
    requires Recognised(frame) && 7 <= |a| && 7 <= |b| && n < |frame|
    requires Flagged(c) == Flagged(d)
    ensures Flagged(Obey(frame + a, n, c)) == Flagged(Obey(frame + b, n, d))
  {
    if n > 0 {
      FlagsIgnoreMemory(frame, a, b, n - 1, c, d);
      FlagsAtOffset(frame, a, b, n - 1, Obey(frame + a, n - 1, c), Obey(frame + b, n - 1, d));
    }
  }

  /** Wherever the bytes of a clock command stand in the frame, its tail byte is looked for inside the frame. */
  predicate SelfContained(frame: seq<Byte>) {
    forall i | 0 <= i < |frame| - 1 && frame[i] == 0xAA && frame[i + 1] == 0x60 :: i + 8 < |frame|
  }

  predicate HandledAlike(frame: seq<Byte>, a: seq<Byte>, b: seq<Byte>, c: Control)
    requires |frame| > 0 && 7 <= |a| && 7 <= |b|
  {
    Obey(frame + a, |frame| - 1, c) == Obey(frame + b, |frame| - 1, c)
  }

  ghost predicate MemoryDoesNotMatter(frame: seq<Byte>)
    requires |frame| > 0
  {
    forall a, b, c | 7 <= |a| && 7 <= |b| :: HandledAlike(frame, a, b, c)
  }

  lemma {:induction false} SelfContainedSuffices(frame: seq<Byte>, a: seq<Byte>, b: seq<Byte>, n: nat, c: Control)
    requires Recognised(frame) && SelfContained(frame) && 7 <= |a| && 7 <= |b| && n < |frame|
    ensures Obey(frame + a, n, c) == Obey(frame + b, n, c)
  {
    if n > 0 {
      SelfContainedSuffices(frame, a, b, n - 1, c);
    }
  }

  // The last place in the frame where a clock command begins whose tail would lie behind the frame.
  lemma LastOpenClock(frame: seq<Byte>, n: nat) returns (i: nat)
    requires n < |frame| && !SelfContained(frame)
    requires forall j | n <= j < |frame| - 1 && frame[j] == 0xAA && frame[j + 1] == 0x60 :: j + 8 < |frame|
    ensures i < n && frame[i] == 0xAA && frame[i + 1] == 0x60 && |frame| <= i + 8
    ensures forall j | i < j < |frame| - 1 && frame[j] == 0xAA && frame[j + 1] == 0x60 :: j + 8 < |frame|
  {
    if n == 0 {
      assert false;
    } else if frame[n - 1] == 0xAA && frame[n] == 0x60 && |frame| <= n + 7 {
      i := n - 1;
    } else {
      i := LastOpenClock(frame, n - 1);
    }
  }

  // Memory that completes the clock command begun at `i`, with `second` as its seconds.
  function Behind(size: nat, i: nat, second: Byte): seq<Byte> {
    seq(7, k => if k + size == i + 8 then 0x55 else second)
  }

  lemma {:induction false} SecondIsRead(frame: seq<Byte>, i: nat, second: Byte, n: nat, c: Control)
    requires Recognised(frame) && i < n < |frame|
    requires frame[i] == 0xAA && frame[i + 1] == 0x60 && |frame| <= i + 8
    requires forall j | i < j < |frame| - 1 && frame[j] == 0xAA && frame[j + 1] == 0x60 :: j + 8 < |frame|
    ensures Obey(frame + Behind(|frame|, i, second), n, c).second == second
  {
    if n > i + 1 {
      SecondIsRead(frame, i, second, n - 1, c);
    }
  }

  /** Exactly when the bytes behind a recognised frame have no influence on its handling. */
  lemma {:induction false} MemoryDoesNotMatterIff(frame: seq<Byte>)
    requires Recognised(frame)
    ensures SelfContained(frame) <==> MemoryDoesNotMatter(frame)
  {
    if SelfContained(frame) {
      forall a, b, c | 7 <= |a| && 7 <= |b| ensures HandledAlike(frame, a, b, c) {
        SelfContainedSuffices(frame, a, b, |frame| - 1, c);
      }
    } else {
      var i := LastOpenClock(frame, |frame| - 1);
      var c := Control(0, 0, 0, 0, 0, 0, 0, 0, 0, 0, 0, 0, 0, 0);
      SecondIsRead(frame, i, 1, |frame| - 1, c);
      SecondIsRead(frame, i, 2, |frame| - 1, c);
      assert !HandledAlike(frame, Behind(|frame|, i, 1), Behind(|frame|, i, 2), c);
    }
  }

  /** The first four bytes of a clock frame with the tail byte as its month: as a frame of its own it sets the clock from the memory behind it. */
  lemma {:induction false} ShortClockReadsMemory(c: Control)
    ensures var frame: seq<Byte> := [0xAA, 0x60, 26, 0x55];
            && Recognised(frame) && !SelfContained(frame)
            && Obey(frame + [1, 12, 0, 59, 0x55, 0, 0], 3, c) ==
               c.(year := 26, month := 0x55, day := 1, hour := 12, minute := 0, second := 59)
            && Obey(frame + [0, 0, 0, 0, 0, 0, 0], 3, c) == c
  {
    var frame: seq<Byte> := [0xAA, 0x60, 26, 0x55];
    assert frame[0] == 0xAA && frame[1] == 0x60;
    OnlyAtFront(frame + [1, 12, 0, 59, 0x55, 0, 0], c);
    OnlyAtFront(frame + [0, 0, 0, 0, 0, 0, 0], c);
  }

  lemma {:induction false} OnlyAtFront(data: seq<Byte>, c: Control)
    requires |data| == 11 && data[1] != 0xAA && data[2] != 0xAA
    ensures Obey(data, 3, c) == ObeyAt(data, 0, c)
  {
    NoFurtherHeader(data, 3, c);
  }

  // The length of the frame recognised at header byte `i`, or 0.
  function FrameLength(s: seq<Byte>, i: nat): (n: nat)
    ensures n == 0 || (n in {4, 9} && i + n <= |s|)
  {
    if i + 8 < |s| && s[i + 1] == 0x60 && s[i + 8] == 0x55 then 9
    else if i + 3 < |s| && s[i + 3] == 0x55 then 4
    else 0
  }

  lemma NextAt(all: seq<Byte>, i: nat)
    requires i < |all|
    ensures Next(all[i..]) ==
            if all[i] != 0xAA then (if i + 1 == |all| then Wait else Drop(1))
            else if FrameLength(all, i) > 0 then Take(FrameLength(all, i), all[i..i + FrameLength(all, i)])
            else Wait
  {
    var here := all[i..];
    assert |here| > 8 ==> here[..9] == all[i..i + 9];
    assert |here| > 3 ==> here[..4] == all[i..i + 4];
  }

  /** A clock frame that is read from its own bytes alone. */
  predicate SetsClock(frame: seq<Byte>) {
    Recognised(frame) && |frame| == 9 && SelfContained(frame)
  }

  /** No frame since the last one that set the clock took it from the memory behind it. */
  predicate ClockKnown(frames: seq<seq<Byte>>) {
    |frames| == 0 ||
    var last := frames[|frames| - 1];
    SelfContained(last) && (SetsClock(last) || ClockKnown(frames[..|frames| - 1]))
  }

  /** The handler's state after any frames: the control flags always, the clock when it is known. */
  predicate Obeyed(frames: seq<seq<Byte>>, was: Control, now: Control) {
    && Flagged(now) == Flagged(ObeyFrames(frames, was))
    && (ClockKnown(frames) ==> now == ObeyFrames(frames, was))
  }

  lemma FlagsFollowFlags(data: seq<Byte>, i: nat, c: Control, d: Control)
    requires i + 8 < |data| && Flagged(c) == Flagged(d)
    ensures Flagged(ObeyAt(data, i, c)) == Flagged(ObeyAt(data, i, d))
  {
  }

  lemma {:induction false} ObeyFollowsFlags(data: seq<Byte>, n: nat, c: Control, d: Control)
    requires n + 8 <= |data| && Flagged(c) == Flagged(d)
    ensures Flagged(Obey(data, n, c)) == Flagged(Obey(data, n, d))
  {
    if n > 0 {
      ObeyFollowsFlags(data, n - 1, c, d);
      FlagsFollowFlags(data, n - 1, Obey(data, n - 1, c), Obey(data, n - 1, d));
    }
  }

  // Once the clock has been set at offset 0, what it was before no longer matters.
  lemma {:induction false} ClockIsReset(data: seq<Byte>, n: nat, c: Control, d: Control)
    requires 0 < n && n + 8 <= |data| && Flagged(c) == Flagged(d)
    requires data[0] == 0xAA && data[1] == 0x60 && data[8] == 0x55
    ensures Obey(data, n, c) == Obey(data, n, d)
  {
    if n > 1 {
      ClockIsReset(data, n - 1, c, d);
    } else {
      assert Obey(data, 0, c) == c && Obey(data, 0, d) == d;
    }
  }

  lemma {:induction false} FrameSetsClock(frame: seq<Byte>, c: Control, d: Control)
    requires SetsClock(frame) && Flagged(c) == Flagged(d)
    ensures ObeyFrame(frame, c) == ObeyFrame(frame, d)
  {
    ClockIsReset(frame + [0, 0, 0, 0, 0, 0, 0], |frame| - 1, c, d);
  }

  /** Such a frame sets the clock to its six bytes, whatever they are. */
  lemma {:induction false} ClockIsShown(frame: seq<Byte>, c: Control)
    requires SetsClock(frame)
    ensures var now := ObeyFrame(frame, c);
            && now.year == frame[2] && now.month == frame[3] && now.day == frame[4]
            && now.hour == frame[5] && now.minute == frame[6] && now.second == frame[7]
  {
    ClockStays(frame, frame + [0, 0, 0, 0, 0, 0, 0], |frame| - 1, c);
  }

  lemma {:induction false} ClockStays(frame: seq<Byte>, data: seq<Byte>, n: nat, c: Control)
    requires SetsClock(frame) && data == frame + [0, 0, 0, 0, 0, 0, 0] && 0 < n < |frame|
    ensures var now := Obey(data, n, c);
            && now.year == frame[2] && now.month == frame[3] && now.day == frame[4]
            && now.hour == frame[5] && now.minute == frame[6] && now.second == frame[7]
  {
    if n > 1 {
      ClockStays(frame, data, n - 1, c);
      assert !(frame[n - 1] == 0xAA && frame[n] == 0x60);
    }
  }

  lemma {:induction false} FrameFollowsFlags(frame: seq<Byte>, c: Control, d: Control)
    requires Flagged(c) == Flagged(d)
    ensures Flagged(ObeyFrame(frame, c)) == Flagged(ObeyFrame(frame, d))
  {
    if |frame| > 0 {
      ObeyFollowsFlags(frame + [0, 0, 0, 0, 0, 0, 0], |frame| - 1, c, d);
    }
  }

  // One recognised frame, handled with any memory behind it.
  lemma {:induction false} ObeyedOneMore(frames: seq<seq<Byte>>, frame: seq<Byte>, beyond: seq<Byte>, was: Control,
                                         mid: Control, now: Control)
    requires Obeyed(frames, was, mid)
    requires Recognised(frame) && 7 <= |beyond| && now == Obey(frame + beyond, |frame| - 1, mid)
    ensures Obeyed(frames + [frame], was, now)
  {
    var zeros: seq<Byte> := [0, 0, 0, 0, 0, 0, 0];
    assert (frames + [frame])[..|frames|] == frames;
    FlagsIgnoreMemory(frame, beyond, zeros, |frame| - 1, mid, ObeyFrames(frames, was));
    if SelfContained(frame) {
      SelfContainedSuffices(frame, beyond, zeros, |frame| - 1, mid);
      if SetsClock(frame) {
        FrameSetsClock(frame, mid, ObeyFrames(frames, was));
      }
    }
  }

  /** Once an emergency command is recognised it takes effect, whatever frames came before and whatever memory they were read with. */
  lemma {:induction false} EmergencyIsObeyed(frames: seq<seq<Byte>>, on: bool, was: Control, now: Control)
    requires Obeyed(frames + [Emergency(on).Encode()], was, now)
    ensures now.motor == if on then 0 else 1
  {
    var all, last := frames + [Emergency(on).Encode()], Emergency(on).Encode();
    assert all[..|all| - 1] == frames;
    HandlerMeansMessage(Emergency(on), [0, 0, 0, 0, 0, 0, 0], ObeyFrames(frames, was));
    assert Flagged(now).motor == Flagged(ObeyFrames(all, was)).motor;
  }

  /** Hands the `n` bytes at `i` to the handler and removes everything up to their end. */
  method Deliver(buf: RxBuffer, flags: Flags, beyond: seq<Byte>, i: nat, n: nat,
                 frames: seq<seq<Byte>>, ghost was: Control)
    returns (frames': seq<seq<Byte>>)
    requires buf.Valid() && 7 <= |beyond| && i < buf.length
    requires buf.Contents()[i] == 0xAA && n == FrameLength(buf.Contents(), i) > 0
    requires Obeyed(frames, was, flags.Value())
    modifies buf`length, buf.data, flags
    ensures buf.Valid()
    ensures frames' == frames + [old(buf.Contents())[i..i + n]]
    ensures buf.Contents() == old(buf.Contents())[i + n..]
    ensures Obeyed(frames', was, flags.Value())
  {
    var memory := buf.data[..][i..] + beyond;
    ghost var now := flags.Value();
    flags.PlantSoft_DataProc(memory, n);
    FrontOfMemory(buf.data[..], buf.length, beyond, i, n);
    var frame := buf.Take(i, n);
    frames' := frames + [frame];
    assert memory == memory[..n] + memory[n..];
    ObeyedOneMore(frames, frame, memory[n..], was, now, flags.Value());
  }

  // One turn of the parsing loop, at offset `i`.
  method ParseAt(buf: RxBuffer, flags: Flags, beyond: seq<Byte>, i: nat, frames: seq<seq<Byte>>,
                 ghost whole: Scanned<seq<Byte>>, ghost was: Control)
    returns (i': nat, frames': seq<seq<Byte>>, blocked: bool)
    requires buf.Valid() && 7 <= |beyond| && i < buf.length
    requires Parsing(Front(), whole, buf.Contents(), i, frames)
    requires Obeyed(frames, was, flags.Value())
    modifies buf`length, buf.data, flags
    ensures buf.Valid() && i' <= buf.length
    ensures blocked || buf.length - i' < old(buf.length) - i
    ensures blocked ==> whole == Scanned(frames', buf.Contents()[i'..])
    ensures !blocked ==> Parsing(Front(), whole, buf.Contents(), i', frames')
    ensures Obeyed(frames', was, flags.Value())
  {
    i', frames', blocked := i, frames, false;
    var all := buf.Contents();
    if all[i] != 0xAA {
      NextAt(all, i);
      SkipTurn(Front(), whole, all, i, frames);
      i' := i + 1;
      return;
    }
    var n := FrameLength(all, i);
    if n == 0 {
      NextAt(all, i);
      StopTurn(Front(), whole, all, i, frames);
      blocked := true;
      return;
    }
    NextAt(all, i);
    TakeTurn(Front(), whole, all, i, frames, n, all[i..i + n]);
    frames' := Deliver(buf, flags, beyond, i, n, frames, was);
    i' := 0;
  }

  /**
    Parses the buffer in place, handing each frame to the handler. `beyond` is
    whatever memory follows the buffer: the handler may look past a frame.
   */
  method TryParse(buf: RxBuffer, flags: Flags, beyond: seq<Byte>) returns (frames: seq<seq<Byte>>)
    requires buf.Valid() && 7 <= |beyond|
    modifies buf`length, buf.data, flags
    ensures buf.Valid()
    ensures Scanned(frames, buf.Contents()) == Scan(Front(), old(buf.Contents()))
    ensures Obeyed(frames, old(flags.Value()), flags.Value())
  {
    ghost var whole, was := Scan(Front(), buf.Contents()), flags.Value();
    var i: nat := 0;
    var blocked := false;
    frames := [];
    StartParsing(Front(), buf.Contents());
    while i < buf.length && !blocked
      invariant buf.Valid() && i <= buf.length
      invariant blocked ==> whole == Scanned(frames, buf.Contents()[i..])
      invariant !blocked ==> Parsing(Front(), whole, buf.Contents(), i, frames)
      invariant Obeyed(frames, was, flags.Value())
      decreases !blocked, buf.length - i
    {
      i, frames, blocked := ParseAt(buf, flags, beyond, i, frames, whole, was);
    }
    if blocked {
      if i > 0 {
        buf.ShiftLeft(i);
      }
    } else {
      buf.KeepLast();
    }
  }

  // --- Whole sessions ------------------------------------------------------

  lemma MessageIsSelfContained(m: Message)
    requires m.Valid()
    ensures SelfContained(m.Encode())
  {
  }

  lemma {:induction false} SessionClockIsKnown(ms: seq<Message>)
    requires AllValid(ms)
    ensures ClockKnown(EncodeEach(ms))
  {
    if |ms| > 0 {
      EncodeEachSplits(ms);
      SessionClockIsKnown(ms[..|ms| - 1]);
      MessageIsSelfContained(ms[|ms| - 1]);
    }
  }

  /** Obeying the frames of a session is carrying out its messages in order. */
  lemma {:induction false} SessionIsObeyed(ms: seq<Message>, c: Control)
    requires AllValid(ms)
    ensures ObeyFrames(EncodeEach(ms), c) == MeaningAll(ms, c)
  {
    if |ms| > 0 {
      var init, last := ms[..|ms| - 1], ms[|ms| - 1];
      SessionIsObeyed(init, c);
      HandlerMeansMessage(last, [0, 0, 0, 0, 0, 0, 0], MeaningAll(init, c));
      EncodeEachSplits(ms);
    }
  }

  /** Of a session, `k` messages have been delivered whole, and `kept` is what has arrived of the next. */
  ghost predicate Delivered(ms: seq<Message>, k: nat, got: Scanned<seq<Byte>>) {
    && k <= |ms|
    && got.items == EncodeEach(ms[..k])
    && if k == |ms| then got.residue == [] else got.residue < ms[k].Encode()
  }

  lemma DeliveredFirst(ms: seq<Message>, k: nat, got: Scanned<seq<Byte>>)
    requires |ms| > 0 && Delivered(ms[1..], k, got)
    ensures Delivered(ms, k + 1, Emit([ms[0].Encode()], got))
  {
    var front := ms[..k + 1];
    EncodeEachSplits(front);
    assert front[1..] == ms[1..][..k];
  }

  lemma WaitsInsideMessage(m: Message, n: nat)
    requires m.Valid() && n < |m.Encode()|
    ensures Next(m.Encode()[..n]).Wait?
  {
  }

  /** After any prefix of a session the parser has delivered the complete messages and keeps a proper prefix of the next. */
  lemma {:induction false} PrefixIsDelivered(ms: seq<Message>, n: nat) returns (k: nat)
    requires AllValid(ms) && n <= |EncodeAll(ms)|
    ensures Delivered(ms, k, Scan(Front(), EncodeAll(ms)[..n]))
    decreases |ms|
  {
    k := 0;
    if |ms| > 0 {
      var first := ms[0].Encode();
      PrefixOfTwo(first, EncodeAll(ms[1..]), n);
      if n < |first| {
        WaitsInsideMessage(ms[0], n);
      } else {
        k := PrefixIsDelivered(ms[1..], n - |first|);
        var rest := EncodeAll(ms[1..])[..n - |first|];
        DeliveredFirst(ms, k, Scan(Front(), rest));
        ScanMessage(ms[0], rest);
        k := k + 1;
      }
    }
  }

  lemma DeliveredKeepsFew(ms: seq<Message>, k: nat, got: Scanned<seq<Byte>>)
    requires Delivered(ms, k, got)
    ensures |got.residue| <= 8
  {
  }

  lemma {:induction false} KeptIsShort(ms: seq<Message>, done: seq<Byte>)
    requires AllValid(ms) && done <= EncodeAll(ms)
    ensures |Scan(Front(), done).residue| <= 8
  {
    var all := EncodeAll(ms);
    assert all[..|done|] == done;
    var k := PrefixIsDelivered(ms, |done|);
    DeliveredKeepsFew(ms, k, Scan(Front(), all[..|done|]));
  }

  lemma PrefixIsCutSafe(a: seq<Byte>, whole: seq<Byte>)
    requires a <= whole && CutSafe(whole)
    ensures CutSafe(a)
  {
    assert a + whole[|a|..] == whole;
    SafeScanResumes(a, whole[|a|..]);
  }

  lemma PrefixResumes(ms: seq<Message>, done: seq<Byte>, c: seq<Byte>)
    requires AllValid(ms) && done + c <= EncodeAll(ms)
    ensures Scan(Front(), done + c) == Emit(Scan(Front(), done).items, Scan(Front(), Scan(Front(), done).residue + c))
  {
    SessionIsCutSafe(ms);
    PrefixIsCutSafe(done + c, EncodeAll(ms));
    SafeScanResumes(done, c);
  }

  lemma {:induction false} ObeyConcat(a: seq<seq<Byte>>, b: seq<seq<Byte>>, c: Control)
    ensures ObeyFrames(a + b, c) == ObeyFrames(b, ObeyFrames(a, c))
    decreases |b|
  {
    if |b| == 0 {
      assert a + b == a;
    } else {
      LastOfTwo(a, b);
      ObeyConcat(a, b[..|b| - 1], c);
    }
  }

  // Frames `b` after frames `a`, from two states that differ at most in a clock that is not known after `a`.
  lemma {:induction false} FramesFollowFlags(a: seq<seq<Byte>>, b: seq<seq<Byte>>, c: Control, d: Control)
    requires Flagged(c) == Flagged(d) && (ClockKnown(a) ==> c == d)
    ensures Flagged(ObeyFrames(b, c)) == Flagged(ObeyFrames(b, d))
    ensures ClockKnown(a + b) ==> ClockKnown(b) && ObeyFrames(b, c) == ObeyFrames(b, d)
    decreases |b|
  {
    if |b| == 0 {
      assert a + b == a;
    } else {
      var init, last := b[..|b| - 1], b[|b| - 1];
      LastOfTwo(a, b);
      FramesFollowFlags(a, init, c, d);
      FrameFollowsFlags(last, ObeyFrames(init, c), ObeyFrames(init, d));
      if SetsClock(last) {
        FrameSetsClock(last, ObeyFrames(init, c), ObeyFrames(init, d));
      }
    }
  }

  lemma {:induction false} ObeyedMore(frames: seq<seq<Byte>>, got: seq<seq<Byte>>, was: Control, mid: Control, now: Control)
    requires Obeyed(frames, was, mid) && Obeyed(got, mid, now)
    ensures Obeyed(frames + got, was, now)
  {
    ObeyConcat(frames, got, was);
    FramesFollowFlags(frames, got, mid, ObeyFrames(frames, was));
  }

  /** The receive thread over any sequence of reads, corrupted streams and overflow resets included. */
  method RxEntry(buf: RxBuffer, flags: Flags, beyond: seq<Byte>, chunks: seq<seq<Byte>>)
    returns (frames: seq<seq<Byte>>)
    requires buf.Valid() && 7 <= |beyond|
    requires forall c | c in chunks :: |c| <= CAPACITY
    modifies buf`length, buf.data, flags
    ensures buf.Valid()
    ensures Scanned(frames, buf.Contents()) == Reads(Front(), old(buf.Contents()), chunks)
    ensures Obeyed(frames, old(flags.Value()), flags.Value())
  {
    ghost var whole, was := Reads(Front(), buf.Contents(), chunks), flags.Value();
    StartReading(Front(), buf.Contents(), chunks);
    frames := [];
    var rest := chunks;
    while |rest| > 0
      invariant buf.Valid()
      invariant forall c | c in rest :: |c| <= CAPACITY
      invariant Reading(Front(), whole, frames, buf.Contents(), rest)
      invariant Obeyed(frames, was, flags.Value())
    {
      frames := ReadOne(buf, flags, beyond, rest, frames, whole, was);
      rest := rest[1..];
    }
    ReadingEnds(Front(), whole, frames, buf.Contents(), rest);
  }

  // One read of the receive thread.
  method ReadOne(buf: RxBuffer, flags: Flags, beyond: seq<Byte>, chunks: seq<seq<Byte>>, frames: seq<seq<Byte>>,
                 ghost whole: Scanned<seq<Byte>>, ghost was: Control)
    returns (frames': seq<seq<Byte>>)
    requires buf.Valid() && 7 <= |beyond| && |chunks| > 0 && |chunks[0]| <= CAPACITY
    requires Reading(Front(), whole, frames, buf.Contents(), chunks)
    requires Obeyed(frames, was, flags.Value())
    modifies buf`length, buf.data, flags
    ensures buf.Valid()
    ensures Reading(Front(), whole, frames', buf.Contents(), chunks[1..])
    ensures Obeyed(frames', was, flags.Value())
  {
    ghost var kept, mid := buf.Contents(), flags.Value();
    buf.Receive(chunks[0]);
    var got := TryParse(buf, flags, beyond);
    frames' := frames + got;
    ObeyedMore(frames, got, was, mid, flags.Value());
    ReadingTurn(Front(), whole, frames, kept, chunks, Scanned(got, buf.Contents()));
  }

  /** The reads of a session of which `done` has arrived before never meet a full buffer, and are the rest of its scan. */
  lemma {:induction false} SessionReads(ms: seq<Message>, done: seq<Byte>, chunks: seq<seq<Byte>>)
    requires AllValid(ms) && done + Flatten(chunks) == EncodeAll(ms)
    requires forall c | c in chunks :: |c| <= CAPACITY - 8
    ensures var got := Scan(Front(), done);
            Emit(got.items, Reads(Front(), got.residue, chunks)) == Scan(Front(), EncodeAll(ms))
    decreases |chunks|
  {
    var got := Scan(Front(), done);
    if |chunks| == 0 {
      assert done + Flatten(chunks) == done;
      assert got.items + [] == got.items;
    } else {
      FlattenSplit(done, chunks);
      PartOfWhole(done, chunks[0], Flatten(chunks[1..]), EncodeAll(ms));
      KeptIsShort(ms, done);
      PrefixResumes(ms, done, chunks[0]);
      SessionReads(ms, done + chunks[0], chunks[1..]);
      var first := Scan(Front(), got.residue + chunks[0]);
      EmitAppends(got.items, first.items, Reads(Front(), first.residue, chunks[1..]));
    }
  }

  lemma PartOfWhole(a: seq<Byte>, b: seq<Byte>, c: seq<Byte>, whole: seq<Byte>)
    requires a + b + c == whole
    ensures a <= whole && a + b <= whole
  {
  }

  lemma SessionEnds(ms: seq<Message>, frames: seq<seq<Byte>>, kept: seq<Byte>, was: Control, now: Control)
    requires AllValid(ms)
    requires Scanned(frames, kept) == Scan(Front(), EncodeAll(ms))
    requires Obeyed(frames, was, now)
    ensures kept == [] && frames == EncodeEach(ms) && now == MeaningAll(ms, was)
  {
    SessionIsCutSafe(ms);
    SessionClockIsKnown(ms);
    SessionIsObeyed(ms, was);
  }

  /**
    A whole session through the receive thread: for any valid messages, cut
    into any reads that leave eight bytes of room, starting from an empty
    buffer, the frames delivered are the messages sent, the buffer ends empty
    and the control state is that of the messages carried out in order.
   */
  method Session(buf: RxBuffer, flags: Flags, beyond: seq<Byte>, chunks: seq<seq<Byte>>, ghost ms: seq<Message>)
    returns (frames: seq<seq<Byte>>)
    requires buf.Valid() && buf.length == 0 && 7 <= |beyond|
    requires AllValid(ms) && Flatten(chunks) == EncodeAll(ms)
    requires forall c | c in chunks :: |c| <= CAPACITY - 8
    modifies buf`length, buf.data, flags
    ensures buf.Valid() && buf.length == 0
    ensures frames == EncodeEach(ms)
    ensures flags.Value() == MeaningAll(ms, old(flags.Value()))
  {
    ghost var was := flags.Value();
    assert buf.Contents() == [] && [] + Flatten(chunks) == EncodeAll(ms);
    SessionReads(ms, [], chunks);
    ReadsAlone(chunks);
    frames := RxEntry(buf, flags, beyond, chunks);
    SessionEnds(ms, frames, buf.Contents(), was, flags.Value());
  }

  lemma {:induction false} ReadsAlone(chunks: seq<seq<Byte>>)
    ensures Scan(Front(), []) == Scanned([], [])
    ensures Emit([], Reads(Front(), [], chunks)) == Reads(Front(), [], chunks)
  {
    var all := Reads(Front(), [], chunks);
    assert [] + all.items == all.items;
  }
}
