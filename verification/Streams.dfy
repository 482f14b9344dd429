/**
  Byte streams cut into chunks, and what it means for a stream parser not to
  notice where the cuts fall. A parser of the firmware, the camera or the
  desktop panel looks at the front of its buffer and makes one of three moves:
  wait for more bytes, drop some, or take some as an item. The parser modules
  say which move is made; the lemmas here turn local facts about moves into
  statements about whole streams and any sequence of chunks.
 */
module Streams {

  type Byte = b: int | 0 <= b < 0x100
  type U16 = n: int | 0 <= n < 0x1_0000
  type U32 = n: int | 0 <= n < 0x1_0000_0000

  datatype Move<+T> = Wait | Drop(count: nat) | Take(count: nat, item: T)

  type Parser<!T> = seq<Byte> -> Move<T>

  /** What a parser makes of its buffer: the items it takes, in order, and the bytes it keeps. */
  datatype Scanned<+T> = Scanned(items: seq<T>, residue: seq<Byte>)

  function Emit<T>(items: seq<T>, rest: Scanned<T>): Scanned<T> {
    Scanned(items + rest.items, rest.residue)
  }

  /** Moves consume something, and no more than there is. */
  ghost predicate Proper<T>(next: Parser<T>) {
    forall s :: !next(s).Wait? ==> 0 < next(s).count <= |s|
  }

  /** A move once decided is not revised when more bytes arrive. */
  ghost predicate Steadfast<T>(next: Parser<T>) {
    forall s, t {:trigger next(s + t)} :: !next(s).Wait? ==> next(s + t) == next(s)
  }

  /** The moves made on a whole stream, until one of them is to wait. */
  function Scan<T>(next: Parser<T>, s: seq<Byte>): Scanned<T>
    requires Proper(next)
    decreases |s|
  {
    match next(s)
    case Wait => Scanned([], s)
    case Drop(n) => Scan(next, s[n..])
    case Take(n, item) => Emit([item], Scan(next, s[n..]))
  }

  function Flatten(chunks: seq<seq<Byte>>): seq<Byte> {
    if chunks == [] then [] else chunks[0] + Flatten(chunks[1..])
  }

  /** Chunks arrive one at a time; each is appended to the kept bytes and the result is scanned. */
  function Feed<T>(next: Parser<T>, residue: seq<Byte>, chunks: seq<seq<Byte>>): Scanned<T>
    requires Proper(next)
    decreases |chunks|
  {
    if chunks == [] then Scanned([], residue)
    else
      var first := Scan(next, residue + chunks[0]);
      Emit(first.items, Feed(next, first.residue, chunks[1..]))
  }

  lemma {:induction false} ScanStopsWaiting<T>(next: Parser<T>, s: seq<Byte>)
    requires Proper(next)
    ensures next(Scan(next, s).residue).Wait?
    ensures |Scan(next, s).residue| <= |s|
    ensures Scan(next, s).residue == s[|s| - |Scan(next, s).residue|..]
    decreases |s|
  {
    if !next(s).Wait? {
      ScanStopsWaiting(next, s[next(s).count..]);
    }
  }

  lemma EmitAppends<T>(a: seq<T>, b: seq<T>, rest: Scanned<T>)
    ensures Emit(a, Emit(b, rest)) == Emit(a + b, rest)
    ensures Emit([], rest) == rest
  {
    assert a + (b + rest.items) == (a + b) + rest.items;
    assert [] + rest.items == rest.items;
  }

  /** Scanning may stop after any prefix and be resumed from the bytes kept. */
  lemma {:induction false} ScanResumes<T>(next: Parser<T>, s: seq<Byte>, t: seq<Byte>)
    requires Proper(next) && Steadfast(next)
    ensures Scan(next, s + t) == Emit(Scan(next, s).items, Scan(next, Scan(next, s).residue + t))
    decreases |s|
  {
    var later := Scan(next, Scan(next, s).residue + t);
    match next(s)
    case Wait =>
      EmitAppends([], [], later);
    case Drop(n) =>
      assert (s + t)[n..] == s[n..] + t;
      ScanResumes(next, s[n..], t);
    case Take(n, item) =>
      assert (s + t)[n..] == s[n..] + t;
      ScanResumes(next, s[n..], t);
      EmitAppends([item], Scan(next, s[n..]).items, later);
  }

  /** One turn of a parsing loop that has taken `items` and is looking at offset `i` of `all`. */
  lemma Turn<T>(next: Parser<T>, all: seq<Byte>, i: nat, items: seq<T>)
    requires Proper(next) && i <= |all|
    ensures var whole := Emit(items, Scan(next, all[i..]));
            match next(all[i..])
            case Wait => whole == Scanned(items, all[i..])
            case Drop(n) => whole == Emit(items, Scan(next, all[i + n..]))
            case Take(n, item) => whole == Emit(items + [item], Scan(next, all[i + n..]))
  {
    var here := all[i..];
    if next(here).Wait? {
      assert items + [] == items;
    } else {
      var n := next(here).count;
      assert here[n..] == all[i + n..];
      if next(here).Take? {
        EmitAppends(items, [next(here).item], Scan(next, all[i + n..]));
      }
    }
  }

  /**
    What holds while a parsing loop looks at offset `i` of `all`, having taken
    `items`. Running off the end keeps the last byte.
   */
  ghost predicate Parsing<T>(next: Parser<T>, whole: Scanned<T>, all: seq<Byte>, i: nat, items: seq<T>)
    requires Proper(next)
  {
    && i <= |all|
    && whole == if i == |all| > 0 then Scanned(items, all[i - 1..]) else Emit(items, Scan(next, all[i..]))
  }

  lemma StartParsing<T>(next: Parser<T>, all: seq<Byte>)
    requires Proper(next)
    ensures Parsing(next, Scan(next, all), all, 0, [])
  {
    EmitAppends([], [], Scan(next, all));
    assert all[0..] == all;
  }

  /** How the loop goes on, given the move made at offset `i`; at the last byte a dropped byte is kept instead. */
  lemma ParsingTurn<T>(next: Parser<T>, whole: Scanned<T>, all: seq<Byte>, i: nat, items: seq<T>)
    requires Proper(next) && i < |all| && Parsing(next, whole, all, i, items)
    ensures next(all[i..]).Wait? ==> whole == Scanned(items, all[i..])
    ensures next(all[i..]).Wait? && i + 1 == |all| ==> Parsing(next, whole, all, i + 1, items)
    ensures next(all[i..]) == Drop(1) && i + 1 < |all| ==> Parsing(next, whole, all, i + 1, items)
    ensures next(all[i..]).Take? ==>
              Parsing(next, whole, all[i + next(all[i..]).count..], 0, items + [next(all[i..]).item])
  {
    Turn(next, all, i, items);
    if next(all[i..]).Take? {
      var rest := all[i + next(all[i..]).count..];
      assert rest[0..] == rest;
    }
  }

  // The three ways a parsing loop goes on at offset `i`.

  lemma SkipTurn<T>(next: Parser<T>, whole: Scanned<T>, all: seq<Byte>, i: nat, items: seq<T>)
    requires Proper(next) && i < |all| && Parsing(next, whole, all, i, items)
    requires next(all[i..]) == if i + 1 == |all| then Wait else Drop(1)
    ensures Parsing(next, whole, all, i + 1, items)
  {
    ParsingTurn(next, whole, all, i, items);
  }

  lemma TakeTurn<T>(next: Parser<T>, whole: Scanned<T>, all: seq<Byte>, i: nat, items: seq<T>, n: nat, item: T)
    requires Proper(next) && i < |all| && Parsing(next, whole, all, i, items)
    requires next(all[i..]) == Take(n, item) && i + n <= |all|
    ensures Parsing(next, whole, all[i + n..], 0, items + [item])
  {
    ParsingTurn(next, whole, all, i, items);
  }

  lemma StopTurn<T>(next: Parser<T>, whole: Scanned<T>, all: seq<Byte>, i: nat, items: seq<T>)
    requires Proper(next) && i < |all| && Parsing(next, whole, all, i, items)
    requires next(all[i..]).Wait?
    ensures whole == Scanned(items, all[i..])
  {
    ParsingTurn(next, whole, all, i, items);
  }

  lemma FirstOfTwo<T>(a: seq<T>, b: seq<T>)
    requires |a| > 0
    ensures (a + b)[0] == a[0] && (a + b)[1..] == a[1..] + b
  {
  }

  lemma LastOfTwo<T>(a: seq<T>, b: seq<T>)
    requires |b| > 0
    ensures (a + b)[..|a + b| - 1] == a + b[..|b| - 1]
    ensures (a + b)[|a + b| - 1] == b[|b| - 1]
  {
  }

  lemma Associate<T>(a: seq<T>, b: seq<T>, c: seq<T>)
    ensures a + (b + c) == (a + b) + c
  {
  }

  function Copies(frame: seq<Byte>, n: nat): seq<seq<Byte>> {
    seq(n, _ => frame)
  }

  lemma MoreCopies(frame: seq<Byte>, n: nat)
    requires n > 0
    ensures Copies(frame, n) == [frame] + Copies(frame, n - 1)
    ensures Copies(frame, n)[1..] == Copies(frame, n - 1)
  {
  }

  lemma PrefixOfTwo(first: seq<Byte>, tail: seq<Byte>, n: nat)
    requires n <= |first + tail|
    ensures (first + tail)[..n] == if n < |first| then first[..n] else first + tail[..n - |first|]
  {
  }

  lemma FlattenSplit(residue: seq<Byte>, chunks: seq<seq<Byte>>)
    requires |chunks| > 0
    ensures residue + Flatten(chunks) == (residue + chunks[0]) + Flatten(chunks[1..])
  {
  }

  /** Chunking invariance: feeding a stream in any chunks is the same as scanning it whole. */
  lemma {:induction false} FeedIsWholeScan<T>(next: Parser<T>, residue: seq<Byte>, chunks: seq<seq<Byte>>)
    requires Proper(next) && Steadfast(next)
    requires next(residue).Wait?
    ensures Feed(next, residue, chunks) == Scan(next, residue + Flatten(chunks))
    decreases |chunks|
  {
    if |chunks| == 0 {
      assert residue + Flatten(chunks) == residue;
    } else {
      FlattenSplit(residue, chunks);
      var s := residue + chunks[0];
      ScanStopsWaiting(next, s);
      ScanResumes(next, s, Flatten(chunks[1..]));
      FeedIsWholeScan(next, Scan(next, s).residue, chunks[1..]);
    }
  }

  /** Two ways of cutting the same stream are indistinguishable. */
  lemma {:induction false} CutsDoNotMatter<T>(next: Parser<T>, residue: seq<Byte>, a: seq<seq<Byte>>, b: seq<seq<Byte>>)
    requires Proper(next) && Steadfast(next)
    requires next(residue).Wait?
    requires Flatten(a) == Flatten(b)
    ensures Feed(next, residue, a) == Feed(next, residue, b)
  {
    FeedIsWholeScan(next, residue, a);
    FeedIsWholeScan(next, residue, b);
  }
}
