/**
  The receive buffer shared by the four UART ports: a fixed array of 400 bytes
  and a length, shifted in place and refilled by the receive thread. The four
  port files declare it with the same capacity and the same code.
 */
module RxBuffers {
  import opened Streams

  // USART1_MAX_LEN, USART2_MAX_LEN, UART4_MAX_LEN and UART5_MAX_LEN.
  const CAPACITY := 400

  /** A read behind what is kept; if there is no room, what is kept is discarded. */
  function Joined(kept: seq<Byte>, chunk: seq<Byte>): (bytes: seq<Byte>)
    ensures |chunk| <= CAPACITY ==> |bytes| <= CAPACITY
  {
    if |kept| + |chunk| > CAPACITY then chunk else kept + chunk
  }

  /** What a receive thread makes of any sequence of reads, discarded bytes included. */
  function Reads<T>(next: Parser<T>, kept: seq<Byte>, chunks: seq<seq<Byte>>): Scanned<T>
    requires Proper(next)
    decreases |chunks|
  {
    if |chunks| == 0 then Scanned([], kept)
    else
      var first := Scan(next, Joined(kept, chunks[0]));
      Emit(first.items, Reads(next, first.residue, chunks[1..]))
  }

  // The reads, `items` having been taken and `chunks` being still to come.
  ghost predicate Reading<T>(next: Parser<T>, whole: Scanned<T>, items: seq<T>, kept: seq<Byte>, chunks: seq<seq<Byte>>)
    requires Proper(next)
  {
    whole == Emit(items, Reads(next, kept, chunks))
  }

  lemma {:induction false} StartReading<T>(next: Parser<T>, kept: seq<Byte>, chunks: seq<seq<Byte>>)
    requires Proper(next)
    ensures Reading(next, Reads(next, kept, chunks), [], kept, chunks)
  {
    var whole := Reads(next, kept, chunks);
    assert [] + whole.items == whole.items;
  }

  lemma {:induction false} ReadingTurn<T>(next: Parser<T>, whole: Scanned<T>, items: seq<T>, kept: seq<Byte>,
                                          chunks: seq<seq<Byte>>, got: Scanned<T>)
    requires Proper(next) && |chunks| > 0 && Reading(next, whole, items, kept, chunks)
    requires got == Scan(next, Joined(kept, chunks[0]))
    ensures Reading(next, whole, items + got.items, got.residue, chunks[1..])
  {
    EmitAppends(items, got.items, Reads(next, got.residue, chunks[1..]));
  }

  lemma {:induction false} ReadingEnds<T>(next: Parser<T>, whole: Scanned<T>, items: seq<T>, kept: seq<Byte>,
                                          chunks: seq<seq<Byte>>)
    requires Proper(next) && |chunks| == 0 && Reading(next, whole, items, kept, chunks)
    ensures whole == Scanned(items, kept)
  {
    assert items + [] == items;
  }

  /** The parser waits, and no further byte makes it do anything else. */
  ghost predicate Stuck<T>(next: Parser<T>, kept: seq<Byte>) {
    forall t {:trigger next(kept + t)} :: next(kept + t).Wait?
  }

  lemma StaysStuck<T>(next: Parser<T>, kept: seq<Byte>, more: seq<Byte>)
    requires Stuck(next, kept)
    ensures next(kept + more).Wait?
    ensures Stuck(next, kept + more)
  {
    forall t ensures next(kept + more + t).Wait? {
      assert kept + more + t == kept + (more + t);
    }
  }

  lemma {:induction false} ReadWhileStuck<T>(next: Parser<T>, kept: seq<Byte>, chunks: seq<seq<Byte>>)
    requires Proper(next) && Stuck(next, kept)
    requires |chunks| > 0 && |kept| + |chunks[0]| <= CAPACITY
    ensures Reads(next, kept, chunks) == Reads(next, kept + chunks[0], chunks[1..])
  {
    StaysStuck(next, kept, chunks[0]);
    EmitAppends([], [], Reads(next, kept + chunks[0], chunks[1..]));
  }

  lemma {:induction false} ReadThatOverflows<T>(next: Parser<T>, kept: seq<Byte>, chunks: seq<seq<Byte>>)
    requires Proper(next)
    requires |chunks| > 0 && |chunks[0]| <= CAPACITY < |kept| + |chunks[0]|
    ensures Reads(next, kept, chunks) == Reads(next, [], chunks)
  {
    assert [] + chunks[0] == chunks[0];
  }

  /** A stuck parser swallows every read until one does not fit; from there on the buffer starts afresh. */
  lemma {:induction false} StuckUntilOverflow<T>(next: Parser<T>, kept: seq<Byte>, before: seq<seq<Byte>>,
                                                 after: seq<seq<Byte>>)
    requires Proper(next) && Stuck(next, kept)
    requires |kept| + |Flatten(before)| <= CAPACITY
    ensures Reads(next, kept, before) == Scanned([], kept + Flatten(before))
    ensures |after| > 0 && |after[0]| <= CAPACITY < |kept| + |Flatten(before)| + |after[0]| ==>
              Reads(next, kept, before + after) == Reads(next, [], after)
    decreases |before|
  {
    if |before| == 0 {
      assert kept + Flatten(before) == kept && before + after == after;
      if |after| > 0 && |after[0]| <= CAPACITY < |kept| + |after[0]| {
        ReadThatOverflows(next, kept, after);
      }
    } else {
      FlattenSplit(kept, before);
      ReadWhileStuck(next, kept, before);
      FirstOfTwo(before, after);
      ReadWhileStuck(next, kept, before + after);
      StaysStuck(next, kept, before[0]);
      StuckUntilOverflow(next, kept + before[0], before[1..], after);
    }
  }

  // The memory from offset `i` of the buffer on begins with the bytes found there.
  lemma FrontOfMemory(data: seq<Byte>, length: nat, beyond: seq<Byte>, i: nat, n: nat)
    requires i + n <= length <= |data|
    ensures (data[i..] + beyond)[..n] == data[..length][i..i + n]
  {
  }

  class RxBuffer {
    const data: array<Byte>
    var length: nat

    ghost predicate Valid()
      reads this
    {
      data.Length == CAPACITY && length <= CAPACITY
    }

    function Contents(): seq<Byte>
      requires Valid()
      reads this, data
    {
      data[..length]
    }

    constructor ()
      ensures Valid() && fresh(data)
      ensures Contents() == []
    {
      data := new Byte[CAPACITY](_ => 0);
      length := 0;
    }

    /** Drops the first `count` bytes; dropping more than there are empties the buffer. */
    method ShiftLeft(count: nat)
      requires Valid()
      modifies this`length, data
      ensures Valid()
      ensures Contents() == if count >= old(length) then [] else old(Contents())[count..]
    {
      if count >= length {
        length := 0;
        return;
      }
      forall k | 0 <= k < length - count {
        data[k] := data[k + count];
      }
      length := length - count;
    }

    /** Cuts out the `n` bytes at `i`, dropping everything before and up to them. */
    method Take(i: nat, n: nat) returns (frame: seq<Byte>)
      requires Valid() && i + n <= length
      modifies this`length, data
      ensures Valid()
      ensures frame == old(Contents())[i..i + n]
      ensures Contents() == old(Contents())[i + n..]
    {
      frame := data[i..i + n];
      ShiftLeft(i + n);
    }

    /** One device read: when the new bytes do not fit, everything held is discarded first. */
    method Receive(chunk: seq<Byte>)
      requires Valid() && |chunk| <= CAPACITY
      modifies this`length, data
      ensures Valid()
      ensures Contents() == Joined(old(Contents()), chunk)
    {
      if length + |chunk| > CAPACITY {
        length := 0;
      }
      forall k | 0 <= k < |chunk| {
        data[length + k] := chunk[k];
      }
      length := length + |chunk|;
    }

    /** Empties the buffer down to its last byte, the exit taken when no header byte is present. */
    method KeepLast()
      requires Valid()
      modifies this`length, data
      ensures Valid()
      ensures Contents() == if old(length) > 1 then old(Contents())[old(length) - 1..] else old(Contents())
    {
      if length > 1 {
        data[0] := data[length - 1];
        length := 1;
      }
    }
  }
}
