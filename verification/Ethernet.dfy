/**
  drv_eth.c: gathering a chain of packet buffers into the DMA transmit buffers
  and scattering received DMA buffers over a chain of packet buffers. The four
  descriptors form a ring; their buffers lie end to end in one allocation.
  stm32f4xx_hal_eth.c programs the transmit descriptors and looks for received
  frames among the receive descriptors.
 */
module Ethernet {
  import opened Streams
  import opened Options

  const BUF := 1524  // ETH_MAX_PACKET_SIZE
  const COUNT := 4   // ETH_TXBUFNB, ETH_RXBUFNB
  const RING := 6096 // COUNT * BUF

  function NextDescriptor(d: nat): nat {
    if d + 1 < COUNT then d + 1 else 0
  }

  // Where byte `k` of a frame lies whose first buffer is that of descriptor `start`.
  function Pos(start: nat, k: nat): (p: nat)
    ensures p < RING
  {
    (start * BUF + k) % RING
  }

  /** The first `length` bytes in the buffers from descriptor `start` on: full buffers one after another, and the rest in the last. */
  function Wire(memory: seq<Byte>, start: nat, length: nat): (bytes: seq<Byte>)
    requires |memory| == RING && start < COUNT
    ensures |bytes| == length
    decreases length
  {
    if length <= BUF then memory[start * BUF..start * BUF + length]
    else memory[start * BUF..start * BUF + BUF] + Wire(memory, NextDescriptor(start), length - BUF)
  }

  lemma PosInFirst(start: nat, k: nat)
    requires start < COUNT && k < BUF
    ensures Pos(start, k) == start * BUF + k
  {
  }

  lemma PosSteps(start: nat, k: nat)
    requires start < COUNT && k >= BUF
    ensures Pos(start, k) == Pos(NextDescriptor(start), k - BUF)
  {
  }

  lemma FirstBuffer(memory: seq<Byte>, start: nat, length: nat, k: nat)
    requires |memory| == RING && start < COUNT && k < length && k < BUF
    ensures Wire(memory, start, length)[k] == memory[start * BUF + k]
  {
    if length > BUF {
      JoinedAt(memory, start * BUF, Wire(memory, NextDescriptor(start), length - BUF), k);
    }
  }

  lemma LaterBuffers(memory: seq<Byte>, start: nat, length: nat, k: nat)
    requires |memory| == RING && start < COUNT && BUF <= k < length
    ensures Wire(memory, start, length)[k] == Wire(memory, NextDescriptor(start), length - BUF)[k - BUF]
  {
    JoinedAt(memory, start * BUF, Wire(memory, NextDescriptor(start), length - BUF), k);
  }

  lemma JoinedAt(memory: seq<Byte>, from: nat, tail: seq<Byte>, k: nat)
    requires from + BUF <= |memory| && k < BUF + |tail|
    ensures (memory[from..from + BUF] + tail)[k] == if k < BUF then memory[from + k] else tail[k - BUF]
  {
  }

  lemma {:induction false} WireByte(memory: seq<Byte>, start: nat, length: nat, k: nat)
    requires |memory| == RING && start < COUNT && k < length
    ensures Wire(memory, start, length)[k] == memory[Pos(start, k)]
    decreases length
  {
    if k < BUF {
      FirstBuffer(memory, start, length, k);
      PosInFirst(start, k);
    } else {
      LaterBuffers(memory, start, length, k);
      PosSteps(start, k);
      WireByte(memory, NextDescriptor(start), length - BUF, k - BUF);
    }
  }

  /** The frame fills the buffers from `start` on, if and only if its bytes lie at its positions. */
  lemma WireIsFrame(memory: seq<Byte>, start: nat, frame: seq<Byte>)
    requires |memory| == RING && start < COUNT
    ensures Wire(memory, start, |frame|) == frame <==> forall k | 0 <= k < |frame| :: memory[Pos(start, k)] == frame[k]
  {
    forall k | 0 <= k < |frame| ensures Wire(memory, start, |frame|)[k] == memory[Pos(start, k)] {
      WireByte(memory, start, |frame|, k);
    }
  }

  // --- Transmit descriptors ------------------------------------------------

  /** OWN, FS, LS and the buffer size of a transmit descriptor. */
  datatype Descriptor = Descriptor(own: bool, first: bool, last: bool, size: nat)

  /**
    What the DMA sends beginning at descriptor `d`: it takes the buffers of
    descriptors it owns, as much of each as is programmed, up to the one marked
    last. Only the one it begins with may be marked first. It gives back every
    descriptor it has sent, so after a lap it owns none.
   */
  function Segments(memory: seq<Byte>, ds: seq<Descriptor>, d: nat, opening: bool, left: nat): Option<seq<Byte>>
    requires |memory| == RING && |ds| == COUNT && d < COUNT
    decreases left
  {
    if left == 0 || !ds[d].own || ds[d].first != opening || ds[d].size > BUF then None
    else
      var here := memory[d * BUF..d * BUF + ds[d].size];
      if ds[d].last then Some(here)
      else
        match Segments(memory, ds, NextDescriptor(d), false, left - 1)
        case None => None
        case Some(rest) => Some(here + rest)
  }

  function Sends(memory: seq<Byte>, ds: seq<Descriptor>, start: nat): Option<seq<Byte>>
    requires |memory| == RING && |ds| == COUNT && start < COUNT
  {
    Segments(memory, ds, start, true, COUNT)
  }

  /** How the HAL programs descriptor `i` of `count` for a frame of `length` bytes. */
  function Programmed(i: nat, count: nat, length: nat): Descriptor
    requires i < count && (count - 1) * BUF <= length
  {
    Descriptor(true, i == 0, i + 1 == count, if i + 1 == count then length - (count - 1) * BUF else BUF)
  }

  // How far the gather loop has come: `full` buffers are full, `offset` bytes are in the current one.
  ghost predicate Progress(start: nat, d: nat, full: nat, offset: nat, sent: nat) {
    && start < COUNT && d < COUNT && offset <= BUF
    && sent == full * BUF + offset
    && d == (start + full) % COUNT
  }

  lemma PlaceOf(start: nat, d: nat, full: nat, offset: nat, sent: nat, t: nat)
    requires Progress(start, d, full, offset, sent) && offset + t < BUF
    ensures Pos(start, sent + t) == d * BUF + offset + t
  {
    var q := (start + full) / COUNT;
    assert start + full == COUNT * q + d;
    assert start * BUF + sent + t == RING * q + (d * BUF + offset + t);
  }

  lemma PlacesDiffer(start: nat, j: nat, k: nat)
    requires j < k < j + RING
    ensures Pos(start, j) != Pos(start, k)
  {
  }

  // Which descriptor comes `i` after `start`.
  function Slot(start: nat, i: nat): (d: nat)
    ensures d < COUNT
  {
    (start + i) % COUNT
  }

  // How far descriptor `d` lies behind `start`.
  function Offset(start: nat, d: nat): (i: nat)
    requires start < COUNT && d < COUNT
    ensures i < COUNT && Slot(start, i) == d
  {
    (d + COUNT - start) % COUNT
  }

  lemma OffsetOfSlot(start: nat, i: nat)
    requires start < COUNT && i < COUNT
    ensures Offset(start, Slot(start, i)) == i
  {
  }

  // How many buffers a frame of `length` bytes leaves full behind it.
  function Filled(length: nat): nat {
    if length == 0 then 0 else (length - 1) / BUF
  }

  lemma SnugIsFilled(full: nat, offset: nat, sent: nat)
    requires sent == full * BUF + offset && offset <= BUF
    requires offset > 0 || full == 0
    ensures full == Filled(sent)
  {
  }

  lemma FilledGrows(a: nat, b: nat)
    requires a <= b
    ensures Filled(a) <= Filled(b)
  {
  }

  lemma NotOverwritten(start: nat, d: nat, full: nat, offset: nat, sent: nat, size: nat, k: nat)
    requires Progress(start, d, full, offset, sent) && offset + size <= BUF
    requires k < sent && sent + size <= k + RING
    ensures !(d * BUF + offset <= Pos(start, k) < d * BUF + offset + size)
  {
    if d * BUF + offset <= Pos(start, k) < d * BUF + offset + size {
      var t := Pos(start, k) - d * BUF - offset;
      PlaceOf(start, d, full, offset, sent, t);
      PlacesDiffer(start, k, sent + t);
    }
  }

  ghost predicate Free(ds: seq<Descriptor>, start: nat, count: nat)
    requires |ds| == COUNT
  {
    forall i: nat | i < count :: !ds[Slot(start, i)].own
  }

  lemma FreeExtends(ds: seq<Descriptor>, start: nat, count: nat)
    requires |ds| == COUNT && Free(ds, start, count) && !ds[Slot(start, count)].own
    ensures Free(ds, start, count + 1)
  {
  }

  lemma NotFree(ds: seq<Descriptor>, start: nat, i: nat, count: nat)
    requires |ds| == COUNT && i < count && ds[Slot(start, i)].own
    ensures !Free(ds, start, count)
  {
  }

  // Of the first `count` bytes of the frame, those of the last lap of the ring lie at their positions.
  ghost predicate Latest(memory: seq<Byte>, start: nat, frame: seq<Byte>, count: nat)
    requires |memory| == RING && count <= |frame|
  {
    forall k: nat | k < count && count <= k + RING :: memory[Pos(start, k)] == frame[k]
  }

  // The first `count` bytes of the frame lie at their positions.
  ghost predicate Stored(memory: seq<Byte>, start: nat, frame: seq<Byte>, count: nat)
    requires |memory| == RING && count <= |frame|
  {
    forall k: nat | k < count :: memory[Pos(start, k)] == frame[k]
  }

  lemma PieceOfPayload(frame: seq<Byte>, sent: nat, payload: seq<Byte>, from: nat, size: nat)
    requires sent + |payload| <= |frame| && payload == frame[sent..sent + |payload|]
    requires from + size <= |payload|
    ensures payload[from..from + size] == frame[sent + from..sent + from + size]
  {
    assert forall t | 0 <= t < |payload| :: payload[t] == frame[sent..sent + |payload|][t] == frame[sent + t];
  }

  lemma NextPbuf(pbufs: seq<seq<Byte>>, frame: seq<Byte>, sent: nat)
    requires |pbufs| > 0 && sent <= |frame| && Flatten(pbufs) == frame[sent..]
    ensures sent + |pbufs[0]| <= |frame|
    ensures pbufs[0] == frame[sent..sent + |pbufs[0]|]
    ensures Flatten(pbufs[1..]) == frame[sent + |pbufs[0]|..]
  {
    var rest := Flatten(pbufs);
    assert rest == pbufs[0] + Flatten(pbufs[1..]);
    assert rest[..|pbufs[0]|] == pbufs[0];
    assert rest[|pbufs[0]|..] == Flatten(pbufs[1..]);
  }

  lemma SpillsOver(full: nat, offset: nat, sent: nat, length: nat)
    requires sent == full * BUF + offset && length - sent + offset > BUF
    ensures full + 1 <= Filled(length)
  {
  }

  lemma FilledOfRest(full: nat, offset: nat, sent: nat, length: nat)
    requires sent == full * BUF + offset && offset <= BUF
    requires offset > 0 || full == 0
    requires sent <= length
    ensures full <= Filled(length)
  {
    SnugIsFilled(full, offset, sent);
    FilledGrows(sent, length);
  }

  lemma FilledBounds(length: nat)
    ensures Filled(length) * BUF <= length <= Filled(length) * BUF + BUF
    ensures length <= RING <==> Filled(length) < COUNT
  {
  }

  lemma SlotsDiffer(start: nat, j: nat, k: nat)
    requires j < k < j + COUNT
    ensures Slot(start, j) != Slot(start, k)
  {
  }

  // Of the first `done` descriptors visited for a frame, those of the last lap are programmed for it.
  ghost predicate PreparedUpTo(ds: seq<Descriptor>, start: nat, length: nat, done: nat)
    requires |ds| == COUNT && done <= Filled(length) + 1
  {
    FilledBounds(length);
    forall i: nat | i < done <= i + COUNT :: ds[Slot(start, i)] == Programmed(i, Filled(length) + 1, length)
  }

  // Only descriptors among the first `done` visited have changed.
  ghost predicate ChangedUpTo(was: seq<Descriptor>, ds: seq<Descriptor>, start: nat, done: nat)
    requires |was| == |ds| == COUNT
  {
    forall d: nat | d < COUNT && ds[d] != was[d] :: exists i: nat | i < done :: d == Slot(start, i)
  }

  lemma PreparedOneMore(was: seq<Descriptor>, ds: seq<Descriptor>, ds': seq<Descriptor>, start: nat, length: nat, i: nat)
    requires |was| == |ds| == COUNT && i <= Filled(length)
    requires PreparedUpTo(ds, start, length, i) && ChangedUpTo(was, ds, start, i)
    requires Filled(length) * BUF <= length && ds' == ds[Slot(start, i) := Programmed(i, Filled(length) + 1, length)]
    ensures PreparedUpTo(ds', start, length, i + 1)
    ensures ChangedUpTo(was, ds', start, i + 1)
  {
    forall j: nat | j < i < j + COUNT ensures Slot(start, j) != Slot(start, i) {
      SlotsDiffer(start, j, i);
    }
  }

  /** Each descriptor of the frame's last lap is programmed for it. */
  ghost predicate Prepared(ds: seq<Descriptor>, start: nat, length: nat)
    requires |ds| == COUNT
  {
    PreparedUpTo(ds, start, length, Filled(length) + 1)
  }

  lemma NextSlot(start: nat, i: nat)
    ensures NextDescriptor(Slot(start, i)) == Slot(start, i + 1)
  {
  }

  lemma {:induction false} SegmentsFrom(memory: seq<Byte>, ds: seq<Descriptor>, start: nat, length: nat, i: nat)
    requires |memory| == RING && |ds| == COUNT && start < COUNT && length <= RING
    requires Prepared(ds, start, length) && i <= Filled(length)
    ensures i * BUF <= length && i < COUNT
    ensures Segments(memory, ds, Slot(start, i), i == 0, COUNT - i) == Some(Wire(memory, Slot(start, i), length - i * BUF))
    decreases Filled(length) - i
  {
    FilledBounds(length);
    assert ds[Slot(start, i)] == Programmed(i, Filled(length) + 1, length);
    if i < Filled(length) {
      SegmentsFrom(memory, ds, start, length, i + 1);
      NextSlot(start, i);
      assert length - i * BUF > BUF;
    }
  }

  /** A frame that fits the ring and is programmed as the HAL does leaves as it lies in the buffers. */
  lemma {:induction false} PreparedIsSent(memory: seq<Byte>, ds: seq<Descriptor>, start: nat, length: nat)
    requires |memory| == RING && |ds| == COUNT && start < COUNT && length <= RING
    requires Prepared(ds, start, length)
    ensures Sends(memory, ds, start) == Some(Wire(memory, start, length))
  {
    SegmentsFrom(memory, ds, start, length, 0);
    assert Slot(start, 0) == start;
  }

  // The visit of the frame's last lap to descriptor `d`.
  lemma LastVisit(start: nat, last: nat, d: nat) returns (i: nat)
    requires d < COUNT <= last
    ensures 0 < i <= last < i + COUNT && Slot(start, i) == d
  {
    i := last - (start + last - d) % COUNT;
  }

  /** A frame over the size of the ring comes round to its own first descriptor; no first-segment mark is left, and nothing can leave. */
  lemma {:induction false} OversizeIsNotSent(memory: seq<Byte>, ds: seq<Descriptor>, start: nat, length: nat, d: nat)
    requires |memory| == RING && |ds| == COUNT && d < COUNT && length > RING
    requires Prepared(ds, start, length)
    ensures Sends(memory, ds, d) == None
  {
    FilledBounds(length);
    var i := LastVisit(start, Filled(length), d);
    assert ds[Slot(start, i)] == Programmed(i, Filled(length) + 1, length);
  }

  /** What the DMA is to send does not change with buffers and descriptors it does not own. */
  lemma {:induction false} SegmentsKept(before: seq<Byte>, after: seq<Byte>, ds: seq<Descriptor>, ds': seq<Descriptor>,
                                        d: nat, opening: bool, left: nat)
    requires |before| == |after| == RING && |ds| == |ds'| == COUNT && d < COUNT
    requires forall p: nat | p < RING && ds[p / BUF].own :: after[p] == before[p]
    requires forall e: nat | e < COUNT && ds[e].own :: ds'[e] == ds[e]
    requires Segments(before, ds, d, opening, left).Some?
    ensures Segments(after, ds', d, opening, left) == Segments(before, ds, d, opening, left)
    decreases left
  {
    var size := ds[d].size;
    forall p: nat | d * BUF <= p < d * BUF + size ensures after[p] == before[p] {
      assert p / BUF == d;
    }
    assert after[d * BUF..d * BUF + size] == before[d * BUF..d * BUF + size];
    if !ds[d].last {
      SegmentsKept(before, after, ds, ds', NextDescriptor(d), false, left - 1);
    }
  }

  lemma {:induction false} LatestIsWire(memory: seq<Byte>, start: nat, frame: seq<Byte>)
    requires |memory| == RING && start < COUNT && |frame| <= RING && Latest(memory, start, frame, |frame|)
    ensures Wire(memory, start, |frame|) == frame
  {
    WireIsFrame(memory, start, frame);
  }

  class TxRing {
    const buffers: array<Byte>
    var descriptors: seq<Descriptor>
    // EthHandle.TxDesc
    var current: nat

    ghost predicate Valid()
      reads this
    {
      buffers.Length == RING && |descriptors| == COUNT && current < COUNT
    }

    // Copies `piece` to the current place in descriptor `d`'s buffer.
    method Copy(piece: seq<Byte>, d: nat, offset: nat)
      requires Valid() && d < COUNT && offset + |piece| <= BUF
      modifies buffers
      ensures forall t: nat | t < |piece| :: buffers[d * BUF + offset + t] == piece[t]
      ensures forall p: nat | p < RING && !(d * BUF + offset <= p < d * BUF + offset + |piece|) ::
                buffers[p] == old(buffers[p])
    {
      forall t | 0 <= t < |piece| {
        buffers[d * BUF + offset + t] := piece[t];
      }
    }

    // One copy of the gather loop, in terms of the frame.
    method Append(piece: seq<Byte>, d: nat, offset: nat, ghost full: nat, ghost sent: nat, ghost frame: seq<Byte>)
      requires Valid() && Progress(current, d, full, offset, sent)
      requires offset + |piece| <= BUF && sent + |piece| <= |frame|
      requires piece == frame[sent..sent + |piece|]
      requires Latest(buffers[..], current, frame, sent)
      requires !descriptors[d].own
      modifies buffers
      ensures Latest(buffers[..], current, frame, sent + |piece|)
      ensures forall p: nat | p < RING && descriptors[p / BUF].own :: buffers[p] == old(buffers[p])
    {
      Copy(piece, d, offset);
      forall k: nat | k < sent + |piece| && sent + |piece| <= k + RING ensures buffers[Pos(current, k)] == frame[k] {
        if k < sent {
          NotOverwritten(current, d, full, offset, sent, |piece|, k);
          assert old(buffers[..])[Pos(current, k)] == frame[k];
        } else {
          PlaceOf(current, d, full, offset, sent, k - sent);
          assert frame[k] == piece[k - sent];
        }
      }
    }

    // One turn of the inner loop: the current buffer is filled up and the next descriptor is looked at.
    method Spill(payload: seq<Byte>, from: nat, d0: nat, offset: nat,
                 ghost full: nat, ghost sent0: nat, ghost frame: seq<Byte>)
      returns (ok: bool, d: nat)
      requires Valid() && Progress(current, d0, full, offset, sent0 + from)
      requires from <= |payload| && |payload| - from + offset > BUF
      requires sent0 + |payload| <= |frame| && payload == frame[sent0..sent0 + |payload|]
      requires Latest(buffers[..], current, frame, sent0 + from)
      requires Free(descriptors, current, full + 1)
      modifies buffers
      ensures Progress(current, d, full + 1, 0, sent0 + from + BUF - offset)
      ensures Latest(buffers[..], current, frame, sent0 + from + BUF - offset)
      ensures ok ==> Free(descriptors, current, full + 2)
      ensures !ok ==> !Free(descriptors, current, Filled(sent0 + |payload|) + 1)
      ensures forall p: nat | p < RING && descriptors[p / BUF].own :: buffers[p] == old(buffers[p])
    {
      var size := BUF - offset;
      PieceOfPayload(frame, sent0, payload, from, size);
      assert d0 == Slot(current, full);
      Append(payload[from..from + size], d0, offset, full, sent0 + from, frame);
      d := NextDescriptor(d0);
      assert d == Slot(current, full + 1);
      ok := !descriptors[d].own;
      if ok {
        FreeExtends(descriptors, current, full + 1);
      } else {
        SpillsOver(full, offset, sent0 + from, sent0 + |payload|);
        NotFree(descriptors, current, full + 1, Filled(sent0 + |payload|) + 1);
      }
    }

    /** The inner loop: one packet buffer is copied, over as many descriptors as it needs. */
    method CopyPbuf(payload: seq<Byte>, d0: nat, offset0: nat, ghost full0: nat, ghost sent0: nat, ghost frame: seq<Byte>)
      returns (ok: bool, d: nat, offset: nat, ghost full: nat)
      requires Valid() && Progress(current, d0, full0, offset0, sent0)
      requires offset0 > 0 || full0 == 0
      requires sent0 + |payload| <= |frame| && payload == frame[sent0..sent0 + |payload|]
      requires Latest(buffers[..], current, frame, sent0)
      requires Free(descriptors, current, full0 + 1)
      modifies buffers
      ensures ok ==> Progress(current, d, full, offset, sent0 + |payload|) && (offset > 0 || full == 0)
      ensures ok ==> Free(descriptors, current, full + 1)
      ensures ok ==> Latest(buffers[..], current, frame, sent0 + |payload|)
      ensures !ok ==> !Free(descriptors, current, Filled(sent0 + |payload|) + 1)
      ensures forall p: nat | p < RING && descriptors[p / BUF].own :: buffers[p] == old(buffers[p])
    {
      d, offset, full := d0, offset0, full0;
      var payloadOffset: nat := 0;
      while |payload| - payloadOffset + offset > BUF
        invariant payloadOffset <= |payload|
        invariant Progress(current, d, full, offset, sent0 + payloadOffset)
        invariant offset > 0 || full == 0 || payloadOffset < |payload|
        invariant Latest(buffers[..], current, frame, sent0 + payloadOffset)
        invariant Free(descriptors, current, full + 1)
        invariant forall p: nat | p < RING && descriptors[p / BUF].own :: buffers[p] == old(buffers[p])
        decreases |payload| - payloadOffset + offset
      {
        ok, d := Spill(payload, payloadOffset, d, offset, full, sent0, frame);
        full := full + 1;
        if !ok {
          return;
        }
        payloadOffset := payloadOffset + (BUF - offset);
        offset := 0;
      }
      PieceOfPayload(frame, sent0, payload, payloadOffset, |payload| - payloadOffset);
      assert d == Slot(current, full);
      Append(payload[payloadOffset..payloadOffset + (|payload| - payloadOffset)], d, offset,
             full, sent0 + payloadOffset, frame);
      offset := offset + (|payload| - payloadOffset);
      ok := true;
    }

    // The gather loop, `rest` being still to come.
    ghost predicate Gathering(frame: seq<Byte>, rest: seq<seq<Byte>>, d: nat, offset: nat, full: nat, sent: nat)
      requires Valid()
      reads this, buffers
    {
      && sent <= |frame| && Flatten(rest) == frame[sent..]
      && Progress(current, d, full, offset, sent)
      && (offset > 0 || full == 0)
      && Latest(buffers[..], current, frame, sent)
    }

    // One turn of the gather loop: the current descriptor is looked at and a packet buffer copied.
    method GatherOne(rest: seq<seq<Byte>>, d0: nat, offset0: nat, sent: nat, ghost full0: nat, ghost frame: seq<Byte>)
      returns (ok: bool, d: nat, offset: nat, framelength: nat, ghost full: nat)
      requires Valid() && |rest| > 0 && Gathering(frame, rest, d0, offset0, full0, sent)
      requires Free(descriptors, current, full0)
      modifies buffers
      ensures ok ==> Gathering(frame, rest[1..], d, offset, full, framelength)
      ensures ok ==> Free(descriptors, current, full + 1)
      ensures !ok ==> !Free(descriptors, current, Filled(|frame|) + 1)
      ensures forall p: nat | p < RING && descriptors[p / BUF].own :: buffers[p] == old(buffers[p])
    {
      d, offset, framelength, full := d0, offset0, sent, full0;
      assert d == Slot(current, full);
      FilledOfRest(full, offset, sent, |frame|);
      if descriptors[d].own {
        NotFree(descriptors, current, full, Filled(|frame|) + 1);
        ok := false;
        return;
      }
      FreeExtends(descriptors, current, full);
      NextPbuf(rest, frame, sent);
      ok, d, offset, full := CopyPbuf(rest[0], d, offset, full, sent, frame);
      FilledGrows(sent + |rest[0]|, |frame|);
      framelength := sent + |rest[0]|;
    }

    /** rt_stm32_eth_tx up to the hand-over to the DMA. */
    method Gather(pbufs: seq<seq<Byte>>) returns (ok: bool, framelength: nat)
      requires Valid()
      modifies buffers
      ensures ok <==> |pbufs| == 0 || Free(descriptors, current, Filled(|Flatten(pbufs)|) + 1)
      ensures ok ==> framelength == |Flatten(pbufs)|
      ensures ok ==> Latest(buffers[..], current, Flatten(pbufs), framelength)
      ensures forall p: nat | p < RING && descriptors[p / BUF].own :: buffers[p] == old(buffers[p])
    {
      ghost var frame := Flatten(pbufs);
      var d: nat, offset: nat, rest := current, 0, pbufs;
      ghost var full: nat := 0;
      framelength := 0;
      ok := true;
      while |rest| > 0
        invariant Gathering(frame, rest, d, offset, full, framelength)
        invariant Free(descriptors, current, full)
        invariant |rest| == |pbufs| || Free(descriptors, current, full + 1)
        invariant forall p: nat | p < RING && descriptors[p / BUF].own :: buffers[p] == old(buffers[p])
      {
        ok, d, offset, framelength, full := GatherOne(rest, d, offset, framelength, full, frame);
        if !ok {
          return;
        }
        rest := rest[1..];
      }
      SnugIsFilled(full, offset, framelength);
    }

    // One turn of HAL_ETH_TransmitFrame's loop.
    method Program(i: nat, bufcount: nat, framelength: nat)
      requires Valid() && i < bufcount && (bufcount - 1) * BUF <= framelength
      modifies this`descriptors, this`current
      ensures Valid()
      ensures descriptors == old(descriptors)[old(current) := Programmed(i, bufcount, framelength)]
      ensures current == NextDescriptor(old(current))
    {
      var d := descriptors[current].(first := false, last := false);
      if i == 0 {
        d := d.(first := true);
      }
      d := d.(size := BUF);
      if i == bufcount - 1 {
        d := d.(last := true, size := framelength - (bufcount - 1) * BUF);
      }
      descriptors := descriptors[current := d.(own := true)];
      current := NextDescriptor(current);
    }

    /** HAL_ETH_TransmitFrame: the descriptors the frame occupies are programmed and given to the DMA. */
    method TransmitFrame(framelength: nat) returns (ok: bool)
      requires Valid()
      modifies this`descriptors, this`current
      ensures Valid()
      ensures ok <==> framelength > 0 && !old(descriptors[current].own)
      ensures !ok ==> descriptors == old(descriptors) && current == old(current)
      ensures ok ==> current == Slot(old(current), Filled(framelength) + 1)
      ensures ok ==> Prepared(descriptors, old(current), framelength)
      ensures ok ==> ChangedUpTo(old(descriptors), descriptors, old(current), Filled(framelength) + 1)
    {
      if framelength == 0 || descriptors[current].own {
        return false;
      }
      var bufcount := 1;
      if framelength > BUF {
        bufcount := framelength / BUF;
        if framelength % BUF != 0 {
          bufcount := bufcount + 1;
        }
      }
      assert bufcount == Filled(framelength) + 1;
      ghost var was, start := descriptors, current;
      assert start == Slot(start, 0);
      if bufcount == 1 {
        descriptors := descriptors[current := Descriptor(true, true, true, framelength)];
        current := NextDescriptor(current);
        PreparedOneMore(was, was, descriptors, start, framelength, 0);
        return true;
      }
      FilledBounds(framelength);
      for i := 0 to bufcount
        invariant Valid() && current == Slot(start, i)
        invariant PreparedUpTo(descriptors, start, framelength, i)
        invariant ChangedUpTo(was, descriptors, start, i)
      {
        ghost var before := descriptors;
        Program(i, bufcount, framelength);
        PreparedOneMore(was, before, descriptors, start, framelength, i);
      }
      ok := true;
    }

    /**
      rt_stm32_eth_tx. An accepted frame leaves whole if and only if it fits the
      ring, and whatever the DMA was already to send is not touched.
     */
    method Transmit(pbufs: seq<seq<Byte>>) returns (accepted: bool)
      requires Valid()
      modifies this`descriptors, this`current, buffers
      ensures Valid()
      ensures accepted <==> |pbufs| == 0 || Free(old(descriptors), old(current), Filled(|Flatten(pbufs)|) + 1)
      ensures !accepted || |Flatten(pbufs)| == 0 ==> descriptors == old(descriptors) && current == old(current)
      ensures accepted && |Flatten(pbufs)| > 0 ==> current == Slot(old(current), Filled(|Flatten(pbufs)|) + 1)
      ensures accepted && |Flatten(pbufs)| > 0 ==>
                (Sends(buffers[..], descriptors, old(current)) == Some(Flatten(pbufs)) <==> |Flatten(pbufs)| <= RING)
      ensures accepted && |Flatten(pbufs)| > RING ==>
                forall d: nat | d < COUNT :: Sends(buffers[..], descriptors, d) == None
      ensures forall start: nat | start < COUNT && old(Sends(buffers[..], descriptors, start)).Some? ::
                Sends(buffers[..], descriptors, start) == old(Sends(buffers[..], descriptors, start))
    {
      ghost var frame := Flatten(pbufs);
      var framelength;
      accepted, framelength := Gather(pbufs);
      if accepted && framelength > 0 {
        assert old(current) == Slot(old(current), 0);
        var sent := TransmitFrame(framelength);
        if framelength <= RING {
          LatestIsWire(buffers[..], old(current), frame);
          PreparedIsSent(buffers[..], descriptors, old(current), framelength);
        } else {
          forall d: nat | d < COUNT ensures Sends(buffers[..], descriptors, d) == None {
            OversizeIsNotSent(buffers[..], descriptors, old(current), framelength, d);
          }
        }
      } else if accepted {
        var sent := TransmitFrame(framelength);
      }
      ghost var memory := buffers[..];
      forall start: nat | start < COUNT && old(Sends(buffers[..], descriptors, start)).Some?
        ensures Sends(memory, descriptors, start) == old(Sends(buffers[..], descriptors, start))
      {
        SegmentsKept(old(buffers[..]), memory, old(descriptors), descriptors, start, true, COUNT);
      }
    }
  }

  function Total(lengths: seq<nat>): nat {
    if |lengths| == 0 then 0 else Total(lengths[..|lengths| - 1]) + lengths[|lengths| - 1]
  }

  /** The copying loops of rt_stm32_eth_rx: received buffers are cut up along the given packet buffer lengths. */
  method Scatter(memory: array<Byte>, start: nat, lengths: seq<nat>) returns (pbufs: seq<seq<Byte>>)
    requires memory.Length == RING && start < COUNT
    ensures |pbufs| == |lengths|
    ensures forall i | 0 <= i < |lengths| :: |pbufs[i]| == lengths[i]
    ensures |Flatten(pbufs)| == Total(lengths)
    ensures Flatten(pbufs) == Wire(memory[..], start, Total(lengths))
  {
    pbufs := [];
    var d: nat, offset: nat, j: nat := start, 0, 0;
    ghost var full: nat, sent: nat := 0, 0;
    while j < |lengths|
      invariant j == |pbufs| <= |lengths|
      invariant forall i | 0 <= i < j :: |pbufs[i]| == lengths[i]
      invariant Progress(start, d, full, offset, sent)
      invariant sent == |Flatten(pbufs)| == Total(lengths[..j])
      invariant Stored(memory[..], start, Flatten(pbufs), sent)
    {
      var payload;
      payload, d, offset, full := FillPbuf(memory, start, lengths[j], d, offset, full, Flatten(pbufs));
      FlattenSnoc(pbufs, payload);
      sent := sent + lengths[j];
      assert lengths[..j + 1][..j] == lengths[..j];
      pbufs := pbufs + [payload];
      j := j + 1;
    }
    assert lengths[..j] == lengths;
    WireIsFrame(memory[..], start, Flatten(pbufs));
  }

  // The inner loop of the scatter: one packet buffer is filled.
  method FillPbuf(memory: array<Byte>, start: nat, length: nat, d0: nat, offset0: nat,
                  ghost full0: nat, ghost before: seq<Byte>)
    returns (payload: seq<Byte>, d: nat, offset: nat, ghost full: nat)
    requires memory.Length == RING && Progress(start, d0, full0, offset0, |before|)
    requires Stored(memory[..], start, before, |before|)
    ensures |payload| == length
    ensures Progress(start, d, full, offset, |before| + length)
    ensures Stored(memory[..], start, before + payload, |before| + length)
  {
    payload, d, offset, full := [], d0, offset0, full0;
    assert before + payload == before;
    while length - |payload| + offset > BUF
      invariant |payload| <= length
      invariant Progress(start, d, full, offset, |before + payload|)
      invariant Stored(memory[..], start, before + payload, |before + payload|)
      decreases length - |payload| + offset
    {
      payload := CopyPiece(memory, start, d, offset, BUF - offset, payload, full, before);
      NextBuffer(start, d, full, |before + payload|);
      d := NextDescriptor(d);
      offset, full := 0, full + 1;
    }
    var size := length - |payload|;
    payload := CopyPiece(memory, start, d, offset, size, payload, full, before);
    offset := offset + size;
  }

  lemma NextBuffer(start: nat, d: nat, full: nat, sent: nat)
    requires Progress(start, d, full, BUF, sent)
    ensures Progress(start, NextDescriptor(d), full + 1, 0, sent)
  {
  }

  // One copy of the scatter.
  method CopyPiece(memory: array<Byte>, start: nat, d: nat, offset: nat, size: nat, payload: seq<Byte>,
                   ghost full: nat, ghost before: seq<Byte>)
    returns (payload': seq<Byte>)
    requires memory.Length == RING && offset + size <= BUF
    requires Progress(start, d, full, offset, |before + payload|)
    requires Stored(memory[..], start, before + payload, |before + payload|)
    ensures |payload'| == |payload| + size
    ensures Progress(start, d, full, offset + size, |before + payload'|)
    ensures Stored(memory[..], start, before + payload', |before + payload'|)
  {
    var piece := memory[d * BUF + offset..d * BUF + offset + size];
    TakePiece(memory[..], start, d, full, offset, before + payload, piece);
    assert before + payload + piece == before + (payload + piece);
    payload' := payload + piece;
  }

  lemma TakePiece(memory: seq<Byte>, start: nat, d: nat, full: nat, offset: nat, before: seq<Byte>, piece: seq<Byte>)
    requires |memory| == RING && Progress(start, d, full, offset, |before|)
    requires Stored(memory, start, before, |before|)
    requires offset + |piece| <= BUF && piece == memory[d * BUF + offset..d * BUF + offset + |piece|]
    ensures Stored(memory, start, before + piece, |before + piece|)
  {
    forall k: nat | k < |before + piece| ensures memory[Pos(start, k)] == (before + piece)[k] {
      if k < |before| {
        assert (before + piece)[k] == before[k];
      } else {
        PlaceOf(start, d, full, offset, |before|, k - |before|);
        assert (before + piece)[k] == piece[k - |before|];
      }
    }
  }

  lemma {:induction false} FlattenSnoc(pbufs: seq<seq<Byte>>, last: seq<Byte>)
    ensures Flatten(pbufs + [last]) == Flatten(pbufs) + last
  {
    if |pbufs| == 0 {
      assert pbufs + [last] == [last];
      assert [last][1..] == [];
      assert Flatten([last]) == last + Flatten([]);
    } else {
      assert (pbufs + [last])[1..] == pbufs[1..] + [last];
      FlattenSnoc(pbufs[1..], last);
      assert (pbufs[0] + Flatten(pbufs[1..])) + last == pbufs[0] + (Flatten(pbufs[1..]) + last);
    }
  }

  /** What the receiving DMA does with a frame: it fills its buffers one after another from `start`. */
  function Deposit(memory: seq<Byte>, start: nat, frame: seq<Byte>): (after: seq<Byte>)
    requires |memory| == RING
    ensures |after| == RING
  {
    seq(RING, p requires 0 <= p < RING =>
      var k := (p + RING - start * BUF % RING) % RING;
      if k < |frame| then frame[k] else memory[p])
  }

  lemma DepositIsRead(memory: seq<Byte>, start: nat, frame: seq<Byte>)
    requires |memory| == RING && start < COUNT && |frame| <= RING
    ensures Wire(Deposit(memory, start, frame), start, |frame|) == frame
  {
    var after := Deposit(memory, start, frame);
    forall k | 0 <= k < |frame| ensures after[Pos(start, k)] == frame[k] {
      DepositPlace(start, k);
    }
    WireIsFrame(after, start, frame);
  }

  lemma DepositPlace(start: nat, k: nat)
    requires start < COUNT && k < RING
    ensures (Pos(start, k) + RING - start * BUF % RING) % RING == k
  {
  }

  // The DMA can be made to send the frame.
  ghost predicate Sendable(start: nat, frame: seq<Byte>)
    requires start < COUNT
  {
    exists memory: seq<Byte>, ds: seq<Descriptor> ::
      |memory| == RING && |ds| == COUNT && Sends(memory, ds, start) == Some(frame)
  }

  lemma {:induction false} SegmentsAreShort(memory: seq<Byte>, ds: seq<Descriptor>, d: nat, opening: bool, left: nat)
    requires |memory| == RING && |ds| == COUNT && d < COUNT
    requires Segments(memory, ds, d, opening, left).Some?
    ensures |Segments(memory, ds, d, opening, left).value| <= left * BUF
    decreases left
  {
    if !ds[d].last {
      SegmentsAreShort(memory, ds, NextDescriptor(d), false, left - 1);
    }
  }

  // The descriptors of a frame, all others free.
  function PreparedFor(start: nat, length: nat): (ds: seq<Descriptor>)
    requires start < COUNT && Filled(length) * BUF <= length
    ensures |ds| == COUNT
  {
    seq(COUNT, d requires 0 <= d < COUNT => PreparedAt(Offset(start, d), length))
  }

  function PreparedAt(i: nat, length: nat): Descriptor
    requires Filled(length) * BUF <= length
  {
    if i <= Filled(length) then Programmed(i, Filled(length) + 1, length) else Descriptor(false, false, false, 0)
  }

  lemma ForPrepares(start: nat, length: nat)
    requires start < COUNT && length <= RING && Filled(length) * BUF <= length
    ensures Prepared(PreparedFor(start, length), start, length)
  {
    FilledBounds(length);
    forall i: nat | i <= Filled(length)
      ensures PreparedFor(start, length)[Slot(start, i)] == Programmed(i, Filled(length) + 1, length)
    {
      OffsetOfSlot(start, i);
    }
  }

  /** No programming of the descriptors makes the DMA send more than the ring holds; up to that everything can be sent. */
  lemma {:induction false} SendableIff(start: nat, frame: seq<Byte>)
    requires start < COUNT
    ensures Sendable(start, frame) <==> |frame| <= RING
  {
    if |frame| <= RING {
      var memory: seq<Byte> := Deposit(seq(RING, _ => 0), start, frame);
      DepositIsRead(seq(RING, _ => 0), start, frame);
      FilledBounds(|frame|);
      ForPrepares(start, |frame|);
      PreparedIsSent(memory, PreparedFor(start, |frame|), start, |frame|);
    } else if Sendable(start, frame) {
      var memory: seq<Byte>, ds: seq<Descriptor> :|
        |memory| == RING && |ds| == COUNT && Sends(memory, ds, start) == Some(frame);
      SegmentsAreShort(memory, ds, start, true, COUNT);
    }
  }

  /** With every descriptor free, a frame over the size of the ring is accepted, and nothing is sent. */
  method LoseOversizeFrame(tx: TxRing, frame: seq<Byte>) returns (accepted: bool)
    requires tx.Valid() && |frame| > RING
    requires forall d: nat | d < COUNT :: !tx.descriptors[d].own
    modifies tx`descriptors, tx`current, tx.buffers
    ensures tx.Valid() && accepted
    ensures forall d: nat | d < COUNT :: Sends(tx.buffers[..], tx.descriptors, d) == None
  {
    FlattenSnoc([], frame);
    assert [] + [frame] == [frame];
    accepted := tx.Transmit([frame]);
  }

  // --- Receive descriptors -------------------------------------------------

  /** OWN, FS, LS and the frame length, checksum included, of a receive descriptor. */
  datatype RxDescriptor = RxDescriptor(own: bool, first: bool, last: bool, length: nat)

  /** Where the search for a received frame stands: the frame's first descriptor, its segments so far, where to look next. */
  datatype Search = Search(found: bool, first: nat, segments: nat, current: nat, length: U16)

  function SearchFrom(ds: seq<RxDescriptor>, first: nat, segments: nat, current: nat, left: nat): (s: Search)
    requires |ds| == COUNT && current < COUNT && first < COUNT
    ensures s.current < COUNT && s.first < COUNT
    decreases left
  {
    if left == 0 || ds[current].own then Search(false, first, segments, current, 0)
    else if ds[current].last then
      Search(true, if segments == 0 then current else first, segments + 1, NextDescriptor(current),
             (ds[current].length - 4) % 0x1_0000)
    else if ds[current].first then SearchFrom(ds, current, 1, NextDescriptor(current), left - 1)
    else SearchFrom(ds, first, segments + 1, NextDescriptor(current), left - 1)
  }

  /** The first `m` of the `n` descriptors of a frame from `start` on have been filled by the DMA. */
  ghost predicate Arriving(ds: seq<RxDescriptor>, start: nat, n: nat, m: nat)
    requires |ds| == COUNT
  {
    && m <= n <= COUNT
    && (forall i: nat | i < m ::
          !ds[Slot(start, i)].own && ds[Slot(start, i)].first == (i == 0) && ds[Slot(start, i)].last == (i + 1 == n))
    && (m < n ==> ds[Slot(start, m)].own)
  }

  /**
    A frame is found when its last descriptor has arrived and not before;
    a search that came to `k` of its descriptors earlier is taken up there.
   */
  lemma {:induction false} SearchIsResumed(ds: seq<RxDescriptor>, start: nat, n: nat, m: nat, k: nat, first: nat, left: nat)
    requires |ds| == COUNT && Arriving(ds, start, n, m) && 0 < n && first < COUNT
    requires k <= m && k < n && n - k <= left
    requires k > 0 ==> first == Slot(start, 0)
    ensures var s := SearchFrom(ds, first, k, Slot(start, k), left);
            && s.found == (m == n) && s.segments == m && s.current == Slot(start, m)
            && (m > 0 ==> s.first == Slot(start, 0))
            && (m == n ==> s.length == (ds[Slot(start, n - 1)].length - 4) % 0x1_0000)
    decreases left
  {
    NextSlot(start, k);
    if k < m && k + 1 < n {
      SearchIsResumed(ds, start, n, m, k + 1, Slot(start, 0), left - 1);
    }
  }

  class RxRing {
    const buffers: array<Byte>
    var descriptors: seq<RxDescriptor>
    // EthHandle.RxDesc, RxFrameInfos.FSRxDesc and RxFrameInfos.SegCount
    var current: nat
    var first: nat
    var segments: nat

    ghost predicate Valid()
      reads this
    {
      buffers.Length == RING && |descriptors| == COUNT && current < COUNT && first < COUNT
    }

    function Sought(): Search
      requires Valid()
      reads this
    {
      SearchFrom(descriptors, first, segments, current, COUNT)
    }

    /** HAL_ETH_GetReceivedFrame_IT. */
    method GetReceivedFrame() returns (ok: bool, length: U16)
      requires Valid()
      modifies this`current, this`first, this`segments
      ensures Valid()
      ensures Search(ok, first, segments, current, length) == old(Sought())
    {
      var scanned := 0;
      ok, length := false, 0;
      while !ok && !descriptors[current].own && scanned < COUNT
        invariant Valid() && scanned <= COUNT
        invariant ok ==> Search(ok, first, segments, current, length) == old(Sought())
        invariant !ok ==> length == 0 && SearchFrom(descriptors, first, segments, current, COUNT - scanned) == old(Sought())
        decreases !ok, COUNT - scanned
      {
        ok, length := Look(COUNT - scanned);
        scanned := scanned + 1;
      }
    }

    // One turn of the search; a frame's last descriptor ends it.
    method Look(ghost left: nat) returns (ok: bool, length: U16)
      requires Valid() && !descriptors[current].own && left > 0
      modifies this`current, this`first, this`segments
      ensures Valid()
      ensures !ok ==> length == 0
      ensures old(SearchFrom(descriptors, first, segments, current, left)) ==
              if ok then Search(ok, first, segments, current, length)
              else SearchFrom(descriptors, first, segments, current, left - 1)
    {
      var d := descriptors[current];
      ok, length := false, 0;
      if d.first && !d.last {
        first := current;
        segments := 1;
      } else if !d.first && !d.last {
        segments := segments + 1;
      } else {
        segments := segments + 1;
        if segments == 1 {
          first := current;
        }
        ok, length := true, (d.length - 4) % 0x1_0000;
      }
      current := NextDescriptor(current);
    }

    // The end of rt_stm32_eth_rx: the frame's descriptors go back to the DMA.
    method Release()
      requires Valid()
      modifies this`descriptors, this`segments
      ensures Valid() && segments == 0
      ensures Released(old(descriptors), descriptors, first, old(segments))
    {
      var d := first;
      ghost var was, start := descriptors, first;
      for i := 0 to segments
        invariant Valid() && d == Slot(start, i) && first == start
        invariant Released(was, descriptors, start, i)
      {
        ReleaseOneMore(was, descriptors, start, i);
        descriptors := descriptors[d := descriptors[d].(own := true)];
        NextSlot(start, i);
        d := NextDescriptor(d);
      }
      segments := 0;
    }

    /**
      rt_stm32_eth_rx. `lengths` are the packet buffers the allocator provides
      for a frame, or it provides none.
     */
    method Receive(lengths: Option<seq<nat>>) returns (pbufs: Option<seq<seq<Byte>>>)
      requires Valid()
      requires lengths.Some? && Sought().found ==> Total(lengths.value) == Sought().length
      modifies this`descriptors, this`current, this`first, this`segments
      ensures Valid()
      ensures current == old(Sought()).current && first == old(Sought()).first
      ensures !old(Sought()).found ==>
                pbufs == None && descriptors == old(descriptors) && segments == old(Sought()).segments
      ensures old(Sought()).found ==>
                segments == 0 && Released(old(descriptors), descriptors, first, old(Sought()).segments)
      ensures old(Sought()).found ==> (pbufs.Some? <==> lengths.Some? && old(Sought()).length > 0)
      ensures pbufs.Some? ==> |pbufs.value| == |lengths.value|
      ensures pbufs.Some? ==> forall i | 0 <= i < |lengths.value| :: |pbufs.value[i]| == lengths.value[i]
      ensures pbufs.Some? ==> Flatten(pbufs.value) == Wire(buffers[..], first, old(Sought()).length)
    {
      var ok, length := GetReceivedFrame();
      pbufs := None;
      if !ok {
        return;
      }
      if length > 0 && lengths.Some? {
        var filled := Scatter(buffers, first, lengths.value);
        pbufs := Some(filled);
      }
      Release();
    }
  }

  // The first `n` descriptors from `first` on have been given to the DMA; nothing else has changed.
  ghost predicate Released(was: seq<RxDescriptor>, ds: seq<RxDescriptor>, first: nat, n: nat)
    requires |was| == |ds| == COUNT
  {
    && (forall i: nat | i < n :: ds[Slot(first, i)].own)
    && (forall d: nat | d < COUNT :: ds[d] == was[d].(own := ds[d].own))
    && (forall d: nat | d < COUNT && ds[d] != was[d] :: exists i: nat | i < n :: d == Slot(first, i))
  }

  lemma ReleaseOneMore(was: seq<RxDescriptor>, ds: seq<RxDescriptor>, first: nat, n: nat)
    requires |was| == |ds| == COUNT && Released(was, ds, first, n)
    ensures Released(was, ds[Slot(first, n) := ds[Slot(first, n)].(own := true)], first, n + 1)
  {
  }

  // What the receiving DMA makes of its descriptors for a frame of `length` bytes, checksum included.
  function Marked(ds: seq<RxDescriptor>, start: nat, length: nat): (ds': seq<RxDescriptor>)
    requires |ds| == COUNT && start < COUNT
    ensures |ds'| == COUNT
  {
    seq(COUNT, d requires 0 <= d < COUNT => MarkedAt(ds[d], Offset(start, d), length))
  }

  function MarkedAt(d: RxDescriptor, i: nat, length: nat): RxDescriptor {
    if i <= Filled(length) then RxDescriptor(false, i == 0, i == Filled(length), length) else d
  }

  lemma MarkedArrives(ds: seq<RxDescriptor>, start: nat, length: nat)
    requires |ds| == COUNT && start < COUNT && length <= RING
    ensures Arriving(Marked(ds, start, length), start, Filled(length) + 1, Filled(length) + 1)
    ensures Marked(ds, start, length)[Slot(start, Filled(length))].length == length
  {
    FilledBounds(length);
    forall i: nat | i <= Filled(length)
      ensures Marked(ds, start, length)[Slot(start, i)] == RxDescriptor(false, i == 0, i == Filled(length), length)
    {
      OffsetOfSlot(start, i);
    }
  }

  /** Nothing is under way and the DMA owns every descriptor. */
  ghost predicate Idle(rx: RxRing)
    reads rx
  {
    rx.Valid() && rx.segments == 0 && forall d: nat | d < COUNT :: rx.descriptors[d].own
  }

  /** A frame has arrived, with its checksum, and waits to be received. */
  ghost predicate Waiting(rx: RxRing, frame: seq<Byte>)
    reads rx, rx.buffers
  {
    && rx.Valid() && |frame| < 0x1_0000
    && rx.Sought() == Search(true, rx.current, Segmented(frame), Slot(rx.current, Segmented(frame)), |frame|)
    && Wire(rx.buffers[..], rx.current, |frame|) == frame
    && forall d: nat | d < COUNT && !rx.descriptors[d].own :: Offset(rx.current, d) < Segmented(frame)
  }

  // How many receive descriptors a frame with its checksum takes up.
  function Segmented(frame: seq<Byte>): nat {
    Filled(|frame| + 4) + 1
  }

  lemma AllReturned(was: seq<RxDescriptor>, ds: seq<RxDescriptor>, start: nat, n: nat)
    requires |was| == |ds| == COUNT && start < COUNT
    requires forall d: nat | d < COUNT && !was[d].own :: Offset(start, d) < n
    requires Released(was, ds, start, n)
    ensures forall d: nat | d < COUNT :: ds[d].own
  {
    forall d: nat | d < COUNT ensures ds[d].own {
      if !was[d].own {
        assert ds[Slot(start, Offset(start, d))].own;
      }
    }
  }

  lemma {:induction false} WithoutChecksum(memory: seq<Byte>, start: nat, frame: seq<Byte>, checksum: seq<Byte>)
    requires |memory| == RING && start < COUNT
    requires Wire(memory, start, |frame + checksum|) == frame + checksum
    ensures Wire(memory, start, |frame|) == frame
  {
    forall k | 0 <= k < |frame| ensures memory[Pos(start, k)] == frame[k] {
      WireByte(memory, start, |frame + checksum|, k);
      assert (frame + checksum)[k] == frame[k];
    }
    WireIsFrame(memory, start, frame);
  }

  lemma {:induction false} ArrivedIsFound(ds: seq<RxDescriptor>, start: nat, size: nat, first: nat, left: nat)
    requires |ds| == COUNT && start < COUNT && first < COUNT && size + 4 <= RING && left >= COUNT
    ensures SearchFrom(Marked(ds, start, size + 4), first, 0, start, left) ==
            Search(true, start, Filled(size + 4) + 1, Slot(start, Filled(size + 4) + 1), size)
  {
    var n := Filled(size + 4) + 1;
    MarkedArrives(ds, start, size + 4);
    FilledBounds(size + 4);
    assert Slot(start, 0) == start;
    SearchIsResumed(Marked(ds, start, size + 4), start, n, n, 0, first, left);
  }

  lemma {:induction false} ArrivedIsRead(memory: seq<Byte>, start: nat, frame: seq<Byte>, checksum: seq<Byte>)
    requires |memory| == RING && start < COUNT && |frame + checksum| <= RING
    ensures Wire(Deposit(memory, start, frame + checksum), start, |frame|) == frame
  {
    DepositIsRead(memory, start, frame + checksum);
    WithoutChecksum(Deposit(memory, start, frame + checksum), start, frame, checksum);
  }

  // The DMA receives a frame with its checksum.
  method Arrive(rx: RxRing, frame: seq<Byte>, checksum: seq<Byte>)
    requires Idle(rx) && |checksum| == 4 && |frame| + 4 <= RING
    modifies rx`descriptors, rx.buffers
    ensures Waiting(rx, frame)
  {
    ghost var was, memory := rx.descriptors, rx.buffers[..];
    var after := Deposit(rx.buffers[..], rx.current, frame + checksum);
    forall p | 0 <= p < RING { rx.buffers[p] := after[p]; }
    assert rx.buffers[..] == after;
    rx.descriptors := Marked(rx.descriptors, rx.current, |frame| + 4);
    ArrivedIsFound(was, rx.current, |frame|, rx.first, COUNT);
    ArrivedIsRead(memory, rx.current, frame, checksum);
  }

  /** A frame that waits is received, whatever packet buffers it is cut into, and the ring is idle again. */
  method Collect(rx: RxRing, lengths: seq<nat>, ghost frame: seq<Byte>) returns (received: seq<seq<Byte>>)
    requires Waiting(rx, frame) && Total(lengths) == |frame| > 0
    modifies rx
    ensures Idle(rx) && rx.current == Slot(old(rx.current), Segmented(frame))
    ensures |received| == |lengths|
    ensures forall i | 0 <= i < |lengths| :: |received[i]| == lengths[i]
    ensures Flatten(received) == frame
  {
    ghost var was, start := rx.descriptors, rx.current;
    var pbufs := rx.Receive(Some(lengths));
    AllReturned(was, rx.descriptors, start, Segmented(frame));
    received := pbufs.value;
  }

  /** End to end: what one driver sends, another receives, however either side cuts its packet buffers. */
  method Loopback(tx: TxRing, pbufs: seq<seq<Byte>>, rx: RxRing, checksum: seq<Byte>, lengths: seq<nat>)
    returns (accepted: bool, received: seq<seq<Byte>>)
    requires tx.Valid() && Idle(rx) && tx.buffers != rx.buffers
    requires 0 < |Flatten(pbufs)| && |Flatten(pbufs)| + 4 <= RING
    requires |checksum| == 4 && Total(lengths) == |Flatten(pbufs)|
    modifies tx, tx.buffers, rx, rx.buffers
    ensures tx.Valid() && Idle(rx)
    ensures accepted <==> Free(old(tx.descriptors), old(tx.current), Filled(|Flatten(pbufs)|) + 1)
    ensures accepted ==> |received| == |lengths|
    ensures accepted ==> forall i | 0 <= i < |lengths| :: |received[i]| == lengths[i]
    ensures accepted ==> Flatten(received) == Flatten(pbufs)
  {
    var from := tx.current;
    accepted := tx.Transmit(pbufs);
    received := [];
    if accepted {
      var wire := Sends(tx.buffers[..], tx.descriptors, from);
      Arrive(rx, wire.value, checksum);
      received := Collect(rx, lengths, wire.value);
    }
  }
}
