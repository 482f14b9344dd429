/**
  drv_flash_f4.c: erasing, programming and reading the 512 KB flash of the
  STM32F407VE. Erasing sets every bit of a sector; programming can only clear
  bits.
 */
module Flash {
  const BASE := 0x0800_0000 // STM32_FLASH_START_ADRESS
  const SIZE := 0x8_0000    // STM32_FLASH_SIZE
  const END := 0x0808_0000  // STM32_FLASH_END_ADDRESS
  const WORD := 0x1_0000_0000
  const SECTORS := 8
  const ERASED: bv8 := 0xFF

  datatype Outcome = Done(size: nat) | Invalid | Failed

  // ---- The sectors: four of 16 KB, one of 64 KB, three of 128 KB ----

  // The driver knows four more sectors than the part has, and takes any other address for sector 0.
  function GetSector(address: nat): (s: nat)
    ensures BASE <= address < END ==> s < SECTORS
    ensures address < BASE ==> s == 0
  {
    if BASE <= address < 0x0800_4000 then 0
    else if BASE <= address < 0x0800_8000 then 1
    else if BASE <= address < 0x0800_C000 then 2
    else if BASE <= address < 0x0801_0000 then 3
    else if BASE <= address < 0x0802_0000 then 4
    else if BASE <= address < 0x0804_0000 then 5
    else if BASE <= address < 0x0806_0000 then 6
    else if BASE <= address < END then 7
    else if END <= address < 0x0810_0000 then 8 + (address - END) / 0x2_0000
    else 0
  }

  // Where sector `s` begins; sector 8 would begin at the end.
  function SectorStart(s: nat): (address: nat)
    requires s <= SECTORS
  {
    if s <= 4 then BASE + s * 0x4000 else BASE + (s - 4) * 0x2_0000
  }

  lemma SectorOfItsCells(s: nat, address: nat)
    requires s < SECTORS && BASE <= address < END
    ensures GetSector(address) == s <==> SectorStart(s) <= address < SectorStart(s + 1)
  {
  }

  /** The sectors between that of the first and that of the last address are those the range meets. */
  lemma RangeMeetsSector(addr: nat, size: nat, s: nat)
    requires BASE <= addr && size > 0 && addr + size <= END && s < SECTORS
    ensures GetSector(addr) <= s <= GetSector(addr + size - 1) <==>
            exists a: nat | addr <= a < addr + size :: GetSector(a) == s
  {
    if GetSector(addr) <= s <= GetSector(addr + size - 1) {
      var a := if GetSector(addr) == s then addr else SectorStart(s);
      SectorOfItsCells(s, a);
      assert addr <= a < addr + size;
    }
  }

  // ---- How a range is cut into programs ----

  // The widths of the programs issued from `at` up to `end`.
  function Plan(at: nat, end: nat): (widths: seq<nat>)
    decreases end - at
  {
    if at >= end then []
    else [Width(at, end)] + Plan(at + Width(at, end), end)
  }

  function Width(at: nat, end: nat): (w: nat)
    requires at < end
    ensures w in {1, 2, 4} && at + w <= end
  {
    if at % 4 == 0 && end - at >= 4 then 4
    else if at % 2 == 0 && end - at >= 2 then 2
    else 1
  }

  lemma WidthIsAligned(at: nat, end: nat)
    requires at < end
    ensures at % Width(at, end) == 0
  {
  }

  lemma PlanStep(at: nat, end: nat)
    requires at < end
    ensures |Plan(at, end)| > 0 && Plan(at, end)[0] == Width(at, end)
    ensures Plan(at, end)[1..] == Plan(at + Width(at, end), end)
    ensures |Plan(at, end)| == 1 + |Plan(at + Width(at, end), end)|
  {
  }

  /** Programs of one, two or four bytes, each naturally aligned, covering a range in order. */
  ghost predicate Covers(widths: seq<nat>, at: nat, end: nat)
    decreases |widths|
  {
    if |widths| == 0 then at == end
    else
      && widths[0] in {1, 2, 4} && at % widths[0] == 0 && at + widths[0] <= end
      && Covers(widths[1..], at + widths[0], end)
  }

  lemma {:induction false} PlanCovers(at: nat, end: nat)
    requires at <= end
    ensures Covers(Plan(at, end), at, end)
    decreases end - at
  {
    if at < end {
      PlanStep(at, end);
      WidthIsAligned(at, end);
      PlanCovers(at + Width(at, end), end);
    }
  }

  lemma Unfold(widths: seq<nat>, at: nat, end: nat)
    requires Covers(widths, at, end) && at < end
    ensures |widths| > 0 && widths[0] in {1, 2, 4} && at % widths[0] == 0 && at + widths[0] <= end
    ensures Covers(widths[1..], at + widths[0], end)
  {
  }

  lemma Parity(at: nat)
    ensures at % 2 == at % 4 % 2
  {
    var q, r := at / 4, at % 4;
    if r < 2 {
      assert at == 2 * (2 * q) + r;
    } else {
      assert at == 2 * (2 * q + 1) + (r - 2);
    }
  }

  // However the bytes of one of the driver's programs are covered, that cover stops at its end.
  lemma SplitHalf(widths: seq<nat>, at: nat, end: nat) returns (k: nat)
    requires Covers(widths, at, end) && at % 2 == 0 && at + 2 <= end
    requires |widths| > 0 && widths[0] <= 2
    ensures 1 <= k <= |widths| && Covers(widths[k..], at + 2, end)
  {
    Unfold(widths, at, end);
    k := 1;
    if widths[0] == 1 {
      var rest := widths[1..];
      Parity(at);
      Parity(at + 1);
      Unfold(rest, at + 1, end);
      assert rest[0] == 1;
      assert rest[1..] == widths[2..];
      k := 2;
    }
  }

  lemma SplitWord(widths: seq<nat>, at: nat, end: nat) returns (k: nat)
    requires Covers(widths, at, end) && at % 4 == 0 && at + 4 <= end
    ensures 1 <= k <= |widths| && Covers(widths[k..], at + 4, end)
  {
    Unfold(widths, at, end);
    if widths[0] == 4 {
      k := 1;
    } else {
      Parity(at);
      Parity(at + 2);
      var i := SplitHalf(widths, at, end);
      var rest := widths[i..];
      Unfold(rest, at + 2, end);
      var j := SplitHalf(rest, at + 2, end);
      assert rest[j..] == widths[i + j..];
      k := i + j;
    }
  }

  lemma SplitFirst(widths: seq<nat>, at: nat, end: nat) returns (k: nat)
    requires Covers(widths, at, end) && at < end
    ensures 1 <= k <= |widths| && Covers(widths[k..], at + Width(at, end), end)
  {
    Unfold(widths, at, end);
    if Width(at, end) == 4 {
      k := SplitWord(widths, at, end);
    } else if Width(at, end) == 2 {
      k := SplitHalf(widths, at, end);
    } else {
      k := 1;
    }
  }

  /** No aligned way of programming a range needs fewer programs than the driver issues. */
  lemma {:induction false} PlanIsShortest(widths: seq<nat>, at: nat, end: nat)
    requires at <= end && Covers(widths, at, end)
    ensures |Plan(at, end)| <= |widths|
    decreases end - at
  {
    if at < end {
      PlanStep(at, end);
      var k := SplitFirst(widths, at, end);
      PlanIsShortest(widths[k..], at + Width(at, end), end);
    }
  }

  // At most two programs bring the address to a word boundary, and at most two follow the words.
  function Bound(at: nat, size: nat): (most: nat)
    ensures most <= size / 4 + 4
  {
    if size <= 1 then size
    else size / 4 + (if at % 4 == 0 then 2 else if at % 4 == 1 then 4 else 3)
  }

  lemma BoundSteps(at: nat, end: nat)
    requires at < end
    ensures 1 + Bound(at + Width(at, end), end - at - Width(at, end)) <= Bound(at, end - at)
  {
    Modulo4(at, Width(at, end));
    Parity(at);
    if Width(at, end) == 4 {
      assert (end - at - 4) / 4 == (end - at) / 4 - 1;
    }
  }

  lemma Modulo4(at: nat, w: nat)
    ensures (at + w) % 4 == (at % 4 + w) % 4
  {
    assert at + w == 4 * (at / 4) + (at % 4 + w);
  }

  lemma {:induction false} PlanIsShort(at: nat, end: nat)
    requires at <= end
    ensures |Plan(at, end)| <= Bound(at, end - at) <= (end - at) / 4 + 4
    decreases end - at
  {
    if at < end {
      BoundSteps(at, end);
      PlanIsShort(at + Width(at, end), end);
      PlanStep(at, end);
    }
  }

  // ---- The driver ----

  // The range check of all three operations, with its 32-bit sum.
  predicate OutOfRange(addr: nat, size: nat) {
    (addr + size) % WORD > END
  }

  predicate Inside(addr: nat, size: nat) {
    BASE <= addr && addr + size <= END
  }

  /** A range the check admits lies inside the part, if and only if it begins there or later and its sum does not wrap. */
  lemma RangeCheck(addr: nat, size: nat)
    requires addr < 0x1_0000_0000 && size < 0x1_0000_0000
    ensures Inside(addr, size) ==> !OutOfRange(addr, size)
    ensures !OutOfRange(addr, size) ==> (Inside(addr, size) <==> BASE <= addr && addr + size < 0x1_0000_0000)
  {
  }

  /** Two ranges outside the part that the check admits; erasing the first clears the part's first sector. */
  lemma RangeCheckMisses()
    ensures !OutOfRange(0, 16) && !Inside(0, 16) && Between(0, 16, GetSector(BASE))
    ensures !OutOfRange(0xFFFF_FFF0, 0x20) && !Inside(0xFFFF_FFF0, 0x20)
  {
  }

  // What a load from `address` gives: a cell of the part, or whatever else is there.
  function Load(cells: seq<bv8>, elsewhere: nat -> bv8, address: nat): bv8
    requires |cells| == SIZE
  {
    if BASE <= address < END then cells[address - BASE] else elsewhere(address)
  }

  class Part {
    // Cell `i` is at address BASE + i.
    const cells: array<bv8>

    ghost predicate Valid() {
      cells.Length == SIZE
    }

    /** HAL_FLASH_Program: `value` are the bytes of the byte, halfword or word. */
    method Program(addr: nat, value: seq<bv8>)
      requires Valid() && BASE <= addr && addr + |value| <= END
      requires |value| in {1, 2, 4} && addr % |value| == 0
      modifies cells
      ensures forall i: nat | i < SIZE :: cells[i] ==
                if addr <= BASE + i < addr + |value| then old(cells[i]) & value[BASE + i - addr] else old(cells[i])
    {
      forall i: nat | i < |value| {
        cells[addr - BASE + i] := cells[addr - BASE + i] & value[i];
      }
    }

    /** stm32_flash_read; the address is a 32-bit pointer that may leave the part. */
    method Read(addr: nat, size: nat, elsewhere: nat -> bv8) returns (outcome: Outcome, buf: seq<bv8>)
      requires Valid() && addr < WORD && size < WORD
      ensures outcome == if OutOfRange(addr, size) then Invalid else Done(size)
      ensures outcome.Done? ==> |buf| == size
      ensures outcome.Done? ==> forall i: nat | i < size :: buf[i] == Load(cells[..], elsewhere, (addr + i) % WORD)
      ensures Inside(addr, size) ==> outcome == Done(size) && buf == cells[addr - BASE..addr - BASE + size]
    {
      if OutOfRange(addr, size) {
        return Invalid, [];
      }
      buf := [];
      for i := 0 to size
        invariant |buf| == i
        invariant forall k: nat | k < i :: buf[k] == Load(cells[..], elsewhere, (addr + k) % WORD)
      {
        buf := buf + [Load(cells[..], elsewhere, (addr + i) % WORD)];
      }
      outcome := Done(size);
      if Inside(addr, size) {
        forall k: nat | k < size ensures buf[k] == cells[addr - BASE..addr - BASE + size][k] {
          assert (addr + k) % WORD == addr + k;
        }
      }
    }

    // One program and its check.
    method WriteOne(at: nat, value: seq<bv8>) returns (ok: bool)
      requires Valid() && BASE <= at && at + |value| <= END
      requires |value| in {1, 2, 4} && at % |value| == 0
      modifies cells
      ensures ok <==> Clear(old(cells[..]), at, value)
      ensures ok ==> cells[at - BASE..at - BASE + |value|] == value
      ensures forall i: nat | i < SIZE && !(at <= BASE + i < at + |value|) :: cells[i] == old(cells[i])
    {
      Program(at, value);
      ReadBack(old(cells[..]), cells[..], at, value);
      ok := cells[at - BASE..at - BASE + |value|] == value;
    }

    // The width of a turn having been chosen, its program and check.
    method WritePiece(addr: nat, buf: seq<bv8>, written: nat, w: nat, ghost before: seq<bv8>) returns (ok: bool)
      requires Valid() && |before| == SIZE && BASE <= addr && addr + |buf| <= END
      requires w in {1, 2, 4} && written + w <= |buf| && (addr + written) % w == 0
      requires Written(before, cells[..], addr, buf, written)
      modifies cells
      ensures ok ==> Written(before, cells[..], addr, buf, written + w)
      ensures !ok ==> !Clear(before, addr, buf) && Untouched(before, cells[..], addr, |buf|)
    {
      var at := addr + written;
      var value := buf[written..written + w];
      ghost var now := cells[..];
      ok := WriteOne(at, value);
      if ok {
        PieceWritten(before, now, cells[..], addr, buf, written, w);
      } else {
        PieceRefused(before, now, addr, buf, written, w);
      }
    }

    // One turn of the write loop. The log grows by the program issued.
    method WriteTurn(addr: nat, buf: seq<bv8>, written: nat, ghost before: seq<bv8>, ghost log: seq<nat>)
      returns (ok: bool, next: nat, ghost longer: seq<nat>)
      requires Valid() && |before| == SIZE && BASE <= addr && addr + |buf| <= END && written < |buf|
      requires Written(before, cells[..], addr, buf, written)
      requires Followed(log, addr, addr + written, addr + |buf|)
      modifies cells
      ensures written < next <= |buf|
      ensures ok ==> Written(before, cells[..], addr, buf, next)
      ensures ok ==> Followed(longer, addr, addr + next, addr + |buf|)
      ensures !ok ==> !Clear(before, addr, buf) && Untouched(before, cells[..], addr, |buf|)
      ensures !ok ==> longer <= Plan(addr, addr + |buf|)
    {
      var w;
      if (addr + written) % 4 == 0 && |buf| - written >= 4 {
        w := 4;
      } else if (addr + written) % 2 == 0 && |buf| - written >= 2 {
        w := 2;
      } else {
        w := 1;
      }
      next := written + w;
      longer := log + [w];
      LogGrows(log, w, addr, addr + written, addr + next, addr + |buf|);
      ok := WritePiece(addr, buf, written, w, before);
    }

    // The write loop.
    method WriteAll(addr: nat, buf: seq<bv8>) returns (ok: bool, ghost log: seq<nat>)
      requires Valid() && BASE <= addr && addr + |buf| <= END
      modifies cells
      ensures !ok ==> !Clear(old(cells[..]), addr, buf)
      ensures ok ==> Written(old(cells[..]), cells[..], addr, buf, |buf|)
      ensures ok ==> Followed(log, addr, addr + |buf|, addr + |buf|)
      ensures !ok ==> Untouched(old(cells[..]), cells[..], addr, |buf|)
      ensures !ok ==> log <= Plan(addr, addr + |buf|)
    {
      log := [];
      var written: nat := 0;
      FollowedWhole(log, addr, addr + |buf|);
      while written < |buf|
        invariant written <= |buf|
        invariant Written(old(cells[..]), cells[..], addr, buf, written)
        invariant Followed(log, addr, addr + written, addr + |buf|)
      {
        ok, written, log := WriteTurn(addr, buf, written, old(cells[..]), log);
        if !ok {
          return;
        }
      }
      ok := true;
    }

    /** stm32_flash_write: succeeds exactly if no bit has to be set, with the programs of the plan. */
    method Write(addr: nat, buf: seq<bv8>) returns (outcome: Outcome, ghost log: seq<nat>)
      requires Valid() && addr < WORD && |buf| < WORD
      requires OutOfRange(addr, |buf|) || |buf| == 0 || Inside(addr, |buf|)
      modifies cells
      ensures outcome ==
              if OutOfRange(addr, |buf|) || |buf| == 0 then Invalid
              else if Clear(old(cells[..]), addr, buf) then Done(|buf|)
              else Failed
      ensures outcome.Invalid? ==> cells[..] == old(cells[..]) && log == []
      ensures outcome.Done? ==> Written(old(cells[..]), cells[..], addr, buf, |buf|) && log == Plan(addr, addr + |buf|)
      ensures outcome.Failed? ==> Untouched(old(cells[..]), cells[..], addr, |buf|) && log <= Plan(addr, addr + |buf|)
    {
      if OutOfRange(addr, |buf|) {
        return Invalid, [];
      }
      if |buf| < 1 {
        return Invalid, [];
      }
      var ok;
      ok, log := WriteAll(addr, buf);
      if ok {
        FollowedWhole(log, addr, addr + |buf|);
        WrittenIsClear(old(cells[..]), cells[..], addr, buf);
      }
      outcome := if ok then Done(|buf|) else Failed;
    }

    // HAL_FLASHEx_Erase on one sector.
    method EraseSector(s: nat)
      requires Valid() && s < SECTORS
      modifies cells
      ensures forall i: nat | i < SIZE :: cells[i] == if GetSector(BASE + i) == s then ERASED else old(cells[i])
    {
      forall i: nat | SectorStart(s) - BASE <= i < SectorStart(s + 1) - BASE {
        cells[i] := ERASED;
      }
      forall i: nat | i < SIZE ensures cells[i] == if GetSector(BASE + i) == s then ERASED else old(cells[i]) {
        SectorOfItsCells(s, BASE + i);
      }
    }

    /**
      stm32_flash_erase: the sectors from that of the first address to that of
      the last, which for a range inside the part are those that meet it.
     */
    method Erase(addr: nat, size: nat) returns (outcome: Outcome)
      requires Valid() && addr < WORD && size < WORD
      modifies cells
      ensures outcome == if OutOfRange(addr, size) || size == 0 then Invalid else Done(size)
      ensures outcome.Invalid? ==> cells[..] == old(cells[..])
      ensures outcome.Done? ==> forall i: nat | i < SIZE ::
                cells[i] == if Between(addr, size, GetSector(BASE + i)) then ERASED else old(cells[i])
      ensures outcome.Done? && Inside(addr, size) ==> forall i: nat | i < SIZE ::
                cells[i] == if Meets(addr, size, GetSector(BASE + i)) then ERASED else old(cells[i])
    {
      if OutOfRange(addr, size) {
        return Invalid;
      }
      if size < 1 {
        return Invalid;
      }
      var firstSector := GetSector(addr);
      var nbOfSectors := (GetSector((addr + size - 1) % WORD) + WORD - firstSector + 1) % WORD;
      var end := (firstSector + nbOfSectors) % WORD;
      LastSector(addr, size);
      assert end == GetSector((addr + size - 1) % WORD) + 1;
      var s := firstSector;
      while s < end
        invariant firstSector <= s && (s <= end || s == firstSector)
        invariant forall i: nat | i < SIZE ::
                    cells[i] == if firstSector <= GetSector(BASE + i) < s then ERASED else old(cells[i])
      {
        EraseSector(s);
        s := s + 1;
      }
      if Inside(addr, size) {
        forall k: nat | k < SECTORS ensures Meets(addr, size, k) <==> Between(addr, size, k) {
          RangeMeetsSector(addr, size, k);
        }
      }
      outcome := Done(size);
    }

    /** Erasing, writing and reading back: the data returns, and whole other sectors are as they were. */
    method Store(addr: nat, buf: seq<bv8>, elsewhere: nat -> bv8)
      returns (erased: Outcome, written: Outcome, read: Outcome, back: seq<bv8>)
      requires Valid() && BASE <= addr && |buf| > 0 && addr + |buf| <= END
      modifies cells
      ensures erased == written == read == Done(|buf|)
      ensures back == buf
      ensures forall i: nat | i < SIZE && !Meets(addr, |buf|, GetSector(BASE + i)) :: cells[i] == old(cells[i])
    {
      erased := Erase(addr, |buf|);
      forall i: nat | addr - BASE <= i < addr - BASE + |buf| ensures cells[i] == ERASED {
        assert addr <= BASE + i < addr + |buf|;
      }
      ErasedIsClear(cells[..], addr, buf);
      ghost var log;
      written, log := Write(addr, buf);
      read, back := Read(addr, |buf|, elsewhere);
    }
  }

  // The sector lies between those of the first and the last address, in 32 bits.
  predicate Between(addr: nat, size: nat, s: nat)
    requires size > 0
  {
    GetSector(addr) <= s <= GetSector((addr + size - 1) % WORD)
  }

  // The last address of an admitted range is in a sector of the part, or taken for one.
  lemma LastSector(addr: nat, size: nat)
    requires addr < WORD && 0 < size < WORD && !OutOfRange(addr, size)
    ensures GetSector((addr + size - 1) % WORD) < SECTORS
    ensures GetSector(addr) < 12
  {
  }

  // The sector holds an address of the range.
  ghost predicate Meets(addr: nat, size: nat, s: nat)
    requires BASE <= addr && addr + size <= END
  {
    exists a: nat | addr <= a < addr + size :: GetSector(a) == s
  }

  // Nothing outside the range differs.
  ghost predicate Untouched(before: seq<bv8>, after: seq<bv8>, addr: nat, size: nat)
    requires |before| == |after| == SIZE
  {
    forall i: nat | i < SIZE && !(addr <= BASE + i < addr + size) :: after[i] == before[i]
  }

  // The first `count` bytes of `buf` are in place, could be, and nothing else differs.
  ghost predicate Written(before: seq<bv8>, after: seq<bv8>, addr: nat, buf: seq<bv8>, count: nat)
    requires |before| == |after| == SIZE && BASE <= addr && addr + |buf| <= END && count <= |buf|
  {
    && Untouched(before, after, addr, count)
    && forall i: nat | i < count :: after[addr - BASE + i] == buf[i] && before[addr - BASE + i] & buf[i] == buf[i]
  }

  lemma WrittenIsClear(before: seq<bv8>, after: seq<bv8>, addr: nat, buf: seq<bv8>)
    requires |before| == |after| == SIZE && BASE <= addr && addr + |buf| <= END
    requires Written(before, after, addr, buf, |buf|)
    ensures Clear(before, addr, buf)
    ensures after[addr - BASE..addr - BASE + |buf|] == buf
  {
    forall i: nat | i < |buf| ensures before[addr - BASE + i] & buf[i] == buf[i] {
      assert after[addr - BASE + i] == buf[i];
    }
  }

  lemma PieceWritten(before: seq<bv8>, now: seq<bv8>, after: seq<bv8>, addr: nat, buf: seq<bv8>, written: nat, w: nat)
    requires |before| == |now| == |after| == SIZE && BASE <= addr && addr + |buf| <= END && written + w <= |buf|
    requires Written(before, now, addr, buf, written)
    requires Clear(now, addr + written, buf[written..written + w])
    requires after[addr + written - BASE..addr + written - BASE + w] == buf[written..written + w]
    requires Untouched(now, after, addr + written, w)
    ensures Written(before, after, addr, buf, written + w)
  {
    forall i: nat | i < written + w
      ensures after[addr - BASE + i] == buf[i] && before[addr - BASE + i] & buf[i] == buf[i]
    {
      if i < written {
        assert now[addr - BASE + i] == buf[i];
      } else {
        var k := i - written;
        assert after[addr + written - BASE..addr + written - BASE + w][k] == buf[written..written + w][k];
        assert now[addr + written - BASE + k] & buf[written..written + w][k] == buf[written..written + w][k];
      }
    }
  }

  lemma PieceRefused(before: seq<bv8>, now: seq<bv8>, addr: nat, buf: seq<bv8>, written: nat, w: nat)
    requires |before| == |now| == SIZE && BASE <= addr && addr + |buf| <= END && written + w <= |buf|
    requires Written(before, now, addr, buf, written)
    requires !Clear(now, addr + written, buf[written..written + w])
    ensures !Clear(before, addr, buf)
  {
    var value := buf[written..written + w];
    var i: nat :| i < w && now[addr + written - BASE + i] & value[i] != value[i];
    var k := written + i;
    assert value[i] == buf[k];
    assert now[addr - BASE + k] == before[addr - BASE + k];
  }

  // The programs so far, and those planned for the rest, are the plan.
  ghost predicate Followed(log: seq<nat>, addr: nat, at: nat, end: nat) {
    log + Plan(at, end) == Plan(addr, end)
  }

  lemma FollowedWhole(log: seq<nat>, addr: nat, end: nat)
    ensures Followed([], addr, addr, end)
    ensures Followed(log, addr, end, end) ==> log == Plan(addr, end)
  {
  }

  lemma LogGrows(log: seq<nat>, w: nat, addr: nat, at: nat, next: nat, end: nat)
    requires at < end && Followed(log, addr, at, end)
    requires w == Width(at, end) && next == at + w
    ensures Followed(log + [w], addr, next, end)
    ensures log + [w] <= Plan(addr, end)
  {
    PlanStep(at, end);
    Shift(log, Plan(at, end));
  }

  lemma Shift(log: seq<nat>, rest: seq<nat>)
    requires |rest| > 0
    ensures log + [rest[0]] + rest[1..] == log + rest
    ensures log + [rest[0]] <= log + rest
  {
  }

  lemma ErasedIsClear(cells: seq<bv8>, addr: nat, buf: seq<bv8>)
    requires |cells| == SIZE && BASE <= addr && addr + |buf| <= END
    requires forall i: nat | addr - BASE <= i < addr - BASE + |buf| :: cells[i] == ERASED
    ensures Clear(cells, addr, buf)
  {
    forall i: nat | i < |buf| ensures cells[addr - BASE + i] & buf[i] == buf[i] {
      AllOnes(buf[i]);
    }
  }

  lemma AllOnes(b: bv8)
    ensures ERASED & b == b
  {
  }

  lemma ReadBack(before: seq<bv8>, after: seq<bv8>, at: nat, value: seq<bv8>)
    requires |before| == |after| == SIZE && BASE <= at && at + |value| <= END
    requires forall i: nat | i < |value| :: after[at - BASE + i] == before[at - BASE + i] & value[i]
    ensures after[at - BASE..at - BASE + |value|] == value <==> Clear(before, at, value)
  {
    var read := after[at - BASE..at - BASE + |value|];
    if Clear(before, at, value) {
      forall i: nat | i < |value| ensures read[i] == value[i] {
        assert read[i] == after[at - BASE + i];
      }
    } else {
      var i: nat :| i < |value| && before[at - BASE + i] & value[i] != value[i];
      assert read[i] == after[at - BASE + i];
    }
  }

  // Programming can put `value` at `at`: no bit must be set that is clear.
  ghost predicate Clear(cells: seq<bv8>, at: nat, value: seq<bv8>)
    requires |cells| == SIZE && BASE <= at && at + |value| <= END
  {
    forall i: nat | i < |value| :: cells[at - BASE + i] & value[i] == value[i]
  }
}
