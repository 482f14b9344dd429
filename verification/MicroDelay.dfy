/**
  drv_common.c: waiting some microseconds by watching the system timer count
  down. The counter runs from LOAD to zero and takes LOAD + 1 cycles to come
  around (ARMv7-M Architecture Reference Manual, section B3.3).
 */
module MicroDelay {
  import opened Arithmetic

  const WORD := 0x1_0000_0000

  // The counter `cycle` cycles after it was last loaded at cycle zero.
  function Value(reload: nat, cycle: nat): (v: nat)
    ensures v <= reload
  {
    reload - cycle % (reload + 1)
  }

  // How often it has been reloaded since.
  function Reloads(reload: nat, cycle: nat): nat {
    cycle / (reload + 1)
  }

  // What one look at the counter adds.
  function Counted(reload: nat, told: nat, tnow: nat): (n: nat)
    requires told <= reload && tnow <= reload
    ensures n <= reload
  {
    if tnow == told then 0 else if tnow < told then told - tnow else reload - tnow + told
  }

  lemma CycleIs(reload: nat, cycle: nat)
    ensures cycle == (reload + 1) * Reloads(reload, cycle) + reload - Value(reload, cycle)
  {
  }

  lemma Apart(reload: nat, from: nat, to: nat)
    ensures var laps := Reloads(reload, to) - Reloads(reload, from);
            to - from == (reload + 1) * laps + Value(reload, from) - Value(reload, to)
  {
    CycleIs(reload, from);
    CycleIs(reload, to);
    var p, a, b := reload + 1, Reloads(reload, from), Reloads(reload, to);
    assert p * b - p * a == p * (b - a);
  }

  /** One look never counts more than has passed, and misses one cycle per reload if it comes within a period. */
  lemma {:induction false} OneLook(reload: nat, from: nat, to: nat)
    requires from <= to
    ensures Counted(reload, Value(reload, from), Value(reload, to)) <= to - from
    ensures to - from <= reload ==>
              Counted(reload, Value(reload, from), Value(reload, to))
              == to - from - (Reloads(reload, to) - Reloads(reload, from))
  {
    var laps := Reloads(reload, to) - Reloads(reload, from);
    Apart(reload, from, to);
    MultipleIsFar(reload + 1, laps);
    MultipleIsFar(reload + 1, laps - 1);
    assert (reload + 1) * laps == (reload + 1) * (laps - 1) + (reload + 1);
  }

  // The looks are in order of time.
  predicate Ordered(looks: seq<nat>) {
    forall i, j | 0 <= i < j < |looks| :: looks[i] <= looks[j]
  }

  // No two successive looks are a period or more apart.
  predicate Close(reload: nat, looks: seq<nat>) {
    forall i | 0 < i < |looks| :: looks[i] - looks[i - 1] <= reload
  }

  function Ticks(us: nat, reload: nat): nat {
    us * reload % WORD / 1000
  }

  /** The number of ticks is the one meant exactly if the product fits 32 bits. */
  lemma TicksAreMeantIff(us: nat, reload: nat)
    ensures Ticks(us, reload) == us * reload / 1000 <==> us * reload < 0x1_0000_0000
  {
    Wrapped(us * reload);
  }

  lemma Wrapped(x: nat)
    ensures x % WORD / 1000 == x / 1000 <==> x < WORD
  {
    if x >= WORD {
      assert x % WORD <= x - WORD;
    }
  }

  /** At 168 MHz 25566 microseconds are taken for less than one: the product is just over 32 bits. */
  lemma DelayWraps()
    ensures Ticks(25566, 167_999) == 95
    ensures 25566 * 167_999 / 1000 == 4_295_062
  {
  }

  // Cycles from the first look to another, less one for every reload between.
  function Seen(reload: nat, looks: seq<nat>, i: nat): int
    requires i < |looks|
  {
    looks[i] - looks[0] - (Reloads(reload, looks[i]) - Reloads(reload, looks[0]))
  }

  // The counting of one look, in 32 bits.
  method Count(tcnt: nat, reload: nat, told: nat, tnow: nat) returns (more: nat)
    requires told <= reload && tnow <= reload < 0x100_0000 && tcnt < 0x100_0000
    ensures more == tcnt + Counted(reload, told, tnow)
  {
    more := tcnt;
    if tnow < told {
      more := (tcnt + (told - tnow)) % WORD;
    } else if tnow != told {
      more := (tcnt + (reload - tnow + told)) % WORD;
    }
  }

  /**
    rt_hw_us_delay, looking at the counter at the given cycles. It may run out
    of looks before it is done.
   */
  method UsDelay(us: nat, reload: nat, looks: seq<nat>) returns (done: bool, last: nat)
    requires 0 < reload < 0x100_0000 && |looks| > 0 && Ordered(looks)
    ensures last < |looks| && (done || last == |looks| - 1)
    // It never returns before its ticks have passed;
    ensures done ==> Ticks(us, reload) <= looks[last] - looks[0]
    // looking within a period it counts what has passed but for a cycle per reload,
    ensures done && Close(reload, looks) ==> Ticks(us, reload) <= Seen(reload, looks, last)
    // and returns at the first look that shows its ticks.
    ensures Close(reload, looks) && Ticks(us, reload) > 0 ==>
              forall i: nat | i < last || (i == last && !done) :: Seen(reload, looks, i) < Ticks(us, reload)
  {
    var ticks := Ticks(us, reload);
    TicksAreFew(us, reload);
    var told := Value(reload, looks[0]);
    var tcnt: nat := 0;
    done, last := false, 0;
    while last + 1 < |looks|
      invariant last < |looks|
      invariant told == Value(reload, looks[last])
      invariant tcnt <= looks[last] - looks[0]
      invariant tcnt < ticks || tcnt == ticks == 0
      invariant Close(reload, looks) ==> tcnt == Seen(reload, looks, last)
      invariant Close(reload, looks) && ticks > 0 ==> forall i: nat | i <= last :: Seen(reload, looks, i) < ticks
    {
      OneLook(reload, looks[last], looks[last + 1]);
      last := last + 1;
      var tnow := Value(reload, looks[last]);
      if tnow != told {
        tcnt := Count(tcnt, reload, told, tnow);
        told := tnow;
        if tcnt >= ticks {
          return true, last;
        }
      }
    }
  }

  lemma TicksAreFew(us: nat, reload: nat)
    ensures Ticks(us, reload) < 0x100_0000
  {
  }
}
