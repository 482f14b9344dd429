/**
  drv_usart_v2.c: announcing the bytes that circular DMA has put into a ring.
  The hardware counts down from the ring's size and reloads; the interrupt
  handler compares that counter with the one it remembered.
 */
module DmaReceive {
  import opened Arithmetic
  import opened Streams

  datatype Flag = Idle | HalfTransfer | TransferComplete

  // ---- Remainders ----

  lemma RemainderOfDifference(a: int, b: int, n: int)
    requires n > 0
    ensures (a - b) % n == if a % n >= b % n then a % n - b % n else n + a % n - b % n
  {
    var q := a / n - b / n;
    assert a - b == n * q + (a % n - b % n);
    if a % n >= b % n {
      DivisionIs(a - b, n, q, a % n - b % n);
    } else {
      assert n * (q - 1) == n * q - n;
      DivisionIs(a - b, n, q - 1, n + a % n - b % n);
    }
  }

  lemma RemainderOfSum(a: int, b: int, n: int)
    requires n > 0
    ensures (a + b) % n == (a % n + b) % n
  {
    var c := a % n + b;
    assert a + b == n * (a / n) + c;
    assert c == n * (c / n) + c % n;
    assert n * (a / n) + n * (c / n) == n * (a / n + c / n);
    DivisionIs(a + b, n, a / n + c / n, c % n);
  }

  // ---- How much an interrupt announces, counted along the stream ----

  /** `received` bytes have come in and `announced` have been announced before. */
  function Due(flag: Flag, n: nat, received: nat, announced: nat): (due: nat)
    requires n > 0
  {
    var r, a := received % n, announced % n;
    match flag
    case Idle => (received - announced) % n
    case HalfTransfer => if r > a then r - a else 0
    case TransferComplete => if r <= a then n + r - a else 0
  }

  // An interrupt is harmless if it announces everything outstanding, or nothing.
  predicate AllOrNothing(flag: Flag, n: nat, received: nat, announced: nat)
    requires n > 0
  {
    Due(flag, n, received, announced) in {0, received - announced}
  }

  /**
    Exactly when an interrupt is harmless. The transfer-complete handler takes
    a ring with nothing outstanding for a full one.
   */
  lemma {:induction false} HarmlessIff(flag: Flag, n: nat, received: nat, announced: nat)
    requires n > 0 && announced <= received
    ensures AllOrNothing(flag, n, received, announced) <==>
            match flag
            case Idle => received - announced < n || (received - announced) % n == 0
            case HalfTransfer => received - announced < n || received % n <= announced % n
            case TransferComplete => 1 <= received - announced <= n || received % n > announced % n
  {
    var o := received - announced;
    RemainderOfDifference(received, announced, n);
    if o < n {
      DivisionIs(o, n, 0, o);
    } else if o == n {
      DivisionIs(o, n, 1, 0);
    }
  }

  /** An idle interrupt catches up if and only if the ring has not been lapped. */
  lemma {:induction false} IdleCatchesUpIff(n: nat, received: nat, announced: nat)
    requires n > 0 && announced <= received
    ensures announced + Due(Idle, n, received, announced) == received <==> received - announced < n
  {
    if received - announced < n {
      DivisionIs(received - announced, n, 0, received - announced);
    }
  }

  /** If the idle interrupt is served between the last byte and transfer-complete, a ring of stale bytes is announced. */
  lemma StaleRing(n: nat, laps: nat)
    requires n > 0
    ensures Due(TransferComplete, n, n * laps, n * laps) == n
    ensures !AllOrNothing(TransferComplete, n, n * laps, n * laps)
  {
    DivisionIs(n * laps, n, laps, 0);
  }

  lemma {:induction false} DueModulo(flag: Flag, n: nat, received: nat, announced: nat)
    requires n > 0 && Due(flag, n, received, announced) > 0
    ensures (announced + Due(flag, n, received, announced)) % n == received % n
  {
    var due := Due(flag, n, received, announced);
    RemainderOfDifference(received, announced, n);
    RemainderOfSum(announced, due, n);
    var c := announced % n + due;
    if c < n {
      DivisionIs(c, n, 0, c);
    } else {
      DivisionIs(c, n, 1, c - n);
    }
  }

  // ---- The driver ----

  class Port {
    // The ring the DMA writes; its length is rx_bufsz.
    const ring: array<Byte>
    // The DMA's down-counter.
    var counter: nat
    // remaining_cnt
    var remaining: nat
    // Every byte that came in, and every byte announced to the serial framework.
    ghost var stream: seq<Byte>
    ghost var output: seq<Byte>

    ghost predicate Valid()
      reads this, ring
    {
      && ring.Length > 0
      && counter == ring.Length - |stream| % ring.Length
      && remaining == ring.Length - |output| % ring.Length
      && forall k: nat | k < |stream| && |stream| <= k + ring.Length :: ring[Spot(k, ring.Length)] == stream[k]
    }

    /** stm32_configure: nothing has come in. */
    constructor (rx_bufsz: nat)
      requires rx_bufsz > 0
      ensures Valid() && ring.Length == rx_bufsz && fresh(ring)
      ensures stream == [] && output == []
    {
      ring := new Byte[rx_bufsz](_ => 0);
      counter, remaining := rx_bufsz, rx_bufsz;
      stream, output := [], [];
    }

    /** The hardware takes one byte. */
    method Arrive(b: Byte)
      requires Valid()
      modifies this`counter, this`stream, ring
      ensures Valid()
      ensures stream == old(stream) + [b]
    {
      var n := ring.Length;
      CountDown(|stream|, n);
      forall k: nat | k < |stream| && |stream| < k + n ensures Spot(k, n) != Spot(|stream|, n) {
        SpotsDiffer(k, |stream|, n);
      }
      ring[n - counter] := b;
      counter := if counter == 1 then n else counter - 1;
      stream := stream + [b];
    }

    // How much the counters say has come in, per kind of interrupt.
    method RecvLen(flag: Flag) returns (recvLen: nat)
      requires Valid()
      ensures recvLen == Due(flag, ring.Length, |stream|, |output|)
    {
      DueOfCounters(flag, ring.Length, |stream|, |output|);
      recvLen := 0;
      match flag {
        case Idle =>
          if counter <= remaining {
            recvLen := remaining - counter;
          } else {
            recvLen := ring.Length + remaining - counter;
          }
        case HalfTransfer =>
          if counter < remaining {
            recvLen := remaining - counter;
          }
        case TransferComplete =>
          if counter >= remaining {
            recvLen := ring.Length + remaining - counter;
          }
      }
    }

    /**
      dma_recv_isr. The remembered counter always agrees with what has been
      announced, and what is announced is what came in while an interrupt is
      harmless.
     */
    method DmaRecvIsr(flag: Flag) returns (announced: seq<Byte>)
      requires Valid()
      modifies this`remaining, this`output
      ensures Valid()
      ensures output == old(output) + announced
      ensures |announced| == Due(flag, ring.Length, |stream|, |old(output)|)
      ensures InStep(old(output), stream, ring.Length) && AllOrNothing(flag, ring.Length, |stream|, |old(output)|) ==>
                announced == [] || output == stream
    {
      var n := ring.Length;
      var recvLen := RecvLen(flag);
      announced := seq(recvLen, i requires 0 <= i < recvLen reads ring, this => ring[(n - remaining + i) % n]);
      if recvLen > 0 {
        remaining := counter;
        DueModulo(flag, n, |stream|, |output|);
        if |output| + recvLen == |stream| && InStep(output, stream, n) {
          RingHoldsStream(ring[..], stream, output, announced);
        }
        output := output + announced;
      }
    }
  }

  lemma RingHoldsStream(ring: seq<Byte>, stream: seq<Byte>, output: seq<Byte>, announced: seq<Byte>)
    requires |ring| > 0 && InStep(output, stream, |ring|) && |output| + |announced| == |stream|
    requires forall k: nat | k < |stream| && |stream| <= k + |ring| :: ring[Spot(k, |ring|)] == stream[k]
    requires forall i: nat | i < |announced| :: announced[i] == ring[(|output| % |ring| + i) % |ring|]
    ensures output + announced == stream
  {
    forall i: nat | i < |announced| ensures announced[i] == stream[|output| + i] {
      RemainderOfSum(|output|, i, |ring|);
      assert Spot(|output| + i, |ring|) == (|output| % |ring| + i) % |ring|;
    }
  }

  // What was announced is what came in, and the ring has not been lapped since.
  ghost predicate InStep(output: seq<Byte>, stream: seq<Byte>, n: nat) {
    output <= stream && |stream| <= |output| + n
  }

  // Where byte `k` of the stream lies in the ring.
  function Spot(k: nat, n: nat): (p: nat)
    requires n > 0
    ensures p < n
  {
    k % n
  }

  lemma SpotsDiffer(j: nat, k: nat, n: nat)
    requires n > 0 && j < k < j + n
    ensures Spot(j, n) != Spot(k, n)
  {
    RemainderOfDifference(k, j, n);
    DivisionIs(k - j, n, 0, k - j);
  }

  lemma CountDown(length: nat, n: nat)
    requires n > 0
    ensures (length + 1) % n == if length % n == n - 1 then 0 else length % n + 1
  {
    RemainderOfSum(length, 1, n);
    if length % n == n - 1 {
      DivisionIs(length % n + 1, n, 1, 0);
    } else {
      DivisionIs(length % n + 1, n, 0, length % n + 1);
    }
  }

  lemma DueOfCounters(flag: Flag, n: nat, received: nat, announced: nat)
    requires n > 0
    ensures var counter, remaining := n - received % n, n - announced % n;
            Due(flag, n, received, announced) ==
            match flag
            case Idle => if counter <= remaining then remaining - counter else n + remaining - counter
            case HalfTransfer => if counter < remaining then remaining - counter else 0
            case TransferComplete => if counter >= remaining then n + remaining - counter else 0
  {
    RemainderOfDifference(received, announced, n);
  }

  // ---- Whole receptions ----

  datatype Event = Incoming(b: Byte) | Irq(flag: Flag)

  function Carried(events: seq<Event>): (bytes: seq<Byte>) {
    if |events| == 0 then []
    else
      Carried(events[..|events| - 1])
      + (match events[|events| - 1] case Incoming(b) => [b] case Irq(_) => [])
  }

  // How many bytes have been announced.
  function Announced(n: nat, events: seq<Event>): (count: nat)
    requires n > 0
  {
    if |events| == 0 then 0
    else
      var before := Announced(n, events[..|events| - 1]);
      match events[|events| - 1]
      case Incoming(_) => before
      case Irq(flag) => before + Due(flag, n, |Carried(events[..|events| - 1])|, before)
  }

  // What must be outstanding when an interrupt is served.
  predicate InTime(flag: Flag, n: nat, outstanding: int) {
    match flag
    case Idle => outstanding < n
    case HalfTransfer => outstanding < n
    case TransferComplete => 1 <= outstanding <= n
  }

  // Every interrupt is in time; bytes may come in at any moment.
  ghost predicate Timely(n: nat, events: seq<Event>)
    requires n > 0
  {
    |events| == 0 ||
    var before, last := events[..|events| - 1], events[|events| - 1];
    && Timely(n, before)
    && (last.Irq? ==> InTime(last.flag, n, |Carried(before)| - Announced(n, before)))
  }

  lemma {:induction false} TimelyPrefix(n: nat, events: seq<Event>, k: nat)
    requires n > 0 && Timely(n, events) && k <= |events|
    ensures Timely(n, events[..k])
  {
    if k < |events| {
      TimelyPrefix(n, events[..|events| - 1], k);
      assert events[..|events| - 1][..k] == events[..k];
    } else {
      assert events[..k] == events;
    }
  }

  lemma {:induction false} NeverAhead(n: nat, events: seq<Event>)
    requires n > 0 && Timely(n, events)
    ensures Announced(n, events) <= |Carried(events)|
  {
    if |events| > 0 {
      var before, last := events[..|events| - 1], events[|events| - 1];
      NeverAhead(n, before);
      if last.Irq? {
        HarmlessIff(last.flag, n, |Carried(before)|, Announced(n, before));
      }
    }
  }

  /** In a timely reception every interrupt announces all that is outstanding or nothing, and an idle interrupt all. */
  lemma {:induction false} EachInterrupt(n: nat, events: seq<Event>, k: nat)
    requires n > 0 && Timely(n, events) && k < |events| && events[k].Irq?
    ensures Announced(n, events[..k + 1]) in {Announced(n, events[..k]), |Carried(events[..k])|}
    ensures events[k].flag.Idle? ==> Announced(n, events[..k + 1]) == |Carried(events[..k + 1])|
  {
    TimelyPrefix(n, events, k);
    TimelyPrefix(n, events, k + 1);
    assert events[..k + 1][..k] == events[..k];
    NeverAhead(n, events[..k]);
    var received, announced := |Carried(events[..k])|, Announced(n, events[..k]);
    HarmlessIff(events[k].flag, n, received, announced);
    IdleCatchesUpIff(n, received, announced);
  }

  /** One event at the port, after a timely reception. */
  method Serve(port: Port, ghost events: seq<Event>, event: Event)
    requires port.Valid() && Timely(port.ring.Length, events + [event])
    requires port.stream == Carried(events) && |port.output| == Announced(port.ring.Length, events)
    requires port.output <= port.stream
    modifies port`counter, port`remaining, port`stream, port`output, port.ring
    ensures port.Valid() && port.output <= port.stream
    ensures port.stream == Carried(events + [event])
    ensures |port.output| == Announced(port.ring.Length, events + [event])
  {
    assert (events + [event])[..|events|] == events;
    match event {
      case Incoming(b) =>
        port.Arrive(b);
      case Irq(flag) =>
        HarmlessIff(flag, port.ring.Length, |port.stream|, |port.output|);
        var _ := port.DmaRecvIsr(flag);
    }
  }

  /**
    Bytes and interrupts in any order, however late the interrupts are served
    as long as they are in time: what has been announced is always what came
    in so far, and everything after an idle interrupt.
   */
  method Receive(port: Port, events: seq<Event>)
    requires port.Valid() && port.stream == port.output == []
    requires Timely(port.ring.Length, events)
    modifies port`counter, port`remaining, port`stream, port`output, port.ring
    ensures port.Valid() && port.stream == Carried(events)
    ensures port.output <= Carried(events) && |port.output| == Announced(port.ring.Length, events)
    ensures |events| > 0 && events[|events| - 1] == Irq(Idle) ==> port.output == Carried(events)
  {
    var i: nat := 0;
    while i < |events|
      invariant i <= |events|
      invariant port.Valid() && port.output <= port.stream
      invariant port.stream == Carried(events[..i])
      invariant |port.output| == Announced(port.ring.Length, events[..i])
    {
      TimelyPrefix(port.ring.Length, events, i + 1);
      assert events[..i + 1] == events[..i] + [events[i]];
      Serve(port, events[..i], events[i]);
      i := i + 1;
    }
    assert events[..i] == events;
    if |events| > 0 && events[|events| - 1] == Irq(Idle) {
      EachInterrupt(port.ring.Length, events, |events| - 1);
      assert events[..|events| - 1 + 1] == events;
    }
  }

  // ---- Prompt interrupts are in time ----

  // What happens on the line: a byte, or a pause after bytes.
  datatype Signal = Data(b: Byte) | Pause

  // The interrupts the hardware raises, each served before anything else happens.
  function Prompt(n: nat, line: seq<Signal>): (events: seq<Event>)
    requires n > 0
  {
    if |line| == 0 then []
    else
      Prompt(n, line[..|line| - 1])
      + (match line[|line| - 1] case Pause => [Irq(Idle)] case Data(b) => [Incoming(b)] + Raised(n, Sent(line)))
  }

  // What the DMA raises after its `sent`-th byte.
  function Raised(n: nat, sent: nat): (events: seq<Event>)
    requires n > 0
  {
    if sent % n == 0 then [Irq(TransferComplete)] else if sent % n == n / 2 then [Irq(HalfTransfer)] else []
  }

  function Sent(line: seq<Signal>): (bytes: nat) {
    if |line| == 0 then 0
    else Sent(line[..|line| - 1]) + if line[|line| - 1].Data? then 1 else 0
  }

  lemma {:induction false} OneEvent(n: nat, before: seq<Event>, e: Event)
    requires n > 0
    ensures Carried(before + [e]) == Carried(before) + (if e.Incoming? then [e.b] else [])
    ensures Announced(n, before + [e]) ==
            Announced(n, before) + (if e.Irq? then Due(e.flag, n, |Carried(before)|, Announced(n, before)) else 0)
    ensures Timely(n, before + [e]) <==>
            Timely(n, before) && (e.Irq? ==> InTime(e.flag, n, |Carried(before)| - Announced(n, before)))
  {
    assert (before + [e])[..|before|] == before;
  }

  // Only bytes of the current lap are outstanding.
  ghost predicate LapsAnnounced(n: nat, events: seq<Event>, sent: nat)
    requires n > 0
  {
    && Timely(n, events) && |Carried(events)| == sent
    && Announced(n, events) <= sent <= Announced(n, events) + sent % n
  }

  lemma {:induction false} PauseIsPrompt(n: nat, events: seq<Event>, sent: nat)
    requires n > 0 && LapsAnnounced(n, events, sent)
    ensures LapsAnnounced(n, events + [Irq(Idle)], sent)
  {
    OneEvent(n, events, Irq(Idle));
    IdleCatchesUpIff(n, sent, Announced(n, events));
  }

  // The counts when one more byte is followed by its interrupt, if any.
  lemma RaisedInTime(n: nat, sent: nat, a: nat)
    requires n > 0 && a <= sent <= a + sent % n
    ensures (sent + 1) % n == 0 ==>
              InTime(TransferComplete, n, sent + 1 - a) && a + Due(TransferComplete, n, sent + 1, a) == sent + 1
    ensures (sent + 1) % n != 0 ==>
              && sent + 1 <= a + (sent + 1) % n
              && InTime(HalfTransfer, n, sent + 1 - a)
              && Due(HalfTransfer, n, sent + 1, a) in {0, sent + 1 - a}
  {
    CountDown(sent, n);
    HarmlessIff(TransferComplete, n, sent + 1, a);
    HarmlessIff(HalfTransfer, n, sent + 1, a);
  }

  lemma {:induction false} ByteIsPrompt(n: nat, events: seq<Event>, b: Byte, sent: nat)
    requires n > 0 && LapsAnnounced(n, events, sent)
    ensures LapsAnnounced(n, events + [Incoming(b)] + Raised(n, sent + 1), sent + 1)
  {
    RaisedInTime(n, sent, Announced(n, events));
    OneEvent(n, events, Incoming(b));
    var longer, raised := events + [Incoming(b)], Raised(n, sent + 1);
    if |raised| == 0 {
      assert longer + raised == longer;
    } else {
      OneEvent(n, longer, raised[0]);
    }
  }

  lemma {:induction false} PromptGrows(n: nat, line: seq<Signal>)
    requires n > 0 && |line| > 0
    ensures var front, last := line[..|line| - 1], line[|line| - 1];
            && (last.Pause? ==> Prompt(n, line) == Prompt(n, front) + [Irq(Idle)] && Sent(line) == Sent(front))
            && (last.Data? ==>
                  && Sent(line) == Sent(front) + 1
                  && Prompt(n, line) == Prompt(n, front) + [Incoming(last.b)] + Raised(n, Sent(line)))
  {
    var front, last := line[..|line| - 1], line[|line| - 1];
    if last.Data? {
      Regroup(Prompt(n, front), Incoming(last.b), Raised(n, Sent(line)));
    }
  }

  lemma Regroup(a: seq<Event>, e: Event, b: seq<Event>)
    ensures a + ([e] + b) == a + [e] + b
  {
  }

  lemma {:induction false} PromptIsTidy(n: nat, line: seq<Signal>)
    requires n > 0
    ensures LapsAnnounced(n, Prompt(n, line), Sent(line))
  {
    if |line| > 0 {
      var front, last := line[..|line| - 1], line[|line| - 1];
      PromptIsTidy(n, front);
      PromptGrows(n, line);
      if last.Pause? {
        PauseIsPrompt(n, Prompt(n, front), Sent(front));
      } else {
        ByteIsPrompt(n, Prompt(n, front), last.b, Sent(front));
      }
    }
  }

  /** Prompt interrupts are in time, so `Receive` speaks of them too; they keep less than a ring outstanding. */
  lemma {:induction false} PromptIsTimely(n: nat, line: seq<Signal>)
    requires n > 0
    ensures Timely(n, Prompt(n, line))
    ensures Announced(n, Prompt(n, line)) <= |Carried(Prompt(n, line))| < Announced(n, Prompt(n, line)) + n
  {
    PromptIsTidy(n, line);
  }
}
