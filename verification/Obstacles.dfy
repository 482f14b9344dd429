/**
  SportMode.c, Finding_obs: the obstacle-avoidance machine, one step per 10 ms
  tick. Even states 2..10 stand still and look, odd states 1..9 turn, 11 and
  12 drive on.
 */
module Obstacles {
  import opened Streams
  import opened Headings

  /** What one tick commands the wheels to do. */
  datatype Command = Nothing | Halt | Turn(heading: real) | DriveOn(heading: real)

  /** What one tick reads: the emergency-stop flag, the range, the yaw and the mean mileage of the wheels. */
  datatype Input = Input(motorFlag: Byte, distance: U16, yaw: real, mileage: real)

  datatype Machine = Machine(mode: nat, mirror: nat, count: U16, base: real, first: real, second: real, target: real)

  function Initial(): Machine {
    Machine(0, 0, 0, 0.0, 0.0, 0.0, 0.0)
  }

  predicate Executes(i: Input) {
    i.motorFlag == 1
  }

  predicate Looks(mode: nat) {
    mode == 2 || mode == 4 || mode == 6 || mode == 8 || mode == 10
  }

  predicate Turns(mode: nat) {
    mode == 1 || mode == 3 || mode == 5 || mode == 7 || mode == 9
  }

  // The heading a turning state aims at.
  function Aim(m: Machine): real {
    if m.mode == 1 then m.base
    else if m.mode == 3 || m.mode == 7 then m.first
    else m.second
  }

  function Enter(m: Machine, mode: nat): Machine {
    m.(mode := mode, mirror := mode)
  }

  // Where to look next after state `m.mode` saw an obstacle.
  function LookElsewhere(m: Machine): Machine {
    if m.mode == 2 then Enter(m.(first := m.base + 60.0), 3)
    else if m.mode == 4 then Enter(m.(second := m.base - 60.0), 5)
    else if m.mode == 6 then Enter(m.(first := m.base + 90.0), 7)
    else if m.mode == 8 then Enter(m.(second := m.base - 90.0), 9)
    else Enter(m.(second := m.base - 90.0), 0)
  }

  function Inc(n: U16): U16 {
    (n + 1) % 0x1_0000
  }

  // One executed tick.
  function Act(m: Machine, i: Input): (Machine, Command) {
    if m.mode == 0 then
      if i.distance > 400 then (m.(count := 0), Nothing)
      else
        var m' := m.(count := Inc(m.count));
        (if m'.count >= 50 then Enter(m'.(base := i.yaw + 180.0), 1) else m', Nothing)
    else if Turns(m.mode) then
      var m' := m.(target := Wrap(Aim(m)), count := 0);
      (if Abs(i.yaw - m'.target) < 5.0 then Enter(m', m.mode + 1) else m', Turn(Aim(m)))
    else if Looks(m.mode) then
      var m' := m.(count := Inc(m.count));
      (if m'.count < 100 then m' else if i.distance > 400 then Enter(m', 11) else LookElsewhere(m'), Halt)
    else if m.mode == 11 then (Enter(m.(base := i.yaw), 12), Nothing)
    else if m.mode == 12 then
      if i.mileage <= 350.0 then (m.(target := m.base), DriveOn(m.base))
      else (Enter(m.(count := 0), 0), Halt)
    else (m, Nothing)
  }

  function Tick(m: Machine, i: Input): (Machine, Command) {
    if Executes(i) then Act(m, i)
    else (m, if i.motorFlag == 0 then Halt else Nothing)
  }

  // --- The machine ---------------------------------------------------------

  class Avoider {
    var Modestate: nat
    var mystate: nat
    var time_cntobs: U16
    var yaw_temprary: real
    var yaw_temprary1: real
    var yaw_temprary2: real
    // Pid_Trun.Target
    var turnTarget: real

    function Value(): Machine
      reads this
    {
      Machine(Modestate, mystate, time_cntobs, yaw_temprary, yaw_temprary1, yaw_temprary2, turnTarget)
    }

    constructor ()
      ensures Value() == Initial()
    {
      Modestate, mystate, time_cntobs := 0, 0, 0;
      yaw_temprary, yaw_temprary1, yaw_temprary2, turnTarget := 0.0, 0.0, 0.0, 0.0;
    }

    method Go(mode: nat)
      modifies this`Modestate, this`mystate
      ensures Modestate == mode && mystate == mode
    {
      Modestate := mode;
      mystate := mode;
    }

    // Yaw_change and the turn it starts.
    method YawChange(range: real) returns (command: Command)
      modifies this`turnTarget
      ensures turnTarget == Wrap(range) && command == Turn(range)
    {
      var change := range;
      if change > 180.0 {
        change := change - 360.0;
      }
      if !(change > -180.0) {
        change := change + 360.0;
      }
      turnTarget := change;
      command := Turn(range);
    }

    method TurnState(heading: real, yaw: real, next: nat) returns (command: Command)
      modifies this
      ensures command == Turn(heading)
      ensures var m := old(Value()).(target := Wrap(heading), count := 0);
              Value() == if Abs(yaw - m.target) < 5.0 then Enter(m, next) else m
    {
      command := YawChange(heading);
      if Abs(yaw - turnTarget) < 5.0 {
        Go(next);
      }
      time_cntobs := 0;
    }

    // One tick of a looking state; `elapsed` when it has stood still long enough.
    method LookState() returns (elapsed: bool)
      modifies this`time_cntobs
      ensures time_cntobs == Inc(old(time_cntobs)) && elapsed == (time_cntobs >= 100)
    {
      time_cntobs := Inc(time_cntobs);
      elapsed := time_cntobs >= 100;
    }

    method FindingObs(i: Input) returns (command: Command)
      modifies this
      ensures (Value(), command) == Tick(old(Value()), i)
    {
      command := Nothing;
      if i.motorFlag == 1 {
        match Modestate {
          case 0 =>
            if i.distance > 400 {
              time_cntobs := 0;
            }
            if i.distance <= 400 {
              time_cntobs := Inc(time_cntobs);
              if time_cntobs >= 50 {
                yaw_temprary := i.yaw + 180.0;
                Go(1);
              }
            }
          case 1 => command := TurnState(yaw_temprary, i.yaw, 2);
          case 2 =>
            command := Halt;
            var elapsed := LookState();
            if elapsed {
              if i.distance > 400 { Go(11); } else { yaw_temprary1 := yaw_temprary + 60.0; Go(3); }
            }
          case 3 => command := TurnState(yaw_temprary1, i.yaw, 4);
          case 4 =>
            command := Halt;
            var elapsed := LookState();
            if elapsed {
              if i.distance > 400 { Go(11); } else { yaw_temprary2 := yaw_temprary - 60.0; Go(5); }
            }
          case 5 => command := TurnState(yaw_temprary2, i.yaw, 6);
          case 6 =>
            command := Halt;
            var elapsed := LookState();
            if elapsed {
              if i.distance > 400 { Go(11); } else { yaw_temprary1 := yaw_temprary + 90.0; Go(7); }
            }
          case 7 => command := TurnState(yaw_temprary1, i.yaw, 8);
          case 8 =>
            command := Halt;
            var elapsed := LookState();
            if elapsed {
              if i.distance > 400 { Go(11); } else { yaw_temprary2 := yaw_temprary - 90.0; Go(9); }
            }
          case 9 => command := TurnState(yaw_temprary2, i.yaw, 10);
          case 10 =>
            command := Halt;
            var elapsed := LookState();
            if elapsed {
              if i.distance > 400 { Go(11); } else { yaw_temprary2 := yaw_temprary - 90.0; Go(0); }
            }
          case 11 =>
            yaw_temprary := i.yaw;
            Go(12);
          case 12 =>
            if i.mileage <= 350.0 {
              turnTarget := yaw_temprary;
              command := DriveOn(yaw_temprary);
            } else {
              command := Halt;
              time_cntobs := 0;
              Go(0);
            }
          case _ =>
        }
      }
      if i.motorFlag == 0 {
        command := Halt;
      }
    }
  }

  // --- Invariant -----------------------------------------------------------

  predicate AboutFace(h: real) {
    0.0 <= h < 360.0
  }

  /** State by state: the mirror, the counter and the headings in force. */
  predicate Sound(m: Machine) {
    && m.mode <= 12 && m.mirror == m.mode
    && (m.mode == 0 ==> m.count < 50 || m.count == 100)
    && (m.mode == 1 ==> m.count == 0 || m.count == 50 || m.count == 101)
    && (Turns(m.mode) && m.mode != 1 ==> m.count == 0 || m.count == 100)
    && (Looks(m.mode) ==> m.count < 100 && m.target == Wrap(Aim(m.(mode := m.mode - 1))))
    && (m.mode == 11 || m.mode == 12 ==> m.count == 100)
    && (1 <= m.mode <= 10 ==> AboutFace(m.base))
    && (m.mode == 12 ==> IsYaw(m.base))
    && (m.mode == 3 || m.mode == 4 ==> m.first == m.base + 60.0)
    && (m.mode == 5 || m.mode == 6 ==> m.second == m.base - 60.0)
    && (m.mode == 7 || m.mode == 8 ==> m.first == m.base + 90.0)
    && (m.mode == 9 || m.mode == 10 ==> m.second == m.base - 90.0)
  }

  lemma TickKeepsSound(m: Machine, i: Input)
    requires Sound(m) && IsYaw(i.yaw)
    ensures Sound(Tick(m, i).0)
  {
  }

  /** The counter never exceeds 101. */
  lemma CounterIsBounded(m: Machine)
    requires Sound(m)
    ensures m.count <= 101
  {
  }

  ghost predicate YawsInRange(ins: seq<Input>) {
    forall k | 0 <= k < |ins| :: IsYaw(ins[k].yaw)
  }

  /** The machine before tick `n` of a run. */
  function At(ins: seq<Input>, n: nat): Machine
    requires n <= |ins|
  {
    if n == 0 then Initial() else Tick(At(ins, n - 1), ins[n - 1]).0
  }

  // What tick `n` of a run commands.
  function CommandAt(ins: seq<Input>, n: nat): Command
    requires n < |ins|
  {
    Tick(At(ins, n), ins[n]).1
  }

  /** The invariant holds throughout every run. */
  lemma {:induction false} RunIsSound(ins: seq<Input>, n: nat)
    requires YawsInRange(ins) && n <= |ins|
    ensures Sound(At(ins, n))
  {
    if n > 0 {
      RunIsSound(ins, n - 1);
      TickKeepsSound(At(ins, n - 1), ins[n - 1]);
    }
  }

  /** A run of the machine keeps to its specification; `commands` records what each tick commanded. */
  method RunAvoider(avoider: Avoider, ins: seq<Input>) returns (commands: seq<Command>)
    requires avoider.Value() == Initial()
    modifies avoider
    ensures avoider.Value() == At(ins, |ins|)
    ensures |commands| == |ins| && forall k | 0 <= k < |ins| :: commands[k] == CommandAt(ins, k)
  {
    commands := [];
    for n := 0 to |ins|
      invariant avoider.Value() == At(ins, n)
      invariant |commands| == n && forall k | 0 <= k < n :: commands[k] == CommandAt(ins, k)
    {
      var command := avoider.FindingObs(ins[n]);
      commands := commands + [command];
    }
  }

  // --- Headings ------------------------------------------------------------

  /** Every turn aims at a normalised heading that is the one meant, and driving on keeps to a heading the sensor can report. */
  lemma HeadingsAreNormalised(m: Machine, i: Input)
    requires Sound(m) && IsYaw(i.yaw)
    ensures match Tick(m, i).1
            case Turn(h) => IsHeading(Tick(m, i).0.target) && Congruent(Tick(m, i).0.target, h)
            case DriveOn(h) => IsYaw(h) && Tick(m, i).0.target == h
            case _ => true
  {
    match Tick(m, i).1 {
      case Turn(h) => WrapNormalises(h);
      case _ =>
    }
  }

  /**
    A turning state is left only within 5 degrees of its heading on the
    circle; it is held there only when the raw readings straddle the +-180
    seam.
   */
  lemma TurnEndsNearHeading(m: Machine, i: Input, d: real)
    requires Sound(m) && IsYaw(i.yaw) && Turns(m.mode) && Executes(i)
    requires IsCircularDistance(d, i.yaw, Wrap(Aim(m)))
    ensures Tick(m, i).0.mode == m.mode + 1 <==> d < 5.0 && !(Abs(i.yaw - Wrap(Aim(m))) > 355.0)
    ensures Tick(m, i).0.mode == m.mode || Tick(m, i).0.mode == m.mode + 1
  {
    WrapNormalises(Aim(m));
    TurnEndTest(d, i.yaw, Wrap(Aim(m)));
  }

  // --- Driving on ----------------------------------------------------------

  function CountExecuted(ins: seq<Input>, from: nat, to: nat): nat
    requires to <= |ins|
  {
    if to <= from then 0 else CountExecuted(ins, from, to - 1) + if Executes(ins[to - 1]) then 1 else 0
  }

  // The flag is only ever written 0 or 1.
  ghost predicate FlagsAreBinary(ins: seq<Input>) {
    forall k | 0 <= k < |ins| :: ins[k].motorFlag <= 1
  }

  /** From tick `from` up to `to` the machine stood in looking state `q`, halted. */
  ghost predicate Stands(ins: seq<Input>, from: nat, to: nat, q: nat)
    requires to <= |ins|
  {
    forall k | from <= k < to :: At(ins, k).mode == q && CommandAt(ins, k) == Halt
  }

  /** In a looking state the counter tells for how many executed ticks the machine has been standing there. */
  lemma {:induction false} CounterTellsStanding(ins: seq<Input>, n: nat) returns (from: nat)
    requires YawsInRange(ins) && FlagsAreBinary(ins) && n <= |ins|
    requires Looks(At(ins, n).mode)
    ensures from <= n
    ensures Stands(ins, from, n, At(ins, n).mode)
    ensures CountExecuted(ins, from, n) == At(ins, n).count
  {
    RunIsSound(ins, n - 1);
    StandingTick(At(ins, n - 1), ins[n - 1]);
    if At(ins, n - 1).mode == At(ins, n).mode {
      from := CounterTellsStanding(ins, n - 1);
    } else {
      from := n;
    }
  }

  // A tick that ends in a looking state either arrives there with the counter cleared, or stands.
  lemma StandingTick(m: Machine, i: Input)
    requires Sound(m) && i.motorFlag <= 1 && Looks(Tick(m, i).0.mode)
    ensures var (m', command) := Tick(m, i);
            if m'.mode == m.mode then command == Halt && m'.count == m.count + (if Executes(i) then 1 else 0)
            else m'.count == 0
  {
  }

  /**
    The machine starts to drive only out of state 11, and state 11 is entered
    only after standing, halted, in one looking state for 100 executed ticks
    and then reading a distance above 400.
   */
  lemma DrivesOnlyAfterAClearLook(ins: seq<Input>, n: nat) returns (from: nat, clear: nat)
    requires YawsInRange(ins) && FlagsAreBinary(ins) && n < |ins|
    requires At(ins, n).mode != 12 && At(ins, n + 1).mode == 12
    ensures from < clear <= n
    ensures forall k | clear <= k <= n :: At(ins, k).mode == 11
    ensures Looks(At(ins, from).mode) && Stands(ins, from, clear, At(ins, from).mode)
    ensures CountExecuted(ins, from, clear) == 100
    ensures Executes(ins[clear - 1]) && ins[clear - 1].distance > 400
    ensures At(ins, n + 1).base == ins[n].yaw
  {
    RunIsSound(ins, n);
    EntersTwelve(At(ins, n), ins[n]);
    clear := EnteredEleven(ins, n);
    RunIsSound(ins, clear - 1);
    EntersEleven(At(ins, clear - 1), ins[clear - 1]);
    from := CounterTellsStanding(ins, clear - 1);
  }

  lemma EntersTwelve(m: Machine, i: Input)
    requires Sound(m) && m.mode != 12 && Tick(m, i).0.mode == 12
    ensures m.mode == 11 && Tick(m, i).0.base == i.yaw
  {
  }

  lemma EntersEleven(m: Machine, i: Input)
    requires Sound(m) && m.mode != 11 && Tick(m, i).0.mode == 11
    ensures Looks(m.mode) && Executes(i) && i.distance > 400 && m.count == 99 && Tick(m, i).1 == Halt
  {
  }

  lemma {:induction false} EnteredEleven(ins: seq<Input>, n: nat) returns (clear: nat)
    requires YawsInRange(ins) && n <= |ins| && At(ins, n).mode == 11
    ensures 0 < clear <= n
    ensures forall k | clear <= k <= n :: At(ins, k).mode == 11
    ensures At(ins, clear) == Tick(At(ins, clear - 1), ins[clear - 1]).0 && At(ins, clear).mode == 11
    ensures At(ins, clear - 1).mode != 11
  {
    if At(ins, n - 1).mode == 11 {
      clear := EnteredEleven(ins, n - 1);
    } else {
      clear := n;
    }
  }

  /** While driving, the heading held is the yaw measured when state 12 was entered. */
  lemma {:induction false} DrivingHoldsTheHeading(ins: seq<Input>, n: nat) returns (entered: nat)
    requires n <= |ins| && At(ins, n).mode == 12
    ensures entered < n && At(ins, entered).mode != 12 && At(ins, n).base == ins[entered].yaw
    ensures forall k | entered < k <= n :: At(ins, k).mode == 12 && At(ins, k).base == ins[entered].yaw
    ensures forall k | entered < k < n :: CommandAt(ins, k) != Halt ==> CommandAt(ins, k) == Nothing || CommandAt(ins, k) == DriveOn(ins[entered].yaw)
  {
    if At(ins, n - 1).mode == 12 {
      entered := DrivingHoldsTheHeading(ins, n - 1);
    } else {
      entered := n - 1;
    }
  }

  /**
    Driving, from its first tick on: as long as no executed tick has seen more
    than 350, the machine is in state 12 and every executed tick drives on along
    the yaw measured on entry; the first that sees more halts, clears the
    counter and goes back to state 0.
   */
  lemma {:induction false} DrivesUntilFar(ins: seq<Input>, entered: nat, n: nat)
    requires entered < n < |ins|
    requires At(ins, entered).mode != 12 && At(ins, entered + 1).mode == 12
    requires forall k | entered < k < n && ins[k].motorFlag == 1 :: ins[k].mileage <= 350.0
    ensures At(ins, n).mode == 12
    ensures ins[n].motorFlag == 1 && ins[n].mileage <= 350.0 ==>
              CommandAt(ins, n) == DriveOn(ins[entered].yaw) && At(ins, n + 1).mode == 12
    ensures ins[n].motorFlag == 1 && ins[n].mileage > 350.0 ==>
              CommandAt(ins, n) == Halt && At(ins, n + 1).mode == 0 && At(ins, n + 1).count == 0
    ensures ins[n].motorFlag != 1 ==> At(ins, n + 1) == At(ins, n)
    ensures ins[n].motorFlag == 0 ==> CommandAt(ins, n) == Halt
  {
    StillDriving(ins, entered, n);
    OneMoreTick(ins, n);
  }

  lemma {:induction false} StillDriving(ins: seq<Input>, entered: nat, n: nat)
    requires entered < n < |ins|
    requires At(ins, entered).mode != 12 && At(ins, entered + 1).mode == 12
    requires forall k | entered < k < n && ins[k].motorFlag == 1 :: ins[k].mileage <= 350.0
    ensures At(ins, n).mode == 12 && At(ins, n).base == ins[entered].yaw
  {
    if n > entered + 1 {
      StillDriving(ins, entered, n - 1);
      OneMoreTick(ins, n - 1);
    }
  }

  // --- Looking for a way ---------------------------------------------------

  /** The heading of a turning state, from the yaw at which the obstacle was met. */
  function Sought(mode: nat, yaw: real): real {
    if mode == 1 then yaw + 180.0
    else if mode == 3 then yaw + 240.0
    else if mode == 5 then yaw + 120.0
    else if mode == 7 then yaw + 270.0
    else yaw + 90.0
  }

  // One tick that ends in the search.
  lemma SearchingTick(m: Machine, i: Input)
    requires Sound(m) && 1 <= Tick(m, i).0.mode <= 10
    ensures m.mode == 0 ==>
              Tick(m, i).0.mode == 1 && i.motorFlag == 1 && i.distance <= 400 && Tick(m, i).0.base == i.yaw + 180.0
    ensures m.mode != 0 ==> 1 <= m.mode <= 10 && Tick(m, i).0.base == m.base
  {
  }

  // The search began when state 0 was left, and its headings go by the yaw measured then.
  ghost predicate SearchBegan(ins: seq<Input>, met: nat, n: nat)
    requires met < n <= |ins|
  {
    && At(ins, met).mode == 0 && At(ins, met + 1).mode == 1
    && ins[met].motorFlag == 1 && ins[met].distance <= 400
    && forall k | met < k <= n :: 1 <= At(ins, k).mode <= 10 && At(ins, k).base == ins[met].yaw + 180.0
  }

  lemma {:induction false} SearchHasBegun(ins: seq<Input>, n: nat) returns (met: nat)
    requires YawsInRange(ins) && n <= |ins| && 1 <= At(ins, n).mode <= 10
    ensures met < n && SearchBegan(ins, met, n)
  {
    RunIsSound(ins, n - 1);
    OneMoreTick(ins, n - 1);
    SearchingTick(At(ins, n - 1), ins[n - 1]);
    if At(ins, n - 1).mode == 0 {
      met := n - 1;
    } else {
      met := SearchHasBegun(ins, n - 1);
    }
  }

  /**
    The search: in the states 1 to 10 the headings go by the yaw measured when
    state 0 was left; first about, then 60 degrees to either side of that, then
    90. Every executed tick of a turning state turns to its heading.
   */
  lemma {:induction false} SearchesAround(ins: seq<Input>, n: nat) returns (met: nat)
    requires YawsInRange(ins) && n < |ins| && 1 <= At(ins, n).mode <= 10
    ensures met < n && SearchBegan(ins, met, n)
    ensures Turns(At(ins, n).mode) && ins[n].motorFlag == 1 ==>
              CommandAt(ins, n) == Turn(Sought(At(ins, n).mode, ins[met].yaw))
  {
    RunIsSound(ins, n);
    met := SearchHasBegun(ins, n);
    TurnsWhereSought(At(ins, n), ins[n], ins[met].yaw);
  }

  lemma TurnsWhereSought(m: Machine, i: Input, yaw: real)
    requires Sound(m) && Turns(m.mode) ==> m.base == yaw + 180.0
    ensures Sound(m) && Turns(m.mode) && i.motorFlag == 1 ==> Tick(m, i).1 == Turn(Sought(m.mode, yaw))
  {
  }

  /**
    The order of the search: a turning state is followed by the looking state
    after it; a looking state, after its hundredth executed tick, by driving on
    if the way is clear and else by the next turning state, the last by state 0.
   */
  lemma {:induction false} SearchGoesInOrder(ins: seq<Input>, n: nat)
    requires YawsInRange(ins) && n < |ins| && 1 <= At(ins, n).mode <= 10
    ensures var q, next := At(ins, n).mode, At(ins, n + 1).mode;
            if q % 2 == 1 then next == q || next == q + 1
            else if ins[n].motorFlag == 1 && At(ins, n).count == 99 then
              next == if ins[n].distance > 400 then 11 else if q == 10 then 0 else q + 1
            else next == q
  {
    RunIsSound(ins, n);
    OneMoreTick(ins, n);
  }

  // One tick that ends in state 0: it counts an obstacle, or begins to count.
  lemma WatchingTick(m: Machine, i: Input)
    requires Sound(m) && Tick(m, i).0.mode == 0
    ensures m.mode == 0 && !(i.motorFlag == 1 && i.distance > 400) ==>
              Tick(m, i).0.count as int == m.count as int + (if i.motorFlag == 1 then 1 else 0)
    ensures m.mode != 0 || (i.motorFlag == 1 && i.distance > 400) ==>
              Tick(m, i).0.count == if m.mode == 10 then 100 else 0
  {
  }

  // From `from` on every executed tick of state 0 saw an obstacle.
  ghost predicate Watches(ins: seq<Input>, from: nat, n: nat)
    requires from <= n <= |ins|
  {
    && At(ins, from).mode == 0
    && forall k | from <= k < n :: At(ins, k).mode == 0 && (ins[k].motorFlag == 1 ==> ins[k].distance <= 400)
  }

  /**
    In state 0 the counter is the number of executed ticks since `from`, all of
    which saw an obstacle; it starts from zero, or from 100 if the last search
    found no way.
   */
  lemma {:induction false} CounterTellsObstacles(ins: seq<Input>, n: nat) returns (from: nat)
    requires YawsInRange(ins) && n <= |ins| && At(ins, n).mode == 0
    ensures from <= n && Watches(ins, from, n)
    ensures At(ins, n).count as int == At(ins, from).count as int + CountExecuted(ins, from, n)
    ensures At(ins, from).count == if from > 0 && At(ins, from - 1).mode == 10 then 100 else 0
  {
    from := n;
    if n > 0 {
      RunIsSound(ins, n - 1);
      OneMoreTick(ins, n - 1);
      WatchingTick(At(ins, n - 1), ins[n - 1]);
      if At(ins, n - 1).mode == 0 && !(ins[n - 1].motorFlag == 1 && ins[n - 1].distance > 400) {
        from := CounterTellsObstacles(ins, n - 1);
      }
    }
  }

  /**
    So the machine faces about exactly at the fiftieth executed tick in a row
    that sees an obstacle, or at the first if the last search found no way.
   */
  lemma {:induction false} FacesAboutAfterFifty(ins: seq<Input>, n: nat) returns (from: nat)
    requires YawsInRange(ins) && n < |ins| && At(ins, n).mode == 0
    ensures from <= n && Watches(ins, from, n)
    ensures At(ins, n + 1).mode == 1 <==>
            && ins[n].motorFlag == 1 && ins[n].distance <= 400
            && (CountExecuted(ins, from, n) >= 49 || (from > 0 && At(ins, from - 1).mode == 10))
    ensures At(ins, n + 1).mode == 0 || At(ins, n + 1).mode == 1
  {
    from := CounterTellsObstacles(ins, n);
    RunIsSound(ins, n);
    OneMoreTick(ins, n);
  }

  // ---- The seam at 180 degrees, reached ----

  // Fifty ticks with an obstacle in front, and one more as the vehicle comes round.
  function SeamRun(): (ins: seq<Input>)
    ensures |ins| == 51
  {
    seq(51, k => if k < 50 then Input(1, 100, NORTH, 0.0) else Input(1, 100, SOUTH, 0.0))
  }

  lemma EarlyObstacle(m: Machine, i: Input)
    requires m == Initial().(count := m.count) && m.count < 49 && Executes(i) && i.distance <= 400
    ensures Tick(m, i).0 == m.(count := m.count + 1)
  {
  }

  lemma FiftiethObstacle(m: Machine, i: Input)
    requires m == Initial().(count := 49) && Executes(i) && i.distance <= 400
    ensures Tick(m, i).0 == m.(count := 50, mode := 1, mirror := 1, base := i.yaw + 180.0)
  {
  }

  lemma {:induction false} OneMoreTick(ins: seq<Input>, n: nat)
    requires n < |ins|
    ensures At(ins, n + 1) == Tick(At(ins, n), ins[n]).0
  {
  }

  lemma {:induction false} Approaching(n: nat)
    requires n < 50
    ensures At(SeamRun(), n) == Initial().(count := n)
  {
    if n > 0 {
      Approaching(n - 1);
      OneMoreTick(SeamRun(), n - 1);
      EarlyObstacle(At(SeamRun(), n - 1), SeamRun()[n - 1]);
    }
  }

  lemma {:induction false} FacingAbout(n: nat)
    requires n == |SeamRun()| - 2
    ensures At(SeamRun(), n + 1) == Initial().(count := 50, mode := 1, mirror := 1, base := NORTH + 180.0)
  {
    Approaching(n);
    OneMoreTick(SeamRun(), n);
    FiftiethObstacle(At(SeamRun(), n), SeamRun()[n]);
  }

  /** A machine facing about from -1.40625 degrees turns on although the vehicle is within two degrees of its target. */
  lemma SeamTick(m: Machine, i: Input)
    requires m.mode == 1 && m.base == NORTH + 180.0 && i.motorFlag == 1 && i.yaw == SOUTH
    ensures Tick(m, i).0.mode == 1 && Tick(m, i).1 == Turn(NORTH + 180.0)
    ensures IsCircularDistance(1.40625, i.yaw, Wrap(Aim(m)))
  {
    SeamIsMissed();
  }

  /** And such a machine is reached: at the last tick of a run with yaws the sensor reports, it faces about and does not stop. */
  lemma {:induction false} SeamKeepsTurning(n: nat)
    requires n == |SeamRun()| - 2
    ensures At(SeamRun(), n + 1).mode == 1 && At(SeamRun(), n + 2).mode == 1
    ensures IsCircularDistance(1.40625, SeamRun()[n + 1].yaw, Wrap(Aim(At(SeamRun(), n + 1))))
  {
    FacingAbout(n);
    OneMoreTick(SeamRun(), n + 1);
    SeamTick(At(SeamRun(), n + 1), SeamRun()[n + 1]);
  }
}
