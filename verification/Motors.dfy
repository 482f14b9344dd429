/**
  Mypid.c and TB6612.c: positional and incremental PID control, speed ramps and
  the motor outputs. Floats are exact reals here.
 */
module Motors {
  const LIMIT := 4199

  // ---- PID ----

  datatype Pid = Pid(target: real, actual: real, error0: real, error1: real, errorSum: real,
                     kp: real, ki: real, kd: real, out: real)

  // What one target and one measurement say.
  datatype Sample = Sample(target: real, actual: real)

  function Measured(p: Pid, s: Sample): Pid {
    p.(target := s.target, actual := s.actual, error0 := s.target - s.actual, error1 := s.target - s.actual)
  }

  function Clamp(x: real, max: real): real {
    if x > max then max else if x < -max then -max else x
  }

  // A proportional and an integral term, and a derivative one.
  function Pi(kp: real, ki: real, e: real, sum: real): real {
    kp * e + ki * sum
  }

  function Derivative(kd: real, e: real, before: real): real {
    kd * (e - before)
  }

  // The three controllers; each keeps the last error in `error1`.

  function Positional(p: Pid, s: Sample): Pid {
    var e := s.target - s.actual;
    var sum := p.errorSum + e;
    Measured(p, s).(errorSum := sum, out := Pi(p.kp, p.ki, e, sum) + Derivative(p.kd, e, p.error1))
  }

  function Increment(kp: real, ki: real, e: real, before: real): real {
    kp * (e - before) + ki * e
  }

  function Incremental(p: Pid, s: Sample): Pid {
    Measured(p, s).(out := p.out + Increment(p.kp, p.ki, s.target - s.actual, p.error1))
  }

  function Limited(p: Pid, max: real, s: Sample): Pid {
    var q := Incremental(p, s);
    q.(out := Clamp(q.out, max))
  }

  class Mypid {
    var target: real
    var actual: real
    var error0: real
    var error1: real
    var errorSum: real
    var kp: real
    var ki: real
    var kd: real
    var out: real

    function State(): Pid
      reads this
    {
      Pid(target, actual, error0, error1, errorSum, kp, ki, kd, out)
    }

    // PID_Init: gains, and everything else zero.
    constructor (kp: real, ki: real, kd: real)
      ensures State() == AtRest(kp, ki, kd)
    {
      target, actual, error0, error1, errorSum, out := 0.0, 0.0, 0.0, 0.0, 0.0, 0.0;
      this.kp, this.ki, this.kd := kp, ki, kd;
    }

    /** PID_pOut */
    method POut(measured: real) returns (r: real)
      modifies this
      ensures State() == Positional(old(State()), Sample(old(target), measured)) && r == out
    {
      actual := measured;
      error0 := target - actual;
      errorSum := errorSum + error0;
      Products(kp, ki, kd, error0, error1, errorSum);
      out := kp * error0 + ki * errorSum + kd * (error0 - error1);
      error1 := error0;
      r := out;
    }

    /** PID_pOut_Max: what it limits is the previous output, which it then replaces; the limit has no effect. */
    method POutMax(measured: real, max: real) returns (r: real)
      modifies this
      ensures State() == Positional(old(State()), Sample(old(target), measured)) && r == out
    {
      actual := measured;
      error0 := target - actual;
      errorSum := errorSum + error0;
      if out > max { out := max; }
      if out < -max { out := -max; }
      Products(kp, ki, kd, error0, error1, errorSum);
      out := kp * error0 + ki * errorSum + kd * (error0 - error1);
      error1 := error0;
      r := out;
    }

    /** PID_iOut */
    method IOut(measured: real) returns (r: real)
      modifies this
      ensures State() == Incremental(old(State()), Sample(old(target), measured)) && r == out
    {
      actual := measured;
      error0 := target - actual;
      ghost var increment := Increment(kp, ki, error0, error1);
      assert increment == kp * (error0 - error1) + ki * error0;
      out := out + (kp * (error0 - error1) + ki * error0);
      error1 := error0;
      r := out;
    }

    // The part of Motor_PidTarget_Acce that belongs to one motor.
    method SpeedUp(speed: real)
      modifies this`target
      ensures target == Speeded(old(target), speed)
    {
      if speed >= 0.0 {
        if target < speed { target := target + STEP; }
        if target >= speed { target := speed; }
      }
      if speed < 0.0 {
        if target > speed { target := target - STEP; }
        if target <= speed { target := speed; }
      }
    }

    // The part of Motor_PidTarget_Dece that belongs to one motor.
    method SlowDown(speed: real)
      modifies this`target
      ensures target == Slowed(old(target), speed)
    {
      if speed >= 0.0 {
        if target > speed { target := target - STEP; }
        if target <= speed { target := speed; }
      }
      if speed < 0.0 {
        if target < speed { target := target + STEP; }
        if target >= speed { target := speed; }
      }
    }

    /** PID_iOut_Max */
    method IOutMax(measured: real, max: real) returns (r: real)
      modifies this
      ensures State() == Limited(old(State()), max, Sample(old(target), measured)) && r == out
    {
      actual := measured;
      error0 := target - actual;
      ghost var increment := Increment(kp, ki, error0, error1);
      assert increment == kp * (error0 - error1) + ki * error0;
      out := out + (kp * (error0 - error1) + ki * error0);
      if out > max {
        out := max;
      } else if out < -max {
        out := -max;
      }
      error1 := error0;
      r := out;
    }
  }

  function AtRest(kp: real, ki: real, kd: real): Pid {
    Pid(0.0, 0.0, 0.0, 0.0, 0.0, kp, ki, kd, 0.0)
  }

  // ---- Runs ----

  function RunPositional(p: Pid, samples: seq<Sample>): Pid {
    if |samples| == 0 then p
    else Positional(RunPositional(p, samples[..|samples| - 1]), samples[|samples| - 1])
  }

  function RunIncremental(p: Pid, samples: seq<Sample>): Pid {
    if |samples| == 0 then p
    else Incremental(RunIncremental(p, samples[..|samples| - 1]), samples[|samples| - 1])
  }

  function RunLimited(p: Pid, max: real, samples: seq<Sample>): Pid {
    if |samples| == 0 then p
    else Limited(RunLimited(p, max, samples[..|samples| - 1]), max, samples[|samples| - 1])
  }

  function Error(samples: seq<Sample>, i: int): real
    requires i < |samples|
  {
    if i < 0 then 0.0 else samples[i].target - samples[i].actual
  }

  function ErrorSum(samples: seq<Sample>): real {
    if |samples| == 0 then 0.0
    else ErrorSum(samples[..|samples| - 1]) + Error(samples, |samples| - 1)
  }

  lemma {:induction false} GainsStay(p: Pid, samples: seq<Sample>)
    ensures var q, r := RunPositional(p, samples), RunIncremental(p, samples);
            q.kp == r.kp == p.kp && q.ki == r.ki == p.ki && q.kd == r.kd == p.kd
  {
    if |samples| > 0 {
      GainsStay(p, samples[..|samples| - 1]);
    }
  }

  lemma Accumulate(p: Pid, e: real, sum: real)
    requires p.out == Pi(p.kp, p.ki, p.error1, sum)
    ensures p.out + Increment(p.kp, p.ki, e, p.error1) == Pi(p.kp, p.ki, e, sum + e)
  {
  }

  lemma {:induction false} AddUpToPi(kp: real, ki: real, kd: real, samples: seq<Sample>)
    ensures var p := RunIncremental(AtRest(kp, ki, kd), samples);
            && p.error1 == Error(samples, |samples| - 1)
            && p.out == Pi(kp, ki, Error(samples, |samples| - 1), ErrorSum(samples))
  {
    if |samples| > 0 {
      var before := samples[..|samples| - 1];
      AddUpToPi(kp, ki, kd, before);
      GainsStay(AtRest(kp, ki, kd), before);
      Accumulate(RunIncremental(AtRest(kp, ki, kd), before), Error(samples, |samples| - 1), ErrorSum(before));
    }
  }

  lemma Products(kp: real, ki: real, kd: real, e: real, before: real, sum: real)
    ensures Pi(kp, ki, e, sum) == kp * e + ki * sum
    ensures Derivative(kd, e, before) == kd * (e - before)
    ensures Increment(kp, ki, e, before) == kp * (e - before) + ki * e
  {
  }

  /** The increments of the incremental controller add up to a proportional and an integral term. */
  lemma {:induction false} IncrementsAddUp(kp: real, ki: real, kd: real, samples: seq<Sample>)
    ensures RunIncremental(AtRest(kp, ki, kd), samples).out ==
            kp * Error(samples, |samples| - 1) + ki * ErrorSum(samples)
  {
    AddUpToPi(kp, ki, kd, samples);
    Products(kp, ki, kd, Error(samples, |samples| - 1), 0.0, ErrorSum(samples));
  }

  /** The positional controller has a proportional, an integral and a derivative term. */
  lemma {:induction false} PositionIs(kp: real, ki: real, kd: real, samples: seq<Sample>)
    ensures var p := RunPositional(AtRest(kp, ki, kd), samples);
            && p.error1 == Error(samples, |samples| - 1)
            && p.errorSum == ErrorSum(samples)
            && (|samples| > 0 ==>
                  p.out == kp * Error(samples, |samples| - 1) + ki * ErrorSum(samples)
                           + kd * (Error(samples, |samples| - 1) - Error(samples, |samples| - 2)))
  {
    if |samples| > 0 {
      var before := samples[..|samples| - 1];
      PositionIs(kp, ki, kd, before);
      GainsStay(AtRest(kp, ki, kd), before);
      assert Error(before, |before| - 1) == Error(samples, |samples| - 2);
    }
  }

  /** The two controllers differ by the derivative term alone. */
  lemma {:induction false} IncrementalIsPositional(kp: real, ki: real, kd: real, samples: seq<Sample>)
    requires |samples| > 0
    ensures RunPositional(AtRest(kp, ki, kd), samples).out
         == RunIncremental(AtRest(kp, ki, kd), samples).out
            + kd * (Error(samples, |samples| - 1) - Error(samples, |samples| - 2))
    ensures kd == 0.0 ==>
              RunPositional(AtRest(kp, ki, kd), samples).out == RunIncremental(AtRest(kp, ki, kd), samples).out
  {
    IncrementsAddUp(kp, ki, kd, samples);
    PositionIs(kp, ki, kd, samples);
  }

  // The unlimited controller has stayed within the limit.
  ghost predicate Within(p: Pid, max: real, samples: seq<Sample>) {
    && -max <= RunIncremental(p, samples).out <= max
    && (|samples| > 0 ==> Within(p, max, samples[..|samples| - 1]))
  }

  /** Until the first saturation the limited controller is the unlimited one. */
  lemma {:induction false} LimitedAgreesWithin(p: Pid, max: real, samples: seq<Sample>)
    requires Within(p, max, samples)
    ensures RunLimited(p, max, samples) == RunIncremental(p, samples)
  {
    if |samples| > 0 {
      LimitedAgreesWithin(p, max, samples[..|samples| - 1]);
    }
  }

  // What the limit makes of an output that would have been `x`.
  predicate LimitedTo(out: real, x: real, max: real) {
    && (x > max ==> out == max)
    && (x < -max ==> out == -max)
    && (-max <= x <= max ==> out == x)
  }

  /** At the first saturation the output is the limit on the side where the unlimited one lies. */
  lemma {:induction false} FirstSaturation(p: Pid, max: real, samples: seq<Sample>, last: Sample)
    requires Within(p, max, samples) && max >= 0.0
    ensures var free, out := RunIncremental(p, samples + [last]).out, RunLimited(p, max, samples + [last]).out;
            && (free > max ==> out == max)
            && (free < -max ==> out == -max)
            && (-max <= free <= max ==> out == free)
  {
    assert (samples + [last])[..|samples|] == samples;
    LimitedAgreesWithin(p, max, samples);
  }

  lemma PiIs(kp: real, ki: real, e: real, sum: real, x: real)
    requires x == kp * e + ki * sum
    ensures Pi(kp, ki, e, sum) == x
  {
  }

  lemma IncrementIs(kp: real, ki: real, e: real, before: real, x: real)
    requires x == kp * (e - before) + ki * e
    ensures Increment(kp, ki, e, before) == x
  {
  }

  lemma {:induction false} LimitedPi(kp: real, ki: real, kd: real, max: real, samples: seq<Sample>, last: Sample)
    requires Within(AtRest(kp, ki, kd), max, samples) && max >= 0.0
    ensures var all := samples + [last];
            LimitedTo(RunLimited(AtRest(kp, ki, kd), max, all).out,
                      Pi(kp, ki, Error(all, |all| - 1), ErrorSum(all)), max)
  {
    FirstSaturation(AtRest(kp, ki, kd), max, samples, last);
    AddUpToPi(kp, ki, kd, samples + [last]);
  }

  /** From rest: until then, and at it, the output is the proportional and integral term `x`, or the limit on its side. */
  lemma {:induction false} LimitedFromRest(kp: real, ki: real, kd: real, max: real, samples: seq<Sample>, last: Sample, x: real)
    requires Within(AtRest(kp, ki, kd), max, samples) && max >= 0.0
    requires var all := samples + [last]; x == kp * Error(all, |all| - 1) + ki * ErrorSum(all)
    ensures LimitedTo(RunLimited(AtRest(kp, ki, kd), max, samples + [last]).out, x, max)
  {
    var all := samples + [last];
    LimitedPi(kp, ki, kd, max, samples, last);
    PiIs(kp, ki, Error(all, |all| - 1), ErrorSum(all), x);
  }

  /** One call, from any state: the increment `x` is added to the output, and the limit is the one on its side. */
  lemma LimitedIs(p: Pid, max: real, s: Sample, x: real)
    requires max >= 0.0
    requires var e := s.target - s.actual; x == p.kp * (e - p.error1) + p.ki * e
    ensures LimitedTo(Limited(p, max, s).out, p.out + x, max)
  {
    IncrementIs(p.kp, p.ki, s.target - s.actual, p.error1, x);
  }

  lemma {:induction false} LimitedKeeps(p: Pid, max: real, samples: seq<Sample>)
    ensures var q := RunLimited(p, max, samples);
            && q.kp == p.kp && q.ki == p.ki
            && (|samples| > 0 ==> q.error1 == Error(samples, |samples| - 1))
  {
    if |samples| > 0 {
      LimitedKeeps(p, max, samples[..|samples| - 1]);
    }
  }

  /** Beyond the first saturation each call adds its increment `x` to what the limit has left, and is limited again. */
  lemma {:induction false} LimitedMoves(p: Pid, max: real, samples: seq<Sample>, x: real)
    requires |samples| > 1 && max >= 0.0
    requires var e, before := Error(samples, |samples| - 1), Error(samples, |samples| - 2);
             x == p.kp * (e - before) + p.ki * e
    ensures LimitedTo(RunLimited(p, max, samples).out, RunLimited(p, max, samples[..|samples| - 1]).out + x, max)
  {
    var q := RunLimited(p, max, samples[..|samples| - 1]);
    LimitedKeeps(p, max, samples[..|samples| - 1]);
    assert q.error1 == Error(samples, |samples| - 2);
    LimitedIs(q, max, samples[|samples| - 1], x);
  }

  /** Whatever the state before, one call brings the output within the limit. */
  lemma {:induction false} AlwaysWithinLimit(p: Pid, max: real, samples: seq<Sample>)
    requires |samples| > 0 && max >= 0.0
    ensures -max <= RunLimited(p, max, samples).out <= max
  {
  }

  // ---- Ramps ----

  const STEP := 40.0

  // Motor_PidTarget_Acce: away from zero in steps, never past the speed asked for.
  function Speeded(t: real, speed: real): real {
    if speed >= 0.0 then
      var up := if t < speed then t + STEP else t;
      if up >= speed then speed else up
    else
      var down := if t > speed then t - STEP else t;
      if down <= speed then speed else down
  }

  // Motor_PidTarget_Dece: towards zero in steps.
  function Slowed(t: real, speed: real): real {
    if speed >= 0.0 then
      var down := if t > speed then t - STEP else t;
      if down <= speed then speed else down
    else
      var up := if t < speed then t + STEP else t;
      if up >= speed then speed else up
  }

  function Ramped(accelerate: bool, t: real, speed: real): real {
    if accelerate then Speeded(t, speed) else Slowed(t, speed)
  }

  function RampedTimes(accelerate: bool, t: real, speed: real, n: nat): real {
    if n == 0 then t else Ramped(accelerate, RampedTimes(accelerate, t, speed, n - 1), speed)
  }

  function Min(a: real, b: real): real {
    if a < b then a else b
  }

  function Max(a: real, b: real): real {
    if a < b then b else a
  }

  /** Where a ramp is after `n` calls, from any target. */
  lemma {:induction false} RampIs(accelerate: bool, t: real, speed: real, n: nat)
    requires n >= 1
    ensures RampedTimes(accelerate, t, speed, n) ==
            if accelerate == (speed >= 0.0) then Min(speed, t + 40.0 * n as real)
            else Max(speed, t - 40.0 * n as real)
  {
    if n == 1 {
      assert RampedTimes(accelerate, t, speed, 0) == t;
    } else {
      RampIs(accelerate, t, speed, n - 1);
    }
  }

  /** So it arrives exactly when the steps cover the way, and stays. */
  lemma {:induction false} RampArrivesIff(accelerate: bool, t: real, speed: real, n: nat)
    requires n >= 1
    ensures RampedTimes(accelerate, t, speed, n) == speed <==>
            if accelerate == (speed >= 0.0) then speed - t <= 40.0 * n as real else t - speed <= 40.0 * n as real
  {
    RampIs(accelerate, t, speed, n);
  }

  // ---- Outputs ----

  // A C conversion from float to integer.
  function Truncated(x: real): (n: int)
    ensures x >= 0.0 ==> n as real <= x < n as real + 1.0
    ensures x < 0.0 ==> n as real - 1.0 < x <= n as real
  {
    if x >= 0.0 then x.Floor else -(-x).Floor
  }

  function Size(n: int): nat {
    if n < 0 then -n else n
  }

  class Drive {
    const left: Mypid
    const right: Mypid
    // Direction pins and compare registers.
    var ain: bool
    var bin: bool
    var ccr1: nat
    var ccr2: nat

    ghost predicate Valid() {
      left != right
    }

    constructor (left: Mypid, right: Mypid)
      requires left != right
      ensures Valid() && this.left == left && this.right == right
    {
      this.left, this.right := left, right;
      ain, bin, ccr1, ccr2 := true, true, 0, 0;
    }

    /** Motor_SetCCR: the sign is the direction, the size the duty, and no duty is above the limit. */
    method SetCCR(motorCCR1: int, motorCCR2: int)
      modifies this
      ensures ain <==> motorCCR1 >= 0
      ensures bin <==> motorCCR2 >= 0
      ensures ccr1 == if Size(motorCCR1) <= 4199 then Size(motorCCR1) else 4199
      ensures ccr2 == if Size(motorCCR2) <= 4199 then Size(motorCCR2) else 4199
    {
      var duty1, duty2 := motorCCR1, motorCCR2;
      if duty1 >= 0 {
        ain := true;
      } else {
        ain := false;
        duty1 := -duty1;
      }
      if duty1 > LIMIT {
        duty1 := LIMIT;
      }
      if duty2 >= 0 {
        bin := true;
      } else {
        bin := false;
        duty2 := -duty2;
      }
      if duty2 > LIMIT {
        duty2 := LIMIT;
      }
      ccr1, ccr2 := duty1, duty2;
    }

    // The common end of the three target functions. The controllers' limit makes the one in Motor_SetCCR idle.
    method Output(encoder1: real, encoder2: real)
      requires Valid()
      modifies this, left, right
      ensures left.State() == Limited(old(left.State()), 4199.0, Sample(old(left.target), encoder1))
      ensures right.State() == Limited(old(right.State()), 4199.0, Sample(old(right.target), encoder2))
      ensures ccr1 == Size(Truncated(left.out)) <= 4199 && (ain <==> Truncated(left.out) >= 0)
      ensures ccr2 == Size(Truncated(right.out)) <= 4199 && (bin <==> Truncated(right.out) >= 0)
    {
      var out1 := left.IOutMax(encoder1, LIMIT as real);
      var out2 := right.IOutMax(encoder2, LIMIT as real);
      SetCCR(Truncated(out1), Truncated(out2));
    }

    /** Motor_PidTarget */
    method PidTarget(speed1: real, speed2: real, encoder1: real, encoder2: real)
      requires Valid()
      modifies this, left, right
      ensures left.State() == Limited(old(left.State()), 4199.0, Sample(speed1, encoder1))
      ensures right.State() == Limited(old(right.State()), 4199.0, Sample(speed2, encoder2))
      ensures ccr1 == Size(Truncated(left.out)) <= 4199 && (ain <==> Truncated(left.out) >= 0)
      ensures ccr2 == Size(Truncated(right.out)) <= 4199 && (bin <==> Truncated(right.out) >= 0)
    {
      TargetIsReplaced(left.State(), LIMIT as real, Sample(speed1, encoder1));
      TargetIsReplaced(right.State(), LIMIT as real, Sample(speed2, encoder2));
      left.target := speed1;
      right.target := speed2;
      Output(encoder1, encoder2);
    }

    /** Motor_PidTarget_Acce and Motor_PidTarget_Dece */
    method PidTargetRamp(accelerate: bool, speed1: real, speed2: real, encoder1: real, encoder2: real)
      requires Valid()
      modifies this, left, right
      ensures var target := Ramped(accelerate, old(left.target), speed1);
              left.State() == Limited(old(left.State()), 4199.0, Sample(target, encoder1))
      ensures var target := Ramped(accelerate, old(right.target), speed2);
              right.State() == Limited(old(right.State()), 4199.0, Sample(target, encoder2))
      ensures ccr1 == Size(Truncated(left.out)) <= 4199 && (ain <==> Truncated(left.out) >= 0)
      ensures ccr2 == Size(Truncated(right.out)) <= 4199 && (bin <==> Truncated(right.out) >= 0)
    {
      TargetIsReplaced(left.State(), LIMIT as real, Sample(Ramped(accelerate, left.target, speed1), encoder1));
      TargetIsReplaced(right.State(), LIMIT as real, Sample(Ramped(accelerate, right.target, speed2), encoder2));
      if accelerate {
        left.SpeedUp(speed1);
        right.SpeedUp(speed2);
      } else {
        left.SlowDown(speed1);
        right.SlowDown(speed2);
      }
      Output(encoder1, encoder2);
    }
  }

  lemma TargetIsReplaced(p: Pid, max: real, s: Sample)
    ensures Limited(p.(target := s.target), max, s) == Limited(p, max, s)
  {
  }

  /** Many calls of a ramp, whatever the encoders read: the targets follow the closed form. */
  method FollowRamp(drive: Drive, accelerate: bool, speed1: real, speed2: real, encoders: seq<(real, real)>)
    requires drive.Valid() && |encoders| >= 1
    modifies drive, drive.left, drive.right
    ensures var n := 40.0 * |encoders| as real;
            drive.left.target == if accelerate == (speed1 >= 0.0) then Min(speed1, old(drive.left.target) + n)
                                 else Max(speed1, old(drive.left.target) - n)
    ensures var n := 40.0 * |encoders| as real;
            drive.right.target == if accelerate == (speed2 >= 0.0) then Min(speed2, old(drive.right.target) + n)
                                  else Max(speed2, old(drive.right.target) - n)
    ensures drive.ccr1 <= 4199 && drive.ccr2 <= 4199
  {
    for i := 0 to |encoders|
      invariant drive.left.target == RampedTimes(accelerate, old(drive.left.target), speed1, i)
      invariant drive.right.target == RampedTimes(accelerate, old(drive.right.target), speed2, i)
      invariant i > 0 ==> drive.ccr1 <= LIMIT && drive.ccr2 <= LIMIT
    {
      drive.PidTargetRamp(accelerate, speed1, speed2, encoders[i].0, encoders[i].1);
    }
    RampIs(accelerate, old(drive.left.target), speed1, |encoders|);
    RampIs(accelerate, old(drive.right.target), speed2, |encoders|);
  }
}
