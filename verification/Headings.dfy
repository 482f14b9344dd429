/**
  CarTurn.c: circular arithmetic on headings, over the reals. The attitude
  sensor reports yaw in [-180, 180).
 */
module Headings {
  import opened SensorPorts
  import opened Motors

  /** What the attitude sensor can report. */
  predicate IsYaw(yaw: real) {
    -180.0 <= yaw < 180.0
  }

  /** What a turn may aim at. */
  predicate IsHeading(h: real) {
    -180.0 < h <= 180.0
  }

  // Yaw_change: one step of 360 degrees either way.
  function Wrap(h: real): real {
    var a := if h > 180.0 then h - 360.0 else h;
    if !(a > -180.0) then a + 360.0 else a
  }

  // Yaw_Read in Car_Turn and Car_Goline: the yaw moved next to the target.
  function Unroll(yaw: real, target: real): real {
    if yaw < target - 180.0 then yaw + 360.0
    else if yaw > target + 180.0 then yaw - 360.0
    else yaw
  }

  function Abs(x: real): real {
    if x < 0.0 then -x else x
  }

  ghost predicate Congruent(a: real, b: real) {
    exists k: int :: Turns(k) == a - b
  }

  function Turns(k: int): real {
    360.0 * k as real
  }

  /** The distance between two directions on the circle: the least over all representatives. */
  ghost predicate IsCircularDistance(d: real, a: real, b: real) {
    && (exists k: int :: Abs(a - b + Turns(k)) == d)
    && (forall k: int :: d <= Abs(a - b + Turns(k)))
  }

  lemma TurnsAreSpaced(k: int)
    ensures k >= 1 ==> Turns(k) >= 360.0
    ensures k <= -1 ==> Turns(k) <= -360.0
    ensures Turns(0) == 0.0 && Turns(1) == 360.0 && Turns(-1) == -360.0
  {
  }

  /** Any heading less than one turn out of range is brought into range by the single wrap, and is still the same direction. */
  lemma WrapNormalises(h: real)
    requires -540.0 < h <= 540.0
    ensures IsHeading(Wrap(h)) && Congruent(Wrap(h), h)
    ensures IsHeading(h) ==> Wrap(h) == h
  {
    assert Turns(0) == 0.0 && Turns(1) == 360.0 && Turns(-1) == -360.0;
    var k := if h > 180.0 then -1 else if h > -180.0 then 0 else 1;
    assert Turns(k) == Wrap(h) - h;
  }

  /** The unrolled yaw is the same direction, and its linear distance to the target is the circular one, at most 180. */
  lemma UnrollIsNearest(yaw: real, target: real)
    requires IsYaw(yaw) && -180.0 <= target <= 180.0
    ensures Congruent(Unroll(yaw, target), yaw)
    ensures Abs(Unroll(yaw, target) - target) <= 180.0
    ensures IsCircularDistance(Abs(Unroll(yaw, target) - target), yaw, target)
  {
    var u := Unroll(yaw, target);
    assert Turns(0) == 0.0 && Turns(1) == 360.0 && Turns(-1) == -360.0;
    var k := if u == yaw then 0 else if u == yaw + 360.0 then 1 else -1;
    assert Turns(k) == u - yaw;
    assert Abs(yaw - target + Turns(k)) == Abs(u - target);
    forall j: int ensures Abs(u - target) <= Abs(yaw - target + Turns(j)) {
      TurnsAreSpaced(j);
      TurnsAreSpaced(j - k);
      assert Turns(j) == Turns(k) + Turns(j - k);
    }
  }

  // PID_Init: the gains of the turn controller.
  predicate TurnGains(p: Pid) {
    p.kp == 5.0 && p.ki == 0.0 && p.kd == 0.0
  }

  /**
    The controller's output turns the shorter way round: it is five times the
    circular distance, turning by a fifth of it leads to the target, and it
    stops on the target only.
   */
  lemma TurnsTheShortWay(p: Pid, yaw: real, target: real, d: real)
    requires IsYaw(yaw) && IsHeading(target) && TurnGains(p)
    requires IsCircularDistance(d, yaw, target)
    ensures var out := Positional(p, Sample(target, Unroll(yaw, target))).out;
            && Abs(out) == 5.0 * d <= 900.0
            && Congruent(yaw + out / 5.0, target)
            && (out == 0.0 <==> Congruent(yaw, target))
  {
    UnrollIsNearest(yaw, target);
    var u := Unroll(yaw, target);
    var out := Positional(p, Sample(target, u)).out;
    OnlyProportional(p, target, u);
    CircularDistanceIsUnique(d, Abs(u - target), yaw, target);
    assert Turns(0) == 0.0 && Turns(1) == 360.0 && Turns(-1) == -360.0;
    var k := if u == yaw then 0 else if u == yaw + 360.0 then -1 else 1;
    assert Turns(k) == yaw + out / 5.0 - target;
    if Congruent(yaw, target) {
      var j: int :| Turns(j) == yaw - target;
      TurnsAreSpaced(j);
    }
  }

  lemma OnlyProportional(p: Pid, target: real, u: real)
    requires TurnGains(p)
    ensures Positional(p, Sample(target, u)).out == 5.0 * (target - u)
  {
  }

  /** Car_Turn: one call of the turn controller, the wheels driven opposite ways. */
  method CarTurn(turn: Mypid, drive: Drive, yaw: real, target: real, encoder1: real, encoder2: real)
    requires drive.Valid() && turn != drive.left && turn != drive.right
    modifies turn, drive, drive.left, drive.right
    ensures turn.State() == Positional(old(turn.State()), Sample(target, Unroll(yaw, target)))
    ensures drive.left.State() == Limited(old(drive.left.State()), 4199.0, Sample(-turn.out, encoder1))
    ensures drive.right.State() == Limited(old(drive.right.State()), 4199.0, Sample(turn.out, encoder2))
  {
    PositionalTarget(turn.State(), Sample(target, Unroll(yaw, target)));
    turn.target := target;
    var yawRead := yaw;
    if yawRead < target - 180.0 {
      yawRead := yawRead + 360.0;
    } else if yawRead > target + 180.0 {
      yawRead := yawRead - 360.0;
    }
    var out := turn.POutMax(yawRead, 200.0);
    drive.PidTarget(-out, out, encoder1, encoder2);
  }

  lemma PositionalTarget(p: Pid, s: Sample)
    ensures Positional(p.(target := s.target), s) == Positional(p, s)
  {
  }

  /**
    The test that ends a turn compares headings linearly. It never ends one
    away from the target, but it misses the target across the +-180 seam:
    within 5 degrees on the circle it fails exactly when the raw difference
    exceeds 355.
   */
  lemma TurnEndTest(d: real, yaw: real, target: real)
    requires IsYaw(yaw) && IsHeading(target) && IsCircularDistance(d, yaw, target)
    ensures Abs(yaw - target) < 5.0 <==> d < 5.0 && !(Abs(yaw - target) > 355.0)
  {
    UnrollIsNearest(yaw, target);
    CircularDistanceIsUnique(d, Abs(Unroll(yaw, target) - target), yaw, target);
  }

  lemma CircularDistanceIsUnique(c: real, d: real, a: real, b: real)
    requires IsCircularDistance(c, a, b) && IsCircularDistance(d, a, b)
    ensures c == d
  {
    var j: int :| Abs(a - b + Turns(j)) == c;
    var k: int :| Abs(a - b + Turns(k)) == d;
  }

  // Two yaws the sensor can report.
  const SOUTH := Degrees(Int16(0x80, 0x00))
  const NORTH := Degrees(Int16(0xFF, 0x00))

  /** Facing about from -1.40625 degrees, with the sensor at -180, the test fails 1.40625 degrees from the target. */
  lemma SeamIsMissed()
    ensures SOUTH == -180.0 && NORTH == -1.40625
    ensures var target := Wrap(NORTH + 180.0);
            && IsYaw(SOUTH) && IsHeading(target)
            && IsCircularDistance(1.40625, SOUTH, target)
            && !(Abs(SOUTH - target) < 5.0)
  {
    UnrollIsNearest(SOUTH, Wrap(NORTH + 180.0));
  }
}
