/**
  usart6.c: spoken alarms. Each is said once and only again after its cause has
  gone away; the obstacle alarm is also limited to once in 800 calls.
 */
module Alarms {
  import opened Options

  const WAIT := 800

  // In the order in which they are tried.
  datatype Alarm = Obstacle | Air | Soil | Humid

  // What is measured when the alarms are checked.
  datatype Reading = Reading(distance: nat, airPpm: real, soilAlarm: nat, humidity: real)

  datatype Latch = Latch(obstacle: bool, air: bool, soil: bool, humid: bool, wait: nat)

  predicate Armed(s: Latch, alarm: Alarm) {
    match alarm
    case Obstacle => s.obstacle
    case Air => s.air
    case Soil => s.soil
    case Humid => s.humid
  }

  predicate Calls(alarm: Alarm, r: Reading) {
    match alarm
    case Obstacle => 0 < r.distance < 400
    case Air => r.airPpm >= 9.0
    case Soil => r.soilAlarm == 1
    case Humid => r.humidity >= 70.0
  }

  predicate Clears(alarm: Alarm, r: Reading) {
    match alarm
    case Obstacle => r.distance >= 400
    case Air => r.airPpm < 7.4
    case Soil => r.soilAlarm == 0
    case Humid => r.humidity < 65.0
  }

  predicate Due(s: Latch, alarm: Alarm, r: Reading) {
    Calls(alarm, r) && Armed(s, alarm)
  }

  // What is said. An obstacle that must wait still keeps the others silent.
  function Said(s: Latch, r: Reading): Option<Alarm> {
    if Due(s, Obstacle, r) then if s.wait <= 1 then Some(Obstacle) else None
    else if Due(s, Air, r) then Some(Air)
    else if Due(s, Soil, r) then Some(Soil)
    else if Due(s, Humid, r) then Some(Humid)
    else None
  }

  predicate StillArmed(s: Latch, alarm: Alarm, r: Reading) {
    Clears(alarm, r) || (Armed(s, alarm) && Said(s, r) != Some(alarm))
  }

  function After(s: Latch, r: Reading): Latch {
    Latch(StillArmed(s, Obstacle, r), StillArmed(s, Air, r), StillArmed(s, Soil, r), StillArmed(s, Humid, r),
          if Said(s, r) == Some(Obstacle) then WAIT else if s.wait > 0 then s.wait - 1 else 0)
  }

  class Voice {
    var obsFlag: nat
    var obsWait: nat
    var airFlag: nat
    var soilFlag: nat
    var humiFlag: nat

    ghost function State(): Latch
      reads this
    {
      Latch(obsFlag != 0, airFlag != 0, soilFlag != 0, humiFlag != 0, obsWait)
    }

    ghost predicate Valid()
      reads this
    {
      obsFlag <= 1 && airFlag <= 1 && soilFlag <= 1 && humiFlag <= 1
    }

    constructor ()
      ensures Valid() && State() == Start()
    {
      obsFlag, obsWait, airFlag, soilFlag, humiFlag := 1, 0, 1, 1, 1;
    }

    // The first half: at most one alarm is said, and disarmed.
    method Speak(r: Reading) returns (said: Option<Alarm>)
      requires Valid()
      modifies this
      ensures Valid() && said == Said(old(State()), r)
      ensures obsFlag == if said == Some(Obstacle) then 0 else old(obsFlag)
      ensures airFlag == if said == Some(Air) then 0 else old(airFlag)
      ensures soilFlag == if said == Some(Soil) then 0 else old(soilFlag)
      ensures humiFlag == if said == Some(Humid) then 0 else old(humiFlag)
      ensures obsWait == if said == Some(Obstacle) then WAIT else if old(obsWait) > 0 then old(obsWait) - 1 else 0
    {
      said := None;
      if obsWait > 0 {
        obsWait := obsWait - 1;
      }
      if r.distance < 400 && r.distance > 0 && obsFlag != 0 {
        if obsWait == 0 {
          said := Some(Obstacle);
          obsWait := WAIT;
          obsFlag := obsFlag - 1;
        }
      } else if r.airPpm >= 9.0 && airFlag != 0 {
        said := Some(Air);
        airFlag := airFlag - 1;
      } else if r.soilAlarm == 1 && soilFlag != 0 {
        said := Some(Soil);
        soilFlag := soilFlag - 1;
      } else if r.humidity >= 70.0 && humiFlag != 0 {
        said := Some(Humid);
        humiFlag := humiFlag - 1;
      }
    }

    // The second half: causes that have gone arm their alarms again.
    method Rearm(r: Reading)
      requires Valid()
      modifies `obsFlag, `airFlag, `soilFlag, `humiFlag
      ensures obsFlag == if Clears(Obstacle, r) then 1 else old(obsFlag)
      ensures airFlag == if Clears(Air, r) then 1 else old(airFlag)
      ensures soilFlag == if Clears(Soil, r) then 1 else old(soilFlag)
      ensures humiFlag == if Clears(Humid, r) then 1 else old(humiFlag)
    {
      if r.distance >= 400 { obsFlag := 1; }
      if r.airPpm < 7.4 { airFlag := 1; }
      if r.soilAlarm == 0 { soilFlag := 1; }
      if r.humidity < 65.0 { humiFlag := 1; }
    }

    /** Check_vioce */
    method Check(r: Reading) returns (said: Option<Alarm>)
      requires Valid()
      modifies this
      ensures Valid() && said == Said(old(State()), r)
      ensures State() == After(old(State()), r)
    {
      said := Speak(r);
      Rearm(r);
    }
  }

  function Start(): Latch {
    Latch(true, true, true, true, 0)
  }

  // ---- Runs ----

  // The state before reading `i`.
  function Before(readings: seq<Reading>, i: nat): Latch
    requires i <= |readings|
  {
    if i == 0 then Start() else After(Before(readings, i - 1), readings[i - 1])
  }

  function SaidAt(readings: seq<Reading>, i: nat): Option<Alarm>
    requires i < |readings|
  {
    Said(Before(readings, i), readings[i])
  }

  lemma {:induction false} StaysSilent(readings: seq<Reading>, alarm: Alarm, i: nat, j: nat)
    requires i < j <= |readings| && SaidAt(readings, i) == Some(alarm)
    requires forall k | i < k < j :: !Clears(alarm, readings[k])
    ensures !Armed(Before(readings, j), alarm)
    decreases j
  {
    if j > i + 1 {
      StaysSilent(readings, alarm, i, j - 1);
    }
  }

  /** No alarm is repeated before a reading that clears it. */
  lemma {:induction false} RepeatsOnlyAfterClearing(readings: seq<Reading>, alarm: Alarm, i: nat, j: nat)
    requires i < j < |readings| && SaidAt(readings, i) == SaidAt(readings, j) == Some(alarm)
    ensures alarm == Obstacle ==> exists k :: i < k < j && readings[k].distance >= 400
    ensures alarm == Air ==> exists k :: i < k < j && readings[k].airPpm < 7.4
    ensures alarm == Soil ==> exists k :: i < k < j && readings[k].soilAlarm == 0
    ensures alarm == Humid ==> exists k :: i < k < j && readings[k].humidity < 65.0
  {
    if forall k | i < k < j :: !Clears(alarm, readings[k]) {
      StaysSilent(readings, alarm, i, j);
    } else {
      var k :| i < k < j && Clears(alarm, readings[k]);
    }
  }

  /** Any such reading arms the alarm again. */
  lemma {:induction false} ClearingRearms(readings: seq<Reading>, i: nat)
    requires i < |readings|
    ensures readings[i].distance >= 400 ==> Armed(Before(readings, i + 1), Obstacle)
    ensures readings[i].airPpm < 7.4 ==> Armed(Before(readings, i + 1), Air)
    ensures readings[i].soilAlarm == 0 ==> Armed(Before(readings, i + 1), Soil)
    ensures readings[i].humidity < 65.0 ==> Armed(Before(readings, i + 1), Humid)
  {
    assert Before(readings, i + 1) == After(Before(readings, i), readings[i]);
  }

  /** What is said is so. */
  lemma {:induction false} SaidIsSo(readings: seq<Reading>, i: nat)
    requires i < |readings|
    ensures SaidAt(readings, i) == Some(Obstacle) ==> 0 < readings[i].distance < 400
    ensures SaidAt(readings, i) == Some(Air) ==> readings[i].airPpm >= 9.0
    ensures SaidAt(readings, i) == Some(Soil) ==> readings[i].soilAlarm == 1
    ensures SaidAt(readings, i) == Some(Humid) ==> readings[i].humidity >= 70.0
  {
  }

  /** An armed alarm is said at once if its cause is there and none before it asks for attention; the obstacle alarm if it need not wait. */
  lemma {:induction false} SaidAtOnce(readings: seq<Reading>, i: nat)
    requires i < |readings|
    ensures var s, r := Before(readings, i), readings[i];
            var clear, clean, moist := r.distance == 0 || r.distance >= 400, r.airPpm < 9.0, r.soilAlarm != 1;
            && (!clear && s.obstacle && s.wait <= 1 ==> SaidAt(readings, i) == Some(Obstacle))
            && (clear && !clean && s.air ==> SaidAt(readings, i) == Some(Air))
            && (clear && clean && !moist && s.soil ==> SaidAt(readings, i) == Some(Soil))
            && (clear && clean && moist && r.humidity >= 70.0 && s.humid ==> SaidAt(readings, i) == Some(Humid))
  {
  }

  lemma {:induction false} WaitRunsDown(readings: seq<Reading>, i: nat, j: nat)
    requires i < j <= |readings| && SaidAt(readings, i) == Some(Obstacle)
    ensures Before(readings, j).wait >= WAIT - (j - i - 1)
    decreases j
  {
    if j > i + 1 {
      WaitRunsDown(readings, i, j - 1);
    }
  }

  /** Obstacle alarms are at least 800 checks apart, however often the way clears. */
  lemma {:induction false} ObstaclesAreSpaced(readings: seq<Reading>, i: nat, j: nat)
    requires i < j < |readings| && SaidAt(readings, i) == SaidAt(readings, j) == Some(Obstacle)
    ensures j - i >= 800
  {
    WaitRunsDown(readings, i, j);
  }

  lemma {:induction false} WaitIsBounded(readings: seq<Reading>, i: nat)
    requires i <= |readings|
    ensures Before(readings, i).wait <= WAIT
  {
    if i > 0 {
      WaitIsBounded(readings, i - 1);
    }
  }

  lemma {:induction false} AirIsHeardAfterWait(readings: seq<Reading>, i: nat) returns (k: nat)
    requires i < |readings| && i + Before(readings, i).wait + 1 < |readings| && Armed(Before(readings, i), Air)
    requires forall j | i <= j <= i + Before(readings, i).wait + 1 :: Calls(Air, readings[j])
    ensures i <= k <= i + Before(readings, i).wait + 1 && SaidAt(readings, k) == Some(Air)
    decreases Before(readings, i).wait
  {
    assert Calls(Air, readings[i]) && Calls(Air, readings[i + 1]);
    if !Due(Before(readings, i), Obstacle, readings[i]) {
      k := i;
    } else if Before(readings, i).wait <= 1 {
      k := i + 1;
    } else {
      k := AirIsHeardAfterWait(readings, i + 1);
    }
  }

  /** Bad air that persists is announced within 802 checks, even while obstacles keep the voice busy. */
  lemma {:induction false} PersistentAirIsHeard(readings: seq<Reading>, i: nat) returns (k: nat)
    requires i + 801 < |readings| && Armed(Before(readings, i), Air)
    requires forall j | i <= j <= i + 801 :: readings[j].airPpm >= 9.0
    ensures i <= k <= i + 801 && SaidAt(readings, k) == Some(Air)
  {
    WaitIsBounded(readings, i);
    k := AirIsHeardAfterWait(readings, i);
  }

  // ---- Which alarms keep which silent ----

  function Rank(alarm: Alarm): nat {
    match alarm
    case Obstacle => 0
    case Air => 1
    case Soil => 2
    case Humid => 3
  }

  /** An alarm that is tried before this one is due. */
  predicate Preceded(s: Latch, alarm: Alarm, r: Reading) {
    || (Rank(alarm) > 0 && Due(s, Obstacle, r))
    || (Rank(alarm) > 1 && Due(s, Air, r))
    || (Rank(alarm) > 2 && Due(s, Soil, r))
  }

  /** Something keeps an armed alarm silent: an alarm before it or, of the obstacle alarm, its own wait. */
  predicate HeldBack(s: Latch, alarm: Alarm, r: Reading) {
    Preceded(s, alarm, r) || (alarm == Obstacle && s.wait > 1)
  }

  lemma {:induction false} StaysArmed(readings: seq<Reading>, alarm: Alarm, i: nat, j: nat)
    requires i <= j <= |readings| && Armed(Before(readings, i), alarm)
    requires forall k | i <= k < j :: SaidAt(readings, k) != Some(alarm)
    ensures Armed(Before(readings, j), alarm)
    decreases j
  {
    if j > i {
      StaysArmed(readings, alarm, i, j - 1);
      assert SaidAt(readings, j - 1) != Some(alarm);
    }
  }

  /** An alarm whose cause persists is heard if and only if at some check nothing holds it back. */
  lemma {:induction false} PersistentIsHeardIff(readings: seq<Reading>, alarm: Alarm, i: nat, n: nat)
    requires i <= n <= |readings| && Armed(Before(readings, i), alarm)
    requires forall j | i <= j < n :: Calls(alarm, readings[j])
    ensures (exists k | i <= k < n :: SaidAt(readings, k) == Some(alarm)) <==>
            (exists k | i <= k < n :: !HeldBack(Before(readings, k), alarm, readings[k]))
  {
    forall k | i <= k < n && SaidAt(readings, k) == Some(alarm)
      ensures !HeldBack(Before(readings, k), alarm, readings[k])
    {
    }
    forall k | i <= k < n && !HeldBack(Before(readings, k), alarm, readings[k])
      ensures exists m | i <= m < n :: SaidAt(readings, m) == Some(alarm)
    {
      if forall m | i <= m < k :: SaidAt(readings, m) != Some(alarm) {
        StaysArmed(readings, alarm, i, k);
        assert SaidAt(readings, k) == Some(alarm);
      }
    }
  }

  // How many checks the armed alarms before this one can still take.
  function Ahead(s: Latch, alarm: Alarm): nat {
    (if s.obstacle then if s.wait > 1 then s.wait else 1 else 0) +
    (if s.air && Rank(alarm) > 1 then 1 else 0) + (if s.soil && Rank(alarm) > 2 then 1 else 0)
  }

  ghost predicate NothingRearms(readings: seq<Reading>, alarm: Alarm, i: nat, n: nat) {
    forall j, a | i <= j < n <= |readings| && Rank(a) < Rank(alarm) :: !Clears(a, readings[j])
  }

  lemma PrecededComesNearer(s: Latch, alarm: Alarm, r: Reading)
    requires Preceded(s, alarm, r)
    requires forall a | Rank(a) < Rank(alarm) :: !Clears(a, r)
    ensures Ahead(After(s, r), alarm) < Ahead(s, alarm)
  {
    assert Rank(Obstacle) < Rank(alarm) && !Clears(Obstacle, r);
    assert Rank(alarm) > 1 ==> !Clears(Air, r);
    assert Rank(alarm) > 2 ==> !Clears(Soil, r);
  }

  lemma {:induction false} HeardWithin(readings: seq<Reading>, alarm: Alarm, i: nat, n: nat) returns (k: nat)
    requires i < n <= |readings| && alarm != Obstacle && Armed(Before(readings, i), alarm)
    requires i + Ahead(Before(readings, i), alarm) < n
    requires forall j | i <= j < n :: Calls(alarm, readings[j])
    requires NothingRearms(readings, alarm, i, n)
    ensures i <= k < n && SaidAt(readings, k) == Some(alarm)
    decreases n - i
  {
    var s, r := Before(readings, i), readings[i];
    assert Calls(alarm, r);
    if !Preceded(s, alarm, r) {
      k := i;
    } else {
      PrecededComesNearer(s, alarm, r);
      k := HeardWithin(readings, alarm, i + 1, n);
    }
  }

  /** An obstacle that stays is announced by the check at which the wait since the last one has run down, and nothing is said until then. */
  lemma {:induction false} PersistentObstacleIsHeard(readings: seq<Reading>, i: nat) returns (k: nat)
    requires i < |readings| && i + Before(readings, i).wait <= |readings| && Armed(Before(readings, i), Obstacle)
    requires forall j | i <= j < |readings| && j <= i + Before(readings, i).wait :: Calls(Obstacle, readings[j])
    ensures k == i + (if Before(readings, i).wait > 1 then Before(readings, i).wait - 1 else 0) < |readings|
    ensures SaidAt(readings, k) == Some(Obstacle)
    ensures forall j | i <= j < k :: SaidAt(readings, j) == None
    decreases Before(readings, i).wait
  {
    assert Calls(Obstacle, readings[i]);
    if Before(readings, i).wait <= 1 {
      k := i;
    } else {
      k := PersistentObstacleIsHeard(readings, i + 1);
    }
  }

  /** A cause that persists is announced within 803 checks, unless an alarm before it is armed again meanwhile. */
  lemma {:induction false} PersistentIsHeard(readings: seq<Reading>, alarm: Alarm, i: nat) returns (k: nat)
    requires i + 802 < |readings| && Armed(Before(readings, i), alarm)
    requires forall j | i <= j < i + 803 :: Calls(alarm, readings[j])
    requires NothingRearms(readings, alarm, i, i + 803)
    ensures i <= k < i + 803 && SaidAt(readings, k) == Some(alarm)
  {
    WaitIsBounded(readings, i);
    if alarm == Obstacle {
      k := PersistentObstacleIsHeard(readings, i);
    } else {
      k := HeardWithin(readings, alarm, i, i + WAIT + 3);
    }
  }

  /** An obstacle with clean air, then a clear way with bad air, and so on. */
  ghost predicate Alternating(readings: seq<Reading>) {
    forall i | 0 <= i < |readings| ::
      if i % 2 == 0 then Calls(Obstacle, readings[i]) && Clears(Air, readings[i])
      else Clears(Obstacle, readings[i]) && Calls(Air, readings[i])
  }

  lemma {:induction false} AlternatelyArmed(readings: seq<Reading>, i: nat)
    requires Alternating(readings) && i < |readings|
    ensures Due(Before(readings, i), if i % 2 == 0 then Obstacle else Air, readings[i])
  {
    assert if i % 2 == 0 then Calls(Obstacle, readings[i]) else Calls(Air, readings[i]);
    if i > 0 {
      AlternatelyArmed(readings, i - 1);
      assert if i % 2 == 1 then Clears(Air, readings[i - 1]) else Clears(Obstacle, readings[i - 1]);
    }
  }

  /**
    Then, whatever the soil and the humidity are, no soil or humidity alarm is
    ever heard: the obstacle, mostly silent itself, and the air take every check.
   */
  lemma {:induction false} SoilAndHumidityStarve(readings: seq<Reading>, i: nat)
    requires Alternating(readings) && i < |readings|
    ensures SaidAt(readings, i) != Some(Soil) && SaidAt(readings, i) != Some(Humid)
    ensures i % 2 == 1 ==> SaidAt(readings, i) == Some(Air)
  {
    AlternatelyArmed(readings, i);
    if i % 2 == 1 {
      assert Clears(Obstacle, readings[i]);
    }
  }

  // Such a run with dry soil and damp air throughout.
  function DryAndDamp(n: nat): seq<Reading> {
    seq(n, i => if i % 2 == 0 then Reading(100, 0.0, 1, 80.0) else Reading(500, 9.5, 1, 80.0))
  }

  /** One such run of any length: both causes call at every check, both alarms are armed to the end, neither is said. */
  lemma {:induction false} StarvingRun(n: nat, i: nat)
    requires i < n
    ensures var readings := DryAndDamp(n);
            && Calls(Soil, readings[i]) && Calls(Humid, readings[i])
            && Armed(Before(readings, i), Soil) && Armed(Before(readings, i), Humid)
            && SaidAt(readings, i) != Some(Soil) && SaidAt(readings, i) != Some(Humid)
  {
    var readings := DryAndDamp(n);
    assert Alternating(readings);
    forall k | 0 <= k <= i ensures SaidAt(readings, k) != Some(Soil) && SaidAt(readings, k) != Some(Humid) {
      SoilAndHumidityStarve(readings, k);
    }
    StaysArmed(readings, Soil, 0, i);
    StaysArmed(readings, Humid, 0, i);
  }
}
