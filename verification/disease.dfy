/** The per-tick health state machine of an agent. Every random draw of the
    source is an explicit parameter, so a tick is a pure function. */
module Disease {
  import opened HealthStatus
  import opened Agents

  /** The three uniform draws of one tick: the INFECTED-to-SICK draw, the
      hospital draw and the death draw. The source takes the first only for
      INFECTED agents and the last only for infectious ones; here they are
      always supplied and ignored when unused. */
  datatype Draws = Draws(sick: real, hospital: real, death: real)

  const SickChance: real := 0.1
  const InfectedCriticalChance: real := 0.03
  const SickCriticalChance: real := 0.06
  const InfectedDeathChance: real := 0.001
  const SickDeathChance: real := 0.005
  const CriticalDeathChance: real := 0.01

  /** Days added to the recovery clock on entering CRITICAL. */
  const CriticalExtension: int := 10

  /** Draws for which no roll of any state fires. */
  predicate Quiet(d: Draws) {
    d.sick >= SickChance && d.hospital >= SickCriticalChance && d.death >= CriticalDeathChance
  }

  /** Steps 1 and 2 of a tick: a positive clock drops by one, and a clock at
      zero forces RECOVERED whatever the current state. */
  function CountDown(a: Agent): (r: Agent)
    ensures a.daysUntilRecovered > 1 ==> r == a.(daysUntilRecovered := a.daysUntilRecovered - 1)
    ensures 0 <= a.daysUntilRecovered <= 1 ==>
      r.health == Recovered && r.daysUntilRecovered == -1 && !r.isolating && !r.infectious && r.immune
    ensures a.daysUntilRecovered < 0 ==> r == a
    ensures SameMovement(a, r)
    ensures Consistent(a) ==> Consistent(r)
  {
    var b := if a.daysUntilRecovered > 0 then a.(daysUntilRecovered := a.daysUntilRecovered - 1) else a;
    if b.daysUntilRecovered == 0 then SetRecovered(b) else b
  }

  /** Step 3: an INFECTED agent falls sick with chance 0.1, restarting its
      clock at the default duration. */
  function SickRoll(a: Agent, draw: real): (r: Agent)
    ensures a.health == Infected && draw < SickChance ==>
      r.health == Sick && r.daysUntilRecovered == DefaultDuration && r.infectious && r.immune
      && r.isolating == a.isolating && SameMovement(a, r)
    ensures !(a.health == Infected && draw < SickChance) ==> r == a
    ensures Consistent(a) ==> Consistent(r)
  {
    if a.health == Infected && draw < SickChance then SetSick(a, DefaultDuration) else a
  }

  /** CRITICAL entered from the hospital roll: the clock is extended, not reset. */
  function Hospitalize(a: Agent): Agent {
    var c := SetCritical(a);
    c.(daysUntilRecovered := c.daysUntilRecovered + CriticalExtension)
  }

  /** Whether the hospital roll of an agent in this state fires on `draw`. */
  predicate HospitalFires(a: Agent, draw: real) {
    || (a.health == Infected && draw < InfectedCriticalChance)
    || (a.health == Sick && draw < SickCriticalChance)
  }

  /** Step 4: the hospital roll. The INFECTED test runs first; its move to
      CRITICAL makes the following SICK test fail, so the clock is extended
      at most once per call. */
  function HospitalRoll(a: Agent, draw: real): (r: Agent)
    ensures HospitalFires(a, draw) ==>
      && r.health == Critical && r.isolating && r.infectious && r.immune
      && r.daysUntilRecovered == a.daysUntilRecovered + CriticalExtension
      && SameMovement(a, r)
    ensures !HospitalFires(a, draw) ==> r == a
    ensures Consistent(a) ==> Consistent(r)
  {
    var b := if a.health == Infected && draw < InfectedCriticalChance then Hospitalize(a) else a;
    if b.health == Sick && draw < SickCriticalChance then Hospitalize(b) else b
  }

  /** Death threshold by state; anything that is neither INFECTED nor SICK
      is judged as CRITICAL. */
  function DeathChance(h: Health): real {
    match h
    case Infected => InfectedDeathChance
    case Sick => SickDeathChance
    case _ => CriticalDeathChance
  }

  /** Step 5: the death roll, evaluated only for infectious agents. */
  function DeathRoll(a: Agent, draw: real): (r: Agent)
    ensures !a.infectious ==> r == a
    ensures a.infectious && a.health == Infected ==> (r.health == Dead <==> draw < InfectedDeathChance)
    ensures a.infectious && a.health == Sick ==> (r.health == Dead <==> draw < SickDeathChance)
    ensures a.infectious && a.health == Critical ==> (r.health == Dead <==> draw < CriticalDeathChance)
    ensures a.infectious && draw < DeathChance(a.health) ==>
      && r.health == Dead && !r.infectious && r.immune && r.daysUntilRecovered == -1
      && r.isolating == a.isolating && SameMovement(a, r)
    ensures draw >= DeathChance(a.health) ==> r == a
    ensures Consistent(a) ==> Consistent(r)
  {
    if a.infectious && draw < DeathChance(a.health) then SetDead(a) else a
  }

  /** `updateHealth`: the five steps in their fixed order. */
  function UpdateHealth(a: Agent, d: Draws): (r: Agent)
    // the health invariants survive every tick
    ensures Consistent(a) ==> Consistent(r)
    // a tick never moves the agent
    ensures SameMovement(a, r)
    // no clock, not infectious and no roll applies: nothing changes
    ensures a.daysUntilRecovered < 0 && !a.infectious && a.health != Infected && a.health != Sick ==> r == a
    // a clock entering the tick at 1 (or 0) recovers the agent whatever the draws
    ensures 0 <= a.daysUntilRecovered <= 1 ==>
      r.health == Recovered && r.daysUntilRecovered == -1 && !r.isolating && !r.infectious && r.immune
    // with quiet draws a positive clock drops by exactly one and nothing else changes
    ensures Quiet(d) && a.daysUntilRecovered > 1 ==>
      r == a.(daysUntilRecovered := a.daysUntilRecovered - 1)
    ensures Quiet(d) && a.daysUntilRecovered < 0 ==> r == a
    // falling sick in this tick: the hospital roll then uses the SICK threshold
    ensures a.health == Infected && a.daysUntilRecovered !in {0, 1} && d.sick < SickChance ==>
      (d.hospital < SickCriticalChance && d.death >= CriticalDeathChance ==>
         r.health == Critical && r.isolating && r.daysUntilRecovered == DefaultDuration + CriticalExtension)
      && (d.hospital >= SickCriticalChance && d.death >= SickDeathChance ==>
         r.health == Sick && r.daysUntilRecovered == DefaultDuration)
    // death overrides whatever the earlier steps did
    ensures r.health == Dead && a.health != Dead ==>
      !r.infectious && r.immune && r.daysUntilRecovered == -1
  {
    DeathRoll(HospitalRoll(SickRoll(CountDown(a), d.sick), d.hospital), d.death)
  }

  /** HEALTHY, RECOVERED and DEAD are exactly the states a consistent agent
      keeps under every possible set of draws. */
  lemma FixedPointsAreDormantStates(a: Agent)
    requires Consistent(a)
    ensures (forall d :: UpdateHealth(a, d) == a) <==> a.health in {Healthy, Recovered, Dead}
  {
    var z := Draws(0.0, 0.0, 0.0);
    if a.health !in {Healthy, Recovered, Dead} {
      var c := CountDown(a);
      if 0 <= a.daysUntilRecovered <= 1 {
        assert UpdateHealth(a, z).health == Recovered;
      } else {
        assert c == a.(daysUntilRecovered := c.daysUntilRecovered);
        var s := SickRoll(c, 0.0);
        assert s.health in {Sick, Critical};
        var h := HospitalRoll(s, 0.0);
        assert h.health == Critical && h.infectious;
        assert UpdateHealth(a, z).health == Dead;
      }
      assert UpdateHealth(a, z) != a;
    }
  }
}
