/** Whole ticks and sequences of ticks and setter calls: the invariants and
    fixed points of an agent's life. */
module Lifecycle {
  import opened Outcomes
  import opened HealthStatus
  import opened Agents
  import opened Disease
  import opened Movement

  /** `update`: the health state machine runs to completion first, then the
      position update sees the resulting state. */
  function Update(a: Agent, hd: Draws, dist: Metric, md: MoveDraws): (r: Result<Agent, MoveError>)
    ensures r.Ok? ==> SameHealth(r.value, UpdateHealth(a, hd))
    ensures Consistent(a) && r.Ok? ==> Consistent(r.value)
    ensures UpdateHealth(a, hd).health == Dead || UpdateHealth(a, hd).health == Critical ==>
      r == Ok(UpdateHealth(a, hd))
  {
    UpdatePos(UpdateHealth(a, hd), dist, md)
  }

  /** A CRITICAL agent whose death draw fires dies in this tick and then
      stays where it is. */
  lemma CriticalDeathFreezes(a: Agent, hd: Draws, dist: Metric, md: MoveDraws)
    requires Consistent(a) && a.health == Critical && a.daysUntilRecovered != 0 && a.daysUntilRecovered != 1
    requires hd.death < CriticalDeathChance
    ensures Update(a, hd, dist, md).Ok?
    ensures var r := Update(a, hd, dist, md).value;
      r.health == Dead && !r.infectious && r.immune && r.daysUntilRecovered == -1 && r.pos == a.pos
  {
  }

  /** The health part of a run of ticks, one set of draws per tick. */
  function Run(a: Agent, ds: seq<Draws>): Agent
    decreases |ds|
  {
    if |ds| == 0 then a else Run(UpdateHealth(a, ds[0]), ds[1..])
  }

  /** The health invariants hold after any number of ticks. */
  lemma {:induction false} RunPreservesConsistent(a: Agent, ds: seq<Draws>)
    requires Consistent(a)
    ensures Consistent(Run(a, ds))
    decreases |ds|
  {
    if |ds| > 0 {
      RunPreservesConsistent(UpdateHealth(a, ds[0]), ds[1..]);
    }
  }

  /** HEALTHY, RECOVERED and DEAD agents keep their whole state through any
      run of ticks, whatever the draws. */
  lemma {:induction false} DormantRunIsFixed(a: Agent, ds: seq<Draws>)
    requires Consistent(a) && a.health in {Healthy, Recovered, Dead}
    ensures Run(a, ds) == a
    decreases |ds|
  {
    if |ds| > 0 {
      DormantRunIsFixed(UpdateHealth(a, ds[0]), ds[1..]);
    }
  }

  /** With no roll firing, a clock longer than the run just counts down. */
  lemma {:induction false} QuietRunCountsDown(a: Agent, ds: seq<Draws>)
    requires forall i :: 0 <= i < |ds| ==> Quiet(ds[i])
    requires a.daysUntilRecovered > |ds|
    ensures Run(a, ds) == a.(daysUntilRecovered := a.daysUntilRecovered - |ds|)
    decreases |ds|
  {
    if |ds| > 0 {
      var b := UpdateHealth(a, ds[0]);
      assert b == a.(daysUntilRecovered := a.daysUntilRecovered - 1);
      QuietRunCountsDown(b, ds[1..]);
    }
  }

  /** With no roll firing, an agent on a clock of k >= 1 days recovers in
      tick k and stays recovered for the rest of the run. */
  lemma {:induction false} QuietRunRecovers(a: Agent, ds: seq<Draws>)
    requires forall i :: 0 <= i < |ds| ==> Quiet(ds[i])
    requires 1 <= a.daysUntilRecovered <= |ds|
    ensures Run(a, ds) == SetRecovered(a)
    decreases |ds|
  {
    var b := UpdateHealth(a, ds[0]);
    if a.daysUntilRecovered == 1 {
      assert b == SetRecovered(a);
      DormantRunIsFixed(b, ds[1..]);
    } else {
      assert b == a.(daysUntilRecovered := a.daysUntilRecovered - 1);
      QuietRunRecovers(b, ds[1..]);
      assert SetRecovered(b) == SetRecovered(a);
    }
  }

  /** Everything that can change an agent's health: a setter called from
      outside the agent, or one tick of the state machine. */
  datatype Event =
    | Infect(duration: int)
    | FallSick(duration: int)
    | MakeCritical
    | Die
    | Recover
    | Tick(draws: Draws)

  function Apply(a: Agent, e: Event): Agent {
    match e
    case Infect(n) => SetInfected(a, n)
    case FallSick(n) => SetSick(a, n)
    case MakeCritical => SetCritical(a)
    case Die => SetDead(a)
    case Recover => SetRecovered(a)
    case Tick(d) => UpdateHealth(a, d)
  }

  function ApplyAll(a: Agent, es: seq<Event>): Agent
    decreases |es|
  {
    if |es| == 0 then a else ApplyAll(Apply(a, es[0]), es[1..])
  }

  /** Every agent reachable from a consistent one (in particular from a newly
      constructed one) by setters and ticks is consistent. */
  lemma {:induction false} ReachableIsConsistent(a: Agent, es: seq<Event>)
    requires Consistent(a)
    ensures Consistent(ApplyAll(a, es))
    decreases |es|
  {
    if |es| > 0 {
      ReachableIsConsistent(Apply(a, es[0]), es[1..]);
    }
  }

  /** Once immune, always immune. */
  lemma {:induction false} ImmunityIsPermanent(a: Agent, es: seq<Event>)
    requires a.immune
    ensures ApplyAll(a, es).immune
    decreases |es|
  {
    if |es| > 0 {
      var b := Apply(a, es[0]);
      assert b.immune by {
        if es[0].Tick? {
          var d := es[0].draws;
          assert CountDown(a).immune;
          assert SickRoll(CountDown(a), d.sick).immune;
          assert HospitalRoll(SickRoll(CountDown(a), d.sick), d.hospital).immune;
        }
      }
      ImmunityIsPermanent(b, es[1..]);
    }
  }

  /** No sequence of setters and ticks makes an agent HEALTHY again. */
  lemma NeverHealthyAgain(a: Agent, es: seq<Event>)
    requires Consistent(a) && a.health != Healthy
    ensures ApplyAll(a, es).health != Healthy
  {
    ImmunityIsPermanent(a, es);
    ReachableIsConsistent(a, es);
  }

  /** A newly constructed agent satisfies the invariants after any history. */
  lemma NewAgentStaysConsistent(pos: Point, area: Area, target: Point, speed: real, es: seq<Event>)
    ensures Consistent(ApplyAll(NewAgent(pos, area, target, speed), es))
  {
    ReachableIsConsistent(NewAgent(pos, area, target, speed), es);
  }
}
