/** The agent record and the five health setters. */
module Agents {
  import opened HealthStatus

  /** A position in the plane. */
  datatype Point = Point(x: real, y: real)

  /** The rectangle (0, xlimit) x (0, ylimit) an agent lives in. */
  datatype Area = Area(xlimit: real, ylimit: real)

  /** One simulated individual: movement state followed by health state.
      `daysUntilRecovered` is -1 when the agent is not on a recovery clock. */
  datatype Agent = Agent(
    speed: real,
    pos: Point,
    target: Point,
    area: Area,
    health: Health,
    isolating: bool,
    infectious: bool,
    immune: bool,
    daysUntilRecovered: int)

  /** Strictly inside the open rectangle of the area. */
  predicate Inside(area: Area, p: Point) {
    0.0 < p.x < area.xlimit && 0.0 < p.y < area.ylimit
  }

  /** Default recovery duration of `setInfected` and `setSick`. */
  const DefaultDuration: int := 10

  /** Default speed of a freshly created agent. */
  const DefaultSpeed: real := 2.0

  /** The health invariants every reachable agent satisfies:
      infectious exactly in the active states, immune exactly outside HEALTHY,
      CRITICAL agents isolate, and the dormant states carry no recovery clock. */
  predicate Consistent(a: Agent) {
    && (a.infectious <==> IsActive(a.health))
    && (a.immune <==> a.health != Healthy)
    && (a.health == Critical ==> a.isolating)
    && (a.health in {Healthy, Recovered, Dead} ==> a.daysUntilRecovered == -1)
  }

  /** Position, target, speed and area are the same in both agents. */
  predicate SameMovement(a: Agent, b: Agent) {
    a.speed == b.speed && a.pos == b.pos && a.target == b.target && a.area == b.area
  }

  /** The health fields are the same in both agents. */
  predicate SameHealth(a: Agent, b: Agent) {
    && a.health == b.health && a.isolating == b.isolating && a.infectious == b.infectious
    && a.immune == b.immune && a.daysUntilRecovered == b.daysUntilRecovered
  }

  /** A freshly constructed agent; the random initial target is a parameter. */
  function NewAgent(pos: Point, area: Area, target: Point, speed: real): (a: Agent)
    ensures Consistent(a)
    ensures a.health == Healthy && !a.isolating && a.daysUntilRecovered == -1
    ensures a.pos == pos && a.target == target && a.area == area && a.speed == speed
  {
    Agent(speed, pos, target, area, Healthy, false, false, false, -1)
  }

  /** `setInfected`: infectious, immune, on a clock of `duration` days. */
  function SetInfected(a: Agent, duration: int): (r: Agent)
    ensures Consistent(r)
    ensures r.health == Infected && r.daysUntilRecovered == duration
    ensures r.isolating == a.isolating && SameMovement(a, r)
  {
    a.(health := Infected, infectious := true, immune := true, daysUntilRecovered := duration)
  }

  /** `setSick`: like `setInfected` but with symptoms. */
  function SetSick(a: Agent, duration: int): (r: Agent)
    ensures Consistent(r)
    ensures r.health == Sick && r.daysUntilRecovered == duration
    ensures r.isolating == a.isolating && SameMovement(a, r)
  {
    a.(health := Sick, infectious := true, immune := true, daysUntilRecovered := duration)
  }

  /** `setCritical`: forces isolation and keeps the existing recovery clock;
      the caller extends the clock. */
  function SetCritical(a: Agent): (r: Agent)
    ensures Consistent(r)
    ensures r.health == Critical && r.isolating && r.infectious && r.immune
    ensures r.daysUntilRecovered == a.daysUntilRecovered && SameMovement(a, r)
  {
    a.(health := Critical, infectious := true, immune := true, isolating := true)
  }

  /** `setDead`: not infectious, immune, clock cleared, isolation untouched. */
  function SetDead(a: Agent): (r: Agent)
    ensures Consistent(r)
    ensures r.health == Dead && r.daysUntilRecovered == -1
    ensures r.isolating == a.isolating && SameMovement(a, r)
  {
    a.(health := Dead, infectious := false, immune := true, daysUntilRecovered := -1)
  }

  /** `setRecovered`: not infectious, immune, clock cleared, isolation ended. */
  function SetRecovered(a: Agent): (r: Agent)
    ensures Consistent(r)
    ensures r.health == Recovered && r.daysUntilRecovered == -1 && !r.isolating
    ensures SameMovement(a, r)
  {
    a.(health := Recovered, infectious := false, immune := true, daysUntilRecovered := -1, isolating := false)
  }
}
