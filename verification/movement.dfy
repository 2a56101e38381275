/** The deterministic part of an agent's movement: the legality check, the
    displacement toward the target and the per-tick position update. The
    distance function and every freshly drawn random location are inputs. */
module Movement {
  import opened Outcomes
  import opened HealthStatus
  import opened Agents

  /** Why a movement step raises: the step leaves the area, or the agent
      stands exactly on its target and the division by the distance fails. */
  datatype MoveError = OutOfArea | ZeroDistance

  /** The distance collaborator of a position, treated as an opaque input. */
  type Metric = (Point, Point) -> real

  /** Closer than this to its target, an agent first picks a new target. */
  const RetargetDistance: real := 5.0

  /** Beyond this fraction of either limit, an agent picks a new target. */
  const BorderFraction: real := 0.9

  function Shifted(p: Point, dx: real, dy: real): Point {
    Point(p.x + dx, p.y + dy)
  }

  /** `isMoveLegit`: the shifted position lies strictly inside the area. */
  predicate IsMoveLegit(a: Agent, dx: real, dy: real) {
    a.area.xlimit > a.pos.x + dx > 0.0 && 0.0 < a.pos.y + dy < a.area.ylimit
  }

  /** `move`: shift by exactly (dx, dy) when that stays inside the area,
      otherwise raise and leave the agent as it was. */
  function Move(a: Agent, dx: real, dy: real): (r: Result<Agent, MoveError>)
    ensures r.Ok? <==> Inside(a.area, Shifted(a.pos, dx, dy))
    ensures r.Ok? ==> r.value == a.(pos := Shifted(a.pos, dx, dy))
    ensures r.Err? ==> r.error == OutOfArea
  {
    if IsMoveLegit(a, dx, dy) then Ok(a.(pos := Point(a.pos.x + dx, a.pos.y + dy))) else Err(OutOfArea)
  }

  /** A legal move from inside the area is undone by the opposite move. */
  lemma MoveUndo(a: Agent, dx: real, dy: real)
    requires Inside(a.area, a.pos)
    requires Move(a, dx, dy).Ok?
    ensures Move(Move(a, dx, dy).value, -dx, -dy) == Ok(a)
  {
  }

  /** The position is beyond 90% of either limit of the area. */
  predicate NearBorder(a: Agent) {
    a.pos.x > BorderFraction * a.area.xlimit || a.pos.y > BorderFraction * a.area.ylimit
  }

  /** One coordinate of a step of `speed` toward `t`, scaled by `distance`. */
  function Toward(p: real, t: real, distance: real, speed: real): real
    requires distance != 0.0
  {
    (t - p) / distance * speed
  }

  /** One evaluation of `deltaXY`: the displacement, and the agent whose
      target it may have replaced. */
  datatype Step = Step(dx: real, dy: real, agent: Agent)

  /** `deltaXY`, given the distance to the current target and the location a
      random draw would produce. Near the border the target is replaced, but
      the displacement still heads for the target and distance captured
      before the replacement. */
  function DeltaXY(a: Agent, distance: real, drawn: Point): (r: Result<Step, MoveError>)
    ensures a.isolating ==> r == Ok(Step(0.0, 0.0, a))
    ensures !a.isolating ==> (r.Ok? <==> distance != 0.0)
    ensures r.Ok? && !a.isolating ==>
      && r.value.dx * distance == (a.target.x - a.pos.x) * a.speed
      && r.value.dy * distance == (a.target.y - a.pos.y) * a.speed
    ensures r.Ok? && !a.isolating && NearBorder(a) ==> r.value.agent == a.(target := drawn)
    ensures r.Ok? && !(!a.isolating && NearBorder(a)) ==> r.value.agent == a
    ensures r.Err? ==> r.error == ZeroDistance
  {
    if a.isolating then Ok(Step(0.0, 0.0, a))
    else if distance == 0.0 then Err(ZeroDistance)
    else
      var dx := Toward(a.pos.x, a.target.x, distance, a.speed);
      var dy := Toward(a.pos.y, a.target.y, distance, a.speed);
      Ok(Step(dx, dy, if NearBorder(a) then a.(target := drawn) else a))
  }

  /** Against the true Euclidean distance, a moving step has length `speed`. */
  lemma StepLengthIsSpeed(a: Agent, distance: real, drawn: Point)
    requires !a.isolating && distance > 0.0
    requires distance * distance
      == (a.target.x - a.pos.x) * (a.target.x - a.pos.x) + (a.target.y - a.pos.y) * (a.target.y - a.pos.y)
    ensures DeltaXY(a, distance, drawn).Ok?
    ensures var s := DeltaXY(a, distance, drawn).value; s.dx * s.dx + s.dy * s.dy == a.speed * a.speed
  {
    var s := DeltaXY(a, distance, drawn).value;
    var k := a.speed / distance;
    var u, v := a.target.x - a.pos.x, a.target.y - a.pos.y;
    assert s.dx == u * k && s.dy == v * k;
    assert k * distance == a.speed;
    calc {
      s.dx * s.dx + s.dy * s.dy;
      == (u * u + v * v) * (k * k);
      == (distance * distance) * (k * k);
      == (k * distance) * (k * distance);
      == a.speed * a.speed;
    }
  }

  /** The fresh locations a position update may draw, in drawing order: the
      near-target re-target, then one per `deltaXY` call near the border. */
  datatype MoveDraws = MoveDraws(retarget: Point, border1: Point, border2: Point)

  /** Closer than 5 to the target, the agent first takes a fresh target. */
  function Retarget(a: Agent, dist: Metric, drawn: Point): Agent {
    if dist(a.pos, a.target) < RetargetDistance then a.(target := drawn) else a
  }

  /** `updatePos`. DEAD and CRITICAL agents stay put. Otherwise `deltaXY` is
      evaluated twice, once for each component, and the second evaluation
      sees the target the first one may have replaced. */
  function UpdatePos(a: Agent, dist: Metric, md: MoveDraws): (r: Result<Agent, MoveError>)
    ensures a.health == Dead || a.health == Critical ==> r == Ok(a)
    ensures r.Ok? ==> SameHealth(a, r.value) && r.value.speed == a.speed && r.value.area == a.area
    ensures r.Ok? ==> Inside(a.area, r.value.pos) || r.value == a
    ensures a.isolating && Inside(a.area, a.pos) ==> r.Ok? && r.value.pos == a.pos
    ensures a.isolating ==> r.Ok? ==> r.value.pos == a.pos
  {
    if a.health == Dead || a.health == Critical then Ok(a)
    else
      var b := Retarget(a, dist, md.retarget);
      match DeltaXY(b, dist(b.pos, b.target), md.border1)
      case Err(e) => Err(e)
      case Ok(first) =>
        match DeltaXY(first.agent, dist(first.agent.pos, first.agent.target), md.border2)
        case Err(e) => Err(e)
        case Ok(second) => Move(second.agent, first.dx, second.dy)
  }

  /** A coordinate moved toward an in-range target by at most the remaining
      distance stays in range: it is a convex combination of the two. */
  lemma ComponentStaysInside(p: real, t: real, lim: real, distance: real, speed: real)
    requires 0.0 < p < lim && 0.0 < t < lim
    requires 0.0 < speed <= distance
    ensures 0.0 < p + Toward(p, t, distance, speed) < lim
  {
  }

  /** `move` never raises when every target a component heads for lies
      inside the area at least `speed` away: each component is then a step
      of at most the remaining distance toward an in-range coordinate. */
  lemma UpdatePosStaysInside(a: Agent, dist: Metric, md: MoveDraws)
    requires Inside(a.area, a.pos) && 0.0 < a.speed
    requires Inside(a.area, XTarget(a, dist, md)) && dist(a.pos, XTarget(a, dist, md)) >= a.speed
    requires Inside(a.area, YTarget(a, dist, md)) && dist(a.pos, YTarget(a, dist, md)) >= a.speed
    ensures UpdatePos(a, dist, md).Ok?
    ensures Inside(a.area, UpdatePos(a, dist, md).value.pos)
  {
    if a.health != Dead && a.health != Critical && !a.isolating {
      var tx, ty := XTarget(a, dist, md), YTarget(a, dist, md);
      UnfoldMovingUpdate(a, dist, md);
      ComponentStaysInside(a.pos.x, tx.x, a.area.xlimit, dist(a.pos, tx), a.speed);
      ComponentStaysInside(a.pos.y, ty.y, a.area.ylimit, dist(a.pos, ty), a.speed);
    }
  }

  /** The target the x component heads for: the current one, or the fresh
      one drawn because the current one was too close. */
  function XTarget(a: Agent, dist: Metric, md: MoveDraws): Point {
    Retarget(a, dist, md.retarget).target
  }

  /** The target the y component heads for: the same as for x, unless the
      first `deltaXY` near the border replaced it. */
  function YTarget(a: Agent, dist: Metric, md: MoveDraws): Point {
    if NearBorder(a) then md.border1 else XTarget(a, dist, md)
  }

  /** The target the agent keeps after the update. */
  function FinalTarget(a: Agent, dist: Metric, md: MoveDraws): Point {
    if NearBorder(a) then md.border2 else XTarget(a, dist, md)
  }

  /** A moving agent's update is one `move` by the x component toward
      `XTarget` and the y component toward `YTarget`, each divided by the
      distance to its own target. */
  lemma UnfoldMovingUpdate(a: Agent, dist: Metric, md: MoveDraws)
    requires a.health != Dead && a.health != Critical && !a.isolating
    requires dist(a.pos, XTarget(a, dist, md)) != 0.0 && dist(a.pos, YTarget(a, dist, md)) != 0.0
    ensures UpdatePos(a, dist, md) == Move(a.(target := FinalTarget(a, dist, md)),
      Toward(a.pos.x, XTarget(a, dist, md).x, dist(a.pos, XTarget(a, dist, md)), a.speed),
      Toward(a.pos.y, YTarget(a, dist, md).y, dist(a.pos, YTarget(a, dist, md)), a.speed))
  {
  }

  /** A fresh target closer than `speed` makes the step overshoot it, and
      next to the edge of the area `move` then raises: an agent at (1.5, 50)
      of a 100 x 100 area with speed 2, whose fresh target is (0.5, 50) at
      distance 1, would step to x = -0.5. */
  lemma CloseFreshTargetOvershoots(dist: Metric)
    requires dist(Point(1.5, 50.0), Point(1.0, 50.0)) == 0.5
    requires dist(Point(1.5, 50.0), Point(0.5, 50.0)) == 1.0
    ensures
      var a := NewAgent(Point(1.5, 50.0), Area(100.0, 100.0), Point(1.0, 50.0), DefaultSpeed);
      UpdatePos(a, dist, MoveDraws(Point(0.5, 50.0), Point(50.0, 50.0), Point(50.0, 50.0))) == Err(OutOfArea)
  {
  }
}
