# Agent health state machine and movement guards

A Dafny model of one simulated individual (`Person`) of an epidemic
simulation: the closed health enumeration and its display colours, the five
health setters, the per-tick health update (`updateHealth` with its recovery
clock, sick roll, hospital roll and death roll), and the deterministic part of
movement (`isMoveLegit`, `move`, `deltaXY`, `updatePos`, `update`).

The agent is an immutable record (`Agents.Agent`) and every operation is a
pure function. Python's `random.random()` draws become explicit `real`
parameters (`Disease.Draws` for health, `Movement.MoveDraws` for the freshly
drawn random locations), and the `Location.getDistance` collaborator becomes a
function parameter `dist: (Point, Point) -> real`. Probability thresholds are
exact real literals. Python exceptions (`move` on an out-of-area step, a
division by a zero distance in `deltaXY`) are the `Err` side of
`Outcomes.Result`.

Modules: `Outcomes` (result type), `HealthStatus` (enumeration, colours),
`Agents` (record, invariant, setters), `Disease` (one health tick), `Movement`
(one position update), `Lifecycle` (whole ticks, runs of ticks, histories of
setter calls and ticks).

In the near-border branch of `deltaXY` the displacement is computed from the
target and distance captured before the target is replaced (Person.py:59, 66,
72-75), not toward the new target. Because `updatePos` evaluates `deltaXY()`
twice (Person.py:109), near the border the x component heads for the old
target, the y component for the first freshly drawn one, and the agent keeps
the second freshly drawn one (`Movement.UnfoldMovingUpdate`).

`move` can raise on a step that `updatePos` produces: after a re-target
(Person.py:107-108) the fresh target may be closer than `speed`, the step then
overshoots it, and next to the edge of the area the bounds check of `move`
fails (`Movement.CloseFreshTargetOvershoots`). `Movement.UpdatePosStaysInside`
states the condition under which `move` cannot raise: every target a
component heads for is inside the area and at least `speed` away.

## Model

| member | source | states |
|---|---|---|
| HealthStatus.Color | Person.py:153-167 | every health state has a colour, and that colour reads back to exactly that state; the fallback exception branch has no counterpart because the match is exhaustive |
| HealthStatus.ColorInjective | Person.py:153-167 | two states share a colour if and only if they are the same state |
| HealthStatus.ColorRoundTrip | Person.py:153-167 | a string reads back to a health state exactly when some state is drawn in that colour, and then it is that state's colour |
| Agents.NewAgent | Person.py:31-47 | a new agent is HEALTHY, not isolating, not infectious, not immune, off the recovery clock, and satisfies the health invariants |
| Agents.SetInfected | Person.py:170-174 | from any state, the result is INFECTED on a clock of exactly `duration` days and satisfies the health invariants; isolation and movement are untouched |
| Agents.SetSick | Person.py:176-180 | from any state, the result is SICK on a clock of exactly `duration` days and satisfies the health invariants; isolation and movement are untouched |
| Agents.SetCritical | Person.py:182-186 | from any state, the result is CRITICAL, infectious, immune and isolating, keeps its clock, and satisfies the health invariants |
| Agents.SetDead | Person.py:188-192 | from any state, the result is DEAD with the clock cleared and satisfies the health invariants; isolation is left as it was |
| Agents.SetRecovered | Person.py:194-199 | from any state, the result is RECOVERED, not isolating, with the clock cleared, and satisfies the health invariants |
| Disease.CountDown | Person.py:112-115 | a clock above 1 drops by exactly one and nothing else changes; a clock at 1 or 0 forces RECOVERED whatever the state; a negative clock changes nothing; the invariants are kept |
| Disease.SickRoll | Person.py:116-118 | exactly an INFECTED agent with sick draw below 0.1 becomes SICK with the clock reset to 10; every other agent is unchanged |
| Disease.HospitalRoll | Person.py:137-146 | INFECTED below 0.03 or SICK below 0.06 becomes CRITICAL and isolating with the clock extended by exactly 10, at most once per call; every other agent is unchanged |
| Disease.DeathRoll | Person.py:122-134 | a non-infectious agent is unchanged; an infectious one dies exactly when its draw is below 0.001 (INFECTED), 0.005 (SICK) or 0.01 (otherwise), and then is DEAD, not infectious, immune, off the clock, with isolation unchanged |
| Disease.UpdateHealth | Person.py:111-120 | the invariants survive a tick; a tick never moves the agent; dormant states are untouched; a clock entering at 1 recovers whatever the draws; quiet draws only count the clock down; an agent falling sick is judged against the SICK hospital threshold in the same tick; a death clears the clock |
| Disease.FixedPointsAreDormantStates | Person.py:111-146 | a consistent agent is unchanged by every possible set of draws if and only if it is HEALTHY, RECOVERED or DEAD |
| Movement.Move | Person.py:85-99 | the move succeeds if and only if the shifted position is strictly inside the area, and then shifts the position by exactly (dx, dy) and changes nothing else; otherwise it raises |
| Movement.MoveUndo | Person.py:93-96 | a successful move from inside the area is undone by the opposite move |
| Movement.DeltaXY | Person.py:58-82 | an isolating agent gets (0, 0); otherwise the step succeeds exactly when the distance is non-zero, heads for the target captured before any replacement scaled by speed over distance, and near the border the target is replaced by the drawn one |
| Movement.StepLengthIsSpeed | Person.py:74-80 | when the distance is the Euclidean one, a moving step has length exactly `speed` |
| Movement.UpdatePos | Person.py:105-109 | DEAD and CRITICAL agents are returned unchanged; a successful update never changes health, speed or area, and ends inside the area or unchanged; an isolating agent inside the area stays where it is |
| Movement.UnfoldMovingUpdate | Person.py:105-109 | a moving agent takes one move whose x component heads for the (possibly re-targeted) target and whose y component heads for the target the second `deltaXY` sees, each divided by the distance to its own target; near the border the agent keeps the second drawn target |
| Movement.ComponentStaysInside | Person.py:79-80 | a coordinate stepped toward an in-range target by at most the remaining distance stays strictly in range |
| Movement.UpdatePosStaysInside | Person.py:105-109 | if every target a component heads for is inside the area and at least `speed` away, the update does not raise and ends inside the area |
| Movement.CloseFreshTargetOvershoots | Person.py:105-109 | an agent at (1.5, 50) in a 100 x 100 area with speed 2 whose fresh target is (0.5, 50) steps out of the area, and `move` raises |
| Lifecycle.Update | Person.py:148-150 | the health tick runs first; a successful position update keeps exactly its health fields and therefore the invariants; an agent that is DEAD or CRITICAL after the health tick does not move |
| Lifecycle.CriticalDeathFreezes | Person.py:148-150 | a CRITICAL agent whose death draw is below 0.01 is DEAD, not infectious, off the clock, and at the same position after the tick |
| Lifecycle.RunPreservesConsistent | Person.py:111-120 | the health invariants hold after any number of ticks |
| Lifecycle.DormantRunIsFixed | Person.py:111-134 | HEALTHY, RECOVERED and DEAD agents keep their whole state through any run of ticks |
| Lifecycle.QuietRunCountsDown | Person.py:112-113 | with no roll firing, a clock longer than the run drops by exactly one per tick and nothing else changes |
| Lifecycle.QuietRunRecovers | Person.py:112-115 | with no roll firing, an agent on a clock of k >= 1 days recovers in tick k and stays recovered |
| Lifecycle.ReachableIsConsistent | Person.py:170-199 | any sequence of setter calls and ticks from a consistent agent ends in a consistent agent |
| Lifecycle.ImmunityIsPermanent | Person.py:170-199 | once immune, an agent stays immune through any sequence of setter calls and ticks |
| Lifecycle.NeverHealthyAgain | Person.py:170-199 | a consistent agent that has left HEALTHY never returns to it |
| Lifecycle.NewAgentStaysConsistent | Person.py:43-47 | a newly constructed agent satisfies the health invariants after any history of setter calls and ticks |

## Left out

- `Location`, `Area`, `getDistance` and `randomLocation` are not part of this model: the distance is a function parameter and every freshly drawn location is an explicit point.
- Python's `random` module: each draw is an explicit parameter. The source draws the sick number only for INFECTED agents and the death number only for infectious ones, which shifts which later random number each roll sees; a parameter per roll does not model that stream order.
- Floating point: coordinates, distances and thresholds are exact reals, so rounding in `0.9 * xlimit` or in the unit-vector arithmetic is not modelled.
- The `xLimit`/`yLimit` parameters of `deltaXY`: the only caller uses the defaults, so the model always uses the area's limits.
- Lifecycle.Update and Movement.UpdatePos: an `Err` carries no agent. When the source raises (in `move`, Person.py:99, or on a zero distance in `deltaXY`), `update` has already applied the health tick to the object (Person.py:149), and `updatePos` may already have replaced the target (Person.py:108, 73); the model does not describe that partly updated object, because the exception ends the simulation.
- The global identity counter, `name`, `__str__` and `fullPrint`: bookkeeping and string formatting.
- The `print` before the exception in `move`: output only.
- `setTarget` copies the location; with value types every assignment is already a copy.
- Toggling `isolating` from outside the agent: no code in the modelled file does it, so the invariant "CRITICAL implies isolating" is stated for setter calls and ticks only.
- Movement.UpdatePosStaysInside: states a sufficient condition for `move` not raising, not a promise of the source, which can raise (see Movement.CloseFreshTargetOvershoots).
