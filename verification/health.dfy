/** The closed health enumeration of an agent and its display colour. */
module HealthStatus {
  import opened Outcomes

  /** The six disease states an agent can be in. */
  datatype Health = Healthy | Infected | Sick | Critical | Recovered | Dead

  /** The states in which an agent carries the disease and may die of it. */
  predicate IsActive(h: Health) {
    h == Infected || h == Sick || h == Critical
  }

  /** Reads a display colour back into the health state it stands for. */
  function HealthOfColor(c: string): Option<Health> {
    if c == "green" then Some(Healthy)
    else if c == "yellow" then Some(Infected)
    else if c == "orange" then Some(Sick)
    else if c == "red" then Some(Critical)
    else if c == "blue" then Some(Recovered)
    else if c == "gray" then Some(Dead)
    else None
  }

  /** Display colour of a health state. The match is exhaustive, so the
      source's "something went wrong" fallback has no counterpart. */
  function Color(h: Health): (c: string)
    ensures HealthOfColor(c) == Some(h)
  {
    match h
    case Healthy => "green"
    case Infected => "yellow"
    case Sick => "orange"
    case Critical => "red"
    case Recovered => "blue"
    case Dead => "gray"
  }

  /** No two health states share a colour. */
  lemma ColorInjective(h1: Health, h2: Health)
    ensures Color(h1) == Color(h2) <==> h1 == h2
  {
  }

  /** Every colour the mapping can produce is read back to exactly one state,
      and no other string is read back at all. */
  lemma ColorRoundTrip(c: string)
    ensures HealthOfColor(c).Some? <==> exists h :: Color(h) == c
    ensures HealthOfColor(c).Some? ==> Color(HealthOfColor(c).value) == c
  {
    if HealthOfColor(c).Some? {
      assert Color(HealthOfColor(c).value) == c;
    }
  }
}
