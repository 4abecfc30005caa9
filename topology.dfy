/** The fixed link table of the six-state cycle: which (state, property) slots
    must carry the same value as the same property of another state. */
module Topology {

  import opened Field

  const States: nat := 6
  const Props: nat := 5

  // Property indices, in the order of the columns S, H, T, P, Q.
  const Entropy: nat := 0
  const Enthalpy: nat := 1
  const Temperature: nat := 2
  const Pressure: nat := 3
  const Quality: nat := 4

  /** links[state][property]: the partner state, or None. */
  const Links: seq<seq<Option<nat>>> := [
    [Some(1), None, None, Some(5), None],
    [Some(0), None, None, Some(2), None],
    [Some(3), None, None, Some(1), None],
    [Some(2), None, None, Some(4), None],
    [Some(5), None, None, Some(3), None],
    [Some(4), None, None, Some(0), None]
  ]

  /** The state whose property `p` must equal state `s`'s, if any; never `s` itself. */
  function Partner(s: nat, p: nat): (r: Option<nat>)
    requires s < States && p < Props
    ensures r.Some? ==> r.value < States && r.value != s
  {
    Links[s][p]
  }

  /** The table is symmetric: a partner's partner is the state itself. */
  lemma LinksSymmetric(s: nat, p: nat)
    requires s < States && p < Props && Partner(s, p).Some?
    ensures Partner(Partner(s, p).value, p) == Some(s)
  {
  }

  /** Only entropy and pressure are linked, and every state has a partner for both;
      enthalpy, temperature and quality are never shared between states. */
  lemma OnlyEntropyAndPressureLinked(s: nat, p: nat)
    requires s < States && p < Props
    ensures Partner(s, p).Some? <==> p == Entropy || p == Pressure
    ensures p == Enthalpy || p == Temperature || p == Quality ==> Partner(s, p).None?
  {
  }
}
