/** The single steps of change propagation as functions on the grid: the local
    recomputation OnChange performs on one state, and the two halves of Link
    (turning the partner into a mirror, and copying the value across). */
module Step {

  import opened Field
  import opened Topology
  import opened Grid

  // ---------------------------------------------------------------------------
  // OnChange, first loop: the driven flags of the edited state

  /** The row after the first loop of OnChange, for a state with `known` knowns. */
  function Redriven(row: seq<Field>, known: nat): (r: seq<Field>)
  {
    seq(|row|, i requires 0 <= i < |row| => WithDriven(row[i], DrivenRule(row[i], known)))
  }

  /** The first loop keeps the selection and mirroring flags, so the grid stays
      well formed and the state's known count is unchanged. */
  lemma RedrivenKeepsKnowns(g: Grid, s: nat, known: nat)
    requires WellFormed(g) && s < States
    ensures var h := g[s := Redriven(g[s], known)];
      WellFormed(h) && SameSelection(g, h) && CountKnown(h[s]) == CountKnown(g[s]) &&
      forall t, p :: 0 <= t < States && 0 <= p < Props ==> h[t][p].copied == g[t][p].copied
  {
    CountDependsOnKnownOnly(g[s], Redriven(g[s], known));
  }

  // ---------------------------------------------------------------------------
  // GetKnownInState's side effect: every field it reads is settled

  /** GetKnownInState(s) calls GetValue on field (t, p): the field itself when it is
      selected, its partner when it is copied. */
  predicate ReadBy(g: Grid, s: nat, t: nat, p: nat)
    requires WellFormed(g) && s < States && t < States && p < Props
  {
    (t == s && g[s][p].selected) || (g[s][p].copied && Partner(s, p) == Some(t))
  }

  /** The grid after GetKnownInState(s) has read the fields of properties below n. */
  function ReadUpTo(g: Grid, s: nat, n: nat): Grid
    requires WellFormed(g) && s < States
  {
    seq(States, t requires 0 <= t < States =>
      seq(Props, p requires 0 <= p < Props =>
        if p < n && ReadBy(g, s, t, p) then g[t][p].(text := Settled(g[t][p].text)) else g[t][p]))
  }

  /** Reading a state changes no flag and no field's value; a number is kept, so
      only blank or unparsable texts are rewritten. */
  lemma ReadUpToKeeps(g: Grid, s: nat, n: nat)
    requires WellFormed(g) && s < States
    ensures var h := ReadUpTo(g, s, n);
      WellFormed(h) &&
      forall t, p :: 0 <= t < States && 0 <= p < Props ==>
        h[t][p] == g[t][p].(text := h[t][p].text) && Reading(h[t][p].text) == Reading(g[t][p].text) &&
        (g[t][p].text.Number? ==> h[t][p].text == g[t][p].text)
  {
  }

  // ---------------------------------------------------------------------------
  // OnChange, second loop: the oracle fills the other properties

  /** What the oracle call for property i leaves in its field's text. */
  function Outcome(r: Option<int>): Text
  {
    match r
    case Some(v) => Number(v)
    case None => Number(0)
  }

  /** A field after its oracle call: the result on success; on failure it stops
      being driven and holds 0. */
  function ResolvedField(f: Field, r: Option<int>): Field
  {
    (if r.Some? then f else WithDriven(f, false)).(text := Outcome(r))
  }

  /** The row after the second loop, given the first two known entries a and b. */
  function Resolved(row: seq<Field>, a: Pair, b: Pair, o: Oracle): seq<Field>
  {
    seq(|row|, i requires 0 <= i < |row| =>
      if i == a.prop || i == b.prop then row[i]
      else ResolvedField(row[i], o(i, a.prop, a.value, b.prop, b.value)))
  }

  /** State s after OnChange's own work (before any link is followed). */
  function Recomputed(g: Grid, s: nat, o: Oracle): Grid
    requires WellFormed(g) && s < States
  {
    var known := CountKnown(g[s]);
    var g1 := g[s := Redriven(g[s], known)];
    RedrivenKeepsKnowns(g, s, known);
    if known != 2 then g1
    else
      var e := Entries(g1, s, Props);
      assert g1[s][..Props] == g1[s];
      var g2: Grid := ReadUpTo(g1, s, Props);
      g2[s := Resolved(g2[s], e[0], e[1], o)]
  }

  /** The two grids agree on every field Contribution reads for the first m
      properties of state s. */
  predicate SameReadings(g: Grid, h: Grid, s: nat, m: nat)
    requires WellFormed(g) && WellFormed(h) && s < States && m <= Props
  {
    forall i :: 0 <= i < m ==>
      h[s][i].selected == g[s][i].selected && h[s][i].copied == g[s][i].copied &&
      (g[s][i].selected ==> Reading(h[s][i].text) == Reading(g[s][i].text)) &&
      (g[s][i].copied ==> Reading(h[Partner(s, i).value][i].text) == Reading(g[Partner(s, i).value][i].text))
  }

  lemma {:induction false} EntriesAgree(g: Grid, h: Grid, s: nat, n: nat)
    requires WellFormed(g) && WellFormed(h) && s < States && n <= Props
    requires SameReadings(g, h, s, n)
    ensures Entries(h, s, n) == Entries(g, s, n)
  {
    if n > 0 {
      assert SameReadings(g, h, s, n - 1);
      EntriesAgree(g, h, s, n - 1);
    }
  }

  /** OnChange's own work never changes a selection or mirroring flag, and keeps
      the grid well formed. */
  lemma RecomputeKeepsFlags(g: Grid, s: nat, o: Oracle)
    requires WellFormed(g) && s < States
    ensures var h := Recomputed(g, s, o);
      WellFormed(h) && SameSelection(g, h) &&
      forall t, p :: 0 <= t < States && 0 <= p < Props ==> h[t][p].copied == g[t][p].copied
  {
    var known := CountKnown(g[s]);
    var g1 := g[s := Redriven(g[s], known)];
    RedrivenKeepsKnowns(g, s, known);
    if known == 2 {
      var e := Entries(g1, s, Props);
      assert g1[s][..Props] == g1[s];
      var g2: Grid := ReadUpTo(g1, s, Props);
      ReadUpToKeeps(g1, s, Props);
      ResolvedKeepsFlags(g2[s], e[0], e[1], o);
      var h := g2[s := Resolved(g2[s], e[0], e[1], o)];
      assert Recomputed(g, s, o) == h;
    }
  }

  /** The second loop changes no selection or mirroring flag. */
  lemma ResolvedKeepsFlags(row: seq<Field>, a: Pair, b: Pair, o: Oracle)
    ensures var r := Resolved(row, a, b, o);
      |r| == |row| &&
      forall i :: 0 <= i < |row| ==> r[i].selected == row[i].selected && r[i].copied == row[i].copied
  {
    var r := Resolved(row, a, b, o);
    forall i | 0 <= i < |row|
      ensures r[i].selected == row[i].selected && r[i].copied == row[i].copied
    {
      if i != a.prop && i != b.prop {
        assert r[i] == ResolvedField(row[i], o(i, a.prop, a.value, b.prop, b.value));
      }
    }
  }

  /** Fields of other states keep their flags and their values. */
  lemma RecomputeOtherStates(g: Grid, s: nat, o: Oracle)
    requires WellFormed(g) && s < States
    ensures var h := Recomputed(g, s, o);
      Shaped(h) &&
      forall t, p :: 0 <= t < States && t != s && 0 <= p < Props ==>
        h[t][p] == g[t][p].(text := h[t][p].text) && Reading(h[t][p].text) == Reading(g[t][p].text)
  {
    var known := CountKnown(g[s]);
    var g1 := g[s := Redriven(g[s], known)];
    RedrivenKeepsKnowns(g, s, known);
    if known == 2 {
      ReadUpToKeeps(g1, s, Props);
    }
  }

  /** Without exactly two knowns, OnChange only recomputes the driven flags: a
      field is driven exactly when it is a mirror, and a field neither entered nor
      mirrored is cleared. Nothing else in the grid changes. */
  lemma RecomputeNotTwo(g: Grid, s: nat, o: Oracle)
    requires WellFormed(g) && s < States && CountKnown(g[s]) != 2
    ensures var h := Recomputed(g, s, o);
      Shaped(h) &&
      (forall t :: 0 <= t < States && t != s ==> h[t] == g[t]) &&
      forall i :: 0 <= i < Props ==>
        h[s][i].driven == g[s][i].copied &&
        h[s][i].selected == g[s][i].selected && h[s][i].copied == g[s][i].copied &&
        h[s][i].text == (if IsKnown(g[s][i]) then g[s][i].text else Blank)
  {
  }

  /** With exactly two knowns: the properties of the first two entries keep their
      flags and values and are driven by the usual rule; every other property gets
      the oracle's answer for it from those two entries, and stays driven only if
      the oracle answered. Each property's outcome depends only on its own call. */
  lemma RecomputeTwoKnowns(g: Grid, s: nat, o: Oracle)
    requires WellFormed(g) && s < States && CountKnown(g[s]) == 2
    ensures var e := Entries(g, s, Props); var h := Recomputed(g, s, o);
      |e| >= 2 && Shaped(h) &&
      forall i :: 0 <= i < Props ==>
        h[s][i].selected == g[s][i].selected && h[s][i].copied == g[s][i].copied &&
        if i == e[0].prop || i == e[1].prop then
          h[s][i].driven == DrivenRule(g[s][i], 2) && Reading(h[s][i].text) == Reading(g[s][i].text)
        else
          var r := o(i, e[0].prop, e[0].value, e[1].prop, e[1].value);
          h[s][i].text == Outcome(r) && h[s][i].driven == (DrivenRule(g[s][i], 2) && r.Some?)
  {
    RecomputeKeepsFlags(g, s, o);
    var e := Entries(g, s, Props);
    forall i | 0 <= i < Props
      ensures var h := Recomputed(g, s, o);
        h[s][i].selected == g[s][i].selected && h[s][i].copied == g[s][i].copied &&
        if i == e[0].prop || i == e[1].prop then
          h[s][i].driven == DrivenRule(g[s][i], 2) && Reading(h[s][i].text) == Reading(g[s][i].text)
        else
          var r := o(i, e[0].prop, e[0].value, e[1].prop, e[1].value);
          h[s][i].text == Outcome(r) && h[s][i].driven == (DrivenRule(g[s][i], 2) && r.Some?)
    {
      RecomputeTwoKnownsCell(g, s, o, i);
    }
  }

  /** When no field is both entered and mirrored, the first two entries are exactly
      the two known properties, in ascending order, carrying the entered value or
      the partner's value; so the knowns are left as they were and precisely the
      three unknown properties are filled from the oracle. */
  lemma RecomputeExclusive(g: Grid, s: nat, o: Oracle)
    requires WellFormed(g) && s < States && CountKnown(g[s]) == 2 && Exclusive(g[s])
    ensures var e := Entries(g, s, Props); var h := Recomputed(g, s, o);
      |e| == 2 && e[0].prop < e[1].prop && Shaped(h) &&
      (forall k :: 0 <= k < 2 ==>
         e[k].value == (if g[s][e[k].prop].selected then Reading(g[s][e[k].prop].text)
                        else Reading(g[Partner(s, e[k].prop).value][e[k].prop].text))) &&
      forall i :: 0 <= i < Props ==>
        (IsKnown(g[s][i]) <==> i == e[0].prop || i == e[1].prop) &&
        (IsKnown(g[s][i]) ==> h[s][i].driven == g[s][i].copied && Reading(h[s][i].text) == Reading(g[s][i].text)) &&
        (!IsKnown(g[s][i]) ==>
           var r := o(i, e[0].prop, e[0].value, e[1].prop, e[1].value);
           h[s][i].text == Outcome(r) && h[s][i].driven == r.Some?)
  {
    assert g[s][..Props] == g[s];
    ExclusiveEntries(g, s, Props);
    forall i | 0 <= i < Props && IsKnown(g[s][i])
      ensures exists k :: 0 <= k < |Entries(g, s, Props)| && Entries(g, s, Props)[k].prop == i
    {
      EntriesCover(g, s, Props, i);
    }
    RecomputeTwoKnowns(g, s, o);
  }

  /** As written, a field that is both entered and mirrored takes both known
      slots, so another entered field of the same state is overwritten with the
      oracle's answer for a pair naming one property twice. */
  lemma DoublyKnownOverwritesEntry(g: Grid, s: nat, i: nat, j: nat, o: Oracle)
    requires WellFormed(g) && s < States && i < j < Props && CountKnown(g[s]) == 2
    requires g[s][i].selected && g[s][i].copied && g[s][j].selected
    ensures var e := Entries(g, s, Props);
      e[0] == Pair(i, Reading(g[s][i].text)) &&
      e[1] == Pair(i, Reading(g[Partner(s, i).value][i].text)) &&
      Recomputed(g, s, o)[s][j].text == Outcome(o(j, i, e[0].value, i, e[1].value))
  {
    assert g[s][..Props] == g[s];
    NothingKnownBelow(g, s, i, j);
    assert Entries(g, s, i + 1) == Contribution(g, s, i);
    EntriesPrefix(g, s, i + 1, Props);
    RecomputeTwoKnowns(g, s, o);
  }

  /** In a state with two knowns i < j, no property below i is known. */
  lemma NothingKnownBelow(g: Grid, s: nat, i: nat, j: nat)
    requires WellFormed(g) && s < States && i < j < Props && CountKnown(g[s]) == 2
    requires IsKnown(g[s][i]) && IsKnown(g[s][j])
    ensures Entries(g, s, i) == []
  {
    var pre := Entries(g, s, i);
    if pre != [] {
      var k := pre[0].prop;
      assert k < i && IsKnown(g[s][k]);
      CountIsCardinality(g[s]);
      var known := KnownIndices(g[s]);
      assert i in known && j in known && k in known;
      var three := {k, i, j};
      assert |{k, i}| == 2;
      assert three == {k, i} + {j} && j !in {k, i};
      SubsetCardinality(three, known);
      assert false;
    }
  }

  lemma SubsetCardinality(a: set<nat>, b: set<nat>)
    requires a <= b
    ensures |a| <= |b|
  {
    assert b == a + (b - a);
  }

  /** The entries of a longer prefix extend those of a shorter one. */
  lemma {:induction false} EntriesPrefix(g: Grid, s: nat, m: nat, n: nat)
    requires WellFormed(g) && s < States && m <= n <= Props
    ensures Entries(g, s, m) <= Entries(g, s, n)
  {
    if m < n {
      EntriesPrefix(g, s, m, n - 1);
    }
  }

  /** What OnChange does to one field of a state with two knowns: the driven rule,
      the settling read of an entered known, then (unless it is one of the two
      entries) the oracle outcome r. */
  function TwoKnownsCell(f: Field, skip: bool, r: Option<int>): Field
  {
    var f1 := WithDriven(f, DrivenRule(f, 2));
    var f2 := if f.selected then f1.(text := Settled(f1.text)) else f1;
    if skip then f2 else ResolvedField(f2, r)
  }

  /** Field i of the edited state, with two knowns, ends as TwoKnownsCell says. */
  lemma RecomputeTwoKnownsCell(g: Grid, s: nat, o: Oracle, i: nat)
    requires WellFormed(g) && s < States && CountKnown(g[s]) == 2 && i < Props
    ensures var e := Entries(g, s, Props);
      |e| >= 2 &&
      Recomputed(g, s, o)[s][i] ==
        TwoKnownsCell(g[s][i], i == e[0].prop || i == e[1].prop, o(i, e[0].prop, e[0].value, e[1].prop, e[1].value))
  {
    var g1: Grid := g[s := Redriven(g[s], 2)];
    RedrivenKeepsKnowns(g, s, 2);
    assert g[s][..Props] == g[s];
    assert g1[s][..Props] == g1[s];
    assert SameReadings(g, g1, s, Props);
    EntriesAgree(g, g1, s, Props);
    var e := Entries(g, s, Props);
    var g2: Grid := ReadUpTo(g1, s, Props);
    assert Recomputed(g, s, o) == g2[s := Resolved(g2[s], e[0], e[1], o)];
    assert ReadBy(g1, s, s, i) == g[s][i].selected;
  }

  /** Field (t, q) of another state ends settled when the edited state reads it. */
  lemma RecomputeOtherCell(g: Grid, s: nat, o: Oracle, t: nat, q: nat)
    requires WellFormed(g) && s < States && t < States && t != s && q < Props
    ensures Shaped(Recomputed(g, s, o)) &&
      Recomputed(g, s, o)[t][q] ==
        if CountKnown(g[s]) == 2 && ReadBy(g, s, t, q) then g[t][q].(text := Settled(g[t][q].text)) else g[t][q]
  {
    var n := CountKnown(g[s]);
    var g1: Grid := g[s := Redriven(g[s], n)];
    RedrivenKeepsKnowns(g, s, n);
    if n == 2 {
      assert ReadBy(g1, s, t, q) == ReadBy(g, s, t, q);
    }
  }

  /** The per-field work of OnChange with two knowns, applied a second time with
      the same entries and oracle answer, leaves the field as it is. */
  lemma TwoKnownsCellIdempotent(f: Field, skip: bool, r: Option<int>)
    ensures var f' := TwoKnownsCell(f, skip, r); TwoKnownsCell(f', skip, r) == f'
  {
  }

  /** Entries collected past the first m properties come from property m or above. */
  lemma {:induction false} EntriesBeyond(g: Grid, s: nat, m: nat, n: nat)
    requires WellFormed(g) && s < States && m <= n <= Props
    ensures forall k :: |Entries(g, s, m)| <= k < |Entries(g, s, n)| ==> Entries(g, s, n)[k].prop >= m
  {
    if m < n {
      EntriesBeyond(g, s, m, n - 1);
      EntriesPrefix(g, s, m, n - 1);
      assert Entries(g, s, n) == Entries(g, s, n - 1) + Contribution(g, s, n - 1);
    }
  }

  /** With two knowns, a known property no later than the second entry's is the
      property of the first or of the second entry. */
  lemma KnownUpToSecondEntry(g: Grid, s: nat, i: nat)
    requires WellFormed(g) && s < States && CountKnown(g[s]) == 2 && i < Props && IsKnown(g[s][i])
    ensures var e := Entries(g, s, Props);
      |e| >= 2 && (i <= e[1].prop ==> i == e[0].prop || i == e[1].prop)
  {
    assert g[s][..Props] == g[s];
    var e := Entries(g, s, Props);
    EntriesCover(g, s, Props, i);
    EntriesAscending(g, s, Props);
    var k :| 0 <= k < |e| && e[k].prop == i;
    if k >= 2 {
      assert e[1].prop <= e[k].prop;
    }
  }

  /** OnChange's own work leaves the first two entries of the edited state as they
      were: the fields up to the second entry's property that are known are exactly
      the two entries' properties, and those keep their readings. */
  lemma RecomputeKeepsFirstEntries(g: Grid, s: nat, o: Oracle)
    requires WellFormed(g) && s < States && CountKnown(g[s]) == 2
    ensures var e := Entries(g, s, Props); var h := Recomputed(g, s, o);
      WellFormed(h) && |e| >= 2 &&
      var e' := Entries(h, s, Props); |e'| >= 2 && e'[0] == e[0] && e'[1] == e[1]
  {
    var h := Recomputed(g, s, o);
    RecomputeKeepsFlags(g, s, o);
    RecomputeTwoKnowns(g, s, o);
    RecomputeOtherStates(g, s, o);
    assert g[s][..Props] == g[s];
    var e := Entries(g, s, Props);
    var m := e[1].prop + 1;
    forall i | 0 <= i < m && IsKnown(g[s][i])
      ensures i == e[0].prop || i == e[1].prop
    {
      KnownUpToSecondEntry(g, s, i);
    }
    assert SameReadings(g, h, s, m);
    EntriesAgree(g, h, s, m);
    EntriesPrefix(g, s, m, Props);
    EntriesBeyond(g, s, m, Props);
    EntriesPrefix(h, s, m, Props);
    assert |Entries(g, s, m)| >= 2;
  }

  /** Handling a change of a state a second time changes nothing. */
  lemma RecomputeIdempotent(g: Grid, s: nat, o: Oracle)
    requires WellFormed(g) && s < States
    ensures var h := Recomputed(g, s, o); WellFormed(h) && Recomputed(h, s, o) == h
  {
    var h := Recomputed(g, s, o);
    RecomputeKeepsFlags(g, s, o);
    CountDependsOnKnownOnly(g[s], h[s]);
    if CountKnown(g[s]) != 2 {
      RecomputeNotTwo(g, s, o);
      RecomputeNotTwo(h, s, o);
      GridsEqual(Recomputed(h, s, o), h);
    } else {
      RecomputeIdempotentTwo(g, s, o);
    }
  }

  lemma RecomputeIdempotentTwo(g: Grid, s: nat, o: Oracle)
    requires WellFormed(g) && s < States && CountKnown(g[s]) == 2
    ensures var h := Recomputed(g, s, o); WellFormed(h) && Recomputed(h, s, o) == h
  {
    var h := Recomputed(g, s, o);
    RecomputeKeepsFlags(g, s, o);
    CountDependsOnKnownOnly(g[s], h[s]);
    var e := Entries(g, s, Props);
    RecomputeKeepsFirstEntries(g, s, o);
    var r := Recomputed(h, s, o);
    RecomputeKeepsFlags(h, s, o);
    forall t, q | 0 <= t < States && 0 <= q < Props
      ensures r[t][q] == h[t][q]
    {
      if t == s {
        var skip := q == e[0].prop || q == e[1].prop;
        var res := o(q, e[0].prop, e[0].value, e[1].prop, e[1].value);
        RecomputeTwoKnownsCell(g, s, o, q);
        RecomputeTwoKnownsCell(h, s, o, q);
        TwoKnownsCellIdempotent(g[s][q], skip, res);
      } else {
        RecomputeOtherCell(g, s, o, t, q);
        RecomputeOtherCell(h, s, o, t, q);
        assert ReadBy(h, s, t, q) == ReadBy(g, s, t, q);
      }
    }
    GridsEqual(r, h);
  }

  // ---------------------------------------------------------------------------
  // Link: the two steps on the partner field

  /** Link's toggle condition: the partner's mirror flag disagrees with whether this
      field is authoritative, and the partner state is not already fully determined
      by two knowns of its own. */
  predicate ToggleDue(g: Grid, s: nat, p: nat)
    requires WellFormed(g) && s < States && p < Props && Partner(s, p).Some?
  {
    var t := Partner(s, p).value;
    g[t][p].copied != Authoritative(g[s][p]) && (CountKnown(g[t]) < 2 || g[t][p].copied)
  }

  /** The grid after Link's first step on (s, p). */
  function FlagStep(g: Grid, s: nat, p: nat): (h: Grid)
    requires WellFormed(g) && s < States && p < Props && Partner(s, p).Some?
    ensures WellFormed(h) && SameSelection(g, h)
  {
    var t := Partner(s, p).value;
    LinksSymmetric(s, p);
    if ToggleDue(g, s, p) then Update(g, t, p, g[t][p].(copied := !g[t][p].copied)) else g
  }

  /** After the first step, the partner mirrors this field exactly when this field
      is authoritative, unless the partner state already had two knowns and was not
      mirroring, in which case nothing changes. No other field changes. */
  lemma FlagStepAligns(g: Grid, s: nat, p: nat)
    requires WellFormed(g) && s < States && p < Props && Partner(s, p).Some?
    ensures var t := Partner(s, p).value; var h := FlagStep(g, s, p);
      ((CountKnown(g[t]) < 2 || g[t][p].copied) ==> h[t][p].copied == Authoritative(g[s][p])) &&
      (!(CountKnown(g[t]) < 2 || g[t][p].copied) ==> h == g) &&
      h[t][p] == g[t][p].(copied := h[t][p].copied) &&
      forall u, q :: 0 <= u < States && 0 <= q < Props && (u, q) != (t, p) ==> h[u][q] == g[u][q]
  {
  }

  /** The first step never lifts the partner state above two knowns. */
  lemma FlagStepBound(g: Grid, s: nat, p: nat)
    requires WellFormed(g) && s < States && p < Props && Partner(s, p).Some?
    ensures var t := Partner(s, p).value; var h := FlagStep(g, s, p);
      CountKnown(h[t]) <= 2 || CountKnown(h[t]) <= CountKnown(g[t])
  {
    var t := Partner(s, p).value;
    if ToggleDue(g, s, p) {
      CountAfterReplace(g[t], p, g[t][p].(copied := !g[t][p].copied));
    }
  }

  /** Link's second step copies the value when the partner mirrors a different one. */
  predicate MirrorDue(g: Grid, s: nat, p: nat)
    requires WellFormed(g) && s < States && p < Props && Partner(s, p).Some?
  {
    var t := Partner(s, p).value;
    g[t][p].copied && Reading(g[t][p].text) != Reading(g[s][p].text)
  }

  /** The grid after Link's second step on (s, p): when the partner mirrors, both
      fields have been read (and so settled) and the partner holds this field's value. */
  function MirrorStep(g: Grid, s: nat, p: nat): (h: Grid)
    requires WellFormed(g) && s < States && p < Props && Partner(s, p).Some?
    ensures WellFormed(h) && SameSelection(g, h)
    ensures forall u, q :: 0 <= u < States && 0 <= q < Props ==>
      h[u][q].copied == g[u][q].copied && h[u][q].driven == g[u][q].driven
    ensures var t := Partner(s, p).value;
      h[t][p].copied ==> Reading(h[t][p].text) == Reading(h[s][p].text)
  {
    var t := Partner(s, p).value;
    if !g[t][p].copied then g
    else
      var g1 := Update(g, t, p, g[t][p].(text := Number(Reading(g[s][p].text))));
      Update(g1, s, p, g[s][p].(text := Settled(g[s][p].text)))
  }

  /** The second step changes no flag and no value other than the mirroring partner's. */
  lemma MirrorStepKeeps(g: Grid, s: nat, p: nat)
    requires WellFormed(g) && s < States && p < Props && Partner(s, p).Some?
    ensures var t := Partner(s, p).value; var h := MirrorStep(g, s, p);
      (!g[t][p].copied ==> h == g) &&
      forall u, q :: 0 <= u < States && 0 <= q < Props ==>
        h[u][q] == g[u][q].(text := h[u][q].text) &&
        ((u, q) != (t, p) ==> Reading(h[u][q].text) == Reading(g[u][q].text))
  {
  }
}
