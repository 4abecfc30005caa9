/** The six-by-five grid of fields as a value, and the read-only queries of the
    engine stated over it: the known count of a state, the known (property, value)
    pairs of a state, and solvability of the whole cycle. */
module Grid {

  import opened Field
  import opened Topology

  /** states[s][p]: property p of cycle state s. */
  type Grid = seq<seq<Field>>

  /** The external property solver: (target, propA, valueA, propB, valueB) gives
      the target property's value, or None when the pair has no solution. */
  type Oracle = (nat, nat, int, nat, int) -> Option<int>

  predicate Shaped(g: Grid)
  {
    |g| == States && forall s :: 0 <= s < |g| ==> |g[s]| == Props
  }

  /** Shaped, and a field is only ever a mirror of a property that has a partner. */
  predicate WellFormed(g: Grid)
  {
    Shaped(g) &&
    forall s, p :: 0 <= s < States && 0 <= p < Props && g[s][p].copied ==> Partner(s, p).Some?
  }

  /** Two shaped grids that agree field by field are equal. */
  lemma GridsEqual(a: Grid, b: Grid)
    requires Shaped(a) && Shaped(b)
    requires forall t, p :: 0 <= t < States && 0 <= p < Props ==> a[t][p] == b[t][p]
    ensures a == b
  {
    forall t | 0 <= t < States
      ensures a[t] == b[t]
    {
    }
  }

  /** The grid with field (s, p) replaced by f. */
  function Update(g: Grid, s: nat, p: nat, f: Field): Grid
    requires Shaped(g) && s < States && p < Props
  {
    g[s := g[s][p := f]]
  }

  /** No field's `selected` flag differs between g and h. */
  predicate SameSelection(g: Grid, h: Grid)
  {
    Shaped(g) && Shaped(h) &&
    forall s, p :: 0 <= s < States && 0 <= p < Props ==> h[s][p].selected == g[s][p].selected
  }

  /** The number of known fields of a row (GetSelectedInState). */
  function CountKnown(row: seq<Field>): (n: nat)
    ensures n <= |row|
  {
    if row == [] then 0
    else CountKnown(row[..|row| - 1]) + (if IsKnown(row[|row| - 1]) then 1 else 0)
  }

  /** The indices of the known fields of a row. */
  function KnownIndices(row: seq<Field>): set<nat>
  {
    set i: nat | i < |row| && IsKnown(row[i])
  }

  /** The count is the number of distinct known properties. */
  lemma {:induction false} CountIsCardinality(row: seq<Field>)
    ensures CountKnown(row) == |KnownIndices(row)|
  {
    if row != [] {
      var n := |row| - 1;
      CountIsCardinality(row[..n]);
      var before := KnownIndices(row[..n]);
      if IsKnown(row[n]) {
        assert KnownIndices(row) == before + {n};
        assert n !in before;
      } else {
        assert KnownIndices(row) == before;
      }
    }
  }

  /** The count depends on nothing but which fields are known. */
  lemma {:induction false} CountDependsOnKnownOnly(a: seq<Field>, b: seq<Field>)
    requires |a| == |b|
    requires forall i :: 0 <= i < |a| ==> IsKnown(a[i]) == IsKnown(b[i])
    ensures CountKnown(a) == CountKnown(b)
  {
    if a != [] {
      CountDependsOnKnownOnly(a[..|a| - 1], b[..|b| - 1]);
    }
  }

  /** Replacing one field changes the count by at most that field's own contribution. */
  lemma {:induction false} CountAfterReplace(row: seq<Field>, i: nat, f: Field)
    requires i < |row|
    ensures CountKnown(row[i := f]) + (if IsKnown(row[i]) then 1 else 0)
         == CountKnown(row) + (if IsKnown(f) then 1 else 0)
  {
    var n := |row| - 1;
    if i < n {
      assert row[i := f][..n] == row[..n][i := f];
      CountAfterReplace(row[..n], i, f);
    } else {
      assert row[i := f][..n] == row[..n];
    }
  }

  /** One entry of GetKnownInState: a known property index and its value. */
  datatype Pair = Pair(prop: nat, value: int)

  /** The entries field (s, i) adds: its own value when selected, then the linked
      partner's value when copied. */
  function Contribution(g: Grid, s: nat, i: nat): seq<Pair>
    requires WellFormed(g) && s < States && i < Props
  {
    (if g[s][i].selected then [Pair(i, Reading(g[s][i].text))] else []) +
    (if g[s][i].copied then [Pair(i, Reading(g[Partner(s, i).value][i].text))] else [])
  }

  /** The entries GetKnownInState collects from the first n fields of state s. */
  function Entries(g: Grid, s: nat, n: nat): (e: seq<Pair>)
    requires WellFormed(g) && s < States && n <= Props
    ensures CountKnown(g[s][..n]) <= |e| <= 2 * CountKnown(g[s][..n])
    ensures forall k :: 0 <= k < |e| ==> e[k].prop < n && IsKnown(g[s][e[k].prop])
  {
    if n == 0 then []
    else
      assert g[s][..n][..n - 1] == g[s][..n - 1];
      Entries(g, s, n - 1) + Contribution(g, s, n - 1)
  }

  /** No field of the row is both entered and mirrored. */
  predicate Exclusive(row: seq<Field>)
  {
    forall i :: 0 <= i < |row| ==> !(row[i].selected && row[i].copied)
  }

  /** Entries come in ascending property order. */
  lemma {:induction false} EntriesAscending(g: Grid, s: nat, n: nat)
    requires WellFormed(g) && s < States && n <= Props
    ensures forall j, k :: 0 <= j < k < |Entries(g, s, n)| ==> Entries(g, s, n)[j].prop <= Entries(g, s, n)[k].prop
  {
    if n > 0 {
      EntriesAscending(g, s, n - 1);
      var e := Entries(g, s, n);
      var prev := Entries(g, s, n - 1);
      var c := Contribution(g, s, n - 1);
      assert e == prev + c;
      assert forall k :: 0 <= k < |c| ==> c[k].prop == n - 1;
      forall j, k | 0 <= j < k < |e|
        ensures e[j].prop <= e[k].prop
      {
        if k < |prev| {
          assert e[j] == prev[j] && e[k] == prev[k];
          assert prev[j].prop <= prev[k].prop;
        } else if j < |prev| {
          assert e[j] == prev[j] && e[k] == c[k - |prev|];
          assert prev[j].prop < n - 1;
        } else {
          assert e[j] == c[j - |prev|] && e[k] == c[k - |prev|];
        }
      }
    }
  }

  /** Every known property among the first n has an entry. */
  lemma {:induction false} EntriesCover(g: Grid, s: nat, n: nat, i: nat)
    requires WellFormed(g) && s < States && i < n <= Props && IsKnown(g[s][i])
    ensures exists k :: 0 <= k < |Entries(g, s, n)| && Entries(g, s, n)[k].prop == i
  {
    var e := Entries(g, s, n);
    var prev := Entries(g, s, n - 1);
    assert e == prev + Contribution(g, s, n - 1);
    if i < n - 1 {
      EntriesCover(g, s, n - 1, i);
      var k :| 0 <= k < |prev| && prev[k].prop == i;
      assert e[k] == prev[k];
    } else {
      assert e[|prev|].prop == i;
    }
  }

  /** Without doubly known fields, the entries are exactly the known properties
      in strictly ascending order, each with the value GetValue reads for it:
      the field's own when selected, its partner's when copied. */
  lemma {:induction false} ExclusiveEntries(g: Grid, s: nat, n: nat)
    requires WellFormed(g) && s < States && n <= Props && Exclusive(g[s])
    ensures var e := Entries(g, s, n);
      |e| == CountKnown(g[s][..n]) &&
      (forall j, k :: 0 <= j < k < |e| ==> e[j].prop < e[k].prop) &&
      (forall k :: 0 <= k < |e| ==>
         e[k].value == (if g[s][e[k].prop].selected then Reading(g[s][e[k].prop].text)
                        else Reading(g[Partner(s, e[k].prop).value][e[k].prop].text)))
  {
    if n > 0 {
      ExclusiveEntries(g, s, n - 1);
      assert g[s][..n][..n - 1] == g[s][..n - 1];
    }
  }

  /** A field that is both entered and mirrored fills two entries in a row: its
      own reading first, then its partner's. When it is the state's first known,
      the first two entries name the same property twice. */
  lemma DoublyKnownTwice(g: Grid, s: nat, i: nat)
    requires WellFormed(g) && s < States && i < Props
    requires g[s][i].selected && g[s][i].copied
    ensures var e := Entries(g, s, i + 1);
      |e| >= 2 && e[|e| - 2] == Pair(i, Reading(g[s][i].text)) &&
      e[|e| - 1] == Pair(i, Reading(g[Partner(s, i).value][i].text))
  {
  }

  /** Every state has exactly two knowns (IsSolvable). */
  predicate Solvable(g: Grid)
    requires Shaped(g)
  {
    forall s :: 0 <= s < States ==> CountKnown(g[s]) == 2
  }
}
