/** The propagation engine: the cycle's grid of fields, updated in place by the
    change handler and the cross-state link, plus the enabled state of the
    Calculate and T-s Graph buttons. */
module Engine {

  import opened Field
  import opened Topology
  import opened Grid
  import opened Step

  class Cycle {
    var states: Grid
    var calcEnabled: bool
    var graphEnabled: bool
    /** The property solver the change handler consults (CoolProp, for water). */
    const oracle: Oracle

    ghost predicate Valid()
      reads this
    {
      WellFormed(states)
    }

    /** Six states of five unset fields; both buttons disabled. */
    constructor (oracle: Oracle)
      ensures Valid() && this.oracle == oracle
      ensures forall s, p :: 0 <= s < States && 0 <= p < Props ==> states[s][p] == Unset
      ensures !calcEnabled && !graphEnabled
    {
      this.oracle := oracle;
      states := seq(States, _ => seq(Props, _ => Unset));
      calcEnabled, graphEnabled := false, false;
    }

    // -------------------------------------------------------------------------
    // Value: one field's operations

    /** Stores a text without firing the field's write handler. */
    method SetValue(s: nat, p: nat, t: Text)
      requires Valid() && s < States && p < Props
      modifies this`states
      ensures Valid()
      ensures states == Update(old(states), s, p, old(states)[s][p].(text := t))
    {
      states := Update(states, s, p, states[s][p].(text := t));
    }

    /** Sets the driven flag; a field that stops being driven and is not selected
        loses its text. */
    method SetDriven(s: nat, p: nat, d: bool)
      requires Valid() && s < States && p < Props
      modifies this`states
      ensures Valid()
      ensures states == Update(old(states), s, p, WithDriven(old(states)[s][p], d))
    {
      ghost var g := states;
      states := Update(states, s, p, states[s][p].(driven := d));
      if !d && !states[s][p].selected {
        SetValue(s, p, Blank);
        GridsEqual(states, Update(g, s, p, WithDriven(g[s][p], d)));
      }
    }

    /** The field's number; a text that does not parse reads as 0 and is reset to "0". */
    method GetValue(s: nat, p: nat) returns (v: int)
      requires Valid() && s < States && p < Props
      modifies this`states
      ensures Valid()
      ensures v == Reading(old(states)[s][p].text)
      ensures states == Update(old(states), s, p, old(states)[s][p].(text := Number(v)))
    {
      var t := states[s][p].text;
      if t.Number? {
        v := t.v;
        assert states[s][p := states[s][p]] == states[s];
      } else {
        SetValue(s, p, Number(0));
        v := 0;
      }
    }

    /** The user types text t into field (s, p): the text is stored; unless the field
        is driven, it becomes selected exactly when the text is non-empty, and the
        change handler runs. */
    method Write(s: nat, p: nat, t: Text, fuel: nat) returns (complete: bool)
      requires Valid() && s < States && p < Props
      modifies this
      ensures Valid()
      ensures old(states)[s][p].driven ==>
        complete && states == Update(old(states), s, p, old(states)[s][p].(text := t)) &&
        calcEnabled == old(calcEnabled) && graphEnabled == old(graphEnabled)
      ensures !old(states)[s][p].driven ==>
        SameSelection(Update(old(states), s, p, old(states)[s][p].(selected := t != Blank)), states)
      ensures !old(states)[s][p].driven && fuel > 0 ==>
        calcEnabled == Solvable(states) && graphEnabled == calcEnabled
    {
      states := Update(states, s, p, states[s][p].(text := t));
      if states[s][p].driven {
        return true;
      }
      states := Update(states, s, p, states[s][p].(selected := t != Blank));
      complete := OnChange(s, p, fuel);
    }

    /** The user clicks field (s, p)'s check box: ignored while the field is driven
        (the box is disabled), otherwise the selection flips and the change handler runs. */
    method ToggleSelected(s: nat, p: nat, fuel: nat) returns (complete: bool)
      requires Valid() && s < States && p < Props
      modifies this
      ensures Valid()
      ensures old(states)[s][p].driven ==>
        complete && states == old(states) &&
        calcEnabled == old(calcEnabled) && graphEnabled == old(graphEnabled)
      ensures !old(states)[s][p].driven ==>
        SameSelection(Update(old(states), s, p, old(states)[s][p].(selected := !old(states)[s][p].selected)), states)
      ensures !old(states)[s][p].driven && fuel > 0 ==>
        calcEnabled == Solvable(states) && graphEnabled == calcEnabled
    {
      if states[s][p].driven {
        return true;
      }
      states := Update(states, s, p, states[s][p].(selected := !states[s][p].selected));
      complete := OnChange(s, p, fuel);
    }

    // -------------------------------------------------------------------------
    // Cycle: queries

    /** The number of known fields of state s. */
    method GetSelectedInState(s: nat) returns (n: nat)
      requires Valid() && s < States
      ensures n == CountKnown(states[s]) && n <= Props
    {
      n := 0;
      for i := 0 to Props
        invariant n == CountKnown(states[s][..i])
      {
        assert states[s][..i + 1][..i] == states[s][..i];
        if states[s][i].selected || states[s][i].copied {
          n := n + 1;
        }
      }
      assert states[s][..Props] == states[s];
    }

    /** The entries field (s, i) contributes to GetKnownInState, read through GetValue. */
    method ReadKnown(s: nat, i: nat) returns (entries: seq<Pair>)
      requires Valid() && s < States && i < Props
      modifies this`states
      ensures Valid()
      ensures entries == Contribution(old(states), s, i)
      ensures forall t, p :: 0 <= t < States && 0 <= p < Props ==>
        states[t][p] == if p == i && ReadBy(old(states), s, t, p)
                        then old(states)[t][p].(text := Settled(old(states)[t][p].text))
                        else old(states)[t][p]
    {
      entries := [];
      if states[s][i].selected {
        var v := GetValue(s, i);
        entries := entries + [Pair(i, v)];
      }
      if states[s][i].copied {
        var t := Partner(s, i).value;
        var v := GetValue(t, i);
        entries := entries + [Pair(i, v)];
      }
    }

    /** The known (property, value) entries of state s, in property order; reading
        them settles every text it reads. */
    method GetKnownInState(s: nat) returns (known: seq<Pair>)
      requires Valid() && s < States
      modifies this`states
      ensures Valid()
      ensures known == Entries(old(states), s, Props)
      ensures states == ReadUpTo(old(states), s, Props)
    {
      ghost var g := states;
      known := [];
      for i := 0 to Props
        invariant Valid()
        invariant known == Entries(g, s, i)
        invariant forall t, p :: 0 <= t < States && 0 <= p < Props ==>
          states[t][p] == if p < i && ReadBy(g, s, t, p) then g[t][p].(text := Settled(g[t][p].text)) else g[t][p]
      {
        ghost var before := states;
        assert Contribution(before, s, i) == Contribution(g, s, i);
        var entries := ReadKnown(s, i);
        known := known + entries;
      }
      GridsEqual(states, ReadUpTo(g, s, Props));
    }

    /** Every state has exactly two knowns. */
    method IsSolvable() returns (r: bool)
      requires Valid()
      ensures r == Solvable(states)
    {
      r := true;
      for i := 0 to States
        invariant r == forall t :: 0 <= t < i ==> CountKnown(states[t]) == 2
      {
        var n := GetSelectedInState(i);
        r := r && n == 2;
      }
    }

    // -------------------------------------------------------------------------
    // Cycle: change handling

    /** OnChange's first loop: every field of state s gets the driven flag of the rule. */
    method UpdateDriven(s: nat, known: nat)
      requires Valid() && s < States
      modifies this`states
      ensures Valid()
      ensures states == old(states)[s := Redriven(old(states)[s], known)]
    {
      ghost var g := states;
      for i := 0 to Props
        invariant Valid() && |states[s]| == Props
        invariant forall t :: 0 <= t < States && t != s ==> states[t] == g[t]
        invariant forall q :: 0 <= q < Props ==>
          states[s][q] == if q < i then WithDriven(g[s][q], DrivenRule(g[s][q], known)) else g[s][q]
      {
        SetDriven(s, i, DrivenRule(states[s][i], known));
      }
      GridsEqual(states, g[s := Redriven(g[s], known)]);
    }

    /** OnChange's second loop: every property of state s other than those of the
        entries a and b is set from the oracle; a failed call clears only its field. */
    method Resolve(s: nat, a: Pair, b: Pair)
      requires Valid() && s < States
      modifies this`states
      ensures Valid()
      ensures states == old(states)[s := Resolved(old(states)[s], a, b, oracle)]
    {
      ghost var g := states;
      for i := 0 to Props
        invariant Valid() && |states[s]| == Props
        invariant forall t :: 0 <= t < States && t != s ==> states[t] == g[t]
        invariant forall q :: 0 <= q < Props ==>
          states[s][q] == if q < i then Resolved(g[s], a, b, oracle)[q] else g[s][q]
      {
        if i != a.prop && i != b.prop {
          match oracle(i, a.prop, a.value, b.prop, b.value)
          case Some(v) =>
            SetValue(s, i, Number(v));
          case None =>
            SetDriven(s, i, false);
            SetValue(s, i, Number(0));
        }
      }
      GridsEqual(states, g[s := Resolved(g[s], a, b, oracle)]);
    }

    /** OnChange's own work on state s, before links are followed. */
    method Recompute(s: nat)
      requires Valid() && s < States
      modifies this`states
      ensures Valid()
      ensures states == Recomputed(old(states), s, oracle)
    {
      ghost var g := states;
      var n := GetSelectedInState(s);
      UpdateDriven(s, n);
      RedrivenKeepsKnowns(g, s, n);
      if n == 2 {
        assert states[s][..Props] == states[s];
        var known := GetKnownInState(s);
        Resolve(s, known[0], known[1]);
      }
    }

    /** The change handler for field (s, p): recompute state s, follow the links of
        all five of its properties, then enable both buttons exactly when the cycle is
        solvable. Returns false when some nested change ran out of fuel. */
    method OnChange(s: nat, p: nat, fuel: nat) returns (complete: bool)
      requires Valid() && s < States && p < Props
      modifies this
      decreases fuel, 0
      ensures Valid() && SameSelection(old(states), states)
      ensures fuel == 0 ==>
        !complete && states == old(states) &&
        calcEnabled == old(calcEnabled) && graphEnabled == old(graphEnabled)
      ensures fuel > 0 ==> calcEnabled == Solvable(states) && graphEnabled == calcEnabled
    {
      if fuel == 0 {
        return false;
      }
      RecomputeKeepsFlags(states, s, oracle);
      Recompute(s);
      complete := true;
      for i := 0 to Props
        invariant Valid() && SameSelection(old(states), states)
      {
        var c := Link(s, i, fuel - 1);
        complete := complete && c;
      }
      var solvable := IsSolvable();
      calcEnabled, graphEnabled := solvable, solvable;
    }

    /** Link's first step: toggle the partner's mirror flag when due. */
    method LinkFlag(s: nat, p: nat) returns (toggled: bool)
      requires Valid() && s < States && p < Props && Partner(s, p).Some?
      modifies this`states
      ensures Valid()
      ensures toggled == ToggleDue(old(states), s, p)
      ensures states == FlagStep(old(states), s, p)
    {
      var t := Partner(s, p).value;
      var n := GetSelectedInState(t);
      var me, other := states[s][p], states[t][p];
      toggled := other.copied != ((me.driven || me.selected) && !me.copied) && (n < 2 || other.copied);
      if toggled {
        LinksSymmetric(s, p);
        states := Update(states, t, p, other.(copied := !other.copied));
      }
    }

    /** Link's second step: a mirroring partner that reads differently takes this
        field's value. */
    method LinkValue(s: nat, p: nat) returns (changed: bool)
      requires Valid() && s < States && p < Props && Partner(s, p).Some?
      modifies this`states
      ensures Valid()
      ensures changed == MirrorDue(old(states), s, p)
      ensures states == MirrorStep(old(states), s, p)
    {
      ghost var g := states;
      var t := Partner(s, p).value;
      changed := false;
      if states[t][p].copied {
        var theirs := GetValue(t, p);
        var mine := GetValue(s, p);
        if theirs != mine {
          var v := GetValue(s, p);
          SetValue(t, p, Number(v));
          changed := true;
        }
        GridsEqual(states, MirrorStep(g, s, p));
      }
    }

    /** Propagates field (s, p) to its linked partner, if it has one: the flag step,
        then the value step, each followed by the partner's change handler when it
        changed something. */
    method Link(s: nat, p: nat, fuel: nat) returns (complete: bool)
      requires Valid() && s < States && p < Props
      modifies this
      decreases fuel, 1
      ensures Valid() && SameSelection(old(states), states)
      ensures Partner(s, p).None? ==>
        complete && states == old(states) &&
        calcEnabled == old(calcEnabled) && graphEnabled == old(graphEnabled)
    {
      if Partner(s, p).None? {
        return true;
      }
      var t := Partner(s, p).value;
      complete := true;
      var toggled := LinkFlag(s, p);
      if toggled {
        complete := OnChange(t, p, fuel);
      }
      var changed := LinkValue(s, p);
      if changed {
        var c := OnChange(t, p, fuel);
        complete := complete && c;
      }
    }
  }
}
