# Rankine-cycle property calculator: the propagation engine

This project models, in Dafny, the constraint-propagation engine of a small
desktop calculator for a six-state thermodynamic cycle (a reheat Rankine
cycle). Each of the six states has five property fields: entropy S, enthalpy
H, temperature T, pressure P and vapour quality Q. A field holds a text and
three flags:

- `selected`: the user entered the value;
- `copied`: the value mirrors the same property of a linked state;
- `driven`: the value is computed, and the field's editor is disabled.

A property is *known* when it is selected or copied. When a state has exactly
two knowns, the engine asks an external equation-of-state solver (CoolProp's
`PropsSI`) for every property not named by the state's first two (property,
value) entries. That is three properties, or four when a field that is both
selected and copied is the first known property of its state (see below). A fixed, symmetric link
table ties the entropy and the pressure of pairs of states. Editing a field
runs `OnChange` on its state, which recomputes the state and calls `Link` on
each of its properties. `Link` may turn the partner field into a mirror, copy
the value across, and run `OnChange` on the partner state, and so on around
the cycle. The Calculate and T-s Graph buttons are enabled exactly when every
state has two knowns.

Layout:

- `field.dfy` (module `Field`): the field record, its text (blank, a number,
  or unparsable text) and the flag rules.
- `topology.dfy` (module `Topology`): the link table and its symmetry.
- `grid.dfy` (module `Grid`): the 6×5 grid as a value. It holds the known
  count of a state, the (property, value) entries of a state and
  solvability, with their lemmas.
- `step.dfy` (module `Step`): the single steps of propagation as functions.
  These are the local recomputation of one state (`Recomputed`) and the two
  halves of `Link` (`FlagStep`, `MirrorStep`), with the lemmas that state
  what each step does.
- `cycle.dfy` (module `Engine`): class `Cycle`. It holds the grid
  (`states`), the two button flags and the solver. Its methods update the
  grid in place. The non-recursive methods are proved against the functions
  above: each `ensures` gives the new grid as a function of the old one.
  `OnChange` and `Link` are mutually recursive, and `Write` and
  `ToggleSelected` call `OnChange`. The contracts of these four are weaker: they state well-formedness, the
  unchanged selection, the button state and the cases that stop early, but
  not the final grid (see "Left out").

The solver is a total function `(target, propA, valueA, propB, valueB) ->
Option<int>`, given to the constructor. `None` stands for the `ValueError`
that `PropsSI` raises. Numbers are integers.

Behaviour of the code as written that the model keeps: a field can be both
selected and copied. This happens when the user entered a value and the
linked state then mirrored onto it. Such a field gives two entries, its own
reading and then its partner's (`Grid.DoublyKnownTwice`). When that field is
the first known property of its state, the first two entries name the same
property twice. Another entered field of that state is then
overwritten by the solver's answer to that degenerate pair
(`Step.DoublyKnownOverwritesEntry`). Only `Grid.ExclusiveEntries` and
`Step.RecomputeExclusive`, which describe the entries as the two known
properties, assume that no field is both (`Grid.Exclusive`); idempotence holds for every well-formed grid.

Two details of the code that the model keeps:

- Storing a value does not fire the change handler. `SetValue` detaches
  the write trace while it sets.
- An unparsable text is kept as typed, and so it makes the field selected.
  It reads as 0 and is reset to "0" only when `GetValue` reads it.

## Model

| member | source | states |
|---|---|---|
| `Field.Settled` | Calculator.py:53-58 | the text GetValue leaves behind is a number with the same reading; a number is left as it is |
| `Topology.Partner` | Calculator.py:84 | a linked partner is a valid state different from the state itself |
| `Topology.LinksSymmetric` | Calculator.py:84 | the link table is symmetric: the partner of the partner is the state itself |
| `Topology.OnlyEntropyAndPressureLinked` | Calculator.py:84 | a property is linked iff it is entropy (0) or pressure (3); enthalpy, temperature and quality never are |
| `Grid.CountKnown` | Calculator.py:180-185 | the known count of a row is at most the row's length (five per state) |
| `Grid.CountIsCardinality` | Calculator.py:180-185 | the known count equals the number of property indices whose field is selected or copied |
| `Grid.CountAfterReplace` | Calculator.py:180-185 | changing one field changes the count by exactly the difference of that field's own known-ness |
| `Grid.Entries` | Calculator.py:188-199 | every entry names a known property below the bound; there are at least as many entries as knowns and at most twice as many |
| `Grid.EntriesAscending` | Calculator.py:188-199 | entries are listed in ascending property order |
| `Grid.EntriesCover` | Calculator.py:188-199 | every known property among the first n has an entry |
| `Grid.ExclusiveEntries` | Calculator.py:188-199 | with no field both selected and copied: one entry per known, strictly ascending; the value is the field's own reading if selected, the linked partner's if copied |
| `Grid.DoublyKnownTwice` | Calculator.py:192-197 | a field both selected and copied contributes two consecutive entries for its property: its own reading, then its linked partner's reading |
| `Step.RedrivenKeepsKnowns` | Calculator.py:123-125 | the driven loop changes no selected or copied flag, keeps every copied field linked and keeps the state's known count |
| `Step.ReadUpToKeeps` | Calculator.py:188-199 | reading a state's knowns changes no flag and no field's reading; a text that already is a number is kept, so only blank or unparsable texts are rewritten (as "0") |
| `Step.RecomputeKeepsFlags` | Calculator.py:117-138 | OnChange's own work changes no selected or copied flag anywhere and keeps copied fields linked |
| `Step.RecomputeOtherStates` | Calculator.py:117-138 | fields of the other states keep their flags and their readings |
| `Step.RecomputeNotTwo` | Calculator.py:120-128 | without exactly two knowns: each field is driven iff copied; a field neither selected nor copied is cleared; the others keep their text; other states are untouched |
| `Step.RecomputeTwoKnowns` | Calculator.py:128-138 | with two knowns: the properties of the first two entries keep flags and readings and follow the driven rule; every other property gets the solver's outcome for (itself, first entry, second entry) and stays driven only if the solver answered; a failure affects only its own field |
| `Step.RecomputeExclusive` | Calculator.py:128-138 | with two knowns and no doubly-known field: the first two entries are exactly the two known properties in ascending order with their own or partner values; knowns keep their readings and are driven iff copied; each of the other three gets the solver's result, or 0 and not driven on failure |
| `Step.DoublyKnownOverwritesEntry` | Calculator.py:129-138 | as written, a selected-and-copied field i fills both entries, so a selected field j > i is overwritten with the solver's outcome for (j, i with i's own reading, i with the partner's reading) |
| `Step.RecomputeTwoKnownsCell` | Calculator.py:123-138 | one field of a two-known state ends as: driven rule, then the settling read if selected, then (unless it is one of the first two entries) the solver outcome |
| `Step.RecomputeOtherCell` | Calculator.py:194-197 | a field of another state changes only when it is the partner of a copied known of a two-known edited state, and then only by having its text settled |
| `Step.EntriesBeyond` | Calculator.py:188-199 | entries collected after those of the first m properties all name property m or a later one |
| `Step.KnownUpToSecondEntry` | Calculator.py:188-199 | with two knowns, a known property no later than the second entry's property is the first or the second entry's property |
| `Step.RecomputeKeepsFirstEntries` | Calculator.py:117-138 | with two knowns, the first two entries read back after OnChange's own work are the same (property, value) pairs as before |
| `Step.TwoKnownsCellIdempotent` | Calculator.py:123-138 | for any field, entry choice and solver answer, applying the per-field recomputation twice gives the same field as applying it once |
| `Step.RecomputeIdempotent` | Calculator.py:117-138 | for every well-formed grid, recomputing the same state a second time changes nothing, including when a field is both selected and copied |
| `Step.FlagStep` | Calculator.py:164-171 | the toggle step keeps the grid well formed: a field only becomes copied if its property is linked; no selection changes |
| `Step.FlagStepAligns` | Calculator.py:166-170 | if the partner state has fewer than two knowns or the partner is already copied, afterwards the partner is copied iff this field is authoritative ((driven or selected) and not copied); otherwise nothing changes; only the partner's copied flag can change |
| `Step.FlagStepBound` | Calculator.py:166-170 | the toggle step never raises the partner state above two knowns unless it already had more |
| `Step.MirrorStep` | Calculator.py:174-175 | after the value step, a copied partner reads the same value as this field; no selected, copied or driven flag changes |
| `Step.MirrorStepKeeps` | Calculator.py:174-175 | the value step does nothing when the partner is not copied, and otherwise changes no flag and no reading except the partner's |
| `Engine.Cycle.constructor` | Calculator.py:66-99 | six states of five fields with empty text and no flag set; both buttons disabled |
| `Engine.Cycle.SetValue` | Calculator.py:60-63 | only field (s, p)'s text changes, with no change handling |
| `Engine.Cycle.SetDriven` | Calculator.py:42-51 | the field's driven flag is set; when it is cleared on a field that is not selected, its text is cleared |
| `Engine.Cycle.GetValue` | Calculator.py:53-58 | returns the parsed number or 0, and leaves the field's text as that number ("0" for an unparsable text) |
| `Engine.Cycle.Write` | Calculator.py:33-37 | a typed text is stored; on a driven field nothing else happens; otherwise selected becomes "text non-empty" and the change handler runs, so the buttons end enabled iff the cycle is solvable |
| `Engine.Cycle.ToggleSelected` | Calculator.py:26 | a click on a driven (disabled) check box changes nothing; otherwise the selection flips and the change handler runs |
| `Engine.Cycle.GetSelectedInState` | Calculator.py:180-185 | returns the known count of the state, at most 5 |
| `Engine.Cycle.ReadKnown` | Calculator.py:191-197 | returns the entries one field contributes and settles exactly the fields it reads |
| `Engine.Cycle.GetKnownInState` | Calculator.py:188-199 | returns the state's entries in property order and settles exactly the fields it reads |
| `Engine.Cycle.IsSolvable` | Calculator.py:201-206 | true iff every one of the six states has exactly two knowns |
| `Engine.Cycle.UpdateDriven` | Calculator.py:123-125 | every field of the state gets driven = (not selected and count = 2) or copied, with SetDriven's clearing |
| `Engine.Cycle.Resolve` | Calculator.py:130-138 | the state's row becomes Resolved: the two entry properties untouched, each other property set from its own solver call |
| `Engine.Cycle.Recompute` | Calculator.py:120-138 | the grid becomes Recomputed(old grid, state, solver) |
| `Engine.Cycle.OnChange` | Calculator.py:117-152 | the grid stays well formed and no selection changes; with fuel left, both buttons end enabled iff the cycle is solvable; without fuel nothing changes and incompleteness is reported |
| `Engine.Cycle.LinkFlag` | Calculator.py:164-170 | toggles the partner's copied flag exactly when ToggleDue holds; the grid becomes FlagStep(old grid) |
| `Engine.Cycle.LinkValue` | Calculator.py:174-175 | reports a change exactly when the partner is copied and reads differently; the grid becomes MirrorStep(old grid) |
| `Engine.Cycle.Link` | Calculator.py:160-176 | an unlinked property changes nothing; otherwise the grid stays well formed and no selection changes |

## Left out

- Widgets: the Tk frames, labels, check boxes, entries and layout are left
  out (Calculator.py:9-31). So is the enabling and disabling of entries and
  check boxes (Calculator.py:44-49); the `driven` flag stands for it.
  Clearing the solution text box (Calculator.py:154-156) is UI and is left
  out. The two buttons are kept as two booleans.
- `CalculateSolution` (Calculator.py:209-246): floating-point energy balance
  and formatted text output.
- `ShowTsGraph` and the figure set-up (Calculator.py:102-115, 248-293):
  plotting and saturation-curve lookups.
- The CoolProp solver itself: it is a parameter. The fluid name `'water'`
  and the property letters of Calculator.py:87 are implicit. The solver
  receives property indices.
- Floating point: values are integers compared by equality. Text parsing
  is abstracted to three kinds of text, so two spellings of one number are
  not told apart.
- `Value.SetSelected` (Calculator.py:39-40): never called.
- Main.py: only creates the window and runs the event loop. Main.py is not
  part of this model.
- Unbounded recursion between `OnChange` and `Link`: each call carries a
  fuel bound. `OnChange` with no fuel left drops the event and returns
  `false`. The interpreter's own recursion limit is not modelled.
- Engine.Cycle.OnChange: states no closed form of the grid after the
  recursive links, only well-formedness, unchanged selections and the button
  rule. Its own recomputation is specified exactly by `Recompute`.
- Engine.Cycle.Link: states no closed form of the grid after the partner's
  change handling. Its two steps are specified exactly by `LinkFlag` and
  `LinkValue`.
- Engine.Cycle.Write: does not state the grid after the change handler, only
  the selection it sets and the button rule.
- Engine.Cycle.ToggleSelected: like `Write`, states only the selection and
  the button rule after the change handler.
