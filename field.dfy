/** One property slot of a cycle state: the text in its entry box and its three flags. */
module Field {

  datatype Option<+T> = None | Some(value: T)

  /** What a field's entry box holds, as far as the engine can tell texts apart:
      nothing, a text that parses as a number, or a non-empty text that does not parse. */
  datatype Text = Blank | Number(v: int) | Garbage

  /** `selected`: entered by the user; `copied`: mirrored from the linked state;
      `driven`: computed, so its entry and check box are disabled. */
  datatype Field = Field(text: Text, selected: bool, copied: bool, driven: bool)

  /** A freshly built field: empty text, no flag set. */
  const Unset := Field(Blank, false, false, false)

  /** The number GetValue returns for a text: the parsed number, or 0 when it does not parse. */
  function Reading(t: Text): int
  {
    match t
    case Number(v) => v
    case _ => 0
  }

  /** The text GetValue leaves behind: a text that does not parse is reset to "0". */
  function Settled(t: Text): (r: Text)
    ensures r.Number? && Reading(r) == Reading(t)
    ensures t.Number? ==> r == t
  {
    Number(Reading(t))
  }

  /** A property counts as known when it is entered or mirrored. */
  predicate IsKnown(f: Field)
  {
    f.selected || f.copied
  }

  /** The field carries a value of local origin (entered or computed), not a mirror. */
  predicate Authoritative(f: Field)
  {
    (f.driven || f.selected) && !f.copied
  }

  /** The driven flag OnChange gives a field of a state with `known` knowns. */
  predicate DrivenRule(f: Field, known: nat)
  {
    (!f.selected && known == 2) || f.copied
  }

  /** The field after SetDriven(d): a field that stops being driven and is not
      selected loses its text. */
  function WithDriven(f: Field, d: bool): Field
  {
    f.(driven := d, text := if !d && !f.selected then Blank else f.text)
  }
}
