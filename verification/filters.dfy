/**
 * The filter bar: what each control shows for the current `FilterState` and
 * the partial update each control emits when it changes.
 */
module Filters {
  import opened JsStrings
  import opened Types

  // ---------------------------------------------------------------------------
  // Single-choice selects over a list-valued facet
  // ---------------------------------------------------------------------------

  /** `list[0] || ''`: the option a classification or plan select shows. */
  function ShownChoice(list: seq<string>): (v: string)
    ensures list == [] ==> v == ""
    ensures list != [] ==> v == list[0]
  {
    if |list| > 0 && list[0] != "" then list[0] else ""
  }

  /** `value ? [value] : []`: the list a select stores for the chosen option. */
  function ChosenList(value: string): (list: seq<string>)
    ensures |list| <= 1
    ensures value == "" <==> list == []
    ensures forall x :: x in list ==> x == value
  {
    if value != "" then [value] else []
  }

  /** Choosing an option and reading the select back gives that option. */
  lemma ChoiceRoundTrip(value: string)
    ensures ShownChoice(ChosenList(value)) == value
  {
  }

  /** A list a select can produce (empty, or one non-empty choice) is rebuilt from what the select shows. */
  lemma ListRoundTrip(list: seq<string>)
    requires |list| <= 1 && "" !in list
    ensures ChosenList(ShownChoice(list)) == list
  {
    if list != [] {
      assert list[0] != "";
      assert list == [list[0]];
    }
  }

  // ---------------------------------------------------------------------------
  // The copay select
  // ---------------------------------------------------------------------------

  /** `coparticipacao === null ? '' : String(coparticipacao)`. */
  function EncodeCopay(c: Option<bool>): (v: string)
    ensures v == "" <==> c.None?
  {
    match c
    case None => ""
    case Some(b) => if b then "true" else "false"
  }

  /** `value === '' ? null : value === 'true'`: any text other than `''` and `'true'` reads as `false`. */
  function DecodeCopay(value: string): (c: Option<bool>)
    ensures c.None? <==> value == ""
    ensures c == Some(true) <==> value == "true"
  {
    if value == "" then None else Some(value == "true")
  }

  /** Every copay constraint survives being shown in the select and read back. */
  lemma CopayRoundTrip(c: Option<bool>)
    ensures DecodeCopay(EncodeCopay(c)) == c
  {
  }

  /** The three options of the select read back to themselves. */
  lemma CopayOptionsRoundTrip(value: string)
    requires value == "" || value == "true" || value == "false"
    ensures EncodeCopay(DecodeCopay(value)) == value
  {
  }

  // ---------------------------------------------------------------------------
  // The updates the controls emit
  // ---------------------------------------------------------------------------

  /** The search box: the typed text, verbatim. */
  function SearchChanged(text: string): (u: FilterUpdate)
    ensures Touched(u) == {SearchQueryKey} && u.searchQuery == Some(text)
  {
    FilterUpdate(None, None, None, Some(text))
  }

  function ClassificationChanged(value: string): (u: FilterUpdate)
    ensures Touched(u) == {ClassificacaoKey} && u.classificacao == Some(ChosenList(value))
  {
    FilterUpdate(Some(ChosenList(value)), None, None, None)
  }

  function CopayChanged(value: string): (u: FilterUpdate)
    ensures Touched(u) == {CoparticipacaoKey} && u.coparticipacao == Some(DecodeCopay(value))
  {
    FilterUpdate(None, Some(DecodeCopay(value)), None, None)
  }

  function PlanChanged(value: string): (u: FilterUpdate)
    ensures Touched(u) == {NomePlanoKey} && u.nomePlano == Some(ChosenList(value))
  {
    FilterUpdate(None, None, Some(ChosenList(value)), None)
  }

  /** "Limpar filtros": every facet at its unconstrained value. */
  function Reset(): (u: FilterUpdate)
    ensures Touched(u) == {ClassificacaoKey, CoparticipacaoKey, NomePlanoKey, SearchQueryKey}
    ensures u.classificacao == Some([]) && u.coparticipacao == Some(None) && u.nomePlano == Some([]) && u.searchQuery == Some("")
  {
    FilterUpdate(Some([]), Some(None), Some([]), Some(""))
  }
}
