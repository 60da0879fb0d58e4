/**
 * The application state of the copay page: the procedure records, the
 * loading and error flags, and the filter state; the merge of a control's
 * partial update into the filters; the values derived from the state; and the
 * flag transitions of one load.
 */
module App {
  import opened JsStrings
  import opened Seqs
  import opened Types
  import FilterUtils
  import Filters
  import Table

  // ---------------------------------------------------------------------------
  // handleFilterChange: `{ ...prevFilters, ...newFilters }`
  // ---------------------------------------------------------------------------

  /** The spread merge: every field the update carries overwrites the previous value. */
  function Merge(prev: FilterState, update: FilterUpdate): (next: FilterState)
    ensures update.classificacao.Some? ==> next.classificacao == update.classificacao.value
    ensures update.classificacao.None? ==> next.classificacao == prev.classificacao
    ensures update.coparticipacao.Some? ==> next.coparticipacao == update.coparticipacao.value
    ensures update.coparticipacao.None? ==> next.coparticipacao == prev.coparticipacao
    ensures update.nomePlano.Some? ==> next.nomePlano == update.nomePlano.value
    ensures update.nomePlano.None? ==> next.nomePlano == prev.nomePlano
    ensures update.searchQuery.Some? ==> next.searchQuery == update.searchQuery.value
    ensures update.searchQuery.None? ==> next.searchQuery == prev.searchQuery
  {
    FilterState(
      if update.classificacao.Some? then update.classificacao.value else prev.classificacao,
      if update.coparticipacao.Some? then update.coparticipacao.value else prev.coparticipacao,
      if update.nomePlano.Some? then update.nomePlano.value else prev.nomePlano,
      if update.searchQuery.Some? then update.searchQuery.value else prev.searchQuery)
  }

  /** The value of one field of a filter state, for stating which fields an update leaves alone. */
  datatype FieldState = ListField(list: seq<string>) | CopayField(copay: Option<bool>) | TextField(text: string)

  function FieldOf(f: FilterState, key: FilterKey): FieldState {
    match key
    case ClassificacaoKey => ListField(f.classificacao)
    case CoparticipacaoKey => CopayField(f.coparticipacao)
    case NomePlanoKey => ListField(f.nomePlano)
    case SearchQueryKey => TextField(f.searchQuery)
  }

  /** A merge changes nothing outside the fields the update carries. */
  lemma MergeKeepsUntouched(prev: FilterState, update: FilterUpdate)
    ensures forall key :: key !in Touched(update) ==> FieldOf(Merge(prev, update), key) == FieldOf(prev, key)
  {
  }

  /** An empty update changes nothing, and applying the same update twice is applying it once. */
  lemma MergeLaws(prev: FilterState, update: FilterUpdate)
    ensures Merge(prev, NoChange) == prev
    ensures Merge(Merge(prev, update), update) == Merge(prev, update)
  {
  }

  /** Each control of the filter bar changes its own facet and nothing else. */
  lemma ControlsChangeOneFacet(prev: FilterState, value: string)
    ensures Merge(prev, Filters.SearchChanged(value)) == prev.(searchQuery := value)
    ensures Merge(prev, Filters.ClassificationChanged(value)) == prev.(classificacao := Filters.ChosenList(value))
    ensures Merge(prev, Filters.CopayChanged(value)) == prev.(coparticipacao := Filters.DecodeCopay(value))
    ensures Merge(prev, Filters.PlanChanged(value)) == prev.(nomePlano := Filters.ChosenList(value))
  {
  }

  /** After "Limpar filtros" the state is unconstrained and every record is listed again. */
  lemma ResetShowsAll(prev: FilterState, data: seq<ProcedureData>)
    ensures Merge(prev, Filters.Reset()) == Unconstrained
    ensures FilterUtils.FilterData(data, Merge(prev, Filters.Reset())) == data
  {
    FilterUtils.UnconstrainedKeepsAll(data);
  }

  /** After choosing a classification, its select shows that choice. */
  lemma ChoiceIsShown(prev: FilterState, value: string)
    ensures Filters.ShownChoice(Merge(prev, Filters.ClassificationChanged(value)).classificacao) == value
    ensures Filters.ShownChoice(Merge(prev, Filters.PlanChanged(value)).nomePlano) == value
  {
    Filters.ChoiceRoundTrip(value);
  }

  // ---------------------------------------------------------------------------
  // Loading
  // ---------------------------------------------------------------------------

  /** The outcome of the one fetch of the procedure records. */
  datatype FetchResult = Fetched(records: seq<ProcedureData>) | FetchFailed

  const LoadErrorMessage := "Falha ao carregar os dados. Por favor, tente novamente."

  // ---------------------------------------------------------------------------
  // The application state
  // ---------------------------------------------------------------------------

  class AppState {
    var data: seq<ProcedureData>
    var loading: bool
    var error: Option<string>
    var filters: FilterState

    /** No records, loading, no error, and no filter. */
    constructor()
      ensures data == [] && loading && error == None && filters == Unconstrained
    {
      data := [];
      loading := true;
      error := None;
      filters := Unconstrained;
    }

    /** `handleFilterChange(newFilters)`: merges the update into the filters; nothing else changes. */
    method HandleFilterChange(update: FilterUpdate)
      modifies this
      ensures filters == Merge(old(filters), update)
      ensures data == old(data) && loading == old(loading) && error == old(error)
    {
      filters := Merge(filters, update);
    }

    /**
     * `loadData`: raises the loading flag, then on success replaces the
     * records and clears the error, on failure keeps the records and sets the
     * fixed message, and in both cases lowers the loading flag.
     */
    method LoadData(result: FetchResult)
      modifies this
      ensures result.Fetched? ==> data == result.records && error == None
      ensures result.FetchFailed? ==> data == old(data) && error == Some(LoadErrorMessage)
      ensures !loading && filters == old(filters)
    {
      loading := true;
      match result {
        case Fetched(records) =>
          data := records;
          error := None;
        case FetchFailed =>
          error := Some(LoadErrorMessage);
      }
      loading := false;
    }

    /** `classifications`: the distinct classifications, sorted, or none while there are no records. */
    method Classifications() returns (r: seq<string>)
      ensures data == [] ==> r == []
      ensures StrictlyIncreasing(r)
      ensures forall x :: x in r <==> exists i :: 0 <= i < |data| && data[i].classificacao == x
    {
      if |data| > 0 {
        r := FilterUtils.GetUniqueValues(data, Classificacao);
      } else {
        r := [];
      }
    }

    /** `plans`: the distinct plan names, sorted, or none while there are no records. */
    method Plans() returns (r: seq<string>)
      ensures data == [] ==> r == []
      ensures StrictlyIncreasing(r)
      ensures forall x :: x in r <==> exists i :: 0 <= i < |data| && data[i].nomePlano == x
    {
      if |data| > 0 {
        r := FilterUtils.GetUniqueValues(data, NomePlano);
      } else {
        r := [];
      }
    }

    /**
     * `filteredData`: exactly the loaded records that pass the facets and the
     * search, in their order and with their multiplicity; all of them until a
     * filter is set.
     */
    function FilteredData(): (r: seq<ProcedureData>)
      reads this
      ensures IsSubsequence(r, data) && |r| <= |data|
      ensures filters == Unconstrained ==> r == data
      ensures forall x :: x in r <==> x in data && FilterUtils.FacetsHold(filters, x) && FilterUtils.SearchHolds(filters.searchQuery, x)
      ensures forall x :: multiset(r)[x] ==
                if FilterUtils.FacetsHold(filters, x) && FilterUtils.SearchHolds(filters.searchQuery, x) then multiset(data)[x] else 0
    {
      if filters == Unconstrained then FilterUtils.UnconstrainedKeepsAll(data); FilterUtils.FilterData(data, filters)
      else FilterUtils.FilterData(data, filters)
    }
  }

  /**
   * The page renders its table without a `selectedPlan`, so once loading is
   * over the table shows its select-a-plan prompt, whatever the records and
   * filters.
   */
  lemma TableAlwaysPrompts(rowCount: nat)
    ensures Table.Render(false, None, None, rowCount) == Table.PlanPrompt(Table.DefaultPrompt)
  {
  }
}
