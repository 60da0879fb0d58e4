/**
 * The two queries over procedure records: the sorted distinct values of a
 * field (the choices of the classification and plan selects) and the filter
 * that combines the classification, copay and plan facets with a
 * case-insensitive text search.
 */
module FilterUtils {
  import opened JsStrings
  import opened Seqs
  import opened Types

  // ---------------------------------------------------------------------------
  // getUniqueValues
  // ---------------------------------------------------------------------------

  /**
   * `getUniqueValues(data, key)`: collects the string values of `key` into a set,
   * one item at a time, then returns them sorted. The result is strictly
   * increasing, holds exactly the string values `key` takes in `data`, and is
   * empty for the boolean and number fields.
   */
  method GetUniqueValues(data: seq<ProcedureData>, key: ProcedureField) returns (r: seq<string>)
    ensures StrictlyIncreasing(r)
    ensures forall x :: x in r <==> exists i :: 0 <= i < |data| && Get(data[i], key) == Str(x)
    ensures key == Coparticipacao || key == PercentualProcedimento ==> r == []
  {
    var values: set<string> := {};
    var i := 0;
    while i < |data|
      invariant 0 <= i <= |data|
      invariant forall x :: x in values <==> exists k :: 0 <= k < i && Get(data[k], key) == Str(x)
    {
      var v := Get(data[i], key);
      if v.Str? {
        values := values + {v.s};
      }
      i := i + 1;
    }
    r := SortedFromSet(values);
    if key == Coparticipacao || key == PercentualProcedimento {
      assert forall x :: x !in values;
      assert values == {};
    }
  }

  // ---------------------------------------------------------------------------
  // filterData
  // ---------------------------------------------------------------------------

  /**
   * The predicate `filterData` hands to `Array.prototype.filter`, one early
   * return per facet. An item that passes satisfies every active facet; without
   * a query, passing is exactly satisfying the facets.
   */
  predicate Matches(filters: FilterState, item: ProcedureData)
    ensures Matches(filters, item) ==> FacetsHold(filters, item)
    ensures filters.searchQuery == "" ==> (Matches(filters, item) <==> FacetsHold(filters, item))
  {
    if |filters.classificacao| > 0 && item.classificacao !in filters.classificacao then false
    else if filters.coparticipacao.Some? && item.coparticipacao != filters.coparticipacao.value then false
    else if |filters.nomePlano| > 0 && item.nomePlano !in filters.nomePlano then false
    else if filters.searchQuery != "" then
      var query := Lower(filters.searchQuery);
      || Includes(Lower(item.codigoProcedimento), query)
      || Includes(Lower(item.classificacao), query)
      || Includes(Lower(item.regraIsencao), query)
    else true
  }

  /** The classification, copay and plan facets, each stated on its own. */
  predicate FacetsHold(filters: FilterState, item: ProcedureData) {
    && (|filters.classificacao| > 0 ==> item.classificacao in filters.classificacao)
    && (filters.coparticipacao.Some? ==> item.coparticipacao == filters.coparticipacao.value)
    && (|filters.nomePlano| > 0 ==> item.nomePlano in filters.nomePlano)
  }

  /** The search facet: the lowercased query occurs in the lowercased code, classification or exemption rule. */
  ghost predicate SearchHolds(query: string, item: ProcedureData) {
    query != "" ==>
      exists i :: || OccursAt(Lower(item.codigoProcedimento), Lower(query), i)
                  || OccursAt(Lower(item.classificacao), Lower(query), i)
                  || OccursAt(Lower(item.regraIsencao), Lower(query), i)
  }

  lemma MatchesIff(filters: FilterState, item: ProcedureData)
    ensures Matches(filters, item) <==> FacetsHold(filters, item) && SearchHolds(filters.searchQuery, item)
  {
    var q := Lower(filters.searchQuery);
    IncludesAt(Lower(item.codigoProcedimento), q);
    IncludesAt(Lower(item.classificacao), q);
    IncludesAt(Lower(item.regraIsencao), q);
  }

  /**
   * `filterData(data, filters)`: the items, in their original order and with
   * their multiplicity, that pass every active facet and, when the query is not
   * empty, the text search.
   */
  function FilterData(data: seq<ProcedureData>, filters: FilterState): (r: seq<ProcedureData>)
    ensures IsSubsequence(r, data) && |r| <= |data|
    ensures forall x :: x in r <==> x in data && FacetsHold(filters, x) && SearchHolds(filters.searchQuery, x)
    ensures forall x :: multiset(r)[x] == if FacetsHold(filters, x) && SearchHolds(filters.searchQuery, x) then multiset(data)[x] else 0
  {
    forall x ensures Matches(filters, x) <==> FacetsHold(filters, x) && SearchHolds(filters.searchQuery, x) {
      MatchesIff(filters, x);
    }
    Filter(data, item => Matches(filters, item))
  }

  /** With no facet and no query, `filterData` gives back its input. */
  lemma UnconstrainedKeepsAll(data: seq<ProcedureData>)
    ensures FilterData(data, Unconstrained) == data
  {
    FilterAllPass(data, item => Matches(Unconstrained, item));
  }

  /**
   * Typing a search query, with the facets left as they were, never adds items:
   * the result is a subsequence of the result without the query.
   */
  lemma SearchNarrows(data: seq<ProcedureData>, filters: FilterState, query: string)
    requires filters.searchQuery == ""
    ensures IsSubsequence(FilterData(data, filters.(searchQuery := query)), FilterData(data, filters))
  {
    var narrowed := filters.(searchQuery := query);
    FilterNarrows(data, item => Matches(narrowed, item), item => Matches(filters, item));
  }
}
