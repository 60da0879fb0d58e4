/**
 * The partner table component: its sort configuration and click handler, the
 * comparator that puts preferential-network partners first, and which of its
 * screens it renders.
 */
module PartnerTable {
  import opened JsStrings
  import opened Seqs
  import opened Types
  import opened GetPartners

  /** `{ key, direction }`. */
  datatype SortConfig = SortConfig(key: PartnerField, direction: Direction)

  /** The configuration the component starts with: partner name, ascending. */
  const InitialConfig := SortConfig(NomeParceiro, Asc)

  /** The network tier that is listed first; the test is exact and case-sensitive. */
  const PreferentialTier := "Preferencial"

  predicate Preferential(p: PartnerData) {
    p.tipoRede == PreferentialTier
  }

  // ---------------------------------------------------------------------------
  // handleSort
  // ---------------------------------------------------------------------------

  /**
   * The configuration after a click on the header of `key`: descending when
   * `key` was the ascending sort key, ascending on `key` in every other case.
   */
  function Clicked(config: Option<SortConfig>, key: PartnerField): (c: SortConfig)
    ensures c.key == key
    ensures c.direction == Desc <==> config == Some(SortConfig(key, Asc))
  {
    var direction := if config.Some? && config.value.key == key && config.value.direction == Asc then Desc else Asc;
    SortConfig(key, direction)
  }

  /** Clicking the current key flips its direction; two clicks on it restore the configuration. */
  lemma ClickSameKey(c: SortConfig)
    ensures Clicked(Some(c), c.key) == c.(direction := Flip(c.direction))
    ensures Clicked(Some(Clicked(Some(c), c.key)), c.key) == c
  {
  }

  // ---------------------------------------------------------------------------
  // The comparator
  // ---------------------------------------------------------------------------

  /**
   * The comparator of `sortedData`: the tier first, then `<` and `>` on the
   * key's text, flipped when descending. Zero exactly for two partners of the
   * same tier with the same key text.
   */
  function Compare(config: SortConfig, a: PartnerData, b: PartnerData): (r: int)
    ensures Preferential(a) != Preferential(b) ==> (r < 0 <==> Preferential(a))
    ensures r == 0 <==> Preferential(a) == Preferential(b) && Field(a, config.key) == Field(b, config.key)
    ensures Preferential(a) == Preferential(b) ==>
              (r < 0 <==> if config.direction == Asc then LexLess(Field(a, config.key), Field(b, config.key))
                          else LexLess(Field(b, config.key), Field(a, config.key)))
  {
    var x, y := Field(a, config.key), Field(b, config.key);
    LexLessIrreflexive(x);
    LexLessAsymmetric(x, y);
    LexLessTotal(x, y);
    if Preferential(a) && !Preferential(b) then -1
    else if !Preferential(a) && Preferential(b) then 1
    else if LexLess(x, y) then (if config.direction == Asc then -1 else 1)
    else if LexLess(y, x) then (if config.direction == Asc then 1 else -1)
    else 0
  }

  function RowLe(config: SortConfig): (PartnerData, PartnerData) -> bool {
    (a, b) => Compare(config, a, b) <= 0
  }

  /** Within a tier, the key's text in the chosen direction. */
  predicate KeyInOrder(config: SortConfig, a: PartnerData, b: PartnerData) {
    if config.direction == Asc then LexLe(Field(a, config.key), Field(b, config.key))
    else LexLe(Field(b, config.key), Field(a, config.key))
  }

  /** `a` may go before `b` exactly when it is in a better tier, or in the same tier and in key order. */
  lemma RowLeIff(config: SortConfig, a: PartnerData, b: PartnerData)
    ensures RowLe(config)(a, b) <==>
      (Preferential(a) && !Preferential(b)) || (Preferential(a) == Preferential(b) && KeyInOrder(config, a, b))
  {
    var x, y := Field(a, config.key), Field(b, config.key);
    LexLessIrreflexive(x);
    LexLessAsymmetric(x, y);
    LexLessTotal(x, y);
  }

  /** The comparator is consistent, as `Array.prototype.sort` needs. */
  lemma RowLeTotalPreorder(config: SortConfig)
    ensures TotalPreorder(RowLe(config))
  {
    var le := RowLe(config);
    forall a, b ensures le(a, b) || le(b, a) {
      RowLeIff(config, a, b);
      RowLeIff(config, b, a);
      LexLessTotal(Field(a, config.key), Field(b, config.key));
    }
    forall a, b, c | le(a, b) && le(b, c) ensures le(a, c) {
      RowLeIff(config, a, b);
      RowLeIff(config, b, c);
      RowLeIff(config, a, c);
      var x, y, z := Field(a, config.key), Field(b, config.key), Field(c, config.key);
      if Preferential(a) == Preferential(b) && Preferential(b) == Preferential(c) {
        if config.direction == Asc {
          if x != y && y != z { LexLessTransitive(x, y, z); }
        } else {
          if z != y && y != x { LexLessTransitive(z, y, x); }
        }
      }
    }
  }

  /** In a sorted listing every preferential partner comes before every other partner. */
  lemma PreferentialFirst(r: seq<PartnerData>, config: SortConfig)
    requires SortedBy(r, RowLe(config))
    ensures forall i, j :: 0 <= i < j < |r| && Preferential(r[j]) ==> Preferential(r[i])
  {
    forall i, j | 0 <= i < j < |r| && Preferential(r[j]) ensures Preferential(r[i]) {
      RowLeIff(config, r[i], r[j]);
    }
  }

  /** In a sorted listing, partners of the same tier are in key order, ascending or descending. */
  lemma WithinTierOrder(r: seq<PartnerData>, config: SortConfig)
    requires SortedBy(r, RowLe(config))
    ensures forall i, j :: 0 <= i < j < |r| && Preferential(r[i]) == Preferential(r[j]) ==> KeyInOrder(config, r[i], r[j])
  {
    forall i, j | 0 <= i < j < |r| && Preferential(r[i]) == Preferential(r[j]) ensures KeyInOrder(config, r[i], r[j]) {
      RowLeIff(config, r[i], r[j]);
    }
  }

  // ---------------------------------------------------------------------------
  // The component's sort state
  // ---------------------------------------------------------------------------

  class PartnerTableView {
    var sortConfig: Option<SortConfig>

    /** Starts sorted by partner name, ascending. */
    constructor()
      ensures sortConfig == Some(InitialConfig)
    {
      sortConfig := Some(InitialConfig);
    }

    /** `handleSort(key)`: the configuration is always set, never cleared. */
    method HandleSort(key: PartnerField)
      modifies this
      ensures sortConfig == Some(Clicked(old(sortConfig), key))
    {
      var direction := Asc;
      if sortConfig.Some? && sortConfig.value.key == key && sortConfig.value.direction == Asc {
        direction := Desc;
      }
      sortConfig := Some(SortConfig(key, direction));
    }

    /**
     * `sortedData`: a copy of the rows, sorted by the comparator when there is
     * a configuration: ordered, a permutation of the rows, and rows that
     * compare equal keep their order.
     */
    method SortedData(data: seq<PartnerData>) returns (r: seq<PartnerData>, ghost perm: seq<int>)
      ensures sortConfig.None? ==> r == data
      ensures multiset(r) == multiset(data)
      ensures sortConfig.Some? ==> SortedBy(r, RowLe(sortConfig.value))
      ensures sortConfig.Some? ==> Arrangement(data, r, perm) && Stable(r, perm, RowLe(sortConfig.value))
    {
      r, perm := data, [];
      if sortConfig.Some? {
        RowLeTotalPreorder(sortConfig.value);
        r, perm := SortCopy(data, RowLe(sortConfig.value));
      }
    }
  }

  // ---------------------------------------------------------------------------
  // Render priority
  // ---------------------------------------------------------------------------

  /** The screens the component can show. */
  datatype Screen = Loading | Empty(message: string) | Listing

  /** The default notice for an empty table: the title, lowercased, in a fixed sentence. */
  function DefaultEmptyMessage(title: string): (m: string)
    ensures |m| == |title| + 29
    ensures m[28..28 + |title|] == Lower(title)
  {
    "Nenhum dado encontrado para " + Lower(title) + "."
  }

  /**
   * The screen shown: the loading notice first, then for no rows the empty
   * notice (`emptyMessage` when it is a non-empty string, the default
   * otherwise), and the listing last.
   */
  function Render(isLoading: bool, rowCount: nat, title: string, emptyMessage: Option<string>): (v: Screen)
    ensures v == Loading <==> isLoading
    ensures v.Empty? <==> !isLoading && rowCount == 0
    ensures v.Empty? && emptyMessage.Some? && emptyMessage.value != "" ==> v.message == emptyMessage.value
    ensures v.Empty? && (emptyMessage.None? || emptyMessage.value == "") ==> v.message == DefaultEmptyMessage(title)
    ensures v == Listing <==> !isLoading && rowCount > 0
  {
    if isLoading then Loading
    else if rowCount == 0 then
      Empty(if emptyMessage.Some? && emptyMessage.value != "" then emptyMessage.value else DefaultEmptyMessage(title))
    else Listing
  }
}
