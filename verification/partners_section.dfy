/**
 * The partner section: the plan choices offered by its two plan selects and
 * the hospital and laboratory lists it hands to its two partner tables, each
 * gated on a chosen plan and narrowed by an optional name search.
 */
module PartnersSection {
  import opened JsStrings
  import opened Seqs
  import opened GetPartners
  import PartnerTable

  /** An option of a plan select, `{ value, label }` (`label` is a Dafny keyword). */
  datatype PlanOption = PlanOption(value: string, labelText: string)

  /** The distinct plan names of the partners. */
  function PlanNames(partners: seq<PartnerData>): set<string> {
    set p | p in partners :: p.nomePlano
  }

  /** Some option of `options` has `plan` as its value. */
  predicate Offered(options: seq<PlanOption>, plan: string) {
    exists i :: 0 <= i < |options| && options[i].value == plan
  }

  /**
   * `uniquePlansFromPartners`: one option per distinct plan name, in
   * increasing order, each labelled with its own value.
   */
  function UniquePlansFromPartners(partners: seq<PartnerData>): (r: seq<PlanOption>)
    ensures |r| == |PlanNames(partners)|
    ensures forall i :: 0 <= i < |r| ==> r[i].labelText == r[i].value
    ensures forall i, j :: 0 <= i < j < |r| ==> LexLess(r[i].value, r[j].value)
    ensures forall plan :: Offered(r, plan) <==> plan in PlanNames(partners)
  {
    var plans := SortedFromSet(PlanNames(partners));
    var r := Options(plans);
    assert forall plan :: Offered(r, plan) <==> plan in plans by {
      forall plan ensures Offered(r, plan) <==> plan in plans {
        if plan in plans {
          var i :| 0 <= i < |plans| && plans[i] == plan;
          assert r[i].value == plan;
        }
      }
    }
    r
  }

  /** `.map(plan => ({ value: plan, label: plan }))`. */
  function Options(plans: seq<string>): (r: seq<PlanOption>)
    ensures |r| == |plans|
    ensures forall i :: 0 <= i < |r| ==> r[i] == PlanOption(plans[i], plans[i])
  {
    seq(|plans|, i requires 0 <= i < |plans| => PlanOption(plans[i], plans[i]))
  }

  // ---------------------------------------------------------------------------
  // The two partner lists
  // ---------------------------------------------------------------------------

  predicate IsHospital(p: PartnerData) {
    Lower(p.tipo) == "hospital"
  }

  /** Both the accented and the unaccented spelling count as a laboratory. */
  predicate IsLaboratory(p: PartnerData) {
    Lower(p.tipo) == "laborat\U{F3}rio" || Lower(p.tipo) == "laboratorio"
  }

  /** The name search: the lowercased, untrimmed query occurs in the lowercased partner name. */
  predicate NameMatches(query: string, p: PartnerData) {
    Includes(Lower(p.nomeParceiro), Lower(query))
  }

  /** A partner of the kind, on `plan`, whose name matches the query when it is not blank once trimmed. */
  predicate Wanted(kind: PartnerData -> bool, plan: string, query: string, p: PartnerData) {
    kind(p) && p.nomePlano == plan && (Trim(query) != "" ==> NameMatches(query, p))
  }

  /**
   * One partner list: nothing while no plan is chosen; otherwise the partners
   * of the kind, on the chosen plan, and (when the query is not blank once
   * trimmed) whose name contains the query, in their original order and with
   * their multiplicity.
   */
  function Bucket(partners: seq<PartnerData>, kind: PartnerData -> bool, selected: Option<PlanOption>, query: string): (r: seq<PartnerData>)
    ensures selected.None? ==> r == []
    ensures IsSubsequence(r, partners)
    ensures selected.Some? ==> forall p :: p in r <==>
      && p in partners && kind(p) && p.nomePlano == selected.value.value
      && (Trim(query) != "" ==> NameMatches(query, p))
    ensures selected.Some? ==> forall p :: multiset(r)[p] == if Wanted(kind, selected.value.value, query, p) then multiset(partners)[p] else 0
  {
    if selected.None? then
      EmptySubsequence(partners);
      []
    else
      var ofKind := Filter(partners, kind);
      var onPlan := Filter(ofKind, (p: PartnerData) => p.nomePlano == selected.value.value);
      SubsequenceTransitive(onPlan, ofKind, partners);
      if Trim(query) != "" then
        var named := Filter(onPlan, (p: PartnerData) => NameMatches(query, p));
        SubsequenceTransitive(named, onPlan, partners);
        named
      else
        onPlan
  }

  /** `hospitalData`: the hospitals of the chosen plan that match the query. */
  function HospitalData(partners: seq<PartnerData>, selected: Option<PlanOption>, query: string): (r: seq<PartnerData>)
    ensures selected.None? ==> r == []
    ensures IsSubsequence(r, partners)
    ensures forall p :: p in r ==> IsHospital(p) && p.nomePlano == selected.value.value
    ensures selected.Some? ==> forall p :: p in r <==>
      && p in partners && IsHospital(p) && p.nomePlano == selected.value.value
      && (Trim(query) != "" ==> NameMatches(query, p))
    ensures selected.Some? ==> forall p :: multiset(r)[p] == if Wanted(IsHospital, selected.value.value, query, p) then multiset(partners)[p] else 0
  {
    Bucket(partners, IsHospital, selected, query)
  }

  /** `laboratoryData`: the laboratories of the chosen plan that match the query. */
  function LaboratoryData(partners: seq<PartnerData>, selected: Option<PlanOption>, query: string): (r: seq<PartnerData>)
    ensures selected.None? ==> r == []
    ensures IsSubsequence(r, partners)
    ensures forall p :: p in r ==> IsLaboratory(p) && p.nomePlano == selected.value.value
    ensures selected.Some? ==> forall p :: p in r <==>
      && p in partners && IsLaboratory(p) && p.nomePlano == selected.value.value
      && (Trim(query) != "" ==> NameMatches(query, p))
    ensures selected.Some? ==> forall p :: multiset(r)[p] == if Wanted(IsLaboratory, selected.value.value, query, p) then multiset(partners)[p] else 0
  {
    Bucket(partners, IsLaboratory, selected, query)
  }

  /** No partner is in both lists, whatever plans and queries the two searches use. */
  lemma BucketsDisjoint(partners: seq<PartnerData>, hospitalPlan: Option<PlanOption>, hospitalQuery: string,
                        laboratoryPlan: Option<PlanOption>, laboratoryQuery: string)
    ensures forall p :: p in HospitalData(partners, hospitalPlan, hospitalQuery) ==>
              p !in LaboratoryData(partners, laboratoryPlan, laboratoryQuery)
  {
    assert "hospital" != "laborat\U{F3}rio" && "hospital" != "laboratorio";
  }

  /** A query of only whitespace narrows nothing: the list is the one for the empty query. */
  lemma BlankQueryIgnored(partners: seq<PartnerData>, kind: PartnerData -> bool, selected: Option<PlanOption>, query: string)
    requires AllWhitespace(query)
    ensures Bucket(partners, kind, selected, query) == Bucket(partners, kind, selected, "")
  {
    TrimEmptyIff(query);
    assert Trim("") == "";
  }

  /** A search query only ever removes partners from a list. */
  lemma QueryNarrows(partners: seq<PartnerData>, kind: PartnerData -> bool, selected: Option<PlanOption>, query: string)
    ensures IsSubsequence(Bucket(partners, kind, selected, query), Bucket(partners, kind, selected, ""))
  {
    assert Trim("") == "";
    var all := Bucket(partners, kind, selected, "");
    if selected.Some? && Trim(query) != "" {
      var narrowed := Filter(all, (p: PartnerData) => NameMatches(query, p));
      assert Bucket(partners, kind, selected, query) == narrowed;
    } else {
      SubsequenceReflexive(all);
    }
  }

  // ---------------------------------------------------------------------------
  // The prompts of the two tables
  // ---------------------------------------------------------------------------

  const HospitalPrompt := "Selecione um plano para visualizar os hospitais dispon\U{ED}veis."
  const LaboratoryPrompt := "Selecione um plano para visualizar os laborat\U{F3}rios dispon\U{ED}veis."

  /** The `emptyMessage` a table receives: its prompt while no plan is chosen, `undefined` afterwards. */
  function EmptyMessage(selected: Option<PlanOption>, prompt: string): (m: Option<string>)
    ensures m.Some? <==> selected.None?
  {
    if selected.None? then Some(prompt) else None
  }

  /** Once loaded and with no plan chosen, the hospital table shows its select-a-plan prompt. */
  lemma HospitalTableAsksForPlan(partners: seq<PartnerData>, query: string)
    ensures PartnerTable.Render(false, |HospitalData(partners, None, query)|, "Hospitais", EmptyMessage(None, HospitalPrompt))
            == PartnerTable.Empty(HospitalPrompt)
  {
  }

  /** Once loaded and with no plan chosen, the laboratory table shows its select-a-plan prompt. */
  lemma LaboratoryTableAsksForPlan(partners: seq<PartnerData>, query: string)
    ensures PartnerTable.Render(false, |LaboratoryData(partners, None, query)|, "Laborat\U{F3}rios", EmptyMessage(None, LaboratoryPrompt))
            == PartnerTable.Empty(LaboratoryPrompt)
  {
  }
}
