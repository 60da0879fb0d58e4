/**
 * The procedure table component: its sort state and click handler, the
 * comparator its sorted copy of the rows uses, the visibility of each column,
 * and which of its screens it renders.
 */
module Table {
  import opened JsStrings
  import opened Seqs
  import opened Types

  // ---------------------------------------------------------------------------
  // Sort state and handleSort
  // ---------------------------------------------------------------------------

  /** `sortField` (`None` is `null`) and `sortDirection`. */
  datatype SortState = SortState(field: Option<ProcedureField>, direction: Direction)

  /**
   * The state after a click on the header of `field`: clicking the sorted
   * column flips the direction, clicking any other column sorts by it ascending.
   */
  function Clicked(s: SortState, field: ProcedureField): (t: SortState)
    ensures t.field == Some(field)
    ensures s.field == Some(field) ==> t.direction != s.direction
    ensures s.field != Some(field) ==> t.direction == Asc
  {
    if s.field == Some(field) then s.(direction := Flip(s.direction))
    else SortState(Some(field), Asc)
  }

  /** Two clicks on the same column: back to where it was if it was already sorted, descending otherwise. */
  lemma ClickTwice(s: SortState, field: ProcedureField)
    ensures Clicked(Clicked(s, field), field) == (if s.field == Some(field) then s else SortState(Some(field), Desc))
  {
  }

  // ---------------------------------------------------------------------------
  // The comparator
  // ---------------------------------------------------------------------------

  /** What the comparator compares: a number (`Number(b)` of a boolean, or the number) or lowercased text. */
  datatype SortKey = IntKey(n: int) | TextKey(s: string)

  /**
   * The key of a field value. For text fields `(v ? String(v) : '').toLowerCase()`
   * is the lowercased text itself, since the only falsy string is `''`.
   */
  function KeyOf(v: FieldValue): (k: SortKey)
    ensures v.Str? <==> k.TextKey?
    ensures v.Str? ==> k.s == Lower(v.s)
    ensures v.Num? ==> k == IntKey(v.n)
    ensures v.Bool? ==> k == IntKey(if v.b then 1 else 0)
  {
    match v
    case Bool(b) => IntKey(if b then 1 else 0)
    case Num(n) => IntKey(n)
    case Str(s) => TextKey(Lower(s))
  }

  /**
   * The ascending comparison of two keys: the difference of two numbers, the
   * `localeCompare` of two texts. Two values of one column never mix kinds;
   * a number is put before a text only to keep the comparison total.
   */
  function KeyCompare(x: SortKey, y: SortKey): (r: int)
    ensures r == 0 <==> x == y
    ensures x.IntKey? && y.IntKey? ==> (r < 0 <==> x.n < y.n) && (r > 0 <==> y.n < x.n)
    ensures x.TextKey? && y.TextKey? ==> (r < 0 <==> LexLess(x.s, y.s)) && (r > 0 <==> LexLess(y.s, x.s))
    ensures x.IntKey? != y.IntKey? ==> (r < 0 <==> x.IntKey?)
  {
    match (x, y)
    case (IntKey(a), IntKey(b)) => a - b
    case (TextKey(a), TextKey(b)) => LocaleCompare(a, b)
    case (IntKey(_), TextKey(_)) => -1
    case (TextKey(_), IntKey(_)) => 1
  }

  predicate KeyLe(x: SortKey, y: SortKey) {
    KeyCompare(x, y) <= 0
  }

  lemma KeyLeTotalPreorder()
    ensures forall x, y :: KeyLe(x, y) || KeyLe(y, x)
    ensures forall x, y, z :: KeyLe(x, y) && KeyLe(y, z) ==> KeyLe(x, z)
  {
    forall x, y ensures KeyLe(x, y) || KeyLe(y, x) {
      if x.TextKey? && y.TextKey? { LexLessTotal(x.s, y.s); }
    }
    forall x, y, z | KeyLe(x, y) && KeyLe(y, z) ensures KeyLe(x, z) {
      if x.TextKey? && y.TextKey? && z.TextKey? && x.s != y.s && y.s != z.s {
        LexLessTransitive(x.s, y.s, z.s);
      }
    }
  }

  /**
   * The comparator given to `sort` for the current field and direction: zero
   * exactly when the two keys agree; otherwise negative when `a` comes first in
   * the chosen direction (by the number for the percentage, `false` first for the
   * copay flag ascending, the code-point order of the lowercased text otherwise).
   */
  function Compare(field: ProcedureField, dir: Direction, a: ProcedureData, b: ProcedureData): (r: int)
    ensures r == 0 <==> KeyOf(Get(a, field)) == KeyOf(Get(b, field))
    ensures field == PercentualProcedimento ==>
              (r < 0 <==> if dir == Asc then a.percentualProcedimento < b.percentualProcedimento
                          else b.percentualProcedimento < a.percentualProcedimento)
    ensures field == Coparticipacao ==>
              (r < 0 <==> if dir == Asc then !a.coparticipacao && b.coparticipacao
                          else a.coparticipacao && !b.coparticipacao)
    ensures Get(a, field).Str? && Get(b, field).Str? ==>
              (r < 0 <==> if dir == Asc then LexLess(Lower(Get(a, field).s), Lower(Get(b, field).s))
                          else LexLess(Lower(Get(b, field).s), Lower(Get(a, field).s)))
  {
    var ka, kb := KeyOf(Get(a, field)), KeyOf(Get(b, field));
    if dir == Asc then KeyCompare(ka, kb) else KeyCompare(kb, ka)
  }

  /** `a` may be placed before `b`: the comparator does not put it after. */
  function RowLe(field: ProcedureField, dir: Direction): (ProcedureData, ProcedureData) -> bool {
    (a, b) => Compare(field, dir, a, b) <= 0
  }

  /** The comparator is consistent, as `Array.prototype.sort` needs. */
  lemma RowLeTotalPreorder(field: ProcedureField, dir: Direction)
    ensures TotalPreorder(RowLe(field, dir))
  {
    KeyLeTotalPreorder();
    var le := RowLe(field, dir);
    assert forall a, b :: le(a, b) == if dir == Asc then KeyLe(KeyOf(Get(a, field)), KeyOf(Get(b, field)))
                                     else KeyLe(KeyOf(Get(b, field)), KeyOf(Get(a, field)));
  }

  /** Sorted by the copay column: ascending puts every `false` before every `true`, descending the reverse. */
  lemma CopayOrder(r: seq<ProcedureData>, dir: Direction)
    requires SortedBy(r, RowLe(Coparticipacao, dir))
    ensures forall i, j :: 0 <= i < j < |r| && r[i].coparticipacao != r[j].coparticipacao ==>
              r[i].coparticipacao == (dir == Desc)
  {
    forall i, j | 0 <= i < j < |r| && r[i].coparticipacao != r[j].coparticipacao
      ensures r[i].coparticipacao == (dir == Desc)
    {
      assert RowLe(Coparticipacao, dir)(r[i], r[j]);
      CopayPair(dir, r[i], r[j]);
    }
  }

  lemma CopayPair(dir: Direction, a: ProcedureData, b: ProcedureData)
    requires Compare(Coparticipacao, dir, a, b) <= 0 && a.coparticipacao != b.coparticipacao
    ensures a.coparticipacao == (dir == Desc)
  {
    assert Compare(Coparticipacao, dir, a, b) != 0;
  }

  /** Sorted by the percentage column: the values are ascending or descending as asked. */
  lemma PercentOrder(r: seq<ProcedureData>, dir: Direction)
    requires SortedBy(r, RowLe(PercentualProcedimento, dir))
    ensures forall i, j :: 0 <= i < j < |r| ==>
              if dir == Asc then r[i].percentualProcedimento <= r[j].percentualProcedimento
              else r[i].percentualProcedimento >= r[j].percentualProcedimento
  {
    forall i, j | 0 <= i < j < |r|
      ensures if dir == Asc then r[i].percentualProcedimento <= r[j].percentualProcedimento
              else r[i].percentualProcedimento >= r[j].percentualProcedimento
    {
      assert RowLe(PercentualProcedimento, dir)(r[i], r[j]);
    }
  }

  /** Sorted by a text column: the lowercased texts are in code-point order, ascending or descending. */
  lemma TextOrder(r: seq<ProcedureData>, field: ProcedureField, dir: Direction)
    requires field != Coparticipacao && field != PercentualProcedimento
    requires SortedBy(r, RowLe(field, dir))
    ensures forall i, j :: 0 <= i < j < |r| ==>
              var a, b := Lower(Get(r[i], field).s), Lower(Get(r[j], field).s);
              if dir == Asc then LexLe(a, b) else LexLe(b, a)
  {
    forall i, j | 0 <= i < j < |r|
      ensures var a, b := Lower(Get(r[i], field).s), Lower(Get(r[j], field).s);
              if dir == Asc then LexLe(a, b) else LexLe(b, a)
    {
      assert RowLe(field, dir)(r[i], r[j]);
    }
  }

  // ---------------------------------------------------------------------------
  // The component's sort state
  // ---------------------------------------------------------------------------

  class ProcedureTable {
    var sortField: Option<ProcedureField>
    var sortDirection: Direction

    function State(): SortState
      reads this
    {
      SortState(sortField, sortDirection)
    }

    /** Initially unsorted, with the direction set to ascending. */
    constructor()
      ensures sortField == None && sortDirection == Asc
    {
      sortField := None;
      sortDirection := Asc;
    }

    /** `handleSort(field)`. */
    method HandleSort(field: ProcedureField)
      modifies this
      ensures State() == Clicked(old(State()), field)
    {
      if sortField == Some(field) {
        sortDirection := if sortDirection == Asc then Desc else Asc;
      } else {
        sortField := Some(field);
        sortDirection := Asc;
      }
    }

    /**
     * `sortedData`: the rows themselves while no column is chosen; otherwise a
     * sorted copy: ordered by the comparator, a permutation of the rows, and
     * rows that compare equal keep their order.
     */
    method SortedData(data: seq<ProcedureData>) returns (r: seq<ProcedureData>, ghost perm: seq<int>)
      ensures sortField.None? ==> r == data
      ensures sortField.Some? ==> SortedBy(r, RowLe(sortField.value, sortDirection))
      ensures multiset(r) == multiset(data)
      ensures sortField.Some? ==> Arrangement(data, r, perm) && Stable(r, perm, RowLe(sortField.value, sortDirection))
    {
      if sortField.None? {
        return data, [];
      }
      RowLeTotalPreorder(sortField.value, sortDirection);
      r, perm := SortCopy(data, RowLe(sortField.value, sortDirection));
    }
  }

  // ---------------------------------------------------------------------------
  // columnsWithValues
  // ---------------------------------------------------------------------------

  /** The fields of a record, in the order `formatSheetData` creates them. */
  const FieldOrder: seq<ProcedureField> :=
    [CodigoProcedimento, Classificacao, Coparticipacao, RegraIsencao,
     PercentualProcedimento, PreferencialCredenciada, NomePlano]

  /**
   * A value that makes its column visible: a boolean always; a number when not
   * zero; a string when not empty and `parseFloat` of it is not zero.
   */
  predicate HasValue(v: FieldValue)
    ensures v.Bool? ==> HasValue(v)
    ensures v.Num? ==> (HasValue(v) <==> v.n != 0)
    ensures v == Str("") ==> !HasValue(v)
  {
    match v
    case Bool(_) => true
    case Num(n) => n != 0
    case Str(s) => s != "" && !LeadingNumeralIsZero(s)
  }

  /** A column is shown when it is not the plan column and some row has a value in it. */
  ghost predicate Shown(data: seq<ProcedureData>, f: ProcedureField) {
    SeenBefore(data, |data|, f)
  }

  /** Some row before `i` has a value in column `f`, which is not the plan column. */
  ghost predicate SeenBefore(data: seq<ProcedureData>, i: int, f: ProcedureField)
    requires 0 <= i <= |data|
  {
    f != NomePlano && exists j :: 0 <= j < i && HasValue(Get(data[j], f))
  }

  lemma SeenOneMore(data: seq<ProcedureData>, i: int, f: ProcedureField)
    requires 0 <= i < |data|
    ensures SeenBefore(data, i + 1, f) <==> SeenBefore(data, i, f) || (f != NomePlano && HasValue(Get(data[i], f)))
  {
    if f != NomePlano && HasValue(Get(data[i], f)) {
      assert 0 <= i < i + 1 && HasValue(Get(data[i], f));
    }
  }

  /** The position of a field in `FieldOrder`. */
  function FieldIndex(f: ProcedureField): (k: nat)
    ensures k < |FieldOrder| && FieldOrder[k] == f
  {
    match f
    case CodigoProcedimento => 0
    case Classificacao => 1
    case Coparticipacao => 2
    case RegraIsencao => 3
    case PercentualProcedimento => 4
    case PreferencialCredenciada => 5
    case NomePlano => 6
  }

  /**
   * `columnsWithValues`: no entry without rows; otherwise an entry for every
   * field, starting hidden, switched on by every row that has a value in it.
   */
  method ColumnsWithValues(data: seq<ProcedureData>) returns (columns: map<ProcedureField, bool>)
    ensures data == [] ==> columns == map[]
    ensures data != [] ==> forall f :: f in columns
    ensures forall f :: f in columns ==> (columns[f] <==> Shown(data, f))
  {
    columns := map[];
    if data == [] {
      return;
    }
    for k := 0 to |FieldOrder|
      invariant forall f :: f in columns <==> FieldIndex(f) < k
      invariant forall f :: f in columns ==> !columns[f]
    {
      columns := columns[FieldOrder[k] := false];
    }
    for i := 0 to |data|
      invariant forall f :: f in columns
      invariant forall f :: columns[f] <==> SeenBefore(data, i, f)
    {
      columns := MarkRow(columns, data[i]);
      forall f ensures columns[f] <==> SeenBefore(data, i + 1, f) {
        SeenOneMore(data, i, f);
      }
    }
  }

  /** The inner `Object.entries(item).forEach`: switches on every column, except the plan's, in which `item` has a value. */
  method MarkRow(columns: map<ProcedureField, bool>, item: ProcedureData) returns (marked: map<ProcedureField, bool>)
    requires forall f :: f in columns
    ensures forall f :: f in marked
    ensures forall f :: marked[f] <==> columns[f] || Marks(item, f)
  {
    marked := columns;
    for k := 0 to |FieldOrder|
      invariant forall f :: f in marked
      invariant forall f :: marked[f] <==> columns[f] || (FieldIndex(f) < k && Marks(item, f))
    {
      var f := FieldOrder[k];
      ghost var prev := marked;
      var on := Marks(item, f);
      if on {
        marked := marked[f := true];
      }
      assert marked[f] <==> columns[f] || on;
      forall g | g != f ensures marked[g] == prev[g] && FieldIndex(g) != k {
      }
    }
  }

  /** `item` switches column `f` on. */
  predicate Marks(item: ProcedureData, f: ProcedureField) {
    f != NomePlano && HasValue(Get(item, f))
  }

  /** The copay column is shown as soon as there is a row, whatever its value; the plan column never is. */
  lemma CopayColumnShown(data: seq<ProcedureData>)
    requires data != []
    ensures Shown(data, Coparticipacao)
    ensures !Shown(data, NomePlano)
  {
    assert HasValue(Get(data[0], Coparticipacao));
  }

  /**
   * The text of an integer makes a text column visible exactly when the number
   * would make a number column visible: when it is not zero.
   */
  lemma IntegerTextShown(n: int)
    ensures HasValue(Str(IntToString(n))) <==> HasValue(Num(n))
  {
    var m: nat := if n < 0 then -n else n;
    var s := IntToString(n);
    if n < 0 {
      assert s == ['-'] + NatToString(m);
    }
    NumeralZeroIff(s, NatToString(m));
    NatToStringZeros(m);
  }

  /** `parseFloat` of a run of digits, possibly after a minus sign, is zero exactly when every digit is `0`. */
  lemma NumeralZeroIff(s: string, u: string)
    requires u != [] && AllDigits(u)
    requires s == u || s == ['-'] + u
    ensures LeadingNumeralIsZero(s) <==> AllZeros(u)
  {
    assert IsDigit(u[0]);
    if s == u {
      DigitNotWhitespace(s[0]);
    }
    var t := TrimStart(s);
    assert t == s;
    var unsigned := if |t| > 0 && (t[0] == '+' || t[0] == '-') then t[1..] else t;
    assert unsigned == u;
    var intDigits := DigitPrefix(unsigned);
    AllDigitsPrefix(u);
    assert intDigits == u;
    var rest := unsigned[|intDigits|..];
    assert rest == [];
    assert intDigits + [] == u;
  }

  lemma {:induction false} AllDigitsPrefix(s: string)
    requires AllDigits(s)
    ensures DigitPrefix(s) == s
    decreases |s|
  {
    if s != [] {
      AllDigitsPrefix(s[1..]);
      assert s == [s[0]] + s[1..];
    }
  }

  lemma {:induction false} NatToStringZeros(m: nat)
    ensures AllZeros(NatToString(m)) <==> m == 0
    decreases m
  {
    var s := NatToString(m);
    if m >= 10 {
      var p := s[..|s| - 1];
      assert p == NatToString(m / 10);
      NatToStringZeros(m / 10);
      var k :| 0 <= k < |p| && p[k] != '0';
      assert s[k] != '0';
    } else if m != 0 {
      assert s[0] != '0';
    }
  }

  // ---------------------------------------------------------------------------
  // Render priority
  // ---------------------------------------------------------------------------

  /** JavaScript truthiness of an optional string prop: given and not empty. */
  predicate TruthyText(s: Option<string>) {
    s.Some? && s.value != ""
  }

  /** The screens the component can show. */
  datatype Screen = Skeleton | PlanPrompt(message: string) | NoResults | Rows

  const DefaultPrompt := "Selecione um plano para visualizar os procedimentos dispon\U{ED}veis."

  /**
   * The screen shown: the loading skeleton first, then (without a truthy
   * `selectedPlan`) the prompt with `emptyMessage` or its default, then the
   * no-results notice for no rows, and the table last.
   */
  function Render(isLoading: bool, selectedPlan: Option<string>, emptyMessage: Option<string>, rowCount: nat): (v: Screen)
    ensures v == Skeleton <==> isLoading
    ensures v.PlanPrompt? <==> !isLoading && !TruthyText(selectedPlan)
    ensures v.PlanPrompt? ==> v.message != "" && (TruthyText(emptyMessage) ==> v.message == emptyMessage.value)
    ensures v == NoResults <==> !isLoading && TruthyText(selectedPlan) && rowCount == 0
    ensures v == Rows <==> !isLoading && TruthyText(selectedPlan) && rowCount > 0
  {
    if isLoading then Skeleton
    else if !TruthyText(selectedPlan) then
      PlanPrompt(if TruthyText(emptyMessage) then emptyMessage.value else DefaultPrompt)
    else if rowCount == 0 then NoResults
    else Rows
  }
}
