/**
 * `formatSheetData`: turns the copay spreadsheet into `ProcedureData` records.
 * Header names are stringified and trimmed; each data row fills an item bag,
 * keyed by property name, through a guarded copy; the bag is then coerced into
 * a record (strings default to `''`, the copay flag is read from `'true'`/`true`,
 * the percentage is `Number(x) || 0`), and records without a procedure code are
 * dropped.
 *
 * The copy guard is modelled as it is written (it never copies a cell, so every
 * grid gives no records) and, beside it, as it is evidently meant (copy every
 * cell whose header is in the dictionary).
 */
module GetProcedures {
  import opened JsStrings
  import opened Seqs
  import opened Types

  /** The header dictionary: exact header names to record fields. */
  const HeaderMap: map<string, ProcedureField> := map[
    "C\U{F3}digo" := CodigoProcedimento,
    "Classifica\U{E7}\U{E3}o dos Procedimentos" := Classificacao,
    "Coparticipa\U{E7}\U{E3}o Sim/N\U{E3}o" := Coparticipacao,
    "% Valor do Procedimento" := PercentualProcedimento,
    "Nome do Plano" := NomePlano]

  /** The property name of a field. No property name is a header name of the dictionary. */
  function FieldName(f: ProcedureField): (name: string)
    ensures name !in HeaderMap
  {
    match f
    case CodigoProcedimento => "codigoProcedimento"
    case Classificacao => "classificacao"
    case Coparticipacao => "coparticipacao"
    case RegraIsencao => "regraIsencao"
    case PercentualProcedimento => "percentualProcedimento"
    case PreferencialCredenciada => "preferencialCredenciada"
    case NomePlano => "nomePlano"
  }

  /** The item bag of one row, keyed by property name (`item: any`). */
  type Item = map<string, Option<Cell>>

  // ---------------------------------------------------------------------------
  // The copy guard as written
  // ---------------------------------------------------------------------------

  /** `headerMap[colName] || colName`: the mapped property name, or the header itself. */
  function KeyAsWritten(colName: string): (key: string)
    ensures colName in HeaderMap ==> key == FieldName(HeaderMap[colName])
    ensures colName !in HeaderMap ==> key == colName
    ensures key !in HeaderMap
  {
    if colName in HeaderMap then FieldName(HeaderMap[colName]) else colName
  }

  /**
   * The item bag after the `forEach` with the guard `key in headerMap` has
   * visited `header`. The guard never holds: the key is a property name when the
   * header is known, and the unknown header otherwise; so the bag stays empty.
   */
  function ItemAsWritten(header: seq<string>, row: Row): (item: Item)
    ensures item == map[]
    decreases |header|
  {
    if header == [] then map[]
    else
      var n := |header| - 1;
      var prev := ItemAsWritten(header[..n], row);
      var key := KeyAsWritten(header[n]);
      if key in HeaderMap then prev[key := CellAt(row, n)] else prev
  }

  /** The `header.forEach` of one row, with the guard as written. */
  method FillItemAsWritten(header: seq<string>, row: Row) returns (item: Item)
    ensures item == ItemAsWritten(header, row)
    ensures item == map[]
  {
    item := map[];
    var index := 0;
    while index < |header|
      invariant 0 <= index <= |header|
      invariant item == ItemAsWritten(header[..index], row)
    {
      assert header[..index + 1][..index] == header[..index];
      var colName := header[index];
      var key := KeyAsWritten(colName);
      if key in HeaderMap {
        item := item[key := CellAt(row, index)];
      }
      index := index + 1;
    }
    assert header[..index] == header;
  }

  // ---------------------------------------------------------------------------
  // The copy guard as intended
  // ---------------------------------------------------------------------------

  /** The item bag when every column whose header is in the dictionary is copied under its property name. */
  function ItemIntended(header: seq<string>, row: Row): (item: Item)
    ensures forall key :: key in item ==> key !in HeaderMap
    decreases |header|
  {
    if header == [] then map[]
    else
      var n := |header| - 1;
      var prev := ItemIntended(header[..n], row);
      if header[n] in HeaderMap then prev[FieldName(HeaderMap[header[n]]) := CellAt(row, n)] else prev
  }

  /** The rightmost column whose header maps to `f`, or -1 when there is none. */
  function LastColumn(header: seq<string>, f: ProcedureField): (r: int)
    ensures -1 <= r < |header|
    ensures r >= 0 ==> header[r] in HeaderMap && HeaderMap[header[r]] == f
    ensures forall k :: r < k < |header| ==> !(header[k] in HeaderMap && HeaderMap[header[k]] == f)
    decreases |header|
  {
    if header == [] then -1
    else if header[|header| - 1] in HeaderMap && HeaderMap[header[|header| - 1]] == f then |header| - 1
    else LastColumn(header[..|header| - 1], f)
  }

  /**
   * With the intended guard, the item holds a field's property exactly when some
   * column maps to the field, and then the cell of the rightmost such column;
   * it holds nothing else.
   */
  lemma {:induction false} ItemIntendedColumns(header: seq<string>, row: Row, f: ProcedureField)
    ensures FieldName(f) in ItemIntended(header, row) <==> LastColumn(header, f) >= 0
    ensures FieldName(f) in ItemIntended(header, row) ==>
              ItemIntended(header, row)[FieldName(f)] == CellAt(row, LastColumn(header, f))
    ensures forall key :: key in ItemIntended(header, row) ==> exists g :: key == FieldName(g)
    decreases |header|
  {
    if header != [] {
      var n := |header| - 1;
      ItemIntendedColumns(header[..n], row, f);
      if header[n] in HeaderMap {
        assert FieldName(HeaderMap[header[n]]) == FieldName(HeaderMap[header[n]]);
      }
    }
  }

  /** The `header.forEach` of one row, with the guard `colName in headerMap`. */
  method FillItemIntended(header: seq<string>, row: Row) returns (item: Item)
    ensures item == ItemIntended(header, row)
    ensures forall f :: FieldName(f) in item <==> LastColumn(header, f) >= 0
    ensures forall f :: FieldName(f) in item ==> item[FieldName(f)] == CellAt(row, LastColumn(header, f))
  {
    item := map[];
    var index := 0;
    while index < |header|
      invariant 0 <= index <= |header|
      invariant item == ItemIntended(header[..index], row)
    {
      assert header[..index + 1][..index] == header[..index];
      var colName := header[index];
      if colName in HeaderMap {
        item := item[FieldName(HeaderMap[colName]) := CellAt(row, index)];
      }
      index := index + 1;
    }
    assert header[..index] == header;
    forall f ensures (FieldName(f) in item <==> LastColumn(header, f) >= 0)
      && (FieldName(f) in item ==> item[FieldName(f)] == CellAt(row, LastColumn(header, f)))
    {
      ItemIntendedColumns(header, row, f);
    }
  }

  // ---------------------------------------------------------------------------
  // Coercion of an item bag into a record
  // ---------------------------------------------------------------------------

  /** `item.f`: `undefined` when the bag has no such property. */
  function Lookup(item: Item, f: ProcedureField): Option<Cell> {
    if FieldName(f) in item then item[FieldName(f)] else None
  }

  /** `String(x)`, where `String(undefined)` is `'undefined'`. */
  function StringOf(c: Option<Cell>): string {
    if c.None? then "undefined" else CellString(c.value)
  }

  /**
   * `String(x).toLowerCase() === 'true' || x === true`: the boolean `true`, or
   * text that reads `true` in any letter case. Nothing else, `'sim'` included.
   */
  function CopayFlag(c: Option<Cell>): (r: bool)
    ensures r <==> c == Some(Boolean(true)) || (c.Some? && c.value.Text? && Lower(c.value.text) == "true")
  {
    assert c.Some? && c.value.Number? ==> Lower(IntToString(c.value.n))[0] != 't';
    Lower(StringOf(c)) == "true" || c == Some(Boolean(true))
  }

  /** `Number(x)`, with `None` for `NaN` (as for `undefined` and text that is not a number). */
  function NumberOf(c: Option<Cell>): Option<int> {
    match c
    case None => None
    case Some(Number(n)) => Some(n)
    case Some(Boolean(b)) => Some(if b then 1 else 0)
    case Some(Text(s)) => StringToNumber(s)
  }

  /** `Number(x) || 0`: the numeric value, and 0 for `NaN`. */
  function PercentValue(c: Option<Cell>): (r: int)
    ensures NumberOf(c).None? ==> r == 0
    ensures NumberOf(c).Some? ==> r == NumberOf(c).value
  {
    if NumberOf(c).Some? then NumberOf(c).value else 0
  }

  /**
   * The copay flag reads `true` from the boolean and from `'true'` in any letter
   * case, and `false` from `'sim'`, from the number 1 and from a missing cell.
   */
  lemma CopayFlagSpellings()
    ensures CopayFlag(Some(Text("TRUE"))) && CopayFlag(Some(Text("True"))) && CopayFlag(Some(Boolean(true)))
    ensures !CopayFlag(Some(Text("sim"))) && !CopayFlag(Some(Text("Sim"))) && !CopayFlag(Some(Number(1)))
    ensures !CopayFlag(None) && !CopayFlag(Some(Boolean(false)))
  {
    LowerIgnoresCase();
    LowerMeaning("sim");
    assert Lower("Sim") == "sim";
  }

  /**
   * The percentage keeps a number and reads back the decimal text of an integer;
   * a blank cell, a missing cell and text with a `%` sign give 0.
   */
  lemma PercentValueExamples(n: int)
    ensures PercentValue(Some(Number(n))) == n
    ensures PercentValue(Some(Text(IntToString(n)))) == n
    ensures PercentValue(Some(Text(""))) == 0 && PercentValue(None) == 0
    ensures PercentValue(Some(Text("25%"))) == 0
  {
    NumberOfIntToString(n);
    PercentSignNotNumber("25%");
  }

  /** Text that starts with a digit and ends with a percent sign is not a number. */
  lemma PercentSignNotNumber(t: string)
    requires |t| > 1 && IsDigit(t[0]) && t[|t| - 1] == '%'
    ensures StringToNumber(t) == None
  {
    DigitNotWhitespace(t[0]);
    TrimNoBlankEnds(t);
    assert !IsDigit(t[|t| - 1]);
  }

  /** The record literal built from an item bag. */
  function Coerce(item: Item): (p: ProcedureData)
    ensures p.codigoProcedimento != "" <==> Truthy(Lookup(item, CodigoProcedimento))
  {
    ProcedureData(
      TextOrEmpty(Lookup(item, CodigoProcedimento)),
      TextOrEmpty(Lookup(item, Classificacao)),
      CopayFlag(Lookup(item, Coparticipacao)),
      TextOrEmpty(Lookup(item, RegraIsencao)),
      PercentValue(Lookup(item, PercentualProcedimento)),
      TextOrEmpty(Lookup(item, PreferencialCredenciada)),
      TextOrEmpty(Lookup(item, NomePlano)))
  }

  /** The final filter: a non-empty procedure code. */
  predicate HasCode(p: ProcedureData) {
    p.codigoProcedimento != ""
  }

  // ---------------------------------------------------------------------------
  // formatSheetData
  // ---------------------------------------------------------------------------

  function RecordAsWritten(header: seq<string>, row: Row): ProcedureData {
    Coerce(ItemAsWritten(header, row))
  }

  /** `dataRows.map(...)` with the guard as written. */
  function MappedRowsAsWritten(header: seq<string>, rows: seq<Row>): (r: seq<ProcedureData>)
    ensures |r| == |rows|
    ensures forall i :: 0 <= i < |r| ==> r[i] == RecordAsWritten(header, rows[i])
  {
    seq(|rows|, i requires 0 <= i < |rows| => RecordAsWritten(header, rows[i]))
  }

  /**
   * `formatSheetData(values)` as written: no records without a header row and a
   * data row; otherwise the mapped data rows, in order, that have a procedure code.
   */
  function FormatSheetData(values: Grid): (r: seq<ProcedureData>)
    ensures |values| < 2 ==> r == []
    ensures |values| >= 2 ==> IsSubsequence(r, MappedRowsAsWritten(HeaderNames(values[0]), values[1..]))
    ensures |values| >= 2 ==> forall p :: p in r <==> p in MappedRowsAsWritten(HeaderNames(values[0]), values[1..]) && HasCode(p)
    ensures forall p :: p in r ==> HasCode(p)
  {
    if |values| < 2 then [] else Filter(MappedRowsAsWritten(HeaderNames(values[0]), values[1..]), HasCode)
  }

  /** As written, every grid gives no records: no cell is copied, so every code is `''`. */
  lemma FormatSheetDataIsAlwaysEmpty(values: Grid)
    ensures FormatSheetData(values) == []
  {
    if |values| >= 2 {
      var header := HeaderNames(values[0]);
      var mapped := MappedRowsAsWritten(header, values[1..]);
      forall i | 0 <= i < |mapped| ensures !HasCode(mapped[i]) {
        assert ItemAsWritten(header, values[1..][i]) == map[];
      }
      FilterNonePass(mapped, HasCode);
    }
  }

  function RecordIntended(header: seq<string>, row: Row): ProcedureData {
    Coerce(ItemIntended(header, row))
  }

  /** `dataRows.map(...)` with the intended guard. */
  function MappedRowsIntended(header: seq<string>, rows: seq<Row>): (r: seq<ProcedureData>)
    ensures |r| == |rows|
    ensures forall i :: 0 <= i < |r| ==> r[i] == RecordIntended(header, rows[i])
  {
    seq(|rows|, i requires 0 <= i < |rows| => RecordIntended(header, rows[i]))
  }

  /**
   * `formatSheetData(values)` with the intended guard: exactly the mapped data
   * rows, in order and with their multiplicity, that have a procedure code.
   */
  function FormatSheetDataIntended(values: Grid): (r: seq<ProcedureData>)
    ensures |values| < 2 ==> r == []
    ensures |values| >= 2 ==> IsSubsequence(r, MappedRowsIntended(HeaderNames(values[0]), values[1..]))
    ensures |values| >= 2 ==> forall p :: p in r <==> p in MappedRowsIntended(HeaderNames(values[0]), values[1..]) && HasCode(p)
    ensures |values| >= 2 ==> forall p :: multiset(r)[p] == if HasCode(p) then multiset(MappedRowsIntended(HeaderNames(values[0]), values[1..]))[p] else 0
  {
    if |values| < 2 then [] else Filter(MappedRowsIntended(HeaderNames(values[0]), values[1..]), HasCode)
  }

  /**
   * With the intended guard, each field of a row's record is read from the
   * rightmost column whose trimmed header maps to it: a string field is that
   * cell's text when the cell is truthy, and `''` otherwise.
   */
  lemma IntendedFieldsFromColumns(header: seq<string>, row: Row, f: ProcedureField)
    requires f != Coparticipacao && f != PercentualProcedimento
    ensures var p := RecordIntended(header, row);
            var col := LastColumn(header, f);
            Get(p, f) == Str(if col >= 0 then TextOrEmpty(CellAt(row, col)) else "")
  {
    ItemIntendedColumns(header, row, f);
  }

  /**
   * With the intended guard, the copay flag and the percentage are read from
   * the rightmost column mapped to them, and from `undefined` when there is none.
   */
  lemma IntendedFlagAndPercentFromColumns(header: seq<string>, row: Row)
    ensures var p := RecordIntended(header, row);
            var col := LastColumn(header, Coparticipacao);
            p.coparticipacao == CopayFlag(if col >= 0 then CellAt(row, col) else None)
    ensures var p := RecordIntended(header, row);
            var col := LastColumn(header, PercentualProcedimento);
            p.percentualProcedimento == PercentValue(if col >= 0 then CellAt(row, col) else None)
  {
    ItemIntendedColumns(header, row, Coparticipacao);
    ItemIntendedColumns(header, row, PercentualProcedimento);
  }

  /** A two-column sheet: a coded row and a row without a code. */
  const SampleSheet: Grid := [
    [Text("C\U{F3}digo"), Text("Nome do Plano")],
    [Text("P1"), Text("Plano A")],
    [Text(""), Text("Plano B")]]

  /**
   * On the sample sheet the intended guard gives the one coded row, with its
   * code and plan copied and every other field at its default; the guard as
   * written gives nothing.
   */
  lemma SampleSheetRecords()
    ensures FormatSheetDataIntended(SampleSheet) == [ProcedureData("P1", "", false, "", 0, "", "Plano A")]
    ensures FormatSheetData(SampleSheet) == []
  {
    SampleHeader(SampleSheet[0]);
    var header := HeaderNames(SampleSheet[0]);
    var mapped := MappedRowsIntended(header, SampleSheet[1..]);
    SampleMapped(header, SampleSheet[1..], mapped);
    SampleFiltered(mapped);
    FormatSheetDataIsAlwaysEmpty(SampleSheet);
  }

  lemma SampleHeader(row: Row)
    requires row == [Text("C\U{F3}digo"), Text("Nome do Plano")]
    ensures HeaderNames(row) == ["C\U{F3}digo", "Nome do Plano"]
  {
    LiteralHeadersTrimmed();
  }

  lemma LiteralHeadersTrimmed()
    ensures Trim("C\U{F3}digo") == "C\U{F3}digo"
    ensures Trim("Nome do Plano") == "Nome do Plano"
  {
    CodeHeaderTrimmed();
    PlanHeaderTrimmed();
  }

  lemma CodeHeaderTrimmed()
    ensures Trim("C\U{F3}digo") == "C\U{F3}digo"
  {
    var h := "C\U{F3}digo";
    assert h[0] == 'C' && h[|h| - 1] == 'o';
    TrimNoBlankEnds(h);
  }

  lemma PlanHeaderTrimmed()
    ensures Trim("Nome do Plano") == "Nome do Plano"
  {
    var h := "Nome do Plano";
    assert h[0] == 'N' && h[|h| - 1] == 'o';
    TrimNoBlankEnds(h);
  }

  lemma SampleMapped(header: seq<string>, rows: seq<Row>, mapped: seq<ProcedureData>)
    requires header == ["C\U{F3}digo", "Nome do Plano"]
    requires rows == [[Text("P1"), Text("Plano A")], [Text(""), Text("Plano B")]]
    requires mapped == MappedRowsIntended(header, rows)
    ensures mapped == [ProcedureData("P1", "", false, "", 0, "", "Plano A"), ProcedureData("", "", false, "", 0, "", "Plano B")]
  {
    SampleRecord(header, rows[0]);
    SampleRecord(header, rows[1]);
  }

  lemma SampleRecord(header: seq<string>, row: Row)
    requires header == ["C\U{F3}digo", "Nome do Plano"] && |row| == 2 && row[0].Text? && row[1].Text?
    ensures RecordIntended(header, row) == ProcedureData(row[0].text, "", false, "", 0, "", row[1].text)
  {
    assert header[..1] == ["C\U{F3}digo"];
    assert header[..1][..0] == [];
    assert ItemIntended(header[..1], row) == map["codigoProcedimento" := Some(row[0])];
    var item := ItemIntended(header, row);
    assert item == map["codigoProcedimento" := Some(row[0]), "nomePlano" := Some(row[1])];
    assert Lookup(item, CodigoProcedimento) == Some(row[0]);
    assert Lookup(item, NomePlano) == Some(row[1]);
    assert Lookup(item, Classificacao) == None;
    assert Lookup(item, Coparticipacao) == None;
    assert Lookup(item, RegraIsencao) == None;
    assert Lookup(item, PercentualProcedimento) == None;
    assert Lookup(item, PreferencialCredenciada) == None;
    assert Lower("undefined") != "true";
  }

  lemma SampleFiltered(mapped: seq<ProcedureData>)
    requires mapped == [ProcedureData("P1", "", false, "", 0, "", "Plano A"), ProcedureData("", "", false, "", 0, "", "Plano B")]
    ensures Filter(mapped, HasCode) == [mapped[0]]
  {
    assert mapped[1..][1..] == [];
  }
}
