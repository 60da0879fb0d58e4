/**
 * `formatPartnerData`: turns the partner spreadsheet (a header row followed by
 * data rows) into `PartnerData` records. Header names are stringified and
 * trimmed and looked up in a fixed header dictionary; each data row fills an
 * item bag column by column, every field is stringified (a missing or falsy
 * cell gives `''`) and trimmed, and rows without a partner name or a type are
 * dropped.
 */
module GetPartners {
  import opened JsStrings
  import opened Seqs
  import Types

  datatype PartnerData = PartnerData(nomeParceiro: string, tipo: string, tipoRede: string, nomePlano: string)

  /** `keyof PartnerData`. */
  datatype PartnerField = NomeParceiro | Tipo | TipoRede | NomePlano

  function Field(p: PartnerData, f: PartnerField): string {
    match f
    case NomeParceiro => p.nomeParceiro
    case Tipo => p.tipo
    case TipoRede => p.tipoRede
    case NomePlano => p.nomePlano
  }

  /** The header dictionary: exact, case-sensitive header names. */
  const HeaderMap: map<string, PartnerField> := map[
    "Nome do Parceiro" := NomeParceiro,
    "Tipo" := Tipo,
    "Tipo de Rede" := TipoRede,
    "Nome do Plano" := NomePlano]

  predicate MapsTo(h: string, f: PartnerField) {
    h in HeaderMap && HeaderMap[h] == f
  }

  /** The item bag of one row: the cell copied into each field (`None` when the row is too short). */
  type Item = map<PartnerField, Option<Types.Cell>>

  /** The item bag after the header `forEach` has visited every column of `header`. */
  function ItemOf(header: seq<string>, row: Types.Row): (item: Item)
    ensures forall f :: f in item ==> LastColumn(header, f) >= 0
    decreases |header|
  {
    if header == [] then map[]
    else
      var n := |header| - 1;
      var prev := ItemOf(header[..n], row);
      if header[n] in HeaderMap then prev[HeaderMap[header[n]] := Types.CellAt(row, n)] else prev
  }

  /** The rightmost column whose header maps to `f`, or -1 when there is none. */
  function LastColumn(header: seq<string>, f: PartnerField): (r: int)
    ensures -1 <= r < |header|
    ensures r >= 0 ==> MapsTo(header[r], f)
    ensures forall k :: r < k < |header| ==> !MapsTo(header[k], f)
    decreases |header|
  {
    if header == [] then -1
    else if MapsTo(header[|header| - 1], f) then |header| - 1
    else LastColumn(header[..|header| - 1], f)
  }

  /**
   * A field is in the item exactly when some column's header maps to it, and
   * then it holds the cell of the rightmost such column: a later column that
   * maps to the same field overwrites an earlier one.
   */
  lemma {:induction false} RightmostWins(header: seq<string>, row: Types.Row, f: PartnerField)
    ensures f in ItemOf(header, row) <==> LastColumn(header, f) >= 0
    ensures f in ItemOf(header, row) ==> ItemOf(header, row)[f] == Types.CellAt(row, LastColumn(header, f))
    decreases |header|
  {
    if header != [] {
      RightmostWins(header[..|header| - 1], row, f);
    }
  }

  /**
   * The `header.forEach` of one row: visits the columns left to right and copies
   * the cell of every recognised column into the item, under its mapped field.
   */
  method FillItem(header: seq<string>, row: Types.Row) returns (item: Item)
    ensures item == ItemOf(header, row)
    ensures forall f :: f in item <==> LastColumn(header, f) >= 0
    ensures forall f :: f in item ==> item[f] == Types.CellAt(row, LastColumn(header, f))
  {
    item := map[];
    var index := 0;
    while index < |header|
      invariant 0 <= index <= |header|
      invariant item == ItemOf(header[..index], row)
    {
      assert header[..index + 1][..index] == header[..index];
      var colName := header[index];
      if colName in HeaderMap {
        item := item[HeaderMap[colName] := Types.CellAt(row, index)];
      }
      index := index + 1;
    }
    assert header[..index] == header;
    forall f ensures (f in item <==> LastColumn(header, f) >= 0)
      && (f in item ==> item[f] == Types.CellAt(row, LastColumn(header, f)))
    {
      RightmostWins(header, row, f);
    }
  }

  /** `item.f`: `undefined` when the item has no such field. */
  function Lookup(item: Item, f: PartnerField): Option<Types.Cell> {
    if f in item then item[f] else None
  }

  /** `String(item.f || '').trim()`. */
  function FieldText(item: Item, f: PartnerField): (r: string)
    ensures IsTrimmed(r)
    ensures !Types.Truthy(Lookup(item, f)) ==> r == ""
    ensures Types.Truthy(Lookup(item, f)) && Lookup(item, f).value.Text? ==> r == Trim(Lookup(item, f).value.text)
  {
    TrimIsTrimmed(Types.TextOrEmpty(Lookup(item, f)));
    Trim(Types.TextOrEmpty(Lookup(item, f)))
  }

  /** Every field of a record is free of leading and trailing whitespace. */
  predicate FieldsTrimmed(p: PartnerData) {
    IsTrimmed(p.nomeParceiro) && IsTrimmed(p.tipo) && IsTrimmed(p.tipoRede) && IsTrimmed(p.nomePlano)
  }

  /** The transformed record of one data row. */
  function RowRecord(header: seq<string>, row: Types.Row): (p: PartnerData)
    ensures FieldsTrimmed(p)
  {
    var item := ItemOf(header, row);
    PartnerData(FieldText(item, NomeParceiro), FieldText(item, Tipo), FieldText(item, TipoRede), FieldText(item, NomePlano))
  }

  /** `dataRows.map(...)`: the record of every data row, in order, before the final filter. */
  function MappedRows(header: seq<string>, rows: seq<Types.Row>): (r: seq<PartnerData>)
    ensures |r| == |rows|
    ensures forall i :: 0 <= i < |r| ==> r[i] == RowRecord(header, rows[i])
  {
    seq(|rows|, i requires 0 <= i < |rows| => RowRecord(header, rows[i]))
  }

  /** The final filter: a partner name and a type are both present. */
  predicate Present(p: PartnerData) {
    p.nomeParceiro != "" && p.tipo != ""
  }

  /**
   * The records of the data rows under `header` that pass the final filter:
   * exactly the mapped records, in order and with their multiplicity, whose
   * trimmed name and type are not empty.
   */
  function PresentRecords(header: seq<string>, rows: seq<Types.Row>): (r: seq<PartnerData>)
    ensures IsSubsequence(r, MappedRows(header, rows))
    ensures forall p :: p in r <==> p in MappedRows(header, rows) && Present(p)
    ensures forall p :: p in r ==> FieldsTrimmed(p)
    ensures forall p :: multiset(r)[p] == if Present(p) then multiset(MappedRows(header, rows))[p] else 0
  {
    KeptAreTrimmed(header, rows);
    Filter(MappedRows(header, rows), Present)
  }

  /** Every record the final filter keeps has trimmed fields. */
  lemma KeptAreTrimmed(header: seq<string>, rows: seq<Types.Row>)
    ensures forall p :: p in Filter(MappedRows(header, rows), Present) ==> FieldsTrimmed(p)
  {
    var mapped := MappedRows(header, rows);
    forall p | p in Filter(mapped, Present)
      ensures FieldsTrimmed(p)
    {
      var i :| 0 <= i < |mapped| && mapped[i] == p;
    }
  }

  /**
   * `formatPartnerData(values)`: no records without a header row and at least
   * one data row; otherwise exactly the mapped data rows, in order, whose
   * trimmed name and type are not empty. Every field of every record is trimmed.
   */
  function FormatPartnerData(values: Types.Grid): (r: seq<PartnerData>)
    ensures |values| < 2 ==> r == []
    ensures |values| >= 2 ==> IsSubsequence(r, MappedRows(Types.HeaderNames(values[0]), values[1..]))
    ensures |values| >= 2 ==> forall p :: p in r <==> p in MappedRows(Types.HeaderNames(values[0]), values[1..]) && Present(p)
    ensures forall p :: p in r ==> p.nomeParceiro != "" && p.tipo != ""
    ensures forall p :: p in r ==> FieldsTrimmed(p)
    ensures |values| >= 2 ==> forall p :: multiset(r)[p] == if Present(p) then multiset(MappedRows(Types.HeaderNames(values[0]), values[1..]))[p] else 0
  {
    if |values| < 2 then [] else PresentRecords(Types.HeaderNames(values[0]), values[1..])
  }

  /**
   * Each field of a row's record is read from the rightmost column whose
   * trimmed header maps to it: the trimmed text of that cell when it is truthy,
   * and `''` when it is falsy, past the end of the row, or when no column maps
   * to the field.
   */
  lemma PartnerFieldsFromColumns(header: seq<string>, row: Types.Row, f: PartnerField)
    ensures var col := LastColumn(header, f);
            Field(RowRecord(header, row), f) == (if col >= 0 then Trim(Types.TextOrEmpty(Types.CellAt(row, col))) else "")
  {
    RightmostWins(header, row, f);
  }

  /** A field whose only mapped columns lie beyond the end of the row (or that no column maps to) is `''`. */
  lemma ShortRowGivesEmpty(header: seq<string>, row: Types.Row, f: PartnerField)
    requires LastColumn(header, f) < 0 || LastColumn(header, f) >= |row|
    ensures Field(RowRecord(header, row), f) == ""
  {
    RightmostWins(header, row, f);
  }

  /**
   * Columns whose header is not in the dictionary have no effect: two rows
   * whose headers and cells agree on every recognised column give the same item
   * bag, whatever the unrecognised columns hold or are called.
   */
  lemma {:induction false} UnrecognisedColumnsIgnored(h1: seq<string>, h2: seq<string>, row1: Types.Row, row2: Types.Row)
    requires |h1| == |h2|
    requires forall i :: 0 <= i < |h1| && (h1[i] in HeaderMap || h2[i] in HeaderMap) ==>
               h1[i] == h2[i] && Types.CellAt(row1, i) == Types.CellAt(row2, i)
    ensures ItemOf(h1, row1) == ItemOf(h2, row2)
    decreases |h1|
  {
    if h1 != [] {
      var n := |h1| - 1;
      UnrecognisedColumnsIgnored(h1[..n], h2[..n], row1, row2);
    }
  }
}
