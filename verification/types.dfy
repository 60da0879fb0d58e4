/**
 * The records the copay table works with (`ProcedureData`, `FilterState`), the
 * cells of a spreadsheet grid as the sheet normalisers receive them, and the
 * JavaScript coercions (`String(x)`, truthiness) they apply to those cells.
 */
module Types {
  import opened JsStrings

  // ---------------------------------------------------------------------------
  // Spreadsheet cells
  // ---------------------------------------------------------------------------

  /** A cell value of the sheet grid. A cell beyond the end of a row is `None` (JavaScript `undefined`). */
  datatype Cell = Text(text: string) | Number(n: int) | Boolean(b: bool)

  type Row = seq<Cell>
  type Grid = seq<Row>

  /** `String(c)`. */
  function CellString(c: Cell): (r: string)
    ensures c.Text? ==> r == c.text
    ensures c.Number? ==> |r| > 0
    ensures c.Boolean? ==> (r == "true" <==> c.b)
  {
    match c
    case Text(s) => s
    case Number(n) => IntToString(n)
    case Boolean(b) => if b then "true" else "false"
  }

  /** JavaScript truthiness of a cell; `undefined` is falsy. */
  predicate Truthy(c: Option<Cell>) {
    match c
    case None => false
    case Some(Text(s)) => s != ""
    case Some(Number(n)) => n != 0
    case Some(Boolean(b)) => b
  }

  /** `String(c || '')`: the text of a truthy cell, and the empty string otherwise. */
  function TextOrEmpty(c: Option<Cell>): (r: string)
    ensures r == "" <==> !Truthy(c)
    ensures Truthy(c) && c.value.Text? ==> r == c.value.text
  {
    if Truthy(c) then CellString(c.value) else ""
  }

  /** The cell at column `i` of a row, or `None` past its end. */
  function CellAt(row: Row, i: int): (r: Option<Cell>)
    ensures r.Some? <==> 0 <= i < |row|
    ensures r.Some? ==> r.value == row[i]
  {
    if 0 <= i < |row| then Some(row[i]) else None
  }

  /** `values[0].map(h => String(h).trim())`: the header names of a grid's first row. */
  function HeaderNames(headerRow: Row): (r: seq<string>)
    ensures |r| == |headerRow|
    ensures forall i :: 0 <= i < |r| ==> IsTrimmed(r[i]) && r[i] == Trim(CellString(headerRow[i]))
  {
    seq(|headerRow|, i requires 0 <= i < |headerRow| => Trim(CellString(headerRow[i])))
  }

  /**
   * A header cell holding a name padded with whitespace on either side gives
   * that name, so it is recognised exactly as the unpadded name would be.
   */
  lemma PaddedHeaderName(headerRow: Row, i: int, before: string, name: string, after: string)
    requires 0 <= i < |headerRow| && headerRow[i] == Text(before + name + after)
    requires AllWhitespace(before) && AllWhitespace(after) && IsTrimmed(name)
    ensures HeaderNames(headerRow)[i] == name
  {
    TrimPadded(before, name, after);
  }

  // ---------------------------------------------------------------------------
  // Procedure records
  // ---------------------------------------------------------------------------

  datatype ProcedureData = ProcedureData(
    codigoProcedimento: string,
    classificacao: string,
    coparticipacao: bool,
    regraIsencao: string,
    percentualProcedimento: int,
    preferencialCredenciada: string,
    nomePlano: string)

  /** `keyof ProcedureData`. */
  datatype ProcedureField =
    | CodigoProcedimento | Classificacao | Coparticipacao | RegraIsencao
    | PercentualProcedimento | PreferencialCredenciada | NomePlano

  /** The value of a record's field, tagged with its JavaScript type. */
  datatype FieldValue = Str(s: string) | Num(n: int) | Bool(b: bool)

  /** `item[key]`: the two non-string fields give a number and a boolean, the rest strings. */
  function Get(item: ProcedureData, key: ProcedureField): (v: FieldValue)
    ensures v.Bool? <==> key == Coparticipacao
    ensures v.Num? <==> key == PercentualProcedimento
  {
    match key
    case CodigoProcedimento => Str(item.codigoProcedimento)
    case Classificacao => Str(item.classificacao)
    case Coparticipacao => Bool(item.coparticipacao)
    case RegraIsencao => Str(item.regraIsencao)
    case PercentualProcedimento => Num(item.percentualProcedimento)
    case PreferencialCredenciada => Str(item.preferencialCredenciada)
    case NomePlano => Str(item.nomePlano)
  }

  // ---------------------------------------------------------------------------
  // Filter state
  // ---------------------------------------------------------------------------

  /** `FilterState`; `coparticipacao` is `None` for JavaScript `null` (no copay constraint). */
  datatype FilterState = FilterState(
    classificacao: seq<string>,
    coparticipacao: Option<bool>,
    nomePlano: seq<string>,
    searchQuery: string)

  /** `Partial<FilterState>`: each field is either absent (`None`) or carries its new value. */
  datatype FilterUpdate = FilterUpdate(
    classificacao: Option<seq<string>>,
    coparticipacao: Option<Option<bool>>,
    nomePlano: Option<seq<string>>,
    searchQuery: Option<string>)

  /** The state in which no filter constrains anything. */
  const Unconstrained := FilterState([], None, [], "")

  const NoChange := FilterUpdate(None, None, None, None)

  /** The names of the four `FilterState` fields. */
  datatype FilterKey = ClassificacaoKey | CoparticipacaoKey | NomePlanoKey | SearchQueryKey

  /** The fields an update carries. */
  function Touched(u: FilterUpdate): (keys: set<FilterKey>)
    ensures ClassificacaoKey in keys <==> u.classificacao.Some?
    ensures CoparticipacaoKey in keys <==> u.coparticipacao.Some?
    ensures NomePlanoKey in keys <==> u.nomePlano.Some?
    ensures SearchQueryKey in keys <==> u.searchQuery.Some?
  {
    (if u.classificacao.Some? then {ClassificacaoKey} else {})
    + (if u.coparticipacao.Some? then {CoparticipacaoKey} else {})
    + (if u.nomePlano.Some? then {NomePlanoKey} else {})
    + (if u.searchQuery.Some? then {SearchQueryKey} else {})
  }

  // ---------------------------------------------------------------------------
  // Sort direction
  // ---------------------------------------------------------------------------

  /** `'asc' | 'desc'`, the sort direction of both tables. */
  datatype Direction = Asc | Desc

  function Flip(d: Direction): (r: Direction)
    ensures r != d
  {
    if d == Asc then Desc else Asc
  }
}
