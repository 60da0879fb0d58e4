# Copay table and partner directory: a Dafny model

This project models the logic of a small web application for a health plan
(the "Sami" copay page). The application has two data sources, both
spreadsheets, and the views that query them.

- The **copay table** holds one `ProcedureData` record per procedure: code,
  classification, copay flag, exemption rule, percentage, preferred provider
  and plan. It is built from a spreadsheet grid by `formatSheetData`. The page
  filters it by classification, copay and plan, plus a case-insensitive text
  search. The distinct classifications and plans fill the filter selects.
  The table sorts by any column, and only columns that hold some value are
  shown.
- The **partner directory** holds one `PartnerData` record per partner: name,
  type, network tier and plan. It is built by `formatPartnerData`. It is split
  into a hospital list and a laboratory list. Each list appears only once a
  plan is chosen and can be narrowed by a name search. Each list is shown in a
  table that puts the `Preferencial` tier first.

The model is organised by source file:

| module | source file | form |
|---|---|---|
| `GetPartners` | api/getPartners.ts | pure pipeline; the per-row `header.forEach` is a method with a loop |
| `GetProcedures` | api/getProcedures.ts | pure pipeline; the guarded per-row copy is a method with a loop, modelled as written and as intended |
| `FilterUtils` | src/utils/filterUtils.ts | `getUniqueValues` is a method with a loop; `filterData` is a function |
| `Table` | src/components/Table.tsx | a class for the sort state; methods with loops for `columnsWithValues`; pure comparator and render priority |
| `PartnerTable` | src/components/PartnerTable.tsx | a class for the sort configuration; pure comparator and render priority |
| `PartnersSection` | src/components/PartnersSection.tsx | pure functions |
| `Filters` | src/components/Filters.tsx | pure functions |
| `App` | src/App.tsx | a class for the page state; pure merge and derived values |

Three shared modules hold the JavaScript semantics these files rely on:

- `JsStrings` covers `trim`, `toLowerCase`, `includes`, the code-point order that stands for `<`, `sort()` and `localeCompare`, `String(n)`, `Number(s)`, and the zero test of `parseFloat`.
- `Seqs` covers `Array.prototype.filter`, subsequences, and `[...data].sort(cmp)`. The sort is a stable insertion sort on a fresh array.
- `Types` covers the records, spreadsheet cells, JavaScript truthiness and `Partial<FilterState>`.

Spreadsheet cells are text, integers or booleans. A cell past the end of a row
is `None`, which is JavaScript's `undefined`.

## Model

| member | source | states |
|---|---|---|
| JsStrings.TrimIsTrimmed | api/getPartners.ts:37-40 | `trim` leaves no whitespace at either end, and trimming again changes nothing |
| JsStrings.Trim | api/getPartners.ts:37-40 | the result has no whitespace at either end and is no longer than the input |
| JsStrings.TrimPadded | api/getPartners.ts:17 | whitespace of any length around trimmed text is removed, and the text itself is kept |
| JsStrings.TrimEmptyIff | src/components/PartnersSection.tsx:43 | `trim` gives `''` exactly when the text is all whitespace |
| JsStrings.Lower | src/utils/filterUtils.ts:34-38 | `toLowerCase`, defined letter by letter; what it means is stated by `JsStrings.LowerMeaning` and `JsStrings.LowerIgnoresCase` |
| JsStrings.LowerMeaning | src/utils/filterUtils.ts:34-38 | `toLowerCase` leaves no upper-case letter, changes the text exactly when it holds one, and is idempotent |
| JsStrings.LowerIgnoresCase | api/getProcedures.ts:50 | `TRUE` and `True` both lowercase to `true`, and `Hospital` to `hospital` |
| JsStrings.Includes | src/utils/filterUtils.ts:36-38 | a text only includes substrings no longer than itself |
| JsStrings.IncludesAt | src/utils/filterUtils.ts:36-38 | `includes` holds exactly when the substring occurs at some position |
| JsStrings.LexLessStrictTotalOrder | src/utils/filterUtils.ts:12 | the default order of `sort()` is irreflexive, asymmetric, transitive and total |
| JsStrings.LocaleCompare | src/components/Table.tsx:86-88 | negative exactly when `a` sorts first, zero exactly when equal, positive exactly when `b` sorts first |
| JsStrings.SortedFromSet | src/utils/filterUtils.ts:12 | `Array.from(set).sort()` is strictly increasing and holds exactly the set's elements, once each |
| JsStrings.StrictlyIncreasingUnique | src/utils/filterUtils.ts:12 | two strictly increasing lists with the same elements are equal, so the sorted list of distinct values is unique |
| JsStrings.IntToString | api/getProcedures.ts:48 | `String(n)` of an integer is non-empty decimal text that ends in a digit and starts with `-` exactly for negatives |
| JsStrings.NumberOfIntToString | api/getProcedures.ts:52 | `Number(String(n)) == n` for every integer |
| JsStrings.StringToNumber | api/getProcedures.ts:52 | `Number` of empty or whitespace-only text is 0 |
| JsStrings.DigitPrefix | src/components/Table.tsx:51 | the longest run of leading digits, as `parseFloat` scans it |
| JsStrings.LeadingNumeralIsZero | src/components/Table.tsx:51-56 | `parseFloat` can give zero only for non-empty text (`parseFloat('')` is NaN) |
| Seqs.Filter | src/utils/filterUtils.ts:16 | `filter` keeps, in order, exactly the elements that pass, with their multiplicities |
| Seqs.SubsequenceTransitive | src/components/PartnersSection.tsx:38-47 | a filter of a filter is a subsequence of the original |
| Seqs.FilterAllPass | src/utils/filterUtils.ts:42 | a filter every element passes is the identity |
| Seqs.FilterNarrows | src/utils/filterUtils.ts:33-40 | a stricter filter keeps a subsequence of what a looser one keeps |
| Seqs.SortInPlace | src/components/PartnerTable.tsx:25-38 | `sort` with a consistent comparator leaves the array ordered, a stable permutation of its old contents, and unchanged when already ordered |
| Seqs.SortCopy | src/components/PartnerTable.tsx:23-25 | `[...data].sort(cmp)` returns an ordered, stable permutation of `data`, and `data` itself when already ordered |
| Types.CellString | api/getPartners.ts:17 | `String(c)` is the text of a text cell, non-empty for a number, and `"true"` exactly for boolean `true` |
| Types.TextOrEmpty | api/getPartners.ts:37-40 | `String(x \|\| '')` is `''` exactly for a falsy or missing cell, and otherwise the text of a text cell |
| Types.CellAt | api/getPartners.ts:32 | `row[index]`, `undefined` past the end; how a record field follows from it is stated by `GetPartners.PartnerFieldsFromColumns` and `GetPartners.ShortRowGivesEmpty` |
| Types.HeaderNames | api/getPartners.ts:17 | name `i` is the trimmed `String` of header cell `i`, with no whitespace at either end |
| Types.PaddedHeaderName | api/getProcedures.ts:21 | a header cell padded with whitespace yields the bare name, so padded headers still match the dictionary |
| Types.Get | src/types/index.ts:1-9 | `item[key]` is a boolean only for the copay flag and a number only for the percentage |
| Types.Touched | src/types/index.ts:11-16 | a `Partial<FilterState>` carries exactly the fields that are set |
| Types.Flip | src/components/Table.tsx:21 | flipping always changes the direction |
| GetPartners.LastColumn | api/getPartners.ts:29-34 | the rightmost column whose header maps to a field, and none to its right does |
| GetPartners.ItemOf | api/getPartners.ts:28-34 | the item holds only fields that some column maps to |
| GetPartners.RightmostWins | api/getPartners.ts:29-34 | a field is in the item exactly when some column maps to it, and it holds the cell of the rightmost such column |
| GetPartners.FillItem | api/getPartners.ts:28-34 | the per-row `forEach` builds that item |
| GetPartners.FieldText | api/getPartners.ts:37-40 | each field is trimmed; `''` when the cell is missing or falsy; the trimmed text when the cell is truthy text |
| GetPartners.RowRecord | api/getPartners.ts:36-42 | all four fields of a mapped row are trimmed; what each field holds is stated by `GetPartners.PartnerFieldsFromColumns` |
| GetPartners.MappedRows | api/getPartners.ts:27-43 | `dataRows.map`, one record per data row; what each record holds is stated by `GetPartners.PartnerFieldsFromColumns`, and the filter over it by `GetPartners.FormatPartnerData` |
| GetPartners.PartnerFieldsFromColumns | api/getPartners.ts:27-42 | each field of a row's record is the trimmed text of the cell in the rightmost column mapped to it, or `''` when there is no such column or the cell is missing or falsy |
| GetPartners.PresentRecords | api/getPartners.ts:45 | exactly the mapped records whose name and type are non-empty, in order and with their multiplicity, all fields trimmed |
| GetPartners.FormatPartnerData | api/getPartners.ts:12-46 | fewer than two rows give `[]`; otherwise exactly the mapped rows, in order and with their multiplicity, whose name and type are non-empty, all fields trimmed |
| GetPartners.ShortRowGivesEmpty | api/getPartners.ts:37-40 | a field whose column lies past the end of the row, or that no column maps to, is `''` |
| GetPartners.UnrecognisedColumnsIgnored | api/getPartners.ts:30-32 | columns whose header is not in the dictionary have no effect on the item |
| GetProcedures.FieldName | api/getProcedures.ts:26-36 | no property name is a header name of the dictionary |
| GetProcedures.KeyAsWritten | api/getProcedures.ts:41 | `headerMap[colName] || colName` is the property name for a known header and the header itself otherwise; either way it is never a key of the dictionary |
| GetProcedures.ItemAsWritten | api/getProcedures.ts:39-45 | the guard `key in headerMap` never holds, so the item stays empty |
| GetProcedures.FillItemAsWritten | api/getProcedures.ts:39-45 | the per-row `forEach` as written builds the empty item |
| GetProcedures.ItemIntended | api/getProcedures.ts:39-45 | with the intended guard the item holds only property names, never a header name |
| GetProcedures.LastColumn | api/getProcedures.ts:40-45 | the rightmost column whose header maps to a field |
| GetProcedures.ItemIntendedColumns | api/getProcedures.ts:40-45 | with the intended guard, a property is present exactly when some column maps to it, and it holds the rightmost such cell |
| GetProcedures.FillItemIntended | api/getProcedures.ts:39-45 | the per-row `forEach` with the intended guard builds that item |
| GetProcedures.CopayFlag | api/getProcedures.ts:50 | true exactly for boolean `true` or text that lowercases to `"true"`; `'sim'` is false |
| GetProcedures.CopayFlagSpellings | api/getProcedures.ts:50 | `TRUE`, `True` and boolean `true` are true; `sim`, `Sim`, the number 1, boolean `false` and a missing cell are false |
| GetProcedures.PercentValue | api/getProcedures.ts:52 | `Number(x) || 0`; what it gives for numbers, integer text, blank or missing cells and `25%` is stated by `GetProcedures.PercentValueExamples` |
| GetProcedures.PercentValueExamples | api/getProcedures.ts:52 | a number is kept; the decimal text of an integer reads back as it; blank text, a missing cell and `25%` give 0 |
| GetProcedures.PercentSignNotNumber | api/getProcedures.ts:52 | text that starts with a digit and ends with `%` is NaN for `Number` |
| GetProcedures.Coerce | api/getProcedures.ts:47-55 | the code is non-empty exactly when its cell is truthy |
| GetProcedures.MappedRowsAsWritten | api/getProcedures.ts:38-55 | `dataRows.map` with the guard as written; `GetProcedures.FormatSheetDataIsAlwaysEmpty` states that every record it yields lacks a code |
| GetProcedures.MappedRowsIntended | api/getProcedures.ts:38-55 | `dataRows.map` with the intended guard; what each record holds is stated by `GetProcedures.IntendedFieldsFromColumns` |
| GetProcedures.FormatSheetData | api/getProcedures.ts:15-57 | fewer than two rows give `[]`; otherwise an in-order subsequence holding exactly the mapped rows that have a code |
| GetProcedures.FormatSheetDataIsAlwaysEmpty | api/getProcedures.ts:38-56 | as written, every grid gives `[]` |
| GetProcedures.FormatSheetDataIntended | api/getProcedures.ts:15-57 | with the intended guard: fewer than two rows give `[]`; otherwise exactly the mapped rows, in order and with their multiplicity, that have a code |
| GetProcedures.IntendedFieldsFromColumns | api/getProcedures.ts:48-54 | with the intended guard, a string field is the text of its rightmost truthy cell, and `''` otherwise |
| GetProcedures.IntendedFlagAndPercentFromColumns | api/getProcedures.ts:50-52 | with the intended guard, the copay flag and the percentage are `CopayFlag` and `PercentValue` of the rightmost cell mapped to them, or of `undefined` when there is none |
| GetProcedures.SampleSheetRecords | api/getProcedures.ts:41-56 | on a two-row sheet, the intended guard keeps the coded row and the guard as written keeps nothing |
| FilterUtils.GetUniqueValues | src/utils/filterUtils.ts:3-13 | strictly increasing; exactly the string values of the field; `[]` for the boolean and number fields |
| FilterUtils.Matches | src/utils/filterUtils.ts:16-43 | an item that passes satisfies every active facet; without a query, passing is exactly satisfying the facets |
| FilterUtils.MatchesIff | src/utils/filterUtils.ts:16-43 | an item passes exactly when every active facet holds and, for a non-empty query, the query occurs in its code, classification or exemption rule |
| FilterUtils.FilterData | src/utils/filterUtils.ts:15-44 | an in-order subsequence holding exactly the items that pass, each as often as in the input |
| FilterUtils.UnconstrainedKeepsAll | src/utils/filterUtils.ts:18-42 | with no facet and no query the input comes back unchanged |
| FilterUtils.SearchNarrows | src/utils/filterUtils.ts:33-42 | adding a query to an empty one only removes items |
| Table.Clicked | src/components/Table.tsx:19-26 | clicking sets the field; the sorted field flips, any other starts ascending |
| Table.ClickTwice | src/components/Table.tsx:19-26 | two clicks on the sorted field restore the state; on another field they give descending |
| Table.KeyOf | src/components/Table.tsx:70-84 | the sort key of a value; the orders it induces are stated by `Table.CopayOrder`, `Table.PercentOrder` and `Table.TextOrder` |
| Table.KeyCompare | src/components/Table.tsx:73-88 | zero exactly for equal keys; numbers compare by value and texts by the code-point order |
| Table.Compare | src/components/Table.tsx:69-89 | zero exactly when the keys agree; negative when `a` goes first: by value for the percentage, `false` first ascending for the copay flag, lowercased text order otherwise, each reversed when descending |
| Table.KeyLeTotalPreorder | src/components/Table.tsx:73-88 | the key comparison is total and transitive |
| Table.RowLeTotalPreorder | src/components/Table.tsx:69-89 | the row comparator is consistent for either field and direction |
| Table.CopayOrder | src/components/Table.tsx:73-77 | sorted by copay: `false` before `true` ascending, the reverse descending |
| Table.PercentOrder | src/components/Table.tsx:79-81 | sorted by percentage: values ascending or descending as asked |
| Table.TextOrder | src/components/Table.tsx:83-88 | sorted by a text column: lowercased texts in order, ascending or descending |
| Table.ProcedureTable.constructor | src/components/Table.tsx:16-17 | starts unsorted, ascending |
| Table.ProcedureTable.HandleSort | src/components/Table.tsx:19-26 | the new state is the click transition of the old one |
| Table.ProcedureTable.SortedData | src/components/Table.tsx:66-90 | with no field, the rows themselves; otherwise an ordered, stable permutation of the rows |
| Table.ColumnsWithValues | src/components/Table.tsx:29-64 | no entry without rows; otherwise every column, shown exactly when it is not the plan column and some row has a value in it |
| Table.HasValue | src/components/Table.tsx:51-56 | a boolean always shows its column, a number exactly when non-zero, and `''` never |
| Table.MarkRow | src/components/Table.tsx:44-60 | one row switches on exactly the columns, except the plan's, in which it has a value |
| Table.CopayColumnShown | src/components/Table.tsx:35-59 | with any row, the copay column is shown; the plan column never is |
| Table.IntegerTextShown | src/components/Table.tsx:51-56 | the text of an integer shows its column exactly when the integer is non-zero |
| Table.NumeralZeroIff | src/components/Table.tsx:51 | `parseFloat` of a run of digits, possibly signed, is zero exactly when every digit is `0` |
| Table.Render | src/components/Table.tsx:101-138 | skeleton while loading, then the prompt without a plan, then the no-results notice, then the rows; each screen exactly under its condition |
| PartnerTable.Clicked | src/components/PartnerTable.tsx:43-49 | descending exactly when the clicked key was sorted ascending; ascending otherwise |
| PartnerTable.ClickSameKey | src/components/PartnerTable.tsx:43-49 | clicking the current key flips its direction, and two clicks restore it |
| PartnerTable.Compare | src/components/PartnerTable.tsx:25-38 | a `Preferencial` row goes before any other; within a tier, by the key text in the chosen direction; zero exactly for the same tier and key text |
| PartnerTable.RowLeIff | src/components/PartnerTable.tsx:25-38 | a row goes first exactly when it is in a better tier, or in the same tier and in key order |
| PartnerTable.RowLeTotalPreorder | src/components/PartnerTable.tsx:25-38 | the comparator is consistent |
| PartnerTable.PreferentialFirst | src/components/PartnerTable.tsx:27-28 | sorted, every `Preferencial` row precedes every other row |
| PartnerTable.WithinTierOrder | src/components/PartnerTable.tsx:31-37 | sorted, rows of one tier are in key order, ascending or descending |
| PartnerTable.PartnerTableView.constructor | src/components/PartnerTable.tsx:20 | starts sorted by partner name, ascending |
| PartnerTable.PartnerTableView.HandleSort | src/components/PartnerTable.tsx:43-49 | the configuration becomes the click transition of the old one, never null |
| PartnerTable.PartnerTableView.SortedData | src/components/PartnerTable.tsx:22-41 | an ordered, stable permutation of the rows |
| PartnerTable.DefaultEmptyMessage | src/components/PartnerTable.tsx:68 | the fixed sentence around the lowercased title |
| PartnerTable.Render | src/components/PartnerTable.tsx:51-75 | loading first, then the empty notice (the given message or the default), then the listing |
| PartnersSection.UniquePlansFromPartners | src/components/PartnersSection.tsx:26-30 | one option per distinct plan, strictly increasing, label equal to value |
| PartnersSection.Options | src/components/PartnersSection.tsx:29 | `.map(plan => ({ value: plan, label: plan }))`; what the options offer is stated by `PartnersSection.UniquePlansFromPartners` |
| PartnersSection.Bucket | src/components/PartnersSection.tsx:32-68 | empty without a plan; otherwise exactly the partners of the kind on the plan, narrowed by a non-blank query, in order and with their multiplicity |
| PartnersSection.HospitalData | src/components/PartnersSection.tsx:32-49 | empty without a plan; otherwise exactly the hospitals on the chosen plan whose name matches a non-blank query, in order and with their multiplicity |
| PartnersSection.LaboratoryData | src/components/PartnersSection.tsx:51-68 | empty without a plan; otherwise exactly the laboratories, either spelling, on the chosen plan whose name matches a non-blank query, in order and with their multiplicity |
| PartnersSection.BucketsDisjoint | src/components/PartnersSection.tsx:38-57 | no partner is in both lists |
| PartnersSection.BlankQueryIgnored | src/components/PartnersSection.tsx:43-47 | a whitespace-only query narrows nothing |
| PartnersSection.QueryNarrows | src/components/PartnersSection.tsx:43-47 | a query only removes partners |
| PartnersSection.EmptyMessage | src/components/PartnersSection.tsx:120 | a table gets a prompt exactly while no plan is chosen |
| PartnersSection.HospitalTableAsksForPlan | src/components/PartnersSection.tsx:116-121 | without a plan, the loaded hospital table shows its prompt |
| PartnersSection.LaboratoryTableAsksForPlan | src/components/PartnersSection.tsx:158-163 | without a plan, the loaded laboratory table shows its prompt |
| Filters.ShownChoice | src/components/Filters.tsx:43 | the select shows the first choice, or `''` |
| Filters.ChosenList | src/components/Filters.tsx:44-48 | `''` gives `[]`; any other value gives the one-element list of it |
| Filters.ChoiceRoundTrip | src/components/Filters.tsx:43-48 | a chosen option reads back from the select |
| Filters.ListRoundTrip | src/components/Filters.tsx:43-48 | a list the select can produce is rebuilt from what it shows |
| Filters.EncodeCopay | src/components/Filters.tsx:64 | `''` exactly for no constraint |
| Filters.DecodeCopay | src/components/Filters.tsx:65-69 | `''` is no constraint, `'true'` is true, anything else false |
| Filters.CopayRoundTrip | src/components/Filters.tsx:64-69 | every copay constraint survives display and read-back |
| Filters.CopayOptionsRoundTrip | src/components/Filters.tsx:64-75 | the three options read back to themselves |
| Filters.SearchChanged | src/components/Filters.tsx:31-32 | touches only the query, set verbatim |
| Filters.ClassificationChanged | src/components/Filters.tsx:44-48 | touches only the classification facet |
| Filters.CopayChanged | src/components/Filters.tsx:65-69 | touches only the copay facet |
| Filters.PlanChanged | src/components/Filters.tsx:83-87 | touches only the plan facet |
| Filters.Reset | src/components/Filters.tsx:103-108 | sets all four fields to their unconstrained values |
| App.Merge | src/App.tsx:43-48 | each field the update carries overwrites the old one; the others are kept |
| App.MergeKeepsUntouched | src/App.tsx:43-48 | fields outside the update are unchanged |
| App.MergeLaws | src/App.tsx:43-48 | an empty update is the identity, and merging twice equals merging once |
| App.ControlsChangeOneFacet | src/App.tsx:43-48 | each control's update changes its own facet only |
| App.ResetShowsAll | src/App.tsx:23 | after reset the filters are unconstrained and every record is listed |
| App.ChoiceIsShown | src/App.tsx:77-82 | after a choice, the classification or plan select shows it |
| App.AppState.constructor | src/App.tsx:10-18 | no records, loading, no error, unconstrained filters |
| App.AppState.HandleFilterChange | src/App.tsx:43-48 | the filters become the merge; nothing else changes |
| App.AppState.LoadData | src/App.tsx:25-41 | success replaces the records and clears the error; failure keeps them and sets the message; loading ends either way |
| App.AppState.Classifications | src/App.tsx:21 | `[]` without records; otherwise the distinct classifications, strictly increasing |
| App.AppState.Plans | src/App.tsx:22 | `[]` without records; otherwise the distinct plans, strictly increasing |
| App.AppState.FilteredData | src/App.tsx:23 | exactly the records that pass the facets and the search, in order and with their multiplicity; all of them while unconstrained |
| App.TableAlwaysPrompts | src/App.tsx:92 | the table is given no plan, so once loaded it always shows the select-a-plan prompt |

The record coercion of api/getProcedures.ts:47-55 is only ever fed a cell by the intended guard. As written, the guard never copies a cell, so the coercion sees `undefined` for every field: the flag is false, the percentage is 0 and every row is dropped (see "## Findings"). Fed through the intended guard, the coercion behaves as follows:

- The copay flag accepts only boolean `true` and text reading `true` in any letter case. `'sim'` reads as false (`GetProcedures.CopayFlagSpellings`).
- The percentage is `Number(x) || 0`, so text such as `'25%'` gives 0 (`GetProcedures.PercentValueExamples`).
- Procedure fields are not trimmed. A code made of spaces is truthy, so its row would be kept (`GetProcedures.Coerce`, `GetProcedures.FormatSheetDataIntended`).

## Left out

- The HTTP handlers of api/getPartners.ts and api/getProcedures.ts are not modelled. This covers environment variables, the spreadsheet request, status codes and headers. The fetch wrappers in src/services/api.ts are not part of this model.
- `App.AppState.LoadData` takes the fetch outcome as a parameter. The asynchronous effect, races between fetches and `console.error` are left out.
- JSX markup, class names, the sort icons, the record count text, the back-to-top link, and the Hero, Header and Footer components are left out.
- Table.tsx reads the columns `procedimento` and `valorLimitador`, which `ProcedureData` lacks. They are treated as never present.
- The `!data` and `!partnersData` guards against `undefined` are left out. Data is always a sequence here.
- Header dictionaries are finite maps. Object-prototype quirks of `headerMap[...]` and `in` are not modelled.
- JsStrings.Lower: covers Basic Latin and Latin-1 upper-case letters only, not the full Unicode case mapping.
- JsStrings.StringToNumber: reads signed decimal integer numerals only. Fractions (`'2.5'`), exponents (`'1e3'`), hexadecimal (`'0x10'`), `'Infinity'` and a trailing point (`'5.'`) give `None`, which stands for NaN, so `GetProcedures.PercentValue` gives 0 where the source gives the number.
- JsStrings.LeadingNumeralIsZero: states only whether `parseFloat` gives zero, which is all the column test uses. It does not compute the float, so a non-zero mantissa whose value underflows to zero (`'1e-400'`) counts as non-zero here although `parseFloat` gives 0.
- JsStrings.LocaleCompare: uses the code-point order instead of locale collation.
- JsStrings.LexLess: compares code points, while JavaScript's `<` and default `sort()` compare UTF-16 code units. The two orders differ only when a character above U+FFFF meets one from U+E000 to U+FFFF: U+1F600 sorts after U+FF5E here and before it in JavaScript.
- Table.KeyCompare: a number key sorts before a text key. This keeps the comparison total, but no column mixes the two.

## Findings

| source | as written | input that shows it | evidently intended | confidence | as-written member | corrected member |
|---|---|---|---|---|---|---|
| api/getProcedures.ts:41-42 | The guard tests the mapped property name (`'codigoProcedimento'`) against the header-name keys, so it never holds. No cell is copied, every code is `''` and every row is dropped. | `SampleSheet`: header `Código`, `Nome do Plano`; rows `P1`, `Plano A` and `''`, `Plano B` | Copy every cell whose trimmed header is in the dictionary, under its property name. This gives one record, code `P1`, plan `Plano A`. | not executed | GetProcedures.FormatSheetDataIsAlwaysEmpty | GetProcedures.FormatSheetDataIntended |
