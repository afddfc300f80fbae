# Invoice-number matcher: a Dafny model of its reconciliation core

The application reads two order spreadsheets. One is the BOS (fulfilment
system) export and one is the ERP export. It writes a new sheet of the BOS
orders that the ERP knows, each with the ERP's tracking number (`운송장번호`)
and a numeric carrier code (`배송사코드`) filled in. A companion Rust command
filters a member list down to the rows whose mobile number (`휴대폰번호`)
starts with `01`.

This project models both pieces of decision logic as pure functions over
immutable values and proves their properties.

- `wrappers.dfy` (`Wrappers`): `Option` and `Result`.
- `seqs.dfy` (`Seqs`): first-match search (`Array.prototype.find`,
  `Iterator::position`) and order-preserving filter-and-map. `Selected` gives
  the positions of the kept elements, and `FilterMapSelected` ties the output
  to them.
- `cells.dfy` (`Cells`): ExcelJS cell values and their template-literal
  rendering `${value}`, which is how join keys are compared. A number renders
  in decimal and text renders as itself. `true`/`false`, `null` and
  `undefined` render as their names. A formula cell is an object and renders
  `[object Object]`; its cached result is not used.
- `rows.dfy` (`Rows`): a record is a JavaScript object. It is kept as a list
  of fields in key insertion order, so `Object.keys` is `Names`. Assignment
  `Set` overwrites an existing key in place, or appends a new key.
- `worksheet.dfy` (`Worksheet`): `worksheetToJson` over a grid of cells. Row 1
  is the header. ExcelJS skips empty rows and empty cells, and the model says
  so explicitly. A cell is stored only when its header is a string, and a
  later column with the same header overwrites an earlier one.
- `carriers.dfy` (`Carriers`): the 17-entry carrier table. Lookup is exact,
  and `|| 0` turns a miss into code 0.
- `join.dfy` (`Join`): the loop in `processExcel`. Each BOS row takes the
  first ERP row whose rendered `주문상세번호` equals the BOS row's rendered
  `품목별주문번호`. Unmatched rows are dropped. The declared columns are the
  keys of the first BOS data row, read before any enrichment. With no BOS
  data row, `Object.keys(undefined)` throws, modelled as
  `Failure(NoSourceRows)`.
- `phone_filter.dfy` (`PhoneFilter`): `filter_rows`.

The model follows the code in these points:

- The carrier table holds 17 entries, from `CJ대한통운` (2) to `농협택배` (27).
- A formula cell's cached result is not unwrapped before comparison, so a
  formula-valued key never equals the number it shows (`FormulaResultIgnored`),
  and all formula-valued keys equal each other (`FormulaKeysCollide`).
- Keys are compared as rendered text. A numeric key matches a text key only
  when the text is the number's canonical decimal form, so 1001 matches
  "1001" but not "01001" (`NumericMatchesText`).
- The declared output columns are only the first BOS row's keys, in the
  order of that row's columns; the two enrichment columns are declared only
  if that row already had them (`ColumnsIgnoreErp`, `ProcessExcel`).
- A missing field renders as `"undefined"`. A BOS row without an order
  number therefore matches the first ERP row whose detail number renders as
  `"undefined"`: either a row without a detail number, or an earlier row
  whose detail number is the text "undefined" (`MissingKeysMatch`).

## Model

| member | source | states |
|---|---|---|
| `Cells.Render` | src/App.tsx:84 | `${value}` turns a number into canonical decimal text that reads back as that number, leaves text as it is, and turns `null`, booleans and formula objects into text that reads as no number |
| `Cells.DecimalRoundTrip` | src/App.tsx:84 | the decimal text of an integer is in canonical form (no leading zero, no `-0`) and reads back as the same integer |
| `Cells.CanonicalIsDecimal` | src/App.tsx:84 | conversely, every canonical decimal text is the rendering of the integer it reads back as |
| `Cells.NumKeysMatchIff` | src/App.tsx:84 | two numeric keys render to the same string exactly when they are the same number |
| `Cells.NumMatchesTextIff` | src/App.tsx:84 | a number and a text render alike exactly when the text is the number's canonical decimal form |
| `Cells.NumTextKeyExample` | src/App.tsx:84 | the number 1001 renders as "1001", matching that text but not "01001" |
| `Cells.FormulaResultIgnored` | src/App.tsx:84 | a formula cell never renders like its cached numeric result: template-literal rendering does not unwrap it |
| `Cells.FormulaKeysCollide` | src/App.tsx:84 | every formula cell renders to the same string, whatever its formula and result |
| `Rows.Names` | src/App.tsx:77 | `Object.keys` lists one key per field in insertion order, and lists no key twice exactly when the record is well formed |
| `Rows.FieldString` | src/App.tsx:84 | `${row[k]}` is "undefined" exactly when the key is missing or holds the text "undefined", and a numeric field renders as text reading back as its number |
| `Rows.Get` | src/App.tsx:84 | reading a key yields a value exactly when the record has that key, and the value is the one stored under it |
| `Rows.Set` | src/App.tsx:90-91 | after assigning `row[k] = v`, `k` reads back `v`, every other key reads as before, the key list is unchanged or gains `k` at the end, and key uniqueness is kept |
| `Worksheet.RecordUpTo` | src/App.tsx:11-17 | the record of a row holds exactly the keys whose string header sits over a non-empty cell, each once, in the order of the columns where they are first stored, and each with the value of the last such column |
| `Worksheet.KeyedBeforeAsymmetric` | src/App.tsx:11-17 | the first-stored order between two keys is strict, so the key order of a record is fixed by its columns |
| `Worksheet.RecordOrderExample` | src/App.tsx:11-17 | headers "b" then "a" give a record whose keys are "b" then "a" |
| `Worksheet.RecordKeys` | src/App.tsx:12-16 | a key is present exactly when some non-empty cell of the row has that string header |
| `Worksheet.RecordLastWins` | src/App.tsx:12-16 | when several columns share a header, the record holds the value of the last non-empty one |
| `Worksheet.WorksheetToJson` | src/App.tsx:6-22 | a worksheet with at most the header row yields no records, there are never more records than rows after the header, and every record has unique keys |
| `Worksheet.WorksheetToJsonRows` | src/App.tsx:8-19 | row 1 is never emitted; each later row is emitted, in order, exactly when it has a non-empty cell, as the record keyed by row 1 |
| `Worksheet.WorksheetToJsonFirst` | src/App.tsx:8-19 | the first record, when there is one, is the record of the first non-empty row after the header |
| `Carriers.CarrierCode` | src/App.tsx:91 | a listed name gets its table code, any other name gets 0, and the result is always 0 or a table value |
| `Carriers.ListedCodes` | src/App.tsx:24-42 | each of the 17 carrier names gets the code written beside it |
| `Carriers.UnlistedCodes` | src/App.tsx:91 | the empty string, "undefined", an unknown carrier and case or spacing variants all get 0 |
| `Carriers.KnownIffNonZero` | src/App.tsx:91 | the code is non-zero exactly when the name is listed, so the `|| 0` fallback only replaces a miss |
| `Carriers.TableCodesNonZero` | src/App.tsx:24-42 | every table code lies between 2 and 29 |
| `Carriers.CodesDistinct` | src/App.tsx:24-42 | no two listed carriers share a code |
| `Join.Matches` | src/App.tsx:84 | equal stored order numbers, or both missing, always match, and two numeric order numbers match exactly when they are the same number |
| `Join.FindMatch` | src/App.tsx:83-85 | the result is the lowest-positioned ERP row whose rendered detail number equals the BOS row's rendered order number, and nothing is found exactly when no ERP row matches |
| `Join.TrackingOf` | src/App.tsx:90 | the written tracking number is text; a numeric invoice number reads back unchanged, and a missing one becomes "undefined" |
| `Join.CarrierCodeOf` | src/App.tsx:91 | the written carrier code is a number, either 0 or one of the table's codes |
| `Join.WriteBack` | src/App.tsx:90-91 | an enriched row reads the tracking number and the carrier code under the two output keys, and every other key reads as in the BOS row; keys are only appended |
| `Join.Enrich` | src/App.tsx:90-91 | a matched row carries the ERP row's tracking number and carrier code, keeps every other field, and keeps its earlier keys in front |
| `Join.EnrichIfMatched` | src/App.tsx:83-92 | one loop turn yields a row exactly when some ERP row matches, and that row is enriched from the first match |
| `Join.MatchRows` | src/App.tsx:82-93 | the output is never longer than the BOS data, and every output row is the enrichment of some BOS row that has a match |
| `Join.MatchedIndices` | src/App.tsx:82-89 | the kept BOS rows are listed in ascending order, and a BOS row is kept exactly when some ERP row matches it |
| `Join.MatchRowsSpec` | src/App.tsx:82-93 | the k-th output row is the k-th matched BOS row, enriched from the first ERP row matching it: an order-preserving filter-and-map |
| `Join.MatchedRowContents` | src/App.tsx:83-91 | each output row carries the tracking number and carrier code of the first matching ERP row, even when later ERP rows match too, and is otherwise equal to its BOS row |
| `Join.SameKeySameMatch` | src/App.tsx:83-85 | BOS rows whose order numbers render alike are enriched from the same ERP row |
| `Join.MissingKeysMatch` | src/App.tsx:84 | a BOS row without an order number is matched no later than any ERP row without a detail number, because both render "undefined" |
| `Join.NumericKeysMatchIff` | src/App.tsx:84 | numeric order numbers on both sides match exactly when they are equal |
| `Join.NumericMatchesText` | src/App.tsx:84 | a textual order number matches a numeric detail number exactly when the text is that number in canonical decimal form |
| `Join.Reconcile` | src/App.tsx:77-93 | processing fails exactly when there is no BOS data row; otherwise the columns are the first BOS row's keys and the rows are the matched, enriched BOS rows, at most as many as the BOS rows |
| `Join.ColumnsIgnoreErp` | src/App.tsx:77-80 | the declared columns do not depend on the ERP data, and the two enrichment columns are declared only when the first BOS row already had those keys |
| `Join.ProcessExcel` | src/App.tsx:72-93 | the declared columns are the keys of the first non-empty BOS row after the header, in the order of its columns |
| `Join.ProcessExcelFailsIff` | src/App.tsx:72-77 | the whole computation fails exactly when no BOS row after the header has a non-empty cell |
| `PhoneFilter.PhoneColumn` | src-tauri/src/lib.rs:66-67 | the column used is the first header position holding "휴대폰번호", and there is none exactly when the header lacks it |
| `PhoneFilter.KeepRow` | src-tauri/src/lib.rs:73-79 | a row is kept exactly when it has a cell at the phone column whose first two characters are '0' and '1' |
| `PhoneFilter.FilterRows` | src-tauri/src/lib.rs:60-86 | empty input or a header without "휴대폰번호" gives no rows, and otherwise every output row is one of the rows after the header |
| `PhoneFilter.FilterRowsSpec` | src-tauri/src/lib.rs:67-80 | the output is exactly the rows after the header that have a cell at the phone column starting with "01", in their original order |
| `PhoneFilter.KeptRowsAreMobile` | src-tauri/src/lib.rs:73-79 | every kept row has a cell at the phone column, and that cell starts with "01" |

## Left out

- Loading a workbook (`getWorksheetFromFile`): this is ExcelJS parsing I/O. The worksheet is a parameter, a grid of cell values.
- Writing the workbook and the `download_file` call with its timestamped file name: these are library output, host I/O and wall-clock time. `Join.Table` states only the declared columns and the rows handed to `addRow`. ExcelJS writes only the declared columns of each row, and that is library behaviour.
- The React component, its refs and its form: UI.
- Property reads through the JavaScript prototype chain, such as `DILIVERY_CODE_MAP["constructor"]`. The table is a closed finite map.
- The order of `Object.keys` for keys that look like array indices, which JavaScript lists first in numeric order. The model lists every key in insertion order.
- Numbers that are not integers, precision loss above 2^53, and the exponent notation JavaScript uses from 10^21 up. `Cells.Num` holds an integer, rendered in plain decimal.
- Date, rich-text, hyperlink and error cell values. Only formula cells stand for object-valued cells.
- In the Rust command: `process_excel_from_upload`, which handles temporary files, `HOME` and the Downloads path; `get_first_sheet`, which handles calamine and the file system and turns cells into strings; `make_excel_from_json`, which calls xlsxwriter; and `run`, the Tauri bootstrap. `filter_rows` receives the strings directly.
- `str::starts_with` compares UTF-8 bytes, while the model compares characters. The two agree for the ASCII prefix "01".
- Running the reconciliation twice on the same input gives the same output. Every member is a pure function, so no lemma states this.
