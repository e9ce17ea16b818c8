# Salary slip generator: the scan and export pipeline in Dafny

This project models the core of the salary slip generator in `src/App.jsx`:

- **The scan (`processScan`).** It turns the rows imported from a spreadsheet
  into a preview list of salary slips. It parses the comma-separated list of
  target names (or the wildcard `*`). It selects the rows that have a cell
  equal to a target after trimming and lower-casing. It resolves each
  requested field in two phases: first an exact key of the first selected
  row, then a search over the values of all imported rows that stops at the
  first row holding a match. Finally it builds one `{name, stats}` slip per
  selected row.
- **The slip table (inside `createEmployeeDoc`).** Up to twelve stats give a
  `Description | Value` table with one row per stat. More stats are folded
  into `ceil(n/2)` rows that pair stat `i` with stat `i + half`.
- **The export (`createEmployeeDoc`, `generateBulkPDF`).**
  - There is one page per slip, and `addPage` is called only after the first.
  - Each page carries the counter `index+1 / total`.
  - A vertical cursor starts below the wrapped header and steps down to where
    the table starts.
  - The batch document is saved once under a dated name.

Modules, in dependency order:

- `Wrappers`: `Option`.
- `JsText`: the JavaScript string operations the pipeline relies on.
  - `trim`, with the full ECMAScript white-space set.
  - `toLowerCase` and `toUpperCase`.
  - `split` and `join`.
  - `startsWith`.
  - Decimal printing of counts.
- `JsArray`: `filter`, `map`, `find`, and the first-hit loop with `break`.
- `Records`: cells, with JavaScript's `String(v)` and falsiness; rows as ordered entries; `Object.keys` and `row[key]`.
- `Matcher`: target parsing, row selection and field resolution.
- `Slips`: slip names and stats.
- `Layout`: the slip table.
- `Export`: the jsPDF document as a class, the page drawn for one slip, and the batch pages.
- `App`: the log lines, the pure `Scan`, and the application state as a class with the imperative `processScan` and `generateBulkPDF`.

How the code is modelled:

- **Pure comprehensions are functions.** Target parsing, the row filter, the
  `find` calls, the mapping filter and the slip `map` are written as
  functions, and lemmas state what they mean.
- **The value-search loop is a method.** The loop with `break` is
  `JsArray.FirstFoundLoop`, and `Matcher.ResolveFieldLoop` uses it.
- **Functions specify the methods.** `Matcher.ResolveFieldLoop`,
  `App.MapFields`, `Layout.BuildTable`, `Export.CreateEmployeeDoc` and the
  `App.AppState` methods change state or run loops. Each is proved equal to
  a specification function: `ResolveField`, `FieldMappings`, `TableFor`,
  `PageOps`, `Scan` and `BulkPages`.
- **Properties are lemmas.** The properties of those specification functions
  are proved as lemmas.

Three behaviours of the code are easy to misread, and the model follows the
code in each:

- **Falsy names.** The slip name falls back to `"Unknown"` both when no value
  qualifies and when the value found is falsy (an empty string, `0`, `NaN`,
  `false`).
- **Trimmed labels.** A label found by the value search is the trimmed cell
  text, not the raw cell.
- **Placeholder columns.** Without requested fields, only keys starting with
  `_EMPTY_` are excluded, so the scan keeps blank-header columns such as
  `__EMPTY` (see Findings). The corrected column test is modelled beside it
  as `Slips.IntendedDefaultStats`, which the scan does not use.

## Model

| member | source | states |
|---|---|---|
| JsText.TrimStartSpec | src/App.jsx:242 | `trimStart` keeps exactly the suffix of `s` from its first non-white-space character |
| JsText.TrimEndSpec | src/App.jsx:242 | `trimEnd` keeps exactly the prefix of `s` up to its last non-white-space character |
| JsText.TrimSpec | src/App.jsx:256 | `trim` is no longer than its input and leaves neither end white |
| JsText.TrimStartSkips | src/App.jsx:256 | white space followed by a non-white start is removed by `trimStart` and nothing more is |
| JsText.TrimEndSkips | src/App.jsx:256 | white space after a non-white end is removed by `trimEnd` and nothing more is |
| JsText.TrimUnique | src/App.jsx:256 | a trimmed string between white space is what `trim` returns |
| JsText.TrimSplitsString | src/App.jsx:268 | every string is white space, then its `trim`, then white space |
| JsText.TrimIdempotent | src/App.jsx:256 | trimming twice is trimming once |
| JsText.TrimOfTrimmed | src/App.jsx:256 | `trim` of a trimmed string is the string itself |
| JsText.ToLowerSpec | src/App.jsx:259 | `toLowerCase` maps each character to its lower-case form, keeping the length |
| JsText.ToUpperSpec | src/App.jsx:294 | `toUpperCase` maps each character to its upper-case form, keeping the length |
| JsText.ToLowerFixedPoints | src/App.jsx:259 | lower-casing leaves no upper-case letter, and leaves a string unchanged exactly when it has none |
| JsText.ToLowerKeepsWhiteSpace | src/App.jsx:260 | lower-casing keeps white space where it was, so a trimmed string stays trimmed |
| JsText.NormalizeSpec | src/App.jsx:242 | `x.trim().toLowerCase()` is trimmed, has no upper-case letter and is no longer than `x` |
| JsText.NormalizeIdempotent | src/App.jsx:246 | normalising twice is normalising once, so a token compares equal to itself |
| JsText.Split | src/App.jsx:242 | `split(',')` gives at least one piece, and no piece holds the separator |
| JsText.JoinSplit | src/App.jsx:242 | joining the pieces of a split gives back the string |
| JsText.SplitJoin | src/App.jsx:256 | splitting a join of separator-free pieces gives back the pieces |
| JsText.SplitPlain | src/App.jsx:256 | a string without the separator splits into itself alone |
| JsText.SplitAfterPlain | src/App.jsx:242 | a separator-free piece followed by the separator splits off as the first piece |
| JsText.DecimalString | src/App.jsx:303 | `${n}` is a non-empty string of digits without a leading zero |
| JsText.DecimalRoundTrip | src/App.jsx:303 | reading the printed digits back gives the number |
| JsText.DecimalStringInjective | src/App.jsx:303 | different numbers print differently |
| JsArray.Filter | src/App.jsx:245-247 | `filter` keeps no more elements than it had, and every kept element passes the test |
| JsArray.FilterByIndices | src/App.jsx:245-247 | `filter` keeps the order-preserving subsequence of exactly the passing elements, at strictly increasing positions |
| JsArray.FilterSnoc | src/App.jsx:274 | filtering one more element appends it exactly when it passes |
| JsArray.FilterMapStep | src/App.jsx:258-274 | mapping then filtering a prefix one element longer appends that element's image exactly when it passes |
| JsArray.FilterNone | src/App.jsx:245-249 | when no element passes, the filter is empty |
| JsArray.FilterCongruence | src/App.jsx:245-247 | two tests that agree on every element filter alike |
| JsArray.FindIndex | src/App.jsx:260 | `find` stops at the first passing element, and finds nothing exactly when none passes |
| JsArray.FindIndexAt | src/App.jsx:277 | a passing element with none passing before it is the one `find` returns |
| JsArray.FirstFound | src/App.jsx:264-271 | the search over rows returns the first row whose entry search succeeds, with that row's hit, or nothing when no row has one |
| JsArray.FirstFoundAt | src/App.jsx:264-271 | a row with a hit and none before it is the one the search returns |
| JsArray.FirstFoundLoop | src/App.jsx:264-271 | the `for ... break` loop returns what the search over rows specifies |
| Records.Keys | src/App.jsx:255 | `Object.keys(row)` lists the row's keys in entry order |
| Records.Get | src/App.jsx:278 | `row[key]` is undefined exactly when the row lacks the key, and otherwise is the value stored under it |
| Matcher.TargetsAreNormal | src/App.jsx:242 | every target token is non-empty and in normal form |
| Matcher.ParseTargetsExact | src/App.jsx:242 | a token is a target exactly when it is the non-empty trimmed, lower-cased form of some comma-separated piece |
| Matcher.MatchRows | src/App.jsx:243-247 | under the wildcard all rows are selected, otherwise only rows with a qualifying value |
| Matcher.MatchRowsOrder | src/App.jsx:243-247 | the selected rows are the imported rows at strictly increasing positions, and a position is selected exactly when the wildcard is a target or its row has a qualifying value |
| Matcher.NoMatchSelectsNothing | src/App.jsx:245-249 | without the wildcard, when no row has a qualifying value, nothing is selected |
| Matcher.MatchOrderIndependent | src/App.jsx:242-247 | the selection depends only on the set of target tokens |
| Matcher.RequestedFieldsSpec | src/App.jsx:256 | the requested fields are the trims of the comma-separated pieces, in piece order with repeats kept, of exactly the pieces that do not trim to empty; each is non-empty and trimmed |
| Matcher.ExactKey | src/App.jsx:260 | the key search returns the first key whose normal form is the search string, or nothing when no key has it |
| Matcher.EntryMatch | src/App.jsx:265 | the entry search returns the first entry whose normalised cell is the search string, or nothing when none is |
| Matcher.ResolveByExactKey | src/App.jsx:258-262 | the first key matching the lower-cased request is the mapped key, labelled with the request itself |
| Matcher.ValueSearchAt | src/App.jsx:264-271 | the value search returns the first matching entry of the first imported row that has one |
| Matcher.ResolveByValueSearch | src/App.jsx:263-273 | with no matching key, the field maps to the column of the first matching cell of the first imported row that has one, labelled with that cell's trimmed text |
| Matcher.UnmatchedRequestDropped | src/App.jsx:258-274 | a request matching no key and no cell of any imported row does not survive the filter |
| Matcher.ResolvedFieldSound | src/App.jsx:258-274 | a surviving mapping's label equals the request up to case, and its key is a matching key of the first row or the column of a matching cell of some imported row |
| Matcher.FieldMappings | src/App.jsx:274 | every surviving mapping has a defined, non-empty key |
| Matcher.FieldMappingsOrder | src/App.jsx:258-274 | the surviving mappings are the resolutions, in request order, of exactly the requests that resolve |
| Matcher.FieldMappingsStep | src/App.jsx:258-274 | resolving one more request appends its mapping exactly when it resolves |
| Matcher.ResolveFieldLoop | src/App.jsx:258-273 | the exact-key `find` followed by the value-search loop with `break` computes the specified resolution |
| Slips.NameIndex | src/App.jsx:277 | the name search stops at the first value that may serve as the name, and finds nothing exactly when none may |
| Slips.SlipNameSpec | src/App.jsx:277 | the name is the first qualifying value in column order, or "Unknown" when that value is falsy |
| Slips.NoNameIsUnknown | src/App.jsx:277 | with no qualifying value the name is "Unknown" |
| Slips.WildcardNameIsFirstValue | src/App.jsx:277 | under the wildcard the name is the row's first value, or "Unknown" when the row is empty or that value is falsy |
| Slips.SlipNameOrderIndependent | src/App.jsx:277 | the name depends only on the set of target tokens |
| Slips.KeyStatsOrder | src/App.jsx:279 | `rowKeys.filter(keep).map(...)` lists exactly the keys that pass the test, in key order, each with the row's value under it |
| Slips.AsWrittenKeepsBlankHeaderColumn | src/App.jsx:279 | as written, the blank-header columns `__EMPTY` and `__EMPTY_1` appear on a default slip |
| Slips.DefaultStatsOrder | src/App.jsx:279 | the default stats list exactly the keys of the first row that do not start with `_EMPTY_`, in key order, each with the row's value under it |
| Slips.DefaultStatsKeep | src/App.jsx:279 | every key that does not start with `_EMPTY_` gets a default stat valued from the row |
| Slips.IntendedDefaultStatsOmitPlaceholders | src/App.jsx:279 | with the corrected test, no key starting with `_EMPTY_` or `__EMPTY` reaches a default slip, and every other key does |
| Slips.KeyStatsPresent | src/App.jsx:255-279 | on the row the keys come from, every kept-key stat is one of that row's own entries |
| Slips.FirstRowStatsPresent | src/App.jsx:255-279 | on the row the keys come from, every default stat is one of that row's own entries |
| Slips.BuildSlipsOrderIndependent | src/App.jsx:276-281 | the slips depend only on the set of target tokens |
| Slips.MappedStatsFollowRequests | src/App.jsx:278 | with requested fields, a slip has one stat per surviving mapping in request order, labelled as resolved and read from its own row |
| Layout.Half | src/App.jsx:322 | `Math.ceil(n / 2)`: the least `h` with `n <= 2h` |
| Layout.BuildTable | src/App.jsx:318-331 | the table built by the split loop or the plain `map` is the specified table |
| Layout.ColumnStatsPrefix | src/App.jsx:323-330 | a column showing one stat in each of its first `k` rows and none below reads those `k` stats |
| Layout.ReadTableFor | src/App.jsx:318-331 | reading the table back down its column pairs gives every stat exactly once, in order |
| Layout.ReadSplitTable | src/App.jsx:320-330 | the folded table reads back the stats |
| Layout.LeftColumnReads | src/App.jsx:323-329 | the left pair of a folded table shows the first `half` stats |
| Layout.RightColumnReads | src/App.jsx:323-329 | the right pair of a folded table shows the remaining `floor(n/2)` stats, then blanks |
| Layout.SplitRowStats | src/App.jsx:324-329 | folded row `i` shows stat `i` on the left, and stat `i + half` or nothing on the right |
| Layout.ReadPlainTable | src/App.jsx:331 | the plain table reads back the stats |
| Layout.TableShape | src/App.jsx:318-331 | up to twelve stats give one two-cell row per stat; more give `ceil(n/2)` four-cell rows starting with stat `i`, whose right pair is blank exactly on the last row when `n` is odd |
| Export.PdfDocument.constructor | src/App.jsx:348 | a new document has one blank page and is not saved |
| Export.PdfDocument.AddPage | src/App.jsx:290 | a blank page is appended and becomes current |
| Export.PdfDocument.Draw | src/App.jsx:296-342 | the drawing call lands at the end of the current page, and no other page changes |
| Export.PdfDocument.Save | src/App.jsx:350 | the document is saved under the name, and its pages do not change |
| Export.DrawnOnLast | src/App.jsx:296-342 | drawing on the last page changes only that page, appending the items |
| Export.DrawnOnFreshPage | src/App.jsx:290 | drawing on a page just added, or on a new document's only page, fills that page alone |
| Export.CreateEmployeeDoc | src/App.jsx:285-342 | a page is added only for `index > 0`, and the current page receives exactly the slip's page items at the cursor positions |
| Export.PageLayout | src/App.jsx:294-334 | the header starts at 25 and takes 8 per wrapped line; the counter shares the next line with "Generated on"; every later item is lower; the table starts at 55 + 8 L and reads back the stats |
| Export.SlipCounterReads | src/App.jsx:303 | the counter starts with "Employee Slip: ", and two positions never print the same counter |
| Export.BulkPagesShowTheirSlips | src/App.jsx:345-349 | K slips give K pages in slip order; page k shows counter k+1 / K, the slip's name in upper case, and a table reading back its stats; no two pages share a counter |
| App.ScanGuard | src/App.jsx:238-241 | without rows or targets the scan logs the error and the preview list stays |
| App.ScanNoMatch | src/App.jsx:249-253 | when no row qualifies and `*` is not a target, the preview list is emptied and "No records found" is logged |
| App.ScanSlipPerRow | src/App.jsx:276-282 | a successful scan makes one slip per selected row, in order, named from its row, with the mapped stats when fields are requested and otherwise the default stats of line 279 as written; the log counts the slips |
| App.ScanDefaultColumns | src/App.jsx:276-281 | without requested fields, every slip lists each column of the first selected row whose key does not start with `_EMPTY_`, `__EMPTY` included, valued from its own row |
| App.ScanWildcard | src/App.jsx:243-245 | under the wildcard every imported row gets a slip, named after its first value |
| App.ScanTokenOrderIndependent | src/App.jsx:242-281 | two target lists naming the same tokens, in any order, repetition or spacing, scan alike |
| App.MapFields | src/App.jsx:258-274 | the `map` and `filter` over the requests compute the specified field mapping |
| App.AppState.constructor | src/App.jsx:172-181 | the initial state: no rows, empty inputs, the "SALARY SLIP" header, no slips, the "System ready." log line |
| App.AppState.ImportRecords | src/App.jsx:229-231 | the imported rows replace the old ones, their number is logged, and nothing else changes |
| App.AppState.ProcessScan | src/App.jsx:237-283 | the new preview list and the logged line are those of the scan of the old state, and the rows and inputs do not change |
| App.AppState.GenerateBulkPdf | src/App.jsx:345-352 | with slips and the library loaded, a fresh document holds one page per slip, is saved once under the batch name, and the export is logged; otherwise nothing happens |

## Left out

- Script loading and file reading (src/App.jsx:185-235) are asynchronous I/O
  into foreign libraries. The parsed rows are an input (`ImportRecords`), and
  whether jsPDF is loaded is a parameter of `GenerateBulkPdf`.
- Parse errors and module-load failures are not modelled: they come from the
  same foreign code.
- The number of lines `splitTextToSize` wraps the header into depends on
  font metrics and the page width. It is the input `headerLines`.
- The clock is not modelled:
  - the time of each log line is not kept;
  - the text after "Generated on" is not kept;
  - the ISO timestamp of the file name is the input `isoTimestamp`.
- Fonts, colours, the x positions computed from the floating-point page
  width, and the rendering done by jsPDF and `autoTable` are not modelled.
  This includes `autoTable`'s own page breaks and `avoidPageBreak`. A page is
  the list of items drawn on it, with their y positions.
- Integer-like column names, which `Object.keys` lists first, are not
  reordered: a row's entries are taken in the order the object lists them.
- React rendering, hooks, styles and the input handlers are UI only.
- JsText.ToLower: lower-cases only the ASCII letters, because Unicode case
  mapping tables are not modelled. Strings that differ only in non-ASCII
  case can therefore compare unequal here where JavaScript finds them equal.
- JsText.ToUpper: upper-cases only the ASCII letters, for the same reason.
- Numbers in cells are kept as the text `String(n)` prints. The model does
  no floating-point arithmetic on them.

## Findings

| source | as written | input that shows it | evidently intended | confidence | as-written member | corrected member |
|---|---|---|---|---|---|---|
| src/App.jsx:279 | without requested fields, columns are dropped when their key starts with `_EMPTY_` (a single leading underscore) | a sheet with a blank header cell: the importer names that column `__EMPTY` (then `__EMPTY_1`, ...), which does not start with `_EMPTY_`, so the column is shown on every default slip | the test evidently exists to keep importer placeholder columns off the slips; the importer's placeholder names for blank headers are `__EMPTY`, `__EMPTY_1`, ..., so those keys should be excluded as well | high; not executed | Slips.AsWrittenKeepsBlankHeaderColumn | Slips.IntendedDefaultStatsOmitPlaceholders |
