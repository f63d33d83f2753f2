# json-table-viewer, modelled in Dafny

json-table-viewer is a VS Code extension that shows a JSON document as a table. You can drill into it cell by cell, filter, sort and hide columns. It exports the current view to CSV or to an Excel workbook, and it writes cell edits back into the document. This project models the three parts of it that have checkable behaviour. All three work on one JSON tree (`JsonValue.Value`: null, boolean, integer, string, object as an ordered list of key/value pairs, and array). The value `undefined` is added where JavaScript produces it, as for a missing property (`JsonValue.Js`).

- **Workbook flattening** (`buildSmartWorkbook` in `src/exportLogic.ts`). This is everything up to the spreadsheet library:
  - the main sheet, with one row per input row and a 1-based `_rowId`;
  - the placeholders `[View: h]` and `[View: h (n)]`, with their hyperlink targets, and the literal `"[]"`;
  - one sub-sheet per header that ever held an object or a non-empty array. Each sub-sheet has its sub-rows and its columns in first-seen order, with `_rowId` first.

  `WorkbookBuild.BuildSmartWorkbook` is the imperative version: loops that push rows and add keys to insertion-ordered sets. It is proved equal to the fold `Workbook.Build`. The modules `WorkbookFacts` and `WorkbookSheets` prove what `Build` produces.
- **Webview state and queries** (`src/webview/main.js`):
  - `Webview.Session` is a class whose fields are the script's module-level variables: the navigation stack, `filterState`, `sortState`, `hiddenColumns`, `allHeaders` and `isColumnsVisible`. Its methods are the message and click handlers.
  - `ViewQuery` holds the pure transforms: `applyFiltering`, `applySorting` with its comparator, the header cache and the visible-header projection.
  - `Csv` holds `generateCsv` and `quoteValue`. There is a loop method, its specification function, and a reader for the quoting rules of section 2 of RFC 4180 (with LF line ends), which gives a round-trip theorem.
- **Path-addressed edit** (the `updateValue` handler in `src/extension.ts`). `PathEdit.UpdateValue` walks the breadcrumb labels after `root` in a loop. A bracketed label is an array index only on an array. The handler then coerces the new text (parse as JSON, or keep it raw) and writes it in one of three forms. The loop is proved equal to the function `PathEdit.Edit`.

Supporting modules:
- `Text`: decimal text, `parseInt`, lower-casing, `includes`, and a total text order standing in for `localeCompare`.
- `JsonValue`: property reads and writes, `Object.keys`, spread, `String(x)`, truthiness.
- `JsonText`: compact `JSON.stringify` and `JSON.parse` over integer numbers, with a round-trip theorem.
- `Wrappers`: the `Option` and `Result` types. A thrown exception is an `Err` carrying a `Fault`.

## Model

| member | source | states |
|---|---|---|
| JsonValue.IsPrimitive | src/exportLogic.ts:3-5 | true exactly for values that are neither an object nor an array: null, undefined, booleans, numbers and strings; false for every object and array |
| JsonValue.GetProp | src/exportLogic.ts:20 | reading a property throws exactly on null and undefined; on an object or array it finds the own child, and a missing object key reads as undefined |
| JsonValue.ObjectKeysListChildren | src/exportLogic.ts:39 | `Object.keys` of an object, or of an array of fewer than 2^32 - 1 elements, succeeds and lists exactly the keys that name an own child, each key reading back as that child |
| JsonValue.Put | src/exportLogic.ts:24 | after a property write the key reads back as the value written, and every other key reads as before |
| JsonValue.SetThenGet | src/extension.ts:62-68 | a property write on an object or array succeeds, and reading the same key afterwards gives the value written |
| JsonValue.SetLeavesOthers | src/extension.ts:62-68 | a property write leaves every other key of an object, and every other existing index of an array, as it was |
| JsonValue.LengthWrite | src/extension.ts:62-68 | writing an array's `length` throws a RangeError exactly when the value does not convert to a valid length; otherwise the array is cut to, or padded with holes up to, that length, keeps its first elements, and reads back that length |
| JsonValue.LengthCases | src/extension.ts:62-68 | `[1,2,3]` with length 1 or `true` becomes `[1]`, with `null` becomes `[]`; `[1]` with length 3 gains two holes; -1, 2^32 and an object throw a RangeError |
| JsonValue.ReplaceAt | src/extension.ts:62-68 | rebuilding the tree along a path puts the new node at that path |
| JsonValue.WithChildFrame | src/extension.ts:62-68 | replacing one child of an object or array leaves every other child as it was |
| JsonValue.ReplaceAtFrame | src/extension.ts:62-68 | replacing the node at one path leaves the node at every path that parts from it as it was |
| Text.DecimalRoundTrip | src/exportLogic.ts:47 | the decimal text of a number is all digits and reads back as that number |
| Text.IndexKeyRoundTrip | src/extension.ts:48-49 | the decimal text of an array index is a canonical index key naming that index |
| Text.ParseIntOfDecimal | src/extension.ts:48 | `parseInt` of a number's decimal text gives the number back |
| Text.ContainsAt | src/webview/main.js:134 | `includes` holds exactly when the pattern occurs at some position |
| Text.CompareTextZero | src/webview/main.js:151 | the text order puts two strings level exactly when they are equal |
| Text.CompareTextAntisymmetric | src/webview/main.js:151 | swapping the operands of the text order negates its result |
| Text.CompareTextTransitive | src/webview/main.js:151 | the text order is transitive |
| JsonText.StringifyParse | src/extension.ts:41 | parsing the compact JSON text of a well-formed tree gives the tree back |
| JsonText.ValueRoundTrip | src/webview/main.js:409 | parsing the JSON text of a value, followed by any text, yields the value and leaves that text unread |
| ViewQuery.FilteringShape | src/webview/main.js:126-138 | filtering returns the input unchanged unless it is an array whose first element is a non-null object and some filter is active; otherwise it throws exactly when a row is null, and it keeps exactly the passing rows, in input order, a cell being searched as `String(x \|\| '')`, so that 0, false and empty text search as empty text |
| ViewQuery.Keep | src/webview/main.js:130-136 | the filter callback throws exactly on a null row with filters active, and otherwise accepts a row exactly when every filter key's cell text contains its pattern, ignoring case, where every falsy cell has empty text |
| ViewQuery.FilterItemsKeeps | src/webview/main.js:130-137 | the filtered rows keep every passing row as many times as the input holds it, drop every other row, and keep input order |
| ViewQuery.FalsyCellMatches | src/webview/main.js:133-134 | a falsy cell (null, missing, 0, false or empty text) matches only the empty pattern |
| ViewQuery.UmlautMatches | src/webview/main.js:132-134 | lower-casing reaches beyond ASCII: the pattern "äp" finds the cell "ÄPFEL" |
| ViewQuery.HitIgnoresCase | src/webview/main.js:132-134 | a pattern matches exactly when its lower-case form does |
| ViewQuery.SortingShape | src/webview/main.js:140-154 | sorting returns the input unchanged with no sort key or unless the first element is a non-null object; otherwise it throws exactly when a row is null, and it returns a permutation of the rows that is ordered by the comparator whenever the column's values compare consistently |
| ViewQuery.SortRows | src/webview/main.js:143-153 | sorting a copy throws exactly when a null row is among two or more rows, and otherwise returns a permutation of the rows |
| ViewQuery.NullsPlacement | src/webview/main.js:147-149 | a null or missing value comes after any other value ascending and before it descending |
| ViewQuery.DescendingReverses | src/webview/main.js:146-152 | the descending comparison is the negation of the ascending one |
| ViewQuery.NumbersByValue | src/webview/main.js:150 | two numbers compare by numeric value, and are level only when equal |
| ViewQuery.StringsByText | src/webview/main.js:151 | two strings compare by text order, and are level only when equal |
| ViewQuery.MixedByText | src/webview/main.js:152 | a number and a string compare by their text forms, so 10 comes before "9" while 9 comes before 10 |
| ViewQuery.NumbersOrdered | src/webview/main.js:146-150 | on a column of numbers and nulls or missing values, the comparator is a consistent total preorder |
| ViewQuery.StringsOrdered | src/webview/main.js:146-151 | on a column of strings and nulls or missing values, the comparator is a consistent total preorder |
| ViewQuery.NullAgainstMissing | src/webview/main.js:147-149 | null against undefined gives the same sign both ways, so ascending the comparator is not a consistent order on such a column |
| ViewQuery.InsertionSort | src/webview/main.js:143 | the sorted rows are a permutation of the input |
| ViewQuery.InsertionSortSorted | src/webview/main.js:143 | under a consistent comparator the result is in comparator order |
| ViewQuery.HeaderUnionShape | src/webview/main.js:89-97 | the header cache lists each key once, holds exactly the keys of the object rows, and lists them in the order they are first met |
| ViewQuery.ControlsAgreeWithQueries | src/webview/main.js:85 | the controls appear for exactly the arrays that filtering and sorting act on |
| ViewQuery.VisibleHeaders | src/webview/main.js:395 | the visible headers are exactly the cached headers that are not hidden, in cache order |
| Webview.ScanHeaders | src/webview/main.js:89-97 | the loop over the rows yields the key union of the object rows |
| Webview.Session.constructor | src/webview/main.js:5-18 | the stack holds only the root frame, and every view setting is at its default |
| Webview.Session.Render | src/webview/main.js:46-55 | rendering changes nothing but the header cache, which it fills only when empty |
| Webview.Session.DocumentUpdated | src/webview/main.js:27-42 | a parsable document replaces the stack with a single root frame and resets every view setting; an unparsable one changes nothing |
| Webview.Session.Breadcrumb | src/webview/main.js:70-80 | a breadcrumb at position p keeps frames 0..p and resets every view setting |
| Webview.Session.CellClick | src/webview/main.js:279-308 | a click resets every view setting; then index and key push the row frame `[index]` and the field frame, index alone pushes `[index]`, key alone pushes `key`, and neither pushes nothing; the stack only grows at its end; a TypeError comes exactly from a read of null or undefined, and leaves the stack as it was, except that when the row read succeeds and the cell read throws, the row frame stays pushed |
| Webview.IndexAddressesUnfiltered | src/webview/main.js:282-298 | a cell's index counts rows of the filtered table but is looked up in the unfiltered node: with the filter `a` = "y" the first row drawn is the second row, yet index "0" reads and edits the first row |
| Webview.FilteredClick | src/webview/main.js:279-308 | in a session with the filter `a` = "y", the first row drawn is the second row, and clicking its `o` cell opens the first row's `o` object |
| Webview.FilteredSession | src/webview/main.js:321-328 | typing "y" into the filter of column `a` over the two rows keeps the root node and draws only the second row |
| Webview.Session.SortClick | src/webview/main.js:310-319 | the sort state moves to the next state of the sort-click rule, and nothing else changes |
| Webview.SortClicks | src/webview/main.js:312-317 | clicking the sorted column flips the direction, clicking another sets it ascending, and a second click on the same column flips it once more |
| Webview.Session.FilterInput | src/webview/main.js:321-328 | the filter for the key is set to the input, or removed when it is empty, and nothing else changes |
| Webview.SetFilter | src/webview/main.js:324-325 | a non-empty input is stored under its key, an empty one removes the key, other keys keep their patterns, and no empty pattern is ever stored |
| Webview.Remove | src/webview/main.js:325 | deleting a key leaves it absent and every other key as it was |
| Webview.Session.ToggleColumns | src/webview/main.js:330-333 | the column list's visibility flips, and nothing else changes |
| Webview.Session.ColumnToggle | src/webview/main.js:335-341 | checking a column shows it and unchecking hides it, and nothing else changes |
| Webview.ToggleShows | src/webview/main.js:338-339 | after a toggle the column is visible exactly when checked, and every other column keeps its visibility |
| Webview.Session.ExportCsv | src/webview/main.js:391-396 | CSV export produces the CSV text of the visible headers over the filtered, sorted rows on display, and fails where filtering or sorting throws |
| Csv.GenerateCsv | src/webview/main.js:403-425 | the loop over the rows builds the CSV text of the header line and one line per row |
| Csv.CsvThrows | src/webview/main.js:419-422 | CSV generation throws exactly when some row is null and there is at least one header |
| Csv.CsvLines | src/webview/main.js:417-424 | the CSV text is the header line and then one line per row, in input order, each ending with LF, each cell being the text of `row[header]` |
| Csv.CsvRoundTrip | src/webview/main.js:403-425 | reading the CSV text back with the RFC 4180 field rules gives the header row and the cell texts of every row |
| Csv.QuotedExactlyWhenNeeded | src/webview/main.js:412-415 | a cell is written in quotes exactly when its text contains a comma, a double quote or a line feed |
| Csv.FieldRoundTrip | src/webview/main.js:412-415 | a quoted or plain field, with inner quotes doubled, reads back as its text |
| Csv.QuoteValueText | src/webview/main.js:404-411 | null and undefined give empty text, objects and arrays their JSON text, everything else its string form, before quoting |
| Csv.Cells | src/webview/main.js:420-422 | one cell per header, each read from the row, and a throw exactly when the row is null and there are headers |
| FilterFinding.WhereTheyDiffer | src/webview/main.js:133 | the filter's cell text differs from the intended one exactly for the cells 0 and false |
| FilterFinding.ZeroCellHidden | src/webview/main.js:133 | the pattern "0" matches the cell 10 but not the cell 0; read as intended it matches 0 |
| FilterFinding.ZeroRowDropped | src/webview/main.js:126-138 | the rows `[{"n": 0}, {"n": 10}]` filtered for `n` = "0" keep only the second row; the corrected filter keeps both |
| FilterFinding.IntendedFilteringShape | src/webview/main.js:126-138 | the corrected filter leaves the input alone unless it is row-shaped with a filter active, throws exactly on a null row, and keeps in order exactly the rows whose cells, with only null and missing read as empty text, contain their patterns |
| FilterFinding.FilteringWithinIntended | src/webview/main.js:126-138 | the filter throws exactly when the corrected one does, and otherwise keeps a subsequence of the rows the corrected one keeps |
| Workbook.SheetTitle | src/exportLogic.ts:21 | a sheet title is the header cut to its first 31 characters |
| Workbook.AddKeysGrows | src/exportLogic.ts:39 | adding keys to an insertion-ordered set keeps the old members in front, repeats nothing, adds exactly the new keys, and orders them by first sighting |
| Workbook.Without | src/exportLogic.ts:93 | removing `_rowId` from a column list keeps every other column and no duplicates |
| WorkbookFacts.AddValueThrows | src/exportLogic.ts:19-71 | a value under a header throws exactly when it is a non-empty array whose first element is not primitive and which holds a null element |
| WorkbookFacts.AddValueEffect | src/exportLogic.ts:33-69 | a primitive value or an empty array leaves the sub-sheets unchanged; otherwise the header's sheet is opened if absent, gains exactly the new sub-rows after its old rows, and its columns gain the new keys in first-seen order |
| WorkbookFacts.NewRows | src/exportLogic.ts:33-69 | an object gives one sub-row and a non-empty array one sub-row per element |
| WorkbookSheets.FirstElementDecides | src/exportLogic.ts:57-70 | if an array's first element is primitive, every element becomes `{_rowId, value: e}` and only `value` joins the columns; otherwise every element is spread, so a number element contributes only `_rowId` |
| WorkbookSheets.SpreadRowFields | src/exportLogic.ts:37 | a spread sub-row holds every field of the element, and `_rowId` reads as the row id only when the element has no field of that name |
| WorkbookSheets.CellLinks | src/exportLogic.ts:23-50 | a cell is a link exactly for an object or a non-empty array, linked to A1 of the header's truncated sheet; a primitive is copied and an empty array becomes `"[]"` |
| WorkbookSheets.BuildThrows | src/exportLogic.ts:15-74 | the flattening throws exactly when some row throws on some header |
| WorkbookSheets.BuildMain | src/exportLogic.ts:15-76 | the main columns are `_rowId` and then the headers; there is one main row per input row, in order, with `_rowId` i + 1 and each header's cell for that row's value |
| WorkbookSheets.BuildSheets | src/exportLogic.ts:88-97 | there is one sub-sheet per distinct header that held an object or a non-empty array, in first-opened order, titled with the cut header, with `_rowId` and then its column union, and with all its sub-rows in row order |
| WorkbookSheets.SheetExists | src/exportLogic.ts:33-55 | a header gets a sub-sheet exactly when it is a visible header and some row holds an object or a non-empty array under it; an empty array never opens one |
| WorkbookSheets.SheetRowCount | src/exportLogic.ts:33-69 | sheet h's row count is the number of times h occurs among the headers times the sum over rows of each value's contribution (1 for an object, its length for an array, 0 otherwise) |
| WorkbookSheets.SheetColumnsShape | src/exportLogic.ts:91-94 | a sub-sheet's columns start with `_rowId`, repeat nothing, hold `_rowId` and the collected keys, and keep first-seen order |
| WorkbookSheets.LinksResolve | src/exportLogic.ts:78-96 | every hyperlink sits on a data row and a header column, and its target names a sub-sheet that exists, by that sheet's title |
| WorkbookSheets.LinkIff | src/exportLogic.ts:79-85 | the main cell of row i and header j carries a link exactly when the value there is an object or a non-empty array |
| WorkbookSheets.RowsEffect | src/exportLogic.ts:15-74 | after the first n rows, the main rows and the sub-sheets are exactly those the reference definitions give for those rows |
| WorkbookBuild.BuildSmartWorkbook | src/exportLogic.ts:8-97 | the loops produce exactly the reference book, or the TypeError the reference definition predicts |
| WorkbookBuild.RowInto | src/exportLogic.ts:16-73 | the loop over the headers produces the row's main row and sub-sheet update |
| WorkbookBuild.ValueInto | src/exportLogic.ts:20-71 | one header's work stores that value's cell and makes that value's sub-sheet update |
| WorkbookBuild.ElementsInto | src/exportLogic.ts:61-69 | the loop over an array's elements adds exactly the reference sub-rows and columns, or throws as the reference definition says |
| WorkbookBuild.AddEach | src/exportLogic.ts:39 | adding keys one by one gives the insertion-ordered union |
| WorkbookBuild.SheetsOf | src/exportLogic.ts:90-97 | the loop over the sub-sheet dictionary yields the sheets in key order |
| WorkbookFinding.ConstructorHeader | src/exportLogic.ts:33-39 | as written, an object under the header "constructor" throws; as intended it opens a sheet named constructor that holds one row |
| WorkbookFinding.AsWrittenAgrees | src/exportLogic.ts:33-39 | away from inherited names, the code as written and the intended behaviour agree |
| PathEdit.UpdateValue | src/extension.ts:39-68 | the loop walk, coercion and write give exactly the edited tree that `Edit` defines, or its error |
| PathEdit.Edit | src/extension.ts:41 | an unparsable document is a syntax error, and no edit is made |
| PathEdit.NavPath | src/extension.ts:44 | the walk uses every label after the first |
| PathEdit.EditSkipsRootLabel | src/extension.ts:44 | the first label has no effect on the edit |
| PathEdit.WalkDepth | src/extension.ts:46-53 | each label descends exactly one level below the root |
| PathEdit.MemberLocated | src/extension.ts:47-52 | one step reaches the node that the property read gives, one level deeper |
| PathEdit.Member | src/extension.ts:49-51 | a step throws exactly when the current node is null or undefined |
| PathEdit.WalkFollowsView | src/extension.ts:46-53 | walking the breadcrumb labels reaches exactly the node the webview's drill-downs displayed, and fails exactly when they did |
| PathEdit.CoercePlainText | src/extension.ts:55-60 | blank text, and text whose first non-blank character cannot open a JSON value, is stored verbatim as a string |
| PathEdit.CoerceWords | src/extension.ts:55-60 | `true` becomes a boolean and `null` null, while bare words, also ones that start like a keyword, and blank text stay text |
| PathEdit.CoerceDigits | src/extension.ts:55-60 | the text `42` becomes the number 42 |
| PathEdit.CoerceValueThenText | src/extension.ts:55-60 | text that starts with a value's JSON text and goes on with more than white space is stored verbatim as a string |
| PathEdit.CoerceStringify | src/extension.ts:55-60 | the JSON text of a value is stored as that value |
| PathEdit.Write | src/extension.ts:62-68 | a write succeeds exactly on an object or array, unless it sets an array's `length` to an invalid length, which throws a RangeError; it fails on null or undefined with a TypeError and on a primitive with a strict-mode TypeError, and puts the written node in place |
| PathEdit.Apply | src/extension.ts:62-68 | with neither an index nor a key the tree is unchanged |
| PathEdit.WriteReadsBack | src/extension.ts:62-68 | the written slot reads back as the coerced value, whether or not it existed before, every other key of an object and every other existing element of an array reads as before, and every node at a path that parts from the written node's path keeps its value |
| PathEdit.RowWriteReadsBack | src/extension.ts:63 | with both an index and a key, the field of the indexed row reads back as the coerced value |
| PathEdit.EditLandsOnDisplayedNode | src/extension.ts:39-68 | an edit sent with the webview's breadcrumb path lands on the displayed node, where the key reads back as the coerced new text |
| PathEdit.MissingKeyAborts | src/extension.ts:49-53 | a missing key reads as undefined, so the next step throws and the whole edit is abandoned |

## Left out

- The spreadsheet library calls (`json_to_sheet`, `encode_cell`, `book_append_sheet`, `write`) are foreign code. The model stops at the data they receive: the main rows and columns, each sub-sheet's title, columns and rows, and the hyperlink set (`Workbook.Links`). The hyperlink loop is a function over that data, not a loop writing into the library's sheet object.
- VS Code plumbing is editor I/O and is not part of this model: the panel, `applyEdit`, the error pop-ups, and the `documentUpdated` message sent after an edit. `PathEdit.Edit` returns the new tree and not its two-space-indented text.
- The DOM, HTML rendering, click wiring, focus restoration and cell editing in the webview are presentation. So is the `postMessage` transport. A handler's arguments stand for the attributes the DOM would supply.
- Numbers are integers. Fractions, exponents, `NaN`, and numbers beyond 2^53 are not modelled. The JSON reader rejects fractions and exponents, so the edit keeps such text as a raw string where JavaScript would store a number.
- `localeCompare` is modelled as code-point order of the texts. Locale collation is out of scope.
- JSON text escaping and unescaping cover the characters the model's strings hold. Surrogate pairs and Unicode normalisation are not modelled.
- Object key order is insertion order. JavaScript's rule that puts integer-like keys first is not modelled.
- Prototype members (`toString`, `constructor`, …) are invisible to property reads, except in `WorkbookFinding`.
- ViewQuery.SortingShape: the sort is stated as a permutation that is in comparator order when the column compares consistently. Stability, and the exact order V8 produces for an inconsistent comparator (mixed numbers and strings, null alongside missing), are not claimed. The model uses a stable insertion sort.
- ViewQuery.SortRows: states only the permutation and the throw. Order is stated by `SortingShape`.
- PathEdit.Apply: its contract states only the no-write case; the other three forms are stated by `Write`, `WriteReadsBack` and `RowWriteReadsBack`.
- PathEdit.Edit: its contract states only the parse failure; the walk and write are stated by the lemmas beside it.
- Webview.Session.Render: the re-rendered table itself is presentation. Only the header-cache fill is modelled.
- The in-place tree mutation in `updateValue` is modelled on values. The `target` reference becomes a path from the root, and the write rebuilds the tree along that path. Aliasing is therefore not modelled.
- The copy of the webview script embedded in `src/extension.ts` is modelled once, from `src/webview/main.js`.
- `focusedInput` is not modelled. It only restores focus in the DOM.
- Text.Lower: `toLowerCase` is modelled for ASCII, Latin-1 and the basic Cyrillic capitals. Other scripts, the Greek final sigma, and mappings that change a string's length (such as U+0130) are full Unicode tables, not modelled.
- Workbook.SheetTitle: `substring(0, 31)` counts UTF-16 code units, while the model counts characters. A header with characters outside the Basic Multilingual Plane can get a different title, and JavaScript can cut a surrogate pair in half.
- JsonValue.ArrayLength: a string converts to a length only in plain decimal form with surrounding white space. Hex, signed, fractional and exponent forms are not modelled, and neither are fractional numbers.
- The filtered and sorted table numbers its rows by display position, and clicks and edits use that number on the unfiltered node (`Webview.IndexAddressesUnfiltered`). The model keeps this behaviour and does not model a corrected lookup.

## Findings

| source | as written | input that shows it | evidently intended | confidence | as-written member | corrected member |
|---|---|---|---|---|---|---|
| src/webview/main.js:133 | a cell is read as `String(item[key] \|\| '')`, so the cells 0 and false are searched as empty text | the rows `[{"n": 0}, {"n": 10}]` with the filter `n` = "0": only the row holding 10 survives | only null and missing cells read as empty text, so 0 matches "0" | not executed | FilterFinding.ZeroRowDropped | FilterFinding.IntendedFilteringShape |
| src/exportLogic.ts:33-39 | `subSheets` is a plain object, so `!subSheets[header]` sees inherited members such as `constructor` as present; the sheet is never opened, and the next `push` is not a function | the rows `[{"constructor": {}}]` exported with the header "constructor" throw a TypeError | every header that holds an object gets its own sub-sheet | not executed | WorkbookFinding.ConstructorHeader | WorkbookFacts.AddValueEffect |
