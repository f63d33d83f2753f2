/**
 * The flattening half of the Excel export, `buildSmartWorkbook`: the rows and
 * visible headers of the current table become a main sheet (one row per input
 * row, nested values replaced by hyperlinked placeholders) and one sub-sheet
 * per header that ever held an object or a non-empty array, before any of it
 * is handed to the spreadsheet library.
 */
module Workbook {
  import opened Wrappers
  import opened Text
  import opened JsonValue

  /**
   * A main-sheet cell: a value copied as it is, or a string placeholder
   * carrying a hyperlink to a sub-sheet.
   */
  datatype Cell = Plain(x: Js) | Link(text: string, target: string)

  /** A main-sheet row: `_rowId` and then one cell per header, in insertion order. */
  type MainRow = seq<(string, Cell)>

  /** A sub-sheet row: `_rowId` and the fields spread into it. */
  type SubRow = seq<(string, Value)>

  /**
   * The two dictionaries keyed by header: `subSheets` (the rows of each
   * sub-sheet) and `subSheetHeaders` (its insertion-ordered column set).
   */
  datatype SubSheets = SubSheets(rows: seq<(string, seq<SubRow>)>, columns: seq<(string, seq<string>)>)

  /** A sub-sheet: the header it collects, its name, its column list and its rows. */
  datatype Sheet = Sheet(header: string, title: string, columns: seq<string>, rows: seq<SubRow>)

  /** What the spreadsheet library receives: the main sheet with its column list, then the sub-sheets in order. */
  datatype Book = Book(mainColumns: seq<string>, mainRows: seq<MainRow>, sheets: seq<Sheet>)

  /** Excel's limit on the length of a sheet name. */
  const MaxTitle: nat := 31

  // ---------------------------------------------------------------- sheet names and cells

  /** The header cut to its first 31 characters. */
  function SheetTitle(h: string): (t: string)
    ensures |t| == if |h| <= MaxTitle then |h| else MaxTitle
    ensures t == h[..|t|]
  {
    if |h| <= MaxTitle then h else h[..MaxTitle]
  }

  /** The hyperlink target of a placeholder: cell A1 of the sheet named after the header. */
  function LinkTarget(h: string): string
  {
    "'" + SheetTitle(h) + "'!A1"
  }

  /** The main-row cell stored for the value `x` read from the row under header `h`. */
  function CellFor(h: string, x: Js): Cell
  {
    if IsPrimitive(x) then Plain(x)
    else if x.v.Obj? then Link("[View: " + h + "]", LinkTarget(h))
    else if x.v.items == [] then Plain(Val(Str("[]")))
    else Link("[View: " + h + " (" + NatToDecimal(|x.v.items|) + ")]", LinkTarget(h))
  }

  /** The property `h` of a row, or the TypeError a null row raises. */
  function Read(row: Value, h: string): Js
  {
    match GetProp(Val(row), h)
    case Ok(x) => x
    case Err(_) => Undefined
  }

  // ---------------------------------------------------------------- insertion-ordered sets

  predicate Distinct(s: seq<string>)
  {
    forall i, j :: 0 <= i < j < |s| ==> s[i] != s[j]
  }

  /** Adding one member to an insertion-ordered set. */
  function AddKey(cols: seq<string>, k: string): seq<string>
  {
    if k in cols then cols else cols + [k]
  }

  /** Adding the keys `ks` one after another to an insertion-ordered set. */
  function AddKeys(cols: seq<string>, ks: seq<string>): seq<string>
  {
    if ks == [] then cols else AddKey(AddKeys(cols, ks[..|ks| - 1]), ks[|ks| - 1])
  }

  /** The position where `k` first occurs in `ks`. */
  function FirstIndex(ks: seq<string>, k: string): (i: nat)
    requires k in ks
    ensures i < |ks| && ks[i] == k
    ensures forall j :: 0 <= j < i ==> ks[j] != k
  {
    if k in ks[..|ks| - 1] then FirstIndex(ks[..|ks| - 1], k) else |ks| - 1
  }

  /**
   * Adding keys to a set only appends: the old members stay in front, nothing
   * repeats, the members are the old ones and the added ones, and the new ones
   * come in the order in which they were first seen.
   */
  lemma {:induction false} AddKeysGrows(cols: seq<string>, ks: seq<string>)
    requires Distinct(cols)
    ensures var r := AddKeys(cols, ks);
      |cols| <= |r| && r[..|cols|] == cols && Distinct(r) &&
      (forall k :: k in r <==> k in cols || k in ks) &&
      (forall p :: |cols| <= p < |r| ==> r[p] in ks && r[p] !in cols) &&
      (forall p, q :: |cols| <= p < q < |r| ==> FirstIndex(ks, r[p]) < FirstIndex(ks, r[q]))
    decreases |ks|
  {
    if ks != [] {
      var init := ks[..|ks| - 1];
      var k := ks[|ks| - 1];
      var r0 := AddKeys(cols, init);
      AddKeysGrows(cols, init);
      assert ks == init + [k];
      forall x | x in init
        ensures FirstIndex(ks, x) == FirstIndex(init, x)
      {
      }
      if k !in r0 {
        assert k !in init;
        assert FirstIndex(ks, k) == |ks| - 1;
      }
    }
  }

  // ---------------------------------------------------------------- the sub-sheet dictionaries

  function RowsOf(s: SubSheets, h: string): seq<SubRow>
  {
    match Get(s.rows, h)
    case Some(r) => r
    case None => []
  }

  function ColumnsOf(s: SubSheets, h: string): seq<string>
  {
    match Get(s.columns, h)
    case Some(c) => c
    case None => []
  }

  /** Both dictionaries always gain the same keys together. */
  predicate Consistent(s: SubSheets)
  {
    Keys(s.rows) == Keys(s.columns)
  }

  /** Opens an empty sub-sheet with an empty column set for `h`, unless `h` already has one. */
  function Open(s: SubSheets, h: string): SubSheets
  {
    if FindKey(s.rows, h).Some? then s else SubSheets(Put(s.rows, h, []), Put(s.columns, h, []))
  }

  /** Appends one row to the sub-sheet of `h`. */
  function Push(s: SubSheets, h: string, row: SubRow): SubSheets
  {
    s.(rows := Put(s.rows, h, RowsOf(s, h) + [row]))
  }

  /** Adds the keys `ks` to the column set of the sub-sheet of `h`. */
  function AddColumns(s: SubSheets, h: string, ks: seq<string>): SubSheets
  {
    s.(columns := Put(s.columns, h, AddKeys(ColumnsOf(s, h), ks)))
  }

  /** A sub-row: `_rowId` first, then the fields of `x` spread over it (a field named `_rowId` overrides it). */
  function SpreadRow(rowId: nat, x: Js): SubRow
  {
    PutAll([("_rowId", Num(rowId))], SpreadEntries(x))
  }

  /** A sub-row wrapping the primitive element `e` under the column `value`. */
  function ValueRow(rowId: nat, e: Value): SubRow
  {
    [("_rowId", Num(rowId)), ("value", e)]
  }

  /**
   * One element of a non-empty array: a sub-row wrapping it as `value` when
   * the array's first element is primitive, or spreading it otherwise, where
   * its keys join the columns (and `Object.keys` of a null element throws).
   */
  function AddElement(s: SubSheets, h: string, rowId: nat, e: Value, wrap: bool): Result<SubSheets, Fault>
  {
    if wrap then Ok(Push(s, h, ValueRow(rowId, e)))
    else
      var ks :- ObjectKeys(Val(e));
      Ok(AddColumns(Push(s, h, SpreadRow(rowId, Val(e))), h, ks))
  }

  /** The first `n` elements of a non-empty array, in order. */
  function AddElements(s: SubSheets, h: string, rowId: nat, items: seq<Value>, n: nat, wrap: bool): Result<SubSheets, Fault>
    requires n <= |items|
    decreases n, 1
  {
    if n == 0 then Ok(s) else ElementsThrough(s, h, rowId, items, n, wrap)
  }

  /** Element `n - 1` added after the elements before it; a failure before it stops the fold. */
  function ElementsThrough(s: SubSheets, h: string, rowId: nat, items: seq<Value>, n: nat, wrap: bool): Result<SubSheets, Fault>
    requires 0 < n <= |items|
    decreases n, 0
  {
    var prev :- AddElements(s, h, rowId, items, n - 1, wrap);
    AddElement(prev, h, rowId, items[n - 1], wrap)
  }

  /** What the value `x` found under header `h` in row `rowId` adds to the sub-sheets. */
  function AddValue(s: SubSheets, h: string, rowId: nat, x: Js): Result<SubSheets, Fault>
  {
    if IsPrimitive(x) then Ok(s)
    else if x.v.Obj? then Ok(AddColumns(Push(Open(s, h), h, SpreadRow(rowId, x)), h, Keys(x.v.fields)))
    else if x.v.items == [] then Ok(s)
    else if IsPrimitive(Val(x.v.items[0])) then
      AddElements(AddColumns(Open(s, h), h, ["value"]), h, rowId, x.v.items, |x.v.items|, true)
    else AddElements(Open(s, h), h, rowId, x.v.items, |x.v.items|, false)
  }

  // ---------------------------------------------------------------- the whole flattening

  /**
   * The main row of row `rowId` over the headers `hs`: `_rowId` first, then
   * each header set in turn to the cell for its value.
   */
  function MainCells(rowId: nat, row: Value, hs: seq<string>): MainRow
  {
    if hs == [] then [("_rowId", Plain(Val(Num(rowId))))]
    else Put(MainCells(rowId, row, hs[..|hs| - 1]), hs[|hs| - 1], CellFor(hs[|hs| - 1], Read(row, hs[|hs| - 1])))
  }

  /**
   * The sub-sheets after the first `n` headers of row `rowId`: reading a
   * header of a null row throws, and so does a value whose sub-rows cannot
   * be built.
   */
  function SubCells(s: SubSheets, rowId: nat, row: Value, headers: seq<string>, n: nat): Result<SubSheets, Fault>
    requires n <= |headers|
    decreases n, 1
  {
    if n == 0 then Ok(s) else SubCellsThrough(s, rowId, row, headers, n)
  }

  /** Header `n - 1` of the row after the headers before it; a failure before it stops the fold. */
  function SubCellsThrough(s: SubSheets, rowId: nat, row: Value, headers: seq<string>, n: nat): Result<SubSheets, Fault>
    requires 0 < n <= |headers|
    decreases n, 0
  {
    var t :- SubCells(s, rowId, row, headers, n - 1);
    if row == Null then Err(NullishAccess) else AddValue(t, headers[n - 1], rowId, Read(row, headers[n - 1]))
  }

  /**
   * One row: its main row and what it adds to the sub-sheets. The loop over
   * the headers does both at once, but the main-row cells never throw on
   * their own (a null row throws at its first header either way), so the
   * two halves can be computed separately.
   */
  function RowCells(s: SubSheets, rowId: nat, row: Value, headers: seq<string>): Result<(MainRow, SubSheets), Fault>
  {
    var t :- SubCells(s, rowId, row, headers, |headers|);
    Ok((MainCells(rowId, row, headers), t))
  }

  /** The main sheet and the sub-sheets after the first `n` rows. */
  function Rows(data: seq<Value>, headers: seq<string>, n: nat): Result<(seq<MainRow>, SubSheets), Fault>
    requires n <= |data|
  {
    if n == 0 then Ok(([], SubSheets([], [])))
    else
      var prev :- Rows(data, headers, n - 1);
      var next :- RowCells(prev.1, n, data[n - 1], headers);
      Ok((prev.0 + [next.0], next.1))
  }

  /** The final column list of a sub-sheet: `_rowId`, then its other columns in first-seen order. */
  function SheetColumns(cols: seq<string>): seq<string>
  {
    ["_rowId"] + Without(cols, "_rowId")
  }

  function Without(cols: seq<string>, k: string): (r: seq<string>)
    ensures forall c :: c in r <==> c in cols && c != k
    ensures Distinct(cols) ==> Distinct(r)
  {
    if cols == [] then []
    else if cols[|cols| - 1] == k then Without(cols[..|cols| - 1], k)
    else
      assert Distinct(cols) ==> cols[|cols| - 1] !in cols[..|cols| - 1];
      Without(cols[..|cols| - 1], k) + [cols[|cols| - 1]]
  }

  /** The sheets in `subSheets` key order, each named after its header cut to 31 characters. */
  function Assemble(headers: seq<string>, main: seq<MainRow>, s: SubSheets): Book
  {
    Book(["_rowId"] + headers, main,
         seq(|s.rows|, i requires 0 <= i < |s.rows| =>
           Sheet(s.rows[i].0, SheetTitle(s.rows[i].0), SheetColumns(ColumnsOf(s, s.rows[i].0)), s.rows[i].1)))
  }

  /** The whole flattening of `data` over `headers`, up to the spreadsheet library, or the TypeError it raises. */
  function Build(data: seq<Value>, headers: seq<string>): Result<Book, Fault>
  {
    var p :- Rows(data, headers, |data|);
    Ok(Assemble(headers, p.0, p.1))
  }

  /** The sheet names in the order they are appended: "Main" and then the sub-sheets. */
  function SheetNames(b: Book): seq<string>
  {
    ["Main"] + seq(|b.sheets|, i requires 0 <= i < |b.sheets| => b.sheets[i].title)
  }

  predicate IsLinkAt(row: MainRow, h: string)
  {
    Get(row, h).Some? && Get(row, h).value.Link?
  }

  /** The main-sheet cells `(r + 1, c + 1)` that get a hyperlink, with its target. */
  function Links(b: Book, headers: seq<string>): set<(nat, nat, string)>
  {
    set r, c | 0 <= r < |b.mainRows| && 0 <= c < |headers| && IsLinkAt(b.mainRows[r], headers[c]) ::
      (r + 1, c + 1, Get(b.mainRows[r], headers[c]).value.target)
  }
}
