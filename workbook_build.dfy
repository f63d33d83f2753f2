/**
 * `buildSmartWorkbook` as the exporter runs it: loops over the rows, the
 * headers and the array elements, growing the main sheet and the two
 * sub-sheet dictionaries step by step, and stopping at the first TypeError.
 * Each method is proved to compute the flattening defined in module Workbook.
 */
module WorkbookBuild {
  import opened Wrappers
  import opened JsonValue
  import opened Workbook
  import opened WorkbookFacts

  // ---------------------------------------------------------------- a failure ends the fold

  /** `Object.keys(null)` on a spread element makes the whole array throw. */
  lemma SpreadNullFails(s: SubSheets, h: string, rowId: nat, items: seq<Value>, e: nat)
    requires e < |items| && ObjectKeys(Val(items[e])).Err?
    ensures AddElements(s, h, rowId, items, |items|, false) == Err(KeysOfNullish)
  {
    assert items[..|items|] == items;
    assert Null in items;
    AddElementsThrows(s, h, rowId, items, |items|, false);
  }

  lemma ElementsStep(s: SubSheets, h: string, rowId: nat, items: seq<Value>, wrap: bool, e: nat, t: SubSheets)
    requires e < |items| && AddElements(s, h, rowId, items, e, wrap) == Ok(t)
    ensures AddElements(s, h, rowId, items, e + 1, wrap) == AddElement(t, h, rowId, items[e], wrap)
  {
  }

  lemma {:induction false} SubCellsStayFailed(s: SubSheets, rowId: nat, row: Value, headers: seq<string>, m: nat, n: nat)
    requires m <= n <= |headers| && SubCells(s, rowId, row, headers, m).Err?
    ensures SubCells(s, rowId, row, headers, n) == SubCells(s, rowId, row, headers, m)
    decreases n
  {
    if m < n {
      SubCellsStayFailed(s, rowId, row, headers, m, n - 1);
    }
  }

  lemma {:induction false} RowsStayFailed(data: seq<Value>, headers: seq<string>, m: nat, n: nat)
    requires m <= n <= |data| && Rows(data, headers, m).Err?
    ensures Rows(data, headers, n) == Rows(data, headers, m)
    decreases n
  {
    if m < n {
      RowsStayFailed(data, headers, m, n - 1);
    }
  }

  // ---------------------------------------------------------------- the loops

  /** Adds the keys `ks` one by one to an insertion-ordered set. */
  method AddEach(cols: seq<string>, ks: seq<string>) returns (r: seq<string>)
    ensures r == AddKeys(cols, ks)
  {
    r := cols;
    var i := 0;
    while i < |ks|
      invariant 0 <= i <= |ks|
      invariant r == AddKeys(cols, ks[..i])
    {
      assert ks[..i + 1][..i] == ks[..i];
      r := AddKey(r, ks[i]);
      i := i + 1;
    }
    assert ks[..|ks|] == ks;
  }

  /** Adds `ks` to the column set of sheet `h`. */
  method AddColumnsTo(s: SubSheets, h: string, ks: seq<string>) returns (t: SubSheets)
    ensures t == AddColumns(s, h, ks)
  {
    var cols := AddEach(ColumnsOf(s, h), ks);
    t := s.(columns := Put(s.columns, h, cols));
  }

  /** One element of an array value: wrapped or spread into a sub-row. */
  method ElementInto(t: SubSheets, h: string, rowId: nat, v: Value, wrap: bool) returns (r: Result<SubSheets, Fault>)
    ensures r == AddElement(t, h, rowId, v, wrap)
  {
    if wrap {
      r := Ok(Push(t, h, ValueRow(rowId, v)));
    } else {
      var pushed := Push(t, h, SpreadRow(rowId, Val(v)));
      var ks := ObjectKeys(Val(v));
      if ks.Err? {
        return Err(ks.error);
      }
      var added := AddColumnsTo(pushed, h, ks.value);
      r := Ok(added);
    }
  }

  /** The loop over a non-empty array value: one sub-row per element, wrapped or spread. */
  method ElementsInto(s: SubSheets, h: string, rowId: nat, items: seq<Value>, wrap: bool) returns (r: Result<SubSheets, Fault>)
    ensures r == AddElements(s, h, rowId, items, |items|, wrap)
  {
    var t := s;
    for e := 0 to |items|
      invariant AddElements(s, h, rowId, items, e, wrap) == Ok(t)
    {
      var ok, next := NextElement(s, h, rowId, items, wrap, e, t);
      if !ok {
        return Err(KeysOfNullish);
      }
      t := next;
    }
    r := Ok(t);
  }

  /**
   * Element `e` of the array, added to the sub-sheets the first `e` elements
   * produced; when it throws, the whole loop has thrown.
   */
  method NextElement(s: SubSheets, h: string, rowId: nat, items: seq<Value>, wrap: bool, e: nat, t: SubSheets)
    returns (ok: bool, next: SubSheets)
    requires e < |items| && AddElements(s, h, rowId, items, e, wrap) == Ok(t)
    ensures ok ==> AddElements(s, h, rowId, items, e + 1, wrap) == Ok(next)
    ensures !ok ==> AddElements(s, h, rowId, items, |items|, wrap) == Err(KeysOfNullish)
  {
    var r := ElementInto(t, h, rowId, items[e], wrap);
    ElementsStep(s, h, rowId, items, wrap, e, t);
    if r.Err? {
      AddElementThrows(t, h, rowId, items[e], wrap);
      SpreadNullFails(s, h, rowId, items, e);
      return false, t;
    }
    return true, r.value;
  }

  /** The body of the header loop: the main-row cell for `value`, and what it adds to the sub-sheets. */
  method ValueInto(s: SubSheets, h: string, rowId: nat, value: Js) returns (cell: Cell, r: Result<SubSheets, Fault>)
    ensures cell == CellFor(h, value)
    ensures r == AddValue(s, h, rowId, value)
  {
    if IsPrimitive(value) {
      cell := Plain(value);
      r := Ok(s);
    } else if value.v.Obj? {
      cell := Link("[View: " + h + "]", LinkTarget(h));
      var t := Open(s, h);
      t := Push(t, h, SpreadRow(rowId, value));
      t := AddColumnsTo(t, h, Keys(value.v.fields));
      r := Ok(t);
    } else if value.v.items == [] {
      cell := Plain(Val(Str("[]")));
      r := Ok(s);
    } else {
      var items := value.v.items;
      cell := Link("[View: " + h + " (" + Text.NatToDecimal(|items|) + ")]", LinkTarget(h));
      var t := Open(s, h);
      if IsPrimitive(Val(items[0])) {
        t := AddColumnsTo(t, h, ["value"]);
        r := ElementsInto(t, h, rowId, items, true);
      } else {
        r := ElementsInto(t, h, rowId, items, false);
      }
    }
  }

  /** The body of the row loop: the main row of `row` and the sub-sheets after it. */
  method RowInto(s: SubSheets, rowId: nat, row: Value, headers: seq<string>) returns (r: Result<(MainRow, SubSheets), Fault>)
    ensures r == RowCells(s, rowId, row, headers)
  {
    var mainRow, subs := HeadersInto(s, rowId, row, headers);
    RowDone(s, rowId, row, headers);
    if subs.Err? {
      return Err(subs.error);
    }
    r := Ok((mainRow, subs.value));
  }

  /** The header loop of a row: the main row so far and the sub-sheets, or the first error. */
  method HeadersInto(s: SubSheets, rowId: nat, row: Value, headers: seq<string>) returns (mainRow: MainRow, r: Result<SubSheets, Fault>)
    ensures r == SubCells(s, rowId, row, headers, |headers|)
    ensures r.Ok? ==> mainRow == MainCells(rowId, row, headers[..|headers|])
  {
    mainRow := [("_rowId", Plain(Val(Num(rowId))))];
    var subs := s;
    var j := 0;
    while j < |headers|
      invariant 0 <= j <= |headers|
      invariant mainRow == MainCells(rowId, row, headers[..j])
      invariant SubCells(s, rowId, row, headers, j) == Ok(subs)
    {
      var next;
      mainRow, next := HeaderInto(s, rowId, row, headers, j, mainRow, subs);
      if next.Err? {
        SubCellsStayFailed(s, rowId, row, headers, j + 1, |headers|);
        return mainRow, next;
      }
      subs := next.value;
      j := j + 1;
    }
    r := Ok(subs);
  }

  lemma RowDone(s: SubSheets, rowId: nat, row: Value, headers: seq<string>)
    ensures RowCells(s, rowId, row, headers)
         == if SubCells(s, rowId, row, headers, |headers|).Err? then Err(SubCells(s, rowId, row, headers, |headers|).error)
            else Ok((MainCells(rowId, row, headers[..|headers|]), SubCells(s, rowId, row, headers, |headers|).value))
  {
    assert headers[..|headers|] == headers;
  }

  /** One header of a row: the main row with its cell set, and the sub-sheets after it or the error reading it throws. */
  method HeaderInto(s: SubSheets, rowId: nat, row: Value, headers: seq<string>, j: nat, mainRow: MainRow, subs: SubSheets)
    returns (mainRow': MainRow, r: Result<SubSheets, Fault>)
    requires j < |headers| && SubCells(s, rowId, row, headers, j) == Ok(subs)
    requires mainRow == MainCells(rowId, row, headers[..j])
    ensures r == SubCells(s, rowId, row, headers, j + 1)
    ensures r.Ok? ==> mainRow' == MainCells(rowId, row, headers[..j + 1])
  {
    var got := GetProp(Val(row), headers[j]);
    if got.Err? {
      return mainRow, Err(got.error);
    }
    var cell;
    cell, r := ValueInto(subs, headers[j], rowId, got.value);
    MainCellsNext(rowId, row, headers, j);
    mainRow' := Put(mainRow, headers[j], cell);
  }

  lemma MainCellsNext(rowId: nat, row: Value, headers: seq<string>, j: nat)
    requires j < |headers|
    ensures MainCells(rowId, row, headers[..j + 1])
         == Put(MainCells(rowId, row, headers[..j]), headers[j], CellFor(headers[j], Read(row, headers[j])))
  {
    assert headers[..j + 1][..j] == headers[..j];
  }

  /** `buildSmartWorkbook(data, headers)` up to the spreadsheet library: the book, or the TypeError it throws. */
  method BuildSmartWorkbook(data: seq<Value>, headers: seq<string>) returns (r: Result<Book, Fault>)
    ensures r == Build(data, headers)
  {
    var mainSheet: seq<MainRow> := [];
    var subs := SubSheets([], []);
    var index := 0;
    while index < |data|
      invariant 0 <= index <= |data|
      invariant Rows(data, headers, index) == Ok((mainSheet, subs))
    {
      var next := RowInto(subs, index + 1, data[index], headers);
      if next.Err? {
        RowFails(data, headers, index, mainSheet, subs, next.error);
        return Err(next.error);
      }
      RowNext(data, headers, index, mainSheet, subs, next.value);
      mainSheet := mainSheet + [next.value.0];
      subs := next.value.1;
      index := index + 1;
    }
    var sheets := SheetsOf(subs);
    r := Ok(Book(["_rowId"] + headers, mainSheet, sheets));
  }

  lemma RowNext(data: seq<Value>, headers: seq<string>, index: nat, main: seq<MainRow>, subs: SubSheets, next: (MainRow, SubSheets))
    requires index < |data| && Rows(data, headers, index) == Ok((main, subs))
    requires RowCells(subs, index + 1, data[index], headers) == Ok(next)
    ensures Rows(data, headers, index + 1) == Ok((main + [next.0], next.1))
  {
  }

  /** A row that throws makes the whole export throw with the same error. */
  lemma RowFails(data: seq<Value>, headers: seq<string>, index: nat, main: seq<MainRow>, subs: SubSheets, f: Fault)
    requires index < |data| && Rows(data, headers, index) == Ok((main, subs))
    requires RowCells(subs, index + 1, data[index], headers) == Err(f)
    ensures Build(data, headers) == Err(f)
  {
    RowErr(data, headers, index, main, subs, f);
    RowsStayFailed(data, headers, index + 1, |data|);
  }

  lemma RowErr(data: seq<Value>, headers: seq<string>, index: nat, main: seq<MainRow>, subs: SubSheets, f: Fault)
    requires index < |data| && Rows(data, headers, index) == Ok((main, subs))
    requires RowCells(subs, index + 1, data[index], headers) == Err(f)
    ensures Rows(data, headers, index + 1) == Err(f)
  {
  }

  /** The loop over the sub-sheet dictionary: one sheet per key, in key order. */
  method SheetsOf(subs: SubSheets) returns (sheets: seq<Sheet>)
    ensures sheets == Assemble([], [], subs).sheets
  {
    ghost var all := Assemble([], [], subs).sheets;
    sheets := [];
    var k := 0;
    while k < |subs.rows|
      invariant 0 <= k <= |subs.rows|
      invariant sheets == all[..k]
    {
      var name := subs.rows[k].0;
      var sheetHeaders := ColumnsOf(subs, name);
      sheets := sheets + [Sheet(name, SheetTitle(name), SheetColumns(sheetHeaders), subs.rows[k].1)];
      k := k + 1;
    }
    assert sheets == all;
  }
}
