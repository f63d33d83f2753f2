/**
 * What `buildSmartWorkbook` promises about the sheets it hands to the
 * spreadsheet library, proved about the flattening in module Workbook.
 */
module WorkbookFacts {
  import opened Wrappers
  import opened Text
  import opened JsonValue
  import opened Workbook

  // ---------------------------------------------------------------- reference definitions

  /** How many sub-rows the value `x` contributes: one for an object, one per element of an array. */
  function Width(x: Js): nat
  {
    if IsPrimitive(x) then 0 else if x.v.Obj? then 1 else |x.v.items|
  }

  /** The sub-rows for the elements of an array, all shaped like the first one decides. */
  function ElementRows(rowId: nat, items: seq<Value>, wrap: bool): seq<SubRow>
  {
    seq(|items|, k requires 0 <= k < |items| =>
      if wrap then ValueRow(rowId, items[k]) else SpreadRow(rowId, Val(items[k])))
  }

  /** The sub-rows the value `x` under some header of row `rowId` contributes. */
  function NewRows(rowId: nat, x: Js): (r: seq<SubRow>)
    ensures |r| == Width(x)
  {
    if IsPrimitive(x) then []
    else if x.v.Obj? then [SpreadRow(rowId, x)]
    else if x.v.items == [] then []
    else ElementRows(rowId, x.v.items, IsPrimitive(Val(x.v.items[0])))
  }

  /** `Object.keys(e)`, or nothing where it throws. */
  function KeysOf(e: Value): seq<string>
  {
    match ObjectKeys(Val(e))
    case Ok(ks) => ks
    case Err(_) => []
  }

  /** The keys of each element, one element after another. */
  function ElementKeys(items: seq<Value>): seq<string>
  {
    if items == [] then [] else ElementKeys(items[..|items| - 1]) + KeysOf(items[|items| - 1])
  }

  /** The column names the value `x` offers to its sub-sheet, in the order they are added. */
  function NewKeys(x: Js): seq<string>
  {
    if IsPrimitive(x) then []
    else if x.v.Obj? then Keys(x.v.fields)
    else if x.v.items == [] then []
    else if IsPrimitive(Val(x.v.items[0])) then ["value"]
    else ElementKeys(x.v.items)
  }

  /** A non-empty array whose elements are spread and one of which is null: `Object.keys(null)` throws. */
  predicate Throws(x: Js)
  {
    x.Val? && x.v.Arr? && x.v.items != [] && !IsPrimitive(Val(x.v.items[0])) && Null in x.v.items
  }

  // ---------------------------------------------------------------- one step at a time

  lemma {:induction false} AddKeysAppend(cols: seq<string>, a: seq<string>, b: seq<string>)
    ensures AddKeys(AddKeys(cols, a), b) == AddKeys(cols, a + b)
    decreases |b|
  {
    if b == [] {
      assert a + b == a;
    } else {
      var init := b[..|b| - 1];
      AddKeysAppend(cols, a, init);
      assert (a + b)[..|a + b| - 1] == a + init;
    }
  }

  lemma OpenEffect(s: SubSheets, h: string)
    requires Consistent(s)
    ensures Consistent(Open(s, h))
    ensures FindKey(Open(s, h).rows, h).Some? && FindKey(Open(s, h).columns, h).Some?
    ensures Keys(Open(s, h).rows) == AddKey(Keys(s.rows), h)
    ensures forall k :: RowsOf(Open(s, h), k) == RowsOf(s, k) && ColumnsOf(Open(s, h), k) == ColumnsOf(s, k)
  {
    if FindKey(s.rows, h).Some? {
      assert h in Keys(s.rows);
    } else {
      OpenNew(s, h);
    }
  }

  /** Opening a sheet that is not there yet appends its key to both dictionaries, with no rows and no columns. */
  lemma OpenNew(s: SubSheets, h: string)
    requires Consistent(s) && FindKey(s.rows, h).None?
    ensures Keys(Open(s, h).rows) == Keys(s.rows) + [h] && h !in Keys(s.rows)
    ensures Consistent(Open(s, h))
    ensures forall k :: RowsOf(Open(s, h), k) == RowsOf(s, k) && ColumnsOf(Open(s, h), k) == ColumnsOf(s, k)
  {
    assert h !in Keys(s.rows);
    assert h !in Keys(s.columns);
    PutKeys(s.rows, h, []);
    PutKeys(s.columns, h, []);
    var t := SubSheets(Put(s.rows, h, []), Put(s.columns, h, []));
    assert Open(s, h) == t;
    AddEmptySheet(s, h);
  }

  lemma AddEmptySheet(s: SubSheets, h: string)
    requires FindKey(s.rows, h).None? && FindKey(s.columns, h).None?
    ensures var t := SubSheets(Put(s.rows, h, []), Put(s.columns, h, []));
      forall k :: RowsOf(t, k) == RowsOf(s, k) && ColumnsOf(t, k) == ColumnsOf(s, k)
  {
  }

  lemma PushEffect(s: SubSheets, h: string, row: SubRow)
    requires Consistent(s) && FindKey(s.rows, h).Some?
    ensures Consistent(Push(s, h, row))
    ensures FindKey(Push(s, h, row).rows, h).Some?
    ensures Keys(Push(s, h, row).rows) == Keys(s.rows)
    ensures RowsOf(Push(s, h, row), h) == RowsOf(s, h) + [row]
    ensures forall k :: k != h ==> RowsOf(Push(s, h, row), k) == RowsOf(s, k)
    ensures forall k :: ColumnsOf(Push(s, h, row), k) == ColumnsOf(s, k)
  {
    assert Push(s, h, row).columns == s.columns;
    PutKeys(s.rows, h, RowsOf(s, h) + [row]);
  }

  lemma AddColumnsEffect(s: SubSheets, h: string, ks: seq<string>)
    requires Consistent(s) && FindKey(s.rows, h).Some?
    ensures Consistent(AddColumns(s, h, ks))
    ensures FindKey(AddColumns(s, h, ks).columns, h).Some?
    ensures AddColumns(s, h, ks).rows == s.rows
    ensures ColumnsOf(AddColumns(s, h, ks), h) == AddKeys(ColumnsOf(s, h), ks)
    ensures forall k :: k != h ==> ColumnsOf(AddColumns(s, h, ks), k) == ColumnsOf(s, k)
  {
    assert h in Keys(s.rows);
    assert FindKey(s.columns, h).Some?;
    PutKeys(s.columns, h, AddKeys(ColumnsOf(s, h), ks));
  }

  /**
   * `t` is `s` with the rows `rows` pushed onto sheet `h` and the keys `cols`
   * added to its column set, every other sheet untouched.
   */
  ghost predicate Extends(s: SubSheets, t: SubSheets, h: string, rows: seq<SubRow>, cols: seq<string>)
  {
    Consistent(t) && FindKey(t.rows, h).Some? && Keys(t.rows) == Keys(s.rows) &&
    RowsOf(t, h) == RowsOf(s, h) + rows &&
    ColumnsOf(t, h) == AddKeys(ColumnsOf(s, h), cols) &&
    (forall k :: k != h ==> RowsOf(t, k) == RowsOf(s, k) && ColumnsOf(t, k) == ColumnsOf(s, k))
  }

  lemma ExtendsTrans(s: SubSheets, m: SubSheets, t: SubSheets, h: string,
                     r1: seq<SubRow>, c1: seq<string>, r2: seq<SubRow>, c2: seq<string>)
    requires Extends(s, m, h, r1, c1) && Extends(m, t, h, r2, c2)
    ensures Extends(s, t, h, r1 + r2, c1 + c2)
  {
    ConcatAssoc(RowsOf(s, h), r1, r2);
    AddKeysAppend(ColumnsOf(s, h), c1, c2);
  }

  lemma ConcatAssoc<T>(a: seq<T>, b: seq<T>, c: seq<T>)
    ensures (a + b) + c == a + (b + c)
  {
  }

  lemma ExtendsRefl(s: SubSheets, h: string)
    requires Consistent(s) && FindKey(s.rows, h).Some?
    ensures Extends(s, s, h, [], [])
  {
    assert RowsOf(s, h) + [] == RowsOf(s, h);
  }

  lemma SpreadElementEffect(s: SubSheets, h: string, rowId: nat, e: Value)
    requires Consistent(s) && FindKey(s.rows, h).Some? && e != Null
    ensures AddElement(s, h, rowId, e, false) == Ok(AddColumns(Push(s, h, SpreadRow(rowId, Val(e))), h, KeysOf(e)))
    ensures Extends(s, AddColumns(Push(s, h, SpreadRow(rowId, Val(e))), h, KeysOf(e)), h, [SpreadRow(rowId, Val(e))], KeysOf(e))
  {
    assert ObjectKeys(Val(e)) == Ok(KeysOf(e));
    SpreadExtends(s, h, SpreadRow(rowId, Val(e)), KeysOf(e));
  }

  lemma SpreadExtends(s: SubSheets, h: string, row: SubRow, ks: seq<string>)
    requires Consistent(s) && FindKey(s.rows, h).Some?
    ensures Extends(s, AddColumns(Push(s, h, row), h, ks), h, [row], ks)
  {
    var m := Push(s, h, row);
    var t := AddColumns(m, h, ks);
    PushEffect(s, h, row);
    AddColumnsEffect(m, h, ks);
    forall k | k != h
      ensures RowsOf(t, k) == RowsOf(s, k) && ColumnsOf(t, k) == ColumnsOf(s, k)
    {
      assert RowsOf(t, k) == RowsOf(m, k);
    }
  }


  /** Pushing the first `n` elements throws exactly at a null element that is spread. */
  lemma {:induction false} AddElementsThrows(s: SubSheets, h: string, rowId: nat, items: seq<Value>, n: nat, wrap: bool)
    requires n <= |items|
    ensures AddElements(s, h, rowId, items, n, wrap).Err? <==> !wrap && Null in items[..n]
    ensures AddElements(s, h, rowId, items, n, wrap).Err? ==> AddElements(s, h, rowId, items, n, wrap).error == KeysOfNullish
    decreases n
  {
    if n == 0 {
      assert items[..0] == [];
    } else {
      NullInSnoc(items, n);
      AddElementsThrows(s, h, rowId, items, n - 1, wrap);
      var r := AddElements(s, h, rowId, items, n - 1, wrap);
      if r.Ok? {
        AddElementThrows(r.value, h, rowId, items[n - 1], wrap);
        assert AddElements(s, h, rowId, items, n, wrap) == AddElement(r.value, h, rowId, items[n - 1], wrap);
      } else {
        assert AddElements(s, h, rowId, items, n, wrap) == Err(r.error);
      }
    }
  }

  lemma AddElementThrows(s: SubSheets, h: string, rowId: nat, e: Value, wrap: bool)
    ensures AddElement(s, h, rowId, e, wrap).Err? <==> !wrap && e == Null
    ensures AddElement(s, h, rowId, e, wrap).Err? ==> AddElement(s, h, rowId, e, wrap).error == KeysOfNullish
  {
  }

  lemma NullInSnoc(items: seq<Value>, n: nat)
    requires 0 < n <= |items|
    ensures Null in items[..n] <==> Null in items[..n - 1] || items[n - 1] == Null
  {
    assert items[..n] == items[..n - 1] + [items[n - 1]];
  }

  /** Wrapping the first `n` elements: one `{ _rowId, value }` sub-row each, and no new columns. */
  lemma {:induction false} WrapElementsEffect(s: SubSheets, h: string, rowId: nat, items: seq<Value>, n: nat)
    requires Consistent(s) && FindKey(s.rows, h).Some? && n <= |items|
    ensures AddElements(s, h, rowId, items, n, true).Ok?
    ensures Extends(s, AddElements(s, h, rowId, items, n, true).value, h, ElementRows(rowId, items[..n], true), [])
    decreases n
  {
    if n == 0 {
      AddElementsNone(s, h, rowId, items, true);
    } else {
      WrapElementsEffect(s, h, rowId, items, n - 1);
      var m := AddElements(s, h, rowId, items, n - 1, true).value;
      var row := ValueRow(rowId, items[n - 1]);
      var t := Push(m, h, row);
      assert AddElements(s, h, rowId, items, n, true) == Ok(t);
      PushEffect(m, h, row);
      assert AddKeys(ColumnsOf(m, h), []) == ColumnsOf(m, h);
      ElementsSnoc(rowId, items, n, true);
      ExtendsTrans(s, m, t, h, ElementRows(rowId, items[..n - 1], true), [], [row], []);
      var none: seq<string> := [];
      assert none + none == none;
    }
  }

  /** Spreading the first `n` elements, none of them null: one sub-row each, and each element's keys. */
  lemma {:induction false} SpreadElementsEffect(s: SubSheets, h: string, rowId: nat, items: seq<Value>, n: nat)
    requires Consistent(s) && FindKey(s.rows, h).Some? && n <= |items| && Null !in items[..n]
    ensures AddElements(s, h, rowId, items, n, false).Ok?
    ensures Extends(s, AddElements(s, h, rowId, items, n, false).value, h,
                    ElementRows(rowId, items[..n], false), ElementKeys(items[..n]))
    decreases n
  {
    if n == 0 {
      AddElementsNone(s, h, rowId, items, false);
    } else {
      ElementsSnoc(rowId, items, n, false);
      SpreadElementsEffect(s, h, rowId, items, n - 1);
      var m := AddElements(s, h, rowId, items, n - 1, false).value;
      var e := items[n - 1];
      SpreadElementEffect(m, h, rowId, e);
      var t := AddColumns(Push(m, h, SpreadRow(rowId, Val(e))), h, KeysOf(e));
      assert AddElements(s, h, rowId, items, n, false) == Ok(t);
      ExtendsTrans(s, m, t, h, ElementRows(rowId, items[..n - 1], false), ElementKeys(items[..n - 1]),
                   [SpreadRow(rowId, Val(e))], KeysOf(e));
    }
  }

  lemma AddElementsNone(s: SubSheets, h: string, rowId: nat, items: seq<Value>, wrap: bool)
    requires Consistent(s) && FindKey(s.rows, h).Some?
    ensures AddElements(s, h, rowId, items, 0, wrap) == Ok(s)
    ensures Extends(s, s, h, ElementRows(rowId, items[..0], wrap), if wrap then [] else ElementKeys(items[..0]))
  {
    assert items[..0] == [];
    assert ElementRows(rowId, [], wrap) == [];
    ExtendsRefl(s, h);
  }

  lemma ElementsSnoc(rowId: nat, items: seq<Value>, n: nat, wrap: bool)
    requires 0 < n <= |items|
    ensures Null in items[..n] <==> Null in items[..n - 1] || items[n - 1] == Null
    ensures ElementRows(rowId, items[..n], wrap) ==
      ElementRows(rowId, items[..n - 1], wrap) +
      [if wrap then ValueRow(rowId, items[n - 1]) else SpreadRow(rowId, Val(items[n - 1]))]
    ensures (if wrap then [] else ElementKeys(items[..n])) ==
      (if wrap then [] else ElementKeys(items[..n - 1])) + (if wrap then [] else KeysOf(items[n - 1]))
  {
    assert items[..n] == items[..n - 1] + [items[n - 1]];
    assert items[..n][..n - 1] == items[..n - 1];
  }

  /** One value throws exactly when it is an array of spread elements with a null, whatever the sub-sheets hold. */
  lemma AddValueThrows(s: SubSheets, h: string, rowId: nat, x: Js)
    ensures AddValue(s, h, rowId, x).Err? <==> Throws(x)
  {
    if !IsPrimitive(x) && x.v.Arr? && x.v.items != [] {
      var items := x.v.items;
      assert items[..|items|] == items;
      if IsPrimitive(Val(items[0])) {
        AddElementsThrows(AddColumns(Open(s, h), h, ["value"]), h, rowId, items, |items|, true);
      } else {
        AddElementsThrows(Open(s, h), h, rowId, items, |items|, false);
      }
    }
  }

  /**
   * What one value does to the sub-sheets: nothing when it is primitive or an
   * empty array; otherwise it opens sheet `h` and adds exactly its sub-rows and keys.
   */
  lemma AddValueEffect(s: SubSheets, h: string, rowId: nat, x: Js)
    requires Consistent(s)
    ensures Width(x) == 0 ==> AddValue(s, h, rowId, x) == Ok(s)
    ensures AddValue(s, h, rowId, x).Ok? && Width(x) > 0 ==>
      Extends(Open(s, h), AddValue(s, h, rowId, x).value, h, NewRows(rowId, x), NewKeys(x))
  {
    if !IsPrimitive(x) && !(x.v.Arr? && x.v.items == []) {
      OpenEffect(s, h);
      if x.v.Obj? {
        ObjectValueEffect(Open(s, h), h, rowId, x);
      } else if IsPrimitive(Val(x.v.items[0])) {
        WrappedArrayEffect(Open(s, h), h, rowId, x.v.items);
      } else if AddValue(s, h, rowId, x).Ok? {
        SpreadArrayEffect(s, h, rowId, x);
      }
    }
  }

  lemma SpreadArrayEffect(s: SubSheets, h: string, rowId: nat, x: Js)
    requires Consistent(Open(s, h)) && FindKey(Open(s, h).rows, h).Some?
    requires x.Val? && x.v.Arr? && x.v.items != [] && !IsPrimitive(Val(x.v.items[0]))
    requires AddValue(s, h, rowId, x).Ok?
    ensures Extends(Open(s, h), AddValue(s, h, rowId, x).value, h, NewRows(rowId, x), NewKeys(x))
  {
    var items := x.v.items;
    assert items[..|items|] == items;
    AddElementsThrows(Open(s, h), h, rowId, items, |items|, false);
    SpreadElementsEffect(Open(s, h), h, rowId, items, |items|);
  }

  lemma ObjectValueEffect(o: SubSheets, h: string, rowId: nat, x: Js)
    requires Consistent(o) && FindKey(o.rows, h).Some? && x.Val? && x.v.Obj?
    ensures Extends(o, AddColumns(Push(o, h, SpreadRow(rowId, x)), h, Keys(x.v.fields)), h, [SpreadRow(rowId, x)], Keys(x.v.fields))
  {
    var row := SpreadRow(rowId, x);
    PushEffect(o, h, row);
    AddColumnsEffect(Push(o, h, row), h, Keys(x.v.fields));
  }

  lemma WrappedArrayEffect(o: SubSheets, h: string, rowId: nat, items: seq<Value>)
    requires Consistent(o) && FindKey(o.rows, h).Some? && items != []
    ensures AddElements(AddColumns(o, h, ["value"]), h, rowId, items, |items|, true).Ok?
    ensures Extends(o, AddElements(AddColumns(o, h, ["value"]), h, rowId, items, |items|, true).value, h,
                    ElementRows(rowId, items, true), ["value"])
  {
    assert items[..|items|] == items;
    assert [] + ElementRows(rowId, items, true) == ElementRows(rowId, items, true);
    assert ["value"] + [] == ["value"];
    var o1 := AddColumns(o, h, ["value"]);
    AddColumnsEffect(o, h, ["value"]);
    assert Extends(o, o1, h, [], ["value"]);
    WrapElementsEffect(o1, h, rowId, items, |items|);
    var t := AddElements(o1, h, rowId, items, |items|, true);
    ExtendsTrans(o, o1, t.value, h, [], ["value"], ElementRows(rowId, items, true), []);
  }

  // ---------------------------------------------------------------- sequence identities

  lemma ConcatEmpty<T>(a: seq<T>)
    ensures a + [] == a && [] + a == a
  {
  }

  // ---------------------------------------------------------------- one row

  /** The sub-rows sheet `k` gets from row `rowId` through its first `n` headers, in header order. */
  function CellRows(rowId: nat, row: Value, headers: seq<string>, k: string, n: nat): seq<SubRow>
    requires n <= |headers|
  {
    if n == 0 then []
    else CellRows(rowId, row, headers, k, n - 1) + (if headers[n - 1] == k then NewRows(rowId, Read(row, k)) else [])
  }

  /** The column names sheet `k` is offered through the same headers, in the order they are added. */
  function CellKeys(row: Value, headers: seq<string>, k: string, n: nat): seq<string>
    requires n <= |headers|
  {
    if n == 0 then []
    else CellKeys(row, headers, k, n - 1) + (if headers[n - 1] == k then NewKeys(Read(row, k)) else [])
  }

  /** The headers among the first `n` whose value in `row` opens a sub-sheet, in header order. */
  function Opened(row: Value, headers: seq<string>, n: nat): seq<string>
    requires n <= |headers|
  {
    if n == 0 then []
    else Opened(row, headers, n - 1) + (if Width(Read(row, headers[n - 1])) > 0 then [headers[n - 1]] else [])
  }

  /** Reading the first `n` headers of `row` throws: `null[h]`, or `Object.keys(null)` inside an array. */
  predicate RowThrows(row: Value, headers: seq<string>, n: nat)
    requires n <= |headers|
  {
    (n > 0 && row == Null) || exists j :: 0 <= j < n && Throws(Read(row, headers[j]))
  }

  /**
   * The main row of row `rowId`: its columns are `_rowId` and then the headers
   * in first-seen order, each header holds the cell for that header's value,
   * and `_rowId` holds the row number unless a header of that name replaced it.
   */
  ghost predicate MainRowOf(mr: MainRow, rowId: nat, row: Value, headers: seq<string>)
  {
    MainRowIs(mr, rowId, headers, CellsOf(row))
  }

  /** The cell each header gets from `row`. */
  function CellsOf(row: Value): string -> Cell
  {
    h => CellFor(h, Read(row, h))
  }

  /** A main row with the given keys, whose header cells are given by `cell`. */
  ghost predicate MainRowIs(mr: MainRow, rowId: nat, headers: seq<string>, cell: string -> Cell)
  {
    Keys(mr) == AddKeys(["_rowId"], headers) &&
    (forall j :: 0 <= j < |headers| ==> Get(mr, headers[j]) == Some(cell(headers[j]))) &&
    ("_rowId" !in headers ==> Get(mr, "_rowId") == Some(Plain(Val(Num(rowId)))))
  }

  /** What the first `n` headers of row `rowId` have done to the sub-sheets: `t` after `s`. */
  ghost predicate RowDone(s: SubSheets, t: SubSheets, rowId: nat, row: Value, headers: seq<string>, n: nat)
    requires n <= |headers|
  {
    Consistent(t) &&
    Keys(t.rows) == AddKeys(Keys(s.rows), Opened(row, headers, n)) &&
    (forall k :: RowsOf(t, k) == RowsOf(s, k) + CellRows(rowId, row, headers, k, n)) &&
    (forall k :: ColumnsOf(t, k) == AddKeys(ColumnsOf(s, k), CellKeys(row, headers, k, n)))
  }

  lemma AddKeysOne(cols: seq<string>, k: string)
    ensures AddKeys(cols, [k]) == AddKey(cols, k)
  {
    assert [k][..0] == [];
  }

  lemma PutAddsKey<V>(fields: seq<(string, V)>, key: string, x: V)
    ensures Keys(Put(fields, key, x)) == AddKey(Keys(fields), key)
  {
    PutKeys(fields, key, x);
    if FindKey(fields, key).Some? {
      assert key in Keys(fields);
    } else {
      assert key !in Keys(fields);
    }
  }

  /** The main row after one more header. */
  lemma MainRowStep(mr: MainRow, rowId: nat, hs: seq<string>, h: string, cell: string -> Cell)
    requires MainRowIs(mr, rowId, hs, cell)
    ensures MainRowIs(Put(mr, h, cell(h)), rowId, hs + [h], cell)
  {
    var c := cell(h);
    var mr' := Put(mr, h, c);
    var hs' := hs + [h];
    MainRowKeysStep(mr, h, c, hs);
    forall j | 0 <= j < |hs'|
      ensures Get(mr', hs'[j]) == Some(cell(hs'[j]))
    {
      if j < |hs| {
        assert hs'[j] == hs[j];
      }
    }
    if "_rowId" !in hs' {
      assert "_rowId" != h;
    }
  }

  lemma MainRowKeysStep(mr: MainRow, h: string, c: Cell, hs: seq<string>)
    requires Keys(mr) == AddKeys(["_rowId"], hs)
    ensures Keys(Put(mr, h, c)) == AddKeys(["_rowId"], hs + [h])
  {
    assert (hs + [h])[..|hs|] == hs;
    PutAddsKey(mr, h, c);
  }

  /** A value that adds nothing to the sub-sheets: a primitive or an empty array. */
  lemma Quiet(rowId: nat, x: Js)
    requires Width(x) == 0
    ensures NewRows(rowId, x) == [] && NewKeys(x) == []
  {
  }

  /** The sub-sheets after one more header. */
  lemma SubSheetsStep(s: SubSheets, t: SubSheets, rowId: nat, row: Value, headers: seq<string>, n: nat)
    requires n < |headers| && RowDone(s, t, rowId, row, headers, n)
    requires AddValue(t, headers[n], rowId, Read(row, headers[n])).Ok?
    ensures RowDone(s, AddValue(t, headers[n], rowId, Read(row, headers[n])).value, rowId, row, headers, n + 1)
  {
    if Width(Read(row, headers[n])) == 0 {
      QuietStep(s, t, rowId, row, headers, n);
    } else {
      OpeningRowStep(s, t, rowId, row, headers, n);
    }
  }

  lemma QuietStep(s: SubSheets, t: SubSheets, rowId: nat, row: Value, headers: seq<string>, n: nat)
    requires n < |headers| && RowDone(s, t, rowId, row, headers, n)
    requires Width(Read(row, headers[n])) == 0
    ensures AddValue(t, headers[n], rowId, Read(row, headers[n])) == Ok(t)
    ensures RowDone(s, t, rowId, row, headers, n + 1)
  {
    var h := headers[n];
    var x := Read(row, h);
    Quiet(rowId, x);
    ConcatEmpty(Opened(row, headers, n));
    forall k
      ensures CellRows(rowId, row, headers, k, n + 1) == CellRows(rowId, row, headers, k, n)
      ensures CellKeys(row, headers, k, n + 1) == CellKeys(row, headers, k, n)
    {
      ConcatEmpty(CellRows(rowId, row, headers, k, n));
      ConcatEmpty(CellKeys(row, headers, k, n));
    }
    AddValueEffect(t, h, rowId, x);
  }

  lemma OpeningRowStep(s: SubSheets, t: SubSheets, rowId: nat, row: Value, headers: seq<string>, n: nat)
    requires n < |headers| && RowDone(s, t, rowId, row, headers, n)
    requires Width(Read(row, headers[n])) > 0
    requires AddValue(t, headers[n], rowId, Read(row, headers[n])).Ok?
    ensures RowDone(s, AddValue(t, headers[n], rowId, Read(row, headers[n])).value, rowId, row, headers, n + 1)
  {
    var h := headers[n];
    var x := Read(row, h);
    var t' := AddValue(t, h, rowId, x).value;
    OpenedStep(s, row, headers, n);
    OpeningStep(t, h, rowId, x);
    OpeningCells(s, t, t', rowId, row, headers, n);
  }

  lemma OpeningCells(s: SubSheets, t: SubSheets, t': SubSheets, rowId: nat, row: Value, headers: seq<string>, n: nat)
    requires n < |headers| && Width(Read(row, headers[n])) > 0
    requires forall k :: RowsOf(t, k) == RowsOf(s, k) + CellRows(rowId, row, headers, k, n)
    requires forall k :: ColumnsOf(t, k) == AddKeys(ColumnsOf(s, k), CellKeys(row, headers, k, n))
    requires RowsOf(t', headers[n]) == RowsOf(t, headers[n]) + NewRows(rowId, Read(row, headers[n]))
    requires ColumnsOf(t', headers[n]) == AddKeys(ColumnsOf(t, headers[n]), NewKeys(Read(row, headers[n])))
    requires forall k :: k != headers[n] ==> RowsOf(t', k) == RowsOf(t, k) && ColumnsOf(t', k) == ColumnsOf(t, k)
    ensures forall k :: RowsOf(t', k) == RowsOf(s, k) + CellRows(rowId, row, headers, k, n + 1)
    ensures forall k :: ColumnsOf(t', k) == AddKeys(ColumnsOf(s, k), CellKeys(row, headers, k, n + 1))
  {
    forall k ensures RowsOf(t', k) == RowsOf(s, k) + CellRows(rowId, row, headers, k, n + 1) {
      OpeningRows(s, t, t', rowId, row, headers, n, k);
    }
    forall k ensures ColumnsOf(t', k) == AddKeys(ColumnsOf(s, k), CellKeys(row, headers, k, n + 1)) {
      OpeningColumns(s, t, t', row, headers, n, k);
    }
  }

  lemma OpeningRows(s: SubSheets, t: SubSheets, t': SubSheets, rowId: nat, row: Value, headers: seq<string>, n: nat, k: string)
    requires n < |headers|
    requires RowsOf(t, k) == RowsOf(s, k) + CellRows(rowId, row, headers, k, n)
    requires k == headers[n] ==> RowsOf(t', k) == RowsOf(t, k) + NewRows(rowId, Read(row, k))
    requires k != headers[n] ==> RowsOf(t', k) == RowsOf(t, k)
    ensures RowsOf(t', k) == RowsOf(s, k) + CellRows(rowId, row, headers, k, n + 1)
  {
    if k == headers[n] {
      ConcatAssoc(RowsOf(s, k), CellRows(rowId, row, headers, k, n), NewRows(rowId, Read(row, k)));
    } else {
      ConcatEmpty(CellRows(rowId, row, headers, k, n));
    }
  }

  lemma OpeningColumns(s: SubSheets, t: SubSheets, t': SubSheets, row: Value, headers: seq<string>, n: nat, k: string)
    requires n < |headers|
    requires ColumnsOf(t, k) == AddKeys(ColumnsOf(s, k), CellKeys(row, headers, k, n))
    requires k == headers[n] ==> ColumnsOf(t', k) == AddKeys(ColumnsOf(t, k), NewKeys(Read(row, k)))
    requires k != headers[n] ==> ColumnsOf(t', k) == ColumnsOf(t, k)
    ensures ColumnsOf(t', k) == AddKeys(ColumnsOf(s, k), CellKeys(row, headers, k, n + 1))
  {
    if k == headers[n] {
      AddKeysAppend(ColumnsOf(s, k), CellKeys(row, headers, k, n), NewKeys(Read(row, k)));
    } else {
      ConcatEmpty(CellKeys(row, headers, k, n));
    }
  }

  lemma OpenedStep(s: SubSheets, row: Value, headers: seq<string>, n: nat)
    requires n < |headers| && Width(Read(row, headers[n])) > 0
    ensures AddKeys(Keys(s.rows), Opened(row, headers, n + 1)) == AddKey(AddKeys(Keys(s.rows), Opened(row, headers, n)), headers[n])
  {
    var before := Opened(row, headers, n);
    assert Opened(row, headers, n + 1) == before + [headers[n]];
    AddKeysAppend(Keys(s.rows), before, [headers[n]]);
    AddKeysOne(AddKeys(Keys(s.rows), before), headers[n]);
  }

  /** A value that opens sheet `h` adds its sub-rows and keys to that sheet alone, and `h` to the sheet keys. */
  lemma OpeningStep(t: SubSheets, h: string, rowId: nat, x: Js)
    requires Consistent(t) && Width(x) > 0 && AddValue(t, h, rowId, x).Ok?
    ensures var t' := AddValue(t, h, rowId, x).value;
      Consistent(t') && Keys(t'.rows) == AddKey(Keys(t.rows), h) &&
      RowsOf(t', h) == RowsOf(t, h) + NewRows(rowId, x) &&
      ColumnsOf(t', h) == AddKeys(ColumnsOf(t, h), NewKeys(x)) &&
      forall k :: k != h ==> RowsOf(t', k) == RowsOf(t, k) && ColumnsOf(t', k) == ColumnsOf(t, k)
  {
    OpenEffect(t, h);
    AddValueEffect(t, h, rowId, x);
  }

  lemma RowThrowsStep(row: Value, headers: seq<string>, n: nat)
    requires 0 < n <= |headers|
    ensures RowThrows(row, headers, n) <==>
      RowThrows(row, headers, n - 1) || row == Null || Throws(Read(row, headers[n - 1]))
  {
    if Throws(Read(row, headers[n - 1])) {
      assert 0 <= n - 1 < n;
    }
    if RowThrows(row, headers, n - 1) && row != Null {
      var j :| 0 <= j < n - 1 && Throws(Read(row, headers[j]));
      assert 0 <= j < n;
    }
  }

  lemma RowStart(s: SubSheets, rowId: nat, row: Value, headers: seq<string>)
    requires Consistent(s)
    ensures RowDone(s, s, rowId, row, headers, 0)
  {
    forall k ensures RowsOf(s, k) == RowsOf(s, k) + CellRows(rowId, row, headers, k, 0) {
      ConcatEmpty(RowsOf(s, k));
    }
  }

  /** The sub-sheet part of a row throws exactly when RowThrows says so, whatever the sub-sheets hold. */
  lemma {:induction false} SubCellsThrows(s: SubSheets, rowId: nat, row: Value, headers: seq<string>, n: nat)
    requires n <= |headers|
    ensures SubCells(s, rowId, row, headers, n).Err? <==> RowThrows(row, headers, n)
    decreases n
  {
    if n > 0 {
      RowThrowsStep(row, headers, n);
      SubCellsThrows(s, rowId, row, headers, n - 1);
      var prev := SubCells(s, rowId, row, headers, n - 1);
      if prev.Ok? && row != Null {
        AddValueThrows(prev.value, headers[n - 1], rowId, Read(row, headers[n - 1]));
      }
    }
  }

  /** One row's effect on the sub-sheets, as RowDone describes it. */
  lemma {:induction false} SubCellsEffect(s: SubSheets, rowId: nat, row: Value, headers: seq<string>, n: nat)
    requires Consistent(s) && n <= |headers| && SubCells(s, rowId, row, headers, n).Ok?
    ensures RowDone(s, SubCells(s, rowId, row, headers, n).value, rowId, row, headers, n)
    decreases n
  {
    if n == 0 {
      RowStart(s, rowId, row, headers);
    } else {
      var prev := SubCells(s, rowId, row, headers, n - 1);
      SubCellsEffect(s, rowId, row, headers, n - 1);
      SubSheetsStep(s, prev.value, rowId, row, headers, n - 1);
    }
  }

  /** The main row a row produces. */
  lemma {:induction false} MainCellsOf(rowId: nat, row: Value, hs: seq<string>)
    ensures MainRowOf(MainCells(rowId, row, hs), rowId, row, hs)
    decreases |hs|
  {
    if hs == [] {
      assert AddKeys(["_rowId"], []) == ["_rowId"];
    } else {
      var init := hs[..|hs| - 1];
      var h := hs[|hs| - 1];
      var prev := MainCells(rowId, row, init);
      MainCellsOf(rowId, row, init);
      assert MainRowIs(prev, rowId, init, CellsOf(row));
      MainRowStep(prev, rowId, init, h, CellsOf(row));
      assert hs == init + [h];
      MainCellsSnoc(rowId, row, hs);
    }
  }

  lemma MainCellsSnoc(rowId: nat, row: Value, hs: seq<string>)
    requires hs != []
    ensures MainCells(rowId, row, hs) == Put(MainCells(rowId, row, hs[..|hs| - 1]), hs[|hs| - 1], CellsOf(row)(hs[|hs| - 1]))
  {
    var h := hs[|hs| - 1];
    assert CellsOf(row)(h) == CellFor(h, Read(row, h));
  }
}
