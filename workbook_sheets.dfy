/**
 * The whole flattening of `buildSmartWorkbook`: what every row of the table
 * contributes to the main sheet and to each sub-sheet, and the book handed to
 * the spreadsheet library.
 */
module WorkbookSheets {
  import opened Wrappers
  import opened Text
  import opened JsonValue
  import opened Workbook
  import opened WorkbookFacts

  // ---------------------------------------------------------------- reference definitions

  /** The sub-rows sheet `k` gets from the first `n` rows, row after row. */
  function AllRows(data: seq<Value>, headers: seq<string>, k: string, n: nat): seq<SubRow>
    requires n <= |data|
  {
    if n == 0 then [] else AllRows(data, headers, k, n - 1) + CellRows(n, data[n - 1], headers, k, |headers|)
  }

  /** The column names sheet `k` is offered by the first `n` rows, in the order they are added. */
  function AllKeys(data: seq<Value>, headers: seq<string>, k: string, n: nat): seq<string>
    requires n <= |data|
  {
    if n == 0 then [] else AllKeys(data, headers, k, n - 1) + CellKeys(data[n - 1], headers, k, |headers|)
  }

  /** The headers whose value opens a sub-sheet, row after row (with repeats). */
  function AllOpened(data: seq<Value>, headers: seq<string>, n: nat): seq<string>
    requires n <= |data|
    decreases n, 1
  {
    if n == 0 then [] else OpenedThrough(data, headers, n)
  }

  /** The sheets opened by row `n - 1`, after those opened by the rows before it. */
  function OpenedThrough(data: seq<Value>, headers: seq<string>, n: nat): seq<string>
    requires 0 < n <= |data|
    decreases n, 0
  {
    AllOpened(data, headers, n - 1) + Opened(data[n - 1], headers, |headers|)
  }

  /** Some row among the first `n` throws. */
  predicate AnyRowThrows(data: seq<Value>, headers: seq<string>, n: nat)
    requires n <= |data|
  {
    exists i :: 0 <= i < n && RowThrows(data[i], headers, |headers|)
  }

  /** The headers of the sub-sheets, in the order they are first opened. */
  function SheetHeaders(data: seq<Value>, headers: seq<string>): seq<string>
  {
    AddKeys([], AllOpened(data, headers, |data|))
  }

  /** The value under header `h` opens a sub-sheet: an object, or an array with elements. */
  predicate Nested(x: Js)
  {
    x.Val? && (x.v.Obj? || (x.v.Arr? && x.v.items != []))
  }

  /** What the first `n` rows have produced: main rows in input order, and the sub-sheets as the reference definitions say. */
  ghost predicate RowsDone(data: seq<Value>, headers: seq<string>, n: nat, main: seq<MainRow>, s: SubSheets)
    requires n <= |data|
  {
    |main| == n &&
    (forall i :: 0 <= i < n ==> main[i] == MainCells(i + 1, data[i], headers)) &&
    Consistent(s) &&
    Keys(s.rows) == AddKeys([], AllOpened(data, headers, n)) &&
    (forall k :: RowsOf(s, k) == AllRows(data, headers, k, n)) &&
    (forall k :: ColumnsOf(s, k) == AddKeys([], AllKeys(data, headers, k, n)))
  }

  // ---------------------------------------------------------------- all rows

  lemma AnyRowThrowsStep(data: seq<Value>, headers: seq<string>, n: nat)
    requires 0 < n <= |data|
    ensures AnyRowThrows(data, headers, n) <==>
      AnyRowThrows(data, headers, n - 1) || RowThrows(data[n - 1], headers, |headers|)
  {
    if RowThrows(data[n - 1], headers, |headers|) {
      assert 0 <= n - 1 < n;
    }
    if AnyRowThrows(data, headers, n - 1) {
      var i :| 0 <= i < n - 1 && RowThrows(data[i], headers, |headers|);
      assert 0 <= i < n;
    }
  }

  /** The rows throw exactly when one of them does. */
  lemma {:induction false} RowsThrows(data: seq<Value>, headers: seq<string>, n: nat)
    requires n <= |data|
    ensures Rows(data, headers, n).Err? <==> AnyRowThrows(data, headers, n)
    decreases n
  {
    if n > 0 {
      RowsThrows(data, headers, n - 1);
      AnyRowThrowsStep(data, headers, n);
      var prev := Rows(data, headers, n - 1);
      if prev.Ok? {
        SubCellsThrows(prev.value.1, n, data[n - 1], headers, |headers|);
      }
    }
  }

  lemma RowsStart(data: seq<Value>, headers: seq<string>)
    ensures RowsDone(data, headers, 0, [], SubSheets([], []))
  {
    var none: seq<string> := [];
    assert AddKeys([], none) == [];
  }

  /** One more row appends its main row and extends the sub-sheets as RowDone says. */
  lemma RowsStep(data: seq<Value>, headers: seq<string>, n: nat, main: seq<MainRow>, s: SubSheets, t: SubSheets)
    requires 0 < n <= |data| && RowsDone(data, headers, n - 1, main, s)
    requires RowDone(s, t, n, data[n - 1], headers, |headers|)
    ensures RowsDone(data, headers, n, main + [MainCells(n, data[n - 1], headers)], t)
  {
    MainStep(data, headers, n, main);
    SheetKeysStep(data, headers, n, s, t);
    forall k ensures RowsOf(t, k) == AllRows(data, headers, k, n) {
      SheetRowsStep(data, headers, n, k, s, t);
    }
    forall k ensures ColumnsOf(t, k) == AddKeys([], AllKeys(data, headers, k, n)) {
      SheetColumnsStep(data, headers, n, k, s, t);
    }
  }

  lemma MainStep(data: seq<Value>, headers: seq<string>, n: nat, main: seq<MainRow>)
    requires 0 < n <= |data| && |main| == n - 1
    requires forall i :: 0 <= i < n - 1 ==> main[i] == MainCells(i + 1, data[i], headers)
    ensures var main' := main + [MainCells(n, data[n - 1], headers)];
      |main'| == n && forall i :: 0 <= i < n ==> main'[i] == MainCells(i + 1, data[i], headers)
  {
  }

  lemma SheetKeysStep(data: seq<Value>, headers: seq<string>, n: nat, s: SubSheets, t: SubSheets)
    requires 0 < n <= |data|
    requires Keys(s.rows) == AddKeys([], AllOpened(data, headers, n - 1))
    requires Keys(t.rows) == AddKeys(Keys(s.rows), Opened(data[n - 1], headers, |headers|))
    ensures Keys(t.rows) == AddKeys([], AllOpened(data, headers, n))
  {
    AddKeysAppend([], AllOpened(data, headers, n - 1), Opened(data[n - 1], headers, |headers|));
  }

  lemma SheetRowsStep(data: seq<Value>, headers: seq<string>, n: nat, k: string, s: SubSheets, t: SubSheets)
    requires 0 < n <= |data|
    requires RowsOf(s, k) == AllRows(data, headers, k, n - 1)
    requires RowsOf(t, k) == RowsOf(s, k) + CellRows(n, data[n - 1], headers, k, |headers|)
    ensures RowsOf(t, k) == AllRows(data, headers, k, n)
  {
  }

  lemma SheetColumnsStep(data: seq<Value>, headers: seq<string>, n: nat, k: string, s: SubSheets, t: SubSheets)
    requires 0 < n <= |data|
    requires ColumnsOf(s, k) == AddKeys([], AllKeys(data, headers, k, n - 1))
    requires ColumnsOf(t, k) == AddKeys(ColumnsOf(s, k), CellKeys(data[n - 1], headers, k, |headers|))
    ensures ColumnsOf(t, k) == AddKeys([], AllKeys(data, headers, k, n))
  {
    AddKeysAppend([], AllKeys(data, headers, k, n - 1), CellKeys(data[n - 1], headers, k, |headers|));
  }

  /** All rows, as RowsDone describes them. */
  lemma {:induction false} RowsEffect(data: seq<Value>, headers: seq<string>, n: nat)
    requires n <= |data| && Rows(data, headers, n).Ok?
    ensures RowsDone(data, headers, n, Rows(data, headers, n).value.0, Rows(data, headers, n).value.1)
    decreases n
  {
    if n == 0 {
      RowsStart(data, headers);
    } else {
      var prev := Rows(data, headers, n - 1).value;
      RowsEffect(data, headers, n - 1);
      var sub := SubCells(prev.1, n, data[n - 1], headers, |headers|);
      assert sub.Ok?;
      assert Rows(data, headers, n).value == (prev.0 + [MainCells(n, data[n - 1], headers)], sub.value);
      SubCellsEffect(prev.1, n, data[n - 1], headers, |headers|);
      RowsStep(data, headers, n, prev.0, prev.1, sub.value);
    }
  }

  // ---------------------------------------------------------------- the book

  /** The export throws exactly when some row does: a null row, or a spread array holding null. */
  lemma BuildThrows(data: seq<Value>, headers: seq<string>)
    ensures Build(data, headers).Err? <==> exists i :: 0 <= i < |data| && RowThrows(data[i], headers, |headers|)
  {
    RowsThrows(data, headers, |data|);
  }

  /**
   * The main sheet: columns `_rowId` and the headers, one row per input row
   * in input order, row `i` numbered `i + 1` and holding the cell for each
   * header's value.
   */
  lemma BuildMain(data: seq<Value>, headers: seq<string>)
    requires Build(data, headers).Ok?
    ensures var b := Build(data, headers).value;
      b.mainColumns == ["_rowId"] + headers && |b.mainRows| == |data| &&
      forall i :: 0 <= i < |data| ==> MainRowOf(b.mainRows[i], i + 1, data[i], headers)
  {
    var p := Rows(data, headers, |data|).value;
    RowsEffect(data, headers, |data|);
    assert Build(data, headers).value == Assemble(headers, p.0, p.1);
    MainRowsOf(data, headers, p.0);
  }

  lemma MainRowsOf(data: seq<Value>, headers: seq<string>, main: seq<MainRow>)
    requires |main| == |data| && forall i :: 0 <= i < |data| ==> main[i] == MainCells(i + 1, data[i], headers)
    ensures forall i :: 0 <= i < |data| ==> MainRowOf(main[i], i + 1, data[i], headers)
  {
    forall i | 0 <= i < |data| ensures MainRowOf(main[i], i + 1, data[i], headers) {
      MainRowAt(main[i], i + 1, data[i], headers);
    }
  }

  lemma MainRowAt(m: MainRow, rowId: nat, row: Value, headers: seq<string>)
    requires m == MainCells(rowId, row, headers)
    ensures MainRowOf(m, rowId, row, headers)
  {
    MainCellsOf(rowId, row, headers);
  }

  /** In a dictionary with distinct keys, looking up the key at position `i` finds entry `i`. */
  lemma SheetAt(s: SubSheets, i: nat)
    requires i < |s.rows| && Distinct(Keys(s.rows))
    ensures RowsOf(s, s.rows[i].0) == s.rows[i].1
  {
    var ks := Keys(s.rows);
    forall j | 0 <= j < i ensures s.rows[j].0 != s.rows[i].0 {
      assert ks[j] != ks[i];
    }
    FindKeyUnique(s.rows, s.rows[i].0, i);
  }

  /**
   * The sub-sheets: one per header that ever opened one, without repeats, in
   * the order they were first opened; each titled with its header cut to 31
   * characters, holding the sub-rows every row gave it and the columns
   * `_rowId` and then the keys offered to it, in first-seen order.
   */
  lemma BuildSheets(data: seq<Value>, headers: seq<string>)
    requires Build(data, headers).Ok?
    ensures var b := Build(data, headers).value; var hs := SheetHeaders(data, headers);
      Distinct(hs) && |b.sheets| == |hs| &&
      forall i :: 0 <= i < |hs| ==>
        b.sheets[i] == Sheet(hs[i], SheetTitle(hs[i]),
                             SheetColumns(AddKeys([], AllKeys(data, headers, hs[i], |data|))),
                             AllRows(data, headers, hs[i], |data|))
  {
    var none: seq<string> := [];
    AddKeysGrows(none, AllOpened(data, headers, |data|));
    RowsEffect(data, headers, |data|);
    var s := Rows(data, headers, |data|).value.1;
    var hs := SheetHeaders(data, headers);
    forall i | 0 <= i < |hs| ensures s.rows[i].0 == hs[i] && RowsOf(s, hs[i]) == s.rows[i].1 {
      assert Keys(s.rows)[i] == s.rows[i].0;
      SheetAt(s, i);
    }
  }

  // ---------------------------------------------------------------- which sheets exist

  lemma WidthNested(x: Js)
    ensures Width(x) > 0 <==> Nested(x)
  {
  }

  lemma {:induction false} OpenedMember(row: Value, headers: seq<string>, n: nat, k: string)
    requires n <= |headers|
    ensures k in Opened(row, headers, n) <==> (exists j :: 0 <= j < n && headers[j] == k) && Nested(Read(row, k))
    decreases n
  {
    if n > 0 {
      OpenedMember(row, headers, n - 1, k);
      WidthNested(Read(row, headers[n - 1]));
      if (exists j :: 0 <= j < n && headers[j] == k) && Nested(Read(row, k)) {
        var j :| 0 <= j < n && headers[j] == k;
        if j < n - 1 {
          assert 0 <= j < n - 1 && headers[j] == k;
        }
      }
      if exists j :: 0 <= j < n - 1 && headers[j] == k {
        var j :| 0 <= j < n - 1 && headers[j] == k;
        assert 0 <= j < n;
      }
    }
  }

  /** The sheets each row opens, row by row. */
  function OpenedLists(data: seq<Value>, headers: seq<string>): (r: seq<seq<string>>)
    ensures |r| == |data| && forall i :: 0 <= i < |data| ==> r[i] == Opened(data[i], headers, |headers|)
  {
    seq(|data|, i requires 0 <= i < |data| => Opened(data[i], headers, |headers|))
  }

  /** Some list among the first `n` holds `k`. */
  ghost predicate InSome(lists: seq<seq<string>>, n: nat, k: string)
    requires n <= |lists|
  {
    exists i :: 0 <= i < n && k in lists[i]
  }

  lemma InSomeStep(lists: seq<seq<string>>, n: nat, k: string)
    requires 0 < n <= |lists|
    ensures InSome(lists, n, k) <==> InSome(lists, n - 1, k) || k in lists[n - 1]
  {
    if InSome(lists, n, k) {
      var i :| 0 <= i < n && k in lists[i];
      if i < n - 1 {
        assert 0 <= i < n - 1 && k in lists[i];
      }
    }
    if k in lists[n - 1] {
      assert 0 <= n - 1 < n;
    }
    if InSome(lists, n - 1, k) {
      var i :| 0 <= i < n - 1 && k in lists[i];
      assert 0 <= i < n;
    }
  }

  lemma {:induction false} AllOpenedMember(data: seq<Value>, headers: seq<string>, n: nat, k: string)
    requires n <= |data|
    ensures k in AllOpened(data, headers, n) <==> InSome(OpenedLists(data, headers), n, k)
    decreases n
  {
    if n > 0 {
      AllOpenedMember(data, headers, n - 1, k);
      InSomeStep(OpenedLists(data, headers), n, k);
    }
  }

  /** Sheet `k` exists exactly when `k` is a header and some row holds an object or a non-empty array under it. */
  lemma SheetExists(data: seq<Value>, headers: seq<string>, k: string)
    ensures k in SheetHeaders(data, headers) <==> k in headers && exists i :: 0 <= i < |data| && Nested(Read(data[i], k))
  {
    var none: seq<string> := [];
    AddKeysGrows(none, AllOpened(data, headers, |data|));
    AllOpenedMember(data, headers, |data|, k);
    if k in headers {
      var j :| 0 <= j < |headers| && headers[j] == k;
      forall i | 0 <= i < |data| ensures k in Opened(data[i], headers, |headers|) <==> Nested(Read(data[i], k)) {
        OpenedMember(data[i], headers, |headers|, k);
      }
    } else {
      forall i | 0 <= i < |data| ensures k !in Opened(data[i], headers, |headers|) {
        OpenedMember(data[i], headers, |headers|, k);
      }
    }
  }

  // ---------------------------------------------------------------- links

  /** A cell is a link exactly when its value opens a sub-sheet, and it links to cell A1 of that sheet. */
  lemma CellLinks(h: string, x: Js)
    ensures CellFor(h, x).Link? <==> Nested(x)
    ensures CellFor(h, x).Link? ==> CellFor(h, x).target == LinkTarget(h)
    ensures !Nested(x) ==> CellFor(h, x) == (if IsPrimitive(x) then Plain(x) else Plain(Val(Str("[]"))))
  {
  }

  /**
   * Hyperlink `(r, c, target)` sits at one of `rows` data rows and a header
   * column, and points at cell A1 of the sheet named after that header, which exists.
   */
  ghost predicate Resolves(b: Book, headers: seq<string>, rows: nat, r: nat, c: nat, target: string)
  {
    1 <= r <= rows && 1 <= c <= |headers| && target == LinkTarget(headers[c - 1]) &&
    exists p :: 0 <= p < |b.sheets| && b.sheets[p].header == headers[c - 1] &&
                target == "'" + b.sheets[p].title + "'!A1"
  }

  /** Every hyperlink of the main sheet resolves. */
  lemma LinksResolve(data: seq<Value>, headers: seq<string>)
    requires Build(data, headers).Ok?
    ensures forall r, c, target :: (r, c, target) in Links(Build(data, headers).value, headers) ==>
              Resolves(Build(data, headers).value, headers, |data|, r, c, target)
  {
    var b := Build(data, headers).value;
    BuildMain(data, headers);
    forall r, c, target | (r, c, target) in Links(b, headers)
      ensures Resolves(b, headers, |data|, r, c, target)
    {
      var p := LinkSheet(data, headers, b, r, c, target);
    }
  }

  /** One hyperlink of the main sheet, and the sheet `p` it points at. */
  lemma LinkSheet(data: seq<Value>, headers: seq<string>, b: Book, r: nat, c: nat, target: string) returns (p: nat)
    requires Build(data, headers) == Ok(b) && |b.mainRows| == |data|
    requires forall i :: 0 <= i < |data| ==> MainRowOf(b.mainRows[i], i + 1, data[i], headers)
    requires (r, c, target) in Links(b, headers)
    ensures 1 <= r <= |data| && 1 <= c <= |headers| && target == LinkTarget(headers[c - 1])
    ensures p < |b.sheets| && b.sheets[p].header == headers[c - 1] && target == "'" + b.sheets[p].title + "'!A1"
  {
    var i, j := LinkSource(b, headers, r, c, target);
    p := LinkResolves(data, headers, b, i, j);
  }

  /** The main-sheet cell a hyperlink comes from. */
  lemma LinkSource(b: Book, headers: seq<string>, r: nat, c: nat, target: string) returns (i: nat, j: nat)
    requires (r, c, target) in Links(b, headers)
    ensures i < |b.mainRows| && j < |headers| && IsLinkAt(b.mainRows[i], headers[j])
    ensures r == i + 1 && c == j + 1 && target == Get(b.mainRows[i], headers[j]).value.target
  {
    i, j :| 0 <= i < |b.mainRows| && 0 <= j < |headers| && IsLinkAt(b.mainRows[i], headers[j]) &&
      (r, c, target) == (i + 1, j + 1, Get(b.mainRows[i], headers[j]).value.target);
  }

  /** One hyperlink: its target is the sheet of its column's header, which exists. */
  lemma LinkResolves(data: seq<Value>, headers: seq<string>, b: Book, i: nat, j: nat) returns (p: nat)
    requires Build(data, headers) == Ok(b) && i < |data| && j < |headers| && i < |b.mainRows|
    requires MainRowOf(b.mainRows[i], i + 1, data[i], headers)
    requires IsLinkAt(b.mainRows[i], headers[j])
    ensures Get(b.mainRows[i], headers[j]).value.target == LinkTarget(headers[j])
    ensures p < |b.sheets| && b.sheets[p].header == headers[j] && b.sheets[p].title == SheetTitle(headers[j])
  {
    var h := headers[j];
    assert Get(b.mainRows[i], h) == Some(CellsOf(data[i])(h));
    CellLinks(h, Read(data[i], h));
    SheetExists(data, headers, h);
    BuildSheets(data, headers);
    var hs := SheetHeaders(data, headers);
    p :| 0 <= p < |hs| && hs[p] == h;
    assert b.sheets[p].header == h && b.sheets[p].title == SheetTitle(h);
  }

  /** Row `i`, column `j` of the main sheet is a link exactly when the value there opens a sub-sheet. */
  lemma LinkIff(data: seq<Value>, headers: seq<string>, i: nat, j: nat)
    requires Build(data, headers).Ok? && i < |data| && j < |headers|
    ensures var b := Build(data, headers).value;
      (i + 1, j + 1, LinkTarget(headers[j])) in Links(b, headers) <==> Nested(Read(data[i], headers[j]))
  {
    var b := Build(data, headers).value;
    BuildMain(data, headers);
    var h := headers[j];
    assert Get(b.mainRows[i], h) == Some(CellsOf(data[i])(h));
    CellLinks(h, Read(data[i], h));
  }

  // ---------------------------------------------------------------- sub-sheet columns and rows

  lemma DistinctInit(cols: seq<string>)
    requires cols != [] && Distinct(cols)
    ensures Distinct(cols[..|cols| - 1]) && cols[|cols| - 1] !in cols[..|cols| - 1]
  {
  }

  lemma FirstIndexInit(cols: seq<string>, x: string)
    requires cols != [] && x in cols[..|cols| - 1]
    ensures FirstIndex(cols, x) == FirstIndex(cols[..|cols| - 1], x)
  {
  }

  /** Dropping a name keeps the other columns in the order they were first seen. */
  lemma {:induction false} WithoutOrder(cols: seq<string>, k: string)
    requires Distinct(cols)
    ensures forall p, q :: 0 <= p < q < |Without(cols, k)| ==>
      FirstIndex(cols, Without(cols, k)[p]) < FirstIndex(cols, Without(cols, k)[q])
    decreases |cols|
  {
    if cols != [] {
      var init := cols[..|cols| - 1];
      var last := cols[|cols| - 1];
      DistinctInit(cols);
      WithoutOrder(init, k);
      var r0 := Without(init, k);
      assert cols == init + [last];
      var r := Without(cols, k);
      if last != k {
        assert r == r0 + [last];
        assert FirstIndex(cols, last) == |cols| - 1;
      } else {
        assert r == r0;
      }
      forall p, q | 0 <= p < q < |r| ensures FirstIndex(cols, r[p]) < FirstIndex(cols, r[q]) {
        assert r[p] == r0[p] && r[p] in init;
        FirstIndexInit(cols, r[p]);
        if q < |r0| {
          assert r[q] == r0[q] && r[q] in init;
          FirstIndexInit(cols, r[q]);
        } else {
          assert r[q] == last;
        }
      }
    }
  }

  /**
   * A sub-sheet's final columns: `_rowId` first, then every other name offered
   * to it, each once, in first-seen order.
   */
  lemma SheetColumnsShape(cols: seq<string>)
    requires Distinct(cols)
    ensures var r := SheetColumns(cols);
      r[0] == "_rowId" && Distinct(r) &&
      (forall c :: c in r <==> c == "_rowId" || c in cols) &&
      forall p, q :: 1 <= p < q < |r| ==> FirstIndex(cols, r[p]) < FirstIndex(cols, r[q])
  {
    var w := Without(cols, "_rowId");
    var r := SheetColumns(cols);
    WithoutOrder(cols, "_rowId");
    forall p, q | 1 <= p < q < |r| ensures FirstIndex(cols, r[p]) < FirstIndex(cols, r[q]) {
      assert r[p] == w[p - 1] && r[q] == w[q - 1];
      assert 0 <= p - 1 < q - 1 < |w|;
    }
    forall p, q | 0 <= p < q < |r| ensures r[p] != r[q] {
      if p == 0 {
        assert r[q] == w[q - 1] && r[q] in w;
      } else {
        assert r[p] == w[p - 1] && r[q] == w[q - 1];
        assert w[p - 1] != w[q - 1];
      }
    }
  }

  /** How often `k` is among the headers. */
  function Occurrences(hs: seq<string>, k: string): nat
  {
    if hs == [] then 0 else Occurrences(hs[..|hs| - 1], k) + (if hs[|hs| - 1] == k then 1 else 0)
  }

  /** The sub-rows the values under `k` of the first `n` rows contribute, one header occurrence each. */
  function TotalWidth(data: seq<Value>, k: string, n: nat): nat
    requires n <= |data|
  {
    if n == 0 then 0 else TotalWidth(data, k, n - 1) + Width(Read(data[n - 1], k))
  }

  lemma MulAdd(a: nat, b: nat, c: nat)
    ensures (a + b) * c == a * c + b * c && c * (a + b) == c * a + c * b
  {
  }

  lemma {:induction false} CellRowsCount(rowId: nat, row: Value, headers: seq<string>, k: string, n: nat)
    requires n <= |headers|
    ensures |CellRows(rowId, row, headers, k, n)| == Occurrences(headers[..n], k) * Width(Read(row, k))
    decreases n
  {
    if n > 0 {
      CellRowsCount(rowId, row, headers, k, n - 1);
      CellRowsStep(rowId, row, headers, k, n);
      OccurrencesStep(headers, k, n);
      CountStep(Occurrences(headers[..n - 1], k), Occurrences(headers[..n], k), Width(Read(row, k)), headers[n - 1] == k,
                |CellRows(rowId, row, headers, k, n - 1)|, |CellRows(rowId, row, headers, k, n)|);
    }
  }

  lemma CellRowsStep(rowId: nat, row: Value, headers: seq<string>, k: string, n: nat)
    requires 0 < n <= |headers|
    ensures |CellRows(rowId, row, headers, k, n)|
         == |CellRows(rowId, row, headers, k, n - 1)| + (if headers[n - 1] == k then Width(Read(row, k)) else 0)
  {
  }

  lemma OccurrencesStep(headers: seq<string>, k: string, n: nat)
    requires 0 < n <= |headers|
    ensures Occurrences(headers[..n], k) == Occurrences(headers[..n - 1], k) + (if headers[n - 1] == k then 1 else 0)
  {
    assert headers[..n][..n - 1] == headers[..n - 1];
  }

  /** One more header: its count goes up by one exactly when it is `k`, and the rows by one value's width. */
  lemma CountStep(o: nat, o': nat, w: nat, hit: bool, a: nat, b: nat)
    requires a == o * w && b == a + (if hit then w else 0) && o' == o + (if hit then 1 else 0)
    ensures b == o' * w
  {
    MulAdd(o, if hit then 1 else 0, w);
  }

  /**
   * Sheet `k` has as many rows as the values under `k` contribute: one per
   * object and one per element of a non-empty array, for every row and every
   * occurrence of `k` among the headers.
   */
  lemma {:induction false} SheetRowCount(data: seq<Value>, headers: seq<string>, k: string, n: nat)
    requires n <= |data|
    ensures |AllRows(data, headers, k, n)| == Occurrences(headers, k) * TotalWidth(data, k, n)
    decreases n
  {
    if n > 0 {
      SheetRowCount(data, headers, k, n - 1);
      CellRowsAll(n, data[n - 1], headers, k);
      AllRowsStep(data, headers, k, n);
      RowsAdd(Occurrences(headers, k), TotalWidth(data, k, n - 1), Width(Read(data[n - 1], k)), TotalWidth(data, k, n),
              |AllRows(data, headers, k, n - 1)|, |CellRows(n, data[n - 1], headers, k, |headers|)|, |AllRows(data, headers, k, n)|);
    }
  }

  lemma AllRowsStep(data: seq<Value>, headers: seq<string>, k: string, n: nat)
    requires 0 < n <= |data|
    ensures |AllRows(data, headers, k, n)| == |AllRows(data, headers, k, n - 1)| + |CellRows(n, data[n - 1], headers, k, |headers|)|
    ensures TotalWidth(data, k, n) == TotalWidth(data, k, n - 1) + Width(Read(data[n - 1], k))
  {
  }

  lemma CellRowsAll(rowId: nat, row: Value, headers: seq<string>, k: string)
    ensures |CellRows(rowId, row, headers, k, |headers|)| == Occurrences(headers, k) * Width(Read(row, k))
  {
    CellRowsCount(rowId, row, headers, k, |headers|);
    assert headers[..|headers|] == headers;
  }

  /** One more row: its sub-rows add to the sheet's, `o` for each unit of its width. */
  lemma RowsAdd(o: nat, t: nat, w: nat, t': nat, a: nat, c: nat, b: nat)
    requires a == o * t && c == o * w && b == a + c && t' == t + w
    ensures b == o * t'
  {
    MulAdd(t, w, o);
  }

  /**
   * An object under a header gives one sub-row: its own fields, with
   * `_rowId` set to the row number unless the object has a field of that
   * name, which then wins.
   */
  lemma SpreadRowFields(rowId: nat, fields: seq<(string, Value)>)
    requires UniqueKeys(fields)
    ensures forall k :: Get(SpreadRow(rowId, Val(Obj(fields))), k) ==
                        (if Get(fields, k).Some? then Get(fields, k)
                         else if k == "_rowId" then Some(Num(rowId)) else None)
  {
    forall k ensures LastGet(fields, k) == Get(fields, k) {
      LastGetUnique(fields, k);
    }
  }

  /**
   * The first element alone decides how a non-empty array is laid out: every
   * element is wrapped as `value` when the first is primitive, and spread
   * otherwise, so a later primitive number adds a row with `_rowId` only.
   */
  lemma FirstElementDecides(rowId: nat, items: seq<Value>)
    requires items != []
    ensures var x := Val(Arr(items)); var r := NewRows(rowId, x);
      |r| == |items| &&
      (IsPrimitive(Val(items[0])) ==> NewKeys(x) == ["value"] && forall e :: 0 <= e < |items| ==> r[e] == [("_rowId", Num(rowId)), ("value", items[e])]) &&
      (!IsPrimitive(Val(items[0])) ==> forall e :: 0 <= e < |items| ==> r[e] == SpreadRow(rowId, Val(items[e])))
    ensures !IsPrimitive(Val(items[0])) ==>
      forall e :: 0 <= e < |items| && items[e].Num? ==> NewRows(rowId, Val(Arr(items)))[e] == [("_rowId", Num(rowId))]
  {
  }
}
