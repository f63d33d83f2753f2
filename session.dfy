/**
 * The webview's state: the navigation stack of displayed nodes, the column
 * filters, the sort column and direction, the hidden columns, the cached
 * column list and whether the column chooser is open. Each event handler of
 * the view is a method that updates that state and then re-renders, which
 * refreshes the cached column list for the node on top of the stack.
 */
module Webview {
  import opened Wrappers
  import opened Text
  import opened JsonValue
  import opened JsonText
  import opened Workbook
  import opened WorkbookFacts
  import opened WorkbookBuild
  import opened ViewQuery
  import opened Csv
  import PathEdit

  /** One entry of the navigation stack: the node shown and its breadcrumb label. */
  datatype Frame = Frame(data: Js, name: string)

  // ---------------------------------------------------------------- the transitions, as values

  function Flip(d: Direction): Direction { if d == Asc then Desc else Asc }

  /** The sort state after a click on the header of column `clicked`. */
  function NextSort(key: Option<string>, d: Direction, clicked: string): (r: (Option<string>, Direction))
  {
    if key == Some(clicked) then (key, Flip(d)) else (Some(clicked), Asc)
  }

  /**
   * Clicking a header sorts by that column; a new column starts ascending,
   * the current one changes direction, so two clicks on the current column
   * restore the sort and two on a new one leave it descending.
   */
  lemma SortClicks(key: Option<string>, d: Direction, clicked: string)
    ensures NextSort(key, d, clicked).0 == Some(clicked)
    ensures NextSort(key, d, clicked).1 == if key == Some(clicked) then Flip(d) else Asc
    ensures var (k1, d1) := NextSort(key, d, clicked);
      NextSort(k1, d1, clicked) == if key == Some(clicked) then (key, d) else (Some(clicked), Desc)
  {
  }

  /** `delete obj[key]` on entries in insertion order. */
  function Remove<V>(fields: seq<(string, V)>, key: string): (r: seq<(string, V)>)
    ensures Get(r, key) == None
    ensures forall k :: k != key ==> Get(r, k) == Get(fields, k)
    ensures forall i :: 0 <= i < |r| ==> r[i] in fields
    ensures UniqueKeys(fields) ==> UniqueKeys(r)
  {
    if fields == [] then []
    else
      var rest := Remove(fields[1..], key);
      assert fields == [fields[0]] + fields[1..];
      assert forall k :: Get(fields, k) == if fields[0].0 == k then Some(fields[0].1) else Get(fields[1..], k) by {
        forall k ensures Get(fields, k) == if fields[0].0 == k then Some(fields[0].1) else Get(fields[1..], k)
        {
          GetCons(fields[0], fields[1..], k);
        }
      }
      if fields[0].0 == key then rest
      else
        var r := [fields[0]] + rest;
        assert forall k :: Get(r, k) == if fields[0].0 == k then Some(fields[0].1) else Get(rest, k) by {
          forall k ensures Get(r, k) == if fields[0].0 == k then Some(fields[0].1) else Get(rest, k)
          {
            GetCons(fields[0], rest, k);
          }
        }
        assert UniqueKeys(fields) ==> UniqueKeys(r) by {
          if UniqueKeys(fields) {
            forall i | 0 <= i < |rest| ensures rest[i].0 != fields[0].0
            {
              var j :| 0 <= j < |fields[1..]| && fields[1..][j] == rest[i];
              assert fields[j + 1] == rest[i];
            }
          }
        }
        r
  }

  lemma GetCons<V>(f: (string, V), rest: seq<(string, V)>, k: string)
    ensures Get([f] + rest, k) == if f.0 == k then Some(f.1) else Get(rest, k)
  {
    assert ([f] + rest)[1..] == rest;
  }

  /** No filter entry holds an empty pattern, and no column has two. */
  predicate CleanFilters(filters: seq<(string, string)>)
  {
    UniqueKeys(filters) && forall i :: 0 <= i < |filters| ==> filters[i].1 != ""
  }

  /** The filters after typing `value` into the filter box of column `key`: set when non-empty, deleted otherwise. */
  function SetFilter(filters: seq<(string, string)>, key: string, value: string): (r: seq<(string, string)>)
    ensures Get(r, key) == if value == "" then None else Some(value)
    ensures forall k :: k != key ==> Get(r, k) == Get(filters, k)
    ensures CleanFilters(filters) ==> CleanFilters(r)
  {
    if value != "" then
      var r := Put(filters, key, value);
      assert CleanFilters(filters) ==> CleanFilters(r) by {
        if CleanFilters(filters) {
          PutUnique(filters, key, value);
          PutEntries(filters, key, value);
        }
      }
      r
    else Remove(filters, key)
  }

  lemma PutEntries<V>(fields: seq<(string, V)>, key: string, x: V)
    ensures forall i :: 0 <= i < |Put(fields, key, x)| ==> Put(fields, key, x)[i] == (key, x) || Put(fields, key, x)[i] in fields
  {
  }

  /** The hidden columns after the chooser's checkbox for `key` is set to `checked`. */
  function ToggleHidden(hidden: set<string>, key: string, checked: bool): set<string>
  {
    if checked then hidden - {key} else hidden + {key}
  }

  /** A column of the list is shown after its checkbox is set exactly when it was checked; the others keep their state. */
  lemma ToggleShows(all: seq<string>, hidden: set<string>, key: string, checked: bool)
    requires key in all
    ensures key in VisibleHeaders(all, ToggleHidden(hidden, key, checked)) <==> checked
    ensures forall k :: k != key ==>
      (k in VisibleHeaders(all, ToggleHidden(hidden, key, checked)) <==> k in VisibleHeaders(all, hidden))
  {
  }

  /** The header scan of `renderControls`: each object or array row adds its keys to an insertion-ordered set. */
  method ScanHeaders(items: seq<Value>) returns (headers: seq<string>)
    ensures headers == HeaderUnion(items)
  {
    headers := [];
    var i := 0;
    while i < |items|
      invariant 0 <= i <= |items|
      invariant headers == AddKeys([], AllRowKeys(items[..i]))
    {
      UnionStep(items, i);
      if IsComposite(Val(items[i])) {
        var keys := ObjectKeys(Val(items[i]));
        headers := AddEach(headers, keys.value);
      }
      i := i + 1;
    }
    assert items[..|items|] == items;
  }

  /** The union over one more row adds that row's keys to the union over the rows before it. */
  lemma UnionStep(items: seq<Value>, i: nat)
    requires i < |items|
    ensures AddKeys([], AllRowKeys(items[..i + 1])) == AddKeys(AddKeys([], AllRowKeys(items[..i])), RowKeys(items[i]))
  {
    assert items[..i + 1][..i] == items[..i];
    AddKeysAppend([], AllRowKeys(items[..i]), RowKeys(items[i]));
  }

  // ---------------------------------------------------------------- the state

  class Session {
    var stack: seq<Frame>
    var filters: seq<(string, string)>
    var sortKey: Option<string>
    var sortDir: Direction
    var hidden: set<string>
    var allHeaders: seq<string>
    var columnsVisible: bool

    /** The stack always holds the root frame at the bottom; stored filters are clean. */
    ghost predicate Valid()
      reads this
    {
      |stack| >= 1 && stack[0].name == "root" && CleanFilters(filters)
    }

    /** The view state every navigation starts from, apart from the column list. */
    predicate Defaults()
      reads this
    {
      filters == [] && sortKey == None && sortDir == Asc && hidden == {} && !columnsVisible
    }

    /** The node on top of the stack. */
    function Current(): Js
      reads this
      requires |stack| >= 1
    {
      stack[|stack| - 1].data
    }

    /** The rows the table shows: the current node, filtered, then sorted. */
    function Displayed(): Result<Js, Fault>
      reads this
      requires |stack| >= 1
    {
      var kept :- ApplyFiltering(Current(), filters);
      ApplySorting(kept, sortKey, sortDir)
    }

    /** The columns the table shows. */
    function Visible(): seq<string>
      reads this
    {
      VisibleHeaders(allHeaders, hidden)
    }

    /** The view opened on a document whose root is `root`, then drawn once. */
    constructor (root: Value)
      ensures Valid() && Defaults()
      ensures stack == [Frame(Val(root), "root")]
      ensures allHeaders == RefreshHeaders(Val(root), [])
    {
      stack := [Frame(Val(root), "root")];
      filters := [];
      sortKey := None;
      sortDir := Asc;
      hidden := {};
      allHeaders := [];
      columnsVisible := false;
      new;
      Render();
    }

    /** `render()`, as far as it changes the state: the controls build the column list when it is empty. */
    method Render()
      requires |stack| >= 1
      modifies this
      ensures stack == old(stack) && filters == old(filters) && sortKey == old(sortKey) && sortDir == old(sortDir)
      ensures hidden == old(hidden) && columnsVisible == old(columnsVisible)
      ensures allHeaders == RefreshHeaders(Current(), old(allHeaders))
    {
      var data := Current();
      if !(data.Val? && data.v.Arr? && |data.v.items| > 0 && IsComposite(Val(data.v.items[0]))) {
        return;
      }
      if |allHeaders| == 0 {
        allHeaders := ScanHeaders(data.v.items);
      }
    }

    /** Puts the view state back to its defaults and empties the column list. */
    method Reset()
      modifies this
      ensures Defaults() && allHeaders == []
      ensures stack == old(stack)
    {
      sortKey := None;
      sortDir := Asc;
      filters := [];
      hidden := {};
      allHeaders := [];
      columnsVisible := false;
    }

    /**
     * The `documentUpdated` message: text that parses replaces the stack with
     * a single root frame and resets the view; text that does not parse
     * changes nothing.
     */
    method DocumentUpdated(text: string) returns (ok: bool)
      requires Valid()
      modifies this
      ensures Valid()
      ensures ok <==> Parse(text).Some?
      ensures ok ==> stack == [Frame(Val(Parse(text).value), "root")] && Defaults()
      ensures ok ==> allHeaders == RefreshHeaders(Current(), [])
      ensures !ok ==> stack == old(stack) && filters == old(filters) && sortKey == old(sortKey) && sortDir == old(sortDir)
      ensures !ok ==> hidden == old(hidden) && allHeaders == old(allHeaders) && columnsVisible == old(columnsVisible)
    {
      var parsed := Parse(text);
      if parsed.None? {
        return false;
      }
      stack := [Frame(Val(parsed.value), "root")];
      Reset();
      Render();
      ok := true;
    }

    /** A breadcrumb link at position `p`: the frames after it are dropped, and the view is reset. */
    method Breadcrumb(p: nat)
      requires Valid()
      modifies this
      ensures Valid() && Defaults()
      ensures stack == if p + 1 < |old(stack)| then old(stack)[..p + 1] else old(stack)
      ensures allHeaders == RefreshHeaders(Current(), [])
    {
      if p + 1 < |stack| {
        stack := stack[..p + 1];
      }
      Reset();
      Render();
    }

    /**
     * A click on a cell holding an object or array: the view is reset first;
     * then a cell with both an index and a key pushes the row (`[index]`)
     * and the cell (`key`), one with only an index or only a key pushes that
     * one element, and one with neither stops there without drawing. A read
     * through null or undefined throws, leaving what was pushed before it.
     */
    method CellClick(index: Option<string>, key: Option<string>) returns (fault: Option<Fault>)
      requires Valid()
      modifies this
      ensures Valid() && Defaults()
      ensures |old(stack)| <= |stack| <= |old(stack)| + 2 && stack[..|old(stack)|] == old(stack)
      ensures fault.None? && index.Some? && key.Some? ==>
        GetProp(old(Current()), index.value).Ok? &&
        var row := GetProp(old(Current()), index.value).value;
        GetProp(row, key.value).Ok? &&
        stack == old(stack) + [Frame(row, "[" + index.value + "]"), Frame(GetProp(row, key.value).value, key.value)]
      ensures fault.None? && index.Some? && key.None? ==>
        GetProp(old(Current()), index.value).Ok? &&
        stack == old(stack) + [Frame(GetProp(old(Current()), index.value).value, "[" + index.value + "]")]
      ensures fault.None? && index.None? && key.Some? ==>
        GetProp(old(Current()), key.value).Ok? &&
        stack == old(stack) + [Frame(GetProp(old(Current()), key.value).value, key.value)]
      ensures index.None? && key.None? ==> fault.None? && stack == old(stack) && allHeaders == []
      ensures fault.None? && (index.Some? || key.Some?) ==> allHeaders == RefreshHeaders(Current(), [])
      ensures fault.Some? ==> fault == Some(NullishAccess) && allHeaders == []
      ensures fault.Some? ==>
        (index.Some? && GetProp(old(Current()), index.value).Err?) ||
        (index.Some? && key.Some? && GetProp(old(Current()), index.value).Ok? &&
         GetProp(GetProp(old(Current()), index.value).value, key.value).Err?) ||
        (index.None? && key.Some? && GetProp(old(Current()), key.value).Err?)
      ensures fault.Some? && index.Some? && key.Some? && GetProp(old(Current()), index.value).Ok? ==>
        stack == old(stack) + [Frame(GetProp(old(Current()), index.value).value, "[" + index.value + "]")]
      ensures fault.Some? && !(index.Some? && key.Some? && GetProp(old(Current()), index.value).Ok?) ==>
        stack == old(stack)
    {
      var current := Current();
      Reset();
      fault := None;
      if index.Some? && key.Some? {
        var row := GetProp(current, index.value);
        if row.Err? {
          return Some(row.error);
        }
        stack := stack + [Frame(row.value, "[" + index.value + "]")];
        var cell := GetProp(row.value, key.value);
        if cell.Err? {
          return Some(cell.error);
        }
        stack := stack + [Frame(cell.value, key.value)];
      } else if index.Some? {
        var row := GetProp(current, index.value);
        if row.Err? {
          return Some(row.error);
        }
        stack := stack + [Frame(row.value, "[" + index.value + "]")];
      } else if key.Some? {
        var cell := GetProp(current, key.value);
        if cell.Err? {
          return Some(cell.error);
        }
        stack := stack + [Frame(cell.value, key.value)];
      } else {
        return None;
      }
      Render();
    }

    /** A click on a column header: sort by it, or turn the direction round if it is already the sort column. */
    method SortClick(clicked: string)
      requires Valid()
      modifies this
      ensures Valid()
      ensures (sortKey, sortDir) == NextSort(old(sortKey), old(sortDir), clicked)
      ensures stack == old(stack) && filters == old(filters) && hidden == old(hidden) && columnsVisible == old(columnsVisible)
      ensures allHeaders == RefreshHeaders(Current(), old(allHeaders))
    {
      if sortKey == Some(clicked) {
        sortDir := if sortDir == Asc then Desc else Asc;
      } else {
        sortKey := Some(clicked);
        sortDir := Asc;
      }
      Render();
    }

    /** Typing into the filter box of column `key`: a non-empty text is stored, an empty one removes the filter. */
    method FilterInput(key: string, value: string)
      requires Valid()
      modifies this
      ensures Valid()
      ensures filters == SetFilter(old(filters), key, value)
      ensures stack == old(stack) && sortKey == old(sortKey) && sortDir == old(sortDir)
      ensures hidden == old(hidden) && columnsVisible == old(columnsVisible)
      ensures allHeaders == RefreshHeaders(Current(), old(allHeaders))
    {
      if value != "" {
        filters := Put(filters, key, value);
      } else {
        filters := Remove(filters, key);
      }
      Render();
    }

    /** The "Columns" button: the column chooser opens or closes. */
    method ToggleColumns()
      requires Valid()
      modifies this
      ensures Valid()
      ensures columnsVisible == !old(columnsVisible)
      ensures stack == old(stack) && filters == old(filters) && sortKey == old(sortKey) && sortDir == old(sortDir)
      ensures hidden == old(hidden) && allHeaders == RefreshHeaders(Current(), old(allHeaders))
    {
      columnsVisible := !columnsVisible;
      Render();
    }

    /** A checkbox of the column chooser: checked shows the column, unchecked hides it. */
    method ColumnToggle(key: string, checked: bool)
      requires Valid()
      modifies this
      ensures Valid()
      ensures hidden == ToggleHidden(old(hidden), key, checked)
      ensures stack == old(stack) && filters == old(filters) && sortKey == old(sortKey) && sortDir == old(sortDir)
      ensures columnsVisible == old(columnsVisible) && allHeaders == RefreshHeaders(Current(), old(allHeaders))
    {
      if checked {
        hidden := hidden - {key};
      } else {
        hidden := hidden + {key};
      }
      Render();
    }

    /**
     * "Export to CSV": the displayed rows under the visible columns. A node
     * that is not an array has no `forEach`, so the export throws.
     */
    method ExportCsv() returns (r: Result<string, Fault>)
      requires Valid()
      ensures Displayed().Err? ==> r == Err(Displayed().error)
      ensures Displayed().Ok? && IsArray(Displayed().value) ==> r == CsvText(Visible(), Displayed().value.v.items)
      ensures Displayed().Ok? && !IsArray(Displayed().value) ==> r.Err?
    {
      var shown := Displayed();
      if shown.Err? {
        return Err(shown.error);
      }
      var data := shown.value;
      if data == Undefined || data == Val(Null) {
        return Err(NullishAccess);
      }
      if !data.v.Arr? {
        return Err(NotCallable);
      }
      r := GenerateCsv(Visible(), data.v.items);
    }
  }

  // ---------------------------------------------------------------- row indexes

  /** Two rows; only the second passes the filter `a` = "y". */
  function IndexRows(): seq<Value>
  {
    [Obj([("a", Str("x")), ("o", Obj([]))]), Obj([("a", Str("y")), ("o", Obj([("k", Num(1))]))])]
  }

  /**
   * A cell's `data-index` is its row's position in the table as drawn, after
   * filtering and sorting, but a click and an edit look that index up in the
   * unfiltered node. With the filter `a` = "y" the first row drawn is the
   * second row, yet index "0" reads the first row, and an edit of its `o`
   * cell lands in the first row.
   */
  lemma IndexAddressesUnfiltered()
    ensures ApplyFiltering(Val(Arr(IndexRows())), [("a", "y")]) == Ok(Val(Arr([IndexRows()[1]])))
    ensures GetProp(Val(Arr(IndexRows())), "0") == Ok(Val(IndexRows()[0])) && IndexRows()[0] != IndexRows()[1]
    ensures var edited := PathEdit.Apply(Arr(IndexRows()), PathEdit.At([]), Some("0"), Some("o"), Num(2));
      edited.Ok? && ValueAt(edited.value, [Elem(0)]) == Some(SetProp(Val(IndexRows()[0]), "o", Num(2)).value)
  {
    FilterKeepsSecond();
    IndexZero();
    ReadFirstRow();
    EditFirstRow();
  }

  lemma ReadFirstRow()
    requires CanonicalIndex("0") == Some(0)
    ensures GetProp(Val(Arr(IndexRows())), "0") == Ok(Val(IndexRows()[0])) && IndexRows()[0] != IndexRows()[1]
    ensures GetProp(Val(IndexRows()[0]), "o") == Ok(Val(Obj([])))
  {
    assert IndexRows()[0].fields[0].1 != IndexRows()[1].fields[0].1;
  }

  lemma IndexZero()
    ensures CanonicalIndex("0") == Some(0)
  {
    IndexKeyRoundTrip(0);
  }

  lemma EditFirstRow()
    requires CanonicalIndex("0") == Some(0)
    ensures var edited := PathEdit.Apply(Arr(IndexRows()), PathEdit.At([]), Some("0"), Some("o"), Num(2));
      edited.Ok? && ValueAt(edited.value, [Elem(0)]) == Some(SetProp(Val(IndexRows()[0]), "o", Num(2)).value)
  {
    var root := Arr(IndexRows());
    assert PathEdit.NodeOf(root, PathEdit.At([])) == Val(root);
    assert ChildStep(root, "0") == Some(Elem(0));
    assert [] + [Elem(0)] == [Elem(0)];
    assert PathEdit.Member(root, PathEdit.At([]), "0") == Ok(PathEdit.At([Elem(0)]));
  }

  lemma FilterKeepsSecond()
    ensures ApplyFiltering(Val(Arr(IndexRows())), [("a", "y")]) == Ok(Val(Arr([IndexRows()[1]])))
  {
    var rows := IndexRows();
    var f := [("a", "y")];
    PassesSecond();
    assert rows[1..] == [rows[1]] && [rows[1]][1..] == [];
    FilterItemsStep(rows, f);
    FilterItemsStep([rows[1]], f);
    assert [rows[1]] + [] == [rows[1]];
  }

  lemma PassesSecond()
    ensures !Passes(IndexRows()[0], [("a", "y")]) && Passes(IndexRows()[1], [("a", "y")])
  {
    var f := [("a", "y")];
    ColumnA();
    assert f[0].0 == "a" && f[0].1 == "y";
  }

  /** Column `a` of the two rows against the pattern "y". */
  lemma ColumnA()
    ensures !Hit(Read(IndexRows()[0], "a"), "y") && Hit(Read(IndexRows()[1], "a"), "y")
  {
    assert Read(IndexRows()[0], "a") == Val(Str("x")) && Read(IndexRows()[1], "a") == Val(Str("y"));
    assert Lower("y") == "y" && Lower("x") == "x";
    assert !Contains("x"[1..], "y") && !IsPrefix("y", "x") && IsPrefix("y", "y");
  }

  /**
   * The same rows in a session: after typing "y" into the filter of column
   * `a`, the first row drawn is the second row, and clicking its `o` cell
   * (index "0") opens the first row's `o` object instead.
   */
  method FilteredClick() returns (shown: Value, entered: Js)
    ensures shown == IndexRows()[1]
    ensures entered == Val(Obj([])) && entered != Val(IndexRows()[1].fields[1].1)
  {
    var session;
    session, shown := FilteredSession();
    IndexZero();
    ReadFirstRow();
    var fault := session.CellClick(Some("0"), Some("o"));
    assert fault.None?;
    entered := session.stack[|session.stack| - 1].data;
  }

  /** A session over the two rows with the filter `a` = "y" typed in, and the first row it draws. */
  method FilteredSession() returns (session: Session, shown: Value)
    ensures fresh(session) && session.Valid() && session.Current() == Val(Arr(IndexRows()))
    ensures session.Displayed() == Ok(Val(Arr([IndexRows()[1]]))) && shown == IndexRows()[1]
  {
    session := new Session(Arr(IndexRows()));
    session.FilterInput("a", "y");
    assert session.filters == [("a", "y")];
    FilterKeepsSecond();
    var drawn := session.Displayed();
    shown := drawn.value.v.items[0];
  }
}
