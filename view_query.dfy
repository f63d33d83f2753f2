/**
 * The two queries the webview runs on the displayed node before it draws a
 * table: the filter (every active column filter must match as a
 * case-insensitive substring) and the sort (a copy of the rows, ordered by
 * one column with a fixed comparator). Also the column list the controls
 * offer: the union of the rows' keys, and the part of it not hidden.
 */
module ViewQuery {
  import opened Wrappers
  import opened Text
  import opened JsonValue
  import opened Workbook
  import opened WorkbookFacts

  /**
   * An array whose first element is a non-null object: the only shape either
   * query changes. An array whose first element is itself an array passes
   * (its `typeof` is "object"); an empty array does not.
   */
  predicate RowShaped(data: Js)
  {
    data.Val? && data.v.Arr? && |data.v.items| > 0 && TypeOf(Val(data.v.items[0])) == "object" && data.v.items[0] != Null
  }

  predicate Nullish(x: Js) { x == Undefined || x == Val(Null) }

  /** One element of a sequence that holds at most once per position: `a` is obtained from `b` by dropping elements. */
  predicate Subsequence<T(==)>(a: seq<T>, b: seq<T>)
    decreases |b|
  {
    a == [] || (b != [] && ((a[0] == b[0] && Subsequence(a[1..], b[1..])) || Subsequence(a, b[1..])))
  }

  // ---------------------------------------------------------------- filtering

  /**
   * The text the filter searches in a cell, before lower-casing:
   * `String(x || '')`, so every falsy cell (null, undefined, 0, false and the
   * empty string) reads as empty text and every other cell as `String(x)`.
   * FilterFinding sets this against the reading that empties only null and
   * undefined.
   */
  function FilterText(x: Js): (t: string)
    ensures !Truthy(x) ==> t == ""
    ensures x.Val? && x.v.Str? ==> t == x.v.s
    ensures x == Val(Num(0)) || x == Val(Bool(false)) ==> t == ""
  {
    if Truthy(x) then ToJsString(x) else ""
  }

  /** The cell `x` passes the filter `pattern`: both lower-cased, the pattern occurs in the cell's text. */
  predicate Hit(x: Js, pattern: string)
  {
    Contains(Lower(FilterText(x)), Lower(pattern))
  }

  /** A row passes every active filter, given in `filterState` key order. */
  predicate Passes(item: Value, filters: seq<(string, string)>)
  {
    forall i :: 0 <= i < |filters| ==> Hit(Read(item, filters[i].0), filters[i].1)
  }

  /** The `filter` callback: the filters in key order, stopping at the first miss; `item[key]` throws on a null row. */
  function Keep(item: Value, filters: seq<(string, string)>): (r: Result<bool, Fault>)
    ensures r.Err? <==> item == Null && filters != []
    ensures r.Ok? ==> (r.value <==> Passes(item, filters))
  {
    if filters == [] then Ok(true)
    else
      var x :- GetProp(Val(item), filters[0].0);
      if !Hit(x, filters[0].1) then Ok(false)
      else
        var r := Keep(item, filters[1..]);
        assert r.Ok? ==> (r.value <==> Passes(item, filters)) by {
          if r.Ok? {
            forall i | 1 <= i < |filters| ensures filters[1..][i - 1] == filters[i] { }
          }
        }
        r
  }

  /** `items.filter(keep)`: the rows, in order, whose callback answered true; the first throw ends it. */
  function FilterItems(items: seq<Value>, filters: seq<(string, string)>): (r: Result<seq<Value>, Fault>)
    ensures r.Err? <==> filters != [] && Null in items
  {
    if items == [] then Ok([])
    else
      var keep :- Keep(items[0], filters);
      var rest :- FilterItems(items[1..], filters);
      Ok(if keep then [items[0]] + rest else rest)
  }

  /** `applyFiltering(data)` with `filterState` given as its entries in key order. */
  function ApplyFiltering(data: Js, filters: seq<(string, string)>): Result<Js, Fault>
  {
    if !RowShaped(data) || filters == [] then Ok(data)
    else
      var kept :- FilterItems(data.v.items, filters);
      Ok(Val(Arr(kept)))
  }

  /**
   * The survivors of a filter are exactly the passing rows, each as many
   * times as it occurs, in their input order.
   */
  lemma FilterItemsKeeps(items: seq<Value>, filters: seq<(string, string)>)
    requires FilterItems(items, filters).Ok?
    ensures forall x :: multiset(FilterItems(items, filters).value)[x] == if Passes(x, filters) then multiset(items)[x] else 0
    ensures Subsequence(FilterItems(items, filters).value, items)
  {
    FilterItemsCount(items, filters);
    FilterItemsOrder(items, filters);
  }

  /** A filter that gets past the first row kept it exactly when it passes, then filtered the others. */
  lemma FilterItemsStep(items: seq<Value>, filters: seq<(string, string)>)
    requires items != [] && FilterItems(items, filters).Ok?
    ensures FilterItems(items[1..], filters).Ok? && Keep(items[0], filters).Ok?
    ensures FilterItems(items, filters).value
         == (if Passes(items[0], filters) then [items[0]] else []) + FilterItems(items[1..], filters).value
  {
  }

  lemma {:induction false} FilterItemsCount(items: seq<Value>, filters: seq<(string, string)>)
    requires FilterItems(items, filters).Ok?
    ensures forall x :: multiset(FilterItems(items, filters).value)[x] == if Passes(x, filters) then multiset(items)[x] else 0
  {
    if items != [] {
      FilterItemsStep(items, filters);
      FilterItemsCount(items[1..], filters);
      assert items == [items[0]] + items[1..];
    }
  }

  lemma {:induction false} FilterItemsOrder(items: seq<Value>, filters: seq<(string, string)>)
    requires FilterItems(items, filters).Ok?
    ensures Subsequence(FilterItems(items, filters).value, items)
  {
    if items != [] {
      FilterItemsStep(items, filters);
      FilterItemsOrder(items[1..], filters);
      var r := FilterItems(items, filters).value;
      if Passes(items[0], filters) {
        assert r[1..] == FilterItems(items[1..], filters).value;
      } else {
        SubsequenceSkip(r, items);
      }
    }
  }

  lemma SubsequenceSkip<T>(a: seq<T>, b: seq<T>)
    requires b != [] && Subsequence(a, b[1..])
    ensures Subsequence(a, b)
  {
  }

  /**
   * The filter leaves its input alone unless the input is row-shaped and a
   * filter is active; otherwise it throws exactly when a row is null, and
   * keeps exactly the passing rows in order.
   */
  lemma FilteringShape(data: Js, filters: seq<(string, string)>)
    ensures !RowShaped(data) || filters == [] ==> ApplyFiltering(data, filters) == Ok(data)
    ensures RowShaped(data) && filters != [] ==>
      (ApplyFiltering(data, filters).Err? <==> Null in data.v.items)
    ensures RowShaped(data) && filters != [] && ApplyFiltering(data, filters).Ok? ==>
      var kept := ApplyFiltering(data, filters).value;
      kept.Val? && kept.v.Arr? && Subsequence(kept.v.items, data.v.items) &&
      forall x :: x in kept.v.items <==> x in data.v.items && Passes(x, filters)
  {
    if RowShaped(data) && filters != [] && ApplyFiltering(data, filters).Ok? {
      FilterItemsKeeps(data.v.items, filters);
      var kept := FilterItems(data.v.items, filters).value;
      forall x ensures x in kept <==> x in data.v.items && Passes(x, filters)
      {
        assert x in kept <==> multiset(kept)[x] > 0;
        assert x in data.v.items <==> multiset(data.v.items)[x] > 0;
      }
    }
  }

  /** A falsy cell (null, missing, 0, false or empty text) matches only the empty pattern. */
  lemma FalsyCellMatches(x: Js, pattern: string)
    requires !Truthy(x)
    ensures Hit(x, pattern) <==> pattern == ""
  {
    assert Lower(FilterText(x)) == [];
    if pattern != [] {
      assert !IsPrefix(Lower(pattern), []);
    }
  }

  /** The match ignores case: an upper-case pattern finds its lower-case text. */
  lemma HitIgnoresCase(x: Js, pattern: string)
    ensures Hit(x, pattern) <==> Hit(x, Lower(pattern))
  {
    LowerTwice(pattern);
  }

  /** The case folding reaches beyond ASCII: "ÄPFEL" is found by "äp". */
  lemma UmlautMatches()
    ensures Hit(Val(Str("\U{C4}PFEL")), "\U{E4}p")
  {
    assert Lower("\U{C4}PFEL")[..2] == "\U{E4}p" == Lower("\U{E4}p");
  }

  lemma LowerTwice(s: string)
    ensures Lower(Lower(s)) == Lower(s)
  {
  }

  // ---------------------------------------------------------------- the comparator

  datatype Direction = Asc | Desc

  function Sign(d: Direction): int { if d == Asc then 1 else -1 }

  /**
   * `valA === valB` on the values a parsed document holds: equal primitives.
   * Every object and array `JSON.parse` builds is a separate reference, so two
   * cells never hold the identical one.
   */
  predicate Identical(a: Js, b: Js) { a == b && IsPrimitive(a) }

  /**
   * The sort comparator on two cells: 0 for identical values; a null or
   * missing left cell sorts after, a null or missing right cell before (both
   * scaled by the direction); two numbers by difference, two strings by the
   * text order, anything else by the text order of `String(x)`.
   */
  function Compare(a: Js, b: Js, d: Direction): int
  {
    if Identical(a, b) then 0
    else if Nullish(a) then Sign(d)
    else if Nullish(b) then -Sign(d)
    else if a.v.Num? && b.v.Num? then (a.v.n - b.v.n) * Sign(d)
    else if a.v.Str? && b.v.Str? then CompareText(a.v.s, b.v.s) * Sign(d)
    else CompareText(ToJsString(a), ToJsString(b)) * Sign(d)
  }

  /** Null and missing cells go last when ascending and first when descending. */
  lemma NullsPlacement(a: Js, b: Js)
    requires Nullish(a) && !Nullish(b)
    ensures Compare(a, b, Asc) > 0 && Compare(b, a, Asc) < 0
    ensures Compare(a, b, Desc) < 0 && Compare(b, a, Desc) > 0
  {
  }

  /** Descending is ascending reversed, for every pair of cells. */
  lemma DescendingReverses(a: Js, b: Js)
    ensures Compare(a, b, Desc) == -Compare(a, b, Asc)
  {
  }

  /** Two numbers compare by value. */
  lemma NumbersByValue(x: int, y: int)
    ensures Compare(Val(Num(x)), Val(Num(y)), Asc) < 0 <==> x < y
    ensures Compare(Val(Num(x)), Val(Num(y)), Asc) == 0 <==> x == y
  {
  }

  /** Two strings compare by the text order, and only equal strings tie. */
  lemma StringsByText(s: string, t: string)
    ensures Compare(Val(Str(s)), Val(Str(t)), Asc) < 0 <==> CompareText(s, t) < 0
    ensures Compare(Val(Str(s)), Val(Str(t)), Asc) == 0 <==> s == t
  {
    CompareTextZero(s, t);
  }

  /** Cells of different kinds compare by their `String` forms, so the number 10 sorts before the text "9". */
  lemma MixedByText()
    ensures Compare(Val(Num(10)), Val(Str("9")), Asc) < 0
    ensures Compare(Val(Num(9)), Val(Num(10)), Asc) < 0
  {
    assert ToJsString(Val(Num(10))) == "10" by {
      assert NatToDecimal(10) == NatToDecimal(1) + [DigitChar(0)];
    }
  }

  /**
   * The comparator orders the cells `keys` consistently: any two are
   * comparable one way round, and "not after" is transitive.
   */
  ghost predicate Preorder(keys: set<Js>, d: Direction)
  {
    (forall a, b :: a in keys && b in keys ==> Compare(a, b, d) <= 0 || Compare(b, a, d) <= 0) &&
    (forall a, b, c :: a in keys && b in keys && c in keys && Compare(a, b, d) <= 0 && Compare(b, c, d) <= 0 ==> Compare(a, c, d) <= 0)
  }

  /** A column of numbers with one kind of blank (null, or missing) is ordered consistently. */
  lemma NumbersOrdered(keys: set<Js>, blank: Js, d: Direction)
    requires Nullish(blank)
    requires forall x :: x in keys ==> x == blank || (x.Val? && x.v.Num?)
    ensures Preorder(keys, d)
  {
  }

  /** A column of strings with one kind of blank is ordered consistently. */
  lemma StringsOrdered(keys: set<Js>, blank: Js, d: Direction)
    requires Nullish(blank)
    requires forall x :: x in keys ==> x == blank || (x.Val? && x.v.Str?)
    ensures Preorder(keys, d)
  {
    forall a, b | a in keys && b in keys && a.Val? && a.v.Str? && b.Val? && b.v.Str?
      ensures Compare(a, b, d) <= 0 || Compare(b, a, d) <= 0
    {
      CompareTextAntisymmetric(a.v.s, b.v.s);
    }
    forall a, b, c | a in keys && b in keys && c in keys && Compare(a, b, d) <= 0 && Compare(b, c, d) <= 0
      ensures Compare(a, c, d) <= 0
    {
      StringsTransitive(a, b, c, blank, d);
    }
  }

  lemma StringsTransitive(a: Js, b: Js, c: Js, blank: Js, d: Direction)
    requires Nullish(blank)
    requires (a == blank || (a.Val? && a.v.Str?)) && (b == blank || (b.Val? && b.v.Str?)) && (c == blank || (c.Val? && c.v.Str?))
    requires Compare(a, b, d) <= 0 && Compare(b, c, d) <= 0
    ensures Compare(a, c, d) <= 0
  {
    if a.Val? && a.v.Str? && b.Val? && b.v.Str? && c.Val? && c.v.Str? {
      CompareTextZero(a.v.s, b.v.s);
      CompareTextZero(b.v.s, c.v.s);
      if d == Asc {
        CompareTextTransitive(a.v.s, b.v.s, c.v.s);
      } else {
        CompareTextAntisymmetric(a.v.s, b.v.s);
        CompareTextAntisymmetric(b.v.s, c.v.s);
        CompareTextAntisymmetric(a.v.s, c.v.s);
        CompareTextTransitive(c.v.s, b.v.s, a.v.s);
      }
    }
  }

  /**
   * A column holding both null and missing cells is not ordered
   * consistently: each of the two sorts after the other, in either direction.
   */
  lemma NullAgainstMissing(d: Direction)
    ensures Compare(Val(Null), Undefined, d) == Sign(d) && Compare(Undefined, Val(Null), d) == Sign(d)
    ensures Sign(d) > 0 ==> !Preorder({Val(Null), Undefined}, d)
  {
  }

  // ---------------------------------------------------------------- sorting a copy

  /** `cmp` orders the elements `xs` consistently: any two are comparable one way round, and "not after" is transitive. */
  ghost predicate TotalPreorder<T>(xs: set<T>, cmp: (T, T) -> int)
  {
    (forall a, b :: a in xs && b in xs ==> cmp(a, b) <= 0 || cmp(b, a) <= 0) &&
    (forall a, b, c :: a in xs && b in xs && c in xs && cmp(a, b) <= 0 && cmp(b, c) <= 0 ==> cmp(a, c) <= 0)
  }

  /** No element of `s` sorts after a later one. */
  ghost predicate Sorted<T>(s: seq<T>, cmp: (T, T) -> int)
  {
    forall i, j :: 0 <= i < j < |s| ==> cmp(s[i], s[j]) <= 0
  }

  /**
   * The order `Array.prototype.sort` produces with a consistent comparator,
   * as a stable insertion sort: `x` goes before the first element that sorts
   * after it.
   */
  function Insert<T>(x: T, s: seq<T>, cmp: (T, T) -> int): (r: seq<T>)
    ensures multiset(r) == multiset(s) + multiset{x}
  {
    if s == [] then [x]
    else if cmp(s[0], x) > 0 then [x] + s
    else
      assert s == [s[0]] + s[1..];
      [s[0]] + Insert(x, s[1..], cmp)
  }

  function InsertionSort<T>(s: seq<T>, cmp: (T, T) -> int): (r: seq<T>)
    ensures multiset(r) == multiset(s)
  {
    if s == [] then []
    else
      assert s == s[..|s| - 1] + [s[|s| - 1]];
      Insert(s[|s| - 1], InsertionSort(s[..|s| - 1], cmp), cmp)
  }

  lemma {:induction false} InsertSorted<T>(x: T, s: seq<T>, cmp: (T, T) -> int, xs: set<T>)
    requires TotalPreorder(xs, cmp) && x in xs
    requires forall y :: y in s ==> y in xs
    requires Sorted(s, cmp)
    ensures Sorted(Insert(x, s, cmp), cmp)
    decreases |s|
  {
    if s != [] {
      if cmp(s[0], x) > 0 {
        InsertFront(x, s, cmp, xs);
      } else {
        InsertSorted(x, s[1..], cmp, xs);
        InsertBehind(x, s, cmp);
      }
    }
  }

  /** `x` before a sorted `s` whose head sorts after it: in order. */
  lemma InsertFront<T>(x: T, s: seq<T>, cmp: (T, T) -> int, xs: set<T>)
    requires TotalPreorder(xs, cmp) && x in xs
    requires s != [] && s[0] in xs && forall y :: y in s ==> y in xs
    requires Sorted(s, cmp) && cmp(s[0], x) > 0
    ensures Sorted([x] + s, cmp)
  {
    assert cmp(x, s[0]) <= 0;
    forall j | 0 <= j < |s| ensures cmp(x, s[j]) <= 0
    {
      if j > 0 {
        assert s[j] in xs;
        assert cmp(s[0], s[j]) <= 0;
      }
    }
  }

  /** The head of a sorted `s` that does not sort after `x` stays in front of `x` inserted into the tail. */
  lemma InsertBehind<T>(x: T, s: seq<T>, cmp: (T, T) -> int)
    requires s != [] && Sorted(s, cmp) && cmp(s[0], x) <= 0
    requires Sorted(Insert(x, s[1..], cmp), cmp)
    ensures Sorted([s[0]] + Insert(x, s[1..], cmp), cmp)
  {
    var t := Insert(x, s[1..], cmp);
    HeadBeforeTail(s, cmp);
    InsertMembers(x, s[1..], cmp);
    var r := [s[0]] + t;
    forall i, j | 0 <= i < j < |r| ensures cmp(r[i], r[j]) <= 0
    {
      if i == 0 {
        assert r[j] == t[j - 1];
        assert r[j] in t;
      } else {
        assert r[i] == t[i - 1] && r[j] == t[j - 1];
      }
    }
  }

  lemma HeadBeforeTail<T>(s: seq<T>, cmp: (T, T) -> int)
    requires s != [] && Sorted(s, cmp)
    ensures forall y :: y in s[1..] ==> cmp(s[0], y) <= 0
  {
    forall y | y in s[1..] ensures cmp(s[0], y) <= 0
    {
      var j :| 0 <= j < |s[1..]| && s[1..][j] == y;
      assert s[j + 1] == y;
    }
  }

  lemma InsertMembers<T>(x: T, s: seq<T>, cmp: (T, T) -> int)
    ensures forall y :: y in Insert(x, s, cmp) ==> y == x || y in s
  {
    forall y | y in Insert(x, s, cmp) ensures y == x || y in s
    {
      assert y in multiset(Insert(x, s, cmp));
    }
  }

  /** Under a consistent comparator the insertion sort's result is in order. */
  lemma {:induction false} InsertionSortSorted<T>(s: seq<T>, cmp: (T, T) -> int, xs: set<T>)
    requires TotalPreorder(xs, cmp)
    requires forall y :: y in s ==> y in xs
    ensures Sorted(InsertionSort(s, cmp), cmp)
    decreases |s|
  {
    if s != [] {
      var init := s[..|s| - 1];
      InsertionSortSorted(init, cmp, xs);
      var t := InsertionSort(init, cmp);
      forall y | y in t ensures y in xs
      {
        assert y in multiset(t);
        assert y in init;
      }
      InsertSorted(s[|s| - 1], t, cmp, xs);
    }
  }

  /** The comparator `sort` receives: the two rows' cells in column `key`, compared in direction `d`. */
  function RowOrder(key: string, d: Direction): (Value, Value) -> int
  {
    (a: Value, b: Value) => Compare(Read(a, key), Read(b, key), d)
  }

  /** The cells of column `key`. */
  ghost function ColumnOf(rows: seq<Value>, key: string): set<Js>
  {
    set r | r in rows :: Read(r, key)
  }

  /** The rows `s` are in comparator order on column `key`. */
  ghost predicate InOrder(s: seq<Value>, key: string, d: Direction)
  {
    forall i, j :: 0 <= i < j < |s| ==> Compare(Read(s[i], key), Read(s[j], key), d) <= 0
  }

  /** A column whose cells are ordered consistently orders its rows consistently. */
  lemma RowsConsistent(rows: seq<Value>, key: string, d: Direction)
    requires Preorder(ColumnOf(rows, key), d)
    ensures TotalPreorder(set r | r in rows :: r, RowOrder(key, d))
  {
    var cmp := RowOrder(key, d);
    var keys := ColumnOf(rows, key);
    forall a, b | a in rows && b in rows ensures cmp(a, b) <= 0 || cmp(b, a) <= 0
    {
      assert Read(a, key) in keys && Read(b, key) in keys;
    }
    forall a, b, c | a in rows && b in rows && c in rows && cmp(a, b) <= 0 && cmp(b, c) <= 0
      ensures cmp(a, c) <= 0
    {
      assert Read(a, key) in keys && Read(b, key) in keys && Read(c, key) in keys;
    }
  }

  /**
   * `data.slice().sort(compare)` on the rows: throws if a null row meets the
   * comparator (any sort of two or more rows compares every row), otherwise
   * a reordering of the rows.
   */
  function SortRows(rows: seq<Value>, key: string, d: Direction): (r: Result<seq<Value>, Fault>)
    ensures r.Err? <==> |rows| >= 2 && Null in rows
    ensures r.Ok? ==> multiset(r.value) == multiset(rows)
  {
    if |rows| >= 2 && Null in rows then Err(NullishAccess)
    else Ok(InsertionSort(rows, RowOrder(key, d)))
  }

  /** `applySorting(data)` with `sortState` as its key (None for null) and direction. */
  function ApplySorting(data: Js, key: Option<string>, d: Direction): Result<Js, Fault>
  {
    if !IsArray(data) || key.None? then Ok(data)
    else if !RowShaped(data) then Ok(data)
    else
      var sorted :- SortRows(data.v.items, key.value, d);
      Ok(Val(Arr(sorted)))
  }

  /**
   * The sort leaves its input alone without a sort key or a row-shaped array;
   * otherwise it throws exactly when a row is null, and returns a reordering
   * of the rows that is in comparator order whenever the column is ordered
   * consistently.
   */
  lemma SortingShape(data: Js, key: Option<string>, d: Direction)
    ensures key.None? || !RowShaped(data) ==> ApplySorting(data, key, d) == Ok(data)
    ensures key.Some? && RowShaped(data) ==>
      (ApplySorting(data, key, d).Err? <==> Null in data.v.items)
    ensures key.Some? && RowShaped(data) && ApplySorting(data, key, d).Ok? ==>
      var sorted := ApplySorting(data, key, d).value;
      sorted.Val? && sorted.v.Arr? && multiset(sorted.v.items) == multiset(data.v.items) &&
      (Preorder(ColumnOf(data.v.items, key.value), d) ==> InOrder(sorted.v.items, key.value, d))
  {
    if key.Some? && RowShaped(data) {
      var rows := data.v.items;
      if Null in rows {
        assert rows[0] != Null;
        assert |rows| >= 2;
      } else if Preorder(ColumnOf(rows, key.value), d) {
        var cmp := RowOrder(key.value, d);
        RowsConsistent(rows, key.value, d);
        InsertionSortSorted(rows, cmp, set r | r in rows :: r);
        var s := InsertionSort(rows, cmp);
        forall i, j | 0 <= i < j < |s| ensures Compare(Read(s[i], key.value), Read(s[j], key.value), d) <= 0
        {
          assert cmp(s[i], s[j]) <= 0;
        }
      }
    }
  }

  // ---------------------------------------------------------------- the column list

  /** The keys `Object.keys` lists for a row the header scan looks at: objects and arrays; nothing for other rows. */
  function RowKeys(item: Value): seq<string>
  {
    if IsComposite(Val(item)) then ObjectKeys(Val(item)).value else []
  }

  /** Every row's keys, one row after another. */
  function AllRowKeys(items: seq<Value>): seq<string>
  {
    if items == [] then [] else AllRowKeys(items[..|items| - 1]) + RowKeys(items[|items| - 1])
  }

  /** The column list `renderControls` builds: every key of every row, once, in the order first seen. */
  function HeaderUnion(items: seq<Value>): seq<string>
  {
    AddKeys([], AllRowKeys(items))
  }

  /** A key of the union comes from some row. */
  lemma {:induction false} KeySource(items: seq<Value>, k: string) returns (i: nat)
    requires k in AllRowKeys(items)
    ensures i < |items| && k in RowKeys(items[i])
    decreases |items|
  {
    var init := items[..|items| - 1];
    if k in RowKeys(items[|items| - 1]) {
      i := |items| - 1;
    } else {
      i := KeySource(init, k);
      assert items[i] == init[i];
    }
  }

  /** Every key of every row is in the union. */
  lemma {:induction false} KeyReached(items: seq<Value>, k: string, i: nat)
    requires i < |items| && k in RowKeys(items[i])
    ensures k in AllRowKeys(items)
    decreases |items|
  {
    var init := items[..|items| - 1];
    KeysAfter(AllRowKeys(init), RowKeys(items[|items| - 1]), k);
    if i < |init| {
      assert items[i] == init[i];
      KeyReached(init, k, i);
    } else {
      assert items[i] == items[|items| - 1];
    }
  }

  lemma KeysAfter(a: seq<string>, b: seq<string>, k: string)
    ensures k in a + b <==> k in a || k in b
  {
  }

  /**
   * The column list holds no key twice, holds exactly the keys some object
   * or array row has, and lists them in the order of their first
   * appearance.
   */
  lemma HeaderUnionShape(items: seq<Value>)
    ensures Distinct(HeaderUnion(items))
    ensures forall p :: 0 <= p < |HeaderUnion(items)| ==> HeaderUnion(items)[p] in AllRowKeys(items)
    ensures forall k :: k in HeaderUnion(items) <==> exists i :: 0 <= i < |items| && k in RowKeys(items[i])
    ensures forall p, q :: 0 <= p < q < |HeaderUnion(items)| ==>
      FirstIndex(AllRowKeys(items), HeaderUnion(items)[p]) < FirstIndex(AllRowKeys(items), HeaderUnion(items)[q])
  {
    AddKeysGrows([], AllRowKeys(items));
    forall k ensures k in HeaderUnion(items) <==> exists i :: 0 <= i < |items| && k in RowKeys(items[i])
    {
      if k in AllRowKeys(items) {
        var i := KeySource(items, k);
      }
      if exists i :: 0 <= i < |items| && k in RowKeys(items[i]) {
        var i :| 0 <= i < |items| && k in RowKeys(items[i]);
        KeyReached(items, k, i);
      }
    }
  }

  /** An object row's keys are its fields' names in order. */
  lemma ObjectRowKeys(fields: seq<(string, Value)>)
    ensures RowKeys(Obj(fields)) == Keys(fields)
  {
  }

  /**
   * `renderControls` on the displayed node: for a row-shaped array the cached
   * column list is kept when there is one and built from the rows otherwise;
   * any other node leaves the cache alone.
   */
  function RefreshHeaders(data: Js, cache: seq<string>): seq<string>
  {
    if !(data.Val? && data.v.Arr? && |data.v.items| > 0 && IsComposite(Val(data.v.items[0]))) then cache
    else if |cache| == 0 then HeaderUnion(data.v.items)
    else cache
  }

  /** The controls accept exactly the row-shaped arrays the queries accept. */
  lemma ControlsAgreeWithQueries(data: Js)
    ensures (data.Val? && data.v.Arr? && |data.v.items| > 0 && IsComposite(Val(data.v.items[0]))) <==> RowShaped(data)
  {
  }

  /** The headers shown: the column list without the hidden ones, in column-list order. */
  function VisibleHeaders(all: seq<string>, hidden: set<string>): (r: seq<string>)
    ensures forall k :: k in r <==> k in all && k !in hidden
    ensures Subsequence(r, all)
  {
    if all == [] then []
    else if all[0] in hidden then
      var r := VisibleHeaders(all[1..], hidden);
      SubsequenceSkip(r, all);
      r
    else
      var r := [all[0]] + VisibleHeaders(all[1..], hidden);
      assert r[1..] == VisibleHeaders(all[1..], hidden);
      r
  }
}
