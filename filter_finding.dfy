/**
 * The filter reads a cell as `String(item[key] || '')` (ViewQuery.FilterText).
 * The `|| ''` is meant to turn a null or missing cell into empty text, but it
 * empties every falsy cell: a cell holding 0 or false, which the table shows
 * as "0" or "false", then matches no non-empty pattern, not even "0" or
 * "false". This module states the reading evidently intended (empty text for
 * null and undefined only), the filter built on it, and how far the two
 * filters part.
 */
module FilterFinding {
  import opened Wrappers
  import opened Text
  import opened JsonValue
  import opened Workbook
  import opened ViewQuery

  /** The text of a cell as intended: empty for null and undefined, `String(x)` for everything else. */
  function IntendedText(x: Js): (t: string)
    ensures Nullish(x) ==> t == ""
    ensures x == Val(Num(0)) ==> t == "0"
    ensures x == Val(Bool(false)) ==> t == "false"
    ensures Truthy(x) ==> t == FilterText(x)
  {
    if Nullish(x) then "" else ToJsString(x)
  }

  predicate IntendedHit(x: Js, pattern: string)
  {
    Contains(Lower(IntendedText(x)), Lower(pattern))
  }

  predicate IntendedPasses(item: Value, filters: seq<(string, string)>)
  {
    forall i :: 0 <= i < |filters| ==> IntendedHit(Read(item, filters[i].0), filters[i].1)
  }

  /** The corrected `items.filter(keep)`: it still throws on a null row while a filter is active. */
  function IntendedFilterItems(items: seq<Value>, filters: seq<(string, string)>): (r: Result<seq<Value>, Fault>)
    ensures r.Err? <==> filters != [] && Null in items
  {
    if items == [] then Ok([])
    else if filters != [] && items[0] == Null then Err(NullishAccess)
    else
      var rest :- IntendedFilterItems(items[1..], filters);
      Ok(if IntendedPasses(items[0], filters) then [items[0]] + rest else rest)
  }

  /** The corrected `applyFiltering`. */
  function IntendedFiltering(data: Js, filters: seq<(string, string)>): Result<Js, Fault>
  {
    if !RowShaped(data) || filters == [] then Ok(data)
    else
      var kept :- IntendedFilterItems(data.v.items, filters);
      Ok(Val(Arr(kept)))
  }

  /**
   * The corrected filter leaves its input alone unless the input is
   * row-shaped and a filter is active; otherwise it throws exactly when a row
   * is null, and keeps in order exactly the rows whose cells contain their
   * patterns, 0 and false read as "0" and "false".
   */
  lemma IntendedFilteringShape(data: Js, filters: seq<(string, string)>)
    ensures !RowShaped(data) || filters == [] ==> IntendedFiltering(data, filters) == Ok(data)
    ensures RowShaped(data) && filters != [] ==>
      (IntendedFiltering(data, filters).Err? <==> Null in data.v.items)
    ensures RowShaped(data) && filters != [] && IntendedFiltering(data, filters).Ok? ==>
      var kept := IntendedFiltering(data, filters).value;
      kept.Val? && kept.v.Arr? && Subsequence(kept.v.items, data.v.items) &&
      forall x :: x in kept.v.items <==> x in data.v.items && IntendedPasses(x, filters)
  {
    if RowShaped(data) && filters != [] && IntendedFiltering(data, filters).Ok? {
      IntendedKeeps(data.v.items, filters);
    }
  }

  lemma {:induction false} IntendedKeeps(items: seq<Value>, filters: seq<(string, string)>)
    requires IntendedFilterItems(items, filters).Ok?
    ensures Subsequence(IntendedFilterItems(items, filters).value, items)
    ensures forall x :: x in IntendedFilterItems(items, filters).value <==> x in items && IntendedPasses(x, filters)
  {
    if items != [] {
      IntendedKeeps(items[1..], filters);
      var rest := IntendedFilterItems(items[1..], filters).value;
      assert items == [items[0]] + items[1..];
      if IntendedPasses(items[0], filters) {
        SubsequenceCons(items[0], rest, items[1..]);
      } else {
        SubsequenceSkip(rest, items);
      }
    }
  }

  lemma SubsequenceCons<T>(x: T, a: seq<T>, b: seq<T>)
    requires Subsequence(a, b)
    ensures Subsequence([x] + a, [x] + b)
  {
    assert ([x] + a)[1..] == a && ([x] + b)[1..] == b;
  }

  /** Whatever the program's filter lets through, the corrected one lets through too. */
  lemma HitWithinIntended(x: Js, pattern: string)
    ensures Hit(x, pattern) ==> IntendedHit(x, pattern)
  {
    if Hit(x, pattern) && !Truthy(x) {
      FalsyCellMatches(x, pattern);
      assert IsPrefix(Lower(pattern), Lower(IntendedText(x)));
    }
  }

  /**
   * The program's filter throws exactly when the corrected one does, and
   * otherwise keeps some of the rows the corrected one keeps, in the same
   * order.
   */
  lemma FilteringWithinIntended(data: Js, filters: seq<(string, string)>)
    ensures ApplyFiltering(data, filters).Ok? <==> IntendedFiltering(data, filters).Ok?
    ensures ApplyFiltering(data, filters).Ok? ==>
      var a := ApplyFiltering(data, filters).value;
      var b := IntendedFiltering(data, filters).value;
      a == b || (a.Val? && a.v.Arr? && b.Val? && b.v.Arr? && Subsequence(a.v.items, b.v.items))
  {
    if RowShaped(data) && filters != [] && ApplyFiltering(data, filters).Ok? {
      WrittenWithinIntended(data.v.items, filters);
    }
  }

  lemma {:induction false} WrittenWithinIntended(items: seq<Value>, filters: seq<(string, string)>)
    requires FilterItems(items, filters).Ok?
    ensures IntendedFilterItems(items, filters).Ok?
    ensures Subsequence(FilterItems(items, filters).value, IntendedFilterItems(items, filters).value)
  {
    if items != [] {
      FilterItemsStep(items, filters);
      WrittenWithinIntended(items[1..], filters);
      var a := FilterItems(items[1..], filters).value;
      var b := IntendedFilterItems(items[1..], filters).value;
      if Passes(items[0], filters) {
        forall i | 0 <= i < |filters|
          ensures IntendedHit(Read(items[0], filters[i].0), filters[i].1)
        {
          HitWithinIntended(Read(items[0], filters[i].0), filters[i].1);
        }
        SubsequenceCons(items[0], a, b);
      } else if IntendedPasses(items[0], filters) {
        SubsequenceSkip(a, [items[0]] + b);
      }
    }
  }

  /** The two readings of a cell differ exactly on the cells 0 and false. */
  lemma WhereTheyDiffer(x: Js)
    ensures FilterText(x) != IntendedText(x) <==> x == Val(Num(0)) || x == Val(Bool(false))
  {
  }

  /**
   * Filtering a column for "0": the program passes a cell holding 10 and not
   * a cell holding 0; the corrected filter passes the 0 as well.
   */
  lemma ZeroCellHidden()
    ensures Hit(Val(Num(10)), "0")
    ensures !Hit(Val(Num(0)), "0")
    ensures IntendedHit(Val(Num(0)), "0")
  {
    assert NatToDecimal(10) == NatToDecimal(1) + [DigitChar(0)];
    assert Lower("10") == "10";
    assert Lower("0") == "0";
    assert !IsPrefix("0", "10") && IsPrefix("0", "0");
    assert Contains("10"[1..], "0");
    assert !IsPrefix("0", "");
  }

  function ZeroRows(): seq<Value>
  {
    [Obj([("n", Num(0))]), Obj([("n", Num(10))])]
  }

  /** The rows `[{"n": 0}, {"n": 10}]` filtered for `n` = "0": the program keeps only the second row, the corrected filter both. */
  lemma ZeroRowDropped()
    ensures ApplyFiltering(Val(Arr(ZeroRows())), [("n", "0")]) == Ok(Val(Arr([ZeroRows()[1]])))
    ensures IntendedFiltering(Val(Arr(ZeroRows())), [("n", "0")]) == Ok(Val(Arr(ZeroRows())))
  {
    var rows := ZeroRows();
    var f := [("n", "0")];
    ZeroRowsPass();
    assert rows[1..] == [rows[1]] && [rows[1]][1..] == [];
    FilterItemsStep(rows, f);
    FilterItemsStep([rows[1]], f);
    assert [rows[1]] + [] == [rows[1]];
    assert IntendedFilterItems([rows[1]], f) == Ok([rows[1]]);
    assert IntendedFilterItems(rows, f) == Ok([rows[0]] + [rows[1]]);
    assert [rows[0]] + [rows[1]] == rows;
  }

  lemma ZeroRowsPass()
    ensures !Passes(ZeroRows()[0], [("n", "0")]) && Passes(ZeroRows()[1], [("n", "0")])
    ensures IntendedPasses(ZeroRows()[0], [("n", "0")]) && IntendedPasses(ZeroRows()[1], [("n", "0")])
  {
    var f := [("n", "0")];
    ZeroCellHidden();
    HitWithinIntended(Val(Num(10)), "0");
    assert Read(ZeroRows()[0], "n") == Val(Num(0)) && Read(ZeroRows()[1], "n") == Val(Num(10));
    assert f[0].0 == "n" && f[0].1 == "0";
  }
}
