/**
 * `subSheets` and `subSheetHeaders` are plain object literals, so looking up
 * a header that names a member of `Object.prototype` finds the inherited
 * member. For such a header the test `!subSheets[header]` is false before the
 * sheet exists, the sheet is never opened, and the following
 * `subSheets[header].push(...)` (or `subSheetHeaders[header].add(...)`) calls
 * a method the inherited function does not have: the export throws. The rest
 * of the model uses the evidently intended behaviour, where every header is
 * looked up among the own keys only (Workbook.Open).
 */
module WorkbookFinding {
  import opened Wrappers
  import opened JsonValue
  import opened Workbook
  import opened WorkbookFacts

  /** The names every plain object inherits from `Object.prototype`; each lookup yields a truthy function or object. */
  const Inherited: set<string> := {
    "constructor", "hasOwnProperty", "isPrototypeOf", "propertyIsEnumerable",
    "toLocaleString", "toString", "valueOf", "__proto__",
    "__defineGetter__", "__defineSetter__", "__lookupGetter__", "__lookupSetter__"
  }

  /** `!!subSheets[h]` as written: an own key, or an inherited name. */
  predicate SheetSeen(s: SubSheets, h: string)
  {
    FindKey(s.rows, h).Some? || h in Inherited
  }

  /**
   * The value under header `h`, as the exporter treats it: an object or a
   * non-empty array under a header that is not an own key but is seen as
   * present finds no `push` (or `add`) to call.
   */
  function AddValueAsWritten(s: SubSheets, h: string, rowId: nat, x: Js): Result<SubSheets, Fault>
  {
    if Width(x) == 0 then Ok(s)
    else if SheetSeen(s, h) && FindKey(s.rows, h).None? then Err(NotCallable)
    else AddValue(s, h, rowId, x)
  }

  /** Away from inherited names the exporter and the intended behaviour agree. */
  lemma AsWrittenAgrees(s: SubSheets, h: string, rowId: nat, x: Js)
    requires h !in Inherited
    ensures AddValueAsWritten(s, h, rowId, x) == AddValue(s, h, rowId, x)
  {
  }

  /**
   * A row `{ "constructor": {} }` exported with the header "constructor":
   * the exporter throws at its first sub-row, the intended behaviour opens the
   * sheet "constructor" and gives it that sub-row.
   */
  lemma ConstructorHeader()
    ensures AddValueAsWritten(SubSheets([], []), "constructor", 1, Val(Obj([]))) == Err(NotCallable)
    ensures AddValue(SubSheets([], []), "constructor", 1, Val(Obj([]))).Ok?
    ensures var t := AddValue(SubSheets([], []), "constructor", 1, Val(Obj([]))).value;
      Keys(t.rows) == ["constructor"] && RowsOf(t, "constructor") == [[("_rowId", Num(1))]]
  {
    var x := Val(Obj([]));
    var e := SubSheets([], []);
    var none: seq<string> := [];
    assert Width(x) == 1;
    OpeningStep(e, "constructor", 1, x);
    assert AddKey(none, "constructor") == ["constructor"];
    assert NewRows(1, x) == [SpreadRow(1, x)];
    assert SpreadEntries(x) == [];
    assert SpreadRow(1, x) == [("_rowId", Num(1))];
  }
}
