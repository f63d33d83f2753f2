/**
 * The extension side of an in-place cell edit: the `updateValue` message
 * handler parses the document, walks the breadcrumb path the webview sent
 * (all labels but the first), turns the edited text into a value, and
 * writes it into the tree in one of three forms.
 *
 * `target` in the handler is a reference into the parsed tree. It is
 * modelled as a `Target`: either the path of steps from the root that the
 * reference denotes, or a value that is not part of the tree (a missing
 * property, a character of a string, a length), to which a write either
 * throws or is lost. An in-place write at a path is `ReplaceAt` on the root.
 */
module PathEdit {
  import opened Wrappers
  import opened Text
  import opened JsonValue
  import opened JsonText

  /** What `target` denotes during the walk. */
  datatype Target = At(path: seq<Step>) | Loose(x: Js)

  /** The value `target` holds. */
  function NodeOf(root: Value, t: Target): Js
  {
    match t
    case At(p) => (match ValueAt(root, p) case Some(v) => Val(v) case None => Undefined)
    case Loose(x) => x
  }

  /** A target the walk can produce: a node that exists, or a detached value that has no properties to write. */
  predicate Located(root: Value, t: Target)
  {
    match t
    case At(p) => ValueAt(root, p).Some?
    case Loose(x) => !IsComposite(x)
  }

  // ---------------------------------------------------------------- one step of the walk

  /** `target[key]`, keeping track of whether the result is still a node of the tree. */
  function Member(root: Value, t: Target, key: string): (r: Result<Target, Fault>)
    ensures r.Err? <==> NodeOf(root, t) == Undefined || NodeOf(root, t) == Val(Null)
  {
    var x := NodeOf(root, t);
    var y :- GetProp(x, key);
    if t.At? && x.Val? && ChildStep(x.v, key).Some? then Ok(At(t.path + [ChildStep(x.v, key).value]))
    else Ok(Loose(y))
  }

  /** A segment wrapped in square brackets. */
  predicate Bracketed(segment: string)
  {
    |segment| >= 2 && segment[0] == '[' && segment[|segment| - 1] == ']'
  }

  /**
   * The property key `target[parseInt(inner)]` reads for a bracketed segment:
   * the decimal text of the parsed integer, or "NaN" when nothing parses.
   */
  function IndexKey(segment: string): string
    requires Bracketed(segment)
  {
    match ParseInt(segment[1..|segment| - 1])
    case Some(n) => IntToDecimal(n)
    case None => "NaN"
  }

  /** The key a segment reads on `x`: an index only for a bracketed segment on an array. */
  function SegmentKey(x: Js, segment: string): string
  {
    if IsArray(x) && Bracketed(segment) then IndexKey(segment) else segment
  }

  /** One iteration of the walk. */
  function Descend(root: Value, t: Target, segment: string): Result<Target, Fault>
  {
    Member(root, t, SegmentKey(NodeOf(root, t), segment))
  }

  /** The walk over the remaining segments from `t`. */
  function WalkFrom(root: Value, t: Target, segments: seq<string>): Result<Target, Fault>
    decreases |segments|
  {
    if segments == [] then Ok(t)
    else
      var next :- Descend(root, t, segments[0]);
      WalkFrom(root, next, segments[1..])
  }

  /** `message.path.slice(1)`: the breadcrumb labels after the root's own. */
  function NavPath(path: seq<string>): (r: seq<string>)
    ensures |path| >= 1 ==> path == path[..1] + r
    ensures |path| <= 1 ==> r == []
  {
    if |path| >= 1 then path[1..] else []
  }

  // ---------------------------------------------------------------- coercion and the write

  /** `JSON.parse(newValue)`, falling back to the text itself when it does not parse. */
  function Coerce(text: string): Value
  {
    match Parse(text)
    case Some(v) => v
    case None => Str(text)
  }

  /**
   * `target[key] = v` (strict mode): throws on null, undefined and primitives,
   * and on an array's `length` set to an invalid length; on a node of the
   * tree it replaces that node by its updated copy.
   */
  function Write(root: Value, t: Target, key: string, v: Value): (r: Result<Value, Fault>)
    ensures r.Ok? <==> IsComposite(NodeOf(root, t)) && !BadLength(NodeOf(root, t), key, v)
    ensures r.Err? ==> r.error == (if NodeOf(root, t) == Undefined || NodeOf(root, t) == Val(Null) then NullishAccess
                                   else if IsComposite(NodeOf(root, t)) then InvalidLength else PrimitiveWrite)
    ensures r.Ok? && t.At? ==> ValueAt(r.value, t.path) == Some(SetProp(NodeOf(root, t), key, v).value)
  {
    var n :- SetProp(NodeOf(root, t), key, v);
    if t.At? && ValueAt(root, t.path).Some? then Ok(ReplaceAt(root, t.path, n)) else Ok(root)
  }

  /** The three write forms, chosen by which of `index` and `key` the message carries. */
  function Apply(root: Value, t: Target, index: Option<string>, key: Option<string>, v: Value): (r: Result<Value, Fault>)
    ensures index.None? && key.None? ==> r == Ok(root)
  {
    if index.Some? && key.Some? then
      var row :- Member(root, t, index.value);
      Write(root, row, key.value, v)
    else if index.Some? then Write(root, t, index.value, v)
    else if key.Some? then Write(root, t, key.value, v)
    else Ok(root)
  }

  /**
   * The whole handler on the document text: the edited tree, or the exception
   * that the handler catches, in which case the document is not edited.
   */
  function Edit(doc: string, path: seq<string>, index: Option<string>, key: Option<string>, newValue: string): (r: Result<Value, Fault>)
    ensures Parse(doc).None? ==> r == Err(SyntaxError)
  {
    match Parse(doc)
    case None => Err(SyntaxError)
    case Some(json) =>
      var t :- WalkFrom(json, At([]), NavPath(path));
      Apply(json, t, index, key, Coerce(newValue))
  }

  /** The handler as written: the walk is a loop that reassigns `target`. */
  method UpdateValue(doc: string, path: seq<string>, index: Option<string>, key: Option<string>, newValue: string)
    returns (r: Result<Value, Fault>)
    ensures r == Edit(doc, path, index, key, newValue)
  {
    var parsed := Parse(doc);
    if parsed.None? {
      return Err(SyntaxError);
    }
    var json := parsed.value;
    var target := At([]);
    var navPath := NavPath(path);
    for i := 0 to |navPath|
      invariant WalkFrom(json, At([]), navPath) == WalkFrom(json, target, navPath[i..])
    {
      var segment := navPath[i];
      var node := NodeOf(json, target);
      var prop := if IsArray(node) && Bracketed(segment) then IndexKey(segment) else segment;
      var next := Member(json, target, prop);
      assert navPath[i..][1..] == navPath[i + 1..];
      if next.Err? {
        return Err(next.error);
      }
      target := next.value;
    }
    assert navPath[|navPath|..] == [];
    var coerced := Coerce(newValue);
    if index.Some? && key.Some? {
      var row := Member(json, target, index.value);
      if row.Err? {
        return Err(row.error);
      }
      r := Write(json, row.value, key.value, coerced);
    } else if index.Some? {
      r := Write(json, target, index.value, coerced);
    } else if key.Some? {
      r := Write(json, target, key.value, coerced);
    } else {
      r := Ok(json);
    }
  }

  // ---------------------------------------------------------------- the walk

  /** A step that stays in the tree appends one step to the path; otherwise the result is detached and has no writable properties. */
  lemma MemberLocated(root: Value, t: Target, key: string)
    requires Located(root, t) && Member(root, t, key).Ok?
    ensures Located(root, Member(root, t, key).value)
    ensures NodeOf(root, Member(root, t, key).value) == GetProp(NodeOf(root, t), key).value
    ensures Member(root, t, key).value.At? ==> t.At? && Member(root, t, key).value.path[..|t.path|] == t.path &&
                                               |Member(root, t, key).value.path| == |t.path| + 1
  {
    var x := NodeOf(root, t);
    var y := GetProp(x, key).value;
    if t.At? && x.Val? && ChildStep(x.v, key).Some? {
      var st := ChildStep(x.v, key).value;
      ValueAtSnoc(root, t.path, st);
      assert (t.path + [st])[..|t.path|] == t.path;
    } else {
      match x
      case Val(Obj(_)) =>
      case Val(Arr(_)) =>
      case Val(Str(_)) =>
      case _ =>
    }
  }

  /**
   * The walk from a located target ends at a located target, and a target
   * still in the tree lies exactly one level deeper per segment: no segment is
   * skipped and none descends twice.
   */
  lemma {:induction false} WalkDepth(root: Value, t: Target, segments: seq<string>)
    requires Located(root, t) && WalkFrom(root, t, segments).Ok?
    ensures Located(root, WalkFrom(root, t, segments).value)
    ensures WalkFrom(root, t, segments).value.At? ==>
              t.At? && |WalkFrom(root, t, segments).value.path| == |t.path| + |segments| &&
              WalkFrom(root, t, segments).value.path[..|t.path|] == t.path
    decreases |segments|
  {
    if segments != [] {
      var next := Descend(root, t, segments[0]).value;
      MemberLocated(root, t, SegmentKey(NodeOf(root, t), segments[0]));
      WalkDepth(root, next, segments[1..]);
      var u := WalkFrom(root, t, segments).value;
      if u.At? {
        assert u.path[..|next.path|] == next.path;
        assert u.path[..|t.path|] == next.path[..|t.path|];
      }
    }
  }

  /** The first label is never read: it names the root frame. */
  lemma EditSkipsRootLabel(doc: string, first: string, other: string, rest: seq<string>,
                           index: Option<string>, key: Option<string>, newValue: string)
    ensures Edit(doc, [first] + rest, index, key, newValue) == Edit(doc, [other] + rest, index, key, newValue)
  {
    assert NavPath([first] + rest) == rest == NavPath([other] + rest);
  }

  // ---------------------------------------------------------------- agreement with the webview's navigation

  /** One drill-down of the webview: by a row index (`currentData[index]`) or by a key (`currentData[key]`). */
  datatype Move = ByIndex(index: string) | ByKey(key: string)

  /** The breadcrumb label the webview records for a move. */
  function Label(m: Move): string
  {
    match m
    case ByIndex(i) => "[" + i + "]"
    case ByKey(k) => k
  }

  function MoveKey(m: Move): string
  {
    match m
    case ByIndex(i) => i
    case ByKey(k) => k
  }

  function Labels(moves: seq<Move>): (r: seq<string>)
    ensures |r| == |moves|
    decreases |moves|
  {
    if moves == [] then [] else [Label(moves[0])] + Labels(moves[1..])
  }

  /** The value the webview shows after the moves, as its navigation stack computes it. */
  function ViewWalk(x: Js, moves: seq<Move>): Result<Js, Fault>
    decreases |moves|
  {
    if moves == [] then Ok(x)
    else
      var y :- GetProp(x, MoveKey(moves[0]));
      ViewWalk(y, moves[1..])
  }

  /**
   * The moves a table can produce: a row index is a canonical array index on
   * an array; a key is never bracketed where it is applied to an array.
   */
  predicate Agrees(x: Js, m: Move)
  {
    match m
    case ByIndex(i) => IsArray(x) && CanonicalIndex(i).Some?
    case ByKey(k) => !(IsArray(x) && Bracketed(k))
  }

  predicate Consistent(x: Js, moves: seq<Move>)
    decreases |moves|
  {
    moves == [] ||
    (Agrees(x, moves[0]) &&
     (GetProp(x, MoveKey(moves[0])).Ok? ==> Consistent(GetProp(x, MoveKey(moves[0])).value, moves[1..])))
  }

  /** The extension reads a label back as the key the webview read. */
  lemma SegmentKeyOfLabel(x: Js, m: Move)
    requires Agrees(x, m)
    ensures SegmentKey(x, Label(m)) == MoveKey(m)
  {
    if m.ByIndex? {
      var i := m.index;
      var s := Label(m);
      assert Bracketed(s);
      assert s[1..|s| - 1] == i;
      var n := CanonicalIndex(i).value;
      ParseIntOfDecimal(n);
    }
  }

  /**
   * Walking the labels of the webview's moves reaches the value the webview
   * displays, and fails exactly where the webview's own navigation would.
   */
  lemma {:induction false} WalkFollowsView(root: Value, t: Target, moves: seq<Move>)
    requires Located(root, t) && Consistent(NodeOf(root, t), moves)
    ensures WalkFrom(root, t, Labels(moves)).Ok? <==> ViewWalk(NodeOf(root, t), moves).Ok?
    ensures WalkFrom(root, t, Labels(moves)).Ok? ==>
              NodeOf(root, WalkFrom(root, t, Labels(moves)).value) == ViewWalk(NodeOf(root, t), moves).value
    decreases |moves|
  {
    if moves != [] {
      var x := NodeOf(root, t);
      var labels := Labels(moves);
      assert labels[0] == Label(moves[0]) && labels[1..] == Labels(moves[1..]);
      SegmentKeyOfLabel(x, moves[0]);
      var step := Member(root, t, MoveKey(moves[0]));
      if step.Ok? {
        MemberLocated(root, t, MoveKey(moves[0]));
        WalkFollowsView(root, step.value, moves[1..]);
      }
    }
  }

  // ---------------------------------------------------------------- coercion

  /** A character that can open a JSON value: a keyword's first letter, a quote, a bracket, a minus or a digit. */
  predicate OpensValue(c: char)
  {
    c == 'n' || c == 't' || c == 'f' || c == '"' || c == '[' || c == '{' || c == '-' || IsDigit(c)
  }

  /**
   * Text that is blank, or whose first non-blank character cannot open a JSON
   * value, makes `JSON.parse` throw, so it is stored verbatim as a string,
   * white space included.
   */
  lemma CoercePlainText(text: string)
    requires SkipWs(text) == [] || !OpensValue(SkipWs(text)[0])
    ensures Coerce(text) == Str(text)
  {
  }

  /**
   * What a few typed texts become: `true` a boolean, `null` null, and a bare
   * word a string, also one that starts like a keyword; blank text stays
   * blank text.
   */
  lemma CoerceWords()
    ensures Coerce(" true ") == Bool(true)
    ensures Coerce("null") == Null
    ensures Coerce("hello") == Str("hello")
    ensures Coerce("nope") == Str("nope")
    ensures Coerce(" ") == Str(" ")
  {
    assert "nope"[..4][2] != "null"[2];
  }

  /** Digits become a number. */
  lemma CoerceDigits()
    ensures Coerce("42") == Num(42)
  {
    FortyTwo("");
    assert "42" + "" == "42";
  }

  /**
   * Text that starts with a value's JSON text but goes on with more than
   * white space (`42 apples`, `true love`, `{} x`) makes `JSON.parse` throw,
   * so it is stored verbatim as a string.
   */
  lemma CoerceValueThenText(v: Value, rest: string)
    requires WellFormed(v) && Delimited(rest) && SkipWs(rest) != []
    ensures Coerce(Stringify(v) + rest) == Str(Stringify(v) + rest)
  {
    var text := Stringify(v) + rest;
    StringifyStart(v);
    ValueRoundTrip(v, rest);
    assert text[0] == Stringify(v)[0];
    assert SkipWs(text) == text;
  }

  lemma FortyTwo(rest: string)
    requires rest == [] || !IsDigit(rest[0])
    ensures ParseNumber("42" + rest) == Some((Num(42), rest))
  {
    var s := "42" + rest;
    assert DigitPrefix(s, 10) == 2 by {
      assert s[1..][1..] == rest;
    }
    assert RadixValue(s[..2], 10) == 42 by {
      assert s[..2] == "42" && "42"[..1] == "4" && "4"[..0] == [];
    }
    assert s[2..] == rest;
  }

  /** Typing a value's JSON text into a cell stores that value: `42` a number, `"x"` (quoted) a string, `true` a boolean. */
  lemma CoerceStringify(v: Value)
    requires WellFormed(v)
    ensures Coerce(Stringify(v)) == v
  {
    StringifyParse(v);
  }

  // ---------------------------------------------------------------- the write

  /**
   * A write to an object key or an array index of a node of the tree creates
   * or overwrites exactly that slot: reading it back gives the value, every
   * other key of an object and every other existing element of an array keep
   * theirs, the node stays at the same path, and every node at a path that
   * parts from that path keeps its value.
   */
  lemma WriteReadsBack(root: Value, t: Target, key: string, v: Value)
    requires t.At? && ValueAt(root, t.path).Some? && Addressable(NodeOf(root, t), key)
    ensures Write(root, t, key, v).Ok?
    ensures GetProp(NodeOf(Write(root, t, key, v).value, t), key) == Ok(Val(v))
    ensures forall other :: other != key && (NodeOf(root, t).v.Obj? || ChildStep(NodeOf(root, t).v, other).Some?) ==>
              GetProp(NodeOf(Write(root, t, key, v).value, t), other) == GetProp(NodeOf(root, t), other)
    ensures forall q :: Disjoint(t.path, q) ==> ValueAt(Write(root, t, key, v).value, q) == ValueAt(root, q)
  {
    var x := NodeOf(root, t);
    SetThenGet(x, key, v);
    var r := Write(root, t, key, v).value;
    forall q | Disjoint(t.path, q)
      ensures ValueAt(r, q) == ValueAt(root, q)
    {
      ReplaceAtFrame(root, t.path, SetProp(x, key, v).value, q);
    }
    assert NodeOf(r, t) == Val(SetProp(x, key, v).value);
    forall other | other != key && (x.v.Obj? || ChildStep(x.v, other).Some?)
      ensures GetProp(NodeOf(r, t), other) == GetProp(x, other)
    {
      SetLeavesOthers(x, key, other, v);
    }
  }

  /**
   * With an index and a key the write goes to `target[index][key]`: when the
   * row exists and can hold the key, the key of that row reads the value back.
   */
  lemma RowWriteReadsBack(root: Value, t: Target, index: string, key: string, v: Value)
    requires Located(root, t) && Member(root, t, index).Ok?
    requires Addressable(GetProp(NodeOf(root, t), index).value, key)
    ensures Apply(root, t, Some(index), Some(key), v).Ok?
    ensures var row := Member(root, t, index).value;
            GetProp(NodeOf(Apply(root, t, Some(index), Some(key), v).value, row), key) == Ok(Val(v))
  {
    var row := Member(root, t, index).value;
    MemberLocated(root, t, index);
    assert row.At?;
    WriteReadsBack(root, row, key, v);
  }

  /**
   * Editing a cell of the table the webview shows: for the key form, the
   * document edited through the path the webview sends holds the coerced text
   * at that key of the displayed node.
   */
  lemma EditLandsOnDisplayedNode(doc: string, root: Value, moves: seq<Move>, key: string, newValue: string)
    requires Parse(doc) == Some(root) && Consistent(Val(root), moves)
    requires ViewWalk(Val(root), moves).Ok? && Addressable(ViewWalk(Val(root), moves).value, key)
    ensures var path := ["root"] + Labels(moves);
            var t := WalkFrom(root, At([]), Labels(moves));
            t.Ok? && t.value.At? &&
            Edit(doc, path, None, Some(key), newValue).Ok? &&
            NodeOf(root, t.value) == ViewWalk(Val(root), moves).value &&
            GetProp(NodeOf(Edit(doc, path, None, Some(key), newValue).value, t.value), key) == Ok(Val(Coerce(newValue)))
  {
    var path := ["root"] + Labels(moves);
    assert NavPath(path) == Labels(moves);
    assert NodeOf(root, At([])) == Val(root);
    WalkFollowsView(root, At([]), moves);
    WalkDepth(root, At([]), Labels(moves));
    var t := WalkFrom(root, At([]), Labels(moves)).value;
    WriteReadsBack(root, t, key, Coerce(newValue));
  }

  /** A missing key on the way yields undefined, and the next segment throws: the document is left as it was. */
  lemma MissingKeyAborts(doc: string, root: Value, missing: string, next: string, rest: seq<string>,
                         index: Option<string>, key: Option<string>, newValue: string)
    requires Parse(doc) == Some(root) && root.Obj? && FindKey(root.fields, missing).None?
    ensures Edit(doc, ["root", missing, next] + rest, index, key, newValue) == Err(NullishAccess)
  {
    var path := ["root", missing, next] + rest;
    assert NavPath(path) == [missing, next] + rest;
    assert NodeOf(root, At([])) == Val(root);
    var segments := [missing, next] + rest;
    assert segments[0] == missing && segments[1..] == [next] + rest;
    assert ChildStep(root, missing).None?;
    assert Descend(root, At([]), missing) == Ok(Loose(Undefined));
    assert Descend(root, Loose(Undefined), next) == Err(NullishAccess);
    assert WalkFrom(root, Loose(Undefined), [next] + rest) == Err(NullishAccess);
  }
}
