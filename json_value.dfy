/**
 * The tree every part of the viewer works on — what `JSON.parse` returns —
 * and the few JavaScript operations the viewer applies to it: `typeof`-based
 * classification, property reads and writes (`x[k]`, `x[k] = v`),
 * `Object.keys`, object spread, `String(x)` and truthiness.
 */
module JsonValue {
  import opened Wrappers
  import opened Text

  /** A JSON value. Objects keep their keys in insertion order; numbers are integers here. */
  datatype Value =
    | Null
    | Bool(b: bool)
    | Num(n: int)
    | Str(s: string)
    | Obj(fields: seq<(string, Value)>)
    | Arr(items: seq<Value>)

  /** A JavaScript value as the viewer reads it: a JSON value, or `undefined` for a missing property. */
  datatype Js = Undefined | Val(v: Value)

  /** The exceptions the viewer's code can throw: TypeErrors, and the SyntaxError of `JSON.parse`. */
  datatype Fault =
    | NullishAccess    // reading or writing a property of null or undefined
    | PrimitiveWrite   // writing a property of a string, number or boolean (strict mode)
    | KeysOfNullish    // Object.keys(null)
    | NotCallable      // calling a method the value does not have
    | SyntaxError      // JSON.parse on text that is not JSON
    | InvalidLength    // RangeError: setting an array's length to a value that is not a valid length

  /** One step from a node to a child: an object field or an array element. */
  datatype Step = Field(key: string) | Elem(index: nat)

  // ---------------------------------------------------------------- classification

  /** JavaScript's `typeof` on the values the viewer meets. */
  function TypeOf(x: Js): string
  {
    match x
    case Undefined => "undefined"
    case Val(Null) => "object"
    case Val(Bool(_)) => "boolean"
    case Val(Num(_)) => "number"
    case Val(Str(_)) => "string"
    case Val(Obj(_)) => "object"
    case Val(Arr(_)) => "object"
  }

  predicate IsArray(x: Js) { x.Val? && x.v.Arr? }

  /** A non-null object or array: something `Object.keys` lists and a click drills into. */
  predicate IsComposite(x: Js) { x.Val? && (x.v.Obj? || x.v.Arr?) }

  /**
   * `isPrimitive`: null, or anything that is neither an object nor an array.
   * It holds exactly for null, undefined, booleans, numbers and strings.
   */
  function IsPrimitive(x: Js): (r: bool)
    ensures r <==> !IsComposite(x)
    ensures x.Val? && x.v.Obj? ==> !r
    ensures x.Val? && x.v.Arr? ==> !r
  {
    x == Val(Null) || (TypeOf(x) != "object" && !IsArray(x))
  }

  // ---------------------------------------------------------------- objects as ordered maps

  function Keys<V>(fields: seq<(string, V)>): (ks: seq<string>)
    ensures |ks| == |fields| && forall i :: 0 <= i < |fields| ==> ks[i] == fields[i].0
  {
    if fields == [] then [] else Keys(fields[..|fields| - 1]) + [fields[|fields| - 1].0]
  }

  predicate UniqueKeys<V>(fields: seq<(string, V)>)
  {
    forall i, j :: 0 <= i < j < |fields| ==> fields[i].0 != fields[j].0
  }

  /** Position of the entry named `key`, if there is one. */
  function FindKey<V>(fields: seq<(string, V)>, key: string): (r: Option<nat>)
    ensures r.Some? ==> r.value < |fields| && fields[r.value].0 == key
    ensures r.Some? ==> forall j :: 0 <= j < r.value ==> fields[j].0 != key
    ensures r.None? ==> forall j :: 0 <= j < |fields| ==> fields[j].0 != key
  {
    if fields == [] then None
    else if fields[0].0 == key then Some(0)
    else match FindKey(fields[1..], key)
      case None => None
      case Some(i) => Some(i + 1)
  }

  /** The entry named `key`, if there is one. */
  function Get<V>(fields: seq<(string, V)>, key: string): Option<V>
  {
    match FindKey(fields, key)
    case None => None
    case Some(i) => Some(fields[i].1)
  }

  /** `obj[key]` on an object's fields: the value, or undefined when the key is absent. */
  function Lookup(fields: seq<(string, Value)>, key: string): Js
  {
    match Get(fields, key)
    case None => Undefined
    case Some(v) => Val(v)
  }

  /** `obj[key] = x` on an object's entries: overwrite in place, or append a new key at the end. */
  function Put<V>(fields: seq<(string, V)>, key: string, x: V): (r: seq<(string, V)>)
    ensures Get(r, key) == Some(x)
    ensures forall k :: k != key ==> Get(r, k) == Get(fields, k)
  {
    match FindKey(fields, key)
    case Some(i) =>
      var r := fields[i := (key, x)];
      assert FindKey(r, key) == Some(i) by { FindKeyUnique(r, key, i); }
      forall k | k != key ensures Get(r, k) == Get(fields, k) { FindKeySameKeys(fields, r, k); }
      r
    case None =>
      var r := fields + [(key, x)];
      assert FindKey(r, key) == Some(|fields|) by { FindKeyUnique(r, key, |fields|); }
      forall k | k != key ensures Get(r, k) == Get(fields, k) { FindKeyAppend(fields, (key, x), k); }
      r
  }

  /** The value of the last entry named `key`, if there is one. */
  function LastGet<V>(entries: seq<(string, V)>, key: string): Option<V>
  {
    if entries == [] then None
    else if entries[|entries| - 1].0 == key then Some(entries[|entries| - 1].1)
    else LastGet(entries[..|entries| - 1], key)
  }

  /** Entries assigned one after another, as an object spread or `JSON.parse` does: the last assignment to a key wins. */
  function PutAll<V>(fields: seq<(string, V)>, entries: seq<(string, V)>): (r: seq<(string, V)>)
    ensures forall k :: Get(r, k) == if LastGet(entries, k).Some? then LastGet(entries, k) else Get(fields, k)
  {
    if entries == [] then fields
    else Put(PutAll(fields, entries[..|entries| - 1]), entries[|entries| - 1].0, entries[|entries| - 1].1)
  }

  /** Assigning a key keeps the key order and appends a new key at the end. */
  lemma PutKeys<V>(fields: seq<(string, V)>, key: string, x: V)
    ensures Keys(Put(fields, key, x)) == if FindKey(fields, key).Some? then Keys(fields) else Keys(fields) + [key]
  {
    var r := Put(fields, key, x);
    if FindKey(fields, key).None? {
      assert r == fields + [(key, x)];
      assert r[..|r| - 1] == fields;
    }
  }

  /** Assigning a key never makes two entries share a name. */
  lemma PutUnique<V>(fields: seq<(string, V)>, key: string, x: V)
    requires UniqueKeys(fields)
    ensures UniqueKeys(Put(fields, key, x))
  {
    var r := Put(fields, key, x);
    PutKeys(fields, key, x);
    forall i, j | 0 <= i < j < |r| ensures r[i].0 != r[j].0 {
      assert Keys(r)[i] == r[i].0 && Keys(r)[j] == r[j].0;
    }
  }

  lemma {:induction false} PutAllUnique<V>(fields: seq<(string, V)>, entries: seq<(string, V)>)
    requires UniqueKeys(fields)
    ensures UniqueKeys(PutAll(fields, entries))
    decreases |entries|
  {
    if entries != [] {
      var init := entries[..|entries| - 1];
      PutAllUnique(fields, init);
      PutUnique(PutAll(fields, init), entries[|entries| - 1].0, entries[|entries| - 1].1);
    }
  }

  /** With distinct keys the last entry for a key is the only one. */
  lemma {:induction false} LastGetUnique<V>(entries: seq<(string, V)>, key: string)
    requires UniqueKeys(entries)
    ensures LastGet(entries, key) == Get(entries, key)
    decreases |entries|
  {
    if entries != [] {
      var init := entries[..|entries| - 1];
      var last := entries[|entries| - 1];
      assert entries == init + [last];
      if last.0 == key {
        FindKeyUnique(entries, key, |entries| - 1);
      } else {
        LastGetUnique(init, key);
        FindKeyAppend(init, last, key);
      }
    }
  }

  lemma FindKeyUnique<V>(fields: seq<(string, V)>, key: string, i: nat)
    requires i < |fields| && fields[i].0 == key
    requires forall j :: 0 <= j < i ==> fields[j].0 != key
    ensures FindKey(fields, key) == Some(i)
  {
  }

  /** Two entry lists with the same keys at the same positions find every key at the same place. */
  lemma {:induction false} FindKeySameKeys<V>(a: seq<(string, V)>, b: seq<(string, V)>, k: string)
    requires |a| == |b| && forall j :: 0 <= j < |a| ==> a[j].0 == b[j].0
    requires forall j :: 0 <= j < |a| && a[j].0 == k ==> a[j] == b[j]
    ensures FindKey(a, k) == FindKey(b, k) && Get(a, k) == Get(b, k)
  {
    if a != [] && a[0].0 != k {
      FindKeySameKeys(a[1..], b[1..], k);
    }
  }

  lemma {:induction false} FindKeyAppend<V>(a: seq<(string, V)>, f: (string, V), k: string)
    requires f.0 != k
    ensures FindKey(a + [f], k) == FindKey(a, k) && Get(a + [f], k) == Get(a, k)
  {
    if a == [] {
    } else if a[0].0 != k {
      assert (a + [f])[1..] == a[1..] + [f];
      FindKeyAppend(a[1..], f, k);
    }
  }

  /** Every object in the tree has distinct keys, as `JSON.parse` guarantees. */
  predicate WellFormed(v: Value)
  {
    match v
    case Obj(fields) => UniqueKeys(fields) && forall i :: 0 <= i < |fields| ==> WellFormed(fields[i].1)
    case Arr(items) => forall i :: 0 <= i < |items| ==> WellFormed(items[i])
    case _ => true
  }

  // ---------------------------------------------------------------- property reads and writes

  /**
   * The child node `x[key]` denotes, when it denotes one: an existing field
   * of an object, or an element of an array named by a canonical index key.
   */
  function ChildStep(v: Value, key: string): Option<Step>
  {
    match v
    case Obj(fields) => if FindKey(fields, key).Some? then Some(Field(key)) else None
    case Arr(items) =>
      (match CanonicalIndex(key)
       case Some(i) => if i < |items| then Some(Elem(i)) else None
       case None => None)
    case _ => None
  }

  /** The child a step leads to, if it exists. */
  function Child(v: Value, st: Step): Option<Value>
  {
    match (v, st)
    case (Obj(fields), Field(k)) => if FindKey(fields, k).Some? then Some(Lookup(fields, k).v) else None
    case (Arr(items), Elem(i)) => if i < |items| then Some(items[i]) else None
    case _ => None
  }

  /**
   * `x[key]`. Null and undefined throw; objects give the field or undefined;
   * arrays and strings give an element or character for a canonical index key
   * and their length for `length`; numbers and booleans have no own properties.
   */
  function GetProp(x: Js, key: string): (r: Result<Js, Fault>)
    ensures r.Err? <==> (x == Undefined || x == Val(Null))
    ensures x.Val? && ChildStep(x.v, key).Some? ==>
              Child(x.v, ChildStep(x.v, key).value).Some? && r == Ok(Val(Child(x.v, ChildStep(x.v, key).value).value))
    ensures x.Val? && x.v.Obj? && ChildStep(x.v, key).None? ==> r == Ok(Undefined)
  {
    match x
    case Undefined => Err(NullishAccess)
    case Val(Null) => Err(NullishAccess)
    case Val(Obj(fields)) => Ok(Lookup(fields, key))
    case Val(Arr(items)) =>
      if key == "length" then Ok(Val(Num(|items|)))
      else (match CanonicalIndex(key)
        case Some(i) => if i < |items| then Ok(Val(items[i])) else Ok(Undefined)
        case None => Ok(Undefined))
    case Val(Str(s)) =>
      if key == "length" then Ok(Val(Num(|s|)))
      else (match CanonicalIndex(key)
        case Some(i) => if i < |s| then Ok(Val(Str([s[i]]))) else Ok(Undefined)
        case None => Ok(Undefined))
    case Val(_) => Ok(Undefined)
  }

  /** `n` nulls: the holes an out-of-range array write leaves, as `JSON.stringify` writes them. */
  function Nulls(n: nat): (r: seq<Value>)
    ensures |r| == n && forall i :: 0 <= i < n ==> r[i] == Null
  {
    if n == 0 then [] else Nulls(n - 1) + [Null]
  }

  /**
   * `ToNumber(y)` when it is a valid array length, a whole number from 0 to
   * 2^32 - 1; None when setting `length` to `y` throws a RangeError. Null and
   * false are 0, true is 1, a string is read as a number after trimming white
   * space (blank text is 0), an array through its `String` form, and an
   * object is NaN.
   */
  function ArrayLength(y: Value): (r: Option<nat>)
    ensures r.Some? ==> r.value <= MaxArrayLength
    ensures y.Num? ==> (r.Some? <==> 0 <= y.n <= MaxArrayLength) && (r.Some? ==> r.value == y.n)
    ensures y.Obj? ==> r.None?
  {
    match y
    case Null => Some(0)
    case Bool(b) => Some(if b then 1 else 0)
    case Num(n) => if 0 <= n <= MaxArrayLength then Some(n) else None
    case Str(s) => TextLength(s)
    case Obj(_) => None
    case Arr(items) => TextLength(JoinElements(items))
  }

  /** A text read as an array length: blank is 0, and decimal digits give their value when it is small enough. */
  function TextLength(s: string): (r: Option<nat>)
    ensures r.Some? ==> r.value <= MaxArrayLength
  {
    var t := TrimEnd(TrimStart(s));
    if t == [] then Some(0)
    else if AllDigits(t) then
      assert forall i :: 0 <= i < |t| ==> DigitValue(t[i], 10) < 10;
      var n := RadixValue(t, 10);
      if n <= MaxArrayLength then Some(n) else None
    else None
  }

  /** `arr.length = n`: the first `n` elements, padded with holes (null) when `n` is past the end. */
  function Resize(items: seq<Value>, n: nat): (r: seq<Value>)
    ensures |r| == n
    ensures forall i :: 0 <= i < n && i < |items| ==> r[i] == items[i]
    ensures forall i :: |items| <= i < n ==> r[i] == Null
  {
    if n <= |items| then items[..n] else items + Nulls(n - |items|)
  }

  /** The write `x[key] = y` throws a RangeError: `x` is an array and `y` is not a valid length. */
  predicate BadLength(x: Js, key: string, y: Value)
  {
    x.Val? && x.v.Arr? && key == "length" && ArrayLength(y).None?
  }

  /**
   * The node after `x[key] = y` (strict mode), as the tree reads once written
   * out as JSON: objects gain or overwrite the key; arrays set the element
   * named by a canonical index key, growing with holes (null) when it lies
   * past the end, and `length` truncates or pads them; any other key on an
   * array is a property JSON does not carry; a write to null or undefined, or
   * to a string, number or boolean, throws, and so does an invalid length.
   */
  function SetProp(x: Js, key: string, y: Value): (r: Result<Value, Fault>)
    ensures r.Ok? <==> IsComposite(x) && !BadLength(x, key, y)
    ensures x.Val? && x.v.Obj? ==> r == Ok(Obj(Put(x.v.fields, key, y)))
  {
    match x
    case Undefined => Err(NullishAccess)
    case Val(Null) => Err(NullishAccess)
    case Val(Obj(fields)) => Ok(Obj(Put(fields, key, y)))
    case Val(Arr(items)) =>
      if key == "length" then
        (match ArrayLength(y)
         case Some(n) => Ok(Arr(Resize(items, n)))
         case None => Err(InvalidLength))
      else
        (match CanonicalIndex(key)
         case Some(i) =>
           if i < |items| then Ok(Arr(items[i := y]))
           else Ok(Arr(items + Nulls(i - |items|) + [y]))
         case None => Ok(Arr(items)))
    case Val(_) => Err(PrimitiveWrite)
  }

  /**
   * Setting an array's `length` throws exactly on an invalid length;
   * otherwise the array keeps its first elements up to the new length, is
   * padded with holes past its old end, and reads back that length.
   */
  lemma LengthWrite(items: seq<Value>, y: Value)
    ensures SetProp(Val(Arr(items)), "length", y).Err? <==> ArrayLength(y).None?
    ensures SetProp(Val(Arr(items)), "length", y).Err? ==> SetProp(Val(Arr(items)), "length", y).error == InvalidLength
    ensures ArrayLength(y).Some? ==>
      var n := ArrayLength(y).value;
      var r := SetProp(Val(Arr(items)), "length", y).value;
      r.Arr? && |r.items| == n &&
      (forall i :: 0 <= i < n && i < |items| ==> r.items[i] == items[i]) &&
      (forall i :: |items| <= i < n ==> r.items[i] == Null) &&
      GetProp(Val(r), "length") == Ok(Val(Num(n)))
  {
    match ArrayLength(y)
    case None =>
      assert SetProp(Val(Arr(items)), "length", y) == Err(InvalidLength);
    case Some(n) =>
      var r := Arr(Resize(items, n));
      assert SetProp(Val(Arr(items)), "length", y) == Ok(r);
      assert GetProp(Val(r), "length") == Ok(Val(Num(n)));
  }

  /**
   * Editing the `length` cell of an array row: 1, true and null are valid
   * lengths and truncate `[1, 2, 3]`; -1, 2^32 and an object throw a RangeError.
   */
  lemma LengthCases()
    ensures SetProp(Val(Arr([Num(1), Num(2), Num(3)])), "length", Num(1)) == Ok(Arr([Num(1)]))
    ensures SetProp(Val(Arr([Num(1), Num(2), Num(3)])), "length", Bool(true)) == Ok(Arr([Num(1)]))
    ensures SetProp(Val(Arr([Num(1), Num(2), Num(3)])), "length", Null) == Ok(Arr([]))
    ensures SetProp(Val(Arr([Num(1)])), "length", Num(3)) == Ok(Arr([Num(1), Null, Null]))
    ensures SetProp(Val(Arr([Num(1)])), "length", Num(-1)) == Err(InvalidLength)
    ensures SetProp(Val(Arr([Num(1)])), "length", Num(MaxArrayLength + 1)) == Err(InvalidLength)
    ensures SetProp(Val(Arr([Num(1)])), "length", Obj([])) == Err(InvalidLength)
  {
    assert Resize([Num(1), Num(2), Num(3)], 1) == [Num(1)];
    assert Nulls(2) == [Null, Null] by { assert Nulls(1) == [Null]; }
    assert Resize([Num(1)], 3) == [Num(1), Null, Null];
  }

  /** Whether a property write lands on a slot that `x[key]` reads back. */
  predicate Addressable(x: Js, key: string)
  {
    x.Val? && (x.v.Obj? || (x.v.Arr? && CanonicalIndex(key).Some?))
  }

  /** A write to an object key or an array index is read back by the same property read. */
  lemma SetThenGet(x: Js, key: string, y: Value)
    requires Addressable(x, key)
    ensures SetProp(x, key, y).Ok?
    ensures GetProp(Val(SetProp(x, key, y).value), key) == Ok(Val(y))
  {
    if x.v.Arr? {
      ArraySetThenGet(x.v.items, key, y);
    } else {
      ObjectSetThenGet(x.v.fields, key, y);
    }
  }

  lemma ObjectSetThenGet(fields: seq<(string, Value)>, key: string, y: Value)
    ensures SetProp(Val(Obj(fields)), key, y) == Ok(Obj(Put(fields, key, y)))
    ensures GetProp(Val(Obj(Put(fields, key, y))), key) == Ok(Val(y))
  {
    var p := Put(fields, key, y);
    assert GetProp(Val(Obj(p)), key) == Ok(Lookup(p, key));
  }

  lemma ArraySetThenGet(items: seq<Value>, key: string, y: Value)
    requires CanonicalIndex(key).Some?
    ensures SetProp(Val(Arr(items)), key, y).Ok?
    ensures GetProp(Val(SetProp(Val(Arr(items)), key, y).value), key) == Ok(Val(y))
  {
    var i := CanonicalIndex(key).value;
    assert key != "length" by { assert IsDigit(key[0]); }
    var r := SetProp(Val(Arr(items)), key, y).value;
    assert r.Arr? && |r.items| > i && r.items[i] == y;
  }

  /** A write leaves every other key of an object and every other existing element of an array as it was. */
  lemma SetLeavesOthers(x: Js, key: string, other: string, y: Value)
    requires Addressable(x, key) && other != key
    ensures SetProp(x, key, y).Ok?
    ensures x.v.Obj? ==> GetProp(Val(SetProp(x, key, y).value), other) == GetProp(x, other)
    ensures x.v.Arr? && ChildStep(x.v, other).Some? ==>
              GetProp(Val(SetProp(x, key, y).value), other) == GetProp(x, other)
  {
    if x.v.Arr? {
      if ChildStep(x.v, other).Some? {
        ArraySetLeavesOthers(x.v.items, key, other, y);
      }
    } else {
      ObjectSetLeavesOthers(x.v.fields, key, other, y);
    }
  }

  lemma ObjectSetLeavesOthers(fields: seq<(string, Value)>, key: string, other: string, y: Value)
    requires other != key
    ensures SetProp(Val(Obj(fields)), key, y) == Ok(Obj(Put(fields, key, y)))
    ensures GetProp(Val(Obj(Put(fields, key, y))), other) == GetProp(Val(Obj(fields)), other)
  {
    var p := Put(fields, key, y);
    assert Get(p, other) == Get(fields, other);
    assert GetProp(Val(Obj(p)), other) == Ok(Lookup(p, other));
    assert GetProp(Val(Obj(fields)), other) == Ok(Lookup(fields, other));
  }

  lemma ArraySetLeavesOthers(items: seq<Value>, key: string, other: string, y: Value)
    requires CanonicalIndex(key).Some? && other != key
    requires CanonicalIndex(other).Some? && CanonicalIndex(other).value < |items|
    ensures SetProp(Val(Arr(items)), key, y).Ok?
    ensures GetProp(Val(SetProp(Val(Arr(items)), key, y).value), other) == Ok(Val(items[CanonicalIndex(other).value]))
  {
    var i := CanonicalIndex(key).value;
    var j := CanonicalIndex(other).value;
    assert i != j;
    assert other != "length" by { assert IsDigit(other[0]); }
    var r := SetProp(Val(Arr(items)), key, y).value;
    assert r.Arr? && |r.items| >= |items| && r.items[j] == items[j];
  }

  // ---------------------------------------------------------------- paths

  /** The node a sequence of steps leads to from `root`, if every step exists. */
  function ValueAt(root: Value, path: seq<Step>): Option<Value>
    decreases |path|
  {
    if path == [] then Some(root)
    else match Child(root, path[0])
      case None => None
      case Some(c) => ValueAt(c, path[1..])
  }

  /** Replace the child a step leads to. */
  function WithChild(v: Value, st: Step, c: Value): (r: Value)
    requires Child(v, st).Some?
    ensures Child(r, st) == Some(c)
    ensures v.Obj? ==> r.Obj? && Keys(r.fields) == Keys(v.fields)
    ensures v.Arr? ==> r.Arr? && |r.items| == |v.items|
  {
    match (v, st)
    case (Obj(fields), Field(k)) => Obj(Put(fields, k, c))
    case (Arr(items), Elem(i)) => Arr(items[i := c])
  }

  /** `root` with the node at `path` replaced by `x`: an in-place update seen from the root. */
  function ReplaceAt(root: Value, path: seq<Step>, x: Value): (r: Value)
    requires ValueAt(root, path).Some?
    ensures ValueAt(r, path) == Some(x)
    decreases |path|
  {
    if path == [] then x
    else
      var c := Child(root, path[0]).value;
      var r := WithChild(root, path[0], ReplaceAt(c, path[1..], x));
      assert Child(r, path[0]) == Some(ReplaceAt(c, path[1..], x));
      r
  }

  /** Two paths that part somewhere: neither leads through the node the other reaches. */
  predicate Disjoint(p: seq<Step>, q: seq<Step>)
    decreases |p|
  {
    p != [] && q != [] && (p[0] != q[0] || Disjoint(p[1..], q[1..]))
  }

  /** Replacing one child leaves every other child as it was. */
  lemma WithChildFrame(v: Value, st: Step, c: Value, other: Step)
    requires Child(v, st).Some? && other != st
    ensures Child(WithChild(v, st, c), other) == Child(v, other)
  {
    if v.Obj? && other.Field? {
      assert Get(Put(v.fields, st.key, c), other.key) == Get(v.fields, other.key);
    }
  }

  /**
   * Replacing the node at one path leaves the node at every path that parts
   * from it as it was: an in-place update touches nothing outside the
   * updated node and the nodes on the way to it.
   */
  lemma {:induction false} ReplaceAtFrame(root: Value, p: seq<Step>, x: Value, q: seq<Step>)
    requires ValueAt(root, p).Some? && Disjoint(p, q)
    ensures ValueAt(ReplaceAt(root, p, x), q) == ValueAt(root, q)
    decreases |p|
  {
    var c := Child(root, p[0]).value;
    var inner := ReplaceAt(c, p[1..], x);
    if p[0] != q[0] {
      WithChildFrame(root, p[0], inner, q[0]);
    } else {
      ReplaceAtFrame(c, p[1..], x, q[1..]);
    }
  }

  /** Appending a step to a path descends one level further. */
  lemma {:induction false} ValueAtSnoc(root: Value, path: seq<Step>, st: Step)
    requires ValueAt(root, path).Some?
    ensures ValueAt(root, path + [st]) == Child(ValueAt(root, path).value, st)
    decreases |path|
  {
    if path != [] {
      var c := Child(root, path[0]).value;
      assert (path + [st])[1..] == path[1..] + [st];
      ValueAtSnoc(c, path[1..], st);
    }
  }

  // ---------------------------------------------------------------- keys, spread, String()

  /** `Object.keys(x)`: own enumerable keys; index keys for arrays and strings; throws on null/undefined. */
  function ObjectKeys(x: Js): (r: Result<seq<string>, Fault>)
    ensures r.Err? <==> (x == Undefined || x == Val(Null))
    ensures x.Val? && x.v.Obj? ==> r == Ok(Keys(x.v.fields))
  {
    match x
    case Undefined => Err(KeysOfNullish)
    case Val(Null) => Err(KeysOfNullish)
    case Val(Obj(fields)) => Ok(Keys(fields))
    case Val(Arr(items)) => Ok(IndexKeys(|items|))
    case Val(Str(s)) => Ok(IndexKeys(|s|))
    case Val(_) => Ok([])
  }

  /**
   * `Object.keys` of an object or array lists exactly the keys through which
   * a property read finds an own child (for an array, one no longer than
   * JavaScript allows), and each such read gives that child.
   */
  lemma ObjectKeysListChildren(x: Js)
    requires x.Val? && (x.v.Obj? || (x.v.Arr? && |x.v.items| <= MaxArrayLength))
    ensures ObjectKeys(x).Ok?
    ensures forall k :: k in ObjectKeys(x).value <==> ChildStep(x.v, k).Some?
    ensures forall k :: k in ObjectKeys(x).value ==>
              GetProp(x, k) == Ok(Val(Child(x.v, ChildStep(x.v, k).value).value))
  {
    if x.v.Arr? {
      var n := |x.v.items|;
      forall k ensures k in IndexKeys(n) <==> ChildStep(x.v, k).Some?
      {
        if k in IndexKeys(n) {
          var i :| 0 <= i < n && IndexKeys(n)[i] == k;
          IndexKeyRoundTrip(i);
        }
        if ChildStep(x.v, k).Some? {
          var i := CanonicalIndex(k).value;
          assert IndexKeys(n)[i] == k;
        }
      }
    } else {
      forall k ensures k in Keys(x.v.fields) <==> ChildStep(x.v, k).Some?
      {
        if k in Keys(x.v.fields) {
          var i :| 0 <= i < |x.v.fields| && Keys(x.v.fields)[i] == k;
          assert x.v.fields[i].0 == k;
        }
      }
    }
  }

  /** "0", "1", ..., the index keys of an array or string of length `n`. */
  function IndexKeys(n: nat): (r: seq<string>)
    ensures |r| == n && forall i :: 0 <= i < n ==> r[i] == NatToDecimal(i)
  {
    if n == 0 then [] else IndexKeys(n - 1) + [NatToDecimal(n - 1)]
  }

  /** The key/value pairs `{...x}` copies: own enumerable properties; nothing for null and primitives. */
  function SpreadEntries(x: Js): (r: seq<(string, Value)>)
    ensures ObjectKeys(x).Ok? ==> Keys(r) == ObjectKeys(x).value
    ensures x.Val? && x.v.Obj? ==> r == x.v.fields
  {
    match x
    case Val(Obj(fields)) => fields
    case Val(Arr(items)) => seq(|items|, i requires 0 <= i < |items| => (NatToDecimal(i), items[i]))
    case Val(Str(s)) => seq(|s|, i requires 0 <= i < |s| => (NatToDecimal(i), Str([s[i]])))
    case _ => []
  }

  /** `String(x)` on the values the viewer stringifies. */
  function ToJsString(x: Js): string
  {
    match x
    case Undefined => "undefined"
    case Val(v) => ValueToString(v)
  }

  /** `String(v)`: arrays join their elements with commas, null elements giving empty text. */
  function ValueToString(v: Value): string
  {
    match v
    case Null => "null"
    case Bool(b) => if b then "true" else "false"
    case Num(n) => IntToDecimal(n)
    case Str(s) => s
    case Obj(_) => "[object Object]"
    case Arr(items) => JoinElements(items)
  }

  /** `Array.prototype.join(",")` as `String(array)` applies it; null elements give empty text. */
  function JoinElements(items: seq<Value>): string
  {
    if items == [] then ""
    else
      var first := if items[0] == Null then "" else ValueToString(items[0]);
      if |items| == 1 then first else first + "," + JoinElements(items[1..])
  }

  /** JavaScript truthiness: false, 0, "", null and undefined are falsy; objects and arrays are truthy. */
  function Truthy(x: Js): (r: bool)
    ensures IsComposite(x) ==> r
    ensures x == Undefined || x == Val(Null) ==> !r
  {
    match x
    case Undefined => false
    case Val(Null) => false
    case Val(Bool(b)) => b
    case Val(Num(n)) => n != 0
    case Val(Str(s)) => s != ""
    case Val(_) => true
  }
}
