/**
 * JSON text: `JSON.stringify(v)` without indentation (how CSV export inlines
 * nested values) and `JSON.parse` restricted to the values this model has
 * (integers for numbers), which the edit handler uses to coerce typed text and
 * the view uses to reload a changed document. `Parse` reads back every text
 * `Stringify` writes.
 */
module JsonText {
  import opened Wrappers
  import opened Text
  import opened JsonValue

  // ---------------------------------------------------------------- JSON.stringify

  function HexDigit(d: nat): (c: char)
    requires d < 16
    ensures DigitValue(c, 16) == d
  {
    if d < 10 then DigitChar(d) else ('a' as int + d - 10) as char
  }

  /** How `JSON.stringify` writes one character inside a string literal. */
  function EscapeChar(c: char): (r: string)
    ensures |r| >= 1
  {
    if c == '"' then "\\\""
    else if c == '\\' then "\\\\"
    else if c == '\U{8}' then "\\b"
    else if c == '\U{C}' then "\\f"
    else if c == '\n' then "\\n"
    else if c == '\r' then "\\r"
    else if c == '\t' then "\\t"
    else if c < ' ' then "\\u00" + [HexDigit(c as int / 16), HexDigit(c as int % 16)]
    else [c]
  }

  function EscapeText(s: string): string
  {
    if s == [] then "" else EscapeChar(s[0]) + EscapeText(s[1..])
  }

  /** A string as a JSON string literal. */
  function Quote(s: string): string
  {
    "\"" + EscapeText(s) + "\""
  }

  /** `JSON.stringify(v)`: compact JSON text, object keys in their order. */
  function Stringify(v: Value): (r: string)
    ensures |r| >= 1
  {
    match v
    case Null => "null"
    case Bool(b) => if b then "true" else "false"
    case Num(n) => IntToDecimal(n)
    case Str(s) => Quote(s)
    case Obj(fields) => "{" + MembersText(fields) + "}"
    case Arr(items) => "[" + ItemsText(items) + "]"
  }

  function ItemsText(items: seq<Value>): string
  {
    if items == [] then ""
    else if |items| == 1 then Stringify(items[0])
    else Stringify(items[0]) + "," + ItemsText(items[1..])
  }

  function MembersText(fields: seq<(string, Value)>): string
  {
    if fields == [] then ""
    else
      assert fields[0] in fields && fields[0].1 < fields[0];
      var member := Quote(fields[0].0) + ":" + Stringify(fields[0].1);
      if |fields| == 1 then member else member + "," + MembersText(fields[1..])
  }

  // ---------------------------------------------------------------- JSON.parse

  predicate IsJsonWs(c: char) { c == ' ' || c == '\t' || c == '\n' || c == '\r' }

  function SkipWs(s: string): (r: string)
    ensures |r| <= |s|
    ensures r == [] || !IsJsonWs(r[0])
  {
    if s != [] && IsJsonWs(s[0]) then SkipWs(s[1..]) else s
  }

  /** The four hex digits of a `\u` escape, as a character (surrogate halves are outside the model). */
  function HexEscape(s: string): (r: Option<char>)
  {
    if |s| >= 4 && forall i :: 0 <= i < 4 ==> DigitValue(s[i], 16) < 16 then
      var n := RadixValue(s[..4], 16);
      if n < 0xD800 || 0xE000 <= n < 0x110000 then Some(n as char) else None
    else None
  }

  /** The character an escape sequence denotes and its length after the backslash. */
  function DecodeEscape(s: string): (r: Option<(char, nat)>)
    ensures r.Some? ==> 1 <= r.value.1 <= |s|
  {
    if s == [] then None
    else if s[0] == '"' then Some(('"', 1))
    else if s[0] == '\\' then Some(('\\', 1))
    else if s[0] == '/' then Some(('/', 1))
    else if s[0] == 'b' then Some(('\U{8}', 1))
    else if s[0] == 'f' then Some(('\U{C}', 1))
    else if s[0] == 'n' then Some(('\n', 1))
    else if s[0] == 'r' then Some(('\r', 1))
    else if s[0] == 't' then Some(('\t', 1))
    else if s[0] == 'u' then
      (match HexEscape(s[1..])
       case Some(c) => Some((c, 5))
       case None => None)
    else None
  }

  /** The body of a string literal after its opening quote: the text, and what follows the closing quote. */
  function ParseChars(s: string): (r: Option<(string, string)>)
    ensures r.Some? ==> |r.value.1| < |s|
    decreases |s|
  {
    if s == [] then None
    else if s[0] == '"' then Some(("", s[1..]))
    else if s[0] < ' ' then None
    else if s[0] == '\\' then
      match DecodeEscape(s[1..])
      case None => None
      case Some((c, k)) =>
        (match ParseChars(s[1 + k..])
         case None => None
         case Some((t, rest)) => Some(([c] + t, rest)))
    else
      match ParseChars(s[1..])
      case None => None
      case Some((t, rest)) => Some(([s[0]] + t, rest))
  }

  /** An integer literal: optional minus, then `0` or a digit run not starting with `0`. */
  function ParseNumber(s: string): (r: Option<(Value, string)>)
    ensures r.Some? ==> |r.value.1| < |s|
  {
    var negative := s != [] && s[0] == '-';
    var u := if negative then s[1..] else s;
    if u == [] || !IsDigit(u[0]) then None
    else
      var n := if u[0] == '0' then 1 else DigitPrefix(u, 10);
      var m: int := RadixValue(u[..n], 10);
      Some((Num(if negative then -m else m), u[n..]))
  }

  function Keyword(s: string, word: string, v: Value): (r: Option<(Value, string)>)
    requires |word| >= 1
    ensures r.Some? ==> |r.value.1| < |s|
  {
    if IsPrefix(word, s) then Some((v, s[|word|..])) else None
  }

  /** One value at the start of `s` (no leading white space), and the text after it. */
  function ParseValue(s: string): (r: Option<(Value, string)>)
    ensures r.Some? ==> |r.value.1| < |s|
    decreases |s|, 1
  {
    if s == [] then None
    else if s[0] == 'n' then Keyword(s, "null", Null)
    else if s[0] == 't' then Keyword(s, "true", Bool(true))
    else if s[0] == 'f' then Keyword(s, "false", Bool(false))
    else if s[0] == '"' then
      (match ParseChars(s[1..])
       case None => None
       case Some((t, rest)) => Some((Str(t), rest)))
    else if s[0] == '[' then ParseArray(s[1..])
    else if s[0] == '{' then ParseObject(s[1..])
    else ParseNumber(s)
  }

  /** An array after its `[`. */
  function ParseArray(s: string): (r: Option<(Value, string)>)
    ensures r.Some? ==> |r.value.1| < |s|
    decreases |s|, 3
  {
    var t := SkipWs(s);
    if t != [] && t[0] == ']' then Some((Arr([]), t[1..]))
    else
      match ParseItems(t)
      case None => None
      case Some((items, rest)) => Some((Arr(items), rest))
  }

  /** Elements separated by commas up to and including the closing `]`. */
  function ParseItems(s: string): (r: Option<(seq<Value>, string)>)
    ensures r.Some? ==> |r.value.1| < |s|
    decreases |s|, 2
  {
    match ParseValue(SkipWs(s))
    case None => None
    case Some((v, rest)) =>
      var t := SkipWs(rest);
      if t == [] then None
      else if t[0] == ']' then Some(([v], t[1..]))
      else if t[0] == ',' then
        (match ParseItems(t[1..])
         case None => None
         case Some((vs, r)) => Some(([v] + vs, r)))
      else None
  }

  /** An object after its `{`; a repeated key keeps its first position and takes the last value. */
  function ParseObject(s: string): (r: Option<(Value, string)>)
    ensures r.Some? ==> |r.value.1| < |s|
    decreases |s|, 3
  {
    var t := SkipWs(s);
    if t != [] && t[0] == '}' then Some((Obj([]), t[1..]))
    else
      match ParseMembers(t)
      case None => None
      case Some((pairs, rest)) => Some((Obj(PutAll([], pairs)), rest))
  }

  /** One `"key": value` pair at the start of `s`, and the text after the value. */
  function ParseMember(s: string): (r: Option<((string, Value), string)>)
    ensures r.Some? ==> |r.value.1| < |s|
    decreases |s|, 0
  {
    if s == [] || s[0] != '"' then None
    else
      match ParseChars(s[1..])
      case None => None
      case Some((key, r1)) =>
        var r2 := SkipWs(r1);
        if r2 == [] || r2[0] != ':' then None
        else
          match ParseValue(SkipWs(r2[1..]))
          case None => None
          case Some((v, r3)) => Some(((key, v), r3))
  }

  /** `"key": value` pairs separated by commas up to and including the closing `}`. */
  function ParseMembers(s: string): (r: Option<(seq<(string, Value)>, string)>)
    ensures r.Some? ==> |r.value.1| < |s|
    decreases |s|, 2
  {
    match ParseMember(SkipWs(s))
    case None => None
    case Some((member, rest)) =>
      var t := SkipWs(rest);
      if t == [] then None
      else if t[0] == '}' then Some(([member], t[1..]))
      else if t[0] == ',' then
        (match ParseMembers(t[1..])
         case None => None
         case Some((more, r)) => Some(([member] + more, r)))
      else None
  }

  /**
   * `JSON.parse(text)` on the integer-number subset of JSON: one value, with
   * white space around it and nothing else; None where `JSON.parse` throws
   * (and also for fractions, exponents and surrogate escapes, which the model has no value for).
   */
  function Parse(text: string): (r: Option<Value>)
  {
    match ParseValue(SkipWs(text))
    case None => None
    case Some((v, rest)) => if SkipWs(rest) == [] then Some(v) else None
  }

  // ---------------------------------------------------------------- round trip

  /** Text `JSON.stringify` writes starts with no white space and with no closing bracket. */
  lemma StringifyStart(v: Value)
    ensures !IsJsonWs(Stringify(v)[0]) && Stringify(v)[0] != ']' && Stringify(v)[0] != '}'
  {
    match v
    case Num(n) =>
      if n >= 0 { assert IsDigit(Stringify(v)[0]); }
    case _ =>
  }

  lemma SkipWsNone(s: string)
    requires s == [] || !IsJsonWs(s[0])
    ensures SkipWs(s) == s
  {
  }

  /** Pairs whose keys are distinct are assigned into a fresh object unchanged. */
  lemma {:induction false} RebuildUnique(pairs: seq<(string, Value)>)
    requires UniqueKeys(pairs)
    ensures PutAll([], pairs) == pairs
    decreases |pairs|
  {
    if pairs != [] {
      var init := pairs[..|pairs| - 1];
      var last := pairs[|pairs| - 1];
      RebuildUnique(init);
      assert FindKey(init, last.0).None?;
      assert pairs == init + [last];
    }
  }

  lemma {:induction false} EscapeCharRoundTrip(c: char, rest: string)
    ensures ParseChars(EscapeChar(c) + rest) == (match ParseChars(rest) case None => None case Some((t, r)) => Some(([c] + t, r)))
  {
    var e := EscapeChar(c);
    if c == '"' || c == '\\' || c == '\U{8}' || c == '\U{C}' || c == '\n' || c == '\r' || c == '\t' {
      assert (e + rest)[0] == '\\' && (e + rest)[2..] == rest;
      assert DecodeEscape((e + rest)[1..]) == Some((c, 1));
    } else if c < ' ' {
      UnicodeEscapeRoundTrip(c, rest);
    } else {
      assert (e + rest)[1..] == rest;
    }
  }

  lemma UnicodeEscapeRoundTrip(c: char, rest: string)
    requires c < ' ' && c != '\U{8}' && c != '\U{C}' && c != '\n' && c != '\r' && c != '\t'
    ensures ParseChars(EscapeChar(c) + rest) == (match ParseChars(rest) case None => None case Some((t, r)) => Some(([c] + t, r)))
  {
    var digits := ['0', '0', HexDigit(c as int / 16), HexDigit(c as int % 16)];
    var e := EscapeChar(c);
    assert e == ['\\', 'u'] + digits;
    var s := e + rest;
    EscapeShape(e, digits, rest);
    HexEscapeOf(c, rest);
    assert DecodeEscape(s[1..]) == Some((c, 5));
    ParseCharsEscape(s);
  }

  lemma EscapeShape(e: string, digits: string, rest: string)
    requires e == ['\\', 'u'] + digits && |digits| == 4
    ensures |e + rest| >= 6 && (e + rest)[0] == '\\' && (e + rest)[1] == 'u'
    ensures (e + rest)[2..] == digits + rest && (e + rest)[1..][1..] == digits + rest
    ensures (e + rest)[6..] == rest
  {
  }

  lemma HexEscapeOf(c: char, rest: string)
    requires c < ' '
    ensures HexEscape(['0', '0', HexDigit(c as int / 16), HexDigit(c as int % 16)] + rest) == Some(c)
  {
    var hi := HexDigit(c as int / 16);
    var lo := HexDigit(c as int % 16);
    var digits := ['0', '0', hi, lo];
    assert (digits + rest)[..4] == digits;
    assert digits[..3] == ['0', '0', hi];
    assert ['0', '0', hi][..2] == ['0', '0'];
    assert ['0', '0'][..1] == ['0'];
    assert RadixValue(['0'], 16) == 0;
    assert RadixValue(['0', '0'], 16) == 0;
    assert RadixValue(['0', '0', hi], 16) == c as int / 16;
    assert RadixValue(digits, 16) == c as int;
  }

  lemma ParseCharsEscape(s: string)
    requires |s| >= 2 && s[0] == '\\' && DecodeEscape(s[1..]).Some?
    ensures ParseChars(s) ==
      (var (c, k) := DecodeEscape(s[1..]).value;
       match ParseChars(s[1 + k..]) case None => None case Some((t, rest)) => Some(([c] + t, rest)))
  {
  }

  lemma {:induction false} EscapeTextRoundTrip(s: string, rest: string)
    ensures ParseChars(EscapeText(s) + "\"" + rest) == Some((s, rest))
    decreases |s|
  {
    if s == [] {
      assert EscapeText(s) + "\"" + rest == "\"" + rest;
    } else {
      var tail := EscapeText(s[1..]) + "\"" + rest;
      assert EscapeText(s) + "\"" + rest == EscapeChar(s[0]) + tail;
      EscapeCharRoundTrip(s[0], tail);
      EscapeTextRoundTrip(s[1..], rest);
      assert [s[0]] + s[1..] == s;
    }
  }

  lemma ParseValueOpen(s: string)
    requires s != []
    ensures s[0] == '[' ==> ParseValue(s) == ParseArray(s[1..])
    ensures s[0] == '{' ==> ParseValue(s) == ParseObject(s[1..])
    ensures s[0] == '"' ==> ParseValue(s) == (match ParseChars(s[1..]) case None => None case Some((t, rest)) => Some((Str(t), rest)))
  {
  }

  /** Text that cannot continue a number. */
  predicate Delimited(rest: string) { rest == [] || !IsDigit(rest[0]) }

  lemma NumberRoundTrip(n: int, rest: string)
    requires Delimited(rest)
    ensures ParseNumber(IntToDecimal(n) + rest) == Some((Num(n), rest))
  {
    var m: nat := if n < 0 then -n else n;
    var u := NatToDecimal(m) + rest;
    MagnitudeRoundTrip(m, rest);
    if n < 0 {
      var s := "-" + u;
      assert IntToDecimal(n) + rest == s by { AppendAssoc("-", NatToDecimal(m), rest); }
      assert s[0] == '-' && s[1..] == u;
    } else {
      assert IntToDecimal(n) + rest == u;
    }
  }

  /** The digits of `m` followed by text that cannot continue them: the digit run ParseNumber reads, and its value. */
  lemma MagnitudeRoundTrip(m: nat, rest: string)
    requires Delimited(rest)
    ensures var d := NatToDecimal(m);
      var u := d + rest;
      u != [] && IsDigit(u[0]) && u[0] != '-' &&
      (if u[0] == '0' then 1 else DigitPrefix(u, 10)) == |d| &&
      u[..|d|] == d && u[|d|..] == rest &&
      (forall i :: 0 <= i < |d| ==> DigitValue(d[i], 10) < 10) && RadixValue(d, 10) == m
  {
    var d := NatToDecimal(m);
    var u := d + rest;
    DecimalRoundTrip(m);
    assert u[0] == d[0];
    assert u[..|d|] == d && u[|d|..] == rest;
    if d[0] != '0' {
      DigitPrefixOfDigits(d, rest);
    }
  }

  lemma {:induction false} DigitPrefixOfDigits(d: string, rest: string)
    requires AllDigits(d) && Delimited(rest)
    ensures DigitPrefix(d + rest, 10) == |d|
    decreases |d|
  {
    if d != [] {
      assert (d + rest)[1..] == d[1..] + rest;
      DigitPrefixOfDigits(d[1..], rest);
    } else {
      assert d + rest == rest;
    }
  }

  /** `JSON.parse` reads back what `JSON.stringify` writes, up to the text that follows. */
  lemma {:induction false} ValueRoundTrip(v: Value, rest: string)
    requires WellFormed(v) && Delimited(rest)
    ensures ParseValue(Stringify(v) + rest) == Some((v, rest))
    decreases v, 2
  {
    match v
    case Null => KeywordRoundTrip(v, rest);
    case Bool(_) => KeywordRoundTrip(v, rest);
    case Num(n) => NumberValueRoundTrip(n, rest);
    case Str(t) => StringValueRoundTrip(t, rest);
    case Arr(items) => ArrayRoundTrip(items, rest);
    case Obj(fields) => ObjectRoundTrip(fields, rest);
  }

  lemma KeywordRoundTrip(v: Value, rest: string)
    requires v.Null? || v.Bool?
    ensures ParseValue(Stringify(v) + rest) == Some((v, rest))
  {
    var s := Stringify(v) + rest;
    if v.Null? {
      assert s[..4] == "null" && s[4..] == rest;
    } else if v.b {
      assert s[..4] == "true" && s[4..] == rest;
    } else {
      assert s[..5] == "false" && s[5..] == rest;
    }
  }

  lemma NumberValueRoundTrip(n: int, rest: string)
    requires Delimited(rest)
    ensures ParseValue(Stringify(Num(n)) + rest) == Some((Num(n), rest))
  {
    var s := Stringify(Num(n)) + rest;
    NumberRoundTrip(n, rest);
    if n >= 0 { assert IsDigit(s[0]); } else { assert s[0] == '-'; }
  }

  lemma StringValueRoundTrip(t: string, rest: string)
    ensures ParseValue(Stringify(Str(t)) + rest) == Some((Str(t), rest))
  {
    var s := Stringify(Str(t)) + rest;
    OpenThen('"', EscapeText(t), '"', rest);
    assert s[0] == '"' && s[1..] == EscapeText(t) + "\"" + rest;
    EscapeTextRoundTrip(t, rest);
    ParseValueOpen(s);
  }

  lemma {:induction false} ArrayRoundTrip(items: seq<Value>, rest: string)
    requires WellFormed(Arr(items)) && Delimited(rest)
    ensures ParseValue(Stringify(Arr(items)) + rest) == Some((Arr(items), rest))
    decreases items, 1
  {
    var s := Stringify(Arr(items)) + rest;
    var body := ItemsText(items) + "]" + rest;
    OpenThen('[', ItemsText(items), ']', rest);
    assert s[0] == '[' && s[1..] == body;
    ParseValueOpen(s);
    if items == [] {
      assert body == "]" + rest;
      assert SkipWs(body) == body;
    } else {
      ItemsRoundTrip(items, rest);
      ItemsTextStart(items, "]" + rest);
      ParseArrayItems(body);
    }
  }

  /** The text of a non-empty element list starts with its first element's text. */
  lemma ItemsTextStart(items: seq<Value>, rest: string)
    requires items != []
    ensures (ItemsText(items) + rest)[0] == Stringify(items[0])[0] != ']'
  {
    StringifyStart(items[0]);
    if |items| > 1 {
      AppendAssoc(Stringify(items[0]), ",", ItemsText(items[1..]));
    }
  }

  lemma ParseArrayItems(s: string)
    requires SkipWs(s) == s && (s == [] || s[0] != ']')
    ensures ParseArray(s) == (match ParseItems(s) case None => None case Some((items, rest)) => Some((Arr(items), rest)))
  {
  }

  lemma {:induction false} ObjectRoundTrip(fields: seq<(string, Value)>, rest: string)
    requires WellFormed(Obj(fields)) && Delimited(rest)
    ensures ParseValue(Stringify(Obj(fields)) + rest) == Some((Obj(fields), rest))
    decreases fields, 2
  {
    var body := MembersText(fields) + "}" + rest;
    var s := Stringify(Obj(fields)) + rest;
    OpenThen('{', MembersText(fields), '}', rest);
    assert s[0] == '{' && s[1..] == body;
    ParseValueOpen(s);
    if fields == [] {
      assert body == "}" + rest;
    } else {
      MembersRoundTrip(fields, rest);
      MembersTextFirst(fields, rest);
      assert body[0] == '"';
      ParseObjectMembers(body);
      RebuildUnique(fields);
    }
  }

  /** A bracketed text followed by more text, seen from after the opening bracket. */
  lemma OpenThen(open: char, inner: string, close: char, rest: string)
    ensures var s := [open] + inner + [close] + rest;
      s[0] == open && s[1..] == inner + [close] + rest
  {
    var s := [open] + inner + [close] + rest;
    AppendAssoc([open] + inner, [close], rest);
    AppendAssoc([open], inner, [close] + rest);
    AppendAssoc(inner, [close], rest);
  }

  lemma ParseObjectMembers(s: string)
    requires SkipWs(s) == s && (s == [] || s[0] != '}')
    ensures ParseObject(s) == (match ParseMembers(s) case None => None case Some((pairs, rest)) => Some((Obj(PutAll([], pairs)), rest)))
  {
  }

  lemma {:induction false} ItemsRoundTrip(items: seq<Value>, rest: string)
    requires items != [] && forall i :: 0 <= i < |items| ==> WellFormed(items[i])
    ensures SkipWs(ItemsText(items) + "]" + rest) == ItemsText(items) + "]" + rest
    ensures ParseItems(ItemsText(items) + "]" + rest) == Some((items, rest))
    decreases items, 0
  {
    var s := ItemsText(items) + "]" + rest;
    StringifyStart(items[0]);
    if |items| == 1 {
      assert s == Stringify(items[0]) + ("]" + rest);
      ValueRoundTrip(items[0], "]" + rest);
      assert SkipWs("]" + rest) == "]" + rest;
      assert [items[0]] == items;
    } else {
      var tail := ItemsText(items[1..]) + "]" + rest;
      assert s == Stringify(items[0]) + ("," + tail);
      ValueRoundTrip(items[0], "," + tail);
      assert SkipWs("," + tail) == "," + tail;
      ItemsRoundTrip(items[1..], rest);
      assert ("," + tail)[1..] == tail;
      assert [items[0]] + items[1..] == items;
    }
  }

  lemma {:induction false} MembersRoundTrip(fields: seq<(string, Value)>, rest: string)
    requires fields != [] && forall i :: 0 <= i < |fields| ==> WellFormed(fields[i].1)
    ensures SkipWs(MembersText(fields) + "}" + rest) == MembersText(fields) + "}" + rest
    ensures ParseMembers(MembersText(fields) + "}" + rest) == Some((fields, rest))
    decreases fields, 1
  {
    if |fields| == 1 {
      LastMember(fields, rest);
    } else {
      var others := fields[1..];
      MembersFirst(fields, rest);
      assert forall i :: 0 <= i < |others| ==> WellFormed(others[i].1) by {
        forall i | 0 <= i < |others| ensures WellFormed(others[i].1) { assert others[i] == fields[i + 1]; }
      }
      MembersRoundTrip(others, rest);
      assert [fields[0]] + others == fields;
    }
  }

  lemma LastMember(fields: seq<(string, Value)>, rest: string)
    requires |fields| == 1 && WellFormed(fields[0].1)
    ensures SkipWs(MembersText(fields) + "}" + rest) == MembersText(fields) + "}" + rest
    ensures ParseMembers(MembersText(fields) + "}" + rest) == Some((fields, rest))
    decreases fields, 0
  {
    assert fields[0] in fields && fields[0].1 < fields[0];
    var key := fields[0].0;
    var v := fields[0].1;
    var s := MembersText(fields) + "}" + rest;
    MembersTextFirst(fields, rest);
    var after := "}" + rest;
    assert s == Quote(key) + ":" + Stringify(v) + after;
    FirstMember(s, key, v, after);
    assert after[1..] == rest;
    assert [(key, v)] == fields;
  }

  lemma MembersFirst(fields: seq<(string, Value)>, rest: string)
    requires |fields| > 1 && WellFormed(fields[0].1)
    ensures SkipWs(MembersText(fields) + "}" + rest) == MembersText(fields) + "}" + rest
    ensures ParseMembers(MembersText(fields) + "}" + rest)
         == (match ParseMembers(MembersText(fields[1..]) + "}" + rest)
             case None => None case Some((more, r)) => Some(([fields[0]] + more, r)))
    decreases fields, 0
  {
    assert fields[0] in fields && fields[0].1 < fields[0];
    var key := fields[0].0;
    var v := fields[0].1;
    var s := MembersText(fields) + "}" + rest;
    MembersTextFirst(fields, rest);
    var tail := MembersText(fields[1..]) + "}" + rest;
    var after := "," + tail;
    assert s == Quote(key) + ":" + Stringify(v) + after;
    FirstMember(s, key, v, after);
    assert after[1..] == tail;
  }

  /** The first member of an object's text, followed by `}` or `,`. */
  lemma FirstMember(s: string, key: string, v: Value, after: string)
    requires WellFormed(v) && after != [] && (after[0] == '}' || after[0] == ',')
    requires s == Quote(key) + ":" + Stringify(v) + after
    ensures SkipWs(s) == s
    decreases v, 4
    ensures after[0] == '}' ==> ParseMembers(s) == Some(([(key, v)], after[1..]))
    ensures after[0] == ',' ==>
      ParseMembers(s) == (match ParseMembers(after[1..]) case None => None case Some((more, r)) => Some(([(key, v)] + more, r)))
  {
    MemberRoundTrip(key, v, after);
    QuoteThen(key, ":" + Stringify(v) + after);
    AppendAssoc(Quote(key), ":", Stringify(v));
    AppendAssoc(Quote(key), ":" + Stringify(v), after);
    assert s[0] == '"';
    ParseMembersStep(s, (key, v), after);
  }

  lemma MembersTextFirst(fields: seq<(string, Value)>, rest: string)
    requires fields != []
    ensures MembersText(fields) + "}" + rest ==
      Quote(fields[0].0) + ":" + Stringify(fields[0].1) +
      (if |fields| == 1 then "}" + rest else "," + (MembersText(fields[1..]) + "}" + rest))
  {
    assert fields[0] in fields && fields[0].1 < fields[0];
    var m := Quote(fields[0].0) + ":" + Stringify(fields[0].1);
    if |fields| == 1 {
      assert MembersText(fields) == m;
      AppendAssoc(m, "}", rest);
    } else {
      var m1 := MembersText(fields[1..]);
      assert MembersText(fields) == (m + ",") + m1;
      AppendAssoc(m + ",", m1, "}");
      AppendAssoc(m + ",", m1 + "}", rest);
      AppendAssoc(m, ",", m1 + "}" + rest);
    }
  }

  lemma AppendAssoc<T>(a: seq<T>, b: seq<T>, c: seq<T>)
    ensures a + b + c == a + (b + c)
  {
  }

  /** One step of `ParseMembers` past a member followed directly by `}` or `,`. */
  lemma ParseMembersStep(s: string, member: (string, Value), after: string)
    requires s != [] && s[0] == '"'
    requires ParseMember(s) == Some((member, after))
    requires after != [] && (after[0] == '}' || after[0] == ',')
    ensures SkipWs(s) == s
    ensures after[0] == '}' ==> ParseMembers(s) == Some(([member], after[1..]))
    ensures after[0] == ',' ==>
      ParseMembers(s) == (match ParseMembers(after[1..]) case None => None case Some((more, r)) => Some(([member] + more, r)))
  {
    assert SkipWs(after) == after;
  }

  /** One `"key":value` member followed by text that cannot continue the value. */
  lemma {:induction false} MemberRoundTrip(key: string, v: Value, after: string)
    requires WellFormed(v) && Delimited(after)
    ensures ParseMember(Quote(key) + ":" + Stringify(v) + after) == Some(((key, v), after))
    decreases v, 3
  {
    var q := Quote(key);
    var sv := Stringify(v);
    var r1 := ":" + sv + after;
    var s := q + r1;
    AppendAssoc(q, ":", sv);
    AppendAssoc(q, ":" + sv, after);
    assert q + ":" + sv + after == s;
    QuoteThen(key, r1);
    AppendAssoc(":", sv, after);
    assert r1[1..] == sv + after;
    StringifyStart(v);
    ValueRoundTrip(v, after);
    ParseMemberStep(s, key, r1, v, after);
  }

  lemma QuoteThen(t: string, rest: string)
    ensures (Quote(t) + rest)[0] == '"'
    ensures ParseChars((Quote(t) + rest)[1..]) == Some((t, rest))
  {
    assert (Quote(t) + rest)[1..] == EscapeText(t) + "\"" + rest;
    EscapeTextRoundTrip(t, rest);
  }

  /** `ParseMember` spelled out for a key with no white space around the colon. */
  lemma ParseMemberStep(s: string, key: string, r1: string, v: Value, r3: string)
    requires s != [] && s[0] == '"'
    requires ParseChars(s[1..]) == Some((key, r1))
    requires r1 != [] && r1[0] == ':' && (r1[1..] == [] || !IsJsonWs(r1[1]))
    requires ParseValue(r1[1..]) == Some((v, r3))
    ensures ParseMember(s) == Some(((key, v), r3))
  {
    assert SkipWs(r1) == r1;
    assert SkipWs(r1[1..]) == r1[1..];
  }

  /** `JSON.parse(JSON.stringify(v))` gives `v` back. */
  lemma StringifyParse(v: Value)
    requires WellFormed(v)
    ensures Parse(Stringify(v)) == Some(v)
  {
    StringifyStart(v);
    ValueRoundTrip(v, []);
    assert Stringify(v) + [] == Stringify(v);
  }
}
