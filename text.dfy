/**
 * Text primitives the viewer relies on through JavaScript's built-ins:
 * decimal rendering of numbers (`String(n)`, template literals), canonical
 * array-index keys, `parseInt`, ASCII `toLowerCase`, `includes`, and a fixed
 * total order on strings standing in for `localeCompare`.
 */
module Text {
  import opened Wrappers

  predicate IsDigit(c: char) { '0' <= c <= '9' }

  predicate AllDigits(s: string) { forall i :: 0 <= i < |s| ==> IsDigit(s[i]) }

  function DigitChar(d: nat): (c: char)
    requires d < 10
    ensures IsDigit(c) && c as int - '0' as int == d
  {
    ('0' as int + d) as char
  }

  /** Value of a digit in base `radix` (10 or 16), or `radix` itself when `c` is not such a digit. */
  function DigitValue(c: char, radix: nat): (d: nat)
    requires radix == 10 || radix == 16
    ensures d <= radix
    ensures d < radix ==> (radix == 10 <==> IsDigit(c)) || radix == 16
    ensures IsDigit(c) ==> d == c as int - '0' as int
  {
    if IsDigit(c) then c as int - '0' as int
    else if radix == 16 && 'a' <= c <= 'f' then c as int - 'a' as int + 10
    else if radix == 16 && 'A' <= c <= 'F' then c as int - 'A' as int + 10
    else radix
  }

  /** The number a string of base-`radix` digits denotes, most significant digit first. */
  function RadixValue(s: string, radix: nat): nat
    requires radix == 10 || radix == 16
    requires forall i :: 0 <= i < |s| ==> DigitValue(s[i], radix) < radix
  {
    if s == [] then 0
    else RadixValue(s[..|s| - 1], radix) * radix + DigitValue(s[|s| - 1], radix)
  }

  /** Decimal rendering of a natural number, as `String(n)` and template literals print it. */
  function NatToDecimal(n: nat): (s: string)
    ensures |s| >= 1 && AllDigits(s)
    ensures s[0] == '0' <==> n == 0
    ensures n == 0 ==> s == "0"
    decreases n
  {
    if n < 10 then [DigitChar(n)] else NatToDecimal(n / 10) + [DigitChar(n % 10)]
  }

  /** Decimal rendering of an integer, with a leading minus sign for negative numbers. */
  function IntToDecimal(i: int): (s: string)
    ensures |s| >= 1
    ensures s[0] == '-' <==> i < 0
  {
    if i < 0 then "-" + NatToDecimal(-i) else NatToDecimal(i)
  }

  /** Reading the decimal rendering back gives the number. */
  lemma {:induction false} DecimalRoundTrip(n: nat)
    ensures forall i :: 0 <= i < |NatToDecimal(n)| ==> DigitValue(NatToDecimal(n)[i], 10) < 10
    ensures RadixValue(NatToDecimal(n), 10) == n
    decreases n
  {
    var s := NatToDecimal(n);
    if n >= 10 {
      DecimalRoundTrip(n / 10);
      assert s[..|s| - 1] == NatToDecimal(n / 10);
    }
  }

  /** The largest array index plus one: JavaScript arrays hold at most 2^32 - 1 elements. */
  const MaxArrayLength: nat := 4294967295

  /**
   * The index a property key denotes on an array, if it is a canonical array
   * index: non-empty, decimal digits only, no leading zero (except "0"), below 2^32 - 1.
   */
  function CanonicalIndex(key: string): (r: Option<nat>)
    ensures r.Some? ==> r.value < MaxArrayLength && key == NatToDecimal(r.value)
  {
    if |key| >= 1 && AllDigits(key) && (key[0] != '0' || |key| == 1) then
      DigitsAreDecimal(key);
      var n := RadixValue(key, 10);
      if n < MaxArrayLength then Some(n) else None
    else None
  }

  /** A digit string without a leading zero is the decimal rendering of its value. */
  lemma {:induction false} DigitsAreDecimal(key: string)
    requires |key| >= 1 && AllDigits(key) && (key[0] != '0' || |key| == 1)
    ensures forall i :: 0 <= i < |key| ==> DigitValue(key[i], 10) < 10
    ensures NatToDecimal(RadixValue(key, 10)) == key
    decreases |key|
  {
    if |key| > 1 {
      var init := key[..|key| - 1];
      DigitsAreDecimal(init);
      var m := RadixValue(init, 10);
      assert m >= 1 by { LeadingDigitPositive(init); }
      var d := DigitValue(key[|key| - 1], 10);
      assert RadixValue(key, 10) == m * 10 + d;
      DecimalSnoc(m, d);
      assert key == init + [key[|key| - 1]];
    }
  }

  /** Appending a digit to a number's decimal text. */
  lemma DecimalSnoc(m: nat, d: nat)
    requires m >= 1 && d < 10
    ensures NatToDecimal(m * 10 + d) == NatToDecimal(m) + [DigitChar(d)]
  {
    var n := m * 10 + d;
    assert n / 10 == m && n % 10 == d;
  }

  lemma {:induction false} LeadingDigitPositive(s: string)
    requires |s| >= 1 && AllDigits(s) && s[0] != '0'
    ensures forall i :: 0 <= i < |s| ==> DigitValue(s[i], 10) < 10
    ensures RadixValue(s, 10) >= 1
    decreases |s|
  {
    if |s| > 1 {
      LeadingDigitPositive(s[..|s| - 1]);
    }
  }

  /** Every index an array can have is written by `String(i)` as a key that reads back as that index. */
  lemma IndexKeyRoundTrip(n: nat)
    requires n < MaxArrayLength
    ensures CanonicalIndex(NatToDecimal(n)) == Some(n)
  {
    DecimalRoundTrip(n);
  }

  /** The characters `parseInt` skips before the number: ECMAScript's WhiteSpace and LineTerminator. */
  predicate IsJsWhitespace(c: char)
  {
    c == '\t' || c == '\n' || c == '\U{B}' || c == '\U{C}' || c == '\r' || c == ' '
    || c == '\U{A0}' || c == '\U{1680}' || ('\U{2000}' <= c <= '\U{200A}')
    || c == '\U{2028}' || c == '\U{2029}' || c == '\U{202F}' || c == '\U{205F}'
    || c == '\U{3000}' || c == '\U{FEFF}'
  }

  function TrimStart(s: string): (r: string)
    ensures |r| <= |s| && r == s[|s| - |r|..]
    ensures r == [] || !IsJsWhitespace(r[0])
    ensures forall i :: 0 <= i < |s| - |r| ==> IsJsWhitespace(s[i])
  {
    if s != [] && IsJsWhitespace(s[0]) then TrimStart(s[1..]) else s
  }

  /** `s` without its trailing white space. */
  function TrimEnd(s: string): (r: string)
    ensures |r| <= |s| && r == s[..|r|]
    ensures r == [] || !IsJsWhitespace(r[|r| - 1])
    ensures forall i :: |r| <= i < |s| ==> IsJsWhitespace(s[i])
  {
    if s != [] && IsJsWhitespace(s[|s| - 1]) then TrimEnd(s[..|s| - 1]) else s
  }

  /** Length of the longest prefix of `s` made of base-`radix` digits. */
  function DigitPrefix(s: string, radix: nat): (n: nat)
    requires radix == 10 || radix == 16
    ensures n <= |s|
    ensures forall i :: 0 <= i < n ==> DigitValue(s[i], radix) < radix
    ensures n < |s| ==> DigitValue(s[n], radix) == radix
  {
    if s != [] && DigitValue(s[0], radix) < radix then 1 + DigitPrefix(s[1..], radix) else 0
  }

  /**
   * The unsigned part of `parseInt`: base 16 after a `0x`/`0X` prefix, base 10
   * otherwise, reading the longest run of digits; no digit at all is None (NaN).
   */
  function ParseMagnitude(u: string): (r: Option<nat>)
  {
    var hex := |u| >= 2 && u[0] == '0' && (u[1] == 'x' || u[1] == 'X');
    var radix := if hex then 16 else 10;
    var w := if hex then u[2..] else u;
    var n := DigitPrefix(w, radix);
    if n == 0 then None else Some(RadixValue(w[..n], radix))
  }

  /**
   * `parseInt(s)` with no radix: skip leading white space, take an optional
   * sign, then read the magnitude; trailing text is ignored and no digits at
   * all gives NaN (here None).
   */
  function ParseInt(s: string): (r: Option<int>)
  {
    var t := TrimStart(s);
    var negative := |t| > 0 && t[0] == '-';
    var u := if |t| > 0 && (t[0] == '-' || t[0] == '+') then t[1..] else t;
    match ParseMagnitude(u)
    case None => None
    case Some(v) => var m: int := v; Some(if negative then -m else m)
  }

  /** `parseInt` reads back every decimal rendering, so a `[i]` label names index i again. */
  lemma ParseIntOfDecimal(n: nat)
    ensures ParseInt(NatToDecimal(n)) == Some(n)
  {
    DecimalMagnitude(n);
    UnsignedParseInt(NatToDecimal(n));
  }

  /** Text that starts with a digit is read by `parseInt` as an unsigned magnitude. */
  lemma UnsignedParseInt(s: string)
    requires |s| >= 1 && IsDigit(s[0])
    ensures ParseInt(s) == (match ParseMagnitude(s) case None => None case Some(v) => Some(v as int))
  {
    assert !IsJsWhitespace(s[0]);
    assert TrimStart(s) == s;
  }

  lemma DecimalMagnitude(n: nat)
    ensures ParseMagnitude(NatToDecimal(n)) == Some(n)
  {
    var s := NatToDecimal(n);
    DecimalRoundTrip(n);
    assert s[0] == '0' ==> |s| == 1;
    AllDigitPrefix(s);
    assert s[..|s|] == s;
  }

  lemma {:induction false} AllDigitPrefix(s: string)
    requires AllDigits(s)
    ensures DigitPrefix(s, 10) == |s|
    decreases |s|
  {
    if s != [] { AllDigitPrefix(s[1..]); }
  }

  /**
   * How far `toLowerCase` moves an upper-case letter of the ranges the model
   * covers: ASCII, Latin-1 (without the multiplication sign) and the basic
   * Cyrillic capitals; 0 for every other character.
   */
  function LowerOffset(c: char): nat
  {
    if 'A' <= c <= 'Z' || ('\U{C0}' <= c <= '\U{DE}' && c != '\U{D7}') || '\U{410}' <= c <= '\U{42F}' then 32
    else if '\U{400}' <= c <= '\U{40F}' then 80
    else 0
  }

  /** `toLowerCase` on one character, for the letters `LowerOffset` covers. */
  function LowerChar(c: char): (d: char)
    ensures d as int == c as int + LowerOffset(c)
    ensures LowerOffset(d) == 0
    ensures 'A' <= c <= 'Z' ==> 'a' <= d <= 'z'
  {
    if LowerOffset(c) == 0 then c else (c as int + LowerOffset(c)) as char
  }

  function Lower(s: string): (r: string)
    ensures |r| == |s| && forall i :: 0 <= i < |s| ==> r[i] == LowerChar(s[i])
  {
    if s == [] then [] else [LowerChar(s[0])] + Lower(s[1..])
  }

  predicate IsPrefix(p: string, s: string)
  {
    |p| <= |s| && s[..|p|] == p
  }

  /** `s.includes(p)`: `p` occurs in `s` as a contiguous piece. */
  predicate Contains(s: string, p: string)
    decreases |s|
  {
    IsPrefix(p, s) || (s != [] && Contains(s[1..], p))
  }

  /** `p` occurs in `s` starting at offset `i`. */
  predicate OccursAt(s: string, p: string, i: int)
  {
    0 <= i <= |s| - |p| && s[i..i + |p|] == p
  }

  /** `includes` means "occurs at some offset". */
  lemma {:induction false} ContainsAt(s: string, p: string)
    ensures Contains(s, p) <==> exists i :: OccursAt(s, p, i)
    decreases |s|
  {
    if IsPrefix(p, s) {
      assert OccursAt(s, p, 0);
    } else if s != [] {
      ContainsAt(s[1..], p);
      if Contains(s[1..], p) {
        var i :| OccursAt(s[1..], p, i);
        assert s[i + 1..i + 1 + |p|] == s[1..][i..i + |p|];
        assert OccursAt(s, p, i + 1);
      }
      if exists i :: OccursAt(s, p, i) {
        var i :| OccursAt(s, p, i);
        assert i != 0;
        assert s[1..][i - 1..i - 1 + |p|] == s[i..i + |p|];
        assert OccursAt(s[1..], p, i - 1);
      }
    }
  }

  /**
   * A fixed total order on strings (code point by code point, a proper prefix
   * first), standing in for `localeCompare`: negative, zero or positive.
   */
  function CompareText(a: string, b: string): (r: int)
    ensures -1 <= r <= 1
  {
    if a == [] && b == [] then 0
    else if a == [] then -1
    else if b == [] then 1
    else if a[0] < b[0] then -1
    else if a[0] > b[0] then 1
    else CompareText(a[1..], b[1..])
  }

  lemma {:induction false} CompareTextZero(a: string, b: string)
    ensures CompareText(a, b) == 0 <==> a == b
  {
    if a != [] && b != [] && a[0] == b[0] {
      CompareTextZero(a[1..], b[1..]);
      assert a == [a[0]] + a[1..] && b == [b[0]] + b[1..];
    }
  }

  lemma {:induction false} CompareTextAntisymmetric(a: string, b: string)
    ensures CompareText(a, b) == -CompareText(b, a)
  {
    if a != [] && b != [] && a[0] == b[0] {
      CompareTextAntisymmetric(a[1..], b[1..]);
    }
  }

  lemma {:induction false} CompareTextTransitive(a: string, b: string, c: string)
    requires CompareText(a, b) <= 0 && CompareText(b, c) <= 0
    ensures CompareText(a, c) <= 0
  {
    if a != [] && b != [] && c != [] && a[0] == b[0] == c[0] {
      CompareTextTransitive(a[1..], b[1..], c[1..]);
    }
  }
}
