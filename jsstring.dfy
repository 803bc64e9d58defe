/** The JavaScript string built-ins the components rely on: `trim`,
    `toLowerCase`, `includes`, `length`, `parseInt` and the decimal
    `toString` of an integral Number. Characters are Unicode scalar values. */
module JsString {
  import opened Common

  // ---------------------------------------------------------------------------
  // trim

  /** The WhiteSpace and LineTerminator code points of ECMAScript, which both
      `String.prototype.trim` and `parseInt` skip. */
  predicate IsJsWhitespace(c: char) {
    var n := c as int;
    n == 0x09 || n == 0x0A || n == 0x0B || n == 0x0C || n == 0x0D || n == 0x20
    || n == 0xA0 || n == 0x1680 || (0x2000 <= n <= 0x200A) || n == 0x2028
    || n == 0x2029 || n == 0x202F || n == 0x205F || n == 0x3000 || n == 0xFEFF
  }

  /** `s.trimStart()`: what it drops from the front is whitespace and it does
      not start with whitespace; it is a suffix of `s` (`TrimStartIsSuffix`). */
  function TrimStart(s: string): (r: string)
    ensures |r| <= |s|
    ensures r == [] || !IsJsWhitespace(r[0])
    ensures forall i :: 0 <= i < |s| - |r| ==> IsJsWhitespace(s[i])
  {
    if s != [] && IsJsWhitespace(s[0]) then
      var t := s[1..];
      var r := TrimStart(t);
      assert forall i :: 0 <= i < |s| - |r| ==> IsJsWhitespace(s[i]) by {
        forall i | 0 <= i < |s| - |r| ensures IsJsWhitespace(s[i]) {
          if i > 0 {
            assert s[i] == t[i - 1];
          }
        }
      }
      r
    else s
  }

  /** What `trimStart` keeps is the end of the string, unchanged. */
  lemma {:induction false} TrimStartIsSuffix(s: string)
    ensures TrimStart(s) == s[|s| - |TrimStart(s)|..]
    decreases |s|
  {
    if s != [] && IsJsWhitespace(s[0]) {
      TrimStartIsSuffix(s[1..]);
      assert s[1..][|s| - 1 - |TrimStart(s)|..] == s[|s| - |TrimStart(s)|..];
    } else {
      assert s[0..] == s;
    }
  }

  /** `s.trimEnd()`: a prefix of `s`; what it drops is whitespace and it does
      not end with whitespace. */
  function TrimEnd(s: string): (r: string)
    ensures r <= s
    ensures r == [] || !IsJsWhitespace(r[|r| - 1])
    ensures forall i :: |r| <= i < |s| ==> IsJsWhitespace(s[i])
  {
    if s != [] && IsJsWhitespace(s[|s| - 1]) then TrimEnd(s[..|s| - 1]) else s
  }

  /** `s.trim()`. */
  function Trim(s: string): (r: string)
    ensures |r| <= |s|
    ensures r == [] || (!IsJsWhitespace(r[0]) && !IsJsWhitespace(r[|r| - 1]))
  {
    TrimEnd(TrimStart(s))
  }

  /** `!s.trim()`: every character is whitespace, so that the trimmed string
      is empty and hence falsy (`BlankIffTrimEmpty`). */
  predicate IsBlank(s: string) {
    forall i :: 0 <= i < |s| ==> IsJsWhitespace(s[i])
  }

  /** A string is blank exactly when trimming it leaves nothing. */
  lemma BlankIffTrimEmpty(s: string)
    ensures IsBlank(s) <==> Trim(s) == []
  {
    var t := TrimStart(s);
    TrimStartIsSuffix(s);
    if t != [] {
      assert t[0] == s[|s| - |t|];
    }
    if !IsBlank(s) && t != [] {
      assert !IsJsWhitespace(t[0]);
      assert TrimEnd(t) != [];
    }
  }

  /** Leading-whitespace trimming removes all of a blank string. */
  lemma BlankTrimsToEmpty(s: string)
    requires IsBlank(s)
    ensures TrimStart(s) == []
  {
    TrimStartIsSuffix(s);
  }

  // ---------------------------------------------------------------------------
  // toLowerCase

  /** Lower-casing of one character, restricted to ASCII letters. */
  function LowerChar(c: char): (r: char)
    ensures 'A' <= c <= 'Z' ==> r as int == c as int + 32
    ensures !('A' <= c <= 'Z') ==> r == c
    ensures !('A' <= r <= 'Z')
  {
    if 'A' <= c <= 'Z' then (c as int + 32) as char else c
  }

  /** `s.toLowerCase()` on ASCII letters: every character lower-cased in place. */
  function Lower(s: string): (r: string)
    ensures |r| == |s|
    ensures forall i :: 0 <= i < |s| ==> r[i] == LowerChar(s[i])
  {
    if s == [] then [] else [LowerChar(s[0])] + Lower(s[1..])
  }

  /** Lower-casing twice is lower-casing once. */
  lemma LowerIdempotent(s: string)
    ensures Lower(Lower(s)) == Lower(s)
  {
    assert forall i :: 0 <= i < |s| ==> Lower(Lower(s))[i] == Lower(s)[i];
  }

  // ---------------------------------------------------------------------------
  // includes

  /** `s.includes(t)`, searched from the front. */
  function Contains(s: string, t: string): bool
    decreases |s|
  {
    t <= s || (s != [] && Contains(s[1..], t))
  }

  /** `t` stands in `s` from position `k` on. */
  ghost predicate OccursAt(s: string, t: string, k: int) {
    0 <= k <= |s| && t <= s[k..]
  }

  /** `includes` holds exactly when `t` occurs in `s` at some position. */
  lemma {:induction false} ContainsIffOccurs(s: string, t: string)
    ensures Contains(s, t) <==> exists k :: OccursAt(s, t, k)
    decreases |s|
  {
    if t <= s {
      assert s[0..] == s;
      assert OccursAt(s, t, 0);
    } else if s != [] {
      ContainsIffOccurs(s[1..], t);
      if Contains(s[1..], t) {
        var k :| OccursAt(s[1..], t, k);
        assert s[1..][k..] == s[k + 1..];
        assert OccursAt(s, t, k + 1);
      }
      if exists k :: OccursAt(s, t, k) {
        var k :| OccursAt(s, t, k);
        if k != 0 {
          assert s[1..][k - 1..] == s[k..];
          assert OccursAt(s[1..], t, k - 1);
        }
      }
    }
  }

  /** `field?.toLowerCase().includes(term)`: a missing field never matches. */
  predicate TextFieldIncludes(field: Option<string>, term: string) {
    field.Some? && Contains(Lower(field.value), term)
  }

  // ---------------------------------------------------------------------------
  // length

  /** `s.length`: the number of UTF-16 code units, two for a character outside
      the Basic Multilingual Plane. */
  function Utf16Length(s: string): (n: nat)
    ensures |s| <= n <= 2 * |s|
    ensures (forall i :: 0 <= i < |s| ==> s[i] as int <= 0xFFFF) ==> n == |s|
  {
    if s == [] then 0
    else (if s[0] as int > 0xFFFF then 2 else 1) + Utf16Length(s[1..])
  }

  // ---------------------------------------------------------------------------
  // Number.prototype.toString for integers

  /** The character of a decimal digit. */
  function DecimalChar(d: nat): (c: char)
    requires d < 10
    ensures '0' <= c <= '9' && c as int - '0' as int == d
  {
    ('0' as int + d) as char
  }

  /** Decimal digits, most significant first, with no leading zero. */
  function NatToString(n: nat): (r: string)
    ensures r != []
    ensures forall i :: 0 <= i < |r| ==> '0' <= r[i] <= '9'
    ensures (r[0] == '0') <==> n == 0
    ensures n == 0 ==> r == "0"
  {
    if n < 10 then [DecimalChar(n)] else NatToString(n / 10) + [DecimalChar(n % 10)]
  }

  /** `n.toString()` for an integral Number. */
  function IntToString(n: int): (r: string)
    ensures r != []
    ensures n < 0 <==> r[0] == '-'
  {
    if n < 0 then "-" + NatToString(-n) else NatToString(n)
  }

  // ---------------------------------------------------------------------------
  // parseInt

  /** The value of a digit in base 16 or below; 16 for every other character. */
  function DigitValue(c: char): (v: nat)
    ensures v <= 16
    ensures v < 10 <==> '0' <= c <= '9'
  {
    if '0' <= c <= '9' then c as int - '0' as int
    else if 'a' <= c <= 'f' then c as int - 'a' as int + 10
    else if 'A' <= c <= 'F' then c as int - 'A' as int + 10
    else 16
  }

  /** The longest prefix of `s` made of digits of the given radix. */
  function DigitPrefix(s: string, radix: nat): (r: string)
    ensures r <= s
    ensures forall i :: 0 <= i < |r| ==> DigitValue(r[i]) < radix
    ensures |r| == |s| || DigitValue(s[|r|]) >= radix
  {
    if s != [] && DigitValue(s[0]) < radix then [s[0]] + DigitPrefix(s[1..], radix) else []
  }

  /** The number written by digits `ds` in the given radix. */
  function DigitsValue(ds: string, radix: nat): nat
    requires forall i :: 0 <= i < |ds| ==> DigitValue(ds[i]) < radix
  {
    if ds == [] then 0
    else
      var high := DigitsValue(ds[..|ds| - 1], radix);
      ProductIsNat(high, radix);
      high * radix + DigitValue(ds[|ds| - 1])
  }

  /** The product of two naturals is a natural. */
  lemma ProductIsNat(a: nat, b: nat)
    ensures a * b >= 0
  {
  }

  /** `parseInt(s)` with no radix argument; `None` is NaN. Leading whitespace
      is skipped, then the number is read from what is left. */
  function ParseInt(s: string): Option<int> {
    ParseNumber(TrimStart(s))
  }

  /** `parseInt` after the leading whitespace: one sign is read, then the
      magnitude. (JavaScript's -0 is 0 here.) */
  function ParseNumber(t: string): Option<int> {
    if t != [] && t[0] == '-' then Negate(ParseMagnitude(t[1..]))
    else if t != [] && t[0] == '+' then ParseMagnitude(t[1..])
    else ParseMagnitude(t)
  }

  /** The sign applied to a parsed magnitude; NaN stays NaN. */
  function Negate(m: Option<int>): Option<int> {
    if m.None? then None else Some(-m.value)
  }

  /** A `0x` or `0X` prefix selects base 16, otherwise base 10; the longest run
      of digits that follows is the value, and with no digits it is NaN. */
  function ParseMagnitude(u: string): Option<int> {
    if |u| >= 2 && u[0] == '0' && (u[1] == 'x' || u[1] == 'X') then ParseDigits(u[2..], 16)
    else ParseDigits(u, 10)
  }

  /** The value of the longest run of digits that starts `v`, or NaN. */
  function ParseDigits(v: string, radix: nat): Option<int> {
    var z := DigitPrefix(v, radix);
    if z == [] then None else Some(DigitsValue(z, radix))
  }

  /** The digit run of a non-negative integer's decimal string is its value. */
  lemma {:induction false} NatToStringValue(n: nat)
    ensures DigitsValue(NatToString(n), 10) == n
  {
    var r := NatToString(n);
    if n >= 10 {
      NatToStringValue(n / 10);
      assert r[..|r| - 1] == NatToString(n / 10);
    }
  }

  /** Digits followed by a non-digit: the digit prefix is the digits. */
  lemma {:induction false} DigitPrefixOfDigits(ds: string, rest: string)
    requires forall i :: 0 <= i < |ds| ==> DigitValue(ds[i]) < 10
    requires rest == [] || DigitValue(rest[0]) >= 10
    ensures DigitPrefix(ds + rest, 10) == ds
  {
    if ds != [] {
      DigitPrefixOfDigits(ds[1..], rest);
      assert (ds + rest)[1..] == ds[1..] + rest;
    }
  }

  /** `parseInt` reads back an integer's decimal string, even with trailing
      text, provided that text starts with no decimal digit and does not turn
      a leading "0" into the hexadecimal prefix "0x". */
  lemma ParseIntPrefix(n: int, rest: string)
    requires rest == [] || !('0' <= rest[0] <= '9')
    requires n == 0 && rest != [] ==> rest[0] != 'x' && rest[0] != 'X'
    ensures ParseInt(IntToString(n) + rest) == Some(n)
  {
    NumberNotTrimmed(n, rest);
    ParseNumberPrefix(n, rest);
  }

  /** The same after the (absent) leading whitespace: the sign, then the
      magnitude. */
  lemma ParseNumberPrefix(n: int, rest: string)
    requires rest == [] || !('0' <= rest[0] <= '9')
    requires n == 0 && rest != [] ==> rest[0] != 'x' && rest[0] != 'X'
    ensures ParseNumber(IntToString(n) + rest) == Some(n)
  {
    if n < 0 {
      NegativeNumber(n, rest);
    } else {
      UnsignedNumber(n, rest);
    }
  }

  /** A negative number: a minus sign, then its magnitude. */
  lemma NegativeNumber(n: int, rest: string)
    requires n < 0
    requires rest == [] || !('0' <= rest[0] <= '9')
    ensures ParseNumber(IntToString(n) + rest) == Some(n)
  {
    var m: nat := -n;
    var u := NatToString(m) + rest;
    NegativeString(n, rest);
    ParseNegative(u);
    ParseMagnitudeOfNat(m, rest);
    assert ParseNumber("-" + u) == Some(n);
  }

  /** A negative number's string: a minus sign, then the magnitude's digits. */
  lemma NegativeString(n: int, rest: string)
    requires n < 0
    ensures IntToString(n) + rest == "-" + (NatToString(-n) + rest)
  {
    assert IntToString(n) == "-" + NatToString(-n);
  }

  /** A non-negative number: no sign, just its magnitude. */
  lemma UnsignedNumber(n: nat, rest: string)
    requires rest == [] || !('0' <= rest[0] <= '9')
    requires n == 0 && rest != [] ==> rest[0] != 'x' && rest[0] != 'X'
    ensures ParseNumber(IntToString(n) + rest) == Some(n)
  {
    var u := NatToString(n) + rest;
    assert IntToString(n) + rest == u;
    assert u[0] == NatToString(n)[0];
    ParseMagnitudeOfNat(n, rest);
  }

  /** The magnitude read from a non-negative integer's decimal string. */
  lemma ParseMagnitudeOfNat(n: nat, rest: string)
    requires rest == [] || !('0' <= rest[0] <= '9')
    requires n == 0 && rest != [] ==> rest[0] != 'x' && rest[0] != 'X'
    ensures ParseMagnitude(NatToString(n) + rest) == Some(n)
  {
    ParseMagnitudeDigits(NatToString(n), rest);
    NatToStringValue(n);
  }

  /** An integer's decimal string starts with no whitespace. */
  lemma NumberNotTrimmed(n: int, rest: string)
    ensures TrimStart(IntToString(n) + rest) == IntToString(n) + rest
  {
    assert (IntToString(n) + rest)[0] == IntToString(n)[0];
  }

  /** A minus sign negates the magnitude that follows it. */
  lemma ParseNegative(u: string)
    ensures ParseNumber("-" + u) == Negate(ParseMagnitude(u))
  {
    assert ("-" + u)[0] == '-' && ("-" + u)[1..] == u;
  }

  /** Decimal digits with no leading zero, then text that starts with no digit
      (and no `x` after a lone `0`): the magnitude read is the digits' value. */
  lemma ParseMagnitudeDigits(ds: string, rest: string)
    requires ds != [] && forall i :: 0 <= i < |ds| ==> '0' <= ds[i] <= '9'
    requires ds[0] == '0' ==> |ds| == 1 && (rest == [] || (rest[0] != 'x' && rest[0] != 'X'))
    requires rest == [] || !('0' <= rest[0] <= '9')
    ensures ParseMagnitude(ds + rest) == Some(DigitsValue(ds, 10))
  {
    var u := ds + rest;
    assert u[0] == ds[0];
    assert |ds| == 1 && |u| >= 2 ==> u[1] == rest[0];
    DigitPrefixOfDigits(ds, rest);
  }

  /** `parseInt` inverts `toString` on integers. */
  lemma ParseIntRoundTrip(n: int)
    ensures ParseInt(IntToString(n)) == Some(n)
  {
    ParseIntPrefix(n, "");
    assert IntToString(n) + "" == IntToString(n);
  }

  /** Leading whitespace does not change what `parseInt` reads. */
  lemma {:induction false} ParseIntSkipsWhitespace(ws: string, s: string)
    requires forall i :: 0 <= i < |ws| ==> IsJsWhitespace(ws[i])
    ensures ParseInt(ws + s) == ParseInt(s)
  {
    SkipWhitespace(ws, s);
  }

  lemma {:induction false} SkipWhitespace(ws: string, s: string)
    requires forall i :: 0 <= i < |ws| ==> IsJsWhitespace(ws[i])
    ensures TrimStart(ws + s) == TrimStart(s)
  {
    if ws != [] {
      var w := ws + s;
      assert w[0] == ws[0] && w != [];
      assert w[1..] == ws[1..] + s;
      SkipWhitespace(ws[1..], s);
      assert TrimStart(w) == TrimStart(w[1..]);
    } else {
      assert ws + s == s;
    }
  }

  /** Text whose first character is neither whitespace, a sign nor a decimal
      digit has no digits for `parseInt` to read: the result is NaN. */
  lemma NoLeadingDigitIsNaN(s: string)
    requires s == [] || (!IsJsWhitespace(s[0]) && s[0] != '-' && s[0] != '+' && !('0' <= s[0] <= '9'))
    ensures ParseInt(s) == None
  {
    assert TrimStart(s) == s;
  }
}
