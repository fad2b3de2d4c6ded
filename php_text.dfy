/**
 The parts of PHP's string semantics the calculator engine relies on: what
 `is_numeric` accepts, when `floatval` yields zero, what the loose comparison
 `$s == '0'` means, and `str_replace` of one character by nothing.
 Numeric strings follow the PHP 8 grammar: optional whitespace, an optional
 sign, a decimal literal with an optional exponent, optional whitespace.
 */
module PhpText {

  /** The whitespace PHP allows around a numeric string: space, \t, \n, \r, \v, \f. */
  predicate IsWhitespace(c: char) {
    c == ' ' || c == '\t' || c == '\n' || c == '\r' || c == '\U{B}' || c == '\U{C}'
  }

  predicate IsDigit(c: char) {
    '0' <= c <= '9'
  }

  /** The length of the run of whitespace at the head of `s`. */
  function WhitespaceRun(s: string): (n: nat)
    ensures n <= |s|
  {
    if |s| > 0 && IsWhitespace(s[0]) then 1 + WhitespaceRun(s[1..]) else 0
  }

  /** Drops the leading whitespace of `s`. */
  function SkipWhitespace(s: string): string {
    s[WhitespaceRun(s)..]
  }

  /** Drops one leading `+` or `-`. */
  function StripSign(t: string): string {
    if |t| > 0 && (t[0] == '+' || t[0] == '-') then t[1..] else t
  }

  /** The length of the run of digits at the head of `s`. */
  function DigitRun(s: string): (n: nat)
    ensures n <= |s|
  {
    if |s| > 0 && IsDigit(s[0]) then 1 + DigitRun(s[1..]) else 0
  }

  /** The run of digits is maximal: it holds only digits and stops before a non-digit. */
  lemma {:induction false} DigitRunIsMaximal(s: string)
    ensures forall i :: 0 <= i < DigitRun(s) ==> IsDigit(s[i])
    ensures DigitRun(s) == |s| || !IsDigit(s[DigitRun(s)])
  {
    if |s| > 0 && IsDigit(s[0]) {
      DigitRunIsMaximal(s[1..]);
      forall i | 0 <= i < DigitRun(s) ensures IsDigit(s[i]) {
        if i > 0 { assert s[i] == s[1..][i - 1]; }
      }
    }
  }

  /** The length of the mantissa `[0-9]*(\.[0-9]*)?` at the head of `u`. */
  function MantissaLength(u: string): (m: nat)
    ensures m <= |u|
  {
    var d := DigitRun(u);
    if d < |u| && u[d] == '.' then d + 1 + DigitRun(u[d + 1..]) else d
  }

  /** The mantissa at the head of `u` holds at least one digit (it is neither "" nor "."). */
  predicate MantissaHasDigit(u: string) {
    var m := MantissaLength(u);
    m > 1 || (m == 1 && IsDigit(u[0]))
  }

  /** The length of a complete exponent `[eE][+-]?[0-9]+` at the head of `v`, or 0. */
  function ExponentLength(v: string): (n: nat)
    ensures n <= |v|
  {
    if |v| > 0 && (v[0] == 'e' || v[0] == 'E') then
      var w := StripSign(v[1..]);
      var d := DigitRun(w);
      if d > 0 then |v| - |w| + d else 0
    else 0
  }

  /** What follows the leading whitespace and the optional sign of `s`. */
  function Unsigned(s: string): string {
    StripSign(SkipWhitespace(s))
  }

  /** `u` is a decimal literal, with an optional exponent, followed by whitespace only. */
  predicate IsNumericBody(u: string) {
    MantissaHasDigit(u) &&
    var m := MantissaLength(u);
    var rest := u[m + ExponentLength(u[m..])..];
    forall i :: 0 <= i < |rest| ==> IsWhitespace(rest[i])
  }

  /** The mantissa at the head of `u` has no non-zero digit. */
  predicate MantissaIsZero(u: string) {
    forall i :: 0 <= i < MantissaLength(u) ==> u[i] == '0' || u[i] == '.'
  }

  /**
   `is_numeric($s)` for a string `s`. A numeric string holds a digit; on a
   partial numeral, holding a digit is also enough.
   */
  predicate IsNumericString(s: string)
    ensures IsNumericString(s) ==> HasDigit(s)
    ensures IsPartialNumeral(s) ==> (IsNumericString(s) <==> HasDigit(s))
  {
    NumericBodyHasDigit(s);
    IsNumericBody(Unsigned(s))
  }

  /**
   `floatval($s) == 0`: floatval reads the longest numeric prefix of `s` (0 when
   there is none), so the value is zero exactly when the mantissa of that
   prefix has no non-zero digit; the exponent cannot make it non-zero.
   */
  predicate FloatvalIsZero(s: string)
    ensures !HasNonZeroDigit(s) ==> FloatvalIsZero(s)
    ensures |s| > 0 && '1' <= s[0] <= '9' ==> !FloatvalIsZero(s)
  {
    MantissaZeroByDigits(s);
    MantissaIsZero(Unsigned(s))
  }

  /**
   PHP's loose comparison `$s == '0'`: two numeric strings are compared as
   numbers, any other pair of strings byte by byte.
   */
  predicate LooselyEqualsZero(s: string)
    ensures LooselyEqualsZero(s) <==> IsNumericString(s) && FloatvalIsZero(s)
  {
    ZeroTextIsNumeric();
    if IsNumericString(s) then FloatvalIsZero(s) else s == "0"
  }

  /** `str_replace($c, '', $s)`: `s` with every occurrence of `c` removed. */
  function RemoveAll(s: string, c: char): (r: string)
    ensures c !in r
    ensures c !in s ==> r == s
    ensures multiset(r) == multiset(s)[c := 0]
  {
    if s == [] then []
    else
      assert s == [s[0]] + s[1..];
      Kept(s[0], c) + RemoveAll(s[1..], c)
  }

  /** What `str_replace` keeps of one character `x`. */
  function Kept(x: char, c: char): string {
    if x == c then [] else [x]
  }

  lemma ConcatAssoc(p: string, q: string, r: string)
    ensures p + (q + r) == (p + q) + r
  {
  }

  lemma SplitHead(a: string)
    requires a != []
    ensures a == [a[0]] + a[1..]
  {
  }

  /** Removal from a string with a known first character. */
  lemma RemoveAllCons(x: char, t: string, c: char)
    ensures RemoveAll([x] + t, c) == Kept(x, c) + RemoveAll(t, c)
  {
    assert ([x] + t)[1..] == t;
  }

  /**
   Removal works piece by piece and keeps the order of what remains: removing
   from a concatenation is the concatenation of the removals. With
   `RemoveAllSingle` and `c !in s ==> RemoveAll(s, c) == s` this fixes the
   result on every string.
   */
  lemma {:induction false} RemoveAllConcat(a: string, b: string, c: char)
    ensures RemoveAll(a + b, c) == RemoveAll(a, c) + RemoveAll(b, c)
    decreases |a|
  {
    if a == [] {
      assert a + b == b;
    } else {
      var x, t := a[0], a[1..];
      SplitHead(a);
      ConcatAssoc([x], t, b);
      RemoveAllCons(x, t + b, c);
      RemoveAllCons(x, t, c);
      RemoveAllConcat(t, b, c);
      ConcatAssoc(Kept(x, c), RemoveAll(t, c), RemoveAll(b, c));
    }
  }

  /** A lone `c` is removed entirely. */
  lemma RemoveAllSingle(c: char)
    ensures RemoveAll([c], c) == []
  {
    assert [c][1..] == [];
  }

  /** `s` without its leading `-`, if it has one. */
  function Magnitude(s: string): string {
    if |s| > 0 && s[0] == '-' then s[1..] else s
  }

  /** Digits with at most one `.`. */
  predicate IsDigitsWithPoint(b: string) {
    (forall i :: 0 <= i < |b| ==> IsDigit(b[i]) || b[i] == '.') &&
    (forall i, j :: 0 <= i < j < |b| && b[i] == '.' ==> b[j] != '.')
  }

  /**
   A partial or complete decimal numeral as the keys of the calculator build
   it: an optional leading `-`, then digits with at most one `.`.
   */
  predicate IsPartialNumeral(s: string) {
    IsDigitsWithPoint(Magnitude(s))
  }

  predicate HasDigit(s: string) {
    exists i :: 0 <= i < |s| && IsDigit(s[i])
  }

  predicate HasNonZeroDigit(s: string) {
    exists i :: 0 <= i < |s| && IsDigit(s[i]) && s[i] != '0'
  }

  predicate DigitsAllZero(s: string) {
    forall i :: 0 <= i < |s| && IsDigit(s[i]) ==> s[i] == '0'
  }

  /** The literal "0" is a numeric string whose value is zero, so only numeric strings can be loosely "0". */
  lemma ZeroTextIsNumeric()
    ensures IsNumericBody(Unsigned("0")) && MantissaIsZero(Unsigned("0"))
  {
    var z := "0";
    assert WhitespaceRun(z) == 0 && Unsigned(z) == z;
    assert z[1..] == [];
    assert DigitRun(z) == 1 && MantissaLength(z) == 1;
    assert ExponentLength(z[1..]) == 0;
  }

  /** "0.", what the keys 0 and `.` build, is loosely '0'. */
  lemma ZeroPointIsLooselyZero()
    ensures LooselyEqualsZero("0.")
  {
    var z := "0.";
    assert IsPartialNumeral(z) by {
      assert Magnitude(z) == z;
    }
    assert HasDigit(z) by { assert IsDigit(z[0]); }
    assert !HasNonZeroDigit(z);
  }

  /** `Unsigned(s)` is a suffix of `s`. */
  lemma UnsignedIsSuffix(s: string)
    ensures |Unsigned(s)| <= |s| && Unsigned(s) == s[|s| - |Unsigned(s)|..]
  {
    var w := WhitespaceRun(s);
    var t := s[w..];
    if |t| > 0 && (t[0] == '+' || t[0] == '-') {
      assert t[1..] == s[w + 1..];
    }
  }

  /** The mantissa at the head of `u` is made of digits and points. */
  lemma MantissaChars(u: string)
    ensures forall i :: 0 <= i < MantissaLength(u) ==> IsDigit(u[i]) || u[i] == '.'
  {
    DigitRunIsMaximal(u);
    var d := DigitRun(u);
    if d < |u| && u[d] == '.' {
      var tail := u[d + 1..];
      DigitRunIsMaximal(tail);
      forall i | d + 1 <= i < MantissaLength(u) ensures IsDigit(u[i]) {
        assert u[i] == tail[i - d - 1];
      }
    }
  }

  /** A mantissa with a digit, and so a numeric string, holds a digit. */
  lemma NumericBodyHasDigit(s: string)
    ensures IsNumericBody(Unsigned(s)) ==> HasDigit(s)
    ensures IsPartialNumeral(s) ==> (IsNumericBody(Unsigned(s)) <==> HasDigit(s))
  {
    var u := Unsigned(s);
    UnsignedIsSuffix(s);
    var k := |s| - |u|;
    if MantissaHasDigit(u) {
      MantissaChars(u);
      var j := if IsDigit(u[0]) then 0 else 1;
      assert IsDigit(u[j]) by {
        if !IsDigit(u[0]) {
          DigitRunIsMaximal(u);
          DigitRunIsMaximal(u[1..]);
          assert u[1] == u[1..][0];
        }
      }
      assert s[k + j] == u[j];
    }
    if IsPartialNumeral(s) {
      NumeralUnsigned(s);
      DigitsWithPointValue(Magnitude(s));
      MagnitudeDigits(s);
    }
  }

  /** A text without a non-zero digit has a zero mantissa. */
  lemma MantissaZeroWithoutNonZeroDigit(s: string)
    requires !HasNonZeroDigit(s)
    ensures MantissaIsZero(Unsigned(s))
  {
    var u := Unsigned(s);
    UnsignedIsSuffix(s);
    var k := |s| - |u|;
    MantissaChars(u);
    forall i | 0 <= i < MantissaLength(u) ensures u[i] == '0' || u[i] == '.' {
      assert u[i] == s[k + i];
    }
  }

  /** A text that starts with a non-zero digit has a non-zero mantissa. */
  lemma MantissaNonZeroAfterNonZeroDigit(s: string)
    requires |s| > 0 && '1' <= s[0] <= '9'
    ensures !MantissaIsZero(Unsigned(s))
  {
    var u := Unsigned(s);
    assert u == s by { UnsignedOfLiteral(s); }
    assert 1 <= MantissaLength(u) by {
      assert DigitRun(u) == 1 + DigitRun(u[1..]);
    }
    assert u[0] != '0' && u[0] != '.';
  }

  /** Both directions together, as `FloatvalIsZero` states them. */
  lemma MantissaZeroByDigits(s: string)
    ensures !HasNonZeroDigit(s) ==> MantissaIsZero(Unsigned(s))
    ensures |s| > 0 && '1' <= s[0] <= '9' ==> !MantissaIsZero(Unsigned(s))
  {
    if !HasNonZeroDigit(s) {
      MantissaZeroWithoutNonZeroDigit(s);
    }
    if |s| > 0 && '1' <= s[0] <= '9' {
      MantissaNonZeroAfterNonZeroDigit(s);
    }
  }


  /** On digits with at most one point the whole string is the mantissa. */
  lemma DigitsWithPointIsMantissa(b: string)
    requires IsDigitsWithPoint(b)
    ensures MantissaLength(b) == |b|
  {
    DigitRunIsMaximal(b);
    var d := DigitRun(b);
    if d < |b| {
      assert b[d] == '.';
      var tail := b[d + 1..];
      forall k | 0 <= k < |tail| ensures IsDigit(tail[k]) {
        assert tail[k] == b[d + 1 + k];
      }
      DigitRunIsMaximal(tail);
    }
  }

  /** Digits with at most one point are numeric when they hold a digit, and zero when every digit is '0'. */
  lemma DigitsWithPointValue(b: string)
    requires IsDigitsWithPoint(b)
    ensures IsNumericBody(b) <==> HasDigit(b)
    ensures MantissaIsZero(b) <==> DigitsAllZero(b)
  {
    DigitsWithPointIsMantissa(b);
    DigitRunIsMaximal(b);
    assert b[|b|..] == [];
    assert ExponentLength(b[|b|..]) == 0;
    if HasDigit(b) {
      var i :| 0 <= i < |b| && IsDigit(b[i]);
      assert MantissaHasDigit(b) by {
        if |b| == 1 { assert i == 0; }
      }
    }
    if |b| > 1 && !IsDigit(b[0]) {
      assert b[0] == '.' && b[1] != '.';
      assert IsDigit(b[1]);
    }
  }

  /** A partial numeral has no whitespace in front, so its sign-free body is its magnitude. */
  lemma NumeralUnsigned(s: string)
    requires IsPartialNumeral(s)
    ensures Unsigned(s) == Magnitude(s)
  {
    assert WhitespaceRun(s) == 0 by {
      if |s| > 0 && s[0] != '-' { assert s[0] == Magnitude(s)[0]; }
    }
  }

  /** Dropping a leading `-` neither adds nor removes a digit. */
  lemma MagnitudeDigits(s: string)
    ensures HasDigit(s) <==> HasDigit(Magnitude(s))
    ensures DigitsAllZero(s) <==> DigitsAllZero(Magnitude(s))
  {
    var b := Magnitude(s);
    if b != s {
      assert forall i :: 0 <= i < |b| ==> b[i] == s[i + 1];
      if HasDigit(s) {
        var i :| 0 <= i < |s| && IsDigit(s[i]);
        assert IsDigit(b[i - 1]);
      }
      if HasDigit(b) {
        var i :| 0 <= i < |b| && IsDigit(b[i]);
        assert IsDigit(s[i + 1]);
      }
      if DigitsAllZero(b) {
        forall i | 0 <= i < |s| && IsDigit(s[i]) ensures s[i] == '0' {
          assert s[i] == b[i - 1];
        }
      }
    }
  }

  /**
   On a partial numeral the loose comparison with '0' holds exactly when the
   numeral has a digit and every digit is '0': "0", "0.", ".0", "00", "-0.0"
   are all zero for `==`, while "", ".", "-" are not.
   */
  lemma NumeralLooselyZero(s: string)
    requires IsPartialNumeral(s)
    ensures LooselyEqualsZero(s) <==> HasDigit(s) && DigitsAllZero(s)
  {
    NumeralUnsigned(s);
    DigitsWithPointValue(Magnitude(s));
    MagnitudeDigits(s);
    ZeroTextIsNumeric();
  }

  /** The loose comparison with '0' in terms of the sign-free body. */
  lemma LooselyZeroByBody(s: string)
    ensures LooselyEqualsZero(s) <==> IsNumericBody(Unsigned(s)) && MantissaIsZero(Unsigned(s))
  {
    ZeroTextIsNumeric();
  }

  /** A non-empty mantissa with a digit starts with a digit or a point. */
  lemma MantissaStart(u: string)
    requires MantissaHasDigit(u)
    ensures |u| > 0 && (IsDigit(u[0]) || u[0] == '.')
  {
    DigitRunIsMaximal(u);
    if DigitRun(u) == 0 {
      assert u[0] == '.';
    }
  }

  /** A text that starts with a digit or a point has neither whitespace nor sign in front. */
  lemma UnsignedOfLiteral(u: string)
    requires |u| > 0 && (IsDigit(u[0]) || u[0] == '.')
    ensures Unsigned(u) == u
  {
    assert WhitespaceRun(u) == 0;
  }

  /** The sign-free body of "-" followed by `s` is `s`. */
  lemma UnsignedOfNegated(s: string)
    ensures Unsigned("-" + s) == s
  {
    var t := "-" + s;
    assert WhitespaceRun(t) == 0;
    assert t[1..] == s;
  }

  /**
   Prefixing a minus sign cannot turn a string without `-` that is not
   loosely "0" into one that is.
   */
  lemma NegationKeepsNonZero(s: string)
    requires '-' !in s
    requires !LooselyEqualsZero(s)
    ensures !LooselyEqualsZero("-" + s)
  {
    LooselyZeroByBody(s);
    LooselyZeroByBody("-" + s);
    UnsignedOfNegated(s);
    if IsNumericBody(s) {
      MantissaStart(s);
      UnsignedOfLiteral(s);
    }
  }

  /** Removing every `-` from "-" followed by a string without `-` gives that string back. */
  lemma {:induction false} RemoveAllOfNegated(s: string)
    requires '-' !in s
    ensures RemoveAll("-" + s, '-') == s
  {
    assert ("-" + s)[1..] == s;
  }
}
