/**
 * JavaScript's global `parseFloat`, over exact reals: the longest prefix of
 * the string, after leading whitespace, that reads as a decimal literal
 * (`StrDecimalLiteral` of ECMAScript: optional sign, digits, an optional
 * fraction and an optional exponent), or NaN (`None`) when no prefix does.
 * The scanner works on positions in the string rather than on slices of it.
 */
module JsNumber {
  import opened Wrappers
  import JsString

  predicate IsDigit(c: char)
  {
    '0' <= c <= '9'
  }

  predicate AllDigits(s: string)
  {
    forall i :: 0 <= i < |s| ==> IsDigit(s[i])
  }

  /** The index of the first character at or after `i` that is not a decimal digit, or `|s|`. */
  function DigitEnd(s: string, i: nat): (j: nat)
    requires i <= |s|
    ensures i <= j <= |s|
    ensures j < |s| ==> !IsDigit(s[j])
    decreases |s| - i
  {
    if i < |s| && IsDigit(s[i]) then DigitEnd(s, i + 1) else i
  }

  /** The number a string of decimal digits denotes (each character counts as its distance from `0`). */
  function DigitsValue(s: string): int
  {
    if |s| == 0 then 0 else 10 * DigitsValue(s[..|s| - 1]) + (s[|s| - 1] as int - '0' as int)
  }

  /** `DigitsValue` of the characters from `i` up to `j`. */
  function ValueOf(s: string, i: nat, j: nat): int
    requires i <= j <= |s|
    decreases j - i
  {
    if i == j then 0 else 10 * ValueOf(s, i, j - 1) + (s[j - 1] as int - '0' as int)
  }

  function Pow10(n: nat): (r: real)
    ensures r >= 1.0
  {
    if n == 0 then 1.0 else 10.0 * Pow10(n - 1)
  }

  /** `10^e` for a signed exponent. */
  function Scale(e: int): (r: real)
    ensures r > 0.0
  {
    if e >= 0 then Pow10(e) else 1.0 / Pow10(-e)
  }

  /** The value of the decimal `whole.fraction`. */
  function DecimalValue(whole: string, fraction: string): real
  {
    DigitsValue(whole) as real + DigitsValue(fraction) as real / Pow10(|fraction|)
  }

  /**
   * The exponent part at index `k`: `e` or `E`, an optional sign and at
   * least one digit; 0 when no complete one starts there (the incomplete
   * part is then not part of the literal).
   */
  function ExponentAt(s: string, k: nat): int
    requires k <= |s|
  {
    if k + 1 < |s| && (s[k] == 'e' || s[k] == 'E') then
      var start := if s[k + 1] == '+' || s[k + 1] == '-' then k + 2 else k + 1;
      var end := DigitEnd(s, start);
      if end == start then 0
      else if s[k + 1] == '-' then -ValueOf(s, start, end)
      else ValueOf(s, start, end)
    else 0
  }

  /** A decimal literal as read: the values of its whole and fractional digits, how many fractional digits, and its exponent. */
  datatype Literal = Literal(whole: int, fraction: int, fractionDigits: nat, exponent: int)

  /** The number a literal denotes: `whole.fraction` times ten to the exponent. */
  function LiteralValue(l: Literal): real
  {
    (l.whole as real + l.fraction as real / Pow10(l.fractionDigits)) * Scale(l.exponent)
  }

  /**
   * The literal at index `i`, which holds no whitespace or sign in front:
   * digits, then a dot and more digits when a dot follows, then an
   * exponent; none when there is no digit before or after the dot.
   */
  function ScanAt(s: string, i: nat): Option<Literal>
    requires i <= |s|
  {
    var w := DigitEnd(s, i);
    var dot := w < |s| && s[w] == '.';
    var f := if dot then DigitEnd(s, w + 1) else w;
    if w == i && (!dot || f == w + 1) then None
    else if dot then Some(Literal(ValueOf(s, i, w), ValueOf(s, w + 1, f), f - w - 1, ExponentAt(s, f)))
    else Some(Literal(ValueOf(s, i, w), 0, 0, ExponentAt(s, w)))
  }

  /** The number at index `i`, or NaN. */
  function ParseUnsignedAt(s: string, i: nat): Option<real>
    requires i <= |s|
  {
    var l := ScanAt(s, i);
    if l.None? then None else Some(LiteralValue(l.value))
  }

  /** Unary minus, which leaves NaN as it is. */
  function Negate(r: Option<real>): Option<real>
  {
    match r
    case Some(v) => Some(-v)
    case None => None
  }

  /** `parseFloat(s)`; `None` is NaN. */
  function ParseFloat(s: string): Option<real>
  {
    var i := JsString.SpaceEnd(s, 0);
    if i < |s| && s[i] == '-' then Negate(ParseUnsignedAt(s, i + 1))
    else if i < |s| && s[i] == '+' then ParseUnsignedAt(s, i + 1)
    else ParseUnsignedAt(s, i)
  }

  /** The decimal numeral of a natural number, as `String(n)` writes it. */
  function NatToString(n: nat): (s: string)
    ensures |s| >= 1 && AllDigits(s)
  {
    if n < 10 then [('0' as int + n) as char]
    else NatToString(n / 10) + [('0' as int + n % 10) as char]
  }

  lemma {:induction false} NatToStringValue(n: nat)
    ensures DigitsValue(NatToString(n)) == n
  {
    if n >= 10 {
      var s := NatToString(n);
      assert s[..|s| - 1] == NatToString(n / 10);
      NatToStringValue(n / 10);
    }
  }

  /** A number starts at index `u`: a digit, or a dot and a digit. */
  predicate StartsNumber(s: string, u: nat)
  {
    (u < |s| && IsDigit(s[u])) || (u + 1 < |s| && s[u] == '.' && IsDigit(s[u + 1]))
  }

  /** `parseFloat` is NaN exactly when, after whitespace and one sign, neither a digit nor a dot and a digit follows. */
  lemma ParseFloatNaN(s: string)
    ensures ParseFloat(s).None? <==>
      var i := JsString.SpaceEnd(s, 0);
      var u := if i < |s| && (s[i] == '-' || s[i] == '+') then i + 1 else i;
      !StartsNumber(s, u)
  {
    var i := JsString.SpaceEnd(s, 0);
    var u := if i < |s| && (s[i] == '-' || s[i] == '+') then i + 1 else i;
    ParseUnsignedNaN(s, u);
  }

  lemma ParseUnsignedNaN(s: string, u: nat)
    requires u <= |s|
    ensures ParseUnsignedAt(s, u).None? <==> !StartsNumber(s, u)
  {
  }

  /** `DigitEnd` stops at the first non-digit after a run of digits. */
  lemma {:induction false} DigitEndOver(s: string, i: nat, j: nat)
    requires i <= j <= |s|
    requires forall k :: i <= k < j ==> IsDigit(s[k])
    requires j == |s| || !IsDigit(s[j])
    ensures DigitEnd(s, i) == j
    decreases j - i
  {
    if i < j {
      DigitEndOver(s, i + 1, j);
    }
  }

  /** `DigitEnd` skips only digits: everything from `i` up to it is a digit. */
  lemma {:induction false} DigitEndSkipsDigits(s: string, i: nat)
    requires i <= |s|
    ensures forall k :: i <= k < DigitEnd(s, i) ==> IsDigit(s[k])
    decreases |s| - i
  {
    if i < |s| && IsDigit(s[i]) {
      DigitEndSkipsDigits(s, i + 1);
    }
  }

  /** `ValueOf` is `DigitsValue` of the slice. */
  lemma {:induction false} ValueOfSlice(s: string, i: nat, j: nat)
    requires i <= j <= |s|
    ensures ValueOf(s, i, j) == DigitsValue(s[i..j])
    decreases j - i
  {
    if i < j {
      ValueOfSlice(s, i, j - 1);
      assert s[i..j][..j - i - 1] == s[i..j - 1];
    }
  }

  lemma {:induction false} DigitEndShift(p: string, s: string, i: nat)
    requires i <= |s|
    ensures DigitEnd(p + s, |p| + i) == |p| + DigitEnd(s, i)
    decreases |s| - i
  {
    if i < |s| {
      assert (p + s)[|p| + i] == s[i];
      DigitEndShift(p, s, i + 1);
    }
  }

  lemma {:induction false} ValueOfShift(p: string, s: string, i: nat, j: nat)
    requires i <= j <= |s|
    ensures ValueOf(p + s, |p| + i, |p| + j) == ValueOf(s, i, j)
    decreases j - i
  {
    if i < j {
      assert (p + s)[|p| + j - 1] == s[j - 1];
      ValueOfShift(p, s, i, j - 1);
    }
  }

  lemma ExponentShift(p: string, s: string, k: nat)
    requires k <= |s|
    ensures ExponentAt(p + s, |p| + k) == ExponentAt(s, k)
  {
    if k + 1 < |s| && (s[k] == 'e' || s[k] == 'E') {
      var start := if s[k + 1] == '+' || s[k + 1] == '-' then k + 2 else k + 1;
      assert (p + s)[|p| + k] == s[k] && (p + s)[|p| + k + 1] == s[k + 1];
      DigitEndShift(p, s, start);
      ValueOfShift(p, s, start, DigitEnd(s, start));
    }
  }

  /** What follows a prefix is read as if the prefix were not there. */
  lemma ScanShift(p: string, s: string, i: nat)
    requires i <= |s|
    ensures ScanAt(p + s, |p| + i) == ScanAt(s, i)
  {
    var t := p + s;
    var w := DigitEnd(s, i);
    DigitEndShift(p, s, i);
    ValueOfShift(p, s, i, w);
    if w < |s| && s[w] == '.' {
      assert t[|p| + w] == s[w];
      var f := DigitEnd(s, w + 1);
      DigitEndShift(p, s, w + 1);
      ValueOfShift(p, s, w + 1, f);
      ExponentShift(p, s, f);
    } else {
      assert w < |s| ==> t[|p| + w] == s[w];
      ExponentShift(p, s, w);
    }
  }

  /** With no whitespace or sign in front, `parseFloat` reads the number at the start. */
  lemma ParseFloatUnsigned(s: string)
    requires s == [] || !(JsString.IsSpace(s[0]) || s[0] == '-' || s[0] == '+')
    ensures ParseFloat(s) == ParseUnsignedAt(s, 0)
  {
  }

  lemma ParseFloatMinus(s: string)
    ensures ParseFloat("-" + s) == Negate(ParseUnsignedAt(s, 0))
  {
    ScanShift("-", s, 0);
  }

  /** A minus sign in front negates the number `parseFloat` reads, and NaN stays NaN. */
  lemma ParseFloatNegative(s: string)
    requires s == [] || !(JsString.IsSpace(s[0]) || s[0] == '-' || s[0] == '+')
    ensures ParseFloat("-" + s) == Negate(ParseFloat(s))
  {
    ParseFloatMinus(s);
    ParseFloatUnsigned(s);
  }

  /** What `parseFloat` reads from a run of digits, stopped by a character that cannot continue a number. */
  lemma ParseDigitsThenStop(digits: string, rest: string)
    requires |digits| > 0 && AllDigits(digits)
    requires rest == [] || !(IsDigit(rest[0]) || rest[0] == '.' || rest[0] == 'e' || rest[0] == 'E')
    ensures ParseFloat(digits + rest) == Some(DigitsValue(digits) as real)
  {
    var s := digits + rest;
    assert ParseFloat(s) == ParseUnsignedAt(s, 0) by {
      assert s[0] == digits[0];
      ParseFloatUnsigned(s);
    }
    assert ScanAt(s, 0) == Some(Literal(DigitsValue(digits), 0, 0, 0)) by {
      ScanDigitsThenStop(digits, rest);
    }
    LiteralOfWhole(DigitsValue(digits));
  }

  lemma ScanDigitsThenStop(digits: string, rest: string)
    requires |digits| > 0 && AllDigits(digits)
    requires rest == [] || !(IsDigit(rest[0]) || rest[0] == '.' || rest[0] == 'e' || rest[0] == 'E')
    ensures ScanAt(digits + rest, 0) == Some(Literal(DigitsValue(digits), 0, 0, 0))
  {
    var s := digits + rest;
    var w := |digits|;
    assert w < |s| ==> s[w] == rest[0];
    assert forall k :: 0 <= k < w ==> s[k] == digits[k];
    ScanDigitsAt(s, w);
    assert ValueOf(s, 0, w) == DigitsValue(digits) by {
      ValueOfSlice(s, 0, w);
      assert s[0..w] == digits;
    }
  }

  /** A run of digits at the start, stopped by a character that cannot continue a number, is read as a whole number. */
  lemma ScanDigitsAt(s: string, w: nat)
    requires 0 < w <= |s|
    requires forall k :: 0 <= k < w ==> IsDigit(s[k])
    requires w == |s| || !(IsDigit(s[w]) || s[w] == '.' || s[w] == 'e' || s[w] == 'E')
    ensures ScanAt(s, 0) == Some(Literal(ValueOf(s, 0, w), 0, 0, 0))
  {
    DigitEndOver(s, 0, w);
  }

  /** A literal without fraction or exponent denotes its whole part. */
  lemma LiteralOfWhole(n: int)
    ensures LiteralValue(Literal(n, 0, 0, 0)) == n as real
  {
    assert Pow10(0) == 1.0 && Scale(0) == 1.0;
  }

  /** A literal without exponent denotes its whole part plus its fraction. */
  lemma LiteralOfDecimal(whole: int, fraction: int, digits: nat)
    ensures LiteralValue(Literal(whole, fraction, digits, 0)) == whole as real + fraction as real / Pow10(digits)
  {
    assert Scale(0) == 1.0;
  }

  /** What `parseFloat` reads from `whole.fraction`, stopped by a character that cannot continue a number. */
  lemma ParseDecimalThenStop(whole: string, fraction: string, rest: string)
    requires |whole| > 0 && AllDigits(whole) && AllDigits(fraction)
    requires rest == [] || !(IsDigit(rest[0]) || rest[0] == 'e' || rest[0] == 'E')
    ensures ParseFloat(whole + "." + fraction + rest) == Some(DecimalValue(whole, fraction))
  {
    var s := whole + "." + fraction + rest;
    assert ParseFloat(s) == ParseUnsignedAt(s, 0) by {
      assert s[0] == whole[0];
      ParseFloatUnsigned(s);
    }
    assert ScanAt(s, 0) == Some(Literal(DigitsValue(whole), DigitsValue(fraction), |fraction|, 0)) by {
      ScanDecimalThenStop(whole, fraction, rest);
    }
    LiteralOfDecimal(DigitsValue(whole), DigitsValue(fraction), |fraction|);
  }

  lemma ScanDecimalThenStop(whole: string, fraction: string, rest: string)
    requires |whole| > 0 && AllDigits(whole) && AllDigits(fraction)
    requires rest == [] || !(IsDigit(rest[0]) || rest[0] == 'e' || rest[0] == 'E')
    ensures ScanAt(whole + "." + fraction + rest, 0) ==
      Some(Literal(DigitsValue(whole), DigitsValue(fraction), |fraction|, 0))
  {
    var s := whole + "." + fraction + rest;
    var w := |whole|;
    var f := w + 1 + |fraction|;
    assert s[w] == '.';
    assert forall k :: 0 <= k < w ==> s[k] == whole[k];
    assert forall k :: w < k < f ==> s[k] == fraction[k - w - 1];
    assert f < |s| ==> s[f] == rest[0];
    ScanDecimalAt(s, w, f);
    assert ValueOf(s, 0, w) == DigitsValue(whole) by {
      ValueOfSlice(s, 0, w);
      assert s[0..w] == whole;
    }
    assert ValueOf(s, w + 1, f) == DigitsValue(fraction) by {
      ValueOfSlice(s, w + 1, f);
      assert s[w + 1..f] == fraction;
    }
  }

  /** Digits, a dot and more digits at the start, stopped by a character that cannot continue a number, are read as a decimal. */
  lemma ScanDecimalAt(s: string, w: nat, f: nat)
    requires 0 < w < f <= |s| && s[w] == '.'
    requires forall k :: 0 <= k < w ==> IsDigit(s[k])
    requires forall k :: w < k < f ==> IsDigit(s[k])
    requires f == |s| || !(IsDigit(s[f]) || s[f] == 'e' || s[f] == 'E')
    ensures ScanAt(s, 0) == Some(Literal(ValueOf(s, 0, w), ValueOf(s, w + 1, f), f - w - 1, 0))
  {
    DigitEndOver(s, 0, w);
    DigitEndOver(s, w + 1, f);
  }

  /** Parsing the numeral of a natural number gives the number back. */
  lemma NatRoundTrip(n: nat)
    ensures ParseFloat(NatToString(n)) == Some(n as real)
  {
    NatToStringValue(n);
    ParseDigitsThenStop(NatToString(n), []);
    assert NatToString(n) + [] == NatToString(n);
  }
}
