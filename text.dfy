/**
 * The .NET string and number-parsing primitives the two pages rely on:
 * `string.IsNullOrEmpty`, `string.IsNullOrWhiteSpace`, `int.TryParse` / `int.Parse`,
 * `decimal.TryParse` / `decimal.Parse`, and the invariant-culture `ToString` of integers
 * and fixed-point decimals that fills the editor's text boxes.
 * A text box never holds null, so "null or" is not modelled.
 */
module DotNetText {
  import opened Wrappers

  const MinInt32: int := -0x8000_0000
  const MaxInt32: int := 0x7FFF_FFFF

  /** `Char.IsWhiteSpace`: the Unicode separators plus the control characters U+0009..U+000D, U+0085. */
  predicate IsWhiteSpace(c: char)
  {
    var n := c as int;
    n == 0x20 || 0x09 <= n <= 0x0D || n == 0x85 || n == 0xA0 || n == 0x1680
    || 0x2000 <= n <= 0x200A || n == 0x2028 || n == 0x2029 || n == 0x202F
    || n == 0x205F || n == 0x3000
  }

  predicate IsNullOrEmpty(s: string)
  {
    |s| == 0
  }

  predicate IsNullOrWhiteSpace(s: string)
  {
    forall i :: 0 <= i < |s| ==> IsWhiteSpace(s[i])
  }

  /** The white space the number parser skips around a number: U+0009..U+000D and U+0020. */
  predicate IsNumberWhite(c: char)
  {
    c == ' ' || '\t' <= c <= '\r'
  }

  predicate IsDigit(c: char)
  {
    '0' <= c <= '9'
  }

  predicate AllDigits(s: string)
  {
    forall i :: 0 <= i < |s| ==> IsDigit(s[i])
  }

  function DropLeadingWhite(s: string): (r: string)
    ensures |r| <= |s|
  {
    if s != [] && IsNumberWhite(s[0]) then DropLeadingWhite(s[1..]) else s
  }

  function DropTrailingWhite(s: string): (r: string)
    ensures |r| <= |s|
  {
    if s != [] && IsNumberWhite(s[|s| - 1]) then DropTrailingWhite(s[..|s| - 1]) else s
  }

  function TrimNumberWhite(s: string): (r: string)
  {
    DropTrailingWhite(DropLeadingWhite(s))
  }

  lemma {:induction false} DropLeadingIsSuffix(s: string)
    ensures DropLeadingWhite(s) == s[|s| - |DropLeadingWhite(s)|..]
  {
    if s != [] && IsNumberWhite(s[0]) {
      DropLeadingIsSuffix(s[1..]);
    }
  }

  lemma {:induction false} DropTrailingIsPrefix(s: string)
    ensures DropTrailingWhite(s) == s[..|DropTrailingWhite(s)|]
  {
    if s != [] && IsNumberWhite(s[|s| - 1]) {
      DropTrailingIsPrefix(s[..|s| - 1]);
    }
  }

  lemma TrimmedChars(s: string)
    ensures forall k :: 0 <= k < |TrimNumberWhite(s)| ==> TrimNumberWhite(s)[k] in s
  {
    var l := DropLeadingWhite(s);
    DropLeadingIsSuffix(s);
    DropTrailingIsPrefix(l);
    forall k | 0 <= k < |TrimNumberWhite(s)|
      ensures TrimNumberWhite(s)[k] in s
    {
      assert TrimNumberWhite(s)[k] == l[k] == s[|s| - |l| + k];
    }
  }

  /** The value of a run of decimal digits, most significant first. */
  function DigitsValue(s: string): (v: nat)
    requires AllDigits(s)
  {
    if s == [] then 0
    else DigitsValue(s[..|s| - 1]) * 10 + (s[|s| - 1] as int - '0' as int)
  }

  /** `int.TryParse(s, out n)` under NumberStyles.Integer: [ws][sign]digits[ws], in Int32 range. */
  function ParseInt32(s: string): (r: Option<int>)
    ensures r.Some? ==> MinInt32 <= r.value <= MaxInt32
    ensures r.Some? ==> exists i :: 0 <= i < |s| && IsDigit(s[i])
  {
    var t := TrimNumberWhite(s);
    if t == [] then None
    else
      var body := if t[0] == '-' || t[0] == '+' then t[1..] else t;
      if body == [] || !AllDigits(body) then None
      else
        var v: int := if t[0] == '-' then 0 - DigitsValue(body) else DigitsValue(body);
        assert body[0] in s by {
          TrimmedChars(s);
          assert body[0] == t[|t| - |body|];
        }
        if MinInt32 <= v <= MaxInt32 then Some(v) else None
  }

  function DigitChar(d: int): (r: char)
    requires 0 <= d < 10
  {
    ('0' as int + d) as char
  }

  /** The shortest decimal digits of `n`. */
  function NatDigits(n: nat): (s: string)
  {
    if n < 10 then [DigitChar(n)] else NatDigits(n / 10) + [DigitChar(n % 10)]
  }

  /** `n.ToString()` for an `int` under the invariant culture. */
  function FormatInt(n: int): (r: string)
  {
    if n < 0 then "-" + NatDigits(-n) else NatDigits(n)
  }

  lemma {:induction false} NatDigitsValue(n: nat)
    ensures |NatDigits(n)| > 0 && AllDigits(NatDigits(n))
    ensures DigitsValue(NatDigits(n)) == n
  {
    if n >= 10 {
      NatDigitsValue(n / 10);
      var s := NatDigits(n);
      assert s[..|s| - 1] == NatDigits(n / 10);
    }
  }

  /** Text that neither starts nor ends with number white space is left alone by the trim. */
  lemma TrimTight(s: string)
    requires s != [] && !IsNumberWhite(s[0]) && !IsNumberWhite(s[|s| - 1])
    ensures TrimNumberWhite(s) == s
  {
    assert DropLeadingWhite(s) == s;
  }

  /** What `ToString` prints, `int.TryParse` reads back unchanged. */
  lemma FormatIntRoundTrip(n: int)
    requires MinInt32 <= n <= MaxInt32
    ensures ParseInt32(FormatInt(n)) == Some(n)
  {
    var m := if n < 0 then -n else n;
    NatDigitsValue(m);
    var digits := NatDigits(m);
    var s := FormatInt(n);
    assert s[|s| - 1] == digits[|digits| - 1];
    TrimTight(s);
    if n < 0 {
      assert s[0] == '-' && s[1..] == digits;
    } else {
      assert s == digits && s[0] != '-' && s[0] != '+';
    }
  }

  function Pow10(k: nat): (p: nat)
    ensures p >= 1
  {
    if k == 0 then 1 else 10 * Pow10(k - 1)
  }

  /** Index of the first '.' in `s`, or |s| when there is none. */
  function PointAt(s: string): (i: nat)
    ensures i <= |s|
    ensures i < |s| ==> s[i] == '.'
    ensures forall j :: 0 <= j < i ==> s[j] != '.'
  {
    if s == [] then 0
    else if s[0] == '.' then 0
    else 1 + PointAt(s[1..])
  }

  /**
   * `decimal.TryParse(s, out d)` for the invariant culture, without group separators or a
   * trailing sign: [ws][sign]digits[.digits][ws] with at least one digit.
   */
  function ParseDecimal(s: string): (r: Option<real>)
  {
    var t := TrimNumberWhite(s);
    if t == [] then None
    else
      var body := if t[0] == '-' || t[0] == '+' then t[1..] else t;
      match UnsignedDecimal(body)
      case None => None
      case Some(v) => Some(if t[0] == '-' then -v else v)
  }

  /** digits[.digits] with at least one digit: whole + fraction / 10^|fraction|. */
  function UnsignedDecimal(body: string): (r: Option<real>)
    ensures r.Some? ==> exists i :: 0 <= i < |body| && IsDigit(body[i])
    ensures r.Some? ==> r.value >= 0.0
  {
    var i := PointAt(body);
    var whole := body[..i];
    var fraction := if i < |body| then body[i + 1..] else [];
    if |whole| + |fraction| == 0 || !AllDigits(whole) || !AllDigits(fraction) then None
    else
      assert if whole != [] then IsDigit(body[0]) else IsDigit(body[i + 1]);
      Some(DecimalValue(whole, fraction))
  }

  /** The value of the numeral whole.fraction. */
  function DecimalValue(whole: string, fraction: string): (r: real)
    requires AllDigits(whole) && AllDigits(fraction)
    ensures r >= DigitsValue(whole) as real >= 0.0
  {
    NonnegativeQuotient(DigitsValue(fraction), Pow10(|fraction|));
    DigitsValue(whole) as real + DigitsValue(fraction) as real / Pow10(|fraction|) as real
  }

  lemma NonnegativeQuotient(a: nat, b: nat)
    requires b >= 1
    ensures a as real / b as real >= 0.0
  {
  }

  /** `d.ToString()` of a non-negative decimal with `scale` fraction digits: `units` / 10^scale. */
  function FormatFixed(units: nat, scale: nat): (r: string)
  {
    var digits := ZeroPad(NatDigits(units), scale + 1);
    if scale == 0 then digits
    else digits[..|digits| - scale] + "." + digits[|digits| - scale..]
  }

  function ZeroPad(s: string, width: nat): (r: string)
    ensures |r| >= width && |r| >= |s|
    decreases width - |s|
  {
    if |s| >= width then s else ZeroPad("0" + s, width)
  }

  lemma ShiftDigit(a: int, p: int, b: int, d: int)
    ensures (a * p + b) * 10 + d == a * (p * 10) + (b * 10 + d)
  {
  }

  lemma {:induction false} DigitsValueAppend(a: string, b: string)
    requires AllDigits(a) && AllDigits(b)
    ensures AllDigits(a + b)
    ensures DigitsValue(a + b) == DigitsValue(a) * Pow10(|b|) + DigitsValue(b)
  {
    if b != [] {
      var b' := b[..|b| - 1];
      var d := b[|b| - 1] as int - '0' as int;
      DigitsValueAppend(a, b');
      assert (a + b)[..|a + b| - 1] == a + b';
      assert (a + b)[|a + b| - 1] == b[|b| - 1];
      assert DigitsValue(a + b) == DigitsValue(a + b') * 10 + d;
      assert DigitsValue(b) == DigitsValue(b') * 10 + d;
      assert Pow10(|b|) == Pow10(|b'|) * 10;
      var A, P', B' := DigitsValue(a), Pow10(|b'|), DigitsValue(b');
      ShiftDigit(A, P', B', d);
    } else {
      assert a + b == a;
    }
  }

  lemma {:induction false} ZeroPadValue(s: string, width: nat)
    requires AllDigits(s)
    ensures AllDigits(ZeroPad(s, width)) && DigitsValue(ZeroPad(s, width)) == DigitsValue(s)
    decreases width - |s|
  {
    if |s| < width {
      DigitsValueAppend("0", s);
      ZeroPadValue("0" + s, width);
    }
  }

  lemma {:induction false} PointAfterDigits(a: string, rest: string)
    requires AllDigits(a) && (rest == [] || rest[0] == '.')
    ensures PointAt(a + rest) == |a|
  {
    if a != [] {
      assert (a + rest)[1..] == a[1..] + rest;
      PointAfterDigits(a[1..], rest);
    } else {
      assert a + rest == rest;
    }
  }

  /** A plain `whole.fraction` numeral reads as whole + fraction / 10^|fraction|. */
  lemma ParsePointDecimal(whole: string, fraction: string)
    requires whole != [] && fraction != [] && AllDigits(whole) && AllDigits(fraction)
    ensures ParseDecimal(whole + "." + fraction) == Some(DecimalValue(whole, fraction))
  {
    var s := whole + "." + fraction;
    assert s[0] == whole[0];
    assert s[|s| - 1] == fraction[|fraction| - 1];
    TrimTight(s);
    assert s[0] != '-' && s[0] != '+';
    PointAfterDigits(whole, "." + fraction);
    assert s == whole + ("." + fraction);
    assert s[..|whole|] == whole;
    assert s[|whole| + 1..] == fraction;
    assert UnsignedDecimal(s) == Some(DecimalValue(whole, fraction));
  }

  /** A plain digit run reads as its integer value. */
  lemma ParseWholeDecimal(whole: string)
    requires whole != [] && AllDigits(whole)
    ensures ParseDecimal(whole) == Some(DecimalValue(whole, []))
  {
    assert whole[0] != '-' && whole[0] != '+';
    TrimTight(whole);
    PointAfterDigits(whole, []);
    assert whole + [] == whole;
    assert whole[..|whole|] == whole;
    assert UnsignedDecimal(whole) == Some(DecimalValue(whole, []));
  }

  /** What a decimal's `ToString` prints, `decimal.TryParse` reads back as the same value. */
  lemma FormatFixedRoundTrip(units: nat, scale: nat)
    ensures ParseDecimal(FormatFixed(units, scale)) == Some(units as real / Pow10(scale) as real)
  {
    var whole, fraction := FixedParts(units, scale);
    if scale == 0 {
      ParseWholeDecimal(whole);
    } else {
      ParsePointDecimal(whole, fraction);
    }
  }

  /** The two digit runs FormatFixed prints around the point, and the value they stand for. */
  lemma FixedParts(units: nat, scale: nat) returns (whole: string, fraction: string)
    ensures whole != [] && AllDigits(whole) && AllDigits(fraction) && |fraction| == scale
    ensures FormatFixed(units, scale) == if scale == 0 then whole else whole + "." + fraction
    ensures DecimalValue(whole, fraction) == units as real / Pow10(scale) as real
  {
    NatDigitsValue(units);
    ZeroPadValue(NatDigits(units), scale + 1);
    var digits := ZeroPad(NatDigits(units), scale + 1);
    var L := |digits|;
    whole, fraction := digits[..L - scale], digits[L - scale..];
    assert digits == whole + fraction;
    DigitsValueAppend(whole, fraction);
    SplitQuotient(units, DigitsValue(whole), Pow10(scale), DigitsValue(fraction));
  }

  lemma SplitQuotient(u: int, w: int, p: int, f: int)
    requires p >= 1 && u == w * p + f
    ensures u as real / p as real == w as real + f as real / p as real
  {
    var P := p as real;
    assert u as real == w as real * P + f as real;
    assert (w as real * P + f as real) / P == w as real * P / P + f as real / P;
    assert w as real * P / P == w as real;
  }
}
