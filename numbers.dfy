/** The number handling of the loader and the insight pages: the locale cleaning
    of numeric text (`.` deleted, then `,` turned into `.`), the parse that
    `pd.to_numeric(..., errors="coerce")` performs (a failure gives no value), and
    Python's `round`, which rounds half to even. Numbers are exact reals here. */
module Numbers {
  import opened Wrappers

  function CountChar(s: string, c: char): nat {
    if s == [] then 0 else (if s[0] == c then 1 else 0) + CountChar(s[1..], c)
  }

  /** `s.replace(c, "")`. */
  function DeleteChar(s: string, c: char): (r: string)
    ensures c !in r
    ensures |r| == |s| - CountChar(s, c)
  {
    if s == [] then [] else (if s[0] == c then [] else [s[0]]) + DeleteChar(s[1..], c)
  }

  /** `s.replace(a, b)` for one-character `a` and `b`. */
  function ReplaceChar(s: string, a: char, b: char): (r: string)
    ensures |r| == |s|
  {
    if s == [] then [] else [if s[0] == a then b else s[0]] + ReplaceChar(s[1..], a, b)
  }

  lemma {:induction false} CountAppend(a: string, b: string, c: char)
    ensures CountChar(a + b, c) == CountChar(a, c) + CountChar(b, c)
  {
    if a == [] {
      assert a + b == b;
    } else {
      assert (a + b)[1..] == a[1..] + b;
      CountAppend(a[1..], b, c);
    }
  }

  lemma {:induction false} CountReplace(s: string, a: char, b: char, c: char)
    requires a != b
    ensures CountChar(ReplaceChar(s, a, b), c) ==
      if c == a then 0
      else if c == b then CountChar(s, a) + CountChar(s, b)
      else CountChar(s, c)
  {
    if s != [] {
      CountReplace(s[1..], a, b, c);
      CountAppend([if s[0] == a then b else s[0]], ReplaceChar(s[1..], a, b), c);
    }
  }

  lemma {:induction false} CountDelete(s: string, a: char, c: char)
    ensures CountChar(DeleteChar(s, a), c) == if c == a then 0 else CountChar(s, c)
  {
    if s != [] {
      CountDelete(s[1..], a, c);
      CountAppend(if s[0] == a then [] else [s[0]], DeleteChar(s[1..], a), c);
    }
  }

  lemma {:induction false} DeleteReplace(s: string, a: char, b: char)
    ensures DeleteChar(ReplaceChar(s, a, b), b) == DeleteChar(DeleteChar(s, a), b)
  {
    if s != [] {
      DeleteReplace(s[1..], a, b);
      DeleteAppend([if s[0] == a then b else s[0]], ReplaceChar(s[1..], a, b), b);
      DeleteAppend(if s[0] == a then [] else [s[0]], DeleteChar(s[1..], a), b);
    }
  }

  lemma {:induction false} DeleteCommute(s: string, a: char, b: char)
    ensures DeleteChar(DeleteChar(s, a), b) == DeleteChar(DeleteChar(s, b), a)
  {
    if s != [] {
      DeleteCommute(s[1..], a, b);
      DeleteAppend(if s[0] == a then [] else [s[0]], DeleteChar(s[1..], a), b);
      DeleteAppend(if s[0] == b then [] else [s[0]], DeleteChar(s[1..], b), a);
    }
  }

  /** The locale cleaning of a numeric text value: every `.` (thousands separator)
      is deleted, then every `,` (decimal comma) becomes `.`. */
  function LocaleClean(s: string): (r: string)
    ensures |r| == |s| - CountChar(s, '.')
  {
    ReplaceChar(DeleteChar(s, '.'), ',', '.')
  }

  /** After cleaning there is no comma, the length drops by the number of dots,
      every comma became a dot, and all other characters are kept in order. */
  lemma LocaleCleanSpec(s: string)
    ensures ',' !in LocaleClean(s)
    ensures |LocaleClean(s)| == |s| - CountChar(s, '.')
    ensures CountChar(LocaleClean(s), '.') == CountChar(s, ',')
    ensures forall c :: c != '.' && c != ',' ==> CountChar(LocaleClean(s), c) == CountChar(s, c)
    ensures DeleteChar(LocaleClean(s), '.') == DeleteChar(DeleteChar(s, '.'), ',')
  {
    var d := DeleteChar(s, '.');
    forall c | true
      ensures CountChar(LocaleClean(s), c) ==
        if c == ',' then 0 else if c == '.' then CountChar(s, ',') else CountChar(s, c)
    {
      CountReplace(d, ',', '.', c);
      CountDelete(s, '.', c);
      CountDelete(s, '.', ',');
      CountDelete(s, '.', '.');
    }
    if ',' in LocaleClean(s) {
      CountPositive(LocaleClean(s), ',');
    }
    DeleteReplace(d, ',', '.');
    DeleteCommute(d, ',', '.');
    assert DeleteChar(d, '.') == d by {
      DeleteAbsent(d, '.');
    }
  }

  lemma {:induction false} CountPositive(s: string, c: char)
    requires c in s
    ensures CountChar(s, c) > 0
  {
    if s[0] != c {
      assert c in s[1..];
      CountPositive(s[1..], c);
    }
  }

  lemma {:induction false} DeleteAbsent(s: string, c: char)
    requires c !in s
    ensures DeleteChar(s, c) == s
  {
    if s != [] {
      DeleteAbsent(s[1..], c);
    }
  }

  // ---------------------------------------------------------------------------
  // Parsing
  // ---------------------------------------------------------------------------

  predicate IsDigit(c: char) { '0' <= c <= '9' }

  predicate AllDigits(s: string) {
    forall i :: 0 <= i < |s| ==> IsDigit(s[i])
  }

  function DigitValue(c: char): nat
    requires IsDigit(c)
  {
    c as int - '0' as int
  }

  /** The value of a string of decimal digits, most significant first. */
  function DigitsValue(s: string): nat
    requires AllDigits(s)
  {
    if s == [] then 0 else 10 * DigitsValue(s[..|s| - 1]) + DigitValue(s[|s| - 1])
  }

  function Pow10(k: nat): (r: nat)
    ensures r > 0
  {
    if k == 0 then 1 else 10 * Pow10(k - 1)
  }

  /** The position of the first `c` in `s`, or `|s|` when there is none. */
  function FirstIndex(s: string, c: char): (r: nat)
    ensures r <= |s| && c !in s[..r]
    ensures r < |s| ==> s[r] == c
  {
    if s == [] then 0
    else if s[0] == c then 0
    else
      assert s[..1 + FirstIndex(s[1..], c)] == [s[0]] + s[1..][..FirstIndex(s[1..], c)];
      1 + FirstIndex(s[1..], c)
  }

  /** The value of the decimal written `whole.frac`. */
  function DecimalValue(whole: string, frac: string): (v: real)
    requires AllDigits(whole) && AllDigits(frac)
    ensures v >= 0.0
  {
    DigitsValue(whole) as real + DigitsValue(frac) as real / Pow10(|frac|) as real
  }

  /** An unsigned decimal: digits, optionally a `.` followed by digits, with at
      least one digit in all ("12", "12.5", "12.", ".5"). */
  function ParseUnsigned(s: string): (r: Option<real>)
    ensures r.Some? ==> r.value >= 0.0
  {
    var k := FirstIndex(s, '.');
    var whole := s[..k];
    var frac := if k < |s| then s[k + 1..] else [];
    if AllDigits(whole) && AllDigits(frac) && |whole| + |frac| > 0 then
      Some(DecimalValue(whole, frac))
    else
      None
  }

  /** The part of `pd.to_numeric` modelled here: an optional sign and an unsigned
      decimal; anything else is not a number (`None`, which the loader turns into
      a missing value instead of an error). */
  function ParseDecimal(s: string): (r: Option<real>)
    ensures r.Some? && r.value < 0.0 ==> s != [] && s[0] == '-'
    ensures s != [] && s[0] == '-' && r.Some? ==> r.value <= 0.0
  {
    if s != [] && s[0] == '-' then
      match ParseUnsigned(s[1..])
      case Some(v) => Some(-v)
      case None => None
    else if s != [] && s[0] == '+' then ParseUnsigned(s[1..])
    else ParseUnsigned(s)
  }

  function DigitChar(d: nat): (c: char)
    requires d < 10
    ensures IsDigit(c) && DigitValue(c) == d
  {
    ('0' as int + d) as char
  }

  /** Decimal rendering of a natural number, as `str(n)` prints it. */
  function ShowNat(n: nat): (s: string)
    ensures AllDigits(s) && s != []
  {
    if n < 10 then [DigitChar(n)] else ShowNat(n / 10) + [DigitChar(n % 10)]
  }

  lemma {:induction false} ShowNatValue(n: nat)
    ensures DigitsValue(ShowNat(n)) == n
  {
    if n >= 10 {
      ShowNatValue(n / 10);
      var s := ShowNat(n);
      assert s[..|s| - 1] == ShowNat(n / 10);
    }
  }

  lemma {:induction false} NoDotInDigits(s: string)
    requires AllDigits(s)
    ensures '.' !in s && FirstIndex(s, '.') == |s|
  {
    if s != [] {
      assert IsDigit(s[0]);
      NoDotInDigits(s[1..]);
      assert s == [s[0]] + s[1..];
    }
  }

  /** Parsing what `str(n)` prints gives `n` back. */
  lemma ParseShowNat(n: nat)
    ensures ParseDecimal(ShowNat(n)) == Some(n as real)
  {
    var s := ShowNat(n);
    ShowNatValue(n);
    NoDotInDigits(s);
    assert s[..|s|] == s;
  }

  /** The parse of an unsigned decimal written as digits, a dot and digits. */
  lemma ParseWholeAndFraction(whole: string, frac: string)
    requires AllDigits(whole) && AllDigits(frac) && |whole| > 0
    ensures ParseDecimal(whole + "." + frac) == Some(DecimalValue(whole, frac))
  {
    var s := whole + "." + frac;
    assert s == whole + ("." + frac);
    assert s[0] == whole[0];
    assert IsDigit(s[0]);
    NoDotInDigits(whole);
    FirstIndexAfterPrefix(whole, "." + frac);
    assert s[..|whole|] == whole;
    assert s[|whole| + 1..] == frac;
    assert ParseDecimal(s) == ParseUnsigned(s);
    ParseUnsignedAt(s, |whole|);
  }

  lemma ParseUnsignedAt(s: string, k: nat)
    requires k < |s| && FirstIndex(s, '.') == k
    requires AllDigits(s[..k]) && AllDigits(s[k + 1..]) && k > 0
    ensures ParseUnsigned(s) == Some(DecimalValue(s[..k], s[k + 1..]))
  {
  }

  lemma {:induction false} FirstIndexAfterPrefix(p: string, t: string)
    requires '.' !in p && t != [] && t[0] == '.'
    ensures FirstIndex(p + t, '.') == |p|
  {
    if p == [] {
      assert p + t == t;
    } else {
      assert p[0] != '.';
      assert '.' !in p[1..];
      assert (p + t)[1..] == p[1..] + t;
      FirstIndexAfterPrefix(p[1..], t);
    }
  }

  /** A thousands-grouped amount with a decimal comma, e.g. "4.500.000,75": the
      cleaning drops the grouping dots and the parse reads the comma as the
      decimal point. */
  lemma ParseCleanedAmount(grouped: string, frac: string)
    requires forall i :: 0 <= i < |grouped| ==> IsDigit(grouped[i]) || grouped[i] == '.'
    requires DeleteChar(grouped, '.') != [] && AllDigits(frac)
    ensures AllDigits(DeleteChar(grouped, '.'))
    ensures ParseDecimal(LocaleClean(grouped + "," + frac)) == Some(DecimalValue(DeleteChar(grouped, '.'), frac))
  {
    DeleteKeepsDigits(grouped);
    CleanedAmountText(grouped, frac);
    ParseWholeAndFraction(DeleteChar(grouped, '.'), frac);
  }

  lemma CleanedAmountText(grouped: string, frac: string)
    requires AllDigits(DeleteChar(grouped, '.')) && AllDigits(frac)
    ensures LocaleClean(grouped + "," + frac) == DeleteChar(grouped, '.') + "." + frac
  {
    DeleteDotsOfAmount(grouped, frac);
    ReplaceCommaOfAmount(DeleteChar(grouped, '.'), frac);
  }

  lemma DeleteDotsOfAmount(grouped: string, frac: string)
    requires AllDigits(frac)
    ensures DeleteChar(grouped + "," + frac, '.') == DeleteChar(grouped, '.') + "," + frac
  {
    var t := "," + frac;
    NoDotInDigits(frac);
    assert t == [','] + frac;
    assert '.' !in t;
    DeleteAbsent(t, '.');
    DeleteAppend(grouped, t, '.');
    assert grouped + "," + frac == grouped + t;
    assert DeleteChar(grouped, '.') + "," + frac == DeleteChar(grouped, '.') + t;
  }

  lemma ReplaceCommaOfAmount(whole: string, frac: string)
    requires AllDigits(whole) && AllDigits(frac)
    ensures ReplaceChar(whole + "," + frac, ',', '.') == whole + "." + frac
  {
    var c := "," + frac;
    assert whole + "," + frac == whole + c;
    ReplaceAppend(whole, c, ',', '.');
    CommaAbsent(whole);
    ReplaceAbsent(whole, ',', '.');
    ReplaceLeadingComma(frac);
    assert whole + "." + frac == whole + ("." + frac);
  }

  lemma ReplaceLeadingComma(frac: string)
    requires AllDigits(frac)
    ensures ReplaceChar("," + frac, ',', '.') == "." + frac
  {
    CommaAbsent(frac);
    ReplaceAbsent(frac, ',', '.');
    var c := "," + frac;
    assert c[0] == ',' && c[1..] == frac;
  }

  lemma CommaAbsent(s: string)
    requires AllDigits(s)
    ensures ',' !in s
  {
    forall i | 0 <= i < |s|
      ensures s[i] != ','
    {
      assert IsDigit(s[i]);
    }
  }

  lemma {:induction false} DeleteKeepsDigits(s: string)
    requires forall i :: 0 <= i < |s| ==> IsDigit(s[i]) || s[i] == '.'
    ensures AllDigits(DeleteChar(s, '.'))
  {
    if s != [] {
      DeleteKeepsDigits(s[1..]);
    }
  }

  lemma {:induction false} DeleteAppend(a: string, b: string, c: char)
    ensures DeleteChar(a + b, c) == DeleteChar(a, c) + DeleteChar(b, c)
  {
    if a == [] {
      assert a + b == b;
    } else {
      assert (a + b)[1..] == a[1..] + b;
      DeleteAppend(a[1..], b, c);
    }
  }

  lemma {:induction false} ReplaceAppend(a: string, b: string, x: char, y: char)
    ensures ReplaceChar(a + b, x, y) == ReplaceChar(a, x, y) + ReplaceChar(b, x, y)
  {
    if a == [] {
      assert a + b == b;
    } else {
      assert (a + b)[1..] == a[1..] + b;
      ReplaceAppend(a[1..], b, x, y);
    }
  }

  lemma {:induction false} ReplaceAbsent(s: string, x: char, y: char)
    requires x !in s
    ensures ReplaceChar(s, x, y) == s
  {
    if s != [] {
      ReplaceAbsent(s[1..], x, y);
    }
  }

  /** An English-style decimal point is read as a thousands separator: "1.5"
      is cleaned to "15" and parsed as fifteen. */
  lemma DotReadAsGrouping()
    ensures LocaleClean("1.5") == "15"
    ensures ParseDecimal(LocaleClean("1.5")) == Some(15.0)
  {
    assert LocaleClean("1.5") == "15";
    assert "15"[..2] == "15";
    assert DigitsValue("15") == 15 by {
      assert "15"[..1] == "1";
    }
  }

  /** Text that is not a number in the modelled grammar parses to nothing. */
  lemma NotANumber()
    ensures ParseDecimal("n/a") == None
    ensures ParseDecimal("") == None
  {
    assert !IsDigit("n/a"[0]);
  }

  // ---------------------------------------------------------------------------
  // Rounding
  // ---------------------------------------------------------------------------

  /** Python's `round(x)`: the nearest integer, and of two equally near the even one. */
  function RoundHalfEven(x: real): (r: int)
    ensures -0.5 <= r as real - x <= 0.5
    ensures (r as real - x == 0.5 || x - r as real == 0.5) ==> r % 2 == 0
  {
    var f := x.Floor;
    var d := x - f as real;
    if d < 0.5 then f
    else if d > 0.5 then f + 1
    else if f % 2 == 0 then f
    else f + 1
  }

  /** The two properties of `RoundHalfEven` pin its result down. */
  lemma RoundHalfEvenUnique(x: real, n: int)
    requires -0.5 <= n as real - x <= 0.5
    requires (n as real - x == 0.5 || x - n as real == 0.5) ==> n % 2 == 0
    ensures n == RoundHalfEven(x)
  {
    var r := RoundHalfEven(x);
    assert -1.0 <= (n - r) as real <= 1.0;
    assert n - r == 1 ==> n as real - x == 0.5 && x - r as real == 0.5;
    assert r - n == 1 ==> r as real - x == 0.5 && x - n as real == 0.5;
  }

  /** `round(x, 2)`: rounding to two decimals. */
  function Round2(x: real): (r: real)
    ensures -0.005 <= r - x <= 0.005
  {
    RoundHalfEven(x * 100.0) as real / 100.0
  }

  // ---------------------------------------------------------------------------
  // Comparing a quotient with a threshold
  // ---------------------------------------------------------------------------

  lemma SignOfProduct(x: real, y: real)
    requires y > 0.0
    ensures x * y > 0.0 <==> x > 0.0
  {
    if x > 0.0 {
      assert x * y > 0.0;
    }
    if x <= 0.0 {
      assert x * y <= 0.0;
    }
  }

  /** Over a positive denominator, `a / b > l` is `a > l * b`. */
  lemma QuotientAbove(a: real, b: real, l: real)
    requires b > 0.0
    ensures a / b > l <==> a > l * b
  {
    var q := a / b;
    assert q * b == a;
    assert (q - l) * b == a - l * b;
    SignOfProduct(q - l, b);
  }

  /** A non-negative numerator over a negative denominator gives at most zero. */
  lemma QuotientOfNegative(a: real, b: real)
    requires a >= 0.0 && b < 0.0
    ensures a / b <= 0.0
  {
    var q := a / b;
    assert q * b == a;
    SignOfProduct(-q, -b);
  }

  /** The `1e-9` added to a denominator. */
  const Epsilon: real := 0.000000001

  function Abs(x: real): real {
    if x < 0.0 then -x else x
  }

  /** `num / den > limit` in numpy float64 arithmetic, for `num >= 0`: dividing
      by zero gives `inf` when `num > 0`, which passes, and `nan` when `num == 0`,
      which does not. */
  predicate NumpyRatioAbove(num: real, den: real, limit: real)
    requires num >= 0.0
  {
    if den == 0.0 then num > 0.0 else num / den > limit
  }

  /** The test without division: over a positive denominator it is
      `num > limit * den`, over a negative one it never passes. */
  lemma NumpyRatioAboveSpec(num: real, den: real, limit: real)
    requires num >= 0.0 && limit >= 0.0
    ensures den > 0.0 ==> (NumpyRatioAbove(num, den, limit) <==> num > limit * den)
    ensures den < 0.0 ==> !NumpyRatioAbove(num, den, limit)
    ensures den == 0.0 ==> (NumpyRatioAbove(num, den, limit) <==> num > 0.0)
  {
    if den > 0.0 {
      QuotientAbove(num, den, limit);
    } else if den < 0.0 {
      QuotientOfNegative(num, den);
    }
  }
}
