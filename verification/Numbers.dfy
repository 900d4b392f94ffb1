/** Decimal numbers as the dashboard reads and writes them: `parseInt`,
    `parseFloat` and the conversion of an integer to its decimal text. */
module Numbers {
  import opened Wrappers
  import opened Strings

  predicate IsDigit(c: char) {
    '0' <= c <= '9'
  }

  predicate AllDigits(s: string) {
    forall i :: 0 <= i < |s| ==> IsDigit(s[i])
  }

  function DigitValue(c: char): nat
    requires IsDigit(c)
  {
    c as int - '0' as int
  }

  function DigitChar(d: nat): (c: char)
    requires d < 10
    ensures IsDigit(c) && DigitValue(c) == d
  {
    ('0' as int + d) as char
  }

  /** The value of a run of decimal digits, most significant first. */
  function ValueOf(ds: string): nat
    requires AllDigits(ds)
  {
    if ds == [] then 0 else ValueOf(ds[..|ds| - 1]) * 10 + DigitValue(ds[|ds| - 1])
  }

  /** Length of the longest prefix of `s` made of digits. */
  function DigitRun(s: string): (n: nat)
    ensures n <= |s| && AllDigits(s[..n])
    ensures n < |s| ==> !IsDigit(s[n])
  {
    if s != [] && IsDigit(s[0]) then
      var n := 1 + DigitRun(s[1..]);
      assert forall i :: 1 <= i < n ==> s[..n][i] == s[1..][..n - 1][i - 1];
      n
    else 0
  }

  /** The leading digits of `s` as a number, or `None` when `s` does not start with a digit. */
  function ParseUnsigned(s: string): Option<nat> {
    var n := DigitRun(s);
    if n == 0 then None else Some(ValueOf(s[..n]))
  }

  /** `parseInt(s)` in base 10: leading whitespace is skipped, then an optional
      sign and the longest run of digits; anything after that run is ignored.
      `None` is `NaN` (no digit where one is needed). */
  function ParseInt(s: string): Option<int> {
    var t := TrimStart(s);
    match ParseUnsigned(Unsigned(t))
    case None => None
    case Some(v) => Some(if MinusSign(t) then -(v as int) else v)
  }

  /** The text starts with a minus sign. */
  predicate MinusSign(t: string) {
    t != [] && t[0] == '-'
  }

  /** The text after an optional leading sign. */
  function Unsigned(t: string): string {
    if t != [] && (t[0] == '-' || t[0] == '+') then t[1..] else t
  }

  /** The value of the digits after a decimal point: `0.d1d2...`. */
  function Fraction(ds: string): (f: real)
    requires AllDigits(ds)
    ensures 0.0 <= f <= 1.0
  {
    if ds == [] then 0.0 else (DigitValue(ds[0]) as real + Fraction(ds[1..])) / 10.0
  }

  /** An unsigned decimal: digits, optionally followed by `.` and more digits,
      with at least one digit in all. */
  function ParseUnsignedDecimal(u: string): Option<real> {
    var n := DigitRun(u);
    var whole := ValueOf(u[..n]) as real;
    if n < |u| && u[n] == '.' then
      var rest := u[n + 1..];
      var m := DigitRun(rest);
      if n == 0 && m == 0 then None
      else Some(whole + Fraction(rest[..m]))
    else if n == 0 then None
    else Some(whole)
  }

  /** `parseFloat(s)` without exponents and `Infinity`: leading whitespace is
      skipped, then an optional sign and an unsigned decimal. `None` is `NaN`. */
  function ParseFloat(s: string): Option<real> {
    var t := TrimStart(s);
    match ParseUnsignedDecimal(Unsigned(t))
    case None => None
    case Some(v) => Some(if MinusSign(t) then -v else v)
  }

  /** Decimal text of a natural number, without leading zeros. */
  function NatToString(n: nat): (s: string)
    ensures s != [] && AllDigits(s)
  {
    if n < 10 then [DigitChar(n)] else NatToString(n / 10) + [DigitChar(n % 10)]
  }

  /** `String(n)` for an integer `n`. */
  function IntToString(n: int): (s: string)
    ensures s != []
  {
    if n < 0 then "-" + NatToString(-n) else NatToString(n)
  }

  lemma {:induction false} ValueOfNatToString(n: nat)
    ensures ValueOf(NatToString(n)) == n
  {
    if n >= 10 {
      var s := NatToString(n);
      assert s[..|s| - 1] == NatToString(n / 10);
      ValueOfNatToString(n / 10);
    }
  }

  lemma DigitRunAll(s: string)
    requires AllDigits(s)
    ensures DigitRun(s) == |s|
  {
  }

  /** Reading back the decimal text of a natural number gives the number. */
  lemma ParseUnsignedNatToString(n: nat)
    ensures ParseUnsigned(NatToString(n)) == Some(n)
  {
    var s := NatToString(n);
    DigitRunAll(s);
    assert s[..|s|] == s;
    ValueOfNatToString(n);
  }

  /** A run of digits followed by a non-digit (or nothing) is read up to its end. */
  lemma {:induction false} DigitRunPrefix(s: string, t: string)
    requires AllDigits(s)
    requires t == [] || !IsDigit(t[0])
    ensures DigitRun(s + t) == |s|
    decreases |s|
  {
    if s != [] {
      assert (s + t)[1..] == s[1..] + t;
      DigitRunPrefix(s[1..], t);
    } else {
      assert s + t == t;
    }
  }

  /** The decimal text of `k` followed by a non-digit reads as `k`. */
  lemma ParseUnsignedLeading(k: nat, t: string)
    requires t == [] || !IsDigit(t[0])
    ensures ParseUnsigned(NatToString(k) + t) == Some(k)
  {
    var u := NatToString(k);
    DigitRunPrefix(u, t);
    assert (u + t)[..|u|] == u;
    ValueOfNatToString(k);
  }

  /** `parseInt` of a text that starts with a digit reads its leading digits. */
  lemma ParseIntDigitFirst(s: string)
    requires s != [] && IsDigit(s[0])
    ensures ParseInt(s) == ParseUnsigned(s)
  {
    assert TrimStart(s) == s;
  }

  /** `parseInt` of a text that starts with `-` negates the digits after it. */
  lemma ParseIntMinusFirst(s: string, v: nat)
    requires s != [] && s[0] == '-'
    requires ParseUnsigned(s[1..]) == Some(v)
    ensures ParseInt(s) == Some(-(v as int))
  {
    assert TrimStart(s) == s;
  }

  lemma ParseIntLeadingNegative(n: int, t: string)
    requires n < 0
    requires t == [] || !IsDigit(t[0])
    ensures ParseInt(IntToString(n) + t) == Some(n)
  {
    var u := NatToString(-n) + t;
    assert IntToString(n) + t == "-" + u;
    assert ("-" + u)[1..] == u;
    ParseUnsignedLeading(-n, t);
    ParseIntMinusFirst("-" + u, -n);
  }

  lemma ParseIntLeadingNatural(n: nat, t: string)
    requires t == [] || !IsDigit(t[0])
    ensures ParseInt(IntToString(n) + t) == Some(n)
  {
    var u := NatToString(n);
    var s := u + t;
    assert IntToString(n) + t == s;
    assert s[0] == u[0];
    ParseUnsignedLeading(n, t);
    ParseIntDigitFirst(s);
  }

  /** `parseInt(String(n) + t) === n` when `t` does not continue the digits. */
  lemma ParseIntLeading(n: int, t: string)
    requires t == [] || !IsDigit(t[0])
    ensures ParseInt(IntToString(n) + t) == Some(n)
  {
    if n < 0 {
      ParseIntLeadingNegative(n, t);
    } else {
      ParseIntLeadingNatural(n, t);
    }
  }

  /** Different integers have different decimal texts. */
  lemma IntToStringInjective(a: int, b: int)
    requires IntToString(a) == IntToString(b)
    ensures a == b
  {
    ParseIntToString(a);
    ParseIntToString(b);
  }

  /** An unsigned decimal without a fraction part reads as its integer value. */
  lemma ParseUnsignedDecimalNatToString(m: nat)
    ensures ParseUnsignedDecimal(NatToString(m)) == Some(m as real)
  {
    var u := NatToString(m);
    DigitRunAll(u);
    assert u[..|u|] == u;
    ValueOfNatToString(m);
  }

  /** `parseFloat` of a text that starts with a digit reads an unsigned decimal. */
  lemma ParseFloatDigitFirst(s: string)
    requires s != [] && IsDigit(s[0])
    ensures ParseFloat(s) == ParseUnsignedDecimal(s)
  {
    assert TrimStart(s) == s;
  }

  /** `parseFloat` of `-` followed by an unsigned decimal negates it. */
  lemma ParseFloatMinus(u: string, v: real)
    requires ParseUnsignedDecimal(u) == Some(v)
    ensures ParseFloat("-" + u) == Some(-v)
  {
    var s := "-" + u;
    assert s[1..] == u;
    assert TrimStart(s) == s;
  }

  lemma ParseFloatNegative(n: int)
    requires n < 0
    ensures ParseFloat(IntToString(n)) == Some(n as real)
  {
    var m: nat := -n;
    var u := NatToString(m);
    assert IntToString(n) == "-" + u;
    ParseUnsignedDecimalNatToString(m);
    ParseFloatMinus(u, m as real);
    assert -(m as real) == n as real;
  }

  lemma ParseFloatNatural(n: nat)
    ensures ParseFloat(IntToString(n)) == Some(n as real)
  {
    var u := NatToString(n);
    assert IntToString(n) == u;
    assert IsDigit(u[0]);
    ParseUnsignedDecimalNatToString(n);
    ParseFloatDigitFirst(u);
  }

  function Pow10(n: nat): (p: nat)
    ensures p >= 1
  {
    if n == 0 then 1 else 10 * Pow10(n - 1)
  }

  /** Read from the front, the first digit weighs `10^(k-1)` in a run of `k` digits. */
  lemma {:induction false} ValueOfFront(ds: string)
    requires ds != [] && AllDigits(ds)
    ensures ValueOf(ds) == DigitValue(ds[0]) * Pow10(|ds| - 1) + ValueOf(ds[1..])
    decreases |ds|
  {
    var n := |ds|;
    if n == 1 {
      assert ds[..0] == [] && ds[1..] == [];
    } else {
      var init := ds[..n - 1];
      var rest := ds[1..];
      var mid := init[1..];
      assert mid == rest[..|rest| - 1];
      assert AllDigits(init) && AllDigits(rest) && AllDigits(mid);
      ValueOfFront(init);
      var d := DigitValue(ds[0]);
      var e := DigitValue(ds[n - 1]);
      var p := Pow10(n - 2);
      var v := ValueOf(mid);
      assert ValueOf(init) == d * p + v;
      assert ValueOf(rest) == v * 10 + e;
      assert ValueOf(ds) == ValueOf(init) * 10 + e;
      FrontStep(d, p, v, e);
    }
  }

  /** The arithmetic of one step of `ValueOfFront`. */
  lemma FrontStep(d: nat, p: nat, v: nat, e: nat)
    ensures (d * p + v) * 10 + e == d * (10 * p) + (v * 10 + e)
  {
  }

  /** One digit in front of a fraction `v / p`, then divided by ten. */
  lemma FractionStep(d: nat, v: nat, p: nat, f: real)
    requires p > 0 && f == (v as real) / (p as real)
    ensures (d as real + f) / 10.0 == ((d * p + v) as real) / ((10 * p) as real)
  {
    var q := p as real;
    assert f * q == v as real;
    assert (d * p + v) as real == (d as real) * q + v as real;
    assert (10 * p) as real == 10.0 * q;
    assert ((d as real) * q + f * q) / (10.0 * q) == (d as real + f) / 10.0;
  }

  /** The digits after the decimal point are worth their integer value over
      ten to the number of digits. */
  lemma {:induction false} FractionQuotient(ds: string)
    requires AllDigits(ds)
    ensures Fraction(ds) == (ValueOf(ds) as real) / (Pow10(|ds|) as real)
    decreases |ds|
  {
    if ds != [] {
      var rest := ds[1..];
      FractionQuotient(rest);
      ValueOfFront(ds);
      FractionStep(DigitValue(ds[0]), ValueOf(rest), Pow10(|rest|), Fraction(rest));
    }
  }

  /** An unsigned decimal `a.ds` reads as `a + ds / 10^|ds|`. */
  lemma ParseUnsignedDecimalFraction(a: nat, ds: string)
    requires AllDigits(ds)
    ensures ParseUnsignedDecimal(NatToString(a) + "." + ds) == Some(a as real + Fraction(ds))
  {
    var w := NatToString(a);
    PointSplit(w, ds);
    PointDecimal(w + "." + ds, |w|);
    ValueOfNatToString(a);
  }

  /** In `w.ds` with `w` a non-empty digit run, the digit run is `w` and the
      text after the point is `ds`. */
  lemma PointSplit(w: string, ds: string)
    requires w != [] && AllDigits(w)
    ensures var u := w + "." + ds;
      DigitRun(u) == |w| && u[..|w|] == w && u[|w|] == '.' && u[|w| + 1..] == ds
  {
    var u := w + "." + ds;
    DigitRunPrefix(w, "." + ds);
    assert u == w + ("." + ds);
  }

  /** A digit run, a point and only digits after it parse as the run's
      value plus the fraction of the digits. */
  lemma PointDecimal(u: string, n: nat)
    requires 0 < n < |u| && DigitRun(u) == n && u[n] == '.' && AllDigits(u[n + 1..])
    ensures ParseUnsignedDecimal(u) == Some(ValueOf(u[..n]) as real + Fraction(u[n + 1..]))
  {
    var rest := u[n + 1..];
    DigitRunAll(rest);
    assert rest[..|rest|] == rest;
  }

  /** `parseFloat` of `a.ds` is `a` plus the fraction part, which
      `FractionQuotient` shows to be `ds / 10^|ds|`. */
  lemma ParseFloatDecimal(a: nat, ds: string)
    requires AllDigits(ds)
    ensures ParseFloat(NatToString(a) + "." + ds) == Some(a as real + Fraction(ds))
  {
    var w := NatToString(a);
    var u := w + "." + ds;
    assert u[0] == w[0];
    ParseFloatDigitFirst(u);
    ParseUnsignedDecimalFraction(a, ds);
  }

  /** `parseFloat(String(n)) === n` for every integer `n`. */
  lemma ParseFloatIntToString(n: int)
    ensures ParseFloat(IntToString(n)) == Some(n as real)
  {
    if n < 0 {
      ParseFloatNegative(n);
    } else {
      ParseFloatNatural(n);
    }
  }

  /** `parseInt(String(n)) === n` for every integer `n`. */
  lemma ParseIntToString(n: int)
    ensures ParseInt(IntToString(n)) == Some(n)
  {
    ParseIntLeading(n, []);
    assert IntToString(n) + [] == IntToString(n);
  }
}
