/**
 * Numbers as the app writes and reads them: the decimal text a template
 * literal produces for an integer, and the part of JavaScript's parseInt and
 * parseFloat that this model covers (an optional sign, decimal digits and,
 * for parseFloat, one decimal point; exponents, whitespace, hexadecimal and
 * Infinity are not read).
 */
module Numbers {

  predicate IsDigit(c: char)
  {
    '0' <= c <= '9'
  }

  predicate AllDigits(s: string)
  {
    forall i :: 0 <= i < |s| ==> IsDigit(s[i])
  }

  function DigitChar(d: nat): (c: char)
    requires d < 10
    ensures IsDigit(c)
  {
    ('0' as int + d) as char
  }

  function DigitValue(c: char): (d: nat)
    requires IsDigit(c)
    ensures d < 10
  {
    c as int - '0' as int
  }

  function Pow10(n: nat): (p: nat)
    ensures p >= 1
  {
    if n == 0 then 1 else 10 * Pow10(n - 1)
  }

  /** The decimal text of a natural number, most significant digit first. */
  function Decimal(n: nat): (s: string)
    ensures |s| >= 1 && AllDigits(s)
    ensures n < 10 ==> s == [DigitChar(n)]
  {
    if n < 10 then [DigitChar(n)] else Decimal(n / 10) + [DigitChar(n % 10)]
  }

  /** `${n}` for an integer: a minus sign before the digits of a negative number. */
  function IntString(n: int): (s: string)
    ensures |s| >= 1
    ensures s[0] == '-' <==> n < 0
  {
    if n < 0 then "-" + Decimal(-n) else Decimal(n)
  }

  /** The value of a string of digits, read left to right. */
  function DigitsValue(s: string): nat
    requires AllDigits(s)
  {
    if s == [] then 0 else DigitsValue(s[..|s| - 1]) * 10 + DigitValue(s[|s| - 1])
  }

  /** The length of the run of digits at the front of s. */
  function DigitRun(s: string): (n: nat)
    ensures n <= |s|
    ensures AllDigits(s[..n])
    ensures n < |s| ==> !IsDigit(s[n])
  {
    if s != [] && IsDigit(s[0]) then
      var n := 1 + DigitRun(s[1..]);
      assert s[..n] == [s[0]] + s[1..][..n - 1];
      n
    else 0
  }

  /** A JavaScript number as parsing yields it: NaN, or a finite value. */
  datatype JsNumber = NaN | Finite(value: real)

  predicate HasSign(s: string)
  {
    |s| > 0 && (s[0] == '-' || s[0] == '+')
  }

  /** What follows an optional leading sign. */
  function Unsigned(s: string): (u: string)
    ensures |u| <= |s|
  {
    if HasSign(s) then s[1..] else s
  }

  function Signed(s: string, v: real): real
  {
    if |s| > 0 && s[0] == '-' then -v else v
  }

  /** parseInt(s): the leading digits after an optional sign; NaN when there are none. */
  function ParseInt(s: string): (r: JsNumber)
    ensures r.NaN? <==> DigitRun(Unsigned(s)) == 0
  {
    var body := Unsigned(s);
    var k := DigitRun(body);
    if k == 0 then NaN else Finite(Signed(s, DigitsValue(body[..k]) as real))
  }

  /** The digits after a leading decimal point, up to the first non-digit. */
  function Decimals(rest: string): (d: string)
    ensures AllDigits(d)
  {
    if |rest| > 0 && rest[0] == '.' then rest[1..][..DigitRun(rest[1..])] else []
  }

  /** The value of the digits d written after a decimal point. */
  function FractionValue(d: string): real
    requires AllDigits(d)
  {
    DigitsValue(d) as real / Pow10(|d|) as real
  }

  /**
   * parseFloat(s): after an optional sign, digits, then optionally a point and
   * more digits; NaN when neither part has a digit.
   */
  function ParseFloat(s: string): (r: JsNumber)
    ensures r.NaN? ==> DigitRun(Unsigned(s)) == 0
  {
    var body := Unsigned(s);
    var k := DigitRun(body);
    var decimals := Decimals(body[k..]);
    if k == 0 && decimals == [] then NaN
    else
      Finite(Signed(s, DigitsValue(body[..k]) as real + FractionValue(decimals)))
  }

  /** parseInt only ever yields whole numbers. */
  lemma ParseIntWhole(s: string)
    ensures ParseInt(s).Finite? ==> ParseInt(s).value.Floor as real == ParseInt(s).value
  {
    var body := Unsigned(s);
    var k := DigitRun(body);
    if k > 0 {
      var v: int := DigitsValue(body[..k]);
      if |s| > 0 && s[0] == '-' {
        assert ParseInt(s).value == (-v) as real;
      } else {
        assert ParseInt(s).value == v as real;
      }
    }
  }

  /** The empty answer parses to NaN under both parsers. */
  lemma EmptyIsNaN()
    ensures ParseInt("") == NaN && ParseFloat("") == NaN
  {
  }

  lemma {:induction false} DigitCharValue(d: nat)
    requires d < 10
    ensures DigitValue(DigitChar(d)) == d
  {
  }

  /** Reading back the decimal text of n gives n. */
  lemma {:induction false} DecimalValue(n: nat)
    ensures DigitsValue(Decimal(n)) == n
  {
    if n >= 10 {
      var s := Decimal(n);
      assert s[..|s| - 1] == Decimal(n / 10);
      DecimalValue(n / 10);
      DigitCharValue(n % 10);
    }
  }

  /** A run of digits followed by t extends exactly as far as t's own run. */
  lemma {:induction false} DigitRunAppend(x: string, t: string)
    requires AllDigits(x)
    ensures DigitRun(x + t) == |x| + DigitRun(t)
  {
    if x != [] {
      assert IsDigit(x[0]) && (x + t)[0] == x[0];
      assert DigitRun(x + t) == 1 + DigitRun((x + t)[1..]);
      assert (x + t)[1..] == x[1..] + t;
      DigitRunAppend(x[1..], t);
    } else {
      assert x + t == t;
    }
  }

  lemma DigitRunDecimal(n: nat, t: string)
    requires t == [] || !IsDigit(t[0])
    ensures DigitRun(Decimal(n) + t) == |Decimal(n)|
    ensures (Decimal(n) + t)[..|Decimal(n)|] == Decimal(n)
  {
    DigitRunAppend(Decimal(n), t);
  }

  /** parseInt reads back every integer the app renders. */
  lemma ParseIntRoundTrip(n: int)
    ensures ParseInt(IntString(n)) == Finite(n as real)
  {
    var m := if n < 0 then -n else n;
    DigitRunDecimal(m, []);
    assert Decimal(m) + [] == Decimal(m);
    DecimalValue(m);
    if n < 0 {
      assert Unsigned(IntString(n)) == Decimal(m);
    }
  }

  /** parseFloat reads back every integer the app renders. */
  lemma ParseFloatRoundTrip(n: int)
    ensures ParseFloat(IntString(n)) == Finite(n as real)
  {
    var m := if n < 0 then -n else n;
    DigitRunDecimal(m, []);
    assert Decimal(m) + [] == Decimal(m);
    DecimalValue(m);
    if n < 0 {
      assert Unsigned(IntString(n)) == Decimal(m);
    }
  }

  /** parseInt stops at the decimal point: "10.7" reads as 10. */
  lemma ParseIntTruncates(n: nat, f: string)
    ensures ParseInt(Decimal(n) + "." + f) == Finite(n as real)
  {
    var s := Decimal(n) + ("." + f);
    assert Decimal(n) + "." + f == s;
    DigitRunDecimal(n, "." + f);
    DecimalValue(n);
  }

  /** parseFloat reads a decimal fraction: "4.00" is 4 and "4.5" is 4.5. */
  lemma ParseFloatFraction(n: nat, f: string)
    requires AllDigits(f)
    ensures ParseFloat(Decimal(n) + "." + f) == Finite(n as real + FractionValue(f))
  {
    var s := Decimal(n) + ("." + f);
    assert Decimal(n) + "." + f == s;
    DigitRunDecimal(n, "." + f);
    DecimalValue(n);
    ParseFloatParts(s, Decimal(n), f);
  }

  /** A digit run, a point and more digits: parseFloat adds the two parts. */
  lemma ParseFloatParts(s: string, whole: string, f: string)
    requires AllDigits(whole) && whole != [] && AllDigits(f)
    requires s == whole + ("." + f) && DigitRun(s) == |whole|
    ensures ParseFloat(s) == Finite(DigitsValue(whole) as real + FractionValue(f))
  {
    var k := |whole|;
    assert s[0] == whole[0];
    assert Unsigned(s) == s;
    assert s[..k] == whole && s[k..] == "." + f;
    DecimalsAfterPoint(f);
  }

  lemma DecimalsAfterPoint(f: string)
    requires AllDigits(f)
    ensures Decimals("." + f) == f
  {
    assert ("." + f)[1..] == f + [];
    DigitRunAppend(f, []);
    assert f + [] == f;
  }

  /** parseFloat ignores trailing zeros after the point: "7.00" is 7. */
  lemma ParseFloatZeros(n: nat, zeros: string)
    requires forall i :: 0 <= i < |zeros| ==> zeros[i] == '0'
    ensures ParseFloat(Decimal(n) + "." + zeros) == Finite(n as real)
  {
    ZerosValue(zeros);
    assert FractionValue(zeros) == 0.0;
    ParseFloatFraction(n, zeros);
  }

  /** parseFloat reads a leading point: ".5" is 0.5. */
  lemma ParseFloatLeadingPoint(f: string)
    requires AllDigits(f) && f != []
    ensures ParseFloat("." + f) == Finite(FractionValue(f))
  {
    var s := "." + f;
    assert Unsigned(s) == s && DigitRun(s) == 0 && s[0..] == s;
    DecimalsAfterPoint(f);
  }

  /**
   * parseFloat gives NaN exactly when, after the optional sign, there is
   * neither a digit nor a point followed by a digit.
   */
  lemma ParseFloatNaN(s: string)
    ensures var u := Unsigned(s);
      ParseFloat(s).NaN? <==> DigitRun(u) == 0 && !(|u| >= 2 && u[0] == '.' && IsDigit(u[1]))
  {
    var u := Unsigned(s);
    if DigitRun(u) == 0 {
      assert u[0..] == u;
      if |u| >= 2 && u[0] == '.' {
        assert u[1..][0] == u[1] && (DigitRun(u[1..]) > 0 <==> IsDigit(u[1..][0]));
      }
    }
  }

  /** The digits after a point are worth less than one whole: below 10 to the number of digits. */
  lemma {:induction false} DigitsBelowPow10(d: string)
    requires AllDigits(d)
    ensures DigitsValue(d) < Pow10(|d|)
  {
    if d != [] {
      var p := d[..|d| - 1];
      DigitsBelowPow10(p);
      assert DigitsValue(d) == DigitsValue(p) * 10 + DigitValue(d[|d| - 1]);
      assert Pow10(|d|) == 10 * Pow10(|p|);
    }
  }

  /** Digits worth nothing are all zeros. */
  lemma {:induction false} ZeroDigitsAreZeros(d: string)
    requires AllDigits(d) && DigitsValue(d) == 0
    ensures forall i :: 0 <= i < |d| ==> d[i] == '0'
  {
    if d != [] {
      var p := d[..|d| - 1];
      assert DigitsValue(d) == DigitsValue(p) * 10 + DigitValue(d[|d| - 1]);
      ZeroDigitsAreZeros(p);
      forall i | 0 <= i < |d| ensures d[i] == '0' {
        if i < |p| {
          assert d[i] == p[i];
        }
      }
    }
  }

  lemma RatioBelowOne(a: real, b: real)
    requires 0.0 <= a < b
    ensures 0.0 <= a / b < 1.0
    ensures a / b == 0.0 <==> a == 0.0
  {
    var q := a / b;
    assert a == q * b;
    var r := 1.0 - q;
    assert r * b == b - a;
    PositiveFactor(r, b);
  }

  lemma PositiveFactor(x: real, y: real)
    requires y > 0.0
    ensures x * y > 0.0 ==> x > 0.0
  {
    if x <= 0.0 {
      assert (-x) * y >= 0.0;
    }
  }

  /** A fraction part lies in [0, 1), and it is 0 exactly when every digit is 0. */
  lemma FractionBounds(d: string)
    requires AllDigits(d)
    ensures 0.0 <= FractionValue(d) < 1.0
    ensures FractionValue(d) == 0.0 <==> forall i :: 0 <= i < |d| ==> d[i] == '0'
  {
    DigitsBelowPow10(d);
    RatioBelowOne(DigitsValue(d) as real, Pow10(|d|) as real);
    if forall i :: 0 <= i < |d| ==> d[i] == '0' {
      ZerosValue(d);
    } else if DigitsValue(d) == 0 {
      ZeroDigitsAreZeros(d);
    }
  }

  lemma {:induction false} ZerosValue(zeros: string)
    requires forall i :: 0 <= i < |zeros| ==> zeros[i] == '0'
    ensures AllDigits(zeros) && DigitsValue(zeros) == 0
  {
    if zeros != [] {
      ZerosValue(zeros[..|zeros| - 1]);
    }
  }
}
