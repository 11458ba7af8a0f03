/**
 * What the display conversions guarantee: formatted numbers read back as
 * numbers (exactly, when the plain `toString` text is used), "Error" is
 * produced exactly for NaN and the infinities, and no formatted text holds
 * more than one decimal point.
 */
module NumberTextProperties {
  import opened Wrappers
  import opened Numbers
  import opened NumberText

  // ---------------------------------------------------------------------
  // Arithmetic of digit strings and powers of ten

  lemma {:induction false} TenToAdd(a: nat, b: nat)
    ensures TenTo(a + b) == TenTo(a) * TenTo(b)
  {
    if b > 0 {
      TenToAdd(a, b - 1);
    }
  }

  lemma {:induction false} TenToIsPow10(n: nat)
    ensures TenTo(n) == Pow10(n) as real
  {
    if n > 0 {
      TenToIsPow10(n - 1);
    }
  }

  lemma {:induction false} ScaleAdd(a: int, b: int)
    ensures Scale(a) * Scale(b) == Scale(a + b)
  {
    if a >= 0 && b >= 0 {
      TenToAdd(a, b);
    } else if a < 0 && b < 0 {
      ScaleBothNegative(a, b);
    } else if a >= 0 {
      ScaleMixed(a, b);
    } else {
      ScaleMixed(b, a);
    }
  }

  lemma {:induction false} ScaleBothNegative(a: int, b: int)
    requires a < 0 && b < 0
    ensures Scale(a) * Scale(b) == Scale(a + b)
  {
    TenToAdd(-a, -b);
    var p, q := TenTo(-a), TenTo(-b);
    assert (1.0 / p) * (1.0 / q) == 1.0 / (p * q);
  }

  lemma {:induction false} ScaleMixed(a: int, b: int)
    requires a >= 0 && b < 0
    ensures Scale(a) * Scale(b) == Scale(a + b)
  {
    if a + b >= 0 {
      ScaleMixedAbove(a, -b);
    } else {
      ScaleMixedBelow(a, -b);
    }
  }

  lemma {:induction false} ScaleMixedAbove(a: nat, b: nat)
    requires 0 < b <= a
    ensures Scale(a) * Scale(-(b as int)) == Scale(a - b)
  {
    TenToAdd(a - b, b);
    var p, q := TenTo(a - b), TenTo(b);
    assert p * q * (1.0 / q) == p;
  }

  lemma {:induction false} ScaleMixedBelow(a: nat, b: nat)
    requires a < b
    ensures Scale(a) * Scale(-(b as int)) == Scale(a - b)
  {
    TenToAdd(a, b - a);
    var p, r := TenTo(a), TenTo(b - a);
    assert TenTo(b) == p * r;
    assert p * (1.0 / (p * r)) == 1.0 / r;
  }

  lemma {:induction false} DigitsValueConcat(a: string, b: string)
    requires AllDigits(a) && AllDigits(b)
    ensures AllDigits(a + b)
    ensures DigitsValue(a + b) == DigitsValue(a) * Pow10(|b|) + DigitsValue(b)
  {
    if b == [] {
      assert a + b == a;
    } else {
      var b' := b[..|b| - 1];
      assert (a + b)[..|a + b| - 1] == a + b';
      DigitsValueConcat(a, b');
      var A, P, B, d := DigitsValue(a), Pow10(|b'|), DigitsValue(b'), DigitValue(b[|b| - 1]);
      assert DigitsValue(a + b) == 10 * (A * P + B) + d;
      assert DigitsValue(b) == 10 * B + d;
      ShiftDigit(A, P, B, d);
    }
  }

  lemma {:induction false} ShiftDigit(A: nat, P: nat, B: nat, d: nat)
    ensures 10 * (A * P + B) + d == A * (10 * P) + (10 * B + d)
  {
  }

  /** A digit string holds no decimal point. */
  lemma {:induction false} DigitsHaveNoPoint(s: string)
    requires AllDigits(s)
    ensures multiset(s)['.'] == 0
  {
    assert '.' !in s;
  }

  // ---------------------------------------------------------------------
  // Reading numerals back

  predicate NoExponentMarker(m: string) {
    forall i :: 0 <= i < |m| ==> m[i] != 'e' && m[i] != 'E'
  }

  /** A numeral that starts with a digit is read by the unsigned decimal
      grammar alone. */
  lemma {:induction false} ParseUnsigned(t: string)
    requires PlainNumeral(t)
    ensures ParseDisplay(t) == UnsignedDecimalValue(t)
  {
    assert TrimStart(t) == t;
    assert Trim(t) == t;
    assert RadixOfPrefix(t) == 0;
    assert t != "Infinity" && t != "Error";
  }

  /** A leading minus sign negates the value of the numeral after it. */
  lemma {:induction false} ParseNegative(t: string)
    requires PlainNumeral(t)
    ensures UnsignedDecimalValue(t).None? ==> ParseDisplay("-" + t).None?
    ensures UnsignedDecimalValue(t).Some? ==> ParseDisplay("-" + t) == Some(-UnsignedDecimalValue(t).value)
  {
    var u := "-" + t;
    assert u[|u| - 1] == t[|t| - 1];
    assert TrimStart(u) == u;
    assert Trim(u) == u;
    assert RadixOfPrefix(u) == 0;
    assert u[1..] == t;
    assert t != "Infinity";
    assert u != "Error";
  }

  lemma {:induction false} MantissaWhole(w: string)
    requires w != [] && AllDigits(w)
    ensures MantissaValue(w) == Some(DigitsValue(w) as real)
  {
  }

  lemma {:induction false} MantissaPoint(w: string, f: string)
    requires w != [] && AllDigits(w) && AllDigits(f)
    ensures MantissaValue(w + "." + f) == Some(DigitsValue(w) as real + DigitsValue(f) as real / TenTo(|f|))
  {
    var m := w + "." + f;
    PointIndexAfterDigits(w, f);
    assert m[..|w|] == w;
    assert m[|w| + 1..] == f;
  }

  lemma {:induction false} PointIndexAfterDigits(w: string, f: string)
    requires AllDigits(w)
    ensures PointIndex(w + "." + f) == |w|
  {
    var m := w + "." + f;
    var j := PointIndex(m);
    assert m[|w|] == '.';
  }

  lemma {:induction false} UnsignedPlain(m: string)
    requires NoExponentMarker(m)
    ensures UnsignedDecimalValue(m) == MantissaValue(m)
  {
    NoExponentIndex(m);
    assert m[..|m|] == m;
  }

  lemma {:induction false} NoExponentIndex(m: string)
    requires NoExponentMarker(m)
    ensures ExponentIndex(m) == |m|
    decreases |m|
  {
    if m != [] {
      assert m[0] != 'e' && m[0] != 'E';
      assert NoExponentMarker(m[1..]) by {
        forall i | 0 <= i < |m[1..]| ensures m[1..][i] != 'e' && m[1..][i] != 'E' {
          assert m[1..][i] == m[i + 1];
        }
      }
      NoExponentIndex(m[1..]);
    }
  }

  lemma {:induction false} ExponentSuffixValue(x: int)
    ensures ExponentValue(ExponentSuffix(x)[1..]) == Some(x)
  {
    var t := ExponentSuffix(x)[1..];
    assert t == (if x >= 0 then "+" else "-") + NatDigits(Abs(x));
    assert t[1..] == NatDigits(Abs(x));
  }

  lemma {:induction false} UnsignedScientific(m: string, x: int)
    requires NoExponentMarker(m) && MantissaValue(m).Some?
    ensures UnsignedDecimalValue(m + ExponentSuffix(x)) == Some(TimesTenTo(MantissaValue(m).value, x))
  {
    var e := ExponentSuffix(x);
    var u := m + e;
    ExponentIndexAfter(m, e);
    var i := ExponentIndex(u);
    assert i == |m| < |u|;
    assert u[..i] == m;
    assert u[i + 1..] == e[1..];
    ExponentSuffixValue(x);
    UnsignedParts(u, MantissaValue(m).value, x);
  }

  lemma {:induction false} UnsignedParts(u: string, v: real, x: int)
    requires ExponentIndex(u) < |u|
    requires MantissaValue(u[..ExponentIndex(u)]) == Some(v)
    requires ExponentValue(u[ExponentIndex(u) + 1..]) == Some(x)
    ensures UnsignedDecimalValue(u) == Some(TimesTenTo(v, x))
  {
  }

  lemma {:induction false} ExponentIndexAfter(m: string, x: string)
    requires NoExponentMarker(m) && x != [] && x[0] == 'e'
    ensures ExponentIndex(m + x) == |m|
  {
    var u := m + x;
    var i := ExponentIndex(u);
    assert u[|m|] == 'e';
  }

  // ---------------------------------------------------------------------
  // Layout of Number::toString reads back exactly

  /** Digits, a point and digits: read as the mantissa alone. */
  lemma {:induction false} PointNumeral(w: string, f: string)
    requires w != [] && AllDigits(w) && f != [] && AllDigits(f)
    ensures UnsignedDecimalValue(w + "." + f) == MantissaValue(w + "." + f)
  {
    var t := w + "." + f;
    assert NoExponentMarker(t) by {
      forall i | 0 <= i < |t| ensures t[i] != 'e' && t[i] != 'E' {
        if i < |w| { assert t[i] == w[i]; }
        else if i > |w| { assert t[i] == f[i - |w| - 1]; }
      }
    }
    UnsignedPlain(t);
  }

  lemma {:induction false} CastProduct(a: nat, p: nat)
    ensures (a * p) as real == a as real * p as real
  {
  }

  lemma {:induction false} DigitsAsReal(D: string, z: nat, r: real)
    requires AllDigits(D) && r == TimesTenTo(DigitsValue(D) as real, z)
    ensures AllDigits(D + Zeros(z))
    ensures DigitsValue(D + Zeros(z)) as real == r
  {
    var a, p := DigitsValue(D), Pow10(z);
    DigitsValueConcat(D, Zeros(z));
    TenToIsPow10(z);
    ScaledProduct(a, p, z, DigitsValue(D + Zeros(z)), r);
  }

  lemma {:induction false} ScaledProduct(a: nat, p: nat, z: nat, v: nat, r: real)
    requires v == a * p && TenTo(z) == p as real && r == TimesTenTo(a as real, z)
    ensures v as real == r
  {
    CastProduct(a, p);
  }

  lemma {:induction false} SplitQuotient(a: nat, b: nat, p: nat, v: nat, n: nat, z: int, m: real)
    requires p >= 1 && v == a * p + b && TenTo(n) == p as real && z == -(n as int)
    requires m == a as real + b as real / TenTo(n)
    ensures m == TimesTenTo(v as real, z)
  {
    CastProduct(a, p);
    var t := TenTo(n);
    assert Scale(-(n as int)) == 1.0 / t;
  }

  lemma {:induction false} PointParts(w: string, f: string, r: real)
    requires w != [] && AllDigits(w) && AllDigits(f)
    requires r == TimesTenTo(DigitsValue(w + f) as real, -|f|)
    ensures MantissaValue(w + "." + f) == Some(r)
  {
    MantissaPoint(w, f);
    DigitsValueConcat(w, f);
    TenToIsPow10(|f|);
    SplitQuotient(DigitsValue(w), DigitsValue(f), Pow10(|f|), DigitsValue(w + f), |f|, -|f|,
      DigitsValue(w) as real + DigitsValue(f) as real / TenTo(|f|));
  }

  /** Digits with a point after the j-th read back as the digits scaled
      down by the number of digits after the point. */
  lemma {:induction false} PointValue(D: string, j: nat)
    requires AllDigits(D) && 1 <= j < |D|
    ensures MantissaValue(D[..j] + "." + D[j..]) == Some(TimesTenTo(DigitsValue(D) as real, j - |D|))
  {
    assert D[..j] + D[j..] == D;
    PointParts(D[..j], D[j..], TimesTenTo(DigitsValue(D) as real, j - |D|));
  }

  lemma {:induction false} LayoutWhole(D: string, n: int, r: real)
    requires |D| >= 1 && AllDigits(D) && |D| <= n <= 21
    requires r == TimesTenTo(DigitsValue(D) as real, n - |D|)
    ensures UnsignedDecimalValue(Layout(D, n)) == Some(r)
  {
    var t := D + Zeros(n - |D|);
    assert Layout(D, n) == t;
    DigitsAsReal(D, n - |D|, r);
    UnsignedPlain(t);
    MantissaWhole(t);
  }

  lemma {:induction false} LayoutFraction(D: string, n: int, r: real)
    requires |D| >= 1 && AllDigits(D) && 0 < n < |D| && n <= 21
    requires r == TimesTenTo(DigitsValue(D) as real, n - |D|)
    ensures UnsignedDecimalValue(Layout(D, n)) == Some(r)
  {
    assert Layout(D, n) == D[..n] + "." + D[n..];
    PointNumeral(D[..n], D[n..]);
    PointValue(D, n);
  }

  lemma {:induction false} LeadingZeros(z: nat, D: string)
    requires AllDigits(D)
    ensures AllDigits(Zeros(z) + D) && DigitsValue(Zeros(z) + D) == DigitsValue(D)
  {
    DigitsValueConcat(Zeros(z), D);
  }

  /** "0." then zeros then digits reads back as the digits scaled down by
      the number of digits after the point. */
  lemma {:induction false} SmallValue(D: string, z: nat, e: int, r: real)
    requires |D| >= 1 && AllDigits(D) && e == -(z + |D|)
    requires r == TimesTenTo(DigitsValue(D) as real, e)
    ensures UnsignedDecimalValue("0" + "." + (Zeros(z) + D)) == Some(r)
  {
    var f := Zeros(z) + D;
    LeadingZeros(z, D);
    PointNumeral("0", f);
    MantissaPoint("0", f);
    assert DigitsValue("0") == 0;
    TenToIsPow10(|f|);
    SplitQuotient(0, DigitsValue(f), Pow10(|f|), DigitsValue(D), |f|, e, 0 as real + DigitsValue(f) as real / TenTo(|f|));
  }

  lemma {:induction false} LayoutSmall(D: string, n: int, r: real)
    requires |D| >= 1 && AllDigits(D) && -6 < n <= 0
    requires r == TimesTenTo(DigitsValue(D) as real, n - |D|)
    ensures UnsignedDecimalValue(Layout(D, n)) == Some(r)
  {
    SmallText(D, n);
    SmallValue(D, -n, n - |D|, r);
  }

  lemma {:induction false} SmallText(D: string, n: int)
    requires |D| >= 1 && AllDigits(D) && -6 < n <= 0
    ensures Layout(D, n) == "0" + "." + (Zeros(-n) + D)
  {
    assert "0." == "0" + ".";
  }

  lemma {:induction false} TimesTenToTwice(v: real, x: int, y: int, z: int)
    requires z == x + y
    ensures TimesTenTo(TimesTenTo(v, x), y) == TimesTenTo(v, z)
  {
    ScaleAdd(x, y);
    var p, q := Scale(x), Scale(y);
    assert (v * p) * q == v * (p * q);
  }

  /** A digit string contains no exponent marker. */
  lemma {:induction false} DigitsNoExponent(D: string)
    requires AllDigits(D)
    ensures NoExponentMarker(D)
  {
    forall i | 0 <= i < |D|
      ensures D[i] != 'e' && D[i] != 'E'
    {
      assert IsDigit(D[i]);
    }
  }

  lemma {:induction false} MantissaSingle(D: string)
    requires |D| == 1 && AllDigits(D)
    ensures NoExponentMarker(D)
    ensures MantissaValue(D) == Some(TimesTenTo(DigitsValue(D) as real, 1 - |D|))
  {
    DigitsNoExponent(D);
    MantissaWhole(D);
    var v := DigitsValue(D) as real;
    assert 1 - |D| == 0 && Scale(0) == 1.0;
    assert TimesTenTo(v, 0) == v * 1.0 == v;
  }

  lemma {:induction false} MantissaPointed(D: string, m: string)
    requires |D| >= 2 && AllDigits(D) && m == D[..1] + "." + D[1..]
    ensures NoExponentMarker(m) && m[0] == D[0] && m[1] == '.'
    ensures MantissaValue(m) == Some(TimesTenTo(DigitsValue(D) as real, 1 - |D|))
  {
    DigitsNoExponent(D[..1]);
    DigitsNoExponent(D[1..]);
    assert forall i :: 0 <= i < |m| ==> m[i] == '.' || m[i] in D[..1] || m[i] in D[1..];
    PointValue(D, 1);
  }

  /** The mantissa of the exponential forms: the digits with a point after
      the first one when there are several. */
  lemma {:induction false} MantissaOfDigits(D: string, m: string)
    requires |D| >= 1 && AllDigits(D)
    requires m == if |D| == 1 then D else D[..1] + "." + D[1..]
    ensures NoExponentMarker(m) && m[0] == D[0] && (|m| >= 2 ==> m[1] == '.')
    ensures MantissaValue(m) == Some(TimesTenTo(DigitsValue(D) as real, 1 - |D|))
  {
    if |D| == 1 {
      MantissaSingle(D);
    } else {
      MantissaPointed(D, m);
    }
  }

  /** The exponential form reads back as s·10^(x+1-k). */
  lemma {:induction false} ScientificValue(D: string, x: int, z: int, r: real)
    requires |D| >= 1 && AllDigits(D) && z == x + 1 - |D|
    requires r == TimesTenTo(DigitsValue(D) as real, z)
    ensures UnsignedDecimalValue(Scientific(D, x)) == Some(r)
  {
    var m := if |D| == 1 then D else D[..1] + "." + D[1..];
    var t := m + ExponentSuffix(x);
    assert Scientific(D, x) == t;
    MantissaOfDigits(D, m);
    UnsignedScientific(m, x);
    TimesTenToTwice(DigitsValue(D) as real, 1 - |D|, x, z);
  }

  lemma {:induction false} LayoutExponential(D: string, n: int, r: real)
    requires |D| >= 1 && AllDigits(D)
    requires !(|D| <= n <= 21) && !(0 < n <= 21) && !(-6 < n <= 0)
    requires r == TimesTenTo(DigitsValue(D) as real, n - |D|)
    ensures UnsignedDecimalValue(Layout(D, n)) == Some(r)
  {
    ScientificText(D, n);
    ScientificValue(D, n - 1, n - |D|, r);
  }

  lemma {:induction false} ScientificText(D: string, n: int)
    requires |D| >= 1 && AllDigits(D)
    requires !(|D| <= n <= 21) && !(0 < n <= 21) && !(-6 < n <= 0)
    ensures Layout(D, n) == Scientific(D, n - 1)
  {
  }

  /** Every layout of Number::toString is a numeral whose value is the
      number it lays out, r = s·10^(n-k). */
  lemma {:induction false} LayoutValue(D: string, n: int, r: real)
    requires |D| >= 1 && AllDigits(D)
    requires r == TimesTenTo(DigitsValue(D) as real, n - |D|)
    ensures UnsignedDecimalValue(Layout(D, n)) == Some(r)
  {
    if |D| <= n <= 21 {
      LayoutWhole(D, n, r);
    } else if 0 < n <= 21 {
      LayoutFraction(D, n, r);
    } else if -6 < n <= 0 {
      LayoutSmall(D, n, r);
    } else {
      LayoutExponential(D, n, r);
    }
  }

  // ---------------------------------------------------------------------
  // The plain text of a number reads back exactly


  lemma {:induction false} ScaleBack(x: real, a: int, b: int, y: real)
    requires a + b == 0 && y == TimesTenTo(x, a)
    ensures TimesTenTo(y, b) == x
  {
    TimesTenToTwice(x, a, b, 0);
  }

  lemma {:induction false} TenthScale(v: real, a: int, s1: real, s2: real)
    requires s1 == TimesTenTo(v / 10.0, a + 1) && s2 == TimesTenTo(v, a)
    ensures s1 == s2
  {
    ScaleStep(a);
  }

  /** Shifting the point s places multiplies by 10^s. */
  lemma {:induction false} ShiftValue(v: real, s: int)
    ensures Shift(v, s) == TimesTenTo(v, s)
    decreases if s >= 0 then s else -s
  {
    if s > 0 {
      ShiftValue(10.0 * v, s - 1);
      TenTimesScale(v, s - 1, TimesTenTo(10.0 * v, s - 1), TimesTenTo(v, s));
    } else if s < 0 {
      ShiftValue(v / 10.0, s + 1);
      TenthScale(v, s, TimesTenTo(v / 10.0, s + 1), TimesTenTo(v, s));
    }
  }

  /** The digit search stops at digits D that spell y multiplied by ten
      once per step it took. */
  lemma {:induction false} SearchValue(y: real, shift: int, k: nat, D: string, n: int)
    requires y > 0.0 && 1 <= k <= 12
    requires SignificantDigits(y, shift, k) == Some((D, n))
    ensures |D| >= 1 && AllDigits(D) && |D| - n - shift >= 0
    ensures DigitsValue(D) as real == Shift(y, |D| - n - shift)
    decreases 12 - k
  {
    if y.Floor as real == y {
      assert D == NatDigits(y.Floor);
    } else {
      SearchValue(10.0 * y, shift + 1, k + 1, D, n);
    }
  }

  lemma {:induction false} TenTimesScale(y: real, a: int, s1: real, s2: real)
    requires s1 == TimesTenTo(10.0 * y, a) && s2 == TimesTenTo(y, a + 1)
    ensures s1 == s2
  {
    ScaleStep(a);
  }

  /** Multiplying by ten m times and then by 10^z is multiplying by 10^(z+m). */
  lemma {:induction false} TimesTenShift(y: real, m: nat, z: int, w: int, v: real, r: real, s: real)
    requires v == Shift(y, m) && w == z + m
    requires r == TimesTenTo(v, z) && s == TimesTenTo(y, w)
    ensures r == s
    decreases m
  {
    if m > 0 {
      var s' := TimesTenTo(10.0 * y, w - 1);
      TimesTenShift(10.0 * y, m - 1, z, w - 1, v, r, s');
      TenTimesScale(y, w - 1, s', s);
    }
  }

  lemma {:induction false} ScaleBackTo(x: real, a: int, b: int, y: real, s: real)
    requires a + b == 0 && y == TimesTenTo(x, a) && s == TimesTenTo(y, b)
    ensures s == x
  {
    ScaleBack(x, a, b, y);
  }

  /** Every layout of Number::toString reads back as the number it lays
      out, r = s·10^(n-k). */
  lemma {:induction false} LayoutReadsBack(D: string, n: int, r: real)
    requires |D| >= 1 && AllDigits(D)
    requires r == TimesTenTo(DigitsValue(D) as real, n - |D|)
    ensures ParseDisplay(Layout(D, n)) == Some(r)
  {
    LayoutValue(D, n, r);
    ParseUnsigned(Layout(D, n));
  }

  lemma {:induction false} ShortestDigitsUnfold(x: real, D: string, n: int)
    requires x > 0.0 && ShortestDigits(x) == Some((D, n))
    ensures SignificantDigits(Shift(x, -Magnitude(x)), -Magnitude(x), 1) == Some((D, n))
  {
  }

  /** The shortest digits D of x > 0 spell x = D·10^(n-|D|). */
  lemma {:induction false} ShortestDigitsValue(x: real, D: string, n: int, r: real)
    requires x > 0.0 && ShortestDigits(x) == Some((D, n))
    requires r == TimesTenTo(DigitsValue(D) as real, n - |D|)
    ensures |D| >= 1 && AllDigits(D) && r == x
  {
    ShortestDigitsUnfold(x, D, n);
    SearchFrom(x, Magnitude(x), Shift(x, -Magnitude(x)), D, n, r);
  }

  lemma {:induction false} SearchFrom(x: real, e: int, y: real, D: string, n: int, r: real)
    requires y > 0.0 && y == Shift(x, -e) && SignificantDigits(y, -e, 1) == Some((D, n))
    requires r == TimesTenTo(DigitsValue(D) as real, n - |D|)
    ensures |D| >= 1 && AllDigits(D) && r == x
  {
    SearchValue(y, -e, 1, D, n);
    SearchBack(x, e, y, |D| - n - -e, DigitsValue(D) as real, n - |D|, r);
  }

  lemma {:induction false} SearchBack(x: real, e: int, y: real, m: nat, v: real, z: int, r: real)
    requires y == Shift(x, -e) && v == Shift(y, m) && z + m == e && r == TimesTenTo(v, z)
    ensures r == x
  {
    ShiftValue(x, -e);
    var s := TimesTenTo(y, e);
    TimesTenShift(y, m, z, e, v, r, s);
    ScaleBackTo(x, -e, e, y, s);
  }

  /** `toString` text of a positive number is a numeral of that value. */
  lemma {:induction false} ShortPositiveValue(x: real, t: string)
    requires x > 0.0 && ShortPositive(x) == Some(t)
    ensures UnsignedDecimalValue(t) == Some(x) && PlainNumeral(t)
  {
    var D, n := ShortestDigits(x).value.0, ShortestDigits(x).value.1;
    var r := TimesTenTo(DigitsValue(D) as real, n - |D|);
    ShortestDigitsValue(x, D, n, r);
    LayoutValue(D, n, r);
  }


  /** `t` is a numeral of `x`: unsigned, or a minus sign before a numeral
      of `-x`. */
  predicate Denotes(t: string, x: real) {
    (PlainNumeral(t) && UnsignedDecimalValue(t) == Some(x)) ||
    (|t| >= 1 && t[0] == '-' && PlainNumeral(t[1..]) && UnsignedDecimalValue(t[1..]) == Some(-x))
  }

  lemma {:induction false} MinusSplit(t: string)
    requires |t| >= 1 && t[0] == '-'
    ensures t == "-" + t[1..]
  {
  }

  lemma {:induction false} NegatedNumeral(y: real, u: string, t: string)
    requires t == "-" + u && PlainNumeral(u) && UnsignedDecimalValue(u) == Some(y)
    ensures ParseDisplay(t) == Some(-y)
  {
    ParseNegative(u);
  }

  lemma {:induction false} MinusNumeralReadsBack(t: string, x: real)
    requires |t| >= 1 && t[0] == '-' && PlainNumeral(t[1..]) && UnsignedDecimalValue(t[1..]) == Some(-x)
    ensures ParseDisplay(t) == Some(x)
  {
    MinusSplit(t);
    NegatedNumeral(-x, t[1..], t);
  }

  /** A signed numeral is read back by the display parser as its value. */
  lemma {:induction false} DenotesReadsBack(t: string, x: real)
    requires Denotes(t, x)
    ensures ParseDisplay(t) == Some(x)
  {
    if PlainNumeral(t) && UnsignedDecimalValue(t) == Some(x) {
      ParseUnsigned(t);
    } else {
      MinusNumeralReadsBack(t, x);
    }
  }

  lemma {:induction false} ZeroDenotes()
    ensures Denotes("0", 0.0)
  {
    UnsignedPlain("0");
    MantissaWhole("0");
    assert DigitsValue("0") == 0;
  }

  lemma {:induction false} ShortNegativeText(x: real, t: string)
    requires x < 0.0 && ShortString(x) == Some(t)
    ensures ShortPositive(-x).Some? && t == "-" + ShortPositive(-x).value
  {
  }

  lemma {:induction false} NegativeDenotes(y: real, u: string, t: string)
    requires y > 0.0 && ShortPositive(y) == Some(u) && t == "-" + u
    ensures Denotes(t, -y)
  {
    ShortPositiveValue(y, u);
    assert t[1..] == u;
  }

  /** The plain `toString` text is a numeral of the number it shows. */
  lemma {:induction false} ShortStringDenotes(x: real, t: string)
    requires ShortString(x) == Some(t)
    ensures Denotes(t, x)
  {
    if x == 0.0 {
      ZeroDenotes();
    } else if x < 0.0 {
      ShortNegativeText(x, t);
      NegativeDenotes(-x, ShortPositive(-x).value, t);
    } else {
      ShortPositiveValue(x, t);
    }
  }

  /** Whenever the plain `toString` text is used it reads back as exactly
      the number it shows. */
  lemma {:induction false} ShortStringValue(x: real, t: string)
    requires ShortString(x) == Some(t)
    ensures ParseDisplay(t) == Some(x)
  {
    ShortStringDenotes(x, t);
    DenotesReadsBack(t, x);
  }

  lemma {:induction false} ExponentialPositiveValue(x: real)
    requires x > 0.0
    ensures UnsignedDecimalValue(ExponentialPositive(x)).Some?
  {
    var (digits, exponent) := RoundSeven(x);
    var D := NatDigits(digits);
    ScientificValue(D, exponent, exponent + 1 - |D|, TimesTenTo(DigitsValue(D) as real, exponent + 1 - |D|));
  }

  /** The `toExponential(6)` text of a positive number reads back as a number. */
  lemma {:induction false} ExponentialPositiveReadsBack(x: real)
    requires x > 0.0
    ensures ParseDisplay(Exponential(x)).Some?
  {
    ExponentialPositiveValue(x);
    ParseUnsigned(ExponentialPositive(x));
  }

  /** The `toExponential(6)` text of a negative number reads back as a number. */
  lemma {:induction false} ExponentialNegativeReadsBack(y: real, u: string)
    requires y > 0.0 && u == ExponentialPositive(y)
    ensures ParseDisplay("-" + u).Some?
  {
    ExponentialPositiveValue(y);
    ParseNegative(u);
  }

  /** The `toExponential(6)` text always reads back as a number. */
  lemma {:induction false} ExponentialReadsBack(x: real)
    requires x != 0.0
    ensures ParseDisplay(Exponential(x)).Some?
  {
    if x < 0.0 {
      ExponentialNegativeReadsBack(-x, ExponentialPositive(-x));
    } else {
      ExponentialPositiveReadsBack(x);
    }
  }

  lemma {:induction false} ShortestDigitsShape(x: real)
    requires x > 0.0
    ensures ShortestDigits(x).Some? ==> |ShortestDigits(x).value.0| >= 1 && AllDigits(ShortestDigits(x).value.0)
  {
    if ShortestDigits(x).Some? {
      var D, n := ShortestDigits(x).value.0, ShortestDigits(x).value.1;
      ShortestDigitsUnfold(x, D, n);
      SearchValue(Shift(x, -Magnitude(x)), -Magnitude(x), 1, D, n);
    }
  }

  /** The text of a finite number is never "Error": it starts with a digit
      or a minus sign. */
  lemma {:induction false} FormatFiniteShape(x: real)
    ensures FormatFinite(x) != [] && (IsDigit(FormatFinite(x)[0]) || FormatFinite(x)[0] == '-')
  {
    if x > 0.0 {
      ShortestDigitsShape(x);
    } else if x < 0.0 {
      ShortestDigitsShape(-x);
    }
  }

  /** "Error" is shown exactly for NaN and the infinities, and it is the
      one text that does not read back as a number. */
  lemma {:induction false} FormatResultError(n: Num)
    ensures FormatResult(n) == "Error" <==> !n.Finite?
    ensures ParseDisplay(FormatResult(n)).Some? <==> n.Finite?
  {
    if n.Finite? {
      var x := n.value;
      FormatFiniteShape(x);
      assert FormatResult(n)[0] != 'E';
      FormatFiniteReadsBack(x);
    }
  }

  /** The text of every finite number reads back as a number, and as that
      very number whenever the plain `toString` text is shown. */
  lemma {:induction false} FormatFiniteReadsBack(x: real)
    ensures ParseDisplay(FormatFinite(x)).Some?
    ensures ShortString(x).Some? && |ShortString(x).value| <= 12 ==> ParseDisplay(FormatFinite(x)) == Some(x)
  {
    match ShortString(x)
    case Some(t) =>
      ShortStringValue(x, t);
      if |t| > 12 {
        ExponentialReadsBack(x);
      }
    case None =>
      ExponentialReadsBack(x);
  }

  // ---------------------------------------------------------------------
  // At most one decimal point

  predicate AtMostOnePoint(t: string) {
    multiset(t)['.'] <= 1
  }

  lemma {:induction false} DigitSlicesHaveNoPoint(D: string, j: nat)
    requires AllDigits(D) && j <= |D|
    ensures multiset(D[..j])['.'] == 0 && multiset(D[j..])['.'] == 0
  {
    assert AllDigits(D[..j]) && AllDigits(D[j..]) by {
      forall i | 0 <= i < j ensures IsDigit(D[..j][i]) {
        assert D[..j][i] == D[i];
      }
      forall i | 0 <= i < |D| - j ensures IsDigit(D[j..][i]) {
        assert D[j..][i] == D[j + i];
      }
    }
    DigitsHaveNoPoint(D[..j]);
    DigitsHaveNoPoint(D[j..]);
  }

  lemma {:induction false} ExponentSuffixHasNoPoint(x: int)
    ensures multiset(ExponentSuffix(x))['.'] == 0
  {
    var sign := if x >= 0 then "+" else "-";
    DigitsHaveNoPoint(NatDigits(Abs(x)));
    assert ExponentSuffix(x) == "e" + sign + NatDigits(Abs(x));
  }

  /** The exponential form has exactly one point when it has more than one
      digit, and none otherwise. */
  lemma {:induction false} ScientificOnePoint(D: string, x: int)
    requires |D| >= 1 && AllDigits(D)
    ensures AtMostOnePoint(Scientific(D, x))
  {
    var m := if |D| == 1 then D else D[..1] + "." + D[1..];
    DigitsHaveNoPoint(D);
    DigitSlicesHaveNoPoint(D, 1);
    ExponentSuffixHasNoPoint(x);
    assert Scientific(D, x) == m + ExponentSuffix(x);
  }

  lemma {:induction false} LayoutOnePoint(D: string, n: int)
    requires |D| >= 1 && AllDigits(D)
    ensures AtMostOnePoint(Layout(D, n))
  {
    var k := |D|;
    DigitsHaveNoPoint(D);
    if k <= n <= 21 {
      DigitsHaveNoPoint(Zeros(n - k));
      assert Layout(D, n) == D + Zeros(n - k);
    } else if 0 < n <= 21 {
      DigitSlicesHaveNoPoint(D, n);
      assert Layout(D, n) == D[..n] + "." + D[n..];
    } else if -6 < n <= 0 {
      DigitsHaveNoPoint(Zeros(-n));
      assert Layout(D, n) == "0." + Zeros(-n) + D;
    } else {
      ScientificOnePoint(D, n - 1);
    }
  }

  lemma {:induction false} ShortPositiveOnePoint(x: real, t: string)
    requires x > 0.0 && ShortPositive(x) == Some(t)
    ensures AtMostOnePoint(t)
  {
    ShortestDigitsShape(x);
    var D, n := ShortestDigits(x).value.0, ShortestDigits(x).value.1;
    LayoutOnePoint(D, n);
  }

  lemma {:induction false} NegativeOnePoint(y: real, u: string, t: string)
    requires y > 0.0 && ShortPositive(y) == Some(u) && t == "-" + u
    ensures AtMostOnePoint(t)
  {
    ShortPositiveOnePoint(y, u);
    assert multiset(t) == multiset("-") + multiset(u);
  }

  lemma {:induction false} ShortStringOnePoint(x: real, t: string)
    requires ShortString(x) == Some(t)
    ensures AtMostOnePoint(t)
  {
    if x == 0.0 {
      assert t == "0";
      DigitsHaveNoPoint(t);
    } else if x < 0.0 {
      ShortNegativeText(x, t);
      NegativeOnePoint(-x, ShortPositive(-x).value, t);
    } else {
      ShortPositiveOnePoint(x, t);
    }
  }

  lemma {:induction false} ExponentialOnePoint(x: real)
    requires x != 0.0
    ensures AtMostOnePoint(Exponential(x))
  {
    var y := if x < 0.0 then -x else x;
    var (digits, exponent) := RoundSeven(y);
    ScientificOnePoint(NatDigits(digits), exponent);
    assert ExponentialPositive(y) == Scientific(NatDigits(digits), exponent);
    if x < 0.0 {
      assert multiset(Exponential(x)) == multiset("-") + multiset(ExponentialPositive(y));
    }
  }

  /** Every text `formatResult` produces holds at most one decimal point. */
  lemma {:induction false} FormatResultOnePoint(n: Num)
    ensures AtMostOnePoint(FormatResult(n))
  {
    if n.Finite? {
      var x := n.value;
      match ShortString(x)
      case Some(t) =>
        ShortStringOnePoint(x, t);
        if |t| > 12 {
          ExponentialOnePoint(x);
        }
      case None =>
        ExponentialOnePoint(x);
    }
  }
}
