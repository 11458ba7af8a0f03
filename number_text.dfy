/**
 * The two conversions between the display text and numbers:
 * `parseDisplay` (text to a finite number, or null) and `formatResult`
 * (number to text, or "Error"), with the pieces of JavaScript's `Number(...)`,
 * `trim`, `toString` and `toExponential(6)` that they rely on.
 */
module NumberText {
  import opened Wrappers
  import opened Numbers

  // ---------------------------------------------------------------------
  // Decimal digits and powers of ten

  predicate IsDigit(c: char) {
    '0' <= c <= '9'
  }

  predicate AllDigits(s: string) {
    forall i :: 0 <= i < |s| ==> IsDigit(s[i])
  }

  function DigitChar(d: nat): (c: char)
    requires d < 10
    ensures IsDigit(c)
  {
    ('0' as int + d) as char
  }

  function DigitValue(c: char): (d: nat)
    requires IsDigit(c)
    ensures d < 10
  {
    c as int - '0' as int
  }

  /** The value of a string of decimal digits, most significant digit first. */
  function DigitsValue(s: string): nat
    requires AllDigits(s)
  {
    if s == [] then 0 else 10 * DigitsValue(s[..|s| - 1]) + DigitValue(s[|s| - 1])
  }

  /** 10^n as a natural number, for the integer arithmetic on digit strings;
      `TenTo` below is the same power as a real, for scaling values, and
      `TenToIsPow10` relates the two. */
  function Pow10(n: nat): (p: nat)
    ensures p >= 1
  {
    if n == 0 then 1 else 10 * Pow10(n - 1)
  }

  /** 10^n as a real. */
  function TenTo(n: nat): (r: real)
    ensures r >= 1.0
  {
    if n == 0 then 1.0 else 10.0 * TenTo(n - 1)
  }

  /** 10 raised to an integer power. */
  function Scale(e: int): (r: real)
    ensures r > 0.0
  {
    if e >= 0 then TenTo(e) else 1.0 / TenTo(-e)
  }

  function Zeros(n: nat): (s: string)
    ensures |s| == n && AllDigits(s) && DigitsValue(s) == 0
  {
    if n == 0 then "" else Zeros(n - 1) + "0"
  }

  /** The decimal numeral of n, without leading zeros. */
  function NatDigits(n: nat): (s: string)
    ensures |s| > 0 && AllDigits(s) && DigitsValue(s) == n
    ensures s[0] == '0' <==> n == 0
  {
    if n < 10 then [DigitChar(n)]
    else
      var s := NatDigits(n / 10) + [DigitChar(n % 10)];
      assert s[..|s| - 1] == NatDigits(n / 10);
      s
  }

  function Abs(i: int): nat {
    if i < 0 then -i else i
  }

  // ---------------------------------------------------------------------
  // String.prototype.trim

  /** The white space and line terminator characters that `trim` and
      `Number(...)` strip (ECMAScript WhiteSpace and LineTerminator). */
  predicate IsWhitespace(c: char) {
    || c == '\t' || c == '\n' || c == '\U{0B}' || c == '\U{0C}' || c == '\r'
    || c == ' ' || c == '\U{A0}' || c == '\U{1680}'
    || ('\U{2000}' <= c <= '\U{200A}')
    || c == '\U{2028}' || c == '\U{2029}' || c == '\U{202F}' || c == '\U{205F}'
    || c == '\U{3000}' || c == '\U{FEFF}'
  }

  function TrimStart(s: string): (r: string)
    ensures |r| <= |s|
    ensures r == [] || !IsWhitespace(r[0])
    ensures s == [] || !IsWhitespace(s[0]) ==> r == s
  {
    if s != [] && IsWhitespace(s[0]) then TrimStart(s[1..]) else s
  }

  function TrimEnd(s: string): (r: string)
    ensures |r| <= |s|
    ensures r == [] || !IsWhitespace(r[|r| - 1])
    ensures s == [] || !IsWhitespace(s[|s| - 1]) ==> r == s
  {
    if s != [] && IsWhitespace(s[|s| - 1]) then TrimEnd(s[..|s| - 1]) else s
  }

  function Trim(s: string): string {
    TrimEnd(TrimStart(s))
  }

  // ---------------------------------------------------------------------
  // Number(string)

  /** The first index holding an exponent marker `e`/`E`, or |u| if none. */
  function ExponentIndex(u: string): (i: nat)
    ensures i <= |u|
    ensures forall j :: 0 <= j < i ==> u[j] != 'e' && u[j] != 'E'
    ensures i < |u| ==> u[i] == 'e' || u[i] == 'E'
  {
    if u == [] then 0
    else if u[0] == 'e' || u[0] == 'E' then 0
    else 1 + ExponentIndex(u[1..])
  }

  /** The first index holding a `.`, or |m| if none. */
  function PointIndex(m: string): (j: nat)
    ensures j <= |m|
    ensures forall i :: 0 <= i < j ==> m[i] != '.'
    ensures j < |m| ==> m[j] == '.'
  {
    if m == [] then 0
    else if m[0] == '.' then 0
    else 1 + PointIndex(m[1..])
  }

  /** `DecimalDigits`, `DecimalDigits . DecimalDigits?` or `. DecimalDigits`. */
  function MantissaValue(m: string): Option<real> {
    var j := PointIndex(m);
    if j == |m| then
      if m != [] && AllDigits(m) then Some(DigitsValue(m) as real) else None
    else
      var whole, fraction := m[..j], m[j + 1..];
      if AllDigits(whole) && AllDigits(fraction) && (whole != [] || fraction != []) then
        Some(DigitsValue(whole) as real + DigitsValue(fraction) as real / TenTo(|fraction|))
      else None
  }

  /** `SignedInteger` of an exponent part. */
  function ExponentValue(x: string): Option<int> {
    if x != [] && (x[0] == '+' || x[0] == '-') then
      var digits := x[1..];
      if digits != [] && AllDigits(digits) then
        var magnitude: int := DigitsValue(digits);
        Some(if x[0] == '-' then -magnitude else magnitude)
      else None
    else if x != [] && AllDigits(x) then Some(DigitsValue(x))
    else None
  }

  /** v·10^x. */
  function TimesTenTo(v: real, x: int): real {
    v * Scale(x)
  }

  /** v·10^s, by shifting the decimal point one place at a time. The digit
      search of `toString` multiplies by ten once per digit tried, so it is
      stated with this definition; `TimesTenTo` is the closed form the parser
      uses, and `ShiftValue` proves the two equal. */
  function Shift(v: real, s: int): (r: real)
    ensures v > 0.0 ==> r > 0.0
    decreases if s >= 0 then s else -s
  {
    if s == 0 then v
    else if s > 0 then Shift(10.0 * v, s - 1)
    else Shift(v / 10.0, s + 1)
  }

  /** `StrUnsignedDecimalLiteral` without `Infinity`: mantissa and optional exponent. */
  function UnsignedDecimalValue(u: string): Option<real> {
    var i := ExponentIndex(u);
    var mantissa := MantissaValue(u[..i]);
    var exponent := if i == |u| then Some(0) else ExponentValue(u[i + 1..]);
    if mantissa.Some? && exponent.Some? then Some(TimesTenTo(mantissa.value, exponent.value)) else None
  }

  function UnsignedDecimal(u: string): Num {
    if u == "Infinity" then Inf(false)
    else match UnsignedDecimalValue(u)
      case Some(r) => Finite(r)
      case None => NaN
  }

  function RadixDigitValue(c: char): nat {
    if '0' <= c <= '9' then c as int - '0' as int
    else if 'a' <= c <= 'f' then c as int - 'a' as int + 10
    else if 'A' <= c <= 'F' then c as int - 'A' as int + 10
    else 16
  }

  /** The value of a non-empty string of digits in the given radix. */
  function RadixValue(s: string, radix: nat): Option<nat>
    requires 2 <= radix <= 16
  {
    if s == [] then None
    else
      var d := RadixDigitValue(s[|s| - 1]);
      if d >= radix then None
      else if |s| == 1 then Some(d)
      else match RadixValue(s[..|s| - 1], radix)
        case Some(v) => Some(v * radix + d)
        case None => None
  }

  /** `0x`, `0o` and `0b` prefixes (either case) and their radix; 0 for none. */
  function RadixOfPrefix(t: string): nat {
    if |t| >= 2 && t[0] == '0' then
      if t[1] == 'x' || t[1] == 'X' then 16
      else if t[1] == 'o' || t[1] == 'O' then 8
      else if t[1] == 'b' || t[1] == 'B' then 2
      else 0
    else 0
  }

  /** `Number(s)` for a string argument (ECMAScript StringToNumber). */
  function StringToNumber(s: string): Num {
    var t := Trim(s);
    var radix := RadixOfPrefix(t);
    if t == [] then Finite(0.0)
    else if radix != 0 then
      match RadixValue(t[2..], radix)
      case Some(v) => Finite(v as real)
      case None => NaN
    else if t[0] == '+' then UnsignedDecimal(t[1..])
    else if t[0] == '-' then Negate(UnsignedDecimal(t[1..]))
    else UnsignedDecimal(t)
  }

  /** `parseDisplay`: null for blank text and for "Error"; otherwise the
      value of `Number(display)` when it is finite, and null when not. */
  function ParseDisplay(display: string): Option<real> {
    if Trim(display) == [] || display == "Error" then None
    else match StringToNumber(display)
      case Finite(r) => Some(r)
      case _ => None
  }

  // ---------------------------------------------------------------------
  // Number.prototype.toString and toExponential(6)

  lemma ScaleStep(e: int)
    ensures Scale(e + 1) == 10.0 * Scale(e)
  {
    if e < 0 {
      assert TenTo(-e) == 10.0 * TenTo(-e - 1);
    }
  }

  /** The decimal exponent of x: 10^e <= x < 10^(e+1). */
  function Magnitude(x: real): (e: int)
    requires x > 0.0
    ensures Scale(e) <= x < Scale(e + 1)
  {
    if x >= 1.0 then MagnitudeAbove(x) else MagnitudeBelow(x)
  }

  function MagnitudeAbove(x: real): (e: nat)
    requires x >= 1.0
    ensures Scale(e) <= x < Scale(e + 1)
    decreases x.Floor
  {
    if x < 10.0 then 0
    else
      assert (x / 10.0).Floor < x.Floor by {
        assert (x / 10.0).Floor as real <= x / 10.0 <= x - 1.0 < x.Floor as real;
      }
      var e := MagnitudeAbove(x / 10.0);
      ScaleStep(e);
      ScaleStep(e + 1);
      e + 1
  }

  function MagnitudeBelow(x: real): (e: int)
    requires 0.0 < x < 1.0
    ensures e < 0
    ensures Scale(e) <= x < Scale(e + 1)
    decreases (1.0 / x).Floor
  {
    if x * 10.0 >= 1.0 then
      ScaleStep(-1);
      -1
    else
      assert (1.0 / (x * 10.0)).Floor < (1.0 / x).Floor by {
        var y := 1.0 / x;
        assert y > 10.0;
        assert 1.0 / (x * 10.0) == y / 10.0;
        assert (y / 10.0).Floor as real <= y / 10.0 <= y - 1.0 < y.Floor as real;
      }
      var e := MagnitudeBelow(x * 10.0);
      ScaleStep(e - 1);
      ScaleStep(e);
      e - 1
  }

  /** The search for the fewest significant digits k <= 12 of x, where
      10^e <= x < 10^(e+1): y = x·10^shift with shift = k-1-e is tried for
      k = 1, 2, ..., and the digits D of the first integral y are returned,
      paired with the n for which x = y·10^(n-|D|); None when x needs more
      than 12 digits. */
  function SignificantDigits(y: real, shift: int, k: nat): Option<(string, int)>
    requires y > 0.0 && 1 <= k <= 12
    decreases 12 - k
  {
    if y.Floor as real == y then
      var D := NatDigits(y.Floor);
      Some((D, |D| - shift))
    else if k == 12 then None
    else SignificantDigits(10.0 * y, shift + 1, k + 1)
  }

  /** The shape of the unsigned numerals the display formats produce: a
      digit first and last, and a digit, the decimal point or the exponent
      marker second. */
  predicate PlainNumeral(t: string) {
    && t != [] && IsDigit(t[0]) && IsDigit(t[|t| - 1])
    && (|t| >= 2 ==> IsDigit(t[1]) || t[1] == '.' || t[1] == 'e')
  }

  /** The exponent part of the exponential forms: `e`, then the sign, then
      the digits of |x|. */
  function ExponentSuffix(x: int): (r: string)
    ensures |r| >= 3 && r[0] == 'e' && IsDigit(r[|r| - 1])
  {
    "e" + (if x >= 0 then "+" else "-") + NatDigits(Abs(x))
  }

  /** The exponential form of s·10^(x+1-k), where D holds the k digits of
      s: the first digit, a point before any further digits, then the
      exponent suffix. */
  function Scientific(D: string, x: int): (r: string)
    requires |D| >= 1 && AllDigits(D)
    ensures PlainNumeral(r) && |r| >= 2
  {
    var mantissa := if |D| == 1 then D else D[..1] + "." + D[1..];
    mantissa + ExponentSuffix(x)
  }

  /** The text of x = s·10^(n-k), where D holds the k digits of s (the
      layout rules of ECMAScript Number::toString). */
  function Layout(D: string, n: int): (r: string)
    requires |D| >= 1 && AllDigits(D)
    ensures PlainNumeral(r)
  {
    var k := |D|;
    if k <= n <= 21 then D + Zeros(n - k)
    else if 0 < n <= 21 then D[..n] + "." + D[n..]
    else if -6 < n <= 0 then "0." + Zeros(-n) + D
    else Scientific(D, n - 1)
  }

  /** `x.toString()` for x > 0 with at most 12 significant digits; None when
      x needs more, in which case that text is longer than 12 characters. */
  function ShortPositive(x: real): Option<string>
    requires x > 0.0
  {
    match ShortestDigits(x)
    case Some((D, n)) => Some(Layout(D, n))
    case None => None
  }

  /** The digit search for x > 0, started at one significant digit. */
  function ShortestDigits(x: real): Option<(string, int)>
    requires x > 0.0
  {
    var e := Magnitude(x);
    SignificantDigits(Shift(x, -e), -e, 1)
  }

  /** `x.toString()` when x has at most 12 significant digits. */
  function ShortString(x: real): Option<string> {
    if x == 0.0 then Some("0")
    else if x < 0.0 then
      match ShortPositive(-x)
      case Some(s) => Some("-" + s)
      case None => None
    else ShortPositive(x)
  }

  /** The seven significant digits of x > 0 as an integer m, the last
      rounded half up, with the exponent of the first digit: x is about
      m·10^(e-6). A carry into an eighth digit gives (10^6, e + 1). */
  function RoundSeven(x: real): (nat, int)
    requires x > 0.0
  {
    var e := Magnitude(x);
    var m: nat := (Shift(x, 6 - e) + 0.5).Floor;
    if m >= Pow10(7) then (Pow10(6), e + 1) else (m, e)
  }

  /** `x.toExponential(6)` for x > 0. */
  function ExponentialPositive(x: real): (r: string)
    requires x > 0.0
    ensures PlainNumeral(r) && |r| >= 2
  {
    var (digits, exponent) := RoundSeven(x);
    Scientific(NatDigits(digits), exponent)
  }

  function Exponential(x: real): string
    requires x != 0.0
  {
    if x < 0.0 then "-" + ExponentialPositive(-x) else ExponentialPositive(x)
  }

  /** `value.toString()`, switched to `toExponential(6)` when longer than 12. */
  function FormatFinite(x: real): string {
    match ShortString(x)
    case Some(s) => if |s| > 12 then Exponential(x) else s
    case None => Exponential(x)
  }

  /** `formatResult`: "Error" for NaN and for infinities, otherwise the
      number's text. */
  function FormatResult(n: Num): string {
    if n.NaN? then "Error"
    else if !n.Finite? then "Error"
    else FormatFinite(n.value)
  }
}
