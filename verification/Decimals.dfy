/** Fixed-point decimals: an int64 mantissa and a number of decimal places, printed and parsed. */
module Decimals {

  const TWO63: int := 0x8000_0000_0000_0000
  const TWO64: int := 0x1_0000_0000_0000_0000
  const MIN_INT64: int := -TWO63

  predicate InInt64(x: int) {
    -TWO63 <= x < TWO63
  }

  /** What a 64-bit signed operation leaves of the exact result. */
  function Wrap64(x: int): (r: int)
    ensures InInt64(r)
  {
    (x + TWO63) % TWO64 - TWO63
  }

  /** Division and remainder as Go has them: the quotient truncates toward zero. */
  function GoDiv(a: int, b: int): int
    requires b != 0
  {
    if (a < 0) == (b < 0) then Mag(a) / Mag(b) else -(Mag(a) / Mag(b))
  }

  function GoRem(a: int, b: int): int
    requires b != 0
  {
    if a < 0 then -(Mag(a) % Mag(b)) else Mag(a) % Mag(b)
  }

  function Mag(a: int): nat {
    if a < 0 then -a else a
  }

  function Pow10(n: nat): (r: int)
    ensures r > 0
  {
    if n == 0 then 1 else 10 * Pow10(n - 1)
  }

  datatype Decimal = Decimal(value: int, precision: nat) {
    /** What the type admits: a 64-bit mantissa and at most 18 places. */
    predicate Fits() {
      InInt64(value) && precision <= 18
    }
  }

  datatype Parsed = Ok(value: Decimal) | Empty | BareMinus | TooPrecise | BadNumber

  // ----- The table of powers -----

  lemma Powers()
    ensures Pow10(0) == 1 && Pow10(1) == 10 && Pow10(2) == 100 && Pow10(3) == 1_000
    ensures Pow10(4) == 10_000 && Pow10(5) == 100_000 && Pow10(6) == 1_000_000
    ensures Pow10(7) == 10_000_000 && Pow10(8) == 100_000_000 && Pow10(9) == 1_000_000_000
    ensures Pow10(10) == 10_000_000_000 && Pow10(11) == 100_000_000_000 && Pow10(12) == 1_000_000_000_000
    ensures Pow10(13) == 10_000_000_000_000 && Pow10(14) == 100_000_000_000_000 && Pow10(15) == 1_000_000_000_000_000
    ensures Pow10(16) == 10_000_000_000_000_000 && Pow10(17) == 100_000_000_000_000_000
    ensures Pow10(18) == 1_000_000_000_000_000_000
  {
  }

  lemma Pow10Fits(n: nat)
    requires n <= 18
    ensures Pow10(n) < TWO63
  {
    hide Pow10;
    Powers();
  }

  lemma NextPower(n: nat)
    requires 0 < n <= 18
    ensures Wrap64(Pow10(n - 1) * 10) == Pow10(n)
  {
    Pow10Fits(n);
  }

  /** The package's lookup table, filled by repeated 64-bit multiplication: no entry overflows. */
  method PowerTable() returns (pow10: array<int>)
    ensures pow10.Length == 19 && forall i :: 0 <= i < 19 ==> pow10[i] == Pow10(i)
  {
    hide Pow10, Wrap64;
    pow10 := new int[19];
    Powers();
    pow10[0] := 1;
    for i := 1 to 19
      invariant forall j :: 0 <= j < i ==> pow10[j] == Pow10(j)
    {
      NextPower(i);
      pow10[i] := Wrap64(pow10[i - 1] * 10);
    }
  }

  // ----- Text of integers -----

  predicate IsDigit(c: char) {
    '0' <= c <= '9'
  }

  function DigitOf(n: nat): (c: char)
    requires n < 10
    ensures IsDigit(c) && ValueOf(c) == n
  {
    "0123456789"[n]
  }

  function ValueOf(c: char): int {
    c as int - '0' as int
  }

  predicate AllDigits(s: string) {
    forall i :: 0 <= i < |s| ==> IsDigit(s[i])
  }

  function Digits(n: nat): string {
    if n < 10 then [DigitOf(n)] else Digits(n / 10) + [DigitOf(n % 10)]
  }

  function DigitsValue(s: string): int {
    if s == [] then 0 else 10 * DigitsValue(s[..|s| - 1]) + ValueOf(s[|s| - 1])
  }

  function Zeros(n: int): string {
    if n <= 0 then "" else Zeros(n - 1) + "0"
  }

  function FormatInt(v: int): string {
    if v < 0 then "-" + Digits(-v) else Digits(v)
  }

  /** Zero-padded to `width`, the sign counted. */
  function FormatPadded(width: int, v: int): string {
    if v < 0 then "-" + Zeros(width - 1 - |Digits(-v)|) + Digits(-v) else Zeros(width - |Digits(v)|) + Digits(v)
  }

  datatype Number = NaN | Number(n: int)

  /** A signed 64-bit decimal number: an optional sign, at least one digit, and in range. */
  function ParseInt(s: string): Number {
    var body := if s != [] && (s[0] == '-' || s[0] == '+') then s[1..] else s;
    var v := if s != [] && s[0] == '-' then -DigitsValue(body) else DigitsValue(body);
    if body == [] || !AllDigits(body) || !InInt64(v) then NaN else Number(v)
  }

  function IndexOf(s: string, c: char): (i: int)
    ensures -1 <= i < |s|
    ensures i >= 0 ==> s[i] == c && forall j :: 0 <= j < i ==> s[j] != c
    ensures i < 0 ==> c !in s
  {
    if s == [] then -1 else if s[0] == c then 0 else
      var k := IndexOf(s[1..], c);
      if k < 0 then -1 else k + 1
  }

  // ----- Printing and parsing -----

  /** The decimal's text, always with its full number of places. */
  function Text(d: Decimal): string {
    if d.precision == 0 then FormatInt(d.value)
    else
      var abs := if d.value < 0 then Wrap64(-d.value) else d.value;
      (if d.value < 0 then "-" else "") + Halves(abs, d.precision)
  }

  /** Integer and fraction part around the point. */
  function Halves(abs: int, precision: nat): string {
    var p := Pow10(precision);
    FormatInt(GoDiv(abs, p)) + "." + FormatPadded(precision, GoRem(abs, p))
  }

  /** Integer part and fraction joined at the precision, every step in 64 bits. */
  function Recombined(iv: int, fv: int, negative: bool, precision: nat): int {
    var result := Wrap64(Wrap64(Scaled(iv, precision)) + fv);
    if negative then Wrap64(-result) else result
  }

  function Scaled(iv: int, precision: nat): int {
    iv * Pow10(precision)
  }

  lemma WrapFits(x: int)
    requires InInt64(x)
    ensures Wrap64(x) == x
  {
  }

  lemma RecombinedFits(iv: int, fv: int, negative: bool, precision: nat)
    requires InInt64(Scaled(iv, precision)) && InInt64(Scaled(iv, precision) + fv)
    ensures Recombined(iv, fv, negative, precision)
         == if negative then Wrap64(-(Scaled(iv, precision) + fv)) else Scaled(iv, precision) + fv
  {
    hide Scaled;
  }

  /** The part of a parse after the sign: integer and fraction digits, joined at the precision. */
  function ParseUnsigned(s: string, negative: bool, precision: nat): Parsed {
    var dot := IndexOf(s, '.');
    var whole := if dot < 0 then s else s[..dot];
    var places := if dot < 0 then "" else s[dot + 1..];
    if |places| > precision then TooPrecise
    else
      var iv := ParseInt(if whole == "" then "0" else whole);
      if iv == NaN then BadNumber
      else
        var padded := places + Zeros(precision - |places|);
        var fv := if padded == "" then Number(0) else ParseInt(padded);
        if fv == NaN then BadNumber
        else
          Ok(Decimal(Recombined(iv.n, fv.n, negative, precision), precision))
  }

  function Parse(s: string, precision: nat): Parsed {
    if s == "" then Empty
    else if s == "-" then BareMinus
    else ParseUnsigned(if s[0] == '-' then s[1..] else s, s[0] == '-', precision)
  }

  /** The fraction padded, one zero at a time, to the full number of places. */
  method PadPlaces(places: string, precision: nat) returns (padded: string)
    requires |places| <= precision
    ensures padded == places + Zeros(precision - |places|)
  {
    padded := places;
    while |padded| < precision
      invariant |places| <= |padded| <= precision && padded == places + Zeros(|padded| - |places|)
    {
      padded := padded + "0";
    }
  }

  method ParseDecimal(s: string, precision: nat) returns (r: Parsed)
    requires precision <= 18
    ensures r == Parse(s, precision)
  {
    hide Recombined, ParseInt, Zeros, ParseUnsigned;
    if s == "" {
      return Empty;
    }
    var negative, t := false, s;
    if t[0] == '-' {
      negative, t := true, t[1..];
      if t == "" {
        assert s == "-";
        return BareMinus;
      }
    }
    r := ParseMagnitude(t, negative, precision);
  }

  /** The part of ParseDecimal after the sign. */
  method ParseMagnitude(t: string, negative: bool, precision: nat) returns (r: Parsed)
    requires precision <= 18
    ensures r == ParseUnsigned(t, negative, precision)
  {
    hide Recombined, ParseInt, Zeros;
    var dotIdx := IndexOf(t, '.');
    var intPart, fracPart := t, "";
    if dotIdx != -1 {
      intPart, fracPart := t[..dotIdx], t[dotIdx + 1..];
      if |fracPart| > precision {
        return TooPrecise;
      }
    }
    if intPart == "" {
      intPart := "0";
    }
    var iv := ParseInt(intPart);
    if iv == NaN {
      return BadNumber;
    }
    fracPart := PadPlaces(fracPart, precision);
    var fv := 0;
    if fracPart != "" {
      var f := ParseInt(fracPart);
      if f == NaN {
        return BadNumber;
      }
      fv := f.n;
    }
    r := Ok(Decimal(Recombined(iv.n, fv, negative, precision), precision));
  }

  /** The precision a JSON string stands for: its number of places, or the receiver's own. */
  function PrecisionOf(s: string, own: nat): nat {
    var dot := IndexOf(s, '.');
    if dot < 0 then own else if |s| - dot - 1 > 18 then 18 else |s| - dot - 1
  }

  /** A decimal that a JSON document is read into. */
  class DecimalVar {
    var d: Decimal

    constructor ()
      ensures d == Decimal(0, 0)
    {
      d := Decimal(0, 0);
    }

    /** `s` is the text between the quotes. A failed parse leaves the receiver alone. */
    method UnmarshalJSON(s: string) returns (ok: bool)
      requires d.precision <= 18
      modifies this
      ensures var r := Parse(s, PrecisionOf(s, old(d).precision));
              ok == r.Ok? && d == if r.Ok? then r.value else old(d)
    {
      var precision := d.precision;
      var dot := IndexOf(s, '.');
      if dot >= 0 {
        precision := if |s| - dot - 1 > 18 then 18 else |s| - dot - 1;
      }
      var parsed := ParseDecimal(s, precision);
      if !parsed.Ok? {
        return false;
      }
      d := parsed.value;
      ok := true;
    }
  }

  // ----- Round trip -----

  lemma {:induction false} DigitsRead(n: nat)
    ensures |Digits(n)| > 0 && AllDigits(Digits(n)) && DigitsValue(Digits(n)) == n
  {
    if n >= 10 {
      DigitsRead(n / 10);
      assert Digits(n)[..|Digits(n)| - 1] == Digits(n / 10);
    } else {
      assert Digits(n)[..0] == [];
    }
  }

  /** `n` takes at most `p` digits exactly when it is below ten to the `p`. */
  lemma {:induction false} DigitsLength(n: nat, p: nat)
    requires p > 0
    ensures |Digits(n)| <= p <==> n < Pow10(p)
  {
    if n >= 10 {
      DigitsRead(n / 10);
      if p > 1 {
        DigitsLength(n / 10, p - 1);
      }
    }
    assert Pow10(p) == 10 * Pow10(p - 1);
  }

  lemma {:induction false} ZerosRead(k: nat, s: string)
    requires AllDigits(s)
    ensures |Zeros(k)| == k && AllDigits(Zeros(k) + s) && DigitsValue(Zeros(k) + s) == DigitsValue(s)
  {
    if k == 0 {
      assert Zeros(0) + s == s;
    } else {
      assert AllDigits("0" + s);
      ZerosRead(k - 1, "0" + s);
      assert Zeros(k) + s == Zeros(k - 1) + ("0" + s);
      LeadingZero(s);
      ZerosRead(k - 1, []);
    }
  }

  lemma {:induction false} LeadingZero(s: string)
    ensures DigitsValue("0" + s) == DigitsValue(s)
  {
    if s != [] {
      LeadingZero(s[..|s| - 1]);
      assert ("0" + s)[..|s|] == "0" + s[..|s| - 1];
    } else {
      assert ("0" + s)[..0] == [];
    }
  }

  lemma ParseDigits(s: string, n: int)
    requires AllDigits(s) && s != "" && DigitsValue(s) == n && n >= 0
    ensures ParseInt(s) == if n < TWO63 then Number(n) else NaN
    ensures n <= TWO63 ==> ParseInt("-" + s) == Number(-n)
  {
    hide DigitsValue;
    assert IsDigit(s[0]);
    assert ("-" + s)[1..] == s;
  }

  /** Reading the digits of a number, signed or padded, gives it back. */
  lemma ReadsBack(n: int, k: nat)
    requires n >= 0
    ensures var s := Zeros(k) + Digits(n);
            && AllDigits(s) && |s| == k + |Digits(n)| && '.' !in s && '-' !in Digits(n) && '.' !in Digits(n)
            && (n < TWO63 ==> ParseInt(s) == Number(n))
            && (n <= TWO63 ==> ParseInt("-" + s) == Number(-n))
  {
    hide Digits, Zeros, DigitsValue, ParseInt;
    DigitsRead(n);
    ZerosRead(k, Digits(n));
    ParseDigits(Zeros(k) + Digits(n), n);
  }

  /** Splitting at the point gives back what was joined there. */
  lemma SplitsAt(a: string, b: string)
    requires '.' !in a
    ensures var s := a + "." + b; IndexOf(s, '.') == |a| && s[..|a|] == a && s[|a| + 1..] == b
  {
    var s := a + "." + b;
    assert s[|a|] == '.';
    assert forall j :: 0 <= j < |a| ==> s[j] == a[j];
  }

  /** The two halves of a printed decimal, joined again at its precision. */
  lemma ParseHalves(whole: string, places: string, iv: int, fv: int, negative: bool, p: nat)
    requires 0 < p <= 18 && whole != "" && '.' !in whole && |places| == p
    requires ParseInt(whole) == Number(iv) && ParseInt(places) == Number(fv)
    requires InInt64(Scaled(iv, p)) && InInt64(Scaled(iv, p) + fv)
    ensures ParseUnsigned(whole + "." + places, negative, p)
         == Ok(Decimal(if negative then Wrap64(-(Scaled(iv, p) + fv)) else Scaled(iv, p) + fv, p))
  {
    hide ParseInt, Recombined, Pow10, Scaled, Wrap64;
    SplitsAt(whole, places);
    RecombinedFits(iv, fv, negative, p);
    assert places + Zeros(0) == places;
  }

  /** The sign is taken off first. */
  lemma ParseSign(t: string, p: nat)
    requires t != ""
    ensures Parse("-" + t, p) == ParseUnsigned(t, true, p)
    ensures t[0] != '-' ==> Parse(t, p) == ParseUnsigned(t, false, p)
  {
    hide ParseUnsigned;
    assert ("-" + t)[1..] == t;
  }

  lemma PrecisionAt(a: string, b: string, own: nat)
    requires '.' !in a && |b| <= 18
    ensures PrecisionOf(a + "." + b, own) == |b|
  {
    SplitsAt(a, b);
  }

  /** Quotient and remainder by a power of ten rebuild the number. */
  lemma Division(a: nat, p: nat)
    ensures var q, r := a / Pow10(p), a % Pow10(p);
            0 <= q <= a && 0 <= r < Pow10(p) && Scaled(q, p) + r == a && Scaled(q, p) >= 0
  {
    DivisionFacts(a, Pow10(p));
  }

  lemma DivisionFacts(a: int, b: int)
    requires a >= 0 && b > 0
    ensures 0 <= a / b <= a && 0 <= a % b < b && (a / b) * b + a % b == a && (a / b) * b >= 0
  {
    var q, r := a / b, a % b;
    assert a == q * b + r;
    assert q >= 0;
    QuotientSmall(q, b, r);
  }

  lemma QuotientSmall(q: int, b: int, r: int)
    requires q >= 0 && b > 0 && r >= 0
    ensures 0 <= q <= q * b + r && q * b >= 0
  {
    assert q * b == q + q * (b - 1);
  }

  lemma ScaledNegative(q: int, p: nat)
    ensures Scaled(-q, p) == -Scaled(q, p)
  {
  }

  /** The halves of a magnitude that has a sign-free form. */
  lemma HalvesOf(n: int, p: nat, i: int, f: int)
    requires 0 <= n && 0 < p && i == n / Pow10(p) && f == n % Pow10(p) && 0 <= i < TWO63 && 0 <= f < TWO63 && f < Pow10(p)
    ensures Halves(n, p) == Digits(i) + "." + (Zeros(p - |Digits(f)|) + Digits(f))
    ensures '.' !in Digits(i) && Digits(i) != "" && IsDigit(Digits(i)[0]) && ParseInt(Digits(i)) == Number(i)
    ensures |Zeros(p - |Digits(f)|) + Digits(f)| == p && ParseInt(Zeros(p - |Digits(f)|) + Digits(f)) == Number(f)
  {
    hide Pow10, ParseInt, IsDigit, DigitsValue;
    assert GoDiv(n, Pow10(p)) == i && GoRem(n, Pow10(p)) == f;
    hide GoDiv, GoRem;
    ReadsBack(i, 0);
    assert Zeros(0) + Digits(i) == Digits(i);
    DigitsRead(i);
    DigitsLength(f, p);
    ReadsBack(f, p - |Digits(f)|);
  }

  /** Every value but the smallest int64 survives printing and parsing, at every precision. */
  lemma RoundTripBelow(d: Decimal)
    requires d.Fits() && d.value != MIN_INT64
    ensures Parse(Text(d), d.precision) == Ok(d) && PrecisionOf(Text(d), 0) == d.precision
  {
    hide Pow10, Halves, Digits, Zeros, ParseInt, Parse, Text, PrecisionOf, Scaled, IsDigit;
    var p := d.precision;
    var n: int := if d.value < 0 then -d.value else d.value;
    if p == 0 {
      PlainNumber(d, n);
    } else {
      Pow10Fits(p);
      Division(n, p);
      HalvesOf(n, p, n / Pow10(p), n % Pow10(p));
      PlacedNumber(d, n, n / Pow10(p), n % Pow10(p));
    }
  }

  /** What is printed of a decimal, from its magnitude's digits. */
  lemma TextOf(d: Decimal, n: int)
    requires 0 <= n < TWO63 && d.value == if d.value < 0 then -n else n
    ensures d.precision > 0 ==> Text(d) == if d.value < 0 then "-" + Halves(n, d.precision) else Halves(n, d.precision)
    ensures d.precision == 0 ==> Text(d) == if d.value < 0 then "-" + Digits(n) else Digits(n)
  {
    hide Halves, Digits, Wrap64;
    WrapFits(n);
  }

  lemma DigitFirst(s: string)
    requires s != "" && IsDigit(s[0])
    ensures s[0] != '-'
  {
  }

  lemma PlacedNumber(d: Decimal, n: int, i: int, f: int)
    requires 0 < d.precision <= 18 && 0 <= n < TWO63 && d.value == (if d.value < 0 then -n else n)
    requires i >= 0 && f >= 0 && Scaled(i, d.precision) + f == n && Scaled(i, d.precision) >= 0
    requires Halves(n, d.precision) == Digits(i) + "." + (Zeros(d.precision - |Digits(f)|) + Digits(f))
    requires '.' !in Digits(i) && Digits(i) != "" && IsDigit(Digits(i)[0]) && ParseInt(Digits(i)) == Number(i)
    requires var places := Zeros(d.precision - |Digits(f)|) + Digits(f); |places| == d.precision && ParseInt(places) == Number(f)
    ensures Parse(Text(d), d.precision) == Ok(d) && PrecisionOf(Text(d), 0) == d.precision
  {
    hide Pow10, ParseInt, Halves, Recombined, Digits, FormatInt, ParseUnsigned, Parse, PrecisionOf, Wrap64, Zeros, IsDigit, Scaled, Text;
    var whole, places, s := Digits(i), Zeros(d.precision - |Digits(f)|) + Digits(f), Text(d);
    DigitFirst(whole);
    TextOf(d, n);
    WrapFits(n);
    WrapFits(-n);
    ParseHalves(whole, places, i, f, d.value < 0, d.precision);
    ParseSign(whole + "." + places, d.precision);
    if d.value < 0 {
      assert s == ("-" + whole) + "." + places;
      PrecisionAt("-" + whole, places, 0);
    } else {
      PrecisionAt(whole, places, 0);
      assert (whole + "." + places)[0] == whole[0];
    }
  }

  /** A string without a point, parsed at precision zero. */
  lemma ParsePlain(s: string, negative: bool)
    requires '.' !in s && s != ""
    ensures PrecisionOf(s, 0) == 0
    ensures ParseUnsigned(s, negative, 0)
         == match ParseInt(s) case NaN => BadNumber case Number(v) => Ok(Decimal(Recombined(v, 0, negative, 0), 0))
  {
    hide ParseInt, Recombined, Zeros;
    assert IndexOf(s, '.') == -1;
    EmptyPadding();
  }

  lemma EmptyPadding()
    ensures "" + Zeros(0) == ""
  {
  }

  lemma PlainDigits(n: int)
    requires n >= 0
    ensures Digits(n) != "" && IsDigit(Digits(n)[0]) && '.' !in Digits(n) && '.' !in "-" + Digits(n)
    ensures ParseInt(Digits(n)) == if n < TWO63 then Number(n) else NaN
  {
    hide DigitsValue, Digits;
    DigitsRead(n);
  }

  lemma ScaledPlain(n: int)
    ensures Scaled(n, 0) == n
  {
  }

  /** A number without a point, printed and parsed at precision zero. */
  lemma PlainNumber(d: Decimal, n: int)
    requires d.precision == 0 && 0 <= n < TWO63 && d.value == if d.value < 0 then -n else n
    ensures Parse(Text(d), 0) == Ok(d) && PrecisionOf(Text(d), 0) == 0
  {
    hide ParseInt, Digits, Text, Wrap64, Scaled, Pow10, Parse, Recombined, IsDigit, PrecisionOf, ParseUnsigned, Halves;
    var s := Digits(n);
    PlainDigits(n);
    DigitFirst(s);
    TextOf(d, n);
    ScaledPlain(n);
    WrapFits(n);
    WrapFits(-n);
    RecombinedFits(n, 0, d.value < 0, 0);
    ParseSign(s, 0);
    ParsePlain(s, d.value < 0);
    ParsePlain("-" + s, false);
  }

  /** The smallest int64 has no positive counterpart, so it prints with a sign in both halves. */
  lemma MinText(p: nat, i: int, f: int)
    requires 0 < p <= 18 && i == TWO63 / Pow10(p) && f == TWO63 % Pow10(p) && i > 0 && f > 0
    ensures Text(Decimal(MIN_INT64, p)) == "-" + ("-" + Digits(i) + "." + ("-" + Zeros(p - 1 - |Digits(f)|) + Digits(f)))
  {
    hide Pow10, Digits, Zeros;
    assert Wrap64(TWO63) == MIN_INT64;
    assert GoDiv(MIN_INT64, Pow10(p)) == -i && GoRem(MIN_INT64, Pow10(p)) == -f;
  }

  /** The last `p` decimal digits of the smallest int64 start with a zero at two precisions only. */
  lemma PowersOfMin(p: nat)
    requires 0 < p <= 18
    ensures TWO63 % Pow10(p) > 0 && TWO63 / Pow10(p) > 0
    ensures TWO63 % Pow10(p) < Pow10(p - 1) <==> p == 2 || p == 12
  {
    hide Pow10;
    Powers();
    assert p == 1 || p == 2 || p == 3 || p == 4 || p == 5 || p == 6 || p == 7 || p == 8 || p == 9 || p == 10
        || p == 11 || p == 12 || p == 13 || p == 14 || p == 15 || p == 16 || p == 17 || p == 18;
  }

  /** The fraction half of the smallest int64: one character too many, unless its first digit is zero. */
  lemma MinPlaces(p: nat, f: int)
    requires 0 < p <= 18 && 0 < f <= TWO63
    ensures var places := "-" + Zeros(p - 1 - |Digits(f)|) + Digits(f);
            && (f >= Pow10(p - 1) ==> |places| > p)
            && (p > 1 && f < Pow10(p - 1) ==> |places| == p && ParseInt(places) == Number(-f))
  {
    hide Pow10, ParseInt, Digits;
    DigitsRead(f);
    assert |Digits(f)| >= p ==> Zeros(p - 1 - |Digits(f)|) == "";
    if p > 1 {
      DigitsLength(f, p - 1);
      if |Digits(f)| <= p - 1 {
        var k := p - 1 - |Digits(f)|;
        ReadsBack(f, k);
        assert "-" + Zeros(k) + Digits(f) == "-" + (Zeros(k) + Digits(f));
      }
    }
  }

  /** The smallest int64 is refused on reading back, except at the two precisions where the stray
      sign takes the place of a leading zero: there both signs cancel and the value wraps home. */
  lemma RoundTripMin(p: nat)
    requires 0 < p <= 18
    ensures Parse(Text(Decimal(MIN_INT64, p)), p) == Ok(Decimal(MIN_INT64, p)) <==> p == 2 || p == 12
    ensures p == 2 || p == 12 ==> PrecisionOf(Text(Decimal(MIN_INT64, p)), 0) == p
  {
    hide Pow10, ParseInt, Text, Digits, Zeros, Recombined, Parse, ParseUnsigned, PrecisionOf, Scaled, Wrap64;
    PowersOfMin(p);
    Division(TWO63, p);
    var i, f := TWO63 / Pow10(p), TWO63 % Pow10(p);
    MinText(p, i, f);
    MinPlaces(p, f);
    WrapHome();
    var whole, places := "-" + Digits(i), "-" + Zeros(p - 1 - |Digits(f)|) + Digits(f);
    var s := Text(Decimal(MIN_INT64, p));
    assert s == "-" + (whole + "." + places) && s == ("-" + whole) + "." + places;
    MinWhole(i);
    ParseSign(whole + "." + places, p);
    if p == 2 || p == 12 {
      ScaledNegative(i, p);
      ParseHalves(whole, places, -i, -f, true, p);
      PrecisionAt("-" + whole, places, 0);
    } else {
      PlacesTooLong(whole, places, true, p);
    }
  }

  lemma PlacesTooLong(whole: string, places: string, negative: bool, p: nat)
    requires '.' !in whole && |places| > p
    ensures ParseUnsigned(whole + "." + places, negative, p) == TooPrecise
  {
    SplitsAt(whole, places);
  }

  lemma WrapHome()
    ensures Wrap64(TWO63) == MIN_INT64
  {
  }

  lemma MinWhole(i: int)
    requires 0 < i <= TWO63
    ensures '.' !in "-" + Digits(i) && '.' !in "-" + ("-" + Digits(i)) && ParseInt("-" + Digits(i)) == Number(-i)
  {
    hide Digits, ParseInt, AllDigits;
    ReadsBack(i, 0);
    assert Zeros(0) == "";
    assert Zeros(0) + Digits(i) == Digits(i);
  }

  /** At precision zero its magnitude alone is out of range. */
  lemma RoundTripMinPlain()
    ensures Parse(Text(Decimal(MIN_INT64, 0)), 0) == BadNumber
  {
    hide ParseInt, Digits, Parse, ParseUnsigned;
    var s := Digits(TWO63);
    PlainDigits(TWO63);
    ParseSign(s, 0);
    ParsePlain(s, true);
    assert Text(Decimal(MIN_INT64, 0)) == "-" + s;
  }

  /** Printing then parsing is the identity exactly for these decimals. */
  predicate Printable(d: Decimal) {
    d.value != MIN_INT64 || d.precision == 2 || d.precision == 12
  }

  lemma RoundTrip(d: Decimal)
    requires d.Fits()
    ensures Parse(Text(d), d.precision) == Ok(d) <==> Printable(d)
  {
    if d.value != MIN_INT64 {
      RoundTripBelow(d);
    } else if d.precision == 0 {
      RoundTripMinPlain();
    } else {
      RoundTripMin(d.precision);
    }
  }

  /** Reading a printed decimal into a fresh one recovers the value and, from its digits, the precision. */
  lemma JsonRoundTrip(d: Decimal)
    requires d.Fits() && Printable(d)
    ensures Parse(Text(d), PrecisionOf(Text(d), 0)) == Ok(d)
  {
    if d.value == MIN_INT64 {
      RoundTripMin(d.precision);
    } else {
      RoundTripBelow(d);
    }
  }

  // ----- Arithmetic -----

  function Sub(a: Decimal, b: Decimal): Decimal {
    Decimal(Wrap64(a.value - b.value), a.precision)
  }

  function Abs(a: Decimal): Decimal {
    if a.value < 0 then Decimal(Wrap64(-a.value), a.precision) else a
  }

  /** The quotient at `outPrecision`, both steps in 64 bits and truncating. */
  function Div(d: Decimal, other: Decimal, outPrecision: nat): Decimal
    requires other.value != 0
  {
    var scale := outPrecision + other.precision - d.precision;
    var numerator := if scale >= 0 then Wrap64(d.value * Pow10(scale)) else GoDiv(d.value, Pow10(-scale));
    Decimal(Wrap64(GoDiv(numerator, other.value)), outPrecision)
  }

  /** Price times quantity at the price's precision, or the panic of the 128-by-64 division. */
  datatype Product = Panics | Product(value: Decimal)

  function MulQty(d: Decimal, qty: Decimal): Product {
    var p := Pow10(qty.precision);
    var wide := Mag(d.value) * Mag(qty.value);
    if wide / TWO64 >= p then Panics
    else
      var q := Wrap64(wide / p);
      Product(Decimal(if (d.value < 0) != (qty.value < 0) then Wrap64(-q) else q, d.precision))
  }

  /** The notional is exact - the true product truncated toward zero - exactly when that fits 64 bits. */
  lemma MulQtyExact(d: Decimal, qty: Decimal)
    requires d.Fits() && qty.Fits()
    ensures MulQty(d, qty) == Product(Decimal(GoDiv(d.value * qty.value, Pow10(qty.precision)), d.precision))
         <==> InInt64(GoDiv(d.value * qty.value, Pow10(qty.precision)))
  {
    var p := Pow10(qty.precision);
    MagProduct(d.value, qty.value);
    hide Pow10;
    var wide := Mag(d.value) * Mag(qty.value);
    var q := wide / p;
    var negative := (d.value < 0) != (qty.value < 0);
    SignedDivision(d.value * qty.value, wide, p, negative);
    QuotientBound(wide, p);
    hide GoDiv, Mag;
    MulQtyCases(d, qty, q);
  }

  lemma SignedDivision(a: int, wide: nat, p: int, negative: bool)
    requires p > 0 && Mag(a) == wide && (wide > 0 ==> (a < 0) == negative)
    ensures GoDiv(a, p) == if negative then -(wide / p) else wide / p
  {
  }

  lemma MulQtyCases(d: Decimal, qty: Decimal, q: int)
    requires q == (Mag(d.value) * Mag(qty.value)) / Pow10(qty.precision) && q >= 0
    requires (Mag(d.value) * Mag(qty.value)) / TWO64 >= Pow10(qty.precision) <==> q >= TWO64
    ensures var exact := if (d.value < 0) != (qty.value < 0) then -q else q;
            MulQty(d, qty) == Product(Decimal(exact, d.precision)) <==> InInt64(exact)
  {
    hide Wrap64, Pow10, Mag;
    if q < TWO64 {
      SignedQuotient(q, (d.value < 0) != (qty.value < 0));
    }
  }

  /** A magnitude below two to the 64 survives the signed conversion exactly when the result fits. */
  lemma SignedQuotient(q: int, negative: bool)
    requires 0 <= q < TWO64
    ensures (if negative then Wrap64(-Wrap64(q)) else Wrap64(q)) == (if negative then -q else q)
         <==> InInt64(if negative then -q else q)
  {
  }

  lemma MagProduct(a: int, b: int)
    ensures Mag(a * b) == Mag(a) * Mag(b)
    ensures a * b < 0 <==> (a < 0) != (b < 0) && a != 0 && b != 0
  {
    var x: int, y: int := Mag(a), Mag(b);
    assert x != 0 && y != 0 ==> x * y > 0;
    if a < 0 && b < 0 {
      assert a * b == x * y;
    } else if a < 0 {
      assert a * b == -(x * y);
    } else if b < 0 {
      assert a * b == -(x * y);
    }
  }

  /** The division panics exactly when the quotient needs more than 64 bits. */
  lemma QuotientBound(wide: nat, p: int)
    requires p > 0
    ensures wide / TWO64 >= p <==> wide / p >= TWO64
  {
    AtLeast(wide, TWO64, p);
    AtLeast(wide, p, TWO64);
  }

  /** A quotient reaches `k` exactly when the dividend reaches `k` divisors. */
  lemma AtLeast(a: nat, b: int, k: int)
    requires b > 0
    ensures a / b >= k <==> a >= k * b
  {
    var q, r := a / b, a % b;
    assert a == q * b + r && 0 <= r < b;
    if q >= k {
      assert q * b >= k * b;
    } else {
      assert (q + 1) * b <= k * b;
      assert (q + 1) * b == q * b + b;
    }
  }
}
