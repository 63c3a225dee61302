/** What a decimal text means: its digits before the point count whole units, those after it tenths, hundredths and so
    on, however many of them are written. */
module DecimalReads {
  import opened Decimals

  /** Digits, and a value, at ten to the `p` a unit. */
  function Written(whole: string, places: string, p: nat): int
    requires |places| <= p
  {
    DigitsValue(whole) * Pow10(p) + DigitsValue(places) * Pow10(p - |places|)
  }

  lemma {:induction false} ZerosAppended(s: string, k: nat)
    requires AllDigits(s)
    ensures |Zeros(k)| == k && AllDigits(s + Zeros(k)) && DigitsValue(s + Zeros(k)) == DigitsValue(s) * Pow10(k)
  {
    if k == 0 {
      assert s + Zeros(0) == s;
    } else {
      ZerosAppended(s, k - 1);
      var t := s + Zeros(k - 1);
      assert s + Zeros(k) == t + "0";
      OneZero(t);
      Tenfold(DigitsValue(s), Pow10(k - 1));
    }
  }

  lemma OneZero(t: string)
    requires AllDigits(t)
    ensures AllDigits(t + "0") && DigitsValue(t + "0") == 10 * DigitsValue(t)
  {
    assert (t + "0")[..|t|] == t;
  }

  lemma Tenfold(a: int, b: int)
    ensures 10 * (a * b) == a * (10 * b)
  {
  }

  lemma {:induction false} ValuesNatural(s: string)
    requires AllDigits(s)
    ensures DigitsValue(s) >= 0
  {
    if s != "" {
      ValuesNatural(s[..|s| - 1]);
    }
  }

  lemma {:induction false} PowersPositive(p: nat)
    ensures Pow10(p) > 0
  {
    if p > 0 {
      PowersPositive(p - 1);
    }
  }

  /** No part is more than the whole. */
  lemma PartsFit(a: int, b: int, p: int, q: int)
    requires a >= 0 && b >= 0 && p > 0 && q > 0 && a * p + b * q < TWO63
    ensures 0 <= a < TWO63 && 0 <= a * p < TWO63 && 0 <= b * q < TWO63
  {
    assert b * q >= 0;
    assert a * p >= 0;
    assert a * (p - 1) >= 0;
    assert a * p == a * (p - 1) + a;
  }

  /** Digits after the point, padded to the precision. */
  lemma PlacesRead(places: string, p: nat)
    requires AllDigits(places) && |places| <= p && 0 <= DigitsValue(places) * Pow10(p - |places|) < TWO63
    ensures var padded := places + Zeros(p - |places|);
            (if padded == "" then Number(0) else ParseInt(padded)) == Number(DigitsValue(places) * Pow10(p - |places|))
  {
    hide ParseInt, Pow10;
    ZerosAppended(places, p - |places|);
    var padded := places + Zeros(p - |places|);
    if padded != "" {
      ParseDigits(padded, DigitsValue(padded));
    } else {
      assert places == "" && DigitsValue("") == 0;
    }
  }

  /** Before the sign is considered. */
  lemma UnsignedRead(whole: string, places: string, negative: bool, p: nat)
    requires AllDigits(whole) && whole != "" && AllDigits(places) && |places| <= p && Written(whole, places, p) < TWO63
    ensures ParseUnsigned(whole + "." + places, negative, p) == Ok(Decimal(if negative then -Written(whole, places, p) else Written(whole, places, p), p))
    ensures places == "" ==> ParseUnsigned(whole, negative, p) == ParseUnsigned(whole + "." + places, negative, p)
  {
    hide ParseInt, Pow10, DigitsValue, Wrap64;
    ValuesNatural(whole);
    ValuesNatural(places);
    PowersPositive(p);
    PowersPositive(p - |places|);
    PartsFit(DigitsValue(whole), DigitsValue(places), Pow10(p), Pow10(p - |places|));
    NoPoint(whole);
    SplitsAt(whole, places);
    ParseDigits(whole, DigitsValue(whole));
    PlacesRead(places, p);
    RecombinedFits(DigitsValue(whole), DigitsValue(places) * Pow10(p - |places|), negative, p);
    WrapFits(-Written(whole, places, p));
    NotFound(whole);
  }

  lemma NoPoint(s: string)
    requires AllDigits(s)
    ensures '.' !in s && '-' !in s
  {
  }

  lemma NotFound(s: string)
    requires '.' !in s
    ensures IndexOf(s, '.') < 0
  {
  }

  /** A text of digits, with a point and up to as many further digits as the precision allows, means what it says; a
      minus in front makes it negative, and an absent fraction is none. */
  lemma ReadsAsWritten(whole: string, places: string, p: nat)
    requires AllDigits(whole) && whole != "" && AllDigits(places) && |places| <= p && Written(whole, places, p) < TWO63
    ensures Parse(whole + "." + places, p) == Ok(Decimal(Written(whole, places, p), p))
    ensures Parse("-" + (whole + "." + places), p) == Ok(Decimal(-Written(whole, places, p), p))
    ensures places == "" ==> Parse(whole, p) == Ok(Decimal(Written(whole, "", p), p)) && Parse("-" + whole, p) == Ok(Decimal(-Written(whole, "", p), p))
  {
    hide ParseUnsigned, Pow10, DigitsValue;
    UnsignedRead(whole, places, false, p);
    UnsignedRead(whole, places, true, p);
    assert IsDigit(whole[0]) && (whole + "." + places)[0] == whole[0];
    ParseSign(whole + "." + places, p);
    ParseSign(whole, p);
  }

  /** More digits after the point than the precision has are refused, whatever stands around them. */
  lemma TooManyPlaces(whole: string, places: string, p: nat)
    requires AllDigits(whole) && whole != "" && |places| > p
    ensures Parse(whole + "." + places, p) == TooPrecise && Parse("-" + (whole + "." + places), p) == TooPrecise
  {
    NoPoint(whole);
    assert IsDigit(whole[0]) && (whole + "." + places)[0] == whole[0];
    ParseSign(whole + "." + places, p);
    PlacesTooLong(whole, places, false, p);
    PlacesTooLong(whole, places, true, p);
  }
}
