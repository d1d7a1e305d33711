/**
 Decimal numerals as strings, and `toLegacyDecString` of create-validator.js, which
 scales a decimal string by 10^18 without arithmetic.
 */
module Decimal {
  import opened Numerals
  import opened Text

  predicate IsDigit(c: char) {
    '0' <= c <= '9'
  }

  predicate AreDigits(s: string) {
    forall i :: 0 <= i < |s| ==> IsDigit(s[i])
  }

  // The number a digit string denotes; the empty string denotes 0.
  function Value(s: string): nat
    requires AreDigits(s)
  {
    if s == "" then 0 else Value(s[..|s| - 1]) * 10 + (s[|s| - 1] as int - '0' as int)
  }

  // str(n): the numeral of n, with no leading zero.
  function Numeral(n: nat): (s: string)
    ensures s != "" && AreDigits(s)
    ensures |s| > 1 ==> s[0] != '0'
    ensures n > 0 ==> s[0] != '0'
  {
    var last := ('0' as int + n % 10) as char;
    if n < 10 then [last] else Numeral(n / 10) + [last]
  }

  lemma {:induction false} ValueOfNumeral(n: nat)
    ensures Value(Numeral(n)) == n
  {
    if n >= 10 {
      ValueOfNumeral(n / 10);
      assert Numeral(n)[..|Numeral(n)| - 1] == Numeral(n / 10);
    } else {
      assert Numeral(n)[..0] == "";
    }
  }

  // A digit string without a leading zero is the numeral of its value.
  lemma {:induction false} NumeralOfValue(s: string)
    requires s != "" && AreDigits(s) && (|s| > 1 ==> s[0] != '0')
    ensures Numeral(Value(s)) == s
    ensures |s| > 1 ==> Value(s) >= 10
  {
    var n := |s| - 1;
    if n == 0 {
      assert Value(s[..0]) == 0;
      assert s == [s[0]];
    } else {
      var v := Value(s[..n]);
      NumeralOfValue(s[..n]);
      LeadingDigit(s[..n]);
      NumeralSnoc(v, s[n]);
      assert s == s[..n] + [s[n]];
    }
  }

  lemma {:induction false} LeadingDigit(s: string)
    requires s != "" && AreDigits(s) && s[0] != '0'
    ensures Value(s) > 0
  {
    if |s| > 1 {
      LeadingDigit(s[..|s| - 1]);
    }
  }

  lemma {:induction false} NumeralSnoc(v: nat, c: char)
    requires v > 0 && IsDigit(c)
    ensures v * 10 + (c as int - '0' as int) >= 10
    ensures Numeral(v * 10 + (c as int - '0' as int)) == Numeral(v) + [c]
  {}

  lemma {:induction false} ValueOfConcat(a: string, b: string)
    requires AreDigits(a) && AreDigits(b)
    ensures AreDigits(a + b) && Value(a + b) == Value(a) * Pow(10, |b|) + Value(b)
  {
    if b == "" {
      assert a + b == a;
    } else {
      var init := b[..|b| - 1];
      assert (a + b)[..|a + b| - 1] == a + init;
      ValueOfConcat(a, init);
      MulDistributes(Value(a), Pow(10, |init|), Value(init), 10);
    }
  }

  // ---------- toLegacyDecString ----------

  function Zeros(n: nat): (s: string)
    ensures |s| == n && AreDigits(s)
    ensures forall i :: 0 <= i < n ==> s[i] == '0'
  {
    seq(n, i => '0')
  }

  // What `abs.split('.')` gives first and second, '' when there is no second part.
  function SplitDot(s: string): (string, string) {
    var i := Find(s, '.');
    if i == |s| then (s, "")
    else (s[..i], s[i + 1..][..Find(s[i + 1..], '.')])
  }

  // replace(/^0+(?=\d)/, ''): leading zeros go while a digit follows.
  function StripZeros(s: string): string {
    if |s| >= 2 && s[0] == '0' && IsDigit(s[1]) then StripZeros(s[1..]) else s
  }

  function ToLegacyDecString(str: string): string {
    var negative := str != "" && str[0] == '-';
    var abs := if negative then str[1..] else str;
    var (whole, frac) := SplitDot(abs);
    var fracPadded := (frac + Zeros(18))[..18];
    var combined := (if whole == "" then "0" else whole) + fracPadded;
    (if negative then "-" else "") + StripZeros(combined)
  }

  lemma {:induction false} StripZerosIsNumeral(s: string)
    requires s != "" && AreDigits(s)
    ensures StripZeros(s) == Numeral(Value(s))
  {
    if |s| >= 2 && s[0] == '0' {
      StripZerosIsNumeral(s[1..]);
      LeadingZero(s[1..]);
      assert s == "0" + s[1..];
    } else {
      NumeralOfValue(s);
    }
  }

  lemma {:induction false} LeadingZero(s: string)
    requires AreDigits(s)
    ensures AreDigits("0" + s) && Value("0" + s) == Value(s)
  {
    ValueOfConcat("0", s);
    assert "0"[..0] == "";
    assert Value("0") == 0;
  }

  // n / 10^k scaled by 10^18 and truncated.
  function Scale18(n: nat, k: nat): nat {
    PowPositive(10, k);
    n * Pow(10, 18) / Pow(10, k)
  }

  lemma {:induction false} ValueOfZeros(n: nat)
    ensures Value(Zeros(n)) == 0
  {
    if n != 0 {
      assert Zeros(n)[..n - 1] == Zeros(n - 1);
      ValueOfZeros(n - 1);
    }
  }

  // Cutting or filling the fraction to 18 digits is truncated scaling by a power of ten.
  lemma {:induction false} PaddedFraction(whole: string, frac: string)
    requires AreDigits(whole) && AreDigits(frac)
    ensures AreDigits((frac + Zeros(18))[..18])
    ensures Value(whole + (frac + Zeros(18))[..18]) == Scale18(Value(whole + frac), |frac|)
  {
    if |frac| <= 18 {
      ShortFraction(whole, frac);
    } else {
      LongFraction(whole, frac);
    }
  }

  lemma {:induction false} ShortFraction(whole: string, frac: string)
    requires AreDigits(whole) && AreDigits(frac) && |frac| <= 18
    ensures Value(whole + (frac + Zeros(18))[..18]) == Scale18(Value(whole + frac), |frac|)
  {
    var k := 18 - |frac|;
    assert (frac + Zeros(18))[..18] == frac + Zeros(k);
    assert whole + (frac + Zeros(k)) == (whole + frac) + Zeros(k);
    ValueOfConcat(whole + frac, Zeros(k));
    ValueOfZeros(k);
    PowAdds(10, k, |frac|);
    PowPositive(10, |frac|);
    MulAssociates(Value(whole + frac), Pow(10, k), Pow(10, |frac|));
    DivModOf(Value(whole + frac) * Pow(10, k), Pow(10, |frac|), 0);
  }

  lemma {:induction false} LongFraction(whole: string, frac: string)
    requires AreDigits(whole) && AreDigits(frac) && |frac| > 18
    ensures Value(whole + (frac + Zeros(18))[..18]) == Scale18(Value(whole + frac), |frac|)
  {
    var k := |frac| - 18;
    var kept, cut := frac[..18], frac[18..];
    assert (frac + Zeros(18))[..18] == kept;
    assert whole + frac == (whole + kept) + cut;
    ValueOfConcat(whole, kept);
    ValueOfConcat(whole + kept, cut);
    ValueBound(cut);
    PowAdds(10, k, 18);
    PowPositive(10, |frac|);
    ScaledQuotient(Value(whole + kept), Pow(10, k), Value(cut), Pow(10, 18));
  }

  lemma {:induction false} ScaledQuotient(q: nat, b: nat, r: nat, c: nat)
    requires r < b && c > 0
    ensures b * c > 0
    ensures (q * b + r) * c / (b * c) == q
  {
    MulMonotone(1, b, c);
    MulMonotone(r + 1, b, c);
    MulDistributes(q, b, r, c);
    assert (r + 1) * c == r * c + c;
    DivModOf(q, b * c, r * c);
  }

  lemma {:induction false} ValueBound(s: string)
    requires AreDigits(s)
    ensures Value(s) < Pow(10, |s|)
  {
    if s != "" {
      ValueBound(s[..|s| - 1]);
      MulMonotone(Value(s[..|s| - 1]) + 1, Pow(10, |s| - 1), 10);
    }
  }

  lemma {:induction false} SplitDecimal(whole: string, frac: string)
    requires AreDigits(whole) && AreDigits(frac)
    ensures SplitDot(whole + "." + frac) == (whole, frac)
    ensures SplitDot(whole) == (whole, "")
  {
    var s := whole + "." + frac;
    assert s[|whole|] == '.' && forall j :: 0 <= j < |whole| ==> s[j] == whole[j];
    FindsFirst(s, '.', |whole|);
    FindsFirst(whole, '.', |whole|);
    assert s[|whole| + 1..] == frac && s[..|whole|] == whole;
    FindsFirst(frac, '.', |frac|);
    assert frac[..|frac|] == frac;
  }

  // Exact scaling: the numeral of the truncation of |x| * 10^18 with the sign kept,
  // for x written with any digits (possibly none) before and after the point.
  lemma {:induction false} LegacyDecIsExact(whole: string, frac: string, negative: bool)
    requires AreDigits(whole) && AreDigits(frac)
    ensures var sign := if negative then "-" else "";
            ToLegacyDecString(sign + (whole + "." + frac)) == sign + Numeral(Scale18(Value(whole + frac), |frac|))
  {
    SplitDecimal(whole, frac);
    assert (whole + "." + frac)[0] == if whole == "" then '.' else whole[0];
    SignedParts(whole + "." + frac, whole, frac, negative);
  }

  // The same without a decimal point, where nothing is truncated.
  lemma {:induction false} LegacyDecOfInteger(whole: string, negative: bool)
    requires AreDigits(whole)
    ensures var sign := if negative then "-" else "";
            ToLegacyDecString(sign + whole) == sign + Numeral(Value(whole) * Pow(10, 18))
  {
    SplitDecimal(whole, "");
    SignedParts(whole, whole, "", negative);
    assert whole + "" == whole;
    ScaleOfInteger(Value(whole));
  }

  lemma {:induction false} ScaleOfInteger(n: nat)
    ensures Scale18(n, 0) == n * Pow(10, 18)
  {}

  // A second point ends the fraction.
  lemma {:induction false} SecondPointIsCut(whole: string, frac: string, rest: string)
    requires AreDigits(whole) && AreDigits(frac)
    ensures ToLegacyDecString(whole + "." + frac + "." + rest) == ToLegacyDecString(whole + "." + frac)
  {
    var s := whole + "." + frac + "." + rest;
    assert s[|whole|] == '.' && forall j :: 0 <= j < |whole| ==> s[j] == whole[j];
    FindsFirst(s, '.', |whole|);
    var tail := frac + "." + rest;
    assert s[|whole| + 1..] == tail && s[..|whole|] == whole;
    assert tail[|frac|] == '.' && forall j :: 0 <= j < |frac| ==> tail[j] == frac[j];
    FindsFirst(tail, '.', |frac|);
    assert tail[..|frac|] == frac;
    SplitDecimal(whole, frac);
    assert s[0] == (whole + "." + frac)[0] != '-';
  }

  lemma {:induction false} SignedParts(abs: string, whole: string, frac: string, negative: bool)
    requires AreDigits(whole) && AreDigits(frac) && SplitDot(abs) == (whole, frac)
    requires abs != "" ==> abs[0] != '-'
    ensures var sign := if negative then "-" else "";
            ToLegacyDecString(sign + abs) == sign + Numeral(Scale18(Value(whole + frac), |frac|))
  {
    var str := (if negative then "-" else "") + abs;
    assert if negative then str[0] == '-' && str[1..] == abs else str == abs;
    ScaledParts(whole, frac);
  }

  lemma {:induction false} ScaledParts(whole: string, frac: string)
    requires AreDigits(whole) && AreDigits(frac)
    ensures StripZeros((if whole == "" then "0" else whole) + (frac + Zeros(18))[..18])
         == Numeral(Scale18(Value(whole + frac), |frac|))
  {
    var padded := (frac + Zeros(18))[..18];
    PaddedFraction(whole, frac);
    if whole == "" {
      assert "" + padded == padded;
      LeadingZero(padded);
      StripZerosIsNumeral("0" + padded);
    } else {
      StripZerosIsNumeral(whole + padded);
    }
  }
}
