/** Big-endian numerals: the value of a digit sequence in a base, and the digits of a value. */
module Numerals {

  type Byte = n: nat | n < 256

  function Pow(b: nat, n: nat): nat {
    if n == 0 then 1 else Pow(b, n - 1) * b
  }

  ghost predicate IsNumeral(s: seq<nat>, b: nat) {
    forall i :: 0 <= i < |s| ==> s[i] < b
  }

  // The number a digit sequence denotes, most significant digit first.
  function Val(s: seq<nat>, b: nat): nat {
    if |s| == 0 then 0 else Val(s[..|s| - 1], b) * b + s[|s| - 1]
  }

  // The last n base-b digits of v.
  function Digits(v: nat, b: nat, n: nat): (s: seq<nat>)
    requires b > 0
    ensures |s| == n && IsNumeral(s, b)
    decreases n
  {
    if n == 0 then [] else Digits(v / b, b, n - 1) + [v % b]
  }

  lemma {:induction false} PowPositive(b: nat, n: nat)
    requires b > 0
    ensures Pow(b, n) > 0
  {
    if n != 0 {
      PowPositive(b, n - 1);
      MulMonotone(1, Pow(b, n - 1), b);
    }
  }

  lemma {:induction false} PowGrows(b: nat, m: nat, n: nat)
    requires b > 0 && m <= n
    ensures Pow(b, m) <= Pow(b, n)
  {
    if m < n {
      PowGrows(b, m, n - 1);
      MulMonotone(1, b, Pow(b, n - 1));
    }
  }

  lemma {:induction false} PowAdds(b: nat, m: nat, n: nat)
    ensures Pow(b, m + n) == Pow(b, m) * Pow(b, n)
  {
    if n != 0 {
      PowAdds(b, m, n - 1);
      MulAssociates(Pow(b, m), Pow(b, n - 1), b);
    }
  }

  lemma {:induction false} MulAssociates(x: nat, y: nat, z: nat)
    ensures x * y * z == x * (y * z)
  {}

  lemma {:induction false} MulDistributes(x: nat, p: nat, y: nat, b: nat)
    ensures (x * p + y) * b == x * (p * b) + y * b
  {}

  lemma {:induction false} MulSuccessor(x: nat, i: nat)
    ensures x * (i + 1) == x * i + x && (i + 1) * x == i * x + x
  {}

  lemma {:induction false} MulMonotone(x: nat, y: nat, z: nat)
    requires x <= y
    ensures x * z <= y * z
  {}

  lemma {:induction false} ValBound(s: seq<nat>, b: nat)
    requires IsNumeral(s, b)
    ensures Val(s, b) < Pow(b, |s|)
  {
    if |s| != 0 {
      ValBound(s[..|s| - 1], b);
      MulMonotone(Val(s[..|s| - 1], b) + 1, Pow(b, |s| - 1), b);
    }
  }

  lemma {:induction false} DivModOf(q: nat, b: nat, r: nat)
    requires r < b
    ensures (q * b + r) / b == q && (q * b + r) % b == r
  {
    var v := q * b + r;
    assert v == b * (v / b) + v % b;
    if v / b < q {
      MulMonotone(v / b + 1, q, b);
    } else if q < v / b {
      MulMonotone(q + 1, v / b, b);
    }
  }

  lemma {:induction false} QuotientBound(v: nat, b: nat, p: nat)
    requires b > 0 && v < p * b
    ensures v / b < p
  {}

  // A value with room for it is recovered from its digits ...
  lemma {:induction false} ValOfDigits(v: nat, b: nat, n: nat)
    requires b > 0
    requires v < Pow(b, n)
    ensures Val(Digits(v, b, n), b) == v
    decreases n
  {
    if n != 0 {
      QuotientBound(v, b, Pow(b, n - 1));
      ValOfDigits(v / b, b, n - 1);
      ValOfSnoc(Digits(v / b, b, n - 1), v % b, b);
      DivModParts(v, b);
    }
  }

  lemma {:induction false} DivModParts(v: nat, b: nat)
    requires b > 0
    ensures v == v / b * b + v % b
  {}

  lemma {:induction false} ValOfSnoc(s: seq<nat>, d: nat, b: nat)
    ensures Val(s + [d], b) == Val(s, b) * b + d
  {}

  // ... and a numeral from its value.
  lemma {:induction false} DigitsOfVal(s: seq<nat>, b: nat)
    requires b > 0 && IsNumeral(s, b)
    ensures Digits(Val(s, b), b, |s|) == s
  {
    if |s| != 0 {
      var init := s[..|s| - 1];
      DivModOf(Val(init, b), b, s[|s| - 1]);
      DigitsOfVal(init, b);
      assert s == init + [s[|s| - 1]];
    }
  }

  // Numerals of one length with one value are equal.
  lemma {:induction false} NumeralsUnique(s: seq<nat>, t: seq<nat>, b: nat)
    requires b > 0 && IsNumeral(s, b) && IsNumeral(t, b)
    requires |s| == |t| && Val(s, b) == Val(t, b)
    ensures s == t
  {
    DigitsOfVal(s, b);
    DigitsOfVal(t, b);
  }

  lemma {:induction false} ValOfConcat(s: seq<nat>, t: seq<nat>, b: nat)
    ensures Val(s + t, b) == Val(s, b) * Pow(b, |t|) + Val(t, b)
  {
    if |t| == 0 {
      assert s + t == s;
    } else {
      var init := t[..|t| - 1];
      assert (s + t)[..|s + t| - 1] == s + init;
      ValOfConcat(s, init, b);
      MulDistributes(Val(s, b), Pow(b, |init|), Val(init, b), b);
    }
  }

  lemma {:induction false} ValOfZeros(s: seq<nat>, b: nat)
    requires forall i :: 0 <= i < |s| ==> s[i] == 0
    ensures Val(s, b) == 0
  {
    if |s| != 0 {
      ValOfZeros(s[..|s| - 1], b);
    }
  }
}
