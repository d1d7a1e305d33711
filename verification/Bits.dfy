/**
 The bit operators of unbounded non-negative integers (Python's `^`, `<<`, `>>`
 and `& (2^k - 1)`), defined bit by bit, with the laws the checksum proof needs.
 */
module Bits {
  import opened Numerals

  function Pow2(k: nat): (p: nat)
    ensures p > 0
  {
    if k == 0 then 1 else 2 * Pow2(k - 1)
  }

  // a ^ b
  function Xor(a: nat, b: nat): nat {
    if a == 0 && b == 0 then 0
    else 2 * Xor(a / 2, b / 2) + (a % 2 + b % 2) % 2
  }

  // a | b
  function Or(a: nat, b: nat): nat {
    if a == 0 && b == 0 then 0
    else 2 * Or(a / 2, b / 2) + (if a % 2 == 1 || b % 2 == 1 then 1 else 0)
  }

  // a << k
  function Shl(a: nat, k: nat): nat {
    if k == 0 then a else 2 * Shl(a, k - 1)
  }

  // a >> k
  function Shr(a: nat, k: nat): nat {
    if k == 0 then a else Shr(a / 2, k - 1)
  }

  // a & (2^k - 1)
  function Low(a: nat, k: nat): nat {
    if k == 0 then 0 else a % 2 + 2 * Low(a / 2, k - 1)
  }

  lemma {:induction false} XorZero(a: nat)
    ensures Xor(a, 0) == a && Xor(0, a) == a
  {
    if a != 0 {
      XorZero(a / 2);
    }
  }

  lemma {:induction false} XorSelf(a: nat)
    ensures Xor(a, a) == 0
  {
    if a != 0 {
      XorSelf(a / 2);
    }
  }

  lemma {:induction false} XorEqual(a: nat, b: nat)
    requires Xor(a, b) == 0
    ensures a == b
  {
    if a != 0 || b != 0 {
      XorEqual(a / 2, b / 2);
    }
  }

  lemma {:induction false} XorSwap(a: nat, b: nat, c: nat, d: nat)
    ensures Xor(Xor(a, b), Xor(c, d)) == Xor(Xor(a, c), Xor(b, d))
    decreases a + b + c + d
  {
    if a + b + c + d != 0 {
      XorSwap(a / 2, b / 2, c / 2, d / 2);
      XorParity(a, b, c, d);
      XorParity(a, c, b, d);
      XorHalvesTwice(a, b, c, d);
      XorHalvesTwice(a, c, b, d);
      SameParts(Xor(Xor(a, b), Xor(c, d)), Xor(Xor(a, c), Xor(b, d)));
    }
  }

  lemma {:induction false} SameParts(x: nat, y: nat)
    requires x / 2 == y / 2 && x % 2 == y % 2
    ensures x == y
  {}

  lemma {:induction false} XorHalvesTwice(a: nat, b: nat, c: nat, d: nat)
    ensures Xor(Xor(a, b), Xor(c, d)) / 2 == Xor(Xor(a / 2, b / 2), Xor(c / 2, d / 2))
  {
    XorHalves(a, b);
    XorHalves(c, d);
    XorHalves(Xor(a, b), Xor(c, d));
  }

  lemma {:induction false} XorParity(a: nat, b: nat, c: nat, d: nat)
    ensures Xor(Xor(a, b), Xor(c, d)) % 2 == (a % 2 + b % 2 + c % 2 + d % 2) % 2
  {
    XorHalves(a, b);
    XorHalves(c, d);
    XorHalves(Xor(a, b), Xor(c, d));
    ParityAdds(a % 2 + b % 2, c % 2 + d % 2);
  }

  lemma {:induction false} ParityAdds(x: nat, y: nat)
    ensures (x % 2 + y % 2) % 2 == (x + y) % 2
  {}

  lemma {:induction false} XorOfParts(p: nat, r: nat, q: nat, s: nat)
    requires r < 2 && s < 2
    ensures Xor(r + 2 * p, s + 2 * q) == (r + s) % 2 + 2 * Xor(p, q)
  {
    var a, b := r + 2 * p, s + 2 * q;
    assert a / 2 == p && a % 2 == r && b / 2 == q && b % 2 == s;
    XorHalves(a, b);
  }

  lemma {:induction false} XorHalves(a: nat, b: nat)
    ensures Xor(a, b) / 2 == Xor(a / 2, b / 2)
    ensures Xor(a, b) % 2 == (a % 2 + b % 2) % 2
  {}

  // Xor is the sum when the low k bits of one operand are free and the other has only k bits.
  lemma {:induction false} XorIsSum(a: nat, b: nat, k: nat)
    requires b < Pow2(k)
    ensures Xor(Shl(a, k), b) == Shl(a, k) + b
  {
    if k == 0 {
      XorZero(a);
    } else {
      XorIsSum(a, b / 2, k - 1);
      var x := Shl(a, k);
      assert x / 2 == Shl(a, k - 1) && x % 2 == 0;
    }
  }

  lemma {:induction false} OrZero(a: nat)
    ensures Or(a, 0) == a
  {
    if a != 0 {
      OrZero(a / 2);
    }
  }

  lemma {:induction false} OrIsSum(a: nat, b: nat, k: nat)
    requires b < Pow2(k)
    ensures Or(Shl(a, k), b) == Shl(a, k) + b
  {
    if k == 0 {
      OrZero(a);
    } else {
      OrIsSum(a, b / 2, k - 1);
      var x := Shl(a, k);
      assert x / 2 == Shl(a, k - 1) && x % 2 == 0;
    }
  }

  lemma {:induction false} ShlAdds(a: nat, j: nat, k: nat)
    ensures Shl(Shl(a, j), k) == Shl(a, j + k)
  {
    if k != 0 {
      ShlAdds(a, j, k - 1);
    }
  }

  lemma {:induction false} ShlSum(a: nat, b: nat, k: nat)
    ensures Shl(a + b, k) == Shl(a, k) + Shl(b, k)
  {
    if k != 0 {
      ShlSum(a, b, k - 1);
    }
  }

  // Shifting in the f bits of v.
  lemma {:induction false} LowOfShifted(a: nat, v: nat, f: nat, k: nat)
    requires v < Pow2(f)
    ensures Low(Shl(a, f) + v, k + f) == Shl(Low(a, k), f) + v
  {
    if f != 0 {
      LowOfShifted(a, v / 2, f - 1, k);
      var x := Shl(a, f) + v;
      assert x / 2 == Shl(a, f - 1) + v / 2 && x % 2 == v % 2;
    }
  }

  lemma {:induction false} ShrOfShifted(a: nat, v: nat, k: nat)
    requires v < Pow2(k)
    ensures Shr(Shl(a, k) + v, k) == a
  {
    if k != 0 {
      ShrOfShifted(a, v / 2, k - 1);
      var x := Shl(a, k) + v;
      assert x / 2 == Shl(a, k - 1) + v / 2;
    }
  }

  lemma {:induction false} LowOfLow(a: nat, k: nat, m: nat)
    requires k <= m
    ensures Low(Low(a, m), k) == Low(a, k)
  {
    if k != 0 {
      LowOfLow(a / 2, k - 1, m - 1);
      var x := Low(a, m);
      assert x / 2 == Low(a / 2, m - 1) && x % 2 == a % 2;
    }
  }

  // The low k + t bits are the t bits above the lowest k, then those k.
  lemma {:induction false} LowSplits(a: nat, k: nat, t: nat)
    ensures Low(a, k + t) == Shl(Low(Shr(a, k), t), k) + Low(a, k)
  {
    if k != 0 {
      LowSplits(a / 2, k - 1, t);
    }
  }

  lemma {:induction false} LowBelow(a: nat, k: nat)
    ensures Low(a, k) < Pow2(k)
  {
    if k != 0 {
      LowBelow(a / 2, k - 1);
    }
  }

  lemma {:induction false} ShlIsProduct(a: nat, k: nat)
    ensures Shl(a, k) == a * Pow2(k)
  {
    if k != 0 {
      ShlIsProduct(a, k - 1);
    }
  }

  lemma {:induction false} ShlIsLinear(a: nat, b: nat, k: nat)
    ensures Shl(Xor(a, b), k) == Xor(Shl(a, k), Shl(b, k))
  {
    if k != 0 {
      ShlIsLinear(a, b, k - 1);
      XorDoubles(Shl(a, k - 1), Shl(b, k - 1));
      ShlOnce(a, k);
      ShlOnce(b, k);
      ShlOnce(Xor(a, b), k);
    }
  }

  lemma {:induction false} ShlOnce(a: nat, k: nat)
    requires k != 0
    ensures Shl(a, k) == 2 * Shl(a, k - 1)
  {}

  lemma {:induction false} XorDoubles(p: nat, q: nat)
    ensures Xor(2 * p, 2 * q) == 2 * Xor(p, q)
  {}

  lemma {:induction false} ShrIsLinear(a: nat, b: nat, k: nat)
    ensures Shr(Xor(a, b), k) == Xor(Shr(a, k), Shr(b, k))
  {
    if k != 0 {
      XorHalves(a, b);
      ShrIsLinear(a / 2, b / 2, k - 1);
    }
  }

  lemma {:induction false} LowIsLinear(a: nat, b: nat, k: nat)
    ensures Low(Xor(a, b), k) == Xor(Low(a, k), Low(b, k))
  {
    if k != 0 {
      LowIsLinear(a / 2, b / 2, k - 1);
      LowOfXor(a, b, k);
      XorOfLows(a, b, k);
    }
  }

  lemma {:induction false} XorOfLows(a: nat, b: nat, k: nat)
    requires k != 0
    ensures Xor(Low(a, k), Low(b, k)) == (a % 2 + b % 2) % 2 + 2 * Xor(Low(a / 2, k - 1), Low(b / 2, k - 1))
  {
    XorOfParts(Low(a / 2, k - 1), a % 2, Low(b / 2, k - 1), b % 2);
  }

  lemma {:induction false} LowOfXor(a: nat, b: nat, k: nat)
    requires k != 0
    ensures Low(Xor(a, b), k) == (a % 2 + b % 2) % 2 + 2 * Low(Xor(a / 2, b / 2), k - 1)
  {
    XorHalves(a, b);
  }

  lemma {:induction false} Split(a: nat, k: nat)
    ensures a == Shl(Shr(a, k), k) + Low(a, k)
    ensures Low(a, k) < Pow2(k)
  {
    if k != 0 {
      Split(a / 2, k - 1);
    }
  }

  // Shifting and masking are division and remainder.
  lemma {:induction false} ShrLowAreDivMod(a: nat, k: nat)
    ensures Shr(a, k) == a / Pow2(k) && Low(a, k) == a % Pow2(k)
  {
    Split(a, k);
    ShlIsProduct(Shr(a, k), k);
    DivModOf(Shr(a, k), Pow2(k), Low(a, k));
  }

  lemma {:induction false} ShrAdds(a: nat, j: nat, k: nat)
    ensures Shr(a, j + k) == Shr(Shr(a, j), k)
  {
    if j != 0 {
      ShrAdds(a / 2, j - 1, k);
    }
  }

  lemma {:induction false} ShrZero(a: nat, k: nat)
    ensures Shr(a, k) == 0 <==> a < Pow2(k)
  {
    if k != 0 {
      ShrZero(a / 2, k - 1);
    }
  }

  lemma {:induction false} XorStaysBelow(a: nat, b: nat, k: nat)
    requires a < Pow2(k) && b < Pow2(k)
    ensures Xor(a, b) < Pow2(k)
  {
    ShrZero(a, k);
    ShrZero(b, k);
    ShrIsLinear(a, b, k);
    ShrZero(Xor(a, b), k);
  }

  lemma {:induction false} Pow2Adds(j: nat, k: nat)
    ensures Pow2(j + k) == Shl(Pow2(j), k)
  {
    if k != 0 {
      Pow2Adds(j, k - 1);
    }
  }

  lemma {:induction false} ShlMonotone(a: nat, b: nat, k: nat)
    requires a < b
    ensures Shl(a, k) < Shl(b, k)
  {
    if k != 0 {
      ShlMonotone(a, b, k - 1);
    }
  }

  lemma {:induction false} Powers()
    ensures Pow2(5) == 32 && Pow2(25) == 0x200_0000 && Pow2(30) == 0x4000_0000
  {
    assert Pow2(5) == 32;
    assert Pow2(10) == 1024;
    assert Pow2(15) == 0x8000;
    assert Pow2(20) == 0x10_0000;
    assert Pow2(25) == 0x200_0000;
  }
}
