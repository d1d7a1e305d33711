/**
 Bit regrouping as `_convertbits` of ensure_genesis.py does it, through an
 accumulator masked to 32 bits, proved equal to rewriting one long number from
 base 2^from to base 2^to.
 */
module Regroup {
  import opened Bits
  import opened Numerals

  // The number data denotes in base 2^f, written in base 2^t: filled up with
  // zero bits to whole groups when padding, else cut down to whole groups.
  function Regrouped(data: seq<nat>, f: nat, t: nat, pad: bool): (r: seq<nat>)
    requires t > 0
    ensures IsNumeral(r, Pow2(t))
  {
    Cut(Val(data, Pow2(f)), f * |data|, t, pad)
  }

  // The `width` bits of v in groups of t.
  function Cut(v: nat, width: nat, t: nat, pad: bool): (r: seq<nat>)
    requires t > 0
    ensures IsNumeral(r, Pow2(t))
  {
    var n, rest := width / t, width % t;
    if pad && rest != 0 then Digits(Shl(v, t - rest), Pow2(t), n + 1)
    else Digits(Shr(v, rest), Pow2(t), n)
  }

  // ret and the lowest bits of acc hold, between them, the first `read` bits of the number v.
  ghost predicate Holds(ret: seq<nat>, acc: nat, bits: nat, t: nat, read: nat, v: nat) {
    && IsNumeral(ret, Pow2(t))
    && |ret| * t + bits == read
    && Shl(Val(ret, Pow2(t)), bits) + Low(acc, bits) == v
  }

  // For group widths whose sum is at most 33 - both uses, 8 to 5 and 5 to 8, are
  // among them - the 32-bit mask never drops a bit that is still needed.
  method ConvertBits(data: seq<nat>, f: nat, t: nat, pad: bool) returns (ret: seq<nat>)
    requires 0 < f && 0 < t && f + t <= 33
    requires IsNumeral(data, Pow2(f))
    ensures ret == Regrouped(data, f, t, pad)
  {
    var acc, bits := 0, 0;
    ret := [];
    for i := 0 to |data|
      invariant 0 <= bits < t
      invariant Holds(ret, acc, bits, t, f * i, Val(data[..i], Pow2(f)))
    {
      ShiftIn(ret, acc, bits, data, i, f, t);
      acc := Low(Or(Shl(acc, f), data[i]), 32);
      ret, bits := TakeGroups(ret, acc, bits + f, t, f * (i + 1), Val(data[..i + 1], Pow2(f)));
    }
    assert data[..|data|] == data;
    Finish(data, f, t, pad, acc, bits, ret);
    if pad && bits != 0 {
      ret := ret + [Low(Shl(acc, t - bits), t)];
    }
  }

  // The inner loop: take whole groups out of the accumulator.
  method TakeGroups(before: seq<nat>, acc: nat, held: nat, t: nat, ghost read: nat, ghost v: nat) returns (ret: seq<nat>, bits: nat)
    requires 0 < t && Holds(before, acc, held, t, read, v)
    ensures bits < t && Holds(ret, acc, bits, t, read, v)
  {
    ret, bits := before, held;
    while bits >= t
      invariant Holds(ret, acc, bits, t, read, v)
    {
      bits := bits - t;
      TakeOut(ret, acc, bits, t, read, v);
      ret := ret + [Low(Shr(acc, bits), t)];
    }
  }

  lemma {:induction false} ShiftIn(ret: seq<nat>, acc: nat, bits: nat, data: seq<nat>, i: nat, f: nat, t: nat)
    requires i < |data| && IsNumeral(data, Pow2(f)) && bits + f <= 32
    requires Holds(ret, acc, bits, t, f * i, Val(data[..i], Pow2(f)))
    ensures Holds(ret, Low(Or(Shl(acc, f), data[i]), 32), bits + f, t, f * (i + 1), Val(data[..i + 1], Pow2(f)))
  {
    var v := data[i];
    OrIsSum(acc, v, f);
    LowOfLow(Shl(acc, f) + v, bits + f, 32);
    LowOfShifted(acc, v, f, bits);
    assert data[..i + 1] == data[..i] + [v];
    ValOfSnoc(data[..i], v, Pow2(f));
    ShlIsProduct(Val(data[..i], Pow2(f)), f);
    ShlSum(Shl(Val(ret, Pow2(t)), bits), Low(acc, bits), f);
    ShlAdds(Val(ret, Pow2(t)), bits, f);
    MulSuccessor(f, i);
  }

  lemma {:induction false} TakeOut(ret: seq<nat>, acc: nat, bits: nat, t: nat, read: nat, v: nat)
    requires Holds(ret, acc, bits + t, t, read, v)
    ensures Holds(ret + [Low(Shr(acc, bits), t)], acc, bits, t, read, v)
  {
    var x, d := Val(ret, Pow2(t)), Low(Shr(acc, bits), t);
    LowBelow(Shr(acc, bits), t);
    ValOfSnoc(ret, d, Pow2(t));
    ShlIsProduct(x, t);
    ShlSum(Shl(x, t), d, bits);
    ShlAdds(x, t, bits);
    LowSplits(acc, bits, t);
    MulSuccessor(t, |ret|);
  }

  lemma {:induction false} PadOut(ret: seq<nat>, acc: nat, bits: nat, t: nat)
    requires bits < t
    ensures Low(Shl(acc, t - bits), t) < Pow2(t)
    ensures Val(ret + [Low(Shl(acc, t - bits), t)], Pow2(t)) == Shl(Shl(Val(ret, Pow2(t)), bits) + Low(acc, bits), t - bits)
  {
    var v, p := Val(ret, Pow2(t)), t - bits;
    LowBelow(Shl(acc, p), t);
    LowOfShifted(acc, 0, p, bits);
    ValOfSnoc(ret, Low(Shl(acc, p), t), Pow2(t));
    ShlIsProduct(v, t);
    ShlSum(Shl(v, bits), Low(acc, bits), p);
    ShlAdds(v, bits, p);
  }

  lemma {:induction false} Finish(data: seq<nat>, f: nat, t: nat, pad: bool, acc: nat, bits: nat, ret: seq<nat>)
    requires bits < t && Holds(ret, acc, bits, t, f * |data|, Val(data, Pow2(f)))
    ensures Regrouped(data, f, t, pad) == if pad && bits != 0 then ret + [Low(Shl(acc, t - bits), t)] else ret
  {
    Grouped(data, f, t, pad, |ret|, bits);
    if pad && bits != 0 {
      PadOut(ret, acc, bits, t);
      DigitsOfVal(ret + [Low(Shl(acc, t - bits), t)], Pow2(t));
    } else {
      LowBelow(acc, bits);
      ShrOfShifted(Val(ret, Pow2(t)), Low(acc, bits), bits);
      DigitsOfVal(ret, Pow2(t));
    }
  }

  // ---------- Round trip ----------

  lemma {:induction false} PowOfPow2(t: nat, n: nat)
    ensures Pow(Pow2(t), n) == Pow2(t * n)
  {
    if n != 0 {
      PowOfPow2(t, n - 1);
      Pow2Adds(t * (n - 1), t);
      ShlIsProduct(Pow2(t * (n - 1)), t);
      assert t * (n - 1) + t == t * n;
    }
  }

  lemma {:induction false} PaddedValue(data: seq<nat>, f: nat, t: nat) returns (pad: nat)
    requires 0 < t && IsNumeral(data, Pow2(f))
    ensures pad < t && t * |Regrouped(data, f, t, true)| == f * |data| + pad
    ensures Val(Regrouped(data, f, t, true), Pow2(t)) == Shl(Val(data, Pow2(f)), pad)
  {
    var r := Regrouped(data, f, t, true);
    var v, n, rest := Val(data, Pow2(f)), f * |data| / t, f * |data| % t;
    DivModParts(f * |data|, t);
    pad := if rest == 0 then 0 else t - rest;
    Distribute(t, n, |r|);
    assert t * |r| == f * |data| + pad;
    ValBound(data, Pow2(f));
    PowOfPow2(f, |data|);
    ShlMonotone(v, Pow2(f * |data|), pad);
    Pow2Adds(f * |data|, pad);
    PowOfPow2(t, |r|);
    ValOfDigits(Shl(v, pad), Pow2(t), |r|);
  }

  lemma {:induction false} Distribute(t: nat, n: nat, m: nat)
    ensures m == n ==> t * m == n * t
    ensures m == n + 1 ==> t * m == n * t + t
  {}

  // Splitting into smaller groups with padding and joining back without loses nothing.
  lemma {:induction false} RegroupRoundTrip(data: seq<nat>, f: nat, t: nat)
    requires 0 < t <= f && IsNumeral(data, Pow2(f))
    ensures Regrouped(Regrouped(data, f, t, true), t, f, false) == data
  {
    var pad := PaddedValue(data, f, t);
    var r := Regrouped(data, f, t, true);
    Distribute(f, |data|, |data|);
    Grouped(r, t, f, false, |data|, pad);
    ShrOfShifted(Val(data, Pow2(f)), 0, pad);
    DigitsOfVal(data, Pow2(f));
  }

  // Regrouped by its quotient and remainder.
  lemma {:induction false} Grouped(data: seq<nat>, f: nat, t: nat, pad: bool, n: nat, rest: nat)
    requires 0 < t && f * |data| == n * t + rest && rest < t
    ensures Regrouped(data, f, t, pad)
         == if pad && rest != 0 then Digits(Shl(Val(data, Pow2(f)), t - rest), Pow2(t), n + 1)
            else Digits(Shr(Val(data, Pow2(f)), rest), Pow2(t), n)
  {
    DivModOf(n, t, rest);
  }
}
