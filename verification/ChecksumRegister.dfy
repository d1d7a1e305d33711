/**
 The BIP-173 checksum register, as both genesis scripts compute it, and the
 algebra that makes it a checksum: the register step is linear over GF(2),
 injective on 30-bit states, and six five-bit symbols pack without feedback.
 */
module ChecksumRegister {
  import opened Bits
  import opened Numerals

  // A five-bit symbol of the data part.
  type Symbol = n: nat | n < 32

  const GEN: seq<nat> := [0x3b6a57b2, 0x26508e6d, 0x1ea119fa, 0x3d4233dd, 0x2a1462b3]

  predicate Is30Bit(chk: nat) {
    chk < 0x4000_0000
  }

  predicate Are30Bit(values: seq<nat>) {
    forall i :: 0 <= i < |values| ==> Is30Bit(values[i])
  }

  // The exclusive or of the rows selected by the bits of b, lowest bit first.
  function Rows(b: nat, rows: seq<nat>): nat {
    if |rows| == 0 then 0
    else Xor(Pick(b, rows[0]), Rows(b / 2, rows[1..]))
  }

  function Pick(b: nat, row: nat): nat {
    if b % 2 == 1 then row else 0
  }

  // One step of the register: shift in v, fold the bits shifted out back in.
  function Step(chk: nat, v: nat): nat {
    Xor(Xor(Shl(Low(chk, 25), 5), v), Rows(Shr(chk, 25), GEN))
  }

  // The register after feeding all values, starting from chk.
  function PolymodFrom(chk: nat, values: seq<nat>): nat {
    if |values| == 0 then chk
    else Step(PolymodFrom(chk, values[..|values| - 1]), values[|values| - 1])
  }

  function Polymod(values: seq<nat>): nat {
    PolymodFrom(1, values)
  }

  // The outer loop of bech32_polymod.
  method ComputePolymod(values: seq<nat>) returns (chk: nat)
    ensures chk == Polymod(values)
  {
    chk := 1;
    for n := 0 to |values|
      invariant chk == PolymodFrom(1, values[..n])
    {
      assert values[..n + 1][..n] == values[..n];
      var b := Shr(chk, 25);
      chk := Xor(Shl(Low(chk, 25), 5), values[n]);
      chk := FoldBack(chk, b);
    }
    assert values[..|values|] == values;
  }

  // The inner loop of bech32_polymod.
  method FoldBack(shifted: nat, b: nat) returns (chk: nat)
    ensures chk == Xor(shifted, Rows(b, GEN))
  {
    chk := shifted;
    for i := 0 to 5
      invariant Xor(chk, Rows(Shr(b, i), GEN[i..])) == Xor(shifted, Rows(b, GEN))
    {
      RowsTail(chk, b, i);
      if Low(Shr(b, i), 1) != 0 {
        chk := Xor(chk, GEN[i]);
      }
    }
    XorZero(chk);
  }

  lemma {:induction false} RowsTail(chk: nat, b: nat, i: nat)
    requires i < 5
    ensures Xor(chk, Rows(Shr(b, i), GEN[i..]))
         == Xor(if Low(Shr(b, i), 1) != 0 then Xor(chk, GEN[i]) else chk, Rows(Shr(b, i + 1), GEN[i + 1..]))
  {
    ShrOnce(b, i);
    assert GEN[i..][1..] == GEN[i + 1..];
    XorAssociates(chk, Pick(Shr(b, i), GEN[i]), Rows(Shr(b, i + 1), GEN[i + 1..]));
    XorZero(chk);
    assert Low(Shr(b, i), 1) == Shr(b, i) % 2;
  }

  lemma {:induction false} ShrOnce(b: nat, i: nat)
    ensures Shr(b, i + 1) == Shr(b, i) / 2
  {
    if i != 0 {
      ShrOnce(b / 2, i - 1);
    }
  }

  lemma {:induction false} XorAssociates(a: nat, b: nat, c: nat)
    ensures Xor(a, Xor(b, c)) == Xor(Xor(a, b), c)
  {
    XorSwap(a, 0, b, c);
    XorZero(a);
    XorZero(c);
  }

  lemma {:induction false} PickIsLinear(a: nat, b: nat, row: nat)
    ensures Pick(Xor(a, b), row) == Xor(Pick(a, row), Pick(b, row))
  {
    XorHalves(a, b);
    if a % 2 == 1 {
      if b % 2 == 1 {
        XorSelf(row);
      } else {
        XorZero(row);
      }
    } else {
      XorZero(Pick(b, row));
    }
  }

  lemma {:induction false} RowsAreLinear(a: nat, b: nat, rows: seq<nat>)
    ensures Rows(Xor(a, b), rows) == Xor(Rows(a, rows), Rows(b, rows))
  {
    if |rows| != 0 {
      XorHalves(a, b);
      PickIsLinear(a, b, rows[0]);
      RowsAreLinear(a / 2, b / 2, rows[1..]);
      XorSwap(Pick(a, rows[0]), Pick(b, rows[0]), Rows(a / 2, rows[1..]), Rows(b / 2, rows[1..]));
    }
  }

  // The register step is linear over GF(2).
  lemma {:induction false} StepIsLinear(a: nat, b: nat, v: nat, w: nat)
    ensures Step(Xor(a, b), Xor(v, w)) == Xor(Step(a, v), Step(b, w))
  {
    LowIsLinear(a, b, 25);
    ShlIsLinear(Low(a, 25), Low(b, 25), 5);
    ShrIsLinear(a, b, 25);
    RowsAreLinear(Shr(a, 25), Shr(b, 25), GEN);
    var p, q := Shl(Low(a, 25), 5), Shl(Low(b, 25), 5);
    XorSwap(p, q, v, w);
    XorSwap(Xor(p, v), Xor(q, w), Rows(Shr(a, 25), GEN), Rows(Shr(b, 25), GEN));
  }

  // A register below 2^30 fed a value below 2^30 stays below 2^30.
  lemma {:induction false} StateStays30Bits(chk: nat, v: nat)
    requires Is30Bit(v)
    ensures Is30Bit(Step(chk, v))
  {
    Powers();
    Split(chk, 25);
    ShlIsProduct(Low(chk, 25), 5);
    XorStaysBelow(Shl(Low(chk, 25), 5), v, 30);
    RowsStayBelow(Shr(chk, 25), GEN);
    XorStaysBelow(Xor(Shl(Low(chk, 25), 5), v), Rows(Shr(chk, 25), GEN), 30);
  }

  lemma {:induction false} RowsStayBelow(b: nat, rows: seq<nat>)
    requires forall i :: 0 <= i < |rows| ==> rows[i] < Pow2(30)
    ensures Rows(b, rows) < Pow2(30)
  {
    if |rows| != 0 {
      RowsStayBelow(b / 2, rows[1..]);
      XorStaysBelow(Pick(b, rows[0]), Rows(b / 2, rows[1..]), 30);
    }
  }

  lemma {:induction false} PolymodStays30Bits(chk: nat, values: seq<nat>)
    requires Is30Bit(chk) && Are30Bit(values)
    ensures Is30Bit(PolymodFrom(chk, values))
  {
    if |values| != 0 {
      PolymodStays30Bits(chk, values[..|values| - 1]);
      StateStays30Bits(PolymodFrom(chk, values[..|values| - 1]), values[|values| - 1]);
    }
  }

  // Two different 30-bit states stay different when fed the same value.
  lemma {:induction false} StepIsInjective(a: nat, b: nat, v: nat)
    requires Is30Bit(a) && Is30Bit(b) && Step(a, v) == Step(b, v)
    ensures a == b
  {
    StepIsLinear(a, b, v, v);
    XorSelf(v);
    XorSelf(Step(a, v));
    Powers();
    XorStaysBelow(a, b, 30);
    KernelIsZero(Xor(a, b));
    XorEqual(a, b);
  }

  lemma {:induction false} KernelIsZero(x: nat)
    requires Is30Bit(x) && Step(x, 0) == 0
    ensures x == 0
  {
    HighPart(x);
    KernelParts(Low(x, 25), Shr(x, 25));
  }

  lemma {:induction false} KernelParts(low: nat, top: nat)
    requires top < 32
    ensures Xor(Xor(32 * low, 0), Rows(top, GEN)) == 0 ==> low == 0 && top == 0
  {
    var folded := Rows(top, GEN);
    if Xor(Xor(32 * low, 0), folded) == 0 {
      MultipleOf32(32 * low, folded, low);
      RowsAreIndependent(top);
      RowsOfZero(GEN);
    }
  }

  lemma {:induction false} MultipleOf32(shifted: nat, folded: nat, low: nat)
    requires shifted == 32 * low && Xor(Xor(shifted, 0), folded) == 0
    ensures shifted == folded && folded % 32 == 0
  {
    XorZero(shifted);
    XorEqual(shifted, folded);
  }

  lemma {:induction false} HighPart(x: nat)
    ensures x == 0x200_0000 * Shr(x, 25) + Low(x, 25)
    ensures Shl(Low(x, 25), 5) == 32 * Low(x, 25)
  {
    Powers();
    Split(x, 25);
    ShlIsProduct(Shr(x, 25), 25);
    ShlIsProduct(Low(x, 25), 5);
  }

  // Bit j of a combination of rows: the parity of the selected rows' bits j.
  function Parity(b: nat, bits: seq<bool>): bool {
    if |bits| == 0 then false
    else (b % 2 == 1 && bits[0]) != Parity(b / 2, bits[1..])
  }

  predicate Bit(x: nat, j: nat) {
    Shr(x, j) % 2 == 1
  }

  function BitsOf(rows: seq<nat>, j: nat): (bits: seq<bool>)
    ensures |bits| == |rows|
  {
    if |rows| == 0 then [] else [Bit(rows[0], j)] + BitsOf(rows[1..], j)
  }

  lemma {:induction false} RowsBit(b: nat, rows: seq<nat>, j: nat)
    ensures Bit(Rows(b, rows), j) == Parity(b, BitsOf(rows, j))
  {
    ShrOfZero(j);
    if |rows| != 0 {
      RowsBit(b / 2, rows[1..], j);
      ShrIsLinear(Pick(b, rows[0]), Rows(b / 2, rows[1..]), j);
      XorHalves(Shr(Pick(b, rows[0]), j), Shr(Rows(b / 2, rows[1..]), j));
    }
  }

  lemma {:induction false} ShrOfZero(j: nat)
    ensures Shr(0, j) == 0
  {
    if j != 0 {
      ShrOfZero(j - 1);
    }
  }

  lemma {:induction false} ParityOfFive(b: nat, x: seq<bool>)
    requires |x| == 5
    ensures Parity(b, x)
         == ((b % 2 == 1 && x[0]) != ((b / 2 % 2 == 1 && x[1]) != ((b / 4 % 2 == 1 && x[2])
            != ((b / 8 % 2 == 1 && x[3]) != (b / 16 % 2 == 1 && x[4])))))
  {
    assert b / 2 / 2 == b / 4 && b / 2 / 2 / 2 == b / 8 && b / 2 / 2 / 2 / 2 == b / 16;
    assert Parity(b / 16, x[1..][1..][1..][1..]) == (b / 16 % 2 == 1 && x[4]);
    assert Parity(b / 8, x[1..][1..][1..]) == ((b / 8 % 2 == 1 && x[3]) != Parity(b / 16, x[1..][1..][1..][1..]));
    assert Parity(b / 4, x[1..][1..]) == ((b / 4 % 2 == 1 && x[2]) != Parity(b / 8, x[1..][1..][1..]));
    assert Parity(b / 2, x[1..]) == ((b / 2 % 2 == 1 && x[1]) != Parity(b / 4, x[1..][1..]));
  }

  lemma {:induction false} BitsOfGen()
    ensures BitsOf(GEN, 0) == [false, true, false, true, true]
    ensures BitsOf(GEN, 1) == [true, false, true, false, true]
    ensures BitsOf(GEN, 2) == [false, true, false, true, false]
    ensures BitsOf(GEN, 3) == [false, true, true, true, false]
    ensures BitsOf(GEN, 4) == [true, false, true, true, true]
  {}

  lemma {:induction false} LowBitsZero(r: nat)
    requires r % 32 == 0
    ensures forall j: nat :: j < 5 ==> !Bit(r, j)
  {
    var k := r / 32;
    ShrOnce(r, 0);
    ShrOnce(r, 1);
    ShrOnce(r, 2);
    ShrOnce(r, 3);
    assert Shr(r, 1) == 16 * k && Shr(r, 2) == 8 * k && Shr(r, 3) == 4 * k && Shr(r, 4) == 2 * k;
  }

  // The low five bits of the generator rows are linearly independent over GF(2).
  lemma {:induction false} RowsAreIndependent(b: nat)
    requires b < 32 && Rows(b, GEN) % 32 == 0
    ensures b == 0
  {
    LowBitsZero(Rows(b, GEN));
    BitsOfGen();
    RowsBit(b, GEN, 0);
    RowsBit(b, GEN, 1);
    RowsBit(b, GEN, 2);
    RowsBit(b, GEN, 3);
    RowsBit(b, GEN, 4);
    ParitySystem(b);
  }

  lemma {:induction false} ParitySystem(b: nat)
    requires b < 32
    requires !Parity(b, [false, true, false, true, true]) && !Parity(b, [true, false, true, false, true])
    requires !Parity(b, [false, true, false, true, false]) && !Parity(b, [false, true, true, true, false])
    requires !Parity(b, [true, false, true, true, true])
    ensures b == 0
  {
    ParityOfFive(b, [false, true, false, true, true]);
    ParityOfFive(b, [true, false, true, false, true]);
    ParityOfFive(b, [false, true, false, true, false]);
    ParityOfFive(b, [false, true, true, true, false]);
    ParityOfFive(b, [true, false, true, true, true]);
  }

  lemma {:induction false} PolymodAppends(chk: nat, a: seq<nat>, b: seq<nat>)
    ensures PolymodFrom(chk, a + b) == PolymodFrom(PolymodFrom(chk, a), b)
  {
    if |b| == 0 {
      assert a + b == a;
    } else {
      assert (a + b)[..|a + b| - 1] == a + b[..|b| - 1];
      PolymodAppends(chk, a, b[..|b| - 1]);
    }
  }

  lemma {:induction false} TailKeepsStatesApart(c: nat, d: nat, tail: seq<nat>)
    requires Is30Bit(c) && Is30Bit(d) && Are30Bit(tail)
    requires PolymodFrom(c, tail) == PolymodFrom(d, tail)
    ensures c == d
  {
    if |tail| != 0 {
      var init, last := tail[..|tail| - 1], tail[|tail| - 1];
      PolymodStays30Bits(c, init);
      PolymodStays30Bits(d, init);
      StepIsInjective(PolymodFrom(c, init), PolymodFrom(d, init), last);
      TailKeepsStatesApart(c, d, init);
    }
  }

  // Feeding x from state c is feeding as many zeros from c, plus feeding x from zero.
  lemma {:induction false} Superposition(c: nat, x: seq<nat>, z: seq<nat>)
    requires |x| == |z| && forall i :: 0 <= i < |z| ==> z[i] == 0
    ensures PolymodFrom(c, x) == Xor(PolymodFrom(c, z), PolymodFrom(0, x))
  {
    if |x| == 0 {
      XorZero(c);
    } else {
      var n := |x| - 1;
      Superposition(c, x[..n], z[..n]);
      XorZero(x[n]);
      StepIsLinear(PolymodFrom(c, z[..n]), PolymodFrom(0, x[..n]), 0, x[n]);
    }
  }

  // From the zero register up to six symbols pack, without feedback, into their base-32 value.
  lemma {:induction false} SixSymbolsPack(x: seq<nat>)
    requires |x| <= 6 && IsNumeral(x, 32)
    ensures PolymodFrom(0, x) == Val(x, 32)
  {
    if |x| != 0 {
      var init := x[..|x| - 1];
      SixSymbolsPack(init);
      ValBound(init, 32);
      assert Pow(32, |init|) <= 0x200_0000 by {
        assert Pow(32, 5) == 0x200_0000;
        PowGrows(32, |init|, 5);
      }
      StepWithoutFeedback(Val(init, 32), x[|x| - 1]);
    }
  }

  lemma {:induction false} StepWithoutFeedback(chk: nat, v: nat)
    requires chk < 0x200_0000 && v < 32
    ensures Step(chk, v) == 32 * chk + v
  {
    Powers();
    ShrZero(chk, 25);
    Split(chk, 25);
    ShlIsProduct(0, 25);
    RowsOfZero(GEN);
    XorIsSum(chk, v, 5);
    ShlIsProduct(chk, 5);
    XorZero(32 * chk + v);
  }

  lemma {:induction false} RowsOfZero(rows: seq<nat>)
    ensures Rows(0, rows) == 0
  {
    if |rows| != 0 {
      RowsOfZero(rows[1..]);
    }
  }

  // The register after values followed by six symbols, as a function of those symbols.
  lemma {:induction false} SixMore(values: seq<nat>, x: seq<nat>, z: seq<nat>)
    requires |x| == 6 && IsNumeral(x, 32)
    requires |z| == 6 && forall i :: 0 <= i < 6 ==> z[i] == 0
    ensures Polymod(values + x) == Xor(Polymod(values + z), Val(x, 32))
  {
    PolymodAppends(1, values, x);
    PolymodAppends(1, values, z);
    Superposition(Polymod(values), x, z);
    SixSymbolsPack(x);
  }

  // Burst detection: two value sequences that differ only inside a window of six
  // five-bit symbols never leave the same register.
  lemma {:induction false} BurstChangesRegister(head: seq<nat>, x: seq<nat>, y: seq<nat>, tail: seq<nat>)
    requires Are30Bit(head) && Are30Bit(tail)
    requires |x| == |y| <= 6 && IsNumeral(x, 32) && IsNumeral(y, 32) && x != y
    ensures Polymod(head + x + tail) != Polymod(head + y + tail)
  {
    var c := Polymod(head);
    var z := seq(|x|, i => 0);
    PolymodStays30Bits(1, head);
    Superposition(c, x, z);
    Superposition(c, y, z);
    SixSymbolsPack(x);
    SixSymbolsPack(y);
    var p, q := PolymodFrom(c, x), PolymodFrom(c, y);
    PolymodStays30Bits(c, x);
    PolymodStays30Bits(c, y);
    PolymodAppends(1, head, x);
    PolymodAppends(1, head, y);
    PolymodAppends(1, head + x, tail);
    PolymodAppends(1, head + y, tail);
    if PolymodFrom(p, tail) == PolymodFrom(q, tail) {
      TailKeepsStatesApart(p, q, tail);
      XorCancelsLeft(PolymodFrom(c, z), Val(x, 32), Val(y, 32));
      NumeralsUnique(x, y, 32);
    }
  }

  lemma {:induction false} XorCancelsLeft(a: nat, b: nat, c: nat)
    requires Xor(a, b) == Xor(a, c)
    ensures b == c
  {
    XorSelf(Xor(a, b));
    XorSwap(a, b, a, c);
    XorSelf(a);
    XorZero(Xor(b, c));
    XorEqual(b, c);
  }
}
