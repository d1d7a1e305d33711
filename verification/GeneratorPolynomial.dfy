/**
 The checksum register as BIP-173 defines it: the remainder of a polynomial over the
 field of 32 elements by the generator polynomial; and one of its published addresses.
 */
module GeneratorPolynomial {
  import opened Bits
  import opened Numerals
  import opened ChecksumRegister

  // Twice a in GF(32), whose reducing polynomial is x^5 + x^3 + 1.
  function Twice(a: Symbol): (r: Symbol) {
    if a < 16 then 2 * a
    else
      Powers();
      XorStaysBelow(2 * a - 32, 9, 5);
      Xor(2 * a - 32, 9)
  }

  // b times a in GF(32).
  function Times(b: nat, a: Symbol): (r: Symbol)
  {
    if b == 0 then 0
    else
      Powers();
      XorStaysBelow(if b % 2 == 1 then a else 0, Times(b / 2, Twice(a)), 5);
      Xor(if b % 2 == 1 then a else 0, Times(b / 2, Twice(a)))
  }

  function TwiceAll(p: seq<Symbol>): (r: seq<Symbol>)
    ensures |r| == |p| && forall i :: 0 <= i < |p| ==> r[i] == Twice(p[i])
  {
    seq(|p|, i requires 0 <= i < |p| => Twice(p[i]))
  }

  function TimesAll(b: nat, p: seq<Symbol>): (r: seq<Symbol>)
    ensures |r| == |p| && forall i :: 0 <= i < |p| ==> r[i] == Times(b, p[i])
  {
    seq(|p|, i requires 0 <= i < |p| => Times(b, p[i]))
  }

  // The sum of two polynomials over GF(32), coefficient by coefficient.
  function SumAll(p: seq<Symbol>, q: seq<Symbol>): (r: seq<Symbol>)
    requires |p| == |q|
    ensures |r| == |p| && forall i :: 0 <= i < |p| ==> r[i] == Xor(p[i], q[i])
  {
    seq(|p|, i requires 0 <= i < |p| => SumOf(p[i], q[i]))
  }

  function SumOf(a: Symbol, b: Symbol): (r: Symbol)
    ensures r == Xor(a, b)
  {
    Powers();
    XorStaysBelow(a, b, 5);
    Xor(a, b)
  }

  // The generator polynomial of BIP-173 without its leading x^6, highest power first.
  const GENERATOR: seq<Symbol> := [29, 22, 20, 21, 29, 18]

  // p, 2p, 4p, ..., as registers.
  function Doublings(p: seq<Symbol>, n: nat): (rows: seq<nat>)
    ensures |rows| == n
    decreases n
  {
    if n == 0 then [] else [Val(p, 32)] + Doublings(TwiceAll(p), n - 1)
  }

  // The rows are the generator times 1, 2, 4, 8 and 16.
  lemma {:induction false} RowsAreGenerator()
    ensures GEN == Doublings(GENERATOR, 5)
  {
    FirstDoublings();
    LastDoublings();
    ValOfSix(29, 22, 20, 21, 29, 18);
    ValOfSix(19, 5, 1, 3, 19, 13);
    ValOfSix(15, 10, 2, 6, 15, 26);
    ValOfSix(30, 20, 4, 12, 30, 29);
    ValOfSix(21, 1, 8, 24, 21, 19);
    DoublingsOf(GENERATOR, [19, 5, 1, 3, 19, 13], 5);
    DoublingsOf([19, 5, 1, 3, 19, 13], [15, 10, 2, 6, 15, 26], 4);
    DoublingsOf([15, 10, 2, 6, 15, 26], [30, 20, 4, 12, 30, 29], 3);
    DoublingsOf([30, 20, 4, 12, 30, 29], [21, 1, 8, 24, 21, 19], 2);
    DoublingsOf([21, 1, 8, 24, 21, 19], TwiceAll([21, 1, 8, 24, 21, 19]), 1);
  }

  lemma {:induction false} DoublingsOf(p: seq<Symbol>, q: seq<Symbol>, n: nat)
    requires n != 0 && q == TwiceAll(p)
    ensures Doublings(p, n) == [Val(p, 32)] + Doublings(q, n - 1)
  {}

  lemma {:induction false} FirstDoublings()
    ensures TwiceAll(GENERATOR) == [19, 5, 1, 3, 19, 13]
    ensures TwiceAll([19, 5, 1, 3, 19, 13]) == [15, 10, 2, 6, 15, 26]
  {
    TwiceOfLarge();
    var p := [19, 5, 1, 3, 19, 13];
    assert GENERATOR[0] == 29 && GENERATOR[1] == 22 && GENERATOR[2] == 20;
    assert GENERATOR[3] == 21 && GENERATOR[4] == 29 && GENERATOR[5] == 18;
  }

  lemma {:induction false} LastDoublings()
    ensures TwiceAll([15, 10, 2, 6, 15, 26]) == [30, 20, 4, 12, 30, 29]
    ensures TwiceAll([30, 20, 4, 12, 30, 29]) == [21, 1, 8, 24, 21, 19]
  {
    TwiceOfLarge();
  }

  lemma {:induction false} TwiceOfLarge()
    ensures Twice(18) == 13 && Twice(19) == 15 && Twice(20) == 1 && Twice(21) == 3
    ensures Twice(22) == 5 && Twice(26) == 29 && Twice(29) == 19 && Twice(30) == 21
  {
    TwiceExactly(2);
    TwiceExactly(3);
    TwiceExactly(4);
    TwiceExactly(5);
    TwiceExactly(6);
    TwiceExactly(10);
    TwiceExactly(13);
    TwiceExactly(14);
  }

  lemma {:induction false} TwiceExactly(p: nat)
    requires p < 16
    ensures Twice(p + 16) == 2 * p + 1 + (if p / 4 % 2 == 0 then 8 else -8)
  {
    assert 2 * (p + 16) - 32 == 2 * p;
    NineAdded(p);
  }

  lemma {:induction false} NineAdded(p: nat)
    ensures Xor(2 * p, 9) == 2 * p + 1 + (if p / 4 % 2 == 0 then 8 else -8)
  {
    AddNine(p);
    FlipBitTwo(p);
  }

  lemma {:induction false} FlipBitTwo(p: nat)
    ensures Xor(p, 4) == if p / 4 % 2 == 0 then p + 4 else p - 4
  {
    var x4, x2, x1 := Xor(p, 4), Xor(p / 2, 2), Xor(p / 2 / 2, 1);
    FlipFour(p);
    FlipTwo(p / 2);
    FlipOne(p / 2 / 2);
    assert x4 == p % 2 + 2 * (p / 2 % 2 + 2 * x1);
  }

  lemma {:induction false} AddNine(p: nat)
    ensures Xor(2 * p, 9) == 1 + 2 * Xor(p, 4)
  {
    XorOfParts(p, 0, 4, 1);
  }

  lemma {:induction false} FlipFour(p: nat)
    ensures Xor(p, 4) == p % 2 + 2 * Xor(p / 2, 2)
  {
    XorOfParts(p / 2, p % 2, 2, 0);
  }

  lemma {:induction false} FlipTwo(p: nat)
    ensures Xor(p, 2) == p % 2 + 2 * Xor(p / 2, 1)
  {
    XorOfParts(p / 2, p % 2, 1, 0);
  }

  lemma {:induction false} FlipOne(x: nat)
    ensures Xor(x, 1) == if x % 2 == 0 then x + 1 else x - 1
  {
    XorOfParts(x / 2, x % 2, 0, 1);
    XorZero(x / 2);
  }

  lemma {:induction false} ValOfSix(a: Symbol, b: Symbol, c: Symbol, d: Symbol, e: Symbol, f: Symbol)
    ensures Val([a, b, c, d, e, f], 32) == ((((a * 32 + b) * 32 + c) * 32 + d) * 32 + e) * 32 + f
  {
    ValOfSnoc([], a, 32);
    ValOfSnoc([a], b, 32);
    ValOfSnoc([a, b], c, 32);
    ValOfSnoc([a, b, c], d, 32);
    ValOfSnoc([a, b, c, d], e, 32);
    ValOfSnoc([a, b, c, d, e], f, 32);
    assert [] + [a] == [a] && [a] + [b] == [a, b] && [a, b] + [c] == [a, b, c];
    assert [a, b, c] + [d] == [a, b, c, d] && [a, b, c, d] + [e] == [a, b, c, d, e];
    assert [a, b, c, d, e] + [f] == [a, b, c, d, e, f];
  }

  lemma {:induction false} SnocIsXor(v: nat, d: Symbol)
    ensures v * 32 + d == Xor(Shl(v, 5), d)
  {
    Powers();
    ShlIsProduct(v, 5);
    XorIsSum(v, d, 5);
  }

  lemma {:induction false} ValOfSum(p: seq<Symbol>, q: seq<Symbol>)
    requires |p| == |q|
    ensures Val(SumAll(p, q), 32) == Xor(Val(p, 32), Val(q, 32))
  {
    if |p| != 0 {
      var n := |p| - 1;
      var a, b := Val(p[..n], 32), Val(q[..n], 32);
      ValOfSum(p[..n], q[..n]);
      assert SumAll(p, q)[..n] == SumAll(p[..n], q[..n]);
      SumOfSnocs(a, b, p[n], q[n]);
    }
  }

  lemma {:induction false} SumOfSnocs(a: nat, b: nat, x: Symbol, y: Symbol)
    ensures Xor(a, b) * 32 + SumOf(x, y) == Xor(a * 32 + x, b * 32 + y)
  {
    SnocIsXor(Xor(a, b), SumOf(x, y));
    SnocIsXor(a, x);
    SnocIsXor(b, y);
    ShlIsLinear(a, b, 5);
    XorSwap(Shl(a, 5), Shl(b, 5), x, y);
  }

  // The rows picked by b add up to b times the polynomial they are doublings of.
  lemma {:induction false} RowsAreMultiple(b: nat, p: seq<Symbol>, n: nat)
    requires b < Pow2(n)
    ensures Rows(b, Doublings(p, n)) == Val(TimesAll(b, p), 32)
    decreases n
  {
    if n == 0 {
      ValOfZeros(TimesAll(b, p), 32);
    } else {
      RowsAreMultiple(b / 2, TwiceAll(p), n - 1);
      assert Doublings(p, n)[1..] == Doublings(TwiceAll(p), n - 1);
      PickedPlusRest(b, p);
    }
  }

  lemma {:induction false} PickedPlusRest(b: nat, p: seq<Symbol>)
    ensures Val(TimesAll(b, p), 32) == Xor(Pick(b, Val(p, 32)), Val(TimesAll(b / 2, TwiceAll(p)), 32))
  {
    var picked: seq<Symbol> := if b % 2 == 1 then p else seq(|p|, i => 0);
    if b % 2 != 1 {
      ValOfZeros(picked, 32);
    }
    ValOfSum(picked, TimesAll(b / 2, TwiceAll(p)));
    forall i | 0 <= i < |p|
      ensures TimesAll(b, p)[i] == Xor(picked[i], Times(b / 2, Twice(p[i])))
    {
      XorZero(0);
    }
    assert TimesAll(b, p) == SumAll(picked, TimesAll(b / 2, TwiceAll(p)));
  }

  // One step of long division by x^6 + GENERATOR: bring down v, subtract the leading
  // coefficient times the generator.
  function DivideOnce(c: seq<Symbol>, v: Symbol): (r: seq<Symbol>)
    requires |c| == 6
    ensures |r| == 6
  {
    SumAll(c[1..] + [v], TimesAll(c[0], GENERATOR))
  }

  // So the register, read as six coefficients over GF(32), takes the steps of that division.
  lemma {:induction false} StepIsDivision(c: seq<Symbol>, v: Symbol)
    requires |c| == 6
    ensures Step(Val(c, 32), v) == Val(DivideOnce(c, v), 32)
  {
    assert Step(Val(c, 32), v) == Xor(Val(c[1..], 32) * 32 + v, Rows(c[0], GEN)) by {
      RegisterParts(c);
      StepOfParts(Val(c, 32), Val(c[1..], 32), c[0], v);
    }
    DivisionValue(c, v);
  }

  lemma {:induction false} DivisionValue(c: seq<Symbol>, v: Symbol)
    requires |c| == 6
    ensures Val(DivideOnce(c, v), 32) == Xor(Val(c[1..], 32) * 32 + v, Rows(c[0], GEN))
  {
    ValOfSnoc(c[1..], v, 32);
    RowsOfGenerator(c[0]);
    ValueOfDifference(c[1..] + [v], TimesAll(c[0], GENERATOR), Val(c[1..], 32) * 32 + v, Rows(c[0], GEN));
  }

  lemma {:induction false} ValueOfDifference(p: seq<Symbol>, q: seq<Symbol>, x: nat, y: nat)
    requires |p| == |q| && Val(p, 32) == x && Val(q, 32) == y
    ensures Val(SumAll(p, q), 32) == Xor(x, y)
  {
    ValOfSum(p, q);
  }

  lemma {:induction false} RowsOfGenerator(b: Symbol)
    ensures Rows(b, GEN) == Val(TimesAll(b, GENERATOR), 32)
  {
    Powers();
    RowsAreGenerator();
    RowsAreMultiple(b, GENERATOR, 5);
  }

  lemma {:induction false} StepOfParts(chk: nat, low: nat, top: nat, v: Symbol)
    requires low == Low(chk, 25) && top == Shr(chk, 25)
    ensures Step(chk, v) == Xor(low * 32 + v, Rows(top, GEN))
  {
    SnocIsXor(low, v);
  }

  lemma {:induction false} RegisterParts(c: seq<Symbol>)
    requires |c| == 6
    ensures Shr(Val(c, 32), 25) == c[0] && Low(Val(c, 32), 25) == Val(c[1..], 32)
  {
    assert c == [c[0]] + c[1..];
    ValOfConcat([c[0]], c[1..], 32);
    assert Pow(32, 5) == 0x200_0000;
    assert [c[0]][..0] == [];
    ValBound(c[1..], 32);
    Powers();
    DivModOf(c[0], 0x200_0000, Val(c[1..], 32));
    ShrLowAreDivMod(Val(c, 32), 25);
  }

  // The remainder of values, prefixed with a one, by the generator.
  function Remainder(values: seq<Symbol>): (r: seq<Symbol>)
    ensures |r| == 6
  {
    if |values| == 0 then [0, 0, 0, 0, 0, 1]
    else DivideOnce(Remainder(values[..|values| - 1]), values[|values| - 1])
  }

  lemma {:induction false} PolymodIsRemainder(values: seq<Symbol>)
    ensures Polymod(values) == Val(Remainder(values), 32)
  {
    if |values| == 0 {
      ValOfSix(0, 0, 0, 0, 0, 1);
    } else {
      PolymodIsRemainder(values[..|values| - 1]);
      StepIsDivision(Remainder(values[..|values| - 1]), values[|values| - 1]);
    }
  }

  // ---------- A published vector ----------

  function AddBit(a: nat, b: nat, w: nat): nat
    requires w > 0
  {
    if a / w % 2 == b / w % 2 then 0 else w
  }

  // The exclusive or of the low five bits.
  function Five(a: nat, b: nat): nat {
    AddBit(a, b, 1) + AddBit(a, b, 2) + AddBit(a, b, 4) + AddBit(a, b, 8) + AddBit(a, b, 16)
  }

  lemma {:induction false} LastBit(a: nat, b: nat)
    ensures Xor(a, b) == (if a % 2 == b % 2 then 0 else 1) + 2 * Xor(a / 2, b / 2)
  {
    XorHalves(a, b);
  }

  lemma {:induction false} LowTwo(a: nat, b: nat)
    ensures Xor(a, b) == AddBit(a, b, 1) + AddBit(a, b, 2) + 4 * Xor(a / 4, b / 4)
  {
    LastBit(a, b);
    LastBit(a / 2, b / 2);
    Quarters(a);
    Quarters(b);
  }

  lemma {:induction false} LowFive(a: nat, b: nat)
    ensures Xor(a, b) == Five(a, b) + 32 * Xor(a / 32, b / 32)
  {
    LowTwo(a, b);
    LowTwo(a / 4, b / 4);
    LastBit(a / 4 / 4, b / 4 / 4);
    Quarters(a);
    Quarters(b);
  }

  lemma {:induction false} Quarters(a: nat)
    ensures a / 4 == a / 2 / 2 && a / 8 == a / 4 / 2 && a / 16 == a / 4 / 4 && a / 32 == a / 4 / 4 / 2
  {}

  lemma {:induction false} XorIsFive(a: Symbol, b: Symbol)
    ensures Xor(a, b) == Five(a, b)
  {
    LowFive(a, b);
    assert a / 32 == 0 && b / 32 == 0 && Xor(0, 0) == 0;
  }

  // A register by its six symbols, highest first.
  datatype Six = Six(d5: Symbol, d4: Symbol, d3: Symbol, d2: Symbol, d1: Symbol, d0: Symbol)

  function LowSymbols(p: Six): nat {
    (((p.d4 * 32 + p.d3) * 32 + p.d2) * 32 + p.d1) * 32 + p.d0
  }

  function Number(p: Six): nat {
    ((((p.d5 * 32 + p.d4) * 32 + p.d3) * 32 + p.d2) * 32 + p.d1) * 32 + p.d0
  }

  // r is the sum of p and q, symbol by symbol.
  predicate IsSum(p: Six, q: Six, r: Six) {
    && r.d5 == Xor(p.d5, q.d5) && r.d4 == Xor(p.d4, q.d4) && r.d3 == Xor(p.d3, q.d3)
    && r.d2 == Xor(p.d2, q.d2) && r.d1 == Xor(p.d1, q.d1) && r.d0 == Xor(p.d0, q.d0)
  }

  lemma {:induction false} SumIsXor(p: Six, q: Six, r: Six)
    requires IsSum(p, q, r)
    ensures Xor(Number(p), Number(q)) == Number(r)
  {
    var a3, b3, c3 := FirstThree(p, q, r);
    var a0, b0, c0 := NextThree(a3, b3, c3, p, q, r);
    NumberOf(p, a3, a0);
    NumberOf(q, b3, b0);
    NumberOf(r, c3, c0);
  }

  lemma {:induction false} NumberOf(p: Six, a: nat, a': nat)
    requires a == (p.d5 * 32 + p.d4) * 32 + p.d3 && a' == ((a * 32 + p.d2) * 32 + p.d1) * 32 + p.d0
    ensures a' == Number(p)
  {}

  lemma {:induction false} NextThree(a: nat, b: nat, c: nat, p: Six, q: Six, r: Six) returns (a': nat, b': nat, c': nat)
    requires Xor(a, b) == c && IsSum(p, q, r)
    ensures a' == ((a * 32 + p.d2) * 32 + p.d1) * 32 + p.d0 && b' == ((b * 32 + q.d2) * 32 + q.d1) * 32 + q.d0
    ensures c' == ((c * 32 + r.d2) * 32 + r.d1) * 32 + r.d0 && Xor(a', b') == c'
  {
    var a2, b2, c2 := NextSymbol(a, b, c, p.d2, q.d2, r.d2);
    var a1, b1, c1 := NextSymbol(a2, b2, c2, p.d1, q.d1, r.d1);
    a', b', c' := NextSymbol(a1, b1, c1, p.d0, q.d0, r.d0);
  }

  lemma {:induction false} FirstThree(p: Six, q: Six, r: Six) returns (a: nat, b: nat, c: nat)
    requires IsSum(p, q, r)
    ensures a == (p.d5 * 32 + p.d4) * 32 + p.d3 && b == (q.d5 * 32 + q.d4) * 32 + q.d3 && c == (r.d5 * 32 + r.d4) * 32 + r.d3
    ensures Xor(a, b) == c
  {
    var a4, b4, c4 := NextSymbol(p.d5, q.d5, r.d5, p.d4, q.d4, r.d4);
    a, b, c := NextSymbol(a4, b4, c4, p.d3, q.d3, r.d3);
  }

  lemma {:induction false} NextSymbol(a: nat, b: nat, c: nat, x: Symbol, y: Symbol, z: Symbol) returns (a': nat, b': nat, c': nat)
    requires Xor(a, b) == c && Xor(x, y) == z
    ensures a' == a * 32 + x && b' == b * 32 + y && c' == c * 32 + z && Xor(a', b') == c'
  {
    a', b', c' := a * 32 + x, b * 32 + y, c * 32 + z;
    SumOfSnocs(a, b, x, y);
  }

  // A sum checked on its symbols: a + b == c.
  lemma {:induction false} SixSum(p: Six, q: Six, r: Six,
      a5: Symbol, a4: Symbol, a3: Symbol, a2: Symbol, a1: Symbol, a0: Symbol,
      b5: Symbol, b4: Symbol, b3: Symbol, b2: Symbol, b1: Symbol, b0: Symbol,
      c5: Symbol, c4: Symbol, c3: Symbol, c2: Symbol, c1: Symbol, c0: Symbol)
    requires p == Six(a5, a4, a3, a2, a1, a0) && q == Six(b5, b4, b3, b2, b1, b0) && r == Six(c5, c4, c3, c2, c1, c0)
    requires c5 == Five(a5, b5) && c4 == Five(a4, b4) && c3 == Five(a3, b3)
    requires c2 == Five(a2, b2) && c1 == Five(a1, b1) && c0 == Five(a0, b0)
    ensures IsSum(p, q, r)
  {
    XorIsFive(a5, b5);
    XorIsFive(a4, b4);
    XorIsFive(a3, b3);
    XorIsFive(a2, b2);
    XorIsFive(a1, b1);
    XorIsFive(a0, b0);
  }

  lemma {:induction false} OneRow(b: nat, row: nat, rows: seq<nat>)
    ensures Rows(b, [row] + rows) == if b % 2 == 1 then Xor(row, Rows(b / 2, rows)) else Rows(b / 2, rows)
  {
    assert ([row] + rows)[1..] == rows;
    XorZero(Rows(b / 2, rows));
  }

  // The sum of the rows for 1, 18 and 30.
  lemma {:induction false} RowSum1(b: nat, rows: seq<nat>, g0: nat, rest: seq<nat>)
    requires b == 1 && rows == [g0] + rest
    ensures Rows(b, rows) == g0
  {
    OneRow(b, g0, rest);
    RowsOfZero(rest);
    XorZero(g0);
  }

  lemma {:induction false} RowSum18(b: nat, rows: seq<nat>, g0: nat, g1: nat, g2: nat, g3: nat, g4: nat)
    requires b == 18 && rows == [g0] + ([g1] + ([g2] + ([g3] + [g4])))
    ensures Rows(b, rows) == Xor(g1, g4)
  {
    OneRow(b, g0, [g1] + ([g2] + ([g3] + [g4])));
    OneRow(b / 2, g1, [g2] + ([g3] + [g4]));
    OneRow(b / 2 / 2, g2, [g3] + [g4]);
    OneRow(b / 2 / 2 / 2, g3, [g4]);
    RowSum1(b / 2 / 2 / 2 / 2, [g4], g4, []);
  }

  lemma {:induction false} RowSum30(b: nat, rows: seq<nat>, g0: nat, g1: nat, g2: nat, g3: nat, g4: nat)
    requires b == 30 && rows == [g0] + ([g1] + ([g2] + ([g3] + [g4])))
    ensures Rows(b, rows) == Xor(g1, Xor(g2, Xor(g3, g4)))
  {
    OneRow(b, g0, [g1] + ([g2] + ([g3] + [g4])));
    OneRow(b / 2, g1, [g2] + ([g3] + [g4]));
    OneRow(b / 2 / 2, g2, [g3] + [g4]);
    OneRow(b / 2 / 2 / 2, g3, [g4]);
    RowSum1(b / 2 / 2 / 2 / 2, [g4], g4, []);
  }

  // The same sums, by symbols.
  lemma {:induction false} SixSum18(b: nat, rows: seq<nat>, g0: nat, p1: Six, g2: nat, g3: nat, p4: Six, sum: Six)
    requires b == 18 && rows == [g0] + ([Number(p1)] + ([g2] + ([g3] + [Number(p4)])))
    requires IsSum(p1, p4, sum)
    ensures Rows(b, rows) == Number(sum)
  {
    RowSum18(b, rows, g0, Number(p1), g2, g3, Number(p4));
    SumIsXor(p1, p4, sum);
  }

  lemma {:induction false} SixSum30(b: nat, rows: seq<nat>, g0: nat, p1: Six, p2: Six, p3: Six, p4: Six, p34: Six, p234: Six, sum: Six)
    requires b == 30 && rows == [g0] + ([Number(p1)] + ([Number(p2)] + ([Number(p3)] + [Number(p4)])))
    requires IsSum(p3, p4, p34) && IsSum(p2, p34, p234) && IsSum(p1, p234, sum)
    ensures Rows(b, rows) == Number(sum)
  {
    RowSum30(b, rows, g0, Number(p1), Number(p2), Number(p3), Number(p4));
    SumIsXor(p3, p4, p34);
    SumIsXor(p2, p34, p234);
    SumIsXor(p1, p234, sum);
  }

  // The register after n values.
  predicate After(values: seq<nat>, n: nat, chk: Six)
    requires n <= |values|
  {
    Polymod(values[..n]) == Number(chk)
  }

  lemma {:induction false} Advance(values: seq<nat>, n: nat, v: Symbol, chk: Six, shifted: Six, sum: Six, r: Six)
    requires n < |values| && values[n] == v && After(values, n, chk)
    requires shifted == Six(chk.d4, chk.d3, chk.d2, chk.d1, chk.d0, v)
    requires Rows(chk.d5, GEN) == Number(sum) && IsSum(shifted, sum, r)
    ensures After(values, n + 1, r)
  {
    assert values[..n + 1][..n] == values[..n];
    StepOfSix(v, chk, shifted, sum, r);
  }

  lemma {:induction false} StepOfSix(v: Symbol, chk: Six, shifted: Six, sum: Six, r: Six)
    requires shifted == Six(chk.d4, chk.d3, chk.d2, chk.d1, chk.d0, v)
    requires Rows(chk.d5, GEN) == Number(sum) && IsSum(shifted, sum, r)
    ensures Step(Number(chk), v) == Number(r)
  {
    SixParts(chk);
    ShiftedNumber(chk, shifted, v);
    StepOfNumbers(Number(chk), LowSymbols(chk), chk.d5, v, Number(shifted), Number(sum));
    SumIsXor(shifted, sum, r);
  }

  lemma {:induction false} ShiftedNumber(chk: Six, shifted: Six, v: Symbol)
    requires shifted == Six(chk.d4, chk.d3, chk.d2, chk.d1, chk.d0, v)
    ensures LowSymbols(chk) * 32 + v == Number(shifted)
  {}

  lemma {:induction false} StepOfNumbers(chk: nat, low: nat, top: nat, v: Symbol, shifted: nat, sum: nat)
    requires low == Low(chk, 25) && top == Shr(chk, 25) && shifted == low * 32 + v && Rows(top, GEN) == sum
    ensures Step(chk, v) == Xor(shifted, sum)
  {
    StepOfParts(chk, low, top, v);
  }

  lemma {:induction false} Shift(values: seq<nat>, n: nat, v: Symbol, chk: Six, shifted: Six)
    requires n < |values| && values[n] == v && After(values, n, chk) && chk.d5 == 0
    requires shifted == Six(chk.d4, chk.d3, chk.d2, chk.d1, chk.d0, v)
    ensures After(values, n + 1, shifted)
  {
    assert values[..n + 1][..n] == values[..n];
    ShiftOfSix(v, chk, shifted);
  }

  lemma {:induction false} ShiftOfSix(v: Symbol, chk: Six, shifted: Six)
    requires shifted == Six(chk.d4, chk.d3, chk.d2, chk.d1, chk.d0, v) && chk.d5 == 0
    ensures Step(Number(chk), v) == Number(shifted)
  {
    SixParts(chk);
    ShiftedNumber(chk, shifted, v);
    RowsOfZero(GEN);
    StepOfNumbers(Number(chk), LowSymbols(chk), 0, v, Number(shifted), 0);
    XorZero(Number(shifted));
  }

  lemma {:induction false} SixParts(chk: Six)
    ensures Shr(Number(chk), 25) == chk.d5 && Low(Number(chk), 25) == LowSymbols(chk)
  {
    Powers();
    assert Number(chk) == chk.d5 * 0x200_0000 + LowSymbols(chk);
    DivModOf(chk.d5, 0x200_0000, LowSymbols(chk));
    ShrLowAreDivMod(Number(chk), 25);
  }

  // Sums of rows, by symbols.
  lemma {:induction false} SumOf1And4(p: Six, q: Six) returns (r: Six)
    requires p == Six(19, 5, 1, 3, 19, 13) && q == Six(21, 1, 8, 24, 21, 19)
    ensures r == Six(6, 4, 9, 27, 6, 30) && IsSum(p, q, r)
  {
    r := Six(6, 4, 9, 27, 6, 30);
    SixSum(p, q, r, 19, 5, 1, 3, 19, 13, 21, 1, 8, 24, 21, 19, 6, 4, 9, 27, 6, 30);
  }

  lemma {:induction false} SumOf3And4(p: Six, q: Six) returns (r: Six)
    requires p == Six(30, 20, 4, 12, 30, 29) && q == Six(21, 1, 8, 24, 21, 19)
    ensures r == Six(11, 21, 12, 20, 11, 14) && IsSum(p, q, r)
  {
    r := Six(11, 21, 12, 20, 11, 14);
    SixSum(p, q, r, 30, 20, 4, 12, 30, 29, 21, 1, 8, 24, 21, 19, 11, 21, 12, 20, 11, 14);
  }

  lemma {:induction false} SumOf2To4(p: Six, q: Six) returns (r: Six)
    requires p == Six(15, 10, 2, 6, 15, 26) && q == Six(11, 21, 12, 20, 11, 14)
    ensures r == Six(4, 31, 14, 18, 4, 20) && IsSum(p, q, r)
  {
    r := Six(4, 31, 14, 18, 4, 20);
    SixSum(p, q, r, 15, 10, 2, 6, 15, 26, 11, 21, 12, 20, 11, 14, 4, 31, 14, 18, 4, 20);
  }

  lemma {:induction false} SumOf1To4(p: Six, q: Six) returns (r: Six)
    requires p == Six(19, 5, 1, 3, 19, 13) && q == Six(4, 31, 14, 18, 4, 20)
    ensures r == Six(23, 26, 15, 17, 23, 25) && IsSum(p, q, r)
  {
    r := Six(23, 26, 15, 17, 23, 25);
    SixSum(p, q, r, 19, 5, 1, 3, 19, 13, 4, 31, 14, 18, 4, 20, 23, 26, 15, 17, 23, 25);
  }

  lemma {:induction false} RowsOf1(b: nat, sum: Six)
    requires b == 1 && sum == Six(29, 22, 20, 21, 29, 18)
    ensures Rows(b, GEN) == Number(sum)
  {
    RowSum1(b, GEN, GEN[0], GEN[1..]);
  }

  lemma {:induction false} RowsOf18(b: nat, sum: Six)
    requires b == 18 && sum == Six(6, 4, 9, 27, 6, 30)
    ensures Rows(b, GEN) == Number(sum)
  {
    var p1, p4 := Six(19, 5, 1, 3, 19, 13), Six(21, 1, 8, 24, 21, 19);
    var r := SumOf1And4(p1, p4);
    SixSum18(b, GEN, GEN[0], p1, GEN[2], GEN[3], p4, r);
  }

  lemma {:induction false} RowsOf30(b: nat, sum: Six)
    requires b == 30 && sum == Six(23, 26, 15, 17, 23, 25)
    ensures Rows(b, GEN) == Number(sum)
  {
    var p1, p2 := Six(19, 5, 1, 3, 19, 13), Six(15, 10, 2, 6, 15, 26);
    var p3, p4 := Six(30, 20, 4, 12, 30, 29), Six(21, 1, 8, 24, 21, 19);
    var p34 := SumOf3And4(p3, p4);
    var p234 := SumOf2To4(p2, p34);
    var p1234 := SumOf1To4(p1, p234);
    SixSum30(b, GEN, GEN[0], p1, p2, p3, p4, p34, p234, p1234);
  }

  // The values of "a12uel5l", a valid address of BIP-173.
  predicate IsVector(values: seq<nat>) {
    values == [3, 0, 1, 10, 28, 25, 31, 20, 31]
  }

  lemma {:induction false} PrefixValues(values: seq<nat>) returns (chk: Six)
    requires IsVector(values)
    ensures chk == Six(0, 0, 1, 3, 0, 1) && After(values, 3, chk)
  {
    var c0, c1, c2 := Six(0, 0, 0, 0, 0, 1), Six(0, 0, 0, 0, 1, 3), Six(0, 0, 0, 1, 3, 0);
    chk := Six(0, 0, 1, 3, 0, 1);
    assert values[..0] == [];
    Shift(values, 0, 3, c0, c1);
    Shift(values, 1, 0, c1, c2);
    Shift(values, 2, 1, c2, chk);
  }

  lemma {:induction false} FirstValues(values: seq<nat>) returns (chk: Six)
    requires IsVector(values)
    ensures chk == Six(1, 3, 0, 1, 10, 28) && After(values, 5, chk)
  {
    var c3 := PrefixValues(values);
    var c4 := Six(0, 1, 3, 0, 1, 10);
    chk := Six(1, 3, 0, 1, 10, 28);
    Shift(values, 3, 10, c3, c4);
    Shift(values, 4, 28, c4, chk);
  }

  lemma {:induction false} SixthSum(shifted: Six, sum: Six, r: Six)
    requires shifted == Six(3, 0, 1, 10, 28, 25) && sum == Six(29, 22, 20, 21, 29, 18) && r == Six(30, 22, 21, 31, 1, 11)
    ensures IsSum(shifted, sum, r)
  {
    SixSum(shifted, sum, r, 3, 0, 1, 10, 28, 25, 29, 22, 20, 21, 29, 18, 30, 22, 21, 31, 1, 11);
  }

  lemma {:induction false} DivideSixth(values: seq<nat>, chk: Six) returns (r: Six)
    requires |values| == 9 && values[5] == 25 && chk == Six(1, 3, 0, 1, 10, 28) && After(values, 5, chk)
    ensures r == Six(30, 22, 21, 31, 1, 11) && After(values, 6, r)
  {
    var shifted, sum := Six(3, 0, 1, 10, 28, 25), Six(29, 22, 20, 21, 29, 18);
    r := Six(30, 22, 21, 31, 1, 11);
    SixthSum(shifted, sum, r);
    RowsOf1(chk.d5, sum);
    Advance(values, 5, 25, chk, shifted, sum, r);
  }

  lemma {:induction false} SeventhSum(shifted: Six, sum: Six, r: Six)
    requires shifted == Six(22, 21, 31, 1, 11, 31) && sum == Six(23, 26, 15, 17, 23, 25) && r == Six(1, 15, 16, 16, 28, 6)
    ensures IsSum(shifted, sum, r)
  {
    SixSum(shifted, sum, r, 22, 21, 31, 1, 11, 31, 23, 26, 15, 17, 23, 25, 1, 15, 16, 16, 28, 6);
  }

  lemma {:induction false} DivideSeventh(values: seq<nat>, chk: Six) returns (r: Six)
    requires |values| == 9 && values[6] == 31 && chk == Six(30, 22, 21, 31, 1, 11) && After(values, 6, chk)
    ensures r == Six(1, 15, 16, 16, 28, 6) && After(values, 7, r)
  {
    var shifted, sum := Six(22, 21, 31, 1, 11, 31), Six(23, 26, 15, 17, 23, 25);
    r := Six(1, 15, 16, 16, 28, 6);
    SeventhSum(shifted, sum, r);
    RowsOf30(chk.d5, sum);
    Advance(values, 6, 31, chk, shifted, sum, r);
  }

  lemma {:induction false} EighthSum(shifted: Six, sum: Six, r: Six)
    requires shifted == Six(15, 16, 16, 28, 6, 20) && sum == Six(29, 22, 20, 21, 29, 18) && r == Six(18, 6, 4, 9, 27, 6)
    ensures IsSum(shifted, sum, r)
  {
    SixSum(shifted, sum, r, 15, 16, 16, 28, 6, 20, 29, 22, 20, 21, 29, 18, 18, 6, 4, 9, 27, 6);
  }

  lemma {:induction false} DivideEighth(values: seq<nat>, chk: Six) returns (r: Six)
    requires |values| == 9 && values[7] == 20 && chk == Six(1, 15, 16, 16, 28, 6) && After(values, 7, chk)
    ensures r == Six(18, 6, 4, 9, 27, 6) && After(values, 8, r)
  {
    var shifted, sum := Six(15, 16, 16, 28, 6, 20), Six(29, 22, 20, 21, 29, 18);
    r := Six(18, 6, 4, 9, 27, 6);
    EighthSum(shifted, sum, r);
    RowsOf1(chk.d5, sum);
    Advance(values, 7, 20, chk, shifted, sum, r);
  }

  lemma {:induction false} NinthSum(shifted: Six, sum: Six, r: Six)
    requires shifted == Six(6, 4, 9, 27, 6, 31) && sum == Six(6, 4, 9, 27, 6, 30) && r == Six(0, 0, 0, 0, 0, 1)
    ensures IsSum(shifted, sum, r)
  {
    SixSum(shifted, sum, r, 6, 4, 9, 27, 6, 31, 6, 4, 9, 27, 6, 30, 0, 0, 0, 0, 0, 1);
  }

  lemma {:induction false} DivideNinth(values: seq<nat>, chk: Six) returns (r: Six)
    requires |values| == 9 && values[8] == 31 && chk == Six(18, 6, 4, 9, 27, 6) && After(values, 8, chk)
    ensures r == Six(0, 0, 0, 0, 0, 1) && After(values, 9, r)
  {
    var shifted, sum := Six(6, 4, 9, 27, 6, 31), Six(6, 4, 9, 27, 6, 30);
    r := Six(0, 0, 0, 0, 0, 1);
    NinthSum(shifted, sum, r);
    RowsOf18(chk.d5, sum);
    Advance(values, 8, 31, chk, shifted, sum, r);
  }

  // The register after the values of a published valid address is 1.
  lemma {:induction false} VectorLeavesOne(values: seq<nat>)
    requires IsVector(values)
    ensures Polymod(values) == 1
  {
    var c5 := FirstValues(values);
    var c6 := DivideSixth(values, c5);
    var c7 := DivideSeventh(values, c6);
    var c8 := DivideEighth(values, c7);
    var c9 := DivideNinth(values, c8);
    assert values[..9] == values;
  }
}
