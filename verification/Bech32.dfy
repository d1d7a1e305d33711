/**
 The Bech32 codec of fix_genesis_hrp.py (BIP-173, sections "Bech32" and
 "Checksum"), as that script writes it: no 90-character limit, and mixed case
 is lowered instead of rejected.
 */
module Bech32 {
  import opened Bits
  import opened Numerals
  import opened ChecksumRegister
  import opened GeneratorPolynomial

  const CHARSET: string := "qpzry9x8gf2tvdw0s3jn54khce6mua7l"

  datatype Decoded = NoAddress | Address(hrp: string, data: seq<Symbol>)

  // ---------- Characters ----------

  predicate IsPrintable(s: string) {
    forall i :: 0 <= i < |s| ==> 33 <= s[i] as int <= 126
  }

  function LowerChar(c: char): char {
    if 'A' <= c <= 'Z' then c + 32 as char else c
  }

  // str.lower() on a string of printable ASCII characters.
  function Lower(s: string): (r: string)
    ensures |r| == |s|
    ensures forall i :: 0 <= i < |s| ==> r[i] == LowerChar(s[i])
  {
    seq(|s|, i requires 0 <= i < |s| => LowerChar(s[i]))
  }

  // The 26 letters, and nothing else.
  lemma {:induction false} LowersLetters(c: char, i: nat)
    ensures i < 26 && c == 'A' + i as char ==> LowerChar(c) == "abcdefghijklmnopqrstuvwxyz"[i]
    ensures c !in "ABCDEFGHIJKLMNOPQRSTUVWXYZ" ==> LowerChar(c) == c
  {
    var upper := "ABCDEFGHIJKLMNOPQRSTUVWXYZ";
    if 'A' <= c <= 'Z' {
      assert upper[(c - 'A') as int] == c;
    }
  }

  // The last index of c in s, or -1.
  function RFind(s: string, c: char): (pos: int)
    ensures -1 <= pos < |s|
    ensures pos >= 0 ==> s[pos] == c
    ensures forall i :: pos < i < |s| ==> s[i] != c
  {
    if s == "" then -1
    else if s[|s| - 1] == c then |s| - 1
    else RFind(s[..|s| - 1], c)
  }

  // The dictionary CHARSET_MAP.
  function CharsetIndex(c: char): (i: int)
    ensures -1 <= i < 32
    ensures i >= 0 ==> CHARSET[i] == c
    ensures i < 0 ==> c !in CHARSET
  {
    RFind(CHARSET, c)
  }

  // The place of c in the alphabet, written out.
  ghost function Rank(c: char): int {
    if c == 'q' then 0 else if c == 'p' then 1 else if c == 'z' then 2 else if c == 'r' then 3 else
    if c == 'y' then 4 else if c == '9' then 5 else if c == 'x' then 6 else if c == '8' then 7 else
    if c == 'g' then 8 else if c == 'f' then 9 else if c == '2' then 10 else if c == 't' then 11 else
    if c == 'v' then 12 else if c == 'd' then 13 else if c == 'w' then 14 else if c == '0' then 15 else
    if c == 's' then 16 else if c == '3' then 17 else if c == 'j' then 18 else if c == 'n' then 19 else
    if c == '5' then 20 else if c == '4' then 21 else if c == 'k' then 22 else if c == 'h' then 23 else
    if c == 'c' then 24 else if c == 'e' then 25 else if c == '6' then 26 else if c == 'm' then 27 else
    if c == 'u' then 28 else if c == 'a' then 29 else if c == '7' then 30 else if c == 'l' then 31 else
    -1
  }

  lemma {:induction false} RankOfCharset(d: Symbol)
    ensures Rank(CHARSET[d]) == d
  {}

  lemma {:induction false} CharsetIsInjective(d: Symbol)
    ensures CharsetIndex(CHARSET[d]) == d
    ensures CHARSET[d] != '1' && LowerChar(CHARSET[d]) == CHARSET[d]
    ensures 33 <= CHARSET[d] as int <= 126
  {
    RankOfCharset(d);
    RankOfCharset(CharsetIndex(CHARSET[d]));
  }

  // BIP-173 lists the characters in four rows of eight.
  lemma {:induction false} AlphabetRows(d: Symbol)
    ensures CHARSET[d] == if d < 8 then "qpzry9x8"[d] else if d < 16 then "gf2tvdw0"[d - 8] else if d < 24 then "s3jn54kh"[d - 16] else "ce6mua7l"[d - 24]
  {
    RankOfCharset(d);
  }

  function ToChars(data: seq<Symbol>): (s: string)
    ensures |s| == |data|
    ensures forall i :: 0 <= i < |s| ==> s[i] == CHARSET[data[i]]
  {
    seq(|data|, i requires 0 <= i < |data| => CHARSET[data[i]])
  }

  predicate InCharset(s: string) {
    forall i :: 0 <= i < |s| ==> CharsetIndex(s[i]) >= 0
  }

  function ToSymbols(s: string): (data: seq<Symbol>)
    requires InCharset(s)
    ensures |data| == |s|
    ensures forall i :: 0 <= i < |s| ==> data[i] == CharsetIndex(s[i])
  {
    seq(|s|, i requires 0 <= i < |s| => CharsetIndex(s[i]))
  }

  lemma {:induction false} SymbolsOfChars(data: seq<Symbol>)
    ensures InCharset(ToChars(data)) && ToSymbols(ToChars(data)) == data
  {
    forall i | 0 <= i < |data|
      ensures CharsetIndex(ToChars(data)[i]) == data[i]
    {
      CharsetIsInjective(data[i]);
    }
  }

  lemma {:induction false} CharsOfSymbols(s: string)
    requires InCharset(s)
    ensures ToChars(ToSymbols(s)) == s
  {}

  // ---------- Checksum ----------

  function HighBits(hrp: string): (r: seq<nat>)
    ensures |r| == |hrp|
    ensures forall i :: 0 <= i < |r| ==> r[i] == hrp[i] as int / 32
  {
    seq(|hrp|, i requires 0 <= i < |hrp| => hrp[i] as int / 32)
  }

  function LowBits(hrp: string): (r: seq<nat>)
    ensures |r| == |hrp|
    ensures forall i :: 0 <= i < |r| ==> r[i] == hrp[i] as int % 32
  {
    seq(|hrp|, i requires 0 <= i < |hrp| => hrp[i] as int % 32)
  }

  function HrpExpand(hrp: string): (values: seq<nat>)
    ensures Are30Bit(values)
  {
    HighBits(hrp) + [0] + LowBits(hrp)
  }

  // High bits, a zero, low bits, each part in the order of the prefix.
  lemma {:induction false} HrpExpandParts(hrp: string, i: nat)
    requires i < |hrp|
    ensures |HrpExpand(hrp)| == 2 * |hrp| + 1 && HrpExpand(hrp)[|hrp|] == 0
    ensures 32 * HrpExpand(hrp)[i] + HrpExpand(hrp)[|hrp| + 1 + i] == hrp[i] as int && HrpExpand(hrp)[|hrp| + 1 + i] < 32
  {}

  predicate VerifyChecksum(hrp: string, data: seq<Symbol>) {
    Polymod(HrpExpand(hrp) + data) == 1
  }

  const SIX_ZEROS: seq<Symbol> := [0, 0, 0, 0, 0, 0]

  function CreateChecksum(hrp: string, data: seq<Symbol>): (checksum: seq<Symbol>)
    ensures |checksum| == 6
  {
    SixSymbols(Xor(Polymod(HrpExpand(hrp) + data + SIX_ZEROS), 1))
  }

  function SixSymbols(polymod: nat): (symbols: seq<Symbol>)
    ensures |symbols| == 6
  {
    seq(6, i requires 0 <= i < 6 => FiveBits(polymod, 5 * (5 - i)))
  }

  // (x >> k) & 31
  function FiveBits(x: nat, k: nat): Symbol {
    Split(Shr(x, k), 5);
    Powers();
    Low(Shr(x, k), 5)
  }

  // The six symbols of a 30-bit register are its base-32 digits.
  lemma {:induction false} DigitsAreFiveBits(x: nat, n: nat, i: nat)
    requires i < n
    ensures Digits(x, 32, n)[i] == FiveBits(x, 5 * (n - 1 - i))
    decreases n
  {
    Powers();
    ShrLowAreDivMod(x, 5);
    if i < n - 1 {
      DigitsAreFiveBits(x / 32, n - 1, i);
      ShrAdds(x, 5, 5 * (n - 2 - i));
    }
  }

  // The created checksum verifies, and no other six symbols do.
  lemma {:induction false} ChecksumIsUnique(hrp: string, data: seq<Symbol>, x: seq<Symbol>)
    requires |x| == 6
    ensures VerifyChecksum(hrp, data + x) <==> x == CreateChecksum(hrp, data)
  {
    assert HrpExpand(hrp) + (data + x) == HrpExpand(hrp) + data + x;
    UniqueSix(HrpExpand(hrp) + data, x);
  }

  lemma {:induction false} UniqueSix(values: seq<nat>, x: seq<Symbol>)
    requires Are30Bit(values) && |x| == 6
    ensures Polymod(values + x) == 1 <==> x == SixSymbols(Xor(Polymod(values + SIX_ZEROS), 1))
  {
    PolymodStays30Bits(1, values + SIX_ZEROS);
    SixMore(values, x, SIX_ZEROS);
    UniqueSymbols(Polymod(values + SIX_ZEROS), x);
  }

  lemma {:induction false} UniqueSymbols(p: nat, x: seq<Symbol>)
    requires Is30Bit(p) && |x| == 6
    ensures Xor(p, Val(x, 32)) == 1 <==> x == SixSymbols(Xor(p, 1))
  {
    Powers();
    XorStaysBelow(p, 1, 30);
    SixSymbolsValue(Xor(p, 1));
    UniqueDifference(p, Val(x, 32));
    if Val(x, 32) == Xor(p, 1) {
      NumeralsUnique(x, SixSymbols(Xor(p, 1)), 32);
    }
  }

  lemma {:induction false} UniqueDifference(p: nat, x: nat)
    ensures Xor(p, x) == 1 <==> x == Xor(p, 1)
  {
    XorSelf(p);
    XorZero(1);
    XorAssociates(p, p, 1);
    if Xor(p, x) == 1 {
      XorCancelsLeft(p, x, Xor(p, 1));
    }
  }

  lemma {:induction false} SixSymbolsValue(x: nat)
    requires Is30Bit(x)
    ensures Val(SixSymbols(x), 32) == x
  {
    assert Pow(32, 6) == 0x4000_0000;
    ValOfDigits(x, 32, 6);
    forall i: nat | i < 6
      ensures Digits(x, 32, 6)[i] == SixSymbols(x)[i]
    {
      DigitsAreFiveBits(x, 6, i);
    }
    assert Digits(x, 32, 6) == SixSymbols(x);
  }

  // ---------- Encoding and decoding ----------

  function Encode(hrp: string, data: seq<Symbol>): string {
    hrp + "1" + ToChars(data + CreateChecksum(hrp, data))
  }

  function Decode(bech: string): Decoded {
    if !IsPrintable(bech) then NoAddress
    else
      var lower := Lower(bech);
      var pos := RFind(lower, '1');
      if pos < 1 || pos + 7 > |lower| then NoAddress
      else DecodeParts(lower[..pos], lower[pos + 1..])
  }

  function DecodeParts(hrp: string, part: string): Decoded
    requires |part| >= 6
  {
    if !InCharset(part) then NoAddress
    else
      var data := ToSymbols(part);
      if !VerifyChecksum(hrp, data) then NoAddress
      else Address(hrp, data[..|data| - 6])
  }

  method Bech32Decode(bech: string) returns (r: Decoded)
    ensures r == Decode(bech)
  {
    if !IsPrintable(bech) {
      return NoAddress;
    }
    var lower := Lower(bech);
    var pos := RFind(lower, '1');
    if pos < 1 || pos + 7 > |lower| {
      return NoAddress;
    }
    r := DecodeDataPart(lower[..pos], lower[pos + 1..]);
  }

  // The loop of bech32_decode over the data part, and the checksum test after it.
  method DecodeDataPart(hrp: string, part: string) returns (r: Decoded)
    requires |part| >= 6
    ensures r == DecodeParts(hrp, part)
  {
    var data: seq<Symbol> := [];
    for i := 0 to |part|
      invariant |data| == i
      invariant forall j :: 0 <= j < i ==> data[j] == CharsetIndex(part[j])
    {
      if CharsetIndex(part[i]) < 0 {
        return NoAddress;
      }
      data := data + [CharsetIndex(part[i])];
    }
    assert data == ToSymbols(part);
    var chk := ComputePolymod(HrpExpand(hrp) + data);
    if chk != 1 {
      return NoAddress;
    }
    return Address(hrp, data[..|data| - 6]);
  }

  lemma {:induction false} SeparatorOfEncoding(hrp: string, data: seq<Symbol>)
    ensures RFind(Encode(hrp, data), '1') == |hrp|
    ensures Encode(hrp, data)[..|hrp|] == hrp
    ensures Encode(hrp, data)[|hrp| + 1..] == ToChars(data + CreateChecksum(hrp, data))
  {
    var s := Encode(hrp, data);
    var all := data + CreateChecksum(hrp, data);
    assert s[|hrp|] == '1';
    forall i | |hrp| < i < |s|
      ensures s[i] != '1'
    {
      assert s[i] == ToChars(all)[i - |hrp| - 1];
      CharsetIsInjective(all[i - |hrp| - 1]);
    }
  }

  // What Decode accepts, exactly: a printable string whose lower-case form is
  // the encoding of a nonempty prefix and its data.
  lemma {:induction false} DecodeInvertsEncode(s: string, hrp: string, data: seq<Symbol>)
    ensures Decode(s) == Address(hrp, data)
            <==> (forall i :: 0 <= i < |s| ==> 33 <= s[i] as int <= 126) && hrp != "" && Lower(s) == Encode(hrp, data)
  {
    if IsPrintable(s) && hrp != "" && Lower(s) == Encode(hrp, data) {
      EncodingIsDecoded(s, hrp, data);
    }
    if Decode(s) == Address(hrp, data) {
      DecodedIsEncoding(s);
    }
  }

  lemma {:induction false} EncodingIsDecoded(s: string, hrp: string, data: seq<Symbol>)
    requires IsPrintable(s) && hrp != "" && Lower(s) == Encode(hrp, data)
    ensures Decode(s) == Address(hrp, data)
  {
    SeparatorOfEncoding(hrp, data);
    PartsOfEncoding(hrp, data);
  }

  lemma {:induction false} DecodedIsEncoding(s: string)
    requires Decode(s).Address?
    ensures IsPrintable(s) && Decode(s).hrp != "" && Lower(s) == Encode(Decode(s).hrp, Decode(s).data)
  {
    var lower := Lower(s);
    var pos := RFind(lower, '1');
    VerifiedPart(lower[..pos], lower[pos + 1..]);
    Rejoin(lower, pos);
  }

  lemma {:induction false} Rejoin(s: string, pos: nat)
    requires pos < |s| && s[pos] == '1'
    ensures s == s[..pos] + "1" + s[pos + 1..]
  {}

  lemma {:induction false} PartsOfEncoding(hrp: string, data: seq<Symbol>)
    ensures DecodeParts(hrp, ToChars(data + CreateChecksum(hrp, data))) == Address(hrp, data)
  {
    var all := data + CreateChecksum(hrp, data);
    SymbolsOfChars(all);
    ChecksumIsUnique(hrp, data, CreateChecksum(hrp, data));
    assert all[..|all| - 6] == data;
  }

  // A data part that verifies is its data followed by the created checksum.
  lemma {:induction false} VerifiedPart(hrp: string, part: string)
    requires |part| >= 6 && DecodeParts(hrp, part).Address?
    ensures part == ToChars(DecodeParts(hrp, part).data + CreateChecksum(hrp, DecodeParts(hrp, part).data))
  {
    CharsOfSymbols(part);
    var symbols := ToSymbols(part);
    var data, x := symbols[..|part| - 6], symbols[|part| - 6..];
    assert symbols == data + x;
    ChecksumIsUnique(hrp, data, x);
  }

  // Printable and without upper-case letters.
  predicate IsPlain(s: string) {
    IsPrintable(s) && Lower(s) == s
  }

  lemma {:induction false} PlainParts(a: string, b: string)
    ensures IsPlain(a + b) <==> IsPlain(a) && IsPlain(b)
  {
    PlainChars(a);
    PlainChars(b);
    PlainChars(a + b);
    var s := a + b;
    assert a == s[..|a|] && b == s[|a|..];
    assert forall i :: 0 <= i < |a| ==> a[i] == s[i];
    assert forall i :: 0 <= i < |b| ==> b[i] == s[|a| + i];
  }

  predicate IsPlainChar(c: char) {
    33 <= c as int <= 126 && LowerChar(c) == c
  }

  lemma {:induction false} PlainChars(s: string)
    ensures IsPlain(s) <==> forall i :: 0 <= i < |s| ==> IsPlainChar(s[i])
  {
    if forall i :: 0 <= i < |s| ==> IsPlainChar(s[i]) {
      assert Lower(s) == s;
    }
    if IsPlain(s) {
      forall i | 0 <= i < |s|
        ensures IsPlainChar(s[i])
      {
        assert Lower(s)[i] == LowerChar(s[i]);
      }
    }
  }

  lemma {:induction false} CharsArePlain(data: seq<Symbol>)
    ensures IsPlain(ToChars(data))
  {
    forall i | 0 <= i < |data|
      ensures IsPlainChar(ToChars(data)[i])
    {
      CharsetIsInjective(data[i]);
    }
    PlainChars(ToChars(data));
  }

  // Round trip from the address side, with the exact prefixes it holds for.
  lemma {:induction false} EncodeDecodes(hrp: string, data: seq<Symbol>)
    ensures Decode(Encode(hrp, data)) == Address(hrp, data) <==> hrp != "" && IsPrintable(hrp) && Lower(hrp) == hrp
  {
    DecodeInvertsEncode(Encode(hrp, data), hrp, data);
    PlainEncoding(hrp, data);
  }

  lemma {:induction false} PlainEncoding(hrp: string, data: seq<Symbol>)
    ensures IsPlain(Encode(hrp, data)) <==> IsPlain(hrp)
  {
    CharsArePlain(data + CreateChecksum(hrp, data));
    PlainChars("1");
    PlainParts(hrp, "1");
    PlainParts(hrp + "1", ToChars(data + CreateChecksum(hrp, data)));
  }

  // A valid address published in BIP-173: no data, and its checksum "2uel5l".
  lemma {:induction false} PublishedAddress(hrp: string, address: string)
    requires hrp == "a" && address == "a12uel5l"
    ensures Encode(hrp, []) == address && Decode(address) == Address(hrp, [])
  {
    var x := PublishedChecksum(hrp);
    EncodeOfParts(hrp, x, "2uel5l");
    assert hrp + "1" + "2uel5l" == address;
    PlainChars(hrp);
    EncodeDecodes(hrp, []);
  }

  lemma {:induction false} EncodeOfParts(hrp: string, x: seq<Symbol>, chars: string)
    requires CreateChecksum(hrp, []) == x && ToChars(x) == chars
    ensures Encode(hrp, []) == hrp + "1" + chars
  {
    assert [] + x == x;
  }

  lemma {:induction false} PublishedChecksum(hrp: string) returns (x: seq<Symbol>)
    requires hrp == "a"
    ensures CreateChecksum(hrp, []) == x && ToChars(x) == "2uel5l"
  {
    x := [10, 28, 25, 31, 20, 31];
    PublishedValues(hrp, x);
    ChecksumIsUnique(hrp, [], x);
    PublishedChars(x);
  }

  lemma {:induction false} PublishedChars(x: seq<Symbol>)
    requires x == [10, 28, 25, 31, 20, 31]
    ensures ToChars(x) == "2uel5l"
  {
    assert CHARSET[10] == '2' && CHARSET[28] == 'u' && CHARSET[25] == 'e' && CHARSET[31] == 'l' && CHARSET[20] == '5';
  }

  lemma {:induction false} PublishedValues(hrp: string, x: seq<Symbol>)
    requires hrp == "a" && x == [10, 28, 25, 31, 20, 31]
    ensures VerifyChecksum(hrp, [] + x)
  {
    var values := HrpExpand(hrp) + ([] + x);
    assert values == [3, 0, 1, 10, 28, 25, 31, 20, 31];
    VectorLeavesOne(values);
  }

  // Case is not looked at: BIP-173 refuses mixed case, this decoder lowers it.
  lemma {:induction false} CaseIsIgnored(s: string)
    ensures IsPrintable(s) ==> Decode(s) == Decode(Lower(s))
    ensures IsPrintable(Lower(s)) == IsPrintable(s)
  {
    assert Lower(Lower(s)) == Lower(s);
    forall i | 0 <= i < |s|
      ensures 33 <= Lower(s)[i] as int <= 126 <==> 33 <= s[i] as int <= 126
    {
      assert Lower(s)[i] == LowerChar(s[i]);
    }
  }

  ghost predicate IsMixedCase(s: string) {
    (exists i :: 0 <= i < |s| && 'A' <= s[i] <= 'Z') && (exists i :: 0 <= i < |s| && 'a' <= s[i] <= 'z')
  }

  // So raising any letters of a decodable string changes nothing, ...
  lemma {:induction false} SameLettersDecodeAlike(s: string, t: string)
    requires IsPrintable(s) && IsPrintable(t) && Lower(s) == Lower(t)
    ensures Decode(s) == Decode(t)
  {
    CaseIsIgnored(s);
    CaseIsIgnored(t);
  }

  predicate IsSmall(c: char) {
    'a' <= c <= 'z'
  }

  lemma {:induction false} RaiseFirst(e: string) returns (s: string)
    requires IsPrintable(e) && |e| >= 2 && IsSmall(e[0]) && IsSmall(e[1])
    ensures IsMixedCase(s) && Decode(s) == Decode(e)
  {
    s := [e[0] - 32 as char] + e[1..];
    assert 'A' <= s[0] <= 'Z' && 'a' <= s[1] <= 'z';
    assert forall i :: 1 <= i < |s| ==> s[i] == e[i];
    assert Lower(s) == Lower(e);
    SameLettersDecodeAlike(s, e);
  }

  // ... and under every prefix that starts with two letters each payload has a
  // mixed-case address that is accepted.
  lemma {:induction false} MixedCaseIsAccepted(hrp: string, data: seq<Symbol>)
    requires IsPlain(hrp) && |hrp| >= 2 && IsSmall(hrp[0]) && IsSmall(hrp[1])
    ensures exists s :: IsMixedCase(s) && Decode(s) == Address(hrp, data)
  {
    EncodeDecodes(hrp, data);
    PlainEncoding(hrp, data);
    var s := RaiseFirst(Encode(hrp, data));
  }

  // Burst detection on strings: an accepted address with up to six consecutive
  // characters after its separator changed, none of them to a '1', is refused.
  lemma {:induction false} BurstIsRefused(s: string, t: string, from: nat, width: nat)
    requires Decode(s).Address? && |t| == |s| && Lower(t) != Lower(s)
    requires RFind(Lower(s), '1') < from && width <= 6 && from + width <= |s|
    requires Lower(t)[..from] == Lower(s)[..from] && Lower(t)[from + width..] == Lower(s)[from + width..]
    requires '1' !in Lower(t)[from..from + width]
    ensures Decode(t) == NoAddress
  {
    var ls, lt := Lower(s), Lower(t);
    var pos := RFind(ls, '1');
    SeparatorStays(ls, lt, from, width);
    PartsDiffer(ls, lt, pos, from, width);
    var ps, pt := ls[pos + 1..], lt[pos + 1..];
    if InCharset(pt) {
      var a, b := from - pos - 1, from - pos - 1 + width;
      SameSymbols(ps, pt, a, b);
      BurstBreaksChecksum(ls[..pos], ToSymbols(ps), ToSymbols(pt), a, b);
    }
  }

  lemma {:induction false} SeparatorStays(ls: string, lt: string, from: nat, width: nat)
    requires |ls| == |lt| && RFind(ls, '1') < from && from + width <= |ls|
    requires lt[..from] == ls[..from] && lt[from + width..] == ls[from + width..]
    requires '1' !in lt[from..from + width]
    ensures RFind(lt, '1') == RFind(ls, '1')
  {}

  lemma {:induction false} PartsDiffer(ls: string, lt: string, pos: nat, from: nat, width: nat)
    requires |ls| == |lt| && ls != lt && pos < from && from + width <= |ls|
    requires lt[..from] == ls[..from] && lt[from + width..] == ls[from + width..]
    ensures ls[..pos] == lt[..pos] && ls[pos + 1..] != lt[pos + 1..]
    ensures var a, b := from - pos - 1, from - pos - 1 + width;
            ls[pos + 1..][..a] == lt[pos + 1..][..a] && ls[pos + 1..][b..] == lt[pos + 1..][b..]
  {
    assert ls[..pos] == ls[..from][..pos] && lt[..pos] == lt[..from][..pos];
    assert ls[pos] == ls[..from][pos] && lt[pos] == lt[..from][pos];
    assert ls == ls[..pos] + [ls[pos]] + ls[pos + 1..] && lt == lt[..pos] + [lt[pos]] + lt[pos + 1..];
    var a, b := from - pos - 1, from - pos - 1 + width;
    assert ls[pos + 1..][..a] == ls[..from][pos + 1..] && lt[pos + 1..][..a] == lt[..from][pos + 1..];
    assert ls[pos + 1..][b..] == ls[from + width..] && lt[pos + 1..][b..] == lt[from + width..];
  }

  lemma {:induction false} SameSymbols(p: string, q: string, a: nat, b: nat)
    requires |p| == |q| && a <= b <= |p| && p != q
    requires InCharset(p) && InCharset(q)
    requires p[..a] == q[..a] && p[b..] == q[b..]
    ensures ToSymbols(p) != ToSymbols(q)
    ensures ToSymbols(p)[..a] == ToSymbols(q)[..a] && ToSymbols(p)[b..] == ToSymbols(q)[b..]
  {
    CharsOfSymbols(p);
    CharsOfSymbols(q);
    SameAt(p, q, a, b);
    SameFrom(p, q, a, b);
  }

  lemma {:induction false} SameAt(p: string, q: string, a: nat, b: nat)
    requires |p| == |q| && a <= b <= |p|
    requires InCharset(p) && InCharset(q) && p[..a] == q[..a]
    ensures ToSymbols(p)[..a] == ToSymbols(q)[..a]
  {
    forall i | 0 <= i < a
      ensures p[i] == q[i]
    {
      assert p[i] == p[..a][i] && q[i] == q[..a][i];
    }
  }

  lemma {:induction false} SameFrom(p: string, q: string, a: nat, b: nat)
    requires |p| == |q| && a <= b <= |p|
    requires InCharset(p) && InCharset(q) && p[b..] == q[b..]
    ensures ToSymbols(p)[b..] == ToSymbols(q)[b..]
  {
    forall i | b <= i < |p|
      ensures p[i] == q[i]
    {
      assert p[i] == p[b..][i - b] && q[i] == q[b..][i - b];
    }
  }

  // Burst detection on symbols, at any length.
  lemma {:induction false} BurstBreaksChecksum(hrp: string, x: seq<Symbol>, y: seq<Symbol>, a: nat, b: nat)
    requires |x| == |y| && a <= b <= |x| && b - a <= 6 && x != y
    requires x[..a] == y[..a] && x[b..] == y[b..]
    requires VerifyChecksum(hrp, x)
    ensures !VerifyChecksum(hrp, y)
  {
    var head := HrpExpand(hrp) + x[..a];
    assert HrpExpand(hrp) + x == head + x[a..b] + x[b..];
    assert HrpExpand(hrp) + y == head + y[a..b] + x[b..];
    assert x == x[..a] + x[a..b] + x[b..] && y == y[..a] + y[a..b] + y[b..];
    BurstChangesRegister(head, x[a..b], y[a..b], x[b..]);
  }
}
