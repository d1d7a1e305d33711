/**
 The second Bech32 codec, the one of ensure_genesis.py: bytes in, bytes out,
 no checksum test when decoding. It encodes as the first codec does.
 */
module GenesisCodec {
  import opened Bits
  import opened Numerals
  import opened ChecksumRegister
  import opened Bech32
  import opened Regroup

  // ValueError stands for the exception rsplit-unpacking or CHARSET.index raises.
  datatype Raw = ValueError | Raw(bytes: seq<Byte>)

  // _convertbits(bytes, 8, 5)
  function ToWords(bytes: seq<Byte>): (words: seq<Symbol>) {
    Powers();
    Regrouped(bytes, 8, 5, true)
  }

  // _convertbits(words, 5, 8, False)
  function FromWords(words: seq<Symbol>): (bytes: seq<Byte>) {
    assert Pow2(8) == 256;
    Regrouped(words, 5, 8, false)
  }

  // bech32_encode of ensure_genesis.py, down to its own copy of the checksum loop.
  method EncodeBytes(prefix: string, bytes: seq<Byte>) returns (s: string)
    ensures s == Encode(prefix, ToWords(bytes))
  {
    Powers();
    assert Pow2(8) == 256;
    var data5: seq<Symbol> := ConvertBits(bytes, 8, 5, true);
    var chk := ComputePolymod2(HrpExpand(prefix) + data5 + SIX_ZEROS);
    var checksum := SixSymbols(Xor(chk, 1));
    s := prefix + "1" + ToChars(data5 + checksum);
  }

  // _bech32_polymod, which folds a zero in where the other copy skips.
  method ComputePolymod2(values: seq<nat>) returns (chk: nat)
    ensures chk == Polymod(values)
  {
    chk := 1;
    for n := 0 to |values|
      invariant chk == PolymodFrom(1, values[..n])
    {
      assert values[..n + 1][..n] == values[..n];
      var b := Shr(chk, 25);
      chk := Xor(Shl(Low(chk, 25), 5), values[n]);
      chk := FoldBack2(chk, b);
    }
    assert values[..|values|] == values;
  }

  method FoldBack2(shifted: nat, b: nat) returns (chk: nat)
    ensures chk == Xor(shifted, Rows(b, GEN))
  {
    chk := shifted;
    for i := 0 to 5
      invariant Xor(chk, Rows(Shr(b, i), GEN[i..])) == Xor(shifted, Rows(b, GEN))
    {
      RowsTail(chk, b, i);
      XorZero(chk);
      chk := Xor(chk, if Low(Shr(b, i), 1) != 0 then GEN[i] else 0);
    }
    XorZero(chk);
  }

  // bech32_decode_raw: the characters after the last '1', less six, as bytes.
  function DecodeRaw(addr: string): Raw {
    var pos := RFind(addr, '1');
    if pos < 0 || !InCharset(addr[pos + 1..]) then ValueError
    else Raw(FromWords(DropSix(ToSymbols(addr[pos + 1..]))))
  }

  // decoded[:-6]
  function DropSix(decoded: seq<Symbol>): seq<Symbol> {
    if |decoded| < 6 then [] else decoded[..|decoded| - 6]
  }

  // It fails exactly without a separator or with a foreign character behind the last one.
  lemma {:induction false} RawFailsExactly(addr: string)
    ensures DecodeRaw(addr) == ValueError <==> '1' !in addr || exists i :: IsLast(addr, '1', i) && HasForeign(addr, i + 1)
  {
    var pos := RFind(addr, '1');
    if pos >= 0 {
      assert IsLast(addr, '1', pos);
      ForeignExactly(addr, pos + 1);
    }
  }

  ghost predicate IsLast(s: string, c: char, i: int) {
    0 <= i < |s| && s[i] == c && forall k :: i < k < |s| ==> s[k] != c
  }

  ghost predicate HasForeign(s: string, start: nat) {
    exists j :: start <= j < |s| && s[j] !in CHARSET
  }

  lemma {:induction false} ForeignExactly(s: string, start: nat)
    requires start <= |s|
    ensures InCharset(s[start..]) <==> !HasForeign(s, start)
  {
    var part := s[start..];
    if !InCharset(part) {
      var j :| 0 <= j < |part| && CharsetIndex(part[j]) < 0;
      assert s[start + j] !in CHARSET;
    }
    forall j | start <= j < |s| && s[j] !in CHARSET
      ensures !InCharset(part)
    {
      assert part[j - start] == s[j];
    }
  }

  // Fewer than six characters behind the separator are all taken for checksum.
  lemma {:induction false} ShortIsEmpty(prefix: string, part: string)
    requires |part| <= 6 && InCharset(part) && '1' !in part
    ensures DecodeRaw(prefix + "1" + part) == Raw([])
  {
    var addr := prefix + "1" + part;
    assert addr[|prefix|] == '1' && addr[|prefix| + 1..] == part;
    forall i | |prefix| < i < |addr|
      ensures addr[i] != '1'
    {
      assert addr[i] == part[i - |prefix| - 1];
    }
    assert DropSix(ToSymbols(part)) == [];
    assert Regrouped([], 5, 8, false) == [];
  }

  lemma {:induction false} WordsRoundTrip(bytes: seq<Byte>)
    ensures FromWords(ToWords(bytes)) == bytes
  {
    assert Pow2(8) == 256;
    RegroupRoundTrip(bytes, 8, 5);
  }

  // Decoding what EncodeBytes made gives the bytes back, for every prefix at all.
  lemma {:induction false} RawRoundTrip(prefix: string, bytes: seq<Byte>)
    ensures DecodeRaw(Encode(prefix, ToWords(bytes))) == Raw(bytes)
  {
    var data := ToWords(bytes);
    var all := data + CreateChecksum(prefix, data);
    SeparatorOfEncoding(prefix, data);
    SymbolsOfChars(all);
    assert DropSix(all) == data;
    WordsRoundTrip(bytes);
  }

  // Deriving the operator address from an account address keeps the bytes.
  lemma {:induction false} RePrefixKeepsBytes(prefix: string, bytes: seq<Byte>, newPrefix: string)
    ensures var account := Encode(prefix, ToWords(bytes));
            DecodeRaw(account).Raw?
            && DecodeRaw(Encode(newPrefix, ToWords(DecodeRaw(account).bytes))) == Raw(bytes)
  {
    RawRoundTrip(prefix, bytes);
    RawRoundTrip(newPrefix, bytes);
  }

  // The other script's decoder returns the prefix and the regrouped bytes, for
  // exactly the nonempty printable prefixes without upper-case letters.
  lemma {:induction false} CodecsAgree(prefix: string, bytes: seq<Byte>)
    ensures Decode(Encode(prefix, ToWords(bytes))) == Address(prefix, ToWords(bytes)) <==> prefix != "" && IsPlain(prefix)
  {
    EncodeDecodes(prefix, ToWords(bytes));
  }

  // On every lower-case address the other decoder accepts, the raw decoder returns that payload as bytes.
  lemma {:induction false} RawOfDecoded(s: string)
    requires Decode(s).Address? && Lower(s) == s
    ensures DecodeRaw(s) == Raw(FromWords(Decode(s).data))
  {}
}
