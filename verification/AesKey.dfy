/** The AES key schedule (FIPS 197, section 5.2) as src/common/aes.h computes it on little-endian words. */
module AesKey {
  import opened AesField
  import opened AesCipher

  predicate IsValidKeySize(n: nat) {
    n == 16 || n == 24 || n == 32
  }

  function RoundCount(nk: nat): nat {
    nk + 6
  }

  const RCON: seq<bv32> := [0x00, 0x01, 0x02, 0x04, 0x08, 0x10, 0x20, 0x40, 0x80, 0x1b, 0x36]

  // ----- the schedule on byte vectors, as FIPS 197 writes it ------------------------------------------------

  function XorBytes(a: Bytes, b: Bytes): (c: Bytes)
    requires |a| == |b| == 4
    ensures |c| == 4
  {
    [Xor(a[0], b[0]), Xor(a[1], b[1]), Xor(a[2], b[2]), Xor(a[3], b[3])]
  }

  /** x^n in GF(2^8). */
  function XPower(n: nat): bv8 {
    if n == 0 then 1 else Mul2(XPower(n - 1))
  }

  function FipsSub(a: Bytes): (c: Bytes)
    requires |a| == 4
    ensures |c| == 4
  {
    [Sbox(a[0]), Sbox(a[1]), Sbox(a[2]), Sbox(a[3])]
  }

  function FipsRot(a: Bytes): (c: Bytes)
    requires |a| == 4
    ensures |c| == 4
  {
    [a[1], a[2], a[3], a[0]]
  }

  /** Which round constant word i takes. */
  function RconIndex(nk: nat, i: nat): (j: nat)
    requires 4 <= nk <= 8 && nk <= i < 4 * (nk + 7)
    ensures 1 <= j <= 10
  {
    if nk == 4 then i / 4 else if nk == 5 then i / 5 else if nk == 6 then i / 6 else if nk == 7 then i / 7 else i / 8
  }

  function FipsTemp(temp: Bytes, nk: nat, i: nat): (w: Bytes)
    requires |temp| == 4 && 4 <= nk <= 8 && nk <= i < 4 * (nk + 7)
    ensures |w| == 4
  {
    if i % nk == 0 then XorBytes(FipsSub(FipsRot(temp)), [XPower(RconIndex(nk, i) - 1), 0, 0, 0])
    else if nk > 6 && i % nk == 4 then FipsSub(temp)
    else temp
  }

  function FipsWord(key: Bytes, nk: nat, i: nat): (w: Bytes)
    requires 4 <= nk <= 8 && |key| == 4 * nk && i < 4 * (nk + 7)
    ensures |w| == 4
    decreases i, nk
  {
    if i < nk then key[4 * i..4 * i + 4]
    else XorBytes(FipsTemp(FipsWord(key, nk, i - 1), nk, i), FipsWord(key, nk, i - nk))
  }

  // ----- the schedule on words --------------------------------------------------------------------------------

  function RotWord(v: bv32): bv32 {
    ((v >> 8) & 0x00FF_FFFF) | ((v & 0xFF) << 24)
  }

  function XorWord(v: bv32, w: bv32): bv32 {
    v ^ w
  }

  function RconWord(j: nat): bv32
    requires j <= 10
  {
    RCON[j]
  }

  function KeyTemp(t: bv32, nk: nat, i: nat): bv32
    requires 4 <= nk <= 8 && nk <= i < 4 * (nk + 7)
  {
    if i % nk == 0 then XorWord(SubWord(RotWord(t)), RconWord(RconIndex(nk, i)))
    else if nk > 6 && i % nk == 4 then SubWord(t)
    else t
  }

  function KeyWord(key: Bytes, nk: nat, i: nat): bv32
    requires 4 <= nk <= 8 && |key| == 4 * nk && i < 4 * (nk + 7)
    decreases i, nk
  {
    if i < nk then Pack(key[4 * i], key[4 * i + 1], key[4 * i + 2], key[4 * i + 3])
    else XorWord(KeyTemp(KeyWord(key, nk, i - 1), nk, i), KeyWord(key, nk, i - nk))
  }

  lemma RconIsPower(j: nat)
    requires 1 <= j <= 10
    ensures WordBytes(RconWord(j)) == [XPower(j - 1), 0, 0, 0]
  {
    assert XPower(0) == 0x01 && XPower(1) == 0x02 && XPower(2) == 0x04 && XPower(3) == 0x08 && XPower(4) == 0x10;
    assert XPower(5) == 0x20 && XPower(6) == 0x40 && XPower(7) == 0x80 && XPower(8) == 0x1b && XPower(9) == 0x36;
    if j == 1 {
    } else if j == 2 {
    } else if j == 3 {
    } else if j == 4 {
    } else if j == 5 {
    } else if j == 6 {
    } else if j == 7 {
    } else if j == 8 {
    } else if j == 9 {
    } else {
    }
  }

  lemma XorByteOf(v: bv32, w: bv32)
    ensures ((v ^ w) & 0xFF) as bv8 == ((v & 0xFF) as bv8) ^ ((w & 0xFF) as bv8)
    ensures (((v ^ w) >> 8) & 0xFF) as bv8 == (((v >> 8) & 0xFF) as bv8) ^ (((w >> 8) & 0xFF) as bv8)
    ensures (((v ^ w) >> 16) & 0xFF) as bv8 == (((v >> 16) & 0xFF) as bv8) ^ (((w >> 16) & 0xFF) as bv8)
    ensures (((v ^ w) >> 24) & 0xFF) as bv8 == (((v >> 24) & 0xFF) as bv8) ^ (((w >> 24) & 0xFF) as bv8)
  {
  }

  lemma RawXorBytes(v: bv32, w: bv32)
    ensures WordBytes(v ^ w) == XorBytes(WordBytes(v), WordBytes(w))
  {
    XorByteOf(v, w);
  }

  lemma XorWordBytes(v: bv32, w: bv32)
    ensures WordBytes(XorWord(v, w)) == XorBytes(WordBytes(v), WordBytes(w))
  {
    hide WordBytes, XorBytes;
    RawXorBytes(v, w);
  }

  lemma RotWordBytes(v: bv32)
    ensures WordBytes(RotWord(v)) == FipsRot(WordBytes(v))
  {
  }

  lemma SubWordBytes(v: bv32)
    ensures WordBytes(SubWord(v)) == FipsSub(WordBytes(v))
  {
    hide Sbox, ByteOf, Pack;
    PackBytes(Sbox(ByteOf(v, 0)), Sbox(ByteOf(v, 1)), Sbox(ByteOf(v, 2)), Sbox(ByteOf(v, 3)));
  }

  lemma FirstTempIsFips(t: bv32, j: nat)
    requires 1 <= j <= 10
    ensures WordBytes(XorWord(SubWord(RotWord(t)), RconWord(j))) ==
            XorBytes(FipsSub(FipsRot(WordBytes(t))), [XPower(j - 1), 0, 0, 0])
  {
    hide WordBytes, XorBytes, FipsSub, FipsRot, SubWord, RotWord, XPower, RconWord, XorWord;
    RconIsPower(j);
    RotWordBytes(t);
    SubWordBytes(RotWord(t));
    XorWordBytes(SubWord(RotWord(t)), RconWord(j));
  }

  lemma TempIsFips(t: bv32, nk: nat, i: nat)
    requires 4 <= nk <= 8 && nk <= i < 4 * (nk + 7)
    ensures WordBytes(KeyTemp(t, nk, i)) == FipsTemp(WordBytes(t), nk, i)
  {
    hide *;
    if i % nk == 0 {
      FirstTempIsFips(t, RconIndex(nk, i));
    } else {
      SubWordBytes(t);
    }
    KeyTempCases(t, nk, i);
    FipsTempCases(WordBytes(t), nk, i);
  }

  lemma KeyTempCases(t: bv32, nk: nat, i: nat)
    requires 4 <= nk <= 8 && nk <= i < 4 * (nk + 7)
    ensures KeyTemp(t, nk, i) ==
            if i % nk == 0 then XorWord(SubWord(RotWord(t)), RconWord(RconIndex(nk, i)))
            else if nk > 6 && i % nk == 4 then SubWord(t)
            else t
  {
    hide XorWord, SubWord, RotWord, RconWord, RconIndex;
  }

  lemma FipsTempCases(temp: Bytes, nk: nat, i: nat)
    requires |temp| == 4 && 4 <= nk <= 8 && nk <= i < 4 * (nk + 7)
    ensures FipsTemp(temp, nk, i) ==
            if i % nk == 0 then XorBytes(FipsSub(FipsRot(temp)), [XPower(RconIndex(nk, i) - 1), 0, 0, 0])
            else if nk > 6 && i % nk == 4 then FipsSub(temp)
            else temp
  {
    hide XorBytes, FipsSub, FipsRot, XPower, RconIndex;
  }

  /** The words hold the bytes FIPS 197 prescribes. */
  lemma {:induction false} KeyWordIsFips(key: Bytes, nk: nat, i: nat)
    requires 4 <= nk <= 8 && |key| == 4 * nk && i < 4 * (nk + 7)
    ensures WordBytes(KeyWord(key, nk, i)) == FipsWord(key, nk, i)
    decreases i
  {
    hide WordBytes, XorBytes, KeyTemp, FipsTemp, Pack, XorWord;
    if i < nk {
      FirstWordBytes(key[4 * i], key[4 * i + 1], key[4 * i + 2], key[4 * i + 3]);
      assert key[4 * i..4 * i + 4] == [key[4 * i], key[4 * i + 1], key[4 * i + 2], key[4 * i + 3]];
    } else {
      KeyWordIsFips(key, nk, i - 1);
      KeyWordIsFips(key, nk, i - nk);
      TempIsFips(KeyWord(key, nk, i - 1), nk, i);
      XorWordBytes(KeyTemp(KeyWord(key, nk, i - 1), nk, i), KeyWord(key, nk, i - nk));
    }
  }

  lemma FirstWordBytes(b0: bv8, b1: bv8, b2: bv8, b3: bv8)
    ensures WordBytes(Pack(b0, b1, b2, b3)) == [b0, b1, b2, b3]
  {
    hide ByteOf, Pack;
    PackBytes(b0, b1, b2, b3);
  }

  // ----- expand_key -------------------------------------------------------------------------------------------

  /** The round keys: the schedule's words in fours. */
  function Schedule(key: Bytes): (keys: RoundKeys)
    requires IsValidKeySize(|key|)
    ensures |keys| == RoundCount(|key| / 4) + 1
  {
    var nk := |key| / 4;
    seq(nk + 7, r requires 0 <= r < nk + 7 => RoundKey(key, nk, r))
  }

  function RoundKey(key: Bytes, nk: nat, r: nat): State
    requires 4 <= nk <= 8 && |key| == 4 * nk && r < nk + 7
  {
    [KeyWord(key, nk, 4 * r), KeyWord(key, nk, 4 * r + 1), KeyWord(key, nk, 4 * r + 2), KeyWord(key, nk, 4 * r + 3)]
  }

  lemma KeyWordStep(key: Bytes, nk: nat, i: nat)
    requires 4 <= nk <= 8 && |key| == 4 * nk && i < 4 * (nk + 7)
    ensures KeyWord(key, nk, i) ==
            if i < nk then Pack(key[4 * i], key[4 * i + 1], key[4 * i + 2], key[4 * i + 3])
            else XorWord(KeyTemp(KeyWord(key, nk, i - 1), nk, i), KeyWord(key, nk, i - nk))
  {
    hide Pack, KeyTemp, XorWord;
  }

  method ExpandWords(key: Bytes, nk: nat) returns (w: array<bv32>)
    requires 4 <= nk <= 8 && |key| == 4 * nk
    ensures fresh(w) && w.Length == 4 * (nk + 7)
    ensures forall i :: 0 <= i < w.Length ==> w[i] == KeyWord(key, nk, i)
  {
    hide KeyWord, Pack, KeyTemp, XorWord;
    w := new bv32[4 * (nk + 7)];
    for i := 0 to nk
      invariant forall j :: 0 <= j < i ==> w[j] == KeyWord(key, nk, j)
    {
      KeyWordStep(key, nk, i);
      w[i] := Pack(key[4 * i], key[4 * i + 1], key[4 * i + 2], key[4 * i + 3]);
    }
    for i := nk to 4 * (nk + 7)
      invariant forall j :: 0 <= j < i ==> w[j] == KeyWord(key, nk, j)
    {
      KeyWordStep(key, nk, i);
      var t := KeyTemp(w[i - 1], nk, i);
      w[i] := XorWord(t, w[i - nk]);
    }
  }

  /** Rejects every other key size, as expand_key does by throwing. */
  method ExpandKey(key: Bytes) returns (ok: bool, keys: RoundKeys)
    ensures ok <==> IsValidKeySize(|key|)
    ensures ok ==> keys == Schedule(key)
  {
    hide KeyWord;
    keys := [ZeroState, ZeroState];
    if |key| != 16 && |key| != 24 && |key| != 32 {
      return false, keys;
    }
    var nk := |key| / 4;
    var w := ExpandWords(key, nk);
    keys := seq(nk + 7, r requires 0 <= r < nk + 7 reads w => [w[4 * r], w[4 * r + 1], w[4 * r + 2], w[4 * r + 3]]);
    ok := true;
  }
}
