/** The AES block cipher of src/common/aes.h: a state of four little-endian words, one per column. */
module AesCipher {
  import opened AesField

  type Bytes = seq<bv8>
  type State = s: seq<bv32> | |s| == 4 witness [0, 0, 0, 0]
  const ZeroState: State := [0, 0, 0, 0]
  type Block = b: seq<bv8> | |b| == 16 witness [0, 0, 0, 0, 0, 0, 0, 0, 0, 0, 0, 0, 0, 0, 0, 0]
  type RoundKeys = k: seq<State> | |k| >= 2 witness [ZeroState, ZeroState]

  // ----- words and their bytes --------------------------------------------------------------------------

  function Pack(b0: bv8, b1: bv8, b2: bv8, b3: bv8): bv32 {
    (b0 as bv32) | ((b1 as bv32) << 8) | ((b2 as bv32) << 16) | ((b3 as bv32) << 24)
  }

  /** Byte r of a word: row r of the column. */
  function ByteOf(w: bv32, r: nat): bv8 {
    if r == 0 then (w & 0xFF) as bv8
    else if r == 1 then ((w >> 8) & 0xFF) as bv8
    else if r == 2 then ((w >> 16) & 0xFF) as bv8
    else ((w >> 24) & 0xFF) as bv8
  }

  lemma PackBytes(b0: bv8, b1: bv8, b2: bv8, b3: bv8)
    ensures var w := Pack(b0, b1, b2, b3);
            ByteOf(w, 0) == b0 && ByteOf(w, 1) == b1 && ByteOf(w, 2) == b2 && ByteOf(w, 3) == b3
  {
  }

  lemma BytesPack(w: bv32)
    ensures Pack(ByteOf(w, 0), ByteOf(w, 1), ByteOf(w, 2), ByteOf(w, 3)) == w
  {
  }

  // ----- the transforms -------------------------------------------------------------------------------

  function AddRoundKey(key: State, s: State): State {
    [s[0] ^ key[0], s[1] ^ key[1], s[2] ^ key[2], s[3] ^ key[3]]
  }

  function SubWord(w: bv32): bv32 {
    Pack(Sbox(ByteOf(w, 0)), Sbox(ByteOf(w, 1)), Sbox(ByteOf(w, 2)), Sbox(ByteOf(w, 3)))
  }

  function InvSubWord(w: bv32): bv32 {
    Pack(InvSbox(ByteOf(w, 0)), InvSbox(ByteOf(w, 1)), InvSbox(ByteOf(w, 2)), InvSbox(ByteOf(w, 3)))
  }

  function SubBytes(s: State): State {
    [SubWord(s[0]), SubWord(s[1]), SubWord(s[2]), SubWord(s[3])]
  }

  function InvSubBytes(s: State): State {
    [InvSubWord(s[0]), InvSubWord(s[1]), InvSubWord(s[2]), InvSubWord(s[3])]
  }

  /** A column whose row r comes from the given word r. */
  function Column(w0: bv32, w1: bv32, w2: bv32, w3: bv32): bv32 {
    Pack(ByteOf(w0, 0), ByteOf(w1, 1), ByteOf(w2, 2), ByteOf(w3, 3))
  }

  /** Row r moves r columns to the left. */
  function ShiftRows(s: State): State {
    [Column(s[0], s[1], s[2], s[3]), Column(s[1], s[2], s[3], s[0]),
     Column(s[2], s[3], s[0], s[1]), Column(s[3], s[0], s[1], s[2])]
  }

  function InvShiftRows(s: State): State {
    [Column(s[0], s[3], s[2], s[1]), Column(s[1], s[0], s[3], s[2]),
     Column(s[2], s[1], s[0], s[3]), Column(s[3], s[2], s[1], s[0])]
  }

  function MixWord(w: bv32): bv32 {
    var v0, v1, v2, v3 := ByteOf(w, 0), ByteOf(w, 1), ByteOf(w, 2), ByteOf(w, 3);
    Pack(Xor4(Mul2(v0), Xor(Mul2(v1), v1), v2, v3), Xor4(v0, Mul2(v1), Xor(Mul2(v2), v2), v3),
         Xor4(v0, v1, Mul2(v2), Xor(Mul2(v3), v3)), Xor4(Xor(Mul2(v0), v0), v1, v2, Mul2(v3)))
  }

  function InvMixWord(w: bv32): bv32 {
    var v0, v1, v2, v3 := ByteOf(w, 0), ByteOf(w, 1), ByteOf(w, 2), ByteOf(w, 3);
    Pack(Xor4(Mul(v0, 0x0E), Mul(v1, 0x0B), Mul(v2, 0x0D), Mul(v3, 0x09)),
         Xor4(Mul(v0, 0x09), Mul(v1, 0x0E), Mul(v2, 0x0B), Mul(v3, 0x0D)),
         Xor4(Mul(v0, 0x0D), Mul(v1, 0x09), Mul(v2, 0x0E), Mul(v3, 0x0B)),
         Xor4(Mul(v0, 0x0B), Mul(v1, 0x0D), Mul(v2, 0x09), Mul(v3, 0x0E)))
  }

  function MixColumns(s: State): State {
    [MixWord(s[0]), MixWord(s[1]), MixWord(s[2]), MixWord(s[3])]
  }

  function InvMixColumns(s: State): State {
    [InvMixWord(s[0]), InvMixWord(s[1]), InvMixWord(s[2]), InvMixWord(s[3])]
  }

  // ----- each transform is undone -------------------------------------------------------------------------

  lemma XorBack(a: bv32, k: bv32)
    ensures (a ^ k) ^ k == a
  {
  }

  lemma AddRoundKeyBack(key: State, s: State)
    ensures AddRoundKey(key, AddRoundKey(key, s)) == s
  {
    XorBack(s[0], key[0]);
    XorBack(s[1], key[1]);
    XorBack(s[2], key[2]);
    XorBack(s[3], key[3]);
  }

  lemma SubWordBack(w: bv32)
    ensures InvSubWord(SubWord(w)) == w
  {
    hide Sbox, InvSbox, ByteOf, Pack;
    PackBytes(Sbox(ByteOf(w, 0)), Sbox(ByteOf(w, 1)), Sbox(ByteOf(w, 2)), Sbox(ByteOf(w, 3)));
    SboxInverse(ByteOf(w, 0));
    SboxInverse(ByteOf(w, 1));
    SboxInverse(ByteOf(w, 2));
    SboxInverse(ByteOf(w, 3));
    BytesPack(w);
  }

  lemma SubBytesBack(s: State)
    ensures InvSubBytes(SubBytes(s)) == s
  {
    hide SubWord, InvSubWord;
    SubWordBack(s[0]);
    SubWordBack(s[1]);
    SubWordBack(s[2]);
    SubWordBack(s[3]);
  }

  lemma ColumnBytes(w0: bv32, w1: bv32, w2: bv32, w3: bv32)
    ensures var w := Column(w0, w1, w2, w3);
            ByteOf(w, 0) == ByteOf(w0, 0) && ByteOf(w, 1) == ByteOf(w1, 1) &&
            ByteOf(w, 2) == ByteOf(w2, 2) && ByteOf(w, 3) == ByteOf(w3, 3)
  {
    hide ByteOf, Pack;
    PackBytes(ByteOf(w0, 0), ByteOf(w1, 1), ByteOf(w2, 2), ByteOf(w3, 3));
  }

  lemma ShiftRowsBack(s: State)
    ensures InvShiftRows(ShiftRows(s)) == s
  {
    hide ByteOf, Pack;
    ColumnBytes(s[0], s[1], s[2], s[3]);
    ColumnBytes(s[1], s[2], s[3], s[0]);
    ColumnBytes(s[2], s[3], s[0], s[1]);
    ColumnBytes(s[3], s[0], s[1], s[2]);
    BytesPack(s[0]);
    BytesPack(s[1]);
    BytesPack(s[2]);
    BytesPack(s[3]);
  }

  lemma Xor4Rotate(a: bv8, b: bv8, c: bv8, d: bv8)
    ensures Xor4(a, b, c, d) == Xor4(b, c, d, a)
  {
    hide Xor;
    XorComm(a, Xor(Xor(b, c), d));
    XorAssoc(a, Xor(b, c), d);
    XorAssoc(a, b, c);
  }

  lemma Xor4Add(a: bv8, b: bv8, c: bv8, d: bv8, e: bv8, f: bv8, g: bv8, h: bv8)
    ensures Xor(Xor4(a, b, c, d), Xor4(e, f, g, h)) == Xor4(Xor(a, e), Xor(b, f), Xor(c, g), Xor(d, h))
  {
    hide Xor;
    XorShuffle(Xor(Xor(a, b), c), d, Xor(Xor(e, f), g), h);
    XorShuffle(Xor(a, b), c, Xor(e, f), g);
    XorShuffle(a, b, e, f);
  }

  /** Adding rows of a square of terms is adding its columns. */
  lemma Xor4Transpose(a0: bv8, a1: bv8, a2: bv8, a3: bv8, b0: bv8, b1: bv8, b2: bv8, b3: bv8,
                      c0: bv8, c1: bv8, c2: bv8, c3: bv8, d0: bv8, d1: bv8, d2: bv8, d3: bv8)
    ensures Xor4(Xor4(a0, a1, a2, a3), Xor4(b0, b1, b2, b3), Xor4(c0, c1, c2, c3), Xor4(d0, d1, d2, d3)) ==
            Xor4(Xor4(a0, b0, c0, d0), Xor4(a1, b1, c1, d1), Xor4(a2, b2, c2, d2), Xor4(a3, b3, c3, d3))
  {
    hide Xor;
    Xor4Add(a0, a1, a2, a3, b0, b1, b2, b3);
    Xor4Add(Xor(a0, b0), Xor(a1, b1), Xor(a2, b2), Xor(a3, b3), c0, c1, c2, c3);
    Xor4Add(Xor(Xor(a0, b0), c0), Xor(Xor(a1, b1), c1), Xor(Xor(a2, b2), c2), Xor(Xor(a3, b3), c3), d0, d1, d2, d3);
  }

  function MixByte(a: bv8, b: bv8, c: bv8, d: bv8): bv8 {
    Xor4(Mul2(a), Xor(Mul2(b), b), c, d)
  }

  function InvMixByte(a: bv8, b: bv8, c: bv8, d: bv8): bv8 {
    Xor4(Mul(a, 0x0E), Mul(b, 0x0B), Mul(c, 0x0D), Mul(d, 0x09))
  }

  lemma InvMixByteOf(a: bv8, b: bv8, c: bv8, d: bv8)
    ensures InvMixByte(MixByte(a, b, c, d), MixByte(b, c, d, a), MixByte(c, d, a, b), MixByte(d, a, b, c)) == a
  {
    hide Xor, Xor4, Mul, Mul2;
    var ta, tb, tc, td := Mul2(a), Mul2(b), Mul2(c), Mul2(d);
    var ua, ub, uc, ud := Xor(ta, a), Xor(tb, b), Xor(tc, c), Xor(td, d);
    // each row in the column order a, b, c, d
    MulAdds4(ta, ub, c, d, 0x0E);
    MulAdds4(tb, uc, d, a, 0x0B);
    MulAdds4(tc, ud, a, b, 0x0D);
    MulAdds4(td, ua, b, c, 0x09);
    Xor4Rotate(Mul(a, 0x0B), Mul(tb, 0x0B), Mul(uc, 0x0B), Mul(d, 0x0B));
    Xor4Rotate(Mul(a, 0x0D), Mul(b, 0x0D), Mul(tc, 0x0D), Mul(ud, 0x0D));
    Xor4Rotate(Mul(b, 0x0D), Mul(tc, 0x0D), Mul(ud, 0x0D), Mul(a, 0x0D));
    Xor4Rotate(Mul(td, 0x09), Mul(ua, 0x09), Mul(b, 0x09), Mul(c, 0x09));
    Xor4Transpose(Mul(ta, 0x0E), Mul(ub, 0x0E), Mul(c, 0x0E), Mul(d, 0x0E),
                  Mul(a, 0x0B), Mul(tb, 0x0B), Mul(uc, 0x0B), Mul(d, 0x0B),
                  Mul(a, 0x0D), Mul(b, 0x0D), Mul(tc, 0x0D), Mul(ud, 0x0D),
                  Mul(ua, 0x09), Mul(b, 0x09), Mul(c, 0x09), Mul(td, 0x09));
    MatrixInverse(a);
    MatrixInverse(b);
    MatrixInverse(c);
    MatrixInverse(d);
    // columns b, c and d in the order of the matrix identity
    Xor4Rotate(Mul(ub, 0x0E), Mul(tb, 0x0B), Mul(b, 0x0D), Mul(b, 0x09));
    Xor4Rotate(Mul(c, 0x0E), Mul(uc, 0x0B), Mul(tc, 0x0D), Mul(c, 0x09));
    Xor4Rotate(Mul(uc, 0x0B), Mul(tc, 0x0D), Mul(c, 0x09), Mul(c, 0x0E));
    Xor4Rotate(Mul(td, 0x09), Mul(d, 0x0E), Mul(d, 0x0B), Mul(ud, 0x0D));
    Xor4Zeros(a);
  }

  lemma Xor4Zeros(a: bv8)
    ensures Xor4(a, 0, 0, 0) == a
  {
    hide Xor;
    XorZero(a);
  }

  lemma MixWordBytes(w: bv32)
    ensures var a, b, c, d := ByteOf(w, 0), ByteOf(w, 1), ByteOf(w, 2), ByteOf(w, 3);
            var m := MixWord(w);
            && ByteOf(m, 0) == MixByte(a, b, c, d) && ByteOf(m, 1) == MixByte(b, c, d, a)
            && ByteOf(m, 2) == MixByte(c, d, a, b) && ByteOf(m, 3) == MixByte(d, a, b, c)
            && m == Pack(MixByte(a, b, c, d), MixByte(b, c, d, a), MixByte(c, d, a, b), MixByte(d, a, b, c))
  {
    hide Xor, Xor4, Mul2, ByteOf, Pack;
    var a, b, c, d := ByteOf(w, 0), ByteOf(w, 1), ByteOf(w, 2), ByteOf(w, 3);
    Xor4Rotate(a, Mul2(b), Xor(Mul2(c), c), d);
    Xor4Rotate(a, b, Mul2(c), Xor(Mul2(d), d));
    Xor4Rotate(b, Mul2(c), Xor(Mul2(d), d), a);
    Xor4Rotate(Mul2(d), Xor(Mul2(a), a), b, c);
    PackBytes(MixByte(a, b, c, d), MixByte(b, c, d, a), MixByte(c, d, a, b), MixByte(d, a, b, c));
  }

  lemma MixWordBack(w: bv32)
    ensures InvMixWord(MixWord(w)) == w
  {
    hide Xor, Xor4, Mul, Mul2, ByteOf, Pack;
    var a, b, c, d := ByteOf(w, 0), ByteOf(w, 1), ByteOf(w, 2), ByteOf(w, 3);
    var m0, m1, m2, m3 := MixByte(a, b, c, d), MixByte(b, c, d, a), MixByte(c, d, a, b), MixByte(d, a, b, c);
    MixWordBytes(w);
    assert InvMixWord(Pack(m0, m1, m2, m3)) ==
           Pack(InvMixByte(m0, m1, m2, m3), InvMixByte(m1, m2, m3, m0), InvMixByte(m2, m3, m0, m1),
                InvMixByte(m3, m0, m1, m2)) by {
      Xor4Rotate(Mul(m0, 0x09), Mul(m1, 0x0E), Mul(m2, 0x0B), Mul(m3, 0x0D));
      Xor4Rotate(Mul(m0, 0x0D), Mul(m1, 0x09), Mul(m2, 0x0E), Mul(m3, 0x0B));
      Xor4Rotate(Mul(m1, 0x09), Mul(m2, 0x0E), Mul(m3, 0x0B), Mul(m0, 0x0D));
      Xor4Rotate(Mul(m3, 0x0E), Mul(m0, 0x0B), Mul(m1, 0x0D), Mul(m2, 0x09));
    }
    InvMixByteOf(a, b, c, d);
    InvMixByteOf(b, c, d, a);
    InvMixByteOf(c, d, a, b);
    InvMixByteOf(d, a, b, c);
    BytesPack(w);
  }

  lemma MixColumnsBack(s: State)
    ensures InvMixColumns(MixColumns(s)) == s
  {
    hide MixWord, InvMixWord;
    MixWordBack(s[0]);
    MixWordBack(s[1]);
    MixWordBack(s[2]);
    MixWordBack(s[3]);
  }

  // ----- what the transforms are, byte by byte (FIPS 197, sections 5.1.1 to 5.1.3) ---------------------------

  lemma SubBytesIsFips(s: State, r: nat, c: nat)
    requires r < 4 && c < 4
    ensures ByteOf(SubBytes(s)[c], r) == Sbox(ByteOf(s[c], r))
  {
    hide Sbox, ByteOf, Pack;
    var w := s[c];
    PackBytes(Sbox(ByteOf(w, 0)), Sbox(ByteOf(w, 1)), Sbox(ByteOf(w, 2)), Sbox(ByteOf(w, 3)));
  }

  lemma ShiftRowsIsFips(s: State, r: nat, c: nat)
    requires r < 4 && c < 4
    ensures ByteOf(ShiftRows(s)[c], r) == ByteOf(s[(c + r) % 4], r)
  {
    hide ByteOf, Pack, Column;
    if c == 0 {
      ColumnBytes(s[0], s[1], s[2], s[3]);
    } else if c == 1 {
      ColumnBytes(s[1], s[2], s[3], s[0]);
    } else if c == 2 {
      ColumnBytes(s[2], s[3], s[0], s[1]);
    } else {
      ColumnBytes(s[3], s[0], s[1], s[2]);
    }
    if r == 0 {
    } else if r == 1 {
    } else if r == 2 {
    } else {
    }
  }

  /** Row r of a mixed column: {02} times its own byte, {03} times the next, plus the other two. */
  lemma MixColumnsIsFips(s: State, r: nat, c: nat)
    requires r < 4 && c < 4
    ensures ByteOf(MixColumns(s)[c], r) ==
            MixByte(ByteOf(s[c], r), ByteOf(s[c], (r + 1) % 4), ByteOf(s[c], (r + 2) % 4), ByteOf(s[c], (r + 3) % 4))
  {
    hide MixByte, ByteOf, MixWord;
    MixWordBytes(s[c]);
    if r == 0 {
    } else if r == 1 {
    } else if r == 2 {
    } else {
    }
  }

  // ----- the cipher (sections 5.1 and 5.3) ------------------------------------------------------------------

  function FromBytes(b: Block): State {
    [Pack(b[0], b[1], b[2], b[3]), Pack(b[4], b[5], b[6], b[7]),
     Pack(b[8], b[9], b[10], b[11]), Pack(b[12], b[13], b[14], b[15])]
  }

  function WordBytes(w: bv32): (b: Bytes)
    ensures |b| == 4
  {
    [ByteOf(w, 0), ByteOf(w, 1), ByteOf(w, 2), ByteOf(w, 3)]
  }

  function ToBytes(s: State): Block {
    WordBytes(s[0]) + WordBytes(s[1]) + WordBytes(s[2]) + WordBytes(s[3])
  }

  lemma BytesRoundTrip(b: Block)
    ensures ToBytes(FromBytes(b)) == b
  {
    hide ByteOf, Pack;
    PackBytes(b[0], b[1], b[2], b[3]);
    PackBytes(b[4], b[5], b[6], b[7]);
    PackBytes(b[8], b[9], b[10], b[11]);
    PackBytes(b[12], b[13], b[14], b[15]);
  }

  lemma StateRoundTrip(s: State)
    ensures FromBytes(ToBytes(s)) == s
  {
    hide ByteOf, Pack;
    BytesPack(s[0]);
    BytesPack(s[1]);
    BytesPack(s[2]);
    BytesPack(s[3]);
  }

  function Round(key: State, s: State): State {
    AddRoundKey(key, MixColumns(ShiftRows(SubBytes(s))))
  }

  function InvRound(key: State, s: State): State {
    InvSubBytes(InvShiftRows(InvMixColumns(AddRoundKey(key, s))))
  }

  /** The rounds 1 to n. */
  function Rounds(keys: RoundKeys, s: State, n: nat): State
    requires n < |keys|
  {
    if n == 0 then s else Round(keys[n], Rounds(keys, s, n - 1))
  }

  /** The inverse rounds n down to 1. */
  function InvRounds(keys: RoundKeys, s: State, n: nat): State
    requires n < |keys|
    decreases n, s
  {
    if n == 0 then s else InvRounds(keys, InvRound(keys[n], s), n - 1)
  }

  function Encrypt(keys: RoundKeys, b: Block): Block {
    var n := |keys| - 1;
    var s := Rounds(keys, AddRoundKey(keys[0], FromBytes(b)), n - 1);
    ToBytes(AddRoundKey(keys[n], ShiftRows(SubBytes(s))))
  }

  function Decrypt(keys: RoundKeys, b: Block): Block {
    var n := |keys| - 1;
    var s := InvSubBytes(InvShiftRows(AddRoundKey(keys[n], FromBytes(b))));
    ToBytes(AddRoundKey(keys[0], InvRounds(keys, s, n - 1)))
  }

  lemma RoundBack(key: State, s: State)
    ensures InvRound(key, Round(key, s)) == s
  {
    hide AddRoundKey, MixColumns, InvMixColumns, ShiftRows, InvShiftRows, SubBytes, InvSubBytes;
    AddRoundKeyBack(key, MixColumns(ShiftRows(SubBytes(s))));
    MixColumnsBack(ShiftRows(SubBytes(s)));
    ShiftRowsBack(SubBytes(s));
    SubBytesBack(s);
  }

  lemma {:induction false} RoundsBack(keys: RoundKeys, s: State, n: nat)
    requires n < |keys|
    ensures InvRounds(keys, Rounds(keys, s, n), n) == s
    decreases n
  {
    hide Round, InvRound;
    if n > 0 {
      RoundBack(keys[n], Rounds(keys, s, n - 1));
      RoundsBack(keys, s, n - 1);
    }
  }

  /** Decryption undoes encryption, for every block and every list of at least two round keys. */
  lemma DecryptEncrypt(keys: RoundKeys, b: Block)
    ensures Decrypt(keys, Encrypt(keys, b)) == b
  {
    hide AddRoundKey, ShiftRows, InvShiftRows, SubBytes, InvSubBytes, FromBytes, ToBytes, Rounds, InvRounds;
    var n := |keys| - 1;
    var s0 := AddRoundKey(keys[0], FromBytes(b));
    var s := Rounds(keys, s0, n - 1);
    StateRoundTrip(AddRoundKey(keys[n], ShiftRows(SubBytes(s))));
    AddRoundKeyBack(keys[n], ShiftRows(SubBytes(s)));
    ShiftRowsBack(SubBytes(s));
    SubBytesBack(s);
    RoundsBack(keys, s0, n - 1);
    AddRoundKeyBack(keys[0], FromBytes(b));
    BytesRoundTrip(b);
  }

  // ----- the in-place code ----------------------------------------------------------------------------------

  method AddRoundKeyInPlace(key: State, state: array<bv32>)
    requires state.Length == 4
    modifies state
    ensures state[..] == AddRoundKey(key, old(state[..]))
  {
    for i := 0 to 4
      invariant forall j :: 0 <= j < i ==> state[j] == old(state[j]) ^ key[j]
      invariant forall j :: i <= j < 4 ==> state[j] == old(state[j])
    {
      state[i] := state[i] ^ key[i];
    }
  }

  method SubBytesInPlace(state: array<bv32>)
    requires state.Length == 4
    modifies state
    ensures state[..] == SubBytes(old(state[..]))
  {
    hide SubWord;
    for i := 0 to 4
      invariant forall j :: 0 <= j < i ==> state[j] == SubWord(old(state[j]))
      invariant forall j :: i <= j < 4 ==> state[j] == old(state[j])
    {
      state[i] := SubWord(state[i]);
    }
  }

  method InvSubBytesInPlace(state: array<bv32>)
    requires state.Length == 4
    modifies state
    ensures state[..] == InvSubBytes(old(state[..]))
  {
    hide InvSubWord;
    for i := 0 to 4
      invariant forall j :: 0 <= j < i ==> state[j] == InvSubWord(old(state[j]))
      invariant forall j :: i <= j < 4 ==> state[j] == old(state[j])
    {
      state[i] := InvSubWord(state[i]);
    }
  }

  method MixColumnsInPlace(state: array<bv32>)
    requires state.Length == 4
    modifies state
    ensures state[..] == MixColumns(old(state[..]))
  {
    hide MixWord;
    for i := 0 to 4
      invariant forall j :: 0 <= j < i ==> state[j] == MixWord(old(state[j]))
      invariant forall j :: i <= j < 4 ==> state[j] == old(state[j])
    {
      state[i] := MixWord(state[i]);
    }
  }

  method InvMixColumnsInPlace(state: array<bv32>)
    requires state.Length == 4
    modifies state
    ensures state[..] == InvMixColumns(old(state[..]))
  {
    hide InvMixWord;
    for i := 0 to 4
      invariant forall j :: 0 <= j < i ==> state[j] == InvMixWord(old(state[j]))
      invariant forall j :: i <= j < 4 ==> state[j] == old(state[j])
    {
      state[i] := InvMixWord(state[i]);
    }
  }

  /** 0xFF << (r * 8) */
  function RowMask(r: nat): bv32 {
    if r == 0 then 0xFF else if r == 1 then 0xFF00 else if r == 2 then 0xFF_0000 else 0xFF00_0000
  }

  /** Replace byte r of v by that of w. */
  function Splice(v: bv32, w: bv32, r: nat): bv32 {
    (v & !RowMask(r)) | (w & RowMask(r))
  }

  lemma SpliceRows(w0: bv32, w1: bv32, w2: bv32, w3: bv32)
    ensures (((((w0 & 0xFFFF_00FF) | (w1 & 0xFF00)) & 0xFF00_FFFF) | (w2 & 0xFF_0000)) & 0xFF_FFFF)
            | (w3 & 0xFF00_0000) ==
            ((w0 & 0xFF) as bv8 as bv32) | ((((w1 >> 8) & 0xFF) as bv8 as bv32) << 8) |
            ((((w2 >> 16) & 0xFF) as bv8 as bv32) << 16) | ((((w3 >> 24) & 0xFF) as bv8 as bv32) << 24)
  {
  }

  /** Splicing rows 1, 2 and 3 in turn makes the column. */
  lemma SplicesMakeColumn(w0: bv32, w1: bv32, w2: bv32, w3: bv32)
    ensures Splice(Splice(Splice(w0, w1, 1), w2, 2), w3, 3) == Column(w0, w1, w2, w3)
  {
    SpliceRows(w0, w1, w2, w3);
  }

  function Source(c: nat, r: nat, inverse: bool): (k: nat)
    requires 1 <= r < 4 && c < 4
    ensures k < 4
  {
    (c + if inverse then 4 - r else r) % 4
  }

  function MoveRow(ori: State, s: State, r: nat, inverse: bool): State
    requires 1 <= r < 4
  {
    [Splice(s[0], ori[Source(0, r, inverse)], r), Splice(s[1], ori[Source(1, r, inverse)], r),
     Splice(s[2], ori[Source(2, r, inverse)], r), Splice(s[3], ori[Source(3, r, inverse)], r)]
  }

  lemma MoveRowsMakeColumns(ori: State, inverse: bool)
    ensures MoveRow(ori, MoveRow(ori, MoveRow(ori, ori, 1, inverse), 2, inverse), 3, inverse) ==
            if inverse then InvShiftRows(ori) else ShiftRows(ori)
  {
    hide Splice, Column;
    if inverse {
      SplicesMakeColumn(ori[0], ori[3], ori[2], ori[1]);
      SplicesMakeColumn(ori[1], ori[0], ori[3], ori[2]);
      SplicesMakeColumn(ori[2], ori[1], ori[0], ori[3]);
      SplicesMakeColumn(ori[3], ori[2], ori[1], ori[0]);
    } else {
      SplicesMakeColumn(ori[0], ori[1], ori[2], ori[3]);
      SplicesMakeColumn(ori[1], ori[2], ori[3], ori[0]);
      SplicesMakeColumn(ori[2], ori[3], ori[0], ori[1]);
      SplicesMakeColumn(ori[3], ori[0], ori[1], ori[2]);
    }
  }

  method MoveRowInPlace(ori: State, state: array<bv32>, r: nat, inverse: bool)
    requires state.Length == 4 && 1 <= r < 4
    modifies state
    ensures state[..] == MoveRow(ori, old(state[..]), r, inverse)
  {
    hide Splice, Source;
    for c := 0 to 4
      invariant forall j :: 0 <= j < c ==> state[j] == Splice(old(state[j]), ori[Source(j, r, inverse)], r)
      invariant forall j :: c <= j < 4 ==> state[j] == old(state[j])
    {
      state[c] := Splice(state[c], ori[Source(c, r, inverse)], r);
    }
  }

  method MoveRowsInPlace(state: array<bv32>, inverse: bool)
    requires state.Length == 4
    modifies state
    ensures state[..] == if inverse then InvShiftRows(old(state[..])) else ShiftRows(old(state[..]))
  {
    hide MoveRow, ShiftRows, InvShiftRows;
    var ori: State := state[..];
    for r := 1 to 4
      invariant r == 1 ==> state[..] == ori
      invariant r == 2 ==> state[..] == MoveRow(ori, ori, 1, inverse)
      invariant r == 3 ==> state[..] == MoveRow(ori, MoveRow(ori, ori, 1, inverse), 2, inverse)
      invariant r == 4 ==>
                  state[..] == MoveRow(ori, MoveRow(ori, MoveRow(ori, ori, 1, inverse), 2, inverse), 3, inverse)
    {
      MoveRowInPlace(ori, state, r, inverse);
    }
    MoveRowsMakeColumns(ori, inverse);
  }

  method EncryptState(rkeys: RoundKeys, data: Block) returns (encrypted: Block)
    ensures encrypted == Encrypt(rkeys, data)
  {
    hide AddRoundKey, MixColumns, ShiftRows, SubBytes, FromBytes, ToBytes;
    var s := new bv32[4];
    var ori := FromBytes(data);
    s[0], s[1], s[2], s[3] := ori[0], ori[1], ori[2], ori[3];
    assert s[..] == ori;
    AddRoundKeyInPlace(rkeys[0], s);
    for i := 1 to |rkeys| - 1
      invariant s[..] == Rounds(rkeys, AddRoundKey(rkeys[0], FromBytes(data)), i - 1)
    {
      SubBytesInPlace(s);
      MoveRowsInPlace(s, false);
      MixColumnsInPlace(s);
      AddRoundKeyInPlace(rkeys[i], s);
    }
    SubBytesInPlace(s);
    MoveRowsInPlace(s, false);
    AddRoundKeyInPlace(rkeys[|rkeys| - 1], s);
    encrypted := ToBytes(s[..]);
  }

  method DecryptState(rkeys: RoundKeys, data: Block) returns (decrypted: Block)
    ensures decrypted == Decrypt(rkeys, data)
  {
    hide AddRoundKey, InvMixColumns, InvShiftRows, InvSubBytes, FromBytes, ToBytes;
    var s := new bv32[4];
    var ori := FromBytes(data);
    s[0], s[1], s[2], s[3] := ori[0], ori[1], ori[2], ori[3];
    assert s[..] == ori;
    AddRoundKeyInPlace(rkeys[|rkeys| - 1], s);
    MoveRowsInPlace(s, true);
    InvSubBytesInPlace(s);
    var i := |rkeys| - 2;
    ghost var last := InvRounds(rkeys, s[..], i);
    while i > 0
      invariant 0 <= i <= |rkeys| - 2
      invariant InvRounds(rkeys, s[..], i) == last
    {
      AddRoundKeyInPlace(rkeys[i], s);
      InvMixColumnsInPlace(s);
      MoveRowsInPlace(s, true);
      InvSubBytesInPlace(s);
      i := i - 1;
    }
    AddRoundKeyInPlace(rkeys[0], s);
    decrypted := ToBytes(s[..]);
  }
}
