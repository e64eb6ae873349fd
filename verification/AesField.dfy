/** Arithmetic in GF(2^8) and the S-boxes of AES (FIPS 197, sections 4 and 5). */
module AesField {
  /** Row r of the S-box: sixteen bytes, the first one most significant. */
  function SboxRow(r: bv8): bv128 {
    if r == 0 then 0x637c777b_f26b6fc5_3001672b_fed7ab76
    else if r == 1 then 0xca82c97d_fa5947f0_add4a2af_9ca472c0
    else if r == 2 then 0xb7fd9326_363ff7cc_34a5e5f1_71d83115
    else if r == 3 then 0x04c723c3_1896059a_071280e2_eb27b275
    else if r == 4 then 0x09832c1a_1b6e5aa0_523bd6b3_29e32f84
    else if r == 5 then 0x53d100ed_20fcb15b_6acbbe39_4a4c58cf
    else if r == 6 then 0xd0efaafb_434d3385_45f9027f_503c9fa8
    else if r == 7 then 0x51a3408f_929d38f5_bcb6da21_10fff3d2
    else if r == 8 then 0xcd0c13ec_5f974417_c4a77e3d_645d1973
    else if r == 9 then 0x60814fdc_222a9088_46eeb814_de5e0bdb
    else if r == 10 then 0xe0323a0a_4906245c_c2d3ac62_9195e479
    else if r == 11 then 0xe7c8376d_8dd54ea9_6c56f4ea_657aae08
    else if r == 12 then 0xba78252e_1ca6b4c6_e8dd741f_4bbd8b8a
    else if r == 13 then 0x703eb566_4803f60e_613557b9_86c11d9e
    else if r == 14 then 0xe1f89811_69d98e94_9b1e87e9_ce5528df
    else 0x8ca1890d_bfe64268_41992d0f_b054bb16
  }

  function InvSboxRow(r: bv8): bv128 {
    if r == 0 then 0x52096ad5_3036a538_bf40a39e_81f3d7fb
    else if r == 1 then 0x7ce33982_9b2fff87_348e4344_c4dee9cb
    else if r == 2 then 0x547b9432_a6c2233d_ee4c950b_42fac34e
    else if r == 3 then 0x082ea166_28d924b2_765ba249_6d8bd125
    else if r == 4 then 0x72f8f664_86689816_d4a45ccc_5d65b692
    else if r == 5 then 0x6c704850_fdedb9da_5e154657_a78d9d84
    else if r == 6 then 0x90d8ab00_8cbcd30a_f7e45805_b8b34506
    else if r == 7 then 0xd02c1e8f_ca3f0f02_c1afbd03_01138a6b
    else if r == 8 then 0x3a911141_4f67dcea_97f2cfce_f0b4e673
    else if r == 9 then 0x96ac7422_e7ad3585_e2f937e8_1c75df6e
    else if r == 10 then 0x47f11a71_1d29c589_6fb7620e_aa18be1b
    else if r == 11 then 0xfc563e4b_c6d27920_9adbc0fe_78cd5af4
    else if r == 12 then 0x1fdda833_8807c731_b1121059_2780ec5f
    else if r == 13 then 0x60517fa9_19b54a0d_2de57a9f_93c99cef
    else if r == 14 then 0xa0e03b4d_ae2af5b0_c8ebbb3c_83539961
    else 0x172b047e_ba77d626_e1691463_55210c7d
  }

  function Entry(row: bv128, column: bv8): bv8 {
    ((row >> (120 - 8 * (column & 15))) & 0xff) as bv8
  }

  function Sbox(b: bv8): bv8 {
    Entry(SboxRow(b >> 4), b & 15)
  }

  function InvSbox(b: bv8): bv8 {
    Entry(InvSboxRow(b >> 4), b & 15)
  }

  /** Addition. */
  function Xor(a: bv8, b: bv8): bv8 {
    a ^ b
  }

  function Xor4(a: bv8, b: bv8, c: bv8, d: bv8): bv8 {
    Xor(Xor(Xor(a, b), c), d)
  }

  /** Multiplication by x. */
  function Mul2(b: bv8): bv8 {
    if b & 0x80 != 0 then (b << 1) ^ 0x1b else b << 1
  }

  /** v plus the low n bits of m times t. */
  function MulFrom(v: bv8, t: bv8, m: bv8, n: nat): bv8
    decreases n
  {
    if n == 0 then v else MulFrom(if m & 1 == 1 then Xor(v, t) else v, Mul2(t), m >> 1, n - 1)
  }

  function Mul(b: bv8, m: bv8): bv8 {
    MulFrom(0, b, m, 8)
  }

  method MulBytes(b: bv8, m: bv8) returns (v: bv8)
    ensures v == Mul(b, m)
  {
    v := 0;
    var t := b;
    for i := 0 to 8
      invariant MulFrom(v, t, m >> i, 8 - i) == Mul(b, m)
    {
      NextBit(m, i);
      if (m >> i) & 0x01 == 1 {
        v := Xor(v, t);
      }
      t := Mul2(t);
    }
  }

  lemma NextBit(m: bv8, i: nat)
    requires i < 8
    ensures m >> (i + 1) == (m >> i) >> 1
  {
    if i == 0 {
    } else if i == 1 {
    } else if i == 2 {
    } else if i == 3 {
    } else if i == 4 {
    } else if i == 5 {
    } else if i == 6 {
    } else {
    }
  }

  // ----- the S-boxes are inverse, and are what FIPS 197 section 5.1.1 defines ---------------------------

  lemma SboxForward(b: bv8)
    requires b < 0x80
    ensures InvSbox(Sbox(b)) == b
  {
  }

  lemma SboxForwardHigh(b: bv8)
    requires b >= 0x80
    ensures InvSbox(Sbox(b)) == b
  {
  }

  lemma SboxBackward(b: bv8)
    requires b < 0x80
    ensures Sbox(InvSbox(b)) == b
  {
  }

  lemma SboxBackwardHigh(b: bv8)
    requires b >= 0x80
    ensures Sbox(InvSbox(b)) == b
  {
  }

  lemma SboxInverse(b: bv8)
    ensures InvSbox(Sbox(b)) == b && Sbox(InvSbox(b)) == b
  {
    hide Sbox, InvSbox;
    if b < 0x80 {
      SboxForward(b);
      SboxBackward(b);
    } else {
      SboxForwardHigh(b);
      SboxBackwardHigh(b);
    }
  }

  function Rotated(i: bv8, n: bv8): bv8
    requires n < 8
  {
    (i << n) | (i >> (8 - n))
  }

  /** The affine step over GF(2). */
  function Affine(i: bv8): bv8 {
    i ^ Rotated(i, 1) ^ Rotated(i, 2) ^ Rotated(i, 3) ^ Rotated(i, 4) ^ 0x63
  }

  function AffineInverse(i: bv8): bv8 {
    Rotated(i, 1) ^ Rotated(i, 3) ^ Rotated(i, 6) ^ 0x05
  }

  lemma AffineInverts(b: bv8)
    ensures Affine(AffineInverse(b)) == b
  {
  }

  lemma SboxFieldInverse0(b: bv8)
    requires b < 0x40
    ensures if b == 0 then AffineInverse(Sbox(b)) == 0 else Mul(b, AffineInverse(Sbox(b))) == 1
  {
  }

  lemma SboxFieldInverse1(b: bv8)
    requires 0x40 <= b < 0x80
    ensures Mul(b, AffineInverse(Sbox(b))) == 1
  {
  }

  lemma SboxFieldInverse2(b: bv8)
    requires 0x80 <= b < 0xc0
    ensures Mul(b, AffineInverse(Sbox(b))) == 1
  {
  }

  lemma SboxFieldInverse3(b: bv8)
    requires b >= 0xc0
    ensures Mul(b, AffineInverse(Sbox(b))) == 1
  {
  }

  /** The table is the affine image of the multiplicative inverse, zero standing for its own inverse. */
  lemma SboxIsFips(b: bv8)
    ensures exists i :: Sbox(b) == Affine(i) && if b == 0 then i == 0 else Mul(b, i) == 1
  {
    hide Sbox, Mul, Affine, AffineInverse;
    var i := AffineInverse(Sbox(b));
    AffineInverts(Sbox(b));
    if b < 0x40 {
      SboxFieldInverse0(b);
    } else if b < 0x80 {
      SboxFieldInverse1(b);
    } else if b < 0xc0 {
      SboxFieldInverse2(b);
    } else {
      SboxFieldInverse3(b);
    }
    assert Sbox(b) == Affine(i) && if b == 0 then i == 0 else Mul(b, i) == 1;
  }

  // ----- multiplication distributes ---------------------------------------------------------------------

  lemma ShiftAdds(a: bv8, b: bv8)
    ensures (a ^ b) << 1 == (a << 1) ^ (b << 1)
    ensures (a ^ b) & 0x80 == (a & 0x80) ^ (b & 0x80)
    ensures a & 0x80 == 0 || a & 0x80 == 0x80
    ensures b & 0x80 == 0 || b & 0x80 == 0x80
  {
  }

  lemma Shuffle(a: bv8, b: bv8, c: bv8)
    ensures a ^ b == (a ^ c) ^ (b ^ c)
    ensures (a ^ b) ^ c == (a ^ c) ^ b
    ensures (a ^ b) ^ c == a ^ (b ^ c)
  {
  }

  lemma Mul2Adds(a: bv8, b: bv8)
    ensures Mul2(a ^ b) == Mul2(a) ^ Mul2(b)
  {
    ShiftAdds(a, b);
    Shuffle(a << 1, b << 1, 0x1b);
  }

  lemma XorComm(a: bv8, b: bv8)
    ensures Xor(a, b) == Xor(b, a)
  {
  }

  lemma XorAssoc(a: bv8, b: bv8, c: bv8)
    ensures Xor(Xor(a, b), c) == Xor(a, Xor(b, c))
  {
  }

  lemma XorShuffle(a: bv8, b: bv8, c: bv8, d: bv8)
    ensures Xor(Xor(a, b), Xor(c, d)) == Xor(Xor(a, c), Xor(b, d))
  {
    hide Xor;
    XorAssoc(Xor(a, b), c, d);
    XorAssoc(a, b, c);
    XorComm(b, c);
    XorAssoc(a, c, b);
    XorAssoc(Xor(a, c), b, d);
  }

  lemma Xor3Is(a: bv8, b: bv8, c: bv8)
    ensures Xor(Xor(a, b), c) == a ^ b ^ c
  {
  }

  lemma Xor4Flat(a: bv8, b: bv8, c: bv8, d: bv8)
    ensures Xor4(a, b, c, d) == a ^ b ^ c ^ d
  {
    hide Xor;
    Xor3Is(a, b, c);
    XorIs(Xor(Xor(a, b), c), d);
    Flatten(a, b, c, d, Xor(Xor(a, b), c), Xor4(a, b, c, d));
  }

  lemma Flatten(a: bv8, b: bv8, c: bv8, d: bv8, x: bv8, y: bv8)
    requires x == a ^ b ^ c && y == x ^ d
    ensures y == a ^ b ^ c ^ d
  {
  }

  lemma XorIs(a: bv8, b: bv8)
    ensures Xor(a, b) == a ^ b
  {
  }

  lemma XorZero(a: bv8)
    ensures Xor(0, a) == a && Xor(a, 0) == a && Xor(a, a) == 0
  {
  }

  lemma Mul2Xor(a: bv8, b: bv8)
    ensures Mul2(Xor(a, b)) == Xor(Mul2(a), Mul2(b))
  {
    hide Mul2;
    Mul2Adds(a, b);
  }

  lemma {:induction false} MulFromAdds(v: bv8, w: bv8, a: bv8, b: bv8, m: bv8, n: nat)
    ensures MulFrom(Xor(v, w), Xor(a, b), m, n) == Xor(MulFrom(v, a, m, n), MulFrom(w, b, m, n))
    decreases n
  {
    hide Mul2, Xor;
    if n > 0 {
      Mul2Xor(a, b);
      XorShuffle(v, w, a, b);
      if m & 1 == 1 {
        MulFromAdds(Xor(v, a), Xor(w, b), Mul2(a), Mul2(b), m >> 1, n - 1);
      } else {
        MulFromAdds(v, w, Mul2(a), Mul2(b), m >> 1, n - 1);
      }
    }
  }

  lemma MulAdds(a: bv8, b: bv8, m: bv8)
    ensures Mul(Xor(a, b), m) == Xor(Mul(a, m), Mul(b, m))
  {
    hide MulFrom, Xor;
    MulFromAdds(0, 0, a, b, m, 8);
    XorZero(0);
  }

  /** A sum of four terms. */
  lemma MulAdds4(a: bv8, b: bv8, c: bv8, d: bv8, m: bv8)
    ensures Mul(Xor4(a, b, c, d), m) == Xor4(Mul(a, m), Mul(b, m), Mul(c, m), Mul(d, m))
  {
    hide Mul, Xor;
    MulAdds(Xor(Xor(a, b), c), d, m);
    MulAdds(Xor(a, b), c, m);
    MulAdds(a, b, m);
  }

  lemma {:induction false} MulFromDone(v: bv8, t: bv8, n: nat)
    ensures MulFrom(v, t, 0, n) == v
    decreases n
  {
    hide Mul2, Xor;
    if n > 0 {
      MulFromDone(v, Mul2(t), n - 1);
    }
  }

  lemma MulFromStep(v: bv8, t: bv8, m: bv8, n: nat)
    requires n > 0
    ensures MulFrom(v, t, m, n) == MulFrom(if m & 1 == 1 then Xor(v, t) else v, Mul2(t), m >> 1, n - 1)
  {
    hide Mul2, Xor;
  }

  lemma MulConstants(b: bv8)
    ensures var d1 := Mul2(b); var d2 := Mul2(d1); var d3 := Mul2(d2);
            && Mul(b, 0x09) == Xor(b, d3) && Mul(b, 0x0B) == Xor(Xor(b, d1), d3)
            && Mul(b, 0x0D) == Xor(Xor(b, d2), d3) && Mul(b, 0x0E) == Xor(Xor(d1, d2), d3)
  {
    hide Mul2, Xor, MulFrom;
    var d1 := Mul2(b);
    var d2 := Mul2(d1);
    var d3 := Mul2(d2);
    var d4 := Mul2(d3);
    XorZero(b);
    XorZero(d1);
    MulFromStep(0, b, 0x09, 8);
    MulFromStep(b, d1, 0x04, 7);
    MulFromStep(b, d2, 0x02, 6);
    MulFromStep(b, d3, 0x01, 5);
    MulFromDone(Xor(b, d3), d4, 4);
    MulFromStep(0, b, 0x0b, 8);
    MulFromStep(b, d1, 0x05, 7);
    MulFromStep(Xor(b, d1), d2, 0x02, 6);
    MulFromStep(Xor(b, d1), d3, 0x01, 5);
    MulFromDone(Xor(Xor(b, d1), d3), d4, 4);
    MulFromStep(0, b, 0x0d, 8);
    MulFromStep(b, d1, 0x06, 7);
    MulFromStep(b, d2, 0x03, 6);
    MulFromStep(Xor(b, d2), d3, 0x01, 5);
    MulFromDone(Xor(Xor(b, d2), d3), d4, 4);
    MulFromStep(0, b, 0x0e, 8);
    MulFromStep(0, d1, 0x07, 7);
    MulFromStep(d1, d2, 0x03, 6);
    MulFromStep(Xor(d1, d2), d3, 0x01, 5);
    MulFromDone(Xor(Xor(d1, d2), d3), d4, 4);
  }

  // The four sums of the MixColumns matrix times its inverse, in powers of x: terms cancel in pairs.

  lemma Cancels0(v: bv8, d1: bv8, d2: bv8, d3: bv8, d4: bv8, e: bv8, b: bv8, d: bv8, n: bv8, r: bv8,
                 n1: bv8, n2: bv8)
    requires n1 == d1 ^ v && n2 == d4 ^ d3
    requires e == d2 ^ d3 ^ d4 && b == v ^ d1 ^ d3 && d == v ^ d2 ^ d3 && n == n1 ^ n2 && r == e ^ b ^ d ^ n
    ensures r == v
  {
  }

  lemma MatrixSum0(v: bv8, d1: bv8, d2: bv8, d3: bv8, d4: bv8)
    ensures Xor4(Xor(Xor(d2, d3), d4), Xor(Xor(v, d1), d3), Xor(Xor(v, d2), d3),
                 Xor(Xor(d1, v), Xor(d4, d3))) == v
  {
    hide Xor, Xor4;
    XorIs(d1, v);
    XorIs(d4, d3);
    Xor3Is(d2, d3, d4);
    Xor3Is(v, d1, d3);
    Xor3Is(v, d2, d3);
    XorIs(Xor(d1, v), Xor(d4, d3));
    Xor4Flat(Xor(Xor(d2, d3), d4), Xor(Xor(v, d1), d3), Xor(Xor(v, d2), d3),
             Xor(Xor(d1, v), Xor(d4, d3)));
    Cancels0(v, d1, d2, d3, d4, Xor(Xor(d2, d3), d4), Xor(Xor(v, d1), d3), Xor(Xor(v, d2), d3),
             Xor(Xor(d1, v), Xor(d4, d3)),
             Xor4(Xor(Xor(d2, d3), d4), Xor(Xor(v, d1), d3), Xor(Xor(v, d2), d3),
                  Xor(Xor(d1, v), Xor(d4, d3))),
             Xor(d1, v), Xor(d4, d3));
  }

  lemma Cancels1(v: bv8, d1: bv8, d2: bv8, d3: bv8, d4: bv8, e: bv8, b: bv8, d: bv8, n: bv8, r: bv8,
                 n1: bv8, n2: bv8, n3: bv8)
    requires n1 == d1 ^ v && n2 == d3 ^ d2 && n3 == d4 ^ d3
    requires e == d1 ^ d4 && b == d1 ^ d2 ^ d3 && d == v ^ d1 ^ d3 && n == n1 ^ n2 ^ n3 && r == e ^ b ^ d ^ n
    ensures r == 0
  {
  }

  lemma MatrixSum1(v: bv8, d1: bv8, d2: bv8, d3: bv8, d4: bv8)
    ensures Xor4(Xor(d1, d4), Xor(Xor(d1, d2), d3), Xor(Xor(v, d1), d3),
                 Xor(Xor(Xor(d1, v), Xor(d3, d2)), Xor(d4, d3))) == 0
  {
    hide Xor, Xor4;
    XorIs(d1, v);
    XorIs(d3, d2);
    XorIs(d4, d3);
    XorIs(d1, d4);
    Xor3Is(d1, d2, d3);
    Xor3Is(v, d1, d3);
    Xor3Is(Xor(d1, v), Xor(d3, d2), Xor(d4, d3));
    Xor4Flat(Xor(d1, d4), Xor(Xor(d1, d2), d3), Xor(Xor(v, d1), d3),
             Xor(Xor(Xor(d1, v), Xor(d3, d2)), Xor(d4, d3)));
    Cancels1(v, d1, d2, d3, d4, Xor(d1, d4), Xor(Xor(d1, d2), d3), Xor(Xor(v, d1), d3),
             Xor(Xor(Xor(d1, v), Xor(d3, d2)), Xor(d4, d3)),
             Xor4(Xor(d1, d4), Xor(Xor(d1, d2), d3), Xor(Xor(v, d1), d3),
                  Xor(Xor(Xor(d1, v), Xor(d3, d2)), Xor(d4, d3))),
             Xor(d1, v), Xor(d3, d2), Xor(d4, d3));
  }

  lemma Cancels2(v: bv8, d1: bv8, d2: bv8, d3: bv8, d4: bv8, e: bv8, b: bv8, d: bv8, n: bv8, r: bv8,
                 n1: bv8, n2: bv8, n3: bv8)
    requires n1 == d1 ^ v && n2 == d2 ^ d1 && n3 == d4 ^ d3
    requires e == d1 ^ d3 ^ d4 && b == v ^ d3 && d == d1 ^ d2 ^ d3 && n == n1 ^ n2 ^ n3 && r == e ^ b ^ d ^ n
    ensures r == 0
  {
  }

  lemma MatrixSum2(v: bv8, d1: bv8, d2: bv8, d3: bv8, d4: bv8)
    ensures Xor4(Xor(Xor(d1, d3), d4), Xor(v, d3), Xor(Xor(d1, d2), d3),
                 Xor(Xor(Xor(d1, v), Xor(d2, d1)), Xor(d4, d3))) == 0
  {
    hide Xor, Xor4;
    XorIs(d1, v);
    XorIs(d2, d1);
    XorIs(d4, d3);
    Xor3Is(d1, d3, d4);
    XorIs(v, d3);
    Xor3Is(d1, d2, d3);
    Xor3Is(Xor(d1, v), Xor(d2, d1), Xor(d4, d3));
    Xor4Flat(Xor(Xor(d1, d3), d4), Xor(v, d3), Xor(Xor(d1, d2), d3),
             Xor(Xor(Xor(d1, v), Xor(d2, d1)), Xor(d4, d3)));
    Cancels2(v, d1, d2, d3, d4, Xor(Xor(d1, d3), d4), Xor(v, d3), Xor(Xor(d1, d2), d3),
             Xor(Xor(Xor(d1, v), Xor(d2, d1)), Xor(d4, d3)),
             Xor4(Xor(Xor(d1, d3), d4), Xor(v, d3), Xor(Xor(d1, d2), d3),
                  Xor(Xor(Xor(d1, v), Xor(d2, d1)), Xor(d4, d3))),
             Xor(d1, v), Xor(d2, d1), Xor(d4, d3));
  }

  lemma Cancels3(v: bv8, d1: bv8, d2: bv8, d3: bv8, d4: bv8, e: bv8, b: bv8, d: bv8, n: bv8, r: bv8,
                 n1: bv8, n2: bv8, n3: bv8)
    requires n1 == d2 ^ d1 && n2 == d3 ^ d2 && n3 == d4 ^ d3
    requires e == d1 ^ d2 ^ d4 && b == v ^ d2 ^ d3 && d == v ^ d3 && n == n1 ^ n2 ^ n3 && r == e ^ b ^ d ^ n
    ensures r == 0
  {
  }

  lemma MatrixSum3(v: bv8, d1: bv8, d2: bv8, d3: bv8, d4: bv8)
    ensures Xor4(Xor(Xor(d1, d2), d4), Xor(Xor(v, d2), d3), Xor(v, d3),
                 Xor(Xor(Xor(d2, d1), Xor(d3, d2)), Xor(d4, d3))) == 0
  {
    hide Xor, Xor4;
    XorIs(d2, d1);
    XorIs(d3, d2);
    XorIs(d4, d3);
    Xor3Is(d1, d2, d4);
    Xor3Is(v, d2, d3);
    XorIs(v, d3);
    Xor3Is(Xor(d2, d1), Xor(d3, d2), Xor(d4, d3));
    Xor4Flat(Xor(Xor(d1, d2), d4), Xor(Xor(v, d2), d3), Xor(v, d3),
             Xor(Xor(Xor(d2, d1), Xor(d3, d2)), Xor(d4, d3)));
    Cancels3(v, d1, d2, d3, d4, Xor(Xor(d1, d2), d4), Xor(Xor(v, d2), d3), Xor(v, d3),
             Xor(Xor(Xor(d2, d1), Xor(d3, d2)), Xor(d4, d3)),
             Xor4(Xor(Xor(d1, d2), d4), Xor(Xor(v, d2), d3), Xor(v, d3),
                  Xor(Xor(Xor(d2, d1), Xor(d3, d2)), Xor(d4, d3))),
             Xor(d2, d1), Xor(d3, d2), Xor(d4, d3));
  }

  /** The inverse MixColumns matrix undoes what MixColumns makes of one byte (section 5.3.3). */
  lemma MatrixInverse(v: bv8)
    ensures var t := Mul2(v); var u := Xor(t, v);
            && Xor4(Mul(t, 0x0E), Mul(v, 0x0B), Mul(v, 0x0D), Mul(u, 0x09)) == v
            && Xor4(Mul(t, 0x09), Mul(v, 0x0E), Mul(v, 0x0B), Mul(u, 0x0D)) == 0
            && Xor4(Mul(t, 0x0D), Mul(v, 0x09), Mul(v, 0x0E), Mul(u, 0x0B)) == 0
            && Xor4(Mul(t, 0x0B), Mul(v, 0x0D), Mul(v, 0x09), Mul(u, 0x0E)) == 0
  {
    hide Mul, Mul2, Xor, Xor4;
    var d1 := Mul2(v);
    var d2 := Mul2(d1);
    var d3 := Mul2(d2);
    MulConstants(v);
    MulConstants(d1);
    MulConstants(Xor(d1, v));
    Mul2Xor(d1, v);
    Mul2Xor(d2, d1);
    Mul2Xor(d3, d2);
    MatrixSum0(v, d1, d2, d3, Mul2(d3));
    MatrixSum1(v, d1, d2, d3, Mul2(d3));
    MatrixSum2(v, d1, d2, d3, Mul2(d3));
    MatrixSum3(v, d1, d2, d3, Mul2(d3));
  }
}
