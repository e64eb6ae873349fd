/** GCM mode of src/common/aes.h (NIST SP 800-38D). */
module Gcm {
  import opened AesField
  import opened AesCipher
  import opened AesKey
  import opened AesModes
  import opened Octets
  import opened ZeroBytes
  import F = GcmField
  import W = Words

  // ----- blocks as bit strings: the first byte holds the leftmost bits ---------------------------------------

  function Octet(w: W.Word, o: nat): bv8
    requires o + 8 <= |w|
  {
    Assemble(w[o], w[o + 1], w[o + 2], w[o + 3], w[o + 4], w[o + 5], w[o + 6], w[o + 7])
  }

  function ToBits(b: Block): F.Bits128 {
    seq(128, i requires 0 <= i < 128 => BitAt(b[15 - i / 8], i % 8))
  }

  function FromBits(w: F.Bits128): Block {
    seq(16, i requires 0 <= i < 16 => Octet(w, 8 * (15 - i)))
  }

  lemma OctetBitAt(w: W.Word, o: nat, k: nat)
    requires o + 8 <= |w| && k < 8
    ensures BitAt(Octet(w, o), k) == w[o + k]
  {
    hide BitAt, Assemble;
    AssembledBits(w[o], w[o + 1], w[o + 2], w[o + 3], w[o + 4], w[o + 5], w[o + 6], w[o + 7], Octet(w, o));
  }

  lemma XorBitAt(a: bv8, b: bv8, k: nat)
    requires k < 8
    ensures BitAt(Xor(a, b), k) == (BitAt(a, k) != BitAt(b, k))
  {
    if k == 0 {
    } else if k == 1 {
    } else if k == 2 {
    } else if k == 3 {
    } else if k == 4 {
    } else if k == 5 {
    } else if k == 6 {
    } else {
    }
  }

  lemma ToFromBits(w: F.Bits128)
    ensures ToBits(FromBits(w)) == w
  {
    hide BitAt, Octet;
    forall i | 0 <= i < 128 ensures ToBits(FromBits(w))[i] == w[i] {
      var o := 8 * (i / 8);
      assert i == o + i % 8;
      OctetBitAt(w, o, i % 8);
    }
  }

  lemma XorToBits(a: Block, b: Block)
    ensures ToBits(XorBlock(a, b)) == W.Xor(ToBits(a), ToBits(b))
  {
    hide BitAt, Xor;
    forall i | 0 <= i < 128 ensures ToBits(XorBlock(a, b))[i] == W.Xor(ToBits(a), ToBits(b))[i] {
      XorBitAt(a[15 - i / 8], b[15 - i / 8], i % 8);
    }
  }

  function MulBlock(x: Block, y: Block): Block {
    FromBits(F.Mul(ToBits(x), ToBits(y)))
  }

  method MulBlocks(x: Block, y: Block) returns (z: Block)
    ensures z == MulBlock(x, y)
  {
    hide F.Mul, ToBits, FromBits;
    var w := F.MulBits(ToBits(x), ToBits(y));
    z := FromBits(w);
  }

  // ----- GHASH (section 6.4) ----------------------------------------------------------------------------------

  function Ghash(h: Block, x: Bytes): Block
    requires |x| % 16 == 0
  {
    if x == [] then Zeros(16) else MulBlock(XorBlock(Ghash(h, Front(x)), Last(x)), h)
  }

  method GhashBytes(h: Block, x: Bytes) returns (y: Block)
    requires |x| % 16 == 0
    ensures y == Ghash(h, x)
  {
    hide MulBlock, XorBlock, Front, Last;
    y := Zeros(16);
    var m := |x| / 16;
    for i: nat := 0 to m
      invariant y == Ghash(h, x[..16 * i])
    {
      NextBlock(x, i);
      y := MulBlocks(XorBlock(y, x[16 * i..16 * i + 16]), h);
      assert 16 * (i + 1) == 16 * i + 16;
    }
    assert x[..16 * m] == x;
  }

  /** h to the power n + 1. */
  function HPower(h: F.Bits128, n: nat): F.Bits128 {
    if n == 0 then h else F.Mul(HPower(h, n - 1), h)
  }

  /** The sum of the blocks times falling powers of h, the last block times h. */
  function BlockPolynomial(h: F.Bits128, x: Bytes): F.Bits128
    requires |x| % 16 == 0
  {
    if x == [] then F.ZeroBits()
    else W.Xor(F.Mul(ToBits(x[..16]), HPower(h, |x| / 16 - 1)), BlockPolynomial(h, x[16..]))
  }

  lemma {:induction false} PolynomialSnoc(h: F.Bits128, x: Bytes, b: Block)
    requires |x| % 16 == 0
    ensures BlockPolynomial(h, x + b) == F.Mul(W.Xor(BlockPolynomial(h, x), ToBits(b)), h)
  {
    hide F.Mul, W.Xor, ToBits;
    if x == [] {
      assert x + b == b && b[..16] == b && b[16..] == [];
      F.XorZero(F.Mul(ToBits(b), h));
      F.XorZero(ToBits(b));
    } else {
      var n := |x| / 16;
      assert (x + b)[..16] == x[..16] && (x + b)[16..] == x[16..] + b;
      PolynomialSnoc(h, x[16..], b);
      var first, p, rest := ToBits(x[..16]), HPower(h, n - 1), BlockPolynomial(h, x[16..]);
      assert |x + b| / 16 - 1 == n;
      F.MulAssociates(first, p, h);
      F.XorAssoc(F.Mul(first, p), rest, ToBits(b));
      F.MulAddsLeft(F.Mul(first, p), W.Xor(rest, ToBits(b)), h);
    }
  }

  /** GHASH is Horner's rule for the block polynomial at h. */
  lemma {:induction false} GhashIsPolynomial(h: Block, x: Bytes)
    requires |x| % 16 == 0
    ensures ToBits(Ghash(h, x)) == BlockPolynomial(ToBits(h), x)
  {
    hide F.Mul, W.Xor, ToBits, FromBits, XorBlock;
    if x == [] {
      ZeroBlockBits();
    } else {
      GhashIsPolynomial(h, Front(x));
      assert x == Front(x) + Last(x);
      PolynomialSnoc(ToBits(h), Front(x), Last(x));
      XorToBits(Ghash(h, Front(x)), Last(x));
      ToFromBits(F.Mul(ToBits(XorBlock(Ghash(h, Front(x)), Last(x))), ToBits(h)));
    }
  }

  lemma ZeroBlockBits()
    ensures ToBits(Zeros(16)) == F.ZeroBits()
  {
    forall i | 0 <= i < 128 ensures ToBits(Zeros(16))[i] == F.ZeroBits()[i] {
      var k := i % 8;
      assert !BitAt(0, k);
    }
  }

  // ----- GCTR (sections 6.2 and 6.5) ----------------------------------------------------------------------------

  /** The last four bytes count modulo 2^32; the others stay. */
  function Inc32(b: Block): Block {
    b[..12] + AddCarry(b[12..], 1)
  }

  lemma Inc32Adds(b: Block)
    ensures Inc32(b)[..12] == b[..12]
    ensures BeValue(Inc32(b)[12..]) == (BeValue(b[12..]) + 1) % Pow256(4)
  {
    hide BeValue, Pow256, AddCarry;
    AddCarryAdds(b[12..], 1);
    assert Inc32(b)[12..] == AddCarry(b[12..], 1);
  }

  function Inc32Times(b: Block, k: nat): Block {
    if k == 0 then b else Inc32(Inc32Times(b, k - 1))
  }

  function GctrKey(keys: RoundKeys, icb: Block, i: nat): bv8 {
    Encrypt(keys, Inc32Times(icb, i / 16))[i % 16]
  }

  function Gctr(keys: RoundKeys, icb: Block, x: Bytes): (y: Bytes)
    ensures |y| == |x|
  {
    seq(|x|, i requires 0 <= i < |x| => Xor(x[i], GctrKey(keys, icb, i)))
  }

  lemma GctrTwice(keys: RoundKeys, icb: Block, x: Bytes)
    ensures Gctr(keys, icb, Gctr(keys, icb, x)) == x
  {
    hide Xor, GctrKey;
    forall i | 0 <= i < |x| ensures Gctr(keys, icb, Gctr(keys, icb, x))[i] == x[i] {
      var k := GctrKey(keys, icb, i);
      XorAssoc(x[i], k, k);
      XorZero(k);
      XorZero(x[i]);
    }
  }

  /** Up to sixteen bytes, filled up with zeros. */
  function Widen(b: Bytes): Block
    requires |b| <= 16
  {
    b + Zeros(16 - |b|)
  }

  method GctrBytes(keys: RoundKeys, icb: Block, x: Bytes) returns (y: Bytes)
    ensures y == Gctr(keys, icb, x)
  {
    hide Xor, Encrypt, Inc32;
    y := [];
    var n := (|x| + 15) / 16;
    var cb := icb;
    for i: nat := 0 to n
      invariant |y| == if 16 * i <= |x| then 16 * i else |x|
      invariant i > 0 ==> cb == Inc32Times(icb, i - 1)
      invariant i == 0 ==> cb == icb
      invariant forall j :: 0 <= j < |y| ==> y[j] == Xor(x[j], GctrKey(keys, icb, j))
    {
      if i > 0 {
        cb := Inc32(cb);
      }
      var ecb := EncryptState(keys, cb);
      var opSize := if i < n - 1 then 16 else if |x| % 16 != 0 then |x| % 16 else 16;
      var part := x[16 * i..16 * i + opSize];
      var yi := XorBlock(Widen(part), ecb);
      ghost var before := y;
      y := y + yi[..opSize];
      forall j | |before| <= j < |y| ensures y[j] == Xor(x[j], GctrKey(keys, icb, j)) {
        assert j / 16 == i && j % 16 == j - 16 * i;
      }
    }
  }

  // ----- the authenticated mode (sections 7.1 and 7.2) ------------------------------------------------------------

  /** The low k bytes of n, big-endian. */
  function BigEndian(n: nat, k: nat): (b: Bytes)
    ensures |b| == k
  {
    if k == 0 then [] else BigEndian(n / 256, k - 1) + [ByteFrom(n % 256)]
  }

  /** Zeros that fill n bytes up to whole blocks. */
  function Fill(n: nat): (b: Bytes)
    ensures (n + |b|) % 16 == 0 && |b| < 16
  {
    Zeros((16 - n % 16) % 16)
  }

  function HashKey(keys: RoundKeys): Block {
    Encrypt(keys, Zeros(16))
  }

  /** x filled up with zeros to whole blocks. */
  function Filled(x: Bytes): (r: Bytes)
    ensures |r| % 16 == 0
  {
    x + Fill(|x|)
  }

  lemma WholeBlocks(a: nat, b: nat)
    requires a % 16 == 0 && b % 16 == 0
    ensures (a + b) % 16 == 0
  {
  }

  /** A vector that is not twelve bytes long is filled up, then followed by its bit length in sixteen bytes. */
  function VectorInput(iv: Bytes): (r: Bytes)
    ensures |r| % 16 == 0
  {
    WholeBlocks(|Filled(iv)|, 16);
    Filled(iv) + (Zeros(8) + BigEndian(8 * |iv|, 8))
  }

  function J0(h: Block, iv: Bytes): Block {
    if |iv| == 12 then iv + [0, 0, 0, 1]
    else Ghash(h, VectorInput(iv))
  }

  function Lengths(a: nat, c: nat): (r: Bytes)
    ensures |r| == 16
  {
    BigEndian(8 * a, 8) + BigEndian(8 * c, 8)
  }

  /** What the tag hashes: the filled inputs, then both bit lengths. */
  function TagInput(aad: Bytes, c: Bytes): (r: Bytes)
    ensures |r| % 16 == 0
  {
    WholeBlocks(|Filled(aad)|, |Filled(c)|);
    WholeBlocks(|Filled(aad)| + |Filled(c)|, 16);
    Filled(aad) + Filled(c) + Lengths(|aad|, |c|)
  }

  function Tag(keys: RoundKeys, iv: Bytes, aad: Bytes, c: Bytes): Block {
    Gctr(keys, J0(HashKey(keys), iv), Ghash(HashKey(keys), TagInput(aad, c)))
  }

  function Crypt(keys: RoundKeys, iv: Bytes, data: Bytes): (r: Bytes)
    ensures |r| == |data|
  {
    Gctr(keys, Inc32(J0(HashKey(keys), iv)), data)
  }

  function GcmCond(keySize: nat, ivSize: nat, tagSize: nat): Error {
    if !IsValidKeySize(keySize) then InvalidKeySize
    else if ivSize < 1 then InvalidIvSize
    else if (tagSize < 12 || 16 < tagSize) && tagSize != 8 && tagSize != 4 then InvalidTagSize
    else Ok
  }

  /** Encrypting twice restores the plaintext, for every key, vector and length. */
  lemma CryptTwice(keys: RoundKeys, iv: Bytes, data: Bytes)
    ensures Crypt(keys, iv, Crypt(keys, iv, data)) == data
  {
    hide Gctr, J0, HashKey, Inc32;
    GctrTwice(keys, Inc32(J0(HashKey(keys), iv)), data);
  }

  /** Ciphertext and tag of n bytes. */
  function Sealed(keys: RoundKeys, iv: Bytes, aad: Bytes, data: Bytes, n: nat): (Bytes, Bytes)
    requires n <= 16
  {
    var c := Crypt(keys, iv, data);
    (c, Tag(keys, iv, aad, c)[..n])
  }

  /** What a receiver gets: the plaintext behind a matching tag, otherwise the ciphertext as it came. */
  function Opened(keys: RoundKeys, iv: Bytes, aad: Bytes, c: Bytes, tag: Bytes): (Error, Bytes)
    requires |tag| <= 16
  {
    if tag == Tag(keys, iv, aad, c)[..|tag|] then (Ok, Crypt(keys, iv, c)) else (InvalidTag, c)
  }

  /** Opening what was sealed restores the plaintext; with any other tag of that size it is refused. */
  lemma GcmRestores(keys: RoundKeys, iv: Bytes, aad: Bytes, data: Bytes, tag: Bytes)
    requires |tag| <= 16
    ensures var s := Sealed(keys, iv, aad, data, |tag|);
            Opened(keys, iv, aad, s.0, tag) == if tag == s.1 then (Ok, data) else (InvalidTag, s.0)
  {
    hide Crypt, Tag;
    CryptTwice(keys, iv, data);
  }

  method CalcJ0(h: Block, iv: Bytes) returns (j: Block)
    ensures j == J0(h, iv)
  {
    hide Ghash, BigEndian, Fill;
    if |iv| == 12 {
      j := iv + [0, 0, 0, 1];
    } else {
      var ghashIn := iv;
      ghashIn := ghashIn + (Fill(|iv|) + Zeros(8));
      ghashIn := ghashIn + BigEndian(8 * |iv|, 8);
      assert ghashIn == VectorInput(iv);
      j := GhashBytes(h, ghashIn);
    }
  }

  method CalcTag(data: Bytes, aad: Bytes, key: Bytes, iv: Bytes) returns (t: Block)
    requires IsValidKeySize(|key|)
    ensures t == Tag(Schedule(key), iv, aad, data)
  {
    hide Ghash, BigEndian, Encrypt, Schedule, J0, Gctr, Fill;
    var good, rkeys := ExpandKey(key);
    var h := EncryptState(rkeys, Zeros(16));
    var j0 := CalcJ0(h, iv);
    var ghashIn := aad;
    ghashIn := ghashIn + Fill(|aad|);
    ghashIn := ghashIn + data;
    ghashIn := ghashIn + Fill(|data|);
    ghashIn := ghashIn + BigEndian(8 * |aad|, 8);
    ghashIn := ghashIn + BigEndian(8 * |data|, 8);
    assert ghashIn == TagInput(aad, data);
    var s := GhashBytes(h, ghashIn);
    t := GctrBytes(rkeys, j0, s);
  }

  method CryptGcm(data: Bytes, key: Bytes, iv: Bytes) returns (c: Bytes)
    requires IsValidKeySize(|key|)
    ensures c == Crypt(Schedule(key), iv, data)
  {
    hide Encrypt, Schedule, J0, Gctr, Inc32;
    var good, rkeys := ExpandKey(key);
    var h := EncryptState(rkeys, Zeros(16));
    var j0 := CalcJ0(h, iv);
    c := GctrBytes(rkeys, Inc32(j0), data);
  }

  /** In place: data becomes the ciphertext, tag its authentication tag cut to the buffer's length. */
  method EncryptGcm(data: array<bv8>, aad: Bytes, key: Bytes, iv: Bytes, tag: array<bv8>) returns (e: Error)
    requires data != tag
    modifies data, tag
    ensures e == GcmCond(|key|, |iv|, tag.Length)
    ensures e == Ok ==> (data[..], tag[..]) == Sealed(Schedule(key), iv, aad, old(data[..]), tag.Length)
    ensures e != Ok ==> data[..] == old(data[..]) && tag[..] == old(tag[..])
  {
    hide Crypt, Tag, Schedule;
    e := GcmCond(|key|, |iv|, tag.Length);
    if e != Ok {
      return;
    }
    var c := CryptGcm(data[..], key, iv);
    StoreBytes(data, 0, c);
    assert data[..] == c;
    var t := CalcTag(data[..], aad, key, iv);
    StoreBytes(tag, 0, t[..tag.Length]);
    assert tag[..] == t[..tag.Length];
  }

  /** Decrypts in place exactly when the tag is the one of this ciphertext; otherwise leaves the data. */
  method DecryptGcm(data: array<bv8>, aad: Bytes, key: Bytes, iv: Bytes, tag: Bytes) returns (e: Error)
    modifies data
    ensures (e, data[..]) == if GcmCond(|key|, |iv|, |tag|) != Ok
                             then (GcmCond(|key|, |iv|, |tag|), old(data[..]))
                             else Opened(Schedule(key), iv, aad, old(data[..]), tag)
  {
    hide Crypt, Tag, Schedule;
    e := GcmCond(|key|, |iv|, |tag|);
    if e != Ok {
      return;
    }
    var t := CalcTag(data[..], aad, key, iv);
    if tag != t[..|tag|] {
      return InvalidTag;
    }
    var c := CryptGcm(data[..], key, iv);
    StoreBytes(data, 0, c);
    assert data[..] == c;
  }
}
