/** ECB, CBC and CTR modes of src/common/aes.h. Data is a sequence, so output buffers never overlap it. */
module AesModes {
  import opened AesField
  import opened AesCipher
  import opened AesKey
  import opened Division
  import opened Octets
  import opened Options

  datatype Error = Ok | InvalidDataSize | InvalidKeySize | InvalidBufferSize | InvalidKey
                 | InvalidIvSize | InvalidTagSize | InvalidTag

  // ----- blocks ---------------------------------------------------------------------------------------------

  function XorBlock(a: Block, b: Block): (c: Block)
    ensures forall i :: 0 <= i < 16 ==> c[i] == Xor(a[i], b[i])
  {
    seq(16, i requires 0 <= i < 16 => Xor(a[i], b[i]))
  }

  lemma XorBlockBack(a: Block, b: Block)
    ensures XorBlock(XorBlock(a, b), b) == a
  {
    hide Xor;
    forall i | 0 <= i < 16 ensures XorBlock(XorBlock(a, b), b)[i] == a[i] {
      XorAssoc(a[i], b[i], b[i]);
      XorZero(b[i]);
      XorZero(a[i]);
    }
  }

  function Front(data: Bytes): Bytes
    requires |data| >= 16
  {
    data[..|data| - 16]
  }

  function Last(data: Bytes): Block
    requires |data| >= 16
  {
    data[|data| - 16..]
  }

  lemma LastOfAppend(a: Bytes, b: Block)
    ensures Front(a + b) == a && Last(a + b) == b
  {
  }

  /** The first n whole blocks of data, and one block more. */
  lemma NextBlock(data: Bytes, n: nat)
    requires 16 * n + 16 <= |data|
    ensures Front(data[..16 * n + 16]) == data[..16 * n] && Last(data[..16 * n + 16]) == data[16 * n..16 * n + 16]
  {
  }

  method StoreBytes(dst: array<bv8>, off: nat, b: Bytes)
    requires off + |b| <= dst.Length
    modifies dst
    ensures dst[..off] == old(dst[..off]) && dst[off..off + |b|] == b && dst[off + |b|..] == old(dst[off + |b|..])
    ensures dst[..off + |b|] == old(dst[..off]) + b
  {
    forall i | 0 <= i < |b| {
      dst[off + i] := b[i];
    }
  }

  // ----- padding (section 6.3 of RFC 5652) -------------------------------------------------------------------

  function PaddingLength(n: nat): (p: nat)
    ensures 1 <= p <= 16 && (n + p) % 16 == 0
  {
    16 - n % 16
  }

  function Padding(n: nat): (b: Bytes)
    ensures |b| == PaddingLength(n)
  {
    seq(PaddingLength(n), _ => ByteFrom(PaddingLength(n)))
  }

  function Pad(data: Bytes): (b: Bytes)
    ensures |b| % 16 == 0 && |b| > |data|
  {
    data + Padding(|data|)
  }

  /** The claimed padding length is at most 16 and the padding bytes all repeat it. */
  predicate PaddingOk(last: Block) {
    var p := Value(last[15]);
    p <= 16 && forall k :: 16 - p <= k < 16 ==> Value(last[k]) == p
  }

  method CheckPadding(padding: nat, data: Block) returns (ok: bool)
    requires padding == Value(data[15])
    ensures ok <==> PaddingOk(data)
  {
    if padding > 16 {
      return false;
    }
    for i := 0 to padding
      invariant forall k :: 16 - i <= k < 16 ==> Value(data[k]) == padding
    {
      if Value(data[15 - i]) != padding {
        return false;
      }
    }
    return true;
  }

  lemma PadIsOk(data: Bytes)
    ensures PaddingOk(Last(Pad(data))) && Value(Last(Pad(data))[15]) == PaddingLength(|data|)
    ensures Pad(data)[..|Pad(data)| - PaddingLength(|data|)] == data
  {
    hide Value, ByteFrom;
    var p := PaddingLength(|data|);
    ValueRoundTrip(p);
    var last := Last(Pad(data));
    forall k | 16 - p <= k < 16 ensures Value(last[k]) == p {
      assert last[k] == Padding(|data|)[k - (16 - p)];
    }
  }

  // ----- ECB ------------------------------------------------------------------------------------------------

  function EcbEncrypt(keys: RoundKeys, data: Bytes): (c: Bytes)
    requires |data| % 16 == 0
    ensures |c| == |data|
  {
    if data == [] then [] else EcbEncrypt(keys, Front(data)) + Encrypt(keys, Last(data))
  }

  function EcbDecrypt(keys: RoundKeys, data: Bytes): (c: Bytes)
    requires |data| % 16 == 0
    ensures |c| == |data|
  {
    if data == [] then [] else EcbDecrypt(keys, Front(data)) + Decrypt(keys, Last(data))
  }

  lemma {:induction false} EcbRoundTrip(keys: RoundKeys, data: Bytes)
    requires |data| % 16 == 0
    ensures EcbDecrypt(keys, EcbEncrypt(keys, data)) == data
  {
    hide Encrypt, Decrypt;
    if data != [] {
      LastOfAppend(EcbEncrypt(keys, Front(data)), Encrypt(keys, Last(data)));
      EcbRoundTrip(keys, Front(data));
      DecryptEncrypt(keys, Last(data));
    }
  }

  method CheckEncryptCond(dataSize: nat, keySize: nat, encryptedSize: nat, pads: bool) returns (e: Error)
    ensures e == EncryptCond(dataSize, keySize, encryptedSize, pads)
  {
    if !pads && dataSize % 16 != 0 {
      return InvalidDataSize;
    }
    if !IsValidKeySize(keySize) {
      return InvalidKeySize;
    }
    if pads {
      if encryptedSize < PaddedSize(dataSize) {
        return InvalidBufferSize;
      }
    } else {
      if encryptedSize < dataSize {
        return InvalidBufferSize;
      }
    }
    return Ok;
  }

  /** The first complaint, in the order data, key, buffer. */
  function EncryptCond(dataSize: nat, keySize: nat, encryptedSize: nat, pads: bool): Error {
    if !pads && dataSize % 16 != 0 then InvalidDataSize
    else if !IsValidKeySize(keySize) then InvalidKeySize
    else if encryptedSize < (if pads then PaddedSize(dataSize) else dataSize) then InvalidBufferSize
    else Ok
  }

  /** unsigned long has 32 bits on the platform of the shell. */
  const ULONG_MAX := 0xFFFF_FFFF

  /** What get_padded_encrypted_size returns. */
  function PaddedSize(dataSize: nat): nat {
    var size := dataSize + PaddingLength(dataSize);
    if size > ULONG_MAX then size - (ULONG_MAX + 1) else size
  }

  /** The padded size is the size of the padded data, except in the last sixteen sizes, where it is zero. */
  lemma PaddedSizeWraps(dataSize: nat)
    requires dataSize <= ULONG_MAX
    ensures PaddedSize(dataSize) == if dataSize > ULONG_MAX - 16 then 0 else dataSize + PaddingLength(dataSize)
  {
  }

  function Plain(data: Bytes, pads: bool): (b: Bytes)
    requires pads || |data| % 16 == 0
    ensures |b| % 16 == 0
  {
    if pads then Pad(data) else data
  }

  /** Accepted are the key sizes of AES with data, or padded data, in whole blocks that the buffer has room for; and
      with any buffer, data so long that its padded size wraps around to zero. */
  lemma EncryptCondMeans(data: Bytes, keySize: nat, encryptedSize: nat, pads: bool)
    requires |data| <= ULONG_MAX
    ensures EncryptCond(|data|, keySize, encryptedSize, pads) == Ok <==>
              && IsValidKeySize(keySize) && (pads || |data| % 16 == 0)
              && (|Written(data, pads)| <= encryptedSize || (pads && |data| > ULONG_MAX - 16))
  {
    hide ByteFrom;
    PadLength(data);
    PaddedSizeWraps(|data|);
  }

  /** Eight bytes below 2^32 and no room at all: the size test passes. */
  lemma WrappedSizePasses()
    ensures EncryptCond(0xFFFF_FFF8, 16, 0, true) == Ok
  {
    PaddedSizeWraps(0xFFFF_FFF8);
  }

  /** What takes up room: the padded data, or the data. */
  function Written(data: Bytes, pads: bool): Bytes {
    if pads then Pad(data) else data
  }

  /** The block that holds the padding: what remains of the data, then the padding bytes. */
  method PaddedBlock(data: Bytes) returns (ib: Block)
    ensures ib == Last(Pad(data))
    ensures Front(Pad(data)) == data[..|data| / 16 * 16]
  {
    hide ByteFrom;
    var rem := |data| % 16;
    var padV := ByteFrom(16 - rem);
    ib := data[|data| - rem..] + seq(16 - rem, _ => padV);
    assert Pad(data) == data[..|data| - rem] + ib;
    LastOfAppend(data[..|data| - rem], ib);
  }

  /** Data whose padded size wraps around passes the size test with a buffer that has no room for it, and is written
      past its end: inside is false and nothing more is promised. */
  method EncryptEcb(data: Bytes, key: Bytes, encrypted: array<bv8>, pads: bool) returns (e: Error, inside: bool)
    requires |data| <= ULONG_MAX && encrypted.Length <= ULONG_MAX
    modifies encrypted
    ensures e == EncryptCond(|data|, |key|, encrypted.Length, pads)
    ensures inside <==> e == Ok ==> |Plain(data, pads)| <= encrypted.Length
    ensures e == Ok && (!pads || |data| <= ULONG_MAX - 16) ==> inside
    ensures e != Ok ==> encrypted[..] == old(encrypted[..])
    ensures e == Ok && inside ==> var p := Plain(data, pads);
              && encrypted[..|p|] == EcbEncrypt(Schedule(key), p)
              && encrypted[|p|..] == old(encrypted[|p|..])
  {
    hide Encrypt, Schedule, Pad, Front, Last;
    inside := true;
    e := CheckEncryptCond(|data|, |key|, encrypted.Length, pads);
    if e != Ok {
      return;
    }
    EncryptCondMeans(data, |key|, encrypted.Length, pads);
    PadLength(data);
    if encrypted.Length < if pads then |data| + 16 - |data| % 16 else |data| {
      return Ok, false;
    }
    var good, rkeys := ExpandKey(key);
    var bc := |data| / 16;
    for i: nat := 0 to bc
      invariant encrypted[..16 * i] == EcbEncrypt(rkeys, data[..16 * i])
      invariant encrypted[16 * bc..] == old(encrypted[16 * bc..])
    {
      NextBlock(data, i);
      var b := EncryptState(rkeys, data[16 * i..16 * i + 16]);
      StoreBytes(encrypted, 16 * i, b);
      assert 16 * (i + 1) == 16 * i + 16;
    }
    if pads {
      var ib := PaddedBlock(data);
      var ob := EncryptState(rkeys, ib);
      StoreBytes(encrypted, 16 * bc, ob);
    } else {
      assert data[..16 * bc] == data;
    }
  }

  /** The first complaint; without data, the size less one block wraps around. */
  function DecryptCond(dataSize: nat, keySize: nat, decryptedSize: nat, unpads: bool): Error {
    if dataSize % 16 != 0 then InvalidDataSize
    else if !IsValidKeySize(keySize) then InvalidKeySize
    else if unpads then (if decryptedSize < LessOneBlock(dataSize) then InvalidBufferSize else Ok)
    else if decryptedSize < dataSize then InvalidBufferSize
    else Ok
  }

  /** dataSize - 16 as an unsigned long. */
  function LessOneBlock(dataSize: nat): nat {
    if dataSize < 16 then dataSize + (ULONG_MAX + 1) - 16 else dataSize - 16
  }

  method CheckDecryptCond(dataSize: nat, keySize: nat, decryptedSize: nat, unpads: bool) returns (e: Error)
    ensures e == DecryptCond(dataSize, keySize, decryptedSize, unpads)
  {
    if dataSize % 16 != 0 {
      return InvalidDataSize;
    }
    if !IsValidKeySize(keySize) {
      return InvalidKeySize;
    }
    if !unpads {
      if decryptedSize < dataSize {
        return InvalidBufferSize;
      }
    } else {
      if decryptedSize < LessOneBlock(dataSize) {
        return InvalidBufferSize;
      }
    }
    return Ok;
  }

  /** What decryption reports for the decrypted bytes: all of them, or those before valid padding. */
  function Outcome(full: Bytes, decryptedSize: nat, unpads: bool): (r: (Error, nat))
    requires |full| >= 16
    ensures r.0 == Ok ==> r.1 <= |full| && r.1 <= 16
  {
    if !unpads then (Ok, 0)
    else
      var p := Value(Last(full)[15]);
      if !PaddingOk(Last(full)) then (InvalidKey, p)
      else if decryptedSize < |full| - p then (InvalidBufferSize, p)
      else (Ok, p)
  }

  /** A buffer the size test refuses cannot hold what decryption gives, whatever the padding. */
  lemma SizeTestIsSound(full: Bytes, keySize: nat, decryptedSize: nat, unpads: bool)
    requires IsValidKeySize(keySize) && |full| % 16 == 0 && |full| > 0
    requires var o := Outcome(full, decryptedSize, unpads); o.0 == Ok && |full| - o.1 <= decryptedSize
    ensures DecryptCond(|full|, keySize, decryptedSize, unpads) == Ok
  {
    hide Value, PaddingOk;
  }

  /** A buffer it accepts holds what decryption gives for some padding. */
  lemma SizeTestIsTight(dataSize: nat, keySize: nat, decryptedSize: nat, unpads: bool) returns (full: Bytes)
    requires DecryptCond(dataSize, keySize, decryptedSize, unpads) == Ok && dataSize > 0
    ensures |full| == dataSize
    ensures var o := Outcome(full, decryptedSize, unpads); o.0 == Ok && |full| - o.1 <= decryptedSize
  {
    hide Value, ByteFrom, PaddingOk, Padding;
    var data: Bytes := seq(dataSize - 16, _ => 0);
    PadIsOk(data);
    full := Pad(data);
  }

  /** Writes the last decrypted block, without its padding when it is to be removed. */
  method FinishDecrypt(last: Block, decrypted: array<bv8>, off: nat, unpads: bool, ghost full: Bytes)
    returns (e: Error, paddedSize: nat)
    requires |full| == off + 16 && last == Last(full)
    requires off <= decrypted.Length && (!unpads ==> off + 16 <= decrypted.Length)
    requires decrypted[..off] == Front(full)
    modifies decrypted
    ensures (e, paddedSize) == Outcome(full, decrypted.Length, unpads)
    ensures e == Ok ==> |full| - paddedSize <= decrypted.Length
    ensures e == Ok ==> decrypted[..|full| - paddedSize] == full[..|full| - paddedSize]
  {
    hide PaddingOk, Value;
    paddedSize := 0;
    assert full == Front(full) + last;
    if unpads {
      paddedSize := Value(last[15]);
      var good := CheckPadding(paddedSize, last);
      if !good {
        return InvalidKey, paddedSize;
      }
      PaddingIsShort(last);
      var cs := 16 - paddedSize;
      if decrypted.Length < off + cs {
        return InvalidBufferSize, paddedSize;
      }
      StoreBytes(decrypted, off, last[..cs]);
      assert full[..off + cs] == Front(full) + last[..cs];
    } else {
      StoreBytes(decrypted, off, last);
      assert full[..|full| - 0] == full;
    }
    e := Ok;
  }

  lemma PaddingIsShort(last: Block)
    requires PaddingOk(last)
    ensures Value(last[15]) <= 16
  {
  }

  /** Removes padding when asked to, and then reports its length. Without data and without padding to remove, the count
      of blocks but one wraps around and the code leaves its buffers: inside is false and nothing more is promised. */
  method DecryptEcb(data: Bytes, key: Bytes, decrypted: array<bv8>, unpads: bool)
    returns (e: Error, paddedSize: nat, inside: bool)
    requires |data| <= ULONG_MAX && decrypted.Length <= ULONG_MAX
    modifies decrypted
    ensures inside <==> DecryptCond(|data|, |key|, decrypted.Length, unpads) == Ok ==> data != []
    ensures var c := DecryptCond(|data|, |key|, decrypted.Length, unpads);
            if c != Ok then e == c
            else inside ==>
              var full := EcbDecrypt(Schedule(key), data);
              && (e, paddedSize) == Outcome(full, decrypted.Length, unpads)
              && (e == Ok ==> |full| - paddedSize <= decrypted.Length &&
                              decrypted[..|full| - paddedSize] == full[..|full| - paddedSize])
  {
    hide Decrypt, Schedule, Front, Last, Outcome;
    paddedSize, inside := 0, true;
    e := CheckDecryptCond(|data|, |key|, decrypted.Length, unpads);
    if e != Ok {
      return;
    }
    if data == [] {
      return Ok, 0, false;
    }
    var good, rkeys := ExpandKey(key);
    var bc: nat := |data| / 16 - 1;
    for i: nat := 0 to bc
      invariant decrypted[..16 * i] == EcbDecrypt(rkeys, data[..16 * i])
    {
      NextBlock(data, i);
      var b := DecryptState(rkeys, data[16 * i..16 * i + 16]);
      StoreBytes(decrypted, 16 * i, b);
      assert 16 * (i + 1) == 16 * i + 16;
    }
    NextBlock(data, bc);
    assert data[..16 * bc + 16] == data && data[16 * bc..16 * bc + 16] == data[16 * bc..];
    var last := DecryptState(rkeys, data[16 * bc..]);
    LastOfAppend(EcbDecrypt(rkeys, data[..16 * bc]), last);
    e, paddedSize := FinishDecrypt(last, decrypted, 16 * bc, unpads, EcbDecrypt(rkeys, data));
  }

  // ----- CBC ------------------------------------------------------------------------------------------------

  /** The block the first one is chained to: the vector, or nothing. */
  function Chain(b: Block, iv: Option<Block>): Block {
    if iv.Some? then XorBlock(b, iv.value) else b
  }

  /** The ciphertext block before the next one. */
  function Previous(c: Bytes, iv: Option<Block>): Option<Block>
    requires |c| % 16 == 0
  {
    if c == [] then iv else Some(Last(c))
  }

  function CbcEncrypt(keys: RoundKeys, iv: Option<Block>, data: Bytes): (c: Bytes)
    requires |data| % 16 == 0
    ensures |c| == |data|
    decreases |data|
  {
    if data == [] then []
    else
      var c := CbcEncrypt(keys, iv, Front(data));
      c + Encrypt(keys, Chain(Last(data), Previous(c, iv)))
  }

  function CbcDecrypt(keys: RoundKeys, iv: Option<Block>, c: Bytes): (data: Bytes)
    requires |c| % 16 == 0
    ensures |data| == |c|
    decreases |c|
  {
    if c == [] then []
    else CbcDecrypt(keys, iv, Front(c)) + Chain(Decrypt(keys, Last(c)), Previous(Front(c), iv))
  }

  lemma {:induction false} CbcRoundTrip(keys: RoundKeys, iv: Option<Block>, data: Bytes)
    requires |data| % 16 == 0
    ensures CbcDecrypt(keys, iv, CbcEncrypt(keys, iv, data)) == data
    decreases |data|
  {
    hide Encrypt, Decrypt, XorBlock;
    if data != [] {
      var c := CbcEncrypt(keys, iv, Front(data));
      var prev := Previous(c, iv);
      LastOfAppend(c, Encrypt(keys, Chain(Last(data), prev)));
      CbcRoundTrip(keys, iv, Front(data));
      DecryptEncrypt(keys, Chain(Last(data), prev));
      if prev.Some? {
        XorBlockBack(Last(data), prev.value);
      }
    }
  }

  lemma ShortPad(data: Bytes)
    requires |data| < 16
    ensures |Pad(data)| == 16 && Last(Pad(data)) == Pad(data)
  {
    hide ByteFrom;
  }

  /** The first block: sixteen bytes of data, or all of it with its padding. */
  method EncryptFirst(rkeys: RoundKeys, data: Bytes, iv: Option<Block>, encrypted: array<bv8>)
    requires encrypted.Length >= 16
    modifies encrypted
    ensures encrypted[..16] == CbcEncrypt(rkeys, iv, if |data| >= 16 then data[..16] else Pad(data))
    ensures encrypted[16..] == old(encrypted[16..])
  {
    hide Encrypt, Pad, Front, Last, XorBlock, CbcEncrypt, Chain;
    var s: Block;
    if |data| >= 16 {
      s := data[..16];
    } else {
      s := PaddedBlock(data);
      ShortPad(data);
    }
    ghost var plain := s;
    s := Chain(s, iv);
    var first := EncryptState(rkeys, s);
    StoreBytes(encrypted, 0, first);
    CbcOneBlock(rkeys, iv, plain, first);
    assert encrypted[..16] == first;
  }

  /** The last block of the data so far, chained to the ciphertext already in the buffer. */
  method EncryptNext(rkeys: RoundKeys, ghost soFar: Bytes, block: Block, iv: Option<Block>, encrypted: array<bv8>,
                     off: nat)
    requires 16 <= off <= encrypted.Length - 16
    requires |soFar| == off + 16 && |soFar| % 16 == 0 && Last(soFar) == block
    requires encrypted[..off] == CbcEncrypt(rkeys, iv, Front(soFar))
    modifies encrypted
    ensures encrypted[..off + 16] == CbcEncrypt(rkeys, iv, soFar)
    ensures encrypted[off + 16..] == old(encrypted[off + 16..])
  {
    hide Encrypt, XorBlock, CbcEncrypt;
    ghost var c := encrypted[..off];
    LastBefore(c);
    var s := XorBlock(block, encrypted[off - 16..off]);
    assert encrypted[off - 16..off] == c[off - 16..];
    var b := EncryptState(rkeys, s);
    StoreBytes(encrypted, off, b);
    CbcAppend(rkeys, iv, soFar);
  }

  lemma CbcAppend(keys: RoundKeys, iv: Option<Block>, soFar: Bytes)
    requires |soFar| % 16 == 0 && |soFar| > 16
    ensures var c := CbcEncrypt(keys, iv, Front(soFar));
            CbcEncrypt(keys, iv, soFar) == c + Encrypt(keys, XorBlock(Last(soFar), Last(c)))
  {
    hide Encrypt, Last, XorBlock;
  }

  /** What CBC encrypts. A first block is written in any case, so without data and padding it is the block of
      padding. */
  function CbcPlain(data: Bytes, pads: bool): (b: Bytes)
    requires pads || |data| % 16 == 0
    ensures |b| % 16 == 0 && |b| >= 16
  {
    AtLeastABlock(|Pad(data)|);
    AtLeastABlock(|data|);
    if pads || data == [] then Pad(data) else data
  }

  lemma AtLeastABlock(n: nat)
    ensures n % 16 == 0 && n > 0 ==> n >= 16
  {
  }

  /** Without data and padding the size test asks for no room at all. */
  lemma EmptyDataPasses()
    ensures EncryptCond(0, 16, 0, false) == Ok && |CbcPlain([], false)| == 16
    ensures DecryptCond(0, 16, 0, false) == Ok
  {
    PadLength([]);
  }

  /** Behind the size test, what CBC writes fits the buffer unless the padded size wraps around, or there is no data and
      the buffer does not hold a block. */
  lemma CbcNeeds(data: Bytes, keySize: nat, encryptedSize: nat, pads: bool)
    requires EncryptCond(|data|, keySize, encryptedSize, pads) == Ok && |data| <= ULONG_MAX
    ensures pads || |data| % 16 == 0
    ensures !(pads && |data| > ULONG_MAX - 16) && (data != [] || pads || encryptedSize >= 16) ==>
              |CbcPlain(data, pads)| <= encryptedSize
  {
    PadLength(data);
    PaddedSizeWraps(|data|);
  }

  method EncryptCbc(data: Bytes, key: Bytes, iv: Option<Block>, encrypted: array<bv8>, pads: bool)
    returns (e: Error, inside: bool)
    requires |data| <= ULONG_MAX && encrypted.Length <= ULONG_MAX
    modifies encrypted
    ensures e == EncryptCond(|data|, |key|, encrypted.Length, pads)
    ensures inside <==> e == Ok ==> |CbcPlain(data, pads)| <= encrypted.Length
    ensures e == Ok && !(pads && |data| > ULONG_MAX - 16) && (data != [] || pads || encrypted.Length >= 16) ==> inside
    ensures e != Ok ==> encrypted[..] == old(encrypted[..])
    ensures e == Ok && inside ==> var p := CbcPlain(data, pads);
              && encrypted[..|p|] == CbcEncrypt(Schedule(key), iv, p)
              && encrypted[|p|..] == old(encrypted[|p|..])
  {
    hide Schedule, CbcEncrypt;
    inside := true;
    e := CheckEncryptCond(|data|, |key|, encrypted.Length, pads);
    if e != Ok {
      return;
    }
    CbcNeeds(data, |key|, encrypted.Length, pads);
    PadLength(data);
    if encrypted.Length < if pads || data == [] then |data| + 16 - |data| % 16 else |data| {
      return Ok, false;
    }
    var good, rkeys := ExpandKey(key);
    EncryptCbcBlocks(rkeys, data, iv, encrypted, pads);
  }

  method EncryptCbcBlocks(rkeys: RoundKeys, data: Bytes, iv: Option<Block>, encrypted: array<bv8>, pads: bool)
    requires (pads || |data| % 16 == 0) && |CbcPlain(data, pads)| <= encrypted.Length
    modifies encrypted
    ensures var p := CbcPlain(data, pads);
            encrypted[..|p|] == CbcEncrypt(rkeys, iv, p) && encrypted[|p|..] == old(encrypted[|p|..])
  {
    hide Pad, Front, Last, CbcEncrypt;
    PadLength(data);
    EncryptFirst(rkeys, data, iv, encrypted);
    if |data| < 16 {
      ShortPad(data);
      return;
    }
    var end := WholeBlocks(data);
    EncryptMiddle(rkeys, data, iv, encrypted, end);
    if pads {
      var ib := PaddedBlock(data);
      ghost var rest := encrypted[end..];
      EncryptNext(rkeys, Pad(data), ib, iv, encrypted, end);
      assert encrypted[end + 16..] == rest[16..];
    } else {
      assert data[..end] == data;
    }
  }

  /** The length of the whole blocks of data. */
  method WholeBlocks(data: Bytes) returns (end: nat)
    ensures end == |data| / 16 * 16 && end % 16 == 0 && end <= |data| < end + 16
    ensures |Pad(data)| == end + 16 && (|data| % 16 == 0 ==> end == |data|)
  {
    hide Pad;
    PadLength(data);
    end := |data| / 16 * 16;
  }

  /** The whole blocks after the first one. */
  method EncryptMiddle(rkeys: RoundKeys, data: Bytes, iv: Option<Block>, encrypted: array<bv8>, end: nat)
    requires 16 <= end <= |data| && end % 16 == 0 && end <= encrypted.Length
    requires encrypted[..16] == CbcEncrypt(rkeys, iv, data[..16])
    modifies encrypted
    ensures encrypted[..end] == CbcEncrypt(rkeys, iv, data[..end])
    ensures encrypted[end..] == old(encrypted[16..])[end - 16..]
  {
    hide Pad, Front, Last, CbcEncrypt;
    var off := 16;
    while off < end
      invariant off % 16 == 0 && 16 <= off <= end
      invariant encrypted[..off] == CbcEncrypt(rkeys, iv, data[..off])
      invariant encrypted[end..] == old(encrypted[end..])
    {
      NextBlock(data, off / 16);
      ghost var rest := encrypted[off + 16..];
      EncryptNext(rkeys, data[..off + 16], data[off..off + 16], iv, encrypted, off);
      assert encrypted[end..] == rest[end - off - 16..];
      off := off + 16;
    }
  }

  lemma PadLength(data: Bytes)
    ensures |Pad(data)| == |data| + PaddingLength(|data|) == |data| / 16 * 16 + 16
  {
  }

  lemma LastBefore(c: Bytes)
    requires |c| >= 16
    ensures Last(c) == c[|c| - 16..|c|]
  {
  }

  lemma CbcOneBlock(keys: RoundKeys, iv: Option<Block>, data: Bytes, c: Block)
    requires |data| == 16 && c == Encrypt(keys, Chain(data, iv))
    ensures CbcEncrypt(keys, iv, data) == c && Last(data) == data
  {
    hide Encrypt, XorBlock;
    assert Front(data) == [];
    assert CbcEncrypt(keys, iv, Front(data)) == [];
  }

  lemma LastDecrypted(keys: RoundKeys, iv: Option<Block>, c: Bytes)
    requires |c| % 16 == 0 && c != []
    ensures CbcDecrypt(keys, iv, c)
                == CbcDecrypt(keys, iv, Front(c)) + Chain(Decrypt(keys, Last(c)), Previous(Front(c), iv))
  {
  }

  lemma BlockAt(data: Bytes, off: nat)
    requires off + 16 <= |data|
    ensures Front(data[..off + 16]) == data[..off] && Last(data[..off + 16]) == data[off..off + 16]
    ensures off >= 16 ==> Last(data[..off]) == data[off - 16..off]
  {
  }

  /** Decrypts the block at off and chains it to the ciphertext block before it. */
  method DecryptChained(rkeys: RoundKeys, data: Bytes, off: nat, iv: Option<Block>) returns (b: Block)
    requires |data| % 16 == 0 && off % 16 == 0 && off + 16 <= |data|
    ensures CbcDecrypt(rkeys, iv, data[..off + 16]) == CbcDecrypt(rkeys, iv, data[..off]) + b
  {
    hide Decrypt, XorBlock, Front, Last, CbcDecrypt;
    BlockAt(data, off);
    LastDecrypted(rkeys, iv, data[..off + 16]);
    b := DecryptState(rkeys, data[off..off + 16]);
    if off == 0 {
      b := Chain(b, iv);
    } else {
      b := XorBlock(b, data[off - 16..off]);
    }
  }

  /** The blocks decrypt_cbc decrypts straight into the buffer: the first one and all but the last. */
  ghost predicate WritesInside(dataSize: nat, decryptedSize: nat) {
    forall i: nat :: DirectBlock(i, dataSize) ==> 16 * i + 16 <= decryptedSize
  }

  predicate DirectBlock(i: nat, dataSize: nat) {
    i == 0 || i + 1 < dataSize / 16
  }

  /** Behind the size test, the direct writes stay inside the buffer exactly when it holds a block. */
  lemma WritesStayInside(dataSize: nat, keySize: nat, decryptedSize: nat, unpads: bool)
    requires DecryptCond(dataSize, keySize, decryptedSize, unpads) == Ok
    ensures WritesInside(dataSize, decryptedSize) <==> decryptedSize >= 16
  {
    assert DirectBlock(0, dataSize);
  }

  /** Five bytes, padded to one block and decrypted into a buffer of five: the size test passes and the first block is
      written past the end. */
  lemma FiveBytesLeaveTheBuffer()
    ensures var data: Bytes := [1, 2, 3, 4, 5];
            |Pad(data)| == 16 && DecryptCond(16, 16, |data|, true) == Ok && !WritesInside(16, |data|)
  {
    var data: Bytes := [1, 2, 3, 4, 5];
    PadLength(data);
    WritesStayInside(16, 16, |data|, true);
  }

  /** As DecryptEcb; the first block is decrypted into the buffer even when it is the only one, so the code leaves a
      buffer that does not hold a block. */
  method DecryptCbc(data: Bytes, key: Bytes, iv: Option<Block>, decrypted: array<bv8>, unpads: bool)
    returns (e: Error, paddedSize: nat, inside: bool)
    requires |data| <= ULONG_MAX && decrypted.Length <= ULONG_MAX
    modifies decrypted
    ensures inside <==> DecryptCond(|data|, |key|, decrypted.Length, unpads) == Ok ==>
                          data != [] && WritesInside(|data|, decrypted.Length)
    ensures var c := DecryptCond(|data|, |key|, decrypted.Length, unpads);
            if c != Ok then e == c
            else inside ==>
              var full := CbcDecrypt(Schedule(key), iv, data);
              && (e, paddedSize) == Outcome(full, decrypted.Length, unpads)
              && (e == Ok ==> |full| - paddedSize <= decrypted.Length &&
                              decrypted[..|full| - paddedSize] == full[..|full| - paddedSize])
  {
    hide Decrypt, Schedule, Front, Last, Outcome, CbcDecrypt, Chain;
    paddedSize, inside := 0, true;
    e := CheckDecryptCond(|data|, |key|, decrypted.Length, unpads);
    if e != Ok {
      return;
    }
    WritesStayInside(|data|, |key|, decrypted.Length, unpads);
    if data == [] || decrypted.Length < 16 {
      return Ok, 0, false;
    }
    var good, rkeys := ExpandKey(key);
    var first := DecryptChained(rkeys, data, 0, iv);
    StoreBytes(decrypted, 0, first);
    CbcDecryptNothing(rkeys, iv, data);
    var bc: nat := |data| / 16 - 1;
    for i: nat := 1 to if bc > 1 then bc else 1
      invariant decrypted[..16 * i] == CbcDecrypt(rkeys, iv, data[..16 * i])
    {
      var b := DecryptChained(rkeys, data, 16 * i, iv);
      StoreBytes(decrypted, 16 * i, b);
      assert 16 * (i + 1) == 16 * i + 16;
    }
    var last: Block;
    ghost var full := CbcDecrypt(rkeys, iv, data);
    if |data| > 16 {
      last := DecryptChained(rkeys, data, 16 * bc, iv);
      assert data[..16 * bc + 16] == data;
    } else {
      last := decrypted[..16];
      assert data[..16] == data;
      forall i | 0 <= i < decrypted.Length {
        decrypted[i] := 0;
      }
    }
    LastOfAppend(CbcDecrypt(rkeys, iv, data[..16 * bc]), last);
    e, paddedSize := FinishDecrypt(last, decrypted, 16 * bc, unpads, full);
  }

  lemma CbcDecryptNothing(keys: RoundKeys, iv: Option<Block>, data: Bytes)
    ensures data[..0] == [] && CbcDecrypt(keys, iv, []) == []
  {
  }

  // ----- what decryption gives back ----------------------------------------------------------------------------

  /** Enough room for the data is enough to decrypt it. */
  lemma DecryptAccepts(data: Bytes, keySize: nat, decryptedSize: nat, pads: bool)
    requires IsValidKeySize(keySize) && (if pads then true else data != [] && |data| % 16 == 0)
    requires decryptedSize >= |data|
    ensures DecryptCond(|Plain(data, pads)|, keySize, decryptedSize, pads) == Ok
    ensures var o := Outcome(Plain(data, pads), decryptedSize, pads);
            o.0 == Ok && Plain(data, pads)[..|Plain(data, pads)| - o.1] == data
  {
    hide Value, PaddingOk;
    if pads {
      PadIsOk(data);
      PadLength(data);
    }
  }

  /** Decrypting what EncryptEcb produced succeeds and restores the data, of any length when padded. */
  lemma EcbRestores(key: Bytes, data: Bytes, decryptedSize: nat, pads: bool)
    requires IsValidKeySize(|key|) && (if pads then true else data != [] && |data| % 16 == 0)
    requires decryptedSize >= |data|
    ensures var c := EcbEncrypt(Schedule(key), Plain(data, pads));
            var full := EcbDecrypt(Schedule(key), c);
            var o := Outcome(full, decryptedSize, pads);
            && DecryptCond(|c|, |key|, decryptedSize, pads) == Ok
            && o.0 == Ok && full[..|full| - o.1] == data
  {
    hide Schedule, Outcome, Encrypt, Decrypt;
    EcbRoundTrip(Schedule(key), Plain(data, pads));
    DecryptAccepts(data, |key|, decryptedSize, pads);
  }

  /** The same for CBC, with and without an initialisation vector, into a buffer that holds a block; into a smaller one
      the size test still passes, but the code writes past the end. */
  lemma CbcRestores(key: Bytes, iv: Option<Block>, data: Bytes, decryptedSize: nat, pads: bool)
    requires IsValidKeySize(|key|) && (if pads then true else data != [] && |data| % 16 == 0)
    requires decryptedSize >= |data|
    ensures var c := CbcEncrypt(Schedule(key), iv, Plain(data, pads));
            && DecryptCond(|c|, |key|, decryptedSize, pads) == Ok
            && (WritesInside(|c|, decryptedSize) <==> decryptedSize >= 16)
    ensures decryptedSize >= 16 ==>
              var full := CbcDecrypt(Schedule(key), iv, CbcEncrypt(Schedule(key), iv, Plain(data, pads)));
              var o := Outcome(full, decryptedSize, pads);
              o.0 == Ok && full[..|full| - o.1] == data
  {
    hide Schedule, Outcome, Encrypt, Decrypt;
    CbcRoundTrip(Schedule(key), iv, Plain(data, pads));
    DecryptAccepts(data, |key|, decryptedSize, pads);
    WritesStayInside(|Plain(data, pads)|, |key|, decryptedSize, pads);
  }

  /** There and back, into a buffer of the given size. */
  method EncryptThenDecryptCbc(data: Bytes, key: Bytes, iv: Option<Block>, size: nat, pads: bool)
    returns (restored: Bytes, inside: bool)
    requires IsValidKeySize(|key|) && (if pads then true else data != [] && |data| % 16 == 0)
    requires |data| <= size <= ULONG_MAX && |Plain(data, pads)| <= ULONG_MAX
    ensures inside <==> size >= 16
    ensures inside ==> restored == data
  {
    hide Schedule, CbcEncrypt, CbcDecrypt, Outcome, Pad, WritesInside;
    CbcRestores(key, iv, data, size, pads);
    PadLength(data);
    var n := |data| + if pads then 16 - |data| % 16 else 0;
    var encrypted, decrypted := new bv8[n], new bv8[size];
    var e, good := EncryptCbc(data, key, iv, encrypted, pads);
    assert encrypted[..] == encrypted[..n];
    var f, padded, stays := DecryptCbc(encrypted[..], key, iv, decrypted, pads);
    restored, inside := [], stays;
    if stays {
      restored := decrypted[..n - padded];
    }
  }

  // ----- CTR --------------------------------------------------------------------------------------------------

  /** A big-endian number. */
  function BeValue(b: Bytes): nat {
    if b == [] then 0 else 256 * BeValue(b[..|b| - 1]) + Value(b[|b| - 1])
  }

  /** Adds c to the last byte and carries to the front. */
  function AddCarry(b: Bytes, c: nat): (r: Bytes)
    ensures |r| == |b|
  {
    if b == [] then []
    else
      var v := Value(b[|b| - 1]) + c;
      AddCarry(b[..|b| - 1], v / 256) + [ByteFrom(v % 256)]
  }

  lemma ModStep(x: nat, r: nat, p: nat)
    requires p >= 1 && r < 256
    ensures (256 * x + r) % (256 * p) == 256 * (x % p) + r
  {
    var q, m := x / p, x % p;
    Divide(x, p);
    Regroup(q, 256, p);
    QuotientIs(256 * x + r, q, 256 * m + r, 256 * p);
  }

  lemma {:induction false} AddCarryAdds(b: Bytes, c: nat)
    ensures BeValue(AddCarry(b, c)) == (BeValue(b) + c) % Pow256(|b|)
  {
    hide Value, ByteFrom;
    if b != [] {
      var front, v := b[..|b| - 1], Value(b[|b| - 1]) + c;
      AddCarryAdds(front, v / 256);
      ValueRoundTrip(v % 256);
      assert AddCarry(b, c)[..|b| - 1] == AddCarry(front, v / 256);
      ModStep(BeValue(front) + v / 256, v % 256, Pow256(|b| - 1));
    }
  }

  method IncrCounter(counter: array<bv8>)
    requires counter.Length == 16
    modifies counter
    ensures counter[..] == AddCarry(old(counter[..]), 1)
  {
    hide Value, ByteFrom;
    var n, c: nat := 16, 1;
    assert counter[..16] == counter[..];
    while n > 0
      invariant 0 <= n <= 16
      invariant counter[..n] == old(counter[..n])
      invariant AddCarry(counter[..n], c) + counter[n..] == AddCarry(old(counter[..]), 1)
    {
      ghost var head, tail := counter[..n], counter[n..];
      n := n - 1;
      c := c + Value(counter[n]);
      counter[n] := ByteFrom(c % 256);
      c := c / 256;
      assert head[..n] == counter[..n];
      assert counter[n..] == [counter[n]] + tail;
    }
    assert counter[0..] == counter[..];
  }

  /** The k-th counter block after the nonce. */
  function CounterAt(nonce: Block, k: nat): Block {
    if k == 0 then nonce else AddCarry(CounterAt(nonce, k - 1), 1)
  }

  lemma ModAddOne(v: nat, p: nat)
    requires p >= 1
    ensures (v % p + 1) % p == (v + 1) % p
  {
    var q, m := v / p, v % p;
    assert v == p * q + m;
    if m + 1 < p {
      QuotientIs(v + 1, q, m + 1, p);
      QuotientIs(m + 1, 0, m + 1, p);
    } else {
      assert v + 1 == p * (q + 1) + 0;
      QuotientIs(v + 1, q + 1, 0, p);
      QuotientIs(p, 1, 0, p);
    }
  }

  lemma {:induction false} BeValueBound(b: Bytes)
    ensures BeValue(b) < Pow256(|b|)
  {
    if b != [] {
      BeValueBound(b[..|b| - 1]);
    }
  }

  /** Counter k is the nonce plus k modulo 2^128. */
  lemma {:induction false} CounterIsSum(nonce: Block, k: nat)
    ensures BeValue(CounterAt(nonce, k)) == (BeValue(nonce) + k) % Pow256(16)
  {
    hide BeValue, Pow256, AddCarry;
    var p := Pow256(16);
    if k == 0 {
      BeValueBound(nonce);
      QuotientIs(BeValue(nonce), 0, BeValue(nonce), p);
    } else {
      CounterIsSum(nonce, k - 1);
      var v: nat := BeValue(nonce) + (k - 1);
      AddCarryAdds(CounterAt(nonce, k - 1), 1);
      assert BeValue(CounterAt(nonce, k)) == (v % p + 1) % p;
      ModAddOne(v, p);
    }
  }

  function Keystream(keys: RoundKeys, nonce: Block, i: nat): bv8 {
    Encrypt(keys, CounterAt(nonce, i / 16))[i % 16]
  }

  function Ctr(keys: RoundKeys, nonce: Block, data: Bytes): (r: Bytes)
    ensures |r| == |data|
  {
    seq(|data|, i requires 0 <= i < |data| => Xor(data[i], Keystream(keys, nonce, i)))
  }

  /** Applying CTR twice restores the data. */
  lemma CtrTwice(keys: RoundKeys, nonce: Block, data: Bytes)
    ensures Ctr(keys, nonce, Ctr(keys, nonce, data)) == data
  {
    hide Xor, Keystream;
    forall i | 0 <= i < |data| ensures Ctr(keys, nonce, Ctr(keys, nonce, data))[i] == data[i] {
      var k := Keystream(keys, nonce, i);
      XorAssoc(data[i], k, k);
      XorZero(k);
      XorZero(data[i]);
    }
  }

  /** In place; the key stream is produced block by block as the position reaches it. */
  method CryptCtr(data: array<bv8>, key: Bytes, nonce: Block) returns (e: Error)
    modifies data
    ensures e == if IsValidKeySize(|key|) then Ok else InvalidKeySize
    ensures e == Ok ==> data[..] == Ctr(Schedule(key), nonce, old(data[..]))
    ensures e != Ok ==> data[..] == old(data[..])
  {
    hide Xor, Encrypt, Schedule, AddCarry;
    if !IsValidKeySize(|key|) {
      return InvalidKeySize;
    }
    var good, rkeys := ExpandKey(key);
    var pos, blkpos := 0, 16;
    var blk: Block := nonce;
    var counter := new bv8[16](i requires 0 <= i < 16 => nonce[i]);
    assert counter[..] == nonce;
    while pos < data.Length
      invariant 0 <= pos <= data.Length && 0 <= blkpos <= 16 && (pos + 16 - blkpos) % 16 == 0
      invariant counter[..] == CounterAt(nonce, (pos + 16 - blkpos) / 16)
      invariant blkpos < 16 ==> blk == Encrypt(rkeys, CounterAt(nonce, pos / 16)) && pos % 16 == blkpos
      invariant forall i :: 0 <= i < pos ==> data[i] == Xor(old(data[i]), Keystream(rkeys, nonce, i))
      invariant forall i :: pos <= i < data.Length ==> data[i] == old(data[i])
      decreases data.Length - pos
    {
      if blkpos == 16 {
        blk := EncryptState(rkeys, counter[..]);
        IncrCounter(counter);
        blkpos := 0;
      }
      data[pos] := Xor(data[pos], blk[blkpos]);
      pos, blkpos := pos + 1, blkpos + 1;
    }
    return Ok;
  }
}
