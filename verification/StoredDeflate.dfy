/** An encoder for stored blocks (section 3.2.4 of RFC 1951), and its round trip through the decoder. */
module StoredDeflate {
  import opened Bits
  import opened Deflate
  import Inflate

  type Chunk = c: seq<byte> | |c| <= 0xFFFF

  function LittleEndian16(n: nat): (b: seq<byte>)
    requires n <= 0xFFFF
    ensures |b| == 2
  {
    [n % 256, n / 256]
  }

  function EncodeBlock(chunk: Chunk, final: bool): (b: seq<byte>)
    ensures |b| == 5 + |chunk|
  {
    [if final then 1 else 0] + LittleEndian16(|chunk|) + LittleEndian16(0xFFFF - |chunk|) + chunk
  }

  /** One block per chunk, the last one marked final. */
  function Encode(chunks: seq<Chunk>): seq<byte>
    requires chunks != []
  {
    if |chunks| == 1 then EncodeBlock(chunks[0], true) else EncodeBlock(chunks[0], false) + Encode(chunks[1..])
  }

  function Flatten(chunks: seq<Chunk>): seq<byte> {
    if chunks == [] then [] else chunks[0] + Flatten(chunks[1..])
  }

  lemma PeekWord(input: seq<byte>, q: nat, n: nat)
    requires q + 2 <= |input| && n <= 0xFFFF && input[q..q + 2] == LittleEndian16(n)
    ensures Peek(input, 8 * q, 16) == n
  {
    assert input[q] == input[q..q + 2][0] && input[q + 1] == input[q..q + 2][1];
    hide Peek;
    PeekSplit(input, 8 * q, 8, 8);
    PeekByte(input, q);
    PeekByte(input, q + 1);
    ShiftLeft8(n / 256);
    assert 8 * q + 8 == 8 * (q + 1);
  }

  lemma PeekHeader(input: seq<byte>, q: nat)
    requires q < |input| && input[q] <= 1
    ensures Peek(input, 8 * q, 1) == input[q] && Peek(input, 8 * q + 1, 2) == 0
  {
    hide Peek;
    PeekByte(input, q);
    PeekDrop(input, 8 * q, 8, 1);
    PeekBits(input, q, 1);
    PeekDrop(input, 8 * q + 1, 7, 2);
    assert ShiftRight(input[q], 1) == 0;
    assert Low(0, 2) == 0;
    assert Low(input[q], 1) == input[q];
  }

  lemma Inside(pre: seq<byte>, b: seq<byte>, post: seq<byte>, i: nat, j: nat)
    requires i <= j <= |b|
    ensures (pre + b + post)[|pre| + i..|pre| + j] == b[i..j]
  {
  }

  lemma BlockLayout(chunk: Chunk, final: bool)
    ensures var b := EncodeBlock(chunk, final);
            && b[0] == (if final then 1 else 0) && b[1..3] == LittleEndian16(|chunk|)
            && b[3..5] == LittleEndian16(0xFFFF - |chunk|) && b[5..5 + |chunk|] == chunk
  {
    hide LittleEndian16;
  }

  /** A stored block at a byte boundary decodes to its chunk. */
  lemma BlockRoundTrip(pre: seq<byte>, chunk: Chunk, final: bool, post: seq<byte>, out: seq<byte>)
    ensures var input, p := pre + EncodeBlock(chunk, final) + post, 8 * |pre|;
            && Peek(input, p, 1) == (if final then 1 else 0) && Peek(input, p + 1, 2) == 0
            && Stored(input, p + 3, out) == Done(out + chunk, 8 * (|pre| + 5 + |chunk|))
  {
    hide Peek, LittleEndian16, EncodeBlock;
    var b, q := EncodeBlock(chunk, final), |pre|;
    var input := pre + b + post;
    BlockLayout(chunk, final);
    assert input[q] == b[0];
    PeekHeader(input, q);
    Inside(pre, b, post, 1, 3);
    Inside(pre, b, post, 3, 5);
    Inside(pre, b, post, 5, 5 + |chunk|);
    PeekWord(input, q + 1, |chunk|);
    PeekWord(input, q + 3, 0xFFFF - |chunk|);
    assert Aligned(8 * q + 3) == 8 * (q + 1);
  }

  lemma StoredFirst(input: seq<byte>, p: nat, out: seq<byte>, more: seq<byte>, r: nat)
    requires p <= r <= 8 * |input| && Peek(input, p + 1, 2) == 0 && Stored(input, p + 3, out) == Done(more, r)
    ensures Blocks(input, p, out) == if Peek(input, p, 1) == 1 then Done(more, r) else Blocks(input, r, more)
  {
    hide Peek, Stored;
  }

  /** Whatever precedes and follows them, the blocks decode to their chunks, one after the other. */
  lemma {:induction false} BlocksRoundTrip(pre: seq<byte>, chunks: seq<Chunk>, post: seq<byte>, out: seq<byte>)
    requires chunks != []
    ensures Blocks(pre + Encode(chunks) + post, 8 * |pre|, out)
         == Done(out + Flatten(chunks), 8 * (|pre| + |Encode(chunks)|))
    decreases |chunks|
  {
    hide Peek, Stored, EncodeBlock, Blocks;
    var input, final := pre + Encode(chunks) + post, |chunks| == 1;
    var b := EncodeBlock(chunks[0], final);
    if final {
      assert Flatten(chunks) == chunks[0] + Flatten([]) == chunks[0];
      BlockRoundTrip(pre, chunks[0], true, post, out);
    } else {
      var rest := Encode(chunks[1..]);
      assert input == pre + b + (rest + post);
      assert input == (pre + b) + rest + post;
      BlockRoundTrip(pre, chunks[0], false, rest + post, out);
      BlocksRoundTrip(pre + b, chunks[1..], post, out + chunks[0]);
      assert out + chunks[0] + Flatten(chunks[1..]) == out + Flatten(chunks);
    }
    StoredFirst(input, 8 * |pre|, out, out + chunks[0], 8 * (|pre| + |b|));
  }

  /** 0x78 0x01: deflate, a window of 32K, a valid check. */
  function WithHeader(chunks: seq<Chunk>): seq<byte>
    requires chunks != []
  {
    [0x78, 0x01] + Encode(chunks)
  }

  lemma StreamRoundTrip(chunks: seq<Chunk>, post: seq<byte>)
    requires chunks != []
    ensures Stream(WithHeader(chunks) + post, true) == Done(Flatten(chunks), 8 * |WithHeader(chunks)|)
  {
    hide Blocks, Encode;
    BlocksRoundTrip([0x78, 0x01], chunks, post, []);
    assert Encode(chunks) != [] by {
      EncodeIsLonger(chunks);
    }
    assert [] + Flatten(chunks) == Flatten(chunks);
  }

  lemma EncodeIsLonger(chunks: seq<Chunk>)
    requires chunks != []
    ensures |Encode(chunks)| >= 5
  {
  }

  /** The decoder gives back what was stored, whatever follows the stream (the checksum is not looked at). */
  method StoreAndLoad(chunks: seq<Chunk>, checksum: seq<byte>, obuffer: array<byte>) returns (n: int)
    requires chunks != [] && obuffer.Length <= Inflate.INT_MAX
    modifies obuffer
    ensures |Flatten(chunks)| <= obuffer.Length ==> n == |Flatten(chunks)| && obuffer[..n] == Flatten(chunks)
    ensures |Flatten(chunks)| > obuffer.Length ==> n < 0
  {
    hide Stream, WithHeader;
    StreamRoundTrip(chunks, checksum);
    n := Inflate.DecodeBuffer(obuffer, WithHeader(chunks) + checksum, true);
  }
}
