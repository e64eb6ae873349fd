/** Streams as RFC 1950 and RFC 1951 define them, and exactly what else the decoder takes. */
module StandardDeflate {
  import opened Bits
  import D = Deflate
  import StoredDeflate

  /** RFC 1950, section 2.2: deflate with a window of at most 32K, no preset dictionary, a valid check. */
  predicate Header(input: seq<byte>) {
    && |input| >= 2
    && var cmf: nat, flg: nat := input[0], input[1];
       && cmf % 16 == 8 && cmf / 16 <= 7
       && (flg / 32) % 2 == 0 && (cmf * 256 + flg) % 31 == 0
  }

  /** RFC 1951, section 3.2.7: HLIT gives 257 to 286 literal/length codes. The block header is in front of p. */
  predicate TooManyCodes(input: seq<byte>, p: nat) {
    Peek(input, p, 5) + 257 > 286
  }

  ghost function Block(input: seq<byte>, kind: nat, p: nat, out: seq<byte>): (r: D.Result)
    ensures r.Done? ==> out <= r.out && r.p > p
  {
    if kind == 2 && TooManyCodes(input, p) then D.Bad else D.Block(input, kind, p, out)
  }

  /** Blocks up to and including the final one. */
  ghost function Blocks(input: seq<byte>, p: nat, out: seq<byte>): (r: D.Result)
    ensures r.Done? ==> out <= r.out && p < r.p <= 8 * |input|
    decreases 8 * |input| - p
  {
    if p > 8 * |input| then D.Truncated else
    var b := Block(input, Peek(input, p + 1, 2), p + 3, out);
    if !b.Done? then b
    else if b.p > 8 * |input| then D.Truncated
    else if Peek(input, p, 1) == 1 then b
    else Blocks(input, b.p, b.out)
  }

  ghost function Stream(input: seq<byte>, header: bool): D.Result {
    if header && !Header(input) then D.Bad
    else Blocks(input, if header then 16 else 0, [])
  }

  /** Decoding reaches a dynamic block that announces more than 286 literal/length codes. */
  ghost predicate Oversized(input: seq<byte>, p: nat, out: seq<byte>)
    decreases 8 * |input| - p
  {
    && p <= 8 * |input|
    && var kind := Peek(input, p + 1, 2);
       || (kind == 2 && TooManyCodes(input, p + 3))
       || (var b := D.Block(input, kind, p + 3, out);
           b.Done? && b.p <= 8 * |input| && Peek(input, p, 1) != 1 && Oversized(input, b.p, b.out))
  }

  /** The decoder's blocks are the standard's unless it meets such a block, which the standard rejects. */
  lemma {:induction false} BlocksDiffer(input: seq<byte>, p: nat, out: seq<byte>)
    ensures Blocks(input, p, out) == if Oversized(input, p, out) then D.Bad else D.Blocks(input, p, out)
    decreases 8 * |input| - p
  {
    hide D.Block, TooManyCodes, Peek;
    if p <= 8 * |input| {
      var kind := Peek(input, p + 1, 2);
      var b := D.Block(input, kind, p + 3, out);
      if !(kind == 2 && TooManyCodes(input, p + 3)) && b.Done? && b.p <= 8 * |input| && Peek(input, p, 1) != 1 {
        BlocksDiffer(input, b.p, b.out);
      }
    }
  }

  /** The decoder accepts the standard's headers, if anything follows, and those that only claim too large a window. */
  lemma HeadersDiffer(input: seq<byte>)
    ensures |input| > 2 ==> (Header(input) <==> D.ZlibHeader(input) && input[0] / 16 <= 7)
    ensures |input| <= 2 ==> !D.ZlibHeader(input)
  {
  }

  /** Every stream of the standard means to the decoder what the standard says. */
  lemma StandardStreamsDecode(input: seq<byte>, header: bool)
    requires Stream(input, header).Done?
    ensures D.Stream(input, header) == Stream(input, header)
  {
    hide Blocks, D.Blocks, Oversized, Header, D.ZlibHeader;
    HeadersDiffer(input);
    BlocksDiffer(input, if header then 16 else 0, []);
  }

  /** A stream the decoder completes is one of the standard's exactly when its header claims no larger window and no
      block announces more than 286 literal/length codes. */
  lemma DecoderTakesMore(input: seq<byte>, header: bool)
    requires D.Stream(input, header).Done?
    ensures Stream(input, header) == D.Stream(input, header) <==>
              && (header ==> input[0] / 16 <= 7)
              && !Oversized(input, if header then 16 else 0, [])
    ensures Stream(input, header) == D.Stream(input, header) || Stream(input, header) == D.Bad
  {
    hide Blocks, D.Blocks, Oversized;
    HeadersDiffer(input);
    BlocksDiffer(input, if header then 16 else 0, []);
  }

  /** Such a header, CINFO being eight, in front of any data that the decoder completes. */
  lemma LargeWindowHeader(data: seq<byte>)
    requires data != []
    ensures D.ZlibHeader([0x88, 0x1c] + data) && !Header([0x88, 0x1c] + data)
  {
  }

  /** Stored blocks behind such a header: complete for the decoder, malformed by RFC 1950. */
  lemma LargeWindowStream(chunks: seq<StoredDeflate.Chunk>)
    requires chunks != []
    ensures var s := [0x88, 0x1c] + StoredDeflate.Encode(chunks);
            && D.Stream(s, true) == D.Done(StoredDeflate.Flatten(chunks), 8 * |s|)
            && Stream(s, true) == D.Bad
  {
    hide D.Blocks, StoredDeflate.Encode, Blocks;
    var data := StoredDeflate.Encode(chunks);
    StoredDeflate.EncodeIsLonger(chunks);
    LargeWindowHeader(data);
    StoredDeflate.BlocksRoundTrip([0x88, 0x1c], chunks, [], []);
    assert [0x88, 0x1c] + data + [] == [0x88, 0x1c] + data;
    assert [] + StoredDeflate.Flatten(chunks) == StoredDeflate.Flatten(chunks);
  }
}
