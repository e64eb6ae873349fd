/** The DEFLATE format (RFC 1951) and the zlib header (RFC 1950) as functions of the input bits. */
module Deflate {
  import opened Bits
  import opened Huffman

  /** What a stream means: all its output and where it ended, an invalid stream, or one that needs
      bits past the end of the input. */
  datatype Result = Done(out: seq<byte>, p: nat) | Bad | Truncated

  // ----- section 3.2.5: lengths and distances -----------------------------------------------------

  function LengthExtra(s: nat): nat
    requires 257 <= s <= 285
  {
    if s < 265 || s == 285 then 0 else (s - 261) / 4
  }

  function LengthBase(s: nat): (r: nat)
    requires 257 <= s <= 285
    ensures r >= 3
  {
    if s == 285 then 258
    else if s < 265 then s - 254
    else ShiftLeft(4 + (s - 265) % 4, LengthExtra(s)) + 3
  }

  function DistExtra(d: nat): nat
    requires d < 30
  {
    if d < 4 then 0 else d / 2 - 1
  }

  function DistBase(d: nat): (r: nat)
    requires d < 30
    ensures r >= 1
  {
    if d < 4 then d + 1 else ShiftLeft(2 + d % 2, DistExtra(d)) + 1
  }

  /** Append len bytes, each the byte dist before it; the source may overlap the copy. */
  function CopyOut(out: seq<byte>, dist: nat, len: nat): (r: seq<byte>)
    requires 1 <= dist <= |out|
    ensures |r| == |out| + len && out <= r
    decreases len
  {
    if len == 0 then out else CopyOut(out + [out[|out| - dist]], dist, len - 1)
  }

  // ----- compressed data ----------------------------------------------------------------------------

  datatype Token = Literal(b: byte) | EndOfBlock | Match(len: nat, dist: nat) | Invalid

  /** The extra bits of length symbol s and the distance after it, and the position after them. */
  ghost function NextMatch(input: seq<byte>, p: nat, s: nat, dl: seq<nat>): (r: (Token, nat))
    requires 257 <= s <= 285
    ensures r.1 >= p && (r.0.Match? || r.0.Invalid?)
    ensures r.0.Match? ==> r.0.len >= 3 && r.0.dist >= 1
  {
    var len, p1 := LengthBase(s) + Peek(input, p, LengthExtra(s)), p + LengthExtra(s);
    var d := Symbol(dl, input, p1);
    if d < 0 || d >= 30 then (Invalid, p1)
    else
      var p2 := p1 + dl[d];
      (Match(len, DistBase(d) + Peek(input, p2, DistExtra(d))), p2 + DistExtra(d))
  }

  /** The literal, end of block or (length, distance) pair at p, with literal/length code ll and
      distance code dl, and the position after it. */
  ghost function NextToken(input: seq<byte>, p: nat, ll: seq<nat>, dl: seq<nat>): (r: (Token, nat))
    ensures r.1 >= p && (!r.0.Invalid? ==> r.1 > p)
    ensures r.0.Match? ==> r.0.len >= 3 && r.0.dist >= 1
  {
    var s := Symbol(ll, input, p);
    if s < 0 then (Invalid, p)
    else if s < 256 then (Literal(s), p + ll[s])
    else if s == 256 then (EndOfBlock, p + ll[s])
    else if s >= 286 then (Invalid, p + ll[s])
    else NextMatch(input, p + ll[s], s, dl)
  }

  /** A token that can follow this output. */
  predicate Fits(out: seq<byte>, t: Token) {
    t.Literal? || (t.Match? && 1 <= t.dist <= |out|)
  }

  function Append(out: seq<byte>, t: Token): (r: seq<byte>)
    requires Fits(out, t)
    ensures out <= r && |r| == |out| + if t.Literal? then 1 else t.len
  {
    if t.Literal? then out + [t.b] else CopyOut(out, t.dist, t.len)
  }

  /** The tokens of a compressed block, appending to out. */
  ghost function Data(input: seq<byte>, p: nat, out: seq<byte>, ll: seq<nat>, dl: seq<nat>): (r: Result)
    ensures r.Done? ==> out <= r.out && r.p > p
    decreases 8 * |input| - p
  {
    if p > 8 * |input| then Truncated else
    var (t, q) := NextToken(input, p, ll, dl);
    if t.EndOfBlock? then Done(out, q)
    else if !Fits(out, t) then Bad
    else Data(input, q, Append(out, t), ll, dl)
  }

  // ----- section 3.2.4: stored blocks ---------------------------------------------------------------

  function Aligned(p: nat): (q: nat)
    ensures q >= p && q % 8 == 0 && q < p + 8
  {
    (p + 7) / 8 * 8
  }

  ghost function Stored(input: seq<byte>, p: nat, out: seq<byte>): (r: Result)
    ensures r.Done? ==> out <= r.out && r.p > p
  {
    var q := Aligned(p);
    var len, nlen := Peek(input, q, 16), Peek(input, q + 16, 16);
    if nlen != 0xFFFF - len then Bad
    else if q / 8 + 4 + len > |input| then Truncated
    else Done(out + input[q / 8 + 4..q / 8 + 4 + len], q + 32 + 8 * len)
  }

  // ----- section 3.2.6: fixed codes -----------------------------------------------------------------

  function FixedLength(i: nat): nat {
    if i < 144 then 8 else if i < 256 then 9 else if i < 280 then 7 else 8
  }

  function FixedLengths(n: nat): (lens: seq<nat>)
    ensures |lens| == n && forall i :: 0 <= i < n ==> lens[i] == FixedLength(i)
  {
    seq(n, i requires i >= 0 => FixedLength(i))
  }

  function FixedDistances(n: nat): (lens: seq<nat>)
    ensures |lens| == n && forall i :: 0 <= i < n ==> lens[i] == 5
  {
    seq(n, _ => 5)
  }

  // ----- section 3.2.7: dynamic codes ---------------------------------------------------------------

  const Order: seq<nat> := [16, 17, 18, 0, 8, 7, 9, 6, 10, 5, 11, 4, 12, 3, 13, 2, 14, 1, 15]

  /** The first n of the code lengths for the code length alphabet; the others are zero. */
  function ClLengths(input: seq<byte>, p: nat, n: nat): (lens: seq<nat>)
    requires n <= 19
    ensures |lens| == 19 && forall i :: 0 <= i < 19 ==> lens[i] <= 7
  {
    if n == 0 then seq(19, _ => 0)
    else
      assert Peek(input, p + 3 * (n - 1), 3) < Pow2(3) == 8 by { Pow2Values(); }
      ClLengths(input, p, n - 1)[Order[n - 1] := Peek(input, p + 3 * (n - 1), 3)]
  }

  datatype Coded = Coded(lens: seq<nat>, p: nat) | BadCode

  function Repeat(x: nat, n: nat): (r: seq<nat>)
    ensures |r| == n && forall i :: 0 <= i < n ==> r[i] == x
  {
    seq(n, _ => x)
  }

  /** A code length alphabet symbol: n times the length x, ending at q. */
  datatype Run = Run(x: nat, n: nat, q: nat) | BadRun

  ghost function NextRun(input: seq<byte>, p: nat, cl: seq<nat>, acc: seq<nat>): (r: Run)
    requires |cl| == 19
    ensures r.Run? ==> r.n >= 1 && r.q > p && (r.x <= 15 || r.x in acc)
  {
    var s := Symbol(cl, input, p);
    if s < 0 then BadRun
    else if s < 16 then Run(s, 1, p + cl[s])
    else if s == 16 then
      if acc == [] then BadRun else Run(acc[|acc| - 1], Peek(input, p + cl[s], 2) + 3, p + cl[s] + 2)
    else if s == 17 then Run(0, Peek(input, p + cl[s], 3) + 3, p + cl[s] + 3)
    else Run(0, Peek(input, p + cl[s], 7) + 11, p + cl[s] + 7)
  }

  /** Code lengths up to ntot of them, following acc. */
  ghost function CodeLengths(input: seq<byte>, p: nat, cl: seq<nat>, acc: seq<nat>, ntot: nat): (r: Coded)
    requires |acc| <= ntot && |cl| == 19
    requires forall i :: 0 <= i < |acc| ==> acc[i] <= 15
    ensures r.Coded? ==> |r.lens| == ntot && r.p >= p && forall i :: 0 <= i < ntot ==> r.lens[i] <= 15
    decreases ntot - |acc|
  {
    if |acc| == ntot then Coded(acc, p) else
    var run := NextRun(input, p, cl, acc);
    if run.BadRun? || run.n > ntot - |acc| then BadCode
    else CodeLengths(input, run.q, cl, acc + Repeat(run.x, run.n), ntot)
  }

  datatype Codes = Codes(ll: seq<nat>, dl: seq<nat>, p: nat) | BadCodes

  /** The two codes of a dynamic block; codes with a Kraft sum above one are invalid. As the decoder does, this takes up
      to 288 literal/length codes where the format has 286: see StandardDeflate. */
  ghost function DynamicCodes(input: seq<byte>, p: nat): (r: Codes)
    ensures r.Codes? ==> r.p >= p && Lengths(r.ll) && Lengths(r.dl)
  {
    var hlit, hdist, hclen := Peek(input, p, 5) + 257, Peek(input, p + 5, 5) + 1, Peek(input, p + 10, 4) + 4;
    assert hlit <= 288 && hdist <= 32 && hclen <= 19 by { Pow2Values(); }
    var cl := ClLengths(input, p + 14, hclen);
    if Kraft(cl) > Pow2(15) then BadCodes else
    var c := CodeLengths(input, p + 14 + 3 * hclen, cl, [], hlit + hdist);
    if c.BadCode? then BadCodes else
    var ll, dl := c.lens[..hlit], c.lens[hlit..];
    if Kraft(ll) > Pow2(15) || Kraft(dl) > Pow2(15) then BadCodes
    else Codes(ll, dl, c.p)
  }

  // ----- section 3.2.3: the blocks ------------------------------------------------------------------

  ghost function Block(input: seq<byte>, kind: nat, p: nat, out: seq<byte>): (r: Result)
    ensures r.Done? ==> out <= r.out && r.p > p
  {
    if kind == 0 then Stored(input, p, out)
    else if kind == 1 then Data(input, p, out, FixedLengths(288), FixedDistances(32))
    else if kind == 2 then
      var c := DynamicCodes(input, p);
      if c.BadCodes? then Bad else Data(input, c.p, out, c.ll, c.dl)
    else Bad
  }

  /** Blocks up to and including the final one. */
  ghost function Blocks(input: seq<byte>, p: nat, out: seq<byte>): (r: Result)
    ensures r.Done? ==> out <= r.out && p < r.p <= 8 * |input|
    decreases 8 * |input| - p
  {
    if p > 8 * |input| then Truncated else
    var b := Block(input, Peek(input, p + 1, 2), p + 3, out);
    if !b.Done? then b
    else if b.p > 8 * |input| then Truncated
    else if Peek(input, p, 1) == 1 then b
    else Blocks(input, b.p, b.out)
  }

  /** Deflate, no preset dictionary, a valid check, and some data after the two bytes. As in the decoder, any window
      size will do: see StandardDeflate. */
  predicate ZlibHeader(input: seq<byte>) {
    && |input| > 2
    && var cmf: nat, flg: nat := input[0], input[1];
       cmf % 16 == 8 && (flg / 32) % 2 == 0 && (cmf * 256 + flg) % 31 == 0
  }

  ghost function Stream(input: seq<byte>, header: bool): Result {
    if header && !ZlibHeader(input) then Bad
    else Blocks(input, if header then 16 else 0, [])
  }

  // ----- the fixed codes are complete ---------------------------------------------------------------

  lemma {:induction false} FixedLengthsKraft(n: nat)
    requires n <= 288
    ensures Kraft(FixedLengths(n)) ==
            if n <= 144 then 128 * n
            else if n <= 256 then 18432 + 64 * (n - 144)
            else if n <= 280 then 25600 + 256 * (n - 256)
            else 31744 + 128 * (n - 280)
  {
    if n == 0 {
    } else {
      FixedLengthsKraft(n - 1);
      assert FixedLengths(n)[..n - 1] == FixedLengths(n - 1);
      Pow2Values();
    }
  }

  lemma {:induction false} FixedDistancesKraft(n: nat)
    requires n <= 32
    ensures Kraft(FixedDistances(n)) == 1024 * n
  {
    if n == 0 {
    } else {
      FixedDistancesKraft(n - 1);
      assert FixedDistances(n)[..n - 1] == FixedDistances(n - 1);
      Pow2Values();
    }
  }
}
