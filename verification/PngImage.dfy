/** stb_image.h from filtered rows to samples, and the second decoder in compare_frames.py. */
module PngImage {
  import opened Bits
  import opened Division
  import opened PngFilter

  // ----- the rows of a raw stream -----------------------------------------------------------------------------------

  /** What follows the first j rows: each is a filter byte and w bytes. */
  function Rest(raw: Row, w: nat, j: nat): Row {
    if j == 0 then raw
    else
      var r := Rest(raw, w, j - 1);
      if |r| > w then r[w + 1..] else []
  }

  function FilterAt(raw: Row, w: nat, j: nat): byte {
    var r := Rest(raw, w, j);
    if |r| > w then r[0] else 0
  }

  function RowAt(raw: Row, w: nat, bpp: nat, j: nat): (row: Row)
    requires bpp > 0
    ensures |row| == w
  {
    var r := Rest(raw, w, j);
    var prior := if j == 0 then Zeros(w) else RowAt(raw, w, bpp, j - 1);
    if |r| > w then Unfilter(r[0], bpp, r[1..w + 1], prior, w) else Zeros(w)
  }

  lemma {:induction false} RestLength(raw: Row, w: nat, y: nat, j: nat)
    requires (w + 1) * y <= |raw| && j <= y
    ensures |Rest(raw, w, j)| == |raw| - (w + 1) * j
    ensures j < y ==> |Rest(raw, w, j)| > w
  {
    if j > 0 {
      RestLength(raw, w, y, j - 1);
      assert (w + 1) * j == (w + 1) * (j - 1) + (w + 1);
    }
    if j < y {
      AtLeastOneTimes(y - j, w + 1);
      assert (w + 1) * y == (w + 1) * j + (y - j) * (w + 1);
    }
  }

  // ----- an encoder, for the round trip -----------------------------------------------------------------------------

  function Prior(rows: seq<Row>, w: nat, j: nat): Row
    requires j < |rows|
  {
    if j == 0 then Zeros(w) else rows[j - 1]
  }

  /** Rows from j on, each filtered as the encoder chose. */
  function Encode(filters: seq<byte>, rows: seq<Row>, w: nat, bpp: nat, j: nat): Row
    requires bpp > 0 && |filters| == |rows| && j <= |rows| && forall r :: r in rows ==> |r| == w
    decreases |rows| - j
  {
    if j == |rows| then []
    else [filters[j]] + Filter(filters[j], bpp, rows[j], Prior(rows, w, j)) + Encode(filters, rows, w, bpp, j + 1)
  }

  lemma {:induction false} RestOfEncoded(filters: seq<byte>, rows: seq<Row>, w: nat, bpp: nat, extra: Row, j: nat)
    requires bpp > 0 && |filters| == |rows| && j <= |rows| && forall r :: r in rows ==> |r| == w
    ensures Rest(Encode(filters, rows, w, bpp, 0) + extra, w, j) == Encode(filters, rows, w, bpp, j) + extra
  {
    hide Filter;
    if j > 0 {
      RestOfEncoded(filters, rows, w, bpp, extra, j - 1);
      var f := filters[j - 1];
      var first := [f] + Filter(f, bpp, rows[j - 1], Prior(rows, w, j - 1));
      assert |first| == w + 1;
      assert Encode(filters, rows, w, bpp, j - 1) + extra == first + (Encode(filters, rows, w, bpp, j) + extra);
    }
  }

  /** Whatever filters an encoder picked row by row, and whatever follows the image, the rows come back. */
  lemma {:induction false} RowsRoundTrip(filters: seq<byte>, rows: seq<Row>, w: nat, bpp: nat, extra: Row, j: nat)
    requires bpp > 0 && |filters| == |rows| && j < |rows| && forall r :: r in rows ==> |r| == w
    ensures RowAt(Encode(filters, rows, w, bpp, 0) + extra, w, bpp, j) == rows[j]
  {
    hide Filter, Unfilter;
    if j > 0 {
      RowsRoundTrip(filters, rows, w, bpp, extra, j - 1);
    }
    RestOfEncoded(filters, rows, w, bpp, extra, j);
    var f, prior := filters[j], Prior(rows, w, j);
    var r := Encode(filters, rows, w, bpp, j) + extra;
    assert r[0] == f && r[1..w + 1] == Filter(f, bpp, rows[j], prior);
    UnfilterFilter(f, bpp, rows[j], prior, w);
    assert rows[j][..w] == rows[j];
  }

  // ----- samples ----------------------------------------------------------------------------------------------------

  predicate IsDepth(depth: nat) {
    depth in {1, 2, 4, 8, 16}
  }

  /** The d bits of b after the first j * d, leftmost first, for d in {1, 2, 4}. */
  function BitGroup(b: nat, d: nat, j: nat): nat {
    if d == 1 then
      if j == 0 then b / 128 % 2 else if j == 1 then b / 64 % 2 else if j == 2 then b / 32 % 2
      else if j == 3 then b / 16 % 2 else if j == 4 then b / 8 % 2 else if j == 5 then b / 4 % 2
      else if j == 6 then b / 2 % 2 else b % 2
    else if d == 2 then
      if j == 0 then b / 64 % 4 else if j == 1 then b / 16 % 4 else if j == 2 then b / 4 % 4 else b % 4
    else if j == 0 then b / 16 % 16 else b % 16
  }

  /** Sample i of a row: depth bits, leftmost first, sixteen-bit samples high byte first. */
  function SampleAt(row: Row, depth: nat, i: nat): nat {
    if depth == 1 then if i / 8 < |row| then BitGroup(row[i / 8], 1, i % 8) else 0
    else if depth == 2 then if i / 4 < |row| then BitGroup(row[i / 4], 2, i % 4) else 0
    else if depth == 4 then if i / 2 < |row| then BitGroup(row[i / 2], 4, i % 2) else 0
    else if depth == 16 then
      if 2 * i + 1 < |row| then
        var high: nat, low: nat := row[2 * i], row[2 * i + 1];
        256 * high + low
      else 0
    else if i < |row| then row[i] else 0
  }

  /** Grey samples of fewer than eight bits are spread over 0 to 255. */
  function Scale(depth: nat, color: nat): nat {
    if depth >= 8 || color != 0 then 1
    else if depth == 1 then 0xFF else if depth == 2 then 0x55 else 0x11
  }

  function Opaque(depth: nat): nat {
    if depth == 16 then 0xFFFF else 0xFF
  }

  /** Channel c of pixel i: a sample of the row, or the added alpha. */
  function Channel(row: Row, depth: nat, color: nat, imgN: nat, i: nat, c: nat): nat {
    if c < imgN then Scale(depth, color) * SampleAt(row, depth, i * imgN + c) else Opaque(depth)
  }

  /** A row of x pixels of outN samples. */
  function Samples(row: Row, depth: nat, color: nat, imgN: nat, outN: nat, x: nat): (s: seq<nat>)
    requires outN > 0
    ensures |s| == x * outN
  {
    seq(x * outN, k requires k >= 0 => Channel(row, depth, color, imgN, k / outN, k % outN))
  }

  // ----- unpacking: one byte at a time, shifted left as samples leave at its top -------------------------------------

  function Spread(d: nat): nat {
    if d == 1 then 2 else if d == 2 then 4 else 16
  }

  /** What is left of b after j samples of d bits were shifted out at the top. */
  function ShiftedOut(b: nat, d: nat, j: nat): nat {
    if j == 0 then b else Spread(d) * ShiftedOut(b, d, j - 1) % 256
  }

  function Shifted(b: nat, d: nat, j: nat): nat {
    if j == 0 then b else Spread(d) * Shifted(b, d, j - 1)
  }

  lemma WholeBytesDrop(k: nat, m: nat)
    ensures (256 * k + m) % 256 == m % 256
  {
  }

  lemma WrapTimes2(x: nat)
    ensures 2 * (x % 256) % 256 == 2 * x % 256
  {
    WholeBytesDrop(2 * (x / 256), 2 * (x % 256));
  }

  lemma WrapTimes4(x: nat)
    ensures 4 * (x % 256) % 256 == 4 * x % 256
  {
    WholeBytesDrop(4 * (x / 256), 4 * (x % 256));
  }

  lemma WrapTimes16(x: nat)
    ensures 16 * (x % 256) % 256 == 16 * x % 256
  {
    WholeBytesDrop(16 * (x / 256), 16 * (x % 256));
  }

  lemma SpreadWraps(x: nat, r: nat, d: nat)
    requires r == x % 256
    ensures Spread(d) * r % 256 == Spread(d) * x % 256
  {
    WrapTimes2(x);
    WrapTimes4(x);
    WrapTimes16(x);
  }

  lemma {:induction false} ShiftedOutWraps(b: nat, d: nat, j: nat)
    requires b < 256
    ensures ShiftedOut(b, d, j) == Shifted(b, d, j) % 256
  {
    hide Spread;
    if j > 0 {
      ShiftedOutWraps(b, d, j - 1);
      SpreadWraps(Shifted(b, d, j - 1), ShiftedOut(b, d, j - 1), d);
    }
  }

  /** The top bit of a byte is the parity of what it counts. */
  lemma Top1(q: nat, s: nat)
    requires s < 128
    ensures (128 * q + s) % 256 / 128 == q % 2
  {
  }

  lemma Top2(q: nat, s: nat)
    requires s < 64
    ensures (64 * q + s) % 256 / 64 == q % 4
  {
  }

  lemma Top4(q: nat, s: nat)
    requires s < 16
    ensures (16 * q + s) % 256 / 16 == q % 16
  {
  }

  lemma Shifted1(b: nat)
    ensures Shifted(b, 1, 0) == b && Shifted(b, 1, 1) == 2 * b && Shifted(b, 1, 2) == 4 * b && Shifted(b, 1, 3) == 8 * b
    ensures Shifted(b, 1, 4) == 16 * b && Shifted(b, 1, 5) == 32 * b && Shifted(b, 1, 6) == 64 * b
    ensures Shifted(b, 1, 7) == 128 * b
  {
    assert Shifted(b, 1, 1) == 2 * Shifted(b, 1, 0);
    assert Shifted(b, 1, 2) == 2 * Shifted(b, 1, 1);
    assert Shifted(b, 1, 3) == 2 * Shifted(b, 1, 2);
    assert Shifted(b, 1, 4) == 2 * Shifted(b, 1, 3);
    assert Shifted(b, 1, 5) == 2 * Shifted(b, 1, 4);
    assert Shifted(b, 1, 6) == 2 * Shifted(b, 1, 5);
    assert Shifted(b, 1, 7) == 2 * Shifted(b, 1, 6);
  }

  lemma TopBits1(b: nat, j: nat)
    requires b < 256 && j < 8
    ensures ShiftedOut(b, 1, j) / 128 == BitGroup(b, 1, j)
  {
    ShiftedOutWraps(b, 1, j);
    Shifted1(b);
    hide ShiftedOut, Shifted;
    if j == 0 {
      Top1(b / 128, b % 128);
    } else if j == 1 {
      Top1(b / 64, 2 * (b % 64));
    } else if j == 2 {
      Top1(b / 32, 4 * (b % 32));
    } else if j == 3 {
      Top1(b / 16, 8 * (b % 16));
    } else if j == 4 {
      Top1(b / 8, 16 * (b % 8));
    } else if j == 5 {
      Top1(b / 4, 32 * (b % 4));
    } else if j == 6 {
      Top1(b / 2, 64 * (b % 2));
    } else {
      Top1(b, 0);
    }
  }

  lemma TopBits2(b: nat, j: nat)
    requires b < 256 && j < 4
    ensures ShiftedOut(b, 2, j) / 64 == BitGroup(b, 2, j)
  {
    ShiftedOutWraps(b, 2, j);
    assert Shifted(b, 2, 1) == 4 * b && Shifted(b, 2, 2) == 16 * b && Shifted(b, 2, 3) == 64 * b;
    hide ShiftedOut, Shifted;
    if j == 0 {
      Top2(b / 64, b % 64);
    } else if j == 1 {
      Top2(b / 16, 4 * (b % 16));
    } else if j == 2 {
      Top2(b / 4, 16 * (b % 4));
    } else {
      Top2(b, 0);
    }
  }

  lemma TopBits4(b: nat, j: nat)
    requires b < 256 && j < 2
    ensures ShiftedOut(b, 4, j) / 16 == BitGroup(b, 4, j)
  {
    ShiftedOutWraps(b, 4, j);
    assert Shifted(b, 4, 1) == 16 * b;
    hide ShiftedOut, Shifted;
    if j == 0 {
      Top4(b / 16, b % 16);
    } else {
      Top4(b, 0);
    }
  }

  lemma ShiftStep(b: nat, d: nat, j: nat)
    ensures ShiftedOut(b, d, 0) == b && ShiftedOut(b, d, j + 1) == Spread(d) * ShiftedOut(b, d, j) % 256
  {
  }

  lemma SampleIsGroup(row: Row, d: nat, i: nat)
    requires d in {1, 2, 4} && i / (8 / d) < |row|
    ensures SampleAt(row, d, i) == BitGroup(row[i / (8 / d)], d, i % (8 / d))
  {
    hide BitGroup;
    if d == 1 {
      assert 8 / d == 8;
    } else if d == 2 {
      assert 8 / d == 4;
    } else {
      assert 8 / d == 2;
    }
  }

  method Unpack1(cur: Row, scale: nat, n: nat, out: array<nat>)
    requires n <= 8 * |cur| && n <= out.Length
    modifies out
    ensures forall i :: 0 <= i < n ==> out[i] == scale * SampleAt(cur, 1, i)
    ensures out[n..] == old(out[n..])
  {
    hide BitGroup, SampleAt, ShiftedOut;
    var inb: nat := 0;
    var next := 0;
    for i := 0 to n
      invariant next == (i + 7) / 8
      invariant i % 8 != 0 ==> inb == ShiftedOut(cur[i / 8], 1, i % 8)
      invariant forall k :: 0 <= k < i ==> out[k] == scale * SampleAt(cur, 1, k)
      invariant out[n..] == old(out[n..])
    {
      if i % 8 == 0 {
        inb, next := cur[next], next + 1;
      }
      NextInGroup(i, 8);
      ShiftStep(cur[i / 8], 1, i % 8);
      TopBits1(cur[i / 8], i % 8);
      SampleIsGroup(cur, 1, i);
      out[i] := scale * (inb / 128);
      inb := 2 * inb % 256;
    }
  }

  method Unpack2(cur: Row, scale: nat, n: nat, out: array<nat>)
    requires n <= 4 * |cur| && n <= out.Length
    modifies out
    ensures forall i :: 0 <= i < n ==> out[i] == scale * SampleAt(cur, 2, i)
    ensures out[n..] == old(out[n..])
  {
    hide BitGroup, SampleAt, ShiftedOut;
    var inb: nat := 0;
    var next := 0;
    for i := 0 to n
      invariant next == (i + 3) / 4
      invariant i % 4 != 0 ==> inb == ShiftedOut(cur[i / 4], 2, i % 4)
      invariant forall k :: 0 <= k < i ==> out[k] == scale * SampleAt(cur, 2, k)
      invariant out[n..] == old(out[n..])
    {
      if i % 4 == 0 {
        inb, next := cur[next], next + 1;
      }
      NextInGroup(i, 4);
      ShiftStep(cur[i / 4], 2, i % 4);
      TopBits2(cur[i / 4], i % 4);
      SampleIsGroup(cur, 2, i);
      out[i] := scale * (inb / 64);
      inb := 4 * inb % 256;
    }
  }

  method Unpack4(cur: Row, scale: nat, n: nat, out: array<nat>)
    requires n <= 2 * |cur| && n <= out.Length
    modifies out
    ensures forall i :: 0 <= i < n ==> out[i] == scale * SampleAt(cur, 4, i)
    ensures out[n..] == old(out[n..])
  {
    hide BitGroup, SampleAt, ShiftedOut;
    var inb: nat := 0;
    var next := 0;
    for i := 0 to n
      invariant next == (i + 1) / 2
      invariant i % 2 != 0 ==> inb == ShiftedOut(cur[i / 2], 4, i % 2)
      invariant forall k :: 0 <= k < i ==> out[k] == scale * SampleAt(cur, 4, k)
      invariant out[n..] == old(out[n..])
    {
      if i % 2 == 0 {
        inb, next := cur[next], next + 1;
      }
      NextInGroup(i, 2);
      ShiftStep(cur[i / 2], 4, i % 2);
      TopBits4(cur[i / 2], i % 2);
      SampleIsGroup(cur, 4, i);
      out[i] := scale * (inb / 16);
      inb := 16 * inb % 256;
    }
  }

  // ----- the added alpha channel, last pixel first so that source and destination may be one -------------------------

  method AlphaExpandGrey(dest: array<nat>, src: array<nat>, x: nat)
    requires 2 * x <= dest.Length && x <= src.Length
    modifies dest
    ensures forall k :: 0 <= k < 2 * x ==> dest[k] == if k % 2 == 1 then 255 else old(src[k / 2])
    ensures dest[2 * x..] == old(dest[2 * x..])
  {
    var i := x;
    while i > 0
      invariant 0 <= i <= x
      invariant forall k :: 0 <= k < i ==> src[k] == old(src[k])
      invariant forall k :: 2 * i <= k < 2 * x ==> dest[k] == if k % 2 == 1 then 255 else old(src[k / 2])
      invariant dest[2 * x..] == old(dest[2 * x..])
    {
      i := i - 1;
      dest[2 * i + 1] := 255;
      dest[2 * i] := src[i];
    }
  }

  method AlphaExpandRgb(dest: array<nat>, src: array<nat>, x: nat)
    requires 4 * x <= dest.Length && 3 * x <= src.Length
    modifies dest
    ensures forall k :: 0 <= k < 4 * x ==> dest[k] == if k % 4 == 3 then 255 else old(src[k / 4 * 3 + k % 4])
    ensures dest[4 * x..] == old(dest[4 * x..])
  {
    var i := x;
    while i > 0
      invariant 0 <= i <= x
      invariant forall k :: 0 <= k < 3 * i ==> src[k] == old(src[k])
      invariant forall k :: 4 * i <= k < 4 * x ==> dest[k] == if k % 4 == 3 then 255 else old(src[k / 4 * 3 + k % 4])
      invariant dest[4 * x..] == old(dest[4 * x..])
    {
      i := i - 1;
      dest[4 * i + 3] := 255;
      dest[4 * i + 2] := src[3 * i + 2];
      dest[4 * i + 1] := src[3 * i + 1];
      dest[4 * i] := src[3 * i];
    }
  }

  // ----- one row ----------------------------------------------------------------------------------------------------

  predicate Layout(imgN: nat, outN: nat, depth: nat) {
    1 <= imgN <= 4 && (outN == imgN || (outN == imgN + 1 && imgN in {1, 3})) && IsDepth(depth)
  }

  /** Bytes of a row of n samples. */
  function WidthBytes(n: nat, depth: nat): nat {
    (n * depth + 7) / 8
  }

  method UnpackRow(cur: Row, depth: nat, scale: nat, n: nat, out: array<nat>)
    requires IsDepth(depth) && |cur| == WidthBytes(n, depth) && n <= out.Length && (depth >= 8 ==> scale == 1)
    modifies out
    ensures forall i :: 0 <= i < n ==> out[i] == scale * SampleAt(cur, depth, i)
  {
    if depth == 1 {
      Unpack1(cur, scale, n, out);
    } else if depth == 2 {
      Unpack2(cur, scale, n, out);
    } else if depth == 4 {
      Unpack4(cur, scale, n, out);
    } else if depth == 8 {
      for i := 0 to n
        invariant forall k :: 0 <= k < i ==> out[k] == cur[k]
      {
        out[i] := cur[i];
      }
    } else {
      for i := 0 to n
        invariant forall k :: 0 <= k < i ==> out[k] == SampleAt(cur, 16, k)
      {
        var high: nat, low: nat := cur[2 * i], cur[2 * i + 1];
        out[i] := 256 * high + low;
      }
    }
  }

  /** Sixteen-bit grey with an added alpha sample. */
  method UnpackGrey16(cur: Row, x: nat, out: array<nat>)
    requires |cur| == WidthBytes(x, 16) && out.Length == 2 * x
    modifies out
    ensures forall k :: 0 <= k < 2 * x ==> out[k] == if k % 2 == 1 then 0xFFFF else SampleAt(cur, 16, k / 2)
  {
    for i := 0 to x
      invariant forall k :: 0 <= k < 2 * i ==> out[k] == if k % 2 == 1 then 0xFFFF else SampleAt(cur, 16, k / 2)
    {
      var high: nat, low: nat := cur[2 * i], cur[2 * i + 1];
      out[2 * i] := 256 * high + low;
      out[2 * i + 1] := 0xFFFF;
    }
  }

  /** Sixteen-bit colour with an added alpha sample. */
  method UnpackRgb16(cur: Row, x: nat, out: array<nat>)
    requires |cur| == WidthBytes(3 * x, 16) && out.Length == 4 * x
    modifies out
    ensures forall k :: 0 <= k < 4 * x ==> out[k] == if k % 4 == 3 then 0xFFFF else SampleAt(cur, 16, k / 4 * 3 + k % 4)
  {
    for i := 0 to x
      invariant forall k :: 0 <= k < 4 * i ==>
                        out[k] == if k % 4 == 3 then 0xFFFF else SampleAt(cur, 16, k / 4 * 3 + k % 4)
    {
      for c := 0 to 3
        invariant forall k :: 0 <= k < 4 * i + c ==>
                          out[k] == if k % 4 == 3 then 0xFFFF else SampleAt(cur, 16, k / 4 * 3 + k % 4)
      {
        var high: nat, low: nat := cur[6 * i + 2 * c], cur[6 * i + 2 * c + 1];
        out[4 * i + c] := 256 * high + low;
      }
      out[4 * i + 3] := 0xFFFF;
    }
  }

  lemma PixelIndex(k: nat, n: nat)
    requires 1 <= n <= 4
    ensures k / n * n + k % n == k && k % n < n
  {
    if n == 1 {
    } else if n == 2 {
    } else if n == 3 {
    } else {
    }
  }

  lemma PlainSamples(cur: Row, depth: nat, color: nat, n: nat, x: nat, out: seq<nat>)
    requires 1 <= n <= 4 && |out| == x * n
    requires forall k :: 0 <= k < |out| ==> out[k] == Scale(depth, color) * SampleAt(cur, depth, k)
    ensures out == Samples(cur, depth, color, n, n, x)
  {
    hide SampleAt, Scale;
    forall k | 0 <= k < |out| ensures out[k] == Channel(cur, depth, color, n, k / n, k % n) {
      PixelIndex(k, n);
    }
  }

  lemma GreyAlphaSamples(cur: Row, depth: nat, color: nat, x: nat, out: seq<nat>)
    requires |out| == 2 * x
    requires forall k :: 0 <= k < |out| ==>
               out[k] == if k % 2 == 1 then Opaque(depth) else Scale(depth, color) * SampleAt(cur, depth, k / 2)
    ensures out == Samples(cur, depth, color, 1, 2, x)
  {
    hide SampleAt, Scale, Opaque;
  }

  lemma RgbAlphaSamples(cur: Row, depth: nat, color: nat, x: nat, out: seq<nat>)
    requires |out| == 4 * x
    requires forall k :: 0 <= k < |out| ==>
               out[k] == if k % 4 == 3 then Opaque(depth)
                   else Scale(depth, color) * SampleAt(cur, depth, k / 4 * 3 + k % 4)
    ensures out == Samples(cur, depth, color, 3, 4, x)
  {
    hide SampleAt, Scale, Opaque;
  }

  method ExpandGrey(cur: Row, x: nat, depth: nat, color: nat) returns (dest: seq<nat>)
    requires IsDepth(depth) && |cur| == WidthBytes(x, depth)
    ensures dest == Samples(cur, depth, color, 1, 2, x)
  {
    hide SampleAt;
    var out := new nat[2 * x];
    if depth == 16 {
      UnpackGrey16(cur, x, out);
    } else {
      UnpackRow(cur, depth, Scale(depth, color), x, out);
      AlphaExpandGrey(out, out, x);
    }
    dest := out[..];
    GreyAlphaSamples(cur, depth, color, x, dest);
  }

  method ExpandRgb(cur: Row, x: nat, depth: nat, color: nat) returns (dest: seq<nat>)
    requires IsDepth(depth) && |cur| == WidthBytes(3 * x, depth)
    ensures dest == Samples(cur, depth, color, 3, 4, x)
  {
    hide SampleAt;
    var out := new nat[4 * x];
    if depth == 16 {
      UnpackRgb16(cur, x, out);
    } else {
      UnpackRow(cur, depth, Scale(depth, color), 3 * x, out);
      AlphaExpandRgb(out, out, x);
    }
    dest := out[..];
    RgbAlphaSamples(cur, depth, color, x, dest);
  }

  /** A reconstructed row as the samples of the output image. */
  method ExpandRow(cur: Row, imgN: nat, outN: nat, x: nat, depth: nat, color: nat) returns (dest: seq<nat>)
    requires Layout(imgN, outN, depth) && |cur| == WidthBytes(x * imgN, depth)
    ensures dest == Samples(cur, depth, color, imgN, outN, x)
  {
    hide Samples;
    if imgN == outN {
      var out := new nat[x * imgN];
      UnpackRow(cur, depth, Scale(depth, color), x * imgN, out);
      dest := out[..];
      PlainSamples(cur, depth, color, imgN, x, dest);
    } else if imgN == 1 {
      dest := ExpandGrey(cur, x, depth, color);
    } else {
      dest := ExpandRgb(cur, x, depth, color);
    }
  }
}
