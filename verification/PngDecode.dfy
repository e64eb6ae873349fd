/** stb_image.h: stbi__create_png_image_raw, and read_rgb_png of compare_frames.py on the same filtered stream. */
module PngDecode {
  import opened Bits
  import opened Division
  import opened PngFilter
  import opened PngImage

  const INT_MAX := 0x7FFF_FFFF

  /** Distance in bytes to the corresponding byte of the pixel on the left. */
  function FilterBytes(imgN: nat, depth: nat): nat {
    if depth < 8 then 1 else if depth == 16 then 2 * imgN else imgN
  }

  /** The size stbi__malloc_mad3 tests for x times y pixels stays in int. */
  predicate Allocatable(outN: nat, x: nat, y: nat, depth: nat) {
    x * y * (if depth == 16 then 2 * outN else outN) <= INT_MAX
  }

  /** And so do the products stbi__mad2sizes_valid and stbi__mad3sizes_valid test. */
  predicate Fits(imgN: nat, outN: nat, x: nat, y: nat, depth: nat) {
    var w := WidthBytes(x * imgN, depth);
    && Allocatable(outN, x, y, depth)
    && x * imgN * depth + 7 <= INT_MAX
    && w * y + w <= INT_MAX
  }

  predicate Acceptable(raw: Row, w: nat, y: nat) {
    (w + 1) * y <= |raw| && forall j :: 0 <= j < y ==> FilterAt(raw, w, j) <= 4
  }

  lemma RowIsWideEnough(x: nat, imgN: nat, depth: nat)
    requires x > 0 && 1 <= imgN <= 4 && IsDepth(depth)
    ensures 0 < FilterBytes(imgN, depth) <= WidthBytes(x * imgN, depth)
  {
    AtLeastOneTimes(x, imgN);
    var n := x * imgN;
    assert n >= imgN;
    if depth == 1 {
    } else if depth == 2 {
    } else if depth == 4 {
    } else if depth == 8 {
      assert WidthBytes(n, 8) == n;
    } else {
      assert WidthBytes(n, 16) == 2 * n;
    }
  }

  predicate HoldsRows(raw: Row, w: nat, y: nat) {
    forall j :: 0 <= j < y ==> |Rest(raw, w, j)| > w
  }

  /** The two halves of the filter buffer take turns; the first row never reads the other, uninitialised half. */
  method DecodeRows(raw: Row, w: nat, imgN: nat, outN: nat, x: nat, y: nat, depth: nat, color: nat)
    returns (ok: bool, out: seq<seq<nat>>)
    requires Layout(imgN, outN, depth) && w == WidthBytes(x * imgN, depth) && 0 < FilterBytes(imgN, depth) <= w
    requires HoldsRows(raw, w, y)
    ensures ok <==> forall j :: 0 <= j < y ==> FilterAt(raw, w, j) <= 4
    ensures ok ==> IsImage(out, raw, imgN, outN, x, y, depth, color)
  {
    hide WidthBytes, FilterBytes, RowAt, Samples, Unfilter, Rest, IsDepth;
    out := [];
    var bpp := FilterBytes(imgN, depth);
    var even, odd := new byte[w], new byte[w];
    var rest := raw;
    RestStarts(raw, w);
    for j := 0 to y
      invariant rest == Rest(raw, w, j) && |out| == j
      invariant j > 0 ==> (if j % 2 == 1 then even else odd)[..] == RowAt(raw, w, bpp, j - 1)
      invariant forall k :: 0 <= k < j ==> FilterAt(raw, w, k) <= 4
      invariant forall k :: 0 <= k < j ==> out[k] == Samples(RowAt(raw, w, bpp, k), depth, color, imgN, outN, x)
    {
      var cur, prior := if j % 2 == 0 then even else odd, if j % 2 == 0 then odd else even;
      RowStep(raw, w, bpp, j);
      var filter := rest[0];
      if filter > 4 {
        return false, out;
      }
      UnfilterRow(filter, j == 0, bpp, rest[1..w + 1], cur, prior);
      rest := rest[w + 1..];
      var dest := ExpandRow(cur[..], imgN, outN, x, depth, color);
      out := out + [dest];
    }
    ok := true;
  }

  lemma RestStarts(raw: Row, w: nat)
    ensures Rest(raw, w, 0) == raw
  {
  }

  method CreatePngImageRaw(raw: Row, imgN: nat, outN: nat, x: nat, y: nat, depth: nat, color: nat)
    returns (ok: bool, out: seq<seq<nat>>)
    requires Layout(imgN, outN, depth) && x > 0 && y > 0
    ensures ok <==> Fits(imgN, outN, x, y, depth) && Acceptable(raw, WidthBytes(x * imgN, depth), y)
    ensures ok ==> IsImage(out, raw, imgN, outN, x, y, depth, color)
  {
    hide Fits, WidthBytes, FilterBytes, FilterAt, IsImage;
    var w := WidthBytes(x * imgN, depth);
    if !Fits(imgN, outN, x, y, depth) || |raw| < (w + 1) * y {
      return false, [];
    }
    RowIsWideEnough(x, imgN, depth);
    forall j | 0 <= j < y ensures |Rest(raw, w, j)| > w {
      RestLength(raw, w, y, j);
    }
    ok, out := DecodeRows(raw, w, imgN, outN, x, y, depth, color);
  }

  predicate IsImage(out: seq<seq<nat>>, raw: Row, imgN: nat, outN: nat, x: nat, y: nat, depth: nat, color: nat)
    requires Layout(imgN, outN, depth)
  {
    |out| == y && forall j :: 0 <= j < y ==>
      out[j] == Samples(RowAt(raw, WidthBytes(x * imgN, depth), FilterBytes(imgN, depth), j),
                        depth, color, imgN, outN, x)
  }

  lemma RowStep(raw: Row, w: nat, bpp: nat, j: nat)
    requires bpp > 0 && |Rest(raw, w, j)| > w
    ensures var r := Rest(raw, w, j);
            && RowAt(raw, w, bpp, j) ==
               Unfilter(r[0], bpp, r[1..w + 1], if j == 0 then Zeros(w) else RowAt(raw, w, bpp, j - 1), w)
            && Rest(raw, w, j + 1) == r[w + 1..] && FilterAt(raw, w, j) == r[0]
  {
  }

  // ----- compare_frames.py -------------------------------------------------------------------------------------------

  /** The first three samples of every pixel of n samples. */
  function Rgb(s: seq<nat>, n: nat, x: nat): seq<nat>
    requires n in {3, 4} && |s| == n * x
  {
    seq(3 * x, k requires 0 <= k < 3 * x => s[k / 3 * n + k % 3])
  }

  predicate IsRgb(rgb: seq<seq<nat>>, raw: Row, n: nat, x: nat, y: nat)
    requires n in {3, 4}
  {
    |rgb| == y && forall j :: 0 <= j < y ==> rgb[j] == Rgb(RowAt(raw, n * x, n, j), n, x)
  }

  /** Every byte is replaced by its sum with the prediction from the row so far and a prior row of zeros at the top. */
  method UnfilterInPlace(filterType: nat, channels: nat, row: array<byte>, prior: Row)
    requires channels > 0 && |prior| == row.Length && filterType <= 4
    modifies row
    ensures row[..] == Unfilter(filterType, channels, old(row[..]), prior, row.Length)
  {
    hide PaethPredictor, PaethByIndex;
    for i := 0 to row.Length
      invariant row[..i] == Unfilter(filterType, channels, old(row[..]), prior, i)
      invariant row[i..] == old(row[i..])
    {
      var left := if i >= channels then row[i - channels] else 0;
      var above := prior[i];
      var upperLeft := if i >= channels then prior[i - channels] else 0;
      var predictor: byte := 0;
      if filterType == 1 {
        predictor := left;
      } else if filterType == 2 {
        predictor := above;
      } else if filterType == 3 {
        predictor := Average(left, above);
      } else if filterType == 4 {
        PaethByIndexIsPredictor(left, above, upperLeft);
        predictor := PaethByIndex(left, above, upperLeft);
      }
      row[i] := Sum(row[i], predictor);
    }
    assert row[..] == row[..row.Length];
  }

  method FirstThree(row: Row, channels: nat, width: nat) returns (rgb: seq<nat>)
    requires channels in {3, 4} && |row| == channels * width
    ensures rgb == Rgb(row, channels, width)
  {
    rgb := [];
    for x := 0 to width
      invariant |rgb| == 3 * x
      invariant forall k :: 0 <= k < 3 * x ==> rgb[k] == row[k / 3 * channels + k % 3]
    {
      rgb := rgb + [row[x * channels], row[x * channels + 1], row[x * channels + 2]];
    }
  }

  lemma {:induction false} RestIsSuffix(raw: Row, w: nat, y: nat, j: nat)
    requires (w + 1) * y == |raw| && j <= y
    ensures (w + 1) * j <= |raw| && Rest(raw, w, j) == raw[(w + 1) * j..]
    ensures j < y ==> (w + 1) * j + w + 1 <= |raw|
  {
    if j > 0 {
      RestIsSuffix(raw, w, y, j - 1);
      assert (w + 1) * j == (w + 1) * (j - 1) + (w + 1);
    }
    if j < y {
      AtLeastOneTimes(y - j, w + 1);
      assert (w + 1) * y == (w + 1) * j + (y - j) * (w + 1);
    }
  }

  /** The filter type and the filtered bytes of line y, which starts here. */
  method ScanLine(raw: Row, stride: nat, channels: nat, start: nat, ghost y: nat) returns (filterType: byte, line: Row)
    requires start + stride + 1 <= |raw| && Rest(raw, stride, y) == raw[start..] && channels > 0
    ensures filterType == FilterAt(raw, stride, y) && |line| == stride
    ensures RowAt(raw, stride, channels, y)
         == Unfilter(filterType, channels, line,
                    if y == 0 then Zeros(stride) else RowAt(raw, stride, channels, y - 1), stride)
  {
    hide Unfilter, RowAt, Rest, FilterAt;
    RowStep(raw, stride, channels, y);
    filterType := raw[start];
    line := raw[start + 1..start + 1 + stride];
    assert line == raw[start..][1..stride + 1];
  }

  method ReadRgb(raw: Row, width: nat, height: nat, channels: nat) returns (ok: bool, rgb: seq<seq<nat>>)
    requires channels in {3, 4}
    ensures var w := channels * width;
            ok <==> |raw| == (w + 1) * height && forall j :: 0 <= j < height ==> FilterAt(raw, w, j) <= 4
    ensures ok ==> IsRgb(rgb, raw, channels, width, height)
  {
    hide Rgb, Unfilter, RowAt, Rest, FilterAt;
    rgb := [];
    var stride := channels * width;
    if |raw| != (stride + 1) * height {
      return false, rgb;
    }
    var prior := Zeros(stride);
    for y := 0 to height
      invariant |rgb| == y && prior == if y == 0 then Zeros(stride) else RowAt(raw, stride, channels, y - 1)
      invariant forall j :: 0 <= j < y ==> FilterAt(raw, stride, j) <= 4
      invariant forall j :: 0 <= j < y ==> rgb[j] == Rgb(RowAt(raw, stride, channels, j), channels, width)
    {
      RestIsSuffix(raw, stride, height, y);
      var start := (stride + 1) * y;
      var filterType, line := ScanLine(raw, stride, channels, start, y);
      if filterType > 4 {
        return false, rgb;
      }
      var row := new byte[stride](i requires 0 <= i < stride => line[i]);
      assert row[..] == line;
      UnfilterInPlace(filterType, channels, row, prior);
      var three := FirstThree(row[..], channels, width);
      rgb := rgb + [three];
      prior := row[..];
    }
    ok := true;
  }

  lemma PixelAndChannel(i: nat, c: nat, n: nat)
    requires n in {3, 4} && c < 3
    ensures (i * n + c) / n == i && (i * n + c) % n == c
  {
  }

  lemma SameRow(row: Row, color: nat, n: nat, outN: nat, x: nat)
    requires n in {3, 4} && outN in {n, 4} && |row| == n * x
    ensures Rgb(Samples(row, 8, color, n, outN, x), outN, x) == Rgb(row, n, x)
  {
    var s := Samples(row, 8, color, n, outN, x);
    forall k | 0 <= k < 3 * x ensures s[k / 3 * outN + k % 3] == row[k / 3 * n + k % 3] {
      PixelAndChannel(k / 3, k % 3, outN);
      assert s[k / 3 * outN + k % 3] == Channel(row, 8, color, n, k / 3, k % 3);
    }
  }

  /** On eight-bit RGB and RGBA both decoders see the same picture, with or without an added alpha channel. */
  lemma DecodersAgree(raw: Row, out: seq<seq<nat>>, rgb: seq<seq<nat>>, n: nat, outN: nat, x: nat, y: nat, color: nat,
                      j: nat)
    requires n in {3, 4} && outN in {n, 4} && j < y
    requires IsImage(out, raw, n, outN, x, y, 8, color) && IsRgb(rgb, raw, n, x, y)
    ensures |out[j]| == outN * x && Rgb(out[j], outN, x) == rgb[j]
  {
    hide Samples, Rgb, RowAt;
    assert WidthBytes(x * n, 8) == n * x;
    SameRow(RowAt(raw, n * x, n, j), color, n, outN, x);
  }
}
