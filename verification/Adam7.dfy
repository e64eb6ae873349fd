/** stb_image.h: the seven interlace passes (section 8.2 of the PNG specification). */
module Adam7 {
  import opened Division
  import opened PngFilter
  import opened PngImage
  import opened PngDecode

  const X_ORIGIN: seq<nat> := [0, 4, 0, 2, 0, 1, 0]
  const Y_ORIGIN: seq<nat> := [0, 0, 4, 0, 2, 0, 1]
  const X_SPACING: seq<nat> := [8, 8, 4, 4, 2, 2, 1]
  const Y_SPACING: seq<nat> := [8, 8, 8, 4, 4, 2, 2]

  /** (w - xorig + xspc - 1) / xspc in unsigned arithmetic, which never goes below zero for w >= 1. */
  function PassWidth(p: nat, w: nat): nat
    requires p < 7 && w >= 1
  {
    (w - X_ORIGIN[p] + X_SPACING[p] - 1) / X_SPACING[p]
  }

  function PassHeight(p: nat, h: nat): nat
    requires p < 7 && h >= 1
  {
    (h - Y_ORIGIN[p] + Y_SPACING[p] - 1) / Y_SPACING[p]
  }

  /** The pass of pixel (x, y), from the eight by eight pattern of the specification, counted from 0. */
  function PassOf(x: nat, y: nat): (p: nat)
    ensures p < 7
  {
    var i, j := x % 8, y % 8;
    if j % 2 == 1 then 6
    else if i % 2 == 1 then 5
    else if j % 4 == 2 then 4
    else if i % 4 == 2 then 3
    else if j == 4 then 2
    else if i == 4 then 1
    else 0
  }

  /** Pixel (i, j) of pass p lands at (x, y). */
  predicate Lands(p: nat, i: nat, j: nat, x: nat, y: nat)
    requires p < 7
  {
    x == i * X_SPACING[p] + X_ORIGIN[p] && y == j * Y_SPACING[p] + Y_ORIGIN[p]
  }

  function Column(p: nat, x: nat): nat
    requires p < 7
  {
    if x >= X_ORIGIN[p] then (x - X_ORIGIN[p]) / X_SPACING[p] else 0
  }

  function Line(p: nat, y: nat): nat
    requires p < 7
  {
    if y >= Y_ORIGIN[p] then (y - Y_ORIGIN[p]) / Y_SPACING[p] else 0
  }

  /** The i-th place of a grid with this spacing and origin, below a bound that admits more than i places. */
  lemma GridInside(spacing: nat, origin: nat, bound: nat, i: nat)
    requires origin < spacing && bound >= 1 && i < (bound - origin + spacing - 1) / spacing
    ensures i * spacing + origin < bound
    ensures i * spacing / spacing == i && (i * spacing + origin) % spacing == origin
  {
    var room := bound - origin + spacing - 1;
    var q := room / spacing;
    Divide(room, spacing);
    assert q * spacing == (q - i) * spacing + i * spacing;
    AtLeastOneTimes(q - i, spacing);
    QuotientIs(i * spacing, i, 0, spacing);
    QuotientIs(i * spacing + origin, i, origin, spacing);
  }

  /** Every place congruent to the origin is on the grid. */
  lemma GridCovers(spacing: nat, origin: nat, bound: nat, x: nat)
    requires origin < spacing && x < bound && x % spacing == origin
    ensures origin <= x && (x - origin) / spacing * spacing + origin == x
    ensures (x - origin) / spacing < (bound - origin + spacing - 1) / spacing
  {
    Divide(x, spacing);
    var i := x / spacing;
    assert x - origin == i * spacing;
    QuotientIs(i * spacing, i, 0, spacing);
    assert (i + 1) * spacing == i * spacing + spacing;
    QuotientAtLeast(bound - origin + spacing - 1, i + 1, spacing);
  }

  lemma ColumnStaysInside(p: nat, i: nat, w: nat, x: nat)
    requires p < 7 && w >= 1 && i < PassWidth(p, w) && x == i * X_SPACING[p] + X_ORIGIN[p]
    ensures x < w && Column(p, x) == i && x % X_SPACING[p] == X_ORIGIN[p]
  {
    GridInside(X_SPACING[p], X_ORIGIN[p], w, i);
  }

  lemma LineStaysInside(p: nat, j: nat, h: nat, y: nat)
    requires p < 7 && h >= 1 && j < PassHeight(p, h) && y == j * Y_SPACING[p] + Y_ORIGIN[p]
    ensures y < h && Line(p, y) == j && y % Y_SPACING[p] == Y_ORIGIN[p]
  {
    GridInside(Y_SPACING[p], Y_ORIGIN[p], h, j);
  }

  lemma Eighths(x: nat)
    ensures x % 4 == x % 8 % 4 && x % 2 == x % 8 % 2 && x % 1 == 0
  {
    QuotientIs(x, 2 * (x / 8) + x % 8 / 4, x % 8 % 4, 4);
    QuotientIs(x, 4 * (x / 8) + x % 8 / 2, x % 8 % 2, 2);
  }

  /** The pattern picks exactly the pass whose grid the pixel is on. */
  lemma PatternIsGrid(p: nat, x: nat, y: nat)
    requires p < 7
    ensures PassOf(x, y) == p ==> x % X_SPACING[p] == X_ORIGIN[p] && y % Y_SPACING[p] == Y_ORIGIN[p]
    ensures x % X_SPACING[p] == X_ORIGIN[p] && y % Y_SPACING[p] == Y_ORIGIN[p] ==> PassOf(x, y) == p
  {
    Eighths(x);
    Eighths(y);
    PatternInCell(p, x % 8, y % 8);
  }

  lemma PatternInCell(p: nat, i: nat, j: nat)
    requires p < 7 && i < 8 && j < 8
    ensures PassOf(i, j) == p <==> i % X_SPACING[p] == X_ORIGIN[p] && j % Y_SPACING[p] == Y_ORIGIN[p]
  {
    var even, quarter := i % 2 == 0, i % 4 == 0;
    assert i in {0, 1, 2, 3, 4, 5, 6, 7} && j in {0, 1, 2, 3, 4, 5, 6, 7};
  }

  /** What a pass writes lies inside the image and belongs to that pass. */
  lemma PassStaysInside(p: nat, i: nat, j: nat, w: nat, h: nat, x: nat, y: nat)
    requires p < 7 && w >= 1 && h >= 1 && i < PassWidth(p, w) && j < PassHeight(p, h) && Lands(p, i, j, x, y)
    ensures x < w && y < h && PassOf(x, y) == p && Column(p, x) == i && Line(p, y) == j
  {
    hide PassOf, PassWidth, PassHeight, Column, Line;
    ColumnStaysInside(p, i, w, x);
    LineStaysInside(p, j, h, y);
    PatternIsGrid(p, x, y);
  }

  /** Every pixel of the image is written by its pass. */
  lemma PixelIsWritten(x: nat, y: nat, w: nat, h: nat)
    requires x < w && y < h
    ensures var p := PassOf(x, y);
            Column(p, x) < PassWidth(p, w) && Line(p, y) < PassHeight(p, h) && Lands(p, Column(p, x), Line(p, y), x, y)
  {
    hide PassOf;
    var p := PassOf(x, y);
    PatternIsGrid(p, x, y);
    GridCovers(X_SPACING[p], X_ORIGIN[p], w, x);
    GridCovers(Y_SPACING[p], Y_ORIGIN[p], h, y);
  }

  /** So each pixel is written exactly once. */
  lemma WrittenOnce(p: nat, i: nat, j: nat, q: nat, k: nat, l: nat, w: nat, h: nat, x: nat, y: nat)
    requires p < 7 && q < 7 && w >= 1 && h >= 1
    requires i < PassWidth(p, w) && j < PassHeight(p, h) && Lands(p, i, j, x, y)
    requires k < PassWidth(q, w) && l < PassHeight(q, h) && Lands(q, k, l, x, y)
    ensures p == q && i == k && j == l
  {
    hide PassWidth, PassHeight, Lands, PassOf, Column, Line;
    PassStaysInside(p, i, j, w, h, x, y);
    PassStaysInside(q, k, l, w, h, x, y);
  }

  // ----- the passes together hold w * h pixels -----------------------------------------------------------------------

  /** Odd lines, odd columns of even lines, and the quarter that is left. */
  lemma Quarters(w: nat, h: nat)
    ensures w * h == w * (h / 2) + (w / 2) * ((h + 1) / 2) + ((w + 1) / 2) * ((h + 1) / 2)
  {
    var a, b, c, d := h / 2, (h + 1) / 2, w / 2, (w + 1) / 2;
    assert h == a + b && w == c + d;
    assert w * (a + b) == w * a + w * b;
    assert (c + d) * b == c * b + d * b;
  }

  function PassPixels(p: nat, w: nat, h: nat): nat
    requires p < 7 && w >= 1 && h >= 1
  {
    PassWidth(p, w) * PassHeight(p, h)
  }

  lemma PassSizes(w: nat, h: nat)
    requires w >= 1 && h >= 1
    ensures PassWidth(6, w) == w && PassHeight(6, h) == h / 2
    ensures PassWidth(5, w) == w / 2 && PassHeight(5, h) == (h + 1) / 2
    ensures var w1, h1 := (w + 1) / 2, (h + 1) / 2;
            && PassWidth(4, w) == w1 && PassHeight(4, h) == h1 / 2
            && PassWidth(3, w) == w1 / 2 && PassHeight(3, h) == (h1 + 1) / 2
            && var w2, h2 := (w1 + 1) / 2, (h1 + 1) / 2;
               && PassWidth(2, w) == w2 && PassHeight(2, h) == h2 / 2
               && PassWidth(1, w) == w2 / 2 && PassHeight(1, h) == (h2 + 1) / 2
               && PassWidth(0, w) == (w2 + 1) / 2 && PassHeight(0, h) == (h2 + 1) / 2
  {
  }

  lemma PassesHoldTheImage(w: nat, h: nat)
    requires w >= 1 && h >= 1
    ensures PassPixels(0, w, h) + PassPixels(1, w, h) + PassPixels(2, w, h) + PassPixels(3, w, h)
          + PassPixels(4, w, h) + PassPixels(5, w, h) + PassPixels(6, w, h) == w * h
  {
    hide PassWidth, PassHeight;
    PassSizes(w, h);
    var w1, h1 := (w + 1) / 2, (h + 1) / 2;
    Quarters(w, h);
    Quarters(w1, h1);
    Quarters((w1 + 1) / 2, (h1 + 1) / 2);
  }

  // ----- de-interlacing ----------------------------------------------------------------------------------------------

  type Pixel = seq<nat>

  /** Pixel i of a row of samples. */
  function PixelAt(row: seq<nat>, outN: nat, i: nat): Pixel {
    seq(outN, c requires c >= 0 => if i * outN + c < |row| then row[i * outN + c] else 0)
  }

  /** Copies the pixels of one pass to their places; every other place keeps what it had. */
  method ScatterPass(final: array2<Pixel>, image: seq<seq<nat>>, outN: nat, p: nat)
    requires p < 7 && final.Length1 >= 1 && final.Length0 >= 1 && |image| == PassHeight(p, final.Length0)
    modifies final
    ensures forall y, x :: 0 <= y < final.Length0 && 0 <= x < final.Length1 ==>
              final[y, x] == if PassOf(x, y) == p && Line(p, y) < |image|
                             then PixelAt(image[Line(p, y)], outN, Column(p, x)) else old(final[y, x])
  {
    hide PixelAt, PassOf, PassWidth, PassHeight, Line, Column;
    var w, h := final.Length1, final.Length0;
    for j := 0 to PassHeight(p, h)
      invariant forall y, x :: 0 <= y < h && 0 <= x < w ==>
                  final[y, x] == if PassOf(x, y) == p && Line(p, y) < j
                                 then PixelAt(image[Line(p, y)], outN, Column(p, x)) else old(final[y, x])
    {
      for i := 0 to PassWidth(p, w)
        invariant forall y, x :: 0 <= y < h && 0 <= x < w ==>
                    final[y, x] == if PassOf(x, y) == p && (Line(p, y) < j || (Line(p, y) == j && Column(p, x) < i))
                                   then PixelAt(image[Line(p, y)], outN, Column(p, x)) else old(final[y, x])
      {
        var outY, outX := j * Y_SPACING[p] + Y_ORIGIN[p], i * X_SPACING[p] + X_ORIGIN[p];
        PassStaysInside(p, i, j, w, h, outX, outY);
        final[outY, outX] := PixelAt(image[j], outN, i);
        forall y, x | 0 <= y < h && 0 <= x < w && PassOf(x, y) == p && Line(p, y) == j && Column(p, x) == i
          ensures x == outX && y == outY
        {
          PixelIsWritten(x, y, w, h);
        }
      }
      forall y, x | 0 <= y < h && 0 <= x < w && PassOf(x, y) == p
        ensures Column(p, x) < PassWidth(p, w)
      {
        PixelIsWritten(x, y, w, h);
      }
    }
  }

  /** Bytes of pass p in the raw stream. */
  function PassBytes(imgN: nat, depth: nat, w: nat, h: nat, p: nat): nat
    requires p < 7 && w >= 1 && h >= 1
  {
    (WidthBytes(PassWidth(p, w) * imgN, depth) + 1) * PassHeight(p, h)
  }

  predicate PassEmpty(p: nat, w: nat, h: nat)
    requires p < 7 && w >= 1 && h >= 1
  {
    PassWidth(p, w) == 0 || PassHeight(p, h) == 0
  }

  /** The raw stream from pass p on: the passes follow each other, empty ones take no bytes. */
  function PassData(raw: Row, imgN: nat, depth: nat, w: nat, h: nat, p: nat): Row
    requires p <= 7 && w >= 1 && h >= 1
  {
    if p == 0 then raw
    else
      var d := PassData(raw, imgN, depth, w, h, p - 1);
      if PassEmpty(p - 1, w, h) then d
      else if PassBytes(imgN, depth, w, h, p - 1) <= |d| then d[PassBytes(imgN, depth, w, h, p - 1)..]
      else []
  }

  /** The row of pass p that holds line y. */
  function PassRow(raw: Row, imgN: nat, outN: nat, depth: nat, color: nat, w: nat, h: nat, p: nat, j: nat): seq<nat>
    requires Layout(imgN, outN, depth) && p < 7 && w >= 1 && h >= 1
  {
    Samples(RowAt(PassData(raw, imgN, depth, w, h, p), WidthBytes(PassWidth(p, w) * imgN, depth),
                  FilterBytes(imgN, depth), j),
            depth, color, imgN, outN, PassWidth(p, w))
  }

  function Expected(raw: Row, imgN: nat, outN: nat, depth: nat, color: nat, w: nat, h: nat, x: nat, y: nat): Pixel
    requires Layout(imgN, outN, depth) && w >= 1 && h >= 1
  {
    var p := PassOf(x, y);
    PixelAt(PassRow(raw, imgN, outN, depth, color, w, h, p, Line(p, y)), outN, Column(p, x))
  }

  predicate PassAcceptable(raw: Row, imgN: nat, outN: nat, depth: nat, w: nat, h: nat, p: nat)
    requires p < 7 && w >= 1 && h >= 1
  {
    PassEmpty(p, w, h) || (
      && Fits(imgN, outN, PassWidth(p, w), PassHeight(p, h), depth)
      && Acceptable(PassData(raw, imgN, depth, w, h, p), WidthBytes(PassWidth(p, w) * imgN, depth), PassHeight(p, h)))
  }

  method DecodePass(data: Row, imgN: nat, outN: nat, depth: nat, color: nat, ghost raw: Row, final: array2<Pixel>,
                    p: nat)
    returns (ok: bool)
    requires Layout(imgN, outN, depth) && p < 7 && final.Length1 >= 1 && final.Length0 >= 1
    requires !PassEmpty(p, final.Length1, final.Length0)
    requires data == PassData(raw, imgN, depth, final.Length1, final.Length0, p)
    modifies final
    ensures ok <==> PassAcceptable(raw, imgN, outN, depth, final.Length1, final.Length0, p)
    ensures ok ==> PassBytes(imgN, depth, final.Length1, final.Length0, p) <= |data|
    ensures ok ==> forall y, x :: 0 <= y < final.Length0 && 0 <= x < final.Length1 ==>
              final[y, x] == if PassOf(x, y) == p
                             then Expected(raw, imgN, outN, depth, color, final.Length1, final.Length0, x, y)
                             else old(final[y, x])
  {
    hide PassWidth, PassHeight, PassOf, Line, Column, PixelAt, PassData, Samples, RowAt, WidthBytes, FilterBytes, Fits;
    var w, h := final.Length1, final.Length0;
    var image;
    ok, image := CreatePngImageRaw(data, imgN, outN, PassWidth(p, w), PassHeight(p, h), depth, color);
    if !ok {
      return;
    }
    ScatterPass(final, image, outN, p);
    forall y, x | 0 <= y < h && 0 <= x < w && PassOf(x, y) == p
      ensures Line(p, y) < |image|
    {
      PixelIsWritten(x, y, w, h);
    }
  }

  /** Every pixel of the result comes from its place in its pass. The whole image is allocated before any pass, so it
      must pass the size test too. */
  method CreatePngImage(raw: Row, imgN: nat, outN: nat, depth: nat, color: nat, w: nat, h: nat)
    returns (ok: bool, final: array2?<Pixel>)
    requires Layout(imgN, outN, depth) && w >= 1 && h >= 1
    ensures ok <==>
              && Allocatable(outN, w, h, depth)
              && forall p :: 0 <= p < 7 ==> PassAcceptable(raw, imgN, outN, depth, w, h, p)
    ensures ok ==> final != null && fresh(final) && final.Length0 == h && final.Length1 == w
    ensures ok ==> forall y, x :: 0 <= y < h && 0 <= x < w ==>
              final[y, x] == Expected(raw, imgN, outN, depth, color, w, h, x, y)
  {
    hide Allocatable, PassWidth, PassHeight, PassOf, Expected, PassBytes, Fits, Acceptable;
    if !Allocatable(outN, w, h, depth) {
      return false, null;
    }
    var image := new Pixel[h, w]((_, _) => []);
    var data := raw;
    for p := 0 to 7
      invariant data == PassData(raw, imgN, depth, w, h, p)
      invariant forall q :: 0 <= q < p ==> PassAcceptable(raw, imgN, outN, depth, w, h, q)
      invariant forall y, x :: 0 <= y < h && 0 <= x < w && PassOf(x, y) < p ==>
                  image[y, x] == Expected(raw, imgN, outN, depth, color, w, h, x, y)
    {
      if PassWidth(p, w) != 0 && PassHeight(p, h) != 0 {
        var imgLen := PassBytes(imgN, depth, w, h, p);
        ok := DecodePass(data, imgN, outN, depth, color, raw, image, p);
        if !ok {
          return false, null;
        }
        data := data[imgLen..];
      }
      forall y, x | 0 <= y < h && 0 <= x < w && PassOf(x, y) == p ensures !PassEmpty(p, w, h) {
        PixelIsWritten(x, y, w, h);
      }
    }
    return true, image;
  }

  /** A large grey 16-bit image with added alpha: every pass passes its size tests, the whole image does not. */
  lemma PassesFitWholeDoesNot()
    ensures forall p :: 0 <= p < 7 ==> Fits(1, 2, PassWidth(p, 30000), PassHeight(p, 30000), 16)
    ensures !Allocatable(2, 30000, 30000, 16)
  {
    forall p | 0 <= p < 7 ensures PassWidth(p, 30000) <= 30000 && PassHeight(p, 30000) <= 15000 {
      assert p == 0 || p == 1 || p == 2 || p == 3 || p == 4 || p == 5 || p == 6;
    }
    forall p | 0 <= p < 7 ensures Fits(1, 2, PassWidth(p, 30000), PassHeight(p, 30000), 16) {
      SmallFits(PassWidth(p, 30000), PassHeight(p, 30000));
    }
  }

  lemma SmallFits(x: nat, y: nat)
    requires x <= 30000 && y <= 15000
    ensures Fits(1, 2, x, y, 16)
  {
    Smaller(x, y, 30000, 15000);
    Smaller(WidthBytes(x, 16), y, 60000, 15000);
  }

  lemma Smaller(x: nat, y: nat, a: nat, b: nat)
    requires x <= a && y <= b
    ensures x * y <= a * b
  {
  }
}
