/** PNG row filters (section 9 of the PNG specification) and their inverse in stb_image.h and compare_frames.py. */
module PngFilter {
  import opened Bits

  type Row = seq<byte>

  function Abs(x: int): nat {
    if x < 0 then -x else x
  }

  /** Section 9.4: of left, above and upper left the one closest to left + above - upper left; ties in that order. */
  function PaethPredictor(a: byte, b: byte, c: byte): byte {
    var p := a + b - c;
    var pa, pb, pc := Abs(p - a), Abs(p - b), Abs(p - c);
    if pa <= pb && pa <= pc then a else if pb <= pc then b else c
  }

  /** The branch-free form. */
  function Paeth(a: byte, b: byte, c: byte): byte {
    var thresh := c * 3 - (a + b);
    var lo, hi := if a < b then a else b, if a < b then b else a;
    var t0 := if hi <= thresh then lo else c;
    if thresh <= lo then hi else t0
  }

  lemma PaethIsPredictor(a: byte, b: byte, c: byte)
    ensures Paeth(a, b, c) == PaethPredictor(a, b, c)
  {
  }

  /** The first index at which the smallest distance stands. */
  function FirstMinimum(d: seq<nat>): (i: nat)
    requires |d| > 0
    ensures i < |d|
    ensures forall j :: 0 <= j < |d| ==> d[i] <= d[j]
    ensures forall j :: 0 <= j < i ==> d[i] < d[j]
  {
    if |d| == 1 then 0
    else
      var i := FirstMinimum(d[1..]);
      if d[0] <= d[1..][i] then 0 else i + 1
  }

  /** The script's form: distances.index(min(distances)). */
  function PaethByIndex(a: byte, b: byte, c: byte): byte {
    var p := a + b - c;
    [a, b, c][FirstMinimum([Abs(p - a), Abs(p - b), Abs(p - c)])]
  }

  lemma PaethByIndexIsPredictor(a: byte, b: byte, c: byte)
    ensures PaethByIndex(a, b, c) == PaethPredictor(a, b, c)
  {
    var p := a + b - c;
    var d := [Abs(p - a), Abs(p - b), Abs(p - c)];
    var i := FirstMinimum(d);
    assert d[i] <= d[0] && d[i] <= d[1] && d[i] <= d[2];
  }

  function Average(a: byte, b: byte): byte {
    (a + b) / 2
  }

  /** Section 9.2: what filter type f predicts from left, above and upper left. */
  function Predictor(f: nat, a: byte, b: byte, c: byte): byte {
    if f == 1 then a
    else if f == 2 then b
    else if f == 3 then Average(a, b)
    else if f == 4 then PaethPredictor(a, b, c)
    else 0
  }

  /** The byte one pixel to the left of k; zero left of the row. */
  function Left(row: Row, bpp: nat, k: nat): byte
    requires 0 < bpp && k <= |row|
  {
    if k >= bpp then row[k - bpp] else 0
  }

  function Zeros(n: nat): (r: Row)
    ensures |r| == n && forall i :: 0 <= i < n ==> r[i] == 0
  {
    seq(n, _ => 0)
  }

  function Sum(x: byte, y: byte): byte {
    (x + y) % 256
  }

  function Difference(x: byte, y: byte): byte {
    (x - y) % 256
  }

  /** A row as an encoder filters it. */
  function Filter(f: nat, bpp: nat, row: Row, prior: Row): (r: Row)
    requires 0 < bpp && |prior| == |row|
    ensures |r| == |row|
  {
    seq(|row|, k requires 0 <= k < |row| =>
      Difference(row[k], Predictor(f, Left(row, bpp, k), prior[k], Left(prior, bpp, k))))
  }

  /** The first n bytes reconstructed from a filtered row. */
  function Unfilter(f: nat, bpp: nat, raw: Row, prior: Row, n: nat): (r: Row)
    requires 0 < bpp && |prior| == |raw| && n <= |raw|
    ensures |r| == n
  {
    if n == 0 then []
    else
      var r := Unfilter(f, bpp, raw, prior, n - 1);
      r + [Sum(raw[n - 1], Predictor(f, Left(r, bpp, n - 1), prior[n - 1], Left(prior, bpp, n - 1)))]
  }

  lemma SumUndoesDifference(x: byte, y: byte)
    ensures Sum(Difference(x, y), y) == x
  {
  }

  /** Reconstruction undoes every filter. */
  lemma {:induction false} UnfilterFilter(f: nat, bpp: nat, row: Row, prior: Row, n: nat)
    requires 0 < bpp && |prior| == |row| && n <= |row|
    ensures Unfilter(f, bpp, Filter(f, bpp, row, prior), prior, n) == row[..n]
  {
    hide Predictor, Sum, Difference;
    if n > 0 {
      UnfilterFilter(f, bpp, row, prior, n - 1);
      assert Left(row[..n - 1], bpp, n - 1) == Left(row, bpp, n - 1);
      SumUndoesDifference(row[n - 1], Predictor(f, Left(row, bpp, n - 1), prior[n - 1], Left(prior, bpp, n - 1)));
    }
  }

  /** Without a row above, up is none and Paeth is sub. */
  lemma {:induction false} FirstRowFilters(bpp: nat, raw: Row, n: nat)
    requires 0 < bpp && n <= |raw|
    ensures Unfilter(2, bpp, raw, Zeros(|raw|), n) == Unfilter(0, bpp, raw, Zeros(|raw|), n)
    ensures Unfilter(4, bpp, raw, Zeros(|raw|), n) == Unfilter(1, bpp, raw, Zeros(|raw|), n)
  {
    if n > 0 {
      FirstRowFilters(bpp, raw, n - 1);
    }
  }

  // ----- stb_image.h ------------------------------------------------------------------------------------------------

  method NoneRow(bpp: nat, raw: Row, cur: array<byte>, ghost prior: Row)
    requires 0 < bpp && |raw| == |prior| == cur.Length
    modifies cur
    ensures cur[..] == Unfilter(0, bpp, raw, prior, |raw|)
  {
    for k := 0 to |raw|
      invariant cur[..k] == Unfilter(0, bpp, raw, prior, k)
    {
      cur[k] := raw[k];
    }
    assert cur[..] == cur[..|raw|];
  }

  method SubRow(bpp: nat, raw: Row, cur: array<byte>, ghost prior: Row)
    requires 0 < bpp <= |raw| == |prior| == cur.Length
    modifies cur
    ensures cur[..] == Unfilter(1, bpp, raw, prior, |raw|)
  {
    for k := 0 to bpp
      invariant cur[..k] == Unfilter(1, bpp, raw, prior, k)
    {
      cur[k] := raw[k];
    }
    for k := bpp to |raw|
      invariant cur[..k] == Unfilter(1, bpp, raw, prior, k)
    {
      cur[k] := Sum(raw[k], cur[k - bpp]);
    }
    assert cur[..] == cur[..|raw|];
  }

  method UpRow(bpp: nat, raw: Row, cur: array<byte>, prior: array<byte>)
    requires 0 < bpp && |raw| == prior.Length == cur.Length && cur != prior
    modifies cur
    ensures cur[..] == Unfilter(2, bpp, raw, prior[..], |raw|)
  {
    for k := 0 to |raw|
      invariant cur[..k] == Unfilter(2, bpp, raw, prior[..], k)
    {
      cur[k] := Sum(raw[k], prior[k]);
    }
    assert cur[..] == cur[..|raw|];
  }

  /** One more byte: the two averages with and without a left neighbour. */
  lemma AverageStep(bpp: nat, raw: Row, prior: Row, k: nat)
    requires 0 < bpp && |prior| == |raw| && k < |raw|
    ensures var r := Unfilter(3, bpp, raw, prior, k);
            Unfilter(3, bpp, raw, prior, k + 1)
            == r + [Sum(raw[k], if k < bpp then prior[k] / 2 else Average(r[k - bpp], prior[k]))]
  {
    assert Average(0, prior[k]) == prior[k] / 2;
  }

  method AverageRow(bpp: nat, raw: Row, cur: array<byte>, prior: array<byte>)
    requires 0 < bpp <= |raw| == prior.Length == cur.Length && cur != prior
    modifies cur
    ensures cur[..] == Unfilter(3, bpp, raw, prior[..], |raw|)
  {
    assert cur[..0] == Unfilter(3, bpp, raw, prior[..], 0);
    hide Unfilter, Average, Sum;
    for k := 0 to bpp
      invariant cur[..k] == Unfilter(3, bpp, raw, prior[..], k)
    {
      AverageStep(bpp, raw, prior[..], k);
      cur[k] := Sum(raw[k], prior[k] / 2);
    }
    for k := bpp to |raw|
      invariant cur[..k] == Unfilter(3, bpp, raw, prior[..], k)
    {
      AverageStep(bpp, raw, prior[..], k);
      cur[k] := Sum(raw[k], Average(cur[k - bpp], prior[k]));
    }
    assert cur[..] == cur[..|raw|];
  }

  method PaethRow(bpp: nat, raw: Row, cur: array<byte>, prior: array<byte>)
    requires 0 < bpp <= |raw| == prior.Length == cur.Length && cur != prior
    modifies cur
    ensures cur[..] == Unfilter(4, bpp, raw, prior[..], |raw|)
  {
    for k := 0 to bpp
      invariant cur[..k] == Unfilter(4, bpp, raw, prior[..], k)
    {
      cur[k] := Sum(raw[k], prior[k]);
    }
    hide PaethPredictor, Paeth;
    for k := bpp to |raw|
      invariant cur[..k] == Unfilter(4, bpp, raw, prior[..], k)
    {
      PaethIsPredictor(cur[k - bpp], prior[k], prior[k - bpp]);
      cur[k] := Sum(raw[k], Paeth(cur[k - bpp], prior[k], prior[k - bpp]));
    }
    assert cur[..] == cur[..|raw|];
  }

  lemma NothingAbove(x: byte, a: byte)
    ensures Sum(x, 0 / 2) == x && Average(a, 0) == a / 2
  {
  }

  method AverageFirstRow(bpp: nat, raw: Row, cur: array<byte>)
    requires 0 < bpp <= |raw| == cur.Length
    modifies cur
    ensures cur[..] == Unfilter(3, bpp, raw, Zeros(|raw|), |raw|)
  {
    assert cur[..0] == Unfilter(3, bpp, raw, Zeros(|raw|), 0);
    hide Unfilter, Average, Sum;
    for k := 0 to bpp
      invariant cur[..k] == Unfilter(3, bpp, raw, Zeros(|raw|), k)
    {
      AverageStep(bpp, raw, Zeros(|raw|), k);
      NothingAbove(raw[k], 0);
      cur[k] := raw[k];
    }
    for k := bpp to |raw|
      invariant cur[..k] == Unfilter(3, bpp, raw, Zeros(|raw|), k)
    {
      AverageStep(bpp, raw, Zeros(|raw|), k);
      NothingAbove(raw[k], cur[k - bpp]);
      cur[k] := Sum(raw[k], cur[k - bpp] / 2);
    }
    assert cur[..] == cur[..|raw|];
  }

  const AVERAGE_FIRST := 5
  const FIRST_ROW_FILTER: seq<nat> := [0, 1, 0, AVERAGE_FIRST, 1]

  /** Undoes the filter of one row. The first row never looks at prior, whatever that holds. */
  method UnfilterRow(filterType: nat, first: bool, bpp: nat, raw: Row, cur: array<byte>, prior: array<byte>)
    requires filterType <= 4 && 0 < bpp <= |raw| == prior.Length == cur.Length && cur != prior
    modifies cur
    ensures cur[..] == Unfilter(filterType, bpp, raw, if first then Zeros(|raw|) else prior[..], |raw|)
  {
    hide Unfilter;
    var filter := if first then FIRST_ROW_FILTER[filterType] else filterType;
    FirstRowFilters(bpp, raw, |raw|);
    ghost var above := if first then Zeros(|raw|) else prior[..];
    match filter {
      case 0 => NoneRow(bpp, raw, cur, above);
      case 1 => SubRow(bpp, raw, cur, above);
      case 2 => UpRow(bpp, raw, cur, prior);
      case 3 => AverageRow(bpp, raw, cur, prior);
      case 4 => PaethRow(bpp, raw, cur, prior);
      case _ => AverageFirstRow(bpp, raw, cur);
    }
  }
}
