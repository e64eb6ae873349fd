/** Machine words as bit vectors, bit 0 least significant. The words of one expression have one width. */
module Words {
  import opened Bits

  type Word = seq<bool>

  function FromNat(v: nat, n: nat): (w: Word)
    ensures |w| == n
  {
    if n == 0 then [] else [v % 2 == 1] + FromNat(v / 2, n - 1)
  }

  function ToNat(w: Word): (v: nat)
    ensures v < Pow2(|w|)
  {
    if w == [] then 0 else (if w[0] then 1 else 0) + 2 * ToNat(w[1..])
  }

  function Zero(n: nat): (w: Word)
    ensures |w| == n
  {
    seq(n, _ => false)
  }

  function Ones(n: nat): (w: Word)
    ensures |w| == n
  {
    seq(n, _ => true)
  }

  function Not(a: Word): (w: Word)
    ensures |w| == |a|
  {
    seq(|a|, i requires 0 <= i < |a| => !a[i])
  }

  function And(a: Word, b: Word): (w: Word)
    requires |a| == |b|
    ensures |w| == |a|
  {
    seq(|a|, i requires 0 <= i < |a| => a[i] && b[i])
  }

  function Or(a: Word, b: Word): (w: Word)
    requires |a| == |b|
    ensures |w| == |a|
  {
    seq(|a|, i requires 0 <= i < |a| => a[i] || b[i])
  }

  function Xor(a: Word, b: Word): (w: Word)
    requires |a| == |b|
    ensures |w| == |a|
  {
    seq(|a|, i requires 0 <= i < |a| => a[i] != b[i])
  }

  /** a << k, dropping the bits that leave the word. */
  function Shl(a: Word, k: nat): (w: Word)
    ensures |w| == |a|
  {
    seq(|a|, i requires 0 <= i < |a| => i >= k && a[i - k])
  }

  /** a >> k for an unsigned word. */
  function Shr(a: Word, k: nat): (w: Word)
    ensures |w| == |a|
  {
    seq(|a|, i requires 0 <= i < |a| => i + k < |a| && a[i + k])
  }

  lemma {:induction false} ToNatFromNat(v: nat, n: nat)
    ensures ToNat(FromNat(v, n)) == Low(v, n)
  {
    if n > 0 {
      ToNatFromNat(v / 2, n - 1);
    }
  }

  lemma {:induction false} FromNatToNat(w: Word)
    ensures FromNat(ToNat(w), |w|) == w
  {
    if w != [] {
      FromNatToNat(w[1..]);
      assert w == [w[0]] + w[1..];
    }
  }

  lemma {:induction false} ToNatLast(w: Word)
    requires w != []
    ensures ToNat(w) == ToNat(w[..|w| - 1]) + (if w[|w| - 1] then Pow2(|w| - 1) else 0)
  {
    if |w| > 1 {
      ToNatLast(w[1..]);
      assert w[1..][..|w| - 2] == w[..|w| - 1][1..];
    }
  }

  /** Bits above the low n are zero: they do not count. */
  lemma {:induction false} ToNatLow(w: Word, n: nat)
    requires n <= |w| && forall i :: n <= i < |w| ==> !w[i]
    ensures ToNat(w) == ToNat(w[..n])
  {
    if n < |w| {
      ToNatLast(w);
      var v := w[..|w| - 1];
      ToNatLow(v, n);
      assert v[..n] == w[..n];
    } else {
      assert w[..n] == w;
    }
  }

  /** Mirroring the low n bits is Reverse. */
  lemma {:induction false} MirrorIsReverse(w: Word, v: nat, n: nat)
    requires |w| == n && forall i :: 0 <= i < n ==> w[i] == FromNat(v, n)[n - 1 - i]
    ensures ToNat(w) == Reverse(v, n)
    decreases n
  {
    if n > 0 {
      ToNatLast(w);
      var u := w[..n - 1];
      forall i | 0 <= i < n - 1 ensures u[i] == FromNat(v / 2, n - 1)[n - 2 - i] {
        assert FromNat(v, n)[n - 1 - i] == FromNat(v / 2, n - 1)[n - 2 - i];
      }
      MirrorIsReverse(u, v / 2, n - 1);
      assert w[n - 1] == FromNat(v, n)[0] == (v % 2 == 1);
      assert v % 2 == 0 || v % 2 == 1;
    }
  }

  lemma {:induction false} FromNatPrefix(v: nat, n: nat, m: nat)
    requires n <= m
    ensures FromNat(v, m)[..n] == FromNat(v, n)
  {
    if n > 0 {
      FromNatPrefix(v / 2, n - 1, m - 1);
      assert FromNat(v, m)[..n] == [v % 2 == 1] + FromNat(v / 2, m - 1)[..n - 1];
    }
  }
}
