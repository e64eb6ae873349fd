/** Shifts and masks on naturals, and the bit order of a byte stream. */
module Bits {
  type byte = x: nat | x < 256

  function Pow2(n: nat): (r: nat)
    ensures r >= 1
  {
    if n == 0 then 1 else 2 * Pow2(n - 1)
  }

  /** v << k */
  function ShiftLeft(v: nat, k: nat): nat {
    if k == 0 then v else 2 * ShiftLeft(v, k - 1)
  }

  /** v >> k */
  function ShiftRight(v: nat, k: nat): nat {
    if k == 0 then v else ShiftRight(v / 2, k - 1)
  }

  /** v & ((1 << k) - 1) */
  function Low(v: nat, k: nat): (r: nat)
    ensures r < Pow2(k)
  {
    if k == 0 then 0 else v % 2 + 2 * Low(v / 2, k - 1)
  }

  lemma Pow2Values()
    ensures Pow2(1) == 2 && Pow2(2) == 4 && Pow2(3) == 8 && Pow2(4) == 16
    ensures Pow2(5) == 32 && Pow2(6) == 64 && Pow2(7) == 128 && Pow2(8) == 256
    ensures Pow2(9) == 512 && Pow2(10) == 1024 && Pow2(11) == 2048 && Pow2(12) == 4096
    ensures Pow2(13) == 8192 && Pow2(14) == 16384 && Pow2(15) == 32768 && Pow2(16) == 65536
  {
  }

  lemma {:induction false} Pow2Mono(a: nat, b: nat)
    requires a <= b
    ensures Pow2(a) <= Pow2(b)
    decreases b
  {
    if a < b {
      Pow2Mono(a, b - 1);
    }
  }

  lemma {:induction false} ShiftLeftAdd(a: nat, b: nat, k: nat)
    ensures ShiftLeft(a + b, k) == ShiftLeft(a, k) + ShiftLeft(b, k)
  {
    if k > 0 {
      ShiftLeftAdd(a, b, k - 1);
    }
  }

  lemma {:induction false} ShiftLeftLe(a: nat, b: nat, k: nat)
    ensures a <= b <==> ShiftLeft(a, k) <= ShiftLeft(b, k)
  {
    if k > 0 {
      ShiftLeftLe(a, b, k - 1);
    }
  }

  lemma {:induction false} ShiftLeftIn(a: nat, k: nat)
    ensures ShiftLeft(2 * a, k) == 2 * ShiftLeft(a, k)
  {
    if k > 0 {
      ShiftLeftIn(a, k - 1);
    }
  }

  lemma {:induction false} ShiftLeftPow2(a: nat, k: nat)
    ensures ShiftLeft(Pow2(a), k) == Pow2(a + k)
  {
    if k > 0 {
      ShiftLeftPow2(a, k - 1);
    }
  }

  lemma {:induction false} ShiftLeftZero(k: nat)
    ensures ShiftLeft(0, k) == 0
  {
    if k > 0 {
      ShiftLeftZero(k - 1);
    }
  }

  /** Comparing with a shifted limit compares the shifted number. */
  lemma {:induction false} BelowShifted(v: nat, e: nat, k: nat)
    ensures v < ShiftLeft(e, k) <==> ShiftRight(v, k) < e
  {
    if k > 0 {
      BelowShifted(v / 2, e, k - 1);
    }
  }

  lemma {:induction false} ShiftBack(v: nat, k: nat)
    ensures ShiftRight(ShiftLeft(v, k), k) == v
  {
    if k > 0 {
      ShiftBack(v, k - 1);
    }
  }

  lemma {:induction false} LowOfSmall(v: nat, k: nat)
    requires v < Pow2(k)
    ensures Low(v, k) == v
  {
    if k > 0 {
      LowOfSmall(v / 2, k - 1);
    }
  }

  /** Masking a masked number. */
  lemma {:induction false} LowLow(v: nat, m: nat, n: nat)
    requires n <= m
    ensures Low(Low(v, m), n) == Low(v, n)
    decreases n
  {
    if n > 0 {
      LowLow(v / 2, m - 1, n - 1);
    }
  }

  /** Adding one step of 2^k leaves the low k bits. */
  lemma {:induction false} LowPlusStep(v: nat, k: nat)
    ensures Low(v + Pow2(k), k) == Low(v, k)
  {
    if k > 0 {
      LowPlusStep(v / 2, k - 1);
      assert (v + Pow2(k)) / 2 == v / 2 + Pow2(k - 1);
    }
  }

  /** Less than 2^k apart, numbers with the same low k bits are the same. */
  lemma {:induction false} LowApart(v: nat, w: nat, k: nat)
    requires v <= w < v + Pow2(k) && Low(v, k) == Low(w, k)
    ensures v == w
  {
    if k > 0 {
      LowApart(v / 2, w / 2, k - 1);
    }
  }

  lemma {:induction false} LowIsMod(v: nat, k: nat)
    ensures exists q: nat :: v == ShiftLeft(q, k) + Low(v, k)
  {
    if k == 0 {
      assert v == ShiftLeft(v, 0) + Low(v, 0);
    } else {
      LowIsMod(v / 2, k - 1);
      var q: nat :| v / 2 == ShiftLeft(q, k - 1) + Low(v / 2, k - 1);
      assert v == ShiftLeft(q, k) + Low(v, k);
    }
  }

  lemma ShiftLeft8(v: nat)
    ensures ShiftLeft(v, 8) == 256 * v
  {
    assert ShiftLeft(v, 1) == 2 * v;
    assert ShiftLeft(v, 2) == 4 * v;
    assert ShiftLeft(v, 3) == 8 * v;
    assert ShiftLeft(v, 4) == 16 * v;
    assert ShiftLeft(v, 5) == 32 * v;
    assert ShiftLeft(v, 6) == 64 * v;
    assert ShiftLeft(v, 7) == 128 * v;
    assert ShiftLeft(v, 8) == 256 * v;
  }

  lemma Low9(v: nat)
    ensures Low(v, 9) == v % 512
  {
    LowIsMod(v, 9);
    var q: nat :| v == ShiftLeft(q, 9) + Low(v, 9);
    assert ShiftLeft(q, 1) == 2 * q;
    assert ShiftLeft(q, 2) == 4 * q;
    assert ShiftLeft(q, 3) == 8 * q;
    assert ShiftLeft(q, 4) == 16 * q;
    assert ShiftLeft(q, 5) == 32 * q;
    assert ShiftLeft(q, 6) == 64 * q;
    assert ShiftLeft(q, 7) == 128 * q;
    assert ShiftLeft(q, 8) == 256 * q;
    assert ShiftLeft(q, 9) == 512 * q;
    Pow2Values();
  }

  // ----- the input as a stream of bits -----------------------------------------------------------

  /** Bit i of the stream: bytes in order, least significant bit first (RFC 1951, section 3.1.1).
      Past the last byte the stream reads as zeros. */
  function Bit(input: seq<byte>, i: nat): (b: nat)
    ensures b <= 1
  {
    if i / 8 < |input| then ShiftRight(input[i / 8], i % 8) % 2 else 0
  }

  /** The n bits from position p as a number, first bit least significant. */
  function Peek(input: seq<byte>, p: nat, n: nat): (v: nat)
    ensures v < Pow2(n)
    decreases n, p
  {
    if n == 0 then 0 else Bit(input, p) + 2 * Peek(input, p + 1, n - 1)
  }

  /** The n bits from position p as a Huffman code: first bit most significant. */
  function Code(input: seq<byte>, p: nat, n: nat): (v: nat)
    ensures v < Pow2(n)
  {
    if n == 0 then 0 else 2 * Code(input, p, n - 1) + Bit(input, p + n - 1)
  }

  lemma {:induction false} PeekSplit(input: seq<byte>, p: nat, m: nat, n: nat)
    ensures Peek(input, p, m + n) == Peek(input, p, m) + ShiftLeft(Peek(input, p + m, n), m)
    decreases m
  {
    if m > 0 {
      PeekSplit(input, p + 1, m - 1, n);
      assert (m - 1) + n == (m + n) - 1 && (p + 1) + (m - 1) == p + m;
    }
  }

  /** Reading n of m buffered bits leaves the bits that follow. */
  lemma {:induction false} PeekDrop(input: seq<byte>, p: nat, m: nat, n: nat)
    requires n <= m
    ensures Low(Peek(input, p, m), n) == Peek(input, p, n)
    ensures ShiftRight(Peek(input, p, m), n) == Peek(input, p + n, m - n)
    decreases n
  {
    if n > 0 {
      PeekDrop(input, p + 1, m - 1, n - 1);
      assert (p + 1) + (n - 1) == p + n && (m - 1) - (n - 1) == m - n;
    }
  }

  function Zget8(input: seq<byte>, q: nat): byte {
    if q < |input| then input[q] else 0
  }

  lemma {:induction false} ShiftRightStep(v: nat, k: nat)
    ensures ShiftRight(v, k + 1) == ShiftRight(v, k) / 2
  {
    if k > 0 {
      ShiftRightStep(v / 2, k - 1);
    }
  }

  lemma {:induction false} ShiftRightSmall(v: nat, k: nat)
    requires v < Pow2(k)
    ensures ShiftRight(v, k) == 0
  {
    if k > 0 {
      ShiftRightSmall(v / 2, k - 1);
    }
  }

  lemma {:induction false} PeekBits(input: seq<byte>, q: nat, k: nat)
    requires k <= 8
    ensures Peek(input, 8 * q + k, 8 - k) == ShiftRight(Zget8(input, q), k)
    decreases 8 - k
  {
    var b := Zget8(input, q);
    if k == 8 {
      Pow2Values();
      ShiftRightSmall(b, 8);
    } else {
      PeekBits(input, q, k + 1);
      ShiftRightStep(b, k);
      assert (8 * q + k) / 8 == q && (8 * q + k) % 8 == k;
      assert Bit(input, 8 * q + k) == ShiftRight(b, k) % 2 by {
        if q >= |input| { ShiftRightSmall(0, k); }
      }
      assert (8 * q + k) + 1 == 8 * q + (k + 1) && (8 - k) - 1 == 8 - (k + 1);
    }
  }

  /** Eight bits at a byte boundary are that byte. */
  lemma PeekByte(input: seq<byte>, q: nat)
    ensures Peek(input, 8 * q, 8) == Zget8(input, q)
  {
    PeekBits(input, q, 0);
  }

  /** A byte read at a byte boundary goes on top of the buffered bits. */
  lemma PushByte(input: seq<byte>, p: nat, n: nat, q: nat)
    requires p + n == 8 * q
    ensures Peek(input, p, n + 8) == Peek(input, p, n) + ShiftLeft(Zget8(input, q), n)
  {
    PeekSplit(input, p, n, 8);
    PeekByte(input, q);
  }

  lemma {:induction false} ZeroBits(input: seq<byte>, p: nat, n: nat)
    requires p >= 8 * |input|
    ensures Peek(input, p, n) == 0
    decreases n
  {
    if n > 0 {
      ZeroBits(input, p + 1, n - 1);
    }
  }

  /** Past the end, more buffered bits do not change the buffer. */
  lemma PadBits(input: seq<byte>, p: nat, n: nat, k: nat)
    requires p + n >= 8 * |input|
    ensures Peek(input, p, n + k) == Peek(input, p, n)
  {
    PeekSplit(input, p, n, k);
    ZeroBits(input, p + n, k);
    ShiftLeftZero(n);
  }

  // ----- reversal ---------------------------------------------------------------------------------

  /** The low n bits of v in the opposite order. */
  function Reverse(v: nat, n: nat): (r: nat)
    ensures r < Pow2(n)
  {
    if n == 0 then 0 else (if v % 2 == 1 then Pow2(n - 1) else 0) + Reverse(v / 2, n - 1)
  }

  lemma {:induction false} CodeFront(input: seq<byte>, p: nat, n: nat)
    requires n > 0
    ensures Code(input, p, n) == (if Bit(input, p) == 1 then Pow2(n - 1) else 0) + Code(input, p + 1, n - 1)
  {
    if n > 1 {
      CodeFront(input, p, n - 1);
      assert (p + 1) + (n - 1) - 1 == p + n - 1;
    }
  }

  /** A code read with its first bit least significant is the reversed code. */
  lemma {:induction false} ReversePeek(input: seq<byte>, p: nat, n: nat)
    ensures Reverse(Peek(input, p, n), n) == Code(input, p, n)
    decreases n
  {
    if n > 0 {
      ReversePeek(input, p + 1, n - 1);
      CodeFront(input, p, n);
    }
  }

  /** A code of m bits starts with the code of its first n bits. */
  lemma {:induction false} CodePrefix(input: seq<byte>, p: nat, n: nat, m: nat)
    requires n <= m
    ensures ShiftRight(Code(input, p, m), m - n) == Code(input, p, n)
    decreases m
  {
    if m > n {
      CodePrefix(input, p, n, m - 1);
    }
  }

  lemma {:induction false} ReverseLow(v: nat, n: nat, m: nat)
    requires n <= m
    ensures Reverse(Low(v, m), n) == Reverse(v, n)
    decreases n
  {
    if n > 0 {
      ReverseLow(v / 2, n - 1, m - 1);
    }
  }

  lemma {:induction false} ReverseZero(n: nat)
    ensures Reverse(0, n) == 0
  {
    if n > 0 {
      ReverseZero(n - 1);
    }
  }

  /** Reversing m bits and shifting away the rest reverses an n-bit number. */
  lemma {:induction false} ReverseShift(v: nat, n: nat, m: nat)
    requires n <= m && v < Pow2(n)
    ensures Reverse(v, m) == ShiftLeft(Reverse(v, n), m - n)
    decreases n
  {
    if n == 0 {
      ReverseZero(m);
      ShiftLeftZero(m);
    } else {
      ReverseShift(v / 2, n - 1, m - 1);
      assert (m - 1) - (n - 1) == m - n;
      ShiftLeftPow2(n - 1, m - n);
      ShiftLeftZero(m - n);
      ShiftLeftAdd(if v % 2 == 1 then Pow2(n - 1) else 0, Reverse(v / 2, n - 1), m - n);
    }
  }

  lemma {:induction false} ReverseTwice(v: nat, n: nat)
    requires v < Pow2(n)
    ensures Reverse(Reverse(v, n), n) == v
  {
    if n > 0 {
      ReverseTwice(v / 2, n - 1);
      ReverseTop(Reverse(v / 2, n - 1), n, v % 2 == 1);
    }
  }

  lemma {:induction false} ReverseTop(v: nat, n: nat, top: bool)
    requires n > 0 && v < Pow2(n - 1)
    ensures Reverse(v + (if top then Pow2(n - 1) else 0), n) == 2 * Reverse(v, n - 1) + if top then 1 else 0
  {
    if n > 1 {
      ReverseTop(v / 2, n - 1, top);
      assert (v + Pow2(n - 1)) / 2 == v / 2 + Pow2(n - 2);
    }
  }
}
