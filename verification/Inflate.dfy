/** The zlib decoder of stb_image.h: a bit buffer over the input, a growing output buffer. */
module Inflate {
  import opened Bits
  import opened Huffman
  import opened HuffmanTable
  import opened Deflate

  const UINT_MAX := 0xFFFF_FFFF
  const INT_MAX := 0x7FFF_FFFF

  const LENGTH_BASE: seq<nat> := [
    3, 4, 5, 6, 7, 8, 9, 10, 11, 13, 15, 17, 19, 23, 27, 31, 35, 43, 51, 59,
    67, 83, 99, 115, 131, 163, 195, 227, 258, 0, 0]

  const LENGTH_EXTRA: seq<nat> := [
    0, 0, 0, 0, 0, 0, 0, 0, 1, 1, 1, 1, 2, 2, 2, 2, 3, 3, 3, 3, 4, 4, 4, 4, 5, 5, 5, 5, 0, 0, 0]

  const DIST_BASE: seq<nat> := [
    1, 2, 3, 4, 5, 7, 9, 13, 17, 25, 33, 49, 65, 97, 129, 193,
    257, 385, 513, 769, 1025, 1537, 2049, 3073, 4097, 6145, 8193, 12289, 16385, 24577, 0, 0]

  const DIST_EXTRA: seq<nat> := [
    0, 0, 0, 0, 1, 1, 2, 2, 3, 3, 4, 4, 5, 5, 6, 6, 7, 7, 8, 8, 9, 9, 10, 10, 11, 11, 12, 12, 13, 13, 0, 0]

  lemma LengthValues()
    ensures LengthBase(257) == 3 && LengthBase(258) == 4 && LengthBase(259) == 5 && LengthBase(260) == 6
    ensures LengthBase(261) == 7 && LengthBase(262) == 8 && LengthBase(263) == 9 && LengthBase(264) == 10
    ensures LengthBase(265) == 11 && LengthBase(266) == 13 && LengthBase(267) == 15 && LengthBase(268) == 17
    ensures LengthBase(269) == 19 && LengthBase(270) == 23 && LengthBase(271) == 27 && LengthBase(272) == 31
    ensures LengthBase(273) == 35 && LengthBase(274) == 43 && LengthBase(275) == 51 && LengthBase(276) == 59
    ensures LengthBase(277) == 67 && LengthBase(278) == 83 && LengthBase(279) == 99 && LengthBase(280) == 115
    ensures LengthBase(281) == 131 && LengthBase(282) == 163 && LengthBase(283) == 195 && LengthBase(284) == 227
    ensures LengthBase(285) == 258
  {
  }

  lemma LengthTables(s: nat)
    requires 257 <= s <= 285
    ensures LENGTH_BASE[s - 257] == LengthBase(s) && LENGTH_EXTRA[s - 257] == LengthExtra(s)
  {
    assert LENGTH_EXTRA[s - 257] == LengthExtra(s);
    assert LENGTH_BASE[s - 257] == LengthBase(s) by {
      hide LengthBase, LengthExtra;
      LengthValues();
    }
  }

  lemma DistValues()
    ensures DistBase(0) == 1 && DistBase(1) == 2 && DistBase(2) == 3 && DistBase(3) == 4 && DistBase(4) == 5
    ensures DistBase(5) == 7 && DistBase(6) == 9 && DistBase(7) == 13 && DistBase(8) == 17 && DistBase(9) == 25
    ensures DistBase(10) == 33 && DistBase(11) == 49 && DistBase(12) == 65 && DistBase(13) == 97 && DistBase(14) == 129
    ensures DistBase(15) == 193 && DistBase(16) == 257 && DistBase(17) == 385 && DistBase(18) == 513
    ensures DistBase(19) == 769
    ensures DistBase(20) == 1025 && DistBase(21) == 1537 && DistBase(22) == 2049 && DistBase(23) == 3073
    ensures DistBase(24) == 4097
    ensures DistBase(25) == 6145 && DistBase(26) == 8193 && DistBase(27) == 12289 && DistBase(28) == 16385
    ensures DistBase(29) == 24577
  {
  }

  lemma DistTables(d: nat)
    requires d < 30
    ensures DIST_BASE[d] == DistBase(d) && DIST_EXTRA[d] == DistExtra(d)
  {
    assert DIST_EXTRA[d] == DistExtra(d);
    assert DIST_BASE[d] == DistBase(d) by {
      hide DistBase, DistExtra;
      DistValues();
    }
  }

  /** The size an output buffer of this size can grow to by doubling within an unsigned int. */
  function MaxRoom(limit: nat): (r: nat)
    requires 0 < limit <= UINT_MAX
    ensures limit <= r <= UINT_MAX
    decreases UINT_MAX - limit
  {
    if limit > UINT_MAX / 2 then limit else MaxRoom(2 * limit)
  }

  // ----- the bit buffer, as values --------------------------------------------------------------------

  /** The low nb bits of cb are exactly the next nb bits, from position p, of the zero-extended stream.
      Of the bits taken in so far pad are zeros added after the last input byte. */
  ghost predicate BufferOk(input: seq<byte>, p: nat, pos: nat, pad: nat, nb: nat, cb: nat, hit: bool) {
    && nb <= 32 && pos <= |input| && pad % 8 == 0 && (pad > 0 ==> pos == |input|)
    && p + nb == 8 * pos + pad && cb == Peek(input, p, nb)
    && (hit ==> pad >= 16 && pos == |input|)
  }

  lemma BufferRead(input: seq<byte>, p: nat, pos: nat, pad: nat, nb: nat, cb: nat, hit: bool, n: nat)
    requires BufferOk(input, p, pos, pad, nb, cb, hit) && n <= nb
    ensures Low(cb, n) == Peek(input, p, n)
    ensures BufferOk(input, p + n, pos, pad, nb - n, ShiftRight(cb, n), hit)
  {
    PeekDrop(input, p, nb, n);
  }

  lemma BufferFill(input: seq<byte>, p: nat, pos: nat, pad: nat, nb: nat, cb: nat, hit: bool)
    requires BufferOk(input, p, pos, pad, nb, cb, hit) && nb <= 24
    ensures cb < Pow2(nb)
    ensures var more := cb + ShiftLeft(Zget8(input, pos), nb);
            if pos < |input| then BufferOk(input, p, pos + 1, pad, nb + 8, more, hit)
            else BufferOk(input, p, pos, pad + 8, nb + 8, more, hit)
  {
    PushByte(input, p, nb, pos + pad / 8);
  }

  /** Sixteen implicit zero bits at the end of the input. */
  lemma BufferPad(input: seq<byte>, p: nat, pad: nat, nb: nat, cb: nat, hit: bool)
    requires BufferOk(input, p, |input|, pad, nb, cb, hit) && nb < 16
    ensures BufferOk(input, p, |input|, pad + 16, nb + 16, cb, true)
  {
    PadBits(input, p, nb, 16);
  }

  lemma BufferWindow(input: seq<byte>, p: nat, pos: nat, pad: nat, nb: nat, cb: nat, hit: bool)
    requires BufferOk(input, p, pos, pad, nb, cb, hit) && nb >= 16
    ensures cb % 512 == Peek(input, p, FAST_BITS)
    ensures Reverse(cb, 16) == Code(input, p, 16)
  {
    PeekDrop(input, p, nb, FAST_BITS);
    Low9(cb);
    PeekDrop(input, p, nb, 16);
    ReverseLow(cb, 16, 16);
    ReversePeek(input, p, 16);
  }

  lemma BufferEmpty(input: seq<byte>, pos: nat)
    requires pos <= |input|
    ensures BufferOk(input, 8 * pos, pos, 0, 0, 0, false)
  {
  }

  /** Bits come in bytes: dropping the odd ones in the buffer reaches the next byte boundary. */
  lemma BufferAligned(input: seq<byte>, p: nat, pos: nat, pad: nat, nb: nat, cb: nat, hit: bool)
    requires BufferOk(input, p, pos, pad, nb, cb, hit)
    ensures p + nb % 8 == Aligned(p)
  {
    hide Peek;
    var k := pos + pad / 8;
    assert p + nb == 8 * k;
    assert p + nb % 8 == 8 * (k - nb / 8);
  }

  lemma BufferByte(input: seq<byte>, p: nat, pos: nat, pad: nat, cb: nat, hit: bool)
    requires BufferOk(input, p, pos, pad, 0, cb, hit)
    ensures Peek(input, p, 8) == Zget8(input, pos)
    ensures if pos < |input| then BufferOk(input, p + 8, pos + 1, pad, 0, cb, hit)
            else BufferOk(input, p + 8, pos, pad + 8, 0, cb, hit)
  {
    PeekByte(input, pos + pad / 8);
  }

  /** With an empty bit buffer the input continues at the consumed position. */
  lemma BufferBytes(input: seq<byte>, p: nat, pos: nat, pad: nat, cb: nat, hit: bool)
    requires BufferOk(input, p, pos, pad, 0, cb, hit)
    ensures pos == p / 8 || (pos == |input| && p / 8 > |input|)
  {
  }

  lemma BufferSkip(input: seq<byte>, p: nat, pos: nat, pad: nat, cb: nat, hit: bool, len: nat)
    requires BufferOk(input, p, pos, pad, 0, cb, hit) && pos + len <= |input|
    ensures BufferOk(input, p + 8 * len, pos + len, pad, 0, cb, hit)
  {
  }

  /** Two bytes, low byte first. */
  lemma PeekPair(input: seq<byte>, q: nat)
    ensures Peek(input, q, 16) == Peek(input, q, 8) + 256 * Peek(input, q + 8, 8)
  {
    PeekSplit(input, q, 8, 8);
    ShiftLeft8(Peek(input, q + 8, 8));
  }

  lemma SlowFound(z: Table, lens: seq<nat>, input: seq<byte>, p: nat, s: nat, k: nat)
    requires Represents(z, lens) && 0 < s <= 15
    requires k == Code(input, p, 16) && Limit(lens, s - 1) <= k < z.maxcode[s]
    ensures var b := ShiftRight(k, 16 - s) - z.firstcode[s] + z.firstsymbol[s];
            0 <= b < NSYMS && z.size[b] == s && z.value[b] < |lens| && lens[z.value[b]] == s &&
            Symbol(lens, input, p) == z.value[b]
  {
    LevelFits(z, lens, s);
    var i := MatchInLevel(lens, input, p, s);
    SlotOfMatch(z, lens, input, p, i);
  }

  /** The first length above nine whose limit exceeds k; 16 when there is none. */
  method FindLength(z: Table, ghost lens: seq<nat>, k: nat) returns (s: nat)
    requires Represents(z, lens) && Limit(lens, FAST_BITS) <= k < 0x10000
    ensures FAST_BITS < s <= 16 && Limit(lens, s - 1) <= k && k < z.maxcode[s]
  {
    s := FAST_BITS + 1;
    while k >= z.maxcode[s]
      invariant FAST_BITS < s <= 16 && Limit(lens, s - 1) <= k
      decreases 16 - s
    {
      LevelFits(z, lens, s);
      s := s + 1;
    }
  }

  class ZBuf {
    const input: seq<byte>
    var pos: nat
    var numBits: nat
    var hitZeofOnce: bool
    var codeBuffer: nat
    var out: array<byte>
    var zout: nat
    const expandable: bool
    var zLength: Table
    var zDistance: Table
    /** How many bits of the stream are consumed, and how many zero bits the refills added. */
    ghost var at: nat
    ghost var pad: nat

    ghost function Out(): seq<byte>
      reads this`zout, this`out, out
      requires zout <= out.Length
    {
      out[..zout]
    }

    ghost predicate BitsOk()
      reads this`at, this`pos, this`pad, this`numBits, this`codeBuffer, this`hitZeofOnce
    {
      BufferOk(input, at, pos, pad, numBits, codeBuffer, hitZeofOnce)
    }

    ghost predicate OutOk()
      reads this`zout, this`out
    {
      zout <= out.Length <= UINT_MAX && (expandable ==> out.Length > 0)
    }

    /** How long the output can get. */
    ghost function Room(): nat
      reads this`zout, this`out
      requires OutOk()
    {
      if expandable then MaxRoom(out.Length) else out.Length
    }

    constructor (input: seq<byte>, out: array<byte>, expandable: bool)
      requires out.Length <= UINT_MAX && (expandable ==> out.Length > 0)
      ensures OutOk() && this.input == input && this.out == out && this.expandable == expandable
      ensures pos == 0 && zout == 0
    {
      this.input, this.out, this.expandable := input, out, expandable;
      pos, numBits, hitZeofOnce, codeBuffer, zout, at, pad := 0, 0, false, 0, 0, 0, 0;
      zLength := Table([], [], [], [], [], []);
      zDistance := Table([], [], [], [], [], []);
    }

    // ----- reading bits -----------------------------------------------------------------------------

    method FillBits()
      requires BitsOk() && numBits <= 24
      modifies this`pos, this`numBits, this`codeBuffer, this`pad
      ensures BitsOk() && numBits > 24
    {
      hide Peek, ShiftLeft, Zget8, Pow2;
      while true
        invariant BitsOk() && numBits <= 24
        decreases 32 - numBits
      {
        BufferFill(input, at, pos, pad, numBits, codeBuffer, hitZeofOnce);
        if codeBuffer >= Pow2(numBits) {
          assert false;
        }
        codeBuffer := codeBuffer + ShiftLeft(Zget8(input, pos), numBits);
        if pos < |input| {
          pos := pos + 1;
        } else {
          pad := pad + 8;
        }
        numBits := numBits + 8;
        if numBits > 24 {
          break;
        }
      }
    }

    method Consume(s: nat)
      requires BitsOk() && s <= numBits
      modifies this`numBits, this`codeBuffer, this`at
      ensures BitsOk() && at == old(at) + s && numBits == old(numBits) - s
    {
      BufferRead(input, at, pos, pad, numBits, codeBuffer, hitZeofOnce, s);
      codeBuffer := ShiftRight(codeBuffer, s);
      numBits := numBits - s;
      at := at + s;
    }

    /** The next n bits, always: past the end of the input they are zeros. */
    method Zreceive(n: nat) returns (k: nat)
      requires BitsOk() && n <= 16
      modifies this`pos, this`numBits, this`codeBuffer, this`pad, this`at
      ensures BitsOk() && at == old(at) + n && k == Peek(input, old(at), n)
      ensures old(numBits) >= n ==> numBits == old(numBits) - n && pos == old(pos) && pad == old(pad)
      ensures n > 0 ==> numBits < 32
    {
      if numBits < n {
        FillBits();
      }
      BufferRead(input, at, pos, pad, numBits, codeBuffer, hitZeofOnce, n);
      k := Low(codeBuffer, n);
      Consume(n);
    }

    // ----- decoding a symbol ------------------------------------------------------------------------

    method ZhuffmanDecodeSlowpath(z: Table, ghost lens: seq<nat>) returns (r: int)
      requires BitsOk() && Represents(z, lens) && numBits >= 16
      requires forall i: nat :: i < |lens| && Matches(lens, input, at, i) ==> lens[i] > FAST_BITS
      modifies this`numBits, this`codeBuffer, this`at
      ensures BitsOk() && -1 <= r < |lens| && r == Symbol(lens, input, old(at))
      ensures at == old(at) + if r >= 0 then lens[r] else 0
    {
      hide BufferOk, Limit, Code, Reverse, Matches, FastEntry, LevelEntry, EndCode;
      var k := BitReverse(codeBuffer, 16);
      Pow2Values();
      BufferWindow(input, at, pos, pad, numBits, codeBuffer, hitZeofOnce);
      AboveShort(lens, input, at, FAST_BITS);
      var s := FindLength(z, lens, k);
      if s >= 16 {
        NoMatch(lens, input, at);
        return -1;
      }
      SlowFound(z, lens, input, at, s, k);
      var b := ShiftRight(k, 16 - s) - z.firstcode[s] + z.firstsymbol[s];
      if b >= NSYMS || z.size[b] != s {
        assert false;
      }
      Consume(s);
      r := z.value[b];
    }

    /** The symbol coded at the current position, consuming its code; -1 when no code matches, or when
        the stream already ran past the end of the input. */
    method ZhuffmanDecode(z: Table, ghost lens: seq<nat>) returns (r: int)
      requires BitsOk() && Represents(z, lens)
      modifies this`pos, this`numBits, this`codeBuffer, this`pad, this`hitZeofOnce, this`at
      ensures BitsOk() && -1 <= r < |lens|
      ensures r >= 0 ==> r == Symbol(lens, input, old(at)) && at == old(at) + lens[r]
      ensures r < 0 ==> at == old(at) && (Symbol(lens, input, at) == -1 || at > 8 * |input|)
    {
      if numBits < 16 {
        if pos >= |input| {
          if !hitZeofOnce {
            BufferPad(input, at, pad, numBits, codeBuffer, hitZeofOnce);
            hitZeofOnce := true;
            numBits := numBits + 16;
            pad := pad + 16;
          } else {
            return -1;
          }
        } else {
          FillBits();
        }
      }
      BufferWindow(input, at, pos, pad, numBits, codeBuffer, hitZeofOnce);
      FastHit(z, lens, input, at);
      var b := z.fast[codeBuffer % 512];
      if b != 0 {
        var s := b / 512;
        Consume(s);
        return b % 512;
      }
      r := ZhuffmanDecodeSlowpath(z, lens);
    }

    // ----- the output buffer --------------------------------------------------------------------------

    /** Make room for n more bytes, keeping the bytes already written. */
    method Zexpand(n: nat) returns (ok: bool)
      requires OutOk() && zout + n > out.Length
      modifies this`out
      ensures OutOk() && Out() == old(Out()) && Room() == old(Room())
      ensures ok ==> zout + n <= out.Length && expandable && fresh(out)
      ensures !ok ==> out == old(out) && zout + n > Room()
    {
      if !expandable {
        return false;
      }
      var cur := zout;
      var limit: nat := out.Length;
      if UINT_MAX - cur < n {
        return false;
      }
      while cur + n > limit
        invariant out.Length <= limit <= UINT_MAX && limit > 0 && MaxRoom(limit) == MaxRoom(out.Length)
        decreases UINT_MAX - limit
      {
        if limit > UINT_MAX / 2 {
          return false;
        }
        limit := limit * 2;
      }
      var q := new byte[limit](_ => 0);
      forall i | 0 <= i < cur {
        q[i] := out[i];
      }
      out := q;
      return true;
    }

    method CopyMatch(dist: nat, len: nat)
      requires OutOk() && 1 <= dist <= zout && zout + len <= out.Length
      modifies this`zout, out
      ensures OutOk() && Out() == CopyOut(old(Out()), dist, len)
    {
      if dist == 1 {
        CopyRun(len);
      } else {
        CopyForward(dist, len);
      }
    }

    lemma CopyStep(soFar: seq<byte>, dist: nat, len: nat)
      requires 1 <= dist <= |soFar| && len > 0
      ensures CopyOut(soFar, dist, len) == CopyOut(soFar + [soFar[|soFar| - dist]], dist, len - 1)
    {
    }

    /** dist == 1: a run of the last byte, read once. */
    method CopyRun(len: nat)
      requires OutOk() && 1 <= zout && zout + len <= out.Length
      modifies this`zout, out
      ensures OutOk() && Out() == CopyOut(old(Out()), 1, len)
    {
      hide CopyOut;
      var v := out[zout - 1];
      var left := len;
      while left > 0
        invariant OutOk() && 1 <= zout && zout + left <= out.Length
        invariant out[zout - 1] == v
        invariant CopyOut(Out(), 1, left) == CopyOut(old(Out()), 1, len)
        decreases left
      {
        ghost var before := Out();
        CopyStep(before, 1, left);
        out[zout] := v;
        zout := zout + 1;
        left := left - 1;
        assert Out() == before + [before[|before| - 1]];
      }
    }

    method CopyForward(dist: nat, len: nat)
      requires OutOk() && 1 <= dist <= zout && zout + len <= out.Length
      modifies this`zout, out
      ensures OutOk() && Out() == CopyOut(old(Out()), dist, len)
    {
      hide CopyOut;
      var p: nat := zout - dist;
      var left := len;
      while left > 0
        invariant OutOk() && zout + left <= out.Length && p + dist == zout
        invariant CopyOut(Out(), dist, left) == CopyOut(old(Out()), dist, len)
        decreases left
      {
        ghost var before := Out();
        CopyStep(before, dist, left);
        out[zout] := out[p];
        zout, p := zout + 1, p + 1;
        left := left - 1;
        assert Out() == before + [before[|before| - dist]];
      }
    }

    // ----- blocks -------------------------------------------------------------------------------------

    /** How a method that returned ok relates to what the format says: an invalid stream fails; a stream
        that ends within the input succeeds exactly when its output fits, and then the output is right.
        Nothing is promised for a truncated stream. */
    ghost predicate Outcome(ok: bool, r: Result)
      reads this`at, this`zout, this`out, out
      requires OutOk()
    {
      && (r.Bad? ==> !ok)
      && (r.Done? && r.p <= 8 * |input| ==> (ok <==> |r.out| <= Room()))
      && (r.Done? && ok ==> Out() == r.out && at == r.p)
    }

    method EmitByte(b: byte) returns (ok: bool)
      requires OutOk()
      modifies this`zout, this`out, out
      ensures OutOk() && Room() == old(Room()) && (out == old(out) || (expandable && fresh(out)))
      ensures ok ==> Out() == old(Out()) + [b]
      ensures !ok ==> old(zout) + 1 > Room()
    {
      if zout >= out.Length {
        ok := Zexpand(1);
        if !ok {
          return;
        }
      }
      ghost var before := Out();
      out[zout] := b;
      zout := zout + 1;
      assert Out() == before + [b];
      ok := true;
    }

    method EmitMatch(dist: nat, len: nat) returns (ok: bool)
      requires OutOk() && 1 <= dist <= zout
      modifies this`zout, this`out, out
      ensures OutOk() && Room() == old(Room()) && (out == old(out) || (expandable && fresh(out)))
      ensures ok ==> Out() == CopyOut(old(Out()), dist, len)
      ensures !ok ==> old(zout) + len > Room()
    {
      if len > out.Length - zout {
        ok := Zexpand(len);
        if !ok {
          return;
        }
      }
      CopyMatch(dist, len);
      ok := true;
    }

    method ReadLength(s: nat) returns (len: nat)
      requires BitsOk() && 257 <= s <= 285
      modifies this`pos, this`numBits, this`codeBuffer, this`pad, this`at
      ensures BitsOk() && at == old(at) + LengthExtra(s)
      ensures len == LengthBase(s) + Peek(input, old(at), LengthExtra(s))
    {
      LengthTables(s);
      len := LENGTH_BASE[s - 257];
      if LENGTH_EXTRA[s - 257] != 0 {
        var k := Zreceive(LENGTH_EXTRA[s - 257]);
        len := len + k;
      }
    }

    method ReadDistance(d: nat) returns (dist: nat)
      requires BitsOk() && d < 30
      modifies this`pos, this`numBits, this`codeBuffer, this`pad, this`at
      ensures BitsOk() && at == old(at) + DistExtra(d)
      ensures dist == DistBase(d) + Peek(input, old(at), DistExtra(d))
    {
      DistTables(d);
      dist := DIST_BASE[d];
      if DIST_EXTRA[d] != 0 {
        var k := Zreceive(DIST_EXTRA[d]);
        dist := dist + k;
      }
    }

    lemma MatchRead(p: nat, s: nat, dl: seq<nat>, len: nat, d: nat, dist: nat, q: nat)
      requires 257 <= s <= 285 && d < 30 && |dl| > d
      requires len == LengthBase(s) + Peek(input, p, LengthExtra(s))
      requires d == Symbol(dl, input, p + LengthExtra(s))
      requires dist == DistBase(d) + Peek(input, p + LengthExtra(s) + dl[d], DistExtra(d))
      requires q == p + LengthExtra(s) + dl[d] + DistExtra(d)
      ensures NextMatch(input, p, s, dl) == (Match(len, dist), q)
    {
    }

    lemma MatchBad(p: nat, s: nat, dl: seq<nat>, q: nat)
      requires 257 <= s <= 285 && q == p + LengthExtra(s)
      ensures Symbol(dl, input, q) == -1 || Symbol(dl, input, q) >= 30 ==> NextMatch(input, p, s, dl).0.Invalid?
      ensures NextMatch(input, p, s, dl).1 >= q
    {
    }

    method ReadMatch(s: nat, ghost dl: seq<nat>) returns (t: Token)
      requires BitsOk() && Represents(zDistance, dl) && 257 <= s <= 285
      modifies this`pos, this`numBits, this`codeBuffer, this`pad, this`hitZeofOnce, this`at
      ensures BitsOk() && at >= old(at) && (t.Match? || t.Invalid?)
      ensures t.Match? ==> NextMatch(input, old(at), s, dl) == (t, at)
      ensures t.Invalid? ==>
                NextMatch(input, old(at), s, dl).0.Invalid? || NextMatch(input, old(at), s, dl).1 > 8 * |input|
    {
      hide *;
      ghost var p := at;
      var len := ReadLength(s);
      MatchBad(p, s, dl, at);
      var d := ZhuffmanDecode(zDistance, dl);
      if d < 0 || d >= 30 {
        return Invalid;
      }
      var dist := ReadDistance(d);
      MatchRead(p, s, dl, len, d, dist, at);
      t := Match(len, dist);
    }

    lemma TokenRead(p: nat, ll: seq<nat>, dl: seq<nat>)
      ensures var s, t := Symbol(ll, input, p), NextToken(input, p, ll, dl);
              if s < 0 then t.0 == Invalid
              else if s < 256 then t == (Literal(s), p + ll[s])
              else if s == 256 then t == (EndOfBlock, p + ll[s])
              else if s >= 286 then t.0 == Invalid
              else t == NextMatch(input, p + ll[s], s, dl)
    {
    }

    /** Decode one token. It can also be found invalid when it runs past the end of the input. */
    method ReadToken(ghost ll: seq<nat>, ghost dl: seq<nat>) returns (t: Token)
      requires BitsOk() && Represents(zLength, ll) && Represents(zDistance, dl)
      modifies this`pos, this`numBits, this`codeBuffer, this`pad, this`hitZeofOnce, this`at
      ensures BitsOk() && at >= old(at)
      ensures !t.Invalid? ==> NextToken(input, old(at), ll, dl) == (t, at)
      ensures t.Invalid? ==> NextToken(input, old(at), ll, dl).0.Invalid? ||
                             old(at) > 8 * |input| || NextToken(input, old(at), ll, dl).1 > 8 * |input|
    {
      hide *;
      ghost var p := at;
      var s := ZhuffmanDecode(zLength, ll);
      TokenRead(p, ll, dl);
      if s < 256 {
        return if s < 0 then Invalid else Literal(s);
      }
      if s == 256 {
        return EndOfBlock;
      }
      if s >= 286 {
        return Invalid;
      }
      t := ReadMatch(s, dl);
    }

    method EmitToken(t: Token) returns (ok: bool)
      requires OutOk() && (t.Literal? || (t.Match? && t.dist >= 1 && t.len >= 3))
      modifies this`zout, this`out, out
      ensures OutOk() && Room() == old(Room()) && (out == old(out) || (expandable && fresh(out)))
      ensures ok ==> Fits(old(Out()), t) && Out() == Append(old(Out()), t) && zout > old(zout)
      ensures !ok ==> !Fits(old(Out()), t) || |Append(old(Out()), t)| > Room()
    {
      if t.Literal? {
        ok := EmitByte(t.b);
      } else {
        if zout < t.dist {
          return false;
        }
        ok := EmitMatch(t.dist, t.len);
      }
    }

    /** One turn of the loop over a block: it ends, or more of it is decoded. */
    method ParseToken(ghost ll: seq<nat>, ghost dl: seq<nat>) returns (done: bool, ok: bool)
      requires BitsOk() && OutOk() && Represents(zLength, ll) && Represents(zDistance, dl)
      modifies this`pos, this`numBits, this`codeBuffer, this`pad, this`hitZeofOnce, this`at, this`zout, this`out, out
      ensures BitsOk() && OutOk() && Room() == old(Room()) && (out == old(out) || (expandable && fresh(out)))
      ensures done ==> Outcome(ok, Data(input, old(at), old(Out()), ll, dl))
      ensures !done || ok ==> at > old(at)
      ensures !done ==> zout > old(zout) &&
                        (old(at) > 8 * |input| ||
                         Data(input, old(at), old(Out()), ll, dl) == Data(input, at, Out(), ll, dl))
    {
      var t := ReadToken(ll, dl);
      if t.Invalid? {
        return true, false;
      }
      if t.EndOfBlock? {
        return true, !(hitZeofOnce && numBits < 16);
      }
      ok := EmitToken(t);
      return !ok, false;
    }

    method ParseHuffmanBlock(ghost ll: seq<nat>, ghost dl: seq<nat>) returns (ok: bool)
      requires BitsOk() && OutOk() && Represents(zLength, ll) && Represents(zDistance, dl)
      modifies this`pos, this`numBits, this`codeBuffer, this`pad, this`hitZeofOnce, this`at, this`zout, this`out, out
      ensures BitsOk() && OutOk() && Room() == old(Room()) && (out == old(out) || (expandable && fresh(out)))
      ensures Outcome(ok, Data(input, old(at), old(Out()), ll, dl))
      ensures ok ==> at > old(at)
    {
      ghost var room, r := Room(), Data(input, at, Out(), ll, dl);
      while true
        invariant BitsOk() && OutOk() && Room() == room && (out == old(out) || (expandable && fresh(out)))
        invariant at >= old(at)
        invariant r.Truncated? || r == Data(input, at, Out(), ll, dl)
        decreases room - zout
      {
        var done;
        done, ok := ParseToken(ll, dl);
        if done {
          return;
        }
      }
    }

    /** Take the whole bytes left in the bit buffer. */
    method DrainBits() returns (header: seq<nat>)
      requires BitsOk() && numBits % 8 == 0 && numBits <= 24
      modifies this`numBits, this`codeBuffer, this`at
      ensures BitsOk() && numBits == 0 && |header| <= 3 && at == old(at) + 8 * |header|
      ensures forall i :: 0 <= i < |header| ==> header[i] == Peek(input, old(at) + 8 * i, 8)
    {
      hide Peek, Low, ShiftLeft, ShiftRight, Zget8, Pow2;
      header := [];
      while numBits > 0
        invariant BitsOk() && numBits % 8 == 0 && numBits + 8 * |header| <= 24 && at == old(at) + 8 * |header|
        invariant forall i :: 0 <= i < |header| ==> header[i] == Peek(input, old(at) + 8 * i, 8)
        decreases numBits
      {
        BufferRead(input, at, pos, pad, numBits, codeBuffer, hitZeofOnce, 8);
        header := header + [Low(codeBuffer, 8)];
        Consume(8);
      }
    }

    /** The four bytes of a stored block's header: what is left in the bit buffer, then the input itself. */
    method StoredHeader() returns (header: seq<nat>)
      requires BitsOk() && numBits < 32
      modifies this`pos, this`numBits, this`codeBuffer, this`pad, this`at
      ensures BitsOk() && numBits == 0 && at == Aligned(old(at)) + 32
      ensures |header| == 4 && forall i :: 0 <= i < 4 ==> header[i] == Peek(input, Aligned(old(at)) + 8 * i, 8)
    {
      hide Peek, Low, ShiftLeft, ShiftRight, Zget8, Pow2, BufferOk, Aligned;
      BufferAligned(input, at, pos, pad, numBits, codeBuffer, hitZeofOnce);
      if numBits % 8 != 0 {
        var dropped := Zreceive(numBits % 8);
      }
      ghost var q := at;
      header := DrainBits();
      while |header| < 4
        invariant BitsOk() && numBits == 0 && |header| <= 4 && at == q + 8 * |header|
        invariant forall i :: 0 <= i < |header| ==> header[i] == Peek(input, q + 8 * i, 8)
        decreases 4 - |header|
      {
        BufferByte(input, at, pos, pad, codeBuffer, hitZeofOnce);
        header := header + [Zget8(input, pos)];
        if pos < |input| {
          pos := pos + 1;
        } else {
          pad := pad + 8;
        }
        at := at + 8;
      }
    }

    method EmitInput(len: nat) returns (ok: bool)
      requires OutOk() && pos + len <= |input|
      modifies this`zout, this`out, out
      ensures OutOk() && Room() == old(Room()) && (out == old(out) || (expandable && fresh(out)))
      ensures ok ==> Out() == old(Out()) + input[pos..pos + len] && zout <= Room()
      ensures !ok ==> old(zout) + len > Room()
    {
      hide MaxRoom;
      if zout + len > out.Length {
        ok := Zexpand(len);
        if !ok {
          return;
        }
      }
      ghost var before := Out();
      forall i | 0 <= i < len {
        out[zout + i] := input[pos + i];
      }
      zout := zout + len;
      assert Out() == before + input[pos..pos + len];
      ok := true;
    }

    /** The bytes of a stored block, copied straight from the input. */
    method StoredBody(len: nat) returns (ok: bool)
      requires BitsOk() && OutOk() && numBits == 0
      modifies this`pos, this`at, this`zout, this`out, out
      ensures BitsOk() && OutOk() && Room() == old(Room()) && (out == old(out) || (expandable && fresh(out)))
      ensures ok ==> at == old(at) + 8 * len
      ensures var b := old(at) / 8;
              b + len <= |input| ==>
                && (ok <==> old(zout) + len <= Room())
                && (ok ==> Out() == old(Out()) + input[b..b + len])
    {
      hide BufferOk, MaxRoom, Room;
      BufferBytes(input, at, pos, pad, codeBuffer, hitZeofOnce);
      if pos + len > |input| {
        return false;
      }
      ok := EmitInput(len);
      if !ok {
        return;
      }
      BufferSkip(input, at, pos, pad, codeBuffer, hitZeofOnce, len);
      pos := pos + len;
      at := at + 8 * len;
    }

    lemma StoredIs(p: nat, soFar: seq<byte>, len: nat, nlen: nat, q: nat)
      requires q == Aligned(p) && len == Peek(input, q, 16) && nlen == Peek(input, q + 16, 16)
      ensures var r := Stored(input, p, soFar);
              if nlen != 0xFFFF - len then r.Bad?
              else if q / 8 + 4 + len > |input| then r.Truncated?
              else r == Done(soFar + input[q / 8 + 4..q / 8 + 4 + len], q + 32 + 8 * len)
    {
      hide Peek, Aligned;
    }

    method ParseUncompressedBlock() returns (ok: bool)
      requires BitsOk() && OutOk() && numBits < 32
      modifies this`pos, this`numBits, this`codeBuffer, this`pad, this`at, this`zout, this`out, out
      ensures BitsOk() && OutOk() && Room() == old(Room()) && (out == old(out) || (expandable && fresh(out)))
      ensures Outcome(ok, Stored(input, old(at), old(Out())))
      ensures ok ==>
                at > old(at) && Peek(input, Aligned(old(at)) + 16, 16) == 0xFFFF - Peek(input, Aligned(old(at)), 16)
    {
      hide Peek, Stored, Aligned, BufferOk, MaxRoom, Room;
      ghost var q, soFar := Aligned(at), Out();
      var header := StoredHeader();
      var len, nlen := header[1] * 256 + header[0], header[3] * 256 + header[2];
      PeekPair(input, q);
      PeekPair(input, q + 16);
      StoredIs(old(at), soFar, len, nlen, q);
      // len ^ 0xffff of a 16-bit len
      if nlen != 0xFFFF - len {
        return false;
      }
      ok := StoredBody(len);
    }

    // ----- dynamic codes ------------------------------------------------------------------------------

    method ReadClLengths(hclen: nat) returns (sizes: seq<nat>)
      requires BitsOk() && hclen <= 19
      modifies this`pos, this`numBits, this`codeBuffer, this`pad, this`at
      ensures BitsOk() && at == old(at) + 3 * hclen && sizes == ClLengths(input, old(at), hclen)
    {
      hide Peek, BufferOk;
      sizes := seq(19, _ => 0);
      for i := 0 to hclen
        invariant BitsOk() && at == old(at) + 3 * i && sizes == ClLengths(input, old(at), i)
      {
        var s := Zreceive(3);
        sizes := sizes[Order[i] := s];
      }
    }

    lemma RunRead(p: nat, cl: seq<nat>, acc: seq<nat>)
      requires |cl| == 19
      ensures var s, r := Symbol(cl, input, p), NextRun(input, p, cl, acc);
              if s < 0 then r.BadRun?
              else if s < 16 then r == Run(s, 1, p + cl[s])
              else if s == 16 then
                if acc == [] then r.BadRun? else r == Run(acc[|acc| - 1], Peek(input, p + cl[s], 2) + 3, p + cl[s] + 2)
              else if s == 17 then r == Run(0, Peek(input, p + cl[s], 3) + 3, p + cl[s] + 3)
              else r == Run(0, Peek(input, p + cl[s], 7) + 11, p + cl[s] + 7)
    {
      hide Peek, Symbol;
    }

    /** One symbol of the code length alphabet, with its repeat count. */
    method ReadRun(z: Table, ghost cl: seq<nat>, ghost acc: seq<nat>, n: nat, last: nat)
      returns (ok: bool, fill: nat, c: nat)
      requires BitsOk() && Represents(z, cl) && |cl| == 19 && n == |acc| && (n > 0 ==> last == acc[n - 1])
      modifies this`pos, this`numBits, this`codeBuffer, this`pad, this`hitZeofOnce, this`at
      ensures BitsOk()
      ensures ok ==> NextRun(input, old(at), cl, acc) == Run(fill, c, at)
      ensures !ok ==> NextRun(input, old(at), cl, acc).BadRun? || old(at) > 8 * |input|
    {
      hide *;
      RunRead(at, cl, acc);
      var s := ZhuffmanDecode(z, cl);
      if s < 0 || s >= 19 {
        return false, 0, 0;
      }
      if s < 16 {
        return true, s, 1;
      }
      fill := 0;
      if s == 16 {
        if n == 0 {
          return false, 0, 0;
        }
        c := Zreceive(2);
        c := c + 3;
        fill := last;
      } else if s == 17 {
        c := Zreceive(3);
        c := c + 3;
      } else {
        c := Zreceive(7);
        c := c + 11;
      }
      ok := true;
    }

    method ReadCodeLengths(z: Table, ghost cl: seq<nat>, ntot: nat) returns (ok: bool, lens: seq<nat>)
      requires BitsOk() && Represents(z, cl) && |cl| == 19 && ntot <= 320
      modifies this`pos, this`numBits, this`codeBuffer, this`pad, this`hitZeofOnce, this`at
      ensures BitsOk()
      ensures var r := CodeLengths(input, old(at), cl, [], ntot);
              if ok then r == Coded(lens, at) else r.BadCode? || r.p > 8 * |input|
    {
      hide NextRun, BufferOk, Represents;
      ghost var r := CodeLengths(input, at, cl, [], ntot);
      var lencodes := new nat[286 + 32 + 137];
      var n: nat := 0;
      lens := [];
      while n < ntot
        invariant BitsOk() && n <= ntot
        invariant forall i :: 0 <= i < n ==> lencodes[i] <= 15
        invariant r == CodeLengths(input, at, cl, lencodes[..n], ntot)
        decreases ntot - n
      {
        ghost var acc := lencodes[..n];
        var good, fill, c := ReadRun(z, cl, acc, n, if n > 0 then lencodes[n - 1] else 0);
        if !good {
          return false, [];
        }
        if ntot - n < c {
          return false, [];
        }
        forall i | n <= i < n + c {
          lencodes[i] := fill;
        }
        n := n + c;
        assert lencodes[..n] == acc + Repeat(fill, c);
      }
      return true, lencodes[..n];
    }

    /** Read the code lengths of a dynamic block and build its two codes. */
    method ComputeHuffmanCodes() returns (ok: bool)
      requires BitsOk()
      modifies this`pos, this`numBits, this`codeBuffer, this`pad, this`hitZeofOnce, this`at, this`zLength
      modifies this`zDistance
      ensures BitsOk()
      ensures var c := DynamicCodes(input, old(at));
              if ok then c.Codes? && c.p == at && Represents(zLength, c.ll) && Represents(zDistance, c.dl)
              else c.BadCodes? || c.p > 8 * |input|
    {
      hide Represents, BufferOk, CodeLengths, Kraft, ClLengths, Peek;
      Pow2Values();
      ghost var p := at;
      var hlit := Zreceive(5);
      hlit := hlit + 257;
      var hdist := Zreceive(5);
      hdist := hdist + 1;
      var hclen := Zreceive(4);
      hclen := hclen + 4;
      var ntot := hlit + hdist;
      var cl := ReadClLengths(hclen);
      var z;
      ok, z := ZbuildHuffman(cl);
      if !ok {
        return;
      }
      var lencodes;
      ok, lencodes := ReadCodeLengths(z, cl, ntot);
      if !ok {
        return;
      }
      ok, zLength := ZbuildHuffman(lencodes[..hlit]);
      if !ok {
        return;
      }
      ok, zDistance := ZbuildHuffman(lencodes[hlit..]);
    }

    // ----- the stream ---------------------------------------------------------------------------------

    method ParseBlock(kind: nat) returns (ok: bool)
      requires BitsOk() && OutOk() && numBits < 32 && kind < 4
      modifies this, out
      ensures BitsOk() && OutOk() && Room() == old(Room()) && (out == old(out) || (expandable && fresh(out)))
      ensures Outcome(ok, Block(input, kind, old(at), old(Out())))
      ensures ok ==> at > old(at)
      ensures ok && kind == 0 ==>
                Peek(input, Aligned(old(at)) + 16, 16) == 0xFFFF - Peek(input, Aligned(old(at)), 16)
    {
      hide Data, Stored, DynamicCodes, BufferOk, Represents, Kraft, Peek, FixedLengths, FixedDistances, MaxRoom;
      if kind == 0 {
        ok := ParseUncompressedBlock();
        return;
      }
      if kind == 3 {
        return false;
      }
      ghost var p := at;
      if kind == 1 {
        FixedLengthsKraft(288);
        FixedDistancesKraft(32);
        Pow2Values();
        ok, zLength := ZbuildHuffman(FixedLengths(288));
        ok, zDistance := ZbuildHuffman(FixedDistances(32));
        ok := ParseHuffmanBlock(FixedLengths(288), FixedDistances(32));
      } else {
        ok := ComputeHuffmanCodes();
        ghost var c := DynamicCodes(input, p);
        if !ok {
          DataPast(c, Out());
          return;
        }
        ok := ParseHuffmanBlock(c.ll, c.dl);
      }
    }

    lemma DataPast(c: Codes, soFar: seq<byte>)
      ensures c.Codes? && c.p > 8 * |input| ==> Data(input, c.p, soFar, c.ll, c.dl) == Truncated
    {
    }

    /** Bits past the end are zeros: a stored block whose lengths do not match. */
    lemma NothingPastEnd(p: nat)
      requires p >= 8 * |input|
      ensures Peek(input, p + 1, 2) == 0
      ensures Peek(input, Aligned(p + 3) + 16, 16) != 0xFFFF - Peek(input, Aligned(p + 3), 16)
    {
      ZeroBits(input, p + 1, 2);
      ZeroBits(input, Aligned(p + 3), 16);
      ZeroBits(input, Aligned(p + 3) + 16, 16);
    }

    lemma BlocksStep(p: nat, soFar: seq<byte>)
      requires p <= 8 * |input|
      ensures var b, r := Block(input, Peek(input, p + 1, 2), p + 3, soFar), Blocks(input, p, soFar);
              if !b.Done? then r == b
              else if b.p > 8 * |input| then r.Truncated?
              else if Peek(input, p, 1) == 1 then r == b
              else r == Blocks(input, b.p, b.out) && (r.Done? ==> |r.out| >= |b.out|)
    {
      hide Block, Peek;
    }

    method ParseZlibHeader() returns (ok: bool)
      requires pos == 0
      modifies this`pos
      ensures ok <==> ZlibHeader(input)
      ensures ok ==> pos == 2
    {
      var cmf: nat := Zget8(input, pos);
      if pos < |input| { pos := pos + 1; }
      var cm := cmf % 16;
      var flg: nat := Zget8(input, pos);
      if pos < |input| { pos := pos + 1; }
      if pos >= |input| {
        return false;
      }
      if (cmf * 256 + flg) % 31 != 0 {
        return false;
      }
      if (flg / 32) % 2 != 0 {
        return false;
      }
      if cm != 8 {
        return false;
      }
      return true;
    }

    /** One block with its header; at or past the end of the input this fails. */
    method ParseNext() returns (final: nat, ok: bool)
      requires BitsOk() && OutOk()
      modifies this, out
      ensures BitsOk() && OutOk() && Room() == old(Room()) && (out == old(out) || (expandable && fresh(out)))
      ensures !ok || final != 0 ==> Outcome(ok, Blocks(input, old(at), old(Out())))
      ensures ok ==> old(at) < 8 * |input| && at > old(at)
      ensures ok && final == 0 ==> Blocks(input, old(at), old(Out())).Truncated? ||
                                   Blocks(input, old(at), old(Out())) == Blocks(input, at, Out())
    {
      hide Blocks, Block, Peek, Aligned, MaxRoom, BufferOk;
      ghost var p, soFar := at, Out();
      KindBound(p);
      final := Zreceive(1);
      var kind := Zreceive(2);
      if p <= 8 * |input| {
        BlocksStep(p, soFar);
      } else {
        BlocksPast(p, soFar);
      }
      if p >= 8 * |input| {
        NothingPastEnd(p);
      }
      ok := ParseBlock(kind);
    }

    /** Decodes exactly what RFC 1951 says, for every complete stream and every buffer; Outcome says how. */
    method ParseZlib(parseHeader: bool) returns (ok: bool)
      requires OutOk() && pos == 0 && zout == 0
      modifies this, out
      ensures OutOk() && Room() == old(Room()) && (out == old(out) || (expandable && fresh(out)))
      ensures Outcome(ok, Stream(input, parseHeader))
    {
      hide Blocks, MaxRoom, BufferOk;
      if parseHeader {
        var good := ParseZlibHeader();
        if !good {
          return false;
        }
      }
      BufferEmpty(input, if pos <= |input| then pos else 0);
      numBits, codeBuffer, hitZeofOnce := 0, 0, false;
      at, pad := 8 * pos, 0;
      ghost var room, r := Room(), Blocks(input, at, []);
      assert Out() == [];
      var final := 0;
      while final == 0
        invariant BitsOk() && OutOk() && Room() == room && (out == old(out) || (expandable && fresh(out)))
        invariant final == 0 ==> r.Truncated? || r == Blocks(input, at, Out())
        invariant final != 0 ==> Outcome(true, r)
        decreases final == 0, if at < 8 * |input| then 8 * |input| - at else 0
      {
        final, ok := ParseNext();
        if !ok {
          return;
        }
      }
      ok := true;
    }

    lemma BlocksPast(p: nat, soFar: seq<byte>)
      requires p > 8 * |input|
      ensures Blocks(input, p, soFar).Truncated?
    {
    }

    lemma KindBound(p: nat)
      ensures Peek(input, p, 1) < 2 && Peek(input, p + 1, 2) < 4
    {
      Pow2Values();
    }
  }

  /** Decoding into a fixed buffer: the bytes of a complete stream when they fit, failure otherwise. */
  method DecodeBuffer(obuffer: array<byte>, input: seq<byte>, parseHeader: bool) returns (n: int)
    requires obuffer.Length <= INT_MAX
    modifies obuffer
    ensures -1 <= n <= obuffer.Length
    ensures var r := Stream(input, parseHeader);
            && (r.Bad? ==> n < 0)
            && (r.Done? && |r.out| > obuffer.Length ==> n < 0)
            && (r.Done? && |r.out| <= obuffer.Length ==> n == |r.out| && obuffer[..n] == r.out)
  {
    hide Blocks;
    StreamEnds(input, parseHeader);
    var a := new ZBuf(input, obuffer, false);
    var ok := a.ParseZlib(parseHeader);
    if ok {
      return a.zout;
    }
    return -1;
  }

  lemma StreamEnds(input: seq<byte>, header: bool)
    ensures var r := Stream(input, header); r.Done? ==> r.p <= 8 * |input|
  {
  }

  /** A length cast to int. */
  function AsInt(n: nat): int
    requires n <= UINT_MAX
  {
    if n <= INT_MAX then n else n - (UINT_MAX + 1)
  }

  /** Decoding into a buffer that grows from initialSize bytes. The length is reported as an int, so it is negative for
      more than INT_MAX bytes. */
  method DecodeMalloc(input: seq<byte>, initialSize: nat, parseHeader: bool)
    returns (ok: bool, output: seq<byte>, outlen: int)
    requires 0 < initialSize <= INT_MAX
    ensures var r := Stream(input, parseHeader);
            && (r.Bad? ==> !ok)
            && (r.Done? ==> (ok <==> |r.out| <= MaxRoom(initialSize)))
            && (r.Done? && ok ==> output == r.out)
    ensures ok ==> |output| <= UINT_MAX && outlen == AsInt(|output|)
  {
    hide Blocks;
    StreamEnds(input, parseHeader);
    var p := new byte[initialSize](_ => 0);
    var a := new ZBuf(input, p, true);
    ok := a.ParseZlib(parseHeader);
    output, outlen := a.out[..a.zout], AsInt(a.zout);
  }
}
