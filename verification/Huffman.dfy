/** Canonical Huffman codes (RFC 1951, section 3.2.2) and the table decoder of stb_image.h. */
module Huffman {
  import opened Bits

  const FAST_BITS := 9
  const FAST_SIZE := 512
  const NSYMS := 288

  // ----- section 3.2.2 of RFC 1951 ----------------------------------------------------------------

  /** How many of the lengths are l. */
  function Count(lens: seq<nat>, l: nat): (c: nat)
    ensures c <= |lens|
  {
    if lens == [] then 0
    else Count(lens[..|lens| - 1], l) + if lens[|lens| - 1] == l then 1 else 0
  }

  /** The smallest code of length l. */
  function FirstCode(lens: seq<nat>, l: nat): nat {
    if l <= 1 then 0 else 2 * (FirstCode(lens, l - 1) + Count(lens, l - 1))
  }

  /** The code of symbol i: consecutive values within a length, in symbol order. */
  function CodeOf(lens: seq<nat>, i: nat): nat
    requires i < |lens|
  {
    FirstCode(lens, lens[i]) + Count(lens[..i], lens[i])
  }

  /** Symbol i is coded (its length is not zero) and its code is what the stream holds at p. */
  ghost predicate Matches(lens: seq<nat>, input: seq<byte>, p: nat, i: nat)
    requires i < |lens|
  {
    lens[i] > 0 && Code(input, p, lens[i]) == CodeOf(lens, i)
  }

  ghost predicate SomeMatch(lens: seq<nat>, input: seq<byte>, p: nat) {
    exists i: nat :: i < |lens| && Matches(lens, input, p, i)
  }

  /** The symbol coded at p, or -1 when the stream holds no code there. */
  ghost function Symbol(lens: seq<nat>, input: seq<byte>, p: nat): (r: int)
    ensures -1 <= r < |lens|
    ensures r >= 0 ==> Matches(lens, input, p, r)
    ensures r < 0 <==> !SomeMatch(lens, input, p)
  {
    if SomeMatch(lens, input, p) then
      var i: nat :| i < |lens| && Matches(lens, input, p, i);
      i
    else -1
  }

  ghost predicate Lengths(lens: seq<nat>) {
    |lens| <= NSYMS && forall i :: 0 <= i < |lens| ==> lens[i] <= 15
  }

  /** 2^15 times the Kraft sum of the coded symbols. */
  function Kraft(lens: seq<nat>): nat
    requires forall i :: 0 <= i < |lens| ==> lens[i] <= 15
  {
    if lens == [] then 0
    else
      var l := lens[|lens| - 1];
      Kraft(lens[..|lens| - 1]) + if l > 0 then Pow2(15 - l) else 0
  }

  // ----- the code space, level by level -----------------------------------------------------------

  /** One past the largest code of length l. */
  function EndCode(lens: seq<nat>, l: nat): nat {
    FirstCode(lens, l) + if l == 0 then 0 else Count(lens, l)
  }

  /** How many coded symbols are shorter than l. */
  function Shorter(lens: seq<nat>, l: nat): nat {
    if l <= 1 then 0 else Shorter(lens, l - 1) + Count(lens, l - 1)
  }

  /** 2^15 times the Kraft sum of the symbols of length 1 to l. */
  function Level(lens: seq<nat>, l: nat): nat
    requires l <= 15
  {
    if l == 0 then 0 else Level(lens, l - 1) + ShiftLeft(Count(lens, l), 15 - l)
  }

  lemma {:induction false} LevelMono(lens: seq<nat>, k: nat, l: nat)
    requires k <= l <= 15
    ensures Level(lens, k) <= Level(lens, l)
    decreases l
  {
    if k < l {
      LevelMono(lens, k, l - 1);
    }
  }

  lemma {:induction false} LevelIsEndCode(lens: seq<nat>, l: nat)
    requires l <= 15
    ensures ShiftLeft(EndCode(lens, l), 15 - l) == Level(lens, l)
  {
    if l > 0 {
      LevelIsEndCode(lens, l - 1);
      ShiftLeftIn(EndCode(lens, l - 1), 15 - l);
      ShiftLeftAdd(FirstCode(lens, l), Count(lens, l), 15 - l);
    } else {
      ShiftLeftZero(15);
    }
  }

  lemma {:induction false} LevelSnoc(lens: seq<nat>, x: nat, l: nat)
    requires l <= 15
    ensures Level(lens + [x], l) == Level(lens, l) + if 0 < x <= l then Pow2(15 - x) else 0
  {
    if l > 0 {
      LevelSnoc(lens, x, l - 1);
      assert (lens + [x])[..|lens|] == lens;
      ShiftLeftAdd(Count(lens, l), if x == l then 1 else 0, 15 - l);
      ShiftLeftPow2(0, 15 - l);
      ShiftLeftZero(15 - l);
    }
  }

  lemma {:induction false} LevelEmpty(l: nat)
    requires l <= 15
    ensures Level([], l) == 0
  {
    if l > 0 {
      LevelEmpty(l - 1);
      ShiftLeftZero(15 - l);
    }
  }

  lemma {:induction false} KraftIsLevel(lens: seq<nat>)
    requires forall i :: 0 <= i < |lens| ==> lens[i] <= 15
    ensures Kraft(lens) == Level(lens, 15)
  {
    if lens == [] {
      LevelEmpty(15);
    } else {
      var front, x := lens[..|lens| - 1], lens[|lens| - 1];
      KraftIsLevel(front);
      LevelSnoc(front, x, 15);
      assert front + [x] == lens;
    }
  }

  /** The codes fit their lengths exactly when the Kraft sum is at most one. */
  lemma EndCodeFits(lens: seq<nat>, l: nat)
    requires l <= 15
    ensures EndCode(lens, l) <= Pow2(l) <==> Level(lens, l) <= Pow2(15)
  {
    LevelIsEndCode(lens, l);
    ShiftLeftPow2(l, 15 - l);
    ShiftLeftLe(EndCode(lens, l), Pow2(l), 15 - l);
  }

  // ----- counting symbols of one length -----------------------------------------------------------

  lemma {:induction false} CountMono(lens: seq<nat>, i: nat, j: nat, l: nat)
    requires i <= j <= |lens|
    ensures Count(lens[..i], l) <= Count(lens[..j], l)
    ensures i < j && lens[i] == l ==> Count(lens[..i], l) < Count(lens[..j], l)
    decreases j
  {
    if i < j {
      CountMono(lens, i, j - 1, l);
      assert lens[..j][..j - 1] == lens[..j - 1];
    }
  }

  lemma CountBelow(lens: seq<nat>, i: nat)
    requires i < |lens|
    ensures Count(lens[..i], lens[i]) < Count(lens, lens[i])
  {
    CountMono(lens, i, |lens|, lens[i]);
    assert lens[..|lens|] == lens;
  }

  /** Every rank below Count is taken by some symbol. */
  lemma {:induction false} NthOfLength(lens: seq<nat>, l: nat, c: nat) returns (i: nat)
    requires c < Count(lens, l)
    ensures i < |lens| && lens[i] == l && Count(lens[..i], l) == c
  {
    var n := |lens| - 1;
    if c < Count(lens[..n], l) {
      i := NthOfLength(lens[..n], l, c);
      assert lens[..n][..i] == lens[..i];
    } else {
      i := n;
    }
  }

  lemma {:induction false} ShorterBound(lens: seq<nat>, l: nat, i: nat)
    requires i <= |lens|
    ensures Shorter(lens[..i], l) + (if l == 0 then 0 else Count(lens[..i], l)) <= i
    decreases i
  {
    if i == 0 {
      ShorterEmpty(l);
    } else {
      ShorterBound(lens, l, i - 1);
      assert lens[..i][..i - 1] == lens[..i - 1];
      ShorterSnoc(lens[..i - 1], lens[i - 1], l);
      assert lens[..i - 1] + [lens[i - 1]] == lens[..i];
    }
  }

  lemma {:induction false} ShorterEmpty(l: nat)
    ensures Shorter([], l) == 0
  {
    if l > 1 {
      ShorterEmpty(l - 1);
    }
  }

  lemma {:induction false} ShorterSnoc(lens: seq<nat>, x: nat, l: nat)
    ensures Shorter(lens + [x], l) == Shorter(lens, l) + if 0 < x < l then 1 else 0
  {
    if l > 1 {
      ShorterSnoc(lens, x, l - 1);
      assert (lens + [x])[..|lens|] == lens;
    }
  }

  lemma {:induction false} ShorterMono(lens: seq<nat>, k: nat, l: nat)
    requires 1 <= k < l
    ensures Shorter(lens, k) + Count(lens, k) <= Shorter(lens, l)
    decreases l
  {
    if k < l - 1 {
      ShorterMono(lens, k, l - 1);
    }
  }

  // ----- which stretch of the code space holds the next 16 bits -----------------------------------

  /** The code space up to length l, preshifted to 16 bits. */
  function Limit(lens: seq<nat>, l: nat): nat
    requires l <= 16
  {
    ShiftLeft(EndCode(lens, l), 16 - l)
  }

  lemma {:induction false} LimitMono(lens: seq<nat>, k: nat, l: nat)
    requires k <= l <= 15
    ensures Limit(lens, k) <= Limit(lens, l)
    decreases l
  {
    if k < l {
      LimitMono(lens, k, l - 1);
      FirstLimit(lens, l);
      ShiftLeftLe(FirstCode(lens, l), EndCode(lens, l), 16 - l);
    }
  }

  lemma FirstLimit(lens: seq<nat>, l: nat)
    requires 0 < l <= 15
    ensures ShiftLeft(FirstCode(lens, l), 16 - l) == Limit(lens, l - 1)
  {
    ShiftLeftIn(EndCode(lens, l - 1), 16 - l);
    assert 16 - (l - 1) == (16 - l) + 1;
  }

  /** A symbol of length l matches exactly when the next 16 bits lie in level l of the code space. */
  lemma MatchLevel(lens: seq<nat>, input: seq<byte>, p: nat, l: nat)
    requires 0 < l <= 15
    ensures (exists i: nat :: i < |lens| && lens[i] == l && Matches(lens, input, p, i))
       <==> Limit(lens, l - 1) <= Code(input, p, 16) < Limit(lens, l)
  {
    var k := Code(input, p, 16);
    CodePrefix(input, p, l, 16);
    FirstLimit(lens, l);
    BelowShifted(k, FirstCode(lens, l), 16 - l);
    BelowShifted(k, EndCode(lens, l), 16 - l);
    if Limit(lens, l - 1) <= k < Limit(lens, l) {
      var i := NthOfLength(lens, l, Code(input, p, l) - FirstCode(lens, l));
      assert Matches(lens, input, p, i);
    }
    forall i: nat | i < |lens| && lens[i] == l && Matches(lens, input, p, i)
      ensures Limit(lens, l - 1) <= k < Limit(lens, l)
    {
      CountBelow(lens, i);
    }
  }

  /** No code is a prefix of another: at most one symbol matches. */
  lemma UniqueMatch(lens: seq<nat>, input: seq<byte>, p: nat, i: nat, j: nat)
    requires Lengths(lens) && i < |lens| && j < |lens|
    requires Matches(lens, input, p, i) && Matches(lens, input, p, j)
    ensures i == j
  {
    var a, b := lens[i], lens[j];
    MatchLevel(lens, input, p, a);
    MatchLevel(lens, input, p, b);
    if a < b {
      LimitMono(lens, a, b - 1);
    } else if b < a {
      LimitMono(lens, b, a - 1);
    } else if i < j {
      CountMono(lens, i, j, a);
    } else if j < i {
      CountMono(lens, j, i, a);
    }
  }

  lemma SymbolIs(lens: seq<nat>, input: seq<byte>, p: nat, i: nat)
    requires Lengths(lens) && i < |lens| && Matches(lens, input, p, i)
    ensures Symbol(lens, input, p) == i
  {
    UniqueMatch(lens, input, p, i, Symbol(lens, input, p));
  }
}
