/** bit_array.h: a set of small numbers packed into 64-bit words. */
module BitArray {
  import W = Words

  const BITS_PER_WORD := 64

  type Word = w: W.Word | |w| == 64 witness W.Zero(64)

  function One(): Word {
    [true] + W.Zero(63)
  }

  /** w - 1, borrowing from the next bit while there is nothing to take. */
  function Decrement(w: W.Word): (r: W.Word)
    ensures |r| == |w|
  {
    if w == [] then []
    else if w[0] then [false] + w[1..]
    else [true] + Decrement(w[1..])
  }

  lemma {:induction false} DecrementSubtracts(w: W.Word)
    requires W.ToNat(w) > 0
    ensures W.ToNat(Decrement(w)) == W.ToNat(w) - 1
  {
    if w != [] && !w[0] {
      DecrementSubtracts(w[1..]);
      assert Decrement(w)[1..] == Decrement(w[1..]);
    } else {
      assert Decrement(w)[1..] == w[1..];
    }
  }

  /** (1 << s) - 1: the low s bits. */
  function LowMask(s: nat): Word {
    Decrement(W.Shl(One(), s))
  }

  lemma {:induction false} DecrementPower(w: W.Word, s: nat, i: nat)
    requires s < |w| && w[s] && (forall j :: 0 <= j < |w| && j != s ==> !w[j]) && i < |w|
    ensures Decrement(w)[i] == (i < s)
  {
    if s > 0 && i > 0 {
      DecrementPower(w[1..], s - 1, i - 1);
    }
  }

  lemma LowMaskBits(s: nat, i: nat)
    requires s < 64 && i < 64
    ensures LowMask(s)[i] == (i < s)
  {
    hide Decrement;
    DecrementPower(W.Shl(One(), s), s, i);
  }

  // ----- counting bits from either end ------------------------------------------------------------------------------

  /** How many bits equal to b stand at the low end. */
  function LowRun(w: W.Word, b: bool): (n: nat)
    ensures n <= |w|
    ensures forall i :: 0 <= i < n ==> w[i] == b
    ensures n < |w| ==> w[n] != b
  {
    if w == [] || w[0] != b then 0 else 1 + LowRun(w[1..], b)
  }

  /** How many bits equal to b stand at the high end. */
  function HighRun(w: W.Word, b: bool): (n: nat)
    ensures n <= |w|
    ensures forall i :: |w| - n <= i < |w| ==> w[i] == b
    ensures n < |w| ==> w[|w| - 1 - n] != b
  {
    if w == [] || w[|w| - 1] != b then 0 else 1 + HighRun(w[..|w| - 1], b)
  }

  /** The bits of word k that belong to [start, end). */
  function RangeMask(k: nat, start: nat, end: nat): Word {
    seq(64, i => start <= 64 * k + i < end)
  }

  /** ~((1 << bit) - 1) */
  function FromMask(bit: nat): Word {
    W.Not(LowMask(bit))
  }

  /** The bits up to and including bit; a shift by 64 is avoided. */
  function UpToMask(bit: nat): Word {
    if bit == BITS_PER_WORD - 1 then W.Ones(64) else LowMask(bit + 1)
  }

  lemma MaskBits(bit: nat)
    requires bit < 64
    ensures forall i :: 0 <= i < 64 ==> FromMask(bit)[i] == (i >= bit)
    ensures forall i :: 0 <= i < 64 ==> UpToMask(bit)[i] == (i <= bit)
  {
    hide LowMask;
    forall i | 0 <= i < 64 ensures FromMask(bit)[i] == (i >= bit) && UpToMask(bit)[i] == (i <= bit) {
      LowMaskBits(bit, i);
      if bit < 63 {
        LowMaskBits(bit + 1, i);
      }
    }
  }

  /** Start and end masks are the range's share of the first and the last word. */
  lemma MasksAreRange(start: nat, end: nat)
    requires start < end
    ensures var f, l := start / 64, (end - 1) / 64;
            && (f == l ==> W.And(FromMask(start % 64), UpToMask((end - 1) % 64)) == RangeMask(f, start, end))
            && (f < l ==> FromMask(start % 64) == RangeMask(f, start, end)
                          && UpToMask((end - 1) % 64) == RangeMask(l, start, end))
            && (forall k :: f < k < l ==> RangeMask(k, start, end) == W.Ones(64))
            && (forall k: nat :: k < f || l < k ==> RangeMask(k, start, end) == W.Zero(64))
  {
    hide FromMask, UpToMask;
    MaskBits(start % 64);
    MaskBits((end - 1) % 64);
  }

  predicate Between(start: nat, i: nat, end: nat) {
    start <= i < end
  }

  function Interval(start: nat, end: nat): set<nat> {
    set i: nat | start <= i < end && Between(start, i, end)
  }

  type Range = (nat, nat)

  const SIZE_MAX := 0xFFFF_FFFF_FFFF_FFFF

  /** n - 1 as a size_t. */
  function MinusOne(n: nat): nat {
    if n == 0 then SIZE_MAX else n - 1
  }

  /** The first word a search backwards from end > 0 reads in an array of size bits. */
  function LastWordRead(size: nat, end: nat): nat {
    MinusOne(if end > size then size else end) / BITS_PER_WORD
  }

  /** That word exists exactly when the array has any. */
  lemma LastWordInside(size: nat, end: nat)
    requires end > 0 && size % BITS_PER_WORD == 0
    ensures LastWordRead(size, end) < size / BITS_PER_WORD <==> size > 0
  {
  }

  /** In an array of no words the end is cut to zero, and one less is the largest index there is. */
  lemma NoWordsToRead(end: nat)
    requires end > 0
    ensures LastWordRead(0, end) == 0x3FF_FFFF_FFFF_FFFF
  {
  }

  class BitArray {
    const size: nat
    const data: array<Word>

    ghost predicate Valid() {
      size == BITS_PER_WORD * data.Length
    }

    ghost predicate Has(i: nat)
      requires Valid() && i < size
      reads data
    {
      data[i / 64][i % 64]
    }

    ghost function Members(): set<nat>
      requires Valid()
      reads data
    {
      set i: nat | i < size && Has(i)
    }

    constructor (words: nat)
      ensures Valid() && size == BITS_PER_WORD * words && fresh(data)
      ensures Members() == {}
    {
      size := BITS_PER_WORD * words;
      data := new Word[words](_ => W.Zero(64));
    }

    /** The members of other in [start, end); nothing for a range that is empty or leaves the array. */
    constructor FromRange(other: BitArray, start: nat, end: nat)
      requires other.Valid()
      ensures Valid() && size == other.size && fresh(data)
      ensures Members() == if start < end <= size then other.Members() * Interval(start, end) else {}
    {
      size := other.size;
      data := new Word[other.data.Length](_ => W.Zero(64));
      new;
      if start >= end || end > size {
        return;
      }
      var firstWord, lastWord := start / BITS_PER_WORD, (end - 1) / BITS_PER_WORD;
      var startMask, endMask := FromMask(start % BITS_PER_WORD), UpToMask((end - 1) % BITS_PER_WORD);
      MasksAreRange(start, end);
      if firstWord == lastWord {
        data[firstWord] := W.And(other.data[firstWord], W.And(startMask, endMask));
      } else {
        data[firstWord] := W.And(other.data[firstWord], startMask);
        var i := firstWord + 1;
        while i < lastWord
          invariant firstWord < i <= lastWord
          invariant forall k :: 0 <= k < i ==> data[k] == W.And(other.data[k], RangeMask(k, start, end))
          invariant forall k :: i <= k < data.Length ==> data[k] == W.Zero(64)
        {
          data[i] := other.data[i];
          i := i + 1;
        }
        data[lastWord] := W.And(other.data[lastWord], endMask);
      }
    }

    method SetRange(start: nat, end: nat)
      requires Valid()
      modifies data
      ensures Members() == old(Members()) + if start < end <= size then Interval(start, end) else {}
    {
      hide LowMask, UpToMask, FromMask;
      if start >= end || end > size {
        return;
      }
      var firstWord, lastWord := start / BITS_PER_WORD, (end - 1) / BITS_PER_WORD;
      var startMask, endMask := FromMask(start % BITS_PER_WORD), UpToMask((end - 1) % BITS_PER_WORD);
      MasksAreRange(start, end);
      if firstWord == lastWord {
        data[firstWord] := W.Or(data[firstWord], W.And(startMask, endMask));
      } else {
        data[firstWord] := W.Or(data[firstWord], startMask);
        var i := firstWord + 1;
        while i < lastWord
          invariant firstWord < i <= lastWord
          invariant forall k :: firstWord <= k < i ==> data[k] == W.Or(old(data[k]), RangeMask(k, start, end))
          invariant forall k :: 0 <= k < firstWord || i <= k < data.Length ==> data[k] == old(data[k])
        {
          data[i] := W.Ones(64);
          i := i + 1;
        }
        data[lastWord] := W.Or(data[lastWord], endMask);
      }
      WordsPlusRange(start, end);
    }

    twostate lemma WordsPlusRange(new start: nat, new end: nat)
      requires Valid() && start < end <= size
      requires forall k :: 0 <= k < data.Length ==> data[k] == W.Or(old(data[k]), RangeMask(k, start, end))
      ensures Members() == old(Members()) + Interval(start, end)
    {
    }

    method UnsetRange(start: nat, end: nat)
      requires Valid()
      modifies data
      ensures Members() == old(Members()) - if start < end <= size then Interval(start, end) else {}
    {
      hide LowMask, UpToMask;
      if start >= end || end > size {
        return;
      }
      var firstWord, lastWord := start / BITS_PER_WORD, (end - 1) / BITS_PER_WORD;
      var startMask := LowMask(start % BITS_PER_WORD);
      var endMask := W.Not(UpToMask((end - 1) % BITS_PER_WORD));
      MasksAreRange(start, end);
      MaskBits(start % BITS_PER_WORD);
      if firstWord == lastWord {
        data[firstWord] := W.And(data[firstWord], W.Or(startMask, endMask));
      } else {
        data[firstWord] := W.And(data[firstWord], startMask);
        var i := firstWord + 1;
        while i < lastWord
          invariant firstWord < i <= lastWord
          invariant forall k :: firstWord <= k < i ==> data[k] == W.And(old(data[k]), W.Not(RangeMask(k, start, end)))
          invariant forall k :: 0 <= k < firstWord || i <= k < data.Length ==> data[k] == old(data[k])
        {
          data[i] := W.Zero(64);
          i := i + 1;
        }
        data[lastWord] := W.And(data[lastWord], endMask);
      }
      WordsMinusRange(start, end);
    }

    twostate lemma WordsMinusRange(new start: nat, new end: nat)
      requires Valid() && start < end <= size
      requires forall k :: 0 <= k < data.Length ==> data[k] == W.And(old(data[k]), W.Not(RangeMask(k, start, end)))
      ensures Members() == old(Members()) - Interval(start, end)
    {
    }

    // ----- searching for runs ----------------------------------------------------------------------------------------

    /** All of [a, b), which lies in the array. */
    ghost predicate Full(a: nat, b: nat)
      requires Valid()
      reads data
    {
      b <= size && forall i :: a <= i < b ==> Has(i)
    }

    ghost predicate Empty(a: nat, b: nat)
      requires Valid()
      reads data
    {
      b <= size && forall i :: a <= i < b ==> !Has(i)
    }

    /** The first run of members at or after start, cut off at start; the end of the array when there is none. */
    ghost predicate IsFirstRange(r: Range, start: nat)
      requires Valid()
      reads data
    {
      if start >= size || Empty(start, size) then r == (size, size)
      else start <= r.0 < r.1 <= size && Empty(start, r.0) && Full(r.0, r.1) && (r.1 == size || !Has(r.1))
    }

    /** The last run of members before end, cut off at end; the start of the array when there is none. */
    ghost predicate IsLastRange(r: Range, end: nat)
      requires Valid()
      reads data
    {
      var e := if end > size then size else end;
      if Empty(0, e) then r == (0, 0)
      else r.0 < r.1 <= e && Empty(r.1, e) && Full(r.0, r.1) && (r.0 == 0 || !Has(r.0 - 1))
    }

    /** The first index from word on that is no member. */
    method FindEndBit(word: nat) returns (end: nat)
      requires Valid() && word <= data.Length
      ensures 64 * word <= end <= size && Full(64 * word, end) && (end == size || !Has(end))
    {
      var w := word;
      while w < data.Length
        invariant word <= w <= data.Length
        invariant Full(64 * word, 64 * w)
      {
        if data[w] != W.Ones(64) {
          var n := LowRun(data[w], true);
          if n == 64 {
            WholeRun(data[w], true);
          }
          return w * BITS_PER_WORD + n;
        }
        w := w + 1;
      }
      return size;
    }

    /** The first run in word, which is word index with bits below the search start cleared. */
    method FirstInWord(index: nat, word: Word, start: nat) returns (r: Range)
      requires Valid() && index < data.Length && word != W.Zero(64) && 64 * index <= start < 64 * index + 64
      requires forall i :: 0 <= i < 64 ==> word[i] == (data[index][i] && 64 * index + i >= start)
      ensures start <= r.0 < r.1 <= size && Empty(start, r.0) && Full(r.0, r.1) && (r.1 == size || !Has(r.1))
    {
      hide W.Shr, W.Zero, LowRun;
      var emptyBits := LowRun(word, false);
      if emptyBits == 64 {
        WholeRun(word, false);
      }
      var shifted := W.Shr(word, emptyBits);
      var onesCount := LowRun(shifted, true);
      var startBit := index * BITS_PER_WORD + emptyBits;
      ShiftedRun(word, emptyBits, onesCount);
      if onesCount + emptyBits < BITS_PER_WORD {
        return (startBit, startBit + onesCount);
      }
      var end := FindEndBit(index + 1);
      return (startBit, end);
    }

    method FirstRangeFrom(start: nat) returns (r: Range)
      requires Valid()
      ensures IsFirstRange(r, start)
    {
      if start >= size {
        return (size, size);
      }
      var startWord, startBit := start / BITS_PER_WORD, start % BITS_PER_WORD;
      MaskBits(startBit);
      var maskedFirst := W.And(data[startWord], FromMask(startBit));
      if maskedFirst != W.Zero(64) {
        r := FirstInWord(startWord, maskedFirst, start);
        assert Has(r.0);
        return;
      }
      var word := startWord + 1;
      forall i | start <= i < 64 * word ensures !Has(i) {
        assert !W.Zero(64)[i % 64] && !maskedFirst[i % 64] && i / 64 == startWord;
      }
      while word < data.Length
        invariant startWord < word <= data.Length
        invariant Empty(start, 64 * word)
      {
        if data[word] != W.Zero(64) {
          r := FirstInWord(word, data[word], 64 * word);
          assert Has(r.0);
          return;
        }
        word := word + 1;
      }
      return (size, size);
    }

    /** The first index of the members that end right before word. */
    method FindStartBit(word: nat) returns (start: nat)
      requires Valid() && word <= data.Length
      ensures start <= 64 * word && Full(start, 64 * word) && (start == 0 || !Has(start - 1))
    {
      var w := word;
      while w > 0
        invariant 0 <= w <= word
        invariant Full(64 * w, 64 * word)
      {
        if data[w - 1] != W.Ones(64) {
          var n := HighRun(data[w - 1], true);
          if n == 64 {
            WholeHighRun(data[w - 1], true);
          }
          return w * BITS_PER_WORD - n;
        }
        w := w - 1;
      }
      return 0;
    }

    /** The last run in word, which is word index - 1 with bits from the search end on cleared. */
    method LastInWord(index: nat, word: Word, end: nat) returns (r: Range)
      requires Valid() && 0 < index <= data.Length && word != W.Zero(64) && 64 * index - 64 < end <= 64 * index
      requires forall i :: 0 <= i < 64 ==> word[i] == (data[index - 1][i] && 64 * index - 64 + i < end)
      ensures r.0 < r.1 <= end && Empty(r.1, end) && Full(r.0, r.1) && (r.0 == 0 || !Has(r.0 - 1))
    {
      hide W.Shl, W.Zero, HighRun;
      var emptyBits := HighRun(word, false);
      if emptyBits == 64 {
        WholeHighRun(word, false);
      }
      var onesCount := HighRun(W.Shl(word, emptyBits), true);
      var endBit := index * BITS_PER_WORD - emptyBits;
      ShiftedHighRun(word, emptyBits, onesCount);
      forall i | endBit <= i < end ensures !Has(i) {
        assert !word[i - (64 * index - 64)];
      }
      forall i | endBit - onesCount <= i < endBit ensures Has(i) {
        assert word[i - (64 * index - 64)];
      }
      if emptyBits + onesCount < BITS_PER_WORD {
        return (endBit - onesCount, endBit);
      }
      var start := FindStartBit(index - 1);
      return (start, endBit);
    }

    static method MaskAfter(word: Word, bit: nat) returns (masked: Word)
      requires bit < 64
      ensures forall i :: 0 <= i < 64 ==> masked[i] == (word[i] && i <= bit)
    {
      hide LowMask;
      MaskBits(bit);
      masked := word;
      if bit < BITS_PER_WORD - 1 {
        masked := W.And(masked, LowMask(bit + 1));
        assert LowMask(bit + 1) == UpToMask(bit);
      }
    }

    /** The last run before end. An array of no words searched from an end above zero reads a word it does not have:
        inside is false and no range is promised. */
    method LastRangeFrom(end: nat) returns (r: Range, inside: bool)
      requires Valid()
      ensures inside <==> end == 0 || LastWordRead(size, end) < data.Length
      ensures inside <==> end == 0 || size > 0
      ensures inside ==> IsLastRange(r, end)
    {
      inside := true;
      if end == 0 {
        return (0, 0), inside;
      }
      LastWordInside(size, end);
      var e := if end > size then size else end;
      var endWord, endBit := MinusOne(e) / BITS_PER_WORD + 1, MinusOne(e) % BITS_PER_WORD;
      if endWord - 1 >= data.Length {
        return (0, 0), false;
      }
      var maskedLast := MaskAfter(data[endWord - 1], endBit);
      if maskedLast != W.Zero(64) {
        r := LastInWord(endWord, maskedLast, e);
        assert Has(r.0);
        return;
      }
      var word := endWord - 1;
      forall i | 64 * word <= i < e ensures !Has(i) {
        assert i / 64 == word && i % 64 <= endBit;
        assert !W.Zero(64)[i % 64] && !maskedLast[i % 64];
      }
      while word > 0
        invariant 0 <= word < endWord
        invariant Empty(64 * word, e)
      {
        if data[word - 1] != W.Zero(64) {
          r := LastInWord(word, data[word - 1], 64 * word);
          assert Has(r.0);
          return;
        }
        word := word - 1;
      }
      return (0, 0), inside;
    }

    // ----- iteration -------------------------------------------------------------------------------------------------

    /** A run of members that cannot be made longer. */
    ghost predicate IsRun(r: Range)
      requires Valid()
      reads data
    {
      r.0 < r.1 <= size && Full(r.0, r.1) && (r.0 == 0 || !Has(r.0 - 1)) && (r.1 == size || !Has(r.1))
    }

    /** for (auto r : array): from begin() by ++ to end(). Every maximal run exactly once, ascending. */
    method Iterate() returns (runs: seq<Range>)
      requires Valid()
      ensures forall r: Range :: r in runs <==> IsRun(r)
      ensures forall i, j :: 0 <= i < j < |runs| ==> runs[i].1 < runs[j].0
      ensures forall i: nat :: i in Members() <==> exists r :: r in runs && Between(r.0, i, r.1)
    {
      runs := [];
      var it := FirstRangeFrom(0);
      ghost var seen: nat := 0;
      while it != (size, size)
        invariant seen <= size && IsFirstRange(it, seen) && (seen < size ==> seen == 0 || !Has(seen))
        invariant forall r: Range :: r in runs <==> IsRun(r) && r.1 <= seen
        invariant forall i, j :: 0 <= i < j < |runs| ==> runs[i].1 < runs[j].0
        decreases size - seen
      {
        RunAfter(it, seen);
        forall i | 0 <= i < |runs| ensures runs[i].1 < it.0 {
          assert runs[i] in runs;
          assert Has(it.0);
        }
        runs := runs + [it];
        seen := it.1;
        it := FirstRangeFrom(it.1);
      }
      NoneAfter(seen);
      forall i: nat ensures i in Members() <==> exists r :: r in runs && Between(r.0, i, r.1) {
        if i in Members() {
          var r := RunAround(i);
          assert r in runs;
        }
      }
    }

    /** The range found after seen is the one run that ends after seen and not after it. */
    lemma RunAfter(it: Range, seen: nat)
      requires Valid() && seen < size && IsFirstRange(it, seen) && it != (size, size) && (seen == 0 || !Has(seen))
      ensures forall r: Range :: IsRun(r) && r.1 <= it.1 <==> (IsRun(r) && r.1 <= seen) || r == it
    {
      assert Has(it.0) && Has(it.1 - 1);
      assert IsRun(it);
      forall r: Range | IsRun(r) && seen < r.1 <= it.1 ensures r == it {
        assert Has(r.1 - 1);
        assert r.1 < size ==> !Has(r.1);
        assert r.0 > 0 ==> !Has(r.0 - 1);
        assert it.0 > 0 ==> !Has(it.0 - 1);
      }
    }

    lemma NoneAfter(seen: nat)
      requires Valid() && seen <= size && Empty(seen, size)
      ensures forall r: Range :: IsRun(r) ==> r.1 <= seen
    {
      forall r: Range | IsRun(r) ensures r.1 <= seen {
        assert Has(r.1 - 1);
      }
    }

    lemma RunAround(i: nat) returns (r: Range)
      requires Valid() && i < size && Has(i)
      ensures IsRun(r) && Between(r.0, i, r.1)
    {
      var a, b := i, i + 1;
      while a > 0 && Has(a - 1)
        invariant 0 <= a <= i && Full(a, i + 1)
      {
        a := a - 1;
      }
      while b < size && Has(b)
        invariant i < b <= size && Full(a, b)
      {
        b := b + 1;
      }
      r := (a, b);
    }
  }

  lemma WholeRun(w: Word, b: bool)
    requires LowRun(w, b) == 64
    ensures w == if b then W.Ones(64) else W.Zero(64)
  {
  }

  lemma WholeHighRun(w: Word, b: bool)
    requires HighRun(w, b) == 64
    ensures w == if b then W.Ones(64) else W.Zero(64)
  {
  }

  /** After the empty bits come as many members as the shifted word starts with. */
  lemma ShiftedRun(w: Word, empty: nat, ones: nat)
    requires empty < 64 && w[empty] && ones == LowRun(W.Shr(w, empty), true)
    ensures 0 < ones <= 64 - empty
    ensures forall i :: empty <= i < empty + ones ==> w[i]
    ensures empty + ones < 64 ==> !w[empty + ones]
  {
    var s := W.Shr(w, empty);
    assert s[0] == w[empty];
    if empty > 0 {
      assert !s[64 - empty];
    }
    forall i | empty <= i < empty + ones ensures w[i] {
      assert s[i - empty];
    }
  }

  lemma ShiftedHighRun(w: Word, empty: nat, ones: nat)
    requires empty < 64 && w[63 - empty] && ones == HighRun(W.Shl(w, empty), true)
    ensures 0 < ones <= 64 - empty
    ensures forall i :: 64 - empty - ones <= i < 64 - empty ==> w[i]
    ensures empty + ones < 64 ==> !w[63 - empty - ones]
  {
    var s := W.Shl(w, empty);
    assert s[63] == w[63 - empty];
    if empty > 0 {
      assert !s[empty - 1];
    }
    forall i | 64 - empty - ones <= i < 64 - empty ensures w[i] {
      assert s[i + empty];
    }
  }
}
