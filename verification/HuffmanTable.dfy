/** The lookup tables of stbi__zhuffman and their construction. */
module HuffmanTable {
  import opened Bits
  import opened Words
  import opened Huffman

  // ----- bit reversal -----------------------------------------------------------------------------

  /** The 16-bit mask of the bits whose index has the d bit set: 0xAAAA, 0xCCCC, 0xF0F0, 0xFF00. */
  function Mask(d: nat): (w: Word)
    requires d > 0
    ensures |w| == 32
  {
    seq(32, i => 0 <= i < 16 && (i / d) % 2 == 1)
  }

  /** The complementary 16-bit mask: 0x5555, 0x3333, 0x0F0F, 0x00FF. */
  function LowMask(d: nat): (w: Word)
    requires d > 0
    ensures |w| == 32
  {
    seq(32, i => 0 <= i < 16 && (i / d) % 2 == 0)
  }

  /** One line of stbi__bitreverse16: swap the neighbouring groups of d bits. */
  function SwapGroups(w: Word, d: nat): (r: Word)
    requires |w| == 32 && d > 0
    ensures |r| == 32
  {
    Or(Shr(And(w, Mask(d)), d), Shl(And(w, LowMask(d)), d))
  }

  /** The bit that trades places with bit i when groups of d bits are swapped. */
  function Partner(i: nat, d: nat): (j: nat)
    requires d > 0
  {
    if (i / d) % 2 == 0 then i + d else if i >= d then i - d else 0
  }

  ghost predicate Swapped(w: Word, r: Word, d: nat)
    requires d > 0
  {
    |w| == |r| == 32 && forall i :: 0 <= i < 32 ==> r[i] == (i < 16 && Partner(i, d) < 32 && w[Partner(i, d)])
  }

  lemma Swaps1(w: Word)
    requires |w| == 32
    ensures Swapped(w, SwapGroups(w, 1), 1)
  {
    var hi, lo := And(w, Mask(1)), And(w, LowMask(1));
    forall i | 0 <= i < 32 ensures SwapGroups(w, 1)[i] == (i < 16 && Partner(i, 1) < 32 && w[Partner(i, 1)]) {
      assert SwapGroups(w, 1)[i] == ((i + 1 < 32 && hi[i + 1]) || (i >= 1 && lo[i - 1]));
    }
  }

  lemma Swaps2(w: Word)
    requires |w| == 32
    ensures Swapped(w, SwapGroups(w, 2), 2)
  {
    var hi, lo := And(w, Mask(2)), And(w, LowMask(2));
    forall i | 0 <= i < 32 ensures SwapGroups(w, 2)[i] == (i < 16 && Partner(i, 2) < 32 && w[Partner(i, 2)]) {
      assert SwapGroups(w, 2)[i] == ((i + 2 < 32 && hi[i + 2]) || (i >= 2 && lo[i - 2]));
    }
  }

  lemma Swaps4(w: Word)
    requires |w| == 32
    ensures Swapped(w, SwapGroups(w, 4), 4)
  {
    var hi, lo := And(w, Mask(4)), And(w, LowMask(4));
    forall i | 0 <= i < 32 ensures SwapGroups(w, 4)[i] == (i < 16 && Partner(i, 4) < 32 && w[Partner(i, 4)]) {
      assert SwapGroups(w, 4)[i] == ((i + 4 < 32 && hi[i + 4]) || (i >= 4 && lo[i - 4]));
    }
  }

  lemma Swaps8(w: Word)
    requires |w| == 32
    ensures Swapped(w, SwapGroups(w, 8), 8)
  {
    var hi, lo := And(w, Mask(8)), And(w, LowMask(8));
    forall i | 0 <= i < 32 ensures SwapGroups(w, 8)[i] == (i < 16 && Partner(i, 8) < 32 && w[Partner(i, 8)]) {
      assert SwapGroups(w, 8)[i] == ((i + 8 < 32 && hi[i + 8]) || (i >= 8 && lo[i - 8]));
    }
  }

  lemma PartnersMirror(i: nat)
    requires i < 16
    ensures Partner(i, 8) < 16 && Partner(Partner(i, 8), 4) < 16 && Partner(Partner(Partner(i, 8), 4), 2) < 16
    ensures Partner(Partner(Partner(Partner(i, 8), 4), 2), 1) == 15 - i
  {
  }

  lemma SwapsMirror(w: Word, a: Word, b: Word, c: Word, r: Word, i: nat)
    requires Swapped(w, a, 1) && Swapped(a, b, 2) && Swapped(b, c, 4) && Swapped(c, r, 8)
    requires i < 16
    ensures r[i] == w[15 - i]
  {
    PartnersMirror(i);
  }

  lemma MirroredReverses(n: nat, w: Word, a: Word, b: Word, c: Word, r: Word)
    requires w == FromNat(n, 32)
    requires Swapped(w, a, 1) && Swapped(a, b, 2) && Swapped(b, c, 4) && Swapped(c, r, 8)
    ensures ToNat(r) == Reverse(n, 16)
  {
    ToNatLow(r, 16);
    FromNatPrefix(n, 16, 32);
    forall i | 0 <= i < 16 ensures r[..16][i] == FromNat(n, 16)[15 - i] {
      SwapsMirror(w, a, b, c, r, i);
      assert w[..16][15 - i] == w[15 - i];
    }
    MirrorIsReverse(r[..16], n, 16);
  }

  /** The masks and shifts reverse the low 16 bits. */
  method BitReverse16(v: nat) returns (r: nat)
    ensures r == Reverse(v, 16)
  {
    var n := FromNat(v, 32);
    var a := SwapGroups(n, 1);
    var b := SwapGroups(a, 2);
    var c := SwapGroups(b, 4);
    var d := SwapGroups(c, 8);
    r := ToNat(d);
    Swaps1(n);
    Swaps2(a);
    Swaps4(b);
    Swaps8(c);
    MirroredReverses(v, n, a, b, c, d);
  }

  method BitReverse(v: nat, bits: nat) returns (r: nat)
    requires bits <= 16
    ensures v < Pow2(bits) ==> r == Reverse(v, bits)
    ensures bits == 16 ==> r == Reverse(v, 16)
  {
    var w := BitReverse16(v);
    r := ShiftRight(w, 16 - bits);
    if v < Pow2(bits) {
      ReverseShift(v, bits, 16);
      ShiftBack(Reverse(v, bits), 16 - bits);
    }
  }

  // ----- the tables -------------------------------------------------------------------------------

  datatype Table = Table(fast: seq<nat>, firstcode: seq<nat>, maxcode: seq<nat>,
                         firstsymbol: seq<nat>, size: seq<nat>, value: seq<nat>)

  /** Symbol i has a code of at most nine bits, which the low bits of v hold. */
  ghost predicate Hit(lens: seq<nat>, i: nat, v: nat)
    requires i < |lens|
  {
    0 < lens[i] <= FAST_BITS && Low(v, lens[i]) == Reverse(CodeOf(lens, i), lens[i])
  }

  /** A fast entry is a hit among the first n symbols, or zero when there is none. */
  ghost predicate FastEntry(lens: seq<nat>, n: nat, v: nat, entry: nat)
    requires n <= |lens|
  {
    || (entry == 0 && forall i: nat :: i < n ==> !Hit(lens, i, v))
    || (exists i: nat :: i < n && Hit(lens, i, v) && entry == lens[i] * 512 + i)
  }

  /** Where the slow path finds symbol i. */
  function Slot(lens: seq<nat>, i: nat): nat
    requires i < |lens|
  {
    Shorter(lens, lens[i]) + Count(lens[..i], lens[i])
  }

  ghost predicate LevelEntry(lens: seq<nat>, firstcode: nat, maxcode: nat, firstsymbol: nat, l: nat)
    requires l <= 16
  {
    && firstcode == FirstCode(lens, l)
    && firstsymbol == Shorter(lens, l)
    && maxcode == Limit(lens, l)
    && EndCode(lens, l) <= Pow2(l)
  }

  ghost predicate LevelsOk(lens: seq<nat>, firstcode: seq<nat>, maxcode: seq<nat>, firstsymbol: seq<nat>, n: nat)
    requires n <= 16
  {
    && |firstcode| == 16 && |maxcode| == 17 && |firstsymbol| == 16
    && forall l :: 1 <= l < n ==> LevelEntry(lens, firstcode[l], maxcode[l], firstsymbol[l], l)
  }

  /** The next free code of every length once n symbols are placed. */
  ghost predicate NextOk(lens: seq<nat>, next: seq<nat>, n: nat)
    requires n <= |lens|
  {
    |next| == 16 && forall l :: 1 <= l < 16 ==> next[l] == FirstCode(lens, l) + Count(lens[..n], l)
  }

  /** The first code of every length below n. */
  ghost predicate NextStart(lens: seq<nat>, next: seq<nat>, n: nat)
    requires n <= 16
  {
    |next| == 16 && forall l :: 1 <= l < n ==> next[l] == FirstCode(lens, l)
  }

  ghost predicate FastOk(lens: seq<nat>, fast: seq<nat>, n: nat)
    requires n <= |lens|
  {
    |fast| == FAST_SIZE && forall v :: 0 <= v < FAST_SIZE ==> FastEntry(lens, n, v, fast[v])
  }

  ghost predicate SlotsOk(lens: seq<nat>, size: seq<nat>, value: seq<nat>, n: nat)
    requires n <= |lens|
  {
    && |size| == |value| == NSYMS
    && forall i :: 0 <= i < n && lens[i] > 0 ==>
         Slot(lens, i) < NSYMS && size[Slot(lens, i)] == lens[i] && value[Slot(lens, i)] == i
  }

  /** The tables hold the canonical code of these lengths. */
  ghost predicate Represents(z: Table, lens: seq<nat>) {
    && Lengths(lens)
    && FastOk(lens, z.fast, |lens|)
    && LevelsOk(lens, z.firstcode, z.maxcode, z.firstsymbol, 16)
    && z.maxcode[16] == 0x10000
    && SlotsOk(lens, z.size, z.value, |lens|)
  }

  lemma SlotBound(lens: seq<nat>, i: nat)
    requires i < |lens| && lens[i] > 0
    ensures Slot(lens, i) < |lens|
  {
    ShorterBound(lens, lens[i], |lens|);
    assert lens[..|lens|] == lens;
    CountBelow(lens, i);
  }

  lemma SlotInjective(lens: seq<nat>, i: nat, j: nat)
    requires i < |lens| && j < |lens| && lens[i] > 0 && lens[j] > 0
    requires Slot(lens, i) == Slot(lens, j)
    ensures i == j
  {
    var a, b := lens[i], lens[j];
    CountBelow(lens, i);
    CountBelow(lens, j);
    if a < b {
      ShorterMono(lens, a, b);
    } else if b < a {
      ShorterMono(lens, b, a);
    } else if i < j {
      CountMono(lens, i, j, a);
    } else if j < i {
      CountMono(lens, j, i, a);
    }
  }

  /** An overfull level means a Kraft sum above one. */
  lemma Overfull(lens: seq<nat>, l: nat)
    requires Lengths(lens) && l <= 15 && EndCode(lens, l) > Pow2(l)
    ensures Kraft(lens) > Pow2(15)
  {
    EndCodeFits(lens, l);
    LevelMono(lens, l, 15);
    KraftIsLevel(lens);
  }

  /** The casts to 16 bits lose nothing. */
  lemma ShortCasts(lens: seq<nat>, l: nat)
    requires Lengths(lens) && 0 < l <= 15 && EndCode(lens, l - 1) <= Pow2(l - 1)
    ensures FirstCode(lens, l) <= Pow2(l) && FirstCode(lens, l) < 0x10000 && Shorter(lens, l) < 0x10000
  {
    Pow2Mono(l, 15);
    Pow2Values();
    ShorterBound(lens, l, |lens|);
    assert lens[..|lens|] == lens;
  }

  lemma LevelsGrow(lens: seq<nat>, f: seq<nat>, m: seq<nat>, y: seq<nat>, n: nat, f1: nat, m1: nat, y1: nat)
    requires n < 16 && LevelsOk(lens, f, m, y, n) && LevelEntry(lens, f1, m1, y1, n)
    ensures LevelsOk(lens, f[n := f1], m[n := m1], y[n := y1], n + 1)
  {
  }

  lemma NewLevel(lens: seq<nat>, l: nat)
    requires 0 < l <= 15 && EndCode(lens, l) <= Pow2(l)
    requires FirstCode(lens, l) < 0x10000 && Shorter(lens, l) < 0x10000
    ensures LevelEntry(lens, FirstCode(lens, l) % 0x10000, ShiftLeft(FirstCode(lens, l) + Count(lens, l), 16 - l),
                       Shorter(lens, l) % 0x10000, l)
  {
    hide FirstCode, Count, Shorter, ShiftLeft, Pow2;
  }

  lemma NextLevel(lens: seq<nat>, l: nat)
    requires l > 0
    ensures FirstCode(lens, l + 1) == 2 * (FirstCode(lens, l) + Count(lens, l))
    ensures Shorter(lens, l + 1) == Shorter(lens, l) + Count(lens, l)
  {
  }

  lemma NoLevels(lens: seq<nat>)
    ensures FirstCode(lens, 0) == 0 && FirstCode(lens, 1) == 0 && Shorter(lens, 1) == 0
    ensures LevelsOk(lens, seq(16, _ => 0), seq(17, _ => 0), seq(16, _ => 0), 1)
  {
  }

  lemma AllFit(lens: seq<nat>)
    requires Lengths(lens) && EndCode(lens, 15) <= Pow2(15)
    ensures Kraft(lens) <= Pow2(15)
  {
    EndCodeFits(lens, 15);
    KraftIsLevel(lens);
  }

  lemma LevelsTop(lens: seq<nat>, f: seq<nat>, m: seq<nat>, y: seq<nat>)
    requires LevelsOk(lens, f, m, y, 16)
    ensures LevelsOk(lens, f, m[16 := 0x10000], y, 16)
  {
    forall l | 1 <= l < 16 ensures LevelEntry(lens, f[l], m[16 := 0x10000][l], y[l], l) {
    }
  }

  lemma SlotsGrow(lens: seq<nat>, size: seq<nat>, value: seq<nat>, i: nat)
    requires i < |lens| <= NSYMS && lens[i] > 0 && SlotsOk(lens, size, value, i)
    ensures Slot(lens, i) < NSYMS
    ensures SlotsOk(lens, size[Slot(lens, i) := lens[i]], value[Slot(lens, i) := i], i + 1)
  {
    SlotBound(lens, i);
    forall j | 0 <= j < i && lens[j] > 0 ensures Slot(lens, j) != Slot(lens, i) {
      if Slot(lens, j) == Slot(lens, i) { SlotInjective(lens, i, j); }
    }
  }

  lemma LevelEntryOf(lens: seq<nat>, firstcode: seq<nat>, maxcode: seq<nat>, firstsymbol: seq<nat>, l: nat)
    requires LevelsOk(lens, firstcode, maxcode, firstsymbol, 16) && 1 <= l <= 15
    ensures LevelEntry(lens, firstcode[l], maxcode[l], firstsymbol[l], l)
  {
  }

  lemma NextAt(lens: seq<nat>, next: seq<nat>, n: nat, l: nat)
    requires n <= |lens| && NextOk(lens, next, n) && 1 <= l < 16
    ensures next[l] == FirstCode(lens, l) + Count(lens[..n], l)
  {
  }

  lemma NextGrows(lens: seq<nat>, next: seq<nat>, n: nat)
    requires Lengths(lens) && n < |lens| && NextOk(lens, next, n)
    ensures lens[n] == 0 ==> NextOk(lens, next, n + 1)
    ensures lens[n] > 0 ==> NextOk(lens, next[lens[n] := next[lens[n]] + 1], n + 1)
  {
    assert lens[..n + 1][..n] == lens[..n];
  }

  lemma FastEntryGrows(lens: seq<nat>, n: nat, v: nat, old_: nat, new_: nat)
    requires n < |lens| && FastEntry(lens, n, v, old_)
    requires new_ == if Hit(lens, n, v) then lens[n] * 512 + n else old_
    ensures FastEntry(lens, n + 1, v, new_)
  {
  }

  lemma FastGrows(lens: seq<nat>, fast0: seq<nat>, fast1: seq<nat>, n: nat)
    requires n < |lens| && FastOk(lens, fast0, n) && |fast1| == FAST_SIZE
    requires forall v :: 0 <= v < FAST_SIZE ==> fast1[v] == if Hit(lens, n, v) then lens[n] * 512 + n else fast0[v]
    ensures FastOk(lens, fast1, n + 1)
  {
    forall v | 0 <= v < FAST_SIZE ensures FastEntry(lens, n + 1, v, fast1[v]) {
      FastEntryGrows(lens, n, v, fast0[v], fast1[v]);
    }
  }

  lemma StartOk(lens: seq<nat>, next: seq<nat>, fast: seq<nat>)
    requires NextStart(lens, next, 16)
    requires |fast| == FAST_SIZE && forall v :: 0 <= v < FAST_SIZE ==> fast[v] == 0
    ensures NextOk(lens, next, 0) && FastOk(lens, fast, 0)
  {
  }

  // ----- stbi__zbuild_huffman -----------------------------------------------------------------------

  method CountSizes(sizelist: seq<nat>) returns (sizes: array<nat>)
    requires Lengths(sizelist)
    ensures fresh(sizes) && sizes.Length == 17
    ensures sizes[0] == 0 && forall l :: 1 <= l < 17 ==> sizes[l] == Count(sizelist, l)
  {
    sizes := new nat[17](_ => 0);
    for i := 0 to |sizelist|
      invariant forall l :: 0 <= l < 17 ==> sizes[l] == Count(sizelist[..i], l)
    {
      assert sizelist[..i + 1][..i] == sizelist[..i];
      sizes[sizelist[i]] := sizes[sizelist[i]] + 1;
    }
    assert sizelist[..|sizelist|] == sizelist;
    sizes[0] := 0;
  }

  method CheckSizes(ghost lens: seq<nat>, sizes: array<nat>) returns (ok: bool)
    requires Lengths(lens) && sizes.Length == 17
    requires forall l :: 1 <= l < 17 ==> sizes[l] == Count(lens, l)
    ensures !ok ==> Kraft(lens) > Pow2(15)
  {
    for i := 1 to 16 {
      if sizes[i] > Pow2(i) {
        Overfull(lens, i);
        return false;
      }
    }
    return true;
  }

  method BuildLevels(ghost lens: seq<nat>, sizes: array<nat>)
    returns (ok: bool, nextCode: array<nat>, firstcode: seq<nat>, maxcode: seq<nat>, firstsymbol: seq<nat>)
    requires Lengths(lens) && sizes.Length == 17
    requires forall l :: 1 <= l < 17 ==> sizes[l] == Count(lens, l)
    ensures fresh(nextCode)
    ensures !ok ==> Kraft(lens) > Pow2(15)
    ensures ok ==> Kraft(lens) <= Pow2(15)
    ensures ok ==> LevelsOk(lens, firstcode, maxcode, firstsymbol, 16) && maxcode[16] == 0x10000
    ensures ok ==> NextStart(lens, nextCode[..], 16)
  {
    hide FirstCode, Shorter, Count, Kraft, LevelEntry, ShiftLeft;
    NoLevels(lens);
    nextCode := new nat[16];
    ok := false;
    firstcode, maxcode, firstsymbol := seq(16, _ => 0), seq(17, _ => 0), seq(16, _ => 0);
    var sane := CheckSizes(lens, sizes);
    if !sane {
      return;
    }
    var code: nat, k: nat := 0, 0;
    for i := 1 to 16
      invariant code == FirstCode(lens, i) && k == Shorter(lens, i)
      invariant EndCode(lens, i - 1) <= Pow2(i - 1)
      invariant LevelsOk(lens, firstcode, maxcode, firstsymbol, i)
      invariant NextStart(lens, nextCode[..], i)
    {
      ShortCasts(lens, i);
      NextLevel(lens, i);
      ghost var next, f, m, y := nextCode[..], firstcode, maxcode, firstsymbol;
      nextCode[i] := code;
      assert nextCode[..] == next[i := code];
      firstcode := firstcode[i := code % 0x10000];
      firstsymbol := firstsymbol[i := k % 0x10000];
      code := code + sizes[i];
      if sizes[i] != 0 {
        if code - 1 >= Pow2(i) {
          Overfull(lens, i);
          return;
        }
      }
      maxcode := maxcode[i := ShiftLeft(code, 16 - i)];
      NewLevel(lens, i);
      LevelsGrow(lens, f, m, y, i, firstcode[i], maxcode[i], firstsymbol[i]);
      code := code * 2;
      k := k + sizes[i];
    }
    AllFit(lens);
    LevelsTop(lens, firstcode, maxcode, firstsymbol);
    maxcode := maxcode[16 := 0x10000];
    ok := true;
  }

  /** Store the entry at every index whose low s bits are the reversed code. */
  method FillFast(fast: array<nat>, code: nat, s: nat, fastv: nat)
    requires fast.Length == FAST_SIZE && 0 < s <= FAST_BITS && code < Pow2(s)
    modifies fast
    ensures forall v :: 0 <= v < FAST_SIZE ==>
              fast[v] == if Low(v, s) == Reverse(code, s) then fastv else old(fast[v])
  {
    var j := BitReverse(code, s);
    ghost var r := j;
    forall v: nat | v <= r ensures Low(v, s) == v {
      LowOfSmall(v, s);
    }
    while j < FAST_SIZE
      invariant Low(j, s) == r
      invariant forall v :: 0 <= v < FAST_SIZE && v < j ==>
                  fast[v] == if Low(v, s) == r then fastv else old(fast[v])
      invariant forall v :: j <= v < FAST_SIZE ==> fast[v] == old(fast[v])
    {
      fast[j] := fastv;
      forall v | j < v < j + Pow2(s) ensures Low(v, s) != r {
        if Low(v, s) == r { LowApart(j, v, s); }
      }
      LowPlusStep(j, s);
      j := j + Pow2(s);
    }
  }

  /** Enter symbol i, of length s, into the slow-path arrays and the fast table. */
  method PlaceSymbol(sizelist: seq<nat>, i: nat, ghost z: Table, firstcode: seq<nat>, firstsymbol: seq<nat>,
                     fast: array<nat>, nextCode: array<nat>, size: array<nat>, value: array<nat>)
    requires Lengths(sizelist) && i < |sizelist| && sizelist[i] > 0
    requires LevelsOk(sizelist, firstcode, z.maxcode, firstsymbol, 16)
    requires fast.Length == FAST_SIZE
    requires fast != nextCode && fast != size && fast != value && nextCode != size && nextCode != value && size != value
    requires NextOk(sizelist, nextCode[..], i) && SlotsOk(sizelist, size[..], value[..], i)
    requires FastOk(sizelist, fast[..], i)
    modifies fast, nextCode, size, value
    ensures NextOk(sizelist, nextCode[..], i + 1)
    ensures SlotsOk(sizelist, size[..], value[..], i + 1)
    ensures FastOk(sizelist, fast[..], i + 1)
  {
    var s: nat := sizelist[i];
    LevelEntryOf(sizelist, firstcode, z.maxcode, firstsymbol, s);
    CountBelow(sizelist, i);
    ghost var next0, fast0, size0, value0 := nextCode[..], fast[..], size[..], value[..];
    NextAt(sizelist, next0, i, s);
    var c := nextCode[s] - firstcode[s] + firstsymbol[s];
    SlotsGrow(sizelist, size0, value0, i);
    NextGrows(sizelist, next0, i);
    var fastv := s * 512 + i;
    size[c] := s;
    value[c] := i;
    assert size[..] == size0[Slot(sizelist, i) := s] && value[..] == value0[Slot(sizelist, i) := i];
    if s <= FAST_BITS {
      FillFast(fast, nextCode[s], s, fastv);
    }
    FastGrows(sizelist, fast0, fast[..], i);
    nextCode[s] := nextCode[s] + 1;
    assert nextCode[..] == next0[s := next0[s] + 1];
  }

  method PlaceSymbols(sizelist: seq<nat>, ghost z: Table, firstcode: seq<nat>, firstsymbol: seq<nat>,
                      fast: array<nat>, nextCode: array<nat>) returns (size: array<nat>, value: array<nat>)
    requires Lengths(sizelist) && LevelsOk(sizelist, firstcode, z.maxcode, firstsymbol, 16)
    requires fast.Length == FAST_SIZE && fast != nextCode
    requires NextOk(sizelist, nextCode[..], 0) && FastOk(sizelist, fast[..], 0)
    modifies fast, nextCode
    ensures SlotsOk(sizelist, size[..], value[..], |sizelist|)
    ensures FastOk(sizelist, fast[..], |sizelist|)
  {
    size := new nat[NSYMS];
    value := new nat[NSYMS];
    for i: nat := 0 to |sizelist|
      invariant NextOk(sizelist, nextCode[..], i)
      invariant SlotsOk(sizelist, size[..], value[..], i)
      invariant FastOk(sizelist, fast[..], i)
    {
      if sizelist[i] != 0 {
        PlaceSymbol(sizelist, i, z, firstcode, firstsymbol, fast, nextCode, size, value);
      } else {
        NextGrows(sizelist, nextCode[..], i);
        FastGrows(sizelist, fast[..], fast[..], i);
      }
    }
  }

  /** Accepts the lengths exactly when their Kraft sum is at most one, and then builds their code. */
  method ZbuildHuffman(sizelist: seq<nat>) returns (ok: bool, z: Table)
    requires Lengths(sizelist)
    ensures ok <==> Kraft(sizelist) <= Pow2(15)
    ensures ok ==> Represents(z, sizelist)
  {
    var sizes := CountSizes(sizelist);
    var fast := new nat[FAST_SIZE](_ => 0);
    var nextCode, firstcode, maxcode, firstsymbol;
    ok, nextCode, firstcode, maxcode, firstsymbol := BuildLevels(sizelist, sizes);
    z := Table([], firstcode, maxcode, firstsymbol, [], []);
    if !ok {
      return;
    }
    StartOk(sizelist, nextCode[..], fast[..]);
    var size, value := PlaceSymbols(sizelist, z, firstcode, firstsymbol, fast, nextCode);
    z := Table(fast[..], firstcode, maxcode, firstsymbol, size[..], value[..]);
  }

  // ----- what a lookup means ------------------------------------------------------------------------

  /** A hit on the next nine bits is a match. */
  lemma HitMatches(lens: seq<nat>, input: seq<byte>, p: nat, i: nat)
    requires Lengths(lens) && i < |lens| && 0 < lens[i] <= FAST_BITS
    requires EndCode(lens, lens[i]) <= Pow2(lens[i])
    ensures Hit(lens, i, Peek(input, p, FAST_BITS)) <==> Matches(lens, input, p, i)
  {
    var s := lens[i];
    CountBelow(lens, i);
    PeekDrop(input, p, FAST_BITS, s);
    ReversePeek(input, p, s);
    ReverseTwice(CodeOf(lens, i), s);
    ReverseTwice(Peek(input, p, s), s);
  }

  lemma EntryFields(s: nat, i: nat)
    requires i < 512
    ensures (s * 512 + i) / 512 == s && (s * 512 + i) % 512 == i
  {
  }

  lemma LevelFits(z: Table, lens: seq<nat>, l: nat)
    requires Represents(z, lens) && 1 <= l <= 15
    ensures EndCode(lens, l) <= Pow2(l)
    ensures z.firstcode[l] == FirstCode(lens, l)
    ensures z.firstsymbol[l] == Shorter(lens, l)
    ensures z.maxcode[l] == Limit(lens, l)
  {
    assert LevelEntry(lens, z.firstcode[l], z.maxcode[l], z.firstsymbol[l], l);
  }

  lemma SlotFilled(z: Table, lens: seq<nat>, i: nat)
    requires Represents(z, lens) && i < |lens| && lens[i] > 0
    ensures Slot(lens, i) < NSYMS && z.size[Slot(lens, i)] == lens[i] && z.value[Slot(lens, i)] == i
  {
  }

  /** A nonzero fast entry names the coded symbol and its length. */
  lemma FastHit(z: Table, lens: seq<nat>, input: seq<byte>, p: nat)
    requires Represents(z, lens)
    ensures var b := z.fast[Peek(input, p, FAST_BITS)];
            && (b != 0 ==> b % 512 < |lens| && Symbol(lens, input, p) == b % 512 && lens[b % 512] == b / 512)
            && (b == 0 ==> forall i: nat :: i < |lens| && Matches(lens, input, p, i) ==> lens[i] > FAST_BITS)
  {
    hide Peek, Code, Low, Reverse, CodeOf, LevelsOk, SlotsOk;
    assert Pow2(FAST_BITS) == 512 by { Pow2Values(); }
    var v := Peek(input, p, FAST_BITS);
    var b := z.fast[v];
    assert FastEntry(lens, |lens|, v, b);
    if b != 0 {
      var i: nat :| i < |lens| && Hit(lens, i, v) && b == lens[i] * 512 + i;
      EntryFields(lens[i], i);
      LevelFits(z, lens, lens[i]);
      HitMatches(lens, input, p, i);
      SymbolIs(lens, input, p, i);
    } else {
      forall i: nat | i < |lens| && Matches(lens, input, p, i) ensures lens[i] > FAST_BITS {
        if lens[i] <= FAST_BITS {
          LevelFits(z, lens, lens[i]);
          HitMatches(lens, input, p, i);
        }
      }
    }
  }

  /** Without a short match the next bits lie above every short code. */
  lemma {:induction false} AboveShort(lens: seq<nat>, input: seq<byte>, p: nat, l: nat)
    requires l <= 15
    requires forall i: nat :: i < |lens| && Matches(lens, input, p, i) ==> lens[i] > l
    ensures Limit(lens, l) <= Code(input, p, 16)
  {
    if l > 0 {
      AboveShort(lens, input, p, l - 1);
      MatchLevel(lens, input, p, l);
    } else {
      ShiftLeftZero(16);
    }
  }

  /** The slow path's index for a matching symbol is that symbol's slot. */
  lemma SlotOfMatch(z: Table, lens: seq<nat>, input: seq<byte>, p: nat, i: nat)
    requires Represents(z, lens) && i < |lens| && Matches(lens, input, p, i)
    ensures var b := Code(input, p, lens[i]) - z.firstcode[lens[i]] + z.firstsymbol[lens[i]];
            0 <= b < NSYMS && z.size[b] == lens[i] && z.value[b] == i
  {
    LevelFits(z, lens, lens[i]);
    SlotFilled(z, lens, i);
  }

  /** In level s of the code space a symbol of length s matches, on the top s of the 16 bits. */
  lemma MatchInLevel(lens: seq<nat>, input: seq<byte>, p: nat, s: nat) returns (i: nat)
    requires Lengths(lens) && 0 < s <= 15
    requires Limit(lens, s - 1) <= Code(input, p, 16) < Limit(lens, s)
    ensures i < |lens| && lens[i] == s && Matches(lens, input, p, i) && Symbol(lens, input, p) == i
    ensures ShiftRight(Code(input, p, 16), 16 - s) == Code(input, p, s)
  {
    MatchLevel(lens, input, p, s);
    CodePrefix(input, p, s, 16);
    i :| i < |lens| && lens[i] == s && Matches(lens, input, p, i);
    SymbolIs(lens, input, p, i);
  }

  /** Above the last level nothing is coded. */
  lemma NoMatch(lens: seq<nat>, input: seq<byte>, p: nat)
    requires Lengths(lens) && Limit(lens, 15) <= Code(input, p, 16)
    ensures Symbol(lens, input, p) == -1
  {
    forall i: nat | i < |lens| && Matches(lens, input, p, i) ensures false {
      MatchLevel(lens, input, p, lens[i]);
      LimitMono(lens, lens[i], 15);
    }
  }
}
