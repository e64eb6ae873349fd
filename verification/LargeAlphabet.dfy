/** A zlib stream with one dynamic block of 288 literal/length codes: complete for the decoder, malformed by RFC
    1951. */
module LargeAlphabet {
  import opened Bits
  import opened Huffman
  import opened Deflate
  import StandardDeflate

  /** Header; final, dynamic, 288 + 1 codes; code lengths of 18 symbols, those of 1 and 18 being 1; 138 and 118 zeros, a
      one, 32 zeros; end of block. */
  const Input: seq<byte> := [0x78, 0x01, 0xfd, 0xc0, 0x81, 0x00, 0x00, 0x00, 0x00, 0x00, 0x90, 0xff, 0x6b, 0x2b, 0x00]

  // ----- its bits ----------------------------------------------------------------------------------------------------

  lemma Byte2()
    ensures Bit(Input, 16) == 1 && Bit(Input, 17) == 0 && Bit(Input, 18) == 1 && Bit(Input, 19) == 1
    ensures Bit(Input, 20) == 1 && Bit(Input, 21) == 1 && Bit(Input, 22) == 1 && Bit(Input, 23) == 1
  {
  }

  lemma Byte3()
    ensures Bit(Input, 24) == 0 && Bit(Input, 25) == 0 && Bit(Input, 26) == 0 && Bit(Input, 27) == 0
    ensures Bit(Input, 28) == 0 && Bit(Input, 29) == 0 && Bit(Input, 30) == 1 && Bit(Input, 31) == 1
  {
  }

  lemma Byte4()
    ensures Bit(Input, 32) == 1 && Bit(Input, 33) == 0 && Bit(Input, 34) == 0 && Bit(Input, 35) == 0
    ensures Bit(Input, 36) == 0 && Bit(Input, 37) == 0 && Bit(Input, 38) == 0 && Bit(Input, 39) == 1
  {
  }

  lemma Byte10()
    ensures Bit(Input, 80) == 0 && Bit(Input, 81) == 0 && Bit(Input, 82) == 0 && Bit(Input, 83) == 0
    ensures Bit(Input, 84) == 1 && Bit(Input, 85) == 0 && Bit(Input, 86) == 0 && Bit(Input, 87) == 1
  {
  }

  lemma Byte11()
    ensures Bit(Input, 88) == 1 && Bit(Input, 89) == 1 && Bit(Input, 90) == 1 && Bit(Input, 91) == 1
    ensures Bit(Input, 92) == 1 && Bit(Input, 93) == 1 && Bit(Input, 94) == 1 && Bit(Input, 95) == 1
  {
  }

  lemma Byte12()
    ensures Bit(Input, 96) == 1 && Bit(Input, 97) == 1 && Bit(Input, 98) == 0 && Bit(Input, 99) == 1
    ensures Bit(Input, 100) == 0 && Bit(Input, 101) == 1 && Bit(Input, 102) == 1 && Bit(Input, 103) == 0
  {
  }

  lemma Byte13()
    ensures Bit(Input, 104) == 1 && Bit(Input, 105) == 1 && Bit(Input, 106) == 0 && Bit(Input, 107) == 1
    ensures Bit(Input, 108) == 0 && Bit(Input, 109) == 1 && Bit(Input, 110) == 0 && Bit(Input, 111) == 0
  {
  }

  lemma Byte14()
    ensures Bit(Input, 112) == 0 && Bit(Input, 113) == 0 && Bit(Input, 114) == 0 && Bit(Input, 115) == 0
    ensures Bit(Input, 116) == 0 && Bit(Input, 117) == 0 && Bit(Input, 118) == 0 && Bit(Input, 119) == 0
  {
  }

  lemma Fields()
    ensures Peek(Input, 16, 1) == 1 && Peek(Input, 17, 2) == 2
    ensures Peek(Input, 19, 5) == 31 && Peek(Input, 24, 5) == 0 && Peek(Input, 29, 4) == 14
  {
    hide Bit;
    Byte2();
    Byte3();
    Byte4();
  }

  lemma ZeroBytes(i: nat)
    requires 40 <= i < 80
    ensures Bit(Input, i) == 0
  {
    assert Input[i / 8] == 0 by {
      assert i / 8 == 5 || i / 8 == 6 || i / 8 == 7 || i / 8 == 8 || i / 8 == 9;
    }
    ShiftRightSmall(0, i % 8);
  }

  /** The eighteen code lengths of the code length alphabet, bit by bit. */
  lemma LengthBit(i: nat)
    requires 33 <= i < 87
    ensures Bit(Input, i) == if i == 39 || i == 84 then 1 else 0
  {
    hide Bit;
    Byte4();
    Byte10();
    if 40 <= i < 80 {
      ZeroBytes(i);
    }
  }

  lemma LengthField(k: nat)
    requires k < 18
    ensures Peek(Input, 33 + 3 * k, 3) == if k == 2 || k == 17 then 1 else 0
  {
    hide Bit;
    var p := 33 + 3 * k;
    LengthBit(p);
    LengthBit(p + 1);
    LengthBit(p + 2);
    assert Peek(Input, p + 3, 0) == 0;
    assert Peek(Input, p + 2, 1) == Bit(Input, p + 2);
    assert Peek(Input, p + 1, 2) == Bit(Input, p + 1) + 2 * Peek(Input, p + 2, 1);
  }

  lemma Runs()
    ensures Bit(Input, 87) == 1 && Peek(Input, 88, 7) == 127 && Bit(Input, 95) == 1 && Peek(Input, 96, 7) == 107
    ensures Bit(Input, 103) == 0 && Bit(Input, 104) == 1 && Peek(Input, 105, 7) == 21 && Bit(Input, 112) == 0
  {
    hide Bit;
    Byte10();
    Byte11();
    Byte12();
    Byte13();
    Byte14();
  }

  // ----- its codes ---------------------------------------------------------------------------------------------------

  /** The code length code after n of its lengths. */
  function ClSoFar(n: nat): seq<nat> {
    seq(19, i => if (i == 18 && n > 2) || (i == 1 && n > 17) then 1 else 0)
  }

  lemma OrderOf(k: nat)
    requires k < 18
    ensures (Order[k] == 18 <==> k == 2) && (Order[k] == 1 <==> k == 17) && Order[k] < 19
  {
    assert k == 0 || k == 1 || k == 2 || k == 3 || k == 4 || k == 5 || k == 6 || k == 7 || k == 8 || k == 9 || k == 10
        || k == 11 || k == 12 || k == 13 || k == 14 || k == 15 || k == 16 || k == 17;
  }

  lemma {:induction false} ClIs(n: nat)
    requires n <= 18
    ensures ClLengths(Input, 33, n) == ClSoFar(n)
  {
    hide Peek;
    if n > 0 {
      ClIs(n - 1);
      LengthField(n - 1);
      OrderOf(n - 1);
    }
  }

  lemma {:induction false} CountZeros(n: nat, l: nat)
    requires l > 0
    ensures Count(Repeat(0, n), l) == 0
  {
    if n > 0 {
      CountZeros(n - 1, l);
      assert Repeat(0, n)[..n - 1] == Repeat(0, n - 1);
    }
  }

  lemma CountSnoc(lens: seq<nat>, x: nat, l: nat)
    ensures Count(lens + [x], l) == Count(lens, l) + if x == l then 1 else 0
  {
    assert (lens + [x])[..|lens|] == lens;
  }

  lemma {:induction false} CountAppendZeros(lens: seq<nat>, n: nat, l: nat)
    requires l > 0
    ensures Count(lens + Repeat(0, n), l) == Count(lens, l)
  {
    if n == 0 {
      assert lens + Repeat(0, n) == lens;
    } else {
      CountAppendZeros(lens, n - 1, l);
      assert lens + Repeat(0, n) == (lens + Repeat(0, n - 1)) + [0];
      CountSnoc(lens + Repeat(0, n - 1), 0, l);
    }
  }

  lemma {:induction false} KraftAppendZeros(lens: seq<nat>, n: nat)
    requires forall i :: 0 <= i < |lens| ==> lens[i] <= 15
    ensures Kraft(lens + Repeat(0, n)) == Kraft(lens)
  {
    if n == 0 {
      assert lens + Repeat(0, n) == lens;
    } else {
      KraftAppendZeros(lens, n - 1);
      assert lens + Repeat(0, n) == (lens + Repeat(0, n - 1)) + [0];
      KraftSnoc(lens + Repeat(0, n - 1), 0);
    }
  }

  lemma KraftSnoc(lens: seq<nat>, x: nat)
    requires x <= 15 && forall i :: 0 <= i < |lens| ==> lens[i] <= 15
    ensures Kraft(lens + [x]) == Kraft(lens) + if x > 0 then Pow2(15 - x) else 0
  {
    assert (lens + [x])[..|lens|] == lens;
  }

  /** Lengths zero, but one at symbol a. */
  function OneAt(a: nat, n: nat): seq<nat>
    requires a < n
  {
    Repeat(0, a) + [1] + Repeat(0, n - a - 1)
  }

  /** A code of one symbol: the bit 0. */
  lemma OneCode(input: seq<byte>, p: nat, a: nat, n: nat)
    requires a < n <= 288 && Bit(input, p) == 0
    ensures Kraft(OneAt(a, n)) == Pow2(14) && Symbol(OneAt(a, n), input, p) == a
  {
    hide Bit, Kraft, Count;
    var lens := OneAt(a, n);
    KraftZeros(a);
    KraftSnoc(Repeat(0, a), 1);
    KraftAppendZeros(Repeat(0, a) + [1], n - a - 1);
    CountZeros(a, 1);
    assert lens[..a] == Repeat(0, a);
    assert Code(input, p, 1) == 2 * Code(input, p, 0) + Bit(input, p);
    assert Matches(lens, input, p, a);
    SymbolIs(lens, input, p, a);
  }

  lemma KraftZeros(n: nat)
    ensures Kraft(Repeat(0, n)) == 0
  {
    KraftAppendZeros([], n);
    assert [] + Repeat(0, n) == Repeat(0, n);
    assert Kraft([]) == 0;
  }

  /** The code of symbols 1 and 18: one bit each. */
  lemma ClCode(p: nat)
    ensures var cl := ClSoFar(18);
            Kraft(cl) == Pow2(15) && Symbol(cl, Input, p) == if Bit(Input, p) == 0 then 1 else 18
  {
    hide Bit, Kraft, Count;
    var cl := ClSoFar(18);
    assert cl == Repeat(0, 1) + [1] + Repeat(0, 16) + [1];
    KraftZeros(1);
    KraftSnoc(Repeat(0, 1), 1);
    KraftAppendZeros(Repeat(0, 1) + [1], 16);
    KraftSnoc(Repeat(0, 1) + [1] + Repeat(0, 16), 1);
    CountZeros(1, 1);
    CountSnoc(Repeat(0, 1), 1, 1);
    CountAppendZeros(Repeat(0, 1) + [1], 16, 1);
    assert cl[..1] == Repeat(0, 1) && cl[..18] == Repeat(0, 1) + [1] + Repeat(0, 16);
    assert Code(Input, p, 1) == 2 * Code(Input, p, 0) + Bit(Input, p);
    var s := if Bit(Input, p) == 0 then 1 else 18;
    assert Matches(cl, Input, p, s);
    SymbolIs(cl, Input, p, s);
  }

  /** The four runs: 256 zeros, a one, 32 zeros. */
  lemma LengthsAre()
    ensures CodeLengths(Input, 87, ClSoFar(18), [], 289) == Coded(OneAt(256, 289), 112)
  {
    hide Bit, Symbol, CodeLengths, Peek;
    var cl := ClSoFar(18);
    Runs();
    ClCode(87);
    ClCode(95);
    ClCode(103);
    ClCode(104);
    OneRun(87, cl, [], Run(0, 138, 95));
    OneRun(95, cl, [] + Repeat(0, 138), Run(0, 118, 103));
    OneRun(103, cl, [] + Repeat(0, 138) + Repeat(0, 118), Run(1, 1, 104));
    OneRun(104, cl, [] + Repeat(0, 138) + Repeat(0, 118) + Repeat(1, 1), Run(0, 32, 112));
    var all := [] + Repeat(0, 138) + Repeat(0, 118) + Repeat(1, 1) + Repeat(0, 32);
    assert all == OneAt(256, 289);
    NoRunLeft(112, cl, all);
  }

  lemma OneRun(p: nat, cl: seq<nat>, acc: seq<nat>, run: Run)
    requires |cl| == 19 && |acc| < 289 && (forall i :: 0 <= i < |acc| ==> acc[i] <= 15)
    requires run.Run? && NextRun(Input, p, cl, acc) == run && run.n <= 289 - |acc| && run.x <= 15
    ensures CodeLengths(Input, p, cl, acc, 289) == CodeLengths(Input, run.q, cl, acc + Repeat(run.x, run.n), 289)
  {
    hide NextRun;
  }

  lemma NoRunLeft(p: nat, cl: seq<nat>, acc: seq<nat>)
    requires |cl| == 19 && |acc| == 289 && (forall i :: 0 <= i < |acc| ==> acc[i] <= 15)
    ensures CodeLengths(Input, p, cl, acc, 289) == Coded(acc, p)
  {
  }

  lemma CodesFrom(p: nat, cl: seq<nat>, lens: seq<nat>, q: nat)
    requires Peek(Input, p, 5) == 31 && Peek(Input, p + 5, 5) == 0 && Peek(Input, p + 10, 4) == 14
    requires ClLengths(Input, p + 14, 18) == cl && Kraft(cl) <= Pow2(15)
    requires CodeLengths(Input, p + 14 + 3 * 18, cl, [], 289) == Coded(lens, q)
    requires Kraft(lens[..288]) <= Pow2(15) && Kraft(lens[288..]) <= Pow2(15)
    ensures DynamicCodes(Input, p) == Codes(lens[..288], lens[288..], q)
  {
    hide Peek, CodeLengths, ClLengths, Kraft, Pow2;
  }

  /** 288 literal/length codes, of which only the end of the block is used, and one unused distance code. */
  lemma CodesAre()
    ensures DynamicCodes(Input, 19) == Codes(OneAt(256, 288), [0], 112)
  {
    hide Bit, Peek, CodeLengths, ClLengths, Kraft, ClSoFar, Pow2;
    Fields();
    ClIs(18);
    ClCode(0);
    LengthsAre();
    OneKraft();
    CodesFrom(19, ClSoFar(18), OneAt(256, 289), 112);
  }

  lemma OneKraft()
    ensures var lens := OneAt(256, 289);
            && lens[..288] == OneAt(256, 288) && lens[288..] == [0]
            && Kraft(OneAt(256, 288)) <= Pow2(15) && Kraft([0]) <= Pow2(15)
  {
    hide Bit, Kraft, Symbol;
    Runs();
    OneCode(Input, 112, 256, 288);
    KraftZeros(1);
    assert Repeat(0, 1) == [0];
    Pow2Values();
  }

  /** The decoder completes the stream, with no output. */
  lemma DecoderCompletes()
    ensures Stream(Input, true) == Done([], 113)
  {
    hide Bit, Peek, Symbol, DynamicCodes, Kraft;
    Fields();
    CodesAre();
    Runs();
    OneCode(Input, 112, 256, 288);
    assert NextToken(Input, 112, OneAt(256, 288), [0]) == (EndOfBlock, 113);
    assert Data(Input, 112, [], OneAt(256, 288), [0]) == Done([], 113);
  }

  /** RFC 1951 rejects it: the one block announces too many codes. */
  lemma StandardRejects()
    ensures Stream(Input, true).Done? && StandardDeflate.Oversized(Input, 16, [])
    ensures StandardDeflate.Stream(Input, true) == Bad
  {
    hide Peek, Block, Blocks, StandardDeflate.Blocks;
    DecoderCompletes();
    Fields();
    StandardDeflate.BlocksDiffer(Input, 16, []);
  }
}
