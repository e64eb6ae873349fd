/** Bytes as eight bits, and as numbers. */
module Octets {
  function BitAt(b: bv8, k: nat): bool {
    if k == 0 then b & 0x01 != 0
    else if k == 1 then b & 0x02 != 0
    else if k == 2 then b & 0x04 != 0
    else if k == 3 then b & 0x08 != 0
    else if k == 4 then b & 0x10 != 0
    else if k == 5 then b & 0x20 != 0
    else if k == 6 then b & 0x40 != 0
    else b & 0x80 != 0
  }

  function BitValue(c: bool, v: bv8): bv8 {
    if c then v else 0
  }

  function Assemble(c0: bool, c1: bool, c2: bool, c3: bool, c4: bool, c5: bool, c6: bool, c7: bool): bv8 {
    BitValue(c0, 0x01) | BitValue(c1, 0x02) | BitValue(c2, 0x04) | BitValue(c3, 0x08) |
    BitValue(c4, 0x10) | BitValue(c5, 0x20) | BitValue(c6, 0x40) | BitValue(c7, 0x80)
  }

  lemma AssembledBits(c0: bool, c1: bool, c2: bool, c3: bool, c4: bool, c5: bool, c6: bool, c7: bool, b: bv8)
    requires b == Assemble(c0, c1, c2, c3, c4, c5, c6, c7)
    ensures BitAt(b, 0) == c0 && BitAt(b, 1) == c1 && BitAt(b, 2) == c2 && BitAt(b, 3) == c3
    ensures BitAt(b, 4) == c4 && BitAt(b, 5) == c5 && BitAt(b, 6) == c6 && BitAt(b, 7) == c7
  {
  }

  // ----- numbers ----------------------------------------------------------------------------------------------------

  /** The number with this lowest bit and this rest. */
  function Push(c: bool, rest: nat): nat {
    (if c then 1 else 0) + 2 * rest
  }

  lemma HalvesPush(v: nat)
    ensures Push(v % 2 == 1, v / 2) == v
  {
  }

  function Value(b: bv8): (v: nat)
    ensures v < 256
  {
    Push(BitAt(b, 0), Push(BitAt(b, 1), Push(BitAt(b, 2), Push(BitAt(b, 3),
      Push(BitAt(b, 4), Push(BitAt(b, 5), Push(BitAt(b, 6), Push(BitAt(b, 7), 0))))))))
  }

  function ByteFrom(v: nat): bv8
    requires v < 256
  {
    var v1 := v / 2;
    var v2 := v1 / 2;
    var v3 := v2 / 2;
    var v4 := v3 / 2;
    var v5 := v4 / 2;
    var v6 := v5 / 2;
    var v7 := v6 / 2;
    Assemble(v % 2 == 1, v1 % 2 == 1, v2 % 2 == 1, v3 % 2 == 1, v4 % 2 == 1, v5 % 2 == 1, v6 % 2 == 1, v7 % 2 == 1)
  }

  lemma ValueRoundTrip(v: nat)
    requires v < 256
    ensures Value(ByteFrom(v)) == v
  {
    hide Push, BitAt, Assemble;
    var v1 := v / 2;
    var v2 := v1 / 2;
    var v3 := v2 / 2;
    var v4 := v3 / 2;
    var v5 := v4 / 2;
    var v6 := v5 / 2;
    var v7 := v6 / 2;
    AssembledBits(v % 2 == 1, v1 % 2 == 1, v2 % 2 == 1, v3 % 2 == 1, v4 % 2 == 1, v5 % 2 == 1, v6 % 2 == 1, v7 % 2 == 1,
                  ByteFrom(v));
    assert v7 / 2 == 0;
    HalvesPush(v);
    HalvesPush(v1);
    HalvesPush(v2);
    HalvesPush(v3);
    HalvesPush(v4);
    HalvesPush(v5);
    HalvesPush(v6);
    HalvesPush(v7);
  }

  /** 256 to the power n. */
  function Pow256(n: nat): (p: nat)
    ensures p >= 1
  {
    if n == 0 then 1 else 256 * Pow256(n - 1)
  }
}
