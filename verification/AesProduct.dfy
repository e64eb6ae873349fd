/** The product of AES bytes is the polynomial product modulo x^8 + x^4 + x^3 + x + 1. */
module AesProduct {
  import opened AesField
  import opened BytePolynomial

  lemma SameTimesX(r: bv8)
    ensures Mul2(r) == TimesXReduced(r)
  {
  }

  lemma SameSum(v: bv8, t: bv8)
    ensures Xor(v, t) == v ^ t
  {
  }

  /** The loop with n bits to go: what is added so far leaves v, and the next term leaves t. */
  lemma {:induction false} MulFromLeaves(v: bv8, t: bv8, m: bv8, n: nat, sum: bv16, p: bv16, s: bv8, k: bv8)
    returns (q: bv8)
    requires n <= 8 && Leaves(sum, s, v) && Leaves(p, k, t) && Below(k, 8 - n)
    ensures Leaves(Add(sum, Terms(p, m, n)), q, MulFrom(v, t, m, n))
    decreases n
  {
    hide Leaves, Below, Add, Xor, Mul2, TimesX, TimesXReduced;
    if n == 0 {
      q := s;
      AddZero(sum);
    } else {
      SameTimesX(t);
      BelowStep(k, t, 8 - n);
      TimesXLeaves(p, k, t);
      var k1 := (k << 1) | (t >> 7);
      var rest := Terms(TimesX(p), m >> 1, n - 1);
      if m & 1 == 1 {
        AddLeaves(sum, s, v, p, k, t);
        SameSum(v, t);
        q := MulFromLeaves(Xor(v, t), Mul2(t), m >> 1, n - 1, Add(sum, p), TimesX(p), s ^ k, k1);
        AddAssoc(sum, p, rest);
      } else {
        q := MulFromLeaves(v, Mul2(t), m >> 1, n - 1, sum, TimesX(p), s, k1);
        AddZero(rest);
      }
    }
  }

  /** The product of section 4.2 of FIPS 197 is what the polynomial product leaves. */
  lemma MulIsProductModulo(b: bv8, m: bv8) returns (q: bv8)
    ensures Leaves(Product(b, m), q, Mul(b, m))
  {
    hide Leaves, MulFrom, Terms, Add;
    LeavesNothing();
    LeavesItself(b);
    q := MulFromLeaves(0, b, m, 8, 0, b as bv16, 0, 0);
    AddZero(Terms(b as bv16, m, 8));
  }
}
