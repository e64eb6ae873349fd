/** Polynomials over GF(2) of degree below 16, bit i standing for x^i, and what they leave modulo
    x^8 + x^4 + x^3 + x + 1. */
module BytePolynomial {
  function Add(p: bv16, q: bv16): bv16 {
    p ^ q
  }

  function TimesX(p: bv16): bv16 {
    p << 1
  }

  /** The sum of p, p x, p x^2 and so on for the low n bits of m. */
  function Terms(p: bv16, m: bv8, n: nat): bv16
    decreases n
  {
    if n == 0 then 0 else Add(if m & 1 == 1 then p else 0, Terms(TimesX(p), m >> 1, n - 1))
  }

  /** The product of two polynomials of degree below 8. */
  function Product(b: bv8, m: bv8): bv16 {
    Terms(b as bv16, m, 8)
  }

  /** q times x^8 + x^4 + x^3 + x + 1. */
  function Multiple(q: bv16): bv16 {
    var x3 := TimesX(TimesX(TimesX(q)));
    var x4 := TimesX(x3);
    Add(Add(Add(TimesX(TimesX(TimesX(TimesX(x4)))), x4), Add(x3, TimesX(q))), q)
  }

  /** p leaves r, with quotient q. */
  predicate Leaves(p: bv16, q: bv8, r: bv8) {
    p == Add(Multiple(q as bv16), r as bv16)
  }

  /** Multiplication by x, reduced. */
  function TimesXReduced(r: bv8): bv8 {
    if r & 0x80 != 0 then (r << 1) ^ 0x1b else r << 1
  }

  lemma AddAssoc(p: bv16, q: bv16, r: bv16)
    ensures Add(Add(p, q), r) == Add(p, Add(q, r))
  {
  }

  lemma AddCommutes(p: bv16, q: bv16)
    ensures Add(p, q) == Add(q, p)
  {
  }

  lemma AddZero(p: bv16)
    ensures Add(p, 0) == p && Add(0, p) == p && Add(p, p) == 0
  {
  }

  lemma AddSwaps(p: bv16, q: bv16, r: bv16, s: bv16)
    ensures Add(Add(p, q), Add(r, s)) == Add(Add(p, r), Add(q, s))
  {
    hide Add;
    AddAssoc(p, q, Add(r, s));
    AddAssoc(q, r, s);
    AddCommutes(q, r);
    AddAssoc(r, q, s);
    AddAssoc(p, r, Add(q, s));
  }

  lemma TimesXAdds(p: bv16, q: bv16)
    ensures TimesX(Add(p, q)) == Add(TimesX(p), TimesX(q))
  {
  }

  lemma MultipleAdds(p: bv16, q: bv16)
    ensures Multiple(Add(p, q)) == Add(Multiple(p), Multiple(q))
  {
    hide Add, TimesX;
    var p1, q1 := TimesX(p), TimesX(q);
    var p3, q3 := TimesX(TimesX(p1)), TimesX(TimesX(q1));
    var p4, q4 := TimesX(p3), TimesX(q3);
    var p8, q8 := TimesX(TimesX(TimesX(TimesX(p4)))), TimesX(TimesX(TimesX(TimesX(q4))));
    TimesXAdds(p, q);
    TimesXAdds(p1, q1);
    TimesXAdds(TimesX(p1), TimesX(q1));
    TimesXAdds(p3, q3);
    TimesXAdds(p4, q4);
    TimesXAdds(TimesX(p4), TimesX(q4));
    TimesXAdds(TimesX(TimesX(p4)), TimesX(TimesX(q4)));
    TimesXAdds(TimesX(TimesX(TimesX(p4))), TimesX(TimesX(TimesX(q4))));
    AddSwaps(p8, q8, p4, q4);
    AddSwaps(p3, q3, p1, q1);
    AddSwaps(Add(p8, p4), Add(q8, q4), Add(p3, p1), Add(q3, q1));
    AddSwaps(Add(Add(p8, p4), Add(p3, p1)), Add(Add(q8, q4), Add(q3, q1)), p, q);
  }

  lemma MultipleTimesX(q: bv16)
    ensures TimesX(Multiple(q)) == Multiple(TimesX(q))
  {
  }

  lemma WidenAdds(q: bv8, r: bv8)
    ensures (q ^ r) as bv16 == Add(q as bv16, r as bv16)
  {
  }

  lemma ReduceOnce(r: bv8)
    ensures TimesX(r as bv16) == Add(Multiple((r >> 7) as bv16), TimesXReduced(r) as bv16)
  {
  }

  lemma NextQuotient(q: bv8, r: bv8)
    requires q < 0x80
    ensures ((q << 1) | (r >> 7)) as bv16 == Add(TimesX(q as bv16), (r >> 7) as bv16)
  {
  }

  lemma LeavesNothing()
    ensures Leaves(0, 0, 0)
  {
  }

  lemma LeavesItself(b: bv8)
    ensures Leaves(b as bv16, 0, b)
  {
  }

  lemma AddLeaves(p: bv16, q: bv8, r: bv8, p1: bv16, q1: bv8, r1: bv8)
    requires Leaves(p, q, r) && Leaves(p1, q1, r1)
    ensures Leaves(Add(p, p1), q ^ q1, r ^ r1)
  {
    hide Add, Multiple;
    WidenAdds(q, q1);
    WidenAdds(r, r1);
    MultipleAdds(q as bv16, q1 as bv16);
    AddSwaps(Multiple(q as bv16), r as bv16, Multiple(q1 as bv16), r1 as bv16);
  }

  lemma TimesXLeaves(p: bv16, q: bv8, r: bv8)
    requires Leaves(p, q, r) && q < 0x80
    ensures Leaves(TimesX(p), (q << 1) | (r >> 7), TimesXReduced(r))
  {
    hide Add, Multiple, TimesX, TimesXReduced;
    var wide, carry := q as bv16, (r >> 7) as bv16;
    TimesXAdds(Multiple(wide), r as bv16);
    MultipleTimesX(wide);
    ReduceOnce(r);
    NextQuotient(q, r);
    MultipleAdds(TimesX(wide), carry);
    AddAssoc(Multiple(TimesX(wide)), Multiple(carry), TimesXReduced(r) as bv16);
  }

  lemma SmallMultiple(q: bv8, r: bv8)
    requires Multiple(q as bv16) == r as bv16
    ensures q == 0 && r == 0
  {
  }

  lemma ZeroIsEqual(q: bv8, r: bv8)
    requires q ^ r == 0
    ensures q == r
  {
  }

  /** A polynomial leaves only one remainder, with one quotient. */
  lemma RemainderIsUnique(p: bv16, q: bv8, r: bv8, q1: bv8, r1: bv8)
    requires Leaves(p, q, r) && Leaves(p, q1, r1)
    ensures r == r1 && q == q1
  {
    hide Add, Multiple;
    AddLeaves(p, q, r, p, q1, r1);
    AddZero(p);
    var m, s := Multiple((q ^ q1) as bv16), (r ^ r1) as bv16;
    assert Add(m, s) == 0;
    AddAssoc(m, s, s);
    AddZero(s);
    AddZero(m);
    SmallMultiple(q ^ q1, r ^ r1);
    ZeroIsEqual(q, q1);
    ZeroIsEqual(r, r1);
  }

  /** q has no bit from i on. */
  predicate Below(q: bv8, i: nat) {
    if i == 0 then q == 0
    else if i == 1 then q < 2
    else if i == 2 then q < 4
    else if i == 3 then q < 8
    else if i == 4 then q < 16
    else if i == 5 then q < 32
    else if i == 6 then q < 64
    else i == 7 ==> q < 128
  }

  lemma BelowStep(q: bv8, r: bv8, i: nat)
    requires i < 8 && Below(q, i)
    ensures q < 0x80 && Below((q << 1) | (r >> 7), i + 1)
  {
  }
}
