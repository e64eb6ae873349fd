/** Multiplication of 128-bit blocks in GF(2^128), as GCM defines it (NIST SP 800-38D, section 6.3). */
module GcmField {
  import opened Words

  /** Bit 127 is the leftmost bit of the block: the coefficient of x^0. */
  type Bits128 = w: Word | |w| == 128 witness Zero(128)

  /** 11100001 followed by zeros. */
  function R(): Bits128 {
    seq(128, i => i == 127 || i == 126 || i == 125 || i == 120)
  }

  /** The block with the single coefficient of x^j. */
  function Unit(j: nat): Bits128 {
    seq(128, i => i + j == 127)
  }

  function ZeroBits(): Bits128 {
    Zero(128)
  }

  /** Multiplication by x: a shift to the right, reduced by R when x^127 leaves. */
  function TimesX(v: Bits128): Bits128 {
    if v[0] then Xor(Shr(v, 1), R()) else Shr(v, 1)
  }

  function Power(n: nat, v: Bits128): Bits128 {
    if n == 0 then v else TimesX(Power(n - 1, v))
  }

  function Select(c: bool, v: Bits128): Bits128 {
    if c then v else ZeroBits()
  }

  /** The sum of x^j times y over the coefficients j < n of x. */
  function Product(x: Bits128, y: Bits128, n: nat): Bits128
    requires n <= 128
  {
    if n == 0 then ZeroBits() else Xor(Product(x, y, n - 1), Select(x[128 - n], Power(n - 1, y)))
  }

  function Mul(x: Bits128, y: Bits128): Bits128 {
    Product(x, y, 128)
  }

  /** Algorithm 1: shift and xor, one bit of x at a time from the left. */
  method MulBits(x: Bits128, y: Bits128) returns (z: Bits128)
    ensures z == Mul(x, y)
  {
    hide Xor, TimesX, ZeroBits;
    z := ZeroBits();
    var v := y;
    var i := 127;
    while i >= 0
      invariant -1 <= i <= 127
      invariant z == Product(x, y, 127 - i) && v == Power(127 - i, y)
    {
      XorZero(z);
      if x[i] {
        z := Xor(z, v);
      }
      v := NextV(v);
      i := i - 1;
    }
  }

  method NextV(v: Bits128) returns (r: Bits128)
    ensures r == TimesX(v)
  {
    if !v[0] {
      r := Shr(v, 1);
    } else {
      r := Xor(Shr(v, 1), R());
    }
  }

  // ----- sums of words --------------------------------------------------------------------------------------

  lemma XorZero(a: Bits128)
    ensures Xor(a, ZeroBits()) == a && Xor(ZeroBits(), a) == a && Xor(a, a) == ZeroBits()
  {
  }

  lemma XorComm(a: Bits128, b: Bits128)
    ensures Xor(a, b) == Xor(b, a)
  {
  }

  lemma XorAssoc(a: Bits128, b: Bits128, c: Bits128)
    ensures Xor(Xor(a, b), c) == Xor(a, Xor(b, c))
  {
  }

  lemma XorShuffle(a: Bits128, b: Bits128, c: Bits128, d: Bits128)
    ensures Xor(Xor(a, b), Xor(c, d)) == Xor(Xor(a, c), Xor(b, d))
  {
    hide Xor;
    XorAssoc(Xor(a, b), c, d);
    XorAssoc(a, b, c);
    XorComm(b, c);
    XorAssoc(a, c, b);
    XorAssoc(Xor(a, c), b, d);
  }

  lemma TimesXAdds(a: Bits128, b: Bits128)
    ensures TimesX(Xor(a, b)) == Xor(TimesX(a), TimesX(b))
  {
    var s, t := TimesX(Xor(a, b)), Xor(TimesX(a), TimesX(b));
    forall i | 0 <= i < 128 ensures s[i] == t[i] {
    }
  }

  lemma TimesXZero()
    ensures TimesX(ZeroBits()) == ZeroBits()
  {
  }

  lemma TimesXSelect(c: bool, v: Bits128)
    ensures TimesX(Select(c, v)) == Select(c, TimesX(v))
  {
    hide TimesX;
    TimesXZero();
  }

  lemma SelectXor(b: bool, c: bool, v: Bits128)
    ensures Select(b != c, v) == Xor(Select(b, v), Select(c, v))
  {
    hide Xor;
    XorZero(v);
    XorZero(ZeroBits());
  }

  lemma SelectAdds(c: bool, v: Bits128, w: Bits128)
    ensures Select(c, Xor(v, w)) == Xor(Select(c, v), Select(c, w))
  {
    hide Xor;
    XorZero(ZeroBits());
  }

  lemma {:induction false} PowerAdds(n: nat, a: Bits128, b: Bits128)
    ensures Power(n, Xor(a, b)) == Xor(Power(n, a), Power(n, b))
  {
    hide Xor, TimesX;
    if n > 0 {
      PowerAdds(n - 1, a, b);
      TimesXAdds(Power(n - 1, a), Power(n - 1, b));
    }
  }

  lemma {:induction false} PowerTimesX(n: nat, v: Bits128)
    ensures Power(n, TimesX(v)) == TimesX(Power(n, v))
  {
    hide TimesX;
    if n > 0 {
      PowerTimesX(n - 1, v);
    }
  }

  // ----- the product is bilinear ------------------------------------------------------------------------------

  lemma {:induction false} ProductAddsRight(x: Bits128, a: Bits128, b: Bits128, n: nat)
    requires n <= 128
    ensures Product(x, Xor(a, b), n) == Xor(Product(x, a, n), Product(x, b, n))
  {
    hide Xor, Power, Select;
    if n == 0 {
      XorZero(ZeroBits());
    } else {
      ProductAddsRight(x, a, b, n - 1);
      PowerAdds(n - 1, a, b);
      SelectAdds(x[128 - n], Power(n - 1, a), Power(n - 1, b));
      XorShuffle(Product(x, a, n - 1), Product(x, b, n - 1),
                 Select(x[128 - n], Power(n - 1, a)), Select(x[128 - n], Power(n - 1, b)));
    }
  }

  lemma {:induction false} ProductAddsLeft(a: Bits128, b: Bits128, y: Bits128, n: nat)
    requires n <= 128
    ensures Product(Xor(a, b), y, n) == Xor(Product(a, y, n), Product(b, y, n))
  {
    hide Power, Select, Xor;
    if n == 0 {
      XorZero(ZeroBits());
    } else {
      ProductAddsLeft(a, b, y, n - 1);
      XorAt(a, b, 128 - n);
      SelectXor(a[128 - n], b[128 - n], Power(n - 1, y));
      XorShuffle(Product(a, y, n - 1), Product(b, y, n - 1),
                 Select(a[128 - n], Power(n - 1, y)), Select(b[128 - n], Power(n - 1, y)));
    }
  }

  lemma XorAt(a: Bits128, b: Bits128, i: nat)
    requires i < 128
    ensures Xor(a, b)[i] == (a[i] != b[i])
  {
  }

  lemma {:induction false} ProductTimesX(x: Bits128, y: Bits128, n: nat)
    requires n <= 128
    ensures Product(x, TimesX(y), n) == TimesX(Product(x, y, n))
  {
    hide Xor, TimesX, Power, Select;
    if n == 0 {
      TimesXZero();
    } else {
      ProductTimesX(x, y, n - 1);
      PowerTimesX(n - 1, y);
      TimesXSelect(x[128 - n], Power(n - 1, y));
      TimesXAdds(Product(x, y, n - 1), Select(x[128 - n], Power(n - 1, y)));
    }
  }

  lemma {:induction false} ProductPower(x: Bits128, y: Bits128, k: nat)
    ensures Mul(x, Power(k, y)) == Power(k, Mul(x, y))
  {
    hide Product, TimesX;
    if k > 0 {
      ProductPower(x, y, k - 1);
      ProductTimesX(x, Power(k - 1, y), 128);
    }
  }

  lemma {:induction false} ProductZero(x: Bits128, n: nat)
    requires n <= 128
    ensures Product(x, ZeroBits(), n) == ZeroBits()
  {
    hide Xor, Power;
    if n > 0 {
      ProductZero(x, n - 1);
      PowerZero(n - 1);
      XorZero(ZeroBits());
    }
  }

  lemma {:induction false} PowerZero(n: nat)
    ensures Power(n, ZeroBits()) == ZeroBits()
  {
    hide TimesX;
    if n > 0 {
      PowerZero(n - 1);
      TimesXZero();
    }
  }

  lemma MulSelect(x: Bits128, c: bool, v: Bits128)
    ensures Mul(x, Select(c, v)) == Select(c, Mul(x, v))
  {
    hide Product;
    ProductZero(x, 128);
  }

  // ----- the unit -----------------------------------------------------------------------------------------------

  lemma {:induction false} PowerOfUnit(j: nat)
    requires j < 128
    ensures Power(j, Unit(0)) == Unit(j)
  {
    hide TimesX;
    if j > 0 {
      PowerOfUnit(j - 1);
      UnitTimesX(j - 1);
    }
  }

  lemma UnitTimesX(j: nat)
    requires j < 127
    ensures TimesX(Unit(j)) == Unit(j + 1)
  {
    var s, t := TimesX(Unit(j)), Unit(j + 1);
    forall i | 0 <= i < 128 ensures s[i] == t[i] {
    }
  }

  /** The top n bits of x. */
  function Top(x: Bits128, n: nat): Bits128 {
    seq(128, i requires 0 <= i < 128 => x[i] && i + n >= 128)
  }

  lemma {:induction false} ProductOfUnit(x: Bits128, n: nat)
    requires n <= 128
    ensures Product(x, Unit(0), n) == Top(x, n)
  {
    hide Power, Xor, Unit, Top;
    if n == 0 {
      TopNone(x);
    } else {
      ProductOfUnit(x, n - 1);
      PowerOfUnit(n - 1);
      TopStep(x, n);
    }
  }

  lemma TopNone(x: Bits128)
    ensures Top(x, 0) == ZeroBits() && Top(x, 128) == x
  {
  }

  lemma TopStep(x: Bits128, n: nat)
    requires 0 < n <= 128
    ensures Xor(Top(x, n - 1), Select(x[128 - n], Unit(n - 1))) == Top(x, n)
  {
    var s, t := Xor(Top(x, n - 1), Select(x[128 - n], Unit(n - 1))), Top(x, n);
    forall i | 0 <= i < 128 ensures s[i] == t[i] {
    }
  }

  lemma MulUnit(x: Bits128)
    ensures Mul(x, Unit(0)) == x
  {
    hide Product, Unit, Top;
    ProductOfUnit(x, 128);
    TopNone(x);
  }

  // ----- a commutative ring --------------------------------------------------------------------------------------

  /** Multiplying a product by z multiplies its right factor: both are sums of powers of x. */
  lemma {:induction false} MulProduct(z: Bits128, x: Bits128, y: Bits128, n: nat)
    requires n <= 128
    ensures Mul(z, Product(x, y, n)) == Product(x, Mul(z, y), n)
  {
    hide Xor, Power, Select, Mul;
    if n == 0 {
      MulZero(z);
    } else {
      MulProduct(z, x, y, n - 1);
      MulAddsRight(z, Product(x, y, n - 1), Select(x[128 - n], Power(n - 1, y)));
      MulSelect(z, x[128 - n], Power(n - 1, y));
      ProductPower(z, y, n - 1);
    }
  }

  lemma MulZero(x: Bits128)
    ensures Mul(x, ZeroBits()) == ZeroBits()
  {
    ProductZero(x, 128);
  }

  lemma MulAddsRight(x: Bits128, a: Bits128, b: Bits128)
    ensures Mul(x, Xor(a, b)) == Xor(Mul(x, a), Mul(x, b))
  {
    hide Product, Xor;
    ProductAddsRight(x, a, b, 128);
  }

  lemma MulAddsLeft(a: Bits128, b: Bits128, y: Bits128)
    ensures Mul(Xor(a, b), y) == Xor(Mul(a, y), Mul(b, y))
  {
    hide Product, Xor;
    ProductAddsLeft(a, b, y, 128);
  }

  lemma MulCommutes(x: Bits128, y: Bits128)
    ensures Mul(x, y) == Mul(y, x)
  {
    hide Product, Unit;
    MulProduct(y, x, Unit(0), 128);
    MulUnit(x);
    MulUnit(y);
  }

  lemma MulAssociates(x: Bits128, y: Bits128, z: Bits128)
    ensures Mul(Mul(x, y), z) == Mul(x, Mul(y, z))
  {
    hide Product;
    MulCommutes(Mul(x, y), z);
    MulProduct(z, x, y, 128);
    MulCommutes(z, y);
  }
}
