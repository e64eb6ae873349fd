/** Blocks as polynomials over GF(2): the block product is the polynomial product modulo
    x^128 + x^7 + x^2 + x + 1. */
module GcmPolynomial {
  import opened Words
  import opened GcmField

  /** Coefficients, that of x^0 first; trailing zeros do not count. */
  type Poly = seq<bool>

  function Coef(p: Poly, j: nat): bool {
    j < |p| && p[j]
  }

  ghost predicate Same(p: Poly, q: Poly) {
    forall j: nat :: Coef(p, j) == Coef(q, j)
  }

  function Add(p: Poly, q: Poly): (r: Poly)
    ensures forall j: nat :: Coef(r, j) == (Coef(p, j) != Coef(q, j))
  {
    seq(if |p| > |q| then |p| else |q|, j requires j >= 0 => Coef(p, j) != Coef(q, j))
  }

  function Shift(p: Poly): (r: Poly)
    ensures forall j: nat :: Coef(r, j) == (j > 0 && Coef(p, j - 1))
  {
    [false] + p
  }

  /** The schoolbook product. */
  function Times(p: Poly, q: Poly): Poly {
    if p == [] then [] else Add(if p[0] then q else [], Shift(Times(p[1..], q)))
  }

  /** x^128 + x^7 + x^2 + x + 1 */
  function Modulus(): (p: Poly)
    ensures |p| == 129
  {
    seq(129, j => j == 0 || j == 1 || j == 2 || j == 7 || j == 128)
  }

  /** The polynomial of a block. */
  function Coefs(w: Bits128): (p: Poly)
    ensures |p| == 128
  {
    seq(128, j requires 0 <= j < 128 => w[127 - j])
  }

  /** The value at x of a polynomial whose coefficients multiply v. */
  function Horner(p: Poly, v: Bits128): Bits128 {
    if p == [] then ZeroBits() else Xor(Select(p[0], v), TimesX(Horner(p[1..], v)))
  }

  /** The block a polynomial stands for. */
  function Reduce(p: Poly): Bits128 {
    Horner(p, Unit(0))
  }

  lemma {:induction false} HornerSnoc(p: Poly, c: bool, v: Bits128)
    ensures Horner(p + [c], v) == Xor(Horner(p, v), Select(c, Power(|p|, v)))
  {
    hide Xor, TimesX, Select;
    if p == [] {
      assert (p + [c])[1..] == [];
      TimesXZero();
      XorZero(Select(c, v));
    } else {
      assert (p + [c])[1..] == p[1..] + [c];
      HornerSnoc(p[1..], c, v);
      var t, s := Horner(p[1..], v), Select(c, Power(|p| - 1, v));
      TimesXAdds(t, s);
      TimesXSelect(c, Power(|p| - 1, v));
      XorAssoc(Select(p[0], v), TimesX(t), TimesX(s));
    }
  }

  lemma {:induction false} HornerIsProduct(x: Bits128, y: Bits128, n: nat)
    requires n <= 128
    ensures Horner(Coefs(x)[..n], y) == Product(x, y, n)
  {
    hide Xor, Select, Power, TimesX;
    var p := Coefs(x);
    if n > 0 {
      hide Horner;
      HornerIsProduct(x, y, n - 1);
      HornerSnoc(p[..n - 1], p[n - 1], y);
      assert p[..n] == p[..n - 1] + [p[n - 1]];
    }
  }

  lemma MulIsHorner(x: Bits128, y: Bits128)
    ensures Mul(x, y) == Horner(Coefs(x), y)
  {
    hide Product, Horner;
    HornerIsProduct(x, y, 128);
    assert Coefs(x)[..128] == Coefs(x);
  }

  /** A block is the value of its own polynomial. */
  lemma ReduceCoefs(w: Bits128)
    ensures Reduce(Coefs(w)) == w
  {
    hide Product, Horner, Unit, Coefs;
    MulIsHorner(w, Unit(0));
    MulUnit(w);
  }

  lemma {:induction false} HornerZeros(p: Poly, v: Bits128)
    requires forall j: nat :: !Coef(p, j)
    ensures Horner(p, v) == ZeroBits()
  {
    hide Xor, TimesX;
    if p != [] {
      assert !Coef(p, 0);
      forall j: nat ensures !Coef(p[1..], j) {
        assert Coef(p[1..], j) == Coef(p, j + 1);
      }
      HornerZeros(p[1..], v);
      TimesXZero();
      XorZero(ZeroBits());
    }
  }

  lemma {:induction false} HornerAdds(p: Poly, q: Poly, r: Poly, v: Bits128)
    requires forall j: nat :: Coef(r, j) == (Coef(p, j) != Coef(q, j))
    ensures Horner(r, v) == Xor(Horner(p, v), Horner(q, v))
    decreases |p| + |q| + |r|
  {
    hide Xor, TimesX, Select;
    if p == [] && q == [] {
      HornerZeros(r, v);
      XorZero(ZeroBits());
    } else if p == [] && r == [] {
      HornerZeros(q, v);
      XorZero(ZeroBits());
    } else if q == [] && r == [] {
      HornerZeros(p, v);
      XorZero(ZeroBits());
    } else {
      var p1, q1, r1 := Tail(p), Tail(q), Tail(r);
      forall j: nat ensures Coef(r1, j) == (Coef(p1, j) != Coef(q1, j)) {
        assert Coef(r, j + 1) == (Coef(p, j + 1) != Coef(q, j + 1));
      }
      HornerAdds(p1, q1, r1, v);
      HornerStep(p, v);
      HornerStep(q, v);
      HornerStep(r, v);
      assert Coef(r, 0) == (Coef(p, 0) != Coef(q, 0));
      SelectXor(Coef(p, 0), Coef(q, 0), v);
      TimesXAdds(Horner(p1, v), Horner(q1, v));
      XorShuffle(Select(Coef(p, 0), v), Select(Coef(q, 0), v), TimesX(Horner(p1, v)), TimesX(Horner(q1, v)));
    }
  }

  function Tail(p: Poly): (r: Poly)
    ensures forall j: nat :: Coef(r, j) == Coef(p, j + 1)
    ensures |r| <= |p| && (p != [] ==> |r| < |p|)
  {
    if p == [] then [] else p[1..]
  }

  lemma HornerStep(p: Poly, v: Bits128)
    ensures Horner(p, v) == Xor(Select(Coef(p, 0), v), TimesX(Horner(Tail(p), v)))
  {
    hide Xor, TimesX;
    TimesXZero();
    XorZero(ZeroBits());
  }

  lemma SameReduces(p: Poly, q: Poly)
    requires Same(p, q)
    ensures Reduce(p) == Reduce(q)
  {
    hide Horner, Xor, Unit;
    HornerAdds(q, [], p, Unit(0));
    HornerZeros([], Unit(0));
    XorZero(Reduce(q));
  }

  /** Reducing a product multiplies the reduced factor. */
  lemma {:induction false} ReduceTimes(p: Poly, q: Poly)
    ensures Reduce(Times(p, q)) == Horner(p, Reduce(q))
  {
    hide Xor, TimesX, Unit, Select;
    if p != [] {
      var a, b := if p[0] then q else [], Shift(Times(p[1..], q));
      ReduceTimes(p[1..], q);
      HornerAdds(a, b, Add(a, b), Unit(0));
      HornerShift(Times(p[1..], q), Unit(0));
      SelectIs(p[0], Reduce(q));
    }
  }

  lemma SelectIs(c: bool, v: Bits128)
    ensures Select(c, v) == if c then v else ZeroBits()
  {
  }

  lemma HornerShift(p: Poly, v: Bits128)
    ensures Horner(Shift(p), v) == TimesX(Horner(p, v))
  {
    hide Xor, TimesX;
    assert Shift(p)[1..] == p;
    XorZero(TimesX(Horner(p, v)));
  }

  // ----- the remainder modulo the polynomial ----------------------------------------------------------------

  lemma CoefOfTimesX(v: Bits128, j: nat)
    ensures Coef(Coefs(TimesX(v)), j) ==
            ((j > 0 && j < 128 && Coef(Coefs(v), j - 1)) != (v[0] && j < 128 && Coef(Modulus(), j)))
  {
    if j < 128 {
      assert Coefs(TimesX(v))[j] == TimesX(v)[127 - j];
    }
  }

  /** Every polynomial is a multiple of the modulus plus the block it reduces to. */
  lemma {:induction false} Divide(p: Poly) returns (q: Poly)
    ensures Same(p, Add(Times(q, Modulus()), Coefs(Reduce(p))))
  {
    hide Xor, TimesX, Unit, Select, Modulus;
    if p == [] {
      q := [];
      forall j: nat ensures Coef(p, j) == Coef(Add(Times(q, Modulus()), Coefs(Reduce(p))), j) {
        ZeroCoefs(j);
      }
    } else {
      var q1 := Divide(p[1..]);
      var r := Reduce(p[1..]);
      q := [r[0]] + q1;
      assert q[1..] == q1;
      forall j: nat ensures Coef(p, j) == Coef(Add(Times(q, Modulus()), Coefs(Reduce(p))), j) {
        DivideAt(p, q1, j);
      }
    }
  }

  lemma ZeroCoefs(j: nat)
    ensures !Coef(Coefs(ZeroBits()), j)
  {
  }

  lemma ReducedCoef(p: Poly, j: nat)
    requires p != []
    ensures Coef(Coefs(Reduce(p)), j) == ((j == 0 && p[0]) != Coef(Coefs(TimesX(Reduce(p[1..]))), j))
  {
    hide TimesX, Horner;
    HornerStep(p, Unit(0));
    var t := TimesX(Reduce(p[1..]));
    assert Tail(p) == p[1..];
    if j < 128 {
      assert Coefs(Reduce(p))[j] == Reduce(p)[127 - j];
      assert Coefs(t)[j] == t[127 - j];
    }
  }

  lemma DivideAt(p: Poly, q1: Poly, j: nat)
    requires p != []
    requires Same(p[1..], Add(Times(q1, Modulus()), Coefs(Reduce(p[1..]))))
    ensures var q := [Reduce(p[1..])[0]] + q1;
            Coef(p, j) == Coef(Add(Times(q, Modulus()), Coefs(Reduce(p))), j)
  {
    hide TimesX, Horner, Xor, Unit;
    var r := Reduce(p[1..]);
    var q := [r[0]] + q1;
    assert q[1..] == q1;
    ReducedCoef(p, j);
    CoefOfTimesX(r, j);
    if j > 0 {
      assert Coef(p[1..], j - 1) == Coef(p, j);
      assert Coef(p[1..], j - 1) == (Coef(Times(q1, Modulus()), j - 1) != Coef(Coefs(r), j - 1));
      if j == 128 {
        assert Coefs(r)[127] == r[0];
      }
    }
    TimesCoef(q, Modulus(), j);
  }

  lemma TimesCoef(p: Poly, q: Poly, j: nat)
    requires p != []
    ensures Coef(Times(p, q), j) == ((p[0] && Coef(q, j)) != (j > 0 && Coef(Times(p[1..], q), j - 1)))
  {
  }

  /** The block product is the remainder of the polynomial product. */
  lemma MulIsProductModulo(x: Bits128, y: Bits128) returns (q: Poly)
    ensures Same(Times(Coefs(x), Coefs(y)), Add(Times(q, Modulus()), Coefs(Mul(x, y))))
  {
    hide Product, Horner, Unit, Same, Modulus, Coefs, Add, Times;
    q := Divide(Times(Coefs(x), Coefs(y)));
    ReduceTimes(Coefs(x), Coefs(y));
    ReduceCoefs(y);
    MulIsHorner(x, y);
  }

  lemma ModulusVanishes()
    ensures Reduce(Modulus()) == ZeroBits()
  {
    // the modulus is the reduction of x times x^127 plus the reduced terms
    hide Horner, Unit;
    var top := Coefs(Unit(127));
    ReduceCoefs(Unit(127));
    HornerShift(top, Unit(0));
    var low := Coefs(R());
    ReduceCoefs(R());
    forall j: nat ensures Coef(Modulus(), j) == (Coef(Shift(top), j) != Coef(low, j)) {
      ModulusCoef(j);
    }
    HornerAdds(Shift(top), low, Modulus(), Unit(0));
    LastUnit();
    XorZero(R());
  }

  lemma LastUnit()
    ensures TimesX(Unit(127)) == R()
  {
    var s := TimesX(Unit(127));
    forall i | 0 <= i < 128 ensures s[i] == R()[i] {
    }
  }

  lemma ModulusCoef(j: nat)
    ensures Coef(Modulus(), j) == (Coef(Shift(Coefs(Unit(127))), j) != Coef(Coefs(R()), j))
  {
    if 0 < j <= 128 {
      assert Coefs(Unit(127))[j - 1] == Unit(127)[127 - (j - 1)];
    }
    if j < 128 {
      assert Coefs(R())[j] == R()[127 - j];
    }
  }

  /** Only one block is a remainder: congruent polynomials reduce to the same block. */
  lemma RemainderIsUnique(p: Poly, q: Poly, w: Bits128)
    requires Same(p, Add(Times(q, Modulus()), Coefs(w)))
    ensures Reduce(p) == w
  {
    hide Horner, Unit, Modulus, Coefs, Times;
    var m := Times(q, Modulus());
    SameReduces(p, Add(m, Coefs(w)));
    HornerAdds(m, Coefs(w), Add(m, Coefs(w)), Unit(0));
    ReduceTimes(q, Modulus());
    ModulusVanishes();
    HornerOfZero(q);
    ReduceCoefs(w);
    XorZero(w);
  }

  lemma {:induction false} HornerOfZero(p: Poly)
    ensures Horner(p, ZeroBits()) == ZeroBits()
  {
    hide Xor, TimesX;
    if p != [] {
      HornerOfZero(p[1..]);
      TimesXZero();
      XorZero(ZeroBits());
    }
  }
}
