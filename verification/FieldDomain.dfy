/** E is a field (field.rs): the Frobenius map is the power 2^64, the inverse the power 2^192 - 2, and
    every element but zero is inverted. */
module FieldDomain {
  import opened Rings
  import opened Multilinear
  import opened Polynomials
  import opened Bits
  import opened FieldBase
  import opened FieldRing
  import opened FieldInverse
  import opened FieldBits
  import opened FieldUnits
  import opened Squares
  import opened GuestField

  // ---- powers of powers --------------------------------------------------------------------------

  lemma {:induction false} OfOf(a: Elem, m: nat, n: nat, p: nat)
    requires p == m * n
    ensures Of(Of(a, m), n) == Of(a, p)
    decreases n
  {
    hide Of, EMul;
    OfAdd(a, 0, 0);
    OfAdd(Of(a, m), 0, 0);
    if n > 0 {
      TimesNat(m, n - 1);
      Less(m, n, p);
      OfOf(a, m, n - 1, p - m);
      OfAdd(Of(a, m), 1, n - 1);
      OfAdd(a, m, p - m);
    } else {
      assert p == 0;
    }
  }

  lemma Less(m: nat, n: nat, p: nat)
    requires p == m * n && n > 0
    ensures p - m == m * (n - 1) && m * (n - 1) >= 0
  {
    TimesNat(m, n - 1);
  }

  /** Powers 2^n keep sums and products. */
  lemma Sums(a: Elem, b: Elem, n: nat, q: nat)
    requires q == Pow2(n)
    ensures Of(EAdd(a, b), q) == EAdd(Of(a, q), Of(b, q)) && Of(EMul(a, b), q) == EMul(Of(a, q), Of(b, q))
  {
    var R := EField();
    EFieldLaws();
    hide EMul, EAdd, Power, Ring.Frob;
    FrobOf(a, n, q);
    FrobOf(b, n, q);
    FrobOf(R.add(a, b), n, q);
    FrobOf(R.mul(a, b), n, q);
    R.FrobAdd(a, b, n);
    R.FrobMul(a, b, n);
  }

  lemma FrobOf(a: Elem, n: nat, q: nat)
    requires q == Pow2(n)
    ensures EField().Frob(a, n) == Of(a, q)
  {
    hide Ring.Frob, EMul;
    EFieldLaws();
    FirstPowers(a, 0);
    hide Power, Of;
    FrobPower(EField(), a, 1, n);
    assert 1 * q == q;
    OfIs(a, 1);
    OfIs(a, q);
  }

  lemma OfIs(a: Elem, n: nat)
    ensures Of(a, n) == Power(EField(), a, n)
  {
  }

  /** A power 8 that changes nothing, over and over. */
  lemma {:induction false} Eights(a: Elem, k: nat, q: nat)
    requires Of(a, 8) == a && q == Pow2(3 * k)
    ensures Of(a, q) == a
    decreases k
  {
    hide Of, EMul, Pow2;
    if k == 0 {
      PowZero();
      OfAdd(a, 0, 0);
    } else {
      EightTimes(3 * (k - 1));
      Eights(a, k - 1, Pow2(3 * (k - 1)));
      OfOf(a, Pow2(3 * (k - 1)), 8, q);
    }
  }

  lemma EightTimes(n: nat)
    ensures Pow2(n + 3) == Pow2(n) * 8
  {
    assert Pow2(n + 2) == 2 * Pow2(n + 1);
  }

  lemma Eighth(a: Elem)
    ensures Of(a, 2) == EMul(a, a) && Of(a, 4) == EMul(Of(a, 2), Of(a, 2)) && Of(a, 8) == EMul(Of(a, 4), Of(a, 4))
  {
    hide Of, EMul;
    OfAdd(a, 1, 1);
    OfAdd(a, 2, 2);
    OfAdd(a, 4, 4);
  }

  /** What the power 8 keeps, the power 2^64 squares. */
  lemma LastSquare(a: Elem, q: nat)
    requires Of(a, 8) == a && q == 0x1_0000_0000_0000_0000
    ensures Of(a, q) == EMul(a, a)
  {
    hide Of, EMul;
    LimbPower();
    OnePower();
    hide Pow2;
    Eights(a, 21, Pow2(63));
    OfAdd(a, Pow2(63), Pow2(63));
  }

  // ---- the Frobenius map ---------------------------------------------------------------------------

  const Y := Elem(0, 1, 0)

  lemma YPowers()
    ensures EMul(Y, Y) == Elem(0, 0, 1) && Of(Y, 8) == Y
  {
    hide EMul, KMul, KAdd, Of, Reduce;
    Eighth(Y);
    Units();
    ESquare(Y);
    ESquare(Elem(0, 0, 1));
    ESquare(Elem(0, 1, 1));
    assert Of(Y, 4) == Elem(0, 1, 1);
  }

  lemma Units()
    ensures KMul(0, 0) == 0 && KMul(1, 1) == 1 && KAdd(0, 1) == 1 && KAdd(1, 0) == 1 && KAdd(1, 1) == 0 && KAdd(0, 0) == 0
  {
    hide KMul;
    KOne(0);
    KOne(1);
    KComm(0, 1);
    KSum();
    EZero();
  }

  lemma KSum()
    ensures KAdd(0, 1) == 1 && KAdd(1, 0) == 1 && KAdd(1, 1) == 0 && KAdd(0, 0) == 0
  {
    KAddLaws(1, 0, 0);
    KAddLaws(0, 1, 0);
  }

  lemma EZero()
    ensures KMul(0, 0) == 0
  {
    hide KMul, EMul;
    TimesZero(In(0));
    KInE(0, 0);
  }

  lemma YTimes(c: Limb)
    ensures EMul(Y, In(c)) == Elem(0, c, 0) && EMul(EMul(Y, Y), In(c)) == Elem(0, 0, c)
    ensures EMul(EMul(EMul(Y, Y), EMul(Y, Y)), In(c)) == Elem(0, c, c)
  {
    hide EMul, KMul, KAdd, Of, Reduce;
    YPowers();
    Units();
    ESquare(Elem(0, 0, 1));
    ScaleByK(Y, c);
    ScaleByK(Elem(0, 0, 1), c);
    ScaleByK(Elem(0, 1, 1), c);
    ScaleUnit(c);
  }

  /** An element by its limbs, and its image under the Frobenius map. */
  lemma Parts(a: Elem)
    ensures a == EAdd(In(a.c0), EAdd(EMul(Y, In(a.c1)), EMul(EMul(Y, Y), In(a.c2))))
    ensures Phi(a) == EAdd(In(a.c0), EAdd(EMul(EMul(Y, Y), In(a.c1)), EMul(EMul(EMul(Y, Y), EMul(Y, Y)), In(a.c2))))
  {
    hide EMul, EAdd, KAdd;
    YTimes(a.c1);
    YTimes(a.c2);
    SumParts(a.c0, a.c1, 0, 0, a.c2);
    SumParts(a.c0, 0, a.c1, a.c2, a.c2);
    NoneAdded(a.c1);
    NoneAdded(a.c2);
  }

  lemma NoneAdded(c: Limb)
    ensures KAdd(c, 0) == c && KAdd(0, c) == c
  {
    hide KAdd;
    KAddLaws(c, 0, 0);
  }

  lemma SumParts(x: Limb, y: Limb, z: Limb, u: Limb, v: Limb)
    ensures EAdd(In(x), EAdd(Elem(0, y, z), Elem(0, u, v))) == Elem(x, KAdd(y, u), KAdd(z, v))
  {
    hide KAdd;
    NoneAdded(0);
    NoneAdded(x);
    NoneAdded(KAdd(y, u));
    NoneAdded(KAdd(z, v));
  }

  lemma ScaleUnit(c: Limb)
    ensures KMul(c, 1) == c && KMul(c, 0) == 0
  {
    hide KMul;
    KOne(c);
    KComm(c, 1);
    KComm(c, 0);
  }

  /** `E::frobenius` is the power 2^64. */
  lemma PhiIsPower(a: Elem, q: nat)
    requires q == 0x1_0000_0000_0000_0000
    ensures Phi(a) == Of(a, q)
  {
    hide EMul, EAdd, KMul, KAdd, Of, Pow2, Phi;
    LimbPower();
    YPowers();
    LastSquare(Y, q);
    Parts(a);
    var yy := EMul(Y, Y);
    var u, v, w := In(a.c0), EMul(Y, In(a.c1)), EMul(yy, In(a.c2));
    Sums(u, EAdd(v, w), 64, q);
    Sums(v, w, 64, q);
    Sums(Y, In(a.c1), 64, q);
    Sums(yy, In(a.c2), 64, q);
    Sums(Y, Y, 64, q);
    Frobenius(a.c0, q);
    Frobenius(a.c1, q);
    Frobenius(a.c2, q);
  }

  // ---- E has nothing else that is its own square ---------------------------------------------------

  /** y^3 + y + 1 has no root in K. */
  lemma NoRoot(z: Limb)
    requires z == KAdd(KMul(KMul(z, z), KMul(z, z)), KMul(z, z))
    ensures z == 0
  {
    if z != 0 {
      hide EMul, KMul, KAdd, Of;
      var s := KMul(z, z);
      var f := KMul(s, s);
      var e := KMul(f, f);
      SquareSum(f, s, z);
      KAddLaws(f, s, 0);
      KAddLaws(s, f, 0);
      KInE(z, z);
      KInE(s, s);
      KInE(f, f);
      Eighth(In(z));
      LastSquare(In(z), 0x1_0000_0000_0000_0000);
      Frobenius(z, 0x1_0000_0000_0000_0000);
      Idempotent(z);
      Units();
    }
  }

  /** (a + b)^2 = a^2 + b^2, here with a = z^4 and b = z^2 whose sum is z. */
  lemma SquareSum(f: Limb, s: Limb, z: Limb)
    requires z == KAdd(f, s) && s == KMul(z, z) && f == KMul(s, s)
    ensures KMul(f, f) == z
  {
    hide KMul, KAdd;
    KAddLaws(f, s, 0);
    KAddLaws(s, f, 0);
    KDist(z, f, s);
    KSquareAdd(f, s);
    var e := KMul(f, f);
    KAddLaws(e, f, s);
    KAddLaws(f, e, 0);
    KAddLaws(s, f, 0);
  }

  lemma KSquareAdd(a: Limb, b: Limb)
    ensures KMul(KAdd(a, b), KAdd(a, b)) == KAdd(KMul(a, a), KMul(b, b))
  {
    hide KMul, KAdd;
    var s := KAdd(a, b);
    KDist(s, a, b);
    KComm(s, a);
    KComm(s, b);
    KDist(a, a, b);
    KDist(b, a, b);
    KComm(a, b);
    var x, y, c := KMul(a, a), KMul(b, b), KMul(a, b);
    KAddLaws(x, c, KAdd(c, y));
    KAddLaws(c, y, 0);
  }

  /** Only 0 and 1 are their own squares in E. */
  lemma OnlyIdempotents(a: Elem)
    requires EMul(a, a) == a
    ensures a == In(0) || a == In(1)
  {
    hide EMul, KMul, KAdd, Reduce;
    ESquare(a);
    Idempotent(a.c0);
    NoRoot(a.c2);
    Units();
  }

  // ---- E is a field ----------------------------------------------------------------------------

  /** Every nonzero element of E has an inverse. */
  lemma EHasInverse(a: Elem) returns (b: Elem)
    requires a != In(0)
    ensures EMul(a, b) == In(1)
  {
    hide Of, EMul;
    var n := OwnSquare(a);
    OnlyIdempotents(Of(a, n));
    if Of(a, n) == In(0) {
      NoPowerZero(a, n);
    }
    b := Of(a, n - 1);
    OfAdd(a, 1, n - 1);
  }

  lemma ENoDivisors(a: Elem, b: Elem)
    requires EMul(a, b) == In(0)
    ensures a == In(0) || b == In(0)
  {
    if a != In(0) {
      hide EMul;
      var i := EHasInverse(a);
      EMulAssoc(i, a, b);
      EMulComm(i, a);
      EMulComm(In(1), b);
      EMulOne(b);
      TimesZero(i);
    }
  }

  /** field.rs's operations have no zero divisors: the hypothesis of every result that divides. */
  lemma EFieldDomain()
    ensures EField().Domain()
  {
    hide EMul, EAdd;
    var R := EField();
    forall a, b | R.mul(a, b) == R.zero
      ensures a == R.zero || b == R.zero
    {
      ENoDivisors(a, b);
    }
  }

  lemma PhiNonzero(a: Elem)
    ensures Phi(a) == In(0) <==> a == In(0)
  {
    hide KAdd;
    PhiThrice(a);
    Units();
  }

  lemma NormNonzero(a: Elem)
    ensures Norm(a).c0 == 0 <==> a == In(0)
  {
    hide EMul, Phi;
    var p, pp := Phi(a), Phi(Phi(a));
    PhiNonzero(a);
    PhiNonzero(p);
    NormInK(a);
    if Norm(a).c0 == 0 {
      ENoDivisors(a, EMul(p, pp));
      if a != In(0) {
        ENoDivisors(p, pp);
      }
    }
    if a == In(0) {
      TimesZero(EMul(p, pp));
    }
  }

  /** The exponents of the norm and of the inverse. */
  lemma Exponents(q: nat)
    requires q >= 2
    ensures q + q * q + (1 + (q + q * q)) * (q - 2) == q * q * q - 2 && q * q >= 0 && q * q * q >= 2
  {
    TimesNat(q, q);
    TimesNat(q * q, q);
    assert q * q >= 2 * q;
    assert q * q * q >= 2 * (q * q);
  }

  lemma NormIsPower(a: Elem, q: nat, qq: nat)
    requires q == 0x1_0000_0000_0000_0000 && qq == q * q
    ensures EMul(Phi(a), Phi(Phi(a))) == Of(a, q + qq) && Norm(a) == Of(a, 1 + (q + qq))
  {
    hide EMul, Phi, Of;
    PhiIsPower(a, q);
    PhiIsPower(Phi(a), q);
    OfOf(a, q, q, qq);
    OfAdd(a, q, qq);
    OfAdd(a, 1, q + qq);
  }

  /** `E::inv`: the power 2^192 - 2 (`out`), which inverts everything but zero, and keeps zero. */
  method Invert(a: Elem, ghost out: nat) returns (b: Elem)
    requires out == 0x1_0000_0000_0000_0000_0000_0000_0000_0000_0000_0000_0000_0000 - 2
    ensures b == Of(a, out)
    ensures a != In(0) ==> EMul(a, b) == In(1)
    ensures a == In(0) ==> b == In(0)
  {
    hide EMul, KMul, Phi, Of, Power;
    EFieldLaws();
    var m := EMul(Phi(a), Phi(Phi(a)));
    var norm := EMul(a, m);
    var v := Inverse(EField(), In(norm.c0));
    b := EMul(m, In(v.c0));
    InvertIs(a, v, out);
  }

  lemma InvertIs(a: Elem, v: Elem, out: nat)
    requires v == Power(EField(), In(Norm(a).c0), 0xFFFF_FFFF_FFFF_FFFE)
    requires out == 0x1_0000_0000_0000_0000_0000_0000_0000_0000_0000_0000_0000_0000 - 2
    ensures EInverse(a, v.c0) == Of(a, out)
    ensures a != In(0) ==> EMul(a, EInverse(a, v.c0)) == In(1)
    ensures a == In(0) ==> EInverse(a, v.c0) == In(0)
  {
    hide EMul, KMul, Phi, Of, Power;
    ghost var q: nat, qq: nat := 0x1_0000_0000_0000_0000, 0x1_0000_0000_0000_0000_0000_0000_0000_0000;
    var n := Norm(a).c0;
    OfIs(In(n), q - 2);
    InverseInverts(n, q - 2, v);
    NormInK(a);
    NormNonzero(a);
    NormIsPower(a, q, qq);
    Exponents(q);
    OfOf(a, 1 + (q + qq), q - 2, (1 + (q + qq)) * (q - 2));
    OfAdd(a, q + qq, (1 + (q + qq)) * (q - 2));
    if a == In(0) {
      TimesZero(EMul(Phi(a), Phi(Phi(a))));
    } else {
      EInverseInverts(a, Norm(a), v.c0);
    }
  }
}
