/** Inverses in field.rs: K's by the addition chain for 2^64 - 2, E's through the norm to K. */
module FieldInverse {
  import opened Rings
  import opened Multilinear
  import opened Bits
  import opened Carryless
  import opened FieldBase
  import opened FieldRing
  import opened Polynomials

  // ---- powers ----------------------------------------------------------------------------------

  lemma {:induction false} PowerAdd(R: Ring, a: Elem, m: nat, n: nat)
    requires R.Laws()
    ensures R.mul(Power(R, a, m), Power(R, a, n)) == Power(R, a, m + n)
  {
    if n == 0 {
      R.MulOne(Power(R, a, m));
    } else {
      PowerAdd(R, a, m, n - 1);
      R.MulAssoc(Power(R, a, m), Power(R, a, n - 1), a);
    }
  }

  lemma {:induction false} FrobPower(R: Ring, a: Elem, e: nat, n: nat)
    requires R.Laws()
    ensures R.Frob(Power(R, a, e), n) == Power(R, a, e * Pow2(n))
  {
    if n > 0 {
      hide Power;
      FrobPower(R, a, e, n - 1);
      var half := e * Pow2(n - 1);
      PowerAdd(R, a, half, half);
      assert e * Pow2(n) == half + half;
    } else {
      assert e * Pow2(0) == e;
    }
  }

  /** The squarings between two products of the chain. */
  method Squarings(R: Ring, a: Elem, n: nat) returns (v: Elem)
    ensures v == R.Frob(a, n)
  {
    v := a;
    var i := 0;
    while i < n
      invariant 0 <= i <= n && v == R.Frob(a, i)
    {
      v := R.Square(v);
      i := i + 1;
    }
  }

  /** a^(2^n - 1). */
  function Ones(R: Ring, a: Elem, n: nat): Elem {
    Power(R, a, Pow2(n) - 1)
  }

  /** One link: 2^m - 1 ones shifted up by n, and 2^n - 1 below them. */
  lemma OnesAdd(R: Ring, a: Elem, m: nat, n: nat)
    requires R.Laws()
    ensures R.mul(R.Frob(Ones(R, a, m), n), Ones(R, a, n)) == Ones(R, a, m + n)
  {
    hide Power, Pow2, Ring.Frob;
    var e := Pow2(m) - 1;
    FrobPower(R, a, e, n);
    PowerAdd(R, a, e * Pow2(n), Pow2(n) - 1);
    Pow2Add(m, n);
    assert e * Pow2(n) + Pow2(n) == Pow2(m) * Pow2(n);
  }

  method Link(R: Ring, tm: Elem, n: nat, tn: Elem, ghost a: Elem, ghost m: nat) returns (t: Elem)
    requires R.Laws() && tm == Ones(R, a, m) && tn == Ones(R, a, n)
    ensures t == Ones(R, a, m + n)
  {
    hide Ones, Ring.Frob, Ring.Laws;
    OnesAdd(R, a, m, n);
    var s := Squarings(R, tm, n);
    t := R.mul(s, tn);
  }

  /** `K::inv`: the power 2^64 - 2, by nine links and a last squaring. */
  method Inverse(R: Ring, a: Elem) returns (v: Elem)
    requires R.Laws()
    ensures v == Power(R, a, 0xFFFF_FFFF_FFFF_FFFE)
  {
    hide Ones, Ring.Frob, Ring.Laws, Power;
    FirstOnes(R, a);
    var t1 := a;
    var t2 := Link(R, t1, 1, t1, a, 1);
    var t3 := Link(R, t2, 1, t1, a, 2);
    var t6 := Link(R, t3, 3, t3, a, 3);
    var t12 := Link(R, t6, 6, t6, a, 6);
    var t24 := Link(R, t12, 12, t12, a, 12);
    var t48 := Link(R, t24, 24, t24, a, 24);
    var t60 := Link(R, t48, 12, t12, a, 48);
    var t63 := Link(R, t60, 3, t3, a, 60);
    v := Squarings(R, t63, 1);
    LastOnes(R, a);
  }

  lemma FirstOnes(R: Ring, a: Elem)
    requires R.Laws()
    ensures Ones(R, a, 1) == a
  {
    R.MulOne(a);
    assert Power(R, a, 1) == R.mul(Power(R, a, 0), a);
    assert Pow2(1) == 2;
  }

  lemma LastOnes(R: Ring, a: Elem)
    requires R.Laws()
    ensures R.Frob(Ones(R, a, 63), 1) == Power(R, a, 0xFFFF_FFFF_FFFF_FFFE)
  {
    hide Power, Ring.Frob;
    LimbPower();
    OnePower();
    hide Pow2;
    FrobPower(R, a, Pow2(63) - 1, 1);
    assert (Pow2(63) - 1) * 2 == 0xFFFF_FFFF_FFFF_FFFE;
  }

  lemma OnePower()
    ensures Pow2(1) == 2 && Pow2(64) == 2 * Pow2(63)
  {
  }

  // ---- the Frobenius map of E over K -----------------------------------------------------------

  /** `E::frobenius`: y goes to y^2, K stays. */
  function Phi(a: Elem): Elem {
    Elem(a.c0, a.c2, KAdd(a.c1, a.c2))
  }

  lemma PhiLinear(s: Limb, a: Elem, b: Elem)
    ensures Phi(EAdd(a, b)) == EAdd(Phi(a), Phi(b)) && Phi(Scale(s, a)) == Scale(s, Phi(a))
  {
    hide KAdd, KMul;
    KAddSwap(a.c1, b.c1, a.c2, b.c2);
    KDist(s, a.c1, a.c2);
  }

  lemma PhiY(a: Elem)
    ensures Phi(TimesY(a)) == TimesY(TimesY(Phi(a)))
  {
    hide KAdd;
    KAddLaws(a.c0, a.c2, a.c1);
    KAddLaws(a.c1, a.c2, 0);
    KAddLaws(a.c2, a.c1, 0);
    KAddLaws(KAdd(a.c1, a.c2), a.c2, 0);
  }

  lemma PhiThrice(a: Elem)
    ensures Phi(Phi(Phi(a))) == a
  {
    hide KAdd;
    KAddLaws(a.c1, a.c2, 0);
    KAddLaws(a.c2, a.c1, 0);
    KAddLaws(a.c2, KAdd(a.c1, a.c2), 0);
    KAddLaws(KAdd(a.c1, a.c2), a.c1, 0);
  }

  /** It is multiplicative. */
  lemma PhiMul(a: Elem, b: Elem)
    ensures Phi(EMul(a, b)) == EMul(Phi(a), Phi(b))
  {
    hide EMul, KAdd, KMul, Scale, EAdd, TimesY;
    var y, z, p := TimesY(a), TimesY(TimesY(a)), Phi(a);
    var py, pyy := TimesY(p), TimesY(TimesY(p));
    MulIsCombine(a, b);
    MulIsCombine(p, Phi(b));
    PhiY(a);
    PhiY(y);
    var u, v, w := Scale(b.c0, a), Scale(b.c1, y), Scale(b.c2, z);
    PhiLinear(0, u, EAdd(v, w));
    PhiLinear(0, v, w);
    PhiLinear(b.c0, a, a);
    PhiLinear(b.c1, y, y);
    PhiLinear(b.c2, z, z);
    YCubed(p);
    YLinear(0, py, p);
    ScaleAdd(b.c2, pyy, py);
    ScaleSum(b.c1, b.c2, pyy);
    PhiParts(b);
    var s, t, q := Scale(b.c1, pyy), Scale(b.c2, pyy), Scale(b.c2, py);
    AddLaws(s, t, q);
    AddLaws(q, EAdd(s, t), q);
    AddLaws(EAdd(s, t), q, q);
  }

  lemma PhiParts(b: Elem)
    ensures Phi(b).c0 == b.c0 && Phi(b).c1 == b.c2 && Phi(b).c2 == KAdd(b.c1, b.c2)
  {
    hide KAdd;
  }

  /** a Phi(a) Phi(Phi(a)). */
  function Norm(a: Elem): Elem {
    EMul(a, EMul(Phi(a), Phi(Phi(a))))
  }

  /** The norm always lies in K. */
  lemma NormInK(a: Elem)
    ensures Norm(a).c1 == 0 && Norm(a).c2 == 0
  {
    hide EMul, KAdd, Phi;
    var p := Phi(a);
    var q := Phi(p);
    PhiMul(a, EMul(p, q));
    PhiMul(p, q);
    PhiThrice(a);
    EMulAssoc(p, q, a);
    EMulComm(EMul(p, q), a);
    FixedInK(Norm(a));
  }

  /** What Phi fixes lies in K. */
  lemma FixedInK(n: Elem)
    requires Phi(n) == n
    ensures n.c1 == 0 && n.c2 == 0
  {
    hide KAdd;
    KAddLaws(n.c1, n.c2, 0);
    KAddLaws(n.c2, n.c1, 0);
    KAddLaws(n.c2, n.c2, 0);
  }

  lemma KInE(a: Limb, b: Limb)
    ensures EMul(Elem(a, 0, 0), Elem(b, 0, 0)) == Elem(KMul(a, b), 0, 0)
  {
    hide EMul, KAdd, KMul;
    MulIsSchoolbook(Elem(a, 0, 0), Elem(b, 0, 0));
    KOne(a);
    KOne(b);
    KOne(0);
    KComm(0, b);
    KOne(KMul(a, b));
    KAddLaws(0, 0, 0);
  }

  /** `E::inv`, v the base inverse of the norm. */
  function EInverse(a: Elem, v: Limb): Elem {
    EMul(EMul(Phi(a), Phi(Phi(a))), Elem(v, 0, 0))
  }

  /** It inverts a whenever the base inverse inverts a's norm. */
  lemma EInverseInverts(a: Elem, n: Elem, v: Limb)
    requires n == Norm(a) && KMul(n.c0, v) == 1
    ensures EMul(a, EInverse(a, v)) == EField().one
  {
    hide EMul, KMul, Phi;
    EMulAssoc(a, EMul(Phi(a), Phi(Phi(a))), Elem(v, 0, 0));
    NormInK(a);
    KInE(n.c0, v);
  }

  /** Multiplying by an element of K scales the limbs (`Mul<K>` for `E`). */
  lemma ScaleByK(a: Elem, x: Limb)
    ensures EMul(a, Elem(x, 0, 0)) == Scale(x, a)
  {
    hide EMul, KAdd, KMul;
    MulIsSchoolbook(a, Elem(x, 0, 0));
    KOne(a.c0);
    KOne(a.c1);
    KOne(a.c2);
    KOne(0);
    KComm(a.c0, x);
    KComm(a.c1, x);
    KComm(a.c2, x);
    KAddLaws(KMul(x, a.c0), 0, 0);
    KAddLaws(KMul(x, a.c1), 0, 0);
    KAddLaws(KMul(x, a.c2), 0, 0);
    KAddLaws(0, KMul(x, a.c1), 0);
    KAddLaws(0, KMul(x, a.c2), 0);
  }

  /** `times_monomial` on one limb: a shift and a reduction multiply by x^k. */
  lemma TimesMonomial(c: Limb, k: nat, x: Limb, shifted: nat)
    requires x == Pow2(k) && shifted == x * c
    ensures Reduce(shifted) == KMul(x, c)
  {
    hide Pow2, Reduce, Clmul;
    ClPower(c, k);
  }
}
