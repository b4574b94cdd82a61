/** E = K[y] / (y^3 + y + 1), by field.rs's Karatsuba product: a commutative ring of
    characteristic two, its Frobenius map, norm and inverse. */
module FieldRing {
  import opened Rings
  import opened Multilinear
  import opened Bits
  import opened Carryless
  import opened FieldBase
  import opened Polynomials

  function EAdd(a: Elem, b: Elem): Elem {
    Elem(KAdd(a.c0, b.c0), KAdd(a.c1, b.c1), KAdd(a.c2, b.c2))
  }

  /** The three cross coefficients, each from one more product of sums. */
  function Cross(x: Limb, y: Limb, z: Limb, w: Limb): nat {
    Xor(Xor(Clmul(KAdd(x, y), KAdd(z, w)), Clmul(x, z)), Clmul(y, w))
  }

  lemma CrossIs(x: Limb, y: Limb, z: Limb, w: Limb)
    ensures Cross(x, y, z, w) == Xor(Clmul(x, w), Clmul(y, z)) && Cross(x, y, z, w) < Pow2(128)
  {
    hide Xor, Clmul, Pow2;
    var a, b, c, d := Clmul(x, z), Clmul(x, w), Clmul(y, z), Clmul(y, w);
    ClDistRight(x, y, Xor(z, w));
    ClDist(x, z, w);
    ClDist(y, z, w);
    XorComm(Xor(a, b), Xor(c, d));
    XorLeft(Xor(c, d), a, b);
    XorAssoc(Xor(a, b), c, d);
    XorAssoc(a, b, c);
    CancelEnds(a, b, c, d);
    ProductBound(x, w);
    ProductBound(y, z);
    XorBound(b, c, 128);
  }

  lemma CancelEnds(a: nat, b: nat, c: nat, d: nat)
    ensures Xor(Xor(Xor(Xor(a, b), Xor(c, d)), a), d) == Xor(b, c)
  {
    hide Xor;
    XorAssoc(a, b, Xor(c, d));
    XorComm(a, Xor(b, Xor(c, d)));
    XorCancel(Xor(b, Xor(c, d)), a);
    XorAssoc(b, c, d);
    XorCancel(Xor(b, c), d);
  }

  function EMul(a: Elem, b: Elem): Elem {
    var (p0, p1, p2) := (Clmul(a.c0, b.c0), Clmul(a.c1, b.c1), Clmul(a.c2, b.c2));
    var e1, e3 := Cross(a.c0, a.c1, b.c0, b.c1), Cross(a.c1, a.c2, b.c1, b.c2);
    var e2 := Xor(Cross(a.c0, a.c2, b.c0, b.c2), p1);
    MulFits(a, b);
    Elem(Reduce(Xor(p0, e3)), Reduce(Xor(Xor(e1, e3), p2)), Reduce(Xor(e2, p2)))
  }

  ghost predicate Fits(p: nat) {
    p < Pow2(128) && Reduce(p) < 0x1_0000_0000_0000_0000
  }

  lemma ItFits(p: nat)
    requires p < Pow2(128)
    ensures Fits(p)
  {
    hide Pow2, Reduce;
    LimbPower();
    ReduceBound(p);
  }

  lemma MulFits(a: Elem, b: Elem)
    ensures var (p0, p1, p2) := (Clmul(a.c0, b.c0), Clmul(a.c1, b.c1), Clmul(a.c2, b.c2));
      var e1, e3 := Cross(a.c0, a.c1, b.c0, b.c1), Cross(a.c1, a.c2, b.c1, b.c2);
      var e2 := Xor(Cross(a.c0, a.c2, b.c0, b.c2), p1);
      Fits(Xor(p0, e3)) && Fits(Xor(Xor(e1, e3), p2)) && Fits(Xor(e2, p2))
  {
    hide Xor, Clmul, Pow2, Cross, Fits;
    var (p0, p1, p2) := (Clmul(a.c0, b.c0), Clmul(a.c1, b.c1), Clmul(a.c2, b.c2));
    var e1, e3 := Cross(a.c0, a.c1, b.c0, b.c1), Cross(a.c1, a.c2, b.c1, b.c2);
    var e2 := Xor(Cross(a.c0, a.c2, b.c0, b.c2), p1);
    ProductBound(a.c0, b.c0);
    ProductBound(a.c1, b.c1);
    ProductBound(a.c2, b.c2);
    CrossIs(a.c0, a.c1, b.c0, b.c1);
    CrossIs(a.c1, a.c2, b.c1, b.c2);
    CrossIs(a.c0, a.c2, b.c0, b.c2);
    XorBound(p0, e3, 128);
    XorBound(e1, e3, 128);
    XorBound(Xor(e1, e3), p2, 128);
    XorBound(Cross(a.c0, a.c2, b.c0, b.c2), p1, 128);
    XorBound(e2, p2, 128);
    ItFits(Xor(p0, e3));
    ItFits(Xor(Xor(e1, e3), p2));
    ItFits(Xor(e2, p2));
  }

  /** The schoolbook product, folded by y^3 = y + 1 and y^4 = y^2 + y. */
  function Schoolbook(a: Elem, b: Elem): Elem {
    Elem(KAdd(KMul(a.c0, b.c0), KAdd(KMul(a.c1, b.c2), KMul(a.c2, b.c1))),
         KAdd(KAdd(KAdd(KMul(a.c0, b.c1), KMul(a.c1, b.c0)), KAdd(KMul(a.c1, b.c2), KMul(a.c2, b.c1))), KMul(a.c2, b.c2)),
         KAdd(KAdd(KAdd(KMul(a.c0, b.c2), KMul(a.c2, b.c0)), KMul(a.c1, b.c1)), KMul(a.c2, b.c2)))
  }

  lemma CrossReduces(x: Limb, y: Limb, z: Limb, w: Limb)
    ensures Cross(x, y, z, w) < Pow2(128) && Reduce(Cross(x, y, z, w)) == KAdd(KMul(x, w), KMul(y, z))
  {
    hide Xor, Clmul, Pow2, Cross, Reduce;
    CrossIs(x, y, z, w);
    ProductBound(x, w);
    ProductBound(y, z);
    ReduceAdd(Clmul(x, w), Clmul(y, z));
  }

  /** Karatsuba and one reduction per coefficient give the schoolbook product. */
  lemma MulIsSchoolbook(a: Elem, b: Elem)
    ensures EMul(a, b) == Schoolbook(a, b)
  {
    hide Xor, Clmul, Pow2, Cross, Reduce;
    var (p0, p1, p2) := (Clmul(a.c0, b.c0), Clmul(a.c1, b.c1), Clmul(a.c2, b.c2));
    var e1, e3, f := Cross(a.c0, a.c1, b.c0, b.c1), Cross(a.c1, a.c2, b.c1, b.c2), Cross(a.c0, a.c2, b.c0, b.c2);
    ProductBound(a.c0, b.c0);
    ProductBound(a.c1, b.c1);
    ProductBound(a.c2, b.c2);
    CrossReduces(a.c0, a.c1, b.c0, b.c1);
    CrossReduces(a.c1, a.c2, b.c1, b.c2);
    CrossReduces(a.c0, a.c2, b.c0, b.c2);
    ReduceAdd(p0, e3);
    ReduceAdd(e1, e3);
    ReduceAdd(Xor(e1, e3), p2);
    ReduceAdd(f, p1);
    ReduceAdd(Xor(f, p1), p2);
  }

  // ---- E as a space over K ---------------------------------------------------------------------

  function Scale(s: Limb, a: Elem): Elem {
    Elem(KMul(s, a.c0), KMul(s, a.c1), KMul(s, a.c2))
  }

  /** Multiplication by y. */
  function TimesY(a: Elem): Elem {
    Elem(a.c2, KAdd(a.c0, a.c2), a.c1)
  }

  /** b's coefficients against a, ya and y^2 a. */
  function Combine(b: Elem, a: Elem, ya: Elem, yya: Elem): Elem {
    EAdd(Scale(b.c0, a), EAdd(Scale(b.c1, ya), Scale(b.c2, yya)))
  }

  lemma KAddLaws(a: Limb, b: Limb, c: Limb)
    ensures KAdd(a, b) == KAdd(b, a) && KAdd(KAdd(a, b), c) == KAdd(a, KAdd(b, c)) && KAdd(a, KAdd(b, c)) == KAdd(b, KAdd(a, c))
    ensures KAdd(a, a) == 0 && KAdd(a, 0) == a && KAdd(a, KAdd(a, b)) == b && KAdd(b, KAdd(a, b)) == a
  {
    hide Xor;
    XorComm(a, b);
    XorAssoc(a, b, c);
    XorLeft(a, b, c);
    XorSelf(a);
    XorNone(a);
    XorCancel(b, a);
    XorCancel(a, b);
  }

  lemma AddLaws(a: Elem, b: Elem, c: Elem)
    ensures EAdd(a, b) == EAdd(b, a) && EAdd(EAdd(a, b), c) == EAdd(a, EAdd(b, c)) && EAdd(a, EAdd(b, c)) == EAdd(b, EAdd(a, c))
  {
    hide KAdd;
    KAddLaws(a.c0, b.c0, c.c0);
    KAddLaws(a.c1, b.c1, c.c1);
    KAddLaws(a.c2, b.c2, c.c2);
  }

  lemma AddSwap(a: Elem, b: Elem, c: Elem, d: Elem)
    ensures EAdd(EAdd(a, b), EAdd(c, d)) == EAdd(EAdd(a, c), EAdd(b, d))
  {
    hide EAdd;
    AddLaws(a, b, EAdd(c, d));
    AddLaws(b, c, d);
    AddLaws(a, c, EAdd(b, d));
  }

  lemma ScaleAdd(s: Limb, a: Elem, b: Elem)
    ensures Scale(s, EAdd(a, b)) == EAdd(Scale(s, a), Scale(s, b))
  {
    hide KAdd, KMul;
    KDist(s, a.c0, b.c0);
    KDist(s, a.c1, b.c1);
    KDist(s, a.c2, b.c2);
  }

  lemma DistRight(s: Limb, t: Limb, x: Limb)
    ensures KMul(KAdd(s, t), x) == KAdd(KMul(s, x), KMul(t, x))
  {
    hide KAdd, KMul;
    KComm(KAdd(s, t), x);
    KComm(s, x);
    KComm(t, x);
    KDist(x, s, t);
  }

  lemma ScaleSum(s: Limb, t: Limb, a: Elem)
    ensures Scale(KAdd(s, t), a) == EAdd(Scale(s, a), Scale(t, a))
  {
    hide KAdd, KMul;
    DistRight(s, t, a.c0);
    DistRight(s, t, a.c1);
    DistRight(s, t, a.c2);
  }

  lemma ScaleScale(s: Limb, t: Limb, a: Elem)
    ensures Scale(s, Scale(t, a)) == Scale(KMul(s, t), a)
  {
    hide KAdd, KMul;
    KAssoc(s, t, a.c0);
    KAssoc(s, t, a.c1);
    KAssoc(s, t, a.c2);
  }

  lemma YLinear(s: Limb, a: Elem, b: Elem)
    ensures TimesY(EAdd(a, b)) == EAdd(TimesY(a), TimesY(b)) && TimesY(Scale(s, a)) == Scale(s, TimesY(a))
  {
    hide KAdd, KMul;
    KAddSwap(a.c0, b.c0, a.c2, b.c2);
    KDist(s, a.c0, a.c2);
  }

  lemma KAddSwap(a: Limb, b: Limb, c: Limb, d: Limb)
    ensures KAdd(KAdd(a, b), KAdd(c, d)) == KAdd(KAdd(a, c), KAdd(b, d))
  {
    hide Xor;
    XorSwap(a, b, c, d);
  }

  /** y^3 = y + 1. */
  lemma YCubed(a: Elem)
    ensures TimesY(TimesY(TimesY(a))) == EAdd(TimesY(a), a)
  {
    hide KAdd;
    KAddLaws(a.c2, a.c0, a.c1);
    KAddLaws(a.c1, a.c0, a.c2);
    KAddLaws(a.c0, a.c2, a.c1);
    KAddLaws(a.c2, a.c1, a.c0);
  }

  lemma FiveTerms(a: Limb, b: Limb, c: Limb, d: Limb, e: Limb)
    ensures KAdd(a, KAdd(KAdd(b, c), KAdd(d, e))) == KAdd(KAdd(KAdd(b, a), KAdd(d, c)), e)
  {
    hide KAdd;
    KAddLaws(b, a, KAdd(d, c));
    KAddLaws(KAdd(b, c), d, e);
    KAddLaws(b, c, d);
    KAddLaws(c, d, b);
    KAddLaws(a, KAdd(b, KAdd(d, c)), e);
    KAddLaws(a, b, KAdd(d, c));
  }

  lemma FourTerms(f: Limb, g: Limb, h: Limb, e: Limb)
    ensures KAdd(f, KAdd(g, KAdd(h, e))) == KAdd(KAdd(KAdd(h, f), g), e)
  {
    hide KAdd;
    KAddLaws(g, h, e);
    KAddLaws(f, h, KAdd(g, e));
    KAddLaws(h, f, KAdd(g, e));
    KAddLaws(KAdd(h, f), g, e);
  }

  /** The product is b's coefficients against a, ya and y^2 a. */
  lemma MulIsCombine(a: Elem, b: Elem)
    ensures EMul(a, b) == Combine(b, a, TimesY(a), TimesY(TimesY(a)))
  {
    hide KAdd, KMul, EMul;
    MulIsSchoolbook(a, b);
    KComm(a.c0, b.c0);
    KComm(a.c0, b.c1);
    KComm(a.c0, b.c2);
    KComm(a.c1, b.c0);
    KComm(a.c1, b.c1);
    KComm(a.c1, b.c2);
    KComm(a.c2, b.c0);
    KComm(a.c2, b.c1);
    KComm(a.c2, b.c2);
    KDist(b.c1, a.c0, a.c2);
    KDist(b.c2, a.c2, a.c1);
    KDist(b.c2, a.c0, a.c2);
    var m01, m10, m12, m21, m22 := KMul(b.c0, a.c1), KMul(b.c1, a.c0), KMul(b.c1, a.c2), KMul(b.c2, a.c1), KMul(b.c2, a.c2);
    KAddLaws(m12, m21, 0);
    KAddLaws(m22, m21, 0);
    FiveTerms(m01, m10, m12, m21, m22);
    FourTerms(KMul(b.c0, a.c2), KMul(b.c1, a.c1), KMul(b.c2, a.c0), m22);
  }

  lemma CombineAdd(b: Elem, c: Elem, x: Elem, y: Elem, z: Elem)
    ensures Combine(EAdd(b, c), x, y, z) == EAdd(Combine(b, x, y, z), Combine(c, x, y, z))
  {
    hide KAdd, KMul, Scale;
    ScaleSum(b.c0, c.c0, x);
    ScaleSum(b.c1, c.c1, y);
    ScaleSum(b.c2, c.c2, z);
    hide EAdd;
    AddSwap(Scale(b.c1, y), Scale(c.c1, y), Scale(b.c2, z), Scale(c.c2, z));
    AddSwap(Scale(b.c0, x), Scale(c.c0, x), EAdd(Scale(b.c1, y), Scale(b.c2, z)), EAdd(Scale(c.c1, y), Scale(c.c2, z)));
    EAddParts(b, c);
  }

  lemma EAddParts(b: Elem, c: Elem)
    ensures EAdd(b, c).c0 == KAdd(b.c0, c.c0) && EAdd(b, c).c1 == KAdd(b.c1, c.c1) && EAdd(b, c).c2 == KAdd(b.c2, c.c2)
  {
    hide KAdd;
  }

  lemma ScaleParts(s: Limb, b: Elem)
    ensures Scale(s, b).c0 == KMul(s, b.c0) && Scale(s, b).c1 == KMul(s, b.c1) && Scale(s, b).c2 == KMul(s, b.c2)
  {
    hide KMul;
  }

  lemma CombineScale(s: Limb, b: Elem, x: Elem, y: Elem, z: Elem)
    ensures Combine(Scale(s, b), x, y, z) == Scale(s, Combine(b, x, y, z))
  {
    hide KAdd, KMul, Scale, EAdd;
    ScaleParts(s, b);
    ScaleScale(s, b.c0, x);
    ScaleScale(s, b.c1, y);
    ScaleScale(s, b.c2, z);
    ScaleAdd(s, Scale(b.c1, y), Scale(b.c2, z));
    ScaleAdd(s, Scale(b.c0, x), EAdd(Scale(b.c1, y), Scale(b.c2, z)));
  }

  lemma MulAdd(a: Elem, b: Elem, c: Elem)
    ensures EMul(a, EAdd(b, c)) == EAdd(EMul(a, b), EMul(a, c))
  {
    hide EMul, EAdd, Combine, TimesY;
    MulIsCombine(a, b);
    MulIsCombine(a, c);
    MulIsCombine(a, EAdd(b, c));
    CombineAdd(b, c, a, TimesY(a), TimesY(TimesY(a)));
  }

  lemma MulScale(a: Elem, s: Limb, b: Elem)
    ensures EMul(a, Scale(s, b)) == Scale(s, EMul(a, b))
  {
    hide EMul, EAdd, Combine, TimesY, Scale;
    MulIsCombine(a, b);
    MulIsCombine(a, Scale(s, b));
    CombineScale(s, b, a, TimesY(a), TimesY(TimesY(a)));
  }

  /** Multiplication commutes with multiplication by y. */
  lemma MulY(a: Elem, b: Elem)
    ensures EMul(a, TimesY(b)) == TimesY(EMul(a, b))
  {
    hide EMul, KAdd, KMul, Scale, EAdd;
    var y, z := TimesY(a), TimesY(TimesY(a));
    MulIsCombine(a, b);
    MulIsCombine(a, TimesY(b));
    YParts(b);
    YCubed(a);
    hide TimesY;
    var p, q, r := Scale(b.c0, a), Scale(b.c1, y), Scale(b.c2, z);
    YLinear(0, p, EAdd(q, r));
    YLinear(0, q, r);
    YLinear(b.c0, a, a);
    YLinear(b.c1, y, y);
    YLinear(b.c2, z, z);
    ScaleAdd(b.c2, y, a);
    ScaleSum(b.c0, b.c2, y);
    var s, t, u, w := Scale(b.c0, y), Scale(b.c1, z), Scale(b.c2, y), Scale(b.c2, a);
    SixSwap(s, t, u, w);
  }

  lemma SixSwap(s: Elem, t: Elem, u: Elem, w: Elem)
    ensures EAdd(w, EAdd(EAdd(s, u), t)) == EAdd(s, EAdd(t, EAdd(u, w)))
  {
    hide EAdd;
    AddLaws(s, u, t);
    AddLaws(w, s, EAdd(u, t));
    AddLaws(u, t, w);
    AddLaws(w, u, t);
    AddLaws(t, u, w);
    AddLaws(t, w, u);
  }

  lemma YParts(b: Elem)
    ensures TimesY(b).c0 == b.c2 && TimesY(b).c1 == KAdd(b.c0, b.c2) && TimesY(b).c2 == b.c1
  {
    hide KAdd;
  }

  lemma EMulAssoc(a: Elem, b: Elem, c: Elem)
    ensures EMul(EMul(a, b), c) == EMul(a, EMul(b, c))
  {
    hide EMul, KAdd, KMul, Scale, EAdd, TimesY;
    var ab, y, z := EMul(a, b), TimesY(b), TimesY(TimesY(b));
    MulIsCombine(ab, c);
    MulIsCombine(b, c);
    MulY(a, b);
    MulY(a, y);
    MulScale(a, c.c0, b);
    MulScale(a, c.c1, y);
    MulScale(a, c.c2, z);
    MulAdd(a, Scale(c.c1, y), Scale(c.c2, z));
    MulAdd(a, Scale(c.c0, b), EAdd(Scale(c.c1, y), Scale(c.c2, z)));
  }

  lemma EMulComm(a: Elem, b: Elem)
    ensures EMul(a, b) == EMul(b, a)
  {
    hide EMul, KAdd, KMul;
    MulIsSchoolbook(a, b);
    MulIsSchoolbook(b, a);
    KComm(a.c0, b.c0);
    KComm(a.c0, b.c1);
    KComm(a.c0, b.c2);
    KComm(a.c1, b.c0);
    KComm(a.c1, b.c1);
    KComm(a.c1, b.c2);
    KComm(a.c2, b.c0);
    KComm(a.c2, b.c1);
    KComm(a.c2, b.c2);
    KAddLaws(KMul(a.c1, b.c2), KMul(a.c2, b.c1), 0);
    KAddLaws(KMul(a.c0, b.c1), KMul(a.c1, b.c0), 0);
    KAddLaws(KMul(a.c0, b.c2), KMul(a.c2, b.c0), 0);
  }

  lemma EMulOne(a: Elem)
    ensures EMul(a, Elem(1, 0, 0)) == a
  {
    hide EMul, KAdd, KMul;
    MulIsSchoolbook(a, Elem(1, 0, 0));
    KOne(a.c0);
    KOne(a.c1);
    KOne(a.c2);
    KOne(0);
  }

  /** field.rs's element operations. */
  function EField(): Ring {
    Ring(Elem(0, 0, 0), Elem(1, 0, 0), (a, b) => EAdd(a, b), (a, b) => EMul(a, b))
  }

  /** They satisfy every law the verifier's algebra uses. */
  lemma EFieldLaws()
    ensures EField().Laws()
  {
    var R := EField();
    forall a, b, c
      ensures R.LawsAt(a, b, c)
    {
      LawsAtAll(a, b, c);
    }
  }

  lemma LawsAtAll(a: Elem, b: Elem, c: Elem)
    ensures EField().LawsAt(a, b, c)
  {
    hide EMul, KAdd, KMul;
    AddLaws(a, b, c);
    KAddLaws(a.c0, 0, 0);
    KAddLaws(a.c1, 0, 0);
    KAddLaws(a.c2, 0, 0);
    EMulComm(a, b);
    EMulAssoc(a, b, c);
    MulAdd(a, b, c);
    EMulOne(a);
  }
}
