/** The arithmetic every sum identity of the proof verifier rests on.

    `Elem` is the verifier's field element, three 64-bit limbs. The algebra is proved for any
    addition and multiplication on it that make a commutative ring of characteristic two; that
    field.rs's own operations are such a ring is proved once, in module `FieldRing`.

    The laws are one quantified fact whose only trigger is the marker `Use`, so that a proof
    instantiates exactly the laws it names (through the lemmas below). */
module Rings {

  type Byte = b: nat | b < 256

  /** A 64-bit word. */
  type Limb = n: nat | n < 0x1_0000_0000_0000_0000

  datatype Elem = Elem(c0: Limb, c1: Limb, c2: Limb)

  /** Names the three elements at which the ring laws are wanted. */
  ghost predicate Use(a: Elem, b: Elem, c: Elem) {
    true
  }

  datatype Ring = Ring(zero: Elem, one: Elem, add: (Elem, Elem) -> Elem, mul: (Elem, Elem) -> Elem) {

    ghost predicate LawsAt(a: Elem, b: Elem, c: Elem) {
      && add(a, b) == add(b, a)
      && add(add(a, b), c) == add(a, add(b, c))
      && add(a, zero) == a
      && add(a, a) == zero
      && mul(a, b) == mul(b, a)
      && mul(mul(a, b), c) == mul(a, mul(b, c))
      && mul(a, add(b, c)) == add(mul(a, b), mul(a, c))
      && mul(a, one) == a
    }

    /** A commutative ring in which every element is its own negative. */
    ghost predicate Laws() {
      forall a, b, c {:trigger Use(a, b, c)} :: LawsAt(a, b, c)
    }

    /** No zero divisors; only the results that divide ask for it. */
    ghost predicate Domain() {
      && one != zero
      && forall a, b {:trigger Use(a, b, zero)} :: mul(a, b) == zero ==> a == zero || b == zero
    }

    function Lerp(a: Elem, b: Elem, r: Elem): Elem {
      add(a, mul(r, add(a, b)))
    }

    lemma AddComm(a: Elem, b: Elem)
      requires Laws()
      ensures add(a, b) == add(b, a)
    {
      assert Use(a, b, zero);
    }

    lemma AddAssoc(a: Elem, b: Elem, c: Elem)
      requires Laws()
      ensures add(add(a, b), c) == add(a, add(b, c))
    {
      assert Use(a, b, c);
    }

    lemma AddZero(a: Elem)
      requires Laws()
      ensures add(a, zero) == a && add(zero, a) == a
    {
      assert Use(a, zero, zero);
    }

    lemma AddSelf(a: Elem)
      requires Laws()
      ensures add(a, a) == zero
    {
      assert Use(a, a, a);
    }

    lemma MulComm(a: Elem, b: Elem)
      requires Laws()
      ensures mul(a, b) == mul(b, a)
    {
      assert Use(a, b, zero);
    }

    lemma MulAssoc(a: Elem, b: Elem, c: Elem)
      requires Laws()
      ensures mul(mul(a, b), c) == mul(a, mul(b, c))
    {
      assert Use(a, b, c);
    }

    lemma MulOne(a: Elem)
      requires Laws()
      ensures mul(a, one) == a && mul(one, a) == a
    {
      assert Use(a, one, one);
    }

    /** Distributivity, on either side. */
    lemma Dist(a: Elem, b: Elem, c: Elem)
      requires Laws()
      ensures mul(a, add(b, c)) == add(mul(a, b), mul(a, c))
      ensures mul(add(b, c), a) == add(mul(b, a), mul(c, a))
    {
      assert Use(a, b, c) && Use(a, add(b, c), zero) && Use(a, c, zero);
    }

    lemma MulZero(a: Elem)
      requires Laws()
      ensures mul(a, zero) == zero && mul(zero, a) == zero
    {
      AddSelf(zero);
      Dist(a, zero, zero);
      AddSelf(mul(a, zero));
      MulComm(a, zero);
    }

    /** (a + b) + b = a, and its mirror. */
    lemma Cancel(a: Elem, b: Elem)
      requires Laws()
      ensures add(add(a, b), b) == a && add(b, add(b, a)) == a && add(b, add(a, b)) == a && add(add(b, a), b) == a
    {
      AddAssoc(a, b, b);
      AddAssoc(b, b, a);
      AddSelf(b);
      AddZero(a);
      AddComm(a, b);
    }

    /** In characteristic two a sum is zero exactly when its terms are equal. */
    lemma SumZero(a: Elem, b: Elem)
      requires Laws()
      ensures add(a, b) == zero <==> a == b
    {
      Cancel(a, b);
      AddSelf(a);
      AddZero(b);
    }

    lemma AddLeft(a: Elem, b: Elem, c: Elem)
      requires Laws()
      ensures add(a, add(b, c)) == add(b, add(a, c))
    {
      AddAssoc(a, b, c);
      AddComm(a, b);
      AddAssoc(b, a, c);
    }

    lemma AddSwap(a: Elem, b: Elem, c: Elem, d: Elem)
      requires Laws()
      ensures add(add(a, b), add(c, d)) == add(add(a, c), add(b, d))
    {
      AddAssoc(a, b, add(c, d));
      AddLeft(b, c, d);
      AddAssoc(a, c, add(b, d));
    }

    lemma MulLeft(a: Elem, b: Elem, c: Elem)
      requires Laws()
      ensures mul(a, mul(b, c)) == mul(b, mul(a, c))
    {
      MulAssoc(a, b, c);
      MulComm(a, b);
      MulAssoc(b, a, c);
    }

    lemma MulSwap(a: Elem, b: Elem, c: Elem, d: Elem)
      requires Laws()
      ensures mul(mul(a, b), mul(c, d)) == mul(mul(a, c), mul(b, d))
    {
      MulAssoc(a, b, mul(c, d));
      MulLeft(b, c, d);
      MulAssoc(a, c, mul(b, d));
    }

    /** The folding step as a weighted pair: a + r(a + b) = (1 + r)a + rb. */
    lemma LerpSplit(a: Elem, b: Elem, r: Elem)
      requires Laws()
      ensures Lerp(a, b, r) == add(mul(add(one, r), a), mul(r, b))
    {
      Dist(r, a, b);
      Dist(a, one, r);
      MulOne(a);
      AddAssoc(a, mul(r, a), mul(r, b));
    }

    lemma LerpScale(s: Elem, a: Elem, b: Elem, r: Elem)
      requires Laws()
      ensures Lerp(mul(s, a), mul(s, b), r) == mul(s, Lerp(a, b, r))
    {
      Dist(s, a, b);
      MulLeft(r, s, add(a, b));
      Dist(s, a, mul(r, add(a, b)));
    }

    /** Squaring, and its k-fold repetition a^(2^k). */
    function Square(a: Elem): Elem {
      mul(a, a)
    }

    function Frob(a: Elem, k: nat): Elem {
      if k == 0 then a else Square(Frob(a, k - 1))
    }

    lemma SquareAdd(a: Elem, b: Elem)
      requires Laws()
      ensures Square(add(a, b)) == add(Square(a), Square(b))
    {
      Dist(add(a, b), a, b);
      Dist(a, a, b);
      Dist(b, a, b);
      MulComm(a, b);
      AddComm(mul(a, b), mul(b, b));
      AddSwap(mul(a, a), mul(a, b), mul(b, b), mul(a, b));
      AddSelf(mul(a, b));
      AddZero(add(mul(a, a), mul(b, b)));
    }

    lemma {:induction false} FrobAdd(a: Elem, b: Elem, k: nat)
      requires Laws()
      ensures Frob(add(a, b), k) == add(Frob(a, k), Frob(b, k))
    {
      if k > 0 {
        FrobAdd(a, b, k - 1);
        SquareAdd(Frob(a, k - 1), Frob(b, k - 1));
      }
    }

    lemma {:induction false} FrobMul(a: Elem, b: Elem, k: nat)
      requires Laws()
      ensures Frob(mul(a, b), k) == mul(Frob(a, k), Frob(b, k))
    {
      if k > 0 {
        FrobMul(a, b, k - 1);
        var x, y := Frob(a, k - 1), Frob(b, k - 1);
        MulSwap(x, y, x, y);
      }
    }

    lemma {:induction false} FrobFrob(a: Elem, j: nat, k: nat)
      ensures Frob(Frob(a, j), k) == Frob(a, j + k)
    {
      if k > 0 {
        FrobFrob(a, j, k - 1);
      }
    }

    lemma {:induction false} FrobConst(k: nat)
      requires Laws()
      ensures Frob(zero, k) == zero && Frob(one, k) == one
    {
      if k > 0 {
        FrobConst(k - 1);
        MulZero(zero);
        MulOne(one);
      }
    }
  }
}
