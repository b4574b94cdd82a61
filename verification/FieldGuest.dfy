/** The guest's field is field.rs's: with its generator x and its y, E satisfies what the guest's
    proofs ask of a field. */
module FieldGuest {
  import opened Rings
  import opened Multilinear
  import opened Polynomials
  import opened Bits
  import opened Carryless
  import opened FieldBase
  import opened FieldRing
  import opened FieldInverse
  import opened FieldUnits
  import opened FieldDomain
  import opened GuestField

  /** GEN: x itself. */
  const GENERATOR := Elem(2, 0, 0)

  function PowerMap(n: nat): Elem -> Elem {
    (a: Elem) => Of(a, n)
  }

  function InBase(): Elem -> bool {
    (a: Elem) => a.c1 == 0 && a.c2 == 0
  }

  /** E as the guest uses it: its inverse is the power n. */
  function EGuest(n: nat, order: nat): Field {
    Field(EField(), GENERATOR, Y, PowerMap(n), InBase(), order)
  }

  // ---- polynomials in the generator ----------------------------------------------------------------

  lemma Doubles(m: nat)
    requires 2 * m < 0x1_0000_0000_0000_0000
    ensures KMul(2, m) == 2 * m
  {
    hide Clmul, Reduce;
    LimbPower();
    OneOnly();
    hide Pow2;
    ClPower(m, 1);
    ClComm(2, m);
    SmallReduce(2 * m);
  }

  lemma BitAdded(n: nat)
    ensures Xor(n % 2, 2 * (n / 2)) == n
  {
    OneOnly();
    hide Xor, Pow2;
    XorDisjoint(n % 2, 1, n / 2);
  }

  /** The polynomial of n's bits is the word n. */
  lemma {:induction false} EmbIs(n: nat, e: nat, order: nat)
    requires n < 0x1_0000_0000_0000_0000
    ensures EGuest(e, order).Emb(n) == In(n)
    decreases n
  {
    if n > 0 {
      var F := EGuest(e, order);
      hide KMul, EMul, KAdd;
      EmbIs(n / 2, e, order);
      KInE(2, n / 2);
      Doubles(n / 2);
      EmbAdds(n);
      assert F.Emb(n) == EAdd(F.BitElem(n), EMul(GENERATOR, F.Emb(n / 2)));
    }
  }

  lemma EmbAdds(n: Limb)
    ensures EAdd(In(n % 2), In(2 * (n / 2))) == In(n)
  {
    hide KAdd;
    BitAdded(n);
    SumOfWords(n % 2, 2 * (n / 2));
    NoneAdded(0);
  }

  lemma SumOfWords(a: Limb, b: Limb)
    ensures KAdd(a, b) == Xor(a, b)
  {
    hide Xor;
  }

  lemma PairIs(a: nat, b: nat, e: nat, order: nat)
    requires a < 0x1_0000_0000_0000_0000 && b < 0x1_0000_0000_0000_0000
    ensures EGuest(e, order).Pair(a, b) == Elem(a, b, 0)
  {
    hide EMul, KAdd;
    EmbIs(a, e, order);
    EmbIs(b, e, order);
    hide Field.Emb;
    YTimes(b);
    Units();
    NoneAdded(a);
    NoneAdded(b);
  }

  // ---- the generator's order -----------------------------------------------------------------------

  /** Powers that agree do so because their exponents do. */
  ghost predicate IsOrder(order: nat) {
    order > 1 && forall j: nat, k: nat {:trigger Compare(j, k, 0, 0)} ::
      EGuest(0, order).Pow(j) == EGuest(0, order).Pow(k) ==> j % order == k % order
  }

  lemma {:induction false} PowIs(k: nat, e: nat, order: nat)
    ensures EGuest(e, order).Pow(k) == Of(GENERATOR, k)
  {
    hide EMul, Power;
    FirstPowers(GENERATOR, 0);
    if k > 0 {
      PowIs(k - 1, e, order);
      FirstPowers(GENERATOR, k - 1);
    }
  }

  /** A period of the generator, from the power that is 1. */
  lemma Period() returns (n: nat)
    ensures n >= 1 && Of(GENERATOR, n) == In(1)
  {
    hide Of, EMul;
    n := OwnSquare(GENERATOR);
    OnlyIdempotents(Of(GENERATOR, n));
    if Of(GENERATOR, n) == In(0) {
      NoPowerZero(GENERATOR, n);
    }
  }

  ghost predicate NoPeriod(n: nat) {
    1 <= n ==> Of(GENERATOR, n) != In(1)
  }

  lemma {:induction false} Least(n: nat) returns (d: nat)
    requires n >= 1 && Of(GENERATOR, n) == In(1)
    ensures 1 <= d && Of(GENERATOR, d) == In(1) && forall k: nat :: k < d ==> NoPeriod(k)
    decreases n
  {
    hide Of;
    if m: nat :| m < n && !NoPeriod(m) {
      d := Least(m);
    } else {
      d := n;
    }
  }

  lemma Residue(d: nat, j: nat, k: nat)
    requires 1 <= d && Of(GENERATOR, d) == In(1) && forall m: nat :: m < d ==> NoPeriod(m)
    requires k <= j && Of(GENERATOR, j) == Of(GENERATOR, k)
    ensures j % d == k % d
  {
    hide Of, EMul;
    var t := j - k;
    var q, r := t / d, t % d;
    Quotient(t, d);
    OfAdd(GENERATOR, k, t);
    CancelPower(k, Of(GENERATOR, t));
    OfAdd(GENERATOR, q * d, r);
    OfOf(GENERATOR, d, q, d * q);
    assert d * q == q * d;
    OnePowers(q);
    EMulComm(In(1), Of(GENERATOR, r));
    EMulOne(Of(GENERATOR, r));
    assert NoPeriod(r);
    SameResidue(j, k, q, d);
  }

  lemma Quotient(t: nat, d: nat)
    requires d >= 1
    ensures t == (t / d) * d + t % d && 0 <= t % d < d && (t / d) * d >= 0
  {
    TimesNat(t / d, d);
  }

  lemma SameResidue(j: nat, k: nat, q: nat, d: nat)
    requires d >= 1 && j == k + q * d
    ensures j % d == k % d
  {
    Quotient(k, d);
    assert j == (k / d + q) * d + k % d;
    DivUnique(j, d, k / d + q, k % d);
  }

  lemma {:induction false} OnePowers(q: nat)
    ensures Of(In(1), q) == In(1)
  {
    hide EMul, Of;
    OfAdd(In(1), 0, 0);
    if q > 0 {
      OnePowers(q - 1);
      OfAdd(In(1), 1, q - 1);
      EMulOne(In(1));
    }
  }

  lemma CancelPower(k: nat, b: Elem)
    requires EMul(Of(GENERATOR, k), b) == Of(GENERATOR, k)
    ensures b == In(1)
  {
    hide EMul, Of;
    var p := Of(GENERATOR, k);
    if p == In(0) {
      if k == 0 {
        OfAdd(GENERATOR, 0, 0);
      } else {
        NoPowerZero(GENERATOR, k);
      }
    } else {
      var i := EHasInverse(p);
      EMulComm(p, i);
      EMulAssoc(i, p, b);
      EMulComm(In(1), b);
      EMulOne(b);
    }
  }

  /** The generator has an order. */
  lemma OrderExists() returns (order: nat)
    ensures IsOrder(order)
  {
    hide Of, EMul, Field.Pow;
    var n := Period();
    order := Least(n);
    OfAdd(GENERATOR, 0, 0);
    forall j: nat, k: nat | EGuest(0, order).Pow(j) == EGuest(0, order).Pow(k)
      ensures j % order == k % order
    {
      PowIs(j, 0, order);
      PowIs(k, 0, order);
      if k <= j {
        Residue(order, j, k);
      } else {
        Residue(order, k, j);
      }
    }
  }

  // ---- the guest's field ---------------------------------------------------------------------------

  /** `E::inv`'s power inverts. */
  lemma PowerInverts(a: Elem, n: nat)
    requires n == 0x1_0000_0000_0000_0000_0000_0000_0000_0000_0000_0000_0000_0000 - 2
    ensures a != In(0) ==> EMul(a, Of(a, n)) == In(1)
  {
    hide Of, EMul, Power;
    InvertIs(a, Power(EField(), In(Norm(a).c0), 0xFFFF_FFFF_FFFF_FFFE), n);
  }

  /** E, with the generator, y, `E::inv` and `assert_in_k`'s test, is a field as the guest's proofs
      ask for it. */
  lemma EIsGuestField(n: nat, order: nat)
    requires n == 0x1_0000_0000_0000_0000_0000_0000_0000_0000_0000_0000_0000_0000 - 2 && IsOrder(order)
    ensures EGuest(n, order).Valid()
  {
    hide Of, EMul, Power, KMul, KAdd, EAdd, Field.Emb, Field.Pow, Field.Pair, Pow2;
    var F := EGuest(n, order);
    LimbPower();
    EFieldLaws();
    EFieldDomain();
    forall a: nat, b: nat, c: nat, d: nat
      | a < Pow2(64) && b < Pow2(64) && c < Pow2(64) && d < Pow2(64) && F.Pair(a, b) == F.Pair(c, d)
      ensures a == c && b == d
    {
      PairIs(a, b, n, order);
      PairIs(c, d, n, order);
    }
    forall j: nat, k: nat | F.Pow(j) == F.Pow(k)
      ensures j % order == k % order
    {
      PowIs(j, n, order);
      PowIs(k, n, order);
      PowIs(j, 0, order);
      PowIs(k, 0, order);
      assert Compare(j, k, 0, 0);
    }
    forall a | a != F.R.zero
      ensures F.R.mul(a, F.inv(a)) == F.R.one
    {
      PowerInverts(a, n);
    }
    forall a
      ensures F.inK(a) <==> exists b: nat :: b < Pow2(64) && a == F.Emb(b)
    {
      if F.inK(a) {
        EmbIs(a.c0, n, order);
        assert a == F.Emb(a.c0);
      }
      if b: nat :| b < Pow2(64) && a == F.Emb(b) {
        EmbIs(b, n, order);
      }
    }
  }
}
