/** K = GF(2)[x] / (x^64 + x^4 + x^3 + x + 1), as field.rs computes in it: a carry-less product
    and one reduction. The reduction is exact, so K is a commutative ring. */
module FieldBase {
  import opened Rings
  import opened Multilinear
  import opened Bits
  import opened Carryless

  const MODULUS: nat := 0x1_0000_0000_0000_001B

  lemma LimbPower()
    ensures Pow2(64) == 0x1_0000_0000_0000_0000
  {
    Pow2Values();
    Pow2Add(16, 16);
    Pow2Add(32, 32);
  }

  /** A shift of a 64-bit word. */
  function Left(v: nat, k: nat): nat {
    Low(Pow2(k) * v, 64)
  }

  function Spill(hi: nat): nat {
    Xor(Xor(Shift(hi, 63), Shift(hi, 61)), Shift(hi, 60))
  }

  /** What the high half leaves to fold down, once its own overflow is folded in. */
  function Fold(p: nat): nat {
    Xor(Shift(p, 64), Spill(Shift(p, 64)))
  }

  /** `reduce`. */
  function Reduce(p: nat): nat {
    var v := Fold(p);
    Xor(Low(p, 64), Xor(v, Xor(Left(v, 1), Xor(Left(v, 3), Left(v, 4)))))
  }

  lemma FoldBound(p: nat)
    requires p < Pow2(128)
    ensures Shift(p, 64) < Pow2(64) && Spill(Shift(p, 64)) < Pow2(4) && Fold(p) < Pow2(64)
  {
    hide Xor, Shift, Pow2;
    var hi := Shift(p, 64);
    ShiftBound(p, 64, 64);
    ShiftBound(hi, 63, 1);
    ShiftBound(hi, 61, 3);
    ShiftBound(hi, 60, 4);
    Pow2Mono(1, 4);
    Pow2Mono(3, 4);
    Pow2Mono(4, 64);
    XorBound(Shift(hi, 63), Shift(hi, 61), 4);
    XorBound(Xor(Shift(hi, 63), Shift(hi, 61)), Shift(hi, 60), 4);
    XorBound(hi, Spill(hi), 64);
  }

  /** The overflow of the folded half is what was folded in. */
  lemma SpillSettles(p: nat)
    requires p < Pow2(128)
    ensures Spill(Fold(p)) == Spill(Shift(p, 64))
  {
    hide Xor, Shift, Pow2;
    var hi, v := Shift(p, 64), Fold(p);
    FoldBound(p);
    HighBits(hi, Spill(hi), 63);
    HighBits(hi, Spill(hi), 61);
    HighBits(hi, Spill(hi), 60);
  }

  lemma HighBits(hi: nat, s: nat, c: nat)
    requires s < Pow2(4) && c >= 4
    ensures Shift(Xor(hi, s), c) == Shift(hi, c)
  {
    hide Xor, Shift, Pow2;
    XorShift(hi, s, c);
    Pow2Mono(4, c);
    LowSmall(s, c);
    XorNone(Shift(hi, c));
  }

  /** v (x^4 + x^3 + x + 1). */
  function Tail(v: nat): nat {
    Xor(v, Xor(2 * v, Xor(8 * v, 16 * v)))
  }

  lemma TailIs(v: nat)
    ensures Clmul(v, 27) == Tail(v)
  {
    hide Xor, Clmul;
    ClStep(v, 27);
    ClStep(v, 13);
    ClEven(v, 3);
    ClStep(v, 3);
    ClOne(v);
    XorDouble(v, 2 * v);
    XorDouble(2 * v, 4 * v);
    XorDouble(4 * v, 8 * v);
    XorDouble(v, 2 * (2 * Xor(v, 2 * v)));
  }

  lemma ModulusTimes(v: nat)
    ensures Clmul(v, MODULUS) == Xor(Tail(v), Pow2(64) * v)
  {
    hide Xor, Clmul, Pow2, Tail;
    LimbPower();
    XorDisjoint(27, 64, 1);
    assert Pow2(64) * 1 == Pow2(64);
    ClDist(v, 27, Pow2(64));
    TailIs(v);
    ClPower(v, 64);
  }

  lemma ShiftLeft(v: nat, k: nat)
    requires k <= 64
    ensures Shift(Pow2(k) * v, 64) == Shift(v, 64 - k)
  {
    hide Shift, Pow2;
    AddHigh(0, k, v, k);
    ShiftZero(k);
    assert Pow2(0) == 1 by {
      OneOnly();
    }
    assert Shift(Pow2(k) * v, k) == v;
    ShiftShift(Pow2(k) * v, k, 64 - k);
  }

  lemma OneOnly()
    ensures Pow2(0) == 1 && Pow2(1) == 2 && Pow2(3) == 8 && Pow2(4) == 16
  {
    assert Pow2(2) == 4;
  }

  lemma TailParts(v: nat)
    requires v < Pow2(64)
    ensures Low(Tail(v), 64) == Xor(v, Xor(Left(v, 1), Xor(Left(v, 3), Left(v, 4))))
    ensures Shift(Tail(v), 64) == Spill(v)
  {
    hide Xor, Shift, Low, Pow2;
    OneOnly();
    LowSmall(v, 64);
    XorShift(v, Xor(2 * v, Xor(8 * v, 16 * v)), 64);
    XorShift(2 * v, Xor(8 * v, 16 * v), 64);
    XorShift(8 * v, 16 * v, 64);
    ShiftLeft(v, 1);
    ShiftLeft(v, 3);
    ShiftLeft(v, 4);
    var a, b, c := Shift(v, 63), Shift(v, 61), Shift(v, 60);
    XorNone(Xor(a, Xor(b, c)));
    XorAssoc(a, b, c);
  }

  /** `reduce` subtracts a multiple of the modulus, and what is left fits a word. */
  lemma ReduceIs(p: nat)
    requires p < Pow2(128)
    ensures Reduce(p) == Xor(p, Clmul(Fold(p), MODULUS)) && Reduce(p) < Pow2(64)
  {
    hide Xor, Shift, Low, Pow2, Clmul, Fold, Left, Spill, Tail;
    var hi, v := Shift(p, 64), Fold(p);
    var r, m := Reduce(p), Clmul(v, MODULUS);
    FoldBound(p);
    ReduceBound(p);
    ModulusTimes(v);
    XorShift(p, m, 64);
    XorShift(Tail(v), Pow2(64) * v, 64);
    TailParts(v);
    ShiftZero(64);
    AddHigh(0, 64, v, 64);
    OneOnly();
    LowSmall(r, 64);
    SpillSettles(p);
    FoldCancels(p);
    XorNone(Low(Tail(v), 64));
    SameParts(r, Xor(p, m), 64);
  }

  lemma FoldCancels(p: nat)
    ensures Xor(Shift(p, 64), Xor(Spill(Shift(p, 64)), Fold(p))) == 0
  {
    hide Xor, Shift, Spill;
    var hi, s := Shift(p, 64), Spill(Shift(p, 64));
    XorAssoc(hi, s, Xor(hi, s));
    XorSelf(Xor(hi, s));
  }

  lemma ReduceBound(p: nat)
    requires p < Pow2(128)
    ensures Reduce(p) < Pow2(64)
  {
    hide Xor, Shift, Low, Pow2, Spill;
    var v := Fold(p);
    FoldBound(p);
    LowBound(p, 64);
    LowBound(Pow2(1) * v, 64);
    LowBound(Pow2(3) * v, 64);
    LowBound(Pow2(4) * v, 64);
    XorBound(Left(v, 3), Left(v, 4), 64);
    XorBound(Left(v, 1), Xor(Left(v, 3), Left(v, 4)), 64);
    XorBound(v, Xor(Left(v, 1), Xor(Left(v, 3), Left(v, 4))), 64);
    XorBound(Low(p, 64), Xor(v, Xor(Left(v, 1), Xor(Left(v, 3), Left(v, 4)))), 64);
  }

  /** Words that differ by a multiple of the modulus are equal. */
  lemma Unique(a: nat, b: nat, k: nat)
    requires a < Pow2(64) && b < Pow2(64) && Xor(a, b) == Clmul(k, MODULUS)
    ensures a == b
  {
    hide Xor, Shift, Pow2, Clmul;
    XorBound(a, b, 64);
    LowSmall(Xor(a, b), 64);
    ClComm(k, MODULUS);
    if k > 0 {
      ModulusTop();
      ClDegree(MODULUS, 64, k);
    } else {
      ClZero(MODULUS);
      XorCancel(a, b);
      XorNone(b);
    }
  }

  lemma ModulusTop()
    ensures Shift(MODULUS, 64) == 1
  {
    hide Shift, Pow2;
    LimbPower();
    Join(27, 64, 1);
  }

  // ---- the ring --------------------------------------------------------------------------------

  function KAdd(a: Limb, b: Limb): Limb {
    LimbPower();
    XorBound(a, b, 64);
    Xor(a, b)
  }

  /** The product of two words has 128 bits. */
  lemma ProductBound(a: Limb, b: Limb)
    ensures Clmul(a, b) < Pow2(128)
  {
    hide Pow2, Clmul;
    LimbPower();
    ClBound(a, 64, b, 64);
  }

  function KMul(a: Limb, b: Limb): Limb {
    LimbPower();
    ProductBound(a, b);
    ReduceBound(Clmul(a, b));
    Reduce(Clmul(a, b))
  }

  lemma ReduceAdd(p: nat, q: nat)
    requires p < Pow2(128) && q < Pow2(128)
    ensures Xor(p, q) < Pow2(128) && Reduce(Xor(p, q)) == Xor(Reduce(p), Reduce(q))
  {
    hide Xor, Pow2, Clmul, Fold, Reduce;
    XorBound(p, q, 128);
    ReduceIs(p);
    ReduceIs(q);
    ReduceIs(Xor(p, q));
    var a, b, c := Fold(p), Fold(q), Fold(Xor(p, q));
    var ma, mb, mc := Clmul(a, MODULUS), Clmul(b, MODULUS), Clmul(c, MODULUS);
    XorSwap(p, ma, q, mb);
    XorBound(Reduce(p), Reduce(q), 64);
    var s := Xor(p, q);
    XorSwap(s, mc, s, Xor(ma, mb));
    XorSelf(s);
    XorNone(Xor(mc, Xor(ma, mb)));
    ClDistRight(a, b, MODULUS);
    ClDistRight(c, Xor(a, b), MODULUS);
    Unique(Reduce(s), Xor(Reduce(p), Reduce(q)), Xor(c, Xor(a, b)));
  }

  lemma KDist(a: Limb, b: Limb, c: Limb)
    ensures KMul(a, KAdd(b, c)) == KAdd(KMul(a, b), KMul(a, c))
  {
    hide Xor, Pow2, Clmul, Reduce;
    ClDist(a, b, c);
    ProductBound(a, b);
    ProductBound(a, c);
    ReduceAdd(Clmul(a, b), Clmul(a, c));
  }

  lemma KComm(a: Limb, b: Limb)
    ensures KMul(a, b) == KMul(b, a) && KAdd(a, b) == KAdd(b, a)
  {
    hide Xor, Clmul, Reduce;
    ClComm(a, b);
    XorComm(a, b);
  }

  lemma KOne(a: Limb)
    ensures KMul(a, 1) == a && KMul(a, 0) == 0 && KAdd(a, 0) == a && KAdd(0, a) == a && KAdd(a, a) == 0
  {
    hide Xor, Clmul, Pow2, Reduce;
    LimbPower();
    ClOne(a);
    ClZero(a);
    XorNone(a);
    XorSelf(a);
    SmallReduce(a);
    SmallReduce(0);
  }

  /** A word is its own remainder. */
  lemma SmallReduce(a: nat)
    requires a < Pow2(64)
    ensures Reduce(a) == a
  {
    hide Xor, Clmul, Pow2, Reduce, Shift;
    Pow2Mono(64, 128);
    ReduceIs(a);
    LowSmall(a, 64);
    ShiftZero(63);
    ShiftZero(61);
    ShiftZero(60);
    XorNone(0);
    ClZero(MODULUS);
    XorNone(a);
  }

  /** Reducing a factor first does not change a product's remainder. */
  lemma ReduceFactor(p: nat, c: Limb, q: nat)
    requires p < Pow2(128) && q == Clmul(p, c)
    ensures exists k: nat :: Xor(Clmul(Reduce(p), c), q) == Clmul(k, MODULUS)
  {
    hide Xor, Clmul, Pow2, Reduce, Fold;
    ReduceIs(p);
    var m := Clmul(Fold(p), MODULUS);
    ClDistRight(p, m, c);
    XorAssoc(q, Clmul(m, c), q);
    XorComm(Clmul(m, c), q);
    XorCancel(Clmul(m, c), q);
    ClAssoc(Fold(p), MODULUS, c);
    ClComm(MODULUS, c);
    ClAssoc(Fold(p), c, MODULUS);
    assert Xor(Clmul(Reduce(p), c), q) == Clmul(Clmul(Fold(p), c), MODULUS);
  }

  lemma {:induction false} KAssoc(a: Limb, b: Limb, c: Limb)
    ensures KMul(KMul(a, b), c) == KMul(a, KMul(b, c))
  {
    hide Xor, Clmul, Pow2, Reduce, Fold;
    LimbPower();
    ProductBound(a, b);
    ProductBound(b, c);
    var ab, bc, abc := Clmul(a, b), Clmul(b, c), Clmul(Clmul(a, b), c);
    ClAssoc(a, b, c);
    ClComm(bc, a);
    ReduceFactor(ab, c, abc);
    ReduceFactor(bc, a, abc);
    ClComm(KMul(b, c), a);
    var p, q := Clmul(KMul(a, b), c), Clmul(a, KMul(b, c));
    var k: nat :| Xor(p, abc) == Clmul(k, MODULUS);
    var l: nat :| Xor(q, abc) == Clmul(l, MODULUS);
    ProductBound(KMul(a, b), c);
    ProductBound(a, KMul(b, c));
    ReduceIs(p);
    ReduceIs(q);
    var u, v := Clmul(Fold(p), MODULUS), Clmul(Fold(q), MODULUS);
    Difference(p, q, abc, u, v, Clmul(k, MODULUS), Clmul(l, MODULUS));
    ClDistRight(Fold(p), Fold(q), MODULUS);
    ClDistRight(k, l, MODULUS);
    ClDistRight(Xor(k, l), Xor(Fold(p), Fold(q)), MODULUS);
    Unique(Reduce(p), Reduce(q), Xor(Xor(k, l), Xor(Fold(p), Fold(q))));
  }

  lemma Difference(p: nat, q: nat, s: nat, u: nat, v: nat, k: nat, l: nat)
    requires Xor(p, s) == k && Xor(q, s) == l
    ensures Xor(Xor(p, u), Xor(q, v)) == Xor(Xor(k, l), Xor(u, v))
  {
    hide Xor;
    XorSwap(p, u, q, v);
    XorSwap(p, s, q, s);
    XorSelf(s);
    XorNone(Xor(p, q));
  }
}
