/** Squaring in K (field.rs) bit by bit. It is linear over GF(2), and that system of 64 equations
    decides which words square to themselves and which to zero: what makes K a field. */
module FieldBits {
  import opened Rings
  import opened Multilinear
  import opened Bits
  import opened Carryless
  import opened FieldBase
  import opened Squares

  predicate Has(a: nat, k: nat) {
    Bit(a, k) == 1
  }

  lemma {:induction false} XorHas(a: nat, b: nat, k: nat)
    ensures Has(Xor(a, b), k) == (Has(a, k) != Has(b, k))
    decreases k
  {
    XorBit(a, b);
    hide Xor;
    if k > 0 {
      XorHas(a / 2, b / 2, k - 1);
    }
  }

  lemma UpHas(a: nat, s: nat, k: nat)
    ensures Has(Pow2(s) * a, k) == (s <= k && Has(a, k - s))
  {
    hide Low, Shift, Bit, Pow2;
    AddHigh(0, s, a, s);
    PowZero();
    ShiftZero(s);
    if k < s {
      BitLow(Pow2(s) * a, s, k);
      ShiftZero(k);
    } else {
      assert Shift(Pow2(s) * a, s) == a;
      BitShift(Pow2(s) * a, s, k - s);
    }
  }

  lemma PowZero()
    ensures Pow2(0) == 1
  {
  }

  lemma LeftHas(v: nat, s: nat, k: nat)
    requires k < 64
    ensures Has(Left(v, s), k) == (s <= k && Has(v, k - s))
  {
    hide Low, Bit, Pow2;
    BitLow(Pow2(s) * v, 64, k);
    UpHas(v, s, k);
  }

  lemma ShiftHas(n: nat, c: nat, k: nat)
    ensures Has(Shift(n, c), k) == Has(n, c + k)
  {
    hide Bit, Shift;
    BitShift(n, c, k);
  }

  /** What is folded down, bit by bit. */
  predicate FoldHas(p: nat, k: nat) {
    Has(p, 64 + k) != ((Has(p, 127 + k) != Has(p, 125 + k)) != Has(p, 124 + k))
  }

  lemma FoldBit(p: nat, k: nat)
    ensures Has(FieldBase.Fold(p), k) == FoldHas(p, k)
  {
    hide Bit, Shift, Xor, Has;
    var hi := Shift(p, 64);
    XorHas(hi, Spill(hi), k);
    XorHas(Xor(Shift(hi, 63), Shift(hi, 61)), Shift(hi, 60), k);
    XorHas(Shift(hi, 63), Shift(hi, 61), k);
    ShiftHas(hi, 63, k);
    ShiftHas(hi, 61, k);
    ShiftHas(hi, 60, k);
    ShiftHas(p, 64, 63 + k);
    ShiftHas(p, 64, 61 + k);
    ShiftHas(p, 64, 60 + k);
    ShiftHas(p, 64, k);
  }

  predicate ReduceHas(p: nat, k: nat) {
    Has(p, k) != (FoldHas(p, k) != ((k >= 1 && FoldHas(p, k - 1)) != ((k >= 3 && FoldHas(p, k - 3)) != (k >= 4 && FoldHas(p, k - 4)))))
  }

  lemma ReduceBit(p: nat, k: nat)
    requires k < 64
    ensures Has(Reduce(p), k) == ReduceHas(p, k)
  {
    hide Bit, Low, Xor, Has, FieldBase.Fold, FoldHas, Left;
    var v := FieldBase.Fold(p);
    LowHas(p, k);
    XorHas(Low(p, 64), Xor(v, Xor(Left(v, 1), Xor(Left(v, 3), Left(v, 4)))), k);
    XorHas(v, Xor(Left(v, 1), Xor(Left(v, 3), Left(v, 4))), k);
    XorHas(Left(v, 1), Xor(Left(v, 3), Left(v, 4)), k);
    XorHas(Left(v, 3), Left(v, 4), k);
    LeftHas(v, 1, k);
    LeftHas(v, 3, k);
    LeftHas(v, 4, k);
    FoldBit(p, k);
    if k >= 1 {
      FoldBit(p, k - 1);
    }
    if k >= 3 {
      FoldBit(p, k - 3);
    }
    if k >= 4 {
      FoldBit(p, k - 4);
    }
  }

  lemma LowHas(p: nat, k: nat)
    requires k < 64
    ensures Has(Low(p, 64), k) == Has(p, k)
  {
    hide Bit, Low;
    BitLow(p, 64, k);
  }

  lemma {:induction false} SpacedHas(a: nat, k: nat)
    ensures Has(Spaced(a, 1), k) == (k % 2 == 0 && Has(a, k / 2))
    decreases k
  {
    hide Spaced, Bit;
    SpacedNext(a, 1);
    LowShiftOne(a);
    var s := Spaced(a / 2, 1);
    assert Spaced(a, 1) == a % 2 + 4 * s;
    BitTwice(Spaced(a, 1), k);
    BitTwice(a, k / 2);
    if k >= 2 {
      SpacedHas(a / 2, k - 2);
      assert (a % 2 + 4 * s) / 2 / 2 == s && (k - 2) / 2 == k / 2 - 1;
    }
  }

  lemma LowShiftOne(a: nat)
    ensures Low(a, 1) == a % 2 && Shift(a, 1) == a / 2 && Pow2(2 * 1) == 4
  {
  }

  lemma BitTwice(a: nat, k: nat)
    ensures k == 0 ==> Bit(a, k) == a % 2
    ensures k == 1 ==> Bit(a, k) == a / 2 % 2
    ensures k >= 1 ==> Bit(a, k) == Bit(a / 2, k - 1)
    ensures k >= 2 ==> Bit(a, k) == Bit(a / 2 / 2, k - 2)
  {
  }

  // ---- the square ------------------------------------------------------------------------------

  /** Bit j of the carry-less square. */
  predicate Twice(a: nat, j: nat) {
    j % 2 == 0 && Has(a, j / 2)
  }

  predicate TwiceFold(a: nat, k: nat) {
    Twice(a, 64 + k) != ((Twice(a, 127 + k) != Twice(a, 125 + k)) != Twice(a, 124 + k))
  }

  /** Bit k of the square in K. */
  predicate SquareHas(a: nat, k: nat) {
    Twice(a, k) != (TwiceFold(a, k) != ((k >= 1 && TwiceFold(a, k - 1)) != ((k >= 3 && TwiceFold(a, k - 3)) != (k >= 4 && TwiceFold(a, k - 4)))))
  }

  lemma SquareBit(a: Limb, k: nat)
    requires k < 64
    ensures Has(KMul(a, a), k) == SquareHas(a, k)
  {
    hide Has, Clmul, Spaced, Reduce, Pow2;
    var p := Clmul(a, a);
    LimbPower();
    SquareIsSpaced(a);
    ReduceBit(p, k);
    forall j: nat
      ensures Has(p, j) == Twice(a, j)
    {
      SpacedHas(a, j);
    }
  }

  // ---- the linear system -----------------------------------------------------------------------

  /** Bits 2m and 2m + 1 of the square: past the first few, the modulus adds two upper bits. */
  predicate Rows(a: nat, m: nat) {
    && (4 <= m < 32 ==> SquareHas(a, 2 * m) == (Has(a, m) != (Has(a, 32 + m) != Has(a, 30 + m))))
    && (2 <= m < 32 ==> SquareHas(a, 2 * m + 1) == (Has(a, 32 + m) != Has(a, 31 + m)))
  }

  lemma RowsOf(a: Limb, m: nat)
    ensures Rows(a, m)
  {
    hide Has;
    forall k: nat | k >= 64
      ensures !Has(a, k)
    {
      Above(a, k);
    }
  }

  /** The first few bits. */
  predicate FirstRows(a: nat) {
    var top := Has(a, 62) != Has(a, 63);
    && SquareHas(a, 0) == (Has(a, 0) != (Has(a, 32) != Has(a, 62)))
    && SquareHas(a, 1) == (Has(a, 32) != top)
    && SquareHas(a, 2) == (Has(a, 1) != Has(a, 33))
    && SquareHas(a, 3) == (Has(a, 33) != (Has(a, 32) != top))
    && SquareHas(a, 4) == (Has(a, 2) != (Has(a, 34) != (Has(a, 32) != top)))
    && SquareHas(a, 6) == (Has(a, 3) != (Has(a, 35) != (Has(a, 33) != Has(a, 63))))
  }

  lemma FirstRowsOf(a: Limb)
    ensures FirstRows(a)
  {
    hide Has;
    forall k: nat | k >= 64
      ensures !Has(a, k)
    {
      Above(a, k);
    }
  }

  lemma Above(a: Limb, k: nat)
    requires k >= 64
    ensures !Has(a, k)
  {
    hide Bit, Pow2;
    LimbPower();
    LowSmall(a, 64);
    BitLow(a, 64, k);
  }

  predicate Fixed(a: nat, m: nat) {
    Rows(a, m) && Has(a, 2 * m) == SquareHas(a, 2 * m) && Has(a, 2 * m + 1) == SquareHas(a, 2 * m + 1)
  }

  /** Bits 1 to 63 of a word that is its own square are zero. */
  lemma FixedBits(a: nat)
    requires FirstRows(a) && forall m: nat :: m < 32 ==> Fixed(a, m)
    ensures forall k: nat :: 1 <= k < 64 ==> !Has(a, k)
  {
    hide Has, SquareHas;
    assert Fixed(a, 0) && Fixed(a, 1) && Fixed(a, 2) && Fixed(a, 3) && Fixed(a, 4) && Fixed(a, 5) && Fixed(a, 6) && Fixed(a, 7)
        && Fixed(a, 8) && Fixed(a, 9) && Fixed(a, 10) && Fixed(a, 11) && Fixed(a, 12) && Fixed(a, 13) && Fixed(a, 14) && Fixed(a, 15)
        && Fixed(a, 16) && Fixed(a, 17) && Fixed(a, 18) && Fixed(a, 19) && Fixed(a, 20) && Fixed(a, 21) && Fixed(a, 22) && Fixed(a, 23)
        && Fixed(a, 24) && Fixed(a, 25) && Fixed(a, 26) && Fixed(a, 27) && Fixed(a, 28) && Fixed(a, 29) && Fixed(a, 30) && Fixed(a, 31);
    assert !Has(a, 1) && !Has(a, 2) && !Has(a, 3) && !Has(a, 4) && !Has(a, 5) && !Has(a, 6) && !Has(a, 7) && !Has(a, 8)
        && !Has(a, 9) && !Has(a, 10) && !Has(a, 11) && !Has(a, 12) && !Has(a, 13) && !Has(a, 14) && !Has(a, 15) && !Has(a, 16)
        && !Has(a, 17) && !Has(a, 18) && !Has(a, 19) && !Has(a, 20) && !Has(a, 21) && !Has(a, 22) && !Has(a, 23) && !Has(a, 24)
        && !Has(a, 25) && !Has(a, 26) && !Has(a, 27) && !Has(a, 28) && !Has(a, 29) && !Has(a, 30) && !Has(a, 31) && !Has(a, 32)
        && !Has(a, 33) && !Has(a, 34) && !Has(a, 35) && !Has(a, 36) && !Has(a, 37) && !Has(a, 38) && !Has(a, 39) && !Has(a, 40)
        && !Has(a, 41) && !Has(a, 42) && !Has(a, 43) && !Has(a, 44) && !Has(a, 45) && !Has(a, 46) && !Has(a, 47) && !Has(a, 48)
        && !Has(a, 49) && !Has(a, 50) && !Has(a, 51) && !Has(a, 52) && !Has(a, 53) && !Has(a, 54) && !Has(a, 55) && !Has(a, 56)
        && !Has(a, 57) && !Has(a, 58) && !Has(a, 59) && !Has(a, 60) && !Has(a, 61) && !Has(a, 62) && !Has(a, 63);
  }

  predicate Zeroed(a: nat, m: nat) {
    Rows(a, m) && !SquareHas(a, 2 * m) && !SquareHas(a, 2 * m + 1)
  }

  /** Every bit of a word with square zero is zero. */
  lemma ZeroedBits(a: nat)
    requires FirstRows(a) && forall m: nat :: m < 32 ==> Zeroed(a, m)
    ensures forall k: nat :: k < 64 ==> !Has(a, k)
  {
    hide Has, SquareHas;
    assert Zeroed(a, 0) && Zeroed(a, 1) && Zeroed(a, 2) && Zeroed(a, 3) && Zeroed(a, 4) && Zeroed(a, 5) && Zeroed(a, 6) && Zeroed(a, 7)
        && Zeroed(a, 8) && Zeroed(a, 9) && Zeroed(a, 10) && Zeroed(a, 11) && Zeroed(a, 12) && Zeroed(a, 13) && Zeroed(a, 14) && Zeroed(a, 15)
        && Zeroed(a, 16) && Zeroed(a, 17) && Zeroed(a, 18) && Zeroed(a, 19) && Zeroed(a, 20) && Zeroed(a, 21) && Zeroed(a, 22) && Zeroed(a, 23)
        && Zeroed(a, 24) && Zeroed(a, 25) && Zeroed(a, 26) && Zeroed(a, 27) && Zeroed(a, 28) && Zeroed(a, 29) && Zeroed(a, 30) && Zeroed(a, 31);
    assert !Has(a, 0) && !Has(a, 1) && !Has(a, 2) && !Has(a, 3) && !Has(a, 4) && !Has(a, 5) && !Has(a, 6) && !Has(a, 7)
        && !Has(a, 8) && !Has(a, 9) && !Has(a, 10) && !Has(a, 11) && !Has(a, 12) && !Has(a, 13) && !Has(a, 14) && !Has(a, 15)
        && !Has(a, 16) && !Has(a, 17) && !Has(a, 18) && !Has(a, 19) && !Has(a, 20) && !Has(a, 21) && !Has(a, 22) && !Has(a, 23)
        && !Has(a, 24) && !Has(a, 25) && !Has(a, 26) && !Has(a, 27) && !Has(a, 28) && !Has(a, 29) && !Has(a, 30) && !Has(a, 31)
        && !Has(a, 32) && !Has(a, 33) && !Has(a, 34) && !Has(a, 35) && !Has(a, 36) && !Has(a, 37) && !Has(a, 38) && !Has(a, 39)
        && !Has(a, 40) && !Has(a, 41) && !Has(a, 42) && !Has(a, 43) && !Has(a, 44) && !Has(a, 45) && !Has(a, 46) && !Has(a, 47)
        && !Has(a, 48) && !Has(a, 49) && !Has(a, 50) && !Has(a, 51) && !Has(a, 52) && !Has(a, 53) && !Has(a, 54) && !Has(a, 55)
        && !Has(a, 56) && !Has(a, 57) && !Has(a, 58) && !Has(a, 59) && !Has(a, 60) && !Has(a, 61) && !Has(a, 62) && !Has(a, 63);
  }

  lemma NoBits(a: Limb)
    requires forall k: nat :: k < 64 ==> !Has(a, k)
    ensures a == 0
  {
    hide Bit, Low, Pow2;
    LimbPower();
    forall k: nat | k < 64
      ensures Bit(a, k) == 0
    {
      assert !Has(a, k);
    }
    ZeroBits(a, 64);
    LowSmall(a, 64);
  }

  /** Only 0 and 1 are their own squares in K. */
  lemma Idempotent(a: Limb)
    requires KMul(a, a) == a
    ensures a == 0 || a == 1
  {
    hide KMul, SquareHas, Has, KAdd;
    FirstRowsOf(a);
    forall m: nat | m < 32
      ensures Fixed(a, m)
    {
      RowsOf(a, m);
      SquareBit(a, 2 * m);
      SquareBit(a, 2 * m + 1);
    }
    FixedBits(a);
    OneBit(a);
  }

  lemma OneBit(a: Limb)
    requires forall k: nat :: 1 <= k < 64 ==> !Has(a, k)
    ensures a == 0 || a == 1
  {
    hide Has;
    forall k: nat | k < 64
      ensures !Has(a / 2, k)
    {
      HalfHas(a, k);
      if k + 1 >= 64 {
        Above(a, k + 1);
      }
    }
    NoBits(a / 2);
  }

  lemma HalfHas(a: nat, k: nat)
    ensures Has(a / 2, k) == Has(a, k + 1)
  {
  }

  /** Only 0 has square 0. */
  lemma NoSquareZero(a: Limb)
    requires KMul(a, a) == 0
    ensures a == 0
  {
    hide KMul, SquareHas, Has;
    FirstRowsOf(a);
    forall m: nat | m < 32
      ensures Zeroed(a, m)
    {
      RowsOf(a, m);
      SquareBit(a, 2 * m);
      SquareBit(a, 2 * m + 1);
      NothingHas(2 * m);
      NothingHas(2 * m + 1);
    }
    ZeroedBits(a);
    NoBits(a);
  }

  lemma NothingHas(k: nat)
    ensures !Has(0, k)
  {
    ShiftZero(k);
  }
}
