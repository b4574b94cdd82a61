/** `clmul32` and `clmul64` as they run, against the carry-less product. */
module CarrylessMultiply {
  import opened Multilinear
  import opened Bits
  import opened Carryless
  import opened MaskedMultiply

  const WORD: nat := 0x1_0000_0000

  // ---- the four classes cover a word -----------------------------------------------------------

  function Full(n: nat): nat
    decreases n
  {
    if n == 0 then 0 else 15 + 16 * Full(n - 1)
  }

  lemma {:induction false} MasksCover(n: nat)
    ensures Xor4(NibbleMask(n), 2 * NibbleMask(n), 4 * NibbleMask(n), 8 * NibbleMask(n)) == Full(n)
    decreases n
  {
    hide Xor;
    if n == 0 {
      XorNone(0);
    } else {
      var m := NibbleMask(n - 1);
      MasksCover(n - 1);
      TwoBits();
      XorNibble(1, m, 2, 2 * m);
      XorNibble(4, 4 * m, 8, 8 * m);
      XorNibble(3, Xor(m, 2 * m), 12, Xor(4 * m, 8 * m));
    }
  }

  lemma TwoBits()
    ensures Xor(1, 2) == 3 && Xor(4, 8) == 12 && Xor(3, 12) == 15
  {
    hide Xor;
    OneTwoFour();
    XorDisjoint(1, 1, 1);
    XorDisjoint(3, 2, 3);
    XorDouble(2, 4);
    XorDouble(1, 2);
  }

  lemma OneTwoFour()
    ensures Pow2(0) == 1 && Pow2(1) == 2 && Pow2(2) == 4 && Pow2(3) == 8
  {
  }

  lemma FullWord()
    ensures Full(8) == WORD - 1 && Pow2(32) == WORD
  {
    assert Full(4) == 0xFFFF;
    assert Full(8) == 15 + 16 * (15 + 16 * (15 + 16 * (15 + 16 * Full(4))));
    Pow2Values();
    Pow2Add(16, 16);
  }

  lemma Covers(x: nat)
    requires x < WORD
    ensures Xor4(Class(x, 0), Class(x, 1), Class(x, 2), Class(x, 3)) == x
  {
    hide And, Xor, Pow2, Full, NibbleMask;
    OneTwoFour();
    Masks();
    MasksCover(8);
    FullWord();
    AndOver(x, MASK32, 2 * MASK32);
    AndOver(x, 4 * MASK32, 8 * MASK32);
    AndOver(x, Xor(MASK32, 2 * MASK32), Xor(4 * MASK32, 8 * MASK32));
    AndLow(x, 32);
    LowSmall(x, 32);
  }

  lemma AndOver(x: nat, m: nat, n: nat)
    ensures And(x, Xor(m, n)) == Xor(And(x, m), And(x, n))
  {
    hide And, Xor;
    AndComm(x, Xor(m, n));
    AndComm(x, m);
    AndComm(x, n);
    AndXor(m, n, x);
  }

  // ---- the classes of the result share no bits -------------------------------------------------

  lemma {:induction false} MasksApart(n: nat, c: nat, d: nat)
    requires c in [1, 2, 4, 8] && d in [1, 2, 4, 8] && c != d
    ensures And(c * NibbleMask(n), d * NibbleMask(n)) == 0
    decreases n
  {
    hide And;
    if n == 0 {
      NoAnd(0);
    } else {
      var m := NibbleMask(n - 1);
      MasksApart(n - 1, c, d);
      assert c * (1 + 16 * m) == c + 16 * (c * m) && d * (1 + 16 * m) == d + 16 * (d * m);
      BitsApart(c, c * m, d, d * m);
    }
  }

  lemma BitsApart(c: nat, x: nat, d: nat, y: nat)
    requires c in [1, 2, 4, 8] && d in [1, 2, 4, 8] && c != d
    ensures And(c + 16 * x, d + 16 * y) == 16 * And(x, y)
  {
    hide And;
    AndBit(c + 16 * x, d + 16 * y);
    AndBit(c / 2 + 8 * x, d / 2 + 8 * y);
    AndBit(c / 4 + 4 * x, d / 4 + 4 * y);
    AndBit(c / 8 + 2 * x, d / 8 + 2 * y);
  }

  lemma KeptApart(z: nat, m: nat, w: nat, n: nat)
    requires And(m, n) == 0
    ensures And(And(z, m), And(w, n)) == 0
  {
    hide And;
    AndAssoc(z, m, And(w, n));
    AndComm(w, n);
    AndAssoc(m, n, w);
    AndComm(0, w);
    NoAnd(w);
    NoAnd(z);
  }

  // ---- the loops -------------------------------------------------------------------------------

  /** Which class of b meets class i of a in class k of the result. */
  function Other(k: nat, i: nat): nat
    requires i < 4
  {
    if i <= k then k - i else k + 4 - i
  }

  lemma OtherIs(k: nat, i: nat)
    requires k < 4 && i < 4
    ensures (k + 4 - i) % 4 == Other(k, i)
  {
  }

  function Times(x: nat, y: nat): nat {
    x * y
  }

  /** The integer product of class i of a with the class of b that lands in class k. */
  function Masked(a: nat, b: nat, k: nat, i: nat): nat
    requires i < 4
  {
    Times(Class(a, i), Class(b, Other(k, i)))
  }

  /** The products of class k, the first n of them. */
  function Products(a: nat, b: nat, k: nat, n: nat): nat
    requires n <= 4
  {
    if n == 0 then 0 else Xor(Products(a, b, k, n - 1), Masked(a, b, k, n - 1))
  }

  function Kept(a: nat, b: nat, k: nat): nat {
    And(Products(a, b, k, 4), Pow2(k) * MASK64)
  }

  function Joined(a: nat, b: nat, k: nat): nat {
    if k == 0 then 0 else Xor(Joined(a, b, k - 1), Kept(a, b, k - 1))
  }

  function Terms(a: nat, b: nat): (nat, nat) -> nat {
    (k, i) => if i < 4 then Clmul(Class(a, i), Class(b, Other(k, i))) else 0
  }

  /** What class k keeps is the carry-less sum of its four products. */
  lemma KeptIs(a: nat, b: nat, k: nat)
    requires k < 4
    ensures Kept(a, b, k) == Row4(Terms(a, b), k)
  {
    hide And, Xor, Class, Clmul, Pow2, Masked, Products;
    var m := Pow2(k) * MASK64;
    var p0, p1, p2, p3 := Masked(a, b, k, 0), Masked(a, b, k, 1), Masked(a, b, k, 2), Masked(a, b, k, 3);
    KeptTerm(a, b, k, 0);
    KeptTerm(a, b, k, 1);
    KeptTerm(a, b, k, 2);
    KeptTerm(a, b, k, 3);
    AllProducts(a, b, k);
    AndXor(Xor(Xor(p0, p1), p2), p3, m);
    AndXor(Xor(p0, p1), p2, m);
    AndXor(p0, p1, m);
    XorAssoc(Xor(And(p0, m), And(p1, m)), And(p2, m), And(p3, m));
  }

  lemma KeptTerm(a: nat, b: nat, k: nat, i: nat)
    requires k < 4 && i < 4
    ensures And(Masked(a, b, k, i), Pow2(k) * MASK64) == Terms(a, b)(k, i)
  {
    hide And, Class, Clmul, Pow2;
    MaskedProduct(a, b, i, Other(k, i), k, Masked(a, b, k, i), Pow2(k) * MASK64);
  }

  lemma AllProducts(a: nat, b: nat, k: nat)
    ensures Products(a, b, k, 4)
         == Xor(Xor(Xor(Masked(a, b, k, 0), Masked(a, b, k, 1)), Masked(a, b, k, 2)), Masked(a, b, k, 3))
  {
    hide Xor, Masked;
    var p := Masked(a, b, k, 0);
    XorNone(p);
    assert Products(a, b, k, 1) == Xor(Products(a, b, k, 0), p) == p;
    assert Products(a, b, k, 2) == Xor(p, Masked(a, b, k, 1));
    assert Products(a, b, k, 3) == Xor(Products(a, b, k, 2), Masked(a, b, k, 2));
  }

  lemma {:induction false} JoinedApart(a: nat, b: nat, j: nat, k: nat)
    requires j <= k < 4
    ensures And(Joined(a, b, j), Kept(a, b, k)) == 0
    decreases j
  {
    hide And, Xor, Products, Pow2;
    var y := Kept(a, b, k);
    if j == 0 {
      AndComm(0, y);
      NoAnd(y);
    } else {
      JoinedApart(a, b, j - 1, k);
      AndXor(Joined(a, b, j - 1), Kept(a, b, j - 1), y);
      OneTwoFour();
      Masks();
      MasksApart(16, Pow2(j - 1), Pow2(k));
      KeptApart(Products(a, b, j - 1, 4), Pow2(j - 1) * MASK64, Products(a, b, k, 4), Pow2(k) * MASK64);
      XorNone(0);
    }
  }

  /** All sixteen terms are the product. */
  lemma JoinedIsProduct(a: nat, b: nat)
    requires a < WORD && b < WORD
    ensures Joined(a, b, 4) == Clmul(a, b)
  {
    hide And, Xor, Class, Clmul, Pow2, Kept;
    var t := Terms(a, b);
    KeptIs(a, b, 0);
    KeptIs(a, b, 1);
    KeptIs(a, b, 2);
    KeptIs(a, b, 3);
    AllJoined(a, b);
    Transpose4(t);
    ColumnIs(a, b, 0);
    ColumnIs(a, b, 1);
    ColumnIs(a, b, 2);
    ColumnIs(a, b, 3);
    Covers(a);
    var a0, a1, a2, a3 := Class(a, 0), Class(a, 1), Class(a, 2), Class(a, 3);
    ClDistRight(Xor(a0, a1), Xor(a2, a3), b);
    ClDistRight(a0, a1, b);
    ClDistRight(a2, a3, b);
  }

  lemma AllJoined(a: nat, b: nat)
    ensures Joined(a, b, 4) == Xor4(Kept(a, b, 0), Kept(a, b, 1), Kept(a, b, 2), Kept(a, b, 3))
  {
    hide Xor, Kept;
    XorNone(Kept(a, b, 0));
    assert Joined(a, b, 1) == Xor(Joined(a, b, 0), Kept(a, b, 0)) == Kept(a, b, 0);
    assert Joined(a, b, 2) == Xor(Kept(a, b, 0), Kept(a, b, 1));
    assert Joined(a, b, 3) == Xor(Joined(a, b, 2), Kept(a, b, 2));
    XorAssoc(Joined(a, b, 2), Kept(a, b, 2), Kept(a, b, 3));
  }

  /** One class of a against all of b. */
  lemma ColumnIs(a: nat, b: nat, i: nat)
    requires b < WORD && i < 4
    ensures Column4(Terms(a, b), i) == Clmul(Class(a, i), b)
  {
    hide Xor, Class, Clmul, Other, Xor4, Column4, Terms;
    ColumnTerms(a, b, i);
    Others();
    ColumnSum(Class(a, i), b);
    if i == 0 {
    } else if i == 1 {
    } else if i == 2 {
    }
  }

  lemma Others()
    ensures Other(0, 0) == 0 && Other(1, 0) == 1 && Other(2, 0) == 2 && Other(3, 0) == 3
    ensures Other(0, 1) == 3 && Other(1, 1) == 0 && Other(2, 1) == 1 && Other(3, 1) == 2
    ensures Other(0, 2) == 2 && Other(1, 2) == 3 && Other(2, 2) == 0 && Other(3, 2) == 1
    ensures Other(0, 3) == 1 && Other(1, 3) == 2 && Other(2, 3) == 3 && Other(3, 3) == 0
  {
  }

  lemma ColumnTerms(a: nat, b: nat, i: nat)
    requires i < 4
    ensures var x := Class(a, i);
      Column4(Terms(a, b), i) == Xor4(Clmul(x, Class(b, Other(0, i))), Clmul(x, Class(b, Other(1, i))),
                                      Clmul(x, Class(b, Other(2, i))), Clmul(x, Class(b, Other(3, i))))
  {
    hide Xor, Class, Clmul, Other;
  }

  /** In any rotation the four classes of b make up b. */
  lemma ColumnSum(x: nat, b: nat)
    requires b < WORD
    ensures var c0, c1, c2, c3 := Clmul(x, Class(b, 0)), Clmul(x, Class(b, 1)), Clmul(x, Class(b, 2)), Clmul(x, Class(b, 3));
      && Xor4(c0, c1, c2, c3) == Clmul(x, b) && Xor4(c3, c0, c1, c2) == Clmul(x, b)
      && Xor4(c2, c3, c0, c1) == Clmul(x, b) && Xor4(c1, c2, c3, c0) == Clmul(x, b)
  {
    hide Xor, Class, Clmul;
    var b0, b1, b2, b3 := Class(b, 0), Class(b, 1), Class(b, 2), Class(b, 3);
    Covers(b);
    ClDist(x, Xor(b0, b1), Xor(b2, b3));
    ClDist(x, b0, b1);
    ClDist(x, b2, b3);
    var c0, c1, c2, c3 := Clmul(x, b0), Clmul(x, b1), Clmul(x, b2), Clmul(x, b3);
    Rotate4(c0, c1, c2, c3);
    Rotate4(c1, c2, c3, c0);
    Rotate4(c2, c3, c0, c1);
  }

  /** `clmul32`. */
  method Clmul32(a: nat, b: nat) returns (out: nat)
    requires a < WORD && b < WORD
    ensures out == Clmul(a, b)
  {
    hide And, Or, Xor, Class, Clmul, Pow2, Kept;
    out := 0;
    var k := 0;
    while k < 4
      invariant 0 <= k <= 4 && out == Joined(a, b, k)
    {
      var z, i := 0, 0;
      while i < 4
        invariant 0 <= i <= 4 && z == Products(a, b, k, i)
      {
        OtherIs(k, i);
        z := Xor(z, Times(Class(a, i), Class(b, (k + 4 - i) % 4)));
        i := i + 1;
      }
      KeptNow(a, b, k);
      JoinedApart(a, b, k, k);
      OrIsXor(out, Kept(a, b, k));
      out := Or(out, And(z, Pow2(k) * MASK64));
      k := k + 1;
    }
    JoinedIsProduct(a, b);
  }

  lemma KeptNow(a: nat, b: nat, k: nat)
    ensures Kept(a, b, k) == And(Products(a, b, k, 4), Pow2(k) * MASK64)
  {
  }

  // ---- 64 bits ---------------------------------------------------------------------------------

  /** x << k. */
  function Raised(x: nat, k: nat): nat {
    Pow2(k) * x
  }

  /** `clmul64`: the low and the high word of the 128-bit product. */
  method Clmul64(a: nat, b: nat) returns (low: nat, high: nat)
    requires a < WORD * WORD && b < WORD * WORD
    ensures low == Low(Clmul(a, b), 64) && high == Shift(Clmul(a, b), 64)
  {
    hide Xor, Clmul, Low, Shift, Pow2;
    HalvesOf(a);
    HalvesOf(b);
    var a0, a1, b0, b1 := Low(a, 32), Shift(a, 32), Low(b, 32), Shift(b, 32);
    XorBound(a0, a1, 32);
    XorBound(b0, b1, 32);
    var l := Clmul32(a0, b0);
    var h := Clmul32(a1, b1);
    var m := Clmul32(Xor(a0, a1), Xor(b0, b1));
    var middle := Xor(Xor(m, l), h);
    Karatsuba(a0, a1, b0, b1);
    WordsOf(a0, a1, b0, b1, middle);
    low, high := Xor(l, Low(Raised(middle, 32), 64)), Xor(h, Shift(middle, 32));
  }

  lemma HalvesOf(x: nat)
    requires x < WORD * WORD
    ensures Pow2(32) == WORD && Low(x, 32) < WORD && Shift(x, 32) < WORD && x == Xor(Low(x, 32), Raised(Shift(x, 32), 32))
  {
    hide Xor, Low, Shift, Pow2;
    FullWord();
    Pow2Add(32, 32);
    LowBound(x, 32);
    ShiftBound(x, 32, 32);
    SplitAt(x, 32);
    XorDisjoint(Low(x, 32), 32, Shift(x, 32));
  }

  /** The middle coefficient from three products. */
  lemma Karatsuba(a0: nat, a1: nat, b0: nat, b1: nat)
    ensures Xor(Xor(Clmul(Xor(a0, a1), Xor(b0, b1)), Clmul(a0, b0)), Clmul(a1, b1)) == Xor(Clmul(a0, b1), Clmul(a1, b0))
  {
    hide Xor, Clmul;
    var p, q, r, s := Clmul(a0, b0), Clmul(a0, b1), Clmul(a1, b0), Clmul(a1, b1);
    ClDistRight(a0, a1, Xor(b0, b1));
    ClDist(a0, b0, b1);
    ClDist(a1, b0, b1);
    XorAssoc(p, q, Xor(r, s));
    XorComm(p, Xor(q, Xor(r, s)));
    XorCancel(Xor(q, Xor(r, s)), p);
    XorAssoc(q, r, s);
    XorCancel(Xor(q, r), s);
  }

  /** The product of two split words: low, middle 32 bits up, high 64 bits up. */
  lemma WordsOf(a0: nat, a1: nat, b0: nat, b1: nat, middle: nat)
    requires a0 < Pow2(32) && b0 < Pow2(32) && middle == Xor(Clmul(a0, b1), Clmul(a1, b0))
    ensures var p := Clmul(Xor(a0, Raised(a1, 32)), Xor(b0, Raised(b1, 32)));
      && Low(p, 64) == Xor(Clmul(a0, b0), Low(Raised(middle, 32), 64))
      && Shift(p, 64) == Xor(Clmul(a1, b1), Shift(middle, 32))
  {
    hide Xor, Clmul, Low, Shift, Pow2, Raised;
    var l, h := Clmul(a0, b0), Clmul(a1, b1);
    var x, up := Raised(middle, 32), Raised(h, 64);
    Expand(a0, a1, b0, b1);
    ClBound(a0, 32, b0, 32);
    LowSmall(l, 64);
    XorShift(Xor(l, x), up, 64);
    XorShift(l, x, 64);
    RaisedParts(middle, h);
    XorNone(Xor(l, Low(x, 64)));
    XorNone(Shift(middle, 32));
    XorComm(Shift(middle, 32), h);
  }

  lemma RaisedParts(middle: nat, h: nat)
    ensures Low(Raised(h, 64), 64) == 0 && Shift(Raised(h, 64), 64) == h && Shift(Raised(middle, 32), 64) == Shift(middle, 32)
  {
    hide Low, Shift, Pow2;
    OneOnly();
    AddHigh(0, 64, h, 64);
    ShiftZero(64);
    AddHigh(0, 32, middle, 32);
    ShiftZero(32);
    ShiftShift(Raised(middle, 32), 32, 32);
  }

  lemma OneOnly()
    ensures Pow2(0) == 1
  {
  }

  lemma Expand(a0: nat, a1: nat, b0: nat, b1: nat)
    ensures Clmul(Xor(a0, Raised(a1, 32)), Xor(b0, Raised(b1, 32)))
         == Xor(Xor(Clmul(a0, b0), Raised(Xor(Clmul(a0, b1), Clmul(a1, b0)), 32)), Raised(Clmul(a1, b1), 64))
  {
    hide Xor, Clmul, Pow2;
    var a, b := Pow2(32) * a1, Pow2(32) * b1;
    ClDistRight(a0, a, Xor(b0, b));
    ClDist(a0, b0, b);
    ClDist(a, b0, b);
    ClComm(a0, b);
    ClScale(b1, a0, 32);
    ClComm(a0, b1);
    ClScale(a1, b0, 32);
    ClScales(a1, 32, b1, 32);
    XorUp(Clmul(a0, b1), Clmul(a1, b0), 32);
    var p, q, r, s := Clmul(a0, b0), Pow2(32) * Clmul(a0, b1), Pow2(32) * Clmul(a1, b0), Pow2(64) * Clmul(a1, b1);
    XorAssoc(Xor(p, q), r, s);
    XorAssoc(p, q, r);
  }

  lemma {:induction false} XorUp(a: nat, b: nat, k: nat)
    ensures Xor(Pow2(k) * a, Pow2(k) * b) == Pow2(k) * Xor(a, b)
    decreases k
  {
    hide Xor;
    if k == 0 {
      assert Pow2(0) * a == a && Pow2(0) * b == b && Pow2(0) * Xor(a, b) == Xor(a, b);
    } else {
      var p := Pow2(k - 1);
      XorUp(a, b, k - 1);
      assert Pow2(k) * a == 2 * (p * a) && Pow2(k) * b == 2 * (p * b) && Pow2(k) * Xor(a, b) == 2 * (p * Xor(a, b));
      XorDouble(p * a, p * b);
    }
  }
}
