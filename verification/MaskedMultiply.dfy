/** field.rs's `clmul32`: a carry-less product by sixteen integer products of operands masked to
    one bit in four, and `clmul64` from it by Karatsuba. Both are exact. */
module MaskedMultiply {
  import opened Multilinear
  import opened Bits
  import opened Carryless

  // ---- bitwise and -----------------------------------------------------------------------------

  function BitAnd(a: nat, b: nat): nat {
    if a % 2 == 1 && b % 2 == 1 then 1 else 0
  }

  lemma AndBit(a: nat, b: nat)
    ensures And(a, b) == BitAnd(a, b) + 2 * And(a / 2, b / 2)
    ensures And(a, b) % 2 == BitAnd(a, b) && And(a, b) / 2 == And(a / 2, b / 2)
  {
    if b == 0 {
      assert And(a / 2, 0) == 0;
    }
  }

  lemma {:induction false} AndXor(x: nat, y: nat, m: nat)
    ensures And(Xor(x, y), m) == Xor(And(x, m), And(y, m))
    decreases m
  {
    hide And, Xor;
    AndBit(Xor(x, y), m);
    AndBit(x, m);
    AndBit(y, m);
    XorBit(x, y);
    XorStep(And(x, m), And(y, m));
    if m == 0 {
      NoAnd(x);
      NoAnd(y);
      NoAnd(Xor(x, y));
      XorNone(0);
    } else {
      AndXor(x / 2, y / 2, m / 2);
    }
  }

  lemma NoAnd(x: nat)
    ensures And(x, 0) == 0
  {
  }

  lemma {:induction false} AndComm(a: nat, b: nat)
    ensures And(a, b) == And(b, a)
    decreases a + b
  {
    hide And;
    AndBit(a, b);
    AndBit(b, a);
    if a + b > 0 {
      AndComm(a / 2, b / 2);
    } else {
      NoAnd(0);
    }
  }

  lemma {:induction false} AndAssoc(a: nat, b: nat, c: nat)
    ensures And(And(a, b), c) == And(a, And(b, c))
    decreases c
  {
    hide And;
    if c == 0 {
      NoAnd(And(a, b));
      NoAnd(b);
      NoAnd(a);
    } else {
      AndAssoc(a / 2, b / 2, c / 2);
      AndBit(And(a, b), c);
      AndBit(a, b);
      AndBit(b, c);
      AndBit(a, And(b, c));
    }
  }

  lemma {:induction false} AndUp(x: nat, m: nat, k: nat)
    ensures And(x, Pow2(k) * m) == Pow2(k) * And(Shift(x, k), m)
    decreases k
  {
    hide And, Shift;
    if k == 0 {
      ShiftNone(x);
      assert Pow2(0) * m == m && Pow2(0) * And(x, m) == And(x, m);
    } else {
      var p, s := Pow2(k - 1), And(Shift(x / 2, k - 1), m);
      assert Pow2(k) * m == 2 * (p * m) && Pow2(k) * s == 2 * (p * s);
      AndStep(x, p * m);
      AndUp(x / 2, m, k - 1);
      ShiftOne(x, k);
    }
  }

  lemma ShiftNone(x: nat)
    ensures Shift(x, 0) == x
  {
  }

  lemma ShiftOne(x: nat, k: nat)
    requires k > 0
    ensures Shift(x, k) == Shift(x / 2, k - 1)
  {
  }

  /** Words with no common bit: or is exclusive or. */
  lemma {:induction false} OrIsXor(x: nat, y: nat)
    requires And(x, y) == 0
    ensures Or(x, y) == Xor(x, y)
    decreases x + y
  {
    hide And, Xor;
    AndBit(x, y);
    XorStep(x, y);
    if x + y > 0 {
      OrIsXor(x / 2, y / 2);
    } else {
      XorNone(0);
    }
  }

  // ---- nibbles ---------------------------------------------------------------------------------

  /** The low bit of each of the first n nibbles. */
  function Parity(x: nat, n: nat): nat
    decreases n, x
  {
    if n == 0 then 0 else x % 2 + 16 * Parity(x / 16, n - 1)
  }

  /** n nibbles, each at most m. */
  ghost predicate Digits(x: nat, n: nat, m: nat)
    decreases n, x
  {
    if n == 0 then x == 0 else x % 16 <= m && Digits(x / 16, n - 1, m)
  }

  function NibbleMask(n: nat): nat
    decreases n
  {
    if n == 0 then 0 else 1 + 16 * NibbleMask(n - 1)
  }

  lemma Masks()
    ensures NibbleMask(8) == 0x1111_1111 && NibbleMask(16) == 0x1111_1111_1111_1111
  {
    assert NibbleMask(4) == 0x1111;
    assert NibbleMask(8) == 1 + 16 * (1 + 16 * (1 + 16 * (1 + 16 * NibbleMask(4))));
    assert NibbleMask(12) == 1 + 16 * (1 + 16 * (1 + 16 * (1 + 16 * NibbleMask(8))));
    assert NibbleMask(16) == 1 + 16 * (1 + 16 * (1 + 16 * (1 + 16 * NibbleMask(12))));
  }

  lemma {:induction false} AndNibbles(x: nat, n: nat)
    ensures And(x, NibbleMask(n)) == Parity(x, n)
    decreases n
  {
    hide And;
    if n > 0 {
      AndNibbles(x / 16, n - 1);
      AndSixteen(x, NibbleMask(n - 1));
    } else {
      NoAnd(x);
    }
  }

  lemma AndSixteen(x: nat, m: nat)
    ensures And(x, 1 + 16 * m) == x % 2 + 16 * And(x / 16, m)
  {
    hide And;
    AndStep(x, 8 * m);
    AndStep(x / 2, 4 * m);
    AndStep(x / 4, 2 * m);
    AndStep(x / 8, m);
    Quarters(x);
    assert 1 + 16 * m == 2 * (8 * m) + 1 && 8 * m == 2 * (4 * m) && 4 * m == 2 * (2 * m);
  }

  lemma Quarters(x: nat)
    ensures x / 2 / 2 == x / 4 && x / 4 / 2 == x / 8 && x / 8 / 2 == x / 16
  {
  }

  lemma ParityStep(x: nat, n: nat)
    requires n > 0
    ensures Parity(x, n) == x % 2 + 16 * Parity(x / 16, n - 1)
  {
  }

  lemma DigitsStep(x: nat, n: nat, m: nat)
    requires n > 0
    ensures Digits(x, n, m) <==> x % 16 <= m && Digits(x / 16, n - 1, m)
  {
  }

  /** Sixteen times a number: one more nibble, empty. */
  lemma Times16(x: nat, n: nat, m: nat)
    requires n > 0
    ensures Parity(16 * x, n) == 16 * Parity(x, n - 1) && (Digits(16 * x, n, m) <==> Digits(x, n - 1, m))
  {
    hide Parity, Digits;
    ParityStep(16 * x, n);
    DigitsStep(16 * x, n, m);
    DivUnique(16 * x, 16, x, 0);
    DivUnique(16 * x, 2, 8 * x, 0);
  }

  /** Adding below a carry-free bound goes nibble by nibble. */
  lemma AddNibble(x: nat, y: nat)
    requires x % 16 + y % 16 < 16
    ensures (x + y) % 16 == x % 16 + y % 16 && (x + y) / 16 == x / 16 + y / 16
  {
    DivUnique(x + y, 16, x / 16 + y / 16, x % 16 + y % 16);
  }

  lemma AddParity(x: nat, y: nat)
    ensures (x + y) % 2 == (x % 2 + y % 2) % 2
  {
  }

  lemma XorNibble(p: nat, a: nat, q: nat, b: nat)
    requires p < 16 && q < 16
    ensures Xor(p + 16 * a, q + 16 * b) == Xor(p, q) + 16 * Xor(a, b) && Xor(p, q) < 16
  {
    hide Xor, Shift, Low;
    Sixteen();
    Join(p, 4, a);
    Join(q, 4, b);
    XorBound(p, q, 4);
    Join(Xor(p, q), 4, Xor(a, b));
    XorShift(p + 16 * a, q + 16 * b, 4);
    LowSmall(p, 4);
    LowSmall(q, 4);
    SameParts(Xor(p + 16 * a, q + 16 * b), Xor(p, q) + 16 * Xor(a, b), 4);
  }

  lemma Sixteen()
    ensures Pow2(4) == 16
  {
    Pow2Values();
  }

  lemma XorBits(p: nat, q: nat)
    requires p < 2 && q < 2
    ensures Xor(p, q) == (p + q) % 2
  {
    XorStep(p, q);
    XorNone(0);
  }

  /** Adding a 0-1 number to digits with room carries nothing, and the parities add. */
  lemma {:induction false} AddDigits(x: nat, y: nat, n: nat, m: nat)
    requires Digits(x, n, m) && Digits(y, n, 1) && m < 15
    ensures Digits(x + y, n, m + 1) && Parity(x + y, n) == Xor(Parity(x, n), Parity(y, n))
    decreases n
  {
    hide Xor;
    if n == 0 {
      XorNone(0);
    } else {
      hide Parity, Digits;
      DigitsStep(x, n, m);
      DigitsStep(y, n, 1);
      AddNibble(x, y);
      AddParity(x, y);
      AddDigits(x / 16, y / 16, n - 1, m);
      DigitsStep(x + y, n, m + 1);
      ParityStep(x, n);
      ParityStep(y, n);
      ParityStep(x + y, n);
      XorNibble(x % 2, Parity(x / 16, n - 1), y % 2, Parity(y / 16, n - 1));
      XorBits(x % 2, y % 2);
    }
  }

  /** A 0-1 number is its own parity, and its digits may be counted longer. */
  lemma {:induction false} ZeroOne(x: nat, n: nat)
    requires Digits(x, n, 1)
    ensures Parity(x, n) == x
    decreases n
  {
    if n > 0 {
      ZeroOne(x / 16, n - 1);
      assert x % 2 == x % 16;
    }
  }

  lemma {:induction false} Longer(x: nat, n: nat, k: nat, m: nat)
    requires Digits(x, n, m) && n <= k
    ensures Digits(x, k, m) && Parity(x, k) == Parity(x, n)
    decreases k
  {
    if k > 0 {
      if n > 0 {
        Longer(x / 16, n - 1, k - 1, m);
      } else {
        Longer(0, 0, k - 1, m);
      }
    }
  }

  lemma {:induction false} NoDigits(n: nat, m: nat)
    ensures Digits(0, n, m) && Parity(0, n) == 0
    decreases n
  {
    if n > 0 {
      NoDigits(n - 1, m);
    }
  }

  lemma {:induction false} ParityDigits(x: nat, n: nat)
    ensures Digits(Parity(x, n), n, 1)
    decreases n
  {
    if n > 0 {
      ParityDigits(x / 16, n - 1);
      assert Parity(x, n) % 16 == x % 2 && Parity(x, n) / 16 == Parity(x / 16, n - 1);
    }
  }

  /** The integer product of 0-1 numbers of p and q nibbles: no digit exceeds q, and its parities
      are the carry-less product. */
  lemma {:induction false} ProductDigits(a: nat, p: nat, b: nat, q: nat)
    requires Digits(a, p, 1) && Digits(b, q, 1) && 1 <= p && 1 <= q <= 15
    ensures Digits(a * b, p + q - 1, q) && Parity(a * b, p + q - 1) == Clmul(a, b)
    decreases q
  {
    hide Parity, Digits, Xor, Clmul;
    var b0, b' := b % 16, b / 16;
    DigitsStep(b, q, 1);
    var low := b0 * a;
    LowTerm(a, p, b0, p + q - 1);
    if q == 1 {
      DigitsNone(b');
      ClBit(a, b0);
      AtMostOne(low, p, q);
      assert a * b == low;
    } else {
      var x := a * b';
      ProductDigits(a, p, b', q - 1);
      assert a * b == 16 * x + low by {
        assert b == 16 * b' + b0;
      }
      Times16(x, p + q - 1, q - 1);
      AddDigits(16 * x, low, p + q - 1, q - 1);
      ClNibble(a, b0, b');
    }
  }

  lemma DigitsNone(b: nat)
    requires Digits(b, 0, 1)
    ensures b == 0
  {
  }

  lemma AtMostOne(x: nat, n: nat, m: nat)
    requires Digits(x, n, 1) && m == 1
    ensures Digits(x, n, m)
  {
  }

  lemma LowTerm(a: nat, p: nat, b0: nat, n: nat)
    requires Digits(a, p, 1) && b0 <= 1 && p <= n
    ensures Digits(b0 * a, n, 1) && Parity(b0 * a, n) == b0 * a
    ensures Digits(b0 * a, p, 1)
  {
    if b0 == 0 {
      NoDigits(n, 1);
      NoDigits(p, 1);
    } else {
      ZeroOne(a, p);
      Longer(a, p, n, 1);
    }
  }

  lemma ClBit(a: nat, b0: nat)
    requires b0 <= 1
    ensures Clmul(a, b0) == b0 * a
  {
    ClOne(a);
    assert Clmul(a, 0) == 0;
  }

  lemma ClNibble(a: nat, b0: nat, b': nat)
    requires b0 <= 1
    ensures Clmul(a, b0 + 16 * b') == Xor(16 * Clmul(a, b'), b0 * a)
  {
    hide Xor, Clmul;
    Sixteen();
    XorDisjoint(b0, 4, b');
    ClDist(a, b0, 16 * b');
    ClBit(a, b0);
    ClEven(a, b');
    ClEven(a, 2 * b');
    ClEven(a, 4 * b');
    ClEven(a, 8 * b');
    XorComm(b0 * a, 16 * Clmul(a, b'));
  }

  // ---- one masked product ----------------------------------------------------------------------

  const MASK32: nat := 0x1111_1111
  const MASK64: nat := 0x1111_1111_1111_1111

  /** The bits of x at positions i mod 4. */
  function Class(x: nat, i: nat): nat {
    And(x, Pow2(i) * MASK32)
  }

  lemma ClassIs(x: nat, i: nat)
    ensures Class(x, i) == Pow2(i) * Parity(Shift(x, i), 8)
  {
    hide And, Pow2, Shift;
    Masks();
    AndUp(x, MASK32, i);
    AndNibbles(Shift(x, i), 8);
  }

  lemma {:induction false} ClScale(a: nat, b: nat, i: nat)
    ensures Clmul(Pow2(i) * a, b) == Pow2(i) * Clmul(a, b)
    decreases i
  {
    hide Clmul;
    if i == 0 {
      assert Pow2(0) * a == a && Pow2(0) * Clmul(a, b) == Clmul(a, b);
    } else {
      ClScale(a, b, i - 1);
      var p := Pow2(i - 1);
      assert Pow2(i) * a == 2 * (p * a) && Pow2(i) * Clmul(a, b) == 2 * (p * Clmul(a, b));
      ClDouble(p * a, b);
    }
  }

  lemma ClScales(a: nat, i: nat, b: nat, j: nat)
    ensures Clmul(Pow2(i) * a, Pow2(j) * b) == Pow2(i + j) * Clmul(a, b)
  {
    hide Clmul, Pow2;
    ClScale(a, Pow2(j) * b, i);
    ClComm(a, Pow2(j) * b);
    ClScale(b, a, j);
    ClComm(a, b);
    Pow2Add(i, j);
    var c := Clmul(a, b);
    assert Pow2(i) * (Pow2(j) * c) == Pow2(i) * Pow2(j) * c;
  }

  /** Masked to its own class, the integer product of two classes is their carry-less product. */
  lemma MaskedProduct(a: nat, b: nat, i: nat, j: nat, k: nat, p: nat, m: nat)
    requires k == i + j || k + 4 == i + j
    requires p == Class(a, i) * Class(b, j) && m == Pow2(k) * MASK64
    ensures And(p, m) == Clmul(Class(a, i), Class(b, j))
  {
    hide And, Pow2, Shift, Clmul, Class, Parity;
    ClassIs(a, i);
    ClassIs(b, j);
    Masks();
    var x, y := Parity(Shift(a, i), 8), Parity(Shift(b, j), 8);
    ParityDigits(Shift(a, i), 8);
    ParityDigits(Shift(b, j), 8);
    ProductDigits(x, 8, y, 8);
    ClScales(x, i, y, j);
    Pow2Add(i, j);
    FourFactors(Pow2(i), x, Pow2(j), y);
    AndUp(p, MASK64, k);
    AndNibbles(Shift(p, k), 16);
    ShiftedProduct(x * y, i + j, k);
  }

  lemma FourFactors(p: nat, x: nat, q: nat, y: nat)
    ensures (p * x) * (q * y) == (p * q) * (x * y)
  {
  }

  lemma ShiftedProduct(x: nat, s: nat, k: nat)
    requires (k == s || k + 4 == s) && Digits(x, 15, 8)
    ensures Pow2(k) * Parity(Shift(Pow2(s) * x, k), 16) == Pow2(s) * Parity(x, 15)
  {
    hide Shift, Pow2, Digits, Parity;
    var q := Parity(x, 15);
    Sixteen();
    OnePower();
    ShiftZero(k);
    AddHigh(0, s, x, k);
    if k == s {
      assert Pow2(0) * x == x;
      Longer(x, 15, 16, 8);
    } else {
      hide Parity;
      Pow2Add(k, 4);
      Times16(x, 16, 8);
      MulAssociates(Pow2(k), q);
    }
  }

  lemma MulAssociates(p: nat, q: nat)
    ensures p * (16 * q) == p * 16 * q
  {
  }

  lemma OnePower()
    ensures Pow2(0) == 1
  {
  }

  // ---- sixteen products ------------------------------------------------------------------------

  function Xor4(a: nat, b: nat, c: nat, d: nat): nat {
    Xor(Xor(a, b), Xor(c, d))
  }

  lemma Rotate4(a: nat, b: nat, c: nat, d: nat)
    ensures Xor4(a, b, c, d) == Xor4(b, c, d, a)
  {
    hide Xor;
    XorComm(Xor(a, b), Xor(c, d));
    XorAssoc(c, d, Xor(a, b));
    XorLeft(d, a, b);
    XorComm(a, Xor(d, b));
    XorComm(a, b);
    XorAssoc(b, c, Xor(d, a));
    XorLeft(b, c, Xor(d, a));
    XorAssoc(d, a, b);
    XorComm(Xor(d, a), b);
    XorComm(d, Xor(a, b));
    XorLeft(a, d, b);
  }

  /** The sum of the rows is the sum of the columns. */
  lemma Transpose4(m: (nat, nat) -> nat)
    ensures Xor4(Row4(m, 0), Row4(m, 1), Row4(m, 2), Row4(m, 3)) == Xor4(Column4(m, 0), Column4(m, 1), Column4(m, 2), Column4(m, 3))
  {
    hide Xor;
    SumRows(m, 0, 1);
    SumRows(m, 2, 3);
    var p := (i: nat, j: nat) => Xor(m(2 * i, j), m(2 * i + 1, j));
    XorSwap(Xor(p(0, 0), p(0, 1)), Xor(p(0, 2), p(0, 3)), Xor(p(1, 0), p(1, 1)), Xor(p(1, 2), p(1, 3)));
    XorSwap(p(0, 0), p(0, 1), p(1, 0), p(1, 1));
    XorSwap(p(0, 2), p(0, 3), p(1, 2), p(1, 3));
  }

  function Row4(m: (nat, nat) -> nat, i: nat): nat {
    Xor4(m(i, 0), m(i, 1), m(i, 2), m(i, 3))
  }

  function Column4(m: (nat, nat) -> nat, j: nat): nat {
    Xor4(m(0, j), m(1, j), m(2, j), m(3, j))
  }

  lemma SumRows(m: (nat, nat) -> nat, i: nat, k: nat)
    ensures Xor(Row4(m, i), Row4(m, k))
         == Xor4(Xor(m(i, 0), m(k, 0)), Xor(m(i, 1), m(k, 1)), Xor(m(i, 2), m(k, 2)), Xor(m(i, 3), m(k, 3)))
  {
    hide Xor;
    XorSwap(Xor(m(i, 0), m(i, 1)), Xor(m(i, 2), m(i, 3)), Xor(m(k, 0), m(k, 1)), Xor(m(k, 2), m(k, 3)));
    XorSwap(m(i, 0), m(i, 1), m(k, 0), m(k, 1));
    XorSwap(m(i, 2), m(i, 3), m(k, 2), m(k, 3));
  }
}
