/** Polynomials over GF(2) as natural numbers: sums are exclusive ors, products carry-less. */
module Carryless {
  import opened Multilinear
  import opened Bits

  // ---- exclusive or ----------------------------------------------------------------------------

  /** One bit at a time. */
  lemma XorStep(a: nat, b: nat)
    ensures Xor(a, b) == (a + b) % 2 + 2 * Xor(a / 2, b / 2)
  {
    XorNone(a / 2);
    XorNone(b / 2);
    if a == 0 || b == 0 {
      XorNone(a);
      XorNone(b);
      hide Xor;
    }
  }

  lemma XorNone(a: nat)
    ensures Xor(a, 0) == a && Xor(0, a) == a
  {
  }

  lemma XorBit(a: nat, b: nat)
    ensures Xor(a, b) % 2 == (a + b) % 2 && Xor(a, b) / 2 == Xor(a / 2, b / 2)
  {
    XorStep(a, b);
    hide Xor;
  }

  lemma {:induction false} XorComm(a: nat, b: nat)
    ensures Xor(a, b) == Xor(b, a)
    decreases a
  {
    if a > 0 && b > 0 {
      XorComm(a / 2, b / 2);
    }
  }

  lemma {:induction false} XorAssoc(a: nat, b: nat, c: nat)
    ensures Xor(Xor(a, b), c) == Xor(a, Xor(b, c))
    decreases a
  {
    hide Xor;
    if a == 0 {
      XorNone(b);
      XorNone(Xor(b, c));
    } else {
      XorAssoc(a / 2, b / 2, c / 2);
      XorBit(a, b);
      XorBit(b, c);
      XorStep(Xor(a, b), c);
      XorStep(a, Xor(b, c));
    }
  }

  lemma {:induction false} XorSelf(a: nat)
    ensures Xor(a, a) == 0
    decreases a
  {
    if a > 0 {
      XorSelf(a / 2);
    }
  }

  lemma XorCancel(a: nat, b: nat)
    ensures Xor(Xor(a, b), b) == a && Xor(b, Xor(b, a)) == a
  {
    XorAssoc(a, b, b);
    XorAssoc(b, b, a);
    XorSelf(b);
    XorNone(a);
  }

  lemma XorSwap(a: nat, b: nat, c: nat, d: nat)
    ensures Xor(Xor(a, b), Xor(c, d)) == Xor(Xor(a, c), Xor(b, d))
  {
    hide Xor;
    XorAssoc(a, b, Xor(c, d));
    XorAssoc(b, c, d);
    XorComm(b, c);
    XorAssoc(c, b, d);
    XorAssoc(a, c, Xor(b, d));
  }

  lemma XorLeft(a: nat, b: nat, c: nat)
    ensures Xor(a, Xor(b, c)) == Xor(b, Xor(a, c))
  {
    hide Xor;
    XorAssoc(a, b, c);
    XorComm(a, b);
    XorAssoc(b, a, c);
  }

  lemma XorDouble(a: nat, b: nat)
    ensures Xor(2 * a, 2 * b) == 2 * Xor(a, b)
  {
    hide Xor;
    XorStep(2 * a, 2 * b);
    assert 2 * a / 2 == a && 2 * b / 2 == b && (2 * a + 2 * b) % 2 == 0;
  }

  lemma {:induction false} XorBound(a: nat, b: nat, k: nat)
    requires a < Pow2(k) && b < Pow2(k)
    ensures Xor(a, b) < Pow2(k)
    decreases k
  {
    if k == 0 {
      XorNone(0);
    } else {
      XorBound(a / 2, b / 2, k - 1);
      XorStep(a, b);
    }
  }

  lemma XorShift(a: nat, b: nat, k: nat)
    ensures Shift(Xor(a, b), k) == Xor(Shift(a, k), Shift(b, k))
    ensures Low(Xor(a, b), k) == Xor(Low(a, k), Low(b, k))
  {
    XorHigh(a, b, k);
    XorLow(a, b, k);
  }

  lemma {:induction false} XorHigh(a: nat, b: nat, k: nat)
    ensures Shift(Xor(a, b), k) == Xor(Shift(a, k), Shift(b, k))
    decreases k
  {
    if k > 0 {
      hide Xor;
      XorBit(a, b);
      XorHigh(a / 2, b / 2, k - 1);
    }
  }

  lemma LowStep(n: nat, k: nat)
    requires k > 0
    ensures Low(n, k) == n % 2 + 2 * Low(n / 2, k - 1) && Low(n, k) % 2 == n % 2 && Low(n, k) / 2 == Low(n / 2, k - 1)
  {
    hide Low;
    OneStep(n, k);
    Halving(n % 2, Low(n / 2, k - 1));
  }

  lemma SameParity(a: nat, b: nat, x: nat, y: nat)
    requires a % 2 == x % 2 && b % 2 == y % 2
    ensures (a + b) % 2 == (x + y) % 2
  {
  }

  lemma {:induction false} XorLow(a: nat, b: nat, k: nat)
    ensures Low(Xor(a, b), k) == Xor(Low(a, k), Low(b, k))
    decreases k
  {
    if k == 0 {
      XorNone(0);
      assert Low(a, 0) == Low(b, 0) == Low(Xor(a, b), 0) == 0;
    } else {
      hide Xor, Low;
      XorBit(a, b);
      XorLow(a / 2, b / 2, k - 1);
      LowStep(a, k);
      LowStep(b, k);
      LowStep(Xor(a, b), k);
      XorStep(Low(a, k), Low(b, k));
      SameParity(a, b, Low(a, k), Low(b, k));
      hide *;
    }
  }

  /** Parts that share no bits. */
  lemma {:induction false} XorDisjoint(a: nat, k: nat, b: nat)
    requires a < Pow2(k)
    ensures Xor(a, Pow2(k) * b) == a + Pow2(k) * b
    decreases k
  {
    hide Xor;
    if k == 0 {
      XorNone(b);
      assert a == 0 && Pow2(0) * b == b;
    } else {
      var n := Pow2(k - 1) * b;
      assert Pow2(k) * b == 2 * n;
      XorDisjoint(a / 2, k - 1, b);
      XorStep(a, 2 * n);
      assert 2 * n / 2 == n;
    }
  }

  /** Two numbers with the same parts are one. */
  lemma SameParts(a: nat, b: nat, k: nat)
    requires Low(a, k) == Low(b, k) && Shift(a, k) == Shift(b, k)
    ensures a == b
  {
    SplitAt(a, k);
    SplitAt(b, k);
  }

  // ---- the product -----------------------------------------------------------------------------

  function Clmul(a: nat, b: nat): nat
    decreases b
  {
    if b == 0 then 0 else Xor(if b % 2 == 1 then a else 0, 2 * Clmul(a, b / 2))
  }

  lemma ClStep(a: nat, b: nat)
    ensures Clmul(a, b) == Xor(if b % 2 == 1 then a else 0, 2 * Clmul(a, b / 2))
  {
    if b == 0 {
      XorNone(0);
      assert Clmul(a, 0) == 0;
    }
  }

  lemma {:induction false} ClDist(a: nat, b: nat, c: nat)
    ensures Clmul(a, Xor(b, c)) == Xor(Clmul(a, b), Clmul(a, c))
    decreases b
  {
    hide Xor, Clmul;
    ClZero(a);
    if b == 0 {
      XorNone(c);
      XorNone(Clmul(a, c));
    } else {
      XorBit(b, c);
      ClDist(a, b / 2, c / 2);
      ClStep(a, b);
      ClStep(a, c);
      ClStep(a, Xor(b, c));
      var x, y := if b % 2 == 1 then a else 0, if c % 2 == 1 then a else 0;
      var p, q := Clmul(a, b / 2), Clmul(a, c / 2);
      XorSwap(x, 2 * p, y, 2 * q);
      XorDouble(p, q);
      XorSelf(a);
      XorNone(a);
      XorNone(0);
    }
  }

  lemma {:induction false} ClDouble(a: nat, b: nat)
    ensures Clmul(2 * a, b) == 2 * Clmul(a, b)
    decreases b
  {
    if b > 0 {
      ClDouble(a, b / 2);
      XorDouble(if b % 2 == 1 then a else 0, 2 * Clmul(a, b / 2));
    }
  }

  lemma ClEven(a: nat, b: nat)
    ensures Clmul(a, 2 * b) == 2 * Clmul(a, b)
  {
    ClStep(a, 2 * b);
    XorNone(2 * Clmul(a, b));
  }

  lemma {:induction false} ClZero(a: nat)
    ensures Clmul(0, a) == 0 && Clmul(a, 0) == 0
    decreases a
  {
    if a > 0 {
      ClZero(a / 2);
      XorNone(0);
    }
  }

  lemma ClOne(a: nat)
    ensures Clmul(a, 1) == a
  {
    ClStep(a, 1);
    assert Clmul(a, 0) == 0;
    XorNone(a);
  }

  lemma {:induction false} ClDistRight(a: nat, b: nat, c: nat)
    ensures Clmul(Xor(a, b), c) == Xor(Clmul(a, c), Clmul(b, c))
    decreases c
  {
    if c == 0 {
      XorNone(0);
    } else {
      ClDistRight(a, b, c / 2);
      ClStep(Xor(a, b), c);
      ClStep(a, c);
      ClStep(b, c);
      hide Xor, Clmul;
      var p, q := Clmul(a, c / 2), Clmul(b, c / 2);
      XorDouble(p, q);
      if c % 2 == 1 {
        XorSwap(a, 2 * p, b, 2 * q);
      } else {
        XorNone(2 * p);
        XorNone(2 * q);
        XorNone(2 * Xor(p, q));
      }
    }
  }

  lemma {:induction false} ClComm(a: nat, b: nat)
    ensures Clmul(a, b) == Clmul(b, a)
    decreases b
  {
    if b == 0 {
      ClZero(a);
    } else {
      ClComm(a, b / 2);
      ClStep(a, b);
      hide Xor, Clmul;
      ClDouble(b / 2, a);
      if b % 2 == 1 {
        XorDisjoint(1, 1, b / 2);
        TwoIs();
        ClDistRight(1, 2 * (b / 2), a);
        OneTimes(a);
      } else {
        XorNone(2 * Clmul(b / 2, a));
      }
    }
  }

  lemma TwoIs()
    ensures Pow2(1) == 2
  {
    assert Pow2(0) == 1;
  }

  lemma {:induction false} OneTimes(a: nat)
    ensures Clmul(1, a) == a
    decreases a
  {
    if a > 0 {
      OneTimes(a / 2);
      ClStep(1, a);
      TwoIs();
      if a % 2 == 1 {
        XorDisjoint(1, 1, a / 2);
      } else {
        XorNone(a);
      }
    }
  }

  lemma {:induction false} ClAssoc(a: nat, b: nat, c: nat)
    ensures Clmul(Clmul(a, b), c) == Clmul(a, Clmul(b, c))
    decreases c
  {
    if c == 0 {
      ClZero(Clmul(a, b));
      ClZero(b);
      ClZero(a);
    } else {
      hide Xor, Clmul;
      ClAssoc(a, b, c / 2);
      ClStep(Clmul(a, b), c);
      ClStep(b, c);
      ClDist(a, if c % 2 == 1 then b else 0, 2 * Clmul(b, c / 2));
      ClEven(a, Clmul(b, c / 2));
      ClZero(a);
    }
  }

  lemma {:induction false} ClBound(a: nat, m: nat, b: nat, n: nat)
    requires a < Pow2(m) && b < Pow2(n)
    ensures Clmul(a, b) < Pow2(m + n)
    decreases n
  {
    if b == 0 {
      assert Clmul(a, b) == 0;
    } else {
      ClBound(a, m, b / 2, n - 1);
      Pow2Mono(m, m + n);
      assert Pow2(m + n) == 2 * Pow2(m + n - 1);
      XorBound(if b % 2 == 1 then a else 0, 2 * Clmul(a, b / 2), m + n);
    }
  }

  /** A power of two shifts. */
  lemma {:induction false} ClPower(a: nat, k: nat)
    ensures Clmul(a, Pow2(k)) == Pow2(k) * a && Clmul(Pow2(k), a) == Pow2(k) * a
    decreases k
  {
    hide Xor, Clmul;
    if k == 0 {
      ClOne(a);
      OneTimes(a);
      assert Pow2(0) * a == a;
    } else {
      ClPower(a, k - 1);
      ClEven(a, Pow2(k - 1));
      ClDouble(Pow2(k - 1), a);
      assert Pow2(k) * a == 2 * (Pow2(k - 1) * a);
    }
  }

  /** No nonzero multiple of a polynomial of degree d has smaller degree. */
  lemma {:induction false} ClDegree(a: nat, d: nat, b: nat)
    requires Shift(a, d) == 1 && b > 0
    ensures Shift(Clmul(a, b), d) > 0
    decreases b
  {
    hide Xor, Clmul;
    ClStep(a, b);
    var x, y := if b % 2 == 1 then a else 0, 2 * Clmul(a, b / 2);
    if b == 1 {
      ClZero(a);
      XorNone(a);
    } else {
      ClDegree(a, d, b / 2);
      XorShift(x, y, d + 1);
      ShiftShift(a, d, 1);
      ShiftShift(y, d, 1);
      ShiftZero(d + 1);
      assert Shift(x, d + 1) == 0 by {
        assert Shift(1, 1) == Shift(0, 0) == 0;
      }
      assert Shift(y, d + 1) == Shift(Clmul(a, b / 2), d);
      XorNone(Shift(y, d + 1));
      ShiftShift(Xor(x, y), d, 1);
      ShiftZero(1);
    }
  }
}
