/** Natural numbers as words: shifts, low parts and single bits, by halving. */
module Bits {
  import opened Multilinear

  /** n >> k. */
  function Shift(n: nat, k: nat): nat
    decreases k, n
  {
    if k == 0 then n else Shift(n / 2, k - 1)
  }

  /** The low k bits of n. */
  function Low(n: nat, k: nat): nat
    decreases k, n
  {
    if k == 0 then 0 else n % 2 + 2 * Low(n / 2, k - 1)
  }

  function Bit(n: nat, k: nat): (b: nat)
    ensures b < 2
    decreases k, n
  {
    if k == 0 then n % 2 else Bit(n / 2, k - 1)
  }

  /** Bitwise exclusive or. */
  function Xor(a: nat, b: nat): nat {
    if a == 0 then b
    else if b == 0 then a
    else (a + b) % 2 + 2 * Xor(a / 2, b / 2)
  }

  /** Bitwise and, and or. */
  function And(a: nat, b: nat): nat
    decreases b
  {
    if b == 0 then 0 else (if a % 2 == 1 && b % 2 == 1 then 1 else 0) + 2 * And(a / 2, b / 2)
  }

  function Or(a: nat, b: nat): nat
    decreases a + b
  {
    if a + b == 0 then 0 else (if a % 2 == 1 || b % 2 == 1 then 1 else 0) + 2 * Or(a / 2, b / 2)
  }

  /** k ^ 1: the other child of a tree node's parent. */
  function Flip(k: nat): nat {
    if k % 2 == 0 then k + 1 else k - 1
  }

  lemma {:induction false} ShiftZero(k: nat)
    ensures Shift(0, k) == 0 && Low(0, k) == 0 && Bit(0, k) == 0
  {
    if k > 0 {
      ShiftZero(k - 1);
    }
  }

  lemma {:induction false} ShiftShift(n: nat, j: nat, k: nat)
    ensures Shift(Shift(n, j), k) == Shift(n, j + k)
  {
    if j > 0 {
      ShiftShift(n / 2, j - 1, k);
    }
  }

  lemma {:induction false} BitShift(n: nat, c: nat, k: nat)
    ensures Bit(Shift(n, c), k) == Bit(n, c + k)
  {
    if c > 0 {
      BitShift(n / 2, c - 1, k);
    }
  }

  lemma {:induction false} BitLow(n: nat, c: nat, k: nat)
    ensures Bit(Low(n, c), k) == if k < c then Bit(n, k) else 0
  {
    if c == 0 {
      ShiftZero(k);
    } else {
      var l := Low(n, c);
      assert l % 2 == n % 2 && l / 2 == Low(n / 2, c - 1);
      if k > 0 {
        BitLow(n / 2, c - 1, k - 1);
      }
    }
  }

  lemma {:induction false} LowBound(n: nat, k: nat)
    ensures Low(n, k) < Pow2(k)
  {
    if k > 0 {
      LowBound(n / 2, k - 1);
    }
  }

  lemma {:induction false} ShiftBound(n: nat, j: nat, k: nat)
    requires n < Pow2(j + k)
    ensures Shift(n, j) < Pow2(k)
  {
    if j > 0 {
      ShiftBound(n / 2, j - 1, k);
    }
  }

  /** A number below 2^k is its own low part, and nothing is left above it. */
  lemma {:induction false} LowSmall(n: nat, k: nat)
    requires n < Pow2(k)
    ensures Low(n, k) == n && Shift(n, k) == 0
  {
    if k > 0 {
      LowSmall(n / 2, k - 1);
    }
  }

  lemma {:induction false} ZeroBits(n: nat, k: nat)
    requires forall s: nat :: s < k ==> Bit(n, s) == 0
    ensures Low(n, k) == 0
  {
    if k > 0 {
      forall s: nat | s < k - 1
        ensures Bit(n / 2, s) == 0
      {
        assert Bit(n, s + 1) == 0;
      }
      ZeroBits(n / 2, k - 1);
      assert Bit(n, 0) == 0;
    }
  }

  lemma {:induction false} ZeroLow(n: nat, k: nat, s: nat)
    requires Low(n, k) == 0 && s < k
    ensures Bit(n, s) == 0
  {
    if s > 0 {
      ZeroLow(n / 2, k - 1, s - 1);
    }
  }

  lemma One(b: nat)
    ensures Pow2(0) == 1 && Pow2(0) * b == b
  {
  }

  lemma Doubled(k: nat, b: nat)
    requires k > 0
    ensures Pow2(k) == 2 * Pow2(k - 1) && Pow2(k) * b == 2 * (Pow2(k - 1) * b)
  {
  }

  lemma Halving(a: nat, n: nat)
    ensures (a + 2 * n) / 2 == a / 2 + n && (a + 2 * n) % 2 == a % 2
  {
  }

  lemma HalfJoin(a: nat, b: nat, h: nat)
    ensures (a + 2 * (h * b)) / 2 == a / 2 + h * b && (a + 2 * (h * b)) % 2 == a % 2
  {
    TimesNat(h, b);
    Halving(a, h * b);
  }

  lemma NoStep(n: nat)
    ensures Low(n, 0) == 0 && Shift(n, 0) == n
  {
  }

  lemma OneStep(n: nat, k: nat)
    requires k > 0
    ensures Low(n, k) == n % 2 + 2 * Low(n / 2, k - 1) && Shift(n, k) == Shift(n / 2, k - 1)
    ensures n == n % 2 + 2 * (n / 2)
  {
  }

  /** Splitting a number at bit k, and putting it together again. */
  lemma {:induction false} SplitAt(n: nat, k: nat)
    ensures n == Low(n, k) + Pow2(k) * Shift(n, k)
    decreases k
  {
    if k == 0 {
      One(n);
    } else {
      hide Pow2, Low, Shift;
      OneStep(n, k);
      SplitAt(n / 2, k - 1);
      Doubled(k, Shift(n / 2, k - 1));
    }
  }

  lemma {:induction false} Join(a: nat, k: nat, b: nat)
    requires a < Pow2(k)
    ensures Low(a + Pow2(k) * b, k) == a && Shift(a + Pow2(k) * b, k) == b
    decreases k
  {
    if k == 0 {
      One(b);
    } else {
      hide Pow2, Low, Shift;
      var n := a + Pow2(k) * b;
      Doubled(k, b);
      HalfJoin(a, b, Pow2(k - 1));
      OneStep(n, k);
      Join(a / 2, k - 1, b);
    }
  }

  /** A bit added above n leaves the parts below it and adds to the parts that hold it. */
  lemma {:induction false} AddHigh(n: nat, k: nat, v: nat, c: nat)
    requires c <= k
    ensures Low(n + Pow2(k) * v, c) == Low(n, c)
    ensures Shift(n + Pow2(k) * v, c) == Shift(n, c) + Pow2(k - c) * v
    decreases c
  {
    hide Pow2, Low, Shift;
    if c == 0 {
      NoStep(n);
      NoStep(n + Pow2(k) * v);
    } else {
      var m := Pow2(k - 1) * v;
      Doubled(k, v);
      Halving(n, m);
      OneStep(n, c);
      OneStep(n + 2 * m, c);
      AddHigh(n / 2, k - 1, v, c - 1);
    }
  }

  lemma {:induction false} BitAppend(a: nat, k: nat, b: nat, s: nat)
    requires a < Pow2(k) && b < 2
    ensures Bit(a + Pow2(k) * b, s) == if s < k then Bit(a, s) else if s == k then b else 0
  {
    var n := a + Pow2(k) * b;
    Join(a, k, b);
    if s < k {
      BitLow(n, k, s);
    } else {
      BitShift(n, k, s - k);
      if s > k {
        assert Bit(b, s - k) == Bit(b / 2, s - k - 1);
        ShiftZero(s - k - 1);
      }
    }
  }

  lemma {:induction false} AndLow(x: nat, k: nat)
    ensures And(x, Pow2(k) - 1) == Low(x, k)
  {
    if k > 0 {
      AndLow(x / 2, k - 1);
      assert (Pow2(k) - 1) / 2 == Pow2(k - 1) - 1 && (Pow2(k) - 1) % 2 == 1;
    }
  }

  lemma {:induction false} OrTop(a: nat, b: nat, k: nat)
    ensures Shift(Or(a, b), k) == Or(Shift(a, k), Shift(b, k))
  {
    if a + b == 0 {
      ShiftZero(k);
    } else if k > 0 {
      OrTop(a / 2, b / 2, k - 1);
    }
  }

  lemma OrNone(a: nat, b: nat)
    ensures Or(a, b) == 0 <==> a == 0 && b == 0
    decreases a + b
  {
    if a + b > 0 {
      OrNone(a / 2, b / 2);
    }
  }

  lemma AndStep(x: nat, m: nat)
    ensures And(x, 2 * m) == 2 * And(x / 2, m) && And(x, 2 * m + 1) == x % 2 + 2 * And(x / 2, m)
  {
  }

  /** A byte below a number. */
  lemma ByteRoom(a: nat, b: nat, p: nat)
    requires b < 256
    ensures Bit(256 * a + b, p) == if p < 8 then Bit(b, p) else Bit(a, p - 8)
  {
    Pow2Values();
    hide Bit, Low, Shift, Pow2;
    var n := b + Pow2(8) * a;
    Join(b, 8, a);
    if p < 8 {
      BitLow(n, 8, p);
    } else {
      BitShift(n, 8, p - 8);
    }
  }
}
