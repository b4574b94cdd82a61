/** The guest's view of the field (pow.py): binary polynomials in the generator, and addresses
    that are powers of it. */
module GuestField {
  import opened Rings
  import opened Multilinear
  import opened Bits

  /** Names the numbers at which two elements are compared. */
  ghost predicate Compare(a: nat, b: nat, c: nat, d: nat) {
    true
  }

  /** The field as the guest uses it: the generator, the extension's y, an inverse, and the test
      `assert_in_k` makes. */
  datatype Field = Field(R: Ring, g: Elem, y: Elem, inv: Elem -> Elem, inK: Elem -> bool, order: nat) {

    function Pow(k: nat): Elem {
      if k == 0 then R.one else R.mul(g, Pow(k - 1))
    }

    function BitElem(b: int): Elem {
      if b % 2 == 1 then R.one else R.zero
    }

    /** The polynomial whose coefficients are n's bits. */
    function Emb(n: nat): Elem {
      if n == 0 then R.zero else R.add(BitElem(n), R.mul(g, Emb(n / 2)))
    }

    /** a + yb, for two 64-bit polynomials: what a memory cell or a digest's cell holds. */
    function Pair(a: nat, b: nat): Elem {
      R.add(Emb(a), R.mul(y, Emb(b)))
    }

    /** Polynomials of degree below 64 and their y-multiples are independent; the generator has
        the given order; the inverse inverts. */
    ghost predicate Valid() {
      && R.Laws()
      && R.Domain()
      && (forall a: nat, b: nat, c: nat, d: nat {:trigger Compare(a, b, c, d)} ::
            a < Pow2(64) && b < Pow2(64) && c < Pow2(64) && d < Pow2(64) && Pair(a, b) == Pair(c, d)
            ==> a == c && b == d)
      && order > 1
      && (forall j: nat, k: nat {:trigger Compare(j, k, 0, 0)} :: Pow(j) == Pow(k) ==> j % order == k % order)
      && (forall a :: a != R.zero ==> R.mul(a, inv(a)) == R.one)
      && (forall a :: inK(a) <==> exists b: nat :: b < Pow2(64) && a == Emb(b))
    }

    lemma {:induction false} PowAdd(j: nat, k: nat)
      requires R.Laws()
      ensures Pow(j + k) == R.mul(Pow(j), Pow(k))
    {
      if j == 0 {
        R.MulOne(Pow(k));
      } else {
        PowAdd(j - 1, k);
        R.MulAssoc(g, Pow(j - 1), Pow(k));
      }
    }

    lemma {:induction false} PowSquare(k: nat, n: nat)
      requires R.Laws()
      ensures R.Frob(Pow(k), n) == Pow(k * Pow2(n))
    {
      if n > 0 {
        PowSquare(k, n - 1);
        var m := k * Pow2(n - 1);
        PowAdd(m, m);
        assert k * Pow2(n) == k * (2 * Pow2(n - 1)) == 2 * m;
      }
    }

    /** Every power of the generator is nonzero: the generator has a finite order above one. */
    lemma PowNonzero(k: nat)
      requires Valid()
      ensures Pow(k) != R.zero
    {
      if Pow(k) == R.zero {
        R.MulZero(g);
        assert Pow(k + 1) == R.zero;
        assert Compare(k + 1, k, 0, 0);
        assert (k + 1) % order == k % order;
        NextResidue(k, order);
      }
    }

    lemma NextResidue(k: nat, m: nat)
      requires m > 1
      ensures (k + 1) % m != k % m
    {
      var q, r := k / m, k % m;
      if r + 1 < m {
        DivUnique(k + 1, m, q, r + 1);
      } else {
        DivUnique(k + 1, m, q + 1, 0);
      }
    }

    /** Exponents below the order are determined by the power. */
    lemma PowInjective(j: nat, k: nat)
      requires Valid() && j < order && k < order && Pow(j) == Pow(k)
      ensures j == k
    {
      assert Compare(j, k, 0, 0);
      DivUnique(j, order, 0, j);
      DivUnique(k, order, 0, k);
    }

    lemma ParityAdd(a: int, b: int)
      ensures (a + b) % 2 == if a % 2 == b % 2 then 0 else 1
    {
      var c := a / 2 + b / 2;
      assert a + b == 2 * c + a % 2 + b % 2;
    }

    lemma BitElemAdd(a: int, b: int)
      requires R.Laws()
      ensures R.add(BitElem(a), BitElem(b)) == BitElem(a + b)
    {
      R.AddZero(R.one);
      R.AddZero(R.zero);
      R.AddSelf(R.one);
      ParityAdd(a, b);
    }

    lemma EmbStep(n: nat)
      requires R.Laws()
      ensures Emb(n) == R.add(BitElem(n), R.mul(g, Emb(n / 2)))
    {
      if n == 0 {
        R.MulZero(g);
        R.AddZero(R.zero);
      }
    }

    /** Disjoint bit ranges add. */
    lemma {:induction false} EmbSplit(a: nat, k: nat, b: nat)
      requires R.Laws() && a < Pow2(k)
      ensures Emb(a + Pow2(k) * b) == R.add(Emb(a), R.mul(Pow(k), Emb(b)))
    {
      hide Emb;
      if k == 0 {
        R.MulOne(Emb(b));
        R.AddZero(Emb(b));
        EmbSmall();
      } else {
        var h := Pow2(k - 1);
        var n := a + Pow2(k) * b;
        assert n == a + 2 * (h * b) by {
          assert Pow2(k) * b == 2 * h * b == 2 * (h * b);
        }
        assert n / 2 == a / 2 + h * b && n % 2 == a % 2;
        EmbSplit(a / 2, k - 1, b);
        EmbStep(n);
        EmbStep(a);
        var u, v := Emb(a / 2), R.mul(Pow(k - 1), Emb(b));
        R.Dist(g, u, v);
        R.MulAssoc(g, Pow(k - 1), Emb(b));
        R.AddAssoc(BitElem(a), R.mul(g, u), R.mul(g, v));
      }
    }

    /** A number as its low k bits and the rest. */
    lemma EmbParts(n: nat, k: nat)
      requires R.Laws()
      ensures Emb(n) == R.add(Emb(Low(n, k)), R.mul(Pow(k), Emb(Shift(n, k))))
    {
      SplitAt(n, k);
      LowBound(n, k);
      EmbSplit(Low(n, k), k, Shift(n, k));
    }

    lemma EmbSmall()
      requires R.Laws()
      ensures Emb(0) == R.zero && Emb(1) == R.one
    {
      R.MulZero(g);
      R.AddZero(R.one);
      assert Emb(1) == R.add(BitElem(1), R.mul(g, Emb(0)));
    }

    /** Polynomials of degree below 64 are told apart by their element. */
    lemma EmbInjective(a: nat, b: nat)
      requires Valid() && a < Pow2(64) && b < Pow2(64) && Emb(a) == Emb(b)
      ensures a == b
    {
      assert 0 < Pow2(64) && Compare(a, 0, b, 0);
    }

    lemma PairInjective(a: nat, b: nat, c: nat, d: nat)
      requires Valid() && a < Pow2(64) && b < Pow2(64) && c < Pow2(64) && d < Pow2(64) && Pair(a, b) == Pair(c, d)
      ensures a == c && b == d
    {
      assert Compare(a, b, c, d);
    }
  }

  lemma {:induction false} EmbXor(F: Field, a: nat, b: nat)
    requires F.R.Laws()
    ensures F.Emb(Xor(a, b)) == F.R.add(F.Emb(a), F.Emb(b))
  {
    var R := F.R;
    if a == 0 {
      R.AddZero(F.Emb(b));
    } else if b == 0 {
      R.AddZero(F.Emb(a));
    } else {
      var n := Xor(a, b);
      EmbXor(F, a / 2, b / 2);
      assert n / 2 == Xor(a / 2, b / 2) && n % 2 == (a + b) % 2;
      F.EmbStep(n);
      F.EmbStep(a);
      F.EmbStep(b);
      F.BitElemAdd(a, b);
      var u, v := F.Emb(a / 2), F.Emb(b / 2);
      R.Dist(F.g, u, v);
      R.AddSwap(F.BitElem(a), R.mul(F.g, u), F.BitElem(b), R.mul(F.g, v));
    }
  }
}
