/** The multilinear helpers of transcript.rs. A multilinear extension is defined once, as the
    sum of a table against the eq weights of a point (least significant coordinate first); the
    folds, kernels and closed forms of the verifier are proved equal to that sum. */
module Multilinear {
  import opened Rings
  import opened Sums

  function Pow2(n: nat): (p: nat)
    ensures p > 0
  {
    if n == 0 then 1 else 2 * Pow2(n - 1)
  }

  lemma {:induction false} Pow2Add(m: nat, n: nat)
    ensures Pow2(m + n) == Pow2(m) * Pow2(n)
  {
    if m > 0 {
      Pow2Add(m - 1, n);
      assert Pow2(m + n) == 2 * Pow2(m - 1 + n);
    }
  }

  lemma Pow2Values()
    ensures Pow2(4) == 16 && Pow2(8) == 256 && Pow2(16) == 65536
  {
    assert Pow2(2) == 4;
    assert Pow2(4) == 16;
    Pow2Add(4, 4);
    Pow2Add(8, 8);
  }

  lemma {:induction false} Pow2Mono(m: nat, n: nat)
    requires m <= n
    ensures Pow2(m) <= Pow2(n)
  {
    if m < n {
      Pow2Mono(m, n - 1);
    }
  }

  lemma {:induction false} TimesNat(d: nat, w: nat)
    ensures d * w >= 0
  {
    if d > 0 {
      TimesNat(d - 1, w);
      Distributed(d, d - 1, 0, w);
    }
  }

  lemma Distributed(y: int, d: int, x: int, w: int)
    requires y == d + x + 1
    ensures y * w == d * w + x * w + w
  {
  }

  lemma MulStep(x: int, y: int, w: int)
    requires w > 0
    ensures x < y ==> x * w + w <= y * w
  {
    if x < y {
      TimesNat(y - x - 1, w);
      Distributed(y, y - x - 1, x, w);
    }
  }

  /** Quotient and remainder are the only ones. */
  lemma DivUnique(a: int, w: int, q: int, r: int)
    requires w > 0 && a == q * w + r && 0 <= r < w
    ensures a / w == q && a % w == r
  {
    MulStep(q, a / w, w);
    MulStep(a / w, q, w);
  }

  /** One coordinate's weight on the low bit of an index. */
  function EqBit(R: Ring, r: Elem, bit: int): Elem {
    if bit % 2 == 1 then r else R.add(R.one, r)
  }

  /** eq(k, p): the weight of index k at the point p. */
  function Eq(R: Ring, p: seq<Elem>, k: int): Elem {
    if p == [] then R.one else R.mul(EqBit(R, p[0], k), Eq(R, p[1..], k / 2))
  }

  function Weighted(R: Ring, f: int -> Elem, p: seq<Elem>): int -> Elem {
    k => R.mul(Eq(R, p, k), f(k))
  }

  /** The multilinear extension of the table f at the point p. */
  function Mle(R: Ring, f: int -> Elem, p: seq<Elem>): Elem {
    Sum(R, Pow2(|p|), Weighted(R, f, p))
  }

  /** One variable of a table fixed to r. */
  function Fold(R: Ring, f: int -> Elem, r: Elem): int -> Elem {
    k => R.Lerp(f(2 * k), f(2 * k + 1), r)
  }

  lemma MleEmpty(R: Ring, f: int -> Elem)
    requires R.Laws()
    ensures Mle(R, f, []) == f(0)
  {
    R.MulOne(f(0));
    R.AddZero(f(0));
    assert Weighted(R, f, [])(0) == f(0);
    assert Sum(R, 1, Weighted(R, f, [])) == R.add(Sum(R, 0, Weighted(R, f, [])), f(0));
  }

  /** Fixing the first variable is folding the table. */
  lemma MleFold(R: Ring, f: int -> Elem, p: seq<Elem>)
    requires R.Laws() && p != []
    ensures Mle(R, f, p) == Mle(R, Fold(R, f, p[0]), p[1..])
  {
    hide Sum, Eq;
    var g := Fold(R, f, p[0]);
    forall k
      ensures Weighted(R, g, p[1..])(k) == R.add(Weighted(R, f, p)(2 * k), Weighted(R, f, p)(2 * k + 1))
    {
      FoldTerm(R, f, p, k);
      assert g(k) == R.Lerp(f(2 * k), f(2 * k + 1), p[0]);
    }
    SumPairs(R, Pow2(|p| - 1), Weighted(R, f, p), Weighted(R, g, p[1..]));
  }

  lemma FoldTerm(R: Ring, f: int -> Elem, p: seq<Elem>, k: int)
    requires R.Laws() && p != []
    ensures R.add(R.mul(Eq(R, p, 2 * k), f(2 * k)), R.mul(Eq(R, p, 2 * k + 1), f(2 * k + 1)))
         == R.mul(Eq(R, p[1..], k), R.Lerp(f(2 * k), f(2 * k + 1), p[0]))
  {
    var r, e, a, b := p[0], Eq(R, p[1..], k), f(2 * k), f(2 * k + 1);
    var s := R.add(R.one, r);
    assert 2 * k / 2 == k && (2 * k + 1) / 2 == k;
    assert Eq(R, p, 2 * k) == R.mul(s, e) && Eq(R, p, 2 * k + 1) == R.mul(r, e);
    R.MulComm(s, e);
    R.MulComm(r, e);
    R.MulAssoc(e, s, a);
    R.MulAssoc(e, r, b);
    R.Dist(e, R.mul(s, a), R.mul(r, b));
    R.LerpSplit(a, b, r);
  }

  lemma MleEq(R: Ring, f: int -> Elem, g: int -> Elem, p: seq<Elem>)
    requires forall k :: 0 <= k < Pow2(|p|) ==> f(k) == g(k)
    ensures Mle(R, f, p) == Mle(R, g, p)
  {
    SumEq(R, Pow2(|p|), Weighted(R, f, p), Weighted(R, g, p));
  }

  lemma MleAdd(R: Ring, f: int -> Elem, g: int -> Elem, h: int -> Elem, p: seq<Elem>)
    requires R.Laws()
    requires forall k :: 0 <= k < Pow2(|p|) ==> h(k) == R.add(f(k), g(k))
    ensures Mle(R, h, p) == R.add(Mle(R, f, p), Mle(R, g, p))
  {
    forall k | 0 <= k < Pow2(|p|)
      ensures Weighted(R, h, p)(k) == R.add(Weighted(R, f, p)(k), Weighted(R, g, p)(k))
    {
      R.Dist(Eq(R, p, k), f(k), g(k));
    }
    SumAdd(R, Pow2(|p|), Weighted(R, f, p), Weighted(R, g, p), Weighted(R, h, p));
  }

  lemma MleScale(R: Ring, s: Elem, f: int -> Elem, h: int -> Elem, p: seq<Elem>)
    requires R.Laws()
    requires forall k :: 0 <= k < Pow2(|p|) ==> h(k) == R.mul(s, f(k))
    ensures Mle(R, h, p) == R.mul(s, Mle(R, f, p))
  {
    forall k | 0 <= k < Pow2(|p|)
      ensures Weighted(R, h, p)(k) == R.mul(s, Weighted(R, f, p)(k))
    {
      R.MulLeft(Eq(R, p, k), s, f(k));
    }
    SumScale(R, Pow2(|p|), s, Weighted(R, f, p), Weighted(R, h, p));
  }

  /** A table that is zero has extension zero. */
  lemma MleNone(R: Ring, f: int -> Elem, p: seq<Elem>)
    requires R.Laws()
    requires forall k :: 0 <= k < Pow2(|p|) ==> f(k) == R.zero
    ensures Mle(R, f, p) == R.zero
  {
    forall k | 0 <= k < Pow2(|p|)
      ensures Weighted(R, f, p)(k) == R.zero
    {
      R.MulZero(Eq(R, p, k));
    }
    SumNone(R, Pow2(|p|), Weighted(R, f, p));
  }

  /** The extension of a fold, at r, is the fold of the two halves' extensions. */
  lemma MleLerp(R: Ring, a: int -> Elem, b: int -> Elem, r: Elem, h: int -> Elem, p: seq<Elem>)
    requires R.Laws()
    requires forall k :: 0 <= k < Pow2(|p|) ==> h(k) == R.Lerp(a(k), b(k), r)
    ensures Mle(R, h, p) == R.Lerp(Mle(R, a, p), Mle(R, b, p), r)
  {
    var s := k => R.add(a(k), b(k));
    var t := k => R.mul(r, s(k));
    MleAdd(R, a, b, s, p);
    MleScale(R, r, s, t, p);
    MleAdd(R, a, t, h, p);
  }

  /** Weights of an index split at any coordinate. */
  lemma {:induction false} EqConcat(R: Ring, p: seq<Elem>, q: seq<Elem>, i: int, k: int)
    requires R.Laws() && 0 <= i < Pow2(|p|)
    ensures Eq(R, p + q, i + Pow2(|p|) * k) == R.mul(Eq(R, p, i), Eq(R, q, k))
  {
    if p == [] {
      assert p + q == q;
      R.MulOne(Eq(R, q, k));
    } else {
      var h := Pow2(|p| - 1);
      assert (p + q)[1..] == p[1..] + q;
      var n := i + 2 * h * k;
      assert Pow2(|p|) * k == 2 * h * k;
      assert n == i + 2 * (h * k);
      assert n % 2 == i % 2 && n / 2 == i / 2 + h * k;
      EqConcat(R, p[1..], q, i / 2, k);
      R.MulAssoc(EqBit(R, p[0], i), Eq(R, p[1..], i / 2), Eq(R, q, k));
    }
  }

  function Strided(f: int -> Elem, c: int, w: int): int -> Elem {
    k => f(c + w * k)
  }

  function InnerMle(R: Ring, f: int -> Elem, w: int, p: seq<Elem>): int -> Elem {
    c => Mle(R, Strided(f, c, w), p)
  }

  lemma InnerFold(R: Ring, f: int -> Elem, r: Elem, c: int, v: int, x: seq<Elem>)
    requires R.Laws()
    ensures Mle(R, Strided(Fold(R, f, r), c, v), x)
         == R.Lerp(Mle(R, Strided(f, 2 * c, 2 * v), x), Mle(R, Strided(f, 2 * c + 1, 2 * v), x), r)
  {
    var a, b, h := Strided(f, 2 * c, 2 * v), Strided(f, 2 * c + 1, 2 * v), Strided(Fold(R, f, r), c, v);
    forall k
      ensures h(k) == R.Lerp(a(k), b(k), r)
    {
      assert 2 * (c + v * k) == 2 * c + 2 * v * k;
    }
    MleLerp(R, a, b, r, h, x);
  }

  lemma InnerMleFold(R: Ring, f: int -> Elem, r: Elem, v: int, x: seq<Elem>, y: seq<Elem>)
    requires R.Laws()
    ensures Mle(R, InnerMle(R, Fold(R, f, r), v, x), y) == Mle(R, Fold(R, InnerMle(R, f, 2 * v, x), r), y)
  {
    forall c
      ensures InnerMle(R, Fold(R, f, r), v, x)(c) == Fold(R, InnerMle(R, f, 2 * v, x), r)(c)
    {
      InnerFold(R, f, r, c, v, x);
    }
    MleEq(R, InnerMle(R, Fold(R, f, r), v, x), Fold(R, InnerMle(R, f, 2 * v, x), r), y);
  }

  /** The extension at a point in two parts: first over the high part, then over the low one. */
  lemma {:induction false} MleConcat(R: Ring, f: int -> Elem, y: seq<Elem>, x: seq<Elem>)
    requires R.Laws()
    ensures Mle(R, f, y + x) == Mle(R, InnerMle(R, f, Pow2(|y|), x), y)
    decreases |y|
  {
    if y == [] {
      MleEmpty(R, InnerMle(R, f, 1, x));
      assert y + x == x;
      MleEq(R, f, Strided(f, 0, 1), x);
    } else {
      assert (y + x)[0] == y[0] && (y + x)[1..] == y[1..] + x;
      MleFold(R, f, y + x);
      MleConcat(R, Fold(R, f, y[0]), y[1..], x);
      InnerMleFold(R, f, y[0], Pow2(|y| - 1), x, y[1..]);
      MleFold(R, InnerMle(R, f, 2 * Pow2(|y| - 1), x), y);
    }
  }
}
