/** Polynomials by their coefficients, lowest first, as the sumcheck messages carry them. */
module Polynomials {
  import opened Rings
  import opened Sums
  import opened Multilinear
  import opened Kernels

  /** Horner's rule on the coefficients c(i), .., c(n - 1). */
  function Horner(R: Ring, c: int -> Elem, i: int, n: int, x: Elem): Elem
    decreases n - i
  {
    if i >= n then R.zero else R.add(R.mul(Horner(R, c, i + 1, n, x), x), c(i))
  }

  function PolyEval(R: Ring, c: seq<Elem>, x: Elem): Elem {
    Horner(R, TableOf(R, c), 0, |c|, x)
  }

  /** `poly_eval`'s fold, from the top coefficient down. */
  method EvalPoly(R: Ring, c: seq<Elem>, x: Elem) returns (r: Elem)
    ensures r == PolyEval(R, c, x)
  {
    r := R.zero;
    var i := |c|;
    while i > 0
      invariant 0 <= i <= |c|
      invariant r == Horner(R, TableOf(R, c), i, |c|, x)
    {
      i := i - 1;
      r := R.add(R.mul(r, x), c[i]);
    }
  }

  /** Evaluation is additive in the coefficients. */
  lemma {:induction false} HornerAdd(R: Ring, a: int -> Elem, b: int -> Elem, c: int -> Elem, i: int, n: int, x: Elem)
    requires R.Laws() && 0 <= i
    requires forall k :: i <= k < n ==> c(k) == R.add(a(k), b(k))
    ensures Horner(R, c, i, n, x) == R.add(Horner(R, a, i, n, x), Horner(R, b, i, n, x))
    decreases n - i
  {
    if i >= n {
      R.AddZero(R.zero);
    } else {
      HornerAdd(R, a, b, c, i + 1, n, x);
      var p, q := Horner(R, a, i + 1, n, x), Horner(R, b, i + 1, n, x);
      R.Dist(x, p, q);
      R.AddSwap(R.mul(p, x), R.mul(q, x), a(i), b(i));
    }
  }

  lemma {:induction false} HornerScale(R: Ring, s: Elem, a: int -> Elem, c: int -> Elem, i: int, n: int, x: Elem)
    requires R.Laws() && 0 <= i
    requires forall k :: i <= k < n ==> c(k) == R.mul(s, a(k))
    ensures Horner(R, c, i, n, x) == R.mul(s, Horner(R, a, i, n, x))
    decreases n - i
  {
    if i >= n {
      R.MulZero(s);
    } else {
      HornerScale(R, s, a, c, i + 1, n, x);
      var p := Horner(R, a, i + 1, n, x);
      R.MulAssoc(s, p, x);
      R.Dist(s, R.mul(p, x), a(i));
    }
  }

  /** Evaluation passes through a multilinear extension taken coefficient by coefficient. */
  lemma {:induction false} HornerMle(R: Ring, cf: (int, int) -> Elem, q: int -> Elem, v: int -> Elem,
                                     i: int, n: int, x: Elem, p: seq<Elem>)
    requires R.Laws() && 0 <= i
    requires forall k :: i <= k < n ==> q(k) == Mle(R, Column(cf, k), p)
    requires forall k :: 0 <= k < Pow2(|p|) ==> v(k) == Horner(R, Row(cf, k), i, n, x)
    ensures Horner(R, q, i, n, x) == Mle(R, v, p)
    decreases n - i
  {
    if i >= n {
      MleNone(R, v, p);
    } else {
      var u := k => Horner(R, Row(cf, k), i + 1, n, x);
      HornerMle(R, cf, q, u, i + 1, n, x, p);
      var ux := k => R.mul(x, u(k));
      MleScale(R, x, u, ux, p);
      R.MulComm(x, Mle(R, u, p));
      forall k | 0 <= k < Pow2(|p|)
        ensures v(k) == R.add(ux(k), Column(cf, i)(k))
      {
        R.MulComm(x, u(k));
        assert Row(cf, k)(i) == Column(cf, i)(k);
      }
      MleAdd(R, ux, Column(cf, i), v, p);
    }
  }

  // ---- products of linear polynomials --------------------------------------------------------

  function MulLinearCoefficient(R: Ring, p: seq<Elem>, a: Elem, d: Elem, i: int): Elem {
    R.add(R.mul(TableOf(R, p)(i), a), R.mul(TableOf(R, p)(i - 1), d))
  }

  /** p(X) (a + dX). */
  function MulLinear(R: Ring, p: seq<Elem>, a: Elem, d: Elem): (r: seq<Elem>)
    ensures |r| == |p| + 1
    ensures forall i :: 0 <= i <= |p| ==> r[i] == MulLinearCoefficient(R, p, a, d, i)
  {
    seq(|p| + 1, i => MulLinearCoefficient(R, p, a, d, i))
  }

  lemma {:induction false} MulLinearFrom(R: Ring, t: int -> Elem, m: int -> Elem, n: nat, a: Elem, d: Elem,
                                         i: nat, x: Elem)
    requires R.Laws() && i <= n + 1 && t(n) == R.zero
    requires forall k {:trigger m(k)} :: 0 <= k <= n ==> m(k) == R.add(R.mul(t(k), a), R.mul(t(k - 1), d))
    ensures var h := Horner(R, t, i, n, x);
      Horner(R, m, i, n + 1, x) == R.add(R.mul(h, a), R.mul(R.add(R.mul(h, x), t(i - 1)), d))
    decreases n + 1 - i
  {
    if i == n + 1 {
      R.MulZero(a);
      R.MulZero(x);
      R.AddZero(R.zero);
      R.MulZero(d);
    } else {
      MulLinearFrom(R, t, m, n, a, d, i + 1, x);
      var g, h := Horner(R, t, i + 1, n, x), Horner(R, t, i, n, x);
      if i == n {
        R.MulZero(x);
        R.AddZero(R.zero);
      }
      MulLinearStep(R, g, h, t(i), t(i - 1), a, d, x);
    }
  }

  lemma MulLinearStep(R: Ring, g: Elem, h: Elem, c: Elem, b: Elem, a: Elem, d: Elem, x: Elem)
    requires R.Laws() && h == R.add(R.mul(g, x), c)
    ensures R.add(R.mul(R.add(R.mul(g, a), R.mul(h, d)), x), R.add(R.mul(c, a), R.mul(b, d)))
         == R.add(R.mul(h, a), R.mul(R.add(R.mul(h, x), b), d))
  {
    R.Dist(x, R.mul(g, a), R.mul(h, d));
    R.AddSwap(R.mul(R.mul(g, a), x), R.mul(R.mul(h, d), x), R.mul(c, a), R.mul(b, d));
    R.MulAssoc(g, a, x);
    R.MulComm(a, x);
    R.MulAssoc(g, x, a);
    R.Dist(a, R.mul(g, x), c);
    R.MulAssoc(h, d, x);
    R.MulComm(d, x);
    R.MulAssoc(h, x, d);
    R.Dist(d, R.mul(h, x), b);
  }

  lemma MulLinearEval(R: Ring, p: seq<Elem>, a: Elem, d: Elem, x: Elem)
    requires R.Laws()
    ensures PolyEval(R, MulLinear(R, p, a, d), x) == R.mul(PolyEval(R, p, x), R.add(a, R.mul(x, d)))
  {
    var t, h, n := TableOf(R, p), PolyEval(R, p, x), |p|;
    var q := MulLinear(R, p, a, d);
    var m := TableOf(R, q);
    forall k {:trigger m(k)} | 0 <= k <= n
      ensures m(k) == R.add(R.mul(t(k), a), R.mul(t(k - 1), d))
    {
      assert m(k) == q[k];
    }
    MulLinearFrom(R, t, m, n, a, d, 0, x);
    MulLinearAtZero(R, h, t(-1), a, d, x);
  }

  lemma MulLinearAtZero(R: Ring, h: Elem, z: Elem, a: Elem, d: Elem, x: Elem)
    requires R.Laws() && z == R.zero
    ensures R.add(R.mul(h, a), R.mul(R.add(R.mul(h, x), z), d)) == R.mul(h, R.add(a, R.mul(x, d)))
  {
    R.AddZero(R.mul(h, x));
    R.MulAssoc(h, x, d);
    R.Dist(h, a, R.mul(x, d));
  }

  function Power(R: Ring, x: Elem, n: nat): Elem {
    if n == 0 then R.one else R.mul(Power(R, x, n - 1), x)
  }

  function Product(R: Ring, n: nat, f: int -> Elem): Elem {
    if n == 0 then R.one else R.mul(Product(R, n - 1, f), f(n - 1))
  }

  lemma {:induction false} ProductEq(R: Ring, n: nat, f: int -> Elem, g: int -> Elem)
    requires forall i :: 0 <= i < n ==> f(i) == g(i)
    ensures Product(R, n, f) == Product(R, n, g)
  {
    if n > 0 {
      ProductEq(R, n - 1, f, g);
    }
  }

  /** The product of n lines, the i-th through a(i) at 0 and b(i) at 1. */
  function LineProduct(R: Ring, n: nat, a: int -> Elem, b: int -> Elem): (p: seq<Elem>)
    ensures |p| == n + 1
  {
    if n == 0 then [R.one]
    else MulLinear(R, LineProduct(R, n - 1, a, b), a(n - 1), R.add(a(n - 1), b(n - 1)))
  }

  lemma {:induction false} LineProductEval(R: Ring, n: nat, a: int -> Elem, b: int -> Elem, x: Elem, f: int -> Elem)
    requires R.Laws()
    requires forall i :: 0 <= i < n ==> f(i) == R.Lerp(a(i), b(i), x)
    ensures PolyEval(R, LineProduct(R, n, a, b), x) == Product(R, n, f)
  {
    if n == 0 {
      R.MulZero(x);
      R.AddZero(R.one);
      assert Horner(R, TableOf(R, [R.one]), 0, 1, x)
          == R.add(R.mul(Horner(R, TableOf(R, [R.one]), 1, 1, x), x), R.one);
    } else {
      LineProductEval(R, n - 1, a, b, x, f);
      MulLinearEval(R, LineProduct(R, n - 1, a, b), a(n - 1), R.add(a(n - 1), b(n - 1)), x);
    }
  }

  // ---- differences ---------------------------------------------------------------------------

  function Diff(R: Ring, p: seq<Elem>, q: seq<Elem>): (d: seq<Elem>)
    requires |p| == |q|
    ensures |d| == |p|
  {
    seq(|p|, i requires 0 <= i < |p| => R.add(p[i], q[i]))
  }

  ghost predicate IsZero(R: Ring, p: seq<Elem>) {
    forall i :: 0 <= i < |p| ==> p[i] == R.zero
  }

  /** x is a root of the nonzero polynomial p. */
  ghost predicate Root(R: Ring, p: seq<Elem>, x: Elem) {
    !IsZero(R, p) && PolyEval(R, p, x) == R.zero
  }

  /** Two different polynomials of one length agree only at roots of their difference. */
  lemma AgreeOnlyAtRoots(R: Ring, p: seq<Elem>, q: seq<Elem>, x: Elem)
    requires R.Laws() && |p| == |q| && p != q
    ensures Root(R, Diff(R, p, q), x) <==> PolyEval(R, p, x) == PolyEval(R, q, x)
  {
    var i :| 0 <= i < |p| && p[i] != q[i];
    R.SumZero(p[i], q[i]);
    assert Diff(R, p, q)[i] != R.zero;
    HornerAdd(R, TableOf(R, p), TableOf(R, q), TableOf(R, Diff(R, p, q)), 0, |p|, x);
    R.SumZero(PolyEval(R, p, x), PolyEval(R, q, x));
  }

  // ---- how many roots ------------------------------------------------------------------------

  /** p(X) / (X + r), by synthetic division. */
  function Quotient(R: Ring, p: seq<Elem>, r: Elem): (q: seq<Elem>)
    requires p != []
    ensures |q| == |p| - 1
    ensures forall i :: 0 <= i < |q| ==> q[i] == Horner(R, TableOf(R, p), i + 1, |p|, r)
  {
    seq(|p| - 1, i => Horner(R, TableOf(R, p), i + 1, |p|, r))
  }

  /** A root divides: p(X) = q(X) (r + X). */
  lemma RootDivides(R: Ring, p: seq<Elem>, r: Elem)
    requires R.Laws() && p != [] && PolyEval(R, p, r) == R.zero
    ensures MulLinear(R, Quotient(R, p, r), r, R.one) == p
  {
    hide Ring.Laws;
    var q := Quotient(R, p, r);
    forall i | 0 <= i < |p|
      ensures MulLinear(R, q, r, R.one)[i] == p[i]
    {
      QuotientStep(R, p, r, i);
    }
  }

  lemma QuotientStep(R: Ring, p: seq<Elem>, r: Elem, i: nat)
    requires R.Laws() && i < |p| && PolyEval(R, p, r) == R.zero
    ensures MulLinearCoefficient(R, Quotient(R, p, r), r, R.one, i) == p[i]
  {
    hide Ring.Laws;
    var t, q, n := TableOf(R, p), Quotient(R, p, r), |p|;
    var above, at := Horner(R, t, i + 1, n, r), Horner(R, t, i, n, r);
    assert TableOf(R, q)(i) == above;
    assert TableOf(R, q)(i - 1) == at by {
      if i > 0 {
        assert q[i - 1] == at;
      }
    }
    R.MulOne(at);
    R.AddComm(R.mul(above, r), p[i]);
    R.Cancel(p[i], R.mul(above, r));
    R.AddComm(R.mul(above, r), at);
  }

  lemma ZeroQuotient(R: Ring, p: seq<Elem>, r: Elem)
    requires R.Laws() && p != [] && PolyEval(R, p, r) == R.zero && IsZero(R, Quotient(R, p, r))
    ensures IsZero(R, p)
  {
    hide Ring.Laws;
    var q := Quotient(R, p, r);
    RootDivides(R, p, r);
    R.MulZero(r);
    R.MulZero(R.one);
    R.AddZero(R.zero);
    forall i | 0 <= i < |p|
      ensures p[i] == R.zero
    {
      assert p[i] == MulLinearCoefficient(R, q, r, R.one, i);
      assert TableOf(R, q)(i) == R.zero && TableOf(R, q)(i - 1) == R.zero;
    }
  }

  /** Another root of p is one of the quotient. */
  lemma OtherRoot(R: Ring, p: seq<Elem>, r: Elem, x: Elem)
    requires R.Laws() && R.Domain() && Root(R, p, r) && Root(R, p, x) && x != r
    ensures p != [] && Root(R, Quotient(R, p, r), x)
  {
    hide Ring.Laws;
    assert p != [];
    var q := Quotient(R, p, r);
    RootDivides(R, p, r);
    MulLinearEval(R, q, r, R.one, x);
    R.MulOne(x);
    R.SumZero(r, x);
    assert Use(PolyEval(R, q, x), R.add(r, x), R.zero);
    if IsZero(R, q) {
      ZeroQuotient(R, p, r);
    }
  }

  /** A nonzero polynomial has fewer roots than coefficients. */
  lemma {:induction false} FewRoots(R: Ring, p: seq<Elem>, roots: seq<Elem>)
    requires R.Laws() && R.Domain()
    requires !IsZero(R, p)
    requires forall i :: 0 <= i < |roots| ==> Root(R, p, roots[i])
    requires forall i, j :: 0 <= i < j < |roots| ==> roots[i] != roots[j]
    ensures |roots| < |p|
    decreases |roots|
  {
    hide Ring.Laws, Ring.Domain, Root;
    if roots == [] {
    } else {
      var r, rest := roots[0], roots[1..];
      var q := Quotient(R, p, r);
      assert !IsZero(R, q) by {
        if IsZero(R, q) {
          RootIs(R, p, r);
          ZeroQuotient(R, p, r);
        }
      }
      forall i | 0 <= i < |rest|
        ensures Root(R, q, rest[i])
      {
        OtherRoot(R, p, r, roots[i + 1]);
      }
      FewRoots(R, q, rest);
    }
  }

  lemma RootIs(R: Ring, p: seq<Elem>, r: Elem)
    requires Root(R, p, r)
    ensures p != [] && PolyEval(R, p, r) == R.zero
  {
  }

  /** Two different polynomials of one length agree at fewer points than they have coefficients. */
  lemma FewAgreements(R: Ring, p: seq<Elem>, q: seq<Elem>, points: seq<Elem>)
    requires R.Laws() && R.Domain() && |p| == |q| && p != q
    requires forall i :: 0 <= i < |points| ==> PolyEval(R, p, points[i]) == PolyEval(R, q, points[i])
    requires forall i, j :: 0 <= i < j < |points| ==> points[i] != points[j]
    ensures |points| < |p|
  {
    hide Ring.Laws, Ring.Domain, PolyEval, IsZero, Root;
    forall i | 0 <= i < |points|
      ensures Root(R, Diff(R, p, q), points[i])
    {
      AgreeOnlyAtRoots(R, p, q, points[i]);
    }
    NotZero(R, p, q);
    FewRoots(R, Diff(R, p, q), points);
  }

  lemma NotZero(R: Ring, p: seq<Elem>, q: seq<Elem>)
    requires R.Laws() && |p| == |q| && p != q
    ensures !IsZero(R, Diff(R, p, q))
  {
    hide Ring.Laws;
    var i :| 0 <= i < |p| && p[i] != q[i];
    R.SumZero(p[i], q[i]);
    assert Diff(R, p, q)[i] != R.zero;
  }
}
