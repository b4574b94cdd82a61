/** Finite sums over a ring of characteristic two: the exchanges, splits and reindexings the
    verifier's closed forms come from. */
module Sums {
  import opened Rings

  function Sum(R: Ring, n: nat, f: int -> Elem): Elem {
    if n == 0 then R.zero else R.add(Sum(R, n - 1, f), f(n - 1))
  }

  lemma {:induction false} SumEq(R: Ring, n: nat, f: int -> Elem, g: int -> Elem)
    requires forall i :: 0 <= i < n ==> f(i) == g(i)
    ensures Sum(R, n, f) == Sum(R, n, g)
  {
    if n > 0 {
      SumEq(R, n - 1, f, g);
    }
  }

  lemma {:induction false} SumNone(R: Ring, n: nat, f: int -> Elem)
    requires R.Laws()
    requires forall i :: 0 <= i < n ==> f(i) == R.zero
    ensures Sum(R, n, f) == R.zero
  {
    if n > 0 {
      SumNone(R, n - 1, f);
      R.AddZero(R.zero);
    }
  }

  /** In the lemmas below the summand of the result is given pointwise, as h. */
  lemma {:induction false} SumAdd(R: Ring, n: nat, f: int -> Elem, g: int -> Elem, h: int -> Elem)
    requires R.Laws()
    requires forall i :: 0 <= i < n ==> h(i) == R.add(f(i), g(i))
    ensures Sum(R, n, h) == R.add(Sum(R, n, f), Sum(R, n, g))
  {
    if n == 0 {
      R.AddZero(R.zero);
    } else {
      SumAdd(R, n - 1, f, g, h);
      R.AddSwap(Sum(R, n - 1, f), Sum(R, n - 1, g), f(n - 1), g(n - 1));
    }
  }

  lemma {:induction false} SumScale(R: Ring, n: nat, s: Elem, f: int -> Elem, h: int -> Elem)
    requires R.Laws()
    requires forall i :: 0 <= i < n ==> h(i) == R.mul(s, f(i))
    ensures Sum(R, n, h) == R.mul(s, Sum(R, n, f))
  {
    if n == 0 {
      R.MulZero(s);
    } else {
      SumScale(R, n - 1, s, f, h);
      R.Dist(s, Sum(R, n - 1, f), f(n - 1));
    }
  }

  lemma {:induction false} SumSplit(R: Ring, n: nat, m: nat, f: int -> Elem, h: int -> Elem)
    requires R.Laws()
    requires forall i :: 0 <= i < m ==> h(i) == f(n + i)
    ensures Sum(R, n + m, f) == R.add(Sum(R, n, f), Sum(R, m, h))
  {
    if m == 0 {
      R.AddZero(Sum(R, n, f));
    } else {
      SumSplit(R, n, m - 1, f, h);
      R.AddAssoc(Sum(R, n, f), Sum(R, m - 1, h), f(n + m - 1));
    }
  }

  lemma SumTwo(R: Ring, n: nat, f: int -> Elem)
    requires R.Laws() && n >= 2
    ensures Sum(R, n, f) == R.add(Sum(R, n - 2, f), R.add(f(n - 2), f(n - 1)))
  {
    R.AddAssoc(Sum(R, n - 2, f), f(n - 2), f(n - 1));
  }

  lemma {:induction false} SumPairs(R: Ring, m: nat, f: int -> Elem, h: int -> Elem)
    requires R.Laws()
    requires forall k :: 0 <= k < m ==> h(k) == R.add(f(2 * k), f(2 * k + 1))
    ensures Sum(R, 2 * m, f) == Sum(R, m, h)
  {
    if m > 0 {
      var l := m - 1;
      SumPairs(R, l, f, h);
      assert h(l) == R.add(f(2 * l), f(2 * l + 1));
      SumTwo(R, 2 * l + 2, f);
    }
  }

  function Row(f: (int, int) -> Elem, i: int): int -> Elem {
    j => f(i, j)
  }

  function Column(f: (int, int) -> Elem, j: int): int -> Elem {
    i => f(i, j)
  }

  /** Exchange of two sums, the inner ones given pointwise. */
  lemma {:induction false} SumExchange(R: Ring, n: nat, m: nat, f: (int, int) -> Elem,
                                       rows: int -> Elem, columns: int -> Elem)
    requires R.Laws()
    requires forall i :: 0 <= i < n ==> rows(i) == Sum(R, m, Row(f, i))
    requires forall j :: 0 <= j < m ==> columns(j) == Sum(R, n, Column(f, j))
    ensures Sum(R, n, rows) == Sum(R, m, columns)
  {
    if n == 0 {
      SumNone(R, m, columns);
    } else {
      var shorter := j => Sum(R, n - 1, Column(f, j));
      SumExchange(R, n - 1, m, f, rows, shorter);
      SumAdd(R, m, shorter, Row(f, n - 1), columns);
    }
  }

  /** A sum with one term. */
  lemma {:induction false} SumPick(R: Ring, n: nat, k: nat, f: int -> Elem)
    requires R.Laws() && k < n
    requires forall i :: 0 <= i < n && i != k ==> f(i) == R.zero
    ensures Sum(R, n, f) == f(k)
  {
    if k == n - 1 {
      SumNone(R, n - 1, f);
      R.AddZero(f(k));
    } else {
      SumPick(R, n - 1, k, f);
      R.AddZero(f(k));
    }
  }

  /** Reindexing by a bijection p of [0, n), q its inverse: an exchange of sums over the
      incidence p(i) = k. */
  lemma SumReindex(R: Ring, n: nat, p: int -> int, q: int -> int, f: int -> Elem, h: int -> Elem)
    requires R.Laws()
    requires forall i :: 0 <= i < n ==> 0 <= p(i) < n && q(p(i)) == i
    requires forall k :: 0 <= k < n ==> 0 <= q(k) < n && p(q(k)) == k
    requires forall i :: 0 <= i < n ==> h(i) == f(p(i))
    ensures Sum(R, n, h) == Sum(R, n, f)
  {
    var inc := (i: int, k: int) => if p(i) == k then f(k) else R.zero;
    forall i | 0 <= i < n
      ensures h(i) == Sum(R, n, Row(inc, i))
    {
      SumPick(R, n, p(i), Row(inc, i));
    }
    forall k | 0 <= k < n
      ensures f(k) == Sum(R, n, Column(inc, k))
    {
      SumPick(R, n, q(k), Column(inc, k));
    }
    SumExchange(R, n, n, inc, h, f);
  }

  function Block(R: Ring, m: nat, f: int -> Elem): int -> Elem {
    j => Sum(R, m, i => f(m * j + i))
  }

  /** A sum over n blocks of m consecutive indices. */
  lemma {:induction false} SumBlocks(R: Ring, n: nat, m: nat, f: int -> Elem)
    requires R.Laws()
    ensures Sum(R, n * m, f) == Sum(R, n, Block(R, m, f))
  {
    if n > 0 {
      SumBlocks(R, n - 1, m, f);
      var last := i => f(m * (n - 1) + i);
      assert n * m == (n - 1) * m + m && m * (n - 1) == (n - 1) * m;
      SumSplit(R, (n - 1) * m, m, f, last);
      SumEq(R, m, last, i => f(m * (n - 1) + i));
      assert Block(R, m, f)(n - 1) == Sum(R, m, last);
    }
  }
}
