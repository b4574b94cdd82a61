/** The weight a level's queries induce (whir.rs's `induced_weight`): subspace polynomials by a
    triangular loop, and the weight as the multilinear extension of the novel polynomial basis. */
module QueryWeight {
  import opened Rings
  import opened Sums
  import opened Multilinear
  import opened Bits
  import opened Kernels
  import opened Polynomials

  // ---- products --------------------------------------------------------------------------------

  lemma {:induction false} ProductSplit(R: Ring, n: nat, m: nat, f: int -> Elem, h: int -> Elem)
    requires R.Laws() && forall i :: 0 <= i < m ==> h(i) == f(n + i)
    ensures Product(R, n + m, f) == R.mul(Product(R, n, f), Product(R, m, h))
  {
    if m == 0 {
      R.MulOne(Product(R, n, f));
    } else {
      ProductSplit(R, n, m - 1, f, h);
      R.MulAssoc(Product(R, n, f), Product(R, m - 1, h), f(n + m - 1));
    }
  }

  lemma {:induction false} ProductZero(R: Ring, n: nat, f: int -> Elem)
    requires R.Laws() && R.Domain()
    ensures Product(R, n, f) == R.zero <==> exists i :: 0 <= i < n && f(i) == R.zero
  {
    if n > 0 {
      ProductZero(R, n - 1, f);
      var p := Product(R, n - 1, f);
      R.MulZero(p);
      R.MulZero(f(n - 1));
      assert Use(p, f(n - 1), R.zero);
    }
  }

  // ---- subspace polynomials --------------------------------------------------------------------

  /** The combination of 1, x, .., x^(n - 1) that the bits of k choose. */
  function Span(R: Ring, x: Elem, n: nat, k: nat): Elem {
    if n == 0 then R.zero
    else R.add(Span(R, x, n - 1, k), if Bit(k, n - 1) == 1 then Power(R, x, n - 1) else R.zero)
  }

  /** W_0(z) = z, W_(i+1)(z) = W_i(z)^2 + W_i(x^i) W_i(z). */
  function Subspace(R: Ring, x: Elem, i: nat, z: Elem): Elem
    decreases i
  {
    if i == 0 then z
    else
      var w := Subspace(R, x, i - 1, z);
      R.add(R.Square(w), R.mul(Subspace(R, x, i - 1, Power(R, x, i - 1)), w))
  }

  function Normalizer(R: Ring, x: Elem, i: nat): Elem {
    Subspace(R, x, i, Power(R, x, i))
  }

  lemma SubspaceNext(R: Ring, x: Elem, i: nat, z: Elem)
    ensures Subspace(R, x, i + 1, z)
         == R.add(R.Square(Subspace(R, x, i, z)), R.mul(Normalizer(R, x, i), Subspace(R, x, i, z)))
  {
  }

  /** Subspace polynomials are additive. */
  lemma {:induction false} SubspaceAdd(R: Ring, x: Elem, i: nat, a: Elem, b: Elem)
    requires R.Laws()
    ensures Subspace(R, x, i, R.add(a, b)) == R.add(Subspace(R, x, i, a), Subspace(R, x, i, b))
    decreases i
  {
    if i > 0 {
      hide Ring.Square;
      SubspaceAdd(R, x, i - 1, a, b);
      var u, v, r := Subspace(R, x, i - 1, a), Subspace(R, x, i - 1, b), Normalizer(R, x, i - 1);
      R.SquareAdd(u, v);
      R.Dist(r, u, v);
      R.AddSwap(R.Square(u), R.Square(v), R.mul(r, u), R.mul(r, v));
    }
  }

  function Factor(R: Ring, x: Elem, n: nat, z: Elem): int -> Elem {
    k => if k >= 0 then R.add(z, Span(R, x, n, k)) else R.zero
  }

  /** Bits from n on do not matter to the span of n powers. */
  lemma {:induction false} SpanHigh(R: Ring, x: Elem, n: nat, k: nat, j: nat, b: nat)
    requires k < Pow2(j) && n <= j && b < 2
    ensures Span(R, x, n, k + Pow2(j) * b) == Span(R, x, n, k)
  {
    if n > 0 {
      SpanHigh(R, x, n - 1, k, j, b);
      BitAppend(k, j, b, n - 1);
    }
  }

  lemma FactorHalves(R: Ring, x: Elem, n: nat, z: Elem, k: nat)
    requires R.Laws() && k < Pow2(n)
    ensures Factor(R, x, n + 1, z)(k) == Factor(R, x, n, z)(k)
    ensures Factor(R, x, n + 1, z)(Pow2(n) + k) == Factor(R, x, n, R.add(z, Power(R, x, n)))(k)
  {
    hide Power, Bit, Pow2;
    SpanHigh(R, x, n, k, n, 1);
    BitAppend(k, n, 0, n);
    BitAppend(k, n, 1, n);
    var s, p := Span(R, x, n, k), Power(R, x, n);
    R.AddZero(s);
    R.AddAssoc(z, s, p);
    R.AddComm(s, p);
    R.AddAssoc(z, p, s);
    var m := Pow2(n) + k;
    assert m == k + Pow2(n) * 1 && k == k + Pow2(n) * 0;
    assert Span(R, x, n + 1, k) == R.add(s, R.zero);
    assert Span(R, x, n + 1, m) == R.add(s, p);
  }

  /** W_n(z) is the product of z + a over the 2^n elements a of the span. */
  lemma {:induction false} SubspaceIsProduct(R: Ring, x: Elem, n: nat, z: Elem)
    requires R.Laws()
    ensures Subspace(R, x, n, z) == Product(R, Pow2(n), Factor(R, x, n, z))
    decreases n
  {
    if n == 0 {
      OneFactor(R, x, z);
    } else {
      hide Product, Pow2, Subspace, Power, Factor;
      var i, p := n - 1, Power(R, x, n - 1);
      SubspaceIsProduct(R, x, i, z);
      SubspaceIsProduct(R, x, i, R.add(z, p));
      Halved(R, x, i, z);
      SubspaceAdd(R, x, i, z, p);
      SubspaceNext(R, x, i, z);
      var w, r := Subspace(R, x, i, z), Normalizer(R, x, i);
      R.Dist(w, w, r);
      R.MulComm(w, r);
    }
  }

  lemma OneFactor(R: Ring, x: Elem, z: Elem)
    requires R.Laws()
    ensures Product(R, Pow2(0), Factor(R, x, 0, z)) == z
  {
    R.AddZero(z);
    R.MulOne(z);
    var f := Factor(R, x, 0, z);
    assert Span(R, x, 0, 0) == R.zero;
    assert f(0) == z;
    assert Product(R, 1, f) == R.mul(Product(R, 0, f), f(0));
  }

  lemma Halved(R: Ring, x: Elem, n: nat, z: Elem)
    requires R.Laws()
    ensures Product(R, Pow2(n + 1), Factor(R, x, n + 1, z))
         == R.mul(Product(R, Pow2(n), Factor(R, x, n, z)), Product(R, Pow2(n), Factor(R, x, n, R.add(z, Power(R, x, n)))))
  {
    hide Product, Power, Factor;
    var f, g, h := Factor(R, x, n + 1, z), Factor(R, x, n, z), Factor(R, x, n, R.add(z, Power(R, x, n)));
    forall k | 0 <= k < Pow2(n)
      ensures f(k) == g(k) && f(Pow2(n) + k) == h(k)
    {
      FactorHalves(R, x, n, z, k);
    }
    ProductEq(R, Pow2(n), f, g);
    ProductSplit(R, Pow2(n), Pow2(n), f, h);
  }

  ghost predicate InSpan(R: Ring, x: Elem, n: nat, z: Elem) {
    exists k: nat :: k < Pow2(n) && z == Span(R, x, n, k)
  }

  lemma SpanFactor(R: Ring, x: Elem, n: nat, z: Elem)
    requires R.Laws()
    ensures InSpan(R, x, n, z) <==> exists i :: 0 <= i < Pow2(n) && Factor(R, x, n, z)(i) == R.zero
  {
    hide Span, Pow2;
    var f := Factor(R, x, n, z);
    forall k: nat
      ensures f(k) == R.zero <==> z == Span(R, x, n, k)
    {
      R.SumZero(z, Span(R, x, n, k));
    }
    if InSpan(R, x, n, z) {
      var k: nat :| k < Pow2(n) && z == Span(R, x, n, k);
      assert f(k) == R.zero;
    }
    if exists i :: 0 <= i < Pow2(n) && f(i) == R.zero {
      var i: nat :| i < Pow2(n) && f(i) == R.zero;
      assert z == Span(R, x, n, i);
    }
  }

  /** Without zero divisors W_n vanishes exactly on the span of 1, x, .., x^(n - 1). */
  lemma SubspaceVanishes(R: Ring, x: Elem, n: nat, z: Elem)
    requires R.Laws() && R.Domain()
    ensures Subspace(R, x, n, z) == R.zero <==> InSpan(R, x, n, z)
  {
    hide Subspace, Product, Ring.Domain, InSpan;
    SubspaceIsProduct(R, x, n, z);
    ProductZero(R, Pow2(n), Factor(R, x, n, z));
    SpanFactor(R, x, n, z);
  }

  // ---- the weight ------------------------------------------------------------------------------

  /** The normalized subspace polynomial, W_i(z) / W_i(x^i). */
  function Novel(R: Ring, inv: Elem -> Elem, x: Elem, z: Elem): int -> Elem {
    i => if i >= 0 then R.mul(Subspace(R, x, i, z), inv(Normalizer(R, x, i))) else R.zero
  }

  /** The novel basis: the product of those t(i) that the bits of u choose. */
  function Chosen(R: Ring, t: int -> Elem, from: int, n: nat, u: int): Elem
    decreases n
  {
    if n == 0 then R.one
    else R.mul(if u % 2 == 1 then t(from) else R.one, Chosen(R, t, from + 1, n - 1, u / 2))
  }

  function ChosenTable(R: Ring, t: int -> Elem, from: int, n: nat): int -> Elem {
    u => Chosen(R, t, from, n, u)
  }

  /** 1 + c(1 + t(i)). */
  function Blend(R: Ring, t: int -> Elem, point: seq<Elem>): int -> Elem {
    i => R.add(R.one, R.mul(TableOf(R, point)(i), R.add(R.one, t(i))))
  }

  function BlendFrom(R: Ring, t: int -> Elem, point: seq<Elem>, i: nat): Elem
    requires i <= |point|
    decreases |point| - i
  {
    if i == |point| then R.one else R.mul(Blend(R, t, point)(i), BlendFrom(R, t, point, i + 1))
  }

  lemma {:induction false} BlendProduct(R: Ring, t: int -> Elem, point: seq<Elem>, i: nat)
    requires R.Laws() && i <= |point|
    ensures Product(R, |point|, Blend(R, t, point)) == R.mul(Product(R, i, Blend(R, t, point)), BlendFrom(R, t, point, i))
    decreases |point| - i
  {
    hide Blend;
    if i == |point| {
      R.MulOne(Product(R, i, Blend(R, t, point)));
    } else {
      BlendProduct(R, t, point, i + 1);
      R.MulAssoc(Product(R, i, Blend(R, t, point)), Blend(R, t, point)(i), BlendFrom(R, t, point, i + 1));
    }
  }

  /** The product of the blends is the extension of the chosen products. */
  lemma {:induction false} BlendIsMle(R: Ring, t: int -> Elem, point: seq<Elem>, i: nat)
    requires R.Laws() && i <= |point|
    ensures BlendFrom(R, t, point, i) == Mle(R, ChosenTable(R, t, i, |point| - i), point[i..])
    decreases |point| - i
  {
    if i == |point| {
      MleEmpty(R, ChosenTable(R, t, i, 0));
    } else {
      hide Mle, Ring.Laws, ChosenTable;
      BlendIsMle(R, t, point, i + 1);
      MleFold(R, ChosenTable(R, t, i, |point| - i), point[i..]);
      assert point[i..][1..] == point[i + 1..];
      ChosenFold(R, t, i, |point| - i, point[i], point[i + 1..]);
      TableAt(R, point, i);
    }
  }

  lemma ChosenFold(R: Ring, t: int -> Elem, i: int, n: nat, c: Elem, p: seq<Elem>)
    requires R.Laws() && n > 0
    ensures Mle(R, Fold(R, ChosenTable(R, t, i, n), c), p)
         == R.mul(R.add(R.one, R.mul(c, R.add(R.one, t(i)))), Mle(R, ChosenTable(R, t, i + 1, n - 1), p))
  {
    hide Mle, Ring.Laws;
    var s, folded := R.add(R.one, R.mul(c, R.add(R.one, t(i)))), Fold(R, ChosenTable(R, t, i, n), c);
    forall k
      ensures folded(k) == R.mul(s, ChosenTable(R, t, i + 1, n - 1)(k))
    {
      var e := Chosen(R, t, i + 1, n - 1, k);
      assert 2 * k / 2 == k && (2 * k + 1) / 2 == k;
      R.MulComm(R.one, e);
      R.MulComm(t(i), e);
      R.LerpScale(e, R.one, t(i), c);
      R.MulComm(e, s);
    }
    MleScale(R, s, ChosenTable(R, t, i + 1, n - 1), folded, p);
  }

  /** What query number q contributes. */
  function QueryTerm(R: Ring, inv: Elem -> Elem, x: Elem, values: int -> Elem, lam: Elem, point: seq<Elem>): int -> Elem {
    q => if q >= 0 then R.mul(Power(R, lam, q), Product(R, |point|, Blend(R, Novel(R, inv, x, values(q)), point))) else R.zero
  }

  /** The claims batched into one table: entry u is sum_q lam^q X_u(query q). */
  function Batched(R: Ring, inv: Elem -> Elem, x: Elem, values: int -> Elem, lam: Elem, n: nat, queries: nat): int -> Elem {
    u => Sum(R, queries, q => if q >= 0 then R.mul(Power(R, lam, q), Chosen(R, Novel(R, inv, x, values(q)), 0, n, u)) else R.zero)
  }

  /** The induced weight is the multilinear extension of the batched novel basis values. */
  lemma {:induction false} InducedIsMle(R: Ring, inv: Elem -> Elem, x: Elem, values: int -> Elem, lam: Elem, point: seq<Elem>,
                                        queries: nat)
    requires R.Laws()
    ensures Sum(R, queries, QueryTerm(R, inv, x, values, lam, point))
         == Mle(R, Batched(R, inv, x, values, lam, |point|, queries), point)
  {
    hide Mle, Novel, Chosen, Ring.Laws;
    if queries == 0 {
      MleNone(R, Batched(R, inv, x, values, lam, |point|, 0), point);
    } else {
      var q := queries - 1;
      InducedIsMle(R, inv, x, values, lam, point, q);
      var t, w := Novel(R, inv, x, values(q)), Power(R, lam, q);
      OneQuery(R, t, point);
      var term := u => R.mul(w, Chosen(R, t, 0, |point|, u));
      MleScale(R, w, ChosenTable(R, t, 0, |point|), term, point);
      forall u
        ensures Batched(R, inv, x, values, lam, |point|, queries)(u)
             == R.add(Batched(R, inv, x, values, lam, |point|, q)(u), term(u))
      {
        BatchedNext(R, inv, x, values, lam, |point|, q, u);
      }
      MleAdd(R, Batched(R, inv, x, values, lam, |point|, q), term, Batched(R, inv, x, values, lam, |point|, queries), point);
    }
  }

  lemma BatchedNext(R: Ring, inv: Elem -> Elem, x: Elem, values: int -> Elem, lam: Elem, n: nat, q: nat, u: int)
    ensures Batched(R, inv, x, values, lam, n, q + 1)(u)
         == R.add(Batched(R, inv, x, values, lam, n, q)(u), R.mul(Power(R, lam, q), Chosen(R, Novel(R, inv, x, values(q)), 0, n, u)))
  {
    hide Novel, Chosen, Power;
    var f := q => if q >= 0 then R.mul(Power(R, lam, q), Chosen(R, Novel(R, inv, x, values(q)), 0, n, u)) else R.zero;
    assert Batched(R, inv, x, values, lam, n, q + 1)(u) == Sum(R, q + 1, f) by {
      SumEq(R, q + 1, f, q => if q >= 0 then R.mul(Power(R, lam, q), Chosen(R, Novel(R, inv, x, values(q)), 0, n, u)) else R.zero);
    }
    assert Batched(R, inv, x, values, lam, n, q)(u) == Sum(R, q, f) by {
      SumEq(R, q, f, q => if q >= 0 then R.mul(Power(R, lam, q), Chosen(R, Novel(R, inv, x, values(q)), 0, n, u)) else R.zero);
    }
  }

  lemma OneQuery(R: Ring, t: int -> Elem, point: seq<Elem>)
    requires R.Laws()
    ensures Product(R, |point|, Blend(R, t, point)) == Mle(R, ChosenTable(R, t, 0, |point|), point)
  {
    hide Mle, Ring.Laws, Blend;
    BlendProduct(R, t, point, 0);
    BlendIsMle(R, t, point, 0);
    assert point[0..] == point;
    R.MulOne(BlendFrom(R, t, point, 0));
    assert Product(R, 0, Blend(R, t, point)) == R.one;
  }

  // ---- the method ------------------------------------------------------------------------------

  ghost predicate IsLayer(R: Ring, x: Elem, i: nat, layer: seq<Elem>, from: nat) {
    forall j :: from <= j < |layer| ==> layer[j] == Subspace(R, x, i, Power(R, x, j + 1))
  }

  ghost predicate AreRoots(R: Ring, x: Elem, roots: seq<Elem>, n: nat) {
    n <= |roots| && forall i :: 0 <= i < n ==> roots[i] == Normalizer(R, x, i)
  }

  /** The triangular loop: roots[i] = W_i(x^i). */
  method Roots(R: Ring, x: Elem, n: nat) returns (roots: array<Elem>)
    requires R.Laws()
    ensures fresh(roots) && roots.Length == n + 1 && AreRoots(R, x, roots[..], n + 1)
  {
    hide Subspace, Power, Ring.Laws;
    roots := new Elem[n + 1](_ => R.zero);
    roots[0] := R.one;
    FirstRoot(R, x);
    var layer := new Elem[n](i requires 0 <= i => Power(R, x, i + 1));
    LayerStart(R, x, layer[..]);
    var i := 0;
    while i < n
      invariant 0 <= i <= n && AreRoots(R, x, roots[..], i + 1)
      invariant IsLayer(R, x, i, layer[..], i)
    {
      AdvanceLayer(R, x, i, roots[i], layer);
      roots[i + 1] := layer[i];
      i := i + 1;
    }
  }

  /** The inner loop: every layer value from i on passed through the next factor. */
  method AdvanceLayer(R: Ring, x: Elem, i: nat, root: Elem, layer: array<Elem>)
    requires i <= layer.Length && root == Normalizer(R, x, i) && IsLayer(R, x, i, layer[..], i)
    modifies layer
    ensures IsLayer(R, x, i + 1, layer[..], i)
  {
    hide Subspace, Power;
    var j := i;
    while j < layer.Length
      invariant i <= j <= layer.Length
      invariant forall k :: i <= k < j ==> layer[k] == Subspace(R, x, i + 1, Power(R, x, k + 1))
      invariant forall k :: j <= k < layer.Length ==> layer[k] == Subspace(R, x, i, Power(R, x, k + 1))
    {
      SubspaceNext(R, x, i, Power(R, x, j + 1));
      layer[j] := R.add(R.Square(layer[j]), R.mul(root, layer[j]));
      j := j + 1;
    }
  }

  lemma FirstRoot(R: Ring, x: Elem)
    ensures Normalizer(R, x, 0) == R.one
  {
  }

  lemma LayerStart(R: Ring, x: Elem, layer: seq<Elem>)
    requires forall i :: 0 <= i < |layer| ==> layer[i] == Power(R, x, i + 1)
    ensures IsLayer(R, x, 0, layer, 0)
  {
  }

  /** One query's product over the coordinates, its basis value advanced in step. */
  method OneProduct(R: Ring, inv: Elem -> Elem, x: Elem, roots: array<Elem>, inverses: array<Elem>, value: Elem,
                    start: Elem, point: seq<Elem>) returns (product: Elem)
    requires R.Laws() && inverses.Length == |point| && roots.Length == |point| + 1 && AreRoots(R, x, roots[..], roots.Length)
    requires forall i :: 0 <= i < |point| ==> inverses[i] == inv(roots[i])
    ensures product == R.mul(start, Product(R, |point|, Blend(R, Novel(R, inv, x, value), point)))
  {
    hide Subspace, Ring.Laws, Power, Normalizer;
    var basis := value;
    product := start;
    var i := 0;
    ghost var f := Blend(R, Novel(R, inv, x, value), point);
    R.MulOne(start);
    BasisStart(R, x, value);
    while i < |point|
      invariant 0 <= i <= |point| && basis == Subspace(R, x, i, value)
      invariant product == R.mul(start, Product(R, i, f))
    {
      var term := R.add(R.one, R.mul(point[i], R.add(R.one, R.mul(basis, inverses[i]))));
      TableAt(R, point, i);
      assert f(i) == term;
      R.MulAssoc(start, Product(R, i, f), term);
      product := R.mul(product, term);
      SubspaceNext(R, x, i, value);
      basis := R.add(R.Square(basis), R.mul(roots[i], basis));
      i := i + 1;
    }
  }

  lemma BasisStart(R: Ring, x: Elem, z: Elem)
    ensures Subspace(R, x, 0, z) == z
  {
  }

  function Values(embed: nat -> Elem, zero: Elem, queries: seq<nat>): int -> Elem {
    q => if 0 <= q < |queries| then embed(queries[q]) else zero
  }

  /** The loop over the queries. */
  method WeighQueries(R: Ring, inv: Elem -> Elem, embed: nat -> Elem, x: Elem, roots: array<Elem>, inverses: array<Elem>,
                      queries: seq<nat>, lam: Elem, point: seq<Elem>) returns (total: Elem)
    requires R.Laws() && inverses.Length == |point| && roots.Length == |point| + 1 && AreRoots(R, x, roots[..], roots.Length)
    requires forall i :: 0 <= i < |point| ==> inverses[i] == inv(roots[i])
    ensures total == Sum(R, |queries|, QueryTerm(R, inv, x, Values(embed, R.zero, queries), lam, point))
  {
    hide Sum, Ring.Laws, Product, Blend, Novel, AreRoots, Power, Subspace;
    ghost var term := QueryTerm(R, inv, x, Values(embed, R.zero, queries), lam, point);
    total := R.zero;
    NoTerm(R, term);
    PowerSteps(R, lam, 0);
    var weight, q := R.one, 0;
    while q < |queries|
      invariant 0 <= q <= |queries| && weight == Power(R, lam, q)
      invariant total == Sum(R, q, term)
    {
      var product := OneProduct(R, inv, x, roots, inverses, embed(queries[q]), weight, point);
      assert term(q) == product;
      NextTerm(R, term, q);
      PowerSteps(R, lam, q);
      total := R.add(total, product);
      weight := R.mul(weight, lam);
      q := q + 1;
    }
  }

  lemma PowerSteps(R: Ring, x: Elem, n: nat)
    ensures Power(R, x, 0) == R.one && Power(R, x, n + 1) == R.mul(Power(R, x, n), x)
  {
  }

  /** `induced_weight`. */
  method InducedWeight(R: Ring, inv: Elem -> Elem, embed: nat -> Elem, x: Elem, queries: seq<nat>, lam: Elem, point: seq<Elem>)
      returns (total: Elem)
    requires R.Laws()
    ensures total == Mle(R, Batched(R, inv, x, Values(embed, R.zero, queries), lam, |point|, |queries|), point)
  {
    hide Sum, Mle, Ring.Laws, QueryTerm, Batched, AreRoots;
    var roots := Roots(R, x, |point|);
    var inverses := new Elem[|point|](_ => R.zero);
    var i := 0;
    while i < |point|
      invariant 0 <= i <= |point| && AreRoots(R, x, roots[..], roots.Length)
      invariant forall k :: 0 <= k < i ==> inverses[k] == inv(roots[k])
    {
      inverses[i] := inv(roots[i]);
      i := i + 1;
    }
    total := WeighQueries(R, inv, embed, x, roots, inverses, queries, lam, point);
    InducedIsMle(R, inv, x, Values(embed, R.zero, queries), lam, point, |queries|);
  }

  lemma NoTerm(R: Ring, t: int -> Elem)
    ensures Sum(R, 0, t) == R.zero
  {
  }

  lemma NextTerm(R: Ring, t: int -> Elem, q: nat)
    ensures Sum(R, q + 1, t) == R.add(Sum(R, q, t), t(q))
  {
  }
}
