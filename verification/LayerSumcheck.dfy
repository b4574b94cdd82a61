/** One layer of the batched grand-product GKR (bus.rs): the sumcheck rounds with an equality
    factor, the prover's true round polynomials, and both directions of a round's guarantee. */
module LayerSumcheck {
  import opened Rings
  import opened Sums
  import opened Multilinear
  import opened Kernels
  import opened Polynomials
  import opened Transcripts

  /** Tree j's child c of node k, for the three trees. */
  type Tables = (int, int, int) -> Elem

  function Slice(t: Tables, j: int, c: int): int -> Elem {
    k => t(j, c, k)
  }

  function Children(t: Tables, j: int, k: int): int -> Elem {
    c => t(j, c, k)
  }

  function FoldTables(R: Ring, t: Tables, r: Elem): Tables {
    (j, c, k) => R.Lerp(t(j, c, 2 * k), t(j, c, 2 * k + 1), r)
  }

  /** Three numbers batched by powers of a challenge. */
  function Batch(R: Ring, gamma: Elem, a: Elem, b: Elem, c: Elem): Elem {
    R.add(a, R.mul(gamma, R.add(b, R.mul(gamma, c))))
  }

  lemma BatchIsPoly(R: Ring, gamma: Elem, v: seq<Elem>)
    requires R.Laws() && |v| == 3
    ensures PolyEval(R, v, gamma) == Batch(R, gamma, v[0], v[1], v[2])
  {
    var t := TableOf(R, v);
    R.MulZero(gamma);
    R.AddZero(v[2]);
    assert Horner(R, t, 3, 3, gamma) == R.zero;
    assert Horner(R, t, 2, 3, gamma) == v[2];
    assert Horner(R, t, 1, 3, gamma) == R.add(R.mul(v[2], gamma), v[1]);
    R.MulComm(v[2], gamma);
    R.AddComm(v[1], R.mul(gamma, v[2]));
    var h := R.add(v[1], R.mul(gamma, v[2]));
    assert Horner(R, t, 0, 3, gamma) == R.add(R.mul(h, gamma), v[0]);
    R.MulComm(h, gamma);
    R.AddComm(v[0], R.mul(gamma, h));
  }

  lemma BatchAdd(R: Ring, gamma: Elem, a: Elem, b: Elem, c: Elem, d: Elem, e: Elem, f: Elem)
    requires R.Laws()
    ensures Batch(R, gamma, R.add(a, d), R.add(b, e), R.add(c, f))
         == R.add(Batch(R, gamma, a, b, c), Batch(R, gamma, d, e, f))
  {
    R.Dist(gamma, c, f);
    var gc, gf := R.mul(gamma, c), R.mul(gamma, f);
    R.AddSwap(b, e, gc, gf);
    R.Dist(gamma, R.add(b, gc), R.add(e, gf));
    R.AddSwap(a, d, R.mul(gamma, R.add(b, gc)), R.mul(gamma, R.add(e, gf)));
  }

  lemma BatchScale(R: Ring, gamma: Elem, s: Elem, a: Elem, b: Elem, c: Elem)
    requires R.Laws()
    ensures Batch(R, gamma, R.mul(a, s), R.mul(b, s), R.mul(c, s)) == R.mul(Batch(R, gamma, a, b, c), s)
  {
    R.MulAssoc(gamma, c, s);
    var h := R.add(b, R.mul(gamma, c));
    R.Dist(s, b, R.mul(gamma, c));
    R.MulAssoc(gamma, h, s);
    R.Dist(s, a, R.mul(gamma, h));
  }

  lemma {:induction false} HornerBatch(R: Ring, gamma: Elem, a: int -> Elem, b: int -> Elem, c: int -> Elem,
                                       q: int -> Elem, i: int, n: int, x: Elem)
    requires R.Laws() && 0 <= i
    requires forall k :: i <= k < n ==> q(k) == Batch(R, gamma, a(k), b(k), c(k))
    ensures Horner(R, q, i, n, x)
         == Batch(R, gamma, Horner(R, a, i, n, x), Horner(R, b, i, n, x), Horner(R, c, i, n, x))
    decreases n - i
  {
    if i >= n {
      R.MulZero(gamma);
      R.AddZero(R.zero);
    } else {
      HornerBatch(R, gamma, a, b, c, q, i + 1, n, x);
      var u, v, w := Horner(R, a, i + 1, n, x), Horner(R, b, i + 1, n, x), Horner(R, c, i + 1, n, x);
      BatchScale(R, gamma, x, u, v, w);
      BatchAdd(R, gamma, R.mul(u, x), R.mul(v, x), R.mul(w, x), a(i), b(i), c(i));
    }
  }

  // ---- the true round polynomial ---------------------------------------------------------------

  /** What the layer sums: at node k, the three products of w children, batched. */
  function Summand(R: Ring, gamma: Elem, w: nat, t: Tables): int -> Elem {
    k => Batch(R, gamma, Product(R, w, Children(t, 0, k)), Product(R, w, Children(t, 1, k)),
               Product(R, w, Children(t, 2, k)))
  }

  /** Tree j's product along the line through nodes 2k and 2k + 1. */
  function TreeLine(R: Ring, w: nat, t: Tables, j: int, k: int): (p: seq<Elem>)
    ensures |p| == w + 1
  {
    LineProduct(R, w, Children(t, j, 2 * k), Children(t, j, 2 * k + 1))
  }

  function LineCoefficient(R: Ring, gamma: Elem, w: nat, t: Tables, k: int, i: int): Elem {
    Batch(R, gamma, TableOf(R, TreeLine(R, w, t, 0, k))(i), TableOf(R, TreeLine(R, w, t, 1, k))(i),
          TableOf(R, TreeLine(R, w, t, 2, k))(i))
  }

  function Lines(R: Ring, gamma: Elem, w: nat, t: Tables): (int, int) -> Elem {
    (k, i) => LineCoefficient(R, gamma, w, t, k, i)
  }

  lemma TreeLineEval(R: Ring, w: nat, t: Tables, j: int, k: int, x: Elem)
    requires R.Laws()
    ensures Horner(R, TableOf(R, TreeLine(R, w, t, j, k)), 0, w + 1, x)
         == Product(R, w, Children(FoldTables(R, t, x), j, k))
  {
    var a, b, f := Children(t, j, 2 * k), Children(t, j, 2 * k + 1), Children(FoldTables(R, t, x), j, k);
    forall c
      ensures f(c) == R.Lerp(a(c), b(c), x)
    {
    }
    LineProductEval(R, w, a, b, x, f);
  }

  lemma LineEval(R: Ring, gamma: Elem, w: nat, t: Tables, k: int, x: Elem)
    requires R.Laws()
    ensures Horner(R, Row(Lines(R, gamma, w, t), k), 0, w + 1, x) == Summand(R, gamma, w, FoldTables(R, t, x))(k)
  {
    var a, b, c := TableOf(R, TreeLine(R, w, t, 0, k)), TableOf(R, TreeLine(R, w, t, 1, k)),
                   TableOf(R, TreeLine(R, w, t, 2, k));
    HornerBatch(R, gamma, a, b, c, Row(Lines(R, gamma, w, t), k), 0, w + 1, x);
    TreeLineEval(R, w, t, 0, k, x);
    TreeLineEval(R, w, t, 1, k, x);
    TreeLineEval(R, w, t, 2, k, x);
  }

  function TrueCoefficient(R: Ring, gamma: Elem, w: nat, t: Tables, rest: seq<Elem>, i: int): Elem {
    Mle(R, Column(Lines(R, gamma, w, t), i), rest)
  }

  /** The polynomial an honest prover sends for the first of the variables still open. */
  function TrueRound(R: Ring, gamma: Elem, w: nat, t: Tables, rest: seq<Elem>): (q: seq<Elem>)
    ensures |q| == w + 1
    ensures forall i :: 0 <= i <= w ==> q[i] == TrueCoefficient(R, gamma, w, t, rest, i)
  {
    seq(w + 1, i => TrueCoefficient(R, gamma, w, t, rest, i))
  }

  /** Its value at x is the sum with the variable fixed to x. */
  lemma TrueRoundEval(R: Ring, gamma: Elem, w: nat, t: Tables, rest: seq<Elem>, x: Elem)
    requires R.Laws()
    ensures PolyEval(R, TrueRound(R, gamma, w, t, rest), x) == Mle(R, Summand(R, gamma, w, FoldTables(R, t, x)), rest)
  {
    var q := TrueRound(R, gamma, w, t, rest);
    var cf := Lines(R, gamma, w, t);
    var v := Summand(R, gamma, w, FoldTables(R, t, x));
    forall k | 0 <= k < Pow2(|rest|)
      ensures v(k) == Horner(R, Row(cf, k), 0, w + 1, x)
    {
      LineEval(R, gamma, w, t, k, x);
    }
    HornerMle(R, cf, TableOf(R, q), v, 0, w + 1, x, rest);
  }

  function Shift(c: int -> Elem, i: int): int -> Elem {
    k => c(i + k)
  }

  lemma SumFirst(R: Ring, n: nat, f: int -> Elem, g: int -> Elem)
    requires R.Laws() && n > 0 && forall k :: 0 <= k < n - 1 ==> g(k) == f(1 + k)
    ensures Sum(R, n, f) == R.add(f(0), Sum(R, n - 1, g))
  {
    SumSplit(R, 1, n - 1, f, g);
    R.AddZero(f(0));
    assert Sum(R, 1, f) == R.add(Sum(R, 0, f), f(0));
  }

  lemma {:induction false} HornerAtOne(R: Ring, c: int -> Elem, i: nat, n: nat)
    requires R.Laws() && i <= n
    ensures Horner(R, c, i, n, R.one) == Sum(R, n - i, Shift(c, i))
    decreases n - i
  {
    if i < n {
      HornerAtOne(R, c, i + 1, n);
      SumFirst(R, n - i, Shift(c, i), Shift(c, i + 1));
      var s := Sum(R, n - i - 1, Shift(c, i + 1));
      R.MulOne(s);
      R.AddComm(s, c(i));
    }
  }

  /** The values of a polynomial at 0 and 1, from its coefficients. */
  lemma EvalAtBits(R: Ring, q: seq<Elem>)
    requires R.Laws() && q != []
    ensures PolyEval(R, q, R.zero) == q[0]
    ensures PolyEval(R, q, R.one) == R.add(q[0], Total(R, q[1..]))
  {
    var t := TableOf(R, q);
    R.MulZero(Horner(R, t, 1, |q|, R.zero));
    R.AddZero(q[0]);
    HornerAtOne(R, t, 1, |q|);
    SumEq(R, |q| - 1, Shift(t, 1), TableOf(R, q[1..]));
    var s := Total(R, q[1..]);
    R.MulOne(s);
    R.AddComm(s, q[0]);
  }

  /** Folding at 0 and 1 selects the even and the odd nodes. */
  lemma SummandAtBit(R: Ring, gamma: Elem, w: nat, t: Tables, k: int)
    requires R.Laws()
    ensures Summand(R, gamma, w, FoldTables(R, t, R.zero))(k) == Summand(R, gamma, w, t)(2 * k)
    ensures Summand(R, gamma, w, FoldTables(R, t, R.one))(k) == Summand(R, gamma, w, t)(2 * k + 1)
  {
    ProductAtBit(R, w, t, 0, k);
    ProductAtBit(R, w, t, 1, k);
    ProductAtBit(R, w, t, 2, k);
  }

  lemma ProductAtBit(R: Ring, w: nat, t: Tables, j: int, k: int)
    requires R.Laws()
    ensures Product(R, w, Children(FoldTables(R, t, R.zero), j, k)) == Product(R, w, Children(t, j, 2 * k))
    ensures Product(R, w, Children(FoldTables(R, t, R.one), j, k)) == Product(R, w, Children(t, j, 2 * k + 1))
  {
    forall c
      ensures Children(FoldTables(R, t, R.zero), j, k)(c) == Children(t, j, 2 * k)(c)
      ensures Children(FoldTables(R, t, R.one), j, k)(c) == Children(t, j, 2 * k + 1)(c)
    {
      var a, b := t(j, c, 2 * k), t(j, c, 2 * k + 1);
      R.MulZero(R.add(a, b));
      R.AddZero(a);
      R.MulOne(R.add(a, b));
      R.Cancel(b, a);
    }
    ProductEq(R, w, Children(FoldTables(R, t, R.zero), j, k), Children(t, j, 2 * k));
    ProductEq(R, w, Children(FoldTables(R, t, R.one), j, k), Children(t, j, 2 * k + 1));
  }

  /** The sum a round starts from, through the round's own polynomial: its constant coefficient
      is what `round_poly` recovers from the claim and the others. */
  lemma TrueRoundClaim(R: Ring, gamma: Elem, w: nat, t: Tables, point: seq<Elem>)
    requires R.Laws() && point != []
    ensures var q := TrueRound(R, gamma, w, t, point[1..]);
      Mle(R, Summand(R, gamma, w, t), point) == R.add(q[0], R.mul(point[0], Total(R, q[1..])))
  {
    hide Mle, PolyEval, Summand, TrueRound;
    var r, rest := point[0], point[1..];
    var q := TrueRound(R, gamma, w, t, rest);
    var s := Summand(R, gamma, w, t);
    var s0, s1 := Summand(R, gamma, w, FoldTables(R, t, R.zero)), Summand(R, gamma, w, FoldTables(R, t, R.one));
    MleFold(R, s, point);
    forall k
      ensures Fold(R, s, r)(k) == R.Lerp(s0(k), s1(k), r)
    {
      SummandAtBit(R, gamma, w, t, k);
    }
    MleLerp(R, s0, s1, r, Fold(R, s, r), rest);
    TrueRoundEval(R, gamma, w, t, rest, R.zero);
    TrueRoundEval(R, gamma, w, t, rest, R.one);
    EvalAtBits(R, q);
    R.Cancel(Total(R, q[1..]), q[0]);
  }
}
