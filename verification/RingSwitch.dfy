/** Ring switching (ring_switch.rs): the drawn stages compose to one linearised polynomial, its
    weight has a closed form at every point, and the batched target is the sum it claims. */
module RingSwitch {
  import opened Rings
  import opened Sums
  import opened Multilinear
  import opened Bits
  import opened Kernels
  import opened Polynomials
  import opened Transcripts

  // ---- the map ---------------------------------------------------------------------------------

  /** The stages' shifts are 2^(m - 1), .., 2, 1: with m challenges, the first stage adds
      f a^(2^(2^(m - 1))). */
  function Map(R: Ring, f: seq<Elem>, a: Elem): Elem
    decreases |f|
  {
    if f == [] then a else Map(R, f[1..], R.add(a, R.mul(f[0], R.Frob(a, Pow2(|f| - 1)))))
  }

  /** c_k: the stages whose shift k has, each challenge to 2^(k mod shift). */
  function Coefficient(R: Ring, f: seq<Elem>, k: nat): Elem
    decreases |f|
  {
    if f == [] then R.one
    else if Bit(k, |f| - 1) == 1 then R.mul(R.Frob(f[0], Low(k, |f| - 1)), Coefficient(R, f[1..], k))
    else Coefficient(R, f[1..], k)
  }

  function MapTerm(R: Ring, f: seq<Elem>, a: Elem): int -> Elem {
    k => if k >= 0 then R.mul(Coefficient(R, f, k), R.Frob(a, k)) else R.zero
  }

  /** Later stages see the low bits of k alone. */
  lemma {:induction false} CoefficientLow(R: Ring, f: seq<Elem>, k: nat, j: nat, b: nat)
    requires k < Pow2(j) && |f| <= j && b < 2
    ensures Coefficient(R, f, k + Pow2(j) * b) == Coefficient(R, f, k)
    decreases |f|
  {
    if f != [] {
      CoefficientLow(R, f[1..], k, j, b);
      BitAppend(k, j, b, |f| - 1);
      AddHigh(k, j, b, |f| - 1);
    }
  }

  lemma CoefficientSplit(R: Ring, f: seq<Elem>, k: nat)
    requires f != [] && k < Pow2(|f| - 1)
    ensures Coefficient(R, f, k) == Coefficient(R, f[1..], k)
    ensures Coefficient(R, f, Pow2(|f| - 1) + k) == R.mul(R.Frob(f[0], k), Coefficient(R, f[1..], k))
  {
    hide Bit, Low, Pow2, Ring.Frob;
    var j := |f| - 1;
    BitAppend(k, j, 0, j);
    BitAppend(k, j, 1, j);
    AddHigh(k, j, 1, j);
    LowSmall(k, j);
    CoefficientLow(R, f[1..], k, j, 1);
    assert Pow2(j) * 1 == Pow2(j) && Pow2(j) * 0 == 0;
  }

  /** The later stages' sum, on the first stage's result, is the whole sum. */
  lemma StageSum(R: Ring, h: nat, whole: int -> Elem, part: int -> Elem)
    requires R.Laws() && forall k :: 0 <= k < h ==> part(k) == R.add(whole(k), whole(h + k))
    ensures Sum(R, h, part) == Sum(R, h + h, whole)
  {
    hide Sum, Ring.Laws;
    var later := k => whole(h + k);
    SumAdd(R, h, whole, later, part);
    SumSplit(R, h, h, whole, later);
  }

  lemma FirstStage(R: Ring, f: seq<Elem>, a: Elem, h: nat, b: Elem)
    requires R.Laws() && f != [] && h == Pow2(|f| - 1) && b == R.add(a, R.mul(f[0], R.Frob(a, h)))
    ensures Sum(R, h, MapTerm(R, f[1..], b)) == Sum(R, h + h, MapTerm(R, f, a))
  {
    hide Sum, Coefficient, Pow2, Ring.Frob, MapTerm, Ring.Laws;
    var whole, part := MapTerm(R, f, a), MapTerm(R, f[1..], b);
    forall k | 0 <= k < h
      ensures part(k) == R.add(whole(k), whole(h + k))
    {
      StageTerm(R, f, a, k);
    }
    StageSum(R, h, whole, part);
  }

  /** The stages compose to sum_k c_k a^(2^k). */
  lemma {:induction false} MapIsSum(R: Ring, f: seq<Elem>, a: Elem)
    requires R.Laws()
    ensures Map(R, f, a) == Sum(R, Pow2(|f|), MapTerm(R, f, a))
    decreases |f|
  {
    if f == [] {
      MapNone(R, a);
    } else {
      hide Sum, Coefficient, Pow2, Ring.Frob, Map, MapTerm, Ring.Laws;
      var h, g := Pow2(|f| - 1), f[1..];
      var b := R.add(a, R.mul(f[0], R.Frob(a, h)));
      MapStep(R, f, a);
      MapIsSum(R, g, b);
      FirstStage(R, f, a, h, b);
      PowDouble(|f|);
    }
  }

  lemma MapStep(R: Ring, f: seq<Elem>, a: Elem)
    requires f != []
    ensures Map(R, f, a) == Map(R, f[1..], R.add(a, R.mul(f[0], R.Frob(a, Pow2(|f| - 1)))))
  {
  }

  lemma PowDouble(n: nat)
    requires n > 0
    ensures Pow2(n) == Pow2(n - 1) + Pow2(n - 1)
  {
  }

  lemma MapNone(R: Ring, a: Elem)
    requires R.Laws()
    ensures Map(R, [], a) == Sum(R, Pow2(0), MapTerm(R, [], a))
  {
    R.MulOne(a);
    R.AddZero(a);
    assert Coefficient(R, [], 0) == R.one && R.Frob(a, 0) == a;
    assert MapTerm(R, [], a)(0) == a;
    assert Sum(R, 1, MapTerm(R, [], a)) == R.add(Sum(R, 0, MapTerm(R, [], a)), a);
  }

  /** One term of the later stages, on a + f0 a^(2^h), is two terms of the whole. */
  lemma StageTerm(R: Ring, f: seq<Elem>, a: Elem, k: nat)
    requires R.Laws() && f != [] && k < Pow2(|f| - 1)
    ensures var h := Pow2(|f| - 1);
      MapTerm(R, f[1..], R.add(a, R.mul(f[0], R.Frob(a, h))))(k) == R.add(MapTerm(R, f, a)(k), MapTerm(R, f, a)(h + k))
  {
    hide Coefficient, Pow2, Ring.Frob;
    var h, c := Pow2(|f| - 1), Coefficient(R, f[1..], k);
    var b := R.mul(f[0], R.Frob(a, h));
    CoefficientSplit(R, f, k);
    R.FrobAdd(a, b, k);
    R.FrobMul(f[0], R.Frob(a, h), k);
    R.FrobFrob(a, h, k);
    R.Dist(c, R.Frob(a, k), R.Frob(b, k));
    R.MulAssoc(c, R.Frob(f[0], k), R.Frob(a, h + k));
    R.MulComm(c, R.Frob(f[0], k));
  }

  /** The map is additive, whatever the challenges. */
  lemma {:induction false} MapAdd(R: Ring, f: seq<Elem>, a: Elem, b: Elem)
    requires R.Laws()
    ensures Map(R, f, R.add(a, b)) == R.add(Map(R, f, a), Map(R, f, b))
    decreases |f|
  {
    if f != [] {
      hide Pow2, Ring.Frob;
      var h := Pow2(|f| - 1);
      R.FrobAdd(a, b, h);
      var x, y := R.Frob(a, h), R.Frob(b, h);
      R.Dist(f[0], x, y);
      R.AddSwap(a, b, R.mul(f[0], x), R.mul(f[0], y));
      MapAdd(R, f[1..], R.add(a, R.mul(f[0], x)), R.add(b, R.mul(f[0], y)));
    }
  }

  lemma {:induction false} MapZero(R: Ring, f: seq<Elem>)
    requires R.Laws()
    ensures Map(R, f, R.zero) == R.zero
    decreases |f|
  {
    if f != [] {
      R.FrobConst(Pow2(|f| - 1));
      R.MulZero(f[0]);
      R.AddZero(R.zero);
      MapZero(R, f[1..]);
    }
  }

  lemma {:induction false} MapSum(R: Ring, f: seq<Elem>, n: nat, t: int -> Elem, h: int -> Elem)
    requires R.Laws() && forall i :: 0 <= i < n ==> h(i) == Map(R, f, t(i))
    ensures Map(R, f, Sum(R, n, t)) == Sum(R, n, h)
  {
    if n == 0 {
      MapZero(R, f);
    } else {
      hide Map;
      MapSum(R, f, n - 1, t, h);
      MapAdd(R, f, Sum(R, n - 1, t), t(n - 1));
    }
  }

  // ---- eq at two points ------------------------------------------------------------------------

  /** prod_n (1 + x_n + y_n). */
  function EqAt(R: Ring, x: seq<Elem>, y: seq<Elem>): Elem
    requires |x| == |y|
    decreases |x|
  {
    if x == [] then R.one else R.mul(R.add(R.add(R.one, x[0]), y[0]), EqAt(R, x[1..], y[1..]))
  }

  function EqTable(R: Ring, x: seq<Elem>): int -> Elem {
    u => Eq(R, x, u)
  }

  /** It is the multilinear extension of x's weights. */
  lemma {:induction false} EqAtIsMle(R: Ring, x: seq<Elem>, y: seq<Elem>)
    requires R.Laws() && |x| == |y|
    ensures EqAt(R, x, y) == Mle(R, EqTable(R, x), y)
    decreases |x|
  {
    if x == [] {
      MleEmpty(R, EqTable(R, x));
      assert Eq(R, [], 0) == R.one;
    } else {
      hide Mle, Eq, Ring.Laws, EqTable;
      MleFold(R, EqTable(R, x), y);
      EqFold(R, x, y);
      EqAtIsMle(R, x[1..], y[1..]);
    }
  }

  lemma EqFold(R: Ring, x: seq<Elem>, y: seq<Elem>)
    requires R.Laws() && |x| == |y| > 0
    ensures Mle(R, Fold(R, EqTable(R, x), y[0]), y[1..])
         == R.mul(R.add(R.add(R.one, x[0]), y[0]), Mle(R, EqTable(R, x[1..]), y[1..]))
  {
    hide Mle, Eq, Ring.Laws, Pow2;
    var s, folded := R.add(R.add(R.one, x[0]), y[0]), Fold(R, EqTable(R, x), y[0]);
    forall k
      ensures folded(k) == R.mul(s, EqTable(R, x[1..])(k))
    {
      EqPair(R, x, y[0], k);
    }
    MleScale(R, s, EqTable(R, x[1..]), folded, y[1..]);
  }

  lemma EqPair(R: Ring, x: seq<Elem>, r: Elem, k: int)
    requires R.Laws() && x != []
    ensures R.Lerp(Eq(R, x, 2 * k), Eq(R, x, 2 * k + 1), r) == R.mul(R.add(R.add(R.one, x[0]), r), Eq(R, x[1..], k))
  {
    var e, p := Eq(R, x[1..], k), R.add(R.one, x[0]);
    assert 2 * k / 2 == k && (2 * k + 1) / 2 == k;
    assert Eq(R, x, 2 * k) == R.mul(p, e) && Eq(R, x, 2 * k + 1) == R.mul(x[0], e);
    R.MulComm(p, e);
    R.MulComm(x[0], e);
    R.LerpScale(e, p, x[0], r);
    R.Cancel(R.one, x[0]);
    R.MulOne(r);
    R.MulComm(e, R.add(p, r));
  }

  // ---- the weight ------------------------------------------------------------------------------

  function FrobAll(R: Ring, x: seq<Elem>, k: nat): (y: seq<Elem>)
    ensures |y| == |x| && forall i :: 0 <= i < |x| ==> y[i] == R.Frob(x[i], k)
  {
    seq(|x|, i requires 0 <= i < |x| => R.Frob(x[i], k))
  }

  /** Frobenius acts on the weights through the point. */
  lemma {:induction false} EqFrob(R: Ring, x: seq<Elem>, u: int, k: nat)
    requires R.Laws()
    ensures Eq(R, FrobAll(R, x, k), u) == R.Frob(Eq(R, x, u), k)
    decreases |x|
  {
    hide Ring.Frob;
    if x == [] {
      R.FrobConst(k);
    } else {
      assert FrobAll(R, x, k)[1..] == FrobAll(R, x[1..], k);
      EqFrob(R, x[1..], u / 2, k);
      R.FrobConst(k);
      R.FrobAdd(R.one, x[0], k);
      R.FrobMul(EqBit(R, x[0], u), Eq(R, x[1..], u / 2), k);
    }
  }

  /** W(u) = Phi(eq(point, u)). */
  function Weight(R: Ring, f: seq<Elem>, point: seq<Elem>): int -> Elem {
    u => Map(R, f, Eq(R, point, u))
  }

  /** What `at` adds for shift k. */
  function AtTerm(R: Ring, f: seq<Elem>, point: seq<Elem>, y: seq<Elem>): int -> Elem
    requires |point| == |y|
  {
    k => if k >= 0 then R.mul(Coefficient(R, f, k), EqAt(R, FrobAll(R, point, k), y)) else R.zero
  }

  /** The closed form is the multilinear extension of W, so it is W on the cube. */
  lemma WeightAt(R: Ring, f: seq<Elem>, point: seq<Elem>, y: seq<Elem>)
    requires R.Laws() && |point| == |y|
    ensures Sum(R, Pow2(|f|), AtTerm(R, f, point, y)) == Mle(R, Weight(R, f, point), y)
  {
    hide Sum, Map, Mle, Coefficient, Eq, Pow2, EqAt;
    WeightSums(R, Pow2(|f|), f, point, y);
    forall u
      ensures Weight(R, f, point)(u) == Partial(R, Pow2(|f|), f, point)(u)
    {
      MapIsSum(R, f, Eq(R, point, u));
    }
    MleEq(R, Weight(R, f, point), Partial(R, Pow2(|f|), f, point), y);
  }

  function Partial(R: Ring, n: nat, f: seq<Elem>, point: seq<Elem>): int -> Elem {
    u => Sum(R, n, MapTerm(R, f, Eq(R, point, u)))
  }

  lemma {:induction false} WeightSums(R: Ring, n: nat, f: seq<Elem>, point: seq<Elem>, y: seq<Elem>)
    requires R.Laws() && |point| == |y|
    ensures Sum(R, n, AtTerm(R, f, point, y)) == Mle(R, Partial(R, n, f, point), y)
  {
    hide Mle, Coefficient, Eq, Pow2, EqAt;
    if n == 0 {
      MleNone(R, Partial(R, 0, f, point), y);
    } else {
      var k := n - 1;
      WeightSums(R, k, f, point, y);
      var c, x := Coefficient(R, f, k), FrobAll(R, point, k);
      EqAtIsMle(R, x, y);
      var term := u => MapTerm(R, f, Eq(R, point, u))(k);
      forall u
        ensures term(u) == R.mul(c, EqTable(R, x)(u))
      {
        EqFrob(R, point, u, k);
      }
      MleScale(R, c, EqTable(R, x), term, y);
      MleAdd(R, Partial(R, k, f, point), term, Partial(R, n, f, point), y);
    }
  }

  // ---- the target ------------------------------------------------------------------------------

  /** Slice i of q, and q from its slices: q(u) = sum_i x^i z_i(u). */
  ghost predicate BitSlices(R: Ring, z: (int, int) -> Elem) {
    forall u, i :: z(u, i) == R.zero || z(u, i) == R.one
  }

  function FromSlices(R: Ring, z: (int, int) -> Elem, n: nat, x: Elem): int -> Elem {
    u => Horner(R, Row(z, u), 0, n, x)
  }

  /** Phi(s_i), s_i the i-th slice's extension at the point. */
  function SliceClaims(R: Ring, f: seq<Elem>, s: seq<Elem>): int -> Elem {
    i => if 0 <= i < |s| then Map(R, f, s[i]) else R.zero
  }

  function Summand(R: Ring, f: seq<Elem>, point: seq<Elem>, q: int -> Elem): int -> Elem {
    u => R.mul(Weight(R, f, point)(u), q(u))
  }

  function MappedSlice(R: Ring, f: seq<Elem>, point: seq<Elem>, z: (int, int) -> Elem): (int, int) -> Elem {
    (u, i) => R.mul(Weight(R, f, point)(u), z(u, i))
  }

  /** With true slice claims the Horner target is sum_u W(u) q(u). */
  lemma TargetIsSum(R: Ring, f: seq<Elem>, point: seq<Elem>, z: (int, int) -> Elem, s: seq<Elem>, x: Elem)
    requires R.Laws() && BitSlices(R, z)
    requires forall i :: 0 <= i < |s| ==> s[i] == Mle(R, Column(z, i), point)
    ensures Horner(R, SliceClaims(R, f, s), 0, |s|, x)
         == Sum(R, Pow2(|point|), Summand(R, f, point, FromSlices(R, z, |s|, x)))
  {
    hide Sum, Map, Horner, Pow2;
    var n, cf := Pow2(|point|), MappedSlice(R, f, point, z);
    forall i | 0 <= i < |s|
      ensures SliceClaims(R, f, s)(i) == Sum(R, n, Column(cf, i))
    {
      SliceMaps(R, f, point, z, i);
    }
    var v := Summand(R, f, point, FromSlices(R, z, |s|, x));
    forall u
      ensures v(u) == Horner(R, Row(cf, u), 0, |s|, x)
    {
      HornerScale(R, Weight(R, f, point)(u), Row(z, u), Row(cf, u), 0, |s|, x);
    }
    HornerSum(R, cf, SliceClaims(R, f, s), v, 0, |s|, x, n);
  }

  /** Phi of a slice's claim, term by term: the bits pass through. */
  lemma SliceMaps(R: Ring, f: seq<Elem>, point: seq<Elem>, z: (int, int) -> Elem, i: int)
    requires R.Laws() && BitSlices(R, z)
    ensures Map(R, f, Mle(R, Column(z, i), point)) == Sum(R, Pow2(|point|), Column(MappedSlice(R, f, point, z), i))
  {
    hide Sum, Map, Pow2, Eq;
    var t, h := Weighted(R, Column(z, i), point), Column(MappedSlice(R, f, point, z), i);
    forall u
      ensures h(u) == Map(R, f, t(u))
    {
      var e := Eq(R, point, u);
      R.MulZero(e);
      R.MulOne(e);
      R.MulZero(Map(R, f, e));
      R.MulOne(Map(R, f, e));
      MapZero(R, f);
      assert z(u, i) == R.zero || z(u, i) == R.one;
    }
    MapSum(R, f, Pow2(|point|), t, h);
  }

  /** Evaluation passes through a sum taken coefficient by coefficient. */
  lemma {:induction false} HornerSum(R: Ring, cf: (int, int) -> Elem, q: int -> Elem, v: int -> Elem,
                                     i: int, n: int, x: Elem, m: nat)
    requires R.Laws() && 0 <= i
    requires forall k :: i <= k < n ==> q(k) == Sum(R, m, Column(cf, k))
    requires forall u :: 0 <= u < m ==> v(u) == Horner(R, Row(cf, u), i, n, x)
    ensures Horner(R, q, i, n, x) == Sum(R, m, v)
    decreases n - i
  {
    if i >= n {
      SumNone(R, m, v);
    } else {
      var w := u => Horner(R, Row(cf, u), i + 1, n, x);
      HornerSum(R, cf, q, w, i + 1, n, x, m);
      var wx := u => R.mul(x, w(u));
      SumScale(R, m, x, w, wx);
      R.MulComm(x, Sum(R, m, w));
      forall u | 0 <= u < m
        ensures v(u) == R.add(wx(u), Column(cf, i)(u))
      {
        R.MulComm(x, w(u));
      }
      SumAdd(R, m, wx, Column(cf, i), v);
    }
  }

  // ---- the methods -----------------------------------------------------------------------------

  /** `ring_map`: shifts by repeated squaring. */
  method RingMap(R: Ring, f: seq<Elem>, a: Elem) returns (value: Elem)
    ensures value == Map(R, f, a)
  {
    value := a;
    var p := 0;
    while p < |f|
      invariant 0 <= p <= |f|
      invariant Map(R, f, a) == Map(R, f[p..], value)
    {
      var shift, frobenius, i := Pow2(|f| - 1 - p), value, 0;
      while i < shift
        invariant 0 <= i <= shift && frobenius == R.Frob(value, i)
      {
        frobenius := R.Square(frobenius);
        i := i + 1;
      }
      assert f[p..][1..] == f[p + 1..];
      value := R.add(value, R.mul(f[p], frobenius));
      p := p + 1;
    }
    assert f[p..] == [];
  }

  /** One coefficient, stage by stage. */
  method OneCoefficient(R: Ring, f: seq<Elem>, k: nat) returns (product: Elem)
    requires R.Laws()
    ensures product == Coefficient(R, f, k)
  {
    hide Bit, Low, Ring.Frob;
    product := R.one;
    var p := 0;
    R.MulOne(Coefficient(R, f, k));
    while p < |f|
      invariant 0 <= p <= |f|
      invariant Coefficient(R, f, k) == R.mul(product, Coefficient(R, f[p..], k))
    {
      assert f[p..][1..] == f[p + 1..];
      if Bit(k, |f| - 1 - p) == 1 {
        var power := Power2(R, f[p], Low(k, |f| - 1 - p));
        R.MulAssoc(product, power, Coefficient(R, f[p + 1..], k));
        product := R.mul(product, power);
      }
      p := p + 1;
    }
    assert f[p..] == [];
    R.MulOne(product);
  }

  method Power2(R: Ring, a: Elem, n: nat) returns (power: Elem)
    ensures power == R.Frob(a, n)
  {
    power := a;
    var i := 0;
    while i < n
      invariant 0 <= i <= n && power == R.Frob(a, i)
    {
      power := R.Square(power);
      i := i + 1;
    }
  }

  method Coefficients(R: Ring, f: seq<Elem>, out: array<Elem>)
    requires R.Laws()
    modifies out
    ensures forall k :: 0 <= k < out.Length ==> out[k] == Coefficient(R, f, k)
  {
    var k := 0;
    while k < out.Length
      invariant 0 <= k <= out.Length
      invariant forall l :: 0 <= l < k ==> out[l] == Coefficient(R, f, l)
    {
      out[k] := OneCoefficient(R, f, k);
      k := k + 1;
    }
  }

  /** `RingWeight::at`: the point's coordinates are squared in place from one shift to the next. */
  method At(R: Ring, f: seq<Elem>, point: seq<Elem>, y: seq<Elem>) returns (total: Elem)
    requires R.Laws() && |point| == |y|
    ensures total == Mle(R, Weight(R, f, point), y)
  {
    hide Sum, Coefficient, Mle, EqAt, Ring.Laws;
    var table := new Elem[Pow2(|f|)](_ => R.zero);
    Coefficients(R, f, table);
    var frobenius := new Elem[|point|](i requires 0 <= i < |point| => point[i]);
    var k := 0;
    total := R.zero;
    assert frobenius[..] == FrobAll(R, point, 0);
    NoTerms(R, AtTerm(R, f, point, y));
    while k < table.Length
      invariant 0 <= k <= table.Length == Pow2(|f|)
      invariant forall l :: 0 <= l < table.Length ==> table[l] == Coefficient(R, f, l)
      invariant frobenius[..] == FrobAll(R, point, k)
      invariant total == Sum(R, k, AtTerm(R, f, point, y))
    {
      var product := MulSquare(R, table[k], frobenius, y);
      OneTerm(R, AtTerm(R, f, point, y), k);
      FrobNext(R, point, k, frobenius[..]);
      total := R.add(total, product);
      k := k + 1;
    }
    WeightAt(R, f, point, y);
  }

  lemma NoTerms(R: Ring, t: int -> Elem)
    ensures Sum(R, 0, t) == R.zero
  {
  }

  lemma OneTerm(R: Ring, t: int -> Elem, k: nat)
    ensures Sum(R, k + 1, t) == R.add(Sum(R, k, t), t(k))
  {
  }

  lemma FrobNext(R: Ring, x: seq<Elem>, k: nat, y: seq<Elem>)
    requires |y| == |x| && forall i :: 0 <= i < |x| ==> y[i] == R.Square(R.Frob(x[i], k))
    ensures y == FrobAll(R, x, k + 1)
  {
  }

  /** The inner loop: the product over the coordinates, and their squares left behind. */
  method MulSquare(R: Ring, c: Elem, frobenius: array<Elem>, y: seq<Elem>) returns (product: Elem)
    requires R.Laws() && frobenius.Length == |y|
    modifies frobenius
    ensures product == R.mul(c, EqAt(R, old(frobenius[..]), y))
    ensures forall i :: 0 <= i < |y| ==> frobenius[i] == R.Square(old(frobenius[i]))
  {
    hide Ring.Laws, EqAt;
    ghost var x := frobenius[..];
    product := c;
    var n := 0;
    assert x[0..] == x && y[0..] == y;
    while n < |y|
      invariant 0 <= n <= |y|
      invariant R.mul(c, EqAt(R, x, y)) == R.mul(product, EqAt(R, x[n..], y[n..]))
      invariant forall i :: 0 <= i < n ==> frobenius[i] == R.Square(x[i])
      invariant forall i :: n <= i < |y| ==> frobenius[i] == x[i]
    {
      EqAtNext(R, x, y, n, product);
      product := R.mul(product, R.add(R.add(R.one, frobenius[n]), y[n]));
      frobenius[n] := R.Square(frobenius[n]);
      n := n + 1;
    }
    EqAtEnd(R, x[n..], y[n..]);
    R.MulOne(product);
  }

  lemma EqAtEnd(R: Ring, x: seq<Elem>, y: seq<Elem>)
    requires x == [] && y == []
    ensures EqAt(R, x, y) == R.one
  {
  }

  lemma EqAtNext(R: Ring, x: seq<Elem>, y: seq<Elem>, n: nat, product: Elem)
    requires R.Laws() && n < |x| == |y|
    ensures R.mul(product, EqAt(R, x[n..], y[n..]))
         == R.mul(R.mul(product, R.add(R.add(R.one, x[n]), y[n])), EqAt(R, x[n + 1..], y[n + 1..]))
  {
    assert x[n..][1..] == x[n + 1..] && y[n..][1..] == y[n + 1..];
    R.MulAssoc(product, R.add(R.add(R.one, x[n]), y[n]), EqAt(R, x[n + 1..], y[n + 1..]));
  }

  /** `ring_switch`: a challenge a stage, then the target by Horner from the top slice. */
  method Switch(R: Ring, s: seq<Elem>, transcript: Transcript, stages: nat, gen: Elem) returns (target: Elem, f: seq<Elem>)
    modifies transcript
    ensures (f, transcript.history) == Draws(transcript.oracle, old(transcript.history), stages)
    ensures transcript.scalars == old(transcript.scalars)
    ensures target == Horner(R, SliceClaims(R, f, s), 0, |s|, gen)
  {
    hide Draws, Map;
    f := transcript.Samples(stages);
    ghost var drawn := transcript.Now();
    target := R.zero;
    var i := |s|;
    while i > 0
      invariant 0 <= i <= |s| && transcript.Now() == drawn
      invariant target == Horner(R, SliceClaims(R, f, s), i, |s|, gen)
    {
      i := i - 1;
      var mapped := RingMap(R, f, s[i]);
      target := R.add(R.mul(target, gen), mapped);
    }
  }
}
