/** keccak.rs's `dot_eq_layer` and `lane_combination` as loops, proved to compute the full sums
    against the transposed weights. */
module KeccakSums {
  import opened Rings
  import opened Sums
  import opened Multilinear
  import opened Kernels
  import opened KeccakLinear
  import opened Correlations
  import opened KeccakWeights

  // ---- column accumulators ---------------------------------------------------------------------

  /** How many of the first n lanes lie in column x. */
  function InColumn(n: int, x: int): nat
    requires 0 <= n && 0 <= x < 5
  {
    (n + 4 - x) / 5
  }

  lemma NextInColumn(n: int, x: int)
    requires 0 <= n && 0 <= x < 5
    ensures n % 5 == x ==> InColumn(n + 1, x) == InColumn(n, x) + 1 && x + 5 * InColumn(n, x) == n
    ensures n % 5 != x ==> InColumn(n + 1, x) == InColumn(n, x)
  {
  }

  /** acc[x] has the sum of f over the lanes of column x among the first n. */
  ghost predicate Accumulated(R: Ring, f: int -> Elem, n: int, acc: seq<Elem>)
    requires 0 <= n
  {
    |acc| == 5 && forall x :: 0 <= x < 5 ==> acc[x] == Sum(R, InColumn(n, x), Strand(f, x))
  }

  lemma AccumulateNext(R: Ring, f: int -> Elem, n: int, acc: seq<Elem>, v: Elem)
    requires 0 <= n && Accumulated(R, f, n, acc) && v == f(n)
    ensures Accumulated(R, f, n + 1, acc[n % 5 := R.add(acc[n % 5], v)])
  {
    var next := acc[n % 5 := R.add(acc[n % 5], v)];
    forall x | 0 <= x < 5
      ensures next[x] == Sum(R, InColumn(n + 1, x), Strand(f, x))
    {
      NextInColumn(n, x);
      if n % 5 == x {
        assert Strand(f, x)(InColumn(n, x)) == f(n);
      }
    }
  }

  lemma AccumulatedStart(R: Ring, f: int -> Elem)
    ensures Accumulated(R, f, 0, [R.zero, R.zero, R.zero, R.zero, R.zero])
  {
  }

  lemma AccumulatedAll(R: Ring, f: int -> Elem, acc: seq<Elem>)
    requires Accumulated(R, f, 25, acc)
    ensures |acc| == 5 && forall x :: 0 <= x < 5 ==> acc[x] == OverColumn(R, f, x)
  {
    hide Sum;
    assert forall x :: 0 <= x < 5 ==> InColumn(25, x) == 5;
  }

  /** `dot_eq_layer`: the kernel of `local` against all 1600 weights L^T(zw lam). */
  method DotEqLayer(R: Ring, zq: seq<Elem>, lam: seq<Elem>, local: seq<Elem>) returns (total: Elem)
    requires R.Laws() && |zq| == Z_BITS && |lam| == 25 && |local| == LOCAL_BITS
    ensures total == Dot(R, Kernel(R, local), Transpose(R, Factored(R, zq, lam)))
  {
    hide Correlation, Eq, Transpose, Dot, Kernel, Pow2, Accumulated, Sum, Ring.Laws, IsKernel, Shifted, Rho;
    ghost var zp := local[..Z_BITS];
    ghost var r0s, r1s, lws := Shifted(R, zp, zq, lam, 0), Shifted(R, zp, zq, lam, 1), LaneWeight(R, local);
    var lc := new Elem[32];
    Powers();
    EqKernel(R, local[Z_BITS..], lc);
    var correlation := new Elem[64];
    AllCorrelations(R, local[..Z_BITS], zq, correlation);
    KernelLanes(R, local, lc[..]);
    total := R.zero;
    var zero5 := [R.zero, R.zero, R.zero, R.zero, R.zero];
    var cr0, cr1, columns, lane := zero5, zero5, zero5, 0;
    AccumulatedStart(R, r0s);
    AccumulatedStart(R, r1s);
    AccumulatedStart(R, lws);
    SumZeroTerms(R, LanePart(R, zq, lam, local));
    while lane < 25
      invariant 0 <= lane <= 25
      invariant total == Sum(R, lane, LanePart(R, zq, lam, local))
      invariant |cr0| == |cr1| == |columns| == 5
      invariant Accumulated(R, r0s, lane, cr0) && Accumulated(R, r1s, lane, cr1) && Accumulated(R, lws, lane, columns)
      invariant forall i :: 0 <= i < 25 ==> lc[i] == LaneWeight(R, local)(i)
      invariant forall s :: 0 <= s < 64 ==> correlation[s] == Correlation(R, local[..Z_BITS], zq, s)
    {
      var rho := Rho(lane);
      RhoBound(lane);
      PiBijective(lane);
      var g := lam[Pi(lane)];
      var r0 := R.mul(g, correlation[rho]);
      var r1 := R.mul(g, correlation[(rho + 1) % 64]);
      ShiftedAt(R, zp, zq, lam, lane);
      AccumulateNext(R, r0s, lane, cr0, r0);
      AccumulateNext(R, r1s, lane, cr1, r1);
      AccumulateNext(R, lws, lane, columns, lc[lane]);
      SumNext(R, lane, LanePart(R, zq, lam, local));
      total := R.add(total, R.mul(lc[lane], r0));
      cr0 := cr0[lane % 5 := R.add(cr0[lane % 5], r0)];
      cr1 := cr1[lane % 5 := R.add(cr1[lane % 5], r1)];
      columns := columns[lane % 5 := R.add(columns[lane % 5], lc[lane])];
      lane := lane + 1;
    }
    AccumulatedAll(R, r0s, cr0);
    AccumulatedAll(R, r1s, cr1);
    AccumulatedAll(R, lws, columns);
    total := ColumnLoop(R, zq, lam, local, total, cr0, cr1, columns);
    LayerDot(R, zq, lam, local);
  }

  /** The last loop of `dot_eq_layer`. */
  method ColumnLoop(R: Ring, ghost zq: seq<Elem>, ghost lam: seq<Elem>, ghost local: seq<Elem>, start: Elem,
                    cr0: seq<Elem>, cr1: seq<Elem>, columns: seq<Elem>) returns (total: Elem)
    requires R.Laws() && |local| == LOCAL_BITS && |cr0| == |cr1| == |columns| == 5
    requires forall x :: 0 <= x < 5 ==> cr0[x] == OverColumn(R, Shifted(R, local[..Z_BITS], zq, lam, 0), x)
    requires forall x :: 0 <= x < 5 ==> cr1[x] == OverColumn(R, Shifted(R, local[..Z_BITS], zq, lam, 1), x)
    requires forall x :: 0 <= x < 5 ==> columns[x] == OverColumn(R, LaneWeight(R, local), x)
    ensures total == R.add(start, Sum(R, 5, ColumnPart(R, zq, lam, local)))
  {
    hide Sum, OverColumn, Shifted, LaneWeight, Ring.Laws;
    total := start;
    var x := 0;
    ghost var part := ColumnPart(R, zq, lam, local);
    SumZeroTerms(R, part);
    R.AddZero(start);
    while x < 5
      invariant 0 <= x <= 5
      invariant total == R.add(start, Sum(R, x, part))
    {
      var v := R.mul(columns[x], R.add(cr0[(x + 1) % 5], cr1[(x + 4) % 5]));
      SumNext(R, x, part);
      R.AddAssoc(start, Sum(R, x, part), v);
      total := R.add(total, v);
      x := x + 1;
    }
  }

  lemma Powers()
    ensures Pow2(5) == 32 && Pow2(6) == 64
  {
    Pow2Six();
  }

  lemma SumZeroTerms(R: Ring, f: int -> Elem)
    ensures Sum(R, 0, f) == R.zero
  {
  }

  lemma SumNext(R: Ring, n: nat, f: int -> Elem)
    ensures Sum(R, n + 1, f) == R.add(Sum(R, n, f), f(n))
  {
  }

  lemma KernelLanes(R: Ring, local: seq<Elem>, lc: seq<Elem>)
    requires |local| == LOCAL_BITS && IsKernel(R, local[Z_BITS..], lc)
    ensures |lc| >= 32 && forall i :: 0 <= i < 25 ==> lc[i] == LaneWeight(R, local)(i)
  {
    Powers();
    hide Eq, Pow2;
  }

  lemma ShiftedAt(R: Ring, zp: seq<Elem>, zq: seq<Elem>, lam: seq<Elem>, lane: int)
    requires 0 <= lane < 25 && |lam| == 25 && 0 <= Pi(lane) < 25
    ensures Shifted(R, zp, zq, lam, 0)(lane) == R.mul(lam[Pi(lane)], Correlation(R, zp, zq, Rho(lane)))
    ensures Shifted(R, zp, zq, lam, 1)(lane) == R.mul(lam[Pi(lane)], Correlation(R, zp, zq, (Rho(lane) + 1) % 64))
  {
    RhoBound(lane);
    hide Correlation, Pi, Rho;
    assert (Rho(lane) + 0) % 64 == Rho(lane);
    assert TableOf(R, lam)(Pi(lane)) == lam[Pi(lane)];
  }
}
