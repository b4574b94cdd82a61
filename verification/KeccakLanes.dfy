/** keccak.rs's `lane_combination`: for each bit position, the lanes of the layer weights
    combined, in 25 steps of 64 products instead of the 1600 transposed weights. */
module KeccakLanes {
  import opened Rings
  import opened Sums
  import opened Multilinear
  import opened Kernels
  import opened KeccakLinear
  import opened Correlations
  import opened KeccakWeights
  import opened KeccakSums

  /** Lane weights placed at one bit position. */
  function At(R: Ring, c: int -> Elem, k: int): Table {
    (lane, z) => if z == k then c(lane) else R.zero
  }

  function Slice(R: Ring, c: int -> Elem, b: Table, k: int): int -> Elem {
    lane => R.mul(c(lane), b(lane, k))
  }

  /** Against weights at position k only, the full sum is the sum over the lanes at k. */
  lemma DotPick(R: Ring, w: Table, c: int -> Elem, k: int, b: Table)
    requires R.Laws() && 0 <= k < 64
    requires forall lane, z :: 0 <= lane < 25 && 0 <= z < 64 ==> w(lane, z) == At(R, c, k)(lane, z)
    ensures Dot(R, w, b) == Sum(R, 25, Slice(R, c, b, k))
  {
    hide Sum;
    forall lane | 0 <= lane < 25
      ensures LaneSum(R, w, b)(lane) == Slice(R, c, b, k)(lane)
    {
      forall z | 0 <= z < 64 && z != k
        ensures LaneTerm(R, w, b, lane)(z) == R.zero
      {
        R.MulZero(b(lane, z));
        assert w(lane, z) == R.zero;
      }
      SumPick(R, 64, k, LaneTerm(R, w, b, lane));
    }
    SumEq(R, 25, LaneSum(R, w, b), Slice(R, c, b, k));
  }

  /** The weights of a lane's column, s columns along. */
  function ColumnWeight(R: Ring, c: int -> Elem, s: int): int -> Elem {
    lane => OverColumn(R, c, (lane % 5 + s) % 5)
  }

  lemma SpreadAt(R: Ring, c: int -> Elem, k: int, s: int, d: int, lane: int, z: int)
    requires R.Laws()
    ensures Spread(R, At(R, c, k), s, d)(lane, z) == if (z + d) % 64 == k then ColumnWeight(R, c, s)(lane) else R.zero
  {
    hide Sum;
    var x := (lane % 5 + s) % 5;
    var f := y => At(R, c, k)(x + 5 * y, (z + d) % 64);
    assert Col(R, At(R, c, k), x, (z + d) % 64) == Sum(R, 5, f) by {
      SumEq(R, 5, f, y => At(R, c, k)(x + 5 * y, (z + d) % 64));
    }
    if (z + d) % 64 == k {
      SumEq(R, 5, f, Strand(c, x));
    } else {
      SumNone(R, 5, f);
    }
  }

  /** One spread term: the lanes' column weights, on the other side. */
  lemma SpreadSlice(R: Ring, c: int -> Elem, g: Table, k: int, s: int, d: int)
    requires R.Laws() && 0 <= k < 64 && 0 <= s < 5 && 0 <= d < 64
    ensures Dot(R, At(R, c, k), Spread(R, g, s, d)) == Sum(R, 25, Slice(R, ColumnWeight(R, c, 5 - s), g, (k + d) % 64))
  {
    hide Sum, Dot, Spread, ColumnWeight;
    SpreadTranspose(R, At(R, c, k), g, s, d);
    var m, v := (k + d) % 64, ColumnWeight(R, c, 5 - s);
    forall lane, z | 0 <= lane < 25 && 0 <= z < 64
      ensures Spread(R, At(R, c, k), 5 - s, 64 - d)(lane, z) == At(R, v, m)(lane, z)
    {
      SpreadAt(R, c, k, 5 - s, 64 - d, lane, z);
      TurnBack(d, 64, z);
      TurnBack(d, 64, k);
      assert Turn(d, 64)(k) == m && Turn(64 - d, 64)(z) == (z + (64 - d)) % 64;
    }
    DotPick(R, Spread(R, At(R, c, k), 5 - s, 64 - d), v, m, g);
  }

  /** What the loop adds for one lane. */
  function Contribution(R: Ring, zq: seq<Elem>, lam: seq<Elem>, c: int -> Elem, z: int): int -> Elem {
    lane =>
      var g := TableOf(R, lam)(Pi(lane));
      R.add(R.mul(R.mul(g, R.add(c(lane), ColumnWeight(R, c, 4)(lane))), Eq(R, zq, (z + Rho(lane)) % 64)),
            R.mul(R.mul(g, ColumnWeight(R, c, 1)(lane)), Eq(R, zq, (z + 1 + Rho(lane)) % 64)))
  }

  lemma ContributionParts(R: Ring, zq: seq<Elem>, lam: seq<Elem>, c: int -> Elem, z: int, lane: int)
    requires R.Laws()
    ensures var g := Pull(Factored(R, zq, lam));
      Contribution(R, zq, lam, c, z)(lane)
      == R.add(Slice(R, c, g, z)(lane),
               R.add(Slice(R, ColumnWeight(R, c, 4), g, z)(lane), Slice(R, ColumnWeight(R, c, 1), g, (z + 1) % 64)(lane)))
  {
    hide Eq, ColumnWeight, Rho, Pi, TableOf;
    ModAdd(z + 1, Rho(lane));
    var l, u, v, w := TableOf(R, lam)(Pi(lane)), c(lane), ColumnWeight(R, c, 4)(lane), ColumnWeight(R, c, 1)(lane);
    var e, f := Eq(R, zq, (z + Rho(lane)) % 64), Eq(R, zq, (z + 1 + Rho(lane)) % 64);
    R.MulComm(l, R.add(u, v));
    R.MulAssoc(R.add(u, v), l, e);
    R.MulComm(l, e);
    R.Dist(R.mul(e, l), u, v);
    R.MulComm(l, w);
    R.MulAssoc(w, l, f);
    R.MulComm(l, f);
    R.AddAssoc(R.mul(u, R.mul(e, l)), R.mul(v, R.mul(e, l)), R.mul(w, R.mul(f, l)));
  }

  /** The contributions of all lanes are the combination of the transposed weights. */
  lemma LanesCombine(R: Ring, zq: seq<Elem>, lam: seq<Elem>, c: int -> Elem, z: int)
    requires R.Laws() && 0 <= z < 64
    ensures Sum(R, 25, Contribution(R, zq, lam, c, z)) == Sum(R, 25, Slice(R, c, Transpose(R, Factored(R, zq, lam)), z))
  {
    hide Sum, Dot, Spread, ColumnWeight, Slice, Pull, ThetaTranspose, Contribution;
    var g, e := Pull(Factored(R, zq, lam)), At(R, c, z);
    var s0, s1, s2 := Slice(R, c, g, z), Slice(R, ColumnWeight(R, c, 4), g, z), Slice(R, ColumnWeight(R, c, 1), g, (z + 1) % 64);
    var s12 := lane => R.add(s1(lane), s2(lane));
    forall lane
      ensures Contribution(R, zq, lam, c, z)(lane) == R.add(s0(lane), s12(lane))
    {
      ContributionParts(R, zq, lam, c, z, lane);
    }
    SumAdd(R, 25, s1, s2, s12);
    SumAdd(R, 25, s0, s12, Contribution(R, zq, lam, c, z));
    DotPick(R, e, c, z, g);
    DotPick(R, e, c, z, ThetaTranspose(R, g));
    SpreadSlice(R, c, g, z, 1, 0);
    SpreadSlice(R, c, g, z, 4, 1);
    DotThetaTranspose(R, e, g);
    SpreadWraps(R, g, 1);
    DotSame(R, e, Spread(R, g, 1, 64), Spread(R, g, 1, 0));
  }

  lemma SpreadWraps(R: Ring, g: Table, s: int)
    ensures forall lane, z :: 0 <= lane < 25 && 0 <= z < 64 ==> Spread(R, g, s, 64)(lane, z) == Spread(R, g, s, 0)(lane, z)
  {
    hide Col;
    forall lane, z | 0 <= lane < 25 && 0 <= z < 64
      ensures Spread(R, g, s, 64)(lane, z) == Spread(R, g, s, 0)(lane, z)
    {
      DivUnique(z + 64, 64, 1, z);
      DivUnique(z, 64, 0, z);
    }
  }

  /** The first loop of `lane_combination`: the column sums of the lane weights. */
  method ColumnSums(R: Ring, wt: seq<Elem>) returns (columns: seq<Elem>)
    requires |wt| == 25
    ensures |columns| == 5 && forall x :: 0 <= x < 5 ==> columns[x] == OverColumn(R, TableOf(R, wt), x)
  {
    hide Accumulated, OverColumn;
    columns := [R.zero, R.zero, R.zero, R.zero, R.zero];
    AccumulatedStart(R, TableOf(R, wt));
    var lane := 0;
    while lane < 25
      invariant 0 <= lane <= 25 && |columns| == 5 && Accumulated(R, TableOf(R, wt), lane, columns)
    {
      AccumulateNext(R, TableOf(R, wt), lane, columns, wt[lane]);
      columns := columns[lane % 5 := R.add(columns[lane % 5], wt[lane])];
      lane := lane + 1;
    }
    AccumulatedAll(R, TableOf(R, wt), columns);
  }

  /** out[z] has t(z)'s terms for the first `lane` lanes, for z < n, and for one lane fewer from n on. */
  ghost predicate Summed(R: Ring, t: int -> int -> Elem, lane: nat, n: int, out: seq<Elem>) {
    && |out| == 64
    && (forall z :: 0 <= z < 64 && z < n ==> out[z] == Sum(R, lane, t(z)))
    && (forall z :: 0 <= z < 64 && n <= z && lane > 0 ==> out[z] == Sum(R, lane - 1, t(z)))
  }

  function Contributions(R: Ring, zq: seq<Elem>, lam: seq<Elem>, c: int -> Elem): int -> int -> Elem {
    z => Contribution(R, zq, lam, c, z)
  }

  /** Lane `lane`'s terms, from its coefficients a and b and its rotation rho. */
  ghost predicate LaneTerms(R: Ring, zq: seq<Elem>, t: int -> int -> Elem, lane: int, rho: nat, a: Elem, b: Elem) {
    forall z :: 0 <= z < 64 ==>
      t(z)(lane) == R.add(R.mul(a, Eq(R, zq, (z + rho) % 64)), R.mul(b, Eq(R, zq, (z + 1 + rho) % 64)))
  }

  ghost predicate Combined(R: Ring, zq: seq<Elem>, lam: seq<Elem>, c: int -> Elem, out: seq<Elem>) {
    |out| == 64 && forall z :: 0 <= z < 64 ==> out[z] == Sum(R, 25, Slice(R, c, Transpose(R, Factored(R, zq, lam)), z))
  }

  /** `lane_combination` on layer weights: out[z] = sum_lane wt[lane] L^T(zw lam)[lane][z]. */
  method LaneCombination(R: Ring, zq: seq<Elem>, lam: seq<Elem>, wt: seq<Elem>, out: array<Elem>)
    requires R.Laws() && |zq| == Z_BITS && |lam| == |wt| == 25 && out.Length == 64
    modifies out
    ensures Combined(R, zq, lam, TableOf(R, wt), out[..])
  {
    hide Sum, Eq, Pow2, Transpose, Rho, OverColumn, ColumnWeight, Contributions, Ring.Laws, Slice, IsKernel, Summed, LaneTerms, TableOf, Combined,
      Pi, PiInverse;
    var zw := new Elem[64];
    Powers();
    EqKernel(R, zq, zw);
    ghost var zc := zw[..];
    ghost var c := TableOf(R, wt);
    var columns := ColumnSums(R, wt);
    forall z | 0 <= z < 64 {
      out[z] := R.zero;
    }
    assert zw[..] == zc;
    var lane := 0;
    ghost var t := Contributions(R, zq, lam, c);
    SumsStart(R, t, out[..]);
    while lane < 25
      invariant 0 <= lane <= 25
      invariant Summed(R, t, lane, 64, out[..])
      invariant IsKernel(R, zq, zw[..])
    {
      PiBijective(lane);
      RhoBound(lane);
      var x, g, rho := lane % 5, lam[Pi(lane)], Rho(lane);
      var a := R.mul(g, R.add(wt[lane], columns[(x + 4) % 5]));
      var b := R.mul(g, columns[(x + 1) % 5]);
      TableAt(R, lam, Pi(lane));
      TableAt(R, wt, lane);
      WeightAt(R, c, 4, lane, columns);
      WeightAt(R, c, 1, lane, columns);
      TermsAt(R, zq, lam, c, lane, rho, g, columns[(x + 4) % 5], columns[(x + 1) % 5]);
      AddLane(R, zq, t, zw, lane, rho, a, b, out);
      lane := lane + 1;
    }
    AllCombined(R, zq, lam, c, out[..]);
  }

  /** The inner loop: one lane's contribution to every position. */
  method AddLane(R: Ring, ghost zq: seq<Elem>, ghost t: int -> int -> Elem, zw: array<Elem>, ghost lane: nat,
                 rho: nat, a: Elem, b: Elem, out: array<Elem>)
    requires |zq| == Z_BITS && out.Length == zw.Length == 64 && out != zw
    requires IsKernel(R, zq, zw[..]) && LaneTerms(R, zq, t, lane, rho, a, b) && Summed(R, t, lane, 64, out[..])
    modifies out
    ensures Summed(R, t, lane + 1, 64, out[..])
  {
    hide Sum, Eq, Summed, IsKernel;
    SummedShift(R, t, lane, out[..]);
    KernelBits(R, zq, zw[..]);
    var z := 0;
    while z < 64
      invariant 0 <= z <= 64
      invariant forall k :: 0 <= k < 64 ==> zw[k] == Eq(R, zq, k)
      invariant Summed(R, t, lane + 1, z, out[..])
    {
      ghost var was := out[..];
      var v := R.add(R.mul(a, zw[(z + rho) % 64]), R.mul(b, zw[(z + 1 + rho) % 64]));
      SummedNext(R, t, lane, z, was, v);
      out[z] := R.add(out[z], v);
      assert out[..] == was[z := R.add(was[z], v)];
      z := z + 1;
    }
  }

  lemma SummedShift(R: Ring, t: int -> int -> Elem, lane: nat, out: seq<Elem>)
    requires Summed(R, t, lane, 64, out)
    ensures Summed(R, t, lane + 1, 0, out)
  {
    hide Sum;
  }

  lemma SummedNext(R: Ring, t: int -> int -> Elem, lane: nat, z: int, out: seq<Elem>, v: Elem)
    requires 0 <= z < 64 && Summed(R, t, lane + 1, z, out) && v == t(z)(lane)
    ensures |out| == 64 && Summed(R, t, lane + 1, z + 1, out[z := R.add(out[z], v)])
  {
    hide Sum;
    SumNext(R, lane, t(z));
  }

  lemma WeightAt(R: Ring, c: int -> Elem, s: int, lane: int, columns: seq<Elem>)
    requires |columns| == 5 && forall x :: 0 <= x < 5 ==> columns[x] == OverColumn(R, c, x)
    ensures columns[(lane % 5 + s) % 5] == ColumnWeight(R, c, s)(lane)
  {
    hide OverColumn;
  }

  lemma TermsAt(R: Ring, zq: seq<Elem>, lam: seq<Elem>, c: int -> Elem, lane: int, rho: nat, g: Elem, u: Elem, v: Elem)
    requires g == TableOf(R, lam)(Pi(lane)) && rho == Rho(lane)
    requires u == ColumnWeight(R, c, 4)(lane) && v == ColumnWeight(R, c, 1)(lane)
    ensures LaneTerms(R, zq, Contributions(R, zq, lam, c), lane, rho, R.mul(g, R.add(c(lane), u)), R.mul(g, v))
  {
    hide OverColumn, Pi, Rho, TableOf, Eq, ColumnWeight;
  }

  lemma KernelBits(R: Ring, zq: seq<Elem>, zw: seq<Elem>)
    requires |zq| == Z_BITS && IsKernel(R, zq, zw)
    ensures |zw| >= 64 && forall z :: 0 <= z < 64 ==> zw[z] == Eq(R, zq, z)
  {
    Powers();
    hide Eq, Pow2;
  }

  lemma SumsStart(R: Ring, t: int -> int -> Elem, out: seq<Elem>)
    requires |out| == 64 && forall z :: 0 <= z < 64 ==> out[z] == R.zero
    ensures Summed(R, t, 0, 64, out)
  {
  }

  lemma AllCombined(R: Ring, zq: seq<Elem>, lam: seq<Elem>, c: int -> Elem, out: seq<Elem>)
    requires R.Laws() && Summed(R, Contributions(R, zq, lam, c), 25, 64, out)
    ensures Combined(R, zq, lam, c, out)
  {
    hide Sum, Contribution, Slice, Transpose, Ring.Laws;
    forall z | 0 <= z < 64
      ensures out[z] == Sum(R, 25, Slice(R, c, Transpose(R, Factored(R, zq, lam)), z))
    {
      LanesCombine(R, zq, lam, c, z);
    }
  }
}
