/** keccak.rs's factored layer weights: the short sums the verifier takes equal the full sums
    over the 1600 weights L^T(w), w an eq kernel over the bit position times one over the lane. */
module KeccakWeights {
  import opened Rings
  import opened Sums
  import opened Multilinear
  import opened Kernels
  import opened KeccakLinear
  import opened Correlations

  const Z_BITS := 6
  const LOCAL_BITS := 11

  /** eq(local, 64 lane + z). */
  function Kernel(R: Ring, local: seq<Elem>): Table {
    (lane, z) => Eq(R, local, z + 64 * lane)
  }

  /** w[lane][z] = zw[z] lam[lane]. */
  function Factored(R: Ring, zq: seq<Elem>, lam: seq<Elem>): Table {
    (lane, z) => R.mul(Eq(R, zq, z), TableOf(R, lam)(lane))
  }

  /** lam[pi(lane)] times the correlation of the two z kernels at the shift rho + d. */
  function Shifted(R: Ring, zp: seq<Elem>, zq: seq<Elem>, lam: seq<Elem>, d: int): int -> Elem {
    lane => R.mul(TableOf(R, lam)(Pi(lane)), Correlation(R, zp, zq, (Rho(lane) + d) % 64))
  }

  function Strand(f: int -> Elem, x: int): int -> Elem {
    y => f(x + 5 * y)
  }

  /** The sum of f over the lanes of column x. */
  function OverColumn(R: Ring, f: int -> Elem, x: int): Elem {
    Sum(R, 5, Strand(f, x))
  }

  function LaneWeight(R: Ring, local: seq<Elem>): int -> Elem
    requires |local| == LOCAL_BITS
  {
    lane => Eq(R, local[Z_BITS..], lane)
  }

  lemma KernelSplits(R: Ring, local: seq<Elem>, lane: int, z: int)
    requires R.Laws() && |local| == LOCAL_BITS && 0 <= z < 64
    ensures Kernel(R, local)(lane, z) == R.mul(Eq(R, local[..Z_BITS], z), LaneWeight(R, local)(lane))
  {
    Pow2Six();
    hide Eq, Pow2;
    assert local[..Z_BITS] + local[Z_BITS..] == local;
    EqConcat(R, local[..Z_BITS], local[Z_BITS..], z, lane);
  }

  lemma Pow2Six()
    ensures Pow2(6) == 64
  {
    assert Pow2(2) == 4;
    Pow2Add(2, 4);
    Pow2Values();
  }

  lemma ModShift(z: int, d: int, r: int)
    ensures ((z + d) % 64 + r) % 64 == (z + (r + d) % 64) % 64
  {
    ModAdd(z + d, r);
    ModAdd(r + d, z);
  }

  lemma ModAdd(a: int, b: int)
    ensures (a % 64 + b) % 64 == (a + b) % 64
  {
    var q, t := a / 64, (a % 64 + b) / 64;
    DivUnique(a + b, 64, q + t, (a % 64 + b) % 64);
  }

  function ZTerm(R: Ring, zp: seq<Elem>, g: Table, lane: int, d: int): int -> Elem {
    z => R.mul(Eq(R, zp, z), g(lane, (z + d) % 64))
  }

  /** One lane's z sum against the pulled-back weights, d positions on. */
  lemma LaneCorrelation(R: Ring, zp: seq<Elem>, zq: seq<Elem>, lam: seq<Elem>, lane: int, d: int)
    requires R.Laws() && |zp| == |zq| == Z_BITS
    ensures Sum(R, 64, ZTerm(R, zp, Pull(Factored(R, zq, lam)), lane, d)) == Shifted(R, zp, zq, lam, d)(lane)
  {
    Pow2Six();
    hide Sum, Eq, Pow2, Pi, Rho, TableOf;
    var l, r := TableOf(R, lam)(Pi(lane)), (Rho(lane) + d) % 64;
    var f, h := CorrelationTerm(R, zp, zq, r), ZTerm(R, zp, Pull(Factored(R, zq, lam)), lane, d);
    forall z
      ensures h(z) == R.mul(l, f(z))
    {
      ModShift(z, d, Rho(lane));
      var e, w := Eq(R, zp, z), Eq(R, zq, (z + r) % 64);
      R.MulComm(w, l);
      R.MulLeft(e, l, w);
    }
    SumScale(R, 64, l, f, h);
  }

  /** The full sum of the kernel against g itself. */
  lemma DotPlain(R: Ring, zq: seq<Elem>, lam: seq<Elem>, local: seq<Elem>, h: int -> Elem)
    requires R.Laws() && |zq| == Z_BITS && |local| == LOCAL_BITS
    requires forall lane :: 0 <= lane < 25 ==>
      h(lane) == R.mul(LaneWeight(R, local)(lane), Shifted(R, local[..Z_BITS], zq, lam, 0)(lane))
    ensures Dot(R, Kernel(R, local), Pull(Factored(R, zq, lam))) == Sum(R, 25, h)
  {
    hide Sum, Shifted, Kernel, Pull, LaneWeight;
    var g := Pull(Factored(R, zq, lam));
    forall lane | 0 <= lane < 25
      ensures LaneSum(R, Kernel(R, local), g)(lane) == h(lane)
    {
      PlainLane(R, zq, lam, local, lane);
    }
    SumEq(R, 25, LaneSum(R, Kernel(R, local), g), h);
  }

  lemma PlainLane(R: Ring, zq: seq<Elem>, lam: seq<Elem>, local: seq<Elem>, lane: int)
    requires R.Laws() && |zq| == Z_BITS && |local| == LOCAL_BITS && 0 <= lane < 25
    ensures LaneSum(R, Kernel(R, local), Pull(Factored(R, zq, lam)))(lane)
         == R.mul(LaneWeight(R, local)(lane), Shifted(R, local[..Z_BITS], zq, lam, 0)(lane))
  {
    hide Sum, Shifted, Kernel, Pull, LaneWeight, Eq;
    var zp, l := local[..Z_BITS], LaneWeight(R, local)(lane);
    var g := Pull(Factored(R, zq, lam));
    var f, t := ZTerm(R, zp, g, lane, 0), LaneTerm(R, Kernel(R, local), g, lane);
    LaneCorrelation(R, zp, zq, lam, lane, 0);
    forall z | 0 <= z < 64
      ensures t(z) == R.mul(l, f(z))
    {
      KernelSplits(R, local, lane, z);
      R.MulComm(Eq(R, zp, z), l);
      R.MulAssoc(l, Eq(R, zp, z), g(lane, z));
    }
    SumScale(R, 64, l, f, t);
  }

  /** A column of the kernel: the z weight times the column's lane weights. */
  lemma KernelColumn(R: Ring, local: seq<Elem>, x: int, z: int)
    requires R.Laws() && |local| == LOCAL_BITS && 0 <= z < 64
    ensures Col(R, Kernel(R, local), x, z) == R.mul(Eq(R, local[..Z_BITS], z), OverColumn(R, LaneWeight(R, local), x))
  {
    hide Sum, Kernel, LaneWeight, Eq;
    var f, h := Strand(LaneWeight(R, local), x), y => Kernel(R, local)(x + 5 * y, z);
    forall y
      ensures h(y) == R.mul(Eq(R, local[..Z_BITS], z), f(y))
    {
      KernelSplits(R, local, x + 5 * y, z);
    }
    SumScale(R, 5, Eq(R, local[..Z_BITS], z), f, h);
    SumEq(R, 5, h, y => Kernel(R, local)(x + 5 * y, z));
  }

  /** Over one column u of g, d positions on: the shifted correlations of its lanes. */
  lemma ColumnCorrelation(R: Ring, zp: seq<Elem>, zq: seq<Elem>, lam: seq<Elem>, u: int, d: int, v: int -> Elem)
    requires R.Laws() && |zp| == |zq| == Z_BITS
    requires forall z :: 0 <= z < 64 ==> v(z) == R.mul(Eq(R, zp, z), Col(R, Pull(Factored(R, zq, lam)), u, (z + d) % 64))
    ensures Sum(R, 64, v) == OverColumn(R, Shifted(R, zp, zq, lam, d), u)
  {
    hide Sum, Shifted, Pull, Eq;
    var g := Pull(Factored(R, zq, lam));
    var t := (y: int, z: int) => ZTerm(R, zp, g, u + 5 * y, d)(z);
    var rows := Strand(Shifted(R, zp, zq, lam, d), u);
    forall y | 0 <= y < 5
      ensures rows(y) == Sum(R, 64, Row(t, y))
    {
      LaneCorrelation(R, zp, zq, lam, u + 5 * y, d);
      SumEq(R, 64, ZTerm(R, zp, g, u + 5 * y, d), Row(t, y));
    }
    forall z | 0 <= z < 64
      ensures v(z) == Sum(R, 5, Column(t, z))
    {
      var f := y => g(u + 5 * y, (z + d) % 64);
      forall y
        ensures Column(t, z)(y) == R.mul(Eq(R, zp, z), f(y))
      {
      }
      SumScale(R, 5, Eq(R, zp, z), f, Column(t, z));
      SumEq(R, 5, f, y => g(u + 5 * y, (z + d) % 64));
    }
    SumExchange(R, 5, 64, t, rows, v);
  }

  /** The full sum of the kernel against g's spread columns. */
  lemma DotSpread(R: Ring, zq: seq<Elem>, lam: seq<Elem>, local: seq<Elem>, s: int, d: int, h: int -> Elem)
    requires R.Laws() && |zq| == Z_BITS && |local| == LOCAL_BITS
    requires forall x :: 0 <= x < 5 ==>
      h(x) == R.mul(OverColumn(R, LaneWeight(R, local), x), OverColumn(R, Shifted(R, local[..Z_BITS], zq, lam, d), (x + s) % 5))
    ensures Dot(R, Kernel(R, local), Spread(R, Pull(Factored(R, zq, lam)), s, d)) == Sum(R, 5, h)
  {
    hide Sum, Shifted, Kernel, Pull, LaneWeight, Dot, Spread, OverColumn, ColumnSum;
    var e, g := Kernel(R, local), Pull(Factored(R, zq, lam));
    SpreadIsPaired(R, e, g, s, d);
    forall x | 0 <= x < 5
      ensures ColumnSum(R, e, g, s, d)(x) == h(x)
    {
      SpreadColumn(R, zq, lam, local, s, d, x);
    }
    SumEq(R, 5, ColumnSum(R, e, g, s, d), h);
  }

  lemma SpreadColumn(R: Ring, zq: seq<Elem>, lam: seq<Elem>, local: seq<Elem>, s: int, d: int, x: int)
    requires R.Laws() && |zq| == Z_BITS && |local| == LOCAL_BITS && 0 <= x < 5
    ensures ColumnSum(R, Kernel(R, local), Pull(Factored(R, zq, lam)), s, d)(x)
         == R.mul(OverColumn(R, LaneWeight(R, local), x), OverColumn(R, Shifted(R, local[..Z_BITS], zq, lam, d), (x + s) % 5))
  {
    hide Sum, Shifted, Kernel, Pull, LaneWeight, OverColumn, Eq, Col;
    var e, g, zp := Kernel(R, local), Pull(Factored(R, zq, lam)), local[..Z_BITS];
    var l, u := OverColumn(R, LaneWeight(R, local), x), (x + s) % 5;
    var t := Columns(R, e, g, s, d, x);
    var v := z => R.mul(Eq(R, zp, z), Col(R, g, u, (z + d) % 64));
    ColumnCorrelation(R, zp, zq, lam, u, d, v);
    forall z | 0 <= z < 64
      ensures t(z) == R.mul(l, v(z))
    {
      KernelColumn(R, local, x, z);
      R.MulComm(Eq(R, zp, z), l);
      R.MulAssoc(l, Eq(R, zp, z), Col(R, g, u, (z + d) % 64));
    }
    SumScale(R, 64, l, v, t);
  }

  lemma WrapColumn(R: Ring, zp: seq<Elem>, zq: seq<Elem>, lam: seq<Elem>, u: int)
    ensures OverColumn(R, Shifted(R, zp, zq, lam, 64), u) == OverColumn(R, Shifted(R, zp, zq, lam, 0), u)
  {
    hide Sum, Correlation, Pi;
    forall y
      ensures Strand(Shifted(R, zp, zq, lam, 64), u)(y) == Strand(Shifted(R, zp, zq, lam, 0), u)(y)
    {
      var r := Rho(u + 5 * y);
      ModAdd(64, r);
      assert (r + 64) % 64 == (r + 0) % 64;
    }
    SumEq(R, 5, Strand(Shifted(R, zp, zq, lam, 64), u), Strand(Shifted(R, zp, zq, lam, 0), u));
  }

  /** What `dot_eq_layer` adds up in its last loop. */
  function ColumnPart(R: Ring, zq: seq<Elem>, lam: seq<Elem>, local: seq<Elem>): int -> Elem
    requires |local| == LOCAL_BITS
  {
    var zp := local[..Z_BITS];
    x => R.mul(OverColumn(R, LaneWeight(R, local), x),
               R.add(OverColumn(R, Shifted(R, zp, zq, lam, 0), (x + 1) % 5), OverColumn(R, Shifted(R, zp, zq, lam, 1), (x + 4) % 5)))
  }

  function LanePart(R: Ring, zq: seq<Elem>, lam: seq<Elem>, local: seq<Elem>): int -> Elem
    requires |local| == LOCAL_BITS
  {
    lane => R.mul(LaneWeight(R, local)(lane), Shifted(R, local[..Z_BITS], zq, lam, 0)(lane))
  }

  /** One of the two products `ColumnPart` adds up. */
  function ColumnHalf(R: Ring, zq: seq<Elem>, lam: seq<Elem>, local: seq<Elem>, s: int, d: int): int -> Elem
    requires |local| == LOCAL_BITS
  {
    x => R.mul(OverColumn(R, LaneWeight(R, local), x), OverColumn(R, Shifted(R, local[..Z_BITS], zq, lam, d), (x + s) % 5))
  }

  lemma ColumnHalves(R: Ring, zq: seq<Elem>, lam: seq<Elem>, local: seq<Elem>)
    requires R.Laws() && |local| == LOCAL_BITS
    ensures Sum(R, 5, ColumnPart(R, zq, lam, local))
         == R.add(Sum(R, 5, ColumnHalf(R, zq, lam, local, 1, 64)), Sum(R, 5, ColumnHalf(R, zq, lam, local, 4, 1)))
  {
    hide Sum, Shifted, LaneWeight, OverColumn;
    var zp := local[..Z_BITS];
    forall x
      ensures ColumnPart(R, zq, lam, local)(x)
           == R.add(ColumnHalf(R, zq, lam, local, 1, 64)(x), ColumnHalf(R, zq, lam, local, 4, 1)(x))
    {
      WrapColumn(R, zp, zq, lam, (x + 1) % 5);
      R.Dist(OverColumn(R, LaneWeight(R, local), x), OverColumn(R, Shifted(R, zp, zq, lam, 0), (x + 1) % 5),
             OverColumn(R, Shifted(R, zp, zq, lam, 1), (x + 4) % 5));
    }
    SumAdd(R, 5, ColumnHalf(R, zq, lam, local, 1, 64), ColumnHalf(R, zq, lam, local, 4, 1), ColumnPart(R, zq, lam, local));
  }

  /** The short form is the full sum over the 1600 transposed weights. */
  lemma LayerDot(R: Ring, zq: seq<Elem>, lam: seq<Elem>, local: seq<Elem>)
    requires R.Laws() && |zq| == Z_BITS && |local| == LOCAL_BITS
    ensures R.add(Sum(R, 25, LanePart(R, zq, lam, local)), Sum(R, 5, ColumnPart(R, zq, lam, local)))
         == Dot(R, Kernel(R, local), Transpose(R, Factored(R, zq, lam)))
  {
    hide Sum, Shifted, Kernel, Pull, LaneWeight, Dot, Spread, OverColumn, ThetaTranspose, Factored, ColumnPart;
    DotThetaTranspose(R, Kernel(R, local), Pull(Factored(R, zq, lam)));
    DotPlain(R, zq, lam, local, LanePart(R, zq, lam, local));
    DotSpread(R, zq, lam, local, 1, 64, ColumnHalf(R, zq, lam, local, 1, 64));
    DotSpread(R, zq, lam, local, 4, 1, ColumnHalf(R, zq, lam, local, 4, 1));
    ColumnHalves(R, zq, lam, local);
  }
}
