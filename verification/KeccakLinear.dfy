/** Keccak's linear layer (theta, rho, pi; section 3.2 of FIPS 202) on states with entries in the
    field, and the transpose of it the verifier's layer weights are built from (keccak.rs). */
module KeccakLinear {
  import opened Rings
  import opened Sums
  import opened Multilinear

  /** An entry per lane (x + 5y) and bit position. */
  type Table = (int, int) -> Elem

  const RHO: seq<nat> := [0, 1, 62, 28, 27, 36, 44, 6, 55, 20, 3, 10, 43, 25, 39, 41, 45, 15, 21, 8, 18, 2, 61, 56, 14]

  function Rho(lane: int): nat {
    if 0 <= lane < 25 then RHO[lane] else 0
  }

  /** Where lane x + 5y lands, and which lane lands there. */
  function Pi(lane: int): int {
    lane / 5 + 5 * ((2 * (lane % 5) + 3 * (lane / 5)) % 5)
  }

  function PiInverse(lane: int): int {
    (lane % 5 + 3 * (lane / 5)) % 5 + 5 * (lane % 5)
  }

  lemma PiForth(x: int, y: int)
    requires 0 <= x < 5 && 0 <= y < 5
    ensures 0 <= Pi(x + 5 * y) < 25 && PiInverse(Pi(x + 5 * y)) == x + 5 * y
  {
    DivUnique(x + 5 * y, 5, y, x);
    var u, k := (2 * x + 3 * y) % 5, (2 * x + 3 * y) / 5;
    DivUnique(y + 5 * u, 5, u, y);
    DivUnique(y + 3 * u, 5, x + 2 * y - 3 * k, x);
    assert Pi(x + 5 * y) == y + 5 * u;
  }

  lemma PiBack(x: int, y: int)
    requires 0 <= x < 5 && 0 <= y < 5
    ensures 0 <= PiInverse(x + 5 * y) < 25 && Pi(PiInverse(x + 5 * y)) == x + 5 * y
  {
    DivUnique(x + 5 * y, 5, y, x);
    var v, l := (x + 3 * y) % 5, (x + 3 * y) / 5;
    DivUnique(v + 5 * x, 5, x, v);
    DivUnique(2 * v + 3 * x, 5, x + y - 2 * l, y);
    assert PiInverse(x + 5 * y) == v + 5 * x;
  }

  lemma PiBijective(lane: int)
    requires 0 <= lane < 25
    ensures 0 <= Pi(lane) < 25 && PiInverse(Pi(lane)) == lane
    ensures 0 <= PiInverse(lane) < 25 && Pi(PiInverse(lane)) == lane
  {
    hide Pi, PiInverse;
    assert lane == lane % 5 + 5 * (lane / 5);
    PiForth(lane % 5, lane / 5);
    PiBack(lane % 5, lane / 5);
  }

  /** Rotation by d places among m, and back. */
  function Turn(d: int, m: int): int -> int
    requires m > 0
  {
    z => (z + d) % m
  }

  lemma TurnBack(d: int, m: int, z: int)
    requires 0 <= d < m && 0 <= z < m
    ensures 0 <= Turn(d, m)(z) < m && Turn(m - d, m)(Turn(d, m)(z)) == z
    ensures 0 <= Turn(m - d, m)(z) < m && Turn(d, m)(Turn(m - d, m)(z)) == z
  {
    if z + d < m {
      DivUnique(z + d, m, 0, z + d);
      DivUnique(z + m, m, 1, z);
    } else {
      DivUnique(z + d, m, 1, z + d - m);
      DivUnique(z, m, 0, z);
    }
    if d <= z {
      DivUnique(z + m - d, m, 1, z - d);
      DivUnique(z, m, 0, z);
    } else {
      DivUnique(z + m - d, m, 0, z + m - d);
      DivUnique(z + m, m, 1, z);
    }
  }

  /** Summing over all positions, turned. */
  lemma SumTurn(R: Ring, m: nat, d: int, f: int -> Elem, h: int -> Elem)
    requires R.Laws() && 0 <= d < m && forall z :: 0 <= z < m ==> h(z) == f(Turn(d, m)(z))
    ensures Sum(R, m, h) == Sum(R, m, f)
  {
    var p, q := Turn(d, m), Turn(m - d, m);
    forall z | 0 <= z < m
      ensures 0 <= p(z) && p(z) < m && q(p(z)) == z
      ensures 0 <= q(z) && q(z) < m && p(q(z)) == z
    {
      TurnBack(d, m, z);
    }
    hide Turn, Sum;
    SumReindex(R, m, p, q, f, h);
  }

  lemma RhoBound(lane: int)
    ensures 0 <= Rho(lane) < 64
  {
  }

  // ---- the layer -------------------------------------------------------------------------------

  /** The sum of a column: entries x, x + 5, .., x + 20 at position z. */
  function Col(R: Ring, a: Table, x: int, z: int): Elem {
    Sum(R, 5, y => a(x + 5 * y, z))
  }

  function Theta(R: Ring, a: Table): Table {
    (lane, z) => R.add(a(lane, z), R.add(Col(R, a, (lane % 5 + 4) % 5, z), Col(R, a, (lane % 5 + 1) % 5, (z + 63) % 64)))
  }

  /** Each lane rotated left by its offset and moved to its new place. */
  function RhoPi(a: Table): Table {
    (lane, z) => a(PiInverse(lane), (z + 64 - Rho(PiInverse(lane))) % 64)
  }

  function Layer(R: Ring, a: Table): Table {
    RhoPi(Theta(R, a))
  }

  // ---- its transpose ---------------------------------------------------------------------------

  /** g[lane][z] = w[pi(lane)][z + rho(lane)]. */
  function Pull(w: Table): Table {
    (lane, z) => w(Pi(lane), (z + Rho(lane)) % 64)
  }

  /** g[lane][z] + C[x + 1][z] + C[x + 4][z + 1], C the column sums of g. */
  function ThetaTranspose(R: Ring, g: Table): Table {
    (lane, z) => R.add(g(lane, z), R.add(Col(R, g, (lane % 5 + 1) % 5, z), Col(R, g, (lane % 5 + 4) % 5, (z + 1) % 64)))
  }

  function Transpose(R: Ring, w: Table): Table {
    ThetaTranspose(R, Pull(w))
  }

  function LaneTerm(R: Ring, w: Table, a: Table, lane: int): int -> Elem {
    z => R.mul(w(lane, z), a(lane, z))
  }

  function LaneSum(R: Ring, w: Table, a: Table): int -> Elem {
    lane => Sum(R, 64, LaneTerm(R, w, a, lane))
  }

  /** The 1600 entries of a against the 1600 weights w. */
  function Dot(R: Ring, w: Table, a: Table): Elem {
    Sum(R, 25, LaneSum(R, w, a))
  }

  lemma DotEq(R: Ring, w: Table, a: Table, v: Table, b: Table)
    requires forall lane, z :: 0 <= lane < 25 && 0 <= z < 64 ==> R.mul(w(lane, z), a(lane, z)) == R.mul(v(lane, z), b(lane, z))
    ensures Dot(R, w, a) == Dot(R, v, b)
  {
    forall lane | 0 <= lane < 25
      ensures LaneSum(R, w, a)(lane) == LaneSum(R, v, b)(lane)
    {
      SumEq(R, 64, LaneTerm(R, w, a, lane), LaneTerm(R, v, b, lane));
    }
    SumEq(R, 25, LaneSum(R, w, a), LaneSum(R, v, b));
  }

  lemma DotAdd(R: Ring, w: Table, a: Table, b: Table, c: Table)
    requires R.Laws()
    requires forall lane, z :: 0 <= lane < 25 && 0 <= z < 64 ==> c(lane, z) == R.add(a(lane, z), b(lane, z))
    ensures Dot(R, w, c) == R.add(Dot(R, w, a), Dot(R, w, b))
  {
    forall lane | 0 <= lane < 25
      ensures LaneSum(R, w, c)(lane) == R.add(LaneSum(R, w, a)(lane), LaneSum(R, w, b)(lane))
    {
      forall z | 0 <= z < 64
        ensures LaneTerm(R, w, c, lane)(z) == R.add(LaneTerm(R, w, a, lane)(z), LaneTerm(R, w, b, lane)(z))
      {
        R.Dist(w(lane, z), a(lane, z), b(lane, z));
      }
      SumAdd(R, 64, LaneTerm(R, w, a, lane), LaneTerm(R, w, b, lane), LaneTerm(R, w, c, lane));
    }
    SumAdd(R, 25, LaneSum(R, w, a), LaneSum(R, w, b), LaneSum(R, w, c));
  }

  lemma DotComm(R: Ring, w: Table, a: Table)
    requires R.Laws()
    ensures Dot(R, w, a) == Dot(R, a, w)
  {
    forall lane, z | 0 <= lane < 25 && 0 <= z < 64
      ensures R.mul(w(lane, z), a(lane, z)) == R.mul(a(lane, z), w(lane, z))
    {
      R.MulComm(w(lane, z), a(lane, z));
    }
    DotEq(R, w, a, a, w);
  }

  // ---- rho and pi ------------------------------------------------------------------------------

  /** One lane's sum, read at its new place and rotated back. */
  lemma PulledLane(R: Ring, w: Table, a: Table, lane: int)
    requires R.Laws() && 0 <= lane < 25
    ensures LaneSum(R, w, RhoPi(a))(Pi(lane)) == LaneSum(R, Pull(w), a)(lane)
  {
    hide Sum, Pi, PiInverse, Rho;
    var r := Rho(lane);
    RhoBound(lane);
    PiBijective(lane);
    var f := LaneTerm(R, w, RhoPi(a), Pi(lane));
    var h := LaneTerm(R, Pull(w), a, lane);
    forall z | 0 <= z < 64
      ensures h(z) == f(Turn(r, 64)(z))
    {
      TurnBack(r, 64, z);
      var v := (z + r) % 64;
      assert (v + (64 - r)) % 64 == Turn(64 - r, 64)(Turn(r, 64)(z)) == z;
      assert v + 64 - r == v + (64 - r);
    }
    SumTurn(R, 64, r, f, h);
  }

  lemma RhoPiTranspose(R: Ring, w: Table, a: Table)
    requires R.Laws()
    ensures Dot(R, w, RhoPi(a)) == Dot(R, Pull(w), a)
  {
    forall lane | 0 <= lane < 25
      ensures 0 <= Pi(lane) < 25 && PiInverse(Pi(lane)) == lane && 0 <= PiInverse(lane) < 25 && Pi(PiInverse(lane)) == lane
      ensures LaneSum(R, Pull(w), a)(lane) == LaneSum(R, w, RhoPi(a))(Pi(lane))
    {
      PiBijective(lane);
      PulledLane(R, w, a, lane);
    }
    SumReindex(R, 25, lane => Pi(lane), lane => PiInverse(lane), LaneSum(R, w, RhoPi(a)), LaneSum(R, Pull(w), a));
  }

  // ---- theta -----------------------------------------------------------------------------------

  /** The column sums of a, s columns along and d positions on, at every entry of the column. */
  function Spread(R: Ring, a: Table, s: int, d: int): Table {
    (lane, z) => Col(R, a, (lane % 5 + s) % 5, (z + d) % 64)
  }

  function Columns(R: Ring, g: Table, a: Table, s: int, d: int, x: int): int -> Elem {
    z => R.mul(Col(R, g, x, z), Col(R, a, (x + s) % 5, (z + d) % 64))
  }

  function ColumnSum(R: Ring, g: Table, a: Table, s: int, d: int): int -> Elem {
    x => Sum(R, 64, Columns(R, g, a, s, d, x))
  }

  /** g's column sums against a's, s columns along and d positions on. */
  function Paired(R: Ring, g: Table, a: Table, s: int, d: int): Elem {
    Sum(R, 5, ColumnSum(R, g, a, s, d))
  }

  /** A sum over the lanes, column by column. */
  lemma LanesByColumn(R: Ring, f: int -> Elem, h: int -> Elem)
    requires R.Laws() && forall x :: 0 <= x < 5 ==> h(x) == Sum(R, 5, y => f(x + 5 * y))
    ensures Sum(R, 25, f) == Sum(R, 5, h)
  {
    var t := (y: int, x: int) => f(5 * y + x);
    SumBlocks(R, 5, 5, f);
    forall y | 0 <= y < 5
      ensures Block(R, 5, f)(y) == Sum(R, 5, Row(t, y))
    {
      SumEq(R, 5, i => f(5 * y + i), Row(t, y));
    }
    forall x | 0 <= x < 5
      ensures h(x) == Sum(R, 5, Column(t, x))
    {
      SumEq(R, 5, y => f(x + 5 * y), Column(t, x));
    }
    SumExchange(R, 5, 5, t, Block(R, 5, f), h);
  }

  /** Within column x, the sum over the rows of g times a spread column. */
  lemma ColumnOfSpread(R: Ring, g: Table, a: Table, s: int, d: int, x: int)
    requires R.Laws() && 0 <= x < 5
    ensures Sum(R, 5, y => LaneSum(R, g, Spread(R, a, s, d))(x + 5 * y)) == ColumnSum(R, g, a, s, d)(x)
  {
    hide Sum;
    var sp := Spread(R, a, s, d);
    var t := (y: int, z: int) => R.mul(g(x + 5 * y, z), sp(x + 5 * y, z));
    var rows := y => LaneSum(R, g, sp)(x + 5 * y);
    var cols := Columns(R, g, a, s, d, x);
    forall y | 0 <= y < 5
      ensures rows(y) == Sum(R, 64, Row(t, y))
    {
      SumEq(R, 64, LaneTerm(R, g, sp, x + 5 * y), Row(t, y));
    }
    forall z | 0 <= z < 64
      ensures cols(z) == Sum(R, 5, Column(t, z))
    {
      ColumnEntry(R, g, a, s, d, x, z, Column(t, z));
    }
    SumExchange(R, 5, 64, t, rows, cols);
    SumEq(R, 5, rows, y => LaneSum(R, g, Spread(R, a, s, d))(x + 5 * y));
  }

  lemma ColumnEntry(R: Ring, g: Table, a: Table, s: int, d: int, x: int, z: int, h: int -> Elem)
    requires R.Laws() && 0 <= x < 5
    requires forall y :: 0 <= y < 5 ==> h(y) == R.mul(g(x + 5 * y, z), Spread(R, a, s, d)(x + 5 * y, z))
    ensures Columns(R, g, a, s, d, x)(z) == Sum(R, 5, h)
  {
    hide Sum;
    var c := Col(R, a, (x + s) % 5, (z + d) % 64);
    var f := y => g(x + 5 * y, z);
    forall y | 0 <= y < 5
      ensures h(y) == R.mul(c, f(y))
    {
      assert (x + 5 * y) % 5 == x;
      R.MulComm(c, f(y));
    }
    SumScale(R, 5, c, f, h);
    SumEq(R, 5, f, y => g(x + 5 * y, z));
    R.MulComm(c, Col(R, g, x, z));
  }

  lemma SpreadIsPaired(R: Ring, g: Table, a: Table, s: int, d: int)
    requires R.Laws()
    ensures Dot(R, g, Spread(R, a, s, d)) == Paired(R, g, a, s, d)
  {
    hide Sum;
    forall x | 0 <= x < 5
      ensures ColumnSum(R, g, a, s, d)(x) == Sum(R, 5, y => LaneSum(R, g, Spread(R, a, s, d))(x + 5 * y))
    {
      ColumnOfSpread(R, g, a, s, d, x);
    }
    LanesByColumn(R, LaneSum(R, g, Spread(R, a, s, d)), ColumnSum(R, g, a, s, d));
  }

  /** Columns paired forwards in one table are paired backwards in the other. */
  lemma PairedBack(R: Ring, g: Table, a: Table, s: int, d: int)
    requires R.Laws() && 0 <= s < 5 && 0 <= d < 64
    ensures Paired(R, g, a, s, d) == Paired(R, a, g, 5 - s, 64 - d)
  {
    hide Sum;
    var f, h := ColumnSum(R, a, g, 5 - s, 64 - d), ColumnSum(R, g, a, s, d);
    forall x | 0 <= x < 5
      ensures h(x) == f(Turn(s, 5)(x))
    {
      PairedColumn(R, g, a, s, d, x);
    }
    SumTurn(R, 5, s, f, h);
  }

  lemma PairedColumn(R: Ring, g: Table, a: Table, s: int, d: int, x: int)
    requires R.Laws() && 0 <= s < 5 && 0 <= d < 64 && 0 <= x < 5
    ensures ColumnSum(R, g, a, s, d)(x) == ColumnSum(R, a, g, 5 - s, 64 - d)(Turn(s, 5)(x))
  {
    hide Sum, Col, Columns, Turn;
    var u := Turn(s, 5)(x);
    var fz, hz := Columns(R, a, g, 5 - s, 64 - d, u), Columns(R, g, a, s, d, x);
    forall z | 0 <= z < 64
      ensures hz(z) == fz(Turn(d, 64)(z))
    {
      PairedEntry(R, g, a, s, d, x, z);
    }
    SumTurn(R, 64, d, fz, hz);
  }

  lemma PairedEntry(R: Ring, g: Table, a: Table, s: int, d: int, x: int, z: int)
    requires R.Laws() && 0 <= s < 5 && 0 <= d < 64 && 0 <= x < 5 && 0 <= z < 64
    ensures Columns(R, g, a, s, d, x)(z) == Columns(R, a, g, 5 - s, 64 - d, Turn(s, 5)(x))(Turn(d, 64)(z))
  {
    hide Col, Turn;
    TurnBack(s, 5, x);
    TurnBack(d, 64, z);
    TurnIs(s, 5, x);
    TurnIs(d, 64, z);
    TurnIs(5 - s, 5, Turn(s, 5)(x));
    TurnIs(64 - d, 64, Turn(d, 64)(z));
    R.MulComm(Col(R, g, x, z), Col(R, a, (x + s) % 5, (z + d) % 64));
  }

  lemma TurnIs(d: int, m: int, z: int)
    requires m > 0
    ensures Turn(d, m)(z) == (z + d) % m
  {
  }

  lemma SpreadTranspose(R: Ring, g: Table, a: Table, s: int, d: int)
    requires R.Laws() && 0 <= s < 5 && 0 <= d < 64
    ensures Dot(R, g, Spread(R, a, s, d)) == Dot(R, Spread(R, g, 5 - s, 64 - d), a)
  {
    hide Dot, Paired;
    SpreadIsPaired(R, g, a, s, d);
    PairedBack(R, g, a, s, d);
    SpreadIsPaired(R, a, g, 5 - s, 64 - d);
    DotComm(R, a, Spread(R, g, 5 - s, 64 - d));
  }

  lemma ThetaTransposes(R: Ring, g: Table, a: Table)
    requires R.Laws()
    ensures Dot(R, g, Theta(R, a)) == Dot(R, ThetaTranspose(R, g), a)
  {
    hide Dot, Spread, Theta, ThetaTranspose;
    DotTheta(R, g, a);
    SpreadTranspose(R, g, a, 4, 0);
    SpreadTranspose(R, g, a, 1, 63);
    DotThetaTranspose(R, a, g);
    DotComm(R, Spread(R, g, 1, 64), a);
    DotComm(R, Spread(R, g, 4, 1), a);
    DotComm(R, g, a);
    DotComm(R, ThetaTranspose(R, g), a);
  }

  function PlusTables(R: Ring, a: Table, b: Table): Table {
    (lane, z) => R.add(a(lane, z), b(lane, z))
  }

  lemma DotPlus(R: Ring, w: Table, a: Table, b: Table)
    requires R.Laws()
    ensures Dot(R, w, PlusTables(R, a, b)) == R.add(Dot(R, w, a), Dot(R, w, b))
  {
    hide Dot;
    DotAdd(R, w, a, b, PlusTables(R, a, b));
  }

  lemma DotSame(R: Ring, w: Table, a: Table, b: Table)
    requires forall lane, z :: 0 <= lane < 25 && 0 <= z < 64 ==> a(lane, z) == b(lane, z)
    ensures Dot(R, w, a) == Dot(R, w, b)
  {
    hide Dot;
    DotEq(R, w, a, w, b);
  }

  lemma DotTheta(R: Ring, w: Table, a: Table)
    requires R.Laws()
    ensures Dot(R, w, Theta(R, a)) == R.add(Dot(R, w, a), R.add(Dot(R, w, Spread(R, a, 4, 0)), Dot(R, w, Spread(R, a, 1, 63))))
  {
    hide Dot, Col;
    var b := PlusTables(R, Spread(R, a, 4, 0), Spread(R, a, 1, 63));
    DotSame(R, w, Theta(R, a), PlusTables(R, a, b));
    DotPlus(R, w, a, b);
    DotPlus(R, w, Spread(R, a, 4, 0), Spread(R, a, 1, 63));
  }

  lemma DotThetaTranspose(R: Ring, w: Table, g: Table)
    requires R.Laws()
    ensures Dot(R, w, ThetaTranspose(R, g))
         == R.add(Dot(R, w, g), R.add(Dot(R, w, Spread(R, g, 1, 64)), Dot(R, w, Spread(R, g, 4, 1))))
  {
    hide Dot, Col;
    var b := PlusTables(R, Spread(R, g, 1, 64), Spread(R, g, 4, 1));
    DotSame(R, w, ThetaTranspose(R, g), PlusTables(R, g, b));
    DotPlus(R, w, g, b);
    DotPlus(R, w, Spread(R, g, 1, 64), Spread(R, g, 4, 1));
  }

  /** The layer weights are the transpose of the layer: for all weights and all states,
      <w, L(a)> = <L^T w, a>. */
  lemma LayerTransposes(R: Ring, w: Table, a: Table)
    requires R.Laws()
    ensures Dot(R, w, Layer(R, a)) == Dot(R, Transpose(R, w), a)
  {
    hide Dot;
    RhoPiTranspose(R, w, Theta(R, a));
    ThetaTransposes(R, Pull(w), a);
  }
}
