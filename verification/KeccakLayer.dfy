/** The theta, rho and pi that Keccak's rounds compute on bits (keccak.c, hash.rs) are the linear
    layer whose transpose gives the verifier's weights. */
module KeccakLayer {
  import opened Rings
  import opened Sums
  import opened KeccakLinear
  import opened Interleave
  import opened KeccakRounds

  function BitElem(R: Ring, b: bool): Elem {
    if b then R.one else R.zero
  }

  /** A state's bits as field elements. */
  function Bits(R: Ring, a: Lanes): Table {
    (lane, z) => if 0 <= lane < 25 && 0 <= z < 64 then BitElem(R, a[lane][z]) else R.zero
  }

  /** The state after theta, rho and pi. */
  function LinearPart(a: Lanes): (r: Lanes)
    ensures forall x, y :: 0 <= x < 5 && 0 <= y < 5 ==> r[x + 5 * y] == Moved(a, x, y)
  {
    var r := seq(25, i requires 0 <= i < 25 => Moved(a, i % 5, i / 5));
    assert forall x, y {:trigger Moved(a, x, y)} :: 0 <= x < 5 && 0 <= y < 5 ==> (x + 5 * y) % 5 == x && (x + 5 * y) / 5 == y;
    r
  }

  lemma XorIsAdd(R: Ring, b: bool, c: bool)
    requires R.Laws()
    ensures BitElem(R, b != c) == R.add(BitElem(R, b), BitElem(R, c))
  {
    hide Ring.Laws;
    R.AddZero(R.one);
    R.AddZero(R.zero);
    R.AddSelf(R.one);
  }

  /** A column's sum is its parity. */
  lemma RowsXorIsSum(R: Ring, a: Lanes, x: nat, z: nat)
    requires R.Laws() && x < 5 && z < 64
    ensures Col(R, Bits(R, a), x, z) == BitElem(R, RowsXor(a, x)[z])
  {
    hide Ring.Laws, XorBits;
    var t := y => Bits(R, a)(x + 5 * y, z);
    var b0, b1, b2, b3, b4 := a[x][z], a[x + 5][z], a[x + 10][z], a[x + 15][z], a[x + 20][z];
    SumFive(R, t);
    R.AddZero(t(0));
    XorIsAdd(R, b0, b1);
    XorIsAdd(R, b0 != b1, b2);
    XorIsAdd(R, (b0 != b1) != b2, b3);
    XorIsAdd(R, ((b0 != b1) != b2) != b3, b4);
    SumEq(R, 5, t, y => Bits(R, a)(x + 5 * y, z));
  }

  lemma SumFive(R: Ring, f: int -> Elem)
    ensures Sum(R, 5, f) == R.add(R.add(R.add(R.add(R.add(R.zero, f(0)), f(1)), f(2)), f(3)), f(4))
  {
    SumNext(R, 0, f);
    SumNext(R, 1, f);
    SumNext(R, 2, f);
    SumNext(R, 3, f);
    SumNext(R, 4, f);
    hide Sum;
  }

  lemma SumNext(R: Ring, n: nat, f: int -> Elem)
    ensures Sum(R, n + 1, f) == R.add(Sum(R, n, f), f(n)) && Sum(R, 0, f) == R.zero
  {
  }

  lemma ThetaIs(R: Ring, a: Lanes, i: nat, z: nat)
    requires R.Laws() && i < 25 && z < 64
    ensures Theta(R, Bits(R, a))(i, z) == BitElem(R, XorBits(a[i], Diffusion(a, i % 5))[z])
  {
    hide Ring.Laws, Col, RowsXor;
    var l, r := (i % 5 + 4) % 5, (i % 5 + 1) % 5;
    RowsXorIsSum(R, a, l, z);
    RowsXorIsSum(R, a, r, (z + 63) % 64);
    var c, d := RowsXor(a, l)[z], RowsXor(a, r)[(z + 63) % 64];
    assert Back(z, 1, 64) == (z + 63) % 64;
    XorIsAdd(R, c, d);
    XorIsAdd(R, a[i][z], c != d);
  }

  lemma SourceIsPiInverse(x: nat, y: nat)
    requires x < 5 && y < 5
    ensures SourceLane(x, y) == PiInverse(x + 5 * y)
  {
    assert (x + 5 * y) % 5 == x && (x + 5 * y) / 5 == y;
  }

  lemma LayerIs(R: Ring, a: Table, lane: int, z: int)
    ensures Layer(R, a)(lane, z) == Theta(R, a)(PiInverse(lane), (z + 64 - Rho(PiInverse(lane))) % 64)
  {
    hide Theta;
  }

  lemma MovedBit(a: Lanes, x: nat, y: nat, z: nat)
    requires x < 5 && y < 5 && z < 64
    ensures Rho(SourceLane(x, y)) < 64
    ensures Moved(a, x, y)[z]
         == XorBits(a[SourceLane(x, y)], Diffusion(a, SourceLane(x, y) % 5))[Back(z, Rho(SourceLane(x, y)), 64)]
  {
    hide Rho, Rotl, XorBits, Diffusion, SourceLane;
    RhoBound(SourceLane(x, y));
  }

  lemma BackMod(z: nat, n: nat)
    requires z < 64 && n < 64
    ensures Back(z, n, 64) == (z + 64 - n) % 64
  {
  }

  /** On bits, the layer is theta, rho and pi. */
  lemma MovedIsLayer(R: Ring, a: Lanes, x: nat, y: nat, z: nat)
    requires R.Laws() && x < 5 && y < 5 && z < 64
    ensures Layer(R, Bits(R, a))(x + 5 * y, z) == BitElem(R, Moved(a, x, y)[z])
  {
    hide *;
    var i := SourceLane(x, y);
    SourceIsPiInverse(x, y);
    LayerIs(R, Bits(R, a), x + 5 * y, z);
    MovedBit(a, x, y, z);
    BackMod(z, Rho(i));
    ThetaIs(R, a, i, (z + 64 - Rho(i)) % 64);
  }

  lemma LinearPartIsLayer(R: Ring, a: Lanes, lane: int, z: int)
    requires R.Laws() && 0 <= lane < 25 && 0 <= z < 64
    ensures Bits(R, LinearPart(a))(lane, z) == Layer(R, Bits(R, a))(lane, z)
  {
    hide Ring.Laws, Layer, Moved, LinearPart;
    MovedIsLayer(R, a, lane % 5, lane / 5, z);
    assert lane % 5 + 5 * (lane / 5) == lane;
    assert LinearPart(a)[lane % 5 + 5 * (lane / 5)] == Moved(a, lane % 5, lane / 5);
  }

  /** Weighing a state's bits after theta, rho and pi is weighing the state before them with the
      transposed weights. */
  lemma RoundTransposes(R: Ring, w: Table, a: Lanes)
    requires R.Laws()
    ensures Dot(R, w, Bits(R, LinearPart(a))) == Dot(R, Transpose(R, w), Bits(R, a))
  {
    hide Ring.Laws, Layer, Transpose, Dot, Bits, LinearPart;
    forall lane, z | 0 <= lane < 25 && 0 <= z < 64
      ensures R.mul(w(lane, z), Bits(R, LinearPart(a))(lane, z)) == R.mul(w(lane, z), Layer(R, Bits(R, a))(lane, z))
    {
      LinearPartIsLayer(R, a, lane, z);
    }
    DotEq(R, w, Bits(R, LinearPart(a)), w, Layer(R, Bits(R, a)));
    LayerTransposes(R, w, Bits(R, a));
  }
}
