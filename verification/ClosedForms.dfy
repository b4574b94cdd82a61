/** Tables the verifier never holds, by the closed forms of their extensions (transcript.rs): the
    powers of the generator, and the padding above a column's rows. */
module ClosedForms {
  import opened Rings
  import opened Sums
  import opened Multilinear
  import opened Bits

  // ---- the index column --------------------------------------------------------------------------

  function PowerOf(R: Ring, g: Elem, k: nat): Elem {
    if k == 0 then R.one else R.mul(PowerOf(R, g, k - 1), g)
  }

  /** 1, g, g^2, .. */
  function Powers(R: Ring, g: Elem): int -> Elem {
    k => if k >= 0 then PowerOf(R, g, k) else R.zero
  }

  lemma {:induction false} PowerSquare(R: Ring, g: Elem, k: nat)
    requires R.Laws()
    ensures PowerOf(R, g, 2 * k) == PowerOf(R, R.mul(g, g), k)
    ensures PowerOf(R, g, 2 * k + 1) == R.mul(PowerOf(R, R.mul(g, g), k), g)
  {
    if k > 0 {
      PowerSquare(R, g, k - 1);
      R.MulAssoc(PowerOf(R, g, 2 * k - 2), g, g);
      assert PowerOf(R, g, 2 * k) == R.mul(PowerOf(R, g, 2 * k - 1), g);
      assert PowerOf(R, g, 2 * k - 1) == R.mul(PowerOf(R, g, 2 * k - 2), g);
    }
  }

  /** Fixing the lowest coordinate of the powers of g leaves the powers of g^2, by one factor. */
  lemma PowersFold(R: Ring, g: Elem, r: Elem, k: nat)
    requires R.Laws()
    ensures Fold(R, Powers(R, g), r)(k) == R.mul(R.add(R.one, R.mul(r, R.add(R.one, g))), Powers(R, R.mul(g, g))(k))
  {
    hide PowerOf, Ring.Laws;
    var p := PowerOf(R, R.mul(g, g), k);
    PowerSquare(R, g, k);
    assert Powers(R, g)(2 * k) == p && Powers(R, g)(2 * k + 1) == R.mul(p, g);
    R.MulOne(p);
    R.Dist(p, R.one, g);
    R.MulLeft(r, p, R.add(R.one, g));
    R.Dist(p, R.one, R.mul(r, R.add(R.one, g)));
    R.MulComm(p, R.add(R.one, R.mul(r, R.add(R.one, g))));
  }

  /** index_mle: the extension of the powers of the generator. */
  method IndexMle(R: Ring, generator: Elem, point: seq<Elem>) returns (result: Elem)
    requires R.Laws()
    ensures result == Mle(R, Powers(R, generator), point)
  {
    hide Mle, Ring.Laws, PowerOf;
    result := R.one;
    var power := generator;
    ghost var whole := Mle(R, Powers(R, generator), point);
    assert point[0..] == point;
    R.MulOne(whole);
    for i := 0 to |point|
      invariant R.mul(result, Mle(R, Powers(R, power), point[i..])) == whole
    {
      var r, rest := point[i], point[i + 1..];
      var factor := R.add(R.one, R.mul(r, R.add(R.one, power)));
      assert point[i..][1..] == rest;
      MleFold(R, Powers(R, power), point[i..]);
      forall k | 0 <= k < Pow2(|rest|)
        ensures Fold(R, Powers(R, power), r)(k) == R.mul(factor, Powers(R, R.mul(power, power))(k))
      {
        PowersFold(R, power, r, k);
      }
      MleScale(R, factor, Powers(R, R.mul(power, power)), Fold(R, Powers(R, power), r), rest);
      R.MulAssoc(result, factor, Mle(R, Powers(R, R.mul(power, power)), rest));
      result := R.mul(result, factor);
      power := R.mul(power, power);
    }
    assert point[|point|..] == [];
    PowersEmpty(R, power);
    R.MulOne(result);
  }

  lemma PowersEmpty(R: Ring, g: Elem)
    requires R.Laws()
    ensures Mle(R, Powers(R, g), []) == R.one
  {
    MleEmpty(R, Powers(R, g));
  }

  // ---- the padding -------------------------------------------------------------------------------

  /** [z >= n]. */
  function From(R: Ring, n: int): int -> Elem {
    z => if z >= n then R.one else R.zero
  }

  /** One more coordinate on top, r: below, at or above n by the top bit, and by the rest when it
      agrees. */
  lemma FromStep(R: Ring, n: nat, k: nat, bit: nat, r: Elem, z: int)
    requires R.Laws() && n < Pow2(k) && bit < 2 && 0 <= z < Pow2(k)
    ensures Mle(R, Strided(From(R, n + Pow2(k) * bit), z, Pow2(k)), [r])
         == if bit == 0 then R.add(R.mul(R.add(R.one, r), From(R, n)(z)), r) else R.mul(r, From(R, n)(z))
  {
    hide Mle, Pow2, Ring.Laws;
    var w, t := Pow2(k), Strided(From(R, n + Pow2(k) * bit), z, Pow2(k));
    MleFold(R, t, [r]);
    MleEmpty(R, Fold(R, t, r));
    assert [r][1..] == [];
    assert t(0) == if bit == 0 then From(R, n)(z) else R.zero;
    assert t(1) == if bit == 0 then R.one else From(R, n)(z);
    R.LerpSplit(t(0), t(1), r);
    R.MulZero(R.add(R.one, r));
    R.MulOne(r);
    R.AddComm(R.one, r);
    R.AddZero(R.mul(r, From(R, n)(z)));
    R.AddZero(R.add(R.one, r));
  }

  /** The extension of the padding indicator over one more, topmost coordinate. */
  lemma FromAppend(R: Ring, n: nat, p: seq<Elem>, bit: nat, r: Elem)
    requires R.Laws() && n < Pow2(|p|) && bit < 2
    ensures Mle(R, From(R, n + Pow2(|p|) * bit), p + [r])
         == if bit == 0 then R.add(R.mul(R.add(R.one, r), Mle(R, From(R, n), p)), r) else R.mul(r, Mle(R, From(R, n), p))
  {
    hide Mle, Pow2, Ring.Laws;
    var f := From(R, n);
    var inner := InnerMle(R, From(R, n + Pow2(|p|) * bit), Pow2(|p|), [r]);
    MleConcat(R, From(R, n + Pow2(|p|) * bit), p, [r]);
    forall z | 0 <= z < Pow2(|p|)
      ensures inner(z) == if bit == 0 then R.add(R.mul(R.add(R.one, r), f(z)), r) else R.mul(r, f(z))
    {
      FromStep(R, n, |p|, bit, r, z);
    }
    if bit == 0 {
      var scaled, all := z => R.mul(R.add(R.one, r), f(z)), Constant(r);
      MleScale(R, R.add(R.one, r), f, scaled, p);
      MleConstant(R, r, p);
      MleAdd(R, scaled, all, inner, p);
    } else {
      MleScale(R, r, f, inner, p);
    }
  }

  function Constant(r: Elem): int -> Elem {
    z => r
  }

  lemma {:induction false} MleConstant(R: Ring, r: Elem, p: seq<Elem>)
    requires R.Laws()
    ensures Mle(R, Constant(r), p) == r
    decreases |p|
  {
    hide Mle, Ring.Laws;
    if p == [] {
      MleEmpty(R, Constant(r));
    } else {
      MleFold(R, Constant(r), p);
      LerpSame(R, r, p[0]);
      MleEq(R, Fold(R, Constant(r), p[0]), Constant(r), p[1..]);
      MleConstant(R, r, p[1..]);
    }
  }

  lemma LerpSame(R: Ring, r: Elem, x: Elem)
    requires R.Laws()
    ensures R.Lerp(r, r, x) == r
  {
    hide Ring.Laws;
    R.AddSelf(r);
    R.MulZero(x);
    R.AddZero(r);
  }

  function BitElem(R: Ring, n: nat, k: nat): Elem {
    if Bit(n, k) == 1 then R.one else R.zero
  }

  /** The loop's factor, by the bit of n. */
  lemma StepIs(R: Ring, b: Elem, r: Elem, low: Elem)
    requires R.Laws() && (b == R.zero || b == R.one)
    ensures R.add(R.mul(R.add(R.one, b), r), R.mul(R.add(R.add(R.one, b), r), low))
         == if b == R.zero then R.add(R.mul(R.add(R.one, r), low), r) else R.mul(r, low)
  {
    hide Ring.Laws;
    R.AddZero(R.one);
    R.MulOne(r);
    R.AddSelf(R.one);
    R.MulZero(r);
    R.AddZero(r);
    R.AddComm(r, R.mul(R.add(R.one, r), low));
    R.AddZero(R.mul(r, low));
  }

  lemma LowNext(n: nat, k: nat)
    ensures Low(n, k + 1) == Low(n, k) + Pow2(k) * Bit(n, k) && Low(n, k) < Pow2(k) && Bit(n, k) < 2 && Low(n, 0) == 0
  {
    LowBound(n, k);
    LowStep(n, k);
  }

  lemma {:induction false} LowStep(n: nat, k: nat)
    ensures Low(n, k + 1) == Low(n, k) + Pow2(k) * Bit(n, k) && Bit(n, k) < 2
  {
    if k > 0 {
      LowStep(n / 2, k - 1);
      var b := Bit(n, k);
      assert Pow2(k) * b == 2 * (Pow2(k - 1) * b);
    }
  }

  /** padding_weight: the extension of [z >= n], for every n up to 2^len. */
  method PaddingWeight(R: Ring, point: seq<Elem>, n: nat) returns (weight: Elem)
    requires R.Laws() && R.one != R.zero && n <= Pow2(|point|)
    ensures weight == Mle(R, From(R, n), point)
  {
    hide Mle, Pow2, Ring.Laws, Low, Bit;
    weight := R.one;
    FromEmpty(R);
    assert point[..0] == [];
    LowNext(n, 0);
    for k := 0 to |point|
      invariant weight == Mle(R, From(R, Low(n, k)), point[..k])
    {
      var r, b := point[k], BitElem(R, n, k);
      assert point[..k + 1] == point[..k] + [r];
      LowNext(n, k);
      StepIs(R, b, r, weight);
      FromAppend(R, Low(n, k), point[..k], Bit(n, k), r);
      weight := R.add(R.mul(R.add(R.one, b), r), R.mul(R.add(R.add(R.one, b), r), weight));
    }
    assert point[..|point|] == point;
    TopBit(n, |point|);
    R.AddSelf(R.one);
    R.AddZero(R.one);
    R.MulZero(weight);
    R.MulOne(weight);
    if n == Pow2(|point|) {
      MleNone(R, From(R, n), point);
    }
    weight := R.mul(R.add(R.one, BitElem(R, n, |point|)), weight);
  }

  lemma FromEmpty(R: Ring)
    requires R.Laws()
    ensures Mle(R, From(R, 0), []) == R.one
  {
    MleEmpty(R, From(R, 0));
  }

  /** At most 2^k: the bit at k tells 2^k itself. */
  lemma TopBit(n: nat, k: nat)
    requires n <= Pow2(k)
    ensures n == Pow2(k) ==> Bit(n, k) == 1
    ensures n < Pow2(k) ==> Bit(n, k) == 0 && Low(n, k) == n
  {
    if n == Pow2(k) {
      PowerBit(k);
    } else {
      LowSmall(n, k);
      SmallBit(n, k);
    }
  }

  lemma {:induction false} PowerBit(k: nat)
    ensures Bit(Pow2(k), k) == 1
  {
    if k > 0 {
      PowerBit(k - 1);
    }
  }

  lemma {:induction false} SmallBit(n: nat, k: nat)
    requires n < Pow2(k)
    ensures Bit(n, k) == 0
  {
    if k > 0 {
      SmallBit(n / 2, k - 1);
    }
  }
}
