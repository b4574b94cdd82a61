/** Tables that live in an aligned window of a larger one (transcript.rs's and bus.rs's
    `eq_above`): their extensions and their sums. */
module Windows {
  import opened Rings
  import opened Sums
  import opened Multilinear
  import opened StackLayout

  /** A table g placed in a slot, zero elsewhere. */
  function Placing(R: Ring, slot: Slot, g: int -> Elem): int -> Elem {
    u => if u >= 0 && Holds(slot, u) then g(u - slot.index) else R.zero
  }

  function Window(f: int -> Elem, index: int): int -> Elem {
    k => f(index + k)
  }

  function Times(R: Ring, g: int -> Elem, f: int -> Elem): int -> Elem {
    k => R.mul(g(k), f(k))
  }

  /** The high part of an aligned window's index. */
  lemma SlotHigh(slot: Slot, log: nat) returns (hi: nat)
    requires FitsAt(slot, log) && slot.variables <= log
    ensures slot.index == hi * Pow2(slot.variables) && hi == slot.index / Pow2(slot.variables)
    ensures hi < Pow2(log - slot.variables)
  {
    hide Pow2;
    var w := Pow2(slot.variables);
    hi := slot.index / w;
    assert slot.index == hi * w;
    Pow2Add(slot.variables, log - slot.variables);
    var m := Pow2(log - slot.variables);
    assert hi * w + w <= w * m;
    MulStep(m, hi + 1, w);
    assert (hi + 1) * w == hi * w + w;
  }

  lemma FitsVariables(slot: Slot, log: nat)
    requires FitsAt(slot, log)
    ensures slot.variables <= log
  {
    if log < slot.variables {
      Pow2Mono(log + 1, slot.variables);
    }
  }

  /** Within one low index c, only the high index of the window contributes. */
  lemma StridedPlacing(R: Ring, slot: Slot, g: int -> Elem, hi: nat, c: int, k: int)
    requires slot.index == hi * Pow2(slot.variables) && 0 <= c < Pow2(slot.variables) && 0 <= k
    ensures Strided(Placing(R, slot, g), c, Pow2(slot.variables))(k) == if k == hi then g(c) else R.zero
  {
    hide Pow2;
    var w := Pow2(slot.variables);
    MulStep(k, hi, w);
    MulStep(hi, k, w);
    assert w * k == k * w >= 0;
  }

  lemma InnerPlacing(R: Ring, slot: Slot, g: int -> Elem, z: seq<Elem>, hi: nat, c: int)
    requires R.Laws() && slot.index == hi * Pow2(slot.variables) && 0 <= c < Pow2(slot.variables) && hi < Pow2(|z|)
    ensures Mle(R, Strided(Placing(R, slot, g), c, Pow2(slot.variables)), z) == R.mul(Eq(R, z, hi), g(c))
  {
    hide Sum, Eq, Pow2, Ring.Laws, Placing, Strided;
    var t := Weighted(R, Strided(Placing(R, slot, g), c, Pow2(slot.variables)), z);
    forall k | 0 <= k < Pow2(|z|) && k != hi
      ensures t(k) == R.zero
    {
      StridedPlacing(R, slot, g, hi, c, k);
      R.MulZero(Eq(R, z, k));
    }
    StridedPlacing(R, slot, g, hi, c, hi);
    SumPick(R, Pow2(|z|), hi, t);
  }

  /** The extension of a placed table: its own at the low coordinates, by the weight of the window
      at the high ones. */
  lemma PlacingMle(R: Ring, slot: Slot, g: int -> Elem, x: seq<Elem>)
    requires R.Laws() && FitsAt(slot, |x|) && slot.variables <= |x|
    ensures Mle(R, Placing(R, slot, g), x)
         == R.mul(Mle(R, g, x[..slot.variables]), Eq(R, x[slot.variables..], slot.index / Pow2(slot.variables)))
  {
    hide Mle, Eq, Pow2, Ring.Laws, Placing, FitsAt;
    var v := slot.variables;
    var y, z := x[..v], x[v..];
    var hi := SlotHigh(slot, |x|);
    var inner := InnerMle(R, Placing(R, slot, g), Pow2(v), z);
    forall c | 0 <= c < Pow2(v)
      ensures inner(c) == R.mul(Eq(R, z, hi), g(c))
    {
      InnerPlacing(R, slot, g, z, hi, c);
    }
    assert x == y + z;
    MleConcat(R, Placing(R, slot, g), y, z);
    MleScale(R, Eq(R, z, hi), g, inner, y);
    R.MulComm(Eq(R, z, hi), Mle(R, g, y));
  }

  /** A sum against a placed table is the sum over its window. */
  lemma PlacingSum(R: Ring, slot: Slot, g: int -> Elem, f: int -> Elem, n: nat)
    requires R.Laws() && slot.index + Pow2(slot.variables) <= n
    ensures Sum(R, n, Times(R, Placing(R, slot, g), f)) == Sum(R, Pow2(slot.variables), Times(R, g, Window(f, slot.index)))
  {
    hide Sum, Pow2, Ring.Laws;
    var w, t := Pow2(slot.variables), Times(R, Placing(R, slot, g), f);
    var a, rest := slot.index, n - slot.index - w;
    var mid, high := Window(t, a), Window(t, a + w);
    forall u | 0 <= u < n && !Holds(slot, u)
      ensures t(u) == R.zero
    {
      R.MulZero(f(u));
    }
    SumNone(R, a, t);
    SumNone(R, rest, high);
    SumSplit(R, a, w, t, mid);
    SumSplit(R, a + w, rest, t, high);
    R.AddZero(Sum(R, w, mid));
    SumEq(R, w, mid, Times(R, g, Window(f, a)));
  }

  /** eq_bits: the weight of a selector's bits. */
  method EqBits(R: Ring, selector: nat, point: seq<Elem>) returns (result: Elem)
    requires R.Laws()
    ensures result == Eq(R, point, selector)
  {
    hide Ring.Laws;
    result := R.one;
    var rest, i := selector, 0;
    assert point[0..] == point;
    R.MulOne(Eq(R, point, selector));
    while i < |point|
      invariant 0 <= i <= |point| && 0 <= rest
      invariant R.mul(result, Eq(R, point[i..], rest)) == Eq(R, point, selector)
    {
      assert point[i..][1..] == point[i + 1..];
      R.MulAssoc(result, EqBit(R, point[i], rest), Eq(R, point[i + 1..], rest / 2));
      result := R.mul(result, if rest % 2 == 1 then point[i] else R.add(R.one, point[i]));
      rest := rest / 2;
      i := i + 1;
    }
    assert point[i..] == [];
    R.MulOne(result);
  }

  /** Slot::eq_above: the weight of the coordinates above the window. */
  method EqAbove(R: Ring, slot: Slot, x: seq<Elem>) returns (result: Elem)
    requires R.Laws() && slot.variables <= |x|
    ensures result == Eq(R, x[slot.variables..], slot.index / Pow2(slot.variables))
  {
    hide Eq, Pow2, Ring.Laws;
    var selector := slot.index / Pow2(slot.variables);
    result := EqBits(R, selector, x[slot.variables..]);
  }
}
