/** keccak.rs's `correlations`: all cyclic correlations of two eq kernels, by a walk over the
    shift's bits that carries one pair of sums. */
module Correlations {
  import opened Rings
  import opened Sums
  import opened Multilinear
  import opened Kernels

  /** Position z's term in the correlation at a shift, for kernels of n coordinates. */
  function CorrelationTerm(R: Ring, p: seq<Elem>, q: seq<Elem>, shift: int): int -> Elem {
    z => R.mul(Eq(R, p, z), Eq(R, q, (z + shift) % Pow2(|p|)))
  }

  /** sum_z eq(p, z) eq(q, z + shift mod 2^n). */
  function Correlation(R: Ring, p: seq<Elem>, q: seq<Elem>, shift: int): Elem {
    Sum(R, Pow2(|p|), CorrelationTerm(R, p, q, shift))
  }

  /** The terms whose addition z + shift carries c out of the n bits. */
  function CarryTerm(R: Ring, p: seq<Elem>, q: seq<Elem>, shift: int, c: int): int -> Elem {
    z => if (z + shift) / Pow2(|p|) == c then CorrelationTerm(R, p, q, shift)(z) else R.zero
  }

  function CarrySum(R: Ring, p: seq<Elem>, q: seq<Elem>, shift: int, c: int): Elem {
    Sum(R, Pow2(|p|), CarryTerm(R, p, q, shift, c))
  }

  /** eq(a, bit) eq(b, other): the entry of the walk's pair table. */
  function PairAt(R: Ring, a: Elem, b: Elem, bit: int, other: int): Elem {
    R.mul(EqBit(R, a, bit), EqBit(R, b, other))
  }

  /** What the carry c brings to the next carry, through the position bit. */
  function Brought(R: Ring, a: Elem, b: Elem, r: int, next: int, bit: int, c: int, weight: Elem): Elem {
    if (bit + r + c) / 2 == next then R.mul(weight, PairAt(R, a, b, bit, (bit + r + c) % 2)) else R.zero
  }

  /** The next carry sum, from the two before: four products. */
  function Carried(R: Ring, a: Elem, b: Elem, r: int, next: int, e0: Elem, e1: Elem): Elem {
    R.add(R.add(Brought(R, a, b, r, next, 0, 0, e0), Brought(R, a, b, r, next, 0, 1, e1)),
          R.add(Brought(R, a, b, r, next, 1, 0, e0), Brought(R, a, b, r, next, 1, 1, e1)))
  }

  // ---- one more bit ----------------------------------------------------------------------------

  /** The low part and the carry of z + shift over n bits, m = 2^n. */
  lemma AddLow(z: int, shift: int, m: int) returns (c: int, w: int)
    requires m > 0 && 0 <= z < m && 0 <= shift < m
    ensures c == (z + shift) / m && w == (z + shift) % m
    ensures c in {0, 1} && 0 <= w < m && z + shift == w + if c == 1 then m else 0
  {
    c := if z + shift < m then 0 else 1;
    w := if z + shift < m then z + shift else z + shift - m;
    DivUnique(z + shift, m, c, w);
  }

  /** A multiple of m by a bit. */
  function Bits(m: int, bit: int): int {
    if bit == 1 then m else 0
  }

  /** The addition at the next bit: where it lands and what it carries. */
  lemma AddBit(s: int, w: int, c: int, m: int, bit: int, r: int)
    requires m > 0 && 0 <= w < m && s == w + Bits(m, c) && bit in {0, 1} && r in {0, 1} && c in {0, 1}
    ensures (s + Bits(m, bit) + Bits(m, r)) / (2 * m) == (bit + r + c) / 2
    ensures (s + Bits(m, bit) + Bits(m, r)) % (2 * m) == w + Bits(m, (bit + r + c) % 2)
  {
    var t := bit + r + c;
    var h := t / 2;
    assert h in {0, 1} && t % 2 in {0, 1};
    assert h * (2 * m) == if h == 1 then 2 * m else 0;
    DivUnique(s + Bits(m, bit) + Bits(m, r), 2 * m, h, w + Bits(m, t % 2));
  }

  /** The term at z + 2^n bit, from the shorter kernels' term at z. */
  lemma TermStep(R: Ring, p: seq<Elem>, q: seq<Elem>, a: Elem, b: Elem, shift: int, r: int, bit: int, z: int)
    requires R.Laws() && |p| == |q| && 0 <= shift < Pow2(|p|) && 0 <= z < Pow2(|p|) && bit in {0, 1} && r in {0, 1}
    ensures var m := Pow2(|p|);
      var c := (z + shift) / m;
      && (z + Bits(m, bit) + (shift + Bits(m, r))) / (2 * m) == (bit + r + c) / 2 && c in {0, 1}
      && CorrelationTerm(R, p + [a], q + [b], shift + Bits(m, r))(z + Bits(m, bit))
         == R.mul(CorrelationTerm(R, p, q, shift)(z), PairAt(R, a, b, bit, (bit + r + c) % 2))
  {
    hide Eq, Pow2, EqBit, Bits, CorrelationTerm, PairAt;
    var m := Pow2(|p|);
    var c, w := AddLow(z, shift, m);
    BitsIs(m, c);
    var d := (bit + r + c) % 2;
    var z', shift' := z + Bits(m, bit), shift + Bits(m, r);
    AddBit(z + shift, w, c, m, bit, r);
    assert z' + shift' == z + shift + Bits(m, bit) + Bits(m, r);
    LongerPow(p, a);
    TermProduct(R, p, q, a, b, z, w, bit, d);
    CorrelationAt(R, p, q, shift, z, w);
    CorrelationAt(R, p + [a], q + [b], shift', z', w + Bits(m, d));
  }

  lemma CorrelationAt(R: Ring, p: seq<Elem>, q: seq<Elem>, shift: int, z: int, w: int)
    requires w == (z + shift) % Pow2(|p|)
    ensures CorrelationTerm(R, p, q, shift)(z) == R.mul(Eq(R, p, z), Eq(R, q, w))
  {
    hide Eq, Pow2;
  }

  lemma TermProduct(R: Ring, p: seq<Elem>, q: seq<Elem>, a: Elem, b: Elem, z: int, w: int, bit: int, d: int)
    requires R.Laws() && |p| == |q| && 0 <= z < Pow2(|p|) && 0 <= w < Pow2(|p|) && bit in {0, 1} && d in {0, 1}
    ensures R.mul(Eq(R, p + [a], z + Bits(Pow2(|p|), bit)), Eq(R, q + [b], w + Bits(Pow2(|p|), d)))
         == R.mul(R.mul(Eq(R, p, z), Eq(R, q, w)), PairAt(R, a, b, bit, d))
  {
    hide Eq, Pow2, EqBit, Bits;
    LongerEq(R, p, a, z, bit);
    LongerEq(R, q, b, w, d);
    R.MulSwap(Eq(R, p, z), EqBit(R, a, bit), Eq(R, q, w), EqBit(R, b, d));
  }

  lemma BitsIs(m: int, c: int)
    requires c in {0, 1}
    ensures Bits(m, c) == if c == 1 then m else 0
  {
  }

  lemma LongerPow(p: seq<Elem>, a: Elem)
    ensures Pow2(|p + [a]|) == 2 * Pow2(|p|)
  {
  }

  lemma LongerEq(R: Ring, p: seq<Elem>, a: Elem, z: int, bit: int)
    requires R.Laws() && 0 <= z < Pow2(|p|) && bit in {0, 1}
    ensures Eq(R, p + [a], z + Bits(Pow2(|p|), bit)) == R.mul(Eq(R, p, z), EqBit(R, a, bit))
  {
    hide Eq, EqBit, Pow2;
    EqConcat(R, p, [a], z, bit);
    OneEq(R, a, bit);
    assert Pow2(|p|) * bit == Bits(Pow2(|p|), bit);
  }

  lemma OneEq(R: Ring, a: Elem, bit: int)
    requires R.Laws()
    ensures Eq(R, [a], bit) == EqBit(R, a, bit)
  {
    R.MulOne(EqBit(R, a, bit));
    assert Eq(R, [a], bit) == R.mul(EqBit(R, a, bit), Eq(R, [], bit / 2));
  }

  /** The half of the longer sum with the given top bit. */
  function HalfTerm(R: Ring, p: seq<Elem>, q: seq<Elem>, a: Elem, b: Elem, shift: int, r: int, next: int, bit: int): int -> Elem {
    z => CarryTerm(R, p + [a], q + [b], shift + Bits(Pow2(|p|), r), next)(z + Bits(Pow2(|p|), bit))
  }

  function BroughtTerm(R: Ring, p: seq<Elem>, q: seq<Elem>, a: Elem, b: Elem, shift: int, r: int, next: int, bit: int, c: int): int -> Elem {
    z => Brought(R, a, b, r, next, bit, c, CarryTerm(R, p, q, shift, c)(z))
  }

  /** Each term of the half comes from exactly one carry. */
  lemma HalfSplits(R: Ring, p: seq<Elem>, q: seq<Elem>, a: Elem, b: Elem, shift: int, r: int, next: int, bit: int, z: int)
    requires R.Laws() && |p| == |q| && 0 <= shift < Pow2(|p|) && 0 <= z < Pow2(|p|) && bit in {0, 1} && r in {0, 1}
    ensures HalfTerm(R, p, q, a, b, shift, r, next, bit)(z)
         == R.add(BroughtTerm(R, p, q, a, b, shift, r, next, bit, 0)(z), BroughtTerm(R, p, q, a, b, shift, r, next, bit, 1)(z))
  {
    hide CorrelationTerm, Pow2, PairAt, Bits;
    TermStep(R, p, q, a, b, shift, r, bit, z);
    LongerPow(p, a);
    var c := (z + shift) / Pow2(|p|);
    var t := CorrelationTerm(R, p, q, shift)(z);
    OneCarry(R, a, b, r, next, bit, c, t);
    assert CarryTerm(R, p, q, shift, 0)(z) == if c == 0 then t else R.zero;
    assert CarryTerm(R, p, q, shift, 1)(z) == if c == 1 then t else R.zero;
    assert BroughtTerm(R, p, q, a, b, shift, r, next, bit, 0)(z) == Brought(R, a, b, r, next, bit, 0, if c == 0 then t else R.zero);
    assert BroughtTerm(R, p, q, a, b, shift, r, next, bit, 1)(z) == Brought(R, a, b, r, next, bit, 1, if c == 1 then t else R.zero);
    var z', shift' := z + Bits(Pow2(|p|), bit), shift + Bits(Pow2(|p|), r);
    assert HalfTerm(R, p, q, a, b, shift, r, next, bit)(z) == CarryTerm(R, p + [a], q + [b], shift', next)(z');
  }

  /** Of the two carries, the one that did not happen brings nothing. */
  lemma OneCarry(R: Ring, a: Elem, b: Elem, r: int, next: int, bit: int, c: int, t: Elem)
    requires R.Laws() && c in {0, 1}
    ensures R.add(Brought(R, a, b, r, next, bit, 0, if c == 0 then t else R.zero),
                  Brought(R, a, b, r, next, bit, 1, if c == 1 then t else R.zero))
         == if (bit + r + c) / 2 == next then R.mul(t, PairAt(R, a, b, bit, (bit + r + c) % 2)) else R.zero
  {
    hide PairAt;
    R.AddZero(R.zero);
    if c == 0 {
      R.AddZero(R.mul(t, PairAt(R, a, b, bit, (bit + r) % 2)));
      R.MulZero(PairAt(R, a, b, bit, (bit + r + 1) % 2));
    } else {
      R.AddZero(R.mul(t, PairAt(R, a, b, bit, (bit + r + 1) % 2)));
      R.MulZero(PairAt(R, a, b, bit, (bit + r) % 2));
    }
  }

  lemma BroughtSum(R: Ring, p: seq<Elem>, q: seq<Elem>, a: Elem, b: Elem, shift: int, r: int, next: int, bit: int, c: int)
    requires R.Laws()
    ensures Sum(R, Pow2(|p|), BroughtTerm(R, p, q, a, b, shift, r, next, bit, c))
         == Brought(R, a, b, r, next, bit, c, CarrySum(R, p, q, shift, c))
  {
    hide Sum, CorrelationTerm, PairAt, Pow2;
    var n := Pow2(|p|);
    var f, h := CarryTerm(R, p, q, shift, c), BroughtTerm(R, p, q, a, b, shift, r, next, bit, c);
    if (bit + r + c) / 2 == next {
      var s := PairAt(R, a, b, bit, (bit + r + c) % 2);
      forall z | 0 <= z < n
        ensures h(z) == R.mul(s, f(z))
      {
        R.MulComm(f(z), s);
      }
      SumScale(R, n, s, f, h);
      R.MulComm(s, CarrySum(R, p, q, shift, c));
    } else {
      forall z | 0 <= z < n
        ensures h(z) == R.zero
      {
        assert h(z) == Brought(R, a, b, r, next, bit, c, f(z));
      }
      SumNone(R, n, h);
    }
  }

  lemma HalfSum(R: Ring, p: seq<Elem>, q: seq<Elem>, a: Elem, b: Elem, shift: int, r: int, next: int, bit: int)
    requires R.Laws() && |p| == |q| && 0 <= shift < Pow2(|p|) && bit in {0, 1} && r in {0, 1}
    ensures Sum(R, Pow2(|p|), HalfTerm(R, p, q, a, b, shift, r, next, bit))
         == R.add(Brought(R, a, b, r, next, bit, 0, CarrySum(R, p, q, shift, 0)),
                  Brought(R, a, b, r, next, bit, 1, CarrySum(R, p, q, shift, 1)))
  {
    hide Sum, HalfTerm, BroughtTerm, Brought, Pow2;
    var h := HalfTerm(R, p, q, a, b, shift, r, next, bit);
    var f, g := BroughtTerm(R, p, q, a, b, shift, r, next, bit, 0), BroughtTerm(R, p, q, a, b, shift, r, next, bit, 1);
    forall z | 0 <= z < Pow2(|p|)
      ensures h(z) == R.add(f(z), g(z))
    {
      HalfSplits(R, p, q, a, b, shift, r, next, bit, z);
    }
    SumAdd(R, Pow2(|p|), f, g, h);
    BroughtSum(R, p, q, a, b, shift, r, next, bit, 0);
    BroughtSum(R, p, q, a, b, shift, r, next, bit, 1);
  }

  lemma HalfAt(R: Ring, p: seq<Elem>, q: seq<Elem>, a: Elem, b: Elem, shift: int, r: int, next: int, z: int)
    ensures var f := CarryTerm(R, p + [a], q + [b], shift + Bits(Pow2(|p|), r), next);
      HalfTerm(R, p, q, a, b, shift, r, next, 0)(z) == f(z) && HalfTerm(R, p, q, a, b, shift, r, next, 1)(z) == f(Pow2(|p|) + z)
  {
    hide CarryTerm, Pow2;
    assert z + Bits(Pow2(|p|), 0) == z && z + Bits(Pow2(|p|), 1) == Pow2(|p|) + z;
  }

  lemma LongerCarrySum(R: Ring, p: seq<Elem>, q: seq<Elem>, a: Elem, b: Elem, shift: int, c: int)
    ensures CarrySum(R, p + [a], q + [b], shift, c) == Sum(R, 2 * Pow2(|p|), CarryTerm(R, p + [a], q + [b], shift, c))
  {
    hide Sum, CarryTerm;
  }

  /** The longer carry sum, as the four products of the walk. */
  lemma CarryStep(R: Ring, p: seq<Elem>, q: seq<Elem>, a: Elem, b: Elem, shift: int, r: int, next: int)
    requires R.Laws() && |p| == |q| && 0 <= shift < Pow2(|p|) && r in {0, 1}
    ensures CarrySum(R, p + [a], q + [b], shift + Bits(Pow2(|p|), r), next)
         == Carried(R, a, b, r, next, CarrySum(R, p, q, shift, 0), CarrySum(R, p, q, shift, 1))
  {
    hide Sum, Brought, Pow2, CarryTerm, Bits, HalfTerm, CarrySum;
    var n := Pow2(|p|);
    LongerCarrySum(R, p, q, a, b, shift + Bits(n, r), next);
    var f := CarryTerm(R, p + [a], q + [b], shift + Bits(n, r), next);
    var h0, h1 := HalfTerm(R, p, q, a, b, shift, r, next, 0), HalfTerm(R, p, q, a, b, shift, r, next, 1);
    forall z
      ensures h0(z) == f(z) && h1(z) == f(n + z)
    {
      HalfAt(R, p, q, a, b, shift, r, next, z);
    }
    SumSplit(R, n, n, f, h1);
    SumEq(R, n, f, h0);
    HalfSum(R, p, q, a, b, shift, r, next, 0);
    HalfSum(R, p, q, a, b, shift, r, next, 1);
  }

  /** All carries together: the correlation. */
  lemma CarriesAll(R: Ring, p: seq<Elem>, q: seq<Elem>, shift: int)
    requires R.Laws() && 0 <= shift < Pow2(|p|)
    ensures Correlation(R, p, q, shift) == R.add(CarrySum(R, p, q, shift, 0), CarrySum(R, p, q, shift, 1))
  {
    hide Sum, CorrelationTerm;
    var n := Pow2(|p|);
    forall z | 0 <= z < n
      ensures CorrelationTerm(R, p, q, shift)(z) == R.add(CarryTerm(R, p, q, shift, 0)(z), CarryTerm(R, p, q, shift, 1)(z))
    {
      if z + shift < n {
        DivUnique(z + shift, n, 0, z + shift);
      } else {
        DivUnique(z + shift, n, 1, z + shift - n);
      }
      R.AddZero(CorrelationTerm(R, p, q, shift)(z));
    }
    SumAdd(R, n, CarryTerm(R, p, q, shift, 0), CarryTerm(R, p, q, shift, 1), CorrelationTerm(R, p, q, shift));
  }

  // ---- the walk --------------------------------------------------------------------------------

  /** One bit of the walk: the next pair of carries, zero weights skipped. */
  method NextCarry(R: Ring, a: Elem, b: Elem, r: int, carry: seq<Elem>) returns (next: seq<Elem>)
    requires R.Laws() && r in {0, 1} && |carry| == 2
    ensures next == [Carried(R, a, b, r, 0, carry[0], carry[1]), Carried(R, a, b, r, 1, carry[0], carry[1])]
  {
    hide PairAt, Brought, Partial;
    NoneBrought(R, a, b, r, carry);
    next := [R.zero, R.zero];
    var c := 0;
    while c < 2
      invariant 0 <= c <= 2 && |next| == 2
      invariant forall t :: 0 <= t < 2 ==> next[t] == Partial(R, a, b, r, t, carry, c, 0)
    {
      var weight := carry[c];
      if weight != R.zero {
        var z := 0;
        while z < 2
          invariant 0 <= z <= 2 && |next| == 2
          invariant forall t :: 0 <= t < 2 ==> next[t] == Partial(R, a, b, r, t, carry, c, z)
        {
          var to' := (z + r + c) / 2;
          PartialStep(R, a, b, r, 1 - to', carry, c, z);
          PartialStep(R, a, b, r, to', carry, c, z);
          next := next[to' := R.add(next[to'], R.mul(weight, PairAt(R, a, b, z, (z + r + c) % 2)))];
          z := z + 1;
        }
      } else {
        SkipZero(R, a, b, r, 0, carry, c);
        SkipZero(R, a, b, r, 1, carry, c);
      }
      PartialRow(R, a, b, r, 0, carry, c);
      PartialRow(R, a, b, r, 1, carry, c);
      c := c + 1;
    }
    PartialAll(R, a, b, r, 0, carry);
    PartialAll(R, a, b, r, 1, carry);
  }

  /** What the walk's double loop has added to carry t before position (c, z). */
  function Partial(R: Ring, a: Elem, b: Elem, r: int, t: int, carry: seq<Elem>, c: int, z: int): Elem
    requires |carry| == 2 && 0 <= c <= 2 && 0 <= z <= 2 && (c == 2 ==> z == 0)
    decreases c, z
  {
    if z > 0 then R.add(Partial(R, a, b, r, t, carry, c, z - 1), Brought(R, a, b, r, t, z - 1, c, carry[c]))
    else if c > 0 then Partial(R, a, b, r, t, carry, c - 1, 2)
    else R.zero
  }

  lemma NoneBrought(R: Ring, a: Elem, b: Elem, r: int, carry: seq<Elem>)
    requires |carry| == 2
    ensures Partial(R, a, b, r, 0, carry, 0, 0) == R.zero && Partial(R, a, b, r, 1, carry, 0, 0) == R.zero
  {
  }

  lemma PartialRow(R: Ring, a: Elem, b: Elem, r: int, t: int, carry: seq<Elem>, c: int)
    requires |carry| == 2 && 0 <= c < 2
    ensures Partial(R, a, b, r, t, carry, c + 1, 0) == Partial(R, a, b, r, t, carry, c, 2)
  {
  }

  lemma PartialStep(R: Ring, a: Elem, b: Elem, r: int, t: int, carry: seq<Elem>, c: int, z: int)
    requires R.Laws() && |carry| == 2 && 0 <= c < 2 && 0 <= z < 2
    ensures Partial(R, a, b, r, t, carry, c, z + 1)
         == R.add(Partial(R, a, b, r, t, carry, c, z), Brought(R, a, b, r, t, z, c, carry[c]))
    ensures (z + r + c) / 2 != t ==> Partial(R, a, b, r, t, carry, c, z + 1) == Partial(R, a, b, r, t, carry, c, z)
    ensures (z + r + c) / 2 == t ==>
      Partial(R, a, b, r, t, carry, c, z + 1)
      == R.add(Partial(R, a, b, r, t, carry, c, z), R.mul(carry[c], PairAt(R, a, b, z, (z + r + c) % 2)))
  {
    R.AddZero(Partial(R, a, b, r, t, carry, c, z));
  }

  lemma SkipZero(R: Ring, a: Elem, b: Elem, r: int, t: int, carry: seq<Elem>, c: int)
    requires R.Laws() && |carry| == 2 && 0 <= c < 2 && carry[c] == R.zero
    ensures Partial(R, a, b, r, t, carry, c, 2) == Partial(R, a, b, r, t, carry, c, 0)
  {
    var p := Partial(R, a, b, r, t, carry, c, 0);
    R.MulZero(PairAt(R, a, b, 0, (0 + r + c) % 2));
    R.MulZero(PairAt(R, a, b, 1, (1 + r + c) % 2));
    R.AddZero(p);
    assert Partial(R, a, b, r, t, carry, c, 1) == p;
  }

  lemma PartialAll(R: Ring, a: Elem, b: Elem, r: int, t: int, carry: seq<Elem>)
    requires R.Laws() && |carry| == 2
    ensures Partial(R, a, b, r, t, carry, 2, 0) == Carried(R, a, b, r, t, carry[0], carry[1])
  {
    hide Brought;
    var w, x := Brought(R, a, b, r, t, 0, 0, carry[0]), Brought(R, a, b, r, t, 1, 0, carry[0]);
    var y, z := Brought(R, a, b, r, t, 0, 1, carry[1]), Brought(R, a, b, r, t, 1, 1, carry[1]);
    R.AddZero(w);
    assert Partial(R, a, b, r, t, carry, 0, 1) == w;
    assert Partial(R, a, b, r, t, carry, 0, 2) == R.add(w, x);
    assert Partial(R, a, b, r, t, carry, 1, 0) == R.add(w, x);
    assert Partial(R, a, b, r, t, carry, 1, 1) == R.add(R.add(w, x), y);
    assert Partial(R, a, b, r, t, carry, 1, 2) == R.add(R.add(R.add(w, x), y), z);
    R.AddAssoc(R.add(w, x), y, z);
    R.AddSwap(w, x, y, z);
  }

  /** The depth-first walk: every shift that starts with the given low bits gets its correlation. */
  method Walk(R: Ring, p: seq<Elem>, q: seq<Elem>, k: nat, shift: nat, carry: seq<Elem>, out: array<Elem>)
    requires R.Laws() && |p| == |q| && k <= |p| && shift < Pow2(k) && out.Length == Pow2(|p|)
    requires carry == [CarrySum(R, p[..k], q[..k], shift, 0), CarrySum(R, p[..k], q[..k], shift, 1)]
    modifies out
    ensures forall s :: 0 <= s < out.Length && s % Pow2(k) == shift ==> out[s] == Correlation(R, p, q, s)
    ensures forall s :: 0 <= s < out.Length && s % Pow2(k) != shift ==> out[s] == old(out[s])
    decreases |p| - k
  {
    hide Correlation, CarrySum, Carried, Pow2, Bits, Ring.Laws;
    BitsIs(Pow2(k), 0);
    BitsIs(Pow2(k), 1);
    if k == |p| {
      assert p[..k] == p && q[..k] == q;
      CarriesAll(R, p, q, shift);
      AllBits(out.Length);
      out[shift] := R.add(carry[0], carry[1]);
      return;
    }
    var m := Pow2(k);
    ShiftsSplit(k, shift);
    PrefixNext(p, k);
    PrefixNext(q, k);
    CarryStep(R, p[..k], q[..k], p[k], q[k], shift, 0, 0);
    CarryStep(R, p[..k], q[..k], p[k], q[k], shift, 0, 1);
    CarryStep(R, p[..k], q[..k], p[k], q[k], shift, 1, 0);
    CarryStep(R, p[..k], q[..k], p[k], q[k], shift, 1, 1);
    var next0 := NextCarry(R, p[k], q[k], 0, carry);
    Walk(R, p, q, k + 1, shift, next0, out);
    var next1 := NextCarry(R, p[k], q[k], 1, carry);
    Walk(R, p, q, k + 1, shift + m, next1, out);
  }

  /** The shifts with given low bits, by their next bit. */
  lemma ShiftsSplit(k: nat, shift: nat)
    requires shift < Pow2(k)
    ensures forall s :: s % Pow2(k) == shift <==> s % Pow2(k + 1) == shift || s % Pow2(k + 1) == shift + Pow2(k)
    ensures Pow2(k + 1) == 2 * Pow2(k)
  {
    forall s
      ensures s % Pow2(k) == shift <==> s % Pow2(k + 1) == shift || s % Pow2(k + 1) == shift + Pow2(k)
    {
      ModHalf(s, Pow2(k), shift);
    }
  }

  lemma PrefixNext(p: seq<Elem>, k: nat)
    requires k < |p|
    ensures p[..k + 1] == p[..k] + [p[k]]
  {
  }

  lemma AllBits(n: nat)
    requires n > 0
    ensures forall s :: 0 <= s < n ==> s % n == s
  {
    forall s | 0 <= s < n
      ensures s % n == s
    {
      DivUnique(s, n, 0, s);
    }
  }

  lemma ModHalf(s: int, m: int, r: int)
    requires m > 0 && 0 <= r < m
    ensures s % m == r <==> s % (2 * m) == r || s % (2 * m) == r + m
  {
    var q, t := s / (2 * m), s % (2 * m);
    assert s == q * (2 * m) + t;
    if t < m {
      assert s == 2 * q * m + t;
      DivUnique(s, m, 2 * q, t);
    } else {
      assert s == (2 * q + 1) * m + (t - m);
      DivUnique(s, m, 2 * q + 1, t - m);
    }
  }

  /** `correlations`: out[r] is the correlation at every shift r. */
  method AllCorrelations(R: Ring, p: seq<Elem>, q: seq<Elem>, out: array<Elem>)
    requires R.Laws() && |p| == |q| && out.Length == Pow2(|p|)
    modifies out
    ensures forall s :: 0 <= s < out.Length ==> out[s] == Correlation(R, p, q, s)
  {
    FirstCarry(R, p, q);
    hide Correlation, CarrySum, Pow2;
    Walk(R, p, q, 0, 0, [R.one, R.zero], out);
    forall s | 0 <= s < out.Length
      ensures s % 1 == 0
    {
    }
  }

  lemma FirstCarry(R: Ring, p: seq<Elem>, q: seq<Elem>)
    requires R.Laws()
    ensures CarrySum(R, p[..0], q[..0], 0, 0) == R.one && CarrySum(R, p[..0], q[..0], 0, 1) == R.zero && Pow2(0) == 1
  {
    R.MulOne(R.one);
    R.AddZero(R.one);
    R.AddZero(R.zero);
    assert p[..0] == [] && q[..0] == [];
    assert Eq(R, [], 0) == R.one;
    var f, g := CarryTerm(R, [], [], 0, 0), CarryTerm(R, [], [], 0, 1);
    assert CorrelationTerm(R, [], [], 0)(0) == R.one;
    assert f(0) == R.one && g(0) == R.zero;
    assert Sum(R, 1, f) == R.add(Sum(R, 0, f), f(0));
    assert Sum(R, 1, g) == R.add(Sum(R, 0, g), g(0));
  }
}
