/** Squaring by spreading bits (field.rs's `spread`, `K::square`, `E::square`): six masked shifts put
    each bit at twice its place, which is the carry-less square. */
module Squares {
  import opened Rings
  import opened Multilinear
  import opened Bits
  import opened Carryless
  import opened MaskedMultiply
  import opened FieldBase
  import opened FieldRing

  // ---- words in two parts ------------------------------------------------------------------------

  lemma OrBit(x: nat, y: nat)
    ensures Or(x, y) == (if x % 2 == 1 || y % 2 == 1 then 1 else 0) + 2 * Or(x / 2, y / 2)
  {
    if x + y == 0 {
      assert Or(0, 0) == 0;
    }
  }

  lemma {:induction false} OrJoin(a: nat, b: nat, c: nat, d: nat, k: nat)
    requires a < Pow2(k) && c < Pow2(k)
    ensures Or(a + Pow2(k) * b, c + Pow2(k) * d) == Or(a, c) + Pow2(k) * Or(b, d) && Or(a, c) < Pow2(k)
    decreases k
  {
    hide Or, Pow2;
    if k == 0 {
      OrNone(0, 0);
      One(b);
      One(d);
      One(Or(b, d));
    } else {
      var h := Pow2(k - 1);
      Doubled(k, b);
      OrJoin(a / 2, b, c / 2, d, k - 1);
      HalfJoin(a, b, h);
      HalfJoin(c, d, h);
      Doubled(k, d);
      Doubled(k, Or(b, d));
      OrBit(a + Pow2(k) * b, c + Pow2(k) * d);
      OrBit(a, c);
    }
  }

  lemma {:induction false} AndJoin(a: nat, b: nat, c: nat, d: nat, k: nat)
    requires a < Pow2(k) && c < Pow2(k)
    ensures And(a + Pow2(k) * b, c + Pow2(k) * d) == And(a, c) + Pow2(k) * And(b, d)
    decreases k
  {
    hide And, Pow2;
    if k == 0 {
      NoAnd(0);
      One(b);
      One(d);
      One(And(b, d));
    } else {
      var h := Pow2(k - 1);
      Doubled(k, b);
      AndJoin(a / 2, b, c / 2, d, k - 1);
      HalfJoin(a, b, h);
      HalfJoin(c, d, h);
      Doubled(k, d);
      Doubled(k, And(b, d));
      AndBit(a + Pow2(k) * b, c + Pow2(k) * d);
      AndBit(a, c);
    }
  }

  // ---- spaced chunks -----------------------------------------------------------------------------

  /** a's c-bit chunks, each followed by c empty bits. */
  function Spaced(a: nat, c: nat): nat
    requires c > 0
    decreases a
  {
    if a == 0 then 0
    else
      ShiftSmaller(a, c);
      Low(a, c) + Pow2(2 * c) * Spaced(Shift(a, c), c)
  }

  lemma {:induction false} ShiftSmaller(a: nat, c: nat)
    requires a > 0 && c > 0
    ensures Shift(a, c) < a
  {
    SplitAt(a, c);
    hide Shift, Low;
    var s, p := Shift(a, c), Pow2(c);
    assert p >= 2;
    assert (p - 2) * s >= 0;
  }

  lemma SpacedNext(a: nat, c: nat)
    requires c > 0
    ensures Spaced(a, c) == Low(a, c) + Pow2(2 * c) * Spaced(Shift(a, c), c)
  {
    if a == 0 {
      ShiftZero(c);
      LowSmall(0, c);
      assert Pow2(2 * c) * 0 == 0;
    }
  }

  /** (x | x << c) & mask. */
  function Step(x: nat, c: nat, mask: nat): nat {
    And(Or(x, Pow2(c) * x), mask)
  }

  function Ones(c: nat): nat {
    Pow2(c) - 1
  }

  /** The mask of one slot of 4c bits: c ones, c zeros, twice. */
  function Pair(c: nat): nat {
    Ones(c) + Pow2(c) * (Pow2(c) * Ones(c))
  }

  function Mask(c: nat, n: nat): nat {
    if n == 0 then 0 else Pair(c) + Pow2(4 * c) * Mask(c, n - 1)
  }

  lemma Powers(c: nat)
    ensures Pow2(2 * c) == Pow2(c) * Pow2(c) && Pow2(4 * c) == Pow2(2 * c) * Pow2(2 * c)
  {
    hide Pow2;
    Pow2Add(c, c);
    Pow2Add(2 * c, 2 * c);
    assert c + c == 2 * c && 2 * c + 2 * c == 4 * c;
  }

  /** A slot's two chunks l and h, doubled up: l, l or h, h. */
  lemma SlotOr(c: nat, p: nat, l: nat, h: nat, v: nat, u: nat)
    requires p == Pow2(c) && l < p && h < p && v == l + p * h && u == p * v
    ensures Or(h, l) < p && Or(v, u) == l + p * (Or(h, l) + p * h)
  {
    hide Or, Pow2;
    NoMore(p);
    OrJoin(l, h, 0, v, c);
    OrJoin(h, 0, l, h, c);
    OrZero(l);
    OrZero(h);
  }

  lemma NoMore(p: nat)
    ensures p * 0 == 0
  {
  }

  /** The mask keeps the lower l and the upper h. */
  lemma SlotAnd(c: nat, p: nat, l: nat, y: nat, h: nat, x: nat, m: nat)
    requires p == Pow2(c) && l < p && y < p && h < p && x == l + p * (y + p * h) && m == Pair(c)
    ensures And(x, m) == l + p * (p * h)
  {
    hide And, Pow2, Ones;
    NoMore(p);
    AndOnes(l, c);
    AndOnes(h, c);
    AndJoin(y, h, 0, Ones(c), c);
    NoAnd(y);
    AndJoin(l, y + p * h, Ones(c), p * Ones(c), c);
  }

  /** One slot: its 2c bits as two chunks. */
  lemma SlotStep(v: nat, c: nat, p: nat, l: nat, h: nat)
    requires v < Pow2(2 * c) && p == Pow2(c) && l == Low(v, c) && h == Shift(v, c)
    ensures Step(v, c, Pair(c)) == l + p * (p * h)
  {
    hide Or, And, Pow2, Low, Shift, Pair;
    SplitAt(v, c);
    LowBound(v, c);
    ShiftBoundHalf(v, c);
    SlotOr(c, p, l, h, v, p * v);
    SlotAnd(c, p, l, Or(h, l), h, Or(v, p * v), Pair(c));
  }

  lemma Room(l: nat, y: nat, h: nat, p: nat)
    requires l < p && y < p && h < p
    ensures l + p * (y + p * h) < (p * p) * (p * p)
  {
    var q, t := p * p, y + p * h;
    MulStep(h, p, p);
    assert p * h == h * p && t < q;
    MulStep(t, q, p);
    assert p * t == t * p && l + p * t < q * p;
    MulMore(q, p);
  }

  lemma MulMore(q: nat, p: nat)
    requires p > 0 && q == p * p
    ensures q * p <= q * q
  {
    assert p * 1 <= p * p;
    assert q * (q - p) >= 0;
    assert q * (q - p) == q * q - q * p;
  }

  lemma ShiftBoundHalf(v: nat, c: nat)
    requires v < Pow2(2 * c)
    ensures Shift(v, c) < Pow2(c)
  {
    hide Shift, Low, Pow2;
    SplitAt(v, c);
    Powers(c);
    var p, s := Pow2(c), Shift(v, c);
    MulStep(p - 1, s, p);
    assert (p - 1) * p + p == p * p && s * p == p * s;
  }

  lemma OrZero(x: nat)
    ensures Or(x, 0) == x && Or(0, x) == x
  {
    if x > 0 {
      OrZero(x / 2);
      OrBit(x, 0);
      OrBit(0, x);
    }
  }

  lemma AndOnes(x: nat, c: nat)
    requires x < Pow2(c)
    ensures And(x, Ones(c)) == x && Ones(c) < Pow2(c)
  {
    AndLow(x, c);
    LowSmall(x, c);
  }

  lemma PartsJoin(k: nat, s: nat, v: nat, x: nat, pv: nat, px: nat, pair: nat, mask: nat)
    requires s == Pow2(k) && v < s && pv < s && pair < s
    ensures And(Or(v + s * x, pv + s * px), pair + s * mask) == And(Or(v, pv), pair) + s * And(Or(x, px), mask)
  {
    hide Or, And, Pow2;
    OrJoin(v, x, pv, px, k);
    AndJoin(Or(v, pv), Or(x, px), pair, mask, k);
  }

  lemma StepIs(x: nat, c: nat, mask: nat, p: nat)
    requires p == Pow2(c)
    ensures Step(x, c, mask) == And(Or(x, p * x), mask)
  {
  }

  /** Slots do not meet. */
  lemma StepJoin(v: nat, x: nat, c: nat, mask: nat)
    requires v < Pow2(2 * c)
    ensures Step(v + Pow2(4 * c) * x, c, Pair(c) + Pow2(4 * c) * mask) == Step(v, c, Pair(c)) + Pow2(4 * c) * Step(x, c, mask)
  {
    hide Or, And, Pow2, Pair, Step;
    var p, s := Pow2(c), Pow2(4 * c);
    PairBound(c);
    ShiftedFits(v, c);
    Distribute(p, v, s, x);
    StepIs(v + s * x, c, Pair(c) + s * mask, p);
    StepIs(v, c, Pair(c), p);
    StepIs(x, c, mask, p);
    PartsJoin(4 * c, s, v, x, p * v, p * x, Pair(c), mask);
  }

  lemma Distribute(p: nat, v: nat, s: nat, x: nat)
    ensures p * (v + s * x) == p * v + s * (p * x)
  {
    assert p * (s * x) == s * (p * x);
  }

  lemma ShiftedFits(v: nat, c: nat)
    requires v < Pow2(2 * c)
    ensures v < Pow2(4 * c) && Pow2(c) * v < Pow2(4 * c)
  {
    hide Pow2;
    Powers(c);
    ProductFits(v, Pow2(c), Pow2(2 * c));
  }

  lemma ProductFits(v: nat, p: nat, q: nat)
    requires v < q && q == p * p && p > 0
    ensures v < q * q && p * v < q * q
  {
    MulStep(v, q, p);
    assert v * p == p * v;
    MulMore(q, p);
    assert p * v >= v by {
      assert (p - 1) * v >= 0;
    }
  }

  lemma PairBound(c: nat)
    ensures Pair(c) < Pow2(4 * c)
  {
    hide Pow2;
    Powers(c);
    Room(Ones(c), 0, Ones(c), Pow2(c));
  }

  /** One step halves the chunks. */
  lemma {:induction false} StepSpaced(a: nat, c: nat, n: nat)
    requires c > 0 && a < Pow2(2 * c * n)
    ensures Step(Spaced(a, 2 * c), c, Mask(c, n)) == Spaced(a, c)
    decreases n
  {
    hide Spaced, Step, Pow2, Low, Shift;
    if n == 0 {
      Nothing(c);
      assert a == 0;
    } else {
      SpacedNext(a, 2 * c);
      SpacedNext(a, c);
      SpacedNext(Shift(a, c), c);
      ShiftShift(a, c, c);
      LowBound(a, 2 * c);
      LowParts(a, c);
      StepJoin(Low(a, 2 * c), Spaced(Shift(a, 2 * c), 2 * c), c, Mask(c, n - 1));
      SlotStep(Low(a, 2 * c), c, Pow2(c), Low(a, c), Low(Shift(a, c), c));
      RestFits(a, 2 * c, n);
      StepSpaced(Shift(a, 2 * c), c, n - 1);
      Powers(c);
      Chunks(Pow2(c), Low(a, c), Low(Shift(a, c), c), Spaced(Shift(a, 2 * c), c));
    }
  }

  lemma Chunks(p: nat, l: nat, h: nat, rest: nat)
    ensures l + p * (p * h) + (p * p) * (p * p) * rest == l + (p * p) * (h + (p * p) * rest)
  {
    var q := p * p;
    assert p * (p * h) == q * h;
    assert q * q * rest == q * (q * rest);
  }

  lemma Nothing(c: nat)
    requires c > 0
    ensures Pow2(0) == 1 && Spaced(0, 2 * c) == 0 && Spaced(0, c) == 0 && Step(0, c, Mask(c, 0)) == 0
  {
  }

  lemma LowParts(a: nat, c: nat)
    ensures Low(Low(a, 2 * c), c) == Low(a, c) && Shift(Low(a, 2 * c), c) == Low(Shift(a, c), c)
  {
    hide Low, Shift, Pow2;
    LowBound(Shift(a, c), c);
    LowBound(a, c);
    Pow2Add(c, c);
    SplitAt(a, c);
    SplitAt(Shift(a, c), c);
    ShiftShift(a, c, c);
    SplitAt(a, 2 * c);
    LowBound(a, 2 * c);
    var p, l, m, s := Pow2(c), Low(a, c), Low(Shift(a, c), c), Shift(a, 2 * c);
    assert a == l + p * (m + p * s);
    assert p * (m + p * s) == p * m + (p * p) * s;
    assert Low(a, 2 * c) == l + p * m;
    AddHigh(l, c, m, c);
    LowSmall(l, c);
    Pow0(c);
  }

  lemma Pow0(c: nat)
    ensures Pow2(c - c) == 1
  {
  }

  lemma RestFits(a: nat, w: nat, n: nat)
    requires n > 0 && a < Pow2(w * n)
    ensures Shift(a, w) < Pow2(w * (n - 1))
  {
    hide Shift, Low, Pow2;
    SplitAt(a, w);
    assert w * n == w + w * (n - 1);
    Pow2Add(w, w * (n - 1));
    var p, q, s := Pow2(w), Pow2(w * (n - 1)), Shift(a, w);
    MulStep(q - 1, s, p);
    assert (q - 1) * p + p == p * q && s * p == p * s;
  }

  // ---- the masks -----------------------------------------------------------------------------------

  /** A mask by its repeated slot. */
  function Repeat(slot: nat, width: nat, n: nat): nat {
    if n == 0 then 0 else slot + width * Repeat(slot, width, n - 1)
  }

  lemma {:induction false} MaskRepeats(c: nat, n: nat)
    ensures Mask(c, n) == Repeat(Pair(c), Pow2(4 * c), n)
    decreases n
  {
    hide Pow2, Pair;
    if n > 0 {
      MaskRepeats(c, n - 1);
    }
  }

  /** Twice as many slots of half the width. */
  lemma {:induction false} RepeatTwice(slot: nat, width: nat, n: nat)
    ensures Repeat(slot, width, 2 * n) == Repeat(slot + width * slot, width * width, n)
    decreases n
  {
    if n > 0 {
      hide Repeat;
      RepeatTwice(slot, width, n - 1);
      RepeatNext(slot, width, 2 * n - 1);
      RepeatNext(slot, width, 2 * n - 2);
      RepeatNext(slot + width * slot, width * width, n - 1);
      Nest(slot, width, Repeat(slot, width, 2 * n - 2));
    }
  }

  lemma RepeatNext(slot: nat, width: nat, n: nat)
    ensures Repeat(slot, width, n + 1) == slot + width * Repeat(slot, width, n)
  {
  }

  lemma Nest(slot: nat, width: nat, r: nat)
    ensures slot + width * (slot + width * r) == slot + width * slot + width * width * r
  {
    assert width * (width * r) == width * width * r;
  }

  lemma OnceRepeated(slot: nat, width: nat)
    ensures Repeat(slot, width, 1) == slot
  {
    assert Repeat(slot, width, 0) == 0;
  }

  lemma MaskValue1()
    ensures Mask(1, 32) == 0x5555_5555_5555_5555_5555_5555_5555_5555
  {
    hide Mask, Repeat, Pair, Pow2;
    MaskRepeats(1, 32);
    SlotValue1();
    RepeatTwice(0x0005, 0x0010, 16);
    RepeatTwice(0x0055, 0x0100, 8);
    RepeatTwice(0x5555, 0x0001_0000, 4);
    RepeatTwice(0x5555_5555, 0x0001_0000_0000, 2);
    RepeatTwice(0x5555_5555_5555_5555, 0x0001_0000_0000_0000_0000, 1);
    OnceRepeated(0x5555_5555_5555_5555_5555_5555_5555_5555, 0x0001_0000_0000_0000_0000_0000_0000_0000_0000);
  }

  lemma MaskValue2()
    ensures Mask(2, 16) == 0x3333_3333_3333_3333_3333_3333_3333_3333
  {
    hide Mask, Repeat, Pair, Pow2;
    MaskRepeats(2, 16);
    SlotValue2();
    RepeatTwice(0x0033, 0x0100, 8);
    RepeatTwice(0x3333, 0x0001_0000, 4);
    RepeatTwice(0x3333_3333, 0x0001_0000_0000, 2);
    RepeatTwice(0x3333_3333_3333_3333, 0x0001_0000_0000_0000_0000, 1);
    OnceRepeated(0x3333_3333_3333_3333_3333_3333_3333_3333, 0x0001_0000_0000_0000_0000_0000_0000_0000_0000);
  }

  lemma MaskValue4()
    ensures Mask(4, 8) == 0x0F0F_0F0F_0F0F_0F0F_0F0F_0F0F_0F0F_0F0F
  {
    hide Mask, Repeat, Pair, Pow2;
    MaskRepeats(4, 8);
    SlotValue4();
    RepeatTwice(0x0F0F, 0x0001_0000, 4);
    RepeatTwice(0x0F0F_0F0F, 0x0001_0000_0000, 2);
    RepeatTwice(0x0F0F_0F0F_0F0F_0F0F, 0x0001_0000_0000_0000_0000, 1);
    OnceRepeated(0x0F0F_0F0F_0F0F_0F0F_0F0F_0F0F_0F0F_0F0F, 0x0001_0000_0000_0000_0000_0000_0000_0000_0000);
  }

  lemma MaskValue8()
    ensures Mask(8, 4) == 0x00FF_00FF_00FF_00FF_00FF_00FF_00FF_00FF
  {
    hide Mask, Repeat, Pair, Pow2;
    MaskRepeats(8, 4);
    SlotValue8();
    RepeatTwice(0x00FF_00FF, 0x0001_0000_0000, 2);
    RepeatTwice(0x00FF_00FF_00FF_00FF, 0x0001_0000_0000_0000_0000, 1);
    OnceRepeated(0x00FF_00FF_00FF_00FF_00FF_00FF_00FF_00FF, 0x0001_0000_0000_0000_0000_0000_0000_0000_0000);
  }

  lemma MaskValue16()
    ensures Mask(16, 2) == 0xFFFF_0000_FFFF_0000_FFFF_0000_FFFF
  {
    hide Mask, Repeat, Pair, Pow2;
    MaskRepeats(16, 2);
    SlotValue16();
    RepeatTwice(0xFFFF_0000_FFFF, 0x0001_0000_0000_0000_0000, 1);
    OnceRepeated(0xFFFF_0000_FFFF_0000_FFFF_0000_FFFF, 0x0001_0000_0000_0000_0000_0000_0000_0000_0000);
  }

  lemma MaskValue32()
    ensures Mask(32, 1) == 0xFFFF_FFFF_0000_0000_FFFF_FFFF
  {
    hide Mask, Repeat, Pair, Pow2;
    MaskRepeats(32, 1);
    SlotValue32();
    OnceRepeated(0xFFFF_FFFF_0000_0000_FFFF_FFFF, 0x0001_0000_0000_0000_0000_0000_0000_0000_0000);
  }

  lemma PowerValues()
    ensures Pow2(1) == 2 && Pow2(2) == 4 && Pow2(4) == 0x10 && Pow2(8) == 0x100 && Pow2(16) == 0x1_0000
    ensures Pow2(32) == 0x1_0000_0000 && Pow2(64) == 0x1_0000_0000_0000_0000
    ensures Pow2(128) == 0x1_0000_0000_0000_0000_0000_0000_0000_0000
  {
    hide Pow2;
    One(0);
    Doubled(1, 0);
    Doubled(2, 0);
    Pow2Add(2, 2);
    Pow2Add(4, 4);
    Pow2Add(8, 8);
    Pow2Add(16, 16);
    Pow2Add(32, 32);
    Pow2Add(64, 64);
  }

  lemma SlotValue1()
    ensures Pair(1) == 0x0005 && Pow2(4) == 0x0010
  {
    hide Pow2;
    PowerValues();
  }

  lemma SlotValue2()
    ensures Pair(2) == 0x0033 && Pow2(8) == 0x0100
  {
    hide Pow2;
    PowerValues();
  }

  lemma SlotValue4()
    ensures Pair(4) == 0x0F0F && Pow2(16) == 0x0001_0000
  {
    hide Pow2;
    PowerValues();
  }

  lemma SlotValue8()
    ensures Pair(8) == 0x00FF_00FF && Pow2(32) == 0x0001_0000_0000
  {
    hide Pow2;
    PowerValues();
  }

  lemma SlotValue16()
    ensures Pair(16) == 0xFFFF_0000_FFFF && Pow2(64) == 0x0001_0000_0000_0000_0000
  {
    hide Pow2;
    PowerValues();
  }

  lemma SlotValue32()
    ensures Pair(32) == 0xFFFF_FFFF_0000_0000_FFFF_FFFF && Pow2(128) == 0x0001_0000_0000_0000_0000_0000_0000_0000_0000
  {
    hide Pow2;
    PowerValues();
  }

  // ---- squares -------------------------------------------------------------------------------------

  /** spread: each half, quarter, .. of the word moved apart, down to single bits. */
  function Spread(a: nat): nat {
    var x32 := Step(a, 32, 0x0000_0000_FFFF_FFFF_0000_0000_FFFF_FFFF);
    var x16 := Step(x32, 16, 0x0000_FFFF_0000_FFFF_0000_FFFF_0000_FFFF);
    var x8 := Step(x16, 8, 0x00FF_00FF_00FF_00FF_00FF_00FF_00FF_00FF);
    var x4 := Step(x8, 4, 0x0F0F_0F0F_0F0F_0F0F_0F0F_0F0F_0F0F_0F0F);
    var x2 := Step(x4, 2, 0x3333_3333_3333_3333_3333_3333_3333_3333);
    Step(x2, 1, 0x5555_5555_5555_5555_5555_5555_5555_5555)
  }

  lemma OneChunk(a: nat, c: nat)
    requires c > 0 && a < Pow2(c)
    ensures Spaced(a, c) == a
  {
    hide Spaced, Pow2;
    SpacedNext(a, c);
    LowSmall(a, c);
    SpacedZero(c);
    assert Pow2(2 * c) * 0 == 0;
  }

  lemma SpacedZero(c: nat)
    requires c > 0
    ensures Spaced(0, c) == 0
  {
  }

  lemma SpreadIsSpaced(a: nat)
    requires a < Pow2(64)
    ensures Spread(a) == Spaced(a, 1)
  {
    hide Step, Spaced, Mask, Pow2;
    OneChunk(a, 64);
    MaskValue32();
    MaskValue16();
    MaskValue8();
    MaskValue4();
    MaskValue2();
    MaskValue1();
    StepSpaced(a, 32, 1);
    StepSpaced(a, 16, 2);
    StepSpaced(a, 8, 4);
    StepSpaced(a, 4, 8);
    StepSpaced(a, 2, 16);
    StepSpaced(a, 1, 32);
  }

  /** The carry-less square has the bits at twice their places. */
  lemma {:induction false} SquareIsSpaced(a: nat)
    ensures Clmul(a, a) == Spaced(a, 1)
    decreases a
  {
    hide Clmul, Spaced, Xor;
    if a == 0 {
      ClZero(0);
      SpacedZero(1);
    } else {
      var h := a / 2;
      SquareIsSpaced(h);
      SpacedBit(a);
      ClStep(a, a);
      ClComm(a, h);
      ClStep(h, a);
      var s := Clmul(h, h);
      if a % 2 == 1 {
        XorDouble(h, 2 * s);
        XorAssoc(a, 2 * h, 4 * s);
        XorStep(a, 2 * h);
        XorSelf(h);
        OddFirst(s);
      } else {
        XorNone(2 * s);
        XorNone(4 * s);
      }
    }
  }

  lemma SpacedBit(a: nat)
    ensures Spaced(a, 1) == a % 2 + 4 * Spaced(a / 2, 1)
  {
    SpacedNext(a, 1);
    assert Pow2(2) == 4 && Low(a, 1) == a % 2 && Shift(a, 1) == a / 2;
  }

  lemma OddFirst(s: nat)
    ensures Xor(1, 4 * s) == 1 + 4 * s
  {
    XorStep(1, 4 * s);
    XorNone(2 * s);
  }

  /** spread is the carry-less square, for every word. */
  lemma SpreadSquares(a: nat)
    requires a < Pow2(64)
    ensures Spread(a) == Clmul(a, a)
  {
    hide Spread, Spaced, Clmul;
    SpreadIsSpaced(a);
    SquareIsSpaced(a);
  }

  /** K::square. */
  lemma KSquare(a: Limb)
    ensures Reduce(Spread(a)) == KMul(a, a)
  {
    hide Spread, Clmul, Reduce, Pow2;
    LimbPower();
    SpreadSquares(a);
  }

  /** E::square: with y^4 = y^2 + y, three spread limbs. */
  lemma ESquare(a: Elem)
    ensures EMul(a, a) == Elem(KMul(a.c0, a.c0), KMul(a.c2, a.c2), KAdd(KMul(a.c1, a.c1), KMul(a.c2, a.c2)))
    ensures Reduce(Xor(Spread(a.c1), Spread(a.c2))) == KAdd(KMul(a.c1, a.c1), KMul(a.c2, a.c2))
    ensures Reduce(Spread(a.c0)) == KMul(a.c0, a.c0) && Reduce(Spread(a.c2)) == KMul(a.c2, a.c2)
  {
    hide Spread, Clmul, Reduce, Pow2, KMul, KAdd, EMul, Xor;
    MulIsSchoolbook(a, a);
    CrossCancels(a.c0, a.c1);
    CrossCancels(a.c1, a.c2);
    CrossCancels(a.c0, a.c2);
    KSquare(a.c0);
    KSquare(a.c1);
    KSquare(a.c2);
    KZeroAdd(KMul(a.c0, a.c0));
    KZeroAdd(KMul(a.c2, a.c2));
    KZeroAdd(KMul(a.c1, a.c1));
    SquaresAdd(a.c1, a.c2);
  }

  lemma CrossCancels(x: Limb, y: Limb)
    ensures KAdd(KMul(x, y), KMul(y, x)) == 0
  {
    hide KMul, KAdd;
    KComm(x, y);
    KOne(KMul(x, y));
  }

  lemma KZeroAdd(x: Limb)
    ensures KAdd(x, 0) == x && KAdd(0, x) == x && KAdd(0, 0) == 0
  {
    KOne(x);
    KOne(0);
  }

  lemma SquaresAdd(x: Limb, y: Limb)
    ensures Reduce(Xor(Spread(x), Spread(y))) == KAdd(KMul(x, x), KMul(y, y))
  {
    hide Spread, Clmul, Reduce, Pow2, Xor;
    LimbPower();
    SpreadSquares(x);
    SpreadSquares(y);
    ProductBound(x, x);
    ProductBound(y, y);
    ReduceAdd(Clmul(x, x), Clmul(y, y));
  }
}
