/** The signer's bit tricks (sphincs.c): ten 3-bit fields summed at once, the codeword of an
    encoding digest, and index extraction, against the arithmetic of the reference
    (sphincs_ref.py). Words are naturals below 2^32. */
module Codewords {
  import opened Multilinear
  import opened Bits

  const CHAINS := 42
  const TARGET_SUM := 191
  const FIELD_MASK := 0x071C71C7

  datatype Option<T> = None | Some(value: T)

  lemma AndMasks(x: nat)
    ensures And(x, 7) == Low(x, 3) && And(x, 63) == Low(x, 6) && And(x, 1) == x % 2
  {
    assert Pow2(3) == 8 && Pow2(6) == 8 * Pow2(3);
    AndLow(x, 1);
    AndLow(x, 3);
    AndLow(x, 6);
    assert Low(x, 1) == x % 2 + 2 * Low(x / 2, 0);
  }

  /** The straddling position: two bits from one word, one from the next. */
  lemma OrBits(a: nat, b: nat)
    requires a < 4 && b < 2
    ensures Or(a, 4 * b) == a + 4 * b
  {
    assert Or(a / 4, b) == b by {
      assert Or(0, b / 2) == 0;
    }
    assert 4 * b / 2 == 2 * b && 2 * b / 2 == b;
    assert Or(a / 2, 2 * b) == a / 2 % 2 + 2 * Or(a / 2 / 2, b);
  }

  // ---- ten fields at once ----------------------------------------------------------------------

  /** The sum of the first n 3-bit fields. */
  function Fields(x: nat, n: nat): nat
    decreases n
  {
    if n == 0 then 0 else Low(x, 3) + Fields(Shift(x, 3), n - 1)
  }

  /** 7 in every other 3-bit field. */
  function Mask(n: nat): nat {
    if n == 0 then 0 else 7 + 64 * Mask(n - 1)
  }

  function Evens(x: nat, n: nat): nat
    decreases n
  {
    if n == 0 then 0 else Low(x, 3) + 64 * Evens(Shift(x, 6), n - 1)
  }

  /** Neighbouring fields added in place. */
  function Pairs(x: nat, n: nat): nat
    decreases n
  {
    if n == 0 then 0 else Low(x, 3) + Low(Shift(x, 3), 3) + 64 * Pairs(Shift(x, 6), n - 1)
  }

  function DigitSum(y: nat, n: nat): nat
    decreases n
  {
    if n == 0 then 0 else Low(y, 6) + DigitSum(Shift(y, 6), n - 1)
  }

  lemma ThreeHalves(x: nat)
    ensures Shift(x, 3) == x / 2 / 2 / 2 && Low(x, 3) == x % 2 + 2 * (x / 2 % 2) + 4 * (x / 2 / 2 % 2)
  {
    assert Shift(x, 3) == Shift(x / 2, 2) == Shift(x / 2 / 2, 1) == Shift(x / 2 / 2 / 2, 0);
    assert Low(x / 2 / 2 / 2, 0) == 0;
    assert Low(x / 2, 2) == x / 2 % 2 + 2 * Low(x / 2 / 2, 1);
  }

  lemma AndThree(x: nat, m: nat)
    ensures And(x, 7 + 8 * m) == Low(x, 3) + 8 * And(Shift(x, 3), m)
    ensures And(x, 8 * m) == 8 * And(Shift(x, 3), m)
  {
    ThreeHalves(x);
    hide And, Low, Shift;
    AndStep(x, 4 * m + 3);
    AndStep(x / 2, 2 * m + 1);
    AndStep(x, 4 * m);
    AndStep(x / 2, 2 * m);
    AndStep(x / 2 / 2, m);
    assert 2 * (4 * m + 3) + 1 == 7 + 8 * m && 2 * (2 * m + 1) + 1 == 4 * m + 3;
  }

  /** One 6-bit group of the mask. */
  lemma AndGroup(x: nat, m: nat)
    ensures And(x, 7 + 64 * m) == Low(x, 3) + 64 * And(Shift(x, 6), m)
  {
    hide And, Low, Shift;
    AndThree(x, 8 * m);
    AndThree(Shift(x, 3), m);
    ShiftShift(x, 3, 3);
  }

  lemma {:induction false} AndMask(x: nat, n: nat)
    ensures And(x, Mask(n)) == Evens(x, n)
    decreases n
  {
    if n > 0 {
      AndMask(Shift(x, 6), n - 1);
      AndGroup(x, Mask(n - 1));
    }
  }

  lemma {:induction false} EvensPair(x: nat, n: nat)
    ensures Evens(x, n) + Evens(Shift(x, 3), n) == Pairs(x, n)
    decreases n
  {
    if n > 0 {
      EvensPair(Shift(x, 6), n - 1);
      ShiftShift(x, 3, 6);
      ShiftShift(x, 6, 3);
      hide Shift, Low;
    }
  }

  lemma ThreeBits(x: nat)
    ensures Low(x, 3) < 8
  {
    LowBound(x, 3);
    assert Pow2(3) == 8;
  }

  lemma SixBits()
    ensures Pow2(6) == 64
  {
    assert Pow2(3) == 8 && Pow2(6) == 8 * Pow2(3);
  }

  /** Each pair of fields fits its six bits, so no carry crosses, and the digits are the pairs. */
  lemma {:induction false} PairDigits(x: nat, n: nat)
    ensures DigitSum(Pairs(x, n), n) == Fields(x, 2 * n)
    decreases n
  {
    if n > 0 {
      hide Shift, Low, Pow2;
      var a, rest := Low(x, 3) + Low(Shift(x, 3), 3), Pairs(Shift(x, 6), n - 1);
      ThreeBits(x);
      ThreeBits(Shift(x, 3));
      SixBits();
      Join(a, 6, rest);
      PairDigits(Shift(x, 6), n - 1);
      ShiftShift(x, 3, 3);
      assert Fields(x, 2 * n) == Low(x, 3) + Fields(Shift(x, 3), 2 * n - 1);
      assert Fields(Shift(x, 3), 2 * n - 1) == Low(Shift(x, 3), 3) + Fields(Shift(x, 6), 2 * (n - 1));
    }
  }

  lemma {:induction false} PairsBound(x: nat, n: nat)
    ensures Pairs(x, n) < Pow2(6 * n)
    decreases n
  {
    if n == 0 {
      assert Pow2(0) == 1;
    } else {
      hide Shift, Low;
      PairsBound(Shift(x, 6), n - 1);
      ThreeBits(x);
      ThreeBits(Shift(x, 3));
      SixBits();
      Pow2Add(6, 6 * (n - 1));
    }
  }

  /** `sum10`, with its 32-bit addition. */
  function Sum10(x: nat): nat {
    var y := (And(x, FIELD_MASK) + And(Shift(x, 3), FIELD_MASK)) % 0x1_0000_0000;
    And(y, 63) + And(Shift(y, 6), 63) + And(Shift(y, 12), 63) + And(Shift(y, 18), 63) + And(Shift(y, 24), 63)
  }

  lemma MaskIs()
    ensures FIELD_MASK == Mask(5) && Pow2(30) < 0x1_0000_0000
  {
    assert Mask(1) == 7;
    assert Mask(2) == 455;
    assert Mask(3) == 29127;
    assert Mask(4) == 7 + 64 * Mask(3);
    Pow2Values();
    assert Pow2(2) == 4;
    Pow2Add(16, 8);
    Pow2Add(4, 2);
    Pow2Add(24, 6);
  }

  lemma DigitSums(y: nat)
    ensures DigitSum(y, 5) == Low(y, 6) + Low(Shift(y, 6), 6) + Low(Shift(y, 12), 6) + Low(Shift(y, 18), 6) + Low(Shift(y, 24), 6)
  {
    hide Shift, Low;
    ShiftShift(y, 6, 6);
    ShiftShift(y, 12, 6);
    ShiftShift(y, 18, 6);
    var a, b, c, d := Shift(y, 6), Shift(y, 12), Shift(y, 18), Shift(y, 24);
    assert DigitSum(d, 1) == Low(d, 6) + DigitSum(Shift(d, 6), 0);
    assert DigitSum(c, 2) == Low(c, 6) + DigitSum(d, 1);
    assert DigitSum(b, 3) == Low(b, 6) + DigitSum(c, 2);
    assert DigitSum(a, 4) == Low(a, 6) + DigitSum(b, 3);
  }

  /** The ten fields, summed in five digits. */
  lemma Sum10IsFields(x: nat)
    ensures Sum10(x) == Fields(x, 10)
  {
    hide Shift, Low, And, Pairs, DigitSum, Fields, Evens, Mask, Pow2;
    MaskIs();
    AndMask(x, 5);
    AndMask(Shift(x, 3), 5);
    EvensPair(x, 5);
    PairsBound(x, 5);
    PairDigits(x, 5);
    var y := Pairs(x, 5);
    DigitSums(y);
    AndMasks(y);
    AndMasks(Shift(y, 6));
    AndMasks(Shift(y, 12));
    AndMasks(Shift(y, 18));
    AndMasks(Shift(y, 24));
  }

  // ---- half a digest ---------------------------------------------------------------------------

  lemma {:induction false} FieldsConcat(x: nat, m: nat, n: nat)
    ensures Fields(x, m + n) == Fields(x, m) + Fields(Shift(x, 3 * m), n)
    decreases m
  {
    if m == 0 {
      assert Shift(x, 0) == x;
    } else {
      FieldsConcat(Shift(x, 3), m - 1, n);
      ShiftShift(x, 3, 3 * (m - 1));
      hide Shift, Low;
      assert 3 + 3 * (m - 1) == 3 * m;
    }
  }

  lemma {:induction false} FieldsBelow(a: nat, k: nat, v: nat, n: nat)
    requires 3 * n <= k
    ensures Fields(a + Pow2(k) * v, n) == Fields(a, n)
    decreases n
  {
    if n > 0 {
      hide Shift, Low, Pow2;
      AddHigh(a, k, v, 3);
      FieldsBelow(Shift(a, 3), k - 3, v, n - 1);
    }
  }

  /** A 64-bit half from its two words. */
  function Half(lo: nat, hi: nat): nat {
    lo + 0x1_0000_0000 * hi
  }

  lemma WordPower()
    ensures Pow2(32) == 0x1_0000_0000 && Pow2(2) == 4
  {
    Pow2Values();
    Pow2Add(16, 16);
  }

  /** What the code adds for one half is the sum of its 21 positions. */
  lemma HalfSum(lo: nat, hi: nat)
    requires lo < 0x1_0000_0000
    ensures Sum10(lo) + Or(Shift(lo, 30), 4 * And(hi, 1)) + Sum10(Shift(hi, 1)) == Fields(Half(lo, hi), 21)
  {
    hide Shift, Low, Pow2, Sum10, Or, And, Fields;
    var half := Half(lo, hi);
    WordPower();
    Sum10IsFields(lo);
    Sum10IsFields(Shift(hi, 1));
    AndMasks(hi);
    FieldsConcat(half, 10, 11);
    FieldsConcat(Shift(half, 30), 1, 10);
    FieldsBelow(lo, 32, hi, 10);
    ShiftShift(half, 30, 3);
    Join(lo, 32, hi);
    ShiftShift(half, 32, 1);
    AddHigh(lo, 32, hi, 30);
    ShiftBound(lo, 30, 2);
    OrBits(Shift(lo, 30), hi % 2);
    ThirdBit(Shift(lo, 30), hi);
    OneField(Shift(half, 30));
  }

  lemma OneField(x: nat)
    ensures Fields(x, 1) == Low(x, 3)
  {
    assert Fields(Shift(x, 3), 0) == 0;
  }

  lemma ThirdBit(a: nat, hi: nat)
    requires a < 4
    ensures Low(a + 4 * hi, 3) == a + 4 * (hi % 2)
  {
    var n := a + 4 * hi;
    assert n % 2 == a % 2 && n / 2 == a / 2 + 2 * hi && n / 2 % 2 == a / 2 && n / 2 / 2 == hi;
    ThreeHalves(n);
  }

  // ---- codewords -------------------------------------------------------------------------------

  /** The 21 positions of a half. */
  function Positions(half: nat, n: nat): (x: seq<nat>)
    ensures |x| == n
    ensures forall r :: 0 <= r < n ==> x[r] == Low(Shift(half, 3 * r), 3)
  {
    seq(n, r requires 0 <= r < n => Low(Shift(half, 3 * r), 3))
  }

  function SeqSum(x: seq<nat>): nat {
    if x == [] then 0 else SeqSum(x[..|x| - 1]) + x[|x| - 1]
  }

  lemma {:induction false} SeqSumConcat(x: seq<nat>, y: seq<nat>)
    ensures SeqSum(x + y) == SeqSum(x) + SeqSum(y)
  {
    if y == [] {
      assert x + y == x;
    } else {
      var l := |y| - 1;
      assert (x + y)[..|x + y| - 1] == x + y[..l];
      SeqSumConcat(x, y[..l]);
    }
  }

  lemma {:induction false} PositionsSum(half: nat, n: nat)
    ensures SeqSum(Positions(half, n)) == Fields(half, n)
  {
    if n > 0 {
      hide Shift, Low;
      PositionsSum(half, n - 1);
      assert Positions(half, n)[..n - 1] == Positions(half, n - 1);
      FieldsConcat(half, n - 1, 1);
      OneField(Shift(half, 3 * (n - 1)));
    }
  }

  /** The reference's codeword: two 64-bit halves, 21 positions each, a zero top bit, and the
      target sum. */
  function ReferenceCodeword(d: seq<nat>): Option<seq<nat>>
    requires |d| == 4
  {
    var h0, h1 := Half(d[0], d[1]), Half(d[2], d[3]);
    if Shift(h0, 63) != 0 || Shift(h1, 63) != 0 then None
    else
      var x := Positions(h0, 21) + Positions(h1, 21);
      if SeqSum(x) == TARGET_SUM then Some(x) else None
  }

  /** How far each chain is still to walk. */
  function Remaining(x: seq<nat>): (r: seq<nat>)
    ensures |r| == |x| && forall i :: 0 <= i < |x| ==> r[i] == if x[i] <= 7 then 7 - x[i] else 0
  {
    seq(|x|, i requires 0 <= i < |x| => if x[i] <= 7 then 7 - x[i] else 0)
  }

  lemma {:induction false} RemainingSum(x: seq<nat>)
    requires forall i :: 0 <= i < |x| ==> x[i] <= 7
    ensures SeqSum(Remaining(x)) == 7 * |x| - SeqSum(x)
  {
    if x != [] {
      var l := |x| - 1;
      RemainingSum(x[..l]);
      assert Remaining(x)[..l] == Remaining(x[..l]);
    }
  }

  /** Whatever is signed, the signer walks 191 steps in all and the verifier the 103 that are left. */
  lemma WalksConstant(d: seq<nat>)
    requires |d| == 4 && ReferenceCodeword(d).Some?
    ensures var x := ReferenceCodeword(d).value;
      |x| == 42 && (forall i :: 0 <= i < 42 ==> x[i] <= 7) && SeqSum(x) == 191 && SeqSum(Remaining(x)) == 103
  {
    hide Shift, Half, SeqSum, Low;
    var x := ReferenceCodeword(d).value;
    forall n: nat
      ensures Low(n, 3) < 8
    {
      ThreeBits(n);
    }
    RemainingSum(x);
  }

  ghost predicate Words(d: seq<nat>) {
    forall i :: 0 <= i < |d| ==> d[i] < 0x1_0000_0000
  }

  /** `codeword`: it accepts the same digests as the reference, with the same positions. */
  method Codeword(x: array<nat>, d: seq<nat>) returns (ok: bool)
    requires x.Length == CHAINS && |d| == 4 && Words(d)
    modifies x
    ensures ReferenceCodeword(d) == if ok then Some(x[..]) else None
  {
    hide Shift, Low, Or, And, Sum10, Fields, SeqSum, Half;
    TopBits(d);
    if Shift(Or(d[1], d[3]), 31) != 0 {
      return false;
    }
    var sum, q := 0, 0;
    HalfSum(d[0], d[1]);
    HalfSum(d[2], d[3]);
    while q < 2
      invariant 0 <= q <= 2
      invariant sum == (if q > 0 then Fields(Half(d[0], d[1]), 21) else 0) + (if q > 1 then Fields(Half(d[2], d[3]), 21) else 0)
    {
      var lo, hi := d[2 * q], d[2 * q + 1];
      sum := sum + Sum10(lo) + Or(Shift(lo, 30), 4 * And(hi, 1)) + Sum10(Shift(hi, 1));
      q := q + 1;
    }
    ghost var p, p' := Positions(Half(d[0], d[1]), 21), Positions(Half(d[2], d[3]), 21);
    PositionsSum(Half(d[0], d[1]), 21);
    PositionsSum(Half(d[2], d[3]), 21);
    SeqSumConcat(p, p');
    if sum != TARGET_SUM {
      return false;
    }
    q := 0;
    while q < 2
      invariant 0 <= q <= 2
      invariant q > 0 ==> x[..21] == p
      invariant q > 1 ==> x[21..] == p'
    {
      var half, r := Half(d[2 * q], d[2 * q + 1]), 0;
      while r < 21
        invariant 0 <= r <= 21
        invariant x[q * 21..q * 21 + r] == Positions(half, r)
        invariant q > 0 ==> x[..21] == p
      {
        AndMasks(Shift(half, 3 * r));
        ghost var done := x[q * 21..q * 21 + r];
        x[q * 21 + r] := And(Shift(half, 3 * r), 7);
        assert x[q * 21..q * 21 + (r + 1)] == done + [Low(Shift(half, 3 * r), 3)];
        assert Positions(half, r + 1) == Positions(half, r) + [Low(Shift(half, 3 * r), 3)];
        r := r + 1;
      }
      q := q + 1;
    }
    assert x[..] == p + p';
    ok := true;
  }

  /** One test of the two high words' top bits tests both halves. */
  lemma TopBits(d: seq<nat>)
    requires |d| == 4 && Words(d)
    ensures Shift(Or(d[1], d[3]), 31) != 0 <==> Shift(Half(d[0], d[1]), 63) != 0 || Shift(Half(d[2], d[3]), 63) != 0
  {
    hide Shift, Or, Pow2;
    OrTop(d[1], d[3], 31);
    OrNone(Shift(d[1], 31), Shift(d[3], 31));
    WordPower();
    Join(d[0], 32, d[1]);
    Join(d[2], 32, d[3]);
    ShiftShift(Half(d[0], d[1]), 32, 31);
    ShiftShift(Half(d[2], d[3]), 32, 31);
  }

  // ---- index extraction ------------------------------------------------------------------------

  /** A little-endian number from its words. */
  function Number(d: seq<nat>): nat {
    if d == [] then 0 else d[0] + 0x1_0000_0000 * Number(d[1..])
  }

  /** `digest_bits`: bits [off, off + len) through a window of two words. */
  function DigestBits(d: seq<nat>, off: nat, len: nat): nat
    requires off / 32 < |d|
  {
    var w, s := off / 32, off % 32;
    var two := d[w] + 0x1_0000_0000 * (if w + 1 < |d| then d[w + 1] else 0);
    Low(Shift(two, s), len)
  }

  lemma {:induction false} NumberFrom(d: seq<nat>, w: nat)
    requires Words(d) && w <= |d|
    ensures Shift(Number(d), 32 * w) == Number(d[w..])
  {
    if w == 0 {
      assert d[0..] == d && Shift(Number(d), 0) == Number(d);
    } else {
      hide Shift, Pow2;
      NumberFrom(d[1..], w - 1);
      assert d[1..][w - 1..] == d[w..];
      WordPower();
      Join(d[0], 32, Number(d[1..]));
      ShiftShift(Number(d), 32, 32 * (w - 1));
      assert 32 + 32 * (w - 1) == 32 * w;
    }
  }

  /** The window holds exactly the bits of the whole number. */
  lemma DigestBitsExact(d: seq<nat>, off: nat, len: nat)
    requires Words(d) && len <= 32 && off / 32 < |d|
    ensures DigestBits(d, off, len) == Low(Shift(Number(d), off), len)
  {
    hide Shift, Pow2, Low;
    var w, s := off / 32, off % 32;
    var tail := d[w..];
    NumberFrom(d, w);
    ShiftShift(Number(d), 32 * w, s);
    assert 32 * w + s == off;
    assert tail[0] == d[w];
    if w + 1 < |d| {
      var rest := Number(tail[1..][1..]);
      var two := d[w] + 0x1_0000_0000 * d[w + 1];
      WordPower();
      Pow2Add(32, 32);
      assert tail[1..][0] == d[w + 1];
      assert Number(tail) == two + Pow2(64) * rest;
      AddHigh(two, 64, rest, s);
      AddHigh(Shift(two, s), 64 - s, rest, len);
    } else {
      assert tail == [d[w]];
      assert Number([]) == 0;
    }
  }

  /** The reference reads the same bits off the digest's first `kept` bits. */
  lemma ReferenceBits(n: nat, kept: nat, off: nat, len: nat)
    requires off + len <= kept
    ensures Low(Shift(Low(n, kept), off), len) == Low(Shift(n, off), len)
  {
    hide Shift, Pow2, Low;
    SplitAt(n, kept);
    var a, v := Low(n, kept), Shift(n, kept);
    AddHigh(a, kept, v, off);
    AddHigh(Shift(a, off), kept - off, v, len);
  }
}
