/** Bit decompositions in the guest: prover-chosen bits, each forced to 0 or 1 by a write-once
    square, and what they add and multiply up to. */
module GuestBits {
  import opened Rings
  import opened Multilinear
  import opened Bits
  import opened GuestField
  import opened Guest
  import opened GuestChunks

  /** The bits of n below k that the mask keeps, as a number. */
  function Masked(M: Machine, n: nat, k: nat): nat {
    if k == 0 then 0
    else Masked(M, n, k - 1) + if M.Mask1(k - 1) then Pow2(k - 1) * Bit(n, k - 1) else 0
  }

  lemma {:induction false} MaskedSame(M: Machine, n: nat, m: nat, k: nat)
    requires forall s: nat :: s < k ==> Bit(n, s) == Bit(m, s)
    ensures Masked(M, n, k) == Masked(M, m, k)
  {
    if k > 0 {
      MaskedSame(M, n, m, k - 1);
    }
  }

  lemma {:induction false} MaskedBound(M: Machine, n: nat, k: nat)
    ensures Masked(M, n, k) < Pow2(k)
  {
    if k > 0 {
      MaskedBound(M, n, k - 1);
    }
  }

  lemma {:induction false} MaskedZero(M: Machine, n: nat, k: nat)
    ensures Masked(M, n, k) == 0 <==> forall s: nat :: s < k && M.Mask1(s) ==> Bit(n, s) == 0
  {
    hide Bit, Machine.Mask1;
    if k > 0 {
      MaskedZero(M, n, k - 1);
      var p, b := Pow2(k - 1), Bit(n, k - 1);
      assert p * b == if b == 0 then 0 else p;
    }
  }

  /** A cell equal to its own square holds a bit. */
  lemma IsBit(R: Ring, b: Elem)
    requires R.Laws() && R.Domain() && b == R.mul(b, b)
    ensures b == R.zero || b == R.one
  {
    var c := R.add(b, R.one);
    R.Dist(b, b, R.one);
    R.MulOne(b);
    R.AddSelf(b);
    assert R.mul(b, c) == R.zero;
    assert Use(b, c, R.zero);
    R.SumZero(b, R.one);
  }

  lemma BitIsSquare(F: Field, v: nat)
    requires F.R.Laws()
    ensures F.BitElem(v) == F.R.mul(F.BitElem(v), F.BitElem(v))
  {
    F.R.MulOne(F.R.one);
    F.R.MulZero(F.R.zero);
  }

  /** One more bit: b x^k for a bit b is the polynomial of 2^k v. */
  lemma NextBit(F: Field, n: nat, k: nat, v: nat)
    requires F.R.Laws() && n < Pow2(k) && v < 2
    ensures n + Pow2(k) * v < Pow2(k + 1)
    ensures F.Emb(n + Pow2(k) * v) == F.R.add(F.Emb(n), F.R.mul(F.BitElem(v), F.Pow(k)))
  {
    F.EmbSmall();
    assert F.Emb(v) == F.BitElem(v);
    hide Field.Emb, Field.Pow;
    F.EmbSplit(n, k, v);
    F.R.MulComm(F.BitElem(v), F.Pow(k));
    assert Pow2(k) * v <= Pow2(k);
  }

  lemma NextMasked(M: Machine, n: nat, k: nat, v: nat)
    requires n < Pow2(k) && v < 2
    ensures Masked(M, n + Pow2(k) * v, k + 1) == Masked(M, n, k) + if M.Mask1(k) then Pow2(k) * v else 0
  {
    hide Bit, Machine.Mask1;
    var m := n + Pow2(k) * v;
    forall s: nat | s < k
      ensures Bit(m, s) == Bit(n, s)
    {
      BitAppend(n, k, v, s);
    }
    MaskedSame(M, m, n, k);
    BitAppend(n, k, v, k);
  }

  lemma NextLow(e: nat, k: nat)
    ensures Low(e, k + 1) == Low(e, k) + Pow2(k) * Bit(e, k)
  {
    hide Low, Shift, Bit, Pow2;
    SplitAt(e, k);
    LowBound(e, k);
    var u := Shift(e, k);
    BitShift(e, k, 0);
    HalfShift(u);
    var v, w := Bit(e, k), u / 2;
    var m := Low(e, k) + Pow2(k) * v;
    PowSucc(k);
    Regroup(Pow2(k), u, v, w);
    Join(m, k + 1, w);
  }

  lemma Regroup(p: nat, u: nat, v: nat, w: nat)
    requires u == v + 2 * w && v < 2
    ensures p * u == p * v + 2 * p * w && p * v <= p
  {
  }

  lemma HalfShift(u: nat)
    ensures u == Bit(u, 0) + 2 * (u / 2)
  {
  }

  lemma PowSucc(k: nat)
    ensures Pow2(k + 1) == 2 * Pow2(k)
  {
  }

  /** One step of an honest decomposition of e. */
  lemma HonestStep(F: Field, e: nat, k: nat, b: Elem, n: nat)
    requires F.R.Laws() && b == F.BitElem(Bit(e, k)) && n == Low(e, k)
    ensures b == F.R.mul(b, b)
    ensures F.R.one != F.R.zero ==> n + Pow2(k) * (if b == F.R.one then 1 else 0) == Low(e, k + 1)
  {
    hide Low, Bit, Pow2;
    BitIsSquare(F, Bit(e, k));
    NextLow(e, k);
  }

  /** `masked_bits`: the mask's bits of the chunk r1, as a polynomial. */
  method MaskedBits(M: Machine, r1: Elem, bits: seq<seq<Elem>>, ghost e: nat) returns (ok: bool, m: Elem)
    requires M.Valid() && e < TABLE && r1 == M.F.Emb(e)
    ensures ok ==> bits != [] && m == M.F.Emb(Masked(M, e, 16))
    ensures bits != [] && bits[0] == M.BitsOf(e, 16) ==> ok
  {
    hide Field.Emb, Field.Pow, Masked, Low, Bit, Pow2, Machine.Mask1;
    var F, R := M.F, M.F.R;
    m := R.zero;
    if bits == [] || |bits[0]| != 16 {
      return false, m;
    }
    ghost var honest := bits[0] == M.BitsOf(e, 16);
    var acc, k := R.zero, 0;
    ghost var n: nat := 0;
    Start(M, e);
    while k < 16
      invariant 0 <= k <= 16 && n < Pow2(k)
      invariant acc == F.Emb(n) && m == F.Emb(Masked(M, n, k))
      invariant honest ==> n == Low(e, k)
    {
      var b := bits[0][k];
      if honest {
        HonestStep(F, e, k, b, n);
      }
      if b != R.mul(b, b) {
        return false, m;
      }
      IsBit(R, b);
      ghost var v: nat := if b == R.one then 1 else 0;
      var term := R.mul(b, F.Pow(k));
      acc := R.add(acc, term);
      if M.Mask1(k) {
        m := R.add(m, term);
      }
      MaskedBound(M, n, k);
      NextBit(F, n, k, v);
      NextBit(F, Masked(M, n, k), k, v);
      NextMasked(M, n, k, v);
      n := n + Pow2(k) * v;
      k := k + 1;
    }
    ok := acc == r1;
    Finish(F, e, n);
    if honest {
      LowSmall(e, 16);
    }
  }

  lemma Start(M: Machine, e: nat)
    requires M.F.R.Laws()
    ensures M.F.Emb(0) == M.F.R.zero && Masked(M, 0, 0) == 0 && Low(e, 0) == 0 && 0 < Pow2(0)
  {
  }

  /** Sixteen bits that add up to a chunk are the chunk. */
  lemma Finish(F: Field, e: nat, n: nat)
    requires F.Valid() && e < TABLE && n < Pow2(16)
    ensures F.Emb(n) == F.Emb(e) ==> n == e
    ensures e < Pow2(16)
  {
    hide Field.Emb, Field.Pow;
    Pow2Values();
    Pow2Mono(16, 64);
    if F.Emb(n) == F.Emb(e) {
      F.EmbInjective(n, e);
    }
  }

  // ---- one digest at a time --------------------------------------------------------------------

  /** r0 and the masked part of r1, as one polynomial: zero exactly for a hit. */
  lemma JudgeChunks(M: Machine, j: nat)
    requires M.Valid()
    ensures var F, R, m := M.F, M.F.R, Masked(M, M.Chunk(j, 1), 16);
      && (R.add(F.Emb(M.Chunk(j, 0)), R.mul(F.Pow(16), F.Emb(m))) == R.zero <==> M.Hit(j))
      && ((F.Emb(M.Chunk(j, 0)) == R.zero && F.Emb(m) == R.zero) <==> M.Hit(j))
  {
    hide Field.Emb, Field.Pow, Masked, Machine.Chunk, Machine.Hit, Machine.Mask1, Bit, Pow2;
    Pow2Values();
    var F, R, m, c := M.F, M.F.R, Masked(M, M.Chunk(j, 1), 16), M.Chunk(j, 0);
    HitOnChunks(M, j);
    MaskedZero(M, M.Chunk(j, 1), 16);
    MaskedBound(M, M.Chunk(j, 1), 16);
    ChunksSmall(M, j);
    F.EmbSplit(c, 16, m);
    ZeroOnly(F, c + Pow2(16) * m);
    ZeroOnly(F, m);
    ZeroOnly(F, c);
  }

  lemma ZeroOnly(F: Field, n: nat)
    requires F.Valid()
    ensures n < Pow2(16) * Pow2(16) ==> (F.Emb(n) == F.R.zero <==> n == 0)
    ensures n < Pow2(16) ==> n < Pow2(16) * Pow2(16)
  {
    F.EmbSmall();
    hide Field.Emb, Field.Pow, Pow2;
    Pow2Values();
    Pow2Add(16, 16);
    Pow2Mono(32, 64);
    if n < Pow2(16) * Pow2(16) && F.Emb(n) == F.R.zero {
      F.EmbInjective(n, 0);
    }
  }
}
