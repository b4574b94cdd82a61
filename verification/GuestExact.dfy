/** The proof-of-work guest as a whole (pow.py's main): sound against every memory and every hint,
    complete with the hints main.rs builds. */
module GuestExact {
  import opened Rings
  import opened Multilinear
  import opened Bits
  import opened GuestField
  import opened Guest
  import opened GuestCells
  import opened GuestChunks
  import opened GuestBits
  import opened GuestBlocks
  import opened GuestMain
  import opened GuestProgram

  lemma InputsFill(M: Machine, i: nat)
    requires M.Valid() && PublicInput(M, i) && Written(M, TABLE) && i < Pow2(24)
    ensures Filled(M, i)
  {
    hide Field.Emb, Field.Pow, Machine.Cell, Low, Shift;
    forall k: nat | k <= TOP_INDEX
      ensures M.Cell(k) == M.F.Emb(CellValue(i, k))
    {
      if k >= 2 {
        assert EntryWritten(M, k - TABLE_BASE);
      }
    }
  }

  /** The input's bytes and nibbles. */
  lemma InputParts(i: nat, lo: nat, hi: nat)
    requires lo == Low(i, 16) && hi == Shift(i, 16)
    ensures lo < TABLE && i == TABLE * hi + lo
    ensures var p, r, t := Window(lo, 8, 8), Window(lo, 4, 4), Window(lo, 0, 4);
      p < 256 && r < 16 && t < 16 && lo == 256 * p + 16 * r + t
    ensures hi < 256 <==> i < Pow2(24)
  {
    Pow2Values();
    NoShift(lo);
    hide Low, Shift, Pow2;
    LowBound(i, 16);
    SplitAt(i, 16);
    var s4, s8 := Shift(lo, 4), Shift(lo, 8);
    LowBound(lo, 4);
    LowBound(s4, 4);
    LowBound(s8, 8);
    SplitAt(lo, 4);
    SplitAt(s4, 4);
    ShiftShift(lo, 4, 4);
    ShiftBound(lo, 8, 8);
    LowSmall(s8, 8);
    Pow2Add(16, 8);
  }

  /** The runs of the 256-byte-run loops below hh = n: `for h in mul_range(1, gh)`. */
  method HighLoop(M: Machine, tp: Elem, gh: Elem, h: Hints, ghost i: nat, ghost n: nat, ghost rest: Hints)
    returns (ok: bool, after: Hints)
    requires Filled(M, i) && n <= 255 && tp == M.F.Pow(TABLE_BASE) && gh == M.F.Pow(n)
    ensures ok ==> M.NoHits(0, BLOCK * (4096 * n))
    ensures h == Then(M.BlocksHints(0, 4096 * n), rest) && M.NoHits(0, BLOCK * (4096 * n)) ==> ok && after == rest
  {
    hide Field.Emb, Field.Pow, Machine.Hit, Machine.BlockHints, Machine.BlocksHints, Filled, Field.Valid, Machine.Valid,
         Ring.Laws, Ring.Domain, Then, YX, Machine.NoHits;
    MachineLaws(M, i);
    var F, R := M.F, M.F.R;
    ghost var honest := h == Then(M.BlocksHints(0, 4096 * n), rest) && M.NoHits(0, BLOCK * (4096 * n));
    after, ok := h, true;
    var g := R.one;
    ghost var hh: nat := 0;
    FirstPow(F);
    NoneYet(M, 0);
    while g != gh
      invariant hh <= n && g == F.Pow(hh)
      invariant M.NoHits(0, BLOCK * (4096 * hh))
      invariant honest ==> after == Then(M.BlocksHints(4096 * hh, 4096 * n), rest)
      decreases n - hh
    {
      NextPow(F, hh, n);
      TableRead(M, i, tp, g, hh);
      ghost var at, next, end := 4096 * hh, 4096 * hh + 4096, 4096 * n;
      BlocksSplit(M, at, next, end);
      ThenAssoc(M.BlocksHints(at, next), M.BlocksHints(next, end), rest);
      NoHitsJoin(M, 0, BLOCK * at, BLOCK * end);
      NoHitsJoin(M, BLOCK * at, BLOCK * next, BLOCK * end);
      ok, after := BytesLoop(M, tp, R.mul(YX(F, 40), M.memory[R.mul(tp, g)]), F.Pow(256), after, i, hh, 256,
                             Then(M.BlocksHints(next, end), rest));
      if !ok {
        return;
      }
      NoHitsJoin(M, 0, BLOCK * at, BLOCK * next);
      g := R.mul(g, F.g);
      hh := hh + 1;
    }
    NextPow(F, hh, n);
    NoBlocks(M, 4096 * n, rest);
  }

  lemma {:induction false} WitnessesSplit(M: Machine, a: nat, b: nat, c: nat)
    requires a <= b <= c
    ensures M.Witnesses(a, c) == M.Witnesses(a, b) + M.Witnesses(b, c)
    ensures M.ChunkBits(a, c) == M.ChunkBits(a, b) + M.ChunkBits(b, c)
    decreases b - a
  {
    hide Machine.Witness, Machine.BitsOf, Machine.Chunk;
    if a < b {
      WitnessesSplit(M, a + 1, b, c);
    }
  }

  lemma SinglesSplit(M: Machine, a: nat, b: nat, c: nat)
    requires a <= b <= c
    ensures M.SinglesHints(a, c) == Then(M.SinglesHints(a, b), M.SinglesHints(b, c))
  {
    hide Machine.Witnesses, Machine.ChunkBits;
    WitnessesSplit(M, a, b, c);
  }

  /** What is left of the honest hints for one run, split where the loops meet. */
  lemma AdviceParts(M: Machine, hh: nat, pp: nat, rr: nat, t: nat, i: nat)
    requires i == Number(hh, pp, rr, t) && hh < 256 && pp < 256 && rr < 16 && t < 16
    ensures var a, b, c := BlockNumber(hh, 0, 0), BlockNumber(hh, pp, 0), BlockNumber(hh, pp, rr);
      Then(M.BlocksHints(0, i / BLOCK), M.SinglesHints(BLOCK * (i / BLOCK), i + 1))
      == Then(M.BlocksHints(0, a), Then(M.BlocksHints(a, b), Then(M.BlocksHints(b, c),
           Then(M.SinglesHints(BLOCK * c, BLOCK * c + t), M.SinglesHints(i, i + 1)))))
  {
    hide Machine.BlocksHints, Then, Machine.SinglesHints;
    var a, b, c := BlockNumber(hh, 0, 0), BlockNumber(hh, pp, 0), BlockNumber(hh, pp, rr);
    assert i == BLOCK * c + t && i / BLOCK == c;
    BlocksSplit(M, 0, a, c);
    BlocksSplit(M, a, b, c);
    SinglesSplit(M, BLOCK * c, i, i + 1);
    var singles := M.SinglesHints(BLOCK * c, i + 1);
    ThenAssoc(M.BlocksHints(0, a), M.BlocksHints(a, c), singles);
    ThenAssoc(M.BlocksHints(a, b), M.BlocksHints(b, c), singles);
  }

  /** Everything after the decompositions: every j < i in order, then i itself. */
  method EveryBelow(M: Machine, gh: Elem, gp: Elem, gr: Elem, gt: Elem, h: Hints,
                    ghost i: nat, ghost hh: nat, ghost pp: nat, ghost rr: nat, ghost t: nat)
    returns (ok: bool, after: Hints)
    requires Filled(M, i) && i == Number(hh, pp, rr, t) && hh < 256 && pp < 256 && rr < 16 && t < 16
    requires gh == M.F.Pow(hh) && gp == M.F.Pow(pp) && gr == M.F.Pow(rr) && gt == M.F.Pow(t)
    ensures ok ==> M.SmallestHit(i)
    ensures h == Then(M.BlocksHints(0, i / BLOCK), M.SinglesHints(BLOCK * (i / BLOCK), i + 1)) && M.SmallestHit(i)
            ==> ok && after == NO_HINTS
  {
    hide Field.Emb, Field.Pow, Machine.Hit, Machine.BlocksHints, Filled, Field.Valid, Machine.Valid,
         Ring.Laws, Ring.Domain, Then, YX, Machine.NoHits, Machine.SinglesHints, BytesHints, BytesDone, BlockNumber, Number;
    MachineLaws(M, i);
    var F, R := M.F, M.F.R;
    var tp := F.Pow(TABLE_BASE);
    ghost var rest := BytesHints(M, hh, pp, rr, t, i);
    AllParts(M, hh, pp, rr, t, i);
    ok, after := HighLoop(M, tp, gh, h, i, hh, rest);
    if !ok {
      return;
    }
    TableRead(M, i, tp, gh, hh);
    var hbase := R.mul(YX(F, 40), M.memory[R.mul(tp, gh)]);
    NumberIs(hh, pp, rr, t);
    ok, after := FromBytes(M, tp, hbase, gp, gr, gt, after, i, hh, pp, rr, t);
  }

  /** The runs above the last whole 256-byte run are free of hits, and i is one. */
  ghost predicate BytesDone(M: Machine, hh: nat, pp: nat, rr: nat, i: nat) {
    M.NoHits(BLOCK * BlockNumber(hh, 0, 0), BLOCK * BlockNumber(hh, pp, 0)) && BlocksDone(M, hh, pp, rr, i)
  }

  ghost predicate BlocksDone(M: Machine, hh: nat, pp: nat, rr: nat, i: nat) {
    && M.NoHits(BLOCK * BlockNumber(hh, pp, 0), BLOCK * BlockNumber(hh, pp, rr))
    && M.NoHits(BLOCK * BlockNumber(hh, pp, rr), i)
    && M.Hit(i)
  }

  ghost function BytesHints(M: Machine, hh: nat, pp: nat, rr: nat, t: nat, i: nat): Hints {
    Then(M.BlocksHints(BlockNumber(hh, 0, 0), BlockNumber(hh, pp, 0)), RunHints(M, hh, pp, rr, t, i))
  }

  ghost function RunHints(M: Machine, hh: nat, pp: nat, rr: nat, t: nat, i: nat): Hints {
    var j := BLOCK * BlockNumber(hh, pp, rr);
    Then(M.BlocksHints(BlockNumber(hh, pp, 0), BlockNumber(hh, pp, rr)), Then(M.SinglesHints(j, j + t), M.SinglesHints(i, i + 1)))
  }

  /** The whole range and the whole advice, in the first loop's share and the rest. */
  lemma AllParts(M: Machine, hh: nat, pp: nat, rr: nat, t: nat, i: nat)
    requires i == Number(hh, pp, rr, t) && hh < 256 && pp < 256 && rr < 16 && t < 16
    ensures M.SmallestHit(i) <==> M.NoHits(0, BLOCK * (4096 * hh)) && BytesDone(M, hh, pp, rr, i)
    ensures Then(M.BlocksHints(0, i / BLOCK), M.SinglesHints(BLOCK * (i / BLOCK), i + 1))
         == Then(M.BlocksHints(0, 4096 * hh), BytesHints(M, hh, pp, rr, t, i))
  {
    hide Machine.Hit, Machine.NoHits, Machine.BlocksHints, Then, Machine.SinglesHints, BlockNumber, Number;
    AdviceParts(M, hh, pp, rr, t, i);
    Meets(M, hh, pp, rr, t, i);
  }

  lemma NumberIs(hh: nat, pp: nat, rr: nat, t: nat)
    ensures Number(hh, pp, rr, t) == BLOCK * BlockNumber(hh, pp, rr) + t
  {
  }

  lemma RunEnds(hh: nat, pp: nat, rr: nat)
    ensures BlockNumber(hh, 0, 0) + 16 * pp == BlockNumber(hh, pp, 0)
    ensures BlockNumber(hh, pp, 0) + rr == BlockNumber(hh, pp, rr)
  {
  }

  /** The byte runs, then what is left. */
  method FromBytes(M: Machine, tp: Elem, hbase: Elem, gp: Elem, gr: Elem, gt: Elem, h: Hints,
                   ghost i: nat, ghost hh: nat, ghost pp: nat, ghost rr: nat, ghost t: nat)
    returns (ok: bool, after: Hints)
    requires Filled(M, i) && i == BLOCK * BlockNumber(hh, pp, rr) + t && hh < 256 && pp < 256 && rr < 16 && t < 16
    requires tp == M.F.Pow(TABLE_BASE) && hbase == At(M.F, 40, hh)
    requires gp == M.F.Pow(pp) && gr == M.F.Pow(rr) && gt == M.F.Pow(t)
    ensures ok ==> BytesDone(M, hh, pp, rr, i)
    ensures h == BytesHints(M, hh, pp, rr, t, i) && BytesDone(M, hh, pp, rr, i) ==> ok && after == NO_HINTS
  {
    hide Field.Emb, Field.Pow, Machine.Hit, Machine.BlocksHints, Filled, Field.Valid, Machine.Valid,
         Ring.Laws, Ring.Domain, Then, YX, Machine.NoHits, RunHints, BlocksDone, Number, BlockNumber;
    RunEnds(hh, pp, rr);
    MachineLaws(M, i);
    var F, R := M.F, M.F.R;
    ok, after := BytesLoop(M, tp, hbase, gp, h, i, hh, pp, RunHints(M, hh, pp, rr, t, i));
    if !ok {
      return;
    }
    TableRead(M, i, tp, gp, pp);
    var pbase := R.add(hbase, R.mul(YX(F, 48), M.memory[R.mul(tp, gp)]));
    ok, after := FromBlocks(M, tp, pbase, gr, gt, after, i, hh, pp, rr, t);
  }

  /** The blocks of the last byte run, then i's own block. */
  method FromBlocks(M: Machine, tp: Elem, pbase: Elem, gr: Elem, gt: Elem, h: Hints,
                    ghost i: nat, ghost hh: nat, ghost pp: nat, ghost rr: nat, ghost t: nat)
    returns (ok: bool, after: Hints)
    requires Filled(M, i) && i == BLOCK * BlockNumber(hh, pp, rr) + t && hh < 256 && pp < 256 && rr < 16 && t < 16
    requires tp == M.F.Pow(TABLE_BASE) && pbase == RowBase(M.F, hh, pp) && gr == M.F.Pow(rr) && gt == M.F.Pow(t)
    ensures ok ==> BlocksDone(M, hh, pp, rr, i)
    ensures h == RunHints(M, hh, pp, rr, t, i) && BlocksDone(M, hh, pp, rr, i) ==> ok && after == NO_HINTS
  {
    hide Field.Emb, Field.Pow, Machine.Hit, Machine.BlocksHints, Filled, Field.Valid, Machine.Valid,
         Ring.Laws, Ring.Domain, Then, YX, Machine.NoHits, Machine.SinglesHints, RowBase, BlockNumber;
    RunEnds(hh, pp, rr);
    MachineLaws(M, i);
    var F, R := M.F, M.F.R;
    ghost var j := BLOCK * BlockNumber(hh, pp, rr);
    ok, after := BlocksLoop(M, tp, pbase, gr, h, i, hh, pp, rr, Then(M.SinglesHints(j, j + t), M.SinglesHints(i, i + 1)));
    if !ok {
      return;
    }
    TableRead(M, i, tp, gr, rr);
    var rbase := R.add(pbase, R.mul(YX(F, 60), M.memory[R.mul(tp, gr)]));
    ok, after := LastRun(M, tp, rbase, gt, after, i, hh, pp, rr, t);
  }

  /** The numbers of i's own block below it, and i. */
  method LastRun(M: Machine, tp: Elem, rbase: Elem, gt: Elem, h: Hints,
                 ghost i: nat, ghost hh: nat, ghost pp: nat, ghost rr: nat, ghost t: nat)
    returns (ok: bool, after: Hints)
    requires Filled(M, i) && i == BLOCK * BlockNumber(hh, pp, rr) + t && hh < 256 && pp < 256 && rr < 16 && t < 16
    requires tp == M.F.Pow(TABLE_BASE) && rbase == BlockBase(M.F, hh, pp, rr) && gt == M.F.Pow(t)
    ensures var j := BLOCK * BlockNumber(hh, pp, rr);
      && (ok ==> M.NoHits(j, i) && M.Hit(i))
      && (h == Then(M.SinglesHints(j, j + t), M.SinglesHints(i, i + 1)) && M.NoHits(j, i) && M.Hit(i) ==> ok && after == NO_HINTS)
  {
    hide Field.Emb, Field.Pow, Machine.Hit, Machine.BlockHints, Filled, Field.Valid, Machine.Valid,
         Ring.Laws, Ring.Domain, Then, Machine.NoHits, Machine.SinglesHints, HonestNext, CellOf, BlockNumber, BlockBase;
    MachineLaws(M, i);
    var F, R := M.F, M.F.R;
    ok, after := SlowRun(M, tp, rbase, gt, h, i, hh, pp, rr, t, M.SinglesHints(i, i + 1));
    if !ok {
      return;
    }
    TableRead(M, i, tp, gt, t);
    BlockCell(M, hh, pp, rr, t);
    LastSingle(M, i);
    ok, after := HitHash(M, R.add(rbase, R.mul(YX(F, 56), M.memory[R.mul(tp, gt)])), after, i, i);
  }

  /** The runs of the loops meet: [0, i) is their disjoint union. */
  lemma Meets(M: Machine, hh: nat, pp: nat, rr: nat, t: nat, i: nat)
    requires i == Number(hh, pp, rr, t)
    ensures var a, b, c := BlockNumber(hh, 0, 0), BlockNumber(hh, pp, 0), BlockNumber(hh, pp, rr);
      && a == 4096 * hh && b == a + 16 * pp && c == b + rr && i == BLOCK * c + t
      && (M.NoHits(0, i) <==> M.NoHits(0, BLOCK * a) && M.NoHits(BLOCK * a, BLOCK * b)
                              && M.NoHits(BLOCK * b, BLOCK * c) && M.NoHits(BLOCK * c, i))
  {
    hide Machine.NoHits;
    var a, b, c := BlockNumber(hh, 0, 0), BlockNumber(hh, pp, 0), BlockNumber(hh, pp, rr);
    NoHitsJoin(M, 0, BLOCK * a, i);
    NoHitsJoin(M, BLOCK * a, BLOCK * b, i);
    NoHitsJoin(M, BLOCK * b, BLOCK * c, i);
  }

  lemma LastSingle(M: Machine, i: nat)
    ensures var h := M.SinglesHints(i, i + 1);
      HonestNext(M, i, h) && DropOne(h) == NO_HINTS
  {
    hide Machine.Witness, Machine.BitsOf, Machine.Chunk;
    assert M.Witnesses(i, i + 1) == [M.Witness(i)] + M.Witnesses(i + 1, i + 1) == [M.Witness(i)];
    assert M.ChunkBits(i, i + 1) == [M.BitsOf(M.Chunk(i, 1), 16)] + M.ChunkBits(i + 1, i + 1) == [M.BitsOf(M.Chunk(i, 1), 16)];
  }

  /** The guest. Whatever the memory and the hints, acceptance means the two public cells hold some
      i below 2^24, and that i is the smallest hit; and when they hold the smallest hit e, the table
      is written and the hints are the prover's advice, the guest accepts and consumes every hint. */
  method Run(M: Machine, h: Hints, ghost e: nat) returns (ok: bool, after: Hints, ghost i: nat)
    requires M.Valid()
    ensures ok ==> i < Pow2(24) && PublicInput(M, i) && M.SmallestHit(i)
    ensures PublicInput(M, e) && e < Pow2(24) && M.SmallestHit(e) && Written(M, TABLE) && h == M.Advice(e)
            ==> ok && after == NO_HINTS
  {
    hide Field.Emb, Field.Pow, Low, Shift, Window, Pow2, Machine.SmallestHit, Machine.Valid, Field.Valid, Ring.Laws, Ring.Domain,
         Written, Machine.BitsOf, Machine.BlocksHints, Machine.SinglesHints, Machine.Cell, Filled, PublicInput, Machine.Advice;
    InputCells(M, e);
    var F := M.F;
    after, i := h, e;
    ok := BuildTable(M);
    if !ok {
      return;
    }
    var lo, hi := M.memory[F.Pow(0)], M.memory[F.Pow(1)];
    AdviceBits(M, e);
    if |h.bits| < 2 {
      return false, after, i;
    }
    if e < Pow2(24) {
      HalvesSmall(e);
    }
    var gt, gr, gp, gh;
    ghost var nl, nh;
    ok, gt, gr, gp, nl := LowInput(M, lo, h.bits[0], Low(e, 16));
    if !ok {
      return;
    }
    ok, gh, nh := HighInput(M, hi, h.bits[1], Shift(e, 16));
    if !ok {
      return;
    }
    i := TABLE * nh + nl;
    TwoHalves(nl, nh);
    InputCells(M, i);
    InputUnique(M, i, e);
    InputsFill(M, i);
    InputParts(i, nl, nh);
    ok, after := EveryBelow(M, gh, gp, gr, gt, h.(bits := h.bits[2..]), i, nh, Window(nl, 8, 8), Window(nl, 4, 4), Window(nl, 0, 4));
  }

  /** The public cells always exist, and what they say of i. */
  lemma InputCells(M: Machine, i: nat)
    requires M.Valid()
    ensures M.F.Pow(0) in M.memory && M.F.Pow(1) in M.memory
    ensures PublicInput(M, i) <==>
              M.memory[M.F.Pow(0)] == M.F.Emb(Low(i, 16)) && M.memory[M.F.Pow(1)] == M.F.Emb(Shift(i, 16))
  {
    hide Field.Emb, Field.Pow, Low, Shift;
    assert Compare(0, 0, 0, 0) && Compare(1, 0, 0, 0);
  }

  lemma HalvesSmall(i: nat)
    requires i < Pow2(24)
    ensures Low(i, 16) < TABLE && Shift(i, 16) < 256
  {
    InputParts(i, Low(i, 16), Shift(i, 16));
  }

  /** The number put together from a low and a high half. */
  lemma TwoHalves(lo: nat, hi: nat)
    requires lo < TABLE && hi < 256
    ensures Low(TABLE * hi + lo, 16) == lo && Shift(TABLE * hi + lo, 16) == hi
    ensures TABLE * hi + lo < Pow2(24)
  {
    Pow2Values();
    hide Low, Shift, Pow2;
    Join(lo, 16, hi);
    InputParts(TABLE * hi + lo, lo, hi);
  }

  /** The public cells hold at most one number below 2^24. */
  lemma InputUnique(M: Machine, i: nat, j: nat)
    requires M.Valid() && PublicInput(M, i) && i < Pow2(24)
    ensures PublicInput(M, j) && j < Pow2(24) ==> i == j
  {
    if PublicInput(M, j) && j < Pow2(24) {
      hide Field.Emb, Field.Pow, Low, Shift, Pow2, Machine.Cell, Machine.Valid, Field.Valid;
      HalvesSmall(i);
      HalvesSmall(j);
      InputParts(i, Low(i, 16), Shift(i, 16));
      InputParts(j, Low(j, 16), Shift(j, 16));
      SmallWords(M);
      M.F.EmbInjective(Low(i, 16), Low(j, 16));
      M.F.EmbInjective(Shift(i, 16), Shift(j, 16));
    }
  }

  lemma SmallWords(M: Machine)
    requires M.Valid()
    ensures M.F.Valid() && TABLE < Pow2(64)
  {
    Pow2Values();
    Pow2Mono(17, 64);
  }

  lemma AdviceBits(M: Machine, i: nat)
    ensures var h := M.Advice(i);
      && |h.bits| >= 2 && h.bits[0] == M.BitsOf(Low(i, 16), 16) && h.bits[1] == M.BitsOf(Shift(i, 16), 8)
      && h.(bits := h.bits[2..]) == Then(M.BlocksHints(0, i / BLOCK), M.SinglesHints(BLOCK * (i / BLOCK), i + 1))
  {
    hide Machine.BitsOf, Machine.BlocksHints, Machine.SinglesHints, Low, Shift;
    Halves(i);
    var rest := Then(M.BlocksHints(0, i / BLOCK), M.SinglesHints(BLOCK * (i / BLOCK), i + 1));
    var bits := [M.BitsOf(i % TABLE, 16), M.BitsOf(i / TABLE, 8)];
    assert [] + rest.w == rest.w && [] + rest.slow == rest.slow;
    assert (bits + rest.bits)[2..] == rest.bits;
  }

  lemma Halves(i: nat)
    ensures i % TABLE == Low(i, 16) && i / TABLE == Shift(i, 16)
  {
    hide Low, Shift, Pow2;
    Pow2Values();
    SplitAt(i, 16);
    LowBound(i, 16);
    DivUnique(i, TABLE, Shift(i, 16), Low(i, 16));
  }
}
