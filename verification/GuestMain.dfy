/** The guest's outer loops and main program (pow.py): the table is written, the public input is
    decomposed, and every j below it is passed over exactly once. */
module GuestMain {
  import opened Rings
  import opened Multilinear
  import opened Bits
  import opened GuestField
  import opened Guest
  import opened GuestCells
  import opened GuestChunks
  import opened GuestBits
  import opened GuestBlocks

  // ---- blocks and bytes ------------------------------------------------------------------------

  lemma {:induction false} BlocksSplit(M: Machine, a: nat, b: nat, c: nat)
    requires a <= b <= c
    ensures M.BlocksHints(a, c) == Then(M.BlocksHints(a, b), M.BlocksHints(b, c))
    decreases b - a
  {
    hide Machine.BlockHints;
    if a == b {
      ThenNone(M.BlocksHints(b, c));
    } else {
      BlocksSplit(M, a + 1, b, c);
      ThenAssoc(M.BlockHints(a), M.BlocksHints(a + 1, b), M.BlocksHints(b, c));
    }
  }

  lemma ThenAssoc(a: Hints, b: Hints, c: Hints)
    ensures Then(Then(a, b), c) == Then(a, Then(b, c))
  {
    assert a.w + b.w + c.w == a.w + (b.w + c.w);
    assert a.slow + b.slow + c.slow == a.slow + (b.slow + c.slow);
    assert a.bits + b.bits + c.bits == a.bits + (b.bits + c.bits);
  }

  lemma ThenNone(a: Hints)
    ensures Then(NO_HINTS, a) == a
  {
    assert [] + a.w == a.w && [] + a.slow == a.slow && [] + a.bits == a.bits;
  }

  lemma BlocksNext(M: Machine, a: nat, b: nat, rest: Hints)
    requires a < b
    ensures Then(M.BlocksHints(a, b), rest) == Then(M.BlockHints(a), Then(M.BlocksHints(a + 1, b), rest))
  {
    hide Machine.BlockHints;
    ThenAssoc(M.BlockHints(a), M.BlocksHints(a + 1, b), rest);
  }

  /** The flag a block's honest hints start with, and what is left behind it. */
  lemma BlockFlag(M: Machine, block: nat, rest: Hints)
    ensures var h := Then(M.BlockHints(block), rest);
      && h.slow != [] && h.slow[0] == (if M.SlowBlock(block) then M.F.R.one else M.F.R.zero)
      && h.(slow := h.slow[1..]) == if M.SlowBlock(block) then Then(M.SinglesHints(BLOCK * block, BLOCK * block + BLOCK), rest)
                                    else Then(Hints(M.Witnesses(BLOCK * block, BLOCK * block + BLOCK), [], []), rest)
  {
    hide Machine.SlowBlock, Machine.Witnesses, Machine.ChunkBits;
    var h, f := Then(M.BlockHints(block), rest), if M.SlowBlock(block) then M.F.R.one else M.F.R.zero;
    assert h.slow == [f] + rest.slow;
    assert [] + rest.slow == rest.slow;
    var w, b := M.Witnesses(BLOCK * block, BLOCK * block + BLOCK), M.ChunkBits(BLOCK * block, BLOCK * block + BLOCK);
    assert [] + w == w && [] + b == b;
  }

  /** One block, by the path the hint picks. */
  method OneBlock(M: Machine, tp: Elem, inb: Elem, h: Hints, ghost i: nat, ghost hh: nat, ghost pp: nat, ghost rr: nat, ghost rest: Hints)
    returns (ok: bool, after: Hints)
    requires Filled(M, i) && hh < 256 && pp < 256 && rr < 16
    requires tp == M.F.Pow(TABLE_BASE) && inb == BlockBase(M.F, hh, pp, rr)
    ensures var j := BLOCK * BlockNumber(hh, pp, rr);
      && (ok ==> M.NoHits(j, j + BLOCK))
      && (h == Then(M.BlockHints(BlockNumber(hh, pp, rr)), rest) && M.NoHits(j, j + BLOCK) ==> ok && after == rest)
  {
    hide Field.Emb, Field.Pow, BlockBase, BlockNumber, Machine.NoHits, Machine.SlowBlock, Machine.BlockHints, Filled,
         Field.Valid, Machine.Valid, Ring.Laws, Then, Machine.SinglesHints, Machine.Witnesses, Ring.Domain;
    MachineLaws(M, i);
    ghost var block := BlockNumber(hh, pp, rr);
    if h == Then(M.BlockHints(block), rest) {
      BlockFlag(M, block, rest);
    }
    OneNotZero(M);
    if h.slow == [] {
      return false, h;
    }
    var slow := h.slow[0];
    var next := h.(slow := h.slow[1..]);
    if slow == M.F.R.one {
      ok, after := SlowRun(M, tp, inb, M.F.Pow(BLOCK), next, i, hh, pp, rr, BLOCK, rest);
    } else {
      ok, after := FastBlock(M, inb, next, i, hh, pp, rr, rest);
    }
  }

  lemma OneNotZero(M: Machine)
    requires M.F.Valid()
    ensures M.F.R.one != M.F.R.zero
  {
  }

  lemma NoHitsJoin(M: Machine, a: nat, b: nat, c: nat)
    requires a <= b <= c
    ensures M.NoHits(a, c) <==> M.NoHits(a, b) && M.NoHits(b, c)
  {
    hide Machine.Hit;
  }

  /** `blocks_loop`: the first n blocks of the byte run (hh, pp). */
  method BlocksLoop(M: Machine, tp: Elem, pbase: Elem, rend: Elem, h: Hints,
                    ghost i: nat, ghost hh: nat, ghost pp: nat, ghost n: nat, ghost rest: Hints)
    returns (ok: bool, after: Hints)
    requires Filled(M, i) && hh < 256 && pp < 256 && n <= 16
    requires tp == M.F.Pow(TABLE_BASE) && pbase == RowBase(M.F, hh, pp) && rend == M.F.Pow(n)
    ensures var b := BlockNumber(hh, pp, 0);
      && (ok ==> M.NoHits(BLOCK * b, BLOCK * (b + n)))
      && (h == Then(M.BlocksHints(b, b + n), rest) && M.NoHits(BLOCK * b, BLOCK * (b + n)) ==> ok && after == rest)
  {
    hide Field.Emb, Field.Pow, RowBase, Machine.Hit, Machine.BlockHints, Machine.BlocksHints, Filled, Field.Valid, Machine.Valid,
         Ring.Laws, Ring.Domain, Then, YX, Machine.NoHits;
    MachineLaws(M, i);
    var F, R := M.F, M.F.R;
    ghost var b := BlockNumber(hh, pp, 0);
    ghost var honest := h == Then(M.BlocksHints(b, b + n), rest) && M.NoHits(BLOCK * b, BLOCK * (b + n));
    after, ok := h, true;
    var r := R.one;
    ghost var rr: nat := 0;
    FirstPow(F);
    NoneYet(M, BLOCK * b);
    while r != rend
      invariant rr <= n && r == F.Pow(rr)
      invariant M.NoHits(BLOCK * b, BLOCK * (b + rr))
      invariant honest ==> after == Then(M.BlocksHints(b + rr, b + n), rest)
      decreases n - rr
    {
      NextPow(F, rr, n);
      TableRead(M, i, tp, r, rr);
      var inb := R.add(pbase, R.mul(YX(F, 60), M.memory[R.mul(tp, r)]));
      ghost var left := Then(M.BlocksHints(b + rr + 1, b + n), rest);
      BlocksNext(M, b + rr, b + n, rest);
      NoHitsJoin(M, BLOCK * b, BLOCK * (b + rr), BLOCK * (b + n));
      NoHitsJoin(M, BLOCK * (b + rr), BLOCK * (b + rr + 1), BLOCK * (b + n));
      ok, after := OneBlock(M, tp, inb, after, i, hh, pp, rr, left);
      if !ok {
        return;
      }
      NoHitsJoin(M, BLOCK * b, BLOCK * (b + rr), BLOCK * (b + rr + 1));
      r := R.mul(r, F.g);
      rr := rr + 1;
    }
    NextPow(F, rr, n);
    NoBlocks(M, b + n, rest);
  }

  lemma NoneYet(M: Machine, a: nat)
    ensures M.NoHits(a, a)
  {
  }

  lemma NoBlocks(M: Machine, a: nat, rest: Hints)
    ensures Then(M.BlocksHints(a, a), rest) == rest
  {
    ThenNone(rest);
  }

  lemma RunNumber(hh: nat, pp: nat)
    ensures BlockNumber(hh, pp, 0) == BlockNumber(hh, 0, 0) + 16 * pp
  {
  }

  /** `bytes_loop`: the first n byte runs of hh, sixteen blocks each. */
  method BytesLoop(M: Machine, tp: Elem, hbase: Elem, pend: Elem, h: Hints,
                   ghost i: nat, ghost hh: nat, ghost n: nat, ghost rest: Hints)
    returns (ok: bool, after: Hints)
    requires Filled(M, i) && hh < 256 && n <= 256
    requires tp == M.F.Pow(TABLE_BASE) && hbase == At(M.F, 40, hh) && pend == M.F.Pow(n)
    ensures var b := BlockNumber(hh, 0, 0);
      && (ok ==> M.NoHits(BLOCK * b, BLOCK * (b + 16 * n)))
      && (h == Then(M.BlocksHints(b, b + 16 * n), rest) && M.NoHits(BLOCK * b, BLOCK * (b + 16 * n)) ==> ok && after == rest)
  {
    hide Field.Emb, Field.Pow, Machine.Hit, Machine.BlockHints, Machine.BlocksHints, Filled, Field.Valid, Machine.Valid,
         Ring.Laws, Ring.Domain, Then, YX, Machine.NoHits, BlockNumber;
    MachineLaws(M, i);
    var F, R := M.F, M.F.R;
    ghost var b := BlockNumber(hh, 0, 0);
    ghost var honest := h == Then(M.BlocksHints(b, b + 16 * n), rest) && M.NoHits(BLOCK * b, BLOCK * (b + 16 * n));
    after, ok := h, true;
    var p := R.one;
    ghost var pp: nat := 0;
    FirstPow(F);
    NoneYet(M, BLOCK * b);
    while p != pend
      invariant pp <= n && p == F.Pow(pp)
      invariant M.NoHits(BLOCK * b, BLOCK * (b + 16 * pp))
      invariant honest ==> after == Then(M.BlocksHints(b + 16 * pp, b + 16 * n), rest)
      decreases n - pp
    {
      NextPow(F, pp, n);
      TableRead(M, i, tp, p, pp);
      var pbase := R.add(hbase, R.mul(YX(F, 48), M.memory[R.mul(tp, p)]));
      RunNumber(hh, pp);
      ghost var at, next, end := b + 16 * pp, b + 16 * pp + 16, b + 16 * n;
      BlocksSplit(M, at, next, end);
      ThenAssoc(M.BlocksHints(at, next), M.BlocksHints(next, end), rest);
      NoHitsJoin(M, BLOCK * b, BLOCK * at, BLOCK * end);
      NoHitsJoin(M, BLOCK * at, BLOCK * next, BLOCK * end);
      ok, after := BlocksLoop(M, tp, pbase, F.Pow(16), after, i, hh, pp, 16, Then(M.BlocksHints(next, end), rest));
      if !ok {
        return;
      }
      NoHitsJoin(M, BLOCK * b, BLOCK * at, BLOCK * next);
      p := R.mul(p, F.g);
      pp := pp + 1;
    }
    NextPow(F, pp, n);
    NoBlocks(M, b + 16 * n, rest);
  }
}
