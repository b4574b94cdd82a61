/** The guest's loops over digests and blocks (pow.py). Each is proved sound for any hints at all,
    and complete for the honest ones. */
module GuestBlocks {
  import opened Rings
  import opened Multilinear
  import opened Bits
  import opened GuestField
  import opened Guest
  import opened GuestCells
  import opened GuestChunks
  import opened GuestBits

  ghost predicate CellOf(M: Machine, j: nat, inp: Elem) {
    M.MessageCell(j, 0) == M.F.R.zero && M.MessageCell(j, 1) == inp
  }

  /** The next digest's hints are the honest ones. */
  ghost predicate HonestNext(M: Machine, j: nat, h: Hints) {
    && h.w != [] && h.w[0] == M.Witness(j)
    && h.bits != [] && h.bits[0] == M.BitsOf(M.Chunk(j, 1), 16)
  }

  function DropOne(h: Hints): Hints
    requires h.w != [] && h.bits != []
  {
    Hints(h.w[1..], h.slow, h.bits[1..])
  }

  /** `slow_hash`: j is not a hit. */
  method SlowHash(M: Machine, inp: Elem, h: Hints, ghost i: nat, ghost j: nat) returns (ok: bool, after: Hints)
    requires Filled(M, i) && CellOf(M, j, inp)
    ensures ok ==> !M.Hit(j) && h.w != [] && h.bits != [] && after == DropOne(h)
    ensures HonestNext(M, j, h) && !M.Hit(j) ==> ok
  {
    hide Field.Emb, Field.Pow, Machine.MessageCell, Machine.Hit, Machine.Chunk, Machine.Witness, Masked;
    var F, R := M.F, M.F.R;
    var r0, r1;
    ok, r0, r1, after := DigestChunks(M, inp, h, i, j);
    if !ok {
      return;
    }
    ChunksSmall(M, j);
    var m1;
    ok, m1 := MaskedBits(M, r1, after.bits, M.Chunk(j, 1));
    if ok {
      after := after.(bits := after.bits[1..]);
      JudgeChunks(M, j);
      ok := R.add(r0, R.mul(F.Pow(16), m1)) != R.zero;
    }
  }

  /** `hit_hash`: j is a hit. */
  method HitHash(M: Machine, inp: Elem, h: Hints, ghost i: nat, ghost j: nat) returns (ok: bool, after: Hints)
    requires Filled(M, i) && CellOf(M, j, inp)
    ensures ok ==> M.Hit(j) && h.w != [] && h.bits != [] && after == DropOne(h)
    ensures HonestNext(M, j, h) && M.Hit(j) ==> ok
  {
    hide Field.Emb, Field.Pow, Machine.MessageCell, Machine.Hit, Machine.Chunk, Machine.Witness, Masked;
    var F, R := M.F, M.F.R;
    var r0, r1;
    ok, r0, r1, after := DigestChunks(M, inp, h, i, j);
    if !ok {
      return;
    }
    ChunksSmall(M, j);
    var m1;
    ok, m1 := MaskedBits(M, r1, after.bits, M.Chunk(j, 1));
    if ok {
      after := after.(bits := after.bits[1..]);
      JudgeChunks(M, j);
      ok := r0 == R.zero && m1 == R.zero;
    }
  }

  /** Reading the table through its own address: T[e] = e. */
  lemma TableRead(M: Machine, i: nat, tp: Elem, a: Elem, e: nat)
    requires Filled(M, i) && e < TABLE && tp == M.F.Pow(TABLE_BASE) && a == M.F.Pow(e)
    ensures M.F.R.mul(tp, a) in M.memory && M.memory[M.F.R.mul(tp, a)] == M.F.Emb(e)
  {
    hide Field.Emb, Field.Pow;
    M.F.PowAdd(TABLE_BASE, e);
    assert Compare(TABLE_BASE + e, 0, 0, 0);
  }

  lemma NextPow(F: Field, k: nat, n: nat)
    requires F.Valid() && k <= n < F.order
    ensures F.R.mul(F.Pow(k), F.g) == F.Pow(k + 1)
    ensures F.Pow(k) == F.Pow(n) <==> k == n
  {
    F.R.MulComm(F.Pow(k), F.g);
    hide Field.Emb;
    if F.Pow(k) == F.Pow(n) {
      F.PowInjective(k, n);
    }
  }

  function BlockNumber(hh: nat, pp: nat, rr: nat): nat {
    4096 * hh + 16 * pp + rr
  }

  function RowBase(F: Field, hh: nat, pp: nat): Elem {
    F.R.add(At(F, 40, hh), At(F, 48, pp))
  }

  function BlockBase(F: Field, hh: nat, pp: nat, rr: nat): Elem {
    F.R.add(RowBase(F, hh, pp), At(F, 60, rr))
  }

  lemma BlockCell(M: Machine, hh: nat, pp: nat, rr: nat, t: nat)
    requires M.F.R.Laws() && hh < 256 && pp < 256 && rr < 16 && t < 16
    ensures CellOf(M, BLOCK * BlockNumber(hh, pp, rr) + t, M.F.R.add(BlockBase(M.F, hh, pp, rr), At(M.F, 56, t)))
  {
    hide Field.Emb, Field.Pow, Machine.MessageCell, At;
    CellParts(M, hh, pp, rr, t);
    assert Number(hh, pp, rr, t) == BLOCK * BlockNumber(hh, pp, rr) + t;
  }

  lemma AtZero(F: Field, s: nat)
    requires F.R.Laws()
    ensures At(F, s, 0) == F.R.zero
  {
    F.EmbSmall();
    F.R.MulZero(YX(F, s));
  }

  lemma FirstCell(M: Machine, hh: nat, pp: nat, rr: nat)
    requires M.F.R.Laws() && hh < 256 && pp < 256 && rr < 16
    ensures CellOf(M, BLOCK * BlockNumber(hh, pp, rr), BlockBase(M.F, hh, pp, rr))
    ensures M.F.R.add(BlockBase(M.F, hh, pp, rr), At(M.F, 56, 0)) == BlockBase(M.F, hh, pp, rr)
  {
    hide *;
    BlockCell(M, hh, pp, rr, 0);
    AtZero(M.F, 56);
    M.F.R.AddZero(BlockBase(M.F, hh, pp, rr));
  }

  lemma MachineLaws(M: Machine, i: nat)
    requires Filled(M, i)
    ensures M.Valid() && M.F.Valid() && M.F.R.Laws() && M.F.R.Domain() && M.F.order > 2 * TOP_INDEX
  {
  }

  // ---- the slow path ---------------------------------------------------------------------------

  /** The digests of one block (or of the last, partial one), each judged by itself. */
  method SlowRun(M: Machine, tp: Elem, inb: Elem, tend: Elem, h: Hints,
                 ghost i: nat, ghost hh: nat, ghost pp: nat, ghost rr: nat, ghost n: nat, ghost rest: Hints)
    returns (ok: bool, after: Hints)
    requires Filled(M, i) && hh < 256 && pp < 256 && rr < 16 && n <= 16
    requires tp == M.F.Pow(TABLE_BASE) && inb == BlockBase(M.F, hh, pp, rr) && tend == M.F.Pow(n)
    ensures var j := BLOCK * BlockNumber(hh, pp, rr);
      && (ok ==> M.NoHits(j, j + n))
      && (h == Then(M.SinglesHints(j, j + n), rest) && M.NoHits(j, j + n) ==> ok && after == rest)
  {
    hide Field.Emb, Field.Pow, Machine.MessageCell, Machine.Hit, Machine.Witness, Machine.Chunk, BlockBase, BlockNumber,
         CellOf, YX, Machine.BitsOf, Filled, Field.Valid, Machine.Valid, Ring.Laws, Ring.Domain, HonestNext, Machine.SinglesHints;
    MachineLaws(M, i);
    var F, R := M.F, M.F.R;
    ghost var j0 := BLOCK * BlockNumber(hh, pp, rr);
    ghost var honest := h == Then(M.SinglesHints(j0, j0 + n), rest) && M.NoHits(j0, j0 + n);
    after, ok := h, true;
    var t := R.one;
    ghost var tt: nat := 0;
    FirstPow(F);
    while t != tend
      invariant tt <= n && t == F.Pow(tt)
      invariant M.NoHits(j0, j0 + tt)
      invariant honest ==> after == Then(M.SinglesHints(j0 + tt, j0 + n), rest)
      decreases n - tt
    {
      NextPow(F, tt, n);
      TableRead(M, i, tp, t, tt);
      BlockCell(M, hh, pp, rr, tt);
      var before := after;
      if honest {
        SinglesNext(M, j0 + tt, j0 + n, rest);
      }
      ok, after := SlowHash(M, R.add(inb, R.mul(YX(F, 56), M.memory[R.mul(tp, t)])), before, i, j0 + tt);
      if !ok {
        return;
      }
      t := R.mul(t, F.g);
      tt := tt + 1;
    }
    NextPow(F, tt, n);
    if honest {
      SinglesDone(M, j0 + n, rest);
    }
  }

  lemma FirstPow(F: Field)
    ensures F.Pow(0) == F.R.one
  {
  }

  lemma SinglesNext(M: Machine, a: nat, b: nat, rest: Hints)
    requires a < b
    ensures var h := Then(M.SinglesHints(a, b), rest);
      HonestNext(M, a, h) && DropOne(h) == Then(M.SinglesHints(a + 1, b), rest)
  {
    hide Machine.Witness, Machine.Chunk, Machine.BitsOf;
    var h := Then(M.SinglesHints(a, b), rest);
    assert M.Witnesses(a, b) == [M.Witness(a)] + M.Witnesses(a + 1, b);
    assert h.w == [M.Witness(a)] + (M.Witnesses(a + 1, b) + rest.w);
    assert M.ChunkBits(a, b) == [M.BitsOf(M.Chunk(a, 1), 16)] + M.ChunkBits(a + 1, b);
    assert h.bits == [M.BitsOf(M.Chunk(a, 1), 16)] + (M.ChunkBits(a + 1, b) + rest.bits);
  }

  lemma SinglesDone(M: Machine, a: nat, rest: Hints)
    ensures Then(M.SinglesHints(a, a), rest) == rest
  {
    assert [] + rest.w == rest.w && [] + rest.slow == rest.slow && [] + rest.bits == rest.bits;
  }

  // ---- the fast path ---------------------------------------------------------------------------

  function ProductOf(R: Ring, s: seq<Elem>): Elem {
    if s == [] then R.one else R.mul(ProductOf(R, s[..|s| - 1]), s[|s| - 1])
  }

  /** A product is nonzero exactly when every factor is. */
  lemma {:induction false} ProductNonzero(R: Ring, s: seq<Elem>)
    requires R.Laws() && R.Domain()
    ensures ProductOf(R, s) != R.zero <==> forall k :: 0 <= k < |s| ==> s[k] != R.zero
  {
    if s != [] {
      var p, x := ProductOf(R, s[..|s| - 1]), s[|s| - 1];
      ProductNonzero(R, s[..|s| - 1]);
      assert Use(p, x, R.zero);
      R.MulZero(p);
      R.MulZero(x);
      assert forall k :: 0 <= k < |s| - 1 ==> s[..|s| - 1][k] == s[k];
    }
  }

  /** STEP[t]: the move of j's low nibble from t - 1 to t. */
  function Step(F: Field, t: nat): Elem
    requires t > 0
  {
    At(F, 56, Xor(t - 1, t))
  }

  lemma StepMoves(F: Field, base: Elem, t: nat)
    requires F.R.Laws() && t > 0
    ensures F.R.add(F.R.add(base, At(F, 56, t - 1)), Step(F, t)) == F.R.add(base, At(F, 56, t))
  {
    hide Field.Emb, Field.Pow, YX, Xor;
    var R, c := F.R, YX(F, 56);
    EmbXor(F, t - 1, t);
    R.Dist(c, F.Emb(t - 1), F.Emb(t));
    var a, b := At(F, 56, t - 1), At(F, 56, t);
    R.AddAssoc(base, a, R.add(a, b));
    R.Cancel(b, a);
  }

  /** What the fast path has established about digest k: at once, or once its lane 1 is checked
      together with the next one's. */
  ghost predicate Known(M: Machine, j: nat, r0: Elem) {
    r0 == M.F.Emb(M.Chunk(j, 0))
  }

  /** `fast_block`: sixteen consecutive digests, every first chunk nonzero by one product. */
  method FastBlock(M: Machine, inb: Elem, h: Hints, ghost i: nat, ghost hh: nat, ghost pp: nat, ghost rr: nat, ghost rest: Hints)
    returns (ok: bool, after: Hints)
    requires Filled(M, i) && hh < 256 && pp < 256 && rr < 16 && inb == BlockBase(M.F, hh, pp, rr)
    ensures var block := BlockNumber(hh, pp, rr);
      var j := BLOCK * block;
      && (ok ==> M.NoHits(j, j + BLOCK))
      && (h == Then(Hints(M.Witnesses(j, j + BLOCK), [], []), rest) ==> (ok <==> !M.SlowBlock(block)) && (ok ==> after == rest))
  {
    hide Field.Emb, Field.Pow, Machine.MessageCell, Machine.Hit, Machine.Witness, Machine.Chunk, BlockBase, BlockNumber,
         CellOf, At, ProductOf, Step, Known, Machine.Witnesses, Filled, Field.Valid, Machine.Valid, Machine.SlowBlock,
         Ring.Laws, Ring.Domain, Machine.NoHits, Then, Low, Shift, Bit, Pow2;
    MachineLaws(M, i);
    var F, R := M.F, M.F.R;
    ghost var block := BlockNumber(hh, pp, rr);
    ghost var j0 := BLOCK * block;
    ghost var honest := h == Then(Hints(M.Witnesses(j0, j0 + BLOCK), [], []), rest);
    FastHints(M.Witnesses(j0, j0 + BLOCK), rest, h);
    var prod, inp, w, t, previous := R.one, inb, h.w, 0, R.zero;
    ghost var r0s: seq<Elem> := [];
    EmptyProduct(R);
    after := h;
    while t < 16
      invariant 0 <= t <= 16 && |r0s| == t
      invariant prod == ProductOf(R, r0s)
      invariant inp == if t == 0 then inb else R.add(inb, At(F, 56, t - 1))
      invariant forall k: nat :: k < t - t % 2 ==> Known(M, j0 + k, r0s[k])
      invariant t % 2 == 1 && F.inK(previous) ==> Known(M, j0 + t - 1, r0s[t - 1])
      invariant honest ==> w == M.Witnesses(j0 + t, j0 + BLOCK) + rest.w && (t % 2 == 1 ==> F.inK(previous))
    {
      if t != 0 {
        StepMoves(F, inb, t);
        inp := R.add(inp, Step(F, t));
        BlockCell(M, hh, pp, rr, t);
      } else {
        FirstCell(M, hh, pp, rr);
      }
      assert CellOf(M, j0 + t, inp);
      UnfoldCell(M, j0 + t, inp);
      if honest {
        WitnessesNext(M, j0 + t, j0 + BLOCK, rest.w);
      }
      var good, r0, r1, l1 := HashChunks(M, inp, w, i, j0 + t);
      if !good || (t % 2 == 1 && !(F.inK(previous) && F.inK(l1))) {
        return false, after;
      }
      w, previous := w[1..], l1;
      AppendProduct(R, r0s, r0);
      if F.inK(l1) {
        KnownIs(M, j0 + t, r0);
      }
      prod := R.mul(prod, r0);
      r0s := r0s + [r0];
      t := t + 1;
    }
    ProductNonzero(R, r0s);
    ok := prod != R.zero;
    if ok {
      after := h.(w := w);
      FastNoHits(M, j0, r0s);
    }
    if honest {
      FastComplete(M, block, r0s);
      NoWitnesses(M, j0 + 16);
      assert [] + rest.w == rest.w;
    }
  }

  /** Witnesses alone, ahead of the rest. */
  lemma FastHints(ws: seq<seq<Elem>>, rest: Hints, h: Hints)
    ensures h == Then(Hints(ws, [], []), rest) ==> h.w == ws + rest.w && h.(w := rest.w) == rest
  {
    assert [] + rest.slow == rest.slow && [] + rest.bits == rest.bits;
  }

  lemma KnownIs(M: Machine, j: nat, r0: Elem)
    requires r0 == M.F.Emb(M.Chunk(j, 0))
    ensures Known(M, j, r0)
  {
  }

  lemma NoWitnesses(M: Machine, a: nat)
    ensures M.Witnesses(a, a) == []
  {
  }

  lemma UnfoldCell(M: Machine, j: nat, inp: Elem)
    requires CellOf(M, j, inp)
    ensures M.MessageCell(j, 0) == M.F.R.zero && M.MessageCell(j, 1) == inp
  {
  }

  lemma EmptyProduct(R: Ring)
    ensures ProductOf(R, []) == R.one
  {
  }

  lemma AppendProduct(R: Ring, s: seq<Elem>, x: Elem)
    ensures ProductOf(R, s + [x]) == R.mul(ProductOf(R, s), x)
  {
    assert (s + [x])[..|s|] == s;
  }

  lemma WitnessesNext(M: Machine, a: nat, b: nat, rest: seq<seq<Elem>>)
    requires a < b
    ensures var w := M.Witnesses(a, b) + rest;
      w != [] && w[0] == M.Witness(a) && w[1..] == M.Witnesses(a + 1, b) + rest
  {
    hide Machine.Witness;
    assert M.Witnesses(a, b) + rest == [M.Witness(a)] + (M.Witnesses(a + 1, b) + rest);
  }

  lemma FastNoHits(M: Machine, j0: nat, r0s: seq<Elem>)
    requires M.Valid() && |r0s| == BLOCK
    requires forall k: nat :: k < BLOCK ==> Known(M, j0 + k, r0s[k]) && r0s[k] != M.F.R.zero
    ensures M.NoHits(j0, j0 + BLOCK)
  {
    forall j: nat | j0 <= j < j0 + BLOCK
      ensures !M.Hit(j)
    {
      assert Known(M, j0 + (j - j0), r0s[j - j0]);
      M.F.EmbSmall();
      HitOnChunks(M, j);
    }
  }

  lemma FastComplete(M: Machine, block: nat, r0s: seq<Elem>)
    requires M.Valid() && |r0s| == BLOCK
    requires forall k: nat :: k < BLOCK ==> Known(M, BLOCK * block + k, r0s[k])
    ensures (forall k :: 0 <= k < |r0s| ==> r0s[k] != M.F.R.zero) <==> !M.SlowBlock(block)
  {
    hide Field.Emb, Field.Pow, Machine.Chunk;
    forall k: nat | k < BLOCK
      ensures r0s[k] == M.F.R.zero <==> M.ZeroChunk(BLOCK * block + k)
    {
      FirstChunkZero(M, BLOCK * block + k, r0s[k]);
    }
    if M.SlowBlock(block) {
      var j: nat :| BLOCK * block <= j < BLOCK * block + BLOCK && M.ZeroChunk(j);
      var k := j - BLOCK * block;
      assert M.ZeroChunk(BLOCK * block + k);
      assert r0s[k] == M.F.R.zero;
    }
  }

  lemma FirstChunkZero(M: Machine, j: nat, r0: Elem)
    requires M.Valid() && Known(M, j, r0)
    ensures r0 == M.F.R.zero <==> M.ZeroChunk(j)
  {
    hide Field.Emb, Field.Pow, Machine.Chunk;
    ChunksSmall(M, j);
    Pow2Values();
    ZeroOnly(M.F, M.Chunk(j, 0));
  }
}
