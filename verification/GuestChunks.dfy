/** The guest's inner routines (pow.py): the range-checked lookup, the digest's decomposition into
    16-bit chunks, and the two ways one digest is judged. */
module GuestChunks {
  import opened Rings
  import opened Multilinear
  import opened Bits
  import opened GuestField
  import opened Guest

  /** What cell k holds once the table is written: the public input's two halves, then T. */
  function CellValue(i: nat, k: nat): nat {
    if k == 0 then Low(i, 16) else if k == 1 then Shift(i, 16) else k - TABLE_BASE
  }

  ghost predicate Filled(M: Machine, i: nat) {
    && M.Valid()
    && i < Pow2(24)
    && forall k: nat {:trigger Compare(k, 0, 0, 0)} :: k <= TOP_INDEX ==> M.Cell(k) == M.F.Emb(CellValue(i, k))
  }

  lemma CellValueSmall(i: nat, k: nat)
    requires i < Pow2(24) && k <= TOP_INDEX
    ensures CellValue(i, k) < Pow2(16)
  {
    Pow2Values();
    LowBound(i, 16);
    ShiftBound(i, 16, 8);
    Pow2Mono(8, 16);
  }

  // ---- lookup ----------------------------------------------------------------------------------

  /** Both a and TOP / a are addresses only when a's exponent is at most TOP's. */
  lemma ExponentRange(M: Machine, a: Elem, q: Elem) returns (k: nat)
    requires M.Valid() && a in M.memory && q in M.memory
    requires M.F.R.mul(a, q) == M.F.Pow(TOP_INDEX)
    ensures k <= TOP_INDEX && a == M.F.Pow(k)
  {
    hide Field.Pow;
    k :| k < M.size && a == M.F.Pow(k);
    var l: nat :| l < M.size && q == M.F.Pow(l);
    M.F.PowAdd(k, l);
    M.F.PowInjective(k + l, TOP_INDEX);
  }

  lemma Quotient(F: Field, a: Elem, t: Elem)
    requires F.Valid() && a != F.R.zero
    ensures F.R.mul(a, F.R.mul(t, F.inv(a))) == t
  {
    hide Field.Pow, Field.Emb;
    F.R.MulLeft(a, t, F.inv(a));
    F.R.MulOne(t);
  }

  /** The quotient TOP / a of a table address is the mirrored address. */
  lemma Mirror(F: Field, k: nat, n: nat)
    requires F.Valid() && k <= n
    ensures F.Pow(k) != F.R.zero && F.R.mul(F.Pow(n), F.inv(F.Pow(k))) == F.Pow(n - k)
  {
    hide Field.Pow, Field.Emb;
    F.PowNonzero(k);
    var a := F.Pow(k);
    F.PowAdd(n - k, k);
    F.R.MulAssoc(F.Pow(n - k), a, F.inv(a));
    F.R.MulOne(F.Pow(n - k));
  }

  /** `lookup`: the cell at a hinted address, read only if the address lies in m[0..TOP_INDEX]. */
  method Lookup(M: Machine, a: Elem, ghost i: nat, ghost e: nat) returns (ok: bool, r: Elem, ghost k: nat)
    requires Filled(M, i)
    ensures ok ==> k <= TOP_INDEX && a == M.F.Pow(k) && r == M.F.Emb(CellValue(i, k))
    ensures e < TABLE && a == M.F.Pow(TABLE_BASE + e) ==> ok && r == M.F.Emb(e)
  {
    hide Field.Pow, Field.Emb;
    var F := M.F;
    k := 0;
    ghost var honest := e < TABLE && a == F.Pow(TABLE_BASE + e);
    if honest {
      assert Compare(TABLE_BASE + e, 0, 0, 0) && Compare(TOP_INDEX - (TABLE_BASE + e), 0, 0, 0);
      Mirror(F, TABLE_BASE + e, TOP_INDEX);
    }
    if a !in M.memory {
      return false, F.R.zero, k;
    }
    r := M.memory[a];
    var q := F.R.mul(F.Pow(TOP_INDEX), F.inv(a));
    if q !in M.memory {
      return false, r, k;
    }
    AddressNonzero(M, a);
    Quotient(F, a, F.Pow(TOP_INDEX));
    k := ExponentRange(M, a, q);
    assert Compare(k, 0, 0, 0);
    if honest {
      F.PowInjective(k, TABLE_BASE + e);
    }
    ok := true;
  }

  lemma AddressNonzero(M: Machine, a: Elem)
    requires M.Valid() && a in M.memory
    ensures a != M.F.R.zero
  {
    hide Field.Pow, Field.Emb;
    var k: nat :| k < M.size && a == M.F.Pow(k);
    M.F.PowNonzero(k);
  }

  // ---- the decomposition -----------------------------------------------------------------------

  function FourChunks(F: Field, r0: Elem, r1: Elem, r2: Elem, r3: Elem): Elem {
    var R := F.R;
    R.add(R.add(R.add(r0, R.mul(F.Pow(16), r1)), R.mul(F.Pow(32), r2)), R.mul(F.Pow(48), r3))
  }

  lemma PushPow(F: Field, s: nat, a: Elem, u: nat, b: Elem)
    requires F.R.Laws()
    ensures F.R.mul(F.Pow(s), F.R.add(a, F.R.mul(F.Pow(u), b))) == F.R.add(F.R.mul(F.Pow(s), a), F.R.mul(F.Pow(s + u), b))
  {
    hide Field.Pow;
    F.R.Dist(F.Pow(s), a, F.R.mul(F.Pow(u), b));
    F.R.MulAssoc(F.Pow(s), F.Pow(u), b);
    F.PowAdd(s, u);
  }

  function ChunkOf(n: nat, c: nat): nat {
    Low(Shift(n, 16 * c), 16)
  }

  /** A 64-bit polynomial is the sum of its chunks. */
  lemma ChunkSum(F: Field, n: nat)
    requires F.R.Laws() && n < Pow2(64)
    ensures F.Emb(n) == FourChunks(F, F.Emb(ChunkOf(n, 0)), F.Emb(ChunkOf(n, 1)), F.Emb(ChunkOf(n, 2)), F.Emb(ChunkOf(n, 3)))
  {
    TopChunk(n);
    NoShiftChunk(n);
    hide Field.Pow, Field.Emb, Low, Shift, Pow2;
    var R := F.R;
    var n1, n2, n3 := Shift(n, 16), Shift(n, 32), Shift(n, 48);
    ShiftShift(n, 16, 16);
    ShiftShift(n, 32, 16);
    F.EmbParts(n, 16);
    F.EmbParts(n1, 16);
    F.EmbParts(n2, 16);
    var c0, c1, c2 := F.Emb(Low(n, 16)), F.Emb(Low(n1, 16)), F.Emb(Low(n2, 16));
    var rest2 := R.add(c2, R.mul(F.Pow(16), F.Emb(n3)));
    PushPow(F, 16, c1, 16, rest2);
    PushPow(F, 32, c2, 16, F.Emb(n3));
    R.AddAssoc(c0, R.mul(F.Pow(16), c1), R.mul(F.Pow(32), rest2));
    R.AddAssoc(R.add(c0, R.mul(F.Pow(16), c1)), R.mul(F.Pow(32), c2), R.mul(F.Pow(48), F.Emb(n3)));
  }

  lemma NoShiftChunk(n: nat)
    ensures ChunkOf(n, 0) == Low(n, 16)
  {
  }

  lemma TopChunk(n: nat)
    requires n < Pow2(64)
    ensures ChunkOf(n, 3) == Shift(n, 48)
  {
    hide Low, Shift, Pow2;
    ShiftBound(n, 48, 16);
    LowSmall(Shift(n, 48), 16);
  }

  lemma ChunkPowers()
    ensures Pow2(16) == 65536 && Pow2(64) == 65536 * (65536 * (65536 * 65536))
  {
    Pow2Values();
    hide Pow2;
    Pow2Add(16, 16);
    Pow2Add(32, 32);
  }

  /** Four chunks determine a number of which they are the chunks. */
  lemma ChunkJoin(e0: nat, e1: nat, e2: nat, e3: nat) returns (n: nat)
    requires e0 < Pow2(16) && e1 < Pow2(16) && e2 < Pow2(16) && e3 < Pow2(16)
    ensures n < Pow2(64) && ChunkOf(n, 0) == e0 && ChunkOf(n, 1) == e1 && ChunkOf(n, 2) == e2 && ChunkOf(n, 3) == e3
  {
    hide Low, Shift, Pow2;
    ChunkPowers();
    var n2 := e2 + Pow2(16) * e3;
    var n1 := e1 + Pow2(16) * n2;
    n := e0 + Pow2(16) * n1;
    Join(e0, 16, n1);
    Join(e1, 16, n2);
    Join(e2, 16, e3);
    NoShiftChunk(n);
    ShiftShift(n, 16, 16);
    ShiftShift(n, 16, 32);
    ShiftShift(n1, 16, 16);
    LowSmall(e3, 16);
  }

  lemma FieldLaws(F: Field)
    requires F.Valid()
    ensures F.R.Laws()
  {
  }

  lemma JoinSum(F: Field, e0: nat, e1: nat, e2: nat, e3: nat) returns (n: nat)
    requires F.R.Laws() && e0 < Pow2(16) && e1 < Pow2(16) && e2 < Pow2(16) && e3 < Pow2(16)
    ensures n < Pow2(64) && ChunkOf(n, 0) == e0 && ChunkOf(n, 1) == e1
    ensures F.Emb(n) == FourChunks(F, F.Emb(e0), F.Emb(e1), F.Emb(e2), F.Emb(e3))
  {
    hide Field.Pow, Field.Emb, Pow2, FourChunks, ChunkOf;
    n := ChunkJoin(e0, e1, e2, e3);
    ChunkSum(F, n);
  }

  /** The hash of j and its digest's chunks, checked against the cell the permutation wrote. That
      lane 1 lies in K is checked by the callers. */
  method HashChunks(M: Machine, inp: Elem, w: seq<seq<Elem>>, ghost i: nat, ghost j: nat)
    returns (ok: bool, r0: Elem, r1: Elem, l1: Elem)
    requires Filled(M, i) && M.MessageCell(j, 0) == M.F.R.zero && M.MessageCell(j, 1) == inp
    ensures ok ==> w != []
    ensures ok && M.F.inK(l1) ==> r0 == M.F.Emb(M.Chunk(j, 0)) && r1 == M.F.Emb(M.Chunk(j, 1))
    ensures w != [] && w[0] == M.Witness(j) ==> ok && M.F.inK(l1)
  {
    hide Field.Pow, Field.Emb, Low, Shift, Pow2, FourChunks, Machine.MessageCell;
    var F, R := M.F, M.F.R;
    r0, r1, l1 := R.zero, R.zero, R.zero;
    ghost var honest := w != [] && w[0] == M.Witness(j);
    ghost var c0, c1, c2, c3 := M.Chunk(j, 0), M.Chunk(j, 1), M.Chunk(j, 2), M.Chunk(j, 3);
    ChunksSmall(M, j);
    if w == [] || |w[0]| != 5 {
      return false, r0, r1, l1;
    }
    var h := w[0];
    var digest := M.sponge(R.zero, inp);
    var ok0, v0, k0 := Lookup(M, h[0], i, c0);
    var ok1, v1, k1 := Lookup(M, h[1], i, c1);
    var ok2, v2, k2 := Lookup(M, h[2], i, c2);
    var ok3, v3, k3 := Lookup(M, h[3], i, c3);
    r0, r1, l1 := v0, v1, h[4];
    var sum := R.add(FourChunks(F, v0, v1, v2, v3), R.mul(F.y, l1));
    ok := ok0 && ok1 && ok2 && ok3 && sum == F.Pair(digest.0, digest.1);
    if honest {
      ChunkSum(F, digest.0);
      ChunkNames(M, j);
    }
    if ok && F.inK(l1) {
      SoundChunks(M, i, j, k0, k1, k2, k3, l1);
    }
  }

  lemma ChunksSmall(M: Machine, j: nat)
    ensures M.Chunk(j, 0) < TABLE && M.Chunk(j, 1) < TABLE && M.Chunk(j, 2) < TABLE && M.Chunk(j, 3) < TABLE
  {
    Pow2Values();
    hide Low, Shift, Pow2;
    var n := M.Digest(j).0;
    LowBound(Shift(n, 0), 16);
    LowBound(Shift(n, 16), 16);
    LowBound(Shift(n, 32), 16);
    LowBound(Shift(n, 48), 16);
  }

  lemma ChunkNames(M: Machine, j: nat)
    ensures M.Chunk(j, 0) == ChunkOf(M.Digest(j).0, 0) && M.Chunk(j, 1) == ChunkOf(M.Digest(j).0, 1)
    ensures M.Chunk(j, 2) == ChunkOf(M.Digest(j).0, 2) && M.Chunk(j, 3) == ChunkOf(M.Digest(j).0, 3)
  {
  }

  lemma PairIs(F: Field, n: nat, b: nat)
    ensures F.Pair(n, b) == F.R.add(F.Emb(n), F.R.mul(F.y, F.Emb(b)))
  {
  }

  /** A decomposition that matches the digest's cell is the digest's own. */
  lemma SoundChunks(M: Machine, i: nat, j: nat, k0: nat, k1: nat, k2: nat, k3: nat, l1: Elem)
    requires Filled(M, i) && M.F.inK(l1)
    requires k0 <= TOP_INDEX && k1 <= TOP_INDEX && k2 <= TOP_INDEX && k3 <= TOP_INDEX
    requires var F, d := M.F, M.Digest(j);
      F.R.add(FourChunks(F, F.Emb(CellValue(i, k0)), F.Emb(CellValue(i, k1)), F.Emb(CellValue(i, k2)),
                         F.Emb(CellValue(i, k3))), F.R.mul(F.y, l1)) == F.Pair(d.0, d.1)
    ensures CellValue(i, k0) == M.Chunk(j, 0) && CellValue(i, k1) == M.Chunk(j, 1)
  {
    hide Field.Pow, Field.Emb, Low, Shift, Pow2, FourChunks, Machine.Digest, CellValue, Field.Pair;
    CellValueSmall(i, k0);
    CellValueSmall(i, k1);
    CellValueSmall(i, k2);
    CellValueSmall(i, k3);
    var b: nat :| b < Pow2(64) && l1 == M.F.Emb(b);
    DigestSmall(M, j);
    FieldLaws(M.F);
    var n := JoinSum(M.F, CellValue(i, k0), CellValue(i, k1), CellValue(i, k2), CellValue(i, k3));
    PairIs(M.F, n, b);
    M.F.PairInjective(n, b, M.Digest(j).0, M.Digest(j).1);
    ChunkNames(M, j);
  }

  lemma DigestSmall(M: Machine, j: nat)
    requires M.Valid()
    ensures M.Digest(j).0 < Pow2(64) && M.Digest(j).1 < Pow2(64)
  {
    hide Field.Pow, Field.Emb, Machine.MessageCell;
  }

  /** `digest_chunks`. */
  method DigestChunks(M: Machine, inp: Elem, h: Hints, ghost i: nat, ghost j: nat)
    returns (ok: bool, r0: Elem, r1: Elem, after: Hints)
    requires Filled(M, i) && M.MessageCell(j, 0) == M.F.R.zero && M.MessageCell(j, 1) == inp
    ensures ok ==> r0 == M.F.Emb(M.Chunk(j, 0)) && r1 == M.F.Emb(M.Chunk(j, 1))
    ensures ok ==> h.w != [] && after == h.(w := h.w[1..])
    ensures h.w != [] && h.w[0] == M.Witness(j) ==> ok
  {
    hide Field.Pow, Field.Emb, Filled, Machine.MessageCell, Machine.Chunk, Machine.Witness, Field.Valid;
    var l1;
    after := h;
    ok, r0, r1, l1 := HashChunks(M, inp, h.w, i, j);
    if ok {
      ok := M.F.inK(l1);
      after := h.(w := h.w[1..]);
    }
  }
}
