/** The proof-of-work statement (pow.py, main.rs): what a hit is, the machine the guest runs on,
    and the hints an honest prover supplies.

    Memory is write-once and chosen by the prover, so a write is an equality the run checks, and
    a read succeeds exactly at the generator's first `size` powers. */
module Guest {
  import opened Rings
  import opened Multilinear
  import opened Bits
  import opened GuestField

  const TABLE := 65536
  const TABLE_BASE := 2
  const TOP_INDEX := 65537
  const BLOCK := 16

  /** The prover's three hint streams: digest witnesses, block flags, bit decompositions. */
  datatype Hints = Hints(w: seq<seq<Elem>>, slow: seq<Elem>, bits: seq<seq<Elem>>)

  function Then(a: Hints, b: Hints): Hints {
    Hints(a.w + b.w, a.slow + b.slow, a.bits + b.bits)
  }

  const NO_HINTS := Hints([], [], [])

  /** Byte b of the 32-byte big-endian word j. */
  function MessageByte(j: nat, b: nat): nat
    requires b < 32
  {
    Low(Shift(j, 8 * (31 - b)), 8)
  }

  /** The little-endian number in bytes n, .., 7 of lane k of the message. */
  function LaneFrom(j: nat, k: nat, n: nat): nat
    requires k < 4 && n <= 8
    decreases 8 - n
  {
    if n == 8 then 0 else MessageByte(j, 8 * k + n) + 256 * LaneFrom(j, k, n + 1)
  }

  function Lane(j: nat, k: nat): nat
    requires k < 4
  {
    LaneFrom(j, k, 0)
  }

  /** The bit of lane 0 that is the digest's k-th leading bit: byte k / 8, most significant first. */
  function Position(k: nat): nat {
    8 * (k / 8) + 7 - k % 8
  }

  /** main.rs's `mask`, as the set of its bits. */
  function Mask(difficulty: nat): set<nat> {
    if difficulty == 0 then {} else Mask(difficulty - 1) + {Position(difficulty - 1)}
  }

  datatype Machine = Machine(F: Field, memory: map<Elem, Elem>, size: nat, sponge: (Elem, Elem) -> (nat, nat),
                             difficulty: nat) {

    ghost predicate Valid() {
      && F.Valid()
      && TOP_INDEX < size
      && 2 * size <= F.order
      && 16 <= difficulty <= 32
      && (forall k: nat {:trigger Compare(k, 0, 0, 0)} :: k < size ==> F.Pow(k) in memory)
      && (forall a {:trigger a in memory} :: a in memory ==> exists k: nat :: k < size && a == F.Pow(k))
      && (forall a, b :: sponge(a, b).0 < Pow2(64) && sponge(a, b).1 < Pow2(64))
    }

    ghost function Cell(k: nat): Elem
      requires Valid() && k < size
    {
      assert Compare(k, 0, 0, 0);
      memory[F.Pow(k)]
    }

    /** The message of j as the two cells the permutation reads. */
    function MessageCell(j: nat, c: nat): Elem
      requires c < 2
    {
      F.Pair(Lane(j, 2 * c), Lane(j, 2 * c + 1))
    }

    /** Lane 0 and lane 1 of the digest of j. */
    function Digest(j: nat): (nat, nat) {
      sponge(MessageCell(j, 0), MessageCell(j, 1))
    }

    /** The digest of j starts with `difficulty` zero bits. */
    ghost predicate Hit(j: nat) {
      forall k: nat :: k < difficulty ==> Bit(Digest(j).0, Position(k)) == 0
    }

    ghost predicate NoHits(a: nat, b: nat) {
      forall j: nat :: a <= j < b ==> !Hit(j)
    }

    ghost predicate SmallestHit(i: nat) {
      Hit(i) && NoHits(0, i)
    }

    /** The guest's compiled-in mask: which bits of the second chunk are leading bits. */
    predicate Mask1(k: nat) {
      16 + k in Mask(difficulty)
    }

    // ---- the honest hints ----------------------------------------------------------------------

    function Chunk(j: nat, c: nat): nat {
      Low(Shift(Digest(j).0, 16 * c), 16)
    }

    /** Where each chunk of j's digest sits in the table, and the digest's lane 1. */
    function Witness(j: nat): seq<Elem> {
      [F.Pow(TABLE_BASE + Chunk(j, 0)), F.Pow(TABLE_BASE + Chunk(j, 1)), F.Pow(TABLE_BASE + Chunk(j, 2)),
       F.Pow(TABLE_BASE + Chunk(j, 3)), F.Emb(Digest(j).1)]
    }

    function Witnesses(a: nat, b: nat): seq<seq<Elem>>
      decreases b - a
    {
      if a >= b then [] else [Witness(a)] + Witnesses(a + 1, b)
    }

    function BitAt(n: nat, k: nat): Elem {
      F.BitElem(Bit(n, k))
    }

    function BitsOf(n: nat, len: nat): (s: seq<Elem>)
      ensures |s| == len
      ensures forall k: nat :: k < len ==> s[k] == BitAt(n, k)
    {
      seq(len, k requires 0 <= k < len => BitAt(n, k))
    }

    function ChunkBits(a: nat, b: nat): seq<seq<Elem>>
      decreases b - a
    {
      if a >= b then [] else [BitsOf(Chunk(a, 1), 16)] + ChunkBits(a + 1, b)
    }

    /** A block takes the slow path when one of its digests has a zero first chunk. */
    predicate SlowBlock(block: nat) {
      exists j: nat :: BLOCK * block <= j < BLOCK * block + BLOCK && ZeroChunk(j)
    }

    predicate ZeroChunk(j: nat) {
      Chunk(j, 0) == 0
    }

    function BlockHints(block: nat): Hints {
      var j := BLOCK * block;
      if SlowBlock(block) then Then(Hints([], [F.R.one], []), SinglesHints(j, j + BLOCK))
      else Hints(Witnesses(j, j + BLOCK), [F.R.zero], [])
    }

    function BlocksHints(a: nat, b: nat): Hints
      decreases b - a
    {
      if a >= b then NO_HINTS else Then(BlockHints(a), BlocksHints(a + 1, b))
    }

    /** Digests hashed one at a time. */
    function SinglesHints(a: nat, b: nat): Hints {
      Hints(Witnesses(a, b), [], ChunkBits(a, b))
    }

    /** main.rs's `advice`, with the bit decompositions the guest asks for in between. */
    function Advice(i: nat): Hints {
      var full := i / BLOCK;
      Then(Hints([], [], [BitsOf(i % TABLE, 16), BitsOf(i / TABLE, 8)]),
           Then(BlocksHints(0, full), SinglesHints(BLOCK * full, i + 1)))
    }
  }

  // ---- what a hit means on chunks --------------------------------------------------------------

  lemma PositionInvolutive(k: nat)
    ensures Position(Position(k)) == k && Position(k) / 8 == k / 8
  {
    DivUnique(Position(k), 8, k / 8, 7 - k % 8);
  }

  lemma {:induction false} MaskIs(difficulty: nat, p: nat)
    ensures p in Mask(difficulty) <==> Position(p) < difficulty
  {
    if difficulty > 0 {
      MaskIs(difficulty - 1, p);
      PositionInvolutive(p);
      PositionInvolutive(difficulty - 1);
    }
  }

  /** A hit, on the first two chunks: the first is zero, and so is every masked bit of the second. */
  lemma HitOnChunks(M: Machine, j: nat)
    requires 16 <= M.difficulty <= 32
    ensures M.Hit(j) <==> M.Chunk(j, 0) == 0 && forall k: nat :: k < 16 && M.Mask1(k) ==> Bit(M.Chunk(j, 1), k) == 0
  {
    hide Low, Shift, Bit, Mask;
    var n := M.Digest(j).0;
    if M.Hit(j) {
      HitChunks(M, j);
    }
    if M.Chunk(j, 0) == 0 && forall k: nat :: k < 16 && M.Mask1(k) ==> Bit(M.Chunk(j, 1), k) == 0 {
      forall k: nat | k < M.difficulty
        ensures Bit(n, Position(k)) == 0
      {
        LeadingBit(M, j, k);
      }
    }
  }

  lemma HitChunks(M: Machine, j: nat)
    requires 16 <= M.difficulty <= 32 && M.Hit(j)
    ensures M.Chunk(j, 0) == 0 && forall k: nat :: k < 16 && M.Mask1(k) ==> Bit(M.Chunk(j, 1), k) == 0
  {
    hide Low, Bit, Mask;
    var n := M.Digest(j).0;
    forall s: nat | s < 16
      ensures Bit(n, s) == 0
    {
      PositionInvolutive(s);
      assert Bit(n, Position(Position(s))) == 0;
    }
    ZeroBits(n, 16);
    assert Shift(n, 0) == n;
    forall k: nat | k < 16 && M.Mask1(k)
      ensures Bit(M.Chunk(j, 1), k) == 0
    {
      MaskIs(M.difficulty, 16 + k);
      PositionInvolutive(16 + k);
      assert Bit(n, Position(Position(16 + k))) == 0;
      ChunkBit(M, j, 1, k);
    }
  }

  lemma LeadingBit(M: Machine, j: nat, k: nat)
    requires 16 <= M.difficulty <= 32 && k < M.difficulty && M.Chunk(j, 0) == 0
    requires forall k: nat :: k < 16 && M.Mask1(k) ==> Bit(M.Chunk(j, 1), k) == 0
    ensures Bit(M.Digest(j).0, Position(k)) == 0
  {
    hide Low, Bit, Mask;
    PositionInvolutive(k);
    var s := Position(k);
    if s < 16 {
      ZeroLow(M.Digest(j).0, 16, s);
    } else {
      MaskIs(M.difficulty, s);
      assert M.Mask1(s - 16);
      ChunkBit(M, j, 1, s - 16);
    }
  }

  lemma ChunkBit(M: Machine, j: nat, c: nat, k: nat)
    requires k < 16
    ensures Bit(M.Chunk(j, c), k) == Bit(M.Digest(j).0, 16 * c + k)
  {
    var n := M.Digest(j).0;
    BitLow(Shift(n, 16 * c), 16, k);
    BitShift(n, 16 * c, k);
  }
}
