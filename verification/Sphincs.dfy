/** The signature scheme (sphincs_ref.py): tweakable hashes, one-time keys, the trees, and the
    reference verifier, for any hash function on words. */
module Sphincs {
  import opened Multilinear
  import opened Bits
  import opened SphincsTrees
  import opened Codewords

  type Word = n: nat | n < 0x1_0000_0000

  datatype Digest = Digest(w0: Word, w1: Word, w2: Word, w3: Word, w4: Word, w5: Word, w6: Word, w7: Word) {
    /** The first 16 bytes. */
    function Value(): (v: Val)
      ensures |v| == 4 && Words(v)
    {
      [w0, w1, w2, w3]
    }

    function All(): (d: seq<nat>)
      ensures |d| == 8 && Words(d)
    {
      [w0, w1, w2, w3, w4, w5, w6, w7]
    }
  }

  /** H: any function from words to digests. */
  type Hash = seq<nat> -> Digest

  const CHAIN_LEN := 8
  const LAYERS := 3

  /** The layers' heights, numbered from the top. */
  function Height(lay: nat): nat {
    if lay == 0 then 12 else 7
  }

  const INDEX_BITS := 26
  const FTS_HEIGHT := 10
  const FTS_TREES := 14
  const SPLIT_LEVEL := 6

  const PRF := 0
  const CHAIN := 1
  const LEAF := 2
  const NODE := 3
  const ENC := 4
  const PARAMETER := 5
  const RANDOMIZER := 7
  const FTS_PRF := 8
  const FTS_LEAF := 9
  const FTS_NODE := 10
  const FTS_ROOTS := 11
  const MSG := 12

  function Tweak(kind: nat, lay: nat, tau: nat, p: nat, j: nat): seq<nat> {
    [1 + 256 * kind + 65536 * lay, p, tau, j]
  }

  /** Th(P, tw, M): the first half of H(tw || P || M). */
  function Th(h: Hash, pp: Val, tweak: seq<nat>, payload: seq<nat>): (v: Val)
    ensures |v| == 4 && Words(v)
  {
    h(tweak + pp + payload).Value()
  }

  // ---- one-time keys ---------------------------------------------------------------------------

  /** Which key: its layer, tree and leaf. */
  datatype Place = Place(lay: nat, tau: nat, e: nat)

  function Chain(h: Hash, pp: Val, at: Place, i: nat, start: nat, steps: nat, value: Val): (v: Val)
    ensures |value| == 4 ==> |v| == 4
    decreases steps
  {
    if steps == 0 then value
    else Th(h, pp, Tweak(CHAIN, at.lay, at.tau, CHAIN_LEN * i + start + steps - 1, at.e),
            Chain(h, pp, at, i, start, steps - 1, value))
  }

  /** Walking a chain in two parts is walking it at once. */
  lemma {:induction false} ChainSplit(h: Hash, pp: Val, at: Place, i: nat, start: nat, a: nat, b: nat, value: Val)
    ensures Chain(h, pp, at, i, start + a, b, Chain(h, pp, at, i, start, a, value)) == Chain(h, pp, at, i, start, a + b, value)
    decreases b
  {
    if b > 0 {
      ChainSplit(h, pp, at, i, start, a, b - 1, value);
      assert CHAIN_LEN * i + (start + a) + b - 1 == CHAIN_LEN * i + start + (a + b) - 1;
    }
  }

  function Secret(h: Hash, pp: Val, master: seq<nat>, at: Place, i: nat): (v: Val)
    ensures |v| == 4
  {
    Th(h, pp, Tweak(PRF, at.lay, at.tau, i, at.e), master)
  }

  /** Values one after another, and the words of a stream as values. */
  function Flatten(vs: seq<Val>): seq<nat> {
    if vs == [] then [] else Flatten(vs[..|vs| - 1]) + vs[|vs| - 1]
  }

  ghost predicate Vals(vs: seq<Val>) {
    forall i :: 0 <= i < |vs| ==> |vs[i]| == 4
  }

  lemma {:induction false} FlattenAt(vs: seq<Val>, k: nat)
    requires Vals(vs)
    ensures |Flatten(vs)| == 4 * |vs|
    ensures k < |vs| ==> Flatten(vs)[4 * k..4 * k + 4] == vs[k]
  {
    if vs != [] {
      var l := |vs| - 1;
      FlattenAt(vs[..l], k);
    }
  }

  function Unflatten(s: seq<nat>, n: nat): (vs: seq<Val>)
    requires 4 * n <= |s|
    ensures |vs| == n && Vals(vs)
    ensures forall k :: 0 <= k < n ==> vs[k] == s[4 * k..4 * k + 4]
  {
    seq(n, k requires 0 <= k < n => s[4 * k..4 * k + 4])
  }

  lemma RoundTrip(vs: seq<Val>)
    requires Vals(vs)
    ensures |Flatten(vs)| == 4 * |vs| && Unflatten(Flatten(vs), |vs|) == vs
  {
    FlattenAt(vs, 0);
    forall k | 0 <= k < |vs|
      ensures Flatten(vs)[4 * k..4 * k + 4] == vs[k]
    {
      FlattenAt(vs, k);
    }
  }

  function LeafHash(h: Hash, pp: Val, at: Place, tips: seq<Val>): (v: Val)
    ensures |v| == 4
  {
    Th(h, pp, Tweak(LEAF, at.lay, at.tau, 0, at.e), Flatten(tips))
  }

  function Tip(h: Hash, pp: Val, master: seq<nat>, at: Place, i: nat): (v: Val)
    ensures |v| == 4
  {
    Chain(h, pp, at, i, 0, CHAIN_LEN - 1, Secret(h, pp, master, at, i))
  }

  /** The public leaf of a key. */
  function PublicLeaf(h: Hash, pp: Val, master: seq<nat>, at: Place): (v: Val)
    ensures |v| == 4
  {
    LeafHash(h, pp, at, seq(CHAINS, i requires 0 <= i < CHAINS => Tip(h, pp, master, at, i)))
  }

  function Encode(h: Hash, pp: Val, at: Place, m: Val, c: nat): (x: Option<seq<nat>>)
    ensures x.Some? ==> |x.value| == CHAINS && forall i :: 0 <= i < CHAINS ==> x.value[i] < CHAIN_LEN
  {
    var d := Th(h, pp, Tweak(ENC, at.lay, at.tau, 0, at.e), m + [c]);
    PositionsSmall(d);
    ReferenceCodeword(d)
  }

  lemma PositionsSmall(d: seq<nat>)
    requires |d| == 4
    ensures var x := ReferenceCodeword(d);
      x.Some? ==> |x.value| == CHAINS && forall i :: 0 <= i < CHAINS ==> x.value[i] < CHAIN_LEN
  {
    hide Shift, SeqSum, Half, Low;
    forall n: nat
      ensures Low(n, 3) < 8
    {
      ThreeBits(n);
    }
  }

  /** The leaf a one-time signature leads to. */
  function OtsLeaf(h: Hash, pp: Val, at: Place, m: Val, c: nat, sigma: seq<Val>): (v: Option<Val>)
    requires |sigma| == CHAINS
    ensures v.Some? ==> |v.value| == 4
  {
    match Encode(h, pp, at, m, c)
    case None => None
    case Some(x) =>
      Some(LeafHash(h, pp, at, seq(CHAINS, i requires 0 <= i < CHAINS =>
        Chain(h, pp, at, i, x[i], CHAIN_LEN - 1 - x[i], sigma[i]))))
  }

  /** What a one-time signature opens: each chain at its position. */
  ghost predicate Opens(h: Hash, pp: Val, master: seq<nat>, at: Place, m: Val, c: nat, sigma: seq<Val>) {
    && |sigma| == CHAINS && Encode(h, pp, at, m, c).Some?
    && forall i :: 0 <= i < CHAINS ==>
      sigma[i] == Chain(h, pp, at, i, 0, Encode(h, pp, at, m, c).value[i], Secret(h, pp, master, at, i))
  }

  /** An opened key leads to its public leaf, whatever was signed. */
  lemma OtsVerifies(h: Hash, pp: Val, master: seq<nat>, at: Place, m: Val, c: nat, sigma: seq<Val>)
    requires Opens(h, pp, master, at, m, c, sigma)
    ensures OtsLeaf(h, pp, at, m, c, sigma) == Some(PublicLeaf(h, pp, master, at))
  {
    hide Chain, Secret, Encode;
    var x := Encode(h, pp, at, m, c).value;
    var tips := seq(CHAINS, i requires 0 <= i < CHAINS => Chain(h, pp, at, i, x[i], CHAIN_LEN - 1 - x[i], sigma[i]));
    var public := seq(CHAINS, i requires 0 <= i < CHAINS => Tip(h, pp, master, at, i));
    forall i | 0 <= i < CHAINS
      ensures tips[i] == public[i]
    {
      ChainSplit(h, pp, at, i, 0, x[i], CHAIN_LEN - 1 - x[i], Secret(h, pp, master, at, i));
    }
    assert tips == public;
  }

  // ---- trees -----------------------------------------------------------------------------------

  function NodeOf(h: Hash, pp: Val, kind: nat, lay: nat, tau: nat): NodeHash {
    (level, j, left, right) => Th(h, pp, Tweak(kind, lay, tau, level, j), left + right)
  }

  /** The tree of one layer's one-time keys. */
  function LayerTree(h: Hash, pp: Val, master: seq<nat>, lay: nat, tau: nat): Merkle {
    Merkle(e => PublicLeaf(h, pp, master, Place(lay, tau, e)), NodeOf(h, pp, NODE, lay, tau))
  }

  function FtsSecret(h: Hash, pp: Val, master: seq<nat>, idx: nat, kappa: nat, j: nat): (v: Val)
    ensures |v| == 4
  {
    Th(h, pp, Tweak(FTS_PRF, kappa, idx, 0, j), master)
  }

  function FtsLeaf(h: Hash, pp: Val, idx: nat, kappa: nat, j: nat, secret: Val): (v: Val)
    ensures |v| == 4
  {
    Th(h, pp, Tweak(FTS_LEAF, kappa, idx, 0, j), secret)
  }

  function FtsTree(h: Hash, pp: Val, master: seq<nat>, idx: nat, kappa: nat): Merkle {
    Merkle(j => FtsLeaf(h, pp, idx, kappa, j, FtsSecret(h, pp, master, idx, kappa, j)), NodeOf(h, pp, FTS_NODE, kappa, idx))
  }

  function FtsKey(h: Hash, pp: Val, idx: nat, roots: seq<Val>): (v: Val)
    ensures |v| == 4
  {
    Th(h, pp, Tweak(FTS_ROOTS, 0, idx, 0, 0), Flatten(roots))
  }

  // ---- the message digest ----------------------------------------------------------------------

  function MessageHash(h: Hash, pp: Val, root: Val, rho: Val, m: seq<nat>): Digest {
    h(Tweak(MSG, 0, 0, 0, 0) + pp + rho + root + m)
  }

  /** The index bits and the kappa-th tree index, from the digest's first 22 bytes. */
  function IndexOf(d: Digest): nat {
    Low(Low(Number(d.All()), 176), INDEX_BITS)
  }

  function TreeIndex(d: Digest, kappa: nat): nat {
    Low(Shift(Low(Number(d.All()), 176), INDEX_BITS + FTS_HEIGHT * kappa), FTS_HEIGHT)
  }

  /** Index bits below layer `lay`: the heights of the layers under it. */
  function Below(lay: nat): nat
    decreases LAYERS - lay
  {
    if lay >= LAYERS - 1 then 0 else Height(lay + 1) + Below(lay + 1)
  }

  function PlaceOf(idx: nat, lay: nat): Place
  {
    Place(lay, Shift(idx, Below(lay) + Height(lay)), Low(Shift(idx, Below(lay)), Height(lay)))
  }

  // ---- the signature ---------------------------------------------------------------------------

  const OPENING_WORDS := 44
  const OTS_WORDS := 169
  const SIG_WORDS := 1231

  /** Where opening kappa starts. */
  function OpeningOffset(kappa: nat): nat {
    4 + 44 * kappa
  }

  function LayerOffset(lay: nat): nat
    requires lay <= 3
  {
    if lay == 0 then OpeningOffset(FTS_TREES) else LayerOffset(lay - 1) + OTS_WORDS + 4 * Height(lay - 1)
  }

  lemma Layout()
    ensures LayerOffset(0) == 620 && LayerOffset(1) == 837 && LayerOffset(2) == 1034 && LayerOffset(3) == SIG_WORDS
  {
    assert LayerOffset(1) == LayerOffset(0) + 169 + 48;
    assert LayerOffset(2) == LayerOffset(1) + 169 + 28;
  }

  /** The root a tree's opening (secret, then path) leads to. */
  function OpeningRoot(h: Hash, pp: Val, idx: nat, kappa: nat, u: nat, opening: seq<nat>): Val
    requires |opening| == OPENING_WORDS
  {
    TreeFold(NodeOf(h, pp, FTS_NODE, kappa, idx), u, 0, FtsLeaf(h, pp, idx, kappa, u, opening[..4]),
             Unflatten(opening[4..], FTS_HEIGHT))
  }

  function RecoveredRoot(h: Hash, pp: Val, d: Digest, sig: seq<nat>, kappa: nat): Val
    requires |sig| == SIG_WORDS && kappa < FTS_TREES
  {
    OpeningRoot(h, pp, IndexOf(d), kappa, TreeIndex(d, kappa), sig[OpeningOffset(kappa)..OpeningOffset(kappa + 1)])
  }

  function FtsRecover(h: Hash, pp: Val, d: Digest, sig: seq<nat>): Val
    requires |sig| == SIG_WORDS
  {
    FtsKey(h, pp, IndexOf(d), seq(FTS_TREES, kappa requires 0 <= kappa < FTS_TREES => RecoveredRoot(h, pp, d, sig, kappa)))
  }

  /** One layer: the root its counter, chain values and path lead to from the value below. */
  function LayerRoot(h: Hash, pp: Val, at: Place, m: Val, part: seq<nat>): Option<Val>
    requires |part| == OTS_WORDS + 4 * Height(at.lay)
  {
    match OtsLeaf(h, pp, at, m, part[0], Unflatten(part[1..], CHAINS))
    case None => None
    case Some(leaf) =>
      Some(TreeFold(NodeOf(h, pp, NODE, at.lay, at.tau), at.e, 0, leaf, Unflatten(part[OTS_WORDS..], Height(at.lay))))
  }

  /** The value the layers from `lay` up lead to. */
  function TopRoot(h: Hash, pp: Val, idx: nat, lays: nat, m: Val, sig: seq<nat>): Option<Val>
    requires lays <= 3 && |sig| == SIG_WORDS
  {
    Layout();
    if lays == 0 then Some(m)
    else match LayerRoot(h, pp, PlaceOf(idx, lays - 1), m, sig[LayerOffset(lays - 1)..LayerOffset(lays)])
      case None => None
      case Some(root) => TopRoot(h, pp, idx, lays - 1, root, sig)
  }

  /** The reference verifier. */
  predicate Verify(h: Hash, pp: Val, root: Val, m: seq<nat>, sig: seq<nat>) {
    |sig| == SIG_WORDS &&
    var d := MessageHash(h, pp, root, sig[..4], m);
    && TreeIndex(d, FTS_TREES) == 0
    && TopRoot(h, pp, IndexOf(d), 3, FtsRecover(h, pp, d, sig), sig) == Some(root)
  }
}
