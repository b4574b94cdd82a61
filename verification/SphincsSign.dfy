/** The signer (sphincs.c) on its buffers, and the theorem that the reference verifier accepts
    what it writes. */
module SphincsSign {
  import opened Multilinear
  import opened Bits
  import opened SphincsTrees
  import opened SphincsCache
  import opened Codewords
  import opened Sphincs

  const COUNTERS := 0x1_0000_0000

  // ---- writing into the signature --------------------------------------------------------------

  function Splice(s: seq<nat>, at: nat, data: seq<nat>): (r: seq<nat>)
    requires at + |data| <= |s|
    ensures |r| == |s|
  {
    s[..at] + data + s[at + |data|..]
  }

  lemma SpliceHas(s: seq<nat>, at: nat, data: seq<nat>)
    requires at + |data| <= |s|
    ensures Splice(s, at, data)[at..at + |data|] == data
  {
  }

  lemma SpliceKeeps(s: seq<nat>, at: nat, data: seq<nat>, lo: nat, hi: nat)
    requires at + |data| <= |s| && lo <= hi <= |s| && (hi <= at || at + |data| <= lo)
    ensures Splice(s, at, data)[lo..hi] == s[lo..hi]
  {
  }

  lemma SpliceNext(s: seq<nat>, at: nat, a: seq<nat>, b: seq<nat>)
    requires at + |a| + |b| <= |s|
    ensures Splice(Splice(s, at, a), at + |a|, b) == Splice(s, at, a + b)
  {
  }

  /** `memcpy` into the signature. */
  method Write(sig: array<nat>, at: nat, data: seq<nat>)
    requires at + |data| <= sig.Length
    modifies sig
    ensures sig[..] == Splice(old(sig[..]), at, data)
  {
    forall k | 0 <= k < |data| {
      sig[at + k] := data[k];
    }
  }

  // ---- one-time signatures ---------------------------------------------------------------------

  /** `chain`: the value walked `steps` steps in place. */
  method WalkChain(h: Hash, pp: Val, at: Place, i: nat, start: nat, steps: nat, value: Val) returns (v: Val)
    ensures v == Chain(h, pp, at, i, start, steps, value)
  {
    v := value;
    var step := 0;
    while step < steps
      invariant 0 <= step <= steps && v == Chain(h, pp, at, i, start, step, value)
    {
      v := Th(h, pp, Tweak(CHAIN, at.lay, at.tau, CHAIN_LEN * i + start + step, at.e), v);
      step := step + 1;
    }
  }

  /** `ots_public_leaf`: the tips hashed as they are made. */
  method StreamLeaf(h: Hash, pp: Val, master: seq<nat>, at: Place) returns (leaf: Val)
    ensures leaf == PublicLeaf(h, pp, master, at)
  {
    hide Chain, Secret;
    var fed, i := [], 0;
    ghost var tips := seq(CHAINS, i requires 0 <= i < CHAINS => Tip(h, pp, master, at, i));
    while i < CHAINS
      invariant 0 <= i <= CHAINS && fed == Flatten(tips[..i])
    {
      var s := Secret(h, pp, master, at, i);
      var v := WalkChain(h, pp, at, i, 0, CHAIN_LEN - 1, s);
      FlattenNext(tips, i);
      fed := fed + v;
      i := i + 1;
    }
    assert tips[..i] == tips;
    leaf := h(Tweak(LEAF, at.lay, at.tau, 0, at.e) + pp + fed).Value();
  }

  lemma FlattenNext(vs: seq<Val>, i: nat)
    requires i < |vs|
    ensures Flatten(vs[..i + 1]) == Flatten(vs[..i]) + vs[i]
  {
    assert vs[..i + 1][..i] == vs[..i];
  }

  function Opened(h: Hash, pp: Val, master: seq<nat>, at: Place, x: seq<nat>): (sigma: seq<Val>)
    requires |x| == CHAINS
    ensures |sigma| == CHAINS && Vals(sigma)
  {
    seq(CHAINS, i requires 0 <= i < CHAINS => Chain(h, pp, at, i, 0, x[i], Secret(h, pp, master, at, i)))
  }

  /** No counter of a layer gives a codeword: the search would not end. */
  ghost predicate NoCounter(h: Hash, pp: Val, at: Place, m: Val) {
    forall c :: 0 <= c < COUNTERS ==> Encode(h, pp, at, m, c).None?
  }

  ghost predicate LeastCounter(h: Hash, pp: Val, at: Place, m: Val, c: nat) {
    Encode(h, pp, at, m, c).Some? && forall k :: 0 <= k < c ==> Encode(h, pp, at, m, k).None?
  }

  /** The search of `ots_sign` for the least admissible counter. */
  method FindCounter(h: Hash, pp: Val, at: Place, m: Val, x: array<nat>) returns (c: Option<nat>)
    requires x.Length == CHAINS
    modifies x
    ensures c.None? ==> NoCounter(h, pp, at, m)
    ensures c.Some? ==> LeastCounter(h, pp, at, m, c.value) && Some(x[..]) == Encode(h, pp, at, m, c.value)
  {
    hide ReferenceCodeword;
    var n := 0;
    while n < COUNTERS
      invariant 0 <= n <= COUNTERS
      invariant forall k :: 0 <= k < n ==> Encode(h, pp, at, m, k).None?
    {
      var d := Th(h, pp, Tweak(ENC, at.lay, at.tau, 0, at.e), m + [n]);
      var ok := Codeword(x, d);
      if ok {
        return Some(n);
      }
      n := n + 1;
    }
    c := None;
  }

  /** The words of a one-time signature. */
  function OtsWords(h: Hash, pp: Val, master: seq<nat>, at: Place, c: nat, x: seq<nat>): seq<nat>
    requires |x| == CHAINS
  {
    [c] + Flatten(Opened(h, pp, master, at, x))
  }

  /** The chain values of `ots_sign`, each opened at its position, written after the counter. */
  method WriteChains(h: Hash, pp: Val, master: seq<nat>, at: Place, x: array<nat>, sig: array<nat>, out: nat)
    requires x.Length == CHAINS && out + 4 * CHAINS <= sig.Length && x != sig
    modifies sig
    ensures |Flatten(Opened(h, pp, master, at, x[..]))| == 4 * CHAINS
    ensures sig[..] == Splice(old(sig[..]), out, Flatten(Opened(h, pp, master, at, x[..])))
  {
    hide Chain, Secret, Splice, Flatten;
    ghost var was, sigma := sig[..], Opened(h, pp, master, at, x[..]);
    var i := 0;
    FlattenAt(sigma, 0);
    NothingWritten(was, out, sigma);
    while i < CHAINS
      invariant 0 <= i <= CHAINS && |Flatten(sigma[..i])| == 4 * i
      invariant sig[..] == Splice(was, out, Flatten(sigma[..i]))
    {
      var s := Secret(h, pp, master, at, i);
      var v := WalkChain(h, pp, at, i, 0, x[i], s);
      FlattenNext(sigma, i);
      SpliceNext(was, out, Flatten(sigma[..i]), v);
      Write(sig, out + 4 * i, v);
      i := i + 1;
    }
    assert sigma[..i] == sigma;
  }

  lemma NothingWritten(s: seq<nat>, at: nat, vs: seq<Val>)
    requires at <= |s|
    ensures Flatten(vs[..0]) == [] && Splice(s, at, []) == s
  {
  }

  /** `ots_sign` at `out`. */
  method OtsSign(h: Hash, pp: Val, master: seq<nat>, at: Place, m: Val, sig: array<nat>, out: nat) returns (c: Option<nat>)
    requires out + OTS_WORDS <= sig.Length
    modifies sig
    ensures c.None? ==> NoCounter(h, pp, at, m)
    ensures c.Some? ==> LeastCounter(h, pp, at, m, c.value)
    ensures c.Some? ==> var x := Encode(h, pp, at, m, c.value).value;
              |OtsWords(h, pp, master, at, c.value, x)| == OTS_WORDS &&
              sig[..] == Splice(old(sig[..]), out, OtsWords(h, pp, master, at, c.value, x))
  {
    hide Chain, Secret, Encode, Splice, NoCounter, Flatten, Opened;
    ghost var was := sig[..];
    var x := new nat[CHAINS](_ => 0);
    c := FindCounter(h, pp, at, m, x);
    if c.None? {
      return;
    }
    assert sig[..] == was;
    Write(sig, out, [c.value]);
    WriteChains(h, pp, master, at, x, sig, out + 1);
    SpliceNext(was, out, [c.value], Flatten(Opened(h, pp, master, at, x[..])));
  }

  // ---- a layer ---------------------------------------------------------------------------------

  function TruePath(t: Merkle, height: nat, e: nat): (path: seq<Val>)
    ensures |path| == height && IsPath(t, height, e, path)
  {
    seq(height, z requires 0 <= z < height => Tree(t, z, Sibling(e, z)))
  }

  lemma PathIs(t: Merkle, height: nat, e: nat, path: seq<Val>)
    requires |path| >= height && IsPath(t, height, e, path)
    ensures path[..height] == TruePath(t, height, e)
  {
    hide Tree;
  }

  lemma FtsVals(h: Hash, pp: Val, master: seq<nat>, idx: nat, kappa: nat, z: nat, j: nat)
    ensures |Tree(FtsTree(h, pp, master, idx, kappa), z, j)| == 4
  {
  }

  lemma LayerVals(h: Hash, pp: Val, master: seq<nat>, lay: nat, tau: nat, z: nat, j: nat)
    ensures |Tree(LayerTree(h, pp, master, lay, tau), z, j)| == 4
  {
  }

  function PlaceRoot(h: Hash, pp: Val, master: seq<nat>, at: Place): Val
  {
    Tree(LayerTree(h, pp, master, at.lay, at.tau), Height(at.lay), 0)
  }

  /** A layer's words: the one-time signature of m with counter c, then the key's path. */
  function SignedPart(h: Hash, pp: Val, master: seq<nat>, at: Place, m: Val, c: nat): seq<nat>
  {
    match Encode(h, pp, at, m, c)
    case None => []
    case Some(x) => LayerPart(h, pp, master, at, c, x)
  }

  function LayerPart(h: Hash, pp: Val, master: seq<nat>, at: Place, c: nat, x: seq<nat>): seq<nat>
    requires |x| == CHAINS
  {
    OtsWords(h, pp, master, at, c, x) + Flatten(TruePath(LayerTree(h, pp, master, at.lay, at.tau), Height(at.lay), at.e))
  }

  /** A signed layer leads to its tree's root. */
  lemma LayerVerifies(h: Hash, pp: Val, master: seq<nat>, at: Place, m: Val, c: nat)
    requires at.e < Pow2(Height(at.lay)) && Encode(h, pp, at, m, c).Some?
    ensures var part := SignedPart(h, pp, master, at, m, c);
      |part| == OTS_WORDS + 4 * Height(at.lay) &&
      LayerRoot(h, pp, at, m, part) == Some(PlaceRoot(h, pp, master, at))
  {
    hide Chain, Secret, Encode, Tree, Flatten, PublicLeaf, Pow2, Shift, OtsLeaf, TreeFold;
    var x, height := Encode(h, pp, at, m, c).value, Height(at.lay);
    var t, sigma := LayerTree(h, pp, master, at.lay, at.tau), Opened(h, pp, master, at, x);
    var path := TruePath(t, height, at.e);
    var part := LayerPart(h, pp, master, at, c, x);
    forall z | 0 <= z < height
      ensures |path[z]| == 4
    {
      LayerVals(h, pp, master, at.lay, at.tau, z, Sibling(at.e, z));
    }
    RoundTrip(sigma);
    RoundTrip(path);
    assert part[0] == c;
    UnflattenPrefix(Flatten(sigma), Flatten(path), CHAINS);
    assert part[1..] == Flatten(sigma) + Flatten(path) && part[OTS_WORDS..] == Flatten(path);
    OtsVerifies(h, pp, master, at, m, c, sigma);
    FoldPath(t, at.e, 0, height, path);
    LowSmall(at.e, height);
    LeafNode(t, at.e);
    assert path[0..] == path;
  }

  lemma LeafNode(t: Merkle, e: nat)
    ensures Tree(t, 0, Shift(e, 0)) == t.leaf(e)
  {
  }

  lemma UnflattenPrefix(a: seq<nat>, b: seq<nat>, n: nat)
    requires 4 * n <= |a|
    ensures Unflatten(a + b, n) == Unflatten(a, n)
  {
    forall k | 0 <= k < n
      ensures (a + b)[4 * k..4 * k + 4] == a[4 * k..4 * k + 4]
    {
    }
  }

  // ---- the key ---------------------------------------------------------------------------------

  class Key {
    var master: seq<nat>
    var pp: Val
    var root: Val
    const cache: array<Val>

    ghost predicate Valid(h: Hash)
      reads this, cache
    {
      && root == PlaceRoot(h, pp, master, Place(0, 0, 0))
      && cache.Length == Pow2(Height(0) - SPLIT_LEVEL)
      && IsLevel(LayerTree(h, pp, master, 0, 0), SPLIT_LEVEL, cache[..], cache.Length)
    }

    /** `spx_keygen`: the public parameter, then layer 0's root and cached level in one pass. */
    constructor Keygen(h: Hash, seed: seq<nat>)
      ensures Valid(h) && fresh(cache) && master == seed
      ensures pp == Th(h, [0, 0, 0, 0], Tweak(PARAMETER, 0, 0, 0, 0), seed)
    {
      hide Tree, Pow2, Shift;
      master, pp := seed, Th(h, [0, 0, 0, 0], Tweak(PARAMETER, 0, 0, 0, 0), seed);
      root := [];
      cache := new Val[Pow2(Height(0) - SPLIT_LEVEL)](_ => []);
      new;
      ShiftZero(SPLIT_LEVEL);
      root := TreeHash(LayerTree(h, pp, master, 0, 0), 0, 0, Height(0), Options(0, null, SPLIT_LEVEL, cache));
    }
  }

  /** The path of a one-time key and its tree's root: from the cache in layer 0, from the whole
      tree elsewhere. */
  method LayerPath(h: Hash, key: Key, at: Place, path: array<Val>) returns (root: Val)
    requires key.Valid(h) && at.e < Pow2(Height(at.lay)) && (at.lay == 0 ==> at.tau == 0)
    requires path != key.cache && path.Length == Height(at.lay)
    modifies path
    ensures path[..] == TruePath(LayerTree(h, key.pp, key.master, at.lay, at.tau), Height(at.lay), at.e)
    ensures root == PlaceRoot(h, key.pp, key.master, at)
  {
    hide Tree, Pow2, Shift, IsPath;
    var height, t := Height(at.lay), LayerTree(h, key.pp, key.master, at.lay, at.tau);
    if at.lay == 0 {
      root := CachedPathAndRoot(t, height, SPLIT_LEVEL, key.cache, at.e, path);
    } else {
      root := TreeHash(t, 0, 0, height, Options(at.e, path, 0, null));
    }
    PathIs(t, height, at.e, path[..]);
    assert path[..height] == path[..];
  }

  lemma LayerPathWords(h: Hash, pp: Val, master: seq<nat>, at: Place)
    ensures |Flatten(TruePath(LayerTree(h, pp, master, at.lay, at.tau), Height(at.lay), at.e))| == 4 * Height(at.lay)
  {
    hide Tree;
    var path := TruePath(LayerTree(h, pp, master, at.lay, at.tau), Height(at.lay), at.e);
    forall z | 0 <= z < |path|
      ensures |path[z]| == 4
    {
      LayerVals(h, pp, master, at.lay, at.tau, z, Sibling(at.e, z));
    }
    FlattenAt(path, 0);
  }

  /** From `was` to `now`, exactly the layer's words were written at `out`. */
  ghost predicate LayerWritten(h: Hash, pp: Val, master: seq<nat>, at: Place, m: Val, c: nat, was: seq<nat>, now: seq<nat>, out: nat)
  {
    var part := SignedPart(h, pp, master, at, m, c);
    && |part| == OTS_WORDS + 4 * Height(at.lay) && out + |part| <= |was|
    && now == Splice(was, out, part)
  }

  /** One layer of the signature: the one-time signature of the value below, then the path. */
  method SignLayer(h: Hash, key: Key, at: Place, m: Val, sig: array<nat>, out: nat) returns (root: Option<Val>, ghost c: nat)
    requires key.Valid(h)
    requires at.e < Pow2(Height(at.lay)) && (at.lay == 0 ==> at.tau == 0)
    requires out + OTS_WORDS + 4 * Height(at.lay) <= sig.Length
    modifies sig
    ensures root.None? ==> NoCounter(h, key.pp, at, m)
    ensures root.Some? ==> root.value == PlaceRoot(h, key.pp, key.master, at) && LeastCounter(h, key.pp, at, m, c)
    ensures root.Some? ==> LayerWritten(h, key.pp, key.master, at, m, c, old(sig[..]), sig[..], out)
  {
    hide Encode, Splice, NoCounter, OtsWords, Tree, Flatten, TruePath, Pow2, Shift, PlaceRoot, Key.Valid;
    ghost var was := sig[..];
    c := 0;
    var counter := OtsSign(h, key.pp, key.master, at, m, sig, out);
    if counter.None? {
      return None, 0;
    }
    c := counter.value;
    ghost var words := sig[..];
    var path := new Val[Height(at.lay)](_ => []);
    var top := LayerPath(h, key, at, path);
    assert sig[..] == words;
    LayerPathWords(h, key.pp, key.master, at);
    SpliceNext(was, out, OtsWords(h, key.pp, key.master, at, c, Encode(h, key.pp, at, m, c).value), Flatten(path[..]));
    Write(sig, out + OTS_WORDS, Flatten(path[..]));
    root := Some(top);
  }

  // ---- the few-time key ------------------------------------------------------------------------

  function FtsPath(h: Hash, pp: Val, master: seq<nat>, idx: nat, u: nat, kappa: nat): seq<Val> {
    TruePath(FtsTree(h, pp, master, idx, kappa), FTS_HEIGHT, u)
  }

  function FtsOpening(h: Hash, pp: Val, master: seq<nat>, idx: nat, u: nat, kappa: nat): seq<nat> {
    FtsSecret(h, pp, master, idx, kappa, u) + Flatten(FtsPath(h, pp, master, idx, u, kappa))
  }

  function FtsRoot(h: Hash, pp: Val, master: seq<nat>, idx: nat, kappa: nat): Val {
    Tree(FtsTree(h, pp, master, idx, kappa), FTS_HEIGHT, 0)
  }

  lemma FtsPathWords(h: Hash, pp: Val, master: seq<nat>, idx: nat, u: nat, kappa: nat)
    ensures |FtsPath(h, pp, master, idx, u, kappa)| == FTS_HEIGHT && Vals(FtsPath(h, pp, master, idx, u, kappa))
    ensures |Flatten(FtsPath(h, pp, master, idx, u, kappa))| == 40
  {
    hide Tree;
    var path := FtsPath(h, pp, master, idx, u, kappa);
    forall z | 0 <= z < FTS_HEIGHT
      ensures |path[z]| == 4
    {
      FtsVals(h, pp, master, idx, kappa, z, Sibling(u, z));
    }
    FlattenAt(path, 0);
  }

  /** An opening leads to its tree's root. */
  lemma OpeningVerifies(h: Hash, pp: Val, master: seq<nat>, idx: nat, u: nat, kappa: nat)
    requires u < Pow2(FTS_HEIGHT)
    ensures |FtsOpening(h, pp, master, idx, u, kappa)| == OPENING_WORDS
    ensures OpeningRoot(h, pp, idx, kappa, u, FtsOpening(h, pp, master, idx, u, kappa)) == FtsRoot(h, pp, master, idx, kappa)
  {
    hide Tree, Flatten, Pow2, Shift, TreeFold;
    var t, path, opening := FtsTree(h, pp, master, idx, kappa), FtsPath(h, pp, master, idx, u, kappa), FtsOpening(h, pp, master, idx, u, kappa);
    FtsPathWords(h, pp, master, idx, u, kappa);
    RoundTrip(path);
    assert opening[..4] == FtsSecret(h, pp, master, idx, kappa, u) && opening[4..] == Flatten(path);
    FoldPath(t, u, 0, FTS_HEIGHT, path);
    LowSmall(u, FTS_HEIGHT);
    LeafNode(t, u);
    assert path[0..] == path;
  }

  ghost predicate OpeningsWritten(h: Hash, pp: Val, master: seq<nat>, idx: nat, us: seq<nat>, sig: seq<nat>, n: nat) {
    n <= |us| && forall kappa :: 0 <= kappa < n ==> OpeningWritten(h, pp, master, idx, us[kappa], sig, kappa)
  }

  ghost predicate OpeningWritten(h: Hash, pp: Val, master: seq<nat>, idx: nat, u: nat, sig: seq<nat>, kappa: nat) {
    OpeningOffset(kappa + 1) <= |sig| && sig[OpeningOffset(kappa)..OpeningOffset(kappa + 1)] == FtsOpening(h, pp, master, idx, u, kappa)
  }

  lemma OpeningNext(h: Hash, pp: Val, master: seq<nat>, idx: nat, us: seq<nat>, sig: seq<nat>, n: nat, opening: seq<nat>, next: seq<nat>)
    requires OpeningsWritten(h, pp, master, idx, us, sig, n) && n < |us| && OpeningOffset(n + 1) <= |sig|
    requires |opening| == OPENING_WORDS && opening == FtsOpening(h, pp, master, idx, us[n], n)
    requires next == Splice(sig, OpeningOffset(n), opening)
    ensures OpeningsWritten(h, pp, master, idx, us, next, n + 1)
    ensures |next| == |sig| >= 4 && next[..4] == sig[..4]
  {
    hide FtsOpening, Splice;
    var at := OpeningOffset(n);
    SpliceHas(sig, at, opening);
    SpliceKeeps(sig, at, opening, 0, 4);
    forall kappa | 0 <= kappa < n
      ensures OpeningWritten(h, pp, master, idx, us[kappa], next, kappa)
    {
      assert OpeningWritten(h, pp, master, idx, us[kappa], sig, kappa);
      SpliceKeeps(sig, at, opening, OpeningOffset(kappa), OpeningOffset(kappa + 1));
    }
  }

  function FtsValue(h: Hash, pp: Val, master: seq<nat>, idx: nat): Val {
    FtsKey(h, pp, idx, seq(FTS_TREES, kappa requires 0 <= kappa < FTS_TREES => FtsRoot(h, pp, master, idx, kappa)))
  }

  ghost predicate Indices(d: Digest, us: seq<nat>) {
    |us| == FTS_TREES + 1 && forall kappa :: 0 <= kappa <= FTS_TREES ==> us[kappa] == TreeIndex(d, kappa) < Pow2(FTS_HEIGHT)
  }

  /** The openings written lead to the key over the trees' roots. */
  lemma FtsVerifies(h: Hash, pp: Val, master: seq<nat>, d: Digest, us: seq<nat>, sig: seq<nat>)
    requires |sig| == SIG_WORDS && Indices(d, us) && OpeningsWritten(h, pp, master, IndexOf(d), us, sig, FTS_TREES)
    ensures FtsRecover(h, pp, d, sig) == FtsValue(h, pp, master, IndexOf(d))
  {
    hide FtsOpening, FtsRoot, OpeningRoot, IndexOf, TreeIndex, Pow2;
    var idx := IndexOf(d);
    var roots := seq(FTS_TREES, kappa requires 0 <= kappa < FTS_TREES => FtsRoot(h, pp, master, idx, kappa));
    var recovered := seq(FTS_TREES, kappa requires 0 <= kappa < FTS_TREES => RecoveredRoot(h, pp, d, sig, kappa));
    forall kappa | 0 <= kappa < FTS_TREES
      ensures recovered[kappa] == roots[kappa]
    {
      OpeningVerifies(h, pp, master, idx, us[kappa], kappa);
      assert OpeningWritten(h, pp, master, idx, us[kappa], sig, kappa);
    }
    assert recovered == roots;
  }

  /** The FORS step: each tree opened at its index, and the key over the roots. */
  method SignFts(h: Hash, pp: Val, master: seq<nat>, idx: nat, us: seq<nat>, sig: array<nat>) returns (message: Val)
    requires sig.Length == SIG_WORDS && |us| == FTS_TREES + 1 && forall k :: 0 <= k < |us| ==> us[k] < Pow2(FTS_HEIGHT)
    modifies sig
    ensures OpeningsWritten(h, pp, master, idx, us, sig[..], FTS_TREES) && sig[..4] == old(sig[..4])
    ensures message == FtsValue(h, pp, master, idx)
  {
    hide FtsOpening, FtsRoot, Tree, Pow2, Shift, OpeningsWritten, Splice, IsPath, FtsSecret;
    var fed, kappa := [], 0;
    ghost var roots := seq(FTS_TREES, kappa requires 0 <= kappa < FTS_TREES => FtsRoot(h, pp, master, idx, kappa));
    NoOpenings(h, pp, master, idx, us, sig[..]);
    while kappa < FTS_TREES
      invariant 0 <= kappa <= FTS_TREES && fed == Flatten(roots[..kappa])
      invariant OpeningsWritten(h, pp, master, idx, us, sig[..], kappa) && sig[..4] == old(sig[..4])
    {
      ghost var was := sig[..];
      var root := OpenTree(h, pp, master, idx, us[kappa], kappa, sig);
      FlattenNext(roots, kappa);
      fed := fed + root;
      OpeningVerifies(h, pp, master, idx, us[kappa], kappa);
      OpeningNext(h, pp, master, idx, us, was, kappa, FtsOpening(h, pp, master, idx, us[kappa], kappa), sig[..]);
      assert sig[..4] == sig[..][..4];
      kappa := kappa + 1;
    }
    assert roots[..kappa] == roots;
    message := h(Tweak(FTS_ROOTS, 0, idx, 0, 0) + pp + fed).Value();
  }

  lemma NoOpenings(h: Hash, pp: Val, master: seq<nat>, idx: nat, us: seq<nat>, sig: seq<nat>)
    ensures OpeningsWritten(h, pp, master, idx, us, sig, 0)
  {
  }

  method OpenTree(h: Hash, pp: Val, master: seq<nat>, idx: nat, u: nat, kappa: nat, sig: array<nat>) returns (root: Val)
    requires OpeningOffset(kappa + 1) <= sig.Length && u < Pow2(FTS_HEIGHT)
    modifies sig
    ensures root == FtsRoot(h, pp, master, idx, kappa) && |FtsOpening(h, pp, master, idx, u, kappa)| == OPENING_WORDS
    ensures sig[..] == Splice(old(sig[..]), OpeningOffset(kappa), FtsOpening(h, pp, master, idx, u, kappa))
  {
    hide Tree, Pow2, Shift, Splice, IsPath, FtsSecret, Flatten;
    ghost var was, t := sig[..], FtsTree(h, pp, master, idx, kappa);
    var path := new Val[FTS_HEIGHT](_ => []);
    root := TreeHash(FtsTree(h, pp, master, idx, kappa), 0, 0, FTS_HEIGHT, Options(u, path, 0, null));
    assert sig[..] == was;
    var secret := FtsSecret(h, pp, master, idx, kappa, u);
    PathIs(t, FTS_HEIGHT, u, path[..]);
    assert path[..FTS_HEIGHT] == path[..];
    FtsPathWords(h, pp, master, idx, u, kappa);
    SpliceNext(was, OpeningOffset(kappa), secret, Flatten(path[..]));
    Write(sig, OpeningOffset(kappa), secret);
    Write(sig, OpeningOffset(kappa) + 4, Flatten(path[..]));
  }
}
