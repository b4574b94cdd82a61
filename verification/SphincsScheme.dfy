/** `spx_sign` from end to end: whenever its searches end it returns true, and the reference
    verifier accepts the signature. */
module SphincsScheme {
  import opened Multilinear
  import opened Bits
  import opened SphincsTrees
  import opened Codewords
  import opened Sphincs
  import opened SphincsSign

  const TRIALS := 0x1_0000_0000

  function Randomizer(h: Hash, pp: Val, master: seq<nat>, m: seq<nat>, trial: nat): (rho: Val)
    ensures |rho| == 4
  {
    h(Tweak(RANDOMIZER, 0, 0, trial, 0) + pp + master + m).Value()
  }

  function TrialDigest(h: Hash, pp: Val, root: Val, master: seq<nat>, m: seq<nat>, trial: nat): Digest {
    MessageHash(h, pp, root, Randomizer(h, pp, master, m, trial), m)
  }

  /** No randomizer zeroes the last tree index: the search would not end. */
  ghost predicate NoRandomizer(h: Hash, pp: Val, root: Val, master: seq<nat>, m: seq<nat>) {
    forall trial :: 0 <= trial < TRIALS ==> TreeIndex(TrialDigest(h, pp, root, master, m, trial), FTS_TREES) != 0
  }

  /** The device's bits are the reference's. */
  lemma DeviceIndices(d: Digest, kappa: nat)
    requires kappa <= FTS_TREES
    ensures DigestBits(d.All(), 0, INDEX_BITS) == IndexOf(d)
    ensures DigestBits(d.All(), INDEX_BITS + FTS_HEIGHT * kappa, FTS_HEIGHT) == TreeIndex(d, kappa)
    ensures TreeIndex(d, kappa) < Pow2(FTS_HEIGHT) && IndexOf(d) < Pow2(INDEX_BITS)
  {
    hide Shift, Low, Pow2, Number, Digest.All;
    var n, off := Number(d.All()), 26 + 10 * kappa;
    DigestBitsExact(d.All(), 0, 26);
    DigestBitsExact(d.All(), off, 10);
    ReferenceBits(n, 176, 0, 26);
    ReferenceBits(n, 176, off, 10);
    NoShift(n);
    NoShift(Low(n, 176));
    LowBound(Low(n, 176), 26);
    LowBound(Shift(Low(n, 176), off), 10);
  }

  lemma NoShift(n: nat)
    ensures Shift(n, 0) == n
  {
  }

  /** The least trial whose digest's last index is zero. */
  ghost predicate FirstTrial(h: Hash, pp: Val, root: Val, master: seq<nat>, m: seq<nat>, trial: nat) {
    && trial < TRIALS && TreeIndex(TrialDigest(h, pp, root, master, m, trial), FTS_TREES) == 0
    && forall k :: 0 <= k < trial ==> TreeIndex(TrialDigest(h, pp, root, master, m, k), FTS_TREES) != 0
  }

  /** The first search: randomizers until the digest's last index is zero. */
  method FindRandomizer(h: Hash, pp: Val, root: Val, master: seq<nat>, m: seq<nat>) returns (found: Option<(Val, Digest)>, trial: nat)
    ensures found.None? ==> NoRandomizer(h, pp, root, master, m)
    ensures found.Some? ==>
              && FirstTrial(h, pp, root, master, m, trial)
              && found.value.0 == Randomizer(h, pp, master, m, trial) && |found.value.0| == 4
              && found.value.1 == MessageHash(h, pp, root, found.value.0, m) == TrialDigest(h, pp, root, master, m, trial)
  {
    hide TreeIndex, DigestBits;
    trial := 0;
    while trial < TRIALS
      invariant 0 <= trial <= TRIALS
      invariant forall k :: 0 <= k < trial ==> TreeIndex(TrialDigest(h, pp, root, master, m, k), FTS_TREES) != 0
    {
      var rho := Randomizer(h, pp, master, m, trial);
      var d := MessageHash(h, pp, root, rho, m);
      DeviceIndices(d, FTS_TREES);
      WindowFits(d, FTS_TREES);
      if DigestBits(d.All(), INDEX_BITS + FTS_HEIGHT * FTS_TREES, FTS_HEIGHT) == 0 {
        return Some((rho, d)), trial;
      }
      trial := trial + 1;
    }
    found := None;
  }

  lemma WindowFits(d: Digest, kappa: nat)
    requires kappa <= FTS_TREES
    ensures (INDEX_BITS + FTS_HEIGHT * kappa) / 32 < |d.All()|
  {
    assert (26 + 10 * kappa) / 32 < 8;
  }

  /** The indices read off the digest. */
  method ReadIndices(d: Digest) returns (idx: nat, us: seq<nat>)
    ensures idx == IndexOf(d) < Pow2(INDEX_BITS) && Indices(d, us)
  {
    hide TreeIndex, DigestBits, IndexOf, Pow2;
    DeviceIndices(d, 0);
    WindowFits(d, 0);
    idx := DigestBits(d.All(), 0, INDEX_BITS);
    us := [];
    while |us| <= FTS_TREES
      invariant |us| <= FTS_TREES + 1
      invariant forall k :: 0 <= k < |us| ==> us[k] == TreeIndex(d, k) < Pow2(FTS_HEIGHT)
    {
      DeviceIndices(d, |us|);
      WindowFits(d, |us|);
      us := us + [DigestBits(d.All(), INDEX_BITS + FTS_HEIGHT * |us|, FTS_HEIGHT)];
    }
  }

  /** What a layer signs: the few-time key under layer 2, else the root of the tree below. */
  function SignedValue(h: Hash, pp: Val, master: seq<nat>, idx: nat, lay: nat): Val {
    if lay >= LAYERS - 1 then FtsValue(h, pp, master, idx) else PlaceRoot(h, pp, master, PlaceOf(idx, lay + 1))
  }

  /** A layer's place is within its tree, and layer 0 has one tree. */
  lemma PlaceFits(idx: nat, lay: nat)
    requires idx < Pow2(INDEX_BITS) && lay < LAYERS
    ensures var at := PlaceOf(idx, lay);
      at.lay == lay && at.e < Pow2(Height(lay)) && (lay == 0 ==> at.tau == 0)
  {
    hide Shift, Low, Pow2;
    LowBound(Shift(idx, Below(lay)), Height(lay));
    BelowIs();
    LowSmall(idx, INDEX_BITS);
  }

  lemma BelowIs()
    ensures Below(0) == 14 && Below(1) == 7 && Below(2) == 0
  {
  }

  /** How `spx_sign` splits the index is how the reference does. */
  lemma TauSplits(idx: nat, lay: nat)
    requires lay < LAYERS
    ensures Shift(Shift(idx, Below(lay)), Height(lay)) == PlaceOf(idx, lay).tau
  {
    hide Shift;
    ShiftShift(idx, Below(lay), Height(lay));
  }

  /** The part of the signature that layer `lay` occupies leads to that layer's root. */
  ghost predicate LayerDone(h: Hash, pp: Val, master: seq<nat>, idx: nat, sig: seq<nat>, lay: nat) {
    && lay < LAYERS && LayerOffset(lay) <= LayerOffset(lay + 1) <= |sig|
    && LayerOffset(lay + 1) - LayerOffset(lay) == OTS_WORDS + 4 * Height(lay)
    && LayerRoot(h, pp, PlaceOf(idx, lay), SignedValue(h, pp, master, idx, lay), sig[LayerOffset(lay)..LayerOffset(lay + 1)])
       == Some(PlaceRoot(h, pp, master, PlaceOf(idx, lay)))
  }

  /** Writing a layer completes it and leaves the others and the few-time part alone. */
  lemma LayerStep(h: Hash, pp: Val, master: seq<nat>, idx: nat, us: seq<nat>, lay: nat, c: nat, was: seq<nat>, now: seq<nat>)
    requires |was| == |now| == SIG_WORDS && lay < LAYERS && idx < Pow2(INDEX_BITS)
    requires Encode(h, pp, PlaceOf(idx, lay), SignedValue(h, pp, master, idx, lay), c).Some?
    requires LayerWritten(h, pp, master, PlaceOf(idx, lay), SignedValue(h, pp, master, idx, lay), c, was, now, LayerOffset(lay))
    requires OpeningsWritten(h, pp, master, idx, us, was, FTS_TREES)
    ensures LayerDone(h, pp, master, idx, now, lay) && now[..4] == was[..4]
    ensures forall l :: 0 <= l < LAYERS && l != lay && LayerDone(h, pp, master, idx, was, l) ==> LayerDone(h, pp, master, idx, now, l)
    ensures OpeningsWritten(h, pp, master, idx, us, now, FTS_TREES)
  {
    hide LayerRoot, SignedPart, Encode, Splice, PlaceRoot, FtsOpening, PlaceOf, SignedValue, LayerOffset;
    var at, m, part := PlaceOf(idx, lay), SignedValue(h, pp, master, idx, lay), SignedPart(h, pp, master, PlaceOf(idx, lay), SignedValue(h, pp, master, idx, lay), c);
    Layout();
    PlaceFits(idx, lay);
    LayerVerifies(h, pp, master, at, m, c);
    SpliceHas(was, LayerOffset(lay), part);
    SpliceKeeps(was, LayerOffset(lay), part, 0, 4);
    forall l | 0 <= l < LAYERS && l != lay && LayerDone(h, pp, master, idx, was, l)
      ensures LayerDone(h, pp, master, idx, now, l)
    {
      SpliceKeeps(was, LayerOffset(lay), part, LayerOffset(l), LayerOffset(l + 1));
    }
    forall kappa | 0 <= kappa < FTS_TREES
      ensures OpeningWritten(h, pp, master, idx, us[kappa], now, kappa)
    {
      assert OpeningWritten(h, pp, master, idx, us[kappa], was, kappa);
      SpliceKeeps(was, LayerOffset(lay), part, OpeningOffset(kappa), OpeningOffset(kappa + 1));
    }
  }

  /** With all layers done the reference climbs to the top root. */
  lemma TopReached(h: Hash, pp: Val, master: seq<nat>, idx: nat, sig: seq<nat>)
    requires |sig| == SIG_WORDS && forall l :: 0 <= l < LAYERS ==> LayerDone(h, pp, master, idx, sig, l)
    ensures TopRoot(h, pp, idx, 3, FtsValue(h, pp, master, idx), sig) == Some(PlaceRoot(h, pp, master, PlaceOf(idx, 0)))
  {
    hide LayerRoot, PlaceRoot, PlaceOf, FtsValue, LayerOffset;
    assert LayerDone(h, pp, master, idx, sig, 2) && LayerDone(h, pp, master, idx, sig, 1) && LayerDone(h, pp, master, idx, sig, 0);
    assert TopRoot(h, pp, idx, 0, PlaceRoot(h, pp, master, PlaceOf(idx, 0)), sig) == Some(PlaceRoot(h, pp, master, PlaceOf(idx, 0)));
    assert TopRoot(h, pp, idx, 1, PlaceRoot(h, pp, master, PlaceOf(idx, 1)), sig) == Some(PlaceRoot(h, pp, master, PlaceOf(idx, 0)));
    assert TopRoot(h, pp, idx, 2, PlaceRoot(h, pp, master, PlaceOf(idx, 2)), sig) == Some(PlaceRoot(h, pp, master, PlaceOf(idx, 0)));
  }

  /** One of the two searches has no answer below 2^32. */
  ghost predicate Stuck(h: Hash, pp: Val, root: Val, master: seq<nat>, m: seq<nat>) {
    || NoRandomizer(h, pp, root, master, m)
    || exists trial: nat :: FirstTrial(h, pp, root, master, m, trial)
         && StuckLayer(h, pp, master, IndexOf(TrialDigest(h, pp, root, master, m, trial)))
  }

  /** All three layers done, the few-time part still in place. */
  ghost predicate LayersDone(h: Hash, pp: Val, master: seq<nat>, idx: nat, us: seq<nat>, was: seq<nat>, now: seq<nat>) {
    && |was| == |now| == SIG_WORDS && now[..4] == was[..4]
    && OpeningsWritten(h, pp, master, idx, us, now, FTS_TREES)
    && forall l :: 0 <= l < LAYERS ==> LayerDone(h, pp, master, idx, now, l)
  }

  ghost predicate StuckLayer(h: Hash, pp: Val, master: seq<nat>, idx: nat) {
    exists lay: nat :: lay < LAYERS && NoCounter(h, pp, PlaceOf(idx, lay), SignedValue(h, pp, master, idx, lay))
  }

  /** Layers 2, 1 and 0, each signing the value below it. */
  method SignLayers(h: Hash, key: Key, idx: nat, ghost us: seq<nat>, message: Val, sig: array<nat>) returns (top: Option<Val>)
    requires key.Valid(h) && sig.Length == SIG_WORDS && idx < Pow2(INDEX_BITS) && message == FtsValue(h, key.pp, key.master, idx)
    requires OpeningsWritten(h, key.pp, key.master, idx, us, sig[..], FTS_TREES)
    modifies sig
    ensures top.None? ==> StuckLayer(h, key.pp, key.master, idx)
    ensures top.Some? ==> top.value == PlaceRoot(h, key.pp, key.master, PlaceOf(idx, 0))
    ensures top.Some? ==> LayersDone(h, key.pp, key.master, idx, us, old(sig[..]), sig[..])
  {
    hide Key.Valid, LayerDone, OpeningsWritten, LayerWritten, Encode, PlaceRoot, FtsValue, NoCounter, PlaceOf, Pow2, LayerOffset;
    ghost var pp, master := key.pp, key.master;
    var value, lay := message, LAYERS;
    while lay > 0
      invariant 0 <= lay <= LAYERS && key.Valid(h) && key.pp == pp && key.master == master
      invariant value == if lay == LAYERS then FtsValue(h, pp, master, idx) else PlaceRoot(h, pp, master, PlaceOf(idx, lay))
      invariant OpeningsWritten(h, pp, master, idx, us, sig[..], FTS_TREES) && sig[..4] == old(sig[..4])
      invariant forall l :: lay <= l < LAYERS ==> LayerDone(h, pp, master, idx, sig[..], l)
    {
      lay := lay - 1;
      Layout();
      PlaceFits(idx, lay);
      ghost var was := sig[..];
      var root, c := SignLayer(h, key, PlaceOf(idx, lay), value, sig, LayerOffset(lay));
      if root.None? {
        return None;
      }
      LayerStep(h, pp, master, idx, us, lay, c, was, sig[..]);
      assert sig[..4] == sig[..][..4];
      value := root.value;
    }
    top := Some(value);
  }

  /** Either a search is stuck, or the signer reports success and the signature verifies. */
  ghost predicate Outcome(h: Hash, pp: Val, root: Val, master: seq<nat>, m: seq<nat>, sig: seq<nat>, ok: Option<bool>) {
    match ok
    case None => Stuck(h, pp, root, master, m)
    case Some(b) =>
      && b && Verify(h, pp, root, m, sig)
      && exists trial: nat :: FirstTrial(h, pp, root, master, m, trial) && sig[..4] == Randomizer(h, pp, master, m, trial)
  }

  /** `spx_sign` with a key from `spx_keygen`, for any hash, seed and message. */
  method Sign(h: Hash, key: Key, m: seq<nat>, sig: array<nat>) returns (ok: Option<bool>)
    requires key.Valid(h) && sig.Length == SIG_WORDS
    modifies sig
    ensures Outcome(h, key.pp, key.root, key.master, m, sig[..], ok)
  {
    hide Key.Valid, LayerDone, OpeningsWritten, PlaceRoot, FtsValue, NoCounter, PlaceOf, Pow2, TopRoot, FtsRecover, IndexOf,
      TreeIndex, MessageHash, NoRandomizer, Splice, Indices, FirstTrial, StuckLayer;
    var found, trial := FindRandomizer(h, key.pp, key.root, key.master, m);
    if found.None? {
      return None;
    }
    var (rho, d) := found.value;
    var idx, us := ReadIndices(d);
    ghost var was := sig[..];
    Write(sig, 0, rho);
    SpliceHas(was, 0, rho);
    assert sig[..4] == rho;
    LastIndexZero(h, key.pp, key.root, key.master, m, trial);
    IndicesFit(d, us);
    var message := SignFts(h, key.pp, key.master, idx, us, sig);
    var top := SignLayers(h, key, idx, us, message, sig);
    if top.None? {
      return None;
    }
    TopReached(h, key.pp, key.master, idx, sig[..]);
    FtsVerifies(h, key.pp, key.master, d, us, sig[..]);
    TopIsRoot(h, key, idx);
    ok := Some(top.value == key.root);
  }

  lemma LastIndexZero(h: Hash, pp: Val, root: Val, master: seq<nat>, m: seq<nat>, trial: nat)
    requires FirstTrial(h, pp, root, master, m, trial)
    ensures TreeIndex(TrialDigest(h, pp, root, master, m, trial), FTS_TREES) == 0
  {
  }

  lemma IndicesFit(d: Digest, us: seq<nat>)
    requires Indices(d, us)
    ensures |us| == FTS_TREES + 1 && forall k :: 0 <= k < |us| ==> us[k] < Pow2(FTS_HEIGHT)
  {
    hide TreeIndex, Pow2;
  }

  lemma TopIsRoot(h: Hash, key: Key, idx: nat)
    requires key.Valid(h) && idx < Pow2(INDEX_BITS)
    ensures PlaceRoot(h, key.pp, key.master, PlaceOf(idx, 0)) == key.root
  {
    hide Tree;
    PlaceFits(idx, 0);
  }
}
