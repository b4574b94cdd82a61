/** The transcript's sponge (transcript.rs's `Sponge`): a duplex over Keccak-f[1600] in overwrite mode,
    on the device's interleaved state, four scalars with their tags to a block. Its challenges are a
    function of everything fed before them, and its state binds what was fed. */
module DuplexSponge {
  import opened Rings
  import opened Multilinear
  import opened KeccakStream
  import opened KeccakHasher
  import Interleave
  import KeccakRounds
  import KeccakEmitted
  import KeccakInjective
  import KeccakState
  import FieldBase
  import Transcripts
  import TranscriptReads
  import Gkr

  const BLOCK := 4

  type Scalar = (Elem, Limb)

  /** What happens to the sponge: a scalar with its tag put in, or a challenge drawn. */
  datatype Input = Put(value: Elem, tag: Limb) | Draw

  // ---- the blocks ------------------------------------------------------------------------------

  type Block = b: seq<Scalar> | |b| <= 4

  /** The blocks already in the state, and the scalars still waiting. */
  datatype Cut = Cut(done: seq<Block>, rest: Block)

  /** A challenge ends the block at hand, however short; otherwise a full block waits until one more
      scalar comes. */
  function NextCut(c: Cut, i: Input): Cut {
    match i
    case Draw => Cut(c.done + [c.rest], [])
    case Put(v, t) =>
      if |c.rest| == BLOCK then Cut(c.done + [c.rest], [(v, t)]) else Cut(c.done, c.rest + [(v, t)])
  }

  /** How the inputs fall into blocks. */
  function CutOf(h: seq<Input>): Cut {
    if h == [] then Cut([], []) else NextCut(CutOf(h[..|h| - 1]), h[|h| - 1])
  }

  /** Limb k of a scalar: its three limbs and its tag. */
  function LimbAt(s: Scalar, k: nat): Limb {
    if k == 0 then s.0.c0 else if k == 1 then s.0.c1 else if k == 2 then s.0.c2 else s.1
  }

  function RateLane(b: Block, j: nat): Limb {
    if j / 4 < |b| then LimbAt(b[j / 4], j % 4) else 0
  }

  /** The block over the sixteen lanes of the rate, zeros where it is short; the capacity kept. */
  function Overwritten(s: Lanes, b: Block): (r: Lanes)
    ensures forall j :: 0 <= j < 25 ==> r[j] == if j < 16 then RateLane(b, j) else s[j]
  {
    seq(25, j requires 0 <= j < 25 => if j < 16 then RateLane(b, j) else s[j])
  }

  function AfterBlocks(f: Permutation, start: Lanes, blocks: seq<Block>): Lanes {
    if blocks == [] then f(start)
    else f(Overwritten(AfterBlocks(f, start, blocks[..|blocks| - 1]), blocks[|blocks| - 1]))
  }

  /** The state the inputs leave once the block at hand is ended too. */
  function StateAfter(f: Permutation, start: Lanes, h: seq<Input>): Lanes {
    var c := CutOf(h);
    AfterBlocks(f, start, c.done + [c.rest])
  }

  type Words4 = w: seq<Limb> | |w| == 4 witness [0, 0, 0, 0]

  /** The two digests a transcript starts from. */
  function Start(iv: Words4, input: Words4): (s: Lanes)
    ensures forall j :: 0 <= j < 25 ==> s[j] == if j < 4 then iv[j] else if j < 8 then input[j - 4] else 0
  {
    seq(25, j requires 0 <= j < 25 => if j < 4 then iv[j] else if j < 8 then input[j - 4] else 0)
  }

  function WordOf(v: nat): Limb {
    v % 0x1_0000_0000_0000_0000
  }

  function Challenge(s: Lanes): Elem {
    Elem(WordOf(s[0]), WordOf(s[1]), WordOf(s[2]))
  }

  // ---- what the cut is -------------------------------------------------------------------------

  function Puts(h: seq<Input>): seq<Scalar> {
    if h == [] then []
    else Puts(h[..|h| - 1]) + (match h[|h| - 1] case Put(v, t) => [(v, t)] case Draw => [])
  }

  function Joined(blocks: seq<Block>): seq<Scalar> {
    if blocks == [] then [] else Joined(blocks[..|blocks| - 1]) + blocks[|blocks| - 1]
  }

  lemma JoinedMore(blocks: seq<Block>, b: Block)
    ensures Joined(blocks + [b]) == Joined(blocks) + b
  {
    assert (blocks + [b])[..|blocks|] == blocks;
  }

  /** No scalar is lost, doubled or moved. */
  lemma {:induction false} CutWhole(h: seq<Input>)
    ensures Joined(CutOf(h).done) + CutOf(h).rest == Puts(h)
  {
    if h != [] {
      var c := CutOf(h[..|h| - 1]);
      CutWhole(h[..|h| - 1]);
      JoinedMore(c.done, c.rest);
    }
  }

  function PutAll(s: seq<Scalar>): (h: seq<Input>)
    ensures |h| == |s| && forall i :: 0 <= i < |s| ==> h[i] == Put(s[i].0, s[i].1)
  {
    seq(|s|, i requires 0 <= i < |s| => Put(s[i].0, s[i].1))
  }

  /** The blocks n scalars fill before the last waits. */
  function Filled(n: nat): nat {
    if n == 0 then 0 else (n - 1) / 4
  }

  /** c is `before`, and then s in fours, one to four of them (none only of none) waiting. */
  ghost predicate InFours(before: Cut, c: Cut, s: seq<Scalar>) {
    var f := Filled(|s|);
    && |c.done| == |before.done| + f && c.done[..|before.done|] == before.done
    && (forall k :: 0 <= k < f ==> c.done[|before.done| + k] == s[4 * k..4 * k + 4])
    && c.rest == s[4 * f..]
  }

  /** Between two challenges the scalars go into the state in fours. */
  lemma {:induction false} SegmentCut(h: seq<Input>, s: seq<Scalar>)
    requires CutOf(h).rest == []
    ensures InFours(CutOf(h), CutOf(h + PutAll(s)), s)
  {
    if s == [] {
      assert h + PutAll(s) == h;
    } else {
      var l := |s| - 1;
      var all := h + PutAll(s);
      SegmentCut(h, s[..l]);
      assert all[..|all| - 1] == h + PutAll(s[..l]) && all[|all| - 1] == Put(s[l].0, s[l].1);
      NextInFours(CutOf(h), CutOf(h + PutAll(s[..l])), CutOf(all), s);
    }
  }

  lemma NextInFours(before: Cut, c: Cut, d: Cut, s: seq<Scalar>)
    requires s != [] && InFours(before, c, s[..|s| - 1])
    requires d == NextCut(c, Put(s[|s| - 1].0, s[|s| - 1].1))
    ensures InFours(before, d, s)
  {
    var l := |s| - 1;
    var f, g := Filled(l), Filled(|s|);
    assert |c.rest| == l - 4 * f;
    if |c.rest| == BLOCK {
      assert g == f + 1 && c.rest == s[4 * f..4 * f + 4];
      assert s[4 * g..] == [s[l]];
    } else {
      assert g == f && s[4 * g..] == s[..l][4 * f..] + [s[l]];
    }
    forall k | 0 <= k < g
      ensures d.done[|before.done| + k] == s[4 * k..4 * k + 4]
    {
      if k < f {
        assert s[..l][4 * k..4 * k + 4] == s[4 * k..4 * k + 4];
      }
    }
  }

  /** A challenge leaves no trace exactly when a full block was waiting: the next scalar would have
      ended that block anyway. */
  lemma TraceOfDraw(h: seq<Input>, v: Elem, t: Limb)
    ensures CutOf(h + [Draw, Put(v, t)]) == CutOf(h + [Put(v, t)]) <==> |CutOf(h).rest| == BLOCK
  {
    var c, d, e := CutOf(h), h + [Draw], h + [Put(v, t)];
    var de := h + [Draw, Put(v, t)];
    assert d[..|d| - 1] == h && e[..|e| - 1] == h && de[..|de| - 1] == d;
    assert CutOf(d) == Cut(c.done + [c.rest], []);
    assert CutOf(de) == Cut(c.done + [c.rest], [(v, t)]);
    assert |CutOf(de).done| == |c.done| + 1;
  }

  // ---- the state binds what was fed --------------------------------------------------------------

  ghost predicate Bounded(s: Lanes) {
    forall i :: 0 <= i < 25 ==> s[i] < Pow2(64)
  }

  /** Keccak-f on numbers is injective. */
  lemma KeccakFInjective(rc: Constants, s: Lanes, t: Lanes)
    requires Bounded(s) && Bounded(t) && KeccakF(rc)(s) == KeccakF(rc)(t)
    ensures s == t
  {
    hide KeccakRounds.Rounds, NumberLanes, BitLanes, KeccakEmitted.Constants, Pow2;
    var a, b := BitLanes(s), BitLanes(t);
    var k := KeccakEmitted.Constants(rc);
    LanesBack(KeccakRounds.Rounds(a, k, 24));
    LanesBack(KeccakRounds.Rounds(b, k, 24));
    KeccakInjective.RoundsInjective(a, b, k, 24);
    forall i | 0 <= i < 25
      ensures s[i] == t[i]
    {
      NumberOfBits(s[i], 64);
      NumberOfBits(t[i], 64);
      assert a[i] == b[i];
    }
  }

  lemma PermutedBounded(rc: Constants, s: Lanes)
    ensures Bounded(KeccakF(rc)(s))
  {
    hide KeccakRounds.Rounds, BitLanes, Number, Pow2, KeccakEmitted.Constants;
    var a := KeccakRounds.Rounds(BitLanes(s), KeccakEmitted.Constants(rc), 24);
    forall i | 0 <= i < 25
      ensures NumberLanes(a)[i] < Pow2(64)
    {
      NumberBelow(a[i]);
    }
  }

  lemma {:induction false} NumberBelow(x: seq<bool>)
    ensures Number(x) < Pow2(|x|)
    decreases |x|
  {
    if x != [] {
      NumberBelow(x[1..]);
    }
  }

  lemma AfterBounded(rc: Constants, start: Lanes, blocks: seq<Block>)
    ensures Bounded(AfterBlocks(KeccakF(rc), start, blocks))
  {
    hide KeccakF, Overwritten, Bounded;
    if blocks == [] {
      PermutedBounded(rc, start);
    } else {
      PermutedBounded(rc, Overwritten(AfterBlocks(KeccakF(rc), start, blocks[..|blocks| - 1]), blocks[|blocks| - 1]));
    }
  }

  lemma OverwrittenBounded(s: Lanes, b: Block)
    requires Bounded(s)
    ensures Bounded(Overwritten(s, b))
  {
    hide Pow2, RateLane;
    FieldBase.LimbPower();
  }

  /** No tag is zero, so that a block's padding is no scalar. */
  ghost predicate Tagged(b: Block) {
    forall i :: 0 <= i < |b| ==> b[i].1 != 0
  }

  /** The lanes of the rate give the block. */
  lemma RateBinds(a: Block, b: Block)
    requires Tagged(a) && Tagged(b) && forall j :: 0 <= j < 16 ==> RateLane(a, j) == RateLane(b, j)
    ensures a == b
  {
    hide RateLane, Tagged;
    ScalarBinds(a, b, 0);
    ScalarBinds(a, b, 1);
    ScalarBinds(a, b, 2);
    ScalarBinds(a, b, 3);
  }

  lemma ScalarBinds(a: Block, b: Block, i: nat)
    requires Tagged(a) && Tagged(b) && i < 4 && forall j :: 0 <= j < 16 ==> RateLane(a, j) == RateLane(b, j)
    ensures i < |a| <==> i < |b|
    ensures i < |a| ==> a[i] == b[i]
  {
    hide RateLane;
    LanesOfScalar(a, i);
    LanesOfScalar(b, i);
    assert RateLane(a, 4 * i) == RateLane(b, 4 * i) && RateLane(a, 4 * i + 1) == RateLane(b, 4 * i + 1);
    assert RateLane(a, 4 * i + 2) == RateLane(b, 4 * i + 2) && RateLane(a, 4 * i + 3) == RateLane(b, 4 * i + 3);
  }

  lemma LanesOfScalar(b: Block, i: nat)
    requires i < 4 && Tagged(b)
    ensures i < |b| ==> b[i] == (Elem(RateLane(b, 4 * i), RateLane(b, 4 * i + 1), RateLane(b, 4 * i + 2)), RateLane(b, 4 * i + 3))
    ensures i >= |b| <==> RateLane(b, 4 * i + 3) == 0
  {
    assert (4 * i + 1) / 4 == i && (4 * i + 2) / 4 == i && (4 * i + 3) / 4 == i;
    assert (4 * i + 1) % 4 == 1 && (4 * i + 2) % 4 == 2 && (4 * i + 3) % 4 == 3;
  }

  ghost predicate SameCapacity(s: Lanes, t: Lanes) {
    forall j :: 16 <= j < 25 ==> s[j] == t[j]
  }

  /** After k blocks the two states differ, and in the rate alone. */
  ghost predicate InnerCollision(f: Permutation, start: Lanes, a: seq<Block>, b: seq<Block>, k: nat) {
    && k <= |a| && k <= |b|
    && var s, t := AfterBlocks(f, start, a[..k]), AfterBlocks(f, start, b[..k]);
    && s != t && SameCapacity(s, t)
  }

  /** As many blocks to one state are the same blocks, or the capacities collide at a named block. */
  lemma {:induction false} BlocksBind(rc: Constants, start: Lanes, a: seq<Block>, b: seq<Block>)
    requires |a| == |b| && forall i :: 0 <= i < |a| ==> Tagged(a[i]) && Tagged(b[i])
    requires AfterBlocks(KeccakF(rc), start, a) == AfterBlocks(KeccakF(rc), start, b)
    ensures a == b || exists k :: 0 <= k < |a| && InnerCollision(KeccakF(rc), start, a, b, k)
    decreases |a|
  {
    hide KeccakF, Overwritten, Bounded, Tagged, AfterBlocks, RateLane, SameCapacity;
    if a != [] {
      var l := |a| - 1;
      var f := KeccakF(rc);
      var s, t := AfterBlocks(f, start, a[..l]), AfterBlocks(f, start, b[..l]);
      LastBlocks(rc, start, a, b);
      if s == t {
        BlocksBind(rc, start, a[..l], b[..l]);
        if a[..l] == b[..l] {
          assert a == a[..l] + [a[l]] && b == b[..l] + [b[l]];
        } else {
          var k :| 0 <= k < l && InnerCollision(f, start, a[..l], b[..l], k);
          assert a[..l][..k] == a[..k] && b[..l][..k] == b[..k];
          assert InnerCollision(f, start, a, b, k);
        }
      } else {
        assert InnerCollision(f, start, a, b, l);
      }
    }
  }

  lemma LastBlocks(rc: Constants, start: Lanes, a: seq<Block>, b: seq<Block>)
    requires |a| == |b| > 0 && Tagged(a[|a| - 1]) && Tagged(b[|b| - 1])
    requires AfterBlocks(KeccakF(rc), start, a) == AfterBlocks(KeccakF(rc), start, b)
    ensures a[|a| - 1] == b[|b| - 1]
    ensures SameCapacity(AfterBlocks(KeccakF(rc), start, a[..|a| - 1]), AfterBlocks(KeccakF(rc), start, b[..|b| - 1]))
  {
    hide KeccakF, Bounded, Tagged, RateLane;
    var l := |a| - 1;
    var s, t := AfterBlocks(KeccakF(rc), start, a[..l]), AfterBlocks(KeccakF(rc), start, b[..l]);
    AfterBounded(rc, start, a[..l]);
    AfterBounded(rc, start, b[..l]);
    OverwrittenBounded(s, a[l]);
    OverwrittenBounded(t, b[l]);
    KeccakFInjective(rc, Overwritten(s, a[l]), Overwritten(t, b[l]));
    SameOverwritten(s, t, a[l], b[l]);
  }

  lemma SameOverwritten(s: Lanes, t: Lanes, a: Block, b: Block)
    requires Tagged(a) && Tagged(b) && Overwritten(s, a) == Overwritten(t, b)
    ensures a == b && SameCapacity(s, t)
  {
    hide RateLane, Tagged;
    var u, v := Overwritten(s, a), Overwritten(t, b);
    forall j | 0 <= j < 16
      ensures RateLane(a, j) == RateLane(b, j)
    {
      assert u[j] == v[j];
    }
    RateBinds(a, b);
    forall j | 16 <= j < 25
      ensures s[j] == t[j]
    {
      assert u[j] == v[j];
    }
  }

  // ---- whole histories -------------------------------------------------------------------------

  ghost predicate SameKinds(g: seq<Input>, h: seq<Input>) {
    |g| == |h| && forall i :: 0 <= i < |g| ==> g[i].Draw? == h[i].Draw?
  }

  /** Inputs of one order of kinds fall into blocks alike. */
  lemma {:induction false} SameSizes(g: seq<Input>, h: seq<Input>)
    requires SameKinds(g, h)
    ensures |CutOf(g).done| == |CutOf(h).done| && |CutOf(g).rest| == |CutOf(h).rest|
  {
    if g != [] {
      SameSizes(g[..|g| - 1], h[..|h| - 1]);
    }
  }

  /** So their blocks give the inputs. */
  lemma {:induction false} CutBinds(g: seq<Input>, h: seq<Input>)
    requires SameKinds(g, h) && CutOf(g) == CutOf(h)
    ensures g == h
  {
    if g != [] {
      var l := |g| - 1;
      var c, d := CutOf(g[..l]), CutOf(h[..l]);
      SameSizes(g[..l], h[..l]);
      LastInput(c, d, g[l], h[l], CutOf(g), CutOf(h));
      CutBinds(g[..l], h[..l]);
      assert g == g[..l] + [g[l]] && h == h[..l] + [h[l]];
    }
  }

  lemma LastInput(c: Cut, d: Cut, i: Input, j: Input, c': Cut, d': Cut)
    requires |c.done| == |d.done| && |c.rest| == |d.rest| && i.Draw? == j.Draw?
    requires c' == NextCut(c, i) && d' == NextCut(d, j) && c' == d'
    ensures c == d && i == j
  {
    var n := |c.done|;
    if i.Draw? || |c.rest| == BLOCK {
      assert c'.done[..n] == c.done && d'.done[..n] == d.done && c'.done[n] == c.rest && d'.done[n] == d.rest;
      if i.Put? {
        assert c'.rest[0] == (i.value, i.tag) && d'.rest[0] == (j.value, j.tag);
      }
    } else {
      var m := |c.rest|;
      assert c'.rest[..m] == c.rest && d'.rest[..m] == d.rest;
      assert c'.rest[m] == (i.value, i.tag) && d'.rest[m] == (j.value, j.tag);
    }
  }

  ghost predicate AllTagged(h: seq<Input>) {
    forall i :: 0 <= i < |h| ==> h[i].Put? ==> h[i].tag != 0
  }

  lemma {:induction false} CutTagged(h: seq<Input>)
    requires AllTagged(h)
    ensures Tagged(CutOf(h).rest) && forall i :: 0 <= i < |CutOf(h).done| ==> Tagged(CutOf(h).done[i])
  {
    if h != [] {
      CutTagged(h[..|h| - 1]);
    }
  }

  /** All the blocks of h, the one at hand ended too. */
  function Blocks(h: seq<Input>): seq<Block> {
    CutOf(h).done + [CutOf(h).rest]
  }

  /** Inputs of one order of kinds that lead to one state are the same inputs, or the capacities
      collide at a named block. */
  lemma HistoryBinds(rc: Constants, start: Lanes, g: seq<Input>, h: seq<Input>)
    requires SameKinds(g, h) && AllTagged(g) && AllTagged(h)
    requires StateAfter(KeccakF(rc), start, g) == StateAfter(KeccakF(rc), start, h)
    ensures g == h || exists k :: 0 <= k < |Blocks(g)| && InnerCollision(KeccakF(rc), start, Blocks(g), Blocks(h), k)
  {
    hide KeccakF, AfterBlocks, Tagged, InnerCollision;
    CutTagged(g);
    CutTagged(h);
    SameSizes(g, h);
    BlocksBind(rc, start, Blocks(g), Blocks(h));
    if Blocks(g) == Blocks(h) {
      var c, d, n := CutOf(g), CutOf(h), |CutOf(g).done|;
      assert Blocks(g)[..n] == c.done && Blocks(h)[..n] == d.done && Blocks(g)[n] == c.rest && Blocks(h)[n] == d.rest;
      CutBinds(g, h);
    }
  }

  // ---- the transcript's challenges ---------------------------------------------------------------

  const OBSERVE: Limb := 1

  /** What a transcript's history feeds the sponge. */
  function Inputs(h: seq<Transcripts.Event>): (i: seq<Input>)
    ensures |i| == |h|
    ensures forall k :: 0 <= k < |h| ==> i[k] == match h[k] case Absorb(v) => Put(v, 1) case Draw => Draw
  {
    seq(|h|, k requires 0 <= k < |h| => match h[k] case Absorb(v) => Put(v, OBSERVE) case Draw => Draw)
  }

  function StateOf(rc: Constants, start: Lanes, h: seq<Transcripts.Event>): Lanes {
    StateAfter(KeccakF(rc), start, Inputs(h))
  }

  /** The challenges as a function of the history. */
  function Oracle(rc: Constants, start: Lanes): Transcripts.Oracle {
    h => Challenge(StateOf(rc, start, h))
  }

  /** One history is told from another of the same shape by the sponge's state. */
  lemma InputsBind(g: seq<Transcripts.Event>, h: seq<Transcripts.Event>)
    requires Inputs(g) == Inputs(h)
    ensures g == h
  {
    assert |g| == |Inputs(g)| == |Inputs(h)| == |h|;
    forall k | 0 <= k < |g|
      ensures g[k] == h[k]
    {
      assert Inputs(g)[k] == Inputs(h)[k];
    }
  }

  lemma ShapesMeet(before: seq<Transcripts.Event>, g: seq<Transcripts.Event>, h: seq<Transcripts.Event>)
    requires before <= g && before <= h
    requires TranscriptReads.Shape(g[|before|..]) == TranscriptReads.Shape(h[|before|..])
    ensures SameKinds(Inputs(g), Inputs(h)) && AllTagged(Inputs(g)) && AllTagged(Inputs(h))
  {
    var n := |before|;
    assert |g| - n == |TranscriptReads.Shape(g[n..])| == |TranscriptReads.Shape(h[n..])| == |h| - n;
    forall i | 0 <= i < |g|
      ensures g[i].Draw? == h[i].Draw?
    {
      if i < n {
        assert g[i] == before[i] == h[i];
      } else {
        assert TranscriptReads.Shape(g[n..])[i - n] == TranscriptReads.Shape(h[n..])[i - n];
        assert g[n..][i - n] == g[i] && h[n..][i - n] == h[i];
      }
    }
  }

  /** Two accepted runs over Keccak from one history to one state of the sponge read the same
      scalars, or the capacities collide at a named block. */
  lemma GkrStateBinds(R: Ring, rc: Constants, start: Lanes, depth: nat, s: Transcripts.State, t: Transcripts.State)
    requires s.history == t.history
    requires Gkr.RunGkr(R, Oracle(rc, start), depth, s).Ok? && Gkr.RunGkr(R, Oracle(rc, start), depth, t).Ok?
    requires var o := Oracle(rc, start);
      StateOf(rc, start, Gkr.RunGkr(R, o, depth, s).value.state.history)
        == StateOf(rc, start, Gkr.RunGkr(R, o, depth, t).value.state.history)
    ensures var o := Oracle(rc, start);
      var s', t' := Gkr.RunGkr(R, o, depth, s).value.state, Gkr.RunGkr(R, o, depth, t).value.state;
      || (exists read: seq<Elem> :: s.scalars == read + s'.scalars && t.scalars == read + t'.scalars)
      || (exists k :: InnerCollision(KeccakF(rc), start, Blocks(Inputs(s'.history)), Blocks(Inputs(t'.history)), k))
  {
    hide Gkr.RunGkr, KeccakF, AfterBlocks, InnerCollision, TranscriptReads.Shape, TranscriptReads.Scalars, TranscriptReads.Drawn,
         TranscriptReads.LayersShape, Oracle, CutOf, StateAfter, Blocks;
    var o := Oracle(rc, start);
    var _, _, _ := TranscriptReads.GkrFollows(R, o, depth, s);
    var _, _, _ := TranscriptReads.GkrFollows(R, o, depth, t);
    var g, h := Gkr.RunGkr(R, o, depth, s).value.state.history, Gkr.RunGkr(R, o, depth, t).value.state.history;
    ShapesMeet(s.history, g, h);
    HistoryBinds(rc, start, Inputs(g), Inputs(h));
    if Inputs(g) == Inputs(h) {
      InputsBind(g, h);
      TranscriptReads.GkrBinds(R, o, depth, s, t);
    }
  }

  // ---- the sponge --------------------------------------------------------------------------------

  lemma LaneSet(a: KeccakRounds.Lanes, i: nat, w: Limb)
    requires i < 25
    ensures NumberLanes(a[i := BitsOf(w, 64)]) == NumberLanes(a)[i := w]
  {
    hide Number, BitsOf, Pow2;
    FieldBase.LimbPower();
    NumberOfBits(w, 64);
  }

  lemma StartLane(s: Lanes, iv: Words4, input: Words4, i: nat)
    requires i < 8 && forall j :: 0 <= j < 25 ==> s[j] == if j < i then Start(iv, input)[j] else 0
    ensures forall j :: 0 <= j < 25 ==> s[i := (iv + input)[i]][j] == if j < i + 1 then Start(iv, input)[j] else 0
  {
    assert (iv + input)[i] == Start(iv, input)[i];
  }

  class Sponge {
    const rc: Constants
    const state: KeccakState.State
    const pending: array<Scalar>
    var waiting: nat
    ghost const start: Lanes
    ghost var fed: seq<Input>

    ghost function Now(): Lanes
      requires state.Valid()
      reads state, state.words
    {
      NumberLanes(state.Lanes())
    }

    ghost predicate Valid()
      reads this, state, state.words, pending
    {
      && state.Valid()
      && pending.Length == BLOCK
      && waiting <= BLOCK
      && Now() == AfterBlocks(KeccakF(rc), start, CutOf(fed).done)
      && pending[..waiting] == CutOf(fed).rest
    }

    constructor (rc: Constants, iv: Words4, input: Words4)
      ensures Valid() && fed == [] && start == Start(iv, input) && this.rc == rc
      ensures fresh(state) && fresh(state.words) && fresh(pending)
    {
      var zero := new KeccakState.State();
      var empty := new Scalar[BLOCK](_ => (Elem(0, 0, 0), 0));
      this.rc, state, pending, waiting := rc, zero, empty, 0;
      start, fed := Start(iv, input), [];
      new;
      hide AfterBlocks, KeccakF, NumberLanes;
      NoLanes(state.Lanes());
      var i := 0;
      while i < 8
        invariant 0 <= i <= 8 && fed == [] && waiting == 0 && state.Valid() && fresh(state) && fresh(state.words)
        invariant forall j :: 0 <= j < 25 ==> Now()[j] == if j < i then Start(iv, input)[j] else 0
      {
        StartLane(Now(), iv, input, i);
        SetNumber(i, (iv + input)[i]);
        i := i + 1;
      }
      assert Now() == Start(iv, input);
      Permute();
      NoBlocks(KeccakF(rc), start);
    }

    /** `set_lane`, on a number. */
    method SetNumber(i: nat, w: Limb)
      requires state.Valid() && i < 25
      modifies state.words
      ensures state.Valid() && Now() == old(Now())[i := w]
    {
      hide BitsOf, Number, NumberLanes;
      LaneSet(state.Lanes(), i, w);
      state.SetLane(i, BitsOf(w, 64));
    }

    method Permute()
      requires state.Valid()
      modifies state.words
      ensures state.Valid() && Now() == KeccakF(rc)(old(Now()))
    {
      hide NumberLanes, KeccakF;
      PermutedNumbers(rc, state.Lanes());
      state.Permute(rc);
    }

    /** `duplex`: the waiting scalars over the rate, the rest of it zero, and the permutation. */
    method Duplex()
      requires Valid()
      modifies this`waiting, state.words
      ensures state.Valid() && waiting == 0
      ensures Now() == AfterBlocks(KeccakF(rc), start, CutOf(fed).done + [CutOf(fed).rest])
    {
      hide AfterBlocks, KeccakF, NumberLanes, CutOf;
      ghost var was, b := Now(), CutOf(fed).rest;
      var i := 0;
      while i < BLOCK
        invariant 0 <= i <= BLOCK && state.Valid() && waiting <= BLOCK && pending[..waiting] == b
        invariant forall j :: 0 <= j < 25 ==> Now()[j] == if j < 4 * i then RateLane(b, j) else was[j]
      {
        var scalar := if i < waiting then pending[i] else (Elem(0, 0, 0), 0);
        ghost var before := Now();
        SetNumber(4 * i, scalar.0.c0);
        SetNumber(4 * i + 1, scalar.0.c1);
        SetNumber(4 * i + 2, scalar.0.c2);
        SetNumber(4 * i + 3, scalar.1);
        FourLanes(before, Now(), was, b, i, scalar);
        i := i + 1;
      }
      assert Now() == Overwritten(was, b);
      Permute();
      waiting := 0;
      OneBlockMore(KeccakF(rc), start, CutOf(fed).done, b);
    }

    method Absorb(value: Elem, tag: Limb)
      requires Valid()
      modifies this, pending, state.words
      ensures Valid() && fed == old(fed) + [Put(value, tag)]
    {
      hide AfterBlocks, KeccakF, NumberLanes;
      ghost var c := CutOf(fed);
      if waiting == BLOCK {
        Duplex();
      }
      pending[waiting] := (value, tag);
      waiting := waiting + 1;
      fed := fed + [Put(value, tag)];
      assert fed[..|fed| - 1] == old(fed);
    }

    /** A challenge: the sponge's answer to everything fed before it. */
    method Sample() returns (e: Elem)
      requires Valid()
      modifies this, state.words
      ensures Valid() && fed == old(fed) + [Draw]
      ensures e == Challenge(StateAfter(KeccakF(rc), start, old(fed)))
    {
      hide AfterBlocks, KeccakF, NumberLanes;
      Duplex();
      var c0 := state.Lane(0);
      var c1 := state.Lane(1);
      var c2 := state.Lane(2);
      e := Elem(WordOf(Number(c0)), WordOf(Number(c1)), WordOf(Number(c2)));
      fed := fed + [Draw];
      assert fed[..|fed| - 1] == old(fed);
    }
  }

  lemma NoBlocks(f: Permutation, start: Lanes)
    ensures AfterBlocks(f, start, []) == f(start)
  {
  }

  lemma OneBlockMore(f: Permutation, start: Lanes, done: seq<Block>, b: Block)
    ensures AfterBlocks(f, start, done + [b]) == f(Overwritten(AfterBlocks(f, start, done), b))
  {
    assert (done + [b])[..|done|] == done;
  }

  lemma FourLanes(before: Lanes, after: Lanes, was: Lanes, b: Block, i: nat, scalar: Scalar)
    requires i < 4 && scalar == if i < |b| then b[i] else (Elem(0, 0, 0), 0)
    requires forall j :: 0 <= j < 25 ==> before[j] == if j < 4 * i then RateLane(b, j) else was[j]
    requires after == before[4 * i := scalar.0.c0][4 * i + 1 := scalar.0.c1][4 * i + 2 := scalar.0.c2][4 * i + 3 := scalar.1]
    ensures forall j :: 0 <= j < 25 ==> after[j] == if j < 4 * (i + 1) then RateLane(b, j) else was[j]
  {
    forall j | 4 * i <= j < 4 * i + 4
      ensures after[j] == RateLane(b, j)
    {
      assert j / 4 == i && j % 4 == j - 4 * i;
    }
  }
}
