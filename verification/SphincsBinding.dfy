/** What the reference verifier's acceptance means (sphincs_ref.py's `verify`), for any hash: two
    accepted signatures of one index agree, or show two payloads with one hash under one tweak at a
    named place, or open one one-time key at two codewords. */
module SphincsBinding {
  import opened Multilinear
  import opened Bits
  import opened SphincsTrees
  import opened Codewords
  import opened Sphincs

  /** Two payloads with one hash under one tweak. */
  ghost predicate Clash(h: Hash, pp: Val, tweak: seq<nat>, a: seq<nat>, b: seq<nat>) {
    a != b && Th(h, pp, tweak, a) == Th(h, pp, tweak, b)
  }

  // ---- folds -----------------------------------------------------------------------------------

  /** The two values hashed at the k-th step of a fold. */
  function FoldAt(node: NodeHash, e: nat, level: nat, cur: Val, path: seq<Val>, k: nat): (Val, Val)
    requires k < |path|
    decreases k
  {
    var pair := if Shift(e, level) % 2 == 0 then (cur, path[0]) else (path[0], cur);
    if k == 0 then pair else FoldAt(node, e, level + 1, node(level + 1, Shift(e, level + 1), pair.0, pair.1), path[1..], k - 1)
  }

  function Up(node: NodeHash, e: nat, level: nat, cur: Val, path: seq<Val>): Val
    requires path != []
  {
    var pair := FoldAt(node, e, level, cur, path, 0);
    node(level + 1, Shift(e, level + 1), pair.0, pair.1)
  }

  lemma FoldStep(node: NodeHash, e: nat, level: nat, cur: Val, path: seq<Val>, k: nat)
    requires k < |path|
    ensures TreeFold(node, e, level, cur, path) == TreeFold(node, e, level + 1, Up(node, e, level, cur, path), path[1..])
    ensures k > 0 ==> FoldAt(node, e, level, cur, path, k) == FoldAt(node, e, level + 1, Up(node, e, level, cur, path), path[1..], k - 1)
  {
  }

  /** Two leaves or paths that lead to one root differ in some pair whose hash is the same. */
  lemma {:induction false} FoldBinds(node: NodeHash, e: nat, level: nat, cur: Val, path: seq<Val>, cur': Val, path': seq<Val>)
      returns (k: nat)
    requires |path| == |path'| && TreeFold(node, e, level, cur, path) == TreeFold(node, e, level, cur', path')
    requires cur != cur' || path != path'
    ensures k < |path|
    ensures var (a, b) := (FoldAt(node, e, level, cur, path, k), FoldAt(node, e, level, cur', path', k));
      a != b && node(level + k + 1, Shift(e, level + k + 1), a.0, a.1) == node(level + k + 1, Shift(e, level + k + 1), b.0, b.1)
    decreases |path|
  {
    hide Shift;
    assert path != [];
    var up, up' := Up(node, e, level, cur, path), Up(node, e, level, cur', path');
    FoldStep(node, e, level, cur, path, 0);
    FoldStep(node, e, level, cur', path', 0);
    if up == up' && path[1..] == path'[1..] {
      k := 0;
      assert path == [path[0]] + path[1..] && path' == [path'[0]] + path'[1..];
    } else {
      k := FoldBinds(node, e, level + 1, up, path[1..], up', path'[1..]);
      k := k + 1;
      FoldStep(node, e, level, cur, path, k);
      FoldStep(node, e, level, cur', path', k);
    }
  }

  lemma {:induction false} FoldLengths(node: NodeHash, e: nat, level: nat, cur: Val, path: seq<Val>, k: nat)
    requires k < |path| && |cur| == 4 && Vals(path) && forall l, j, a, b :: |node(l, j, a, b)| == 4
    ensures |FoldAt(node, e, level, cur, path, k).0| == |FoldAt(node, e, level, cur, path, k).1| == 4
    decreases k
  {
    FoldStep(node, e, level, cur, path, k);
    if k > 0 {
      FoldLengths(node, e, level + 1, Up(node, e, level, cur, path), path[1..], k - 1);
    }
  }

  /** What a node hash of a tree takes in, at the k-th step of a fold. */
  function NodePayload(h: Hash, pp: Val, kind: nat, lay: nat, tau: nat, e: nat, leaf: Val, path: seq<Val>, k: nat): seq<nat>
    requires k < |path|
  {
    var pair := FoldAt(NodeOf(h, pp, kind, lay, tau), e, 0, leaf, path, k);
    pair.0 + pair.1
  }

  function NodeTweak(kind: nat, lay: nat, tau: nat, e: nat, k: nat): seq<nat> {
    Tweak(kind, lay, tau, k + 1, Shift(e, k + 1))
  }

  /** One tree: the same leaf and path, or a clash at a level. */
  lemma TreeBinds(h: Hash, pp: Val, kind: nat, lay: nat, tau: nat, e: nat, leaf: Val, path: seq<Val>, leaf': Val, path': seq<Val>)
      returns (k: nat)
    requires |leaf| == |leaf'| == 4 && Vals(path) && Vals(path') && |path| == |path'|
    requires TreeFold(NodeOf(h, pp, kind, lay, tau), e, 0, leaf, path) == TreeFold(NodeOf(h, pp, kind, lay, tau), e, 0, leaf', path')
    requires leaf != leaf' || path != path'
    ensures k < |path|
    ensures Clash(h, pp, NodeTweak(kind, lay, tau, e, k), NodePayload(h, pp, kind, lay, tau, e, leaf, path, k),
                  NodePayload(h, pp, kind, lay, tau, e, leaf', path', k))
  {
    hide Tweak, Shift, FoldAt, TreeFold, Th;
    var node := NodeOf(h, pp, kind, lay, tau);
    k := FoldBinds(node, e, 0, leaf, path, leaf', path');
    NodeLengths(h, pp, kind, lay, tau);
    FoldLengths(node, e, 0, leaf, path, k);
    FoldLengths(node, e, 0, leaf', path', k);
    var (a, b) := (FoldAt(node, e, 0, leaf, path, k), FoldAt(node, e, 0, leaf', path', k));
    PairParts(a.0, a.1);
    PairParts(b.0, b.1);
    assert node(k + 1, Shift(e, k + 1), a.0, a.1) == Th(h, pp, NodeTweak(kind, lay, tau, e, k), a.0 + a.1);
    assert node(k + 1, Shift(e, k + 1), b.0, b.1) == Th(h, pp, NodeTweak(kind, lay, tau, e, k), b.0 + b.1);
  }

  lemma NodeLengths(h: Hash, pp: Val, kind: nat, lay: nat, tau: nat)
    ensures forall l, j, a, b :: |NodeOf(h, pp, kind, lay, tau)(l, j, a, b)| == 4
  {
  }

  lemma PairParts(l: Val, r: Val)
    requires |l| == 4
    ensures (l + r)[..4] == l && (l + r)[4..] == r
  {
  }

  // ---- chains ----------------------------------------------------------------------------------

  lemma ChainStep(h: Hash, pp: Val, at: Place, i: nat, start: nat, steps: nat, value: Val)
    requires steps > 0
    ensures Chain(h, pp, at, i, start, steps, value)
         == Th(h, pp, Tweak(CHAIN, at.lay, at.tau, CHAIN_LEN * i + start + steps - 1, at.e), Chain(h, pp, at, i, start, steps - 1, value))
    ensures Chain(h, pp, at, i, start, 0, value) == value
  {
  }

  /** Two values that walk to one end meet in a clash. */
  lemma {:induction false} ChainBinds(h: Hash, pp: Val, at: Place, i: nat, start: nat, steps: nat, v: Val, v': Val) returns (k: nat)
    requires Chain(h, pp, at, i, start, steps, v) == Chain(h, pp, at, i, start, steps, v') && v != v'
    ensures k < steps
    ensures Clash(h, pp, Tweak(CHAIN, at.lay, at.tau, CHAIN_LEN * i + start + k, at.e),
                  Chain(h, pp, at, i, start, k, v), Chain(h, pp, at, i, start, k, v'))
    decreases steps
  {
    hide Th, Tweak;
    assert steps > 0;
    k := steps - 1;
    if Chain(h, pp, at, i, start, k, v) == Chain(h, pp, at, i, start, k, v') {
      k := ChainBinds(h, pp, at, i, start, k, v, v');
    } else {
      ChainStep(h, pp, at, i, start, steps, v);
      ChainStep(h, pp, at, i, start, steps, v');
    }
  }

  // ---- codewords -------------------------------------------------------------------------------

  lemma {:induction false} HalfByPositions(a: nat, b: nat, n: nat)
    requires forall r :: 0 <= r < n ==> Low(Shift(a, 3 * r), 3) == Low(Shift(b, 3 * r), 3)
    ensures Low(a, 3 * n) == Low(b, 3 * n)
  {
    if n == 0 {
      NoStep(a);
      NoStep(b);
    } else {
      hide Low, Shift;
      HalfByPositions(a, b, n - 1);
      LowMore(a, 3 * (n - 1), 3);
      LowMore(b, 3 * (n - 1), 3);
    }
  }

  /** The low j + k bits, in two parts. */
  lemma LowMore(a: nat, j: nat, k: nat)
    ensures Low(a, j + k) == Low(a, j) + Pow2(j) * Low(Shift(a, j), k)
  {
    hide Low, Shift, Pow2;
    var s := Shift(a, j);
    SplitAt(a, j);
    SplitAt(s, k);
    ShiftShift(a, j, k);
    SplitAt(a, j + k);
    Pow2Add(j, k);
    Spread(Pow2(j), Low(s, k), Pow2(k), Shift(s, k));
  }

  lemma Spread(p: nat, l: nat, q: nat, s: nat)
    ensures p * (l + q * s) == p * l + (p * q) * s
  {
  }

  /** A half with a zero top bit is its 21 positions. */
  lemma HalfIs(a: nat, b: nat)
    requires Positions(a, 21) == Positions(b, 21) && Shift(a, 63) == 0 && Shift(b, 63) == 0
    ensures a == b
  {
    hide Low, Shift, Pow2;
    forall r | 0 <= r < 21
      ensures Low(Shift(a, 3 * r), 3) == Low(Shift(b, 3 * r), 3)
    {
      assert Positions(a, 21)[r] == Positions(b, 21)[r];
    }
    HalfByPositions(a, b, 21);
    SplitAt(a, 63);
    SplitAt(b, 63);
    NothingTimes(Pow2(63));
  }

  lemma NothingTimes(p: nat)
    ensures p * 0 == 0
  {
  }

  lemma WordsOfHalf(a: nat, b: nat, c: nat, d: nat)
    requires Half(a, b) == Half(c, d) && a < 0x1_0000_0000 && c < 0x1_0000_0000
    ensures a == c && b == d
  {
    WordPower();
    hide Pow2;
    Join(a, 32, b);
    Join(c, 32, d);
  }

  /** A codeword has one digest. */
  lemma CodewordBinds(d: seq<nat>, d': seq<nat>)
    requires |d| == |d'| == 4 && Words(d) && Words(d')
    requires ReferenceCodeword(d).Some? && ReferenceCodeword(d) == ReferenceCodeword(d')
    ensures d == d'
  {
    hide Low, Shift, Half, SeqSum, Positions;
    var p, q := Positions(Half(d[0], d[1]), 21), Positions(Half(d[2], d[3]), 21);
    var p', q' := Positions(Half(d'[0], d'[1]), 21), Positions(Half(d'[2], d'[3]), 21);
    assert (p + q)[..21] == p && (p + q)[21..] == q && (p' + q')[..21] == p' && (p' + q')[21..] == q';
    HalfIs(Half(d[0], d[1]), Half(d'[0], d'[1]));
    HalfIs(Half(d[2], d[3]), Half(d'[2], d'[3]));
    WordsOfHalf(d[0], d[1], d'[0], d'[1]);
    WordsOfHalf(d[2], d[3], d'[2], d'[3]);
    assert d == [d[0], d[1], d[2], d[3]] && d' == [d'[0], d'[1], d'[2], d'[3]];
  }

  ghost predicate NoneBelow(x: seq<nat>, y: seq<nat>)
    requires |x| == |y|
  {
    forall i :: 0 <= i < |x| ==> x[i] >= y[i]
  }

  lemma {:induction false} SumsOrder(x: seq<nat>, y: seq<nat>)
    requires |x| == |y| && NoneBelow(x, y)
    ensures SeqSum(x) >= SeqSum(y) && (SeqSum(x) == SeqSum(y) ==> x == y)
    decreases |x|
  {
    if x != [] {
      var l := |x| - 1;
      assert x[..l] + [x[l]] == x && y[..l] + [y[l]] == y;
      SumsOrder(x[..l], y[..l]);
    }
  }

  /** Two codewords are of one sum: each has a position below the other's. */
  lemma CodewordsCross(x: seq<nat>, y: seq<nat>) returns (i: nat)
    requires |x| == |y| && x != y && SeqSum(x) == SeqSum(y)
    ensures i < |x| && x[i] < y[i]
  {
    if NoneBelow(x, y) {
      SumsOrder(x, y);
      assert false;
    }
    i :| 0 <= i < |x| && x[i] < y[i];
  }

  // ---- one layer -------------------------------------------------------------------------------

  /** What a layer's part of a signature holds: a counter, chain values, a path. */
  ghost predicate IsPart(at: Place, part: seq<nat>) {
    |part| == OTS_WORDS + 4 * Height(at.lay)
  }

  function Sigma(at: Place, part: seq<nat>): (v: seq<Val>)
    requires |part| == OTS_WORDS + 4 * Height(at.lay)
    ensures |v| == CHAINS && Vals(v)
  {
    Unflatten(part[1..], CHAINS)
  }

  function PathOf(at: Place, part: seq<nat>): (v: seq<Val>)
    requires |part| == OTS_WORDS + 4 * Height(at.lay)
    ensures |v| == Height(at.lay) && Vals(v)
  {
    Unflatten(part[OTS_WORDS..], Height(at.lay))
  }

  /** The positions the value and the counter encode to. */
  function CodewordOf(h: Hash, pp: Val, at: Place, m: Val, part: seq<nat>): (x: Option<seq<nat>>)
    requires |part| == OTS_WORDS + 4 * Height(at.lay)
    ensures x.Some? ==> |x.value| == CHAINS && forall i :: 0 <= i < CHAINS ==> x.value[i] < CHAIN_LEN
  {
    Encode(h, pp, at, m, part[0])
  }

  /** Chain i's value walked from its own position to position k. */
  function Walked(h: Hash, pp: Val, at: Place, x: seq<nat>, sigma: seq<Val>, i: nat, k: nat): (v: Val)
    requires |x| == |sigma| == CHAINS && i < CHAINS && Vals(sigma)
    ensures |v| == 4
  {
    Chain(h, pp, at, i, x[i], if x[i] <= k then k - x[i] else 0, sigma[i])
  }

  function Tips(h: Hash, pp: Val, at: Place, x: seq<nat>, sigma: seq<Val>): (t: seq<Val>)
    requires |x| == |sigma| == CHAINS && Vals(sigma)
    ensures |t| == CHAINS && Vals(t) && forall i :: 0 <= i < CHAINS ==> t[i] == Walked(h, pp, at, x, sigma, i, CHAIN_LEN - 1)
  {
    seq(CHAINS, i requires 0 <= i < CHAINS => Walked(h, pp, at, x, sigma, i, CHAIN_LEN - 1))
  }

  /** What two parts with one root show of each other. */
  datatype Verdict =
    | Same
    | AtNode(level: nat)
    | AtLeaf
    | AtChain(i: nat, k: nat)
    | AtEncoding
    | Forked(i: nat, j: nat)

  /** A clash at a chain position both values reach. */
  ghost predicate ChainClash(h: Hash, pp: Val, at: Place, x: seq<nat>, s: seq<Val>, x': seq<nat>, s': seq<Val>, i: nat, k: nat)
    requires |x| == |x'| == |s| == |s'| == CHAINS && Vals(s) && Vals(s')
  {
    && i < CHAINS && x[i] <= k && x'[i] <= k && k < CHAIN_LEN - 1
    && Clash(h, pp, Tweak(CHAIN, at.lay, at.tau, CHAIN_LEN * i + k, at.e), Walked(h, pp, at, x, s, i, k), Walked(h, pp, at, x', s', i, k))
  }

  /** Chain i of the first lies below the second's and walks up to it. */
  ghost predicate Below(h: Hash, pp: Val, at: Place, x: seq<nat>, s: seq<Val>, x': seq<nat>, s': seq<Val>, i: nat)
    requires |x| == |x'| == |s| == |s'| == CHAINS && Vals(s) && Vals(s')
  {
    i < CHAINS && x[i] < x'[i] && Walked(h, pp, at, x, s, i, x'[i]) == s'[i]
  }

  ghost predicate NodeClash(h: Hash, pp: Val, at: Place, tips: seq<Val>, path: seq<Val>, tips': seq<Val>, path': seq<Val>, level: nat)
    requires |path| == |path'|
  {
    && level < |path|
    && Clash(h, pp, NodeTweak(NODE, at.lay, at.tau, at.e, level),
             NodePayload(h, pp, NODE, at.lay, at.tau, at.e, LeafHash(h, pp, at, tips), path, level),
             NodePayload(h, pp, NODE, at.lay, at.tau, at.e, LeafHash(h, pp, at, tips'), path', level))
  }

  /** The same value, counter, chains and path; or a clash at that node, leaf, chain position or
      encoding; or one key opened at two codewords, one chain lower in each. */
  ghost predicate Shows(h: Hash, pp: Val, at: Place, m: Val, part: seq<nat>, m': Val, part': seq<nat>, w: Verdict)
    requires IsPart(at, part) && IsPart(at, part')
    requires CodewordOf(h, pp, at, m, part).Some? && CodewordOf(h, pp, at, m', part').Some?
  {
    var x, x' := CodewordOf(h, pp, at, m, part).value, CodewordOf(h, pp, at, m', part').value;
    var s, s' := Sigma(at, part), Sigma(at, part');
    match w
    case Same => m == m' && part == part'
    case AtNode(level) => NodeClash(h, pp, at, Tips(h, pp, at, x, s), PathOf(at, part), Tips(h, pp, at, x', s'), PathOf(at, part'), level)
    case AtLeaf =>
      Clash(h, pp, Tweak(LEAF, at.lay, at.tau, 0, at.e), Flatten(Tips(h, pp, at, x, s)), Flatten(Tips(h, pp, at, x', s')))
    case AtChain(i, k) => ChainClash(h, pp, at, x, s, x', s', i, k)
    case AtEncoding => Clash(h, pp, Tweak(ENC, at.lay, at.tau, 0, at.e), m + [part[0]], m' + [part'[0]])
    case Forked(i, j) => Below(h, pp, at, x, s, x', s', i) && Below(h, pp, at, x', s', x, s, j)
  }

  lemma LayerParts(h: Hash, pp: Val, at: Place, m: Val, part: seq<nat>)
    requires IsPart(at, part) && LayerRoot(h, pp, at, m, part).Some?
    ensures var x := CodewordOf(h, pp, at, m, part);
      x.Some?
      && LayerRoot(h, pp, at, m, part).value
         == TreeFold(NodeOf(h, pp, NODE, at.lay, at.tau), at.e, 0, LeafHash(h, pp, at, Tips(h, pp, at, x.value, Sigma(at, part))), PathOf(at, part))
  {
    hide Chain, Encode, TreeFold, Flatten, NodeOf, Tweak, Th;
    var x, s := CodewordOf(h, pp, at, m, part).value, Sigma(at, part);
    var tips := seq(CHAINS, i requires 0 <= i < CHAINS => Chain(h, pp, at, i, x[i], CHAIN_LEN - 1 - x[i], s[i]));
    forall i | 0 <= i < CHAINS
      ensures tips[i] == Tips(h, pp, at, x, s)[i]
    {
    }
    assert tips == Tips(h, pp, at, x, s);
  }

  /** One chain whose values walk to one tip: equal where the later one starts, or a clash. */
  lemma ChainMeets(h: Hash, pp: Val, at: Place, x: seq<nat>, s: seq<Val>, x': seq<nat>, s': seq<Val>, i: nat) returns (k: nat)
    requires |x| == |x'| == |s| == |s'| == CHAINS && Vals(s) && Vals(s') && i < CHAINS && x[i] <= x'[i] < CHAIN_LEN
    requires Walked(h, pp, at, x, s, i, CHAIN_LEN - 1) == Walked(h, pp, at, x', s', i, CHAIN_LEN - 1)
    requires Walked(h, pp, at, x, s, i, x'[i]) != s'[i]
    ensures x'[i] <= k < CHAIN_LEN - 1
    ensures Clash(h, pp, Tweak(CHAIN, at.lay, at.tau, CHAIN_LEN * i + k, at.e), Walked(h, pp, at, x, s, i, k), Walked(h, pp, at, x', s', i, k))
  {
    hide Chain, Th, Tweak;
    var low, steps := x'[i] - x[i], CHAIN_LEN - 1 - x'[i];
    var y := Chain(h, pp, at, i, x[i], low, s[i]);
    ChainSplit(h, pp, at, i, x[i], low, steps, s[i]);
    k := ChainBinds(h, pp, at, i, x'[i], steps, y, s'[i]);
    ChainSplit(h, pp, at, i, x[i], low, k, s[i]);
    k := x'[i] + k;
  }

  lemma FlattenBinds(s: seq<Val>, t: seq<Val>)
    requires |s| == |t| && Vals(s) && Vals(t) && Flatten(s) == Flatten(t)
    ensures s == t
  {
    hide Flatten;
    RoundTrip(s);
    RoundTrip(t);
  }

  /** A part is its counter, chain values and path. */
  lemma PartIs(at: Place, part: seq<nat>, part': seq<nat>)
    requires IsPart(at, part) && IsPart(at, part') && part[0] == part'[0]
    requires Sigma(at, part) == Sigma(at, part') && PathOf(at, part) == PathOf(at, part')
    ensures part == part'
  {
    forall w | 0 <= w < |part|
      ensures part[w] == part'[w]
    {
      if 1 <= w < OTS_WORDS {
        var i := (w - 1) / 4;
        assert Sigma(at, part)[i] == Sigma(at, part')[i] && part[1..][4 * i..4 * i + 4][w - 1 - 4 * i] == part[w];
        assert part'[1..][4 * i..4 * i + 4][w - 1 - 4 * i] == part'[w];
      } else if w >= OTS_WORDS {
        var i := (w - OTS_WORDS) / 4;
        assert PathOf(at, part)[i] == PathOf(at, part')[i] && part[OTS_WORDS..][4 * i..4 * i + 4][w - OTS_WORDS - 4 * i] == part[w];
        assert part'[OTS_WORDS..][4 * i..4 * i + 4][w - OTS_WORDS - 4 * i] == part'[w];
      }
    }
  }

  /** One value and counter per codeword, or a clash of encodings. */
  lemma EncodingBinds(h: Hash, pp: Val, at: Place, m: Val, part: seq<nat>, m': Val, part': seq<nat>)
    requires IsPart(at, part) && IsPart(at, part')
    requires CodewordOf(h, pp, at, m, part).Some? && CodewordOf(h, pp, at, m, part) == CodewordOf(h, pp, at, m', part')
    ensures (m == m' && part[0] == part'[0])
         || Clash(h, pp, Tweak(ENC, at.lay, at.tau, 0, at.e), m + [part[0]], m' + [part'[0]])
  {
    hide ReferenceCodeword, Tweak, Th;
    var a, b := m + [part[0]], m' + [part'[0]];
    var t := Tweak(ENC, at.lay, at.tau, 0, at.e);
    CodewordBinds(Th(h, pp, t, a), Th(h, pp, t, b));
    if a == b {
      assert a[..|a| - 1] == m && b[..|b| - 1] == m';
    }
  }

  lemma TipsMeet(h: Hash, pp: Val, at: Place, x: seq<nat>, s: seq<Val>, x': seq<nat>, s': seq<Val>, i: nat)
    requires |x| == |x'| == |s| == |s'| == CHAINS && Vals(s) && Vals(s') && i < CHAINS
    requires Tips(h, pp, at, x, s) == Tips(h, pp, at, x', s')
    ensures Walked(h, pp, at, x, s, i, CHAIN_LEN - 1) == Walked(h, pp, at, x', s', i, CHAIN_LEN - 1)
  {
    hide Walked;
    assert Tips(h, pp, at, x, s)[i] == Tips(h, pp, at, x', s')[i];
  }

  /** Equal codewords and tips: the same chain values, or a clash in a chain. */
  lemma ChainsBind(h: Hash, pp: Val, at: Place, x: seq<nat>, s: seq<Val>, s': seq<Val>) returns (i: nat, k: nat)
    requires |x| == |s| == |s'| == CHAINS && Vals(s) && Vals(s') && s != s'
    requires forall c :: 0 <= c < CHAINS ==> x[c] < CHAIN_LEN
    requires Tips(h, pp, at, x, s) == Tips(h, pp, at, x, s')
    ensures ChainClash(h, pp, at, x, s, x, s', i, k)
  {
    hide Chain, Th, Tweak, Tips, Clash;
    i :| 0 <= i < CHAINS && s[i] != s'[i];
    TipsMeet(h, pp, at, x, s, x, s', i);
    WalkedHere(h, pp, at, x, s, i);
    k := ChainMeets(h, pp, at, x, s, x, s', i);
  }

  lemma WalkedHere(h: Hash, pp: Val, at: Place, x: seq<nat>, s: seq<Val>, i: nat)
    requires |x| == |s| == CHAINS && i < CHAINS && Vals(s)
    ensures Walked(h, pp, at, x, s, i, x[i]) == s[i]
  {
  }

  /** Different codewords of one sum on equal tips: a clash in a chain, or the key is opened twice. */
  lemma CodewordsFork(h: Hash, pp: Val, at: Place, x: seq<nat>, s: seq<Val>, x': seq<nat>, s': seq<Val>) returns (w: Verdict)
    requires |x| == |x'| == |s| == |s'| == CHAINS && Vals(s) && Vals(s')
    requires forall c :: 0 <= c < CHAINS ==> x[c] < CHAIN_LEN && x'[c] < CHAIN_LEN
    requires x != x' && SeqSum(x) == SeqSum(x') && Tips(h, pp, at, x, s) == Tips(h, pp, at, x', s')
    ensures w.Forked? || w.AtChain?
    ensures w.Forked? ==> Below(h, pp, at, x, s, x', s', w.i) && Below(h, pp, at, x', s', x, s, w.j)
    ensures w.AtChain? ==> ChainClash(h, pp, at, x, s, x', s', w.i, w.k)
  {
    hide Tips, Walked, Clash, Tweak, SeqSum;
    var i := CodewordsCross(x, x');
    var j := CodewordsCross(x', x);
    TipsMeet(h, pp, at, x, s, x', s', i);
    TipsMeet(h, pp, at, x, s, x', s', j);
    if Walked(h, pp, at, x, s, i, x'[i]) != s'[i] {
      var k := ChainMeets(h, pp, at, x, s, x', s', i);
      w := AtChain(i, k);
    } else if Walked(h, pp, at, x', s', j, x[j]) != s[j] {
      var k := ChainMeets(h, pp, at, x', s', x, s, j);
      ClashTurns(h, pp, Tweak(CHAIN, at.lay, at.tau, CHAIN_LEN * j + k, at.e), Walked(h, pp, at, x', s', j, k), Walked(h, pp, at, x, s, j, k));
      w := AtChain(j, k);
    } else {
      w := Forked(i, j);
    }
  }

  lemma ClashTurns(h: Hash, pp: Val, t: seq<nat>, a: seq<nat>, b: seq<nat>)
    requires Clash(h, pp, t, a, b)
    ensures Clash(h, pp, t, b, a)
  {
  }

  lemma SameSums(h: Hash, pp: Val, at: Place, m: Val, part: seq<nat>, m': Val, part': seq<nat>)
    requires IsPart(at, part) && IsPart(at, part')
    requires CodewordOf(h, pp, at, m, part).Some? && CodewordOf(h, pp, at, m', part').Some?
    ensures SeqSum(CodewordOf(h, pp, at, m, part).value) == SeqSum(CodewordOf(h, pp, at, m', part').value)
  {
    hide Th, Tweak, Positions, Shift, SeqSum, Half;
  }

  /** Two parts with one path whose chains end alike. */
  lemma KeyBinds(h: Hash, pp: Val, at: Place, m: Val, part: seq<nat>, m': Val, part': seq<nat>) returns (w: Verdict)
    requires IsPart(at, part) && IsPart(at, part') && PathOf(at, part) == PathOf(at, part')
    requires CodewordOf(h, pp, at, m, part).Some? && CodewordOf(h, pp, at, m', part').Some?
    requires Tips(h, pp, at, CodewordOf(h, pp, at, m, part).value, Sigma(at, part))
          == Tips(h, pp, at, CodewordOf(h, pp, at, m', part').value, Sigma(at, part'))
    ensures Shows(h, pp, at, m, part, m', part', w)
  {
    hide LayerRoot, CodewordOf, Tips, Walked, Clash, Sigma, PathOf, NodeClash, ChainClash, Below, Tweak, SeqSum;
    var x, x' := CodewordOf(h, pp, at, m, part).value, CodewordOf(h, pp, at, m', part').value;
    var s, s' := Sigma(at, part), Sigma(at, part');
    if x != x' {
      SameSums(h, pp, at, m, part, m', part');
      w := CodewordsFork(h, pp, at, x, s, x', s');
    } else if s != s' {
      var i, k := ChainsBind(h, pp, at, x, s, s');
      w := AtChain(i, k);
    } else {
      EncodingBinds(h, pp, at, m, part, m', part');
      w := AtEncoding;
      if m == m' && part[0] == part'[0] {
        PartIs(at, part, part');
        w := Same;
      }
    }
  }

  /** Two parts of one place with one root: all that follows from it. */
  lemma LayerBinds(h: Hash, pp: Val, at: Place, m: Val, part: seq<nat>, m': Val, part': seq<nat>) returns (w: Verdict)
    requires IsPart(at, part) && IsPart(at, part')
    requires LayerRoot(h, pp, at, m, part).Some? && LayerRoot(h, pp, at, m, part) == LayerRoot(h, pp, at, m', part')
    ensures CodewordOf(h, pp, at, m, part).Some? && CodewordOf(h, pp, at, m', part').Some?
    ensures Shows(h, pp, at, m, part, m', part', w)
  {
    LayerParts(h, pp, at, m, part);
    LayerParts(h, pp, at, m', part');
    hide LayerRoot, CodewordOf, Tips, LeafHash, Walked, Clash, Sigma, PathOf, NodePayload, TreeFold, NodeOf, NodeTweak, NodeClash,
         ChainClash, Below, Tweak, Flatten;
    var tips := Tips(h, pp, at, CodewordOf(h, pp, at, m, part).value, Sigma(at, part));
    var tips' := Tips(h, pp, at, CodewordOf(h, pp, at, m', part').value, Sigma(at, part'));
    var leaf, leaf' := LeafHash(h, pp, at, tips), LeafHash(h, pp, at, tips');
    if leaf != leaf' || PathOf(at, part) != PathOf(at, part') {
      var level := TreeBinds(h, pp, NODE, at.lay, at.tau, at.e, leaf, PathOf(at, part), leaf', PathOf(at, part'));
      NodeClashes(h, pp, at, tips, PathOf(at, part), tips', PathOf(at, part'), level);
      w := AtNode(level);
    } else if Flatten(tips) != Flatten(tips') {
      LeafClash(h, pp, at, tips, tips');
      w := AtLeaf;
    } else {
      FlattenBinds(tips, tips');
      w := KeyBinds(h, pp, at, m, part, m', part');
    }
  }

  lemma NodeClashes(h: Hash, pp: Val, at: Place, tips: seq<Val>, path: seq<Val>, tips': seq<Val>, path': seq<Val>, level: nat)
    requires |path| == |path'| && level < |path|
    requires Clash(h, pp, NodeTweak(NODE, at.lay, at.tau, at.e, level),
                   NodePayload(h, pp, NODE, at.lay, at.tau, at.e, LeafHash(h, pp, at, tips), path, level),
                   NodePayload(h, pp, NODE, at.lay, at.tau, at.e, LeafHash(h, pp, at, tips'), path', level))
    ensures NodeClash(h, pp, at, tips, path, tips', path', level)
  {
  }

  lemma LeafClash(h: Hash, pp: Val, at: Place, tips: seq<Val>, tips': seq<Val>)
    requires LeafHash(h, pp, at, tips) == LeafHash(h, pp, at, tips') && Flatten(tips) != Flatten(tips')
    ensures Clash(h, pp, Tweak(LEAF, at.lay, at.tau, 0, at.e), Flatten(tips), Flatten(tips'))
  {
    hide Flatten, Th;
  }

  // ---- the few-time key ------------------------------------------------------------------------

  /** An opening of leaf u of a few-time tree: the same words, or a clash at a node or the leaf. */
  datatype OpeningVerdict = SameOpening | AtFtsNode(level: nat) | AtFtsLeaf

  ghost predicate OpeningShows(h: Hash, pp: Val, idx: nat, kappa: nat, u: nat, o: seq<nat>, o': seq<nat>, w: OpeningVerdict)
    requires |o| == |o'| == OPENING_WORDS
  {
    match w
    case SameOpening => o == o'
    case AtFtsLeaf => Clash(h, pp, Tweak(FTS_LEAF, kappa, idx, 0, u), o[..4], o'[..4])
    case AtFtsNode(level) =>
      && level < FTS_HEIGHT
      && Clash(h, pp, NodeTweak(FTS_NODE, kappa, idx, u, level),
               NodePayload(h, pp, FTS_NODE, kappa, idx, u, FtsLeaf(h, pp, idx, kappa, u, o[..4]), Unflatten(o[4..], FTS_HEIGHT), level),
               NodePayload(h, pp, FTS_NODE, kappa, idx, u, FtsLeaf(h, pp, idx, kappa, u, o'[..4]), Unflatten(o'[4..], FTS_HEIGHT), level))
  }

  lemma OpeningIs(o: seq<nat>, o': seq<nat>)
    requires |o| == |o'| == OPENING_WORDS && o[..4] == o'[..4] && Unflatten(o[4..], FTS_HEIGHT) == Unflatten(o'[4..], FTS_HEIGHT)
    ensures o == o'
  {
    forall w | 0 <= w < |o|
      ensures o[w] == o'[w]
    {
      if w < 4 {
        assert o[..4][w] == o'[..4][w];
      } else {
        var i := (w - 4) / 4;
        assert Unflatten(o[4..], FTS_HEIGHT)[i] == Unflatten(o'[4..], FTS_HEIGHT)[i];
        assert o[4..][4 * i..4 * i + 4][w - 4 - 4 * i] == o[w] && o'[4..][4 * i..4 * i + 4][w - 4 - 4 * i] == o'[w];
      }
    }
  }

  lemma OpeningBinds(h: Hash, pp: Val, idx: nat, kappa: nat, u: nat, o: seq<nat>, o': seq<nat>) returns (w: OpeningVerdict)
    requires |o| == |o'| == OPENING_WORDS && OpeningRoot(h, pp, idx, kappa, u, o) == OpeningRoot(h, pp, idx, kappa, u, o')
    ensures OpeningShows(h, pp, idx, kappa, u, o, o', w)
  {
    hide TreeFold, NodeOf, NodePayload, NodeTweak, Tweak, Th, Clash;
    var leaf, leaf' := FtsLeaf(h, pp, idx, kappa, u, o[..4]), FtsLeaf(h, pp, idx, kappa, u, o'[..4]);
    var path, path' := Unflatten(o[4..], FTS_HEIGHT), Unflatten(o'[4..], FTS_HEIGHT);
    if leaf != leaf' || path != path' {
      var level := TreeBinds(h, pp, FTS_NODE, kappa, idx, u, leaf, path, leaf', path');
      w := AtFtsNode(level);
    } else if o[..4] != o'[..4] {
      LeafSecrets(h, pp, idx, kappa, u, o[..4], o'[..4]);
      w := AtFtsLeaf;
    } else {
      OpeningIs(o, o');
      w := SameOpening;
    }
  }

  lemma LeafSecrets(h: Hash, pp: Val, idx: nat, kappa: nat, u: nat, a: Val, b: Val)
    requires FtsLeaf(h, pp, idx, kappa, u, a) == FtsLeaf(h, pp, idx, kappa, u, b) && a != b
    ensures Clash(h, pp, Tweak(FTS_LEAF, kappa, idx, 0, u), a, b)
  {
    hide Th, Tweak;
  }

  // ---- whole signatures ------------------------------------------------------------------------

  function RecoveredRoots(h: Hash, pp: Val, d: Digest, sig: seq<nat>): (roots: seq<Val>)
    requires |sig| == SIG_WORDS
    ensures |roots| == FTS_TREES
    ensures forall kappa :: 0 <= kappa < FTS_TREES ==> roots[kappa] == RecoveredRoot(h, pp, d, sig, kappa)
  {
    seq(FTS_TREES, kappa requires 0 <= kappa < FTS_TREES => RecoveredRoot(h, pp, d, sig, kappa))
  }

  function OpeningOf(sig: seq<nat>, kappa: nat): (o: seq<nat>)
    requires |sig| == SIG_WORDS && kappa < FTS_TREES
    ensures |o| == OPENING_WORDS
  {
    sig[OpeningOffset(kappa)..OpeningOffset(kappa + 1)]
  }

  function LayerPart(sig: seq<nat>, lay: nat): (part: seq<nat>)
    requires |sig| == SIG_WORDS && lay < LAYERS
    ensures |part| == OTS_WORDS + 4 * Height(lay)
  {
    Layout();
    sig[LayerOffset(lay)..LayerOffset(lay + 1)]
  }

  /** The value layer `lay` signs: the few-time key, or the root of the layer below. */
  function LayerValue(h: Hash, pp: Val, d: Digest, sig: seq<nat>, lay: nat): Option<Val>
    requires |sig| == SIG_WORDS && lay < LAYERS
    decreases LAYERS - lay
  {
    if lay == LAYERS - 1 then Some(FtsRecover(h, pp, d, sig))
    else match LayerValue(h, pp, d, sig, lay + 1)
      case None => None
      case Some(m) => LayerRoot(h, pp, PlaceOf(IndexOf(d), lay + 1), m, LayerPart(sig, lay + 1))
  }

  /** What an accepted signature is: every layer leads to the next, the top one to the root, and the
      last ten of the digest's 176 bits are zero. */
  lemma Accepted(h: Hash, pp: Val, root: Val, m: seq<nat>, sig: seq<nat>)
    requires Verify(h, pp, root, m, sig)
    ensures |sig| == SIG_WORDS
    ensures var d := MessageHash(h, pp, root, sig[..4], m);
      && Low(Number(d.All()), 176) < Pow2(166)
      && LayerValue(h, pp, d, sig, 2) == Some(FtsRecover(h, pp, d, sig))
      && LayerValue(h, pp, d, sig, 1).Some? && LayerValue(h, pp, d, sig, 0).Some?
      && LayerRoot(h, pp, PlaceOf(IndexOf(d), 0), LayerValue(h, pp, d, sig, 0).value, LayerPart(sig, 0)) == Some(root)
  {
    hide LayerRoot, FtsRecover, MessageHash, PlaceOf, IndexOf, Pow2, Low, Shift, LayerOffset;
    var d := MessageHash(h, pp, root, sig[..4], m);
    Layout();
    TopDown(h, pp, d, root, sig);
    var n := Low(Number(d.All()), 176);
    LowBound(Number(d.All()), 176);
    ShiftBound(n, 166, 10);
    LowSmall(Shift(n, 166), 10);
    SplitAt(n, 166);
    LowBound(n, 166);
    NothingTimes(Pow2(166));
  }

  lemma TopStep(h: Hash, pp: Val, idx: nat, lays: nat, m: Val, sig: seq<nat>)
    requires 0 < lays <= 3 && |sig| == SIG_WORDS
    ensures TopRoot(h, pp, idx, lays, m, sig)
         == match LayerRoot(h, pp, PlaceOf(idx, lays - 1), m, LayerPart(sig, lays - 1))
            case None => None
            case Some(root) => TopRoot(h, pp, idx, lays - 1, root, sig)
    ensures TopRoot(h, pp, idx, 0, m, sig) == Some(m)
  {
    hide LayerRoot, PlaceOf;
  }

  lemma TopDown(h: Hash, pp: Val, d: Digest, root: Val, sig: seq<nat>)
    requires |sig| == SIG_WORDS && TopRoot(h, pp, IndexOf(d), 3, FtsRecover(h, pp, d, sig), sig) == Some(root)
    ensures LayerValue(h, pp, d, sig, 2) == Some(FtsRecover(h, pp, d, sig))
    ensures LayerValue(h, pp, d, sig, 1).Some? && LayerValue(h, pp, d, sig, 0).Some?
    ensures LayerRoot(h, pp, PlaceOf(IndexOf(d), 0), LayerValue(h, pp, d, sig, 0).value, LayerPart(sig, 0)) == Some(root)
  {
    hide LayerRoot, FtsRecover, IndexOf, TopRoot, LayerPart;
    var idx, m2 := IndexOf(d), FtsRecover(h, pp, d, sig);
    TopStep(h, pp, idx, 3, m2, sig);
    var m1 := LayerRoot(h, pp, PlaceOf(idx, 2), m2, LayerPart(sig, 2)).value;
    TopStep(h, pp, idx, 2, m1, sig);
    var m0 := LayerRoot(h, pp, PlaceOf(idx, 1), m1, LayerPart(sig, 1)).value;
    TopStep(h, pp, idx, 1, m0, sig);
    var top := LayerRoot(h, pp, PlaceOf(idx, 0), m0, LayerPart(sig, 0)).value;
    TopStep(h, pp, idx, 1, top, sig);
    assert LayerValue(h, pp, d, sig, 1) == Some(m1) && LayerValue(h, pp, d, sig, 0) == Some(m0);
  }

  /** Where two accepted signatures part. */
  datatype Finding = Agree | AtLayer(lay: nat, verdict: Verdict) | AtRoots | AtOpening(kappa: nat, opening: OpeningVerdict)

  /** They agree on every layer, and on every few-time tree whose leaf they both open; or they show a
      clash or a forked key at a named place. */
  ghost predicate Finds(h: Hash, pp: Val, d: Digest, sig: seq<nat>, d': Digest, sig': seq<nat>, f: Finding)
    requires |sig| == |sig'| == SIG_WORDS
  {
    match f
    case Agree =>
      && (forall lay: nat :: lay < LAYERS ==> LayerPart(sig, lay) == LayerPart(sig', lay))
      && FtsRecover(h, pp, d, sig) == FtsRecover(h, pp, d', sig')
      && (forall kappa: nat :: kappa < FTS_TREES && TreeIndex(d, kappa) == TreeIndex(d', kappa) ==> OpeningOf(sig, kappa) == OpeningOf(sig', kappa))
    case AtLayer(lay, w) =>
      && lay < LAYERS && w != Same
      && LayerValue(h, pp, d, sig, lay).Some? && LayerValue(h, pp, d', sig', lay).Some?
      && var at, v, v' := PlaceOf(IndexOf(d), lay), LayerValue(h, pp, d, sig, lay).value, LayerValue(h, pp, d', sig', lay).value;
      && CodewordOf(h, pp, at, v, LayerPart(sig, lay)).Some? && CodewordOf(h, pp, at, v', LayerPart(sig', lay)).Some?
      && Shows(h, pp, at, v, LayerPart(sig, lay), v', LayerPart(sig', lay), w)
    case AtRoots =>
      Clash(h, pp, Tweak(FTS_ROOTS, 0, IndexOf(d), 0, 0), Flatten(RecoveredRoots(h, pp, d, sig)), Flatten(RecoveredRoots(h, pp, d', sig')))
    case AtOpening(kappa, w) =>
      && kappa < FTS_TREES && w != SameOpening && TreeIndex(d, kappa) == TreeIndex(d', kappa)
      && OpeningShows(h, pp, IndexOf(d), kappa, TreeIndex(d, kappa), OpeningOf(sig, kappa), OpeningOf(sig', kappa), w)
  }

  /** One layer, from the root both lead to. */
  lemma LayerFinds(h: Hash, pp: Val, d: Digest, sig: seq<nat>, d': Digest, sig': seq<nat>, lay: nat) returns (f: Finding)
    requires |sig| == |sig'| == SIG_WORDS && IndexOf(d) == IndexOf(d') && lay < LAYERS
    requires LayerValue(h, pp, d, sig, lay).Some? && LayerValue(h, pp, d', sig', lay).Some?
    requires var at := PlaceOf(IndexOf(d), lay);
      && LayerRoot(h, pp, at, LayerValue(h, pp, d, sig, lay).value, LayerPart(sig, lay)).Some?
      && LayerRoot(h, pp, at, LayerValue(h, pp, d, sig, lay).value, LayerPart(sig, lay))
         == LayerRoot(h, pp, at, LayerValue(h, pp, d', sig', lay).value, LayerPart(sig', lay))
    ensures f.Agree? ==> LayerPart(sig, lay) == LayerPart(sig', lay) && LayerValue(h, pp, d, sig, lay) == LayerValue(h, pp, d', sig', lay)
    ensures !f.Agree? ==> Finds(h, pp, d, sig, d', sig', f)
  {
    hide LayerRoot, LayerValue, LayerPart, IndexOf, CodewordOf, Clash, NodeClash, ChainClash, Below;
    var at, v, v' := PlaceOf(IndexOf(d), lay), LayerValue(h, pp, d, sig, lay).value, LayerValue(h, pp, d', sig', lay).value;
    var w := LayerBinds(h, pp, at, v, LayerPart(sig, lay), v', LayerPart(sig', lay));
    f := if w == Same then Agree else AtLayer(lay, w);
  }

  lemma ValueBelow(h: Hash, pp: Val, d: Digest, sig: seq<nat>, lay: nat)
    requires |sig| == SIG_WORDS && lay + 1 < LAYERS && LayerValue(h, pp, d, sig, lay).Some?
    ensures LayerValue(h, pp, d, sig, lay + 1).Some?
    ensures LayerValue(h, pp, d, sig, lay)
         == LayerRoot(h, pp, PlaceOf(IndexOf(d), lay + 1), LayerValue(h, pp, d, sig, lay + 1).value, LayerPart(sig, lay + 1))
  {
    hide LayerRoot, PlaceOf, IndexOf, FtsRecover, LayerPart;
  }

  /** The openings under one few-time key. */
  lemma OpeningsFind(h: Hash, pp: Val, d: Digest, sig: seq<nat>, d': Digest, sig': seq<nat>) returns (f: Finding)
    requires |sig| == |sig'| == SIG_WORDS && IndexOf(d) == IndexOf(d') && FtsRecover(h, pp, d, sig) == FtsRecover(h, pp, d', sig')
    requires forall lay: nat :: lay < LAYERS ==> LayerPart(sig, lay) == LayerPart(sig', lay)
    ensures Finds(h, pp, d, sig, d', sig', f)
  {
    hide OpeningRoot, IndexOf, TreeIndex, Flatten, LayerPart, OpeningOf, Tweak, OpeningShows;
    var roots, roots' := RecoveredRoots(h, pp, d, sig), RecoveredRoots(h, pp, d', sig');
    RecoveredKey(h, pp, d, sig);
    RecoveredKey(h, pp, d', sig');
    if Flatten(roots) != Flatten(roots') {
      RootsClash(h, pp, IndexOf(d), roots, roots');
      return AtRoots;
    }
    RootsBind(h, pp, d, sig, d', sig');
    if kappa: nat :| kappa < FTS_TREES && TreeIndex(d, kappa) == TreeIndex(d', kappa) && OpeningOf(sig, kappa) != OpeningOf(sig', kappa) {
      assert roots[kappa] == roots'[kappa];
      RootOfOpening(h, pp, d, sig, kappa);
      RootOfOpening(h, pp, d', sig', kappa);
      var w := OpeningBinds(h, pp, IndexOf(d), kappa, TreeIndex(d, kappa), OpeningOf(sig, kappa), OpeningOf(sig', kappa));
      SameIsSame(h, pp, IndexOf(d), kappa, TreeIndex(d, kappa), OpeningOf(sig, kappa), OpeningOf(sig', kappa), w);
      return AtOpening(kappa, w);
    }
    f := Agree;
  }

  lemma SameIsSame(h: Hash, pp: Val, idx: nat, kappa: nat, u: nat, o: seq<nat>, o': seq<nat>, w: OpeningVerdict)
    requires |o| == |o'| == OPENING_WORDS && OpeningShows(h, pp, idx, kappa, u, o, o', w) && o != o'
    ensures w != SameOpening
  {
  }

  lemma RootOfOpening(h: Hash, pp: Val, d: Digest, sig: seq<nat>, kappa: nat)
    requires |sig| == SIG_WORDS && kappa < FTS_TREES
    ensures RecoveredRoots(h, pp, d, sig)[kappa] == OpeningRoot(h, pp, IndexOf(d), kappa, TreeIndex(d, kappa), OpeningOf(sig, kappa))
  {
    hide OpeningRoot, IndexOf, TreeIndex;
  }

  lemma RecoveredKey(h: Hash, pp: Val, d: Digest, sig: seq<nat>)
    requires |sig| == SIG_WORDS
    ensures FtsRecover(h, pp, d, sig) == FtsKey(h, pp, IndexOf(d), RecoveredRoots(h, pp, d, sig))
  {
    hide RecoveredRoot, FtsKey, IndexOf;
    assert seq(FTS_TREES, kappa requires 0 <= kappa < FTS_TREES => RecoveredRoot(h, pp, d, sig, kappa)) == RecoveredRoots(h, pp, d, sig);
  }

  lemma RootsClash(h: Hash, pp: Val, idx: nat, roots: seq<Val>, roots': seq<Val>)
    requires FtsKey(h, pp, idx, roots) == FtsKey(h, pp, idx, roots') && Flatten(roots) != Flatten(roots')
    ensures Clash(h, pp, Tweak(FTS_ROOTS, 0, idx, 0, 0), Flatten(roots), Flatten(roots'))
  {
    hide Flatten, Th;
  }

  lemma {:induction false} FoldLength(node: NodeHash, e: nat, level: nat, cur: Val, path: seq<Val>)
    requires |cur| == 4 && forall l, j, a, b :: |node(l, j, a, b)| == 4
    ensures |TreeFold(node, e, level, cur, path)| == 4
    decreases |path|
  {
    if path != [] {
      FoldStep(node, e, level, cur, path, 0);
      FoldLength(node, e, level + 1, Up(node, e, level, cur, path), path[1..]);
    }
  }

  lemma RootsLengths(h: Hash, pp: Val, d: Digest, sig: seq<nat>)
    requires |sig| == SIG_WORDS
    ensures Vals(RecoveredRoots(h, pp, d, sig))
  {
    hide TreeFold, NodeOf, FtsLeaf, IndexOf, TreeIndex;
    forall kappa | 0 <= kappa < FTS_TREES
      ensures |RecoveredRoots(h, pp, d, sig)[kappa]| == 4
    {
      RootOfOpening(h, pp, d, sig, kappa);
      NodeLengths(h, pp, FTS_NODE, kappa, IndexOf(d));
      var o, u := OpeningOf(sig, kappa), TreeIndex(d, kappa);
      FoldLength(NodeOf(h, pp, FTS_NODE, kappa, IndexOf(d)), u, 0, FtsLeaf(h, pp, IndexOf(d), kappa, u, o[..4]), Unflatten(o[4..], FTS_HEIGHT));
    }
  }

  lemma RootsBind(h: Hash, pp: Val, d: Digest, sig: seq<nat>, d': Digest, sig': seq<nat>)
    requires |sig| == |sig'| == SIG_WORDS && Flatten(RecoveredRoots(h, pp, d, sig)) == Flatten(RecoveredRoots(h, pp, d', sig'))
    ensures RecoveredRoots(h, pp, d, sig) == RecoveredRoots(h, pp, d', sig')
  {
    hide Flatten, RecoveredRoot;
    RootsLengths(h, pp, d, sig);
    RootsLengths(h, pp, d', sig');
    FlattenBinds(RecoveredRoots(h, pp, d, sig), RecoveredRoots(h, pp, d', sig'));
  }

  /** Both layers lead to one root. */
  ghost predicate Meet(h: Hash, pp: Val, d: Digest, sig: seq<nat>, d': Digest, sig': seq<nat>, lay: nat)
    requires |sig| == |sig'| == SIG_WORDS && lay < LAYERS
  {
    && LayerValue(h, pp, d, sig, lay).Some? && LayerValue(h, pp, d', sig', lay).Some?
    && var at := PlaceOf(IndexOf(d), lay);
    && LayerRoot(h, pp, at, LayerValue(h, pp, d, sig, lay).value, LayerPart(sig, lay)).Some?
    && LayerRoot(h, pp, at, LayerValue(h, pp, d, sig, lay).value, LayerPart(sig, lay))
       == LayerRoot(h, pp, at, LayerValue(h, pp, d', sig', lay).value, LayerPart(sig', lay))
  }

  lemma MeetBelow(h: Hash, pp: Val, d: Digest, sig: seq<nat>, d': Digest, sig': seq<nat>, lay: nat)
    requires |sig| == |sig'| == SIG_WORDS && IndexOf(d) == IndexOf(d') && lay + 1 < LAYERS
    requires LayerValue(h, pp, d, sig, lay).Some? && LayerValue(h, pp, d, sig, lay) == LayerValue(h, pp, d', sig', lay)
    ensures Meet(h, pp, d, sig, d', sig', lay + 1)
  {
    hide LayerRoot, LayerValue, LayerPart, IndexOf;
    ValueBelow(h, pp, d, sig, lay);
    ValueBelow(h, pp, d', sig', lay);
  }

  /** From a layer where they meet, down. */
  lemma {:induction false} FindsFrom(h: Hash, pp: Val, d: Digest, sig: seq<nat>, d': Digest, sig': seq<nat>, lay: nat) returns (f: Finding)
    requires |sig| == |sig'| == SIG_WORDS && IndexOf(d) == IndexOf(d') && lay < LAYERS && Meet(h, pp, d, sig, d', sig', lay)
    requires forall l: nat :: l < lay ==> LayerPart(sig, l) == LayerPart(sig', l)
    ensures Finds(h, pp, d, sig, d', sig', f)
    decreases LAYERS - lay
  {
    hide LayerRoot, LayerPart, IndexOf, Finds, FtsRecover, LayerValue, PlaceOf;
    f := LayerFinds(h, pp, d, sig, d', sig', lay);
    if f.Agree? {
      hide Meet;
      if lay + 1 < LAYERS {
        MeetBelow(h, pp, d, sig, d', sig', lay);
        f := FindsFrom(h, pp, d, sig, d', sig', lay + 1);
      } else {
        LastValue(h, pp, d, sig);
        LastValue(h, pp, d', sig');
        f := OpeningsFind(h, pp, d, sig, d', sig');
      }
    }
  }

  lemma LastValue(h: Hash, pp: Val, d: Digest, sig: seq<nat>)
    requires |sig| == SIG_WORDS
    ensures LayerValue(h, pp, d, sig, 2) == Some(FtsRecover(h, pp, d, sig))
  {
    hide FtsRecover;
  }

  /** Two accepted signatures under one root whose digests have one index: everything they share is
      the same, or they break the hash, or a one-time key, where the finding says. */
  lemma AcceptedAgree(h: Hash, pp: Val, root: Val, m: seq<nat>, sig: seq<nat>, m': seq<nat>, sig': seq<nat>) returns (f: Finding)
    requires Verify(h, pp, root, m, sig) && Verify(h, pp, root, m', sig')
    requires IndexOf(MessageHash(h, pp, root, sig[..4], m)) == IndexOf(MessageHash(h, pp, root, sig'[..4], m'))
    ensures Finds(h, pp, MessageHash(h, pp, root, sig[..4], m), sig, MessageHash(h, pp, root, sig'[..4], m'), sig', f)
  {
    Accepted(h, pp, root, m, sig);
    Accepted(h, pp, root, m', sig');
    hide Verify, MessageHash, IndexOf, LayerRoot, LayerValue, LayerPart, FtsRecover, Finds;
    f := FindsFrom(h, pp, MessageHash(h, pp, root, sig[..4], m), sig, MessageHash(h, pp, root, sig'[..4], m'), sig', 0);
  }

  // ---- one path --------------------------------------------------------------------------------

  /** Only words of layer 0's path differ. */
  ghost predicate PathChanged(sig: seq<nat>, sig': seq<nat>) {
    && |sig| == |sig'| == SIG_WORDS && sig != sig'
    && (forall w :: 0 <= w < 620 + OTS_WORDS ==> sig[w] == sig'[w])
    && (forall w :: 837 <= w < SIG_WORDS ==> sig[w] == sig'[w])
  }

  lemma SameWords(sig: seq<nat>, sig': seq<nat>, a: nat, b: nat)
    requires PathChanged(sig, sig') && a <= b <= SIG_WORDS && (b <= 620 + OTS_WORDS || 837 <= a)
    ensures sig[a..b] == sig'[a..b]
  {
    forall i | 0 <= i < b - a
      ensures sig[a..b][i] == sig'[a..b][i]
    {
      assert sig[a + i] == sig'[a + i];
    }
  }

  /** Everything below layer 0's path is the same. */
  lemma SameBelow(h: Hash, pp: Val, d: Digest, sig: seq<nat>, sig': seq<nat>)
    requires PathChanged(sig, sig')
    ensures sig[..4] == sig'[..4] && LayerValue(h, pp, d, sig, 0) == LayerValue(h, pp, d, sig', 0)
    ensures LayerPart(sig, 0)[..OTS_WORDS] == LayerPart(sig', 0)[..OTS_WORDS] && LayerPart(sig, 0) != LayerPart(sig', 0)
  {
    Layout();
    SameWords(sig, sig', 0, 4);
    SameWords(sig, sig', LayerOffset(1), LayerOffset(2));
    SameWords(sig, sig', LayerOffset(2), LayerOffset(3));
    SameWords(sig, sig', 620, 620 + OTS_WORDS);
    hide LayerRoot, PlaceOf, IndexOf, FtsRecover, LayerOffset;
    SameRecovered(h, pp, d, sig, sig');
    assert LayerPart(sig, 2) == LayerPart(sig', 2) && LayerPart(sig, 1) == LayerPart(sig', 1);
    var a, b := LayerPart(sig, 0), LayerPart(sig', 0);
    assert a[..OTS_WORDS] == sig[620..620 + OTS_WORDS] && b[..OTS_WORDS] == sig'[620..620 + OTS_WORDS];
    var w :| 0 <= w < SIG_WORDS && sig[w] != sig'[w];
    assert a[w - 620] == sig[w] && b[w - 620] == sig'[w];
    ValuesBelow(h, pp, d, sig, sig');
  }

  lemma ValuesBelow(h: Hash, pp: Val, d: Digest, sig: seq<nat>, sig': seq<nat>)
    requires |sig| == |sig'| == SIG_WORDS && FtsRecover(h, pp, d, sig) == FtsRecover(h, pp, d, sig')
    requires LayerPart(sig, 2) == LayerPart(sig', 2) && LayerPart(sig, 1) == LayerPart(sig', 1)
    ensures LayerValue(h, pp, d, sig, 0) == LayerValue(h, pp, d, sig', 0)
  {
    hide LayerRoot, PlaceOf, IndexOf, FtsRecover, LayerPart;
    assert LayerValue(h, pp, d, sig, 2) == LayerValue(h, pp, d, sig', 2);
    assert LayerValue(h, pp, d, sig, 1) == LayerValue(h, pp, d, sig', 1);
  }

  lemma SameRecovered(h: Hash, pp: Val, d: Digest, sig: seq<nat>, sig': seq<nat>)
    requires PathChanged(sig, sig')
    ensures FtsRecover(h, pp, d, sig) == FtsRecover(h, pp, d, sig')
  {
    hide OpeningRoot, IndexOf, TreeIndex, FtsKey;
    RecoveredKey(h, pp, d, sig);
    RecoveredKey(h, pp, d, sig');
    var roots, roots' := RecoveredRoots(h, pp, d, sig), RecoveredRoots(h, pp, d, sig');
    forall kappa | 0 <= kappa < FTS_TREES
      ensures roots[kappa] == roots'[kappa]
    {
      SameWords(sig, sig', OpeningOffset(kappa), OpeningOffset(kappa + 1));
      RootOfOpening(h, pp, d, sig, kappa);
      RootOfOpening(h, pp, d, sig', kappa);
    }
    assert roots == roots';
  }

  /** Of two accepted signatures that differ in nothing but layer 0's path, the paths show a clash:
      short of one, the path of an accepted signature cannot be changed. */
  lemma PathBinds(h: Hash, pp: Val, root: Val, m: seq<nat>, sig: seq<nat>, sig': seq<nat>) returns (level: nat)
    requires Verify(h, pp, root, m, sig) && Verify(h, pp, root, m, sig') && PathChanged(sig, sig')
    ensures level < Height(0)
    ensures var d := MessageHash(h, pp, root, sig[..4], m);
      Finds(h, pp, d, sig, d, sig', AtLayer(0, AtNode(level)))
  {
    Accepted(h, pp, root, m, sig);
    Accepted(h, pp, root, m, sig');
    var d := MessageHash(h, pp, root, sig[..4], m);
    SameBelow(h, pp, d, sig, sig');
    hide Verify, MessageHash, IndexOf, LayerRoot, LayerValue, LayerPart, PathChanged, CodewordOf, NodeClash;
    var at, v := PlaceOf(IndexOf(d), 0), LayerValue(h, pp, d, sig, 0).value;
    level := PathParts(h, pp, at, v, LayerPart(sig, 0), LayerPart(sig', 0));
  }

  lemma PathParts(h: Hash, pp: Val, at: Place, m: Val, part: seq<nat>, part': seq<nat>) returns (level: nat)
    requires IsPart(at, part) && IsPart(at, part') && part[..OTS_WORDS] == part'[..OTS_WORDS] && part != part'
    requires LayerRoot(h, pp, at, m, part).Some? && LayerRoot(h, pp, at, m, part) == LayerRoot(h, pp, at, m, part')
    ensures CodewordOf(h, pp, at, m, part).Some? && CodewordOf(h, pp, at, m, part').Some?
    ensures level < Height(at.lay) && Shows(h, pp, at, m, part, m, part', AtNode(level))
  {
    LayerParts(h, pp, at, m, part);
    LayerParts(h, pp, at, m, part');
    SameSigma(at, part, part');
    if PathOf(at, part) == PathOf(at, part') {
      PartIs(at, part, part');
    }
    hide LayerRoot, Tips, LeafHash, Walked, Clash, Sigma, PathOf, NodePayload, TreeFold, NodeOf, NodeTweak, NodeClash, Encode;
    var tips := Tips(h, pp, at, CodewordOf(h, pp, at, m, part).value, Sigma(at, part));
    var leaf := LeafHash(h, pp, at, tips);
    level := TreeBinds(h, pp, NODE, at.lay, at.tau, at.e, leaf, PathOf(at, part), leaf, PathOf(at, part'));
    NodeClashes(h, pp, at, tips, PathOf(at, part), tips, PathOf(at, part'), level);
  }

  lemma SameSigma(at: Place, part: seq<nat>, part': seq<nat>)
    requires IsPart(at, part) && IsPart(at, part') && part[..OTS_WORDS] == part'[..OTS_WORDS]
    ensures part[0] == part'[0] && Sigma(at, part) == Sigma(at, part')
  {
    assert part[..OTS_WORDS][0] == part[0] && part'[..OTS_WORDS][0] == part'[0];
    forall i | 0 <= i < CHAINS
      ensures Sigma(at, part)[i] == Sigma(at, part')[i]
    {
      SigmaAt(at, part, i);
      SigmaAt(at, part', i);
    }
    assert Sigma(at, part) == Sigma(at, part');
  }

  lemma SigmaAt(at: Place, part: seq<nat>, i: nat)
    requires IsPart(at, part) && i < CHAINS
    ensures 5 + 4 * i <= OTS_WORDS && Sigma(at, part)[i] == part[..OTS_WORDS][1 + 4 * i..5 + 4 * i]
  {
    var a, b := part[1..][4 * i..4 * i + 4], part[..OTS_WORDS][1 + 4 * i..5 + 4 * i];
    assert |a| == |b| == 4;
    forall k | 0 <= k < 4
      ensures a[k] == b[k]
    {
    }
    assert a == b;
  }

  // ---- the tweaks ------------------------------------------------------------------------------

  const KINDS: seq<nat> := [PRF, CHAIN, LEAF, NODE, ENC, PARAMETER, RANDOMIZER, FTS_PRF, FTS_LEAF, FTS_NODE, FTS_ROOTS, MSG]

  lemma KindsApart(i: nat, j: nat)
    requires i < j < |KINDS|
    ensures KINDS[i] != KINDS[j] && KINDS[j] < 256
  {
  }

  /** Every use of the hash has a tweak of its own. */
  lemma TweaksDistinct(kind: nat, lay: nat, tau: nat, p: nat, j: nat, kind': nat, lay': nat, tau': nat, p': nat, j': nat)
    requires kind < 256 && kind' < 256 && Tweak(kind, lay, tau, p, j) == Tweak(kind', lay', tau', p', j')
    ensures kind == kind' && lay == lay' && tau == tau' && p == p' && j == j'
  {
    var t, t' := Tweak(kind, lay, tau, p, j), Tweak(kind', lay', tau', p', j');
    assert t[0] == t'[0] && t[1] == t'[1] && t[2] == t'[2] && t[3] == t'[3];
  }

  /** Within a key, every chain step has a position of its own. */
  lemma PositionsDistinct(i: nat, k: nat, i': nat, k': nat)
    requires k < CHAIN_LEN && k' < CHAIN_LEN && CHAIN_LEN * i + k == CHAIN_LEN * i' + k'
    ensures i == i' && k == k'
  {
    DivUnique(CHAIN_LEN * i + k, CHAIN_LEN, i, k);
    DivUnique(CHAIN_LEN * i' + k', CHAIN_LEN, i', k');
  }
}
