/** Pruned Merkle openings (whir.rs's `open_rows`): folding the opened leaves level by level with
    only the siblings that are not themselves opened. What a fold proves, and what it needs. */
module MerklePaths {
  import opened Rings
  import opened Multilinear
  import opened Bits

  datatype Error = StreamExhausted | NotPowerOfTwo | MerkleOpeningShape | MerkleRootMismatch

  datatype Result<T> = Ok(value: T) | Err(error: Error)

  type Words = seq<Limb>

  /** A digest is its words; the hashes are arbitrary functions. */
  type Digest = Words

  const DIGEST_WORDS := 4

  type PairHash = (Digest, Digest) -> Digest

  datatype Node = Node(index: nat, digest: Digest)

  // ---- one path --------------------------------------------------------------------------------

  function Parent(pair: PairHash, index: nat, digest: Digest, sibling: Digest): Digest {
    if index % 2 == 0 then pair(digest, sibling) else pair(sibling, digest)
  }

  /** The digest an authentication path leads to. */
  function Climb(pair: PairHash, index: nat, digest: Digest, path: seq<Digest>): Digest
    decreases |path|
  {
    if path == [] then digest
    else Climb(pair, index / 2, Parent(pair, index, digest, path[0]), path[1..])
  }

  ghost predicate Authenticated(pair: PairHash, root: Digest, height: nat, index: nat, digest: Digest) {
    exists path: seq<Digest> :: |path| == height && Climb(pair, index, digest, path) == root
  }

  ghost predicate Injective(pair: PairHash) {
    forall a, b, c, d :: pair(a, b) == pair(c, d) ==> a == c && b == d
  }

  /** With an injective pair hash a root binds one digest to each position. */
  lemma {:induction false} ClimbBinds(pair: PairHash, index: nat, d: Digest, p: seq<Digest>, e: Digest, q: seq<Digest>)
    requires Injective(pair) && |p| == |q| && Climb(pair, index, d, p) == Climb(pair, index, e, q)
    ensures d == e
    decreases |p|
  {
    if p != [] {
      ClimbBinds(pair, index / 2, Parent(pair, index, d, p[0]), p[1..], Parent(pair, index, e, q[0]), q[1..]);
    }
  }

  /** The two digests hashed together at one step of a climb. */
  function Hashed(pair: PairHash, index: nat, digest: Digest, path: seq<Digest>, at: nat): (Digest, Digest)
    requires at < |path|
    decreases at
  {
    if at > 0 then Hashed(pair, index / 2, Parent(pair, index, digest, path[0]), path[1..], at - 1)
    else if index % 2 == 0 then (digest, path[0])
    else (path[0], digest)
  }

  /** Two different pairs with one hash, both met at step `at` of the two climbs. */
  ghost predicate Collide(pair: PairHash, index: nat, d: Digest, p: seq<Digest>, e: Digest, q: seq<Digest>, at: nat) {
    && at < |p| && at < |q|
    && var x, y := Hashed(pair, index, d, p, at), Hashed(pair, index, e, q, at);
    && x != y && pair(x.0, x.1) == pair(y.0, y.1)
  }

  /** Of any pair hash: two digests at one position that climb to one root show a collision. */
  lemma {:induction false} ClimbCollides(pair: PairHash, index: nat, d: Digest, p: seq<Digest>, e: Digest, q: seq<Digest>)
      returns (at: nat)
    requires |p| == |q| && Climb(pair, index, d, p) == Climb(pair, index, e, q) && d != e
    ensures Collide(pair, index, d, p, e, q, at)
    decreases |p|
  {
    var a, b := Parent(pair, index, d, p[0]), Parent(pair, index, e, q[0]);
    if a == b {
      at := 0;
    } else {
      at := ClimbCollides(pair, index / 2, a, p[1..], b, q[1..]);
      at := at + 1;
    }
  }

  // ---- one level -------------------------------------------------------------------------------

  /** The first two nodes are the two children of one parent. */
  predicate Paired(nodes: seq<Node>) {
    |nodes| > 1 && nodes[0].index % 2 == 0 && nodes[1].index == nodes[0].index + 1
  }

  function Onto(up: seq<Node>, r: Result<(seq<Node>, Words)>): Result<(seq<Node>, Words)> {
    match r
    case Err(e) => Err(e)
    case Ok((rest, s)) => Ok((up + rest, s))
  }

  /** The level above: pairs hashed together, every other node with a sibling from the stream. */
  function Level(pair: PairHash, nodes: seq<Node>, s: Words): Result<(seq<Node>, Words)>
    decreases |nodes|
  {
    if nodes == [] then Ok(([], s))
    else if Paired(nodes) then
      Onto([Node(nodes[0].index / 2, pair(nodes[0].digest, nodes[1].digest))], Level(pair, nodes[2..], s))
    else if |s| < DIGEST_WORDS then Err(StreamExhausted)
    else
      Onto([Node(nodes[0].index / 2, Parent(pair, nodes[0].index, nodes[0].digest, s[..DIGEST_WORDS]))],
           Level(pair, nodes[1..], s[DIGEST_WORDS..]))
  }

  function Levels(pair: PairHash, height: nat, nodes: seq<Node>, s: Words): Result<(seq<Node>, Words)> {
    if height == 0 then Ok((nodes, s))
    else match Level(pair, nodes, s)
      case Err(e) => Err(e)
      case Ok((up, rest)) => Levels(pair, height - 1, up, rest)
  }

  lemma OntoTwice(a: seq<Node>, b: seq<Node>, r: Result<(seq<Node>, Words)>)
    ensures Onto(a, Onto(b, r)) == Onto(a + b, r)
  {
    if r.Ok? {
      assert a + (b + r.value.0) == a + b + r.value.0;
    }
  }

  /** Every node has its parent in the level above, through some sibling. */
  lemma {:induction false} LevelClimbs(pair: PairHash, nodes: seq<Node>, s: Words, i: nat) returns (j: nat, sibling: Digest)
    requires i < |nodes| && Level(pair, nodes, s).Ok?
    ensures j < |Level(pair, nodes, s).value.0|
    ensures Level(pair, nodes, s).value.0[j]
         == Node(nodes[i].index / 2, Parent(pair, nodes[i].index, nodes[i].digest, sibling))
    decreases |nodes|
  {
    if Paired(nodes) {
      if i < 2 {
        j, sibling := 0, nodes[1 - i].digest;
      } else {
        j, sibling := LevelClimbs(pair, nodes[2..], s, i - 2);
        j := j + 1;
      }
    } else if i == 0 {
      j, sibling := 0, s[..DIGEST_WORDS];
    } else {
      j, sibling := LevelClimbs(pair, nodes[1..], s[DIGEST_WORDS..], i - 1);
      j := j + 1;
    }
  }

  /** Every node has a full path to a node of the top level. */
  lemma {:induction false} LevelsClimb(pair: PairHash, height: nat, nodes: seq<Node>, s: Words, i: nat)
      returns (j: nat, path: seq<Digest>)
    requires i < |nodes| && Levels(pair, height, nodes, s).Ok?
    ensures j < |Levels(pair, height, nodes, s).value.0| && |path| == height
    ensures Levels(pair, height, nodes, s).value.0[j].digest == Climb(pair, nodes[i].index, nodes[i].digest, path)
    decreases height
  {
    if height == 0 {
      j, path := i, [];
    } else {
      var k, sibling := LevelClimbs(pair, nodes, s, i);
      var (up, rest) := Level(pair, nodes, s).value;
      var above;
      j, above := LevelsClimb(pair, height - 1, up, rest, k);
      path := [sibling] + above;
      assert path[1..] == above;
    }
  }

  // ---- the true tree ---------------------------------------------------------------------------

  /** The digests of a tree: `at(level, index)`, level 0 the leaves. */
  type Tree = (nat, nat) -> Digest

  ghost predicate IsTree(pair: PairHash, t: Tree) {
    && (forall level: nat, k: nat :: t(level + 1, k) == pair(t(level, 2 * k), t(level, 2 * k + 1)))
    && (forall level: nat, k: nat :: |t(level, k)| == 4)
  }

  predicate Ascending(s: seq<nat>) {
    forall i, j :: 0 <= i < j < |s| ==> s[i] < s[j]
  }

  /** The nodes of a level at the given indices. */
  function TrueNodes(t: Tree, level: nat, indices: seq<nat>): (nodes: seq<Node>)
    ensures |nodes| == |indices|
    ensures forall i :: 0 <= i < |indices| ==> nodes[i] == Node(indices[i], t(level, indices[i]))
  {
    seq(|indices|, i requires 0 <= i < |indices| => Node(indices[i], t(level, indices[i])))
  }

  /** The siblings a level needs: of each index, in order, unless that sibling is itself given. */
  function Siblings(t: Tree, level: nat, given: seq<nat>, indices: seq<nat>): Words
    decreases |indices|
  {
    if indices == [] then []
    else
      (if Flip(indices[0]) in given then [] else t(level, Flip(indices[0]))) + Siblings(t, level, given, indices[1..])
  }

  /** The indices of the parents, each once. */
  function Parents(indices: seq<nat>): seq<nat>
    decreases |indices|
  {
    if indices == [] then []
    else if |indices| > 1 && indices[1] / 2 == indices[0] / 2 then Parents(indices[1..])
    else [indices[0] / 2] + Parents(indices[1..])
  }

  /** All the siblings an opening needs, bottom level first. */
  function Opening(t: Tree, level: nat, height: nat, indices: seq<nat>): Words
    decreases height
  {
    if height == 0 then []
    else Siblings(t, level, indices, indices) + Opening(t, level + 1, height - 1, Parents(indices))
  }

  lemma {:induction false} ParentIn(indices: seq<nat>, p: nat)
    ensures p in Parents(indices) <==> 2 * p in indices || 2 * p + 1 in indices
    decreases |indices|
  {
    if indices != [] {
      ParentIn(indices[1..], p);
      var first, rest := indices[0], indices[1..];
      assert indices == [first] + rest;
      assert p == first / 2 <==> 2 * p == first || 2 * p + 1 == first;
      if |indices| > 1 && indices[1] / 2 == first / 2 {
        assert indices[1] == rest[0] && rest[0] in rest;
      }
    }
  }

  lemma {:induction false} ParentsAscend(indices: seq<nat>)
    requires Ascending(indices)
    ensures Ascending(Parents(indices))
    ensures indices != [] ==> Parents(indices) != [] && Parents(indices)[0] == indices[0] / 2
    decreases |indices|
  {
    if |indices| > 1 {
      var rest := indices[1..];
      ParentsAscend(rest);
      assert rest[0] == indices[1] > indices[0];
    }
  }

  /** With every parent already passed, an unpaired first node's sibling is not given. */
  lemma FlipGiven(given: seq<nat>, n: nat)
    requires Ascending(given) && n < |given|
    requires n > 0 && given[n] % 2 == 1 ==> given[n - 1] != given[n] - 1
    ensures Flip(given[n]) in given <==> given[n] % 2 == 0 && n + 1 < |given| && given[n + 1] == given[n] + 1
  {
    var k := given[n];
    if k % 2 == 0 {
      forall i | 0 <= i < |given|
        ensures given[i] == k + 1 ==> i == n + 1
      {
        assert i < n ==> given[i] < given[n];
        assert i > n + 1 ==> given[n] < given[n + 1] < given[i];
      }
    } else {
      forall i | 0 <= i < |given|
        ensures given[i] != k - 1
      {
        assert i > n ==> given[n] < given[i];
        assert i < n - 1 ==> given[i] < given[n - 1] < given[n];
      }
    }
  }

  lemma LevelPaired(pair: PairHash, nodes: seq<Node>, s: Words)
    requires Paired(nodes)
    ensures Level(pair, nodes, s)
         == Onto([Node(nodes[0].index / 2, pair(nodes[0].digest, nodes[1].digest))], Level(pair, nodes[2..], s))
  {
  }

  lemma LevelSingle(pair: PairHash, nodes: seq<Node>, sibling: Digest, s: Words)
    requires nodes != [] && !Paired(nodes) && |sibling| == DIGEST_WORDS
    ensures Level(pair, nodes, sibling + s)
         == Onto([Node(nodes[0].index / 2, Parent(pair, nodes[0].index, nodes[0].digest, sibling))],
                 Level(pair, nodes[1..], s))
  {
    assert (sibling + s)[..DIGEST_WORDS] == sibling && (sibling + s)[DIGEST_WORDS..] == s;
  }

  lemma TreeParent(pair: PairHash, t: Tree, level: nat, k: nat)
    requires IsTree(pair, t)
    ensures t(level + 1, k / 2) == Parent(pair, k, t(level, k), t(level, Flip(k)))
    ensures |t(level, k)| == DIGEST_WORDS && |t(level, Flip(k))| == DIGEST_WORDS
  {
    var h := k / 2;
    assert t(level + 1, h) == pair(t(level, 2 * h), t(level, 2 * h + 1));
    assert k == 2 * h || k == 2 * h + 1;
  }

  /** A pair needs no siblings and has one parent. */
  lemma PairSkips(t: Tree, level: nat, given: seq<nat>, n: nat)
    requires n + 1 < |given| && given[n] % 2 == 0 && given[n + 1] == given[n] + 1 && Ascending(given)
    ensures Siblings(t, level, given, given[n..]) == Siblings(t, level, given, given[n + 2..])
    ensures Parents(given[n..]) == [given[n] / 2] + Parents(given[n + 2..])
    ensures n + 2 < |given| && given[n + 2] % 2 == 1 ==> given[n + 1] != given[n + 2] - 1
  {
    assert given[n..][1..] == given[n + 1..] && given[n + 1..][1..] == given[n + 2..];
    assert given[n..][0] == given[n] && given[n + 1..][0] == given[n + 1];
    assert given[n] in given && given[n + 1] in given;
    if n + 2 < |given| {
      assert given[n + 1..][1] == given[n + 2];
    }
  }

  /** A node alone needs its sibling and has its parent to itself. */
  lemma SingleSkips(t: Tree, level: nat, given: seq<nat>, n: nat)
    requires n < |given| && Ascending(given) && Flip(given[n]) !in given
    ensures Siblings(t, level, given, given[n..]) == t(level, Flip(given[n])) + Siblings(t, level, given, given[n + 1..])
    ensures Parents(given[n..]) == [given[n] / 2] + Parents(given[n + 1..])
  {
    hide Ascending;
    var s := given[n..];
    assert s[1..] == given[n + 1..] && s[0] == given[n];
    if n + 1 < |given| {
      assert s[1] == given[n + 1] && given[n + 1] in given;
      NoTwin(given, n);
    }
  }

  lemma NoTwin(given: seq<nat>, n: nat)
    requires n + 1 < |given| && Ascending(given) && Flip(given[n]) != given[n + 1]
    ensures given[n + 1] / 2 != given[n] / 2
  {
  }

  lemma TrueOnto(t: Tree, level: nat, k: nat, up: seq<nat>, rest: Words)
    ensures Onto([Node(k, t(level, k))], Ok((TrueNodes(t, level, up), rest))) == Ok((TrueNodes(t, level, [k] + up), rest))
  {
    assert [Node(k, t(level, k))] + TrueNodes(t, level, up) == TrueNodes(t, level, [k] + up);
  }

  /** A level folds the true nodes given from n on into the true nodes above. */
  ghost predicate Folds(pair: PairHash, t: Tree, level: nat, given: seq<nat>, n: nat, rest: Words)
    requires n <= |given|
  {
    Level(pair, TrueNodes(t, level, given[n..]), Siblings(t, level, given, given[n..]) + rest)
    == Ok((TrueNodes(t, level + 1, Parents(given[n..])), rest))
  }

  lemma FoldsPair(pair: PairHash, t: Tree, level: nat, given: seq<nat>, n: nat, rest: Words)
    requires IsTree(pair, t) && Ascending(given)
    requires n + 1 < |given| && given[n] % 2 == 0 && given[n + 1] == given[n] + 1 && Folds(pair, t, level, given, n + 2, rest)
    ensures Folds(pair, t, level, given, n, rest)
  {
    hide Level, Siblings, Parents, IsTree, Ascending, Onto;
    var nodes, k := TrueNodes(t, level, given[n..]), given[n];
    PairSkips(t, level, given, n);
    TreeParent(pair, t, level, k);
    LevelPaired(pair, nodes, Siblings(t, level, given, given[n..]) + rest);
    assert nodes[2..] == TrueNodes(t, level, given[n + 2..]);
    TrueOnto(t, level + 1, k / 2, Parents(given[n + 2..]), rest);
  }

  lemma FoldsSingle(pair: PairHash, t: Tree, level: nat, given: seq<nat>, n: nat, rest: Words)
    requires IsTree(pair, t) && Ascending(given)
    requires n < |given| && Flip(given[n]) !in given && Folds(pair, t, level, given, n + 1, rest)
    ensures Folds(pair, t, level, given, n, rest)
  {
    hide Level, Siblings, Parents, IsTree, Ascending, Onto, Parent;
    var nodes, k := TrueNodes(t, level, given[n..]), given[n];
    var sibling, more := t(level, Flip(k)), Siblings(t, level, given, given[n + 1..]) + rest;
    SingleSkips(t, level, given, n);
    TreeParent(pair, t, level, k);
    assert Siblings(t, level, given, given[n..]) + rest == sibling + more;
    NotPaired(t, level, given, n);
    LevelSingle(pair, nodes, sibling, more);
    assert nodes[1..] == TrueNodes(t, level, given[n + 1..]);
    TrueOnto(t, level + 1, k / 2, Parents(given[n + 1..]), rest);
  }

  lemma NotPaired(t: Tree, level: nat, given: seq<nat>, n: nat)
    requires n < |given| && Flip(given[n]) !in given
    ensures !Paired(TrueNodes(t, level, given[n..]))
  {
    if n + 1 < |given| {
      assert given[n + 1] in given;
    }
  }

  /** On true nodes with their siblings, a level is the true level above, whatever follows in the
      stream. */
  lemma {:induction false} LevelComplete(pair: PairHash, t: Tree, level: nat, given: seq<nat>, n: nat, rest: Words)
    requires IsTree(pair, t) && Ascending(given) && n <= |given|
    requires 0 < n < |given| && given[n] % 2 == 1 ==> given[n - 1] != given[n] - 1
    ensures Folds(pair, t, level, given, n, rest)
    decreases |given| - n
  {
    if n == |given| {
      assert Siblings(t, level, given, given[n..]) + rest == rest;
    } else {
      hide Folds, Siblings, Parents, IsTree, Ascending;
      FlipGiven(given, n);
      if Flip(given[n]) in given {
        PairSkips(t, level, given, n);
        LevelComplete(pair, t, level, given, n + 2, rest);
        FoldsPair(pair, t, level, given, n, rest);
      } else {
        LevelComplete(pair, t, level, given, n + 1, rest);
        FoldsSingle(pair, t, level, given, n, rest);
      }
    }
  }

  /** The whole climb: with exactly the missing siblings, the true nodes lead to the true nodes at
      the top, and nothing of the stream but the siblings is read. */
  lemma {:induction false} LevelsComplete(pair: PairHash, t: Tree, level: nat, height: nat, given: seq<nat>, rest: Words)
    requires IsTree(pair, t) && Ascending(given)
    ensures Levels(pair, height, TrueNodes(t, level, given), Opening(t, level, height, given) + rest)
         == Ok((TrueNodes(t, level + height, Ancestors(given, height)), rest))
    decreases height
  {
    hide Siblings, Level, Levels, Parents, IsTree, TrueNodes, Opening, Ascending, Folds;
    if height == 0 {
      OpeningNone(pair, t, level, given, rest);
    } else {
      var up := Parents(given);
      ParentsAscend(given);
      LevelsComplete(pair, t, level + 1, height - 1, up, rest);
      var more := Opening(t, level + 1, height - 1, up) + rest;
      OpeningStep(t, level, height, given, rest);
      assert given[0..] == given;
      LevelComplete(pair, t, level, given, 0, more);
      FoldsAll(pair, t, level, given, more);
      LevelsStep(pair, height, TrueNodes(t, level, given), Siblings(t, level, given, given) + more);
    }
  }

  lemma OpeningNone(pair: PairHash, t: Tree, level: nat, given: seq<nat>, rest: Words)
    ensures Levels(pair, 0, TrueNodes(t, level, given), Opening(t, level, 0, given) + rest) == Ok((TrueNodes(t, level, given), rest))
  {
    assert Opening(t, level, 0, given) + rest == rest;
  }

  lemma FoldsAll(pair: PairHash, t: Tree, level: nat, given: seq<nat>, rest: Words)
    requires Folds(pair, t, level, given, 0, rest)
    ensures Level(pair, TrueNodes(t, level, given), Siblings(t, level, given, given) + rest)
         == Ok((TrueNodes(t, level + 1, Parents(given)), rest))
  {
    hide Level, Siblings, Parents, TrueNodes;
    assert given[0..] == given;
  }

  lemma OpeningStep(t: Tree, level: nat, height: nat, given: seq<nat>, rest: Words)
    requires height > 0
    ensures Opening(t, level, height, given) + rest
         == Siblings(t, level, given, given) + (Opening(t, level + 1, height - 1, Parents(given)) + rest)
  {
    hide Siblings, Parents;
    var a, b := Siblings(t, level, given, given), Opening(t, level + 1, height - 1, Parents(given));
    assert a + b + rest == a + (b + rest);
  }

  lemma LevelsStep(pair: PairHash, height: nat, nodes: seq<Node>, s: Words)
    requires height > 0 && Level(pair, nodes, s).Ok?
    ensures Levels(pair, height, nodes, s)
         == Levels(pair, height - 1, Level(pair, nodes, s).value.0, Level(pair, nodes, s).value.1)
  {
    hide Level;
  }

  function Ancestors(indices: seq<nat>, height: nat): seq<nat>
    decreases height
  {
    if height == 0 then indices else Ancestors(Parents(indices), height - 1)
  }

  lemma {:induction false} LastAtLeast(s: seq<nat>)
    requires Ascending(s) && s != []
    ensures s[|s| - 1] >= |s| - 1
    decreases |s|
  {
    if |s| > 1 {
      LastAtLeast(s[..|s| - 1]);
    }
  }

  /** Above leaves within range there is the root alone. */
  lemma {:induction false} OneAncestor(indices: seq<nat>, height: nat)
    requires Ascending(indices) && indices != [] && forall k :: k in indices ==> k < Pow2(height)
    ensures Ancestors(indices, height) == [0]
    decreases height
  {
    if height == 0 {
      LastAtLeast(indices);
      assert indices[0] in indices && indices[|indices| - 1] in indices;
    } else {
      ParentsAscend(indices);
      forall p | p in Parents(indices)
        ensures p < Pow2(height - 1)
      {
        ParentIn(indices, p);
      }
      OneAncestor(Parents(indices), height - 1);
    }
  }

  lemma {:induction false} NoAncestor(height: nat)
    ensures Ancestors([], height) == []
  {
    if height > 0 {
      NoAncestor(height - 1);
    }
  }
}
