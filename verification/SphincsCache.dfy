/** The layer-0 cache (sphincs.c's `cached_path_and_root`): rebuilding one small subtree and
    refolding the cached level in place gives the same path and root as the whole tree. */
module SphincsCache {
  import opened Multilinear
  import opened Bits
  import opened SphincsTrees

  /** One whole level of the tree, index by index. */
  ghost predicate IsLevel(t: Merkle, level: nat, nodes: seq<Val>, count: nat) {
    count <= |nodes| && forall k :: 0 <= k < count ==> nodes[k] == Tree(t, level, k)
  }

  ghost predicate PathBelow(t: Merkle, level: nat, e: nat, path: seq<Val>) {
    level <= |path| && forall z :: 0 <= z < level ==> path[z] == Tree(t, z, Sibling(e, z))
  }

  method CachedPathAndRoot(t: Merkle, height: nat, split: nat, cache: array<Val>, e: nat, path: array<Val>) returns (root: Val)
    requires split <= height <= path.Length && e < Pow2(height) && path != cache
    requires cache.Length == Pow2(height - split) && IsLevel(t, split, cache[..], cache.Length)
    modifies path
    ensures IsPath(t, height, e, path[..]) && root == Tree(t, height, 0)
  {
    hide Tree, Pow2, Shift, Low, IsLevel, Flip;
    var above := Shift(e, split);
    SubtreeOf(e, split);
    var sub := TreeHash(t, above, Pow2(split) * above, split, Options(e, path, 0, null));
    var nodes := new Val[cache.Length](i requires 0 <= i < cache.Length reads cache => cache[i]);
    assert nodes[..] == cache[..];
    var level := split;
    while level < height
      invariant split <= level <= height
      invariant IsLevel(t, level, nodes[..], Pow2(height - level))
      invariant PathBelow(t, level, e, path[..])
    {
      PowStep(height - level);
      SiblingBelow(e, level, height);
      LevelAt(t, level, nodes[..], Pow2(height - level), Sibling(e, level));
      path[level] := nodes[Flip(Shift(e, level))];
      RefoldLevel(t, level, nodes, Pow2(height - level - 1));
      level := level + 1;
    }
    RootAt(t, height, nodes[..]);
    root := nodes[0];
  }

  /** One level refolded in place: a node is written only after both its children are read. */
  method RefoldLevel(t: Merkle, level: nat, nodes: array<Val>, half: nat)
    requires IsLevel(t, level, nodes[..], 2 * half)
    modifies nodes
    ensures IsLevel(t, level + 1, nodes[..], half)
  {
    hide Tree;
    var j := 0;
    while j < half
      invariant 0 <= j <= half
      invariant forall k :: 0 <= k < j ==> nodes[k] == Tree(t, level + 1, k)
      invariant forall k :: 2 * j <= k < 2 * half ==> nodes[k] == Tree(t, level, k)
    {
      TreeNode(t, level, j);
      nodes[j] := t.node(level + 1, j, nodes[2 * j], nodes[2 * j + 1]);
      j := j + 1;
    }
  }

  lemma PowStep(k: nat)
    requires k > 0
    ensures Pow2(k) == 2 * Pow2(k - 1)
  {
  }

  lemma SubtreeOf(e: nat, split: nat)
    ensures Pow2(split) * Shift(e, split) <= e < Pow2(split) * Shift(e, split) + Pow2(split)
  {
    SplitAt(e, split);
    LowBound(e, split);
  }

  lemma SiblingBelow(e: nat, level: nat, height: nat)
    requires level < height && e < Pow2(height)
    ensures Sibling(e, level) < Pow2(height - level)
  {
    ShiftBound(e, level, height - level);
    PowStep(height - level);
  }

  lemma LevelAt(t: Merkle, level: nat, nodes: seq<Val>, count: nat, k: nat)
    requires IsLevel(t, level, nodes, count) && k < count
    ensures k < |nodes| && nodes[k] == Tree(t, level, k)
  {
    hide Tree;
  }

  lemma RootAt(t: Merkle, height: nat, nodes: seq<Val>)
    requires IsLevel(t, height, nodes, Pow2(0))
    ensures |nodes| > 0 && nodes[0] == Tree(t, height, 0)
  {
    hide Tree;
  }
}
