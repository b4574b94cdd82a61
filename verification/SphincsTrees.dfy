/** The signer's Merkle trees (sphincs.c): the recursive tree, the streaming treehash that keeps
    one node per height, and the path a verifier folds back to the root. */
module SphincsTrees {
  import opened Multilinear
  import opened Bits

  /** A value: four 32-bit words. */
  type Val = seq<nat>

  /** How a tree's leaves and nodes are hashed; a node knows its level and index. */
  datatype Merkle = Merkle(leaf: nat -> Val, node: NodeHash)

  function Tree(t: Merkle, z: nat, j: nat): Val
    decreases z, t
  {
    if z == 0 then t.leaf(j) else t.node(z, j, Tree(t, z - 1, 2 * j), Tree(t, z - 1, 2 * j + 1))
  }

  lemma TreeNode(t: Merkle, z: nat, j: nat)
    ensures Tree(t, z + 1, j) == t.node(z + 1, j, Tree(t, z, 2 * j), Tree(t, z, 2 * j + 1))
  {
  }

  /** The sibling of leaf e's ancestor at level z. */
  function Sibling(e: nat, z: nat): nat {
    Flip(Shift(e, z))
  }

  /** The authentication path of leaf e. */
  ghost predicate IsPath(t: Merkle, height: nat, e: nat, path: seq<Val>) {
    height <= |path| && forall z :: 0 <= z < height ==> path[z] == Tree(t, z, Sibling(e, z))
  }

  // ---- folding a path --------------------------------------------------------------------------

  type NodeHash = (nat, nat, Val, Val) -> Val

  /** The verifier's fold from level `level` on; it knows the node hash alone. */
  function TreeFold(node: NodeHash, e: nat, level: nat, cur: Val, path: seq<Val>): Val
    decreases |path|
  {
    if path == [] then cur
    else
      var up := if Shift(e, level) % 2 == 0 then node(level + 1, Shift(e, level + 1), cur, path[0])
                else node(level + 1, Shift(e, level + 1), path[0], cur);
      TreeFold(node, e, level + 1, up, path[1..])
  }

  lemma ShiftHalf(e: nat, z: nat)
    ensures Shift(e, z + 1) == Shift(e, z) / 2
  {
    ShiftShift(e, z, 1);
    assert Shift(Shift(e, z), 1) == Shift(Shift(e, z) / 2, 0);
  }

  /** A leaf with its path folds to the root. */
  lemma {:induction false} FoldPath(t: Merkle, e: nat, level: nat, height: nat, path: seq<Val>)
    requires level <= height == |path| && IsPath(t, height, e, path)
    ensures TreeFold(t.node, e, level, Tree(t, level, Shift(e, level)), path[level..]) == Tree(t, height, Shift(e, height))
    decreases height - level
  {
    hide Tree, Shift;
    if level < height {
      var k := Shift(e, level);
      ShiftHalf(e, level);
      TreeNode(t, level, k / 2);
      assert path[level..][0] == path[level] == Tree(t, level, Flip(k)) && path[level..][1..] == path[level + 1..];
      FoldPath(t, e, level + 1, height, path);
    }
  }

  // ---- the peaks of a prefix -------------------------------------------------------------------

  datatype Peak = Peak(height: nat, value: Val)

  /** The roots of the complete subtrees that make up the first m level-z nodes from index f on,
      tallest first: one for each set bit of m. */
  function Peaks(t: Merkle, m: nat, z: nat, f: nat): seq<Peak>
    decreases m
  {
    if m == 0 then []
    else Peaks(t, m / 2, z + 1, f / 2) + (if m % 2 == 1 then [Peak(z, Tree(t, z, f + m - 1))] else [])
  }

  lemma {:induction false} PeaksHigh(t: Merkle, m: nat, z: nat, f: nat)
    ensures forall k :: 0 <= k < |Peaks(t, m, z, f)| ==> Peaks(t, m, z, f)[k].height >= z
    ensures forall i, k :: 0 <= i < k < |Peaks(t, m, z, f)| ==> Peaks(t, m, z, f)[i].height > Peaks(t, m, z, f)[k].height
    decreases m
  {
    if m > 0 {
      PeaksHigh(t, m / 2, z + 1, f / 2);
    }
  }

  lemma {:induction false} PeaksRoom(t: Merkle, m: nat, z: nat, f: nat, k: nat)
    requires m < Pow2(k)
    ensures |Peaks(t, m, z, f)| <= k
    decreases m
  {
    if m > 0 {
      PeaksRoom(t, m / 2, z + 1, f / 2, k - 1);
    }
  }

  /** A whole subtree has one peak, its root. */
  lemma {:induction false} PeaksWhole(t: Merkle, k: nat, z: nat, v: nat)
    ensures Peaks(t, Pow2(k), z, Pow2(k) * v) == [Peak(z + k, Tree(t, z + k, v))]
    decreases k
  {
    if k == 0 {
      assert Peaks(t, 0, z + 1, v / 2) == [];
    } else {
      var p := Pow2(k - 1);
      assert Pow2(k) * v == 2 * (p * v);
      PeaksWhole(t, k - 1, z + 1, v);
    }
  }

  lemma PeaksEven(t: Merkle, m: nat, z: nat, f: nat)
    ensures Peaks(t, 2 * m, z, 2 * f) == Peaks(t, m, z + 1, f)
  {
  }

  lemma PeaksOdd(t: Merkle, m: nat, z: nat, f: nat)
    requires m % 2 == 1
    ensures Peaks(t, m, z, f) == Peaks(t, m / 2, z + 1, f / 2) + [Peak(z, Tree(t, z, f + m - 1))]
  {
  }

  // ---- the streaming form ----------------------------------------------------------------------

  /** The signer's stack holds these peaks. */
  ghost predicate Holds(stack: seq<Val>, heights: seq<nat>, sp: nat, peaks: seq<Peak>) {
    && |peaks| == sp <= |stack| == |heights|
    && forall k :: 0 <= k < sp ==> Peak(heights[k], stack[k]) == peaks[k]
  }

  /** How many level-l nodes are complete once `leaf` leaves are, and the new one's ancestors up
      to level z. */
  function Reached(leaf: nat, z: int, l: nat): nat {
    Shift(leaf, l) + (if l <= z then 1 else 0)
  }

  ghost predicate PathKept(t: Merkle, height: nat, target: nat, path: seq<Val>, leaf: nat, z: int) {
    height <= |path| && forall l :: 0 <= l < height && Sibling(target, l) < Reached(leaf, z, l) ==>
      path[l] == Tree(t, l, Sibling(target, l))
  }

  ghost predicate LevelKept(t: Merkle, base: nat, count: nat, level: nat, cap: seq<Val>, leaf: nat, z: int) {
    count <= |cap| && forall k :: 0 <= k < count && base + k < Reached(leaf, z, level) ==> cap[k] == Tree(t, level, base + k)
  }

  /** What a call asks to keep. */
  datatype Options = Options(target: nat, path: array?<Val>, capLevel: nat, cap: array?<Val>)

  ghost predicate Kept(t: Merkle, o: Options, first: nat, height: nat, leaf: nat, z: int)
    requires o.capLevel <= height
    reads o.path, o.cap
  {
    && (o.path != null ==> PathKept(t, height, o.target, o.path[..], leaf, z))
    && (o.cap != null ==> LevelKept(t, Shift(first, o.capLevel), Pow2(height - o.capLevel), o.capLevel, o.cap[..], leaf, z))
  }

  ghost predicate Fits(o: Options, first: nat, height: nat) {
    && o.capLevel <= height
    && (o.path != null ==> height <= o.path.Length && first <= o.target < first + Pow2(height))
    && (o.cap != null ==> Pow2(height - o.capLevel) <= o.cap.Length)
    && (o.path == null || o.path != o.cap)
  }

  lemma {:induction false} ShiftNext(n: nat, z: nat, l: nat)
    requires Shift(n, z) % 2 == 0 && z < l
    ensures Shift(n + 1, l) == Shift(n, l)
  {
    if z == 0 {
      assert (n + 1) / 2 == n / 2;
    } else if (n + 1) / 2 != n / 2 {
      ShiftNext(n / 2, z - 1, l - 1);
    }
  }

  lemma {:induction false} ShiftBy(n: nat, l: nat)
    ensures Shift(n, l) <= Shift(n + 1, l) <= Shift(n, l) + 1
  {
    if l > 0 && (n + 1) / 2 != n / 2 {
      ShiftBy(n / 2, l - 1);
    }
  }

  /** `capture`: called with the node just completed at level z. */
  method Capture(t: Merkle, o: Options, height: nat, first: nat, z: nat, j: nat, v: Val, ghost leaf: nat)
    requires Fits(o, first, height) && z <= height && v == Tree(t, z, j) && j == Shift(leaf, z)
    requires Shift(first, z) <= j < Shift(first, z) + Pow2(height - z)
    requires Kept(t, o, first, height, leaf, z - 1)
    modifies o.path, o.cap
    ensures Kept(t, o, first, height, leaf, z)
  {
    hide Tree, Shift, Pow2;
    if o.path != null && z < height && Flip(Shift(o.target, z)) == j {
      o.path[z] := v;
    }
    if o.cap != null && z == o.capLevel {
      o.cap[j - Shift(first, z)] := v;
    }
  }

  /** What is complete after a leaf and all the merges it allows. */
  lemma KeptNext(t: Merkle, o: Options, first: nat, height: nat, leaf: nat, z: nat)
    requires o.capLevel <= height && Kept(t, o, first, height, leaf, z) && z <= height
    requires z < height ==> Shift(leaf, z) % 2 == 0
    ensures Kept(t, o, first, height, leaf + 1, -1)
  {
    hide Tree, Shift, Pow2;
    forall l | 0 <= l <= height
      ensures Reached(leaf + 1, -1, l) <= Reached(leaf, z, l)
    {
      ShiftBy(leaf, l);
      if z < l {
        ShiftNext(leaf, z, l);
      }
    }
  }

  lemma KeptStart(t: Merkle, o: Options, v: nat, height: nat)
    requires Fits(o, Pow2(height) * v, height)
    ensures Kept(t, o, Pow2(height) * v, height, Pow2(height) * v, -1)
  {
    var first := Pow2(height) * v;
    hide Tree, Shift, Pow2;
    if o.path != null {
      forall l | 0 <= l < height
        ensures Sibling(o.target, l) >= Shift(first, l)
      {
        SiblingInRange(v, height, o.target, l);
      }
    }
  }

  /** The ancestors of a leaf under node v, and their siblings, are under node v. */
  lemma SiblingInRange(v: nat, height: nat, e: nat, l: nat)
    requires l < height && Pow2(height) * v <= e < Pow2(height) * v + Pow2(height)
    ensures Shift(Pow2(height) * v, l) <= Sibling(e, l) < Shift(Pow2(height) * v, l) + Pow2(height - l)
  {
    hide Shift, Pow2, Flip;
    var i, h := e - Pow2(height) * v, height - l;
    AddHigh(i, height, v, l);
    AddHigh(0, height, v, l);
    ShiftZero(l);
    ShiftBound(i, l, h);
    PowHalf(h);
    FlipInRange(Shift(i, l), Pow2(h - 1), Pow2(h - 1) * v);
    assert Pow2(h) * v == 2 * (Pow2(h - 1) * v);
  }

  lemma PowHalf(h: nat)
    requires h > 0
    ensures Pow2(h) == 2 * Pow2(h - 1)
  {
  }

  lemma FlipInRange(k: nat, p: nat, w: nat)
    requires k < 2 * p
    ensures 2 * w <= Flip(2 * w + k) < 2 * w + 2 * p
  {
  }

  // ---- one leaf --------------------------------------------------------------------------------

  /** The top of the stack is at height z exactly when m is odd, and then it is the left
      neighbour of the node just completed. */
  lemma TopPeak(t: Merkle, m: nat, z: nat, f: nat, stack: seq<Val>, heights: seq<nat>, sp: nat)
    requires Holds(stack, heights, sp, Peaks(t, m, z, f))
    ensures sp > 0 && heights[sp - 1] == z <==> m % 2 == 1
    ensures m % 2 == 1 ==> stack[sp - 1] == Tree(t, z, f + m - 1) && Holds(stack, heights, sp - 1, Peaks(t, m / 2, z + 1, f / 2))
  {
    var low := Peaks(t, m / 2, z + 1, f / 2);
    PeaksHigh(t, m / 2, z + 1, f / 2);
    hide Tree;
    if m % 2 == 1 {
      PeaksOdd(t, m, z, f);
      hide Peaks;
      assert Peaks(t, m, z, f)[sp - 1] == Peak(z, Tree(t, z, f + m - 1));
      assert forall k :: 0 <= k < sp - 1 ==> Peaks(t, m, z, f)[k] == low[k];
    } else {
      assert Peaks(t, m, z, f) == low;
    }
  }

  /** The node just completed at level z, m nodes after the first, is kept in `val`; the stack
      holds what came before it. */
  ghost predicate Carrying(t: Merkle, v: nat, height: nat, i: nat, z: nat, m: nat, val: Val, stack: seq<Val>,
                           heights: seq<nat>, sp: nat) {
    && z <= height && m < Pow2(height - z)
    && Shift(Pow2(height) * v + i, z) == Pow2(height - z) * v + m
    && Shift(Pow2(height) * v, z) == Pow2(height - z) * v
    && Holds(stack, heights, sp, Peaks(t, m, z, Pow2(height - z) * v))
    && val == Tree(t, z, Pow2(height - z) * v + m)
    && Peaks(t, i + 1, 0, Pow2(height) * v) == Peaks(t, m + 1, z, Pow2(height - z) * v)
  }

  lemma CarryStart(t: Merkle, v: nat, height: nat, i: nat, stack: seq<Val>, heights: seq<nat>, sp: nat)
    requires i < Pow2(height) && Holds(stack, heights, sp, Peaks(t, i, 0, Pow2(height) * v))
    ensures Carrying(t, v, height, i, 0, i, t.leaf(Pow2(height) * v + i), stack, heights, sp)
  {
    hide Peaks, Holds, Pow2;
  }

  lemma HalfStep(v: nat, height: nat, z: nat, m: nat)
    requires z < height && m < Pow2(height - z)
    ensures var f := Pow2(height - z) * v;
      f == 2 * (Pow2(height - z - 1) * v) && f % 2 == 0 && f / 2 == Pow2(height - z - 1) * v && m / 2 < Pow2(height - z - 1)
  {
    var p := Pow2(height - z - 1);
    assert Pow2(height - z) == 2 * p;
    assert 2 * p * v == 2 * (p * v);
  }

  /** One merge. */
  lemma CarryStep(t: Merkle, v: nat, height: nat, i: nat, z: nat, m: nat, val: Val, stack: seq<Val>, heights: seq<nat>, sp: nat)
    requires Carrying(t, v, height, i, z, m, val, stack, heights, sp) && sp > 0 && heights[sp - 1] == z
    ensures z < height && sp <= |stack|
    ensures Carrying(t, v, height, i, z + 1, m / 2,
                     t.node(z + 1, Shift(Pow2(height) * v + i, z + 1), stack[sp - 1], val), stack, heights, sp - 1)
  {
    hide Tree, Peaks, Shift, Pow2, Holds;
    var f := Pow2(height - z) * v;
    TopPeak(t, m, z, f, stack, heights, sp);
    OneOnly();
    HalfStep(v, height, z, m);
    var h := Pow2(height - z - 1) * v;
    ShiftHalf(Pow2(height) * v + i, z);
    ShiftHalf(Pow2(height) * v, z);
    CarryTree(t, z, h, m / 2);
    PeaksEven(t, m / 2 + 1, z, h);
    HoldsRoom(stack, heights, sp, Peaks(t, m, z, f));
    assert m + 1 == 2 * (m / 2 + 1) && (f + m) / 2 == h + m / 2;
  }

  lemma OneOnly()
    ensures Pow2(0) == 1
  {
  }

  lemma HoldsRoom(stack: seq<Val>, heights: seq<nat>, sp: nat, peaks: seq<Peak>)
    requires Holds(stack, heights, sp, peaks)
    ensures sp == |peaks| <= |stack| == |heights|
  {
  }

  lemma CarryTree(t: Merkle, z: nat, h: nat, k: nat)
    ensures Tree(t, z + 1, h + k) == t.node(z + 1, h + k, Tree(t, z, 2 * h + 2 * k), Tree(t, z, 2 * h + (2 * k + 1)))
  {
    assert 2 * (h + k) == 2 * h + 2 * k;
  }

  /** No merge left: the node goes on the stack, which has room. */
  lemma CarryEnd(t: Merkle, v: nat, height: nat, i: nat, z: nat, m: nat, val: Val, stack: seq<Val>, heights: seq<nat>, sp: nat)
    requires Carrying(t, v, height, i, z, m, val, stack, heights, sp) && !(sp > 0 && heights[sp - 1] == z)
    requires |stack| == height + 1
    ensures sp <= height && (z < height ==> Shift(Pow2(height) * v + i, z) % 2 == 0)
    ensures Holds(stack[sp := val], heights[sp := z], sp + 1, Peaks(t, i + 1, 0, Pow2(height) * v))
  {
    hide Tree, Peaks, Shift, Pow2, Holds;
    var f := Pow2(height - z) * v;
    HoldsRoom(stack, heights, sp, Peaks(t, m, z, f));
    TopPeak(t, m, z, f, stack, heights, sp);
    PeaksRoom(t, m, z, f, height - z);
    if z < height {
      HalfStep(v, height, z, m);
      EvenSum(f, m);
    }
    PeaksAppend(t, m, z, f);
    HoldsPush(stack, heights, sp, Peaks(t, m, z, f), Peak(z, val));
  }

  lemma EvenSum(f: nat, m: nat)
    requires f % 2 == 0 && m % 2 == 0
    ensures (f + m) % 2 == 0
  {
  }

  lemma HoldsPush(stack: seq<Val>, heights: seq<nat>, sp: nat, peaks: seq<Peak>, top: Peak)
    requires Holds(stack, heights, sp, peaks) && sp < |stack|
    ensures Holds(stack[sp := top.value], heights[sp := top.height], sp + 1, peaks + [top])
  {
  }

  lemma PeaksAppend(t: Merkle, m: nat, z: nat, f: nat)
    requires m % 2 == 0
    ensures Peaks(t, m + 1, z, f) == Peaks(t, m, z, f) + [Peak(z, Tree(t, z, f + m))]
  {
    PeaksOdd(t, m + 1, z, f);
    assert (m + 1) / 2 == m / 2;
    hide Tree;
    assert Peaks(t, m, z, f) == Peaks(t, m / 2, z + 1, f / 2);
  }

  /** The loop body for leaf first + i. */
  method AddLeaf(t: Merkle, ghost v: nat, first: nat, height: nat, o: Options, stack: array<Val>, heights: array<nat>,
                 top: nat, i: nat) returns (sp: nat)
    requires first == Pow2(height) * v && Fits(o, first, height) && i < Pow2(height)
    requires stack.Length == heights.Length == height + 1 && stack != o.path && stack != o.cap
    requires Holds(stack[..], heights[..], top, Peaks(t, i, 0, first)) && Kept(t, o, first, height, first + i, -1)
    modifies stack, heights, o.path, o.cap
    ensures Holds(stack[..], heights[..], sp, Peaks(t, i + 1, 0, first)) && Kept(t, o, first, height, first + i + 1, -1)
  {
    hide Tree, Peaks, Kept, Shift, Holds, Fits, Pow2, Carrying;
    var leaf, z: nat := first + i, 0;
    sp := top;
    ghost var m := i;
    var val := t.leaf(leaf);
    CarryStart(t, v, height, i, stack[..], heights[..], sp);
    CarryAt(t, v, height, i, z, m, val, stack[..], heights[..], sp, first, leaf);
    FitsLevel(o, first, height);
    LeafShift(leaf);
    Capture(t, o, height, first, 0, leaf, val, leaf);
    while sp > 0 && heights[sp - 1] == z
      invariant Carrying(t, v, height, i, z, m, val, stack[..], heights[..], sp)
      invariant sp <= height + 1 && 0 <= z <= height
      invariant Kept(t, o, first, height, leaf, z)
      decreases sp
    {
      CarryStep(t, v, height, i, z, m, val, stack[..], heights[..], sp);
      sp, z := sp - 1, z + 1;
      m := m / 2;
      var j := Shift(leaf, z);
      val := t.node(z, j, stack[sp], val);
      CarryAt(t, v, height, i, z, m, val, stack[..], heights[..], sp, first, leaf);
      Capture(t, o, height, first, z, j, val, leaf);
    }
    CarryEnd(t, v, height, i, z, m, val, stack[..], heights[..], sp);
    CarryAt(t, v, height, i, z, m, val, stack[..], heights[..], sp, first, leaf);
    KeptNext(t, o, first, height, leaf, z);
    ghost var ss, hs := stack[..], heights[..];
    stack[sp] := val;
    heights[sp] := z;
    assert stack[..] == ss[sp := val] && heights[..] == hs[sp := z];
    sp := sp + 1;
  }

  lemma LeafShift(n: nat)
    ensures Shift(n, 0) == n
  {
  }

  lemma FitsLevel(o: Options, first: nat, height: nat)
    requires Fits(o, first, height)
    ensures o.capLevel <= height
  {
  }

  lemma CarryAt(t: Merkle, v: nat, height: nat, i: nat, z: nat, m: nat, val: Val, stack: seq<Val>, heights: seq<nat>, sp: nat,
                first: nat, leaf: nat)
    requires z <= height && first == Pow2(height) * v && leaf == first + i
    requires Carrying(t, v, height, i, z, m, val, stack, heights, sp)
    ensures sp <= |stack| && val == Tree(t, z, Shift(leaf, z))
    ensures Shift(first, z) <= Shift(leaf, z) < Shift(first, z) + Pow2(height - z)
  {
    hide Tree, Peaks, Shift, Pow2;
  }

  // ---- all leaves ------------------------------------------------------------------------------

  lemma PeaksNone(t: Merkle, f: nat, stack: seq<Val>, heights: seq<nat>)
    requires |stack| == |heights|
    ensures Holds(stack, heights, 0, Peaks(t, 0, 0, f))
  {
  }

  lemma TopValue(stack: seq<Val>, heights: seq<nat>, sp: nat, top: Peak)
    requires Holds(stack, heights, sp, [top])
    ensures |stack| > 0 && stack[0] == top.value
  {
    assert [top][0] == top;
  }

  /** After the last leaf everything asked for is kept. */
  lemma KeptAll(t: Merkle, o: Options, v: nat, first: nat, height: nat)
    requires first == Pow2(height) * v && Fits(o, first, height) && Kept(t, o, first, height, first + Pow2(height), -1)
    ensures o.path != null ==> IsPath(t, height, o.target, o.path[..])
    ensures o.cap != null ==> forall k :: 0 <= k < Pow2(height - o.capLevel) ==>
              o.cap[k] == Tree(t, o.capLevel, Shift(first, o.capLevel) + k)
  {
    forall l | 0 <= l <= height
      ensures Shift(first + Pow2(height), l) == Shift(first, l) + Pow2(height - l)
    {
      WholeShift(v, height, l);
    }
    if o.path != null {
      forall l | 0 <= l < height
        ensures o.path[l] == Tree(t, l, Sibling(o.target, l))
      {
        SiblingInRange(v, height, o.target, l);
      }
    }
  }

  lemma WholeShift(v: nat, height: nat, l: nat)
    requires l <= height
    ensures Shift(Pow2(height) * v + Pow2(height), l) == Shift(Pow2(height) * v, l) + Pow2(height - l)
  {
    AddHigh(0, height, v + 1, l);
    AddHigh(0, height, v, l);
    ShiftZero(l);
    assert Pow2(height) * (v + 1) == Pow2(height) * v + Pow2(height);
    assert Pow2(height - l) * (v + 1) == Pow2(height - l) * v + Pow2(height - l);
  }

  /** `treehash` on leaves [first, first + 2^height), first = 2^height v: the root of the
      recursive tree, the path of the target, and every node of the capture level. */
  method TreeHash(t: Merkle, ghost v: nat, first: nat, height: nat, o: Options) returns (root: Val)
    requires first == Pow2(height) * v && Fits(o, first, height)
    modifies o.path, o.cap
    ensures root == Tree(t, height, v)
    ensures o.path != null ==> IsPath(t, height, o.target, o.path[..])
    ensures o.cap != null ==> forall k :: 0 <= k < Pow2(height - o.capLevel) ==>
              o.cap[k] == Tree(t, o.capLevel, Shift(first, o.capLevel) + k)
  {
    hide Tree, Peaks, Kept, Shift, Holds, Fits, Pow2;
    var stack := new Val[height + 1](_ => []);
    var heights := new nat[height + 1](_ => 0);
    var sp, i := 0, 0;
    FitsLevel(o, first, height);
    KeptStart(t, o, v, height);
    PeaksNone(t, first, stack[..], heights[..]);
    while i < Pow2(height)
      invariant 0 <= i <= Pow2(height)
      invariant Holds(stack[..], heights[..], sp, Peaks(t, i, 0, first))
      invariant Kept(t, o, first, height, first + i, -1)
    {
      sp := AddLeaf(t, v, first, height, o, stack, heights, sp, i);
      i := i + 1;
    }
    PeaksWhole(t, height, 0, v);
    TopValue(stack[..], heights[..], sp, Peak(height, Tree(t, height, v)));
    root := stack[0];
    KeptAll(t, o, v, first, height);
  }
}
