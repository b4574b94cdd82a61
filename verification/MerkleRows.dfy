/** The whole of `open_rows`, and what an accepted opening means. */
module MerkleRows {
  import opened Rings
  import opened Sums
  import opened Multilinear
  import opened Polynomials
  import opened MerklePaths
  import opened MerkleOpening
  import StackLayout

  const MAX_LEAF_WORDS := 64

  /** What an opening reads: the rows of the positions in order, then the siblings. */
  function LeafNode(h: Hashes, positions: seq<nat>, prefix: nat, rowWords: nat, s: Words, k: nat): Node
    requires k < |positions| && |positions| * rowWords <= |s|
  {
    RowFits(|positions|, rowWords, k);
    Node(positions[k], h.leaf(Image(prefix, RowAt(s, rowWords, k))))
  }

  lemma RowFits(n: nat, w: nat, k: nat)
    requires k < n
    ensures k * w + w == (k + 1) * w <= n * w
  {
    assert n * w == (k + 1) * w + (n - k - 1) * w;
  }

  function LeafNodes(h: Hashes, positions: seq<nat>, prefix: nat, rowWords: nat, s: Words): (nodes: seq<Node>)
    requires |positions| * rowWords <= |s|
    ensures |nodes| == |positions|
    ensures forall k :: 0 <= k < |nodes| ==> nodes[k] == LeafNode(h, positions, prefix, rowWords, s, k)
  {
    seq(|positions|, k requires 0 <= k < |positions| => LeafNode(h, positions, prefix, rowWords, s, k))
  }

  /** The verdict on an opening: the stream left after it, or why it is refused. */
  function Open(h: Hashes, root: Digest, height: nat, positions: seq<nat>, prefix: nat, rowWords: nat, s: Words): Result<Words> {
    if |positions| * rowWords > |s| then Err(StreamExhausted)
    else match Levels(h.pair, height, LeafNodes(h, positions, prefix, rowWords, s), s[|positions| * rowWords..])
      case Err(e) => Err(e)
      case Ok((top, rest)) => if |top| == 1 && top[0].digest == root then Ok(rest) else Err(MerkleRootMismatch)
  }

  // ---- what acceptance means -------------------------------------------------------------------

  /** Each row of an accepted opening has a full path to the root. */
  lemma OpenSound(h: Hashes, root: Digest, height: nat, positions: seq<nat>, prefix: nat, rowWords: nat, s: Words, k: nat)
      returns (path: seq<Digest>)
    requires Open(h, root, height, positions, prefix, rowWords, s).Ok? && k < |positions|
    ensures |path| == height && (k + 1) * rowWords <= |s|
    ensures Climb(h.pair, positions[k], h.leaf(Image(prefix, RowAt(s, rowWords, k))), path) == root
    ensures Authenticated(h.pair, root, height, positions[k], h.leaf(Image(prefix, RowAt(s, rowWords, k))))
  {
    hide Climb, Levels;
    RowFits(|positions|, rowWords, k);
    var j;
    j, path := LevelsClimb(h.pair, height, LeafNodes(h, positions, prefix, rowWords, s), s[|positions| * rowWords..], k);
  }

  /** For any hashes: two accepted openings under one root that disagree on a shared position show
      a collision, of the two rows or at one step of the two paths. */
  lemma OpeningsCollide(h: Hashes, root: Digest, height: nat, prefix: nat, rowWords: nat,
                        p: seq<nat>, s: Words, k: nat, q: seq<nat>, t: Words, l: nat)
      returns (a: seq<Digest>, b: seq<Digest>, at: nat)
    requires Open(h, root, height, p, prefix, rowWords, s).Ok? && Open(h, root, height, q, prefix, rowWords, t).Ok?
    requires k < |p| && l < |q| && p[k] == q[l]
    ensures (k + 1) * rowWords <= |s| && (l + 1) * rowWords <= |t|
    ensures var x, y := Image(prefix, RowAt(s, rowWords, k)), Image(prefix, RowAt(t, rowWords, l));
      && Climb(h.pair, p[k], h.leaf(x), a) == root && Climb(h.pair, p[k], h.leaf(y), b) == root
      && (RowAt(s, rowWords, k) != RowAt(t, rowWords, l) ==>
            (x != y && h.leaf(x) == h.leaf(y)) || Collide(h.pair, p[k], h.leaf(x), a, h.leaf(y), b, at))
  {
    hide Open, Climb, RowAt, Collide;
    a := OpenSound(h, root, height, p, prefix, rowWords, s, k);
    b := OpenSound(h, root, height, q, prefix, rowWords, t, l);
    at := 0;
    var x, y := Image(prefix, RowAt(s, rowWords, k)), Image(prefix, RowAt(t, rowWords, l));
    assert x[prefix..] == RowAt(s, rowWords, k) && y[prefix..] == RowAt(t, rowWords, l);
    if h.leaf(x) != h.leaf(y) {
      at := ClimbCollides(h.pair, p[k], h.leaf(x), a, h.leaf(y), b);
    }
  }

  ghost predicate Binding(h: Hashes) {
    Injective(h.pair) && forall a, b :: h.leaf(a) == h.leaf(b) ==> a == b
  }

  /** Two accepted openings under one root agree on every position they share, whatever else
      they open. */
  lemma OpeningsAgree(h: Hashes, root: Digest, height: nat, prefix: nat, rowWords: nat,
                      p: seq<nat>, s: Words, k: nat, q: seq<nat>, t: Words, l: nat)
    requires Binding(h)
    requires Open(h, root, height, p, prefix, rowWords, s).Ok? && Open(h, root, height, q, prefix, rowWords, t).Ok?
    requires k < |p| && l < |q| && p[k] == q[l]
    ensures (k + 1) * rowWords <= |s| && (l + 1) * rowWords <= |t| && RowAt(s, rowWords, k) == RowAt(t, rowWords, l)
  {
    hide Open, Climb, RowAt, Injective;
    var a := OpenSound(h, root, height, p, prefix, rowWords, s, k);
    var b := OpenSound(h, root, height, q, prefix, rowWords, t, l);
    var x, y := RowAt(s, rowWords, k), RowAt(t, rowWords, l);
    ClimbBinds(h.pair, p[k], h.leaf(Image(prefix, x)), a, h.leaf(Image(prefix, y)), b);
    assert Image(prefix, x)[prefix..] == x && Image(prefix, y)[prefix..] == y;
  }

  // ---- the honest opening ----------------------------------------------------------------------

  function Rows(rows: nat -> Words, positions: seq<nat>): Words {
    if positions == [] then [] else rows(positions[0]) + Rows(rows, positions[1..])
  }

  ghost predicate Committed(h: Hashes, t: Tree, rows: nat -> Words, prefix: nat, rowWords: nat) {
    IsTree(h.pair, t) && forall p: nat :: |rows(p)| == rowWords && t(0, p) == h.leaf(Image(prefix, rows(p)))
  }

  lemma {:induction false} RowsAt(rows: nat -> Words, positions: seq<nat>, rowWords: nat, tail: Words, k: nat)
    requires forall p: nat :: |rows(p)| == rowWords
    ensures |Rows(rows, positions)| == |positions| * rowWords
    ensures k < |positions| ==> (k + 1) * rowWords <= |Rows(rows, positions) + tail|
    ensures k < |positions| ==> RowAt(Rows(rows, positions) + tail, rowWords, k) == rows(positions[k])
    decreases |positions|
  {
    if positions != [] {
      var more := positions[1..];
      RowsAt(rows, more, rowWords, tail, if k == 0 then 0 else k - 1);
      RowFits(|positions|, rowWords, |more|);
      if k < |positions| {
        RowFits(|positions|, rowWords, k);
        var all, rest := Rows(rows, positions) + tail, Rows(rows, more) + tail;
        assert all == rows(positions[0]) + rest;
        if k > 0 {
          RowShift(all, rowWords, rest, k);
        }
      }
    }
  }

  lemma RowShift(all: Words, w: nat, rest: Words, k: nat)
    requires k > 0 && (k + 1) * w <= |all| && w <= |all| && rest == all[w..]
    ensures k * w <= |rest| && RowAt(all, w, k) == RowAt(rest, w, k - 1)
  {
    assert k * w == (k - 1) * w + w && (k + 1) * w == k * w + w;
  }

  /** With the true rows and exactly the missing siblings, an opening of at least one position is
      accepted, and everything sent is read; an opening of none never is. */
  lemma OpenComplete(h: Hashes, t: Tree, rows: nat -> Words, height: nat, positions: seq<nat>, prefix: nat, rowWords: nat, rest: Words)
    requires Committed(h, t, rows, prefix, rowWords)
    requires Ascending(positions) && forall p :: p in positions ==> p < Pow2(height)
    ensures Open(h, t(height, 0), height, positions, prefix, rowWords,
                 Rows(rows, positions) + (Opening(t, 0, height, positions) + rest))
         == if positions == [] then Err(MerkleRootMismatch) else Ok(rest)
  {
    hide Opening, Levels, Ancestors, Rows, IsTree, Pow2, Ascending;
    var tail := Opening(t, 0, height, positions) + rest;
    var s := Rows(rows, positions) + tail;
    RowsAt(rows, positions, rowWords, tail, 0);
    assert s[|positions| * rowWords..] == tail;
    var nodes := LeafNodes(h, positions, prefix, rowWords, s);
    forall k | 0 <= k < |positions|
      ensures nodes[k] == Node(positions[k], t(0, positions[k]))
    {
      RowsAt(rows, positions, rowWords, tail, k);
    }
    assert nodes == TrueNodes(t, 0, positions);
    LevelsComplete(h.pair, t, 0, height, positions, rest);
    if positions == [] {
      NoAncestor(height);
    } else {
      OneAncestor(positions, height);
    }
  }

  // ---- the method ------------------------------------------------------------------------------

  class Opened {
    const positions: array<nat>
    const values: array<Elem>
    var count: nat

    constructor (most: nat)
      ensures fresh(positions) && fresh(values) && positions.Length == values.Length == most && count == 0
    {
      positions, values, count := new nat[most](_ => 0), new Elem[most](_ => Elem(0, 0, 0)), 0;
    }
  }

  /** The values of the first n rows. */
  ghost predicate RowValues(R: Ring, values: seq<Elem>, s: Words, prefix: nat, rowWords: nat, level0: bool,
                            weights: seq<Elem>, n: nat) {
    && n <= |values| && n * rowWords <= |s|
    && forall k :: 0 <= k < n ==>
      (k + 1) * rowWords <= |s| && values[k] == RowValue(R, Image(prefix, RowAt(s, rowWords, k)), level0, weights)
  }

  ghost predicate LeafDigests(h: Hashes, digests: seq<Digest>, indices: seq<nat>, positions: seq<nat>, s: Words,
                              prefix: nat, rowWords: nat, n: nat) {
    && n <= |positions| && n <= |digests| == |indices| && n * rowWords <= |s|
    && forall k :: 0 <= k < n ==>
      (k + 1) * rowWords <= |s| && indices[k] == positions[k] && digests[k] == h.leaf(Image(prefix, RowAt(s, rowWords, k)))
  }

  /** The row loop: read, hash and reduce each position's row. */
  method ReadRows(R: Ring, h: Hashes, source: Source, out: Opened, digests: array<Digest>, indices: array<nat>,
                  prefix: nat, rowWords: nat, level0: bool, weights: seq<Elem>) returns (r: Result<()>)
    requires R.Laws() && R.zero == Elem(0, 0, 0)
    requires |weights| * (if level0 then 1 else 3) == prefix + rowWords
    requires out.count <= out.positions.Length == out.values.Length == digests.Length == indices.Length
    requires indices != out.positions
    modifies source, digests, indices, out.values
    ensures out.positions[..] == old(out.positions[..])
    ensures r == if out.count * rowWords <= |old(source.words)| then Ok(()) else Err(StreamExhausted)
    ensures r.Ok? ==> source.words == old(source.words)[out.count * rowWords..]
    ensures r.Ok? ==> RowValues(R, out.values[..], old(source.words), prefix, rowWords, level0, weights, out.count)
    ensures r.Ok? ==> LeafDigests(h, digests[..], indices[..], out.positions[..], old(source.words), prefix, rowWords, out.count)
  {
    hide RowValue, RowAt, Image, Ring.Laws, RowValues, LeafDigests;
    ghost var s := source.words;
    var i := 0;
    NoRows(R, h, out.values[..], digests[..], indices[..], out.positions[..], s, prefix, rowWords, level0, weights);
    while i < out.count
      invariant 0 <= i <= out.count && out.positions[..] == old(out.positions[..])
      invariant i * rowWords <= |s| && source.words == s[i * rowWords..]
      invariant RowValues(R, out.values[..], s, prefix, rowWords, level0, weights, i)
      invariant LeafDigests(h, digests[..], indices[..], out.positions[..], s, prefix, rowWords, i)
    {
      RowFits(out.count, rowWords, i);
      var row := source.Read(rowWords);
      if row.Err? {
        return Err(row.error);
      }
      NextRow(s, rowWords, i, row.value);
      ghost var vs, ds, ix := out.values[..], digests[..], indices[..];
      digests[i] := h.leaf(Image(prefix, row.value));
      indices[i] := out.positions[i];
      var value := Value(R, row.value, prefix, level0, weights);
      out.values[i] := value;
      assert out.values[..] == vs[i := value];
      assert digests[..] == ds[i := h.leaf(Image(prefix, row.value))] && indices[..] == ix[i := out.positions[i]];
      OneMoreRow(R, h, vs, ds, ix, out.positions[..], s, prefix, rowWords, level0, weights, i);
      i := i + 1;
    }
    r := Ok(());
  }

  lemma NoRows(R: Ring, h: Hashes, vs: seq<Elem>, ds: seq<Digest>, ix: seq<nat>, ps: seq<nat>, s: Words,
               prefix: nat, rowWords: nat, level0: bool, weights: seq<Elem>)
    requires |ds| == |ix|
    ensures 0 * rowWords == 0 && RowValues(R, vs, s, prefix, rowWords, level0, weights, 0)
    ensures LeafDigests(h, ds, ix, ps, s, prefix, rowWords, 0)
  {
  }

  lemma NextRow(s: Words, w: nat, i: nat, row: Words)
    requires i * w + w == (i + 1) * w <= |s| && row == s[i * w..][..w]
    ensures row == RowAt(s, w, i) && s[i * w..][w..] == s[(i + 1) * w..]
  {
  }

  lemma OneMoreRow(R: Ring, h: Hashes, vs: seq<Elem>, ds: seq<Digest>, ix: seq<nat>, ps: seq<nat>, s: Words,
                   prefix: nat, rowWords: nat, level0: bool, weights: seq<Elem>, i: nat)
    requires RowValues(R, vs, s, prefix, rowWords, level0, weights, i)
    requires LeafDigests(h, ds, ix, ps, s, prefix, rowWords, i)
    requires i < |vs| && i < |ds| && i < |ps| && (i + 1) * rowWords <= |s|
    ensures RowValues(R, vs[i := RowValue(R, Image(prefix, RowAt(s, rowWords, i)), level0, weights)], s, prefix, rowWords,
                      level0, weights, i + 1)
    ensures LeafDigests(h, ds[i := h.leaf(Image(prefix, RowAt(s, rowWords, i)))], ix[i := ps[i]], ps, s, prefix, rowWords, i + 1)
  {
    hide RowValue, RowAt, Image;
  }

  /** All the levels, then the root. */
  method FoldTree(pair: PairHash, source: Source, digests: array<Digest>, indices: array<nat>, count: nat, height: nat,
                  root: Digest) returns (r: Result<()>)
    requires count <= digests.Length == indices.Length
    modifies source, digests, indices
    ensures match Levels(pair, height, Nodes(old(indices[..]), old(digests[..]), 0, count), old(source.words))
            case Err(e) => r == Err(e)
            case Ok((top, rest)) =>
              && source.words == rest
              && r == if |top| == 1 && top[0].digest == root then Ok(()) else Err(MerkleRootMismatch)
  {
    hide Level, Nodes;
    ghost var was, s := Nodes(indices[..], digests[..], 0, count), source.words;
    var n, level := count, 0;
    while level < height
      invariant 0 <= level <= height && 0 <= n <= digests.Length
      invariant Levels(pair, height, was, s)
             == Levels(pair, height - level, Nodes(indices[..], digests[..], 0, n), source.words)
    {
      var up := FoldLevel(pair, source, digests, indices, n);
      if up.Err? {
        return Err(up.error);
      }
      n := up.value;
      level := level + 1;
    }
    FirstNode(indices[..], digests[..], n);
    r := if n == 1 && digests[0] == root then Ok(()) else Err(MerkleRootMismatch);
  }

  lemma FirstNode(indices: seq<nat>, digests: seq<Digest>, n: nat)
    requires n <= |indices| == |digests|
    ensures |Nodes(indices, digests, 0, n)| == n
    ensures n > 0 ==> Nodes(indices, digests, 0, n)[0] == Node(indices[0], digests[0])
  {
  }

  /** `open_rows`. */
  method OpenRows(R: Ring, h: Hashes, out: Opened, source: Source, root: Digest, blockLength: nat, queries: seq<nat>,
                  rowWords: nat, leafWords: nat, level0: bool, weights: seq<Elem>) returns (r: Result<()>)
    requires R.Laws() && R.zero == Elem(0, 0, 0)
    requires |queries| <= out.positions.Length == out.values.Length
    requires |weights| * (if level0 then 1 else 3) == leafWords
    modifies out, out.positions, out.values, source
    ensures StackLayout.LogStrict(blockLength).Err? ==> r == Err(NotPowerOfTwo) && unchanged(out, out.positions, out.values, source)
    ensures StackLayout.LogStrict(blockLength).Ok? ==>
            && out.count <= out.positions.Length && Ascending(out.positions[..out.count])
            && forall p :: p in out.positions[..out.count] <==> p in queries
    ensures StackLayout.LogStrict(blockLength).Ok? ==>
            if rowWords > leafWords || leafWords > 64 then r == Err(MerkleOpeningShape) else
              match Open(h, root, StackLayout.LogStrict(blockLength).value, out.positions[..out.count], leafWords - rowWords, rowWords,
                         old(source.words))
              case Err(e) => r == Err(e)
              case Ok(rest) =>
                && r == Ok(()) && source.words == rest
                && RowValues(R, out.values[..], old(source.words), leafWords - rowWords, rowWords, level0, weights, out.count)
  {
    hide RowValues, LeafDigests, Levels, Ring.Laws, Ascending;
    var log := StackLayout.LogStrict(blockLength);
    if log.Err? {
      return Err(NotPowerOfTwo);
    }
    var height := log.value;
    out.count := DistinctPositions(out.positions, queries);
    if rowWords > leafWords || leafWords > MAX_LEAF_WORDS {
      return Err(MerkleOpeningShape);
    }
    ghost var s, positions := source.words, out.positions[..out.count];
    var prefix := leafWords - rowWords;
    var digests := new Digest[out.positions.Length](_ => []);
    var indices := new nat[out.positions.Length](_ => 0);
    r := ReadRows(R, h, source, out, digests, indices, prefix, rowWords, level0, weights);
    assert out.positions[..out.count] == positions;
    if r.Err? {
      return;
    }
    LeavesRead(h, digests[..], indices[..], out.positions[..], s, prefix, rowWords, out.count);
    r := FoldTree(h.pair, source, digests, indices, out.count, height, root);
  }

  lemma LeavesRead(h: Hashes, ds: seq<Digest>, ix: seq<nat>, ps: seq<nat>, s: Words, prefix: nat, rowWords: nat, n: nat)
    requires LeafDigests(h, ds, ix, ps, s, prefix, rowWords, n)
    ensures Nodes(ix, ds, 0, n) == LeafNodes(h, ps[..n], prefix, rowWords, s)
  {
    hide RowAt, Image;
  }

  // ---- the lookup ------------------------------------------------------------------------------

  /** The query's share of the enforced sum: its own row's value under its power of lam. */
  function Enforced(R: Ring, positions: seq<nat>, values: seq<Elem>, queries: seq<nat>, lam: Elem): int -> Elem {
    q =>
      if 0 <= q < |queries| && PartitionPoint(positions, queries[q]) < |values|
      then R.mul(values[PartitionPoint(positions, queries[q])], Power(R, lam, q))
      else R.zero
  }

  /** The sum the level enforces: each query looked up among the out positions. */
  method Enforce(R: Ring, positions: seq<nat>, values: seq<Elem>, queries: seq<nat>, lam: Elem) returns (enforced: Elem)
    requires |positions| == |values| && Ascending(positions) && forall q :: q in queries ==> q in positions
    ensures enforced == Sum(R, |queries|, Enforced(R, positions, values, queries, lam))
    ensures forall q :: 0 <= q < |queries| ==>
      PartitionPoint(positions, queries[q]) < |positions| && positions[PartitionPoint(positions, queries[q])] == queries[q]
  {
    hide PartitionPoint, Ascending;
    enforced := R.zero;
    var weight, q := R.one, 0;
    forall q | 0 <= q < |queries|
      ensures PartitionPoint(positions, queries[q]) < |positions| && positions[PartitionPoint(positions, queries[q])] == queries[q]
    {
      FindQuery(positions, queries[q]);
    }
    while q < |queries|
      invariant 0 <= q <= |queries| && weight == Power(R, lam, q)
      invariant enforced == Sum(R, q, Enforced(R, positions, values, queries, lam))
    {
      var at := PartitionPoint(positions, queries[q]);
      enforced := R.add(enforced, R.mul(values[at], weight));
      weight := R.mul(weight, lam);
      q := q + 1;
    }
  }
}
