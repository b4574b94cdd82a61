/** whir.rs's `open_rows` as it runs: the distinct positions inserted in order, the rows read and
    hashed, and the levels folded in place. */
module MerkleOpening {
  import opened Rings
  import opened Sums
  import opened Kernels
  import opened MerklePaths

  /** The hash of a leaf image and of a pair of digests. */
  datatype Hashes = Hashes(leaf: Words -> Digest, pair: PairHash)

  /** The proof, as 64-bit words, read from the front. */
  class Source {
    var words: Words

    constructor (words: Words)
      ensures this.words == words
    {
      this.words := words;
    }

    method Read(n: nat) returns (r: Result<Words>)
      modifies this
      ensures r == (if n <= |old(words)| then Ok(old(words)[..n]) else Err(StreamExhausted))
      ensures words == if r.Ok? then old(words)[n..] else old(words)
    {
      if n > |words| {
        return Err(StreamExhausted);
      }
      r := Ok(words[..n]);
      words := words[n..];
    }
  }

  // ---- positions -------------------------------------------------------------------------------

  /** `partition_point(|p| p < query)` on an ascending list. */
  function PartitionPoint(s: seq<nat>, query: nat): (at: nat)
    ensures at <= |s| && (forall i :: 0 <= i < at ==> s[i] < query) && (at < |s| ==> query <= s[at])
  {
    if s == [] || query <= s[0] then 0 else 1 + PartitionPoint(s[1..], query)
  }

  /** The lookup finds the query's own place. */
  lemma FindQuery(s: seq<nat>, query: nat)
    requires Ascending(s) && query in s
    ensures PartitionPoint(s, query) < |s| && s[PartitionPoint(s, query)] == query
  {
    var i :| 0 <= i < |s| && s[i] == query;
    var at := PartitionPoint(s, query);
    assert at <= i;
  }

  /** Insertion before the partition point keeps the list ascending. */
  lemma InsertAscends(s: seq<nat>, query: nat)
    requires Ascending(s)
    ensures var at := PartitionPoint(s, query);
      !(at < |s| && s[at] == query) ==> query !in s && Ascending(s[..at] + [query] + s[at..])
  {
    hide PartitionPoint;
    var at := PartitionPoint(s, query);
    if query in s {
      FindQuery(s, query);
    } else {
      assert at < |s| ==> s[at] in s;
      BetweenAscends(s, at, query);
    }
  }

  lemma BetweenAscends(s: seq<nat>, at: nat, query: nat)
    requires Ascending(s) && at <= |s| && (at > 0 ==> s[at - 1] < query) && (at < |s| ==> query < s[at])
    ensures Ascending(s[..at] + [query] + s[at..])
  {
    var t := s[..at] + [query] + s[at..];
    forall i, j | 0 <= i < j < |t|
      ensures t[i] < t[j]
    {
      assert i < at ==> t[i] == s[i] && (i == at - 1 || s[i] < s[at - 1]);
      assert j > at ==> t[j] == s[j - 1] && (j - 1 == at || s[at] < s[j - 1]);
      assert i > at ==> t[i] == s[i - 1];
    }
  }

  /** The first loop: the distinct queries, ascending. `count` never passes the room there is. */
  method DistinctPositions(positions: array<nat>, queries: seq<nat>) returns (count: nat)
    requires |queries| <= positions.Length
    modifies positions
    ensures count <= |queries| && Ascending(positions[..count])
    ensures forall p :: p in positions[..count] <==> p in queries
  {
    count := 0;
    var q := 0;
    while q < |queries|
      invariant 0 <= q <= |queries| && count <= q
      invariant Ascending(positions[..count])
      invariant forall p :: p in positions[..count] <==> p in queries[..q]
    {
      ghost var was := positions[..count];
      count := InsertPosition(positions, count, queries[q]);
      assert queries[..q + 1] == queries[..q] + [queries[q]];
      q := q + 1;
    }
    assert queries[..q] == queries;
  }

  method InsertPosition(positions: array<nat>, count: nat, query: nat) returns (next: nat)
    requires count < positions.Length && Ascending(positions[..count])
    modifies positions
    ensures next == count || next == count + 1
    ensures Ascending(positions[..next])
    ensures forall p :: p in positions[..next] <==> p == query || p in old(positions[..count])
  {
    hide PartitionPoint, Ascending;
    ghost var s := positions[..count];
    var at := PartitionPoint(positions[..count], query);
    InsertAscends(s, query);
    if at < count && positions[at] == query {
      assert s[at] in s;
      return count;
    }
    ghost var all := positions[..];
    forall k | at < k <= count {
      positions[k] := positions[k - 1];
    }
    positions[at] := query;
    next := count + 1;
    assert positions[..next] == s[..at] + [query] + s[at..];
    assert s == s[..at] + s[at..];
  }

  // ---- rows ------------------------------------------------------------------------------------

  /** A row behind the zero words that complete the leaf. */
  function Image(prefix: nat, row: Words): Words {
    seq(prefix, i => 0 as Limb) + row
  }

  function RowAt(s: Words, rowWords: nat, k: nat): Words
    requires (k + 1) * rowWords <= |s|
  {
    assert k * rowWords + rowWords == (k + 1) * rowWords;
    s[k * rowWords..k * rowWords + rowWords]
  }

  /** Lane i of a leaf image: base field words from the back, or extension elements in order. */
  function Lane(image: Words, level0: bool, i: int): Elem {
    if level0 then (if 0 <= i < |image| then Elem(image[|image| - 1 - i], 0, 0) else Elem(0, 0, 0))
    else (if 0 <= 3 * i && 3 * i + 2 < |image| then Elem(image[3 * i], image[3 * i + 1], image[3 * i + 2]) else Elem(0, 0, 0))
  }

  function LaneTerm(R: Ring, image: Words, level0: bool, weights: seq<Elem>): int -> Elem {
    i => R.mul(TableOf(R, weights)(i), Lane(image, level0, i))
  }

  /** A leaf's lanes against the lane weights. */
  function RowValue(R: Ring, image: Words, level0: bool, weights: seq<Elem>): Elem {
    Sum(R, |weights|, LaneTerm(R, image, level0, weights))
  }

  // ---- what a row's value is -------------------------------------------------------------------

  /** Limb j of an element. */
  function LimbOf(e: Elem, j: nat): Limb
    requires j < 3
  {
    if j == 0 then e.c0 else if j == 1 then e.c1 else e.c2
  }

  /** An extension row's lanes, limb after limb, are its words in order. */
  lemma LimbsAreWords(image: Words, k: nat)
    requires k < |image| && |image| % 3 == 0
    ensures LimbOf(Lane(image, false, k / 3), k % 3) == image[k]
  {
  }

  /** Word j of a base field row against the weights, the last word first. */
  function WordTerm(R: Ring, row: Words, weights: seq<Elem>): int -> Elem {
    j => if 0 <= j < |row| <= |weights| then R.mul(weights[|row| - 1 - j], Elem(row[j], 0, 0)) else R.zero
  }

  lemma {:induction false} SumBackwards(R: Ring, n: nat, f: int -> Elem, h: int -> Elem)
    requires R.Laws() && forall i :: 0 <= i < n ==> h(i) == f(n - 1 - i)
    ensures Sum(R, n, f) == Sum(R, n, h)
    decreases n
  {
    hide Ring.Laws;
    if n > 0 {
      var g := k => f(1 + k);
      forall i | 0 <= i < n - 1
        ensures h(i) == g(n - 1 - 1 - i)
      {
      }
      SumBackwards(R, n - 1, g, h);
      SumSplit(R, 1, n - 1, f, g);
      R.AddComm(f(0), Sum(R, n - 1, g));
      assert Sum(R, 1, f) == R.add(Sum(R, 0, f), f(0));
      R.AddZero(f(0));
    }
  }

  /** A base field row's value: its words reversed against the first weights, whatever zeros come
      before them in the leaf. */
  lemma LevelZeroValue(R: Ring, prefix: nat, row: Words, weights: seq<Elem>)
    requires R.Laws() && R.zero == Elem(0, 0, 0) && |weights| == prefix + |row|
    ensures RowValue(R, Image(prefix, row), true, weights) == Sum(R, |row|, WordTerm(R, row, weights))
  {
    hide Ring.Laws, Sum;
    var image, n := Image(prefix, row), |row|;
    var t, h := LaneTerm(R, image, true, weights), WordTerm(R, row, weights);
    forall i | n <= i < |weights|
      ensures t(i) == R.zero
    {
      NextLane(R, image, true, weights, i);
      R.MulZero(weights[i]);
    }
    SumUpTo(R, n, |weights|, t);
    forall j | 0 <= j < n
      ensures h(j) == t(n - 1 - j)
    {
      NextLane(R, image, true, weights, n - 1 - j);
    }
    SumBackwards(R, n, t, h);
  }

  lemma {:induction false} SumUpTo(R: Ring, m: nat, n: nat, f: int -> Elem)
    requires R.Laws() && m <= n && forall i :: m <= i < n ==> f(i) == R.zero
    ensures Sum(R, n, f) == Sum(R, m, f)
    decreases n
  {
    if m < n {
      SumUpTo(R, m, n - 1, f);
      R.AddZero(Sum(R, n - 1, f));
    }
  }

  /** One row's value; a zero word of a base field row is passed over. */
  method Value(R: Ring, row: Words, prefix: nat, level0: bool, weights: seq<Elem>) returns (value: Elem)
    requires R.Laws() && R.zero == Elem(0, 0, 0)
    requires |weights| * (if level0 then 1 else 3) == prefix + |row|
    ensures value == RowValue(R, Image(prefix, row), level0, weights)
  {
    value := R.zero;
    var i, n := 0, prefix + |row|;
    ghost var image := Image(prefix, row);
    hide Image, LaneTerm;
    while i < |weights|
      invariant 0 <= i <= |weights| && value == Sum(R, i, LaneTerm(R, image, level0, weights))
    {
      NextLane(R, image, level0, weights, i);
      if level0 {
        var w := Word(prefix, row, n - 1 - i);
        if w != 0 {
          value := R.add(value, R.mul(weights[i], Elem(w, 0, 0)));
        } else {
          R.MulZero(weights[i]);
          R.AddZero(value);
        }
      } else {
        var lane := Elem(Word(prefix, row, 3 * i), Word(prefix, row, 3 * i + 1), Word(prefix, row, 3 * i + 2));
        value := R.add(value, R.mul(weights[i], lane));
      }
      i := i + 1;
    }
  }

  lemma NextLane(R: Ring, image: Words, level0: bool, weights: seq<Elem>, i: int)
    requires 0 <= i < |weights|
    ensures LaneTerm(R, image, level0, weights)(i) == R.mul(weights[i], Lane(image, level0, i))
  {
    TableAt(R, weights, i);
  }

  /** Word k of the leaf image, its zero prefix included. */
  function Word(prefix: nat, row: Words, k: nat): (w: Limb)
    requires k < prefix + |row|
    ensures |Image(prefix, row)| == prefix + |row| && w == Image(prefix, row)[k]
  {
    if k < prefix then 0 else row[k - prefix]
  }

  // ---- nodes -----------------------------------------------------------------------------------

  function NodeAt(indices: seq<nat>, digests: seq<Digest>, i: nat): Node
    requires i < |indices| && i < |digests|
  {
    Node(indices[i], digests[i])
  }

  function Nodes(indices: seq<nat>, digests: seq<Digest>, from: nat, n: nat): (nodes: seq<Node>)
    requires from <= n <= |indices| && n <= |digests|
    ensures |nodes| == n - from
    ensures forall i :: 0 <= i < n - from ==> nodes[i] == NodeAt(indices, digests, from + i)
  {
    seq(n - from, i requires 0 <= i < n - from => NodeAt(indices, digests, from + i))
  }

  /** Midway through a level: nodes below `write` are the parents so far, nodes from `read` on are
      untouched, and together with the stream that is left they stand for the whole level. */
  ghost predicate Folded(pair: PairHash, was: seq<Node>, s: Words, indices: seq<nat>, digests: seq<Digest>,
                         read: nat, write: nat, left: Words) {
    && write <= read <= |was| <= |indices| == |digests|
    && Nodes(indices, digests, read, |was|) == was[read..]
    && Level(pair, was, s) == Onto(Nodes(indices, digests, 0, write), Level(pair, was[read..], left))
  }

  lemma FoldedStart(pair: PairHash, s: Words, indices: seq<nat>, digests: seq<Digest>, n: nat)
    requires n <= |indices| == |digests|
    ensures Folded(pair, Nodes(indices, digests, 0, n), s, indices, digests, 0, 0, s)
  {
    var was := Nodes(indices, digests, 0, n);
    hide Level;
    assert was[0..] == was && Nodes(indices, digests, 0, 0) == [];
    EmptyOnto(Level(pair, was, s));
  }

  lemma FoldedStep(pair: PairHash, was: seq<Node>, s: Words, indices: seq<nat>, digests: seq<Digest>,
                   read: nat, write: nat, left: Words, used: nat, up: Node, after: Words)
    requires Folded(pair, was, s, indices, digests, read, write, left)
    requires 1 <= used && read + used <= |was|
    requires Level(pair, was[read..], left) == Onto([up], Level(pair, was[read + used..], after))
    ensures Folded(pair, was, s, indices[write := up.index], digests[write := up.digest], read + used, write + 1, after)
  {
    hide Level, Onto;
    var ix, dg := indices[write := up.index], digests[write := up.digest];
    OntoTwice(Nodes(indices, digests, 0, write), [up], Level(pair, was[read + used..], after));
    assert Nodes(ix, dg, 0, write + 1) == Nodes(indices, digests, 0, write) + [up];
    var later, rest := Nodes(ix, dg, read + used, |was|), was[read + used..];
    forall i | 0 <= i < |later|
      ensures later[i] == rest[i]
    {
      assert Nodes(indices, digests, read, |was|)[used + i] == was[read..][used + i];
    }
    assert later == rest;
  }

  lemma FoldedNode(pair: PairHash, was: seq<Node>, s: Words, indices: seq<nat>, digests: seq<Digest>,
                   read: nat, write: nat, left: Words)
    requires Folded(pair, was, s, indices, digests, read, write, left) && read < |was|
    ensures was[read] == Node(indices[read], digests[read])
    ensures read + 1 < |was| ==> was[read + 1] == Node(indices[read + 1], digests[read + 1])
  {
    hide Level, Onto;
    assert Nodes(indices, digests, read, |was|)[0] == was[read..][0];
    assert read + 1 < |was| ==> Nodes(indices, digests, read, |was|)[1] == was[read..][1];
  }

  lemma FoldedEnd(pair: PairHash, was: seq<Node>, s: Words, indices: seq<nat>, digests: seq<Digest>, write: nat, left: Words)
    requires Folded(pair, was, s, indices, digests, |was|, write, left)
    ensures Level(pair, was, s) == Ok((Nodes(indices, digests, 0, write), left))
  {
    assert was[|was|..] == [];
    assert Nodes(indices, digests, 0, write) + [] == Nodes(indices, digests, 0, write);
  }

  lemma FoldedExhausted(pair: PairHash, was: seq<Node>, s: Words, indices: seq<nat>, digests: seq<Digest>,
                        read: nat, write: nat, left: Words)
    requires Folded(pair, was, s, indices, digests, read, write, left)
    requires read < |was| && !Paired(was[read..]) && |left| < DIGEST_WORDS
    ensures Level(pair, was, s) == Err(StreamExhausted)
  {
    LevelExhausted(pair, was[read..], left);
  }

  /** One level folded in place: a write never reaches a digest not yet read. */
  method FoldLevel(pair: PairHash, source: Source, digests: array<Digest>, indices: array<nat>, n: nat)
      returns (r: Result<nat>)
    requires n <= digests.Length == indices.Length
    modifies source, digests, indices
    ensures match Level(pair, Nodes(old(indices[..]), old(digests[..]), 0, n), old(source.words))
            case Err(e) => r == Err(e)
            case Ok((up, rest)) =>
              r == Ok(|up|) && |up| <= n && Nodes(indices[..], digests[..], 0, |up|) == up && source.words == rest
  {
    hide Level, Paired, Folded, Nodes, Parent, Onto;
    ghost var was, s := Nodes(indices[..], digests[..], 0, n), source.words;
    var read, write := 0, 0;
    FoldedStart(pair, s, indices[..], digests[..], n);
    while read < n
      invariant 0 <= write <= read <= n
      invariant Folded(pair, was, s, indices[..], digests[..], read, write, source.words)
    {
      ghost var ix, dg, left := indices[..], digests[..], source.words;
      FoldedNode(pair, was, s, ix, dg, read, write, left);
      IsPaired(was[read..]);
      var index, used, parent := indices[read], 1, digests[read];
      if index % 2 == 0 && read + 1 < n && indices[read + 1] == index + 1 {
        parent, used := pair(digests[read], digests[read + 1]), 2;
        LevelPaired(pair, was[read..], left);
      } else {
        var sibling := source.Read(DIGEST_WORDS);
        if sibling.Err? {
          FoldedExhausted(pair, was, s, ix, dg, read, write, left);
          return Err(sibling.error);
        }
        assert left == sibling.value + source.words;
        LevelSingle(pair, was[read..], sibling.value, source.words);
        parent := Parent(pair, index, digests[read], sibling.value);
      }
      assert was[read..][used..] == was[read + used..];
      FoldedStep(pair, was, s, ix, dg, read, write, left, used, Node(index / 2, parent), source.words);
      digests[write], indices[write] := parent, index / 2;
      assert indices[..] == ix[write := index / 2] && digests[..] == dg[write := parent];
      read, write := read + used, write + 1;
    }
    FoldedEnd(pair, was, s, indices[..], digests[..], write, source.words);
    r := Ok(write);
  }

  lemma IsPaired(nodes: seq<Node>)
    ensures Paired(nodes) <==> |nodes| > 1 && nodes[0].index % 2 == 0 && nodes[1].index == nodes[0].index + 1
  {
  }

  lemma EmptyOnto(r: Result<(seq<Node>, Words)>)
    ensures Onto([], r) == r
  {
    assert r.Ok? ==> [] + r.value.0 == r.value.0;
  }

  lemma LevelExhausted(pair: PairHash, nodes: seq<Node>, s: Words)
    requires nodes != [] && !Paired(nodes) && |s| < DIGEST_WORDS
    ensures Level(pair, nodes, s) == Err(StreamExhausted)
  {
  }
}
