/** Stacking runs of 2^sizes[i] words, largest first (transcript.rs's `stack_offsets`): every run
    starts at a multiple of its length, no two meet, and together they fill [0, total). */
module StackRuns {
  import opened Multilinear

  /** Run i is stacked before run j: the larger, and of equals the one of lower index. */
  predicate Before(sizes: seq<nat>, i: nat, j: nat)
    requires i < |sizes| && j < |sizes|
  {
    sizes[i] > sizes[j] || (sizes[i] == sizes[j] && i < j)
  }

  /** Every index once. */
  ghost predicate Permutes(order: seq<nat>, n: nat) {
    && |order| == n
    && (forall a :: 0 <= a < n ==> order[a] < n)
    && (forall a, b :: 0 <= a < b < n ==> order[a] != order[b])
    && (forall v: nat :: v < n ==> v in order)
  }

  ghost predicate Ordered(sizes: seq<nat>, order: seq<nat>) {
    && Permutes(order, |sizes|)
    && forall a, b :: 0 <= a < b < |order| ==> Before(sizes, order[a], order[b])
  }

  /** The words of the first k runs in an order. */
  function Prefix(sizes: seq<nat>, order: seq<nat>, k: nat): nat
    requires k <= |order| && forall a :: 0 <= a < |order| ==> order[a] < |sizes|
    decreases k
  {
    if k == 0 then 0 else Prefix(sizes, order, k - 1) + Pow2(sizes[order[k - 1]])
  }

  lemma {:induction false} PrefixMono(sizes: seq<nat>, order: seq<nat>, k: nat, l: nat)
    requires k <= l <= |order| && forall a :: 0 <= a < |order| ==> order[a] < |sizes|
    ensures Prefix(sizes, order, k) <= Prefix(sizes, order, l)
    decreases l
  {
    if k < l {
      PrefixMono(sizes, order, k, l - 1);
    }
  }

  /** All the runs' words. */
  function Words(sizes: seq<nat>): nat {
    if sizes == [] then 0 else Words(sizes[..|sizes| - 1]) + Pow2(sizes[|sizes| - 1])
  }

  lemma {:induction false} PrefixIdentity(sizes: seq<nat>, n: nat)
    requires n <= |sizes|
    ensures Prefix(sizes, Identity(|sizes|), n) == Words(sizes[..n])
    decreases n
  {
    hide Pow2;
    if n > 0 {
      PrefixIdentity(sizes, n - 1);
      assert sizes[..n][..n - 1] == sizes[..n - 1];
    }
  }

  lemma {:induction false} PrefixSwap(sizes: seq<nat>, order: seq<nat>, now: seq<nat>, j: nat, k: nat)
    requires 0 < j < |order| && k <= |order| && now == order[j - 1 := order[j]][j := order[j - 1]]
    requires forall a :: 0 <= a < |order| ==> order[a] < |sizes|
    ensures k != j ==> Prefix(sizes, now, k) == Prefix(sizes, order, k)
    ensures k == j ==> Prefix(sizes, now, k) + Pow2(sizes[order[j - 1]]) == Prefix(sizes, order, k) + Pow2(sizes[order[j]])
    decreases k
  {
    hide Pow2;
    if k > 0 {
      PrefixSwap(sizes, order, now, j, k - 1);
    }
  }

  /** A power of two that divides each term divides their sum. */
  lemma {:induction false} PrefixDivides(sizes: seq<nat>, order: seq<nat>, k: nat, m: nat)
    requires k <= |order| && forall a :: 0 <= a < |order| ==> order[a] < |sizes|
    requires forall a :: 0 <= a < k ==> m <= sizes[order[a]]
    ensures Prefix(sizes, order, k) % Pow2(m) == 0
    decreases k
  {
    hide Pow2;
    if k > 0 {
      PrefixDivides(sizes, order, k - 1, m);
      PowDivides(m, sizes[order[k - 1]]);
      SumDivides(Prefix(sizes, order, k - 1), Pow2(sizes[order[k - 1]]), Pow2(m));
    } else {
      DivUnique(0, Pow2(m), 0, 0);
    }
  }

  lemma PowDivides(m: nat, n: nat)
    requires m <= n
    ensures Pow2(n) % Pow2(m) == 0
  {
    hide Pow2;
    Pow2Add(m, n - m);
    var q, w := Pow2(n - m), Pow2(m);
    assert Pow2(n) == q * w;
    DivUnique(q * w, w, q, 0);
  }

  lemma SumDivides(a: int, b: int, w: int)
    requires w > 0 && a % w == 0 && b % w == 0
    ensures (a + b) % w == 0
  {
    var p, q := a / w, b / w;
    assert a == p * w && b == q * w;
    assert a + b == (p + q) * w;
    DivUnique(a + b, w, p + q, 0);
  }

  /** Some run holds each word. */
  lemma {:induction false} PrefixCovers(sizes: seq<nat>, order: seq<nat>, k: nat, u: nat) returns (a: nat)
    requires k <= |order| && forall a :: 0 <= a < |order| ==> order[a] < |sizes|
    requires u < Prefix(sizes, order, k)
    ensures a < k && Prefix(sizes, order, a) <= u < Prefix(sizes, order, a + 1)
    decreases k
  {
    if u < Prefix(sizes, order, k - 1) {
      a := PrefixCovers(sizes, order, k - 1, u);
    } else {
      a := k - 1;
    }
  }

  // ---- what a stacking is ------------------------------------------------------------------------

  /** Word u is in the run of 2^size words at `offset`. */
  predicate InRun(offset: nat, size: nat, u: nat) {
    offset <= u < offset + Pow2(size)
  }

  /** Runs at multiples of their lengths, largest first, no two meeting, that fill [0, total). */
  ghost predicate Stacked(sizes: seq<nat>, offsets: seq<nat>, total: nat) {
    && |offsets| == |sizes|
    && (forall i :: 0 <= i < |sizes| ==> offsets[i] % Pow2(sizes[i]) == 0 && offsets[i] + Pow2(sizes[i]) <= total)
    && (forall i, j :: 0 <= i < |sizes| && 0 <= j < |sizes| && Before(sizes, i, j) ==> offsets[i] + Pow2(sizes[i]) <= offsets[j])
    && (forall u: nat :: u < total ==> Covered(sizes, offsets, u))
  }

  ghost predicate Covered(sizes: seq<nat>, offsets: seq<nat>, u: nat)
    requires |offsets| == |sizes|
  {
    exists i :: 0 <= i < |sizes| && InRun(offsets[i], sizes[i], u)
  }

  /** Two different runs do not meet. */
  lemma RunsApart(sizes: seq<nat>, offsets: seq<nat>, total: nat, i: nat, j: nat, u: nat)
    requires Stacked(sizes, offsets, total) && i < |sizes| && j < |sizes| && i != j
    ensures !(InRun(offsets[i], sizes[i], u) && InRun(offsets[j], sizes[j], u))
  {
    hide Pow2, Covered;
    if Before(sizes, i, j) {
      assert offsets[i] + Pow2(sizes[i]) <= offsets[j];
    } else {
      assert Before(sizes, j, i);
      assert offsets[j] + Pow2(sizes[j]) <= offsets[i];
    }
  }

  /** The offsets that sum an order's prefixes stack the runs. */
  lemma PrefixesStack(sizes: seq<nat>, order: seq<nat>, offsets: seq<nat>)
    requires Ordered(sizes, order) && |offsets| == |sizes|
    requires forall a :: 0 <= a < |sizes| ==> offsets[order[a]] == Prefix(sizes, order, a)
    ensures Stacked(sizes, offsets, Prefix(sizes, order, |sizes|))
  {
    hide Pow2, Prefix, Covered;
    var n := |sizes|;
    forall i | 0 <= i < n
      ensures offsets[i] % Pow2(sizes[i]) == 0 && offsets[i] + Pow2(sizes[i]) <= Prefix(sizes, order, n)
    {
      assert i in order;
      var a :| 0 <= a < n && order[a] == i;
      RunAt(sizes, order, a);
    }
    forall i, j | 0 <= i < n && 0 <= j < n && Before(sizes, i, j)
      ensures offsets[i] + Pow2(sizes[i]) <= offsets[j]
    {
      assert i in order && j in order;
      var a :| 0 <= a < n && order[a] == i;
      var b :| 0 <= b < n && order[b] == j;
      assert a < b;
      RunAt(sizes, order, a);
      PrefixMono(sizes, order, a + 1, b);
    }
    forall u: nat | u < Prefix(sizes, order, n)
      ensures Covered(sizes, offsets, u)
    {
      var a := PrefixCovers(sizes, order, n, u);
      RunAt(sizes, order, a);
      CoveredBy(sizes, offsets, u, order[a]);
    }
  }

  lemma CoveredBy(sizes: seq<nat>, offsets: seq<nat>, u: nat, i: nat)
    requires |offsets| == |sizes| && i < |sizes| && InRun(offsets[i], sizes[i], u)
    ensures Covered(sizes, offsets, u)
  {
  }

  lemma RunAt(sizes: seq<nat>, order: seq<nat>, a: nat)
    requires Ordered(sizes, order) && a < |order|
    ensures Prefix(sizes, order, a + 1) == Prefix(sizes, order, a) + Pow2(sizes[order[a]])
    ensures Prefix(sizes, order, a) % Pow2(sizes[order[a]]) == 0
    ensures Prefix(sizes, order, a + 1) <= Prefix(sizes, order, |sizes|)
  {
    hide Pow2;
    PrefixDivides(sizes, order, a, sizes[order[a]]);
    PrefixMono(sizes, order, a + 1, |sizes|);
  }

  // ---- the sort --------------------------------------------------------------------------------

  lemma SwapPermutes(order: seq<nat>, now: seq<nat>, n: nat, j: nat)
    requires Permutes(order, n) && 0 < j < n && now == order[j - 1 := order[j]][j := order[j - 1]]
    ensures Permutes(now, n)
  {
    forall v: nat | v < n
      ensures v in now
    {
      assert v in order;
      var a :| 0 <= a < n && order[a] == v;
      if a == j {
        assert now[j - 1] == v;
      } else if a == j - 1 {
        assert now[j] == v;
      } else {
        assert now[a] == v;
      }
    }
  }

  /** The first i + 1 places but the j-th are in order, and the one at j is index i, smaller runs
      behind it. */
  ghost predicate Inserting(sizes: seq<nat>, order: seq<nat>, i: nat, j: nat) {
    && Permutes(order, |sizes|) && j <= i < |sizes|
    && order[j] == i
    && (forall a :: i < a < |sizes| ==> order[a] == a)
    && (forall a, b :: 0 <= a < b <= i && a != j && b != j ==> Before(sizes, order[a], order[b]))
    && (forall b :: j < b <= i ==> sizes[order[b]] < sizes[i])
    && (forall a :: 0 <= a <= i && a != j ==> order[a] < i)
  }

  ghost predicate SortedTo(sizes: seq<nat>, order: seq<nat>, i: nat) {
    && Permutes(order, |sizes|) && i <= |sizes|
    && (forall a :: i <= a < |sizes| ==> order[a] == a)
    && (forall a, b :: 0 <= a < b < i ==> Before(sizes, order[a], order[b]))
    && (forall a :: 0 <= a < i ==> order[a] < i)
  }

  lemma InsertNext(sizes: seq<nat>, order: seq<nat>, now: seq<nat>, i: nat, j: nat)
    requires Inserting(sizes, order, i, j) && 0 < j && sizes[order[j - 1]] < sizes[order[j]]
    requires now == order[j - 1 := order[j]][j := order[j - 1]]
    ensures Inserting(sizes, now, i, j - 1)
  {
    SwapPermutes(order, now, |sizes|, j);
    hide Permutes;
    forall a, b | 0 <= a < b <= i && a != j - 1 && b != j - 1
      ensures Before(sizes, now[a], now[b])
    {
      var p, q := if a == j then j - 1 else a, if b == j then j - 1 else b;
      assert now[a] == order[p] && now[b] == order[q] && p < q;
    }
  }

  lemma InsertDone(sizes: seq<nat>, order: seq<nat>, i: nat, j: nat)
    requires Inserting(sizes, order, i, j) && (j == 0 || sizes[order[j - 1]] >= sizes[order[j]])
    ensures SortedTo(sizes, order, i + 1)
  {
    forall a, b | 0 <= a < b < i + 1
      ensures Before(sizes, order[a], order[b])
    {
      if b == j {
        assert a == j - 1 || Before(sizes, order[a], order[j - 1]);
      }
    }
  }

  lemma SwapWords(sizes: seq<nat>, order: seq<nat>, now: seq<nat>, i: nat, j: nat)
    requires Inserting(sizes, order, i, j) && 0 < j && now == order[j - 1 := order[j]][j := order[j - 1]]
    ensures |now| == |order| == |sizes| && (forall a :: 0 <= a < |now| ==> now[a] < |sizes|)
    ensures Prefix(sizes, now, |sizes|) == Prefix(sizes, order, |sizes|)
  {
    hide Before, Prefix;
    PrefixSwap(sizes, order, now, j, |sizes|);
  }

  function Identity(n: nat): (r: seq<nat>)
    ensures |r| == n && forall a :: 0 <= a < n ==> r[a] == a
  {
    seq(n, a => a)
  }

  lemma IdentitySorted(sizes: seq<nat>)
    ensures SortedTo(sizes, Identity(|sizes|), if sizes == [] then 0 else 1)
  {
    forall v: nat | v < |sizes|
      ensures v in Identity(|sizes|)
    {
      assert Identity(|sizes|)[v] == v;
    }
  }

  /** Insertion sort by size descending, stable on the index. */
  method SortRuns(sizes: seq<nat>) returns (order: seq<nat>)
    ensures Ordered(sizes, order) && Prefix(sizes, order, |sizes|) == Words(sizes)
  {
    hide Prefix, Words;
    var n := |sizes|;
    order := Identity(n);
    IdentitySorted(sizes);
    PrefixIdentity(sizes, n);
    assert sizes[..n] == sizes;
    if n == 0 {
      return;
    }
    for i := 1 to n
      invariant SortedTo(sizes, order, i) && Prefix(sizes, order, n) == Words(sizes)
    {
      hide Permutes, Before;
      var j := i;
      assert Inserting(sizes, order, i, j);
      while j > 0 && sizes[order[j - 1]] < sizes[order[j]]
        invariant 0 <= j <= i && Inserting(sizes, order, i, j) && Prefix(sizes, order, n) == Words(sizes)
      {
        ghost var was := order;
        order := order[j - 1 := order[j]][j := order[j - 1]];
        SwapWords(sizes, was, order, i, j);
        InsertNext(sizes, was, order, i, j);
        j := j - 1;
      }
      InsertDone(sizes, order, i, j);
    }
  }

  lemma NoPrefix(sizes: seq<nat>, order: seq<nat>)
    requires Permutes(order, |sizes|)
    ensures Prefix(sizes, order, 0) == 0
  {
  }

  /** The least power of two at or above a number. */
  ghost predicate IsLogCeil(value: nat, log: nat) {
    value <= Pow2(log) && (log > 0 ==> Pow2(log - 1) < value)
  }

  /** 64 less the leading zeros. */
  function BitLength(n: nat): nat {
    if n == 0 then 0 else 1 + BitLength(n / 2)
  }

  function LogCeil(value: nat): nat {
    BitLength(if value == 0 then 0 else value - 1)
  }

  lemma {:induction false} BitLengthIs(n: nat)
    ensures n < Pow2(BitLength(n)) && (n > 0 ==> BitLength(n) > 0 && Pow2(BitLength(n) - 1) <= n)
  {
    if n > 0 {
      BitLengthIs(n / 2);
    }
  }

  lemma LogCeilIs(value: nat)
    ensures IsLogCeil(value, LogCeil(value))
  {
    BitLengthIs(if value == 0 then 0 else value - 1);
    hide BitLength;
  }

  method StackOffsets(sizes: seq<nat>) returns (offsets: array<nat>, log: nat)
    ensures fresh(offsets) && offsets.Length == |sizes|
    ensures Stacked(sizes, offsets[..], Words(sizes)) && log == LogCeil(Words(sizes))
  {
    hide Prefix, Pow2, Before, Stacked, LogCeil, Words;
    var n := |sizes|;
    var order := SortRuns(sizes);
    NoPrefix(sizes, order);
    offsets := new nat[n](_ => 0);
    var sum := 0;
    for a := 0 to n
      invariant sum == Prefix(sizes, order, a)
      invariant forall b :: 0 <= b < a ==> offsets[order[b]] == Prefix(sizes, order, b)
    {
      hide Prefix, Pow2, Before;
      offsets[order[a]] := sum;
      RunAt(sizes, order, a);
      sum := sum + Pow2(sizes[order[a]]);
    }
    PrefixesStack(sizes, order, offsets[..]);
    log := LogCeil(sum);
  }
}
