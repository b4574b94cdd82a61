/** The sparse bytecode table at a point (bytecode.rs's `evaluate`): entries grouped by the high
    row bits, bit by bit into 64 sums, equal to the dense multilinear extension. */
module SparseEvaluate {
  import opened Rings
  import opened Sums
  import opened Multilinear
  import opened Kernels
  import opened Polynomials
  import opened Bits
  import opened SparseTable

  const LOW_BITS := 5
  const BUS_BITS := 4

  function BitTerm(R: Ring, x: Elem, w: nat): int -> Elem {
    k => if k >= 0 && Bit(w, k) == 1 then Power(R, x, k) else R.zero
  }

  /** A word as a field element: its bits against the powers of x. */
  function WordValue(R: Ring, x: Elem, w: nat): Elem {
    Sum(R, 64, BitTerm(R, x, w))
  }

  function TableValues(R: Ring, x: Elem, table: seq<nat>): int -> Elem {
    i => if 0 <= i < |table| then WordValue(R, x, table[i]) else R.zero
  }

  function DictValue(R: Ring, x: Elem, dict: seq<nat>, e: nat): Elem {
    if IndexOf(e) < |dict| then WordValue(R, x, dict[IndexOf(e)]) else R.zero
  }

  /** The entries' words, each under its row's weight. */
  function EntrySum(R: Ring, x: Elem, dict: seq<nat>, weight: int -> Elem, s: seq<nat>): Elem {
    if s == [] then R.zero
    else R.add(EntrySum(R, x, dict, weight, s[..|s| - 1]),
               R.mul(weight(RowOf(s[|s| - 1])), DictValue(R, x, dict, s[|s| - 1])))
  }

  function RowWeight(R: Ring, point: seq<Elem>): int -> Elem {
    row => Eq(R, point, row)
  }

  function LowWeight(R: Ring, lo: seq<Elem>): int -> Elem {
    row => Eq(R, lo, row % 32)
  }

  lemma EntrySumNext(R: Ring, x: Elem, dict: seq<nat>, weight: int -> Elem, s: seq<nat>, e: nat)
    ensures EntrySum(R, x, dict, weight, s + [e])
         == R.add(EntrySum(R, x, dict, weight, s), R.mul(weight(RowOf(e)), DictValue(R, x, dict, e)))
  {
    hide DictValue, RowOf;
    assert (s + [e])[..|s|] == s;
  }

  lemma {:induction false} EntrySumConcat(R: Ring, x: Elem, dict: seq<nat>, weight: int -> Elem, s: seq<nat>, t: seq<nat>)
    requires R.Laws()
    ensures EntrySum(R, x, dict, weight, s + t) == R.add(EntrySum(R, x, dict, weight, s), EntrySum(R, x, dict, weight, t))
    decreases |t|
  {
    hide EntrySum, DictValue, RowOf;
    if t == [] {
      assert s + t == s;
      NoEntries(R, x, dict, weight);
      R.AddZero(EntrySum(R, x, dict, weight, s));
    } else {
      var t', e := t[..|t| - 1], t[|t| - 1];
      EntrySumConcat(R, x, dict, weight, s, t');
      assert s + t == s + t' + [e] && t == t' + [e];
      EntrySumNext(R, x, dict, weight, s + t', e);
      EntrySumNext(R, x, dict, weight, t', e);
      R.AddAssoc(EntrySum(R, x, dict, weight, s), EntrySum(R, x, dict, weight, t'),
                 R.mul(weight(RowOf(e)), DictValue(R, x, dict, e)));
    }
  }

  lemma SplitRow(R: Ring, lo: seq<Elem>, hi: seq<Elem>, row: nat)
    requires R.Laws() && |lo| == LOW_BITS
    ensures Eq(R, lo + hi, row) == R.mul(Eq(R, lo, row % 32), Eq(R, hi, row / 32))
  {
    ThirtyTwo();
    hide Eq, Pow2;
    EqConcat(R, lo, hi, row % 32, row / 32);
    assert row == row % 32 + 32 * (row / 32);
  }

  lemma ThirtyTwo()
    ensures Pow2(5) == 32 && Pow2(4) == 16
  {
    Pow2Values();
  }

  /** One group shares its high weight. */
  lemma {:induction false} GroupFactors(R: Ring, x: Elem, dict: seq<nat>, lo: seq<Elem>, hi: seq<Elem>, s: seq<nat>, g: nat)
    requires R.Laws() && |lo| == LOW_BITS && forall i :: 0 <= i < |s| ==> RowOf(s[i]) / 32 == g
    ensures EntrySum(R, x, dict, RowWeight(R, lo + hi), s) == R.mul(EntrySum(R, x, dict, LowWeight(R, lo), s), Eq(R, hi, g))
    decreases |s|
  {
    hide Eq, DictValue, RowOf;
    var h := Eq(R, hi, g);
    if s == [] {
      R.MulZero(h);
    } else {
      var s', e := s[..|s| - 1], s[|s| - 1];
      GroupFactors(R, x, dict, lo, hi, s', g);
      SplitRow(R, lo, hi, RowOf(e));
      var l, v := Eq(R, lo, RowOf(e) % 32), DictValue(R, x, dict, e);
      R.MulAssoc(l, h, v);
      R.MulComm(h, v);
      R.MulAssoc(l, v, h);
      R.Dist(h, EntrySum(R, x, dict, LowWeight(R, lo), s'), R.mul(l, v));
    }
  }

  function ColumnTerm(R: Ring, x: Elem, table: seq<nat>, rows: nat, c: nat, weight: int -> Elem): int -> Elem {
    r => R.mul(weight(r), TableValues(R, x, table)(c * rows + r))
  }

  lemma {:induction false} ZeroWord(R: Ring, x: Elem)
    requires R.Laws()
    ensures WordValue(R, x, 0) == R.zero
  {
    forall k: nat
      ensures BitTerm(R, x, 0)(k) == R.zero
    {
      ShiftZero(k);
    }
    SumNone(R, 64, BitTerm(R, x, 0));
  }

  /** A column's entries are its whole column. */
  lemma {:induction false} ColumnIsWhole(R: Ring, x: Elem, dict: seq<nat>, table: seq<nat>, rows: nat, c: nat, weight: int -> Elem, n: nat)
    requires R.Laws() && IsDictionary(dict, table) && c * rows + n <= |table|
    ensures EntrySum(R, x, dict, weight, ColumnEntries(dict, table, rows, c, n))
         == Sum(R, n, ColumnTerm(R, x, table, rows, c, weight))
    decreases n
  {
    hide IsDictionary, ColumnEntries, EntrySum, ColumnTerm;
    if n == 0 {
      ColumnNone(R, x, dict, table, rows, c, weight);
    } else {
      ColumnIsWhole(R, x, dict, table, rows, c, weight, n - 1);
      ColumnNext(R, x, dict, table, rows, c, weight, n - 1);
    }
  }

  lemma ColumnNone(R: Ring, x: Elem, dict: seq<nat>, table: seq<nat>, rows: nat, c: nat, weight: int -> Elem)
    ensures EntrySum(R, x, dict, weight, ColumnEntries(dict, table, rows, c, 0)) == R.zero
  {
  }

  /** One more row: a nonzero word adds its entry, a zero word adds nothing. */
  lemma ColumnNext(R: Ring, x: Elem, dict: seq<nat>, table: seq<nat>, rows: nat, c: nat, weight: int -> Elem, r: nat)
    requires R.Laws() && IsDictionary(dict, table) && c * rows + r < |table|
    ensures EntrySum(R, x, dict, weight, ColumnEntries(dict, table, rows, c, r + 1))
         == R.add(EntrySum(R, x, dict, weight, ColumnEntries(dict, table, rows, c, r)), ColumnTerm(R, x, table, rows, c, weight)(r))
  {
    hide IsDictionary, EntryOf, RowOf, IndexOf, WordValue, ColumnEntries, EntrySum;
    var before, w := ColumnEntries(dict, table, rows, c, r), Word(table, rows, c, r);
    NextEntry(dict, table, rows, c, r);
    assert ColumnTerm(R, x, table, rows, c, weight)(r) == R.mul(weight(r), WordValue(R, x, w));
    if w != 0 {
      EntryNames(dict, table, rows, c, r);
      EntrySumNext(R, x, dict, weight, before, EntryOf(dict, table, rows, c, r));
    } else {
      assert before + [] == before;
      ZeroWord(R, x);
      R.MulZero(weight(r));
      R.AddZero(EntrySum(R, x, dict, weight, before));
    }
  }

  // ---- the bits of a word ----------------------------------------------------------------------

  /** `trailing_zeros`. */
  function Trailing(w: nat): nat
    requires w > 0
  {
    if w % 2 == 1 then 0 else 1 + Trailing(w / 2)
  }

  /** w & (w - 1) clears the lowest set bit and no other. */
  lemma {:induction false} LowestBit(w: nat, k: nat)
    requires w > 0
    ensures Bit(w, Trailing(w)) == 1 && And(w, w - 1) < w
    ensures Bit(And(w, w - 1), k) == if k == Trailing(w) then 0 else Bit(w, k)
    decreases w
  {
    if w % 2 == 1 {
      OddClears(w);
      assert And(w, w - 1) == w - 1;
      assert (w - 1) / 2 == w / 2;
    } else {
      LowestBit(w / 2, if k > 0 then k - 1 else 0);
      EvenClears(w);
    }
  }

  lemma OddClears(w: nat)
    requires w % 2 == 1
    ensures And(w, w - 1) == w - 1
  {
    hide And;
    var u := w / 2;
    assert w == 2 * u + 1;
    AndStep(w, u);
    AndSelf(u);
  }

  lemma {:induction false} AndSelf(n: nat)
    ensures And(n, n) == n
    decreases n
  {
    if n > 0 {
      AndSelf(n / 2);
    }
  }

  lemma EvenClears(w: nat)
    requires w > 0 && w % 2 == 0
    ensures And(w, w - 1) == 2 * And(w / 2, w / 2 - 1)
  {
    hide And;
    var u := w / 2;
    assert w == 2 * u;
    AndStep(w, u - 1);
  }

  lemma {:induction false} HighBit(w: nat, k: nat)
    requires w < Pow2(k) && w > 0
    ensures Trailing(w) < k
    decreases w
  {
    if w % 2 == 0 {
      HighBit(w / 2, k - 1);
    }
  }

  function MonoTerm(R: Ring, x: Elem, sums: seq<Elem>): int -> Elem {
    k => if 0 <= k < |sums| then R.mul(Power(R, x, k), sums[k]) else R.zero
  }

  /** `monomial_sum`: sum_k x^k sums[k]. */
  function MonomialSum(R: Ring, x: Elem, sums: seq<Elem>): Elem {
    Sum(R, 64, MonoTerm(R, x, sums))
  }

  /** `now` is `was` with the weight added at the bits of word that w lacks. */
  ghost predicate BitsAdded(R: Ring, was: seq<Elem>, now: seq<Elem>, word: nat, w: nat, weight: Elem) {
    && |was| == |now| == 64
    && (forall k: nat :: Bit(w, k) == 1 ==> Bit(word, k) == 1)
    && forall k :: 0 <= k < 64 ==> now[k] == if Bit(word, k) == 1 && Bit(w, k) == 0 then R.add(was[k], weight) else was[k]
  }

  lemma BitCleared(R: Ring, was: seq<Elem>, now: seq<Elem>, word: nat, w: nat, weight: Elem)
    requires BitsAdded(R, was, now, word, w, weight) && 0 < w < Pow2(64)
    ensures Trailing(w) < 64 && And(w, w - 1) < w
    ensures BitsAdded(R, was, now[Trailing(w) := R.add(now[Trailing(w)], weight)], word, And(w, w - 1), weight)
  {
    HighBit(w, 64);
    LowestBit(w, 0);
    hide Bit, And, Trailing, Pow2;
    forall k: nat
      ensures Bit(And(w, w - 1), k) == if k == Trailing(w) then 0 else Bit(w, k)
    {
      LowestBit(w, k);
    }
  }

  /** The bit loop of one entry. */
  method AddWord(R: Ring, word: nat, weight: Elem, sums: array<Elem>)
    requires sums.Length == 64 && word < Pow2(64)
    modifies sums
    ensures BitsAdded(R, old(sums[..]), sums[..], word, 0, weight)
  {
    hide Bit, And, Pow2, BitsAdded;
    ghost var was := sums[..];
    var w := word;
    NoBitsYet(R, was, word, weight);
    while w != 0
      invariant 0 <= w <= word && BitsAdded(R, was, sums[..], word, w, weight)
      decreases w
    {
      ghost var now := sums[..];
      BitCleared(R, was, now, word, w, weight);
      var k := Trailing(w);
      sums[k] := R.add(sums[k], weight);
      assert sums[..] == now[k := R.add(now[k], weight)];
      w := And(w, w - 1);
    }
  }

  lemma NoBitsYet(R: Ring, was: seq<Elem>, word: nat, weight: Elem)
    requires |was| == 64
    ensures BitsAdded(R, was, was, word, word, weight)
  {
    hide Bit;
  }

  /** A word's bits added in are the weighted word added to the sum. */
  lemma MonomialAdded(R: Ring, x: Elem, was: seq<Elem>, now: seq<Elem>, word: nat, weight: Elem)
    requires R.Laws() && BitsAdded(R, was, now, word, 0, weight)
    ensures MonomialSum(R, x, now) == R.add(MonomialSum(R, x, was), R.mul(weight, WordValue(R, x, word)))
  {
    hide Sum, Bit, Power, BitsAdded;
    var more := k => R.mul(weight, BitTerm(R, x, word)(k));
    forall k | 0 <= k < 64
      ensures MonoTerm(R, x, now)(k) == R.add(MonoTerm(R, x, was)(k), more(k))
    {
      TermAdded(R, x, was, now, word, weight, k);
    }
    SumAdd(R, 64, MonoTerm(R, x, was), more, MonoTerm(R, x, now));
    SumScale(R, 64, weight, BitTerm(R, x, word), more);
  }

  lemma TermAdded(R: Ring, x: Elem, was: seq<Elem>, now: seq<Elem>, word: nat, weight: Elem, k: nat)
    requires R.Laws() && BitsAdded(R, was, now, word, 0, weight) && k < 64
    ensures MonoTerm(R, x, now)(k) == R.add(MonoTerm(R, x, was)(k), R.mul(weight, BitTerm(R, x, word)(k)))
  {
    ShiftZero(k);
    hide Bit, Power;
    var p := Power(R, x, k);
    R.Dist(p, was[k], weight);
    R.MulComm(p, weight);
    R.MulZero(weight);
    R.AddZero(R.mul(p, was[k]));
  }

  // ---- the loops -------------------------------------------------------------------------------

  /** Entries that name rows and words. */
  ghost predicate Good(sp: Sparse, rows: nat) {
    && (forall i :: 0 <= i < |sp.entries| ==> RowOf(sp.entries[i]) < rows && IndexOf(sp.entries[i]) < |sp.dict|)
    && (forall i :: 0 <= i < |sp.dict| ==> sp.dict[i] < Pow2(64))
  }

  /** One group: the entries whose rows share their high bits. */
  method SumGroup(R: Ring, x: Elem, sp: Sparse, ghost rows: nat, lo: seq<Elem>, eqLo: seq<Elem>, start: nat, end: nat)
      returns (sum: Elem, at: nat)
    requires R.Laws() && Good(sp, rows) && |lo| == LOW_BITS && IsKernel(R, lo, eqLo) && start < end <= |sp.entries|
    ensures start < at <= end && forall i :: start <= i < at ==> RowOf(sp.entries[i]) / 32 == RowOf(sp.entries[start]) / 32
    ensures sum == EntrySum(R, x, sp.dict, LowWeight(R, lo), sp.entries[start..at])
  {
    hide EntrySum, IsKernel, Good, MonomialSum, RowOf, IndexOf, BitsAdded, Ring.Laws, LowWeight, Pow2;
    var group := RowOf(sp.entries[start]) / 32;
    var sums := new Elem[64](_ => R.zero);
    EmptySums(R, x, sp.dict, LowWeight(R, lo), sums[..]);
    at := start;
    assert sp.entries[start..at] == [];
    while at < end && RowOf(sp.entries[at]) / 32 == group
      invariant start <= at <= end && fresh(sums) && sums.Length == 64
      invariant at > start || RowOf(sp.entries[at]) / 32 == group
      invariant forall i :: start <= i < at ==> RowOf(sp.entries[i]) / 32 == group
      invariant MonomialSum(R, x, sums[..]) == EntrySum(R, x, sp.dict, LowWeight(R, lo), sp.entries[start..at])
    {
      var entry := sp.entries[at];
      GoodEntry(R, sp, rows, at, lo, eqLo);
      var weight, word := eqLo[RowOf(entry) % 32], sp.dict[IndexOf(entry)];
      ghost var was := sums[..];
      AddWord(R, word, weight, sums);
      MonomialAdded(R, x, was, sums[..], word, weight);
      EntryAdds(R, x, sp, lo, sp.entries[start..at], entry);
      assert sp.entries[start..at + 1] == sp.entries[start..at] + [entry];
      at := at + 1;
    }
    sum := MonomialSum(R, x, sums[..]);
  }

  lemma EmptySums(R: Ring, x: Elem, dict: seq<nat>, weight: int -> Elem, sums: seq<Elem>)
    requires R.Laws() && |sums| == 64 && forall k :: 0 <= k < 64 ==> sums[k] == R.zero
    ensures MonomialSum(R, x, sums) == EntrySum(R, x, dict, weight, [])
  {
    hide Power, Sum;
    forall k | 0 <= k < 64
      ensures MonoTerm(R, x, sums)(k) == R.zero
    {
      R.MulZero(Power(R, x, k));
    }
    SumNone(R, 64, MonoTerm(R, x, sums));
  }

  lemma GoodEntry(R: Ring, sp: Sparse, rows: nat, at: nat, lo: seq<Elem>, eqLo: seq<Elem>)
    requires Good(sp, rows) && at < |sp.entries| && |lo| == LOW_BITS && IsKernel(R, lo, eqLo)
    ensures var e := sp.entries[at];
      && RowOf(e) < rows && IndexOf(e) < |sp.dict| && sp.dict[IndexOf(e)] < Pow2(64)
      && RowOf(e) % 32 < |eqLo| && eqLo[RowOf(e) % 32] == LowWeight(R, lo)(RowOf(e))
  {
    ThirtyTwo();
    hide RowOf, IndexOf, Eq, Pow2;
  }

  lemma EntryAdds(R: Ring, x: Elem, sp: Sparse, lo: seq<Elem>, s: seq<nat>, entry: nat)
    requires IndexOf(entry) < |sp.dict|
    ensures EntrySum(R, x, sp.dict, LowWeight(R, lo), s + [entry])
         == R.add(EntrySum(R, x, sp.dict, LowWeight(R, lo), s),
                  R.mul(LowWeight(R, lo)(RowOf(entry)), WordValue(R, x, sp.dict[IndexOf(entry)])))
  {
    hide EntrySum, WordValue, RowOf, IndexOf, LowWeight;
    EntrySumNext(R, x, sp.dict, LowWeight(R, lo), s, entry);
  }

  /** One column, group by group. */
  method SumColumn(R: Ring, x: Elem, sp: Sparse, ghost rows: nat, lo: seq<Elem>, hi: seq<Elem>, eqLo: seq<Elem>, eqHi: seq<Elem>,
                   start: nat, end: nat) returns (sum: Elem)
    requires R.Laws() && Good(sp, rows) && |lo| == LOW_BITS && IsKernel(R, lo, eqLo) && IsKernel(R, hi, eqHi)
    requires start <= end <= |sp.entries| && rows == 32 * Pow2(|hi|)
    ensures sum == EntrySum(R, x, sp.dict, RowWeight(R, lo + hi), sp.entries[start..end])
  {
    hide EntrySum, IsKernel, Good, RowOf, IndexOf, Ring.Laws, RowWeight, LowWeight, Pow2;
    sum := R.zero;
    var at := start;
    NoEntries(R, x, sp.dict, RowWeight(R, lo + hi));
    assert sp.entries[start..at] == [];
    while at < end
      invariant start <= at <= end
      invariant sum == EntrySum(R, x, sp.dict, RowWeight(R, lo + hi), sp.entries[start..at])
    {
      GoodEntry(R, sp, rows, at, lo, eqLo);
      var group := RowOf(sp.entries[at]) / 32;
      var part, next := SumGroup(R, x, sp, rows, lo, eqLo, at, end);
      GroupFactors(R, x, sp.dict, lo, hi, sp.entries[at..next], group);
      HighWeight(R, hi, eqHi, group);
      EntrySumConcat(R, x, sp.dict, RowWeight(R, lo + hi), sp.entries[start..at], sp.entries[at..next]);
      assert sp.entries[start..next] == sp.entries[start..at] + sp.entries[at..next];
      sum := R.add(sum, R.mul(part, eqHi[group]));
      at := next;
    }
  }

  lemma HighWeight(R: Ring, hi: seq<Elem>, eqHi: seq<Elem>, g: nat)
    requires IsKernel(R, hi, eqHi) && g < Pow2(|hi|)
    ensures g < |eqHi| && eqHi[g] == Eq(R, hi, g)
  {
    hide Eq, Pow2;
  }

  lemma NoEntries(R: Ring, x: Elem, dict: seq<nat>, weight: int -> Elem)
    ensures EntrySum(R, x, dict, weight, []) == R.zero
  {
  }

  // ---- the whole table -------------------------------------------------------------------------

  /** A column's share of the extension. */
  function Share(R: Ring, x: Elem, table: seq<nat>, rows: nat, rowPoint: seq<Elem>, columnPoint: seq<Elem>): int -> Elem {
    c => if c >= 0 then R.mul(Eq(R, columnPoint, c), Sum(R, rows, ColumnTerm(R, x, table, rows, c, RowWeight(R, rowPoint)))) else R.zero
  }

  /** The dense extension, column by column. */
  lemma DenseByColumn(R: Ring, x: Elem, table: seq<nat>, rowPoint: seq<Elem>, columnPoint: seq<Elem>)
    requires R.Laws()
    ensures Mle(R, TableValues(R, x, table), rowPoint + columnPoint)
         == Sum(R, Pow2(|columnPoint|), Share(R, x, table, Pow2(|rowPoint|), rowPoint, columnPoint))
  {
    hide Sum, Eq, TableValues, Pow2;
    var rows, columns, p := Pow2(|rowPoint|), Pow2(|columnPoint|), rowPoint + columnPoint;
    var f := Weighted(R, TableValues(R, x, table), p);
    Pow2Add(|rowPoint|, |columnPoint|);
    assert rows * columns == columns * rows;
    SumBlocks(R, columns, rows, f);
    forall c: nat | c < columns
      ensures Block(R, rows, f)(c) == Share(R, x, table, rows, rowPoint, columnPoint)(c)
    {
      OneBlock(R, x, table, rowPoint, columnPoint, c);
    }
    SumEq(R, columns, Block(R, rows, f), Share(R, x, table, rows, rowPoint, columnPoint));
  }

  lemma OneBlock(R: Ring, x: Elem, table: seq<nat>, rowPoint: seq<Elem>, columnPoint: seq<Elem>, c: nat)
    requires R.Laws()
    ensures Block(R, Pow2(|rowPoint|), Weighted(R, TableValues(R, x, table), rowPoint + columnPoint))(c)
         == Share(R, x, table, Pow2(|rowPoint|), rowPoint, columnPoint)(c)
  {
    hide Sum, Eq, TableValues, Pow2;
    var rows, e := Pow2(|rowPoint|), Eq(R, columnPoint, c);
    var f := Weighted(R, TableValues(R, x, table), rowPoint + columnPoint);
    var t := ColumnTerm(R, x, table, rows, c, RowWeight(R, rowPoint));
    var h := i => f(rows * c + i);
    forall i: int | 0 <= i < rows
      ensures h(i) == R.mul(e, t(i))
    {
      EqConcat(R, rowPoint, columnPoint, i, c);
      assert rows * c + i == i + rows * c && c * rows + i == rows * c + i;
      var w, v := Eq(R, rowPoint, i), TableValues(R, x, table)(c * rows + i);
      R.MulComm(w, e);
      R.MulAssoc(e, w, v);
    }
    SumScale(R, rows, e, t, h);
    SumEq(R, rows, h, i => f(rows * c + i));
  }

  /** An encoded table's entries are good ones. */
  lemma EncodedIsGood(sp: Sparse, table: seq<nat>, rows: nat, columns: nat)
    requires Encodes(sp, table, rows, columns) && columns * rows == |table| && forall i :: 0 <= i < |table| ==> table[i] < Pow2(64)
    ensures Good(sp, rows)
  {
    hide ColumnEntries, RowOf, IndexOf, Pow2;
    forall i | 0 <= i < |sp.dict|
      ensures sp.dict[i] < Pow2(64)
    {
      assert sp.dict[i] in sp.dict;
      assert sp.dict[i] in table;
    }
    forall i | 0 <= i < |sp.entries|
      ensures RowOf(sp.entries[i]) < rows && IndexOf(sp.entries[i]) < |sp.dict|
    {
      var c := InColumn(sp, table, rows, columns, i, columns);
      assert ColumnIs(sp, table, rows, c);
      EntriesGood(sp.dict, table, rows, c, rows, i - sp.starts[c]);
    }
  }

  /** Which column an entry lies in. */
  lemma {:induction false} InColumn(sp: Sparse, table: seq<nat>, rows: nat, columns: nat, i: nat, k: nat) returns (c: nat)
    requires Encodes(sp, table, rows, columns) && k <= columns && sp.starts[0] <= i < sp.starts[k]
    ensures c < k && sp.starts[c] <= i < sp.starts[c + 1]
    decreases k
  {
    hide SparseTable.Column;
    if i >= sp.starts[k - 1] {
      c := k - 1;
    } else {
      c := InColumn(sp, table, rows, columns, i, k - 1);
    }
  }

  lemma {:induction false} EntriesGood(dict: seq<nat>, table: seq<nat>, rows: nat, c: nat, n: nat, i: nat)
    requires IsDictionary(dict, table) && i < |ColumnEntries(dict, table, rows, c, n)|
    ensures RowOf(ColumnEntries(dict, table, rows, c, n)[i]) < n && IndexOf(ColumnEntries(dict, table, rows, c, n)[i]) < |dict|
    decreases n
  {
    if n > 0 {
      var before := ColumnEntries(dict, table, rows, c, n - 1);
      NextEntry(dict, table, rows, c, n - 1);
      hide ColumnEntries, RowOf, IndexOf, EntryOf, IsDictionary;
      if i < |before| {
        EntriesGood(dict, table, rows, c, n - 1, i);
      } else {
        EntryNames(dict, table, rows, c, n - 1);
      }
    }
  }

  /** `evaluate`: the sparse evaluation is the dense multilinear extension at every point; other
      sizes are refused. */
  method Evaluate(R: Ring, x: Elem, sp: Sparse, ghost table: seq<nat>, logLen: nat, point: seq<Elem>) returns (ok: bool, total: Elem)
    requires R.Laws() && |table| == Pow2(logLen) && forall i :: 0 <= i < |table| ==> table[i] < Pow2(64)
    requires logLen >= BUS_BITS ==> Encodes(sp, table, Pow2(logLen - BUS_BITS), 16)
    ensures ok <==> |point| == logLen && BUS_BITS + LOW_BITS <= logLen <= BUS_BITS + 2 * LOW_BITS + 1
    ensures ok ==> total == Mle(R, TableValues(R, x, table), point)
  {
    hide Sum, Eq, Pow2, Encodes, IsKernel, Good, EntrySum, Ring.Laws, RowWeight, LowWeight, Mle, Share, TableValues;
    total := R.zero;
    ok := |point| == logLen && BUS_BITS + LOW_BITS <= logLen && logLen - BUS_BITS <= 2 * LOW_BITS + 1;
    if !ok {
      return;
    }
    var rowsLog := logLen - BUS_BITS;
    ghost var rows := Pow2(rowsLog);
    var rowPoint, columnPoint := point[..rowsLog], point[rowsLog..];
    var lo, hi := rowPoint[..LOW_BITS], rowPoint[LOW_BITS..];
    ThirtyTwo();
    Pow2Add(rowsLog, 4);
    Pow2Add(5, rowsLog - 5);
    var eqLo := new Elem[32](_ => R.zero);
    EqKernel(R, lo, eqLo);
    var eqHi := new Elem[Pow2(rowsLog - LOW_BITS)](_ => R.zero);
    EqKernel(R, hi, eqHi);
    ghost var share := Share(R, x, table, rows, rowPoint, columnPoint);
    var kl, kh := eqLo[..], eqHi[..];
    assert 16 * rows == |table|;
    EncodedIsGood(sp, table, rows, 16);
    EncodedSize(sp, table, rows);
    NoShares(R, share);
    assert rowPoint == lo + hi && point == rowPoint + columnPoint;
    var c := 0;
    while c < 16
      invariant 0 <= c <= 16 && total == Sum(R, c, share)
    {
      EncodedColumn(R, x, sp, table, rows, c, rowPoint, columnPoint);
      var start, end := sp.starts[c], sp.starts[c + 1];
      if start != end {
        var sum := SumColumn(R, x, sp, rows, lo, hi, kl, kh, start, end);
        total := R.add(total, R.mul(Eq(R, columnPoint, c), sum));
      } else {
        NoEntries(R, x, sp.dict, RowWeight(R, rowPoint));
        assert sp.entries[start..end] == [];
        R.MulZero(Eq(R, columnPoint, c));
        R.AddZero(total);
      }
      NextShare(R, share, c);
      c := c + 1;
    }
    DenseByColumn(R, x, table, rowPoint, columnPoint);
  }

  lemma EncodedSize(sp: Sparse, table: seq<nat>, rows: nat)
    requires Encodes(sp, table, rows, 16)
    ensures |sp.starts| == 17
  {
  }

  /** One column's entries give its share. */
  lemma EncodedColumn(R: Ring, x: Elem, sp: Sparse, table: seq<nat>, rows: nat, c: nat, rowPoint: seq<Elem>, columnPoint: seq<Elem>)
    requires R.Laws() && Encodes(sp, table, rows, 16) && c < 16 && 16 * rows == |table|
    ensures |sp.starts| == 17 && sp.starts[c] <= sp.starts[c + 1] <= |sp.entries|
    ensures Share(R, x, table, rows, rowPoint, columnPoint)(c)
         == R.mul(Eq(R, columnPoint, c), EntrySum(R, x, sp.dict, RowWeight(R, rowPoint), sp.entries[sp.starts[c]..sp.starts[c + 1]]))
  {
    hide Sum, Eq, EntrySum, ColumnEntries, RowWeight, ColumnTerm;
    assert ColumnIs(sp, table, rows, c);
    assert c * rows + rows <= 16 * rows by {
      assert (16 - c - 1) * rows >= 0;
    }
    ColumnIsWhole(R, x, sp.dict, table, rows, c, RowWeight(R, rowPoint), rows);
  }

  lemma NoShares(R: Ring, t: int -> Elem)
    ensures Sum(R, 0, t) == R.zero
  {
  }

  lemma NextShare(R: Ring, t: int -> Elem, c: nat)
    ensures Sum(R, c + 1, t) == R.add(Sum(R, c, t), t(c))
  {
  }
}
