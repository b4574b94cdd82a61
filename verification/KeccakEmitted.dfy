/** The permutation the generator emits (gen_asm.py's `gen_keccakf`): rounds on the interleaved
    state, row halves in the order that reloads the fewest D words, between the caller's state and
    one on the stack, which change places after each round. */
module KeccakEmitted {
  import opened Interleave
  import opened KeccakRounds
  import opened KeccakPermute

  function ConstantAt(rc: seq<Word>, k: int): Lane
    requires 0 <= k < |rc| / 2
  {
    Weave(rc[2 * k], rc[2 * k + 1])
  }

  /** The lanes whose halves a table of constants holds, even half first. */
  function Constants(rc: seq<Word>): (c: seq<Lane>)
    ensures |c| == |rc| / 2 && forall k :: 0 <= k < |c| ==> c[k] == ConstantAt(rc, k)
  {
    seq(|rc| / 2, k requires 0 <= k < |rc| / 2 => ConstantAt(rc, k))
  }

  /** The (row, half) emitted k-th. */
  function RowOrder(k: nat): (t: (nat, nat))
    ensures t.0 < 5 && t.1 < 2
  {
    if k == 0 then (1, 1) else if k == 1 then (2, 0) else if k == 2 then (0, 0) else if k == 3 then (3, 1)
    else if k == 4 then (4, 0) else if k == 5 then (0, 1) else if k == 6 then (2, 1) else if k == 7 then (3, 0)
    else if k == 8 then (1, 0) else (4, 1)
  }

  /** When row y, half h is emitted. */
  function RowTurn(y: nat, h: nat): (k: nat)
    requires y < 5 && h < 2
    ensures k < 10 && RowOrder(k) == (y, h)
  {
    if y == 0 then (if h == 0 then 2 else 5)
    else if y == 1 then (if h == 0 then 8 else 0)
    else if y == 2 then (if h == 0 then 1 else 6)
    else if y == 3 then (if h == 0 then 7 else 3)
    else (if h == 0 then 4 else 9)
  }

  /** The constants row 0's halves have read before the k-th row half. */
  function Consumed(k: nat): nat {
    if k <= 2 then 0 else if k <= 5 then 1 else 2
  }

  /** The parity of word w of the first n rows. */
  function Upto(s: Halves, w: nat, n: nat): Word
    requires w < 10 && 1 <= n <= 5
  {
    if n == 1 then s[w] else XorBits(Upto(s, w, n - 1), s[10 * (n - 1) + w])
  }

  lemma UptoAll(s: Halves, w: nat)
    requires w < 10
    ensures Upto(s, w, 5) == Parity(s, w)
  {
    hide XorBits;
    assert Upto(s, w, 2) == XorBits(s[w], s[10 + w]);
    assert Upto(s, w, 3) == XorBits(XorBits(s[w], s[10 + w]), s[20 + w]);
    assert Upto(s, w, 4) == XorBits(Upto(s, w, 3), s[30 + w]);
  }

  method ColumnParities(src: array<Word>) returns (c: array<Word>)
    requires src.Length == 50
    ensures fresh(c) && c.Length == 10
    ensures forall w :: 0 <= w < 10 ==> c[w] == Parity(src[..], w)
  {
    hide XorBits, Parity;
    c := new Word[10](w requires 0 <= w < 10 reads src => src[w]);
    for y := 1 to 5
      invariant forall w :: 0 <= w < 10 ==> c[w] == Upto(src[..], w, y)
    {
      for w := 0 to 10
        invariant forall k :: 0 <= k < 10 ==> c[k] == Upto(src[..], k, if k < w then y + 1 else y)
      {
        c[w] := XorBits(c[w], src[10 * y + w]);
      }
    }
    forall w | 0 <= w < 10
      ensures c[w] == Parity(src[..], w)
    {
      UptoAll(src[..], w);
    }
  }

  lemma DWordFrom(s: Halves, c: seq<Word>, x: nat)
    requires |c| == 10 && x < 5 && forall w :: 0 <= w < 10 ==> c[w] == Parity(s, w)
    ensures DWord(s, x, 0) == XorBits(c[2 * ((x + 4) % 5)], Rotl(c[2 * ((x + 1) % 5) + 1], 1))
    ensures DWord(s, x, 1) == XorBits(c[2 * ((x + 4) % 5) + 1], c[2 * ((x + 1) % 5)])
  {
    hide XorBits, Rotl, Parity;
  }

  method DTable(src: array<Word>, c: array<Word>) returns (d: array<Word>)
    requires src.Length == 50 && c.Length == 10
    requires forall w :: 0 <= w < 10 ==> c[w] == Parity(src[..], w)
    ensures fresh(d) && d.Length == 10
    ensures forall x, h :: 0 <= x < 5 && 0 <= h < 2 ==> d[2 * x + h] == DWord(src[..], x, h)
  {
    hide XorBits, Rotl, Parity, DWord;
    ghost var s := src[..];
    d := new Word[10](_ => Clear(32));
    for x := 0 to 5
      invariant forall k :: 0 <= k < x ==> d[2 * k] == DWord(s, k, 0) && d[2 * k + 1] == DWord(s, k, 1)
    {
      DWordFrom(s, c[..], x);
      d[2 * x] := XorBits(c[2 * ((x + 4) % 5)], Rotl(c[2 * ((x + 1) % 5) + 1], 1));
      d[2 * x + 1] := XorBits(c[2 * ((x + 4) % 5) + 1], c[2 * ((x + 1) % 5)]);
    }
  }

  /** Where word (x, y, h) is stored. */
  function Slot(x: nat, y: nat, h: nat): nat {
    2 * (x + 5 * y) + h
  }

  method RowWords(src: array<Word>, d: array<Word>, y: nat, h: nat) returns (b: array<Word>)
    requires src.Length == 50 && d.Length == 10 && y < 5 && h < 2
    requires forall x, i :: 0 <= x < 5 && 0 <= i < 2 ==> d[2 * x + i] == DWord(src[..], x, i)
    ensures fresh(b) && b.Length == 5
    ensures forall x :: 0 <= x < 5 ==> b[x] == RowWord(src[..], x, y, h)
  {
    hide XorBits, Rotl, DWord, Source;
    b := new Word[5](_ => Clear(32));
    for x := 0 to 5
      invariant forall k :: 0 <= k < x ==> b[k] == RowWord(src[..], k, y, h)
    {
      var (i, sh, rot) := Source(x, y, h);
      b[x] := Rotl(XorBits(src[2 * i + sh], d[2 * (i % 5) + sh]), rot);
    }
  }

  /** The word chi and iota store at x from a row's five words. */
  function ChiWord(b: seq<Word>, c: Word, x: nat, y: nat): Word
    requires |b| == 5 && x < 5
  {
    var t := XorBits(AndBits(b[(x + 2) % 5], NotBits(b[(x + 1) % 5])), b[x]);
    if x == 0 && y == 0 then XorBits(t, c) else t
  }

  /** Which words of a row the first j steps have stored: row 0 ends with x = 0, for the round
      constant. */
  predicate Stored(x: nat, y: nat, j: nat) {
    if y == 0 then (if x == 0 then j >= 5 else x - 1 < j) else x < j
  }

  lemma SlotRow(x: nat, y: nat, h: nat)
    requires x < 5 && y < 5 && h < 2
    ensures Slot(x, y, h) < 50 && Slot(x, y, h) / 10 == y && Slot(x, y, h) % 2 == h
  {
  }

  method StoreRow(b: array<Word>, dst: array<Word>, y: nat, h: nat, rc: seq<Word>, p: nat, ghost c: Word) returns (q: nat)
    requires b.Length == 5 && dst.Length == 50 && dst != b && y < 5 && h < 2
    requires y == 0 ==> p < |rc| && c == rc[p]
    modifies dst
    ensures q == if y == 0 then p + 1 else p
    ensures forall x :: 0 <= x < 5 ==> dst[Slot(x, y, h)] == ChiWord(b[..], c, x, y)
    ensures forall j :: 0 <= j < 50 && (j / 10 != y || j % 2 != h) ==> dst[j] == old(dst[j])
  {
    hide XorBits, AndBits, NotBits;
    q := p;
    ghost var row, was := b[..], dst[..];
    for j := 0 to 5
      invariant b[..] == row && q == if y == 0 && j == 5 then p + 1 else p
      invariant forall x :: 0 <= x < 5 && Stored(x, y, j) ==> dst[Slot(x, y, h)] == ChiWord(row, c, x, y)
      invariant forall k :: 0 <= k < 50 && (k / 10 != y || k % 2 != h) ==> dst[k] == was[k]
    {
      var x := if y == 0 then (j + 1) % 5 else j;
      var t := AndBits(b[(x + 2) % 5], NotBits(b[(x + 1) % 5]));
      t := XorBits(t, b[x]);
      if y == 0 && x == 0 {
        t := XorBits(t, rc[q]);
        q := q + 1;
      }
      SlotRow(x, y, h);
      dst[Slot(x, y, h)] := t;
    }
  }

  method RowHalf(src: array<Word>, d: array<Word>, dst: array<Word>, y: nat, h: nat, rc: seq<Word>, p: nat, ghost c: Word)
    returns (q: nat)
    requires src.Length == dst.Length == 50 && d.Length == 10 && dst != src && dst != d && y < 5 && h < 2
    requires forall x, i :: 0 <= x < 5 && 0 <= i < 2 ==> d[2 * x + i] == DWord(src[..], x, i)
    requires y == 0 ==> p < |rc| && c == rc[p]
    modifies dst
    ensures q == if y == 0 then p + 1 else p
    ensures forall x :: 0 <= x < 5 ==> dst[Slot(x, y, h)] == RoundWord(src[..], c, x, y, h)
    ensures forall j :: 0 <= j < 50 && (j / 10 != y || j % 2 != h) ==> dst[j] == old(dst[j])
  {
    hide XorBits, AndBits, NotBits, DWord, RowWord, ChiWord, RoundWord;
    var b := RowWords(src, d, y, h);
    ghost var s, row := src[..], b[..];
    forall x | 0 <= x < 5
      ensures ChiWord(row, c, x, y) == RoundWord(s, c, x, y, h)
    {
      ChiRound(s, row, c, x, y, h);
    }
    q := StoreRow(b, dst, y, h, rc, p, c);
  }

  lemma ChiRound(s: Halves, b: seq<Word>, c: Word, x: nat, y: nat, h: nat)
    requires |b| == 5 && x < 5 && y < 5 && h < 2 && forall k :: 0 <= k < 5 ==> b[k] == RowWord(s, k, y, h)
    ensures ChiWord(b, c, x, y) == RoundWord(s, c, x, y, h)
  {
    hide XorBits, AndBits, NotBits, RowWord;
  }

  /** The row halves emitted before the k-th are in place. */
  ghost predicate RowsDone(s: Halves, t: Halves, c0: Word, c1: Word, k: nat) {
    forall x, y, h {:trigger RoundAt(s, t, c0, c1, x, y, h)} :: 0 <= x < 5 && 0 <= y < 5 && 0 <= h < 2 && RowTurn(y, h) < k ==>
      RoundAt(s, t, c0, c1, x, y, h)
  }

  lemma RowsNext(s: Halves, t: Halves, u: Halves, c0: Word, c1: Word, k: nat, y: nat, h: nat)
    requires k < 10 && (y, h) == RowOrder(k) && RowsDone(s, t, c0, c1, k)
    requires forall x :: 0 <= x < 5 ==> u[Slot(x, y, h)] == RoundWord(s, if h == 0 then c0 else c1, x, y, h)
    requires forall j :: 0 <= j < 50 && (j / 10 != y || j % 2 != h) ==> u[j] == t[j]
    ensures RowsDone(s, u, c0, c1, k + 1)
  {
    hide RoundWord, RowOrder, RowTurn;
    forall x, z, i | 0 <= x < 5 && 0 <= z < 5 && 0 <= i < 2 && RowTurn(z, i) < k + 1
      ensures RoundAt(s, u, c0, c1, x, z, i)
    {
      SlotRow(x, z, i);
      if RowTurn(z, i) < k {
        assert RoundAt(s, t, c0, c1, x, z, i);
        OtherTurn(k, z, i);
      } else {
        assert (z, i) == (y, h);
        assert u[Slot(x, y, h)] == RoundWord(s, if h == 0 then c0 else c1, x, y, h);
      }
    }
  }

  lemma OtherTurn(k: nat, y: nat, h: nat)
    requires k < 10 && y < 5 && h < 2 && RowTurn(y, h) < k
    ensures RowOrder(k) != (y, h)
  {
  }

  lemma ConstantNext(k: nat)
    requires k < 10
    ensures RowOrder(k).0 == 0 ==> Consumed(k) == RowOrder(k).1
    ensures Consumed(k + 1) == if RowOrder(k).0 == 0 then Consumed(k) + 1 else Consumed(k)
  {
  }

  method EmittedRound(src: array<Word>, dst: array<Word>, rc: seq<Word>, p: nat) returns (q: nat)
    requires src.Length == dst.Length == 50 && dst != src && p + 2 <= |rc|
    modifies dst
    ensures q == p + 2
    ensures IsRound(src[..], rc[p], rc[p + 1], dst[..])
  {
    hide Parity, DWord, RoundWord, RoundAt, RowOrder, RowTurn, Consumed;
    var c := ColumnParities(src);
    var d := DTable(src, c);
    ghost var s, c0, c1 := src[..], rc[p], rc[p + 1];
    q := p;
    NoneConsumed();
    for k := 0 to 10
      invariant q == p + Consumed(k)
      invariant forall x, i :: 0 <= x < 5 && 0 <= i < 2 ==> d[2 * x + i] == DWord(s, x, i)
      invariant RowsDone(s, dst[..], c0, c1, k)
    {
      hide RowsDone;
      var (y, h) := RowOrder(k);
      ghost var was := dst[..];
      ConstantNext(k);
      q := RowHalf(src, d, dst, y, h, rc, q, if h == 0 then c0 else c1);
      RowsNext(s, was, dst[..], c0, c1, k, y, h);
    }
  }

  lemma NoneConsumed()
    ensures Consumed(0) == 0 && Consumed(10) == 2
  {
  }

  // ---- the loop over the rounds ------------------------------------------------------------------

  /** The plain words an interleaved state stands for. */
  function Plain(s: Halves): Halves {
    WordsOf(WovenLanes(s))
  }

  lemma PlainIs(s: Halves, p: Halves)
    requires Weaves(s, LanesOf(p))
    ensures Plain(s) == p
  {
    hide Weaves, WovenLanes, WordsOf, LanesOf;
    WeavesUnique(s, LanesOf(p));
    WordsOfLanes(p);
  }

  lemma PlainWeaves(s: Halves)
    ensures Weaves(s, LanesOf(Plain(s)))
  {
    hide Weaves, WovenLanes, WordsOf, LanesOf;
    WovenWeaves(s);
    LanesOfWords(WovenLanes(s));
  }

  lemma RoundNext(s: Halves, t: Halves, a: Lanes, rc: seq<Word>, p: nat, n: nat)
    requires p == 2 * n && p + 2 <= |rc| && Weaves(s, Rounds(a, Constants(rc), n)) && IsRound(s, rc[p], rc[p + 1], t)
    ensures Weaves(t, Rounds(a, Constants(rc), n + 1))
  {
    hide Weaves, IsRound, Weave, Round, Half;
    var c := Constants(rc)[n];
    assert c == ConstantAt(rc, n);
    RoundAgrees(s, Rounds(a, Constants(rc), n), c, t);
  }

  /** keccakf1600_asm: every round of the table, two at a time between the two states, so that
      the result is in the caller's. */
  method PermuteEmitted(s: array<Word>, rc: seq<Word>)
    requires s.Length == 50 && |rc| == 48
    modifies s
    ensures Plain(s[..]) == WordsOf(Rounds(LanesOf(Plain(old(s[..]))), Constants(rc), 24))
  {
    hide Weaves, WovenLanes, WordsOf, LanesOf, Rounds, IsRound, Constants;
    ghost var a := LanesOf(Plain(s[..]));
    PlainWeaves(s[..]);
    NoRounds(a, Constants(rc));
    var buffer := new Word[50](_ => Clear(32));
    var rs, rd, p := s, buffer, 0;
    while true
      invariant 0 <= p < 48 && p % 2 == 0
      invariant rs.Length == rd.Length == 50
      invariant if p % 4 == 0 then rs == s && rd == buffer else rs == buffer && rd == s
      invariant Weaves(rs[..], Rounds(a, Constants(rc), p / 2))
      decreases 48 - p
    {
      ghost var was := rs[..];
      var q := EmittedRound(rs, rd, rc, p);
      RoundNext(was, rd[..], a, rc, p, p / 2);
      rs, rd, p := rd, rs, q;
      if p == |rc| {
        break;
      }
    }
    ghost var r := Rounds(a, Constants(rc), 24);
    LanesOfWords(r);
    PlainIs(s[..], WordsOf(r));
  }

  lemma NoRounds(a: Lanes, rc: seq<Lane>)
    ensures Rounds(a, rc, 0) == a
  {
  }
}
