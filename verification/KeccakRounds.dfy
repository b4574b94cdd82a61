/** One round of Keccak-f[1600] (section 3.3 of FIPS 202) on plain lanes (keccak.c's portable code)
    and as the generator emits it on the interleaved state (gen_asm.py), and the whole
    permutation of either kind. */
module KeccakRounds {
  import opened KeccakLinear
  import opened Interleave

  /** 25 lanes, lane x + 5y; 50 words, word 2 * lane + half. */
  type Lanes = s: seq<Lane> | |s| == 25 witness seq(25, _ => Clear(64))

  type Halves = s: seq<Word> | |s| == 50 witness seq(50, _ => Clear(32))

  /** The interleaved form of 25 lanes. */
  ghost predicate Weaves(s: Halves, a: Lanes) {
    forall i, h {:trigger Half(a[i], h)} :: 0 <= i < 25 && 0 <= h < 2 ==> s[2 * i + h] == Half(a[i], h)
  }

  // ---- a plain round ---------------------------------------------------------------------------

  function RowsXor(a: Lanes, x: nat): Lane
    requires x < 5
  {
    XorBits(XorBits(XorBits(XorBits(a[x], a[x + 5]), a[x + 10]), a[x + 15]), a[x + 20])
  }

  /** What theta adds to the lanes of column x. */
  function Diffusion(a: Lanes, x: nat): Lane
    requires x < 5
  {
    XorBits(RowsXor(a, (x + 4) % 5), Rotl(RowsXor(a, (x + 1) % 5), 1))
  }

  /** The lane that lands at (x, y). */
  function SourceLane(x: nat, y: nat): (i: nat)
    requires x < 5 && y < 5
    ensures i < 25 && i % 5 == (3 * y + x) % 5
  {
    (3 * y + x) % 5 + 5 * x
  }

  /** Theta, rho and pi: the lane at (x, y). */
  function Moved(a: Lanes, x: nat, y: nat): Lane
    requires x < 5 && y < 5
  {
    var i := SourceLane(x, y);
    Rotl(XorBits(a[i], Diffusion(a, i % 5)), Rho(i))
  }

  function Chi(b0: Lane, b1: Lane, b2: Lane): Lane
  {
    XorBits(b0, AndBits(NotBits(b1), b2))
  }

  function RoundLane(a: Lanes, rc: Lane, x: nat, y: nat): Lane
    requires x < 5 && y < 5
  {
    var b := Chi(Moved(a, x, y), Moved(a, (x + 1) % 5, y), Moved(a, (x + 2) % 5, y));
    if x == 0 && y == 0 then XorBits(b, rc) else b
  }

  function Round(a: Lanes, rc: Lane): (r: Lanes)
    ensures forall i :: 0 <= i < 25 ==> r[i] == RoundLane(a, rc, i % 5, i / 5)
  {
    seq(25, i requires 0 <= i < 25 => RoundLane(a, rc, i % 5, i / 5))
  }

  lemma RoundIs(a: Lanes, rc: Lane, x: nat, y: nat)
    requires x < 5 && y < 5
    ensures Round(a, rc)[x + 5 * y] == RoundLane(a, rc, x, y)
  {
    hide RoundLane, Round;
    var i := x + 5 * y;
    assert i % 5 == x && i / 5 == y;
  }

  function Rounds(a: Lanes, rc: seq<Lane>, n: nat): Lanes
    requires n <= |rc|
  {
    if n == 0 then a else Round(Rounds(a, rc, n - 1), rc[n - 1])
  }

  // ---- an emitted round ------------------------------------------------------------------------

  /** The parity of word w of the rows, w = 2x + h. */
  function Parity(s: Halves, w: nat): Word
    requires w < 10
  {
    XorBits(XorBits(XorBits(XorBits(s[w], s[10 + w]), s[20 + w]), s[30 + w]), s[40 + w])
  }

  /** D[x].e = C[x-1].e ^ rotl(C[x+1].o, 1), D[x].o = C[x-1].o ^ C[x+1].e. */
  function DWord(s: Halves, x: nat, h: nat): Word
    requires x < 5 && h < 2
  {
    if h == 0 then XorBits(Parity(s, 2 * ((x + 4) % 5)), Rotl(Parity(s, 2 * ((x + 1) % 5) + 1), 1))
    else XorBits(Parity(s, 2 * ((x + 4) % 5) + 1), Parity(s, 2 * ((x + 1) % 5)))
  }

  /** keccak_source: the lane, half and rotation that word (x, y, h) of rho-pi comes from. */
  function Source(x: nat, y: nat, h: nat): (t: (nat, nat, nat))
    requires x < 5 && y < 5 && h < 2
    ensures t.0 < 25 && t.1 < 2 && t.2 <= 32
  {
    var i := SourceLane(x, y);
    var r := Rho(i);
    if r % 2 == 0 then (i, h, r / 2) else if h == 0 then (i, 1, (r + 1) / 2) else (i, 0, (r - 1) / 2)
  }

  function RowWord(s: Halves, x: nat, y: nat, h: nat): Word
    requires x < 5 && y < 5 && h < 2
  {
    var (i, sh, rot) := Source(x, y, h);
    Rotl(XorBits(s[2 * i + sh], DWord(s, i % 5, sh)), rot)
  }

  function RoundWord(s: Halves, c: Word, x: nat, y: nat, h: nat): Word
    requires x < 5 && y < 5 && h < 2
  {
    var t := XorBits(AndBits(RowWord(s, (x + 2) % 5, y, h), NotBits(RowWord(s, (x + 1) % 5, y, h))), RowWord(s, x, y, h));
    if x == 0 && y == 0 then XorBits(t, c) else t
  }

  ghost predicate RoundAt(s: Halves, t: Halves, c0: Word, c1: Word, x: nat, y: nat, h: nat)
    requires x < 5 && y < 5 && h < 2
  {
    t[2 * (x + 5 * y) + h] == RoundWord(s, if h == 0 then c0 else c1, x, y, h)
  }

  ghost predicate IsRound(s: Halves, c0: Word, c1: Word, t: Halves) {
    forall x, y, h {:trigger RoundAt(s, t, c0, c1, x, y, h)} :: 0 <= x < 5 && 0 <= y < 5 && 0 <= h < 2 ==>
      RoundAt(s, t, c0, c1, x, y, h)
  }

  // ---- they agree ------------------------------------------------------------------------------

  lemma WeavesAt(s: Halves, a: Lanes, i: nat, h: nat)
    requires Weaves(s, a) && i < 25 && h < 2
    ensures s[2 * i + h] == Half(a[i], h)
  {
  }

  lemma ParityIs(s: Halves, a: Lanes, x: nat, h: nat)
    requires Weaves(s, a) && x < 5 && h < 2
    ensures Parity(s, 2 * x + h) == Half(RowsXor(a, x), h)
  {
    hide Weaves, Half, XorBits;
    WeavesAt(s, a, x, h);
    WeavesAt(s, a, x + 5, h);
    WeavesAt(s, a, x + 10, h);
    WeavesAt(s, a, x + 15, h);
    WeavesAt(s, a, x + 20, h);
    var p1 := XorBits(a[x], a[x + 5]);
    var p2 := XorBits(p1, a[x + 10]);
    var p3 := XorBits(p2, a[x + 15]);
    HalfXor(a[x], a[x + 5], h);
    HalfXor(p1, a[x + 10], h);
    HalfXor(p2, a[x + 15], h);
    HalfXor(p3, a[x + 20], h);
  }

  lemma EvenDWord(s: Halves, a: Lanes, x: nat)
    requires Weaves(s, a) && x < 5
    ensures DWord(s, x, 0) == Half(Diffusion(a, x), 0)
  {
    hide Weaves, Half, XorBits, Rotl, Parity, RowsXor;
    var l, r := (x + 4) % 5, (x + 1) % 5;
    ParityIs(s, a, l, 0);
    ParityIs(s, a, r, 1);
    HalfXor(RowsXor(a, l), Rotl(RowsXor(a, r), 1), 0);
    HalfRotl(RowsXor(a, r), 1, 0);
  }

  lemma OddDWord(s: Halves, a: Lanes, x: nat)
    requires Weaves(s, a) && x < 5
    ensures DWord(s, x, 1) == Half(Diffusion(a, x), 1)
  {
    hide Weaves, Half, XorBits, Rotl, Parity, RowsXor;
    var l, r := (x + 4) % 5, (x + 1) % 5;
    ParityIs(s, a, l, 1);
    ParityIs(s, a, r, 0);
    HalfXor(RowsXor(a, l), Rotl(RowsXor(a, r), 1), 1);
    HalfRotl(RowsXor(a, r), 1, 1);
    NoTurn(Half(RowsXor(a, r), 0));
  }

  lemma DWordIs(s: Halves, a: Lanes, x: nat, h: nat)
    requires Weaves(s, a) && x < 5 && h < 2
    ensures DWord(s, x, h) == Half(Diffusion(a, x), h)
  {
    hide Weaves, Half, DWord, Diffusion;
    EvenDWord(s, a, x);
    OddDWord(s, a, x);
  }

  lemma NoTurn(w: Word)
    ensures Rotl(w, 0) == w
  {
  }

  lemma RowWordIs(s: Halves, a: Lanes, x: nat, y: nat, h: nat)
    requires Weaves(s, a) && x < 5 && y < 5 && h < 2
    ensures RowWord(s, x, y, h) == Half(Moved(a, x, y), h)
  {
    hide Weaves, Half, XorBits, Rotl, DWord, Diffusion, Rho, SourceLane;
    var (i, sh, rot) := Source(x, y, h);
    RhoBound(i);
    DWordIs(s, a, i % 5, sh);
    WeavesAt(s, a, i, sh);
    HalfXor(a[i], Diffusion(a, i % 5), sh);
    HalfRotl(XorBits(a[i], Diffusion(a, i % 5)), Rho(i), h);
  }

  lemma XorComm(a: seq<bool>, b: seq<bool>)
    requires |a| == |b|
    ensures XorBits(a, b) == XorBits(b, a)
  {
  }

  lemma AndComm(a: seq<bool>, b: seq<bool>)
    requires |a| == |b|
    ensures AndBits(a, b) == AndBits(b, a)
  {
  }

  lemma ChiIs(b0: Lane, b1: Lane, b2: Lane, h: nat)
    requires h < 2
    ensures Half(Chi(b0, b1, b2), h) == XorBits(AndBits(Half(b2, h), NotBits(Half(b1, h))), Half(b0, h))
  {
    hide Half, XorBits, AndBits, NotBits;
    HalfXor(b0, AndBits(NotBits(b1), b2), h);
    HalfAnd(NotBits(b1), b2, h);
    HalfNot(b1, h);
    AndComm(NotBits(Half(b1, h)), Half(b2, h));
    XorComm(Half(b0, h), AndBits(Half(b2, h), NotBits(Half(b1, h))));
  }

  lemma RoundWordIs(s: Halves, a: Lanes, rc: Lane, x: nat, y: nat, h: nat)
    requires Weaves(s, a) && x < 5 && y < 5 && h < 2
    ensures RoundWord(s, Half(rc, h), x, y, h) == Half(RoundLane(a, rc, x, y), h)
  {
    hide Weaves, Half, XorBits, RowWord, Moved, Chi, AndBits, NotBits;
    var x1, x2 := (x + 1) % 5, (x + 2) % 5;
    RowWordIs(s, a, x, y, h);
    RowWordIs(s, a, x1, y, h);
    RowWordIs(s, a, x2, y, h);
    ChiIs(Moved(a, x, y), Moved(a, x1, y), Moved(a, x2, y), h);
    HalfXor(Chi(Moved(a, x, y), Moved(a, x1, y), Moved(a, x2, y)), rc, h);
  }

  /** One emitted round on the interleaved state is the interleaving of one plain round. */
  lemma RoundAgrees(s: Halves, a: Lanes, rc: Lane, t: Halves)
    requires Weaves(s, a) && IsRound(s, Half(rc, 0), Half(rc, 1), t)
    ensures Weaves(t, Round(a, rc))
  {
    hide Weaves, Half, RoundWord, RoundLane, Round, IsRound;
    forall i, h | 0 <= i < 25 && 0 <= h < 2
      ensures t[2 * i + h] == Half(Round(a, rc)[i], h)
    {
      RoundWordAt(s, a, rc, t, i % 5, i / 5, h);
      assert i == i % 5 + 5 * (i / 5);
    }
    WeavesAll(t, Round(a, rc));
  }

  lemma RoundWordAt(s: Halves, a: Lanes, rc: Lane, t: Halves, x: nat, y: nat, h: nat)
    requires Weaves(s, a) && IsRound(s, Half(rc, 0), Half(rc, 1), t) && x < 5 && y < 5 && h < 2
    ensures t[2 * (x + 5 * y) + h] == Half(Round(a, rc)[x + 5 * y], h)
  {
    hide Weaves, Half, RoundWord, RoundLane, Round;
    assert RoundAt(s, t, Half(rc, 0), Half(rc, 1), x, y, h);
    RoundIs(a, rc, x, y);
    RoundWordIs(s, a, rc, x, y, h);
  }

  lemma WeavesAll(s: Halves, a: Lanes)
    requires forall i, h :: 0 <= i < 25 && 0 <= h < 2 ==> s[2 * i + h] == Half(a[i], h)
    ensures Weaves(s, a)
  {
  }
}
