/** The two permutations as code: keccak.c's portable one on plain lanes, and the loop of emitted
    rounds between the caller's state and a second one (gen_asm.py). */
module KeccakPermute {
  import opened KeccakLinear
  import opened Interleave
  import opened KeccakRounds

  // ---- views of a 50-word state ------------------------------------------------------------------

  function Join(lo: seq<bool>, hi: seq<bool>): (x: Lane)
    requires |lo| == |hi| == 32
    ensures x[..32] == lo && x[32..] == hi
  {
    lo + hi
  }

  /** The lanes of 50 plain words, the low word of each lane first, and back. */
  function LanesOf(p: Halves): (a: Lanes)
    ensures forall i :: 0 <= i < 25 ==> a[i] == Join(p[2 * i], p[2 * i + 1])
  {
    seq(25, i requires 0 <= i < 25 => Join(p[2 * i], p[2 * i + 1]))
  }

  function WordOf(x: Lane, h: nat): Word
    requires h < 2
  {
    x[32 * h..32 * h + 32]
  }

  function WordsOf(a: Lanes): (p: Halves)
    ensures forall j :: 0 <= j < 50 ==> p[j] == WordOf(a[j / 2], j % 2)
  {
    seq(50, j requires 0 <= j < 50 => WordOf(a[j / 2], j % 2))
  }

  lemma JoinWords(x: Lane)
    ensures Join(WordOf(x, 0), WordOf(x, 1)) == x
  {
    assert x == x[..32] + x[32..64];
  }

  lemma LanesOfWords(a: Lanes)
    ensures LanesOf(WordsOf(a)) == a
  {
    hide LanesOf, WordsOf, WordOf, Join;
    forall i | 0 <= i < 25
      ensures LanesOf(WordsOf(a))[i] == a[i]
    {
      assert (2 * i) / 2 == i && (2 * i + 1) / 2 == i;
      JoinWords(a[i]);
    }
  }

  lemma WordJoined(lo: Word, hi: Word)
    ensures WordOf(Join(lo, hi), 0) == lo && WordOf(Join(lo, hi), 1) == hi
  {
  }

  lemma WordsOfLanes(p: Halves)
    ensures WordsOf(LanesOf(p)) == p
  {
    hide LanesOf, WordsOf, WordOf, Join;
    forall j | 0 <= j < 50
      ensures WordsOf(LanesOf(p))[j] == p[j]
    {
      var i := j / 2;
      WordJoined(p[2 * i], p[2 * i + 1]);
    }
  }

  /** The lane whose halves are e and o. */
  function Weave(e: Word, o: Word): (x: Lane)
    ensures Half(x, 0) == e && Half(x, 1) == o
  {
    var x := seq(64, i requires 0 <= i < 64 => if i % 2 == 0 then e[i / 2] else o[i / 2]);
    assert forall i :: 0 <= i < 32 ==> x[2 * i] == e[i] && x[2 * i + 1] == o[i];
    x
  }

  function WovenLane(s: Halves, i: int): Lane
    requires 0 <= i < 25
  {
    Weave(s[2 * i], s[2 * i + 1])
  }

  /** The lanes an interleaved state stands for. */
  function WovenLanes(s: Halves): (a: Lanes)
    ensures forall i :: 0 <= i < 25 ==> a[i] == WovenLane(s, i)
  {
    seq(25, i requires 0 <= i < 25 => WovenLane(s, i))
  }

  lemma WovenWeaves(s: Halves)
    ensures Weaves(s, WovenLanes(s))
  {
    hide Half, Weave, WovenLanes;
    var a := WovenLanes(s);
    forall i, h | 0 <= i < 25 && 0 <= h < 2
      ensures s[2 * i + h] == Half(a[i], h)
    {
      assert a[i] == WovenLane(s, i);
    }
  }

  lemma WeavesUnique(s: Halves, a: Lanes)
    requires Weaves(s, a)
    ensures a == WovenLanes(s)
  {
    hide Half, Weave, WovenLanes, Weaves;
    WovenWeaves(s);
    forall i | 0 <= i < 25
      ensures a[i] == WovenLanes(s)[i]
    {
      WeavesAt(s, a, i, 0);
      WeavesAt(s, a, i, 1);
      WeavesAt(s, WovenLanes(s), i, 0);
      WeavesAt(s, WovenLanes(s), i, 1);
      HalvesDetermine(a[i], WovenLanes(s)[i]);
    }
  }

  // ---- the portable permutation ------------------------------------------------------------------

  method Parities(a: array<Lane>) returns (c: array<Lane>)
    requires a.Length == 25
    ensures fresh(c) && c.Length == 5
    ensures forall x :: 0 <= x < 5 ==> c[x] == RowsXor(a[..], x)
  {
    c := new Lane[5](_ => Clear(64));
    for x := 0 to 5
      invariant forall k :: 0 <= k < x ==> c[k] == RowsXor(a[..], k)
    {
      c[x] := XorBits(XorBits(XorBits(XorBits(a[x], a[x + 5]), a[x + 10]), a[x + 15]), a[x + 20]);
    }
  }

  /** The lanes the loops over x, then y, have passed. */
  predicate Passed(i: int, x: int, y: int) {
    i % 5 < x || (i % 5 == x && i / 5 < y)
  }

  lemma PassedNext(i: int, x: int, y: int)
    requires 0 <= i < 25 && 0 <= x < 5 && 0 <= y < 5
    ensures Passed(i, x, y + 1) == (Passed(i, x, y) || i == x + 5 * y)
    ensures i == x + 5 * y ==> !Passed(i, x, y)
    ensures Passed(i, x + 1, 0) == Passed(i, x, 5) && !Passed(i, 0, 0) && Passed(i, 5, 0)
  {
    assert i == x + 5 * y <==> i % 5 == x && i / 5 == y;
  }

  function WithDiffusion(a: Lanes, i: int): Lane
    requires 0 <= i < 25
  {
    XorBits(a[i], Diffusion(a, i % 5))
  }

  method AddDiffusion(a: array<Lane>, c: array<Lane>)
    requires a.Length == 25 && c.Length == 5 && a != c
    requires forall x :: 0 <= x < 5 ==> c[x] == RowsXor(a[..], x)
    modifies a
    ensures forall i :: 0 <= i < 25 ==> a[i] == WithDiffusion(old(a[..]), i)
  {
    hide RowsXor, Diffusion, XorBits, Rotl, Passed, WithDiffusion;
    ghost var was, parities := a[..], c[..];
    forall i | 0 <= i < 25
      ensures !Passed(i, 0, 0) && Passed(i, 5, 0)
    {
      PassedNext(i, 0, 0);
    }
    for x := 0 to 5
      invariant c[..] == parities
      invariant forall i :: 0 <= i < 25 ==> a[i] == if Passed(i, x, 0) then WithDiffusion(was, i) else was[i]
    {
      var d := XorBits(c[(x + 4) % 5], Rotl(c[(x + 1) % 5], 1));
      DiffusionIs(was, x);
      for y := 0 to 5
        invariant c[..] == parities
        invariant forall i :: 0 <= i < 25 ==> a[i] == if Passed(i, x, y) then WithDiffusion(was, i) else was[i]
      {
        forall i | 0 <= i < 25
          ensures Passed(i, x, y + 1) == (Passed(i, x, y) || i == x + 5 * y) && (i == x + 5 * y ==> !Passed(i, x, y))
        {
          PassedNext(i, x, y);
        }
        WithDiffusionAt(was, x, y);
        a[x + 5 * y] := XorBits(a[x + 5 * y], d);
      }
      forall i | 0 <= i < 25
        ensures Passed(i, x + 1, 0) == Passed(i, x, 5)
      {
        PassedNext(i, x, 0);
      }
    }
  }

  lemma WithDiffusionAt(a: Lanes, x: nat, y: nat)
    requires x < 5 && y < 5
    ensures WithDiffusion(a, x + 5 * y) == XorBits(a[x + 5 * y], Diffusion(a, x))
  {
    hide Diffusion, XorBits;
    assert (x + 5 * y) % 5 == x;
  }

  lemma DiffusionIs(a: Lanes, x: nat)
    requires x < 5
    ensures Diffusion(a, x) == XorBits(RowsXor(a, (x + 4) % 5), Rotl(RowsXor(a, (x + 1) % 5), 1))
  {
  }

  function Turned(x: Lane, i: int): Lane {
    RhoBound(i);
    Rotl(x, Rho(i))
  }

  method MoveLanes(a: array<Lane>) returns (b: array<Lane>)
    requires a.Length == 25
    ensures fresh(b) && b.Length == 25
    ensures forall i :: 0 <= i < 25 ==> 0 <= Pi(i) < 25 && b[Pi(i)] == Turned(a[i], i)
  {
    hide Turned, Pi, PiInverse, Passed;
    b := new Lane[25](_ => Clear(64));
    forall i | 0 <= i < 25
      ensures !Passed(i, 0, 0) && Passed(i, 5, 0) && 0 <= Pi(i) < 25 && PiInverse(Pi(i)) == i
    {
      PassedNext(i, 0, 0);
      PiBijective(i);
    }
    for x := 0 to 5
      invariant forall i :: 0 <= i < 25 && Passed(i, x, 0) ==> b[Pi(i)] == Turned(a[i], i)
    {
      for y := 0 to 5
        invariant forall i :: 0 <= i < 25 && Passed(i, x, y) ==> b[Pi(i)] == Turned(a[i], i)
      {
        forall i | 0 <= i < 25
          ensures Passed(i, x, y + 1) == (Passed(i, x, y) || i == x + 5 * y)
        {
          PassedNext(i, x, y);
        }
        PiIs(x, y);
        TurnedIs(a[x + 5 * y], x + 5 * y);
        b[y + 5 * ((2 * x + 3 * y) % 5)] := Rotl(a[x + 5 * y], Rho(x + 5 * y));
      }
      forall i | 0 <= i < 25
        ensures Passed(i, x + 1, 0) == Passed(i, x, 5)
      {
        PassedNext(i, x, 0);
      }
    }
  }

  lemma TurnedIs(x: Lane, i: int)
    ensures 0 <= Rho(i) < 64 && Turned(x, i) == Rotl(x, Rho(i))
  {
    RhoBound(i);
  }

  lemma PiIs(x: nat, y: nat)
    requires x < 5 && y < 5
    ensures Pi(x + 5 * y) == y + 5 * ((2 * x + 3 * y) % 5) && 0 <= Pi(x + 5 * y) < 25
  {
    PiForth(x, y);
    assert (x + 5 * y) / 5 == y && (x + 5 * y) % 5 == x;
  }

  lemma SourceLands(x: nat, y: nat)
    requires x < 5 && y < 5
    ensures Pi(SourceLane(x, y)) == x + 5 * y
  {
    PiBack(x, y);
    assert (x + 5 * y) / 5 == y && (x + 5 * y) % 5 == x;
  }

  method PlainRound(a: array<Lane>, rc: Lane)
    requires a.Length == 25
    modifies a
    ensures a[..] == Round(old(a[..]), rc)
  {
    hide RowsXor, Diffusion, XorBits, Rotl, Rho, Pi, SourceLane, Chi, Round, RoundLane, RoundChi;
    ghost var was := a[..];
    var c := Parities(a);
    AddDiffusion(a, c);
    var b := MoveLanes(a);
    forall x, y | 0 <= x < 5 && 0 <= y < 5
      ensures b[x + 5 * y] == Moved(was, x, y)
    {
      SourceLands(x, y);
      TurnedIs(WithDiffusion(was, SourceLane(x, y)), SourceLane(x, y));
    }
    ChiRows(a, b, was);
    assert a[0 + 5 * 0] == RoundChi(was, 0, 0);
    a[0] := XorBits(a[0], rc);
    forall i | 0 <= i < 25
      ensures a[i] == Round(was, rc)[i]
    {
      LaneIs(was, rc, i % 5, i / 5);
      assert i % 5 + 5 * (i / 5) == i;
      assert i != 0 ==> a[i] == RoundChi(was, i % 5, i / 5);
    }
  }

  method ChiRows(a: array<Lane>, b: array<Lane>, ghost was: Lanes)
    requires a.Length == b.Length == 25 && a != b
    requires forall x, y :: 0 <= x < 5 && 0 <= y < 5 ==> b[x + 5 * y] == Moved(was, x, y)
    modifies a
    ensures forall x, y {:trigger RoundChi(was, x, y)} :: 0 <= x < 5 && 0 <= y < 5 ==> a[x + 5 * y] == RoundChi(was, x, y)
  {
    hide Moved, Chi;
    for y := 0 to 5
      invariant forall u, v :: 0 <= u < 5 && 0 <= v < 5 ==> b[u + 5 * v] == Moved(was, u, v)
      invariant forall u, v {:trigger RoundChi(was, u, v)} :: 0 <= u < 5 && 0 <= v < y ==> a[u + 5 * v] == RoundChi(was, u, v)
    {
      for x := 0 to 5
        invariant forall u, v :: 0 <= u < 5 && 0 <= v < 5 ==> b[u + 5 * v] == Moved(was, u, v)
        invariant forall u, v {:trigger RoundChi(was, u, v)} :: 0 <= u < 5 && 0 <= v < 5 && (v < y || (v == y && u < x)) ==>
          a[u + 5 * v] == RoundChi(was, u, v)
      {
        a[x + 5 * y] := Chi(b[x + 5 * y], b[(x + 1) % 5 + 5 * y], b[(x + 2) % 5 + 5 * y]);
      }
    }
  }

  function RoundChi(a: Lanes, x: nat, y: nat): Lane
    requires x < 5 && y < 5
  {
    Chi(Moved(a, x, y), Moved(a, (x + 1) % 5, y), Moved(a, (x + 2) % 5, y))
  }

  lemma LaneIs(a: Lanes, rc: Lane, x: nat, y: nat)
    requires x < 5 && y < 5
    ensures Round(a, rc)[x + 5 * y] == if x == 0 && y == 0 then XorBits(RoundChi(a, x, y), rc) else RoundChi(a, x, y)
  {
    hide Chi, Moved, XorBits, Round;
    RoundIs(a, rc, x, y);
  }

  /** keccak_permute, portable: the state's words as lanes, every round, and back. */
  method PermutePlain(s: array<Word>, rc: seq<Lane>)
    requires s.Length == 50
    modifies s
    ensures s[..] == WordsOf(Rounds(LanesOf(old(s[..])), rc, |rc|))
  {
    hide Round, WordsOf, LanesOf, Join, WordOf;
    var p := s[..];
    var a := new Lane[25](i requires 0 <= i < 25 => Join(p[2 * i], p[2 * i + 1]));
    assert a[..] == LanesOf(p);
    for r := 0 to |rc|
      invariant a[..] == Rounds(LanesOf(p), rc, r)
    {
      PlainRound(a, rc[r]);
    }
    StoreLanes(s, a);
  }

  method StoreLanes(s: array<Word>, a: array<Lane>)
    requires s.Length == 50 && a.Length == 25
    modifies s
    ensures s[..] == WordsOf(a[..])
  {
    hide WordOf;
    ghost var lanes := a[..];
    for j := 0 to 50
      invariant a[..] == lanes
      invariant forall k :: 0 <= k < j ==> s[k] == WordOf(lanes[k / 2], k % 2)
    {
      s[j] := WordOf(a[j / 2], j % 2);
    }
  }
}
