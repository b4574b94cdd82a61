/** Absorbing, padding, squeezing, the one-block hash and the chain, on the interleaved state of the
    device and on plain words (keccak.c, gen_asm.py's `gen_keccak_oneblock` and `gen_keccak_chain`). */
module KeccakDevice {
  import opened Interleave
  import opened KeccakRounds
  import opened KeccakPermute
  import opened KeccakEmitted

  // ---- on plain words ----------------------------------------------------------------------------

  const ZERO: Word := Clear(32)

  /** The word with bit k alone. */
  function Single(k: nat): (w: Word)
    ensures forall i :: 0 <= i < 32 ==> w[i] == (i == k)
  {
    seq(32, i => i == k)
  }

  function Input(words: seq<Word>, n: nat, i: nat): Word {
    if i < n && i < |words| then words[i] else ZERO
  }

  function Absorbed(p: Halves, words: seq<Word>, n: nat): (r: Halves)
    ensures forall i :: 0 <= i < 50 ==> r[i] == XorBits(p[i], Input(words, n, i))
  {
    seq(50, i requires 0 <= i < 50 => XorBits(p[i], Input(words, n, i)))
  }

  /** Byte n's lowest bit, and byte 135's highest. */
  function Pad(n: nat, i: nat): Word {
    if i == 33 then (if n / 4 == 33 then XorBits(Single(8 * (n % 4)), Single(31)) else Single(31))
    else if i == n / 4 then Single(8 * (n % 4)) else ZERO
  }

  function Padded(p: Halves, n: nat): (r: Halves)
    ensures forall i :: 0 <= i < 50 ==> r[i] == XorBits(p[i], Pad(n, i))
  {
    seq(50, i requires 0 <= i < 50 => XorBits(p[i], Pad(n, i)))
  }

  function Permuted(p: Halves, rc: seq<Lane>): Halves
    requires |rc| == 24
  {
    WordsOf(Rounds(LanesOf(p), rc, 24))
  }

  function Blank(): (p: Halves)
    ensures forall i :: 0 <= i < 50 ==> p[i] == ZERO
  {
    seq(50, _ => ZERO)
  }

  /** The first 16 bytes of Keccak-256 of the first len bytes of a zero-padded block. */
  function OneBlock(block: seq<Word>, len: nat, rc: seq<Lane>): (out: seq<Word>)
    requires |rc| == 24
    ensures |out| == 4
  {
    Permuted(Padded(Absorbed(Blank(), block, (len + 3) / 4), len), rc)[..4]
  }

  /** A counter's 32 bits: it wraps. */
  function Counter(p: nat): Word {
    seq(32, i requires 0 <= i < 32 => BitOf(p, i))
  }

  predicate BitOf(p: nat, i: nat) {
    if i == 0 then p % 2 == 1 else BitOf(p / 2, i - 1)
  }

  /** The block of one chain step: word 1 the counter, words 8 to 11 the value. */
  function StepBlock(block: seq<Word>, v: seq<Word>, p: nat): (b: seq<Word>)
    requires |block| == 16 && |v| == 4
    ensures |b| == 16
  {
    block[..1] + [Counter(p)] + block[2..8] + v + block[12..]
  }

  function Chain(block: seq<Word>, v: seq<Word>, p: nat, steps: nat, rc: seq<Lane>): (out: seq<Word>)
    requires |block| == 16 && |v| == 4 && |rc| == 24
    ensures |out| == 4
  {
    if steps == 0 then v
    else OneBlock(StepBlock(block, Chain(block, v, p, steps - 1, rc), p + steps - 1), 48, rc)
  }

  // ---- a lane's two words and its two halves -----------------------------------------------------

  function LowMask(): (m: Word)
    ensures forall i :: 0 <= i < 32 ==> m[i] == (i < 16)
  {
    seq(32, i => i < 16)
  }

  /** (x & 0xFFFF) | (y << 16), and (x >> 16) | (y & 0xFFFF0000). */
  function Lows(x: Word, y: Word): Word {
    OrBits(AndBits(x, LowMask()), Up(y, 16))
  }

  function Highs(x: Word, y: Word): Word {
    OrBits(Down(x, 16), AndBits(y, NotBits(LowMask())))
  }

  /** The halves of a lane from its words, unzipped. */
  lemma HalvesOfWords(lo: Word, hi: Word)
    ensures Lows(Unzip(lo), Unzip(hi)) == Half(Join(lo, hi), 0)
    ensures Highs(Unzip(lo), Unzip(hi)) == Half(Join(lo, hi), 1)
  {
    forall i | 0 <= i < 32
      ensures Lows(Unzip(lo), Unzip(hi))[i] == Half(Join(lo, hi), 0)[i]
      ensures Highs(Unzip(lo), Unzip(hi))[i] == Half(Join(lo, hi), 1)[i]
    {
      HalvesAt(lo, hi, i);
    }
  }

  lemma HalvesAt(lo: Word, hi: Word, i: nat)
    requires i < 32
    ensures Lows(Unzip(lo), Unzip(hi))[i] == Half(Join(lo, hi), 0)[i]
    ensures Highs(Unzip(lo), Unzip(hi))[i] == Half(Join(lo, hi), 1)[i]
  {
    hide Unzip, Half, OrBits, AndBits, NotBits, Up, Down, LowMask;
    if i < 16 {
      UnzipBit(lo, i);
      UnzipBit(lo, i + 16);
    } else {
      UnzipBit(hi, i - 16);
      UnzipBit(hi, i);
    }
  }

  /** The words of a lane from its halves, zipped. */
  lemma WordsOfHalves(lo: Word, hi: Word)
    ensures Zip(Lows(Half(Join(lo, hi), 0), Half(Join(lo, hi), 1))) == lo
    ensures Zip(Highs(Half(Join(lo, hi), 0), Half(Join(lo, hi), 1))) == hi
  {
    hide Unzip, Zip, Lows, Highs, Half;
    forall i | 0 <= i < 32
      ensures Lows(Half(Join(lo, hi), 0), Half(Join(lo, hi), 1))[i] == Unzip(lo)[i]
      ensures Highs(Half(Join(lo, hi), 0), Half(Join(lo, hi), 1))[i] == Unzip(hi)[i]
    {
      WordsAt(lo, hi, i);
    }
    assert Lows(Half(Join(lo, hi), 0), Half(Join(lo, hi), 1)) == Unzip(lo);
    assert Highs(Half(Join(lo, hi), 0), Half(Join(lo, hi), 1)) == Unzip(hi);
    ZipUnzip(lo);
    ZipUnzip(hi);
  }

  lemma WordsAt(lo: Word, hi: Word, i: nat)
    requires i < 32
    ensures Lows(Half(Join(lo, hi), 0), Half(Join(lo, hi), 1))[i] == Unzip(lo)[i]
    ensures Highs(Half(Join(lo, hi), 0), Half(Join(lo, hi), 1))[i] == Unzip(hi)[i]
  {
    hide Unzip, Half, OrBits, AndBits, NotBits, Up, Down, LowMask;
    UnzipBit(lo, i);
    UnzipBit(hi, i);
  }

  lemma JoinXor(a: Word, b: Word, c: Word, d: Word)
    ensures Join(XorBits(a, b), XorBits(c, d)) == XorBits(Join(a, c), Join(b, d))
  {
  }

  /** Word i, half h of t is that of s with the halves of q's word pair added. */
  ghost predicate AddedAt(s: Halves, t: Halves, q: Halves, i: int, h: int)
    requires 0 <= i < 25 && 0 <= h < 2
  {
    t[2 * i + h] == XorBits(s[2 * i + h], Half(Join(q[2 * i], q[2 * i + 1]), h))
  }

  /** Adding a word pair's halves to a lane's halves adds the pair to its words. */
  lemma WeavesPlus(s: Halves, t: Halves, p: Halves, q: Halves, r: Halves)
    requires Weaves(s, LanesOf(p)) && (forall i :: 0 <= i < 50 ==> r[i] == XorBits(p[i], q[i]))
    requires forall i, h :: 0 <= i < 25 && 0 <= h < 2 ==> AddedAt(s, t, q, i, h)
    ensures Weaves(t, LanesOf(r))
  {
    hide Weaves, LanesOf, Half, XorBits, Join;
    forall i, h | 0 <= i < 25 && 0 <= h < 2
      ensures t[2 * i + h] == Half(LanesOf(r)[i], h)
    {
      assert AddedAt(s, t, q, i, h);
      WeavesAt(s, LanesOf(p), i, h);
      JoinXor(p[2 * i], q[2 * i], p[2 * i + 1], q[2 * i + 1]);
      HalfXor(Join(p[2 * i], p[2 * i + 1]), Join(q[2 * i], q[2 * i + 1]), h);
    }
    WeavesAll(t, LanesOf(r));
  }

  lemma NothingAdded(x: Word, h: nat)
    requires h < 2
    ensures XorBits(x, Half(Join(ZERO, ZERO), h)) == x && XorBits(x, ZERO) == x
  {
    forall i | 0 <= i < 32
      ensures !Half(Join(ZERO, ZERO), h)[i]
    {
      assert !Join(ZERO, ZERO)[2 * i + h];
    }
  }

  // ---- absorbing -------------------------------------------------------------------------------

  function Inputs(words: seq<Word>, n: nat): (q: Halves)
    ensures forall i :: 0 <= i < 50 ==> q[i] == Input(words, n, i)
  {
    seq(50, i requires 0 <= i < 50 => Input(words, n, i))
  }

  method AbsorbPlain(s: array<Word>, words: seq<Word>, n: nat)
    requires s.Length == 50 && n <= 34 && n <= |words|
    modifies s
    ensures s[..] == Absorbed(old(s[..]), words, n)
  {
    hide XorBits;
    ghost var was := s[..];
    for i := 0 to n
      invariant forall k :: 0 <= k < 50 ==> s[k] == if k < i then XorBits(was[k], words[k]) else was[k]
    {
      s[i] := XorBits(s[i], words[i]);
    }
    forall k | n <= k < 50
      ensures was[k] == XorBits(was[k], ZERO)
    {
      NothingAdded(was[k], 0);
    }
  }

  lemma AbsorbWeaves(s: Halves, t: Halves, words: seq<Word>, n: nat)
    requires forall i, h :: 0 <= i < 25 && 0 <= h < 2 ==> AddedAt(s, t, Inputs(words, n), i, h)
    ensures Plain(t) == Absorbed(Plain(s), words, n)
  {
    hide Weaves, Plain, AddedAt, XorBits;
    PlainWeaves(s);
    WeavesPlus(s, t, Plain(s), Inputs(words, n), Absorbed(Plain(s), words, n));
    PlainIs(t, Absorbed(Plain(s), words, n));
  }

  /** keccak_absorb on the device: word pairs unzipped into a lane's halves. */
  method AbsorbDevice(s: array<Word>, words: seq<Word>, n: nat)
    requires s.Length == 50 && n <= 34 && n <= |words|
    modifies s
    ensures Plain(s[..]) == Absorbed(Plain(old(s[..])), words, n)
  {
    hide XorBits, Half, Join, Unzip, Lows, Highs, Plain;
    ghost var was, q := s[..], Inputs(words, n);
    var i := 0;
    while i < n
      invariant 0 <= i <= n + 1 && i % 2 == 0 && i <= 34
      invariant forall k, h :: 0 <= k < 25 && 0 <= h < 2 && 2 * k < i ==> AddedAt(was, s[..], q, k, h)
      invariant forall j :: i <= j < 50 ==> s[j] == was[j]
    {
      var lo := Unzip(words[i]);
      var hi := if i + 1 < n then Unzip(words[i + 1]) else ZERO;
      UnzipZero();
      HalvesOfWords(q[i], q[i + 1]);
      ghost var before := s[..];
      s[i] := XorBits(s[i], Lows(lo, hi));
      s[i + 1] := XorBits(s[i + 1], Highs(lo, hi));
      AddedNext(was, before, s[..], q, i);
      i := i + 2;
    }
    forall k, h | 0 <= k < 25 && 0 <= h < 2
      ensures AddedAt(was, s[..], q, k, h)
    {
      if 2 * k >= i {
        NothingAdded(was[2 * k + h], h);
      }
    }
    AbsorbWeaves(was, s[..], words, n);
  }

  lemma AddedNext(was: Halves, s: Halves, t: Halves, q: Halves, i: nat)
    requires i % 2 == 0 && i < 50
    requires forall k, h :: 0 <= k < 25 && 0 <= h < 2 && 2 * k < i ==> AddedAt(was, s, q, k, h)
    requires forall j :: 0 <= j < 50 && j != i && j != i + 1 ==> t[j] == s[j]
    requires t[i] == XorBits(was[i], Half(Join(q[i], q[i + 1]), 0)) && t[i + 1] == XorBits(was[i + 1], Half(Join(q[i], q[i + 1]), 1))
    ensures forall k, h :: 0 <= k < 25 && 0 <= h < 2 && 2 * k < i + 2 ==> AddedAt(was, t, q, k, h)
  {
    hide XorBits, Half, Join;
    forall k, h | 0 <= k < 25 && 0 <= h < 2 && 2 * k < i + 2
      ensures AddedAt(was, t, q, k, h)
    {
      if 2 * k < i {
        assert AddedAt(was, s, q, k, h);
      } else {
        assert 2 * k == i;
      }
    }
  }

  lemma UnzipZero()
    ensures Unzip(ZERO) == ZERO
  {
    hide Unzip;
    forall i | 0 <= i < 32
      ensures Unzip(ZERO)[i] == ZERO[i]
    {
      UnzipBit(ZERO, i);
    }
  }

  // ---- padding ---------------------------------------------------------------------------------

  function Pads(n: nat): (q: Halves)
    ensures forall i :: 0 <= i < 50 ==> q[i] == Pad(n, i)
  {
    seq(50, i requires 0 <= i < 50 => Pad(n, i))
  }

  /** Byte n's lowest bit is an even bit of its lane; byte 135's highest is lane 16's last. */
  function DevicePad(n: nat, i: int, h: int): Word {
    if h == 0 then (if i == n / 8 then Single(4 * (n % 8)) else ZERO) else (if i == 16 then Single(31) else ZERO)
  }

  lemma PadHalves(n: nat, i: nat, h: nat)
    requires n < 136 && i < 25 && h < 2
    ensures Half(Join(Pad(n, 2 * i), Pad(n, 2 * i + 1)), h) == DevicePad(n, i, h)
  {
    hide Half, Single, Pad, DevicePad, Join;
    forall k | 0 <= k < 32
      ensures Half(Join(Pad(n, 2 * i), Pad(n, 2 * i + 1)), h)[k] == DevicePad(n, i, h)[k]
    {
      PadBit(n, i, h, k);
      JoinBit(Pad(n, 2 * i), Pad(n, 2 * i + 1), 2 * k + h);
    }
  }

  lemma JoinBit(lo: Word, hi: Word, j: nat)
    requires j < 64
    ensures Join(lo, hi)[j] == if j < 32 then lo[j] else hi[j - 32]
  {
  }

  lemma PadBit(n: nat, i: nat, h: nat, k: nat)
    requires n < 136 && i < 25 && h < 2 && k < 32
    ensures (if 2 * k + h < 32 then Pad(n, 2 * i)[2 * k + h] else Pad(n, 2 * i + 1)[2 * k + h - 32]) == DevicePad(n, i, h)[k]
  {
    hide Single, XorBits;
    var j := 2 * k + h;
    var w := if j < 32 then 2 * i else 2 * i + 1;
    var b := if j < 32 then j else j - 32;
    assert n / 4 == 2 * (n / 8) + n % 8 / 4 && n % 4 == n % 8 - 4 * (n % 8 / 4);
    assert Pad(n, w)[b] == ((w == n / 4 && b == 8 * (n % 4)) || (w == 33 && b == 31));
  }

  method PadPlain(s: array<Word>, n: nat)
    requires s.Length == 50 && n < 136
    modifies s
    ensures s[..] == Padded(old(s[..]), n)
  {
    hide Single;
    ghost var was := s[..];
    s[n / 4] := XorBits(s[n / 4], Single(8 * (n % 4)));
    s[33] := XorBits(s[33], Single(31));
    forall k | 0 <= k < 50
      ensures s[k] == XorBits(was[k], Pad(n, k))
    {
      NothingAdded(was[k], 0);
      assert s[k] == XorBits(was[k], Pad(n, k));
    }
  }

  method PadDevice(s: array<Word>, n: nat)
    requires s.Length == 50 && n < 136
    modifies s
    ensures Plain(s[..]) == Padded(Plain(old(s[..])), n)
  {
    hide Single, Half, Join, Plain, Pad, XorBits;
    ghost var was, q := s[..], Pads(n);
    s[2 * (n / 8)] := XorBits(s[2 * (n / 8)], Single(4 * (n % 8)));
    s[33] := XorBits(s[33], Single(31));
    forall i, h | 0 <= i < 25 && 0 <= h < 2
      ensures AddedAt(was, s[..], q, i, h)
    {
      PadHalves(n, i, h);
      NothingAdded(was[2 * i + h], h);
    }
    PadWeaves(was, s[..], n);
  }

  lemma PadWeaves(s: Halves, t: Halves, n: nat)
    requires forall i, h :: 0 <= i < 25 && 0 <= h < 2 ==> AddedAt(s, t, Pads(n), i, h)
    ensures Plain(t) == Padded(Plain(s), n)
  {
    hide Weaves, Plain, AddedAt, XorBits, Pad;
    PlainWeaves(s);
    WeavesPlus(s, t, Plain(s), Pads(n), Padded(Plain(s), n));
    PlainIs(t, Padded(Plain(s), n));
  }

  // ---- squeezing -------------------------------------------------------------------------------

  method SqueezePlain(s: array<Word>, n: nat) returns (out: seq<Word>)
    requires s.Length == 50 && n <= 50
    ensures out == s[..n]
  {
    out := s[..n];
  }

  lemma SqueezedPair(s: Halves, i: nat)
    requires i % 2 == 0 && i < 50
    ensures Zip(Lows(s[i], s[i + 1])) == Plain(s)[i] && Zip(Highs(s[i], s[i + 1])) == Plain(s)[i + 1]
  {
    hide Weaves, Plain, Half, Zip, Lows, Highs, Join, LanesOf;
    var p := Plain(s);
    PlainWeaves(s);
    WeavesAt(s, LanesOf(p), i / 2, 0);
    WeavesAt(s, LanesOf(p), i / 2, 1);
    assert LanesOf(p)[i / 2] == Join(p[i], p[i + 1]);
    WordsOfHalves(p[i], p[i + 1]);
  }

  method SqueezeDevice(s: array<Word>, n: nat) returns (out: seq<Word>)
    requires s.Length == 50 && n <= 50 && n % 2 == 0
    ensures out == Plain(s[..])[..n]
  {
    hide Plain, Zip, Lows, Highs;
    out := [];
    var i := 0;
    while i < n
      invariant 0 <= i <= n && i % 2 == 0 && out == Plain(s[..])[..i]
    {
      SqueezedPair(s[..], i);
      out := out + [Zip(Lows(s[i], s[i + 1])), Zip(Highs(s[i], s[i + 1]))];
      i := i + 2;
    }
  }
}
