/** The one-block hash and the WOTS chain: the portable code, the assembly on the interleaved
    state, and one specification on plain words that both meet (keccak.c, gen_asm.py). */
module KeccakChain {
  import opened Interleave
  import opened KeccakRounds
  import opened KeccakPermute
  import opened KeccakEmitted
  import opened KeccakDevice

  // ---- one block -------------------------------------------------------------------------------

  method OneBlockPlain(block: seq<Word>, len: nat, rc: seq<Lane>) returns (out: seq<Word>)
    requires |block| == 16 && len <= 64 && |rc| == 24
    ensures out == OneBlock(block, len, rc)
  {
    hide Absorbed, Padded, Rounds, WordsOf, LanesOf;
    var s := new Word[50](_ => ZERO);
    assert s[..] == Blank();
    AbsorbPlain(s, block, (len + 3) / 4);
    PadPlain(s, len);
    PermutePlain(s, rc);
    out := SqueezePlain(s, 4);
  }

  /** The words the assembly reads: whole pairs. */
  function PairWords(len: nat): nat {
    2 * ((len + 7) / 8)
  }

  /** The assembly absorbs the same state exactly when the word that only completes the last pair
      is zero; a zero-padded block has it so. */
  lemma SpareWord(block: seq<Word>, len: nat)
    requires |block| == 16 && len <= 64
    ensures Absorbed(Blank(), block, PairWords(len)) == Absorbed(Blank(), block, (len + 3) / 4)
        <==> ((len + 3) / 4 < PairWords(len) ==> block[(len + 3) / 4] == ZERO)
  {
    hide XorBits;
    var n, m := (len + 3) / 4, PairWords(len);
    assert n <= m <= n + 1 && m <= 16;
    var a, b := Absorbed(Blank(), block, m), Absorbed(Blank(), block, n);
    if n < m {
      XorZero(block[n]);
      XorZero(ZERO);
      assert a[n] == XorBits(ZERO, block[n]) && b[n] == XorBits(ZERO, ZERO);
    }
    forall i | 0 <= i < 50 && i != n
      ensures a[i] == b[i]
    {
    }
  }

  /** The word after an odd number of them, read with the last, is zero. */
  predicate SpareZero(block: seq<Word>, len: nat)
    requires |block| == 16 && len <= 64
  {
    (len + 3) / 4 % 2 == 1 ==> block[(len + 3) / 4] == ZERO
  }

  /** An even number of words needs no spare one. */
  lemma WholePairs(block: seq<Word>, len: nat)
    requires |block| == 16 && len <= 64
    ensures SpareZero(block, len) <==>
      Absorbed(Blank(), block, PairWords(len)) == Absorbed(Blank(), block, (len + 3) / 4)
  {
    hide Absorbed;
    SpareWord(block, len);
    assert (len + 3) / 4 < PairWords(len) <==> (len + 3) / 4 % 2 == 1;
  }

  lemma XorZero(w: Word)
    ensures XorBits(ZERO, w) == w
  {
  }

  /** Word i, half h of s is that of the plain words q. */
  ghost predicate LoadedAt(s: seq<Word>, q: seq<Word>, i: int, h: int)
    requires 0 <= i && 0 <= h < 2 && 2 * i + 1 < |s| && 2 * i + 1 < |q|
  {
    s[2 * i + h] == Half(Join(q[2 * i], q[2 * i + 1]), h)
  }

  lemma LoadedIs(s: Halves, q: Halves)
    requires forall i, h :: 0 <= i < 25 && 0 <= h < 2 ==> LoadedAt(s, q, i, h)
    ensures Plain(s) == q
  {
    hide Half, Join, Plain, Weaves;
    forall i, h | 0 <= i < 25 && 0 <= h < 2
      ensures s[2 * i + h] == Half(LanesOf(q)[i], h)
    {
      assert LoadedAt(s, q, i, h);
    }
    WeavesAll(s, LanesOf(q));
    PlainIs(s, q);
  }

  lemma NoHalf(h: nat)
    requires h < 2
    ensures Half(Join(ZERO, ZERO), h) == ZERO
  {
    XorZero(Half(Join(ZERO, ZERO), h));
    NothingAdded(ZERO, h);
    hide *;
  }

  lemma BlankAbsorbed(block: seq<Word>, n: nat)
    ensures Absorbed(Blank(), block, n) == Inputs(block, n)
  {
    hide XorBits;
    forall i | 0 <= i < 50
      ensures Absorbed(Blank(), block, n)[i] == Inputs(block, n)[i]
    {
      XorZero(Input(block, n, i));
    }
  }

  /** Lanes unzipped into the state, the rest zero. */
  method LoadBlock(s: array<Word>, block: seq<Word>, len: nat)
    requires s.Length == 50 && |block| == 16 && len <= 64
    modifies s
    ensures Plain(s[..]) == Absorbed(Blank(), block, PairWords(len))
  {
    hide Half, Join, Unzip, Lows, Highs, Plain, Absorbed;
    var lanes := (len + 7) / 8;
    ghost var q := Inputs(block, PairWords(len));
    for k := 0 to lanes
      invariant forall i, h :: 0 <= i < 25 && 0 <= h < 2 && i < k ==> LoadedAt(s[..], q, i, h)
    {
      ghost var was := s[..];
      var lo, hi := Unzip(block[2 * k]), Unzip(block[2 * k + 1]);
      HalvesOfWords(q[2 * k], q[2 * k + 1]);
      s[2 * k] := Lows(lo, hi);
      s[2 * k + 1] := Highs(lo, hi);
      LoadedNext(was, s[..], q, k);
    }
    for j := 2 * lanes to 50
      invariant forall i, h :: 0 <= i < 25 && 0 <= h < 2 && i < lanes ==> LoadedAt(s[..], q, i, h)
      invariant forall k :: 2 * lanes <= k < j ==> s[k] == ZERO
    {
      ghost var was := s[..];
      s[j] := ZERO;
      forall i, h | 0 <= i < 25 && 0 <= h < 2 && i < lanes
        ensures LoadedAt(s[..], q, i, h)
      {
        assert LoadedAt(was, q, i, h);
      }
    }
    forall i, h | 0 <= i < 25 && 0 <= h < 2
      ensures LoadedAt(s[..], q, i, h)
    {
      NoHalf(h);
    }
    LoadedIs(s[..], q);
    BlankAbsorbed(block, PairWords(len));
  }

  lemma LoadedNext(s: seq<Word>, t: seq<Word>, q: seq<Word>, k: nat)
    requires |s| == |t| <= |q| && 2 * k + 1 < |s|
    requires forall i, h :: 0 <= i < k && 0 <= h < 2 ==> LoadedAt(s, q, i, h)
    requires forall j :: 0 <= j < 2 * k ==> t[j] == s[j]
    requires LoadedAt(t, q, k, 0) && LoadedAt(t, q, k, 1)
    ensures forall i, h :: 0 <= i < k + 1 && 0 <= h < 2 ==> LoadedAt(t, q, i, h)
  {
    forall i, h | 0 <= i < k + 1 && 0 <= h < 2
      ensures LoadedAt(t, q, i, h)
    {
      if i < k {
        assert LoadedAt(s, q, i, h);
      }
    }
  }

  /** keccak256_oneblock16_asm. */
  method OneBlockDevice(block: seq<Word>, len: nat, rc: seq<Word>) returns (out: seq<Word>)
    requires |block| == 16 && len <= 64 && |rc| == 48
    ensures out == Permuted(Padded(Absorbed(Blank(), block, PairWords(len)), len), Constants(rc))[..4]
    ensures SpareZero(block, len) ==> out == OneBlock(block, len, Constants(rc))
  {
    hide Absorbed, Padded, Rounds, WordsOf, LanesOf, Plain, Constants, SpareZero, PairWords;
    var s := new Word[50](_ => ZERO);
    LoadBlock(s, block, len);
    PadDevice(s, len);
    PermuteEmitted(s, rc);
    out := SqueezeDevice(s, 4);
    WholePairs(block, len);
  }

  // ---- the chain -------------------------------------------------------------------------------

  /** keccak256_chain16, portable: the counter and the value put into the block at every step. */
  method ChainPlain(v: seq<Word>, block: seq<Word>, p: nat, steps: nat, rc: seq<Lane>) returns (out: seq<Word>)
    requires |v| == 4 && |block| == 16 && |rc| == 24
    ensures |out| == 4 && out == Chain(block, v, p, steps, rc)
  {
    hide OneBlock, StepBlock, Counter;
    out := v;
    for k := 0 to steps
      invariant |out| == 4 && out == Chain(block, v, p, k, rc)
    {
      out := OneBlockPlain(StepBlock(block, out, p + k), 48, rc);
    }
  }

  // ---- the chain on the interleaved state --------------------------------------------------------

  /** keccak_absorb into zeroed words. */
  method UnzipPairs(words: seq<Word>) returns (r: seq<Word>)
    requires |words| % 2 == 0
    ensures |r| == |words| && forall i, h :: 0 <= i < |words| / 2 && 0 <= h < 2 ==> LoadedAt(r, words, i, h)
  {
    hide XorBits, Half, Join, Unzip, Lows, Highs;
    r := [];
    for k := 0 to |words| / 2
      invariant |r| == 2 * k && forall i, h :: 0 <= i < k && 0 <= h < 2 ==> LoadedAt(r, words, i, h)
    {
      var lo, hi := Unzip(words[2 * k]), Unzip(words[2 * k + 1]);
      HalvesOfWords(words[2 * k], words[2 * k + 1]);
      XorZero(Lows(lo, hi));
      XorZero(Highs(lo, hi));
      var next := r + [XorBits(ZERO, Lows(lo, hi)), XorBits(ZERO, Highs(lo, hi))];
      forall i, h | 0 <= i < k && 0 <= h < 2
        ensures LoadedAt(next, words, i, h)
      {
        assert LoadedAt(r, words, i, h);
      }
      r := next;
    }
  }

  /** An interleaved value stands for the plain one. */
  ghost predicate Carries(val: seq<Word>, v: seq<Word>) {
    |val| == |v| == 4 && forall i, h :: 0 <= i < 2 && 0 <= h < 2 ==> LoadedAt(val, v, i, h)
  }

  /** keccak_squeeze of the value. */
  method ZipPairs(val: seq<Word>, ghost v: seq<Word>) returns (out: seq<Word>)
    requires Carries(val, v)
    ensures out == v
  {
    hide Half, Join, Zip, Lows, Highs;
    assert LoadedAt(val, v, 0, 0) && LoadedAt(val, v, 0, 1) && LoadedAt(val, v, 1, 0) && LoadedAt(val, v, 1, 1);
    WordsOfHalves(v[0], v[1]);
    WordsOfHalves(v[2], v[3]);
    out := [Zip(Lows(val[0], val[1])), Zip(Highs(val[0], val[1])), Zip(Lows(val[2], val[3])), Zip(Highs(val[2], val[3]))];
  }

  /** The plain words of a chain step's state before the permutation. */
  function StepState(block: seq<Word>): (q: Halves)
    requires |block| == 16
    ensures forall j :: 0 <= j < 50 ==> q[j] == StepWord(block, j)
  {
    seq(50, j requires 0 <= j < 50 => StepWord(block, j))
  }

  function StepWord(block: seq<Word>, j: int): Word
    requires |block| == 16
  {
    if 0 <= j < 12 then block[j] else if j == 12 then Single(0) else if j == 33 then Single(31) else ZERO
  }

  lemma StepStateIs(block: seq<Word>)
    requires |block| == 16
    ensures StepState(block) == Padded(Absorbed(Blank(), block, 12), 48)
  {
    hide XorBits, Single;
    forall j | 0 <= j < 50
      ensures StepWord(block, j) == Padded(Absorbed(Blank(), block, 12), 48)[j]
    {
      XorZero(Input(block, 12, j));
      XorZero(Pad(48, j));
      NothingAdded(Input(block, 12, j), 0);
    }
  }

  /** The interleaved words of that state. */
  function DeviceWord(head: seq<Word>, val: seq<Word>, up: Word, j: int): Word
    requires |head| == 8 && |val| == 4
  {
    if j == 0 then Lows(head[0], up) else if j == 1 then Highs(head[0], up)
    else if 2 <= j < 8 then head[j] else if 8 <= j < 12 then val[j - 8]
    else if j == 12 then Single(0) else if j == 33 then Single(31) else ZERO
  }

  /** What stays fixed over a chain: the first word unzipped alone, lanes 1 to 3 interleaved. */
  ghost predicate IsHead(head: seq<Word>, block: seq<Word>) {
    && |head| == 8 && |block| == 16
    && head[0] == Unzip(block[0])
    && forall i, h :: 1 <= i < 4 && 0 <= h < 2 ==> LoadedAt(head, block, i, h)
  }

  /** The state a pass loads is the interleaving of the plain step's: lane by lane. */
  ghost predicate Loads(s: Halves, head: seq<Word>, val: seq<Word>, block: seq<Word>, v: seq<Word>, p: nat) {
    && IsHead(head, block) && Carries(val, v)
    && forall j :: 0 <= j < 50 ==> s[j] == DeviceWord(head, val, Unzip(Counter(p)), j)
  }

  lemma FirstLoaded(s: Halves, head: seq<Word>, val: seq<Word>, block: seq<Word>, v: seq<Word>, p: nat, h: int)
    requires Loads(s, head, val, block, v, p) && 0 <= h < 2
    ensures LoadedAt(s, StepState(StepBlock(block, v, p)), 0, h)
  {
    hide Half, Join, Unzip, Lows, Highs, Single, Counter;
    HalvesOfWords(block[0], Counter(p));
    assert StepState(StepBlock(block, v, p))[0] == block[0] && StepState(StepBlock(block, v, p))[1] == Counter(p);
  }

  lemma HeadLoaded(s: Halves, head: seq<Word>, val: seq<Word>, block: seq<Word>, v: seq<Word>, p: nat, i: int, h: int)
    requires Loads(s, head, val, block, v, p) && 1 <= i < 4 && 0 <= h < 2
    ensures LoadedAt(s, StepState(StepBlock(block, v, p)), i, h)
  {
    hide Half, Join, Unzip, Lows, Highs, Single, Counter;
    assert LoadedAt(head, block, i, h);
    var q := StepState(StepBlock(block, v, p));
    assert q[2 * i] == block[2 * i] && q[2 * i + 1] == block[2 * i + 1];
  }

  lemma ValueLoaded(s: Halves, head: seq<Word>, val: seq<Word>, block: seq<Word>, v: seq<Word>, p: nat, i: int, h: int)
    requires Loads(s, head, val, block, v, p) && 4 <= i < 6 && 0 <= h < 2
    ensures LoadedAt(s, StepState(StepBlock(block, v, p)), i, h)
  {
    hide Half, Join, Unzip, Lows, Highs, Single, Counter;
    assert LoadedAt(val, v, i - 4, h);
    var q := StepState(StepBlock(block, v, p));
    assert q[2 * i] == v[2 * i - 8] && q[2 * i + 1] == v[2 * i - 7];
  }

  lemma PadLoaded(s: Halves, head: seq<Word>, val: seq<Word>, block: seq<Word>, v: seq<Word>, p: nat, i: int, h: int)
    requires Loads(s, head, val, block, v, p) && 6 <= i < 25 && 0 <= h < 2
    ensures LoadedAt(s, StepState(StepBlock(block, v, p)), i, h)
  {
    hide Half, Join, Unzip, Lows, Highs, Single, Counter;
    PadHalves(48, i, h);
    NoHalf(h);
  }

  lemma StepLoaded(s: Halves, head: seq<Word>, val: seq<Word>, block: seq<Word>, v: seq<Word>, p: nat, i: int, h: int)
    requires Loads(s, head, val, block, v, p) && 0 <= i < 25 && 0 <= h < 2
    ensures LoadedAt(s, StepState(StepBlock(block, v, p)), i, h)
  {
    hide LoadedAt, StepState, StepBlock;
    if i == 0 {
      FirstLoaded(s, head, val, block, v, p, h);
    } else if i < 4 {
      HeadLoaded(s, head, val, block, v, p, i, h);
    } else if i < 6 {
      ValueLoaded(s, head, val, block, v, p, i, h);
    } else {
      PadLoaded(s, head, val, block, v, p, i, h);
    }
  }

  /** One pass of keccak256_chain16_asm's loop. */
  method ChainStep(s: array<Word>, head: seq<Word>, val: seq<Word>, p: nat, rc: seq<Word>, ghost block: seq<Word>, ghost v: seq<Word>)
    returns (next: seq<Word>)
    requires s.Length == 50 && |rc| == 48 && IsHead(head, block) && Carries(val, v)
    modifies s
    ensures Carries(next, OneBlock(StepBlock(block, v, p), 48, Constants(rc)))
  {
    hide Lows, Highs, Single, Unzip, Counter, StepBlock, Constants, Rounds, Plain, WordsOf, LanesOf, Padded, Absorbed, Half, Join, LoadedAt;
    var up := Unzip(Counter(p));
    for j := 0 to 50
      invariant forall k :: 0 <= k < j ==> s[k] == DeviceWord(head, val, up, k)
    {
      hide DeviceWord;
      s[j] := DeviceWord(head, val, up, j);
    }
    ghost var blk := StepBlock(block, v, p);
    forall i, h | 0 <= i < 25 && 0 <= h < 2
      ensures LoadedAt(s[..], StepState(blk), i, h)
    {
      StepLoaded(s[..], head, val, block, v, p, i, h);
    }
    LoadedIs(s[..], StepState(blk));
    StepStateIs(blk);
    PermuteEmitted(s, rc);
    next := s[..4];
    FirstWords(s[..]);
  }

  lemma FirstWords(s: Halves)
    ensures Carries(s[..4], Plain(s)[..4])
  {
    hide Plain, Half, Join, Weaves;
    PlainWeaves(s);
    forall i, h | 0 <= i < 2 && 0 <= h < 2
      ensures LoadedAt(s[..4], Plain(s)[..4], i, h)
    {
      WeavesAt(s, LanesOf(Plain(s)), i, h);
    }
  }

  lemma HeadIs(head: seq<Word>, block: seq<Word>, was: seq<Word>)
    requires |block| == 16 && |was| == 8 && head == was[0 := Unzip(block[0])]
    requires forall i, h :: 0 <= i < 4 && 0 <= h < 2 ==> LoadedAt(was, block[..8], i, h)
    ensures IsHead(head, block)
  {
    hide Unzip, Half, Join;
    forall i, h | 1 <= i < 4 && 0 <= h < 2
      ensures LoadedAt(head, block, i, h)
    {
      assert LoadedAt(was, block[..8], i, h);
    }
  }

  lemma CarriesAll(val: seq<Word>, v: seq<Word>)
    requires |val| == |v| == 4 && forall i, h :: 0 <= i < 2 && 0 <= h < 2 ==> LoadedAt(val, v, i, h)
    ensures Carries(val, v)
  {
  }

  lemma ChainStart(block: seq<Word>, v: seq<Word>, p: nat, rc: seq<Lane>)
    requires |block| == 16 && |v| == 4 && |rc| == 24
    ensures Chain(block, v, p, 0, rc) == v
  {
  }

  lemma ChainNext(block: seq<Word>, v: seq<Word>, p: nat, k: nat, rc: seq<Lane>)
    requires |block| == 16 && |v| == 4 && |rc| == 24
    ensures Chain(block, v, p, k + 1, rc) == OneBlock(StepBlock(block, Chain(block, v, p, k, rc), p + k), 48, rc)
  {
  }

  /** keccak256_chain16 on the device: the value stays interleaved between steps. */
  method ChainDevice(v: seq<Word>, block: seq<Word>, p: nat, steps: nat, rc: seq<Word>) returns (out: seq<Word>)
    requires |v| == 4 && |block| == 16 && |rc| == 48
    ensures out == Chain(block, v, p, steps, Constants(rc))
  {
    hide OneBlock, StepBlock, Counter, Unzip, Half, Join, LoadedAt, Constants, IsHead, Chain, WordsOf, Carries;
    ghost var c := Constants(rc);
    ChainStart(block, v, p, c);
    if steps == 0 {
      return v;
    }
    var lanes := UnzipPairs(block[..8]);
    var head := lanes[0 := Unzip(block[0])];
    HeadIs(head, block, lanes);
    var val := UnzipPairs(v);
    CarriesAll(val, v);
    var s := new Word[50](_ => ZERO);
    for k := 0 to steps
      invariant Carries(val, Chain(block, v, p, k, c))
    {
      ChainNext(block, v, p, k, c);
      val := ChainStep(s, head, val, p + k, rc, block, Chain(block, v, p, k, c));
    }
    out := ZipPairs(val, Chain(block, v, p, steps, c));
  }
}
