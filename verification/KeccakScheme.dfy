/** Keccak as the signature scheme's hash (sphincs.c, hash.c, keccak.c): the block a caller fills, its
    one-block hash and the fused chain are the scheme's `Th` and `Chain` over Keccak-256 of the input's
    bytes. */
module KeccakScheme {
  import opened Rings
  import opened Multilinear
  import opened Bits
  import opened KeccakStream
  import opened KeccakHasher
  import opened KeccakBytes
  import Codewords
  import Interleave
  import KeccakDevice
  import KeccakEmitted
  import KeccakPermute
  import Sphincs
  import SphincsScheme

  // ---- the scheme's hash -------------------------------------------------------------------------

  function ByteOfWord(w: nat, j: nat): Byte {
    LowBound(Shift(w, 8 * j), 8);
    Pow2Values();
    Low(Shift(w, 8 * j), 8)
  }

  /** The bytes of a stream of words, each little-endian. */
  function WordBytes(words: seq<nat>): (b: seq<Byte>)
    ensures |b| == 4 * |words| && forall i :: 0 <= i < |b| ==> b[i] == ByteOfWord(words[i / 4], i % 4)
  {
    seq(4 * |words|, i requires 0 <= i < 4 * |words| => ByteOfWord(words[i / 4], i % 4))
  }

  /** The two words of lane i of a digest. */
  function LowWord(d: seq<nat>, i: nat): Sphincs.Word {
    if i < |d| then d[i] % 0x1_0000_0000 else 0
  }

  function HighWord(d: seq<nat>, i: nat): Sphincs.Word {
    if i < |d| then d[i] / 0x1_0000_0000 % 0x1_0000_0000 else 0
  }

  /** H: Keccak-256 of the words' bytes, as words. */
  function DigestOf(d: seq<nat>): Sphincs.Digest {
    Sphincs.Digest(LowWord(d, 0), HighWord(d, 0), LowWord(d, 1), HighWord(d, 1),
                   LowWord(d, 2), HighWord(d, 2), LowWord(d, 3), HighWord(d, 3))
  }

  function Keccak(rc: Constants): Sphincs.Hash {
    words => DigestOf(Sponge(KeccakF(rc), WordBytes(words)))
  }

  // ---- what is hashed, as bytes ------------------------------------------------------------------

  /** Four bytes, little-endian. */
  function LittleWord(v: Sphincs.Word): seq<Byte> {
    [v % 256, v / 256 % 256, v / 65536 % 256, v / 16777216]
  }

  lemma {:induction false} LowIsRemainder(n: nat, k: nat)
    ensures Low(n, k) == n % Pow2(k) && Shift(n, k) == n / Pow2(k)
    decreases k, n
  {
    if k > 0 {
      LowIsRemainder(n / 2, k - 1);
      Halved(n, Pow2(k - 1));
    }
  }

  lemma Halved(n: nat, p: nat)
    requires p > 0
    ensures n % 2 + 2 * (n / 2 % p) == n % (2 * p) && n / 2 / p == n / (2 * p)
  {
    var q, r := n / 2 / p, n / 2 % p;
    assert n / 2 == q * p + r;
    assert n == (2 * p) * q + (2 * r + n % 2);
    DivUnique(n, 2 * p, q, 2 * r + n % 2);
  }

  lemma WordIsLittle(w: Sphincs.Word)
    ensures WordBytes([w]) == LittleWord(w)
  {
    hide Low, Shift;
    Pow2Values();
    Pow2Add(16, 8);
    hide Pow2;
    assert Pow2(0) == 1 by {
      LowIsRemainder(0, 0);
    }
    LowIsRemainder(w, 0);
    LowIsRemainder(w, 8);
    LowIsRemainder(w, 16);
    LowIsRemainder(w, 24);
    LowIsRemainder(Shift(w, 0), 8);
    LowIsRemainder(Shift(w, 8), 8);
    LowIsRemainder(Shift(w, 16), 8);
    LowIsRemainder(Shift(w, 24), 8);
  }

  lemma WordBytesConcat(a: seq<nat>, b: seq<nat>)
    ensures WordBytes(a + b) == WordBytes(a) + WordBytes(b)
  {
    hide ByteOfWord;
    var l := |a|;
    forall i | 0 <= i < 4 * |a + b|
      ensures WordBytes(a + b)[i] == (WordBytes(a) + WordBytes(b))[i]
    {
      if i >= 4 * l {
        assert (i - 4 * l) / 4 == i / 4 - l && (i - 4 * l) % 4 == i % 4;
      }
    }
  }

  /** The tweak's bytes: 1, the kind, the layer, 0, and three numbers little-endian. */
  lemma TweakBytes(kind: nat, lay: nat, tau: Sphincs.Word, p: Sphincs.Word, j: Sphincs.Word)
    requires kind < 256 && lay < 256
    ensures WordBytes(Sphincs.Tweak(kind, lay, tau, p, j)) == [1, kind, lay, 0] + LittleWord(p) + LittleWord(tau) + LittleWord(j)
  {
    hide WordBytes;
    var w := 1 + 256 * kind + 65536 * lay;
    var t := Sphincs.Tweak(kind, lay, tau, p, j);
    assert t == [w] + [p] + [tau] + [j];
    WordBytesConcat([w] + [p] + [tau], [j]);
    WordBytesConcat([w] + [p], [tau]);
    WordBytesConcat([w], [p]);
    WordIsLittle(w);
    WordIsLittle(p);
    WordIsLittle(tau);
    WordIsLittle(j);
    HeadBytes(kind, lay);
  }

  lemma HeadBytes(kind: nat, lay: nat)
    requires kind < 256 && lay < 256
    ensures var w := 1 + 256 * kind + 65536 * lay;
      w % 256 == 1 && w / 256 % 256 == kind && w / 65536 % 256 == lay && w / 16777216 == 0
  {
    var w := 1 + 256 * kind + 65536 * lay;
    assert w / 256 == kind + 256 * lay;
    assert w / 65536 == lay;
  }

  /** What is hashed under a tweak, in bytes: 1, the kind, the layer, 0, three little-endian numbers,
      the public parameter, and the payload. */
  function Input(kind: Byte, lay: Byte, p: Sphincs.Word, tau: Sphincs.Word, j: Sphincs.Word, pp: seq<nat>, payload: seq<nat>): seq<Byte> {
    [1, kind, lay, 0] + LittleWord(p) + LittleWord(tau) + LittleWord(j) + WordBytes(pp) + WordBytes(payload)
  }

  /** d is the hash of the words with those bytes. */
  ghost predicate Digests(h: Sphincs.Hash, bytes: seq<Byte>, d: Sphincs.Digest) {
    exists w :: WordBytes(w) == bytes && d == h(w)
  }

  /** v is the first half of such a hash. */
  ghost predicate Hashes(h: Sphincs.Hash, bytes: seq<Byte>, v: seq<nat>) {
    exists d :: Digests(h, bytes, d) && v == d.Value()
  }

  lemma InputBytes(kind: Byte, lay: Byte, p: Sphincs.Word, tau: Sphincs.Word, j: Sphincs.Word, pp: seq<nat>, payload: seq<nat>)
    ensures WordBytes(Sphincs.Tweak(kind, lay, tau, p, j) + pp + payload) == Input(kind, lay, p, tau, j, pp, payload)
  {
    hide WordBytes, LittleWord, Sphincs.Tweak;
    var t := Sphincs.Tweak(kind, lay, tau, p, j);
    TweakBytes(kind, lay, tau, p, j);
    WordBytesConcat(t, pp);
    WordBytesConcat(t + pp, payload);
  }

  lemma HashedInput(h: Sphincs.Hash, kind: Byte, lay: Byte, p: Sphincs.Word, tau: Sphincs.Word, j: Sphincs.Word,
                    pp: seq<nat>, payload: seq<nat>)
    ensures Hashes(h, Input(kind, lay, p, tau, j, pp, payload), Sphincs.Th(h, pp, Sphincs.Tweak(kind, lay, tau, p, j), payload))
  {
    hide WordBytes, Input, Sphincs.Tweak;
    InputBytes(kind, lay, p, tau, j, pp, payload);
    assert Digests(h, Input(kind, lay, p, tau, j, pp, payload), h(Sphincs.Tweak(kind, lay, tau, p, j) + pp + payload));
  }

  /** A one-time key: its secrets (kind 0), its chains (1) and its leaf (2). */
  lemma KeyInputs(h: Sphincs.Hash, pp: seq<nat>, master: seq<nat>, lay: Byte, tau: Sphincs.Word, e: Sphincs.Word,
                  i: nat, s: nat, value: seq<nat>, tips: seq<seq<nat>>)
    requires i < 42 && s < 7
    ensures Hashes(h, Input(0, lay, i, tau, e, pp, master), Sphincs.Secret(h, pp, master, Sphincs.Place(lay, tau, e), i))
    ensures Hashes(h, Input(1, lay, 8 * i + s, tau, e, pp, value), Sphincs.Chain(h, pp, Sphincs.Place(lay, tau, e), i, s, 1, value))
    ensures Hashes(h, Input(2, lay, 0, tau, e, pp, Sphincs.Flatten(tips)), Sphincs.LeafHash(h, pp, Sphincs.Place(lay, tau, e), tips))
  {
    hide Hashes, Input, Sphincs.Tweak, Sphincs.Th, Sphincs.Flatten;
    HashedInput(h, 0, lay, i, tau, e, pp, master);
    HashedInput(h, 1, lay, 8 * i + s, tau, e, pp, value);
    HashedInput(h, 2, lay, 0, tau, e, pp, Sphincs.Flatten(tips));
  }

  /** Its message (4): the value signed and the counter tried, the bytes the codeword is read from. */
  lemma EncodeInput(h: Sphincs.Hash, pp: seq<nat>, lay: Byte, tau: Sphincs.Word, e: Sphincs.Word, m: seq<nat>, c: nat) returns (d: seq<nat>)
    ensures |d| == 4 && Hashes(h, Input(4, lay, 0, tau, e, pp, m + [c]), d)
    ensures Sphincs.Encode(h, pp, Sphincs.Place(lay, tau, e), m, c) == Codewords.ReferenceCodeword(d)
  {
    hide Hashes, Input, Sphincs.Tweak, Sphincs.Th, Codewords.ReferenceCodeword;
    HashedInput(h, 4, lay, 0, tau, e, pp, m + [c]);
    d := Sphincs.Th(h, pp, Sphincs.Tweak(4, lay, tau, 0, e), m + [c]);
  }

  /** The few-time trees: their secrets (8), their leaves (9) and the key over their roots (11). */
  lemma FewTimeInputs(h: Sphincs.Hash, pp: seq<nat>, master: seq<nat>, idx: Sphincs.Word, kappa: Byte, j: Sphincs.Word,
                      secret: seq<nat>, roots: seq<seq<nat>>)
    ensures Hashes(h, Input(8, kappa, 0, idx, j, pp, master), Sphincs.FtsSecret(h, pp, master, idx, kappa, j))
    ensures Hashes(h, Input(9, kappa, 0, idx, j, pp, secret), Sphincs.FtsLeaf(h, pp, idx, kappa, j, secret))
    ensures Hashes(h, Input(11, 0, 0, idx, 0, pp, Sphincs.Flatten(roots)), Sphincs.FtsKey(h, pp, idx, roots))
  {
    hide Hashes, Input, Sphincs.Tweak, Sphincs.Th, Sphincs.Flatten;
    HashedInput(h, 8, kappa, 0, idx, j, pp, master);
    HashedInput(h, 9, kappa, 0, idx, j, pp, secret);
    HashedInput(h, 11, 0, 0, idx, 0, pp, Sphincs.Flatten(roots));
  }

  /** A node of a layer's tree (3) or of a few-time tree (10): its level, its place and its children. */
  lemma NodeInputs(h: Sphincs.Hash, pp: seq<nat>, master: seq<nat>, lay: Byte, tau: Sphincs.Word, level: Sphincs.Word, j: Sphincs.Word,
                   left: seq<nat>, right: seq<nat>)
    ensures Hashes(h, Input(3, lay, level, tau, j, pp, left + right),
                   Sphincs.LayerTree(h, pp, master, lay, tau).node(level, j, left, right))
    ensures Hashes(h, Input(10, lay, level, tau, j, pp, left + right),
                   Sphincs.FtsTree(h, pp, master, tau, lay).node(level, j, left, right))
  {
    hide Hashes, Input, Sphincs.Tweak, Sphincs.Th;
    HashedInput(h, 3, lay, level, tau, j, pp, left + right);
    HashedInput(h, 10, lay, level, tau, j, pp, left + right);
  }

  /** The message digest (12), a trial's randomizer (7) and the public parameter (5), whose own place
      is zero. */
  lemma MessageInputs(h: Sphincs.Hash, pp: seq<nat>, root: seq<nat>, rho: seq<nat>, m: seq<nat>, master: seq<nat>, trial: Sphincs.Word)
    ensures Digests(h, Input(12, 0, 0, 0, 0, pp, rho + root + m), Sphincs.MessageHash(h, pp, root, rho, m))
    ensures Hashes(h, Input(7, 0, trial, 0, 0, pp, master + m), SphincsScheme.Randomizer(h, pp, master, m, trial))
    ensures Hashes(h, Input(5, 0, 0, 0, 0, [0, 0, 0, 0], master),
                   Sphincs.Th(h, [0, 0, 0, 0], Sphincs.Tweak(Sphincs.PARAMETER, 0, 0, 0, 0), master))
  {
    hide Hashes, Input, WordBytes, Sphincs.Tweak;
    InputBytes(12, 0, 0, 0, 0, pp, rho + root + m);
    HashedInput(h, 7, 0, trial, 0, 0, pp, master + m);
    HashedInput(h, 5, 0, 0, 0, 0, [0, 0, 0, 0], master);
    var t, u := Sphincs.Tweak(12, 0, 0, 0, 0) + pp, Sphincs.Tweak(7, 0, 0, trial, 0) + pp;
    assert t + rho + root + m == t + (rho + root + m);
    assert u + master + m == u + (master + m);
  }

  // ---- a block's words ---------------------------------------------------------------------------

  function Numbers(w: seq<Interleave.Word>): (n: seq<nat>)
    ensures |n| == |w| && forall i :: 0 <= i < |w| ==> n[i] == Number(w[i])
  {
    seq(|w|, i requires 0 <= i < |w| => Number(w[i]))
  }

  function Words(n: seq<nat>): (w: seq<Interleave.Word>)
    ensures |w| == |n| && forall i :: 0 <= i < |n| ==> w[i] == BitsOf(n[i], 32)
  {
    seq(|n|, i requires 0 <= i < |n| => BitsOf(n[i], 32))
  }

  lemma {:induction false} NumberSlice(x: seq<bool>, a: nat, n: nat)
    requires a + n <= |x|
    ensures Number(x[a..a + n]) == Low(Shift(Number(x), a), n)
    decreases a, n, |x|
  {
    hide Number;
    if a > 0 {
      NumberFirst(x);
      NumberSlice(x[1..], a - 1, n);
      assert x[1..][a - 1..a - 1 + n] == x[a..a + n];
    } else if n > 0 {
      NumberFirst(x);
      NumberFirst(x[..n]);
      NumberSlice(x[1..], 0, n - 1);
      assert x[..n][1..] == x[1..][..n - 1];
    } else {
      NumberNone();
      assert x[0..0] == [];
    }
  }

  /** The bytes of a block's first words. */
  lemma BlockWords(block: seq<Interleave.Word>, n: nat)
    requires n <= |block|
    ensures BlockBytes(block, 4 * n) == WordBytes(Numbers(block[..n]))
  {
    hide Number, Low, Shift;
    forall i | 0 <= i < 4 * n
      ensures BlockBytes(block, 4 * n)[i] == WordBytes(Numbers(block[..n]))[i]
    {
      NumberSlice(block[i / 4], 8 * (i % 4), 8);
    }
  }

  lemma {:induction false} NumberJoin(x: seq<bool>, y: seq<bool>)
    ensures Number(x + y) == Number(x) + Pow2(|x|) * Number(y)
    decreases |x|
  {
    if x == [] {
      assert x + y == y;
    } else {
      NumberJoin(x[1..], y);
      assert (x + y)[1..] == x[1..] + y && (x + y)[0] == x[0];
      Regroup(Number(y), Pow2(|x| - 1));
    }
  }

  lemma Regroup(y: int, p: int)
    ensures 2 * (p * y) == (2 * p) * y
  {
  }

  /** A lane's number splits into its words' again. */
  lemma LaneWords(x: Interleave.Word, y: Interleave.Word)
    ensures Number(KeccakPermute.Join(x, y)) % 0x1_0000_0000 == Number(x)
    ensures Number(KeccakPermute.Join(x, y)) / 0x1_0000_0000 % 0x1_0000_0000 == Number(y)
  {
    hide Number, Pow2;
    NumberJoin(x, y);
    NumberBound(x);
    NumberBound(y);
    Codewords.WordPower();
  }

  // ---- one block -------------------------------------------------------------------------------

  function OneBlockNumbers(block: seq<Interleave.Word>, len: nat, rc: Constants): (n: seq<nat>)
    ensures |n| == 4
  {
    Numbers(KeccakDevice.OneBlock(block, len, KeccakEmitted.Constants(rc)))
  }

  /** `th_oneblock`: the one-block hash of n words is the scheme's hash of them. */
  lemma OneBlockIsHash(block: seq<Interleave.Word>, n: nat, rc: Constants)
    requires |block| == 16 && n <= 16 && ZeroAfter(block, 4 * n)
    ensures OneBlockNumbers(block, 4 * n, rc) == Keccak(rc)(Numbers(block[..n])).Value()
  {
    hide Number, KeccakF, Sponge, KeccakDevice.OneBlock, BlockBytes, WordBytes, KeccakEmitted.Constants, Numbers, ZeroAfter, KeccakPermute.Join;
    var out := KeccakDevice.OneBlock(block, 4 * n, KeccakEmitted.Constants(rc));
    BlockWords(block, n);
    OneBlockIsSponge(block, 4 * n, rc, 0);
    OneBlockIsSponge(block, 4 * n, rc, 1);
    SpongeLength(KeccakF(rc), BlockBytes(block, 4 * n));
    LaneWords(out[0], out[1]);
    LaneWords(out[2], out[3]);
  }

  lemma SpongeLength(f: Permutation, msg: seq<Byte>)
    ensures |Sponge(f, msg)| == 4
  {
    hide AbsorbLanes, Padding, After;
  }

  // ---- the chain -------------------------------------------------------------------------------

  lemma {:induction false} CounterBits(p: nat, i: nat)
    ensures KeccakDevice.BitOf(p, i) == (Bit(p, i) == 1)
    decreases i
  {
    if i > 0 {
      CounterBits(p / 2, i - 1);
    }
  }

  lemma CounterWord(p: nat)
    ensures KeccakDevice.Counter(p) == BitsOf(p, 32)
  {
    hide BitsOf, Bit, KeccakDevice.BitOf;
    forall i | 0 <= i < 32
      ensures KeccakDevice.Counter(p)[i] == BitsOf(p, 32)[i]
    {
      CounterBits(p, i);
      BitsOfAt(p, 32, i);
    }
  }

  lemma NumbersOfWords(n: seq<nat>)
    requires Codewords.Words(n)
    ensures Numbers(Words(n)) == n
  {
    hide Number, BitsOf, Pow2;
    Codewords.WordPower();
    forall i | 0 <= i < |n|
      ensures Numbers(Words(n))[i] == n[i]
    {
      NumberOfBits(n[i], 32);
    }
  }

  /** The block a chain starts from: the tweak with its counter still open, the public parameter,
      room for the value, and zeros. */
  function ChainBlock(pp: seq<nat>, at: Sphincs.Place): (b: seq<Interleave.Word>)
    requires |pp| == 4
    ensures |b| == 16
  {
    Words(Sphincs.Tweak(Sphincs.CHAIN, at.lay, at.tau, 0, at.e) + pp) + seq(8, _ => Interleave.Clear(32))
  }

  /** A step's block, in three parts. */
  lemma StepParts(pp: seq<nat>, at: Sphincs.Place, v: seq<Interleave.Word>, p: nat)
    requires |pp| == 4 && |v| == 4
    ensures var b := KeccakDevice.StepBlock(ChainBlock(pp, at), v, p);
      b == Words(Sphincs.Tweak(Sphincs.CHAIN, at.lay, at.tau, p, at.e) + pp) + v + seq(4, _ => Interleave.Clear(32))
  {
    hide BitsOf, KeccakDevice.Counter;
    CounterWord(p);
    var c, head := ChainBlock(pp, at), Words(Sphincs.Tweak(Sphincs.CHAIN, at.lay, at.tau, p, at.e) + pp);
    assert head == c[..1] + [KeccakDevice.Counter(p)] + c[2..8];
    assert c[12..] == seq(4, _ => Interleave.Clear(32));
  }

  lemma ZeroTail(front: seq<Interleave.Word>)
    requires |front| == 12
    ensures ZeroAfter(front + seq(4, _ => Interleave.Clear(32)), 48)
  {
    var b: seq<Interleave.Word> := front + seq(4, _ => Interleave.Clear(32));
    forall j, t | 0 <= j < |b| && 0 <= t < 32 && 32 * j + t >= 8 * 48
      ensures !b[j][t]
    {
      assert j >= 12 && b[j] == Interleave.Clear(32);
    }
  }

  lemma StepWords(pp: seq<nat>, at: Sphincs.Place, v: seq<Interleave.Word>, p: nat)
    requires |pp| == 4 && |v| == 4 && p < 0x1_0000_0000
    requires Codewords.Words(pp) && Codewords.Words(Sphincs.Tweak(Sphincs.CHAIN, at.lay, at.tau, p, at.e))
    ensures var b := KeccakDevice.StepBlock(ChainBlock(pp, at), v, p);
      Numbers(b[..12]) == Sphincs.Tweak(Sphincs.CHAIN, at.lay, at.tau, p, at.e) + pp + Numbers(v) && ZeroAfter(b, 48)
  {
    hide Number, BitsOf, KeccakDevice.StepBlock, ZeroAfter, Words, Sphincs.Tweak, ChainBlock;
    var b := KeccakDevice.StepBlock(ChainBlock(pp, at), v, p);
    var head := Sphincs.Tweak(Sphincs.CHAIN, at.lay, at.tau, p, at.e) + pp;
    StepParts(pp, at, v, p);
    NumbersOfWords(head);
    ZeroTail(Words(head) + v);
    assert b[..12] == Words(head) + v;
    assert Numbers(Words(head) + v) == Numbers(Words(head)) + Numbers(v);
  }

  /** The chain a device walks, its value and counter put into one block, is the scheme's. */
  lemma {:induction false} ChainIsScheme(pp: seq<nat>, at: Sphincs.Place, i: nat, start: nat, steps: nat, v: seq<Interleave.Word>, rc: Constants)
    requires |pp| == 4 && |v| == 4 && 8 * i + start + steps <= 0x1_0000_0000
    requires Codewords.Words(pp) && Codewords.Words(Sphincs.Tweak(Sphincs.CHAIN, at.lay, at.tau, 0, at.e))
    ensures Numbers(KeccakDevice.Chain(ChainBlock(pp, at), v, 8 * i + start, steps, KeccakEmitted.Constants(rc)))
         == Sphincs.Chain(Keccak(rc), pp, at, i, start, steps, Numbers(v))
    decreases steps
  {
    hide Number, Keccak, KeccakDevice.OneBlock, KeccakEmitted.Constants, ChainBlock, KeccakDevice.StepBlock, Numbers, ZeroAfter;
    if steps > 0 {
      var p := 8 * i + start;
      var k := KeccakEmitted.Constants(rc);
      ChainIsScheme(pp, at, i, start, steps - 1, v, rc);
      var u := KeccakDevice.Chain(ChainBlock(pp, at), v, p, steps - 1, k);
      TweakWords(at, p + steps - 1);
      StepWords(pp, at, u, p + steps - 1);
      OneBlockIsHash(KeccakDevice.StepBlock(ChainBlock(pp, at), u, p + steps - 1), 12, rc);
    }
  }

  lemma TweakWords(at: Sphincs.Place, p: nat)
    requires Codewords.Words(Sphincs.Tweak(Sphincs.CHAIN, at.lay, at.tau, 0, at.e)) && p < 0x1_0000_0000
    ensures Codewords.Words(Sphincs.Tweak(Sphincs.CHAIN, at.lay, at.tau, p, at.e))
  {
    var s, t := Sphincs.Tweak(Sphincs.CHAIN, at.lay, at.tau, 0, at.e), Sphincs.Tweak(Sphincs.CHAIN, at.lay, at.tau, p, at.e);
    assert s[0] == t[0] && s[2] == t[2] && s[3] == t[3];
  }
}
