/** The one-block hash (keccak.c, gen_asm.py) is the sponge on its bytes: the words, the padding and the
    permutation of `KeccakDevice` agree with the byte stream's of `KeccakStream`. */
module KeccakBytes {
  import opened Rings
  import opened Multilinear
  import opened Bits
  import opened Carryless
  import opened KeccakStream
  import opened KeccakHasher
  import Interleave
  import KeccakRounds
  import KeccakPermute
  import KeccakEmitted
  import KeccakDevice

  // ---- bits ------------------------------------------------------------------------------------

  /** Bit k of a byte string, the lowest bit of each byte first. */
  predicate BitOfBytes(b: seq<Byte>, k: nat) {
    k / 8 < |b| && Bit(b[k / 8], k % 8) == 1
  }

  lemma {:induction false} LittleBit(b: seq<Byte>, k: nat)
    ensures Bit(Little(b), k) == 1 <==> BitOfBytes(b, k)
    decreases |b|
  {
    hide Bit, Little;
    if b == [] {
      NoBytes();
      ShiftZero(k);
    } else {
      LittleFirst(b);
      ByteRoom(Little(b[1..]), b[0], k);
      if k >= 8 {
        LittleBit(b[1..], k - 8);
        assert (k - 8) / 8 == k / 8 - 1 && (k - 8) % 8 == k % 8;
      }
    }
  }

  lemma {:induction false} BitsOfAt(v: nat, n: nat, z: nat)
    requires z < n
    ensures BitsOf(v, n)[z] == (Bit(v, z) == 1)
    decreases n
  {
    if z > 0 {
      BitsOfAt(v / 2, n - 1, z - 1);
    }
  }

  /** Eight bytes and a lane with the same bits are one number. */
  lemma SameLane(x: seq<bool>, b: seq<Byte>)
    requires |x| == 64 && |b| == 8 && forall z :: 0 <= z < 64 ==> x[z] == BitOfBytes(b, z)
    ensures Number(x) == Little(b)
  {
    hide Number, Little, Bit, BitsOf, Pow2;
    LittleBound(b);
    NumberOfBits(Little(b), 64);
    forall z | 0 <= z < 64
      ensures BitsOf(Little(b), 64)[z] == x[z]
    {
      BitsOfAt(Little(b), 64, z);
      LittleBit(b, z);
    }
    assert BitsOf(Little(b), 64) == x;
  }

  // ---- a block's bytes -------------------------------------------------------------------------

  lemma {:induction false} NumberBound(x: seq<bool>)
    ensures Number(x) < Pow2(|x|)
    decreases |x|
  {
    if x != [] {
      NumberBound(x[1..]);
    }
  }

  /** Byte i of a block of words. */
  function BlockByte(block: seq<Interleave.Word>, i: nat): Byte
    requires i < 4 * |block|
  {
    var x := block[i / 4][8 * (i % 4)..8 * (i % 4) + 8];
    NumberBound(x);
    Pow2Values();
    Number(x)
  }

  function BlockBytes(block: seq<Interleave.Word>, len: nat): (b: seq<Byte>)
    requires len <= 4 * |block|
    ensures |b| == len && forall i :: 0 <= i < len ==> b[i] == BlockByte(block, i)
  {
    seq(len, i requires 0 <= i < len => BlockByte(block, i))
  }

  /** Nothing follows the first len bytes. */
  ghost predicate ZeroAfter(block: seq<Interleave.Word>, len: nat) {
    forall j, t :: 0 <= j < |block| && 0 <= t < 32 && 32 * j + t >= 8 * len ==> !block[j][t]
  }

  lemma {:induction false} NumberBit(x: seq<bool>, z: nat)
    requires z < |x|
    ensures Bit(Number(x), z) == 1 <==> x[z]
    decreases |x|
  {
    NumberFirst(x);
    hide Number;
    if z > 0 {
      NumberBit(x[1..], z - 1);
    }
  }

  lemma BlockBit(block: seq<Interleave.Word>, len: nat, k: nat)
    requires len <= 4 * |block| && k < 8 * len
    ensures k / 32 < |block| && BitOfBytes(BlockBytes(block, len), k) == block[k / 32][k % 32]
  {
    hide Number, Bit;
    var i := k / 8;
    assert i / 4 == k / 32 && 8 * (i % 4) + k % 8 == k % 32;
    var x := block[i / 4][8 * (i % 4)..8 * (i % 4) + 8];
    NumberBit(x, k % 8);
  }

  // ---- the padded block ------------------------------------------------------------------------

  lemma OneBits(j: nat)
    requires j < 8
    ensures Bit(0x01, j) == 1 <==> j == 0
    ensures Bit(0x80, j) == 1 <==> j == 7
  {
    if j == 0 {
      assert Bit(0x80, 0) == 0;
    } else {
      OneOf(j);
      TopOf(j);
    }
  }

  lemma OneOf(j: nat)
    requires j > 0
    ensures Bit(1, j) == 0
  {
    ShiftZero(j - 1);
  }

  lemma TopOf(j: nat)
    requires 0 < j < 8
    ensures Bit(0x80, j) == 1 <==> j == 7
  {
    assert Bit(0x80, j) == Bit(0x40, j - 1);
    if j >= 2 {
      assert Bit(0x40, j - 1) == Bit(0x20, j - 2);
    }
    if j >= 3 {
      assert Bit(0x20, j - 2) == Bit(0x10, j - 3);
    }
    if j >= 4 {
      assert Bit(0x10, j - 3) == Bit(0x08, j - 4);
    }
    if j >= 5 {
      assert Bit(0x08, j - 4) == Bit(0x04, j - 5);
    }
    if j >= 6 {
      assert Bit(0x04, j - 5) == Bit(0x02, j - 6);
    }
    if j == 7 {
      assert Bit(0x02, 1) == Bit(0x01, 0);
    }
  }

  /** The whole padded input. */
  function Whole(block: seq<Interleave.Word>, len: nat): (b: seq<Byte>)
    requires len <= 4 * |block| && len <= 64
    ensures |b| == 136
  {
    BlockBytes(block, len) + Padding(136 - len)
  }

  /** Its bits: the message, the first padding bit, and the last bit of the block. */
  lemma WholeBit(block: seq<Interleave.Word>, len: nat, k: nat)
    requires len <= 4 * |block| && len <= 64 && k < 1088
    ensures BitOfBytes(Whole(block, len), k) == if k < 8 * len then BitOfBytes(BlockBytes(block, len), k) else k == 8 * len || k == 1087
  {
    hide Bit;
    var w, i := Whole(block, len), k / 8;
    if k < 8 * len {
      assert w[i] == BlockBytes(block, len)[i];
    } else {
      OneBits(k % 8);
      ShiftZero(k % 8);
      assert w[i] == Padding(136 - len)[i - len];
    }
  }

  /** The state before the permutation. */
  function PaddedState(block: seq<Interleave.Word>, len: nat): KeccakRounds.Halves {
    KeccakDevice.Padded(KeccakDevice.Absorbed(KeccakDevice.Blank(), block, (len + 3) / 4), len)
  }

  /** Word j, bit t of the padded state. */
  lemma PaddedBit(block: seq<Interleave.Word>, len: nat, j: nat, t: nat)
    requires |block| == 16 && len <= 64 && ZeroAfter(block, len) && j < 34 && t < 32
    ensures PaddedState(block, len)[j][t]
         == BitOfBytes(Whole(block, len), 32 * j + t)
  {
    hide BitOfBytes, BlockBytes, Whole;
    var k := 32 * j + t;
    assert k / 32 == j && k % 32 == t;
    WholeBit(block, len, k);
    if k < 8 * len {
      BlockBit(block, len, k);
    }
  }

  lemma LaneBit(p: KeccakRounds.Halves, i: nat, z: nat)
    requires i < 25 && z < 64
    ensures KeccakPermute.LanesOf(p)[i][z] == p[2 * i + z / 32][z % 32]
  {
    var x := KeccakPermute.LanesOf(p)[i];
    assert x == KeccakPermute.Join(p[2 * i], p[2 * i + 1]);
    if z < 32 {
      assert x[..32][z] == x[z];
    } else {
      assert x[32..][z - 32] == x[z];
    }
  }

  lemma SliceBit(w: seq<Byte>, i: nat, z: nat)
    requires 8 * i + 8 <= |w| && z < 64
    ensures BitOfBytes(w[8 * i..8 * i + 8], z) == BitOfBytes(w, 64 * i + z)
  {
    hide Bit;
    assert (64 * i + z) / 8 == 8 * i + z / 8 && (64 * i + z) % 8 == z % 8;
  }

  /** A lane of the padded state is its eight bytes. */
  lemma PaddedLane(block: seq<Interleave.Word>, len: nat, i: nat)
    requires |block| == 16 && len <= 64 && ZeroAfter(block, len) && i < 17
    ensures Number(KeccakPermute.LanesOf(PaddedState(block, len))[i]) == LaneOf(Whole(block, len), i)
  {
    hide Number, Little, Whole, PaddedState, BitOfBytes, KeccakPermute.LanesOf, ZeroAfter;
    var p, w := PaddedState(block, len), Whole(block, len);
    var x, b := KeccakPermute.LanesOf(p)[i], w[8 * i..8 * i + 8];
    forall z | 0 <= z < 64
      ensures x[z] == BitOfBytes(b, z)
    {
      LaneBit(p, i, z);
      SliceBit(w, i, z);
      PaddedBit(block, len, 2 * i + z / 32, z % 32);
      assert 32 * (2 * i + z / 32) + z % 32 == 64 * i + z;
    }
    SameLane(x, b);
  }

  lemma {:induction false} AbsorbEmpty(b: seq<Byte>, n: nat, i: nat)
    requires n <= 17 && i < 25
    ensures AbsorbLanes(Empty(), b, n)[i] == if i < n then LaneOf(b, i) else 0
  {
    hide LaneOf, Xor;
    if n > 0 {
      AbsorbEmpty(b, n - 1, i);
      AbsorbNext(Empty(), b, n - 1);
      XorNone(LaneOf(b, n - 1));
    }
  }

  lemma HighLane(block: seq<Interleave.Word>, len: nat, i: nat)
    requires |block| == 16 && len <= 64 && 17 <= i < 25
    ensures Number(KeccakPermute.LanesOf(PaddedState(block, len))[i]) == 0
  {
    hide Number;
    var p := PaddedState(block, len);
    assert p[2 * i] == Interleave.Clear(32) && p[2 * i + 1] == Interleave.Clear(32);
    assert KeccakPermute.LanesOf(p)[i] == Interleave.Clear(64);
    NumberClear(64);
  }

  /** The padded words are the padded bytes, absorbed. */
  lemma PaddedIsAbsorbed(block: seq<Interleave.Word>, len: nat)
    requires |block| == 16 && len <= 64 && ZeroAfter(block, len)
    ensures NumberLanes(KeccakPermute.LanesOf(PaddedState(block, len)))
         == AbsorbLanes(Empty(), Whole(block, len), 17)
  {
    hide Number, LaneOf, Whole, PaddedState, AbsorbLanes, KeccakPermute.LanesOf, ZeroAfter;
    var a := KeccakPermute.LanesOf(PaddedState(block, len));
    forall i | 0 <= i < 25
      ensures NumberLanes(a)[i] == AbsorbLanes(Empty(), Whole(block, len), 17)[i]
    {
      AbsorbEmpty(Whole(block, len), 17, i);
      if i < 17 {
        PaddedLane(block, len, i);
      } else {
        HighLane(block, len, i);
      }
    }
  }

  /** The one-block hash of a zero-padded block is the sponge on its bytes: its four words are the
      first two lanes of the digest. */
  lemma OneBlockIsSponge(block: seq<Interleave.Word>, len: nat, rc: Constants, i: nat)
    requires |block| == 16 && len <= 64 && ZeroAfter(block, len) && i < 2
    ensures var out := KeccakDevice.OneBlock(block, len, KeccakEmitted.Constants(rc));
      Number(KeccakPermute.Join(out[2 * i], out[2 * i + 1])) == Sponge(KeccakF(rc), BlockBytes(block, len))[i]
  {
    hide Number, KeccakF, AbsorbLanes, NumberLanes, BlockBytes, KeccakEmitted.Constants, KeccakRounds.Rounds, PaddedState, After,
         Padding, KeccakPermute.Join, KeccakPermute.WordsOf, KeccakPermute.LanesOf, ZeroAfter;
    var msg := BlockBytes(block, len);
    var a := KeccakPermute.LanesOf(PaddedState(block, len));
    PaddedIsAbsorbed(block, len);
    PermutedNumbers(rc, a);
    ShortSponge(KeccakF(rc), msg);
    OneBlockState(block, len, KeccakEmitted.Constants(rc));
    var r := KeccakRounds.Rounds(a, KeccakEmitted.Constants(rc), 24);
    OutWords(r, i);
    LaneNumber(r, i);
  }

  /** The sponge on less than a block. */
  lemma ShortSponge(f: Permutation, msg: seq<Byte>)
    requires |msg| < 136
    ensures Sponge(f, msg) == Digest(f(AbsorbLanes(Empty(), msg + Padding(136 - |msg|), 17)))
  {
    hide AbsorbLanes, Padding, After, Digest, Empty, Sponge;
    FirstState(f, msg);
    NoWholeBlock(msg);
    var k := |msg| / 136;
    SpongeIs(f, msg, k, msg[136 * k..]);
  }

  lemma SpongeIs(f: Permutation, msg: seq<Byte>, k: nat, rest: seq<Byte>)
    requires k == |msg| / 136 && rest == msg[136 * k..]
    ensures Sponge(f, msg) == Digest(f(AbsorbLanes(After(f, msg, k), rest + Padding(136 - |rest|), 17)))
  {
    hide AbsorbLanes, Padding, After, Digest;
  }

  lemma NoWholeBlock(msg: seq<Byte>)
    requires |msg| < 136
    ensures |msg| / 136 == 0 && msg[136 * (|msg| / 136)..] == msg
  {
  }

  lemma FirstState(f: Permutation, msg: seq<Byte>)
    ensures After(f, msg, 0) == Empty()
  {
    hide AbsorbLanes, Block, Empty;
  }

  lemma OneBlockState(block: seq<Interleave.Word>, len: nat, rc: seq<Interleave.Lane>)
    requires |rc| == 24
    ensures KeccakDevice.OneBlock(block, len, rc)
         == KeccakPermute.WordsOf(KeccakRounds.Rounds(KeccakPermute.LanesOf(PaddedState(block, len)), rc, 24))[..4]
  {
    hide KeccakPermute.WordsOf, KeccakPermute.LanesOf, KeccakRounds.Rounds, KeccakDevice.Padded, KeccakDevice.Absorbed;
  }

  lemma OutWords(r: KeccakRounds.Lanes, i: nat)
    requires i < 2
    ensures KeccakPermute.Join(KeccakPermute.WordsOf(r)[..4][2 * i], KeccakPermute.WordsOf(r)[..4][2 * i + 1]) == r[i]
  {
    KeccakPermute.JoinWords(r[i]);
  }

  lemma LaneNumber(r: KeccakRounds.Lanes, i: nat)
    requires i < 25
    ensures NumberLanes(r)[i] == Number(r[i])
  {
    hide Number;
  }
}
