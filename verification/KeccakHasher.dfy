/** hash.rs's `Hasher` on its `State`: the streamed Keccak-256 over interleaved words and the app's
    assembly. A lane is a number to the hasher and a sequence of bits to the state. */
module KeccakHasher {
  import opened Rings
  import opened Multilinear
  import opened Bits
  import opened Carryless
  import opened KeccakStream
  import Interleave
  import KeccakRounds
  import KeccakEmitted
  import KeccakState

  // ---- numbers and bits ------------------------------------------------------------------------

  /** The number of a word's bits, the least significant first, and back. */
  function Number(x: seq<bool>): nat {
    if x == [] then 0 else (if x[0] then 1 else 0) + 2 * Number(x[1..])
  }

  function BitsOf(v: nat, n: nat): (x: seq<bool>)
    ensures |x| == n
    decreases n, v
  {
    if n == 0 then [] else [v % 2 == 1] + BitsOf(v / 2, n - 1)
  }

  lemma {:induction false} BitsOfNumber(x: seq<bool>)
    ensures BitsOf(Number(x), |x|) == x
    decreases |x|
  {
    if x != [] {
      BitsOfNumber(x[1..]);
      assert x == [x[0]] + x[1..];
    }
  }

  lemma {:induction false} NumberOfBits(v: nat, n: nat)
    requires v < Pow2(n)
    ensures Number(BitsOf(v, n)) == v
    decreases n, v
  {
    if n > 0 {
      NumberOfBits(v / 2, n - 1);
      assert BitsOf(v, n)[1..] == BitsOf(v / 2, n - 1);
    }
  }

  lemma {:induction false} NumberXor(a: seq<bool>, b: seq<bool>)
    requires |a| == |b|
    ensures Number(Interleave.XorBits(a, b)) == Xor(Number(a), Number(b))
    decreases |a|
  {
    hide Number, Xor;
    var x := Interleave.XorBits(a, b);
    if a == [] {
      assert x == [] && b == [];
      NumberNone();
    } else {
      assert x[1..] == Interleave.XorBits(a[1..], b[1..]);
      NumberXor(a[1..], b[1..]);
      NumberFirst(a);
      NumberFirst(b);
      NumberFirst(x);
      XorStep(Number(a), Number(b));
    }
  }

  lemma NumberNone()
    ensures Number([]) == 0 && Xor(0, 0) == 0
  {
  }

  lemma NumberFirst(x: seq<bool>)
    requires x != []
    ensures Number(x) == (if x[0] then 1 else 0) + 2 * Number(x[1..])
    ensures Number(x) / 2 == Number(x[1..]) && Number(x) % 2 == if x[0] then 1 else 0
  {
  }

  lemma {:induction false} NumberClear(n: nat)
    ensures Number(Interleave.Clear(n)) == 0
  {
    if n > 0 {
      NumberClear(n - 1);
      assert Interleave.Clear(n)[1..] == Interleave.Clear(n - 1);
    }
  }

  // ---- lanes -----------------------------------------------------------------------------------

  function NumberLanes(a: KeccakRounds.Lanes): (s: Lanes)
    ensures forall i :: 0 <= i < 25 ==> s[i] == Number(a[i])
  {
    seq(25, i requires 0 <= i < 25 => Number(a[i]))
  }

  function BitLanes(s: Lanes): (a: KeccakRounds.Lanes)
    ensures forall i :: 0 <= i < 25 ==> a[i] == BitsOf(s[i], 64)
  {
    seq(25, i requires 0 <= i < 25 => BitsOf(s[i], 64))
  }

  type Constants = rc: seq<Interleave.Word> | |rc| == 48 witness seq(48, _ => Interleave.Clear(32))

  /** Keccak-f on numbers: the 24 rounds, with the constants the two words of each give. */
  function Permuted(rc: Constants, s: Lanes): Lanes {
    NumberLanes(KeccakRounds.Rounds(BitLanes(s), KeccakEmitted.Constants(rc), 24))
  }

  function KeccakF(rc: Constants): Permutation {
    (s: Lanes) => Permuted(rc, s)
  }

  lemma LanesBack(a: KeccakRounds.Lanes)
    ensures BitLanes(NumberLanes(a)) == a
  {
    hide Number, BitsOf;
    forall i | 0 <= i < 25
      ensures BitLanes(NumberLanes(a))[i] == a[i]
    {
      BitsOfNumber(a[i]);
    }
  }

  lemma PermutedNumbers(rc: Constants, a: KeccakRounds.Lanes)
    ensures KeccakF(rc)(NumberLanes(a)) == NumberLanes(KeccakRounds.Rounds(a, KeccakEmitted.Constants(rc), 24))
  {
    hide NumberLanes, BitLanes, KeccakRounds.Rounds, KeccakEmitted.Constants;
    LanesBack(a);
  }

  lemma LaneXored(a: KeccakRounds.Lanes, i: nat, w: nat)
    requires i < 25 && w < Pow2(64)
    ensures NumberLanes(a[i := Interleave.XorBits(a[i], BitsOf(w, 64))]) == XorLane(NumberLanes(a), i, w)
  {
    hide Number, BitsOf, Xor, Pow2;
    NumberXor(a[i], BitsOf(w, 64));
    NumberOfBits(w, 64);
  }

  lemma NoLanes(a: KeccakRounds.Lanes)
    requires forall i :: 0 <= i < 25 ==> a[i] == Interleave.Clear(64)
    ensures NumberLanes(a) == Empty()
  {
    hide Number;
    NumberClear(64);
  }

  /** The bytes of one lane make a 64-bit word. */
  lemma LaneFits(f: Permutation, fed: seq<Byte>, blocks: nat, lanes: nat, state: Lanes, filled: nat, word: nat)
    requires At(f, fed, blocks, lanes, state, filled, word)
    ensures word < Pow2(64)
  {
    hide AbsorbLanes, Little, Pow2;
    var x := Block(fed, blocks)[8 * lanes..];
    LittleBound(x);
    Pow2Mono(8 * |x|, 64);
  }

  lemma TopFits()
    ensures Pow2(56) * 0x80 < Pow2(64)
  {
    hide Pow2;
    ByteMore(56);
  }

  // ---- the hasher ------------------------------------------------------------------------------

  class Hasher {
    const rc: Constants
    const state: KeccakState.State
    var filled: nat
    var word: nat
    ghost var fed: seq<Byte>
    ghost var blocks: nat

    /** The lanes as numbers. */
    ghost function Now(): Lanes
      requires state.Valid()
      reads state, state.words
    {
      NumberLanes(state.Lanes())
    }

    ghost predicate Valid()
      reads this, state, state.words
    {
      && state.Valid()
      && filled < 136
      && At(KeccakF(rc), fed, blocks, filled / 8, Now(), filled, word)
    }

    constructor (rc: Constants)
      ensures Valid() && fed == [] && this.rc == rc && fresh(state) && fresh(state.words)
    {
      var zero := new KeccakState.State();
      this.rc, state, filled, word := rc, zero, 0, 0;
      fed, blocks := [], 0;
      new;
      NoLanes(state.Lanes());
    }

    /** `xor_lane`. */
    method XorInto(i: nat, w: nat)
      requires state.Valid() && i < 25 && w < Pow2(64)
      modifies state.words
      ensures state.Valid() && Now() == XorLane(old(Now()), i, w)
    {
      hide BitsOf, Number, NumberLanes, XorLane, Pow2;
      LaneXored(state.Lanes(), i, w);
      state.XorLane(i, BitsOf(w, 64));
    }

    /** `permute`. */
    method Permute()
      requires state.Valid()
      modifies state.words
      ensures state.Valid() && Now() == KeccakF(rc)(old(Now()))
    {
      hide NumberLanes, KeccakF;
      PermutedNumbers(rc, state.Lanes());
      state.Permute(rc);
    }

    /** `end_lane`: the lane's bytes as one word, and the permutation when the block is full. */
    method EndLane()
      requires state.Valid() && filled > 0 && filled % 8 == 0 && filled <= 136
      requires At(KeccakF(rc), fed, blocks, filled / 8 - 1, Now(), filled, word)
      modifies this`filled, this`word, this`blocks, state.words
      ensures Valid() && filled % 8 == 0
    {
      hide At, AbsorbLanes, Little, NumberLanes, KeccakF, XorLane, Pow2;
      var lane := filled / 8 - 1;
      AtLane(KeccakF(rc), fed, blocks, lane, Now(), filled, word);
      LaneFits(KeccakF(rc), fed, blocks, lane, Now(), filled, word);
      if word != 0 {
        XorInto(lane, word);
        word := 0;
      }
      if filled == RATE {
        AtBlock(KeccakF(rc), fed, blocks, Now());
        Permute();
        filled := 0;
        blocks := blocks + 1;
      }
    }

    /** `update`. */
    method Update(data: seq<Byte>)
      requires Valid()
      modifies this, state.words
      ensures Valid() && fed == old(fed) + data
    {
      hide At, AbsorbLanes, Little, Or, Pow2, KeccakF, NumberLanes;
      var done := 0;
      assert fed + data[..0] == fed;
      while done < |data|
        invariant 0 <= done <= |data| && Valid() && fed == old(fed) + data[..done]
      {
        hide Valid;
        if filled % 8 == 0 && |data| - done >= 8 {
          TakeWord(data[done..done + 8]);
          assert data[..done + 8] == data[..done] + data[done..done + 8];
          done := done + 8;
        } else {
          TakeByte(data[done]);
          assert data[..done + 1] == data[..done] + [data[done]];
          done := done + 1;
        }
      }
      assert data[..done] == data;
    }

    /** A turn of `update`'s loop: eight bytes at the start of a lane. */
    method TakeWord(eight: seq<Byte>)
      requires Valid() && filled % 8 == 0 && |eight| == 8
      modifies this, state.words
      ensures Valid() && fed == old(fed) + eight
    {
      hide At, AbsorbLanes, Little, Pow2, KeccakF, NumberLanes;
      ghost var f, lanes := KeccakF(rc), filled / 8;
      AtFacts(f, fed, blocks, lanes, Now(), filled, word);
      WholeLane(f, fed, blocks, lanes, Now(), filled, word, eight);
      word := Little(eight);
      filled := filled + 8;
      fed := fed + eight;
      EndLane();
    }

    /** The other turn: one byte, which may end a lane. */
    method TakeByte(one: Byte)
      requires Valid()
      modifies this, state.words
      ensures Valid() && fed == old(fed) + [one]
    {
      hide At, AbsorbLanes, Little, Or, Pow2, KeccakF, NumberLanes;
      ghost var f, lanes := KeccakF(rc), filled / 8;
      AtFacts(f, fed, blocks, lanes, Now(), filled, word);
      NextByte(f, fed, blocks, lanes, Now(), filled, word, one);
      word := Or(word, ByteUp(one, filled % 8));
      filled := filled + 1;
      fed := fed + [one];
      if filled % 8 == 0 {
        EndLane();
      }
    }

    /** `zeros`: n zero bytes. */
    method FeedZeros(n: nat)
      requires Valid()
      modifies this, state.words
      ensures Valid() && fed == old(fed) + Zeros(n)
    {
      hide At, AbsorbLanes, Little, KeccakF, NumberLanes;
      var left := n;
      assert fed + Zeros(0) == fed;
      while left > 0
        invariant 0 <= left <= n && Valid() && fed == old(fed) + Zeros(n - left)
      {
        var step := if left < 8 - filled % 8 then left else 8 - filled % 8;
        SomeZeros(KeccakF(rc), fed, blocks, filled / 8, Now(), filled, word, step);
        filled := filled + step;
        fed := fed + Zeros(step);
        assert Zeros(n - left) + Zeros(step) == Zeros(n - left + step);
        left := left - step;
        if filled % 8 == 0 {
          EndLane();
        }
      }
    }

    /** `finish`: the padding's two ends, wherever they fall, the permutation, and four lanes read. */
    method Finish() returns (digest: seq<nat>)
      requires Valid()
      modifies state.words
      ensures digest == Sponge(KeccakF(rc), fed)
    {
      hide At, AbsorbLanes, Little, Or, Pow2, XorLane, Sponge, After, KeccakF, NumberLanes, Number;
      var lanes := filled / 8;
      AtFacts(KeccakF(rc), fed, blocks, lanes, Now(), filled, word);
      var last := Or(word, ByteUp(0x01, filled % 8));
      LastBlock(KeccakF(rc), fed, blocks, Now(), filled, word);
      NextByte(KeccakF(rc), fed, blocks, lanes, Now(), filled, word, 0x01);
      LaneFits(KeccakF(rc), fed + [0x01], blocks, lanes, Now(), filled + 1, last);
      TopFits();
      XorInto(lanes, last);
      XorInto(16, Pow2(56) * 0x80);
      Permute();
      digest := ReadFour();
    }

    method ReadFour() returns (digest: seq<nat>)
      requires state.Valid()
      ensures digest == Digest(Now())
    {
      hide Number;
      digest := [];
      for i := 0 to 4
        invariant |digest| == i && forall k :: 0 <= k < i ==> digest[k] == Now()[k]
      {
        var x := state.Lane(i);
        digest := digest + [Number(x)];
      }
    }
  }
}
