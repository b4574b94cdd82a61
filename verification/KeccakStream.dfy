/** The verifier's streamed Keccak-256 (hash.rs's `Hasher`): bytes gathered into lanes, whole
    words taken at once where the input allows, zero lanes skipped; against the sponge on the
    whole input (sections 4 and 5.1 of FIPS 202, with the original 0x01 padding). */
module KeccakStream {
  import opened Rings
  import opened Multilinear
  import opened Bits
  import opened Carryless
  import opened MaskedMultiply
  import opened CarrylessMultiply

  type Lanes = s: seq<nat> | |s| == 25 witness seq(25, _ => 0)

  type Permutation = Lanes -> Lanes

  const RATE := 136

  // ---- the sponge ------------------------------------------------------------------------------

  /** A little-endian number. */
  function Little(bytes: seq<Byte>): nat {
    if bytes == [] then 0 else bytes[0] + 256 * Little(bytes[1..])
  }

  function Zeros(n: nat): (z: seq<Byte>)
    ensures |z| == n
  {
    seq(n, _ => 0)
  }

  function XorLane(s: Lanes, i: nat, v: nat): Lanes
    requires i < 25
  {
    s[i := Xor(s[i], v)]
  }

  function LaneOf(bytes: seq<Byte>, i: nat): nat {
    if 8 * i + 8 <= |bytes| then Little(bytes[8 * i..8 * i + 8]) else 0
  }

  /** The first n lanes of a block, added in. */
  function AbsorbLanes(s: Lanes, bytes: seq<Byte>, n: nat): Lanes
    requires n <= 17
  {
    if n == 0 then s else XorLane(AbsorbLanes(s, bytes, n - 1), n - 1, LaneOf(bytes, n - 1))
  }

  function Block(msg: seq<Byte>, k: nat): seq<Byte> {
    if 136 * k <= |msg| then msg[136 * k..] else []
  }

  /** The state after k whole blocks. */
  function After(f: Permutation, msg: seq<Byte>, k: nat): Lanes {
    if k == 0 then Empty() else f(AbsorbLanes(After(f, msg, k - 1), Block(msg, k - 1), 17))
  }

  function Empty(): Lanes {
    seq(25, _ => 0)
  }

  /** pad10*1 on bytes, to fill n. */
  function Padding(n: nat): (p: seq<Byte>)
    requires n > 0
    ensures |p| == n
  {
    if n == 1 then [0x81] else [0x01] + Zeros(n - 2) + [0x80]
  }

  function Digest(s: Lanes): seq<nat> {
    s[..4]
  }

  /** Keccak-256 of a whole message. */
  function Sponge(f: Permutation, msg: seq<Byte>): seq<nat> {
    var k := |msg| / 136;
    var rest := msg[136 * k..];
    Digest(f(AbsorbLanes(After(f, msg, k), rest + Padding(136 - |rest|), 17)))
  }

  // ---- lanes -----------------------------------------------------------------------------------

  lemma {:induction false} LittleConcat(a: seq<Byte>, b: seq<Byte>)
    ensures Little(a + b) == Little(a) + Pow2(8 * |a|) * Little(b)
    decreases |a|
  {
    hide Little;
    if a == [] {
      NoBytes();
      assert a + b == b && Pow2(0) * Little(b) == Little(b);
    } else {
      assert (a + b)[1..] == a[1..] + b;
      LittleConcat(a[1..], b);
      LittleFirst(a);
      LittleFirst(a + b);
      hide Pow2;
      var p, l := Pow2(8 * |a[1..]|), Little(b);
      ByteMore(8 * |a[1..]|);
      assert Pow2(8 * |a|) * l == 256 * (p * l);
    }
  }

  lemma NoBytes()
    ensures Little([]) == 0
  {
  }

  lemma LittleFirst(a: seq<Byte>)
    requires a != []
    ensures Little(a) == a[0] + 256 * Little(a[1..])
  {
  }

  lemma ByteMore(n: nat)
    ensures Pow2(n + 8) == 256 * Pow2(n)
  {
    Pow2Values();
    Pow2Add(n, 8);
  }

  lemma {:induction false} LittleBound(a: seq<Byte>)
    ensures Little(a) < Pow2(8 * |a|)
    decreases |a|
  {
    if a == [] {
      assert Pow2(0) == 1;
    } else {
      LittleBound(a[1..]);
      ByteMore(8 * |a[1..]|);
    }
  }

  lemma {:induction false} LittleZeros(n: nat)
    ensures Little(Zeros(n)) == 0
  {
    if n > 0 {
      assert Zeros(n)[1..] == Zeros(n - 1);
      LittleZeros(n - 1);
    }
  }

  lemma OneByte(b: Byte)
    ensures Little([b]) == b
  {
    assert [b][1..] == [];
  }

  /** A byte moved up j bytes. */
  function ByteUp(b: Byte, j: nat): nat {
    Pow2(8 * j) * b
  }

  /** Or-ing a byte in above the bytes there. */
  lemma OrByte(a: seq<Byte>, b: Byte)
    ensures Or(Little(a), ByteUp(b, |a|)) == Little(a + [b])
  {
    hide Or, And, Xor, Pow2, Shift, Little;
    var k := 8 * |a|;
    LittleBound(a);
    AndUp(Little(a), b, k);
    LowSmall(Little(a), k);
    NoneAnd(b);
    OrIsXor(Little(a), Pow2(k) * b);
    XorDisjoint(Little(a), k, b);
    LittleConcat(a, [b]);
    OneByte(b);
  }

  lemma NoneAnd(b: nat)
    ensures And(0, b) == 0
  {
    AndComm(0, b);
    NoAnd(b);
  }

  lemma XorNothing(s: Lanes, i: nat)
    requires i < 25
    ensures XorLane(s, i, 0) == s
  {
    XorNone(s[i]);
  }

  /** Only the lanes' own bytes count. */
  lemma {:induction false} AbsorbPrefix(s: Lanes, a: seq<Byte>, b: seq<Byte>, n: nat)
    requires n <= 17 && 8 * n <= |a|
    ensures AbsorbLanes(s, a + b, n) == AbsorbLanes(s, a, n)
  {
    if n > 0 {
      AbsorbPrefix(s, a, b, n - 1);
      hide AbsorbLanes, XorLane, Little;
      assert (a + b)[8 * (n - 1)..8 * (n - 1) + 8] == a[8 * (n - 1)..8 * (n - 1) + 8];
      hide LaneOf;
      AbsorbNext(s, a, n - 1);
      AbsorbNext(s, a + b, n - 1);
      SameLane(a, b, n - 1);
    }
  }

  lemma SameLane(a: seq<Byte>, b: seq<Byte>, i: nat)
    requires 8 * i + 8 <= |a|
    ensures LaneOf(a + b, i) == LaneOf(a, i)
  {
    assert (a + b)[8 * i..8 * i + 8] == a[8 * i..8 * i + 8];
  }

  lemma AbsorbNext(s: Lanes, bytes: seq<Byte>, n: nat)
    requires n < 17
    ensures AbsorbLanes(s, bytes, n + 1) == XorLane(AbsorbLanes(s, bytes, n), n, LaneOf(bytes, n))
  {
  }

  lemma {:induction false} AfterGrows(f: Permutation, msg: seq<Byte>, more: seq<Byte>, k: nat)
    requires 136 * k <= |msg|
    ensures After(f, msg + more, k) == After(f, msg, k)
  {
    hide AbsorbLanes, After, Block;
    AfterNone(f, msg, more);
    if k > 0 {
      AfterGrows(f, msg, more, k - 1);
      AfterNext(f, msg, k - 1);
      AfterNext(f, msg + more, k - 1);
      BlockGrows(msg, more, k - 1);
      AbsorbPrefix(After(f, msg, k - 1), Block(msg, k - 1), more, 17);
    }
  }

  lemma AfterNone(f: Permutation, msg: seq<Byte>, more: seq<Byte>)
    ensures After(f, msg + more, 0) == After(f, msg, 0)
  {
  }

  lemma AfterNext(f: Permutation, msg: seq<Byte>, k: nat)
    ensures After(f, msg, k + 1) == f(AbsorbLanes(After(f, msg, k), Block(msg, k), 17))
  {
  }

  lemma BlockGrows(msg: seq<Byte>, more: seq<Byte>, k: nat)
    requires 136 * k <= |msg|
    ensures Block(msg + more, k) == Block(msg, k) + more && |Block(msg, k)| == |msg| - 136 * k
  {
  }

  // ---- the hasher ------------------------------------------------------------------------------

  /** Where a hasher is: whole blocks permuted in, whole lanes of the current one added, the rest
      of the bytes in `word`. */
  ghost predicate At(f: Permutation, fed: seq<Byte>, blocks: nat, lanes: nat, state: Lanes, filled: nat, word: nat) {
    && |fed| == 136 * blocks + filled && filled <= 136 && lanes <= 17 && 8 * lanes <= filled <= 8 * lanes + 8
    && state == AbsorbLanes(After(f, fed, blocks), Block(fed, blocks), lanes)
    && word == Little(Block(fed, blocks)[8 * lanes..])
  }

  /** More bytes into the lane under way. */
  lemma AtMore(f: Permutation, fed: seq<Byte>, blocks: nat, lanes: nat, state: Lanes, filled: nat, word: nat,
               more: seq<Byte>, next: nat)
    requires At(f, fed, blocks, lanes, state, filled, word) && filled + |more| <= 8 * lanes + 8 && lanes < 17
    requires next == Little(Block(fed, blocks)[8 * lanes..] + more)
    ensures At(f, fed + more, blocks, lanes, state, filled + |more|, next)
  {
    hide AbsorbLanes, After, Little;
    AfterGrows(f, fed, more, blocks);
    BlockGrows(fed, more, blocks);
    AbsorbPrefix(After(f, fed, blocks), Block(fed, blocks), more, lanes);
    assert (Block(fed, blocks) + more)[8 * lanes..] == Block(fed, blocks)[8 * lanes..] + more;
  }

  /** A whole lane moves from `word` into the state. */
  lemma AtLane(f: Permutation, fed: seq<Byte>, blocks: nat, lanes: nat, state: Lanes, filled: nat, word: nat)
    requires At(f, fed, blocks, lanes, state, filled, word) && filled == 8 * lanes + 8 && lanes < 17
    ensures At(f, fed, blocks, lanes + 1, XorLane(state, lanes, word), filled, 0)
    ensures word == 0 ==> XorLane(state, lanes, word) == state
  {
    hide AbsorbLanes, After, Little, XorLane;
    var b := Block(fed, blocks);
    BlockGrows(fed, [], blocks);
    assert fed + [] == fed;
    AbsorbNext(After(f, fed, blocks), b, lanes);
    assert b[8 * lanes..] == b[8 * lanes..8 * lanes + 8];
    assert b[8 * (lanes + 1)..] == [];
    NoBytes();
    XorNothing(state, lanes);
  }

  /** A whole block goes through the permutation. */
  lemma AtBlock(f: Permutation, fed: seq<Byte>, blocks: nat, state: Lanes)
    requires At(f, fed, blocks, 17, state, 136, 0)
    ensures At(f, fed, blocks + 1, 0, f(state), 0, 0)
  {
    hide After, Little;
    AfterNext(f, fed, blocks);
    NoBytes();
    assert Block(fed, blocks + 1) == [];
  }

  // ---- single steps ----------------------------------------------------------------------------

  lemma AtFacts(f: Permutation, fed: seq<Byte>, blocks: nat, lanes: nat, state: Lanes, filled: nat, word: nat)
    requires At(f, fed, blocks, lanes, state, filled, word) && filled < 136 && lanes == filled / 8
    ensures |fed| == 136 * blocks + filled && lanes <= 16 && |Block(fed, blocks)[8 * lanes..]| == filled % 8
  {
    hide AbsorbLanes, Little;
  }

  /** A whole word at a lane boundary. */
  lemma WholeLane(f: Permutation, fed: seq<Byte>, blocks: nat, lanes: nat, state: Lanes, filled: nat, word: nat, eight: seq<Byte>)
    requires At(f, fed, blocks, lanes, state, filled, word) && filled < 136 && lanes == filled / 8 && filled % 8 == 0 && |eight| == 8
    ensures At(f, fed + eight, blocks, lanes, state, filled + 8, Little(eight))
  {
    hide AbsorbLanes, Little;
    var t := Block(fed, blocks)[8 * lanes..];
    assert t == [] && t + eight == eight;
    AtMore(f, fed, blocks, lanes, state, filled, word, eight, Little(eight));
  }

  /** One byte, or-ed in at its place. */
  lemma NextByte(f: Permutation, fed: seq<Byte>, blocks: nat, lanes: nat, state: Lanes, filled: nat, word: nat, b: Byte)
    requires At(f, fed, blocks, lanes, state, filled, word) && filled < 136 && lanes == filled / 8
    ensures At(f, fed + [b], blocks, lanes, state, filled + 1, Or(word, ByteUp(b, filled % 8)))
  {
    hide AbsorbLanes, Little, Or, Pow2;
    AtFacts(f, fed, blocks, lanes, state, filled, word);
    OrByte(Block(fed, blocks)[8 * lanes..], b);
    AtMore(f, fed, blocks, lanes, state, filled, word, [b], Or(word, ByteUp(b, filled % 8)));
  }

  /** Zero bytes change nothing but the count. */
  lemma SomeZeros(f: Permutation, fed: seq<Byte>, blocks: nat, lanes: nat, state: Lanes, filled: nat, word: nat, n: nat)
    requires At(f, fed, blocks, lanes, state, filled, word) && filled < 136 && lanes == filled / 8 && n <= 8 - filled % 8
    ensures At(f, fed + Zeros(n), blocks, lanes, state, filled + n, word)
  {
    hide AbsorbLanes, Little, Pow2;
    var t := Block(fed, blocks)[8 * lanes..];
    LittleConcat(t, Zeros(n));
    LittleZeros(n);
    AtMore(f, fed, blocks, lanes, state, filled, word, Zeros(n), word);
  }

  // ---- the last block --------------------------------------------------------------------------

  lemma {:induction false} ZeroLanes(s: Lanes, b: seq<Byte>, from: nat, n: nat)
    requires from <= n <= 17 && forall i :: from <= i < n ==> LaneOf(b, i) == 0
    ensures AbsorbLanes(s, b, n) == AbsorbLanes(s, b, from)
    decreases n
  {
    if from < n {
      ZeroLanes(s, b, from, n - 1);
      AbsorbNext(s, b, n - 1);
      XorNothing(AbsorbLanes(s, b, n - 1), n - 1);
    }
  }

  lemma TopByte()
    ensures Little(Zeros(7) + [0x80]) == Pow2(56) * 0x80
  {
    hide Little, Pow2;
    LittleConcat(Zeros(7), [0x80]);
    LittleZeros(7);
    OneByte(0x80);
  }

  /** A lane that ends the input: the bytes left, the 0x01 and zeros. */
  lemma EndingLane(x: seq<Byte>, n: nat)
    ensures Little(x + [0x01] + Zeros(n)) == Little(x + [0x01]) == Or(Little(x), ByteUp(0x01, |x|))
  {
    hide Little, Pow2, Or;
    LittleConcat(x + [0x01], Zeros(n));
    LittleZeros(n);
    OrByte(x, 0x01);
  }

  /** The two ends of the padding in one lane. */
  lemma BothEnds(x: seq<Byte>)
    requires |x| <= 7
    ensures Little(x + Padding(8 - |x|)) == Xor(Little(x + [0x01]), Pow2(56) * 0x80)
  {
    hide Little, Pow2, Xor;
    if |x| == 7 {
      OneByteLeft(x);
    } else {
      RoomBetween(x);
    }
  }

  lemma OneByteLeft(x: seq<Byte>)
    requires |x| == 7
    ensures Little(x + [0x81]) == Xor(Little(x + [0x01]), Pow2(56) * 0x80)
  {
    hide Little, Pow2, Xor;
    LittleConcat(x, [0x01]);
    LittleConcat(x, [0x81]);
    OneByte(0x01);
    OneByte(0x81);
    LittleBound(x);
    XorAbove(Little(x), 56, 1, 0x80);
    SevenBits();
    XorDisjoint(1, 7, 1);
  }

  lemma PaddingSplits(x: seq<Byte>)
    requires |x| < 7
    ensures x + Padding(8 - |x|) == x + [0x01] + Zeros(6 - |x|) + [0x80]
  {
  }

  lemma RoomBetween(x: seq<Byte>)
    requires |x| < 7
    ensures Little(x + Padding(8 - |x|)) == Xor(Little(x + [0x01]), Pow2(56) * 0x80)
  {
    hide Little, Pow2, Xor, Or, Padding, Zeros, ByteUp;
    var y := x + [0x01] + Zeros(6 - |x|);
    PaddingSplits(x);
    LittleConcat(y, [0x80]);
    OneByte(0x80);
    EndingLane(x, 6 - |x|);
    LittleBound(y);
    XorDisjoint(Little(y), 56, 0x80);
  }

  lemma SevenBits()
    ensures Pow2(7) == 128
  {
    assert Pow2(4) == 16 && Pow2(7) == 8 * Pow2(4) by {
      Pow2Values();
    }
  }

  lemma XorAbove(a: nat, k: nat, p: nat, q: nat)
    requires a < Pow2(k)
    ensures Xor(a + Pow2(k) * p, Pow2(k) * q) == a + Pow2(k) * Xor(p, q)
  {
    hide Xor, Pow2;
    XorDisjoint(a, k, p);
    XorAssoc(a, Pow2(k) * p, Pow2(k) * q);
    XorUp(p, q, k);
    XorDisjoint(a, k, Xor(p, q));
  }

  /** The padded last block, absorbed: the two ends added where `finish` adds them. */
  lemma LastBlock(f: Permutation, fed: seq<Byte>, blocks: nat, state: Lanes, filled: nat, word: nat)
    requires filled < 136 && At(f, fed, blocks, filled / 8, state, filled, word)
    ensures Sponge(f, fed) == Digest(f(XorLane(XorLane(state, filled / 8, Or(word, ByteUp(0x01, filled % 8))), 16, Pow2(56) * 0x80)))
  {
    hide AbsorbLanes, Little, Pow2, Or, XorLane, After, Xor, LaneOf, Digest;
    var n, rest := filled / 8, Block(fed, blocks);
    var s, x, b := After(f, fed, blocks), rest[8 * n..], rest + Padding(136 - filled);
    DivUnique(|fed|, 136, blocks, filled);
    AtFacts(f, fed, blocks, n, state, filled, word);
    assert fed[136 * blocks..] == rest;
    AbsorbPrefix(s, rest, Padding(136 - filled), n);
    AbsorbNext(s, b, n);
    EndingLane(x, 7 - |x|);
    if n < 16 {
      EarlyLane(rest, filled);
      ZeroLanes(s, b, n + 1, 16);
      AbsorbNext(s, b, 16);
    } else {
      LateLane(rest, filled);
      BothEnds(x);
      XorTwice(state, 16, Or(word, ByteUp(0x01, filled % 8)), Pow2(56) * 0x80);
    }
  }

  lemma XorTwice(s: Lanes, i: nat, a: nat, b: nat)
    requires i < 25
    ensures XorLane(XorLane(s, i, a), i, b) == XorLane(s, i, Xor(a, b))
  {
    hide Xor;
    XorAssoc(s[i], a, b);
  }

  /** With room before the last lane: the ending lane, zero lanes, and the top byte. */
  lemma EarlyLane(rest: seq<Byte>, filled: nat)
    requires |rest| == filled < 128
    ensures var n, b := filled / 8, rest + Padding(136 - filled);
      && LaneOf(b, n) == Little(rest[8 * n..] + [0x01] + Zeros(7 - |rest[8 * n..]|))
      && (forall i :: n < i < 16 ==> LaneOf(b, i) == 0) && LaneOf(b, 16) == Pow2(56) * 0x80
  {
    hide Little, Pow2;
    var n, b := filled / 8, rest + Padding(136 - filled);
    assert b[8 * n..8 * n + 8] == rest[8 * n..] + [0x01] + Zeros(7 - |rest[8 * n..]|);
    forall i | n < i < 16
      ensures LaneOf(b, i) == 0
    {
      assert b[8 * i..8 * i + 8] == Zeros(8);
      LittleZeros(8);
    }
    assert b[128..136] == Zeros(7) + [0x80];
    TopByte();
  }

  lemma LateLane(rest: seq<Byte>, filled: nat)
    requires |rest| == filled && 128 <= filled < 136
    ensures LaneOf(rest + Padding(136 - filled), 16) == Little(rest[128..] + Padding(8 - |rest[128..]|))
  {
    hide Little;
    assert (rest + Padding(136 - filled))[128..136] == rest[128..] + Padding(8 - |rest[128..]|);
  }
}
