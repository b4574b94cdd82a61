/** What is hashed and what a hit is, on bytes (main.rs): j as 32 big-endian bytes, read as four
    little-endian lanes; and a digest whose first bytes, read as one big-endian number, are small. */
module GuestHits {
  import opened Multilinear
  import opened Bits
  import opened Guest

  /** Byte b of a little-endian word. */
  function ByteOf(n: nat, b: nat): nat {
    Low(Shift(n, 8 * b), 8)
  }

  /** The first k bytes of a little-endian word as one big-endian number. */
  function FirstBytes(n: nat, k: nat): nat {
    if k == 0 then 0 else 256 * FirstBytes(n, k - 1) + ByteOf(n, k - 1)
  }

  /** The i-th leading bit of the number is the tested bit of the word. */
  lemma {:induction false} LeadingIs(n: nat, k: nat, i: nat)
    requires i < 8 * k
    ensures Bit(FirstBytes(n, k), 8 * k - 1 - i) == Bit(n, Position(i))
    decreases k
  {
    hide Bit, Low, Shift, Pow2;
    var p, b := 8 * k - 1 - i, ByteOf(n, k - 1);
    Pow2Values();
    LowBound(Shift(n, 8 * (k - 1)), 8);
    ByteRoom(FirstBytes(n, k - 1), b, p);
    if p < 8 {
      BitLow(Shift(n, 8 * (k - 1)), 8, p);
      BitShift(n, 8 * (k - 1), p);
      DivUnique(i, 8, k - 1, i - 8 * (k - 1));
    } else {
      LeadingIs(n, k - 1, i);
    }
  }

  lemma {:induction false} FirstBytesBound(n: nat, k: nat)
    ensures FirstBytes(n, k) < Pow2(8 * k)
  {
    if k > 0 {
      Pow2Values();
      hide Low, Shift, Pow2;
      FirstBytesBound(n, k - 1);
      LowBound(Shift(n, 8 * (k - 1)), 8);
      Pow2Add(8 * (k - 1), 8);
      assert 8 * (k - 1) + 8 == 8 * k;
    } else {
      One(0);
    }
  }

  ghost predicate NoBits(n: nat, t: nat, m: nat) {
    forall p: nat :: t <= p < m ==> Bit(n, p) == 0
  }

  /** A number is below 2^t exactly when its bits from t on are zero. */
  lemma SmallByBits(n: nat, t: nat, m: nat)
    requires n < Pow2(m) && t <= m
    ensures n < Pow2(t) <==> NoBits(n, t, m)
  {
    hide Bit, Low, Shift, Pow2;
    var s := Shift(n, t);
    ShiftBound(n, t, m - t);
    SplitAt(n, t);
    LowBound(n, t);
    if n < Pow2(t) {
      LowSmall(n, t);
      forall p: nat | t <= p < m
        ensures Bit(n, p) == 0
      {
        BitShift(n, t, p - t);
        ShiftZero(p - t);
      }
    }
    if NoBits(n, t, m) {
      forall k: nat | k < m - t
        ensures Bit(s, k) == 0
      {
        BitShift(n, t, k);
        assert Bit(n, t + k) == 0;
      }
      ZeroBits(s, m - t);
      LowSmall(s, m - t);
      NoneAbove(Pow2(t));
    }
  }

  lemma NoneAbove(p: nat)
    ensures p * 0 == 0
  {
  }

  /** A hit is a digest whose first eight bytes, as a big-endian number, leave `difficulty` leading
      bits unused. */
  lemma HitIsSmall(M: Machine, j: nat)
    requires M.difficulty <= 64
    ensures M.Hit(j) <==> FirstBytes(M.Digest(j).0, 8) < Pow2(64 - M.difficulty)
  {
    hide Bit, Low, Shift, Pow2, FirstBytes, Position;
    var n, d := M.Digest(j).0, M.difficulty;
    var f := FirstBytes(n, 8);
    FirstBytesBound(n, 8);
    SmallByBits(f, 64 - d, 64);
    if M.Hit(j) {
      forall p: nat | 64 - d <= p < 64
        ensures Bit(f, p) == 0
      {
        LeadingIs(n, 8, 63 - p);
        assert Bit(n, Position(63 - p)) == 0;
      }
    }
    if NoBits(f, 64 - d, 64) {
      forall k: nat | k < d
        ensures Bit(n, Position(k)) == 0
      {
        LeadingIs(n, 8, k);
        assert Bit(f, 63 - k) == 0;
      }
    }
  }

  // ---- the message -----------------------------------------------------------------------------

  /** The number of the first k message bytes, big-endian. */
  function MessageNumber(j: nat, k: nat): nat
    requires k <= 32
  {
    if k == 0 then 0 else 256 * MessageNumber(j, k - 1) + MessageByte(j, k - 1)
  }

  /** The message is the 32-byte big-endian word of j. */
  lemma {:induction false} MessageIs(j: nat, k: nat)
    requires k <= 32 && j < Pow2(256)
    ensures MessageNumber(j, k) == Shift(j, 8 * (32 - k))
    decreases k
  {
    hide Low, Shift, Pow2;
    if k == 0 {
      LowSmall(j, 256);
    } else {
      MessageIs(j, k - 1);
      var s := Shift(j, 8 * (32 - k));
      Pow2Values();
      SplitAt(s, 8);
      ShiftShift(j, 8 * (32 - k), 8);
      assert 8 * (32 - k) + 8 == 8 * (32 - (k - 1)) && 31 - (k - 1) == 32 - k;
    }
  }

  lemma MessageWhole(j: nat)
    requires j < Pow2(256)
    ensures MessageNumber(j, 32) == j
  {
    hide Low, Pow2, MessageNumber;
    MessageIs(j, 32);
    NoStep(j);
  }

  /** A lane is eight message bytes, little-endian. */
  lemma {:induction false} LaneBytes(j: nat, k: nat, from: nat, n: nat)
    requires k < 4 && from <= n < 8
    ensures ByteOf(LaneFrom(j, k, from), n - from) == MessageByte(j, 8 * k + n)
    decreases n - from
  {
    hide Low, Shift, Pow2;
    var rest, b := LaneFrom(j, k, from + 1), MessageByte(j, 8 * k + from);
    Pow2Values();
    LowBound(Shift(j, 8 * (31 - (8 * k + from))), 8);
    Join(b, 8, rest);
    var lane := LaneFrom(j, k, from);
    assert lane == b + Pow2(8) * rest;
    if from == n {
      NoStep(lane);
    } else {
      LaneBytes(j, k, from + 1, n);
      ShiftShift(lane, 8, 8 * (n - from - 1));
    }
  }
}
