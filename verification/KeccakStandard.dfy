/** A round of Keccak-f[1600] as section 3.2 of FIPS 202 states it, bit by bit: the rounds the plain
    and the emitted permutation compute are these. */
module KeccakStandard {
  import opened KeccakLinear
  import opened Interleave
  import opened KeccakRounds
  import opened KeccakLayer

  // ---- the standard ----------------------------------------------------------------------------

  function At(a: Lanes, x: nat, y: nat, z: nat): bool
    requires x < 5 && y < 5 && z < 64
  {
    a[x + 5 * y][z]
  }

  /** Section 3.2.1: a column's parity, and theta. */
  function ColumnParity(a: Lanes, x: nat, z: nat): bool
    requires x < 5 && z < 64
  {
    At(a, x, 0, z) != (At(a, x, 1, z) != (At(a, x, 2, z) != (At(a, x, 3, z) != At(a, x, 4, z))))
  }

  function ThetaBit(a: Lanes, x: nat, y: nat, z: nat): bool
    requires x < 5 && y < 5 && z < 64
  {
    At(a, x, y, z) != (ColumnParity(a, (x + 4) % 5, z) != ColumnParity(a, (x + 1) % 5, (z + 63) % 64))
  }

  /** Section 3.2.2: the walk (x, y) = (1, 0), then (y, 2x + 3y). */
  function Walk(t: nat): (p: (nat, nat))
    ensures p.0 < 5 && p.1 < 5
  {
    if t == 0 then (1, 0)
    else
      var (x, y) := Walk(t - 1);
      (y, (2 * x + 3 * y) % 5)
  }

  /** Its t-th lane is turned by (t + 1)(t + 2) / 2. */
  function WalkOffset(t: nat): (n: nat)
    ensures n < 64
  {
    (t + 1) * (t + 2) / 2 % 64
  }

  function OffsetFrom(x: nat, y: nat, t: nat): (n: nat)
    ensures n < 64
    decreases 24 - t, x, y
  {
    if t >= 24 then 0 else if Walk(t) == (x, y) then WalkOffset(t) else OffsetFrom(x, y, t + 1)
  }

  /** The walk's offset of a lane; lane (0, 0) is not met and stays. */
  function Offset(x: nat, y: nat): (n: nat)
    ensures n < 64
  {
    OffsetFrom(x, y, 0)
  }

  function RhoBit(a: Lanes, x: nat, y: nat, z: nat): bool
    requires x < 5 && y < 5 && z < 64
  {
    ThetaBit(a, x, y, (z + 64 - Offset(x, y)) % 64)
  }

  /** Section 3.2.3. */
  function PiBit(a: Lanes, x: nat, y: nat, z: nat): bool
    requires x < 5 && y < 5 && z < 64
  {
    RhoBit(a, (x + 3 * y) % 5, x, z)
  }

  /** Sections 3.2.4 and 3.2.5. */
  function RoundBit(a: Lanes, rc: Lane, x: nat, y: nat, z: nat): bool
    requires x < 5 && y < 5 && z < 64
  {
    var chi := PiBit(a, x, y, z) != (!PiBit(a, (x + 1) % 5, y, z) && PiBit(a, (x + 2) % 5, y, z));
    if x == 0 && y == 0 then chi != rc[z] else chi
  }

  // ---- the offsets -----------------------------------------------------------------------------

  ghost predicate WalkMeets(t: nat) {
    var (x, y) := Walk(t);
    x + 5 * y > 0 && Rho(x + 5 * y) == WalkOffset(t)
  }

  lemma Step(t: nat, x: nat, y: nat)
    requires Walk(t) == (x, y)
    ensures Walk(t + 1) == (y, (2 * x + 3 * y) % 5)
  {
  }

  /** The walk, written out. */
  lemma WalkIs()
    ensures Walk(0) == (1, 0) && Walk(1) == (0, 2) && Walk(2) == (2, 1) && Walk(3) == (1, 2) && Walk(4) == (2, 3)
    ensures Walk(5) == (3, 3) && Walk(6) == (3, 0) && Walk(7) == (0, 1) && Walk(8) == (1, 3) && Walk(9) == (3, 1)
    ensures Walk(10) == (1, 4) && Walk(11) == (4, 4) && Walk(12) == (4, 0) && Walk(13) == (0, 3) && Walk(14) == (3, 4)
    ensures Walk(15) == (4, 3) && Walk(16) == (3, 2) && Walk(17) == (2, 2) && Walk(18) == (2, 0) && Walk(19) == (0, 4)
    ensures Walk(20) == (4, 2) && Walk(21) == (2, 4) && Walk(22) == (4, 1) && Walk(23) == (1, 1)
  {
    Step(0, 1, 0);
    hide Walk;
    Step(1, 0, 2);
    Step(2, 2, 1);
    Step(3, 1, 2);
    Step(4, 2, 3);
    Step(5, 3, 3);
    Step(6, 3, 0);
    Step(7, 0, 1);
    Step(8, 1, 3);
    Step(9, 3, 1);
    Step(10, 1, 4);
    Step(11, 4, 4);
    Step(12, 4, 0);
    Step(13, 0, 3);
    Step(14, 3, 4);
    Step(15, 4, 3);
    Step(16, 3, 2);
    Step(17, 2, 2);
    Step(18, 2, 0);
    Step(19, 0, 4);
    Step(20, 4, 2);
    Step(21, 2, 4);
    Step(22, 4, 1);
  }

  /** The table of offsets follows the rule, along the whole walk. */
  lemma RhoRule(t: nat)
    requires t < 24
    ensures WalkMeets(t) && Rho(0) == 0
  {
    WalkIs();
    hide Walk;
  }

  /** The walk meets every lane but the first. */
  lemma WalkVisits(lane: nat) returns (t: nat)
    requires 0 < lane < 25
    ensures t < 24 && Walk(t) == (lane % 5, lane / 5)
  {
    WalkIs();
    hide Walk;
    t := [0, 0, 18, 6, 12, 7, 23, 2, 9, 22, 1, 3, 17, 16, 20, 13, 8, 4, 5, 15, 19, 10, 21, 14, 11][lane];
  }

  lemma {:induction false} OffsetMet(x: nat, y: nat, t: nat)
    requires x < 5 && y < 5 && t <= 24
    ensures OffsetFrom(x, y, t) == Rho(x + 5 * y) || (OffsetFrom(x, y, t) == 0 && forall s :: t <= s < 24 ==> Walk(s) != (x, y))
    decreases 24 - t
  {
    if t < 24 {
      hide Walk, Rho;
      RhoRule(t);
      OffsetMet(x, y, t + 1);
    }
  }

  /** Every lane's offset is the walk's. */
  lemma OffsetIsRho(x: nat, y: nat)
    requires x < 5 && y < 5
    ensures Offset(x, y) == Rho(x + 5 * y)
  {
    hide Walk, Rho, OffsetFrom;
    OffsetMet(x, y, 0);
    RhoRule(0);
    if x + 5 * y > 0 {
      assert (x + 5 * y) % 5 == x && (x + 5 * y) / 5 == y;
      var t := WalkVisits(x + 5 * y);
    }
  }

  // ---- the rounds ------------------------------------------------------------------------------

  lemma ThetaBitIs(a: Lanes, x: nat, y: nat, z: nat)
    requires x < 5 && y < 5 && z < 64
    ensures XorBits(a[x + 5 * y], Diffusion(a, x))[z] == ThetaBit(a, x, y, z)
  {
    hide XorBits, Rotl;
    ParityIs(a, (x + 4) % 5, z);
    ParityIs(a, (x + 1) % 5, (z + 63) % 64);
    BackMod(z, 1);
    assert (z + 64 - 1) % 64 == (z + 63) % 64;
    hide RowsXor, ColumnParity;
  }

  lemma ParityIs(a: Lanes, x: nat, z: nat)
    requires x < 5 && z < 64
    ensures RowsXor(a, x)[z] == ColumnParity(a, x, z)
  {
    hide XorBits;
  }

  lemma PiBitIs(a: Lanes, x: nat, y: nat, z: nat)
    requires x < 5 && y < 5 && z < 64
    ensures Moved(a, x, y)[z] == PiBit(a, x, y, z)
  {
    hide XorBits, Diffusion, Moved, Rho, Offset, ThetaBit;
    var u := (x + 3 * y) % 5;
    assert SourceLane(x, y) == u + 5 * x && (u + 5 * x) % 5 == u;
    MovedBit(a, x, y, z);
    OffsetIsRho(u, x);
    BackMod(z, Rho(u + 5 * x));
    ThetaBitIs(a, u, x, (z + 64 - Offset(u, x)) % 64);
  }

  /** A round is the standard's. */
  lemma RoundIsStandard(a: Lanes, rc: Lane, x: nat, y: nat, z: nat)
    requires x < 5 && y < 5 && z < 64
    ensures Round(a, rc)[x + 5 * y][z] == RoundBit(a, rc, x, y, z)
  {
    hide XorBits, AndBits, NotBits, Moved, PiBit, Round;
    RoundIs(a, rc, x, y);
    PiBitIs(a, x, y, z);
    PiBitIs(a, (x + 1) % 5, y, z);
    PiBitIs(a, (x + 2) % 5, y, z);
  }
}
