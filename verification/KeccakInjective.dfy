/** Keccak-f[1600] is a permutation: no two states have one image, for any round constants. Theta is
    the step that needs an argument: what two states' column parities differ by would have to be the
    sum of two shifts of itself, and doubling the shifts six times leaves nothing it could be. */
module KeccakInjective {
  import opened KeccakLinear
  import opened Interleave
  import opened KeccakRounds
  import opened KeccakStandard

  // ---- theta -----------------------------------------------------------------------------------

  /** Where the column parities of two states differ, around both axes. */
  ghost function Differ(a: Lanes, b: Lanes): (int, int) -> bool {
    (x, z) => ColumnParity(a, x % 5, z % 64) != ColumnParity(b, x % 5, z % 64)
  }

  /** p is the sum of two shifts of itself. */
  ghost predicate ShiftsAt(p: (int, int) -> bool, l: int, r: int, up: int, x: int, z: int) {
    p(x, z) == (p(x - l, z) != p(x - r, z - up))
  }

  ghost predicate Shifts(p: (int, int) -> bool, l: int, r: int, up: int) {
    forall x, z :: ShiftsAt(p, l, r, up, x, z)
  }

  /** Then it is the sum of the doubled shifts: the mixed terms cancel. */
  lemma Doubled(p: (int, int) -> bool, l: int, r: int, up: int)
    requires Shifts(p, l, r, up)
    ensures Shifts(p, 2 * l, 2 * r, 2 * up)
  {
    forall x, z
      ensures ShiftsAt(p, 2 * l, 2 * r, 2 * up, x, z)
    {
      assert ShiftsAt(p, l, r, up, x, z) && ShiftsAt(p, l, r, up, x - l, z) && ShiftsAt(p, l, r, up, x - r, z - up);
      assert x - l - r == x - r - l;
    }
  }

  /** After six doublings the shifts are one step to either side. */
  lemma SixTimes(p: (int, int) -> bool)
    requires Shifts(p, 1, -1, 1)
    ensures Shifts(p, 64, -64, 64)
  {
    hide Shifts;
    Doubled(p, 1, -1, 1);
    Doubled(p, 2, -2, 2);
    Doubled(p, 4, -4, 4);
    Doubled(p, 8, -8, 8);
    Doubled(p, 16, -16, 16);
    Doubled(p, 32, -32, 32);
  }

  /** A bit's five copies of what theta adds leave one. */
  lemma ThetaParity(a: Lanes, x: nat, z: nat)
    requires x < 5 && z < 64
    ensures (ThetaBit(a, x, 0, z) != (ThetaBit(a, x, 1, z) != (ThetaBit(a, x, 2, z) != (ThetaBit(a, x, 3, z) != ThetaBit(a, x, 4, z)))))
         == (ColumnParity(a, x, z) != (ColumnParity(a, (x + 4) % 5, z) != ColumnParity(a, (x + 1) % 5, (z + 63) % 64)))
  {
    var d := ColumnParity(a, (x + 4) % 5, z) != ColumnParity(a, (x + 1) % 5, (z + 63) % 64);
    FiveCopies(At(a, x, 0, z), At(a, x, 1, z), At(a, x, 2, z), At(a, x, 3, z), At(a, x, 4, z), d);
  }

  lemma FiveCopies(b0: bool, b1: bool, b2: bool, b3: bool, b4: bool, d: bool)
    ensures ((b0 != d) != ((b1 != d) != ((b2 != d) != ((b3 != d) != (b4 != d))))) == ((b0 != (b1 != (b2 != (b3 != b4)))) != d)
  {
  }

  ghost predicate SameTheta(a: Lanes, b: Lanes) {
    forall x, y, z :: 0 <= x < 5 && 0 <= y < 5 && 0 <= z < 64 ==> ThetaBit(a, x, y, z) == ThetaBit(b, x, y, z)
  }

  lemma ThetaShiftsAt(a: Lanes, b: Lanes, u: nat, w: nat)
    requires SameTheta(a, b) && u < 5 && w < 64
    ensures (ColumnParity(a, u, w) != ColumnParity(b, u, w))
         == ((ColumnParity(a, (u + 4) % 5, w) != ColumnParity(b, (u + 4) % 5, w))
          != (ColumnParity(a, (u + 1) % 5, (w + 63) % 64) != ColumnParity(b, (u + 1) % 5, (w + 63) % 64)))
  {
    hide ThetaBit, ColumnParity;
    ThetaParity(a, u, w);
    ThetaParity(b, u, w);
  }

  lemma ThetaShifts(a: Lanes, b: Lanes)
    requires SameTheta(a, b)
    ensures Shifts(Differ(a, b), 1, -1, 1)
  {
    hide ColumnParity, SameTheta;
    forall x, z
      ensures ShiftsAt(Differ(a, b), 1, -1, 1, x, z)
    {
      ThetaShiftsAt(a, b, x % 5, z % 64);
      Around(x, z);
    }
  }

  lemma Around(x: int, z: int)
    ensures (x - 1) % 5 == (x % 5 + 4) % 5 && (x + 1) % 5 == (x % 5 + 1) % 5 && (z - 1) % 64 == (z % 64 + 63) % 64
  {
  }

  lemma NoFive(q0: bool, q1: bool, q2: bool, q3: bool, q4: bool)
    requires q0 == (q1 != q4) && q1 == (q2 != q0) && q2 == (q3 != q1) && q3 == (q4 != q2) && q4 == (q0 != q3)
    ensures !q0 && !q1 && !q2 && !q3 && !q4
  {
  }

  /** Nothing but nothing is the sum of its two neighbours around five columns. */
  lemma NoDifference(a: Lanes, b: Lanes, x: nat, z: nat)
    requires SameTheta(a, b) && x < 5 && z < 64
    ensures ColumnParity(a, x, z) == ColumnParity(b, x, z)
  {
    hide ColumnParity, SameTheta, Shifts;
    var p := Differ(a, b);
    ThetaShifts(a, b);
    SixTimes(p);
    ShiftOf(a, b, 0, z);
    ShiftOf(a, b, 1, z);
    ShiftOf(a, b, 2, z);
    ShiftOf(a, b, 3, z);
    ShiftOf(a, b, 4, z);
    NoFive(p(0, z), p(1, z), p(2, z), p(3, z), p(4, z));
    assert !p(x, z);
  }

  lemma ShiftOf(a: Lanes, b: Lanes, x: nat, z: nat)
    requires Shifts(Differ(a, b), 64, -64, 64) && x < 5 && z < 64
    ensures Differ(a, b)(x, z) == (Differ(a, b)((x + 1) % 5, z) != Differ(a, b)((x + 4) % 5, z))
  {
    hide ColumnParity;
    assert ShiftsAt(Differ(a, b), 64, -64, 64, x, z);
    assert (x - 64) % 5 == (x + 1) % 5 && (x + 64) % 5 == (x + 4) % 5 && (z - 64) % 64 == z;
  }

  lemma ThetaInjective(a: Lanes, b: Lanes)
    requires SameTheta(a, b)
    ensures a == b
  {
    hide ColumnParity;
    forall i | 0 <= i < 25
      ensures a[i] == b[i]
    {
      forall z | 0 <= z < 64
        ensures a[i][z] == b[i][z]
      {
        var x, y := i % 5, i / 5;
        NoDifference(a, b, (x + 4) % 5, z);
        NoDifference(a, b, (x + 1) % 5, (z + 63) % 64);
        assert ThetaBit(a, x, y, z) == ThetaBit(b, x, y, z);
        assert x + 5 * y == i;
      }
    }
  }

  // ---- rho, pi and chi -------------------------------------------------------------------------

  ghost predicate SamePi(a: Lanes, b: Lanes) {
    forall x, y, z :: 0 <= x < 5 && 0 <= y < 5 && 0 <= z < 64 ==> PiBit(a, x, y, z) == PiBit(b, x, y, z)
  }

  /** Every bit after theta is some bit after pi. */
  lemma PiReaches(a: Lanes, u: nat, v: nat, w: nat) returns (y: nat, z: nat)
    requires u < 5 && v < 5 && w < 64
    ensures y == (2 * u + 3 * v) % 5 && z == (w + Offset(u, v)) % 64
    ensures PiBit(a, v, y, z) == ThetaBit(a, u, v, w)
  {
    hide ThetaBit, Offset;
    y, z := (2 * u + 3 * v) % 5, (w + Offset(u, v)) % 64;
    assert (v + 3 * y) % 5 == u;
    assert (z + 64 - Offset(u, v)) % 64 == w;
  }

  lemma PiInjective(a: Lanes, b: Lanes)
    requires SamePi(a, b)
    ensures a == b
  {
    hide PiBit, ThetaBit, Offset;
    forall u, v, w | 0 <= u < 5 && 0 <= v < 5 && 0 <= w < 64
      ensures ThetaBit(a, u, v, w) == ThetaBit(b, u, v, w)
    {
      var y, z := PiReaches(a, u, v, w);
      var _, _ := PiReaches(b, u, v, w);
    }
    ThetaInjective(a, b);
  }

  /** Chi on a row of five is a permutation. */
  lemma ChiRow(p0: bool, p1: bool, p2: bool, p3: bool, p4: bool, q0: bool, q1: bool, q2: bool, q3: bool, q4: bool)
    requires (p0 != (!p1 && p2)) == (q0 != (!q1 && q2))
    requires (p1 != (!p2 && p3)) == (q1 != (!q2 && q3))
    requires (p2 != (!p3 && p4)) == (q2 != (!q3 && q4))
    requires (p3 != (!p4 && p0)) == (q3 != (!q4 && q0))
    requires (p4 != (!p0 && p1)) == (q4 != (!q0 && q1))
    ensures p0 == q0 && p1 == q1 && p2 == q2 && p3 == q3 && p4 == q4
  {
  }

  /** Bit (x, y, z) after chi, its constant taken off again. */
  lemma ChiOf(a: Lanes, b: Lanes, rc: Lane, x: nat, y: nat, z: nat)
    requires x < 5 && y < 5 && z < 64 && Round(a, rc) == Round(b, rc)
    ensures (PiBit(a, x, y, z) != (!PiBit(a, (x + 1) % 5, y, z) && PiBit(a, (x + 2) % 5, y, z)))
         == (PiBit(b, x, y, z) != (!PiBit(b, (x + 1) % 5, y, z) && PiBit(b, (x + 2) % 5, y, z)))
  {
    hide Round, PiBit;
    RoundIsStandard(a, rc, x, y, z);
    RoundIsStandard(b, rc, x, y, z);
  }

  // ---- rounds ----------------------------------------------------------------------------------

  /** A round loses nothing. */
  lemma RoundInjective(a: Lanes, b: Lanes, rc: Lane)
    requires Round(a, rc) == Round(b, rc)
    ensures a == b
  {
    hide Round, PiBit;
    forall x, y, z | 0 <= x < 5 && 0 <= y < 5 && 0 <= z < 64
      ensures PiBit(a, x, y, z) == PiBit(b, x, y, z)
    {
      ChiOf(a, b, rc, 0, y, z);
      ChiOf(a, b, rc, 1, y, z);
      ChiOf(a, b, rc, 2, y, z);
      ChiOf(a, b, rc, 3, y, z);
      ChiOf(a, b, rc, 4, y, z);
      ChiRow(PiBit(a, 0, y, z), PiBit(a, 1, y, z), PiBit(a, 2, y, z), PiBit(a, 3, y, z), PiBit(a, 4, y, z),
             PiBit(b, 0, y, z), PiBit(b, 1, y, z), PiBit(b, 2, y, z), PiBit(b, 3, y, z), PiBit(b, 4, y, z));
    }
    PiInjective(a, b);
  }

  lemma NoRounds(a: Lanes, rc: seq<Lane>)
    ensures Rounds(a, rc, 0) == a
  {
  }

  lemma LastRound(a: Lanes, rc: seq<Lane>, n: nat)
    requires 0 < n <= |rc|
    ensures Rounds(a, rc, n) == Round(Rounds(a, rc, n - 1), rc[n - 1])
  {
  }

  /** Nor do any number of them, whatever the constants. */
  lemma {:induction false} RoundsInjective(a: Lanes, b: Lanes, rc: seq<Lane>, n: nat)
    requires n <= |rc| && Rounds(a, rc, n) == Rounds(b, rc, n)
    ensures a == b
  {
    hide Round, Rounds;
    NoRounds(a, rc);
    NoRounds(b, rc);
    if n > 0 {
      LastRound(a, rc, n);
      LastRound(b, rc, n);
      RoundInjective(Rounds(a, rc, n - 1), Rounds(b, rc, n - 1), rc[n - 1]);
      RoundsInjective(a, b, rc, n - 1);
    }
  }
}
