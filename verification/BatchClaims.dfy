/** Which claims the stacked opening batches (lib.rs's `each_claim`) and by which power of the scale:
    every column of every table at its table's point, each once, and nothing else. */
module BatchClaims {
  import opened Rings
  import opened Sums
  import opened Multilinear
  import opened Polynomials
  import opened StackLayout
  import opened Windows
  import opened Batching

  // ---- the tables' columns ---------------------------------------------------------------------

  const WIDTHS: seq<nat> := [15, 15, 8, 15, 14, 90]

  /** A table's first column: after the global ones and the tables before it. */
  function Base(t: nat): nat
    requires t <= N_TABLES
  {
    if t == 0 then GLOBAL_COLUMNS else Base(t - 1) + WIDTHS[t - 1]
  }

  lemma Bases()
    ensures Base(0) == 6 && Base(1) == 21 && Base(2) == 36 && Base(3) == 44 && Base(4) == 59 && Base(5) == 73
    ensures Base(N_TABLES) == N_COLUMNS
  {
    assert Base(3) == Base(2) + 8;
    assert Base(5) == Base(4) + 14 && Base(6) == Base(5) + 90;
  }

  /** A column's table is the one whose range it is in. */
  lemma TableIs(column: nat, t: nat)
    requires GLOBAL_COLUMNS <= column < N_COLUMNS && t < N_TABLES
    ensures TableOfColumn(column) == t <==> Base(t) <= column < Base(t) + WIDTHS[t]
  {
    Bases();
    hide Base;
  }

  // ---- what is claimed -------------------------------------------------------------------------

  /** The claims of the walk: the memory limbs and its counters, the bytecode's counters, every
      column of a table, the limbs at the public point, q_keccak at the output point. */
  predicate Claimed(c: Claim) {
    match c.at
    case Memory => c.column < 4
    case Bytecode => c.column == 4
    case Table(t) => t < N_TABLES && Base(t) <= c.column < Base(t) + WIDTHS[t]
    case Public => c.column < 3
    case KeccakOutput => c.column == QKECCAK
  }

  function Once(b: bool): nat {
    if b then 1 else 0
  }

  lemma OneMore(s: seq<Claim>, x: Claim, c: Claim)
    ensures multiset(s + [x])[c] == multiset(s)[c] + Once(x == c)
  {
  }

  lemma Concatenated(s: seq<Claim>, t: seq<Claim>, c: Claim)
    ensures multiset(s + t)[c] == multiset(s)[c] + multiset(t)[c]
  {
  }

  lemma {:induction false} TableClaimsOnce(n: nat, c: Claim)
    requires n <= N_COLUMNS
    ensures multiset(TableClaims(n))[c]
         == Once(c.at.Table? && GLOBAL_COLUMNS <= c.column < n && c.at.t == TableOfColumn(c.column))
  {
    hide TableOfColumn, TableClaims;
    TableClaimsStep(n);
    if n > GLOBAL_COLUMNS {
      TableClaimsOnce(n - 1, c);
      OneMore(TableClaims(n - 1), Claim(n - 1, Table(TableOfColumn(n - 1))), c);
    }
  }

  lemma TableClaimsStep(n: nat)
    ensures TableClaims(n) == if n <= GLOBAL_COLUMNS then [] else TableClaims(n - 1) + [Claim(n - 1, Table(TableOfColumn(n - 1)))]
  {
    hide TableOfColumn;
  }

  function FirstClaims(): seq<Claim> {
    [Claim(0, Memory), Claim(1, Memory), Claim(2, Memory), Claim(3, Memory), Claim(4, Bytecode)]
  }

  function LastClaims(): seq<Claim> {
    [Claim(0, Public), Claim(1, Public), Claim(2, Public), Claim(QKECCAK, KeccakOutput)]
  }

  lemma FirstOnce(c: Claim)
    ensures multiset(FirstClaims())[c] == Once((c.at.Memory? && c.column < 4) || (c.at.Bytecode? && c.column == 4))
  {
  }

  lemma LastOnce(c: Claim)
    ensures multiset(LastClaims())[c] == Once((c.at.Public? && c.column < 3) || (c.at.KeccakOutput? && c.column == QKECCAK))
  {
  }

  /** Each claim of the walk is made exactly once, and no other is made. */
  lemma EachOnce(c: Claim)
    ensures multiset(EachClaim())[c] == Once(Claimed(c))
  {
    hide TableClaims, TableOfColumn;
    assert EachClaim() == FirstClaims() + TableClaims(N_COLUMNS) + LastClaims();
    hide EachClaim, FirstClaims, LastClaims;
    Concatenated(FirstClaims() + TableClaims(N_COLUMNS), LastClaims(), c);
    Concatenated(FirstClaims(), TableClaims(N_COLUMNS), c);
    FirstOnce(c);
    LastOnce(c);
    TableClaimsOnce(N_COLUMNS, c);
    if c.at.Table? {
      TableClaimed(c);
    }
  }

  lemma TableClaimed(c: Claim)
    requires c.at.Table?
    ensures Claimed(c) <==> GLOBAL_COLUMNS <= c.column < N_COLUMNS && c.at.t == TableOfColumn(c.column)
  {
    Bases();
    TableBelow(c.column);
    hide TableOfColumn, Base;
    if GLOBAL_COLUMNS <= c.column < N_COLUMNS && c.at.t < N_TABLES {
      TableIs(c.column, c.at.t);
    }
  }

  lemma TableBelow(column: nat)
    ensures TableOfColumn(column) < N_TABLES
  {
  }

  lemma {:induction false} TableClaimAt(n: nat, k: nat)
    requires GLOBAL_COLUMNS <= n
    ensures |TableClaims(n)| == n - GLOBAL_COLUMNS
    ensures k < n - GLOBAL_COLUMNS ==> TableClaims(n)[k] == Claim(GLOBAL_COLUMNS + k, Table(TableOfColumn(GLOBAL_COLUMNS + k)))
  {
    if n > GLOBAL_COLUMNS {
      hide TableOfColumn;
      TableClaimAt(n - 1, k);
    }
  }

  /** The walk's order: the k-th claim. */
  lemma ClaimNumber(k: nat)
    ensures |EachClaim()| == 166
    ensures k < 4 ==> EachClaim()[k] == Claim(k, Memory)
    ensures k == 4 ==> EachClaim()[k] == Claim(4, Bytecode)
    ensures 5 <= k < 162 ==> EachClaim()[k].column == k + 1 && EachClaim()[k].at.Table?
    ensures 162 <= k < 165 ==> EachClaim()[k] == Claim(k - 162, Public)
    ensures k == 165 ==> EachClaim()[k] == Claim(QKECCAK, KeccakOutput)
  {
    hide TableClaims, TableOfColumn;
    TableClaimAt(N_COLUMNS, if 5 <= k then k - 5 else 0);
  }

  // ---- what they say ---------------------------------------------------------------------------

  /** A column's claim: in its slot, at the point, it has the value. */
  ghost predicate ColumnTrue(R: Ring, s: Stacked, stack: int -> Elem, column: nat, point: seq<Elem>, value: Elem)
    requires column < |s.slots|
  {
    s.slots[column].Some? ==> value == Mle(R, Window(stack, s.slots[column].value.index), point)
  }

  ghost predicate TableTrue(R: Ring, s: Stacked, v: Values, stack: int -> Elem, t: nat)
    requires ValidValues(v) && |s.slots| == N_COLUMNS && |s.tablePoints| == N_TABLES && t < N_TABLES
  {
    forall column: nat :: Base(t) <= column < Base(t) + WIDTHS[t] && column < N_COLUMNS ==>
      ColumnTrue(R, s, stack, column, s.tablePoints[t], v.columns[column])
  }

  /** The walk's claims, one by one. */
  ghost predicate WalkTrue(R: Ring, s: Stacked, v: Values, stack: int -> Elem)
    requires ValidValues(v) && |s.slots| == N_COLUMNS && |s.tablePoints| == N_TABLES
  {
    && (forall limb: nat :: limb < 3 ==> ColumnTrue(R, s, stack, limb, s.memoryPoint, v.memory[limb]))
    && ColumnTrue(R, s, stack, 3, s.memoryPoint, v.memoryFinal)
    && ColumnTrue(R, s, stack, 4, s.bytecodePoint, v.bytecodeFinal)
    && (forall t: nat :: t < N_TABLES ==> TableTrue(R, s, v, stack, t))
    && (forall limb: nat :: limb < 3 ==> ColumnTrue(R, s, stack, limb, PublicPoint(R, s), v.publicValues[limb]))
    && ColumnTrue(R, s, stack, QKECCAK, s.keccakOutput, v.keccakWord)
  }

  lemma ClaimIn(c: Claim)
    ensures c in EachClaim() <==> Claimed(c)
  {
    hide EachClaim, Claimed;
    EachOnce(c);
    assert c in EachClaim() <==> multiset(EachClaim())[c] > 0;
  }

  lemma ClaimTrue(R: Ring, s: Stacked, v: Values, stack: int -> Elem, c: Claim)
    requires ValidValues(v) && |s.slots| == N_COLUMNS && AllTrue(R, s, v, stack, EachClaim()) && Claimed(c)
    ensures Listed(c) && TrueClaim(R, s, v, stack, c)
  {
    hide EachClaim, Claimed, TrueClaim, Listed;
    ClaimIn(c);
    var k :| 0 <= k < |EachClaim()| && EachClaim()[k] == c;
  }

  /** The claims batched are true exactly when each of the walk's values is. */
  lemma TrueClaims(R: Ring, s: Stacked, v: Values, stack: int -> Elem)
    requires ValidValues(v) && |s.slots| == N_COLUMNS && |s.tablePoints| == N_TABLES
    ensures AllTrue(R, s, v, stack, EachClaim()) <==> WalkTrue(R, s, v, stack)
  {
    hide EachClaim, Mle, Base, PublicPoint;
    if AllTrue(R, s, v, stack, EachClaim()) {
      WalkFollows(R, s, v, stack);
    }
    if WalkTrue(R, s, v, stack) {
      forall k | 0 <= k < |EachClaim()|
        ensures Listed(EachClaim()[k]) && TrueClaim(R, s, v, stack, EachClaim()[k])
      {
        ClaimIn(EachClaim()[k]);
        OneFollows(R, s, v, stack, EachClaim()[k]);
      }
    }
  }

  lemma OneFollows(R: Ring, s: Stacked, v: Values, stack: int -> Elem, c: Claim)
    requires ValidValues(v) && |s.slots| == N_COLUMNS && |s.tablePoints| == N_TABLES && WalkTrue(R, s, v, stack) && Claimed(c)
    ensures Listed(c) && TrueClaim(R, s, v, stack, c)
  {
    hide Mle, Base, PublicPoint;
    if c.at.Table? {
      TableEnds(c.at.t);
      assert TableTrue(R, s, v, stack, c.at.t);
      assert ColumnTrue(R, s, stack, c.column, s.tablePoints[c.at.t], v.columns[c.column]);
    } else if c.column < 3 && (c.at.Memory? || c.at.Public?) {
      assert ColumnTrue(R, s, stack, c.column, s.memoryPoint, v.memory[c.column]);
      assert ColumnTrue(R, s, stack, c.column, PublicPoint(R, s), v.publicValues[c.column]);
    }
  }

  lemma TableEnds(t: nat)
    requires t < N_TABLES
    ensures GLOBAL_COLUMNS <= Base(t) && Base(t) + WIDTHS[t] <= N_COLUMNS
  {
    Bases();
    hide Base;
  }

  lemma WalkFollows(R: Ring, s: Stacked, v: Values, stack: int -> Elem)
    requires ValidValues(v) && |s.slots| == N_COLUMNS && |s.tablePoints| == N_TABLES && AllTrue(R, s, v, stack, EachClaim())
    ensures WalkTrue(R, s, v, stack)
  {
    hide EachClaim, Mle, Base, PublicPoint, AllTrue;
    forall limb: nat | limb < 3
      ensures ColumnTrue(R, s, stack, limb, s.memoryPoint, v.memory[limb])
      ensures ColumnTrue(R, s, stack, limb, PublicPoint(R, s), v.publicValues[limb])
    {
      ClaimTrue(R, s, v, stack, Claim(limb, Memory));
      ClaimTrue(R, s, v, stack, Claim(limb, Public));
    }
    ClaimTrue(R, s, v, stack, Claim(3, Memory));
    ClaimTrue(R, s, v, stack, Claim(4, Bytecode));
    ClaimTrue(R, s, v, stack, Claim(QKECCAK, KeccakOutput));
    forall t: nat | t < N_TABLES
      ensures TableTrue(R, s, v, stack, t)
    {
      forall column: nat | Base(t) <= column < Base(t) + WIDTHS[t] && column < N_COLUMNS
        ensures ColumnTrue(R, s, stack, column, s.tablePoints[t], v.columns[column])
      {
        ClaimTrue(R, s, v, stack, Claim(column, Table(t)));
      }
    }
  }

  // ---- the powers ------------------------------------------------------------------------------

  /** Which claims have a slot. */
  function Committed(s: Stacked, claims: seq<Claim>): (on: seq<bool>)
    ensures |on| == |claims|
    ensures forall k :: 0 <= k < |claims| ==> on[k] == (claims[k].column < |s.slots| && s.slots[claims[k].column].Some?)
  {
    seq(|claims|, k requires 0 <= k < |claims| => claims[k].column < |s.slots| && s.slots[claims[k].column].Some?)
  }

  /** How many of the first k are set. */
  function Before(on: seq<bool>, k: nat): nat
    requires k <= |on|
  {
    if k == 0 then 0 else Before(on, k - 1) + Once(on[k - 1])
  }

  /** The k-th claim's share: scale^(1 + committed claims before it), if it has a slot. */
  function Share(R: Ring, scale: Elem, on: seq<bool>, f: int -> Elem): int -> Elem {
    k => if 0 <= k < |on| && on[k] then R.mul(Power(R, scale, 1 + Before(on, k)), f(k)) else R.zero
  }

  function ValueAt(v: Values, claims: seq<Claim>): int -> Elem
    requires ValidValues(v) && AllListed(claims)
  {
    k =>
      if 0 <= k < |claims| then
        assert Listed(claims[k]);
        ValueOf(v, claims[k])
      else Elem(0, 0, 0)
  }

  lemma NextShare(R: Ring, scale: Elem, on: seq<bool>, f: int -> Elem, i: nat, rest: Elem)
    requires R.Laws() && i < |on|
    ensures Sum(R, i + 1, Share(R, scale, on, f))
         == if on[i] then R.add(Sum(R, i, Share(R, scale, on, f)), R.mul(Power(R, scale, 1 + Before(on, i)), f(i)))
            else Sum(R, i, Share(R, scale, on, f))
    ensures Power(R, scale, 1 + Before(on, i + 1))
         == if on[i] then R.mul(Power(R, scale, 1 + Before(on, i)), scale) else Power(R, scale, 1 + Before(on, i))
  {
    hide Ring.Laws;
    R.AddZero(Sum(R, i, Share(R, scale, on, f)));
  }

  /** The target from the i-th claim on, with the power it has come to. */
  lemma {:induction false} TargetFrom(R: Ring, s: Stacked, v: Values, claims: seq<Claim>, i: nat)
    requires R.Laws() && ValidValues(v) && |s.slots| == N_COLUMNS && AllListed(claims) && i <= |claims|
    ensures var on := Committed(s, claims);
      AllListed(claims[i..])
      && R.add(Sum(R, i, Share(R, s.scale, on, ValueAt(v, claims))), TargetOf(R, s, v, claims[i..], Power(R, s.scale, 1 + Before(on, i))))
         == Sum(R, |claims|, Share(R, s.scale, on, ValueAt(v, claims)))
    decreases |claims| - i
  {
    hide Sum, Share, Before, Power, Ring.Laws, TargetOf, ValueOf, Listed;
    var on, f := Committed(s, claims), ValueAt(v, claims);
    var power, t := Power(R, s.scale, 1 + Before(on, i)), Sum(R, i, Share(R, s.scale, on, f));
    if i == |claims| {
      NoTarget(R, s, v, claims[i..], power, t);
    } else {
      TargetFrom(R, s, v, claims, i + 1);
      NextShare(R, s.scale, on, f, i, R.zero);
      TargetNext(R, s, v, claims[i..], power, t);
      assert claims[i..][0] == claims[i] && claims[i..][1..] == claims[i + 1..];
      assert f(i) == ValueOf(v, claims[i]);
    }
  }

  /** The batched target: every claimed value by its power of the scale. */
  lemma TargetShares(R: Ring, s: Stacked, v: Values)
    requires R.Laws() && ValidValues(v) && |s.slots| == N_COLUMNS
    ensures AllListed(EachClaim())
    ensures TargetOf(R, s, v, EachClaim(), s.scale)
         == Sum(R, |EachClaim()|, Share(R, s.scale, Committed(s, EachClaim()), ValueAt(v, EachClaim())))
  {
    hide EachClaim, TargetOf, Ring.Laws, Share, Committed, ValueAt;
    EachClaimListed();
    var claims := EachClaim();
    TargetFrom(R, s, v, claims, 0);
    FirstPower(R, s, claims, ValueAt(v, claims));
    assert claims[0..] == claims;
    R.AddZero(TargetOf(R, s, v, claims, s.scale));
  }

  lemma FirstPower(R: Ring, s: Stacked, claims: seq<Claim>, f: int -> Elem)
    requires R.Laws()
    ensures Power(R, s.scale, 1 + Before(Committed(s, claims), 0)) == s.scale
    ensures Sum(R, 0, Share(R, s.scale, Committed(s, claims), f)) == R.zero
  {
    R.MulOne(s.scale);
    assert Power(R, s.scale, 1) == R.mul(Power(R, s.scale, 0), s.scale);
  }

  /** A claim's weight at x. */
  function WeightAt(R: Ring, s: Stacked, claims: seq<Claim>, x: seq<Elem>): int -> Elem
    requires |x| == s.stackLog && AllShaped(R, s, claims)
  {
    k =>
      if 0 <= k < |claims| && Committed(s, claims)[k] then
        assert Shaped(R, s, claims[k]);
        ClaimAt(R, s, claims[k], x)
      else R.zero
  }

  lemma {:induction false} WeightFrom(R: Ring, s: Stacked, claims: seq<Claim>, x: seq<Elem>, i: nat)
    requires R.Laws() && |x| == s.stackLog && AllShaped(R, s, claims) && i <= |claims|
    ensures var on := Committed(s, claims);
      AllShaped(R, s, claims[i..])
      && R.add(Sum(R, i, Share(R, s.scale, on, WeightAt(R, s, claims, x))), ClaimsAt(R, s, claims[i..], Power(R, s.scale, 1 + Before(on, i)), x))
         == Sum(R, |claims|, Share(R, s.scale, on, WeightAt(R, s, claims, x)))
    decreases |claims| - i
  {
    hide Sum, Share, Before, Power, Ring.Laws, ClaimsAt, ClaimAt, Shaped;
    var on, f := Committed(s, claims), WeightAt(R, s, claims, x);
    var power, t := Power(R, s.scale, 1 + Before(on, i)), Sum(R, i, Share(R, s.scale, on, f));
    if i == |claims| {
      NoClaims(R, s, claims[i..], power, x, t);
    } else {
      WeightFrom(R, s, claims, x, i + 1);
      NextShare(R, s.scale, on, f, i, R.zero);
      ClaimsAtNext(R, s, claims[i..], power, x, t);
      assert claims[i..][0] == claims[i] && claims[i..][1..] == claims[i + 1..];
      if on[i] {
        assert f(i) == ClaimAt(R, s, claims[i], x);
      }
    }
  }

  /** The batched weight: every claim's weight by the same power of the scale. */
  lemma WeightShares(R: Ring, s: Stacked, x: seq<Elem>)
    requires ValidStacked(R, s) && |x| == s.stackLog
    ensures ClaimsAt(R, s, EachClaim(), s.scale, x)
         == Sum(R, |EachClaim()|, Share(R, s.scale, Committed(s, EachClaim()), WeightAt(R, s, EachClaim(), x)))
  {
    hide EachClaim, ClaimsAt, Ring.Laws, Share, Committed, WeightAt, FitsAt, Shaped;
    var claims := EachClaim();
    WeightFrom(R, s, claims, x, 0);
    FirstPower(R, s, claims, WeightAt(R, s, claims, x));
    assert claims[0..] == claims;
    R.AddZero(ClaimsAt(R, s, claims, s.scale, x));
  }

  // ---- q_keccak's slots ------------------------------------------------------------------------

  /** q_keccak's 64 slots: the 25 input lanes, then (after its own second state) the 14 spare ones:
      the KECCAK table's columns before the lanes, and one of its counters. */
  lemma SlotOf(column: nat, slot: nat)
    ensures QKeccakSlot(column) == Some(slot) <==>
              || (slot < 25 && column == KECCAK_BASE + KECCAK_IN + slot)
              || (50 <= slot < 63 && column == KECCAK_BASE + slot - 50)
              || (slot == 63 && column == KECCAK_BASE + KECCAK_CNT)
  {
    hide SpareFrom;
    if column >= KECCAK_BASE {
      SpareExactly(column - KECCAK_BASE);
    }
  }


  lemma {:induction false} SpareAfter(local: nat, k: nat)
    requires k <= QKECCAK_SPARE
    ensures SpareFrom(local, k) == if k <= local < 13 then Some(50 + local) else if local == KECCAK_CNT && k <= 13 then Some(63) else None
    decreases QKECCAK_SPARE - k
  {
    if k < QKECCAK_SPARE {
      SpareAfter(local, k + 1);
    }
  }

  lemma SpareExactly(local: nat)
    ensures SpareFrom(local, 0) == if local < 13 then Some(50 + local) else if local == KECCAK_CNT then Some(63) else None
  {
    SpareAfter(local, 0);
  }
}
