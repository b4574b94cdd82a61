/** The stacked opening (lib.rs): every claim on a committed column, batched by powers of one
    challenge after the ring-switch claim, into one target and one weight. */
module Batching {
  import opened Rings
  import opened Sums
  import opened Multilinear
  import opened Polynomials
  import opened RingSwitch
  import opened StackLayout
  import opened Windows

  /** The point a claim is made at. */
  datatype At = Memory | Bytecode | Table(t: nat) | Public | KeccakOutput

  datatype Claim = Claim(column: nat, at: At)

  const GLOBAL_COLUMNS := 6

  function TableClaims(n: nat): seq<Claim> {
    if n <= GLOBAL_COLUMNS then [] else TableClaims(n - 1) + [Claim(n - 1, Table(TableOfColumn(n - 1)))]
  }

  /** Every claim, in the walk's order. */
  function EachClaim(): seq<Claim> {
    [Claim(0, Memory), Claim(1, Memory), Claim(2, Memory), Claim(3, Memory), Claim(4, Bytecode)]
    + TableClaims(N_COLUMNS)
    + [Claim(0, Public), Claim(1, Public), Claim(2, Public), Claim(QKECCAK, KeccakOutput)]
  }

  /** What the opening keeps of the walk before it. */
  datatype Stacked = Stacked(slots: seq<Option<Slot>>, stackLog: nat, scale: Elem, memoryPoint: seq<Elem>, bytecodePoint: seq<Elem>,
                             tablePoints: seq<seq<Elem>>, publicChallenge: Elem, keccakOutput: seq<Elem>,
                             stages: seq<Elem>, ringPoint: seq<Elem>)

  function Zeros(R: Ring, n: nat): (z: seq<Elem>)
    ensures |z| == n && forall i :: 0 <= i < n ==> z[i] == R.zero
  {
    seq(n, _ => R.zero)
  }

  /** The public line's point: the challenge, then zeros. */
  function PublicPoint(R: Ring, s: Stacked): seq<Elem> {
    if s.memoryPoint == [] then [] else [s.publicChallenge] + Zeros(R, |s.memoryPoint| - 1)
  }

  function PointOf(R: Ring, s: Stacked, at: At): seq<Elem> {
    match at
    case Memory => s.memoryPoint
    case Bytecode => s.bytecodePoint
    case Table(t) => if t < |s.tablePoints| then s.tablePoints[t] else []
    case Public => PublicPoint(R, s)
    case KeccakOutput => s.keccakOutput
  }

  /** A claim on a committed column, whose slot has its point's coordinates and fits the stack. */
  ghost predicate Shaped(R: Ring, s: Stacked, c: Claim) {
    && c.column < |s.slots|
    && (c.at.Table? ==> c.at.t < N_TABLES)
    && (s.slots[c.column].Some? ==>
          && s.slots[c.column].value.variables == |PointOf(R, s, c.at)| <= s.stackLog
          && FitsAt(s.slots[c.column].value, s.stackLog))
  }

  ghost predicate AllShaped(R: Ring, s: Stacked, claims: seq<Claim>) {
    forall i :: 0 <= i < |claims| ==> Shaped(R, s, claims[i])
  }

  ghost predicate ValidStacked(R: Ring, s: Stacked) {
    && R.Laws()
    && s.memoryPoint != []
    && |s.slots| == N_COLUMNS
    && AllShaped(R, s, EachClaim())
    && s.slots[QKECCAK].Some?
    && s.slots[QKECCAK].value.variables == |s.ringPoint| <= s.stackLog
    && FitsAt(s.slots[QKECCAK].value, s.stackLog)
  }

  // ---- the weights -----------------------------------------------------------------------------

  /** A point's weight at x. */
  function PointWeight(R: Ring, s: Stacked, at: At, x: seq<Elem>): Elem {
    Mle(R, EqTable(R, PointOf(R, s, at)), x)
  }

  /** One claim's weight at x: its point's on the low coordinates, its slot's bits on the others. */
  function ClaimAt(R: Ring, s: Stacked, c: Claim, x: seq<Elem>): Elem
    requires c.column < |s.slots| && s.slots[c.column].Some? && s.slots[c.column].value.variables <= |x|
  {
    var slot := s.slots[c.column].value;
    R.mul(PointWeight(R, s, c.at, x[..slot.variables]), Eq(R, x[slot.variables..], slot.index / Pow2(slot.variables)))
  }

  /** The claims' weights by powers of the scale; an uncommitted column has none and takes no power. */
  function ClaimsAt(R: Ring, s: Stacked, claims: seq<Claim>, power: Elem, x: seq<Elem>): Elem
    requires |x| == s.stackLog && AllShaped(R, s, claims)
    decreases |claims|
  {
    if claims == [] then R.zero
    else
      assert Shaped(R, s, claims[0]);
      if s.slots[claims[0].column].None? then ClaimsAt(R, s, claims[1..], power, x)
      else R.add(R.mul(power, ClaimAt(R, s, claims[0], x)), ClaimsAt(R, s, claims[1..], R.mul(power, s.scale), x))
  }

  /** The weight of word u of the stack in one claim: eq of the point and u's place in the slot. */
  function ClaimTable(R: Ring, s: Stacked, c: Claim): int -> Elem
    requires c.column < |s.slots| && s.slots[c.column].Some?
  {
    Placing(R, s.slots[c.column].value, EqTable(R, PointOf(R, s, c.at)))
  }

  function Nowhere(R: Ring): int -> Elem {
    u => R.zero
  }

  function ClaimsTable(R: Ring, s: Stacked, claims: seq<Claim>, power: Elem): int -> Elem
    requires AllShaped(R, s, claims)
    decreases |claims|
  {
    if claims == [] then Nowhere(R)
    else
      assert Shaped(R, s, claims[0]);
      if s.slots[claims[0].column].None? then ClaimsTable(R, s, claims[1..], power)
      else Plus(R, power, ClaimTable(R, s, claims[0]), ClaimsTable(R, s, claims[1..], R.mul(power, s.scale)))
  }

  /** u -> power * f(u) + g(u). */
  function Plus(R: Ring, power: Elem, f: int -> Elem, g: int -> Elem): int -> Elem {
    u => R.add(R.mul(power, f(u)), g(u))
  }

  /** The ring claim's weight at u. */
  function RingTable(R: Ring, s: Stacked): int -> Elem
    requires |s.slots| == N_COLUMNS && s.slots[QKECCAK].Some?
  {
    Placing(R, s.slots[QKECCAK].value, Weight(R, s.stages, s.ringPoint))
  }

  /** Every word's weight in the batched claim. */
  function WordWeights(R: Ring, s: Stacked): int -> Elem
    requires ValidStacked(R, s)
  {
    Plus(R, R.one, RingTable(R, s), ClaimsTable(R, s, EachClaim(), s.scale))
  }

  lemma PlusMle(R: Ring, power: Elem, f: int -> Elem, g: int -> Elem, x: seq<Elem>)
    requires R.Laws()
    ensures Mle(R, Plus(R, power, f, g), x) == R.add(R.mul(power, Mle(R, f, x)), Mle(R, g, x))
  {
    hide Mle, Ring.Laws;
    var h := Plus(R, power, f, u => R.zero);
    var scaled := u => R.mul(power, f(u));
    MleScale(R, power, f, scaled, x);
    MleAdd(R, scaled, g, Plus(R, power, f, g), x);
  }

  lemma ClaimAtIsMle(R: Ring, s: Stacked, c: Claim, x: seq<Elem>)
    requires R.Laws() && |x| == s.stackLog && Shaped(R, s, c) && s.slots[c.column].Some?
    ensures ClaimAt(R, s, c, x) == Mle(R, ClaimTable(R, s, c), x)
  {
    hide Mle, Ring.Laws, Eq, Pow2;
    PlacingMle(R, s.slots[c.column].value, EqTable(R, PointOf(R, s, c.at)), x);
  }

  lemma {:induction false} ClaimsAtIsMle(R: Ring, s: Stacked, claims: seq<Claim>, power: Elem, x: seq<Elem>)
    requires R.Laws() && |x| == s.stackLog && AllShaped(R, s, claims)
    ensures ClaimsAt(R, s, claims, power, x) == Mle(R, ClaimsTable(R, s, claims, power), x)
    decreases |claims|
  {
    hide Mle, Ring.Laws, ClaimAt, ClaimTable, Plus, Shaped;
    if claims == [] {
      MleNone(R, ClaimsTable(R, s, claims, power), x);
    } else {
      assert Shaped(R, s, claims[0]);
      InSlots(R, s, claims[0]);
      if s.slots[claims[0].column].None? {
        ClaimsAtIsMle(R, s, claims[1..], power, x);
      } else {
        ClaimAtIsMle(R, s, claims[0], x);
        ClaimsAtIsMle(R, s, claims[1..], R.mul(power, s.scale), x);
        PlusMle(R, power, ClaimTable(R, s, claims[0]), ClaimsTable(R, s, claims[1..], R.mul(power, s.scale)), x);
      }
    }
  }

  lemma InSlots(R: Ring, s: Stacked, c: Claim)
    requires Shaped(R, s, c)
    ensures c.column < |s.slots|
  {
  }

  /** The batched weight at x: the ring claim's closed form on q_keccak's slot, then every claim's. */
  function BasisAt(R: Ring, s: Stacked, x: seq<Elem>): Elem
    requires ValidStacked(R, s) && |x| == s.stackLog
  {
    var q := s.slots[QKECCAK].value;
    R.add(R.mul(Eq(R, x[q.variables..], q.index / Pow2(q.variables)), Mle(R, Weight(R, s.stages, s.ringPoint), x[..q.variables])),
          ClaimsAt(R, s, EachClaim(), s.scale, x))
  }

  /** It is the multilinear extension of the words' weights. */
  lemma BasisIsMle(R: Ring, s: Stacked, x: seq<Elem>)
    requires ValidStacked(R, s) && |x| == s.stackLog
    ensures BasisAt(R, s, x) == Mle(R, WordWeights(R, s), x)
  {
    hide Mle, Eq, Pow2, Ring.Laws, ClaimsAt, ClaimsTable, EachClaim, Plus, Weight;
    var q := s.slots[QKECCAK].value;
    var w := Weight(R, s.stages, s.ringPoint);
    PlacingMle(R, q, w, x);
    R.MulComm(Eq(R, x[q.variables..], q.index / Pow2(q.variables)), Mle(R, w, x[..q.variables]));
    ClaimsAtIsMle(R, s, EachClaim(), s.scale, x);
    PlusMle(R, R.one, RingTable(R, s), ClaimsTable(R, s, EachClaim(), s.scale), x);
    R.MulOne(Mle(R, RingTable(R, s), x));
  }

  // ---- the target ------------------------------------------------------------------------------

  /** The values the walk claims. */
  datatype Values = Values(memory: seq<Elem>, memoryFinal: Elem, bytecodeFinal: Elem, columns: seq<Elem>,
                           publicValues: seq<Elem>, keccakWord: Elem)

  function ValueOf(v: Values, c: Claim): Elem
    requires |v.memory| == |v.publicValues| == 3 && |v.columns| == N_COLUMNS
    requires (c.at.Memory? ==> c.column < 4) && (c.at.Public? ==> c.column < 3) && c.column < N_COLUMNS
  {
    match c.at
    case Memory => if c.column == 3 then v.memoryFinal else v.memory[c.column]
    case Bytecode => v.bytecodeFinal
    case Table(_) => v.columns[c.column]
    case Public => v.publicValues[c.column]
    case KeccakOutput => v.keccakWord
  }

  ghost predicate ValidValues(v: Values) {
    |v.memory| == |v.publicValues| == 3 && |v.columns| == N_COLUMNS
  }

  predicate Listed(c: Claim) {
    c.column < N_COLUMNS && (c.at.Memory? ==> c.column < 4) && (c.at.Public? ==> c.column < 3)
  }

  ghost predicate AllListed(claims: seq<Claim>) {
    forall i :: 0 <= i < |claims| ==> Listed(claims[i])
  }

  lemma {:induction false} TableClaimsListed(n: nat)
    requires n <= N_COLUMNS
    ensures AllListed(TableClaims(n))
  {
    if n > GLOBAL_COLUMNS {
      TableClaimsListed(n - 1);
    }
  }

  /** Every claim of the walk is on a committed column, and on a value the opening keeps. */
  lemma EachClaimListed()
    ensures AllListed(EachClaim())
  {
    hide TableClaims;
    TableClaimsListed(N_COLUMNS);
  }

  function TargetOf(R: Ring, s: Stacked, v: Values, claims: seq<Claim>, power: Elem): Elem
    requires ValidValues(v) && |s.slots| == N_COLUMNS && AllListed(claims)
    decreases |claims|
  {
    if claims == [] then R.zero
    else
      assert Listed(claims[0]);
      if s.slots[claims[0].column].None? then TargetOf(R, s, v, claims[1..], power)
      else R.add(R.mul(power, ValueOf(v, claims[0])), TargetOf(R, s, v, claims[1..], R.mul(power, s.scale)))
  }

  /** The stack's column in the claim's slot has the claimed value at the claim's point. */
  ghost predicate TrueClaim(R: Ring, s: Stacked, v: Values, stack: int -> Elem, c: Claim)
    requires ValidValues(v) && |s.slots| == N_COLUMNS && Listed(c)
  {
    s.slots[c.column].Some? ==>
      ValueOf(v, c) == Mle(R, Window(stack, s.slots[c.column].value.index), PointOf(R, s, c.at))
  }

  ghost predicate AllTrue(R: Ring, s: Stacked, v: Values, stack: int -> Elem, claims: seq<Claim>)
    requires ValidValues(v) && |s.slots| == N_COLUMNS
  {
    forall i :: 0 <= i < |claims| ==> Listed(claims[i]) && TrueClaim(R, s, v, stack, claims[i])
  }

  lemma PlusSum(R: Ring, n: nat, power: Elem, f: int -> Elem, g: int -> Elem, stack: int -> Elem)
    requires R.Laws()
    ensures Sum(R, n, Times(R, Plus(R, power, f, g), stack))
         == R.add(R.mul(power, Sum(R, n, Times(R, f, stack))), Sum(R, n, Times(R, g, stack)))
  {
    hide Sum, Ring.Laws;
    var t, u := Times(R, f, stack), Times(R, g, stack);
    var scaled := k => R.mul(power, t(k));
    forall k
      ensures Times(R, Plus(R, power, f, g), stack)(k) == R.add(scaled(k), u(k))
    {
      R.MulAssoc(power, f(k), stack(k));
      R.Dist(stack(k), R.mul(power, f(k)), g(k));
    }
    SumScale(R, n, power, t, scaled);
    SumAdd(R, n, scaled, u, Times(R, Plus(R, power, f, g), stack));
  }

  /** A true claim's value is its table against the stack. */
  lemma ClaimSum(R: Ring, s: Stacked, v: Values, stack: int -> Elem, c: Claim)
    requires R.Laws() && ValidValues(v) && |s.slots| == N_COLUMNS && Listed(c) && Shaped(R, s, c)
    requires s.slots[c.column].Some? && TrueClaim(R, s, v, stack, c)
    ensures Sum(R, Pow2(s.stackLog), Times(R, ClaimTable(R, s, c), stack)) == ValueOf(v, c)
  {
    hide Sum, Ring.Laws, Eq, Pow2, ValueOf, PointOf;
    var slot, p := s.slots[c.column].value, PointOf(R, s, c.at);
    PlacingSum(R, slot, EqTable(R, p), stack, Pow2(s.stackLog));
    SumEq(R, Pow2(|p|), Times(R, EqTable(R, p), Window(stack, slot.index)), Weighted(R, Window(stack, slot.index), p));
  }

  lemma {:induction false} ClaimsSum(R: Ring, s: Stacked, v: Values, stack: int -> Elem, claims: seq<Claim>, power: Elem)
    requires R.Laws() && ValidValues(v) && |s.slots| == N_COLUMNS && AllListed(claims) && AllShaped(R, s, claims)
    requires AllTrue(R, s, v, stack, claims)
    ensures Sum(R, Pow2(s.stackLog), Times(R, ClaimsTable(R, s, claims, power), stack)) == TargetOf(R, s, v, claims, power)
    decreases |claims|
  {
    hide Sum, Ring.Laws, Pow2, ClaimTable, Plus, Shaped, TrueClaim, Listed, ValueOf;
    if claims == [] {
      ZeroTable(R, Pow2(s.stackLog), stack);
    } else {
      var c := claims[0];
      assert Shaped(R, s, c) && Listed(c) && TrueClaim(R, s, v, stack, c);
      InSlots(R, s, c);
      if s.slots[c.column].None? {
        ClaimsSum(R, s, v, stack, claims[1..], power);
      } else {
        ClaimSum(R, s, v, stack, c);
        ClaimsSum(R, s, v, stack, claims[1..], R.mul(power, s.scale));
        PlusSum(R, Pow2(s.stackLog), power, ClaimTable(R, s, c), ClaimsTable(R, s, claims[1..], R.mul(power, s.scale)), stack);
      }
    }
  }

  lemma ZeroTable(R: Ring, n: nat, stack: int -> Elem)
    requires R.Laws()
    ensures Sum(R, n, Times(R, Nowhere(R), stack)) == R.zero
  {
    var t := Times(R, Nowhere(R), stack);
    forall k
      ensures t(k) == R.zero
    {
      R.MulZero(stack(k));
    }
    SumNone(R, n, t);
  }

  /** With the ring claim and every other claim true, the batched target is the stack against the
      words' weights. */
  lemma TargetIsWeighted(R: Ring, s: Stacked, v: Values, stack: int -> Elem, ring: Elem)
    requires ValidStacked(R, s) && ValidValues(v)
    requires AllTrue(R, s, v, stack, EachClaim())
    requires ring == Sum(R, Pow2(|s.ringPoint|), Summand(R, s.stages, s.ringPoint, Window(stack, s.slots[QKECCAK].value.index)))
    ensures AllListed(EachClaim())
    ensures R.add(ring, TargetOf(R, s, v, EachClaim(), s.scale))
         == Sum(R, Pow2(s.stackLog), Times(R, WordWeights(R, s), stack))
  {
    hide Sum, Ring.Laws, Pow2, ClaimsTable, Plus, EachClaim, Weight, TargetOf, TrueClaim, Listed;
    EachClaimListed();
    var n, q, w := Pow2(s.stackLog), s.slots[QKECCAK].value, Weight(R, s.stages, s.ringPoint);
    PlacingSum(R, q, w, stack, n);
    SumEq(R, Pow2(|s.ringPoint|), Times(R, w, Window(stack, q.index)), Summand(R, s.stages, s.ringPoint, Window(stack, q.index)));
    ClaimsSum(R, s, v, stack, EachClaim(), s.scale);
    PlusSum(R, n, R.one, RingTable(R, s), ClaimsTable(R, s, EachClaim(), s.scale), stack);
    R.MulOne(ring);
  }

  /** The ring claim is true when the 64 slice claims are (ring_switch.rs). */
  lemma RingClaimTrue(R: Ring, s: Stacked, stack: int -> Elem, z: (int, int) -> Elem, slices: seq<Elem>, gen: Elem)
    requires ValidStacked(R, s) && BitSlices(R, z)
    requires forall i :: 0 <= i < |slices| ==> slices[i] == Mle(R, Column(z, i), s.ringPoint)
    requires forall u :: 0 <= u < Pow2(|s.ringPoint|) ==>
               stack(s.slots[QKECCAK].value.index + u) == FromSlices(R, z, |slices|, gen)(u)
    ensures Horner(R, SliceClaims(R, s.stages, slices), 0, |slices|, gen)
         == Sum(R, Pow2(|s.ringPoint|), Summand(R, s.stages, s.ringPoint, Window(stack, s.slots[QKECCAK].value.index)))
  {
    hide Sum, Ring.Laws, Pow2, Weight, Horner;
    var q, f := Window(stack, s.slots[QKECCAK].value.index), FromSlices(R, z, |slices|, gen);
    TargetIsSum(R, s.stages, s.ringPoint, z, slices, gen);
    forall u | 0 <= u < Pow2(|s.ringPoint|)
      ensures q(u) == f(u)
    {
      assert q(u) == stack(s.slots[QKECCAK].value.index + u);
    }
    SumEq(R, Pow2(|s.ringPoint|), Summand(R, s.stages, s.ringPoint, q), Summand(R, s.stages, s.ringPoint, f));
  }

  // ---- the code --------------------------------------------------------------------------------

  /** eq_eval of two points of one length. */
  method EqEval(R: Ring, left: seq<Elem>, right: seq<Elem>) returns (result: Elem)
    requires R.Laws() && |left| == |right|
    ensures result == Mle(R, EqTable(R, left), right)
  {
    hide Ring.Laws, Mle, EqAt;
    result := R.one;
    R.MulOne(EqAt(R, left, right));
    assert left[0..] == left && right[0..] == right;
    for i := 0 to |left|
      invariant R.mul(result, EqAt(R, left[i..], right[i..])) == EqAt(R, left, right)
    {
      EqAtNext(R, left, right, i, result);
      result := R.mul(result, R.add(R.add(R.one, left[i]), right[i]));
    }
    EqAtEnd(R, left[|left|..], right[|left|..]);
    R.MulOne(result);
    EqAtIsMle(R, left, right);
  }

  /** The public point's weight without its zeros: (1 + c + x_0) times every later 1 + x_i. */
  method PublicEq(R: Ring, s: Stacked, x: seq<Elem>) returns (product: Elem)
    requires R.Laws() && |x| == |s.memoryPoint| > 0
    ensures product == PointWeight(R, s, Public, x)
  {
    hide Ring.Laws, Mle, EqAt;
    var p := PublicPoint(R, s);
    product := R.add(R.add(R.one, s.publicChallenge), x[0]);
    R.MulOne(R.add(R.add(R.one, p[0]), x[0]));
    R.MulOne(EqAt(R, p, x));
    EqAtNext(R, p, x, 0, R.one);
    assert p[0..] == p && x[0..] == x;
    for i := 1 to |x|
      invariant R.mul(product, EqAt(R, p[i..], x[i..])) == EqAt(R, p, x)
    {
      EqAtNext(R, p, x, i, product);
      R.AddZero(R.one);
      product := R.mul(product, R.add(R.one, x[i]));
    }
    EqAtEnd(R, p[|x|..], x[|x|..]);
    R.MulOne(product);
    EqAtIsMle(R, p, x);
  }

  /** Stacked::eq_at. */
  method EqAtPoint(R: Ring, s: Stacked, at: At, x: seq<Elem>) returns (e: Elem)
    requires R.Laws() && s.memoryPoint != [] && |x| == |PointOf(R, s, at)|
    ensures e == PointWeight(R, s, at, x)
  {
    hide Ring.Laws, Mle;
    if at.Public? {
      e := PublicEq(R, s, x);
    } else {
      e := EqEval(R, PointOf(R, s, at), x);
    }
  }

  /** The cache line of a point. */
  function CacheIndex(at: At): nat {
    match at
    case Memory => 0
    case Bytecode => 1
    case Public => 2
    case KeccakOutput => 3
    case Table(t) => 4 + t
  }

  /** A filled line holds its point's weight at x's low coordinates. */
  ghost predicate CacheHolds(R: Ring, s: Stacked, x: seq<Elem>, known: seq<bool>, pointEq: seq<Elem>, at: At)
    requires |known| == |pointEq| == N_TABLES + 4 && CacheIndex(at) < |known|
  {
    known[CacheIndex(at)] ==>
      |PointOf(R, s, at)| <= |x| && pointEq[CacheIndex(at)] == PointWeight(R, s, at, x[..|PointOf(R, s, at)|])
  }

  ghost predicate IsCache(R: Ring, s: Stacked, x: seq<Elem>, known: seq<bool>, pointEq: seq<Elem>)
    requires |known| == |pointEq| == N_TABLES + 4
  {
    forall at: At :: CacheIndex(at) < |known| ==> CacheHolds(R, s, x, known, pointEq, at)
  }

  lemma CacheNext(R: Ring, s: Stacked, x: seq<Elem>, known: seq<bool>, pointEq: seq<Elem>, at: At, e: Elem)
    requires |known| == |pointEq| == N_TABLES + 4 && CacheIndex(at) < |known| && IsCache(R, s, x, known, pointEq)
    requires |PointOf(R, s, at)| <= |x| && e == PointWeight(R, s, at, x[..|PointOf(R, s, at)|])
    ensures IsCache(R, s, x, known[CacheIndex(at) := true], pointEq[CacheIndex(at) := e])
  {
    hide PointOf, PointWeight;
    forall b: At | CacheIndex(b) < |known|
      ensures CacheHolds(R, s, x, known[CacheIndex(at) := true], pointEq[CacheIndex(at) := e], b)
    {
      assert CacheHolds(R, s, x, known, pointEq, b);
      assert CacheIndex(b) == CacheIndex(at) ==> b == at;
    }
  }

  /** Stacked::basis: one eq product per point, each claim's selector bits, the powers of the scale. */
  method Basis(R: Ring, s: Stacked, x: seq<Elem>) returns (total: Elem)
    requires ValidStacked(R, s) && |x| == s.stackLog
    ensures total == BasisAt(R, s, x)
  {
    hide Ring.Laws, Mle, Eq, Pow2, Weight, EachClaim, ClaimsAt, IsCache, Shaped, FitsAt;
    var q := s.slots[QKECCAK].value;
    var above := EqAbove(R, q, x);
    var ring := RingSwitch.At(R, s.stages, s.ringPoint, x[..q.variables]);
    total := R.mul(above, ring);
    ghost var whole := BasisAt(R, s, x);
    var claims := EachClaim();
    var known, pointEq := seq(N_TABLES + 4, _ => false), seq(N_TABLES + 4, _ => R.zero);
    NothingKnown(R, s, x, known, pointEq);
    var power := s.scale;
    assert claims[0..] == claims;
    for k := 0 to |claims|
      invariant |known| == |pointEq| == N_TABLES + 4 && IsCache(R, s, x, known, pointEq)
      invariant AllShaped(R, s, claims[k..])
      invariant R.add(total, ClaimsAt(R, s, claims[k..], power, x)) == whole
    {
      var c := claims[k];
      assert Shaped(R, s, claims[k..][0]);
      assert claims[k..][1..] == claims[k + 1..];
      ClaimsAtNext(R, s, claims[k..], power, x, total);
      if s.slots[c.column].Some? {
        var slot, i := s.slots[c.column].value, CacheIndex(c.at);
        if !known[i] {
          var e := EqAtPoint(R, s, c.at, x[..slot.variables]);
          CacheNext(R, s, x, known, pointEq, c.at, e);
          pointEq := pointEq[i := e];
          known := known[i := true];
        }
        CacheRead(R, s, x, known, pointEq, c.at);
        var bits := EqAbove(R, slot, x);
        R.MulAssoc(power, pointEq[i], bits);
        total := R.add(total, R.mul(R.mul(power, pointEq[i]), bits));
        power := R.mul(power, s.scale);
      }
    }
    NoClaims(R, s, claims[|claims|..], power, x, total);
  }

  lemma NothingKnown(R: Ring, s: Stacked, x: seq<Elem>, known: seq<bool>, pointEq: seq<Elem>)
    requires |known| == |pointEq| == N_TABLES + 4 && forall i :: 0 <= i < |known| ==> !known[i]
    ensures IsCache(R, s, x, known, pointEq)
  {
  }

  lemma CacheRead(R: Ring, s: Stacked, x: seq<Elem>, known: seq<bool>, pointEq: seq<Elem>, at: At)
    requires |known| == |pointEq| == N_TABLES + 4 && IsCache(R, s, x, known, pointEq)
    requires CacheIndex(at) < |known| && known[CacheIndex(at)]
    ensures |PointOf(R, s, at)| <= |x| && pointEq[CacheIndex(at)] == PointWeight(R, s, at, x[..|PointOf(R, s, at)|])
  {
    assert CacheHolds(R, s, x, known, pointEq, at);
  }

  lemma ClaimsAtNext(R: Ring, s: Stacked, claims: seq<Claim>, power: Elem, x: seq<Elem>, total: Elem)
    requires R.Laws() && |x| == s.stackLog && claims != [] && AllShaped(R, s, claims)
    ensures Shaped(R, s, claims[0]) && claims[0].column < |s.slots| && CacheIndex(claims[0].at) < N_TABLES + 4
    ensures AllShaped(R, s, claims[1..])
    ensures s.slots[claims[0].column].None? ==>
              ClaimsAt(R, s, claims, power, x) == ClaimsAt(R, s, claims[1..], power, x)
    ensures s.slots[claims[0].column].Some? ==>
              && s.slots[claims[0].column].value.variables == |PointOf(R, s, claims[0].at)| <= |x|
              && R.add(total, ClaimsAt(R, s, claims, power, x))
                 == R.add(R.add(total, R.mul(power, ClaimAt(R, s, claims[0], x))), ClaimsAt(R, s, claims[1..], R.mul(power, s.scale), x))
  {
    hide Ring.Laws, ClaimAt;
    assert Shaped(R, s, claims[0]);
    if s.slots[claims[0].column].Some? {
      R.AddAssoc(total, R.mul(power, ClaimAt(R, s, claims[0], x)), ClaimsAt(R, s, claims[1..], R.mul(power, s.scale), x));
    }
  }

  lemma NoClaims(R: Ring, s: Stacked, claims: seq<Claim>, power: Elem, x: seq<Elem>, total: Elem)
    requires R.Laws() && |x| == s.stackLog && claims == [] && AllShaped(R, s, claims)
    ensures R.add(total, ClaimsAt(R, s, claims, power, x)) == total
  {
    R.AddZero(total);
  }

  /** The end of `walk`: every claimed value by the same powers, after the ring target. */
  method BatchTarget(R: Ring, s: Stacked, v: Values, ring: Elem) returns (target: Elem)
    requires R.Laws() && ValidValues(v) && |s.slots| == N_COLUMNS
    ensures AllListed(EachClaim())
    ensures target == R.add(ring, TargetOf(R, s, v, EachClaim(), s.scale))
  {
    hide Ring.Laws, EachClaim, TargetOf, ValueOf, Listed;
    EachClaimListed();
    target := ring;
    var claims := EachClaim();
    ghost var whole := R.add(ring, TargetOf(R, s, v, claims, s.scale));
    var power := s.scale;
    assert claims[0..] == claims;
    for k := 0 to |claims|
      invariant AllListed(claims[k..])
      invariant R.add(target, TargetOf(R, s, v, claims[k..], power)) == whole
    {
      var c := claims[k];
      assert claims[k..][1..] == claims[k + 1..];
      TargetNext(R, s, v, claims[k..], power, target);
      if s.slots[c.column].Some? {
        target := R.add(target, R.mul(power, ValueOf(v, c)));
        power := R.mul(power, s.scale);
      }
    }
    NoTarget(R, s, v, claims[|claims|..], power, target);
  }

  lemma TargetNext(R: Ring, s: Stacked, v: Values, claims: seq<Claim>, power: Elem, target: Elem)
    requires R.Laws() && ValidValues(v) && |s.slots| == N_COLUMNS && claims != [] && AllListed(claims)
    ensures Listed(claims[0]) && claims[0].column < N_COLUMNS && AllListed(claims[1..])
    ensures (claims[0].at.Memory? ==> claims[0].column < 4) && (claims[0].at.Public? ==> claims[0].column < 3)
    ensures s.slots[claims[0].column].None? ==>
              TargetOf(R, s, v, claims, power) == TargetOf(R, s, v, claims[1..], power)
    ensures s.slots[claims[0].column].Some? ==>
              R.add(target, TargetOf(R, s, v, claims, power))
              == R.add(R.add(target, R.mul(power, ValueOf(v, claims[0]))), TargetOf(R, s, v, claims[1..], R.mul(power, s.scale)))
  {
    hide Ring.Laws, ValueOf;
    assert Listed(claims[0]);
    if s.slots[claims[0].column].Some? {
      R.AddAssoc(target, R.mul(power, ValueOf(v, claims[0])), TargetOf(R, s, v, claims[1..], R.mul(power, s.scale)));
    }
  }

  lemma NoTarget(R: Ring, s: Stacked, v: Values, claims: seq<Claim>, power: Elem, target: Elem)
    requires R.Laws() && ValidValues(v) && |s.slots| == N_COLUMNS && claims == [] && AllListed(claims)
    ensures R.add(target, TargetOf(R, s, v, claims, power)) == target
  {
    R.AddZero(target);
  }

  /** A memory limb whose first two words are the public input's has the public line's value at the
      public point. */
  lemma PublicLine(R: Ring, s: Stacked, f: int -> Elem)
    requires R.Laws() && s.memoryPoint != []
    ensures Mle(R, f, PublicPoint(R, s)) == R.add(f(0), R.mul(s.publicChallenge, R.add(f(0), f(1))))
  {
    hide Mle, Ring.Laws;
    var p := PublicPoint(R, s);
    MleFold(R, f, p);
    assert p[1..] == Zeros(R, |s.memoryPoint| - 1);
    MleAtZero(R, Fold(R, f, p[0]), |s.memoryPoint| - 1);
  }

  lemma {:induction false} MleAtZero(R: Ring, f: int -> Elem, n: nat)
    requires R.Laws()
    ensures Mle(R, f, Zeros(R, n)) == f(0)
  {
    hide Mle, Ring.Laws;
    if n == 0 {
      assert Zeros(R, 0) == [];
      MleEmpty(R, f);
    } else {
      MleFold(R, f, Zeros(R, n));
      assert Zeros(R, n)[1..] == Zeros(R, n - 1);
      MleAtZero(R, Fold(R, f, R.zero), n - 1);
      R.MulZero(R.add(f(0), f(1)));
      R.AddZero(f(0));
    }
  }

  // ---- the layout gives a shaped opening ---------------------------------------------------------

  /** The points have the announced sizes. */
  ghost predicate PointsSized(R: Ring, s: Stacked, logMemory: nat, logBytecode: nat, rows: seq<nat>)
    requires |rows| == N_TABLES
  {
    && |s.memoryPoint| == logMemory > 0 && |s.bytecodePoint| == logBytecode
    && |s.tablePoints| == N_TABLES && (forall t :: 0 <= t < N_TABLES ==> |s.tablePoints[t]| == HeightAt(rows, t))
    && |s.keccakOutput| == |s.ringPoint| == Kappa(logMemory, logBytecode, rows, QKECCAK)
  }

  lemma {:induction false} TableClaimsShaped(R: Ring, s: Stacked, logMemory: nat, logBytecode: nat, rows: seq<nat>, n: nat)
    requires |rows| == N_TABLES && PointsSized(R, s, logMemory, logBytecode, rows)
    requires IsLayout(s.slots, logMemory, logBytecode, rows, s.stackLog) && n <= N_COLUMNS
    ensures AllShaped(R, s, TableClaims(n))
  {
    hide OwnApart, RidersWithin, RidersApart, Pow2, FitsAt, HeightAt;
    if n > GLOBAL_COLUMNS {
      TableClaimsShaped(R, s, logMemory, logBytecode, rows, n - 1);
      SlotShaped(R, s, logMemory, logBytecode, rows, Claim(n - 1, Table(TableOfColumn(n - 1))));
    }
  }

  lemma SlotShaped(R: Ring, s: Stacked, logMemory: nat, logBytecode: nat, rows: seq<nat>, c: Claim)
    requires |rows| == N_TABLES && IsLayout(s.slots, logMemory, logBytecode, rows, s.stackLog)
    requires c.column < N_COLUMNS && (c.at.Table? ==> c.at.t < N_TABLES)
    requires |PointOf(R, s, c.at)| == Kappa(logMemory, logBytecode, rows, c.column)
    ensures Shaped(R, s, c)
  {
    hide OwnApart, RidersWithin, RidersApart, Pow2, FitsAt, Kappa, PointOf;
    if s.slots[c.column].Some? {
      FitsVariables(s.slots[c.column].value, s.stackLog);
    }
  }

  /** So the opening of a built layout is valid: every claim's slot has its point's coordinates. */
  lemma LayoutShapes(R: Ring, s: Stacked, logMemory: nat, logBytecode: nat, rows: seq<nat>)
    requires R.Laws() && |rows| == N_TABLES && PointsSized(R, s, logMemory, logBytecode, rows)
    requires IsLayout(s.slots, logMemory, logBytecode, rows, s.stackLog)
    ensures ValidStacked(R, s)
  {
    hide OwnApart, RidersWithin, RidersApart, Pow2, FitsAt, HeightAt, Ring.Laws, Shaped, IsLayout, TableClaims;
    TableClaimsShaped(R, s, logMemory, logBytecode, rows, N_COLUMNS);
    forall column: nat | column < 4
      ensures Shaped(R, s, Claim(column, Memory)) && (column < 3 ==> Shaped(R, s, Claim(column, Public)))
    {
      SlotShaped(R, s, logMemory, logBytecode, rows, Claim(column, Memory));
      if column < 3 {
        SlotShaped(R, s, logMemory, logBytecode, rows, Claim(column, Public));
      }
    }
    SlotShaped(R, s, logMemory, logBytecode, rows, Claim(4, Bytecode));
    SlotShaped(R, s, logMemory, logBytecode, rows, Claim(QKECCAK, KeccakOutput));
    QKeccakShaped(R, s, logMemory, logBytecode, rows);
  }

  lemma QKeccakShaped(R: Ring, s: Stacked, logMemory: nat, logBytecode: nat, rows: seq<nat>)
    requires |rows| == N_TABLES && PointsSized(R, s, logMemory, logBytecode, rows)
    requires IsLayout(s.slots, logMemory, logBytecode, rows, s.stackLog)
    ensures |s.slots| == N_COLUMNS && s.slots[QKECCAK].Some?
    ensures s.slots[QKECCAK].value.variables == |s.ringPoint| <= s.stackLog && FitsAt(s.slots[QKECCAK].value, s.stackLog)
  {
    hide OwnApart, RidersWithin, RidersApart, Pow2, FitsAt, HeightAt;
    FitsVariables(s.slots[QKECCAK].value, s.stackLog);
  }
}
