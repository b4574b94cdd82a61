/** Where the D words live (gen_asm.py's `allocate` and the row loads of `gen_keccakf`): the ten
    words are computed without touching a C word still needed, and every row reads its own. */
module DRegisters {
  import opened DWords

  type Reg = nat

  datatype Option<T> = None | Some(value: T)

  /** r4 to r13 (lr) hold C words 0 to 9; r2 and r3 are free. */
  function CReg(w: nat): Reg {
    w + 4
  }

  predicate IsLow(r: Reg) {
    r < 8
  }

  /** The C words D word 2x + h is made of. */
  function OperandA(item: Item): nat {
    2 * ((item / 2 + 4) % 5) + item % 2
  }

  function OperandB(item: Item): nat {
    2 * ((item / 2 + 1) % 5) + 1 - item % 2
  }

  /** The two D words made of C word w. */
  function UserA(w: nat): Item {
    2 * ((w / 2 + 1) % 5) + w % 2
  }

  function UserB(w: nat): Item {
    2 * ((w / 2 + 4) % 5) + 1 - w % 2
  }

  lemma OperandsAndUsers(item: Item, w: nat)
    requires item < 10 && w < 10
    ensures OperandA(item) < 10 && OperandB(item) < 10 && OperandA(item) != OperandB(item)
    ensures OperandA(item) == w <==> item == UserA(w)
    ensures OperandB(item) == w <==> item == UserB(w)
  {
    OneStep(item / 2, w / 2);
    OneStep(w / 2, item / 2);
  }

  /** One column forward undoes one column back. */
  lemma OneStep(x: nat, c: nat)
    requires x < 5 && c < 5
    ensures (x + 4) % 5 == c <==> x == (c + 1) % 5
  {
  }

  ghost predicate IsOrder(order: seq<Item>) {
    |order| == 10 && Distinct(order) && forall i :: 0 <= i < 10 ==> order[i] < 10
  }

  /** How many of the words to come use C word w. */
  function Left(rest: seq<Item>, w: nat): nat {
    (if UserA(w) in rest then 1 else 0) + (if UserB(w) in rest then 1 else 0)
  }

  lemma LeftNext(order: seq<Item>, k: nat, w: nat)
    requires Distinct(order) && (forall i :: 0 <= i < |order| ==> order[i] < 10) && k < |order| && w < 10
    ensures Left(order[k..], w) == Left(order[k + 1..], w) + (if w == OperandA(order[k]) || w == OperandB(order[k]) then 1 else 0)
  {
    OperandsAndUsers(order[k], w);
    hide OperandA, OperandB, UserA, UserB;
    assert order[k..] == [order[k]] + order[k + 1..];
    assert order[k] !in order[k + 1..];
  }

  /** Every item is in an order of all ten, and each C word starts with two uses. */
  lemma {:induction false} AllListed(order: seq<Item>, item: Item)
    requires IsOrder(order) && item < 10
    ensures item in order
  {
    var all: set<Item> := {0, 1, 2, 3, 4, 5, 6, 7, 8, 9};
    DistinctCount(order);
    assert Members(order) <= all;
    SameSize(Members(order), all);
    assert item in Members(order);
  }

  lemma {:induction false} SameSize<T>(a: set<T>, b: set<T>)
    requires a <= b && |a| == |b|
    ensures a == b
  {
    assert |b - a| == |b| - |a|;
  }

  lemma {:induction false} DistinctCount(s: seq<Item>)
    requires Distinct(s)
    ensures |Members(s)| == |s|
    decreases |s|
  {
    if s == [] {
      assert Members(s) == {};
    } else {
      var l := |s| - 1;
      DistinctCount(s[..l]);
      assert Members(s) == Members(s[..l]) + {s[l]} by {
        forall i | 0 <= i < l
          ensures s[i] in Members(s[..l])
        {
          assert s[..l][i] == s[i];
        }
      }
      assert s[l] !in Members(s[..l]);
    }
  }

  // ---- running the emitted instructions --------------------------------------------------------

  /** One D word computed: destination and operand registers. */
  datatype Emit = Emit(item: Item, dest: Reg, a: Reg, b: Reg)

  datatype Machine = Machine(regs: map<Reg, int>, table: map<Item, int>)

  function Read(m: Machine, r: Reg): int {
    if r in m.regs then m.regs[r] else 0
  }

  /** The word is computed into its register, and stored if any row reloads it. */
  function Execute(mix: (Item, int, int) -> int, tabled: set<Item>, m: Machine, e: Emit): Machine {
    var v := mix(e.item, Read(m, e.a), Read(m, e.b));
    Machine(m.regs[e.dest := v], if e.item in tabled then m.table[e.item := v] else m.table)
  }

  function RunAll(mix: (Item, int, int) -> int, tabled: set<Item>, m: Machine, steps: seq<Emit>): Machine {
    if steps == [] then m else Execute(mix, tabled, RunAll(mix, tabled, m, steps[..|steps| - 1]), steps[|steps| - 1])
  }

  /** The D word, from the C words. */
  function DWord(mix: (Item, int, int) -> int, c: nat -> int, item: Item): int {
    mix(item, c(OperandA(item)), c(OperandB(item)))
  }

  function AllWords(mix: (Item, int, int) -> int, c: nat -> int): Item -> int {
    (item: Item) => DWord(mix, c, item)
  }

  // ---- allocation ------------------------------------------------------------------------------

  /** How well a register suits: high for a word that stays, low otherwise; a dying operand's
      first. */
  function Cost(r: Reg, wantLow: bool, dying: seq<Reg>): nat {
    (if IsLow(r) != wantLow then 2 else 0) + (if r !in dying then 1 else 0)
  }

  /** `min` by that key: the first best. */
  method PickRegister(options: seq<Reg>, wantLow: bool, dying: seq<Reg>) returns (d: Reg)
    requires options != []
    ensures d in options && forall r :: r in options ==> Cost(d, wantLow, dying) <= Cost(r, wantLow, dying)
    ensures exists at :: 0 <= at < |options| && d == options[at]
                         && forall j :: 0 <= j < at ==> Cost(d, wantLow, dying) < Cost(options[j], wantLow, dying)
  {
    var at, i := 0, 1;
    while i < |options|
      invariant 0 <= at < |options| && 1 <= i <= |options|
      invariant forall j :: 0 <= j < i ==> Cost(options[at], wantLow, dying) <= Cost(options[j], wantLow, dying)
      invariant forall j :: 0 <= j < at ==> Cost(options[at], wantLow, dying) < Cost(options[j], wantLow, dying)
    {
      if Cost(options[i], wantLow, dying) < Cost(options[at], wantLow, dying) {
        at := i;
      }
      i := i + 1;
    }
    d := options[at];
  }

  /** Without r, which is there at most once. */
  function Without(s: seq<Reg>, r: Reg): (t: seq<Reg>)
    ensures forall x :: x in t <==> x in s && x != r
  {
    if s == [] then []
    else if s[0] == r then Without(s[1..], r)
    else [s[0]] + Without(s[1..], r)
  }

  const REGISTERS: set<Reg> := {2, 3, 4, 5, 6, 7, 8, 9, 10, 11, 12, 13}

  function AsSet(s: seq<Reg>): set<Reg> {
    set r | r in s
  }

  /** The registers of C words still to be used. */
  function LiveRegs(left: seq<nat>): set<Reg> {
    set w | 0 <= w < |left| && left[w] > 0 :: CReg(w)
  }

  /** Every register is live, free or resident, and only one of these. */
  ghost predicate Shared(live: set<Reg>, free: set<Reg>, dreg: map<Item, Reg>) {
    && live + free + dreg.Values == REGISTERS
    && live !! free && live !! dreg.Values && free !! dreg.Values
    && (forall i, j :: i in dreg && j in dreg && i != j ==> dreg[i] != dreg[j])
    && (forall i :: i in dreg ==> !IsLow(dreg[i]))
    && 2 in free && 3 in free
  }

  /** Live C words and resident or stored D words are intact. */
  ghost predicate Intact(mix: (Item, int, int) -> int, c: nat -> int, tabled: set<Item>, done: seq<Item>,
                         left: seq<nat>, dreg: map<Item, Reg>, m: Machine) {
    && |left| == 10
    && (forall w :: 0 <= w < 10 && left[w] > 0 ==> Read(m, CReg(w)) == c(w))
    && (forall i :: i in dreg ==> Read(m, dreg[i]) == DWord(mix, c, i))
    && (forall i :: i in done && i in tabled ==> i in m.table && m.table[i] == DWord(mix, c, i))
  }

  datatype Allocation = Allocation(steps: seq<Emit>, dreg: map<Item, Reg>, free: seq<Reg>)

  function Dying(left: seq<nat>, item: Item): seq<Reg>
    requires |left| == 10 && OperandA(item) < 10 && OperandB(item) < 10
  {
    (if left[OperandA(item)] == 0 then [CReg(OperandA(item))] else [])
    + (if left[OperandB(item)] == 0 then [CReg(OperandB(item))] else [])
  }

  /** The words' uses after this one. */
  function UseUp(left: seq<nat>, item: Item): (r: seq<nat>)
    requires |left| == 10 && OperandA(item) < 10 && OperandB(item) < 10
    ensures |r| == 10
  {
    seq(10, w requires 0 <= w < 10 => if (w == OperandA(item) || w == OperandB(item)) && left[w] > 0 then left[w] - 1 else left[w])
  }

  /** One step keeps the registers apart: d is a dying operand's register or a free one. */
  lemma SharedNext(live: set<Reg>, dying: set<Reg>, free: set<Reg>, dreg: map<Item, Reg>, item: Item, d: Reg, stays: bool)
    requires Shared(live, free, dreg) && dying <= live && d in dying + free && item !in dreg
    requires stays ==> !IsLow(d)
    ensures var now := free + dying - {d};
      Shared(live - dying, if stays then now else now + {d}, if stays then dreg[item := d] else dreg)
  {
    var next := dreg[item := d];
    assert next.Values == dreg.Values + {d} by {
      forall r | r in dreg.Values
        ensures r in next.Values
      {
        var i :| i in dreg && dreg[i] == r;
        assert next[i] == r;
      }
      assert next[item] == d;
    }
  }

  /** The registers that die are live ones, and the rest stay live. */
  lemma LiveNext(left: seq<nat>, item: Item)
    requires |left| == 10 && OperandA(item) < 10 && OperandB(item) < 10
    requires left[OperandA(item)] > 0 && left[OperandB(item)] > 0
    ensures var dying := AsSet(Dying(UseUp(left, item), item));
      dying <= LiveRegs(left) && LiveRegs(UseUp(left, item)) == LiveRegs(left) - dying
  {
    var next := UseUp(left, item);
    hide OperandA, OperandB;
    var dying := AsSet(Dying(next, item));
    forall w: nat | w < 10
      ensures CReg(w) in dying <==> (w == OperandA(item) || w == OperandB(item)) && next[w] == 0
    {
    }
    forall r | r in LiveRegs(left) - dying
      ensures r in LiveRegs(next)
    {
      var w :| 0 <= w < 10 && left[w] > 0 && CReg(w) == r;
      assert next[w] > 0;
    }
  }

  /** The destination is no register still needed. */
  lemma DestinationSafe(left: seq<nat>, free: set<Reg>, dreg: map<Item, Reg>, item: Item, d: Reg)
    requires |left| == 10 && OperandA(item) < 10 && OperandB(item) < 10
    requires left[OperandA(item)] > 0 && left[OperandB(item)] > 0
    requires Shared(LiveRegs(left), free, dreg) && d in AsSet(Dying(UseUp(left, item), item)) + free
    ensures forall w :: 0 <= w < 10 && UseUp(left, item)[w] > 0 ==> CReg(w) != d
    ensures forall i :: i in dreg ==> dreg[i] != d
  {
    LiveNext(left, item);
    hide OperandA, OperandB, Dying;
    var next := UseUp(left, item);
    forall w | 0 <= w < 10 && next[w] > 0
      ensures CReg(w) != d
    {
      assert CReg(w) in LiveRegs(next);
    }
    forall i | i in dreg
      ensures dreg[i] != d
    {
      assert dreg[i] in dreg.Values;
    }
  }

  /** The step's operands are intact, its destination is not needed, so all stays intact. */
  lemma IntactNext(mix: (Item, int, int) -> int, c: nat -> int, tabled: set<Item>, done: seq<Item>, left: seq<nat>,
                   dreg: map<Item, Reg>, m: Machine, item: Item, d: Reg, stays: bool)
    requires |left| == 10 && OperandA(item) < 10 && OperandB(item) < 10
    requires left[OperandA(item)] > 0 && left[OperandB(item)] > 0
    requires Intact(mix, c, tabled, done, left, dreg, m)
    requires forall w :: 0 <= w < 10 && UseUp(left, item)[w] > 0 ==> CReg(w) != d
    requires forall i :: i in dreg ==> dreg[i] != d
    ensures Intact(mix, c, tabled, done + [item], UseUp(left, item), if stays then dreg[item := d] else dreg,
                   Execute(mix, tabled, m, Emit(item, d, CReg(OperandA(item)), CReg(OperandB(item)))))
  {
    hide OperandA, OperandB, Dying;
    var next := UseUp(left, item);
    assert forall w :: 0 <= w < 10 && next[w] > 0 ==> left[w] > 0;
    hide UseUp;
  }

  lemma FreeNext(free: seq<Reg>, dying: seq<Reg>, d: Reg)
    requires Distinct(free) && Distinct(dying) && AsSet(free) !! AsSet(dying)
    ensures var now := Without(free, d) + Without(dying, d);
      Distinct(now) && AsSet(now) == AsSet(free) + AsSet(dying) - {d} && Distinct(now + [d]) && AsSet(now + [d]) == AsSet(now) + {d}
  {
    WithoutDistinct(free, d);
    WithoutDistinct(dying, d);
    var f, g := Without(free, d), Without(dying, d);
    forall i, j | 0 <= i < |f| && 0 <= j < |g|
      ensures f[i] != g[j]
    {
      assert f[i] in f && g[j] in g;
      assert f[i] in AsSet(free) && g[j] in AsSet(dying);
    }
    assert forall i :: 0 <= i < |f + g| ==> (f + g)[i] in f + g;
  }

  lemma {:induction false} WithoutDistinct(s: seq<Reg>, r: Reg)
    requires Distinct(s)
    ensures Distinct(Without(s, r))
    decreases |s|
  {
    if s != [] {
      WithoutDistinct(s[1..], r);
      var t := Without(s[1..], r);
      assert forall i :: 0 <= i < |t| ==> t[i] in t;
    }
  }

  lemma DyingDistinct(left: seq<nat>, item: Item)
    requires |left| == 10 && OperandA(item) < 10 && OperandB(item) < 10 && OperandA(item) != OperandB(item)
    ensures Distinct(Dying(left, item))
  {
  }

  /** What holds after the first k words of an order are placed. */
  ghost predicate Placed(mix: (Item, int, int) -> int, c: nat -> int, tabled: set<Item>, order: seq<Item>, initial: seq<Item>,
                         k: nat, left: seq<nat>, free: seq<Reg>, dreg: map<Item, Reg>, m: Machine)
    requires k <= |order|
  {
    && |left| == 10 && (forall w :: 0 <= w < 10 ==> left[w] == Left(order[k..], w))
    && Distinct(free) && Shared(LiveRegs(left), AsSet(free), dreg)
    && (forall i :: i in dreg <==> i in order[..k] && i in initial)
    && Intact(mix, c, tabled, order[..k], left, dreg, m)
  }

  lemma PlacedStart(mix: (Item, int, int) -> int, c: nat -> int, tabled: set<Item>, order: seq<Item>, initial: seq<Item>,
                    left: seq<nat>, m: Machine)
    requires IsOrder(order) && |left| == 10 && (forall w :: 0 <= w < 10 ==> left[w] == 2)
    requires forall w :: 0 <= w < 10 ==> Read(m, CReg(w)) == c(w)
    ensures Placed(mix, c, tabled, order, initial, 0, left, [2, 3], map[], m)
  {
    assert order[0..] == order && order[..0] == [];
    forall w | 0 <= w < 10
      ensures Left(order, w) == 2
    {
      UsersAre(w);
      AllListed(order, UserA(w));
      AllListed(order, UserB(w));
    }
    hide Left, UserA, UserB;
    forall r | 4 <= r < 14
      ensures r in LiveRegs(left)
    {
      assert left[r - 4] > 0 && CReg(r - 4) == r;
    }
    assert AsSet([2, 3]) == {2, 3};
  }

  lemma UsersAre(w: nat)
    requires w < 10
    ensures UserA(w) < 10 && UserB(w) < 10
  {
  }

  lemma PlacedNext(mix: (Item, int, int) -> int, c: nat -> int, tabled: set<Item>, order: seq<Item>, initial: seq<Item>,
                   k: nat, left: seq<nat>, free: seq<Reg>, dreg: map<Item, Reg>, m: Machine, d: Reg)
    requires IsOrder(order) && k < 10 && Placed(mix, c, tabled, order, initial, k, left, free, dreg, m)
    requires OperandA(order[k]) < 10 && OperandB(order[k]) < 10
    requires var dying := Dying(UseUp(left, order[k]), order[k]);
      d in dying + free && (order[k] in initial ==> !IsLow(d))
    ensures var item, dying := order[k], Dying(UseUp(left, order[k]), order[k]);
      var now := Without(free, d) + Without(dying, d);
      Placed(mix, c, tabled, order, initial, k + 1, UseUp(left, item), if item in initial then now else now + [d],
             if item in initial then dreg[item := d] else dreg,
             Execute(mix, tabled, m, Emit(item, d, CReg(OperandA(item)), CReg(OperandB(item)))))
  {
    hide OperandA, OperandB, UserA, UserB, Dying, UseUp, Left, Shared, Intact, LiveRegs, Without, Execute, CReg, Distinct, AsSet;
    var item := order[k];
    var next, dying := UseUp(left, item), Dying(UseUp(left, item), item);
    UsesOf(order, k, left);
    OrderAt(order, k);
    OperandsAndUsers(item, 0);
    LiveNext(left, item);
    DyingDistinct(next, item);
    SharedApart(left, AsSet(free), dreg, AsSet(dying));
    FreeNext(free, dying, d);
    InEither(dying, free, d);
    assert order[..k + 1] == order[..k] + [item];
    SharedNext(LiveRegs(left), AsSet(dying), AsSet(free), dreg, item, d, item in initial);
    DestinationSafe(left, AsSet(free), dreg, item, d);
    IntactNext(mix, c, tabled, order[..k], left, dreg, m, item, d, item in initial);
  }

  lemma OrderAt(order: seq<Item>, k: nat)
    requires IsOrder(order) && k < 10
    ensures order[k] < 10 && order[k] !in order[..k]
  {
  }

  lemma SharedApart(left: seq<nat>, free: set<Reg>, dreg: map<Item, Reg>, dying: set<Reg>)
    requires Shared(LiveRegs(left), free, dreg) && dying <= LiveRegs(left)
    ensures free !! dying
  {
    hide LiveRegs;
  }

  lemma InEither(dying: seq<Reg>, free: seq<Reg>, d: Reg)
    requires d in dying + free
    ensures d in AsSet(dying) + AsSet(free)
  {
  }

  /** The uses left are the uses to come. */
  lemma UsesOf(order: seq<Item>, k: nat, left: seq<nat>)
    requires IsOrder(order) && k < 10 && |left| == 10 && OperandA(order[k]) < 10 && OperandB(order[k]) < 10
    requires forall w :: 0 <= w < 10 ==> left[w] == Left(order[k..], w)
    ensures left[OperandA(order[k])] > 0 && left[OperandB(order[k])] > 0
    ensures forall w :: 0 <= w < 10 ==> UseUp(left, order[k])[w] == Left(order[k + 1..], w)
  {
    LeftNext(order, k, OperandA(order[k]));
    LeftNext(order, k, OperandB(order[k]));
    forall w: nat | w < 10
      ensures UseUp(left, order[k])[w] == Left(order[k + 1..], w)
    {
      LeftNext(order, k, w);
    }
  }

  // ---- when an order is refused ------------------------------------------------------------------

  /** Of least cost, for a word that stays: high if any register is. */
  lemma PicksHigh(options: seq<Reg>, dying: seq<Reg>, d: Reg)
    requires d in options && forall r :: r in options ==> Cost(d, false, dying) <= Cost(r, false, dying)
    ensures IsLow(d) <==> !AnyHigh(options)
  {
    if r :| r in options && !IsLow(r) {
      assert Cost(r, false, dying) <= 1;
    }
  }

  const HIGH: set<Reg> := {8, 9, 10, 11, 12, 13}

  /** The high registers whose C word no word from the k-th on uses. */
  ghost function DeadHigh(order: seq<Item>, k: nat): set<Reg>
    requires k <= |order|
  {
    set w | 4 <= w < 10 && Left(order[k..], w) == 0 :: CReg(w)
  }

  /** How many of the first k words stay. */
  ghost function Staying(order: seq<Item>, initial: seq<Item>, k: nat): nat
    requires k <= |order|
  {
    if k == 0 then 0 else Staying(order, initial, k - 1) + (if order[k - 1] in initial then 1 else 0)
  }

  /** The k-th word stays, and the words that stay before it hold every high register that is not
      needed for a C word. */
  ghost predicate Stuck(order: seq<Item>, initial: seq<Item>, k: nat)
    requires |order| == 10
  {
    k < 10 && order[k] in initial && |DeadHigh(order, k + 1)| <= Staying(order, initial, k)
  }

  ghost function StayingSet(order: seq<Item>, initial: seq<Item>, k: nat): set<Item>
    requires k <= |order|
  {
    set i | i in order[..k] && i in initial
  }

  lemma {:induction false} StayingCount(order: seq<Item>, initial: seq<Item>, k: nat)
    requires Distinct(order) && k <= |order|
    ensures |StayingSet(order, initial, k)| == Staying(order, initial, k)
    decreases k
  {
    if k == 0 {
      assert StayingSet(order, initial, 0) == {};
    } else {
      hide StayingSet;
      StayingCount(order, initial, k - 1);
      StayingNext(order, initial, k - 1);
    }
  }

  lemma StayingNext(order: seq<Item>, initial: seq<Item>, k: nat)
    requires Distinct(order) && k < |order|
    ensures var before, x := StayingSet(order, initial, k), order[k];
      x !in before && StayingSet(order, initial, k + 1) == if x in initial then before + {x} else before
  {
    var x := order[k];
    assert order[..k + 1] == order[..k] + [x];
    forall i | 0 <= i < k
      ensures order[i] != x
    {
    }
  }

  /** The high registers open to the k-th word: those not needed for a C word, less the resident. */
  lemma OpenHigh(live: set<Reg>, dying: set<Reg>, free: set<Reg>, dreg: map<Item, Reg>)
    requires Shared(live, free, dreg) && dying <= live
    ensures (dying + free) * HIGH == HIGH - (live - dying) - dreg.Values && dreg.Values <= HIGH - (live - dying)
  {
    forall r | r in dreg.Values
      ensures r in HIGH && r !in live
    {
      assert r in REGISTERS;
    }
    assert HIGH <= REGISTERS;
    forall r | r in HIGH
      ensures r in (dying + free) * HIGH <==> r in HIGH - (live - dying) - dreg.Values
    {
      assert r in live + free + dreg.Values;
    }
  }

  lemma DeadHighIs(order: seq<Item>, k: nat, next: seq<nat>)
    requires k <= |order| && |next| == 10 && forall w :: 0 <= w < 10 ==> next[w] == Left(order[k..], w)
    ensures HIGH - LiveRegs(next) == DeadHigh(order, k)
  {
    hide Left;
    forall r | r in HIGH
      ensures r in LiveRegs(next) <==> r !in DeadHigh(order, k)
    {
      assert CReg(r - 4) == r;
      if r in LiveRegs(next) {
        var w :| 0 <= w < 10 && next[w] > 0 && CReg(w) == r;
      }
      if r in DeadHigh(order, k) {
        var w :| 4 <= w < 10 && Left(order[k..], w) == 0 && CReg(w) == r;
      }
    }
  }

  lemma LessCount<T>(a: set<T>, b: set<T>)
    requires b <= a
    ensures |a - b| == |a| - |b| && (a - b == {} <==> |a| <= |b|)
  {
  }

  lemma HighSets(mix: (Item, int, int) -> int, c: nat -> int, tabled: set<Item>, order: seq<Item>, initial: seq<Item>,
                 k: nat, left: seq<nat>, free: seq<Reg>, dreg: map<Item, Reg>, m: Machine)
    requires IsOrder(order) && k < 10 && Placed(mix, c, tabled, order, initial, k, left, free, dreg, m)
    requires OperandA(order[k]) < 10 && OperandB(order[k]) < 10
    ensures var dying := Dying(UseUp(left, order[k]), order[k]);
      && Shared(LiveRegs(left), AsSet(free), dreg) && AsSet(dying) <= LiveRegs(left)
      && (AsSet(dying) + AsSet(free)) * HIGH == DeadHigh(order, k + 1) - dreg.Values
      && dreg.Values <= DeadHigh(order, k + 1) && |dreg.Values| == Staying(order, initial, k)
  {
    hide OperandA, OperandB, UserA, UserB, Dying, UseUp, Left, Shared, Intact, LiveRegs, CReg, Distinct, DeadHigh, Staying, AsSet;
    var next, dying := UseUp(left, order[k]), Dying(UseUp(left, order[k]), order[k]);
    UsesOf(order, k, left);
    LiveNext(left, order[k]);
    OpenHigh(LiveRegs(left), AsSet(dying), AsSet(free), dreg);
    DeadHighIs(order, k + 1, next);
    ResidentCount(order, initial, k, dreg, LiveRegs(left), AsSet(free));
  }

  /** A word that stays finds a high register exactly when it is not stuck. */
  lemma HighOpen(mix: (Item, int, int) -> int, c: nat -> int, tabled: set<Item>, order: seq<Item>, initial: seq<Item>,
                 k: nat, left: seq<nat>, free: seq<Reg>, dreg: map<Item, Reg>, m: Machine)
    requires IsOrder(order) && k < 10 && order[k] in initial && Placed(mix, c, tabled, order, initial, k, left, free, dreg, m)
    requires OperandA(order[k]) < 10 && OperandB(order[k]) < 10
    ensures var dying := Dying(UseUp(left, order[k]), order[k]);
      AnyHigh(dying + free) <==> !Stuck(order, initial, k)
  {
    hide OperandA, OperandB, Dying, UseUp, Shared, LiveRegs, DeadHigh, Staying, AsSet, AnyHigh, Intact, Left, Distinct;
    HighSets(mix, c, tabled, order, initial, k, left, free, dreg, m);
    var dying := Dying(UseUp(left, order[k]), order[k]);
    LessCount(DeadHigh(order, k + 1), dreg.Values);
    OpenRegisters(dying, free, LiveRegs(left), dreg);
  }

  ghost predicate AnyHigh(options: seq<Reg>) {
    exists r :: r in options && !IsLow(r)
  }

  lemma ResidentCount(order: seq<Item>, initial: seq<Item>, k: nat, dreg: map<Item, Reg>, live: set<Reg>, free: set<Reg>)
    requires IsOrder(order) && k <= 10 && Shared(live, free, dreg) && forall i :: i in dreg <==> i in order[..k] && i in initial
    ensures |dreg.Values| == Staying(order, initial, k)
  {
    StayingCount(order, initial, k);
    assert dreg.Keys == StayingSet(order, initial, k);
    CountValues(dreg, dreg.Keys);
    assert dreg.Values == set i | i in dreg.Keys :: dreg[i];
  }

  /** Every register a word may go to is one of the twelve. */
  lemma OpenRegisters(dying: seq<Reg>, free: seq<Reg>, live: set<Reg>, dreg: map<Item, Reg>)
    requires Shared(live, AsSet(free), dreg) && AsSet(dying) <= live
    ensures AnyHigh(dying + free) <==> (AsSet(dying) + AsSet(free)) * HIGH != {}
  {
    var open := (AsSet(dying) + AsSet(free)) * HIGH;
    if r :| r in dying + free && !IsLow(r) {
      InEither(dying, free, r);
      assert r in REGISTERS && r in open;
    }
    if r :| r in open {
      assert r in dying + free && !IsLow(r);
    }
  }

  /** `allocate`: for every order it accepts, each word that stays has a high register holding it
      at the end, each reloaded word is in the table, and the registers left are free. It always
      finds a register to write: r2 and r3 are never given away. It refuses exactly the orders in
      which some word that stays is stuck. */
  method Allocate(ghost mix: (Item, int, int) -> int, ghost c: nat -> int, ghost tabled: set<Item>, ghost m: Machine,
                  order: seq<Item>, initial: seq<Item>) returns (res: Option<Allocation>)
    requires IsOrder(order) && forall w :: 0 <= w < 10 ==> Read(m, CReg(w)) == c(w)
    ensures res.None? <==> exists k: nat :: Stuck(order, initial, k)
    ensures res.Some? ==> |res.value.steps| == 10 && forall k :: 0 <= k < 10 ==> res.value.steps[k].item == order[k]
    ensures res.Some? ==> exists left ::
              Placed(mix, c, tabled, order, initial, 10, left, res.value.free, res.value.dreg, RunAll(mix, tabled, m, res.value.steps))
  {
    hide OperandA, OperandB, UserA, UserB, Dying, Placed, Cost, Execute, DeadHigh, Staying, AnyHigh;
    var left: seq<nat>, free: seq<Reg>, dreg: map<Item, Reg>, steps: seq<Emit> := seq(10, _ => 2), [2, 3], map[], [];
    var k := 0;
    PlacedStart(mix, c, tabled, order, initial, left, m);
    while k < 10
      invariant 0 <= k <= 10 && |steps| == k && |left| == 10
      invariant forall j :: 0 <= j < k ==> steps[j].item == order[j]
      invariant Placed(mix, c, tabled, order, initial, k, left, free, dreg, RunAll(mix, tabled, m, steps))
      invariant forall j: nat :: j < k ==> !Stuck(order, initial, j)
    {
      var item := order[k];
      OperandsAndUsers(item, 0);
      var next := UseUp(left, item);
      var dying := Dying(next, item);
      FreeIsNotEmpty(mix, c, tabled, order, initial, k, left, free, dreg, RunAll(mix, tabled, m, steps));
      var d := PickRegister(dying + free, item !in initial, dying);
      if item in initial {
        HighOpen(mix, c, tabled, order, initial, k, left, free, dreg, RunAll(mix, tabled, m, steps));
        PicksHigh(dying + free, dying, d);
      }
      if item in initial && IsLow(d) {
        return None;
      }
      PlacedNext(mix, c, tabled, order, initial, k, left, free, dreg, RunAll(mix, tabled, m, steps), d);
      var e := Emit(item, d, CReg(OperandA(item)), CReg(OperandB(item)));
      assert (steps + [e])[..k] == steps;
      steps := steps + [e];
      left := next;
      free := Without(free, d) + Without(dying, d);
      if item in initial {
        dreg := dreg[item := d];
      } else {
        free := free + [d];
      }
      k := k + 1;
    }
    res := Some(Allocation(steps, dreg, free));
  }

  lemma FreeIsNotEmpty(mix: (Item, int, int) -> int, c: nat -> int, tabled: set<Item>, order: seq<Item>, initial: seq<Item>,
                       k: nat, left: seq<nat>, free: seq<Reg>, dreg: map<Item, Reg>, m: Machine)
    requires k <= |order| && Placed(mix, c, tabled, order, initial, k, left, free, dreg, m)
    ensures free != []
  {
    assert 2 in AsSet(free);
  }

  /** After a whole order: the words that stay are in their registers, the reloaded ones in the
      table. */
  lemma AllPlaced(mix: (Item, int, int) -> int, c: nat -> int, tabled: set<Item>, order: seq<Item>, initial: seq<Item>,
                  left: seq<nat>, free: seq<Reg>, dreg: map<Item, Reg>, m: Machine)
    requires IsOrder(order) && Placed(mix, c, tabled, order, initial, 10, left, free, dreg, m)
    requires forall i :: i in initial ==> i < 10
    ensures dreg.Keys == Members(initial)
    ensures forall i :: i in initial ==> Read(m, dreg[i]) == DWord(mix, c, i)
    ensures forall i :: i < 10 && i in tabled ==> i in m.table && m.table[i] == DWord(mix, c, i)
  {
    hide OperandA, OperandB, UserA, UserB, DWord, Left, Shared, Intact, Distinct, LiveRegs, IsOrder, AsSet, Members;
    WholeOrder(order);
    KeysAre(order, initial, dreg);
    IntactMeans(mix, c, tabled, order, left, dreg, m);
    InMembers(initial);
    forall i: Item | i < 10
      ensures i in order
    {
      AllListed(order, i);
    }
  }

  /** With six words staying, exactly the six low registers are left for the rows. */
  lemma LowRegistersFree(mix: (Item, int, int) -> int, c: nat -> int, tabled: set<Item>, order: seq<Item>, initial: seq<Item>,
                         left: seq<nat>, free: seq<Reg>, dreg: map<Item, Reg>, m: Machine)
    requires IsOrder(order) && Placed(mix, c, tabled, order, initial, 10, left, free, dreg, m)
    requires |initial| == 6 && Distinct(initial) && forall i :: i in initial ==> i < 10
    ensures Distinct(free) && AsSet(free) == {2, 3, 4, 5, 6, 7}
  {
    AllPlaced(mix, c, tabled, order, initial, left, free, dreg, m);
    hide OperandA, OperandB, UserA, UserB, DWord, Left, Shared, Intact, Distinct, LiveRegs, IsOrder, AsSet, Members;
    WholeOrder(order);
    NothingLeft(left);
    DistinctCount(initial);
    SharedMeans(left, AsSet(free), dreg);
    HighRegisters(dreg);
  }

  lemma WholeOrder(order: seq<Item>)
    requires IsOrder(order)
    ensures |order| == 10 && order[..10] == order && order[10..] == []
  {
  }

  lemma InMembers(s: seq<Item>)
    ensures forall i :: i in s <==> i in Members(s)
  {
  }

  lemma KeysAre(order: seq<Item>, initial: seq<Item>, dreg: map<Item, Reg>)
    requires IsOrder(order) && (forall i :: i in initial ==> i < 10) && forall i :: i in dreg <==> i in order && i in initial
    ensures dreg.Keys == Members(initial)
  {
    forall i | i in initial
      ensures i in order
    {
      AllListed(order, i);
    }
    hide IsOrder;
    InMembers(initial);
  }

  lemma NothingLeft(left: seq<nat>)
    requires |left| == 10 && forall w :: 0 <= w < 10 ==> left[w] == Left([], w)
    ensures LiveRegs(left) == {}
  {
  }

  lemma IntactMeans(mix: (Item, int, int) -> int, c: nat -> int, tabled: set<Item>, done: seq<Item>,
                    left: seq<nat>, dreg: map<Item, Reg>, m: Machine)
    requires Intact(mix, c, tabled, done, left, dreg, m)
    ensures forall i :: i in dreg ==> Read(m, dreg[i]) == DWord(mix, c, i)
    ensures forall i :: i in done && i in tabled ==> i in m.table && m.table[i] == DWord(mix, c, i)
  {
    hide DWord;
  }

  lemma SharedMeans(left: seq<nat>, free: set<Reg>, dreg: map<Item, Reg>)
    requires Shared(LiveRegs(left), free, dreg) && LiveRegs(left) == {}
    ensures free == REGISTERS - dreg.Values && forall i :: i in dreg ==> 8 <= dreg[i] < 14
    ensures forall i, j :: i in dreg && j in dreg && i != j ==> dreg[i] != dreg[j]
  {
    hide LiveRegs;
    forall i | i in dreg
      ensures dreg[i] in REGISTERS
    {
      assert dreg[i] in dreg.Values;
    }
  }

  /** Six distinct high registers are all of them. */
  lemma HighRegisters(dreg: map<Item, Reg>)
    requires |dreg.Keys| == 6 && (forall i, j :: i in dreg && j in dreg && i != j ==> dreg[i] != dreg[j])
    requires forall i :: i in dreg ==> 8 <= dreg[i] < 14
    ensures dreg.Values == {8, 9, 10, 11, 12, 13}
  {
    CountValues(dreg, dreg.Keys);
    var image := set i | i in dreg.Keys :: dreg[i];
    assert image == dreg.Values;
    SameSize(dreg.Values, {8, 9, 10, 11, 12, 13});
  }

  lemma {:induction false} CountValues(dreg: map<Item, Reg>, keys: set<Item>)
    requires keys <= dreg.Keys && (forall i, j :: i in dreg && j in dreg && i != j ==> dreg[i] != dreg[j])
    ensures |set i | i in keys :: dreg[i]| == |keys|
    decreases keys
  {
    var image := set i | i in keys :: dreg[i];
    if keys == {} {
      assert image == {};
    } else {
      var k :| k in keys;
      CountValues(dreg, keys - {k});
      var less := set i | i in keys - {k} :: dreg[i];
      assert image == less + {dreg[k]};
      assert dreg[k] !in less;
    }
  }

  // ---- the rows --------------------------------------------------------------------------------

  /** The words in registers, and the stored ones the plan reloads. */
  ghost predicate Ready(d: Item -> int, acc: seq<Item>, plan: seq<Step>, k: nat, dreg: map<Item, Reg>, m: Machine) {
    && k <= |acc| == |plan| && Runs(acc[k..], dreg.Keys, plan[k..])
    && (forall i, j :: i in dreg && j in dreg && i != j ==> dreg[i] != dreg[j])
    && (forall i :: i in dreg ==> Read(m, dreg[i]) == d(i))
    && (forall j :: k <= j < |acc| && plan[j].Evict? ==> acc[j] in m.table && m.table[acc[j]] == d(acc[j]))
  }

  lemma ReadyNext(d: Item -> int, acc: seq<Item>, plan: seq<Step>, k: nat, dreg: map<Item, Reg>, m: Machine)
    requires Ready(d, acc, plan, k, dreg, m) && k < |acc|
    ensures plan[k] == Keep ==> acc[k] in dreg && Ready(d, acc, plan, k + 1, dreg, m)
    ensures plan[k].Evict? ==>
      plan[k].victim in dreg && acc[k] in m.table &&
      var r := dreg[plan[k].victim];
      Ready(d, acc, plan, k + 1, (dreg - {plan[k].victim})[acc[k] := r], Machine(m.regs[r := m.table[acc[k]]], m.table))
  {
    assert acc[k..][1..] == acc[k + 1..] && plan[k..][1..] == plan[k + 1..];
    assert acc[k..][0] == acc[k] && plan[k..][0] == plan[k];
    if plan[k].Evict? {
      var v := plan[k].victim;
      var next := (dreg - {v})[acc[k] := dreg[v]];
      assert next.Keys == dreg.Keys - {v} + {acc[k]};
    }
  }

  /** The rows' loads: a missing word takes its victim's register, and every access reads the
      D word it names. */
  method RunRows(ghost d: Item -> int, acc: seq<Item>, plan: seq<Step>, resident: map<Item, Reg>, start: Machine)
      returns (reads': seq<int>)
    requires Ready(d, acc, plan, 0, resident, start)
    ensures |reads'| == |acc| && forall k :: 0 <= k < |acc| ==> reads'[k] == d(acc[k])
  {
    hide Ready;
    var dreg: map<Item, Reg>, m, k := resident, start, 0;
    reads' := [];
    Lengths(d, acc, plan, 0, dreg, m);
    while k < |acc|
      invariant 0 <= k <= |acc| == |plan| && |reads'| == k && Ready(d, acc, plan, k, dreg, m)
      invariant forall j :: 0 <= j < k ==> reads'[j] == d(acc[j])
    {
      ReadyNext(d, acc, plan, k, dreg, m);
      if plan[k].Evict? {
        var r := dreg[plan[k].victim];
        dreg := (dreg - {plan[k].victim})[acc[k] := r];
        m := Machine(m.regs[r := m.table[acc[k]]], m.table);
      }
      Holds(d, acc, plan, k + 1, dreg, m);
      reads' := reads' + [Read(m, dreg[acc[k]])];
      k := k + 1;
    }
  }

  /** What allocation leaves is what the plan's rows need. */
  lemma AllocationReady(mix: (Item, int, int) -> int, c: nat -> int, acc: seq<Item>, plan: seq<Step>, order: seq<Item>,
                        initial: seq<Item>, left: seq<nat>, free: seq<Reg>, dreg: map<Item, Reg>, m: Machine)
    requires Runs(acc, Members(initial), plan) && (forall k :: 0 <= k < |acc| ==> acc[k] < 10)
    requires IsOrder(order) && forall i :: i in initial ==> i < 10
    requires Placed(mix, c, Reloaded(acc, plan), order, initial, 10, left, free, dreg, m)
    ensures Ready(AllWords(mix, c), acc, plan, 0, dreg, m)
  {
    hide DWord, IsOrder, Placed, Intact, Shared, Left, LiveRegs, AsSet, Distinct, Members, OperandA, OperandB, Read;
    WholeOrder(order);
    AllPlaced(mix, c, Reloaded(acc, plan), order, initial, left, free, dreg, m);
    SharedPlaced(mix, c, Reloaded(acc, plan), order, initial, left, free, dreg, m);
    InMembers(initial);
    assert acc[0..] == acc && plan[0..] == plan;
    forall j | 0 <= j < |acc| && plan[j].Evict?
      ensures acc[j] in Reloaded(acc, plan)
    {
    }
  }

  lemma SharedPlaced(mix: (Item, int, int) -> int, c: nat -> int, tabled: set<Item>, order: seq<Item>, initial: seq<Item>,
                     left: seq<nat>, free: seq<Reg>, dreg: map<Item, Reg>, m: Machine)
    requires |order| == 10 && Placed(mix, c, tabled, order, initial, 10, left, free, dreg, m)
    ensures forall i, j :: i in dreg && j in dreg && i != j ==> dreg[i] != dreg[j]
  {
    hide Intact, LiveRegs, Left;
  }

  lemma Lengths(d: Item -> int, acc: seq<Item>, plan: seq<Step>, k: nat, dreg: map<Item, Reg>, m: Machine)
    requires Ready(d, acc, plan, k, dreg, m)
    ensures |plan| == |acc|
  {
  }

  lemma Holds(d: Item -> int, acc: seq<Item>, plan: seq<Step>, k: nat, dreg: map<Item, Reg>, m: Machine)
    requires Ready(d, acc, plan, k, dreg, m)
    ensures forall i :: i in dreg ==> Read(m, dreg[i]) == d(i)
  {
  }
}
