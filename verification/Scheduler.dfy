/** The list scheduler of the Thumb-2 generator (gen_asm.py's `schedule`): it reorders a round's
    instructions and must not change what they compute. */
module Scheduler {

  /** A register, or one word of a memory region. */
  datatype Loc = Reg(name: string) | Word(region: string, at: nat)

  type Store = map<Loc, int>

  datatype Region = NoMemory | Region(name: string)

  /** An instruction: what it declares (defs, uses, mem, load), and what it really does: the
      places it reads and writes, and its effect. */
  datatype Op = Op(defs: set<string>, uses: set<string>, mem: Region, load: bool,
                   sources: set<Loc>, targets: set<Loc>, run: Store -> Store)

  ghost predicate Agree(s: Store, t: Store, places: set<Loc>) {
    s.Keys == t.Keys && forall l :: l in places && l in s ==> s[l] == t[l]
  }

  ghost predicate Frames(op: Op, s: Store) {
    op.run(s).Keys == s.Keys && forall l :: l in s && l !in op.targets ==> op.run(s)[l] == s[l]
  }

  /** The effect is confined to the declared places and depends on nothing else. */
  ghost predicate Honest(op: Op) {
    && (forall l :: l in op.sources && l.Reg? ==> l.name in op.uses)
    && (forall l :: l in op.targets && l.Reg? ==> l.name in op.defs)
    && (forall l :: l in op.sources + op.targets && l.Word? ==> op.mem == Region(l.region))
    && (op.load ==> forall l :: l in op.targets ==> l.Reg?)
    && (forall s :: Frames(op, s))
    && (forall s, t :: Agree(s, t, op.sources) ==> Agree(op.run(s), op.run(t), op.targets))
  }

  /** `schedule`'s test: two instructions must keep their order. */
  predicate Conflict(a: Op, b: Op) {
    || a.uses * b.defs != {}
    || a.defs * b.uses != {}
    || a.defs * b.defs != {}
    || (a.mem == b.mem == Region("sp") && !(a.load && b.load))
  }

  /** Outside the stack frame no word is written by one instruction and touched by another: the
      source state is only read, and each destination word is stored once. */
  ghost predicate Separate(a: Op, b: Op) {
    forall l :: l in a.targets && l.Word? && l in b.sources + b.targets ==> a.mem == b.mem == Region("sp")
  }

  ghost predicate Program(ops: seq<Op>) {
    && (forall i :: 0 <= i < |ops| ==> Honest(ops[i]))
    && (forall i, j :: 0 <= i < |ops| && 0 <= j < |ops| && i != j ==> Separate(ops[i], ops[j]))
  }

  /** Running the instructions an index list names, in its order. */
  ghost function Exec(ops: seq<Op>, order: seq<nat>, s: Store): Store
    requires forall k :: 0 <= k < |order| ==> order[k] < |ops|
    decreases |order|
  {
    if order == [] then s else Exec(ops, order[1..], ops[order[0]].run(s))
  }

  // ---- instructions that may change places -----------------------------------------------------

  lemma NoOverlap(a: Op, b: Op)
    requires Honest(a) && Honest(b) && Separate(a, b) && !Conflict(a, b)
    ensures a.targets !! b.sources + b.targets
  {
    forall l | l in a.targets
      ensures l !in b.sources + b.targets
    {
      if l.Reg? {
        assert l.name !in a.defs * b.uses && l.name !in a.defs * b.defs;
      } else {
        assert !a.load;
      }
    }
  }

  lemma Commute(a: Op, b: Op, s: Store)
    requires Honest(a) && Honest(b)
    requires a.targets !! b.sources + b.targets && b.targets !! a.sources + a.targets
    ensures a.run(b.run(s)) == b.run(a.run(s))
  {
    var sa, sb := a.run(s), b.run(s);
    assert Frames(a, s) && Frames(b, s) && Frames(a, sb) && Frames(b, sa);
    assert Agree(sb, s, a.sources) && Agree(sa, s, b.sources);
    assert Agree(a.run(sb), sa, a.targets) && Agree(b.run(sa), sb, b.targets);
    forall l | l in s
      ensures a.run(sb)[l] == b.run(sa)[l]
    {
    }
  }

  lemma ConflictSymmetric(a: Op, b: Op)
    ensures Conflict(a, b) == Conflict(b, a)
  {
    assert a.uses * b.defs == b.defs * a.uses && a.defs * b.uses == b.uses * a.defs && a.defs * b.defs == b.defs * a.defs;
  }

  lemma MayCommute(ops: seq<Op>, i: nat, j: nat, s: Store)
    requires Program(ops) && i < |ops| && j < |ops| && i != j && !Conflict(ops[i], ops[j])
    ensures ops[i].run(ops[j].run(s)) == ops[j].run(ops[i].run(s))
  {
    ConflictSymmetric(ops[i], ops[j]);
    NoOverlap(ops[i], ops[j]);
    NoOverlap(ops[j], ops[i]);
    Commute(ops[i], ops[j], s);
  }

  // ---- instructions that may not ---------------------------------------------------------------

  /** What an instruction may read and write by its declarations. */
  predicate MayRead(op: Op, l: Loc) {
    if l.Reg? then l.name in op.uses else op.mem == Region(l.region)
  }

  predicate MayWrite(op: Op, l: Loc) {
    if l.Reg? then l.name in op.defs else op.mem == Region(l.region) && !op.load
  }

  predicate SameDeclared(a: Op, b: Op) {
    a.defs == b.defs && a.uses == b.uses && a.mem == b.mem && a.load == b.load
  }

  function CopyRun(s: Store, src: Loc, dst: Loc): Store {
    if dst in s then s[dst := if src in s then s[src] + 1 else 0] else s
  }

  function PutRun(s: Store, dst: Loc, v: int): Store {
    if dst in s then s[dst := v] else s
  }

  /** op as an instruction that writes one place from another, or a constant. */
  function Copying(op: Op, src: Loc, dst: Loc): Op {
    op.(sources := {src}, targets := {dst}, run := (s: Store) => CopyRun(s, src, dst))
  }

  function Putting(op: Op, dst: Loc, v: int): Op {
    op.(sources := {}, targets := {dst}, run := (s: Store) => PutRun(s, dst, v))
  }

  lemma CopyingHonest(op: Op, src: Loc, dst: Loc)
    requires MayRead(op, src) && MayWrite(op, dst)
    ensures Honest(Copying(op, src, dst)) && SameDeclared(Copying(op, src, dst), op)
  {
  }

  lemma PuttingHonest(op: Op, dst: Loc, v: int)
    requires MayWrite(op, dst)
    ensures Honest(Putting(op, dst, v)) && SameDeclared(Putting(op, dst, v), op)
  {
  }

  ghost predicate OrderMatters(a: Op, b: Op, s: Store) {
    a.run(b.run(s)) != b.run(a.run(s))
  }

  /** Two instructions with these declarations, honest and separate, whose order matters. */
  ghost predicate Clash(a: Op, b: Op, x: Op, y: Op, s: Store) {
    Honest(x) && Honest(y) && SameDeclared(x, a) && SameDeclared(y, b) && Separate(x, y) && Separate(y, x) && OrderMatters(x, y, s)
  }

  /** It declares something it writes. */
  ghost predicate Effective(op: Op) {
    op.defs != {} || (op.mem == Region("sp") && !op.load)
  }

  lemma SomeTarget(op: Op) returns (l: Loc)
    requires Effective(op)
    ensures MayWrite(op, l) && (l.Word? ==> l.region == "sp")
  {
    if op.defs != {} {
      var r :| r in op.defs;
      l := Reg(r);
    } else {
      l := Word("sp", 0);
    }
  }

  /** One reads what the other writes. */
  lemma ReadWriteClash(a: Op, b: Op, l: Loc) returns (x: Op, y: Op, s: Store)
    requires Effective(a) && MayRead(a, l) && MayWrite(b, l) && (l.Word? ==> l.region == "sp")
    ensures Clash(a, b, x, y, s)
  {
    var d := SomeTarget(a);
    x, y := Copying(a, l, d), Putting(b, l, 7);
    s := map[l := 0, d := 0];
    CopyingHonest(a, l, d);
    PuttingHonest(b, l, 7);
    hide Honest;
    assert y.run(x.run(s))[d] == if d == l then 7 else 1;
    assert x.run(y.run(s))[d] == 8;
  }

  /** Both write one place. */
  lemma WriteWriteClash(a: Op, b: Op, l: Loc) returns (x: Op, y: Op, s: Store)
    requires MayWrite(a, l) && MayWrite(b, l) && (l.Word? ==> l.region == "sp")
    ensures Clash(a, b, x, y, s)
  {
    x, y := Putting(a, l, 1), Putting(b, l, 2);
    s := map[l := 0];
    PuttingHonest(a, l, 1);
    PuttingHonest(b, l, 2);
    hide Honest;
    assert y.run(x.run(s))[l] == 2 && x.run(y.run(s))[l] == 1;
  }

  lemma ClashSymmetric(a: Op, b: Op, x: Op, y: Op, s: Store)
    requires Clash(a, b, x, y, s)
    ensures Clash(b, a, y, x, s)
  {
    hide Honest;
  }

  /** The test asks for no order that is not needed: declarations in conflict are those of two
      instructions whose order matters. */
  lemma ConflictNeeded(a: Op, b: Op) returns (x: Op, y: Op, s: Store)
    requires Effective(a) && Effective(b) && Conflict(a, b)
    ensures Clash(a, b, x, y, s)
  {
    hide Clash;
    if a.uses * b.defs != {} {
      var r :| r in a.uses * b.defs;
      x, y, s := ReadWriteClash(a, b, Reg(r));
    } else if a.defs * b.uses != {} {
      var r :| r in a.defs * b.uses;
      y, x, s := ReadWriteClash(b, a, Reg(r));
      ClashSymmetric(b, a, y, x, s);
    } else if a.defs * b.defs != {} {
      var r :| r in a.defs * b.defs;
      x, y, s := WriteWriteClash(a, b, Reg(r));
    } else {
      var l := Word("sp", 0);
      if !a.load && !b.load {
        x, y, s := WriteWriteClash(a, b, l);
      } else if a.load {
        x, y, s := ReadWriteClash(a, b, l);
      } else {
        y, x, s := ReadWriteClash(b, a, l);
        ClashSymmetric(b, a, y, x, s);
      }
    }
  }

  /** And for every order that is: the test is exact. */
  lemma ConflictExact(a: Op, b: Op)
    requires Effective(a) && Effective(b)
    ensures Conflict(a, b) <==> exists x, y, s :: Clash(a, b, x, y, s)
  {
    hide Clash;
    if Conflict(a, b) {
      var x, y, s := ConflictNeeded(a, b);
    }
    if exists x, y, s :: Clash(a, b, x, y, s) {
      var x, y, s :| Clash(a, b, x, y, s);
      ClashConflicts(a, b, x, y, s);
    }
  }

  lemma ClashConflicts(a: Op, b: Op, x: Op, y: Op, s: Store)
    requires Clash(a, b, x, y, s)
    ensures Conflict(a, b)
  {
    if !Conflict(x, y) {
      ConflictSymmetric(x, y);
      NoOverlap(x, y);
      NoOverlap(y, x);
      Commute(x, y, s);
    }
  }

  ghost predicate InRange(ops: seq<Op>, order: seq<nat>) {
    forall k :: 0 <= k < |order| ==> order[k] < |ops|
  }

  /** An instruction in conflict with none before it may run first. */
  lemma {:induction false} PullFront(ops: seq<Op>, a: seq<nat>, p: nat, b: seq<nat>, s: Store)
    requires Program(ops) && p < |ops| && InRange(ops, a) && InRange(ops, b)
    requires forall k :: 0 <= k < |a| ==> a[k] != p && !Conflict(ops[a[k]], ops[p])
    ensures InRange(ops, a + [p] + b) && InRange(ops, [p] + (a + b))
    ensures Exec(ops, a + [p] + b, s) == Exec(ops, [p] + (a + b), s)
    decreases |a|
  {
    if a == [] {
      assert a + [p] + b == [p] + (a + b);
    } else {
      var q, rest := a[0], a[1..];
      assert a + [p] + b == [q] + (rest + [p] + b);
      assert ([q] + (rest + [p] + b))[1..] == rest + [p] + b;
      assert a + b == [q] + (rest + b);
      PullFront(ops, rest, p, b, ops[q].run(s));
      assert ([p] + (a + b))[1..] == a + b && (a + b)[1..] == rest + b && ([p] + (rest + b))[1..] == rest + b;
      MayCommute(ops, q, p, s);
    }
  }

  lemma {:induction false} ExecConcat(ops: seq<Op>, a: seq<nat>, b: seq<nat>, s: Store)
    requires InRange(ops, a) && InRange(ops, b)
    ensures InRange(ops, a + b)
    ensures Exec(ops, a + b, s) == Exec(ops, b, Exec(ops, a, s))
    decreases |a|
  {
    if a == [] {
      assert a + b == b;
    } else {
      assert (a + b)[1..] == a[1..] + b;
      ExecConcat(ops, a[1..], b, ops[a[0]].run(s));
    }
  }

  // ---- what is left to emit --------------------------------------------------------------------

  /** The indices in [start, end) not yet emitted, in program order. */
  ghost function Left(done: set<nat>, start: nat, end: nat): (r: seq<nat>)
    ensures forall k :: 0 <= k < |r| ==> start <= r[k] < end && r[k] !in done
    decreases end - start
  {
    if start >= end then []
    else (if start in done then [] else [start]) + Left(done, start + 1, end)
  }

  lemma {:induction false} LeftSplit(done: set<nat>, start: nat, mid: nat, end: nat)
    requires start <= mid <= end
    ensures Left(done, start, end) == Left(done, start, mid) + Left(done, mid, end)
    decreases mid - start
  {
    if start < mid {
      LeftSplit(done, start + 1, mid, end);
    }
  }

  lemma {:induction false} LeftOther(done: set<nat>, p: nat, start: nat, end: nat)
    requires p < start || end <= p
    ensures Left(done + {p}, start, end) == Left(done, start, end)
    decreases end - start
  {
    if start < end {
      LeftOther(done, p, start + 1, end);
    }
  }

  lemma LeftAround(done: set<nat>, p: nat, n: nat)
    requires p < n && p !in done
    ensures Left(done, 0, n) == Left(done, 0, p) + [p] + Left(done, p + 1, n)
    ensures Left(done + {p}, 0, n) == Left(done, 0, p) + Left(done, p + 1, n)
  {
    LeftSplit(done, 0, p, n);
    assert Left(done, p, n) == [p] + Left(done, p + 1, n);
    LeftSplit(done + {p}, 0, p, n);
    LeftOther(done, p, 0, p);
    LeftOther(done, p, p + 1, n);
  }

  /** Emitting a ready instruction next does not change the result. */
  lemma EmitReady(ops: seq<Op>, out: seq<nat>, done: set<nat>, p: nat, s: Store)
    requires Program(ops) && InRange(ops, out) && p < |ops| && p !in done
    requires forall j: nat :: j < p && j !in done ==> !Conflict(ops[j], ops[p])
    ensures InRange(ops, out + Left(done, 0, |ops|)) && InRange(ops, out + [p] + Left(done + {p}, 0, |ops|))
    ensures Exec(ops, out + Left(done, 0, |ops|), s) == Exec(ops, out + [p] + Left(done + {p}, 0, |ops|), s)
  {
    hide Conflict, Program, Left;
    var n := |ops|;
    var a, b := Left(done, 0, p), Left(done, p + 1, n);
    var t := Exec(ops, out, s);
    LeftAround(done, p, n);
    PullFront(ops, a, p, b, t);
    ExecConcat(ops, out, a + [p] + b, s);
    ExecConcat(ops, out, [p] + (a + b), s);
    assert out + [p] + (a + b) == out + ([p] + (a + b));
  }

  // ---- the scheduler ---------------------------------------------------------------------------

  ghost predicate DepsOf(ops: seq<Op>, i: nat, d: set<nat>)
    requires i < |ops|
  {
    forall j: nat :: j in d <==> j < i && Conflict(ops[i], ops[j])
  }

  ghost predicate IsDeps(ops: seq<Op>, deps: seq<set<nat>>, n: nat)
    requires n <= |ops| && n <= |deps|
  {
    forall i: nat :: i < n ==> DepsOf(ops, i, deps[i])
  }

  method Dependencies(ops: seq<Op>) returns (deps: seq<set<nat>>)
    ensures |deps| == |ops| && IsDeps(ops, deps, |ops|)
  {
    deps := [];
    for i := 0 to |ops|
      invariant |deps| == i && IsDeps(ops, deps, i)
    {
      var d := Earlier(ops, i);
      deps := deps + [d];
    }
  }

  /** The inner loop: the instructions before i that i must wait for. */
  method Earlier(ops: seq<Op>, i: nat) returns (d: set<nat>)
    requires i < |ops|
    ensures DepsOf(ops, i, d)
  {
    hide Conflict;
    d := {};
    for j := 0 to i
      invariant forall k: nat :: k in d <==> k < j && Conflict(ops[i], ops[k])
    {
      if Conflict(ops[i], ops[j]) {
        d := d + {j};
      }
    }
  }

  predicate Ready(deps: seq<set<nat>>, done: set<nat>, i: nat)
    requires i < |deps|
  {
    i !in done && deps[i] <= done
  }

  /** Instruction i would use, right away, a register the load `last` has just written. */
  predicate Stalls(ops: seq<Op>, last: int, i: nat)
    requires last < |ops| && i < |ops|
  {
    last >= 0 && ops[last].load && ops[i].uses * ops[last].defs != {}
  }

  /** The instruction emitted next: the first ready one that does not stall, or the first ready
      one when all of them do. */
  method Pick(ops: seq<Op>, deps: seq<set<nat>>, done: set<nat>, last: int) returns (p: nat)
    requires |deps| == |ops| && IsDeps(ops, deps, |ops|) && last < |ops|
    requires exists i: nat :: i < |ops| && i !in done
    ensures p < |ops| && Ready(deps, done, p)
    ensures Stalls(ops, last, p) ==> forall i: nat :: i < |ops| && Ready(deps, done, i) ==> Stalls(ops, last, i)
    ensures forall i: nat :: i < p && Ready(deps, done, i) ==> Stalls(ops, last, i) && !Stalls(ops, last, p)
  {
    var first: nat := |ops|;
    var i: nat := 0;
    while i < |ops|
      invariant i <= |ops| && first <= |ops|
      invariant first == |ops| ==> forall k: nat :: k < i ==> k in done
      invariant forall k: nat :: k < i && k < first ==> !Ready(deps, done, k)
      invariant first < |ops| ==> first < i && Ready(deps, done, first)
      invariant forall k: nat :: k < i && Ready(deps, done, k) ==> Stalls(ops, last, k)
    {
      if first == |ops| && i !in done {
        FirstIsReady(ops, deps, done, i);
      }
      if Ready(deps, done, i) {
        if !Stalls(ops, last, i) {
          return i;
        }
        first := if first == |ops| then i else first;
      }
      i := i + 1;
    }
    p := first;
  }

  lemma FirstIsReady(ops: seq<Op>, deps: seq<set<nat>>, done: set<nat>, i: nat)
    requires |deps| == |ops| && IsDeps(ops, deps, |ops|) && i < |ops| && i !in done
    requires forall k: nat :: k < i ==> k in done
    ensures Ready(deps, done, i)
  {
    hide Conflict;
    assert DepsOf(ops, i, deps[i]);
  }

  /** Every place in the order names a different instruction, and all are named. */
  ghost predicate Permutation(order: seq<nat>, n: nat) {
    && |order| == n
    && (forall k :: 0 <= k < n ==> order[k] < n)
    && (forall k, l :: 0 <= k < l < n ==> order[k] != order[l])
  }

  /** Conflicting instructions keep their order. */
  ghost predicate Respects(ops: seq<Op>, order: seq<nat>)
    requires InRange(ops, order)
  {
    forall k, l :: 0 <= k < l < |order| && Conflict(ops[order[l]], ops[order[k]]) ==> order[k] < order[l]
  }

  ghost function Identity(n: nat): seq<nat> {
    Left({}, 0, n)
  }

  lemma {:induction false} Below(n: nat) returns (all: set<nat>)
    ensures |all| == n && forall i: nat :: i in all <==> i < n
  {
    all := {};
    if n > 0 {
      var smaller := Below(n - 1);
      all := smaller + {n - 1};
    }
  }

  lemma Contained(a: set<nat>, b: set<nat>)
    requires a <= b
    ensures |a| <= |b| && (|a| == |b| ==> a == b)
  {
    assert b == a + (b - a);
    assert |b| == |a| + |b - a|;
  }

  lemma SomeLeft(done: set<nat>, n: nat)
    requires |done| < n
    ensures exists i: nat :: i < n && i !in done
  {
    var all := Below(n);
    if forall i: nat :: i < n ==> i in done {
      Contained(all, done);
    }
  }

  lemma {:induction false} LeftNone(done: set<nat>, start: nat, end: nat)
    requires forall i: nat :: start <= i < end ==> i in done
    ensures Left(done, start, end) == []
    decreases end - start
  {
    if start < end {
      LeftNone(done, start + 1, end);
    }
  }

  lemma AllDone(done: set<nat>, n: nat)
    requires |done| == n && forall i :: i in done ==> i < n
    ensures Left(done, 0, n) == []
  {
    var all := Below(n);
    Contained(done, all);
    LeftNone(done, 0, n);
  }

  /** A ready instruction in conflict with an emitted one comes after it in the program: had it
      come before, the emitted one would have waited for it. */
  ghost predicate Waited(ops: seq<Op>, done: set<nat>) {
    forall i, j: nat :: i in done && i < |ops| && j < i && Conflict(ops[i], ops[j]) ==> j in done
  }

  lemma KeepsOrder(ops: seq<Op>, deps: seq<set<nat>>, out: seq<nat>, done: set<nat>, p: nat)
    requires |deps| == |ops| && IsDeps(ops, deps, |ops|) && InRange(ops, out) && Respects(ops, out)
    requires p < |ops| && Ready(deps, done, p) && Waited(ops, done)
    requires forall k :: 0 <= k < |out| ==> out[k] in done
    ensures InRange(ops, out + [p]) && Respects(ops, out + [p]) && Waited(ops, done + {p})
  {
    hide Conflict;
    assert DepsOf(ops, p, deps[p]);
    var order := out + [p];
    forall k, l | 0 <= k < l < |order| && Conflict(ops[order[l]], ops[order[k]])
      ensures order[k] < order[l]
    {
      if l == |out| {
        ConflictSymmetric(ops[p], ops[out[k]]);
      }
    }
  }

  lemma ReadyConflicts(ops: seq<Op>, deps: seq<set<nat>>, done: set<nat>, p: nat)
    requires |deps| == |ops| && IsDeps(ops, deps, |ops|) && p < |ops| && Ready(deps, done, p)
    ensures p !in done && forall j: nat :: j < p && j !in done ==> !Conflict(ops[j], ops[p])
  {
    hide Conflict;
    assert DepsOf(ops, p, deps[p]);
    forall j: nat | j < p && j !in done
      ensures !Conflict(ops[j], ops[p])
    {
      ConflictSymmetric(ops[j], ops[p]);
    }
  }

  lemma StartEmpty(ops: seq<Op>, s: Store)
    ensures Respects(ops, []) && Waited(ops, {}) && InRange(ops, [] + Left({}, 0, |ops|))
    ensures Exec(ops, [] + Left({}, 0, |ops|), s) == Exec(ops, Identity(|ops|), s)
  {
    assert [] + Left({}, 0, |ops|) == Identity(|ops|);
  }

  /** `schedule`: from any state, the emitted order computes what the program order does. */
  method Schedule(ops: seq<Op>, ghost s: Store) returns (out: seq<nat>)
    requires Program(ops)
    ensures Permutation(out, |ops|) && InRange(ops, out) && Respects(ops, out)
    ensures InRange(ops, Identity(|ops|)) && Exec(ops, out, s) == Exec(ops, Identity(|ops|), s)
  {
    hide Conflict, Program, Left, Exec, IsDeps, Respects, Waited, Ready, Stalls;
    var deps := Dependencies(ops);
    var done: set<nat> := {};
    StartEmpty(ops, s);
    var last := -1;
    out := [];
    while |done| < |ops|
      invariant |done| == |out| <= |ops| && last < |ops|
      invariant forall k :: 0 <= k < |out| ==> out[k] < |ops| && out[k] in done
      invariant forall i :: i in done ==> i < |ops| && i in out
      invariant forall k, l :: 0 <= k < l < |out| ==> out[k] != out[l]
      invariant Respects(ops, out) && Waited(ops, done)
      invariant Exec(ops, out + Left(done, 0, |ops|), s) == Exec(ops, Identity(|ops|), s)
      decreases |ops| - |done|
    {
      SomeLeft(done, |ops|);
      var p := Pick(ops, deps, done, last);
      ReadyConflicts(ops, deps, done, p);
      EmitReady(ops, out, done, p, s);
      KeepsOrder(ops, deps, out, done, p);
      out := out + [p];
      done := done + {p};
      last := p;
    }
    AllDone(done, |ops|);
    assert out + [] == out;
  }
}
