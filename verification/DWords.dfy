/** Which D words stay in registers (gen_asm.py's access plan in `gen_keccakf`): the farthest
    next use is evicted, which no other choice of victims beats, and the emitted loads give every
    row its own D word. */
module DWords {

  type Item = nat

  /** What the plan says of an access: nothing, or whose register the word is reloaded into. */
  datatype Step = Keep | Evict(victim: Item)

  /** How far ahead c is needed; past the end when it is not. */
  function Next(acc: seq<Item>, c: Item): nat {
    if acc == [] || acc[0] == c then 0 else 1 + Next(acc[1..], c)
  }

  /** A plan for the accesses, from the words in registers: a missing word evicts a present one. */
  ghost predicate Runs(acc: seq<Item>, cache: set<Item>, plan: seq<Step>)
    decreases |acc|
  {
    && |plan| == |acc|
    && (acc != [] ==>
          if acc[0] in cache then plan[0] == Keep && Runs(acc[1..], cache, plan[1..])
          else plan[0].Evict? && plan[0].victim in cache
               && Runs(acc[1..], cache - {plan[0].victim} + {acc[0]}, plan[1..]))
  }

  function Reloads(plan: seq<Step>): nat {
    if plan == [] then 0 else (if plan[0].Evict? then 1 else 0) + Reloads(plan[1..])
  }

  lemma {:induction false} ReloadsLast(plan: seq<Step>, step: Step)
    ensures Reloads(plan + [step]) == Reloads(plan) + if step.Evict? then 1 else 0
  {
    if plan == [] {
      assert [step][1..] == [];
    } else {
      ReloadsLast(plan[1..], step);
      assert (plan + [step])[1..] == plan[1..] + [step];
    }
  }

  /** The cost is the number of accesses that had to reload. */
  lemma {:induction false} ReloadsCount(plan: seq<Step>)
    ensures Reloads(plan) == |set k | 0 <= k < |plan| && plan[k].Evict?|
  {
    if plan == [] {
    } else {
      var l := |plan| - 1;
      var all := set k | 0 <= k < |plan| && plan[k].Evict?;
      var before := set k | 0 <= k < l && plan[..l][k].Evict?;
      ReloadsCount(plan[..l]);
      ReloadsLast(plan[..l], plan[l]);
      assert plan == plan[..l] + [plan[l]];
      assert all == if plan[l].Evict? then before + {l} else before;
    }
  }

  /** The victim is one that is needed last. */
  ghost predicate IsFarthest(rest: seq<Item>, cache: set<Item>, victim: Item) {
    victim in cache && forall c :: c in cache ==> Next(rest, c) <= Next(rest, victim)
  }

  ghost predicate Farthest(acc: seq<Item>, cache: set<Item>, plan: seq<Step>)
    requires Runs(acc, cache, plan)
    decreases |acc|
  {
    acc != [] ==>
      if acc[0] in cache then Farthest(acc[1..], cache, plan[1..])
      else IsFarthest(acc[1..], cache, plan[0].victim)
           && Farthest(acc[1..], cache - {plan[0].victim} + {acc[0]}, plan[1..])
  }

  // ---- no choice does better -------------------------------------------------------------------

  /** A plan for the tail, behind one step. */
  lemma Prepend(acc: seq<Item>, cache: set<Item>, step: Step, plan: seq<Step>)
    requires acc != []
    requires if acc[0] in cache then step == Keep && Runs(acc[1..], cache, plan)
             else step.Evict? && step.victim in cache && Runs(acc[1..], cache - {step.victim} + {acc[0]}, plan)
    ensures Runs(acc, cache, [step] + plan) && Reloads([step] + plan) == (if step.Evict? then 1 else 0) + Reloads(plan)
  {
    assert ([step] + plan)[1..] == plan;
  }

  /** From caches that differ in one word the costs differ by at most one. */
  lemma {:induction false} OneApart(acc: seq<Item>, kept: set<Item>, u: Item, v: Item, q: seq<Step>) returns (p: seq<Step>)
    requires u !in kept && v !in kept && Runs(acc, kept + {v}, q)
    ensures Runs(acc, kept + {u}, p) && Reloads(p) <= Reloads(q) + 1
    decreases |acc|, 0
  {
    if acc == [] {
      p := [];
    } else if u == v {
      p := q;
    } else {
      var x, rest, more := acc[0], acc[1..], q[1..];
      if x in kept {
        p := OneApart(rest, kept, u, v, more);
        Prepend(acc, kept + {u}, Keep, p);
        p := [Keep] + p;
      } else if x == u {
        p := Takes(rest, kept, u, v, q[0].victim, more);
        Prepend(acc, kept + {u}, Keep, p);
        p := [Keep] + p;
      } else if x == v {
        assert kept + {u} - {u} + {v} == kept + {v};
        Prepend(acc, kept + {u}, Evict(u), more);
        p := [Evict(u)] + more;
      } else {
        var w := q[0].victim;
        if w == v {
          assert kept + {v} - {v} + {x} == kept + {u} - {u} + {x};
          Prepend(acc, kept + {u}, Evict(u), more);
          p := [Evict(u)] + more;
        } else {
          assert kept + {v} - {w} + {x} == kept - {w} + {x} + {v};
          p := OneApart(rest, kept - {w} + {x}, u, v, more);
          assert kept + {u} - {w} + {x} == kept - {w} + {x} + {u};
          Prepend(acc, kept + {u}, Evict(w), p);
          p := [Evict(w)] + p;
        }
      }
    }
  }

  /** The other cache just loaded u in place of w; ours had it. */
  lemma {:induction false} Takes(rest: seq<Item>, kept: set<Item>, u: Item, v: Item, w: Item, more: seq<Step>) returns (p: seq<Step>)
    requires u !in kept && v !in kept && u != v && w in kept + {v} && Runs(rest, kept + {v} - {w} + {u}, more)
    ensures Runs(rest, kept + {u}, p) && Reloads(p) <= Reloads(more) + 1
    decreases |rest|, 1
  {
    if w == v {
      assert kept + {v} - {v} + {u} == kept + {u};
      p := more;
    } else {
      assert kept + {v} - {w} + {u} == kept - {w} + {u} + {v};
      assert kept + {u} == kept - {w} + {u} + {w};
      p := OneApart(rest, kept - {w} + {u}, w, v, more);
    }
  }

  /** Holding the word that is needed sooner is no worse. */
  lemma {:induction false} SoonerIsBetter(acc: seq<Item>, kept: set<Item>, u: Item, v: Item, q: seq<Step>) returns (p: seq<Step>)
    requires u !in kept && v !in kept && Runs(acc, kept + {v}, q) && Next(acc, u) <= Next(acc, v)
    ensures Runs(acc, kept + {u}, p) && Reloads(p) <= Reloads(q)
    decreases |acc|
  {
    if acc == [] {
      p := [];
    } else if u == v {
      p := q;
    } else {
      var x, rest, more := acc[0], acc[1..], q[1..];
      if x in kept {
        p := SoonerIsBetter(rest, kept, u, v, more);
        Prepend(acc, kept + {u}, Keep, p);
        p := [Keep] + p;
      } else if x == u {
        p := Takes(rest, kept, u, v, q[0].victim, more);
        Prepend(acc, kept + {u}, Keep, p);
        p := [Keep] + p;
      } else {
        var w := q[0].victim;
        if w == v {
          assert kept + {v} - {v} + {x} == kept + {u} - {u} + {x};
          Prepend(acc, kept + {u}, Evict(u), more);
          p := [Evict(u)] + more;
        } else {
          assert kept + {v} - {w} + {x} == kept - {w} + {x} + {v};
          p := SoonerIsBetter(rest, kept - {w} + {x}, u, v, more);
          assert kept + {u} - {w} + {x} == kept - {w} + {x} + {u};
          Prepend(acc, kept + {u}, Evict(w), p);
          p := [Evict(w)] + p;
        }
      }
    }
  }

  /** Evicting the farthest next use gives the fewest reloads of any plan from the same words. */
  lemma {:induction false} FarthestIsOptimal(acc: seq<Item>, cache: set<Item>, plan: seq<Step>, other: seq<Step>)
    requires Runs(acc, cache, plan) && Farthest(acc, cache, plan) && Runs(acc, cache, other)
    ensures Reloads(plan) <= Reloads(other)
    decreases |acc|
  {
    if acc != [] {
      var x, rest := acc[0], acc[1..];
      if x in cache {
        FarthestIsOptimal(rest, cache, plan[1..], other[1..]);
      } else {
        var f, w := plan[0].victim, other[0].victim;
        var kept := cache - {f} - {w} + {x};
        var better := other[1..];
        if f != w {
          assert cache - {w} + {x} == kept + {f} && cache - {f} + {x} == kept + {w};
          better := SoonerIsBetter(rest, kept, w, f, other[1..]);
        }
        FarthestIsOptimal(rest, cache - {f} + {x}, plan[1..], better);
      }
    }
  }

  // ---- the plan --------------------------------------------------------------------------------

  function Members(cache: seq<Item>): set<Item> {
    set i | 0 <= i < |cache| :: cache[i]
  }

  ghost predicate Distinct(cache: seq<Item>) {
    forall i, j :: 0 <= i < j < |cache| ==> cache[i] != cache[j]
  }

  /** The position of the first of the words needed last. */
  method FindVictim(cache: seq<Item>, rest: seq<Item>) returns (at: nat)
    requires cache != []
    ensures at < |cache| && IsFarthest(rest, Members(cache), cache[at])
    ensures forall j :: 0 <= j < at ==> Next(rest, cache[j]) < Next(rest, cache[at])
  {
    at := 0;
    var i := 1;
    while i < |cache|
      invariant 1 <= i <= |cache| && at < i
      invariant forall j :: 0 <= j < i ==> Next(rest, cache[j]) <= Next(rest, cache[at])
      invariant forall j :: 0 <= j < at ==> Next(rest, cache[j]) < Next(rest, cache[at])
    {
      if Next(rest, cache[i]) > Next(rest, cache[at]) {
        at := i;
      }
      i := i + 1;
    }
  }

  /** The words a plan reloads. */
  function Reloaded(acc: seq<Item>, plan: seq<Step>): set<Item>
    requires |plan| == |acc|
  {
    set k | 0 <= k < |acc| && plan[k].Evict? :: acc[k]
  }

  lemma Replace(cache: seq<Item>, at: nat, item: Item)
    requires Distinct(cache) && at < |cache| && item !in cache
    ensures Distinct(cache[at := item]) && Members(cache[at := item]) == Members(cache) - {cache[at]} + {item}
  {
    var next := cache[at := item];
    forall c | c in Members(cache) - {cache[at]}
      ensures c in Members(next)
    {
      var i :| 0 <= i < |cache| && cache[i] == c;
      assert next[i] == c;
    }
    assert next[at] == item;
    forall i | 0 <= i < |next|
      ensures next[i] in Members(cache) - {cache[at]} + {item}
    {
      assert i != at ==> next[i] == cache[i];
    }
  }

  /** What is planned from access k on, as a plan of its own. */
  ghost predicate Planned(acc: seq<Item>, initial: set<Item>, plan: seq<Step>, cache: set<Item>)
    requires |plan| <= |acc|
  {
    forall q :: Runs(acc[|plan|..], cache, q) && Farthest(acc[|plan|..], cache, q) ==>
      Runs(acc, initial, plan + q) && Farthest(acc, initial, plan + q)
  }

  lemma {:induction false} PlannedNext(acc: seq<Item>, initial: set<Item>, plan: seq<Step>, cache: set<Item>, step: Step, next: set<Item>)
    requires |plan| < |acc| && Planned(acc, initial, plan, cache)
    requires if acc[|plan|] in cache then step == Keep && next == cache
             else step.Evict? && IsFarthest(acc[|plan| + 1..], cache, step.victim)
                  && next == cache - {step.victim} + {acc[|plan|]}
    ensures Planned(acc, initial, plan + [step], next)
  {
    var rest := acc[|plan|..];
    assert rest[1..] == acc[|plan| + 1..] && rest[0] == acc[|plan|];
    forall q | Runs(acc[|plan| + 1..], next, q) && Farthest(acc[|plan| + 1..], next, q)
      ensures Runs(acc, initial, plan + [step] + q) && Farthest(acc, initial, plan + [step] + q)
    {
      var r := [step] + q;
      assert r[1..] == q;
      assert Runs(rest, cache, r) && Farthest(rest, cache, r);
      assert plan + r == plan + [step] + q;
    }
  }

  /** The D-word plan: a plan that runs, evicts farthest, and lists what must be stored. */
  method MakePlan(acc: seq<Item>, initial: seq<Item>) returns (plan: seq<Step>, tabled: set<Item>)
    requires Distinct(initial) && (initial == [] ==> acc == [])
    ensures Runs(acc, Members(initial), plan) && Farthest(acc, Members(initial), plan)
    ensures tabled == Reloaded(acc, plan)
  {
    plan, tabled := [], {};
    var cache, k := initial, 0;
    PlannedStart(acc, Members(initial));
    while k < |acc|
      invariant 0 <= k <= |acc| && |plan| == k
      invariant Distinct(cache) && |cache| == |initial|
      invariant Planned(acc, Members(initial), plan, Members(cache))
      invariant tabled == set i | 0 <= i < k && plan[i].Evict? :: acc[i]
    {
      var item := acc[k];
      ghost var was, old' := plan, cache;
      if item in cache {
        assert item in Members(cache);
        plan := plan + [Keep];
      } else {
        var at := FindVictim(cache, acc[k + 1..]);
        Replace(cache, at, item);
        plan := plan + [Evict(cache[at])];
        cache := cache[at := item];
        tabled := tabled + {item};
      }
      PlannedNext(acc, Members(initial), was, Members(old'), plan[k], Members(cache));
      TabledNext(acc, was, plan[k]);
      k := k + 1;
    }
    assert acc[k..] == [] && plan + [] == plan;
    assert Runs(acc[k..], Members(cache), []) && Farthest(acc[k..], Members(cache), []);
  }

  lemma PlannedStart(acc: seq<Item>, initial: set<Item>)
    ensures Planned(acc, initial, [], initial)
  {
    assert acc[0..] == acc;
    forall q: seq<Step>
      ensures [] + q == q
    {
    }
  }

  lemma TabledNext(acc: seq<Item>, plan: seq<Step>, step: Step)
    requires |plan| < |acc|
    ensures (set i | 0 <= i < |plan| + 1 && (plan + [step])[i].Evict? :: acc[i])
         == (set i | 0 <= i < |plan| && plan[i].Evict? :: acc[i]) + (if step.Evict? then {acc[|plan|]} else {})
  {
    var next, was := set i | 0 <= i < |plan| + 1 && (plan + [step])[i].Evict? :: acc[i], set i | 0 <= i < |plan| && plan[i].Evict? :: acc[i];
    forall i | 0 <= i < |plan| && plan[i].Evict?
      ensures acc[i] in next
    {
      assert (plan + [step])[i].Evict?;
    }
    if step.Evict? {
      assert (plan + [step])[|plan|].Evict?;
    }
  }
}
