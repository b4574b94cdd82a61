/** The sumcheck without equality factors (transcript.rs's `round_poly` and `sumcheck`): for any
    family of true round polynomials, honest rounds are accepted and a false claim survives only
    through an exceptional challenge. */
module Sumcheck {
  import opened Rings
  import opened Sums
  import opened Kernels
  import opened Polynomials
  import opened Transcripts
  import opened LayerSumcheck

  /** `round_poly` without an equality factor: all coefficients but the linear one are sent, and the
      linear one is that for which q(0) + q(1) is the claim. */
  function PlainRoundFrom(R: Ring, s: State, count: nat, claim: Elem): (m: Result<(seq<Elem>, State)>)
    requires count >= 2
    ensures m.Ok? ==> |m.value.0| == count
  {
    match NextFrom(s, count - 1)
    case Err(e) => Err(e)
    case Ok((v, s')) => Ok(([v[0], R.add(claim, Total(R, v[1..]))] + v[1..], s'))
  }

  datatype SumOut = SumOut(claim: Elem, point: seq<Elem>, state: State)

  function Run(R: Ring, o: Oracle, count: nat, claim: Elem, n: nat, s: State): (r: Result<SumOut>)
    requires count >= 2
    ensures r.Ok? ==> |r.value.point| == n
    decreases n
  {
    if n == 0 then Ok(SumOut(claim, [], s))
    else match PlainRoundFrom(R, s, count, claim)
         case Err(e) => Err(e)
         case Ok((m, s1)) =>
           var (x, s2) := SampleFrom(o, s1);
           match Run(R, o, count, PolyEval(R, m, x), n - 1, s2)
           case Err(e) => Err(e)
           case Ok(out) => Ok(SumOut(out.claim, [x] + out.point, out.state))
  }

  /** What a sum over n variables is reduced to: the partial sums with a prefix of the variables
      fixed, and the polynomial in the next variable. */
  datatype Family = Family(partial: seq<Elem> -> Elem, round: seq<Elem> -> seq<Elem>)

  ghost predicate ConsistentAt(R: Ring, f: Family, count: nat, xs: seq<Elem>) {
    && |f.round(xs)| == count
    && f.partial(xs) == R.add(PolyEval(R, f.round(xs), R.zero), PolyEval(R, f.round(xs), R.one))
    && forall x :: f.partial(xs + [x]) == PolyEval(R, f.round(xs), x)
  }

  ghost predicate Consistent(R: Ring, f: Family, count: nat, n: nat) {
    forall xs: seq<Elem> :: |xs| < n ==> ConsistentAt(R, f, count, xs)
  }

  lemma FamilyAt(R: Ring, f: Family, count: nat, n: nat, xs: seq<Elem>, x: Elem)
    requires Consistent(R, f, count, n) && |xs| < n
    ensures ConsistentAt(R, f, count, xs) && |f.round(xs)| == count
    ensures f.partial(xs) == R.add(PolyEval(R, f.round(xs), R.zero), PolyEval(R, f.round(xs), R.one))
    ensures f.partial(xs + [x]) == PolyEval(R, f.round(xs), x)
  {
    assert ConsistentAt(R, f, count, xs);
  }

  /** Some challenge is a root of the nonzero difference between what was sent and the true round. */
  ghost predicate Escape(R: Ring, o: Oracle, count: nat, claim: Elem, n: nat, s: State, f: Family, xs: seq<Elem>)
    requires count >= 2
    decreases n
  {
    n > 0 && match PlainRoundFrom(R, s, count, claim)
             case Err(e) => false
             case Ok((m, s1)) =>
               var (x, s2) := SampleFrom(o, s1);
               || (|f.round(xs)| == count && m != f.round(xs) && Root(R, Diff(R, m, f.round(xs)), x))
               || Escape(R, o, count, PolyEval(R, m, x), n - 1, s2, f, xs + [x])
  }

  /** The recovered coefficient makes the two ends add up to the claim. */
  lemma PlainRoundClaim(R: Ring, s: State, count: nat, claim: Elem)
    requires R.Laws() && count >= 2
    ensures match PlainRoundFrom(R, s, count, claim)
            case Err(e) => true
            case Ok((m, s1)) => R.add(PolyEval(R, m, R.zero), PolyEval(R, m, R.one)) == claim
  {
    if NextFrom(s, count - 1).Ok? {
      hide Ring.Laws, PolyEval;
      var m := PlainRoundFrom(R, s, count, claim).value.0;
      EvalAtBits(R, m);
      TotalFirst(R, m[1..]);
      assert m[1..][1..] == m[2..] == NextFrom(s, count - 1).value.0[1..];
      var t := Total(R, m[2..]);
      R.Cancel(claim, t);
      R.Cancel(Total(R, m[1..]), m[0]);
    }
  }

  lemma TotalFirst(R: Ring, v: seq<Elem>)
    requires R.Laws() && v != []
    ensures Total(R, v) == R.add(v[0], Total(R, v[1..]))
  {
    hide Ring.Laws;
    var f, h := TableOf(R, v), TableOf(R, v[1..]);
    SumSplit(R, 1, |v| - 1, f, h);
    FirstTerm(R, f);
  }

  lemma FirstTerm(R: Ring, f: int -> Elem)
    requires R.Laws()
    ensures Sum(R, 1, f) == f(0)
  {
    assert Sum(R, 0, f) == R.zero;
    R.AddZero(f(0));
  }

  /** Soundness: a final claim that is true came from a true claim, exceptional challenges apart. */
  lemma {:induction false} SumcheckSound(R: Ring, o: Oracle, count: nat, claim: Elem, n: nat, s: State, f: Family, xs: seq<Elem>)
    requires R.Laws() && count >= 2 && Consistent(R, f, count, |xs| + n) && !Escape(R, o, count, claim, n, s, f, xs)
    ensures match Run(R, o, count, claim, n, s)
            case Err(e) => true
            case Ok(out) => out.claim == f.partial(xs + out.point) ==> claim == f.partial(xs)
    decreases n
  {
    hide Ring.Laws, PolyEval, Root, Diff, Consistent, ConsistentAt, PlainRoundFrom;
    if n == 0 {
      assert xs + [] == xs;
    } else {
      var r := PlainRoundFrom(R, s, count, claim);
      if r.Ok? {
        var (m, s1) := r.value;
        var (x, s2) := SampleFrom(o, s1);
        var q := f.round(xs);
        FamilyAt(R, f, count, |xs| + n, xs, x);
        PlainRoundClaim(R, s, count, claim);
        SumcheckSound(R, o, count, PolyEval(R, m, x), n - 1, s2, f, xs + [x]);
        if m != q {
          AgreeOnlyAtRoots(R, m, q, x);
        }
        var next := Run(R, o, count, PolyEval(R, m, x), n - 1, s2);
        if next.Ok? {
          assert xs + ([x] + next.value.point) == xs + [x] + next.value.point;
        }
      }
    }
  }

  // ---- the honest prover -------------------------------------------------------------------------

  /** What is sent of a round polynomial. */
  function Sent(q: seq<Elem>): seq<Elem>
    requires |q| >= 2
  {
    [q[0]] + q[2..]
  }

  datatype Honest = Honest(messages: seq<Elem>, point: seq<Elem>, history: seq<Event>)

  function HonestRun(o: Oracle, count: nat, n: nat, f: Family, xs: seq<Elem>, h: seq<Event>): (r: Honest)
    ensures |r.point| == n
    decreases n
  {
    if n == 0 then Honest([], [], h)
    else
      var sent := if |f.round(xs)| >= 2 then Sent(f.round(xs)) else [];
      var h1 := h + Absorbs(sent);
      var x := o(h1);
      var rest := HonestRun(o, count, n - 1, f, xs + [x], h1 + [Draw]);
      Honest(sent + rest.messages, [x] + rest.point, rest.history)
  }

  /** From a true claim the verifier recovers the whole round. */
  lemma HonestRound(R: Ring, f: Family, count: nat, xs: seq<Elem>, more: seq<Elem>, h: seq<Event>)
    requires R.Laws() && count >= 2 && ConsistentAt(R, f, count, xs)
    ensures PlainRoundFrom(R, State(Sent(f.round(xs)) + more, h), count, f.partial(xs))
         == Ok((f.round(xs), State(more, h + Absorbs(Sent(f.round(xs))))))
  {
    hide Ring.Laws, PolyEval;
    var q := f.round(xs);
    var v := Sent(q);
    assert (v + more)[..count - 1] == v && (v + more)[count - 1..] == more;
    assert v[1..] == q[2..];
    EvalAtBits(R, q);
    TotalFirst(R, q[1..]);
    assert q[1..][1..] == q[2..];
    R.Cancel(Total(R, q[1..]), q[0]);
    R.Cancel(q[1], Total(R, q[2..]));
    assert q == [q[0], q[1]] + q[2..];
  }

  /** Completeness: from a true claim honest rounds are accepted, read to the last, and end in the
      true value at the point. */
  lemma {:induction false} SumcheckComplete(R: Ring, o: Oracle, count: nat, n: nat, f: Family, xs: seq<Elem>, more: seq<Elem>, h: seq<Event>)
    requires R.Laws() && count >= 2 && Consistent(R, f, count, |xs| + n)
    ensures var p := HonestRun(o, count, n, f, xs, h);
            Run(R, o, count, f.partial(xs), n, State(p.messages + more, h))
            == Ok(SumOut(f.partial(xs + p.point), p.point, State(more, p.history)))
    decreases n
  {
    hide Ring.Laws, PolyEval, PlainRoundFrom, Consistent, ConsistentAt;
    if n == 0 {
      assert xs + [] == xs && [] + more == more;
    } else {
      FamilyAt(R, f, count, |xs| + n, xs, R.zero);
      var sent := Sent(f.round(xs));
      var h1 := h + Absorbs(sent);
      var x := o(h1);
      var rest := HonestRun(o, count, n - 1, f, xs + [x], h1 + [Draw]);
      FamilyAt(R, f, count, |xs| + n, xs, x);
      HonestRound(R, f, count, xs, rest.messages + more, h);
      assert sent + rest.messages + more == sent + (rest.messages + more);
      SumcheckComplete(R, o, count, n - 1, f, xs + [x], more, h1 + [Draw]);
      assert xs + ([x] + rest.point) == xs + [x] + rest.point;
    }
  }

  // ---- the code --------------------------------------------------------------------------------

  method PlainRound(R: Ring, count: nat, claim: Elem, transcript: Transcript) returns (m: Result<seq<Elem>>)
    requires count >= 2
    modifies transcript
    ensures match PlainRoundFrom(R, old(transcript.Now()), count, claim)
            case Err(e) => m == Err(e)
            case Ok((v, s)) => m == Ok(v) && transcript.Now() == s
  {
    ghost var start := transcript.Now();
    NextNext(start, 1, count - 2);
    var first := transcript.NextScalar();
    if first.Err? {
      return Err(first.error);
    }
    ghost var now := transcript.Now();
    assert NextFrom(start, 1).value.0 == [first.value];
    var rest := transcript.NextScalars(count - 2);
    if rest.Err? {
      return Err(rest.error);
    }
    var tail, i := R.zero, 0;
    while i < |rest.value|
      invariant 0 <= i <= |rest.value|
      invariant tail == Sum(R, i, TableOf(R, rest.value))
    {
      tail := R.add(tail, rest.value[i]);
      i := i + 1;
    }
    assert ([first.value] + rest.value)[1..] == rest.value;
    m := Ok([first.value, R.add(claim, tail)] + rest.value);
  }

  method Sumcheck(R: Ring, claim0: Elem, count: nat, n: nat, transcript: Transcript) returns (r: Result<(Elem, seq<Elem>)>)
    requires count >= 2
    modifies transcript
    ensures match Run(R, transcript.oracle, count, claim0, n, old(transcript.Now()))
            case Err(e) => r == Err(e)
            case Ok(out) => r == Ok((out.claim, out.point)) && transcript.Now() == out.state
  {
    hide PolyEval, PlainRoundFrom;
    ghost var whole := Run(R, transcript.oracle, count, claim0, n, transcript.Now());
    var claim, point: seq<Elem>, i := claim0, [], 0;
    if whole.Ok? {
      assert point + whole.value.point == whole.value.point;
    }
    while i < n
      invariant 0 <= i <= n && |point| == i
      invariant match Run(R, transcript.oracle, count, claim, n - i, transcript.Now())
                case Err(e) => whole == Err(e)
                case Ok(out) => whole == Ok(SumOut(out.claim, point + out.point, out.state))
    {
      var message := PlainRound(R, count, claim, transcript);
      if message.Err? {
        return Err(message.error);
      }
      var x := transcript.Sample();
      claim := EvalPoly(R, message.value, x);
      ghost var was := point;
      point := point + [x];
      i := i + 1;
      ghost var next := Run(R, transcript.oracle, count, claim, n - i, transcript.Now());
      if next.Ok? {
        assert was + ([x] + next.value.point) == point + next.value.point;
      }
    }
    assert point + [] == point;
    r := Ok((claim, point));
  }
}
