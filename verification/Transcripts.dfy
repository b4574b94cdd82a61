/** The verifier's transcript (transcript.rs): the scalars the prover sends, and challenges that
    depend on everything absorbed and drawn before. The sponge is any function of that history. */
module Transcripts {
  import opened Rings
  import opened Sums
  import opened Kernels

  datatype Error =
    StreamExhausted | MultilinearSize | NotPowerOfTwo | GkrLayer | AnnouncedTableSizes | CommittedSize

  datatype Result<T> = Ok(value: T) | Err(error: Error)

  datatype Event = Absorb(value: Elem) | Draw

  type Oracle = seq<Event> -> Elem

  /** The scalars not yet read, and the sponge's history. */
  datatype State = State(scalars: seq<Elem>, history: seq<Event>)

  function AbsorbAt(v: seq<Elem>, i: int): Event {
    if 0 <= i < |v| then Absorb(v[i]) else Draw
  }

  function Absorbs(v: seq<Elem>): (e: seq<Event>)
    ensures |e| == |v|
    ensures forall i :: 0 <= i < |v| ==> e[i] == AbsorbAt(v, i)
  {
    seq(|v|, i => AbsorbAt(v, i))
  }

  /** `next_scalars`: the next n scalars, each absorbed. */
  function NextFrom(s: State, n: nat): (r: Result<(seq<Elem>, State)>)
    ensures r.Ok? ==> |r.value.0| == n
  {
    if |s.scalars| < n then Err(StreamExhausted)
    else Ok((s.scalars[..n], State(s.scalars[n..], s.history + Absorbs(s.scalars[..n]))))
  }

  function SampleFrom(o: Oracle, s: State): (Elem, State) {
    (o(s.history), State(s.scalars, s.history + [Draw]))
  }

  /** n challenges in a row, with nothing absorbed between them. */
  function Draws(o: Oracle, h: seq<Event>, n: nat): (r: (seq<Elem>, seq<Event>))
    ensures |r.0| == n
    decreases n
  {
    if n == 0 then ([], h)
    else
      var (xs, h') := Draws(o, h, n - 1);
      (xs + [o(h')], h' + [Draw])
  }

  function Total(R: Ring, v: seq<Elem>): Elem {
    Sum(R, |v|, TableOf(R, v))
  }

  /** `round_poly` with an equality factor r: all coefficients but the constant one are sent, and
      the constant is the one for which (1 + r) q(0) + r q(1) is the claim. */
  function RoundPolyFrom(R: Ring, s: State, count: nat, claim: Elem, r: Elem): (m: Result<(seq<Elem>, State)>)
    requires count > 0
    ensures m.Ok? ==> |m.value.0| == count
  {
    match NextFrom(s, count - 1)
    case Err(e) => Err(e)
    case Ok((tail, s')) => Ok(([R.add(claim, R.mul(r, Total(R, tail)))] + tail, s'))
  }

  lemma AbsorbsConcat(v: seq<Elem>, w: seq<Elem>)
    ensures Absorbs(v + w) == Absorbs(v) + Absorbs(w)
  {
    forall i | 0 <= i < |v| + |w|
      ensures Absorbs(v + w)[i] == (Absorbs(v) + Absorbs(w))[i]
    {
    }
  }

  /** Reading n scalars and then m is reading n + m. */
  lemma NextNext(s: State, n: nat, m: nat)
    ensures NextFrom(s, n + m) == match NextFrom(s, n)
                              case Err(e) => Err(e)
                              case Ok((v, s')) => match NextFrom(s', m)
                                                  case Err(e) => Err(e)
                                                  case Ok((w, s'')) => Ok((v + w, s''))
  {
    if |s.scalars| >= n + m {
      var all, v, w := s.scalars[..n + m], s.scalars[..n], s.scalars[n..][..m];
      assert all == v + w && s.scalars[n..][m..] == s.scalars[n + m..];
      AbsorbsConcat(v, w);
      assert s.history + Absorbs(v) + Absorbs(w) == s.history + (Absorbs(v) + Absorbs(w));
    }
  }

  /** The transcript as the verifier holds it: the cursor and the sponge move with every read. */
  class Transcript {
    const oracle: Oracle
    var scalars: seq<Elem>
    var history: seq<Event>

    constructor (oracle: Oracle, scalars: seq<Elem>)
      ensures this.oracle == oracle && Now() == State(scalars, [])
    {
      this.oracle, this.scalars, this.history := oracle, scalars, [];
    }

    function Now(): State
      reads this
    {
      State(scalars, history)
    }

    method NextScalar() returns (r: Result<Elem>)
      modifies this
      ensures match NextFrom(old(Now()), 1)
              case Err(e) => r == Err(e)
              case Ok((v, s)) => r == Ok(v[0]) && Now() == s
    {
      if scalars == [] {
        return Err(StreamExhausted);
      }
      var value := scalars[0];
      assert scalars[..1] == [value] && Absorbs([value]) == [Absorb(value)];
      scalars, history := scalars[1..], history + [Absorb(value)];
      r := Ok(value);
    }

    method NextScalars(n: nat) returns (r: Result<seq<Elem>>)
      modifies this
      ensures match NextFrom(old(Now()), n)
              case Err(e) => r == Err(e)
              case Ok((v, s)) => r == Ok(v) && Now() == s
    {
      ghost var start := Now();
      assert start.history + Absorbs([]) == start.history;
      var out := [];
      while |out| < n
        invariant |out| <= n
        invariant NextFrom(start, |out|) == Ok((out, Now()))
      {
        NextNext(start, |out|, 1);
        ghost var now := Now();
        var one := NextScalar();
        if one.Err? {
          NextMore(start, |out| + 1, n);
          return Err(one.error);
        }
        assert NextFrom(now, 1).value.0 == [one.value];
        out := out + [one.value];
      }
      r := Ok(out);
    }

    method Sample() returns (x: Elem)
      modifies this
      ensures (x, Now()) == SampleFrom(oracle, old(Now()))
    {
      x := oracle(history);
      history := history + [Draw];
    }

    method Samples(n: nat) returns (xs: seq<Elem>)
      modifies this
      ensures scalars == old(scalars) && (xs, history) == Draws(oracle, old(history), n)
    {
      xs := [];
      while |xs| < n
        invariant |xs| <= n && scalars == old(scalars)
        invariant (xs, history) == Draws(oracle, old(history), |xs|)
      {
        var x := Sample();
        xs := xs + [x];
      }
    }

    method RoundPoly(R: Ring, count: nat, claim: Elem, r: Elem) returns (m: Result<seq<Elem>>)
      requires count > 0
      modifies this
      ensures match RoundPolyFrom(R, old(Now()), count, claim, r)
              case Err(e) => m == Err(e)
              case Ok((v, s)) => m == Ok(v) && Now() == s
    {
      var sent := NextScalars(count - 1);
      if sent.Err? {
        return Err(sent.error);
      }
      var tail, i := R.zero, 0;
      while i < |sent.value|
        invariant 0 <= i <= |sent.value|
        invariant tail == Sum(R, i, TableOf(R, sent.value))
      {
        tail := R.add(tail, sent.value[i]);
        i := i + 1;
      }
      m := Ok([R.add(claim, R.mul(r, tail))] + sent.value);
    }
  }

  lemma NextMore(s: State, n: nat, m: nat)
    requires n <= m && NextFrom(s, n).Err?
    ensures NextFrom(s, m) == NextFrom(s, n)
  {
  }
}
