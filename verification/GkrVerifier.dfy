/** bus.rs's `verify_gkr` as it runs: loops over a moving transcript, proved to compute exactly
    what module `Gkr` describes, and so to be complete and sound. */
module GkrVerifier {
  import opened Rings
  import opened Sums
  import opened Multilinear
  import opened Kernels
  import opened Polynomials
  import opened Transcripts
  import opened LayerSumcheck
  import opened Gkr
  import opened GkrLayers

  function Prepend(x: seq<Elem>, r: Result<RoundsOut>): Result<RoundsOut> {
    match r
    case Err(e) => Err(e)
    case Ok(out) => Ok(RoundsOut(out.claim, x + out.x, out.state))
  }

  method VerifyRounds(R: Ring, count: nat, claim0: Elem, point: seq<Elem>, transcript: Transcript)
    returns (r: Result<(Elem, seq<Elem>)>)
    requires count > 0
    modifies transcript
    ensures match Rounds(R, transcript.oracle, count, claim0, point, old(transcript.Now()))
            case Err(e) => r == Err(e)
            case Ok(out) => r == Ok((out.claim, out.x)) && transcript.Now() == out.state
  {
    hide RoundPolyFrom, PolyEval;
    ghost var all := Rounds(R, transcript.oracle, count, claim0, point, transcript.Now());
    var claim, x, i := claim0, [], 0;
    assert point[0..] == point && [] + (if all.Ok? then all.value.x else []) == if all.Ok? then all.value.x else [];
    while i < |point|
      invariant 0 <= i <= |point|
      invariant all == Prepend(x, Rounds(R, transcript.oracle, count, claim, point[i..], transcript.Now()))
    {
      ghost var rest := point[i..];
      assert rest[0] == point[i] && rest[1..] == point[i + 1..];
      var message := transcript.RoundPoly(R, count, claim, point[i]);
      if message.Err? {
        return Err(message.error);
      }
      var challenge := transcript.Sample();
      claim := EvalPoly(R, message.value, challenge);
      PrependOne(x, challenge, Rounds(R, transcript.oracle, count, claim, rest[1..], transcript.Now()));
      x := x + [challenge];
      i := i + 1;
    }
    assert point[i..] == [] && x + [] == x;
    r := Ok((claim, x));
  }

  lemma PrependOne(x: seq<Elem>, c: Elem, r: Result<RoundsOut>)
    ensures Prepend(x + [c], r) == Prepend(x, Prepend([c], r))
  {
    match r
    case Err(e) =>
    case Ok(out) => assert x + [c] + out.x == x + ([c] + out.x);
  }

  /** The 3w children, tree by tree. */
  method ReadChildren(w: nat, transcript: Transcript) returns (r: Result<seq<Elem>>)
    modifies transcript
    ensures match NextFrom(old(transcript.Now()), 3 * w)
            case Err(e) => r == Err(e)
            case Ok((v, s)) => r == Ok(v) && transcript.Now() == s
  {
    hide NextFrom;
    ghost var start := transcript.Now();
    NextNone(start);
    var flat, j := [], 0;
    while j < 3
      invariant 0 <= j <= 3
      invariant NextFrom(start, j * w) == Ok((flat, transcript.Now()))
    {
      NextNext(start, j * w, w);
      var child := transcript.NextScalars(w);
      if child.Err? {
        NextMore(start, (j + 1) * w, 3 * w);
        return Err(child.error);
      }
      flat := flat + child.value;
      j := j + 1;
    }
    r := Ok(flat);
  }

  lemma NextNone(s: State)
    ensures NextFrom(s, 0) == Ok(([], s))
  {
    assert s.history + Absorbs([]) == s.history;
  }

  method MultiplyOut(R: Ring, child: seq<Elem>) returns (p: Elem)
    ensures p == Product(R, |child|, TableOf(R, child))
  {
    p := R.one;
    for i := 0 to |child|
      invariant p == Product(R, i, TableOf(R, child))
    {
      p := R.mul(p, child[i]);
    }
  }

  method FoldChild(R: Ring, child: seq<Elem>, y: seq<Elem>) returns (v: Elem)
    requires R.Laws() && |y| < 32 && |child| == Pow2(|y|)
    ensures v == Mle(R, TableOf(R, child), y)
  {
    var buffer := new Elem[|child|](i requires 0 <= i < |child| => child[i]);
    assert buffer[..] == child;
    var ok, value := FoldEval(R, buffer, y);
    v := value;
  }

  /** One layer of `verify_gkr`. */
  method VerifyLayer(R: Ring, step: nat, point: seq<Elem>, values: seq<Elem>, transcript: Transcript)
    returns (r: Result<(seq<Elem>, seq<Elem>)>)
    requires R.Laws() && |values| == 3 && step in {1, 2}
    modifies transcript
    ensures match Layer(R, transcript.oracle, step, point, values, old(transcript.Now()))
            case Err(e) => r == Err(e)
            case Ok(out) => r == Ok((out.point, out.values)) && transcript.Now() == out.state
  {
    hide Rounds, PolyEval, Mle, Product, TableOf, Draws, NextFrom;
    var w := Width(step);
    var combiner := transcript.Sample();
    var claim := EvalPoly(R, values, combiner);
    var rounds := VerifyRounds(R, w + 1, claim, point, transcript);
    if rounds.Err? {
      return Err(rounds.error);
    }
    var (last, x) := rounds.value;
    var children := ReadChildren(w, transcript);
    if children.Err? {
      return Err(children.error);
    }
    var flat := children.value;
    NextLength(w, flat);
    var p0 := MultiplyOut(R, Child(w, flat, 0));
    var p1 := MultiplyOut(R, Child(w, flat, 1));
    var p2 := MultiplyOut(R, Child(w, flat, 2));
    var check := EvalPoly(R, [p0, p1, p2], combiner);
    if last != check {
      return Err(GkrLayer);
    }
    var y := transcript.Samples(step);
    var v0 := FoldChild(R, Child(w, flat, 0), y);
    var v1 := FoldChild(R, Child(w, flat, 1), y);
    var v2 := FoldChild(R, Child(w, flat, 2), y);
    if |point| + step > MAX_POINT {
      return Err(AnnouncedTableSizes);
    }
    r := Ok((y + x, [v0, v1, v2]));
  }

  lemma NextLength(w: nat, flat: seq<Elem>)
    requires |flat| == 3 * w
    ensures |Child(w, flat, 0)| == |Child(w, flat, 1)| == |Child(w, flat, 2)| == w
  {
  }

  /** `verify_gkr`. For any leaves of the three trees: an accepted run whose values are the leaf
      tables' own has announced the true products, exceptional challenges apart; and the honest
      prover's stream is accepted and read to its end. */
  method VerifyGkr(R: Ring, depth: nat, transcript: Transcript, ghost leaves: Leaves)
    returns (r: Result<(Elem, seq<Elem>, seq<Elem>)>)
    requires R.Laws()
    modifies transcript
    ensures match RunGkr(R, transcript.oracle, depth, old(transcript.Now()))
            case Err(e) => r == Err(e)
            case Ok(out) => r == Ok((out.count, out.point, out.values)) && transcript.Now() == out.state
    ensures r.Ok? && !GkrEscape(R, transcript.oracle, depth, leaves, old(transcript.Now()))
              && r.value.2 == TrueValues(R, leaves, 0, r.value.1)
            ==> r.value.0 == RootOf(R, leaves, 2, depth)
                && old(transcript.scalars)[0] == RootOf(R, leaves, 0, depth) == RootOf(R, leaves, 1, depth)
    ensures var p := HonestGkr(R, transcript.oracle, depth, leaves, old(transcript.history));
      depth <= MAX_POINT && RootOf(R, leaves, 0, depth) == RootOf(R, leaves, 1, depth)
      && old(transcript.scalars) == p.messages
      ==> r == Ok((RootOf(R, leaves, 2, depth), p.x, TrueValues(R, leaves, 0, p.x))) && transcript.scalars == []
  {
    hide Layer, GkrEscape, HonestGkr, RootOf, TrueValues;
    ghost var start := transcript.Now();
    VerifyGkrMeaning(R, transcript.oracle, depth, leaves, start);
    NextNext(start, 1, 1);
    var shared := transcript.NextScalar();
    if shared.Err? {
      return Err(shared.error);
    }
    var count := transcript.NextScalar();
    if count.Err? {
      return Err(count.error);
    }
    var point, values, layer := [], [shared.value, shared.value, count.value], depth;
    ghost var all := Layers(R, transcript.oracle, depth, point, values, transcript.Now());
    while layer > 0
      invariant 0 <= layer <= depth && |values| == 3
      invariant all == Layers(R, transcript.oracle, layer, point, values, transcript.Now())
    {
      var step := if layer % 2 == 1 then 1 else 2;
      var out := VerifyLayer(R, step, point, values, transcript);
      if out.Err? {
        return Err(out.error);
      }
      point, values := out.value.0, out.value.1;
      layer := layer - step;
    }
    r := Ok((count.value, point, values));
  }

  /** The two theorems of module `GkrLayers`, at a stream read to its end. */
  lemma VerifyGkrMeaning(R: Ring, o: Oracle, depth: nat, leaves: Leaves, s: State)
    requires R.Laws()
    ensures match RunGkr(R, o, depth, s)
            case Err(e) => true
            case Ok(out) =>
              !GkrEscape(R, o, depth, leaves, s) && out.values == TrueValues(R, leaves, 0, out.point) ==>
                && |s.scalars| >= 1 && out.count == RootOf(R, leaves, 2, depth)
                && s.scalars[0] == RootOf(R, leaves, 0, depth) == RootOf(R, leaves, 1, depth)
    ensures var p := HonestGkr(R, o, depth, leaves, s.history);
      depth <= MAX_POINT && RootOf(R, leaves, 0, depth) == RootOf(R, leaves, 1, depth) && s.scalars == p.messages
      ==> RunGkr(R, o, depth, s) == Ok(GkrOut(RootOf(R, leaves, 2, depth), p.x, TrueValues(R, leaves, 0, p.x), State([], p.history)))
  {
    hide Layers, GkrEscape, HonestGkr, RootOf, TrueValues;
    if !GkrEscape(R, o, depth, leaves, s) {
      GkrSound(R, o, depth, leaves, s);
    }
    var p := HonestGkr(R, o, depth, leaves, s.history);
    assert p.messages + [] == p.messages;
    if depth <= MAX_POINT && RootOf(R, leaves, 0, depth) == RootOf(R, leaves, 1, depth) && s.scalars == p.messages {
      GkrComplete(R, o, depth, leaves, [], s.history);
      assert s == State(p.messages + [], s.history);
    }
  }

  /** The one case the honest prover cannot be accepted in: a depth beyond the point's capacity. */
  lemma HonestAcceptedExactly(R: Ring, o: Oracle, depth: nat, leaves: Leaves, h: seq<Event>)
    requires R.Laws() && RootOf(R, leaves, 0, depth) == RootOf(R, leaves, 1, depth)
    ensures RunGkr(R, o, depth, State(HonestGkr(R, o, depth, leaves, h).messages, h)).Ok? <==> depth <= 30
  {
    hide HonestGkr, RootOf, Layers;
    var s := State(HonestGkr(R, o, depth, leaves, h).messages, h);
    VerifyGkrMeaning(R, o, depth, leaves, s);
    if depth > MAX_POINT {
      match NextFrom(s, 2)
      case Err(e) =>
      case Ok((roots, s1)) => TooDeep(R, o, depth, [], [roots[0], roots[0], roots[1]], s1);
    }
  }
}
