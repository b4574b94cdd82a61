/** What a run of the verifier leaves in its transcript (transcript.rs): every scalar read went into
    the sponge, in order, and every challenge is the sponge's answer to all that came before it. */
module TranscriptReads {
  import opened Rings
  import opened Multilinear
  import opened Polynomials
  import opened Transcripts
  import opened Gkr
  import opened Sumcheck

  // ---- what a history says ---------------------------------------------------------------------

  /** The scalars absorbed, in order. */
  function Scalars(h: seq<Event>): seq<Elem> {
    if h == [] then []
    else
      var l := |h| - 1;
      Scalars(h[..l]) + (match h[l] case Absorb(v) => [v] case Draw => [])
  }

  /** The challenges drawn in h, met after `before`. */
  function Drawn(o: Oracle, before: seq<Event>, h: seq<Event>): seq<Elem> {
    if h == [] then []
    else
      var l := |h| - 1;
      Drawn(o, before, h[..l]) + (if h[l].Draw? then [o(before + h[..l])] else [])
  }

  /** Which events are scalars absorbed, and which challenges drawn. */
  function Shape(h: seq<Event>): (b: seq<bool>)
    ensures |b| == |h| && forall i :: 0 <= i < |h| ==> b[i] == h[i].Absorb?
  {
    seq(|h|, i requires 0 <= i < |h| => h[i].Absorb?)
  }

  /** From s to s': the events since are these, the scalars read are those absorbed, and xs the
      challenges, each the oracle's answer to everything before it. */
  ghost predicate Follows(o: Oracle, s: State, s': State, xs: seq<Elem>, shape: seq<bool>) {
    && s.history <= s'.history
    && var h := s'.history[|s.history|..];
    && s.scalars == Scalars(h) + s'.scalars
    && xs == Drawn(o, s.history, h)
    && shape == Shape(h)
  }

  lemma {:induction false} ScalarsConcat(g: seq<Event>, h: seq<Event>)
    ensures Scalars(g + h) == Scalars(g) + Scalars(h)
  {
    if h == [] {
      assert g + h == g;
    } else {
      var l := |h| - 1;
      ScalarsConcat(g, h[..l]);
      assert (g + h)[..|g + h| - 1] == g + h[..l] && (g + h)[|g + h| - 1] == h[l];
    }
  }

  lemma {:induction false} DrawnConcat(o: Oracle, before: seq<Event>, g: seq<Event>, h: seq<Event>)
    ensures Drawn(o, before, g + h) == Drawn(o, before, g) + Drawn(o, before + g, h)
  {
    if h == [] {
      assert g + h == g;
    } else {
      var l := |h| - 1;
      DrawnConcat(o, before, g, h[..l]);
      assert (g + h)[..|g + h| - 1] == g + h[..l] && (g + h)[|g + h| - 1] == h[l];
      assert before + (g + h[..l]) == before + g + h[..l];
    }
  }

  lemma FollowsNothing(o: Oracle, s: State)
    ensures Follows(o, s, s, [], [])
  {
  }

  lemma NoneFirst(xs: seq<Elem>)
    ensures [] + xs == xs
  {
  }

  /** One stretch after another. */
  lemma FollowsOn(o: Oracle, s: State, t: State, u: State, xs: seq<Elem>, ys: seq<Elem>, a: seq<bool>, b: seq<bool>)
    requires Follows(o, s, t, xs, a) && Follows(o, t, u, ys, b)
    ensures Follows(o, s, u, xs + ys, a + b)
  {
    hide Scalars, Drawn;
    var g, h := t.history[|s.history|..], u.history[|t.history|..];
    assert t.history == s.history + g && u.history == t.history + h;
    assert u.history[|s.history|..] == g + h;
    ScalarsConcat(g, h);
    DrawnConcat(o, s.history, g, h);
    assert s.scalars == Scalars(g) + (Scalars(h) + u.scalars);
  }

  // ---- single steps ----------------------------------------------------------------------------

  function Reads(n: nat): (b: seq<bool>)
    ensures |b| == n && forall i :: 0 <= i < n ==> b[i]
  {
    seq(n, _ => true)
  }

  function Samples(n: nat): (b: seq<bool>)
    ensures |b| == n && forall i :: 0 <= i < n ==> !b[i]
  {
    seq(n, _ => false)
  }

  lemma {:induction false} AbsorbsScalars(o: Oracle, before: seq<Event>, v: seq<Elem>)
    ensures Scalars(Absorbs(v)) == v && Drawn(o, before, Absorbs(v)) == [] && Shape(Absorbs(v)) == Reads(|v|)
  {
    if v != [] {
      var l := |v| - 1;
      AbsorbsScalars(o, before, v[..l]);
      assert Absorbs(v)[..l] == Absorbs(v[..l]);
      assert v == v[..l] + [v[l]];
    }
  }

  /** What is read is absorbed. */
  lemma NextFollows(o: Oracle, s: State, n: nat)
    ensures match NextFrom(s, n)
            case Err(_) => |s.scalars| < n
            case Ok((v, s')) => v + s'.scalars == s.scalars && Scalars(s'.history[|s.history|..]) == v && Follows(o, s, s', [], Reads(n))
  {
    hide Scalars, Drawn, Shape, Absorbs;
    if |s.scalars| >= n {
      var v := s.scalars[..n];
      AbsorbsScalars(o, s.history, v);
      assert (s.history + Absorbs(v))[|s.history|..] == Absorbs(v);
    }
  }

  lemma SampleFollows(o: Oracle, s: State)
    ensures var (x, s') := SampleFrom(o, s);
      x == o(s.history) && Follows(o, s, s', [x], [false])
  {
    var (_, s') := SampleFrom(o, s);
    assert s'.history[|s.history|..] == [Draw];
    assert s.history + [Draw][..0] == s.history;
    assert Scalars([Draw]) == [] && Drawn(o, s.history, [Draw]) == [o(s.history)];
  }

  lemma {:induction false} DrawsFollow(o: Oracle, s: State, n: nat)
    ensures var (xs, h) := Draws(o, s.history, n);
      Follows(o, s, State(s.scalars, h), xs, Samples(n))
  {
    if n == 0 {
      FollowsNothing(o, s);
    } else {
      hide Follows;
      DrawsFollow(o, s, n - 1);
      var (xs, h) := Draws(o, s.history, n - 1);
      var t := State(s.scalars, h);
      SampleFollows(o, t);
      FollowsOn(o, s, t, SampleFrom(o, t).1, xs, [o(h)], Samples(n - 1), [false]);
      assert Samples(n) == Samples(n - 1) + [false];
    }
  }

  // ---- sumchecks -------------------------------------------------------------------------------

  /** A round: its message, then its challenge. */
  function RoundsShape(sent: nat, rounds: nat): seq<bool> {
    if rounds == 0 then [] else Reads(sent) + [false] + RoundsShape(sent, rounds - 1)
  }

  lemma RoundFollows(o: Oracle, s: State, s1: State, s2: State, s3: State, sent: nat, x: Elem, xs: seq<Elem>, rounds: nat)
    requires Follows(o, s, s1, [], Reads(sent)) && Follows(o, s1, s2, [x], [false]) && Follows(o, s2, s3, xs, RoundsShape(sent, rounds))
    ensures Follows(o, s, s3, [x] + xs, RoundsShape(sent, rounds + 1))
  {
    hide Follows;
    FollowsOn(o, s, s1, s2, [], [x], Reads(sent), [false]);
    NoneFirst([x]);
    FollowsOn(o, s, s2, s3, [x], xs, Reads(sent) + [false], RoundsShape(sent, rounds));
  }

  /** A layer's rounds: each challenge comes after its message. */
  lemma {:induction false} RoundsFollow(R: Ring, o: Oracle, count: nat, claim: Elem, point: seq<Elem>, s: State)
    requires count > 0
    ensures match Rounds(R, o, count, claim, point, s)
            case Err(_) => true
            case Ok(out) => Follows(o, s, out.state, out.x, RoundsShape(count - 1, |point|))
    decreases |point|
  {
    hide Follows, PolyEval, NextFrom;
    if point == [] {
      FollowsNothing(o, s);
    } else {
      NextFollows(o, s, count - 1);
      match RoundPolyFrom(R, s, count, claim, point[0])
      case Err(_) =>
      case Ok((m, s1)) =>
        SampleFollows(o, s1);
        var (x, s2) := SampleFrom(o, s1);
        RoundsFollow(R, o, count, PolyEval(R, m, x), point[1..], s2);
        match Rounds(R, o, count, PolyEval(R, m, x), point[1..], s2)
        case Err(_) =>
        case Ok(out) => RoundFollows(o, s, s1, s2, out.state, count - 1, x, out.x, |point| - 1);
    }
  }

  /** The plain sumcheck: what it read is in the sponge before the challenge that follows it, and
      its point is the challenges. */
  lemma {:induction false} SumcheckFollows(R: Ring, o: Oracle, count: nat, claim: Elem, n: nat, s: State)
    requires count >= 2
    ensures match Run(R, o, count, claim, n, s)
            case Err(_) => true
            case Ok(out) => Follows(o, s, out.state, out.point, RoundsShape(count - 1, n))
    decreases n
  {
    hide Follows, PolyEval, NextFrom;
    if n == 0 {
      FollowsNothing(o, s);
    } else {
      NextFollows(o, s, count - 1);
      match PlainRoundFrom(R, s, count, claim)
      case Err(_) =>
      case Ok((m, s1)) =>
        SampleFollows(o, s1);
        var (x, s2) := SampleFrom(o, s1);
        SumcheckFollows(R, o, count, PolyEval(R, m, x), n - 1, s2);
        match Run(R, o, count, PolyEval(R, m, x), n - 1, s2)
        case Err(_) =>
        case Ok(out) => RoundFollows(o, s, s1, s2, out.state, count - 1, x, out.point, n - 1);
    }
  }

  // ---- the product trees -----------------------------------------------------------------------

  /** A layer over n coordinates: the combiner, the rounds, the children, the fold. */
  function LayerShape(step: nat, n: nat): seq<bool> {
    [false] + RoundsShape(Width(step), n) + Reads(3 * Width(step)) + Samples(step)
  }

  function LayersShape(layer: nat, n: nat): seq<bool>
    decreases layer
  {
    if layer == 0 then [] else LayerShape(StepOf(layer), n) + LayersShape(layer - StepOf(layer), n + StepOf(layer))
  }

  lemma LayerFollows(R: Ring, o: Oracle, step: nat, point: seq<Elem>, values: seq<Elem>, s: State)
      returns (gamma: Elem, x: seq<Elem>, y: seq<Elem>)
    requires Layer(R, o, step, point, values, s).Ok?
    ensures var out := Layer(R, o, step, point, values, s).value;
      && Follows(o, s, out.state, [gamma] + x + y, LayerShape(step, |point|))
      && out.point == y + x && |x| == |point| && |y| == step
  {
    hide Follows, PolyEval, NextFrom, Rounds, Draws, ChildProduct, ChildFold, Width;
    var w := Width(step);
    gamma := SampleFrom(o, s).0;
    var s1 := SampleFrom(o, s).1;
    SampleFollows(o, s);
    var claim := PolyEval(R, values, gamma);
    RoundsFollow(R, o, w + 1, claim, point, s1);
    var out := Rounds(R, o, w + 1, claim, point, s1).value;
    x := out.x;
    NextFollows(o, out.state, 3 * w);
    var s2 := NextFrom(out.state, 3 * w).value.1;
    DrawsFollow(o, s2, step);
    y := Draws(o, s2.history, step).0;
    var s3 := State(s2.scalars, Draws(o, s2.history, step).1);
    FollowsOn(o, s, s1, out.state, [gamma], x, [false], RoundsShape(w, |point|));
    FollowsOn(o, s, out.state, s2, [gamma] + x, [], [false] + RoundsShape(w, |point|), Reads(3 * w));
    assert [gamma] + x + [] == [gamma] + x;
    FollowsOn(o, s, s2, s3, [gamma] + x, y, [false] + RoundsShape(w, |point|) + Reads(3 * w), Samples(step));
  }

  /** The layers: the last one's challenges are the point, its fold's before its rounds'. */
  lemma {:induction false} LayersFollow(R: Ring, o: Oracle, layer: nat, point: seq<Elem>, values: seq<Elem>, s: State)
      returns (before: seq<Elem>, x: seq<Elem>, y: seq<Elem>)
    requires |values| == 3 && Layers(R, o, layer, point, values, s).Ok?
    ensures var out := Layers(R, o, layer, point, values, s).value;
      && Follows(o, s, out.state, before + (x + y), LayersShape(layer, |point|))
      && (layer > 0 ==> out.point == y + x && |y| in {1, 2})
    decreases layer
  {
    hide Follows, Layer, LayerShape;
    if layer == 0 {
      FollowsNothing(o, s);
      before, x, y := [], [], [];
      LayersDone(R, o, point, values, s);
      NoneFirst([]);
    } else {
      var step := StepOf(layer);
      var gamma, x1, y1 := LayerFollows(R, o, step, point, values, s);
      var out := Layer(R, o, step, point, values, s).value;
      var before2, x2, y2 := LayersFollow(R, o, layer - step, out.point, out.values, out.state);
      var end := Layers(R, o, layer - step, out.point, out.values, out.state).value;
      FollowsOn(o, s, out.state, end.state, [gamma] + x1 + y1, before2 + (x2 + y2), LayerShape(step, |point|),
                LayersShape(layer - step, |point| + step));
      if layer == step {
        LayersDone(R, o, out.point, out.values, out.state);
        x, y, before := x1, y1, [gamma];
        FollowsEmpty(o, out.state, before2 + (x2 + y2));
        assert [gamma] + x1 + y1 + [] == [gamma] + (x1 + y1);
      } else {
        x, y, before := x2, y2, [gamma] + x1 + y1 + before2;
        assert [gamma] + x1 + y1 + (before2 + (x2 + y2)) == before + (x2 + y2);
      }
    }
  }

  lemma LayersDone(R: Ring, o: Oracle, point: seq<Elem>, values: seq<Elem>, s: State)
    requires |values| == 3
    ensures Layers(R, o, 0, point, values, s) == Ok(LayerOut(point, values, s))
  {
  }

  lemma FollowsEmpty(o: Oracle, s: State, xs: seq<Elem>)
    requires Follows(o, s, s, xs, [])
    ensures xs == []
  {
  }

  /** A whole run: the scalars it read are those in the sponge, in the fixed order of reads and
      challenges; its point is the last challenges. */
  lemma GkrFollows(R: Ring, o: Oracle, depth: nat, s: State) returns (before: seq<Elem>, x: seq<Elem>, y: seq<Elem>)
    requires RunGkr(R, o, depth, s).Ok?
    ensures var out := RunGkr(R, o, depth, s).value;
      && Follows(o, s, out.state, before + (x + y), Reads(2) + LayersShape(depth, 0))
      && s.scalars == Scalars(out.state.history[|s.history|..]) + out.state.scalars
      && (depth > 0 ==> out.point == y + x && |y| in {1, 2})
  {
    hide Layers, NextFrom, LayersShape, Scalars, Drawn, Shape;
    NextFollows(o, s, 2);
    var (roots, s1) := NextFrom(s, 2).value;
    var values := [roots[0], roots[0], roots[1]];
    before, x, y := LayersFollow(R, o, depth, [], values, s1);
    var out := Layers(R, o, depth, [], values, s1).value;
    FollowsOn(o, s, s1, out.state, [], before + (x + y), Reads(2), LayersShape(depth, 0));
    NoneFirst(before + (x + y));
  }

  /** Two accepted runs from one history to one history read the same scalars. */
  lemma GkrBinds(R: Ring, o: Oracle, depth: nat, s: State, t: State)
    requires s.history == t.history && RunGkr(R, o, depth, s).Ok? && RunGkr(R, o, depth, t).Ok?
    requires RunGkr(R, o, depth, s).value.state.history == RunGkr(R, o, depth, t).value.state.history
    ensures exists read: seq<Elem> ::
      s.scalars == read + RunGkr(R, o, depth, s).value.state.scalars && t.scalars == read + RunGkr(R, o, depth, t).value.state.scalars
  {
    hide RunGkr, Scalars, Drawn, Shape, LayersShape;
    var _, _, _ := GkrFollows(R, o, depth, s);
    var _, _, _ := GkrFollows(R, o, depth, t);
    var read := Scalars(RunGkr(R, o, depth, s).value.state.history[|s.history|..]);
    assert s.scalars == read + RunGkr(R, o, depth, s).value.state.scalars;
  }
}
