/** The batched grand-product GKR of bus.rs: three product trees of one depth, their roots
    reduced together to one point and one claimed value per tree. */
module Gkr {
  import opened Rings
  import opened Sums
  import opened Multilinear
  import opened Kernels
  import opened Polynomials
  import opened Transcripts
  import opened LayerSumcheck

  const MAX_POINT := 30

  // ---- what the verifier computes --------------------------------------------------------------

  datatype RoundsOut = RoundsOut(claim: Elem, x: seq<Elem>, state: State)

  /** One round per coordinate of the point. */
  function Rounds(R: Ring, o: Oracle, count: nat, claim: Elem, point: seq<Elem>, s: State): (r: Result<RoundsOut>)
    requires count > 0
    ensures r.Ok? ==> |r.value.x| == |point|
    decreases |point|
  {
    if point == [] then Ok(RoundsOut(claim, [], s))
    else match RoundPolyFrom(R, s, count, claim, point[0])
         case Err(e) => Err(e)
         case Ok((m, s1)) =>
           var (x, s2) := SampleFrom(o, s1);
           match Rounds(R, o, count, PolyEval(R, m, x), point[1..], s2)
           case Err(e) => Err(e)
           case Ok(out) => Ok(RoundsOut(out.claim, [x] + out.x, out.state))
  }

  function Width(step: nat): nat {
    Pow2(step)
  }

  /** Tree j's children among the 3w scalars sent. */
  function Child(w: nat, flat: seq<Elem>, j: nat): seq<Elem>
    requires j < 3 && |flat| == 3 * w
  {
    flat[j * w..(j + 1) * w]
  }

  function ChildProduct(R: Ring, w: nat, flat: seq<Elem>, j: nat): Elem
    requires j < 3 && |flat| == 3 * w
  {
    Product(R, w, TableOf(R, Child(w, flat, j)))
  }

  function ChildFold(R: Ring, w: nat, flat: seq<Elem>, y: seq<Elem>, j: nat): Elem
    requires j < 3 && |flat| == 3 * w
  {
    Mle(R, TableOf(R, Child(w, flat, j)), y)
  }

  datatype LayerOut = LayerOut(point: seq<Elem>, values: seq<Elem>, state: State)

  function Layer(R: Ring, o: Oracle, step: nat, point: seq<Elem>, values: seq<Elem>, s: State): (r: Result<LayerOut>)
    ensures r.Ok? ==> |r.value.values| == 3 && |r.value.point| == |point| + step <= MAX_POINT
  {
    var w := Width(step);
    var (gamma, s1) := SampleFrom(o, s);
    match Rounds(R, o, w + 1, PolyEval(R, values, gamma), point, s1)
    case Err(e) => Err(e)
    case Ok(out) =>
      match NextFrom(out.state, 3 * w)
      case Err(e) => Err(e)
      case Ok((flat, s2)) =>
        if out.claim != PolyEval(R, [ChildProduct(R, w, flat, 0), ChildProduct(R, w, flat, 1), ChildProduct(R, w, flat, 2)], gamma) then Err(GkrLayer)
        else
          var (y, h) := Draws(o, s2.history, step);
          if |point| + step > MAX_POINT then Err(AnnouncedTableSizes)
          else Ok(LayerOut(y + out.x,
                           [ChildFold(R, w, flat, y, 0), ChildFold(R, w, flat, y, 1), ChildFold(R, w, flat, y, 2)],
                           State(s2.scalars, h)))
  }

  /** An odd number of layers left is reduced by one, an even one by two. */
  function StepOf(layer: nat): nat {
    if layer % 2 == 1 then 1 else 2
  }

  function Layers(R: Ring, o: Oracle, layer: nat, point: seq<Elem>, values: seq<Elem>, s: State): (r: Result<LayerOut>)
    requires |values| == 3
    ensures r.Ok? ==> |r.value.values| == 3 && |r.value.point| == |point| + layer
    decreases layer
  {
    if layer == 0 then Ok(LayerOut(point, values, s))
    else match Layer(R, o, StepOf(layer), point, values, s)
         case Err(e) => Err(e)
         case Ok(out) => Layers(R, o, layer - StepOf(layer), out.point, out.values, out.state)
  }

  datatype GkrOut = GkrOut(count: Elem, point: seq<Elem>, values: seq<Elem>, state: State)

  function RunGkr(R: Ring, o: Oracle, depth: nat, s: State): Result<GkrOut> {
    match NextFrom(s, 2)
    case Err(e) => Err(e)
    case Ok((roots, s1)) =>
      match Layers(R, o, depth, [], [roots[0], roots[0], roots[1]], s1)
      case Err(e) => Err(e)
      case Ok(out) => Ok(GkrOut(roots[1], out.point, out.values, out.state))
  }

  // ---- the rounds ------------------------------------------------------------------------------

  function FoldAll(R: Ring, t: Tables, x: seq<Elem>): Tables {
    if x == [] then t else FoldAll(R, FoldTables(R, t, x[0]), x[1..])
  }

  lemma {:induction false} FoldAllMle(R: Ring, t: Tables, x: seq<Elem>, j: int, c: int)
    requires R.Laws()
    ensures FoldAll(R, t, x)(j, c, 0) == Mle(R, Slice(t, j, c), x)
    decreases |x|
  {
    if x == [] {
      MleEmpty(R, Slice(t, j, c));
    } else {
      FoldAllMle(R, FoldTables(R, t, x[0]), x[1..], j, c);
      MleFold(R, Slice(t, j, c), x);
      MleEq(R, Fold(R, Slice(t, j, c), x[0]), Slice(FoldTables(R, t, x[0]), j, c), x[1..]);
    }
  }

  /** What an honest prover sends, the challenges it meets, and the history it leaves. */
  datatype Honest = Honest(messages: seq<Elem>, x: seq<Elem>, history: seq<Event>)

  function HonestRounds(R: Ring, o: Oracle, gamma: Elem, w: nat, t: Tables, point: seq<Elem>, h: seq<Event>): (r: Honest)
    ensures |r.x| == |point|
    decreases |point|
  {
    if point == [] then Honest([], [], h)
    else
      var sent := TrueRound(R, gamma, w, t, point[1..])[1..];
      var h1 := h + Absorbs(sent);
      var x := o(h1);
      var rest := HonestRounds(R, o, gamma, w, FoldTables(R, t, x), point[1..], h1 + [Draw]);
      Honest(sent + rest.messages, [x] + rest.x, rest.history)
  }

  /** An honest round: the verifier recovers the true polynomial, and draws the same challenge. */
  lemma RoundHonest(R: Ring, gamma: Elem, w: nat, t: Tables, claim: Elem, point: seq<Elem>,
                    more: seq<Elem>, h: seq<Event>)
    requires R.Laws() && point != [] && claim == Mle(R, Summand(R, gamma, w, t), point)
    ensures var q := TrueRound(R, gamma, w, t, point[1..]);
      RoundPolyFrom(R, State(q[1..] + more, h), w + 1, claim, point[0]) == Ok((q, State(more, h + Absorbs(q[1..]))))
  {
    var q := TrueRound(R, gamma, w, t, point[1..]);
    var s := State(q[1..] + more, h);
    assert s.scalars[..w] == q[1..] && s.scalars[w..] == more;
    TrueRoundClaim(R, gamma, w, t, point);
    R.Cancel(q[0], R.mul(point[0], Total(R, q[1..])));
    assert [q[0]] + q[1..] == q;
  }

  lemma {:induction false} RoundsHonest(R: Ring, o: Oracle, gamma: Elem, w: nat, t: Tables, claim: Elem,
                                        point: seq<Elem>, more: seq<Elem>, h: seq<Event>)
    requires R.Laws() && claim == Mle(R, Summand(R, gamma, w, t), point)
    ensures var p := HonestRounds(R, o, gamma, w, t, point, h);
      Rounds(R, o, w + 1, claim, point, State(p.messages + more, h))
      == Ok(RoundsOut(Summand(R, gamma, w, FoldAll(R, t, p.x))(0), p.x, State(more, p.history)))
    decreases |point|
  {
    if point == [] {
      MleEmpty(R, Summand(R, gamma, w, t));
      assert [] + more == more;
    } else {
      var q := TrueRound(R, gamma, w, t, point[1..]);
      var h1 := h + Absorbs(q[1..]);
      var x := o(h1);
      var t1 := FoldTables(R, t, x);
      var rest := HonestRounds(R, o, gamma, w, t1, point[1..], h1 + [Draw]);
      RoundHonest(R, gamma, w, t, claim, point, rest.messages + more, h);
      assert q[1..] + rest.messages + more == q[1..] + (rest.messages + more);
      TrueRoundEval(R, gamma, w, t, point[1..], x);
      RoundsHonest(R, o, gamma, w, t1, PolyEval(R, q, x), point[1..], more, h1 + [Draw]);
    }
  }

  /** Some round's challenge is a root of the difference between the polynomial sent and the
      true one. */
  ghost predicate RoundsEscape(R: Ring, o: Oracle, gamma: Elem, w: nat, t: Tables, claim: Elem,
                               point: seq<Elem>, s: State)
    decreases |point|
  {
    point != [] &&
    match RoundPolyFrom(R, s, w + 1, claim, point[0])
    case Err(e) => false
    case Ok((m, s1)) =>
      var (x, s2) := SampleFrom(o, s1);
      || Root(R, Diff(R, m, TrueRound(R, gamma, w, t, point[1..])), x)
      || RoundsEscape(R, o, gamma, w, FoldTables(R, t, x), PolyEval(R, m, x), point[1..], s2)
  }

  /** A false claim cannot be met by the true polynomial. */
  lemma FalseClaimDiffers(R: Ring, gamma: Elem, w: nat, t: Tables, claim: Elem, point: seq<Elem>, s: State)
    requires R.Laws() && point != [] && claim != Mle(R, Summand(R, gamma, w, t), point)
    ensures match RoundPolyFrom(R, s, w + 1, claim, point[0])
            case Err(e) => true
            case Ok((m, s1)) => m != TrueRound(R, gamma, w, t, point[1..])
  {
    match RoundPolyFrom(R, s, w + 1, claim, point[0])
    case Err(e) =>
    case Ok((m, s1)) =>
      TrueRoundClaim(R, gamma, w, t, point);
      R.Cancel(claim, R.mul(point[0], Total(R, m[1..])));
      assert m[0] == R.add(claim, R.mul(point[0], Total(R, m[1..]))) by {
        assert m[1..] == NextFrom(s, w).value.0;
      }
  }

  lemma {:induction false} RoundsSound(R: Ring, o: Oracle, gamma: Elem, w: nat, t: Tables, claim: Elem,
                                       point: seq<Elem>, s: State)
    requires R.Laws() && claim != Mle(R, Summand(R, gamma, w, t), point)
    requires !RoundsEscape(R, o, gamma, w, t, claim, point, s)
    ensures match Rounds(R, o, w + 1, claim, point, s)
            case Err(e) => true
            case Ok(out) => out.claim != Summand(R, gamma, w, FoldAll(R, t, out.x))(0)
    decreases |point|
  {
    if point == [] {
      MleEmpty(R, Summand(R, gamma, w, t));
    } else {
      match RoundPolyFrom(R, s, w + 1, claim, point[0])
      case Err(e) =>
      case Ok((m, s1)) =>
        var (x, s2) := SampleFrom(o, s1);
        var q := TrueRound(R, gamma, w, t, point[1..]);
        FalseClaimDiffers(R, gamma, w, t, claim, point, s);
        AgreeOnlyAtRoots(R, m, q, x);
        TrueRoundEval(R, gamma, w, t, point[1..], x);
        RoundsSound(R, o, gamma, w, FoldTables(R, t, x), PolyEval(R, m, x), point[1..], s2);
    }
  }
}
