/** The layers of the batched GKR against the product trees themselves: completeness,
    soundness up to an exhibited root, and the imperative verifier. */
module GkrLayers {
  import opened Rings
  import opened Sums
  import opened Multilinear
  import opened Kernels
  import opened Polynomials
  import opened Transcripts
  import opened LayerSumcheck
  import opened Gkr

  /** The leaves of the three trees: leaf k of tree j. */
  type Leaves = (int, int) -> Elem

  /** Node k of tree j, `height` levels above the leaves. */
  function NodeAt(R: Ring, leaves: Leaves, j: int, height: nat, k: int): Elem
    decreases height
  {
    if height == 0 then leaves(j, k)
    else R.mul(NodeAt(R, leaves, j, height - 1, 2 * k), NodeAt(R, leaves, j, height - 1, 2 * k + 1))
  }

  function Level(R: Ring, leaves: Leaves, j: int, height: nat): int -> Elem {
    k => NodeAt(R, leaves, j, height, k)
  }

  /** The tables the layer above `height` is a product of: node k's children c. */
  function LevelTables(R: Ring, leaves: Leaves, height: nat, w: int): Tables {
    (j, c, k) => NodeAt(R, leaves, j, height, c + w * k)
  }

  function TrueValue(R: Ring, leaves: Leaves, height: nat, point: seq<Elem>, j: int): Elem {
    Mle(R, Level(R, leaves, j, height), point)
  }

  function TrueValues(R: Ring, leaves: Leaves, height: nat, point: seq<Elem>): (v: seq<Elem>)
    ensures |v| == 3
  {
    [TrueValue(R, leaves, height, point, 0), TrueValue(R, leaves, height, point, 1), TrueValue(R, leaves, height, point, 2)]
  }

  lemma ProductSmall(R: Ring, f: int -> Elem)
    requires R.Laws()
    ensures Product(R, 2, f) == R.mul(f(0), f(1))
    ensures Product(R, 4, f) == R.mul(R.mul(f(0), f(1)), R.mul(f(2), f(3)))
  {
    R.MulOne(f(0));
    assert Product(R, 1, f) == R.mul(Product(R, 0, f), f(0));
    assert Product(R, 3, f) == R.mul(R.mul(f(0), f(1)), f(2));
    R.MulAssoc(R.mul(f(0), f(1)), f(2), f(3));
  }

  lemma ChildrenAt(R: Ring, leaves: Leaves, j: int, height: nat, w: int, k: int, c: int)
    ensures Children(LevelTables(R, leaves, height, w), j, k)(c) == NodeAt(R, leaves, j, height, c + w * k)
  {
  }

  lemma OneLevel(R: Ring, leaves: Leaves, j: int, height: nat, k: int)
    requires height >= 1
    ensures NodeAt(R, leaves, j, height, k)
         == R.mul(NodeAt(R, leaves, j, height - 1, 0 + 2 * k), NodeAt(R, leaves, j, height - 1, 1 + 2 * k))
  {
  }

  lemma TwoLevels(R: Ring, leaves: Leaves, j: int, height: nat, k: int)
    requires height >= 2
    ensures NodeAt(R, leaves, j, height, k)
         == R.mul(R.mul(NodeAt(R, leaves, j, height - 2, 0 + 4 * k), NodeAt(R, leaves, j, height - 2, 1 + 4 * k)),
                  R.mul(NodeAt(R, leaves, j, height - 2, 2 + 4 * k), NodeAt(R, leaves, j, height - 2, 3 + 4 * k)))
  {
    hide NodeAt;
    OneLevel(R, leaves, j, height, k);
    OneLevel(R, leaves, j, height - 1, 2 * k);
    OneLevel(R, leaves, j, height - 1, 1 + 2 * k);
  }

  /** A node is the product of its descendants `step` levels down. */
  lemma NodeProduct(R: Ring, leaves: Leaves, j: int, height: nat, step: nat, k: int)
    requires R.Laws() && step in {1, 2} && step <= height
    ensures NodeAt(R, leaves, j, height, k)
         == Product(R, Width(step), Children(LevelTables(R, leaves, height - step, Width(step)), j, k))
  {
    hide Product, NodeAt, LevelTables, Children;
    var w := Width(step);
    var f := Children(LevelTables(R, leaves, height - step, w), j, k);
    ProductSmall(R, f);
    forall c
      ensures f(c) == NodeAt(R, leaves, j, height - step, c + w * k)
    {
      ChildrenAt(R, leaves, j, height - step, w, k, c);
    }
    if step == 1 {
      OneLevel(R, leaves, j, height, k);
    } else {
      TwoLevels(R, leaves, j, height, k);
    }
  }

  lemma MleBatch(R: Ring, gamma: Elem, a: int -> Elem, b: int -> Elem, c: int -> Elem, s: int -> Elem, p: seq<Elem>)
    requires R.Laws() && forall k :: 0 <= k < Pow2(|p|) ==> s(k) == Batch(R, gamma, a(k), b(k), c(k))
    ensures Mle(R, s, p) == Batch(R, gamma, Mle(R, a, p), Mle(R, b, p), Mle(R, c, p))
  {
    var gc := k => R.mul(gamma, c(k));
    var bc := k => R.add(b(k), gc(k));
    var gbc := k => R.mul(gamma, bc(k));
    MleScale(R, gamma, c, gc, p);
    MleAdd(R, b, gc, bc, p);
    MleScale(R, gamma, bc, gbc, p);
    MleAdd(R, a, gbc, s, p);
  }

  /** The batched true values of a level are the sum the layer's rounds start from. */
  lemma BatchIsSum(R: Ring, leaves: Leaves, gamma: Elem, height: nat, step: nat, point: seq<Elem>)
    requires R.Laws() && step in {1, 2} && step <= height
    ensures PolyEval(R, TrueValues(R, leaves, height, point), gamma)
         == Mle(R, Summand(R, gamma, Width(step), LevelTables(R, leaves, height - step, Width(step))), point)
  {
    var s := Summand(R, gamma, Width(step), LevelTables(R, leaves, height - step, Width(step)));
    var a, b, c := Level(R, leaves, 0, height), Level(R, leaves, 1, height), Level(R, leaves, 2, height);
    forall k
      ensures s(k) == Batch(R, gamma, a(k), b(k), c(k))
    {
      NodeProduct(R, leaves, 0, height, step, k);
      NodeProduct(R, leaves, 1, height, step, k);
      NodeProduct(R, leaves, 2, height, step, k);
    }
    MleBatch(R, gamma, a, b, c, s, point);
    BatchIsPoly(R, gamma, TrueValues(R, leaves, height, point));
  }

  // ---- the children sent -----------------------------------------------------------------------

  function TrueChild(R: Ring, t: Tables, w: int, x: seq<Elem>, i: int): Elem
    requires w > 0
  {
    Mle(R, Slice(t, i / w, i % w), x)
  }

  function TrueChildren(R: Ring, t: Tables, w: int, x: seq<Elem>): (v: seq<Elem>)
    requires w > 0
    ensures |v| == 3 * w
    ensures forall i :: 0 <= i < 3 * w ==> v[i] == TrueChild(R, t, w, x, i)
  {
    seq(3 * w, i => TrueChild(R, t, w, x, i))
  }

  lemma ChildAt(w: nat, flat: seq<Elem>, j: nat, c: nat)
    requires w > 0 && j < 3 && c < w && |flat| == 3 * w
    ensures j * w + c < 3 * w && Child(w, flat, j)[c] == flat[j * w + c]
    ensures (j * w + c) / w == j && (j * w + c) % w == c
  {
    DivUnique(j * w + c, w, j, c);
  }

  /** The true children of tree j are its table folded at the rounds' challenges. */
  lemma TrueChildAt(R: Ring, t: Tables, w: nat, x: seq<Elem>, j: nat, c: nat)
    requires R.Laws() && w > 0 && j < 3 && c < w
    ensures TableOf(R, Child(w, TrueChildren(R, t, w, x), j))(c) == Mle(R, Slice(t, j, c), x)
         == Children(FoldAll(R, t, x), j, 0)(c)
  {
    ChildAt(w, TrueChildren(R, t, w, x), j, c);
    FoldAllMle(R, t, x, j, c);
  }

  lemma TrueProduct(R: Ring, t: Tables, w: nat, x: seq<Elem>, j: nat)
    requires R.Laws() && w > 0 && j < 3
    ensures ChildProduct(R, w, TrueChildren(R, t, w, x), j) == Product(R, w, Children(FoldAll(R, t, x), j, 0))
  {
    var f := TableOf(R, Child(w, TrueChildren(R, t, w, x), j));
    forall c | 0 <= c < w
      ensures f(c) == Children(FoldAll(R, t, x), j, 0)(c)
    {
      TrueChildAt(R, t, w, x, j, c);
    }
    ProductEq(R, w, f, Children(FoldAll(R, t, x), j, 0));
  }

  /** Folding the true children at y extends the level below to the point y + x. */
  lemma TrueFold(R: Ring, leaves: Leaves, height: nat, step: nat, x: seq<Elem>, y: seq<Elem>, j: nat)
    requires R.Laws() && |y| == step && j < 3
    ensures var t := LevelTables(R, leaves, height, Width(step));
      ChildFold(R, Width(step), TrueChildren(R, t, Width(step), x), y, j) == TrueValue(R, leaves, height, y + x, j)
  {
    var w := Width(step);
    var t := LevelTables(R, leaves, height, w);
    var f, g := TableOf(R, Child(w, TrueChildren(R, t, w, x), j)), InnerMle(R, Level(R, leaves, j, height), w, x);
    forall c | 0 <= c < w
      ensures f(c) == g(c)
    {
      TrueChildAt(R, t, w, x, j, c);
      MleEq(R, Slice(t, j, c), Strided(Level(R, leaves, j, height), c, w), x);
    }
    MleEq(R, f, g, y);
    MleConcat(R, Level(R, leaves, j, height), y, x);
  }

  // ---- completeness ----------------------------------------------------------------------------

  function HonestLayer(R: Ring, o: Oracle, layer: nat, leaves: Leaves, point: seq<Elem>, h: seq<Event>): (r: Honest)
    requires layer > 0
    ensures |r.x| == |point| + StepOf(layer)
  {
    var w := Width(StepOf(layer));
    var t := LevelTables(R, leaves, layer - StepOf(layer), w);
    var rounds := HonestRounds(R, o, o(h), w, t, point, h + [Draw]);
    var sent := TrueChildren(R, t, w, rounds.x);
    var (y, h') := Draws(o, rounds.history + Absorbs(sent), StepOf(layer));
    Honest(rounds.messages + sent, y + rounds.x, h')
  }

  lemma LayerHonest(R: Ring, o: Oracle, layer: nat, leaves: Leaves, point: seq<Elem>, more: seq<Elem>, h: seq<Event>)
    requires R.Laws() && layer > 0 && |point| + StepOf(layer) <= MAX_POINT
    ensures var p := HonestLayer(R, o, layer, leaves, point, h);
      Layer(R, o, StepOf(layer), point, TrueValues(R, leaves, layer, point), State(p.messages + more, h))
      == Ok(LayerOut(p.x, TrueValues(R, leaves, layer - StepOf(layer), p.x), State(more, p.history)))
  {
    hide Mle, Summand, FoldAll, HonestRounds, Rounds, PolyEval, ChildProduct, ChildFold, LevelTables, Draws, Absorbs,
         TrueChildren, TrueValue;
    var step := StepOf(layer);
    var w := Width(step);
    var gamma := o(h);
    var t := LevelTables(R, leaves, layer - step, w);
    var rounds := HonestRounds(R, o, gamma, w, t, point, h + [Draw]);
    var sent := TrueChildren(R, t, w, rounds.x);
    var claim := PolyEval(R, TrueValues(R, leaves, layer, point), gamma);
    BatchIsSum(R, leaves, gamma, layer, step, point);
    RoundsHonest(R, o, gamma, w, t, claim, point, sent + more, h + [Draw]);
    assert rounds.messages + sent + more == rounds.messages + (sent + more);
    assert (sent + more)[..3 * w] == sent && (sent + more)[3 * w..] == more;
    HonestCheck(R, gamma, w, t, rounds.x);
    var (y, h') := Draws(o, rounds.history + Absorbs(sent), step);
    TrueFold(R, leaves, layer - step, step, rounds.x, y, 0);
    TrueFold(R, leaves, layer - step, step, rounds.x, y, 1);
    TrueFold(R, leaves, layer - step, step, rounds.x, y, 2);
  }

  function ProductsAt(R: Ring, gamma: Elem, w: nat, flat: seq<Elem>): Elem
    requires |flat| == 3 * w
  {
    PolyEval(R, [ChildProduct(R, w, flat, 0), ChildProduct(R, w, flat, 1), ChildProduct(R, w, flat, 2)], gamma)
  }

  lemma HonestCheck(R: Ring, gamma: Elem, w: nat, t: Tables, x: seq<Elem>)
    requires R.Laws() && w > 0
    ensures ProductsAt(R, gamma, w, TrueChildren(R, t, w, x)) == Summand(R, gamma, w, FoldAll(R, t, x))(0)
  {
    var flat := TrueChildren(R, t, w, x);
    TrueProduct(R, t, w, x, 0);
    TrueProduct(R, t, w, x, 1);
    TrueProduct(R, t, w, x, 2);
    BatchIsPoly(R, gamma, [ChildProduct(R, w, flat, 0), ChildProduct(R, w, flat, 1), ChildProduct(R, w, flat, 2)]);
  }

  function HonestLayers(R: Ring, o: Oracle, layer: nat, leaves: Leaves, point: seq<Elem>, h: seq<Event>): (r: Honest)
    ensures |r.x| == |point| + layer
    decreases layer
  {
    if layer == 0 then Honest([], point, h)
    else
      var p := HonestLayer(R, o, layer, leaves, point, h);
      var rest := HonestLayers(R, o, layer - StepOf(layer), leaves, p.x, p.history);
      Honest(p.messages + rest.messages, rest.x, rest.history)
  }

  lemma {:induction false} LayersHonest(R: Ring, o: Oracle, layer: nat, leaves: Leaves, point: seq<Elem>,
                                        more: seq<Elem>, h: seq<Event>)
    requires R.Laws() && |point| + layer <= MAX_POINT
    ensures var p := HonestLayers(R, o, layer, leaves, point, h);
      Layers(R, o, layer, point, TrueValues(R, leaves, layer, point), State(p.messages + more, h))
      == Ok(LayerOut(p.x, TrueValues(R, leaves, 0, p.x), State(more, p.history)))
    decreases layer
  {
    hide Layer, HonestLayer, TrueValues;
    if layer == 0 {
      assert [] + more == more;
    } else {
      var p := HonestLayer(R, o, layer, leaves, point, h);
      var rest := HonestLayers(R, o, layer - StepOf(layer), leaves, p.x, p.history);
      assert p.messages + rest.messages + more == p.messages + (rest.messages + more);
      LayerHonest(R, o, layer, leaves, point, rest.messages + more, h);
      LayersHonest(R, o, layer - StepOf(layer), leaves, p.x, more, p.history);
    }
  }

  /** The product of all the leaves of a tree. */
  function RootOf(R: Ring, leaves: Leaves, j: int, depth: nat): Elem {
    Product(R, Pow2(depth), Level(R, leaves, j, 0))
  }

  lemma ProductTwo(R: Ring, n: nat, f: int -> Elem)
    requires R.Laws() && n >= 2
    ensures Product(R, n, f) == R.mul(Product(R, n - 2, f), R.mul(f(n - 2), f(n - 1)))
  {
    R.MulAssoc(Product(R, n - 2, f), f(n - 2), f(n - 1));
  }

  lemma {:induction false} ProductPairs(R: Ring, n: nat, f: int -> Elem, g: int -> Elem)
    requires R.Laws() && forall k :: 0 <= k < n ==> g(k) == R.mul(f(2 * k), f(2 * k + 1))
    ensures Product(R, 2 * n, f) == Product(R, n, g)
  {
    if n > 0 {
      var l := n - 1;
      ProductPairs(R, l, f, g);
      assert g(l) == R.mul(f(2 * l), f(2 * l + 1));
      ProductTwo(R, 2 * l + 2, f);
    }
  }

  lemma LevelPairs(R: Ring, leaves: Leaves, j: int, height: nat, n: nat)
    requires R.Laws() && height > 0
    ensures Product(R, 2 * n, Level(R, leaves, j, height - 1)) == Product(R, n, Level(R, leaves, j, height))
  {
    hide Product;
    forall k | 0 <= k < n
      ensures Level(R, leaves, j, height)(k)
           == R.mul(Level(R, leaves, j, height - 1)(2 * k), Level(R, leaves, j, height - 1)(2 * k + 1))
    {
    }
    ProductPairs(R, n, Level(R, leaves, j, height - 1), Level(R, leaves, j, height));
  }

  /** A level's product does not depend on the level. */
  lemma {:induction false} LevelProduct(R: Ring, leaves: Leaves, j: int, height: nat, n: nat)
    requires R.Laws()
    ensures Product(R, Pow2(n), Level(R, leaves, j, height)) == Product(R, Pow2(n + height), Level(R, leaves, j, 0))
    decreases height
  {
    hide NodeAt;
    if height > 0 {
      LevelProduct(R, leaves, j, height - 1, n + 1);
      LevelPairs(R, leaves, j, height, Pow2(n));
      assert Pow2(n + 1) == 2 * Pow2(n);
    }
  }

  lemma RootIsNode(R: Ring, leaves: Leaves, j: int, depth: nat)
    requires R.Laws()
    ensures TrueValue(R, leaves, depth, [], j) == RootOf(R, leaves, j, depth)
  {
    var f := Level(R, leaves, j, depth);
    MleEmpty(R, f);
    LevelProduct(R, leaves, j, depth, 0);
    R.MulOne(f(0));
    assert Product(R, 1, f) == R.mul(Product(R, 0, f), f(0));
  }

  function HonestGkr(R: Ring, o: Oracle, depth: nat, leaves: Leaves, h: seq<Event>): Honest {
    var roots := [RootOf(R, leaves, 0, depth), RootOf(R, leaves, 2, depth)];
    var p := HonestLayers(R, o, depth, leaves, [], h + Absorbs(roots));
    Honest(roots + p.messages, p.x, p.history)
  }

  /** Completeness: when the push and pull products agree, an honest prover is accepted, its
      messages read to the last, and what comes back is the count tree's product and the three
      leaf tables' extensions at the point. */
  lemma GkrComplete(R: Ring, o: Oracle, depth: nat, leaves: Leaves, more: seq<Elem>, h: seq<Event>)
    requires R.Laws() && depth <= MAX_POINT
    requires RootOf(R, leaves, 0, depth) == RootOf(R, leaves, 1, depth)
    ensures var p := HonestGkr(R, o, depth, leaves, h);
      RunGkr(R, o, depth, State(p.messages + more, h))
      == Ok(GkrOut(RootOf(R, leaves, 2, depth), p.x, TrueValues(R, leaves, 0, p.x), State(more, p.history)))
  {
    hide RootOf, TrueValue, Layers, HonestLayers, Absorbs;
    var roots := [RootOf(R, leaves, 0, depth), RootOf(R, leaves, 2, depth)];
    var p := HonestLayers(R, o, depth, leaves, [], h + Absorbs(roots));
    var s := State(roots + p.messages + more, h);
    assert s.scalars[..2] == roots && s.scalars[2..] == p.messages + more;
    RootIsNode(R, leaves, 0, depth);
    RootIsNode(R, leaves, 1, depth);
    RootIsNode(R, leaves, 2, depth);
    assert TrueValues(R, leaves, depth, []) == [roots[0], roots[0], roots[1]];
    LayersHonest(R, o, depth, leaves, [], more, h + Absorbs(roots));
  }

  /** A tree deeper than a point can be long is never accepted, whatever is sent. */
  lemma {:induction false} TooDeep(R: Ring, o: Oracle, layer: nat, point: seq<Elem>, values: seq<Elem>, s: State)
    requires |values| == 3 && |point| + layer > MAX_POINT >= |point|
    ensures Layers(R, o, layer, point, values, s).Err?
    decreases layer
  {
    hide Layer;
    match Layer(R, o, StepOf(layer), point, values, s)
    case Err(e) =>
    case Ok(out) => TooDeep(R, o, layer - StepOf(layer), out.point, out.values, out.state);
  }

  // ---- soundness -------------------------------------------------------------------------------

  /** Some fold challenge is a root of the line between two children whose difference is not
      yet folded away. */
  ghost predicate FoldEscape(R: Ring, d: int -> Elem, y: seq<Elem>)
    decreases |y|
  {
    y != [] &&
    (|| (exists k :: 0 <= k < Pow2(|y| - 1) && Root(R, [d(2 * k), R.add(d(2 * k), d(2 * k + 1))], y[0]))
     || FoldEscape(R, Fold(R, d, y[0]), y[1..]))
  }

  lemma LineAt(R: Ring, a: Elem, b: Elem, x: Elem)
    requires R.Laws()
    ensures PolyEval(R, [a, R.add(a, b)], x) == R.Lerp(a, b, x)
  {
    var c := TableOf(R, [a, R.add(a, b)]);
    R.MulZero(x);
    R.AddZero(R.add(a, b));
    assert Horner(R, c, 2, 2, x) == R.zero;
    assert Horner(R, c, 1, 2, x) == R.add(a, b);
    R.MulComm(R.add(a, b), x);
    R.AddComm(a, R.mul(x, R.add(a, b)));
  }

  /** A difference that is somewhere nonzero stays nonzero through the folds. */
  lemma {:induction false} FoldSound(R: Ring, d: int -> Elem, y: seq<Elem>, i: int)
    requires R.Laws() && 0 <= i < Pow2(|y|) && d(i) != R.zero && !FoldEscape(R, d, y)
    ensures Mle(R, d, y) != R.zero
    decreases |y|
  {
    hide Mle, PolyEval;
    if y == [] {
      MleEmpty(R, d);
    } else {
      var k := i / 2;
      var a, b := d(2 * k), d(2 * k + 1);
      LineAt(R, a, b, y[0]);
      var line := [a, R.add(a, b)];
      if IsZero(R, line) {
        assert line[0] == R.zero && line[1] == R.zero;
        R.SumZero(a, b);
      }
      assert !Root(R, [d(2 * k), R.add(d(2 * k), d(2 * k + 1))], y[0]);
      MleFold(R, d, y);
      FoldSound(R, Fold(R, d, y[0]), y[1..], k);
    }
  }

  /** What tree j's children differ by from the true ones. */
  function ChildError(R: Ring, w: nat, flat: seq<Elem>, want: seq<Elem>, j: nat): int -> Elem
    requires j < 3 && |flat| == |want| == 3 * w
  {
    c => R.add(TableOf(R, Child(w, flat, j))(c), TableOf(R, Child(w, want, j))(c))
  }

  /** The exceptional challenges of one layer, each a root of an explicit nonzero polynomial. */
  ghost predicate LayerEscape(R: Ring, o: Oracle, layer: nat, leaves: Leaves, point: seq<Elem>, values: seq<Elem>, s: State)
    requires layer > 0 && |values| == 3
  {
    var w := Width(StepOf(layer));
    var t := LevelTables(R, leaves, layer - StepOf(layer), w);
    var (gamma, s1) := SampleFrom(o, s);
    var claim := PolyEval(R, values, gamma);
    || Root(R, Diff(R, values, TrueValues(R, leaves, layer, point)), gamma)
    || RoundsEscape(R, o, gamma, w, t, claim, point, s1)
    || match Rounds(R, o, w + 1, claim, point, s1)
       case Err(e) => false
       case Ok(out) =>
         match NextFrom(out.state, 3 * w)
         case Err(e) => false
         case Ok((flat, s2)) =>
           exists j :: 0 <= j < 3 &&
             FoldEscape(R, ChildError(R, w, flat, TrueChildren(R, t, w, out.x), j), Draws(o, s2.history, StepOf(layer)).0)
  }

  /** Wrong products come from a wrong child, which the fold then carries to a wrong value. */
  lemma ChildrenSound(R: Ring, gamma: Elem, w: nat, flat: seq<Elem>, want: seq<Elem>, y: seq<Elem>)
    requires R.Laws() && |flat| == |want| == 3 * w && w == Pow2(|y|)
    requires ProductsAt(R, gamma, w, flat) != ProductsAt(R, gamma, w, want)
    requires forall j :: 0 <= j < 3 ==> !FoldEscape(R, ChildError(R, w, flat, want, j), y)
    ensures exists j :: 0 <= j < 3 && ChildFold(R, w, flat, y, j) != ChildFold(R, w, want, y, j)
  {
    hide PolyEval, FoldEscape, ChildError, ChildProduct, ChildFold;
    var j := if ChildProduct(R, w, flat, 0) != ChildProduct(R, w, want, 0) then 0
             else if ChildProduct(R, w, flat, 1) != ChildProduct(R, w, want, 1) then 1 else 2;
    ChildSound(R, w, flat, want, y, j);
  }

  lemma ChildSound(R: Ring, w: nat, flat: seq<Elem>, want: seq<Elem>, y: seq<Elem>, j: nat)
    requires R.Laws() && |flat| == |want| == 3 * w && w == Pow2(|y|) && j < 3
    requires ChildProduct(R, w, flat, j) != ChildProduct(R, w, want, j)
    requires !FoldEscape(R, ChildError(R, w, flat, want, j), y)
    ensures ChildFold(R, w, flat, y, j) != ChildFold(R, w, want, y, j)
  {
    hide FoldEscape, Mle, Product, TableOf, Child;
    var f, g, d := TableOf(R, Child(w, flat, j)), TableOf(R, Child(w, want, j)), ChildError(R, w, flat, want, j);
    if forall c :: 0 <= c < w ==> f(c) == g(c) {
      ProductEq(R, w, f, g);
    }
    var c :| 0 <= c < w && f(c) != g(c);
    R.SumZero(f(c), g(c));
    FoldSound(R, d, y, c);
    MleAdd(R, f, g, d, y);
    R.SumZero(Mle(R, f, y), Mle(R, g, y));
  }

  lemma LayerSound(R: Ring, o: Oracle, layer: nat, leaves: Leaves, point: seq<Elem>, values: seq<Elem>, s: State)
    requires R.Laws() && layer > 0 && |values| == 3
    requires values != TrueValues(R, leaves, layer, point)
    requires !LayerEscape(R, o, layer, leaves, point, values, s)
    ensures match Layer(R, o, StepOf(layer), point, values, s)
            case Err(e) => true
            case Ok(out) => out.values != TrueValues(R, leaves, layer - StepOf(layer), out.point)
  {
    hide Mle, Summand, FoldAll, Rounds, RoundsEscape, FoldEscape, PolyEval, ChildProduct, ChildFold, ChildError,
         LevelTables, Draws, TrueChildren, TrueValue;
    var step := StepOf(layer);
    var w := Width(step);
    var t := LevelTables(R, leaves, layer - step, w);
    var (gamma, s1) := SampleFrom(o, s);
    var claim := PolyEval(R, values, gamma);
    AgreeOnlyAtRoots(R, values, TrueValues(R, leaves, layer, point), gamma);
    BatchIsSum(R, leaves, gamma, layer, step, point);
    RoundsSound(R, o, gamma, w, t, claim, point, s1);
    match Layer(R, o, step, point, values, s)
    case Err(e) =>
    case Ok(result) =>
      var out := Rounds(R, o, w + 1, claim, point, s1).value;
      var (flat, s2) := NextFrom(out.state, 3 * w).value;
      var y := Draws(o, s2.history, step).0;
      var want := TrueChildren(R, t, w, out.x);
      HonestCheck(R, gamma, w, t, out.x);
      ChildrenSound(R, gamma, w, flat, want, y);
      TrueFold(R, leaves, layer - step, step, out.x, y, 0);
      TrueFold(R, leaves, layer - step, step, out.x, y, 1);
      TrueFold(R, leaves, layer - step, step, out.x, y, 2);
  }

  ghost predicate LayersEscape(R: Ring, o: Oracle, layer: nat, leaves: Leaves, point: seq<Elem>, values: seq<Elem>, s: State)
    requires |values| == 3
    decreases layer
  {
    layer > 0 &&
    (|| LayerEscape(R, o, layer, leaves, point, values, s)
     || match Layer(R, o, StepOf(layer), point, values, s)
        case Err(e) => false
        case Ok(out) => LayersEscape(R, o, layer - StepOf(layer), leaves, out.point, out.values, out.state))
  }

  lemma {:induction false} LayersSound(R: Ring, o: Oracle, layer: nat, leaves: Leaves, point: seq<Elem>,
                                       values: seq<Elem>, s: State)
    requires R.Laws() && |values| == 3
    requires values != TrueValues(R, leaves, layer, point)
    requires !LayersEscape(R, o, layer, leaves, point, values, s)
    ensures match Layers(R, o, layer, point, values, s)
            case Err(e) => true
            case Ok(out) => out.values != TrueValues(R, leaves, 0, out.point)
    decreases layer
  {
    hide Layer, LayerEscape, TrueValues;
    if layer > 0 {
      LayerSound(R, o, layer, leaves, point, values, s);
      match Layer(R, o, StepOf(layer), point, values, s)
      case Err(e) =>
      case Ok(out) =>
        LayersSound(R, o, layer - StepOf(layer), leaves, out.point, out.values, out.state);
    }
  }

  ghost predicate GkrEscape(R: Ring, o: Oracle, depth: nat, leaves: Leaves, s: State) {
    match NextFrom(s, 2)
    case Err(e) => false
    case Ok((roots, s1)) => LayersEscape(R, o, depth, leaves, [], [roots[0], roots[0], roots[1]], s1)
  }

  /** Soundness: if the verifier passes on any stream at all and the values it returns are the
      leaf tables' own, the roots announced were the true products, unless some combiner, round
      or fold challenge was a root of an explicit nonzero polynomial. */
  lemma GkrSound(R: Ring, o: Oracle, depth: nat, leaves: Leaves, s: State)
    requires R.Laws() && !GkrEscape(R, o, depth, leaves, s)
    ensures match RunGkr(R, o, depth, s)
            case Err(e) => true
            case Ok(out) =>
              out.values == TrueValues(R, leaves, 0, out.point) ==>
                && out.count == RootOf(R, leaves, 2, depth)
                && s.scalars[0] == RootOf(R, leaves, 0, depth) == RootOf(R, leaves, 1, depth)
  {
    match NextFrom(s, 2)
    case Err(e) =>
    case Ok((roots, s1)) =>
      RootIsNode(R, leaves, 0, depth);
      RootIsNode(R, leaves, 1, depth);
      RootIsNode(R, leaves, 2, depth);
      var values := [roots[0], roots[0], roots[1]];
      if values != TrueValues(R, leaves, depth, []) {
        LayersSound(R, o, depth, leaves, [], values, s1);
      } else {
        assert values[0] == RootOf(R, leaves, 0, depth) && values[1] == RootOf(R, leaves, 1, depth);
      }
  }
}
