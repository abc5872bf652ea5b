/**
 * `OperatorMeta.evolve`: how each combinator transforms a whole population.
 * The children are opaque transforms (`runs[j]` is what child `j`'s own
 * `evolve` does); the numpy draw of BRANCH is an input.
 */
module MetaEvolve {
  import opened Results
  import opened Populations
  import opened Routing
  import opened Traces
  import opened RowRouting
  import opened ColumnRouting
  import opened Weights
  import opened MetaOps

  // ---------------------------------------------------------------------------
  // SEQUENCE
  // ---------------------------------------------------------------------------

  /**
   * The first `k` children applied one after another: child `c` is called
   * exactly once, in order, on what child `c - 1` returned (the first on
   * the population itself), and the result is what the last one returned.
   */
  function Chain(children: seq<Transform>, p: Population, k: nat): (r: Routed)
    requires k <= |children|
    ensures |r.calls| == k
    ensures forall c :: 0 <= c < k ==> r.calls[c].child == c
    ensures k > 0 ==> r.calls[0].input == p
    ensures forall c :: 0 < c < k ==> r.calls[c].input == children[c - 1](r.calls[c - 1].input)
    ensures r.population == if k == 0 then p else children[k - 1](r.calls[k - 1].input)
  {
    if k == 0 then Routed(p, [])
    else
      var prev := Chain(children, p, k - 1);
      Routed(children[k - 1](prev.population), prev.calls + [Call(k - 1, prev.population)])
  }

  /** What SEQUENCE returns: the composition of all children. */
  function Compose(children: seq<Transform>, p: Population): Population {
    Chain(children, p, |children|).population
  }

  /** Two children in sequence are the second applied to the first's result. */
  lemma ComposeTwo(f: Transform, g: Transform, p: Population)
    ensures Compose([f, g], p) == g(f(p))
  {
  }

  /** A sequence of sequences is one sequence: composing `xs + ys` is composing `ys` after `xs`. */
  lemma {:induction false} ComposeAppend(xs: seq<Transform>, ys: seq<Transform>, p: Population)
    ensures Compose(xs + ys, p) == Compose(ys, Compose(xs, p))
    decreases |ys|
  {
    if |ys| == 0 {
      assert xs + ys == xs;
    } else {
      var init := ys[..|ys| - 1];
      ComposeAppend(xs, init, p);
      assert (xs + ys)[..|xs + ys| - 1] == xs + init;
      ChainPrefix(xs + ys, xs + init, p, |xs + init|);
      ChainPrefix(ys, init, Compose(xs, p), |init|);
    }
  }

  /** The chain over the first `k` children only looks at those children. */
  lemma {:induction false} ChainPrefix(a: seq<Transform>, b: seq<Transform>, p: Population, k: nat)
    requires k <= |a| && k <= |b| && a[..k] == b[..k]
    ensures Chain(a, p, k).population == Chain(b, p, k).population
  {
    if k > 0 {
      assert a[..k - 1] == b[..k - 1];
      assert a[k - 1] == a[..k][k - 1];
      ChainPrefix(a, b, p, k - 1);
    }
  }

  // ---------------------------------------------------------------------------
  // PICK
  // ---------------------------------------------------------------------------

  /** `np.asarray([c] * n)`: one index repeated for every row. */
  function Broadcast(c: int, n: nat): (route: seq<int>)
    ensures |route| == n && forall i :: 0 <= i < n ==> route[i] == c
  {
    seq(n, _ => c)
  }

  /**
   * PICK: a scalar `chosen_idx` sends every row to the same child; a
   * per-row array routes row by row. An array of the wrong length fails
   * at the first child it names, as numpy's boolean indexing does; one
   * that names no child leaves the population alone.
   */
  function EvolvePick(children: seq<Transform>, chosen: Index, p: Population): (r: Result<Routed>)
    requires AllKeepShape(children) && WellFormed(p)
    ensures r.Err? <==> chosen.PerRow? && |chosen.indices| != |p.genotype| && NamesChild(chosen.indices, |children|)
    ensures r.Err? ==> r.error.IndexError?
    ensures chosen.Scalar? ==> r == Ok(EvolveRows(children, Broadcast(chosen.at, |p.genotype|), p))
    ensures chosen.PerRow? && |chosen.indices| == |p.genotype| ==> r == Ok(EvolveRows(children, chosen.indices, p))
    ensures chosen.PerRow? && |chosen.indices| != |p.genotype| && r.Ok? ==> r.value == Routed(p, [])
  {
    match chosen
    case Scalar(c) => Ok(EvolveRows(children, Broadcast(c, |p.genotype|), p))
    case PerRow(ix) =>
      if |ix| == |p.genotype| then Ok(EvolveRows(children, ix, p))
      else if NamesChild(ix, |children|) then Err(IndexError("boolean index did not match indexed array along dimension 0"))
      else Ok(Routed(p, []))
  }

  /** Routing every row to one child hands that child the whole population. */
  lemma {:induction false} PickOneChild(children: seq<Transform>, c: int, p: Population)
    requires AllKeepShape(children) && WellFormed(p) && 0 <= c < |children|
    ensures EvolvePick(children, Scalar(c), p).value.population == children[c](p)
  {
    var route := Broadcast(c, |p.genotype|);
    var r := EvolveRows(children, route, p).population;
    SelectConstant(p.genotype, route, c, c);
    SelectConstant(p.speed, route, c, c);
    assert RowGroup(p, route, c) == p;
    SelectConstant(r.genotype, route, c, c);
    SelectConstant(r.speed, route, c, c);
  }

  /** A scalar index that names no child (the default -1 among them) changes nothing and calls nobody. */
  lemma {:induction false} PickNoChild(children: seq<Transform>, c: int, p: Population)
    requires AllKeepShape(children) && WellFormed(p) && !(0 <= c < |children|)
    ensures EvolvePick(children, Scalar(c), p).value == Routed(p, [])
  {
    var route := Broadcast(c, |p.genotype|);
    var r := EvolveRows(children, route, p);
    assert r.population.genotype == p.genotype;
    assert r.population.speed == p.speed;
    RowsWithoutChildren(children, route, p);

  }

  // ---------------------------------------------------------------------------
  // SPLIT
  // ---------------------------------------------------------------------------

  /**
   * SPLIT: a scalar mask `v` (which numpy reads as "take every column")
   * hands the whole population to child `v` if there is one; a per-gene
   * mask routes column by column. A per-gene mask that does not fit the
   * rows fails at the first child it names and otherwise changes nothing.
   */
  function EvolveSplit(children: seq<Transform>, mask: Mask, p: Population): (r: Result<Routed>)
    requires AllKeepShape(children) && WellFormed(p)
    ensures r.Err? <==> mask.PerColumn? && !Fits(p, mask.columns) && NamesChild(mask.columns, |children|)
    ensures r.Err? ==> r.error.IndexError?
    ensures mask.Uniform? && 0 <= mask.value < |children| ==>
              r == Ok(Routed(children[mask.value](p), [Call(mask.value, p)]))
    ensures mask.Uniform? && !(0 <= mask.value < |children|) ==> r == Ok(Routed(p, []))
    ensures mask.PerColumn? && Fits(p, mask.columns) ==> r == Ok(EvolveColumns(children, mask.columns, p))
    ensures mask.PerColumn? && !Fits(p, mask.columns) && r.Ok? ==> r.value == Routed(p, [])
  {
    match mask
    case Uniform(v) =>
      if 0 <= v < |children| then Ok(Routed(children[v](p), [Call(v, p)])) else Ok(Routed(p, []))
    case PerColumn(cols) =>
      if Fits(p, cols) then Ok(EvolveColumns(children, cols, p))
      else if NamesChild(cols, |children|) then Err(IndexError("boolean index did not match indexed array along dimension 1"))
      else Ok(Routed(p, []))
  }

  /**
   * A per-gene mask that names one child everywhere acts like the scalar
   * mask of that child: the child receives, and rewrites, the whole
   * population.
   */
  lemma {:induction false} SplitOneChild(children: seq<Transform>, cols: seq<int>, v: int, p: Population)
    requires AllKeepShape(children) && Fits(p, cols) && 0 <= v < |children|
    requires |cols| > 0 && forall c :: 0 <= c < |cols| ==> cols[c] == v
    ensures EvolveSplit(children, PerColumn(cols), p).value.population == EvolveSplit(children, Uniform(v), p).value.population
  {
    var r := EvolveColumns(children, cols, p).population;
    forall i | 0 <= i < |p.genotype|
      ensures p.genotype[i] == Select(p.genotype[i], cols, v) && p.speed[i] == Select(p.speed[i], cols, v)
      ensures r.genotype[i] == Select(r.genotype[i], cols, v) && r.speed[i] == Select(r.speed[i], cols, v)
    {
      SelectConstant(p.genotype[i], cols, v, v);
      SelectConstant(p.speed[i], cols, v, v);
      SelectConstant(r.genotype[i], cols, v, v);
      SelectConstant(r.speed[i], cols, v, v);
    }
    var g := ColumnGroup(p, cols, v);
    assert g.genotype == p.genotype;
    assert g.speed == p.speed;
    assert g == p;
    var out := children[v](p);
    assert r.genotype == out.genotype;
    assert r.speed == out.speed;
  }

  // ---------------------------------------------------------------------------
  // The dispatcher
  // ---------------------------------------------------------------------------

  /** What `evolve` leaves behind: the routing index it recorded and the routed population. */
  datatype Outcome = Outcome(chosen: Index, routed: Routed)

  /**
   * The dispatch of `OperatorMeta.evolve`, given what BRANCH's weight
   * check yields (`probs`). BRANCH fails when the check fails; otherwise
   * `draw` is the child index numpy drew for each row, which BRANCH
   * records as its new `chosen_idx` and routes by. PICK routes by the
   * recorded `chosen_idx`; SEQUENCE chains the children; SPLIT routes
   * genes by the mask. Only BRANCH changes the recorded index.
   */
  function Dispatch(m: MetaOperator, runs: seq<Transform>, p: Population, draw: seq<int>, probs: Result<seq<real>>): (r: Result<Outcome>)
    requires |runs| == |m.children| && WellFormed(p) && |draw| == |p.genotype|
    requires m.combinator != Sequence ==> AllKeepShape(runs)
    ensures m.combinator != Branch && r.Ok? ==> r.value.chosen == m.chosen
    ensures m.combinator == Branch ==> (r.Ok? <==> probs.Ok?)
    ensures m.combinator == Branch && r.Err? ==> r.error == probs.error
    ensures m.combinator == Branch && r.Ok? ==> r.value == Outcome(PerRow(draw), EvolveRows(runs, draw, p))
    ensures m.combinator == Pick ==> (r.Ok? <==> EvolvePick(runs, m.chosen, p).Ok?)
    ensures m.combinator == Pick && r.Ok? ==> r.value.routed == EvolvePick(runs, m.chosen, p).value
    ensures m.combinator == Sequence ==> r.Ok? && r.value.routed == Chain(runs, p, |runs|)
    ensures m.combinator == Split ==> (r.Ok? <==> EvolveSplit(runs, m.mask, p).Ok?)
    ensures m.combinator == Split && r.Ok? ==> r.value.routed == EvolveSplit(runs, m.mask, p).value
  {
    match m.combinator
    case Branch =>
      (match probs
       case Err(e) => Err(e)
       case Ok(_) => Ok(Outcome(PerRow(draw), EvolveRows(runs, draw, p))))
    case Pick =>
      (match EvolvePick(runs, m.chosen, p)
       case Err(e) => Err(e)
       case Ok(routed) => Ok(Outcome(m.chosen, routed)))
    case Sequence => Ok(Outcome(m.chosen, Chain(runs, p, |runs|)))
    case Split =>
      (match EvolveSplit(runs, m.mask, p)
       case Err(e) => Err(e)
       case Ok(routed) => Ok(Outcome(m.chosen, routed)))
  }

  /**
   * `OperatorMeta.evolve` as the code is written: BRANCH hands its weights
   * to numpy as probabilities unchanged, so it fails unless they already
   * form a distribution over the children.
   */
  function Evolve(m: MetaOperator, runs: seq<Transform>, p: Population, draw: seq<int>): (r: Result<Outcome>)
    requires |runs| == |m.children| && WellFormed(p) && |draw| == |p.genotype|
    requires m.combinator != Sequence ==> AllKeepShape(runs)
    ensures m.combinator != Branch && r.Ok? ==> r.value.chosen == m.chosen
    ensures m.combinator == Branch ==>
              (r.Ok? <==> m.params.weights.Some? && ChoiceCheck(m.params.weights.value, |runs|, |p.genotype|).None?)
    ensures m.combinator == Branch && m.params.weights.None? ==> r == Err(KeyError("weights"))
    ensures m.combinator == Branch && r.Ok? ==> r.value == Outcome(PerRow(draw), EvolveRows(runs, draw, p))
    ensures m.combinator == Pick ==> (r.Ok? <==> EvolvePick(runs, m.chosen, p).Ok?)
    ensures m.combinator == Pick && r.Ok? ==> r.value.routed == EvolvePick(runs, m.chosen, p).value
    ensures m.combinator == Sequence ==> r.Ok? && r.value.routed == Chain(runs, p, |runs|)
    ensures m.combinator == Split ==> (r.Ok? <==> EvolveSplit(runs, m.mask, p).Ok?)
    ensures m.combinator == Split && r.Ok? ==> r.value.routed == EvolveSplit(runs, m.mask, p).value
  {
    Dispatch(m, runs, p, draw, BranchProbabilitiesAsWritten(m.params.weights, |runs|, |p.genotype|))
  }

  /**
   * `evolve` with BRANCH's weights read as relative weights and normalised
   * before the draw; everything else is as written.
   */
  function EvolveCorrected(m: MetaOperator, runs: seq<Transform>, p: Population, draw: seq<int>): (r: Result<Outcome>)
    requires |runs| == |m.children| && WellFormed(p) && |draw| == |p.genotype|
    requires m.combinator != Sequence ==> AllKeepShape(runs)
    ensures m.combinator != Branch && r.Ok? ==> r.value.chosen == m.chosen
    ensures m.combinator == Branch ==>
              (r.Ok? <==> BranchProbabilities(m.params.weights, |runs|, |p.genotype|).Ok?)
    ensures m.combinator == Branch && r.Err? ==> r.error == BranchProbabilities(m.params.weights, |runs|, |p.genotype|).error
    ensures m.combinator == Branch && r.Ok? ==> r.value == Outcome(PerRow(draw), EvolveRows(runs, draw, p))
    ensures m.combinator == Pick ==> (r.Ok? <==> EvolvePick(runs, m.chosen, p).Ok?)
    ensures m.combinator == Pick && r.Ok? ==> r.value.routed == EvolvePick(runs, m.chosen, p).value
    ensures m.combinator == Sequence ==> r.Ok? && r.value.routed == Chain(runs, p, |runs|)
    ensures m.combinator == Split ==> (r.Ok? <==> EvolveSplit(runs, m.mask, p).Ok?)
    ensures m.combinator == Split && r.Ok? ==> r.value.routed == EvolveSplit(runs, m.mask, p).value
  {
    Dispatch(m, runs, p, draw, BranchProbabilities(m.params.weights, |runs|, |p.genotype|))
  }

  /**
   * The correction only widens what succeeds: every call the code as
   * written completes, the corrected reading completes with the same
   * outcome, and outside BRANCH the two are the same.
   */
  lemma EvolveCorrectionWidens(m: MetaOperator, runs: seq<Transform>, p: Population, draw: seq<int>)
    requires |runs| == |m.children| && WellFormed(p) && |draw| == |p.genotype|
    requires m.combinator != Sequence ==> AllKeepShape(runs)
    ensures m.combinator != Branch ==> EvolveCorrected(m, runs, p, draw) == Evolve(m, runs, p, draw)
    ensures Evolve(m, runs, p, draw).Ok? ==> EvolveCorrected(m, runs, p, draw) == Evolve(m, runs, p, draw)
  {
    if m.combinator == Branch && Evolve(m, runs, p, draw).Ok? {
      ProbabilitiesAgree(m.params.weights, |runs|, |p.genotype|);
    }
  }

  /**
   * Why the weights are read as relative weights: a BRANCH built without
   * parameters over `n >= 2` children is refused by the probability check
   * the code as written applies, while the relative reading routes every
   * row with probability `1 / n` to each child.
   */
  lemma DefaultBranchWeights(children: seq<Child>, name: Option<string>, size: nat)
    requires |children| >= 2
    ensures New("Branch", children, None, name).Ok?
    ensures BranchProbabilitiesAsWritten(New("Branch", children, None, name).value.params.weights, |children|, size).Err?
    ensures BranchProbabilities(New("Branch", children, None, name).value.params.weights, |children|, size).Ok?
  {
    assert MethodFromStr("Branch") == Ok(Branch) by {
      assert Text.Lower("Branch") == MethodName(Branch);
    }
    var w := Ones(|children|);
    assert New("Branch", children, None, name).value.params.weights == Some(w);
    DefaultWeightsRefused(w, size);
    DefaultWeightsUniform(w, size);
  }

  /**
   * The default BRANCH in action: evolving a population with it fails as
   * the code is written, and succeeds once the weights are normalised.
   */
  lemma DefaultBranchEvolve(children: seq<Child>, name: Option<string>, runs: seq<Transform>, p: Population, draw: seq<int>)
    requires |children| >= 2 && |runs| == |children|
    requires AllKeepShape(runs) && WellFormed(p) && |draw| == |p.genotype|
    ensures New("Branch", children, None, name).Ok?
    ensures Evolve(New("Branch", children, None, name).value, runs, p, draw).Err?
    ensures EvolveCorrected(New("Branch", children, None, name).value, runs, p, draw).Ok?
  {
    DefaultBranchWeights(children, name, |p.genotype|);
    var m := New("Branch", children, None, name).value;
    assert m.combinator == Branch && |m.children| == |children|;
  }
}
