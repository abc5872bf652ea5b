/**
 * `OperatorMeta.evolve_single`: how each combinator transforms one
 * individual. The children are opaque (`runs[j]` is child `j`'s own
 * `evolve_single`); the uniform sample `random()` that BRANCH scales is an
 * input.
 */
module MetaSingle {
  import opened Results
  import opened Populations
  import opened Routing
  import opened Weights
  import opened MetaOps

  /** What a child is handed besides the individual: the population and the global best, if any. */
  datatype Context = Context(population: seq<Individual>, best: Option<Individual>)

  /** What a child operator's `evolve_single` does. */
  type SingleRun = (Individual, Context) -> Individual

  /** A child returns a genotype as long as the one it was handed. */
  ghost predicate KeepsLength(f: SingleRun) {
    forall x, c {:trigger f(x, c)} :: |f(x, c).genotype| == |x.genotype|
  }

  ghost predicate AllKeepLength(fs: seq<SingleRun>) {
    forall k :: 0 <= k < |fs| ==> KeepsLength(fs[k])
  }

  /** What `evolve_single` returns and the `chosen_idx` it leaves behind. */
  datatype SingleOutcome = SingleOutcome(chosen: Index, result: Individual)

  // ---------------------------------------------------------------------------
  // SEQUENCE
  // ---------------------------------------------------------------------------

  /** The first `k` children applied in order, each seeing the same, unchanged population. */
  function Fold(runs: seq<SingleRun>, x: Individual, ctx: Context, k: nat): Individual
    requires k <= |runs|
  {
    if k == 0 then x else runs[k - 1](Fold(runs, x, ctx, k - 1), ctx)
  }

  /** Two children in sequence are the second applied to the first's result. */
  lemma FoldTwo(f: SingleRun, g: SingleRun, x: Individual, ctx: Context)
    ensures Fold([f, g], x, ctx, 2) == g(f(x, ctx), ctx)
  {
    assert Fold([f, g], x, ctx, 1) == f(x, ctx);
  }

  /** The fold over the first `k` children only looks at those children. */
  lemma {:induction false} FoldPrefix(a: seq<SingleRun>, b: seq<SingleRun>, x: Individual, ctx: Context, k: nat)
    requires k <= |a| && k <= |b| && a[..k] == b[..k]
    ensures Fold(a, x, ctx, k) == Fold(b, x, ctx, k)
  {
    if k > 0 {
      assert a[..k - 1] == b[..k - 1];
      assert a[k - 1] == a[..k][k - 1];
      FoldPrefix(a, b, x, ctx, k - 1);
    }
  }

  /** A sequence of sequences is one sequence: folding `xs + ys` folds `ys` over the result of `xs`. */
  lemma {:induction false} FoldAppend(xs: seq<SingleRun>, ys: seq<SingleRun>, x: Individual, ctx: Context)
    ensures Fold(xs + ys, x, ctx, |xs + ys|) == Fold(ys, Fold(xs, x, ctx, |xs|), ctx, |ys|)
    decreases |ys|
  {
    if |ys| == 0 {
      assert xs + ys == xs;
    } else {
      var init := ys[..|ys| - 1];
      FoldAppend(xs, init, x, ctx);
      assert (xs + ys)[..|xs + ys| - 1] == xs + init;
      FoldPrefix(xs + ys, xs + init, x, ctx, |xs + init|);
      FoldPrefix(ys, init, Fold(xs, x, ctx, |xs|), ctx, |init|);
    }
  }

  /** Children that keep the genotype length give a fold that keeps it. */
  lemma {:induction false} FoldKeepsLength(runs: seq<SingleRun>, x: Individual, ctx: Context, k: nat)
    requires k <= |runs| && AllKeepLength(runs)
    ensures |Fold(runs, x, ctx, k).genotype| == |x.genotype|
  {
    if k > 0 {
      FoldKeepsLength(runs, x, ctx, k - 1);
      assert KeepsLength(runs[k - 1]);
    }
  }

  // ---------------------------------------------------------------------------
  // SPLIT
  // ---------------------------------------------------------------------------

  /**
   * The individual, the global best and every member of the population
   * have one gene per mask entry, and there is a global best to filter.
   */
  predicate SingleFits(x: Individual, ctx: Context, cols: seq<int>) {
    && |x.genotype| == |cols|
    && ctx.best.Some? && |ctx.best.value.genotype| == |cols|
    && forall i :: 0 <= i < |ctx.population| ==> |ctx.population[i].genotype| == |cols|
  }

  /** The copy of `x` handed to child `k`: only the genes the mask gives to `k`. */
  function GeneGroup(x: Individual, cols: seq<int>, k: int): (g: Individual)
    requires |x.genotype| == |cols|
    ensures |g.genotype| == Count(cols, k)
  {
    x.(genotype := Select(x.genotype, cols, k))
  }

  /**
   * The context handed to child `k`: each member of the population cut
   * down to the genes of `k`. The global best goes through uncut; the cut
   * copy the code makes of it is never passed on.
   */
  function ContextGroup(ctx: Context, cols: seq<int>, k: int): (c: Context)
    requires forall i :: 0 <= i < |ctx.population| ==> |ctx.population[i].genotype| == |cols|
    ensures |c.population| == |ctx.population| && c.best == ctx.best
    ensures forall i :: 0 <= i < |ctx.population| ==> c.population[i] == GeneGroup(ctx.population[i], cols, k)
  {
    Context(seq(|ctx.population|, i requires 0 <= i < |ctx.population| => GeneGroup(ctx.population[i], cols, k)), ctx.best)
  }

  /** Child `k`'s genes as it returns them. */
  function GeneOutputs(runs: seq<SingleRun>, cols: seq<int>, x: Individual, ctx: Context): (outs: seq<seq<real>>)
    requires AllKeepLength(runs) && SingleFits(x, ctx, cols)
    ensures |outs| == |runs|
    ensures forall j {:trigger outs[j]} :: 0 <= j < |runs| ==>
              outs[j] == runs[j](GeneGroup(x, cols, j), ContextGroup(ctx, cols, j)).genotype && |outs[j]| == Count(cols, j)
  {
    seq(|runs|, j requires 0 <= j < |runs| => runs[j](GeneGroup(x, cols, j), ContextGroup(ctx, cols, j)).genotype)
  }

  /** Each child's output has as many genes as the mask gives it. */
  lemma GeneOutputsFit(runs: seq<SingleRun>, cols: seq<int>, x: Individual, ctx: Context)
    requires AllKeepLength(runs) && SingleFits(x, ctx, cols)
    ensures OutputsFit(cols, GeneOutputs(runs, cols, x, ctx))
  {
    var outs := GeneOutputs(runs, cols, x, ctx);
    forall j | 0 <= j < |outs| ensures |outs[j]| == Count(cols, j) {
      assert outs[j] == runs[j](GeneGroup(x, cols, j), ContextGroup(ctx, cols, j)).genotype && |outs[j]| == Count(cols, j);
    }
  }

  /**
   * The genotype SPLIT's loop leaves behind: the genes of each child are
   * its output on them, and genes whose mask value names no child are kept.
   */
  function SplitGenes(runs: seq<SingleRun>, cols: seq<int>, x: Individual, ctx: Context): (g: seq<real>)
    requires AllKeepLength(runs) && SingleFits(x, ctx, cols)
    ensures |g| == |cols|
    ensures forall j :: 0 <= j < |runs| ==>
              Select(g, cols, j) == runs[j](GeneGroup(x, cols, j), ContextGroup(ctx, cols, j)).genotype
    ensures forall c :: 0 <= c < |cols| && !(0 <= cols[c] < |runs|) ==> g[c] == x.genotype[c]
  {
    var outs := GeneOutputs(runs, cols, x, ctx);
    GeneOutputsFit(runs, cols, x, ctx);
    var g := ScatterAll(x.genotype, cols, outs, |runs|);
    ScatterAllGroups(x.genotype, cols, outs, |runs|);
    assert forall j :: 0 <= j < |runs| ==> Select(g, cols, j) == outs[j];
    GroupsKeepRest(g, x.genotype, cols, outs, |runs|);
    g
  }

  /**
   * SPLIT on one individual: a scalar mask `v` hands the whole individual
   * to child `v` if there is one; a per-gene mask hands each child its own
   * genes. The result is the individual with its genotype rewritten (the
   * speed, fitness and id stay). Once some child is due, a global best is
   * required and every mask-cut must fit, as numpy demands.
   */
  function SplitSingle(runs: seq<SingleRun>, mask: Mask, x: Individual, ctx: Context): (r: Result<Individual>)
    requires AllKeepLength(runs)
    ensures r.Ok? ==> r.value == x.(genotype := r.value.genotype)
    ensures mask.Uniform? ==>
              (r.Err? <==> 0 <= mask.value < |runs| && ctx.best.None?)
    ensures mask.Uniform? && r.Err? ==> r.error.AttributeError?
    ensures mask.Uniform? && 0 <= mask.value < |runs| && r.Ok? ==>
              r.value.genotype == runs[mask.value](x, ctx).genotype
    ensures mask.Uniform? && !(0 <= mask.value < |runs|) ==> r == Ok(x)
    ensures mask.PerColumn? ==>
              (r.Err? <==> NamesChild(mask.columns, |runs|) && !SingleFits(x, ctx, mask.columns))
    ensures mask.PerColumn? && !NamesChild(mask.columns, |runs|) ==> r == Ok(x)
    ensures mask.PerColumn? && r.Ok? && SingleFits(x, ctx, mask.columns) ==>
              && |r.value.genotype| == |mask.columns|
              && (forall j :: 0 <= j < |runs| ==>
                    Select(r.value.genotype, mask.columns, j) == runs[j](GeneGroup(x, mask.columns, j), ContextGroup(ctx, mask.columns, j)).genotype)
              && (forall c :: 0 <= c < |mask.columns| && !(0 <= mask.columns[c] < |runs|) ==> r.value.genotype[c] == x.genotype[c])
  {
    match mask
    case Uniform(v) =>
      if !(0 <= v < |runs|) then Ok(x)
      else if ctx.best.None? then Err(AttributeError("'NoneType' object has no attribute 'genotype'"))
      else Ok(x.(genotype := runs[v](x, ctx).genotype))
    case PerColumn(cols) =>
      if !NamesChild(cols, |runs|) then Ok(x)
      else if |x.genotype| != |cols| then Err(IndexError("boolean index did not match indexed array along dimension 0"))
      else if ctx.best.None? then Err(AttributeError("'NoneType' object has no attribute 'genotype'"))
      else if !SingleFits(x, ctx, cols) then Err(IndexError("boolean index did not match indexed array along dimension 0"))
      else
        Ok(x.(genotype := SplitGenes(runs, cols, x, ctx)))
  }

  /** A child that hands back the genes it is given. */
  ghost predicate KeepsGenes(f: SingleRun) {
    forall y, c {:trigger f(y, c)} :: f(y, c).genotype == y.genotype
  }

  /** With children that keep their genes, SPLIT gives the individual back unchanged. */
  lemma SplitSingleIdentity(runs: seq<SingleRun>, cols: seq<int>, x: Individual, ctx: Context)
    requires AllKeepLength(runs) && SingleFits(x, ctx, cols)
    requires forall j :: 0 <= j < |runs| ==> KeepsGenes(runs[j])
    ensures SplitSingle(runs, PerColumn(cols), x, ctx) == Ok(x)
  {
    var r := SplitSingle(runs, PerColumn(cols), x, ctx);
    var g := r.value.genotype;
    forall j ensures Select(g, cols, j) == Select(x.genotype, cols, j) {
      if 0 <= j < |runs| {
        assert runs[j](GeneGroup(x, cols, j), ContextGroup(ctx, cols, j)).genotype == GeneGroup(x, cols, j).genotype;
      } else {
        SelectAgrees(g, x.genotype, cols, j);
      }
    }
    SelectDetermines(g, x.genotype, cols);
  }

  // ---------------------------------------------------------------------------
  // PICK
  // ---------------------------------------------------------------------------

  /** Python's `xs[i]` on a list of length `n`: negative indices count from the end. */
  function PyIndex(i: int, n: nat): (r: Option<nat>)
    ensures r.Some? <==> -(n as int) <= i < n
    ensures r.Some? ==> r.value < n && r.value as int % n == i % n
  {
    if 0 <= i < n then Some(i)
    else if -(n as int) <= i < 0 then
      WrapNegative(i, n);
      Some(i + n)
    else None
  }

  /** An index in `[-n, 0)` and the same index plus `n` are congruent modulo `n`. */
  lemma WrapNegative(i: int, n: nat)
    requires -(n as int) <= i < 0
    ensures (i + n) % n == i % n
  {
    var j := i + n;
    assert 0 <= j < n;
    assert j % n == j;
    assert i == -1 * n + j;
  }

  /**
   * PICK on one individual as the code is written: the `Iterable` test is
   * the wrong way round, so a scalar index is subscripted and an array is
   * used to index the child list. Both raise `TypeError`, whatever the index.
   */
  function PickSingleAsWritten(runs: seq<SingleRun>, chosen: Index, indivIdx: int, x: Individual, ctx: Context): (r: Result<Individual>)
    ensures r.Err? && r.error.TypeError?
  {
    match chosen
    case Scalar(_) => Err(TypeError("'int' object is not subscriptable"))
    case PerRow(_) => Err(TypeError("only integer scalar arrays can be converted to a scalar index"))
  }

  /**
   * PICK on one individual with the test the right way round: an array
   * index is read at the individual's position, a scalar is used as it
   * is, and the child list is indexed the Python way.
   */
  function PickSingle(runs: seq<SingleRun>, chosen: Index, indivIdx: int, x: Individual, ctx: Context): (r: Result<Individual>)
    ensures r.Err? ==> r.error.IndexError?
    ensures chosen.Scalar? ==>
              (r.Ok? <==> -|runs| <= chosen.at < |runs|)
    ensures chosen.Scalar? && 0 <= chosen.at < |runs| ==> r == Ok(runs[chosen.at](x, ctx))
    ensures chosen.Scalar? && -|runs| <= chosen.at < 0 ==> r == Ok(runs[chosen.at + |runs|](x, ctx))
    ensures chosen.PerRow? ==>
              (r.Ok? <==> -|chosen.indices| <= indivIdx < |chosen.indices|
                          && -|runs| <= chosen.indices[if indivIdx < 0 then indivIdx + |chosen.indices| else indivIdx] < |runs|)
    ensures chosen.PerRow? && 0 <= indivIdx < |chosen.indices| && 0 <= chosen.indices[indivIdx] < |runs| ==>
              r == Ok(runs[chosen.indices[indivIdx]](x, ctx))
  {
    var at :=
      match chosen
      case Scalar(c) => Some(c)
      case PerRow(ix) => (match PyIndex(indivIdx, |ix|) case None => None case Some(a) => Some(ix[a]));
    match at
    case None => Err(IndexError("index out of bounds"))
    case Some(c) =>
      match PyIndex(c, |runs|)
      case None => Err(IndexError("list index out of range"))
      case Some(k) => Ok(runs[k](x, ctx))
  }

  /** The child `evolve` routes row `i` to under PICK's `chosen_idx` (a scalar is broadcast). */
  function RowTarget(chosen: Index, i: nat): (c: Option<int>)
    ensures chosen.Scalar? ==> c == Some(chosen.at)
    ensures chosen.PerRow? ==> (c.Some? <==> i < |chosen.indices|)
    ensures chosen.PerRow? && i < |chosen.indices| ==> c == Some(chosen.indices[i])
  {
    match chosen
    case Scalar(c) => Some(c)
    case PerRow(ix) => if i < |ix| then Some(ix[i]) else None
  }

  /**
   * Wherever the population-wide PICK sends row `i` to an existing child,
   * the corrected single-individual PICK applies that very child to
   * individual `i`.
   */
  lemma PickSingleMatchesRows(runs: seq<SingleRun>, chosen: Index, i: nat, x: Individual, ctx: Context)
    requires RowTarget(chosen, i).Some? && 0 <= RowTarget(chosen, i).value < |runs|
    ensures PickSingle(runs, chosen, i, x, ctx) == Ok(runs[RowTarget(chosen, i).value](x, ctx))
  {
  }

  /**
   * Where the two part ways: the default `chosen_idx` of -1 leaves rows
   * alone in `evolve`, but in the corrected `evolve_single` it is a
   * Python index and applies the last child.
   */
  lemma PickSingleDefaultIsLast(runs: seq<SingleRun>, i: int, x: Individual, ctx: Context)
    requires |runs| > 0
    ensures PickSingle(runs, Scalar(-1), i, x, ctx) == Ok(runs[|runs| - 1](x, ctx))
  {
  }

  // ---------------------------------------------------------------------------
  // BRANCH
  // ---------------------------------------------------------------------------

  /**
   * BRANCH on one individual: `random.choices` draws a child by the
   * weights, as relative weights, and that child's index becomes the new
   * `chosen_idx`. Missing weights raise `KeyError`; weights `random.choices`
   * refuses raise its error.
   */
  function BranchSingle(runs: seq<SingleRun>, weights: Option<seq<real>>, u: real, x: Individual, ctx: Context): (r: Result<SingleOutcome>)
    ensures weights.None? ==> r == Err(KeyError("weights"))
    ensures weights.Some? ==> (r.Ok? <==> ChoicesCheck(weights.value, |runs|).None?)
    ensures weights.Some? && r.Err? ==> r.error == ChoicesCheck(weights.value, |runs|).value
    ensures r.Ok? ==> r.value.chosen.Scalar? && 0 <= r.value.chosen.at < |runs|
                      && r.value.result == runs[r.value.chosen.at](x, ctx)
  {
    match weights
    case None => Err(KeyError("weights"))
    case Some(w) =>
      match ChoicesCheck(w, |runs|)
      case Some(e) => Err(e)
      case None =>
        var k := ChoicesIndex(w, u);
        Ok(SingleOutcome(Scalar(k), runs[k](x, ctx)))
  }

  /**
   * With non-negative weights and `random()` in `[0, 1)`, BRANCH never
   * hands the individual to a child of weight zero.
   */
  lemma BranchSingleSkipsZeroWeight(runs: seq<SingleRun>, w: seq<real>, u: real, x: Individual, ctx: Context)
    requires BranchSingle(runs, Some(w), u, x, ctx).Ok? && NonNegative(w) && 0.0 <= u < 1.0
    ensures w[BranchSingle(runs, Some(w), u, x, ctx).value.chosen.at] > 0.0
  {
    ChoicesIndexHasWeight(w, u);
  }

  // ---------------------------------------------------------------------------
  // The dispatcher
  // ---------------------------------------------------------------------------

  /**
   * The dispatch of `evolve_single`, given what PICK yields on this
   * individual (`pick`): BRANCH draws a child by the weights, PICK takes
   * `pick`, SEQUENCE folds the children, SPLIT routes genes by the mask.
   * Only SPLIT writes child outputs back into the individual, so only
   * SPLIT needs children that keep the genotype length.
   */
  function Dispatch(m: MetaOperator, runs: seq<SingleRun>, x: Individual, ctx: Context, u: real, pick: Result<Individual>): (r: Result<SingleOutcome>)
    requires m.combinator == Split ==> AllKeepLength(runs)
    ensures m.combinator != Branch && r.Ok? ==> r.value.chosen == m.chosen
    ensures m.combinator == Branch ==> r == BranchSingle(runs, m.params.weights, u, x, ctx)
    ensures m.combinator == Pick ==> (r.Ok? <==> pick.Ok?)
    ensures m.combinator == Pick && r.Ok? ==> r.value.result == pick.value
    ensures m.combinator == Pick && r.Err? ==> r.error == pick.error
    ensures m.combinator == Sequence ==> r == Ok(SingleOutcome(m.chosen, Fold(runs, x, ctx, |runs|)))
    ensures m.combinator == Split ==> (r.Ok? <==> SplitSingle(runs, m.mask, x, ctx).Ok?)
    ensures m.combinator == Split && r.Ok? ==> r.value.result == SplitSingle(runs, m.mask, x, ctx).value
  {
    match m.combinator
    case Branch => BranchSingle(runs, m.params.weights, u, x, ctx)
    case Pick =>
      (match pick
       case Err(e) => Err(e)
       case Ok(y) => Ok(SingleOutcome(m.chosen, y)))
    case Sequence => Ok(SingleOutcome(m.chosen, Fold(runs, x, ctx, |runs|)))
    case Split =>
      (match SplitSingle(runs, m.mask, x, ctx)
       case Err(e) => Err(e)
       case Ok(y) => Ok(SingleOutcome(m.chosen, y)))
  }

  /**
   * `OperatorMeta.evolve_single` as the code is written, on individual `x`
   * at position `indivIdx` of its population. PICK's inverted index test
   * makes every PICK raise `TypeError`; the other combinators behave as
   * described at `Dispatch`. Only BRANCH changes the recorded `chosen_idx`.
   */
  function EvolveSingle(m: MetaOperator, runs: seq<SingleRun>, x: Individual, ctx: Context, u: real, indivIdx: int): (r: Result<SingleOutcome>)
    requires |runs| == |m.children|
    requires m.combinator == Split ==> AllKeepLength(runs)
    ensures m.combinator != Branch && r.Ok? ==> r.value.chosen == m.chosen
    ensures m.combinator == Branch ==> r == BranchSingle(runs, m.params.weights, u, x, ctx)
    ensures m.combinator == Pick ==> r.Err? && r.error.TypeError?
    ensures m.combinator == Sequence ==> r == Ok(SingleOutcome(m.chosen, Fold(runs, x, ctx, |runs|)))
    ensures m.combinator == Split ==> (r.Ok? <==> SplitSingle(runs, m.mask, x, ctx).Ok?)
    ensures m.combinator == Split && r.Ok? ==> r.value.result == SplitSingle(runs, m.mask, x, ctx).value
  {
    Dispatch(m, runs, x, ctx, u, PickSingleAsWritten(runs, m.chosen, indivIdx, x, ctx))
  }

  /**
   * `evolve_single` with PICK's index test the right way round: PICK
   * applies the child its index names, read the Python way; everything
   * else is as written.
   */
  function EvolveSingleCorrected(m: MetaOperator, runs: seq<SingleRun>, x: Individual, ctx: Context, u: real, indivIdx: int): (r: Result<SingleOutcome>)
    requires |runs| == |m.children|
    requires m.combinator == Split ==> AllKeepLength(runs)
    ensures m.combinator != Branch && r.Ok? ==> r.value.chosen == m.chosen
    ensures m.combinator == Branch ==> r == BranchSingle(runs, m.params.weights, u, x, ctx)
    ensures m.combinator == Pick ==> (r.Ok? <==> PickSingle(runs, m.chosen, indivIdx, x, ctx).Ok?)
    ensures m.combinator == Pick && r.Ok? ==> r.value.result == PickSingle(runs, m.chosen, indivIdx, x, ctx).value
    ensures m.combinator == Pick && r.Err? ==> r.error.IndexError?
    ensures m.combinator == Sequence ==> r == Ok(SingleOutcome(m.chosen, Fold(runs, x, ctx, |runs|)))
    ensures m.combinator == Split ==> (r.Ok? <==> SplitSingle(runs, m.mask, x, ctx).Ok?)
    ensures m.combinator == Split && r.Ok? ==> r.value.result == SplitSingle(runs, m.mask, x, ctx).value
  {
    Dispatch(m, runs, x, ctx, u, PickSingle(runs, m.chosen, indivIdx, x, ctx))
  }

  /**
   * The correction touches PICK only: for BRANCH, SEQUENCE and SPLIT the
   * code as written and the corrected reading give the same outcome, and
   * a PICK that fails as written with `TypeError` fails in the corrected
   * reading at most with `IndexError`.
   */
  lemma EvolveSingleCorrectionOnlyPick(m: MetaOperator, runs: seq<SingleRun>, x: Individual, ctx: Context, u: real, indivIdx: int)
    requires |runs| == |m.children|
    requires m.combinator == Split ==> AllKeepLength(runs)
    ensures m.combinator != Pick ==>
              EvolveSingle(m, runs, x, ctx, u, indivIdx) == EvolveSingleCorrected(m, runs, x, ctx, u, indivIdx)
    ensures m.combinator == Pick ==>
              && EvolveSingle(m, runs, x, ctx, u, indivIdx).Err?
              && (EvolveSingleCorrected(m, runs, x, ctx, u, indivIdx).Ok? <==> PickSingle(runs, m.chosen, indivIdx, x, ctx).Ok?)
  {
  }
}
