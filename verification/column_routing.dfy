/**
 * The column-routing loop of SPLIT in `OperatorMeta.evolve`: every gene
 * position carries a child index (the mask); each child whose index occurs
 * in the mask is handed every individual restricted to its genes, and its
 * output is written back into those genes of every row.
 */
module ColumnRouting {
  import opened Populations
  import opened Routing
  import opened Traces

  /** Both matrices are well formed and every row has one entry per mask column. */
  predicate Fits(p: Population, cols: seq<int>) {
    && WellFormed(p)
    && forall i :: 0 <= i < |p.genotype| ==> |p.genotype[i]| == |cols|
  }

  /** `m[:, cols == k]`: every row restricted to the columns routed to `k`. */
  function SelectColumns<T>(m: seq<seq<T>>, cols: seq<int>, k: int): (r: seq<seq<T>>)
    requires forall i :: 0 <= i < |m| ==> |m[i]| == |cols|
    ensures |r| == |m|
    ensures forall i :: 0 <= i < |m| ==> r[i] == Select(m[i], cols, k) && |r[i]| == Count(cols, k)
  {
    seq(|m|, i requires 0 <= i < |m| => Select(m[i], cols, k))
  }

  /** `m[:, cols == k] = ys`: row `i`'s columns routed to `k` are overwritten by `ys[i]`. */
  function ScatterColumns<T>(m: seq<seq<T>>, cols: seq<int>, k: int, ys: seq<seq<T>>): (r: seq<seq<T>>)
    requires forall i :: 0 <= i < |m| ==> |m[i]| == |cols|
    requires |ys| == |m| && forall i :: 0 <= i < |m| ==> |ys[i]| == Count(cols, k)
    ensures |r| == |m|
    ensures forall i :: 0 <= i < |m| ==> r[i] == Scatter(m[i], cols, k, ys[i]) && |r[i]| == |cols|
  {
    seq(|m|, i requires 0 <= i < |m| => Scatter(m[i], cols, k, ys[i]))
  }

  /** The genes routed to `k` of every individual, genotype and speed. */
  function ColumnGroup(p: Population, cols: seq<int>, k: int): (g: Population)
    requires Fits(p, cols)
    ensures WellFormed(g) && |g.genotype| == |p.genotype|
    ensures forall i :: 0 <= i < |g.genotype| ==> |g.genotype[i]| == Count(cols, k)
  {
    Population(SelectColumns(p.genotype, cols, k), SelectColumns(p.speed, cols, k))
  }

  /** `population_matrix[:, mask == k] = out.genotype_set`, and likewise for the speed. */
  function WriteColumns(p: Population, cols: seq<int>, k: int, out: Population): (r: Population)
    requires Fits(p, cols) && SameShape(out, ColumnGroup(p, cols, k))
    ensures Fits(r, cols) && SameShape(r, p)
  {
    Population(ScatterColumns(p.genotype, cols, k, out.genotype), ScatterColumns(p.speed, cols, k, out.speed))
  }

  /** One turn of the loop: a child whose index occurs in the mask is handed its genes, which are written back. */
  function ColumnStep(children: seq<Transform>, cols: seq<int>, prev: Routed, g: nat): (r: Routed)
    requires g < |children| && AllKeepShape(children) && Fits(prev.population, cols)
    ensures Fits(r.population, cols) && SameShape(r.population, prev.population)
  {
    if g !in cols then prev
    else
      var input := ColumnGroup(prev.population, cols, g);
      Routed(WriteColumns(prev.population, cols, g, children[g](input)), prev.calls + [Call(g, input)])
  }

  /** The loop over the first `k` children. */
  function RouteColumns(children: seq<Transform>, cols: seq<int>, p: Population, k: nat): (r: Routed)
    requires k <= |children| && AllKeepShape(children) && Fits(p, cols)
    ensures Fits(r.population, cols) && SameShape(r.population, p)
    decreases k
  {
    if k == 0 then Routed(p, [])
    else ColumnStep(children, cols, RouteColumns(children, cols, p, k - 1), k - 1)
  }

  /** What each child returns when handed its own genes of `p`. */
  function ColumnOutputs(children: seq<Transform>, cols: seq<int>, p: Population): (outs: seq<Population>)
    requires AllKeepShape(children) && Fits(p, cols)
    ensures |outs| == |children|
    ensures forall j {:trigger outs[j]} :: 0 <= j < |children| ==> outs[j] == children[j](ColumnGroup(p, cols, j))
    ensures forall j {:trigger outs[j]} :: 0 <= j < |children| ==> SameShape(outs[j], ColumnGroup(p, cols, j))
  {
    seq(|children|, j requires 0 <= j < |children| => children[j](ColumnGroup(p, cols, j)))
  }

  /** Row `i` of each matrix in `ms`; the empty row where a matrix is too short. */
  function RowOf(ms: seq<Matrix>, i: nat): (r: seq<seq<real>>)
    ensures |r| == |ms| && forall j {:trigger r[j]} :: 0 <= j < |ms| && i < |ms[j]| ==> r[j] == ms[j][i]
  {
    seq(|ms|, j requires 0 <= j < |ms| => if i < |ms[j]| then ms[j][i] else [])
  }


  /** The genes of `p` each of the `n` children would be handed. */
  function ColumnInputs(p: Population, cols: seq<int>, n: nat): (inputs: seq<Population>)
    requires Fits(p, cols)
    ensures |inputs| == n && forall j {:trigger inputs[j]} :: 0 <= j < n ==> inputs[j] == ColumnGroup(p, cols, j)
  {
    seq(n, j => ColumnGroup(p, cols, j))
  }

  /**
   * After the first `k` children: in every row, the genes of group `j < k`
   * are child `j`'s output for that row, every other group of genes is as
   * in `p`, and the calls made are those of the loop over `p`'s groups.
   */
  ghost predicate ColumnsUpTo(r: Routed, children: seq<Transform>, cols: seq<int>, p: Population, k: nat) {
    && AllKeepShape(children) && Fits(p, cols) && k <= |children|
    && Fits(r.population, cols) && SameShape(r.population, p)
    && (forall i {:trigger r.population.genotype[i]} :: 0 <= i < |p.genotype| ==>
          GroupsAre(r.population.genotype[i], p.genotype[i], cols, RowOf(Genotypes(ColumnOutputs(children, cols, p)), i), k))
    && (forall i {:trigger r.population.speed[i]} :: 0 <= i < |p.speed| ==>
          GroupsAre(r.population.speed[i], p.speed[i], cols, RowOf(Speeds(ColumnOutputs(children, cols, p)), i), k))
    && r.calls == TraceOf(Due(cols, |children|), ColumnInputs(p, cols, |children|), k)
  }

  /** Before the first write, group `g` of every row is still the one of `p`, so the child sees `p`'s genes. */
  lemma ColumnGroupUnchanged(children: seq<Transform>, cols: seq<int>, p: Population, prev: Routed, g: nat)
    requires g < |children| && AllKeepShape(children) && Fits(p, cols)
    requires ColumnsUpTo(prev, children, cols, p, g)
    ensures ColumnGroup(prev.population, cols, g) == ColumnGroup(p, cols, g)
  {
    var cur := prev.population;
    forall i | 0 <= i < |p.genotype|
      ensures Select(cur.genotype[i], cols, g) == Select(p.genotype[i], cols, g)
      ensures Select(cur.speed[i], cols, g) == Select(p.speed[i], cols, g)
    {
      assert GroupsAre(cur.genotype[i], p.genotype[i], cols, RowOf(Genotypes(ColumnOutputs(children, cols, p)), i), g);
      assert GroupsAre(cur.speed[i], p.speed[i], cols, RowOf(Speeds(ColumnOutputs(children, cols, p)), i), g);
    }
    assert ColumnGroup(cur, cols, g).genotype == ColumnGroup(p, cols, g).genotype;
    assert ColumnGroup(cur, cols, g).speed == ColumnGroup(p, cols, g).speed;
  }

  /** One loop turn extends `ColumnsUpTo` from `g` to `g + 1`. */
  lemma ColumnStepInvariant(children: seq<Transform>, cols: seq<int>, p: Population, prev: Routed, g: nat)
    requires g < |children| && AllKeepShape(children) && Fits(p, cols)
    requires ColumnsUpTo(prev, children, cols, p, g)
    ensures ColumnsUpTo(ColumnStep(children, cols, prev, g), children, cols, p, g + 1)
  {
    var outs := ColumnOutputs(children, cols, p);
    var cur := prev.population;
    var next := ColumnStep(children, cols, prev, g).population;
    var gs := Genotypes(outs);
    var ss := Speeds(outs);
    if g in cols {
      ColumnGroupUnchanged(children, cols, p, prev, g);
      assert next == WriteColumns(cur, cols, g, outs[g]);
      forall i | 0 <= i < |p.genotype|
        ensures GroupsAre(next.genotype[i], p.genotype[i], cols, RowOf(gs, i), g + 1)
        ensures GroupsAre(next.speed[i], p.speed[i], cols, RowOf(ss, i), g + 1)
      {
        assert GroupsAre(cur.genotype[i], p.genotype[i], cols, RowOf(gs, i), g);
        assert GroupsAre(cur.speed[i], p.speed[i], cols, RowOf(ss, i), g);
        assert RowOf(gs, i)[g] == outs[g].genotype[i];
        assert RowOf(ss, i)[g] == outs[g].speed[i];
        GroupsStep(cur.genotype[i], p.genotype[i], cols, RowOf(gs, i), g);
        GroupsStep(cur.speed[i], p.speed[i], cols, RowOf(ss, i), g);
      }
    } else {
      forall i | 0 <= i < |p.genotype|
        ensures GroupsAre(next.genotype[i], p.genotype[i], cols, RowOf(gs, i), g + 1)
        ensures GroupsAre(next.speed[i], p.speed[i], cols, RowOf(ss, i), g + 1)
      {
        assert GroupsAre(cur.genotype[i], p.genotype[i], cols, RowOf(gs, i), g);
        assert GroupsAre(cur.speed[i], p.speed[i], cols, RowOf(ss, i), g);
        GroupsSkip(cur.genotype[i], p.genotype[i], cols, RowOf(gs, i), g);
        GroupsSkip(cur.speed[i], p.speed[i], cols, RowOf(ss, i), g);
      }
    }
  }

  /** Before the loop nothing has been replaced or called. */
  lemma ColumnsStart(children: seq<Transform>, cols: seq<int>, p: Population)
    requires AllKeepShape(children) && Fits(p, cols)
    ensures ColumnsUpTo(Routed(p, []), children, cols, p, 0)
  {
    var outs := ColumnOutputs(children, cols, p);
    forall i | 0 <= i < |p.genotype|
      ensures GroupsAre(p.genotype[i], p.genotype[i], cols, RowOf(Genotypes(outs), i), 0)
      ensures GroupsAre(p.speed[i], p.speed[i], cols, RowOf(Speeds(outs), i), 0)
    {
    }
  }

  /** The loop keeps `ColumnsUpTo` from the first child to the last. */
  lemma {:induction false} RouteColumnsInvariant(children: seq<Transform>, cols: seq<int>, p: Population, k: nat)
    requires k <= |children| && AllKeepShape(children) && Fits(p, cols)
    ensures ColumnsUpTo(RouteColumns(children, cols, p, k), children, cols, p, k)
    decreases k
  {
    if k == 0 {
      ColumnsStart(children, cols, p);
    } else {
      var g := k - 1;
      var prev := RouteColumns(children, cols, p, g);
      RouteColumnsInvariant(children, cols, p, g);
      ColumnStepInvariant(children, cols, p, prev, g);
      assert RouteColumns(children, cols, p, k) == ColumnStep(children, cols, prev, g);
    }
  }

  /**
   * The loop of SPLIT with a per-gene mask: gene `c` of every individual is
   * rewritten by child `cols[c]`. In every row, the genes of group `j` in
   * the result are that row of child `j`'s output on group `j`, in both
   * matrices; genes whose index names no child are unchanged; a child is
   * called exactly when its index occurs in the mask, once, in child order,
   * and only on its own genes.
   */
  function EvolveColumns(children: seq<Transform>, cols: seq<int>, p: Population): (r: Routed)
    requires AllKeepShape(children) && Fits(p, cols)
    ensures Fits(r.population, cols) && SameShape(r.population, p)
    ensures forall j, i :: 0 <= j < |children| && 0 <= i < |p.genotype| ==>
              && Select(r.population.genotype[i], cols, j) == children[j](ColumnGroup(p, cols, j)).genotype[i]
              && Select(r.population.speed[i], cols, j) == children[j](ColumnGroup(p, cols, j)).speed[i]
    ensures forall i, c :: 0 <= i < |p.genotype| && 0 <= c < |cols| && !(0 <= cols[c] < |children|) ==>
              r.population.genotype[i][c] == p.genotype[i][c] && r.population.speed[i][c] == p.speed[i][c]
    ensures forall c :: 0 <= c < |r.calls| ==>
              r.calls[c].child < |children| && r.calls[c].child in cols && r.calls[c].input == ColumnGroup(p, cols, r.calls[c].child)
    ensures forall a, b :: 0 <= a < b < |r.calls| ==> r.calls[a].child < r.calls[b].child
    ensures forall j :: 0 <= j < |children| && j in cols ==> exists c :: 0 <= c < |r.calls| && r.calls[c].child == j
  {
    var r := RouteColumns(children, cols, p, |children|);
    RouteColumnsInvariant(children, cols, p, |children|);
    ColumnsCallsDone(r, children, cols, p);
    ColumnsGroupsDone(r, children, cols, p);
    ColumnsUnroutedKept(r, children, cols, p);
    r
  }

  /** After the whole loop, the calls are those of the mask's children, in order, and every child it names is called. */
  lemma ColumnsCallsDone(r: Routed, children: seq<Transform>, cols: seq<int>, p: Population)
    requires ColumnsUpTo(r, children, cols, p, |children|)
    ensures forall c :: 0 <= c < |r.calls| ==>
              r.calls[c].child < |children| && r.calls[c].child in cols && r.calls[c].input == ColumnGroup(p, cols, r.calls[c].child)
    ensures forall a, b :: 0 <= a < b < |r.calls| ==> r.calls[a].child < r.calls[b].child
    ensures forall j :: 0 <= j < |children| && j in cols ==> exists c :: 0 <= c < |r.calls| && r.calls[c].child == j
  {
    var called := Due(cols, |children|);
    TraceShape(called, ColumnInputs(p, cols, |children|), |children|);
    forall j | 0 <= j < |children| && j in cols
      ensures exists c :: 0 <= c < |r.calls| && r.calls[c].child == j
    {
      assert called[j];
    }
  }

  /** After the whole loop, group `j` of every row holds that row of child `j`'s output. */
  lemma ColumnsGroupsDone(r: Routed, children: seq<Transform>, cols: seq<int>, p: Population)
    requires ColumnsUpTo(r, children, cols, p, |children|)
    ensures forall j, i :: 0 <= j < |children| && 0 <= i < |p.genotype| ==>
              && Select(r.population.genotype[i], cols, j) == children[j](ColumnGroup(p, cols, j)).genotype[i]
              && Select(r.population.speed[i], cols, j) == children[j](ColumnGroup(p, cols, j)).speed[i]
  {
    var outs := ColumnOutputs(children, cols, p);
    forall j, i | 0 <= j < |children| && 0 <= i < |p.genotype|
      ensures Select(r.population.genotype[i], cols, j) == children[j](ColumnGroup(p, cols, j)).genotype[i]
      ensures Select(r.population.speed[i], cols, j) == children[j](ColumnGroup(p, cols, j)).speed[i]
    {
      assert GroupsAre(r.population.genotype[i], p.genotype[i], cols, RowOf(Genotypes(outs), i), |children|);
      assert GroupsAre(r.population.speed[i], p.speed[i], cols, RowOf(Speeds(outs), i), |children|);
      assert RowOf(Genotypes(outs), i)[j] == outs[j].genotype[i];
      assert RowOf(Speeds(outs), i)[j] == outs[j].speed[i];
    }
  }

  /** After the whole loop, genes whose mask value names no child are as they were. */
  lemma ColumnsUnroutedKept(r: Routed, children: seq<Transform>, cols: seq<int>, p: Population)
    requires ColumnsUpTo(r, children, cols, p, |children|)
    ensures forall i, c :: 0 <= i < |p.genotype| && 0 <= c < |cols| && !(0 <= cols[c] < |children|) ==>
              r.population.genotype[i][c] == p.genotype[i][c] && r.population.speed[i][c] == p.speed[i][c]
  {
    var outs := ColumnOutputs(children, cols, p);
    forall i | 0 <= i < |p.genotype|
      ensures forall c :: 0 <= c < |cols| && !(0 <= cols[c] < |children|) ==>
                r.population.genotype[i][c] == p.genotype[i][c] && r.population.speed[i][c] == p.speed[i][c]
    {
      GroupsKeepRest(r.population.genotype[i], p.genotype[i], cols, RowOf(Genotypes(outs), i), |children|);
      GroupsKeepRest(r.population.speed[i], p.speed[i], cols, RowOf(Speeds(outs), i), |children|);
    }
  }
}
