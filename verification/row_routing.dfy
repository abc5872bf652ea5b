/**
 * The row-routing loop that BRANCH and PICK share in `OperatorMeta.evolve`:
 * every row carries a child index; each child with at least one row is
 * handed the sub-population of its rows (genotypes and speeds), and its
 * output is written back into those rows.
 */
module RowRouting {
  import opened Populations
  import opened Routing
  import opened Traces

  /** The rows routed to `k`: `population_matrix[route == k]` and the same rows of the speed. */
  function RowGroup(p: Population, route: seq<int>, k: int): (g: Population)
    requires WellFormed(p) && |route| == |p.genotype|
    ensures WellFormed(g) && |g.genotype| == Count(route, k)
  {
    SelectRowLengths(p.genotype, p.speed, route, k);
    Population(Select(p.genotype, route, k), Select(p.speed, route, k))
  }

  lemma WriteRowsShape(p: Population, route: seq<int>, k: int, out: Population)
    requires WellFormed(p) && |route| == |p.genotype|
    requires SameShape(out, RowGroup(p, route, k))
    ensures WellFormed(Population(Scatter(p.genotype, route, k, out.genotype), Scatter(p.speed, route, k, out.speed)))
    ensures SameShape(Population(Scatter(p.genotype, route, k, out.genotype), Scatter(p.speed, route, k, out.speed)), p)
  {
    forall i | 0 <= i < |p.genotype|
      ensures |Scatter(p.genotype, route, k, out.genotype)[i]| == |p.genotype[i]|
      ensures |Scatter(p.speed, route, k, out.speed)[i]| == |p.speed[i]|
    {
      ScatterAt(p.genotype, route, k, out.genotype, i);
      ScatterAt(p.speed, route, k, out.speed, i);
      if route[i] == k {
        SelectAt(p.genotype, route, i);
        SelectAt(p.speed, route, i);
      }
    }
  }

  /** `population_matrix[route == k, :] = out.genotype_set`, and likewise for the speed. */
  function WriteRows(p: Population, route: seq<int>, k: int, out: Population): (r: Population)
    requires WellFormed(p) && |route| == |p.genotype|
    requires SameShape(out, RowGroup(p, route, k))
    ensures WellFormed(r) && SameShape(r, p)
  {
    WriteRowsShape(p, route, k, out);
    Population(Scatter(p.genotype, route, k, out.genotype), Scatter(p.speed, route, k, out.speed))
  }

  /** One turn of the loop: a non-empty group `g` is handed to child `g` and written back. */
  function RouteStep(children: seq<Transform>, route: seq<int>, prev: Routed, g: nat): (r: Routed)
    requires g < |children| && AllKeepShape(children)
    requires WellFormed(prev.population) && |route| == |prev.population.genotype|
    ensures WellFormed(r.population) && SameShape(r.population, prev.population)
  {
    if g !in route then prev
    else
      var input := RowGroup(prev.population, route, g);
      Routed(WriteRows(prev.population, route, g, children[g](input)), prev.calls + [Call(g, input)])
  }

  /** The loop over the first `k` children. */
  function RouteRows(children: seq<Transform>, route: seq<int>, p: Population, k: nat): (r: Routed)
    requires k <= |children| && AllKeepShape(children)
    requires WellFormed(p) && |route| == |p.genotype|
    ensures WellFormed(r.population) && SameShape(r.population, p)
    decreases k
  {
    if k == 0 then Routed(p, [])
    else RouteStep(children, route, RouteRows(children, route, p, k - 1), k - 1)
  }

  /** What each child returns when handed its own group of `p`. */
  function Outputs(children: seq<Transform>, route: seq<int>, p: Population): (outs: seq<Population>)
    requires AllKeepShape(children) && WellFormed(p) && |route| == |p.genotype|
    ensures |outs| == |children|
    ensures forall j {:trigger outs[j]} :: 0 <= j < |children| ==> outs[j] == children[j](RowGroup(p, route, j))
    ensures forall j {:trigger outs[j]} :: 0 <= j < |children| ==>
              |outs[j].genotype| == Count(route, j) && |outs[j].speed| == Count(route, j)
  {
    seq(|children|, j requires 0 <= j < |children| => children[j](RowGroup(p, route, j)))
  }


  /** The group of `p` each of the `n` children would be handed. */
  function RowInputs(p: Population, route: seq<int>, n: nat): (inputs: seq<Population>)
    requires WellFormed(p) && |route| == |p.genotype|
    ensures |inputs| == n && forall j {:trigger inputs[j]} :: 0 <= j < n ==> inputs[j] == RowGroup(p, route, j)
  {
    seq(n, j => RowGroup(p, route, j))
  }

  /**
   * After the first `k` children: group `j < k` holds child `j`'s output on
   * its own rows of `p`, every other group is as in `p`, and the calls made
   * are those of the loop over `p`'s groups.
   */
  ghost predicate RoutedUpTo(r: Routed, children: seq<Transform>, route: seq<int>, p: Population, k: nat)
    requires AllKeepShape(children) && WellFormed(p) && |route| == |p.genotype| && k <= |children|
  {
    && GroupsAre(r.population.genotype, p.genotype, route, Genotypes(Outputs(children, route, p)), k)
    && GroupsAre(r.population.speed, p.speed, route, Speeds(Outputs(children, route, p)), k)
    && r.calls == TraceOf(Due(route, |children|), RowInputs(p, route, |children|), k)
  }

  /** One loop turn extends `RoutedUpTo` from `g` to `g + 1`. */
  lemma RouteStepInvariant(children: seq<Transform>, route: seq<int>, p: Population, prev: Routed, g: nat)
    requires g < |children| && AllKeepShape(children)
    requires WellFormed(p) && |route| == |p.genotype|
    requires WellFormed(prev.population) && |route| == |prev.population.genotype|
    requires RoutedUpTo(prev, children, route, p, g)
    ensures RoutedUpTo(RouteStep(children, route, prev, g), children, route, p, g + 1)
  {
    var outs := Outputs(children, route, p);
    var cur := prev.population;
    if g in route {
      assert Select(cur.genotype, route, g) == Select(p.genotype, route, g);
      assert Select(cur.speed, route, g) == Select(p.speed, route, g);
      assert RowGroup(cur, route, g) == RowGroup(p, route, g);
      GroupsStep(cur.genotype, p.genotype, route, Genotypes(outs), g);
      GroupsStep(cur.speed, p.speed, route, Speeds(outs), g);
    } else {
      GroupsSkip(cur.genotype, p.genotype, route, Genotypes(outs), g);
      GroupsSkip(cur.speed, p.speed, route, Speeds(outs), g);
    }
  }

  /** The loop keeps `RoutedUpTo` from the first child to the last. */
  lemma {:induction false} RouteRowsInvariant(children: seq<Transform>, route: seq<int>, p: Population, k: nat)
    requires k <= |children| && AllKeepShape(children)
    requires WellFormed(p) && |route| == |p.genotype|
    ensures RoutedUpTo(RouteRows(children, route, p, k), children, route, p, k)
    decreases k
  {
    if k == 0 {
      var outs := Outputs(children, route, p);
      assert GroupsAre(p.genotype, p.genotype, route, Genotypes(outs), 0);
      assert GroupsAre(p.speed, p.speed, route, Speeds(outs), 0);
    } else {
      var g := k - 1;
      var prev := RouteRows(children, route, p, g);
      RouteRowsInvariant(children, route, p, g);
      RouteStepInvariant(children, route, p, prev, g);
      assert RouteRows(children, route, p, k) == RouteStep(children, route, prev, g);
    }
  }

  /**
   * The loop of BRANCH and PICK: row `i` is rewritten by child `route[i]`.
   * The rows of group `j` in the result are child `j`'s output on group `j`,
   * in order, in both matrices; rows whose index names no child are
   * unchanged; a child is called exactly when some row is routed to it,
   * once, in child order, and only on its own rows.
   */
  function EvolveRows(children: seq<Transform>, route: seq<int>, p: Population): (r: Routed)
    requires AllKeepShape(children) && WellFormed(p) && |route| == |p.genotype|
    ensures WellFormed(r.population) && SameShape(r.population, p)
    ensures forall j :: 0 <= j < |children| ==>
              && Select(r.population.genotype, route, j) == children[j](RowGroup(p, route, j)).genotype
              && Select(r.population.speed, route, j) == children[j](RowGroup(p, route, j)).speed
    ensures forall i :: 0 <= i < |route| && !(0 <= route[i] < |children|) ==>
              r.population.genotype[i] == p.genotype[i] && r.population.speed[i] == p.speed[i]
    ensures forall c :: 0 <= c < |r.calls| ==>
              r.calls[c].child < |children| && r.calls[c].child in route && r.calls[c].input == RowGroup(p, route, r.calls[c].child)
    ensures forall a, b :: 0 <= a < b < |r.calls| ==> r.calls[a].child < r.calls[b].child
    ensures forall j :: 0 <= j < |children| && j in route ==> exists c :: 0 <= c < |r.calls| && r.calls[c].child == j
  {
    var r := RouteRows(children, route, p, |children|);
    RouteRowsInvariant(children, route, p, |children|);
    var called := Due(route, |children|);
    TraceShape(called, RowInputs(p, route, |children|), |children|);
    forall j | 0 <= j < |children| && j in route
      ensures exists c :: 0 <= c < |r.calls| && r.calls[c].child == j
    {
      assert called[j];
    }
    forall i | 0 <= i < |route| && !(0 <= route[i] < |children|)
      ensures r.population.genotype[i] == p.genotype[i] && r.population.speed[i] == p.speed[i]
    {
      SelectAt(r.population.genotype, route, i);
      SelectAt(p.genotype, route, i);
      SelectAt(r.population.speed, route, i);
      SelectAt(p.speed, route, i);
    }
    r
  }

  /** No child is called exactly when no row names one. */
  lemma RowsWithoutChildren(children: seq<Transform>, route: seq<int>, p: Population)
    requires AllKeepShape(children) && WellFormed(p) && |route| == |p.genotype|
    ensures EvolveRows(children, route, p).calls == [] <==> forall j :: 0 <= j < |children| ==> j !in route
  {
    if forall j :: 0 <= j < |children| ==> j !in route {
      var called := Due(route, |children|);
      var inputs := RowInputs(p, route, |children|);
      forall j | 0 <= j < |children| ensures !called[j] {
        assert j !in route;
      }
      TraceEmpty(called, inputs, |children|);
      RouteRowsInvariant(children, route, p, |children|);
      assert RouteRows(children, route, p, |children|).calls == TraceOf(called, inputs, |children|);
      assert EvolveRows(children, route, p) == RouteRows(children, route, p, |children|);
    }
  }

  /** A child that gives back what it is handed. */
  ghost predicate IsIdentity(f: Transform) {
    forall q {:trigger f(q)} :: f(q) == q
  }

  /** When every child gives back what it is handed, routing leaves the population as it was. */
  lemma EvolveRowsIdentity(children: seq<Transform>, route: seq<int>, p: Population)
    requires AllKeepShape(children) && WellFormed(p) && |route| == |p.genotype|
    requires forall j :: 0 <= j < |children| ==> IsIdentity(children[j])
    ensures EvolveRows(children, route, p).population == p
  {
    var r := EvolveRows(children, route, p).population;
    forall j ensures Select(r.genotype, route, j) == Select(p.genotype, route, j) && Select(r.speed, route, j) == Select(p.speed, route, j) {
      if 0 <= j < |children| {
        assert children[j](RowGroup(p, route, j)) == RowGroup(p, route, j);
      } else {
        SelectAgrees(r.genotype, p.genotype, route, j);
        SelectAgrees(r.speed, p.speed, route, j);
      }
    }
    SelectDetermines(r.genotype, p.genotype, route);
    SelectDetermines(r.speed, p.speed, route);
  }
}
