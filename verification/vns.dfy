/**
 * `VNS` (variable neighbourhood search): a single individual is perturbed
 * by a PICK meta-operator over the neighbourhood operators, and the PICK
 * index moves on to the next neighbourhood while the same individual
 * keeps surviving.
 */
module Vns {
  import opened Results
  import opened Populations
  import opened MetaOps
  import opened Initializers
  import opened MetaSingle

  /**
   * The state VNS keeps: the local-search iteration count, the PICK
   * perturbation operator (its children are the neighbourhood operators,
   * its `chosen_idx` the current neighbourhood), the survivor selection's
   * method name, the population initializer, whether the population-size
   * warning was raised, and the best individual found.
   */
  datatype Vns = Vns(
    iterations: int,
    perturb: MetaOperator,
    selection: string,
    popInit: Initializer,
    warned: bool,
    best: Individual)

  /** The shape every VNS state keeps: the perturbation is a PICK with one scalar index. */
  predicate Valid(v: Vns) {
    v.perturb.combinator == Pick && v.perturb.chosen.Scalar?
  }

  /** The current neighbourhood index. */
  function Current(v: Vns): int
    requires Valid(v)
  {
    v.perturb.chosen.at
  }

  /** Number of neighbourhood operators. */
  function Neighbourhoods(v: Vns): nat {
    |v.perturb.children|
  }

  /** The parameters VNS gives its PICK: only `init_idx`, set to 0. */
  function PickParams(): Params {
    Params(None, None, None, Some(Scalar(0)))
  }

  /**
   * `VNS.__init__`: 100 local-search iterations unless `iters` is given, a
   * PICK over the operators starting at neighbourhood 0, One-to-One
   * survivor selection unless another is given, and an initializer cut
   * down to one individual (with a warning) when it asked for more.
   */
  function New(popInit: Initializer, ops: seq<Child>, selection: Option<string>, iters: Option<int>, best: Individual): (v: Vns)
    ensures Valid(v) && Current(v) == 0
    ensures v.perturb.children == ops && v.perturb.params == PickParams()
    ensures iters.None? ==> v.iterations == 100
    ensures iters.Some? ==> v.iterations == iters.value
    ensures selection.None? ==> v.selection == "One-to-One"
    ensures selection.Some? ==> v.selection == selection.value
    ensures popInit.popSize > 1 ==> v.popInit == popInit.(popSize := 1) && v.warned
    ensures popInit.popSize <= 1 ==> v.popInit == popInit && !v.warned
  {
    assert MethodFromStr("Pick") == Ok(Pick) by {
      assert Text.Lower("Pick") == MethodName(Pick);
    }
    var perturb := MetaOps.New("Pick", ops, Some(PickParams()), None).value;
    var init := if popInit.popSize > 1 then popInit.(popSize := 1) else popInit;
    Vns(iters.GetOr(100), perturb, selection.GetOr("One-to-One"), init, popInit.popSize > 1, best)
  }

  /** What `select_individuals` returns and the state it leaves. */
  datatype Selected = Selected(state: Vns, population: seq<Individual>)

  /**
   * `select_individuals`, given the survivors `chosen` the selection
   * operator picked: if the first survivor is the previous first
   * individual, move to the next neighbourhood, otherwise go back to the
   * first one. Reading the first element of an empty list raises
   * `IndexError`.
   */
  function SelectIndividuals(v: Vns, population: seq<Individual>, chosen: seq<Individual>): (r: Result<Selected>)
    requires Valid(v)
    ensures r.Err? <==> |population| == 0 || |chosen| == 0
    ensures r.Err? ==> r.error.IndexError?
    ensures r.Ok? ==> Valid(r.value.state) && r.value.population == chosen
    ensures r.Ok? ==> r.value.state == v.(perturb := v.perturb.(chosen := Scalar(Current(r.value.state))))
    ensures r.Ok? && chosen[0].id == population[0].id ==> Current(r.value.state) == Current(v) + 1
    ensures r.Ok? && chosen[0].id != population[0].id ==> Current(r.value.state) == 0
  {
    if |chosen| == 0 || |population| == 0 then Err(IndexError("list index out of range"))
    else
      var next := if chosen[0].id == population[0].id then Current(v) + 1 else 0;
      Ok(Selected(v.(perturb := v.perturb.(chosen := Scalar(next))), chosen))
  }

  /**
   * `update_params`: step the perturbation operator, then bring an index
   * that ran past the last neighbourhood (or below the first) back to 0.
   */
  function UpdateParams(v: Vns, progress: real): (r: Vns)
    requires Valid(v)
    ensures Valid(r)
    ensures 0 <= Current(v) < Neighbourhoods(v) ==> Current(r) == Current(v)
    ensures !(0 <= Current(v) < Neighbourhoods(v)) ==> Current(r) == 0
    ensures Neighbourhoods(r) == Neighbourhoods(v)
    ensures Neighbourhoods(v) > 0 ==> 0 <= Current(r) < Neighbourhoods(r)
    ensures SteppedOnce(Meta(v.perturb), Meta(r.perturb.(chosen := v.perturb.chosen)), progress)
    ensures r == v.(perturb := r.perturb)
  {
    var stepped := StepMeta(v.perturb, progress);
    var c := Current(v);
    var next := if c >= Neighbourhoods(v) || c < 0 then 0 else c;
    v.(perturb := stepped.(chosen := Scalar(next)))
  }

  /** The neighbourhood one generation moves to, by whether the same individual survived. */
  function Rotate(c: int, survived: bool, n: nat): int {
    var bumped := if survived then c + 1 else 0;
    if bumped >= n || bumped < 0 then 0 else bumped
  }

  /** A generation (selection, then parameter update) moves the index exactly as `Rotate` says. */
  lemma GenerationRotates(v: Vns, population: seq<Individual>, chosen: seq<Individual>, progress: real)
    requires Valid(v) && |population| > 0 && |chosen| > 0
    ensures Current(UpdateParams(SelectIndividuals(v, population, chosen).value.state, progress))
            == Rotate(Current(v), chosen[0].id == population[0].id, Neighbourhoods(v))
  {
  }

  /** The index after `k` generations in which the same individual survived every time. */
  function KeptFor(c: int, n: nat, k: nat): int {
    if k == 0 then c else Rotate(KeptFor(c, n, k - 1), true, n)
  }

  /**
   * While the same individual keeps surviving, the neighbourhoods are
   * visited in turn and the index cycles 0, 1, ..., n - 1, 0, ...
   */
  lemma {:induction false} KeptCycles(c: int, n: nat, k: nat)
    requires 0 <= c < n
    ensures KeptFor(c, n, k) == (c + k) % n
  {
    if k > 0 {
      KeptCycles(c, n, k - 1);
      ModSuccessor(c + k - 1, n);
    }
  }

  /** Counting on by one modulo `n` wraps from `n - 1` to 0. */
  lemma ModSuccessor(a: int, n: int)
    requires a >= 0 && n > 0
    ensures (a + 1) % n == if a % n + 1 == n then 0 else a % n + 1
  {
    var q, r := a / n, a % n;
    if r + 1 == n {
      ModUnique(a + 1, n, q + 1, 0);
    } else {
      ModUnique(a + 1, n, q, r + 1);
    }
  }

  /** A remainder in `[0, n)` of some division of `a` by `n` is `a % n`. */
  lemma ModUnique(a: int, n: int, q: int, r: int)
    requires n > 0 && 0 <= r < n && a == q * n + r
    ensures a % n == r
  {
    var q', r' := a / n, a % n;
    assert q' * n + r' == q * n + r;
    assert (q - q') * n == q * n - q' * n;
    if q > q' {
      MulAtLeast(q - q', n);
    } else if q < q' {
      MulAtLeast(q' - q, n);
    }
  }

  lemma MulAtLeast(d: int, n: int)
    requires d >= 1 && n > 0
    ensures d * n >= n
  {
    assert d * n == (d - 1) * n + n;
  }

  /** A new individual surviving sends the search back to the first neighbourhood. */
  lemma NewSurvivorResets(c: int, n: nat)
    requires n > 0
    ensures Rotate(c, false, n) == 0
  {
  }

  /**
   * The perturbation of a generation applies the operator of the current
   * neighbourhood (with the PICK index test the right way round), and the
   * perturbation leaves the index where it was.
   */
  lemma PerturbUsesCurrent(v: Vns, runs: seq<SingleRun>, x: Individual, ctx: Context, u: real, i: int)
    requires Valid(v) && |runs| == Neighbourhoods(v)
    requires 0 <= Current(v) < Neighbourhoods(v)
    ensures EvolveSingleCorrected(v.perturb, runs, x, ctx, u, i) == Ok(SingleOutcome(v.perturb.chosen, runs[Current(v)](x, ctx)))
  {
  }

  /** As the code is written, the perturbation itself always raises `TypeError`, whatever the index. */
  lemma PerturbAsWrittenFails(v: Vns, runs: seq<SingleRun>, x: Individual, ctx: Context, u: real, i: int)
    requires Valid(v) && |runs| == Neighbourhoods(v)
    ensures EvolveSingle(v.perturb, runs, x, ctx, u, i).Err?
    ensures EvolveSingle(v.perturb, runs, x, ctx, u, i).error.TypeError?
  {
  }

  // ---------------------------------------------------------------------------
  // The best individual
  // ---------------------------------------------------------------------------

  /** `max(xs, key=fitness)`: the first individual of greatest fitness. */
  function FirstBest(xs: seq<Individual>): (i: nat)
    requires |xs| > 0
    ensures i < |xs|
    ensures forall j :: 0 <= j < |xs| ==> xs[j].fitness <= xs[i].fitness
    ensures forall j :: 0 <= j < i ==> xs[j].fitness < xs[i].fitness
  {
    if |xs| == 1 then 0
    else
      var k := FirstBest(xs[..|xs| - 1]);
      if xs[|xs| - 1].fitness > xs[k].fitness then |xs| - 1 else k
  }

  /**
   * The best-update rule at the end of `perturb`: the first offspring of
   * greatest fitness replaces `best` only if it is strictly fitter, so a
   * tie keeps the old best. No offspring at all makes `max` raise.
   */
  function UpdateBest(best: Individual, offspring: seq<Individual>): (r: Result<Individual>)
    ensures r.Err? <==> |offspring| == 0
    ensures r.Err? ==> r.error == ValueError("max() arg is an empty sequence")
    ensures r.Ok? ==> r.value.fitness >= best.fitness
    ensures r.Ok? ==> forall j :: 0 <= j < |offspring| ==> offspring[j].fitness <= r.value.fitness
    ensures r.Ok? && (forall j :: 0 <= j < |offspring| ==> offspring[j].fitness <= best.fitness) ==> r.value == best
    ensures r.Ok? && (exists j :: 0 <= j < |offspring| && offspring[j].fitness > best.fitness) ==>
              exists i :: 0 <= i < |offspring| && r.value == offspring[i] && forall j :: 0 <= j < i ==> offspring[j].fitness < offspring[i].fitness
  {
    if |offspring| == 0 then Err(ValueError("max() arg is an empty sequence"))
    else
      var i := FirstBest(offspring);
      if best.fitness < offspring[i].fitness then Ok(offspring[i]) else Ok(best)
  }

  /** The best individual after a run of generations, each producing the offspring in `batches`. */
  function TrackBest(best: Individual, batches: seq<seq<Individual>>): Result<Individual> {
    if |batches| == 0 then Ok(best)
    else
      match TrackBest(best, batches[..|batches| - 1])
      case Err(e) => Err(e)
      case Ok(b) => UpdateBest(b, batches[|batches| - 1])
  }

  /**
   * Across generations the best fitness never decreases, and it is at
   * least the fitness of every offspring ever produced.
   */
  lemma {:induction false} TrackBestMonotone(best: Individual, batches: seq<seq<Individual>>)
    requires TrackBest(best, batches).Ok?
    ensures TrackBest(best, batches).value.fitness >= best.fitness
    ensures forall g, j :: 0 <= g < |batches| && 0 <= j < |batches[g]| ==>
              batches[g][j].fitness <= TrackBest(best, batches).value.fitness
  {
    if |batches| > 0 {
      var init := batches[..|batches| - 1];
      TrackBestMonotone(best, init);
      var b := TrackBest(best, init).value;
      var r := TrackBest(best, batches).value;
      assert r.fitness >= b.fitness;
      forall g, j | 0 <= g < |batches| && 0 <= j < |batches[g]| ensures batches[g][j].fitness <= r.fitness {
        if g < |init| {
          assert batches[g] == init[g];
        }
      }
    }
  }
}
