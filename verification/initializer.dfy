/**
 * `Initializer`: the population size and encoding an initializer carries,
 * and how many individuals `generate_population` produces.
 */
module Initializers {
  import opened Results
  import opened Populations

  /** The scalar types an encoding casts between. */
  datatype ScalarType = Float | Int | Bool

  /** The encoding an initializer hands its individuals to. */
  datatype Encoding = DefaultEncoding | TypeCastEncoding(source: ScalarType, target: ScalarType)

  datatype Initializer = Initializer(popSize: int, encoding: Encoding)

  /** `Initializer.__init__`: one individual and the default encoding unless told otherwise. */
  function New(popSize: Option<int>, encoding: Option<Encoding>): (r: Initializer)
    ensures popSize.None? ==> r.popSize == 1
    ensures popSize.Some? ==> r.popSize == popSize.value
    ensures encoding.None? ==> r.encoding == DefaultEncoding
    ensures encoding.Some? ==> r.encoding == encoding.value
  {
    Initializer(popSize.GetOr(1), encoding.GetOr(DefaultEncoding))
  }

  /**
   * `generate_individual`: by default it is `generate_random`, whose
   * `i`-th call (an opaque random draw) is `random(i)`.
   */
  function GenerateIndividual(random: nat -> Individual, i: nat): Individual {
    random(i)
  }

  /**
   * `generate_population`: `n_indiv` individuals, or `pop_size` of them
   * when `n_indiv` is not given, each from its own call of
   * `generate_individual`, in order. A negative count gives no individual,
   * as `range` does.
   */
  method GeneratePopulation(init: Initializer, nIndiv: Option<int>, random: nat -> Individual) returns (pop: seq<Individual>)
    ensures var n := nIndiv.GetOr(init.popSize); |pop| == if n < 0 then 0 else n
    ensures forall i :: 0 <= i < |pop| ==> pop[i] == GenerateIndividual(random, i)
  {
    var n := if nIndiv.None? then init.popSize else nIndiv.value;
    pop := [];
    var i := 0;
    while i < n
      invariant 0 <= i && (n < 0 ==> i == 0) && (n >= 0 ==> i <= n)
      invariant |pop| == i
      invariant forall k :: 0 <= k < i ==> pop[k] == GenerateIndividual(random, k)
    {
      pop := pop + [GenerateIndividual(random, i)];
      i := i + 1;
    }
  }
}
