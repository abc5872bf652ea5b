/**
 * `differential_evolution`: how the ready-made DE search is configured
 * from a parameter dictionary. The encoding picks one of three variants,
 * and each variant checks the DE strategy name, fills in defaults and
 * builds the initializer and the DE operator.
 */
module DifferentialEvolution {
  import opened Results
  import opened Text
  import Initializers

  /** The three genotype encodings the entry point offers. */
  datatype Kind = RealVector | IntVector | BinVector

  function KindName(k: Kind): string {
    match k
    case RealVector => "real"
    case IntVector => "int"
    case BinVector => "bin"
  }

  /**
   * The encoding named in the parameters (`"real"` when absent), compared
   * without regard to case; any other name raises `ValueError` quoting
   * the name as given.
   */
  function ResolveKind(encoding: Option<string>): (r: Result<Kind>)
    ensures forall k :: r == Ok(k) <==> Lower(encoding.GetOr("real")) == KindName(k)
    ensures r.Err? ==> r.error == ValueError("The encoding \"" + encoding.GetOr("real")
                                             + "\" does not exist, try \"real\", \"int\" or \"bin\"")
  {
    var s := encoding.GetOr("real");
    var l := Lower(s);
    if l == "real" then Ok(RealVector)
    else if l == "int" then Ok(IntVector)
    else if l == "bin" then Ok(BinVector)
    else Err(ValueError("The encoding \"" + s + "\" does not exist, try \"real\", \"int\" or \"bin\""))
  }

  /** An absent encoding means real vectors. */
  lemma DefaultKindIsReal()
    ensures ResolveKind(None) == Ok(RealVector)
  {
    assert Lower("real") == "real";
  }

  /** Every kind is found again from its own name, in any letter case. */
  lemma KindRoundTrip(k: Kind, s: string)
    requires Lower(s) == KindName(k)
    ensures ResolveKind(Some(s)) == Ok(k)
  {
  }

  /** The seven DE strategies. */
  datatype Strategy =
    | Rand1 | Best1 | Rand2 | Best2 | CurrentToRand1 | CurrentToBest1 | CurrentToPBest1

  function StrategyName(s: Strategy): string {
    match s
    case Rand1 => "de/rand/1"
    case Best1 => "de/best/1"
    case Rand2 => "de/rand/2"
    case Best2 => "de/best/2"
    case CurrentToRand1 => "de/current-to-rand/1"
    case CurrentToBest1 => "de/current-to-best/1"
    case CurrentToPBest1 => "de/current-to-pbest/1"
  }

  /**
   * The strategy check every variant makes: the name must be one of the
   * seven exactly, letter case included.
   */
  function StrategyFromName(name: string): (r: Result<Strategy>)
    ensures forall s :: r == Ok(s) <==> name == StrategyName(s)
    ensures r.Err? ==> r.error == ValueError("Differential evolution strategy \"" + name + "\" does not exist.")
  {
    if name == "de/rand/1" then Ok(Rand1)
    else if name == "de/best/1" then Ok(Best1)
    else if name == "de/rand/2" then Ok(Rand2)
    else if name == "de/best/2" then Ok(Best2)
    else if name == "de/current-to-rand/1" then Ok(CurrentToRand1)
    else if name == "de/current-to-best/1" then Ok(CurrentToBest1)
    else if name == "de/current-to-pbest/1" then Ok(CurrentToPBest1)
    else Err(ValueError("Differential evolution strategy \"" + name + "\" does not exist."))
  }

  /** Each strategy's name is accepted and names that strategy. */
  lemma StrategyRoundTrip(s: Strategy)
    ensures StrategyFromName(StrategyName(s)) == Ok(s)
  {
  }

  /** The check is case-sensitive: the upper-case spelling of a strategy is refused. */
  lemma StrategyIsCaseSensitive()
    ensures StrategyFromName("DE/best/1").Err?
  {
    assert "DE/best/1" != StrategyName(Best1);
  }

  /** The keys the entry point reads; each may be absent. */
  datatype DeParams = DeParams(
    encoding: Option<string>,
    popSize: Option<int>,
    f: Option<real>,
    cr: Option<real>,
    deType: Option<string>)

  /** The DE operator: the strategy name it is built from and its `F` and `Cr` parameters. */
  datatype DeOperator = DeOperator(deType: string, f: real, cr: real)

  /** What a variant builds: the initializer and the DE operator of the search. */
  datatype DeSearch = DeSearch(kind: Kind, initializer: Initializers.Initializer, operator: DeOperator)

  /** The encoding each variant hands the initializer: none for reals, a cast from floats otherwise. */
  function KindEncoding(k: Kind): Option<Initializers.Encoding> {
    match k
    case RealVector => None
    case IntVector => Some(Initializers.TypeCastEncoding(Initializers.Float, Initializers.Int))
    case BinVector => Some(Initializers.TypeCastEncoding(Initializers.Float, Initializers.Bool))
  }

  /**
   * One of `_differential_evolution_*_vec`: population 100, `F` 0.8, `Cr`
   * 0.9 and strategy `"de/best/1"` unless the parameters say otherwise;
   * the strategy is checked; the initializer gets the population size and
   * the variant's encoding; the operator gets the strategy, `F` and `Cr`.
   */
  function Variant(k: Kind, params: DeParams): (r: Result<DeSearch>)
    ensures r.Err? <==> StrategyFromName(params.deType.GetOr("de/best/1")).Err?
    ensures r.Err? ==> r.error == StrategyFromName(params.deType.GetOr("de/best/1")).error
    ensures r.Ok? ==> r.value.kind == k
    ensures r.Ok? ==> r.value.initializer.popSize == (if params.popSize.None? then 100 else params.popSize.value)
    ensures r.Ok? ==> r.value.operator.f == (if params.f.None? then 0.8 else params.f.value)
    ensures r.Ok? ==> r.value.operator.cr == (if params.cr.None? then 0.9 else params.cr.value)
    ensures r.Ok? ==> r.value.operator.deType == (if params.deType.None? then "de/best/1" else params.deType.value)
    ensures r.Ok? && k == RealVector ==> r.value.initializer.encoding == Initializers.DefaultEncoding
    ensures r.Ok? && k == IntVector ==> r.value.initializer.encoding == Initializers.TypeCastEncoding(Initializers.Float, Initializers.Int)
    ensures r.Ok? && k == BinVector ==> r.value.initializer.encoding == Initializers.TypeCastEncoding(Initializers.Float, Initializers.Bool)
  {
    var popSize := params.popSize.GetOr(100);
    var f := params.f.GetOr(0.8);
    var cr := params.cr.GetOr(0.9);
    var deType := params.deType.GetOr("de/best/1");
    match StrategyFromName(deType)
    case Err(e) => Err(e)
    case Ok(_) =>
      Ok(DeSearch(k, Initializers.New(Some(popSize), KindEncoding(k)), DeOperator(deType, f, cr)))
  }

  /**
   * `differential_evolution(objfunc, params)`: resolve the encoding, then
   * configure that variant. A bad encoding is reported before a bad
   * strategy.
   */
  function Configure(params: DeParams): (r: Result<DeSearch>)
    ensures ResolveKind(params.encoding).Err? ==> r == Err(ResolveKind(params.encoding).error)
    ensures ResolveKind(params.encoding).Ok? ==> r == Variant(ResolveKind(params.encoding).value, params)
  {
    match ResolveKind(params.encoding)
    case Err(e) => Err(e)
    case Ok(k) => Variant(k, params)
  }

  /** With an empty dictionary: real vectors, 100 individuals, F 0.8, Cr 0.9, strategy de/best/1. */
  lemma EmptyParamsDefaults()
    ensures Configure(DeParams(None, None, None, None, None))
            == Ok(DeSearch(RealVector, Initializers.Initializer(100, Initializers.DefaultEncoding), DeOperator("de/best/1", 0.8, 0.9)))
  {
    DefaultKindIsReal();
  }

  /** The three variants differ only in the encoding: same strategy check, same defaults, same operator. */
  lemma VariantsAgree(k1: Kind, k2: Kind, params: DeParams)
    ensures Variant(k1, params).Ok? <==> Variant(k2, params).Ok?
    ensures Variant(k1, params).Ok? ==>
              && Variant(k1, params).value.operator == Variant(k2, params).value.operator
              && Variant(k1, params).value.initializer.popSize == Variant(k2, params).value.initializer.popSize
  {
  }
}
