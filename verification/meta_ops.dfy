/**
 * Construction, naming, `step` and `get_state` of the meta-operator
 * (OperatorMeta.py). How a meta-operator transforms a population is in
 * module MetaEvolve; how it transforms one individual is in MetaSingle.
 */
module MetaOps {
  import opened Results
  import opened Text

  /** The closed set of combinators. */
  datatype Method = Branch | Sequence | Split | Pick

  /** The lower-case name under which each combinator is registered. */
  function MethodName(m: Method): string {
    match m
    case Branch => "branch"
    case Sequence => "sequence"
    case Split => "split"
    case Pick => "pick"
  }

  /**
   * `MetaOpMethods.from_str`: lower-cases the input and looks it up among
   * the four registered names; any other string is a ValueError.
   */
  function MethodFromStr(s: string): (r: Result<Method>)
    ensures forall m :: r == Ok(m) <==> Lower(s) == MethodName(m)
    ensures r.Err? ==> r.error == ValueError("Operator on operators \"" + Lower(s) + "\" not defined")
  {
    var key := Lower(s);
    if key == "branch" then Ok(Branch)
    else if key == "sequence" then Ok(Sequence)
    else if key == "split" then Ok(Split)
    else if key == "pick" then Ok(Pick)
    else Err(ValueError("Operator on operators \"" + key + "\" not defined"))
  }

  /** Looking up a combinator's own name finds that combinator. */
  lemma MethodNameRoundTrip(m: Method)
    ensures MethodFromStr(MethodName(m)) == Ok(m)
  {
  }

  /** The lookup ignores case: a name and its lower-case form resolve alike. */
  lemma {:induction false} MethodFromStrIgnoresCase(s: string)
    ensures MethodFromStr(s) == MethodFromStr(Lower(s))
  {
    LowerIdempotent(s);
  }

  /** The per-individual routing index `chosen_idx`: one shared index or one per row. */
  datatype Index = Scalar(at: int) | PerRow(indices: seq<int>)

  /** The SPLIT mask: one value broadcast to every gene, or one value per gene. */
  datatype Mask = Uniform(value: int) | PerColumn(columns: seq<int>)

  /** The keys of the parameter dictionary the meta-operator reads; `None` is an absent key. */
  datatype Params = Params(p: Option<real>, weights: Option<seq<real>>, mask: Option<Mask>, initIdx: Option<Index>)

  /** `n` copies of the weight 1. */
  function Ones(n: nat): (w: seq<real>)
    ensures |w| == n && forall i :: 0 <= i < n ==> w[i] == 1.0
  {
    seq(n, _ => 1.0)
  }

  /** The parameters used when none are given, for `n` children. */
  function DefaultParams(n: nat): (ps: Params)
    ensures ps.p == Some(0.5)
    ensures ps.weights.Some? && |ps.weights.value| == n
    ensures forall i :: 0 <= i < n ==> ps.weights.value[i] == 1.0
    ensures ps.mask == Some(Uniform(0)) && ps.initIdx == Some(Scalar(-1))
  {
    Params(Some(0.5), Some(Ones(n)), Some(Uniform(0)), Some(Scalar(-1)))
  }

  /**
   * The two-child BRANCH rule: a probability `p` given without `weights`
   * becomes the weights `[p, 1 - p]`; in every other case the parameters
   * are left as they are.
   */
  function WeightRule(m: Method, ps: Params, n: nat): (r: Params)
    ensures r.p == ps.p && r.mask == ps.mask && r.initIdx == ps.initIdx
    ensures m == Branch && ps.weights.None? && ps.p.Some? && n == 2 ==>
              r.weights == Some([ps.p.value, 1.0 - ps.p.value])
    ensures !(m == Branch && ps.weights.None? && ps.p.Some? && n == 2) ==> r == ps
  {
    if m == Branch && ps.weights.None? && ps.p.Some? && n == 2 then
      ps.(weights := Some([ps.p.value, 1.0 - ps.p.value]))
    else ps
  }

  /** An operator: a primitive one (from another module) or a meta-operator. */
  datatype Operator =
    | Primitive(name: string, steps: seq<real>)
    | Meta(meta: MetaOperator)

  /** An entry of the child list: an `Operator`, or some other callable. */
  datatype Child = Op(op: Operator) | Lambda

  /**
   * A meta-operator: its combinator, its children, its parameters, its
   * display name, the routing state `chosen_idx` and `mask`, and the
   * progress values its parameter schedule has been stepped with.
   */
  datatype MetaOperator = MetaOperator(
    combinator: Method,
    children: seq<Child>,
    params: Params,
    name: string,
    chosen: Index,
    mask: Mask,
    steps: seq<real>)

  function Name(op: Operator): string {
    match op
    case Primitive(n, _) => n
    case Meta(m) => m.name
  }

  /** The names of the children as the automatic name lists them. */
  function ChildNames(cs: seq<Child>): (names: seq<string>)
    ensures |names| == |cs|
    ensures forall i :: 0 <= i < |cs| ==> names[i] == (if cs[i].Lambda? then "lambda_func" else Name(cs[i].op))
  {
    seq(|cs|, i requires 0 <= i < |cs| => if cs[i].Lambda? then "lambda_func" else Name(cs[i].op))
  }

  /** The name given when none is: the method string as written, then the child names in parentheses. */
  function AutoName(methodName: string, cs: seq<Child>): string {
    methodName + "(" + Join(ChildNames(cs), ", ") + ")"
  }

  /** `OperatorMeta.__init__`. */
  function New(methodName: string, children: seq<Child>, params: Option<Params>, name: Option<string>): (r: Result<MetaOperator>)
    ensures r.Err? <==> MethodFromStr(methodName).Err?
    ensures r.Err? ==> r.error == MethodFromStr(methodName).error
    ensures r.Ok? ==> r.value.combinator == MethodFromStr(methodName).value && r.value.children == children
    ensures r.Ok? ==> r.value.name == name.GetOr(AutoName(methodName, children))
    ensures r.Ok? ==> r.value.chosen == params.GetOr(DefaultParams(|children|)).initIdx.GetOr(Scalar(-1))
    ensures r.Ok? ==> r.value.mask == params.GetOr(DefaultParams(|children|)).mask.GetOr(Uniform(0))
    ensures r.Ok? ==> r.value.params == WeightRule(r.value.combinator, params.GetOr(DefaultParams(|children|)), |children|)
    ensures r.Ok? ==> r.value.steps == []
  {
    var ps := if params.None? then DefaultParams(|children|) else params.value;
    var nm := if name.None? then AutoName(methodName, children) else name.value;
    match MethodFromStr(methodName)
    case Err(e) => Err(e)
    case Ok(m) =>
      Ok(MetaOperator(m, children, WeightRule(m, ps, |children|), nm,
                      ps.initIdx.GetOr(Scalar(-1)), ps.mask.GetOr(Uniform(0)), []))
  }

  /** With no parameters the routing index starts at -1, the mask at 0 and each weight at 1. */
  lemma DefaultsWithoutParams(methodName: string, children: seq<Child>, name: Option<string>)
    requires MethodFromStr(methodName).Ok?
    ensures New(methodName, children, None, name).Ok?
    ensures New(methodName, children, None, name).value.chosen == Scalar(-1)
    ensures New(methodName, children, None, name).value.mask == Uniform(0)
    ensures New(methodName, children, None, name).value.params.weights == Some(Ones(|children|))
  {
  }

  /** A two-child BRANCH built from `{"p": p}` routes with weights `[p, 1 - p]`, which sum to one. */
  lemma BranchFromProbability(children: seq<Child>, p: real)
    requires |children| == 2
    ensures New("Branch", children, Some(Params(Some(p), None, None, None)), None).Ok?
    ensures New("Branch", children, Some(Params(Some(p), None, None, None)), None).value.params.weights == Some([p, 1.0 - p])
  {
    assert Lower("Branch") == MethodName(Branch);
    assert MethodFromStr("Branch") == Ok(Branch);
  }

  /**
   * `after` is `before` with one more progress value recorded at every
   * operator node of the tree and nothing else changed.
   */
  ghost predicate SteppedOnce(before: Operator, after: Operator, progress: real)
    decreases before
  {
    match before
    case Primitive(n, s) => after == Primitive(n, s + [progress])
    case Meta(m) =>
      && after.Meta?
      && after.meta.combinator == m.combinator
      && after.meta.params == m.params
      && after.meta.name == m.name
      && after.meta.chosen == m.chosen
      && after.meta.mask == m.mask
      && after.meta.steps == m.steps + [progress]
      && |after.meta.children| == |m.children|
      && forall i :: 0 <= i < |m.children| ==>
           if m.children[i].Lambda? then after.meta.children[i] == Lambda
           else after.meta.children[i].Op? && SteppedOnce(m.children[i].op, after.meta.children[i].op, progress)
  }

  /**
   * `step(progress)`: the operator's own schedule is advanced and then
   * every child that is an `Operator` is stepped; other callables are skipped.
   */
  function Step(op: Operator, progress: real): (r: Operator)
    ensures SteppedOnce(op, r, progress)
    decreases op, 1
  {
    match op
    case Primitive(n, s) => Primitive(n, s + [progress])
    case Meta(m) => Meta(StepMeta(m, progress))
  }

  function StepMeta(m: MetaOperator, progress: real): (r: MetaOperator)
    ensures SteppedOnce(Meta(m), Meta(r), progress)
    decreases m, 0
  {
    m.(steps := m.steps + [progress],
       children := seq(|m.children|, i requires 0 <= i < |m.children| =>
                         if m.children[i].Lambda? then Lambda else Op(Step(m.children[i].op, progress))))
  }

  /** Number of operator nodes in a tree. */
  function Nodes(op: Operator): nat
    decreases op, 1
  {
    match op
    case Primitive(_, _) => 1
    case Meta(m) => 1 + ChildNodes(m, |m.children|)
  }

  /** Number of operator nodes among the first `k` children. */
  function ChildNodes(m: MetaOperator, k: nat): nat
    requires k <= |m.children|
    decreases m, 0, k
  {
    if k == 0 then 0
    else ChildNodes(m, k - 1) + (if m.children[k - 1].Lambda? then 0 else Nodes(m.children[k - 1].op))
  }

  /** Number of progress values recorded across a tree. */
  function TotalSteps(op: Operator): nat
    decreases op, 1
  {
    match op
    case Primitive(_, s) => |s|
    case Meta(m) => |m.steps| + ChildSteps(m, |m.children|)
  }

  /** Number of progress values recorded among the first `k` children. */
  function ChildSteps(m: MetaOperator, k: nat): nat
    requires k <= |m.children|
    decreases m, 0, k
  {
    if k == 0 then 0
    else ChildSteps(m, k - 1) + (if m.children[k - 1].Lambda? then 0 else TotalSteps(m.children[k - 1].op))
  }

  /** One `step` records exactly one progress value per operator node of the tree. */
  lemma {:induction false} StepCountsEveryNode(op: Operator, progress: real)
    ensures TotalSteps(Step(op, progress)) == TotalSteps(op) + Nodes(op)
    decreases op, 1
  {
    match op
    case Primitive(_, _) =>
    case Meta(m) => StepCountsChildren(m, progress, |m.children|);
  }

  lemma {:induction false} StepCountsChildren(m: MetaOperator, progress: real, k: nat)
    requires k <= |m.children|
    ensures ChildSteps(StepMeta(m, progress), k) == ChildSteps(m, k) + ChildNodes(m, k)
    decreases m, 0, k
  {
    if k > 0 {
      StepCountsChildren(m, progress, k - 1);
      if m.children[k - 1].Op? {
        StepCountsEveryNode(m.children[k - 1].op, progress);
      }
    }
  }

  /**
   * The automatic name is the method name, the child names separated by
   * `", "`, and the two parentheses, nothing more.
   */
  lemma AutoNameLength(methodName: string, cs: seq<Child>)
    requires |cs| > 0
    ensures |AutoName(methodName, cs)| == |methodName| + 2 + TotalLength(ChildNames(cs)) + 2 * (|cs| - 1)
    ensures AutoName(methodName, cs)[..|methodName| + 1] == methodName + "("
    ensures AutoName(methodName, cs)[|AutoName(methodName, cs)| - 1] == ')'
  {
    JoinLength(ChildNames(cs), ", ");
  }

  /** The automatic name of a PICK over an operator named "a" and a plain callable. */
  lemma AutoNameExample()
    ensures AutoName("Pick", [Op(Primitive("a", [])), Lambda]) == "Pick(a, lambda_func)"
  {
    assert ChildNames([Op(Primitive("a", [])), Lambda]) == ["a", "lambda_func"];
  }

  /** The state a checkpoint records: the name, and for a meta-operator one entry per child. */
  datatype State = State(name: string, opList: Option<seq<Entry>>)
  datatype Entry = Nested(state: State) | LambdaFunc

  /** `get_state()`. */
  function GetState(op: Operator): (r: State)
    ensures r.name == Name(op)
    ensures r.opList.Some? <==> op.Meta?
    ensures op.Meta? ==> |r.opList.value| == |op.meta.children|
    ensures op.Meta? ==> forall i :: 0 <= i < |op.meta.children| ==>
              (op.meta.children[i].Lambda? <==> r.opList.value[i] == LambdaFunc)
    ensures op.Meta? ==> forall i :: 0 <= i < |op.meta.children| && op.meta.children[i].Op? ==>
              r.opList.value[i] == Nested(GetState(op.meta.children[i].op))
    decreases op
  {
    match op
    case Primitive(n, _) => State(n, None)
    case Meta(m) =>
      State(m.name, Some(seq(|m.children|, i requires 0 <= i < |m.children| =>
                               if m.children[i].Lambda? then LambdaFunc else Nested(GetState(m.children[i].op)))))
  }

  /**
   * `step` leaves unchanged the names and the `op_list` entries that
   * `get_state` adds, at every level of the tree. What the base state
   * records about an advanced schedule is abstracted to the name here,
   * so this says nothing about that part of the checkpoint.
   */
  lemma {:induction false} GetStateIgnoresStep(op: Operator, progress: real)
    ensures GetState(Step(op, progress)) == GetState(op)
    decreases op
  {
    match op
    case Primitive(_, _) =>
    case Meta(m) =>
      var stepped := StepMeta(m, progress);
      assert Step(op, progress) == Meta(stepped);
      var a := GetState(Meta(stepped)).opList.value;
      var b := GetState(op).opList.value;
      forall i | 0 <= i < |m.children|
        ensures a[i] == b[i]
      {
        if m.children[i].Op? {
          var child := m.children[i].op;
          assert stepped.children[i] == Op(Step(child, progress));
          GetStateIgnoresStep(child, progress);
        }
      }
      assert a == b;
  }
}
