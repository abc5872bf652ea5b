# Meta-operators, VNS rotation and DE configuration of PyEvolComp, in Dafny

This project models the parts of PyEvolComp (metaheuristic_designer) that
compose search operators and configure searches:

- **`OperatorMeta`**: a meta-operator combines child operators with one of
  four combinators.
  - BRANCH routes each row of the population to a randomly drawn child.
  - PICK routes rows by a stored index, either one scalar or a per-row array.
  - SEQUENCE applies the children one after another.
  - SPLIT routes columns (genes) by a mask.

  The model also covers the case-insensitive combinator lookup, the
  constructor's defaults, automatic naming, the two-child `p → [p, 1 - p]`
  weight rule, `step`, and `get_state`. Both `evolve` (a whole population)
  and `evolve_single` (one individual) are modelled.
- **`VNS`**:
  - the population-size correction;
  - the PICK perturbation operator starting at neighbourhood 0;
  - the rotation of the neighbourhood index and its wrap-around;
  - the best-individual update.
- **`differential_evolution`**:
  - the case-insensitive encoding dispatch, defaulting to `"real"`;
  - the case-sensitive check against the seven DE strategies;
  - the defaults (100 / 0.8 / 0.9 / `de/best/1`);
  - the encoding each variant hands its initializer.
- **`Initializer`**: its defaults, and the size contract of `generate_population`.

How the model is set up:

- **Populations** are pure values: a genotype matrix and a speed matrix
  (`Populations`).
- **Child operators** are opaque functions that keep the shape of what they
  are given. They are passed as `runs`, next to the operator tree that
  `step`/`get_state` walk.
- **Random draws** are inputs:
  - the per-row draw of numpy's `choice` is `draw`;
  - the `random()` sample behind `random.choices` is `u`;
  - the individuals `generate_random` returns come from `random(i)`.
- **Routing** is shared by rows and columns. `Routing.Select` is numpy's
  `xs[route == k]` and `Routing.Scatter` is `xs[route == k] = ys`.
  `RowRouting` uses them for BRANCH and PICK, `ColumnRouting` for SPLIT.
- **Child calls** are recorded in a trace (`Traces`). This lets the contracts
  say that a child with no rows or genes is never invoked.
- **Exceptions** are `Result` values (`Results`), not preconditions.

Modules and files:

| module | file | models |
|---|---|---|
| Results, Text | results.dfy, text.dfy | exceptions as values; ASCII lower-casing; `", ".join` |
| Populations, Routing, Traces | populations.dfy, routing.dfy, traces.dfy | matrices, boolean-mask selection and write-back, call traces |
| RowRouting, ColumnRouting | row_routing.dfy, column_routing.dfy | the routing loops of BRANCH/PICK (rows) and SPLIT (columns) |
| MetaOps | meta_ops.dfy | `MetaOpMethods`, `OperatorMeta.__init__`, `step`, `get_state` |
| Weights | weights.dfy | numpy `choice`'s probability checks; `random.choices` (checks, running totals, bisection) |
| MetaEvolve | meta_evolve.dfy | `OperatorMeta.evolve` |
| MetaSingle | meta_single.dfy | `OperatorMeta.evolve_single` |
| Initializers | initializer.dfy | `Initializer` |
| Vns | vns.dfy | `VNS` |
| DifferentialEvolution | differential_evolution.dfy | `differential_evolution` |

Two places where the code contradicts itself are modelled twice: once as
written, and once corrected (see Findings).

- **BRANCH weights.** `evolve_single` reads BRANCH's weights as relative
  weights, through `random.choices` (OperatorMeta.py:170). `evolve` hands the
  same weights to numpy as probabilities (OperatorMeta.py:103), so the
  default `[1] * n` is refused there. `MetaEvolve.Evolve` is the code as
  written and `MetaEvolve.EvolveCorrected` normalises the weights.
- **PICK in `evolve_single`.** `evolve` subscripts the index when it is an
  array and broadcasts it when it is a scalar (OperatorMeta.py:117-120).
  `evolve_single` makes the test the other way round (OperatorMeta.py:176),
  so it always raises. `MetaSingle.EvolveSingle` is the code as written and
  `MetaSingle.EvolveSingleCorrected` makes the test as `evolve` does.

## Model

| member | source | states |
|---|---|---|
| MetaOps.MethodFromStr | src/metaheuristic_designer/operators/OperatorMeta.py:19-33 | the result is combinator `m` exactly when the lower-cased input is `m`'s name; otherwise ValueError quoting the lower-cased input |
| MetaOps.MethodNameRoundTrip | src/metaheuristic_designer/operators/OperatorMeta.py:28-33 | every combinator is found again from its own name |
| MetaOps.MethodFromStrIgnoresCase | src/metaheuristic_designer/operators/OperatorMeta.py:20 | the lookup of a string and of its lower-cased form agree, so letter case never matters |
| Text.Lower | src/metaheuristic_designer/operators/OperatorMeta.py:20 | `str.lower` on ASCII: same length; each upper-case letter mapped to its lower-case letter and every other character kept |
| Text.LowerIdempotent | src/metaheuristic_designer/operators/OperatorMeta.py:20 | a lower-cased string has no upper-case letter, and lower-casing it again changes nothing |
| MetaOps.DefaultParams | src/metaheuristic_designer/operators/OperatorMeta.py:65-72 | without parameters: p = 0.5, n weights each 1, mask 0, init_idx -1 |
| MetaOps.WeightRule | src/metaheuristic_designer/operators/OperatorMeta.py:93-95 | a BRANCH of exactly two children with `p` and no `weights` gets weights `[p, 1 - p]`; in every other case the parameters are left untouched |
| MetaOps.New | src/metaheuristic_designer/operators/OperatorMeta.py:52-95 | an unknown method raises the lookup's error; otherwise the given name, or the automatic one; chosen_idx from init_idx (default -1); mask (default 0); parameters after the weight rule |
| MetaOps.DefaultsWithoutParams | src/metaheuristic_designer/operators/OperatorMeta.py:65-91 | built without parameters, a meta-operator starts with chosen_idx -1, mask 0 and n weights of 1 |
| MetaOps.BranchFromProbability | src/metaheuristic_designer/operators/OperatorMeta.py:93-95 | a two-child BRANCH given only `p` ends up with weights `[p, 1 - p]` |
| MetaOps.AutoNameLength | src/metaheuristic_designer/operators/OperatorMeta.py:82-83 | the automatic name is the method name, `(`, the child names separated by `", "`, and `)`, with nothing else in it |
| MetaOps.AutoNameExample | src/metaheuristic_designer/operators/OperatorMeta.py:74-83 | a PICK over an operator named `a` and a plain callable is named `Pick(a, lambda_func)` |
| Text.JoinLength | src/metaheuristic_designer/operators/OperatorMeta.py:82 | the length of `sep.join(parts)` is the total length of the parts plus one separator between each pair |
| MetaOps.Step | src/metaheuristic_designer/operators/OperatorMeta.py:222-227 | `step` advances the operator's own schedule and every Operator child, recursively; plain callables are skipped and nothing else changes |
| MetaOps.StepCountsEveryNode | src/metaheuristic_designer/operators/OperatorMeta.py:222-227 | one `step` records exactly one progress value at every operator node of the tree |
| MetaOps.GetState | src/metaheuristic_designer/operators/OperatorMeta.py:229-240 | the operator's name plus, for a meta-operator, one entry per child in order: the child's own state for an Operator, `"lambda_func"` otherwise |
| MetaOps.GetStateIgnoresStep | src/metaheuristic_designer/operators/OperatorMeta.py:222-240 | `step` leaves unchanged the names and the `op_list` entries that `get_state` adds (OperatorMeta.py:232-238), at every level of the tree |
| Routing.SelectAt | src/metaheuristic_designer/operators/OperatorMeta.py:107-110 | position `i` is in group `route[i]`, at the place given by how many earlier positions share its index |
| Routing.SelectOfScatter | src/metaheuristic_designer/operators/OperatorMeta.py:113-114 | writing group `k` back replaces group `k` and leaves every other group as it was |
| Routing.ScatterOfSelect | src/metaheuristic_designer/operators/OperatorMeta.py:110-114 | writing a group back unchanged gives back the original sequence |
| Routing.SelectDetermines | src/metaheuristic_designer/operators/OperatorMeta.py:106-114 | the groups of a partition determine the partitioned sequence |
| Routing.SelectConstant | src/metaheuristic_designer/operators/OperatorMeta.py:120 | under a broadcast index, one group holds everything and every other group is empty |
| Traces.TraceShape | src/metaheuristic_designer/operators/OperatorMeta.py:106-111 | the routing loop calls a child exactly when it is due, once, in child order, and on its own input |
| RowRouting.EvolveRows | src/metaheuristic_designer/operators/OperatorMeta.py:102-114 | the shape is kept; the rows of group `j` become child `j`'s output on those rows, in genotype and speed alike; rows whose index names no child are unchanged; a child is called exactly when some row names it, once, in order, on its own rows |
| RowRouting.RouteRowsInvariant | src/metaheuristic_designer/operators/OperatorMeta.py:106-114 | after the loop has visited `k` children, groups below `k` hold the children's outputs, the rest are as in the input, and the calls are those of the first `k` children |
| RowRouting.RowsWithoutChildren | src/metaheuristic_designer/operators/OperatorMeta.py:109 | no child is called exactly when no row's index names a child |
| RowRouting.EvolveRowsIdentity | src/metaheuristic_designer/operators/OperatorMeta.py:106-114 | when every child gives back what it is handed, routing gives back the population unchanged |
| ColumnRouting.EvolveColumns | src/metaheuristic_designer/operators/OperatorMeta.py:150-160 | in every row, the genes of group `j` become child `j`'s output on those genes, under one mask shared by genotype and speed; genes whose mask value names no child are unchanged; a child is called exactly when the mask names it, once, in order |
| ColumnRouting.RouteColumnsInvariant | src/metaheuristic_designer/operators/OperatorMeta.py:152-160 | after the loop has visited `k` children, the genes of groups below `k` hold their outputs and the rest are as in the input, row by row |
| MetaEvolve.Chain | src/metaheuristic_designer/operators/OperatorMeta.py:135-138 | SEQUENCE calls each child once, in order: the first on the population, each later one on what the previous child returned; the result is the last child's output |
| MetaEvolve.ComposeTwo | src/metaheuristic_designer/operators/OperatorMeta.py:135-138 | a sequence of `f` then `g` gives `g(f(p))` |
| MetaEvolve.ComposeAppend | src/metaheuristic_designer/operators/OperatorMeta.py:135-138 | a sequence over `xs + ys` is the sequence over `ys` applied after the one over `xs` |
| MetaEvolve.Broadcast | src/metaheuristic_designer/operators/OperatorMeta.py:119-120 | a scalar index is repeated once for every row |
| MetaEvolve.EvolvePick | src/metaheuristic_designer/operators/OperatorMeta.py:116-133 | a scalar index is broadcast and routed by rows; a per-row array of the right length is routed by rows; an array of the wrong length raises IndexError exactly when it names some child, and otherwise leaves the population alone |
| MetaEvolve.PickOneChild | src/metaheuristic_designer/operators/OperatorMeta.py:116-133 | a scalar index that names child `c` gives the result of child `c` on the whole population |
| MetaEvolve.PickNoChild | src/metaheuristic_designer/operators/OperatorMeta.py:116-133 | a scalar index that names no child, such as the default -1, leaves the population unchanged and calls no child |
| MetaEvolve.EvolveSplit | src/metaheuristic_designer/operators/OperatorMeta.py:150-160 | a scalar mask hands the whole population to that child if it exists and otherwise changes nothing; a per-gene mask that fits is routed by columns; one that does not fit raises IndexError exactly when it names some child |
| MetaEvolve.SplitOneChild | src/metaheuristic_designer/operators/OperatorMeta.py:150-160 | a per-gene mask naming one child everywhere has the same effect as the scalar mask of that child |
| MetaEvolve.Evolve | src/metaheuristic_designer/operators/OperatorMeta.py:97-166 | as written: BRANCH raises KeyError without weights and numpy's error unless the weights are already a probability distribution over the children, and otherwise records the draw as chosen_idx and routes rows by it; PICK, SEQUENCE and SPLIT behave as above and leave chosen_idx alone |
| MetaEvolve.EvolveCorrected | src/metaheuristic_designer/operators/OperatorMeta.py:97-166 | the same, except that BRANCH goes ahead whenever its weights normalise to a distribution |
| MetaEvolve.EvolveCorrectionWidens | src/metaheuristic_designer/operators/OperatorMeta.py:97-166 | the two agree outside BRANCH, and wherever the code as written succeeds the corrected reading succeeds with the same outcome |
| MetaEvolve.DefaultBranchWeights | src/metaheuristic_designer/operators/OperatorMeta.py:65-103 | a BRANCH of two or more children built without parameters is refused by the probability check as written, but accepted when the weights are read as relative weights |
| MetaEvolve.DefaultBranchEvolve | src/metaheuristic_designer/operators/OperatorMeta.py:65-103 | evolving any population with such a BRANCH fails as written and succeeds in the corrected reading |
| Weights.ChoiceCheck | src/metaheuristic_designer/operators/OperatorMeta.py:103 | numpy `choice` accepts the weights exactly when: the choice set is non-empty or nothing is drawn, there is one weight per child, and the weights form a probability distribution |
| Weights.BranchProbabilitiesAsWritten | src/metaheuristic_designer/operators/OperatorMeta.py:103 | missing weights raise KeyError; otherwise the weights are used exactly when numpy accepts them, and then unchanged |
| Weights.DefaultWeightsRefused | src/metaheuristic_designer/operators/OperatorMeta.py:69-103 | n ≥ 2 default weights of 1 are refused with "probabilities do not sum to 1" |
| Weights.BranchProbabilities | src/metaheuristic_designer/operators/OperatorMeta.py:103 | the same refusals, plus weights with no positive total; otherwise each weight divided by the total, which forms a probability distribution |
| Weights.ProbabilitiesAgree | src/metaheuristic_designer/operators/OperatorMeta.py:103 | wherever the code as written goes ahead, the corrected reading gives the same probabilities |
| Weights.DefaultWeightsUniform | src/metaheuristic_designer/operators/OperatorMeta.py:69 | read as relative weights, the defaults give each of n children probability 1/n |
| Weights.ChoicesCheck | src/metaheuristic_designer/operators/OperatorMeta.py:170 | `random.choices` goes ahead exactly when there is one weight per child, at least one child, and a positive total |
| Weights.BisectSplits | src/metaheuristic_designer/operators/OperatorMeta.py:170 | on sorted running totals, the bisection splits the range into entries at most the sample and entries above it |
| Weights.ChoicesIndexHasWeight | src/metaheuristic_designer/operators/OperatorMeta.py:170-171 | with non-negative weights and `random()` in [0, 1), the drawn index is a child of positive weight |
| MetaSingle.FoldAppend | src/metaheuristic_designer/operators/OperatorMeta.py:182-185 | SEQUENCE on one individual is a left fold: folding `xs + ys` folds `ys` over the result of `xs`, with every child seeing the same population |
| MetaSingle.FoldTwo | src/metaheuristic_designer/operators/OperatorMeta.py:182-185 | a sequence of `f` then `g` on one individual gives `g(f(x))` |
| MetaSingle.FoldKeepsLength | src/metaheuristic_designer/operators/OperatorMeta.py:182-185 | children that keep the genotype length give a sequence that keeps it |
| MetaSingle.SplitSingle | src/metaheuristic_designer/operators/OperatorMeta.py:187-204 | only the genotype is rewritten, by group; genes whose mask value names no child are kept; once a child is due, a missing global best raises AttributeError and a mask that does not fit raises IndexError |
| MetaSingle.SplitGenes | src/metaheuristic_designer/operators/OperatorMeta.py:193-202 | after the loop over the children, the genes each child is given are replaced by that child's output, and genes whose mask value names no child are kept |
| Routing.ScatterAllGroups | src/metaheuristic_designer/operators/OperatorMeta.py:193-202 | after `k` children, the genes of each child below `k` are its output and all other genes are as they were |
| Routing.GroupsKeepRest | src/metaheuristic_designer/operators/OperatorMeta.py:106-114 | writing groups back never touches a position whose index names none of the written groups |
| MetaSingle.SplitSingleIdentity | src/metaheuristic_designer/operators/OperatorMeta.py:193-202 | children that keep their genes leave the individual unchanged |
| MetaSingle.PickSingleAsWritten | src/metaheuristic_designer/operators/OperatorMeta.py:174-180 | with the `Iterable` test as written, PICK on one individual raises TypeError for every index |
| MetaSingle.PickSingle | src/metaheuristic_designer/operators/OperatorMeta.py:174-180 | with the test corrected: a scalar index, or the array's entry at the individual's position, selects the child by Python indexing; negative indices count from the end; out of range raises IndexError |
| MetaSingle.PyIndex | src/metaheuristic_designer/operators/OperatorMeta.py:177-179 | Python list indexing: defined exactly for -n ≤ i < n, naming the position congruent to `i` modulo n |
| MetaSingle.PickSingleMatchesRows | src/metaheuristic_designer/operators/OperatorMeta.py:116-180 | wherever the population-wide PICK sends row `i` to an existing child, the corrected single-individual PICK applies that same child |
| MetaSingle.PickSingleDefaultIsLast | src/metaheuristic_designer/operators/OperatorMeta.py:174-180 | the default index -1 applies the last child in the corrected single-individual PICK |
| MetaSingle.BranchSingle | src/metaheuristic_designer/operators/OperatorMeta.py:169-172 | missing weights raise KeyError and weights refused by `random.choices` raise its error; otherwise the drawn child is applied and its index becomes chosen_idx |
| MetaSingle.BranchSingleSkipsZeroWeight | src/metaheuristic_designer/operators/OperatorMeta.py:169-172 | with non-negative weights, BRANCH on one individual never applies a child of weight zero |
| MetaSingle.EvolveSingle | src/metaheuristic_designer/operators/OperatorMeta.py:168-204 | as written: BRANCH draws by the weights and records the child; every PICK raises TypeError; SEQUENCE folds the children; SPLIT rewrites the genes by group; only BRANCH changes chosen_idx, and only SPLIT needs children that keep the genotype length |
| MetaSingle.EvolveSingleCorrected | src/metaheuristic_designer/operators/OperatorMeta.py:168-204 | the same, except that PICK applies the child its index names and fails only with IndexError |
| MetaSingle.EvolveSingleCorrectionOnlyPick | src/metaheuristic_designer/operators/OperatorMeta.py:174-180 | the two agree for BRANCH, SEQUENCE and SPLIT; for PICK the code as written fails, and the corrected reading succeeds exactly when the corrected PICK does |
| Initializers.New | src/pyevolcomp/Initializer.py:11-15 | pop_size defaults to 1 and the encoding to the default encoding; given values are kept |
| Initializers.GeneratePopulation | src/pyevolcomp/Initializer.py:23-38 | exactly `n_indiv` individuals, or `pop_size` of them when `n_indiv` is absent (none for a negative count); the i-th comes from the i-th call of `generate_individual` |
| Vns.New | src/pyevolcomp/Algorithms/Modern/VNS.py:17-34 | iterations 100 unless given; a PICK over the operators with index 0 and `init_idx` as its only parameter; One-to-One selection unless given; an initializer asking for more than one individual is cut to one, with the warning |
| Vns.SelectIndividuals | src/pyevolcomp/Algorithms/Modern/VNS.py:73-81 | the index moves up by one when the first survivor keeps its id and goes back to 0 otherwise; nothing else changes; an empty list raises IndexError |
| Vns.UpdateParams | src/pyevolcomp/Algorithms/Modern/VNS.py:83-92 | the perturbation operator is stepped once; an index in range is kept and any other becomes 0, so with at least one operator the index ends in range |
| Vns.GenerationRotates | src/pyevolcomp/Algorithms/Modern/VNS.py:73-92 | selection followed by the parameter update moves the index by the rotation rule |
| Vns.KeptCycles | src/pyevolcomp/Algorithms/Modern/VNS.py:73-92 | while the same individual keeps surviving, the index after k generations is (start + k) mod n: 0, 1, …, n-1, 0, … |
| Vns.PerturbUsesCurrent | src/pyevolcomp/Algorithms/Modern/VNS.py:49 | with the PICK test corrected, the perturbation applies the operator of the current neighbourhood |
| Vns.PerturbAsWrittenFails | src/pyevolcomp/Algorithms/Modern/VNS.py:49 | as written, the perturbation raises TypeError whatever the index |
| Vns.FirstBest | src/pyevolcomp/Algorithms/Modern/VNS.py:67 | `max` by fitness returns the first individual of greatest fitness |
| Vns.UpdateBest | src/pyevolcomp/Algorithms/Modern/VNS.py:66-69 | best is replaced by the first fittest offspring only on a strict improvement, so a tie keeps the old best; the result is at least as fit as best and every offspring; no offspring raises ValueError |
| Vns.TrackBestMonotone | src/pyevolcomp/Algorithms/Modern/VNS.py:66-69 | across generations the best fitness never decreases and is at least that of every offspring produced |
| DifferentialEvolution.ResolveKind | src/pyevolcomp/simple/differential_evolution.py:15-24 | the encoding (default "real") selects a variant exactly when its lower-cased form is real, int or bin; otherwise ValueError quoting the name as given |
| DifferentialEvolution.DefaultKindIsReal | src/pyevolcomp/simple/differential_evolution.py:15 | a missing encoding means real vectors |
| DifferentialEvolution.StrategyFromName | src/pyevolcomp/simple/differential_evolution.py:39-40 | a strategy is accepted exactly when it equals one of the seven names, letter case included; otherwise ValueError quoting it |
| DifferentialEvolution.StrategyIsCaseSensitive | src/pyevolcomp/simple/differential_evolution.py:39-40 | an upper-case spelling of a valid strategy is refused |
| DifferentialEvolution.Variant | src/pyevolcomp/simple/differential_evolution.py:28-98 | defaults 100 / 0.8 / 0.9 / de/best/1 unless given; strategy checked; the initializer gets the population size and, for real / int / bin, no encoding / a float-to-int cast / a float-to-bool cast; the operator gets the strategy, F and Cr |
| DifferentialEvolution.Configure | src/pyevolcomp/simple/differential_evolution.py:10-26 | a bad encoding is reported before the strategy is looked at; otherwise the chosen variant's configuration |
| DifferentialEvolution.EmptyParamsDefaults | src/pyevolcomp/simple/differential_evolution.py:15-37 | an empty dictionary gives real vectors, 100 individuals, F 0.8, Cr 0.9, strategy de/best/1 |
| DifferentialEvolution.VariantsAgree | src/pyevolcomp/simple/differential_evolution.py:51-98 | the three variants apply the same strategy check and build the same operator and population size |

## Left out

- Random draws are inputs, not sampled. This covers numpy's `choice` in BRANCH `evolve` (`draw`), `random()` inside `random.choices` (`u`), and `generate_random` (`random(i)`). `MetaEvolve.Evolve` takes any `draw` of the right length and does not restrict it to children of positive probability.
- `random.choices` is modelled as in Python 3.9 and later: its checks, its running totals and the bisection of `random() * total`.
- Floating point is modelled as exact reals. This affects numpy's tolerance when it checks that probabilities sum to 1, NaN fitness values, and the non-finite total check of `random.choices`.
- `Text.Lower`: lower-cases ASCII letters only. Python's `str.lower` also maps other Unicode letters.
- MetaOps.New: the weight rule writes `params["weights"]` into the constructor's local dictionary (OperatorMeta.py:95) after that dictionary was handed to `Operator.__init__` (OperatorMeta.py:85), which is not part of this model. The contract assumes the base class keeps that same dictionary object as the operator's parameters, so the write reaches them. A `ParamScheduler` passed as `params` is not modelled.
- MetaEvolve.EvolveSplit: a population with no rows has no gene count in this model, so any per-gene mask fits it and the children it names are called on the empty population. In the code, `population_matrix[:, split_mask]` (OperatorMeta.py:156) raises IndexError when the mask length differs from the number of genes, or always if the empty genotype set is one-dimensional.
- Aliasing and in-place mutation are not modelled. The code writes child outputs into the caller's own arrays, shallow-copies individuals in SPLIT `evolve_single`, and `VNS.op_list` is the same list object as the PICK's children. Every combinator here is a pure function from its inputs to new values.
- A scalar SPLIT mask, as numpy reads it: `matrix[:, True]` adds an axis, so the child receives the whole population with an extra dimension. The model hands the child the whole population without that axis.
- Routing indices and masks that are Python lists rather than numpy arrays, and numpy arrays that are not one-dimensional, are not modelled. A per-row array of the wrong length is modelled as raising IndexError at the first child it names, whatever the array's length.
- Children that change the shape of their input are excluded by precondition in BRANCH, PICK and SPLIT `evolve`, and in SPLIT `evolve_single`. In the code, numpy raises on the write-back unless the output broadcasts to the selected block; broadcasting outputs are not modelled. SEQUENCE, and BRANCH and PICK on one individual, place no such demand on their children.
- The order of the positional arguments passed to children (`global_best` and `initializer` are swapped at each call), and the objective function, do not matter for opaque children and are not modelled. In SPLIT `evolve_single` the child receives the uncut global best, as the code passes it.
- MetaOps.GetState, MetaOps.GetStateIgnoresStep: the `Operator` base class behind `super().step` and `super().get_state` is not part of this model. Its step is modelled as recording the progress value, and its state as the operator's name. Whatever the base state records about a stepped schedule is therefore not covered, and `GetStateIgnoresStep` speaks only of the names and `op_list` entries.
- `warnings.warn` is modelled as a flag. `extra_step_info` printing is left out.
- `UniformVectorInitializer`, `OperatorReal`, `DE` and `GeneralSearch` are not part of this model. The DE configuration records the population size and encoding of the initializer, and the strategy name, F and Cr of the operator.
- The local-search loop of `VNS.perturb`, `VNS.initialize`, and the survivor-selection operator are not part of this model. `select_individuals` takes the survivors as input.
- DifferentialEvolution.Variant: the initializer is modelled as `Initializer.__init__` (Initializer.py:11-15) given the `pop_size` and `encoding` passed to `UniformVectorInitializer`. This assumes `UniformVectorInitializer` forwards both unchanged, so that the real variant's `encoding=None` becomes the default encoding.
- Vns.New, Vns.PerturbUsesCurrent, Vns.PerturbAsWrittenFails: VNS.py:8 imports `OperatorMeta` from `pyevolcomp.Operators`, which is not part of this model. It is assumed to behave like `metaheuristic_designer/operators/OperatorMeta.py`. The call at VNS.py:49 reaches `evolve_single` through `Operator.__call__`, which is not part of this model either; it is assumed to pass the individual through unchanged.
- `_filter_indiv` and `_undo_filter_indiv` are unused helpers and are left out.
- `Vns.SelectIndividuals` and `Vns.UpdateParams`: the index is modelled as a scalar, which it always is in VNS (it starts at 0, and only `+ 1` and `= 0` change it).

## Findings

| source | as written | input that shows it | evidently intended | confidence | as-written member | corrected member |
|---|---|---|---|---|---|---|
| src/metaheuristic_designer/operators/OperatorMeta.py:69-103 | BRANCH `evolve` hands `params["weights"]` to numpy's `choice` as probabilities, but the default weights are `[1] * n` | `OperatorMeta("Branch", [a, b])` with no parameters: weights `[1, 1]` sum to 2, so `evolve` raises ValueError "probabilities do not sum to 1" | the weights are relative, as `evolve_single` treats them (`random.choices`): normalise by their total, so each default child has probability 1/n | not executed; high | Weights.BranchProbabilitiesAsWritten (refusal shown by Weights.DefaultWeightsRefused; MetaEvolve.Evolve, MetaEvolve.DefaultBranchEvolve) | Weights.BranchProbabilities (Weights.DefaultWeightsUniform, Weights.ProbabilitiesAgree; MetaEvolve.EvolveCorrected, MetaEvolve.EvolveCorrectionWidens) |
| src/metaheuristic_designer/operators/OperatorMeta.py:176-179 | PICK `evolve_single` subscripts `chosen_idx` when it is NOT iterable and indexes the child list with it when it IS | any PICK with a scalar index, e.g. `init_idx` 0: `0[indiv_idx]` raises TypeError (VNS builds such a PICK, assuming its `OperatorMeta` import is this class); an index array used as a list index raises TypeError too | the test the other way round, as in `evolve` (OperatorMeta.py:117): an array is read at the individual's position and a scalar is used directly | not executed; high | MetaSingle.PickSingleAsWritten (MetaSingle.EvolveSingle, Vns.PerturbAsWrittenFails) | MetaSingle.PickSingle (MetaSingle.PickSingleMatchesRows, MetaSingle.EvolveSingleCorrected, Vns.PerturbUsesCurrent) |
