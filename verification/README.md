# Scenario engine: a verified model

The scenario engine runs declarative scenarios deterministically: steps generate values, derive
others, patch a shared state, check invariants and append history. Engine 1 runs one program by
recursion; Engine 2 (DSL 2) runs several logical actors over one shared state, choosing each next
actor by a digest and committing one whole step at a time. Around the engines stand schedule
replay, impact analysis, structural diffs, assertions, a shrinker, suites, batches and matrices.
This project models those parts in Dafny and proves what holds of every input and every run.

`dafny verify dfyconfig.toml` checks the whole project.

## How the modules fit together

- `Order`, `Values`, `Graphs`, `Layering`: code-point order and `sorted`, semantic values and
  errors, walks and cycles, the layering loop and systems of equations solved in layer order.
- `Expressions`, `Operators`, `Meaning`, `Mappings`, `Substitution`: evaluation and compilation; what operators,
  expressions and mappings of expressions mean, as relations the evaluator and the compiler are proved to compute
  exactly; compilation with and without a scope.
- `Derivations`, `Resources`, `ResourceMeaning`: derived values and named resources as unique solutions of their
  equations, and what a declaration resolves to.
- `Steps`, `ScenarioRunners`, `StepMeaning`, `StepOutcome`: one step as a function, and the runner objects that carry
  it out (candidate, validation, then commit of state, history, artifacts and clock); what compiling, faulting and
  performing a step mean, success and failure alike.
- `Programs`, `Routing`, `ControlMeaning`, `RoutingCosts`, `Interpreter`, `BigStep`, `Scoping`, `Simulation`, `Weights`,
  `ControlCheck`: structured control; the explicit frame machine; what branches, repeats and bindings decide and what
  routing spends; the recursive interpreter, generic in its step semantics, and the big-step relation it computes;
  the theorem that the machine is that interpreter defunctionalised; which sequences compile on entry; termination,
  weight and stack height; and the static cycle check.
- `Actors`, `Rounds`, `Evidence`, `Replay`, `Projection`, `SingleActor`, `Engine1Meaning`, `ListingOrder`, `Engines`: the
  scheduling loop; what a round means; what every reachable configuration accounts for; exact replay; each actor's
  view of a run; the agreement of the two engines; what Engine 1 does with a whole program; independence of the
  listing order; and the imperative engines, proved equal to the functions the theorems are about.
- `Encoding`, `Pointers`, `SemanticDiff`, `DiffMeaning`, `DiffPatching`, `DiffTraversal`, `Assertions`: the tagged
  encoding, JSON Pointers (RFC 6901, sections 3 and 4), the diff, which differences it lists, patching with it, its
  bounded traversal, and assertion targets.
- `Results`, `Suites`, `SuiteMeaning`, `Mimics`: the typed evidence documents, their bytes and their strict readers;
  suite execution against its offline verification; what results, cases, counts and acceptance mean; and two runs
  whose evidence cannot be read back.
- `Impact`, `Shrinking`, `Windows`, `Publishing`, `Matrix`: one satellite each.

The modules named after a meaning state it without the functions that compute it: as relations between documents,
states and results. Each function of the executable core is proved to compute exactly its relation, so the theorems
about runs speak of those relations.

Hashes, canonical bytes, random draws, decimal arithmetic, identifier and timestamp syntax, parsing,
textual splicing, clocks and adapters are functions given as parameters; where a claim needs one of
them to be injective, faithful or independent of the actor field, the claim says so. Errors are values.

## What turned out not to hold

Where a natural expectation fails, a lemma gives a concrete input, next to the exact condition under which
the property does hold.

- The engines can fail differently. On an ill-scoped subflow Engine 1 compiles the whole sequence on entry, the
  actor engine one step at a time (`SingleActor.EnginesCanDiffer`); on an unresolved resource reference that no
  run reaches, Engine 1 refuses the document and the actor engine succeeds (`SingleActor.EnginesCanDifferAtLoad`).
  On every document that compiles, and limits of Engine 2 aside, they succeed together and fail together; they
  differ only when Engine 1 refuses a sequence on entry, its history is then a prefix of the other one's, and a
  well-scoped program is never refused (`SingleActor.OneActorEquivalence`, `Scoping.EntryCompiles`).
- The tagged encoding is not injective: a mapping that uses the key `$type` can share its encoding with
  another value (`Encoding.EncodingsCanCollide`; decoding restores a value if and only if it uses that key
  nowhere, `Encoding.DecodeRestoresExactly`).
- A suite can report a success that its own verification refuses: a state with such a mapping, or one nested too
  deep, is encoded but not read back (`Mimics.ReservedStateRefused`, `Mimics.DeepStateRefused`). A suite is
  accepted if and only if every retained value nests within the bound and has a canonical encoding, and no two
  different children share a digest (`Suites.ExecutedSuitesVerify`); a result replays from its bytes if and only
  if its values nest within the bound and use the key nowhere (`Results.OwnResultReplays`).
- A diff can be silent on unequal trees: inside a tagged value Python's `==` takes `True` for `1`
  (`SemanticDiff.SilentOnUnequal`, and `SemanticDiff.UncleanHasTwin` for every tree with such a boolean). A
  silent diff determines the other tree if and only if no tagged value of this one holds a boolean, a 0 or a 1
  (`SemanticDiff.DeterminedExactly`); silence is equality of typed trees always
  (`SemanticDiff.SilentExactlyWhenSame`).
- The initial state is never checked: a run that commits nothing succeeds in a state that violates a declared
  invariant (`Evidence.UncheckedInitialState`). Every state of a run satisfies the invariants if and only if
  the initial one does (`Evidence.HoldsThroughoutExactly`).
- Impact labels can be wrong past the depth cap of 256: on a chain of 257 certain edges the last node is missed
  and the one before is labelled UNKNOWN (`Impact.CapMisleads`); 258 resources, each but the first a `$ref` to
  the one before, give that chain (`Impact.ChainIsADocument`). The labels are exact if and only if the cap
  spares every reached node (`Impact.LabelsExactly`), as on every shallow graph, and in particular on every
  graph of at most 128 nodes (`Impact.ShallowIsExact`, `Impact.SmallGraphsAreShallow`), and also on some deeper
  ones (`Impact.DeepCanBeExact`).

## Model

| member | source | states |
|---|---|---|
| `Expressions.EvalReadsOnlyDependencies` | src/scenario_engine/expressions.py:78-304 | two derived environments that agree on `dependencies()` give the same value, for every expression |
| `Meaning.EvalExactly` | src/scenario_engine/expressions.py:78-304 | evaluating an expression finds exactly the value the expression means in its environment, or exactly its failure: that of the first operand, left to right and fields by name, that fails or that `$and` or `$or` refuses, else the operator's own |
| `Meaning.ManyExactly` | src/scenario_engine/expressions.py:230-240 | `$and` and `$or` give a boolean if and only if every operand does: whether all are true, or some is |
| `Meaning.ManyFailsFirst` | src/scenario_engine/expressions.py:230-240 | otherwise they fail with the first operand that fails or is no boolean |
| `Operators.CompareExactly` | src/scenario_engine/expressions.py:196-226 | numbers compare by size, texts by code point, times by instant, decimals by decimal comparison; anything else fails |
| `Operators.ComparisonsTrichotomous` | src/scenario_engine/expressions.py:196-226 | of two whole numbers, texts or times exactly one of `$lt`, sameness and `$gt` holds; `$lte` is the negation of `$gt`, `$gte` of `$lt` |
| `Operators.SumExactly` | src/scenario_engine/expressions.py:289-302 | `$sum_field` finds the last of the running totals over the items' fields, and fails at the first item that cannot be added to the total before it |
| `Operators.WholeSums` | src/scenario_engine/expressions.py:289-302 | on whole numbers it is the sum of the items' fields |
| `Meaning.CompiledExactly` | src/scenario_engine/dsl/compiler.py:66-101 | a compiled expression evaluates to exactly what its source means when resource references read the resources and scope references the scope it was compiled in |
| `Meaning.CompileFailsExactly` | src/scenario_engine/dsl/compiler.py:66-101 | compilation fails if and only if some reference cannot be read, with the first one's error |
| `Meaning.ReferenceReadsResource` | src/scenario_engine/dsl/compiler.py:76-79 | a compiled resource reference is the resource's own value at its path, in every environment, and does not compile when there is none |
| `Mappings.EvalMapExactly` | src/scenario_engine/runner.py:77-77 | a mapping of expressions evaluates to exactly the mapping of each name's own value |
| `Mappings.EvalMapFails` | src/scenario_engine/runner.py:77-77 | and fails with the least name whose expression fails |
| `Meaning.DependenciesExactly` | src/scenario_engine/expressions.py:82-304 | `dependencies()` is exactly the set of derived names inside the expression |
| `Substitution.ScopeSubstitution` | src/scenario_engine/dsl/compiler.py:66-101 | whenever compilation with a scope succeeds, so does compilation without one, and evaluating the first anywhere equals evaluating the second inside that scope |
| `Substitution.MissingPathSurfacesLate` | src/scenario_engine/dsl/compiler.py:80-81 | a scope path the scope lacks fails at compilation with the scope, and with the same error only at evaluation without it |
| `Layering.LayersExactlyAcyclic` | src/scenario_engine/expressions.py:311-330 | the layering loop succeeds if and only if the dependency graph has no closed walk |
| `Layering.LayersOrder` | src/scenario_engine/expressions.py:311-330 | the order lists every name once, dependencies strictly before their users |
| `Layering.LayeredSolution` | src/scenario_engine/expressions.py:311-330 | ordering then evaluating yields m if and only if the graph is acyclic and m solves the whole system of equations |
| `Derivations.PlanFailsExactlyOnCycles` | src/scenario_engine/expressions.py:311-330 | a cycle error is raised if and only if the derived references form a closed walk; a reference error if and only if one is undeclared |
| `Derivations.DeriveExactlySolution` | src/scenario_engine/expressions.py:311-330 | the result is the unique environment in which every derived name equals its own expression evaluated against the result |
| `Derivations.ResolveDerivations` | src/scenario_engine/expressions.py:311-330 | the two loops compute exactly that environment |
| `Resources.CycleErrorExactly` | src/scenario_engine/resources.py:117-137 | with known references, the cycle error is raised if and only if the resource graph has a closed walk |
| `Resources.ResolvedExactlyConsistent` | src/scenario_engine/resources.py:117-163 | the resolved values are the one assignment in which every resource equals its declaration resolved against the whole |
| `Resources.Resolver.ResolveNode` | src/scenario_engine/resources.py:141-159 | resolving a node adds exactly the inputs the node names to the consumed ones |
| `Resources.ResolveResources` | src/scenario_engine/resources.py:117-163 | on success the values are consistent and the consumed inputs are exactly those some declaration names; failures are the ones the equations predict |
| `Resources.UnnamedInputsAreIrrelevant` | src/scenario_engine/resources.py:141-163 | inputs no declaration names change neither the values nor the consumed inputs |
| `Resources.OverrideExactly` | src/scenario_engine/resources.py:83-94 | an override succeeds if and only if the whole path exists, is read back there, and leaves every path apart from it unchanged |
| `ResourceMeaning.ResolveExactly` | src/scenario_engine/resources.py:141-159 | resolving a node replaces each `$input` and each `$ref`, alone in its mapping, by what its path reads in the inputs or the resolved resources, and keeps everything else |
| `ResourceMeaning.PathExactly` | src/scenario_engine/resources.py:43-46 | a text is a path if and only if it is its segments joined by dots, none of them empty or containing a dot |
| `ResourceMeaning.ReferencesExactly` | src/scenario_engine/resources.py:97-114 | the dependencies of a declaration are exactly the names its `$ref` paths begin with |
| `ResourceMeaning.InputsExactly` | src/scenario_engine/resources.py:141-159 | the inputs it consumes are exactly the names its `$input` paths begin with |
| `Steps.InvariantsExactly` | src/scenario_engine/invariants.py:13-21 | the invariant check passes if and only if every declared invariant evaluates to true on the candidate state |
| `Steps.FaultsKeepStep` | src/scenario_engine/faults.py:17-36 | faults never change a step's identity, derivations, advance or transition |
| `StepMeaning.CompileStepExactly` | src/scenario_engine/dsl/compiler.py:213-225 | a step compiles to exactly the step with the same names, kinds and constants and every expression compiled |
| `StepMeaning.LastFaultWins` | src/scenario_engine/faults.py:17-36 | a write, a local or the emissions of the faulted step are what the last applying fault that changes them brings: its compiled expression, the value it evaluates to, or nothing |
| `StepMeaning.PartUntouched` | src/scenario_engine/faults.py:17-36 | whatever no applying fault changes stays |
| `StepMeaning.AppliedInOrder` | src/scenario_engine/faults.py:11-36 | the recorded faults are exactly the enabled ones that name the step and, where given, its path and repetitions, in declaration order |
| `StepMeaning.FaultsFailExactly` | src/scenario_engine/faults.py:17-36 | faulting fails if and only if some applying fault's expression does not compile or evaluate, with the first one's error |
| `StepOutcome.PerformExactly` | src/scenario_engine/runner.py:63-103 | a step commits a result if and only if locals and derived values explain it: each local one draw of its generator at its own child address, the derived values the only solution of their equations, the patch exactly the declared writes evaluated in the pre-state with both, the state the old one plus that patch, each artifact of its emission's kind and address with its fields evaluated in the new state, one record of all this, and every invariant true |
| `StepOutcome.PerformFailsExactly` | src/scenario_engine/runner.py:63-96 | it fails if and only if a phase fails, with the first failing phase's error: the first generator by name, the derivation, the patch, the first emission, the first invariant that is not true |
| `StepOutcome.SiteExactly` | src/scenario_engine/dsl/runtime.py:138-147 | a step occurrence executes as its faulted step does, at the address of its place |
| `Steps.CommittedStep` | src/scenario_engine/runner.py:84-103 | a committed step appends one record whose fingerprints, patch, time, address and emissions account for the whole change, and every invariant holds of the new state (what patch and emissions are is `StepOutcome.PerformExactly`) |
| `ScenarioRunners.ScenarioRunner.RunStep` | src/scenario_engine/runner.py:63-103 | the runner's state, clock, history, artifacts and next step change together on success and not at all on failure |
| `ScenarioRunners.ScenarioHistory.AppendCommitted` | src/scenario_engine/history.py:32-38 | exactly one record is added at the end |
| `ControlCheck.ValidateControl` | src/scenario_engine/dsl/compiler.py:183-200 | the depth-first search accepts if and only if every target is declared and the call graph has no closed walk; acceptance yields a rank falling along every call, rejection a genuine closed walk |
| `ControlCheck.Search.Visit` | src/scenario_engine/dsl/compiler.py:190-200 | one visit either reports a genuine closed walk or completes the name with all it can enter, path unchanged |
| `ControlCheck.SoundControlRanks` | src/scenario_engine/dsl/compiler.py:183-200 | every program with a falling rank is one the search accepts |
| `Routing.Route` | src/scenario_engine/dsl/actor_runtime.py:144-234 | routing ends on every program, cyclic ones included: operations left, then stack height, fall; a found step leaves a well-formed stack |
| `ControlMeaning.AnswerMeans` | src/scenario_engine/control_flow.py:50-55 | a control expression answers what it means with the state, the resources and the scope in sight |
| `ControlMeaning.BranchExactly` | src/scenario_engine/dsl/runtime.py:156-163 | a branch takes a case if and only if its condition answers true and every earlier one false, the else target if and only if all answer false, and fails with the first case whose condition fails or is no boolean |
| `ControlMeaning.TickingExactly` | src/scenario_engine/dsl/actor_runtime.py:201-213 | routing decides a branch alike, spends one operation on each condition evaluated, and hits the limit if and only if they do not all fit |
| `ControlMeaning.RepeatTimesExactly` | src/scenario_engine/control_flow.py:58-63 | the count is the value of the count expression; a count that is no whole number or negative, or above the maximum, is refused as such |
| `ControlMeaning.BindExactly` | src/scenario_engine/control_flow.py:50-55 | an invocation binds exactly the declared names, each to its own expression's value, or fails with the least name that has none |
| `ControlMeaning.RepetitionExactly` | src/scenario_engine/dsl/runtime.py:167-169 | repetition k binds those and k under the index name, which wins over a binding of that name |
| `RoutingCosts.NodeCosts` | src/scenario_engine/dsl/actor_runtime.py:130-234 | passing a node costs one operation, one for each condition evaluated and one to enter a subflow or open a repeat; a round fails by its node, or because that does not fit the limit |
| `RoutingCosts.RepetitionCosts` | src/scenario_engine/dsl/actor_runtime.py:150-180 | leaving a frame is free, a repetition costs two operations |
| `BigStep.SequenceExactly` | src/scenario_engine/dsl/runtime.py:127-173 | the interpreter comes to an outcome if and only if the big-step relation does: nodes run along a chain of runners, each node as its kind says, and the first one that does not finish ends everything |
| `BigStep.RepeatExactly` | src/scenario_engine/dsl/runtime.py:167-172 | repetitions run along a chain of runners, each in the scope it binds afresh and at the place that records its index |
| `Engine1Meaning.Engine1Exactly` | src/scenario_engine/dsl/runtime.py:112-175 | Engine 1 refuses a document with the first step that does not compile, own steps first and then subflows by name, and otherwise comes to exactly the outcomes of that relation from the declared initial state |
| `Interpreter.RouteRefines` | src/scenario_engine/dsl/actor_runtime.py:144-234 | one routing call is a rewriting of what the recursive interpreter still has to do: same step, scope, invocation path, repetition indexes and control path, same errors, except for the operation limit |
| `Simulation.SequenceSimulates` | src/scenario_engine/dsl/runtime.py:127-173 | two step semantics that stay related, the left one possibly compiling eagerly, keep whole recursive runs related; when the left one refuses a sequence, the right one fails too, at a later stage of the same run |
| `Scoping.ClosedCompiles` | src/scenario_engine/dsl/compiler.py:66-101 | an expression that compiles without a scope and reads only paths its invocation offers compiles in every scope that invocation can build |
| `Scoping.EntryCompiles` | src/scenario_engine/dsl/compiler.py:258-259 | in a well-scoped program, no sequence entered by a call or branch is refused, whatever the state and the scope around it |
| `Scoping.RepetitionCompiles` | src/scenario_engine/dsl/compiler.py:258-259 | the same for every repetition of a repeat |
| `Weights.SequenceWithin` | src/scenario_engine/dsl/runtime.py:135-173 | a sequence commits at most its static weight of steps, from any state |
| `Weights.StackHeight` | src/scenario_engine/dsl/actor_runtime.py:150-234 | a nested frame stack has height at most 1 + 2 times the number of subflows |
| `Weights.RouteNested` | src/scenario_engine/dsl/actor_runtime.py:144-234 | from a nested stack, every stack one routing call passes through or leaves behind is within that height, and the one it leaves is nested |
| `Projection.EveryStackLow` | src/scenario_engine/dsl/actor_runtime.py:358-433 | in every configuration of every run, the stack each actor holds is nested, and it and every stack routing passes through there have height at most 1 + 2 times the number of subflows |
| `Actors.RoundFrame` | src/scenario_engine/dsl/actor_runtime.py:358-413 | a continued round was played by a ready actor that the scheduler selected, recorded one decision and kept every control well-formed |
| `Actors.CommitMoveFrame` | src/scenario_engine/dsl/actor_runtime.py:391-413 | a commit advances the selected actor's control only, and changes the runner exactly as executing its routed step does |
| `Actors.EndingReports` | src/scenario_engine/dsl/actor_runtime.py:358-433 | a successful ending reports every decision; a failed one the state of the last commit and one failed decision more |
| `Rounds.RoundExactly` | src/scenario_engine/dsl/actor_runtime.py:358-433 | a round is exactly this: the first routing error in declaration order aborts; with nobody ready it reports success; past the selection or seed bound it aborts; a decision an expected schedule does not foresee is a mismatch; otherwise the selected actor's faulted step, explained on the shared runner, is committed and its control alone moves, or its failure is reported |
| `Rounds.DecisionExactly` | src/scenario_engine/dsl/actor_runtime.py:366-390 | the ready actors are exactly those whose routing finds a step, in address order, and the digest of the run's coordinates picks one |
| `Rounds.ReportExactly` | src/scenario_engine/dsl/actor_runtime.py:237-289 | a report shows the runner, one view for each actor in address order, terminal if and only if its routing finds no step, and a schedule with one record for each decision |
| `Rounds.RunIsRounds` | src/scenario_engine/dsl/actor_runtime.py:358-433 | a run starts at the declared state with every actor at its beginning, and is such rounds, every one but the last continuing |
| `Rounds.SuccessIsTerminal` | src/scenario_engine/dsl/actor_runtime.py:237-243 | when a run succeeds every actor's view is terminal with nothing next |
| `Evidence.RunAccounted` | src/scenario_engine/dsl/actor_runtime.py:358-433 | after any number of rounds of any run, record i has ordinal and history length i, its clock is the start plus the first i advances, fingerprints chain, the state is the fold of all patches, and every state after a commit satisfies every invariant |
| `Evidence.HoldsThroughoutExactly` | src/scenario_engine/dsl/actor_runtime.py:415-420 | after any number of rounds, every state passed through satisfies every invariant if and only if the initial state does |
| `Evidence.UncheckedInitialState` | src/scenario_engine/dsl/actor_runtime.py:358-380 | a program whose only branch is not taken succeeds in an initial state that violates an invariant |
| `Evidence.EveryReportSound` | src/scenario_engine/dsl/actor_runtime.py:415-433 | every report exposes exactly its last commit, with one schedule record more than history entries if and only if it failed |
| `Evidence.CommittedWellFormed` | src/scenario_engine/schedule.py:201-258 | the schedule of a successful run passes every structural check of the schedule constructors |
| `Evidence.FailedWellFormed` | src/scenario_engine/trace_view.py:135-163 | so does that of a failed run, and its committed records carry the history positions the trace viewer checks |
| `Replay.ReplayExact` | src/scenario_engine/schedule.py:386-415 | replay accepts a schedule with a report if and only if a fresh run at its coordinates ends with that report and produces that very schedule, in success and in failure |
| `Replay.OwnScheduleAccepted` | src/scenario_engine/schedule.py:386-415 | the schedule of any run that ends with evidence is accepted and reproduces its report |
| `Replay.AlteredScheduleRejected` | src/scenario_engine/dsl/actor_runtime.py:338-402 | a missing, added or changed record, outcome or failure is always rejected |
| `Projection.EveryActorFollows` | src/scenario_engine/dsl/actor_runtime.py:358-433 | after any number of rounds of any run, each actor has executed its own program up to the frames it holds, the others appearing only as changes of the shared state between its steps |
| `Projection.SuccessCompletesEveryProgram` | src/scenario_engine/dsl/actor_runtime.py:358-380 | a successful run drains every actor: interpreting its whole program against the states it saw completes with exactly its own steps |
| `Projection.HistoryInterleaves` | src/scenario_engine/dsl/actor_runtime.py:391-413 | the history is an interleaving of the actors' own step sequences: the k-th step of an actor is the entry at its k-th position, positions rise, and every entry belongs to exactly one actor |
| `Projection.ActorWithinWeight` | src/scenario_engine/dsl/actor_runtime.py:358-433 | no actor ever commits more steps than its program's static weight |
| `Projection.LightScenariosNeverHitTheLimit` | src/scenario_engine/dsl/actor_runtime.py:358-380 | scenarios whose weights sum below the selection ceiling are never cut short by it |
| `SingleActor.OneActorEquivalence` | src/scenario_engine/dsl/runtime.py:112-176 | on every document that compiles, a one-actor run and the recursive engine agree on steps, states, clock, history, artifacts and errors, actor fields erased, unless a limit of Engine 2 is hit; where Engine 1 refuses a sequence on entry, the one-actor run fails too with at least Engine 1's history; well-scoped programs are never refused |
| `SingleActor.EnginesCanDiffer` | src/scenario_engine/dsl/runtime.py:127-135 | the refused case is real: a concrete program on which Engine 1 reports the unbound name and the one-actor run an invariant violation |
| `SingleActor.EnginesCanDifferAtLoad` | src/scenario_engine/dsl/runtime.py:123 | a concrete document Engine 1 refuses at load, and the one-actor run succeeds on |
| `ListingOrder.CanonicalActors` | src/scenario_engine/scheduler.py:62-77 | the canonical actor list is the sorted list of the given addresses, and repeated addresses are refused |
| `ListingOrder.ListingOrderIrrelevant` | src/scenario_engine/scheduler.py:161-175 | every listing of the same actors gives the same run, report and schedule, or both abort in routing |
| `Engines.RouteActor` | src/scenario_engine/dsl/actor_runtime.py:144-234 | the loop over frames and operations computes the routing function |
| `Engines.RunEngine1` | src/scenario_engine/dsl/runtime.py:112-176 | the recursive closures over the mutable runner compute the recursive interpreter |
| `Engines.ExecuteSequence` | src/scenario_engine/dsl/runtime.py:135-173 | running a sequence changes the runner as the interpreter does and restores its place |
| `Engines.RunActors` | src/scenario_engine/dsl/actor_runtime.py:292-433 | the scheduling loop over controls, decisions and the runner computes the run and replay function |
| `Impact.ClosedIsReached` | src/scenario_engine/impact.py:353-387 | once a breadth-first level adds nothing, it holds exactly the pairs of node and uncertainty some walk from a direct node reaches |
| `Impact.ImpactOf` | src/scenario_engine/impact.py:353-387 | on every graph the search reports exactly the nodes within 256 edges, labelled UNKNOWN if met at the cap or uncertainly, DIRECT if direct, and as possible otherwise |
| `Impact.ReportedIsReachable` | src/scenario_engine/impact.py:353-387 | every reported node is reachable, and every node at the end of a walk of at most 256 edges is reported |
| `Impact.LabelsExactly` | src/scenario_engine/impact.py:353-387 | the labels say exactly what walks there are if and only if the cap spares every reached node: it lies within the cap, a direct node is not met again at it, another is capped or met uncertainly if and only if some walk to it crosses an unknown edge |
| `Impact.ShallowIsExact` | src/scenario_engine/impact.py:353-387 | they are exact whenever nothing is first reached at the cap |
| `Impact.CapMisleads` | src/scenario_engine/impact.py:358-359 | a chain of 257 certain edges between resources loses its last node and mislabels the one before |
| `Impact.ChainIsADocument` | src/scenario_engine/impact.py:241-248 | resources that are each a `$ref` to the one before have that chain as their graph, and changing the first makes it alone direct |
| `Impact.DeepCanBeExact` | src/scenario_engine/impact.py:358-359 | a chain of 256 edges beginning with an unknown one reaches the cap and is still labelled exactly |
| `Impact.SmallGraphsAreShallow` | src/scenario_engine/impact.py:353-387 | a graph with at most 128 nodes never reaches the depth cap, whatever its edges |
| `Impact.DependencyGraph.Merge` | src/scenario_engine/impact.py:145-150 | a merge adds exactly the other graph's nodes and edges, and fails if and only if the union exceeds the bound on nodes or on edges |
| `Impact.AnalyzeImpact` | src/scenario_engine/impact.py:335-387 | these labels for every change, from exactly its direct nodes, over the union of both definitions' graphs; every node a change concerns is reported; fails if and only if a bound on nodes, edges or records is exceeded |
| `Impact.DirectExactly` | src/scenario_engine/impact.py:329-332 | the direct nodes of a change are the nodes at or under its path after an addition, before a removal, on either side of a change, and the path alone if and only if there is none |
| `Impact.DirectReported` | src/scenario_engine/impact.py:355-375 | every direct node is reported, as DIRECT unless an uncertain way back to it ends at the cap |
| `Impact.SidesMatter` | src/scenario_engine/impact.py:329-332 | adding, or removing, a step that writes a cell makes the step and its write direct; with the sides exchanged the path alone would be |
| `Impact.StepReport` | src/scenario_engine/impact.py:353-387 | that change reports the cell as possibly affected and nothing else |
| `Encoding.DecodeRestoresExactly` | src/scenario_engine/engine2.py:430-448 | decoding the encoding of a value gives the value back if and only if no mapping inside it uses the key `$type` |
| `Encoding.ReadsBackExactly` | src/scenario_engine/engine2.py:430-448 | decoding any tree and encoding the result gives the tree back if and only if every mapping with the key `$type` in it is one the encoding itself could have written |
| `Encoding.NormalizeInjective` | src/scenario_engine/values.py:29-58 | such values are determined by their encoding |
| `Encoding.EncodingsCanCollide` | src/scenario_engine/values.py:29-58 | with that key, two different values can share one encoding |
| `Pointers.UnescapeEscape` | src/scenario_engine/oracle_assertions/evaluate.py:25-28 | unescaping undoes escaping on every token |
| `Pointers.TokensOfPointer` | src/scenario_engine/diff/compare.py:24-26 | splitting a built pointer gives back its token list, also with empty tokens and tokens containing `~` or `/` |
| `Pointers.PointerInjective` | src/scenario_engine/diff/compare.py:24-26 | different token lists give different pointers |
| `Pointers.ValidatePointer` | src/scenario_engine/oracle_assertions/models.py:43-58 | the loops decide exactly the pointers of RFC 6901, section 3, within the depth bound, and tell the bound from the syntax error |
| `Pointers.AcceptableExactly` | src/scenario_engine/oracle_assertions/models.py:43-58 | a string is accepted if and only if it is a pointer built from at most 64 tokens |
| `Pointers.RebuiltFromTokens` | src/scenario_engine/oracle_assertions/evaluate.py:25-28 | every accepted string is rebuilt exactly from its tokens |
| `SemanticDiff.SilentExactlyWhenSame` | src/scenario_engine/diff/compare.py:61-102 | the full diff is empty if and only if the two typed trees are equal |
| `SemanticDiff.SameIsEquality` | src/scenario_engine/diff/compare.py:29-49 | on trees without booleans inside tagged values that is plain equality |
| `SemanticDiff.SilentOnUnequal` | src/scenario_engine/diff/compare.py:48-49 | without that condition a silent diff of unequal trees exists |
| `SemanticDiff.UncleanHasTwin` | src/scenario_engine/diff/compare.py:48-49 | every tree with a boolean inside a tagged value has a different tree with a silent diff |
| `SemanticDiff.DeterminedExactly` | src/scenario_engine/diff/compare.py:61-102 | a silent diff against a tree determines the other side if and only if no tagged value of that tree holds a boolean, a 0 or a 1 |
| `DiffMeaning.DiffsExactly` | src/scenario_engine/diff/compare.py:61-119 | the full diff lists exactly the places where the trees part: a child on one side only as an addition or removal, different kinds as a retype, unequal leaves as a replacement, each with its own two sides |
| `DiffMeaning.DiffsInOrder` | src/scenario_engine/diff/compare.py:61-119 | in document order, fields by name and items by index, each place once |
| `DiffPatching.PatchRestores` | src/scenario_engine/diff/compare.py:61-119 | patching the left tree with the full diff gives the right tree |
| `DiffTraversal.Traversal.Visit` | src/scenario_engine/diff/compare.py:61-119 | a traversal succeeds if and only if the pairs it visits, up to the first difference in first-only mode, are few enough and none lies too deep; it then has collected the full diff in order, cut by the record limit or at the first difference |
| `DiffTraversal.CompleteBounds` | src/scenario_engine/diff/compare.py:64-68 | in complete mode that is: no pair of compared nodes is deeper than 64 and there are at most a million pairs |
| `DiffTraversal.StopsAtFirst` | src/scenario_engine/diff/compare.py:104-119 | emitting a list of differences stops the traversal if and only if the mode is first-only and the list is not empty |
| `DiffTraversal.Compare` | src/scenario_engine/diff/compare.py:143-161 | complete mode lists a prefix of the full diff with records plus omitted equal to the total; first mode lists exactly its head; equal if and only if the typed trees are equal |
| `Assertions.Subsequence` | src/scenario_engine/oracle_assertions/evaluate.py:112-117 | the greedy scan succeeds if and only if some ascending embedding exists, for any comparison |
| `Assertions.Resolve` | src/scenario_engine/oracle_assertions/evaluate.py:63-88 | resolving follows the tokens, the first marker on the way deciding the availability, and raises at an index form that is no number or a marker test on an unhashable availability before that |
| `Assertions.WalkExactly` | src/scenario_engine/oracle_assertions/evaluate.py:63-88 | what it finds is what lies where the way ends: at the first marker, the first step that raises or is missing, or the last token |
| `Assertions.ReportedPathsResolve` | src/scenario_engine/diff/compare.py:61-102 | where no marker is met, every path a diff reports resolves, without raising, on each side to the value it reports there, or to nothing |
| `Shrinking.Shrink` | src/scenario_engine/engine2_shrink.py:397-600 | rejected if and only if the baseline does not stand, with the first check on the request not met, or else the first execution of the baseline not allowed or not in agreement, and the number of executions used; otherwise shrunk greedily in address order: the failing and the selected actors survive, all other content and the failure signature are unchanged, the counters stay within the three budgets, the stop reason is the true one (each execution and evaluation takes one clock reading, none late before a deadline stop), and a complete final pass is one-minimal |
| `Shrinking.BaselineExactly` | src/scenario_engine/engine2_shrink.py:397-453 | a request is refused before any execution if and only if it fails a check, for the first check it fails |
| `Shrinking.RefusedOnce` | src/scenario_engine/engine2_shrink.py:397-480 | a baseline is refused for one reason only, after one number of executions, and never when every check is met and every execution confirmed |
| `Shrinking.CandidateExactly` | src/scenario_engine/engine2_shrink.py:383-394 | a deletion is a candidate if and only if the spliced source is valid, well laid out and smaller, and its document is the original one without the removed actors, with the target and the one invariant |
| `Shrinking.AcceptsExactly` | src/scenario_engine/engine2_shrink.py:515-558 | an evaluation is accepted if and only if every run agrees with the first on bytes, step and invariant, the first has the expected signature, its schedule's failure and hashes, the candidate's hash and the accepted resources, and replays exactly |
| `Shrinking.Reduction.Pass` | src/scenario_engine/engine2_shrink.py:497-575 | a pass removes the first eligible actor in address order that can be deleted, all earlier ones having been tried in vain on the same source, or is complete, or stops for the reason it reports |
| `Shrinking.Reduction.Reduce` | src/scenario_engine/engine2_shrink.py:483-575 | the greedy loop ends; evaluations are at most n(n+1)/2 for n eligible actors |
| `Shrinking.Budget.Evaluate` | src/scenario_engine/engine2_shrink.py:515-558 | an evaluation accepts if and only if all repeated runs agree, show the expected failure and the first replays exactly |
| `Shrinking.Budget.Take` | src/scenario_engine/engine2_shrink.py:181-195 | one clock reading; an execution is granted and counted, or refused because that reading is late or the limit is met, and for no other reason |
| `Shrinking.SpentBound` | src/scenario_engine/engine2_shrink.py:483-575 | passes over n actors, each removing one, evaluate at most n(n+1)/2 candidates |
| `Shrinking.OneMinimalWhenDeterministic` | src/scenario_engine/engine2_shrink.py:465-575 | for deterministic executions, deleting any one remaining eligible actor is invalid or never accepted |
| `Windows.OrderedBatchStream.Exhaust` | src/scenario_engine/batch/runtime.py:178-205 | for any completion order of the workers, exactly one item per request in plan order, never more futures than the window and never a missing one, up to the first item over the bound; the requests handed to execution are the prefix the mode and the window call for |
| `Windows.FailFastPrefix` | src/scenario_engine/batch/runtime.py:178-185 | fail-fast hands to execution exactly the prefix through the first failure, and marks the rest as not run |
| `Windows.DueExactly` | src/scenario_engine/batch/runtime.py:61-115 | every item is its own request with its execution's status and size, and is not run if and only if fail-fast is on and an earlier request failed |
| `Windows.CountExactly` | src/scenario_engine/batch/runtime.py:117-138 | each count is the number of records with its status |
| `Windows.ExecuteBatch` | src/scenario_engine/batch/runtime.py:216-248 | a batch succeeds if and only if its options are valid and everything due fits the retained bound together; each option error is the first that applies |
| `Windows.CountsPartition` | src/scenario_engine/batch/runtime.py:117-138 | the three status counts add up to the number of records |
| `Windows.Executor.Await` | src/scenario_engine/batch/runtime.py:189-201 | waiting ends and yields the task's own result whichever running task finishes next, with at most `workers` running |
| `Publishing.PublishBundles` | src/scenario_engine/evidence/adapter.py:251-329 | success gives exactly one receipt per bundle of an iterator of unknown length, in caller order and within the byte limit; otherwise the error is that of the first failing event, in the order in which bundles are pulled and receipts taken; the window is never exceeded |
| `Publishing.ReceiptsMean` | src/scenario_engine/evidence/adapter.py:220-248 | receipt i names the i-th bundle, its position and the adapter's own answer |
| `Publishing.DecidedOnce` | src/scenario_engine/evidence/adapter.py:303-329 | there is only one such outcome |
| `Publishing.PublishedExcludesFailure` | src/scenario_engine/evidence/adapter.py:303-329 | when every bundle can be published within the limit, the outcome is those receipts |
| `Matrix.RawCardinality` | src/scenario_engine/matrix/expand.py:18-30 | raises if and only if the true product exceeds the cap, and never forms a larger number |
| `Matrix.RadixPosition` | src/scenario_engine/matrix/expand.py:36-41 | the digits of a raw index stand for that index |
| `Matrix.Odometer.Advance` | src/scenario_engine/matrix/expand.py:37-41 | each step moves to the next raw index, and the last one wraps |
| `Matrix.RetainedExactly` | src/scenario_engine/matrix/expand.py:41-57 | the retained cases are exactly the kept raw indexes, ascending, each with the assignment of its index |
| `Matrix.JudgeExactly` | src/scenario_engine/matrix/expand.py:41-57 | an assignment is kept if and only if every filter keeps it; otherwise the first filter that does not decides |
| `Matrix.DuplicatesExactly` | src/scenario_engine/matrix/expand.py:41-48 | two raw indexes share an identity if and only if some dimension holds two canonically equal values |
| `Matrix.Expand` | src/scenario_engine/matrix/expand.py:33-57 | an expansion returns exactly the filtered cases, or the error of the least raw index that raises one, a duplicate being noticed before the filters and these before the cap |
| `Matrix.ExplainedOnce` | src/scenario_engine/matrix/expand.py:33-57 | there is only one such end |
| `Matrix.ExpansionDecides` | src/scenario_engine/matrix/expand.py:33-57 | absent filter and cap errors, duplicates are reported if and only if some dimension repeats a value, and otherwise the filtered cases are returned |
| `Results.RunConstructs` | src/scenario_engine/engine2.py:293-319 | construction never refuses the report of a run, and the result carries the coordinates of its request and the identity, classification and failure of its schedule |
| `SuiteMeaning.ResultExactly` | src/scenario_engine/engine2.py:276-319 | a result shows exactly its report: coordinates, schedule hash, failure, final state and clock, and entry by entry the history and the artifacts |
| `Results.ResultReadsBack` | src/scenario_engine/engine2.py:494-516 | the canonical bytes of a result are read back if and only if its state, patches and artifact values nest within the bound and have canonical encodings; what is read has the same head and encoding |
| `Results.ScheduleReadsBack` | src/scenario_engine/schedule.py:329-383 | the canonical bytes of a well-formed schedule are always read back as that schedule |
| `Results.OwnResultReplays` | src/scenario_engine/engine2.py:537-574 | a run's own result, replayed from its bytes with its own schedule, is accepted if and only if its values nest within the bound and no mapping in them uses the key `$type` |
| `Suites.NativeIsGenuine` | src/scenario_engine/engine2_suite.py:672-702 | whatever a run ends with, its evidence passes the constructors, is linked to the request, and has the invariant violation's code if and only if the exception is one |
| `Suites.StatusesAlwaysAgree` | src/scenario_engine/engine2_suite.py:576-586 | the executor, which looks at the exception's class, and the constructor, which looks at the recorded code, agree on the status of every case with evidence |
| `Suites.CountsPartition` | src/scenario_engine/engine2_suite.py:741-748 | the four status counts partition the plan |
| `SuiteMeaning.CountsExactly` | src/scenario_engine/engine2_suite.py:741-748 | each count is the number of cases with its status |
| `SuiteMeaning.OverallExactly` | src/scenario_engine/engine2_suite.py:736-738 | a suite succeeds if and only if every case succeeds or fails as expected |
| `SuiteMeaning.SuiteMeans` | src/scenario_engine/engine2_suite.py:672-738 | each case of an executed suite has the status its own run gives: success if and only if the run finishes and one was expected, expected failure if and only if it breaks with the invariant violation that was expected, error for generator errors, runs without evidence and evidence that does not fit behind the earlier cases; its child shows that run |
| `SuiteMeaning.TotalsNext` | src/scenario_engine/engine2_suite.py:705-734 | a kept child adds the bytes of its three documents and the selections of its schedule to the totals |
| `Suites.ExecuteSuite` | src/scenario_engine/engine2_suite.py:705-738 | each case is executed and recorded in plan order under the byte and selection totals of the children kept before it, counted and summed up, and the suite passes every constructor check |
| `Suites.Verify` | src/scenario_engine/engine2_suite.py:865-936 | verification accepts if and only if the suite is well-formed, every child is read back, every reference, identity, link, code and bound holds of what was read, and no two different children share a digest |
| `SuiteMeaning.AcceptedMeans` | src/scenario_engine/engine2_suite.py:865-936 | an accepted suite has every planned case in order with a status that fits, counts and overall classification that are right, totals within bounds, and for every case with evidence three documents that read back, are named by its references and tell one story with its request |
| `Suites.ExecutedSuitesVerify` | src/scenario_engine/engine2_suite.py:865-936 | a suite the executor returned passes every constructor check, its running totals stay within bounds, and it is accepted with its own children if and only if every value in a retained result can be read back and no two different children share a digest |
| `Mimics.ReservedStateRefused` | src/scenario_engine/engine2.py:430-448 | one step writing an object whose only key is `$type` succeeds, is retained as a success, and is refused by the suite's verification |
| `Mimics.DeepStateRefused` | src/scenario_engine/engine2.py:415-421 | so is a run that leaves an initial state nested one level too deep |

## Left out

- Command line, rendering, file export, symlink and path checks, bundle reading, and the SQLAlchemy, pytest, Hypothesis and Schemathesis integrations: presentation and foreign calls.
- YAML loading and textual splicing of sources: a splice is an arbitrary function, and the content guard is what makes its result safe.
- SHA-256, random draws, UUID and ISO formatting, decimal contexts, NFC: abstract functions.
- Plugins as code and plugin prevalidation: a generator is a function of its address and arguments.
- Constraint and resource validators before a run, provenance, Engine 1 manifests, versions, domain packs, migration plans, scaffolding and composition namespaces: each is settled by reading one branch.
- Faults before validation, which only Engine 1 applies: both engines are modelled with faults before a step.
- Byte-size ceilings on canonical encodings, requests and sources: assumed not exceeded, except where accounting is the claim.
- Impact edges of step documents and DSL 2 impact labels: graphs are given, and labels of DSL 2 depend on the order of definitions.
- Field-by-field type checks of frozen records: the types of the model stand for them.
- Sorting by UTF-8 bytes is modelled as sorting by code point, which is the same order.
- DiffTraversal.Compare: does not model the nesting check on the values a record holds or the byte ceiling of the whole diff.
- Assertions.ReportedPathsResolve: `int` is assumed to read every decimal number, as it does up to 4300 digits; Unicode digit classes are an abstract function.
- Interpreter.RouteRefines: a routing call that runs into the operation limit of 4096 may end with that error where the interpreter would go on.
- SingleActor.OneActorEquivalence: assumes generated values and artifact identities do not depend on the actor field of an address; a document that does not compile is compared by one concrete input only (`SingleActor.EnginesCanDifferAtLoad`).
- Shrinking.Shrink: whether the evidence can be read, whether a scenario uses plugins, the request's seeds, run index and actor list, and the resource hashes are abstract functions of the request; a deadline is an arbitrary answer to each clock reading.
- Suites.ExecuteSuite: plan-level checks of case identifiers, positions and request sizes are assumed to have passed; resource and generator names carry their prefixes.
- Suites.Verify: children supplied from elsewhere and the rereading of the suite's own bytes, which hold only texts, numbers and one timestamp, are not modelled.
- Results.ReadResult2: a document is parsed into its typed fields; a missing, unknown or mistyped field is a parse failure of the abstract parser.
- Matrix.Expand: filters are functions of an assignment that keep, drop or raise; stable case identifiers are left out.
- Resources.ResolveResources: all resolution failures share one error; defensive copying is not modelled.
- Windows.Executor.Await: a task yields the same result whenever it runs; cancellation at shutdown is not modelled.
