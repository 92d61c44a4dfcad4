# Feldspar: verified model

Feldspar is a typed graph of solvers over named ports, with a route planner, a small symbolic-equation
kernel that derives solver directions from equations, a Hardy-Cross solver for flow networks, engine-owned error
propagation, and a refinement ladder for finite-element runs. This project models those five components in Dafny
and proves what they promise. `dafny verify dfyconfig.toml` checks everything.

## How the model is laid out

| files | component | source |
|---|---|---|
| `Wrappers`, `Reals`, `Names`, `Intervals` | shared results, absolute value, name order and ordered maps, intervals, accuracies, domains | `interval.rs`, `accuracy.rs`, `domain.rs` |
| `Propagation` | corner sweeps, hull folds, accumulation by inflation | `propagation.rs` |
| `PlanModel`, `PlanLemmas`, `PlanOptimal`, `PlanTermination`, `PlanOrder`, `PlanRoute`, `CycleCheck`, `PlanSearch`, `Planner`, `PlanFeeds`, `PlanCost`, `PlanArena`, `PlanStage`, `PlanDiamond`, `PlanShared`, `PlanOneSided`, `PlanEnds`, `PlanSound`, `PlanWalk` | the route planner | `search.rs` |
| `SymExpr`, `SymCanon`, `SymConfluence`, `SymEval`, `SymPrint`, `SymInvert`, `SymSolve`, `SymRoots`, `SymLimits`, `SymNear`, `SymDerivative`, `SymBox`, `SymPath`, `SymSides`, `SymFaults` | the symbolic kernel | `symbolic.rs` |
| `NetGraph`, `NetLoops`, `NetPaths`, `NetFlow`, `NetCorrection`, `NetSolve`, `NetConverge` | the network solver | `network.py` |
| `Ladder` | two-mesh extrapolation, the ladder, the rung cache | `richardson.py`, `ladder.py` |

Code that updates state is a class or a method with loops (`PlanSearch.SearchState`, `Planner.RouteBuilder`,
`SymInvert.PeelLog`, `NetFlow.Edge`, `Ladder.RungCache`, and the methods around them), proved equal to a pure
specification; the theorems are about that specification.

## Main results

- **Planner.** `Planner.AnswerIsExact` measures every answer against all admissible derivation trees, in spite of
  dominance pruning: a route is executable, within budget and no dearer than any derivation within the budget;
  `BudgetUnreachable` carries the least total error of any derivation; `NoApplicableSolver` means there is none.
  `PlanSound.PlanMeans` restates this without the planner's own estimates, over the values that derivations can give, and
  `PlanSound.AnswerPredictsIff` bounds the target's true value by the predicted error.
  `PlanCost.SucceedsIffExecutable` says the same of success in terms of executable step lists. The answer does not depend
  on the order of the solver list (`Planner.AnswerIgnoresOrder`). The search ends where no solver that takes several ports
  feeds one of them (`PlanTermination.SearchEnds`), and only there: over any other registry of two-sided solvers without
  renaming cycles some request is never answered (`PlanEnds.AlwaysAnsweredIff`). Two promises of the routing document
  hold under conditions on the registry that are proved exact: a returned route is the cheapest executable plan
  exactly when no solver joins two ports with a common feeder (`PlanShared.CheapestIffDiamondFree`), and a one-sided step
  is always the last exactly when no one-sided solver feeds the target through another (`PlanOneSided.OneSidedLastIff`).
- **Symbolic kernel.** Canonicalising is confluent, a fixed point, and preserves values; the exact loss of faults is
  `SymEval.CanonPreservesExactly`. The printer is injective. Inversion is exact in both directions
  (`SymRoots.InvertIsExact`), and its branch and every refusal are read off the path to the target
  (`SymPath.InvertAnswers`). The derivative is the real one up to a second-order remainder, for every expression
  whose exponents over the variable are literal, given the textbook slopes of the named functions, and is the only
  number with that property; for other exponents the zero that the code gives is right exactly where
  `SymDerivative.NonLiteralExponentIff` says. Derived boxes lose no strict solution and drop no constraint, and
  `SymSides.BoxDerivedIff` says exactly when there is one.
- **Network.** The whole solve is determined: one breadth-first tree, one seed, one way for the sweeps to end
  (`NetSolve.SolvedOnce`, `NetCorrection.EndsIff`). The cycle basis consists of closed circulations, one per chord. Seeding finds an assignment that meets
  continuity exactly when there is one. A whole run keeps every node balance when no loop contains an imposed edge, and
  for a single correction that condition is also necessary. Drops form a potential field exactly when they close around
  every loop of the basis, which is exactly when a sweep changes nothing. After a
  solve that succeeded the drops nearly close around every loop, and so depend little on the path
  (`NetConverge.SolvedDropsAgree`), for every law whose slope describes its drops; linear laws and fixed resistances do.
- **Propagation.** Sweeping corners of inflated inputs encloses the true value at every port of any route.
- **Ladder.** The cached climb answers what the uncached one answers; a looser budget asks for no more rungs and reruns
  none that is cached; owners that share a cache do not see each other's rungs (`Ladder.SessionStaysConsistent`).

## Modelling conventions

- Floating-point numbers are reals: no rounding, infinities, NaN or signed zero. `1 / 0`, where the source produces an
  infinite literal, is an arbitrary parameter `inf`.
- A solver's cost is non-negative, accuracies are non-negative and known intervals are ordered (`PlanLemmas.WfProblem`),
  as the source's constructors enforce or its documentation states.
- A tie key is the map from port to inflated bounds and cost that the source prints; `before` is any order on such maps,
  assumed total only where the order of the solver list is at stake. Step identity, a pointer in the source, is a position
  in an arena.
- `limit` bounds the number of turns of the planner's loop, which the source leaves unbounded; an `Unfinished` answer means
  only that the limit was too small.
- The laws assumed of square root, exponential, logarithm and roots are `SymSolve.Laws`; sine and cosine are arbitrary.
- A head-loss law is any function from an edge and a signed flow to a drop and a slope; theorems that need it odd, linear
  or with a slope that vanishes only at rest say so.
- Library sorts are insertion sorts; `SymCanon.SortedUnique` shows that the choice does not matter.

## Where the code and its documentation differ

The model follows the code.

- `docs/spec/04-routing.md:66-69` words dominance as an interval superset; the code keeps the label whose inflated interval is
  the subset (`crates/feldspar-core/src/search.rs:203-205`).
- `docs/spec/04-routing.md:42-44` promises minimal total cost. The search minimises the additive tree cost, in which a
  step used twice counts twice, as `crates/feldspar-core/src/search.rs:19-23` admits. On a registry in which no solver joins
  two ports with a common feeder the promise holds (`PlanCost.PlansAreDerivable`, `PlanShared.DiamondFreeIsCheapest`); on
  any other ranked registry of two-sided solvers there are costs for which it fails (`PlanShared.SharedStepsCostLess`).
- `crates/feldspar-core/src/search.rs:371-383` answers a target that is already known with a predicted error of zero,
  however wide the known interval is; the claim is right only for a point (`PlanSound.AnswerPredictsIff`).
- `docs/spec/04-routing.md:82-86` wants the planner total. Over registries of two-sided solvers without renaming cycles it
  is, exactly when no solver that takes several ports feeds one of them, directly or through others
  (`PlanEnds.AlwaysAnsweredIff`); on `PlanEnds.LoopNeverEnds`,
  a request past all guards, it never answers.
- `crates/feldspar-core/src/search.rs:216-222` refuses cycles of renamings because a chain of them cannot end. The search
  would end: a renaming is dominated by what it renames (`PlanTermination.OneInputDominated`,
  `PlanEnds.RefusedSearchEnds`), and the check also refuses requests that one step answers (`PlanEnds.RenamerRefused`).
- `docs/spec/04-routing.md:35-41` admits a one-sided solver only as the final step; the code only asks that the target be
  among its outputs (`crates/feldspar-core/src/search.rs:329-334`), so another of its outputs may feed a later step.
  `PlanOneSided.UpperIsForwarded` is such a request; `PlanOneSided.RuleHolds` and `PlanOneSided.OneSidedLastIff` say when
  there is none.
- `python/feldspar/fea/richardson.py:73-92` says the fallback guards against degenerate or non-monotone pairs and is more
  conservative. It fires only for orders below one, and then for any two different values
  (`Ladder.FallbackIff`); the error it reports is the smaller one exactly when the safety factor exceeds the distance of two
  to the order from one (`Ladder.FallbackAgainstSafety`), so for every factor of at least one. At the order the pipeline
  uses it never fires.
- `crates/feldspar-core/src/symbolic.rs:552-553` presents odd roots as unique and real; evaluation takes them through a
  non-integer power, which has no value at a negative number (`SymLimits.NegativeBaseFaults`).
- `crates/feldspar-core/src/symbolic.rs:549` promises an admission predicate for a nonzero divisor; none is recorded
  (`crates/feldspar-core/src/symbolic.rs:631-644`): `a x = y` inverts without one, and where `a` and `y` are zero the solved
  form faults although the equation holds (`SymLimits.DivisorNotAdmitted`). `SymRoots.InvertIsExact` takes the nonzero
  divisor as a hypothesis.
- `crates/feldspar-core/src/symbolic.rs:767-769` promises the standard power rule; a non-literal exponent gives zero
  (`SymDerivative.NonLiteralExponentIsIgnored`), which is right only where `SymDerivative.NonLiteralExponentIff` says.
- `python/feldspar/fluids/network.py:708-722` describes the refused loops as all-imposer; the same error refuses every loop
  whose free edges have no slope at their flows (`NetCorrection.RefusedIffFlat`): free loops at rest, and loops of heat
  exchanger segments with a loss factor of zero, which line 346 accepts, at any flow (`NetCorrection.NoResistanceRefused`).

## Model

| member | source | states |
|---|---|---|
| `Names.BeforeIsLexicographic` | crates/feldspar-core/src/symbolic.rs:112-113 | Names are ordered character by character: one comes first when, after a common beginning, it has ended or its next character is the smaller one. |
| `Intervals.Interval.New` | crates/feldspar-core/src/interval.rs:28-41 | Construction succeeds exactly on ordered bounds, and the interval then contains exactly the reals between them; otherwise the error carries both bounds. |
| `Intervals.SubsetIsPointwise` | crates/feldspar-core/src/interval.rs:73-76 | The endpoint test for inclusion is inclusion of the point sets, both ways. |
| `Intervals.HullIsLeastUpperBound` | crates/feldspar-core/src/interval.rs:79-85 | The hull contains both arguments and is contained in every interval that does. |
| `Intervals.MidpointRadius` | crates/feldspar-core/src/interval.rs:55-64 | Every point of an interval is within its half width of the midpoint, and no smaller radius will do. |
| `Intervals.WorstOverIsMaximum` | crates/feldspar-core/src/accuracy.rs:59-74 | The worst error over an interval bounds the error at every point of it and is attained at one of them. |
| `Intervals.WorstOverMonotone` | crates/feldspar-core/src/accuracy.rs:67-74 | A wider interval never has a smaller worst error. |
| `Intervals.Domain.Admits` | crates/feldspar-core/src/domain.rs:50-81 | A domain reports no fault exactly when every required tag is present and every boxed port is supplied inside its box. |
| `Intervals.FaultIsFirst` | crates/feldspar-core/src/domain.rs:50-81 | The reported fault is the first one in order: missing tags by name, then boxed ports by name. |
| `Intervals.AdmitsAntitone` | crates/feldspar-core/src/domain.rs:50-81 | Shrinking the supplied intervals never turns admission into rejection. |
| `Propagation.TotalErrorIsInflatedHalfWidth` | crates/feldspar-core/src/propagation.rs:177-193 | The budget-checked total error is exactly the half width of the inflated interval, so inclusion of inflated intervals orders total errors. |
| `Propagation.InflateIsLeast` | crates/feldspar-core/src/propagation.rs:177-182 | Inflation holds exactly the values within the error of some point of the interval, and no smaller interval holds them all. |
| `Propagation.EnumerateCorners` | crates/feldspar-core/src/propagation.rs:56-90 | The enumeration lists each choice of end values exactly once, in strictly ascending order by port; the final sort changes nothing. |
| `Propagation.HullFoldIsHull` | crates/feldspar-core/src/propagation.rs:155-168 | The fold of results is their smallest box: it holds every reported value and both ends of each interval are reported values. |
| `Propagation.HullUnique` | crates/feldspar-core/src/propagation.rs:155-168 | There is only one smallest box of a list of results. |
| `Propagation.HullOrderIndependent` | crates/feldspar-core/src/propagation.rs:136-168 | The hull depends on which results there are, not on the order they arrive in. |
| `Propagation.HullFromResults` | crates/feldspar-core/src/propagation.rs:155-168 | The in-place fold computes that smallest box. |
| `Propagation.CornerSweep` | crates/feldspar-core/src/propagation.rs:117-134 | The sweep hulls the values at all corners, or stops with the error of the first failing corner. |
| `Propagation.SweepFailsIff` | crates/feldspar-core/src/propagation.rs:92-134 | A sweep fails if and only if evaluation fails at some corner of the box. |
| `Propagation.CornersBracket` | crates/feldspar-core/src/propagation.rs:92-134 | A function that stays between its end values along every axis is bracketed on the whole box by its values at two corners. |
| `Propagation.SweepStepEncloses` | crates/feldspar-core/src/propagation.rs:56-193 | One step swept over inflated inputs that hold the true values gives inflated outputs that hold the true values. |
| `Propagation.RouteEncloses` | crates/feldspar-core/src/propagation.rs:56-193 | Along any route of such steps every port's true value stays enclosed, and the true target is within the total error of its hull's midpoint. |
| `PlanLemmas.InsertCovers` | crates/feldspar-core/src/search.rs:207-214 | After an offer every label that was there, and the offered one, is dominated by a retained label. |
| `PlanLemmas.InsertAntichain` | crates/feldspar-core/src/search.rs:203-214 | Retained labels never dominate one another. |
| `PlanLemmas.InsertInOrder` | crates/feldspar-core/src/search.rs:207-214 | A kept offer comes last, after the labels it does not dominate in the order they were committed; those it dominates go. |
| `PlanLemmas.ApplyMonotone` | crates/feldspar-core/src/search.rs:440-497 | Applying a solver to dominating inputs is admitted whenever it was, and yields a dominating output. |
| `PlanLemmas.CombosAreChoices` | crates/feldspar-core/src/search.rs:297-318 | The cartesian product lists exactly the choices of one current label per input port. |
| `PlanLemmas.RegenerateSpec` | crates/feldspar-core/src/search.rs:320-356 | A refill keeps the frontier, pushes every choice of every participating solver, and queues each key once and only if it was never pushed before. |
| `PlanLemmas.BestIsCheapest` | crates/feldspar-core/src/search.rs:414-431 | No queued candidate is cheaper than the popped one. |
| `PlanLemmas.BestWithinSpec` | crates/feldspar-core/src/search.rs:530-538 | The winner is within the budget and no label within the budget is cheaper; there is none exactly when no label is within the budget. |
| `PlanLemmas.BestWithinIsFirst` | crates/feldspar-core/src/search.rs:530-538 | Among equally cheap labels within the budget the one committed first wins. |
| `PlanOptimal.InitialInv` | crates/feldspar-core/src/search.rs:397-403 | The loop invariant holds of the starting labels and the empty frontier. |
| `PlanOptimal.TurnCorrect` | crates/feldspar-core/src/search.rs:405-539 | One turn keeps the loop invariant, or ends with an answer that is right. |
| `PlanOptimal.DerivationCovered` | crates/feldspar-core/src/search.rs:203-214 | Every admissible derivation cheaper than the frontier is dominated, at its port, by a retained label. |
| `PlanOptimal.RunCorrect` | crates/feldspar-core/src/search.rs:405-539 | Every run that ends, however long, ends with a correct answer. |
| `PlanOptimal.SearchIsOptimal` | crates/feldspar-core/src/search.rs:359-539 | When the search succeeds, its label is attained by an admissible derivation within the budget and no admissible derivation of the target within the budget has a smaller additive tree cost. |
| `PlanOptimal.LeastErrorIsLeast` | crates/feldspar-core/src/search.rs:541-548 | The folded best error is the least over the target's labels and is attained. |
| `PlanOptimal.FailureIsExact` | crates/feldspar-core/src/search.rs:541-550 | When the frontier empties the target has labels exactly when some derivation reaches it, and then the least label error is the least total error over all admissible derivations and exceeds the budget. |
| `PlanTermination.TurnRetiresOne` | crates/feldspar-core/src/search.rs:405-431 | Each turn that goes on retires exactly one pushed key. |
| `PlanTermination.OneInputDominated` | crates/feldspar-core/src/search.rs:203-205 | Applying a solver to a single port never improves on what came in: the input dominates every output. |
| `PlanTermination.RepeatCovered` | crates/feldspar-core/src/search.rs:203-214 | Where no join feeds itself, a derivation that passes a port and leads back to it offers that port nothing: a retained label covers it. |
| `PlanTermination.TurnTame` | crates/feldspar-core/src/search.rs:405-539 | So each turn keeps every label derivable without repeating a port on any path, all parts of the derivation covered by retained labels. |
| `PlanTermination.SearchEnds` | crates/feldspar-core/src/search.rs:359-539 | Where no join feeds itself the search ends, within a bound computed from a finite key universe of as many levels as there are output ports. |
| `PlanTermination.RankedSearchEnds` | crates/feldspar-core/src/search.rs:359-539 | In particular it ends when ports can be ranked so that every participating solver's outputs lie above its inputs. |
| `PlanEnds.Trips` | crates/feldspar-core/src/search.rs:405-539 | With every taken port to be had at one or more, each trip round a join that feeds itself adds at least one. |
| `PlanEnds.NeverAnswered` | crates/feldspar-core/src/search.rs:405-539 | A request past the guards on which a join feeds itself, all its ports can be had exactly and the target is too loose is never answered. |
| `PlanEnds.SomeRequestUnanswered` | crates/feldspar-core/src/search.rs:405-539 | Every registry of two-sided solvers without renaming cycles in which a join feeds itself has such a request, with one more direct solver. |
| `PlanEnds.AlwaysAnsweredIff` | docs/spec/04-routing.md:82-86 | Over such registries every request with one more direct solver that gets past the guards is answered if and only if no join feeds one of its own inputs. |
| `PlanEnds.LoopNeverEnds` | crates/feldspar-core/src/search.rs:405-539 | Two two-input solvers feeding each other: the request gets past the guards and no number of turns answers it. |
| `PlanOrder.BestIsLeast` | crates/feldspar-core/src/search.rs:414-431 | The popped candidate is the unique least one by cost, solver id and tie key. |
| `PlanOrder.PopIsLeast` | crates/feldspar-core/src/search.rs:414-431 | The popped candidate has the least cost, among those of that cost the first solver id, and among those of that id the least tie key. |
| `PlanOrder.RunLockstep` | crates/feldspar-core/src/search.rs:405-539 | Runs over two orders of the same solver list stay in lockstep, turn by turn. |
| `PlanOrder.OrderDoesNotMatter` | crates/feldspar-core/src/search.rs:359-551 | With unique ids, permuting the solver list changes neither the outcome, nor the labels left behind, nor the arena of steps. |
| `CycleCheck.BuildGraph` | crates/feldspar-core/src/search.rs:222-230 | The adjacency map has an edge exactly for each one-input, one-output solver. |
| `CycleCheck.Visit` | crates/feldspar-core/src/search.rs:241-261 | A positive visit exhibits a closed path; a negative one leaves the node finished, the nodes being visited as they were, and the finished nodes ranked. |
| `CycleCheck.TopologicalIsAcyclic` | crates/feldspar-core/src/search.rs:214-222 | A rank that falls along every renaming rules out cycles. |
| `CycleCheck.DetectPortEquivalenceCycle` | crates/feldspar-core/src/search.rs:222-269 | The three-colour search answers yes exactly when the renaming graph has a directed cycle, and on no there is a topological rank. |
| `PlanRoute.RunGrounded` | crates/feldspar-core/src/search.rs:499-525 | Every label of a run is a known value or the output of a recorded step fed by earlier ones. |
| `PlanRoute.WalkIsExact` | crates/feldspar-core/src/search.rs:571-587 | The walk lists each step that feeds the winner exactly once, after everything that feeds it, the winner last, at no more than the winner's tree cost. |
| `PlanRoute.RouteIsExecutable` | crates/feldspar-core/src/search.rs:553-602 | Every step of the returned route finds its inputs among known ports and earlier outputs, inside its admission box with tags met, and reports the largest error its solver declares there; the last provides the target within budget; the total cost is at most the winner's and at most that of any derivation within the budget. |
| `PlanWalk.WalkIsPostOrder` | crates/feldspar-core/src/search.rs:571-602 | The route lists its steps in the post-order of the winning derivation, inputs by port name, each step where it first occurs. |
| `PlanSearch.SweptSum` | crates/feldspar-core/src/search.rs:476-484 | The corner sweep of the sum surrogate yields the sum of the lower ends and the sum of the upper ends. |
| `PlanSearch.SearchState.constructor` | crates/feldspar-core/src/search.rs:397-403 | The starting state: one label per known port, nothing queued. |
| `PlanSearch.SearchState.CombosFor` | crates/feldspar-core/src/search.rs:297-318 | The nested loops build the product of the current label sets, empty when some input has no label. |
| `PlanSearch.SearchState.RegenerateCandidates` | crates/feldspar-core/src/search.rs:320-356 | The refill in place appends exactly the candidates the specification pushes. |
| `PlanSearch.SearchState.PopBest` | crates/feldspar-core/src/search.rs:414-431 | The pop removes one candidate, the best in frontier order, and leaves the others in place. |
| `PlanSearch.SearchState.InsertWithDominance` | crates/feldspar-core/src/search.rs:207-214 | An offer changes only its port's set, to the specified one, and reports whether the label was kept. |
| `PlanSearch.SearchState.CommitOutputs` | crates/feldspar-core/src/search.rs:507-525 | All outputs of a step are offered, and the answer says whether any was kept. |
| `PlanSearch.SearchState.EstimateOutputs` | crates/feldspar-core/src/search.rs:476-497 | Interval and model error of every output are those of a corner sweep over the inflated inputs; `PlanSound.OutPartIsExact` says what values these stand for. |
| `PlanSearch.SearchState.ExpandCandidate` | crates/feldspar-core/src/search.rs:432-538 | One popped candidate is rejected, committed, or ends the search, as the specified turn does. |
| `PlanSearch.SearchState.OneTurn` | crates/feldspar-core/src/search.rs:405-539 | One turn on the mutable state is one specified turn. |
| `Planner.RouteBuilder.WalkRoute` | crates/feldspar-core/src/search.rs:571-602 | The recursive walk over the mutable visited set and step list is the specified walk. |
| `Planner.BuildRoute` | crates/feldspar-core/src/search.rs:553-569 | The route carries the walked steps, the winner's total error and the sum of the steps' own costs. |
| `Planner.Plan` | crates/feldspar-core/src/search.rs:359-551 | The planner returns the specified answer: guards in order, then the search, then the route or the failure value; `PlanSound.PlanMeans` says what each answer means. |
| `Planner.AnswerIsExact` | crates/feldspar-core/src/search.rs:359-551 | Each answer of a search is right: a route runs, is within budget and costs no more than any derivation within the budget; an unreachable budget reports the least reachable error; no applicable solver means no derivation. |
| `PlanSound.SumHullIsExact` | crates/feldspar-core/src/search.rs:472-484 | The interval estimated for an output holds exactly the sums of the points of the input box. |
| `PlanSound.OutPartIsExact` | crates/feldspar-core/src/search.rs:476-497 | What a consumer sees of an output holds exactly the values within the declared absolute-plus-relative error, at its largest over the box, of the sum of some point of the box. |
| `PlanSound.WorthIsExact` | crates/feldspar-core/src/search.rs:440-514 | By induction over a derivation: the planner's interval for it holds exactly the values it can give its port, and its cost is each solver's own cost plus that of its inputs. |
| `PlanSound.AdmissibleIffFits` | crates/feldspar-core/src/search.rs:329-336 | Planning admits exactly the derivations whose solvers are two-sided or conservative for the sense asked and giving the target, have their tags, and are declared for every value their inputs can have. |
| `PlanSound.PlanMeans` | crates/feldspar-core/src/search.rs:359-551 | Every answer, in these terms and without the planner's own estimates: each guard fires on its condition alone; a route carries the exact error of a cheapest derivation within the budget and the sum of its steps' costs, no more than that derivation's; an unreachable budget reports the least error of any derivation. |
| `PlanSound.StepHoldsTruth` | crates/feldspar-core/src/search.rs:8-17 | Along an executable plan, in any state of the world in which the known ports lie in their intervals and each step's outputs are within its declared error of the sum of its inputs, whatever a step offers holds the true value. |
| `PlanSound.AnswerPredictsIff` | crates/feldspar-core/src/search.rs:371-383 | In all such states the true target is within the predicted error of one value fixed in advance; the zero-step route of a known target, which claims an error of zero, keeps this exactly when the known interval is a point. |
| `Planner.SucceedsIff` | crates/feldspar-core/src/search.rs:359-551 | A search that ends succeeds if and only if some admissible derivation of the target is within the budget. |
| `Planner.GuardsAreSound` | crates/feldspar-core/src/search.rs:367-390 | The zero-step route is returned exactly for known targets, and an unknown target has no derivation. |
| `Planner.AnswerIgnoresOrder` | crates/feldspar-core/src/search.rs:359-551 | Permuting the solver list gives the same route or the same error. |
| `Planner.RankedRequestsAnswered` | crates/feldspar-core/src/search.rs:359-551 | Ranked requests are always answered. |
| `PlanEnds.RunSucceedsIff` | crates/feldspar-core/src/search.rs:359-551 | Whatever the guards say, a search that ends succeeds exactly when some derivation meets the budget. |
| `PlanEnds.RefusedSearchEnds` | crates/feldspar-core/src/search.rs:216-222 | Where no join feeds itself the search that the renaming check refuses would end, and find a route exactly when some derivation meets the budget. |
| `PlanEnds.RenamerRefused` | crates/feldspar-core/src/search.rs:216-222 | Two solvers that rename into each other are refused although one step makes the target within the budget. |
| `PlanCost.PlansAreDerivable` | crates/feldspar-core/src/search.rs:553-569 | Any executable list of steps ending in the target within budget is matched by a derivation; and when no solver joins two ports with a common feeder, it costs at least what the planner's route does. |
| `PlanCost.UnaryIsDiamondFree` | crates/feldspar-core/src/search.rs:19-23 | A registry whose solvers have at most one input each shares no step. |
| `PlanCost.SucceedsIffExecutable` | crates/feldspar-core/src/search.rs:359-551 | A search that ends succeeds if and only if some executable list of steps ends in the target within the budget. |
| `PlanArena.NodeDerivable` | crates/feldspar-core/src/search.rs:499-505 | Every output of every recorded step is derivable at that step's tree cost. |
| `PlanArena.FeederFeeds` | crates/feldspar-core/src/search.rs:571-587 | Every recorded step that feeds another was made by a solver that feeds one of its inputs. |
| `PlanDiamond.DiamondIsDear` | crates/feldspar-core/src/search.rs:19-28 | With the shared solver at cost 2, a direct solver at 3 and everything below the shared one free, the search ends, every answer costs 3, and an executable plan costs 2. |
| `PlanShared.DiamondFreeIsCheapest` | docs/spec/04-routing.md:42-44 | Without joins of ports with a common feeder no executable plan is cheaper than the returned route. |
| `PlanShared.SharedStepsCostLess` | crates/feldspar-core/src/search.rs:19-28 | For any join of two ports with a common feeder in a ranked registry of two-sided solvers there are costs, accuracies and one more direct solver on which the returned route costs more than an executable plan. |
| `PlanShared.CheapestIffDiamondFree` | docs/spec/04-routing.md:42-44 | Over such a registry every answer of every request with one more direct solver is the cheapest executable plan if and only if no solver joins two ports with a common feeder. |
| `PlanShared.SmallestDiamond` | crates/feldspar-core/src/search.rs:19-28 | Four solvers suffice: one port used twice and joined again. |
| `PlanShared.RankedIsAcyclic` | crates/feldspar-core/src/search.rs:214-222 | Requests with ranked ports and two-sided solvers never fail the renaming check. |
| `PlanOneSided.RuleHolds` | docs/spec/04-routing.md:35-41 | If no participating one-sided solver feeds the target through another solver, only the last step of a returned route can be one-sided. |
| `PlanOneSided.RuleFails` | crates/feldspar-core/src/search.rs:329-334 | If one does, in a ranked registry, there is a request whose returned route runs it before the last step. |
| `PlanOneSided.OneSidedLastIff` | crates/feldspar-core/src/search.rs:329-334 | Over a ranked registry the documented rule holds of every answer to every request if and only if no participating one-sided solver feeds the target through another. |
| `PlanOneSided.UpperIsForwarded` | crates/feldspar-core/src/search.rs:329-334 | Two solvers suffice: an upper-bound solver that is loose on the target and feeds a two-sided one is run first. |
| `SymExpr.CmpIsTotalOrder` | crates/feldspar-core/src/symbolic.rs:96-155 | The structural comparison is a total order that answers Equal only on identical trees. |
| `SymExpr.CmpTransitive` | crates/feldspar-core/src/symbolic.rs:117-155 | Less-or-equal composes, strictly when either step is strict. |
| `SymExpr.KindsInOrder` | crates/feldspar-core/src/symbolic.rs:94-106 | Kinds come in the pinned order: literals, variables, negations, powers, named functions, sums, products. |
| `SymExpr.WithinKind` | crates/feldspar-core/src/symbolic.rs:109-155 | Within a kind: literals by value, variables by name, functions by function and then argument, powers by base and then exponent, sums and products at their first difference, and by length where there is none. |
| `SymCanon.SortedUnique` | crates/feldspar-core/src/symbolic.rs:204-206 | A bag of operands has one ascending arrangement, so the library sort is determined. |
| `SymEval.Canonicalize` | crates/feldspar-core/src/symbolic.rs:166-250 | The recursion with local accumulators computes the specified canonical form. |
| `SymEval.CanonicalizeNode` | crates/feldspar-core/src/symbolic.rs:173-207 | Flattening, folding, dropping identities and sorting one sum or product, as loops. |
| `SymConfluence.CanonIsCanonical` | crates/feldspar-core/src/symbolic.rs:158-250 | Canonical forms are flat, sorted, and keep at most one literal, never an identity or an absorbing zero. |
| `SymConfluence.CanonIsFixedPoint` | crates/feldspar-core/src/symbolic.rs:157-250 | Canonicalising twice equals canonicalising once, and the fixed points are exactly the canonical trees. |
| `SymConfluence.RearrangesSame` | crates/feldspar-core/src/symbolic.rs:166-250 | One permutation or re-nesting of a sum or product, at any depth, does not change the canonical form. |
| `SymConfluence.Confluent` | crates/feldspar-core/src/symbolic.rs:157-250 | Neither does any chain of them, in either direction. |
| `SymEval.Evaluate` | crates/feldspar-core/src/symbolic.rs:293-359 | The evaluator's recursion and loops compute the specified value or the first fault. |
| `SymFaults.EvalFaults` | crates/feldspar-core/src/symbolic.rs:293-359 | An operation reports the fault of its first operand without a value; when all have one it faults exactly when its own domain is left: the square root of a negative number, the logarithm of one that is not positive, an exponential that overflows, a negative power of zero, a non-integer power without a value. |
| `SymFaults.LeafFaults` | crates/feldspar-core/src/symbolic.rs:295-299 | A port is reported missing, by its name, exactly when it is not supplied. |
| `SymEval.NodeValue` | crates/feldspar-core/src/symbolic.rs:300-313 | A sum or product evaluates exactly when all operands do, to the sum or product of their values. |
| `SymEval.CanonMeans` | crates/feldspar-core/src/symbolic.rs:166-359 | Whenever the original evaluates, the canonical form evaluates to the same value. |
| `SymEval.CanonPreservesExactly` | crates/feldspar-core/src/symbolic.rs:231-233 | The original evaluates if and only if the canonical form does and no product that collapsed to zero hid a fault. |
| `SymEval.CollapseLosesFault` | crates/feldspar-core/src/symbolic.rs:231-233 | A collapsing product can lose a fault: zero times a missing port canonicalises to zero. |
| `SymPrint.ReadsBack` | crates/feldspar-core/src/symbolic.rs:260-286 | A printed expression followed by an end marker can be read back in only one way. |
| `SymPrint.PrintInjective` | crates/feldspar-core/src/symbolic.rs:260-286 | Two expressions with clean names and an injective clean number format print equally if and only if they are equal. |
| `SymPrint.PrintedText` | crates/feldspar-core/src/symbolic.rs:260-286 | The canonical text: prefix forms in parentheses, operands separated by one space, variables and literals tagged. |
| `SymPrint.FunctionText` | crates/feldspar-core/src/symbolic.rs:265-269 | The same for the named functions. |
| `SymInvert.PeelInto` | crates/feldspar-core/src/symbolic.rs:610-765 | The recursive peel with its mutable record computes the specified result and leaves the specified record. |
| `SymInvert.Invert` | crates/feldspar-core/src/symbolic.rs:560-603 | Inversion returns the specified inversion or error; `SymPath.InvertAnswers` and `SymRoots.InvertIsExact` say what these are. |
| `SymInvert.PeelSucceedsIff` | crates/feldspar-core/src/symbolic.rs:610-765 | A peel succeeds exactly when the path has no sine or cosine and only integer literal powers, the even ones with a declared sign. |
| `SymInvert.InvertSucceedsIff` | crates/feldspar-core/src/symbolic.rs:560-603 | Inversion succeeds exactly when the target occurs once in the zeroed equation on such a path. |
| `SymPath.PathLeadsDown` | crates/feldspar-core/src/symbolic.rs:604-609 | The path leads from the zeroed equation down to the target, one operand at a time, through the only occurrence. |
| `SymPath.PeelAnswers` | crates/feldspar-core/src/symbolic.rs:610-765 | A peel that succeeds has met no obstacle and records the branch of the last power or named function on the path; one that fails reports the error of the first obstacle. |
| `SymPath.InvertAnswers` | crates/feldspar-core/src/symbolic.rs:560-603 | On success the inversion is for the target, canonical, on the declared branch if the last power or function on the path is an even power and on the principal one otherwise; each refusal is returned exactly when its condition holds: no occurrence, several, or the first obstacle on the path being of its kind (an undeclared even power with both signs, an exponent, a non-literal, unsigned even or non-integer power, a periodic function). |
| `SymSolve.CanonOmits` | crates/feldspar-core/src/symbolic.rs:166-250 | Canonicalising introduces no variable. |
| `SymSolve.PeelOmits` | crates/feldspar-core/src/symbolic.rs:610-765 | The solved form does not mention the target. |
| `SymSolve.PeelFinds` | crates/feldspar-core/src/symbolic.rs:610-765 | Wherever the peeled expression has the value it is set equal to, with nonzero divisors and exponents and bases on the chosen branch, the solved form evaluates to the target's value and every admission predicate holds. |
| `SymRoots.PeelSolves` | crates/feldspar-core/src/symbolic.rs:610-765 | Conversely, giving the target the value of the solved form satisfies the equation, on the chosen branch, wherever the admission predicates hold. |
| `SymRoots.InvertIsExact` | crates/feldspar-core/src/symbolic.rs:560-765 | For a successful inversion, where divided-out factors and exponents are nonzero (`Beside`) and no fault hides behind a literal zero (`CollapsesSafely`), the equation holds with bases on the chosen branch if and only if the target has the solved form's value and the admission predicates hold. |
| `SymLimits.NegativeBaseFaults` | crates/feldspar-core/src/symbolic.rs:689-692 | Inverting `x ^ n = y` for odd `n` of at least three succeeds, and wherever the base is negative the equation holds and the solved form faults. |
| `SymLimits.ZeroExponentAccepted` | crates/feldspar-core/src/symbolic.rs:687-719 | Inverting `x ^ 0 = y` on a declared branch succeeds without any admission, although every target satisfies the equation where `y` is one; the solved form is wrong for all targets but at most one. |
| `SymLimits.DivisorNotAdmitted` | crates/feldspar-core/src/symbolic.rs:631-644 | Inverting `a x = y` succeeds without any admission, and where `a` and `y` are zero the equation holds and the solved form faults. |
| `SymLimits.StuckIsConstant` | crates/feldspar-core/src/symbolic.rs:631-719 | Wherever factors divided out on the path multiply to zero, or an exponent on it is zero, the value does not depend on the target. |
| `SymLimits.VanishingDivisorMisleads` | crates/feldspar-core/src/symbolic.rs:560-765 | Exactness needs `Beside`: where it fails the equation holds for every target at which it evaluates or for none, and if it holds for two the solved form is wrong for one of them. |
| `SymDerivative.ProductTermsValue` | crates/feldspar-core/src/symbolic.rs:797-817 | The terms written down for a product sum to the slope given by the two-factor rule. |
| `SymDerivative.DerivativeIsReal` | crates/feldspar-core/src/symbolic.rs:781-880 | Wherever exponents over x are literal, negative powers have a nonzero base and the functions on the way to x have their textbook slopes at their arguments, the value at x + h is the value at x plus h times the value of the derivative expression, up to a constant times h squared, for all small enough h. |
| `SymDerivative.PolynomialDerivativeIsReal` | crates/feldspar-core/src/symbolic.rs:781-880 | For expressions polynomial in x, whatever the parts that omit x, this holds everywhere and for all h up to one. |
| `SymDerivative.ChainTracks` | crates/feldspar-core/src/symbolic.rs:837-876 | The chain rule: an expression that applies a function to another has the product of the slopes. |
| `SymDerivative.RawFnValue` | crates/feldspar-core/src/symbolic.rs:837-876 | The derivative written down for each named function is its textbook slope times that of the argument. |
| `SymDerivative.SqrtSlope` | crates/feldspar-core/src/symbolic.rs:838-850 | At a positive argument the square root, being a non-negative number that squares to it, has the slope one over twice its value. |
| `SymNear.NegativePowerSlope` | crates/feldspar-core/src/symbolic.rs:818-836 | Away from zero a negative integer power has the slope of the power rule. |
| `SymDerivative.SlopeIsUnique` | crates/feldspar-core/src/symbolic.rs:781-880 | No other number approximates the change that well, so this pins the derivative. |
| `SymDerivative.NonLiteralExponentIsIgnored` | crates/feldspar-core/src/symbolic.rs:826-836 | A non-literal exponent is differentiated to zero although the value changes with the base. |
| `SymDerivative.NonLiteralExponentIff` | crates/feldspar-core/src/symbolic.rs:826-836 | For a non-literal exponent that omits x that zero is the derivative if and only if the exponent is zero, the base does not move, or the base is zero and the exponent at least two. |
| `SymDerivative.MovingExponentIff` | crates/feldspar-core/src/symbolic.rs:826-836 | For an exponent that moves over a base that does not, that zero is the derivative if and only if the exponential has slope zero there or the exponent has. |
| `SymBox.LinearValue` | crates/feldspar-core/src/symbolic.rs:1009-1062 | A recognised affine shape has the value coefficient times port plus offset, wherever the port is supplied, and a nonzero coefficient. |
| `SymBox.PredicateToBox` | crates/feldspar-core/src/symbolic.rs:932-1004 | The loops over the bound maps compute the specified box or error; `SymSides.BoxDerivedIff` says when and which. |
| `SymBox.DerivedBoxIsExact` | crates/feldspar-core/src/symbolic.rs:932-1004 | On success every point of the declared box that satisfies all predicates, as given or in non-strict form, is in the derived box; and unless a predicate hides a fault behind a literal zero (`AllSafe`), the derived box holds exactly the points of the declared box that satisfy the non-strict forms. |
| `SymBox.EmptyDomainIsEmpty` | crates/feldspar-core/src/symbolic.rs:985-994 | An empty-domain error is right: nothing in the declared box satisfies all predicates. |
| `SymBox.NothingDropped` | crates/feldspar-core/src/symbolic.rs:949-957 | Bounds are gathered exactly when every predicate is affine in one port; none is skipped. |
| `SymSides.RecognisedIff` | crates/feldspar-core/src/symbolic.rs:1009-1062 | In canonical form a predicate counts as affine exactly when it is a port, its negation or its product with a nonzero literal, alone or plus a constant. |
| `SymSides.BoxDerivedIff` | crates/feldspar-core/src/symbolic.rs:932-1004 | A box is derived exactly when every predicate is affine and every port declared or named has sides of both kinds with no lower side above an upper one, and then each port lies between its tightest sides; an empty domain names the first port in name order whose sides exclude each other; in the remaining cases the predicates are unboundable. |
| `SymBox.TargetsAreExact` | crates/feldspar-core/src/symbolic.rs:888-921 | The invertible targets are exactly the variables that pass the occurrence gate of inversion. |
| `NetGraph.BuildAdjacency` | python/feldspar/fluids/network.py:499-503 | Each node's list holds exactly its incident edges, in edge order. |
| `NetGraph.SpanningTree` | python/feldspar/fluids/network.py:494-533 | The breadth-first search succeeds exactly when the nodes are distinct and all reachable from the first, and then returns the tree in which every node hangs from the first listed node next to it by the first edge between them. |
| `NetGraph.BreadthFirstIsUnique` | python/feldspar/fluids/network.py:480-483 | There is only one such tree: its nodes, their order and their parent edges are determined. |
| `NetLoops.PathToRoot` | python/feldspar/fluids/network.py:546-554 | The loop up the parents lists the hops to the root with their signs away from it. |
| `NetLoops.BuildCycleBasis` | python/feldspar/fluids/network.py:536-581 | The basis has, for each edge outside the tree, the loop of that edge and the uncommon parts of the two paths. |
| `NetLoops.LoopSum` | python/feldspar/fluids/network.py:559-581 | Any edge weights summed around a loop give the chord's weight plus the difference of the tree potentials at its ends. |
| `NetLoops.LoopIsCirculation` | python/feldspar/fluids/network.py:559-581 | Every loop enters each node exactly as often as it leaves it. |
| `NetLoops.BasisIsCyclomatic` | python/feldspar/fluids/network.py:559-581 | There are exactly edges minus nodes plus one loops. |
| `NetLoops.ChordInOneLoop` | python/feldspar/fluids/network.py:559-581 | Every edge outside the tree is in exactly one loop. |
| `NetFlow.SkipSum` | python/feldspar/fluids/network.py:632-637 | The sum over a node's incidence list without its parent edge is its balance less that edge's part. |
| `NetFlow.ForcedValue` | python/feldspar/fluids/network.py:632-641 | A free parent edge has the same flow in every assignment that meets the seed's conditions. |
| `NetSolve.SettleNode` | python/feldspar/fluids/network.py:618-652 | Settling one node keeps the nodes below it settled, or shows that no assignment meets the conditions. |
| `NetSolve.Seed` | python/feldspar/fluids/network.py:589-669 | Seeding succeeds if and only if some assignment meets continuity with the imposed flows, and then leaves such an assignment in the edges; it is over-constrained exactly when already the nodes below the root cannot be served, and unbalanced when they can and the root is not. |
| `NetFlow.ContinuousOnce` | python/feldspar/fluids/network.py:589-669 | At most one assignment is continuous below the root, so the seed is determined. |
| `NetCorrection.CorrectChanges` | python/feldspar/fluids/network.py:735-738 | A correction changes a node's balance by the correction times the net number of free hops into it. |
| `NetCorrection.CorrectKeepsBalance` | python/feldspar/fluids/network.py:735-738 | Correcting a loop without imposed edges leaves every balance as it was. |
| `NetCorrection.CorrectionIsExact` | python/feldspar/fluids/network.py:735-738 | For a nonzero correction of a loop with a free edge, balances are kept if and only if the loop has no imposed edge. |
| `NetCorrection.TreeCarriesNothing` | python/feldspar/fluids/network.py:589-669 | Flows on tree edges alone that balance at every node are all zero. |
| `NetCorrection.RunKeeps` | python/feldspar/fluids/network.py:693-748 | Every sweep of a whole run leaves all balances and imposed flows as they were, when no loop has an imposed edge. |
| `NetConverge.CorrectionNearlyCloses` | python/feldspar/fluids/network.py:695-738 | For a law whose slope describes its drops up to a gauge of the step, one correction leaves at most one gauge per hop of the loop. |
| `NetConverge.CorrectionClosesLinearLoop` | python/feldspar/fluids/network.py:695-738 | For a law linear in the flow one correction makes the drops around its loop sum to zero. |
| `NetConverge.ResistanceIsTangent` | python/feldspar/fluids/network.py:441-460 | Fixed resistances, the law of orifices and heat exchanger segments, are such a law; the gauge is the largest resistance times the square of the step. |
| `NetCorrection.RefusedIffFlat` | python/feldspar/fluids/network.py:707-732 | With slopes never negative, a loop is refused exactly when no free edge of it has any slope at its flow. |
| `NetCorrection.RefusedIffStill` | python/feldspar/fluids/network.py:707-732 | Where every free edge of the loop has resistance, it is refused exactly when none of them carries flow. |
| `NetCorrection.NoResistanceRefused` | python/feldspar/fluids/network.py:346-349 | A loop whose free edges have resistance zero is refused whatever flows through it. |
| `NetCorrection.RunConverges` | python/feldspar/fluids/network.py:693-748 | A run that succeeds ends with a sweep whose largest correction is below the tolerance. |
| `NetCorrection.SweepOnce` | python/feldspar/fluids/network.py:693-738 | A sweep is a chain of corrections, one per loop in turn, each with the quotient its loop sums call for at the flows it finds; it reports the largest, and stops exactly at the first loop without slope. |
| `NetCorrection.EndsIff` | python/feldspar/fluids/network.py:693-753 | A run is a chain of sweeps: it succeeds at the first below one millionth, within a hundred; is refused at the first that cannot be made before that; and reports non-convergence exactly after a hundred that are not below, with the hundredth's largest correction. |
| `NetConverge.RunClosesLoops` | python/feldspar/fluids/network.py:693-748 | Its flows close every loop of the basis up to the tolerance once per loop, times the slope of the loop, and two gauges per hop. |
| `NetConverge.LinearLeftover` | python/feldspar/fluids/network.py:693-748 | For a linear law that is the tolerance times the number of loops times the sum of the factors of the loop. |
| `NetConverge.SolvedDropsAgree` | python/feldspar/fluids/network.py:836-842 | After a solve that succeeded the shortest walk between two nodes and any other drop alike, up to that much per hop. |
| `NetCorrection.FixedPointIsField` | python/feldspar/fluids/network.py:693-748 | For an odd law the flows a sweep leaves alone are exactly those whose drops form a potential field. |
| `NetSolve.HardyCrossSolve` | python/feldspar/fluids/network.py:672-753 | The solve returns the flows at which the run of sweeps from the seed ends, over the breadth-first tree and its loops; each refusal is for the reason it names. |
| `NetSolve.SolvedOnce` | python/feldspar/fluids/network.py:672-753 | A network has at most one solution: tree, seed and flows are determined by it. |
| `NetSolve.RefusedIsNotSolved` | python/feldspar/fluids/network.py:672-753 | No network is both refused and solved. |
| `NetSolve.SolutionIsContinuous` | python/feldspar/fluids/network.py:589-753 | When no loop has an imposed edge the returned flows balance every junction, exactly where the edge to the parent is free and within tolerance elsewhere, with imposed flows as given. |
| `NetPaths.DropsAgree` | python/feldspar/fluids/network.py:828-845 | If the drops around every loop vanish up to a tolerance, any two walks between two nodes drop alike up to the tolerance per hop; exactly alike when they vanish exactly. |
| `NetPaths.FieldIffLoopsClose` | python/feldspar/fluids/network.py:828-845 | The drops form a potential field if and only if they sum to zero around every loop of the basis. |
| `NetPaths.FindPathEdges` | python/feldspar/fluids/network.py:828-886 | The path query returns a shortest walk, or refuses exactly for an unknown node or an unconnected pair. |
| `Ladder.FallbackIff` | python/feldspar/fea/richardson.py:93-114 | The fallback fires if and only if the values differ and two to the order is within one of one, and then answers the finer value with the whole difference as error. |
| `Ladder.FallbackAgainstSafety` | python/feldspar/fea/richardson.py:73-114 | When the fallback fires, the raw error it reports is at most (less than) the extrapolated one if and only if the safety factor is at least (more than) the distance of two to the order from one. |
| `Ladder.FallbackIsOptimistic` | python/feldspar/fea/richardson.py:93-114 | So with a safety factor of at least one the reported error is the smaller. |
| `Ladder.DefaultOrder` | python/feldspar/fea/richardson.py:51-130 | At the default order the fallback never fires, the error is half the difference of the two values and the value is moved by a third of it. |
| `Ladder.ExtrapolationIsExact` | python/feldspar/fea/richardson.py:93-130 | Where the error shrinks by the ratio from one mesh to the next, the extrapolated value is the true one, and the reported error is the safety factor times the fine value's error. |
| `Ladder.RungCache.Get` | python/feldspar/fea/ladder.py:73-82 | A lookup returns the stored value and counts one hit, or nothing and counts one miss. |
| `Ladder.RungCache.Put` | python/feldspar/fea/ladder.py:85-86 | A store changes exactly one key. |
| `Ladder.ClimbMeans` | python/feldspar/fea/ladder.py:117-207 | An answer is the first pair within the budget (the first pair without one); an exhausted ladder reports the least error over all pairs; failures and worsening pairs end the climb where they occur. |
| `Ladder.LooserUsesFewer` | python/feldspar/fea/ladder.py:101-126 | A looser budget never asks for more rungs and keeps every answer an answer. |
| `Ladder.ClimbRichardsonLadder` | python/feldspar/fea/ladder.py:90-207 | With or without a consistent cache the climb answers what the uncached climb answers; the cache stays consistent, gains exactly the rungs that ran, and counts one miss per rung not cached before. |
| `Ladder.OthersStayConsistent` | python/feldspar/fea/ladder.py:62-70 | A climb leaves the cached rungs of every other owner (solver, version or box) as they were. |
| `Ladder.SessionStaysConsistent` | python/feldspar/fea/ladder.py:130-136 | On one cache that starts empty, after any climbs by any owners in any order every owner's cached rungs are what running them gives. |
| `Ladder.ClimbInTurn` | python/feldspar/fea/solver.py:283-289 | So two owners that climb in turn on a shared cache both answer what they answer without one. |
| `Ladder.LooserRerunsNothing` | python/feldspar/fea/ladder.py:15-20 | After a climb, one with a looser budget finds every rung it asks for in the cache. |

## Left out

- Digests, number formatting and message texts: route digests, `canonical_digest`, provenance strings and error details carry no decision; keys and formats are assumed injective where that matters.
- The delta-method propagation of normal distributions (`crates/feldspar-core/src/propagation.rs:201-320`): statistics and central differences, outside the enclosure argument.
- The Python bindings, the executor, the registry, payload parsing and the head-loss laws: marshalling, input and output, or closed-form algebra.
- `SolvedNetwork` as an object: only lookups by id and by node; the path query takes the node and edge lists it holds.
- The external mesh, solver and circuit programs and the cache on disk: foreign tools.
- Planner.Plan: bounds the number of turns by `limit`, because the loop of the source has no bound and need not end (`PlanEnds.LoopNeverEnds`).
- PlanShared.CheapestIffDiamondFree: the failing half is about registries of two-sided solvers whose ports can be ranked, and uses one more solver as the dearer alternative; a registry without any alternative route has nothing to compare.
- PlanOneSided.OneSidedLastIff: the failing half is about ranked registries that pass the renaming check, where the search is known to end.
- PlanEnds.AlwaysAnsweredIff: is about registries, not single requests; where a join feeds itself a request may still end, because of its boxes, its known ports or its target.
- SymInvert.PeelInto: decides parity on the integers; the source saturates exponents beyond the 64-bit range before testing parity.
- SymRoots.InvertIsExact: its hypotheses `Beside` and `CollapsesSafely` name what the source does not record: nonzero divisors and exponents, and no fault hidden behind a literal zero.
- SymDerivative.DerivativeIsReal: that sine, cosine, exponential, logarithm and non-integer powers have their textbook slopes is a hypothesis at the arguments in question (`FnRule`, `PowRule`); these functions are uninterpreted here.
- SymDerivative.MovingExponentIff: says nothing of a base and an exponent that both move.
- NetConverge.SolvedDropsAgree: the pipe law, whose friction factor jumps between the laminar and the turbulent range and whose slope is a forward difference, meets the hypothesis only with a gauge that covers both.
- SymPrint.PrintInjective: assumes names and printed numbers without spaces or parentheses, which the source does not check.
- SymBox.PredicateToBox: the error for an unboundable predicate does not carry the predicate's text.
- NetSolve.SolutionIsContinuous: assumes that no loop of the basis contains an imposed edge; `NetCorrection.CorrectionIsExact` shows that a single nonzero correction needs this.
- NetCorrection.RunConverges: says when a run stops, not that it does; convergence depends on the head-loss law.
- NetSolve.HardyCrossSolve: what a refused solve leaves in the edges is not specified, since the source discards them.
- NetPaths.FindPathEdges: which of several shortest walks is returned is not specified.
- Ladder.ClimbRichardsonLadder: a rung is a pure function of its settings; running one has no other effect, and a failed rung is never cached.
- Ladder.Extrapolate: an order of zero, for which the source divides by zero, is excluded.
