# Statecharts and MaxSAT, modelled and proved in Dafny

The repository holds two bodies of stateful code whose correctness spans many functions.

**MaxSAT over cardinality circuits** (`src/dfa/z3-master/examples`). `Terms` is the Boolean term
language with an evaluator over models; `Solvers` is the solver as an oracle that answers "sat" with a
model or "unsat" with a core, plus the source of fresh constants. `Circuits` builds adders, the adder
tree on two swapped buffers, the comparator and the at-most-k constraint in place on arrays. `MaxSat`
and `FuMalik` are the two procedures with their optimality theorems. `MaxRes` and `HsMaxSat` are the
core relaxation and correction-set restriction of the hitting-set solver with its cost accounting.

**StaBL statecharts** (`src/dfa`). `Ast`, `Environments`, `Evaluation`, `Hierarchy` and `Typechecker`
give the syntax, scoping, evaluation, the state tree and what the checker accepts; `Values` says which
value an expression has, and `BigStep` what a statement means, by rules. `ExecutionStates`
and `Simulators` are the simulator's mutable objects; `Simulation` is one step as a function of the
execution state; `Invariants` and `Runs` prove what holds along every run, `Entries` when an entry fails,
`Resumption` what history states resume, `Traces` which values a simulation has at every point of its log,
and `Fuel` that the bound on loop rounds hides nothing.
`Example` has a chart that meets all their assumptions, with a run that takes a transition, and a checked
chart whose start fails; `HistoryExample` shows a history state at work. `SymbolicEvaluation` and
`SymbolicExploration` are the symbolic engine's evaluator and the engine object that explores the
execution tree; `SymbolicPaths` says which nodes are paths through a statement or a transition.

Conventions. A state is an index into the chart's list of states, 0 being the statechart; a superstate
has a smaller index than its substates. Java's null is `None`, `Null` or `NoEnv`. A snapshot carries a
log of entries, exits and actions that the program does not keep; theorems about runs speak about it.
`fuel` bounds loop rounds: theorems hold for every fuel, and whatever ends within it, statement, round or
run, is the same for every larger one (`Evaluation.FuelIrrelevant`, `Fuel.RunFuel`).

Facts about the code that the proofs brought out:

- `assert_at_most_k` asserts nothing for one literal and k = 0, and for more than 2^31 literals and odd k
  its comparator reads bit 0 of k again as bit 32. `Circuits.AtMostExactCondition` gives the exact
  condition below 2^32 - 1 literals; at that count `n + 1` wraps to 0 and `mk_counter_circuit` allocates
  buffers of no cells. As a consequence of the first `naive_maxsat` with a single soft constraint may
  stop at its own "BUG" check (`MaxSat.SingleSoftMayReportBug`); with any other number, up to 2^31, it
  returns the optimum.
- The type checker accepts `!=`, `<`, `<=`, `>` and `>=` on Booleans and any comparison of strings; the
  evaluator answers null for all of them. Over operands with values these and division by zero are the
  only accepted operations that come out null (`Evaluation.NullExactly`).
- A bare Boolean variable as the condition of an `if` or `while` passes the checker, and the executor then
  runs neither branch; it looks only at constants and binary expressions (`Evaluation.ConditionExactly`).
- A comment in `ExecutionState.java` says that parameters are copied on entry; the code copies only
  statics and leaves parameters alone. The model follows the code.
- A static variable below the statechart's direct substates makes the first entry of its state
  dereference null (`Entries.EnterThrowsExactly`), although the type checker accepts such charts
  (`Example.DeepThrows`).
- `maxres` takes the branch that relaxes cores also with no cores at all, after failures while correction
  sets are disabled; Python's `min` of the empty list then raises (`HsMaxSat.HsMaxSat.MaxResStep`).
  This is about the step on its own: the main loop gets there only after solver answers of "unknown".
- In the symbolic engine an expression or skip statement returns neither a live nor a done node
  (`SymbolicExploration.SymbolicExecutionEngine.ExecuteInstruction`), so its path is lost.

## Model

| member | source | states |
|---|---|---|
| Circuits.FullAdderAdds | src/dfa/z3-master/examples/maxsat/maxsat.c:160-164 | output bit plus twice the carry equals the number of true inputs, under every model |
| Circuits.MkFullAdder | src/dfa/z3-master/examples/maxsat/maxsat.c:160-164 | what it returns adds the three inputs under every model: a sum bit, and a carry worth two |
| Circuits.SumAdds | src/dfa/z3-master/examples/maxsat/maxsat.c:172-183 | the ripple adder's bits denote the sum of the two numbers and the carry in, under every model |
| Circuits.MkAdder | src/dfa/z3-master/examples/maxsat/maxsat.c:172-183 | writes exactly those bits at the given place of another buffer and nothing before it |
| Circuits.PairSumsConserve | src/dfa/z3-master/examples/maxsat/maxsat.c:193-212 | one layer of the tree leaves the sum of all packed numbers unchanged, odd tail included |
| Circuits.PairSumsLength | src/dfa/z3-master/examples/maxsat/maxsat.c:193-212 | a layer holds ceil(num_ins / 2) numbers of one more bit |
| Circuits.MkAdderPairs | src/dfa/z3-master/examples/maxsat/maxsat.c:193-212 | the loop with moving positions fills the output with exactly one layer |
| Circuits.NextLayerFits | src/dfa/z3-master/examples/maxsat/maxsat.c:219-253 | two buffers of n + 1 cells hold every layer although numbers grow by a bit per pass |
| Circuits.CounterWidthIsLog | src/dfa/z3-master/examples/maxsat/maxsat.c:219-253 | the final width is 1 + ceil(log2 n) |
| Circuits.CounterCounts | src/dfa/z3-master/examples/maxsat/maxsat.c:219-253 | the counter's bits denote the number of true literals, under every model |
| Circuits.MkCounterCircuit | src/dfa/z3-master/examples/maxsat/maxsat.c:219-253 | the two swapped buffers end with exactly the counter, in its width; null for no literals |
| Circuits.LeFormulaMeaning | src/dfa/z3-master/examples/maxsat/maxsat.c:267-290 | the comparator is true exactly when the value is at most the number read off the bits of k |
| Circuits.BitsReadIsModulo | src/dfa/z3-master/examples/maxsat/maxsat.c:258-262 | up to 32 bits that number is k modulo the width |
| Circuits.BitsReadOfCounter | src/dfa/z3-master/examples/maxsat/maxsat.c:258-308 | for a counter of up to 2^31 literals nothing of k is truncated; beyond, an odd k gains 2^32 |
| Circuits.AssertLeK | src/dfa/z3-master/examples/maxsat/maxsat.c:267-290 | asserts exactly the comparator's formula |
| Circuits.AssertAtMostK | src/dfa/z3-master/examples/maxsat/maxsat.c:299-308 | asserts exactly the at-most-k constraint, or nothing in the early return |
| Circuits.AtMostMeaning | src/dfa/z3-master/examples/maxsat/maxsat.c:299-308 | the asserted constraint holds exactly when at most k of the literals are true |
| Circuits.AtMostExactCondition | src/dfa/z3-master/examples/maxsat/maxsat.c:219-308 | below 2^32 - 1 literals it does so for all lists of n literals if and only if k >= n, or n >= 2 and (n <= 2^31 or k even) |
| MaxSat.AnswerUnique | src/dfa/z3-master/examples/maxsat/maxsat.c:396-405 | the documented result is determined by the constraints |
| MaxSat.AssertHardConstraints | src/dfa/z3-master/examples/maxsat/maxsat.c:131-137 | adds the hard constraints and nothing else |
| MaxSat.AssertSoftConstraints | src/dfa/z3-master/examples/maxsat/maxsat.c:144-154 | adds each soft constraint with its own new switch |
| MaxSat.SwitchOffProperty | src/dfa/z3-master/examples/maxsat/maxsat.c:139-154 | every model extends to the switches with as many switched off as it violates |
| MaxSat.GetNumDisabledSoftConstraints | src/dfa/z3-master/examples/maxsat/maxsat.c:378-394 | counts the switches that the model turns on |
| MaxSat.SearchTighten | src/dfa/z3-master/examples/maxsat/maxsat.c:422-433 | an at-most-k assertion tightens what the solver knows to exactly k switches |
| MaxSat.SearchUnsat | src/dfa/z3-master/examples/maxsat/maxsat.c:428-433 | unsat means that every model of the hard constraints violates more than the limit |
| MaxSat.LinearSearch | src/dfa/z3-master/examples/maxsat/maxsat.c:420-448 | the search ends, and with the optimum unless there is a single soft constraint |
| MaxSat.NaiveMaxSat | src/dfa/z3-master/examples/maxsat/maxsat.c:406-449 | -1 exactly when the hard constraints are unsatisfiable, else the optimum; "BUG" only with one soft constraint |
| MaxSat.SingleSoftMayReportBug | src/dfa/z3-master/examples/maxsat/maxsat.c:428-440 | with one soft constraint a solver that is correct on every query answers so that the "BUG" check fires |
| FuMalik.BlockCounts | src/dfa/z3-master/examples/maxsat/maxsat.c:500-511 | what a blocking variable excuses is counted among the true blocking variables |
| FuMalik.BlockExtends | src/dfa/z3-master/examples/maxsat/maxsat.c:500-511 | a model extends over the two new variables with the blocking variable as wanted |
| FuMalik.CoreHasViolation | src/dfa/z3-master/examples/maxsat/maxsat.c:482-499 | a core names a constraint that a given model violates |
| FuMalik.BlockCoreExtends | src/dfa/z3-master/examples/maxsat/maxsat.c:493-512 | a model that violates a constraint of the core extends to the relaxation with one violation fewer |
| FuMalik.BlocksFit | src/dfa/z3-master/examples/maxsat/maxsat.c:489-507 | the core-sized array has room for all blocking variables |
| FuMalik.RoundStart | src/dfa/z3-master/examples/maxsat/maxsat.c:551-552 | the invariant of the rounds holds at the start with k = 0 |
| FuMalik.RoundStep | src/dfa/z3-master/examples/maxsat/maxsat.c:487-515 | a round keeps the invariant and raises by one what every model must violate |
| FuMalik.RoundLowerBound | src/dfa/z3-master/examples/maxsat/maxsat.c:519-558 | after k rounds every model of the hard constraints violates at least k original constraints |
| FuMalik.RoundDone | src/dfa/z3-master/examples/maxsat/maxsat.c:482-485 | at a sat answer at most k are excused, so n - k is the optimum |
| FuMalik.FuMalikStep | src/dfa/z3-master/examples/maxsat/maxsat.c:466-517 | done with a model of all assumptions and nothing changed, or exactly the relaxation of a real core |
| FuMalik.Rounds | src/dfa/z3-master/examples/maxsat/maxsat.c:552-559 | the rounds end, and return the optimum |
| FuMalik.FuMalikMaxSat | src/dfa/z3-master/examples/maxsat/maxsat.c:533-560 | returns -1 or exactly the maximum number of satisfiable soft constraints, for any correct solver |
| MaxRes.RelaxDefsCount | src/dfa/z3-master/examples/python/hs.py:20-28 | under the definitions the new names are false once less than the core's members |
| MaxRes.RestrictDefsCount | src/dfa/z3-master/examples/python/hs.py:30-38 | dually, the new names are true once less than the set's members |
| MaxRes.RelaxCoreCost | src/dfa/z3-master/examples/python/hs.py:20-28 | relaxing lowers a model's cost by exactly one if it falsifies the core, else not at all |
| MaxRes.RestrictCsCost | src/dfa/z3-master/examples/python/hs.py:30-38 | restricting keeps the cost of a model with a true member and lowers it by one otherwise |
| MaxRes.RelaxAllCost | src/dfa/z3-master/examples/python/hs.py:178-182 | over disjoint cores the cost of a model that falsifies them falls by their number |
| MaxRes.RelaxAllExtend | src/dfa/z3-master/examples/python/hs.py:13-28 | the definitions exclude no model |
| MaxRes.RelaxAllOptimum | src/dfa/z3-master/examples/python/hs.py:171-184 | relaxing real cores lowers the least cost by exactly their number, both ways |
| MaxRes.RestrictAllCost | src/dfa/z3-master/examples/python/hs.py:198-203 | restriction keeps the cost of every model left, and those satisfy a member of each set |
| MaxRes.RestrictAllExtend | src/dfa/z3-master/examples/python/hs.py:198-203 | every model that satisfies a member of each set is left |
| MaxRes.RestrictAllOptimum | src/dfa/z3-master/examples/python/hs.py:186-206 | a least cost below the size of every chosen set is kept, both ways |
| HsMaxSat.GetSmallDisjointSets | src/dfa/z3-master/examples/python/hs.py:149-161 | chooses pairwise disjoint sets within three sizes of the least; an unchosen one meets a chosen one |
| HsMaxSat.HsMaxSat.AddDef | src/dfa/z3-master/examples/python/hs.py:13-18 | a new name with its definition asserted |
| HsMaxSat.HsMaxSat.RelaxCoreInPlace | src/dfa/z3-master/examples/python/hs.py:20-28 | the loop changes solver and formula set exactly as relaxing some listing of the core |
| HsMaxSat.HsMaxSat.RestrictCsInPlace | src/dfa/z3-master/examples/python/hs.py:30-38 | likewise for a correction set, with the disjunction asserted after it |
| HsMaxSat.HsMaxSat.ReinitSoft | src/dfa/z3-master/examples/python/hs.py:163-169 | moves the relaxed number from lo to the offset and forgets cores and sets |
| HsMaxSat.HsMaxSat.MaxResStep | src/dfa/z3-master/examples/python/hs.py:171-215 | which branch is taken, by the existence of small sets, and its whole new state; lo + offset stays, offset + cost stays for every model that falsifies the cores, relaxing real cores moves the least cost by exactly their number, and restricting keeps a least cost below the sets' sizes |
| Environments.LookupUnique | src/dfa/ast/DeclarationList.java:14-21 | with unique names each declaration is found by its name |
| Environments.DeclarationList.Add | src/dfa/ast/DeclarationList.java:27-35 | refuses exactly the names already declared and keeps names unique |
| Environments.DeclarationList.Lookup | src/dfa/ast/DeclarationList.java:14-21 | the first declaration of the name |
| Environments.LookupIsFirstOfAll | src/dfa/ast/Environment.java:30-59 | a lookup is the first of all matches |
| Environments.CutAndRejoin | src/dfa/ast/Environment.java:80-103 | cutting a chain at a proper suffix and hanging it back rebuilds the chain |
| Environments.LookupRejoined | src/dfa/ast/Environment.java:30-87 | in a joined chain the upper part is looked up first, then the lower |
| Environments.LookupAllRejoined | src/dfa/ast/Environment.java:45-87 | all matches of a joined chain are those of the parts in order |
| Environments.CutElsewhere | src/dfa/ast/Environment.java:96-103 | a chain without the environment below its head is copied whole |
| Evaluation.EvaluationPreservesType | src/dfa/simulator/EvaluateExpression.java:9-91 | a result that is not null has the type the checker gave |
| Evaluation.ExecutionPreservesTypes | src/dfa/simulator/ExecuteStatement.java:8-135 | type-checked statements keep the valuation well typed and never halt |
| Evaluation.FuelIrrelevant | src/dfa/simulator/ExecuteStatement.java:106-135 | a finished execution does not depend on the bound on loop rounds |
| Evaluation.NeverNull | src/dfa/simulator/EvaluateExpression.java:43-91 | over assigned variables the implemented operators always give a value |
| Evaluation.UnimplementedAlwaysNull | src/dfa/frontend/Typechecker.java:330-362 | comparisons that the checker admits and the evaluator lacks are null in every store |
| Evaluation.DivisionNull | src/dfa/simulator/EvaluateExpression.java:72-73 | division is null exactly for a null operand or a zero divisor |
| Evaluation.NullExactly | src/dfa/simulator/EvaluateExpression.java:43-91 | over operands with values, an accepted operation is null exactly for a zero divisor or an operator the evaluator lacks at their type |
| Evaluation.NullOperand | src/dfa/simulator/EvaluateExpression.java:43-91 | a null operand makes it null, except on the right of a Boolean operator that its left operand decides |
| Evaluation.ConditionExactly | src/dfa/simulator/ExecuteStatement.java:77-135 | a checked condition is taken at its value exactly unless it is a variable that has one |
| Evaluation.ExecutionWrites | src/dfa/frontend/Typechecker.java:529-545 | execution changes only variables of the write environment and removes none |
| Evaluation.BinaryAccepted | src/dfa/frontend/Typechecker.java:311-380 | which operand types each operator is accepted for, and the type it then has |
| Values.LeafValue | src/dfa/simulator/EvaluateExpression.java:9-40 | a literal has its own value, a variable the stored one |
| Values.ArithmeticValue | src/dfa/simulator/EvaluateExpression.java:67-75 | sum, difference and product are the 32-bit integers congruent to the mathematical ones modulo 2^32 |
| Values.DivisionValue | src/dfa/simulator/EvaluateExpression.java:72-73 | division rounds towards zero, and only -2^31 / -1 overflows |
| Values.OrderValue | src/dfa/simulator/EvaluateExpression.java:77-88 | exactly one of `<`, `=`, `>` is true, as integers are ordered, and the other comparisons follow |
| Values.TruthValue | src/dfa/simulator/EvaluateExpression.java:59-65 | the truth tables of the Boolean operators |
| BigStep.ExecutionIsMeaning | src/dfa/simulator/ExecuteStatement.java:8-135 | an execution ends with a result exactly if the rules derive it |
| BigStep.MeaningUnique | src/dfa/simulator/ExecuteStatement.java:8-135 | a statement has at most one result |
| BigStep.ConditionalMeans | src/dfa/simulator/ExecuteStatement.java:77-103 | a conditional means the branch its condition selects, or nothing where the condition is not read |
| BigStep.LoopUnfolds | src/dfa/simulator/ExecuteStatement.java:106-135 | while its condition is true a loop means its body and then itself, else nothing |
| BigStep.LoopEndsFalse | src/dfa/simulator/ExecuteStatement.java:106-135 | after a finished loop its condition is not true |
| BigStep.ListUnfolds | src/dfa/simulator/ExecuteStatement.java:55-74 | a list means its first statement and then the others |
| Hierarchy.PathPrefix | src/dfa/ast/State.java:129-138 | the path of a state runs through the paths of its superstates |
| Hierarchy.OnPath | src/dfa/ast/State.java:140-144 | a state is above or at another exactly when its path begins the other's |
| Hierarchy.ComputeLub | src/dfa/ast/Statechart.java:60-75 | the walk that removes equal heads computes the last common superstate |
| Hierarchy.LubIsDeepest | src/dfa/ast/Statechart.java:60-75 | it is a common proper superstate, every other is above it, and it is null exactly for the root |
| Hierarchy.NamesMatchStates | src/dfa/ast/State.java:58-83 | a name resolves to a state exactly when it is the state's full path |
| Hierarchy.ResolveSound | src/dfa/ast/Statechart.java:77-82 | whatever a path resolves to is called by that path |
| Hierarchy.EnvironmentDeclares | src/dfa/ast/State.java:146-157 | a state's environment declares exactly the variables of the states on its path |
| Hierarchy.ReadEnvironmentSplits | src/dfa/ast/Transition.java:61-98 | for a placed transition the read-only part joined to the read-write part is the read environment |
| Hierarchy.WriteEnvironmentIs | src/dfa/ast/Transition.java:69-106 | its write environment is the destination's parameters over the superstate's environment |
| Hierarchy.WriteLookup | src/dfa/ast/Transition.java:100-106 | a written name is a parameter of the destination first, else what the superstate sees |
| Typechecker.CheckNameDuplication | src/dfa/frontend/Typechecker.java:658-684 | accepts exactly the states whose variables, substates and transitions have distinct names |
| Typechecker.NamesDistinct | src/dfa/frontend/Typechecker.java:658-684 | in a checked chart variables, sibling states and transitions of a state are distinct |
| Typechecker.CheckedNamesMatchStates | src/dfa/ast/Statechart.java:77-82 | in a checked chart a name resolves to a state exactly when it is the state's full path |
| Typechecker.TransitionAccepted | src/dfa/frontend/Typechecker.java:620-655 | a transition is accepted exactly if it sits in the nearest state above both ends and keeps the region, final-state, trigger, guard and action rules |
| ExecutionStates.ExecutionState.constructor | src/dfa/simulator/ExecutionState.java:21-32 | populates the statechart and its direct substates, nothing else |
| ExecutionStates.ExecutionState.GetEvent | src/dfa/simulator/ExecutionState.java:39-49 | takes the oldest event, or "null" from an empty queue |
| ExecutionStates.ExecutionState.GetHistoryState | src/dfa/simulator/ExecutionState.java:74-80 | the recorded substate, or the first |
| ExecutionStates.ExecutionState.PresentInConfiguration | src/dfa/simulator/ExecutionState.java:82-92 | membership in the configuration |
| ExecutionStates.ExecutionState.EnterState | src/dfa/simulator/ExecutionState.java:109-123 | the whole new state of an entry, variable by variable; exactly when it dereferences null, and the partly updated state it then leaves |
| ExecutionStates.ExecutionState.ExitState | src/dfa/simulator/ExecutionState.java:129-143 | the whole new state of an exit: history, saved values, cleared locals, every other variable kept |
| Invariants.HistoryIsValid | src/dfa/simulator/ExecutionState.java:69-80 | recorded history entries are direct substates of their keys |
| Invariants.EnterLocated | src/dfa/simulator/ExecutionState.java:109-123 | an entry gives every local of the state a value and adds no other |
| Invariants.ExitLocated | src/dfa/simulator/ExecutionState.java:129-143 | an exit from the innermost state clears exactly its locals |
| Invariants.EnterValuesLogged | src/dfa/simulator/ExecutionState.java:109-123 | an entry restores statics from the most recent exit and nulls the locals |
| Invariants.ExitKept | src/dfa/simulator/ExecutionState.java:129-143 | an exit keeps history and value history in step with the log |
| Invariants.StatementInv | src/dfa/simulator/ExecuteStatement.java:8-74 | a checked statement keeps all invariants if its write environment lies in the states ahead |
| Runs.ActionWrites | src/dfa/ast/Transition.java:69-106 | a placed action writes no local of its destination, only of states above it |
| Runs.ExitUpInv | src/dfa/simulator/Simulator.java:94-100 | bubbling up keeps the invariants and ends at the LUB |
| Runs.EnterFromInv | src/dfa/simulator/Simulator.java:104-122 | bubbling down keeps the invariants and ends at the destination |
| Runs.DescendInv | src/dfa/simulator/Simulator.java:43-79 | descending ends in an atomic state with the invariants, through valid history entries |
| Runs.WalkComplete | src/dfa/simulator/Simulator.java:131-161 | in a checked chart the upward walk meets exactly the transitions of the whole chart whose guard has the value true, whose source is active and whose trigger is the event |
| Runs.ChoiceExact | src/dfa/simulator/Simulator.java:165-190 | one viable transition is taken, several are reported with all of them, none is found: each exactly then |
| Runs.SelectedFits | src/dfa/simulator/Simulator.java:131-197 | the selected transition's source and placement are active |
| Runs.RoundIsDeterminate | src/dfa/simulator/PreEventOneShot.java:20-28 | at every reachable round the only such transition is taken, else the only one for "null"; several are reported, none halts; one whose guard is false or null is never taken |
| Runs.PerformInv | src/dfa/simulator/Simulator.java:87-128 | performing a selected transition keeps the invariants, and every loop in it ends |
| Runs.StepOrder | src/dfa/simulator/PreEventOneShot.java:21-36 | a step exits innermost first up to below the LUB, acts once, then enters outermost first to an atomic state |
| Runs.StartOrder | src/dfa/simulator/PreEventOneShot.java:15-20 | the start enters the path to its atomic state, outermost first |
| Runs.InitialInv | src/dfa/simulator/ExecutionState.java:21-32 | the populated state satisfies the invariants |
| Runs.Step | src/dfa/simulator/PreEventOneShot.java:21-36 | a round from a stable state ends in a stable state, or halts, or loops in a statement |
| Runs.Run | src/dfa/simulator/PreEventOneShot.java:20-36 | every prefix of every run ends in a stable state, or halts, or loops |
| Runs.ConfigurationIsPath | src/dfa/simulator/PreEventOneShot.java:20-36 | at every iteration of every simulation the configuration is the path of the atomic current state, without repetition |
| Runs.LocalsLiveWithTheirState | src/dfa/simulator/ExecutionState.java:105-143 | a local has an entry in the valuation exactly while its state is active |
| Runs.EntriesRestoreStatics | src/dfa/simulator/ExecutionState.java:105-143 | every entry in a run found its statics at their value from the last exit, or null |
| Runs.HistoryIsLastExit | src/dfa/simulator/ExecutionState.java:69-80 | in every reachable state history is the most recent exit below each key, and no entry can dereference null |
| Runs.ReachableTyped | src/dfa/simulator/EvaluateExpression.java:9-40 | reachable valuations are well typed |
| Traces.ReachableTraced | src/dfa/simulator/Simulator.java:43-128 | in every reachable state the valuation is what the log leaves: an entry and then its entry statement once, the exit statement once and then an exit, the action once |
| Traces.LeavesUnique | src/dfa/simulator/Simulator.java:43-128 | a log leaves one valuation |
| Traces.LeavesAt | src/dfa/simulator/Simulator.java:43-128 | the same for every single event of a log |
| Traces.EnterFrames | src/dfa/simulator/ExecutionState.java:109-123 | an entry sets locals to null and statics to their last value, and leaves every other variable, parameters included |
| Traces.ExitFrames | src/dfa/simulator/ExecutionState.java:129-143 | an exit removes the locals of the state and leaves every other variable |
| Traces.InitialHas | src/dfa/simulator/ExecutionState.java:21-32 | exactly the shared variables of the statechart and its direct substates have a value at the start |
| Traces.RoundTraced | src/dfa/simulator/PreEventOneShot.java:21-36 | a round appends to the log the exits, the action and the entries of its path |
| Traces.LeftValuesKept | src/dfa/simulator/Simulator.java:94-102 | statics and parameters of a state left keep their values until the action |
| Traces.ParametersArrive | src/dfa/simulator/Simulator.java:102-122 | a parameter of a state entered holds, when its entry statement starts, what the action left in it |
| Fuel.StepFuel | src/dfa/simulator/PreEventOneShot.java:21-36 | a round that ends or halts within the bound is the same for every larger bound |
| Fuel.RunFuel | src/dfa/simulator/PreEventOneShot.java:20-36 | so is a run |
| Fuel.ReachedFuel | src/dfa/simulator/PreEventOneShot.java:20-36 | what a simulation reaches it reaches for every larger bound |
| Entries.EnterThrowsExactly | src/dfa/simulator/ExecutionState.java:21-32 | after any phases of a simulation, an entry dereferences null exactly if the state has a static variable, lies below the direct substates and was never exited |
| Entries.ReachedKnown | src/dfa/simulator/ExecutionState.java:105-143 | among the states with static variables, the value history knows exactly those populated or already exited |
| Resumption.StepRecords | src/dfa/simulator/Simulator.java:87-128 | a round records the active child of every state it leaves and of the LUB, and changes no other entry |
| Resumption.DescendResumes | src/dfa/simulator/Simulator.java:43-79 | the descent takes at every state what the history before it gives, and records nothing |
| Resumption.StartRemembers | src/dfa/simulator/Simulator.java:43-79 | the start takes first substates and remembers nothing |
| Resumption.ReachableRemembers | src/dfa/simulator/ExecutionState.java:69-80 | in every reachable state history holds, for an inactive composite state, the child that was active when it was last left |
| Resumption.HistoryResumes | src/dfa/simulator/Simulator.java:61-69 | over whole runs, a history state entered at or below a destination resumes the child that was active when it was last left, or its first substate if it never was |
| Example.SwitchIsTypechecked | src/dfa/frontend/Typechecker.java:620-655 | a chart with a transition, a static and a local variable passes the checks |
| Example.SwitchToggles | src/dfa/simulator/PreEventOneShot.java:20-36 | a run of it reaches the other substate: the local is gone, the action's value kept, the history set |
| Example.DeepThrows | src/dfa/simulator/ExecutionState.java:109-123 | a checked chart whose start dereferences null: its static variable lies two levels deep |
| HistoryExample.PlayerResumes | src/dfa/simulator/Simulator.java:61-69 | a run leaves a history state from its second substate and comes back to that one, not to the first |
| Simulators.Simulator.ExecuteStatement | src/dfa/simulator/ExecuteStatement.java:8-39 | the recursive method leaves the valuation that the rules derive |
| Simulators.Simulator.GetValidTransition | src/dfa/simulator/Simulator.java:131-197 | the recursion with counter and list selects what the walk of the whole path selects, so in a checked chart the only transition that may fire |
| Simulators.Simulator.PerformTransition | src/dfa/simulator/Simulator.java:87-128 | the loops exit, act and enter as the step function, and leave the values that the log says |
| Simulators.Simulator.GetAtomicState | src/dfa/simulator/Simulator.java:43-79 | the recursion enters exactly as the descent function |
| Simulators.Simulator.Round | src/dfa/simulator/PreEventOneShot.java:21-36 | one round of the loop is exactly one step |
| Simulators.Simulator.Simulate | src/dfa/simulator/PreEventOneShot.java:20-36 | the loop on the queued events is exactly the run, cut after the given number of rounds, and its valuation is what its log leaves |
| SymbolicEvaluation.DepthsCount | src/dfa/symbolic_execution/se_tree/SETNode.java:11-23 | treedepth is the chain length and depth the number of instruction nodes |
| SymbolicEvaluation.ReplayBacktrack | src/dfa/symbolic_execution/SymbolicExecutionEngine.java:481-516 | backtracking finds the update that gives a variable its value in the replay |
| SymbolicEvaluation.SymEvalAgrees | src/dfa/symbolic_execution/SymbolicExecutionEngine.java:430-516 | the meaning of sym_eval's result is the meaning of the expression over the replayed path |
| SymbolicEvaluation.SymEvalNameFree | src/dfa/symbolic_execution/SymbolicExecutionEngine.java:430-480 | the result contains no program names |
| SymbolicEvaluation.SymEvalComplete | src/dfa/symbolic_execution/SymbolicExecutionEngine.java:430-516 | on a path that assigns before use no operand goes missing exactly when every used variable was assigned |
| SymbolicEvaluation.ReplayIsExecution | src/dfa/symbolic_execution/se_tree/InstructionNode.java:16-60 | replaying recorded assignments gives the store of executing them, absent exceptions |
| SymbolicEvaluation.SymbolicAgreesWithSimulator | src/dfa/symbolic_execution/SymbolicExecutionEngine.java:430-516 | a condition evaluated symbolically after assignments means what the simulator computes after executing them |
| SymbolicExploration.SymbolicExecutionEngine.ExecuteInstruction | src/dfa/symbolic_execution/SymbolicExecutionEngine.java:401-429 | exactly which node is done or live, by the bound on recorded assignments |
| SymbolicExploration.SymbolicExecutionEngine.ExecuteStatement | src/dfa/symbolic_execution/SymbolicExecutionEngine.java:335-367 | returned nodes extend the common leaf, and live ones are paths through the statement from one of the leaves, although only the last leaf's result is kept |
| SymbolicExploration.SymbolicExecutionEngine.ExecuteBlock | src/dfa/symbolic_execution/SymbolicExecutionEngine.java:368-400 | every node extends the leaf, live ones keep to the depth bound and are paths through the block; a block without conditionals keeps its one path |
| SymbolicExploration.SymbolicExecutionEngine.ExecuteIf | src/dfa/symbolic_execution/SymbolicExecutionEngine.java:517-592 | live nodes are paths through a side found feasible, a feasible side without conditionals keeps its path, and the leaf itself is done when neither side lives |
| SymbolicExploration.SymbolicExecutionEngine.TakeTransition | src/dfa/symbolic_execution/SymbolicExecutionEngine.java:230-334 | every node extends the leaf, every live one is strictly deeper and a path through the exits, the action and the entries; the configuration loses the source side and gains the destination side |
| SymbolicPaths.AllTransitions | src/dfa/symbolic_execution/SymbolicExecutionEngine.java:68-82 | the traversal collects exactly the transitions of the chart |
| SymbolicPaths.ClimbStops | src/dfa/symbolic_execution/SymbolicExecutionEngine.java:244-285 | climbing passes the states up to below the nearest one with the placement state's name |
| SymbolicPaths.ClimbExactly | src/dfa/symbolic_execution/SymbolicExecutionEngine.java:244-285 | it reaches the placement state exactly if no state between carries its name |
| SymbolicPaths.FirstSubstatesChain | src/dfa/symbolic_execution/SymbolicExecutionEngine.java:301-307 | first substates make a chain of first children down to an atomic state |
| SymbolicPaths.ConfAfterExactly | src/dfa/symbolic_execution/SymbolicExecutionEngine.java:230-334 | with distinct names the configuration loses exactly the source's side below the LUB and gains exactly the destination's |
| SymbolicPaths.OutgoingExactly | src/dfa/symbolic_execution/SymbolicExecutionEngine.java:84-98 | with distinct names exactly the transitions whose source is in the configuration are outgoing |
| SymbolicPaths.InitializedValues | src/dfa/symbolic_execution/SymbolicExecutionEngine.java:42-66 | initialised variables hold 0, a space or false; the others are as before |
| SymbolicExploration.SymbolicExecutionEngine.ComputeOuts | src/dfa/symbolic_execution/SymbolicExecutionEngine.java:84-98 | exactly the transitions whose source has the name of a state in the configuration |
| SymbolicExploration.SymbolicExecutionEngine.Explore | src/dfa/symbolic_execution/SymbolicExecutionEngine.java:165-216 | the loop over the transitions that leave the engine's own configuration ends by the tree-depth bound, in a number of rounds bounded by it |
| SymbolicExploration.SymbolicExecutionEngine.Execute | src/dfa/symbolic_execution/SymbolicExecutionEngine.java:121-221 | the whole exploration of a checked chart ends, and all it returns extends the start node; it raises exactly for a statechart without substates; an earlier execution may have left states in the configuration |

## Left out

- Z3 terms that are not propositional: constraints are Boolean terms over constants.
- The width of C's `unsigned` sizes: lengths and k are unbounded naturals; the comparator's 32 bits are modelled.
- The procedures are stated for at most 2^31 soft constraints, the width the comparator can compare.
- Circuits.AtMostExactCondition: fewer than 2^32 - 1 literals; at 2^32 - 1 the buffer size wraps to 0 in C's `unsigned`.
- Circuits.MkCounterCircuit: its buffer size n + 1 is unbounded here, so that wrap-around is not modelled.
- Uninitialised memory: `mk_adder` is called with at least one bit.
- Solver answers of "unknown", time limits, reference counting, file input and printing.
- The hitting-set search around MaxRes (picking sets, improving models, reducing cores, name maps): heuristics.
- `def-k` names clashing with user constants: new names are taken to be new.
- Fully qualified names in statements, structs, function calls and the `input` call: outside the modelled expressions.
- Region, shell and final-state rules beyond the transition checks: the simulator does not use them.
- Catching exceptions around whole steps: in a checked chart with populated statics none is raised there.
- Java's stack depth, printing, and the symbolic engine that the simulator's constructor also starts.
- Simulators.Simulator.Simulate: cut after a number of rounds and with bounded loop rounds in statements, because the program's loops need not end.
- SymbolicEvaluation.SymEvalAgrees: the meaning turns an exception into null at the operator that raises it; where none is raised it is the simulator's.
- SymbolicExploration.SymbolicExecutionEngine.Explore: says nothing about which paths are explored; the configuration is shared by all leaves, so it need not be the one a leaf has reached.
- The emission of solver text, and solver calls that fail with an I/O error: string plumbing.
