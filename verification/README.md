# Verified model of the planner's in-memory algorithms

This project models the algorithms of the planner that work on values and objects in memory, and proves what each of them
is for. It follows the source component by component; code that updates fields, buffers, lists or dictionaries is modelled
by classes and methods with loops, proved against declarative specifications. `dafny verify dfyconfig.toml` checks everything.

| modules | component | main result |
|---|---|---|
| Digraph, Scc | Tarjan's algorithm of the preprocessor | partition into strong components in topological order |
| Datalog, Unifier, BuildModel, ComputeModel | grounding by semi-naive Datalog evaluation | each atom of the least model once; the trie agrees with a linear scan |
| AxiomModel, AxiomEvaluator | counter-based evaluation of logic axioms | the layered least model with negation as failure |
| PlanningTask, CausalGraph, Pruning, Relevance | relevance analysis and stripping of operators | weights counted from the operators; plans of the pruned and of the original planning task correspond, both ways |
| MaxDag, CausalOrder | variable ordering of the causal graph | permutation with contiguous components, pointing forward, greedy inside |
| SuccessorGenerator | decision tree over operators | agrees with a filter, exactly for operators with at most one value per variable |
| Bits, IntPacker | packed states | disjoint fields, round trip, non-interference, the greedy order and bins that are full when closed |
| EquivalenceRelation | partition refinement on linked blocks | exact intersection of two equivalences, with implicit classes |
| SegmentedVector, StateRegistry, PerStateInformation | state storage | dense ids in bijection with assignments; per-state values as a total map |
| Unfolding, GreedyJoin | splitting of grounding rules | the produced rules derive the head tuples of the original rule, in the shape that binary joins need |
| AxiomRules | negation and simplification of axioms | logical equivalence under every valuation |
| AdaptiveQueue | bucket queue that turns into a heap | a priority queue through every operation |
| JsonText, JsonParser | JSON strings and the recursive parser | accepts exactly the grammar up to 64 levels, with the right value; printing round-trips |
| AnytimeRegistry, AnytimePhases | phases of the anytime run under concurrent handlers | no late completion and no future left after a phase has ended |
| Constraints | equality and inequality solver of invariant synthesis | solvable iff some valuation exists |
| FactGroups | greedy choice of mutex groups | exact cover of the reachable facts by largest remaining groups |

How the model is set up:

- A class keeps the fields of the source's object. Loop bodies whose proofs are long stand in methods of their own. What the
  source promises is stated over value-level functions and predicates, and the methods are tied to them by `ensures`.
- Preconditions are those the algorithms rely on: Datalog rules are safe, repeat no variable within an atom and, for joins
  and products, keep every variable in the head; logic axioms are stratified with non-default heads and one non-default value
  per derived variable; operators never assign to constants or derived numeric variables; ranges to pack are at least 2
  and either below two to the 32 or the marker of packed doubles, and values are below their range; keys of the priority
  queue are natural numbers; request ids and iterations are not reused.
- Where a promise holds only under a condition, the condition is proved to be exact:
  - `SuccessorGenerator.constructor`: the tree is a filter for an operator iff it has at most one value per variable among
    its preconditions (`InconsistentMisfires` gives a state for every other operator).
  - `RoundTrip`: a packed value is read back iff it fits the width. The assertion `value <= range` lets one value through
    that does not (`RangeIsLost`), and `OverflowDamages` says which other variable it changes.
  - `EvaluateLogicAxioms`: no literal is queued twice iff no comparison variable of a layer but the last is at its default.
  - `NoLateCompletion` and `NoFutureLeft`: after the end of a phase nothing of it comes back iff the phase is shut. That is
    a hypothesis on the line stream: the planner of this repository prints a start line before each end line
    (src/search/search_engines/iterated_search.cc:124, 156), and then every ended phase is shut (`StartShuts`). Only a stream
    that lacks its start lines reaches the failing run (`LateRequest`).
- The parser of floating-point numbers is a function parameter; byte strings are sequences of 8-bit vectors.

## Model

| member | source | states |
|---|---|---|
| `Scc.SCC.GetResult` | src/preprocess/scc.cc:6-20 | For every finite graph the returned components partition the vertices, two vertices share a component iff each reaches the other, and every edge between components leads to a later one (the contract written in scc.h) |
| `Scc.SCC.Dfs` | src/preprocess/scc.cc:22-50 | One call visits what the vertex reaches: numbers already given stay, the stack order stays a reachability order, and the vertex is either popped with its finished component or its low value names an older stack entry that it reaches |
| `Scc.SCC.Pop` | src/preprocess/scc.cc:40-48 | The stack entries from the root upwards, and no others, leave the stack as one new component |
| `Scc.PopComponent` | src/preprocess/scc.cc:39-49 | A vertex whose low value is its own number is the root of a component: the entries above it reach each other, have no edge to older entries, and may be closed as a finished strong component |
| `Scc.KeepOnStack` | src/preprocess/scc.cc:39-50 | A vertex whose low value is older stays on the stack and still reaches a running call, so nothing is closed too early |
| `Scc.NewSuccessor` | src/preprocess/scc.cc:31-33 | Taking over the low value of a recursive call keeps the invariant of the successor loop |
| `Scc.VisitedSuccessor` | src/preprocess/scc.cc:34-36 | Taking over the number of a successor already on the stack keeps the invariant of the successor loop; successors in closed components are skipped soundly |
| `Scc.DoneMeansStrongComponents` | src/preprocess/scc.cc:6-20 | When no call is running the stack is empty and the closed components are exactly the strong components, in backward order of the edges |
| `Scc.ReversalSorts` | src/preprocess/scc.h:12-18 | Reversing the order in which components were closed yields the topological order that the header promises |
| `Unifier.InsertSpec` | src/translate/build_model.py:220-271 | Inserting a condition into the trie adds its (rule, condition) pair once for exactly the atoms that have its constants, and changes the answer for no other atom, whatever the shape of the trie |
| `Unifier.UnifiesByConstants` | src/translate/build_model.py:193-203 | An atom of the right predicate satisfies the constants that are inserted iff it matches the condition |
| `Unifier.ScanSpec` | src/translate/build_model.py:187-192 | A linear scan lists every matching (rule, condition) pair once and no other pair: the reference for the trie |
| `Unifier.Unifier.constructor` | src/translate/build_model.py:182-186 | The tries built for a program answer every atom like a linear scan over all conditions on predicate and constants |
| `Unifier.Unifier.InsertCondition` | src/translate/build_model.py:193-203 | Inserting one condition adds exactly its pair to the answers |
| `Unifier.Unifier.Unify` | src/translate/build_model.py:187-192 | For every atom unify returns exactly the (rule, condition) pairs of the linear scan over the rules, each as often |
| `BuildModel.Queue.Push` | src/translate/build_model.py:293-298 | An atom is appended unless it was enqueued at any time before |
| `BuildModel.Queue.Pop` | src/translate/build_model.py:299-302 | Atoms are handed out once each, in the order in which they were enqueued |
| `BuildModel.BuildRule.UpdateIndex` | src/translate/build_model.py:94-99 | The new atom is filed under its condition: join buckets stay exactly the filed atoms by key, product lists and the counter of empty lists stay exact |
| `BuildModel.IndexesUpdate` | src/translate/build_model.py:94-99 | Adding an atom to the bucket of its key keeps every filed atom in the bucket of its own key |
| `BuildModel.KeysAgree` | src/translate/build_model.py:68-99 | Two atoms that match the two conditions of a join rule fit together under one substitution iff their join keys are equal |
| `BuildModel.BuildRule.FireProject` | src/translate/build_model.py:176-179 | Exactly the head of the new atom is derived |
| `BuildModel.BuildRule.FireJoin` | src/translate/build_model.py:100-113 | Exactly the heads of all pairs of the new atom with an earlier atom that agrees on the shared variables are derived, although the argument list of the head is overwritten in place from pair to pair |
| `BuildModel.BuildRule.FireProduct` | src/translate/build_model.py:141-166 | Exactly the heads of all bodies that combine the new atom with filed atoms of the other conditions are derived, and none when some condition has no atom yet |
| `BuildModel.HeadFromOrder` | src/translate/build_model.py:56-62 | Writing the new atom first and the other atoms over whatever an earlier combination left gives the head of the chosen body |
| `BuildModel.ProductSpec` | src/translate/build_model.py:141-166 | The Cartesian product contains a combination iff it takes one member of every factor |
| `Datalog.DerivationIsChoice` | src/translate/build_model.py:55-179 | Every derivation by a substitution is a choice of compatible atoms with that head |
| `Datalog.ChoiceIsDerivation` | src/translate/build_model.py:55-179 | Every choice of compatible atoms is a derivation by some substitution: the join and product rules lose and invent nothing |
| `ComputeModel.ComputeModel` | src/translate/build_model.py:306-341 | Terminates, returns each atom once, facts first, and the atoms are the least model of facts and rules |
| `ComputeModel.Process` | src/translate/build_model.py:333-336 | Handling one matched pair files the atom and then derives exactly what the pair adds |
| `ComputeModel.StepKeepsComplete` | src/translate/build_model.py:333-336 | After each firing every body of filed atoms has its head in the queue: the semi-naive invariant |
| `ComputeModel.StepKeepsSound` | src/translate/build_model.py:333-336 | After each firing every enqueued atom is in every model of facts and rules |
| `ComputeModel.StepKeepsWithin` | src/translate/build_model.py:306-341 | Derived atoms stay in the finite Herbrand base of the program, which bounds the loop |
| `ComputeModel.FixpointIsLeastModel` | src/translate/build_model.py:306-341 | When all enqueued atoms are filed, the queue is closed under the rules and so is the least model |
| `AxiomModel.LayeredModelUnique` | src/search/axioms.cc:271-356 | For stratified rules the layered least model with negation as failure is unique and is determined by the underived variables alone: what the derived variables held in the buffer beforehand does not matter |
| `AxiomModel.SupportedIsLayeredModel` | src/search/axioms.cc:271-356 | A state that satisfies all rules, in which every derived value has a rule whose derived conditions were obtained earlier or by failure, is that layered least model |
| `AxiomEvaluator.AxiomEvaluator.constructor` | src/search/axioms.cc:115-168 | After construction every literal lists each rule once per condition that mentions it, and every layer but the last lists its variables once for negation by failure |
| `AxiomEvaluator.AxiomEvaluator.CrossReference` | src/search/axioms.cc:143-151 | The condition_of lists are exact, with multiplicity |
| `AxiomEvaluator.AxiomEvaluator.InitializeNbf` | src/search/axioms.cc:153-167 | Each variable of a layer but the last gets one entry in that layer |
| `AxiomEvaluator.AxiomEvaluator.ResetDerived` | src/search/axioms.cc:275-301 | Underived and comparison literals are queued, logic variables are reset to their defaults |
| `AxiomEvaluator.AxiomEvaluator.StartCounters` | src/search/axioms.cc:303-323 | Counters equal the number of conditions that were not processed; rules without conditions have taken effect |
| `AxiomEvaluator.AxiomEvaluator.Decrement` | src/search/axioms.cc:330-342 | Visiting the rules of a literal processed for the first time keeps every counter equal to the number of its unprocessed conditions, and a rule fires when it reaches zero; in any case every firing uses up a counter |
| `AxiomEvaluator.AxiomEvaluator.Drain` | src/search/axioms.cc:326-343 | Terminates, also when a literal comes up twice; when no literal does, every rule whose conditions were processed has its effect |
| `AxiomEvaluator.AxiomEvaluator.CloseLayer` | src/search/axioms.cc:345-354 | Variables still at their default after their layer get that literal queued; a comparison variable at its default gets it a second time, and otherwise no literal is queued twice |
| `AxiomEvaluator.FireKeepsInv` | src/search/axioms.cc:333-341 | A fired literal was never queued before, and its variable has a supported value |
| `AxiomEvaluator.CloseKeepsInv` | src/search/axioms.cc:347-354 | Negation by failure queues a literal that was not queued before and that stays true |
| `AxiomEvaluator.DrainedSatisfiesRules` | src/search/axioms.cc:326-343 | With no literal left to process and all lower layers closed, every rule is satisfied |
| `AxiomEvaluator.AxiomEvaluator.EvaluateLogicAxioms` | src/search/axioms.cc:271-356 | For every state and stratified rules: terminates, keeps the underived variables, and queues no literal twice exactly when no comparison variable of a layer but the last is at its default; then every derived variable is left at its value in the layered least model |
| `CausalGraph.EdgesAreDependencies` | src/preprocess/causal_graph.cc:38-112 | The edges induced by the operators are exactly the dependencies: an affected variable depends on the preconditions, effect conditions and operands that its effect can be read off |
| `CausalGraph.ArcsCounted` | src/preprocess/causal_graph.cc:38-112 | The induced edges name a pair as often as conditions and operands, counted in the operators themselves, let the one depend on the other |
| `CausalGraph.CausalGraph.WeighGraphFromOps` | src/preprocess/causal_graph.cc:38-112 | The weight of an arc between different variables u and v is the sum, over all operators and their effects on v, of the prevail conditions on u, the preconditions on u, the effect conditions on u, and one if u is the operand of a numeric effect; the predecessor map holds the same number |
| `CausalGraph.PredecessorsAreDependencies` | src/preprocess/causal_graph.cc:38-112 | A variable is listed as a predecessor iff it is another variable on which there is a dependency |
| `CausalGraph.CausalGraph.Dfs` | src/preprocess/causal_graph.cc:385-394 | The recursion marks exactly what is needed to close the set under predecessors: everything marked is in each closed set that contains the start |
| `CausalGraph.CausalGraph.CalculateImportantVars` | src/preprocess/causal_graph.cc:327-347 | The variables marked necessary are the least set that contains the goals and the constraint and is closed under dependencies, and the marked numeric variables without a declared type become regular |
| `Pruning.StripUnimportantEffects` | src/preprocess/operator.cc:100-114 | The in-place compaction keeps exactly the effects on necessary variables, in order |
| `Pruning.StripOperators` | src/preprocess/operator.cc:131-144 | The in-place compaction keeps exactly the operators that are not redundant after stripping, in order |
| `Pruning.KeptReadsNecessary` | src/preprocess/operator.cc:100-129 | In a kept operator all prevail conditions and preconditions are on necessary variables, so a stripped effect never carried a precondition |
| `Pruning.ApplicableProjected` | src/preprocess/operator.cc:100-129 | A kept operator is applicable iff its stripped form is applicable in the projected state |
| `Pruning.ApplyProjected` | src/preprocess/operator.cc:100-129 | Stripping commutes with projection: applying the stripped operator to the projected state is projecting the result |
| `Pruning.RedundantChangesNothing` | src/preprocess/operator.cc:116-144 | A removed operator does not change the projected state, when kept numeric effects are on regular variables, which the analysis ensures |
| `Pruning.PlanSurvivesPruning` | src/preprocess/operator.cc:100-144 | For every dependency-closed set with the goals and constraint whose kept effects are on regular variables: each plan, with removed operators deleted and the others stripped, is a plan of the pruned planning task |
| `Pruning.PrunedPlanRuns` | src/preprocess/operator.cc:100-144 | For such a set, each plan of the pruned planning task is the stripped form of a plan of the original |
| `CausalGraph.CausalGraph.Mark` | src/preprocess/variable.cc:136-141 | A numeric variable that is marked becomes regular unless it was declared a constant or derived |
| `Relevance.PlansCorrespond` | src/preprocess/causal_graph.cc:327-347 | For the variables and types that the analysis computes, from every state with defined numbers each plan is, stripped, a plan of the pruned planning task, each plan of that is the stripped form of a plan, and so one has a plan iff the other has |
| `Relevance.Prune` | src/preprocess/operator.cc:131-144 | Weighing, marking and stripping in order give the pruned planning task for the least relevant set |
| `MaxDag.IncomingWeights` | src/preprocess/max_dag.cc:18-23 | The key of a node starts as the sum of its incoming weights, parallel edges included |
| `MaxDag.OneMoreArc` | src/preprocess/max_dag.cc:52-54 | A weight below 100000 lowers the key by the whole weight, a goal arc of 100000 plus its cost lowers it by the cost, and arcs to other nodes lower nothing |
| `MaxDag.LowerKeys` | src/preprocess/max_dag.cc:48-62 | After a removal the key of each remaining successor is lowered by the arc weight taken modulo 100000, and the multimap holds the current key of every remaining node once |
| `MaxDag.GetResult` | src/preprocess/max_dag.cc:7-71 | Returns a permutation of the nodes in which every node had the least current key when it was removed |
| `CausalOrder.KeyIsRemaining` | src/preprocess/causal_graph.cc:256-283 | Inside a component the current key is the total incoming weight, goal bonus included, minus the arcs of removed variables taken modulo 100000 |
| `CausalOrder.Subgraph` | src/preprocess/causal_graph.cc:251-279 | The graph given to MaxDAG has exactly the edges inside the component, with the extra 100000 edge for goal targets |
| `CausalOrder.Unweighted` | src/preprocess/causal_graph.cc:291-308 | The graph given to the component search has an edge iff a positive weight was counted |
| `CausalOrder.OrderComponent` | src/preprocess/causal_graph.cc:246-288 | A component is listed completely and once, greedily by least key |
| `CausalOrder.BlockMeansComponent` | src/preprocess/causal_graph.cc:242-289 | Two positions lie in the same block iff their variables reach each other, and an edge never leads to an earlier block |
| `CausalOrder.BlocksPermute` | src/preprocess/causal_graph.cc:242-289 | The concatenated blocks are a permutation of all variables |
| `CausalOrder.PseudoSort` | src/preprocess/causal_graph.cc:242-326 | The ordering is a permutation of all variables with each strong component contiguous, edges between components pointing forward, and each component in greedy order |
| `SuccessorGenerator.GenerateApplicableOps` | src/search/successor_generator.cc:97-141 | Generation appends what the tree yields for the state behind what the output vector already holds |
| `SuccessorGenerator.SuccessorGenerator.constructor` | src/search/successor_generator.cc:143-166 | For every planning task and state: the tree lists an operator exactly once if applicable and not at all otherwise iff the operator has at most one value per variable among its preconditions; in any case an applicable operator is listed exactly once and no operator twice |
| `SuccessorGenerator.SuccessorGenerator.ConstructRecursive` | src/search/successor_generator.cc:171-242 | A subtree built from a queue yields, for every state, exactly the operators of the queue whose remaining conditions hold, and moves no iterator of another operator |
| `SuccessorGenerator.SuccessorGenerator.Drain` | src/search/successor_generator.cc:187-220 | Draining the queue splits it into the immediate operators, one list per value and the default list, each in queue order, and advances exactly the iterators of those that test the switch variable |
| `SuccessorGenerator.SuccessorGenerator.PassSwitchVar` | src/search/successor_generator.cc:211-214 | The shared iterator is left at the first condition on another variable |
| `SuccessorGenerator.SuccessorGenerator.ConstructSwitch` | src/search/successor_generator.cc:224-235 | Building the children one after the other with shared iterators gives the tree the source would get from private copies |
| `SuccessorGenerator.SwitchYields` | src/search/successor_generator.cc:97-105 | A switch node over correct children yields each queued operator once when its conditions hold |
| `SuccessorGenerator.TreeIsExact` | src/search/successor_generator.cc:143-166 | The root yields an operator iff the first condition on each of its variables holds, which is its whole precondition iff no variable has two values |
| `SuccessorGenerator.LeadsAreAll` | src/search/successor_generator.cc:211-214 | When no variable has two values, skipping later conditions on the switch variable loses nothing |
| `SuccessorGenerator.InconsistentMisfires` | src/search/successor_generator.cc:211-214 | With two values for one variable some state gets the operator listed although it is not applicable |
| `SuccessorGenerator.SortByVar` | src/search/successor_generator.cc:151-157 | Sorting orders the condition by variable and keeps its facts with multiplicity |
| `IntPacker.GetBitMask` | src/search/int_packer.cc:13-28 | Exactly the bits in [from, to) are set, the full word included |
| `IntPacker.GetBitSizeForRange` | src/search/int_packer.cc:30-37 | The bit size is the least one whose power of two reaches the range, or the whole word for the marker of packed doubles |
| `IntPacker.SetBits` | src/search/int_packer.cc:71-77 | Setting a value that fits the width writes it into the field bits of the word and leaves every other bit |
| `IntPacker.RoundTrip` | src/search/int_packer.cc:63-77 | get after set returns the value iff the value is below two to the field width |
| `IntPacker.RangeIsLost` | src/search/int_packer.cc:71-77 | For a range that is a power of two the asserted value == range is not read back |
| `IntPacker.GetAfterSet` | src/search/int_packer.cc:63-77 | get after set returns every value below the range |
| `IntPacker.GetAfterOtherSet` | src/search/int_packer.cc:63-77 | Setting a variable to any value that fits its width leaves the value of every variable with a disjoint field unchanged |
| `IntPacker.OverflowDamages` | src/search/int_packer.cc:71-77 | The least value that does not fit changes a variable with a disjoint field exactly when that variable has the bit behind the field and the bit was clear |
| `IntPacker.IntPacker.constructor` | src/search/int_packer.cc:81-84 | Every variable gets one field inside one bin, fields are pairwise disjoint and leave no gap; each variable was the largest that fitted, the lowest index among equals; a variable in a later bin needs more bits than an earlier bin has left; every bin but the last holds more than 32 used bits, and so 33 (num_bins - 1) <= total bits |
| `IntPacker.IntPacker.PackBins` | src/search/int_packer.cc:118-140 | Terminates with all variables packed, each into one field, in the greedy order, and no variable of a later bin would have fitted into an earlier one |
| `IntPacker.IntPacker.PackOneBin` | src/search/int_packer.cc:142-175 | Opens one bin and packs at least one variable, always the largest that fits; on return every variable still unpacked needs more bits than the bin has left, and the bin holds more than 32 bits unless nothing is left |
| `IntPacker.TakeLargest` | src/search/int_packer.cc:153-171 | Taking the last entry of the largest non-empty list that fits is the greedy choice: every variable packed later is smaller, as large with a higher index, or did not fit |
| `IntPacker.BinIsFull` | src/search/int_packer.cc:153-163 | What is left when a bin is closed needs more room than there is and, by the greedy order, no more bits than are used |
| `IntPacker.BinsHoldAll` | src/search/int_packer.cc:118-140 | The used bits of all bins add up to the bits that the variables need |
| `IntPacker.FewBins` | src/search/int_packer.cc:118-140 | Bins that are more than half full bound the number of bins |
| `IntPacker.IntPacker.Get` | src/search/int_packer.cc:89-94 | Reads the value of the variable out of the buffer |
| `IntPacker.IntPacker.Set` | src/search/int_packer.cc:104-108 | Changes the value of that variable, no other variable, no bin outside the state, and keeps unused bits zero |
| `IntPacker.SameValuesSameBuffer` | src/search/state_registry.h:103-126 | With zero padding, equal values mean equal packed buffers |
| `EquivalenceRelation.MovedSplits` | src/search/equivalence_relation.cc:76-99 | Moving the elements of X out of their blocks splits every class, the implicit one included, into its parts inside and outside X |
| `EquivalenceRelation.ExactErase` | src/search/equivalence_relation.cc:131-132 | Erasing the node that a position names removes that element and leaves every other position exact |
| `EquivalenceRelation.ExactInsert` | src/search/equivalence_relation.cc:133-137 | Inserting an element and storing its position keeps all positions exact |
| `EquivalenceRelation.EquivalenceRelation.AddEmptyBlock` | src/search/equivalence_relation.cc:59-63 | A new empty block is added without an intersection block and nothing else changes |
| `EquivalenceRelation.EquivalenceRelation.RefineByBlock` | src/search/equivalence_relation.cc:104-161 | Two elements are equivalent afterwards iff they were before and are both inside or both outside X; stored positions stay exact, links are reset and no block is empty |
| `EquivalenceRelation.EquivalenceRelation.CleanUp` | src/search/equivalence_relation.cc:151-160 | Links of modified blocks are reset and the emptied blocks removed, and no other block |
| `EquivalenceRelation.EquivalenceRelation.Refine` | src/search/equivalence_relation.cc:70-74 | Two elements are equivalent afterwards iff they were before and are in the other relation, unlisted elements counting as one implicit class on both sides |
| `EquivalenceRelation.CountClasses` | src/search/equivalence_relation.cc:47-53 | The number of classes of 0..n-1 is the number of blocks, plus one when some element is unlisted |
| `EquivalenceRelation.EquivalenceRelation.GetNumBlocks` | src/search/equivalence_relation.cc:47-53 | Returns the true number of classes |
| `EquivalenceRelation.EquivalenceRelation.FromAnnotatedElements` | src/search/equivalence_relation.h:129-150 | Two annotated elements are equivalent iff their annotations are equal, and the others are unlisted |
| `SegmentedVector.SegmentedVector.Get` | src/search/segmented_vector.h:97-109 | Index i reads the i-th pushed entry, through segment i / n and offset i % n, always in bounds |
| `SegmentedVector.SegmentedVector.PushBack` | src/search/segmented_vector.h:115-125 | Appends the entry; existing segments are never moved |
| `SegmentedVector.SegmentedVector.PopBack` | src/search/segmented_vector.h:127-133 | Removes the last entry only |
| `SegmentedVector.SegmentedVector.Resize` | src/search/segmented_vector.h:135-144 | Keeps the entries below the new size and fills up with the given entry |
| `SegmentedVector.SegmentedArrayVector.SlotsApart` | src/search/segmented_vector.h:164-170 | The slots of different indices never overlap |
| `SegmentedVector.SegmentedArrayVector.At` | src/search/segmented_vector.h:213-225 | The pointer for an index leads to the elements of that array and stays inside its segment |
| `SegmentedVector.SegmentedArrayVector.PushBack` | src/search/segmented_vector.h:231-243 | Appends a copy of the array, also when the source pointer leads into the vector itself |
| `SegmentedVector.SegmentedArrayVector.PopBack` | src/search/segmented_vector.h:245-253 | Removes the last array only |
| `StateRegistry.InsertState` | src/search/state_registry.h:103-126 | Comparing packed data is comparing assignments: data is registered iff its assignment is, and under the same id |
| `StateRegistry.StatesDistinct` | src/search/state_registry.h:103-126 | The registered assignments are pairwise distinct, so ids and assignments are in bijection |
| `StateRegistry.RunKeepsIds` | src/search/state_registry.cc:31-46 | In every run of insertions ids are dense, an id never changes its meaning, no assignment has two ids, and exactly the inserted assignments have one |
| `StateRegistry.StateRegistry.InsertIdOrPopState` | src/search/state_registry.cc:31-46 | The state just pushed is registered under a new id, or dropped and answered by the id of the equal state |
| `StateRegistry.StateRegistry.LookupState` | src/search/state_registry.cc:48-50 | Reads the value of a variable of the state that the id stands for |
| `StateRegistry.StateRegistry.GetSuccessorState` | src/search/state_registry.cc:283-301 | Propositional part: the returned id stands for the predecessor with the effects that fire on the predecessor applied in order; all earlier ids keep their states |
| `StateRegistry.StateRegistry.ApplyEffects` | src/search/state_registry.cc:287-291 | Effects fire on the predecessor and written to the copy, although both may lie in one segment |
| `StateRegistry.StateRegistry.SetVar` | src/search/state_registry.cc:288-290 | Writing through the pointer to a stored state changes that variable of that state only and keeps padding zero |
| `StateRegistry.StateRegistry.RegisterInitialState` | src/search/state_registry.cc:55-60 | An assignment packed into a zeroed buffer is registered as itself |
| `PerStateInformation.PerStateInformation.GetEntries` | src/search/per_state_information.h:67-87 | Finds or creates the vector of a registry and brings the cache up to date, without changing any entry |
| `PerStateInformation.PerStateInformation.ReadOnly` | src/search/per_state_information.h:192-205 | Answers like a total map with a default, whatever registry is cached |
| `PerStateInformation.PerStateInformation.Access` | src/search/per_state_information.h:180-190 | Growing the vector to the registry size changes no entry |
| `PerStateInformation.PerStateInformation.Set` | src/search/per_state_information.h:180-190 | Writing an entry changes that entry of that registry and no other |
| `PerStateInformation.PerStateInformation.RemoveStateRegistry` | src/search/per_state_information.h:207-214 | All entries of the registry answer the default afterwards, those of others are unchanged, and the cache does not point to the removed vector |
| `Unfolding.ProjectionKeeps` | src/translate/greedy_join.py:100-104 | A project rule with a new head predicate holds for exactly the values of the kept variables that extend to a tuple of the joinee |
| `Unfolding.JoinStep` | src/translate/greedy_join.py:86-112 | Replacing two joinees by the head of their join, when every variable used elsewhere is kept, leaves the derived head tuples as they are |
| `Unfolding.LastJoin` | src/translate/greedy_join.py:76-78 | The last join may be given the head of the original rule |
| `Unfolding.OthersUnchanged` | src/translate/greedy_join.py:79-84 | A rule for a new predicate changes the meaning of no other atom |
| `GreedyJoin.CostMatrix.constructor` | src/translate/greedy_join.py:29-33 | The table is lower triangular and holds the join cost of every pair |
| `GreedyJoin.CostMatrix.AddEntry` | src/translate/greedy_join.py:34-37 | A new row keeps the table of pairwise costs |
| `GreedyJoin.CostMatrix.DeleteEntry` | src/translate/greedy_join.py:38-42 | Deleting a column in the later rows and then the row leaves the table of the remaining joinees |
| `GreedyJoin.CostMatrix.FindMinPair` | src/translate/greedy_join.py:43-51 | Returns the first pair of least cost, row by row |
| `GreedyJoin.CostMatrix.RemoveMinPair` | src/translate/greedy_join.py:52-58 | Returns the first cheapest pair and removes both, the larger index first |
| `GreedyJoin.CostMeans` | src/translate/greedy_join.py:59-67 | The cost of a pair counts the variables that one joinee has alone, the smaller number first, and then the common ones, where more are cheaper |
| `GreedyJoin.LessMeans` | src/translate/greedy_join.py:48 | Costs compare as tuples: the first component in which they differ decides |
| `GreedyJoin.OccurrencesTracker.constructor` | src/translate/greedy_join.py:11-15 | The table counts the variable occurrences in head and body |
| `GreedyJoin.OccurrencesTracker.Update` | src/translate/greedy_join.py:16-24 | Counting an atom in or out keeps the counts exact and lists no variable with count zero |
| `GreedyJoin.RoundEquivalent` | src/translate/greedy_join.py:92-107 | One round of projecting and joining keeps the meaning under every interpretation of the body predicates |
| `GreedyJoin.RoundShape` | src/translate/greedy_join.py:97-107 | One round keeps the rules in shape: a joinee with an argument that neither the other joinee nor the effect needs is projected first, and only then |
| `GreedyJoin.RoundAsks` | src/translate/greedy_join.py:97-107 | One round keeps that everything a joinee or an earlier effect carries is still asked for by the head or another joinee |
| `GreedyJoin.GreedyJoin` | src/translate/greedy_join.py:86-112 | For every interpretation of the body predicates the produced project and join rules, applied in order, derive exactly the head tuples of the original rule. In a join a symbol of a condition is in the effect or in both conditions; a projection drops at least one argument; effects of all but the last rule list symbols of their conditions once, for a join variables only; and what such a join keeps is in the original head or in another condition of a later rule |
| `AxiomRules.RemoveDuplicates` | src/translate/axiom_rules.py:120-126 | The list is compacted in place to the same literals without adjacent repetitions |
| `AxiomRules.Dominated` | src/translate/axiom_rules.py:150-153 | The in-place intersections still leave only axioms whose body contains the whole body, and every index entry keeps the axioms that matter |
| `AxiomRules.SomeRetained` | src/translate/axiom_rules.py:144-157 | Every axiom is dominated by one that is retained, although dominated axioms are skipped while sets shrink |
| `AxiomRules.RetainedSuffice` | src/translate/axiom_rules.py:144-157 | Keeping a dominating axiom for each dropped one keeps the truth of the disjunction |
| `AxiomRules.Simplify` | src/translate/axiom_rules.py:128-157 | Under every valuation the disjunction of bodies keeps its truth value, and the bodies keep their literals |
| `AxiomRules.ProductMeans` | src/translate/axiom_rules.py:183-190 | Extending every body by the negation of each literal in turn means: some body and not the whole negated body |
| `AxiomRules.Negate` | src/translate/axiom_rules.py:168-192 | Under every valuation the disjunction of the returned bodies is the negation of the disjunction of the given ones, with the negated effect and the same name |
| `AxiomRules.ComputeNecessaryAxiomLiterals` | src/translate/axiom_rules.py:71-100 | The literals found are the least set that covers what goals, constraint and operators ask for and is closed under the bodies of its axioms, with the sign carried through |
| `AdaptiveQueue.RootIsLeast` | src/search/priority_queue.h:80-87 | The root of a heap has a least key |
| `AdaptiveQueue.SortedIsHeap` | src/search/priority_queue.h:114-122 | Sorted entries form a heap as they are, so the destructive creation needs no heapifying |
| `AdaptiveQueue.HeapQueue.Push` | src/search/priority_queue.h:95-97 | Adds the entry to the contents |
| `AdaptiveQueue.HeapQueue.Pop` | src/search/priority_queue.h:99-104 | Removes and returns an entry of least key |
| `AdaptiveQueue.BucketQueue.Push` | src/search/priority_queue.h:170-180 | Adds the entry, growing the buckets to key + 1 and moving the current bucket down when needed |
| `AdaptiveQueue.BucketQueue.UpdateCurrentBucketNo` | src/search/priority_queue.h:141-146 | Stops at the first non-empty bucket |
| `AdaptiveQueue.BucketQueue.Pop` | src/search/priority_queue.h:182-190 | Removes and returns an entry of least key |
| `AdaptiveQueue.BucketQueue.ExtractSortedEntries` | src/search/priority_queue.h:148-160 | Returns all entries in key order |
| `AdaptiveQueue.BucketQueue.Clear` | src/search/priority_queue.h:196-207 | Empties the queue but keeps its buckets |
| `AdaptiveQueue.AdaptiveQueue.ConvertIfNecessary` | src/search/priority_queue.h:209-220 | Switches to a heap iff the key is at least 100 and above the number of pushes, and the contents stay the same |
| `AdaptiveQueue.AdaptiveQueue.Push` | src/search/priority_queue.h:244-251 | The contents grow by the entry, also across the switch |
| `AdaptiveQueue.AdaptiveQueue.Pop` | src/search/priority_queue.h:253-255 | Removes and returns an entry of least key, in either phase |
| `AdaptiveQueue.AdaptiveQueue.Clear` | src/search/priority_queue.h:261-263 | Leaves the queue empty |
| `AdaptiveQueue.AdaptiveQueue.AddVirtualPushes` | src/search/priority_queue.h:265-267 | Raises the push count of the bucket phase and leaves the contents |
| `AdaptiveQueue.AdaptiveQueue.FewBuckets` | src/search/priority_queue.h:209-220 | Before any clear there are at most max(100, num_pushes) buckets |
| `JsonText.Utf8RoundTrip` | src/search/trajectory_score_protocol.cc:117-133 | append_utf8 encodes every scalar value so that an RFC 3629 decoder gets it back, and surrogates are no code points |
| `JsonText.Utf8Unique` | src/search/trajectory_score_protocol.cc:117-133 | The bytes are the only legal encoding, as section 3 of RFC 3629 asks |
| `JsonText.AppendJsonString` | src/search/trajectory_score_protocol.cc:391-412 | Prints the quoted string of section 7 of RFC 8259 |
| `JsonText.EscapedByteReads` | src/search/trajectory_score_protocol.cc:391-412 | Each printed byte or escape is read back as that byte, whatever surrounds it |
| `JsonText.StringRoundTrip` | src/search/trajectory_score_protocol.cc:135-186 | Reading a printed string, in any context, gives back the original bytes and stops behind the closing quote |
| `JsonText.QuadIsSpelled` | src/search/trajectory_score_protocol.cc:94-115 | The unit read is the one that the four digits spell with the digit strings 0123456789abcdef and 0123456789ABCDEF, each digit in either case, and nothing else is read |
| `JsonText.CharacterRead` | src/search/trajectory_score_protocol.cc:135-186 | At every position of a string exactly the characters of section 7 of RFC 8259 are read: an unescaped byte, one of the eight letter escapes with the character it names, a unit that is no surrogate, or a surrogate pair |
| `JsonText.StringIsRead` | src/search/trajectory_score_protocol.cc:135-186 | The strings read are those of the grammar: characters up to the first closing quote, with their bytes in order |
| `JsonText.EscapeDecodes` | src/search/trajectory_score_protocol.cc:162-178 | An escape, spelled in either case, stands for the UTF-8 of its code point, and a lone low surrogate is refused |
| `JsonText.PairDecodes` | src/search/trajectory_score_protocol.cc:163-173 | A surrogate pair, spelled in either case, stands for the UTF-8 of its code point, and a high surrogate with no low one behind it is refused |
| `JsonText.SurrogatePairs` | src/search/trajectory_score_protocol.cc:163-173 | A pair names a code point from 0x10000 to 0x10ffff and is determined by it |
| `JsonText.PairOf` | src/search/trajectory_score_protocol.cc:163-173 | Every such code point has a pair |
| `JsonParser.JsonParser.ParseHexQuad` | src/search/trajectory_score_protocol.cc:104-115 | Reads exactly the unit that four hexadecimal digits in either case spell, or fails when there are none |
| `JsonParser.JsonParser.ParseString` | src/search/trajectory_score_protocol.cc:135-186 | Succeeds iff a quoted string of section 7 of RFC 8259 starts here, with its bytes, and ends behind its closing quote; the grammar names the escapes by character and the digits by digit string |
| `JsonParser.JsonParser.ParseNumber` | src/search/trajectory_score_protocol.cc:188-237 | Returns only the value of a number of section 6 of RFC 8259 that starts here, and finds every number behind which no further byte of a number stands |
| `JsonParser.JsonParser.ParseArray` | src/search/trajectory_score_protocol.cc:239-265 | Returns only an array that starts here, with its elements in order, finds every one that nests no deeper than is left, and restores the depth |
| `JsonParser.JsonParser.ParseObject` | src/search/trajectory_score_protocol.cc:267-302 | Returns only an object with distinct keys that starts here, finds every one that nests no deeper than is left, and restores the depth |
| `JsonParser.JsonParser.ParseValue` | src/search/trajectory_score_protocol.cc:304-331 | Returns the one value that starts behind the spaces, if there is any |
| `JsonParser.JsonParser.Parse` | src/search/trajectory_score_protocol.cc:338-344 | Terminates in bounds and returns a value iff the text is a JSON text for it with distinct keys per object and at most 64 levels of nesting; the depth is back at zero |
| `JsonParser.FirstByte` | src/search/trajectory_score_protocol.cc:304-331 | The first byte of a value decides which rule of the grammar applies |
| `JsonParser.PartsStop` | src/search/trajectory_score_protocol.cc:188-226 | Each part of a number ends where the next byte cannot belong to it, so reading greedily is right |
| `JsonParser.DelimiterOf` | src/search/trajectory_score_protocol.cc:253-262 | Behind an item the first byte that is no space is a comma or the closing byte, as the grammar says |
| `JsonParser.FieldRead` | src/search/trajectory_score_protocol.cc:281-291 | A field of the grammar is found behind its spaces, and its key is a new one |
| `JsonParser.ElementRead` | src/search/trajectory_score_protocol.cc:252-253 | An element of the grammar is found at its place, with its value and end |
| `JsonParser.PrintedStringIsDocument` | src/search/trajectory_score_protocol.cc:391-412 | A printed string is a JSON text for the original bytes, so parsing it returns them |
| `JsonParser.StringsAreQuoted` | src/search/trajectory_score_protocol.cc:281-307 | The strings and keys in the grammar of a document are those of section 7 of RFC 8259 |
| `JsonParser.EscapeIsDocument` | src/search/trajectory_score_protocol.cc:94-178 | A quoted escape is a JSON text for the character that its digits spell, whatever their case |
| `JsonParser.NamedBytes` | src/search/trajectory_score_protocol.cc:75-83 | Spaces, digits and the three words of the grammar are the characters of sections 2, 3 and 6 of RFC 8259 |
| `AnytimeRegistry.ActiveIterationRegistry.StartIteration` | hybrid_planner/anytime.py:52-56 | From then on exactly this iteration is active, and after the end of any iteration no request makes one active |
| `AnytimeRegistry.ActiveIterationRegistry.AcceptRequest` | hybrid_planner/anytime.py:58-66 | Accepts a request iff its run and iteration are active; without any phase the first iteration seen becomes active |
| `AnytimeRegistry.ActiveIterationRegistry.RegisterFuture` | hybrid_planner/anytime.py:75-83 | The future is registered iff its run and iteration are active; a refused one is registered nowhere, and no other entry changes |
| `AnytimeRegistry.ActiveIterationRegistry.UnregisterFuture` | hybrid_planner/anytime.py:85-87 | The request has no future afterwards, and no other entry changes |
| `AnytimeRegistry.ActiveIterationRegistry.EndIteration` | hybrid_planner/anytime.py:89-105 | Cancels and forgets exactly the futures of the phase, reports them by request, and the phase is no longer active |
| `AnytimeRegistry.AnytimeRunRecorder.RequestReceived` | hybrid_planner/anytime.py:245-278 | The row of the request has its iteration and is neither final nor frozen, and no other row changes |
| `AnytimeRegistry.AnytimeRunRecorder.RequestFinished` | hybrid_planner/anytime.py:280-292 | A stale or discarded row stays as it is, any other gets the status, the iteration stays, and no other row changes |
| `AnytimeRegistry.AnytimeRunRecorder.MarkIterationStale` | hybrid_planner/anytime.py:328-339 | The rows stay the same ones; a row of another iteration or with status ok, partial, mock, prompt_error, llm_error or internal_error is unchanged; every other row of the iteration becomes stale_iteration and keeps its iteration |
| `AnytimeRegistry.AnytimeRunRecorder.PhaseEnd` | hybrid_planner/anytime.py:373-387 | Ends the phase in the registry, cancels its futures, and marks stale exactly those of its rows that have none of the six final statuses |
| `AnytimeRegistry.AnytimeRunRecorder.ResponseDiscarded` | hybrid_planner/anytime.py:453-462 | The row is frozen afterwards, a stale one stays stale, and no other row changes |
| `AnytimePhases.InvAlways` | hybrid_planner/console.py:309-320 | Every step of every handler and of the planner thread, in any interleaving and with ends whose start line never came, keeps the invariant on phases, futures and rows |
| `AnytimePhases.NoLateCompletion` | hybrid_planner/console.py:589-618 | In every run, once the end of a phase is fully processed, some continuation makes a row of it newly ok, partial or mock exactly when the phase is not shut: when no phase start was seen and the registry can take the iteration up again |
| `AnytimePhases.NoFutureLeft` | hybrid_planner/console.py:409-435 | In every run, from the end of a phase in the registry on, some continuation leaves a future of it registered, or waited for without a cancel request, exactly when the phase is not shut |
| `AnytimePhases.StartShuts` | hybrid_planner/anytime.py:52-56 | A phase start seen at any time before shuts every phase that has ended, so both properties hold for every planner that prints a start line first |
| `AnytimePhases.LateRequest` | hybrid_planner/anytime.py:58-66 | The failing run: after an end without a start, a request for the ended iteration is received, accepted, answered, checked and recorded as usable |
| `AnytimePhases.OverForGood` | hybrid_planner/anytime.py:280-292 | Along every path from a state in which a phase is over it stays over, and its usable rows were usable before, and the same |
| `AnytimePhases.EndWithoutStart` | hybrid_planner/anytime.py:58-66 | For every registry: the next request takes up the iteration that was just ended iff no phase start was seen and that iteration or none was active |
| `Constraints.Assignment.ComputeEquivalenceClasses` | src/translate/constraints.py:44-55 | Merging the shared sets gives the least equivalence that contains the equalities |
| `Constraints.MergesOneMore` | src/translate/constraints.py:46-54 | One more equality unites its two classes and no others |
| `Constraints.Assignment.ComputeMapping` | src/translate/constraints.py:57-79 | The assignment is consistent iff no class holds two constants, and then every item is mapped to a representative of its class, to the constant if there is one |
| `Constraints.Assignment.IsConsistent` | src/translate/constraints.py:81-84 | True iff some valuation into an infinite domain that extends the distinct constants meets the equalities |
| `Constraints.SuggestedWorks` | src/translate/constraints.py:57-79 | Reading the representatives as values is such a valuation, and it makes no two classes equal |
| `Constraints.RepresentativeEqual` | src/translate/constraints.py:57-79 | Under every valuation that meets the equalities an item equals its representative |
| `Constraints.ClausesDecided` | src/translate/constraints.py:109-115 | The mapped clauses are all satisfiable iff some valuation meets the equalities and all negative clauses |
| `Constraints.MappedApart` | src/translate/constraints.py:18-26 | A mapped clause is satisfiable iff some part is mapped to two different items |
| `Constraints.ProductMeets` | src/translate/constraints.py:117-121 | A valuation meets all disjunctions iff it meets the equalities of one combination |
| `Constraints.ConstraintSystem.Combine` | src/translate/constraints.py:132-138 | The solutions of the combined system are the common solutions |
| `Constraints.ConstraintSystem.IsSolvable` | src/translate/constraints.py:154-164 | True iff some valuation satisfies one assignment of every disjunction and all negative clauses |
| `FactGroups.GroupCoverQueue.constructor` | src/translate/fact_groups.py:36-48 | Every group is filed by size and by fact, and the top is a largest one |
| `FactGroups.GroupCoverQueue.UpdateTop` | src/translate/fact_groups.py:60-69 | Despite stale size lists the next top is a largest group of what is left, and groups that shrank are filed again |
| `FactGroups.GroupCoverQueue.Pop` | src/translate/fact_groups.py:52-59 | Returns a largest remaining group without the facts covered before, and removes its facts from all groups |
| `FactGroups.ChooseGroups` | src/translate/fact_groups.py:71-81 | Terminates with popped groups that are each a largest remaining one, followed by one single group per uncovered reachable fact |
| `FactGroups.EachFactOnce` | src/translate/fact_groups.py:71-81 | Every reachable fact is in exactly one group of the result |
| `FactGroups.ChoicesDisjoint` | src/translate/fact_groups.py:52-59 | The popped groups are pairwise disjoint |
| `FactGroups.SizesFall` | src/translate/fact_groups.py:60-69 | The popped groups have non-increasing sizes |

## Left out

- Reading and writing files, processes, sockets, HTTP, CSV and JSON artifacts, logging, argument parsing: I/O only.
- The search loops, open lists, heuristics, LM-cut and symmetries: their reopening guards and estimates are separate algorithms.
- convert_rules and variables_to_numbers of build_model.py, and sorting facts by text: renaming and presentation of the input.
- The trie of build_model.py is a value that insertion rebuilds; sharing of its nodes is not modelled.
- Arithmetic and comparison axioms (axioms.cc:170-269): floating point; their results enter as values of the comparison variables.
- AxiomEvaluator.AxiomEvaluator.EvaluateLogicAxioms: the packed buffer is an array with one value per variable, packing itself is proved in IntPacker; what the derived variables hold after a literal was queued twice is not stated, only that this happens and exactly when.
- Weights induced by axioms (causal_graph.cc:114-192), instrumentation variables and the metric: the plan theorems are for tasks without axioms, and the instrumentation pass is not a fixpoint.
- Conditions on numeric effects: the reader drops them, so numeric effects are unconditional here as well.
- MaxDag.GetResult: the multimap is a sorted sequence in which a new entry goes behind those of equal key; iterators are looked up by node.
- src/preprocess/successor_generator.cc: the same construction over operator indices, with printing in place of generation.
- SuccessorGenerator.SortByVar: one order among the facts of a variable; std::sort leaves it open, which matters only for operators with two values for a variable.
- Bits: machine words are natural numbers below two to the 64 with bitwise operators defined on them; packDouble and unpackDouble are opaque, and the marker range excludes the all-ones word.
- EquivalenceRelation: blocks and list nodes are addresses with tables for their contents, not heap objects; the tolerance comparison of doubles is left out, annotations are compared by equality.
- StateRegistry.StateRegistry.GetSuccessorState: numeric variables and metric values are not part of this model, and axioms are not evaluated on the result; the retention of metric values for duplicates does not keep the better one.
- StateRegistry.StateRegistry.RegisterInitialState: the packing of any given assignment; the cached initial state object is left out.
- PerStateInformation: a registry is a number, and its current size is passed in.
- GreedyJoin.GreedyJoin: retained variables are listed in some order instead of sorted; the choice of the cheapest pair is proved but does not enter the equivalence.
- AxiomRules.Simplify: completeness (no dominated axiom remains) is not claimed, since the shared sets shrink in place; sorting of conditions is any permutation.
- compute_axiom_layers: positive cycles can get too low a layer, so stratification is a hypothesis of the evaluator.
- AdaptiveQueue.HeapQueue: std::push_heap and std::pop_heap are a textbook binary heap; any least entry may be popped among equal keys.
- AdaptiveQueue.AdaptiveQueue.FewBuckets: only before a clear, which keeps the buckets but resets the push count.
- JsonParser: error messages and the typed reading of fields (find_field and the message parser) are left out.
- AnytimePhases: closing a run, timing fields, sample rows and planner lines that touch no status are left out; one lock-protected section is one step.
- Constraints: the representative of a class of variables is any member instead of the least; printing and copying are left out.
- FactGroups: with partial encoding only; expand_group, sort_groups and the translation key are presentation.
