# Verified core of the fluent monorepo

A Dafny model of two families of code, with proofs about every input, every run or
every reachable state.

**The dependency fabric.** `DependencyGraph` keeps two inverted indices in step with
its tables, answers transitive-dependent queries and sorts topologically with a
shared Kahn core. `DependencyResolver` selects providers by a fixpoint over hash
sets, expands the selection and orders it. `TypeInference`, `TaxonomyHierarchy` and
`transitive_ancestors` compute one subclass relation in three ways.
`CheckpointedStepGraph` rewinds plans.

**The concurrency protocols.** Credit-based flow control, the bounded queue with
permit-style notification, the priority queue and the supervised batch. The first two
are state machines over their atomic steps, with any number of senders, receivers or
producers; the others are classes.

Two array cores are included: the two-pointer span aligner and the head-major
key/value truncation.

## Files

| file | content |
|---|---|
| Sequences, Reachability | shared vocabulary: distinctness, sorting, paths, cycles |
| Kahn | topological orders, which pairs they must keep, and the Kahn loop over its degree table |
| Listing, DependencyGraph | the order of a stack walk; the graph class and its queries |
| Targets, Narrowing, Closure, Selection, Resolver, Requests | the resolver, bottom up, up to requests by name |
| PolicyAgreement, Losers, ResolverInputs | when the policies agree; why targets are selected and which losers stay out; registries on which comments and code differ |
| TypeInference, Taxonomy, YagoAncestors, YagoCompleteness, HierarchyAgreement | the subclass relation |
| CreditFlow, WaitQueue, QueueClose, Workers, PriorityQueue, Batch | the concurrency protocols |
| Checkpointed, Align, Truncate | checkpoints, span alignment, rolling window |

## Modelling choices

- Keys (`K: Ord`, class ids, component names, layer numbers) are `int`; target and
  capability names are strings. A bit vector is the set of its ones, except in
  `TypeInferences`, where the bits themselves are the point.
- A hash set or hash map is iterated in an order the model leaves open (`Enumerate`).
  Each such method is proved equal to a specification without any order, so the result
  is the same for every order.
- The resolver is modelled for distinct target ids. `TargetRegistry::register` rejects
  duplicate names only (src/dag/src/target.rs:43); the registry itself is modelled for
  any ids, and its lookups then find the later target.
- `Notify` follows its contract: at most one stored permit; waking one waiter wakes a
  sleeper if there is one; `notify_waiters` reaches every future created before it.
- A producer of `WaitQueue` is one call of `push` or `push_wait`. Calls that one task
  makes in turn are among the runs, so what holds in all runs holds for such tasks; the
  runs that strand a producer have all calls under way at once.
- `transitive_ancestors` visits classes in the order of their names and parents in the
  order given. Names are integers here, and the completeness theorem ranges over all
  orders of both.
- In `CreditFlow` receivers are told apart only by the point they have reached inside
  `recv`, so they are counted; the sender's retry loop is explicit.
- In `Batches` the runtime is the method `Finish`: any running task may end at any
  time in any way, also after it was told to abort. `Poll` may find the join set
  pending although some task has ended. A ghost journal keeps the outcome and the mark
  with which each task was joined. The poll budget wraps below zero, as unsigned
  arithmetic does where overflow checks are off; a repository test calls 1 the least
  valid budget (src/fluent-concurrency/tests/m2.rs:635).

## Where the code differs from its comments

- src/dag/src/narrowing.rs:29 lists a preference for candidates without dependencies. It
  never decides a contest: `Narrowing.LastFilterIdle`.
- src/dag/src/resolver.rs:15-17 says losers of narrowing can never re-enter the plan.
  They can: `ResolverInputs.LoserReenters`. `Losers.LosersStayOut` gives a condition on
  what the seeds call for under which they do not.
- src/dag/src/resolver.rs:381 draws ordering edges through providers only, so a
  dependency met by target name alone is in the plan but not ordered:
  `ResolverInputs.NameOnlyIsUnordered` has a plan that runs the consumer first.
  `Resolver.PlanOrderForcedIff` says exactly which pairs are ordered.
- src/dag/src/resolver.rs:215-216 drops the name fallback on the fast path:
  `ResolverInputs.FastPathDropsName`. `PolicyAgreement.FastPathSucceedsIff` and
  `PolicyAgreement.FastPathAgreesIff` say exactly when that matters. The fast path also
  skips contests over own names: `ResolverInputs.FastPathSkipsContest`.
- src/concept/src/concept_store.rs:137 promises the nearest ancestor first. The walk is
  depth first: `Listings.ForkIsNotNearestFirst`. Direct parents do come first on any
  hierarchy, and with single parents the whole list is nearest first.
- src/common-core/src/yago_taxonomy.rs:141-142 promises the transitive closure,
  cycle-safe. Two classes that are each other's parents are enough to lose an ancestor:
  `YagoCompleteness.TwoCycleLosesAncestor`. `YagoCompleteness.CompleteIff` says exactly
  which hierarchies lose none. Only the reuse of a memo loses ancestors:
  `YagoAncestors.FreshSearchIsExact`.
- src/fluent-concurrency/src/pool.rs:191 says close wakes all waiters. A producer in
  `push_wait` can stay asleep for good, and `QueueClosing.CloseWakesAllIff` says exactly
  for which queues. A producer can also add an item after None was returned:
  `QueueClosing.NoneIsFinalIff`.
- With several workers on one queue, a worker can park beside a queued item that nobody
  is about to announce: `Workers.NoLostItemIff`. Another worker is then going to look:
  `Workers.NeverAllAsleep`.
- Racing `recv` calls over-grant credit: `CreditFlow.OutstandingBoundedIff` says
  exactly when the credit limit bounds the items in flight.
- src/fluent-onnx/src/align.rs:118 says the tokens of one spacy token are adjacent;
  zero-width tokens may lie between them: `Alignment.ZeroWidthInside`, and exactly those:
  `Alignment.RangeHoldsOnlyOwn`.
- Truncating in two steps differs from one step when a layer of the wrong size happens
  to fit the first window: `RollingWindow.TruncateComposes`.

## Model

| member | source | states |
|---|---|---|
| Kahn.KahnSort | src/dag/src/dep_graph.rs:458-496 | Complete exactly when the edges are acyclic, and then the lexicographically least topological order; otherwise the nodes missing are exactly those on or behind a cycle. In the adjacency rows: dependents come later, a smaller node comes later only while it waits for one placed in between, and a node is left out only behind one left out. No degree underflows, also with repeated edges |
| Kahn.Relax | src/dag/src/dep_graph.rs:478-488 | each dependent's degree drops by its multiplicity, and the unread queue stays sorted and holds exactly the nodes of degree zero |
| Kahn.Resort | src/dag/src/dep_graph.rs:484 | sorts the unread part, keeps the read part and the members |
| Kahn.ZeroDegrees | src/dag/src/dep_graph.rs:465-470 | the initial queue: all nodes of degree zero, ascending, once each |
| TopologicalOrders.KahnOrderIsLeast | src/dag/src/dep_graph.rs:345-347 | taking the least ready node each time gives the least of all topological orders |
| TopologicalOrders.KahnOrderUnique | src/dag/src/dep_graph.rs:345-347 | the order is determined by the nodes and edges alone |
| TopologicalOrders.KahnMissing | src/dag/src/dep_graph.rs:491-493 | a node is missing from the partial order if and only if it is on or behind a cycle |
| TopologicalOrders.KahnCompleteIffAcyclic | src/dag/src/dep_graph.rs:491-495 | all nodes are ordered if and only if there is no cycle |
| TopologicalOrders.KahnOrderMeans | src/dag/src/dep_graph.rs:458-496 | by positions: edges point forward, a smaller node comes later only while it waits for one placed in between, and what is left out waits for something left out |
| TopologicalOrders.KahnOrderInPart | src/dag/src/dep_graph.rs:390-393 | restricted to a part that holds its prerequisites, the order of the whole is the order of the part |
| TopologicalOrders.OrderForcedIff | src/dag/src/dep_graph.rs:407-409 | of two nodes of an orderable graph, every order puts `p` before `n` if and only if edges lead from `p` to `n` |
| DependencyGraphs.DependencyGraph.constructor | src/dag/src/dep_graph.rs:89-97 | an empty graph with consistent indices |
| DependencyGraphs.DependencyGraph.Register | src/dag/src/dep_graph.rs:105-130 | refuses exactly a registered node; otherwise the node, its dependencies and its assets enter their tables, and both indices stay the exact inversions of the tables with no empty entry |
| DependencyGraphs.DependencyGraph.Unregister | src/dag/src/dep_graph.rs:141-154 | removes the node and all its index entries; both indices stay exact inversions; absent nodes change nothing |
| DependencyGraphs.DependencyGraph.Contains | src/dag/src/dep_graph.rs:182-184 | registration |
| DependencyGraphs.PushAll | src/dag/src/dep_graph.rs:116-127 | every asset row gains the node as often as the asset is listed; other rows are unchanged |
| DependencyGraphs.ScrubAll | src/dag/src/dep_graph.rs:501-508 | the node is gone from the rows of its assets, emptied rows are gone, other rows are unchanged |
| DependencyGraphs.AddKeepsInversion | src/dag/src/dep_graph.rs:112-127 | an index that inverts a table still does after a registration |
| DependencyGraphs.RemoveKeepsInversion | src/dag/src/dep_graph.rs:145-152 | and after a removal |
| DependencyGraphs.InversionUnique | src/dag/src/dep_graph.rs:100-101 | the tables determine the index, with order and multiplicity |
| DependencyGraphs.IndexMeans | src/dag/src/dep_graph.rs:112-127 | a row of an index holds exactly the nodes that list the asset, each as often as it lists it |
| DependencyGraphs.RemoveUndoesAdd | src/dag/src/dep_graph.rs:105-154 | unregistering a node just registered restores tables and indices |
| DependencyGraphs.DependencyGraph.DependentsOf | src/dag/src/dep_graph.rs:258-309 | ends on any graph; each node reachable through provided assets exactly once, the start excluded, in the order of a stack walk. In the tables: every other consumer of what the start or a listed node offers is listed, and each listed node consumes what the start or an earlier one offers |
| Listings.DirectFirst | src/dag/src/dep_graph.rs:285-305 | what the start reaches in one step is a prefix of the list, on any graph |
| Listings.SingleParentNearestFirst | src/concept/src/concept_store.rs:137-141 | with at most one parent each, no entry is farther from the start than a later one |
| Listings.ForkIsNotNearestFirst | src/concept/src/concept_store.rs:137-141 | a hierarchy with two branches on which, whatever the order of registration, an ancestor three steps up comes before one two steps up |
| DependencyGraphs.DependencyGraph.Expand | src/dag/src/dep_graph.rs:285-305 | one expansion enqueues every consumer of the node's assets that was not enqueued yet |
| DependencyGraphs.DependencyGraph.TopoSortInner | src/dag/src/dep_graph.rs:401-444 | success exactly without cycles other than self-loops; then the least order with every other provider in the subset before its consumer; on failure exactly the nodes on or behind a cycle are missing; and the same said in the offers and dependencies of the nodes |
| DependencyGraphs.SortResultMeans | src/dag/src/dep_graph.rs:401-444 | a provider goes before those that need it, a smaller node comes later only while it waits for one placed in between, and a node is left out only if it needs what another one left out offers |
| DependencyGraphs.DependencyGraph.AddNodeEdges | src/dag/src/dep_graph.rs:414-427 | the degree and adjacency tables gain exactly the edges into one node |
| DependencyGraphs.DependencyGraph.TopoSort | src/dag/src/dep_graph.rs:347-352 | the same for all registered nodes |
| DependencyGraphs.DependencyGraph.DependencyClosure | src/dag/src/dep_graph.rs:371-388 | ends, with exactly the nodes that some root needs, directly or not: the least set that holds the roots and every provider of what its members need |
| DependencyGraphs.DependencyGraph.PushProviders | src/dag/src/dep_graph.rs:377-387 | every provider of the node's dependencies is visited or pushed, and nothing else is pushed |
| DependencyGraphs.DependencyGraph.TopoSortFrom | src/dag/src/dep_graph.rs:360-394 | the sort of that least set, and the subsequence of the sort of everything |
| DependencyGraphs.SortFromIsSubsequence | src/dag/src/dep_graph.rs:354-394 | the order from roots is the full order with everything else struck out |
| Targets.TargetRegistry.constructor | src/dag/src/target.rs:33-40 | an empty registry with consistent tables |
| Targets.TargetRegistry.Register | src/dag/src/target.rs:42-57 | refuses exactly a known name; otherwise appends, also with an id in use, and the name, id and provider tables keep agreeing with the list |
| Targets.TargetRegistry.Get | src/dag/src/target.rs:59-62 | the last target of that name, none if there is none |
| Targets.TargetRegistry.GetByBitIndex | src/dag/src/target.rs:68-72 | the last target of that id, none if there is none |
| Targets.TargetRegistry.GetProviders | src/dag/src/target.rs:74-88 | what the ids of the targets offering the capability lead to; where ids are distinct exactly those targets, in registration order |
| Targets.CapIndex | src/common-core/src/interner.rs:39-42 | an index that carries the name, none exactly when the name is unknown |
| Narrowing.NarrowProviders | src/dag/src/narrowing.rs:30-67 | the staged loop with its early exits keeps exactly the candidates that no other goes before, field by field: essential, then all dependencies met, then any met, then none at all; listed by name, each once |
| Narrowing.RankOrdersFields | src/dag/src/narrowing.rs:10-19 | one candidate outranks another exactly when it goes before it in those fields |
| Narrowing.LastFilterIdle | src/dag/src/narrowing.rs:57-66 | the preference for candidates without dependencies never decides a contest: the filters before it leave only candidates that are alike in this |
| Narrowing.NarrowIsBest | src/dag/src/narrowing.rs:10-67 | narrowing keeps exactly the candidates of greatest rank, the filters being the digits of the rank from the most significant on |
| Narrowing.ContestDecided | src/dag/src/narrowing.rs:30-67 | one winner remains if and only if one candidate alone has the greatest rank; otherwise all that tie remain |
| Narrowing.NarrowNonEmpty | src/dag/src/narrowing.rs:48-50 | some candidate always remains |
| Narrowing.BestIdempotent | src/dag/src/narrowing.rs:30-67 | narrowing again changes nothing |
| Narrowing.NarrowPermutationInvariant | src/dag/src/narrowing.rs:39 | the order in which candidates are listed does not matter |
| Closures.TransitiveClosure | src/dag/src/closure.rs:23-86 | the least set that holds the seeds and, past the two guards, every target that offers what a member needs, or carries its name where nothing offers it; fails exactly when every such set has a member that is unregistered or, in strict mode, needs what no target supplies |
| Closures.ClosureMeans | src/dag/src/closure.rs:23-86 | reachability past the guards is that least set |
| Closures.SourcesMean | src/dag/src/closure.rs:50-81 | a capability pulls in exactly the targets that offer it, and where none does the target that carries its name |
| Closures.PushDependencies | src/dag/src/closure.rs:45-82 | fails exactly when the target is blocked; pushes all it pulls in that is not visited, and nothing else |
| Closures.PushSources | src/dag/src/closure.rs:50-81 | the same for one capability, with the name fallback |
| Selections.ComputeFullProvides | src/dag/src/resolver.rs:409-419 | the union of the offers of the selected targets, in any order |
| Selections.WinnerRemains | src/dag/src/narrowing.rs:30-67 | narrowing leaves one candidate exactly when one alone has the greatest rank, and then it leaves that one |
| Selections.DecideCapability | src/dag/src/resolver.rs:249-303 | a decision by rank that depends on the capability and the frozen offers only; `changed` says whether a target was added |
| Selections.TakenOffers | src/dag/src/resolver.rs:267-288 | the target taken for a provided capability offers it |
| Selections.DecisionMeans | src/dag/src/resolver.rs:249-303 | a capability goes to the target that goes before all others offering it, or, where none offers it, to the one of that name; all others offering it are the losers; it may be passed over only outside strict mode and with nothing to supply it, and fails otherwise |
| Selections.DueMeans | src/dag/src/resolver.rs:236-327 | a pass decides exactly what a selected target needs and none offers, and the contested name of a selected target that is abstract or has no dependencies, unless decided by contest before |
| Selections.PassMeans | src/dag/src/resolver.rs:225-341 | one pass adds exactly the targets that such capabilities go to by the offers before it, and fails exactly when one goes to none and may not lack |
| Selections.VisitDependencies | src/dag/src/resolver.rs:243-304 | one visit decides exactly the unmet, undecided dependencies, and fails exactly when one of them does |
| Selections.VisitOwnName | src/dag/src/resolver.rs:306-340 | the visit's contest over the target's own name, when several targets offer it |
| Selections.RunPass | src/dag/src/resolver.rs:225-341 | for every order of the hash sets: fails exactly when a due decision fails, otherwise the same next selection |
| Selections.RunFixpoint | src/dag/src/resolver.rs:219-342 | the loop ends, with one result for every order in every pass, or fails under every order |
| Resolver.PlanFromSet | src/dag/src/resolver.rs:370-406 | a plan exactly when no set of chosen targets is deadlocked, each needing what another of them offers; then each target once, after all others whose offers it needs, and after a greater id only while it waits |
| Resolver.StuckMeans | src/dag/src/resolver.rs:391-393 | the ordering edges have a cycle exactly when some chosen targets are deadlocked |
| Resolver.PlanUnique | src/dag/src/resolver.rs:370-406 | a selection has one plan or none |
| Resolver.PlanOrderForcedIff | src/dag/src/resolver.rs:380-389 | of two plan members, `p` is before `n` in every order the edges admit if and only if provider edges lead from `p` to `n` |
| Resolver.ResolveAll | src/dag/src/resolver.rs:159-167 | the plan of everything the seeds pull in through providers |
| Resolver.HasContested | src/dag/src/resolver.rs:199-212 | whether a target of the closure needs a capability that two targets offer |
| Resolver.ResolveNarrowOne | src/dag/src/resolver.rs:178-358 | the one plan of the order-free selection, failure included; so no iteration order affects it |
| Requests.LookUp | src/dag/src/resolver.rs:135-144 | the id of each requested target in turn, whether one of them is abstract, or the first unknown name |
| Requests.Resolve | src/dag/src/resolver.rs:127-157 | the first unknown name, a missing registry, a failed selection and a cyclic one, each exactly when it applies. A plan holds every requested name; each member is brought in by requested targets through needs and contested names, by the provider that prevails; every need of a member is met by an offer or, where nothing offers it, by name in strict mode; contests over own names are held; each member runs after all others whose offers it needs |
| Requests.SelectedFits | src/dag/src/resolver.rs:127-358 | whatever is selected for a request holds it, holds only what it calls for, and meets the needs of its members, under either policy and on the fast path |
| Requests.LoopFits | src/dag/src/resolver.rs:219-353 | at the fixpoint every selected target that is abstract or has no dependencies, and whose name two targets offer, has a selected target that offers it; and an unoffered need has the target of its name selected |
| Requests.AllFailsIff | src/dag/src/resolver.rs:159-167 | include-all fails exactly in strict mode where every set that holds the requested targets and all providers of its needs has a need that nothing offers |
| Requests.FailureHasGap | src/dag/src/resolver.rs:178-358 | a selection that fails has a registered target asking for something unoffered in strict mode, or for something that several offer and none prevails for |
| Resolver.SettledIsSelfSufficient | src/dag/src/resolver.rs:225-342 | at the fixpoint every dependency of a selected target is supplied |
| Resolver.ExpansionAddsNothing | src/dag/src/resolver.rs:344-353 | the guarded expansion of such a selection neither fails nor adds a target |
| Resolver.SelectNarrowedIsSettled | src/dag/src/resolver.rs:219-357 | so the narrowing selection is the fixpoint itself |
| Resolver.AllIsSelfSufficient | src/dag/src/resolver.rs:159-167 | include-all selections supply everything they need |
| Requests.StrictPlansAreComplete | src/dag/src/resolver.rs:127-358 | in strict mode every capability a plan member needs is offered by a plan member, or nothing offers it and the plan holds the target whose name stands at its index in the registry of names |
| PolicyAgreement.CoreClosed | src/dag/src/closure.rs:23-86 | what the seeds pull in through providers is closed under providers |
| PolicyAgreement.CoreLeast | src/dag/src/closure.rs:23-86 | and the least such set holding the seeds |
| PolicyAgreement.FullIsCoreIff | src/dag/src/closure.rs:52-64 | the name fallback adds nothing to the closure if and only if its names are in the closure without it |
| PolicyAgreement.NothingMissingIff | src/dag/src/closure.rs:65-71 | a closure from registered seeds fails if and only if a member needs something missing |
| PolicyAgreement.SelectAllIff | src/dag/src/resolver.rs:159-167 | include-all fails exactly when strict mode misses a provider, and else selects the closure without fallback |
| PolicyAgreement.FastPathSucceedsIff | src/dag/src/resolver.rs:214-217 | in strict mode, after a first closure that succeeds, the fast path succeeds if and only if every needed capability has a provider |
| PolicyAgreement.NarrowedIsFull | src/dag/src/resolver.rs:219-353 | where nothing needed is contested, the loop selects the closure with fallback |
| PolicyAgreement.FastPathAgreesIff | src/dag/src/resolver.rs:214-353 | there the fast path and the loop select the same targets if and only if the name fallback makes no difference |
| PolicyAgreement.AgreementIsIdle | src/dag/src/resolver.rs:214-353 | that is necessary for agreement whatever own-name contests the loop holds |
| PolicyAgreement.PoliciesAgree | src/dag/src/resolver.rs:159-353 | with exactly one provider for each needed capability and own names won inside, include-all, the fast path and the narrowing loop select that least set and give the same plan |
| ResolverInputs.FastPathDropsName | src/dag/src/resolver.rs:214-217 | a strict request that the first closure and the loop can meet and the fast path fails |
| ResolverInputs.FastPathSkipsContest | src/dag/src/resolver.rs:306-340 | a request on which the loop adds the winner of a contest over the seed's own name and the fast path does not |
| ResolverInputs.NameOnlyIsUnordered | src/dag/src/resolver.rs:380-389 | a plan that runs a target before the one it depends on by name |
| Losers.SelectedIsGrounded | src/dag/src/resolver.rs:219-342 | every selected target is called for by some seed, through dependencies and contested own names |
| ResolverInputs.LoserReenters | src/dag/src/resolver.rs:249-304 | a request whose plan holds a target rejected for one capability and taken for another in the same pass |
| Losers.LosersStayOut | src/dag/src/resolver.rs:15-17 | if no contestant for a capability that comes up is a source of another such capability, or a seed (which only a contest over an own name allows for), no loser is selected |
| TypeInferences.Build | src/dag/src/type_inference.rs:74-131 | ends on any edges; the bits decide exactly reflexive transitive reachability over edges between listed classes, although later updates of a child overwrite earlier ones |
| TypeInferences.SoundAndSaturatedDecides | src/dag/src/type_inference.rs:140-147 | sound and saturated bits answer the subclass question exactly, false for unlisted classes |
| TypeInferences.CollectUpdates | src/dag/src/type_inference.rs:91-121 | every update is sound and grows its row; no update means saturated |
| TypeInferences.ApplyUpdates | src/dag/src/type_inference.rs:122-124 | overwriting keeps soundness, and the number of zero bits falls |
| TypeInferences.Merge | src/dag/src/type_inference.rs:104-116 | the child's row gains exactly the parent's bits and strictly grows |
| TypeInferences.Lacks | src/dag/src/type_inference.rs:96-103 | whether the parent has a bit the child lacks |
| Taxonomy.GroupByParent | src/concept/src/concept_store.rs:116-119 | the children of each parent, all edges and no others |
| Taxonomy.TaxonomyEdges | src/concept/src/concept_store.rs:107-113 | with parents depending on their children and all nodes providing themselves, the graph's edges are the subclass edges |
| Taxonomy.TaxonomyHierarchy.FromEdges | src/concept/src/concept_store.rs:114-135 | builds that graph, leaf children included, and never meets a duplicate |
| Taxonomy.TaxonomyHierarchy.Ancestors | src/concept/src/concept_store.rs:139-141 | exactly the strict ancestors, once each, on any edges; direct parents first, and nearest first with single parents |
| Taxonomy.TaxonomyHierarchy.IsSubclass | src/concept/src/concept_store.rs:144-146 | reflexive transitive reachability |
| YagoAncestors.DfsSound | src/common-core/src/yago_taxonomy.rs:145-167 | on any input, memo and result hold ancestors only |
| YagoAncestors.DfsComplete | src/common-core/src/yago_taxonomy.rs:145-167 | memo and result hold all ancestors of every class above which every class is full: its parents, and what lies above those that do not lead back to it, are all its ancestors |
| YagoAncestors.CleanIsFull | src/common-core/src/yago_taxonomy.rs:145-167 | that is so wherever no cycle of two classes or more lies above, whatever other cycles there are |
| YagoAncestors.DfsExtends | src/common-core/src/yago_taxonomy.rs:165 | a memo entry is never changed |
| YagoAncestors.FreshSearchIsExact | src/common-core/src/yago_taxonomy.rs:145-167 | a search that meets no earlier memo finds exactly the ancestors, on any graph |
| YagoAncestors.TransitiveAncestors | src/common-core/src/yago_taxonomy.rs:144-181 | every class named has the entry that the run over some order memoises: strict ancestors, and all of them where every class above is full; self-loops do no harm |
| YagoCompleteness.CompleteIff | src/common-core/src/yago_taxonomy.rs:141-181 | no run over any order of classes and parents loses an ancestor of any class if and only if every class is full |
| YagoCompleteness.EndIsFull | src/common-core/src/yago_taxonomy.rs:151-166 | if no run loses an ancestor, a class at the end of a simple path that holds all its parents on a cycle with it is full, since the run along the path memoises it with nothing else |
| YagoCompleteness.CycleIsDirect | src/common-core/src/yago_taxonomy.rs:155-157 | a full class has every other class of its cycle as a parent |
| YagoCompleteness.TwoCycleLosesAncestor | src/common-core/src/yago_taxonomy.rs:151-166 | a hierarchy of three classes with a cycle of two on which a class loses an ancestor |
| HierarchyAgreement.DirectParents | src/common-core/src/yago_taxonomy.rs:195-202 | the direct-parent table holds exactly the edges |
| HierarchyAgreement.Compare | src/dag/src/type_inference.rs:74-147 | on listed edges, cyclic or not, the bit vectors and the graph walk agree with reachability; the memoised search implies it, and agrees where every class above the child is full |
| CreditFlow.TotalNeverFalls | src/fluent-concurrency/src/flow.rs:34-91 | no step lowers credit + bumps + counter + outstanding + early crossers, and only a reset racing another can raise it |
| CreditFlow.InvKept | src/fluent-concurrency/src/flow.rs:34-91 | each atomic step keeps the lock, counter and total invariants |
| CreditFlow.ReachableInv | src/fluent-concurrency/src/flow.rs:34-110 | so they hold in every reachable state, with any number of senders and receivers |
| CreditFlow.SendsIffUnchanged | src/fluent-concurrency/src/flow.rs:41-52 | in any run a send gets through exactly when the credit is what its sender loaded, however many steps lie between; otherwise nothing changes and it loads again |
| CreditFlow.TotalConserved | src/fluent-concurrency/src/flow.rs:84-91 | where racing cannot over-grant, the total equals `initial` in every reachable state, and outstanding items never exceed it |
| CreditFlow.RaceExceedsInitial | src/fluent-concurrency/src/flow.rs:84-91 | for every other configuration, a run with more outstanding than `initial` |
| CreditFlow.OutstandingBoundedIff | src/fluent-concurrency/src/flow.rs:34-110 | outstanding items stay within `initial` in all runs if and only if there is at most one receiver, or `more_after` is at most one, or at least `initial` |
| CreditFlow.ShareInvKept | src/fluent-concurrency/src/flow.rs:42-61 | while a sender acts on an empty credit, every other sender adds at most one bump, of which a finished call has spent one |
| CreditFlow.NeverStuck | src/fluent-concurrency/src/flow.rs:53-61 | with any number of senders, none is blocked until a new call with nothing in flight, when `more_after` >= 1 and `senders` * (`more_after` - 1) < `initial` |
| CreditFlow.GetsStuck | src/fluent-concurrency/src/flow.rs:53-61 | for every other setting, a run that blocks one so |
| CreditFlow.NeverStuckIff | src/fluent-concurrency/src/flow.rs:34-110 | the two together as an equivalence |
| CreditFlow.NeverAwaitsNothing | src/fluent-concurrency/src/flow.rs:53-61 | no sender awaits a bump with nothing in flight, even while another is about to send, when `more_after` >= 1 and `senders` * `more_after` <= `initial` |
| CreditFlow.GetsToAwaitNothing | src/fluent-concurrency/src/flow.rs:53-61 | for every other positive threshold, a run in which a sender acts on a stale zero and does |
| CreditFlow.NeverAwaitsNothingIff | src/fluent-concurrency/src/flow.rs:34-110 | these two as an equivalence |
| CreditFlow.PoolGuarantees | src/fluent-concurrency/src/credit_pool.rs:59-97 | with its one sender and two receivers the pool neither gets stuck nor awaits nothing for any limit, and its limit bounds the work in flight if and only if it is at most 3 |
| WaitQueue.InvKept | src/fluent-concurrency/src/pool.rs:139-196 | each atomic step of push, push_wait, pop and close keeps the invariants |
| WaitQueue.ReachableInv | src/fluent-concurrency/src/pool.rs:125-196 | so they hold in every reachable state, with any number of producers |
| WaitQueue.FirstInFirstOut | src/fluent-concurrency/src/pool.rs:139-189 | accepted items are the delivered ones followed by the queued ones, within capacity |
| WaitQueue.NoLostItem | src/fluent-concurrency/src/pool.rs:174-189 | a consumer that is the only one and parked on a non-empty queue has a producer about to wake it |
| WaitQueue.GoesOnOnlyNotified | src/fluent-concurrency/src/pool.rs:174-189 | on an open queue a consumer whose await returns at once twice in a run was notified by a producer in between |
| WaitQueue.NoDeadlock | src/fluent-concurrency/src/pool.rs:154-189 | on an open queue, with the consumer parked and a producer unfinished, some producer can move |
| WaitQueue.NoneMeansClosedAndEmpty | src/fluent-concurrency/src/pool.rs:182-184 | pop returns None only when closed and empty |
| WaitQueue.CloseFreesConsumer | src/fluent-concurrency/src/pool.rs:192-196 | once close has notified, the consumer is not parked and cannot park |
| WaitQueue.OnlyRacedSleepAfterClose | src/fluent-concurrency/src/pool.rs:154-171 | a producer asleep after close was between its look at the flag and the creation of its future when close notified |
| WaitQueue.CloseStrandsProducer | src/fluent-concurrency/src/pool.rs:157-160 | a run after which such a producer sleeps beside a queue drained empty, and no step is possible |
| QueueClosing.NobodySleeps | src/fluent-concurrency/src/pool.rs:154-171 | no producer ever sleeps where nobody waits or everybody has room |
| QueueClosing.CloseStrands | src/fluent-concurrency/src/pool.rs:154-196 | for every other queue and every waiting producer, a run that ends with it asleep and no step possible |
| QueueClosing.CloseWakesAllIff | src/fluent-concurrency/src/pool.rs:191-196 | close leaves no push call asleep for good in any run if and only if no call waits or the calls, each free to start at any time, do not outnumber the capacity |
| QueueClosing.LateItem | src/fluent-concurrency/src/pool.rs:139-150 | a run in which an item is accepted after None was returned |
| QueueClosing.NoneIsFinalIff | src/fluent-concurrency/src/pool.rs:182-184 | in every run all accepted items are delivered before None if and only if there is no producer |
| QueueClosing.NoneIsFinalIffQuiet | src/fluent-concurrency/src/pool.rs:182-196 | after None from an empty queue, nothing is accepted in any continuation if and only if no producer is past the closed flag |
| Workers.NeverAllAsleep | src/fluent-concurrency/src/pool.rs:174-189 | with any number of workers, a queued item has a notification on its way or a worker that is going to look |
| Workers.ItemsConserved | src/fluent-concurrency/src/pool.rs:139-189 | with any number of workers no item is lost, taken twice or kept beyond capacity, an item is still queued while it is announced, and no worker sleeps beside a stored permit |
| Workers.ItemCanBeTaken | src/fluent-concurrency/src/pool.rs:174-189 | from every reachable state with a queued item, some steps of the workers and of a pending announcement take it, without another item being added |
| Workers.OneWakes | src/fluent-concurrency/src/pool.rs:139-189 | for any number of workers and of items within capacity, a run in which one worker wakes and all the others park beside the items |
| Workers.NoLostItemIff | src/fluent-concurrency/src/pool.rs:139-189 | no run parks a worker beside an item that nobody is about to announce if and only if there is at most one worker |
| PriorityQueues.PriorityQueue.constructor | src/fluent-concurrency/src/queue.rs:20-27 | the empty list |
| PriorityQueues.PriorityQueue.Push | src/fluent-concurrency/src/queue.rs:32-42 | inserts behind all entries of at least the same priority and before all others; count, buckets and list keep agreeing, no empty bucket, no zero key |
| PriorityQueues.PriorityQueue.PickBucket | src/fluent-concurrency/src/queue.rs:52-65 | the bucket of the head of the list |
| PriorityQueues.PriorityQueue.Pop | src/fluent-concurrency/src/queue.rs:68-91 | removes the head of the list |
| PriorityQueues.PriorityQueue.Peek | src/fluent-concurrency/src/queue.rs:93-102 | the entry pop would return |
| PriorityQueues.PriorityQueue.Drain | src/fluent-concurrency/src/queue.rs:145-160 | the whole list in order, and an empty queue |
| PriorityQueues.PriorityQueue.PopAll | src/fluent-concurrency/src/queue.rs:47-91 | popping until empty gives the same as draining |
| PriorityQueues.Gather | src/fluent-concurrency/src/queue.rs:147-157 | the drained buckets hold, for each priority, its entries in order |
| PriorityQueues.ListUnique | src/fluent-concurrency/src/queue.rs:44-46 | the buckets determine the descending list |
| PriorityQueues.StableSortProject | src/fluent-concurrency/src/queue.rs:158 | the stable sort keeps the order within each priority |
| Batches.SupervisedBatch.constructor | src/fluent-concurrency/src/batch.rs:154-172 | an empty batch with any poll budget |
| Batches.SupervisedBatch.Register | src/fluent-concurrency/src/batch.rs:180-241 | refuses exactly a taken name; otherwise adds the node, the name, the abort handle and a running task |
| Batches.SupervisedBatch.CancelDependentsOf | src/fluent-concurrency/src/batch.rs:243-258 | marks exactly the running tasks that depend on the name, directly or not |
| Batches.SupervisedBatch.Join | src/fluent-concurrency/src/batch.rs:274-339 | one ended task gives one report, its outcome and mark are entered in the journal, an aborted one loses its mark, and one in trouble marks its running dependents |
| Batches.SupervisedBatch.Poll | src/fluent-concurrency/src/batch.rs:264-363 | ready only with a summary that reports each registered task exactly once, in the list of the outcome it was joined with; an abort is a dependency failure exactly for a task that was marked; every dependency failure has a failed, panicked or timed-out transitive prerequisite. Tasks taken are entered with the outcome they ended with and the mark they had; marks change exactly by those taken. At most the budget, if it is positive, is joined; at once ready when nothing is in flight |
| Batches.SupervisedBatch.HandOver | src/fluent-concurrency/src/batch.rs:340-347 | the summary handed over is complete, files every task by its outcome, and is then empty |
| Batches.AllReportedOnce | src/fluent-concurrency/src/batch.rs:358-361 | with nothing in flight, every registered name is in the lists exactly once |
| Batches.ReportFiled | src/fluent-concurrency/src/batch.rs:274-339 | a report keeps every list equal to the tasks joined with its outcome |
| Batches.FiledAll | src/fluent-concurrency/src/batch.rs:340-347 | a summary that reports each task once has an outcome for exactly the registered tasks |
| Batches.RemarkedMore | src/fluent-concurrency/src/batch.rs:243-336 | over the joins of a poll, marks go exactly with aborted tasks taken and come exactly to running dependents of tasks taken in trouble |
| Batches.ReportExplained | src/fluent-concurrency/src/batch.rs:285-336 | one more report keeps every mark and every blame traced to a troubled prerequisite |
| Checkpointed.CheckpointedStepGraph.constructor | src/dag/src/checkpointed.rs:45-53 | no steps, nothing completed |
| Checkpointed.CheckpointedStepGraph.AddStep | src/dag/src/checkpointed.rs:61-66 | refuses exactly a known key; otherwise appends; a step added after its dependencies keeps the completed set dependency-closed |
| Checkpointed.CheckpointedStepGraph.Checkpoint | src/dag/src/checkpointed.rs:71-79 | records the step's position in the order, or fails for an unknown step |
| Checkpointed.CheckpointedStepGraph.Complete | src/dag/src/checkpointed.rs:82-84 | adds the key; completing a ready step keeps the completed set dependency-closed |
| Checkpointed.CheckpointedStepGraph.IsReady | src/dag/src/checkpointed.rs:87-89 | registered, with every dependency completed |
| Checkpointed.CheckpointedStepGraph.RewindTo | src/dag/src/checkpointed.rs:108-119 | returns and uncompletes exactly the suffix that starts at the checkpointed step, and keeps the completed set dependency-closed |
| Checkpointed.RewindKeepsClosed | src/dag/src/checkpointed.rs:114-117 | removing any suffix of an order with dependencies first keeps dependency closure |
| Checkpointed.AddKeepsOrderly | src/dag/src/checkpointed.rs:61-66 | a step added after its dependencies keeps order and closure |
| Alignment.Align | src/fluent-onnx/src/align.rs:84-142 | on ordered spans a token maps to the first spacy token that covers the most of its positions, and to nothing exactly when none covers any; on any spans a range holds the tokens mapped to its spacy token and starts and ends with one, or is 0..0 |
| Alignment.MapTokens | src/fluent-onnx/src/align.rs:93-116 | on ordered spans: zero-width tokens map to nothing, every other to the first spacy token of greatest overlap, or to nothing without overlap |
| Alignment.BestOverlap | src/fluent-onnx/src/align.rs:147-161 | the first span that shares the most positions with the token, none exactly when no span shares any |
| Alignment.OverlapCounts | src/fluent-onnx/src/align.rs:151 | the overlap is the number of positions that both spans cover |
| Alignment.BestUnique | src/fluent-onnx/src/align.rs:145-146 | that description fits one answer only |
| Alignment.ContainerIsBest | src/fluent-onnx/src/align.rs:110-112 | among disjoint spans a container is unique and the best overlap, so the cursor's shortcut agrees with the full scan |
| Alignment.ContainedMapsToContainer | src/fluent-onnx/src/align.rs:78-79 | a token inside a spacy token is mapped to it |
| Alignment.MappingMonotone | src/fluent-onnx/src/align.rs:91-92 | later tokens never map to earlier spacy tokens |
| Alignment.Ranges | src/fluent-onnx/src/align.rs:120-136 | each range runs from the first to the last token mapped; it is 0..0 when there is none |
| Alignment.RangeHoldsOnlyOwn | src/fluent-onnx/src/align.rs:118-119 | inside a range a token is the range's own if and only if it is not zero-width |
| Alignment.ZeroWidthInside | src/fluent-onnx/src/align.rs:118-119 | ordered spans with a zero-width token inside a range |
| Alignment.RangesIncrease | src/fluent-onnx/src/align.rs:118-136 | non-empty ranges of distinct spacy tokens are disjoint and increasing |
| RollingWindow.PastState.Truncate | src/fluent-onnx/src/context.rs:42-68 | the conv state and the set of layers stay; each layer of the expected size has its key and its value cut to the last positions of every head, entry by entry at the flat offsets; any other layer stays; the drop count is the loss of length |
| RollingWindow.CutLayer | src/fluent-onnx/src/context.rs:49-64 | the new key holds the last positions of the old key and the new value those of the old value, if the layer has the expected size; any other layer stays |
| RollingWindow.CopyRows | src/fluent-onnx/src/context.rs:55-62 | the loop over heads and positions copies the kept part of every head |
| RollingWindow.LastPositionsAt | src/fluent-onnx/src/context.rs:55-62 | entry `x` of position `p` of head `h` is that of the position `len - keep` further on in the same head, at the right flat offsets |
| RollingWindow.HoldsLastUnique | src/fluent-onnx/src/context.rs:55-62 | that description fits one tensor only, since every flat index is the offset of some entry of some position of some head |
| RollingWindow.TruncateKeepsShape | src/fluent-onnx/src/context.rs:37-42 | well-shaped states stay well-shaped, within the window |
| RollingWindow.TruncateComposes | src/fluent-onnx/src/context.rs:42-68 | truncating to `a` and then to a smaller `b` equals truncating to `b` if and only if no layer of the wrong size has the size of window `a` |
| RollingWindow.StrayLayerIsCutTwice | src/fluent-onnx/src/context.rs:50-52 | a state with such a layer, on which the two differ |

## Left out

- Losers.LosersStayOut: the condition is sufficient only; whether a loser of a contest re-enters depends on which capabilities come up in which pass and on the offers frozen there.
- PolicyAgreement.FastPathAgreesIff: contests over own names are assumed to be won inside the closure; otherwise their winners depend on the pass in which they are held.
- YagoAncestors.TransitiveAncestors: for one class by itself completeness is stated one way; the equivalence is about all classes of a hierarchy together.
- QueueClosing.CloseWakesAllIff: a task that makes several push calls in turn counts as several producers, so for such tasks only one direction carries over.
- DependencyGraphs.DependencyGraph.DependentsOf: the order among the new successors of one node, which is that of registration, is left open.
- Requests.Resolve: under narrowing, why a selection fails is stated one way; missing and ambiguous providers are one failure; which of several is reported first depends on the iteration order of hash sets.
- Kahn.KahnSort: the node names in the cycle error are the complement of the partial order; their text is not modelled.
- `direct_dependents`, `unresolved_deps`, `ready_nodes`, `find_providers` and similar one-line queries: they would only add easy members.
- `BoundedPriorityQueue`: the waiting protocol of `Queue` around the priority queue; `into_iter` repeats `drain`.
- Integer widths: counters, ids and offsets do not overflow in the model; only the aligner's `usize::MAX` sentinel and the poll budget's wrap-around are explicit.
- Retry, timeout, backoff and shutdown of workers, and capability scoping of tasks: time and runtime behaviour.
- `CreditedFeedWorker`: uncredited items also release credit, so the conservation law does not apply to it.
- SQLite stores, vector search, ONNX sessions, tokenizers, the servers, the WASM runtime and the command-line tools: I/O, foreign code or floating point.
- Error texts, logging and builders.
