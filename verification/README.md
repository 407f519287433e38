# Verified model of the ontology workspace

This project models the algorithmic heart of the `atomr-ontology` workspace in Dafny and proves what it is
for: the forward-chaining reasoner, the graph query executor and the SPARQL compiler in front of it, the
N-Triples, Turtle and SHACL writers and parsers, the commit and checkpoint protocol, and five supporting
algorithms (supertype walk, consistency check, import projection, request framing, reply cache).

`dafny verify dfyconfig.toml` checks everything.

## How the model is laid out

| files | what they model |
|---|---|
| `Wrappers.dfy`, `Collections.dfy`, `Core.dfy`, `LocalNames.dfy`, `Texts.dfy` | small shared facts, identifiers, nodes, edges, axioms and their ids, the in-memory ontology, local names, white space and bytes |
| `FactBase.dfy`, `Rules.dfy`, `Deduction.dfy`, `Reasoner.dfy`, `SubClassPaths.dfy`, `EdgeClosure.dfy` | the seven rules as code, the theory of their closure, the engine, subclass chains, what becomes of edges |
| `Patterns.dfy`, `Distance.dfy`, `Executor.dfy`, `RowOrder.dfy`, `MemStore.dfy`, `StepReading.dfy` | patterns and distances, one traversal step, whole plans with ordering and projection, steps read off the stored edges |
| `Sparql.dfy`, `SparqlReading.dfy`, `Trails.dfy`, `SparqlMeaning.dfy`, `SparqlTheorems.dfy`, `SparqlShapes.dfy`, `SparqlExact.dfy`, `SparqlConstants.dfy`, `SparqlLoops.dfy` | lowering of basic graph patterns, what the plans mean, and exactly which patterns keep their meaning |
| `Rdf.dfy`, `NTriples.dfy`, `NTriplesRoundTrip.dfy`, `NTriplesReading.dfy` | terms, characters and escapes; N-Triples, its round trip, what documents of a grammar of its own read as |
| `Turtle.dfy`, `TurtleParser.dfy`, `TurtleRoundTrip.dfy`, `TurtleReading.dfy`, `TurtleComments.dfy` | Turtle, its parser as an object with a position, its round trip, what documents read as, comments |
| `Numerals.dfy`, `SchemaTypes.dfy`, `ShaclCompile.dfy`, `ShaclParse.dfy`, `ShaclReading.dfy`, `ShaclRoundTrip.dfy`, `ShaclTheorem.dfy`, `ShaclPrintable.dfy`, `ShaclGraph.dfy`, `ShaclMeaning.dfy` | schemas, SHACL out and back, the graph of a schema and the schema of a graph |
| `Persistence.dfy`, `CommitProtocol.dfy` | one commit and one save; arbitrary interleavings of many |
| `Walks.dfy`, `Hierarchy.dfy`, `Consistency.dfy`, `Importer.dfy`, `ImportReading.dfy`, `Framing.dfy`, `HeaderReading.dfy` | supertype walk, consistency findings, import projection, HTTP request framing |
| `Cache.dfy`, `CacheReading.dfy`, `CacheEviction.dfy`, `CacheOverlap.dfy`, `CacheBound.dfy` | the reply cache: one call, what is kept, which entry leaves, overlapping calls, how far they drive its size |

Code that works by steps is a method (or a class) proved against a specification function or predicate, and
the theorems are lemmas about that specification. An axiom id is the canonical text whose digest the source
takes, so collisions of that text are collisions in the model; edge ids made by `Edge::between` are taken as
injective in source, label and target, and the content address of an IRI as injective.

## Main results

- **Reasoner.** A run that returns Ok derives exactly the least set closed under the rules if and only if what is
  derivable beyond the asserted entries has ids that are distinct and free; where every entry sits under its own id,
  if and only if no two derivable axioms share one. Over a set of names no input with distinct ids ever derives a shared one if and only
  if no two pairs of the names are joined to one text by `|`; names without `|` are such. The closure
  is what has finite derivations, does not depend on rule order, and is reached within one more pass than
  there are facts to add. For subclass axioms only, a pass doubles the length of the paths it covers. Two classes are
  in the derived subclass relation exactly along asserted links, and an edge is derived exactly when it is an asserted
  one seen through symmetric and inverse labels or, where the label composes, the ends of a walk over such edges.
- **Queries.** A traversal step emits one row per node within the range of distances, and the page of rows is cut from
  their stable order by the keys. A pattern list is compiled exactly when no triple stands in the way, to the plan its
  triples spell. A chain-shaped pattern compiles
  to a plan whose rows are exactly its solutions under the compiler's reading of constants, with the restriction that
  no hop is a self-loop; when the last hop binds a variable each comes once. Being a chain is the exact condition for
  an accepted pattern to keep that meaning on every graph. In the sense of SPARQL itself, where a constant names one
  node, the exact condition is to be a chain whose hops all end at variables; on graphs with self-loops only patterns
  without hops keep it.
- **Printers and parsers.** For N-Triples and Turtle: written text parses back to the same triples if and only if
  every triple meets a plain syntactic condition. Documents of a grammar of its own, lists, comments and escapes
  included, parse to exactly their triples. For SHACL: which schema comes back, and when it is the same; the graph of
  a schema and the schema of a graph are described triple by triple.
- **Commits.** Over every interleaving of saves, failures and restarts, an acknowledged commit is never followed by
  an older load on the SQLite table, and the newest commit is loaded if and only if its snapshot was written.
  The overwriting slot goes on loading the newest written commit if and only if no save is under way once a later
  commit was written or is being written.
- **Others.** The supertype walk is the depth-first preorder of the reachable names; the consistency report is empty
  if and only if the data are consistent; the import projection is a comprehension over the triples and the tables
  of the mapping and ignores triple order; a request reads as its first two words and the bytes it announces; the reply to a request depends
  on how the stream is cut if and only if its header ends in a window of one read past the limit. Cached replies are
  the backend's own in every interleaving if and only if prompts that share a key get one reply; evictions are least
  recently used, and the size bound survives overlapping calls, if and only if the capacity is at most one or the
  backend answers no more keys than fit.

## Where code and documentation disagree

The model follows the code in each case.

- `turtle.rs:107` says comments start with `#`; `skip_ws` drops the `#` but not the text after it
  (`TurtleComments.CommentsSkipped`, `TurtleComments.CommentRejected`).
- `store.rs:145-148` says the first commit of a `from_memory` store overwrites what is stored; on the append-only
  table it is shadowed by any newer version (`Persistence.FirstCommitOverwrites`).
- `checkpointer.rs:100-102` asks that `load` return the most recent snapshot; the in-memory checkpointer returns the
  one saved last, which can be older (`CommitProtocol.OverlapLosesSlot`, `CommitProtocol.SlotExactly`).
- `backend.rs:126` calls the bounded policy an LRU cache; entries leave in the order of insertion, which is the order
  of use exactly for capacities up to one (`CacheEviction.EvictsByInsertion`, `CacheEviction.LeastRecentCapacities`).
- `backend.rs:126` gives the policy a capacity; overlapping calls of one prompt lead past it, in some run of every
  backend that answers enough keys (`CacheBound.BoundExactly`).
- `sparql.rs:25-29` says a triple becomes a hop from its subject; the hop starts where the previous one ended, whatever
  the subject (`SparqlTheorems.BranchingIsLost`, `SparqlTheorems.RejoiningIsWrong`).
- `sparql.rs:588` compiles a constant object to a type of the target node, where section 18.3 of the SPARQL 1.1 Query
  Language has a constant stand for the term it names (`SparqlConstants.ConstantIsAType`, and
  `SparqlConstants.ConstantHopExact` for when the two agree).
- `server.rs:312-313` reports headers beyond 64 KiB; the limit is looked at only between reads
  (`Framing.ChunksMatterExactly`).

## Model

| member | source | states |
|---|---|---|
| Core.CanonicalInjective | crates/atomr-ontology-core/src/axiom.rs:61-76 | equal ids mean equal axioms when no first operand holds a separator |
| Core.CanonicalExact | crates/atomr-ontology-core/src/axiom.rs:61-76 | an axiom shares its id with no other if and only if it has one operand or neither of its two holds a separator |
| Core.CanonicalCollision | crates/atomr-ontology-core/src/axiom.rs:61-76 | two different axioms with one id, without that condition |
| Rules.SubclassTransitivity | crates/atomr-ontology-reason/src/rules.rs:154-189 | emits exactly the two-step subclass conclusions that are new, never reflexive |
| Rules.EquivalentClassSymmetry | crates/atomr-ontology-reason/src/rules.rs:191-208 | emits exactly the missing mirror images of equivalences |
| Rules.EquivalentsToSubClasses | crates/atomr-ontology-reason/src/rules.rs:210-240 | emits exactly the missing subclass axioms of each equivalence, both ways |
| Rules.InverseSymmetry | crates/atomr-ontology-reason/src/rules.rs:242-259 | emits exactly the missing mirror images of inverse declarations |
| Rules.SymmetricProperties | crates/atomr-ontology-reason/src/rules.rs:261-288 | emits exactly the missing reverse edges of symmetric properties |
| Rules.TransitiveProperties | crates/atomr-ontology-reason/src/rules.rs:290-338 | emits exactly the missing two-step edges of transitive properties, never reflexive |
| Rules.InverseEdges | crates/atomr-ontology-reason/src/rules.rs:340-370 | emits exactly the missing inverse edges, inverse declarations read in both directions |
| Rules.Apply | crates/atomr-ontology-reason/src/rules.rs:79-89 | every rule emits exactly what its logical reading derives and the ontology lacks |
| Deduction.DerivedInUniverse | crates/atomr-ontology-reason/src/rules.rs:154-370 | no rule leaves the finite set of facts over the names, labels and endpoints at hand |
| Deduction.ClosedPassFixed | crates/atomr-ontology-reason/src/engine.rs:142-163 | a pass adds nothing exactly when the facts are closed under the rules |
| Deduction.UnfixedGrow | crates/atomr-ontology-reason/src/engine.rs:135-163 | every pass but the last adds at least one fact |
| Deduction.ReachesFixedPoint | crates/atomr-ontology-reason/src/engine.rs:135-163 | a first pass that adds nothing exists, within one more than the number of missing facts |
| Deduction.ClosureAtFixed | crates/atomr-ontology-reason/src/engine.rs:135-163 | whatever pass stops the loop, the facts are the closure |
| Deduction.ClosureIsLeast | crates/atomr-ontology-reason/src/engine.rs:118-163 | the closure contains the input, is closed, and lies inside every closed superset of the input |
| Deduction.ClosureConfluent | crates/atomr-ontology-reason/src/rules.rs:92-99 | reordering or repeating rules does not change the closure |
| Deduction.ClosureMonotone | crates/atomr-ontology-reason/src/engine.rs:142-163 | more rules and more facts give a larger closure |
| Deduction.ClosedIsFixed | crates/atomr-ontology-reason/src/engine.rs:160-162 | a closed set is its own closure and the first pass adds nothing |
| Deduction.ClosureIsDerivable | crates/atomr-ontology-reason/src/rules.rs:154-370 | a fact is in the closure if and only if it has a finite derivation |
| FactBase.FactsRead | crates/atomr-ontology-reason/src/rules.rs:154-370 | the facts are the kinds of the axioms and the ends and labels of the edges, whatever their ids |
| Reasoning.SplitsExactly | crates/atomr-ontology-core/src/axiom.rs:61-76 | over a set of names, no input with distinct ids derives two axioms that share one, if and only if no two pairs of the names are joined to one text |
| Reasoning.PipeFreeSplits | crates/atomr-ontology-core/src/axiom.rs:61-76 | names without separators are never so joined, nor is a single name |
| Reasoning.PipeFreeFaithful | crates/atomr-ontology-core/src/axiom.rs:61-76 | without separators in names, no two derivable axioms share an id, whatever the rules |
| Reasoning.PipeCollides | crates/atomr-ontology-core/src/axiom.rs:61-76 | an input whose derivable axioms do share an id |
| Reasoning.Reasoner.Run | crates/atomr-ontology-reason/src/engine.rs:122-189 | asserted plus derived facts equal the least fixed point if and only if what is derivable beyond the asserted has distinct ids that no entry uses, as it has where entries sit under their own ids and no two pairs of names are joined to one text; the pass count is the first idle pass; the error is raised exactly when the cap comes first; the input is untouched |
| Reasoning.WellKeyedUnhindered | crates/atomr-ontology-reason/src/engine.rs:142-159 | where every entry sits under its own id, that is so if and only if no two derivable axioms share an id |
| Reasoning.Reasoner.Converge | crates/atomr-ontology-reason/src/engine.rs:135-163 | the outer loop ends with the closure or with the cap, and keeps every fact sound throughout |
| Reasoning.Reasoner.RunPass | crates/atomr-ontology-reason/src/engine.rs:142-159 | one round over the rules performs one logical pass and reports whether it added anything |
| Reasoning.Reasoner.Materialize | crates/atomr-ontology-reason/src/engine.rs:193-202 | on Ok nothing asserted is changed and, under the same condition, the ontology is closed, so a further run derives nothing; on error it is unchanged |
| Reasoning.Reasoner.WithMaxIterations | crates/atomr-ontology-reason/src/engine.rs:108-111 | the cap is never below one pass, is the limit asked for when that is at least one, and the rules stay |
| SubClassPaths.SubClassIsReachability | crates/atomr-ontology-reason/src/rules.rs:154-240 | between distinct classes, derived subclass is reachability over asserted subclass and equivalence links |
| SubClassPaths.ReflexiveOnlyAsserted | crates/atomr-ontology-reason/src/rules.rs:171-175 | a class below itself is never inferred through others |
| SubClassPaths.PathDoubling | crates/atomr-ontology-reason/src/rules.rs:154-189 | after k passes every path of length up to 2^k is a direct fact |
| SubClassPaths.ConvergesLogarithmically | crates/atomr-ontology-reason/src/engine.rs:135-163 | with n classes, 2^k at least n-1 is enough for pass k to reach the closure |
| SubClassPaths.CeilLog2Spec | crates/atomr-ontology-reason/src/engine.rs:135-163 | the rounded-up logarithm is the least exponent that covers the number |
| SubClassPaths.PassBound | crates/atomr-ontology-reason/src/engine.rs:135-163 | the run takes at most ceil(log2(max(1, n-1))) + 1 passes |
| SubClassPaths.DefaultCapSuffices | crates/atomr-ontology-reason/src/engine.rs:135-139 | the default cap of 100 is not hit with up to 2^99 + 1 classes |
| EdgeClosure.SymmetricEdges | crates/atomr-ontology-reason/src/rules.rs:261-288 | a symmetric label has, in the closure, every edge both ways round |
| EdgeClosure.TransitiveEdges | crates/atomr-ontology-reason/src/rules.rs:290-338 | two edges of a transitive label in a row have, between different ends, the edge across them |
| EdgeClosure.InverseLabels | crates/atomr-ontology-reason/src/rules.rs:340-370 | of two labels declared inverse, in either order, one has an edge if and only if the other has it reversed |
| EdgeClosure.EdgesExactly | crates/atomr-ontology-reason/src/rules.rs:261-370 | an edge is in the closure if and only if it is an asserted one seen through a chain of symmetric and inverse labels, or joins the different ends of a walk over such edges whose label, or one linked to it, is transitive |
| EdgeClosure.TransitiveLabel | crates/atomr-ontology-reason/src/rules.rs:290-338 | a label that is only transitive joins different nodes along walks of asserted edges, and a node to itself only where asserted |
| EdgeClosure.PlainLabel | crates/atomr-ontology-reason/src/rules.rs:261-370 | a label without axioms keeps exactly its asserted edges |
| EdgeClosure.AxiomsExactly | crates/atomr-ontology-reason/src/rules.rs:191-259 | equivalences and inverse declarations are derived both ways round, and nothing else but subclasses |
| EdgeClosure.StandardRules | crates/atomr-ontology-reason/src/rules.rs:113-125 | the standard rules are all seven |
| Distance.LayerIsDistance | crates/atomr-ontology-store/src/mem.rs:231-252 | the breadth-first layers are the sets of nodes at each shortest distance |
| Distance.WithinIsBall | crates/atomr-ontology-store/src/mem.rs:197-253 | the visited set at a depth is the set of nodes some walk up to that length reaches |
| Distance.BallIsLayers | crates/atomr-ontology-store/src/mem.rs:197-253 | a node is reached within a bound if and only if its distance is some number up to it |
| Distance.DepthBound | crates/atomr-ontology-store/src/mem.rs:197-253 | a non-empty layer's depth is below the number of node ids, so open-ended repeats end |
| Executor.ExpandLayer | crates/atomr-ontology-store/src/mem.rs:231-249 | the next layer holds each node of the next distance once, with the last edge of a shortest path |
| Executor.EmitLayer | crates/atomr-ontology-store/src/mem.rs:211-227 | a layer within range adds exactly its target-matching nodes |
| Executor.ExpandRow | crates/atomr-ontology-store/src/mem.rs:190-253 | from one row, exactly one result per stored matching node whose shortest distance lies in the range, bound edge included, in at most as many rounds as there are nodes |
| Executor.LeadsIsWalk | crates/atomr-ontology-store/src/mem.rs:197-253 | with a lower end of at most one, another node is reached if and only if some walk's length is in the range |
| Executor.NeverBackToStart | crates/atomr-ontology-store/src/mem.rs:198-199 | from one hop up a step never returns to its start |
| StepReading.ClausesAdmit | crates/atomr-ontology-store/src/mem.rs:92-117 | what the id, types and properties of a node pattern admit, and that a pattern is its clauses together |
| StepReading.BranchesAdmit | crates/atomr-ontology-store/src/mem.rs:108-115 | alternatives are a disjunction unless there are none, exclusions a negated one |
| StepReading.PatternsAreBoolean | crates/atomr-ontology-store/src/mem.rs:108-115 | nested branches express negation, disjunction and conjunction of any patterns |
| StepReading.DistanceIsShortest | crates/atomr-ontology-store/src/mem.rs:231-252 | the distance is the length of a shortest path of nodes joined by stored edges with the label and properties asked for, against their direction on inbound steps |
| StepReading.ResultNodes | crates/atomr-ontology-store/src/mem.rs:190-253 | a node is among the results if and only if it is stored, matches the target and lies at a shortest distance in the range, one hop without a range |
| StepReading.OneHopNodes | crates/atomr-ontology-store/src/mem.rs:190-253 | without a range the results are the other nodes at the far end of one stored edge |
| StepReading.ResultRow | crates/atomr-ontology-store/src/mem.rs:212-225 | a result binds the target name to the node and the edge name to the last edge of a shortest path, no edge where none was followed, and changes nothing else |
| RowOrder.CompareTransitive | crates/atomr-ontology-store/src/mem.rs:24-38 | the comparison of rows by several keys is transitive |
| RowOrder.SortRowsSpec | crates/atomr-ontology-store/src/mem.rs:22-38 | the sort permutes the rows, orders them by the keys and keeps ties in sequence |
| RowOrder.ApplyOrderingAndProjection | crates/atomr-ontology-store/src/mem.rs:22-54 | the result is the requested page of the sorted rows, each restricted to the requested columns |
| RowOrder.SortRowsStable | crates/atomr-ontology-store/src/mem.rs:24-38 | on the rows themselves: where two agree on the earlier keys the next is in its direction, the unbound first upwards and last downwards; rows alike on every key keep their sequence |
| RowOrder.PagedReads | crates/atomr-ontology-store/src/mem.rs:39-54 | the result shows the places from `skip` on, `limit` of them, of such an order, each row with the columns asked for or all of them |
| Store.MemStore.MatchSeed | crates/atomr-ontology-store/src/mem.rs:179-188 | one frontier entry per stored node that matches the seed |
| Store.MemStore.RunStep | crates/atomr-ontology-store/src/mem.rs:190-257 | the next frontier joins the exact results of the step from each entry |
| Store.MemStore.Traverse | crates/atomr-ontology-store/src/mem.rs:177-261 | the rows are the page of what the steps, taken in turn from the seed, lead to |
| StepReading.SeedRow | crates/atomr-ontology-store/src/mem.rs:179-188 | a seed row binds the name of the seed and nothing else |
| StepReading.FlattenAt | crates/atomr-ontology-store/src/mem.rs:190-257 | the results of the entries follow each other in the order of the entries |
| Trails.FrontierIsTrails | crates/atomr-ontology-store/src/mem.rs:177-257 | the frontier holds exactly the binding maps of walks through the plan |
| Trails.FreshStepDiffers | crates/atomr-ontology-store/src/mem.rs:190-257 | steps that bind new names never repeat a row |
| Sparql.LabelLocalName | crates/atomr-ontology-query/src/sparql.rs:626-635 | the name after the last delimiter, free of delimiters |
| LocalNames.LocalNameReads | crates/atomr-ontology-query/src/sparql.rs:626-635 | the local name of `base#x`, `base/x`, `base:x` and `x` is `x` |
| Sparql.Compiler.AttachType | crates/atomr-ontology-query/src/sparql.rs:601-622 | the type is required where the variable was introduced and nowhere else |
| Sparql.Compiler.CompileTriple | crates/atomr-ontology-query/src/sparql.rs:533-592 | one triple pattern changes the plan as specified or is rejected for the stated reason |
| Sparql.Compiler.LowerTriples | crates/atomr-ontology-query/src/sparql.rs:503-531 | the plan of a pattern list, or its first error |
| SparqlReading.LoweredExactly | crates/atomr-ontology-query/src/sparql.rs:503-622 | which pattern lists are compiled, to which seed and steps with which names, labels and types, and for which triple and reason the others are rejected |
| SparqlMeaning.TypeTripleMeaning | crates/atomr-ontology-query/src/sparql.rs:560-572 | compiling a type triple narrows the plan to assignments of nodes with that type |
| SparqlMeaning.HopTripleMeaning | crates/atomr-ontology-query/src/sparql.rs:574-591 | compiling a hop narrows it to assignments joined by a labelled edge that is no self-loop |
| SparqlMeaning.ChainMeaning | crates/atomr-ontology-query/src/sparql.rs:503-592 | the compiled plan of a chain asks exactly what its triples ask, a constant object read as a type |
| SparqlTheorems.TrailsAreSolutions | crates/atomr-ontology-query/src/sparql.rs:503-622 | walks through the compiled plan are exactly the solutions without self-loop hops |
| SparqlTheorems.ChainRows | crates/atomr-ontology-query/src/sparql.rs:503-622 | executing a compiled chain returns exactly such solutions, paged and projected, each once when the last hop binds a variable |
| SparqlTheorems.ApartIsSolution | crates/atomr-ontology-store/src/mem.rs:198-199 | a row is always a solution |
| SparqlTheorems.NoSelfLoopsPreserves | crates/atomr-ontology-store/src/mem.rs:198-199 | without self-loops on the queried labels, no solution is lost |
| SparqlTheorems.SingleHopExact | crates/atomr-ontology-store/src/mem.rs:198-245 | for one hop every solution is returned if and only if no stored node carries such a loop |
| SparqlTheorems.BranchingIsLost | crates/atomr-ontology-query/src/sparql.rs:574-591 | a graph where a branching pattern loses its solution |
| SparqlTheorems.RejoiningIsWrong | crates/atomr-ontology-query/src/sparql.rs:574-591 | a graph where a re-joining pattern returns what is no solution |
| SparqlShapes.SeedStays | crates/atomr-ontology-query/src/sparql.rs:503-592 | where every hop moves on by one position, the seed variable is never bound again |
| SparqlShapes.Layout | crates/atomr-ontology-query/src/sparql.rs:533-592 | such a pattern is a chain of fresh variables followed by hops to constants, and is accepted as a chain in the one case |
| SparqlExact.AcceptedPlan | crates/atomr-ontology-query/src/sparql.rs:503-531 | every accepted pattern compiles to one step per hop, in order, asking for no types but those it mentions |
| SparqlExact.TrailIsWalk | crates/atomr-ontology-store/src/mem.rs:177-257 | each row of any plan comes from a walk, step by step, that binds it |
| SparqlExact.LineForces | crates/atomr-ontology-query/src/sparql.rs:574-591 | a pattern that keeps its meaning on a line of arrows moves on by one position with every hop |
| SparqlExact.LeafForces | crates/atomr-ontology-query/src/sparql.rs:588-591 | and on a chain with one leaf it has at most one hop to a constant, at the end |
| SparqlExact.ExactlyChains | crates/atomr-ontology-query/src/sparql.rs:503-592 | an accepted pattern keeps its meaning, constants read as types, on every graph if and only if it is a chain |
| SparqlConstants.ExactlySparql | crates/atomr-ontology-query/src/sparql.rs:503-592 | an accepted pattern has its SPARQL meaning, constants naming nodes, on every graph without self-loops on its labels if and only if it is a chain whose hops end at variables |
| SparqlConstants.SparqlRows | crates/atomr-ontology-query/src/sparql.rs:503-622 | executing such a chain returns exactly its SPARQL solutions, each once, paged and projected |
| SparqlLoops.SelfLoopsLose | crates/atomr-ontology-store/src/mem.rs:198-199 | every chain with a hop has a solution that is no row on some graph of one node with self-loops |
| SparqlLoops.EverywhereExactly | crates/atomr-ontology-query/src/sparql.rs:503-592 | an accepted pattern has its SPARQL meaning on every graph, self-loops included, if and only if it has no hop |
| SparqlConstants.ConstantHopExact | crates/atomr-ontology-query/src/sparql.rs:579-589 | on one graph a hop to a constant has its SPARQL meaning if and only if the nodes with an arrow to another node of that type are those with an arrow to the node of that name |
| SparqlConstants.ConstantIsAType | crates/atomr-ontology-query/src/sparql.rs:588 | for every constant, a graph where a row is no solution and a graph where the solution is no row |
| Rdf.AsBytesExact | crates/atomr-ontology-rdf/src/ntriples.rs:236-241 | reading bytes as characters returns the text if and only if it is ASCII |
| Rdf.PushEscaped | crates/atomr-ontology-rdf/src/turtle.rs:61-72 | the escaping loop writes the escaped form of the whole literal |
| Texts.BytesAreUtf8 | crates/atomr-ontology-rdf/src/ntriples.rs:236-241 | the characters a character is read as are its UTF-8 bytes (section 3 of RFC 3629) |
| Texts.TrimmedOut | crates/atomr-ontology-rdf/src/ntriples.rs:91-92 | trimming takes the white space off both ends and nothing else |
| Texts.WhiteSpaceExact | crates/atomr-ontology-rdf/src/turtle.rs:157-160 | white space is the 25 characters with the Unicode property White_Space |
| NTriples.PushSubject | crates/atomr-ontology-rdf/src/ntriples.rs:35-47 | writes the subject's text |
| NTriples.PushObject | crates/atomr-ontology-rdf/src/ntriples.rs:49-83 | writes the object's text |
| NTriples.PushTriple | crates/atomr-ontology-rdf/src/ntriples.rs:24-33 | writes one line's text |
| NTriples.Write | crates/atomr-ontology-rdf/src/ntriples.rs:15-22 | writes the document whose round trip is proved |
| NTriples.ParseLiteral | crates/atomr-ontology-rdf/src/ntriples.rs:172-244 | the byte loop reads the literal the specification reads, or fails for the same reason |
| NTriples.Parse | crates/atomr-ontology-rdf/src/ntriples.rs:89-102 | the triples of the lines in order, or the first error with its line number |
| NTriplesRoundTrip.TripleExact | crates/atomr-ontology-rdf/src/ntriples.rs:111-170 | a written line is read as its triple if and only if the triple is preserved |
| NTriplesRoundTrip.DocumentExact | crates/atomr-ontology-rdf/src/ntriples.rs:15-244 | a written document parses back to its triples if and only if every one of them is preserved (section 7 of RDF 1.1 N-Triples) |
| NTriplesReading.UnitReads | crates/atomr-ontology-rdf/src/ntriples.rs:172-241 | what plain characters, escapes and hexadecimal code points of a literal read as |
| NTriplesReading.WordReads | crates/atomr-ontology-rdf/src/ntriples.rs:148-170 | an IRI reads up to its closing bracket, a blank name up to the first white space or full stop |
| NTriplesReading.LineReads | crates/atomr-ontology-rdf/src/ntriples.rs:111-170 | a line spelt with any white space between its words reads as its triple; comments and lines of white space are skipped |
| NTriplesReading.DocumentReads | crates/atomr-ontology-rdf/src/ntriples.rs:89-102 | a document of such lines gives their triples in order, and the first other line its 1-based number and error |
| NTriplesReading.TermsRejected | crates/atomr-ontology-rdf/src/ntriples.rs:148-170 | no term, another first character, and an IRI without its bracket are rejected with their errors |
| NTriplesReading.LiteralsRejected | crates/atomr-ontology-rdf/src/ntriples.rs:172-244 | so are a literal that ends with the text or behind a backslash, and an unknown, a short and a non-numeric escape |
| NTriplesReading.StopMissing | crates/atomr-ontology-rdf/src/ntriples.rs:111-115 | a line lacks its full stop if and only if that is the error |
| NTriplesReading.StatementsRejected | crates/atomr-ontology-rdf/src/ntriples.rs:116-134 | a blank predicate, something behind the object and a literal subject are rejected with their errors |
| Turtle.PushIri | crates/atomr-ontology-rdf/src/turtle.rs:83-97 | writes the compacted or angled form the round trip is proved for |
| Turtle.PushObject | crates/atomr-ontology-rdf/src/turtle.rs:52-81 | writes the object with its tag, the string datatype left out |
| Turtle.Write | crates/atomr-ontology-rdf/src/turtle.rs:14-32 | writes header and body over the standard bindings when the vocabulary is empty |
| TurtleParser.Parser.SkipWs | crates/atomr-ontology-rdf/src/turtle.rs:152-180 | moves past the longest run of white space and `#`, and no further |
| TurtleParser.Parser.ParseTerm | crates/atomr-ontology-rdf/src/turtle.rs:280-309 | reads the term and moves to its end, or fails for the specified reason |
| TurtleParser.Parser.ParseLexical | crates/atomr-ontology-rdf/src/turtle.rs:311-358 | the byte loop reads the lexical form up to the closing quote |
| TurtleParser.Parser.ParseLiteral | crates/atomr-ontology-rdf/src/turtle.rs:311-359 | reads a literal with its language or datatype |
| TurtleParser.Parser.ParseObjects | crates/atomr-ontology-rdf/src/turtle.rs:215-226 | reads an object list, one triple per object |
| TurtleParser.Parser.ParseStatement | crates/atomr-ontology-rdf/src/turtle.rs:210-237 | reads a predicate-object list to its full stop |
| TurtleParser.Parser.ParseDirectives | crates/atomr-ontology-rdf/src/turtle.rs:182-208 | binds every leading prefix directive and stops before the first statement |
| TurtleParser.Parse | crates/atomr-ontology-rdf/src/turtle.rs:108-120 | the parser object computes the specified reading of the document |
| TurtleRoundTrip.IriReads | crates/atomr-ontology-rdf/src/turtle.rs:83-97 | compaction is undone by expansion if and only if the IRI is kept |
| TurtleRoundTrip.ObjectReads | crates/atomr-ontology-rdf/src/turtle.rs:52-81 | escapes, language tags, typed literals and the elided string datatype come back if and only if the object is kept |
| TurtleRoundTrip.TripleReads | crates/atomr-ontology-rdf/src/turtle.rs:210-237 | a written triple comes back alone, or something that is not it |
| TurtleRoundTrip.HeaderReads | crates/atomr-ontology-rdf/src/turtle.rs:182-208 | the header's directives restore the whole vocabulary and reading stops at the body |
| TurtleRoundTrip.HeaderExact | crates/atomr-ontology-rdf/src/turtle.rs:182-208 | the header gives its bindings back if and only if every prefix is free of colons and of blanks at its ends and no base holds a closing angle bracket |
| TurtleRoundTrip.DocumentExact | crates/atomr-ontology-rdf/src/turtle.rs:14-360 | where the header can be read back and the prefixes in use are spelt plainly, a written document parses back to its triples in order if and only if every one of them is kept (section 6.5 of RDF 1.1 Turtle) |
| TurtleRoundTrip.StandardIsPlain | crates/atomr-ontology-core/src/namespace.rs:69-81 | the header of the standard bindings can be read back, and every triple is spelt plainly over them |
| TurtleReading.SentenceReads | crates/atomr-ontology-rdf/src/turtle.rs:210-237 | a statement with predicate-object and object lists, punctuation directly behind its words or spaced, reads as all its triples in order |
| TurtleReading.UnitsRead | crates/atomr-ontology-rdf/src/turtle.rs:311-334 | a literal reads as its characters and escapes up to its closing quote |
| TurtleReading.DirectivesRead | crates/atomr-ontology-rdf/src/turtle.rs:182-208 | directives bind their prefixes in order, a later one over an earlier |
| TurtleReading.DocumentReads | crates/atomr-ontology-rdf/src/turtle.rs:108-120 | a document of directives and such statements parses to their triples in order, however it is spaced, and with the error of the first statement behind them that cannot be read |
| TurtleReading.WordsRejected | crates/atomr-ontology-rdf/src/turtle.rs:280-309 | an angled IRI without its bracket, a name without a colon and an unbound prefix are rejected with their errors |
| TurtleReading.LiteralsRejected | crates/atomr-ontology-rdf/src/turtle.rs:311-358 | so are a literal that ends with the text and one that ends behind a backslash |
| TurtleReading.StatementsRejected | crates/atomr-ontology-rdf/src/turtle.rs:210-266 | so are a blank predicate and an object list that neither goes on nor stops |
| TurtleReading.DirectivesRejected | crates/atomr-ontology-rdf/src/turtle.rs:182-205 | so are a directive without a colon, an opening or a closing bracket, or a full stop |
| TurtleReading.IriWritten | crates/atomr-ontology-rdf/src/turtle.rs:83-97 | an IRI is written with the first binding whose base leaves no blank and no slash, and in angle brackets without one |
| TurtleComments.CommentsSkipped | crates/atomr-ontology-rdf/src/turtle.rs:152-180 | comments are skipped if and only if they hold nothing but white space and `#` |
| TurtleComments.CommentRejected | crates/atomr-ontology-rdf/src/turtle.rs:106-120 | a document that is one comment, and is rejected |
| Numerals.DecimalReads | crates/atomr-ontology-shacl/src/parse.rs:176-181 | a printed count is read back |
| Numerals.ParsesExactly | crates/atomr-ontology-shacl/src/parse.rs:176-181 | a text is read as a number if and only if it is its decimal numeral behind any zeros and at most one plus sign, and the number fits |
| Hierarchy.SupertypesExact | crates/atomr-ontology-core/src/schema.rs:278-299 | the preorder starts with the name, repeats nothing and holds exactly the reachable names |
| Hierarchy.PreorderAppend | crates/atomr-ontology-core/src/schema.rs:284-297 | visiting one list and then another is visiting them joined, which is what makes the stack a recursion |
| Hierarchy.Schema.SupertypesWalk | crates/atomr-ontology-core/src/schema.rs:281-299 | the stack loop ends on every hierarchy and returns the recursive preorder, parents in declared order |
| Hierarchy.SupertypesInOrder | crates/atomr-ontology-core/src/schema.rs:281-299 | every entry but the first is the first declared supertype not listed before it, of the last name listed that has one |
| ShaclCompile.PushIriTerm | crates/atomr-ontology-shacl/src/compile.rs:232-262 | writes the compacted or angled form the round trip is proved for |
| ShaclCompile.RenderPropertyBlock | crates/atomr-ontology-shacl/src/compile.rs:108-138 | writes the statement of a property block |
| ShaclCompile.RenderEdgeBlock | crates/atomr-ontology-shacl/src/compile.rs:143-185 | writes the statement of an edge block |
| ShaclCompile.EmitNodeShape | crates/atomr-ontology-shacl/src/compile.rs:85-104 | writes the statement of a shape with its block references |
| ShaclCompile.CollectPropertyRefs | crates/atomr-ontology-shacl/src/compile.rs:63-83 | one fresh label per property and per outgoing edge, in order, and their blocks |
| ShaclCompile.ToShaclTurtle | crates/atomr-ontology-shacl/src/compile.rs:32-49 | writes the document whose round trip is proved, with one running blank counter |
| ShaclGraph.GraphDescribes | crates/atomr-ontology-shacl/src/compile.rs:32-191 | the document parses to a graph in which each shape has its class and one block for each property and each edge whose domain names the type, and each block exactly its path, counts, datatype or classes of its range |
| ShaclParse.ParsePropertyBlock | crates/atomr-ontology-shacl/src/parse.rs:121-174 | the last path, counts and datatype of the block, or nothing without path or datatype |
| ShaclParse.IndexBySubject | crates/atomr-ontology-shacl/src/parse.rs:49-54 | the index groups the triples by subject, in order |
| ShaclParse.BuildSchema | crates/atomr-ontology-shacl/src/parse.rs:39-119 | an error if and only if some shape has no target class, otherwise the types of the shapes by name |
| ShaclParse.FromShaclTurtle | crates/atomr-ontology-shacl/src/parse.rs:34-37 | the schema of the parsed document, or the Turtle error |
| ShaclMeaning.DatatypeIsMeant | crates/atomr-ontology-shacl/src/parse.rs:183-196 | which names of XML Schema are read as which datatype, inside and outside its namespace |
| ShaclMeaning.PropertyIs | crates/atomr-ontology-shacl/src/parse.rs:121-174 | a block means the property of its last path and datatype and its last readable counts, and no property without both |
| ShaclMeaning.TypeIs | crates/atomr-ontology-shacl/src/parse.rs:66-116 | a shape means the type of its first target class, with the properties it refers to in order |
| ShaclMeaning.SchemaMeant | crates/atomr-ontology-shacl/src/parse.rs:39-119 | the schema read is that of the types its shapes mean, or an error if and only if some shape has no target class |
| ShaclReading.DocumentReads | crates/atomr-ontology-shacl/src/compile.rs:32-49 | the Turtle parser returns the statements the compiler wrote |
| ShaclRoundTrip.GroupExact | crates/atomr-ontology-shacl/src/parse.rs:49-54 | distinct subjects keep the blocks apart |
| ShaclRoundTrip.StatementsDistinct | crates/atomr-ontology-shacl/src/compile.rs:187-191 | fresh labels and distinct shapes give distinct subjects over the whole document |
| ShaclRoundTrip.PropertyReturns | crates/atomr-ontology-shacl/src/parse.rs:121-174 | a property block comes back with its path, datatype and bounds (section 4.2 of SHACL for the counts) |
| ShaclRoundTrip.EdgeVanishes | crates/atomr-ontology-shacl/src/parse.rs:160-164 | an edge block adds no property |
| ShaclTheorem.SchemaReturns | crates/atomr-ontology-shacl/src/compile.rs:32-191 | compiling and parsing returns one type per class with its properties in order, their datatypes and bounds |
| ShaclPrintable.SchemaReturnsExactly | crates/atomr-ontology-shacl/src/compile.rs:232-262 | compiling and parsing returns that table if and only if every class and property IRI can be read back, which outside the abbreviated namespaces means without a closing angle bracket |
| ShaclTheorem.UnchangedExactly | crates/atomr-ontology-shacl/src/parse.rs:39-174 | a type comes back unchanged if and only if names are local names, nothing is JSON, and there are no supertypes or descriptions |
| ShaclTheorem.SchemaUnchanged | crates/atomr-ontology-shacl/src/parse.rs:39-174 | the table that comes back holds exactly the types of the schema if and only if every type is of that form |
| Persistence.PutExact | crates/atomr-ontology-persist/src/store.rs:327-339 | after a commit's upserts each key holds its last value, the others theirs |
| Persistence.AppliedCommits | crates/atomr-ontology-persist/src/store.rs:324-342 | a commit puts the given nodes and edges, the axioms with the provenance they have or else the id of the activity, and the activity under its id |
| Persistence.LatestIsMaximum | crates/atomr-ontology-persist/src/sqlite.rs:86-122 | the loaded row has the highest version, and is the last of that version |
| Persistence.SaveIsLoaded | crates/atomr-ontology-persist/src/sqlite.rs:67-122 | a saved snapshot is the one loaded if and only if no row has a higher stored version |
| Persistence.WrappedExact | crates/atomr-ontology-persist/src/sqlite.rs:71 | the cast keeps the version modulo 2^64, between -2^63 and 2^63 - 1 |
| Persistence.WrapLosesCommit | crates/atomr-ontology-persist/src/sqlite.rs:71 | the version after the largest i64 is stored below the ones before it |
| Persistence.FirstCommitOverwrites | crates/atomr-ontology-persist/src/store.rs:145-154 | the first commit of a store that ignored the table is loaded if and only if the table holds nothing above version 1 |
| Persistence.SqliteCheckpointer.Save | crates/atomr-ontology-persist/src/sqlite.rs:67-84 | appends the row with the version cast to i64, unless it fails before the insert |
| Persistence.MemCheckpointer.Save | crates/atomr-ontology-persist/src/checkpointer.rs:136-139 | replaces whatever was there |
| Persistence.PersistentStore.New | crates/atomr-ontology-persist/src/store.rs:131-143 | memory and version are those of the loaded snapshot, or empty; a failing load is reported and gives no store |
| Persistence.PersistentStore.FromMemory | crates/atomr-ontology-persist/src/store.rs:149-154 | memory starts empty at version 0 |
| Persistence.PersistentStore.Begin | crates/atomr-ontology-persist/src/store.rs:324-348 | the locked block applies the delta, stamps axioms without provenance, records the activity, raises the version and takes the snapshot of exactly that state |
| Persistence.PersistentStore.Commit | crates/atomr-ontology-persist/src/store.rs:314-363 | memory changes whether or not the save succeeds; the table changes as the save says |
| CommitProtocol.StepIsSafe | crates/atomr-ontology-persist/src/store.rs:314-363 | every edit, commit, save, failure and restart keeps the table honest and only grows it |
| CommitProtocol.RunIsSafe | crates/atomr-ontology-persist/src/store.rs:131-143 | so does every run within the i64 range |
| CommitProtocol.LoadIsCommitPoint | crates/atomr-ontology-persist/src/sqlite.rs:86-122 | what a load returns is the memory at the commit point of its version |
| CommitProtocol.Durable | crates/atomr-ontology-persist/src/store.rs:314-363 | after commit v returned Ok no later load returns a version below v, whatever happens in between |
| CommitProtocol.LastCommitLoads | crates/atomr-ontology-persist/src/sqlite.rs:86-122 | the newest commit is loaded if and only if its snapshot was written |
| CommitProtocol.SlotIsCommitPoint | crates/atomr-ontology-persist/src/checkpointer.rs:133-147 | the overwriting slot holds the memory at some commit point |
| CommitProtocol.SlotInOrder | crates/atomr-ontology-persist/src/checkpointer.rs:133-147 | without overlapping commits the slot loads the newest commit if and only if it was written |
| CommitProtocol.SlotExactly | crates/atomr-ontology-persist/src/checkpointer.rs:133-147 | from a state that loads the newest written commit, every continuation without new overlaps goes on doing so if and only if no save is under way once a later commit was written or is being written |
| CommitProtocol.OverlapBreaks | crates/atomr-ontology-persist/src/checkpointer.rs:136-139 | from every state with two saves under way, both commits can be acknowledged with the slot left on the older one |
| CommitProtocol.OverlapLosesSlot | crates/atomr-ontology-persist/src/checkpointer.rs:136-139 | two acknowledged overlapping commits after which the slot loads the older one, and the table the newer |
| Consistency.HasCycle | crates/atomr-ontology-validate/src/consistency.rs:83-100 | true if and only if a non-empty subclass path leads back to the class; ends on every graph |
| Consistency.LinksExact | crates/atomr-ontology-validate/src/consistency.rs:16-31 | the collected links are exactly the subclass axioms |
| Consistency.CycleMeans | crates/atomr-ontology-validate/src/consistency.rs:70-100 | a class is on a cycle if and only if a closed chain of subclass axioms leads from it to itself |
| Consistency.DisjointCheck | crates/atomr-ontology-validate/src/consistency.rs:33-47 | the findings are exactly the nodes that hold both types of a disjoint pair |
| Consistency.FunctionalCheck | crates/atomr-ontology-validate/src/consistency.rs:49-68 | the findings are exactly the functional edges with an earlier one from the same source |
| Consistency.CheckConsistency | crates/atomr-ontology-validate/src/consistency.rs:10-81 | the report lists exactly the violations, and is empty if and only if the data are consistent |
| Importer.LabelsExact | crates/atomr-ontology-import/src/mapping.rs:143-159 | a subject has exactly the labels some triple gives it, whatever the predicate |
| Importer.LabelsOnce | crates/atomr-ontology-import/src/mapping.rs:154-157 | no label twice |
| Importer.Projection.EnsureNode | crates/atomr-ontology-import/src/mapping.rs:161-192 | creates or merges the node without losing its properties, or does nothing for an IRI without label |
| Importer.Projection.Project | crates/atomr-ontology-import/src/mapping.rs:135-243 | the ontology ends up holding exactly the projected nodes and edges under their ids |
| Importer.ProjectedExact | crates/atomr-ontology-import/src/mapping.rs:195-243 | nodes are the typed subjects and the targets of recognised object properties, edges are those properties |
| Importer.EndpointsStored | crates/atomr-ontology-import/src/mapping.rs:232-241 | every edge joins two stored nodes |
| Importer.OrderDoesNotMatter | crates/atomr-ontology-import/src/mapping.rs:135-243 | nodes and edges depend on the set of triples alone |
| Importer.TypesExact | crates/atomr-ontology-import/src/mapping.rs:161-192 | a node carries its subject's labels, or the fallback |
| Importer.LastValueWins | crates/atomr-ontology-import/src/mapping.rs:208-230 | a property holds the value of the last triple that sets it, and is absent without one |
| ImportReading.EdgesRead | crates/atomr-ontology-import/src/mapping.rs:195-243 | an edge is stored if and only if some triple joins its ends by a predicate that is no `rdf:type` and no data property and whose first object property has its label, the source typed and the target typed or a fallback given; it runs from subject to object |
| ImportReading.NodesRead | crates/atomr-ontology-import/src/mapping.rs:161-243 | the stored nodes are those of the typed subjects and the joined objects, at the addresses of their IRIs |
| ImportReading.TypesRead | crates/atomr-ontology-import/src/mapping.rs:143-192 | a node has the labels of the first class for each object its IRI is given, each once, in the order of the triples, or the fallback |
| ImportReading.ValuesRead | crates/atomr-ontology-import/src/mapping.rs:208-230 | a property holds what the last triple for its first data property gives: a literal by the declared datatype, an IRI where IRIs are declared |
| Framing.FindHeaderTerminator | crates/atomr-ontology-remote/src/server.rs:370-372 | the first blank line, or none |
| Framing.ReadHeader | crates/atomr-ontology-remote/src/server.rs:297-315 | found, unless a read before it ends past the limit; otherwise the specified error |
| Framing.ReadBody | crates/atomr-ontology-remote/src/server.rs:350-366 | exactly the declared bytes, or truncated |
| Framing.ReadRequest | crates/atomr-ontology-remote/src/server.rs:297-368 | the reply is the framing of the stream by its first blank line and its last content length |
| HeaderReading.SplitJoined | crates/atomr-ontology-remote/src/server.rs:320 | a header of lines splits into those lines |
| HeaderReading.JoinedSplit | crates/atomr-ontology-remote/src/server.rs:320 | and every header is joined from the lines it splits into, none of which holds a break |
| HeaderReading.HeadReads | crates/atomr-ontology-remote/src/server.rs:317-348 | a header reads as the first two words of its first line and its last content length, in any letter case, and fails if and only if a word is missing or a length is no numeral within usize |
| HeaderReading.RequestReads | crates/atomr-ontology-remote/src/server.rs:297-368 | a stream whose header ends within 65537 bytes gives method, path and as many bytes behind the blank line as announced, or an error when it ends before them |
| HeaderReading.RequestFails | crates/atomr-ontology-remote/src/server.rs:317-347 | a header that is no text, lacks a word or announces no number is answered with that error |
| HeaderReading.OneLength | crates/atomr-ontology-remote/src/server.rs:335-347 | exactly one content length announces its number |
| HeaderReading.NoLengthNoBody | crates/atomr-ontology-remote/src/server.rs:335 | none announces an empty body |
| Framing.OverrunExact | crates/atomr-ontology-remote/src/server.rs:309-314 | the limit is hit if and only if some read ends between it and the end of the terminator |
| Framing.FramedInTime | crates/atomr-ontology-remote/src/server.rs:297-368 | a header that ends within 64 KiB and one byte is always framed (section 6.2 of RFC 9112) |
| Framing.ChunksDoNotMatter | crates/atomr-ontology-remote/src/server.rs:297-368 | two deliveries of one stream get one reply outside a window of one read past the limit |
| Framing.ChunksMatter | crates/atomr-ontology-remote/src/server.rs:300-315 | every stream whose first blank line ends inside it has a delivery rejected for the length of its header and another that is not |
| Framing.ChunksMatterExactly | crates/atomr-ontology-remote/src/server.rs:297-368 | all deliveries of a stream get one reply if and only if its first blank line does not end in that window |
| HeaderReading.WindowBytes | crates/atomr-ontology-remote/src/server.rs:299-314 | the window is from byte 65538 to byte 69632 |
| Cache.CachedBackend.Complete | crates/atomr-ontology-extract/src/backend.rs:164-186 | the reply and the new state of one call, the order always a listing of the cached keys within the bound; the reply is the backend's own when the prompts asked so far that share a key get one reply |
| Cache.InsertedLists | crates/atomr-ontology-extract/src/backend.rs:173-185 | an insertion keeps the order a listing of the cached keys if and only if its key is not among those kept, and then the size at most max(cap, 1) |
| CacheReading.UncachedKeepsNothing | crates/atomr-ontology-extract/src/backend.rs:165-167 | without a policy nothing is kept and every reply is the backend's |
| CacheReading.ContentKeepsFirst | crates/atomr-ontology-extract/src/backend.rs:164-186 | by content, the first answer under each key is kept for good, and no error |
| CacheReading.LruKeepsNewest | crates/atomr-ontology-extract/src/backend.rs:173-185 | a bounded cache holds exactly the answers of the newest calls that filled it, max(cap, 1) of them, in order |
| CacheEviction.EvictsByInsertion | crates/atomr-ontology-extract/src/backend.rs:175-182 | in every run what leaves the cache was inserted before everything else in it |
| CacheEviction.LeastRecentExactly | crates/atomr-ontology-extract/src/backend.rs:164-186 | for every backend and capacity, each eviction of every run takes a least recently used key if and only if the capacity is at most one or the backend answers no more keys than fit |
| CacheEviction.LeastRecentCapacities | crates/atomr-ontology-extract/src/backend.rs:120-128 | over all backends that is so for the capacities up to one and no other |
| CacheOverlap.RepliesAreInner | crates/atomr-ontology-extract/src/backend.rs:151-186 | over every interleaving of calls of some prompts each reply is the backend's own if and only if those of the prompts that share a key get one reply |
| CacheOverlap.ListedExactly | crates/atomr-ontology-extract/src/backend.rs:169-184 | with room for two or more, the order stays a listing within the bound in every continuation where no call comes for a key that is waited for, if and only if no two waiting calls that will be answered share a key |
| CacheBound.RepeatOverflows | crates/atomr-ontology-extract/src/backend.rs:173-184 | from every state of every run whose order is not a listing, enough calls with new keys drive the cache past its capacity |
| CacheBound.BoundExactly | crates/atomr-ontology-extract/src/backend.rs:164-186 | the size stays within max(cap, 1) in every interleaving if and only if the capacity is at most one or the backend answers no more keys than fit |

## Left out

- Agents, timestamps and attributes of provenance records: an activity is an id and a kind.
- The order in which `BTreeMap` and `BTreeSet` hand out entries is arbitrary in loops that do not depend on it; rows, edges and
  types whose order shows come as sequences.
- Which of two SHACL classes with the same local name survives: the theorem asks for distinct local names.
- Text is a sequence of characters; byte offsets enter only where the parsers push bytes as characters.
- Iteration counts are unbounded integers, except the version counter (u64, saturating, stored as i64), counts in SHACL (u32) and
  the content length (usize).
- ShaclTheorem.SchemaReturns: one direction only for IRIs that cannot be written, because one on an edge may or may not spoil the
  document; for classes and properties `ShaclPrintable.SchemaReturnsExactly` gives both.
- ShaclPrintable.SchemaReturnsExactly: inside the two abbreviated namespaces, class and property IRIs that can be read back; the
  text of one that cannot may spell out statements of its own.
- CommitProtocol.Durable: one store at a time on a backend; two processes that write one database are not modelled.
- Store.MemStore.Traverse: asks that every node and edge sits under its own id, as the constructors and upserts leave them.
- TurtleRoundTrip.DocumentExact: asks for a header that can be read back (`TurtleRoundTrip.HeaderExact`) and, of the prefixes some
  triple is compacted with, that the term reader takes them whole and no directive begins with them.
- NTriples.ReadEscape: the four or eight places after `\u` and `\U` are characters; the source slices bytes there and panics when
  that cuts a character in two.
- Importer.Projection.Project: starts from an ontology without nodes and edges, as every importer calls it.
- SparqlTheorems.ChainRows: chain-shaped patterns only, since no other shape is preserved (`SparqlExact.ExactlyChains`); constants as
  the compiler reads them, which is not how SPARQL does (`SparqlConstants.ExactlySparql`).
- SparqlConstants.ExactlySparql: types and predicates are compared by local name, as the documentation at `sparql.rs:22-29` says.
- CacheOverlap.RepliesAreInner: the backend is a function of the prompt; one that answers differently over time is not modelled.
- Reasoning.PipeFreeFaithful: one way only; the exact condition on names is `Reasoning.SplitsExactly`.
- The tokenisers of the SPARQL and Cypher parsers: the SPARQL model starts from triples of terms.
- `to_rdf`, `from_rdf` and the JSON-LD reader: the writers and parsers are modelled on triples.
- Literal conversion in imports (integers, floats, booleans, dates) and UTF-8 decoding of headers are functions passed in.
- `match_pattern`, `diff` and plain look-ups of the stores: they would add only easy members.
- The second copy of `traverse` in the persistent store: the text is that of the in-memory store.
- JSON encodings, wire mirror types, file and socket operations, and the database engine behind the checkpointer.
- Version commits and merges, ingest pipelines, renderers, embeddings, Python bindings and language-model extractors.
