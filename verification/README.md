# Cyclist, modelled and proved in Dafny

Cyclist is a cyclic theorem prover. A cyclic proof is a finite graph of sequents with back-links, and it counts as a
proof only if every infinite path is followed by a trace that progresses infinitely often. This project models the
parts of the repository that carry that idea, the solvers they rest on, and the pointer and concurrent programs that
the repository ships as model-checking benchmarks, and proves what each of them is for.

The chain from code to meaning, in order of the modules:

* `TraceGraph` holds abstract proofs, their infinite paths and traces, and the global trace condition (GTC).
* `Fusion`, `DeadNodes` and `Minimise` prove that shrinking a graph before the check does not change the condition: infinite paths
  of the small graph and of the large one are matched block by block, and traces are carried both ways.
* `Automata` and `SoundCheck` follow the reduction to Buchi inclusion: tables of vertices, tags and pairs are built
  vertex by vertex, and inclusion of the two automata is the condition. `SoundCheck.Checker` is the cached check.
* `ProofTree`, `Rules`, `Combinators`, `RuleResults`, `Inlining` and `Prover` model proofs under construction. Every rule built
  from axioms, inferences and checked back-links keeps the condition although only back-links are checked. `Totality`
  says when no rule and no search fails an assertion.
* `CyclicSoundness` closes the argument: a closed, locally sound proof that meets the condition has no counter-model.
  `Prover.SearchIsSound` puts all of it together for what the search returns. `Completeness` proves that it misses
  nothing when no rule makes back-links, `SearchLimits` shows what it misses when one does, and `CyclicExample` a cycle
  that it finds.
* `OrdConstraints`, `Schemas`, `SeqTactics` and `Lists` supply the descent that local soundness needs: constraints
  between tags, the pairs emitted by unfolding, and their composition. `Descent` joins them with the trace condition.
* `UnionFind` and `Partitions` are the equality reasoning, `SemiNaive` the fixpoint engine of the model checker,
  `FiniteModels` the reason why it ends, and `StackConstraints` the test that it applies before it merges two models.
* `SchorrWaite`, `Composite`, `LockCoupling` and `LockFreeQueue` are the benchmark programs. The two concurrent ones
  are step systems with one step per shared access, any number of threads and any interleaving.

Infinite paths, words and traces are functions from the naturals. Exceptions and failed assertions are
`Outcomes.Raised`. Functions handed to the prover (axioms, inference functions, matchers, the Buchi inclusion test)
are parameters, and what is asked of them is a named predicate.

Five facts about the code came out of the proofs:

* Dead-node removal protects node 0 and not the requested initial node. It keeps exactly the nodes from which an
  infinite path or a path to node 0 starts. With initial node 0, which is what the prover uses, minimisation is exact;
  another initial node disappears if it does not live in this sense, and if some other node does, the check then fails
  its second well-formedness assertion instead of answering (`DeadNodes.RootCanBeLost`,
  `SoundCheck.Checker.CheckProof`).
* `repeat` does not terminate on a sequent that has an application without premises, because the empty list of premises
  has exactly one choice of applications, which gives an application without premises again. In general it diverges
  exactly from the sequents of a set in which each has an application with all premises in the set again
  (`SeqTactics.RepeatDivergesIff`, `SeqTactics.ClosingRuleDiverges`).
* The search never looks for a second way to close a subgoal when a later one fails. With rules that make no back-links
  this costs nothing: whatever the check, the branching and the order of the applications, a proof is found at a bound
  exactly if the sequent has a derivation of that depth, because what a rule offers depends on the sequent alone
  (`Completeness.SearchIsComplete`, `Completeness.RulesAreLocal`). With back-links it can miss a derivation at every
  bound, when the target of a link is only in the proof that it did not choose (`SearchLimits.BacklinksCanBeMissed`);
  derivations without branching are still found (`Prover.LinearIsFound`).
* Before two models are merged, the test of the equalities looks up a variable in a stack that need not bind it. Given
  two consistent stacks that satisfy the constraints, it decides whether the merged one does, unless it meets an
  equality whose two sides one stack binds and the other does not know; then it raises
  (`StackConstraints.CrossSatisfiesExact`). This happens in the first merge of a rule, with the empty stack, whenever
  its points-to atom binds both sides of the first equality (`StackConstraints.EmptyStackRaises`).
* The marking program of `schorr_waite.c` is annotated for trees only. It is correct on every finite graph whose
  nodes start unmarked, shared and cyclic ones included (`SchorrWaite.Mark`).

## Model

| member | source | states |
|---|---|---|
| Minimise.Compose | src/generic/soundcheck.ml:27-33 | the pairs linked through a common middle tag, no more and no fewer |
| Minimise.IndexOfChild | src/generic/soundcheck.ml:48-49 | the first edge to the child, which exists |
| Fusion.LeafRemovalPreservesGTC | src/generic/soundcheck.ml:119-144 | removing a leaf other than the root changes no infinite path, so the condition holds before exactly when it holds after |
| Minimise.WithoutLeafRemoved | src/generic/soundcheck.ml:121-135 | the map edits of one removal delete the leaf, every edge into it, and nothing else |
| Minimise.RemoveDeadNode | src/generic/soundcheck.ml:132-135 | the in-place loop over parents computes that graph |
| DeadNodes.LeafRemovalLives | src/generic/soundcheck.ml:132-144 | a removed leaf starts neither an infinite path nor a path to 0, and for all other nodes the removal changes nothing in this |
| DeadNodes.NoLeavesAllLive | src/generic/soundcheck.ml:136-144 | when no leaf but 0 is left, every node starts an infinite path or a path to 0 |
| DeadNodes.RootCanBeLost | src/generic/soundcheck.ml:139-141 | a well-formed graph whose initial node 1 is removed while node 0 stays |
| Minimise.RemoveDeadNodes | src/generic/soundcheck.ml:119-144 | terminates keeping exactly the nodes that start an infinite path or a path to 0, keeps well-formedness and distinct successors, and keeps the condition in both directions wherever the initial node survives; where it does not, the condition holds |
| Fusion.Contract | src/generic/soundcheck.ml:146-169 | every path of the old graph is a path of the fused graph with the fused node inserted where it was |
| Fusion.Expand | src/generic/soundcheck.ml:146-169 | every path of the fused graph expands to a path of the old one |
| Fusion.FusionPreservesGTC | src/generic/soundcheck.ml:146-184 | fusing a single-child node with composed pairs keeps the condition in both directions |
| Minimise.WithoutSingleFused | src/generic/soundcheck.ml:148-169 | the map edits of one fusion replace each path through the node by one edge whose valid and progressing pairs are the compositions |
| Minimise.WithoutSingleSimple | src/generic/soundcheck.ml:171-178 | the guard against fathers of the grandchild keeps successors distinct |
| Minimise.WithoutSingleWellFormed | src/generic/soundcheck.ml:148-169 | fused edges keep progressing pairs among valid pairs and tags where they belong |
| Minimise.FuseNode | src/generic/soundcheck.ml:164-169 | the in-place loop over parents computes the fused graph |
| Minimise.FuseSingleNodes | src/generic/soundcheck.ml:146-184 | terminates when every node with a single successor is the initial node, a loop, or has a father that leads to that successor as well; keeps well-formedness, distinct successors and the initial node, and keeps the condition in both directions |
| Minimise.MinimizeAbsProof | src/generic/soundcheck.ml:186-186 | the minimised graph meets the condition exactly when the original does, as long as the initial node is kept, which happens exactly when it starts an infinite path or a path to 0, so always for 0; no dead node and no such single-successor node is left |
| Automata.BitsInjective | src/generic/proof.c:47-74 | different vertex numbers that fit the bits have different labels |
| SoundCheck.CeilLog2 | src/generic/soundcheck.ml:202-205 | the exponent of the least power of two that is not below the number of nodes |
| SoundCheck.VertexBits | src/generic/proof.c:47-74 | the loop over the bits spells the vertex number in binary |
| SoundCheck.ProofTables.CreateVertex | src/generic/proof.c:47-74 | a label never used before, with empty tag and successor entries, and nothing else changed |
| SoundCheck.ProofTables.TagVertices | src/generic/soundcheck.ml:191-209 | every vertex ends with exactly the tags of its node |
| SoundCheck.ProofTables.TagVertex | src/generic/proof.c:76-80 | tags are added to one vertex only |
| SoundCheck.ProofTables.SetSuccessors | src/generic/proof.c:87-91 | the successors of a vertex are exactly the labels of the premises, the other vertices keep theirs |
| SoundCheck.ProofTables.SetPairs | src/generic/proof.c:93-109 | valid and progressing pairs go to their own tables, one entry for each pair of each premise |
| SoundCheck.MapVertex | src/generic/soundness.c:52-61 | the identifier map stays one-to-one with the vertices |
| SoundCheck.BuildTables | src/generic/soundcheck.ml:202-212 | one bit more than the logarithm always suffices, and the finished tables are an injective encoding of the graph |
| SoundCheck.TraceSuccessors | src/generic/trace.c:34-62 | the enumerated successor states are exactly those allowed by the tags and the valid pairs |
| SoundCheck.AddTagged | src/generic/trace.c:34-62 | for one vertex, exactly the tags reachable from the current state are added |
| Automata.WordIsPath | src/generic/proof_aut.hpp:41-77 | every word of the proof automaton spells an infinite path from the initial node |
| Automata.PathIsWord | src/generic/proof_aut.hpp:41-77 | every infinite path from the initial node is spelt by a word of the proof automaton |
| Automata.FollowedIsAccepted | src/generic/trace.c:34-79 | a path with an infinitely progressing trace on a tail has an accepting run of the trace automaton |
| Automata.AcceptedIsFollowed | src/generic/trace.c:34-79 | an accepting run yields such a trace |
| Automata.InclusionIsGTC | src/generic/soundness.c:110-123 | inclusion of the proof automaton in the trace automaton is exactly the global trace condition |
| SoundCheck.Checker.CheckAutomata | src/generic/soundcheck.ml:189-218 | the uncached check answers the global trace condition of the graph |
| SoundCheck.Checker.CheckProof | src/generic/soundcheck.ml:270-313 | with minimisation and the cache in between, the answer is still the global trace condition of the graph that was handed in; ill-formed graphs raise, and well-formed ones exactly when the root does not live while another node does, so never for root 0; earlier answers stay cached and the answer for a living root is added |
| ProofTree.AbstractSimple | src/generic/proof.ml:132-135 | graphs of proofs never list a successor twice, so the check applies to all of them |
| ProofTree.AbstractTraces | src/generic/proofnode.ml:124-131 | the graph that is checked has the nodes and tags of the proof, and its valid and progressing steps are the pairs recorded at inferences and back-links, the latter never progressing |
| ProofTree.Mk | src/generic/proof.ml:137-137 | a well-formed proof whose only open node is the root |
| ProofTree.FreshIdx | src/generic/proof.ml:103-103 | an index above all present ones |
| ProofTree.AddOpenNodes | src/generic/proof.ml:156-169 | exactly the new indices are added, open, with the sequents of the subgoals |
| Rules.GrowthPreservesGTC | src/generic/proof.ml:156-169 | an inference below an open node creates no infinite path, so the condition needs no check |
| Rules.AddAxiomEvolves | src/generic/proof.ml:145-147 | closes one open node, keeps sequents, parents, closed nodes, the other open nodes, the condition and local soundness |
| Rules.AddBacklinkEvolves | src/generic/proof.ml:149-154 | the same, provided that the result meets the condition |
| Rules.AddInfEvolves | src/generic/proof.ml:156-169 | replaces one open node by exactly the new ones and keeps the rest, the condition and local soundness |
| Combinators.MkAxiomGood | src/generic/proofrule.ml:129-132 | every application it returns evolves the proof as above at the chosen node |
| Combinators.MapInfGood | src/generic/proofrule.ml:134-140 | the same for inference rules |
| Combinators.MkBackruleGood | src/generic/proofrule.ml:142-155 | the same for back-link rules, greedy or not, given a correct check |
| Combinators.EvolvesStep | src/generic/proofrule.ml:200-214 | applying a rule to one of the pending subgoals replaces it by the new ones in the list and keeps all guarantees |
| Combinators.PairwiseGood | src/generic/proofrule.ml:200-214 | applying one rule per subgoal in turn keeps all guarantees |
| Combinators.ComposeGood | src/generic/proofrule.ml:216-222 | composition keeps all guarantees |
| Combinators.ComposePairwiseGood | src/generic/proofrule.ml:224-225 | so does composition with one rule per subgoal |
| Combinators.ChoiceGood | src/generic/proofrule.ml:227-234 | so do choice and first |
| Combinators.IdentityGood | src/generic/proofrule.ml:236-236 | doing nothing reopens the node itself |
| Combinators.AttemptGood | src/generic/proofrule.ml:238-240 | so does attempt |
| Combinators.SequenceGood | src/generic/proofrule.ml:242-244 | so does a sequence of rules |
| Combinators.RunGood | src/generic/proofrule.ml:129-247 | by induction, so does every expression over the basic rules and the combinators |
| Combinators.TacticsAreGood | src/generic/proofrule.ml:129-247 | every such rule, at every open node of every well-formed proof, keeps the condition, local soundness and the remaining open nodes |
| RuleResults.FoldPairwiseExact | src/generic/proofrule.ml:200-214 | an application is returned exactly when it is the end of a chain of applications, one per subgoal, each to the proof that the ones before have made; if the numbers of rules and subgoals differ there is no such chain |
| RuleResults.ComposeExact | src/generic/proofrule.ml:216-222 | composition returns all such chains from all applications of the first rule, and nothing else |
| RuleResults.GreedyIsFirst | src/generic/proofrule.ml:154-155 | the greedy result is the first of the results of the other mode, and empty exactly when they are |
| RuleResults.ComposePairwiseExact | src/generic/proofrule.ml:224-225 | the same for one rule per subgoal |
| RuleResults.FirstExact | src/generic/proofrule.ml:229-234 | first is the first of its rules that raises or has applications, and empty exactly if all are |
| RuleResults.ChoiceExact | src/generic/proofrule.ml:227-227 | choice raises exactly if one of its rules does, and has the applications of all of them |
| RuleResults.AttemptExact | src/generic/proofrule.ml:238-240 | attempt is the rule, or the node itself exactly if the rule has no application |
| RuleResults.AxiomExact | src/generic/proofrule.ml:129-132 | an axiom rule offers one application, the node closed with the description of its function, exactly if there is one |
| RuleResults.AddInfExact | src/generic/proof.ml:156-169 | new open nodes numbered in order above all others, an inference that records them and their pairs, and nothing else changed |
| RuleResults.InfruleExact | src/generic/proofrule.ml:134-140 | an inference rule offers such results for exactly the inferences of its function, in order |
| RuleResults.AllLinksExact | src/generic/proofrule.ml:142-153 | the candidate links come target by target and match by match, each with the pairs and the description of its match |
| RuleResults.FilterCheckedOrder | src/generic/proofrule.ml:154-155 | the links that pass the check stay in order |
| RuleResults.BackruleRaises | src/generic/proofrule.ml:142-155 | the rule raises exactly if a target is not in the proof, a match relates sequents that differ beyond tags, or a link has pairs outside the tags |
| RuleResults.BackruleExact | src/generic/proofrule.ml:142-155 | a back-link is offered exactly if it leads to a selected node with the pairs of a match of the two sequents, and the linked proof meets the condition |
| Totality.ComposeTotal | src/generic/proofrule.ml:200-222 | if two rules raise at no open node of a proof with some property and keep the property, neither does their composition, which runs the second inside proofs that the first has made |
| Totality.TacticsAreFine | src/generic/proofrule.ml:129-247 | by induction, the same holds for every expression over such basic rules |
| Totality.InfTagged | src/generic/proof.ml:156-169 | inferences whose pairs lie within the tags keep the graph well formed |
| Totality.BacklinkTagged | src/generic/proof.ml:149-154 | so do back-links |
| Totality.TidyIsFine | src/generic/proofrule.ml:129-155 | the basic rules raise nowhere if selected targets lie in the proof, matches relate sequents that are equal up to tags, and pairs lie within the tags |
| Totality.RulesNeverRaise | src/generic/proofrule.ml:129-247 | so no rule built from them ever fails an assertion of the proof or of the soundness check |
| Inlining.CopyWorks | src/generic/proof.ml:172-191 | the recursive copy never fails an assertion, and it visits the chosen node and all its descendants and leaves the other pending nodes pending |
| Inlining.FixLinksWorks | src/generic/proof.ml:199-203 | each postponed back-link is made once, to the copy of its target, and no other node changes |
| Inlining.InliningCopies | src/generic/proof.ml:171-203 | succeeds exactly at an open node with the sequent of the inserted proof, and the result contains an injectively renamed copy of it |
| Inlining.InlinedOpens | src/generic/proof.ml:171-203 | the open nodes are the old ones without the target, and the copies of the inserted open nodes |
| Inlining.GluedGTC | src/generic/proof.ml:171-203 | gluing graphs that meet the condition at a leaf gives a graph that does: a path ends in one of the two |
| Inlining.InliningIsSafe | src/generic/proof.ml:171-203 | the result is a well-formed proof, keeps all other nodes, meets the condition if both proofs do, and is locally sound if both are |
| CyclicSoundness.RankedPathNotFollowed | src/generic/ord_constraints.ml:176-185 | a path along which ranks obey the pairs is not followed by an infinitely progressing trace |
| Descent.NoSolvedPath | src/seplog/rules.ml:523-539 | in a graph that meets the condition, no infinite path carries only pairs of unfoldings whose constraints are solved by the values of the tags along it |
| CyclicSoundness.CyclicProofsAreSound | src/generic/proof.ml:130-135 | the root of a closed, locally sound proof that meets the condition has no counter-model |
| Prover.DfsCloses | src/generic/prover.ml:36-64 | a proof found by depth-bounded search closes exactly the node it was asked for |
| Prover.SearchIsSound | src/generic/prover.ml:36-64 | a proof found with sound rules is closed, proves the input sequent, meets the condition, and the sequent has no counter-model |
| Prover.LinearIsFound | src/generic/prover.ml:39-57 | for any rules, a derivation without branching that fits the bound is never missed, whatever applications are tried before |
| Prover.TryAppsFirst | src/generic/prover.ml:53-58 | the search goes by the first application whose subgoals it can close |
| Completeness.ComposeLocal | src/generic/proofrule.ml:200-222 | if what two rules offer depends on the sequent of the node alone, so does what their composition offers, list by list and in order |
| Completeness.ChainedExact | src/generic/proofrule.ml:216-222 | a composition infers a sequent from premises exactly if the first rule infers it from sequents, each of which the second infers from its part of the premises |
| Completeness.FirstOfExact | src/generic/proofrule.ml:229-234 | first infers what the first of its rules does that infers anything |
| Completeness.AnyExact | src/generic/proofrule.ml:227-227 | choice infers what any of its rules does |
| Completeness.RulesAreLocal | src/generic/proofrule.ml:129-247 | at every open node of every proof, whatever the check, a rule built without back-links offers, in order, exactly what it infers from the sequent of the node |
| Completeness.DfsExact | src/generic/prover.ml:39-58 | with such rules, the search from an open node of any proof answers, and finds a proof exactly if the sequent is derivable within the bound |
| Completeness.CloseAllExact | src/generic/prover.ml:54-57 | closing the subgoals one after the other succeeds exactly if each is derivable, however the ones before were closed |
| Completeness.SearchIsComplete | src/generic/prover.ml:36-64 | so the search misses nothing, however much derivations branch |
| Completeness.DeepeningIsComplete | src/generic/prover.ml:36-64 | some depth up to the maximum succeeds exactly if the sequent is derivable at the maximum |
| Completeness.SearchNeverRaises | src/generic/prover.ml:36-64 | with tidy rules, back-links included, the search answers without failing an assertion |
| SearchLimits.BacklinksCanBeMissed | src/generic/prover.ml:52-58 | an axiom, an inference function and a back-link rule over all nodes, and a sequent that four of their applications close, while the search fails at every bound, for every correct check |
| SearchLimits.AllNodesExact | src/generic/proofrule.ml:157-160 | the other nodes of the proof, in the order of their indices |
| CyclicExample.FoldedGTC | src/generic/soundcheck.ml:189-217 | a cycle through an unfolding, on which a tag progresses, and a back-link that leads the tag around meets the condition |
| CyclicExample.CycleIsFound | src/generic/prover.ml:36-64 | at every positive bound and for every correct check the search closes the sequent by that cycle |
| Prover.Search.Idfs | src/generic/prover.ml:36-64 | iterative deepening returns the outcome of the least depth that does not fail and records that depth; no answer means that all depths fail |
| OrdConstraints.Fixpoint | src/lib/misc.ml:68-70 | inference over finitely many tags reaches a fixed point |
| OrdConstraints.Close | src/generic/ord_constraints.ml:117-131 | terminates, contains the constraints, and adds no tags |
| OrdConstraints.CloseSound | src/generic/ord_constraints.ml:107-131 | a set and its closure have the same solutions |
| OrdConstraints.CloseClosed | src/generic/ord_constraints.ml:117-131 | the closure is reflexive, weakened and transitive in all four mixed cases |
| OrdConstraints.InconsistentIffUnsatisfiable | src/generic/ord_constraints.ml:187-196 | reported inconsistent exactly when no assignment of naturals satisfies the set |
| OrdConstraints.CloseIsEntailment | src/generic/ord_constraints.ml:117-131 | for consistent sets the closure contains exactly the constraints over its tags that every solution obeys |
| Schemas.SolveSchema | src/generic/ord_constraints.ml:133-157 | constraints on a tag that is only bounded above or only bounded below can be met by moving that tag alone |
| Schemas.RemovedSomething | src/generic/ord_constraints.ml:133-157 | each removal deletes at least one constraint |
| Schemas.VerifiedSchemasAreTautological | src/generic/ord_constraints.ml:159-166 | if the schemas verify, every assignment can be changed at unused existential tags only so as to satisfy them |
| Schemas.VerifiesIff | src/generic/ord_constraints.ml:133-166 | they verify exactly if some sequence of unused existential tags empties the constraints, each tag being only above, without a strict loop, or only weakly below in what is left; the order that the loop tries does not matter |
| Schemas.UnfoldingDescends | src/seplog/rules.ml:523-539 | under any solution of the constraints, valid pairs of an unfolding never increase and progressing pairs strictly decrease |
| Schemas.UnfoldingComplete | src/seplog/rules.ml:523-539 | a pair is valid exactly when no solution increases along it, and progresses exactly when all solutions decrease along it |
| Schemas.UnfoldedModels | src/generic/ord_constraints.ml:100-105 | the solutions of the constraints of an unfolding are those of the old ones that put every tag of the case, or the fresh tag if there is none, below the unfolded one |
| Schemas.UnfoldedTagProgresses | src/seplog/rules.ml:511-539 | the unfolded predicate's tag progresses to every tag of the case |
| SeqTactics.DescendsCompose | src/generic/seqtactics.ml:37-46 | composed pairs descend wherever the two steps do, strictly if one of them is strict |
| SeqTactics.FixSubgoalExact | src/generic/seqtactics.ml:37-46 | a pair of a premise reached through another one is valid exactly if some tag links it through both, and progresses exactly if some such tag has a progressing half |
| SeqTactics.ApplicationSound | src/generic/seqtactics.ml:50-59 | applying a sound rule to all premises of a sound application in every combination is sound |
| SeqTactics.ComposeSound | src/generic/seqtactics.ml:61-61 | so is composition |
| SeqTactics.AttemptSound | src/generic/seqtactics.ml:32-35 | so is attempt, whose fall-back keeps the identity pairs |
| SeqTactics.FirstAndChoiceSound | src/generic/seqtactics.ml:64-73 | so are first and choice |
| SeqTactics.RepeatSound | src/generic/seqtactics.ml:75-81 | so is repetition whenever it ends |
| SeqTactics.ApplicationExact | src/generic/seqtactics.ml:50-59 | the results are exactly the merged picks of one application for each premise, with the sequents and descriptions of that application and pairs linked through the premise |
| SeqTactics.FlattenExact | src/generic/seqtactics.ml:53-59 | the merged premises come application by application, each with its own in order |
| SeqTactics.ComposeExact | src/generic/seqtactics.ml:61-61 | composition returns exactly what comes from an application of the first rule by such a pick |
| SeqTactics.FirstExact | src/generic/seqtactics.ml:64-67 | first returns all applications of the first rule that has any, and nothing exactly if none has |
| SeqTactics.ChoiceExact | src/generic/seqtactics.ml:73-73 | choice returns the applications of all rules |
| SeqTactics.AttemptExact | src/generic/seqtactics.ml:32-35 | attempt returns what the rule does, or the sequent itself with each tag linked to itself exactly if that is nothing |
| SeqTactics.RepeatExact | src/generic/seqtactics.ml:75-81 | repetition returns exactly the applications that are reachable by rewriting and cannot be rewritten further |
| SeqTactics.RepeatRunsOut | src/generic/seqtactics.ml:75-81 | repetition is still at work after a number of rounds exactly when the rule can be applied above the sequent that many times and twice more, to all premises at once |
| SeqTactics.RepeatDivergesIff | src/generic/seqtactics.ml:75-81 | repetition diverges exactly from the sequents of a set in which each has an application with all premises in the set again |
| SeqTactics.RepeatDivergesOnAxioms | src/generic/seqtactics.ml:75-81 | so it diverges on every sequent that has an application without premises |
| SeqTactics.ClosingRuleDiverges | src/generic/seqtactics.ml:75-81 | a concrete rule and sequent |
| Lists.ChooseIsSimple | src/lib/blist.ml:132-147 | the tail-recursive enumeration gives the simple one's list, in the same order, despite its alternating reversals |
| Lists.ChooseSelects | src/lib/blist.ml:139-147 | a list is produced exactly when it picks one element from each list |
| UnionFind.Find | src/seplog/uf.ml:37-38 | terminates at a term without a binding that is no smaller |
| UnionFind.Bindings | src/seplog/uf.ml:15-15 | exactly the bindings of the map |
| UnionFind.EquatesIsEntailment | src/seplog/uf.ml:56-56 | two terms are equated exactly when every valuation that respects the structure equates them |
| UnionFind.AddModels | src/seplog/uf.ml:40-50 | an added pair restricts the valuations by exactly that equality |
| UnionFind.UnionModels | src/seplog/uf.ml:52-52 | a union is respected exactly by the valuations that respect both |
| UnionFind.SubstModels | src/seplog/uf.ml:70-71 | the substituted structure is respected by a valuation exactly when the original is after substituting |
| UnionFind.EqualIffSameRelation | src/seplog/uf.ml:7-9 | structures are equal as maps exactly when they equate the same terms |
| UnionFind.SubsumedIffWithin | src/seplog/uf.ml:68-68 | subsumption decides inclusion of the relations |
| UnionFind.OfListIsGenerated | src/seplog/uf.ml:54-54 | a structure built from pairs equates exactly the equivalence they generate, which is what they entail |
| Partitions.InconsistentIffUnsatisfiable | src/seplog/heap.ml:135-137 | inconsistent exactly when no valuation satisfies equalities and disequalities |
| Partitions.DisequatesIsEntailment | src/seplog/heap.ml:127-131 | in a consistent heap, disequated exactly when all satisfying valuations differ |
| Partitions.AddEquates | src/seplog/heap.ml:281-282 | after a new equality two terms are equated exactly if they were, or lie in the two merged classes |
| Partitions.SplitCounts | src/seplog/invalid.ml:13-19 | splitting on a pair neither loses nor repeats a valuation |
| Partitions.HemiSquareCovers | src/lib/blist.ml:113-118 | exactly the pairs of terms at two different places |
| Partitions.PartitionIsExact | src/seplog/invalid.ml:6-21 | fails exactly on unsatisfiable heaps; the cases are consistent and settle every two terms, and a valuation of the heap satisfies exactly one of them while others satisfy none |
| SemiNaive.WeaveIsExact | src/lib/blist.ml:126-130 | the weave enumerates precisely the combinations that use at least one newest-generation fact |
| SemiNaive.RoundSound | src/seplog/mc_core.ml:882-962 | what a round derives follows from the known facts |
| SemiNaive.RoundComplete | src/seplog/mc_core.ml:882-962 | what follows from the known facts is derived in this round or already followed from the older ones |
| SemiNaive.RoundCatchesUp | src/seplog/mc_core.ml:992-1013 | after each round everything derivable from the older generation is known |
| SemiNaive.GenerateModels | src/seplog/mc_core.ml:547-554 | the fold over the interpretants yields exactly the models that they give |
| SemiNaive.CrossLists | src/seplog/mc_core.ml:584-594 | the two nested folds yield exactly the compatible products |
| SemiNaive.Generator.GetModels | src/seplog/mc_core.ml:918-936 | the products with the newest facts, preceded on request by those with the older ones |
| SemiNaive.Generator.WeaveInto | src/lib/blist.ml:126-130 | the recursive weave with its side effects adds exactly the interpretants of the woven combinations |
| SemiNaive.Generator.RuleGen | src/seplog/mc_core.ml:882-962 | with its lists, flags and accumulator, the function adds exactly the facts of one semi-naive round of the rule, or none when the rule is inconsistent or a base rule already used |
| SemiNaive.Generator.Round | src/seplog/mc_core.ml:992-1013 | the generations shift and only unknown facts become the newest |
| SemiNaive.ConfinedIsClosed | src/seplog/mc_core.ml:964-990 | rules that never leave a finite set of models, as stacks over finitely many values and parts of one heap do not, have a finite closed set of facts |
| FiniteModels.StacksExact | src/seplog/mc_core.ml:235-235 | the stacks over finitely many variables and values are finitely many |
| FiniteModels.BindWithin | src/seplog/mc_core.ml:261-271 | binding the arguments of a predicate stays within the variables of the rule and the values of the interpretant |
| FiniteModels.BindExact | src/seplog/mc_core.ml:261-271 | arguments bind exactly if `nil` meets its own value only, and then each variable has the value of its last occurrence |
| FiniteModels.GenerateModelExact | src/seplog/mc_core.ml:540-545 | the model of an interpretant has such a stack and the same heap, and exists exactly if the stack passes the test |
| FiniteModels.CrossWithin | src/seplog/mc_core.ml:574-582 | the product of two models stays within the variables, the values and the heap |
| FiniteModels.CrossModelExact | src/seplog/mc_core.ml:574-582 | a product exists exactly for disjoint heaps and agreeing stacks that pass the test, and binds and holds what either model does |
| FiniteModels.RulesAreConfined | src/seplog/mc_core.ml:882-962 | rules that generate, merge and saturate models as the source does never leave the finitely many models over their variables, the values at hand and the heap |
| FiniteModels.FiniteClosedSet | src/seplog/mc_core.ml:964-1025 | so they have a finite closed set of facts, which is what generation needs to end |
| StackConstraints.CrossEqualExact | src/seplog/mc_core.ml:367-382 | the test of one equality raises exactly if one stack binds both sides and the other none, and otherwise tells whether the merged stack satisfies it |
| StackConstraints.CrossDifferentExact | src/seplog/mc_core.ml:392-407 | the test of one disequality tells whether the merged stack satisfies it |
| StackConstraints.CrossSatisfiesExact | src/seplog/mc_core.ml:356-416 | the documented postcondition holds exactly unless such an equality comes before every violated one, and then the test raises |
| StackConstraints.EmptyStackRaises | src/seplog/mc_core.ml:832-842 | it raises on the first product with the empty stack for every stack that binds both sides of the first equality |
| SemiNaive.Generator.Generate | src/seplog/mc_core.ml:992-1025 | terminates whenever some finite set of facts is closed under the rules, with the least such set |
| SchorrWaite.PushKeeps | benchmarks/slmc/programs/schorr_waite.c:50-59 | a push keeps the stack threaded through reversed pointers, and all marked nodes reachable |
| SchorrWaite.SwingKeeps | benchmarks/slmc/programs/schorr_waite.c:40-49 | a swing restores the left pointer, and the left part is fully explored |
| SchorrWaite.PopKeeps | benchmarks/slmc/programs/schorr_waite.c:34-39 | a pop restores the right pointer, and the node's children are both marked |
| SchorrWaite.Push | benchmarks/slmc/programs/schorr_waite.c:50-59 | the pointer writes of a push change that node only |
| SchorrWaite.Swing | benchmarks/slmc/programs/schorr_waite.c:40-49 | the pointer writes of a swing rotate the three pointers |
| SchorrWaite.Pop | benchmarks/slmc/programs/schorr_waite.c:34-39 | the pointer write of a pop puts the right child back |
| SchorrWaite.Advance | benchmarks/slmc/programs/schorr_waite.c:29-60 | one round keeps the invariant and makes the configuration smaller |
| SchorrWaite.Finished | benchmarks/slmc/programs/schorr_waite.c:29-63 | with the stack empty, the current node is the root again, all pointers are back and the marks are right |
| SchorrWaite.Mark | benchmarks/slmc/programs/schorr_waite.c:21-63 | terminates on every finite unmarked graph, marks exactly the nodes reachable from the root, and restores every pointer |
| Composite.Node.constructor | benchmarks/slmc/programs/composite4.c:92-106 | a leaf with the given parent and count 1 |
| Composite.CreateNode | benchmarks/slmc/programs/composite4.c:92-106 | a new leaf that knows its parent, with all other nodes unchanged |
| Composite.CreateTree | benchmarks/slmc/programs/composite4.c:108-118 | a one-node tree in order |
| Composite.SubtreeGetCount | benchmarks/slmc/programs/composite4.c:120-131 | the stored count, and 0 for no node |
| Composite.Recount | benchmarks/slmc/programs/composite4.c:139-156 | no addition overflows; the new count, or failure exactly when it exceeds the largest `int` |
| Composite.CountIsSize | benchmarks/slmc/programs/composite4.c:133-162 | where nodes agree with their children, a count is the number of nodes with that ancestor |
| Composite.FixupAncestors | benchmarks/slmc/programs/composite4.c:133-162 | the walk up terminates and repairs all counts, and it gives up exactly when the tree has more nodes than the largest `int` |
| Composite.TreeAddLeft | benchmarks/slmc/programs/composite4.c:164-196 | succeeds exactly when the larger tree can be counted; then links agree both ways, every count is right, and the only new link is to the new leaf |
| Composite.TreeAddRight | benchmarks/slmc/programs/composite4.c:198-228 | the same on the other side |
| Composite.SizedCounts | benchmarks/slmc/programs/composite4.c:120-228 | in every tree these operations make, each node's count is the size of its subtree |
| LockCoupling.TestDecides | benchmarks/slmc/programs/lcset.c:517-606 | at the located node, the next key answers membership in the abstract set |
| LockCoupling.LinkStep | benchmarks/slmc/programs/lcset.c:608-730 | the store that links a node adds its key to the set and keeps the chain strictly increasing |
| LockCoupling.UnlinkStep | benchmarks/slmc/programs/lcset.c:732-916 | the store that unlinks a node removes its key and keeps the chain |
| LockCoupling.FreeStep | benchmarks/slmc/programs/lcset.c:732-916 | a freed node is held by nobody else and the set is unchanged |
| LockCoupling.StepKeepsInv | benchmarks/slmc/programs/lcset.c:268-916 | every step of every thread keeps the chain, lock ownership and the agreement of each thread with the history |
| LockCoupling.RunInv | benchmarks/slmc/programs/lcset.c:268-916 | so does every run from a created set |
| LockCoupling.LinearizableAndSafe | benchmarks/slmc/programs/lcset.c:268-916 | in every reachable state each call has answered what the sequential set answers at one step inside the call, no thread is about to touch a freed node, the chain is strictly increasing, and no node leaks |
| LockCoupling.WaitsUpwards | benchmarks/slmc/programs/lcset.c:453-507 | a thread waits only for a node whose key is above all it holds |
| LockCoupling.NotWaitingMoves | benchmarks/slmc/programs/lcset.c:268-916 | an unfinished thread that waits for no held lock can take a step |
| LockCoupling.DeadlockFree | benchmarks/slmc/programs/lcset.c:268-916 | in every reachable state with an unfinished call some unfinished thread can take a step |
| LockCoupling.OwnStepAdvances | benchmarks/slmc/programs/lcset.c:268-916 | every step of a busy thread brings it closer to its return, by the key of the node it holds and its place in the program |
| LockCoupling.CallsAreBounded | benchmarks/slmc/programs/lcset.c:268-916 | whatever the other threads do, a call takes fewer own steps than four times the distance of its key from the least one, and seven |
| LockCoupling.CallsRunOut | benchmarks/slmc/programs/lcset.c:268-916 | without new calls all steps together are bounded, so that with freedom from deadlock all calls return |
| LockFreeQueue.PublishShape | benchmarks/slmc/programs/queue.c:217-314 | a successful compare-and-store appends the node to the queue order even while the back part is being reversed and even if addresses were reused |
| LockFreeQueue.EnqKeepsInv | benchmarks/slmc/programs/queue.c:217-314 | every step of every enqueuer keeps the invariant |
| LockFreeQueue.EmptyStep | benchmarks/slmc/programs/queue.c:556-646 | when the loaded `last` equals `middle`, the abstract queue is empty at that load |
| LockFreeQueue.CaptureStep | benchmarks/slmc/programs/queue.c:556-646 | otherwise all nodes published so far become the part to be reversed |
| LockFreeQueue.ReverseStep | benchmarks/slmc/programs/queue.c:556-646 | each store of the loop turns one more link forwards and leaves the order of the elements alone |
| LockFreeQueue.SetFirstStep | benchmarks/slmc/programs/queue.c:556-646 | moving `first` drops exactly the old dummy |
| LockFreeQueue.DeqKeepsInv | benchmarks/slmc/programs/queue.c:556-646 | every step of the dequeuer keeps the invariant |
| LockFreeQueue.LinearizableAndSafe | benchmarks/slmc/programs/queue.c:217-646 | in every reachable state one list of nodes, linked forwards and backwards as `middle` and the place of the dequeuer say, holds the successful-store order without the dequeued prefix, every other cell is owned by a call in progress, each call answers like a sequential queue at one step inside the call, and no access is to freed memory |
| LockFreeQueue.RestingQueue | benchmarks/slmc/programs/queue.c:217-646 | between dequeues the chain from `first` forwards to `middle` followed by the reversed chain from `last` to `middle` is the queue, and there are no other cells but those of enqueues in progress |
| LockFreeQueue.SomeEnqueuerProgresses | benchmarks/slmc/programs/queue.c:217-314 | when a compare-and-store is about to fail, another enqueuer has stored since the attempt loaded `last` |
| LockFreeQueue.AttemptStores | benchmarks/slmc/programs/queue.c:217-314 | if `last` does not change from the load to the third step of an attempt, that step stores the node |
| LockFreeQueue.EnqueueBound | benchmarks/slmc/programs/queue.c:217-314 | an enqueue takes at most five own steps, and three more for each store of another enqueuer meanwhile |
| LockFreeQueue.EnqNeverStuck | benchmarks/slmc/programs/queue.c:217-314 | in every reachable state an enqueuer can take its next step |
| LockFreeQueue.NeverStuck | benchmarks/slmc/programs/queue.c:556-646 | in every reachable state the dequeuer can take its next step |
| LockFreeQueue.WaitFree | benchmarks/slmc/programs/queue.c:556-646 | whatever the enqueuers do, one dequeue takes at most twice the length of the queue at some moment of the call, and eleven, of its own steps |

## Left out

- The Buchi inclusion test of the Spot library is a parameter of the checker that answers inclusion of the two languages; its internals and the decision diagrams behind vertex labels are not modelled.
- The interning of trace-automaton states by address is not modelled; states are values.
- The floating-point logarithm that sizes the labels is taken as the exact rounded-up binary logarithm.
- The proof check is a pure function inside rules, which the contract of the cached checker justifies; cached results from calls with another initial node are not modelled.
- Soundness speaks of ranks in the naturals, where the source speaks of ordinals for tags.
- SeqTactics.RepeatSound: repetition runs on fuel, since it does not terminate in general; what is proved of its results holds whenever some amount of fuel is enough, and `RepeatRunsOut` says how much is.
- Prover.LinearIsFound: for rules with back-links completeness is stated for derivations without branching; with branching it is false, as `SearchLimits.BacklinksCanBeMissed` shows. Without back-links `Completeness.SearchIsComplete` is exact.
- Descriptions of rule applications, statistics, printing, parsing and the command line are not modelled, except that descriptions are carried along.
- `Proof.extract_subproof`, abduction, the first-order and program-verification instances and the SMT-LIB front end are not modelled.
- `Uf.remove`, `Uf.diff` and unification are not modelled.
- Points-to atoms, predicates and projections of symbolic heaps are not modelled; partitions concern equalities and disequalities only.
- In the fixpoint engine, generating, merging and saturating models are functions of the rule, which do not raise, and hash tables of interpretants are sets.
- SemiNaive.Generator.Generate: the finite closed set is a ghost argument; `FiniteModels.FiniteClosedSet` supplies it.
- FiniteModels.RulesAreConfined: saturation is known by the values and the heap of what it yields; an argument list of the wrong length, on which the source raises, gives no model.
- Schorr-Waite and the composite tree carry a ghost picture of their nodes as a parameter; building random trees for the benchmark runs is left out.
- Allocation failure, which aborts the C programs, is not modelled.
- In the concurrent programs, writes to memory that is not yet shared are merged with the allocation, memory is sequentially consistent, and disposing of a whole set or queue is left out.
- `tree_get_parent` and the other accessors of the composite tree, which only read one field, are left out.
