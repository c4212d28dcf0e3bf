# Verified model of the FERP checker and certificate extractor

`ferpcheck` checks FERP proofs (refutations of quantified Boolean formulas by expansion and
resolution, and the dual proofs of true formulas), and `ferpcert` turns a refutation into an
and-inverter circuit that answers for the universal player. The repository brings along the AIGER
library and the Glucose SAT solver. This project models the parts of all three whose correctness is
not visible in the code, and proves what they are for.

- **Formulas and their meaning** (`Literals`, `Qbf`, `Formula`): truth as a game, strategies as
  Skolem or Herbrand functions, and the parser's normalisation of clauses and prefix.
- **The proof checker** (`Resolution`, `FerpProof`, `NorProof`, `FerpManager`, `FerpLimits`):
  acceptance of a refutation means that the formula, with the clauses as they were given, is false;
  acceptance of the dual proof means that it is true. Both need premises that the code does not look
  at; for complete annotations and acyclic antecedents of refutations, and for helper clauses and the
  empty clause of dual proofs, there is a proof that is accepted wrongly without the premise.
- **The extraction** (`Aig`, `ExtractTheory`, `ExtractRuns`, `ExtractMove`, `ExtractSteps`,
  `ExtractBlocks`, `Certificate`, `Extraction`, `ExtractLimits`): the gate builder, the tables of
  literals that are overwritten block by block, what they mean under every input, and exactly when
  the first move of the circuit wins.
- **AIGER** (`AigerCycles`, `AigerCircuit`, `AigerPrune`, `AigerReencode`, `AigerNormal`,
  `AigerCodec`): cycle detection, pruning, re-encoding and the binary section of gates.
- **Glucose** (`SolverTypes`, `SolverState`, `SolverNogoods`, `SolverPropagation`,
  `SolverAnalysis`, `SolverImplications`, `SolverRedundancy`, `SolverLearning`, `Solver`):
  watched-literal propagation, conflict analysis with its first unique implication point,
  minimisation and learning, up to the answers of a search; and the preprocessor (`Subsumption`,
  `SubsumptionRuns`, `Elimination`, `ElimLimits`, `ElimStack`, `SimpState`, `SimpAdding`,
  `SimpLevels`, `SimpRounds`, `SimpSolver`, `SimpLimits`): subsumption, variable elimination and the
  reconstruction of models.
- **Clause sharing** (`ClauseRing`): the ring buffer with its cursors and counters.

Code that changes objects is modelled by classes with the same fields; loops stay loops. What the
methods compute is stated by functions and predicates on values, and the theorems are lemmas about
those. `dafny verify dfyconfig.toml` checks everything.

## Findings

Places where the code does not meet what one would expect of it, each with an input that shows it and
the condition under which it is right.

- **Annotations may stop short** (FerpManager.cpp:201-217). Only the union of the annotations of a
  leaf is compared with the clause. `FerpLimits.AnnotationsMustCover` gives an accepted refutation of
  a true formula. The check is sound if the annotation of every copy decides all universal variables
  left of its original (`Covers` in `FerpProofs.RefutationSound`).
- **Clauses may be resolved from themselves** (FerpManager.cpp:477 has cycle detection as a todo).
  `FerpLimits.AntecedentsMustNotLoop` gives an accepted refutation of a true formula whose annotations
  are complete. The check is sound if some rank decreases from every clause to its antecedents
  (`Acyclic`); forward references alone do no harm.
- **Helpers may stand for nothing** (FerpReader.cpp:197-222, FerpManager.cpp:248-254). A helper clause
  that names no literal passes, and `FerpLimits.HelpersMustStandForSomething` gives a proof of a
  false formula for which, with any truthful solver, every test holds after which `checkSAT` returns
  0. Nor does `checkSAT` look for an empty clause (FerpManager.cpp:122-151): without clauses
  everything passes (`FerpLimits.EmptyClauseMustBeThere`). The dual check is sound if every helper
  clause names something its helper stands for (`FromRule`), the antecedents are acyclic, annotations
  reach far enough, and there is an empty clause: this is `DerivesEmpty` in
  `FerpManagers.FerpManager.CheckSAT`.
- **The extraction reads one existential block per universal block** (FerpManager.cpp:649). The first
  move of the circuit wins for every checked refutation and every choice of the existential player if
  all existential variables before the first processed universal block stand in the block directly
  before it, or none follows it (`Certificates.FirstMoveWins`). In all other cases
  (`ExtractLimits.ApartOrWins`) there is a checked refutation for which the circuit loses its first
  move, whatever else the prefix holds (`ExtractLimits.ApartChecked`, `ExtractLimits.ApartLoses`,
  `ExtractLimits.LosingCertificate`). The parser does produce such prefixes, as neighbouring
  existential blocks are not merged (Formula.cpp:70-104).
- **An unused copy may break the assertion on the first block** (FerpManager.cpp:608-609).
  `ExtractLimits.SpareCopiesBreakFirstBlock` gives an accepted refutation that declares a copy with
  the other sign and does not use it. If all declared copies occur in leaves, the assertion holds
  (`ExtractLimits.DecisiveWhenUsed`).
- **A conflict in a binary clause leaves the propagation queue non-empty**
  (glucose-syrup/core/Solver.cc:1049-1051), against the comment at glucose-syrup/core/Solver.cc:1028.
  After a conflict the queue is empty exactly if the conflict clause has more than two literals, and
  it always is if no binary clause is attached (`Solvers.Solver.Propagate`).
  `Solvers.BinaryConflictLeavesQueue` is an example, and `Solvers.ReachConflict` reaches it.
- **Level 0 may hold a literal of an eliminated variable**
  (glucose-syrup/simp/SimpSolver.cc:612-635), because `eliminateVar` adds resolvents, and so
  propagates, while the clauses of the variable are still attached. This never happens if no clause
  too long for subsumption has a resolvent short enough for elimination: `sub-lim` is -1, or `cl-lim`
  is not -1 and at least two below `sub-lim`, where a `sub-lim` under 2 counts as 2
  (`SimpLevels.Safe`, `SimpSolvers.SimpSolver.Eliminate`); the defaults, 1000 and 20, are of this
  kind. For all other limits there are clauses with which it does happen, for every `grow` from -2 on
  (`SimpLimits.EliminatedAtLevelZero`). It does no harm: reconstruction is proved with such literals
  present.

## Model

| member | source | states |
|---|---|---|
| `Qbf.StrategyIffWins` | FerpManager.cpp:153-176 | Either player wins the game on a prefix with distinct variables exactly if a family of Skolem (or Herbrand) functions of the opponent's earlier variables satisfies (or falsifies) the matrix; the meaning the soundness theorems are stated in. |
| `Formulas.Formula.AddClause` | Formula.cpp:26-68 | A tautology changes nothing. Any other clause is appended as a pair of existential and universal literals with exactly the literals given, in strictly increasing variables; variables never quantified become free variables of the first block. The invariant keeps the matrix equivalent to the clauses as given. |
| `Formulas.Formula.AddQuantifier` | Formula.cpp:70-104 | Fails exactly if a variable is repeated or was quantified before; otherwise the block is appended, or merged into the first block if it is the first quantifier and existential. |
| `Formulas.Formula.Finalise` | Formula.cpp:106-147 | The pending first block is dropped if it is empty and not the only one, depths follow, and the bound variables in order, with matrix and given clauses, stay the same. |
| `Formulas.Formula.Quantify` | Formula.cpp:156-171 | Fails exactly for a quantified variable; otherwise that variable, and no other, gets the depth. |
| `Formulas.Formula.AddFreeVar` | Formula.cpp:149-154 | The variable joins the first block with depth 0, and no other depth changes. |
| `Resolution.ResolutionSound` | FerpManager.cpp:394-465 | Whatever the three vectors are, sorted or not, an accepted resolvent is true wherever both parents are. |
| `Resolution.ResolutionExact` | FerpManager.cpp:394-465 | For sorted parents without opposite literals and a strictly sorted clause, the two-pointer walk accepts exactly if the parents clash on one literal only and the clause is the resolvent as a set. |
| `Resolution.ResolutionCodes` | FerpManager.cpp:394-478 | For sorted parents and any clause, what each of the codes 6 to 12 says: the clause lacks a literal on which the parents do not clash, the first one being in both (8), in the first parent only with (6) or without (9) a greater variable in the second, or in the second only (7, 10); it has all of them in front and goes on (11); or it is right, but the parents do not clash exactly once (12). |
| `FerpManagers.FerpManager.CheckResolution` | FerpManager.cpp:394-465 | The loops over both parents and the clause, with an unknown antecedent id read as the empty dummy clause, give the verdict that the two theorems above are about. |
| `FerpManagers.FerpManager.CheckExpansionUNSAT` | FerpManager.cpp:178-220 | The verdict on a leaf: 1 no such clause, 2 and 3 the originals are not the existential literals as multisets, 4 the annotations disagree, 5 a universal literal is not falsified by them, else 0. |
| `FerpManagers.FerpManager.CheckRedundant` | FerpManager.cpp:467-512 | 13 without an empty clause, 14 exactly if some clause is not reachable from it over antecedents, else 0. |
| `FerpManagers.FerpManager.AddVariables` | FerpManager.cpp:61-76 | Succeeds exactly if no copy is repeated or known; then each new copy has its original and the annotation, and old copies keep theirs. |
| `FerpManagers.FerpManager.AddClause` | FerpManager.cpp:78-98 | 1 repeated id, 2 undeclared copy in a refutation, 3 second empty clause; otherwise the clause, sorted in place, and its antecedents are appended under its id, and an empty one becomes the root. |
| `FerpProofs.ValuationAgrees` | FerpManager.cpp:178-220 | Under the valuation that a strategy gives the copies, a copy is true exactly if its original is true in the play against its annotation. |
| `FerpProofs.LeafTrue` | FerpManager.cpp:178-220 | A leaf that passes is true under the valuation made from any winning existential strategy. |
| `FerpProofs.RefutationSound` | FerpManager.cpp:153-220 | If all clauses of a trace pass, an empty clause is there, antecedents are acyclic (forward references allowed) and annotations decide all universal variables to the left, then no Skolem functions satisfy the matrix and the formula is false. |
| `FerpManagers.FerpManager.CheckUNSAT` | FerpManager.cpp:153-176 | Returns the code of the first clause that fails its rule; if none does, 13 without an empty clause and 14 if some clause does not contribute to it; and 0 exactly for accepted proofs. With acyclic antecedents and covering annotations, 0 means that the formula as given is false. |
| `FerpLimits.AnnotationsMustCover` | FerpManager.cpp:201-217 | A refutation that passes, with ordered antecedents, of a formula that is true: completeness of annotations cannot be dropped. |
| `FerpLimits.AntecedentsMustNotLoop` | FerpManager.cpp:467-512 | A refutation that passes, with complete annotations, of a formula that is true: two pairs of clauses are resolved from each other. |
| `FerpManagers.FerpManager.ReadClauseSAT` | FerpReader.cpp:123-229 | A clause of the resolution part is filed by its position, one without positive helper as a nor-clause with its originals in reading order, any other as extending what its last positive helper stands for; nothing else is filed, and the trace grows by the clause; it fails exactly for a number already used or a second empty clause. |
| `FerpManagers.FerpManager.CheckExpansionSAT` | FerpManager.cpp:222-298 | The walk over a nor-clause and its originals, with the assignment vector growing on the way, gives the verdict that the theorems below are about. |
| `FerpManagers.FerpManager.CheckElimination` | FerpManager.cpp:300-392 | The elimination of the remaining matrix clauses, first by the assignment and then by the answer of the solver, gives that verdict's second half, for every solver. |
| `NorProofs.AcceptedNorCertified` | FerpManager.cpp:222-392 | Whatever the solver answers, a nor-clause that is accepted has a consistent existential assignment that extends the annotations, under which each matrix clause has a true existential literal, or is referenced with all existential literals false and a universal part that is exactly the negation of its literal or helper group. |
| `NorProofs.NorExact` | FerpManager.cpp:222-392 | With a truthful solver, a nor-clause is accepted exactly if such an assignment exists. |
| `NorProofs.NorTrue` | FerpManager.cpp:222-392 | A certified nor-clause is true under the valuation that any winning universal strategy gives copies and helpers. |
| `NorProofs.NorSound` | FerpManager.cpp:122-151 | With certified nor-clauses, checked acyclic resolutions, proper helper clauses and an empty clause, no Herbrand functions falsify the matrix and the formula is true. |
| `FerpManagers.FerpManager.CheckSAT` | FerpManager.cpp:122-151 | Returns the code of the first nor-clause that is not accepted, else that of the first listed resolution that does not check, else 0; then the nor-clauses are certified, and if moreover the trace derives the empty clause from proper clauses, the formula as given is true. |
| `FerpManagers.FerpManager.Check` | FerpManager.cpp:113-120 | Either check, as the proof claims, with the code and the conclusion of that check. |
| `FerpLimits.HelpersMustStandForSomething` | FerpManager.cpp:222-298 | A proof of a false formula, with an empty clause, for which with any truthful solver all nor-clauses are accepted and all listed resolutions check, which is exactly when `checkSAT` returns 0: one helper clause names nothing. |
| `FerpLimits.EmptyClauseMustBeThere` | FerpManager.cpp:122-151 | A proof without clauses of a false formula: nothing is left to test, and all other premises hold. |
| `Aigs.PackingIsInjective` | FerpManager.h:111-118 | The 64-bit key of a gate determines its two 32-bit operands. |
| `Aigs.AigBuilder.MakeAND` | FerpManager.h:135-183 | Under every input the result is the conjunction of the operands. Where a constant, equal or opposite operands or a redundancy make a gate unnecessary, the result is false or an operand; else it is the cached gate of the operands in either order; and only else one gate, for just these operands, is appended to list and caches. The graph stays acyclic, and both caches agree with the gates. |
| `Aigs.AigBuilder.MakeOR` | FerpManager.h:185-188 | Under every input the result is the disjunction, with the same invariants kept. |
| `Aigs.AigBuilder.MakeITE` | FerpManager.h:120-133 | Under every input the result is the choice between the two branches, with the same invariants kept. |
| `Aigs.AigBuilder.RedundantImplies` | FerpManager.cpp:852-872 | The verdict of the recursive search, which terminates by rank, is a true implication, or a true contradiction, under every input. |
| `Aigs.AigBuilder.RedundantExact` | FerpManager.cpp:852-872 | The search gives up exactly if neither the literal nor its negation is below the other one through cached, unnegated gates, and what it reports to have found is there. |
| `Aigs.AigBuilder.CheckOscillation` | FerpManager.cpp:874-889 | Terminates with no gate on its own path and with every output's whole cone visited. |
| `Aigs.AigBuilder.CheckOscillationHelper` | FerpManager.cpp:891-912 | The depth-first visit leaves the path as it was and makes everything below the current gate permanent. |
| `Extraction.Extractor.CollectPivots` | FerpManager.cpp:804-834 | Leaves get pivot 0, every inner node the variable of the one literal its parents clash on. |
| `Extraction.Extractor.FirstClash` | FerpManager.cpp:816-831 | The walk over two parents finds a clashing variable exactly if there is one. |
| `Extraction.ClashIsPivot` | FerpManager.cpp:804-834 | In a checked refutation any clash is the pivot on which the node is the resolvent of its parents: the two walks agree. |
| `Extraction.Extractor.CollectIndicators` | FerpManager.cpp:836-850 | For each annotation literal, exactly the copies annotated with it. |
| `ExtractTheory.BlockKeeps` | FerpManager.cpp:620-748 | One universal block keeps the invariant under every existential assignment: active copies are unassigned variables of their clause, a satisfied node has nothing active, and it has a true assigned literal. |
| `ExtractRuns.RunInvariant` | FerpManager.cpp:532-748 | For every assignment and after every block of the whole loop: the invariant holds and the root is never satisfied; a leaf is satisfied exactly if one of its literals at a depth read so far is true, and else just its unassigned variables are active; a clause that was satisfied stays so and nothing becomes active again; and a resolvent becomes satisfied, or inherits activity from both parents, the first or the second, as the rules say that are written above the two loops. |
| `ExtractRuns.RunAgrees` | FerpManager.cpp:620-748 | After every block, all copies cumulatively active at a node are annotated alike on that block. |
| `ExtractRuns.RunSame` | FerpManager.cpp:620-748 | The tables after a block are a function of the existential choices in the blocks directly before the universal blocks processed so far. |
| `ExtractRuns.FirstBlockDecided` | FerpManager.cpp:595-618 | If all clauses contribute and all annotated copies occur, each variable of a universal first block is annotated in exactly one polarity: the assertion before the constant outputs holds. |
| `ExtractLimits.DecisiveWhenUsed` | FerpManager.cpp:595-618 | If moreover all declared copies occur in leaves, the assertion holds for the table of all copies that the code looks into, as the extraction demands. |
| `ExtractLimits.SpareCopiesBreakFirstBlock` | FerpManager.cpp:595-618 | An accepted, ordered refutation with exact annotations that violates the assertion: one declared copy is not used. |
| `ExtractTheory.UsedDerives` | FerpManager.cpp:532-734 | For the first processed block and any assignment, a valuation that makes the active literals of the leaves used by a node true makes those of the node true. |
| `ExtractTheory.RestrictionDerives` | FerpManager.cpp:532-734 | So a valuation satisfying the active literals of all leaves that are not satisfied satisfies those of every node that is not satisfied: restriction preserves derivability. |
| `ExtractMove.MoveWins` | FerpManager.cpp:620-793 | From the position after a move that follows the annotations active at the root, the formula that remains is false. |
| `ExtractBlocks.ProcessLeaf` | FerpManager.cpp:636-671 | The loops over a leaf's literals install literals that mean the leaf's new entries under every input, and leave all other rows. |
| `ExtractBlocks.ProcessNode` | FerpManager.cpp:688-747 | Conditions, top entry and both rows of an inner node, built from gates and installed in place, mean the node's new entries under every input; with `ExtractRuns.RunInvariant`: satisfied if it was or if nothing can be inherited, and otherwise what the chosen parents have. |
| `ExtractBlocks.BlockTables` | FerpManager.cpp:620-748 | Everything one block, or the preparation before the first one, does to the tables of literals, as a statement about their values under every input, in any order the repeated passes visit the nodes. |
| `Extraction.Extractor.Extract` | FerpManager.cpp:514-797 | The extraction of a checked refutation ends with a circuit whose tables, outputs and gates satisfy all that the theorems about circuits assume, among them `Certificates.TablesHold` for every input and every block; its inputs are the existential variables, and its outputs the universal variables of all blocks but the last, in order. |
| `Certificates.TablesHold` | FerpManager.cpp:532-748 | In such a circuit, for every existential assignment and after every block, the values of the table literals keep the invariant and follow the rules: what is satisfied stays so, a leaf is satisfied exactly if one of its literals read so far is true, and the root never is. |
| `Certificates.MoveReads` | FerpManager.cpp:642-655 | The outputs of a block depend only on the existential blocks directly before it and before the blocks processed earlier. |
| `Certificates.RespectsPrefix` | FerpManager.cpp:595-793 | Two inputs that agree on the existential variables before a universal block give all its outputs the same values, over all table updates and cached gates. |
| `Certificates.CircuitPlays` | FerpManager.cpp:750-793 | After every block, the outputs agree with the annotations of all copies cumulatively active at the root. |
| `Certificates.FirstMoveWins` | FerpManager.cpp:595-793 | If no existential variable stands before the block directly before the first processed universal block, or none follows that block, then for every existential choice the formula that remains after the circuit's moves up to that block is false. |
| `ExtractMove.FollowingWins` | FerpManager.cpp:178-220 | A universal move that agrees with all annotations of earlier blocks leaves a false formula: otherwise all leaves, and so the empty clause, would be true. |
| `ExtractLimits.ApartOrWins` | FerpManager.cpp:642-655 | That premise holds exactly if there are no three variables, existential, universal of the block and existential, of which the first stands two or more blocks before the second and the third follows. |
| `ExtractLimits.ApartChecked` | FerpManager.cpp:642-655 | For every prefix with an existential variable two or more blocks before a universal one and an existential one after it, a refutation that is accepted, ordered, exactly annotated and decisive on the first block. |
| `ExtractLimits.ApartLoses` | FerpManager.cpp:642-655 | Any circuit extracted from it loses the first move for some existential choice: the formula that remains is true. |
| `ExtractLimits.LosingCertificate` | FerpManager.cpp:514-797 | The extraction of that refutation ends with such a circuit, and with the choice that beats it. |
| `AigerCycles.NoCycle` | aiger.c:809-885 | A graph whose gates have all been finished in depth-first order has no cycle. |
| `AigerCircuits.Aiger.CheckForCycles` | aiger.c:809-885 | Started with clear marks, it terminates and reports an error exactly if the gates have a cycle; without error all gates have been finished in topological order. The stacked gates are at all times the current path. |
| `AigerCircuits.Aiger.Prune` | aiger.c:887-971 | Keeps exactly the gates reachable from the outputs, in their order in consecutive slots, with every kept gate's index pointing at its slot and all marks clear again. |
| `AigerPruning.PruneKeepsOutputs` | aiger.c:887-971 | On an acyclic circuit, every output has the same value before and after, for all values of what no gate defines. |
| `AigerPruning.EvaluateModels` | aiger.c:887-985 | Every acyclic circuit has a valuation of its gates for every choice of the other values, so the theorem is never empty. |
| `AigerCodecs.WriteDelta` | aiger.c:1036-1055 | The bytes written are a delta: all but the last have the top bit, the last has not and is 0 only if it is the only one, and their low seven bits, each 128 times those before, make up the number. |
| `AigerCodecs.ReadDelta` | aiger.c:2374-2417 | Accepts exactly what has that shape with at most six bytes, the sixth below 8, and gives what the bytes make up modulo 2^32; fewer than six bytes that all go on are an unexpected end, and any other sixth byte is an invalid code. |
| `AigerCodecs.EncodeWritten` | aiger.c:1036-1055 | The recursive encoder writes such bytes for every number. |
| `AigerCodecs.DecodeAnswers` | aiger.c:2374-2417 | The recursive decoder gives such an answer for every sequence of bytes. |
| `AigerCodecs.DeltaRoundTrip` | aiger.c:1036-1055 | Reading inverts writing for every 32-bit value and takes exactly the bytes written, whatever follows. |
| `AigerCodecs.WriteAnds` | aiger.c:1781-1798 | The section is, gate by gate, the delta of left-hand side and first operand and then that of the two operands. |
| `AigerCodecs.ReadAnds` | aiger.c:2419-2457 | The gates read have left-hand sides that count up and operands at the distances that the bytes make up; reading stops behind the last gate, or at the first one for which a delta is cut off, invalid, or greater than the literal it is subtracted from. |
| `AigerCodecs.AndsRoundTrip` | aiger.c:1781-1798 | For every re-encoded circuit, reading what was written gives the same gates and takes exactly those bytes. |
| `AigerNormalising.Circuit.IsReencoded` | aiger.c:1393-1437 | True exactly for the normal form that the code tests: inputs, latches and gates numbered consecutively, and the literals of each gate in descending order, where equality is not excluded. |
| `AigerNormalising.Encoder.ReencodeLit` | aiger.c:1450-1563 | The explicit-stack search terminates, gives new codes in topological order to everything the literal depends on and to nothing else, keeps all old codes, and returns the literal's code. |
| `AigerNormalising.Circuit.Reencode` | aiger.c:1564-1756 | The circuit is changed exactly if it is not in normal form, and ends in normal form. The gates left are exactly those that an output, a next state or a reset depends on, and gates, outputs, next states and resets are those the code table gives. |
| `AigerNormalising.RootsKeepValues` | aiger.c:1564-1756 | Every output, next state and reset has the same value before and after, for all values of inputs and latches. |
| `AigerNormalising.NothingReachedDropped` | aiger.c:1564-1756 | Only gates that no root depends on are dropped. |
| `AigerReencoding.ReencodePreserves` | aiger.c:1450-1563 | The new code of a literal has the value the literal had. |
| `AigerReencoding.NewGatesNormal` | aiger.c:1564-1756 | The new gates count up from the inputs and latches, with operands below and descending. |
| `AigerReencoding.SortedRecodedIsNew` | aiger.c:1664-1693 | Dropping gates without a code and sorting the rest by left-hand side gives the gates in the order they were coded. |
| `SolverTypes.ToLitInverts` | glucose-syrup/core/SolverTypes.h:90-99 | The integer code of a literal determines it. |
| `SolverStates.Complete` | glucose-syrup/core/Solver.cc:1030-1152 | From the invariant on watches and blockers, with an empty queue: no attached clause is false, and none is unit with an unassigned literal. |
| `SolverStates.MoveWatcher` | glucose-syrup/core/Solver.cc:1110-1118 | Exchanging the watched false literal and moving the watcher to the other list keeps all lists exact. |
| `SolverStates.CutSettled` | glucose-syrup/core/Solver.cc:658-672 | Backtracking restores the invariant that a conflict left broken at the current level. |
| `Solvers.Solver.UncheckedEnqueue` | glucose-syrup/core/Solver.cc:1005-1010 | The literal becomes true at the current level with its reason, at the end of the trail. |
| `Solvers.Solver.PropagateBinary` | glucose-syrup/core/Solver.cc:1043-1056 | All binary clauses of a literal are settled, or one of them is returned with both literals false. |
| `Solvers.Solver.PropagateLong` | glucose-syrup/core/Solver.cc:1058-1137 | The list of the literal is compacted in place; either all its clauses are settled, or a false one is returned with the queue moved to its end and no watcher lost. |
| `Solvers.Solver.Propagate` | glucose-syrup/core/Solver.cc:1030-1152 | Without conflict the queue is empty and no clause is false or unit; a conflict is a clause all false; in both cases clauses keep their literals, the trail only grows by forced literals, and the invariant holds up to the level before. After a conflict the queue is empty exactly if the clause has more than two literals, and always if there is no binary clause. |
| `Solvers.BinaryConflictLeavesQueue` | glucose-syrup/core/Solver.cc:1043-1056 | From the state in which a literal forces both values of another one by two binary clauses, propagation ends with a conflict and a queue that is not empty. |
| `Solvers.ReachConflict` | glucose-syrup/core/Solver.cc:1043-1056 | That state is reached by adding the two clauses and the literal. |
| `SolverPropagation.BinaryQueued` | glucose-syrup/core/Solver.cc:1043-1056 | A false binary clause has a literal whose negation is still in the queue: had it been taken out, its list would have made the other literal true. |
| `Solvers.Solver.CancelUntil` | glucose-syrup/core/Solver.cc:658-672 | Cuts the trail at the level, moves the queue to its end and restores the full invariant; for a level not below the current one nothing changes. |
| `Solvers.Solver.AttachClause` | glucose-syrup/core/Solver.cc:463-478 | The clause is put on the lists of the negations of its first two literals, on the binary ones if it has two. |
| `SolverNogoods.TrailImplied` | glucose-syrup/core/Solver.cc:735-920 | Every model of the clauses that agrees with the decisions up to a level agrees with all trail literals of that level. |
| `SolverNogoods.ResolveNogood` | glucose-syrup/core/Solver.cc:744-825 | In a set of variables on which no model agrees with the trail, a variable may be replaced by the others of its reason. |
| `SolverNogoods.MinimisedNogood` | glucose-syrup/core/Solver.cc:835-865 | If all left-out variables are justified by the set, the variables kept are such a set. |
| `SolverNogoods.BinaryNogood` | glucose-syrup/core/Solver.cc:614-653 | And so if one binary clause with the asserting literal implies each variable left out. |
| `SolverNogoods.NogoodClause` | glucose-syrup/core/Solver.cc:735-920 | The false literals over such a set form a clause that follows from all others. |
| `SolverAnalysis.UipLearnt` | glucose-syrup/core/Solver.cc:744-826 | When the count of open variables of the current level reaches one, the clause is a learnt clause with the negated literal in front. |
| `Solvers.Solver.FirstUIP` | glucose-syrup/core/Solver.cc:742-826 | Resolving back along the trail ends with a learnt clause whose variables are the ones marked as seen, and whose front variable is the first unique implication point: all ways from the conflict to the decision go through it, and through no later variable of the level. |
| `SolverImplications.LastIsFirst` | glucose-syrup/core/Solver.cc:742-826 | When one variable is left in front of the search, it is the first unique implication point of the conflict. |
| `SolverImplications.WayDown` | glucose-syrup/core/Solver.cc:1030-1152 | Since every reason has another literal of the same level, each variable has a way over earlier ones back to its decision. |
| `Solvers.Solver.LitRedundant` | glucose-syrup/core/Solver.cc:926-961 | True exactly if no chain of reasons from the literal, through literals not seen, meets a decision or a level outside of the filter; then everything visited is justified, and otherwise all marks are taken back. |
| `SolverRedundancy.NoEscape` | glucose-syrup/core/Solver.cc:926-961 | If all that was visited is justified and nothing visited stops the search, no chain of reasons escapes. |
| `SolverRedundancy.EscapesSame` | glucose-syrup/core/Solver.cc:835-865 | Marks that stay from earlier literals do not change the verdict on later ones: with them a chain escapes exactly if one did with the marks of the clause alone. |
| `Solvers.Solver.LevelBits` | glucose-syrup/core/Solver.cc:837-839 | Exactly the levels of the literals behind the first one pass the 32-bit filter, and those that differ from one of them by a multiple of 32. |
| `Solvers.Solver.Minimise` | glucose-syrup/core/Solver.cc:835-865 | The clause, compacted in place, is a learnt clause of the first literal and exactly those others that cannot be left out: without reason, or, in the deep mode, with a chain of reasons that escapes from the variables of the clause, or, in the simple mode, with a reason that has another variable above level 0. In the other modes all literals stay. |
| `Solvers.Solver.MinimiseBinary` | glucose-syrup/core/Solver.cc:614-653 | Flagging, unflagging by binary clauses and swapping to the end leaves a learnt clause of the first literal and exactly those others for whose negation there is no binary clause with the first literal. |
| `Solvers.Solver.BacktrackLevel` | glucose-syrup/core/Solver.cc:878-893 | The highest level of the other literals is found and put in the second place; 0 for a unit clause. |
| `SolverAnalysis.LearntEntailed` | glucose-syrup/core/Solver.cc:735-920 | A learnt clause follows from the clauses and the literals of level 0. |
| `Solvers.Solver.Analyze` | glucose-syrup/core/Solver.cc:735-920 | The clause is the first-UIP clause after both minimisations; it is entailed, false under the trail, has exactly one literal of the current level, in front, and the next-highest level, which is the level returned, in the second place; the front variable is the first unique implication point, and all marks are clear. |
| `Solvers.Solver.Learn` | glucose-syrup/core/Solver.cc:1538-1583 | Backtracking to the level, adding the clause or the fact, which is new, and enqueueing its front literal gives a state to propagate from, with the same models and the literal true. |
| `Solvers.Solver.Decide` | glucose-syrup/core/Solver.h:518 | A new level opened by a decision keeps the invariant. |
| `Solvers.Solver.Search` | glucose-syrup/core/Solver.cc:1463-1661 | For any decisions: the models are the same afterwards; true means that the assignment is a model, false that there is none. Every conflict but one that ends the search adds one clause or one new fact. True comes with fewer conflicts than the number given; the search gives up, back on level 0, only after that number, and after at most as many more as there can be levels then, as each of them takes back a level and no decision is made any more. |
| `SolverLearning.FullTrailModels` | glucose-syrup/core/Solver.cc:1643-1653 | A full trail with nothing to propagate is a model. |
| `SolverLearning.NoModel` | glucose-syrup/core/Solver.cc:1507-1510 | A conflict at level 0 refutes the clauses. |
| `Subsumption.CalcAbstraction` | glucose-syrup/core/SolverTypes.h:212-217 | The loop computes the union of one bit for each variable. |
| `Subsumption.VarsWithin` | glucose-syrup/core/SolverTypes.h:212-217 | If the variables of one clause occur in another, so do its bits, whatever the bits are. |
| `Subsumption.NeverRejected` | glucose-syrup/core/SolverTypes.h:478-490 | Size and bits never rule out a clause that subsumes or strengthens. |
| `Subsumption.CheckSubsumes` | glucose-syrup/core/SolverTypes.h:478-513 | For clauses in which no variable occurs twice: the undefined literal exactly for a subset, a literal exactly if it is the only one that occurs flipped, and the error otherwise. |
| `Subsumption.StrengthenedHolds` | glucose-syrup/core/SolverTypes.h:478-513 | Beside the strengthening clause, the shortened clause says the same as the longer one. |
| `SimpSolvers.SimpSolver.Propagate` | glucose-syrup/core/Solver.cc:1030-1152 | Propagation at level 0 in any order: clauses stay, models are the same, and it stops only where the clause looked at next is neither unit nor false, or at a conflict, which refutes the clauses. If no clause is overlooked, then at the end every clause is true or has two open literals. |
| `SimpSolvers.SimpSolver.StrengthenClause` | glucose-syrup/simp/SimpSolver.cc:277-329 | Exactly the literal is taken out and the clause queued and its list updated; a binary clause goes to level 0 and is propagated; the models are those of the shortened clause, and failure means that there are none. |
| `SimpSolvers.SimpSolver.BestVar` | glucose-syrup/simp/SimpSolver.cc:474-478 | A variable of the clause with a list no longer than those of the others. |
| `SimpSolvers.SimpSolver.BackwardSubsumptionCheck` | glucose-syrup/simp/SimpSolver.cc:442-506 | Ends with the queue and the literals of level 0 used up. Models are neither lost nor won, and failure means that there are none. No clause that was queued or has lost literals, and no literal of level 0 that was still to be looked at, subsumes or strengthens any live clause that was below the size limit. |
| `SubsumptionRuns.NextWorked` | glucose-syrup/simp/SimpSolver.cc:442-506 | One more entry keeps that: clauses tried before stay harmless while others shrink, those that shrink are queued again, and only short ones do. |
| `SubsumptionRuns.RunSettles` | glucose-syrup/simp/SimpSolver.cc:442-506 | After a finished run one of any two short clauses is harmless for the other, and all literals of level 0 are harmless for all short clauses, if this was so for those not queued before. |
| `SimpSolvers.SimpSolver.GatherTouchedClauses` | glucose-syrup/simp/SimpSolver.cc:393-419 | Exactly the live clauses with a touched variable are queued in addition, and no variable is touched afterwards. |
| `SimpSolvers.SimpSolver.Prepare` | glucose-syrup/simp/SimpSolver.cc:722-726 | Before variables are eliminated, no live clause below the size limit is subsumed, or can be strengthened, by any live clause or literal of level 0: what backward subsumption with the touched clauses is for. |
| `SimpAdding.TookCovers` | glucose-syrup/simp/SimpSolver.cc:236-254 | A clause that is harmful for the new one has touched variables only, so none is missed when the touched clauses are gathered. |
| `SimpSolvers.SimpSolver.AddClause` | glucose-syrup/simp/SimpSolver.cc:208-255 | A clause that is true at level 0, or a tautology, changes nothing; of any other, the open literals, each once, are appended, or assigned and propagated if there is only one. The models are those that satisfy the clause as well, failure means that there are none, and what backward subsumption has settled stays so. |
| `SimpSolvers.SimpSolver.AddOriginal` | glucose-syrup/simp/SimpSolver.cc:208-255 | A further clause of the formula, with repeated literals or without, also between eliminations, joins those that reconstruction has to satisfy. |
| `Elimination.Merge` | glucose-syrup/simp/SimpSolver.cc:333-359 | Fails exactly if the clauses clash on another variable, and otherwise gives the resolvent. |
| `Elimination.MergeSize` | glucose-syrup/simp/SimpSolver.cc:364-390 | Agrees with the other overload on failure and on the length. |
| `SimpSolvers.SimpSolver.WithinLimits` | glucose-syrup/simp/SimpSolver.cc:602-609 | The early exit is taken exactly if there are more resolvable pairs of clauses than clauses of the variable plus the growth allowed, or one of the resolvents is too long. |
| `SimpSolvers.SimpSolver.MkElimClause` | glucose-syrup/simp/SimpSolver.cc:560-581 | The stack grows by the clause with the variable's literal exchanged to the front, and its length. |
| `Elimination.SectionValue` | glucose-syrup/simp/SimpSolver.cc:616-624 | Read backwards, a section changes one variable only, and makes its stored literal true exactly if some stored clause needs it. |
| `Elimination.StoredHold` | glucose-syrup/simp/SimpSolver.cc:616-624 | After reading a section all stored clauses hold. |
| `Elimination.OthersHold` | glucose-syrup/simp/SimpSolver.cc:616-632 | And all clauses of the other side hold, if the resolvents did. |
| `SimpStates.SectionRestores` | glucose-syrup/simp/SimpSolver.cc:586-645 | A model of what is left after a step becomes a model of what was there before. |
| `SimpStates.EliminationLifts` | glucose-syrup/simp/SimpSolver.cc:586-645 | So does the section that one elimination writes, whichever side is stored. |
| `SimpStates.RestoresSection` | glucose-syrup/simp/SimpSolver.cc:586-645 | Sections compose: reading the longer stack restores all clauses there ever were. |
| `SimpSolvers.SimpSolver.EliminateVar` | glucose-syrup/simp/SimpSolver.cc:586-645 | Exactly within the limits the variable disappears from all live clauses, and otherwise nothing changes; the stack grows by the clauses of the smaller side and a unit. Satisfiability is kept, the stack still restores all clauses there ever were, also with literals of eliminated variables at level 0, and failure means that those clauses are contradictory. After a finished subsumption check and with safe limits no such literal comes to level 0; in general those of unit resolvents do. |
| `SimpSolvers.SimpSolver.Eliminate` | glucose-syrup/simp/SimpSolver.cc:701-795 | The same over any rounds of gathering, subsumption and elimination in any order, none of which is left out unless it has nothing to do. At its turn a variable is eliminated exactly if it is not eliminated, assigned or frozen and its elimination is within the limits; nothing else is eliminated; and with safe limits level 0 stays free of eliminated variables. |
| `SimpRounds.RoundsDecide` | glucose-syrup/simp/SimpSolver.cc:737-760 | After such rounds each variable of each order is eliminated, unless it is frozen, or was assigned or not worth it at its turn; no frozen variable is, and what is eliminated stays so. |
| `SimpLevels.SafePairs` | glucose-syrup/simp/SimpSolver.cc:602-629 | With safe limits, all resolvents of a variable that is eliminated from settled clauses have two open variables, so none of them is a unit. |
| `SimpLevels.VariableBack` | glucose-syrup/simp/SimpSolver.cc:626-629 | A unit resolvent puts the variable on level 0 if some clause becomes unit with it that is not overlooked. |
| `SimpLimits.EliminatedAtLevelZero` | glucose-syrup/simp/SimpSolver.cc:586-645 | For all limits that are not safe, clauses after whose preprocessing, in whatever order the solver propagates, a literal of an eliminated variable is at level 0. |
| `ElimStacks.ExtendModel` | glucose-syrup/simp/SimpSolver.cc:682-698 | The backward loop with its jump reads every block once, from the last to the first. |
| `ElimStacks.ReadAgrees` | glucose-syrup/simp/SimpSolver.cc:682-698 | What it makes of a model with the eliminated variables undefined is what reading sections means. |
| `SimpSolvers.SimpSolver.ExtendModel` | glucose-syrup/simp/SimpSolver.cc:682-698 | From any model of what is left that defines the remaining variables, reading the stack gives a model of every clause there ever was. |
| `ClauseRings.ClausesBuffer.PushClause` | glucose-syrup/parallel/ClausesBuffer.cc:166-182 | Accepts exactly if older clauses may be removed or there is room; then the clause is the newest one. Older ones go only as long as there is no room, and with the last of them those behind it that nobody waits for. No cursor is behind, and somebody still has to read the oldest clause. |
| `ClauseRings.ClausesBuffer.GetClause` | glucose-syrup/parallel/ClausesBuffer.cc:184-231 | Delivers the first clause at or behind the thread's cursor that is not its own, with its origin and literals, or moves the cursor to the end if there is none. A clause leaves only if all others have passed it, and after every call somebody still has to read the oldest one: once it has been read by all it goes, with those behind it that were. |
| `ClauseRings.ClausesBuffer.RemoveLastClause` | glucose-syrup/parallel/ClausesBuffer.cc:124-149 | Removes the oldest clause, and then exactly the clauses up to the first one that somebody waits for, and moves exactly the cursors that stood on them. |
| `ClauseRings.ClausesBuffer.RemoveOne` | glucose-syrup/parallel/ClausesBuffer.cc:124-149 | One round of that loop. |
| `ClauseRings.ClausesBuffer.StoredRecord` | glucose-syrup/parallel/ClausesBuffer.cc:84-122 | From its last position on and around its end the ring holds the clauses in order, each as its size, its counter, its origin and its literals; with several threads the counter is the number of threads, other than the origin, whose cursor has not passed the clause. |
| `ClauseRings.WaitingCounts` | glucose-syrup/parallel/ClausesBuffer.cc:166-182 | The recursive count used for counters is the size of that set of threads. |
| `ClauseRings.ClausesBuffer.ExactDelivery` | glucose-syrup/parallel/ClausesBuffer.cc:184-231 | In the mode that never removes older clauses, over every interleaving of calls each thread has received exactly the others' clauses before its cursor. |
| `ClauseRings.ClausesBuffer.OrderlyDelivery` | glucose-syrup/parallel/ClausesBuffer.cc:184-231 | In either mode, in push order, never twice and never its own. |
| `ClauseRings.ClausesBuffer.NeverBehind` | glucose-syrup/parallel/ClausesBuffer.cc:184-200 | The positions that the assertions of the code exclude do not occur. |

## Left out

Proof checker and formulas:

- Parsing, command lines, files, clause printing, timing and memory management.
- `readPrefix` ignores the result of `addQuantifier`; the model returns it to the caller.
- Reading of `*res` at the end of the clause (FerpManager.cpp:394-465) counts as a mismatch; `std::map::operator[]` with an unknown key is a look-up that gives 0 and adds no entry.
- The reader's second test of the first antecedent, where the second was meant (FerpReader.cpp:159), is not modelled: a resolution with one antecedent reaches `checkResolution` and fails there.
- FerpManagers.FerpManager.Check: soundness carries premises the code does not look at; see Findings. Helpers are moreover assumed to stand for copies, not for other helpers (`HelpersOverCopies`), as `checkExpansionSAT` looks up their annotations.
- The SAT solver behind `checkElimination` is an arbitrary function of its clauses and assumptions.
- Depth and position tables of `Formula` beyond the depth of a variable.

Extraction:

- Certificates.FirstMoveWins: speaks of the first processed universal block. That the circuit wins over several universal blocks is not claimed: entries of later blocks are conjoined with those of earlier ones, and only the stated invariants are proved of them.
- Extraction.Extractor.Extract: ids are trace positions, clauses have strictly increasing variables, and every variable of a universal first block is annotated in one polarity, as the code takes for granted (FerpManager.cpp:569-570, 608-609, 692-693, 808). The final `aiger_prune` is proved on its own and not composed with it. The last block gets no outputs, as in the code.
- Exhaustion of 32-bit indices and literals.

AIGER:

- AigerNormalising.Circuit.Reencode: bad-state, constraint, justice and fairness roots are absent; they are recoded by the same call as outputs.
- AigerNormalising.Encoder.ReencodeLit: which operand of a gate is coded first is not stated, as any topological order gives the normal form.
- ASCII format, headers, symbols and comments; the rebuilding of the type table after re-encoding; failing writes. Latches are outside of pruning.
- The library's quicksort is an insertion sort by left-hand side.
- A shift by 35 for a sixth byte is modelled as losing the bits.

Glucose:

- Activities, phases, block distance and clause-database reduction: decisions are an arbitrary function, and whether binary minimisation is tried is a parameter. A search gives up as with Luby restarts (glucose-syrup/core/Solver.cc:1590); restarts by the averages of block distances are absent. Assumptions, incremental mode, unary watches, clause import and export, proof output.
- Raw clause memory: clauses are sequences named by number, watch lists a map, and detached clauses and garbage collection are absent. The flag counter of binary minimisation does not wrap.
- SimpSolvers.SimpSolver.Propagate: an arbitrary function of the clause database names the clause looked at next, in place of watch lists, which are those of the solver above and not repeated; that it overlooks no clause is a premise where it matters.
- SimpSolvers.SimpSolver.Eliminate: what the heap holds in each round, and in which order, is a parameter. Asymmetric branching, which is off by default, `simplify` before the first round and interrupts are absent.
- SimpSolvers.SimpSolver.AddClause: longer clauses are sorted by selection as well, not by quicksort (glucose-syrup/mtl/Sort.h:56-80), and the test for implied clauses, which is off by default, is absent. Substitution is absent too.

Clause sharing:

- The mutex: every call is one atomic step. The parameter `firstFound`, which the code asserts to be false, is absent.
- The assertion at glucose-syrup/parallel/ClausesBuffer.cc:172, which a forced removal may violate by emptying the buffer.
- With one thread the counter of a clause stays 1 instead of 0.
