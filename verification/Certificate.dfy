/** The circuit of the extraction after any number of blocks, and what it is worth. */
module Certificates {
  import opened Literals
  import Qbf
  import opened Formulas
  import opened Resolution
  import opened FerpProofs
  import opened ExtractTheory
  import opened ExtractMove
  import opened ExtractRuns
  import opened ExtractSteps
  import opened ExtractBlocks
  import opened Aigs

  ghost function AtAll(gs: seq<And>, E: set<nat>, tabs: seq<Tables<nat>>): (r: seq<Tables<bool>>)
    ensures |r| == |tabs|
  {
    seq(|tabs|, k requires 0 <= k < |tabs| => At(gs, E, tabs[k]))
  }

  /** The tables of literals, read at any input assignment, are a run of the extraction. */
  ghost predicate RunAt(D: Derivation, qd: seq<int>, num: nat, gs: seq<And>, n: nat, later: set<nat>, qs: seq<nat>,
      tabs: seq<Tables<nat>>)
  {
    && (forall k :: 0 <= k < |tabs| ==> Ready(D, num, n, later, tabs[k]))
    && (forall E: set<nat> :: Run(D, qd, E, qs, num, AtAll(gs, E, tabs)))
  }

  lemma RunAtStable(D: Derivation, qd: seq<int>, num: nat, gs: seq<And>, n: nat, hs: seq<And>, m: nat, later: set<nat>,
      qs: seq<nat>, tabs: seq<Tables<nat>>)
    requires RunAt(D, qd, num, gs, n, later, qs, tabs) && Keeps(gs, n, hs, m, later)
    ensures RunAt(D, qd, num, hs, m, later, qs, tabs)
  {
    forall k | 0 <= k < |tabs| ensures Ready(D, num, m, later, tabs[k]) {
      ReadyStable(D, num, gs, n, hs, m, later, tabs[k]);
    }
    forall E: set<nat> ensures AtAll(hs, E, tabs) == AtAll(gs, E, tabs) {
      forall k | 0 <= k < |tabs| ensures At(hs, E, tabs[k]) == At(gs, E, tabs[k]) {
        AtStable(gs, n, hs, m, later, tabs[k], E);
      }
    }
  }

  lemma RunAtStart(D: Derivation, qd: seq<int>, num: nat, gs: seq<And>, n: nat, later: set<nat>, T: Tables<nat>)
    requires Setup(D, num) && Placed(D, qd) && Ready(D, num, n, later, T)
    requires forall E: set<nat> :: Initial(D, num, At(gs, E, T))
    ensures RunAt(D, qd, num, gs, n, later, [], [T])
  {
    forall E: set<nat> ensures Run(D, qd, E, [], num, AtAll(gs, E, [T])) {
      assert AtAll(gs, E, [T]) == [At(gs, E, T)];
    }
  }

  lemma RunAtNext(D: Derivation, qd: seq<int>, num: nat, gs: seq<And>, n: nat, later: set<nat>, qs: seq<nat>,
      tabs: seq<Tables<nat>>, q: nat, T: Tables<nat>)
    requires Setup(D, num) && RunAt(D, qd, num, gs, n, later, qs, tabs) && Ready(D, num, n, later, T)
    requires |tabs| == |qs| + 1 && forall j :: 0 <= j < |qs| ==> qs[j] < q
    requires forall k :: 0 <= k < |tabs| ==> Ready(D, num, n, later, tabs[k])
    requires forall E: set<nat> :: Block(D, qd, E, q, num, At(gs, E, tabs[|qs|]), At(gs, E, T))
    ensures RunAt(D, qd, num, gs, n, later, qs + [q], tabs + [T])
  {
    forall E: set<nat> ensures Run(D, qd, E, qs + [q], num, AtAll(gs, E, tabs + [T])) {
      assert Run(D, qd, E, qs, num, AtAll(gs, E, tabs));
      assert Block(D, qd, E, q, num, At(gs, E, tabs[|qs|]), At(gs, E, T));
      RunNext(D, qd, E, qs, num, AtAll(gs, E, tabs), q, At(gs, E, T));
      assert AtAll(gs, E, tabs + [T]) == AtAll(gs, E, tabs) + [At(gs, E, T)];
    }
  }

  lemma RunNext(D: Derivation, qd: seq<int>, E: set<Var>, qs: seq<nat>, num: nat, tabs: seq<Tables<bool>>, q: nat,
      T: Tables<bool>)
    requires Run(D, qd, E, qs, num, tabs) && Shaped(T, |D.P.clauses|, num)
    requires Block(D, qd, E, q, num, tabs[|qs|], T) && forall j :: 0 <= j < |qs| ==> qs[j] < q
    ensures Run(D, qd, E, qs + [q], num, tabs + [T])
  {
    var qs', tabs' := qs + [q], tabs + [T];
    forall k | 0 <= k < |qs'| ensures Block(D, qd, E, qs'[k], num, tabs'[k], tabs'[k + 1]) {
      if k < |qs| {
        assert Block(D, qd, E, qs[k], num, tabs[k], tabs[k + 1]);
        assert tabs'[k] == tabs[k] && tabs'[k + 1] == tabs[k + 1];
      }
    }
  }

  // ----- outputs -----

  /** A literal that no input changes. */
  ghost predicate Constant(gs: seq<And>, x: nat) {
    (forall E: set<nat> :: Value(gs, E, x)) || (forall E: set<nat> :: !Value(gs, E, x))
  }

  /** The literal solves u, under every input: it says whether some active copy is annotated with u, or,
      only where that is constant, whether none is annotated with its negation. */
  ghost predicate SolutionOk(P: Proof, gs: seq<And>, row: seq<nat>, u: Var, x: nat)
    requires u > 0
  {
    if !Annotated(P, MakeLit(u, true)) then forall E: set<nat> :: Value(gs, E, x)
    else if !Annotated(P, MakeLit(u, false)) then forall E: set<nat> :: !Value(gs, E, x)
    else
      || (forall E: set<nat> :: Value(gs, E, x) == AnyActive(P, RowAt(gs, E, row), MakeLit(u, false)))
      || (Constant(gs, x)
          && forall E: set<nat> :: Value(gs, E, x) == !AnyActive(P, RowAt(gs, E, row), MakeLit(u, true)))
  }

  predicate IsConstant(x: nat) {
    x == TRUE_LIT || x == FALSE_LIT
  }

  /** The literal that says whether some active copy is annotated with u is preferred, unless only the
      other one is a constant. */
  lemma PickedOk(P: Proof, gs: seq<And>, row: seq<nat>, u: Var, pos: nat, neg: nat, x: nat)
    requires u > 0
    requires forall E: set<nat> ::
      && Value(gs, E, pos) == AnyActive(P, RowAt(gs, E, row), MakeLit(u, false))
      && Value(gs, E, neg) == !AnyActive(P, RowAt(gs, E, row), MakeLit(u, true))
    requires Annotated(P, MakeLit(u, false)) && Annotated(P, MakeLit(u, true))
    requires x == if !IsConstant(pos) && IsConstant(neg) then neg else pos
    ensures SolutionOk(P, gs, row, u, x)
  {
    hide AnyActive;
    forall E: set<nat> ensures !Value(gs, E, FALSE_LIT) && Value(gs, E, TRUE_LIT) {
      AigBuilder.ConstantValue(gs, E);
    }
  }

  lemma SolutionStable(P: Proof, gs: seq<And>, n: nat, hs: seq<And>, m: nat, open: set<nat>, later: set<nat>,
      row: seq<nat>, u: Var, x: nat)
    requires u > 0 && SolutionOk(P, gs, row, u, x) && Keeps(gs, n, hs, m, open) && open <= later
    requires RowUsable(n, later, row) && AigBuilder.Usable(n, open, x)
    ensures SolutionOk(P, hs, row, u, x)
  {
    Narrower(gs, n, hs, m, open, later);
    forall E: set<nat> ensures Value(hs, E, x) == Value(gs, E, x) && RowAt(hs, E, row) == RowAt(gs, E, row) {
      RowStable(gs, n, hs, m, later, row, E);
    }
  }

  lemma Narrower(gs: seq<And>, n: nat, hs: seq<And>, m: nat, open: set<nat>, later: set<nat>)
    requires Keeps(gs, n, hs, m, open) && open <= later
    ensures Keeps(gs, n, hs, m, later)
  {
    forall E: set<nat>, l: nat | AigBuilder.Usable(n, later, l) ensures Value(hs, E, l) == Value(gs, E, l) {
      assert AigBuilder.Usable(n, open, l);
    }
  }

  lemma SolutionCopied(P: Proof, gs: seq<And>, n: nat, hs: seq<And>, later: set<nat>, row: seq<nat>, u: Var, x: nat,
      y: nat)
    requires u > 0 && SolutionOk(P, gs, row, u, x) && Keeps(gs, n, hs, n, later) && RowUsable(n, later, row)
    requires forall E: set<nat> :: Value(hs, E, y) == Value(gs, E, x)
    ensures SolutionOk(P, hs, row, u, y)
  {
    forall E: set<nat> ensures Value(hs, E, y) == Value(gs, E, x) && RowAt(hs, E, row) == RowAt(gs, E, row) {
      RowStable(gs, n, hs, n, later, row, E);
    }
  }

  /** The outputs for the variables of one block. */
  ghost predicate BlockOutputsOk(P: Proof, gs: seq<And>, row: seq<nat>, vars: seq<Var>) {
    0 !in vars && forall u :: u in vars ==> SolutionOk(P, gs, row, u, 2 * u)
  }

  lemma BlockOutputsStable(P: Proof, gs: seq<And>, n: nat, hs: seq<And>, m: nat, open: set<nat>, later: set<nat>,
      row: seq<nat>, vars: seq<Var>)
    requires BlockOutputsOk(P, gs, row, vars) && Keeps(gs, n, hs, m, open) && open <= later && RowUsable(n, later, row)
    requires forall u :: u in vars ==> u < n && u !in open
    ensures BlockOutputsOk(P, hs, row, vars)
  {
    forall u | u in vars ensures SolutionOk(P, hs, row, u, 2 * u) {
      LitVarOf(u);
      SolutionStable(P, gs, n, hs, m, open, later, row, u, 2 * u);
    }
  }

  /** A universal first block has constant outputs. */
  ghost predicate ConstantsOk(P: Proof, gs: seq<And>, vars: seq<Var>) {
    0 !in vars && forall u, E: set<nat> :: u in vars ==> Value(gs, E, 2 * u) == !Annotated(P, MakeLit(u, true))
  }

  lemma ConstantsStable(P: Proof, gs: seq<And>, n: nat, hs: seq<And>, m: nat, open: set<nat>, vars: seq<Var>)
    requires ConstantsOk(P, gs, vars) && Keeps(gs, n, hs, m, open) && forall u :: u in vars ==> u < n && u !in open
    ensures ConstantsOk(P, hs, vars)
  {
    forall u, E: set<nat> | u in vars ensures Value(hs, E, 2 * u) == !Annotated(P, MakeLit(u, true)) {
      LitVarOf(u);
    }
  }

  // ----- the whole circuit -----

  function FirstProcessed(B: seq<Quant>): nat
    requires B != [] && B[0].Quant?
  {
    if B[0].kind == FORALL then 1 else 0
  }

  /** The universal variables whose outputs are still to come. */
  ghost function OpenVars(B: seq<Quant>, done: nat): set<Var>
    requires AllBlocks(B)
  {
    set d, u | done <= d < |B| && B[d].kind == FORALL && u in B[d].vars :: u
  }

  /** The universal blocks before done have their outputs: constants for a universal first block,
      and for every later one a solution read off the root's cumulative entries. */
  ghost predicate Circuit(D: Derivation, B: seq<Quant>, qd: seq<int>, num: nat, gs: seq<And>, n: nat, later: set<nat>,
                          done: nat, qs: seq<nat>, tabs: seq<Tables<nat>>) {
    && AllBlocks(B) && B != [] && WellIndexed(B, qd) && done <= |B| && |qd| <= n && later == OpenVars(B, 0)
    && Setup(D, num) && |tabs| == |qs| + 1 && RunAt(D, qd, num, gs, n, later, qs, tabs)
    && (forall d :: d in qs <==> FirstProcessed(B) <= d < done && B[d].kind == FORALL)
    && (B[0].kind == FORALL && done > 0 ==> ConstantsOk(D.P, gs, B[0].vars))
    && (forall k :: 0 <= k < |qs| ==>
       qs[k] < |B| && BlockOutputsOk(D.P, gs, tabs[k + 1].cumulative[D.P.root], B[qs[k]].vars))
  }

  lemma DoneVar(B: seq<Quant>, qd: seq<int>, done: nat, d: nat, u: Var)
    requires AllBlocks(B) && WellIndexed(B, qd) && d < done <= |B| && u in B[d].vars
    ensures u !in OpenVars(B, done) && u < |qd| && u > 0
  {
    assert Depth(qd, u) == d;
  }

  lemma CircuitStable(D: Derivation, B: seq<Quant>, qd: seq<int>, num: nat, gs: seq<And>, n: nat, hs: seq<And>, m: nat,
      later: set<nat>, done: nat, qs: seq<nat>, tabs: seq<Tables<nat>>)
    requires Circuit(D, B, qd, num, gs, n, later, done, qs, tabs) && Keeps(gs, n, hs, m, OpenVars(B, done))
    ensures Circuit(D, B, qd, num, hs, m, later, done, qs, tabs)
  {
    var open := OpenVars(B, done);
    Narrower(gs, n, hs, m, open, later);
    RunAtStable(D, qd, num, gs, n, hs, m, later, qs, tabs);
    if B[0].kind == FORALL && done > 0 {
      forall u | u in B[0].vars ensures u < n && u !in open {
        DoneVar(B, qd, done, 0, u);
      }
      ConstantsStable(D.P, gs, n, hs, m, open, B[0].vars);
    }
    forall k | 0 <= k < |qs| ensures BlockOutputsOk(D.P, hs, tabs[k + 1].cumulative[D.P.root], B[qs[k]].vars) {
      assert qs[k] in qs;
      forall u | u in B[qs[k]].vars ensures u < n && u !in open {
        DoneVar(B, qd, done, qs[k], u);
      }
      assert Ready(D, num, n, later, tabs[k + 1]);
      BlockOutputsStable(D.P, gs, n, hs, m, open, later, tabs[k + 1].cumulative[D.P.root], B[qs[k]].vars);
    }
  }

  // ----- what the circuit is worth -----

  ghost predicate Sound(D: Derivation, B: seq<Quant>, qd: seq<int>, matrix: seq<QClause>) {
    && Readable(D.P, B, qd, matrix) && |D.pivots| == |D.P.clauses| && LeavesOk(D, matrix) && D.P.root != 0
    && (forall v :: v in D.P.annotation ==> v in D.P.original)
  }

  /** The value of every variable's own literal. */
  ghost function Moves(gs: seq<And>, n: nat, E: set<nat>): set<Var> {
    set u: nat | 0 < u < n && Value(gs, E, 2 * u)
  }

  /** Over all universal blocks and all existential assignments: active copies are unassigned
      variables of their clause, a satisfied clause has nothing active and stays satisfied, a leaf is
      satisfied exactly if one of its literals read so far is true, resolvents follow the rules, and
      the root's top entry is false. */
  lemma TablesHold(D: Derivation, B: seq<Quant>, qd: seq<int>, num: nat, gs: seq<And>, n: nat, later: set<nat>,
                   done: nat, qs: seq<nat>, tabs: seq<Tables<nat>>, E: set<nat>, k: nat)
    requires Circuit(D, B, qd, num, gs, n, later, done, qs, tabs) && k <= |qs| && D.P.root != 0
    ensures Invariant(D, qd, E, Level(qs, k), num, At(gs, E, tabs[k]))
    ensures !Value(gs, E, tabs[k].top[D.P.root])
    ensures Ruled(D, qd, E, qs, num, AtAll(gs, E, tabs), k)
  {
    hide Ruled;
    RunInvariant(D, qd, E, qs, num, AtAll(gs, E, tabs), k);
    assert At(gs, E, tabs[k]).top[D.P.root] == Value(gs, E, tabs[k].top[D.P.root]);
  }

  lemma RootRowSame(D: Derivation, B: seq<Quant>, qd: seq<int>, matrix: seq<QClause>, num: nat, gs: seq<And>, n: nat,
      later: set<nat>, qs: seq<nat>, tabs: seq<Tables<nat>>, E: set<nat>, F: set<nat>, k: nat)
    requires Setup(D, num) && |tabs| == |qs| + 1 && RunAt(D, qd, num, gs, n, later, qs, tabs) && Sound(D, B, qd, matrix)
    requires k < |qs| && SameAsRead(B, qs, k + 1, E, F)
    ensures RowAt(gs, E, tabs[k + 1].cumulative[D.P.root]) == RowAt(gs, F, tabs[k + 1].cumulative[D.P.root])
  {
    var root, row := D.P.root, tabs[k + 1].cumulative[D.P.root];
    RunSame(D, B, qd, matrix, E, F, qs, num, AtAll(gs, E, tabs), AtAll(gs, F, tabs), k + 1, root);
    assert At(gs, E, tabs[k + 1]).cumulative[root] == RowAt(gs, E, row);
    assert At(gs, F, tabs[k + 1]).cumulative[root] == RowAt(gs, F, row);
  }

  lemma SolutionSame(P: Proof, gs: seq<And>, row: seq<nat>, u: Var, x: nat, E: set<nat>, F: set<nat>)
    requires u > 0 && SolutionOk(P, gs, row, u, x) && RowAt(gs, E, row) == RowAt(gs, F, row)
    ensures Value(gs, E, x) == Value(gs, F, x)
  {
  }

  lemma RowSolution(D: Derivation, B: seq<Quant>, qd: seq<int>, matrix: seq<QClause>, num: nat, gs: seq<And>, n: nat,
      later: set<nat>, qs: seq<nat>, tabs: seq<Tables<nat>>, E: set<nat>, F: set<nat>, k: nat, u: Var)
    requires Setup(D, num) && |tabs| == |qs| + 1 && RunAt(D, qd, num, gs, n, later, qs, tabs) && Sound(D, B, qd, matrix)
    requires k < |qs| && qs[k] < |B| && SameAsRead(B, qs, k + 1, E, F) && u in B[qs[k]].vars
    requires BlockOutputsOk(D.P, gs, tabs[k + 1].cumulative[D.P.root], B[qs[k]].vars)
    ensures Value(gs, E, 2 * u) == Value(gs, F, 2 * u)
  {
    RootRowSame(D, B, qd, matrix, num, gs, n, later, qs, tabs, E, F, k);
    SolutionSame(D.P, gs, tabs[k + 1].cumulative[D.P.root], u, 2 * u, E, F);
  }

  /** The outputs of a processed block depend only on the blocks directly before it and before the
      blocks that were processed earlier. */
  lemma MoveReads(D: Derivation, B: seq<Quant>, qd: seq<int>, matrix: seq<QClause>, num: nat, gs: seq<And>, n: nat,
      later: set<nat>, done: nat, qs: seq<nat>, tabs: seq<Tables<nat>>, E: set<nat>, F: set<nat>, k: nat, u: Var)
    requires Circuit(D, B, qd, num, gs, n, later, done, qs, tabs) && Sound(D, B, qd, matrix)
    requires k < |qs| && SameAsRead(B, qs, k + 1, E, F) && qs[k] < |B| && u in B[qs[k]].vars
    ensures Value(gs, E, 2 * u) == Value(gs, F, 2 * u)
  {
    RowSolution(D, B, qd, matrix, num, gs, n, later, qs, tabs, E, F, k, u);
  }

  /** The gate of a universal variable is a function of the existential variables before it. */
  lemma RespectsPrefix(D: Derivation, B: seq<Quant>, qd: seq<int>, matrix: seq<QClause>, num: nat, gs: seq<And>, n: nat,
      later: set<nat>, done: nat, qs: seq<nat>, tabs: seq<Tables<nat>>, E: set<nat>, F: set<nat>, q: nat, u: Var)
    requires Circuit(D, B, qd, num, gs, n, later, done, qs, tabs) && Sound(D, B, qd, matrix)
    requires q < done && B[q].kind == FORALL && u in B[q].vars && SameBefore(B, q, E, F)
    ensures Value(gs, E, 2 * u) == Value(gs, F, 2 * u)
  {
    if q == 0 {
      assert ConstantsOk(D.P, gs, B[0].vars);
    } else {
      assert q in qs;
      var k :| 0 <= k < |qs| && qs[k] == q;
      LaterRespects(D, B, qd, matrix, num, gs, n, later, qs, tabs, E, F, k, u);
    }
  }

  lemma LaterRespects(D: Derivation, B: seq<Quant>, qd: seq<int>, matrix: seq<QClause>, num: nat, gs: seq<And>, n: nat,
      later: set<nat>, qs: seq<nat>, tabs: seq<Tables<nat>>, E: set<nat>, F: set<nat>, k: nat, u: Var)
    requires Setup(D, num) && |tabs| == |qs| + 1 && RunAt(D, qd, num, gs, n, later, qs, tabs) && Sound(D, B, qd, matrix)
    requires k < |qs| && qs[k] < |B| && SameBefore(B, qs[k], E, F) && u in B[qs[k]].vars
    requires BlockOutputsOk(D.P, gs, tabs[k + 1].cumulative[D.P.root], B[qs[k]].vars)
    ensures Value(gs, E, 2 * u) == Value(gs, F, 2 * u)
  {
    assert Run(D, qd, E, qs, num, AtAll(gs, E, tabs));
    SameBeforeRead(B, qs, k + 1, E, F);
    RowSolution(D, B, qd, matrix, num, gs, n, later, qs, tabs, E, F, k, u);
  }

  // ----- the first processed block -----

  lemma LeavesConsistent(D: Derivation, matrix: seq<QClause>)
    requires D.P.WellFormed() && |D.pivots| == |D.P.clauses| && LeavesOk(D, matrix)
    requires forall i :: 0 <= i < |D.P.clauses| ==> D.P.Copies(D.Clause(i))
    ensures ConsistentLeaves(D)
  {
    forall j | 1 <= j < |D.P.clauses| && D.pivots[j] == 0 ensures Consistent(D.P.Union(D.Clause(j))) {
      assert LeafCode(D.P, matrix, j) == 0;
    }
  }

  /** The copies still unassigned at a universal block have annotations that decide all of it. */
  lemma BlockDecided(D: Derivation, B: seq<Quant>, qd: seq<int>, matrix: seq<QClause>, q: nat)
    requires Readable(D.P, B, qd, matrix) && |D.pivots| == |D.P.clauses| && LeavesOk(D, matrix)
    requires Covers(Qbf.Existential, D.P, B) && q < |B| && B[q].kind == FORALL
    ensures Decides(D, qd, q, set u | u in B[q].vars)
  {
    forall v | v in D.P.original && InLeaf(D, v) && CopyDepth(D.P, qd, v) >= q
      ensures (set u | u in B[q].vars) <= AnnotatedVars(D.P.annotation[v])
    {
      var i :| 1 <= i < |D.P.clauses| && D.pivots[i] == 0 && HasVar(D.Clause(i), v);
      var l := MakeLit(v, MakeLit(v, false) !in D.Clause(i));
      assert l in D.Clause(i) && VarOf(l) == v;
      var e := LeafBlock(D.P, B, qd, matrix, i, l);
      assert q < e;
      assert forall u :: u in B[q].vars ==> u in OppVars(Qbf.Existential, B, e);
    }
  }

  /** What the outputs of a block solve at one input assignment. */
  lemma BlockSolves(P: Proof, gs: seq<And>, n: nat, row: seq<nat>, vars: seq<Var>, E: set<nat>)
    requires BlockOutputsOk(P, gs, row, vars) && forall u :: u in vars ==> u < n
    ensures forall u :: u in vars ==> Solves(P, RowAt(gs, E, row), u, u in Moves(gs, n, E))
  {
    forall u | u in vars ensures Solves(P, RowAt(gs, E, row), u, u in Moves(gs, n, E)) {
      SolvesAt(P, gs, n, row, u, E);
    }
  }

  lemma SolvesAt(P: Proof, gs: seq<And>, n: nat, row: seq<nat>, u: Var, E: set<nat>)
    requires 0 < u < n && SolutionOk(P, gs, row, u, 2 * u)
    ensures Solves(P, RowAt(gs, E, row), u, u in Moves(gs, n, E))
  {
  }

  lemma DoneVars(B: seq<Quant>, qd: seq<int>, done: nat, d: nat)
    requires AllBlocks(B) && WellIndexed(B, qd) && d < done <= |B|
    ensures forall u :: u in B[d].vars ==> u !in OpenVars(B, done) && 0 < u < |qd|
  {
    forall u | u in B[d].vars ensures u !in OpenVars(B, done) && 0 < u < |qd| {
      DoneVar(B, qd, done, d, u);
    }
  }

  /** After every processed block the moves agree with the annotations of all copies that are
      cumulatively active at the root. */
  lemma CircuitPlays(D: Derivation, B: seq<Quant>, qd: seq<int>, matrix: seq<QClause>, num: nat, gs: seq<And>, n: nat,
      later: set<nat>, done: nat, qs: seq<nat>, tabs: seq<Tables<nat>>, E: set<nat>, k: nat, T: Tables<bool>)
    requires Circuit(D, B, qd, num, gs, n, later, done, qs, tabs) && Sound(D, B, qd, matrix)
    requires Covers(Qbf.Existential, D.P, B) && k < |qs| && (forall v :: v in D.P.annotation ==> v < num)
    requires T == At(gs, E, tabs[k + 1])
    ensures PlaysActive(D, B[qs[k]].vars, num, T, Moves(gs, n, E))
  {
    var q, row := qs[k], tabs[k + 1].cumulative[D.P.root];
    assert q in qs;
    DoneVars(B, qd, done, q);
    BlockSolves(D.P, gs, n, row, B[q].vars, E);
    assert AtAll(gs, E, tabs)[k + 1] == At(gs, E, tabs[k + 1]);
    assert At(gs, E, tabs[k + 1]).cumulative[D.P.root] == RowAt(gs, E, row);
    BlockDecided(D, B, qd, matrix, q);
    LeavesConsistent(D, matrix);
    RunPlays(D, qd, E, qs, num, AtAll(gs, E, tabs), k, B[q].vars, Moves(gs, n, E));
  }

  /** Every variable of a universal first block is annotated in exactly one polarity: what the
      original asserts before it makes constant outputs. */
  ghost predicate FirstBlockDecisive(P: Proof, B: seq<Quant>)
    requires AllBlocks(B) && B != []
  {
    B[0].kind == FORALL ==>
      && 0 !in B[0].vars
      && forall u :: u in B[0].vars ==> Annotated(P, MakeLit(u, false)) != Annotated(P, MakeLit(u, true))
  }

  lemma ConstantsPlay(P: Proof, B: seq<Quant>, qd: seq<int>, gs: seq<And>, n: nat, E: set<nat>, q: nat)
    requires AllBlocks(B) && WellIndexed(B, qd) && P.WellFormed() && 0 < q < |B| && |qd| <= n
    requires B[0].kind == FORALL ==> ConstantsOk(P, gs, B[0].vars)
    requires FirstBlockDecisive(P, B) && forall d :: 0 < d < q ==> B[d].kind != FORALL
    ensures PlaysEarlier(P, B, q, Moves(gs, n, E))
  {
    forall v, a, d | v in P.original && v in P.annotation && a in P.annotation[v] && 0 <= d < q && B[d].kind == FORALL
      && VarOf(a) in B[d].vars
      ensures LitTrue(Moves(gs, n, E), a)
    {
      var u := VarOf(a);
      DoneVar(B, qd, q, 0, u);
      assert Annotated(P, a) && a == MakeLit(u, Sign(a));
      assert Value(gs, E, 2 * u) == !Annotated(P, MakeLit(u, true));
    }
  }

  /** The circuit wins its first move, whatever the existential player chose before the first processed
      block: the formula that remains after the circuit's moves is false, if the existential variables
      before it stand in the block directly before it, or if no annotation can speak of it. */
  lemma FirstMoveWins(D: Derivation, B: seq<Quant>, qd: seq<int>, matrix: seq<QClause>, num: nat, gs: seq<And>, n: nat,
      later: set<nat>, done: nat, qs: seq<nat>, tabs: seq<Tables<nat>>, E: set<nat>, q: nat)
    requires Circuit(D, B, qd, num, gs, n, later, done, qs, tabs) && Sound(D, B, qd, matrix)
    requires ExactAnnotations(D.P, B) && FirstBlockDecisive(D.P, B) && (forall v :: v in D.P.annotation ==> v < num)
    requires qs != [] && q == qs[0] && q < |B| && (OneBlockBefore(B, q) || Unannotated(B, q))
    ensures !Qbf.Truth(Flatten(B[q + 1..]), Position(B, q, E, Moves(gs, n, E)), MatrixLits(matrix))
  {
    var k := FirstIsFirst(D, B, qd, num, gs, n, later, done, qs, tabs);
    if !OneBlockBefore(B, q) {
      IndexedDistinct(B, qd);
      ConstantsPlay(D.P, B, qd, gs, n, E, q);
      UnannotatedFollows(D.P, B, q, Moves(gs, n, E));
      FollowingWins(D, num, B, qd, matrix, E, q, Moves(gs, n, E));
      return;
    }
    var S, T := At(gs, E, tabs[k]), At(gs, E, tabs[k + 1]);
    FirstPlays(D, B, qd, matrix, num, gs, n, later, done, qs, tabs, E, k, q, T);
    FirstSetting(D, B, qd, matrix, num, gs, n, later, done, qs, tabs, E, k, q, S, T);
    MoveWins(D, B, qd, matrix, E, q, num, S, T, Moves(gs, n, E));
  }

  lemma FirstPlays(D: Derivation, B: seq<Quant>, qd: seq<int>, matrix: seq<QClause>, num: nat, gs: seq<And>, n: nat,
      later: set<nat>, done: nat, qs: seq<nat>, tabs: seq<Tables<nat>>, E: set<nat>, k: nat, q: nat, T: Tables<bool>)
    requires AllBlocks(B) && B != [] && q < |B| && Good(D, num) && Shaped(T, |D.P.clauses|, num)
      && D.P.root < |D.P.clauses|
    requires Circuit(D, B, qd, num, gs, n, later, done, qs, tabs) && Sound(D, B, qd, matrix)
    requires ExactAnnotations(D.P, B) && FirstBlockDecisive(D.P, B) && (forall v :: v in D.P.annotation ==> v < num)
    requires k < |qs| && q == qs[k] && 0 < q < |B| && forall d :: 0 < d < q ==> B[d].kind != FORALL
    requires T == At(gs, E, tabs[k + 1])
    ensures Plays(D, B, q, num, T, Moves(gs, n, E))
  {
    assert q in qs;
    CoversFromExact(D.P, B, qd);
    CircuitPlays(D, B, qd, matrix, num, gs, n, later, done, qs, tabs, E, k, T);
    ConstantsPlay(D.P, B, qd, gs, n, E, q);
    BothPlay(D, B, q, num, T, Moves(gs, n, E));
  }

  lemma BothPlay(D: Derivation, B: seq<Quant>, q: nat, num: nat, T: Tables<bool>, W: set<Var>)
    requires Good(D, num) && Shaped(T, |D.P.clauses|, num) && AllBlocks(B) && q < |B|
    requires PlaysActive(D, B[q].vars, num, T, W) && PlaysEarlier(D.P, B, q, W)
    ensures Plays(D, B, q, num, T, W)
  {
  }

  lemma FirstIsFirst(D: Derivation, B: seq<Quant>, qd: seq<int>, num: nat, gs: seq<And>, n: nat, later: set<nat>,
                     done: nat, qs: seq<nat>, tabs: seq<Tables<nat>>) returns (first: nat)
    requires Circuit(D, B, qd, num, gs, n, later, done, qs, tabs) && qs != []
    ensures first == 0
    ensures 0 < qs[0] < |B| && B[qs[0]].kind == FORALL && forall d :: 0 < d < qs[0] ==> B[d].kind != FORALL
  {
    first := 0;
    assert qs[0] in qs;
    assert Run(D, qd, {}, qs, num, AtAll(gs, {}, tabs));
    forall d | 0 < d < qs[0] ensures B[d].kind != FORALL {
      forall j | 0 <= j < |qs| ensures qs[j] != d {
        assert j == 0 || qs[0] < qs[j];
      }
      assert d !in qs;
    }
  }

  lemma CoversFromExact(P: Proof, B: seq<Quant>, qd: seq<int>)
    requires P.WellFormed() && AllBlocks(B) && WellIndexed(B, qd) && ExactAnnotations(P, B)
    ensures Covers(Qbf.Existential, P, B)
  {
  }

  lemma FirstSetting(D: Derivation, B: seq<Quant>, qd: seq<int>, matrix: seq<QClause>, num: nat, gs: seq<And>, n: nat,
      later: set<nat>, done: nat, qs: seq<nat>, tabs: seq<Tables<nat>>, E: set<nat>, k: nat, q: nat, S: Tables<bool>,
      T: Tables<bool>)
    requires Circuit(D, B, qd, num, gs, n, later, done, qs, tabs) && Sound(D, B, qd, matrix)
    requires ExactAnnotations(D.P, B) && k < |qs| && k == 0 && q == qs[k] && S == At(gs, E, tabs[k])
      && T == At(gs, E, tabs[k + 1])
    requires 0 < q < |B| && AllBlocks(B) && B[q].kind == FORALL && OneBlockBefore(B, q)
    ensures Setting(D, B, qd, matrix, E, q, num, S, T)
  {
    TablesHold(D, B, qd, num, gs, n, later, done, qs, tabs, E, k + 1);
    assert Run(D, qd, E, qs, num, AtAll(gs, E, tabs));
    assert Block(D, qd, E, qs[k], num, AtAll(gs, E, tabs)[k], AtAll(gs, E, tabs)[k + 1]);
    forall i | 1 <= i < |D.P.clauses| && D.pivots[i] == 0 ensures LeafCode(D.P, matrix, i) == 0 {
    }
  }

  // ----- building the circuit block by block -----

  /** No gate defines one of the variables yet. */
  ghost predicate NotDefined(gs: seq<And>, vs: set<Var>) {
    forall k :: 0 <= k < |gs| ==> LitVar(gs[k].lhs) !in vs
  }

  lemma NotDefinedStable(gs: seq<And>, n: nat, hs: seq<And>, m: nat, open: set<nat>, vs: set<Var>)
    requires NotDefined(gs, vs) && Keeps(gs, n, hs, m, open) && vs !! open && forall v :: v in vs ==> v < n
    ensures NotDefined(hs, vs)
  {
    forall k | 0 <= k < |hs| ensures LitVar(hs[k].lhs) !in vs {
      if k < |gs| {
        assert hs[k] == gs[k];
      }
    }
  }

  ghost function Vars(vars: seq<Var>): set<Var> {
    set u | u in vars
  }

  lemma OpenSplit(B: seq<Quant>, qd: seq<int>, q: nat)
    requires AllBlocks(B) && WellIndexed(B, qd) && q < |B|
    ensures OpenVars(B, q) == (if B[q].kind == FORALL then Vars(B[q].vars) else {}) + OpenVars(B, q + 1)
    ensures Vars(B[q].vars) !! OpenVars(B, q + 1)
    ensures forall u :: u in OpenVars(B, q) ==> 0 < u < |qd|
    ensures OpenVars(B, q) <= OpenVars(B, 0)
  {
    DoneVars(B, qd, q + 1, q);
    forall u | u in OpenVars(B, q) ensures 0 < u < |qd| {
      var d :| q <= d < |B| && u in B[d].vars;
      assert Depth(qd, u) == d;
    }
  }

  lemma CircuitStart(D: Derivation, B: seq<Quant>, qd: seq<int>, num: nat, gs: seq<And>, n: nat, later: set<nat>,
      T: Tables<nat>)
    requires AllBlocks(B) && B != [] && WellIndexed(B, qd) && |qd| <= n && later == OpenVars(B, 0)
    requires Setup(D, num) && Placed(D, qd) && Ready(D, num, n, later, T)
    requires forall E: set<nat> :: Initial(D, num, At(gs, E, T))
    ensures Circuit(D, B, qd, num, gs, n, later, 0, [], [T])
  {
    RunAtStart(D, qd, num, gs, n, later, T);
  }

  /** An existential block adds nothing. */
  lemma CircuitSkip(D: Derivation, B: seq<Quant>, qd: seq<int>, num: nat, gs: seq<And>, n: nat, later: set<nat>,
                    q: nat, qs: seq<nat>, tabs: seq<Tables<nat>>)
    requires Circuit(D, B, qd, num, gs, n, later, q, qs, tabs) && q < |B| && B[q].kind != FORALL
    ensures Circuit(D, B, qd, num, gs, n, later, q + 1, qs, tabs)
  {
  }

  lemma CircuitConstants(D: Derivation, B: seq<Quant>, qd: seq<int>, num: nat, gs: seq<And>, n: nat, hs: seq<And>,
      m: nat, later: set<nat>, qs: seq<nat>, tabs: seq<Tables<nat>>)
    requires Circuit(D, B, qd, num, gs, n, later, 0, qs, tabs) && B[0].kind == FORALL
    requires Keeps(gs, n, hs, m, Vars(B[0].vars)) && ConstantsOk(D.P, hs, B[0].vars)
    ensures Circuit(D, B, qd, num, hs, m, later, 1, qs, tabs)
  {
    OpenSplit(B, qd, 0);
    Narrower(gs, n, hs, m, Vars(B[0].vars), OpenVars(B, 0));
    CircuitStable(D, B, qd, num, gs, n, hs, m, later, 0, qs, tabs);
  }

  lemma CircuitNext(D: Derivation, B: seq<Quant>, qd: seq<int>, num: nat, gs: seq<And>, n: nat, later: set<nat>,
                    q: nat, qs: seq<nat>, tabs: seq<Tables<nat>>, T: Tables<nat>)
    requires Circuit(D, B, qd, num, gs, n, later, q, qs, tabs) && 0 < q < |B| && B[q].kind == FORALL
    requires RunAt(D, qd, num, gs, n, later, qs + [q], tabs + [T]) && Ready(D, num, n, later, T)
    requires BlockOutputsOk(D.P, gs, T.cumulative[D.P.root], B[q].vars)
    ensures Circuit(D, B, qd, num, gs, n, later, q + 1, qs + [q], tabs + [T])
  {
    var qs', tabs' := qs + [q], tabs + [T];
    forall k | 0 <= k < |qs'|
      ensures qs'[k] < |B| && BlockOutputsOk(D.P, gs, tabs'[k + 1].cumulative[D.P.root], B[qs'[k]].vars)
    {
      if k < |qs| {
        assert qs'[k] == qs[k] && tabs'[k + 1] == tabs[k + 1];
      }
    }
    forall d ensures d in qs' <==> FirstProcessed(B) <= d < q + 1 && B[d].kind == FORALL {
      assert d in qs' <==> d in qs || d == q;
    }
  }

  /** The circuit after the tables of block q were built and its outputs were added. */
  lemma CircuitBlock(D: Derivation, B: seq<Quant>, qd: seq<int>, num: nat, g0: seq<And>, n0: nat, g1: seq<And>, n1: nat,
      g2: seq<And>, n2: nat, later: set<nat>, q: nat, qs: seq<nat>, tabs: seq<Tables<nat>>, T: Tables<nat>)
    requires Circuit(D, B, qd, num, g0, n0, later, q, qs, tabs) && 0 < q < |B| && B[q].kind == FORALL
    requires AigBuilder.Extends(g0, n0, g1, n1) && Ready(D, num, n1, later, T) && Ready(D, num, n1, later, tabs[|qs|])
    requires forall E: set<nat> :: Block(D, qd, E, q, num, At(g1, E, tabs[|qs|]), At(g1, E, T))
    requires Keeps(g1, n1, g2, n2, Vars(B[q].vars)) && BlockOutputsOk(D.P, g2, T.cumulative[D.P.root], B[q].vars)
    ensures Circuit(D, B, qd, num, g2, n2, later, q + 1, qs + [q], tabs + [T])
  {
    var open := OpenVars(B, q);
    OpenSplit(B, qd, q);
    ExtendsKeeps(g0, n0, g1, n1, open);
    CircuitStable(D, B, qd, num, g0, n0, g1, n1, later, q, qs, tabs);
    forall j | 0 <= j < |qs| ensures qs[j] < q {
      assert qs[j] in qs;
    }
    RunAtNext(D, qd, num, g1, n1, later, qs, tabs, q, T);
    Narrower(g1, n1, g2, n2, Vars(B[q].vars), open);
    CircuitStable(D, B, qd, num, g1, n1, g2, n2, later, q, qs, tabs);
    Narrower(g1, n1, g2, n2, open, later);
    RunAtStable(D, qd, num, g1, n1, g2, n2, later, qs + [q], tabs + [T]);
    ReadyStable(D, num, g1, n1, g2, n2, later, T);
    CircuitNext(D, B, qd, num, g2, n2, later, q, qs, tabs, T);
  }
}
