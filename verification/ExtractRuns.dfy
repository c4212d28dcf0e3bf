/** Whole runs of the extraction, read at one input assignment: the table theorems for every
    universal block, and what the outputs made from the tables are worth. */
module ExtractRuns {
  import opened Literals
  import opened Qbf
  import opened Formulas
  import opened Resolution
  import opened FerpProofs
  import opened ExtractTheory
  import opened ExtractMove

  /** tabs[0] holds the tables before the first block, tabs[k + 1] those after block qs[k]. */
  ghost predicate Run(D: Derivation, qd: seq<int>, E: set<Var>, qs: seq<nat>, num: nat, tabs: seq<Tables<bool>>) {
    && Good(D, num) && PivotsBelow(D, num) && num > 0 && Placed(D, qd)
    && |tabs| == |qs| + 1
    && (forall k :: 0 <= k < |tabs| ==> Shaped(tabs[k], |D.P.clauses|, num))
    && Initial(D, num, tabs[0])
    && (forall k :: 0 <= k < |qs| ==> Block(D, qd, E, qs[k], num, tabs[k], tabs[k + 1]))
    && (forall j, k :: 0 <= j < k < |qs| ==> qs[j] < qs[k])
  }

  /** The block up to which everything is assigned after k processed blocks. */
  function Level(qs: seq<nat>, k: nat): nat
    requires k <= |qs|
  {
    if k == 0 then 0 else qs[k - 1]
  }

  /** Some literal of the clause at one of the depths read so far is true. */
  ghost predicate ReadTrue(D: Derivation, qd: seq<int>, E: set<Var>, qs: seq<nat>, k: nat, c: seq<Lit>)
    requires D.P.Copies(c) && k <= |qs|
  {
    exists j :: 0 <= j < k && HoldsAt(D.P, qd, E, qs[j] as int - 1, c)
  }

  /** A leaf is satisfied exactly if a literal read so far is true. Of its variables those that are not
      assigned yet are active, unless it is satisfied. */
  ghost predicate LeafRule(D: Derivation, qd: seq<int>, E: set<Var>, qs: seq<nat>, k: nat, num: nat, T: Tables<bool>,
      i: nat)
    requires Good(D, num) && Shaped(T, |D.P.clauses|, num) && 1 <= i < |D.P.clauses| && k <= |qs|
  {
    && (T.top[i] <==> ReadTrue(D, qd, E, qs, k, D.Clause(i)))
    && forall v :: 0 <= v < num ==>
         && (T.active[i][v] <==>
               HasVar(D.Clause(i), v) && CopyDepthOf(D, qd, i, v) >= Level(qs, k) && !T.top[i])
         && (T.cumulative[i][v] <==> T.active[i][v])
  }

  /** From one block to the next, what is satisfied stays so, and nothing becomes active. */
  ghost predicate RowAfter(num: nat, S: Tables<bool>, T: Tables<bool>, i: nat)
    requires Shaped(S, |T.top|, num) && Shaped(T, |T.top|, num) && i < |T.top|
  {
    && (S.top[i] ==> T.top[i])
    && forall v :: 0 <= v < num ==>
         (T.active[i][v] ==> S.active[i][v]) && (T.cumulative[i][v] ==> S.cumulative[i][v])
  }

  /** A resolvent becomes satisfied if neither the pivot is active in both parents, nor a parent without
      active pivot is not satisfied. Otherwise it inherits what is active in both, or in such a
      parent, the first one if both are; only the pivot is never active. */
  ghost predicate NodeRule(D: Derivation, num: nat, S: Tables<bool>, T: Tables<bool>, i: nat)
    requires Good(D, num) && PivotsBelow(D, num) && 1 <= i < |D.P.clauses| && D.pivots[i] != 0
    requires Shaped(S, |D.P.clauses|, num) && Shaped(T, |D.P.clauses|, num)
  {
    var p, r, x := D.Parent1(i), D.Parent2(i), D.pivots[i];
    var both, first, second := T.active[p][x] && T.active[r][x], !T.active[p][x] && !T.top[p],
      !T.active[r][x] && !T.top[r];
    && (T.top[i] <==> S.top[i] || (!both && !first && !second))
    && !T.active[i][x]
    && (forall v :: 0 < v < num && v != x ==>
          InheritsOf(both, first, second, S.active[i][v], T.active[i][v], T.active[p][v], T.active[r][v]))
    && forall v :: 0 < v < num ==>
         InheritsOf(both, first, second, S.cumulative[i][v], T.cumulative[i][v], T.cumulative[p][v],
           T.cumulative[r][v])
  }

  predicate InheritsOf(both: bool, first: bool, second: bool, was: bool, now: bool, one: bool, other: bool) {
    && (both ==> (now <==> was && (one || other)))
    && (first ==> (now <==> was && one))
    && (!both && !first && second ==> (now <==> was && other))
    && (!both && !first && !second ==> !now)
  }

  lemma NodeFollows(D: Derivation, num: nat, S: Tables<bool>, T: Tables<bool>, i: nat)
    requires Good(D, num) && PivotsBelow(D, num) && 1 <= i < |D.P.clauses| && D.pivots[i] != 0
    requires Shaped(S, |D.P.clauses|, num) && Shaped(T, |D.P.clauses|, num) && NodeStep(D, num, S, T, i)
    ensures NodeRule(D, num, S, T, i) && RowAfter(num, S, T, i)
  {
  }

  lemma {:induction false} RunLeaf(D: Derivation, qd: seq<int>, E: set<Var>, qs: seq<nat>, num: nat,
      tabs: seq<Tables<bool>>, k: nat, i: nat)
    requires Run(D, qd, E, qs, num, tabs) && k <= |qs| && 1 <= i < |D.P.clauses| && D.pivots[i] == 0
    ensures LeafRule(D, qd, E, qs, k, num, tabs[k], i)
    decreases k
  {
    if k == 0 {
      assert InitialRow(D, num, tabs[0], i);
      forall v | 0 <= v < num && HasVar(D.Clause(i), v) ensures CopyDepthOf(D, qd, i, v) >= 0 {
        HasVarPlaced(D, qd, num, i, v);
      }
    } else {
      RunLeaf(D, qd, E, qs, num, tabs, k - 1, i);
      assert LeafStep(D, qd, E, qs[k - 1], num, tabs[k - 1], tabs[k], i);
      LeafFollows(D, qd, E, qs, k - 1, num, tabs[k - 1], tabs[k], i);
    }
  }

  lemma LeafFollows(D: Derivation, qd: seq<int>, E: set<Var>, qs: seq<nat>, k: nat, num: nat, S: Tables<bool>,
      T: Tables<bool>, i: nat)
    requires Good(D, num) && Shaped(S, |D.P.clauses|, num) && Shaped(T, |D.P.clauses|, num) && 1 <= i < |D.P.clauses|
    requires k < |qs| && Level(qs, k) <= qs[k] && LeafRule(D, qd, E, qs, k, num, S, i)
    requires LeafStep(D, qd, E, qs[k], num, S, T, i)
    ensures LeafRule(D, qd, E, qs, k + 1, num, T, i) && RowAfter(num, S, T, i)
  {
    forall v | 0 <= v < num
      ensures T.active[i][v] <==> HasVar(D.Clause(i), v) && CopyDepthOf(D, qd, i, v) >= qs[k] && !T.top[i]
      ensures T.cumulative[i][v] <==> T.active[i][v]
    {
      assert T.active[i][v] == LeafEntry(D, qd, qs[k], i, v, S.active[i][v], T.top[i]);
      assert T.cumulative[i][v] == LeafEntry(D, qd, qs[k], i, v, S.cumulative[i][v], T.top[i]);
    }
  }

  /** What the rules say of the tables after k blocks and, from the first block on, of their change. */
  ghost predicate Ruled(D: Derivation, qd: seq<int>, E: set<Var>, qs: seq<nat>, num: nat, tabs: seq<Tables<bool>>,
      k: nat)
    requires Run(D, qd, E, qs, num, tabs) && k <= |qs|
  {
    && (forall i :: 1 <= i < |D.P.clauses| && D.pivots[i] == 0 ==> LeafRule(D, qd, E, qs, k, num, tabs[k], i))
    && (k > 0 ==> AllRuled(D, num, tabs[k - 1], tabs[k]))
  }

  ghost predicate AllRuled(D: Derivation, num: nat, S: Tables<bool>, T: Tables<bool>)
    requires Good(D, num) && PivotsBelow(D, num)
    requires Shaped(S, |D.P.clauses|, num) && Shaped(T, |D.P.clauses|, num)
  {
    forall i :: 1 <= i < |D.P.clauses| ==> RowRuled(D, num, S, T, i)
  }

  ghost predicate RowRuled(D: Derivation, num: nat, S: Tables<bool>, T: Tables<bool>, i: nat)
    requires Good(D, num) && PivotsBelow(D, num) && 1 <= i < |D.P.clauses|
    requires Shaped(S, |D.P.clauses|, num) && Shaped(T, |D.P.clauses|, num)
  {
    RowAfter(num, S, T, i) && (D.pivots[i] != 0 ==> NodeRule(D, num, S, T, i))
  }

  lemma RunRuled(D: Derivation, qd: seq<int>, E: set<Var>, qs: seq<nat>, num: nat, tabs: seq<Tables<bool>>, k: nat)
    requires Run(D, qd, E, qs, num, tabs) && k <= |qs|
    ensures Ruled(D, qd, E, qs, num, tabs, k)
  {
    forall i | 1 <= i < |D.P.clauses| && D.pivots[i] == 0 ensures LeafRule(D, qd, E, qs, k, num, tabs[k], i) {
      RunLeaf(D, qd, E, qs, num, tabs, k, i);
    }
    if k > 0 {
      BlockRuled(D, qd, E, qs, num, tabs, k - 1, tabs[k - 1], tabs[k]);
    }
  }

  lemma BlockRuled(D: Derivation, qd: seq<int>, E: set<Var>, qs: seq<nat>, num: nat, tabs: seq<Tables<bool>>, k: nat,
      S: Tables<bool>, T: Tables<bool>)
    requires Run(D, qd, E, qs, num, tabs) && k < |qs| && S == tabs[k] && T == tabs[k + 1]
    ensures AllRuled(D, num, S, T)
  {
    hide NodeRule, RowAfter, LeafRule;
    assert Block(D, qd, E, qs[k], num, S, T);
    forall i | 1 <= i < |D.P.clauses| ensures RowRuled(D, num, S, T, i) {
      if D.pivots[i] == 0 {
        RunLeaf(D, qd, E, qs, num, tabs, k, i);
        LeafFollows(D, qd, E, qs, k, num, S, T, i);
      } else {
        NodeFollows(D, num, S, T, i);
      }
    }
  }

  /** The extraction invariant over all blocks: active copies are unassigned variables of their
      clause, a satisfied clause has nothing active and a true assigned literal, and the root is
      never satisfied; the rules hold, and what is satisfied stays so. */
  lemma {:induction false} RunInvariant(D: Derivation, qd: seq<int>, E: set<Var>, qs: seq<nat>, num: nat,
      tabs: seq<Tables<bool>>, k: nat)
    requires Run(D, qd, E, qs, num, tabs) && k <= |qs|
    ensures Invariant(D, qd, E, Level(qs, k), num, tabs[k])
    ensures D.P.root != 0 ==> !tabs[k].top[D.P.root]
    ensures Ruled(D, qd, E, qs, num, tabs, k)
    decreases k
  {
    hide Ruled, Invariant, Block, Initial;
    RunRuled(D, qd, E, qs, num, tabs, k);
    if k == 0 {
      InitialInvariant(D, qd, E, num, tabs[0]);
    } else {
      RunInvariant(D, qd, E, qs, num, tabs, k - 1);
      BlockKeeps(D, qd, E, Level(qs, k - 1), qs[k - 1], num, tabs[k - 1], tabs[k]);
    }
    if D.P.root != 0 {
      RootNeverTop(D, qd, E, Level(qs, k), num, tabs[k]);
    }
  }

  ghost predicate CumulativeTable(D: Derivation, qd: seq<int>, q: int, num: nat, T: Tables<bool>)
    requires Good(D, num) && num > 0 && Shaped(T, |D.P.clauses|, num)
  {
    forall i :: 1 <= i < |D.P.clauses| ==> CumulativeOk(D, qd, q, num, T, i) && !T.cumulative[i][0]
  }

  lemma {:induction false} RunCumulative(D: Derivation, qd: seq<int>, E: set<Var>, qs: seq<nat>, num: nat,
      tabs: seq<Tables<bool>>, k: nat)
    requires Run(D, qd, E, qs, num, tabs) && k <= |qs|
    ensures CumulativeTable(D, qd, Level(qs, k), num, tabs[k])
    decreases k
  {
    if k == 0 {
      forall i | 1 <= i < |D.P.clauses| ensures CumulativeOk(D, qd, 0, num, tabs[0], i) {
        InitialCumulative(D, qd, num, tabs[0], i);
      }
    } else {
      RunCumulative(D, qd, E, qs, num, tabs, k - 1);
      forall i | 1 <= i < |D.P.clauses|
        ensures CumulativeOk(D, qd, Level(qs, k), num, tabs[k], i) && !tabs[k].cumulative[i][0]
      {
        BlockCumulative(D, qd, E, Level(qs, k - 1), qs[k - 1], num, tabs[k - 1], tabs[k], i);
      }
    }
  }

  ghost predicate ConsistentLeaves(D: Derivation)
    requires D.P.WellFormed() && |D.pivots| == |D.P.clauses| && forall i ::
      0 <= i < |D.P.clauses| ==> D.P.Copies(D.Clause(i))
  {
    forall j :: 1 <= j < |D.P.clauses| && D.pivots[j] == 0 ==> Consistent(D.P.Union(D.Clause(j)))
  }

  /** After every block, the copies cumulatively active at a node agree on that block. */
  lemma RunAgrees(D: Derivation, qd: seq<int>, E: set<Var>, qs: seq<nat>, num: nat, tabs: seq<Tables<bool>>, k: nat,
      Q: set<Var>, i: nat)
    requires Run(D, qd, E, qs, num, tabs) && k < |qs| && ConsistentLeaves(D)
    requires Decides(D, qd, qs[k], Q) && 1 <= i < |D.P.clauses|
    ensures Agree(D, num, tabs[k + 1], Q, i)
  {
    RunInvariant(D, qd, E, qs, num, tabs, k + 1);
    RunCumulative(D, qd, E, qs, num, tabs, k + 1);
    BlockAgrees(D, qd, E, qs[k], num, tabs[k], tabs[k + 1], Q, i);
  }

  // ----- dependence on the inputs -----

  /** The same existential choices in the blocks before q. */
  ghost predicate SameBefore(B: seq<Quant>, q: nat, E: set<Var>, F: set<Var>)
    requires AllBlocks(B)
  {
    forall d, x :: 0 <= d < q && d < |B| && B[d].kind == EXISTS && x in B[d].vars ==> (x in E <==> x in F)
  }

  /** The same existential choices in block d. */
  ghost predicate SameAt(B: seq<Quant>, d: int, E: set<Var>, F: set<Var>)
    requires AllBlocks(B)
  {
    forall x :: 0 <= d < |B| && B[d].kind == EXISTS && x in B[d].vars ==> (x in E <==> x in F)
  }

  /** The same choices in the blocks directly before the first k processed ones. */
  ghost predicate SameAsRead(B: seq<Quant>, qs: seq<nat>, k: nat, E: set<Var>, F: set<Var>)
    requires AllBlocks(B) && k <= |qs|
  {
    forall j :: 0 <= j < k ==> SameAt(B, qs[j] as int - 1, E, F)
  }

  lemma SameBeforeRead(B: seq<Quant>, qs: seq<nat>, k: nat, E: set<Var>, F: set<Var>)
    requires AllBlocks(B) && k <= |qs| && (forall i, j :: 0 <= i < j < |qs| ==> qs[i] < qs[j])
    requires SameBefore(B, Level(qs, k), E, F)
    ensures SameAsRead(B, qs, k, E, F)
  {
    forall j | 0 <= j < k ensures SameAt(B, qs[j] as int - 1, E, F) {
      assert qs[j] <= qs[k - 1];
    }
  }

  /** All leaves are expansions of matrix clauses. */
  ghost predicate LeavesOk(D: Derivation, matrix: seq<QClause>)
    requires D.P.WellFormed() && |D.pivots| == |D.P.clauses|
  {
    forall i :: 1 <= i < |D.P.clauses| && D.pivots[i] == 0 ==>
      D.P.Copies(D.P.clauses[i]) && LeafCode(D.P, matrix, i) == 0
  }

  lemma HoldsAtSame(P: Proof, B: seq<Quant>, qd: seq<int>, matrix: seq<QClause>, E: set<Var>, F: set<Var>, d: int,
      i: nat)
    requires Readable(P, B, qd, matrix) && i < |P.clauses| && LeafCode(P, matrix, i) == 0
    requires SameAt(B, d, E, F)
    ensures HoldsAt(P, qd, E, d, P.clauses[i]) <==> HoldsAt(P, qd, F, d, P.clauses[i])
  {
    forall l | l in P.clauses[i] && CopyDepth(P, qd, VarOf(l)) == d ensures Holds(P, E, l) == Holds(P, F, l) {
      var e := LeafBlock(P, B, qd, matrix, i, l);
    }
  }

  /** The tables after block qs[k] are a function of the existential choices in the blocks directly
      before the universal blocks processed so far. */
  lemma {:induction false} RunSame(D: Derivation, B: seq<Quant>, qd: seq<int>, matrix: seq<QClause>, E: set<Var>,
      F: set<Var>, qs: seq<nat>, num: nat, tabs: seq<Tables<bool>>, tabs': seq<Tables<bool>>, k: nat, i: nat)
    requires Readable(D.P, B, qd, matrix)
    requires Run(D, qd, E, qs, num, tabs) && Run(D, qd, F, qs, num, tabs') && LeavesOk(D, matrix)
    requires k <= |qs| && SameAsRead(B, qs, k, E, F) && 1 <= i < |D.P.clauses|
    ensures SameRow(tabs[k], tabs'[k], i)
    decreases k
  {
    if k == 0 {
      InitialSame(D, num, tabs[0], tabs'[0], i);
    } else {
      var q: int := qs[k - 1];
      var S, U := tabs[k - 1], tabs'[k - 1];
      forall j | 1 <= j < |D.P.clauses| ensures SameRow(S, U, j) {
        RunSame(D, B, qd, matrix, E, F, qs, num, tabs, tabs', k - 1, j);
      }
      forall j | 1 <= j < |D.P.clauses| && D.pivots[j] == 0
        ensures HoldsAt(D.P, qd, E, q - 1, D.Clause(j)) <==> HoldsAt(D.P, qd, F, q - 1, D.Clause(j))
      {
        HoldsAtSame(D.P, B, qd, matrix, E, F, q - 1, j);
      }
      BlockSame(D, qd, E, F, q, num, S, tabs[k], U, tabs'[k], i);
    }
  }

  // ----- outputs -----

  ghost predicate Annotated(P: Proof, l: Lit) {
    exists v :: v in P.annotation && l in P.annotation[v]
  }

  /** Some copy annotated with l is active in the row. */
  ghost predicate AnyActive(P: Proof, row: seq<bool>, l: Lit) {
    exists v :: v in P.annotation && l in P.annotation[v] && v < |row| && row[v]
  }

  /** The value w for u is one of those the extraction may choose. */
  ghost predicate Solves(P: Proof, row: seq<bool>, u: Var, w: bool)
    requires u > 0
  {
    if !Annotated(P, MakeLit(u, true)) then w
    else if !Annotated(P, MakeLit(u, false)) then !w
    else w == AnyActive(P, row, MakeLit(u, false)) || w == !AnyActive(P, row, MakeLit(u, true))
  }

  /** The annotation of a cumulatively active copy is consistent. */
  lemma ActiveConsistent(D: Derivation, qd: seq<int>, q: int, num: nat, T: Tables<bool>, i: nat, v: Var)
    requires Good(D, num) && num > 0 && Shaped(T, |D.P.clauses|, num) && ConsistentLeaves(D)
    requires 1 <= i < |D.P.clauses| && CumulativeOk(D, qd, q, num, T, i)
    requires v in D.P.annotation && v < num && T.cumulative[i][v]
    ensures Consistent(Elements(D.P.annotation[v]))
  {
    var j :| 1 <= j < |D.P.clauses| && D.pivots[j] == 0 && HasVar(D.Clause(j), v);
    LeafConsistent(D, num, j, v);
  }

  lemma LeafConsistent(D: Derivation, num: nat, j: nat, v: Var)
    requires Good(D, num) && ConsistentLeaves(D)
    requires 1 <= j < |D.P.clauses| && D.pivots[j] == 0 && HasVar(D.Clause(j), v) && v in D.P.annotation
    ensures Consistent(Elements(D.P.annotation[v]))
  {
    var l := MakeLit(v, MakeLit(v, false) !in D.Clause(j));
    assert l in D.Clause(j) && VarOf(l) == v;
    assert Elements(D.P.annotation[v]) <= D.P.Union(D.Clause(j));
  }

  /** Where the active copies agree on u, none is active with the opposite annotation. */
  lemma OnlyOneActive(D: Derivation, num: nat, T: Tables<bool>, Q: set<Var>, i: nat, v: Var, a: Lit)
    requires Good(D, num) && Shaped(T, |D.P.clauses|, num) && i < |D.P.clauses|
    requires Agree(D, num, T, Q, i) && VarOf(a) in Q && forall x :: x in D.P.annotation ==> x < num
    requires v in D.P.annotation && v < num && T.cumulative[i][v] && a in D.P.annotation[v]
    requires Consistent(Elements(D.P.annotation[v]))
    ensures AnyActive(D.P, T.cumulative[i], a) && !AnyActive(D.P, T.cumulative[i], Negate(a))
  {
    assert a in Elements(D.P.annotation[v]);
    assert Negate(a) !in Restrict(D.P.annotation[v], Q);
    forall x | x in D.P.annotation && x < num && T.cumulative[i][x] ensures Negate(a) !in D.P.annotation[x] {
      assert Restrict(D.P.annotation[x], Q) == Restrict(D.P.annotation[v], Q);
    }
  }

  /** The chosen value agrees with all annotations that are still active at the root. */
  lemma SolutionPlays(D: Derivation, qd: seq<int>, q: int, num: nat, T: Tables<bool>, Q: set<Var>, w: bool, v: Var,
      a: Lit)
    requires Good(D, num) && num > 0 && Shaped(T, |D.P.clauses|, num) && D.P.root != 0 && ConsistentLeaves(D)
    requires CumulativeTable(D, qd, q, num, T) && Agree(D, num, T, Q, D.P.root) && VarOf(a) in Q
    requires forall x :: x in D.P.annotation ==> x < num
    requires Solves(D.P, T.cumulative[D.P.root], VarOf(a), w)
    requires v in D.P.annotation && v < num && T.cumulative[D.P.root][v] && a in D.P.annotation[v]
    ensures w == !Sign(a)
  {
    ActiveConsistent(D, qd, q, num, T, D.P.root, v);
    OnlyOneActive(D, num, T, Q, D.P.root, v, a);
    assert Annotated(D.P, a);
    SolvedBy(D.P, T.cumulative[D.P.root], a, w);
  }

  lemma SolvedBy(P: Proof, row: seq<bool>, a: Lit, w: bool)
    requires VarOf(a) > 0 && Solves(P, row, VarOf(a), w) && Annotated(P, a)
    requires AnyActive(P, row, a) && !AnyActive(P, row, Negate(a))
    ensures w == !Sign(a)
  {
    assert a == MakeLit(VarOf(a), Sign(a)) && Negate(a) == MakeLit(VarOf(a), !Sign(a));
  }

  /** Every block's outputs play the annotations that are active at the root after that block. */
  lemma RunPlays(D: Derivation, qd: seq<int>, E: set<Var>, qs: seq<nat>, num: nat, tabs: seq<Tables<bool>>, k: nat,
      Q: seq<Var>, W: set<Var>)
    requires Run(D, qd, E, qs, num, tabs) && k < |qs| && ConsistentLeaves(D) && D.P.root != 0
    requires Decides(D, qd, qs[k], set u | u in Q) && 0 !in Q
    requires forall x :: x in D.P.annotation ==> x < num
    requires forall u :: u in Q ==> Solves(D.P, tabs[k + 1].cumulative[D.P.root], u, u in W)
    ensures PlaysActive(D, Q, num, tabs[k + 1], W)
  {
    var T, U := tabs[k + 1], set u | u in Q;
    RunCumulative(D, qd, E, qs, num, tabs, k + 1);
    RunAgrees(D, qd, E, qs, num, tabs, k, U, D.P.root);
    forall v, a | 0 <= v < num && v in D.P.annotation && T.cumulative[D.P.root][v] && a in D.P.annotation[v]
      && VarOf(a) in Q
      ensures LitTrue(W, a)
    {
      SolutionPlays(D, qd, qs[k], num, T, U, VarOf(a) in W, v, a);
    }
  }

  // ----- the constant outputs of a universal first block -----

  ghost predicate Below(D: Derivation, num: nat, T: Tables<bool>, i: nat, r: nat)
    requires Good(D, num) && Shaped(T, |D.P.clauses|, num) && i < |D.P.clauses| && r < |D.P.clauses|
  {
    forall v :: 0 <= v < num && T.cumulative[i][v] ==> T.cumulative[r][v]
  }

  /** Raw antecedent ids are positions. */
  ghost predicate IdsArePositions(P: Proof)
    requires P.WellFormed()
  {
    forall i :: 1 <= i < |P.antecedents| && !P.IsLeaf(i) ==>
      P.TraceIndex(P.antecedents[i].0) == P.antecedents[i].0 && P.TraceIndex(P.antecedents[i].1) == P.antecedents[i].1
  }

  /** Pivots are recorded for exactly the inner nodes. */
  ghost predicate PivotsMatch(D: Derivation)
    requires D.P.WellFormed() && |D.pivots| == |D.P.clauses|
  {
    forall i :: 1 <= i < |D.pivots| ==> (D.pivots[i] == 0 <==> D.P.IsLeaf(i))
  }

  lemma BelowParents(D: Derivation, num: nat, T: Tables<bool>, i: nat, r: nat)
    requires Good(D, num) && Shaped(T, |D.P.clauses|, num) && Initial(D, num, T)
    requires 1 <= i < |D.P.clauses| && r < |D.P.clauses| && D.pivots[i] != 0 && GoodNode(D, i) && Below(D, num, T, i, r)
    ensures Below(D, num, T, D.Parent1(i), r) && Below(D, num, T, D.Parent2(i), r)
  {
    assert InitialRow(D, num, T, i) && InitialRow(D, num, T, D.Parent1(i)) && InitialRow(D, num, T, D.Parent2(i));
  }

  /** Before the first block, what occurs anywhere in a proof without redundant clauses is
      cumulatively active at the root. */
  lemma AllBelowRoot(D: Derivation, num: nat, T: Tables<bool>, i: nat)
    requires Good(D, num) && Shaped(T, |D.P.clauses|, num) && Initial(D, num, T)
    requires IdsArePositions(D.P) && PivotsMatch(D) && D.P.root != 0
    requires 1 <= i < |D.P.clauses| && Reachable(D.P, i)
    ensures Below(D, num, T, i, D.P.root)
  {
    var S := set j | 1 <= j < |D.P.clauses| && Below(D, num, T, j, D.P.root);
    forall a, b | a in S && Uses(D.P, a, b) ensures b in S {
      assert D.pivots[a] != 0 && GoodNode(D, a) && InitialRow(D, num, T, a);
      BelowParents(D, num, T, a, D.P.root);
      assert b == D.Parent1(a) || b == D.Parent2(a);
    }
    ClosedHoldsReachable(D.P, S, i);
  }

  /** The assertion made for a universal first block: every variable of it is annotated in exactly
      one polarity, if every annotated copy occurs in the proof. */
  /** Everything that occurs in a leaf below a clause. */
  ghost predicate OccursBelow(D: Derivation, num: nat, i: nat, v: Var)
    requires Good(D, num) && 1 <= i < |D.P.clauses|
    decreases i
  {
    if D.pivots[i] == 0 then HasVar(D.Clause(i), v)
    else GoodNode(D, i) && v > 0 && (OccursBelow(D, num, D.Parent1(i), v) || OccursBelow(D, num, D.Parent2(i), v))
  }

  /** The tables before the first block. */
  ghost function InitialTables(D: Derivation, num: nat): (T: Tables<bool>)
    requires Good(D, num)
    ensures Shaped(T, |D.P.clauses|, num)
  {
    var n := |D.P.clauses|;
    Tables(seq(n, i requires 0 <= i < n => seq(num, v requires 0 <= v < num => HasVar(D.Clause(i), v))),
           seq(n, i requires 0 <= i < n => seq(num, v requires 0 <= v < num => i > 0 && OccursBelow(D, num, i, v))),
           seq(n, i => false))
  }

  lemma InitialTablesExist(D: Derivation, num: nat) returns (T: Tables<bool>)
    requires Good(D, num)
    ensures Shaped(T, |D.P.clauses|, num) && Initial(D, num, T)
  {
    T := InitialTables(D, num);
    forall i | 1 <= i < |D.P.clauses| ensures InitialRow(D, num, T, i) {
      assert D.pivots[i] != 0 ==> GoodNode(D, i);
    }
  }

  lemma FirstBlockDecided(D: Derivation, qd: seq<int>, num: nat, T: Tables<bool>, Q: set<Var>, u: Var)
    requires Good(D, num) && PivotsBelow(D, num) && Shaped(T, |D.P.clauses|, num) && Initial(D, num, T)
    requires IdsArePositions(D.P) && PivotsMatch(D) && D.P.root != 0 && ConsistentLeaves(D) && Placed(D, qd)
    requires forall i :: 1 <= i < |D.P.clauses| ==> Reachable(D.P, i)
    requires Decides(D, qd, 0, Q) && u in Q && u > 0
    requires D.P.annotation != map[] && forall v :: v in D.P.annotation ==> InLeaf(D, v)
    ensures Annotated(D.P, MakeLit(u, false)) != Annotated(D.P, MakeLit(u, true))
  {
    InitialAgrees(D, qd, num, T, Q, D.P.root);
    forall v | v in D.P.annotation
      ensures v < num && T.cumulative[D.P.root][v] && u in AnnotatedVars(D.P.annotation[v])
        && Consistent(Elements(D.P.annotation[v]))
    {
      AnnotatedAtRoot(D, qd, num, T, v);
    }
    OnePolarity(D, num, T, Q, D.P.root, u);
  }

  lemma OnePolarity(D: Derivation, num: nat, T: Tables<bool>, Q: set<Var>, i: nat, u: Var)
    requires Good(D, num) && Shaped(T, |D.P.clauses|, num) && i < |D.P.clauses|
    requires Agree(D, num, T, Q, i) && u in Q && u > 0 && D.P.annotation != map[]
    requires forall v :: v in D.P.annotation ==>
               v < num && T.cumulative[i][v] && u in AnnotatedVars(D.P.annotation[v])
                 && Consistent(Elements(D.P.annotation[v]))
    ensures Annotated(D.P, MakeLit(u, false)) != Annotated(D.P, MakeLit(u, true))
  {
    var v :| v in D.P.annotation;
    var a :| a in D.P.annotation[v] && VarOf(a) == u;
    OnlyOneActive(D, num, T, Q, i, v, a);
    assert Annotated(D.P, a);
    assert !Annotated(D.P, Negate(a));
    assert a == MakeLit(u, Sign(a)) && Negate(a) == MakeLit(u, !Sign(a));
  }

  lemma AnnotatedAtRoot(D: Derivation, qd: seq<int>, num: nat, T: Tables<bool>, v: Var)
    requires Good(D, num) && Shaped(T, |D.P.clauses|, num) && Initial(D, num, T) && ConsistentLeaves(D) && Placed(D, qd)
    requires IdsArePositions(D.P) && PivotsMatch(D) && D.P.root != 0
    requires forall i :: 1 <= i < |D.P.clauses| ==> Reachable(D.P, i)
    requires InLeaf(D, v) && v in D.P.annotation
    ensures v < num && T.cumulative[D.P.root][v] && v in D.P.original && CopyDepth(D.P, qd, v) >= 0
    ensures Consistent(Elements(D.P.annotation[v]))
  {
    var i :| 1 <= i < |D.P.clauses| && D.pivots[i] == 0 && HasVar(D.Clause(i), v);
    HasVarPlaced(D, qd, num, i, v);
    HasVarBelow(D, num, i, v);
    assert InitialRow(D, num, T, i);
    LeafConsistent(D, num, i, v);
    AllBelowRoot(D, num, T, i);
  }

  lemma HasVarBelow(D: Derivation, num: nat, i: nat, v: Var)
    requires Good(D, num) && i < |D.P.clauses| && HasVar(D.Clause(i), v)
    ensures v < num
  {
    var l := MakeLit(v, MakeLit(v, false) !in D.Clause(i));
    assert l in D.Clause(i) && VarOf(l) == v;
  }
}
