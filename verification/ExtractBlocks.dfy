/** The loops of the extraction over the trace: the tables before the first block, and what one
    universal block makes of them. */
module ExtractBlocks {
  import opened Literals
  import opened FerpProofs
  import opened ExtractTheory
  import opened ExtractSteps
  import opened Aigs

  /** Before the first block, or at universal block q. The original spells the loops over the trace
      out twice, once for each stage. */
  datatype Stage = Start | AtBlock(q: int)

  ghost predicate StepAt(D: Derivation, qd: seq<int>, E: set<Var>, st: Stage, num: nat, S: Tables<bool>,
      T: Tables<bool>, i: nat)
    requires Good(D, num) && PivotsBelow(D, num) && num > 0 && 1 <= i < |D.P.clauses|
    requires Shaped(S, |D.P.clauses|, num) && Shaped(T, |D.P.clauses|, num)
  {
    match st
    case Start => InitialRow(D, num, T, i)
    case AtBlock(q) => if D.pivots[i] == 0 then LeafStep(D, qd, E, q, num, S, T, i) else NodeStep(D, num, S, T, i)
  }

  /** What a whole stage makes of the tables. */
  ghost predicate StageOk(D: Derivation, qd: seq<int>, E: set<Var>, st: Stage, num: nat, S: Tables<bool>,
      T: Tables<bool>)
    requires Good(D, num) && PivotsBelow(D, num) && num > 0
    requires Shaped(S, |D.P.clauses|, num) && Shaped(T, |D.P.clauses|, num)
  {
    match st
    case Start => Initial(D, num, T)
    case AtBlock(q) => Block(D, qd, E, q, num, S, T)
  }

  /** Row i of the new tables is right under every input. */
  ghost predicate Done(D: Derivation, qd: seq<int>, st: Stage, num: nat, gs: seq<And>, S: Tables<nat>, T: Tables<nat>,
      i: nat)
    requires Good(D, num) && PivotsBelow(D, num) && num > 0 && 1 <= i < |D.P.clauses|
    requires Shaped(S, |D.P.clauses|, num) && Shaped(T, |D.P.clauses|, num)
  {
    forall E: set<nat> :: StepAt(D, qd, E, st, num, At(gs, E, S), At(gs, E, T), i)
  }

  ghost predicate SameEntries(S: Tables<nat>, T: Tables<nat>, i: nat) {
    && i < |S.active| && i < |S.cumulative| && i < |S.top| && i < |T.active| && i < |T.cumulative| && i < |T.top|
    && S.active[i] == T.active[i] && S.cumulative[i] == T.cumulative[i] && S.top[i] == T.top[i]
  }

  ghost predicate Ready(D: Derivation, num: nat, n: nat, later: set<nat>, T: Tables<nat>) {
    Shaped(T, |D.P.clauses|, num) && TablesUsable(n, later, T)
  }

  ghost predicate Setup(D: Derivation, num: nat) {
    Good(D, num) && PivotsBelow(D, num) && num > 0
  }

  /** A marked clause has its new row and so have its parents; any other has its old row. */
  ghost predicate RowProgress(D: Derivation, qd: seq<int>, st: Stage, num: nat, gs: seq<And>, n: nat, later: set<nat>,
                              S: Tables<nat>, T: Tables<nat>, mark: seq<bool>, i: nat) {
    && Setup(D, num) && Ready(D, num, n, later, S) && Ready(D, num, n, later, T) && i < |mark| == |D.P.clauses|
    && (i >= 1 && mark[i] ==>
          Done(D, qd, st, num, gs, S, T, i)
            && (D.pivots[i] != 0 ==> GoodNode(D, i) && mark[D.Parent1(i)] && mark[D.Parent2(i)]))
    && (i >= 1 && !mark[i] ==> SameEntries(S, T, i))
  }

  ghost predicate Rows(D: Derivation, qd: seq<int>, st: Stage, num: nat, gs: seq<And>, n: nat, later: set<nat>,
                       S: Tables<nat>, T: Tables<nat>, mark: seq<bool>, k: nat) {
    k == 0 || (RowProgress(D, qd, st, num, gs, n, later, S, T, mark, k - 1)
      && Rows(D, qd, st, num, gs, n, later, S, T, mark, k - 1))
  }

  /** All rows are in progress from S to T. */
  ghost predicate Progress(D: Derivation, qd: seq<int>, st: Stage, num: nat, gs: seq<And>, n: nat, later: set<nat>,
                           S: Tables<nat>, T: Tables<nat>, mark: seq<bool>) {
    |mark| == |D.P.clauses| && Rows(D, qd, st, num, gs, n, later, S, T, mark, |mark|)
  }

  lemma {:induction false} RowsHas(D: Derivation, qd: seq<int>, st: Stage, num: nat, gs: seq<And>, n: nat,
      later: set<nat>, S: Tables<nat>, T: Tables<nat>, mark: seq<bool>, k: nat, i: nat)
    requires Rows(D, qd, st, num, gs, n, later, S, T, mark, k) && i < k
    ensures RowProgress(D, qd, st, num, gs, n, later, S, T, mark, i)
  {
    if i < k - 1 {
      RowsHas(D, qd, st, num, gs, n, later, S, T, mark, k - 1, i);
    }
  }

  lemma {:induction false} RowsAll(D: Derivation, qd: seq<int>, st: Stage, num: nat, gs: seq<And>, n: nat,
      later: set<nat>, S: Tables<nat>, T: Tables<nat>, mark: seq<bool>, k: nat)
    requires forall i: nat :: i < k ==> RowProgress(D, qd, st, num, gs, n, later, S, T, mark, i)
    ensures Rows(D, qd, st, num, gs, n, later, S, T, mark, k)
  {
    if k > 0 {
      RowsAll(D, qd, st, num, gs, n, later, S, T, mark, k - 1);
    }
  }

  /** A step depends only on its own row and on those of its parents. */
  lemma StepFrame(D: Derivation, qd: seq<int>, E: set<Var>, st: Stage, num: nat, S: Tables<bool>, T: Tables<bool>,
      U: Tables<bool>, i: nat)
    requires Setup(D, num) && 1 <= i < |D.P.clauses|
    requires Shaped(S, |D.P.clauses|, num) && Shaped(T, |D.P.clauses|, num) && Shaped(U, |D.P.clauses|, num)
    requires StepAt(D, qd, E, st, num, S, T, i) && SameRow(T, U, i)
    requires D.pivots[i] != 0 ==> GoodNode(D, i) && SameRow(T, U, D.Parent1(i)) && SameRow(T, U, D.Parent2(i))
    ensures StepAt(D, qd, E, st, num, S, U, i)
  {
  }

  lemma InstalledRow(gs: seq<And>, E: set<nat>, T: Tables<nat>, i: nat, a: seq<nat>, c: seq<nat>, t: nat, j: nat)
    requires i < |T.active| && |T.active| == |T.cumulative| == |T.top| && j < |T.active| && j != i
    ensures SameRow(At(gs, E, T), At(gs, E, Install(T, i, a, c, t)), j)
  {
  }

  lemma DoneInstall(D: Derivation, qd: seq<int>, st: Stage, num: nat, gs: seq<And>, S: Tables<nat>, T: Tables<nat>,
                    i: nat, a: seq<nat>, c: seq<nat>, t: nat, j: nat)
    requires Setup(D, num) && 1 <= i < |D.P.clauses| && 1 <= j < |D.P.clauses| && i != j
    requires Shaped(S, |D.P.clauses|, num) && Shaped(T, |D.P.clauses|, num) && |a| == |c| == num
    requires Done(D, qd, st, num, gs, S, T, j)
    requires D.pivots[j] != 0 ==> GoodNode(D, j) && D.Parent1(j) != i && D.Parent2(j) != i
    ensures Done(D, qd, st, num, gs, S, Install(T, i, a, c, t), j)
  {
    forall E: set<nat> ensures StepAt(D, qd, E, st, num, At(gs, E, S), At(gs, E, Install(T, i, a, c, t)), j) {
      StepInstall(D, qd, E, st, num, gs, At(gs, E, S), T, i, a, c, t, j);
    }
  }

  lemma StepInstall(D: Derivation, qd: seq<int>, E: set<Var>, st: Stage, num: nat, gs: seq<And>, S: Tables<bool>,
      T: Tables<nat>, i: nat, a: seq<nat>, c: seq<nat>, t: nat, j: nat)
    requires Setup(D, num) && 1 <= i < |D.P.clauses| && 1 <= j < |D.P.clauses| && i != j
    requires Shaped(S, |D.P.clauses|, num) && Shaped(T, |D.P.clauses|, num) && |a| == |c| == num
    requires StepAt(D, qd, E, st, num, S, At(gs, E, T), j)
    requires D.pivots[j] != 0 ==> GoodNode(D, j) && D.Parent1(j) != i && D.Parent2(j) != i
    ensures StepAt(D, qd, E, st, num, S, At(gs, E, Install(T, i, a, c, t)), j)
  {
    var U, U' := At(gs, E, T), At(gs, E, Install(T, i, a, c, t));
    InstalledRow(gs, E, T, i, a, c, t, j);
    if D.pivots[j] != 0 {
      InstalledRow(gs, E, T, i, a, c, t, D.Parent1(j));
      InstalledRow(gs, E, T, i, a, c, t, D.Parent2(j));
    }
    StepFrame(D, qd, E, st, num, S, U, U', j);
  }

  lemma DoneStable(D: Derivation, qd: seq<int>, st: Stage, num: nat, gs: seq<And>, n: nat, hs: seq<And>, m: nat,
      later: set<nat>, S: Tables<nat>, T: Tables<nat>, i: nat)
    requires Setup(D, num) && 1 <= i < |D.P.clauses| && Keeps(gs, n, hs, m, later)
    requires Ready(D, num, n, later, S) && Ready(D, num, n, later, T) && Done(D, qd, st, num, gs, S, T, i)
    ensures Done(D, qd, st, num, hs, S, T, i)
  {
    forall E: set<nat> ensures StepAt(D, qd, E, st, num, At(hs, E, S), At(hs, E, T), i) {
      AtStable(gs, n, hs, m, later, S, E);
      AtStable(gs, n, hs, m, later, T, E);
    }
  }

  lemma ReadyStable(D: Derivation, num: nat, gs: seq<And>, n: nat, hs: seq<And>, m: nat, later: set<nat>,
      T: Tables<nat>)
    requires Keeps(gs, n, hs, m, later) && Ready(D, num, n, later, T)
    ensures Ready(D, num, m, later, T)
  {
    AtStable(gs, n, hs, m, later, T, {});
  }

  lemma ReadyInstall(D: Derivation, num: nat, n: nat, later: set<nat>, T: Tables<nat>, i: nat, a: seq<nat>, c: seq<nat>,
      t: nat)
    requires Ready(D, num, n, later, T) && i < |D.P.clauses| && |a| == |c| == num
    requires RowUsable(n, later, a) && RowUsable(n, later, c) && AigBuilder.Usable(n, later, t)
    ensures Ready(D, num, n, later, Install(T, i, a, c, t))
  {
  }

  /** Processing one more clause. */
  lemma ProgressStep(D: Derivation, qd: seq<int>, st: Stage, num: nat, gs: seq<And>, n: nat, hs: seq<And>, m: nat,
      later: set<nat>, S: Tables<nat>, T: Tables<nat>, mark: seq<bool>, i: nat, a: seq<nat>, c: seq<nat>, t: nat)
    requires Progress(D, qd, st, num, gs, n, later, S, T, mark) && 1 <= i < |mark| && !mark[i]
    requires RowProgress(D, qd, st, num, gs, n, later, S, T, mark, i)
    requires Keeps(gs, n, hs, m, later) && |a| == |c| == num
    requires RowUsable(m, later, a) && RowUsable(m, later, c) && AigBuilder.Usable(m, later, t)
    requires Done(D, qd, st, num, hs, S, Install(T, i, a, c, t), i)
    requires D.pivots[i] != 0 ==> GoodNode(D, i) && mark[D.Parent1(i)] && mark[D.Parent2(i)]
    ensures Progress(D, qd, st, num, hs, m, later, S, Install(T, i, a, c, t), mark[i := true])
  {
    ReadyStable(D, num, gs, n, hs, m, later, S);
    ReadyStable(D, num, gs, n, hs, m, later, T);
    ReadyInstall(D, num, m, later, T, i, a, c, t);
    var mark', T' := mark[i := true], Install(T, i, a, c, t);
    forall j: nat | j < |mark| ensures RowProgress(D, qd, st, num, hs, m, later, S, T', mark', j) {
      if j != i {
        RowsHas(D, qd, st, num, gs, n, later, S, T, mark, |mark|, j);
        if j >= 1 && mark[j] {
          DoneStable(D, qd, st, num, gs, n, hs, m, later, S, T, j);
          DoneInstall(D, qd, st, num, hs, S, T, i, a, c, t, j);
        }
      }
    }
    RowsAll(D, qd, st, num, hs, m, later, S, T', mark', |mark'|);
  }

  // ----- leaves -----

  lemma LeafInstalled(D: Derivation, qd: seq<int>, q: int, num: nat, hs: seq<And>, S: Tables<nat>, T: Tables<nat>,
                      i: nat, a: seq<nat>, c: seq<nat>, t: nat, out: nat, E: set<nat>)
    requires Setup(D, num) && 1 <= i < |D.P.clauses| && D.pivots[i] == 0
    requires Shaped(S, |D.P.clauses|, num) && Shaped(T, |D.P.clauses|, num) && SameEntries(S, T, i)
    requires LeafRowOk(D, qd, q, i, S.active[i], a, out) && LeafRowOk(D, qd, q, i, S.cumulative[i], c, out)
    requires Value(hs, E, t) == !Value(hs, E, out) && !Value(hs, E, FALSE_LIT)
    requires Value(hs, E, t) == (Value(hs, E, S.top[i]) || HoldsAt(D.P, qd, E, q - 1, D.Clause(i)))
    ensures StepAt(D, qd, E, AtBlock(q), num, At(hs, E, S), At(hs, E, Install(T, i, a, c, t)), i)
  {
    var s, u := At(hs, E, S), At(hs, E, Install(T, i, a, c, t));
    assert u.top[i] == Value(hs, E, t) && s.top[i] == Value(hs, E, S.top[i]);
    forall v | 0 <= v < num
      ensures u.active[i][v] == LeafEntry(D, qd, q, i, v, s.active[i][v], u.top[i])
      ensures u.cumulative[i][v] == LeafEntry(D, qd, q, i, v, s.cumulative[i][v], u.top[i])
    {
      LeafEntryAt(D, qd, q, i, S.active[i], a, out, hs, E, t, v);
      LeafEntryAt(D, qd, q, i, S.cumulative[i], c, out, hs, E, t, v);
    }
  }

  ghost predicate LeafRowOk(D: Derivation, qd: seq<int>, q: int, i: nat, row: seq<nat>, row': seq<nat>, out: nat)
    requires i < |D.P.clauses|
  {
    && |row'| == |row|
    && (forall v :: 0 <= v < |row| && !HasVar(D.Clause(i), v) ==> row'[v] == row[v])
    && (forall v :: 0 <= v < |row| && HasVar(D.Clause(i), v) ==>
          v in D.P.original && row'[v] == if CopyDepth(D.P, qd, v) < q then FALSE_LIT else out)
  }

  lemma LeafEntryAt(D: Derivation, qd: seq<int>, q: int, i: nat, row: seq<nat>, row': seq<nat>, out: nat, hs: seq<And>,
      E: set<nat>, t: nat, v: Var)
    requires i < |D.P.clauses| && D.P.Copies(D.Clause(i)) && LeafRowOk(D, qd, q, i, row, row', out) && v < |row|
    requires Value(hs, E, t) == !Value(hs, E, out) && !Value(hs, E, FALSE_LIT)
    ensures Value(hs, E, row'[v]) == LeafEntry(D, qd, q, i, v, Value(hs, E, row[v]), Value(hs, E, t))
  {
  }

  lemma LeafRowUsable(D: Derivation, qd: seq<int>, q: int, i: nat, row: seq<nat>, row': seq<nat>, out: nat, n: nat,
      later: set<nat>)
    requires i < |D.P.clauses| && LeafRowOk(D, qd, q, i, row, row', out)
    requires RowUsable(n, later, row) && AigBuilder.Usable(n, later, out) && AigBuilder.Usable(n, later, FALSE_LIT)
    ensures RowUsable(n, later, row')
  {
    forall v | 0 <= v < |row'| ensures AigBuilder.Usable(n, later, row'[v]) {
      assert AigBuilder.Usable(n, later, row[v]);
    }
  }

  method ProcessLeaf(b: AigBuilder, D: Derivation, qd: seq<int>, q: int, ghost num: nat, ghost S: Tables<nat>,
      T: Tables<nat>, ghost mark: seq<bool>, i: nat) returns (T': Tables<nat>)
    requires b.Valid() && Progress(D, qd, AtBlock(q), num, b.ands, b.current_aig_var, b.reserved, S, T, mark)
    requires 1 <= i < |D.P.clauses|
      && RowProgress(D, qd, AtBlock(q), num, b.ands, b.current_aig_var, b.reserved, S, T, mark, i)
    requires !mark[i] && D.pivots[i] == 0 && InputsReady(b, D.P, D.Clause(i))
    modifies b`ands, b`current_aig_var, b`node_cache, b`inv_node_cache
    ensures b.Valid() && AigBuilder.Extends(old(b.ands), old(b.current_aig_var), b.ands, b.current_aig_var)
    ensures old(b.inv_node_cache.Keys) <= b.inv_node_cache.Keys
    ensures Progress(D, qd, AtBlock(q), num, b.ands, b.current_aig_var, b.reserved, S, T', mark[i := true])
  {
    ghost var gs, n := b.ands, b.current_aig_var;
    var out := LeafCube(b, D.P, qd, q - 1, D.Clause(i), T.top[i]);
    ExtendsKeeps(gs, n, b.ands, b.current_aig_var, b.reserved);
    var t := Not(out);
    var a := LeafRow(D.P, qd, q, D.Clause(i), T.active[i], out);
    var c := LeafRow(D.P, qd, q, D.Clause(i), T.cumulative[i], out);
    T' := Install(T, i, a, c, t);
    forall E: set<nat> ensures StepAt(D, qd, E, AtBlock(q), num, At(b.ands, E, S), At(b.ands, E, T'), i) {
      NotValue(b.ands, E, out);
      AigBuilder.ConstantValue(b.ands, E);
      assert Value(b.ands, E, S.top[i]) == Value(gs, E, S.top[i]);
      LeafInstalled(D, qd, q, num, b.ands, S, T, i, a, c, t, out, E);
    }
    ReadyStable(D, num, gs, n, b.ands, b.current_aig_var, b.reserved, T);
    ConstantUsable(b);
    LeafRowUsable(D, qd, q, i, T.active[i], a, out, b.current_aig_var, b.reserved);
    LeafRowUsable(D, qd, q, i, T.cumulative[i], c, out, b.current_aig_var, b.reserved);
    ProgressStep(D, qd, AtBlock(q), num, gs, n, b.ands, b.current_aig_var, b.reserved, S, T, mark, i, a, c, t);
  }

  // ----- inner nodes -----

  /** What the literals built for a node have to satisfy. */
  ghost predicate NodeLits(D: Derivation, hs: seq<And>, T: Tables<nat>, i: nat, c1: nat, c2: nat, c3: nat, t: nat)
    requires i < |D.P.clauses| && |D.pivots| == |D.P.clauses| == |D.P.antecedents| && GoodNode(D, i)
    requires Shaped(T, |D.P.clauses|, if |T.active| == 0 then 0 else |T.active[0]|)
    requires forall j :: 0 <= j < |T.active| ==> D.pivots[i] < |T.active[j]|
  {
    var p, r, x := D.Parent1(i), D.Parent2(i), D.pivots[i];
    forall E: set<nat> ::
      && Value(hs, E, c1) == (Value(hs, E, T.active[p][x]) && Value(hs, E, T.active[r][x]))
      && Value(hs, E, c2) == (!Value(hs, E, T.active[p][x]) && !Value(hs, E, T.top[p]))
      && Value(hs, E, c3) == (!Value(hs, E, T.active[r][x]) && !Value(hs, E, T.top[r]))
      && Value(hs, E, t) == (Value(hs, E, T.top[i]) || !(Value(hs, E, c1) || Value(hs, E, c2) || Value(hs, E, c3)))
  }

  lemma NodeInstalled(D: Derivation, qd: seq<int>, q: int, num: nat, hs: seq<And>, S: Tables<nat>, T: Tables<nat>,
                      i: nat, a: seq<nat>, c: seq<nat>, t: nat, c1: nat, c2: nat, c3: nat, E: set<nat>)
    requires Setup(D, num) && 1 <= i < |D.P.clauses| && D.pivots[i] != 0 && GoodNode(D, i)
    requires Shaped(S, |D.P.clauses|, num) && Shaped(T, |D.P.clauses|, num) && SameEntries(S, T, i)
    requires NodeLits(D, hs, T, i, c1, c2, c3, t)
    requires |a| == |c| == num && a[0] == T.active[i][0] && c[0] == T.cumulative[i][0]
    requires RowFormula(hs, a, T.active[i], c1, c2, c3, T.active[D.Parent1(i)], T.active[D.Parent2(i)], D.pivots[i])
    requires RowFormula(hs, c, T.cumulative[i], c1, c2, c3, T.cumulative[D.Parent1(i)], T.cumulative[D.Parent2(i)], 0)
    ensures StepAt(D, qd, E, AtBlock(q), num, At(hs, E, S), At(hs, E, Install(T, i, a, c, t)), i)
  {
    var p, r, x := D.Parent1(i), D.Parent2(i), D.pivots[i];
    var s, u := At(hs, E, S), At(hs, E, Install(T, i, a, c, t));
    var a1, t1, a2, t2 := u.active[p][x], u.top[p], u.active[r][x], u.top[r];
    assert a1 == Value(hs, E, T.active[p][x]) && a2 == Value(hs, E, T.active[r][x]);
    assert t1 == Value(hs, E, T.top[p]) && t2 == Value(hs, E, T.top[r]);
    assert u.top[i] == Value(hs, E, t) && s.top[i] == Value(hs, E, S.top[i]);
    RowChoice(hs, E, a, T.active[i], c1, c2, c3, T.active[p], T.active[r], x, a1, t1, a2, t2);
    RowChoice(hs, E, c, T.cumulative[i], c1, c2, c3, T.cumulative[p], T.cumulative[r], 0, a1, t1, a2, t2);
    assert u.active[i] == RowAt(hs, E, a) && u.cumulative[i] == RowAt(hs, E, c);
    StepFromEntries(D, qd, E, q, num, s, u, i);
  }

  lemma StepFromEntries(D: Derivation, qd: seq<int>, E: set<Var>, q: int, num: nat, s: Tables<bool>, u: Tables<bool>,
      i: nat)
    requires Setup(D, num) && 1 <= i < |D.P.clauses| && D.pivots[i] != 0 && GoodNode(D, i)
    requires Shaped(s, |D.P.clauses|, num) && Shaped(u, |D.P.clauses|, num)
    requires var p, r, x := D.Parent1(i), D.Parent2(i), D.pivots[i];
             var a1, t1, a2, t2 := u.active[p][x], u.top[p], u.active[r][x], u.top[r];
             && u.top[i] == NewTop(s.top[i], a1, t1, a2, t2)
             && (forall v :: 0 < v < num ==>
                  u.active[i][v] == (v != x && s.active[i][v]
                    && Choose(a1, t1, a2, t2, u.active[p][v], u.active[r][v])))
             && (forall v :: 0 < v < num ==>
                  u.cumulative[i][v] == (s.cumulative[i][v]
                    && Choose(a1, t1, a2, t2, u.cumulative[p][v], u.cumulative[r][v])))
    requires u.active[i][0] == s.active[i][0] && u.cumulative[i][0] == s.cumulative[i][0]
    ensures StepAt(D, qd, E, AtBlock(q), num, s, u, i)
  {
  }

  lemma RowChoice(hs: seq<And>, E: set<nat>, row: seq<nat>, prev: seq<nat>, c1: nat, c2: nat, c3: nat,
                  row1: seq<nat>, row2: seq<nat>, skip: nat, a1: bool, t1: bool, a2: bool, t2: bool)
    requires |row| == |prev| == |row1| == |row2| && RowFormula(hs, row, prev, c1, c2, c3, row1, row2, skip)
    requires Value(hs, E, c1) == (a1 && a2) && Value(hs, E, c2) == (!a1 && !t1) && Value(hs, E, c3) == (!a2 && !t2)
    ensures forall v :: 0 < v < |row| ==>
              RowAt(hs, E, row)[v] == (v != skip && RowAt(hs, E, prev)[v]
                && Choose(a1, t1, a2, t2, RowAt(hs, E, row1)[v], RowAt(hs, E, row2)[v]))
  {
    var now, was, x1, x2 := RowAt(hs, E, row), RowAt(hs, E, prev), RowAt(hs, E, row1), RowAt(hs, E, row2);
    forall v | 0 < v < |row| ensures now[v] == (v != skip && was[v] && Choose(a1, t1, a2, t2, x1[v], x2[v])) {
      assert now[v] == (v != skip && EntryValue(hs, E, prev[v], c1, c2, c3, row1[v], row2[v]));
      assert EntryValue(hs, E, prev[v], c1, c2, c3, row1[v], row2[v])
          == (was[v] && Choice(a1 && a2, !a1 && !t1, !a2 && !t2, x1[v], x2[v]));
      ChoiceIsChoose(a1, t1, a2, t2, x1[v], x2[v]);
    }
  }

  lemma ChoiceIsChoose(a1: bool, t1: bool, a2: bool, t2: bool, x1: bool, x2: bool)
    ensures Choice(a1 && a2, !a1 && !t1, !a2 && !t2, x1, x2) == Choose(a1, t1, a2, t2, x1, x2)
  {
  }

  /** Builds all literals of one resolvent. */
  method NodeRows(b: AigBuilder, D: Derivation, ghost num: nat, T: Tables<nat>, i: nat)
    returns (a: seq<nat>, c: seq<nat>, t: nat, ghost c1: nat, ghost c2: nat, ghost c3: nat)
    requires b.Valid() && Setup(D, num) && Ready(D, num, b.current_aig_var, b.reserved, T)
    requires 1 <= i < |D.P.clauses| && D.pivots[i] != 0 && GoodNode(D, i)
    modifies b`ands, b`current_aig_var, b`node_cache, b`inv_node_cache
    ensures b.Valid() && AigBuilder.Extends(old(b.ands), old(b.current_aig_var), b.ands, b.current_aig_var)
    ensures old(b.inv_node_cache.Keys) <= b.inv_node_cache.Keys
    ensures RowUsable(b.current_aig_var, b.reserved, a) && RowUsable(b.current_aig_var, b.reserved, c) && b.Live(t)
    ensures NodeLits(D, b.ands, T, i, c1, c2, c3, t)
    ensures |a| == |c| == num && a[0] == T.active[i][0] && c[0] == T.cumulative[i][0]
    ensures RowFormula(b.ands, a, T.active[i], c1, c2, c3, T.active[D.Parent1(i)], T.active[D.Parent2(i)], D.pivots[i])
    ensures RowFormula(b.ands, c, T.cumulative[i], c1, c2, c3, T.cumulative[D.Parent1(i)], T.cumulative[D.Parent2(i)],
      0)
  {
    ghost var later, gs, n := b.reserved, b.ands, b.current_aig_var;
    var parent1, parent2, pivot := D.Parent1(i), D.Parent2(i), D.pivots[i];
    var cond1, cond2, cond3;
    cond1, cond2, cond3, t := NodeHead(b, D, num, T, i);
    c1, c2, c3 := cond1, cond2, cond3;
    ghost var g2, n2 := b.ands, b.current_aig_var;
    ExtendsReady(D, num, gs, n, g2, n2, later, T);
    a := NodeRow(b, T.active[i], cond1, cond2, cond3, T.active[parent1], T.active[parent2], pivot);
    ghost var g3, n3 := b.ands, b.current_aig_var;
    AigBuilder.ExtendsTrans(gs, n, g2, n2, g3, n3);
    ExtendsReady(D, num, g2, n2, g3, n3, later, T);
    LitsLater(n2, n3, later, cond1, cond2, cond3, t);
    c := NodeRow(b, T.cumulative[i], cond1, cond2, cond3, T.cumulative[parent1], T.cumulative[parent2], 0);
    ghost var g4, n4 := b.ands, b.current_aig_var;
    AigBuilder.ExtendsTrans(gs, n, g3, n3, g4, n4);
    AigBuilder.ExtendsTrans(g2, n2, g3, n3, g4, n4);
    RowFormulaStable(g3, n3, g4, n4, later, a, T.active[i], cond1, cond2, cond3, T.active[parent1], T.active[parent2],
      pivot);
    ExtendsKeeps(g3, n3, g4, n4, later);
    RowStable(g3, n3, g4, n4, later, a, {});
    LitsLater(n3, n4, later, cond1, cond2, cond3, t);
    NodeLitsStable(D, num, g2, n2, g4, n4, later, T, i, cond1, cond2, cond3, t);
  }

  lemma LitsLater(n: nat, m: nat, later: set<nat>, c1: nat, c2: nat, c3: nat, t: nat)
    requires n <= m && AigBuilder.Usable(n, later, c1) && AigBuilder.Usable(n, later, c2)
    requires AigBuilder.Usable(n, later, c3) && AigBuilder.Usable(n, later, t)
    ensures AigBuilder.Usable(m, later, c1) && AigBuilder.Usable(m, later, c2)
    ensures AigBuilder.Usable(m, later, c3) && AigBuilder.Usable(m, later, t)
  {
  }

  lemma ExtendsReady(D: Derivation, num: nat, gs: seq<And>, n: nat, hs: seq<And>, m: nat, later: set<nat>,
      T: Tables<nat>)
    requires AigBuilder.Extends(gs, n, hs, m) && Ready(D, num, n, later, T)
    ensures Ready(D, num, m, later, T) && Keeps(gs, n, hs, m, later)
  {
    ExtendsKeeps(gs, n, hs, m, later);
    ReadyStable(D, num, gs, n, hs, m, later, T);
  }

  lemma NodeLitsStable(D: Derivation, num: nat, gs: seq<And>, n: nat, hs: seq<And>, m: nat, later: set<nat>,
                       T: Tables<nat>, i: nat, c1: nat, c2: nat, c3: nat, t: nat)
    requires Setup(D, num) && 1 <= i < |D.P.clauses| && D.pivots[i] != 0 && GoodNode(D, i)
    requires Ready(D, num, n, later, T) && AigBuilder.Extends(gs, n, hs, m)
    requires AigBuilder.Usable(n, later, c1) && AigBuilder.Usable(n, later, c2)
    requires AigBuilder.Usable(n, later, c3) && AigBuilder.Usable(n, later, t)
    requires NodeLits(D, gs, T, i, c1, c2, c3, t)
    ensures NodeLits(D, hs, T, i, c1, c2, c3, t)
  {
    var p, r, x := D.Parent1(i), D.Parent2(i), D.pivots[i];
    assert AigBuilder.Usable(n, later, T.active[p][x]) && AigBuilder.Usable(n, later, T.active[r][x]);
    assert AigBuilder.Usable(n, later, T.top[p]) && AigBuilder.Usable(n, later, T.top[r])
      && AigBuilder.Usable(n, later, T.top[i]);
    forall E: set<nat>, l: nat | AigBuilder.Usable(n, later, l) ensures Value(hs, E, l) == Value(gs, E, l) {
    }
  }

  /** The conditions and the new top entry of a resolvent. */
  method NodeHead(b: AigBuilder, D: Derivation, ghost num: nat, T: Tables<nat>, i: nat)
    returns (c1: nat, c2: nat, c3: nat, t: nat)
    requires b.Valid() && Setup(D, num) && Ready(D, num, b.current_aig_var, b.reserved, T)
    requires 1 <= i < |D.P.clauses| && D.pivots[i] != 0 && GoodNode(D, i)
    modifies b`ands, b`current_aig_var, b`node_cache, b`inv_node_cache
    ensures b.Valid() && AigBuilder.Extends(old(b.ands), old(b.current_aig_var), b.ands, b.current_aig_var)
    ensures old(b.inv_node_cache.Keys) <= b.inv_node_cache.Keys
    ensures b.Live(c1) && b.Live(c2) && b.Live(c3) && b.Live(t)
    ensures NodeLits(D, b.ands, T, i, c1, c2, c3, t)
  {
    ghost var later, gs, n := b.reserved, b.ands, b.current_aig_var;
    var parent1, parent2, pivot := D.Parent1(i), D.Parent2(i), D.pivots[i];
    var a1, t1, a2, t2, t0 := T.active[parent1][pivot], T.top[parent1], T.active[parent2][pivot], T.top[parent2],
      T.top[i];
    assert b.Live(a1) && b.Live(t1) && b.Live(a2) && b.Live(t2) && b.Live(t0);
    c1, c2, c3 := Conditions(b, a1, t1, a2, t2);
    ghost var g1, n1 := b.ands, b.current_aig_var;
    UsableLater(n, n1, later, t0);
    t := NodeTop(b, t0, c1, c2, c3);
    AigBuilder.ExtendsTrans(gs, n, g1, n1, b.ands, b.current_aig_var);
    LitsLater(n1, b.current_aig_var, later, c1, c2, c3, c1);
    HeadValues(g1, n1, b.ands, b.current_aig_var, later, a1, t1, a2, t2, t0, c1, c2, c3, t);
  }

  lemma HeadValues(gs: seq<And>, n: nat, hs: seq<And>, m: nat, later: set<nat>,
                   a1: nat, t1: nat, a2: nat, t2: nat, t0: nat, c1: nat, c2: nat, c3: nat, t: nat)
    requires AigBuilder.Extends(gs, n, hs, m)
    requires LitVar(a1) < n && LitVar(t1) < n && LitVar(a2) < n && LitVar(t2) < n && LitVar(t0) < n
    requires LitVar(c1) < n && LitVar(c2) < n && LitVar(c3) < n
    requires forall E: set<nat> :: Value(gs, E, c1) == (Value(gs, E, a1) && Value(gs, E, a2))
    requires forall E: set<nat> :: Value(gs, E, c2) == (!Value(gs, E, a1) && !Value(gs, E, t1))
    requires forall E: set<nat> :: Value(gs, E, c3) == (!Value(gs, E, a2) && !Value(gs, E, t2))
    requires forall E: set<nat> :: Value(hs, E, t) ==
               (Value(gs, E, t0) || !(Value(gs, E, c1) || Value(gs, E, c2) || Value(gs, E, c3)))
    ensures forall E: set<nat> ::
              && Value(hs, E, c1) == (Value(hs, E, a1) && Value(hs, E, a2))
              && Value(hs, E, c2) == (!Value(hs, E, a1) && !Value(hs, E, t1))
              && Value(hs, E, c3) == (!Value(hs, E, a2) && !Value(hs, E, t2))
              && Value(hs, E, t) == (Value(hs, E, t0) || !(Value(hs, E, c1) || Value(hs, E, c2) || Value(hs, E, c3)))
  {
    forall E: set<nat>
      ensures Value(hs, E, c1) == (Value(hs, E, a1) && Value(hs, E, a2))
      ensures Value(hs, E, c2) == (!Value(hs, E, a1) && !Value(hs, E, t1))
      ensures Value(hs, E, c3) == (!Value(hs, E, a2) && !Value(hs, E, t2))
      ensures Value(hs, E, t) == (Value(hs, E, t0) || !(Value(hs, E, c1) || Value(hs, E, c2) || Value(hs, E, c3)))
    {
      assert Value(hs, E, a1) == Value(gs, E, a1) && Value(hs, E, t1) == Value(gs, E, t1);
      assert Value(hs, E, a2) == Value(gs, E, a2) && Value(hs, E, t2) == Value(gs, E, t2);
      assert Value(hs, E, c1) == Value(gs, E, c1) && Value(hs, E, c2) == Value(gs, E, c2)
        && Value(hs, E, c3) == Value(gs, E, c3);
      assert Value(hs, E, t0) == Value(gs, E, t0);
    }
  }

  method ProcessNode(b: AigBuilder, D: Derivation, ghost qd: seq<int>, ghost q: int, ghost num: nat,
      ghost S: Tables<nat>, T: Tables<nat>, ghost mark: seq<bool>, i: nat) returns (T': Tables<nat>)
    requires b.Valid() && Progress(D, qd, AtBlock(q), num, b.ands, b.current_aig_var, b.reserved, S, T, mark)
    requires 1 <= i < |D.P.clauses|
      && RowProgress(D, qd, AtBlock(q), num, b.ands, b.current_aig_var, b.reserved, S, T, mark, i)
    requires !mark[i] && D.pivots[i] != 0 && GoodNode(D, i)
    requires mark[D.Parent1(i)] && mark[D.Parent2(i)]
    modifies b`ands, b`current_aig_var, b`node_cache, b`inv_node_cache
    ensures b.Valid() && AigBuilder.Extends(old(b.ands), old(b.current_aig_var), b.ands, b.current_aig_var)
    ensures old(b.inv_node_cache.Keys) <= b.inv_node_cache.Keys
    ensures Progress(D, qd, AtBlock(q), num, b.ands, b.current_aig_var, b.reserved, S, T', mark[i := true])
  {
    ghost var gs, n := b.ands, b.current_aig_var;
    var a, c, t;
    ghost var c1, c2, c3;
    a, c, t, c1, c2, c3 := NodeRows(b, D, num, T, i);
    ExtendsKeeps(gs, n, b.ands, b.current_aig_var, b.reserved);
    T' := Install(T, i, a, c, t);
    forall E: set<nat> ensures StepAt(D, qd, E, AtBlock(q), num, At(b.ands, E, S), At(b.ands, E, T'), i) {
      NodeInstalled(D, qd, q, num, b.ands, S, T, i, a, c, t, c1, c2, c3, E);
    }
    ProgressStep(D, qd, AtBlock(q), num, gs, n, b.ands, b.current_aig_var, b.reserved, S, T, mark, i, a, c, t);
  }

  // ----- before the first block -----

  /** All entries are still false. */
  ghost predicate Blank(S: Tables<nat>) {
    && (forall i, v :: 0 <= i < |S.active| && 0 <= v < |S.active[i]| ==> S.active[i][v] == FALSE_LIT)
    && (forall i, v :: 0 <= i < |S.cumulative| && 0 <= v < |S.cumulative[i]| ==> S.cumulative[i][v] == FALSE_LIT)
    && (forall i :: 0 <= i < |S.top| ==> S.top[i] == FALSE_LIT)
  }

  /** Sets the entries of the clause's variables to true. */
  method MarkVars(c: seq<Lit>, row: seq<nat>) returns (row': seq<nat>)
    requires forall l :: l in c ==> VarOf(l) < |row|
    ensures |row'| == |row|
    ensures forall v :: 0 <= v < |row| ==> row'[v] == if HasVar(c, v) then TRUE_LIT else row[v]
  {
    row' := row;
    var li := 0;
    while li < |c|
      invariant 0 <= li <= |c| && |row'| == |row|
      invariant forall v :: 0 <= v < |row| ==> row'[v] == if HasVar(c[..li], v) then TRUE_LIT else row[v]
    {
      var l := c[li];
      assert l in c && c[..li + 1] == c[..li] + [l];
      forall v | v > 0 ensures HasVar(c[..li + 1], v) <==> HasVar(c[..li], v) || v == VarOf(l) {
        assert l == MakeLit(VarOf(l), false) || l == MakeLit(VarOf(l), true);
      }
      row' := row'[VarOf(l) := TRUE_LIT];
      li := li + 1;
    }
    assert c[..li] == c;
  }

  /** The disjunction of two rows; entry 0 is never used. */
  method OrRow(b: AigBuilder, prev: seq<nat>, row1: seq<nat>, row2: seq<nat>) returns (row: seq<nat>)
    requires b.Valid() && |prev| == |row1| == |row2| > 0 && RowUsable(b.current_aig_var, b.reserved, prev)
    requires RowUsable(b.current_aig_var, b.reserved, row1) && RowUsable(b.current_aig_var, b.reserved, row2)
    modifies b`ands, b`current_aig_var, b`node_cache, b`inv_node_cache
    ensures b.Valid() && |row| == |prev| && RowUsable(b.current_aig_var, b.reserved, row) && row[0] == prev[0]
    ensures AigBuilder.Extends(old(b.ands), old(b.current_aig_var), b.ands, b.current_aig_var)
    ensures old(b.inv_node_cache.Keys) <= b.inv_node_cache.Keys
    ensures OrFormula(b.ands, row, row1, row2)
  {
    ghost var gs, n := b.ands, b.current_aig_var;
    row := prev;
    var vi := 1;
    while vi < |row|
      invariant 1 <= vi <= |row| == |prev| && row[0] == prev[0]
      invariant b.Valid() && RowUsable(b.current_aig_var, b.reserved, row)
      invariant AigBuilder.Extends(gs, n, b.ands, b.current_aig_var)
      invariant old(b.inv_node_cache.Keys) <= b.inv_node_cache.Keys
      invariant forall v :: vi <= v < |row| ==> row[v] == prev[v]
      invariant OrFormula(b.ands, row[..vi], row1[..vi], row2[..vi])
    {
      ghost var g1, n1, was := b.ands, b.current_aig_var, row;
      UsableLater(n, n1, b.reserved, row1[vi]);
      UsableLater(n, n1, b.reserved, row2[vi]);
      var r := b.MakeOR(row1[vi], row2[vi]);
      AigBuilder.ExtendsTrans(gs, n, g1, n1, b.ands, b.current_aig_var);
      row := row[vi := r];
      OrFormulaNext(g1, n1, b.ands, b.current_aig_var, b.reserved, was, row1, row2, vi, r, n);
      vi := vi + 1;
    }
    assert row[..vi] == row && row1[..vi] == row1 && row2[..vi] == row2;
  }

  ghost predicate OrFormula(gs: seq<And>, row: seq<nat>, row1: seq<nat>, row2: seq<nat>)
    requires |row| == |row1| == |row2|
  {
    forall E: set<nat>, v :: 0 < v < |row| ==> Value(gs, E, row[v]) == (Value(gs, E, row1[v]) || Value(gs, E, row2[v]))
  }

  lemma OrFormulaNext(gs: seq<And>, n: nat, hs: seq<And>, m: nat, later: set<nat>, row: seq<nat>, row1: seq<nat>,
      row2: seq<nat>, vi: nat, r: nat, n0: nat)
    requires AigBuilder.Extends(gs, n, hs, m) && n0 <= n && 0 < vi < |row| == |row1| == |row2|
    requires RowUsable(n, later, row) && RowUsable(n0, later, row1) && RowUsable(n0, later, row2)
    requires OrFormula(gs, row[..vi], row1[..vi], row2[..vi])
    requires forall E: set<nat> :: Value(hs, E, r) == (Value(hs, E, row1[vi]) || Value(hs, E, row2[vi]))
    requires AigBuilder.Usable(m, later, r)
    ensures OrFormula(hs, row[vi := r][..vi + 1], row1[..vi + 1], row2[..vi + 1])
    ensures RowUsable(m, later, row[vi := r])
  {
    forall E: set<nat>, v | 0 < v < vi
      ensures Value(hs, E, row[v]) == (Value(hs, E, row1[v]) || Value(hs, E, row2[v])) {
      assert AigBuilder.Usable(n, later, row[v]) && AigBuilder.Usable(n0, later, row1[v])
        && AigBuilder.Usable(n0, later, row2[v]);
      assert row[v] == row[..vi][v] && row1[v] == row1[..vi][v] && row2[v] == row2[..vi][v];
      assert Value(hs, E, row[v]) == Value(gs, E, row[v]);
    }
    var row' := row[vi := r];
    forall v | 0 <= v < |row'| ensures AigBuilder.Usable(m, later, row'[v]) {
      assert AigBuilder.Usable(n, later, row[v]);
    }
  }

  lemma InitialInstalled(D: Derivation, num: nat, hs: seq<And>, S: Tables<nat>, T: Tables<nat>,
                         i: nat, a: seq<nat>, c: seq<nat>, E: set<nat>)
    requires Setup(D, num) && 1 <= i < |D.P.clauses| && (D.pivots[i] != 0 ==> GoodNode(D, i))
    requires Shaped(T, |D.P.clauses|, num) && |a| == |c| == num && T.top[i] == FALSE_LIT
    requires forall v :: 0 <= v < num ==> a[v] == if HasVar(D.Clause(i), v) then TRUE_LIT else FALSE_LIT
    requires if D.pivots[i] == 0 then c == a
             else c[0] == FALSE_LIT && OrFormula(hs, c, T.cumulative[D.Parent1(i)], T.cumulative[D.Parent2(i)])
    ensures InitialRow(D, num, At(hs, E, Install(T, i, a, c, T.top[i])), i)
  {
    AigBuilder.ConstantValue(hs, E);
    var u := At(hs, E, Install(T, i, a, c, T.top[i]));
    assert forall v :: 0 <= v < num ==> u.active[i][v] == Value(hs, E, a[v]);
    assert forall v :: 0 <= v < num ==> u.cumulative[i][v] == Value(hs, E, c[v]);
  }

  method ProcessInitialLeaf(b: AigBuilder, D: Derivation, ghost qd: seq<int>, ghost num: nat, ghost S: Tables<nat>,
      T: Tables<nat>, ghost mark: seq<bool>, i: nat) returns (T': Tables<nat>)
    requires b.Valid() && Progress(D, qd, Start, num, b.ands, b.current_aig_var, b.reserved, S, T, mark) && Blank(S)
    requires 1 <= i < |D.P.clauses|
      && RowProgress(D, qd, Start, num, b.ands, b.current_aig_var, b.reserved, S, T, mark, i)
    requires !mark[i] && D.pivots[i] == 0
    ensures Progress(D, qd, Start, num, b.ands, b.current_aig_var, b.reserved, S, T', mark[i := true])
  {
    var a := MarkVars(D.Clause(i), T.active[i]);
    var c := MarkVars(D.Clause(i), T.cumulative[i]);
    assert a == c;
    T' := Install(T, i, a, c, T.top[i]);
    forall E: set<nat> ensures StepAt(D, qd, E, Start, num, At(b.ands, E, S), At(b.ands, E, T'), i) {
      InitialInstalled(D, num, b.ands, S, T, i, a, c, E);
    }
    ConstantUsable(b);
    ProgressStep(D, qd, Start, num, b.ands, b.current_aig_var, b.ands, b.current_aig_var, b.reserved, S, T, mark, i, a,
      c, T.top[i]);
  }

  method ProcessInitialNode(b: AigBuilder, D: Derivation, ghost qd: seq<int>, ghost num: nat, ghost S: Tables<nat>,
      T: Tables<nat>, ghost mark: seq<bool>, i: nat) returns (T': Tables<nat>)
    requires b.Valid() && Progress(D, qd, Start, num, b.ands, b.current_aig_var, b.reserved, S, T, mark) && Blank(S)
    requires 1 <= i < |D.P.clauses|
      && RowProgress(D, qd, Start, num, b.ands, b.current_aig_var, b.reserved, S, T, mark, i)
    requires !mark[i] && D.pivots[i] != 0 && GoodNode(D, i)
    requires mark[D.Parent1(i)] && mark[D.Parent2(i)]
    modifies b`ands, b`current_aig_var, b`node_cache, b`inv_node_cache
    ensures b.Valid() && AigBuilder.Extends(old(b.ands), old(b.current_aig_var), b.ands, b.current_aig_var)
    ensures old(b.inv_node_cache.Keys) <= b.inv_node_cache.Keys
    ensures Progress(D, qd, Start, num, b.ands, b.current_aig_var, b.reserved, S, T', mark[i := true])
  {
    ghost var gs, n := b.ands, b.current_aig_var;
    var a := MarkVars(D.Clause(i), T.active[i]);
    ConstantUsable(b);
    var c := OrRow(b, T.cumulative[i], T.cumulative[D.Parent1(i)], T.cumulative[D.Parent2(i)]);
    ExtendsKeeps(gs, n, b.ands, b.current_aig_var, b.reserved);
    T' := Install(T, i, a, c, T.top[i]);
    forall E: set<nat> ensures StepAt(D, qd, E, Start, num, At(b.ands, E, S), At(b.ands, E, T'), i) {
      InitialInstalled(D, num, b.ands, S, T, i, a, c, E);
    }
    RowStable(gs, n, b.ands, b.current_aig_var, b.reserved, a, {});
    UsableLater(n, b.current_aig_var, b.reserved, T.top[i]);
    ProgressStep(D, qd, Start, num, gs, n, b.ands, b.current_aig_var, b.reserved, S, T, mark, i, a, c, T.top[i]);
  }

  // ----- the loops -----

  lemma ProgressStart(D: Derivation, qd: seq<int>, st: Stage, num: nat, gs: seq<And>, n: nat, later: set<nat>,
      S: Tables<nat>, mark: seq<bool>)
    requires Setup(D, num) && Ready(D, num, n, later, S) && |mark| == |D.P.clauses|
    requires forall j :: 0 <= j < |mark| ==> !mark[j]
    ensures Progress(D, qd, st, num, gs, n, later, S, S, mark)
  {
    RowsAll(D, qd, st, num, gs, n, later, S, S, mark, |mark|);
  }

  ghost predicate LeavesMarked(D: Derivation, mark: seq<bool>, k: nat) {
    |mark| == |D.pivots| && forall j :: 1 <= j < |mark| ==> (mark[j] <==> j < k && D.pivots[j] == 0)
  }

  ghost predicate LeafInputs(b: AigBuilder, D: Derivation) {
    |D.pivots| == |D.P.clauses| && forall i ::
      1 <= i < |D.P.clauses| && D.pivots[i] == 0 ==> InputsReady(b, D.P, D.Clause(i))
  }

  method BlockLeaves(b: AigBuilder, D: Derivation, qd: seq<int>, st: Stage, ghost num: nat, S: Tables<nat>)
    returns (T: Tables<nat>, mark: seq<bool>)
    requires b.Valid() && Setup(D, num) && Ready(D, num, b.current_aig_var, b.reserved, S)
    requires LeafInputs(b, D)
    requires st.Start? ==> Blank(S)
    modifies b`ands, b`current_aig_var, b`node_cache, b`inv_node_cache
    ensures b.Valid() && AigBuilder.Extends(old(b.ands), old(b.current_aig_var), b.ands, b.current_aig_var)
    ensures old(b.inv_node_cache.Keys) <= b.inv_node_cache.Keys
    ensures Progress(D, qd, st, num, b.ands, b.current_aig_var, b.reserved, S, T, mark)
    ensures LeavesMarked(D, mark, |mark|)
  {
    ghost var gs, n := b.ands, b.current_aig_var;
    T, mark := S, seq(|D.P.clauses|, _ => false);
    ProgressStart(D, qd, st, num, gs, n, b.reserved, S, mark);
    var ci := 1;
    while ci < |D.P.clauses|
      invariant 1 <= ci <= |D.P.clauses|
      invariant b.Valid() && AigBuilder.Extends(gs, n, b.ands, b.current_aig_var)
      invariant old(b.inv_node_cache.Keys) <= b.inv_node_cache.Keys
      invariant Progress(D, qd, st, num, b.ands, b.current_aig_var, b.reserved, S, T, mark)
      invariant LeavesMarked(D, mark, ci)
      invariant LeafInputs(b, D)
    {
      ghost var g1, n1 := b.ands, b.current_aig_var;
      T, mark := VisitLeaf(b, D, qd, st, num, S, T, mark, ci);
      AigBuilder.ExtendsTrans(gs, n, g1, n1, b.ands, b.current_aig_var);
      ci := ci + 1;
    }
  }

  method VisitLeaf(b: AigBuilder, D: Derivation, qd: seq<int>, st: Stage, ghost num: nat, ghost S: Tables<nat>,
      T: Tables<nat>, mark: seq<bool>, ci: nat) returns (T': Tables<nat>, mark': seq<bool>)
    requires b.Valid() && Progress(D, qd, st, num, b.ands, b.current_aig_var, b.reserved, S, T, mark)
    requires 1 <= ci < |mark| && LeavesMarked(D, mark, ci) && LeafInputs(b, D)
    requires st.Start? ==> Blank(S)
    modifies b`ands, b`current_aig_var, b`node_cache, b`inv_node_cache
    ensures b.Valid() && AigBuilder.Extends(old(b.ands), old(b.current_aig_var), b.ands, b.current_aig_var)
    ensures old(b.inv_node_cache.Keys) <= b.inv_node_cache.Keys
    ensures Progress(D, qd, st, num, b.ands, b.current_aig_var, b.reserved, S, T', mark')
    ensures LeavesMarked(D, mark', ci + 1)
  {
    T', mark' := T, mark;
    if D.pivots[ci] == 0 {
      RowsHas(D, qd, st, num, b.ands, b.current_aig_var, b.reserved, S, T, mark, |mark|, ci);
      match st {
        case Start => T' := ProcessInitialLeaf(b, D, qd, num, S, T, mark, ci);
        case AtBlock(q) => T' := ProcessLeaf(b, D, qd, q, num, S, T, mark, ci);
      }
      mark' := mark[ci := true];
    }
  }

  ghost predicate AllMarked(mark: seq<bool>, k: nat) {
    k <= |mark| && forall j :: 1 <= j < k ==> mark[j]
  }

  /** All leaves are marked. */
  ghost predicate SomeMarked(D: Derivation, mark: seq<bool>) {
    |mark| == |D.pivots| && forall j :: 1 <= j < |mark| && D.pivots[j] == 0 ==> mark[j]
  }

  /** One pass over the trace marks everything, as parents come first. */
  method NodePass(b: AigBuilder, D: Derivation, qd: seq<int>, st: Stage, ghost num: nat, ghost S: Tables<nat>,
      T0: Tables<nat>, mark0: seq<bool>)
    returns (T: Tables<nat>, mark: seq<bool>, updated: bool)
    requires b.Valid() && Progress(D, qd, st, num, b.ands, b.current_aig_var, b.reserved, S, T0, mark0)
    requires SomeMarked(D, mark0) && |mark0| > 0
    requires st.Start? ==> Blank(S)
    modifies b`ands, b`current_aig_var, b`node_cache, b`inv_node_cache
    ensures b.Valid() && AigBuilder.Extends(old(b.ands), old(b.current_aig_var), b.ands, b.current_aig_var)
    ensures old(b.inv_node_cache.Keys) <= b.inv_node_cache.Keys
    ensures Progress(D, qd, st, num, b.ands, b.current_aig_var, b.reserved, S, T, mark) && AllMarked(mark, |mark|)
    ensures AllMarked(mark0, |mark0|) ==> !updated
  {
    ghost var gs, n := b.ands, b.current_aig_var;
    T, mark, updated := T0, mark0, false;
    var ci := 1;
    while ci < |D.P.clauses|
      invariant 1 <= ci <= |D.P.clauses| == |mark|
      invariant b.Valid() && AigBuilder.Extends(gs, n, b.ands, b.current_aig_var)
      invariant old(b.inv_node_cache.Keys) <= b.inv_node_cache.Keys
      invariant Progress(D, qd, st, num, b.ands, b.current_aig_var, b.reserved, S, T, mark)
      invariant AllMarked(mark, ci) && SomeMarked(D, mark) && (AllMarked(mark0, |mark0|) ==> mark == mark0)
      invariant AllMarked(mark0, |mark0|) ==> !updated
    {
      ghost var g1, n1 := b.ands, b.current_aig_var;
      var visited;
      T, mark, visited := VisitNode(b, D, qd, st, num, S, T, mark, ci);
      AigBuilder.ExtendsTrans(gs, n, g1, n1, b.ands, b.current_aig_var);
      updated := updated || visited;
      ci := ci + 1;
    }
  }

  /** Processes a clause that is not marked yet if its parents are; in order they always are. */
  method VisitNode(b: AigBuilder, D: Derivation, qd: seq<int>, st: Stage, ghost num: nat, ghost S: Tables<nat>,
      T: Tables<nat>, mark: seq<bool>, ci: nat) returns (T': Tables<nat>, mark': seq<bool>, visited: bool)
    requires b.Valid() && Progress(D, qd, st, num, b.ands, b.current_aig_var, b.reserved, S, T, mark)
    requires 1 <= ci < |mark| && SomeMarked(D, mark) && AllMarked(mark, ci)
    requires st.Start? ==> Blank(S)
    modifies b`ands, b`current_aig_var, b`node_cache, b`inv_node_cache
    ensures b.Valid() && AigBuilder.Extends(old(b.ands), old(b.current_aig_var), b.ands, b.current_aig_var)
    ensures old(b.inv_node_cache.Keys) <= b.inv_node_cache.Keys
    ensures Progress(D, qd, st, num, b.ands, b.current_aig_var, b.reserved, S, T', mark')
    ensures SomeMarked(D, mark') && AllMarked(mark', ci + 1)
    ensures visited == !mark[ci] && mark' == mark[ci := true]
  {
    T', mark', visited := T, mark, false;
    if !mark[ci] {
      RowsHas(D, qd, st, num, b.ands, b.current_aig_var, b.reserved, S, T, mark, |mark|, ci);
      assert D.pivots[ci] != 0 && GoodNode(D, ci);
      if mark[D.Parent1(ci)] && mark[D.Parent2(ci)] {
        visited := true;
        match st {
          case Start => T' := ProcessInitialNode(b, D, qd, num, S, T, mark, ci);
          case AtBlock(q) => T' := ProcessNode(b, D, qd, q, num, S, T, mark, ci);
        }
        mark' := mark[ci := true];
      }
    }
  }

  /** Everything one universal block does to the tables. */
  method BlockTables(b: AigBuilder, D: Derivation, qd: seq<int>, st: Stage, ghost num: nat, S: Tables<nat>)
    returns (T: Tables<nat>)
    requires b.Valid() && Setup(D, num) && Ready(D, num, b.current_aig_var, b.reserved, S)
    requires LeafInputs(b, D)
    requires st.Start? ==> Blank(S)
    modifies b`ands, b`current_aig_var, b`node_cache, b`inv_node_cache
    ensures b.Valid() && AigBuilder.Extends(old(b.ands), old(b.current_aig_var), b.ands, b.current_aig_var)
    ensures old(b.inv_node_cache.Keys) <= b.inv_node_cache.Keys
    ensures Ready(D, num, b.current_aig_var, b.reserved, S) && Ready(D, num, b.current_aig_var, b.reserved, T)
    ensures forall E: set<nat> :: StageOk(D, qd, E, st, num, At(b.ands, E, S), At(b.ands, E, T))
  {
    ghost var gs, n := b.ands, b.current_aig_var;
    var mark;
    T, mark := BlockLeaves(b, D, qd, st, num, S);
    var updated := true;
    ghost var complete := false;
    while updated
      invariant b.Valid() && AigBuilder.Extends(gs, n, b.ands, b.current_aig_var)
      invariant old(b.inv_node_cache.Keys) <= b.inv_node_cache.Keys
      invariant Progress(D, qd, st, num, b.ands, b.current_aig_var, b.reserved, S, T, mark)
      invariant SomeMarked(D, mark)
      invariant complete ==> AllMarked(mark, |mark|)
      invariant !updated ==> complete
      decreases updated, !complete
    {
      ghost var g1, n1 := b.ands, b.current_aig_var;
      T, mark, updated := NodePass(b, D, qd, st, num, S, T, mark);
      AigBuilder.ExtendsTrans(gs, n, g1, n1, b.ands, b.current_aig_var);
      complete := true;
    }
    BlockDone(D, qd, st, num, b.ands, b.current_aig_var, b.reserved, S, T, mark);
  }

  lemma BlockFromSteps(D: Derivation, qd: seq<int>, E: set<Var>, st: Stage, num: nat, S: Tables<bool>, T: Tables<bool>)
    requires Setup(D, num) && Shaped(S, |D.P.clauses|, num) && Shaped(T, |D.P.clauses|, num)
    requires forall i :: 1 <= i < |D.P.clauses| ==> StepAt(D, qd, E, st, num, S, T, i)
    ensures StageOk(D, qd, E, st, num, S, T)
  {
    match st
    case Start =>
      forall i | 1 <= i < |D.P.clauses| ensures InitialRow(D, num, T, i) {
        assert StepAt(D, qd, E, st, num, S, T, i);
      }
    case AtBlock(q) =>
      forall i | 1 <= i < |D.P.clauses|
        ensures if D.pivots[i] == 0 then LeafStep(D, qd, E, q, num, S, T, i) else NodeStep(D, num, S, T, i)
      {
        assert StepAt(D, qd, E, st, num, S, T, i);
      }
  }

  lemma BlockDone(D: Derivation, qd: seq<int>, st: Stage, num: nat, gs: seq<And>, n: nat, later: set<nat>,
                  S: Tables<nat>, T: Tables<nat>, mark: seq<bool>)
    requires Progress(D, qd, st, num, gs, n, later, S, T, mark) && AllMarked(mark, |mark|) && |mark| > 0
    ensures Setup(D, num) && Ready(D, num, n, later, S) && Ready(D, num, n, later, T)
    ensures forall E: set<nat> :: StageOk(D, qd, E, st, num, At(gs, E, S), At(gs, E, T))
  {
    RowsHas(D, qd, st, num, gs, n, later, S, T, mark, |mark|, 0);
    forall i | 1 <= i < |D.P.clauses| ensures Done(D, qd, st, num, gs, S, T, i) {
      RowsHas(D, qd, st, num, gs, n, later, S, T, mark, |mark|, i);
    }
    forall E: set<nat> ensures StageOk(D, qd, E, st, num, At(gs, E, S), At(gs, E, T)) {
      forall i | 1 <= i < |D.P.clauses| ensures StepAt(D, qd, E, st, num, At(gs, E, S), At(gs, E, T), i) {
        assert Done(D, qd, st, num, gs, S, T, i);
      }
      BlockFromSteps(D, qd, E, st, num, At(gs, E, S), At(gs, E, T));
    }
  }
}
