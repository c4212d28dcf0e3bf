/** Pruning of an AIGER circuit: which gates stay, and why the outputs keep their functions. */
module AigerPruning {
  import opened Aigs
  import opened AigerCycles

  // ----- reachability -----

  /** Gate v is used, directly or not, by one of the roots. */
  ghost predicate Reached(G: Graph, roots: set<nat>, v: nat) {
    exists p :: p != [] && p[0] in roots && p[0] < |G.isAnd| && G.isAnd[p[0]] && p[|p| - 1] == v && Walk(G, p)
  }

  lemma RootReached(G: Graph, roots: set<nat>, v: nat)
    requires v in roots && v < |G.isAnd| && G.isAnd[v]
    ensures Reached(G, roots, v)
  {
    var p := [v];
    assert p[0] in roots && p[|p| - 1] == v && Walk(G, p);
  }

  lemma StepReached(G: Graph, roots: set<nat>, v: nat, w: nat)
    requires Reached(G, roots, v) && G.Edge(v, w)
    ensures Reached(G, roots, w)
  {
    var p: seq<nat> :| p != [] && p[0] in roots && p[0] < |G.isAnd| && G.isAnd[p[0]] && p[|p| - 1] == v && Walk(G, p);
    var q := p + [w];
    forall k | 0 < k < |q| ensures G.Edge(q[k - 1], q[k]) {
      if k < |p| {
        assert G.Edge(p[k - 1], p[k]);
      }
    }
    assert q[0] in roots && q[|q| - 1] == w && Walk(G, q);
  }

  /** A set of gates that holds the roots and is closed under operands holds all reached gates. */
  lemma ClosedReached(G: Graph, roots: set<nat>, S: set<nat>, v: nat)
    requires Reached(G, roots, v)
    requires forall r :: r in roots && r < |G.isAnd| && G.isAnd[r] ==> r in S
    requires forall a, b :: a in S && G.Edge(a, b) ==> b in S
    ensures v in S
  {
    var p: seq<nat> :| p != [] && p[0] in roots && p[0] < |G.isAnd| && G.isAnd[p[0]] && p[|p| - 1] == v && Walk(G, p);
    var k := 0;
    while k < |p| - 1
      invariant 0 <= k < |p| && p[k] in S
    {
      assert G.Edge(p[k], p[k + 1]);
      k := k + 1;
    }
  }

  // ----- meaning -----

  ghost predicate LitIn(A: set<nat>, l: nat) {
    (LitVar(l) in A) != (l % 2 == 1)
  }

  /** A valuation under which every gate is the conjunction of its operands. */
  ghost predicate Models(gs: seq<And>, A: set<nat>) {
    0 !in A && forall k :: 0 <= k < |gs| ==> LitIn(A, gs[k].lhs) == (LitIn(A, gs[k].rhs0) && LitIn(A, gs[k].rhs1))
  }

  /** The valuation of the first n gates of a topological order, over given values of all other
      variables. */
  ghost function Evaluate(gs: seq<And>, idx: seq<nat>, done: seq<nat>, leaves: set<nat>, n: nat): set<nat>
    requires n <= |done| && forall v :: v in done ==> v < |idx| && idx[v] < |gs|
  {
    if n == 0 then leaves
    else
      assert done[n - 1] in done;
      var A, g := Evaluate(gs, idx, done, leaves, n - 1), gs[idx[done[n - 1]]];
      if LitIn(A, g.rhs0) && LitIn(A, g.rhs1) then A + {done[n - 1]} else A - {done[n - 1]}
  }

  lemma {:induction false} EvaluateStays(gs: seq<And>, idx: seq<nat>, done: seq<nat>, leaves: set<nat>, i: nat, n: nat,
      w: nat)
    requires i <= n <= |done| && forall v :: v in done ==> v < |idx| && idx[v] < |gs|
    requires w !in done[i..n]
    ensures w in Evaluate(gs, idx, done, leaves, n) <==> w in Evaluate(gs, idx, done, leaves, i)
    decreases n
  {
    if i < n {
      assert done[i..n] == done[i..n - 1] + [done[n - 1]];
      EvaluateStays(gs, idx, done, leaves, i, n - 1, w);
    }
  }

  lemma NotBehind(done: seq<nat>, i: nat, w: nat)
    requires Distinct(done) && i <= |done| && (w in done[..i] || w !in done)
    ensures w !in done[i..]
  {
  }

  /** Every acyclic circuit has a valuation for every choice of the values that no gate defines. */
  lemma EvaluateModels(maxvar: nat, gs: seq<And>, isAnd: seq<bool>, idx: seq<nat>, done: seq<nat>, leaves: set<nat>)
    requires TypedAt(maxvar, gs, isAnd, idx) && Topological(GraphOf(gs, isAnd, idx), done)
    requires (forall v :: v in done ==> v <= maxvar && isAnd[v]) && 0 !in leaves
    ensures Models(gs, Evaluate(gs, idx, done, leaves, |done|))
    ensures forall v :: v !in done ==> (v in Evaluate(gs, idx, done, leaves, |done|) <==> v in leaves)
  {
    var A := Evaluate(gs, idx, done, leaves, |done|);
    forall v | v !in done ensures v in A <==> v in leaves {
      EvaluateStays(gs, idx, done, leaves, 0, |done|, v);
    }
    forall k | 0 <= k < |gs| ensures LitIn(A, gs[k].lhs) == (LitIn(A, gs[k].rhs0) && LitIn(A, gs[k].rhs1)) {
      var v := LitVar(gs[k].lhs);
      assert GateTyped(maxvar, gs[k], isAnd, idx, k);
      var i :| 0 <= i < |done| && done[i] == v;
      LhsIn(A, gs[k].lhs, v);
      GateEvaluated(maxvar, gs, isAnd, idx, done, leaves, i);
    }
  }

  lemma LhsIn(A: set<nat>, lhs: nat, v: nat)
    requires lhs == 2 * v
    ensures LitIn(A, lhs) <==> v in A
  {
    LitVarOf(v);
  }

  lemma GateEvaluated(maxvar: nat, gs: seq<And>, isAnd: seq<bool>, idx: seq<nat>, done: seq<nat>, leaves: set<nat>,
      i: nat)
    requires TypedAt(maxvar, gs, isAnd, idx) && Topological(GraphOf(gs, isAnd, idx), done)
    requires (forall v :: v in done ==> v <= maxvar && isAnd[v]) && i < |done|
    ensures done[i] < |idx| && idx[done[i]] < |gs|
    ensures var A, g := Evaluate(gs, idx, done, leaves, |done|), gs[idx[done[i]]]; done[i] in A <==>
      LitIn(A, g.rhs0) && LitIn(A, g.rhs1)
  {
    var v := done[i];
    assert v in done;
    OperandSettled(maxvar, gs, isAnd, idx, done, leaves, i, gs[idx[v]].rhs0);
    OperandSettled(maxvar, gs, isAnd, idx, done, leaves, i, gs[idx[v]].rhs1);
    assert done[..i + 1][i] == v;
    NotBehind(done, i + 1, v);
    EvaluateStays(gs, idx, done, leaves, i + 1, |done|, v);
  }

  lemma OperandSettled(maxvar: nat, gs: seq<And>, isAnd: seq<bool>, idx: seq<nat>, done: seq<nat>, leaves: set<nat>,
      i: nat, l: nat)
    requires TypedAt(maxvar, gs, isAnd, idx) && Topological(GraphOf(gs, isAnd, idx), done)
    requires (forall v :: v in done ==> v <= maxvar && isAnd[v]) && i < |done|
    requires done[i] < |idx| && idx[done[i]] < |gs| && (l == gs[idx[done[i]]].rhs0 || l == gs[idx[done[i]]].rhs1)
    ensures LitIn(Evaluate(gs, idx, done, leaves, i), l) == LitIn(Evaluate(gs, idx, done, leaves, |done|), l)
  {
    var G, v, w := GraphOf(gs, isAnd, idx), done[i], LitVar(l);
    assert done[i] in done && GateTyped(maxvar, gs[idx[v]], isAnd, idx, idx[v]);
    if w in done {
      assert G.kids[v] == (LitVar(gs[idx[v]].rhs0), LitVar(gs[idx[v]].rhs1));
      assert G.Edge(v, w);
    }
    NotBehind(done, i, w);
    EvaluateStays(gs, idx, done, leaves, i, |done|, w);
  }

  function Vars(lits: seq<nat>): set<nat> {
    set l | l in lits :: LitVar(l)
  }

  /** The gates whose variable is kept, in their old order. */
  function Kept(gs: seq<And>, keep: seq<bool>, n: nat): (r: seq<And>)
    requires n <= |gs| && forall k :: 0 <= k < |gs| ==> LitVar(gs[k].lhs) < |keep|
    ensures |r| <= n
  {
    if n == 0 then []
    else if keep[LitVar(gs[n - 1].lhs)] then Kept(gs, keep, n - 1) + [gs[n - 1]]
    else Kept(gs, keep, n - 1)
  }

  lemma {:induction false} KeptMonotone(gs: seq<And>, keep: seq<bool>, i: nat, n: nat)
    requires i <= n <= |gs| && forall k :: 0 <= k < |gs| ==> LitVar(gs[k].lhs) < |keep|
    ensures Kept(gs, keep, i) <= Kept(gs, keep, n)
    decreases n
  {
    if i < n {
      KeptMonotone(gs, keep, i, n - 1);
    }
  }

  /** A kept gate stands behind the kept gates before it. */
  lemma KeptAt(gs: seq<And>, keep: seq<bool>, k: nat, n: nat)
    requires k < n <= |gs| && (forall j :: 0 <= j < |gs| ==> LitVar(gs[j].lhs) < |keep|) && keep[LitVar(gs[k].lhs)]
    ensures |Kept(gs, keep, k)| < |Kept(gs, keep, n)| && Kept(gs, keep, n)[|Kept(gs, keep, k)|] == gs[k]
  {
    KeptMonotone(gs, keep, k + 1, n);
  }

  lemma {:induction false} KeptFrom(gs: seq<And>, keep: seq<bool>, n: nat, x: nat) returns (k: nat)
    requires n <= |gs| && (forall j :: 0 <= j < |gs| ==> LitVar(gs[j].lhs) < |keep|) && x < |Kept(gs, keep, n)|
    ensures k < n && keep[LitVar(gs[k].lhs)] && Kept(gs, keep, n)[x] == gs[k] && |Kept(gs, keep, k)| == x
    decreases n
  {
    if keep[LitVar(gs[n - 1].lhs)] && x == |Kept(gs, keep, n - 1)| {
      k := n - 1;
    } else {
      k := KeptFrom(gs, keep, n - 1, x);
    }
  }

  ghost predicate KeepsReached(G: Graph, roots: set<nat>, keep: seq<bool>) {
    |keep| == |G.isAnd| && forall v :: 0 <= v < |keep| ==> (keep[v] <==> G.isAnd[v] && Reached(G, roots, v))
  }

  /** A reached gate has the same value before and after pruning. */
  lemma {:induction false} ReachedAgree(maxvar: nat, gs: seq<And>, isAnd: seq<bool>, idx: seq<nat>, roots: set<nat>,
      keep: seq<bool>, order: seq<nat>, A: set<nat>, A': set<nat>, i: nat)
    requires TypedAt(maxvar, gs, isAnd, idx) && Topological(GraphOf(gs, isAnd, idx), order)
    requires KeepsReached(GraphOf(gs, isAnd, idx), roots, keep)
    requires Models(gs, A) && Models(Kept(gs, keep, |gs|), A')
    requires forall v :: 0 <= v <= maxvar && !isAnd[v] ==> (v in A <==> v in A')
    requires i < |order| && order[i] <= maxvar && keep[order[i]]
    ensures order[i] in A <==> order[i] in A'
    decreases i
  {
    var G, v := GraphOf(gs, isAnd, idx), order[i];
    var g := gs[idx[v]];
    assert GateTyped(maxvar, g, isAnd, idx, idx[v]);
    forall w | w == LitVar(g.rhs0) || w == LitVar(g.rhs1) ensures w in A <==> w in A' {
      if isAnd[w] {
        assert G.Edge(v, w);
        StepReached(G, roots, v, w);
        var j :| 0 <= j < i && order[..i][j] == w;
        ReachedAgree(maxvar, gs, isAnd, idx, roots, keep, order, A, A', j);
      }
    }
    GateAgrees(gs, keep, idx[v], v, A, A');
  }

  /** A kept gate whose operands agree agrees itself. */
  lemma GateAgrees(gs: seq<And>, keep: seq<bool>, k: nat, v: nat, A: set<nat>, A': set<nat>)
    requires k < |gs| && (forall j :: 0 <= j < |gs| ==> LitVar(gs[j].lhs) < |keep|) && gs[k].lhs == 2 * v
    requires v < |keep| && keep[v] && Models(gs, A) && Models(Kept(gs, keep, |gs|), A')
    requires LitVar(gs[k].rhs0) in A <==> LitVar(gs[k].rhs0) in A'
    requires LitVar(gs[k].rhs1) in A <==> LitVar(gs[k].rhs1) in A'
    ensures v in A <==> v in A'
  {
    LitVarOf(v);
    KeptAt(gs, keep, k, |gs|);
    var x := |Kept(gs, keep, k)|;
    assert Kept(gs, keep, |gs|)[x] == gs[k];
    assert LitIn(A', gs[k].lhs) == (LitIn(A', gs[k].rhs0) && LitIn(A', gs[k].rhs1));
  }

  /** Pruning leaves the function of every output alone: for all inputs, any valuation of the old
      gates and any valuation of the kept ones agree on the outputs. */
  lemma PruneKeepsOutputs(maxvar: nat, gs: seq<And>, isAnd: seq<bool>, idx: seq<nat>, outputs: seq<nat>,
      keep: seq<bool>, order: seq<nat>, A: set<nat>, A': set<nat>, o: nat)
    requires TypedAt(maxvar, gs, isAnd, idx) && Topological(GraphOf(gs, isAnd, idx), order)
    requires KeepsReached(GraphOf(gs, isAnd, idx), Vars(outputs), keep)
    requires Models(gs, A) && Models(Kept(gs, keep, |gs|), A')
    requires forall v :: 0 <= v <= maxvar && !isAnd[v] ==> (v in A <==> v in A')
    requires o in outputs && LitVar(o) <= maxvar
    ensures LitIn(A, o) == LitIn(A', o)
  {
    var v := LitVar(o);
    if isAnd[v] {
      RootReached(GraphOf(gs, isAnd, idx), Vars(outputs), v);
      var i :| 0 <= i < |order| && order[i] == v;
      ReachedAgree(maxvar, gs, isAnd, idx, Vars(outputs), keep, order, A, A', i);
    }
  }

  // ----- marking -----

  /** The edges of the graph, and what the roots reach, as sets. */
  ghost predicate Sets(G: Graph, roots: set<nat>, E: iset<(nat, nat)>, R: iset<nat>) {
    && (forall v: nat, w: nat :: (v, w) in E <==> G.Edge(v, w))
    && (forall v: nat :: v in R <==> Reached(G, roots, v))
  }

  ghost predicate ClosedUnder(E: iset<(nat, nat)>, R: iset<nat>) {
    forall v: nat, w: nat :: v in R && (v, w) in E ==> w in R
  }

  lemma ReachedClosed(G: Graph, roots: set<nat>, E: iset<(nat, nat)>, R: iset<nat>)
    requires Sets(G, roots, E, R)
    ensures ClosedUnder(E, R) && forall r :: r in roots && r < |G.isAnd| && G.isAnd[r] ==> r in R
    ensures forall v :: v in R ==> 0 <= v < |G.isAnd| && G.isAnd[v]
  {
    forall v: nat, w: nat | v in R && (v, w) in E ensures w in R {
      StepReached(G, roots, v, w);
    }
    forall r | r in roots && r < |G.isAnd| && G.isAnd[r] ensures r in R {
      RootReached(G, roots, r);
    }
    forall v | v in R ensures v < |G.isAnd| && G.isAnd[v] {
      var p: seq<nat> :| p != [] && p[0] in roots && p[0] < |G.isAnd| && G.isAnd[p[0]] && p[|p| - 1] == v && Walk(G, p);
      if |p| > 1 {
        assert G.Edge(p[|p| - 2], p[|p| - 1]);
      }
    }
  }

  lemma RootsIn(G: Graph, outputs: seq<nat>, E: iset<(nat, nat)>, R: iset<nat>)
    requires Sets(G, Vars(outputs), E, R)
    ensures forall o :: o in outputs && LitVar(o) < |G.isAnd| && G.isAnd[LitVar(o)] ==> LitVar(o) in R
  {
    forall o | o in outputs && LitVar(o) < |G.isAnd| && G.isAnd[LitVar(o)] ensures LitVar(o) in R {
      assert LitVar(o) in Vars(outputs);
      RootReached(G, Vars(outputs), LitVar(o));
    }
  }

  /** Marked variables are reached; only those still on the stack may have unmarked operands. */
  ghost predicate Marking(E: iset<(nat, nat)>, R: iset<nat>, mark: seq<bool>, stack: seq<nat>) {
    && (forall v :: 0 < v < |mark| && mark[v] ==> v in R)
    && (forall v :: v in stack ==> 0 < v < |mark| && mark[v])
    && (forall v: nat, w: nat :: 0 < v < |mark| && mark[v] && v !in stack && (v, w) in E ==> w < |mark| && mark[w])
  }

  lemma MarkingDone(G: Graph, roots: set<nat>, E: iset<(nat, nat)>, R: iset<nat>, mark: seq<bool>)
    requires Sets(G, roots, E, R) && |mark| == |G.isAnd| > 0 && !G.isAnd[0] && Marking(E, R, mark, [])
    requires forall r :: r in roots && 0 < r < |mark| && G.isAnd[r] ==> mark[r]
    ensures forall v :: 0 < v < |mark| ==> (mark[v] <==> G.isAnd[v] && Reached(G, roots, v))
  {
    ReachedClosed(G, roots, E, R);
    forall v | 0 < v < |mark| && G.isAnd[v] && Reached(G, roots, v) ensures mark[v] {
      var S := set x | 0 < x < |mark| && mark[x];
      forall a: nat, b: nat | a in S && G.Edge(a, b) ensures b in S {
        assert (a, b) in E;
      }
      ClosedReached(G, roots, S, v);
    }
  }

  /** The last entry is popped; its operands that were not marked take its place. */
  lemma MarkingPop(E: iset<(nat, nat)>, R: iset<nat>, mark: seq<bool>, stack: seq<nat>, v: nat, mark': seq<bool>,
      pushed: seq<nat>)
    requires Marking(E, R, mark, stack + [v]) && |mark'| == |mark| && ClosedUnder(E, R)
    requires forall x :: 0 <= x < |mark| ==> (mark'[x] <==> mark[x] || x in pushed)
    requires forall w :: w in pushed ==> (v, w) in E && 0 < w < |mark|
    requires forall w: nat :: (v, w) in E ==> w < |mark| && mark'[w]
    ensures Marking(E, R, mark', stack + pushed)
  {
    assert v in stack + [v];
    forall x | x in stack + pushed ensures 0 < x < |mark'| && mark'[x] {
      assert x in stack ==> x in stack + [v];
    }
    forall x: nat, w: nat | 0 < x < |mark| && mark'[x] && x !in stack + pushed && (x, w) in E ensures w < |mark|
      && mark'[w] {
      if x != v {
        assert mark[x] && x !in stack + [v];
      }
    }
  }

  /** An operand that is a gate and not marked yet is marked and pushed. */
  ghost predicate OneMarked(isAnd: seq<bool>, w: nat, mark: seq<bool>, mark': seq<bool>, pushed: seq<nat>,
      pushed': seq<nat>)
  {
    && w < |mark| == |isAnd|
    && pushed' == (if w != 0 && isAnd[w] && !mark[w] then pushed + [w] else pushed)
    && mark' == (if w != 0 && isAnd[w] && !mark[w] then mark[w := true] else mark)
  }

  lemma TwoMarked(isAnd: seq<bool>, a: nat, c: nat, m0: seq<bool>, m1: seq<bool>, m2: seq<bool>, p1: seq<nat>,
      p2: seq<nat>)
    requires OneMarked(isAnd, a, m0, m1, [], p1) && OneMarked(isAnd, c, m1, m2, p1, p2)
    ensures forall x :: 0 <= x < |m0| ==> (m2[x] <==> m0[x] || x in p2)
    ensures forall w :: w in p2 ==> 0 < w < |m0| && isAnd[w] && !m0[w] && (w == a || w == c)
    ensures a != 0 && isAnd[a] ==> m2[a]
    ensures c != 0 && isAnd[c] ==> m2[c]
  {
  }

  /** Popping gate v, with operands a and c. */
  lemma OperandsPop(G: Graph, roots: set<nat>, E: iset<(nat, nat)>, R: iset<nat>, stack: seq<nat>, v: nat, a: nat,
      c: nat, m0: seq<bool>, m1: seq<bool>, m2: seq<bool>, p1: seq<nat>, p2: seq<nat>)
    requires Sets(G, roots, E, R) && stack != [] && stack[|stack| - 1] == v && Marking(E, R, m0, stack)
    requires |G.kids| == |G.isAnd| == |m0| && v < |G.isAnd| && G.isAnd[v] && G.kids[v] == (a, c)
    requires OneMarked(G.isAnd, a, m0, m1, [], p1) && OneMarked(G.isAnd, c, m1, m2, p1, p2)
    ensures Marking(E, R, m2, stack[..|stack| - 1] + p2)
    ensures forall x :: 0 <= x < |m0| ==> (m2[x] <==> m0[x] || x in p2)
    ensures forall w :: w in p2 ==> 0 < w < |m0| && !m0[w]
  {
    assert stack == stack[..|stack| - 1] + [v] && v in stack;
    TwoMarked(G.isAnd, a, c, m0, m1, m2, p1, p2);
    ReachedClosed(G, roots, E, R);
    forall w | w in p2 ensures (v, w) in E {
      assert G.Edge(v, w);
    }
    forall w: nat | (v, w) in E ensures w < |m0| && m2[w] {
      assert G.Edge(v, w);
    }
    MarkingPop(E, R, m0, stack[..|stack| - 1], v, m2, p2);
  }

  // ----- compaction -----

  /** The slots after the first i gates were looked at: dropped variables are no gates any more,
      kept ones have their compacted slot, the rest their old one. */
  ghost predicate Compacting(maxvar: nat, gs: seq<And>, isAnd: seq<bool>, idx: seq<nat>, keep: seq<bool>, i: nat,
                             isAnd': seq<bool>, idx': seq<nat>) {
    && TypedAt(maxvar, gs, isAnd, idx) && |keep| == |isAnd'| == |idx'| == maxvar + 1 && i <= |gs|
    && (forall v :: 0 <= v <= maxvar ==> isAnd'[v] == (isAnd[v] && (idx[v] < i ==> keep[v])))
    && (forall v :: 0 <= v <= maxvar && isAnd'[v] ==>
       idx'[v] == if idx[v] < i then Slot(maxvar, gs, isAnd, idx, keep, idx[v]) else idx[v])
  }

  /** How many gates before k are kept. */
  ghost function Slot(maxvar: nat, gs: seq<And>, isAnd: seq<bool>, idx: seq<nat>, keep: seq<bool>, k: nat): nat
    requires TypedAt(maxvar, gs, isAnd, idx) && |keep| == maxvar + 1 && k <= |gs|
  {
    TypedVars(maxvar, gs, isAnd, idx);
    |Kept(gs, keep, k)|
  }

  lemma TypedVars(maxvar: nat, gs: seq<And>, isAnd: seq<bool>, idx: seq<nat>)
    requires TypedAt(maxvar, gs, isAnd, idx)
    ensures forall k :: 0 <= k < |gs| ==>
      LitVar(gs[k].lhs) <= maxvar && isAnd[LitVar(gs[k].lhs)] && idx[LitVar(gs[k].lhs)] == k
  {
    forall k | 0 <= k < |gs| ensures LitVar(gs[k].lhs) <= maxvar && isAnd[LitVar(gs[k].lhs)]
      && idx[LitVar(gs[k].lhs)] == k {
      assert GateTyped(maxvar, gs[k], isAnd, idx, k);
    }
  }

  lemma CompactingStep(maxvar: nat, gs: seq<And>, isAnd: seq<bool>, idx: seq<nat>, keep: seq<bool>, i: nat,
                       isAnd': seq<bool>, idx': seq<nat>, v: nat)
    requires Compacting(maxvar, gs, isAnd, idx, keep, i, isAnd', idx') && i < |gs| && v == LitVar(gs[i].lhs)
    ensures v <= maxvar && isAnd'[v]
    ensures keep[v] ==>
      Compacting(maxvar, gs, isAnd, idx, keep, i + 1, isAnd', idx'[v := Slot(maxvar, gs, isAnd, idx, keep, i)])
    ensures !keep[v] ==> Compacting(maxvar, gs, isAnd, idx, keep, i + 1, isAnd'[v := false], idx'[v := 0])
  {
    TypedVars(maxvar, gs, isAnd, idx);
    forall x | 0 <= x <= maxvar && isAnd[x] && idx[x] == i ensures x == v {
      LitVarOf(x);
    }
  }

  /** Afterwards the kept gates are typed again, and the gate variables are the kept ones. */
  lemma CompactedTyped(maxvar: nat, gs: seq<And>, isAnd: seq<bool>, idx: seq<nat>, keep: seq<bool>,
                       isAnd': seq<bool>, idx': seq<nat>, gs': seq<And>)
    requires Compacting(maxvar, gs, isAnd, idx, keep, |gs|, isAnd', idx')
    requires forall k :: 0 <= k < |gs| ==> LitVar(gs[k].lhs) < |keep|
    requires gs' == Kept(gs, keep, |gs|)
    ensures TypedAt(maxvar, gs', isAnd', idx')
    ensures forall v :: 0 <= v <= maxvar ==> isAnd'[v] == (isAnd[v] && keep[v])
  {
    forall v | 0 <= v <= maxvar && isAnd'[v] ensures idx'[v] < |gs'| && gs'[idx'[v]].lhs == 2 * v {
      LitVarOf(v);
      KeptAt(gs, keep, idx[v], |gs|);
    }
    forall x | 0 <= x < |gs'| ensures GateTyped(maxvar, gs'[x], isAnd', idx', x) {
      var k := KeptFrom(gs, keep, |gs|, x);
      assert GateTyped(maxvar, gs[k], isAnd, idx, k);
    }
  }
}
