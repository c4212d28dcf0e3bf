/** The search for cyclic definitions among the AND gates of an AIGER circuit: a depth-first search
    with an explicit stack in which a zero marks the end of a gate's operands. */
module AigerCycles {
  import opened Aigs

  /** The gates by variable: which variables are AND gates, and the variables of their operands. */
  datatype Graph = Graph(isAnd: seq<bool>, kids: seq<(nat, nat)>) {
    ghost predicate WellTyped() {
      && |isAnd| == |kids| > 0 && !isAnd[0]
      && forall v :: 0 <= v < |isAnd| && isAnd[v] ==> kids[v].0 < |isAnd| && kids[v].1 < |isAnd|
    }

    /** Gate v uses gate w. */
    ghost predicate Edge(v: nat, w: nat) {
      && v < |isAnd| && v < |kids| && isAnd[v] && w < |isAnd| && isAnd[w] && w != 0
      && (w == kids[v].0 || w == kids[v].1)
    }
  }

  // ----- circuits as graphs -----

  /** Every AND variable knows the slot of its gate, and every slot its variable. */
  ghost predicate TypedAt(maxvar: nat, gs: seq<And>, isAnd: seq<bool>, idx: seq<nat>) {
    && |isAnd| == |idx| == maxvar + 1 && !isAnd[0]
    && (forall v :: 0 <= v <= maxvar && isAnd[v] ==> idx[v] < |gs| && gs[idx[v]].lhs == 2 * v)
    && (forall k :: 0 <= k < |gs| ==> GateTyped(maxvar, gs[k], isAnd, idx, k))
  }

  ghost predicate GateTyped(maxvar: nat, g: And, isAnd: seq<bool>, idx: seq<nat>, k: nat) {
    && LitVar(g.lhs) <= maxvar && LitVar(g.rhs0) <= maxvar && LitVar(g.rhs1) <= maxvar
    && |isAnd| == |idx| == maxvar + 1 && isAnd[LitVar(g.lhs)] && idx[LitVar(g.lhs)] == k
  }

  ghost function GraphOf(gs: seq<And>, isAnd: seq<bool>, idx: seq<nat>): (G: Graph)
    ensures |G.kids| == |isAnd|
  {
    Graph(isAnd, seq(|isAnd|, v requires 0 <= v < |isAnd| =>
                                if isAnd[v] && v < |idx| && idx[v] < |gs|
                                then (LitVar(gs[idx[v]].rhs0), LitVar(gs[idx[v]].rhs1)) else (0, 0)))
  }

  lemma GraphWellTyped(maxvar: nat, gs: seq<And>, isAnd: seq<bool>, idx: seq<nat>)
    requires TypedAt(maxvar, gs, isAnd, idx)
    ensures GraphOf(gs, isAnd, idx).WellTyped()
  {
    forall v | 0 <= v <= maxvar && isAnd[v] ensures GateTyped(maxvar, gs[idx[v]], isAnd, idx, idx[v]) {
    }
  }

  // ----- cycles -----

  /** A walk along the edges. */
  ghost predicate Walk(G: Graph, p: seq<nat>) {
    forall k :: 0 < k < |p| ==> G.Edge(p[k - 1], p[k])
  }

  ghost predicate Cyclic(G: Graph) {
    exists p :: |p| >= 2 && p[0] == p[|p| - 1] && Walk(G, p)
  }

  // ----- the order in which gates are finished -----

  /** The operands of a finished gate were finished before it. */
  ghost predicate Finished(G: Graph, done: seq<nat>) {
    forall k, w :: 0 <= k < |done| && G.Edge(done[k], w) ==> w in done[..k]
  }

  ghost predicate Distinct(s: seq<nat>) {
    forall i, j :: 0 <= i < j < |s| ==> s[i] != s[j]
  }

  /** Along a walk from a finished gate the finishing positions fall. */
  lemma {:induction false} WalkFalls(G: Graph, done: seq<nat>, p: seq<nat>, i: nat) returns (j: nat)
    requires Finished(G, done) && Walk(G, p) && p != [] && i < |done| && done[i] == p[0]
    ensures j <= i && j < |done| && done[j] == p[|p| - 1] && (|p| >= 2 ==> j < i)
    decreases |p|
  {
    if |p| == 1 {
      j := i;
    } else {
      assert G.Edge(p[0], p[1]);
      var k :| 0 <= k < i && done[..i][k] == p[1];
      forall x | 0 < x < |p[1..]| ensures G.Edge(p[1..][x - 1], p[1..][x]) {
        assert G.Edge(p[x], p[x + 1]);
      }
      j := WalkFalls(G, done, p[1..], k);
    }
  }

  ghost predicate Topological(G: Graph, done: seq<nat>) {
    Finished(G, done) && Distinct(done) && forall v :: 0 <= v < |G.isAnd| && G.isAnd[v] ==> v in done
  }

  /** If all gates have been finished in such an order, there is no cycle. */
  lemma NoCycle(G: Graph, done: seq<nat>)
    requires Topological(G, done)
    ensures !Cyclic(G)
  {
    forall p | |p| >= 2 && p[0] == p[|p| - 1] ensures !Walk(G, p) {
      if Walk(G, p) {
        assert G.Edge(p[0], p[1]);
        var i :| 0 <= i < |done| && done[i] == p[0];
        var j := WalkFalls(G, done, p, i);
      }
    }
  }

  // ----- the explicit stack -----

  /** What the stack holds: the gates on the current path, each followed by a zero and by those of
      its operands that are still to be visited. */
  ghost function StackOf(path: seq<nat>, pend: seq<seq<nat>>): seq<nat>
    requires |pend| == |path| + 1
  {
    if path == [] then pend[0]
    else StackOf(path[..|path| - 1], pend[..|path|]) + [path[|path| - 1], 0] + pend[|path|]
  }

  lemma PopPending(path: seq<nat>, pend: seq<seq<nat>>, rest: seq<nat>, x: nat)
    requires |pend| == |path| + 1 && pend[|path|] == rest + [x]
    ensures StackOf(path, pend) == StackOf(path, pend[|path| := rest]) + [x]
  {
    assert pend[|path| := rest][..|path|] == pend[..|path|];
  }

  lemma PushPath(path: seq<nat>, pend: seq<seq<nat>>, x: nat, kids: seq<nat>)
    requires |pend| == |path| + 1
    ensures StackOf(path + [x], pend + [kids]) == StackOf(path, pend) + [x, 0] + kids
  {
    assert (path + [x])[..|path|] == path && (pend + [kids])[..|path| + 1] == pend;
  }

  /** The search state. Gates on the path are exactly those on the stack with a zero above them;
      operands of path gates are finished, pending, or next on the path. */
  ghost predicate Search(G: Graph, mark: seq<bool>, onstack: seq<bool>, path: seq<nat>, pend: seq<seq<nat>>,
      done: seq<nat>)
  {
    && G.WellTyped() && |mark| == |onstack| == |G.isAnd| && |pend| == |path| + 1
    && Colours(G, mark, onstack, path, done)
    && Pending(G, path, pend) && OnPath(G, path) && AllCovered(G, path, pend, done)
  }

  ghost predicate Colours(G: Graph, mark: seq<bool>, onstack: seq<bool>, path: seq<nat>, done: seq<nat>)
    requires |mark| == |onstack| == |G.isAnd|
  {
    && Finished(G, done) && Distinct(done)
    && (forall v :: v in done ==> v < |mark| && v !in path && G.isAnd[v])
    && (forall v :: v in path ==> v < |mark|)
    && (forall v :: 0 <= v < |mark| ==> (mark[v] <==> v in done || v in path) && (onstack[v] <==> v in path))
  }

  /** Pending entries are variables, and operands of the gate below them on the path. */
  ghost predicate Pending(G: Graph, path: seq<nat>, pend: seq<seq<nat>>) {
    forall k, w :: 0 <= k < |pend| && w in pend[k] ==> PendingEntry(G, path, k, w)
  }

  ghost predicate PendingEntry(G: Graph, path: seq<nat>, k: nat, w: nat) {
    && 0 < w < |G.isAnd|
    && (0 < k <= |path| ==> path[k - 1] < |G.kids| && (w == G.kids[path[k - 1]].0 || w == G.kids[path[k - 1]].1))
  }

  ghost predicate AllCovered(G: Graph, path: seq<nat>, pend: seq<seq<nat>>, done: seq<nat>) {
    forall k, w :: 0 <= k < |path| && G.Edge(path[k], w) ==> Covered(path, pend, done, k, w)
  }

  ghost predicate OnPath(G: Graph, path: seq<nat>) {
    && Distinct(path) && Walk(G, path)
    && (forall k :: 0 <= k < |path| ==> 0 < path[k] < |G.isAnd| && G.isAnd[path[k]])
  }

  ghost predicate Covered(path: seq<nat>, pend: seq<seq<nat>>, done: seq<nat>, k: nat, w: nat) {
    w in done || (k + 1 < |pend| && w in pend[k + 1]) || (k + 1 < |path| && w == path[k + 1])
  }

  // ----- the steps -----

  /** Operands to be visited: only operands, and among them all that are gates. */
  ghost predicate KidsOf(G: Graph, j: nat, kids: seq<nat>) {
    && j < |G.kids|
    && (forall w :: w in kids ==> w != 0 && (w == G.kids[j].0 || w == G.kids[j].1))
    && (forall w: nat :: G.Edge(j, w) ==> w in kids)
  }

  /** An entry that is finished, or no gate, is dropped. */
  lemma DropStep(G: Graph, mark: seq<bool>, onstack: seq<bool>, path: seq<nat>, pend: seq<seq<nat>>, done: seq<nat>,
      rest: seq<nat>, j: nat)
    requires Search(G, mark, onstack, path, pend, done) && j < |G.isAnd|
    requires pend[|path|] == rest + [j] && (!G.isAnd[j] || (mark[j] && !onstack[j]))
    ensures Search(G, mark, onstack, path, pend[|path| := rest], done)
  {
    var pend' := pend[|path| := rest];
    FewerPending(G, path, pend, rest, j);
    forall k, w | 0 <= k < |path| && G.Edge(path[k], w) ensures Covered(path, pend', done, k, w) {
      assert Covered(path, pend, done, k, w);
      assert w in rest + [j] ==> w in rest || w == j;
    }
  }

  lemma FewerPending(G: Graph, path: seq<nat>, pend: seq<seq<nat>>, rest: seq<nat>, j: nat)
    requires |pend| == |path| + 1 && Pending(G, path, pend) && pend[|path|] == rest + [j]
    ensures Pending(G, path, pend[|path| := rest])
  {
    var pend' := pend[|path| := rest];
    forall k, w | 0 <= k < |pend'| && w in pend'[k] ensures PendingEntry(G, path, k, w) {
      assert w in pend[k];
    }
  }

  /** A gate met for the first time joins the path. */
  lemma EnterStep(G: Graph, mark: seq<bool>, onstack: seq<bool>, path: seq<nat>, pend: seq<seq<nat>>, done: seq<nat>,
      rest: seq<nat>, j: nat, kids: seq<nat>)
    requires Search(G, mark, onstack, path, pend, done)
    requires pend[|path|] == rest + [j] && 0 < j < |G.isAnd| && G.isAnd[j] && !mark[j]
    requires KidsOf(G, j, kids)
    ensures Search(G, mark[j := true], onstack[j := true], path + [j], pend[|path| := rest] + [kids], done)
  {
    assert j in pend[|path|] && PendingEntry(G, path, |path|, j);
    assert j !in path && j !in done;
    EnterColours(G, mark, onstack, path, done, j);
    EnterPending(G, path, pend, rest, j, kids);
    EnterPath(G, path, j);
    EnterCovered(G, path, pend, done, rest, j, kids);
  }

  lemma EnterColours(G: Graph, mark: seq<bool>, onstack: seq<bool>, path: seq<nat>, done: seq<nat>, j: nat)
    requires |mark| == |onstack| == |G.isAnd| && Colours(G, mark, onstack, path, done) && j < |mark| && j !in done
    ensures Colours(G, mark[j := true], onstack[j := true], path + [j], done)
  {
    assert forall v :: v in path + [j] <==> v in path || v == j;
  }

  lemma EnterPending(G: Graph, path: seq<nat>, pend: seq<seq<nat>>, rest: seq<nat>, j: nat, kids: seq<nat>)
    requires G.WellTyped() && |pend| == |path| + 1 && Pending(G, path, pend) && pend[|path|] == rest + [j]
    requires j < |G.isAnd| && G.isAnd[j] && KidsOf(G, j, kids)
    ensures Pending(G, path + [j], pend[|path| := rest] + [kids])
  {
    var path', pend' := path + [j], pend[|path| := rest] + [kids];
    forall k, w | 0 <= k < |pend'| && w in pend'[k] ensures PendingEntry(G, path', k, w) {
      if k <= |path| {
        assert w in pend[k] && PendingEntry(G, path, k, w);
      } else {
        assert w in kids && path'[k - 1] == j;
      }
    }
  }

  lemma EnterPath(G: Graph, path: seq<nat>, j: nat)
    requires OnPath(G, path) && j !in path && 0 < j < |G.isAnd| && G.isAnd[j]
    requires path != [] ==> G.Edge(path[|path| - 1], j)
    ensures OnPath(G, path + [j])
  {
    var path' := path + [j];
    forall k | 0 < k < |path'| ensures G.Edge(path'[k - 1], path'[k]) {
      if k < |path| {
        assert G.Edge(path[k - 1], path[k]);
      }
    }
  }

  lemma EnterCovered(G: Graph, path: seq<nat>, pend: seq<seq<nat>>, done: seq<nat>, rest: seq<nat>, j: nat,
      kids: seq<nat>)
    requires |pend| == |path| + 1 && AllCovered(G, path, pend, done) && pend[|path|] == rest + [j]
    requires KidsOf(G, j, kids)
    ensures AllCovered(G, path + [j], pend[|path| := rest] + [kids], done)
  {
    var path', pend' := path + [j], pend[|path| := rest] + [kids];
    forall k, w | 0 <= k < |path'| && G.Edge(path'[k], w) ensures Covered(path', pend', done, k, w) {
      if k < |path| {
        assert path'[k] == path[k] && Covered(path, pend, done, k, w);
        assert w in rest + [j] ==> w in rest || w == j;
      } else {
        assert w in kids;
      }
    }
  }

  /** The last gate of the path, all of whose operands were visited, is finished. */
  lemma LeaveStep(G: Graph, mark: seq<bool>, onstack: seq<bool>, path: seq<nat>, pend: seq<seq<nat>>, done: seq<nat>,
      m: nat)
    requires Search(G, mark, onstack, path, pend, done)
    requires |path| == m + 1 && pend[m + 1] == []
    ensures Search(G, mark, onstack[path[m] := false], path[..m], pend[..m + 1], done + [path[m]])
  {
    LeaveColours(G, mark, onstack, path, pend, done, m);
    LeavePending(G, path, pend, m);
    LeaveCovered(G, path, pend, done, m);
    forall k | 0 < k < m ensures G.Edge(path[..m][k - 1], path[..m][k]) {
      assert G.Edge(path[k - 1], path[k]);
    }
  }

  lemma LeaveColours(G: Graph, mark: seq<bool>, onstack: seq<bool>, path: seq<nat>, pend: seq<seq<nat>>, done: seq<nat>,
      m: nat)
    requires |mark| == |onstack| == |G.isAnd| && Colours(G, mark, onstack, path, done) && OnPath(G, path)
    requires |pend| == |path| + 1 && |path| == m + 1 && pend[m + 1] == [] && AllCovered(G, path, pend, done)
    ensures Colours(G, mark, onstack[path[m] := false], path[..m], done + [path[m]])
  {
    var j := path[m];
    forall w | G.Edge(j, w) ensures w in done {
      assert Covered(path, pend, done, m, w);
    }
    FinishOne(G, done, j);
    LastOfPath(path, m);
    MoveColours(G, mark, onstack, path, path[..m], done, j);
  }

  lemma LastOfPath(path: seq<nat>, m: nat)
    requires Distinct(path) && |path| == m + 1
    ensures path[m] !in path[..m] && forall v :: v in path <==> v in path[..m] || v == path[m]
  {
  }

  lemma MoveColours(G: Graph, mark: seq<bool>, onstack: seq<bool>, path: seq<nat>, path': seq<nat>, done: seq<nat>,
      j: nat)
    requires |mark| == |onstack| == |G.isAnd| && Colours(G, mark, onstack, path, done) && j < |G.isAnd| && G.isAnd[j]
    requires j !in path' && (forall v :: v in path <==> v in path' || v == j) && Finished(G, done + [j])
    ensures Colours(G, mark, onstack[j := false], path', done + [j])
  {
    assert j in path && j !in done;
    assert forall v :: v in done + [j] <==> v in done || v == j;
  }

  lemma FinishOne(G: Graph, done: seq<nat>, j: nat)
    requires Finished(G, done) && forall w :: G.Edge(j, w) ==> w in done
    ensures Finished(G, done + [j])
  {
    var done' := done + [j];
    forall k, w | 0 <= k < |done'| && G.Edge(done'[k], w) ensures w in done'[..k] {
      if k < |done| {
        assert w in done[..k] && done'[..k] == done[..k];
      } else {
        assert done'[..k] == done;
      }
    }
  }

  lemma LeavePending(G: Graph, path: seq<nat>, pend: seq<seq<nat>>, m: nat)
    requires |pend| == |path| + 1 && |path| == m + 1 && Pending(G, path, pend)
    ensures Pending(G, path[..m], pend[..m + 1])
  {
    forall k, w | 0 <= k < m + 1 && w in pend[k] ensures PendingEntry(G, path[..m], k, w) {
      assert PendingEntry(G, path, k, w);
    }
  }

  lemma LeaveCovered(G: Graph, path: seq<nat>, pend: seq<seq<nat>>, done: seq<nat>, m: nat)
    requires |pend| == |path| + 1 && |path| == m + 1 && AllCovered(G, path, pend, done)
    ensures AllCovered(G, path[..m], pend[..m + 1], done + [path[m]])
  {
    forall k, w | 0 <= k < m && G.Edge(path[..m][k], w)
      ensures Covered(path[..m], pend[..m + 1], done + [path[m]], k, w) {
      assert Covered(path, pend, done, k, w);
    }
  }

  /** A pending gate that is still on the path closes a cycle. */
  lemma CycleFound(G: Graph, mark: seq<bool>, onstack: seq<bool>, path: seq<nat>, pend: seq<seq<nat>>, done: seq<nat>,
      j: nat)
    requires Search(G, mark, onstack, path, pend, done)
    requires j < |mark| && onstack[j] && path != [] && G.Edge(path[|path| - 1], j)
    ensures Cyclic(G)
  {
    var k :| 0 <= k < |path| && path[k] == j;
    var tail := path[k..];
    forall x | 0 < x < |tail| ensures G.Edge(tail[x - 1], tail[x]) {
      assert G.Edge(path[k + x - 1], path[k + x]);
    }
    CloseWalk(G, tail, j);
  }

  lemma CloseWalk(G: Graph, tail: seq<nat>, j: nat)
    requires tail != [] && Walk(G, tail) && tail[0] == j && G.Edge(tail[|tail| - 1], j)
    ensures Cyclic(G)
  {
    var p := tail + [j];
    forall x | 0 < x < |p| ensures G.Edge(p[x - 1], p[x]) {
      if x < |tail| {
        assert G.Edge(tail[x - 1], tail[x]);
      }
    }
    assert p[0] == p[|p| - 1] && Walk(G, p);
  }

  /** Once every gate is marked and the path is empty, the finishing order is topological. */
  lemma SearchDone(G: Graph, mark: seq<bool>, onstack: seq<bool>, done: seq<nat>)
    requires Search(G, mark, onstack, [], [[]], done) && forall v :: 1 <= v < |mark| && G.isAnd[v] ==> mark[v]
    ensures Topological(G, done) && !Cyclic(G)
  {
    NoCycle(G, done);
  }

  // ----- the same steps on the stack itself -----

  ghost predicate StackState(G: Graph, mark: seq<bool>, onstack: seq<bool>, stack: seq<nat>, path: seq<nat>,
      pend: seq<seq<nat>>, done: seq<nat>)
  {
    |pend| == |path| + 1 && stack == StackOf(path, pend) && Search(G, mark, onstack, path, pend, done)
  }

  /** What the top of the stack says: a pending entry, or the end of a gate's operands. */
  lemma TopOf(G: Graph, path: seq<nat>, pend: seq<seq<nat>>)
    requires |pend| == |path| + 1 && Pending(G, path, pend)
    ensures var st, m := StackOf(path, pend), |path|;
            && (st == [] <==> path == [] && pend[0] == [])
            && (st != [] && st[|st| - 1] != 0 ==> pend[m] != [] && pend[m][|pend[m]| - 1] == st[|st| - 1])
            && (st != [] && st[|st| - 1] == 0 ==>
                  (pend[m] == [] && m > 0 && |st| >= 2 && st[|st| - 2] == path[m - 1]
                   && st[..|st| - 2] == StackOf(path[..m - 1], pend[..m])))
  {
    var st, m := StackOf(path, pend), |path|;
    if pend[m] != [] {
      var x := pend[m][|pend[m]| - 1];
      assert x in pend[m] && PendingEntry(G, path, m, x);
      assert st[|st| - 1] == x;
    }
  }

  /** A pending entry on top, split off. */
  lemma TopEntry(G: Graph, mark: seq<bool>, onstack: seq<bool>, stack: seq<nat>, path: seq<nat>, pend: seq<seq<nat>>,
      done: seq<nat>) returns (rest: seq<nat>)
    requires StackState(G, mark, onstack, stack, path, pend, done) && stack != [] && stack[|stack| - 1] != 0
    ensures pend[|path|] == rest + [stack[|stack| - 1]] && 0 < stack[|stack| - 1] < |G.isAnd|
    ensures stack[..|stack| - 1] == StackOf(path, pend[|path| := rest])
    ensures path != [] && G.isAnd[stack[|stack| - 1]] ==> G.Edge(path[|path| - 1], stack[|stack| - 1])
  {
    var j := stack[|stack| - 1];
    TopOf(G, path, pend);
    rest := pend[|path|][..|pend[|path|]| - 1];
    assert pend[|path|] == rest + [j] && j in pend[|path|] && PendingEntry(G, path, |path|, j);
    PopPending(path, pend, rest, j);
  }

  /** The search began at v: nothing else is pending below the path, which starts at it. */
  ghost predicate Rooted(v: nat, path: seq<nat>, pend: seq<seq<nat>>) {
    pend != [] && (forall w :: w in pend[0] ==> w == v) && (path != [] ==> path[0] == v)
  }

  lemma RootedFewer(path: seq<nat>, pend: seq<seq<nat>>, rest: seq<nat>, x: nat)
    requires |pend| == |path| + 1 && pend[|path|] == rest + [x]
    ensures forall v: nat :: Rooted(v, path, pend) ==>
      Rooted(v, path, pend[|path| := rest]) && (path == [] ==> x == v)
  {
    assert x in rest + [x] && forall w :: w in rest ==> w in rest + [x];
  }

  lemma DropState(G: Graph, mark: seq<bool>, onstack: seq<bool>, stack: seq<nat>, path: seq<nat>, pend: seq<seq<nat>>,
      done: seq<nat>) returns (pend': seq<seq<nat>>)
    requires StackState(G, mark, onstack, stack, path, pend, done) && stack != [] && 0 < stack[|stack| - 1] < |G.isAnd|
    requires var j := stack[|stack| - 1]; !G.isAnd[j] || (mark[j] && !onstack[j])
    ensures StackState(G, mark, onstack, stack[..|stack| - 1], path, pend', done)
    ensures forall v: nat :: Rooted(v, path, pend) ==> Rooted(v, path, pend')
  {
    var rest := TopEntry(G, mark, onstack, stack, path, pend, done);
    DropStep(G, mark, onstack, path, pend, done, rest, stack[|stack| - 1]);
    pend' := pend[|path| := rest];
    RootedFewer(path, pend, rest, stack[|stack| - 1]);
  }

  lemma EnterState(G: Graph, mark: seq<bool>, onstack: seq<bool>, stack: seq<nat>, path: seq<nat>, pend: seq<seq<nat>>,
      done: seq<nat>, j: nat, kids: seq<nat>)
    returns (path': seq<nat>, pend': seq<seq<nat>>)
    requires StackState(G, mark, onstack, stack, path, pend, done) && stack != [] && stack[|stack| - 1] == j
    requires 0 < j < |G.isAnd| && G.isAnd[j] && !mark[j]
    requires KidsOf(G, j, kids)
    ensures path' == path + [j]
    ensures StackState(G, mark[j := true], onstack[j := true], stack + [0] + kids, path', pend', done)
    ensures forall v: nat :: Rooted(v, path, pend) ==> Rooted(v, path', pend')
  {
    var rest := TopEntry(G, mark, onstack, stack, path, pend, done);
    EnterStep(G, mark, onstack, path, pend, done, rest, j, kids);
    PushPath(path, pend[|path| := rest], j, kids);
    path', pend' := path + [j], pend[|path| := rest] + [kids];
    PushOn(stack, j, kids);
    RootedFewer(path, pend, rest, j);
    RootedPush(path, pend[|path| := rest], j, kids);
  }

  lemma RootedPush(path: seq<nat>, pend: seq<seq<nat>>, x: nat, kids: seq<nat>)
    requires |pend| == |path| + 1
    ensures forall v: nat :: Rooted(v, path, pend) && (path == [] ==> x == v) ==> Rooted(v, path + [x], pend + [kids])
  {
  }

  lemma PushOn(stack: seq<nat>, j: nat, kids: seq<nat>)
    requires stack != [] && stack[|stack| - 1] == j
    ensures stack + [0] + kids == stack[..|stack| - 1] + [j, 0] + kids
  {
  }

  lemma LeaveState(G: Graph, mark: seq<bool>, onstack: seq<bool>, stack: seq<nat>, path: seq<nat>, pend: seq<seq<nat>>,
      done: seq<nat>)
    returns (path': seq<nat>, pend': seq<seq<nat>>, done': seq<nat>)
    requires StackState(G, mark, onstack, stack, path, pend, done) && stack != [] && stack[|stack| - 1] == 0
    ensures |stack| >= 2 && 0 < stack[|stack| - 2] < |onstack| && mark[stack[|stack| - 2]]
      && onstack[stack[|stack| - 2]]
    ensures path == path' + [stack[|stack| - 2]] && done' == done + [stack[|stack| - 2]]
    ensures StackState(G, mark, onstack[stack[|stack| - 2] := false], stack[..|stack| - 2], path', pend', done')
    ensures forall v: nat :: Rooted(v, path, pend) ==> Rooted(v, path', pend')
  {
    var m := |path|;
    TopOf(G, path, pend);
    assert path[m - 1] in path;
    LeaveStep(G, mark, onstack, path, pend, done, m - 1);
    path', pend', done' := path[..m - 1], pend[..m], done + [path[m - 1]];
  }

  lemma CycleState(G: Graph, mark: seq<bool>, onstack: seq<bool>, stack: seq<nat>, path: seq<nat>, pend: seq<seq<nat>>,
      done: seq<nat>)
    requires StackState(G, mark, onstack, stack, path, pend, done) && stack != [] && 0 < stack[|stack| - 1] < |mark|
    requires onstack[stack[|stack| - 1]]
    ensures Cyclic(G)
  {
    var rest := TopEntry(G, mark, onstack, stack, path, pend, done);
    assert stack[|stack| - 1] in path;
    CycleFound(G, mark, onstack, path, pend, done, stack[|stack| - 1]);
  }
}
