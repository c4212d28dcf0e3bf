/** Re-encoding as the library does it: a depth-first search with an explicit stack hands out new
    literals, the gate array is rewritten in place, compacted and sorted. */
module AigerNormalising {
  import opened Aigs
  import opened AigerCodecs
  import opened AigerCycles
  import opened AigerPruning
  import opened AigerReencoding

  datatype Latch = Latch(lit: nat, next: nat, reset: nat)

  ghost function Unmarked(mark: seq<bool>): set<nat> {
    set v | 0 <= v < |mark| && !mark[v]
  }

  /** In an acyclic circuit the entry on top of the stack is not on the path. */
  lemma TopNotOnPath(G: Graph, mark: seq<bool>, onstack: seq<bool>, stack: seq<nat>, path: seq<nat>,
      pend: seq<seq<nat>>, done: seq<nat>)
    requires StackState(G, mark, onstack, stack, path, pend, done) && stack != [] && 0 < stack[|stack| - 1] < |mark|
      && !Cyclic(G)
    ensures !onstack[stack[|stack| - 1]]
  {
    if onstack[stack[|stack| - 1]] {
      CycleState(G, mark, onstack, stack, path, pend, done);
    }
  }

  /** Nor is an operand of it. */
  lemma KidNotOnPath(G: Graph, mark: seq<bool>, onstack: seq<bool>, stack: seq<nat>, path: seq<nat>,
      pend: seq<seq<nat>>, done: seq<nat>, w: nat)
    requires StackState(G, mark, onstack, stack, path, pend, done) && stack != [] && 0 < stack[|stack| - 1] < |mark|
      && !Cyclic(G)
    requires G.isAnd[stack[|stack| - 1]] && G.Edge(stack[|stack| - 1], w)
    ensures w < |onstack| && !onstack[w] && w != stack[|stack| - 1]
  {
    var j := stack[|stack| - 1];
    var rest := TopEntry(G, mark, onstack, stack, path, pend, done);
    var p := path + [j];
    forall k | 0 < k < |p| ensures G.Edge(p[k - 1], p[k]) {
      if k < |path| {
        assert G.Edge(path[k - 1], path[k]);
      }
    }
    if w in p {
      var k :| 0 <= k < |p| && p[k] == w;
      var tail := p[k..];
      forall x | 0 < x < |tail| ensures G.Edge(tail[x - 1], tail[x]) {
        assert G.Edge(p[k + x - 1], p[k + x]);
      }
      CloseWalk(G, tail, w);
    }
    assert w !in path;
  }

  /** The state of the search below one gate: only gates are on the stack. Marked are the gates that
      are coded or on the path; no array holds these marks. */
  ghost predicate Searching(G: Graph, n: nat, mark: seq<bool>, onstack: seq<bool>, stack: seq<nat>, path: seq<nat>,
      pend: seq<seq<nat>>, done: seq<nat>)
  {
    && |mark| == |onstack| == |G.isAnd| == n && StackState(G, mark, onstack, stack, path, pend, done)
    && forall w :: w in stack && w != 0 ==> w < n && G.isAnd[w]
  }

  lemma UnmarkedShrinks(mark: seq<bool>, j: nat)
    requires j < |mark| && !mark[j]
    ensures Unmarked(mark[j := true]) < Unmarked(mark)
  {
    assert j in Unmarked(mark) && j !in Unmarked(mark[j := true]);
  }

  lemma EnterSearch(G: Graph, n: nat, mark: seq<bool>, onstack: seq<bool>, stack: seq<nat>, path: seq<nat>,
      pend: seq<seq<nat>>, done: seq<nat>, j: nat, kids: seq<nat>)
    returns (path': seq<nat>, pend': seq<seq<nat>>)
    requires Searching(G, n, mark, onstack, stack, path, pend, done) && stack != [] && stack[|stack| - 1] == j
    requires 0 < j < n && G.isAnd[j] && !mark[j] && KidsOf(G, j, kids)
    requires forall w :: w in kids ==> w < n && G.isAnd[w]
    ensures Searching(G, n, mark[j := true], onstack[j := true], stack + [0] + kids, path', pend', done)
    ensures forall v: nat :: Rooted(v, path, pend) ==> Rooted(v, path', pend')
  {
    path', pend' := EnterState(G, mark, onstack, stack, path, pend, done, j, kids);
    OnStack(stack, kids);
  }

  lemma OnStack(stack: seq<nat>, kids: seq<nat>)
    ensures forall w :: w in stack + [0] + kids <==> w in stack || w == 0 || w in kids
  {
  }

  lemma LeaveSearch(G: Graph, n: nat, mark: seq<bool>, onstack: seq<bool>, stack: seq<nat>, path: seq<nat>,
      pend: seq<seq<nat>>, done: seq<nat>)
    returns (j: nat, path': seq<nat>, pend': seq<seq<nat>>, done': seq<nat>)
    requires Searching(G, n, mark, onstack, stack, path, pend, done) && stack != [] && stack[|stack| - 1] == 0
    ensures |stack| >= 2 && j == stack[|stack| - 2] && 0 < j < n && onstack[j] && G.isAnd[j] && j !in done
    ensures Searching(G, n, mark, onstack[j := false], stack[..|stack| - 2], path', pend', done') && done' == done + [j]
    ensures path == path' + [j] && forall v: nat :: Rooted(v, path, pend) ==> Rooted(v, path', pend')
  {
    path', pend', done' := LeaveState(G, mark, onstack, stack, path, pend, done);
    j := stack[|stack| - 2];
    assert j in stack && j in path;
    var rest := stack[..|stack| - 2];
    forall w | w in rest && w != 0 ensures w < n && G.isAnd[w] {
      assert w in stack;
    }
    assert StackState(G, mark, onstack[j := false], rest, path', pend', done');
  }

  lemma DropSearch(G: Graph, n: nat, mark: seq<bool>, onstack: seq<bool>, stack: seq<nat>, path: seq<nat>,
      pend: seq<seq<nat>>, done: seq<nat>) returns (pend': seq<seq<nat>>)
    requires Searching(G, n, mark, onstack, stack, path, pend, done) && stack != [] && stack[|stack| - 1] != 0
      && stack[|stack| - 1] in done
    ensures Searching(G, n, mark, onstack, stack[..|stack| - 1], path, pend', done) && mark[stack[|stack| - 1]]
    ensures forall v: nat :: Rooted(v, path, pend) ==> Rooted(v, path, pend')
  {
    assert stack[|stack| - 1] in stack;
    pend' := DropState(G, mark, onstack, stack, path, pend, done);
  }

  /** A gate is coded exactly when it is marked and not on the path. */
  lemma MarkedOrNot(G: Graph, n: nat, mark: seq<bool>, onstack: seq<bool>, stack: seq<nat>, path: seq<nat>,
      pend: seq<seq<nat>>, done: seq<nat>, j: nat)
    requires Searching(G, n, mark, onstack, stack, path, pend, done) && j < n
    ensures mark[j] <==> j in done || onstack[j]
  {
  }

  /** Everything on a path that starts at v is reached from it. */
  lemma RootedReached(G: Graph, n: nat, mark: seq<bool>, onstack: seq<bool>, stack: seq<nat>, path: seq<nat>,
      pend: seq<seq<nat>>, done: seq<nat>, v: nat, j: nat)
    requires Searching(G, n, mark, onstack, stack, path + [j], pend, done) && Rooted(v, path + [j], pend)
    ensures Reached(G, {v}, j)
  {
    var p := path + [j];
    assert OnPath(G, p) && p[0] in {v} && p[|p| - 1] == j;
  }

  /** All that was coded since is reached from the roots. */
  ghost predicate OnlyReached(G: Graph, roots: set<nat>, done: seq<nat>, done': seq<nat>) {
    forall x :: x in done' ==> x in done || Reached(G, roots, x)
  }

  lemma MoreRoots(G: Graph, roots: set<nat>, roots': set<nat>, x: nat)
    requires Reached(G, roots, x) && roots <= roots'
    ensures Reached(G, roots', x)
  {
  }

  lemma OnlyReachedTrans(G: Graph, r1: set<nat>, r2: set<nat>, roots: set<nat>, d0: seq<nat>, d1: seq<nat>,
      d2: seq<nat>)
    requires OnlyReached(G, r1, d0, d1) && OnlyReached(G, r2, d1, d2) && r1 <= roots && r2 <= roots
    ensures OnlyReached(G, roots, d0, d2)
  {
    forall x | x in d2 && x !in d0 ensures Reached(G, roots, x) {
      if x in d1 {
        MoreRoots(G, r1, roots, x);
      } else {
        MoreRoots(G, r2, roots, x);
      }
    }
  }

  class Encoder {
    const maxvar: nat
    const gates: seq<And>
    const isAnd: seq<bool>
    const isInput: seq<bool>
    const isLatch: seq<bool>
    const idx: seq<nat>
    var onstack: seq<bool>
    var new_lit: nat
    const code: array<nat>

    /** The inputs and latches, in the order of their new literals. */
    ghost const leaves: seq<nat>
    ghost const G: Graph

    constructor (maxvar: nat, gates: seq<And>, isAnd: seq<bool>, isInput: seq<bool>, isLatch: seq<bool>, idx: seq<nat>,
        ghost leaves: seq<nat>)
      ensures this.maxvar == maxvar && this.gates == gates && this.isAnd == isAnd && this.isInput == isInput
      ensures this.isLatch == isLatch && this.idx == idx && this.leaves == leaves
        && this.G == GraphOf(gates, isAnd, idx)
      ensures fresh(code) && code.Length == 2 * (maxvar + 1) && CodesFor(code[..], [], maxvar)
      ensures onstack == seq(maxvar + 1, _ => false) && this.new_lit == 2
    {
      this.maxvar, this.gates, this.isAnd, this.isInput, this.isLatch, this.idx := maxvar, gates, isAnd, isInput,
        isLatch, idx;
      this.leaves, this.G := leaves, GraphOf(gates, isAnd, idx);
      code := new nat[2 * (maxvar + 1)](i => if i == 1 then 1 else 0);
      onstack := seq(maxvar + 1, _ => false);
      new_lit := 2;
    }

    /** A defined acyclic circuit: every variable in use is exactly one of constant, input, latch
        and gate. */
    ghost predicate Circuit() {
      && TypedAt(maxvar, gates, isAnd, idx) && G == GraphOf(gates, isAnd, idx) && !Cyclic(G)
      && |isInput| == |isLatch| == maxvar + 1
      && (forall v :: 0 <= v <= maxvar ==> ((v in leaves) <==> isInput[v] || isLatch[v]) && (v in leaves ==> !isAnd[v]))
      && (forall v :: v in leaves ==> v <= maxvar)
      && (forall k :: 0 <= k < |gates| ==>
         Defined(isAnd, leaves, gates[k].rhs0) && Defined(isAnd, leaves, gates[k].rhs1))
    }

    /** The codes handed out so far. */
    ghost predicate Codes(order: seq<nat>)
      reads this`new_lit, code
    {
      code.Length == 2 * (maxvar + 1) && CodesFor(code[..], order, maxvar) && new_lit == 2 * |order| + 2
    }

    /** The next variable gets the next pair of literals. */
    method NewCode(v: nat, ghost order: seq<nat>)
      requires Codes(order) && 0 < v <= maxvar && v !in order
      modifies this`new_lit, code
      ensures Codes(order + [v])
    {
      ghost var was: seq<nat> := code[..];
      ghost var lit: nat := 2 * |order| + 2;
      CodesNext(was, order, maxvar, v);
      assert code[2 * v] == 0;
      code[2 * v], code[2 * v + 1] := new_lit, new_lit + 1;
      new_lit := new_lit + 2;
      assert code[..] == was[2 * v := lit][2 * v + 1 := lit + 1];
    }

    /** Inputs, and latches after them, are coded in their order. */
    method CodeLeaves(lits: seq<nat>, ghost order: seq<nat>)
      requires Codes(order) && Distinct(order + VarsOf(lits)) && forall l :: l in lits ==>
        l % 2 == 0 && 0 < LitVar(l) <= maxvar
      modifies this`new_lit, code
      ensures Codes(order + VarsOf(lits))
    {
      var i := 0;
      assert order + VarsOf(lits[..0]) == order;
      while i < |lits|
        invariant 0 <= i <= |lits| && Codes(order + VarsOf(lits[..i]))
      {
        NotYetCoded(lits, order, i);
        NewCode(LitVar(lits[i]), order + VarsOf(lits[..i]));
        i := i + 1;
      }
      assert lits[..i] == lits;
    }

    static function VarsOf(lits: seq<nat>): (r: seq<nat>)
      ensures |r| == |lits|
    {
      seq(|lits|, i requires 0 <= i < |lits| => LitVar(lits[i]))
    }

    static lemma NotYetCoded(lits: seq<nat>, order: seq<nat>, i: nat)
      requires i < |lits| && Distinct(order + VarsOf(lits)) && forall l :: l in lits ==> l % 2 == 0 && 0 < LitVar(l)
      ensures LitVar(lits[i]) !in order + VarsOf(lits[..i]) && lits[i] in lits
      ensures order + VarsOf(lits[..i + 1]) == order + VarsOf(lits[..i]) + [LitVar(lits[i])]
    {
      var all := order + VarsOf(lits);
      assert all[|order| + i] == LitVar(lits[i]);
      forall k | 0 <= k < |order| + i ensures (order + VarsOf(lits[..i]))[k] != LitVar(lits[i]) {
        assert all[k] == (order + VarsOf(lits[..i]))[k];
      }
    }

    // ----- the search below one gate -----

    /** A coded gate is one of those done. */
    lemma CodedIsDone(done: seq<nat>, j: nat)
      requires Circuit() && Codes(leaves + done) && 0 < j <= maxvar && isAnd[j]
      ensures 2 * j < code.Length && (code[2 * j] != 0 <==> j in done)
    {
      LitVarOf(j);
      if code[2 * j] != 0 {
        HasCode(code[..], leaves + done, maxvar, 2 * j);
      } else {
        NotCoded(code[..], leaves + done, maxvar, j);
      }
    }

    /** The operands to visit, larger variable first so that the smaller one is visited first. */
    method Children(j: nat) returns (kids: seq<nat>)
      requires Circuit() && 0 < j <= maxvar && isAnd[j] && |onstack| == maxvar + 1
      requires forall w: nat :: G.Edge(j, w) ==> w <= maxvar && !onstack[w]
      ensures KidsOf(G, j, kids) && forall w :: w in kids ==> w <= maxvar && isAnd[w]
    {
      var child0, child1 := Operands(j);
      if child0 < child1 {
        child0, child1 := child1, child0;
      }
      var push0, push1 := Wanted(child0), Wanted(child1);
      kids := if push0 then [child0] else [];
      kids := if push1 then kids + [child1] else kids;
      KidsFrom(G, j, child0, child1, push0, push1, kids);
    }

    /** An operand that is a gate and not on the path. */
    predicate Wanted(child: nat)
      reads this`onstack
      requires |isInput| == |isLatch| == |onstack| == maxvar + 1 && child <= maxvar
    {
      child != 0 && !isInput[child] && !isLatch[child] && !onstack[child]
    }

    static lemma KidsFrom(G: Graph, j: nat, a: nat, c: nat, push0: bool, push1: bool, kids: seq<nat>)
      requires j < |G.kids| && (G.kids[j] == (a, c) || G.kids[j] == (c, a))
      requires (push0 ==> a != 0) && (push1 ==> c != 0) && (G.Edge(j, a) ==> push0) && (G.Edge(j, c) ==> push1)
      requires kids == (if push0 then [a] else []) + (if push1 then [c] else [])
      ensures KidsOf(G, j, kids)
      ensures forall w :: w in kids ==> (push0 && w == a) || (push1 && w == c)
    {
    }

    method Operands(j: nat) returns (child0: nat, child1: nat)
      requires Circuit() && j <= maxvar && isAnd[j]
      ensures j < |G.kids| && G.kids[j] == (child0, child1) && child0 <= maxvar && child1 <= maxvar
      ensures G.isAnd == isAnd
      ensures child0 == 0 || child0 in leaves || isAnd[child0]
      ensures child1 == 0 || child1 in leaves || isAnd[child1]
    {
      var g := gates[idx[j]];
      assert GateTyped(maxvar, g, isAnd, idx, idx[j]);
      assert Defined(isAnd, leaves, g.rhs0) && Defined(isAnd, leaves, g.rhs1);
      child0, child1 := LitVar(g.rhs0), LitVar(g.rhs1);
    }

    /** The prefix code. */
    method Enter(stack: seq<nat>, j: nat, ghost mark: seq<bool>, ghost path: seq<nat>, ghost pend: seq<seq<nat>>,
        ghost done: seq<nat>)
      returns (stack': seq<nat>, ghost path': seq<nat>, ghost pend': seq<seq<nat>>)
      requires Circuit() && Searching(G, maxvar + 1, mark, onstack, stack, path, pend, done) && stack != []
        && stack[|stack| - 1] == j
      requires 0 < j <= maxvar && isAnd[j] && !mark[j]
      modifies this`onstack
      ensures Searching(G, maxvar + 1, mark[j := true], onstack, stack', path', pend', done)
      ensures forall v: nat :: Rooted(v, path, pend) ==> Rooted(v, path', pend')
    {
      ghost var before := onstack;
      forall w: nat | G.Edge(j, w) ensures w <= maxvar && !onstack[w] && w != j {
        KidNotOnPath(G, mark, onstack, stack, path, pend, done, w);
      }
      onstack := onstack[j := true];
      var kids := Children(j);
      path', pend' := EnterSearch(G, maxvar + 1, mark, before, stack, path, pend, done, j, kids);
      stack' := stack + [0] + kids;
    }

    /** The postfix code. */
    method Leave(stack: seq<nat>, ghost mark: seq<bool>, ghost path: seq<nat>, ghost pend: seq<seq<nat>>,
        ghost done: seq<nat>)
      returns (stack': seq<nat>, ghost path': seq<nat>, ghost pend': seq<seq<nat>>, ghost done': seq<nat>)
      requires Circuit() && Codes(leaves + done) && Searching(G, maxvar + 1, mark, onstack, stack, path, pend, done)
        && stack != [] && stack[|stack| - 1] == 0
      modifies this`onstack, this`new_lit, code
      ensures Codes(leaves + done') && Searching(G, maxvar + 1, mark, onstack, stack', path', pend', done')
        && |stack'| < |stack| && done <= done'
      ensures forall v: nat :: Rooted(v, path, pend) ==> Rooted(v, path', pend') && OnlyReached(G, {v}, done, done')
    {
      hide Reached, StackState;
      ghost var left, onstack0;
      onstack0 := onstack;
      left, path', pend', done' := LeaveSearch(G, maxvar + 1, mark, onstack, stack, path, pend, done);
      forall v: nat | Rooted(v, path, pend) ensures OnlyReached(G, {v}, done, done') {
        RootedReached(G, maxvar + 1, mark, onstack0, stack, path', pend, done, v, left);
      }
      var j := stack[|stack| - 2];
      assert j !in leaves;
      AppendAssoc(leaves, done, j);
      NewCode(j, leaves + done);
      assert onstack[j];
      onstack := onstack[j := false];
      stack' := stack[..|stack| - 2];
    }

    static lemma AppendAssoc(leaves: seq<nat>, done: seq<nat>, j: nat)
      ensures leaves + (done + [j]) == leaves + done + [j]
    {
    }

    /** One turn of the loop. */
    method Advance(stack: seq<nat>, ghost mark: seq<bool>, ghost path: seq<nat>, ghost pend: seq<seq<nat>>,
        ghost done: seq<nat>)
      returns (stack': seq<nat>, ghost mark': seq<bool>, ghost path': seq<nat>, ghost pend': seq<seq<nat>>,
        ghost done': seq<nat>)
      requires Circuit() && Codes(leaves + done) && Searching(G, maxvar + 1, mark, onstack, stack, path, pend, done)
        && stack != []
      modifies this`onstack, this`new_lit, code
      ensures Codes(leaves + done') && Searching(G, maxvar + 1, mark', onstack, stack', path', pend', done')
        && done <= done'
      ensures (mark' == mark && |stack'| < |stack|)
           || (stack[|stack| - 1] < |mark| && !mark[stack[|stack| - 1]] && mark' == mark[stack[|stack| - 1] := true])
      ensures stack[|stack| - 1] != 0 ==> stack[|stack| - 1] < |mark'| && mark'[stack[|stack| - 1]]
      ensures forall v: nat :: Rooted(v, path, pend) ==> Rooted(v, path', pend') && OnlyReached(G, {v}, done, done')
    {
      stack', mark', path', pend', done' := stack, mark, path, pend, done;
      if stack[|stack| - 1] == 0 {
        stack', path', pend', done' := Leave(stack, mark, path, pend, done);
      } else {
        stack', mark', path', pend' := Visit(stack, mark, path, pend, done);
      }
    }

    /** A variable on top of the stack: dropped if it has a code, entered otherwise. */
    method Visit(stack: seq<nat>, ghost mark: seq<bool>, ghost path: seq<nat>, ghost pend: seq<seq<nat>>,
        ghost done: seq<nat>)
      returns (stack': seq<nat>, ghost mark': seq<bool>, ghost path': seq<nat>, ghost pend': seq<seq<nat>>)
      requires Circuit() && Codes(leaves + done) && Searching(G, maxvar + 1, mark, onstack, stack, path, pend, done)
      requires stack != [] && stack[|stack| - 1] != 0
      modifies this`onstack
      ensures Searching(G, maxvar + 1, mark', onstack, stack', path', pend', done)
      ensures stack[|stack| - 1] < |mark| && mark' == mark[stack[|stack| - 1] := true]
      ensures mark' == mark ==> |stack'| < |stack|
      ensures mark' != mark ==> !mark[stack[|stack| - 1]]
      ensures forall v: nat :: Rooted(v, path, pend) ==> Rooted(v, path', pend')
    {
      var old_var := stack[|stack| - 1];
      assert old_var in stack;
      CodedIsDone(done, old_var);
      TopNotOnPath(G, mark, onstack, stack, path, pend, done);
      MarkedOrNot(G, maxvar + 1, mark, onstack, stack, path, pend, done, old_var);
      if code[2 * old_var] != 0 || onstack[old_var] {
        mark', path' := mark, path;
        pend' := DropSearch(G, maxvar + 1, mark, onstack, stack, path, pend, done);
        stack' := stack[..|stack| - 1];
      } else {
        stack', path', pend' := Enter(stack, old_var, mark, path, pend, done);
        mark' := mark[old_var := true];
      }
    }

    static ghost function MarkDone(n: nat, done: seq<nat>): seq<bool> {
      seq(n, v requires 0 <= v < n => v in done)
    }

    /** Before the first root nothing is coded but the leaves. */
    lemma IdleAtFirst()
      requires G.WellTyped() && |G.isAnd| == maxvar + 1 && onstack == seq(maxvar + 1, _ => false)
      ensures Idle([])
    {
    }

    /** Between two calls nothing is on the path. */
    ghost predicate Idle(done: seq<nat>)
      reads this`onstack
    {
      Searching(G, maxvar + 1, MarkDone(maxvar + 1, done), onstack, [], [], [[]], done)
    }

    lemma StartSearch(v: nat, done: seq<nat>)
      requires Idle(done) && 0 < v <= maxvar && |G.isAnd| == maxvar + 1 && G.isAnd[v]
      ensures Searching(G, maxvar + 1, MarkDone(maxvar + 1, done), onstack, [v], [], [[v]], done)
      ensures Rooted(v, [], [[v]]) && OnlyReached(G, {v}, done, done)
    {
      assert Pending(G, [], [[v]]);
    }

    lemma EndSearch(mark: seq<bool>, path: seq<nat>, pend: seq<seq<nat>>, done: seq<nat>)
      requires Searching(G, maxvar + 1, mark, onstack, [], path, pend, done)
      ensures Idle(done) && forall v :: 0 <= v <= maxvar && mark[v] ==> v in done
    {
      TopOf(G, path, pend);
      assert mark == MarkDone(maxvar + 1, done);
      assert pend == [[]];
    }

    /** Codes the gates a literal depends on, and returns its new literal. */
    method ReencodeLit(lit: nat, ghost done: seq<nat>) returns (res: nat, ghost done': seq<nat>)
      requires Circuit() && Codes(leaves + done) && Idle(done)
      requires LitVar(lit) <= maxvar && Defined(isAnd, leaves, lit)
      modifies this`onstack, this`new_lit, code
      ensures Codes(leaves + done') && Idle(done') && done <= done'
      ensures lit < code.Length && res == code[lit] && (LitVar(lit) == 0 || LitVar(lit) in leaves + done')
      ensures OnlyReached(G, {LitVar(lit)}, done, done')
    {
      done' := done;
      LitVarIsHalf(lit);
      if lit < 2 {
        Constants(code[..], leaves + done, maxvar);
        assert code[..][lit] == lit;
        return lit, done;
      }
      res := code[lit];
      if res != 0 {
        HasCode(code[..], leaves + done, maxvar, lit);
        return;
      }
      LeafCoded(lit, done);
      done' := Below(LitVar(lit), done);
      res := code[lit];
    }

    static lemma Constants(code: seq<nat>, order: seq<nat>, maxvar: nat)
      requires CodesFor(code, order, maxvar)
      ensures forall l: nat :: l < 2 ==> l < |code| && code[l] == l
    {
    }

    /** A literal without a code belongs to a gate. */
    lemma LeafCoded(lit: nat, done: seq<nat>)
      requires Circuit() && Codes(leaves + done) && 0 < LitVar(lit) <= maxvar && Defined(isAnd, leaves, lit)
      requires lit < code.Length && code[lit] == 0
      ensures isAnd[LitVar(lit)]
    {
      if LitVar(lit) in leaves {
        var k := CodeOfLit(code[..], leaves + done, maxvar, lit);
      }
    }

    /** The loop over the explicit stack. */
    method Below(v: nat, ghost done: seq<nat>) returns (ghost done': seq<nat>)
      requires Circuit() && Codes(leaves + done) && Idle(done) && 0 < v <= maxvar && isAnd[v]
      modifies this`onstack, this`new_lit, code
      ensures Codes(leaves + done') && Idle(done') && done <= done' && v in done' && OnlyReached(G, {v}, done, done')
    {
      hide Rooted, OnlyReached, Reached, StackState, Unmarked, TypedAt, Cyclic, CodesFor;
      StartSearch(v, done);
      var stack: seq<nat> := [v];
      ghost var mark, path, pend: seq<seq<nat>> := MarkDone(maxvar + 1, done), [], [[v]];
      done' := done;
      while stack != []
        invariant Codes(leaves + done') && Searching(G, maxvar + 1, mark, onstack, stack, path, pend, done')
          && done <= done'
        invariant mark[v] || (stack != [] && stack[|stack| - 1] == v)
        invariant Rooted(v, path, pend) && OnlyReached(G, {v}, done, done')
        decreases Unmarked(mark), |stack|
      {
        ghost var before, top, done1 := mark, stack[|stack| - 1], done';
        stack, mark, path, pend, done' := Advance(stack, mark, path, pend, done');
        if mark != before {
          UnmarkedShrinks(before, top);
        }
        OnlyReachedTrans(G, {v}, {v}, {v}, done, done1, done');
      }
      EndSearch(mark, path, pend, done');
    }

    /** Roots that have been given their new literals keep them. */
    static ghost predicate RootsCoded(code: seq<nat>, order: seq<nat>, was: seq<nat>, now: seq<nat>) {
      |was| == |now| && forall i :: 0 <= i < |was| ==> RootCoded(code, order, was[i], now[i])
    }

    static ghost predicate RootCoded(code: seq<nat>, order: seq<nat>, was: nat, now: nat) {
      was < |code| && code[was] == now && (LitVar(was) == 0 || LitVar(was) in order)
    }

    static lemma RootStays(code: seq<nat>, code': seq<nat>, order: seq<nat>, order': seq<nat>, maxvar: nat, was: nat,
        now: nat)
      requires CodesFor(code, order, maxvar) && CodesFor(code', order', maxvar) && order <= order'
      requires LitVar(was) <= maxvar && RootCoded(code, order, was, now)
      ensures RootCoded(code', order', was, now)
    {
      LitVarIsHalf(was);
      if LitVar(was) == 0 {
        Constants(code, order, maxvar);
        Constants(code', order', maxvar);
      } else {
        var k := CodeOfLit(code, order, maxvar, was);
        assert CodeAt(code', order'[k], maxvar, k);
      }
    }

    static lemma RootsStay(code: seq<nat>, code': seq<nat>, order: seq<nat>, order': seq<nat>, maxvar: nat,
        was: seq<nat>, now: seq<nat>)
      requires CodesFor(code, order, maxvar) && CodesFor(code', order', maxvar) && order <= order'
      requires RootsCoded(code, order, was, now) && forall l :: l in was ==> LitVar(l) <= maxvar
      ensures RootsCoded(code', order', was, now)
    {
      forall i | 0 <= i < |was| ensures RootCoded(code', order', was[i], now[i]) {
        assert was[i] in was;
        RootStays(code, code', order, order', maxvar, was[i], now[i]);
      }
    }

    /** Gives all roots of a list their new literals. */
    method ReencodeRoots(roots: seq<nat>, ghost done: seq<nat>) returns (roots': seq<nat>, ghost done': seq<nat>)
      requires Circuit() && Codes(leaves + done) && Idle(done)
      requires forall l :: l in roots ==> LitVar(l) <= maxvar && Defined(isAnd, leaves, l)
      modifies this`onstack, this`new_lit, code
      ensures Codes(leaves + done') && Idle(done') && done <= done'
      ensures RootsCoded(code[..], leaves + done', roots, roots') && OnlyReached(G, Vars(roots), done, done')
    {
      roots', done' := [], done;
      var i := 0;
      while i < |roots|
        invariant 0 <= i <= |roots| && Codes(leaves + done') && Idle(done') && done <= done'
        invariant RootsCoded(code[..], leaves + done', roots[..i], roots') && OnlyReached(G, Vars(roots), done, done')
      {
        ghost var done1 := done';
        roots', done' := ReencodeNext(roots, i, roots', done');
        OnlyReachedTrans(G, Vars(roots), Vars(roots), Vars(roots), done, done1, done');
        i := i + 1;
      }
      assert roots[..i] == roots;
    }

    method ReencodeNext(roots: seq<nat>, i: nat, now: seq<nat>, ghost done: seq<nat>)
      returns (now': seq<nat>, ghost done': seq<nat>)
      requires Circuit() && Codes(leaves + done) && Idle(done) && i < |roots|
      requires forall l :: l in roots ==> LitVar(l) <= maxvar && Defined(isAnd, leaves, l)
      requires RootsCoded(code[..], leaves + done, roots[..i], now)
      modifies this`onstack, this`new_lit, code
      ensures Codes(leaves + done') && Idle(done') && done <= done'
      ensures RootsCoded(code[..], leaves + done', roots[..i + 1], now') && OnlyReached(G, Vars(roots), done, done')
    {
      ghost var code0 := code[..];
      assert roots[i] in roots;
      var res;
      res, done' := ReencodeLit(roots[i], done);
      OnlyReachedTrans(G, {}, {LitVar(roots[i])}, Vars(roots), done, done, done');
      now' := now + [res];
      OneMoreRoot(code0, code[..], leaves + done, leaves + done', maxvar, roots, i, now, res);
    }

    static lemma OneMoreRoot(code: seq<nat>, code': seq<nat>, order: seq<nat>, order': seq<nat>, maxvar: nat,
        roots: seq<nat>, i: nat, now: seq<nat>, res: nat)
      requires CodesFor(code, order, maxvar) && CodesFor(code', order', maxvar) && order <= order' && i < |roots|
      requires RootsCoded(code, order, roots[..i], now) && forall l :: l in roots ==> LitVar(l) <= maxvar
      requires RootCoded(code', order', roots[i], res)
      ensures RootsCoded(code', order', roots[..i + 1], now + [res])
    {
      assert forall l :: l in roots[..i] ==> l in roots;
      RootsStay(code, code', order, order', maxvar, roots[..i], now);
      assert roots[..i + 1] == roots[..i] + [roots[i]];
    }
  }

  /** The next-state and reset literals of the latches, in the order they are visited. */
  function LatchRoots(latches: seq<Latch>): seq<nat> {
    if latches == [] then []
      else LatchRoots(latches[..|latches| - 1]) + [latches[|latches| - 1].next, latches[|latches| - 1].reset]
  }

  function LatchLits(latches: seq<Latch>): (r: seq<nat>)
    ensures |r| == |latches|
  {
    seq(|latches|, i requires 0 <= i < |latches| => latches[i].lit)
  }

  /** The normal form: inputs, latches and gates have consecutive literals, operands descend. */
  predicate NormalForm(inputs: seq<nat>, latches: seq<Latch>, ands: seq<And>) {
    && Circuit.Numbered(inputs, latches)
    && Reencoded(ands, 2 * (|inputs| + |latches|))
  }

  lemma {:induction false} LatchRootsAt(latches: seq<Latch>, i: nat)
    requires i < |latches|
    ensures |LatchRoots(latches)| == 2 * |latches|
    ensures LatchRoots(latches)[2 * i] == latches[i].next && LatchRoots(latches)[2 * i + 1] == latches[i].reset
  {
    var n := |latches| - 1;
    LatchRootsLength(latches);
    LatchRootsLength(latches[..n]);
    if i < n {
      LatchRootsAt(latches[..n], i);
    }
  }

  lemma {:induction false} LatchRootsLength(latches: seq<Latch>)
    ensures |LatchRoots(latches)| == 2 * |latches|
  {
    if latches != [] {
      LatchRootsLength(latches[..|latches| - 1]);
    }
  }

  /** The latches with new literals, next states and resets. */
  function NewLatches(latches: seq<Latch>, lits: seq<nat>, roots: seq<nat>): (r: seq<Latch>)
    requires |lits| == |latches| && |roots| == 2 * |latches|
    ensures |r| == |latches|
  {
    seq(|latches|, i requires 0 <= i < |latches| => Latch(lits[i], roots[2 * i], roots[2 * i + 1]))
  }

  /** The gates that are left after re-encoding. */
  ghost function Left(gs: seq<And>, idx: seq<nat>, done: seq<nat>, code: seq<nat>): seq<And> {
    if Indexable(gs, idx, done, code) then NewGates(gs, idx, done, code) else []
  }

  /** Re-encoding preserves the function of every root: outputs, next states and resets. */
  lemma RootsKeepValues(maxvar: nat, gs: seq<And>, isAnd: seq<bool>, idx: seq<nat>, leaves: seq<nat>, done: seq<nat>,
      code: seq<nat>, was: seq<nat>, now: seq<nat>, A: set<nat>, A': set<nat>, i: nat)
    requires Table(maxvar, gs, isAnd, idx, leaves, done, code) && Encoder.RootsCoded(code, leaves + done, was, now)
      && i < |was|
    requires Models(gs, A) && Models(Left(gs, idx, done, code), A') && LeavesAgree(leaves, A, A')
    ensures LitIn(A', now[i]) == LitIn(A, was[i])
  {
    TableIndexable(maxvar, gs, isAnd, idx, leaves, done, code);
    assert Encoder.RootCoded(code, leaves + done, was[i], now[i]);
    LitVarIsHalf(was[i]);
    ReencodePreserves(maxvar, gs, isAnd, idx, leaves, done, code, A, A', was[i]);
  }

  /** Only gates that no root depends on are dropped. */
  lemma NothingReachedDropped(maxvar: nat, gs: seq<And>, isAnd: seq<bool>, idx: seq<nat>, leaves: seq<nat>,
      done: seq<nat>, code: seq<nat>, was: seq<nat>, now: seq<nat>, v: nat)
    requires Table(maxvar, gs, isAnd, idx, leaves, done, code) && Encoder.RootsCoded(code, leaves + done, was, now)
    requires Reached(GraphOf(gs, isAnd, idx), Vars(was), v)
    ensures v in done
  {
    var G, S := GraphOf(gs, isAnd, idx), set w | w in done;
    forall r | r in Vars(was) && r < |G.isAnd| && G.isAnd[r] ensures r in S {
      var l :| l in was && LitVar(l) == r;
      var i :| 0 <= i < |was| && was[i] == l;
      assert Encoder.RootCoded(code, leaves + done, was[i], now[i]);
    }
    forall a, b | a in S && G.Edge(a, b) ensures b in S {
      var k :| 0 <= k < |done| && done[k] == a;
      assert b in done[..k];
    }
    ClosedReached(G, Vars(was), S, v);
  }

  /** The variables of all roots: outputs, next states and resets. */
  function RootVars(outputs: seq<nat>, latches: seq<Latch>): set<nat> {
    Vars(outputs) + Vars(LatchRoots(latches))
  }

  /** These are all gates that some root depends on. */
  ghost predicate Exactly(G: Graph, roots: set<nat>, done: seq<nat>) {
    forall v: nat :: v in done <==> Reached(G, roots, v)
  }

  lemma ReachedExactly(maxvar: nat, gs: seq<And>, isAnd: seq<bool>, idx: seq<nat>, leaves: seq<nat>, done: seq<nat>,
      code: seq<nat>, outputs: seq<nat>, outs: seq<nat>, latches: seq<Latch>, roots: seq<nat>)
    requires Table(maxvar, gs, isAnd, idx, leaves, done, code)
    requires Encoder.RootsCoded(code, leaves + done, outputs, outs)
    requires Encoder.RootsCoded(code, leaves + done, LatchRoots(latches), roots)
    requires OnlyReached(GraphOf(gs, isAnd, idx), RootVars(outputs, latches), [], done)
    ensures Exactly(GraphOf(gs, isAnd, idx), RootVars(outputs, latches), done)
  {
    var G := GraphOf(gs, isAnd, idx);
    forall v: nat | Reached(G, RootVars(outputs, latches), v) ensures v in done {
      FromOne(G, Vars(outputs), Vars(LatchRoots(latches)), v);
      if Reached(G, Vars(outputs), v) {
        NothingReachedDropped(maxvar, gs, isAnd, idx, leaves, done, code, outputs, outs, v);
      } else {
        NothingReachedDropped(maxvar, gs, isAnd, idx, leaves, done, code, LatchRoots(latches), roots, v);
      }
    }
  }

  lemma FromOne(G: Graph, a: set<nat>, b: set<nat>, v: nat)
    requires Reached(G, a + b, v)
    ensures Reached(G, a, v) || Reached(G, b, v)
  {
  }

  class Circuit {
    var maxvar: nat
    var num_ands: nat
    const ands: array<And>
    var inputs: seq<nat>
    var latches: seq<Latch>
    var outputs: seq<nat>
    const isAnd: seq<bool>
    const isInput: seq<bool>
    const isLatch: seq<bool>
    const idx: seq<nat>

    ghost function Leaves(): seq<nat>
      reads this`inputs, this`latches
    {
      Encoder.VarsOf(inputs) + Encoder.VarsOf(LatchLits(latches))
    }

    /** A defined acyclic circuit. */
    ghost predicate Ready()
      reads this`maxvar, this`num_ands, this`inputs, this`latches, this`outputs, ands
    {
      && num_ands <= ands.Length
      && Sound(maxvar, ands[..num_ands], isAnd, isInput, isLatch, idx, Leaves())
      && Distinct(Leaves()) && LeafLits(maxvar, inputs) && LeafLits(maxvar, LatchLits(latches))
      && RootLits(maxvar, isAnd, Leaves(), outputs) && RootLits(maxvar, isAnd, Leaves(), LatchRoots(latches))
    }

    static ghost predicate Sound(maxvar: nat, gs: seq<And>, isAnd: seq<bool>, isInput: seq<bool>, isLatch: seq<bool>,
        idx: seq<nat>, leaves: seq<nat>)
    {
      && TypedAt(maxvar, gs, isAnd, idx) && !Cyclic(GraphOf(gs, isAnd, idx))
      && |isInput| == |isLatch| == maxvar + 1
      && (forall v :: 0 <= v <= maxvar ==> ((v in leaves) <==> isInput[v] || isLatch[v]) && (v in leaves ==> !isAnd[v]))
      && (forall v :: v in leaves ==> v <= maxvar)
      && (forall k :: 0 <= k < |gs| ==> Defined(isAnd, leaves, gs[k].rhs0) && Defined(isAnd, leaves, gs[k].rhs1))
    }

    static ghost predicate LeafLits(maxvar: nat, lits: seq<nat>) {
      forall l :: l in lits ==> l % 2 == 0 && 0 < LitVar(l) <= maxvar
    }

    static ghost predicate RootLits(maxvar: nat, isAnd: seq<bool>, leaves: seq<nat>, lits: seq<nat>) {
      forall l :: l in lits ==> LitVar(l) <= maxvar && Defined(isAnd, leaves, l)
    }

    /** The check for the normal form, one literal at a time. */
    method IsReencoded() returns (r: bool)
      requires num_ands <= ands.Length
      ensures r <==> NormalForm(inputs, latches, ands[..num_ands])
    {
      var max, i := 0, 0;
      while i < |inputs|
        invariant 0 <= i <= |inputs| && max == 2 * i && forall k :: 0 <= k < i ==> inputs[k] == 2 * (k + 1)
      {
        max := max + 2;
        if max != inputs[i] { return false; }
        i := i + 1;
      }
      i := 0;
      while i < |latches|
        invariant 0 <= i <= |latches| && max == 2 * (|inputs| + i)
        invariant forall k :: 0 <= k < i ==> latches[k].lit == 2 * (|inputs| + k + 1)
      {
        max := max + 2;
        if max != latches[i].lit { return false; }
        i := i + 1;
      }
      var lhs := max + 2;
      i := 0;
      while i < num_ands
        invariant 0 <= i <= num_ands && lhs == max + 2 * (i + 1)
        invariant forall k :: 0 <= k < i ==> ands[k].lhs == max + 2 * (k + 1) && Descending(ands[k])
      {
        assert ands[..num_ands][i] == ands[i];
        if ands[i].lhs <= max || ands[i].lhs != lhs || ands[i].lhs < ands[i].rhs0
          || ands[i].rhs0 < ands[i].rhs1 { return false; }
        lhs := lhs + 2;
        i := i + 1;
      }
      return true;
    }

    /** Rewrites the gates that have a code, in place, and counts them. */
    method RecodeGates(code: array<nat>) returns (j: nat)
      requires num_ands <= ands.Length && Codable(code[..], ands[..num_ands])
      modifies ands
      ensures j <= num_ands && ands[..j] == Recoded(code[..], old(ands[..num_ands]), num_ands)
    {
      ghost var gs, cs := ands[..num_ands], code[..];
      j := 0;
      var i := 0;
      while i < num_ands
        invariant 0 <= j <= i <= num_ands && ands[i..num_ands] == gs[i..] && code[..] == cs
        invariant ands[..j] == Recoded(cs, gs, i)
      {
        var g := ands[i];
        assert g == ands[i..num_ands][0] == gs[i];
        assert ands[i + 1..num_ands] == ands[i..num_ands][1..] == gs[i + 1..];
        var lhs := code[g.lhs];
        if lhs != 0 {
          var rhs0, rhs1 := code[g.rhs0], code[g.rhs1];
          if rhs0 < rhs1 {
            rhs0, rhs1 := rhs1, rhs0;
          }
          ghost var front := ands[..j];
          ands[j] := And(lhs, rhs0, rhs1);
          assert ands[..j + 1] == front + [NewGate(cs, g)];
          j := j + 1;
        }
        i := i + 1;
      }
    }

    static lemma SameLength(s: seq<And>, t: seq<And>)
      requires multiset(s) == multiset(t)
      ensures |s| == |t|
    {
      assert |multiset(s)| == |multiset(t)|;
    }

    /** Sorts the first n gates by their left-hand sides. */
    method SortFront(n: nat)
      requires n <= ands.Length
      modifies ands
      ensures ands[..n] == SortGates(old(ands[..n]))
    {
      ghost var was := ands[..n];
      var sorted := SortGates(ands[..n]);
      SameLength(sorted, was);
      var i := 0;
      while i < n
        invariant 0 <= i <= n == |sorted| && forall k :: 0 <= k < i ==> ands[k] == sorted[k]
      {
        ands[i] := sorted[i];
        i := i + 1;
      }
      assert ands[..n] == sorted;
    }

    /** New literals for all leaves. */
    method EncodeLeaves() returns (e: Encoder)
      requires Ready()
      ensures fresh(e) && fresh(e.code) && e.maxvar == maxvar && e.leaves == Leaves() && e.gates == ands[..num_ands]
      ensures e.Circuit() && e.Codes(Leaves() + []) && e.Idle([]) && e.isAnd == isAnd && e.idx == idx
    {
      e := new Encoder(maxvar, ands[..num_ands], isAnd, isInput, isLatch, idx, Leaves());
      CodeAllLeaves(e, inputs, LatchLits(latches));
      GraphWellTyped(maxvar, ands[..num_ands], isAnd, idx);
      e.IdleAtFirst();
    }

    static method CodeAllLeaves(e: Encoder, inputs: seq<nat>, latchLits: seq<nat>)
      requires e.Codes([]) && Distinct(Encoder.VarsOf(inputs) + Encoder.VarsOf(latchLits))
      requires LeafLits(e.maxvar, inputs) && LeafLits(e.maxvar, latchLits)
      modifies e`new_lit, e.code
      ensures e.Codes(Encoder.VarsOf(inputs) + Encoder.VarsOf(latchLits) + [])
    {
      ghost var a, c := Encoder.VarsOf(inputs), Encoder.VarsOf(latchLits);
      DistinctPrefix(a, c);
      e.CodeLeaves(inputs, []);
      e.CodeLeaves(latchLits, [] + a);
      AppendNothing(a, c);
    }

    static lemma AppendNothing(a: seq<nat>, b: seq<nat>)
      ensures [] + a + b == a + b + []
    {
    }

    static lemma DistinctPrefix(a: seq<nat>, b: seq<nat>)
      requires Distinct(a + b)
      ensures Distinct([] + a) && Distinct([] + a + b)
    {
      assert [] + a == a;
      forall i, j | 0 <= i < j < |a| ensures a[i] != a[j] {
        assert (a + b)[i] != (a + b)[j];
      }
    }

    /** New literals for all leaves and roots. */
    method Encode() returns (e: Encoder, latchRoots: seq<nat>, outs: seq<nat>, ghost done: seq<nat>)
      requires Ready()
      ensures fresh(e) && fresh(e.code) && e.maxvar == maxvar && e.leaves == Leaves() && e.gates == ands[..num_ands]
      ensures e.Circuit() && e.Codes(Leaves() + done) && e.Idle(done) && e.isAnd == isAnd && e.idx == idx
      ensures Encoder.RootsCoded(e.code[..], Leaves() + done, LatchRoots(latches), latchRoots)
      ensures Encoder.RootsCoded(e.code[..], Leaves() + done, outputs, outs)
      ensures OnlyReached(GraphOf(ands[..num_ands], isAnd, idx), RootVars(outputs, latches), [], done)
    {
      e := EncodeLeaves();
      latchRoots, outs, done := EncodeRoots(e);
    }

    method EncodeRoots(e: Encoder) returns (latchRoots: seq<nat>, outs: seq<nat>, ghost done: seq<nat>)
      requires e.maxvar == maxvar && e.Circuit() && e.Codes(e.leaves + []) && e.Idle([])
      requires RootLits(maxvar, e.isAnd, e.leaves, outputs) && RootLits(maxvar, e.isAnd, e.leaves, LatchRoots(latches))
      modifies e`onstack, e`new_lit, e.code
      ensures e.Codes(e.leaves + done) && e.Idle(done)
      ensures Encoder.RootsCoded(e.code[..], e.leaves + done, LatchRoots(latches), latchRoots)
      ensures Encoder.RootsCoded(e.code[..], e.leaves + done, outputs, outs)
      ensures OnlyReached(e.G, RootVars(outputs, latches), [], done)
    {
      latchRoots, done := e.ReencodeRoots(LatchRoots(latches), []);
      ghost var code0, done0 := e.code[..], done;
      outs, done := e.ReencodeRoots(outputs, done0);
      Encoder.RootsStay(code0, e.code[..], e.leaves + done0, e.leaves + done, maxvar, LatchRoots(latches), latchRoots);
      OnlyReachedTrans(e.G, Vars(LatchRoots(latches)), Vars(outputs), RootVars(outputs, latches), [], done0, done);
    }

    /** After the last root everything coded makes up a table. */
    static lemma EncoderTable(e: Encoder, done: seq<nat>)
      requires e.Circuit() && e.Codes(e.leaves + done) && e.Idle(done)
      ensures Table(e.maxvar, e.gates, e.isAnd, e.idx, e.leaves, done, e.code[..])
    {
    }

    static lemma LeafCodes(code: seq<nat>, maxvar: nat, inputs: seq<nat>, latchLits: seq<nat>, done: seq<nat>)
      requires CodesFor(code, Encoder.VarsOf(inputs) + Encoder.VarsOf(latchLits) + done, maxvar)
      requires LeafLits(maxvar, inputs) && LeafLits(maxvar, latchLits)
      ensures LeavesCoded(code, inputs, latchLits)
    {
      var order := Encoder.VarsOf(inputs) + Encoder.VarsOf(latchLits) + done;
      forall i | 0 <= i < |inputs| ensures inputs[i] < |code| && code[inputs[i]] == 2 * (i + 1) {
        assert inputs[i] in inputs;
        LitVarIsHalf(inputs[i]);
        assert CodeAt(code, order[i], maxvar, i);
      }
      forall i | 0 <= i < |latchLits| ensures latchLits[i] < |code| && code[latchLits[i]] == 2 * (|inputs| + i + 1) {
        assert latchLits[i] in latchLits;
        LitVarIsHalf(latchLits[i]);
        assert CodeAt(code, order[|inputs| + i], maxvar, |inputs| + i);
      }
    }

    /** The new literals of the leaves. */
    static method CodesOf(code: array<nat>, lits: seq<nat>) returns (r: seq<nat>)
      requires forall i :: 0 <= i < |lits| ==> lits[i] < code.Length
      ensures |r| == |lits| && forall i :: 0 <= i < |lits| ==> r[i] == code[lits[i]]
    {
      r := [];
      var i := 0;
      while i < |lits|
        invariant 0 <= i <= |lits| && |r| == i && forall k :: 0 <= k < i ==> r[k] == code[lits[k]]
      {
        r := r + [code[lits[i]]];
        i := i + 1;
      }
    }

    /** What the finished table gives: the gates that will be left, and the codes of the leaves. */
    static lemma TableResult(maxvar: nat, gs: seq<And>, isAnd: seq<bool>, idx: seq<nat>, inputs: seq<nat>,
        latchLits: seq<nat>, done: seq<nat>, code: seq<nat>, news: seq<And>)
      requires Table(maxvar, gs, isAnd, idx, Encoder.VarsOf(inputs) + Encoder.VarsOf(latchLits), done, code)
      requires LeafLits(maxvar, inputs) && LeafLits(maxvar, latchLits)
      requires Indexable(gs, idx, done, code) ==> news == NewGates(gs, idx, done, code)
      ensures Indexable(gs, idx, done, code) && SortGates(Recoded(code, gs, |gs|)) == news
        && Reencoded(news, 2 * (|inputs| + |latchLits|))
      ensures LeavesCoded(code, inputs, latchLits)
    {
      var leaves := Encoder.VarsOf(inputs) + Encoder.VarsOf(latchLits);
      TableIndexable(maxvar, gs, isAnd, idx, leaves, done, code);
      SortedRecodedIsNew(maxvar, gs, isAnd, idx, leaves, done, code);
      NewGatesNormal(maxvar, gs, isAnd, idx, leaves, done, code);
      LeafCodes(code, maxvar, inputs, latchLits, done);
    }

    static ghost predicate LeavesCoded(code: seq<nat>, inputs: seq<nat>, latchLits: seq<nat>) {
      && (forall i :: 0 <= i < |inputs| ==> inputs[i] < |code| && code[inputs[i]] == 2 * (i + 1))
      && (forall i :: 0 <= i < |latchLits| ==> latchLits[i] < |code| && code[latchLits[i]] == 2 * (|inputs| + i + 1))
    }

    /** The table of codes, the gates and the largest variable that re-encoding ends with: the gates are
        exactly those that some root depends on. */
    static ghost predicate Became(maxvar: nat, gs: seq<And>, isAnd: seq<bool>, idx: seq<nat>, leaves: seq<nat>,
        roots: set<nat>, done: seq<nat>, code: seq<nat>, maxvar': nat, gs': seq<And>)
    {
      && Table(maxvar, gs, isAnd, idx, leaves, done, code) && Exactly(GraphOf(gs, isAnd, idx), roots, done)
      && gs' == Left(gs, idx, done, code) && maxvar' == |leaves| + |done|
    }

    /** Puts the circuit into normal form, unless it is. The gates are the coded ones, exactly those that
        some root depends on, and every root has the code of its old literal. */
    method Reencode() returns (changed: bool, ghost done: seq<nat>, ghost code: seq<nat>)
      requires Ready()
      modifies this, ands
      ensures num_ands <= ands.Length && NormalForm(inputs, latches, ands[..num_ands])
      ensures !changed ==> inputs == old(inputs) && latches == old(latches) && outputs == old(outputs)
      ensures !changed ==> num_ands == old(num_ands) && maxvar == old(maxvar) && ands[..] == old(ands[..])
      ensures changed ==> Became(old(maxvar), old(ands[..num_ands]), isAnd, idx, old(Leaves()),
        old(RootVars(outputs, latches)), done, code, maxvar, ands[..num_ands])
      ensures changed ==> Encoder.RootsCoded(code, old(Leaves()) + done, old(outputs), outputs)
      ensures changed ==> Encoder.RootsCoded(code, old(Leaves()) + done, LatchRoots(old(latches)), LatchRoots(latches))
      ensures changed <==> !old(NormalForm(inputs, latches, ands[..num_ands]))
    {
      var normal := IsReencoded();
      changed := !normal;
      done, code := [], [];
      if changed {
        done, code := ReencodeNow();
      }
    }

    method ReencodeNow() returns (ghost done: seq<nat>, ghost code: seq<nat>)
      requires Ready()
      modifies this, ands
      ensures num_ands <= ands.Length && NormalForm(inputs, latches, ands[..num_ands])
      ensures Became(old(maxvar), old(ands[..num_ands]), isAnd, idx, old(Leaves()), old(RootVars(outputs, latches)),
        done, code, maxvar, ands[..num_ands])
      ensures Encoder.RootsCoded(code, old(Leaves()) + done, old(outputs), outputs)
      ensures Encoder.RootsCoded(code, old(Leaves()) + done, LatchRoots(old(latches)), LatchRoots(latches))
    {
      ghost var gs, leaves, mv := ands[..num_ands], Leaves(), maxvar;
      var e, latchRoots, outs;
      e, latchRoots, outs, done := Encode();
      code := e.code[..];
      EncoderTable(e, done);
      ghost var news := Left(gs, idx, done, code);
      TableResult(mv, gs, isAnd, idx, inputs, LatchLits(latches), done, code, news);
      ReachedExactly(mv, gs, isAnd, idx, leaves, done, code, outputs, outs, latches, latchRoots);
      LatchRootsLength(latches);
      Rewrite(e, gs, news, |done|, latchRoots, outs);
    }

    /** Everything that is done with the finished table of codes. */
    method Rewrite(e: Encoder, ghost gs: seq<And>, ghost news: seq<And>, ghost n: nat, latchRoots: seq<nat>,
        outs: seq<nat>)
      requires num_ands <= ands.Length && gs == ands[..num_ands]
      requires Codable(e.code[..], gs) && SortGates(Recoded(e.code[..], gs, |gs|)) == news
      requires Reencoded(news, 2 * (|inputs| + |latches|)) && LeavesCoded(e.code[..], inputs, LatchLits(latches))
      requires e.new_lit == 2 * (|inputs| + |latches| + n) + 2
      requires |latchRoots| == 2 * |latches| && |outs| == |outputs|
      modifies this, ands
      ensures num_ands <= ands.Length && NormalForm(inputs, latches, ands[..num_ands]) && ands[..num_ands] == news
      ensures outputs == outs && LatchRoots(latches) == latchRoots && maxvar == |old(inputs)| + |old(latches)| + n
    {
      ghost var k := |inputs| + |latches|;
      RewriteGates(e, gs, k + n, latchRoots, outs);
      MakesNormal(inputs, latches, ands[..num_ands], k);
    }

    static lemma MakesNormal(inputs: seq<nat>, latches: seq<Latch>, gs: seq<And>, k: nat)
      requires Numbered(inputs, latches) && k == |inputs| + |latches| && Reencoded(gs, 2 * k)
      ensures NormalForm(inputs, latches, gs)
    {
    }

    static predicate Numbered(inputs: seq<nat>, latches: seq<Latch>) {
      && (forall i :: 0 <= i < |inputs| ==> inputs[i] == 2 * (i + 1))
      && (forall i :: 0 <= i < |latches| ==> latches[i].lit == 2 * (|inputs| + i + 1))
    }

    static lemma LastVar(n: nat)
      ensures LitVar(2 * n + 2 - 1) == n
    {
      LitVarIsHalf(2 * n + 1);
    }

    method RewriteGates(e: Encoder, ghost gs: seq<And>, ghost n: nat, latchRoots: seq<nat>, outs: seq<nat>)
      requires num_ands <= ands.Length && gs == ands[..num_ands] && Codable(e.code[..], gs) && e.new_lit == 2 * n + 2
      requires |latchRoots| == 2 * |latches| && |outs| == |outputs|
      requires LeavesCoded(e.code[..], inputs, LatchLits(latches))
      modifies this, ands
      ensures num_ands <= ands.Length && ands[..num_ands] == SortGates(Recoded(e.code[..], gs, |gs|))
      ensures |inputs| == |old(inputs)| && |latches| == |old(latches)|
      ensures Numbered(inputs, latches)
      ensures outputs == outs && LatchRoots(latches) == latchRoots && maxvar == n
    {
      var j := RecodeGates(e.code);
      SortFront(j);
      Renumber(e, j, n, latchRoots, outs);
    }

    /** The new literals of inputs, latches and outputs. */
    method Renumber(e: Encoder, j: nat, ghost n: nat, latchRoots: seq<nat>, outs: seq<nat>)
      requires |latchRoots| == 2 * |latches| && |outs| == |outputs| && e.new_lit == 2 * n + 2
      requires LeavesCoded(e.code[..], inputs, LatchLits(latches))
      modifies this`num_ands, this`maxvar, this`inputs, this`latches, this`outputs
      ensures num_ands == j && maxvar == n && outputs == outs
      ensures |inputs| == |old(inputs)| && |latches| == |old(latches)|
      ensures Numbered(inputs, latches)
      ensures LatchRoots(latches) == latchRoots
    {
      LastVar(n);
      num_ands, maxvar, outputs := j, LitVar(e.new_lit - 1), outs;
      inputs := CodesOf(e.code, inputs);
      var lits := CodesOf(e.code, LatchLits(latches));
      latches := NewLatches(latches, lits, latchRoots);
      RootsOfNew(latches, latchRoots);
    }

    static lemma RootsOfNew(latches: seq<Latch>, roots: seq<nat>)
      requires |roots| == 2 * |latches|
      requires forall i :: 0 <= i < |latches| ==>
        latches[i].next == roots[2 * i] && latches[i].reset == roots[2 * i + 1]
      ensures LatchRoots(latches) == roots
    {
      LatchRootsLength(latches);
      forall k | 0 <= k < |roots| ensures LatchRoots(latches)[k] == roots[k] {
        LatchRootsAt(latches, k / 2);
        assert k == 2 * (k / 2) || k == 2 * (k / 2) + 1;
      }
    }
  }
}
