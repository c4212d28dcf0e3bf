/** An AIGER circuit with its per-variable bookkeeping, and the operations that walk over it. */
module AigerCircuits {
  import opened Aigs
  import opened AigerCycles
  import opened AigerPruning

  class Aiger {
    var maxvar: nat
    const ands: array<And>
    var num_ands: nat
    var outputs: seq<nat>
    var isAnd: seq<bool>
    var mark: seq<bool>
    var onstack: seq<bool>
    var idx: seq<nat>
    var error: bool

    /** Every AND variable knows the slot of its gate, and every slot its variable. */
    ghost predicate Typed()
      reads this`maxvar, this`num_ands, this`isAnd, this`idx, ands
    {
      num_ands <= ands.Length && TypedAt(maxvar, ands[..num_ands], isAnd, idx)
    }

    /** The gates as a graph. */
    ghost function Gates(): Graph
      reads this`num_ands, this`isAnd, this`idx, ands
    {
      if num_ands <= ands.Length then GraphOf(ands[..num_ands], isAnd, idx) else Graph([], [])
    }

    // ----- cycles -----

    /** One root: a depth-first search through its gates. */
    method DepthFirst(ghost G: Graph, i: nat, ghost done: seq<nat>) returns (ghost done': seq<nat>)
      requires Typed() && G == Gates() && !error && Search(G, mark, onstack, [], [[]], done)
      requires 0 < i <= maxvar && isAnd[i] && !mark[i]
      modifies this`mark, this`onstack, this`error
      ensures error ==> Cyclic(G)
      ensures !error ==> Search(G, mark, onstack, [], [[]], done')
      ensures !error ==> |mark| == |old(mark)| && mark[i] && forall v :: 0 <= v < |mark| && old(mark)[v] ==> mark[v]
    {
      var stack: seq<nat> := [i];
      ghost var path: seq<nat>, pend: seq<seq<nat>> := [], [[i]];
      done' := done;
      while stack != []
        invariant !error && StackState(G, mark, onstack, stack, path, pend, done')
        invariant |mark| == |old(mark)| && forall v :: 0 <= v < |mark| && old(mark)[v] ==> mark[v]
        invariant mark[i] || stack == [i]
        decreases Unmarked(mark), |stack|
      {
        ghost var before, top := mark, stack[|stack| - 1];
        ghost var entered;
        stack, path, pend, done', entered := Advance(G, stack, path, pend, done');
        if error { return; }
        if entered {
          UnmarkedShrinks(before, top);
        }
      }
      TopOf(G, path, pend);
    }

    static ghost function Unmarked(mark: seq<bool>): set<nat> {
      set v | 0 <= v < |mark| && !mark[v]
    }

    static lemma UnmarkedShrinks(mark: seq<bool>, j: nat)
      requires j < |mark| && !mark[j]
      ensures Unmarked(mark[j := true]) < Unmarked(mark)
    {
      assert j in Unmarked(mark) && j !in Unmarked(mark[j := true]);
    }

    /** The entry is a gate not met before. */
    static predicate Fresh(isAnd: seq<bool>, mark: seq<bool>, j: nat) {
      0 < j < |mark| && j < |isAnd| && isAnd[j] && !mark[j]
    }

    /** One turn of the loop: an entry is dropped, a gate is entered, or a gate is left. */
    method Advance(ghost G: Graph, stack: seq<nat>, ghost path: seq<nat>, ghost pend: seq<seq<nat>>,
        ghost done: seq<nat>)
      returns (stack': seq<nat>, ghost path': seq<nat>, ghost pend': seq<seq<nat>>, ghost done': seq<nat>,
        ghost entered: bool)
      requires Typed() && G == Gates() && !error && stack != [] && StackState(G, mark, onstack, stack, path, pend, done)
      modifies this`mark, this`onstack, this`error
      ensures error ==> Cyclic(G)
      ensures !error ==> StackState(G, mark, onstack, stack', path', pend', done')
      ensures !error && !entered ==> mark == old(mark) && |stack'| < |stack|
      ensures error ==> mark == old(mark)
      ensures !error && entered ==>
        var j := stack[|stack| - 1]; j < |old(mark)| && !old(mark)[j] && mark == old(mark)[j := true]
      ensures !error ==> (entered <==> Fresh(isAnd, old(mark), stack[|stack| - 1]))
    {
      stack', path', pend', done', entered := stack, path, pend, done, false;
      var j := stack[|stack| - 1];
      if j == 0 {
        stack', path', pend', done' := Leave(G, stack, path, pend, done);
        return;
      }
      ghost var rest := TopEntry(G, mark, onstack, stack, path, pend, done);
      if mark[j] && onstack[j] {
        CycleState(G, mark, onstack, stack, path, pend, done);
        error := true;
        return;
      }
      if !isAnd[j] || mark[j] {
        pend' := DropState(G, mark, onstack, stack, path, pend, done);
        stack' := stack[..|stack| - 1];
        return;
      }
      stack', path', pend' := Enter(G, stack, path, pend, done, j);
      entered := true;
    }

    /** The prefix code: the gate joins the path, and its operands go on top of a zero. */
    method Enter(ghost G: Graph, stack: seq<nat>, ghost path: seq<nat>, ghost pend: seq<seq<nat>>, ghost done: seq<nat>,
        j: nat)
      returns (stack': seq<nat>, ghost path': seq<nat>, ghost pend': seq<seq<nat>>)
      requires Typed() && G == Gates() && StackState(G, mark, onstack, stack, path, pend, done)
      requires stack != [] && stack[|stack| - 1] == j && Fresh(isAnd, mark, j)
      modifies this`mark, this`onstack
      ensures StackState(G, mark, onstack, stack', path', pend', done) && mark == old(mark)[j := true]
    {
      var kids := Operands(j);
      path', pend' := EnterState(G, mark, onstack, stack, path, pend, done, j, kids);
      mark, onstack := mark[j := true], onstack[j := true];
      stack' := stack + [0] + kids;
    }

    /** The postfix code: all operands were visited, the gate leaves the path. */
    method Leave(ghost G: Graph, stack: seq<nat>, ghost path: seq<nat>, ghost pend: seq<seq<nat>>, ghost done: seq<nat>)
      returns (stack': seq<nat>, ghost path': seq<nat>, ghost pend': seq<seq<nat>>, ghost done': seq<nat>)
      requires StackState(G, mark, onstack, stack, path, pend, done) && stack != [] && stack[|stack| - 1] == 0
      modifies this`onstack
      ensures StackState(G, mark, onstack, stack', path', pend', done') && |stack'| < |stack|
    {
      path', pend', done' := LeaveState(G, mark, onstack, stack, path, pend, done);
      var j := stack[|stack| - 2];
      assert mark[j] && onstack[j];
      stack' := stack[..|stack| - 2];
      onstack := onstack[j := false];
    }

    /** The operand variables of a gate that are not the constant. */
    method Operands(j: nat) returns (kids: seq<nat>)
      requires Typed() && j <= maxvar && isAnd[j]
      ensures KidsOf(Gates(), j, kids)
    {
      var g := ands[idx[j]];
      kids := [];
      var tmp := LitVar(g.rhs0);
      if tmp != 0 { kids := kids + [tmp]; }
      tmp := LitVar(g.rhs1);
      if tmp != 0 { kids := kids + [tmp]; }
      assert Gates().kids[j] == (LitVar(g.rhs0), LitVar(g.rhs1));
    }

    /** Reports an error exactly when some gate depends on itself; otherwise the order in which the
        gates were finished is a topological one. */
    method CheckForCycles() returns (ghost done: seq<nat>)
      requires Typed() && !error && |mark| == |onstack| == maxvar + 1
      requires forall v :: 0 <= v <= maxvar ==> !mark[v] && !onstack[v]
      modifies this`mark, this`onstack, this`error
      ensures error <==> Cyclic(Gates())
      ensures !error ==> Topological(Gates(), done)
    {
      ghost var G := Gates();
      done := [];
      GraphWellTyped(maxvar, ands[..num_ands], isAnd, idx);
      assert Search(G, mark, onstack, [], [[]], done);
      var i := 1;
      while !error && i <= maxvar
        invariant 1 <= i <= maxvar + 1 && Gates() == G
        invariant error ==> Cyclic(G)
        invariant !error ==> Search(G, mark, onstack, [], [[]], done)
        invariant !error ==> forall v :: 1 <= v < i && isAnd[v] ==> mark[v]
        decreases maxvar + 1 - i, !error
      {
        if isAnd[i] && !mark[i] {
          done := DepthFirst(G, i, done);
        }
        i := i + 1;
      }
      if !error {
        SearchDone(G, mark, onstack, done);
      }
    }

    // ----- pruning -----

    method ClearMarks()
      requires |mark| == maxvar + 1
      modifies this`mark
      ensures |mark| == maxvar + 1 && mark[0] == old(mark)[0] && forall v :: 1 <= v <= maxvar ==> !mark[v]
    {
      var v := 1;
      while v <= maxvar
        invariant 1 <= v <= maxvar + 1 && |mark| == maxvar + 1 && mark[0] == old(mark)[0]
          && forall x :: 1 <= x < v ==> !mark[x]
      {
        mark := mark[v := false];
        v := v + 1;
      }
    }

    /** Marks the gates that drive outputs. */
    method MarkOutputs(ghost E: iset<(nat, nat)>, ghost R: iset<nat>) returns (stack: seq<nat>)
      requires |mark| == |isAnd| == maxvar + 1 && !isAnd[0] && !mark[0] && forall v :: 1 <= v <= maxvar ==> !mark[v]
      requires forall o :: o in outputs ==> LitVar(o) <= maxvar && (isAnd[LitVar(o)] ==> LitVar(o) in R)
      modifies this`mark
      ensures |mark| == maxvar + 1 && !mark[0] && Marking(E, R, mark, stack)
      ensures forall o :: o in outputs && isAnd[LitVar(o)] ==> mark[LitVar(o)]
    {
      stack := [];
      var i := 0;
      while i < |outputs|
        invariant 0 <= i <= |outputs| && |mark| == maxvar + 1 && !mark[0] && Marking(E, R, mark, stack)
        invariant forall v :: 0 < v <= maxvar && mark[v] ==> v in stack
        invariant forall k :: 0 <= k < i && isAnd[LitVar(outputs[k])] ==> mark[LitVar(outputs[k])]
      {
        var v := LitVar(outputs[i]);
        assert outputs[i] in outputs;
        if isAnd[v] {
          mark, stack := mark[v := true], stack + [v];
        }
        i := i + 1;
      }
    }

    /** Marks everything the marked gates use. */
    method MarkReached(ghost G: Graph, ghost roots: set<nat>, ghost E: iset<(nat, nat)>, ghost R: iset<nat>,
        stack0: seq<nat>)
      requires Typed() && G == Gates() && |mark| == maxvar + 1 && Sets(G, roots, E, R) && Marking(E, R, mark, stack0)
      modifies this`mark
      ensures |mark| == maxvar + 1 && Marking(E, R, mark, []) && mark[0] == old(mark)[0]
      ensures forall v :: 0 <= v <= maxvar && old(mark)[v] ==> mark[v]
    {
      var stack := stack0;
      while stack != []
        invariant |mark| == maxvar + 1 && Marking(E, R, mark, stack) && mark[0] == old(mark)[0]
        invariant forall v :: 0 <= v <= maxvar && old(mark)[v] ==> mark[v]
        decreases Unmarked(mark), |stack|
      {
        ghost var before := mark;
        var pushed := MarkOperands(G, roots, E, R, stack);
        FewerUnmarked(before, mark, pushed);
        stack := stack[..|stack| - 1] + pushed;
      }
    }

    static lemma FewerUnmarked(before: seq<bool>, after: seq<bool>, pushed: seq<nat>)
      requires |after| == |before| && forall x :: 0 <= x < |before| ==> (after[x] <==> before[x] || x in pushed)
      requires forall x :: x in pushed ==> 0 < x < |before| && !before[x]
      ensures pushed != [] ==> Unmarked(after) < Unmarked(before)
      ensures pushed == [] ==> after == before
    {
      if pushed != [] {
        assert pushed[0] in Unmarked(before) && pushed[0] !in Unmarked(after);
      }
    }

    method MarkOperands(ghost G: Graph, ghost roots: set<nat>, ghost E: iset<(nat, nat)>, ghost R: iset<nat>,
        stack: seq<nat>) returns (pushed: seq<nat>)
      requires Typed() && G == Gates() && |mark| == maxvar + 1 && stack != [] && Sets(G, roots, E, R)
        && Marking(E, R, mark, stack)
      modifies this`mark
      ensures |mark| == maxvar + 1 && Marking(E, R, mark, stack[..|stack| - 1] + pushed)
      ensures forall x :: 0 <= x <= maxvar ==> (mark[x] <==> old(mark)[x] || x in pushed)
      ensures forall x :: x in pushed ==> 0 < x <= maxvar && !old(mark)[x]
    {
      ghost var before := mark;
      var v := stack[|stack| - 1];
      assert v in stack && v in R;
      ReachedClosed(G, roots, E, R);
      var a, c := OperandVars(v);
      var first := MarkOne(a, []);
      ghost var between := mark;
      pushed := MarkOne(c, first);
      OperandsPop(G, roots, E, R, stack, v, a, c, before, between, mark, first, pushed);
    }

    method OperandVars(v: nat) returns (a: nat, c: nat)
      requires Typed() && v <= maxvar && isAnd[v]
      ensures Gates().kids[v] == (a, c) && a <= maxvar && c <= maxvar
    {
      var g := ands[idx[v]];
      assert GateTyped(maxvar, ands[..num_ands][idx[v]], isAnd, idx, idx[v]);
      a, c := LitVar(g.rhs0), LitVar(g.rhs1);
    }

    method MarkOne(w: nat, pushed: seq<nat>) returns (pushed': seq<nat>)
      requires |mark| == |isAnd| == maxvar + 1 && w <= maxvar
      modifies this`mark
      ensures OneMarked(isAnd, w, old(mark), mark, pushed, pushed')
    {
      pushed' := pushed;
      if w != 0 && isAnd[w] && !mark[w] {
        mark, pushed' := mark[w := true], pushed + [w];
      }
    }

    /** Moves the kept gates to the front, in their order. */
    method Compact()
      requires Typed() && |mark| == maxvar + 1
      modifies this`num_ands, this`isAnd, this`idx, ands
      ensures Typed()
      ensures forall k :: 0 <= k < |old(ands[..num_ands])| ==> LitVar(old(ands[..num_ands])[k].lhs) < |mark|
      ensures ands[..num_ands] == Kept(old(ands[..num_ands]), mark, |old(ands[..num_ands])|)
      ensures forall v :: 0 <= v <= maxvar ==> isAnd[v] == (old(isAnd)[v] && mark[v])
    {
      ghost var gs, isAnd0, idx0 := ands[..num_ands], isAnd, idx;
      TypedVars(maxvar, gs, isAnd0, idx0);
      var cursor, i := 0, 0;
      while i < num_ands
        invariant 0 <= cursor <= i <= num_ands == |gs| <= ands.Length
        invariant Compacting(maxvar, gs, isAnd0, idx0, mark, i, isAnd, idx)
        invariant ands[..cursor] == Kept(gs, mark, i) && ands[i..num_ands] == gs[i..]
      {
        cursor := CompactOne(gs, isAnd0, idx0, cursor, i);
        i := i + 1;
      }
      CompactedTyped(maxvar, gs, isAnd0, idx0, mark, isAnd, idx, ands[..cursor]);
      num_ands := cursor;
    }

    method CompactOne(ghost gs: seq<And>, ghost isAnd0: seq<bool>, ghost idx0: seq<nat>, cursor: nat, i: nat)
      returns (cursor': nat)
      requires cursor <= i < num_ands == |gs| <= ands.Length && |mark| == maxvar + 1
      requires Compacting(maxvar, gs, isAnd0, idx0, mark, i, isAnd, idx)
      requires forall k :: 0 <= k < |gs| ==> LitVar(gs[k].lhs) <= maxvar
      requires ands[..cursor] == Kept(gs, mark, i) && ands[i..num_ands] == gs[i..]
      modifies this`isAnd, this`idx, ands
      ensures cursor <= cursor' <= i + 1
      ensures Compacting(maxvar, gs, isAnd0, idx0, mark, i + 1, isAnd, idx)
      ensures ands[..cursor'] == Kept(gs, mark, i + 1) && ands[i + 1..num_ands] == gs[i + 1..]
    {
      var g := ands[i];
      assert g == ands[i..num_ands][0] == gs[i];
      var v := LitVar(g.lhs);
      CompactingStep(maxvar, gs, isAnd0, idx0, mark, i, isAnd, idx, v);
      assert ands[i + 1..num_ands] == ands[i..num_ands][1..] == gs[i + 1..];
      cursor' := cursor;
      if mark[v] {
        ghost var front := ands[..cursor];
        ands[cursor] := g;
        assert ands[..cursor + 1] == front + [g];
        idx := idx[v := cursor];
        cursor' := cursor + 1;
      } else {
        isAnd, idx := isAnd[v := false], idx[v := 0];
      }
    }

    /** Keeps exactly the gates reachable from the outputs, in their order and in consecutive slots. */
    method Prune(ghost G: Graph) returns (ghost keep: seq<bool>)
      requires Typed() && G == Gates() && !error && |mark| == maxvar + 1 && !mark[0]
        && forall o :: o in outputs ==> LitVar(o) <= maxvar
      modifies this`mark, this`num_ands, this`isAnd, this`idx, ands
      ensures Typed() && KeepsReached(G, Vars(outputs), keep)
      ensures forall k :: 0 <= k < |old(ands[..num_ands])| ==> LitVar(old(ands[..num_ands])[k].lhs) < |keep|
      ensures ands[..num_ands] == Kept(old(ands[..num_ands]), keep, |old(ands[..num_ands])|)
      ensures forall v :: 0 <= v <= maxvar ==> (isAnd[v] <==> keep[v])
      ensures |mark| == maxvar + 1 && forall v :: 1 <= v <= maxvar ==> !mark[v]
    {
      MarkKept(G);
      keep := mark;
      Compact();
      ClearMarks();
    }

    static lemma SetsOf(G: Graph, roots: set<nat>) returns (E: iset<(nat, nat)>, R: iset<nat>)
      ensures Sets(G, roots, E, R)
    {
      E := iset v: nat, w: nat | G.Edge(v, w) :: (v, w);
      R := iset v: nat | Reached(G, roots, v);
    }

    /** Marks exactly the gates reachable from the outputs. */
    method MarkKept(ghost G: Graph)
      requires Typed() && G == Gates() && |mark| == maxvar + 1 && !mark[0]
        && forall o :: o in outputs ==> LitVar(o) <= maxvar
      modifies this`mark
      ensures |mark| == maxvar + 1 && KeepsReached(G, Vars(outputs), mark)
    {
      ghost var E, R := SetsOf(G, Vars(outputs));
      GraphWellTyped(maxvar, ands[..num_ands], isAnd, idx);
      RootsIn(G, outputs, E, R);
      ClearMarks();
      var stack := MarkOutputs(E, R);
      MarkReached(G, Vars(outputs), E, R, stack);
      OutputsMarked(G, outputs, E, R, mark);
    }

    static lemma OutputsMarked(G: Graph, outputs: seq<nat>, E: iset<(nat, nat)>, R: iset<nat>, mark: seq<bool>)
      requires G.WellTyped() && Sets(G, Vars(outputs), E, R) && |mark| == |G.isAnd| && !mark[0]
        && Marking(E, R, mark, [])
      requires forall o :: o in outputs && LitVar(o) < |mark| && G.isAnd[LitVar(o)] ==> mark[LitVar(o)]
      ensures KeepsReached(G, Vars(outputs), mark)
    {
      MarkingDone(G, Vars(outputs), E, R, mark);
    }
  }
}
