/** The solver's kernel: two-watched-literal propagation over the trail. */
module Solvers {
  import opened SolverTypes
  import opened SolverStates
  import opened SolverNogoods
  import opened SolverPropagation
  import opened SolverAnalysis
  import opened SolverLearning
  import opened SolverRedundancy
  import opened SolverImplications

  class Solver {
    var ca: seq<Clause>
    var watches: Lists
    var watchesBin: Lists
    var trail: seq<Lit>
    var trail_lim: seq<nat>
    var qhead: nat
    var assigns: seq<LBool>
    var level: seq<nat>
    var reason: seq<int>

    /** Marks of conflict analysis, all clear between two conflicts. */
    var seen: seq<bool>

    /** Marks that need not be cleared: a variable is marked if it has the current flag. */
    var permDiff: seq<nat>
    var MYFLAG: nat

    /** How learnt clauses are minimised: 2 deeply, 1 by one step, 0 not at all. */
    const ccmin_mode: nat

    /** The place of each assigned variable on the trail. */
    ghost var pos: seq<nat>

    /** The unit clauses. */
    ghost var facts: set<Lit>

    ghost function T(): (t: Trail)
      reads this`trail, this`trail_lim, this`assigns, this`level, this`reason, this`pos
    {
      Trail(trail, trail_lim, assigns, level, reason, pos)
    }

    ghost predicate Fits()
      reads this
    {
      Base(T(), ca, watches, watchesBin, facts)
    }

    /** The state in which clauses may be added, decisions made and propagation started. */
    ghost predicate Valid()
      reads this
    {
      Fits() && Upto(T(), qhead, watches, watchesBin, |trail_lim| + 1, {})
    }

    function Value(l: Lit): LBool
      reads this`assigns
    {
      Assigned(assigns, l)
    }

    function DecisionLevel(): nat
      reads this`trail_lim
    {
      |trail_lim|
    }

    method UncheckedEnqueue(p: Lit, from: int)
      requires TrailOk(T()) && p.v < |assigns| && Value(p) == Undef
      modifies this`trail, this`assigns, this`level, this`reason, this`pos
      ensures T() == Push(old(T()), p, from)
    {
      pos := pos[p.v := |trail|];
      assigns := assigns[p.v := if p.neg then False else True];
      level, reason := level[p.v := DecisionLevel()], reason[p.v := from];
      trail := trail + [p];
    }

    /** The binary clauses of a literal taken from the queue. */
    method PropagateBinary(p: Lit) returns (confl: int)
      requires Fits() && Upto(T(), qhead, watches, watchesBin, |trail_lim| + 1, {p})
      requires Value(p) == True && level[p.v] == |trail_lim|
      modifies this`trail, this`assigns, this`level, this`reason, this`pos
      ensures Fits() && Upto(T(), qhead, watches, watchesBin, |trail_lim| + 1, {p}) && Grows(old(T()), T())
      ensures confl == CREF_UNDEF ==> Quiet(T(), p, At(watchesBin, p))
      ensures confl != CREF_UNDEF ==> Conflict(T(), ca, confl) && |ca[confl]| == 2 && Neg(p) in ca[confl]
    {
      var wbin, k := At(watchesBin, p), 0;
      while k < |wbin|
        invariant 0 <= k <= |wbin| && Fits() && Upto(T(), qhead, watches, watchesBin, |trail_lim| + 1, {p})
        invariant Grows(old(T()), T()) && Quiet(T(), p, wbin[..k]) && Value(p) == True && level[p.v] == |trail_lim|
      {
        confl := Imply(p, wbin, k, old(T()));
        if confl != CREF_UNDEF { return; }
        k := k + 1;
      }
      assert wbin[..k] == wbin;
      confl := CREF_UNDEF;
    }

    method Imply(p: Lit, wbin: seq<Watcher>, k: nat, ghost T0: Trail) returns (confl: int)
      requires Fits() && Upto(T(), qhead, watches, watchesBin, |trail_lim| + 1, {p}) && wbin == At(watchesBin, p)
        && k < |wbin|
      requires Value(p) == True && level[p.v] == |trail_lim| && Quiet(T(), p, wbin[..k]) && Grows(T0, T())
      modifies this`trail, this`assigns, this`level, this`reason, this`pos
      ensures Fits() && Upto(T(), qhead, watches, watchesBin, |trail_lim| + 1, {p}) && Grows(T0, T())
      ensures Value(p) == True && level[p.v] == |trail_lim|
      ensures confl == CREF_UNDEF ==> Quiet(T(), p, wbin[..k + 1])
      ensures confl != CREF_UNDEF ==> Conflict(T(), ca, confl) && |ca[confl]| == 2 && Neg(p) in ca[confl]
    {
      var imp := wbin[k].blocker;
      ghost var cr := wbin[k].cref;
      assert BinWatcher(ca, p, At(watchesBin, p)[k]);
      BinLits(T(), ca, p, wbin[k]);
      if Value(imp) == False { return wbin[k].cref; }
      if Value(imp) == Undef {
        assert Neg(p) in ca[cr] && Neg(p) != imp;
        PushUnit(T(), qhead, ca, watches, watchesBin, facts, |trail_lim| + 1, {p}, imp, cr);
        UncheckedEnqueue(imp, wbin[k].cref);
        GrowsTrans(T0, old(T()), T());
        GrowsQuiet(old(T()), T(), p, wbin[..k]);
      }
      OneMoreQuiet(T(), p, wbin, k);
      confl := CREF_UNDEF;
    }

    // ----- clauses of three and more literals -----

    /** Everything but the list that is being rewritten, which is given as a value. */
    ghost predicate Working(p: Lit, ws: seq<Watcher>)
      reads this
    {
      && Base(T(), ca, watches[p := ws], watchesBin, facts)
      && Upto(T(), qhead, watches[p := ws], watchesBin, |trail_lim| + 1, {p})
      && p.v < |assigns| && Value(p) == True && level[p.v] == |trail_lim|
    }

    /** Brings the false literal to the second place. */
    method FalseToSecond(p: Lit, cr: nat, ghost ws: seq<Watcher>)
      requires Working(p, ws) && cr < |ca| && |ca[cr]| > 2 && (ca[cr][0] == Neg(p) || ca[cr][1] == Neg(p))
      modifies this`ca
      ensures Working(p, ws) && |ca| == |old(ca)| && |ca[cr]| > 2 && ca[cr][1] == Neg(p) && SameClauses(old(ca), ca)
      ensures SameLits(old(ca)[cr], ca[cr])
    {
      if ca[cr][0] == Neg(p) {
        SwapClause(T(), ca, watches[p := ws], watchesBin, facts, cr);
        ca := ca[cr := Exchange(ca[cr], 0, 1)];
      } else {
        SameSelf(ca);
      }
    }

    /** Looks for a literal behind the first two that is not false. */
    method FindWatch(cr: nat) returns (k: nat)
      requires cr < |ca| && |ca[cr]| > 2
      ensures 2 <= k <= |ca[cr]| && forall i :: 2 <= i < k ==> Value(ca[cr][i]) == False
      ensures k < |ca[cr]| ==> Value(ca[cr][k]) != False
    {
      k := 2;
      while k < |ca[cr]| && Value(ca[cr][k]) == False
        invariant 2 <= k <= |ca[cr]| && forall i :: 2 <= i < k ==> Value(ca[cr][i]) == False
      {
        k := k + 1;
      }
    }

    /** Lets another literal watch the clause. */
    method MoveWatch(p: Lit, w: Watcher, k: nat, ghost d: seq<Watcher>, ghost x: Watcher, ghost r: seq<Watcher>)
      requires Working(p, d + [x] + r) && w.cref == x.cref < |ca| && 2 <= k < |ca[w.cref]|
      requires ca[w.cref][1] == Neg(p) && w.blocker in ca[w.cref] && Value(ca[w.cref][k]) != False
      modifies this`ca, this`watches
      ensures Working(p, d + r) && SameClauses(old(ca), ca)
    {
      hide RootsOk, LongOk, BinOk, Settled, QueueCurrent;
      var q := Neg(ca[w.cref][k]);
      var ca', watches' := ca[w.cref := Exchange(ca[w.cref], 1, k)], watches[q := At(watches, q) + [w]];
      MoveResult(T(), qhead, ca, watches, watchesBin, facts, p, d, x, w, r, k, ca', watches');
      ca, watches := ca', watches';
    }

    /** A watcher that stays, with the blocker it has from now on. */
    lemma Keep(p: Lit, d: seq<Watcher>, x: Watcher, w: Watcher, r: seq<Watcher>)
      requires Working(p, d + [x] + r) && w.cref == x.cref < |ca| && w.blocker in ca[w.cref]
      ensures Working(p, d + [w] + r)
    {
      KeepBase(T(), qhead, ca, watches, watchesBin, facts, p, d, x, w, r, d + [w] + r);
    }

    /** What one watcher of the list comes to: it is gone, it stays, or its clause is false. */
    method Inspect(p: Lit, x: Watcher, ghost d: seq<Watcher>, ghost r: seq<Watcher>)
      returns (keep: bool, w: Watcher, confl: int)
      requires Working(p, d + [x] + r) && Quiet(T(), p, d)
      modifies this`ca, this`watches, this`trail, this`assigns, this`level, this`reason, this`pos
      ensures Working(p, (if keep then d + [w] else d) + r) && SameClauses(old(ca), ca) && Grows(old(T()), T())
      ensures confl == CREF_UNDEF ==> Quiet(T(), p, if keep then d + [w] else d)
      ensures confl != CREF_UNDEF ==> keep && Conflict(T(), ca, confl) && |ca[confl]| > 2 && Neg(p) in ca[confl]
    {
      SameSelf(ca);
      FirstWatcher(ca, watches[p := d + [x] + r], p, d, x, r);
      if Value(x.blocker) == True {
        QuietMore(T(), p, d, x);
        return true, x, CREF_UNDEF;
      }
      var cr := x.cref;
      FalseToSecond(p, cr, d + [x] + r);
      var first := ca[cr][0];
      w := Watcher(cr, first);
      if Value(first) == True {
        Keep(p, d, x, w, r);
        QuietMore(T(), p, d, w);
        return true, w, CREF_UNDEF;
      }
      ghost var between := ca;
      keep, confl := Rewatch(p, w, d, x, r);
      SameTrans(old(ca), between, ca);
    }

    /** The first literal is not true: another watch is found, or the clause is unit or false. */
    method Rewatch(p: Lit, w: Watcher, ghost d: seq<Watcher>, ghost x: Watcher, ghost r: seq<Watcher>)
      returns (keep: bool, confl: int)
      requires Working(p, d + [x] + r) && Quiet(T(), p, d) && w.cref == x.cref < |ca| && |ca[w.cref]| > 2
      requires ca[w.cref][1] == Neg(p) && w.blocker == ca[w.cref][0] && Value(w.blocker) != True
      modifies this`ca, this`watches, this`trail, this`assigns, this`level, this`reason, this`pos
      ensures Working(p, (if keep then d + [w] else d) + r) && SameClauses(old(ca), ca) && Grows(old(T()), T())
      ensures confl == CREF_UNDEF ==> Quiet(T(), p, if keep then d + [w] else d)
      ensures confl != CREF_UNDEF ==> keep && Conflict(T(), ca, confl) && |ca[confl]| > 2 && Neg(p) in ca[confl]
    {
      hide RootsOk, LongOk, BinOk, Settled, QueueCurrent;
      var k := FindWatch(w.cref);
      if k < |ca[w.cref]| {
        MoveWatch(p, w, k, d, x, r);
        return false, CREF_UNDEF;
      }
      SameSelf(ca);
      Keep(p, d, x, w, r);
      UnitOrFalse(T(), ca, w.cref, p);
      keep := true;
      confl := UnitClause(p, w, d, r);
    }

    /** All literals but the first are false. */
    method UnitClause(p: Lit, w: Watcher, ghost d: seq<Watcher>, ghost r: seq<Watcher>) returns (confl: int)
      requires Working(p, d + [w] + r) && Quiet(T(), p, d) && w.cref < |ca| && |ca[w.cref]| > 2
        && w.blocker == ca[w.cref][0]
      requires w.blocker in ca[w.cref] && Neg(p) in ca[w.cref] && w.blocker.v < |assigns| && Value(w.blocker) != True
      requires forall l :: l in ca[w.cref] && l != w.blocker ==> Val(T(), l) == False
      requires Val(T(), w.blocker) == False ==> Conflict(T(), ca, w.cref)
      modifies this`trail, this`assigns, this`level, this`reason, this`pos
      ensures Working(p, d + [w] + r) && Grows(old(T()), T())
      ensures confl == CREF_UNDEF ==> Quiet(T(), p, d + [w])
      ensures confl != CREF_UNDEF ==> confl == w.cref && Conflict(T(), ca, confl)
    {
      hide RootsOk, LongOk, BinOk, Settled, QueueCurrent;
      if Value(w.blocker) == False {
        return w.cref;
      }
      assert Neg(p) != w.blocker;
      PushUnit(T(), qhead, ca, watches[p := d + [w] + r], watchesBin, facts, |trail_lim| + 1, {p}, w.blocker, w.cref);
      UncheckedEnqueue(w.blocker, w.cref);
      GrowsQuiet(old(T()), T(), p, d);
      QuietMore(T(), p, d, w);
      return CREF_UNDEF;
    }

    /** The clauses of three and more literals: the list is rewritten in place, watchers that stay
        moving up to j. */
    method PropagateLong(p: Lit) returns (confl: int)
      requires Fits() && Upto(T(), qhead, watches, watchesBin, |trail_lim| + 1, {p})
      requires p.v < |assigns| && Value(p) == True && level[p.v] == |trail_lim|
      modifies this`ca, this`watches, this`trail, this`assigns, this`level, this`reason, this`pos, this`qhead
      ensures Fits() && SameClauses(old(ca), ca) && Grows(old(T()), T()) && QueueCurrent(T(), qhead)
      ensures confl == CREF_UNDEF ==>
        qhead == old(qhead) && Upto(T(), qhead, watches, watchesBin, |trail_lim| + 1, {p})
        && Quiet(T(), p, At(watches, p))
      ensures confl != CREF_UNDEF ==> Conflict(T(), ca, confl) && |ca[confl]| > 2 && Neg(p) in ca[confl]
      ensures confl != CREF_UNDEF ==> qhead == |trail| && Upto(T(), qhead, watches, watchesBin, |trail_lim|, {})
    {
      hide RootsOk, LongOk, BinOk, Settled, QueueCurrent;
      var ws := At(watches, p);
      var end := |ws|;
      var i, j := 0, 0;
      confl := CREF_UNDEF;
      AllToDo(p, ws);
      while i != end
        invariant 0 <= j <= i <= end == |ws| && SameClauses(old(ca), ca) && Grows(old(T()), T())
        invariant confl == CREF_UNDEF ==> qhead == old(qhead) && Working(p, ws[..j] + ws[i..]) && Quiet(T(), p, ws[..j])
        invariant confl != CREF_UNDEF ==> i == end && qhead == |trail| && Stopped(p, ws[..j], confl)
        decreases end - i
      {
        ws, i, j, confl := NextWatcher(p, ws, i, j);
      }
      assert ws[..j] + ws[i..] == ws[..j];
      watches := watches[p := ws[..j]];
    }

    /** The state after a conflict, with the rewritten list given as a value. */
    ghost predicate Stopped(p: Lit, ws: seq<Watcher>, confl: int)
      reads this
    {
      && Base(T(), ca, watches[p := ws], watchesBin, facts)
         && Upto(T(), qhead, watches[p := ws], watchesBin, |trail_lim|, {})
      && Conflict(T(), ca, confl) && |ca[confl]| > 2 && Neg(p) in ca[confl]
    }

    lemma AllToDo(p: Lit, ws: seq<Watcher>)
      requires Fits() && Upto(T(), qhead, watches, watchesBin, |trail_lim| + 1, {p}) && ws == At(watches, p)
      requires p.v < |assigns| && Value(p) == True && level[p.v] == |trail_lim|
      ensures Working(p, ws[..0] + ws[0..]) && Quiet(T(), p, ws[..0]) && SameClauses(ca, ca)
    {
      assert ws[..0] + ws[0..] == ws;
      SameSelf(ca);
      SameLists(T(), qhead, ca, watches, watchesBin, facts, p, ws);
    }

    /** One turn of the loop. A conflict ends it: the remaining watchers are kept. */
    method NextWatcher(p: Lit, ws: seq<Watcher>, i: nat, j: nat)
      returns (ws': seq<Watcher>, i': nat, j': nat, confl: int)
      requires j <= i < |ws| && Working(p, ws[..j] + ws[i..]) && Quiet(T(), p, ws[..j])
      modifies this`ca, this`watches, this`trail, this`assigns, this`level, this`reason, this`pos, this`qhead
      ensures j' <= i' <= |ws'| == |ws| && i < i' && SameClauses(old(ca), ca) && Grows(old(T()), T())
      ensures confl == CREF_UNDEF ==>
        qhead == old(qhead) && Working(p, ws'[..j'] + ws'[i'..]) && Quiet(T(), p, ws'[..j'])
      ensures confl != CREF_UNDEF ==> i' == |ws'| && qhead == |trail| && Stopped(p, ws'[..j'], confl)
    {
      hide RootsOk, ReasonsOk, LongOk, BinOk, Settled, QueueCurrent, Quiet, Conflict;
      ghost var d, x, r := ws[..j], ws[i], ws[i + 1..];
      SplitList(ws, j, i);
      var keep, w;
      keep, w, confl := Inspect(p, ws[i], d, r);
      i' := i + 1;
      ws', j' := if keep then ws[j := w] else ws, if keep then j + 1 else j;
      AfterOne(ws, j, i, keep, w, ws', j');
      if confl != CREF_UNDEF {
        ws', i', j' := Stop(p, ws', i', j', confl);
      }
    }

    /** A conflict empties the queue and leaves the rest of the list as it is. */
    method Stop(p: Lit, ws: seq<Watcher>, i: nat, j: nat, confl: nat) returns (ws': seq<Watcher>, i': nat, j': nat)
      requires j <= i <= |ws| && Working(p, ws[..j] + ws[i..])
      requires Conflict(T(), ca, confl) && |ca[confl]| > 2 && Neg(p) in ca[confl]
      modifies this`qhead
      ensures j' <= i' == |ws'| == |ws| && qhead == |trail| && Stopped(p, ws'[..j'], confl)
    {
      BelowSettled(T(), qhead, |trail|, watches[p := ws[..j] + ws[i..]], p, |trail_lim| + 1);
      BelowSettled(T(), qhead, |trail|, watchesBin, p, |trail_lim| + 1);
      qhead := |trail|;
      ws', i', j' := CopyRest(ws, i, j);
    }

    /** Copies the watchers from i on down to j. */
    static method CopyRest(ws: seq<Watcher>, i: nat, j: nat) returns (ws': seq<Watcher>, i': nat, j': nat)
      requires j <= i <= |ws|
      ensures |ws'| == |ws| == i' && j' <= i' && ws'[..j'] == ws[..j] + ws[i..]
    {
      ws', i', j' := ws, i, j;
      while i' < |ws'|
        invariant j' <= i' <= |ws'| == |ws| && ws'[i'..] == ws[i'..] && i <= i' && ws'[..j'] == ws[..j] + ws[i..i']
      {
        ghost var front := ws'[..j'];
        assert ws[i..i' + 1] == ws[i..i'] + [ws[i']] && ws'[i'] == ws'[i'..][0] == ws[i'];
        ws' := ws'[j' := ws'[i']];
        assert ws'[..j' + 1] == front + [ws[i']];
        assert ws'[i' + 1..] == ws[i'..][1..];
        i', j' := i' + 1, j' + 1;
      }
    }

    /** The next literal of the queue. */
    method PropagateNext() returns (confl: int)
      requires Valid() && qhead < |trail|
      modifies this`ca, this`watches, this`trail, this`assigns, this`level, this`reason, this`pos, this`qhead
      ensures Fits() && SameClauses(old(ca), ca) && Grows(old(T()), T())
      ensures confl == CREF_UNDEF ==> qhead == old(qhead) + 1 && Valid()
      ensures confl != CREF_UNDEF ==> Conflict(T(), ca, confl) && Upto(T(), qhead, watches, watchesBin, |trail_lim|, {})
      ensures confl != CREF_UNDEF ==> qhead == if |ca[confl]| > 2 then |trail| else old(qhead) + 1
      ensures confl != CREF_UNDEF ==> (qhead == |trail| <==> |ca[confl]| > 2)
    {
      hide RootsOk, LongOk, BinOk;
      var p := trail[qhead];
      assert OnTrail(T(), qhead);
      TakeSettled(T(), qhead, watches, |trail_lim| + 1);
      TakeSettled(T(), qhead, watchesBin, |trail_lim| + 1);
      qhead := qhead + 1;
      SameSelf(ca);
      confl := PropagateBinary(p);
      ghost var between := T();
      if confl != CREF_UNDEF {
        BinaryQueued(T(), qhead, ca, watchesBin, p, confl);
        BelowSettled(T(), qhead, qhead, watches, p, |trail_lim| + 1);
        BelowSettled(T(), qhead, qhead, watchesBin, p, |trail_lim| + 1);
        return;
      }
      confl := PropagateLong(p);
      GrowsTrans(old(T()), between, T());
      if confl == CREF_UNDEF {
        NowQuiet(T(), qhead, watches, |trail_lim| + 1, p);
        GrowsQuiet(between, T(), p, At(watchesBin, p));
        NowQuiet(T(), qhead, watchesBin, |trail_lim| + 1, p);
      }
    }

    /** Propagates all enqueued literals. Without a conflict the queue is empty and no clause is
        false or has just one unassigned and no true literal. With one, the returned clause is
        false, the levels below the current one are as complete as before, and the queue is empty
        exactly if the clause is a long one. Without binary clauses it is therefore always empty. */
    method Propagate() returns (confl: int)
      requires Valid()
      modifies this`ca, this`watches, this`trail, this`assigns, this`level, this`reason, this`pos, this`qhead
      ensures Fits() && SameClauses(old(ca), ca) && Grows(old(T()), T())
      ensures confl == CREF_UNDEF ==> Valid() && qhead == |trail| && forall cr :: 0 <= cr < |ca| ==> NoWork(T(), ca[cr])
      ensures confl != CREF_UNDEF ==> Conflict(T(), ca, confl) && Upto(T(), qhead, watches, watchesBin, |trail_lim|, {})
      ensures confl != CREF_UNDEF ==> (qhead == |trail| <==> |ca[confl]| > 2)
      ensures (forall cr :: 0 <= cr < |old(ca)| ==> |old(ca)[cr]| != 2) ==> qhead == |trail|
    {
      confl := CREF_UNDEF;
      SameSelf(ca);
      while confl == CREF_UNDEF && qhead < |trail|
        invariant Fits() && SameClauses(old(ca), ca) && Grows(old(T()), T())
        invariant confl == CREF_UNDEF ==> Upto(T(), qhead, watches, watchesBin, |trail_lim| + 1, {})
        invariant confl != CREF_UNDEF ==>
          Conflict(T(), ca, confl) && Upto(T(), qhead, watches, watchesBin, |trail_lim|, {})
        invariant confl != CREF_UNDEF ==> (qhead == |trail| <==> |ca[confl]| > 2)
        decreases confl == CREF_UNDEF, |assigns| - qhead
      {
        ghost var ca', t' := ca, T();
        confl := PropagateNext();
        SameTrans(old(ca), ca', ca);
        GrowsTrans(old(T()), t', T());
        TrailBound(T());
      }
      if confl == CREF_UNDEF {
        forall cr | 0 <= cr < |ca| ensures NoWork(T(), ca[cr]) {
          Complete(T(), ca, watches, watchesBin, cr);
        }
      } else {
        assert ClauseOk(ca[confl], |assigns|) && SameLits(old(ca)[confl], ca[confl]);
      }
    }

    // ----- conflict analysis -----

    ghost predicate Unseen()
      reads this`seen, this`assigns
    {
      |seen| == |assigns| && SeenSet(seen) == {}
    }

    /** Puts the true literal of a reason in front, where only that of a binary one may not be. */
    method Orient(cr: nat, ghost p: Lit)
      requires Fits() && Value(p) == True && reason[p.v] == cr
      modifies this`ca
      ensures Fits() && SameClauses(old(ca), ca) && cr < |ca| && |ca[cr]| >= 2 && ca[cr][0] == p && DistinctLits(ca[cr])
    {
      FrontOfReason(T(), ca, p);
      SameSelf(ca);
      if |ca[cr]| == 2 && Value(ca[cr][0]) == False {
        SwapClause(T(), ca, watches, watchesBin, facts, cr);
        ca := ca[cr := Exchange(ca[cr], 0, 1)];
        assert ClauseOk(ca[cr], |assigns|);
      }
    }

    /** Marks the variables of a false clause, or of the rest of a reason. */
    method AddLits(c: Clause, from: nat, out0: seq<Lit>, pathC0: nat, index: nat, ghost open0: set<nat>)
      returns (out: seq<Lit>, pathC: nat, ghost open: set<nat>)
      requires TrailOk(T()) && Exploring(T(), seen, out0, open0, index) && pathC0 == |open0| && from <= |c|
      requires forall l :: l in c[from..] ==> FalseBefore(T(), l, index)
      modifies this`seen
      ensures Exploring(T(), seen, out, open, index) && pathC == |open| && Added(T(), old(seen), c[from..], seen)
        && open0 <= open
    {
      out, pathC, open := out0, pathC0, open0;
      ghost var front: Clause := [];
      var j := from;
      while j < |c|
        invariant from <= j <= |c| && Exploring(T(), seen, out, open, index) && pathC == |open| && open0 <= open
        invariant front == c[from..j] && Added(T(), old(seen), front, seen)
      {
        assert c[from..][j - from] == c[j];
        out, pathC, open := AddLit(c[j], out, pathC, index, open, old(seen), front);
        front, j := front + [c[j]], j + 1;
      }
      assert front == c[from..];
    }

    method AddLit(q: Lit, out0: seq<Lit>, pathC0: nat, index: nat, ghost open0: set<nat>, ghost seen0: seq<bool>,
        ghost c: Clause)
      returns (out: seq<Lit>, pathC: nat, ghost open: set<nat>)
      requires TrailOk(T()) && Exploring(T(), seen, out0, open0, index) && pathC0 == |open0|
        && FalseBefore(T(), q, index)
      requires Added(T(), seen0, c, seen)
      modifies this`seen
      ensures Exploring(T(), seen, out, open, index) && pathC == |open| && open0 <= open
        && Added(T(), seen0, c + [q], seen)
    {
      assert OnTrail(T(), pos[q.v]);
      if !seen[q.v] && level[q.v] > 0 {
        AddedNew(T(), seen0, c, seen, q);
        out, pathC, open := SeeNew(q, out0, pathC0, index, open0);
      } else {
        AddedOld(T(), seen0, c, seen, q);
        out, pathC, open := out0, pathC0, open0;
      }
    }

    /** A literal above level 0 that was not met before. */
    method SeeNew(q: Lit, out0: seq<Lit>, pathC0: nat, index: nat, ghost open0: set<nat>)
      returns (out: seq<Lit>, pathC: nat, ghost open: set<nat>)
      requires TrailOk(T()) && Exploring(T(), seen, out0, open0, index) && pathC0 == |open0|
        && FalseBefore(T(), q, index)
      requires q.v < |seen| && q.v < |level| && !seen[q.v] && 0 < level[q.v] <= |trail_lim|
      modifies this`seen
      ensures Exploring(T(), seen, out, open, index) && pathC == |open| && open0 <= open
        && seen == old(seen)[q.v := true]
    {
      out, pathC, open := out0, pathC0, open0;
      if level[q.v] >= DecisionLevel() {
        SeeOpen(T(), seen, out, open, index, q);
        pathC, open := pathC + 1, open + {q.v};
      } else {
        SeeLower(T(), seen, out, open, index, q);
        out := out + [q];
      }
      seen := seen[q.v := true];
    }

    /** Goes back on the trail to the next open literal, and takes its mark away. */
    method TakeNext(out: seq<Lit>, index0: nat, ghost open: set<nat>) returns (p: Lit, index: nat)
      requires TrailOk(T()) && Exploring(T(), seen, out, open, index0) && open != {}
      modifies this`seen
      ensures Latest(T(), open, p) && index == pos[p.v] < index0 && Exploring(T(), seen, out, open - {p.v}, index)
      ensures SeenSet(old(seen)) == SeenSet(seen) + {p.v}
    {
      index := index0;
      LastOpen(T(), seen, out, open, index);
      while !seen[trail[index - 1].v]
        invariant 0 < index <= index0 && seen == old(seen) && trail[index - 1].v < |seen|
        invariant forall v :: v in open ==> v < |pos| && pos[v] <= index - 1
        decreases index
      {
        StepBack(T(), seen, out, open, index0, index);
        index := index - 1;
      }
      p := trail[index - 1];
      SeenIsOpen(T(), seen, out, open, index0, index - 1);
      TakeLatest(T(), seen, out, open, index0, p);
      assert OnTrail(T(), index - 1);
      seen := seen[p.v := false];
      index := index - 1;
    }

    /** Resolves back from the conflict to the first literal through which all of it is implied. */
    method FirstUIP(confl0: nat) returns (out_learnt: seq<Lit>)
      requires Fits() && |trail_lim| > 0 && Conflict(T(), ca, confl0) && Unseen()
      modifies this`ca, this`seen
      ensures Fits() && SameClauses(old(ca), ca) && Learnt(T(), ca, facts, out_learnt)
      ensures |seen| == |assigns| && SeenSet(seen) == VarsOf(out_learnt[1..])
      ensures FirstPoint(T(), old(ca), confl0, out_learnt[0].v)
    {
      hide Explored, Approached, FirstPoint, Nogood, Forced, RootsOk, LongOk, BinOk;
      ghost var t, ca0 := T(), ca;
      ghost var open;
      var out, pathC, index, p;
      out, pathC, index, p, open := StartFrom(confl0);
      SameSelf(ca);
      out, index, p := ResolveAll(out, pathC, index, p, open, ca0, confl0);
      LastIsFirst(t, ca0, confl0, p.v, index);
      UipLearnt(t, ca, facts, seen, out, p, index);
      out_learnt := [Neg(p)] + out;
      assert out_learnt[1..] == out;
    }

    /** Resolves until one literal of the current level is left. */
    method ResolveAll(out0: seq<Lit>, pathC0: nat, index0: nat, p0: Lit, ghost open0: set<nat>, ghost ca0: seq<Clause>,
        ghost confl0: nat)
      returns (out: seq<Lit>, index: nat, p: Lit)
      requires Fits() && SameClauses(ca0, ca) && Value(p0) == True && level[p0.v] == |trail_lim| && |trail_lim| > 0
        && index0 == pos[p0.v]
      requires Exploring(T(), seen, out0, open0, index0) && pathC0 == |open0|
        && Nogood(T(), ca, facts, SeenSet(seen) + {p0.v})
      requires ReasonsOk(T(), ca0) && confl0 < |ca0| && Approached(T(), ca0, confl0, open0, p0.v, index0)
      modifies this`ca, this`seen
      ensures Fits() && SameClauses(ca0, ca) && Value(p) == True && level[p.v] == |trail_lim| && index == pos[p.v]
      ensures Exploring(T(), seen, out, {}, index) && Nogood(T(), ca, facts, SeenSet(seen) + {p.v})
      ensures Approached(T(), ca0, confl0, {}, p.v, index)
    {
      hide Explored, Approached, Nogood, Forced, RootsOk, LongOk, BinOk, SameClauses;
      ghost var open := open0;
      var pathC := pathC0;
      out, index, p := out0, index0, p0;
      while pathC > 0
        invariant Fits() && SameClauses(ca0, ca) && Value(p) == True && level[p.v] == |trail_lim| && index == pos[p.v]
        invariant Exploring(T(), seen, out, open, index) && pathC == |open|
          && Nogood(T(), ca, facts, SeenSet(seen) + {p.v})
        invariant Approached(T(), ca0, confl0, open, p.v, index)
        decreases index
      {
        out, pathC, index, p, open := ResolveOn(out, pathC, index, p, open, ca0, confl0);
      }
      assert open == {};
    }

    /** The literals of the conflict, and the choice of the first literal. */
    method StartFrom(confl: nat) returns (out: seq<Lit>, pathC: nat, index: nat, p: Lit, ghost open: set<nat>)
      requires Fits() && |trail_lim| > 0 && Conflict(T(), ca, confl) && Unseen()
      modifies this`seen
      ensures Value(p) == True && level[p.v] == |trail_lim| && index == pos[p.v]
      ensures Exploring(T(), seen, out, open, index) && pathC == |open| && Nogood(T(), ca, facts, SeenSet(seen) + {p.v})
      ensures Approached(T(), ca, confl, open, p.v, index)
    {
      hide RootsOk, LongOk, BinOk, Settled, QueueCurrent;
      FalseOnTrail(T(), ca, confl);
      assert ca[confl][0..] == ca[confl];
      NothingSeen(T(), seen);
      out, pathC, open := AddLits(ca[confl], 0, [], 0, |trail|, {});
      AfterConflict(T(), ca, facts, old(seen), confl, seen);
      OpenAtFirst(T(), ca, confl, old(seen), seen, out, open, |trail|);
      ConflictExplored(T(), ca, confl, old(seen), seen, out, open);
      pathC, index, p, open := TakeOpen(out, pathC, |trail|, open, ca, confl);
    }

    /** The next literal to resolve upon. */
    method TakeOpen(out: seq<Lit>, pathC0: nat, index0: nat, ghost open0: set<nat>, ghost ca0: seq<Clause>,
        ghost confl0: nat)
      returns (pathC: nat, index: nat, p: Lit, ghost open: set<nat>)
      requires Fits() && Exploring(T(), seen, out, open0, index0) && pathC0 == |open0| && open0 != {}
      requires Nogood(T(), ca, facts, SeenSet(seen)) && confl0 < |ca0| && Explored(T(), ca0, confl0, open0, index0)
      modifies this`seen
      ensures Value(p) == True && level[p.v] == |trail_lim| && index == pos[p.v] < index0
      ensures Exploring(T(), seen, out, open, index) && pathC == |open| && Nogood(T(), ca, facts, SeenSet(seen) + {p.v})
      ensures Approached(T(), ca0, confl0, open, p.v, index)
    {
      hide Explored, Approached, Nogood, Forced, RootsOk, LongOk, BinOk;
      p, index := TakeNext(out, index0, open0);
      TakenExplored(T(), ca0, confl0, open0, index0, p, index);
      assert OpenVar(T(), p.v, index0);
      pathC, open := pathC0 - 1, open0 - {p.v};
    }

    /** One resolution, and the choice of the next literal. */
    method ResolveOn(out0: seq<Lit>, pathC0: nat, index0: nat, p0: Lit, ghost open0: set<nat>, ghost ca0: seq<Clause>,
        ghost confl0: nat)
      returns (out: seq<Lit>, pathC: nat, index: nat, p: Lit, ghost open: set<nat>)
      requires Fits() && SameClauses(ca0, ca) && Value(p0) == True && level[p0.v] == |trail_lim| && |trail_lim| > 0
        && index0 == pos[p0.v]
      requires Exploring(T(), seen, out0, open0, index0) && pathC0 == |open0| > 0
        && Nogood(T(), ca, facts, SeenSet(seen) + {p0.v})
      requires ReasonsOk(T(), ca0) && confl0 < |ca0| && Approached(T(), ca0, confl0, open0, p0.v, index0)
      modifies this`ca, this`seen
      ensures Fits() && SameClauses(ca0, ca) && Value(p) == True && level[p.v] == |trail_lim|
        && index == pos[p.v] < index0
      ensures Exploring(T(), seen, out, open, index) && pathC == |open| && Nogood(T(), ca, facts, SeenSet(seen) + {p.v})
      ensures Approached(T(), ca0, confl0, open, p.v, index)
    {
      hide Explored, Approached, Nogood, Forced, RootsOk, LongOk, BinOk;
      ghost var t := T();
      AnOpenOne(t, facts, ca, seen, out0, open0, p0);
      var confl: nat := reason[p0.v];
      ghost var between := ca;
      Orient(confl, p0);
      SameTrans(ca0, between, ca);
      SameNogood(T(), between, ca, facts, SeenSet(seen) + {p0.v});
      RestOfReason(T(), ca, p0);
      out, pathC, open := AddLits(ca[confl], 1, out0, pathC0, index0, open0);
      AfterReason(T(), ca, facts, p0, old(seen), ca[confl][1..], seen);
      assert T() == t;
      ReasonExplored(t, ca0, ca, confl0, p0, old(seen), out0, open0, index0, seen, out, open);
      pathC, index, p, open := TakeOpen(out, pathC, index0, open, ca0, confl0);
    }

    // ----- minimisation -----

    method Unsee(lits: seq<Lit>)
      modifies this`seen
      ensures |seen| == |old(seen)| && forall v: nat :: v < |seen| ==> (seen[v] <==> old(seen)[v] && v !in VarsOf(lits))
    {
      var j := 0;
      assert lits[..0] == [];
      while j < |lits|
        invariant 0 <= j <= |lits| && |seen| == |old(seen)|
        invariant forall v: nat :: v < |seen| ==> (seen[v] <==> old(seen)[v] && v !in VarsOf(lits[..j]))
      {
        assert lits[..j + 1] == lits[..j] + [lits[j]];
        VarsOfAppend(lits[..j], lits[j]);
        if lits[j].v < |seen| {
          seen := seen[lits[j].v := false];
        }
        j := j + 1;
      }
      assert lits[..j] == lits;
    }

    /** Whether the literals behind the first of a clause are seen or can be followed further. */
    method LookThrough(c: Clause, levels: nat -> bool) returns (ok: bool, more: seq<Lit>)
      requires TrailOk(T()) && |seen| == |assigns| && c != [] && forall l :: l in c[1..] ==> Value(l) == False
      requires ReasonsOk(T(), ca)
      modifies this`seen
      ensures Marked(old(seen), more, seen) && Stacked(T(), ca, more) && AllPassed(T(), levels, c, more)
      ensures !ok ==> exists l :: l in c[1..] && Blocking(T(), seen, levels, l)
      ensures ok ==> SeenAbove(T(), seen, c[1..])
    {
      more := [];
      var i := 1;
      while i < |c|
        invariant 1 <= i <= |c| && Marked(old(seen), more, seen) && Stacked(T(), ca, more)
          && AllPassed(T(), levels, c, more)
        invariant SeenAbove(T(), seen, c[1..i])
      {
        assert c[1..][i - 1] == c[i] && c[i] in c[1..] && c[1..i + 1] == c[1..i] + [c[i]];
        ok, more := LookAtLit(c[i], c, c[1..i], levels, more, old(seen));
        if !ok { return; }
        i := i + 1;
      }
      ok := true;
    }

    method LookAtLit(p: Lit, ghost c: Clause, ghost front: Clause, levels: nat -> bool, more0: seq<Lit>,
        ghost seen0: seq<bool>)
      returns (ok: bool, more: seq<Lit>)
      requires TrailOk(T()) && ReasonsOk(T(), ca) && |seen| == |assigns| && Value(p) == False && c != [] && p in c[1..]
      requires Marked(seen0, more0, seen) && Stacked(T(), ca, more0) && AllPassed(T(), levels, c, more0)
        && SeenAbove(T(), seen, front)
      modifies this`seen
      ensures Marked(seen0, more, seen) && Stacked(T(), ca, more) && AllPassed(T(), levels, c, more)
      ensures if ok then SeenAbove(T(), seen, front + [p]) else Blocking(T(), seen, levels, p)
    {
      FalseReason(T(), ca, p);
      ok, more := true, more0;
      if !seen[p.v] && level[p.v] > 0 {
        if reason[p.v] != CREF_UNDEF && levels(level[p.v]) {
          MarkPassed(T(), ca, levels, c, front, more, seen0, seen, p);
          seen, more := seen[p.v := true], more + [p];
        } else {
          ok := false;
        }
      } else {
        SeenMore(T(), seen, front, p);
      }
    }

    /** Follows the reasons of a literal: it is redundant exactly if no chain of them, through literals
        that are not seen, meets a decision or a level that does not pass. The marks made on the way
        stay if it is, and are taken back if it is not. */
    method LitRedundant(p: Lit, levels: nat -> bool) returns (redundant: bool, more: seq<Lit>)
      requires Fits() && |seen| == |assigns| && Value(p) == False && reason[p.v] != CREF_UNDEF
      modifies this`ca, this`seen
      ensures Fits() && SameClauses(old(ca), ca) && Marked(old(seen), more, seen)
      ensures !redundant ==> seen == old(seen) && more == []
      ensures redundant ==> Chased(T(), ca, old(seen), seen, p, []) && Passing(T(), old(seen), seen, levels)
      ensures redundant <==> !Escapes(T(), old(ca), old(seen), levels, p.v)
    {
      hide RootsOk, LongOk, BinOk, Settled, QueueCurrent;
      hide Chased, Escapes;
      var stack := [p];
      more := [];
      SameSelf(ca);
      FalseReason(T(), ca, p);
      StartSearch(T(), ca, seen, levels, p);
      while stack != []
        invariant Fits() && Searching(T(), old(ca), ca, old(seen), seen, levels, p, stack, more)
        decreases UnseenVars(seen), |stack|
      {
        var ok, found;
        ok, stack, found := PopOne(stack, levels, old(ca), old(seen), p, more);
        more := more + found;
        if !ok {
          TakeBack(more, old(seen));
          return false, [];
        }
      }
      EndSearch(T(), old(ca), ca, old(seen), seen, levels, p, more);
      redundant := true;
    }

    /** Takes the marks of a search back. */
    method TakeBack(more: seq<Lit>, ghost seen0: seq<bool>)
      requires Fits() && Marked(seen0, more, seen)
      modifies this`seen
      ensures Fits() && seen == seen0 && Marked(seen0, [], seen)
    {
      ghost var marked := seen;
      Unsee(more);
      BackAsBefore(seen0, more, marked, seen);
      NothingMarked(seen);
    }

    /** The reason of the last literal on the stack is looked through. */
    method PopOne(stack: seq<Lit>, levels: nat -> bool, ghost ca0: seq<Clause>, ghost seen0: seq<bool>, ghost p: Lit,
        ghost more: seq<Lit>)
      returns (ok: bool, stack': seq<Lit>, found: seq<Lit>)
      requires Fits() && |seen| == |assigns| && stack != []
        && Searching(T(), ca0, ca, seen0, seen, levels, p, stack, more)
      modifies this`ca, this`seen
      ensures Fits() && SameClauses(ca0, ca) && Marked(seen0, more + found, seen)
      ensures if ok
        then Searching(T(), ca0, ca, seen0, seen, levels, p, stack', more + found)
        else Escapes(T(), ca0, seen0, levels, p.v)
      ensures ok ==>
        UnseenVars(seen) < UnseenVars(old(seen)) || (UnseenVars(seen) == UnseenVars(old(seen)) && |stack'| < |stack|)
    {
      var x := stack[|stack| - 1];
      var rest := stack[..|stack| - 1];
      TopStacked(T(), ca, rest, x, stack);
      ghost var ca1 := ca;
      var c := ReasonOf(x);
      ok, found := LookBehind(x, c, levels, ca0, ca1, seen0, p, rest, more);
      stack' := rest + found;
    }

    /** What is not yet seen behind the first literal of a reason goes on the stack. */
    method LookBehind(x: Lit, c: Clause, levels: nat -> bool, ghost ca0: seq<Clause>, ghost ca1: seq<Clause>,
        ghost seen0: seq<bool>, ghost p: Lit, ghost rest: seq<Lit>, ghost more: seq<Lit>)
        returns (ok: bool, found: seq<Lit>)
      requires Fits() && |seen| == |assigns| && Searching(T(), ca0, ca1, seen0, seen, levels, p, rest + [x], more)
      requires SameClauses(ca1, ca) && Value(x) == False && 0 <= reason[x.v] < |ca| && c == ca[reason[x.v]] && c != []
      requires forall l :: l in c[1..] ==> FalseBefore(T(), l, pos[x.v])
      requires forall l :: l in c ==> l.v == x.v || l in c[1..]
      modifies this`seen
      ensures Fits() && SameClauses(ca0, ca) && Marked(seen0, more + found, seen)
      ensures if ok
        then Searching(T(), ca0, ca, seen0, seen, levels, p, rest + found, more + found)
        else Escapes(T(), ca0, seen0, levels, p.v)
      ensures if found == [] then seen == old(seen) else UnseenVars(seen) < UnseenVars(old(seen))
    {
      hide Searching, Escapes, Marked;
      ghost var seen1 := seen;
      ok, found := LookThrough(c, levels);
      SearchStep(T(), ca0, ca1, ca, seen0, seen1, seen, levels, p, rest, x, more, found, ok);
    }

    /** The reason of a false literal, with the literal's negation in front. */
    method ReasonOf(x: Lit) returns (c: Clause)
      requires Fits() && Value(x) == False && 0 <= reason[x.v] < |ca|
      modifies this`ca
      ensures Fits() && SameClauses(old(ca), ca) && c == ca[reason[x.v]] && c != []
      ensures forall l :: l in c[1..] ==> FalseBefore(T(), l, pos[x.v])
      ensures forall l :: l in c ==> l.v == x.v || l in c[1..]
    {
      var cr: nat := reason[x.v];
      Orient(cr, Neg(x));
      RestOfReason(T(), ca, Neg(x));
      c := ca[cr];
    }

    /** In the simple mode a literal goes if its reason consists of seen literals. */
    method ReasonSeen(l: Lit) returns (redundant: bool)
      requires Fits() && |seen| == |assigns| && Value(l) == False && reason[l.v] != CREF_UNDEF && seen[l.v]
      ensures redundant <==> Justified(T(), ca, SeenSet(seen), l.v)
    {
      FrontOfReason(T(), ca, Neg(l));
      var c := ca[reason[l.v]];
      assert ClauseOk(c, |assigns|);
      var k := if |c| == 2 then 0 else 1;
      redundant := true;
      while k < |c|
        invariant (if |c| == 2 then 0 else 1) <= k <= |c|
        invariant forall i :: (if |c| == 2 then 0 else 1) <= i < k && AboveZero(T(), c[i].v) ==>
          c[i].v < |seen| && seen[c[i].v]
      {
        assert c[k] in c;
        if !seen[c[k].v] && level[c[k].v] > 0 {
          assert c[k].v in VarsOf(c) && AboveZero(T(), c[k].v) && c[k].v !in SeenSet(seen);
          return false;
        }
        k := k + 1;
      }
      forall u | u in VarsOf(c) && u != l.v && AboveZero(T(), u) ensures u in SeenSet(seen) {
        var x :| x in c && x.v == u;
        var i :| 0 <= i < |c| && c[i] == x;
      }
    }

    /** The filter of levels: exactly those of the literals behind the first one pass it, and others that
        are the same to 32 bits. */
    method LevelBits(c: Clause) returns (abstract_levels: bv32)
      requires |level| == |assigns| && c != [] && forall i :: 1 <= i < |c| ==> Value(c[i]) == False
      ensures forall n: nat :: PassingLevels(abstract_levels)(n) <==> LevelsOf(T(), c)(n)
    {
      hide FilterOf, LevelBit, PassingLevels, LevelsOf;
      abstract_levels := 0;
      FilterStart(level, c);
      var i := 1;
      while i < |c|
        invariant 1 <= i <= |c| && FilterOf(level, c, i, abstract_levels)
      {
        assert Value(c[i]) == False;
        var bit := LevelBit(level[c[i].v]);
        FilterMore(level, c, i, abstract_levels, bit);
        abstract_levels := abstract_levels | bit;
        i := i + 1;
      }
      FilterLevels(T(), c, abstract_levels);
    }

    /** Whether a literal of the clause can be left out; what was marked to find out. Marks made for
        others before make no difference. */
    method Redundant(l: Lit, levels: nat -> bool, ghost ca0: seq<Clause>, ghost seen0: seq<bool>)
      returns (redundant: bool, more: seq<Lit>)
      requires Fits() && |seen| == |assigns| && Value(l) == False && seen[l.v] && (ccmin_mode == 1 || ccmin_mode == 2)
      requires SameClauses(ca0, ca) && Later(T(), ca, seen0, seen, levels, ccmin_mode)
      modifies this`ca, this`seen
      ensures Fits() && SameClauses(old(ca), ca) && Marked(old(seen), more, seen)
      ensures !redundant ==> seen == old(seen)
      ensures redundant ==> Chased(T(), ca, old(seen), seen, l, [])
      ensures redundant <==> LeftOut(T(), ca0, seen0, levels, ccmin_mode, l.v)
      ensures Later(T(), ca, seen0, seen, levels, ccmin_mode)
    {
      hide Escapes, Chased, Later, RootsOk, LongOk, BinOk, Justified;
      SameSelf(ca);
      NothingMarked(seen);
      if reason[l.v] == CREF_UNDEF {
        return false, [];
      }
      if ccmin_mode == 2 {
        redundant, more := RedundantDeep(l, levels, ca0, seen0);
      } else {
        redundant := ReasonSeen(l);
        LaterSimply(T(), ca, seen0, seen, levels, ccmin_mode);
        FalseReason(T(), ca, l);
        LeftOutSimply(T(), ca0, ca, seen, levels, l.v);
        if redundant {
          OneChased(T(), ca, seen, l);
        }
        more := [];
      }
    }

    method RedundantDeep(l: Lit, levels: nat -> bool, ghost ca0: seq<Clause>, ghost seen0: seq<bool>)
      returns (redundant: bool, more: seq<Lit>)
      requires Fits() && |seen| == |assigns| && Value(l) == False && reason[l.v] != CREF_UNDEF
      requires SameClauses(ca0, ca) && Later(T(), ca, seen0, seen, levels, 2)
      modifies this`ca, this`seen
      ensures Fits() && SameClauses(old(ca), ca) && Marked(old(seen), more, seen)
      ensures !redundant ==> seen == old(seen)
      ensures redundant ==> Chased(T(), ca, old(seen), seen, l, [])
      ensures redundant <==> LeftOut(T(), ca0, seen0, levels, 2, l.v)
      ensures Later(T(), ca, seen0, seen, levels, 2)
    {
      hide Escapes, Chased, Later, RootsOk, LongOk, BinOk, Passing, Marked;
      ghost var ca1, seen1 := ca, seen;
      EscapesSame(T(), ca0, ca, seen0, seen, levels, 2, l.v);
      redundant, more := LitRedundant(l, levels);
      if redundant {
        LaterNext(T(), ca1, ca, seen0, seen1, seen, levels, l, more);
      } else {
        LaterSame(T(), ca1, ca, seen0, seen, levels, 2);
      }
    }

    /** Leaves out the literals that are implied by others, compacting the clause in place: exactly those
        behind the first that can be left out beside all others. */
    method Minimise(c: Clause) returns (out: Clause, toclear: seq<Lit>)
      requires Fits() && Learnt(T(), ca, facts, c) && |seen| == |assigns| && SeenSet(seen) == VarsOf(c[1..])
      modifies this`ca, this`seen
      ensures Fits() && SameClauses(old(ca), ca) && Learnt(T(), ca, facts, out) && Subclause(c, out)
      ensures |seen| == |assigns| && ToClear(seen, toclear)
      ensures forall l :: l in out <==>
        l in c && (l == c[0] || !LeftOut(T(), old(ca), old(seen), LevelsOf(T(), c), ccmin_mode, l.v))
    {
      hide LevelsOf, PassingLevels, Escapes, RootsOk, LongOk, BinOk, Later, Chosen;
      out, toclear := c, c;
      ghost var keep := [true];
      AllLower(T(), ca, facts, c);
      var abstract_levels := LevelBits(c);
      StartMinimising(T(), ca, seen, c);
      SameSelf(ca);
      if ccmin_mode != 1 && ccmin_mode != 2 {
        StartSame(c);
        return;
      }
      ghost var t := T();
      out, toclear, keep := MinimiseAll(c, PassingLevels(abstract_levels));
      FinishMinimising(T(), old(ca), ca, facts, seen, c, keep, out);
      ChosenLeft(t, old(ca), old(seen), PassingLevels(abstract_levels), LevelsOf(t, c), ccmin_mode, c, keep, out);
    }

    method MinimiseAll(c: Clause, levels: nat -> bool) returns (out: Clause, toclear: seq<Lit>, ghost keep: seq<bool>)
      requires Fits() && Minimising(T(), ca, seen, c, [true]) && ToClear(seen, c) && Pick(c, [true], 1) == c[..1]
      requires (forall i :: 1 <= i < |c| ==> Val(T(), c[i]) == False) && (ccmin_mode == 1 || ccmin_mode == 2)
      modifies this`ca, this`seen
      ensures Fits() && SameClauses(old(ca), ca) && Minimising(T(), ca, seen, c, keep) && ToClear(seen, toclear)
      ensures |keep| == |c| && out == Pick(c, keep, |c|)
      ensures Chosen(T(), old(ca), old(seen), levels, ccmin_mode, c, keep) && keep[0]
    {
      hide LeftOut, Later, RootsOk, LongOk, BinOk, Justified, ToClear;
      out, toclear, keep := c, c, [true];
      SameSelf(ca);
      LaterStart(T(), ca, seen, levels, ccmin_mode);
      var i, j := 1, 1;
      while i < |out|
        invariant 1 <= j <= i <= |out| == |c| && |keep| == i && Fits() && SameClauses(old(ca), ca)
        invariant Minimising(T(), ca, seen, c, keep) && ToClear(seen, toclear)
        invariant Chosen(T(), old(ca), old(seen), levels, ccmin_mode, c, keep)
        invariant Later(T(), ca, old(seen), seen, levels, ccmin_mode)
        invariant out[..j] == Pick(c, keep, i) && out[i..] == c[i..]
      {
        out, j, toclear, keep := MinimiseNext(c, out, i, j, levels, toclear, keep, old(ca), old(seen));
        i := i + 1;
      }
      out := out[..j];
    }

    /** Looks at one literal. */
    method MinimiseNext(ghost c: Clause, out0: Clause, i: nat, j0: nat, levels: nat -> bool, toclear0: seq<Lit>,
        ghost keep0: seq<bool>, ghost ca0: seq<Clause>, ghost seen0: seq<bool>)
      returns (out: Clause, j: nat, toclear: seq<Lit>, ghost keep: seq<bool>)
      requires 1 <= j0 <= i < |out0| == |c| && |keep0| == i && Fits() && SameClauses(ca0, ca)
      requires Minimising(T(), ca, seen, c, keep0) && ToClear(seen, toclear0) && Val(T(), c[i]) == False
      requires out0[..j0] == Pick(c, keep0, i) && out0[i..] == c[i..] && (ccmin_mode == 1 || ccmin_mode == 2)
      requires Chosen(T(), ca0, seen0, levels, ccmin_mode, c, keep0)
        && Later(T(), ca, seen0, seen, levels, ccmin_mode)
      modifies this`ca, this`seen
      ensures 1 <= j <= i + 1 && |out| == |c| && |keep| == i + 1 && Fits() && SameClauses(ca0, ca)
      ensures Minimising(T(), ca, seen, c, keep) && ToClear(seen, toclear)
      ensures Chosen(T(), ca0, seen0, levels, ccmin_mode, c, keep) && Later(T(), ca, seen0, seen, levels, ccmin_mode)
      ensures out[..j] == Pick(c, keep, i + 1) && out[i + 1..] == c[i + 1..]
    {
      hide LeftOut, Chosen, Later, RootsOk, LongOk, BinOk, Chased, Justified;
      out, j := out0, j0;
      assert out[i..][0] == out[i] == c[i] && out[i + 1..] == out[i..][1..] == c[i + 1..];
      ghost var ca1, seen1 := ca, seen;
      var redundant, more := Redundant(out[i], levels, ca0, seen0);
      SameTrans(ca0, ca1, ca);
      StillToClear(seen1, more, seen, toclear0);
      toclear, keep := toclear0 + more, keep0 + [!redundant];
      ChosenNext(T(), ca0, seen0, levels, ccmin_mode, c, keep0, !redundant);
      ghost var front := out[..j];
      PickSame(c, keep0, keep, i);
      if redundant {
        MarkedSubset(seen1, more, seen);
        DropNext(T(), ca1, ca, seen1, seen, c, keep0);
      } else {
        SameMinimising(T(), ca1, ca, seen, c, keep0);
        KeepNext(T(), ca, seen, c, keep0);
        out := out[j := out[i]];
        assert out[..j + 1] == front + [c[i]];
        j := j + 1;
      }
    }

    ghost predicate Flags()
      reads this`permDiff, this`MYFLAG, this`assigns
    {
      |permDiff| == |assigns| && forall v :: 0 <= v < |permDiff| ==> permDiff[v] <= MYFLAG
    }

    /** A new flag for the literals behind the front. */
    method FlagLits(c: Clause)
      requires Flags() && c != [] && forall l :: l in c ==> l.v < |permDiff|
      modifies this`permDiff, this`MYFLAG
      ensures |permDiff| == |old(permDiff)| && MYFLAG > 0 && Flagged(permDiff, MYFLAG, c[1..], {})
    {
      MYFLAG := MYFLAG + 1;
      var i := 1;
      while i < |c|
        invariant 1 <= i <= |c| && |permDiff| == |old(permDiff)| && MYFLAG > 0 && Flagged(permDiff, MYFLAG, c[1..i], {})
      {
        assert c[i] in c && c[1..i + 1] == c[1..i] + [c[i]];
        VarsOfAppend(c[1..i], c[i]);
        permDiff := permDiff[c[i].v := MYFLAG];
        i := i + 1;
      }
      assert c[1..i] == c[1..];
    }

    /** Takes the flag from the variables that a binary clause with the front literal implies, and
        counts them. */
    method Unflag(p: Lit, ghost c: Clause) returns (nb: nat, ghost R: set<nat>)
      requires Fits() && Value(p) == True && |permDiff| == |assigns| && MYFLAG > 0 && Flagged(permDiff, MYFLAG, c, {})
      modifies this`permDiff
      ensures |permDiff| == |assigns| && Flagged(permDiff, MYFLAG, c, R) && nb == |R| && R <= VarsOf(c)
      ensures forall v :: v in VarsOf(c) ==> (v in R <==> ImpliedBy(T(), ca, p, v))
    {
      var wbin, k := At(watchesBin, p), 0;
      nb, R := 0, {};
      while k < |wbin|
        invariant 0 <= k <= |wbin| && |permDiff| == |assigns| && Flagged(permDiff, MYFLAG, c, R) && nb == |R|
          && R <= VarsOf(c)
        invariant forall v :: v in R ==> ImpliedBy(T(), ca, p, v)
        invariant forall j :: 0 <= j < k && Value(wbin[j].blocker) == True && wbin[j].blocker.v in VarsOf(c) ==>
                    wbin[j].blocker.v in R
      {
        var imp := wbin[k].blocker;
        BinImplies(T(), ca, watchesBin, p, k);
        if permDiff[imp.v] == MYFLAG && Value(imp) == True {
          nb, R := nb + 1, R + {imp.v};
          permDiff := permDiff[imp.v := MYFLAG - 1];
        }
        k := k + 1;
      }
      forall v | v in VarsOf(c) && ImpliedBy(T(), ca, p, v) ensures v in R {
        var j := ImpliedListed(T(), ca, watchesBin, p, v);
      }
    }

    /** Removes from the clause what binary clauses with its front literal imply: flagged literals
        are exchanged to the end. */
    method MinimiseBinary(c: Clause) returns (out: Clause)
      requires Fits() && Learnt(T(), ca, facts, c) && Flags()
      modifies this`permDiff, this`MYFLAG
      ensures Flags() && Learnt(T(), ca, facts, out) && Subclause(c, out)
      ensures forall l :: l in out <==> l in c && (l == c[0] || !ImpliedBy(T(), ca, Neg(c[0]), l.v))
    {
      var p := Neg(c[0]);
      LearntVars(T(), ca, facts, c);
      FlagLits(c);
      var nb;
      ghost var R;
      nb, R := Unflag(p, c[1..]);
      out := c;
      StartSame(c);
      if nb > 0 {
        out := ShrinkFlagged(c, nb, R);
        BinaryLearnt(T(), ca, facts, c, out);
      }
    }

    method ShrinkFlagged(c: Clause, nb: nat, ghost R: set<nat>) returns (out: Clause)
      requires c != [] && DistinctVars(c) && (forall l :: l in c ==> l.v < |permDiff|)
      requires Flagged(permDiff, MYFLAG, c[1..], R) && R <= VarsOf(c[1..]) && nb == |R|
      ensures Subclause(c, out) && forall l :: l in c ==> (l in out <==> l.v !in R)
    {
      out := c;
      var l, i := |out| - 1, 1;
      TailCount(c, R);
      while i < |out| - nb
        invariant 1 <= i <= |out| - nb && l < |out| == |c| && |out| - 1 - l <= nb && out[0] == c[0]
        invariant SameLits(c, out) && DistinctVars(out)
        invariant (forall k :: 1 <= k < i ==> out[k].v !in R) && forall k :: l < k < |out| ==> out[k].v in R
        decreases |out| - nb - i, l
      {
        BehindFront(c, out, i);
        if permDiff[out[i].v] != MYFLAG {
          assert out[i].v in R;
          MoreThanTail(out, R, i, l);
          ExchangeSame(out, i, l);
          ExchangeVars(out, i, l);
          out := Exchange(out, i, l);
          l := l - 1;
        } else {
          i := i + 1;
        }
      }
      AllOfTail(c, out, R, i);
      KeptFront(c, out, R, i);
      out := out[..|out| - nb];
    }

    // ----- the learnt clause -----

    method BacktrackLevel(c: Clause) returns (out: Clause, btlevel: nat)
      requires Fits() && Learnt(T(), ca, facts, c)
      ensures Learnt(T(), ca, facts, out) && Subclause(c, out) && BacktrackTo(T(), out, btlevel)
      ensures forall l :: l in out <==> l in c
    {
      LearntVars(T(), ca, facts, c);
      StartSame(c);
      if |c| == 1 {
        return c, 0;
      }
      var max_i, i := 1, 2;
      assert forall k :: 0 <= k < |c| ==> c[k] in c;
      while i < |c|
        invariant 1 <= max_i < i <= |c|
        invariant forall k :: 1 <= k < i ==> level[c[k].v] <= level[c[max_i].v]
      {
        if level[c[i].v] > level[c[max_i].v] { max_i := i; }
        i := i + 1;
      }
      out, btlevel := Exchange(c, max_i, 1), level[c[max_i].v];
      SwapLearnt(T(), ca, facts, c, max_i);
      ExchangeSame(c, max_i, 1);
    }

    /** Conflict analysis: the clause it returns follows from the others, is false, has one literal
        of the current level, in front, and the highest level of the others in the second place. */
    method Analyze(confl: nat, minimiseBinary: bool)
      returns (out_learnt: Clause, out_btlevel: nat, ghost uip: Clause, ghost mid: Clause)
      requires Fits() && |trail_lim| > 0 && Conflict(T(), ca, confl) && Unseen() && Flags()
      modifies this`ca, this`seen, this`permDiff, this`MYFLAG
      ensures Fits() && SameClauses(old(ca), ca) && Unseen() && Flags()
      ensures Learnt(T(), ca, facts, out_learnt) && EntailedBy(ca, facts, out_learnt)
        && BacktrackTo(T(), out_learnt, out_btlevel)
      ensures FirstPoint(T(), old(ca), confl, out_learnt[0].v)
      ensures Learnt(T(), ca, facts, uip) && Minimised(T(), old(ca), ccmin_mode, uip, mid)
      ensures if minimiseBinary then BinaryMinimised(T(), old(ca), mid, out_learnt)
        else forall l :: l in out_learnt <==> l in mid
    {
      hide FirstPoint, LongOk, BinOk, RootsOk, Forced, EntailedBy, SameLits, LeftOut, LevelsOf, ImpliedBy, Nogood,
        Minimised;
      ghost var t, ca0 := T(), ca;
      out_learnt := FirstUIP(confl);
      ghost var between, seen1 := ca, seen;
      uip := out_learnt;
      var toclear;
      out_learnt, toclear := Minimise(out_learnt);
      mid := out_learnt;
      MinimisedFrom(t, ca0, between, seen1, ccmin_mode, uip, mid);
      SameTrans(ca0, between, ca);
      SameLearnt(t, between, ca, facts, uip);
      if minimiseBinary {
        out_learnt := MinimiseBinary(out_learnt);
        BinaryFrom(t, ca0, ca, mid, out_learnt);
      }
      ghost var last := out_learnt;
      out_learnt, out_btlevel := BacktrackLevel(out_learnt);
      BinaryOrder(t, ca0, mid, last, out_learnt);
      LearntEntailed(T(), ca, facts, out_learnt);
      ghost var marked := seen;
      Unsee(toclear);
      NothingLeft(marked, toclear, seen);
    }

    /** Takes back all assignments above the level. What a conflict left undone is done again. */
    method CancelUntil(lvl: nat)
      requires Fits() && Upto(T(), qhead, watches, watchesBin, |trail_lim|, {})
      modifies this`trail, this`trail_lim, this`assigns, this`qhead
      ensures lvl < |old(trail_lim)| ==> Valid() && TrailOk(old(T())) && T() == Cut(old(T()), lvl) && qhead == |trail|
      ensures lvl >= |old(trail_lim)| ==> T() == old(T()) && qhead == old(qhead)
    {
      if DecisionLevel() > lvl {
        CutAll(T(), qhead, ca, watches, watchesBin, facts, lvl);
        ghost var t := T();
        Unassign(lvl);
        qhead := trail_lim[lvl];
        trail := trail[..trail_lim[lvl]];
        trail_lim := trail_lim[..lvl];
        assert T() == Cut(t, lvl);
      }
    }

    method Unassign(lvl: nat)
      requires TrailOk(T()) && lvl < |trail_lim|
      modifies this`assigns
      ensures assigns == Cut(old(T()), lvl).assigns
    {
      ghost var t := T();
      var c := |trail|;
      while c > trail_lim[lvl]
        invariant trail_lim[lvl] <= c <= |trail| && |assigns| == |t.assigns|
        invariant forall v :: 0 <= v < |assigns| ==>
          assigns[v] == if t.assigns[v] != Undef && t.pos[v] >= c then Undef else t.assigns[v]
      {
        c := c - 1;
        assert OnTrail(t, c);
        assigns := assigns[trail[c].v := Undef];
        forall v | 0 <= v < |assigns| ensures assigns[v] == if t.assigns[v] != Undef
          && t.pos[v] >= c then Undef else t.assigns[v] {
          if t.assigns[v] != Undef && t.pos[v] == c {
            assert t.lits[t.pos[v]].v == v;
          }
        }
      }
    }

    /** Appends a clause and puts it on the lists of its first two literals. */
    method AttachClause(c: Clause) returns (cr: nat)
      requires |c| >= 2 && c[0] != c[1]
      modifies this`ca, this`watches, this`watchesBin
      ensures ca == old(ca) + [c] && cr == |old(ca)|
      ensures watches == LongLists(old(watches), cr, c) && watchesBin == BinLists(old(watchesBin), cr, c)
    {
      cr := |ca|;
      ca := ca + [c];
      if |c| == 2 {
        watchesBin := WatchBoth(watchesBin, cr, c[0], c[1]);
      } else {
        watches := WatchBoth(watches, cr, c[0], c[1]);
      }
    }

    /** A clause none of whose watched literals is assigned. */
    method AddClause(c: Clause)
      requires Valid() && ClauseOk(c, |assigns|) && Value(c[0]) == Undef && Value(c[1]) == Undef
      modifies this`ca, this`watches, this`watchesBin
      ensures Valid() && ca == old(ca) + [c]
    {
      assert c[0] != c[1];
      Attached(T(), ca, watches, watchesBin, facts, c);
      StillUpto(T(), qhead, watches, watchesBin, |ca|, c);
      var cr := AttachClause(c);
    }

    /** A unit clause at level 0. */
    method AddUnit(p: Lit)
      requires Valid() && |trail_lim| == 0 && p.v < |assigns| && Value(p) == Undef
      modifies this`trail, this`assigns, this`level, this`reason, this`pos, this`facts
      ensures Valid() && Value(p) == True && facts == old(facts) + {p}
      ensures trail == old(trail) + [p] && |assigns| == |old(assigns)|
    {
      PushFact(T(), qhead, ca, watches, watchesBin, facts, p);
      facts := facts + {p};
      UncheckedEnqueue(p, CREF_UNDEF);
    }

    /** Opens a level with a decision, after everything was propagated. */
    method Decide(p: Lit)
      requires Valid() && qhead == |trail| && p.v < |assigns| && Value(p) == Undef
      modifies this`trail, this`trail_lim, this`assigns, this`level, this`reason, this`pos
      ensures Valid() && Value(p) == True && trail == old(trail) + [p] && trail_lim == old(trail_lim) + [|old(trail)|]
      ensures |assigns| == |old(assigns)|
    {
      hide RootsOk, LongOk, BinOk, Settled, QueueCurrent;
      NewLevel(T(), ca, watches, watchesBin, facts);
      trail_lim := trail_lim + [|trail|];
      PushDecision(T(), qhead, ca, watches, watchesBin, facts, p);
      UncheckedEnqueue(p, CREF_UNDEF);
    }

    /** Backtracks, adds the learnt clause and enqueues its front literal, which it forces: the state
        is again one to propagate from, and the models are the same. */
    method Learn(c: Clause, btlevel: nat, ghost ca0: seq<Clause>)
      requires SameClauses(ca0, ca) && Fits() && |trail_lim| > 0
        && Upto(T(), qhead, watches, watchesBin, |trail_lim|, {})
      requires Learnt(T(), ca, facts, c) && BacktrackTo(T(), c, btlevel)
      modifies this`ca, this`watches, this`watchesBin, this`trail, this`trail_lim, this`assigns, this`level,
        this`reason, this`pos, this`qhead, this`facts
      ensures Valid() && |trail_lim| == btlevel && Value(c[0]) == True && |assigns| == |old(assigns)|
      ensures if |c| == 1 then facts == old(facts) + {c[0]} && ca == old(ca)
        else facts == old(facts) && ca == old(ca) + [c]
      ensures |c| == 1 ==> c[0] !in old(facts)
      ensures btlevel < |old(trail_lim)| && trail_lim == old(trail_lim)[..btlevel]
        && |trail| == old(trail_lim)[btlevel] + 1
      ensures Equivalent(ca0, old(facts), ca, facts)
    {
      hide RootsOk, LongOk, BinOk, Settled, QueueCurrent;
      NotYetFact(T(), ca, facts, c);
      LearntEntailed(T(), ca, facts, c);
      SameModelsBoth(ca0, ca, facts);
      Asserting(T(), ca, facts, c, btlevel);
      CancelUntil(btlevel);
      if |c| == 1 {
        AddUnit(c[0]);
      } else {
        Assert(c);
      }
      SameModelsLearnt(old(ca), old(facts), ca, facts, c);
      EquivalentTrans(ca0, old(facts), old(ca), old(facts), ca, facts);
    }

    /** Adds a clause of two and more literals whose first is unassigned and whose others are false,
        the second at the current level. */
    method Assert(c: Clause)
      requires Valid() && |c| >= 2 && DistinctVars(c) && (forall i :: 0 <= i < |c| ==> c[i].v < |assigns|)
      requires Value(c[0]) == Undef && (forall i :: 1 <= i < |c| ==> Value(c[i]) == False)
        && level[c[1].v] == |trail_lim|
      modifies this`ca, this`watches, this`watchesBin, this`trail, this`assigns, this`level, this`reason, this`pos
      ensures Valid() && Value(c[0]) == True && ca == old(ca) + [c] && |assigns| == |old(assigns)|
      ensures trail == old(trail) + [c[0]]
    {
      hide RootsOk, LongOk, BinOk, Settled, QueueCurrent;
      Asserted(T(), qhead, ca, watches, watchesBin, facts, c);
      var cr := AttachClause(c);
      UncheckedEnqueue(c[0], cr);
    }

    // ----- the search -----

    constructor (n: nat, ccmin_mode: nat)
      ensures Valid() && Unseen() && Flags() && ca == [] && facts == {} && trail == [] && trail_lim == [] && qhead == 0
      ensures assigns == seq(n, _ => Undef)
    {
      ca, watches, watchesBin, trail, trail_lim, qhead := [], map[], map[], [], [], 0;
      assigns, level, reason := seq(n, _ => Undef), seq(n, _ => 0), seq(n, _ => CREF_UNDEF);
      seen, permDiff, MYFLAG := seq(n, _ => false), seq(n, _ => 0), 0;
      this.ccmin_mode := ccmin_mode;
      pos, facts := seq(n, _ => 0), {};
    }

    /** An unassigned variable, the preferred one if it is unassigned. */
    method PickBranchLit(preferred: Lit) returns (found: bool, next: Lit)
      ensures found ==> next.v < |assigns| && Value(next) == Undef
      ensures !found ==> forall v :: 0 <= v < |assigns| ==> assigns[v] != Undef
    {
      if preferred.v < |assigns| && Value(preferred) == Undef {
        return true, preferred;
      }
      var v := 0;
      while v < |assigns|
        invariant 0 <= v <= |assigns| && forall u :: 0 <= u < v ==> assigns[u] != Undef
      {
        if assigns[v] == Undef {
          return true, Lit(v, preferred.neg);
        }
        v := v + 1;
      }
      return false, preferred;
    }

    /** From the level on each level starts with a literal of its own. */
    ghost predicate Opened(from: nat)
      reads this`trail, this`trail_lim
    {
      && (forall k :: from <= k < |trail_lim| ==> trail_lim[k] < |trail|)
      && (forall j, k :: from <= j < k < |trail_lim| ==> trail_lim[j] < trail_lim[k])
    }

    /** How many levels there are at most. */
    lemma LevelBound(from: nat)
      requires TrailOk(T()) && Opened(from)
      ensures |trail_lim| <= from + |assigns|
    {
      TrailBound(T());
      if |trail_lim| > from {
        StartsAt(from, |trail_lim| - 1);
      }
    }

    lemma {:induction false} StartsAt(from: nat, k: nat)
      requires Opened(from) && from <= k < |trail_lim|
      ensures trail_lim[k] >= k - from
      decreases k
    {
      if k > from {
        StartsAt(from, k - 1);
      }
    }

    /** Clause learning up to a number of conflicts, with any choice of decisions: True comes with a
        model on the trail, False means that there is none, and the clauses learnt on the way change
        no model. Every conflict but one that ends the search adds a clause or a fact. The search
        gives up, on level 0, exactly at the first propagation without a conflict after that number;
        until then no decision is made, so each further conflict takes back a level. */
    method Search(nof_conflicts: nat, prefer: (nat, seq<Lit>) -> Lit, minimiseBinary: bool)
      returns (status: LBool, ghost conflicts: nat)
      requires Valid() && Unseen() && Flags()
      modifies this
      ensures Equivalent(old(ca), old(facts), ca, facts)
      ensures status == True ==> ModelsAll(ModelOf(assigns), ca, facts) && conflicts < nof_conflicts
      ensures status == False ==> Unsatisfiable(ca, facts)
      ensures status == Undef ==> Valid() && Unseen() && Flags() && trail_lim == []
      ensures status == Undef ==> nof_conflicts <= conflicts <= nof_conflicts + |old(trail_lim)| + |assigns|
      ensures |ca| + |facts| == |old(ca)| + |old(facts)| + conflicts - if status == False then 1 else 0
    {
      assert Equivalent(ca, facts, ca, facts);
      hide Ready, Found, Unsatisfiable, Equivalent, ModelsAll;
      var conflictC, done := 0, false;
      ghost var size0, level0 := |ca| + |facts|, |trail_lim|;
      status := Undef;
      while !done
        invariant !done ==> status == Undef && Ready(level0)
        invariant !done && conflictC >= nof_conflicts ==>
                    conflictC - nof_conflicts + |trail_lim| <= level0 + |assigns|
        invariant done ==> Found(status)
        invariant done && status == True ==> conflictC < nof_conflicts
        invariant done && status == Undef ==> nof_conflicts <= conflictC <= nof_conflicts + level0 + |assigns|
        invariant Equivalent(old(ca), old(facts), ca, facts)
        invariant |ca| + |facts| == size0 + conflictC - if status == False then 1 else 0
        decreases !done, if conflictC < nof_conflicts then nof_conflicts - conflictC else 0,
          if conflictC < nof_conflicts then |assigns| - |trail| else |trail_lim|
      {
        ghost var ca1, facts1 := ca, facts;
        var conflict;
        status, conflict, done := Round(nof_conflicts <= conflictC, prefer(conflictC, trail), minimiseBinary, level0);
        EquivalentTrans(old(ca), old(facts), ca1, facts1, ca, facts);
        if conflict { conflictC := conflictC + 1; }
      }
      conflicts := conflictC;
    }

    ghost predicate Ready(from: nat)
      reads this
    {
      Valid() && Unseen() && Flags() && Opened(from)
    }

    /** What is known when the search ends. */
    ghost predicate Found(status: LBool)
      reads this
    {
      match status
      case True => ModelsAll(ModelOf(assigns), ca, facts)
      case False => Unsatisfiable(ca, facts)
      case Undef => Valid() && Unseen() && Flags() && trail_lim == []
    }

    /** Propagation, and then analysis of the conflict, giving up, or a decision. */
    method Round(giveUp: bool, preferred: Lit, minimiseBinary: bool, ghost from: nat)
      returns (status: LBool, conflict: bool, done: bool)
      requires Ready(from)
      modifies this
      ensures Equivalent(old(ca), old(facts), ca, facts) && |assigns| == |old(assigns)|
      ensures if done then Found(status) else status == Undef && Ready(from) && |trail_lim| <= from + |assigns|
      ensures |ca| + |facts| == |old(ca)| + |old(facts)| + if conflict && status != False then 1 else 0
      ensures conflict ==> status != True && (if done then status == False else |trail_lim| < |old(trail_lim)|)
      ensures !conflict && giveUp ==> done && status == Undef
      ensures !conflict && !giveUp ==> if done then status == True else |old(trail)| < |trail| <= |assigns|
    {
      hide RootsOk, LongOk, BinOk, Settled, QueueCurrent, Conflict, Unsatisfiable, ModelsAll, NoWork;
      var confl := Propagate();
      SameModelsBoth(old(ca), ca, facts);
      hide Equivalent;
      ghost var ca1, facts1 := ca, facts;
      conflict := confl != CREF_UNDEF;
      if conflict {
        status := AfterPropagation(confl, minimiseBinary, from);
        EquivalentTrans(old(ca), old(facts), ca1, facts1, ca, facts);
        done := status == False;
      } else if giveUp {
        GiveUp();
        status, done := Undef, true;
      } else {
        status := NextDecision(preferred, from);
        done := status == True;
      }
      if !done { LevelBound(from); }
    }

    method GiveUp()
      requires Valid()
      modifies this`trail, this`trail_lim, this`assigns, this`qhead
      ensures Valid() && trail_lim == [] && |assigns| == |old(assigns)|
    {
      CancelUntil(0);
    }

    method NextDecision(preferred: Lit, ghost from: nat) returns (status: LBool)
      requires Valid() && qhead == |trail| && Unseen() && Flags() && forall cr :: 0 <= cr < |ca| ==> NoWork(T(), ca[cr])
      requires Opened(from)
      modifies this`trail, this`trail_lim, this`assigns, this`level, this`reason, this`pos
      ensures status != False && (status == True ==> ModelsAll(ModelOf(assigns), ca, facts))
      ensures status == Undef ==>
        Valid() && Unseen() && Flags() && Opened(from) && |old(trail)| < |trail| <= |assigns|
      ensures |assigns| == |old(assigns)|
    {
      hide RootsOk, LongOk, BinOk, Settled, QueueCurrent;
      var found, next := PickBranchLit(preferred);
      if !found {
        FullTrailModels(T(), ca, facts);
        return True;
      }
      Decide(next);
      TrailBound(T());
      status := Undef;
    }

    method AfterPropagation(confl: nat, minimiseBinary: bool, ghost from: nat) returns (status: LBool)
      requires Fits() && Upto(T(), qhead, watches, watchesBin, |trail_lim|, {}) && Conflict(T(), ca, confl)
      requires Unseen() && Flags() && Opened(from)
      modifies this
      ensures |assigns| == |old(assigns)|
      ensures |ca| + |facts| == |old(ca)| + |old(facts)| + if status == False then 0 else 1
      ensures status == Undef ==> Opened(from) && |trail_lim| < |old(trail_lim)|
      ensures Equivalent(old(ca), old(facts), ca, facts)
      ensures status != True && (status == False ==> Unsatisfiable(ca, facts))
      ensures status == Undef ==> Valid() && Unseen() && Flags()
    {
      if DecisionLevel() == 0 {
        NoModel(T(), ca, facts, confl);
        return False;
      }
      HandleConflict(confl, minimiseBinary);
      status := Undef;
    }

    /** Analysis of a conflict, and what is learnt from it. */
    method HandleConflict(confl: nat, minimiseBinary: bool)
      requires Fits() && |trail_lim| > 0 && Upto(T(), qhead, watches, watchesBin, |trail_lim|, {})
        && Conflict(T(), ca, confl)
      requires Unseen() && Flags()
      modifies this
      ensures Valid() && Unseen() && Flags() && |assigns| == |old(assigns)|
      ensures Equivalent(old(ca), old(facts), ca, facts)
      ensures |ca| + |facts| == |old(ca)| + |old(facts)| + 1
      ensures |trail_lim| < |old(trail_lim)| && trail_lim == old(trail_lim)[..|trail_lim|]
        && |trail| == old(trail_lim)[|trail_lim|] + 1
    {
      hide FirstPoint, Minimised, BinaryMinimised, RootsOk, LongOk, BinOk, Settled, QueueCurrent, Conflict, EntailedBy,
        Nogood, Equivalent, SameLits;
      ghost var t := T();
      var learnt_clause, backtrack_level, uip, mid := Analyze(confl, minimiseBinary);
      assert T() == t;
      Learn(learnt_clause, backtrack_level, old(ca));
    }

  }

  /** Two binary clauses that follow from p and contradict each other. */
  method Contradiction(p: Lit, a: Lit) returns (s: Solver)
    requires p.v == 0 && a.v == 1
    ensures fresh(s) && s.Valid() && s.ca == [[Neg(p), a], [Neg(p), Neg(a)]]
    ensures s.trail == [p] && s.trail_lim == [] && s.qhead == 0
  {
    s := TwoClauses(p, a);
    s.AddUnit(p);
  }

  method TwoClauses(p: Lit, a: Lit) returns (s: Solver)
    requires p.v == 0 && a.v == 1
    ensures fresh(s) && s.Valid() && s.ca == [[Neg(p), a], [Neg(p), Neg(a)]]
    ensures s.trail == [] && s.trail_lim == [] && s.qhead == 0 && s.assigns == [Undef, Undef]
  {
    s := new Solver(2, 2);
    BinaryOk(Neg(p), a, 2);
    BinaryOk(Neg(p), Neg(a), 2);
    s.AddClause([Neg(p), a]);
    s.AddClause([Neg(p), Neg(a)]);
  }

  lemma BinaryOk(a: Lit, b: Lit, n: nat)
    requires a.v != b.v && a.v < n && b.v < n
    ensures ClauseOk([a, b], n)
  {
  }

  /** The queue need not be empty after a conflict, whatever the comment on propagate says: here the
      literal that the first clause forced is left in it. */
  method BinaryConflictLeavesQueue(s: Solver, p: Lit, a: Lit) returns (confl: int)
    requires s.Valid() && s.ca == [[Neg(p), a], [Neg(p), Neg(a)]] && p.v != a.v
    requires s.trail == [p] && s.trail_lim == [] && s.qhead == 0
    modifies s
    ensures confl != CREF_UNDEF && s.qhead < |s.trail|
  {
    ghost var ca, t := s.ca, s.T();
    confl := s.Propagate();
    MustConflict(t, s.T(), ca, s.ca, confl, p, a);
  }

  /** Such a state can be reached. */
  method ReachConflict() returns (s: Solver, confl: int)
    ensures confl != CREF_UNDEF && s.qhead < |s.trail|
  {
    var p, a := Lit(0, false), Lit(1, false);
    s := Contradiction(p, a);
    confl := BinaryConflictLeavesQueue(s, p, a);
  }

  /** Two clauses that force opposite values cannot both be settled, and both are binary. */
  lemma MustConflict(t0: Trail, t: Trail, ca0: seq<Clause>, ca: seq<Clause>, confl: int, p: Lit, a: Lit)
    requires TrailOk(t0) && TrailOk(t) && Grows(t0, t) && SameClauses(ca0, ca) && ca0 == [[Neg(p), a], [Neg(p), Neg(a)]]
    requires t0.lits == [p] && p.v != a.v
    requires confl == CREF_UNDEF ==> forall cr :: 0 <= cr < |ca| ==> NoWork(t, ca[cr])
    requires confl != CREF_UNDEF ==> 0 <= confl < |ca|
    ensures confl != CREF_UNDEF && |ca[confl]| == 2
  {
    assert OnTrail(t0, 0) && t.lits[0] == p && OnTrail(t, 0);
    assert SameLits(ca0[0], ca[0]) && SameLits(ca0[1], ca[1]);
    if confl == CREF_UNDEF {
      Forces(t, ca[0], p, a);
      Forces(t, ca[1], p, Neg(a));
    }
  }

  /** A binary clause with a false literal that needs no work has its other literal true. */
  lemma Forces(t: Trail, c: Clause, p: Lit, x: Lit)
    requires TrailOk(t) && NoWork(t, c) && Val(t, p) == True && SameLits([Neg(p), x], c)
    ensures Val(t, x) == True
  {
    assert Neg(p) in [Neg(p), x] && x in [Neg(p), x];
  }
}
