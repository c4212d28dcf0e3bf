/** The preprocessor: backward subsumption and variable elimination on the clause database. */
module SimpSolvers {
  import opened SolverTypes
  import opened SolverStates
  import opened SolverNogoods
  import opened SolverAnalysis
  import opened Subsumption
  import opened Elimination
  import opened ElimStacks
  import opened SimpStates
  import opened SubsumptionRuns
  import opened SimpAdding
  import opened ElimLimits
  import opened SimpLevels
  import opened SimpRounds

  // ----- measures -----

  /** The number of literals in the first n clauses that are live. */
  ghost function Weight(D: Db, n: nat): nat
    requires n <= |D.ca|
  {
    if n == 0 then 0 else Weight(D, n - 1) + if Live(D, n - 1) then |D.ca[n - 1]| else 0
  }

  /** Nothing but one clause has changed, and literals of level 0 were only added. */
  ghost predicate OnlyChanged(D: Db, D': Db, cr: nat) {
    && |D'.ca| == |D.ca| && |D'.del| == |D.del|
    && (forall i: nat :: i < |D.ca| && i != cr ==> D'.ca[i] == D.ca[i] && (Live(D', i) <==> Live(D, i)))
    && forall l :: l in D.trail ==> l in D'.trail
  }

  lemma {:induction false} WeightSame(D: Db, D': Db, cr: nat, n: nat)
    requires OnlyChanged(D, D', cr) && n <= |D.ca| && n <= cr
    ensures Weight(D', n) == Weight(D, n)
  {
    if n > 0 {
      WeightSame(D, D', cr, n - 1);
    }
  }

  lemma {:induction false} WeightLess(D: Db, D': Db, cr: nat, n: nat)
    requires OnlyChanged(D, D', cr) && cr < n <= |D.ca| && Live(D, cr) && D.ca[cr] != []
    requires Live(D', cr) ==> |D'.ca[cr]| < |D.ca[cr]|
    ensures Weight(D', n) < Weight(D, n)
  {
    if n - 1 == cr {
      WeightSame(D, D', cr, cr);
    } else {
      WeightLess(D, D', cr, n - 1);
    }
  }

  lemma SourceStays(D: Db, D': Db, cr: nat, c: Clause, k: int)
    requires OnlyChanged(D, D', cr) && Source(D, c, k) && k != cr
    ensures Source(D', c, k)
  {
  }

  lemma FalseValue(assigns: seq<LBool>, trail: seq<Lit>, l: Lit)
    requires ValuesOk(assigns, trail)
    ensures Assigned(assigns, l) == False <==> Neg(l) in trail
    ensures Assigned(assigns, l) == True <==> l in trail
  {
    assert Assigned(assigns, l) == False <==> Assigned(assigns, Neg(l)) == True;
  }

  lemma NewValue(assigns: seq<LBool>, trail: seq<Lit>, p: Lit)
    requires ValuesOk(assigns, trail) && p.v < |assigns| && Assigned(assigns, p) == Undef
    ensures ValuesOk(assigns[p.v := if p.neg then False else True], trail + [p])
  {
    var assigns' := assigns[p.v := if p.neg then False else True];
    forall l ensures Assigned(assigns', l) == True <==> l in trail + [p] {
      assert l in trail ==> Assigned(assigns, l) == True;
    }
  }

  // ----- shapes -----

  lemma ShapeShorter(D: Db, cr: nat, c: Clause, n: nat, gone: set<nat>)
    requires DbOk(D, n, gone) && cr < |D.ca| && LiveOk(c, n, gone)
    ensures DbOk(D.(ca := D.ca[cr := c]), n, gone)
  {
    var D' := D.(ca := D.ca[cr := c]);
    forall i: nat | Live(D', i) ensures LiveOk(D'.ca[i], n, gone) {
      assert i != cr ==> Live(D, i);
    }
  }

  lemma ShapeRemoved(D: Db, cr: nat, n: nat, gone: set<nat>, abs: seq<bv32>, occurs: Occurs)
    requires DbOk(D, n, gone) && AbsOk(D, abs) && OccursOk(D, occurs) && cr < |D.ca|
    ensures DbOk(Removed(D, cr), n, gone) && AbsOk(Removed(D, cr), abs) && OccursOk(Removed(D, cr), occurs)
  {
    var D' := Removed(D, cr);
    forall i: nat | Live(D', i) ensures Live(D, i) {
    }
    forall v ensures OccListOk(D', v, OccOf(occurs, v)) {
      assert OccListOk(D, v, OccOf(occurs, v));
    }
  }

  function RemoveFirst(s: seq<nat>, x: nat): (r: seq<nat>) {
    if s == [] then [] else if s[0] == x then s[1..] else [s[0]] + RemoveFirst(s[1..], x)
  }

  lemma {:induction false} RemoveFirstHas(s: seq<nat>, x: nat)
    requires NoRepeat(s)
    ensures NoRepeat(RemoveFirst(s, x)) && forall y :: y in RemoveFirst(s, x) <==> y in s && y != x
  {
    if s != [] {
      assert s == [s[0]] + s[1..];
      forall y | y in s[1..] ensures y != s[0] {
        var i :| 0 <= i < |s| - 1 && s[1..][i] == y;
        assert s[i + 1] == y;
      }
      if s[0] != x {
        RemoveFirstHas(s[1..], x);
        PrependFresh(s[0], RemoveFirst(s[1..], x));
      }
    }
  }

  lemma PrependFresh(x: nat, s: seq<nat>)
    requires NoRepeat(s) && x !in s
    ensures NoRepeat([x] + s) && forall y :: y in [x] + s <==> y == x || y in s
  {
  }

  /** The list of the removed literal's variable loses the clause, the others stay. */
  lemma OccursShorter(D: Db, occurs: Occurs, cr: nat, l: Lit)
    requires OccursOk(D, occurs) && Live(D, cr) && l in D.ca[cr] && DistinctVars(D.ca[cr])
    ensures OccursOk(Shortened(D, cr, l), occurs[l.v := RemoveFirst(OccOf(occurs, l.v), cr)])
  {
    var D', occurs' := Shortened(D, cr, l), occurs[l.v := RemoveFirst(OccOf(occurs, l.v), cr)];
    WithoutVars(D.ca[cr], l);
    forall v ensures OccListOk(D', v, OccOf(occurs', v)) {
      assert OccListOk(D, v, OccOf(occurs, v));
      RemoveFirstHas(OccOf(occurs, v), cr);
      forall i: nat | Live(D', i) ensures i in OccOf(occurs', v) <==> v in VarsOf(D'.ca[i]) {
        assert Live(D, i);
      }
    }
  }

  lemma WithoutVars(c: Clause, l: Lit)
    requires DistinctVars(c) && l in c
    ensures VarsOf(Without(c, l)) == VarsOf(c) - {l.v}
  {
    forall x | x in c && x.v == l.v ensures x == l {
      var i :| 0 <= i < |c| && c[i] == x;
      var j :| 0 <= j < |c| && c[j] == l;
    }
    assert forall v :: v in VarsOf(c) && v != l.v ==> exists x :: x in Without(c, l) && x.v == v by {
      forall v | v in VarsOf(c) && v != l.v ensures exists x :: x in Without(c, l) && x.v == v {
        var x :| x in c && x.v == v;
        assert x in Without(c, l);
      }
    }
  }

  class SimpSolver {
    var ca: seq<Clause>
    var abs: seq<bv32>
    var del: seq<bool>
    var trail: seq<Lit>
    var assigns: seq<LBool>
    var occurs: Occurs
    var subsumption_queue: seq<nat>
    var bwdsub_assigns: nat
    const subsumption_lim: int

    /** Variables whose clauses are to be tried again, as they may subsume new clauses. */
    var touched: seq<bool>
    var n_touched: nat

    /** Variables that are not to be eliminated. */
    const frozen: seq<bool>

    // what elimination adds
    var elimclauses: seq<nat>
    var eliminated: seq<bool>
    const grow: int
    const clause_lim: int

    /** The stack as blocks, the eliminated variables, and all clauses there ever were. */
    ghost var blocks: seq<Clause>
    ghost var gone: set<nat>
    ghost var all: seq<Clause>

    /** Promises that no literal of level 0 is of an eliminated variable. */
    ghost var clean: bool

    function D(): Db
      reads this`ca, this`del, this`trail
    {
      Db(ca, del, trail)
    }

    ghost predicate Shape(gone: set<nat>)
      reads this`ca, this`abs, this`del, this`trail, this`assigns, this`occurs, this`subsumption_queue,
            this`bwdsub_assigns, this`touched, this`n_touched, this`clean
    {
      && DbOk(D(), |assigns|, gone) && AbsOk(D(), abs) && ValuesOk(assigns, trail) && OccursOk(D(), occurs)
      && (forall i :: i in subsumption_queue ==> i < |ca|) && bwdsub_assigns <= |trail|
      && (clean ==> TrailOver(trail, gone))
      && |touched| == |assigns| && (n_touched == 0 ==> NoneTouched(touched))
    }

    /** Backward subsumption has settled what is not queued. */
    ghost predicate Tidy()
      reads this`ca, this`del, this`trail, this`subsumption_queue, this`bwdsub_assigns, this`touched
    {
      && Settling(subsumption_lim, D(), subsumption_queue, bwdsub_assigns)
      && Covered(subsumption_lim, D(), subsumption_queue, touched)
    }

    predicate Finished()
      reads this`trail, this`subsumption_queue, this`bwdsub_assigns
    {
      subsumption_queue == [] && bwdsub_assigns == |trail|
    }

    /** The clause that propagation looks at next, whatever the watch lists make it. */
    const next: Db -> nat

    function Value(l: Lit): LBool
      reads this`assigns
    {
      Assigned(assigns, l)
    }

    method RemoveClause(cr: nat, ghost gone: set<nat>)
      requires Shape(gone) && cr < |ca|
      modifies this`del
      ensures Shape(gone) && D() == Removed(old(D()), cr)
    {
      ShapeRemoved(D(), cr, |assigns|, gone, abs, occurs);
      del := del[cr := true];
    }

    /** A literal at level 0: nothing to do if it is true, a contradiction if it is false. */
    method Enqueue(p: Lit, ghost gone: set<nat>) returns (ok: bool)
      requires Shape(gone) && p.v < |assigns| && p.v !in gone
      modifies this`trail, this`assigns
      ensures Shape(gone) && |assigns| == |old(assigns)|
      ensures ok <==> Neg(p) !in old(trail)
      ensures trail == if p in old(trail) || !ok then old(trail) else old(trail) + [p]
      ensures assigns == if p in old(trail) || !ok then old(assigns)
                         else old(assigns)[p.v := if p.neg then False else True]
    {
      FalseValue(assigns, trail, p);
      if Value(p) != Undef {
        return Value(p) != False;
      }
      NewValue(assigns, trail, p);
      EnqueuedShape(D(), p, |assigns|, gone, abs, occurs);
      assigns := assigns[p.v := if p.neg then False else True];
      trail := trail + [p];
      ok := true;
    }

    /** How many literals of a clause are not false at level 0, as far as it matters. */
    method LookAt(c: Clause) returns (free: nat, u: Lit)
      requires ValuesOk(assigns, trail)
      ensures free == 0 ==> FalseBut(trail, c, [])
      ensures free == 1 ==> u in c && Value(u) == Undef && FalseBut(trail, c, [u])
      ensures free > 1 ==> forall x :: FalseBut(trail, c, [x]) ==> x in trail
    {
      free, u := 0, Lit(0, false);
      var i := 0;
      while i < |c|
        invariant 0 <= i <= |c| && free <= 1
        invariant free == 0 ==> FalseBut(trail, c[..i], [])
        invariant free == 1 ==> u in c && Value(u) == Undef && FalseBut(trail, c[..i], [u])
      {
        FalseValue(assigns, trail, c[i]);
        assert c[..i + 1] == c[..i] + [c[i]] && c[i] in c;
        if Value(c[i]) == True || (free == 1 && Value(c[i]) == Undef && c[i] != u) {
          TwoFree(assigns, trail, c, u, c[i], free);
          return 2, u;
        }
        if Value(c[i]) == Undef {
          free, u := 1, c[i];
        }
        i := i + 1;
      }
      assert c[..i] == c;
    }

    /** Unit clauses give literals of level 0, in any order, until a clause is false or the clause looked
        at next has nothing to give. */
    method Propagate(ghost gone: set<nat>) returns (ok: bool)
      requires Shape(gone)
      modifies this`trail, this`assigns
      ensures Shape(gone) && |assigns| == |old(assigns)| && old(trail) <= trail
      ensures if ok then SameSat(old(D()), D()) && !Propagates(D(), next(D())) else NoModel(old(D()))
      ensures !Propagates(old(D()), next(old(D()))) ==> ok && D() == old(D())
      ensures ok && Thorough(next) ==> forall cr: nat :: Live(D(), cr) ==> AtRest(trail, ca[cr])
    {
      ghost var D0 := D();
      SameSatSelf(D0);
      while true
        invariant Shape(gone) && |assigns| == |old(assigns)| && old(trail) <= trail && SameSat(D0, D())
        invariant D() == D0 || Propagates(D0, next(D0))
        decreases Unassigned(assigns)
      {
        var cr := next(D());
        if cr >= |ca| || del[cr] {
          NothingMore(next, D(), |assigns|, gone);
          return true;
        }
        var free, u := LookAt(ca[cr]);
        if free > 1 {
          NothingMore(next, D(), |assigns|, gone);
          return true;
        }
        ghost var D1 := D();
        assert LiveOk(ca[cr], |assigns|, gone);
        UnitPropagates(D1, cr, assigns, free, u);
        if free == 0 {
          FalseConflict(D1, cr);
          NoModelBefore(D0, D1);
          return false;
        }
        UnitImplied(D1, cr, u);
        FalseValue(assigns, trail, u);
        FewerUnassigned(assigns, u);
        ok := Enqueue(u, gone);
        SameSatTrans(D0, D1, D());
      }
    }

    /** A literal at level 0 and all that follows from it. */
    method EnqueueAll(p: Lit, ghost gone: set<nat>) returns (ok: bool)
      requires Shape(gone) && p.v < |assigns| && p.v !in gone
      modifies this`trail, this`assigns
      ensures Shape(gone) && |assigns| == |old(assigns)| && old(trail) <= trail
      ensures if ok then SameSat(Enqueued(old(D()), p), D()) && p in trail else NoModel(Enqueued(old(D()), p))
      ensures ok && Open(old(trail), p) ==> UnitAdded(old(D()), D(), p, next)
    {
      ghost var D0 := D();
      ok := Enqueue(p, gone);
      EnqueuedSat(D0, p, D(), ok);
      if ok {
        ghost var D1 := D();
        ok := Propagate(gone);
        if ok {
          SameSatTrans(Enqueued(D0, p), D1, D());
        } else {
          NoModelBefore(Enqueued(D0, p), D1);
        }
      }
    }

    /** Takes a literal out of a clause. A clause of one literal goes to the trail. */
    method StrengthenClause(cr: nat, l: Lit, ghost gone: set<nat>) returns (ok: bool)
      requires Shape(gone) && Live(D(), cr) && l in ca[cr]
      modifies this`ca, this`abs, this`del, this`trail, this`assigns, this`occurs, this`subsumption_queue
      ensures Shape(gone) && |assigns| == |old(assigns)| && OnlyChanged(old(D()), D(), cr)
      ensures subsumption_queue == old(subsumption_queue) + [cr] && old(trail) <= trail
      ensures ca[cr] == Without(old(ca)[cr], l) && |ca[cr]| < |old(ca)[cr]| && (Live(D(), cr) <==> |old(ca)[cr]| > 2)
      ensures occurs == if Live(D(), cr)
        then old(occurs)[l.v := RemoveFirst(OccOf(old(occurs), l.v), cr)] else old(occurs)
      ensures ok ==> SameSat(Shortened(old(D()), cr, l), D())
      ensures !ok ==> NoModel(Shortened(old(D()), cr, l))
    {
      hide AbsOk, OccursOk, ValuesOk;
      subsumption_queue := subsumption_queue + [cr];
      WithoutDistinct(ca[cr], l);
      WithoutLength(ca[cr], l);
      if |ca[cr]| == 2 {
        ok := StrengthenToUnit(cr, l, gone);
      } else {
        StrengthenLong(cr, l, gone);
        ok := true;
      }
    }

    method StrengthenLong(cr: nat, l: Lit, ghost gone: set<nat>)
      requires Shape(gone) && Live(D(), cr) && l in ca[cr] && |ca[cr]| > 2
      requires DistinctVars(Without(ca[cr], l)) && |Without(ca[cr], l)| == |ca[cr]| - 1
      modifies this`ca, this`abs, this`occurs
      ensures Shape(gone) && D() == Shortened(old(D()), cr, l)
      ensures occurs == old(occurs)[l.v := RemoveFirst(OccOf(old(occurs), l.v), cr)]
    {
      var c := Without(ca[cr], l);
      ShapeShorter(D(), cr, c, |assigns|, gone);
      OccursShorter(D(), occurs, cr, l);
      var a := CalcAbstraction(c);
      AbsShorter(D(), abs, cr, c, a);
      ca, abs := ca[cr := c], abs[cr := a];
      occurs := occurs[l.v := RemoveFirst(OccOf(occurs, l.v), cr)];
    }

    method StrengthenToUnit(cr: nat, l: Lit, ghost gone: set<nat>) returns (ok: bool)
      requires Shape(gone) && Live(D(), cr) && l in ca[cr] && |ca[cr]| == 2 && |Without(ca[cr], l)| == 1
      modifies this`ca, this`del, this`trail, this`assigns
      ensures Shape(gone) && |assigns| == |old(assigns)| && OnlyChanged(old(D()), D(), cr) && !Live(D(), cr)
      ensures ca[cr] == Without(old(ca)[cr], l) && old(trail) <= trail
      ensures ok ==> SameSat(Shortened(old(D()), cr, l), D())
      ensures !ok ==> NoModel(Shortened(old(D()), cr, l))
    {
      hide AbsOk, OccursOk, ValuesOk;
      ghost var D0 := D();
      var c := Without(ca[cr], l);
      var u := c[0];
      assert u in c && c == [u];
      RemoveClause(cr, gone);
      DeadClause(D(), cr, c, |assigns|, gone, abs, occurs);
      ca := ca[cr := c];
      ghost var D1 := Shortened(D0, cr, l);
      assert D() == Removed(D1, cr);
      UnitToTrail(D1, cr, u);
      ok := EnqueueAll(u, gone);
      if ok {
        SameSatTrans(D1, Enqueued(Removed(D1, cr), u), D());
      } else {
        NoModelBefore(D1, Enqueued(Removed(D1, cr), u));
      }
    }

    // ----- backward subsumption -----

    /** The variable of the clause with the fewest clauses. */
    method BestVar(c: Clause) returns (best: nat)
      requires c != []
      ensures best in VarsOf(c) && forall l :: l in c ==> |OccOf(occurs, best)| <= |OccOf(occurs, l.v)|
    {
      best := c[0].v;
      var i := 1;
      assert c[0] in c;
      while i < |c|
        invariant 1 <= i <= |c| && best in VarsOf(c)
        invariant forall k :: 0 <= k < i ==> |OccOf(occurs, best)| <= |OccOf(occurs, c[k].v)|
      {
        assert c[i] in c;
        if |OccOf(occurs, c[i].v)| < |OccOf(occurs, best)| { best := c[i].v; }
        i := i + 1;
      }
    }

    /** Compares one clause with a candidate; k is the clause's number, or negative for a literal of
        level 0. */
    method TryOne(c: Clause, cabs: bv32, k: int, cr: nat, ghost gone: set<nat>) returns (ok: bool, verdict: Verdict)
      requires Shape(gone) && Source(D(), c, k) && DistinctVars(c) && cabs == Abstraction(Bit, c) && Live(D(), cr)
        && k != cr
      requires Short(subsumption_lim, ca[cr])
      modifies this`ca, this`abs, this`del, this`trail, this`assigns, this`occurs, this`subsumption_queue
      ensures Shape(gone) && |assigns| == |old(assigns)| && |ca| == |old(ca)|
      ensures ok ==> SameSat(old(D()), D()) && Source(D(), c, k)
      ensures ok ==>
        Shrunk(subsumption_lim, old(D()), D(), old(subsumption_queue), subsumption_queue)
        && (Live(D(), cr) ==> Harmless(c, ca[cr]))
      ensures ok ==> ListsAfter(old(occurs), occurs, cr, verdict, Live(D(), cr))
      ensures ok && verdict != Nothing ==> Weight(D(), |ca|) < Weight(old(D()), |ca|)
      ensures ok && verdict == Nothing ==>
        D() == old(D()) && occurs == old(occurs) && subsumption_queue == old(subsumption_queue)
      ensures !ok ==> NoModel(old(D()))
      ensures Harmless(c, old(ca)[cr]) ==> ok && verdict == Nothing
    {
      SameSatSelf(D());
      ShrunkSelf(subsumption_lim, D(), subsumption_queue);
      verdict := CheckSubsumes(c, cabs, ca[cr], abs[cr]);
      if verdict == Nothing {
        return true, verdict;
      }
      ok := Apply(c, k, cr, verdict, gone);
    }

    /** The candidate is subsumed, or loses a literal. */
    method Apply(c: Clause, k: int, cr: nat, verdict: Verdict, ghost gone: set<nat>) returns (ok: bool)
      requires Shape(gone) && Source(D(), c, k) && DistinctVars(c) && Live(D(), cr) && k != cr && verdict != Nothing
      requires Short(subsumption_lim, ca[cr])
      requires verdict == Subsumes ==> Subset(c, ca[cr])
      requires verdict.Strengthens? ==> Flips(c, ca[cr], verdict.p)
      modifies this`ca, this`abs, this`del, this`trail, this`assigns, this`occurs, this`subsumption_queue
      ensures Shape(gone) && |assigns| == |old(assigns)| && |ca| == |old(ca)|
      ensures if ok then SameSat(old(D()), D()) && Source(D(), c, k) else NoModel(old(D()))
      ensures ok ==> Weight(D(), |ca|) < Weight(old(D()), |ca|)
      ensures ok ==>
        Shrunk(subsumption_lim, old(D()), D(), old(subsumption_queue), subsumption_queue)
        && (Live(D(), cr) ==> Harmless(c, ca[cr]))
      ensures ok ==> ListsAfter(old(occurs), occurs, cr, verdict, Live(D(), cr))
    {
      ghost var D0 := D();
      assert LiveOk(ca[cr], |assigns|, gone);
      if verdict == Subsumes {
        RemoveSubsumed(D0, c, k, cr);
        RemovedShrunk(subsumption_lim, D0, cr, subsumption_queue);
        RemoveClause(cr, gone);
        WeightLess(D0, D(), cr, |ca|);
        ok := true;
      } else {
        ShortenSame(D0, c, k, cr, verdict.p);
        ok := StrengthenClause(cr, Neg(verdict.p), gone);
        AfterStrengthening(D0, D(), c, k, cr, verdict.p, ok);
        StrengthenedShrunk(subsumption_lim, D0, D(), cr, Neg(verdict.p), old(subsumption_queue));
        StrengthenedHarmless(c, D0.ca[cr], verdict.p);
      }
    }

    /** Tries the clause on the j-th entry of the list. The list may lose it, and then another one has
        taken its place. */
    method TryEntry(c: Clause, cabs: bv32, k: int, best: nat, j: nat, ghost ca0: seq<Clause>, ghost gone: set<nat>)
      returns (ok: bool, again: bool)
      requires Shape(gone) && Source(D(), c, k) && DistinctVars(c) && cabs == Abstraction(Bit, c)
      requires j < |OccOf(occurs, best)| && Live(D(), OccOf(occurs, best)[j]) && OccOf(occurs, best)[j] != k
      requires Short(subsumption_lim, ca[OccOf(occurs, best)[j]])
      requires ListTried(subsumption_lim, ca0, D(), c, k, OccOf(occurs, best), j)
      modifies this`ca, this`abs, this`del, this`trail, this`assigns, this`occurs, this`subsumption_queue
      ensures Shape(gone) && |assigns| == |old(assigns)| && |ca| == |old(ca)|
      ensures if ok then SameSat(old(D()), D()) && Source(D(), c, k) else NoModel(old(D()))
      ensures ok ==> Shrunk(subsumption_lim, old(D()), D(), old(subsumption_queue), subsumption_queue)
      ensures ok ==> ListTried(subsumption_lim, ca0, D(), c, k, OccOf(occurs, best), if again then j else j + 1)
      ensures ok ==> Weight(D(), |ca|) < Weight(old(D()), |ca|)
                     || (!again && D() == old(D()) && occurs == old(occurs)
                        && subsumption_queue == old(subsumption_queue))
      ensures Harmless(c, old(ca)[OccOf(old(occurs), best)[j]]) ==> ok && D() == old(D())
    {
      ghost var D1, queue1, list1 := D(), subsumption_queue, OccOf(occurs, best);
      assert OccListOk(D1, best, list1);
      var verdict;
      ok, verdict := TryOne(c, cabs, k, OccOf(occurs, best)[j], gone);
      again := verdict.Strengthens? && verdict.p.v == best;
      if ok {
        ListReduced(subsumption_lim, ca0, D1, D(), c, k, list1, j);
        ListStep(subsumption_lim, ca0, D(), c, k, list1, OccOf(occurs, best), j, verdict, best);
      }
    }

    /** One step of the walk: the entry is tried, unless it is removed, the clause itself or too long. */
    method TryNext(c: Clause, cabs: bv32, k: int, best: nat, j: nat, ghost D0: Db, ghost queue0: seq<nat>,
        ghost gone: set<nat>)
      returns (ok: bool, j': nat)
      requires Shape(gone) && Source(D(), c, k) && DistinctVars(c) && cabs == Abstraction(Bit, c)
        && j < |OccOf(occurs, best)|
      requires Shrunk(subsumption_lim, D0, D(), queue0, subsumption_queue)
        && ListTried(subsumption_lim, D0.ca, D(), c, k, OccOf(occurs, best), j)
      modifies this`ca, this`abs, this`del, this`trail, this`assigns, this`occurs, this`subsumption_queue
      ensures Shape(gone) && |assigns| == |old(assigns)| && |ca| == |old(ca)|
      ensures if ok then SameSat(old(D()), D()) && Source(D(), c, k) else NoModel(old(D()))
      ensures ok ==>
        Shrunk(subsumption_lim, D0, D(), queue0, subsumption_queue)
        && ListTried(subsumption_lim, D0.ca, D(), c, k, OccOf(occurs, best), j')
      ensures ok ==> Weight(D(), |ca|) < Weight(old(D()), |ca|)
                     || (j' == j + 1 && D() == old(D()) && occurs == old(occurs)
                        && subsumption_queue == old(subsumption_queue))
      ensures Tried(subsumption_lim, old(ca), old(D()), c, k) ==> ok && D() == old(D())
    {
      var cr := OccOf(occurs, best)[j];
      CandidateBound(D(), occurs, best, j);
      if del[cr] || cr == k || !(subsumption_lim == -1 || |ca[cr]| < subsumption_lim) {
        SkipEntry(subsumption_lim, D0, D(), c, k, OccOf(occurs, best), j);
        return true, j + 1;
      }
      ghost var D1, queue1 := D(), subsumption_queue;
      var again;
      ok, again := TryEntry(c, cabs, k, best, j, D0.ca, gone);
      j' := if again then j else j + 1;
      if ok {
        ShrunkTrans(subsumption_lim, D0, D1, D(), queue0, queue1, subsumption_queue);
      }
    }

    /** Tries the clause on all clauses with one of its variables. */
    method TryAll(c: Clause, cabs: bv32, k: int, best: nat, ghost gone: set<nat>) returns (ok: bool)
      requires Shape(gone) && Source(D(), c, k) && DistinctVars(c) && cabs == Abstraction(Bit, c) && best in VarsOf(c)
      modifies this`ca, this`abs, this`del, this`trail, this`assigns, this`occurs, this`subsumption_queue
      ensures Shape(gone) && |assigns| == |old(assigns)| && |ca| == |old(ca)|
      ensures if ok then SameSat(old(D()), D()) && Source(D(), c, k) else NoModel(old(D()))
      ensures ok ==> Progress(old(D()), D(), old(subsumption_queue), subsumption_queue)
      ensures ok ==>
        Shrunk(subsumption_lim, old(D()), D(), old(subsumption_queue), subsumption_queue)
        && Tried(subsumption_lim, old(ca), D(), c, k)
      ensures Tried(subsumption_lim, old(ca), old(D()), c, k) ==> ok && D() == old(D())
    {
      ghost var D0 := D();
      SameSatSelf(D0);
      ShrunkSelf(subsumption_lim, D0, subsumption_queue);
      var j: nat := 0;
      while j < |OccOf(occurs, best)|
        invariant Shape(gone) && Source(D(), c, k) && |assigns| == |old(assigns)| && |ca| == |old(ca)|
        invariant SameSat(D0, D()) && Progress(D0, D(), old(subsumption_queue), subsumption_queue)
        invariant Shrunk(subsumption_lim, D0, D(), old(subsumption_queue), subsumption_queue)
        invariant ListTried(subsumption_lim, D0.ca, D(), c, k, OccOf(occurs, best), j)
        invariant Tried(subsumption_lim, D0.ca, D0, c, k) ==> D() == D0
        decreases Weight(D(), |ca|), |OccOf(occurs, best)| - j
      {
        if k >= 0 && del[k] { break; }
        ghost var D1 := D();
        ok, j := TryNext(c, cabs, k, best, j, D0, old(subsumption_queue), gone);
        if !ok {
          NoModelBefore(D0, D1);
          return false;
        }
        SameSatTrans(D0, D1, D());
      }
      AllTried(subsumption_lim, D0.ca, D(), c, k, best, OccOf(occurs, best));
      ok := true;
    }

    /** Takes clauses from the queue, and literals of level 0 when it is empty, until nothing is left to
        try: no clause that was queued or strengthened, and no new literal of level 0, subsumes or
        strengthens a live clause that was short. Models are neither lost nor won, and failure means
        that there is none. */
    method BackwardSubsumptionCheck(ghost gone: set<nat>) returns (ok: bool)
      requires Shape(gone)
      modifies this`ca, this`abs, this`del, this`trail, this`assigns, this`occurs, this`subsumption_queue,
        this`bwdsub_assigns
      ensures Shape(gone) && |assigns| == |old(assigns)| && |ca| == |old(ca)|
      ensures if ok then SameSat(old(D()), D()) else NoModel(old(D()))
      ensures ok ==> subsumption_queue == [] && bwdsub_assigns == |trail|
      ensures ok ==> Worked(subsumption_lim, old(D()), D(), old(subsumption_queue), [], old(bwdsub_assigns), |trail|)
      ensures ok ==> Reduced(subsumption_lim, old(D()), D())
      ensures Idle(subsumption_lim, old(D())) ==> ok && D() == old(D())
    {
      ghost var D0 := D();
      SameSatSelf(D0);
      while |subsumption_queue| > 0 || bwdsub_assigns < |trail|
        invariant Shape(gone) && |assigns| == |old(assigns)| && |ca| == |old(ca)| && SameSat(D0, D())
        invariant Worked(subsumption_lim, D0, D(), old(subsumption_queue), subsumption_queue, old(bwdsub_assigns),
          bwdsub_assigns)
        invariant Reduced(subsumption_lim, D0, D()) && (Idle(subsumption_lim, D0) ==> D() == D0)
        decreases Weight(D(), |ca|), |trail| - bwdsub_assigns, |subsumption_queue|
      {
        ghost var D1, queue1, at1 := D(), subsumption_queue, bwdsub_assigns;
        ok := CheckNext(gone);
        if !ok {
          NoModelBefore(D0, D1);
          return false;
        }
        SameSatTrans(D0, D1, D());
        NextWorked(subsumption_lim, D0, D1, D(), old(subsumption_queue), queue1, subsumption_queue, old(bwdsub_assigns),
          at1, bwdsub_assigns);
      }
      ok := true;
    }

    method CheckNext(ghost gone: set<nat>) returns (ok: bool)
      requires Shape(gone) && (|subsumption_queue| > 0 || bwdsub_assigns < |trail|)
      modifies this`ca, this`abs, this`del, this`trail, this`assigns, this`occurs, this`subsumption_queue,
        this`bwdsub_assigns
      ensures Shape(gone) && |assigns| == |old(assigns)| && |ca| == |old(ca)|
      ensures if ok then SameSat(old(D()), D()) else NoModel(old(D()))
      ensures ok ==> (Weight(D(), |ca|) < Weight(old(D()), |ca|)
                      || (D() == old(D()) && Consumed(old(subsumption_queue), subsumption_queue, old(bwdsub_assigns),
                         bwdsub_assigns)))
      ensures ok ==>
        OneTried(subsumption_lim, old(D()), D(), old(subsumption_queue), subsumption_queue, old(bwdsub_assigns),
        bwdsub_assigns)
      ensures Idle(subsumption_lim, old(D())) ==> ok && D() == old(D())
    {
      SameSatSelf(D());
      ghost var D1, queue1, at1 := D(), subsumption_queue, bwdsub_assigns;
      var c, k := TakeNext(gone);
      ghost var queue2 := subsumption_queue;
      if k >= 0 && del[k] {
        RemovedTried(subsumption_lim, D1, queue1, queue2, at1);
        return true;
      }
      ok := TryTaken(c, k, gone);
      if ok {
        TakenTried(subsumption_lim, D1, D(), queue1, queue2, subsumption_queue, at1, bwdsub_assigns, c, k);
      }
    }

    method TryTaken(c: Clause, k: int, ghost gone: set<nat>) returns (ok: bool)
      requires Shape(gone) && Source(D(), c, k) && DistinctVars(c) && c != [] && -1 <= k
      modifies this`ca, this`abs, this`del, this`trail, this`assigns, this`occurs, this`subsumption_queue
      ensures Shape(gone) && |assigns| == |old(assigns)| && |ca| == |old(ca)|
      ensures if ok then SameSat(old(D()), D()) && Source(D(), c, k) else NoModel(old(D()))
      ensures ok ==> Progress(old(D()), D(), old(subsumption_queue), subsumption_queue)
      ensures ok ==> Shrunk(subsumption_lim, old(D()), D(), old(subsumption_queue), subsumption_queue)
      ensures ok ==> Tried(subsumption_lim, old(ca), D(), c, k)
      ensures Idle(subsumption_lim, old(D())) ==> ok && D() == old(D())
    {
      var cabs := CalcAbstraction(c);
      var best := BestVar(c);
      IdleTried(subsumption_lim, D(), c, k);
      ok := TryAll(c, cabs, k, best, gone);
    }

    /** The next clause of the queue, or a literal of level 0 as a clause. */
    method TakeNext(ghost gone: set<nat>) returns (c: Clause, k: int)
      requires Shape(gone) && (|subsumption_queue| > 0 || bwdsub_assigns < |trail|)
      modifies this`subsumption_queue, this`bwdsub_assigns
      ensures Shape(gone) && Consumed(old(subsumption_queue), subsumption_queue, old(bwdsub_assigns), bwdsub_assigns)
      ensures -1 <= k < |del| && c != [] && DistinctVars(c) && ((k >= 0 && del[k]) || Source(D(), c, k))
      ensures if old(subsumption_queue) == [] then k == -1 && c == [trail[old(bwdsub_assigns)]]
              else k == old(subsumption_queue)[0] && subsumption_queue == old(subsumption_queue)[1..]
    {
      if |subsumption_queue| == 0 {
        var l := trail[bwdsub_assigns];
        assert l in trail;
        bwdsub_assigns := bwdsub_assigns + 1;
        return [l], -1;
      }
      k := subsumption_queue[0];
      assert k in subsumption_queue && forall i :: i in subsumption_queue[1..] ==> i in subsumption_queue;
      subsumption_queue := subsumption_queue[1..];
      c := if del[k] then [Lit(0, false)] else ca[k];
      assert !del[k] ==> Live(D(), k);
    }

    // ----- adding a clause -----

    /** The open literals of a clause, each once; none of them if the clause is redundant. */
    method Simplify(c: Clause) returns (redundant: bool, out: Clause)
      requires ValuesOk(assigns, trail)
      ensures redundant <==> Redundant(trail, c)
      ensures !redundant ==> Rest(trail, c, out)
    {
      hide ValuesOk, RestSoFar, Rest, Redundant, SortedLits;
      var ps := SortLits(c);
      SameElements(c, ps);
      NothingRead(trail, ps);
      out := [];
      var i := 0;
      while i < |ps|
        invariant 0 <= i <= |ps| && RestSoFar(trail, ps, i, out) && !Redundant(trail, ps[..i])
        invariant forall k, j :: 0 <= k < j < |out| ==> out[k].v < out[j].v
      {
        FalseValue(assigns, trail, ps[i]);
        if Value(ps[i]) == True || (out != [] && ps[i] == Neg(out[|out| - 1])) {
          RedundantFound(trail, c, ps, i, out);
          return true, [];
        }
        StillOpen(trail, ps, i, out);
        if Value(ps[i]) != False && (out == [] || ps[i] != out[|out| - 1]) {
          RestTakes(trail, ps, i, out);
          out := out + [ps[i]];
        } else {
          RestSkips(trail, ps, i, out);
        }
        i := i + 1;
      }
      AllRead(trail, c, ps, out);
      redundant := false;
    }

    /** Adds a clause as far as it says something new. */
    method AddClause(c: Clause, ghost gone: set<nat>, ghost D0: Db) returns (ok: bool)
      requires Shape(gone) && Over(c, |assigns|, gone) && D0 == D()
      modifies this`ca, this`abs, this`del, this`trail, this`assigns, this`occurs, this`subsumption_queue,
               this`touched, this`n_touched
      ensures Shape(gone) && |assigns| == |old(assigns)|
      ensures ok ==> AddedTo(D0, D(), c) && Took(D0, D(), c, next) && (old(Tidy()) ==> Tidy())
      ensures ok ==> subsumption_queue == Requeued(D0, D(), old(subsumption_queue))
      ensures !ok ==> forall A: iset<nat> :: !(Sat(A, D0) && Satisfied(A, c))
    {
      var redundant, out := Simplify(c);
      if redundant {
        var l: Lit :| l in c && (l in trail || Neg(l) in c);
        AddNothing(D0, c, l);
        return true;
      }
      if out == [] {
        forall A: iset<nat> ensures !(Sat(A, D0) && Satisfied(A, c)) {
          AddEmpty(D0, c, A);
        }
        return false;
      }
      ok := AddRest(c, out, gone, D0);
      if ok && old(Tidy()) {
        TookSettles(subsumption_lim, D0, D(), c, next, old(subsumption_queue), bwdsub_assigns);
        NonEmptyClauses(D0, |assigns|, gone);
        TookCovers(subsumption_lim, D0, D(), c, next, old(subsumption_queue), old(touched), touched);
      }
    }

    /** A unit is propagated, a longer clause appended. */
    method AddRest(c: Clause, out: Clause, ghost gone: set<nat>, ghost D0: Db) returns (ok: bool)
      requires Shape(gone) && Over(c, |assigns|, gone) && D0 == D() && Rest(trail, c, out) && out != []
      modifies this`ca, this`abs, this`del, this`trail, this`assigns, this`occurs, this`subsumption_queue,
               this`touched, this`n_touched
      ensures Shape(gone) && |assigns| == |old(assigns)|
      ensures ok ==> AddedTo(D0, D(), c) && RestAdded(D0, D(), out, next)
      ensures ok ==>
        subsumption_queue == Requeued(D0, D(), old(subsumption_queue)) && Touches(D0, D(), old(touched), touched)
      ensures !ok ==> forall A: iset<nat> :: !(Sat(A, D0) && Satisfied(A, c))
    {
      if |out| == 1 {
        assert out == [out[0]] && out[0] in out;
        AddLiteral(D0, c, out[0]);
        ghost var D1 := Enqueued(D0, out[0]);
        ok := EnqueueAll(out[0], gone);
        if ok {
          AddPropagated(D0, D1, D(), c);
        } else {
          NonePropagated(D0, D1, c);
        }
      } else {
        AddShorter(D0, c, out);
        Append(out, gone);
        ok := true;
      }
    }

    method Append(c: Clause, ghost gone: set<nat>)
      requires Shape(gone) && LiveOk(c, |assigns|, gone)
      modifies this`ca, this`abs, this`del, this`occurs, this`subsumption_queue,
               this`touched, this`n_touched
      ensures Shape(gone) && D() == Appended(old(D()), c) && subsumption_queue == old(subsumption_queue) + [|old(ca)|]
      ensures Touches(old(D()), D(), old(touched), touched)
    {
      hide DbOk, AbsOk, OccursOk, ValuesOk, LiveOk;
      assert forall l :: l in c ==> l.v < |assigns| by {
        LiveBelow(c, |assigns|, gone);
      }
      Touch(c);
      AppendLive(c, gone);
    }

    method AppendLive(c: Clause, ghost gone: set<nat>)
      requires Shape(gone) && LiveOk(c, |assigns|, gone)
      modifies this`ca, this`abs, this`del, this`occurs, this`subsumption_queue
      ensures Shape(gone) && D() == Appended(old(D()), c) && subsumption_queue == old(subsumption_queue) + [|old(ca)|]
    {
      var a := CalcAbstraction(c);
      AddedShape(D(), c, a, |assigns|, gone, abs, occurs);
      hide DbOk, AbsOk, OccursOk, ValuesOk, Abstraction, OccursWith;
      var cr := |ca|;
      var more := PushOccurs(c, cr);
      occurs := more;
      ca, abs, del := ca + [c], abs + [a], del + [false];
      subsumption_queue := subsumption_queue + [cr];
    }

    /** Marks the variables of a new clause. */
    method Touch(c: Clause)
      requires |touched| == |assigns| && (n_touched == 0 ==> NoneTouched(touched))
        && forall l :: l in c ==> l.v < |assigns|
      modifies this`touched, this`n_touched
      ensures |touched| == |assigns| && (n_touched == 0 ==> NoneTouched(touched))
      ensures (forall v :: 0 <= v < |touched| && old(touched)[v] ==> touched[v]) && forall l :: l in c ==> touched[l.v]
    {
      var i := 0;
      while i < |c|
        invariant 0 <= i <= |c| && |touched| == |assigns| && (n_touched == 0 ==> NoneTouched(touched))
        invariant forall v :: 0 <= v < |touched| && old(touched)[v] ==> touched[v]
        invariant forall k :: 0 <= k < i ==> c[k].v < |touched| && touched[c[k].v]
      {
        assert c[i] in c;
        touched, n_touched := touched[c[i].v := true], n_touched + 1;
        i := i + 1;
      }
    }

    method PushOccurs(c: Clause, cr: nat) returns (more: Occurs)
      ensures more == OccursWith(occurs, c, cr, |c|)
    {
      more := occurs;
      var i := 0;
      while i < |c|
        invariant 0 <= i <= |c| && more == OccursWith(occurs, c, cr, i)
      {
        more := more[c[i].v := OccOf(more, c[i].v) + [cr]];
        i := i + 1;
      }
    }

    // ----- variable elimination -----

    /** The stack is what the blocks say, reading it never meets a variable without a value, and from
        every model of what is left it makes a model of all clauses there ever were. */
    ghost predicate Valid()
      reads this
    {
      && Shape(gone) && |eliminated| == |assigns| == |frozen| && Marks(eliminated, gone)
      && elimclauses == Flat(blocks) && StackOk(D(), all, blocks, |assigns|, gone) && Tidy()
    }

    constructor (n: nat, subsumption_lim: int, grow: int, clause_lim: int, frozen: seq<bool>, next: Db -> nat)
      requires |frozen| == n
      ensures Valid() && all == [] && gone == {} && |assigns| == n && D() == Db([], [], [])
      ensures this.subsumption_lim == subsumption_lim && this.grow == grow && this.clause_lim == clause_lim
        && this.next == next
      ensures this.frozen == frozen
    {
      ca, abs, del, trail, assigns, occurs := [], [], [], [], seq(n, _ => Undef), map[];
      subsumption_queue, bwdsub_assigns, elimclauses, eliminated := [], 0, [], seq(n, _ => false);
      this.subsumption_lim, this.grow, this.clause_lim, this.next := subsumption_lim, grow, clause_lim, next;
      touched, n_touched, this.frozen := seq(n, _ => false), 0, frozen;
      blocks, gone, all, clean := [], {}, [], true;
    }

    /** One more clause of the formula. */
    method AddOriginal(c: Clause) returns (ok: bool)
      requires Valid() && Over(c, |assigns|, gone)
      modifies this
      ensures all == old(all) + [c] && |assigns| == |old(assigns)| && gone == old(gone)
      ensures if ok then Valid() && Took(old(D()), D(), c, next) else Contradictory(all)
      ensures TrailOver(old(trail), gone) ==> TrailOver(trail, gone)
    {
      hide StackOk, Settling, Covered, DbOk, AbsOk, OccursOk, ValuesOk, Marks, Took;
      ghost var D0 := D();
      clean := TrailOver(trail, gone);
      ok := AddClause(c, gone, D0);
      if ok {
        MoreToRestore(D0, D(), all, blocks, c, |assigns|, gone);
      } else {
        NoneWithMore(D0, all, blocks, c, |assigns|, gone);
      }
      all := all + [c];
    }

    ghost function Now(): Stage
      reads this`ca, this`del, this`trail, this`gone
    {
      Stage(D(), gone)
    }

    ghost function Bounds(): Limits {
      Limits(frozen, grow, clause_lim, subsumption_lim)
    }

    /** Preprocessing: each round gathers the touched clauses, subsumes with them, and eliminates the
        variables that the heap holds, in any order. It ends after the last round, or before one that
        would find nothing to do. */
    method Eliminate(orders: seq<seq<nat>>) returns (ok: bool, ghost rounds: seq<Round>)
      requires Valid()
      modifies this
      ensures all == old(all) && |assigns| == |old(assigns)| && old(gone) <= gone
      ensures if ok then Valid() else Contradictory(all)
      ensures ok ==> Rounds(Bounds(), orders, rounds, old(Now()), Now())
      ensures ok ==>
        |rounds| == |orders|
        || (|rounds| < |orders| && orders[|rounds|] == [] && n_touched == 0 && bwdsub_assigns == |trail|)
      ensures ok ==> forall v: nat :: v in gone && v !in old(gone) ==> v < |frozen| && !frozen[v]
      ensures ok && Safe(subsumption_lim, clause_lim) && TrailOver(old(trail), old(gone)) ==> TrailOver(trail, gone)
    {
      hide Turns, Rounds, Shape, StackOk, Tidy, Marks, Idle, SameSat;
      ok, rounds := true, [];
      NoRounds(Bounds(), orders, Now());
      var i := 0;
      while ok && i < |orders| && (n_touched > 0 || bwdsub_assigns < |trail| || orders[i] != [])
        invariant 0 <= i <= |orders| && all == old(all) && |assigns| == |old(assigns)| && old(gone) <= gone
        invariant if ok then Valid() && |rounds| == i else Contradictory(all)
        invariant ok ==> Rounds(Bounds(), orders, rounds, old(Now()), Now())
        invariant ok && Safe(subsumption_lim, clause_lim) && TrailOver(old(trail), old(gone)) ==> TrailOver(trail, gone)
        decreases |orders| - i
      {
        ghost var round;
        ok, round := OneRound(orders[i]);
        if ok {
          OneMoreRound(Bounds(), orders, rounds, old(Now()), round, Now());
          rounds := rounds + [round];
        }
        i := i + 1;
      }
      if ok {
        QueueWithin();
        RoundsDecide(Bounds(), orders, rounds, old(Now()), Now());
      }
    }

    lemma QueueWithin()
      requires Valid()
      ensures bwdsub_assigns <= |trail|
    {
    }

    method OneRound(order: seq<nat>) returns (ok: bool, ghost round: Round)
      requires Valid()
      modifies this
      ensures all == old(all) && |assigns| == |old(assigns)| && old(gone) <= gone
      ensures if ok then Valid() else Contradictory(all)
      ensures ok ==> round.before == old(Now()) && RoundOk(Bounds(), order, round, Now())
      ensures ok && Safe(subsumption_lim, clause_lim) && TrailOver(old(trail), old(gone)) ==> TrailOver(trail, gone)
    {
      hide Turns, Shape, StackOk, Tidy, Marks, Idle, SameSat;
      round := Round(Now(), []);
      ok := Prepare();
      if ok {
        ghost var stages;
        ok, stages := EliminateAll(order);
        round := Round(round.before, stages);
      }
    }

    /** Subsumption before variables are eliminated. Once it has ended, no live clause that is short is
        subsumed, or can be strengthened, by any live clause or any literal of level 0. */
    method Prepare() returns (ok: bool)
      requires Valid()
      modifies this
      ensures all == old(all) && |assigns| == |old(assigns)| && gone == old(gone)
      ensures if ok then Valid() && Finished() && Idle(subsumption_lim, D()) else Contradictory(all)
      ensures ok ==> SameSat(old(D()), D())
      ensures ok && TrailOver(old(trail), gone) ==> TrailOver(trail, gone)
    {
      hide StackOk, Settling, Covered, DbOk, AbsOk, OccursOk, ValuesOk, Marks, Idle;
      SameSatSelf(D());
      clean := TrailOver(trail, gone);
      GatherTouchedClauses();
      ok := true;
      if |subsumption_queue| > 0 || bwdsub_assigns < |trail| {
        ok := CheckAfter();
      }
      if ok {
        NothingToFind(subsumption_lim, D(), touched);
      }
    }

    /** One turn after the other, of the variables that are neither eliminated, nor assigned, nor frozen. */
    method EliminateAll(order: seq<nat>) returns (ok: bool, ghost stages: seq<Stage>)
      requires Valid() && Finished()
      modifies this
      ensures all == old(all) && |assigns| == |old(assigns)| && old(gone) <= gone
      ensures if ok then Valid() && Finished() else Contradictory(all)
      ensures ok ==> Turns(Bounds(), order, stages) && stages[0] == old(Now()) && stages[|order|] == Now()
      ensures ok && Safe(subsumption_lim, clause_lim) && TrailOver(old(trail), old(gone)) ==> TrailOver(trail, gone)
    {
      hide Turn, Shape, StackOk, Tidy, Marks;
      ok, stages := true, [Now()];
      var i := 0;
      assert order[..0] == [];
      while ok && i < |order|
        invariant 0 <= i <= |order| && all == old(all) && |assigns| == |old(assigns)| && old(gone) <= gone
        invariant if ok then Valid() && Finished() else Contradictory(all)
        invariant ok ==> Turns(Bounds(), order[..i], stages) && stages[0] == old(Now()) && stages[i] == Now()
        invariant ok && Safe(subsumption_lim, clause_lim) && TrailOver(old(trail), old(gone)) ==> TrailOver(trail, gone)
        decreases |order| - i
      {
        ok := TakeTurn(order[i]);
        if ok {
          OneMoreTurn(Bounds(), order, i, stages, Now());
          stages := stages + [Now()];
        }
        i := i + 1;
      }
      assert order[..|order|] == order;
    }

    method TakeTurn(v: nat) returns (ok: bool)
      requires Valid() && Finished()
      modifies this
      ensures all == old(all) && |assigns| == |old(assigns)| && old(gone) <= gone
      ensures if ok then Valid() && Finished() && Turn(Bounds(), old(Now()), Now(), v) else Contradictory(all)
      ensures ok && Safe(subsumption_lim, clause_lim) && TrailOver(old(trail), old(gone)) ==> TrailOver(trail, gone)
    {
      hide DbOk, AbsOk, OccursOk, StackOk, Tidy, TooMuch;
      AssignedVar(assigns, trail, v);
      ok := true;
      if v < |assigns| && !eliminated[v] && Value(Lit(v, false)) == Undef && !frozen[v] {
        ok := EliminateVar(v);
      }
    }

    /** Queues all clauses with a touched variable. */
    method GatherTouchedClauses()
      requires Valid()
      modifies this`occurs, this`subsumption_queue, this`touched, this`n_touched
      ensures Valid() && n_touched == 0 && NoneTouched(touched) && old(subsumption_queue) <= subsumption_queue
      ensures forall i: nat :: Live(D(), i) && Touched(old(touched), ca[i]) ==> i in subsumption_queue
      ensures forall i :: i in subsumption_queue ==>
        i in old(subsumption_queue) || (Live(D(), i) && Touched(old(touched), ca[i]))
    {
      hide StackOk, Settling, Covered, DbOk, AbsOk, OccursOk, ValuesOk, Marks, Queued;
      if n_touched == 0 { return; }
      ghost var touched0, queue0 := touched, subsumption_queue;
      NothingQueued(D(), touched0, queue0);
      var i := 0;
      while i < |touched|
        invariant 0 <= i <= |touched| == |touched0| && Shape(gone) && n_touched > 0 && queue0 <= subsumption_queue
        invariant forall v :: 0 <= v < |touched| ==> touched[v] == (v >= i && touched0[v])
        invariant Queued(D(), touched0, queue0, subsumption_queue, i)
      {
        if touched[i] {
          ghost var queue1 := subsumption_queue;
          var cs := Lookup(i);
          QueueAll(cs);
          QueuedMore(D(), touched0, queue0, queue1, subsumption_queue, i, cs);
          touched := touched[i := false];
        } else {
          QueuedSkip(D(), touched0, queue0, subsumption_queue, i);
        }
        i := i + 1;
      }
      n_touched := 0;
      StillSettling(subsumption_lim, D(), queue0, subsumption_queue, bwdsub_assigns);
      AllQueued(D(), touched0, queue0, subsumption_queue);
      StillCovered(subsumption_lim, D(), D(), queue0, subsumption_queue, touched0, touched);
    }

    /** Queues the clauses that are not queued yet. */
    method QueueAll(cs: seq<nat>)
      requires Shape(gone) && forall i :: i in cs ==> i < |ca|
      modifies this`subsumption_queue
      ensures Shape(gone) && old(subsumption_queue) <= subsumption_queue
      ensures forall i :: i in subsumption_queue <==> i in old(subsumption_queue) || i in cs
    {
      var j := 0;
      while j < |cs|
        invariant 0 <= j <= |cs| && Shape(gone) && old(subsumption_queue) <= subsumption_queue
        invariant forall i :: i in subsumption_queue <==> i in old(subsumption_queue) || i in cs[..j]
      {
        assert cs[..j + 1] == cs[..j] + [cs[j]] && cs[j] in cs;
        if cs[j] !in subsumption_queue {
          subsumption_queue := subsumption_queue + [cs[j]];
        }
        j := j + 1;
      }
      assert cs[..j] == cs;
    }

    /** The clauses of a variable that are live. */
    method Lookup(v: nat) returns (cls: seq<nat>)
      requires Shape(gone)
      modifies this`occurs
      ensures Shape(gone) && ClausesOf(D(), cls, v) && NoRepeat(cls)
    {
      var cs := OccOf(occurs, v);
      assert OccListOk(D(), v, cs);
      cls := [];
      var i := 0;
      while i < |cs|
        invariant 0 <= i <= |cs| && occurs == old(occurs) && NoRepeat(cls)
          && forall x: nat :: x in cls <==> x in cs[..i] && Live(D(), x)
      {
        assert cs[i] in cs && cs[..i + 1] == cs[..i] + [cs[i]];
        if !del[cs[i]] {
          NotYet(cs, i);
          cls := cls + [cs[i]];
        }
        i := i + 1;
      }
      assert cs[..i] == cs;
      CleanedOccurs(D(), occurs, v, cls);
      occurs := occurs[v := cls];
    }

    /** Splits the clauses of a variable by the sign it has in them. */
    method Split(cls: seq<nat>, v: nat) returns (pos: seq<nat>, neg: seq<nat>)
      requires Shape(gone) && NoRepeat(cls) && forall i: nat :: i in cls ==> Live(D(), i) && v in VarsOf(ca[i])
      ensures SplitOk(D(), cls, v, pos, neg) && NoRepeat(pos) && NoRepeat(neg)
    {
      pos, neg := [], [];
      var i := 0;
      while i < |cls|
        invariant 0 <= i <= |cls| && SplitOk(D(), cls[..i], v, pos, neg) && NoRepeat(pos) && NoRepeat(neg)
        invariant forall x :: x in pos || x in neg ==> x in cls[..i]
      {
        NotYet(cls, i);
        assert cls[i] in cls && cls[..i + 1] == cls[..i] + [cls[i]];
        SplitOne(D(), cls[..i], v, pos, neg, cls[i]);
        if Lit(v, false) in ca[cls[i]] {
          pos := pos + [cls[i]];
        } else {
          neg := neg + [cls[i]];
        }
        i := i + 1;
      }
      assert cls[..i] == cls;
    }

    /** Whether the resolvents are few and short enough. */
    method WithinLimits(cls: seq<nat>, pos: seq<nat>, neg: seq<nat>, v: nat) returns (within: bool)
      requires DbOk(D(), |assigns|, gone) && SplitOk(D(), cls, v, pos, neg) && ClausesOf(D(), cls, v) && NoRepeat(cls)
        && NoRepeat(pos) && NoRepeat(neg)
      ensures within <==> !TooMuch(D(), v, grow, clause_lim)
    {
      var cnt, i := 0, 0;
      ClausesCounted(D(), cls, v);
      while i < |pos|
        invariant 0 <= i <= |pos| && WithinSoFar(D(), cls, pos, neg, v, grow, clause_lim, i, 0, cnt)
      {
        within, cnt := CountRow(cls, pos, neg, v, i, cnt);
        if !within { return; }
        i := i + 1;
      }
      AllFound(D(), cls, pos, neg, v, grow, clause_lim, cnt);
      within := true;
    }

    /** The resolvents of one positive clause. */
    method CountRow(cls: seq<nat>, pos: seq<nat>, neg: seq<nat>, v: nat, i: nat, cnt0: nat)
      returns (within: bool, cnt: nat)
      requires DbOk(D(), |assigns|, gone) && SplitOk(D(), cls, v, pos, neg) && NoRepeat(pos) && NoRepeat(neg)
        && |ClausesWith(D(), v)| == |cls|
      requires i < |pos| && WithinSoFar(D(), cls, pos, neg, v, grow, clause_lim, i, 0, cnt0)
      ensures if within
        then WithinSoFar(D(), cls, pos, neg, v, grow, clause_lim, i + 1, 0, cnt) else TooMuch(D(), v, grow, clause_lim)
    {
      cnt := cnt0;
      var j := 0;
      while j < |neg|
        invariant 0 <= j <= |neg| && WithinSoFar(D(), cls, pos, neg, v, grow, clause_lim, i, j, cnt)
      {
        within, cnt := CountOne(cls, pos, neg, v, i, j, cnt);
        if !within { return; }
        j := j + 1;
      }
      NextFoundRow(D(), pos, neg, v, i);
      within := true;
    }

    method CountOne(cls: seq<nat>, pos: seq<nat>, neg: seq<nat>, v: nat, i: nat, j: nat, cnt0: nat)
      returns (within: bool, cnt: nat)
      requires DbOk(D(), |assigns|, gone) && SplitOk(D(), cls, v, pos, neg) && NoRepeat(pos) && NoRepeat(neg)
        && |ClausesWith(D(), v)| == |cls|
      requires i < |pos| && j < |neg| && WithinSoFar(D(), cls, pos, neg, v, grow, clause_lim, i, j, cnt0)
      ensures if within
        then WithinSoFar(D(), cls, pos, neg, v, grow, clause_lim, i, j + 1, cnt) else TooMuch(D(), v, grow, clause_lim)
    {
      SplitClauses(D(), |assigns|, gone, cls, v, pos, neg, i, j);
      hide TooMuch, WithinSoFar;
      assert Live(D(), pos[i]) && Live(D(), neg[j]);
      var ok, clause_size := MergeSize(ca[pos[i]], ca[neg[j]], v);
      cnt := if ok then cnt0 + 1 else cnt0;
      within := !(ok && (cnt > |cls| + grow || (clause_lim != -1 && clause_size > clause_lim)));
      if within {
        WithinNext(D(), cls, pos, neg, v, grow, clause_lim, i, j, cnt0, cnt);
      } else {
        LimitReached(D(), cls, pos, neg, v, grow, clause_lim, i, j, cnt0);
      }
    }

    /** Writes a clause with the literal of v in front, and its length. */
    static method MkElimClause(elim: seq<nat>, v: nat, c: Clause) returns (elim': seq<nat>, ghost b: Clause)
      requires DistinctVars(c) && v in VarsOf(c)
      ensures elim' == elim + Ints(b) + [|b|] && b != [] && b[0].v == v && Stored(b, b[0]) && SameLits(c, b)
    {
      var first := |elim|;
      var v_pos, i := 0, 0;
      elim' := elim;
      while i < |c|
        invariant 0 <= i <= |c| && elim' == elim + Ints(c[..i])
        invariant v in VarsOf(c[..i]) ==> v_pos < i && c[v_pos].v == v
      {
        assert c[..i + 1] == c[..i] + [c[i]];
        VarsOfAppend(c[..i], c[i]);
        elim' := elim' + [ToInt(c[i])];
        if c[i].v == v { v_pos := i; }
        i := i + 1;
      }
      assert c[..i] == c;
      b := Exchange(c, v_pos, 0);
      FrontStored(c, v_pos);
      SwapWritten(elim, c, v_pos);
      var tmp := elim'[first + v_pos];
      elim' := elim'[first + v_pos := elim'[first]];
      elim' := elim'[first := tmp];
      elim' := elim' + [|c|];
    }

    /** Writes the clauses of one side. */
    method StoreSide(ids: seq<nat>, x: Lit, ghost stack: seq<Clause>) returns (ghost stored: seq<Clause>)
      requires Storable(ca, ids, x) && elimclauses == Flat(stack)
      modifies this`elimclauses
      ensures elimclauses == Flat(stack + stored) && |stored| == |ids| && SideStored(ca, ids, x, stored)
    {
      stored := [];
      assert stack + stored == stack;
      var i := 0;
      while i < |ids|
        invariant 0 <= i <= |ids| && |stored| == i && elimclauses == Flat(stack + stored)
          && SideStored(ca, ids, x, stored)
      {
        ghost var b := StoreOne(ids[i], x, stack, stored);
        SideMore(ca, ids, x, stored, b);
        stored := stored + [b];
        i := i + 1;
      }
    }

    method StoreOne(cr: nat, x: Lit, ghost stack: seq<Clause>, ghost stored: seq<Clause>) returns (ghost b: Clause)
      requires elimclauses == Flat(stack + stored) && cr < |ca| && DistinctVars(ca[cr]) && x in ca[cr]
      modifies this`elimclauses
      ensures elimclauses == Flat(stack + (stored + [b])) && Stored(b, x) && SameLits(ca[cr], b)
    {
      assert x.v in VarsOf(ca[cr]);
      var elim;
      elim, b := MkElimClause(elimclauses, x.v, ca[cr]);
      SameSign(ca[cr], x, b);
      FlatAppend(stack + stored, b);
      assert stack + stored + [b] == stack + (stored + [b]);
      elimclauses := elim;
    }

    /** Stores the smaller side and the default value for the other. */
    method StoreSection(pos: seq<nat>, neg: seq<nat>, v: nat, ghost P: seq<Clause>, ghost N: seq<Clause>)
      returns (ghost section: seq<Clause>)
      requires Storable(ca, pos, Lit(v, false)) && Storable(ca, neg, Lit(v, true)) && elimclauses == Flat(blocks)
      requires P == ClausesAt(ca, pos) && N == ClausesAt(ca, neg)
      modifies this`elimclauses
      ensures elimclauses == Flat(blocks + section) && SectionFor(section, v, P, N)
      ensures |section| == ShorterOf(|pos|, |neg|) + 1
    {
      var ids, x := if |pos| > |neg| then neg else pos, Lit(v, |pos| > |neg|);
      ghost var stored := StoreSide(ids, x, blocks);
      elimclauses := elimclauses + [ToInt(Neg(x))] + [1];
      section := stored + [[Neg(x)]];
      UnitWritten(blocks, stored, Neg(x));
      SectionMade(ca, v, pos, neg, P, N, stored, section);
    }

    /** Adds all resolvents that are not tautologies. */
    method AddResolvents(pos: seq<nat>, neg: seq<nat>, v: nat, ghost D0: Db, ghost P: seq<Clause>, ghost N: seq<Clause>)
      returns (ok: bool)
      requires Shape(gone) && Tidy() && D0 == D() && SidesOf(D0, v, pos, neg, P, N) && v < |assigns|
      modifies this`ca, this`abs, this`del, this`trail, this`assigns, this`occurs, this`subsumption_queue,
               this`touched, this`n_touched
      ensures Shape(gone) && |assigns| == |old(assigns)|
      ensures ok ==> Tidy() && Resolved(D0, D(), v, P, N, |P|, 0) && Derived(next, D0, trail, v, P, N, |P|, 0)
      ensures !ok ==> NoModel(D0)
    {
      var i := 0;
      NothingResolved(D0, v, P, N);
      NothingDerived(next, D0, v, P, N);
      while i < |pos|
        invariant 0 <= i <= |pos| && Shape(gone) && Tidy() && |assigns| == |old(assigns)|
        invariant Resolved(D0, D(), v, P, N, i, 0) && Derived(next, D0, trail, v, P, N, i, 0)
      {
        ok := AddRow(pos, neg, i, v, D0, P, N);
        if !ok { return; }
        i := i + 1;
      }
      ok := true;
    }

    method AddRow(pos: seq<nat>, neg: seq<nat>, i: nat, v: nat, ghost D0: Db, ghost P: seq<Clause>,
        ghost N: seq<Clause>) returns (ok: bool)
      requires Shape(gone) && Tidy() && SidesOf(D0, v, pos, neg, P, N) && i < |pos|
      requires Resolved(D0, D(), v, P, N, i, 0) && Derived(next, D0, trail, v, P, N, i, 0)
      modifies this`ca, this`abs, this`del, this`trail, this`assigns, this`occurs, this`subsumption_queue,
               this`touched, this`n_touched
      ensures Shape(gone) && |assigns| == |old(assigns)|
      ensures ok ==> Tidy() && Resolved(D0, D(), v, P, N, i + 1, 0) && Derived(next, D0, trail, v, P, N, i + 1, 0)
      ensures !ok ==> NoModel(D0)
    {
      var j := 0;
      while j < |neg|
        invariant 0 <= j <= |neg| && Shape(gone) && Tidy() && |assigns| == |old(assigns)|
        invariant Resolved(D0, D(), v, P, N, i, j) && Derived(next, D0, trail, v, P, N, i, j)
      {
        ok := AddResolvent(pos, neg, i, j, v, D0, P, N);
        if !ok { return; }
        j := j + 1;
      }
      NextRow(D0, D(), v, P, N, i);
      DerivedRow(next, D0, trail, v, P, N, i);
      ok := true;
    }

    method AddResolvent(pos: seq<nat>, neg: seq<nat>, i: nat, j: nat, v: nat, ghost D0: Db, ghost P: seq<Clause>,
        ghost N: seq<Clause>) returns (ok: bool)
      requires Shape(gone) && Tidy() && SidesOf(D0, v, pos, neg, P, N) && i < |pos| && j < |neg|
      requires Resolved(D0, D(), v, P, N, i, j) && Derived(next, D0, trail, v, P, N, i, j)
      modifies this`ca, this`abs, this`del, this`trail, this`assigns, this`occurs, this`subsumption_queue,
               this`touched, this`n_touched
      ensures Shape(gone) && |assigns| == |old(assigns)|
      ensures ok ==> Tidy() && Resolved(D0, D(), v, P, N, i, j + 1) && Derived(next, D0, trail, v, P, N, i, j + 1)
      ensures !ok ==> NoModel(D0)
    {
      ghost var D1 := D();
      SideClauses(D0, D1, v, pos, neg, P, N, i, j, |assigns|, gone);
      var merged, resolvent := Merge(ca[pos[i]], ca[neg[j]], v);
      if !merged {
        SkipOne(D0, D1, v, P, N, i, j);
        SkipDerived(next, D0, trail, v, P, N, i, j);
        return true;
      }
      ok := AddMerged(resolvent, i, j, v, D0, P, N);
    }

    method AddMerged(resolvent: Clause, ghost i: nat, ghost j: nat, ghost v: nat, ghost D0: Db, ghost P: seq<Clause>,
        ghost N: seq<Clause>) returns (ok: bool)
      requires Shape(gone) && Tidy() && i < |P| && j < |N| && Parents(D0, P[i], N[j], v) && !Tautological(P[i], N[j], v)
      requires resolvent == Resolvent(P[i], N[j], v) && LiveOk(P[i], |assigns|, gone) && LiveOk(N[j], |assigns|, gone)
      requires Resolved(D0, D(), v, P, N, i, j) && Derived(next, D0, trail, v, P, N, i, j)
      modifies this`ca, this`abs, this`del, this`trail, this`assigns, this`occurs, this`subsumption_queue,
               this`touched, this`n_touched
      ensures Shape(gone) && |assigns| == |old(assigns)|
      ensures ok ==> Tidy() && Resolved(D0, D(), v, P, N, i, j + 1) && Derived(next, D0, trail, v, P, N, i, j + 1)
      ensures !ok ==> NoModel(D0)
    {
      ghost var D1 := D();
      ResolventShape(P[i], N[j], v, |assigns|, gone);
      ok := AddClause(resolvent, gone, D1);
      if ok {
        OneMore(next, D0, D1, D(), v, P, N, i, j, old(assigns));
      } else {
        NoneResolved(D0, D1, v, P, N, i, j);
      }
    }

    method RemoveAll(cls: seq<nat>)
      requires Shape(gone) && forall i :: i in cls ==> i < |ca|
      modifies this`del
      ensures Shape(gone) && (old(Tidy()) ==> Tidy()) && D() == WithoutClauses(old(D()), cls)
    {
      var k := 0;
      while k < |cls|
        invariant 0 <= k <= |cls| && Shape(gone) && |del| == |old(del)|
        invariant forall i: nat :: i < |del| ==> del[i] == (old(del)[i] || i in cls[..k])
      {
        assert cls[k] in cls && cls[..k + 1] == cls[..k] + [cls[k]];
        RemoveClause(cls[k], gone);
        k := k + 1;
      }
      assert cls[..k] == cls;
      FewerSettled(subsumption_lim, old(D()), D(), subsumption_queue, bwdsub_assigns);
      if old(Tidy()) {
        StillCovered(subsumption_lim, old(D()), D(), subsumption_queue, subsumption_queue, touched, touched);
      }
    }

    /** Eliminates a variable unless too many or too long clauses would come of it. Nothing is lost:
        the stack still makes a model of all clauses from every model of what is left. */
    method EliminateVar(v: nat) returns (ok: bool)
      requires Valid() && v < |assigns| && !eliminated[v] && Value(Lit(v, false)) == Undef
      modifies this
      ensures all == old(all) && |assigns| == |old(assigns)| && old(gone) <= gone
      ensures ok ==> Valid() && gone == if TooMuch(old(D()), v, grow, clause_lim) then old(gone) else old(gone) + {v}
      ensures TooMuch(old(D()), v, grow, clause_lim) ==> ok && D() == old(D())
      ensures ok && (old(Finished()) || !TooMuch(old(D()), v, grow, clause_lim)) ==> Finished()
      ensures ok && Safe(subsumption_lim, clause_lim) && old(Finished()) && TrailOver(old(trail), old(gone)) ==>
        TrailOver(trail, gone)
      ensures ok && !TooMuch(old(D()), v, grow, clause_lim) ==> LevelReached(next, old(D()), v, trail)
      ensures ok ==>
        |blocks| == |old(blocks)| + if TooMuch(old(D()), v, grow, clause_lim) then 0 else StoredFor(old(D()), v)
      ensures !ok ==> Contradictory(all)
    {
      clean := TrailOver(trail, gone);
      var within, cls, pos, neg := Divide(v);
      if !within { return true; }
      SidesCounted(D(), cls, v, pos, neg);
      ok := ResolveAndCheck(cls, pos, neg, v);
    }

    method ResolveAndCheck(cls: seq<nat>, pos: seq<nat>, neg: seq<nat>, v: nat) returns (ok: bool)
      requires Valid() && v < |assigns| && v !in gone && Value(Lit(v, false)) == Undef
      requires SplitOk(D(), cls, v, pos, neg) && ClausesOf(D(), cls, v) && !TooMuch(D(), v, grow, clause_lim)
      modifies this
      ensures all == old(all) && |assigns| == |old(assigns)| && old(gone) <= gone
      ensures ok ==> Valid() && Finished() && gone == old(gone) + {v} && LevelReached(next, old(D()), v, trail)
      ensures ok ==> |blocks| == |old(blocks)| + ShorterOf(|pos|, |neg|) + 1
      ensures ok && old(clean) && Safe(subsumption_lim, clause_lim) && old(Finished()) ==> clean
      ensures !ok ==> Contradictory(all)
    {
      if Safe(subsumption_lim, clause_lim) && Finished() {
        SafePairs(subsumption_lim, D(), v, grow, clause_lim, |assigns|, gone);
        AssignedVar(assigns, trail, v);
      }
      ok := ResolveAway(cls, pos, neg, v);
      if ok {
        ok := CheckAfter();
      }
    }

    /** The clauses of the variable by sign, and whether their resolvents stay within the limits. */
    method Divide(v: nat) returns (within: bool, cls: seq<nat>, pos: seq<nat>, neg: seq<nat>)
      requires Valid()
      modifies this`occurs
      ensures Valid() && SplitOk(D(), cls, v, pos, neg) && ClausesOf(D(), cls, v) && NoRepeat(pos) && NoRepeat(neg)
      ensures within <==> !TooMuch(D(), v, grow, clause_lim)
    {
      cls := Lookup(v);
      pos, neg := Split(cls, v);
      within := WithinLimits(cls, pos, neg, v);
    }

    /** Backward subsumption with the new clauses. */
    method CheckAfter() returns (ok: bool)
      requires Valid()
      modifies this`ca, this`abs, this`del, this`trail, this`assigns, this`occurs, this`subsumption_queue,
        this`bwdsub_assigns
      ensures |assigns| == |old(assigns)| && (if ok then Valid() && Finished() else Contradictory(all))
      ensures ok ==> old(trail) <= trail && SameSat(old(D()), D())
      ensures Idle(subsumption_lim, old(D())) ==> D() == old(D())
    {
      hide StackOk, Settling, Covered, DbOk, AbsOk, OccursOk, ValuesOk, Marks, Worked;
      ghost var D2, queue2, at2 := D(), subsumption_queue, bwdsub_assigns;
      ok := BackwardSubsumptionCheck(gone);
      if ok {
        RunSettles(subsumption_lim, D2, D(), queue2, at2);
        RunCovers(subsumption_lim, D2, D(), queue2, at2, touched);
      }
      AfterCheck(D2, D(), all, blocks, |assigns|, gone, ok);
    }

    method ResolveAway(cls: seq<nat>, pos: seq<nat>, neg: seq<nat>, v: nat) returns (ok: bool)
      requires Valid() && v < |assigns| && v !in gone && Value(Lit(v, false)) == Undef
      requires SplitOk(D(), cls, v, pos, neg) && ClausesOf(D(), cls, v)
      modifies this
      ensures all == old(all) && |assigns| == |old(assigns)| && old(gone) <= gone
      ensures ok ==> Valid() && gone == old(gone) + {v} && (clean <==> old(clean) && v !in VarsOf(trail))
      ensures ok ==> LevelAfter(next, old(D()), v, trail) && |blocks| == |old(blocks)| + ShorterOf(|pos|, |neg|) + 1
      ensures !ok ==> Contradictory(all)
    {
      hide LevelAfter, StackOk, Settling, Covered, DbOk, AbsOk, OccursOk, SectionFor, Marks;
      ghost var P, N := Gather(D(), all, blocks, cls, v, pos, neg, |assigns|, gone, assigns);
      ghost var section := Store(pos, neg, v, P, N);
      ok := Replace(cls, pos, neg, v, P, N, section);
    }

    /** The resolvents take the place of the clauses. */
    method Replace(cls: seq<nat>, pos: seq<nat>, neg: seq<nat>, v: nat, ghost P: seq<Clause>, ghost N: seq<Clause>,
        ghost section: seq<Clause>) returns (ok: bool)
      requires Shape(gone) && Tidy() && v < |assigns| && v !in gone && SectionFor(section, v, P, N)
      requires SidesOf(D(), v, pos, neg, P, N) && SplitOk(D(), cls, v, pos, neg)
      requires Before(D(), all, blocks, v, P, N, cls, |assigns|, gone)
      requires |eliminated| == |assigns| == |frozen| && Marks(eliminated, gone + {v})
        && elimclauses == Flat(blocks + section)
      modifies this
      ensures all == old(all) && |assigns| == |old(assigns)| && old(gone) <= gone
      ensures ok ==> Valid() && gone == old(gone) + {v} && (clean <==> old(clean) && v !in VarsOf(trail))
      ensures ok ==> LevelAfter(next, old(D()), v, trail) && blocks == old(blocks) + section
      ensures !ok ==> Contradictory(all)
    {
      hide LevelAfter, StackOk, Settling, Covered, DbOk, AbsOk, OccursOk, SectionFor, Marks;
      ok := Resolve(cls, pos, neg, v, P, N, section);
      if ok {
        Purge(cls, v, section);
      }
    }

    /** Adds the resolvents, after which the clauses of the variable can go. */
    method Resolve(cls: seq<nat>, pos: seq<nat>, neg: seq<nat>, v: nat, ghost P: seq<Clause>, ghost N: seq<Clause>,
        ghost section: seq<Clause>) returns (ok: bool)
      requires Shape(gone) && Tidy() && v < |assigns| && v !in gone && SectionFor(section, v, P, N)
      requires SidesOf(D(), v, pos, neg, P, N) && SplitOk(D(), cls, v, pos, neg)
      requires Before(D(), all, blocks, v, P, N, cls, |assigns|, gone)
      modifies this`ca, this`abs, this`del, this`trail, this`assigns, this`occurs, this`subsumption_queue,
               this`touched, this`n_touched
      ensures Shape(gone) && |assigns| == |old(assigns)|
      ensures ok ==> Tidy() && LevelAfter(next, old(D()), v, trail) && forall i :: i in cls ==> i < |ca|
      ensures ok ==> DbOk(WithoutClauses(D(), cls), |assigns|, gone + {v})
      ensures ok ==> StackOk(WithoutClauses(D(), cls), all, blocks + section, |assigns|, gone + {v})
      ensures !ok ==> Contradictory(all)
    {
      ghost var D0 := D();
      ok := ResolveSides(cls, pos, neg, v, P, N);
      if ok {
        PurgeStep(D0, D(), v, P, N, cls, section, blocks, all, |assigns|, gone);
      } else {
        NoneOfAll(D0, all);
      }
    }

    /** Adds the resolvents; without units, level 0 stays as it was. */
    method ResolveSides(cls: seq<nat>, pos: seq<nat>, neg: seq<nat>, v: nat, ghost P: seq<Clause>, ghost N: seq<Clause>)
      returns (ok: bool)
      requires Shape(gone) && Tidy() && v < |assigns| && SidesOf(D(), v, pos, neg, P, N)
      requires SplitOk(D(), cls, v, pos, neg) && ClausesOf(D(), cls, v)
      modifies this`ca, this`abs, this`del, this`trail, this`assigns, this`occurs, this`subsumption_queue,
               this`touched, this`n_touched
      ensures Shape(gone) && |assigns| == |old(assigns)|
      ensures ok ==> Tidy() && Resolved(old(D()), D(), v, P, N, |P|, 0) && LevelAfter(next, old(D()), v, trail)
      ensures !ok ==> NoModel(old(D()))
    {
      ghost var D0 := D();
      ok := AddResolvents(pos, neg, v, D0, P, N);
      if ok {
        AllDerived(next, D0, trail, v, pos, neg, P, N, cls, |assigns|, gone);
      }
    }

    /** Marks the variable as eliminated and stores its section. */
    method Store(pos: seq<nat>, neg: seq<nat>, v: nat, ghost P: seq<Clause>, ghost N: seq<Clause>)
      returns (ghost section: seq<Clause>)
      requires v < |eliminated| && Marks(eliminated, gone) && elimclauses == Flat(blocks)
      requires Storable(ca, pos, Lit(v, false)) && Storable(ca, neg, Lit(v, true)) && P == ClausesAt(ca, pos)
        && N == ClausesAt(ca, neg)
      modifies this`eliminated, this`elimclauses
      ensures |eliminated| == |old(eliminated)| && Marks(eliminated, gone + {v})
      ensures elimclauses == Flat(blocks + section) && SectionFor(section, v, P, N)
      ensures |section| == ShorterOf(|pos|, |neg|) + 1
    {
      eliminated := eliminated[v := true];
      section := StoreSection(pos, neg, v, P, N);
    }

    /** Removes the clauses of the variable, whose resolvents have been added. */
    method Purge(cls: seq<nat>, v: nat, ghost section: seq<Clause>)
      requires Shape(gone) && Tidy() && |eliminated| == |assigns| == |frozen| && v < |assigns|
        && forall i :: i in cls ==> i < |ca|
      requires Marks(eliminated, gone + {v}) && elimclauses == Flat(blocks + section)
      requires DbOk(WithoutClauses(D(), cls), |assigns|, gone + {v})
      requires StackOk(WithoutClauses(D(), cls), all, blocks + section, |assigns|, gone + {v})
      modifies this`del, this`occurs, this`blocks, this`gone, this`clean
      ensures Valid() && gone == old(gone) + {v} && (clean <==> old(clean) && v !in VarsOf(trail))
      ensures blocks == old(blocks) + section
    {
      hide StackOk, Settling, Covered, DbOk, AbsOk, OccursOk, ValuesOk, Marks;
      DropClauses(cls, v);
      StaysOver(trail, gone, v);
      blocks, gone := blocks + section, gone + {v};
      clean := clean && v !in VarsOf(trail);
    }

    method DropClauses(cls: seq<nat>, v: nat)
      requires Shape(gone) && Tidy() && (forall i :: i in cls ==> i < |ca|)
      requires DbOk(WithoutClauses(D(), cls), |assigns|, gone + {v})
      modifies this`del, this`occurs
      ensures Shape(gone) && Tidy() && D() == WithoutClauses(old(D()), cls)
    {
      hide Settling, Covered, DbOk, AbsOk, OccursOk, ValuesOk;
      RemoveAll(cls);
      EmptyList(D(), |assigns|, gone + {v}, v, occurs);
      occurs := occurs[v := []];
    }

    /** Reads the stack: a model of what is left becomes a model of all clauses there ever were. */
    method ExtendModel(model: seq<LBool>) returns (extended: seq<LBool>)
      requires Valid() && |model| == |assigns| && Sat(TrueSet(model), D())
      requires forall v: nat :: v < |model| && !eliminated[v] ==> model[v] != Undef
      ensures |extended| == |model| && Models(TrueSet(extended), all)
    {
      OrderlyFits(blocks, |model|, gone);
      extended := ElimStacks.ExtendModel(elimclauses, model, blocks);
      ReadAgrees(blocks, model, gone);
    }
  }

  function ShorterOf(a: nat, b: nat): nat {
    if a < b then a else b
  }

  /** How many blocks the elimination of v stores: the smaller side, and a unit. */
  ghost function StoredFor(D: Db, v: nat): nat {
    ShorterOf(|ClausesHaving(D, Lit(v, false))|, |ClausesHaving(D, Lit(v, true))|) + 1
  }

  /** The list of the removed literal's variable loses the clause if it lives on. */
  ghost predicate ListsAfter(occurs: Occurs, occurs': Occurs, cr: nat, verdict: Verdict, live: bool) {
    occurs' == if verdict.Strengthens? && live
      then occurs[verdict.p.v := RemoveFirst(OccOf(occurs, verdict.p.v), cr)] else occurs
  }

  lemma {:induction false} RemoveFirstAt(s: seq<nat>, j: nat)
    requires NoRepeat(s) && j < |s|
    ensures RemoveFirst(s, s[j]) == s[..j] + s[j + 1..]
  {
    if j > 0 {
      RemoveFirstAt(s[1..], j - 1);
      assert s[0] != s[j] && s[..j] == [s[0]] + s[1..][..j - 1];
    }
  }

  /** After a candidate, the walk goes on behind it, wherever that is now. */
  lemma ListStep(lim: int, ca0: seq<Clause>, D: Db, c: Clause, k: int, list1: seq<nat>, list: seq<nat>, j: nat,
      verdict: Verdict, best: nat)
    requires ListTried(lim, ca0, D, c, k, list1, j) && j < |list1| && NoRepeat(list1)
    requires Live(D, list1[j]) ==> Harmless(c, D.ca[list1[j]])
    requires list == if verdict.Strengthens? && verdict.p.v == best
      && Live(D, list1[j]) then RemoveFirst(list1, list1[j]) else list1
    ensures ListTried(lim, ca0, D, c, k, list, if verdict.Strengthens? && verdict.p.v == best then j else j + 1)
  {
    RemoveFirstAt(list1, j);
    forall x | 0 <= x < j ensures EntryTried(lim, ca0, D, c, k, list[x]) {
      assert EntryTried(lim, ca0, D, c, k, list1[x]);
    }
  }

  /** One entry fewer to deal with. */
  predicate Consumed(queue: seq<nat>, queue': seq<nat>, at: nat, at': nat) {
    if |queue| == 0 then queue' == [] && at' == at + 1 else |queue'| == |queue| - 1 && at' == at
  }

  lemma SameSatSelf(D: Db)
    ensures SameSat(D, D)
  {
  }

  /** Every change takes literals away; without one, the queue stays as it was. */
  ghost predicate Progress(D: Db, D': Db, queue: seq<nat>, queue': seq<nat>) {
    |D'.ca| == |D.ca| && (Weight(D', |D.ca|) < Weight(D, |D.ca|) || (D' == D && queue' == queue))
  }

  lemma CandidateBound(D: Db, occurs: Occurs, v: nat, j: nat)
    requires OccursOk(D, occurs) && j < |OccOf(occurs, v)|
    ensures OccOf(occurs, v)[j] < |D.ca|
  {
    assert OccListOk(D, v, OccOf(occurs, v)) && OccOf(occurs, v)[j] in OccOf(occurs, v);
  }

  lemma AfterStrengthening(D0: Db, D: Db, c: Clause, k: int, cr: nat, p: Lit, ok: bool)
    requires Source(D0, c, k) && Live(D0, cr) && k != cr && D0.ca[cr] != [] && OnlyChanged(D0, D, cr)
    requires SameSat(D0, Shortened(D0, cr, Neg(p))) && (Live(D, cr) ==> |D.ca[cr]| < |D0.ca[cr]|)
    requires if ok then SameSat(Shortened(D0, cr, Neg(p)), D) else NoModel(Shortened(D0, cr, Neg(p)))
    ensures if ok then SameSat(D0, D) && Source(D, c, k) else NoModel(D0)
    ensures Weight(D, |D0.ca|) < Weight(D0, |D0.ca|)
  {
    WeightLess(D0, D, cr, |D0.ca|);
    SourceStays(D0, D, cr, c, k);
    if ok {
      SameSatTrans(D0, Shortened(D0, cr, Neg(p)), D);
    } else {
      NoModelBefore(D0, Shortened(D0, cr, Neg(p)));
    }
  }

  lemma RemovedShrunk(lim: int, D: Db, cr: nat, queue: seq<nat>)
    requires cr < |D.del|
    ensures Shrunk(lim, D, Removed(D, cr), queue, queue)
  {
  }

  lemma StrengthenedShrunk(lim: int, D0: Db, D: Db, cr: nat, l: Lit, queue: seq<nat>)
    requires OnlyChanged(D0, D, cr) && Live(D0, cr) && Short(lim, D0.ca[cr]) && D0.trail <= D.trail
    requires D.ca[cr] == Without(D0.ca[cr], l) && |D.ca[cr]| < |D0.ca[cr]|
    ensures Shrunk(lim, D0, D, queue, queue + [cr])
  {
    forall i: nat | Live(D, i) ensures Live(D0, i) && ReducedClause(lim, D0.ca[i], D.ca[i])
      && (i != cr ==> D.ca[i] == D0.ca[i]) {
    }
  }

  lemma UnitPropagates(D: Db, cr: nat, assigns: seq<LBool>, free: nat, u: Lit)
    requires Live(D, cr) && D.ca[cr] != [] && ValuesOk(assigns, D.trail) && free <= 1
    requires free == 0 ==> FalseBut(D.trail, D.ca[cr], [])
    requires free == 1 ==> Assigned(assigns, u) == Undef && FalseBut(D.trail, D.ca[cr], [u])
    ensures Propagates(D, cr)
  {
    var x := if free == 0 then D.ca[cr][0] else u;
    FalseValue(assigns, D.trail, x);
    assert D.ca[cr][0] in D.ca[cr];
    assert FalseBut(D.trail, D.ca[cr], [x]) && x !in D.trail;
  }

  lemma TwoFree(assigns: seq<LBool>, trail: seq<Lit>, c: Clause, u: Lit, x: Lit, free: nat)
    requires ValuesOk(assigns, trail) && x in c
    requires x in trail || (u in c && u != x && Neg(u) !in trail && u !in trail && Neg(x) !in trail)
    ensures forall y :: FalseBut(trail, c, [y]) ==> y in trail
  {
    forall y | FalseBut(trail, c, [y]) ensures y in trail {
      FalseValue(assigns, trail, x);
      assert x == y || Neg(x) in trail;
    }
  }

  ghost function Unassigned(assigns: seq<LBool>): set<nat> {
    set v: nat | v < |assigns| && assigns[v] == Undef
  }

  lemma FewerUnassigned(assigns: seq<LBool>, u: Lit)
    requires u.v < |assigns| && Assigned(assigns, u) == Undef
    ensures Unassigned(assigns[u.v := if u.neg then False else True]) < Unassigned(assigns)
  {
    assert u.v in Unassigned(assigns);
  }

  lemma EnqueuedSat(D0: Db, p: Lit, D: Db, ok: bool)
    requires ok <==> Neg(p) !in D0.trail
    requires D == if p in D0.trail || !ok then D0 else Enqueued(D0, p)
    ensures if ok then SameSat(Enqueued(D0, p), D) && p in D.trail else NoModel(Enqueued(D0, p))
  {
    var D1 := Enqueued(D0, p);
    assert forall x :: x in D1.trail <==> x in D0.trail || x == p;
    forall i: nat ensures Live(D1, i) <==> Live(D0, i) {
    }
    if !ok {
      forall A: iset<nat> ensures !Sat(A, D1) {
        assert Sat(A, D1) ==> Holds(A, Neg(p)) && Holds(A, p);
      }
    }
  }

  lemma EnqueuedShape(D: Db, p: Lit, n: nat, gone: set<nat>, abs: seq<bv32>, occurs: Occurs)
    requires DbOk(D, n, gone) && AbsOk(D, abs) && OccursOk(D, occurs) && p.v < n
    ensures DbOk(Enqueued(D, p), n, gone) && AbsOk(Enqueued(D, p), abs) && OccursOk(Enqueued(D, p), occurs)
  {
    var D' := Enqueued(D, p);
    forall i: nat ensures Live(D', i) <==> Live(D, i) {
    }
    forall v ensures OccListOk(D', v, OccOf(occurs, v)) {
      assert OccListOk(D, v, OccOf(occurs, v));
    }
  }

  lemma WithoutLength(c: Clause, l: Lit)
    requires DistinctVars(c) && l in c
    ensures |Without(c, l)| == |c| - 1
  {
    WithoutDistinct(c, l);
    WithoutVars(c, l);
    VarsCount(c);
    VarsCount(Without(c, l));
  }

  lemma AbsShorter(D: Db, abs: seq<bv32>, cr: nat, c: Clause, a: bv32)
    requires AbsOk(D, abs) && cr < |D.ca| && a == Abstraction(Bit, c)
    ensures AbsOk(D.(ca := D.ca[cr := c]), abs[cr := a])
  {
    var D' := D.(ca := D.ca[cr := c]);
    forall i: nat | Live(D', i) ensures abs[cr := a][i] == Abstraction(Bit, D'.ca[i]) {
      assert i != cr ==> Live(D, i);
    }
  }

  /** What a removed clause looks like does not matter. */
  lemma DeadClause(D: Db, cr: nat, c: Clause, n: nat, gone: set<nat>, abs: seq<bv32>, occurs: Occurs)
    requires DbOk(D, n, gone) && AbsOk(D, abs) && OccursOk(D, occurs) && cr < |D.ca| && !Live(D, cr)
    ensures var D' := D.(ca := D.ca[cr := c]); DbOk(D', n, gone) && AbsOk(D', abs) && OccursOk(D', occurs)
  {
    var D' := D.(ca := D.ca[cr := c]);
    forall i: nat | Live(D', i) ensures Live(D, i) && i != cr {
    }
    forall v ensures OccListOk(D', v, OccOf(occurs, v)) {
      assert OccListOk(D, v, OccOf(occurs, v));
    }
  }

  function OccursWith(occurs: Occurs, c: Clause, cr: nat, n: nat): Occurs
    requires n <= |c|
  {
    if n == 0 then occurs
    else
      var more := OccursWith(occurs, c, cr, n - 1);
      more[c[n - 1].v := OccOf(more, c[n - 1].v) + [cr]]
  }

  lemma {:induction false} OccursWithOf(occurs: Occurs, c: Clause, cr: nat, n: nat, v: nat)
    requires n <= |c| && DistinctVars(c)
    ensures OccOf(OccursWith(occurs, c, cr, n), v) == if v in VarsOf(c[..n])
      then OccOf(occurs, v) + [cr] else OccOf(occurs, v)
  {
    if n > 0 {
      assert c[..n] == c[..n - 1] + [c[n - 1]];
      VarsOfAppend(c[..n - 1], c[n - 1]);
      OccursWithOf(occurs, c, cr, n - 1, v);
      forall l | l in c[..n - 1] ensures l.v != c[n - 1].v {
        var i :| 0 <= i < n - 1 && c[..n - 1][i] == l;
        assert c[i].v != c[n - 1].v;
      }
    }
  }

  lemma AddedShape(D: Db, c: Clause, a: bv32, n: nat, gone: set<nat>, abs: seq<bv32>, occurs: Occurs)
    requires DbOk(D, n, gone) && AbsOk(D, abs) && OccursOk(D, occurs) && LiveOk(c, n, gone) && a == Abstraction(Bit, c)
    ensures DbOk(Appended(D, c), n, gone) && AbsOk(Appended(D, c), abs + [a])
      && OccursOk(Appended(D, c), OccursWith(occurs, c, |D.ca|, |c|))
  {
    AddedDb(D, c, n, gone);
    AddedAbs(D, c, a, abs);
    AddedOccurs(D, c, occurs);
  }

  lemma AddedDb(D: Db, c: Clause, n: nat, gone: set<nat>)
    requires DbOk(D, n, gone) && LiveOk(c, n, gone)
    ensures DbOk(Appended(D, c), n, gone)
  {
    var D' := Appended(D, c);
    forall i: nat | Live(D', i) ensures LiveOk(D'.ca[i], n, gone) {
      assert i < |D.ca| ==> Live(D, i) && D'.ca[i] == D.ca[i];
    }
  }

  lemma AddedAbs(D: Db, c: Clause, a: bv32, abs: seq<bv32>)
    requires |D.ca| == |D.del| && AbsOk(D, abs) && a == Abstraction(Bit, c)
    ensures AbsOk(Appended(D, c), abs + [a])
  {
    var D', abs' := Appended(D, c), abs + [a];
    forall i: nat | Live(D', i) ensures abs'[i] == Abstraction(Bit, D'.ca[i]) {
      assert i < |D.ca| ==> Live(D, i) && D'.ca[i] == D.ca[i];
    }
  }

  lemma AddedOccurs(D: Db, c: Clause, occurs: Occurs)
    requires |D.ca| == |D.del| && OccursOk(D, occurs) && DistinctVars(c)
    ensures OccursOk(Appended(D, c), OccursWith(occurs, c, |D.ca|, |c|))
  {
    var D', occurs' := Appended(D, c), OccursWith(occurs, c, |D.ca|, |c|);
    assert c[..|c|] == c;
    forall v ensures OccListOk(D', v, OccOf(occurs', v)) {
      OccursWithOf(occurs, c, |D.ca|, |c|, v);
      assert OccListOk(D, v, OccOf(occurs, v));
      LongerList(D, D', v, OccOf(occurs, v), OccOf(occurs', v), c);
    }
  }

  lemma LongerList(D: Db, D': Db, v: nat, s: seq<nat>, s': seq<nat>, c: Clause)
    requires |D.ca| == |D.del| && D' == Appended(D, c) && OccListOk(D, v, s)
    requires s' == if v in VarsOf(c) then s + [|D.ca|] else s
    ensures OccListOk(D', v, s')
  {
    assert forall i :: i in s + [|D.ca|] <==> i in s || i == |D.ca|;
    forall j | 0 <= j < |s| ensures s[j] < |D.ca| {
      assert s[j] in s;
    }
    forall i: nat | Live(D', i) ensures i in s' <==> v in VarsOf(D'.ca[i]) {
      assert i < |D.ca| ==> Live(D, i);
    }
  }

  lemma CleanedOccurs(D: Db, occurs: Occurs, v: nat, cls: seq<nat>)
    requires OccursOk(D, occurs) && NoRepeat(cls) && forall x: nat :: x in cls <==> x in OccOf(occurs, v) && Live(D, x)
    ensures OccursOk(D, occurs[v := cls]) && forall i: nat :: i in cls <==> Live(D, i) && v in VarsOf(D.ca[i])
  {
    assert OccListOk(D, v, OccOf(occurs, v));
    var occurs' := occurs[v := cls];
    forall u ensures OccListOk(D, u, OccOf(occurs', u)) {
      assert OccListOk(D, u, OccOf(occurs, u));
    }
  }

  lemma SplitOne(D: Db, cls: seq<nat>, v: nat, pos: seq<nat>, neg: seq<nat>, i: nat)
    requires SplitOk(D, cls, v, pos, neg) && Live(D, i) && v in VarsOf(D.ca[i])
    ensures if Lit(v, false) in D.ca[i]
      then SplitOk(D, cls + [i], v, pos + [i], neg) else SplitOk(D, cls + [i], v, pos, neg + [i])
  {
    var l :| l in D.ca[i] && l.v == v;
    assert l == Lit(v, false) || l == Lit(v, true);
    assert forall x :: x in cls + [i] <==> x in cls || x == i;
    assert forall x :: x in pos + [i] <==> x in pos || x == i;
    assert forall x :: x in neg + [i] <==> x in neg || x == i;
  }

  lemma SplitClauses(D: Db, n: nat, gone: set<nat>, cls: seq<nat>, v: nat, pos: seq<nat>, neg: seq<nat>, i: nat, j: nat)
    requires DbOk(D, n, gone) && SplitOk(D, cls, v, pos, neg) && i < |pos| && j < |neg|
    ensures pos[i] < |D.ca| && neg[j] < |D.ca| && LiveOk(D.ca[pos[i]], n, gone) && LiveOk(D.ca[neg[j]], n, gone)
    ensures v in VarsOf(D.ca[pos[i]]) && v in VarsOf(D.ca[neg[j]])
  {
    assert Live(D, pos[i]) && Live(D, neg[j]);
    assert Lit(v, false).v in VarsOf(D.ca[pos[i]]) && Lit(v, true).v in VarsOf(D.ca[neg[j]]);
  }

  lemma FrontStored(c: Clause, k: nat)
    requires DistinctVars(c) && k < |c|
    ensures Stored(Exchange(c, k, 0), c[k]) && SameLits(c, Exchange(c, k, 0)) && Exchange(c, k, 0)[0] == c[k]
  {
    ExchangeSame(c, k, 0);
    var r := Exchange(c, k, 0);
    forall i | 1 <= i < |r| ensures r[i].v != c[k].v {
      assert r[i] == c[if i == k then 0 else i];
    }
  }

  lemma SwapWritten(elim: seq<nat>, c: Clause, k: nat)
    requires k < |c|
    ensures var e := elim + Ints(c);
            e[|elim| + k := e[|elim|]][|elim| := e[|elim| + k]] == elim + Ints(Exchange(c, k, 0))
  {
    var e := elim + Ints(c);
    var f, g := e[|elim| + k := e[|elim|]][|elim| := e[|elim| + k]], elim + Ints(Exchange(c, k, 0));
    forall i | 0 <= i < |e| ensures f[i] == g[i] {
      assert i >= |elim| ==> e[i] == ToInt(c[i - |elim|]);
    }
  }

  lemma SameSign(c: Clause, x: Lit, b: Clause)
    requires DistinctVars(c) && x in c && SameLits(c, b) && b != [] && b[0].v == x.v
    ensures b[0] == x
  {
    assert b[0] in b;
    var i :| 0 <= i < |c| && c[i] == x;
    var j :| 0 <= j < |c| && c[j] == b[0];
  }

  ghost predicate SideStored(ca: seq<Clause>, ids: seq<nat>, x: Lit, stored: seq<Clause>) {
    |stored| <= |ids| && forall k :: 0 <= k < |stored| ==>
      ids[k] < |ca| && Stored(stored[k], x) && SameLits(ca[ids[k]], stored[k])
  }

  lemma SideMore(ca: seq<Clause>, ids: seq<nat>, x: Lit, stored: seq<Clause>, b: Clause)
    requires SideStored(ca, ids, x, stored) && |stored| < |ids| && ids[|stored|] < |ca|
    requires Stored(b, x) && SameLits(ca[ids[|stored|]], b)
    ensures SideStored(ca, ids, x, stored + [b])
  {
  }

  ghost predicate Storable(ca: seq<Clause>, ids: seq<nat>, x: Lit) {
    forall k :: 0 <= k < |ids| ==> ids[k] < |ca| && DistinctVars(ca[ids[k]]) && x in ca[ids[k]]
  }

  lemma UnitWritten(blocks: seq<Clause>, stored: seq<Clause>, y: Lit)
    ensures Flat(blocks + stored) + [ToInt(y)] + [1] == Flat(blocks + (stored + [[y]]))
  {
    FlatAppend(blocks + stored, [y]);
    assert blocks + stored + [[y]] == blocks + (stored + [[y]]);
    assert Ints([y]) == [ToInt(y)];
  }

  lemma SectionMade(ca: seq<Clause>, v: nat, pos: seq<nat>, neg: seq<nat>, P: seq<Clause>, N: seq<Clause>,
      stored: seq<Clause>, section: seq<Clause>)
    requires Storable(ca, pos, Lit(v, false)) && Storable(ca, neg, Lit(v, true))
    requires P == ClausesAt(ca, pos) && N == ClausesAt(ca, neg)
    requires var ids, x := if |pos| > |neg| then neg else pos, Lit(v, |pos| > |neg|);
             && |stored| == |ids| && section == stored + [[Neg(x)]] && SideStored(ca, ids, x, stored)
    ensures SectionFor(section, v, P, N)
  {
    var ids, x := if |pos| > |neg| then neg else pos, Lit(v, |pos| > |neg|);
    var S := if |pos| > |neg| then N else P;
    forall k | 0 <= k < |S| ensures Stored(section[k], x) && SameLits(S[k], section[k]) {
      assert section[k] == stored[k] && S[k] == ca[ids[k]];
    }
  }

  /** The resolvents of the first i rows, and of the first j columns of the next, have been added;
      nothing that was added speaks of v. */
  ghost predicate Resolved(D0: Db, D: Db, v: nat, P: seq<Clause>, N: seq<Clause>, i: nat, j: nat) {
    && Extends(D0, D) && OthersOnly(D0, D, v)
    && (forall A: iset<nat> :: Sat(A, D0) ==> Sat(A, D))
    && forall a: nat, b: nat :: a < |P| && b < |N| && (a < i || (a == i && b < j)) && !Tautological(P[a], N[b], v)
                                ==> Says(D, |D0.ca|, Resolvent(P[a], N[b], v))
  }

  ghost predicate OthersOnly(D0: Db, D: Db, v: nat) {
    forall i: nat, l :: |D0.ca| <= i < |D.ca| && l in D.ca[i] ==> l.v != v
  }

  lemma NothingResolved(D: Db, v: nat, P: seq<Clause>, N: seq<Clause>)
    requires |D.ca| == |D.del|
    ensures Resolved(D, D, v, P, N, 0, 0)
  {
  }

  lemma NextRow(D0: Db, D: Db, v: nat, P: seq<Clause>, N: seq<Clause>, i: nat)
    requires Resolved(D0, D, v, P, N, i, |N|)
    ensures Resolved(D0, D, v, P, N, i + 1, 0)
  {
  }

  lemma SideClauses(D0: Db, D: Db, v: nat, pos: seq<nat>, neg: seq<nat>, P: seq<Clause>, N: seq<Clause>, i: nat, j: nat,
      n: nat, gone: set<nat>)
    requires DbOk(D, n, gone) && SidesOf(D0, v, pos, neg, P, N) && i < |pos| && j < |neg| && Extends(D0, D)
    ensures pos[i] < |D.ca| && neg[j] < |D.ca| && D.ca[pos[i]] == P[i] && D.ca[neg[j]] == N[j]
    ensures LiveOk(P[i], n, gone) && LiveOk(N[j], n, gone) && Lit(v, true) !in P[i] && Lit(v, false) !in N[j]
    ensures Lit(v, false) in P[i] && Lit(v, true) in N[j]
  {
    assert Live(D0, pos[i]) && Live(D0, neg[j]) && Live(D, pos[i]) && Live(D, neg[j]);
    OtherSignOut(P[i], Lit(v, false));
    OtherSignOut(N[j], Lit(v, true));
  }

  lemma SkipOne(D0: Db, D: Db, v: nat, P: seq<Clause>, N: seq<Clause>, i: nat, j: nat)
    requires Resolved(D0, D, v, P, N, i, j) && i < |P| && j < |N| && Tautological(P[i], N[j], v)
    ensures Resolved(D0, D, v, P, N, i, j + 1)
  {
  }

  lemma ResolventShape(p: Clause, q: Clause, v: nat, n: nat, gone: set<nat>)
    requires LiveOk(p, n, gone) && LiveOk(q, n, gone) && !Tautological(p, q, v)
    ensures DistinctVars(Resolvent(p, q, v)) && Over(Resolvent(p, q, v), n, gone)
  {
    TautologicalSymmetric(p, q, v);
    ResolventDistinct(p, q, v);
    forall l | l in Resolvent(p, q, v) ensures l.v < n && l.v !in gone {
      ResolventHas(p, q, v, l);
    }
  }

  lemma OneResolved(D0: Db, D1: Db, D: Db, v: nat, P: seq<Clause>, N: seq<Clause>, i: nat, j: nat)
    requires Resolved(D0, D1, v, P, N, i, j) && i < |P| && j < |N| && Parents(D0, P[i], N[j], v)
    requires AddedTo(D1, D, Resolvent(P[i], N[j], v)) && FromClause(D1, D, Resolvent(P[i], N[j], v))
    ensures Resolved(D0, D, v, P, N, i, j + 1)
  {
    var c := Resolvent(P[i], N[j], v);
    ExtendsTrans(D0, D1, D);
    forall l | l in c ensures l.v != v {
      ResolventHas(P[i], N[j], v, l);
    }
    forall A: iset<nat> | Sat(A, D0) ensures Sat(A, D) {
      ParentsHold(D0, P[i], N[j], v, A);
    }
    forall a: nat, b: nat | a < |P| && b < |N| && (a < i || (a == i && b < j + 1)) && !Tautological(P[a], N[b], v)
      ensures Says(D, |D0.ca|, Resolvent(P[a], N[b], v))
    {
      if a == i && b == j {
        SaysEarlier(D, |D1.ca|, |D0.ca|, c);
      } else {
        StillSays(D1, D, |D0.ca|, Resolvent(P[a], N[b], v));
      }
    }
  }

  lemma SaysEarlier(D: Db, k: nat, k': nat, c: Clause)
    requires Says(D, k, c) && k' <= k
    ensures Says(D, k', c)
  {
    forall A: iset<nat> | TailHolds(A, D, k') ensures Satisfied(A, c) {
      assert TailHolds(A, D, k);
    }
  }

  /** Two live clauses that can be resolved upon v. */
  ghost predicate Parents(D: Db, p: Clause, q: Clause, v: nat) {
    && (exists i: nat :: Live(D, i) && D.ca[i] == p) && (exists i: nat :: Live(D, i) && D.ca[i] == q)
    && Lit(v, true) !in p && Lit(v, false) !in q
  }

  lemma ParentsHold(D: Db, p: Clause, q: Clause, v: nat, A: iset<nat>)
    requires Parents(D, p, q, v) && Sat(A, D)
    ensures Satisfied(A, Resolvent(p, q, v))
  {
    ResolventHolds(p, q, v, A);
  }

  lemma NoneResolved(D0: Db, D1: Db, v: nat, P: seq<Clause>, N: seq<Clause>, i: nat, j: nat)
    requires Resolved(D0, D1, v, P, N, i, j) && i < |P| && j < |N| && Parents(D0, P[i], N[j], v)
    requires forall A: iset<nat> :: !(Sat(A, D1) && Satisfied(A, Resolvent(P[i], N[j], v)))
    ensures NoModel(D0)
  {
    forall A: iset<nat> ensures !Sat(A, D0) {
      if Sat(A, D0) {
        ParentsHold(D0, P[i], N[j], v, A);
      }
    }
  }

  lemma AfterCheck(D2: Db, D: Db, all: seq<Clause>, blocks: seq<Clause>, n: nat, gone: set<nat>, ok: bool)
    requires StackOk(D2, all, blocks, n, gone) && if ok then SameSat(D2, D) else NoModel(D2)
    ensures ok ==> StackOk(D, all, blocks, n, gone)
    ensures !ok ==> Contradictory(all)
  {
    if ok {
      RestoresSame(D2, D, all, blocks);
    } else {
      NoneOfAll(D2, all);
    }
  }

  lemma NoneOfAll(D: Db, all: seq<Clause>)
    requires LosesNone(D, all) && NoModel(D)
    ensures Contradictory(all)
  {
  }

  lemma SidesFrom(D: Db, n: nat, gone: set<nat>, cls: seq<nat>, v: nat, pos: seq<nat>, neg: seq<nat>)
    returns (P: seq<Clause>, N: seq<Clause>)
    requires DbOk(D, n, gone) && SplitOk(D, cls, v, pos, neg) && ClausesOf(D, cls, v)
    ensures Storable(D.ca, pos, Lit(v, false)) && Storable(D.ca, neg, Lit(v, true))
    ensures P == ClausesAt(D.ca, pos) && N == ClausesAt(D.ca, neg)
    ensures SidesOf(D, v, pos, neg, P, N) && Divided(D, v, P, N)
    ensures (forall k :: 0 <= k < |P| ==> LiveOk(P[k], n, gone)) && forall k :: 0 <= k < |N| ==> LiveOk(N[k], n, gone)
  {
    forall k | 0 <= k < |pos| ensures pos[k] < |D.ca| && LiveOk(D.ca[pos[k]], n, gone)
      && Lit(v, false) in D.ca[pos[k]] {
      assert Live(D, pos[k]);
    }
    forall k | 0 <= k < |neg| ensures neg[k] < |D.ca| && LiveOk(D.ca[neg[k]], n, gone) && Lit(v, true) in D.ca[neg[k]] {
      assert Live(D, neg[k]);
    }
    P, N := ClausesAt(D.ca, pos), ClausesAt(D.ca, neg);
    forall k | 0 <= k < |P| ensures LiveOk(P[k], n, gone) && P[k] == D.ca[pos[k]] {
      assert Live(D, pos[k]);
    }
    forall k | 0 <= k < |N| ensures LiveOk(N[k], n, gone) && N[k] == D.ca[neg[k]] {
      assert Live(D, neg[k]);
    }
    forall i: nat | Live(D, i) && v in VarsOf(D.ca[i]) ensures D.ca[i] in P || D.ca[i] in N {
      assert i in cls;
      if i in pos {
        var k :| 0 <= k < |pos| && pos[k] == i;
        assert P[k] == D.ca[i];
      } else {
        var k :| 0 <= k < |neg| && neg[k] == i;
        assert N[k] == D.ca[i];
      }
    }
  }

  /** An unassigned variable is not on the trail. */
  lemma UnassignedVar(trail: seq<Lit>, v: nat, assigns: seq<LBool>)
    requires ValuesOk(assigns, trail) && Assigned(assigns, Lit(v, false)) == Undef && v < |assigns|
    ensures forall l :: l in trail ==> l.v != v
  {
    forall l | l in trail ensures l.v != v {
      assert Assigned(assigns, l) == True;
    }
  }

  lemma AssignedVar(assigns: seq<LBool>, trail: seq<Lit>, v: nat)
    requires ValuesOk(assigns, trail)
    ensures Assigned(assigns, Lit(v, false)) != Undef <==> v in VarsOf(trail)
  {
    var x, y := Lit(v, false), Lit(v, true);
    FalseValue(assigns, trail, x);
    assert Neg(x) == y && forall l: Lit :: l.v == v ==> l == x || l == y;
  }

  lemma StaysOver(trail: seq<Lit>, gone: set<nat>, v: nat)
    ensures TrailOver(trail, gone + {v}) <==> TrailOver(trail, gone) && v !in VarsOf(trail)
  {
    assert forall l :: l in trail ==> l.v in VarsOf(trail);
  }

  /** The database without the clauses of a list. */
  ghost function WithoutClauses(D: Db, cls: seq<nat>): Db {
    D.(del := seq(|D.del|, i requires 0 <= i < |D.del| => D.del[i] || i in cls))
  }

  lemma FewerSettled(lim: int, D: Db, D': Db, queue: seq<nat>, at: nat)
    requires D'.ca == D.ca && D'.trail == D.trail && forall i: nat :: Live(D', i) ==> Live(D, i)
    ensures Settling(lim, D, queue, at) ==> Settling(lim, D', queue, at)
  {
    SettlingMeans(lim, D, queue, at);
    SettlingMeans(lim, D', queue, at);
    forall t | 0 <= t < at && t < |D.trail| && LitSettled(lim, D, D.trail[t]) ensures LitSettled(lim, D', D.trail[t]) {
    }
  }

  /** The stack makes a model of all clauses there ever were from every model of what is left. */
  ghost predicate StackOk(D: Db, all: seq<Clause>, blocks: seq<Clause>, n: nat, gone: set<nat>) {
    && NonEmpty(blocks) && Orderly(blocks, n, gone) && Fronts(blocks, gone)
    && Restores(D, all, blocks) && LosesNone(D, all)
  }

  /** When the clauses of v are gone, v is gone. */
  lemma PurgeVar(D0: Db, D1: Db, v: nat, cls: seq<nat>, n: nat, gone: set<nat>)
    requires Extends(D0, D1) && OthersOnly(D0, D1, v) && ClausesOf(D0, cls, v) && DbOk(D1, n, gone)
    ensures WithoutVar(D0, D1, WithoutClauses(D1, cls), v) && DbOk(WithoutClauses(D1, cls), n, gone + {v})
  {
    var D2 := WithoutClauses(D1, cls);
    forall i: nat | i < |D1.ca| ensures Live(D2, i) <==> Live(D1, i) && !(i < |D0.ca| && v in VarsOf(D0.ca[i])) {
      assert i < |D0.ca| ==> (Live(D1, i) <==> Live(D0, i));
    }
    forall i: nat | Live(D2, i) ensures Live(D1, i) && v !in VarsOf(D2.ca[i]) {
      assert i < |D0.ca| ==> D1.ca[i] == D0.ca[i];
    }
    WithoutV(D2, v, n, gone);
  }

  lemma WithoutV(D: Db, v: nat, n: nat, gone: set<nat>)
    requires DbOk(D, n, gone) && (forall i: nat :: Live(D, i) ==> v !in VarsOf(D.ca[i]))
    ensures DbOk(D, n, gone + {v})
  {
    forall i: nat | Live(D, i) ensures LiveOk(D.ca[i], n, gone + {v}) {
      assert forall l :: l in D.ca[i] ==> l.v in VarsOf(D.ca[i]);
    }
  }

  lemma EmptyList(D: Db, n: nat, gone: set<nat>, v: nat, occurs: Occurs)
    requires DbOk(D, n, gone) && v in gone && OccursOk(D, occurs)
    ensures OccursOk(D, occurs[v := []])
  {
    var occurs' := occurs[v := []];
    forall u ensures OccListOk(D, u, OccOf(occurs', u)) {
      assert OccListOk(D, u, OccOf(occurs, u));
    }
  }

  /** The invariant after the elimination of one more variable. */
  lemma PurgeStep(D0: Db, D1: Db, v: nat, P: seq<Clause>, N: seq<Clause>, cls: seq<nat>, section: seq<Clause>,
      blocks: seq<Clause>, all: seq<Clause>, n: nat, gone: set<nat>)
    requires Resolved(D0, D1, v, P, N, |P|, 0) && SectionFor(section, v, P, N) && DbOk(D1, n, gone)
    requires Before(D0, all, blocks, v, P, N, cls, n, gone) && v < n && v !in gone
    ensures DbOk(WithoutClauses(D1, cls), n, gone + {v}) && forall i :: i in cls ==> i < |D1.ca|
    ensures StackOk(WithoutClauses(D1, cls), all, blocks + section, n, gone + {v})
  {
    PurgeVar(D0, D1, v, cls, n, gone);
    ClsBound(D0, D1, cls);
    ElimStep(D0, D1, WithoutClauses(D1, cls), v, P, N, cls, section, blocks, all, n, gone);
  }

  lemma ElimStep(D0: Db, D1: Db, D2: Db, v: nat, P: seq<Clause>, N: seq<Clause>, cls: seq<nat>, section: seq<Clause>,
      blocks: seq<Clause>, all: seq<Clause>, n: nat, gone: set<nat>)
    requires Resolved(D0, D1, v, P, N, |P|, 0) && WithoutVar(D0, D1, D2, v) && SectionFor(section, v, P, N)
    requires Before(D0, all, blocks, v, P, N, cls, n, gone) && v < n && v !in gone
    ensures StackOk(D2, all, blocks + section, n, gone + {v})
  {
    assert AllSaid(D1, |D0.ca|, P, N, v);
    EliminationLifts(D0, D1, D2, section, v, P, N);
    BothNonEmpty(blocks, section);
    RestoresSection(D0, D2, all, blocks, section);
    StillLosesNone(D0, D1, D2, v, all, P, N);
    SectionOver(section, v, P, N, n, gone);
    var x, S := Lit(v, |P| > |N|), if |P| > |N| then N else P;
    OrderlySection(blocks, section, x, S, n, gone);
    FrontsSection(blocks, section, x, S, gone);
  }

  /** Every block sets an eliminated variable. */
  ghost predicate Fronts(blocks: seq<Clause>, gone: set<nat>) {
    forall k :: 0 <= k < |blocks| ==> blocks[k] != [] && blocks[k][0].v in gone
  }

  lemma FrontsSection(blocks: seq<Clause>, section: seq<Clause>, x: Lit, S: seq<Clause>, gone: set<nat>)
    requires Fronts(blocks, gone) && SectionOf(section, x, S)
    ensures Fronts(blocks + section, gone + {x.v})
  {
    forall k | 0 <= k < |section| ensures section[k] != [] && section[k][0].v == x.v {
      assert k < |S| ==> Stored(section[k], x);
    }
  }

  /** Reading the stack leaves all other variables alone. */
  lemma {:induction false} ExtendLeaves(blocks: seq<Clause>, gone: set<nat>, A: iset<nat>, v: nat)
    requires Fronts(blocks, gone) && v !in gone
    ensures v in Extend(blocks, A) <==> v in A
    decreases |blocks|
  {
    if blocks != [] {
      var m := |blocks| - 1;
      assert blocks[m][0].v in gone;
      FrontsPrefix(blocks, gone, m);
      ExtendLeaves(blocks[..m], gone, ExtendOne(blocks[m], A), v);
    }
  }

  lemma FrontsPrefix(blocks: seq<Clause>, gone: set<nat>, m: nat)
    requires Fronts(blocks, gone) && m <= |blocks|
    ensures Fronts(blocks[..m], gone)
  {
  }

  /** A further clause over variables that are still there. */
  lemma MoreToRestore(D0: Db, D: Db, all: seq<Clause>, blocks: seq<Clause>, c: Clause, n: nat, gone: set<nat>)
    requires StackOk(D0, all, blocks, n, gone) && AddedTo(D0, D, c) && Over(c, n, gone)
    ensures StackOk(D, all + [c], blocks, n, gone)
  {
    forall A: iset<nat> | Sat(A, D) ensures Models(Extend(blocks, A), all + [c]) {
      ExtendsSat(D0, D, A);
      assert TailHolds(A, D, |D0.ca|) && Satisfied(A, c);
      var l :| l in c && Holds(A, l);
      ExtendLeaves(blocks, gone, A, l.v);
      assert Satisfied(Extend(blocks, A), c);
    }
    forall A: iset<nat> | Models(A, all + [c]) ensures Sat(A, D) {
      FirstOfAll(A, all, c);
    }
  }

  lemma FirstOfAll(A: iset<nat>, all: seq<Clause>, c: Clause)
    requires Models(A, all + [c])
    ensures Models(A, all) && Satisfied(A, c)
  {
    assert (all + [c])[|all|] == c;
    forall i | 0 <= i < |all| ensures Satisfied(A, all[i]) {
      assert (all + [c])[i] == all[i];
    }
  }

  lemma NoneWithMore(D0: Db, all: seq<Clause>, blocks: seq<Clause>, c: Clause, n: nat, gone: set<nat>)
    requires StackOk(D0, all, blocks, n, gone) && forall A: iset<nat> :: !(Sat(A, D0) && Satisfied(A, c))
    ensures Contradictory(all + [c])
  {
    forall A: iset<nat> ensures !Models(A, all + [c]) {
      if Models(A, all + [c]) {
        FirstOfAll(A, all, c);
      }
    }
  }

  lemma BothNonEmpty(a: seq<Clause>, b: seq<Clause>)
    requires NonEmpty(a) && NonEmpty(b)
    ensures NonEmpty(a + b)
  {
  }

  lemma StillLosesNone(D0: Db, D1: Db, D2: Db, v: nat, all: seq<Clause>, P: seq<Clause>, N: seq<Clause>)
    requires Resolved(D0, D1, v, P, N, |P|, 0) && WithoutVar(D0, D1, D2, v) && LosesNone(D0, all)
    ensures LosesNone(D2, all)
  {
    forall A: iset<nat> | Models(A, all) ensures Sat(A, D2) {
      assert Sat(A, D0) && Sat(A, D1);
      PurgedSat(D0, D1, D2, v, A);
    }
  }

  lemma SectionOver(section: seq<Clause>, v: nat, P: seq<Clause>, N: seq<Clause>, n: nat, gone: set<nat>)
    requires SectionFor(section, v, P, N) && v < n && v !in gone
    requires (forall k :: 0 <= k < |P| ==> LiveOk(P[k], n, gone)) && forall k :: 0 <= k < |N| ==> LiveOk(N[k], n, gone)
    ensures forall k, l :: 0 <= k < |section| && l in section[k] ==> l.v < n && l.v !in gone
  {
    var S := if |P| > |N| then N else P;
    forall k, l | 0 <= k < |section| && l in section[k] ensures l.v < n && l.v !in gone {
      if k < |S| {
        assert SameLits(S[k], section[k]) && LiveOk(S[k], n, gone);
      }
    }
  }

  ghost predicate Marks(eliminated: seq<bool>, gone: set<nat>) {
    forall v: nat :: v < |eliminated| ==> (eliminated[v] <==> v in gone)
  }

  ghost predicate Contradictory(all: seq<Clause>) {
    forall A: iset<nat> :: !Models(A, all)
  }

  lemma OneMore(next: Db -> nat, D0: Db, D1: Db, D: Db, v: nat, P: seq<Clause>, N: seq<Clause>, i: nat, j: nat,
      assigns: seq<LBool>)
    requires Resolved(D0, D1, v, P, N, i, j) && Derived(next, D0, D1.trail, v, P, N, i, j) && i < |P| && j < |N|
    requires Parents(D0, P[i], N[j], v) && !Tautological(P[i], N[j], v) && DistinctVars(Resolvent(P[i], N[j], v))
    requires AddedTo(D1, D, Resolvent(P[i], N[j], v)) && Took(D1, D, Resolvent(P[i], N[j], v), next)
      && ValuesOk(assigns, D1.trail)
    ensures Resolved(D0, D, v, P, N, i, j + 1) && Derived(next, D0, D.trail, v, P, N, i, j + 1)
  {
    TookFrom(D1, D, Resolvent(P[i], N[j], v), next);
    OneResolved(D0, D1, D, v, P, N, i, j);
    TrailConsistent(assigns, D1.trail);
    OneDerived(next, D0, D1, D, v, P, N, i, j);
  }

  lemma NothingMore(next: Db -> nat, D: Db, n: nat, gone: set<nat>)
    requires !Propagates(D, next(D)) && DbOk(D, n, gone)
    ensures Thorough(next) ==> forall cr: nat :: Live(D, cr) ==> AtRest(D.trail, D.ca[cr])
  {
    if Thorough(next) {
      PropagatedAll(next, D, n, gone);
    }
  }

  ghost predicate NoneTouched(touched: seq<bool>) {
    forall v :: 0 <= v < |touched| ==> !touched[v]
  }

  lemma LiveBelow(c: Clause, n: nat, gone: set<nat>)
    requires LiveOk(c, n, gone)
    ensures forall l :: l in c ==> l.v < n
  {
  }

  lemma NonEmptyClauses(D: Db, n: nat, gone: set<nat>)
    requires DbOk(D, n, gone)
    ensures forall i: nat :: Live(D, i) ==> D.ca[i] != []
  {
    forall i: nat | Live(D, i) ensures D.ca[i] != [] {
      assert LiveOk(D.ca[i], n, gone);
    }
  }

  /** The clauses with one of the touched variables below i have been queued, and no others. */
  ghost predicate Queued(D: Db, touched: seq<bool>, queue0: seq<nat>, queue: seq<nat>, i: nat) {
    && (forall k: nat, l :: Live(D, k) && l in D.ca[k] && l.v < i && l.v < |touched| && touched[l.v] ==> k in queue)
    && forall k :: k in queue ==> k in queue0 || (Live(D, k) && Touched(touched, D.ca[k]))
  }

  lemma QueuedMore(D: Db, touched: seq<bool>, queue0: seq<nat>, queue1: seq<nat>, queue: seq<nat>, i: nat, cs: seq<nat>)
    requires Queued(D, touched, queue0, queue1, i) && ClausesOf(D, cs, i) && i < |touched| && touched[i]
    requires forall k :: k in queue <==> k in queue1 || k in cs
    ensures Queued(D, touched, queue0, queue, i + 1)
  {
    forall k | k in cs ensures Live(D, k) && Touched(touched, D.ca[k]) {
      var l :| l in D.ca[k] && l.v == i;
    }
    forall k: nat, l | Live(D, k) && l in D.ca[k] && l.v < i + 1 && l.v < |touched| && touched[l.v] ensures k in queue {
      assert l.v == i ==> i in VarsOf(D.ca[k]);
    }
  }

  lemma NothingQueued(D: Db, touched: seq<bool>, queue: seq<nat>)
    ensures Queued(D, touched, queue, queue, 0)
  {
  }

  lemma QueuedSkip(D: Db, touched: seq<bool>, queue0: seq<nat>, queue: seq<nat>, i: nat)
    requires Queued(D, touched, queue0, queue, i) && (i < |touched| ==> !touched[i])
    ensures Queued(D, touched, queue0, queue, i + 1)
  {
  }

  lemma AllQueued(D: Db, touched: seq<bool>, queue0: seq<nat>, queue: seq<nat>)
    requires Queued(D, touched, queue0, queue, |touched|)
    ensures forall i: nat :: Live(D, i) && Touched(touched, D.ca[i]) ==> i in queue
    ensures forall i :: i in queue ==> i in queue0 || (Live(D, i) && Touched(touched, D.ca[i]))
  {
  }

  lemma TrailConsistent(assigns: seq<LBool>, trail: seq<Lit>)
    requires ValuesOk(assigns, trail)
    ensures Consistent(trail)
  {
    forall l | l in trail ensures Neg(l) !in trail {
      FalseValue(assigns, trail, l);
    }
  }

  /** What was true before the resolvents were added. */
  ghost predicate Before(D0: Db, all: seq<Clause>, blocks: seq<Clause>, v: nat, P: seq<Clause>, N: seq<Clause>,
      cls: seq<nat>, n: nat, gone: set<nat>)
  {
    && StackOk(D0, all, blocks, n, gone)
    && Divided(D0, v, P, N) && (forall l :: l in D0.trail ==> l.v != v)
    && (forall k :: 0 <= k < |P| ==> LiveOk(P[k], n, gone)) && (forall k :: 0 <= k < |N| ==> LiveOk(N[k], n, gone))
    && ClausesOf(D0, cls, v)
  }

  lemma Gather(D: Db, all: seq<Clause>, blocks: seq<Clause>, cls: seq<nat>, v: nat, pos: seq<nat>, neg: seq<nat>,
      n: nat, gone: set<nat>, assigns: seq<LBool>)
    returns (P: seq<Clause>, N: seq<Clause>)
    requires DbOk(D, n, gone) && SplitOk(D, cls, v, pos, neg) && ClausesOf(D, cls, v)
    requires ValuesOk(assigns, D.trail) && v < |assigns| && Assigned(assigns, Lit(v, false)) == Undef
    requires StackOk(D, all, blocks, n, gone)
    ensures Storable(D.ca, pos, Lit(v, false)) && Storable(D.ca, neg, Lit(v, true)) && P == ClausesAt(D.ca, pos)
      && N == ClausesAt(D.ca, neg)
    ensures SidesOf(D, v, pos, neg, P, N) && Before(D, all, blocks, v, P, N, cls, n, gone)
  {
    P, N := SidesFrom(D, n, gone, cls, v, pos, neg);
    UnassignedVar(D.trail, v, assigns);
  }

  lemma ClsBound(D0: Db, D1: Db, cls: seq<nat>)
    requires Extends(D0, D1) && forall i: nat :: i in cls ==> Live(D0, i)
    ensures forall i :: i in cls ==> i < |D1.ca|
  {
  }
}
