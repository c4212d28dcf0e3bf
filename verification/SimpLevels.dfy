/** When level 0 stays free of literals of eliminated variables. */
module SimpLevels {
  import opened SolverTypes
  import opened SolverStates
  import opened SolverNogoods
  import opened SolverAnalysis
  import opened Subsumption
  import opened SubsumptionRuns
  import opened Elimination
  import opened SimpStates
  import opened SimpAdding
  import opened ElimLimits

  ghost predicate TrailOver(trail: seq<Lit>, gone: set<nat>) {
    forall l :: l in trail ==> l.v !in gone
  }

  /** No clause that is too long for subsumption has a resolvent that is short enough for elimination. */
  predicate Safe(lim: int, clause_lim: int) {
    lim == -1 || (clause_lim != -1 && clause_lim < (if lim < 2 then 2 else lim) - 1)
  }

  // ----- how far propagation goes -----

  /** The clause is not overlooked: propagation goes on as long as it gives something. */
  ghost predicate Watches(next: Db -> nat, cr: nat) {
    forall D: Db :: Propagates(D, cr) ==> Propagates(D, next(D))
  }

  /** No clause is overlooked, as with complete watch lists. */
  ghost predicate Thorough(next: Db -> nat) {
    forall cr: nat :: Watches(next, cr)
  }

  /** The clause is true, or has two open literals. */
  ghost predicate AtRest(trail: seq<Lit>, c: Clause) {
    (exists l :: l in c && l in trail) || TwoOpen(trail, c)
  }

  /** Then propagation ends only when nothing is left to derive. */
  lemma PropagatedAll(next: Db -> nat, D: Db, n: nat, gone: set<nat>)
    requires Thorough(next) && !Propagates(D, next(D)) && DbOk(D, n, gone)
    ensures forall cr: nat :: Live(D, cr) ==> AtRest(D.trail, D.ca[cr])
  {
    forall cr: nat | Live(D, cr) ensures AtRest(D.trail, D.ca[cr]) {
      assert Watches(next, cr) && !Propagates(D, cr) && LiveOk(D.ca[cr], n, gone);
      RestingClause(D, cr);
    }
  }

  lemma RestingClause(D: Db, cr: nat)
    requires Live(D, cr) && !Propagates(D, cr) && DistinctVars(D.ca[cr]) && D.ca[cr] != []
    ensures AtRest(D.trail, D.ca[cr])
  {
    hide FalseBut, Propagates;
    if forall l :: l in D.ca[cr] ==> l !in D.trail {
      assert D.ca[cr][0] in D.ca[cr];
      var x := NotFalse(D.trail, D.ca[cr], D.ca[cr][0]);
      NotUnit(D, cr, x);
      TwoLeft(D.trail, D.ca[cr], x);
    }
  }

  lemma NotUnit(D: Db, cr: nat, u: Lit)
    requires Live(D, cr) && !Propagates(D, cr) && u !in D.trail
    ensures !FalseBut(D.trail, D.ca[cr], [u])
  {
    hide FalseBut;
  }

  lemma TwoLeft(trail: seq<Lit>, c: Clause, x: Lit)
    requires DistinctVars(c) && x in c && (forall l :: l in c ==> l !in trail) && !FalseBut(trail, c, [x])
    requires Neg(x) !in trail || forall l :: l in c ==> Neg(l) in trail
    ensures TwoOpen(trail, c)
  {
    var y := NotFalseBut(trail, c, x);
    OtherVars(c, x, y);
    assert Open(trail, x) && Open(trail, y);
  }

  lemma NotFalseBut(trail: seq<Lit>, c: Clause, x: Lit) returns (y: Lit)
    requires !FalseBut(trail, c, [x])
    ensures y in c && y != x && Neg(y) !in trail
  {
    y :| y in c && y !in [x] && Neg(y) !in trail;
    assert x in [x];
  }

  /** A literal that is not false, or any literal if there is none. */
  lemma NotFalse(trail: seq<Lit>, c: Clause, d: Lit) returns (x: Lit)
    requires d in c
    ensures x in c && (Neg(x) !in trail || forall l :: l in c ==> Neg(l) in trail)
  {
    x := d;
    if l :| l in c && Neg(l) !in trail {
      x := l;
    }
  }

  lemma OtherVars(c: Clause, x: Lit, y: Lit)
    requires DistinctVars(c) && x in c && y in c && x != y
    ensures x.v != y.v
  {
    var i :| 0 <= i < |c| && c[i] == x;
    var j :| 0 <= j < |c| && c[j] == y;
  }

  // ----- settled clauses have no unit resolvents -----

  /** No resolvent is a unit, or becomes one without its false literals. */
  ghost predicate NoUnits(trail: seq<Lit>, v: nat, P: seq<Clause>, N: seq<Clause>) {
    forall i, j ::
      0 <= i < |P| && 0 <= j < |N| && !Tautological(P[i], N[j], v) ==> TwoOpen(trail, Resolvent(P[i], N[j], v))
  }

  lemma ResolventLength(p: Clause, q: Clause, v: nat)
    requires DistinctVars(p) && DistinctVars(q)
    ensures |p| <= |Resolvent(p, q, v)| + 1 && |q| <= |Resolvent(p, q, v)| + 1
  {
    var big := Larger(p, q);
    OtherLitsLength(big, v, |big|);
  }

  lemma HarmlessLit(l: Lit, c: Clause)
    requires Harmless([l], c)
    ensures l !in c && Neg(l) !in c
  {
    assert !Subset([l], c) && !Flips([l], c, l);
  }

  lemma AllOpen(trail: seq<Lit>, c: Clause)
    requires forall l :: l in trail ==> Harmless([l], c)
    ensures forall l :: l in c ==> Open(trail, l)
  {
    forall l | l in trail ensures l !in c && Neg(l) !in c {
      HarmlessLit(l, c);
    }
    assert forall l :: Neg(Neg(l)) == l;
  }

  /** The clauses differ in v only if their resolvent has one variable. */
  lemma OneVariable(p: Clause, q: Clause, v: nat)
    requires DistinctVars(p) && DistinctVars(q) && |p| >= 2 && |q| >= 2 && Lit(v, false) in p && Lit(v, true) in q
    requires !Tautological(p, q, v) && forall x, y :: x in Resolvent(p, q, v) && y in Resolvent(p, q, v) ==> x.v == y.v
    ensures Flips(p, q, Lit(v, false)) && Flips(q, p, Lit(v, true))
  {
    var a := Other(p, v);
    var b := Other(q, v);
    forall l ensures l in Resolvent(p, q, v) <==> l.v != v && (l in p || l in q) {
      ResolventHas(p, q, v, l);
    }
    assert a == b by {
      assert a == Neg(b) || a == b;
      assert !(a in p && a.v != v && Neg(a) in q) && Neg(Neg(b)) == b;
    }
    OthersAre(p, q, v, Lit(v, false), a);
    OthersAre(q, p, v, Lit(v, true), a);
  }

  lemma Other(c: Clause, v: nat) returns (l: Lit)
    requires DistinctVars(c) && |c| >= 2
    ensures l in c && l.v != v
  {
    assert c[0].v != c[1].v && c[0] in c && c[1] in c;
    l := if c[0].v == v then c[1] else c[0];
  }

  lemma OthersAre(p: Clause, q: Clause, v: nat, x: Lit, a: Lit)
    requires DistinctVars(p) && x in p && x.v == v && Neg(x) in q && a in p && a in q && a.v != v
    requires forall l :: l in p && l.v != v ==> l.v == a.v
    ensures Flips(p, q, x)
  {
    forall l | l in p && l != x ensures l in q {
      SameLit(p, l, if l.v == v then x else a);
    }
  }

  lemma SameLit(c: Clause, l: Lit, k: Lit)
    requires DistinctVars(c) && l in c && k in c && l.v == k.v
    ensures l == k
  {
    var i :| 0 <= i < |c| && c[i] == l;
    var j :| 0 <= j < |c| && c[j] == k;
  }

  /** Resolving two settled short clauses leaves two open variables. */
  lemma SettledTwoOpen(lim: int, D: Db, i: nat, j: nat, v: nat)
    requires Settling(lim, D, [], |D.trail|) && Resolvable(D, v, i, j) && Short(lim, D.ca[i]) && Short(lim, D.ca[j])
    requires DistinctVars(D.ca[i]) && DistinctVars(D.ca[j]) && |D.ca[i]| >= 2 && |D.ca[j]| >= 2
    ensures TwoOpen(D.trail, Resolvent(D.ca[i], D.ca[j], v))
  {
    var p, q := D.ca[i], D.ca[j];
    var r := Resolvent(p, q, v);
    SettlingMeans(lim, D, [], |D.trail|);
    TrailHarmless(lim, D, i);
    TrailHarmless(lim, D, j);
    AllOpen(D.trail, p);
    AllOpen(D.trail, q);
    OtherSignOut(p, Lit(v, false));
    assert i != j && (Harmless(p, q) || Harmless(q, p));
    if forall x, y :: x in r && y in r ==> x.v == y.v {
      OneVariable(p, q, v);
    }
    var x, y :| x in r && y in r && x.v != y.v;
    ResolventHas(p, q, v, x);
    ResolventHas(p, q, v, y);
  }

  lemma TrailHarmless(lim: int, D: Db, i: nat)
    requires Settling(lim, D, [], |D.trail|) && Live(D, i) && Short(lim, D.ca[i])
    ensures forall l :: l in D.trail ==> Harmless([l], D.ca[i])
  {
    SettlingMeans(lim, D, [], |D.trail|);
    forall l | l in D.trail ensures Harmless([l], D.ca[i]) {
      var t :| 0 <= t < |D.trail| && D.trail[t] == l;
    }
  }

  /** All resolvents have two open variables. */
  ghost predicate QuietPairs(D: Db, v: nat) {
    forall i: nat, j: nat :: Resolvable(D, v, i, j) ==> TwoOpen(D.trail, Resolvent(D.ca[i], D.ca[j], v))
  }

  /** With safe limits, a variable that is eliminated from settled clauses has no unit resolvents. */
  lemma SafePairs(lim: int, D: Db, v: nat, grow: int, clause_lim: int, n: nat, gone: set<nat>)
    requires Safe(lim, clause_lim) && Settling(lim, D, [], |D.trail|) && !TooMuch(D, v, grow, clause_lim)
      && DbOk(D, n, gone)
    ensures QuietPairs(D, v)
  {
    forall i: nat, j: nat | Resolvable(D, v, i, j) ensures TwoOpen(D.trail, Resolvent(D.ca[i], D.ca[j], v)) {
      assert LiveOk(D.ca[i], n, gone) && LiveOk(D.ca[j], n, gone);
      assert !TooLong(D.ca[i], D.ca[j], v, clause_lim);
      ResolventLength(D.ca[i], D.ca[j], v);
      SettledTwoOpen(lim, D, i, j, v);
    }
  }

  // ----- what the resolvents put on level 0 -----

  /** The literals that the resolvents added so far give, and nothing if none of them is a unit; the
      last change was propagated. */
  ghost predicate Derived(next: Db -> nat, D0: Db, trail: seq<Lit>, v: nat, P: seq<Clause>, N: seq<Clause>, i: nat,
      j: nat)
  {
    && D0.trail <= trail && (NoUnits(D0.trail, v, P, N) ==> trail == D0.trail)
    && LastPropagated(next, D0, trail)
    && forall x: nat, y: nat, a ::
       x < |P| && y < |N| && Earlier(x, y, i, j) && UnitResolvent(D0.trail, P[x], N[y], v, a) ==> a in trail
  }

  /** The resolvent is a unit but for false literals. */
  ghost predicate UnitResolvent(trail: seq<Lit>, p: Clause, q: Clause, v: nat, a: Lit) {
    !Tautological(p, q, v) && a in Resolvent(p, q, v) && FalseBut(trail, Resolvent(p, q, v), [a])
  }

  ghost predicate AfterAll(D0: Db, D1: Db, trail: seq<Lit>) {
    D0.ca <= D1.ca && D0.del <= D1.del && D1.trail == trail
  }

  ghost predicate LastPropagated(next: Db -> nat, D0: Db, trail: seq<Lit>) {
    trail == D0.trail || exists D1: Db :: AfterAll(D0, D1, trail) && !Propagates(D1, next(D1))
  }

  lemma NothingDerived(next: Db -> nat, D: Db, v: nat, P: seq<Clause>, N: seq<Clause>)
    ensures Derived(next, D, D.trail, v, P, N, 0, 0)
  {
  }

  lemma DerivedRow(next: Db -> nat, D0: Db, trail: seq<Lit>, v: nat, P: seq<Clause>, N: seq<Clause>, i: nat)
    requires Derived(next, D0, trail, v, P, N, i, |N|)
    ensures Derived(next, D0, trail, v, P, N, i + 1, 0)
  {
    EarlierRow(i, |N|);
  }

  lemma SkipDerived(next: Db -> nat, D0: Db, trail: seq<Lit>, v: nat, P: seq<Clause>, N: seq<Clause>, i: nat, j: nat)
    requires Derived(next, D0, trail, v, P, N, i, j) && i < |P| && j < |N| && Tautological(P[i], N[j], v)
    ensures Derived(next, D0, trail, v, P, N, i, j + 1)
  {
    EarlierNext(i, j);
  }

  /** No literal is on the trail with its negation. */
  ghost predicate Consistent(trail: seq<Lit>) {
    forall l :: l in trail ==> Neg(l) !in trail
  }

  lemma OneDerived(next: Db -> nat, D0: Db, D1: Db, D: Db, v: nat, P: seq<Clause>, N: seq<Clause>, i: nat, j: nat)
    requires Derived(next, D0, D1.trail, v, P, N, i, j) && i < |P| && j < |N| && !Tautological(P[i], N[j], v)
    requires Took(D1, D, Resolvent(P[i], N[j], v), next) && Consistent(D1.trail) && D0.ca <= D1.ca && D0.del <= D1.del
    requires DistinctVars(Resolvent(P[i], N[j], v))
    ensures Derived(next, D0, D.trail, v, P, N, i, j + 1)
  {
    var c := Resolvent(P[i], N[j], v);
    EarlierNext(i, j);
    TookFrom(D1, D, c, next);
    if NoUnits(D0.trail, v, P, N) {
      assert TwoOpen(D1.trail, c);
      TookLong(D1, D, c, next);
    }
    NextPropagated(next, D0, D1, D, c);
    forall x: nat, y: nat, a | x < |P| && y < |N| && Earlier(x, y, i, j + 1)
      && UnitResolvent(D0.trail, P[x], N[y], v, a)
      ensures a in D.trail
    {
      if x == i && y == j {
        OtherSignOut(c, a);
        assert FalseBut(D1.trail, c, [a]);
        TookUnit(D1, D, c, next, a);
      } else {
        assert a in D1.trail;
      }
    }
  }

  lemma NextPropagated(next: Db -> nat, D0: Db, D1: Db, D: Db, c: Clause)
    requires Took(D1, D, c, next) && D0.ca <= D1.ca && D0.del <= D1.del && LastPropagated(next, D0, D1.trail)
    ensures LastPropagated(next, D0, D.trail)
  {
    if D.trail != D1.trail {
      assert AfterAll(D0, D, D.trail) && !Propagates(D, next(D));
    }
  }

  /** The same for all resolvents, whatever the order. */
  ghost predicate LevelAfter(next: Db -> nat, D0: Db, v: nat, trail: seq<Lit>) {
    && D0.trail <= trail && LastPropagated(next, D0, trail) && (QuietPairs(D0, v) ==> trail == D0.trail)
    && forall i: nat, j: nat, a ::
       Resolvable(D0, v, i, j) && UnitResolvent(D0.trail, D0.ca[i], D0.ca[j], v, a) ==> a in trail
  }

  lemma AllDerived(next: Db -> nat, D0: Db, trail: seq<Lit>, v: nat, pos: seq<nat>, neg: seq<nat>, P: seq<Clause>,
      N: seq<Clause>, cls: seq<nat>, n: nat, gone: set<nat>)
    requires Derived(next, D0, trail, v, P, N, |P|, 0) && SidesOf(D0, v, pos, neg, P, N)
      && SplitOk(D0, cls, v, pos, neg)
    requires ClausesOf(D0, cls, v) && DbOk(D0, n, gone)
    ensures LevelAfter(next, D0, v, trail)
  {
    forall k: nat | Live(D0, k) ensures DistinctVars(D0.ca[k]) {
      assert LiveOk(D0.ca[k], n, gone);
    }
    if QuietPairs(D0, v) {
      forall i, j | 0 <= i < |P| && 0 <= j < |N| && !Tautological(P[i], N[j], v)
        ensures TwoOpen(D0.trail, Resolvent(P[i], N[j], v)) {
        assert Resolvable(D0, v, pos[i], neg[j]);
      }
      assert NoUnits(D0.trail, v, P, N);
    }
    forall i: nat, j: nat, a | Resolvable(D0, v, i, j) && UnitResolvent(D0.trail, D0.ca[i], D0.ca[j], v, a)
      ensures a in trail {
      PairFound(D0, cls, pos, neg, v, i, j);
      var s: nat, t: nat :| s < |pos| && t < |neg| && pos[s] == i && neg[t] == j;
      assert Earlier(s, t, |P|, 0) && P[s] == D0.ca[i] && N[t] == D0.ca[j];
    }
  }

  /** Later on level 0 only grows. */
  ghost predicate LevelReached(next: Db -> nat, D0: Db, v: nat, trail: seq<Lit>) {
    exists after :: LevelAfter(next, D0, v, after) && after <= trail
  }

  /** A unit resolvent, and a clause that propagation looks at and that gives the variable back. */
  ghost predicate Backfires(next: Db -> nat, D: Db, v: nat, i: nat, j: nat, a: Lit, cr: nat, x: Lit) {
    && Resolvable(D, v, i, j) && UnitResolvent(D.trail, D.ca[i], D.ca[j], v, a) && a !in D.trail
    && Live(D, cr) && x.v == v && FalseBut(D.trail + [a], D.ca[cr], [x]) && Watches(next, cr)
  }

  /** Then the variable is back on level 0 when its resolvents have been added. */
  lemma VariableBack(next: Db -> nat, D0: Db, v: nat, trail: seq<Lit>, i: nat, j: nat, a: Lit, cr: nat, x: Lit)
    requires LevelReached(next, D0, v, trail) && Backfires(next, D0, v, i, j, a, cr, x)
    ensures x in trail
  {
    var after :| LevelAfter(next, D0, v, after) && after <= trail;
    GivenBack(next, D0, after, a, cr, x);
  }

  lemma GivenBack(next: Db -> nat, D0: Db, after: seq<Lit>, a: Lit, cr: nat, x: Lit)
    requires D0.trail <= after && LastPropagated(next, D0, after) && a in after && a !in D0.trail
    requires Live(D0, cr) && FalseBut(D0.trail + [a], D0.ca[cr], [x]) && Watches(next, cr)
    ensures x in after
  {
    var D1: Db :| AfterAll(D0, D1, after) && !Propagates(D1, next(D1));
    assert Live(D1, cr) && D1.ca[cr] == D0.ca[cr];
    assert FalseBut(D1.trail, D1.ca[cr], [x]);
  }
}
