/** Limits that are not safe: an eliminated variable comes back to level 0. */
module SimpLimits {
  import opened SolverTypes
  import opened SolverStates
  import opened SolverNogoods
  import opened SolverAnalysis
  import opened Subsumption
  import opened SubsumptionRuns
  import opened Elimination
  import opened SimpStates
  import opened SimpAdding
  import opened ElimLimits
  import opened SimpLevels
  import opened SimpSolvers

  // ----- the clauses -----

  /** Literals that make a clause too long for subsumption. They are false at level 0 in the end. */
  function Filler(n: nat): (r: Clause)
    ensures |r| == n && forall k :: 0 <= k < n ==> r[k] == Lit(k + 2, false)
  {
    seq(n, k requires 0 <= k => Lit(k + 2, false))
  }

  /** Variable 0 is the one to be eliminated, and 1 is what is left of the resolvent. */
  function Wide(n: nat, neg: bool): Clause {
    [Lit(0, neg), Lit(1, false)] + Filler(n)
  }

  const NARROW: Clause := [Lit(0, false), Lit(1, true)]

  function Falsifier(k: nat): Clause {
    [Lit(k + 2, true)]
  }

  ghost predicate InWide(n: nat, neg: bool, l: Lit) {
    l == Lit(0, neg) || (1 <= l.v < n + 2 && !l.neg)
  }

  lemma WideHas(n: nat, neg: bool, l: Lit)
    ensures l in Wide(n, neg) <==> InWide(n, neg, l)
  {
    if 2 <= l.v < n + 2 && !l.neg {
      assert Wide(n, neg)[l.v] == l;
    }
    assert Wide(n, neg)[0] == Lit(0, neg) && Wide(n, neg)[1] == Lit(1, false);
  }

  lemma WideDistinct(n: nat, neg: bool)
    ensures DistinctVars(Wide(n, neg)) && |Wide(n, neg)| == n + 2
  {
    assert forall i :: 0 <= i < n + 2 ==> Wide(n, neg)[i].v == i;
  }

  /** The three clauses are there, and the first k filler literals are false. */
  ghost predicate Loaded(D: Db, n: nat, m: nat, k: nat) {
    && |D.ca| == m <= 3 && D.del == seq(m, i => false) && k <= n && D.trail == Negations(k)
    && (m > 0 ==> SameLits(Wide(n, false), D.ca[0])) && (m > 1 ==> SameLits(Wide(n, true), D.ca[1]))
    && (m > 2 ==> SameLits(NARROW, D.ca[2]))
  }

  function Negations(k: nat): (r: seq<Lit>)
    ensures |r| == k && forall i :: 0 <= i < k ==> r[i] == Lit(i + 2, true)
  {
    seq(k, i requires 0 <= i => Lit(i + 2, true))
  }

  lemma NegationsHas(k: nat, l: Lit)
    ensures l in Negations(k) <==> 2 <= l.v < k + 2 && l.neg
  {
    if 2 <= l.v < k + 2 && l.neg {
      assert Negations(k)[l.v - 2] == l;
    }
  }

  /** Everything that is given to the solver. */
  function Given(n: nat, k: nat): (r: seq<Clause>)
    ensures |r| == 3 + k
  {
    [Wide(n, false), Wide(n, true), NARROW] + seq(k, i requires 0 <= i => Falsifier(i))
  }

  /** It has a model, so no step can fail. */
  lemma GivenHasModel(n: nat, k: nat, m: nat)
    requires m <= 3 + k
    ensures !Contradictory(Given(n, k)[..m])
  {
    var A: iset<nat> := iset{0, 1};
    forall i | 0 <= i < m ensures Satisfied(A, Given(n, k)[..m][i]) {
      var c := Given(n, k)[i];
      var l := if i == 0 || i == 2 then Lit(0, false) else if i == 1 then Lit(1, false) else Lit(i - 1, true);
      assert i < 3 || c == Falsifier(i - 3);
      WideHas(n, true, Lit(1, false));
      WideHas(n, false, Lit(0, false));
      assert l in c && Holds(A, l);
    }
    assert Models(A, Given(n, k)[..m]);
  }

  // ----- loading -----

  lemma SameLength(c: Clause, c': Clause)
    requires DistinctVars(c) && DistinctVars(c') && forall l :: l in c <==> l in c'
    ensures SameLits(c, c')
  {
    assert VarsOf(c) == VarsOf(c');
    VarsCount(c);
    VarsCount(c');
  }

  /** A clause of several open literals is appended as it is. */
  lemma TookWhole(D0: Db, D: Db, c: Clause, next: Db -> nat, x: Lit, y: Lit)
    requires Took(D0, D, c, next) && D0.trail == [] && x in c && y in c && x.v != y.v
    requires DistinctVars(c) && forall l :: l in c ==> Neg(l) !in c
    ensures exists c' :: D == Appended(D0, c') && SameLits(c, c') && DistinctVars(c')
  {
    assert !Redundant(D0.trail, c);
    var c' :| Rest(D0.trail, c, c') && RestAdded(D0, D, c', next);
    assert x in c' && y in c';
    TwoMembers(c', x, y);
    SameLength(c, c');
    assert D == Appended(D0, c');
  }

  lemma TookLit(D0: Db, D: Db, u: Lit, next: Db -> nat)
    requires Took(D0, D, [u], next) && Open(D0.trail, u) && !Propagates(Enqueued(D0, u), next(Enqueued(D0, u)))
    ensures D == Enqueued(D0, u)
  {
    assert u in [u] && Neg(u) !in [u];
    assert !Redundant(D0.trail, [u]);
    var c' :| Rest(D0.trail, [u], c') && RestAdded(D0, D, c', next);
    OnlyOne(c', u);
  }

  /** Propagation has nothing to do before variable 0 or 1 is assigned. */
  lemma NothingPropagates(D: Db, n: nat, k: nat, cr: nat)
    requires Loaded(D, n, 3, k)
    ensures !Propagates(D, cr)
  {
    if cr < 3 {
      var x, y := Lit(0, cr == 1), Lit(1, cr == 2);
      WideHas(n, false, x);
      WideHas(n, false, y);
      WideHas(n, true, x);
      WideHas(n, true, y);
      assert x in NARROW || cr != 2;
      assert y in NARROW || cr != 2;
      assert x in D.ca[cr] && y in D.ca[cr];
      NegationsHas(k, Neg(x));
      NegationsHas(k, Neg(y));
      forall u ensures !FalseBut(D.trail, D.ca[cr], [u]) {
      }
    }
  }

  /** The next clause of the three. */
  lemma LoadedMore(D0: Db, D: Db, n: nat, m: nat, c: Clause, c': Clause)
    requires Loaded(D0, n, m, 0) && m < 3 && D == Appended(D0, c') && SameLits(c, c')
    requires c == if m == 0 then Wide(n, false) else if m == 1 then Wide(n, true) else NARROW
    ensures Loaded(D, n, m + 1, 0)
  {
    assert D.del == seq(m + 1, i => false);
  }

  /** The clauses of the example are not tautologies. */
  lemma Sensible(n: nat, c: Clause)
    requires c == Wide(n, false) || c == Wide(n, true) || c == NARROW
    ensures forall l :: l in c ==> Neg(l) !in c && l.v < n + 2
    ensures DistinctVars(c) && exists x, y :: x in c && y in c && x.v != y.v
  {
    WideDistinct(n, false);
    WideDistinct(n, true);
    forall l ensures (l in Wide(n, false) <==> InWide(n, false, l)) && (l in Wide(n, true) <==> InWide(n, true, l)) {
      WideHas(n, false, l);
      WideHas(n, true, l);
    }
    assert c[0] in c && c[1] in c;
  }

  method LoadClause(s: SimpSolver, n: nat, m: nat, c: Clause)
    requires s.Valid() && s.gone == {} && |s.assigns| == n + 2 && m < 3 && Loaded(s.D(), n, m, 0)
      && s.all == Given(n, 0)[..m]
    requires c == if m == 0 then Wide(n, false) else if m == 1 then Wide(n, true) else NARROW
    modifies s
    ensures s.Valid() && s.gone == {} && |s.assigns| == n + 2 && Loaded(s.D(), n, m + 1, 0)
      && s.all == Given(n, 0)[..m + 1]
  {
    hide StackOk, Settling, DbOk, AbsOk, OccursOk, ValuesOk, Marks, Took;
    ghost var D0 := s.D();
    Sensible(n, c);
    var ok := s.AddOriginal(c);
    assert s.all == Given(n, 0)[..m + 1];
    GivenHasModel(n, 0, m + 1);
    ghost var x, y :| x in c && y in c && x.v != y.v;
    TookWhole(D0, s.D(), c, s.next, x, y);
    ghost var c' :| s.D() == Appended(D0, c') && SameLits(c, c') && DistinctVars(c');
    LoadedMore(D0, s.D(), n, m, c, c');
  }

  method LoadFalsifier(s: SimpSolver, n: nat, k: nat)
    requires s.Valid() && s.gone == {} && |s.assigns| == n + 2 && k < n && Loaded(s.D(), n, 3, k)
      && s.all == Given(n, k)
    modifies s
    ensures s.Valid() && s.gone == {} && |s.assigns| == n + 2 && Loaded(s.D(), n, 3, k + 1) && s.all == Given(n, k + 1)
  {
    hide StackOk, Settling, DbOk, AbsOk, OccursOk, ValuesOk, Marks, Took, Propagates;
    ghost var D0 := s.D();
    var u := Lit(k + 2, true);
    NegationsHas(k, u);
    NegationsHas(k, Neg(u));
    FalsifiedMore(D0, n, k);
    NothingPropagates(Enqueued(D0, u), n, k + 1, s.next(Enqueued(D0, u)));
    var ok := s.AddOriginal(Falsifier(k));
    assert s.all == Given(n, k + 1);
    GivenHasModel(n, k + 1, 3 + (k + 1));
    assert Given(n, k + 1)[..3 + (k + 1)] == Given(n, k + 1);
    TookLit(D0, s.D(), u, s.next);
  }

  lemma FalsifiedMore(D: Db, n: nat, k: nat)
    requires Loaded(D, n, 3, k) && k < n
    ensures Loaded(Enqueued(D, Lit(k + 2, true)), n, 3, k + 1)
  {
  }

  // ----- nothing for subsumption, one resolvent -----

  /** The wide clauses are too long to be looked at, and nothing harms the narrow one. */
  lemma NothingToSubsume(D: Db, n: nat, lim: int)
    requires Loaded(D, n, 3, n) && lim != -1 && n + 2 == if lim < 2 then 2 else lim
    ensures Idle(lim, D)
  {
    forall k: nat, i: nat | Live(D, k) && Live(D, i) && i != k && Short(lim, D.ca[i])
      ensures Harmless(D.ca[k], D.ca[i]) {
      WideDistinct(n, false);
      WideDistinct(n, true);
      assert i == 2 && n > 0;
      WideHas(n, k == 1, Lit(2, false));
      FillerHarmless(D.ca[k], D.ca[2], Lit(2, false));
    }
    forall l, i: nat | l in D.trail && Live(D, i) && Short(lim, D.ca[i]) ensures Harmless([l], D.ca[i]) {
      WideDistinct(n, false);
      WideDistinct(n, true);
      NegationsHas(n, l);
      assert i == 2 && l in [l];
      FillerHarmless([l], D.ca[2], l);
    }
  }

  lemma FillerHarmless(c: Clause, d: Clause, l: Lit)
    requires l in c && 2 <= l.v && SameLits(NARROW, d)
    ensures Harmless(c, d)
  {
    assert forall x :: x in d ==> x in NARROW;
    OtherClauses(c, d, l.v);
  }

  lemma InClauses(D: Db, n: nat, l: Lit)
    requires Loaded(D, n, 3, n)
    ensures (l in D.ca[0] <==> InWide(n, false, l)) && (l in D.ca[1] <==> InWide(n, true, l))
    ensures l in D.ca[2] <==> l == Lit(0, false) || l == Lit(1, true)
    ensures l in D.trail <==> 2 <= l.v < n + 2 && l.neg
  {
    WideHas(n, false, l);
    WideHas(n, true, l);
    NegationsHas(n, l);
    assert l in NARROW <==> l == Lit(0, false) || l == Lit(1, true);
  }

  /** The two wide clauses have the only resolvent. */
  lemma OnePair(D: Db, n: nat)
    requires Loaded(D, n, 3, n)
    ensures ResolvablePairs(D, 0) == {(0, 1)} && ClausesWith(D, 0) == {0, 1, 2}
  {
    forall l ensures (l in D.ca[0] <==> InWide(n, false, l)) && (l in D.ca[1] <==> InWide(n, true, l))
                     && (l in D.ca[2] <==> l == Lit(0, false) || l == Lit(1, true)) {
      InClauses(D, n, l);
    }
    assert Resolvable(D, 0, 0, 1);
    assert Lit(1, true) in D.ca[2] && Neg(Lit(1, true)) in D.ca[1];
    assert Tautological(D.ca[2], D.ca[1], 0);
    forall i: nat, j: nat | Resolvable(D, 0, i, j) ensures i == 0 && j == 1 {
    }
    assert Lit(0, false).v in VarsOf(D.ca[0]) && Lit(0, true).v in VarsOf(D.ca[1])
      && Lit(0, false).v in VarsOf(D.ca[2]);
  }

  lemma ResolventIs(D: Db, n: nat, l: Lit)
    requires Loaded(D, n, 3, n)
    ensures l in Resolvent(D.ca[0], D.ca[1], 0) <==> 1 <= l.v < n + 2 && !l.neg
  {
    ResolventHas(D.ca[0], D.ca[1], 0, l);
    InClauses(D, n, l);
  }

  lemma ResolventFits(D: Db, n: nat, gone: set<nat>)
    requires Loaded(D, n, 3, n) && DbOk(D, n + 2, gone)
    ensures |Resolvent(D.ca[0], D.ca[1], 0)| <= n + 1
  {
    hide Tautological, Over;
    var r := Resolvent(D.ca[0], D.ca[1], 0);
    OnePair(D, n);
    assert (0, 1) in ResolvablePairs(D, 0) && LiveOk(D.ca[0], n + 2, gone) && LiveOk(D.ca[1], n + 2, gone);
    ResolventShape(D.ca[0], D.ca[1], 0, n + 2, gone);
    VarsCount(r);
    forall v | v in VarsOf(r) ensures v in Below(n + 2) - {0} {
      var l :| l in r && l.v == v;
      ResolventIs(D, n, l);
    }
    Smaller(VarsOf(r), Below(n + 2) - {0});
  }

  function Below(n: nat): (r: set<nat>)
    ensures |r| == n && forall v: nat :: v in r <==> v < n
  {
    if n == 0 then {} else Below(n - 1) + {n - 1}
  }

  lemma FewAndShort(D: Db, n: nat, gone: set<nat>, grow: int, clause_lim: int)
    requires Loaded(D, n, 3, n) && DbOk(D, n + 2, gone) && -2 <= grow && (clause_lim == -1 || n + 1 <= clause_lim)
    ensures !TooMuch(D, 0, grow, clause_lim)
  {
    hide Loaded, DbOk;
    OnePair(D, n);
    ResolventFits(D, n, gone);
    forall i: nat, j: nat | Resolvable(D, 0, i, j) ensures (i, j) == (0, 1) {
      assert (i, j) in ResolvablePairs(D, 0);
    }
    assert |{0, 1, 2}| == 3 && |{(0, 1)}| == 1;
  }

  /** Literal 1 is left of it, and the narrow clause gives variable 0 back. */
  lemma ItBackfires(next: Db -> nat, D: Db, n: nat)
    requires Loaded(D, n, 3, n) && Watches(next, 2)
    ensures Backfires(next, D, 0, 0, 1, Lit(1, false), 2, Lit(0, false))
  {
    OnePair(D, n);
    assert (0, 1) in ResolvablePairs(D, 0);
    var r, a := Resolvent(D.ca[0], D.ca[1], 0), Lit(1, false);
    ResolventIs(D, n, a);
    InClauses(D, n, a);
    forall l | l in r ensures l in [a] || Neg(l) in D.trail {
      ResolventIs(D, n, l);
      InClauses(D, n, Neg(l));
    }
    forall l | l in D.ca[2] ensures l in [Lit(0, false)] || Neg(l) in D.trail + [a] {
      InClauses(D, n, l);
    }
  }

  /** For all limits that are not safe there are clauses whose preprocessing leaves a literal of an
      eliminated variable at level 0, in whatever order the solver propagates, if only it does not
      overlook the third clause. */
  method EliminatedAtLevelZero(lim: int, clause_lim: int, grow: int, next: Db -> nat) returns (s: SimpSolver)
    requires !Safe(lim, clause_lim) && -2 <= grow && Watches(next, 2)
    ensures fresh(s) && s.Valid() && s.subsumption_lim == lim && s.clause_lim == clause_lim && s.grow == grow
    ensures s.Finished() && !TrailOver(s.trail, s.gone)
  {
    hide StackOk, Settling, DbOk, AbsOk, OccursOk, LevelReached, Backfires, Idle, TooMuch;
    var n: nat := if lim < 2 then 0 else lim - 2;
    s := Load(n, lim, clause_lim, grow, next);
    ghost var D := s.D();
    NothingToSubsume(D, n, lim);
    var ok := s.CheckAfter();
    GivenHasModel(n, n, 3 + n);
    assert Given(n, n)[..3 + n] == Given(n, n);
    FewAndShort(D, n, s.gone, grow, clause_lim);
    InClauses(D, n, Lit(0, false));
    InClauses(D, n, Lit(0, true));
    FalseValue(s.assigns, s.trail, Lit(0, false));
    ok := s.EliminateVar(0);
    ItBackfires(s.next, D, n);
    VariableBack(s.next, D, 0, s.trail, 0, 1, Lit(1, false), 2, Lit(0, false));
  }

  method Load(n: nat, lim: int, clause_lim: int, grow: int, next: Db -> nat) returns (s: SimpSolver)
    ensures fresh(s) && s.Valid() && s.subsumption_lim == lim && s.clause_lim == clause_lim && s.grow == grow
    ensures s.gone == {} && |s.assigns| == n + 2 && Loaded(s.D(), n, 3, n) && s.all == Given(n, n)
    ensures s.next == next
  {
    hide StackOk, Settling, DbOk, AbsOk, OccursOk, ValuesOk, Marks;
    s := new SimpSolver(n + 2, lim, grow, clause_lim, seq(n + 2, _ => false), next);
    assert s.all == Given(n, 0)[..0];
    LoadClause(s, n, 0, Wide(n, false));
    LoadClause(s, n, 1, Wide(n, true));
    LoadClause(s, n, 2, NARROW);
    assert s.all == Given(n, 0);
    var k := 0;
    while k < n
      invariant 0 <= k <= n && s.Valid() && s.gone == {} && |s.assigns| == n + 2 && Loaded(s.D(), n, 3, k)
        && s.all == Given(n, k)
    {
      LoadFalsifier(s, n, k);
      k := k + 1;
    }
  }
}
