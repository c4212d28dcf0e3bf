/** Sets of assigned variables that no model of the clauses agrees with, and how conflict analysis
    passes from one to the next. */
module SolverNogoods {
  import opened SolverTypes
  import opened SolverStates

  /** A satisfies the attached clauses and the unit clauses. */
  ghost predicate ModelsAll(A: iset<nat>, ca: seq<Clause>, facts: set<Lit>) {
    Models(A, ca) && forall f :: f in facts ==> Holds(A, f)
  }

  ghost predicate Agrees(A: iset<nat>, T: Trail, v: nat) {
    v < |T.assigns| && T.assigns[v] != Undef && ((v in A) <==> T.assigns[v] == True)
  }

  lemma AgreesHolds(A: iset<nat>, T: Trail, l: Lit)
    requires Val(T, l) != Undef
    ensures Agrees(A, T, l.v) <==> (Holds(A, l) <==> Val(T, l) == True)
  {
  }

  ghost predicate AgreesOn(A: iset<nat>, T: Trail, S: set<nat>) {
    forall v :: v in S ==> Agrees(A, T, v)
  }

  /** No model of all clauses gives the variables in S the values they have on the trail. */
  ghost predicate Nogood(T: Trail, ca: seq<Clause>, facts: set<Lit>, S: set<nat>) {
    forall A: iset<nat> :: ModelsAll(A, ca, facts) ==> !AgreesOn(A, T, S)
  }

  ghost function VarsOf(c: Clause): set<nat> {
    set l | l in c :: l.v
  }

  /** The order of the literals in the clauses does not matter. */
  lemma SameModels(A: iset<nat>, ca: seq<Clause>, ca': seq<Clause>, facts: set<Lit>)
    requires SameClauses(ca, ca') && ModelsAll(A, ca', facts)
    ensures ModelsAll(A, ca, facts)
  {
    forall i | 0 <= i < |ca| ensures Satisfied(A, ca[i]) {
      assert SameLits(ca[i], ca'[i]) && Satisfied(A, ca'[i]);
    }
  }

  lemma SameNogood(T: Trail, ca: seq<Clause>, ca': seq<Clause>, facts: set<Lit>, S: set<nat>)
    requires SameClauses(ca, ca') && Nogood(T, ca, facts, S)
    ensures Nogood(T, ca', facts, S)
  {
    forall A: iset<nat> | ModelsAll(A, ca', facts) ensures !AgreesOn(A, T, S) {
      SameModels(A, ca, ca', facts);
    }
  }

  /** Both sets of clauses have the same models. */
  ghost predicate Equivalent(ca: seq<Clause>, facts: set<Lit>, ca': seq<Clause>, facts': set<Lit>) {
    forall A: iset<nat> :: ModelsAll(A, ca, facts) <==> ModelsAll(A, ca', facts')
  }

  lemma EquivalentTrans(ca: seq<Clause>, facts: set<Lit>, ca': seq<Clause>, facts': set<Lit>, ca'': seq<Clause>,
      facts'': set<Lit>)
    requires Equivalent(ca, facts, ca', facts') && Equivalent(ca', facts', ca'', facts'')
    ensures Equivalent(ca, facts, ca'', facts'')
  {
  }

  ghost predicate Unsatisfiable(ca: seq<Clause>, facts: set<Lit>) {
    forall A: iset<nat> :: !ModelsAll(A, ca, facts)
  }

  // ----- what the trail implies -----

  lemma LevelOfEarlier(T: Trail, i: nat, j: nat)
    requires TrailOk(T) && i <= j < |T.lits|
    ensures T.lits[i].v < |T.level| && T.lits[j].v < |T.level| && T.level[T.lits[i].v] <= T.level[T.lits[j].v]
  {
    assert OnTrail(T, i) && OnTrail(T, j);
    var k := T.level[T.lits[j].v];
    if k < |T.lim| {
      assert j < T.lim[k];
    }
  }

  /** If a model agrees with everything that the reason was false by, it agrees with what it forced. */
  lemma ReasonAgrees(A: iset<nat>, T: Trail, ca: seq<Clause>, facts: set<Lit>, i: nat)
    requires ReasonsOk(T, ca) && ModelsAll(A, ca, facts) && i < |T.lits| && T.lits[i].v < |T.reason|
    requires 0 <= T.reason[T.lits[i].v] < |ca|
    requires forall l :: l in ca[T.reason[T.lits[i].v]] && l != T.lits[i] ==> Agrees(A, T, l.v)
    ensures Agrees(A, T, T.lits[i].v)
  {
    assert OnTrail(T, i) && Forced(T, ca, i);
    var c := ca[T.reason[T.lits[i].v]];
    assert Satisfied(A, c);
    var l :| l in c && Holds(A, l);
    if l != T.lits[i] {
      assert FalseBefore(T, l, i);
      AgreesHolds(A, T, l);
    }
    AgreesHolds(A, T, T.lits[i]);
  }

  /** Every model of all clauses that agrees with the decisions agrees with the whole trail up to
      any level. */
  lemma {:induction false} TrailImplied(A: iset<nat>, T: Trail, ca: seq<Clause>, facts: set<Lit>, i: nat)
    requires ReasonsOk(T, ca) && RootsOk(T, facts) && ModelsAll(A, ca, facts) && i < |T.lits| && T.lits[i].v < |T.level|
    requires forall k ::
      0 <= k < T.level[T.lits[i].v] && k < |T.lim| && T.lim[k] < |T.lits| ==> Holds(A, T.lits[T.lim[k]])
    ensures Holds(A, T.lits[i]) && Agrees(A, T, T.lits[i].v)
    decreases i
  {
    assert OnTrail(T, i) && Forced(T, ca, i) && RootOk(T, facts, i);
    AgreesHolds(A, T, T.lits[i]);
    var r := T.reason[T.lits[i].v];
    if r != CREF_UNDEF {
      forall l | l in ca[r] && l != T.lits[i] ensures Agrees(A, T, l.v) {
        assert FalseBefore(T, l, i);
        assert OnTrail(T, T.pos[l.v]);
        LevelOfEarlier(T, T.pos[l.v], i);
        TrailImplied(A, T, ca, facts, T.pos[l.v]);
      }
      ReasonAgrees(A, T, ca, facts, i);
    }
  }

  /** Variables of level 0 have the same value in all models. */
  lemma LevelZeroAgrees(A: iset<nat>, T: Trail, ca: seq<Clause>, facts: set<Lit>, v: nat)
    requires ReasonsOk(T, ca) && RootsOk(T, facts) && ModelsAll(A, ca, facts)
    requires v < |T.assigns| && T.assigns[v] != Undef && T.level[v] == 0
    ensures Agrees(A, T, v)
  {
    assert OnTrail(T, T.pos[v]);
    TrailImplied(A, T, ca, facts, T.pos[v]);
  }

  // ----- from one nogood to the next -----

  ghost predicate AboveZero(T: Trail, v: nat) {
    v < |T.level| && T.level[v] > 0
  }

  /** The variables of a false clause, those of level 0 left out. */
  lemma ConflictNogood(T: Trail, ca: seq<Clause>, facts: set<Lit>, cr: nat, S: set<nat>)
    requires ReasonsOk(T, ca) && RootsOk(T, facts) && cr < |ca| && forall l :: l in ca[cr] ==> Val(T, l) == False
    requires forall v :: v in VarsOf(ca[cr]) && AboveZero(T, v) ==> v in S
    ensures Nogood(T, ca, facts, S)
  {
    forall A: iset<nat> | ModelsAll(A, ca, facts) ensures !AgreesOn(A, T, S) {
      assert Satisfied(A, ca[cr]);
      var l :| l in ca[cr] && Holds(A, l);
      AgreesHolds(A, T, l);
      assert l.v in VarsOf(ca[cr]);
      if !AboveZero(T, l.v) {
        LevelZeroAgrees(A, T, ca, facts, l.v);
      }
    }
  }

  /** A variable may be replaced by those its reason was false by. */
  lemma ResolveNogood(T: Trail, ca: seq<Clause>, facts: set<Lit>, i: nat, S: set<nat>, S': set<nat>)
    requires ReasonsOk(T, ca) && RootsOk(T, facts) && Nogood(T, ca, facts, S) && i < |T.lits|
      && T.lits[i].v < |T.reason|
    requires 0 <= T.reason[T.lits[i].v] < |ca|
    requires forall v :: v in S && v != T.lits[i].v ==> v in S'
    requires forall v :: v in VarsOf(ca[T.reason[T.lits[i].v]]) && v != T.lits[i].v && AboveZero(T, v) ==> v in S'
    ensures Nogood(T, ca, facts, S')
  {
    forall A: iset<nat> | ModelsAll(A, ca, facts) ensures !AgreesOn(A, T, S') {
      ResolveAgrees(A, T, ca, facts, i, S, S');
    }
  }

  lemma ResolveAgrees(A: iset<nat>, T: Trail, ca: seq<Clause>, facts: set<Lit>, i: nat, S: set<nat>, S': set<nat>)
    requires ReasonsOk(T, ca) && RootsOk(T, facts) && ModelsAll(A, ca, facts) && i < |T.lits|
      && T.lits[i].v < |T.reason|
    requires 0 <= T.reason[T.lits[i].v] < |ca|
    requires forall v :: v in S && v != T.lits[i].v ==> v in S'
    requires forall v :: v in VarsOf(ca[T.reason[T.lits[i].v]]) && v != T.lits[i].v && AboveZero(T, v) ==> v in S'
    ensures AgreesOn(A, T, S') ==> AgreesOn(A, T, S)
  {
    if AgreesOn(A, T, S') {
      ImpliedByOthers(A, T, ca, facts, i, S');
    }
  }

  lemma ImpliedByOthers(A: iset<nat>, T: Trail, ca: seq<Clause>, facts: set<Lit>, i: nat, S: set<nat>)
    requires ReasonsOk(T, ca) && RootsOk(T, facts) && ModelsAll(A, ca, facts) && i < |T.lits|
      && T.lits[i].v < |T.reason|
    requires 0 <= T.reason[T.lits[i].v] < |ca|
    requires forall v :: v in VarsOf(ca[T.reason[T.lits[i].v]]) && v != T.lits[i].v && AboveZero(T, v) ==>
      v in S && Agrees(A, T, v)
    ensures Agrees(A, T, T.lits[i].v)
  {
    var c := ca[T.reason[T.lits[i].v]];
    assert OnTrail(T, i) && Forced(T, ca, i);
    forall l | l in c && l != T.lits[i] ensures Agrees(A, T, l.v) {
      assert FalseBefore(T, l, i) && l.v in VarsOf(c);
      if !AboveZero(T, l.v) {
        LevelZeroAgrees(A, T, ca, facts, l.v);
      }
    }
    ReasonAgrees(A, T, ca, facts, i);
  }

  // ----- removing what the rest implies -----

  /** Everything that v's reason was false by is in the set or of level 0. */
  ghost predicate Justified(T: Trail, ca: seq<Clause>, S: set<nat>, v: nat)
    requires |T.assigns| == |T.reason| == |T.level|
  {
    && v < |T.assigns| && T.assigns[v] != Undef && 0 <= T.reason[v] < |ca|
    && forall u :: u in VarsOf(ca[T.reason[v]]) && u != v && AboveZero(T, u) ==> u in S
  }

  lemma {:induction false} ClosureAgrees(A: iset<nat>, T: Trail, ca: seq<Clause>, facts: set<Lit>, S: set<nat>,
      K: set<nat>, i: nat)
    requires ReasonsOk(T, ca) && RootsOk(T, facts) && ModelsAll(A, ca, facts) && AgreesOn(A, T, K)
    requires forall v :: v in S ==> v in K || Justified(T, ca, S, v)
    requires i < |T.lits| && T.lits[i].v in S
    ensures Agrees(A, T, T.lits[i].v)
    decreases i
  {
    var v := T.lits[i].v;
    assert OnTrail(T, i) && Forced(T, ca, i);
    if v !in K {
      var c := ca[T.reason[v]];
      forall u | u in VarsOf(c) && u != v && AboveZero(T, u) ensures u in S && Agrees(A, T, u) {
        var l :| l in c && l.v == u;
        assert FalseBefore(T, l, i) && OnTrail(T, T.pos[u]);
        ClosureAgrees(A, T, ca, facts, S, K, T.pos[u]);
      }
      ImpliedByOthers(A, T, ca, facts, i, S);
    }
  }

  /** If the variables outside of K are justified by the set, K alone is a nogood. */
  lemma MinimisedNogood(T: Trail, ca: seq<Clause>, facts: set<Lit>, N: set<nat>, S: set<nat>, K: set<nat>)
    requires ReasonsOk(T, ca) && RootsOk(T, facts) && Nogood(T, ca, facts, N) && N <= S
    requires forall v :: v in S ==> v in K || Justified(T, ca, S, v)
    ensures Nogood(T, ca, facts, K)
  {
    forall A: iset<nat> | ModelsAll(A, ca, facts) ensures !AgreesOn(A, T, K) {
      MinimisedAgrees(A, T, ca, facts, N, S, K);
    }
  }

  lemma MinimisedAgrees(A: iset<nat>, T: Trail, ca: seq<Clause>, facts: set<Lit>, N: set<nat>, S: set<nat>, K: set<nat>)
    requires ReasonsOk(T, ca) && RootsOk(T, facts) && ModelsAll(A, ca, facts) && N <= S
    requires forall v :: v in S ==> v in K || Justified(T, ca, S, v)
    ensures AgreesOn(A, T, K) ==> AgreesOn(A, T, N)
  {
    if AgreesOn(A, T, K) {
      forall v | v in N ensures Agrees(A, T, v) {
        if v !in K {
          assert OnTrail(T, T.pos[v]);
          ClosureAgrees(A, T, ca, facts, S, K, T.pos[v]);
        }
      }
    }
  }

  /** A variable whose value one binary clause with p implies may go. */
  lemma BinaryNogood(T: Trail, ca: seq<Clause>, facts: set<Lit>, S: set<nat>, K: set<nat>, p: Lit)
    requires Nogood(T, ca, facts, S) && p.v in K && Val(T, p) == True
    requires forall v :: v in S ==> v in K || ImpliedBy(T, ca, p, v)
    ensures Nogood(T, ca, facts, K)
  {
    forall A: iset<nat> | ModelsAll(A, ca, facts) ensures !AgreesOn(A, T, K) {
      BinaryAgrees(A, T, ca, facts, S, K, p);
    }
  }

  lemma BinaryAgrees(A: iset<nat>, T: Trail, ca: seq<Clause>, facts: set<Lit>, S: set<nat>, K: set<nat>, p: Lit)
    requires ModelsAll(A, ca, facts) && p.v in K && Val(T, p) == True
    requires forall v :: v in S ==> v in K || ImpliedBy(T, ca, p, v)
    ensures AgreesOn(A, T, K) ==> AgreesOn(A, T, S)
  {
    if AgreesOn(A, T, K) {
      forall v | v in S ensures Agrees(A, T, v) {
        if v !in K {
          ImpliedAgrees(A, T, ca, facts, p, v);
        }
      }
    }
  }

  /** A binary clause says that v has its value if p holds. */
  ghost predicate ImpliedBy(T: Trail, ca: seq<Clause>, p: Lit, v: nat) {
    exists cr, l :: 0 <= cr < |ca| && SameLits([Neg(p), l], ca[cr]) && l.v == v && Val(T, l) == True
  }

  lemma ImpliedAgrees(A: iset<nat>, T: Trail, ca: seq<Clause>, facts: set<Lit>, p: Lit, v: nat)
    requires ModelsAll(A, ca, facts) && Val(T, p) == True && Agrees(A, T, p.v) && ImpliedBy(T, ca, p, v)
    ensures Agrees(A, T, v)
  {
    var cr, l :| 0 <= cr < |ca| && SameLits([Neg(p), l], ca[cr]) && l.v == v && Val(T, l) == True;
    assert Satisfied(A, ca[cr]);
    var x :| x in ca[cr] && Holds(A, x);
    assert x in [Neg(p), l];
    AgreesHolds(A, T, p);
    AgreesHolds(A, T, l);
  }

  // ----- the clause of a nogood -----

  ghost predicate EntailedBy(ca: seq<Clause>, facts: set<Lit>, c: Clause) {
    forall A: iset<nat> :: ModelsAll(A, ca, facts) ==> Satisfied(A, c)
  }

  /** The literals that are false under a nogood form a clause that follows from all others. */
  lemma NogoodClause(T: Trail, ca: seq<Clause>, facts: set<Lit>, c: Clause)
    requires Nogood(T, ca, facts, VarsOf(c)) && forall l :: l in c ==> Val(T, l) == False
    ensures EntailedBy(ca, facts, c)
  {
    forall A: iset<nat> | ModelsAll(A, ca, facts) ensures Satisfied(A, c) {
      assert !AgreesOn(A, T, VarsOf(c));
      var v :| v in VarsOf(c) && !Agrees(A, T, v);
      var l :| l in c && l.v == v;
      AgreesHolds(A, T, l);
    }
  }
}
