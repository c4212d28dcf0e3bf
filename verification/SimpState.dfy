/** The clause database of the preprocessor as a value: live clauses and level-0 literals, what they
    mean, and how subsumption and elimination change them. */
module SimpStates {
  import opened SolverTypes
  import opened SolverStates
  import opened SolverNogoods
  import opened SolverAnalysis
  import opened Subsumption
  import opened Elimination
  import opened ElimStacks

  /** All clauses, which of them were removed, and the literals assigned at level 0. */
  datatype Db = Db(ca: seq<Clause>, del: seq<bool>, trail: seq<Lit>)

  ghost predicate Live(D: Db, i: nat) {
    i < |D.ca| && i < |D.del| && !D.del[i]
  }

  ghost predicate Sat(A: iset<nat>, D: Db) {
    (forall i: nat :: Live(D, i) ==> Satisfied(A, D.ca[i])) && TrailHolds(A, D.trail)
  }

  ghost predicate TrailHolds(A: iset<nat>, trail: seq<Lit>) {
    forall l :: l in trail ==> Holds(A, l)
  }

  ghost predicate SameSat(D: Db, D': Db) {
    forall A: iset<nat> :: Sat(A, D) <==> Sat(A, D')
  }

  ghost predicate NoModel(D: Db) {
    forall A: iset<nat> :: !Sat(A, D)
  }

  lemma SameSatTrans(D: Db, D': Db, D'': Db)
    requires SameSat(D, D') && SameSat(D', D'')
    ensures SameSat(D, D'')
  {
  }

  lemma NoModelBefore(D: Db, D': Db)
    requires SameSat(D, D') && NoModel(D')
    ensures NoModel(D)
  {
  }

  // ----- the shape of the database -----

  ghost predicate Over(c: Clause, n: nat, gone: set<nat>) {
    forall l :: l in c ==> l.v < n && l.v !in gone
  }

  ghost predicate LiveOk(c: Clause, n: nat, gone: set<nat>) {
    |c| >= 2 && DistinctVars(c) && Over(c, n, gone)
  }

  /** Live clauses speak of variables that are still there. The literals of level 0 need not: those of
      an eliminated variable may have been derived from its clauses before they were removed. */
  ghost predicate DbOk(D: Db, n: nat, gone: set<nat>) {
    && |D.del| == |D.ca| && (forall i: nat :: Live(D, i) ==> LiveOk(D.ca[i], n, gone))
    && forall l :: l in D.trail ==> l.v < n
  }

  ghost predicate AbsOk(D: Db, abs: seq<bv32>) {
    |abs| == |D.ca| && forall i: nat :: Live(D, i) ==> abs[i] == Abstraction(Bit, D.ca[i])
  }

  ghost predicate ValuesOk(assigns: seq<LBool>, trail: seq<Lit>) {
    forall l :: Assigned(assigns, l) == True <==> l in trail
  }

  type Occurs = map<nat, seq<nat>>

  function OccOf(occurs: Occurs, v: nat): seq<nat> {
    if v in occurs then occurs[v] else []
  }

  ghost predicate NoRepeat(s: seq<nat>) {
    forall i, j :: 0 <= i < j < |s| ==> s[i] != s[j]
  }

  /** A live clause is on the lists of exactly its variables. */
  ghost predicate OccursOk(D: Db, occurs: Occurs) {
    forall v :: OccListOk(D, v, OccOf(occurs, v))
  }

  ghost predicate OccListOk(D: Db, v: nat, s: seq<nat>) {
    && NoRepeat(s) && (forall i :: i in s ==> i < |D.ca|)
    && forall i: nat :: Live(D, i) ==> (i in s <==> v in VarsOf(D.ca[i]))
  }

  // ----- removing and shortening clauses -----

  ghost function Removed(D: Db, cr: nat): Db
    requires cr < |D.del|
  {
    D.(del := D.del[cr := true])
  }

  /** The clause a subsuming clause comes from: another live clause, or a literal of level 0. */
  ghost predicate Source(D: Db, c: Clause, k: int) {
    if k < 0 then |c| == 1 && c[0] in D.trail else Live(D, k) && D.ca[k] == c
  }

  lemma SourceHolds(D: Db, c: Clause, k: int, A: iset<nat>)
    requires Source(D, c, k) && Sat(A, D)
    ensures Satisfied(A, c)
  {
    if k < 0 {
      assert c[0] in c;
    }
  }

  lemma RemoveSubsumed(D: Db, c: Clause, k: int, cr: nat)
    requires Source(D, c, k) && Live(D, cr) && k != cr && Subset(c, D.ca[cr])
    ensures SameSat(D, Removed(D, cr)) && Source(Removed(D, cr), c, k)
  {
    var D' := Removed(D, cr);
    forall A: iset<nat> ensures Sat(A, D) <==> Sat(A, D') {
      if Sat(A, D') {
        SourceHolds(D', c, k, A);
        SubsumedHolds(c, D.ca[cr], A);
        forall i: nat | Live(D, i) ensures Satisfied(A, D.ca[i]) {
          assert i != cr ==> Live(D', i);
        }
      }
      if Sat(A, D) {
        forall i: nat | Live(D', i) ensures Satisfied(A, D'.ca[i]) {
          assert Live(D, i);
        }
      }
    }
  }

  ghost function Shortened(D: Db, cr: nat, l: Lit): Db
    requires cr < |D.ca|
  {
    D.(ca := D.ca[cr := Without(D.ca[cr], l)])
  }

  lemma ShortenSame(D: Db, c: Clause, k: int, cr: nat, p: Lit)
    requires Source(D, c, k) && Live(D, cr) && k != cr && Flips(c, D.ca[cr], p) && DistinctVars(c)
    ensures SameSat(D, Shortened(D, cr, Neg(p))) && Source(Shortened(D, cr, Neg(p)), c, k)
  {
    var D' := Shortened(D, cr, Neg(p));
    forall A: iset<nat> ensures Sat(A, D) <==> Sat(A, D') {
      if Sat(A, D') {
        SourceHolds(D', c, k, A);
        StrengthenedHolds(c, D.ca[cr], p, A);
        assert Live(D', cr);
        forall i: nat | Live(D, i) ensures Satisfied(A, D.ca[i]) {
          assert Live(D', i);
        }
      }
      if Sat(A, D) {
        SourceHolds(D, c, k, A);
        StrengthenedHolds(c, D.ca[cr], p, A);
        forall i: nat | Live(D', i) ensures Satisfied(A, D'.ca[i]) {
          assert Live(D, i);
        }
      }
    }
  }

  ghost function Enqueued(D: Db, l: Lit): Db {
    D.(trail := D.trail + [l])
  }

  /** A clause of one literal may go once the literal is assigned. */
  lemma UnitToTrail(D: Db, cr: nat, l: Lit)
    requires Live(D, cr) && D.ca[cr] == [l]
    ensures SameSat(D, Enqueued(Removed(D, cr), l))
  {
    var D' := Enqueued(Removed(D, cr), l);
    assert forall x :: x in D'.trail <==> x in D.trail || x == l;
    forall A: iset<nat> ensures Sat(A, D) <==> Sat(A, D') {
      if Sat(A, D') {
        assert l in D'.trail && l in D.ca[cr];
        forall i: nat | Live(D, i) ensures Satisfied(A, D.ca[i]) {
          assert i != cr ==> Live(D', i);
        }
      }
      if Sat(A, D) {
        assert Satisfied(A, D.ca[cr]);
        forall i: nat | Live(D', i) ensures Satisfied(A, D'.ca[i]) {
          assert Live(D, i);
        }
      }
    }
  }

  // ----- propagation at level 0 -----

  /** All literals of the clause are false at level 0, but for those given. */
  ghost predicate FalseBut(trail: seq<Lit>, c: Clause, free: seq<Lit>) {
    forall l :: l in c ==> l in free || Neg(l) in trail
  }

  /** The clause the solver looks at next is there and is unit or false. */
  ghost predicate Propagates(D: Db, cr: nat) {
    Live(D, cr) && exists u :: (FalseBut(D.trail, D.ca[cr], [u]) && u !in D.trail)
  }

  lemma UnitImplied(D: Db, cr: nat, u: Lit)
    requires Live(D, cr) && FalseBut(D.trail, D.ca[cr], [u])
    ensures SameSat(D, Enqueued(D, u))
  {
    var D' := Enqueued(D, u);
    assert forall x :: x in D'.trail <==> x in D.trail || x == u;
    forall A: iset<nat> ensures Sat(A, D) <==> Sat(A, D') {
      if Sat(A, D) {
        var l :| l in D.ca[cr] && Holds(A, l);
        assert l == u || Holds(A, Neg(l));
        forall i: nat | Live(D', i) ensures Satisfied(A, D'.ca[i]) {
          assert Live(D, i);
        }
      }
      if Sat(A, D') {
        forall i: nat | Live(D, i) ensures Satisfied(A, D.ca[i]) {
          assert Live(D', i);
        }
      }
    }
  }

  lemma FalseConflict(D: Db, cr: nat)
    requires Live(D, cr) && FalseBut(D.trail, D.ca[cr], [])
    ensures NoModel(D)
  {
    forall A: iset<nat> ensures !Sat(A, D) {
      if TrailHolds(A, D.trail) {
        AllFalse(D.trail, D.ca[cr], A);
      }
    }
  }

  lemma AllFalse(trail: seq<Lit>, c: Clause, A: iset<nat>)
    requires FalseBut(trail, c, []) && TrailHolds(A, trail)
    ensures !Satisfied(A, c)
  {
    forall l | l in c ensures !Holds(A, l) {
      assert Holds(A, Neg(l));
    }
  }

  // ----- another clause -----

  ghost function Appended(D: Db, c: Clause): Db {
    D.(ca := D.ca + [c], del := D.del + [false])
  }

  /** What the clauses from the k-th on and the trail say. */
  ghost predicate TailHolds(A: iset<nat>, D: Db, k: nat) {
    (forall i: nat :: k <= i < |D.ca| && Live(D, i) ==> Satisfied(A, D.ca[i])) && TrailHolds(A, D.trail)
  }

  /** The database has grown, and the clauses from k on and the trail imply the given clause. */
  ghost predicate Says(D: Db, k: nat, c: Clause) {
    forall A: iset<nat> :: TailHolds(A, D, k) ==> Satisfied(A, c)
  }

  /** More clauses and literals, nothing removed or changed. */
  ghost predicate Extends(D: Db, D': Db) {
    && |D.ca| == |D.del| && |D'.ca| == |D'.del| && D.ca <= D'.ca && D.del <= D'.del
    && (forall l :: l in D.trail ==> l in D'.trail)
    && forall i: nat :: |D.ca| <= i < |D'.ca| ==> Live(D', i)
  }

  lemma ExtendsTrans(D: Db, D': Db, D'': Db)
    requires Extends(D, D') && Extends(D', D'')
    ensures Extends(D, D'')
  {
    forall i: nat | |D.ca| <= i < |D''.ca| ensures Live(D'', i) {
      assert i < |D'.ca| ==> Live(D', i);
    }
  }

  lemma StillSays(D: Db, D': Db, k: nat, c: Clause)
    requires Extends(D, D') && Says(D, k, c)
    ensures Says(D', k, c)
  {
    forall A: iset<nat> | TailHolds(A, D', k) ensures Satisfied(A, c) {
      forall i: nat | k <= i < |D.ca| && Live(D, i) ensures Satisfied(A, D.ca[i]) {
        assert Live(D', i) && D'.ca[i] == D.ca[i];
      }
    }
  }

  /** A longer database has fewer models. */
  lemma ExtendsSat(D: Db, D': Db, A: iset<nat>)
    requires Extends(D, D') && Sat(A, D')
    ensures Sat(A, D)
  {
    forall i: nat | Live(D, i) ensures Satisfied(A, D.ca[i]) {
      assert Live(D', i) && D'.ca[i] == D.ca[i];
    }
  }

  /** Literals that are false at level 0 add nothing to a clause. */
  ghost predicate Simplified(trail: seq<Lit>, c: Clause, c': Clause) {
    (forall l :: l in c' ==> l in c) && forall l :: l in c && l !in c' ==> Neg(l) in trail
  }

  lemma SimplifiedHolds(trail: seq<Lit>, c: Clause, c': Clause, A: iset<nat>)
    requires Simplified(trail, c, c') && TrailHolds(A, trail)
    ensures Satisfied(A, c) <==> Satisfied(A, c')
  {
    if Satisfied(A, c) {
      var l :| l in c && Holds(A, l);
      assert l in c';
    }
    if Satisfied(A, c') {
      var l :| l in c' && Holds(A, l);
      assert l in c;
    }
  }

  /** What adding a clause comes to: nothing, a literal, or a shorter clause. */
  ghost predicate AddedTo(D: Db, D': Db, c: Clause) {
    && Extends(D, D') && Says(D', |D.ca|, c)
    && forall A: iset<nat> :: Sat(A, D) && Satisfied(A, c) ==> Sat(A, D')
  }

  lemma AddNothing(D: Db, c: Clause, l: Lit)
    requires |D.ca| == |D.del| && l in c && (l in D.trail || Neg(l) in c)
    ensures AddedTo(D, D, c)
  {
    forall A: iset<nat> ensures Holds(A, l) || Holds(A, Neg(l)) {
    }
  }

  lemma AddLiteral(D: Db, c: Clause, l: Lit)
    requires |D.ca| == |D.del| && Simplified(D.trail, c, [l])
    ensures AddedTo(D, Enqueued(D, l), c)
  {
    var D' := Enqueued(D, l);
    assert forall x :: x in D'.trail <==> x in D.trail || x == l;
    forall A: iset<nat> | TailHolds(A, D', |D.ca|) ensures Satisfied(A, c) {
      SimplifiedHolds(D.trail, c, [l], A);
      assert l in [l];
    }
    forall A: iset<nat> | Sat(A, D) && Satisfied(A, c) ensures Sat(A, D') {
      SimplifiedHolds(D.trail, c, [l], A);
      forall i: nat | Live(D', i) ensures Satisfied(A, D'.ca[i]) {
        assert Live(D, i);
      }
    }
  }

  /** What propagation derives afterwards belongs to the same step. */
  lemma AddPropagated(D: Db, D1: Db, D': Db, c: Clause)
    requires AddedTo(D, D1, c) && SameSat(D1, D') && D'.ca == D1.ca && D'.del == D1.del
      && forall l :: l in D1.trail ==> l in D'.trail
    ensures AddedTo(D, D', c)
  {
    forall i: nat | |D.ca| <= i < |D'.ca| ensures Live(D', i) {
      assert Live(D1, i);
    }
    forall A: iset<nat> | TailHolds(A, D', |D.ca|) ensures Satisfied(A, c) {
      TailBefore(D1, D', |D.ca|, A);
    }
  }

  lemma TailBefore(D1: Db, D': Db, k: nat, A: iset<nat>)
    requires D'.ca == D1.ca && D'.del == D1.del && (forall l :: l in D1.trail ==> l in D'.trail) && TailHolds(A, D', k)
    ensures TailHolds(A, D1, k)
  {
    forall i: nat | k <= i < |D1.ca| && Live(D1, i) ensures Satisfied(A, D1.ca[i]) {
      assert Live(D', i);
    }
  }

  lemma NonePropagated(D: Db, D1: Db, c: Clause)
    requires AddedTo(D, D1, c) && NoModel(D1)
    ensures forall A: iset<nat> :: !(Sat(A, D) && Satisfied(A, c))
  {
  }

  lemma AddShorter(D: Db, c: Clause, c': Clause)
    requires |D.ca| == |D.del| && Simplified(D.trail, c, c')
    ensures AddedTo(D, Appended(D, c'), c)
  {
    var D' := Appended(D, c');
    forall A: iset<nat> | TailHolds(A, D', |D.ca|) ensures Satisfied(A, c) {
      assert Live(D', |D.ca|);
      SimplifiedHolds(D.trail, c, c', A);
    }
    forall A: iset<nat> | Sat(A, D) && Satisfied(A, c) ensures Sat(A, D') {
      SimplifiedHolds(D.trail, c, c', A);
      forall i: nat | Live(D', i) ensures Satisfied(A, D'.ca[i]) {
        assert i < |D.ca| ==> Live(D, i);
      }
    }
  }

  /** A clause all of whose literals are false. */
  lemma AddEmpty(D: Db, c: Clause, A: iset<nat>)
    requires Simplified(D.trail, c, [])
    ensures !(Sat(A, D) && Satisfied(A, c))
  {
    if Sat(A, D) {
      SimplifiedHolds(D.trail, c, [], A);
    }
  }

  // ----- elimination of a variable -----

  /** The clauses with the given numbers. */
  function ClausesAt(ca: seq<Clause>, ids: seq<nat>): (r: seq<Clause>)
    requires forall k :: 0 <= k < |ids| ==> ids[k] < |ca|
    ensures |r| == |ids|
  {
    seq(|ids|, k requires 0 <= k < |ids| => ca[ids[k]])
  }

  /** Everything with v is gone, and everything without it is still there. */
  ghost predicate Purged(D: Db, D': Db, v: nat) {
    && |D.ca| <= |D'.ca| == |D'.del| && D.ca <= D'.ca
    && (forall i: nat :: i < |D.ca| && Live(D, i) && v !in VarsOf(D.ca[i]) ==> Live(D', i))
    && (forall l :: l in D.trail ==> l in D'.trail)
  }

  /** The heart of elimination: from a model of what is left, the section makes a model of what was
      there before. */
  lemma SectionRestores(D: Db, D': Db, section: seq<Clause>, x: Lit, S: seq<Clause>, O: seq<Clause>, A: iset<nat>)
    requires SectionOf(section, x, S) && (forall k :: 0 <= k < |section| ==> section[k] != []) && Purged(D, D', x.v)
    requires ResolventsHold(A, S, O, x.v) && (forall j :: 0 <= j < |O| ==> Neg(x) in O[j])
    requires forall i: nat :: Live(D, i) && x.v in VarsOf(D.ca[i]) ==> D.ca[i] in S || D.ca[i] in O
    requires (forall l :: l in D.trail ==> l.v != x.v) && Sat(A, D')
    ensures Sat(Extend(section, A), D)
  {
    var A' := Extend(section, A);
    SectionValue(section, x, S, A);
    forall i: nat | Live(D, i) ensures Satisfied(A', D.ca[i]) {
      if x.v in VarsOf(D.ca[i]) {
        if D.ca[i] in S {
          var k :| 0 <= k < |S| && S[k] == D.ca[i];
          StoredHold(section, x, S, A, k);
        } else {
          var k :| 0 <= k < |O| && O[k] == D.ca[i];
          OthersHold(section, x, S, O, A, k);
        }
      } else {
        assert Live(D', i) && D'.ca[i] == D.ca[i];
        SameWithout(A, A', D.ca[i], x.v);
      }
    }
  }

  lemma SameWithout(A: iset<nat>, A': iset<nat>, c: Clause, v: nat)
    requires SameBut(A, A', v) && v !in VarsOf(c) && Satisfied(A, c)
    ensures Satisfied(A', c)
  {
    var l :| l in c && Holds(A, l);
    assert l.v in VarsOf(c);
  }

  // ----- over a whole run -----

  /** From every model of what is left, reading the stack gives a model of all clauses there ever
      were. */
  ghost predicate Restores(D: Db, all: seq<Clause>, blocks: seq<Clause>)
    requires NonEmpty(blocks)
  {
    forall A: iset<nat> {:trigger Extend(blocks, A)} :: Sat(A, D) ==> Models(Extend(blocks, A), all)
  }

  /** No model of those is lost. */
  ghost predicate LosesNone(D: Db, all: seq<Clause>) {
    forall A: iset<nat> :: Models(A, all) ==> Sat(A, D)
  }

  lemma RestoresSame(D: Db, D': Db, all: seq<Clause>, blocks: seq<Clause>)
    requires NonEmpty(blocks) && Restores(D, all, blocks) && LosesNone(D, all) && SameSat(D, D')
    ensures Restores(D', all, blocks) && LosesNone(D', all)
  {
    RestoresEqually(D, D', all, blocks);
    LosesNoneLater(D, D', all);
  }

  lemma RestoresEqually(D: Db, D': Db, all: seq<Clause>, blocks: seq<Clause>)
    requires NonEmpty(blocks) && Restores(D, all, blocks) && SameSat(D, D')
    ensures Restores(D', all, blocks)
  {
  }

  lemma LosesNoneLater(D: Db, D': Db, all: seq<Clause>)
    requires LosesNone(D, all) && forall A: iset<nat> :: Sat(A, D) ==> Sat(A, D')
    ensures LosesNone(D', all)
  {
  }

  /** A section takes models of what is left to models of what was there. */
  ghost predicate Lifts(section: seq<Clause>, D': Db, D: Db)
    requires NonEmpty(section)
  {
    forall A: iset<nat> {:trigger Extend(section, A)} :: Sat(A, D') ==> Sat(Extend(section, A), D)
  }

  lemma RestoresSection(D: Db, D': Db, all: seq<Clause>, blocks: seq<Clause>, section: seq<Clause>)
    requires NonEmpty(blocks) && NonEmpty(section) && NonEmpty(blocks + section)
    requires Restores(D, all, blocks) && Lifts(section, D', D)
    ensures Restores(D', all, blocks + section)
  {
    forall A: iset<nat> | Sat(A, D') ensures Models(Extend(blocks + section, A), all) {
      ExtendAppend(blocks, section, A);
      var A' := Extend(section, A);
      assert Sat(A', D);
    }
  }

  // ----- one elimination from beginning to end -----

  /** All non-tautological resolvents follow from what was added. */
  ghost predicate AllSaid(D: Db, k: nat, P: seq<Clause>, N: seq<Clause>, v: nat) {
    forall i, j :: 0 <= i < |P| && 0 <= j < |N| && !Tautological(P[i], N[j], v) ==> Says(D, k, Resolvent(P[i], N[j], v))
  }

  /** D2 is D1 without the clauses of v that D0 had. */
  ghost predicate WithoutVar(D0: Db, D1: Db, D2: Db, v: nat) {
    && Extends(D0, D1) && D2.ca == D1.ca && |D2.del| == |D1.del| && D2.trail == D1.trail
    && forall i: nat :: i < |D1.ca| ==> (Live(D2, i) <==> Live(D1, i) && !(i < |D0.ca| && v in VarsOf(D0.ca[i])))
  }

  lemma TailOfPurged(D0: Db, D1: Db, D2: Db, v: nat, A: iset<nat>)
    requires WithoutVar(D0, D1, D2, v) && Sat(A, D2)
    ensures TailHolds(A, D1, |D0.ca|)
  {
    forall i: nat | |D0.ca| <= i < |D1.ca| && Live(D1, i) ensures Satisfied(A, D1.ca[i]) {
      assert Live(D2, i);
    }
  }

  lemma SaidHold(D: Db, k: nat, P: seq<Clause>, N: seq<Clause>, v: nat, A: iset<nat>)
    requires AllSaid(D, k, P, N, v) && TailHolds(A, D, k)
    ensures ResolventsHold(A, P, N, v) && ResolventsHold(A, N, P, v)
  {
    forall i, j | 0 <= i < |P| && 0 <= j < |N| && !Tautological(P[i], N[j], v)
      ensures Satisfied(A, Resolvent(P[i], N[j], v))
    {
      assert Says(D, k, Resolvent(P[i], N[j], v));
    }
    forall j, i | 0 <= j < |N| && 0 <= i < |P| && !Tautological(N[j], P[i], v)
      ensures Satisfied(A, Resolvent(N[j], P[i], v))
    {
      TautologicalSymmetric(N[j], P[i], v);
      ResolventSwap(P[i], N[j], v, A);
    }
  }

  lemma ResolventSwap(p: Clause, q: Clause, v: nat, A: iset<nat>)
    requires Satisfied(A, Resolvent(p, q, v))
    ensures Satisfied(A, Resolvent(q, p, v))
  {
    var l :| l in Resolvent(p, q, v) && Holds(A, l);
    ResolventHas(p, q, v, l);
    ResolventHas(q, p, v, l);
  }

  /** The clauses of v, divided by the sign it has in them. */
  ghost predicate Divided(D: Db, v: nat, P: seq<Clause>, N: seq<Clause>) {
    && (forall i :: 0 <= i < |P| ==> Lit(v, false) in P[i] && DistinctVars(P[i]))
    && (forall j :: 0 <= j < |N| ==> Lit(v, true) in N[j] && DistinctVars(N[j]))
    && forall i: nat :: Live(D, i) && v in VarsOf(D.ca[i]) ==> D.ca[i] in P || D.ca[i] in N
  }

  /** Which side is stored: the smaller one. */
  ghost predicate SectionFor(section: seq<Clause>, v: nat, P: seq<Clause>, N: seq<Clause>) {
    if |P| > |N| then SectionOf(section, Lit(v, true), N) else SectionOf(section, Lit(v, false), P)
  }

  lemma EliminationLifts(D0: Db, D1: Db, D2: Db, section: seq<Clause>, v: nat, P: seq<Clause>, N: seq<Clause>)
    requires Divided(D0, v, P, N) && SectionFor(section, v, P, N) && AllSaid(D1, |D0.ca|, P, N, v)
      && WithoutVar(D0, D1, D2, v)
    requires forall l :: l in D0.trail ==> l.v != v
    ensures NonEmpty(section) && Lifts(section, D2, D0)
  {
    var x, S, O := if |P| > |N| then Lit(v, true) else Lit(v, false), if |P| > |N| then N
      else P, if |P| > |N| then P else N;
    SectionNonEmpty(section, x, S);
    PurgedAll(D0, D1, D2, v);
    forall A: iset<nat> | Sat(A, D2) ensures Sat(Extend(section, A), D0) {
      TailOfPurged(D0, D1, D2, v, A);
      SaidHold(D1, |D0.ca|, P, N, v, A);
      SectionRestores(D0, D2, section, x, S, O, A);
    }
  }

  lemma PurgedAll(D0: Db, D1: Db, D2: Db, v: nat)
    requires WithoutVar(D0, D1, D2, v)
    ensures Purged(D0, D2, v)
  {
    forall i: nat | i < |D0.ca| && Live(D0, i) && v !in VarsOf(D0.ca[i]) ensures Live(D2, i) {
      assert Live(D1, i);
    }
  }

  lemma PurgedSat(D0: Db, D1: Db, D2: Db, v: nat, A: iset<nat>)
    requires WithoutVar(D0, D1, D2, v) && Sat(A, D1)
    ensures Sat(A, D2)
  {
    forall i: nat | Live(D2, i) ensures Satisfied(A, D2.ca[i]) {
      assert Live(D1, i);
    }
  }
}
