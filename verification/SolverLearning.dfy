/** Learnt clauses, decisions and the results of the search as changes of the state. */
module SolverLearning {
  import opened SolverTypes
  import opened SolverStates
  import opened SolverNogoods
  import opened SolverAnalysis

  /** Where the search goes on: the highest level of the literals behind the front, brought to the
      second place. */
  ghost predicate BacktrackTo(t: Trail, c: Clause, btlevel: nat) {
    && (forall l :: l in c ==> l.v < |t.level|) && |c| >= 1
    && if |c| == 1 then btlevel == 0
       else btlevel == t.level[c[1].v] && forall i :: 2 <= i < |c| ==> t.level[c[i].v] <= btlevel
  }

  lemma SwapLearnt(t: Trail, ca: seq<Clause>, facts: set<Lit>, c: Clause, k: nat)
    requires TrailOk(t) && Learnt(t, ca, facts, c) && 1 <= k < |c|
    ensures Learnt(t, ca, facts, Exchange(c, k, 1)) && Subclause(c, Exchange(c, k, 1))
    ensures Exchange(c, k, 1)[1] == c[k] && forall i :: 2 <= i < |c| ==> exists j ::
      1 <= j < |c| && Exchange(c, k, 1)[i] == c[j]
    ensures forall l :: l in Exchange(c, k, 1) ==> l in c
  {
    var r := Exchange(c, k, 1);
    ExchangeSame(c, k, 1);
    assert Exchange(c, 1, k) == r;
    ExchangeVars(c, 1, k);
    assert VarsOf(r) == VarsOf(c);
    forall i | 1 <= i < |r| ensures LowerLit(t, r[i]) && r[i] == c[if i == 1 then k else if i == k then 1 else i] {
    }
    forall i | 0 <= i < |r| ensures r[i] in c {
      assert r[i] in r;
    }
  }

  lemma NothingLeft(seen: seq<bool>, toclear: seq<Lit>, seen': seq<bool>)
    requires ToClear(seen, toclear) && |seen'| == |seen|
    requires forall v: nat :: v < |seen| ==> (seen'[v] <==> seen[v] && v !in VarsOf(toclear))
    ensures SeenSet(seen') == {}
  {
    forall v: nat | v < |seen'| ensures !seen'[v] {
      if seen[v] {
        assert v in SeenSet(seen);
      }
    }
  }

  lemma CutRoots(t: Trail, facts: set<Lit>, lvl: nat)
    requires TrailOk(t) && RootsOk(t, facts) && lvl < |t.lim|
    ensures TrailOk(Cut(t, lvl)) && RootsOk(Cut(t, lvl), facts)
  {
    CutOk(t, lvl);
    var t' := Cut(t, lvl);
    forall i | 0 <= i < |t'.lits| ensures RootOk(t', facts, i) {
      assert OnTrail(t, i) && RootOk(t, facts, i) && OnTrail(t', i);
    }
    forall f | f in facts ensures FactTrue(t', f) {
      assert FactTrue(t, f);
    }
  }

  function LongLists(W: Lists, cr: nat, c: Clause): Lists
    requires |c| >= 2
  {
    if |c| > 2 then WatchBoth(W, cr, c[0], c[1]) else W
  }

  function BinLists(B: Lists, cr: nat, c: Clause): Lists
    requires |c| >= 2
  {
    if |c| == 2 then WatchBoth(B, cr, c[0], c[1]) else B
  }

  /** The clause with a true or unassigned front leaves propagation as complete as it was. */
  lemma StillUpto(t: Trail, qhead: nat, W: Lists, B: Lists, cr: nat, c: Clause)
    requires TrailOk(t) && Upto(t, qhead, W, B, |t.lim| + 1, {}) && |c| >= 2 && c[0] != c[1] && Val(t, c[0]) != False
    requires Val(t, c[1]) == False ==> Val(t, c[0]) == True && t.level[c[0].v] <= t.level[c[1].v]
    ensures Upto(t, qhead, LongLists(W, cr, c), BinLists(B, cr, c), |t.lim| + 1, {})
  {
    AttachSettled(t, qhead, W, |t.lim| + 1, cr, c[0], c[1]);
    AttachSettled(t, qhead, B, |t.lim| + 1, cr, c[0], c[1]);
  }

  lemma Attached(t: Trail, ca: seq<Clause>, W: Lists, B: Lists, facts: set<Lit>, c: Clause)
    requires TrailOk(t) && Base(t, ca, W, B, facts) && ClauseOk(c, |t.assigns|)
    ensures Base(t, ca + [c], LongLists(W, |ca|, c), BinLists(B, |ca|, c), facts)
  {
    MoreReasons(t, ca, c);
    if |c| == 2 {
      AttachBin(ca, B, c);
      LongUnchanged(ca, W, c);
    } else {
      AttachLong(ca, W, c);
      BinUnchanged(ca, B, c);
    }
  }

  /** A clause that forces its front literal, added and used. */
  lemma Asserted(t: Trail, qhead: nat, ca: seq<Clause>, W: Lists, B: Lists, facts: set<Lit>, c: Clause)
    requires TrailOk(t) && Base(t, ca, W, B, facts) && Upto(t, qhead, W, B, |t.lim| + 1, {})
    requires |c| >= 2 && DistinctVars(c) && (forall i :: 0 <= i < |c| ==> c[i].v < |t.assigns|)
    requires Val(t, c[0]) == Undef && (forall i :: 1 <= i < |c| ==> Val(t, c[i]) == False) && t.level[c[1].v] == |t.lim|
    ensures ClauseOk(c, |t.assigns|) && TrailOk(Push(t, c[0], |ca|)) && Val(Push(t, c[0], |ca|), c[0]) == True
    ensures Base(Push(t, c[0], |ca|), ca + [c], LongLists(W, |ca|, c), BinLists(B, |ca|, c), facts)
    ensures Upto(Push(t, c[0], |ca|), qhead, LongLists(W, |ca|, c), BinLists(B, |ca|, c), |t.lim| + 1, {})
  {
    var cr, ca' := |ca|, ca + [c];
    forall l | l in c ensures l.v < |t.assigns| {
      var i :| 0 <= i < |c| && c[i] == l;
    }
    Attached(t, ca, W, B, facts, c);
    PushAsserted(t, qhead, ca', LongLists(W, cr, c), BinLists(B, cr, c), W, B, facts, c[0], cr);
    assert c[0] != c[1];
    StillUpto(Push(t, c[0], cr), qhead, W, B, cr, c);
  }

  lemma PushFact(t: Trail, qhead: nat, ca: seq<Clause>, W: Lists, B: Lists, facts: set<Lit>, p: Lit)
    requires TrailOk(t) && Base(t, ca, W, B, facts) && Upto(t, qhead, W, B, |t.lim| + 1, {}) && |t.lim| == 0
    requires p.v < |t.assigns| && Val(t, p) == Undef
    ensures TrailOk(Push(t, p, CREF_UNDEF)) && Base(Push(t, p, CREF_UNDEF), ca, W, B, facts + {p})
    ensures Upto(Push(t, p, CREF_UNDEF), qhead, W, B, |t.lim| + 1, {}) && Val(Push(t, p, CREF_UNDEF), p) == True
  {
    var t' := Push(t, p, CREF_UNDEF);
    PushOk(t, p, CREF_UNDEF);
    PushForced(t, ca, p, CREF_UNDEF);
    PushFactRoots(t, facts, p);
    PushQueue(t, qhead, p, CREF_UNDEF);
    GrowsSettled(t, t', qhead, W, |t.lim| + 1, {});
    GrowsSettled(t, t', qhead, B, |t.lim| + 1, {});
  }

  lemma PushFactRoots(t: Trail, facts: set<Lit>, p: Lit)
    requires TrailOk(t) && RootsOk(t, facts) && |t.lim| == 0 && p.v < |t.assigns| && Val(t, p) == Undef
    ensures TrailOk(Push(t, p, CREF_UNDEF)) && RootsOk(Push(t, p, CREF_UNDEF), facts + {p})
  {
    var t' := Push(t, p, CREF_UNDEF);
    PushOk(t, p, CREF_UNDEF);
    forall i | 0 <= i < |t'.lits| ensures RootOk(t', facts + {p}, i) {
      assert OnTrail(t', i);
      if i < |t.lits| {
        assert OnTrail(t, i) && RootOk(t, facts, i);
      }
    }
    forall f | f in facts + {p} ensures FactTrue(t', f) {
      assert f in facts ==> FactTrue(t, f);
    }
  }

  lemma NewLevel(t: Trail, ca: seq<Clause>, W: Lists, B: Lists, facts: set<Lit>)
    requires TrailOk(t) && Base(t, ca, W, B, facts) && Upto(t, |t.lits|, W, B, |t.lim| + 1, {})
    ensures var t' := t.(lim := t.lim + [|t.lits|]);
            TrailOk(t') && Base(t', ca, W, B, facts) && Upto(t', |t.lits|, W, B, |t'.lim| + 1, {})
  {
    var t' := t.(lim := t.lim + [|t.lits|]);
    forall i | 0 <= i < |t'.lits| ensures OnTrail(t', i) {
      assert OnTrail(t, i);
    }
    forall i | 0 <= i < |t'.lits| ensures Forced(t', ca, i) && RootOk(t', facts, i) {
      assert OnTrail(t, i) && Forced(t, ca, i) && RootOk(t, facts, i);
    }
    forall f | f in facts ensures FactTrue(t', f) {
      assert FactTrue(t, f);
    }
    SettledHigher(t, t', W);
    SettledHigher(t, t', B);
  }

  lemma SettledHigher(t: Trail, t': Trail, W: Lists)
    requires TrailOk(t) && TrailOk(t') && t' == t.(lim := t.lim + [|t.lits|])
      && Settled(t, |t.lits|, W, |t.lim| + 1, {})
    ensures Settled(t', |t.lits|, W, |t'.lim| + 1, {})
  {
    forall q | Processed(t', |t.lits|, q) && t'.level[q.v] < |t'.lim| + 1 && q !in {} ensures Quiet(t', q, At(W, q)) {
      assert OnTrail(t, t.pos[q.v]);
      assert Processed(t, |t.lits|, q) && Quiet(t, q, At(W, q));
      forall i | 0 <= i < |At(W, q)| ensures Blocks(t', q, At(W, q)[i].blocker) {
        assert Blocks(t, q, At(W, q)[i].blocker);
      }
    }
  }

  lemma PushDecision(t: Trail, qhead: nat, ca: seq<Clause>, W: Lists, B: Lists, facts: set<Lit>, p: Lit)
    requires TrailOk(t) && Base(t, ca, W, B, facts) && Upto(t, qhead, W, B, |t.lim| + 1, {}) && |t.lim| > 0
    requires t.lim[|t.lim| - 1] == |t.lits| && p.v < |t.assigns| && Val(t, p) == Undef
    ensures TrailOk(Push(t, p, CREF_UNDEF)) && Base(Push(t, p, CREF_UNDEF), ca, W, B, facts)
    ensures Upto(Push(t, p, CREF_UNDEF), qhead, W, B, |t.lim| + 1, {}) && Val(Push(t, p, CREF_UNDEF), p) == True
  {
    PushOk(t, p, CREF_UNDEF);
    PushForced(t, ca, p, CREF_UNDEF);
    PushRoots(t, facts, p, CREF_UNDEF);
    PushQueue(t, qhead, p, CREF_UNDEF);
    GrowsSettled(t, Push(t, p, CREF_UNDEF), qhead, W, |t.lim| + 1, {});
    GrowsSettled(t, Push(t, p, CREF_UNDEF), qhead, B, |t.lim| + 1, {});
  }

  lemma SameModelsLearnt(ca: seq<Clause>, facts: set<Lit>, ca': seq<Clause>, facts': set<Lit>, c: Clause)
    requires c != [] && EntailedBy(ca, facts, c)
    requires if |c| == 1 then facts' == facts + {c[0]} && ca' == ca else facts' == facts && ca' == ca + [c]
    ensures Equivalent(ca, facts, ca', facts')
  {
    forall A: iset<nat> ensures ModelsAll(A, ca, facts) <==> ModelsAll(A, ca', facts') {
      if ModelsAll(A, ca, facts) {
        assert Satisfied(A, c);
      }
      if ModelsAll(A, ca', facts') {
        forall i | 0 <= i < |ca| ensures Satisfied(A, ca[i]) {
          assert ca'[i] == ca[i];
        }
      }
    }
  }

  /** After backtracking the front literal is unassigned and all others are still false. */
  lemma Asserting(t: Trail, ca: seq<Clause>, facts: set<Lit>, c: Clause, btlevel: nat)
    requires TrailOk(t) && Learnt(t, ca, facts, c) && BacktrackTo(t, c, btlevel) && |t.lim| > 0
    ensures btlevel < |t.lim| && c[0].v < |t.assigns| && Val(Cut(t, btlevel), c[0]) == Undef
    ensures forall i :: 1 <= i < |c| ==> c[i].v < |t.assigns| && Val(Cut(t, btlevel), c[i]) == False
    ensures |c| > 1 ==> t.level[c[1].v] == btlevel
  {
    if |c| > 1 {
      assert LowerLit(t, c[1]);
    }
    CutOk(t, btlevel);
    forall i | 1 <= i < |c| ensures Val(Cut(t, btlevel), c[i]) == False {
      assert LowerLit(t, c[i]);
    }
  }

  lemma PushAsserted(t: Trail, qhead: nat, ca: seq<Clause>, W: Lists, B: Lists, W0: Lists, B0: Lists, facts: set<Lit>,
      l: Lit, cr: nat)
    requires TrailOk(t) && Base(t, ca, W, B, facts) && Upto(t, qhead, W0, B0, |t.lim| + 1, {}) && cr < |ca|
    requires l.v < |t.assigns| && Val(t, l) == Undef && ca[cr] != [] && ca[cr][0] == l && forall x ::
      x in ca[cr] && x != l ==> Val(t, x) == False
    requires HasLevel(t, ca[cr], l)
    ensures TrailOk(Push(t, l, cr)) && Base(Push(t, l, cr), ca, W, B, facts)
      && Upto(Push(t, l, cr), qhead, W0, B0, |t.lim| + 1, {})
    ensures Grows(t, Push(t, l, cr)) && Val(Push(t, l, cr), l) == True && Push(t, l, cr).level[l.v] == |t.lim|
  {
    PushOk(t, l, cr);
    PushForced(t, ca, l, cr);
    PushRoots(t, facts, l, cr);
    PushQueue(t, qhead, l, cr);
    GrowsSettled(t, Push(t, l, cr), qhead, W0, |t.lim| + 1, {});
    GrowsSettled(t, Push(t, l, cr), qhead, B0, |t.lim| + 1, {});
  }

  /** A conflict without decisions: the clauses have no model. */
  lemma ConflictAtZero(t: Trail, ca: seq<Clause>, facts: set<Lit>, cr: nat, A: iset<nat>)
    requires ReasonsOk(t, ca) && RootsOk(t, facts) && |t.lim| == 0 && Conflict(t, ca, cr)
    ensures !ModelsAll(A, ca, facts)
  {
    forall v | v in VarsOf(ca[cr]) ensures !AboveZero(t, v) {
      var l :| l in ca[cr] && l.v == v;
      assert OnTrail(t, t.pos[v]);
    }
    ConflictNogood(t, ca, facts, cr, {});
    assert AgreesOn(A, t, {});
  }

  ghost function ModelOf(assigns: seq<LBool>): iset<nat> {
    iset v: nat | v < |assigns| && assigns[v] == True
  }

  /** When all variables are assigned and propagation has nothing to do, the trail is a model. */
  lemma FullTrailModels(t: Trail, ca: seq<Clause>, facts: set<Lit>)
    requires TrailOk(t) && RootsOk(t, facts) && Clauses(ca, |t.assigns|)
    requires (forall v :: 0 <= v < |t.assigns| ==> t.assigns[v] != Undef)
      && forall cr :: 0 <= cr < |ca| ==> NoWork(t, ca[cr])
    ensures ModelsAll(ModelOf(t.assigns), ca, facts)
  {
    var A := ModelOf(t.assigns);
    forall cr | 0 <= cr < |ca| ensures Satisfied(A, ca[cr]) {
      assert NoWork(t, ca[cr]) && ClauseOk(ca[cr], |t.assigns|);
      FullClause(t, ca[cr]);
    }
    forall f | f in facts ensures Holds(A, f) {
      assert FactTrue(t, f);
    }
  }

  lemma FullClause(t: Trail, c: Clause)
    requires (forall v :: 0 <= v < |t.assigns| ==> t.assigns[v] != Undef) && NoWork(t, c)
      && forall l :: l in c ==> l.v < |t.assigns|
    ensures Satisfied(ModelOf(t.assigns), c)
  {
    forall i | 0 <= i < |c| ensures Val(t, c[i]) != Undef {
      assert c[i] in c;
    }
    var l :| l in c && Val(t, l) == True;
    assert Holds(ModelOf(t.assigns), l);
  }

  lemma NoModel(t: Trail, ca: seq<Clause>, facts: set<Lit>, cr: nat)
    requires ReasonsOk(t, ca) && RootsOk(t, facts) && |t.lim| == 0 && Conflict(t, ca, cr)
    ensures Unsatisfiable(ca, facts)
  {
    forall A: iset<nat> ensures !ModelsAll(A, ca, facts) {
      ConflictAtZero(t, ca, facts, cr, A);
    }
  }

  lemma SameModelsBoth(ca: seq<Clause>, ca': seq<Clause>, facts: set<Lit>)
    requires SameClauses(ca, ca')
    ensures Equivalent(ca, facts, ca', facts)
  {
    assert forall i :: 0 <= i < |ca| ==> SameLits(ca[i], ca'[i]);
    assert SameClauses(ca', ca);
    forall A: iset<nat> ensures ModelsAll(A, ca, facts) <==> ModelsAll(A, ca', facts) {
      if ModelsAll(A, ca, facts) {
        SameModels(A, ca', ca, facts);
      }
      if ModelsAll(A, ca', facts) {
        SameModels(A, ca, ca', facts);
      }
    }
  }

  /** Backtracking keeps the state, and makes propagation complete again for what is left. */
  lemma CutAll(t: Trail, qhead: nat, ca: seq<Clause>, W: Lists, B: Lists, facts: set<Lit>, lvl: nat)
    requires TrailOk(t) && Base(t, ca, W, B, facts) && Upto(t, qhead, W, B, |t.lim|, {}) && lvl < |t.lim|
    ensures TrailOk(Cut(t, lvl)) && Base(Cut(t, lvl), ca, W, B, facts)
    ensures Upto(Cut(t, lvl), t.lim[lvl], W, B, lvl + 1, {})
  {
    CutReasons(t, ca, lvl);
    CutRoots(t, facts, lvl);
    CutSettled(t, qhead, W, lvl);
    CutSettled(t, qhead, B, lvl);
  }

  /** What is learnt was not known before. */
  lemma NotYetFact(t: Trail, ca: seq<Clause>, facts: set<Lit>, c: Clause)
    requires TrailOk(t) && RootsOk(t, facts) && Learnt(t, ca, facts, c)
    ensures forall l :: l in c ==> l !in facts
  {
    LearntVars(t, ca, facts, c);
    forall f | f in facts ensures Val(t, f) == True {
      assert FactTrue(t, f);
    }
  }
}
