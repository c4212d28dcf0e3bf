/** The states of conflict analysis as values: the search for the first unique implication point,
    the removal of redundant literals, and the learnt clause. */
module SolverAnalysis {
  import opened SolverTypes
  import opened SolverStates
  import opened SolverNogoods

  ghost function SeenSet(seen: seq<bool>): set<nat> {
    set v: nat | v < |seen| && seen[v]
  }

  ghost predicate DistinctVars(c: Clause) {
    forall i, j :: 0 <= i < j < |c| ==> c[i].v != c[j].v
  }

  // ----- towards the first unique implication point -----

  /** A seen variable of the current level that is still to be resolved upon. */
  ghost predicate OpenVar(T: Trail, v: nat, bound: nat)
    requires TrailOk(T)
  {
    v < |T.assigns| && T.assigns[v] != Undef && T.level[v] == |T.lim| && T.pos[v] < bound
  }

  /** A literal of a lower level, which goes into the learnt clause. */
  ghost predicate LowerLit(T: Trail, l: Lit)
    requires TrailOk(T)
  {
    Val(T, l) == False && 0 < T.level[l.v] < |T.lim|
  }

  /** The seen variables are the open ones and those of the clause collected so far. */
  ghost predicate Exploring(T: Trail, seen: seq<bool>, out: Clause, open: set<nat>, bound: nat)
    requires TrailOk(T)
  {
    && |seen| == |T.assigns| && DistinctVars(out) && bound <= |T.lits|
    && (forall v: nat :: v < |seen| ==> (seen[v] <==> v in open || v in VarsOf(out)))
    && (forall v :: v in open ==> OpenVar(T, v, bound))
    && (forall l :: l in out ==> LowerLit(T, l))
  }

  lemma VarsOfAppend(c: Clause, l: Lit)
    ensures VarsOf(c + [l]) == VarsOf(c) + {l.v}
  {
    var d := c + [l];
    forall v | v in VarsOf(c) ensures v in VarsOf(d) {
      var x :| x in c && x.v == v;
      assert x in d;
    }
    assert d[|c|] == l;
  }

  /** A literal met for the first time. */
  lemma SeeOpen(T: Trail, seen: seq<bool>, out: Clause, open: set<nat>, bound: nat, q: Lit)
    requires TrailOk(T) && Exploring(T, seen, out, open, bound) && q.v < |seen| && !seen[q.v] && OpenVar(T, q.v, bound)
    ensures Exploring(T, seen[q.v := true], out, open + {q.v}, bound) && q.v !in open
  {
  }

  lemma SeeLower(T: Trail, seen: seq<bool>, out: Clause, open: set<nat>, bound: nat, q: Lit)
    requires TrailOk(T) && Exploring(T, seen, out, open, bound) && q.v < |seen| && !seen[q.v] && LowerLit(T, q)
    ensures Exploring(T, seen[q.v := true], out + [q], open, bound)
  {
    VarsOfAppend(out, q);
    forall i | 0 <= i < |out| ensures out[i].v != q.v {
      assert out[i] in out && out[i].v in VarsOf(out);
    }
  }

  /** All variables of the clause above level 0 are seen now. */
  ghost predicate Added(T: Trail, seen: seq<bool>, c: Clause, seen': seq<bool>) {
    |seen'| == |seen| && forall v: nat :: v < |seen| ==> (seen'[v] <==> seen[v] || (v in VarsOf(c) && AboveZero(T, v)))
  }

  lemma AddedNew(T: Trail, seen: seq<bool>, c: Clause, seen1: seq<bool>, q: Lit)
    requires Added(T, seen, c, seen1) && q.v < |seen| && AboveZero(T, q.v)
    ensures Added(T, seen, c + [q], seen1[q.v := true])
  {
    VarsOfAppend(c, q);
  }

  lemma AddedOld(T: Trail, seen: seq<bool>, c: Clause, seen1: seq<bool>, q: Lit)
    requires Added(T, seen, c, seen1) && q.v < |seen| && (seen1[q.v] || !AboveZero(T, q.v))
    ensures Added(T, seen, c + [q], seen1)
  {
    VarsOfAppend(c, q);
  }

  /** The latest open variable: the next one to resolve upon. */
  ghost predicate Latest(T: Trail, open: set<nat>, p: Lit)
    requires TrailOk(T)
  {
    p.v in open && p.v < |T.pos| && Val(T, p) == True && forall v :: v in open && v < |T.pos| ==> T.pos[v] <= T.pos[p.v]
  }

  /** Going back on the trail, the first seen variable is open: those of lower levels lie further back. */
  lemma SeenIsOpen(T: Trail, seen: seq<bool>, out: Clause, open: set<nat>, bound: nat, i: nat)
    requires TrailOk(T) && Exploring(T, seen, out, open, bound) && i < bound && open != {}
    requires forall v :: v in open ==> v < |T.pos| && T.pos[v] <= i
    requires T.lits[i].v < |seen| && seen[T.lits[i].v]
    ensures Latest(T, open, T.lits[i])
  {
    var u :| u in open;
    assert OpenVar(T, u, bound) && OnTrail(T, i) && OnTrail(T, T.pos[u]);
    LevelOfEarlier(T, T.pos[u], i);
    var v := T.lits[i].v;
    if v in VarsOf(out) {
      LowerVar(T, out, v);
    }
  }

  lemma LowerVar(T: Trail, out: Clause, v: nat)
    requires TrailOk(T) && (forall l :: l in out ==> LowerLit(T, l)) && v in VarsOf(out)
    ensures v < |T.level| && T.level[v] < |T.lim|
  {
    var l :| l in out && l.v == v;
    assert LowerLit(T, l);
  }

  /** The chosen variable leaves the open ones. */
  lemma TakeLatest(T: Trail, seen: seq<bool>, out: Clause, open: set<nat>, bound: nat, p: Lit)
    requires TrailOk(T) && Exploring(T, seen, out, open, bound) && Latest(T, open, p) && p.v < |seen|
    ensures Exploring(T, seen[p.v := false], out, open - {p.v}, T.pos[p.v]) && T.pos[p.v] < bound
      && T.lits[T.pos[p.v]] == p
    ensures SeenSet(seen) == SeenSet(seen[p.v := false]) + {p.v}
  {
    assert OpenVar(T, p.v, bound) && OnTrail(T, T.pos[p.v]);
    forall v | v in open - {p.v} ensures OpenVar(T, v, T.pos[p.v]) {
      assert OpenVar(T, v, bound) && OnTrail(T, T.pos[v]);
    }
    forall l | l in out ensures l.v != p.v {
      assert LowerLit(T, l);
    }
  }

  /** A decision opens its level, so as long as an earlier variable is open there is a reason. */
  lemma HasReason(T: Trail, facts: set<Lit>, ca: seq<Clause>, open: set<nat>, p: Lit, v: nat)
    requires ReasonsOk(T, ca) && RootsOk(T, facts) && Val(T, p) == True && T.level[p.v] == |T.lim| && |T.lim| > 0
    requires OpenVar(T, v, T.pos[p.v])
    ensures 0 <= T.reason[p.v] < |ca|
  {
    assert OnTrail(T, T.pos[p.v]) && OnTrail(T, T.pos[v]);
    assert RootOk(T, facts, T.pos[p.v]) && Forced(T, ca, T.pos[p.v]);
  }

  lemma AfterConflict(T: Trail, ca: seq<Clause>, facts: set<Lit>, seen: seq<bool>, cr: nat, seen': seq<bool>)
    requires ReasonsOk(T, ca) && RootsOk(T, facts) && cr < |ca| && forall l :: l in ca[cr] ==> Val(T, l) == False
    requires |seen| == |T.assigns| && Added(T, seen, ca[cr], seen')
    ensures Nogood(T, ca, facts, SeenSet(seen'))
  {
    forall v | v in VarsOf(ca[cr]) && AboveZero(T, v) ensures v in SeenSet(seen') {
    }
    ConflictNogood(T, ca, facts, cr, SeenSet(seen'));
  }

  lemma AfterReason(T: Trail, ca: seq<Clause>, facts: set<Lit>, p: Lit, seen: seq<bool>, rest: Clause, seen': seq<bool>)
    requires ReasonsOk(T, ca) && RootsOk(T, facts) && Val(T, p) == True && 0 <= T.reason[p.v] < |ca|
    requires |seen| == |T.assigns| && Nogood(T, ca, facts, SeenSet(seen) + {p.v})
    requires Added(T, seen, rest, seen') && forall l :: l in ca[T.reason[p.v]] ==> l == p || l in rest
    ensures Nogood(T, ca, facts, SeenSet(seen'))
  {
    assert OnTrail(T, T.pos[p.v]);
    ResolveNogood(T, ca, facts, T.pos[p.v], SeenSet(seen) + {p.v}, SeenSet(seen'));
  }

  /** The reason of p, with p in front. */
  lemma RestOfReason(T: Trail, ca: seq<Clause>, p: Lit)
    requires ReasonsOk(T, ca) && Val(T, p) == True && 0 <= T.reason[p.v] < |ca|
    requires ca[T.reason[p.v]] != [] && ca[T.reason[p.v]][0] == p && DistinctLits(ca[T.reason[p.v]])
    ensures forall l :: l in ca[T.reason[p.v]][1..] ==> FalseBefore(T, l, T.pos[p.v])
    ensures forall l :: l in ca[T.reason[p.v]] ==> l == p || l in ca[T.reason[p.v]][1..]
  {
    var c := ca[T.reason[p.v]];
    assert OnTrail(T, T.pos[p.v]) && Forced(T, ca, T.pos[p.v]);
    assert c == [c[0]] + c[1..];
    forall l | l in c[1..] ensures FalseBefore(T, l, T.pos[p.v]) {
      var i :| 0 <= i < |c| - 1 && c[1..][i] == l;
      assert c[i + 1] == l && c[0] != c[i + 1];
    }
  }

  // ----- the learnt clause -----

  /** What the search for the implication point returns: one literal of the current level, in front,
      the others of lower levels, none true, and together enough for the conflict. */
  ghost predicate Learnt(T: Trail, ca: seq<Clause>, facts: set<Lit>, c: Clause)
    requires TrailOk(T)
  {
    && |c| >= 1 && Val(T, c[0]) == False && T.level[c[0].v] == |T.lim| && DistinctVars(c)
    && (forall i :: 1 <= i < |c| ==> LowerLit(T, c[i]))
    && Nogood(T, ca, facts, VarsOf(c))
  }

  lemma SameLearnt(T: Trail, ca: seq<Clause>, ca': seq<Clause>, facts: set<Lit>, c: Clause)
    requires TrailOk(T) && SameClauses(ca, ca') && Learnt(T, ca, facts, c)
    ensures Learnt(T, ca', facts, c)
  {
    SameNogood(T, ca, ca', facts, VarsOf(c));
  }

  lemma UipLearnt(T: Trail, ca: seq<Clause>, facts: set<Lit>, seen: seq<bool>, out: Clause, p: Lit, bound: nat)
    requires TrailOk(T) && Exploring(T, seen, out, {}, bound) && Val(T, p) == True && T.level[p.v] == |T.lim|
    requires Nogood(T, ca, facts, SeenSet(seen) + {p.v})
    ensures Learnt(T, ca, facts, [Neg(p)] + out) && SeenSet(seen) == VarsOf(out)
  {
    var c := [Neg(p)] + out;
    forall v | v in VarsOf(out) ensures v in SeenSet(seen) {
      var l :| l in out && l.v == v;
      assert LowerLit(T, l);
    }
    assert VarsOf(c) == SeenSet(seen) + {p.v};
    forall i | 0 <= i < |out| ensures LowerLit(T, out[i]) && out[i].v != p.v {
      assert out[i] in out && LowerLit(T, out[i]);
    }
  }

  // ----- removing redundant literals -----

  lemma JustifiedMore(T: Trail, ca: seq<Clause>, S: set<nat>, S': set<nat>, v: nat)
    requires |T.assigns| == |T.reason| == |T.level| && Justified(T, ca, S, v) && S <= S'
    ensures Justified(T, ca, S', v)
  {
  }

  lemma JustifiedSame(T: Trail, ca: seq<Clause>, ca': seq<Clause>, S: set<nat>, v: nat)
    requires |T.assigns| == |T.reason| == |T.level| && Justified(T, ca, S, v) && SameClauses(ca, ca')
    ensures Justified(T, ca', S, v)
  {
    assert SameLits(ca[T.reason[v]], ca'[T.reason[v]]);
    assert VarsOf(ca[T.reason[v]]) == VarsOf(ca'[T.reason[v]]);
  }

  /** Every seen variable is one of those to be kept or is justified by seen variables. */
  ghost predicate Closed(T: Trail, ca: seq<Clause>, seen: seq<bool>, K: set<nat>)
    requires |T.assigns| == |T.reason| == |T.level|
  {
    |seen| == |T.assigns| && forall v :: v in SeenSet(seen) ==> v in K || Justified(T, ca, SeenSet(seen), v)
  }

  /** The literals outside of the seen part that a variable on the stack still needs. */
  ghost predicate Stacked(T: Trail, ca: seq<Clause>, stack: seq<Lit>)
    requires TrailOk(T)
  {
    forall x :: x in stack ==> Val(T, x) == False && 0 <= T.reason[x.v] < |ca|
  }

  /** When a clause has been looked through, the variable it forced is justified. */
  lemma NowJustified(T: Trail, ca: seq<Clause>, seen: seq<bool>, seen': seq<bool>, x: Lit, rest: Clause)
    requires TrailOk(T) && Val(T, x) != Undef && 0 <= T.reason[x.v] < |ca| && |seen'| == |T.assigns|
    requires forall l :: l in ca[T.reason[x.v]] ==> l.v == x.v || l in rest
    requires forall l :: l in rest && AboveZero(T, l.v) ==> l.v < |seen'| && seen'[l.v]
    ensures Justified(T, ca, SeenSet(seen'), x.v)
  {
  }

  /** After minimisation the kept literals are enough. */
  lemma MinimisedLearnt(T: Trail, ca: seq<Clause>, facts: set<Lit>, c: Clause, seen: seq<bool>, kept: Clause)
    requires ReasonsOk(T, ca) && RootsOk(T, facts) && Learnt(T, ca, facts, c) && Closed(T, ca, seen, VarsOf(kept))
    requires forall i :: 1 <= i < |c| ==> c[i].v in SeenSet(seen)
    requires Subclause(c, kept)
    ensures Learnt(T, ca, facts, kept)
  {
    var p, S := c[0].v, SeenSet(seen) + {c[0].v};
    var K := VarsOf(kept);
    assert kept[0] in kept;
    forall v | v in S ensures v in K || Justified(T, ca, S, v) {
      if v != p && v !in K {
        JustifiedMore(T, ca, SeenSet(seen), S, v);
      }
    }
    MinimisedNogood(T, ca, facts, VarsOf(c), S, K);
    forall i | 1 <= i < |kept| ensures LowerLit(T, kept[i]) {
      FromRest(c, kept, i);
    }
  }

  /** The front literal and some of the others. */
  ghost predicate Subclause(c: Clause, kept: Clause) {
    && c != [] && kept != [] && kept[0] == c[0] && DistinctVars(kept)
    && forall i :: 0 <= i < |kept| ==> kept[i] in c
  }

  lemma FromRest(c: Clause, kept: Clause, i: nat)
    requires Subclause(c, kept) && 1 <= i < |kept|
    ensures exists k :: 1 <= k < |c| && c[k] == kept[i]
  {
    assert kept[0].v != kept[i].v && kept[i] in c;
    var k :| 0 <= k < |c| && c[k] == kept[i];
    assert k != 0;
  }

  /** The same for the literals that binary clauses with the front literal imply. */
  lemma BinaryLearnt(T: Trail, ca: seq<Clause>, facts: set<Lit>, c: Clause, kept: Clause)
    requires TrailOk(T) && Learnt(T, ca, facts, c) && Subclause(c, kept)
    requires forall i :: 1 <= i < |c| ==> c[i] in kept || ImpliedBy(T, ca, Neg(c[0]), c[i].v)
    ensures Learnt(T, ca, facts, kept)
  {
    assert kept[0] in kept;
    forall v | v in VarsOf(c) ensures v in VarsOf(kept) || ImpliedBy(T, ca, Neg(c[0]), v) {
      var i :| 0 <= i < |c| && c[i].v == v;
    }
    BinaryNogood(T, ca, facts, VarsOf(c), VarsOf(kept), Neg(c[0]));
    forall i | 1 <= i < |kept| ensures LowerLit(T, kept[i]) {
      FromRest(c, kept, i);
    }
  }

  lemma LearntEntailed(T: Trail, ca: seq<Clause>, facts: set<Lit>, c: Clause)
    requires TrailOk(T) && Learnt(T, ca, facts, c)
    ensures EntailedBy(ca, facts, c)
  {
    forall l | l in c ensures Val(T, l) == False {
      var i :| 0 <= i < |c| && c[i] == l;
      assert i > 0 ==> LowerLit(T, c[i]);
    }
    NogoodClause(T, ca, facts, c);
  }

  // ----- the steps of minimisation -----

  lemma FrontOfReason(t: Trail, ca: seq<Clause>, p: Lit)
    requires ReasonsOk(t, ca) && Clauses(ca, |t.assigns|) && Val(t, p) == True && t.reason[p.v] != CREF_UNDEF
    ensures 0 <= t.reason[p.v] < |ca| && |ca[t.reason[p.v]]| >= 2 && DistinctLits(ca[t.reason[p.v]])
    ensures var c := ca[t.reason[p.v]]; if |c| == 2 && Val(t, c[0]) == False then c[1] == p else c[0] == p
  {
    assert OnTrail(t, t.pos[p.v]) && Forced(t, ca, t.pos[p.v]);
    var c := ca[t.reason[p.v]];
    assert ClauseOk(c, |t.assigns|) && c[0] in c && c[1] in c;
  }

  lemma LastOpen(t: Trail, seen: seq<bool>, out: Clause, open: set<nat>, index: nat)
    requires TrailOk(t) && Exploring(t, seen, out, open, index) && open != {}
    ensures 0 < index <= |t.lits| && t.lits[index - 1].v < |seen| && forall v :: v in open ==>
      v < |t.pos| && t.pos[v] <= index - 1
  {
    var v :| v in open;
    assert OpenVar(t, v, index);
    assert OnTrail(t, index - 1);
  }

  /** A literal that is not seen is not open. */
  lemma StepBack(t: Trail, seen: seq<bool>, out: Clause, open: set<nat>, index0: nat, index: nat)
    requires TrailOk(t) && Exploring(t, seen, out, open, index0) && open != {} && 0 < index <= index0
    requires t.lits[index - 1].v < |seen| && !seen[t.lits[index - 1].v]
    requires forall v :: v in open ==> v < |t.pos| && t.pos[v] <= index - 1
    ensures index > 1 && t.lits[index - 2].v < |seen| && forall v :: v in open ==> v < |t.pos| && t.pos[v] <= index - 2
  {
    forall v | v in open ensures t.pos[v] <= index - 2 {
      assert OpenVar(t, v, index0) && t.lits[t.pos[v]].v == v;
    }
    var v :| v in open;
    assert OnTrail(t, index - 2);
  }

  lemma AnOpenOne(t: Trail, facts: set<Lit>, ca: seq<Clause>, seen: seq<bool>, out: Clause, open: set<nat>, p: Lit)
    requires ReasonsOk(t, ca) && RootsOk(t, facts) && Val(t, p) == True && t.level[p.v] == |t.lim| && |t.lim| > 0
    requires Exploring(t, seen, out, open, t.pos[p.v]) && open != {}
    ensures 0 <= t.reason[p.v] < |ca|
  {
    var v :| v in open;
    HasReason(t, facts, ca, open, p, v);
  }

  lemma FalseOnTrail(t: Trail, ca: seq<Clause>, cr: nat)
    requires TrailOk(t) && Conflict(t, ca, cr)
    ensures forall l :: l in ca[cr] ==> FalseBefore(t, l, |t.lits|)
  {
  }

  lemma NothingSeen(t: Trail, seen: seq<bool>)
    requires TrailOk(t) && |seen| == |t.assigns| && SeenSet(seen) == {}
    ensures Exploring(t, seen, [], {}, |t.lits|)
  {
    forall v: nat | v < |seen| ensures !seen[v] {
      assert v !in SeenSet(seen);
    }
  }

  /** The conflict has a literal of the current level. */
  lemma OpenAtFirst(t: Trail, ca: seq<Clause>, cr: nat, seen: seq<bool>, seen': seq<bool>, out: Clause, open: set<nat>,
      index: nat)
    requires TrailOk(t) && |t.lim| > 0 && Conflict(t, ca, cr) && |seen| == |t.assigns|
    requires Added(t, seen, ca[cr], seen') && Exploring(t, seen', out, open, index)
    ensures open != {}
  {
    var l :| l in ca[cr] && l.v < |t.level| && t.level[l.v] == |t.lim|;
    assert l.v in VarsOf(ca[cr]) && AboveZero(t, l.v);
    forall x | x in out ensures x.v != l.v {
      assert LowerLit(t, x);
    }
  }

  /** All variables that are seen are to be cleared in the end. */
  ghost predicate ToClear(seen: seq<bool>, toclear: seq<Lit>) {
    SeenSet(seen) <= VarsOf(toclear)
  }

  lemma FalseReason(t: Trail, ca: seq<Clause>, p: Lit)
    requires ReasonsOk(t, ca) && Val(t, p) == False
    ensures t.reason[p.v] != CREF_UNDEF ==> 0 <= t.reason[p.v] < |ca|
  {
    assert OnTrail(t, t.pos[p.v]) && Forced(t, ca, t.pos[p.v]);
  }

  /** Exactly the given literals have been marked. */
  ghost predicate Marked(seen0: seq<bool>, more: seq<Lit>, seen: seq<bool>) {
    && |seen| == |seen0| && (forall l :: l in more ==> l.v < |seen0| && !seen0[l.v])
    && forall v: nat :: v < |seen| ==> (seen[v] <==> seen0[v] || v in VarsOf(more))
  }

  lemma MarkOne(seen0: seq<bool>, more: seq<Lit>, seen: seq<bool>, p: Lit)
    requires Marked(seen0, more, seen) && p.v < |seen| && !seen[p.v]
    ensures Marked(seen0, more + [p], seen[p.v := true])
  {
    VarsOfAppend(more, p);
  }

  ghost function UnseenVars(seen: seq<bool>): set<nat> {
    set v: nat | v < |seen| && !seen[v]
  }

  /** What was marked on the way, and the literal itself, is on the stack or justified. */
  ghost predicate Chased(t: Trail, ca: seq<Clause>, seen0: seq<bool>, seen: seq<bool>, p: Lit, stack: seq<Lit>)
    requires |t.assigns| == |t.reason| == |t.level|
  {
    forall v :: (v in SeenSet(seen) && v !in SeenSet(seen0)) || v == p.v ==>
      v in VarsOf(stack) || Justified(t, ca, SeenSet(seen), v)
  }

  lemma NothingMarked(seen: seq<bool>)
    ensures Marked(seen, [], seen)
  {
    assert VarsOf([]) == {};
  }

  lemma BackAsBefore(seen0: seq<bool>, more: seq<Lit>, seen: seq<bool>, seen': seq<bool>)
    requires Marked(seen0, more, seen) && |seen'| == |seen|
    requires forall v: nat :: v < |seen| ==> (seen'[v] <==> seen[v] && v !in VarsOf(more))
    ensures seen' == seen0
  {
    forall v: nat | v < |seen0| ensures seen'[v] == seen0[v] {
      if v in VarsOf(more) {
        var l :| l in more && l.v == v;
      }
    }
  }

  lemma MarkedMore(seen0: seq<bool>, more: seq<Lit>, seen1: seq<bool>, found: seq<Lit>, seen: seq<bool>)
    requires Marked(seen0, more, seen1) && Marked(seen1, found, seen)
    ensures Marked(seen0, more + found, seen)
    ensures found == [] ==> seen == seen1
    ensures found != [] ==> UnseenVars(seen) < UnseenVars(seen1)
  {
    VarsOfBoth(more, found);
    if found == [] {
      assert VarsOf(found) == {};
    } else {
      assert found[0] in found && found[0].v in VarsOf(found);
      assert found[0].v in UnseenVars(seen1) && found[0].v !in UnseenVars(seen);
    }
  }

  lemma VarsOfBoth(c: Clause, d: Clause)
    ensures VarsOf(c + d) == VarsOf(c) + VarsOf(d)
  {
    forall v | v in VarsOf(c) + VarsOf(d) ensures v in VarsOf(c + d) {
      var l :| (l in c || l in d) && l.v == v;
      assert l in c + d;
    }
  }

  lemma ChasedOn(t: Trail, ca: seq<Clause>, ca': seq<Clause>, seen0: seq<bool>, seen: seq<bool>, seen': seq<bool>,
      p: Lit, rest: seq<Lit>, x: Lit, found: seq<Lit>)
    requires TrailOk(t) && Chased(t, ca, seen0, seen, p, rest + [x]) && SameClauses(ca, ca')
      && Marked(seen, found, seen')
    requires Justified(t, ca', SeenSet(seen'), x.v)
    ensures Chased(t, ca', seen0, seen', p, rest + found)
  {
    VarsOfBoth(rest, found);
    VarsOfAppend(rest, x);
    forall v | (v in SeenSet(seen') && v !in SeenSet(seen0)) || v == p.v
      ensures v in VarsOf(rest + found) || Justified(t, ca', SeenSet(seen'), v)
    {
      if v !in VarsOf(found) && v !in VarsOf(rest) && v != x.v {
        JustifiedSame(t, ca, ca', SeenSet(seen), v);
        JustifiedMore(t, ca', SeenSet(seen), SeenSet(seen'), v);
      }
    }
  }

  /** The literals of a clause that are kept, in their order. */
  function Pick(c: Clause, keep: seq<bool>, n: nat): (r: Clause)
    requires n <= |c| && n <= |keep|
    ensures |r| <= n
  {
    if n == 0 then [] else if keep[n - 1] then Pick(c, keep, n - 1) + [c[n - 1]] else Pick(c, keep, n - 1)
  }

  lemma {:induction false} PickHas(c: Clause, keep: seq<bool>, n: nat, l: Lit)
    requires n <= |c| && n <= |keep|
    ensures l in Pick(c, keep, n) <==> exists i :: 0 <= i < n && keep[i] && c[i] == l
  {
    if n > 0 {
      PickHas(c, keep, n - 1, l);
    }
  }

  lemma {:induction false} PickDistinct(c: Clause, keep: seq<bool>, n: nat)
    requires n <= |c| && n <= |keep| && DistinctVars(c)
    ensures DistinctVars(Pick(c, keep, n))
  {
    if n > 0 {
      PickDistinct(c, keep, n - 1);
      var r := Pick(c, keep, n - 1);
      forall j | 0 <= j < |r| ensures r[j].v != c[n - 1].v {
        PickHas(c, keep, n - 1, r[j]);
      }
    }
  }

  lemma {:induction false} PickFront(c: Clause, keep: seq<bool>, n: nat)
    requires 0 < n <= |c| && n <= |keep| && keep[0]
    ensures Pick(c, keep, n) != [] && Pick(c, keep, n)[0] == c[0]
  {
    if n > 1 {
      PickFront(c, keep, n - 1);
    }
  }

  lemma PickSub(c: Clause, keep: seq<bool>)
    requires c != [] && |keep| == |c| && keep[0] && DistinctVars(c)
    ensures Subclause(c, Pick(c, keep, |c|))
  {
    var r := Pick(c, keep, |c|);
    PickFront(c, keep, |c|);
    PickDistinct(c, keep, |c|);
    forall i | 0 <= i < |r| ensures r[i] in c {
      PickHas(c, keep, |c|, r[i]);
    }
  }

  /** Growing a decision by one entry changes nothing before it. */
  lemma {:induction false} PickSame(c: Clause, keep: seq<bool>, keep': seq<bool>, n: nat)
    requires n <= |c| && n <= |keep| && n <= |keep'| && keep[..n] == keep'[..n]
    ensures Pick(c, keep, n) == Pick(c, keep', n)
  {
    if n > 0 {
      assert keep[..n - 1] == keep[..n][..n - 1] && keep'[..n - 1] == keep'[..n][..n - 1];
      assert keep[n - 1] == keep[..n][n - 1] && keep'[n - 1] == keep'[..n][n - 1];
      PickSame(c, keep, keep', n - 1);
    }
  }

  /** Everything seen is kept, still to be looked at, or justified. */
  ghost predicate Minimising(t: Trail, ca: seq<Clause>, seen: seq<bool>, c: Clause, keep: seq<bool>)
    requires |t.assigns| == |t.reason| == |t.level|
  {
    && |seen| == |t.assigns| && 0 < |keep| <= |c| && keep[0]
    && (forall i :: 1 <= i < |c| ==> c[i].v in SeenSet(seen))
    && forall v :: v in SeenSet(seen) ==>
       v in VarsOf(Pick(c, keep, |keep|)) || v in VarsOf(c[|keep|..]) || Justified(t, ca, SeenSet(seen), v)
  }

  lemma KeepNext(t: Trail, ca: seq<Clause>, seen: seq<bool>, c: Clause, keep: seq<bool>)
    requires TrailOk(t) && Minimising(t, ca, seen, c, keep) && |keep| < |c|
    ensures Minimising(t, ca, seen, c, keep + [true])
  {
    var n := |keep|;
    PickSame(c, keep, keep + [true], n);
    VarsOfAppend(Pick(c, keep, n), c[n]);
    Peel(c, n);
  }

  lemma Peel(c: Clause, n: nat)
    requires n < |c|
    ensures VarsOf(c[n..]) == {c[n].v} + VarsOf(c[n + 1..])
  {
    assert c[n..] == [c[n]] + c[n + 1..];
    VarsOfBoth([c[n]], c[n + 1..]);
    assert VarsOf([c[n]]) == {c[n].v};
  }

  lemma DropNext(t: Trail, ca: seq<Clause>, ca': seq<Clause>, seen: seq<bool>, seen': seq<bool>, c: Clause,
      keep: seq<bool>)
    requires TrailOk(t) && Minimising(t, ca, seen, c, keep) && |keep| < |c| && SameClauses(ca, ca')
    requires SeenSet(seen) <= SeenSet(seen') && |seen'| == |seen| && Chased(t, ca', seen, seen', c[|keep|], [])
    ensures Minimising(t, ca', seen', c, keep + [false])
  {
    var n := |keep|;
    PickSame(c, keep, keep + [false], n);
    Peel(c, n);
    forall v | v in SeenSet(seen')
      ensures v in VarsOf(Pick(c, keep, n)) || v in VarsOf(c[n + 1..]) || Justified(t, ca', SeenSet(seen'), v)
    {
      if v in SeenSet(seen) && v != c[n].v {
        if v !in VarsOf(Pick(c, keep, n)) && v !in VarsOf(c[n + 1..]) {
          JustifiedSame(t, ca, ca', SeenSet(seen), v);
          JustifiedMore(t, ca', SeenSet(seen), SeenSet(seen'), v);
        }
      }
    }
  }

  lemma SameMinimising(t: Trail, ca: seq<Clause>, ca': seq<Clause>, seen: seq<bool>, c: Clause, keep: seq<bool>)
    requires TrailOk(t) && Minimising(t, ca, seen, c, keep) && SameClauses(ca, ca')
    ensures Minimising(t, ca', seen, c, keep)
  {
    forall v | v in SeenSet(seen)
      ensures v in VarsOf(Pick(c, keep, |keep|)) || v in VarsOf(c[|keep|..]) || Justified(t, ca', SeenSet(seen), v)
    {
      if v !in VarsOf(Pick(c, keep, |keep|)) && v !in VarsOf(c[|keep|..]) {
        JustifiedSame(t, ca, ca', SeenSet(seen), v);
      }
    }
  }

  lemma OneChased(t: Trail, ca: seq<Clause>, seen: seq<bool>, l: Lit)
    requires TrailOk(t) && Justified(t, ca, SeenSet(seen), l.v)
    ensures Chased(t, ca, seen, seen, l, [])
  {
  }

  lemma AllLower(t: Trail, ca: seq<Clause>, facts: set<Lit>, c: Clause)
    requires TrailOk(t) && Learnt(t, ca, facts, c)
    ensures forall i :: 1 <= i < |c| ==> Val(t, c[i]) == False
  {
    forall i | 1 <= i < |c| ensures Val(t, c[i]) == False {
      assert LowerLit(t, c[i]);
    }
  }

  lemma StartMinimising(t: Trail, ca: seq<Clause>, seen: seq<bool>, c: Clause)
    requires |t.assigns| == |t.reason| == |t.level| == |seen| && c != [] && SeenSet(seen) == VarsOf(c[1..])
    ensures Minimising(t, ca, seen, c, [true]) && ToClear(seen, c) && Pick(c, [true], 1) == c[..1]
  {
    forall i | 1 <= i < |c| ensures c[i].v in VarsOf(c[1..]) {
      assert c[1..][i - 1] == c[i];
    }
    assert Pick(c, [true], 0) == [];
  }

  lemma StartSame(c: Clause)
    requires c != [] && DistinctVars(c)
    ensures Subclause(c, c)
  {
  }

  lemma StillToClear(seen0: seq<bool>, more: seq<Lit>, seen: seq<bool>, toclear: seq<Lit>)
    requires Marked(seen0, more, seen) && ToClear(seen0, toclear)
    ensures ToClear(seen, toclear + more)
  {
    VarsOfBoth(toclear, more);
  }

  lemma MarkedSubset(seen0: seq<bool>, more: seq<Lit>, seen: seq<bool>)
    requires Marked(seen0, more, seen)
    ensures SeenSet(seen0) <= SeenSet(seen)
  {
  }

  lemma FinishMinimising(t: Trail, ca0: seq<Clause>, ca: seq<Clause>, facts: set<Lit>, seen: seq<bool>, c: Clause,
      keep: seq<bool>, out: Clause)
    requires ReasonsOk(t, ca) && RootsOk(t, facts) && Learnt(t, ca0, facts, c) && SameClauses(ca0, ca)
    requires Minimising(t, ca, seen, c, keep) && |keep| == |c| && out == Pick(c, keep, |c|)
    ensures Learnt(t, ca, facts, out) && Subclause(c, out)
  {
    SameNogood(t, ca0, ca, facts, VarsOf(c));
    PickSub(c, keep);
    assert VarsOf(c[|c|..]) == {};
    MinimisedLearnt(t, ca, facts, c, seen, out);
  }

  /** The marked variables are those of the clause behind its front, but for the removed ones. */
  ghost predicate Flagged(permDiff: seq<nat>, flag: nat, c: Clause, R: set<nat>) {
    forall v: nat :: v < |permDiff| ==> permDiff[v] <= flag && (permDiff[v] == flag <==> v in VarsOf(c) && v !in R)
  }

  lemma BinImplies(t: Trail, ca: seq<Clause>, B: Lists, p: Lit, k: nat)
    requires TrailOk(t) && BinOk(ca, B) && Clauses(ca, |t.assigns|) && k < |At(B, p)|
    ensures At(B, p)[k].blocker.v < |t.assigns|
    ensures Val(t, At(B, p)[k].blocker) == True ==> ImpliedBy(t, ca, p, At(B, p)[k].blocker.v)
  {
    var w := At(B, p)[k];
    assert BinWatcher(ca, p, w) && ClauseOk(ca[w.cref], |t.assigns|);
    assert w.blocker in ca[w.cref] && SameLits([Neg(p), w.blocker], ca[w.cref]);
  }

  /** Every binary clause with the negation of p is on the list of p. */
  lemma ImpliedListed(t: Trail, ca: seq<Clause>, B: Lists, p: Lit, v: nat) returns (k: nat)
    requires BinOk(ca, B) && Clauses(ca, |t.assigns|) && ImpliedBy(t, ca, p, v) && Val(t, p) == True
    ensures k < |At(B, p)| && At(B, p)[k].blocker.v == v && Val(t, At(B, p)[k].blocker) == True
  {
    var cr, l :| 0 <= cr < |ca| && SameLits([Neg(p), l], ca[cr]) && l.v == v && Val(t, l) == True;
    assert ClauseOk(ca[cr], |t.assigns|) && BinWatched(ca, B, cr);
    TwoLits(ca[cr], Neg(p), l);
    var w := Watcher(cr, l);
    assert w in At(B, p);
    k :| 0 <= k < |At(B, p)| && At(B, p)[k] == w;
  }

  lemma TwoLits(c: Clause, a: Lit, b: Lit)
    requires |c| >= 2 && DistinctLits(c) && SameLits([a, b], c)
    ensures c == [a, b] || c == [b, a]
  {
    assert forall l :: l in c ==> l == a || l == b by {
      assert forall l :: l in c ==> l in [a, b];
    }
    assert c[0] in c && c[1] in c;
  }

  lemma LearntVars(t: Trail, ca: seq<Clause>, facts: set<Lit>, c: Clause)
    requires TrailOk(t) && Learnt(t, ca, facts, c)
    ensures forall l :: l in c ==> l.v < |t.assigns| && Val(t, l) == False
  {
    forall l | l in c ensures Val(t, l) == False {
      var i :| 0 <= i < |c| && c[i] == l;
      assert i > 0 ==> LowerLit(t, c[i]);
    }
  }

  lemma {:induction false} VarsCount(c: Clause)
    requires DistinctVars(c)
    ensures |VarsOf(c)| == |c|
  {
    if c != [] {
      var n := |c| - 1;
      assert c == c[..n] + [c[n]];
      VarsOfAppend(c[..n], c[n]);
      VarsCount(c[..n]);
      forall l | l in c[..n] ensures l.v != c[n].v {
        var i :| 0 <= i < n && c[..n][i] == l;
        assert c[i].v != c[n].v;
      }
    }
  }

  lemma TailCount(c: Clause, R: set<nat>)
    requires c != [] && DistinctVars(c) && R <= VarsOf(c[1..])
    ensures |R| < |c|
  {
    VarsCount(c[1..]);
    Smaller(R, VarsOf(c[1..]));
  }

  lemma BehindFront(c: Clause, out: Clause, i: nat)
    requires c != [] && SameLits(c, out) && DistinctVars(out) && out[0] == c[0] && 1 <= i < |out|
    ensures out[i] in c && out[i].v in VarsOf(c[1..])
  {
    assert out[i] in out && c == [c[0]] + c[1..];
    assert out[0].v != out[i].v;
    assert out[i] in c[1..];
  }

  lemma MoreThanTail(out: Clause, R: set<nat>, i: nat, l: nat)
    requires DistinctVars(out) && i < |out| - |R| && l < |out| && |out| - 1 - l <= |R| && out[i].v in R
    requires forall k :: l < k < |out| ==> out[k].v in R
    ensures i <= l && |out| - l <= |R|
  {
    var tail := out[l + 1..];
    VarsCount(tail);
    forall v | v in VarsOf(tail) ensures v in R && v != out[i].v {
      var x :| x in tail && x.v == v;
      var k :| 0 <= k < |tail| && tail[k] == x;
      assert out[l + 1 + k] == x && out[i].v != out[l + 1 + k].v;
    }
    Smaller(VarsOf(tail) + {out[i].v}, R);
  }

  lemma ExchangeVars(out: Clause, i: nat, l: nat)
    requires DistinctVars(out) && i <= l < |out|
    ensures DistinctVars(Exchange(out, i, l))
  {
    var r := Exchange(out, i, l);
    forall a, b | 0 <= a < b < |r| ensures r[a].v != r[b].v {
      var x, y := if a == i then l else if a == l then i else a, if b == i then l else if b == l then i else b;
      assert r[a] == out[x] && r[b] == out[y] && x != y;
    }
  }

  lemma KeptFront(c: Clause, all: Clause, R: set<nat>, i: nat)
    requires SameLits(c, all) && i <= |all| && (forall k :: 0 <= k < i ==> all[k].v !in R)
      && forall k :: i <= k < |all| ==> all[k].v in R
    ensures forall l :: l in c ==> (l in all[..i] <==> l.v !in R)
  {
    forall l | l in c ensures l in all[..i] <==> l.v !in R {
      var k :| 0 <= k < |all| && all[k] == l;
      assert k < i ==> all[..i][k] == l;
    }
  }

  /** What is left at the end is all that was removed. */
  lemma AllOfTail(c: Clause, out: Clause, R: set<nat>, i: nat)
    requires c != [] && SameLits(c, out) && DistinctVars(out) && out[0] == c[0] && R <= VarsOf(c[1..])
    requires 1 <= i == |out| - |R| && DistinctVars(c) && forall k :: 1 <= k < i ==> out[k].v !in R
    ensures (forall k :: i <= k < |out| ==> out[k].v in R) && Subclause(c, out[..i])
  {
    var tail := out[i..];
    VarsCount(tail);
    forall v | v in R ensures v in VarsOf(tail) {
      var x :| x in c[1..] && x.v == v;
      var j :| 0 <= j < |c| - 1 && c[1..][j] == x;
      assert c[j + 1] == x && c[0].v != c[j + 1].v && x in out;
      var k :| 0 <= k < |out| && out[k] == x;
      assert tail[k - i] == x;
    }
    SameSize(R, VarsOf(tail));
    forall k | i <= k < |out| ensures out[k].v in R {
      assert tail[k - i] == out[k] && out[k] in tail;
    }
    forall k | 0 <= k < i ensures out[..i][k] in c {
      assert out[k] in out;
    }
  }

  lemma SameSize(a: set<nat>, b: set<nat>)
    requires a <= b && |a| == |b|
    ensures a == b
  {
    assert |b - a| == |b| - |a|;
  }
}
