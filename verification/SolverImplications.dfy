/** The implication graph of the current level, and its first unique implication point. */
module SolverImplications {
  import opened SolverTypes
  import opened SolverStates
  import opened SolverNogoods
  import opened SolverAnalysis

  // ----- the graph -----

  ghost predicate AtTop(T: Trail, v: nat)
    requires TrailOk(T)
  {
    v < |T.assigns| && T.assigns[v] != Undef && T.level[v] == |T.lim|
  }

  /** The variable has a reason in which the other one occurs. */
  ghost predicate Arc(T: Trail, ca: seq<Clause>, v: nat, w: nat)
    requires TrailOk(T)
  {
    AtTop(T, v) && AtTop(T, w) && v != w && 0 <= T.reason[v] < |ca| && w in VarsOf(ca[T.reason[v]])
  }

  ghost predicate Path(T: Trail, ca: seq<Clause>, path: seq<nat>)
    requires TrailOk(T)
  {
    path != [] && AtTop(T, path[0]) && forall i :: 0 <= i < |path| - 1 ==> Arc(T, ca, path[i], path[i + 1])
  }

  ghost predicate Decision(T: Trail, v: nat)
    requires TrailOk(T)
  {
    AtTop(T, v) && T.reason[v] == CREF_UNDEF
  }

  /** A way from the conflict back to the decision. */
  ghost predicate WayBack(T: Trail, ca: seq<Clause>, confl: nat, path: seq<nat>)
    requires TrailOk(T) && confl < |ca|
  {
    Path(T, ca, path) && path[0] in VarsOf(ca[confl]) && Decision(T, path[|path| - 1])
  }

  ghost predicate Bypassed(T: Trail, ca: seq<Clause>, confl: nat, v: nat)
    requires TrailOk(T) && confl < |ca|
  {
    exists path :: WayBack(T, ca, confl, path) && v !in path
  }

  /** All ways from the conflict back to the decision go through the variable. */
  ghost predicate ImplicationPoint(T: Trail, ca: seq<Clause>, confl: nat, v: nat)
    requires TrailOk(T) && confl < |ca|
  {
    AtTop(T, v) && !Bypassed(T, ca, confl, v)
  }

  /** The implication point next to the conflict. */
  ghost predicate FirstPoint(T: Trail, ca: seq<Clause>, confl: nat, v: nat)
    requires TrailOk(T) && confl < |ca|
  {
    ImplicationPoint(T, ca, confl, v) && forall w: nat :: ImplicationPoint(T, ca, confl, w) ==> T.pos[w] <= T.pos[v]
  }

  // ----- ways down -----

  /** From every variable there is a way to the decision, over earlier ones only. */
  lemma {:induction false} WayDown(T: Trail, ca: seq<Clause>, v: nat) returns (path: seq<nat>)
    requires ReasonsOk(T, ca) && AtTop(T, v)
    ensures Path(T, ca, path) && path[0] == v && Decision(T, path[|path| - 1])
    ensures forall w :: w in path ==> AtTop(T, w) && T.pos[w] <= T.pos[v]
    decreases T.pos[v]
  {
    if T.reason[v] == CREF_UNDEF {
      path := [v];
    } else {
      var w := SameLevelVar(T, ca, v);
      var rest := WayDown(T, ca, w);
      path := [v] + rest;
      PathPrepend(T, ca, v, rest);
    }
  }

  lemma SameLevelVar(T: Trail, ca: seq<Clause>, v: nat) returns (w: nat)
    requires ReasonsOk(T, ca) && AtTop(T, v) && T.reason[v] != CREF_UNDEF
    ensures Arc(T, ca, v, w) && T.pos[w] < T.pos[v]
  {
    var i := T.pos[v];
    assert OnTrail(T, i) && Forced(T, ca, i) && Forces(T, ca[T.reason[v]], i);
    var l :| l in ca[T.reason[v]] && l != T.lits[i] && SameLevel(T, l, T.lits[i]);
    assert FalseBefore(T, l, i);
    w := l.v;
  }

  lemma PathPrepend(T: Trail, ca: seq<Clause>, v: nat, rest: seq<nat>)
    requires TrailOk(T) && Path(T, ca, rest) && Arc(T, ca, v, rest[0])
    ensures Path(T, ca, [v] + rest)
  {
    var path := [v] + rest;
    forall i | 0 <= i < |path| - 1 ensures Arc(T, ca, path[i], path[i + 1]) {
      assert i > 0 ==> path[i] == rest[i - 1] && path[i + 1] == rest[i];
    }
  }

  lemma PathJoin(T: Trail, ca: seq<Clause>, a: seq<nat>, b: seq<nat>)
    requires TrailOk(T) && Path(T, ca, a) && Path(T, ca, b) && a[|a| - 1] == b[0]
    ensures Path(T, ca, a + b[1..]) && (a + b[1..])[|a + b[1..]| - 1] == b[|b| - 1]
    ensures forall w :: w in a + b[1..] ==> w in a || w in b
  {
    var path := a + b[1..];
    forall i | 0 <= i < |path| - 1 ensures Arc(T, ca, path[i], path[i + 1]) {
      if i >= |a| - 1 {
        assert path[i] == b[i - (|a| - 1)] && path[i + 1] == b[i + 1 - (|a| - 1)];
      }
    }
  }

  // ----- what has been explored -----

  /** A way from the conflict to the variable, over variables of S only. */
  ghost predicate Reached(T: Trail, ca: seq<Clause>, confl: nat, S: set<nat>, v: nat)
    requires TrailOk(T) && confl < |ca|
  {
    exists path :: ReachedBy(T, ca, confl, S, v, path)
  }

  ghost predicate ReachedBy(T: Trail, ca: seq<Clause>, confl: nat, S: set<nat>, v: nat, path: seq<nat>)
    requires TrailOk(T) && confl < |ca|
  {
    && Path(T, ca, path) && path[0] in VarsOf(ca[confl]) && path[|path| - 1] == v
    && forall i :: 0 <= i < |path| - 1 ==> path[i] in S
  }

  /** The resolved variables lead to resolved ones and those in front of the search only, all of them
      are reached over resolved ones, and each resolved one can be bypassed. */
  ghost predicate ExploredBy(T: Trail, ca: seq<Clause>, confl: nat, done: set<nat>, front: set<nat>, bound: nat)
    requires TrailOk(T) && confl < |ca|
  {
    && (forall w :: w in VarsOf(ca[confl]) && AtTop(T, w) ==> w in done || w in front)
    && (forall v :: v in done ==>
       AtTop(T, v) && bound <= T.pos[v] && 0 <= T.reason[v] < |ca| && Bypassed(T, ca, confl, v))
    && (forall v, w :: v in done && Arc(T, ca, v, w) ==> w in done || w in front)
    && (forall v :: v in front ==> AtTop(T, v) && T.pos[v] < bound && Reached(T, ca, confl, done, v))
  }

  ghost predicate Explored(T: Trail, ca: seq<Clause>, confl: nat, front: set<nat>, bound: nat)
    requires TrailOk(T) && confl < |ca|
  {
    exists done :: ExploredBy(T, ca, confl, done, front, bound)
  }

  /** Between two resolutions: p is the latest variable in front, the others are open. */
  ghost predicate Approached(T: Trail, ca: seq<Clause>, confl: nat, open: set<nat>, p: nat, index: nat)
    requires TrailOk(T) && confl < |ca|
  {
    Explored(T, ca, confl, open + {p}, index + 1)
  }

  lemma ExploredLower(T: Trail, ca: seq<Clause>, confl: nat, done: set<nat>, front: set<nat>, bound: nat, bound': nat)
    requires TrailOk(T) && confl < |ca| && ExploredBy(T, ca, confl, done, front, bound) && bound' <= bound
    requires forall v :: v in front ==> v < |T.pos| && T.pos[v] < bound'
    ensures ExploredBy(T, ca, confl, done, front, bound')
  {
  }

  /** A variable reached over others is bypassed by the way down from there. */
  lemma BypassBelow(T: Trail, ca: seq<Clause>, confl: nat, done: set<nat>, z: nat, y: nat)
    requires ReasonsOk(T, ca) && confl < |ca| && AtTop(T, z) && Reached(T, ca, confl, done, z)
    requires y !in done && AtTop(T, y) && T.pos[z] < T.pos[y]
    ensures Bypassed(T, ca, confl, y)
  {
    var a :| ReachedBy(T, ca, confl, done, z, a);
    var b := WayDown(T, ca, z);
    PathJoin(T, ca, a, b);
    forall i | 0 <= i < |a| ensures a[i] != y {
      assert i < |a| - 1 ==> a[i] in done;
    }
    assert WayBack(T, ca, confl, a + b[1..]) && y !in a + b[1..];
  }

  /** At the beginning the variables of the conflict are in front. */
  lemma ExploreConflict(T: Trail, ca: seq<Clause>, confl: nat, front: set<nat>, bound: nat)
    requires TrailOk(T) && confl < |ca| && forall v :: v in front ==>
      v in VarsOf(ca[confl]) && AtTop(T, v) && T.pos[v] < bound
    requires forall w :: w in VarsOf(ca[confl]) && AtTop(T, w) ==> w in front
    ensures ExploredBy(T, ca, confl, {}, front, bound)
  {
    forall v | v in front ensures Reached(T, ca, confl, {}, v) {
      assert ReachedBy(T, ca, confl, {}, v, [v]);
    }
  }

  /** One resolution: the latest variable in front is replaced by those of its reason. */
  lemma ExploreReason(T: Trail, ca: seq<Clause>, confl: nat, done: set<nat>, done': set<nat>, open: set<nat>,
                      front0: set<nat>, p: nat, front: set<nat>, z: nat)
    requires ReasonsOk(T, ca) && confl < |ca| && AtTop(T, p) && ExploredBy(T, ca, confl, done, front0, T.pos[p] + 1)
    requires z in open && (forall v :: v in open ==> v < |T.pos| && T.pos[v] < T.pos[p]) && 0 <= T.reason[p] < |ca|
    requires (forall v :: v in done' <==> v in done || v == p) && forall v :: v in front0 <==> v in open || v == p
    requires forall v :: v in open || Arc(T, ca, p, v) ==> v in front
    requires forall v :: v in front ==> AtTop(T, v) && T.pos[v] < T.pos[p] && (v in open || Arc(T, ca, p, v))
    ensures ExploredBy(T, ca, confl, done', front, T.pos[p])
  {
    BypassBelow(T, ca, confl, done, z, p);
    forall v | v in front ensures Reached(T, ca, confl, done', v) {
      ReachedFurther(T, ca, confl, done, done', p, v, v in open);
    }
  }

  lemma ReachedFurther(T: Trail, ca: seq<Clause>, confl: nat, done: set<nat>, done': set<nat>, p: nat, v: nat,
      before: bool)
    requires TrailOk(T) && confl < |ca| && AtTop(T, v) && done <= done' && p in done'
    requires if before then Reached(T, ca, confl, done, v) else Reached(T, ca, confl, done, p) && Arc(T, ca, p, v)
    ensures Reached(T, ca, confl, done', v)
  {
    if before {
      var path :| ReachedBy(T, ca, confl, done, v, path);
      assert ReachedBy(T, ca, confl, done', v, path);
    } else {
      var path :| ReachedBy(T, ca, confl, done, p, path);
      PathJoin(T, ca, path, [p, v]);
      var longer := path + [p, v][1..];
      assert longer == path + [v];
      assert ReachedBy(T, ca, confl, done', v, longer);
    }
  }

  /** When only one variable is left in front, it is the first implication point. */
  lemma LastIsFirst(T: Trail, ca: seq<Clause>, confl: nat, u: nat, index: nat)
    requires ReasonsOk(T, ca) && confl < |ca| && AtTop(T, u) && index == T.pos[u]
      && Approached(T, ca, confl, {}, u, index)
    ensures FirstPoint(T, ca, confl, u)
  {
    hide ExploredBy, Forced;
    assert {} + {u} == {u};
    var done :| ExploredBy(T, ca, confl, done, {u}, index + 1);
    OnlyFirst(T, ca, confl, done, u);
  }

  lemma OnlyFirst(T: Trail, ca: seq<Clause>, confl: nat, done: set<nat>, u: nat)
    requires ReasonsOk(T, ca) && confl < |ca| && AtTop(T, u) && ExploredBy(T, ca, confl, done, {u}, T.pos[u] + 1)
    ensures FirstPoint(T, ca, confl, u)
  {
    forall path | WayBack(T, ca, confl, path) ensures u in path {
      MustPass(T, ca, confl, done, u, path);
    }
    forall w: nat | AtTop(T, w) && T.pos[u] < T.pos[w] ensures Bypassed(T, ca, confl, w) {
      if w !in done {
        BypassBelow(T, ca, confl, done, u, w);
      }
    }
  }

  lemma MustPass(T: Trail, ca: seq<Clause>, confl: nat, done: set<nat>, u: nat, path: seq<nat>)
    requires TrailOk(T) && confl < |ca| && AtTop(T, u) && ExploredBy(T, ca, confl, done, {u}, T.pos[u] + 1)
    requires WayBack(T, ca, confl, path)
    ensures u in path
  {
    if u !in path {
      StaysDone(T, ca, confl, done, u, path, |path| - 1);
    }
  }

  lemma {:induction false} StaysDone(T: Trail, ca: seq<Clause>, confl: nat, done: set<nat>, u: nat, path: seq<nat>,
      i: nat)
    requires TrailOk(T) && confl < |ca| && AtTop(T, u) && ExploredBy(T, ca, confl, done, {u}, T.pos[u] + 1)
    requires Path(T, ca, path) && path[0] in VarsOf(ca[confl]) && u !in path && i < |path|
    ensures path[i] in done
  {
    if i > 0 {
      StaysDone(T, ca, confl, done, u, path, i - 1);
      assert Arc(T, ca, path[i - 1], path[i - 1 + 1]);
    }
  }

  // ----- the search for it -----

  lemma SeenAtTop(T: Trail, seen: seq<bool>, out: Clause, open: set<nat>, bound: nat, v: nat)
    requires TrailOk(T) && Exploring(T, seen, out, open, bound) && AtTop(T, v)
    ensures seen[v] <==> v in open
  {
    forall l | l in out ensures l.v != v {
      assert LowerLit(T, l);
    }
  }

  /** The literals of the conflict of the current level are those in front. */
  lemma ConflictExplored(T: Trail, ca: seq<Clause>, confl: nat, seen0: seq<bool>, seen: seq<bool>, out: Clause,
      open: set<nat>)
    requires TrailOk(T) && confl < |ca| && |T.lim| > 0 && |seen0| == |T.assigns| && SeenSet(seen0) == {}
    requires Exploring(T, seen, out, open, |T.lits|) && Added(T, seen0, ca[confl], seen)
    ensures Explored(T, ca, confl, open, |T.lits|)
  {
    forall v | v in open ensures v in VarsOf(ca[confl]) && AtTop(T, v) && T.pos[v] < |T.lits| {
      assert OpenVar(T, v, |T.lits|);
      assert v !in SeenSet(seen0);
    }
    forall w | w in VarsOf(ca[confl]) && AtTop(T, w) ensures w in open {
      SeenAtTop(T, seen, out, open, |T.lits|, w);
      assert AboveZero(T, w);
    }
    ExploreConflict(T, ca, confl, open, |T.lits|);
  }

  lemma ReasonExploredBy(T: Trail, ca0: seq<Clause>, ca: seq<Clause>, confl: nat, done: set<nat>, p: Lit,
      seen0: seq<bool>, out0: Clause, open0: set<nat>, index: nat, seen: seq<bool>, out: Clause, open: set<nat>)
    requires ReasonsOk(T, ca0) && SameClauses(ca0, ca) && confl < |ca0| && |T.lim| > 0 && AtTop(T, p.v)
      && index == T.pos[p.v] && open0 != {}
    requires Exploring(T, seen0, out0, open0, index) && Exploring(T, seen, out, open, index) && open0 <= open
    requires 0 <= T.reason[p.v] < |ca| && ca[T.reason[p.v]] != [] && Added(T, seen0, ca[T.reason[p.v]][1..], seen)
    requires forall l :: l in ca[T.reason[p.v]] ==> l == p || l in ca[T.reason[p.v]][1..]
    requires ExploredBy(T, ca0, confl, done, open0 + {p.v}, index + 1)
    ensures ExploredBy(T, ca0, confl, done + {p.v}, open, index)
  {
    var r := T.reason[p.v];
    var rest := ca[r][1..];
    assert SameLits(ca0[r], ca[r]);
    forall v | Arc(T, ca0, p.v, v) ensures v in open {
      var l :| l in ca0[r] && l.v == v;
      assert l in ca[r] && l in rest && v in VarsOf(rest) && AboveZero(T, v);
      SeenAtTop(T, seen, out, open, T.pos[p.v], v);
    }
    forall v | v in open ensures AtTop(T, v) && T.pos[v] < T.pos[p.v] && (v in open0 || Arc(T, ca0, p.v, v)) {
      assert OpenVar(T, v, T.pos[p.v]);
      SeenAtTop(T, seen0, out0, open0, T.pos[p.v], v);
      SeenAtTop(T, seen, out, open, T.pos[p.v], v);
      if v !in open0 {
        var l :| l in rest && l.v == v;
        assert l in ca[r] && l in ca0[r];
      }
    }
    var z :| z in open0;
    assert OpenVar(T, z, T.pos[p.v]);
    ExploreReason(T, ca0, confl, done, done + {p.v}, open0, open0 + {p.v}, p.v, open, z);
  }

  /** After a resolution those in front are the open variables again. */
  lemma ReasonExplored(T: Trail, ca0: seq<Clause>, ca: seq<Clause>, confl: nat, p: Lit, seen0: seq<bool>, out0: Clause,
                       open0: set<nat>, index: nat, seen: seq<bool>, out: Clause, open: set<nat>)
    requires ReasonsOk(T, ca0) && SameClauses(ca0, ca) && confl < |ca0| && |T.lim| > 0 && AtTop(T, p.v)
      && index == T.pos[p.v] && open0 != {}
    requires Exploring(T, seen0, out0, open0, index) && Exploring(T, seen, out, open, index) && open0 <= open
    requires 0 <= T.reason[p.v] < |ca| && ca[T.reason[p.v]] != [] && Added(T, seen0, ca[T.reason[p.v]][1..], seen)
    requires forall l :: l in ca[T.reason[p.v]] ==> l == p || l in ca[T.reason[p.v]][1..]
    requires Approached(T, ca0, confl, open0, p.v, index)
    ensures Explored(T, ca0, confl, open, index)
  {
    hide ExploredBy, Exploring, Added, Forced;
    var done :| ExploredBy(T, ca0, confl, done, open0 + {p.v}, index + 1);
    ReasonExploredBy(T, ca0, ca, confl, done, p, seen0, out0, open0, index, seen, out, open);
  }

  lemma LatestBelow(T: Trail, open: set<nat>, p: Lit)
    requires TrailOk(T) && Latest(T, open, p)
    ensures p.v in open && forall v :: v in open && v < |T.pos| ==> T.pos[v] < T.pos[p.v] + 1
  {
  }

  /** Taking the latest open variable changes nothing. */
  lemma TakenExplored(T: Trail, ca: seq<Clause>, confl: nat, open: set<nat>, bound: nat, p: Lit, index: nat)
    requires TrailOk(T) && confl < |ca| && Explored(T, ca, confl, open, bound) && Latest(T, open, p)
      && index == T.pos[p.v]
    ensures Approached(T, ca, confl, open - {p.v}, p.v, index)
  {
    LatestBelow(T, open, p);
    hide ExploredBy, Latest;
    assert open - {p.v} + {p.v} == open;
    var done :| ExploredBy(T, ca, confl, done, open, bound);
    ExploredLower(T, ca, confl, done, open, bound, index + 1);
  }
}
