/** When a literal of a learnt clause is redundant: every chain of reasons that starts at it ends in
    literals of the clause before it meets one that stops the search. */
module SolverRedundancy {
  import opened SolverTypes
  import opened SolverStates
  import opened SolverNogoods
  import opened SolverAnalysis

  /** One of 32 bits for a level. */
  function LevelBit(level: nat): bv32 {
    1 << ((level % 32) as bv5)
  }

  /** The levels that pass the 32-bit filter. */
  function PassingLevels(abstract_levels: bv32): nat -> bool {
    (level: nat) => LevelBit(level) & abstract_levels != 0
  }

  /** The search does not go past such a variable: it is a decision, or its level does not pass. */
  ghost predicate Stops(t: Trail, levels: nat -> bool, v: nat) {
    v < |t.reason| && v < |t.level| && (t.reason[v] == CREF_UNDEF || !levels(t.level[v]))
  }

  /** The reason of v has u, above level 0. */
  ghost predicate Needs(t: Trail, ca: seq<Clause>, v: nat, u: nat) {
    && v < |t.reason| && 0 <= t.reason[v] < |ca|
    && u in VarsOf(ca[t.reason[v]]) && u != v && AboveZero(t, u)
  }

  /** A chain of reasons through variables that are not seen. */
  ghost predicate Chain(t: Trail, ca: seq<Clause>, seen: seq<bool>, w: seq<nat>) {
    forall k :: 0 < k < |w| ==> Needs(t, ca, w[k - 1], w[k]) && w[k] < |seen| && !seen[w[k]]
  }

  ghost predicate Leads(t: Trail, ca: seq<Clause>, seen: seq<bool>, v: nat, u: nat) {
    exists w: seq<nat> :: w != [] && w[0] == v && w[|w| - 1] == u && Chain(t, ca, seen, w)
  }

  /** The next variable of a chain is not seen and stops the search. */
  ghost predicate EndsAt(t: Trail, ca: seq<Clause>, seen: seq<bool>, levels: nat -> bool, x: nat, u: nat) {
    Needs(t, ca, x, u) && u < |seen| && !seen[u] && Stops(t, levels, u)
  }

  /** Some chain of reasons that starts at v ends outside of the clause. */
  ghost predicate Escapes(t: Trail, ca: seq<Clause>, seen: seq<bool>, levels: nat -> bool, v: nat) {
    exists x, u :: Leads(t, ca, seen, v, x) && EndsAt(t, ca, seen, levels, x, u)
  }

  lemma LeadsSelf(t: Trail, ca: seq<Clause>, seen: seq<bool>, v: nat)
    ensures Leads(t, ca, seen, v, v)
  {
    var w: seq<nat> := [v];
    assert w[0] == v && w[|w| - 1] == v && Chain(t, ca, seen, w);
  }

  lemma LeadsOn(t: Trail, ca: seq<Clause>, seen: seq<bool>, v: nat, x: nat, u: nat)
    requires Leads(t, ca, seen, v, x) && Needs(t, ca, x, u) && u < |seen| && !seen[u]
    ensures Leads(t, ca, seen, v, u)
  {
    var w: seq<nat> :| w != [] && w[0] == v && w[|w| - 1] == x && Chain(t, ca, seen, w);
    var longer := w + [u];
    forall k | 0 < k < |longer| ensures Needs(t, ca, longer[k - 1], longer[k]) && longer[k] < |seen|
      && !seen[longer[k]] {
      if k < |w| {
        assert Needs(t, ca, w[k - 1], w[k]);
      }
    }
    assert longer[0] == v && longer[|longer| - 1] == u && Chain(t, ca, seen, longer);
  }

  /** The literals behind the first one of a reason are what its variable needs. */
  lemma NeedsRest(t: Trail, ca0: seq<Clause>, ca: seq<Clause>, x: nat, l: Lit)
    requires SameClauses(ca0, ca) && x < |t.reason| && 0 <= t.reason[x] < |ca|
    requires l in ca[t.reason[x]] && l.v != x && AboveZero(t, l.v)
    ensures Needs(t, ca0, x, l.v)
  {
    assert SameLits(ca0[t.reason[x]], ca[t.reason[x]]);
    assert l in ca0[t.reason[x]];
  }

  // ----- the search -----

  /** A literal that may be put on the stack. */
  ghost predicate Passed(t: Trail, levels: nat -> bool, c: Clause, l: Lit)
    requires c != []
  {
    l in c[1..] && AboveZero(t, l.v) && !Stops(t, levels, l.v)
  }

  ghost predicate AllPassed(t: Trail, levels: nat -> bool, c: Clause, more: seq<Lit>)
    requires c != []
  {
    forall l :: l in more ==> Passed(t, levels, c, l)
  }

  /** The literals above level 0 are seen. */
  ghost predicate SeenAbove(t: Trail, seen: seq<bool>, c: Clause) {
    forall l :: l in c && AboveZero(t, l.v) ==> l.v < |seen| && seen[l.v]
  }

  lemma MarkPassed(t: Trail, ca: seq<Clause>, levels: nat -> bool, c: Clause, front: Clause, more: seq<Lit>,
      seen0: seq<bool>, seen: seq<bool>, p: Lit)
    requires TrailOk(t) && c != [] && p in c[1..] && AboveZero(t, p.v) && !Stops(t, levels, p.v) && p.v < |seen|
      && !seen[p.v]
    requires Val(t, p) == False && 0 <= t.reason[p.v] < |ca|
    requires Marked(seen0, more, seen) && Stacked(t, ca, more) && AllPassed(t, levels, c, more)
      && SeenAbove(t, seen, front)
    ensures Marked(seen0, more + [p], seen[p.v := true]) && Stacked(t, ca, more + [p])
      && AllPassed(t, levels, c, more + [p])
    ensures SeenAbove(t, seen[p.v := true], front + [p])
  {
    MarkOne(seen0, more, seen, p);
    assert forall l :: l in more + [p] <==> l in more || l == p;
    assert forall l :: l in front + [p] <==> l in front || l == p;
  }

  lemma SeenMore(t: Trail, seen: seq<bool>, front: Clause, p: Lit)
    requires SeenAbove(t, seen, front) && p.v < |seen| && (seen[p.v] || !AboveZero(t, p.v))
    ensures SeenAbove(t, seen, front + [p])
  {
    assert forall l :: l in front + [p] <==> l in front || l == p;
  }

  /** Behind its first literal a reason has no literal of the same variable. */
  lemma OthersInReason(t: Trail, ca: seq<Clause>, x: Lit)
    requires TrailOk(t) && x.v < |t.reason| && 0 <= t.reason[x.v] < |ca| && ca[t.reason[x.v]] != []
    requires forall l :: l in ca[t.reason[x.v]][1..] ==> FalseBefore(t, l, t.pos[x.v])
    ensures forall l :: l in ca[t.reason[x.v]][1..] ==> l.v != x.v
  {
  }

  /** A literal that ends the search. */
  ghost predicate Blocking(t: Trail, seen: seq<bool>, levels: nat -> bool, l: Lit) {
    AboveZero(t, l.v) && l.v < |seen| && !seen[l.v] && Stops(t, levels, l.v)
  }

  /** Chains lead to everything on the stack, and nothing that was marked stops the search. */
  ghost predicate Followed(t: Trail, ca: seq<Clause>, seen0: seq<bool>, levels: nat -> bool, p: Lit, stack: seq<Lit>,
      more: seq<Lit>)
  {
    && (forall l :: l in stack ==> Leads(t, ca, seen0, p.v, l.v))
    && forall l :: l in more ==> !Stops(t, levels, l.v)
  }

  lemma FollowedOn(t: Trail, ca0: seq<Clause>, ca: seq<Clause>, seen0: seq<bool>, seen1: seq<bool>, seen: seq<bool>,
      levels: nat -> bool, p: Lit, rest: seq<Lit>, x: Lit, more: seq<Lit>, found: seq<Lit>)
    requires TrailOk(t) && SameClauses(ca0, ca) && Followed(t, ca0, seen0, levels, p, rest + [x], more)
    requires Marked(seen0, more, seen1) && Marked(seen1, found, seen)
    requires x.v < |t.reason| && 0 <= t.reason[x.v] < |ca| && ca[t.reason[x.v]] != []
    requires forall l :: l in ca[t.reason[x.v]][1..] ==> l.v != x.v
    requires AllPassed(t, levels, ca[t.reason[x.v]], found)
    ensures Followed(t, ca0, seen0, levels, p, rest + found, more + found)
  {
    assert x in rest + [x];
    forall l | l in rest + found ensures Leads(t, ca0, seen0, p.v, l.v) {
      if l in found {
        assert Passed(t, levels, ca[t.reason[x.v]], l);
        NeedsRest(t, ca0, ca, x.v, l);
        LeadsOn(t, ca0, seen0, p.v, x.v, l.v);
      } else {
        assert l in rest + [x];
      }
    }
  }

  lemma Blocked(t: Trail, ca0: seq<Clause>, ca: seq<Clause>, seen0: seq<bool>, more: seq<Lit>, seen: seq<bool>,
      levels: nat -> bool, p: Lit, x: Lit)
    requires SameClauses(ca0, ca) && Leads(t, ca0, seen0, p.v, x.v) && Marked(seen0, more, seen)
    requires x.v < |t.reason| && 0 <= t.reason[x.v] < |ca| && ca[t.reason[x.v]] != []
    requires forall l :: l in ca[t.reason[x.v]][1..] ==> l.v != x.v
    requires exists l :: l in ca[t.reason[x.v]][1..] && Blocking(t, seen, levels, l)
    ensures Escapes(t, ca0, seen0, levels, p.v)
  {
    var l :| l in ca[t.reason[x.v]][1..] && Blocking(t, seen, levels, l);
    NeedsRest(t, ca0, ca, x.v, l);
    assert EndsAt(t, ca0, seen0, levels, x.v, l.v);
  }

  lemma NoneStops(t: Trail, seen0: seq<bool>, seen: seq<bool>, levels: nat -> bool, more: seq<Lit>)
    requires Marked(seen0, more, seen) && forall l :: l in more ==> !Stops(t, levels, l.v)
    ensures forall v :: v in SeenSet(seen) && v !in SeenSet(seen0) ==> !Stops(t, levels, v)
  {
  }

  /** The search from p, with a stack of literals still to follow and those marked so far. */
  ghost predicate Searching(t: Trail, ca0: seq<Clause>, ca: seq<Clause>, seen0: seq<bool>, seen: seq<bool>,
      levels: nat -> bool, p: Lit, stack: seq<Lit>, more: seq<Lit>)
  {
    && TrailOk(t) && SameClauses(ca0, ca) && Marked(seen0, more, seen) && Stacked(t, ca, stack)
    && Chased(t, ca, seen0, seen, p, stack) && Followed(t, ca0, seen0, levels, p, stack, more)
  }

  /** Nothing that was seen since stops the search. */
  ghost predicate Passing(t: Trail, seen0: seq<bool>, seen: seq<bool>, levels: nat -> bool) {
    forall v :: v in SeenSet(seen) && v !in SeenSet(seen0) ==> !Stops(t, levels, v)
  }

  lemma StartSearch(t: Trail, ca: seq<Clause>, seen: seq<bool>, levels: nat -> bool, p: Lit)
    requires TrailOk(t) && |seen| == |t.assigns| && Val(t, p) == False && 0 <= t.reason[p.v] < |ca|
    ensures Searching(t, ca, ca, seen, seen, levels, p, [p], [])
  {
    NothingMarked(seen);
    LeadsSelf(t, ca, seen, p.v);
    assert p in [p];
  }

  lemma EndSearch(t: Trail, ca0: seq<Clause>, ca: seq<Clause>, seen0: seq<bool>, seen: seq<bool>, levels: nat -> bool,
      p: Lit, more: seq<Lit>)
    requires Searching(t, ca0, ca, seen0, seen, levels, p, [], more)
    ensures !Escapes(t, ca0, seen0, levels, p.v) && Passing(t, seen0, seen, levels)
  {
    NoneStops(t, seen0, seen, levels, more);
    NoEscape(t, ca0, ca, seen0, seen, levels, p);
  }

  /** One literal was taken from the stack and its reason looked through. */
  lemma SearchStep(t: Trail, ca0: seq<Clause>, ca1: seq<Clause>, ca: seq<Clause>, seen0: seq<bool>, seen1: seq<bool>,
      seen: seq<bool>, levels: nat -> bool, p: Lit, rest: seq<Lit>, x: Lit, more: seq<Lit>, found: seq<Lit>, ok: bool)
    requires Searching(t, ca0, ca1, seen0, seen1, levels, p, rest + [x], more) && SameClauses(ca1, ca)
    requires |seen| == |t.assigns| && Val(t, x) == False && 0 <= t.reason[x.v] < |ca| && ca[t.reason[x.v]] != []
    requires forall l :: l in ca[t.reason[x.v]][1..] ==> FalseBefore(t, l, t.pos[x.v])
    requires forall l :: l in ca[t.reason[x.v]] ==> l.v == x.v || l in ca[t.reason[x.v]][1..]
    requires Marked(seen1, found, seen) && Stacked(t, ca, found) && AllPassed(t, levels, ca[t.reason[x.v]], found)
    requires ok ==> SeenAbove(t, seen, ca[t.reason[x.v]][1..])
    requires !ok ==> exists l :: l in ca[t.reason[x.v]][1..] && Blocking(t, seen, levels, l)
    ensures SameClauses(ca0, ca) && Marked(seen0, more + found, seen)
    ensures if ok
      then Searching(t, ca0, ca, seen0, seen, levels, p, rest + found, more + found)
      else Escapes(t, ca0, seen0, levels, p.v)
    ensures found == [] ==> seen == seen1
    ensures found != [] ==> UnseenVars(seen) < UnseenVars(seen1)
  {
    SameTrans(ca0, ca1, ca);
    MarkedMore(seen0, more, seen1, found, seen);
    OthersInReason(t, ca, x);
    if ok {
      NowJustified(t, ca, seen1, seen, x, ca[t.reason[x.v]][1..]);
      ChasedOn(t, ca1, ca, seen0, seen1, seen, p, rest, x, found);
      FollowedOn(t, ca0, ca, seen0, seen1, seen, levels, p, rest, x, more, found);
      StackedOn(t, ca1, ca, rest, x, found);
    } else {
      assert x in rest + [x];
      Blocked(t, ca0, ca, seen0, more + found, seen, levels, p, x);
    }
  }

  lemma TopStacked(t: Trail, ca: seq<Clause>, rest: seq<Lit>, x: Lit, stack: seq<Lit>)
    requires TrailOk(t) && stack != [] && Stacked(t, ca, stack) && rest == stack[..|stack| - 1]
      && x == stack[|stack| - 1]
    ensures stack == rest + [x] && Val(t, x) == False && 0 <= t.reason[x.v] < |ca|
  {
    assert x in stack;
  }

  lemma StackedOn(t: Trail, ca1: seq<Clause>, ca: seq<Clause>, rest: seq<Lit>, x: Lit, found: seq<Lit>)
    requires TrailOk(t) && Stacked(t, ca1, rest + [x]) && |ca| == |ca1| && Stacked(t, ca, found)
    ensures Stacked(t, ca, rest + found)
  {
    forall l | l in rest + found ensures Val(t, l) == False && 0 <= t.reason[l.v] < |ca| {
      assert l in rest ==> l in rest + [x];
    }
  }

  // ----- what the search decides -----

  /** Along a chain everything was seen, and nothing that was met on the way stops the search. */
  lemma {:induction false} ChainSeen(t: Trail, ca0: seq<Clause>, ca: seq<Clause>, seen0: seq<bool>, seen: seq<bool>,
      p: Lit, w: seq<nat>, k: nat)
    requires |t.assigns| == |t.reason| == |t.level| && SameClauses(ca0, ca) && Chased(t, ca, seen0, seen, p, [])
    requires k < |w| && w[0] == p.v && Chain(t, ca0, seen0, w)
    ensures w[k] == p.v || (w[k] in SeenSet(seen) && w[k] !in SeenSet(seen0))
  {
    if k > 0 {
      ChainSeen(t, ca0, ca, seen0, seen, p, w, k - 1);
      assert Needs(t, ca0, w[k - 1], w[k]) && !seen0[w[k]];
      NeededSeen(t, ca0, ca, seen0, seen, p, w[k - 1], w[k]);
    }
  }

  lemma NeededSeen(t: Trail, ca0: seq<Clause>, ca: seq<Clause>, seen0: seq<bool>, seen: seq<bool>, p: Lit, x: nat,
      u: nat)
    requires |t.assigns| == |t.reason| == |t.level| && SameClauses(ca0, ca) && Chased(t, ca, seen0, seen, p, [])
    requires x == p.v || (x in SeenSet(seen) && x !in SeenSet(seen0))
    requires Needs(t, ca0, x, u)
    ensures u in SeenSet(seen)
  {
    assert VarsOf([]) == {};
    assert Justified(t, ca, SeenSet(seen), x);
    var c0, c := ca0[t.reason[x]], ca[t.reason[x]];
    assert SameLits(c0, c);
    var l :| l in c0 && l.v == u;
    assert l in c;
  }

  /** A literal that was chased to the end has no chain that escapes. */
  lemma NoEscape(t: Trail, ca0: seq<Clause>, ca: seq<Clause>, seen0: seq<bool>, seen: seq<bool>, levels: nat -> bool,
      p: Lit)
    requires |t.assigns| == |t.reason| == |t.level| && SameClauses(ca0, ca) && Chased(t, ca, seen0, seen, p, [])
    requires forall v :: v in SeenSet(seen) && v !in SeenSet(seen0) ==> !Stops(t, levels, v)
    ensures !Escapes(t, ca0, seen0, levels, p.v)
  {
    forall x, u | Leads(t, ca0, seen0, p.v, x) ensures !EndsAt(t, ca0, seen0, levels, x, u) {
      var w: seq<nat> :| w != [] && w[0] == p.v && w[|w| - 1] == x && Chain(t, ca0, seen0, w);
      ChainSeen(t, ca0, ca, seen0, seen, p, w, |w| - 1);
      if EndsAt(t, ca0, seen0, levels, x, u) {
        NeededSeen(t, ca0, ca, seen0, seen, p, x, u);
      }
    }
  }

  // ----- which literals a whole minimisation leaves out -----

  /** The levels of the literals behind the first one, as far as the filter tells levels apart. */
  ghost function LevelsOf(t: Trail, c: Clause): nat -> bool {
    (level: nat) => AlikeOne(t.level, c, |c|, level)
  }

  ghost predicate AlikeOne(level: seq<nat>, c: Clause, i: nat, n: nat) {
    exists k :: 1 <= k < i && k < |c| && c[k].v < |level| && Alike(level[c[k].v], n)
  }

  /** A variable can be left out: it has a reason, and in the deep mode no chain of reasons escapes, in
      the simple one everything that it needs is seen. */
  ghost predicate LeftOut(t: Trail, ca: seq<Clause>, seen: seq<bool>, levels: nat -> bool, mode: nat, v: nat) {
    && v < |t.reason| && t.reason[v] != CREF_UNDEF
    && if mode == 2 then !Escapes(t, ca, seen, levels, v)
       else mode == 1 && forall u: nat :: Needs(t, ca, v, u) ==> u < |seen| && seen[u]
  }

  /** What was seen since is justified, and nothing of it stops the search. */
  ghost predicate Later(t: Trail, ca: seq<Clause>, seen0: seq<bool>, seen: seq<bool>, levels: nat -> bool, mode: nat)
    requires |t.assigns| == |t.reason| == |t.level|
  {
    && |seen| == |seen0| && (forall v :: 0 <= v < |seen| && seen0[v] ==> seen[v]) && (mode != 2 ==> seen == seen0)
    && Passing(t, seen0, seen, levels)
    && forall v :: v in SeenSet(seen) && v !in SeenSet(seen0) ==> Justified(t, ca, SeenSet(seen), v)
  }

  lemma NeedsSame(t: Trail, ca0: seq<Clause>, ca: seq<Clause>, v: nat, u: nat)
    requires SameClauses(ca0, ca) && Needs(t, ca0, v, u)
    ensures Needs(t, ca, v, u)
  {
    assert SameLits(ca0[t.reason[v]], ca[t.reason[v]]);
    var l :| l in ca0[t.reason[v]] && l.v == u;
    assert l in ca[t.reason[v]];
  }

  lemma SameBack(ca0: seq<Clause>, ca: seq<Clause>)
    requires SameClauses(ca0, ca)
    ensures SameClauses(ca, ca0)
  {
    forall cr | 0 <= cr < |ca| ensures SameLits(ca[cr], ca0[cr]) {
      assert SameLits(ca0[cr], ca[cr]);
    }
  }

  lemma ChainSame(t: Trail, ca0: seq<Clause>, ca: seq<Clause>, seen: seq<bool>, w: seq<nat>)
    requires SameClauses(ca0, ca) && Chain(t, ca0, seen, w)
    ensures Chain(t, ca, seen, w)
  {
    forall k | 0 < k < |w| ensures Needs(t, ca, w[k - 1], w[k]) {
      NeedsSame(t, ca0, ca, w[k - 1], w[k]);
    }
  }

  /** With more seen there are fewer chains. */
  lemma EscapesLess(t: Trail, ca0: seq<Clause>, ca: seq<Clause>, seen0: seq<bool>, seen: seq<bool>,
      levels: nat -> bool, mode: nat, v: nat)
    requires |t.assigns| == |t.reason| == |t.level| && SameClauses(ca0, ca)
    requires Later(t, ca, seen0, seen, levels, mode) && Escapes(t, ca, seen, levels, v)
    ensures Escapes(t, ca0, seen0, levels, v)
  {
    SameBack(ca0, ca);
    var x, u :| Leads(t, ca, seen, v, x) && EndsAt(t, ca, seen, levels, x, u);
    var w: seq<nat> :| w != [] && w[0] == v && w[|w| - 1] == x && Chain(t, ca, seen, w);
    ChainSame(t, ca, ca0, seen, w);
    assert Chain(t, ca0, seen0, w);
    NeedsSame(t, ca, ca0, x, u);
    assert Leads(t, ca0, seen0, v, x) && EndsAt(t, ca0, seen0, levels, x, u);
  }

  /** A chain that enters what was seen since never leaves it again. */
  lemma {:induction false} ChainStaysSeen(t: Trail, ca: seq<Clause>, seen0: seq<bool>, seen: seq<bool>,
      levels: nat -> bool, mode: nat, w: seq<nat>, i: nat, k: nat)
    requires |t.assigns| == |t.reason| == |t.level| && Later(t, ca, seen0, seen, levels, mode)
    requires Chain(t, ca, seen0, w) && 0 < i <= k < |w| && w[i] in SeenSet(seen)
    ensures w[k] in SeenSet(seen) && w[k] !in SeenSet(seen0)
    decreases k
  {
    assert !seen0[w[k]];
    if i < k {
      ChainStaysSeen(t, ca, seen0, seen, levels, mode, w, i, k - 1);
      assert Needs(t, ca, w[k - 1], w[k]);
      assert Justified(t, ca, SeenSet(seen), w[k - 1]);
    }
  }

  lemma ChainEndsSeen(t: Trail, ca: seq<Clause>, seen0: seq<bool>, seen: seq<bool>, levels: nat -> bool, mode: nat,
      w: seq<nat>, i: nat, u: nat)
    requires |t.assigns| == |t.reason| == |t.level| && Later(t, ca, seen0, seen, levels, mode)
    requires Chain(t, ca, seen0, w) && 0 < i < |w| && w[i] in SeenSet(seen) && Needs(t, ca, w[|w| - 1], u)
    ensures u in SeenSet(seen)
  {
    ChainStaysSeen(t, ca, seen0, seen, levels, mode, w, i, |w| - 1);
    assert Justified(t, ca, SeenSet(seen), w[|w| - 1]);
  }

  /** But none of those that escape is lost. */
  lemma EscapesStill(t: Trail, ca0: seq<Clause>, ca: seq<Clause>, seen0: seq<bool>, seen: seq<bool>,
      levels: nat -> bool, mode: nat, v: nat)
    requires |t.assigns| == |t.reason| == |t.level| && SameClauses(ca0, ca)
    requires Later(t, ca, seen0, seen, levels, mode) && Escapes(t, ca0, seen0, levels, v)
    ensures Escapes(t, ca, seen, levels, v)
  {
    var x, u :| Leads(t, ca0, seen0, v, x) && EndsAt(t, ca0, seen0, levels, x, u);
    var w: seq<nat> :| w != [] && w[0] == v && w[|w| - 1] == x && Chain(t, ca0, seen0, w);
    ChainSame(t, ca0, ca, seen0, w);
    NeedsSame(t, ca0, ca, x, u);
    EndUnseen(t, ca, seen0, seen, levels, u);
    forall k | 0 < k < |w| ensures !seen[w[k]] {
      if seen[w[k]] {
        ChainEndsSeen(t, ca, seen0, seen, levels, mode, w, k, u);
      }
    }
    assert Chain(t, ca, seen, w);
    assert Leads(t, ca, seen, v, x) && EndsAt(t, ca, seen, levels, x, u);
  }

  lemma EndUnseen(t: Trail, ca: seq<Clause>, seen0: seq<bool>, seen: seq<bool>, levels: nat -> bool, u: nat)
    requires Passing(t, seen0, seen, levels) && |seen| == |seen0| && u < |seen| && !seen0[u] && Stops(t, levels, u)
    ensures !seen[u]
  {
    assert seen[u] ==> u in SeenSet(seen) && u !in SeenSet(seen0);
  }

  lemma EscapesSame(t: Trail, ca0: seq<Clause>, ca: seq<Clause>, seen0: seq<bool>, seen: seq<bool>,
      levels: nat -> bool, mode: nat, v: nat)
    requires |t.assigns| == |t.reason| == |t.level| && SameClauses(ca0, ca)
    requires Later(t, ca, seen0, seen, levels, mode)
    ensures Escapes(t, ca0, seen0, levels, v) <==> Escapes(t, ca, seen, levels, v)
  {
    hide Later, Escapes;
    if Escapes(t, ca0, seen0, levels, v) {
      EscapesStill(t, ca0, ca, seen0, seen, levels, mode, v);
    }
    if Escapes(t, ca, seen, levels, v) {
      EscapesLess(t, ca0, ca, seen0, seen, levels, mode, v);
    }
  }

  /** The filter is all that matters about the levels. */
  lemma EscapesFilter(t: Trail, ca: seq<Clause>, seen: seq<bool>, levels: nat -> bool, levels': nat -> bool, v: nat)
    requires forall n: nat :: levels(n) <==> levels'(n)
    ensures Escapes(t, ca, seen, levels, v) <==> Escapes(t, ca, seen, levels', v)
  {
    assert forall x, u :: EndsAt(t, ca, seen, levels, x, u) <==> EndsAt(t, ca, seen, levels', x, u);
  }

  lemma LeftOutFilter(t: Trail, ca: seq<Clause>, seen: seq<bool>, levels: nat -> bool, levels': nat -> bool, mode: nat,
      v: nat)
    requires forall n: nat :: levels(n) <==> levels'(n)
    ensures LeftOut(t, ca, seen, levels, mode, v) <==> LeftOut(t, ca, seen, levels', mode, v)
  {
    EscapesFilter(t, ca, seen, levels, levels', v);
  }

  lemma JustifiedMore(t: Trail, ca: seq<Clause>, ca': seq<Clause>, S: set<nat>, S': set<nat>, v: nat)
    requires |t.assigns| == |t.reason| == |t.level| && SameClauses(ca, ca') && S <= S' && Justified(t, ca, S, v)
    ensures Justified(t, ca', S', v)
  {
    forall u | u in VarsOf(ca'[t.reason[v]]) && u != v && AboveZero(t, u) ensures u in S' {
      SameBack(ca, ca');
      NeedsSame(t, ca', ca, v, u);
    }
  }

  lemma SeenGrows(seen: seq<bool>, seen': seq<bool>)
    requires |seen| == |seen'| && forall v :: 0 <= v < |seen| && seen[v] ==> seen'[v]
    ensures SeenSet(seen) <= SeenSet(seen')
  {
  }

  lemma LaterStart(t: Trail, ca: seq<Clause>, seen: seq<bool>, levels: nat -> bool, mode: nat)
    requires |t.assigns| == |t.reason| == |t.level|
    ensures Later(t, ca, seen, seen, levels, mode)
  {
  }

  lemma LaterSimply(t: Trail, ca: seq<Clause>, seen0: seq<bool>, seen: seq<bool>, levels: nat -> bool, mode: nat)
    requires |t.assigns| == |t.reason| == |t.level| && Later(t, ca, seen0, seen, levels, mode) && mode != 2
    ensures seen == seen0
  {
  }

  lemma LaterSame(t: Trail, ca1: seq<Clause>, ca: seq<Clause>, seen0: seq<bool>, seen: seq<bool>, levels: nat -> bool,
      mode: nat)
    requires |t.assigns| == |t.reason| == |t.level| && Later(t, ca1, seen0, seen, levels, mode) && SameClauses(ca1, ca)
    ensures Later(t, ca, seen0, seen, levels, mode)
  {
    forall v | v in SeenSet(seen) && v !in SeenSet(seen0) ensures Justified(t, ca, SeenSet(seen), v) {
      JustifiedMore(t, ca1, ca, SeenSet(seen), SeenSet(seen), v);
    }
  }

  /** After one more literal has been found redundant. */
  lemma LaterNext(t: Trail, ca1: seq<Clause>, ca: seq<Clause>, seen0: seq<bool>, seen1: seq<bool>, seen: seq<bool>,
      levels: nat -> bool, p: Lit, more: seq<Lit>)
    requires |t.assigns| == |t.reason| == |t.level| && Later(t, ca1, seen0, seen1, levels, 2) && SameClauses(ca1, ca)
    requires Marked(seen1, more, seen) && Passing(t, seen1, seen, levels) && Chased(t, ca, seen1, seen, p, [])
    ensures Later(t, ca, seen0, seen, levels, 2)
  {
    SeenGrows(seen1, seen);
    assert VarsOf([]) == {};
    forall v | v in SeenSet(seen) && v !in SeenSet(seen0) ensures Justified(t, ca, SeenSet(seen), v)
      && !Stops(t, levels, v) {
      if v in SeenSet(seen1) {
        JustifiedMore(t, ca1, ca, SeenSet(seen1), SeenSet(seen), v);
      }
    }
  }

  /** In the simple mode a literal can be left out if its variable is justified. */
  lemma LeftOutSimply(t: Trail, ca0: seq<Clause>, ca: seq<Clause>, seen: seq<bool>, levels: nat -> bool, v: nat)
    requires |t.assigns| == |t.reason| == |t.level| == |seen| && SameClauses(ca0, ca) && v < |t.assigns|
    requires t.assigns[v] != Undef && 0 <= t.reason[v] < |ca|
    ensures Justified(t, ca, SeenSet(seen), v) <==> LeftOut(t, ca0, seen, levels, 1, v)
  {
    SameBack(ca0, ca);
    forall u: nat | Needs(t, ca0, v, u) || Needs(t, ca, v, u) ensures Needs(t, ca0, v, u) && Needs(t, ca, v, u) {
      if Needs(t, ca0, v, u) {
        NeedsSame(t, ca0, ca, v, u);
      } else {
        NeedsSame(t, ca, ca0, v, u);
      }
    }
    assert forall u :: u in VarsOf(ca[t.reason[v]]) && u != v && AboveZero(t, u) <==> Needs(t, ca, v, u);
  }

  /** The literals looked at so far are kept exactly if they cannot be left out. */
  ghost predicate Chosen(t: Trail, ca: seq<Clause>, seen: seq<bool>, levels: nat -> bool, mode: nat, c: Clause,
      keep: seq<bool>)
  {
    |keep| <= |c| && forall i :: 1 <= i < |keep| ==> (keep[i] <==> !LeftOut(t, ca, seen, levels, mode, c[i].v))
  }

  lemma ChosenNext(t: Trail, ca: seq<Clause>, seen: seq<bool>, levels: nat -> bool, mode: nat, c: Clause,
      keep: seq<bool>, k: bool)
    requires Chosen(t, ca, seen, levels, mode, c, keep) && 1 <= |keep| < |c|
    requires k <==> !LeftOut(t, ca, seen, levels, mode, c[|keep|].v)
    ensures Chosen(t, ca, seen, levels, mode, c, keep + [k])
  {
    hide LeftOut;
  }

  /** So what is left of the clause is its first literal and those that cannot be left out. */
  lemma ChosenLeft(t: Trail, ca: seq<Clause>, seen: seq<bool>, levels: nat -> bool, levels': nat -> bool, mode: nat,
      c: Clause, keep: seq<bool>, out: Clause)
    requires Chosen(t, ca, seen, levels, mode, c, keep) && |keep| == |c| > 0 && keep[0] && DistinctVars(c)
    requires out == Pick(c, keep, |c|) && forall n: nat :: levels(n) <==> levels'(n)
    ensures forall l :: l in out <==> l in c && (l == c[0] || !LeftOut(t, ca, seen, levels', mode, l.v))
  {
    hide LeftOut;
    forall l ensures l in out <==> l in c && (l == c[0] || !LeftOut(t, ca, seen, levels', mode, l.v)) {
      PickHas(c, keep, |c|, l);
      LeftOutFilter(t, ca, seen, levels, levels', mode, l.v);
    }
  }

  /** Of the literals of a clause those are left that cannot be left out beside all others. */
  ghost predicate Minimised(t: Trail, ca: seq<Clause>, mode: nat, c: Clause, out: Clause) {
    c != [] && forall l :: l in out <==>
      l in c && (l == c[0] || !LeftOut(t, ca, SeenIn(|t.assigns|, c), LevelsOf(t, c), mode, l.v))
  }

  /** The marks of the variables behind the first literal. */
  ghost function SeenIn(n: nat, c: Clause): (seen: seq<bool>)
    requires c != []
    ensures |seen| == n
  {
    seq(n, v requires 0 <= v < n => v in VarsOf(c[1..]))
  }

  lemma LeftOutSame(t: Trail, ca0: seq<Clause>, ca: seq<Clause>, seen: seq<bool>, levels: nat -> bool, mode: nat,
      v: nat)
    requires |t.assigns| == |t.reason| == |t.level| && SameClauses(ca0, ca)
    ensures LeftOut(t, ca0, seen, levels, mode, v) <==> LeftOut(t, ca, seen, levels, mode, v)
  {
    LaterStart(t, ca, seen, levels, mode);
    EscapesSame(t, ca0, ca, seen, seen, levels, mode, v);
    SameBack(ca0, ca);
    forall u: nat | Needs(t, ca0, v, u) || Needs(t, ca, v, u) ensures Needs(t, ca0, v, u) && Needs(t, ca, v, u) {
      if Needs(t, ca0, v, u) {
        NeedsSame(t, ca0, ca, v, u);
      } else {
        NeedsSame(t, ca, ca0, v, u);
      }
    }
  }

  lemma MinimisedFrom(t: Trail, ca0: seq<Clause>, ca: seq<Clause>, seen: seq<bool>, mode: nat, c: Clause, out: Clause)
    requires |t.assigns| == |t.reason| == |t.level| == |seen| && SameClauses(ca0, ca) && c != []
    requires SeenSet(seen) == VarsOf(c[1..])
    requires forall l :: l in out <==> l in c && (l == c[0] || !LeftOut(t, ca, seen, LevelsOf(t, c), mode, l.v))
    ensures Minimised(t, ca0, mode, c, out)
  {
    hide LeftOut, LevelsOf;
    SeenIs(seen, c);
    forall l ensures l in out <==>
      l in c && (l == c[0] || !LeftOut(t, ca0, SeenIn(|t.assigns|, c), LevelsOf(t, c), mode, l.v)) {
      LeftOutSame(t, ca0, ca, seen, LevelsOf(t, c), mode, l.v);
    }
  }

  lemma SeenIs(seen: seq<bool>, c: Clause)
    requires c != [] && SeenSet(seen) == VarsOf(c[1..])
    ensures seen == SeenIn(|seen|, c)
  {
    forall v | 0 <= v < |seen| ensures seen[v] == SeenIn(|seen|, c)[v] {
      assert seen[v] <==> v in SeenSet(seen);
    }
  }

  /** Those are left for which there is no binary clause that has their negation beside the first one. */
  ghost predicate BinaryMinimised(t: Trail, ca: seq<Clause>, c: Clause, out: Clause) {
    c != [] && forall l :: l in out <==> l in c && (l == c[0] || !ImpliedBy(t, ca, Neg(c[0]), l.v))
  }

  lemma ImpliedSame(t: Trail, ca0: seq<Clause>, ca: seq<Clause>, p: Lit, v: nat)
    requires SameClauses(ca0, ca) && ImpliedBy(t, ca0, p, v)
    ensures ImpliedBy(t, ca, p, v)
  {
    var cr, l :| 0 <= cr < |ca0| && SameLits([Neg(p), l], ca0[cr]) && l.v == v && Val(t, l) == True;
    assert SameLits(ca0[cr], ca[cr]) && SameLits([Neg(p), l], ca[cr]);
  }

  lemma BinaryFrom(t: Trail, ca0: seq<Clause>, ca: seq<Clause>, c: Clause, out: Clause)
    requires SameClauses(ca0, ca) && BinaryMinimised(t, ca, c, out)
    ensures BinaryMinimised(t, ca0, c, out)
  {
    hide ImpliedBy;
    SameBack(ca0, ca);
    forall l ensures l in out <==> l in c && (l == c[0] || !ImpliedBy(t, ca0, Neg(c[0]), l.v)) {
      if ImpliedBy(t, ca0, Neg(c[0]), l.v) {
        ImpliedSame(t, ca0, ca, Neg(c[0]), l.v);
      } else if ImpliedBy(t, ca, Neg(c[0]), l.v) {
        ImpliedSame(t, ca, ca0, Neg(c[0]), l.v);
      }
    }
  }

  lemma BinaryOrder(t: Trail, ca: seq<Clause>, c: Clause, out: Clause, out': Clause)
    requires forall l :: l in out <==> l in out'
    ensures BinaryMinimised(t, ca, c, out) ==> BinaryMinimised(t, ca, c, out')
  {
    hide ImpliedBy;
  }

  // ----- the filter -----

  lemma BitsMeet(j: bv5, k: bv5)
    ensures ((1 as bv32) << j) & ((1 as bv32) << k) != 0 <==> j == k
  {
  }

  lemma BitsSplit(bit: bv32, a: bv32, b: bv32)
    ensures bit & (a | b) != 0 <==> bit & a != 0 || bit & b != 0
  {
    assert bit & (a | b) == (bit & a) | (bit & b);
  }

  lemma SameNumber(a: nat, b: nat)
    requires a < 32 && b < 32
    ensures a as bv5 == b as bv5 <==> a == b
  {
    assert (a as bv5) as nat == a && (b as bv5) as nat == b;
  }

  lemma SameBit(m: nat, n: nat)
    ensures LevelBit(n) & LevelBit(m) != 0 <==> m % 32 == n % 32
  {
    var j, k := (n % 32) as bv5, (m % 32) as bv5;
    BitsMeet(j, k);
    SameNumber(n % 32, m % 32);
  }

  predicate PassesFilter(abstract_levels: bv32, n: nat) {
    LevelBit(n) & abstract_levels != 0
  }

  lemma PassesIf(abstract_levels: bv32, n: nat)
    ensures PassingLevels(abstract_levels)(n) <==> PassesFilter(abstract_levels, n)
  {
    hide LevelBit;
  }

  /** The same to the filter. */
  ghost predicate Alike(m: nat, n: nat) {
    m % 32 == n % 32
  }

  lemma SameLevel32(m: nat, n: nat)
    ensures LevelBit(n) & LevelBit(m) != 0 <==> Alike(m, n)
  {
    SameBit(m, n);
  }

  lemma PassesOr(a: bv32, b: bv32, n: nat)
    ensures PassesFilter(a | b, n) <==> PassesFilter(a, n) || LevelBit(n) & b != 0
  {
    hide LevelBit;
    BitsSplit(LevelBit(n), a, b);
  }

  /** One more level passes, and with it those that are the same to the filter. */
  lemma FilterNext(abstract_levels: bv32, level: nat, bit: bv32, n: nat)
    requires bit == LevelBit(level)
    ensures PassesFilter(abstract_levels | bit, n) <==> PassesFilter(abstract_levels, n) || Alike(level, n)
  {
    hide LevelBit, PassesFilter, Alike;
    SameLevel32(level, n);
    PassesOr(abstract_levels, bit, n);
  }

  lemma NothingPasses(n: nat)
    ensures !PassesFilter(0, n)
  {
    hide LevelBit;
  }

  /** The filter lets exactly the levels of the literals before the i-th pass. */
  ghost predicate FilterOf(level: seq<nat>, c: Clause, i: nat, abstract_levels: bv32) {
    forall n: nat :: PassesFilter(abstract_levels, n) <==> AlikeOne(level, c, i, n)
  }

  lemma FilterStart(level: seq<nat>, c: Clause)
    ensures FilterOf(level, c, 1, 0)
  {
    hide PassesFilter;
    forall n: nat ensures PassesFilter(0, n) <==> AlikeOne(level, c, 1, n) {
      NothingPasses(n);
    }
  }

  lemma FilterMore(level: seq<nat>, c: Clause, i: nat, abstract_levels: bv32, bit: bv32)
    requires FilterOf(level, c, i, abstract_levels) && 1 <= i < |c| && c[i].v < |level|
      && bit == LevelBit(level[c[i].v])
    ensures FilterOf(level, c, i + 1, abstract_levels | bit)
  {
    hide PassesFilter, Alike, LevelBit;
    var both := abstract_levels | bit;
    forall n: nat ensures PassesFilter(both, n) <==> AlikeOne(level, c, i + 1, n) {
      FilterNext(abstract_levels, level[c[i].v], bit, n);
      AlikeMore(level, c, i, n);
    }
  }

  lemma AlikeMore(level: seq<nat>, c: Clause, i: nat, n: nat)
    requires 1 <= i < |c| && c[i].v < |level|
    ensures AlikeOne(level, c, i + 1, n) <==> AlikeOne(level, c, i, n) || Alike(level[c[i].v], n)
  {
    hide Alike;
  }

  lemma FilterLevels(t: Trail, c: Clause, abstract_levels: bv32)
    requires FilterOf(t.level, c, |c|, abstract_levels)
    ensures forall n: nat :: PassingLevels(abstract_levels)(n) <==> LevelsOf(t, c)(n)
  {
    hide PassesFilter, PassingLevels;
    forall n: nat ensures PassingLevels(abstract_levels)(n) <==> LevelsOf(t, c)(n) {
      PassesIf(abstract_levels, n);
    }
  }
}
