/** What adding a clause at level 0 comes to, literal by literal. */
module SimpAdding {
  import opened SolverTypes
  import opened SolverStates
  import opened SolverNogoods
  import opened SolverAnalysis
  import opened Subsumption
  import opened SubsumptionRuns
  import opened SimpStates

  // ----- sorting -----

  /** The variables are in order, and the two literals of one variable too. */
  ghost predicate SortedLits(c: Clause) {
    forall i, j :: 0 <= i < j < |c| ==> ToInt(c[i]) <= ToInt(c[j])
  }

  /** The first n positions hold the smallest literals in order. */
  ghost predicate SortedUpTo(c: Clause, n: nat) {
    forall i, j :: 0 <= i < n && i < j < |c| ==> ToInt(c[i]) <= ToInt(c[j])
  }

  /** Selection sort. */
  method SortLits(c: Clause) returns (r: Clause)
    ensures SortedLits(r) && multiset(r) == multiset(c)
  {
    r := c;
    var i := 0;
    while i < |r| - 1
      invariant 0 <= i && (i < |r| || r == []) && SortedUpTo(r, i) && multiset(r) == multiset(c)
    {
      var best := Smallest(r, i);
      Swapped(r, i, best);
      r := r[i := r[best]][best := r[i]];
      i := i + 1;
    }
  }

  /** The position of a smallest literal from the i-th on. */
  method Smallest(c: Clause, i: nat) returns (best: nat)
    requires i < |c|
    ensures i <= best < |c| && forall k :: i <= k < |c| ==> ToInt(c[best]) <= ToInt(c[k])
  {
    best := i;
    var j := i + 1;
    while j < |c|
      invariant i < j <= |c| && i <= best < |c| && forall k :: i <= k < j ==> ToInt(c[best]) <= ToInt(c[k])
    {
      if ToInt(c[j]) < ToInt(c[best]) { best := j; }
      j := j + 1;
    }
  }

  lemma Swapped(c: Clause, i: nat, best: nat)
    requires SortedUpTo(c, i) && i <= best < |c| && forall k :: i <= k < |c| ==> ToInt(c[best]) <= ToInt(c[k])
    ensures var r := c[i := c[best]][best := c[i]]; SortedUpTo(r, i + 1) && multiset(r) == multiset(c)
  {
    var r := c[i := c[best]][best := c[i]];
    forall x, y | 0 <= x < i + 1 && x < y < |r| ensures ToInt(r[x]) <= ToInt(r[y]) {
      assert r[y] == c[y] || r[y] == c[i] || r[y] == c[best];
    }
  }

  lemma SameElements(c: Clause, r: Clause)
    requires multiset(c) == multiset(r)
    ensures forall l :: l in c <==> l in r
  {
    forall l ensures l in c <==> l in r {
      assert l in multiset(c) <==> l in multiset(r);
    }
  }

  // ----- what is left of a clause -----

  /** The clause is true at level 0, or a tautology. */
  ghost predicate Redundant(trail: seq<Lit>, c: Clause) {
    exists l :: l in c && (l in trail || Neg(l) in c)
  }

  ghost predicate Open(trail: seq<Lit>, l: Lit) {
    l !in trail && Neg(l) !in trail
  }

  /** The literals of c that are open at level 0, each of them once. */
  ghost predicate Rest(trail: seq<Lit>, c: Clause, c': Clause) {
    && Simplified(trail, c, c') && DistinctVars(c') && forall l :: l in c' ==> Open(trail, l)
  }

  /** What the first i literals of a sorted clause have come to. */
  ghost predicate RestSoFar(trail: seq<Lit>, c: Clause, i: nat, out: Clause) {
    && i <= |c| && Rest(trail, c[..i], out)
    && forall k, j :: 0 <= k < |out| && i <= j < |c| ==> ToInt(out[k]) <= ToInt(c[j])
  }

  lemma NothingRead(trail: seq<Lit>, ps: Clause)
    ensures RestSoFar(trail, ps, 0, []) && !Redundant(trail, ps[..0])
  {
  }

  lemma AllRead(trail: seq<Lit>, c: Clause, ps: Clause, out: Clause)
    requires RestSoFar(trail, ps, |ps|, out) && !Redundant(trail, ps[..|ps|]) && forall l :: l in c <==> l in ps
    ensures !Redundant(trail, c) && Rest(trail, c, out)
  {
    assert ps[..|ps|] == ps;
  }

  /** A literal that is true, or the negation of the last one taken. */
  lemma RedundantFound(trail: seq<Lit>, c: Clause, ps: Clause, i: nat, out: Clause)
    requires RestSoFar(trail, ps, i, out) && i < |ps| && forall l :: l in c <==> l in ps
    requires ps[i] in trail || (out != [] && ps[i] == Neg(out[|out| - 1]))
    ensures Redundant(trail, c)
  {
    assert ps[i] in c && (out != [] ==> out[|out| - 1] in ps[..i]);
    assert forall l :: l in ps[..i] ==> l in c;
    if ps[i] !in trail {
      assert Neg(ps[i]) == out[|out| - 1];
    }
  }

  lemma StillOpen(trail: seq<Lit>, c: Clause, i: nat, out: Clause)
    requires RestSoFar(trail, c, i, out) && i < |c| && SortedLits(c) && !Redundant(trail, c[..i])
    requires c[i] !in trail && (out != [] ==> c[i] != Neg(out[|out| - 1]))
    requires forall k, j :: 0 <= k < j < |out| ==> out[k].v < out[j].v
    ensures !Redundant(trail, c[..i + 1])
  {
    assert c[..i + 1] == c[..i] + [c[i]];
    var x := Neg(c[i]);
    assert Neg(x) == c[i];
    if x in c[..i] {
      OtherLast(out, x, c[i]);
    }
  }

  lemma OtherLast(out: Clause, x: Lit, l: Lit)
    requires x in out && l == Neg(x) && l != Neg(out[|out| - 1])
    requires forall k, j :: 0 <= k < j < |out| ==> out[k].v < out[j].v
    ensures ToInt(l) < ToInt(out[|out| - 1])
  {
    var k :| 0 <= k < |out| && out[k] == x;
    assert Neg(Neg(out[|out| - 1])) == out[|out| - 1] && k < |out| - 1;
  }

  lemma RestSkips(trail: seq<Lit>, c: Clause, i: nat, out: Clause)
    requires RestSoFar(trail, c, i, out) && i < |c| && (Neg(c[i]) in trail || c[i] in out)
    ensures RestSoFar(trail, c, i + 1, out)
  {
    assert c[..i + 1] == c[..i] + [c[i]];
  }

  lemma RestTakes(trail: seq<Lit>, c: Clause, i: nat, out: Clause)
    requires RestSoFar(trail, c, i, out) && i < |c| && SortedLits(c) && Open(trail, c[i])
    requires out != [] ==> c[i] != out[|out| - 1] && c[i] != Neg(out[|out| - 1])
    requires forall k, j :: 0 <= k < j < |out| ==> out[k].v < out[j].v
    ensures RestSoFar(trail, c, i + 1, out + [c[i]]) && forall k :: 0 <= k < |out| ==> out[k].v < c[i].v
  {
    var out' := out + [c[i]];
    assert c[..i + 1] == c[..i] + [c[i]];
    forall l | l in out' ensures Open(trail, l) {
    }
    if out != [] {
      var p := out[|out| - 1];
      assert ToInt(p) <= ToInt(c[i]);
      SameVar(p, c[i]);
    }
  }

  lemma SameVar(p: Lit, l: Lit)
    requires ToInt(p) <= ToInt(l) && l != p && l != Neg(p)
    ensures p.v < l.v
  {
  }

  /** A unit goes to the trail, and propagation follows unless there is nothing to propagate. */
  ghost predicate UnitAdded(D0: Db, D: Db, p: Lit, next: Db -> nat) {
    && D.ca == D0.ca && D.del == D0.del && D0.trail + [p] <= D.trail && !Propagates(D, next(D))
    && (!Propagates(Enqueued(D0, p), next(Enqueued(D0, p))) ==> D == Enqueued(D0, p))
  }

  /** Exactly what adding a clause does: nothing for a redundant clause; otherwise what is left of it
      is appended, or becomes a literal of level 0 if it is a unit. */
  ghost predicate Took(D0: Db, D: Db, c: Clause, next: Db -> nat) {
    if Redundant(D0.trail, c) then D == D0
    else exists c' :: Rest(D0.trail, c, c') && RestAdded(D0, D, c', next)
  }

  ghost predicate RestAdded(D0: Db, D: Db, c: Clause, next: Db -> nat) {
    c != [] && if |c| == 1 then UnitAdded(D0, D, c[0], next) else D == Appended(D0, c)
  }

  /** The new clause, if any, is queued. */
  function Requeued(D0: Db, D: Db, queue: seq<nat>): seq<nat> {
    if |D.ca| > |D0.ca| then queue + [|D0.ca|] else queue
  }

  /** What is new speaks of the literals of the clause only. */
  ghost predicate FromClause(D0: Db, D: Db, c: Clause) {
    forall i: nat, l :: |D0.ca| <= i < |D.ca| && l in D.ca[i] ==> l in c
  }

  lemma TookFrom(D0: Db, D: Db, c: Clause, next: Db -> nat)
    requires Took(D0, D, c, next)
    ensures FromClause(D0, D, c) && D0.trail <= D.trail
  {
  }

  /** What was settled stays so, as the new clause is queued and open. */
  lemma TookSettles(lim: int, D0: Db, D: Db, c: Clause, next: Db -> nat, queue: seq<nat>, at: nat)
    requires Took(D0, D, c, next) && Settling(lim, D0, queue, at) && at <= |D0.trail| && |D0.ca| == |D0.del|
    ensures Settling(lim, D, Requeued(D0, D, queue), at)
  {
    var queue' := Requeued(D0, D, queue);
    SettlingMeans(lim, D0, queue, at);
    SettlingMeans(lim, D, queue', at);
    forall i: nat | Live(D, i) ensures i == |D0.ca|
      || (Live(D0, i) && D.ca[i] == D0.ca[i] && (i !in queue' ==> i !in queue)) {
    }
    forall t | 0 <= t < at ensures LitSettled(lim, D, D.trail[t]) {
      assert D.trail[t] == D0.trail[t] && LitSettled(lim, D0, D0.trail[t]);
      forall i: nat | Live(D, i) && Short(lim, D.ca[i]) ensures Harmless([D.trail[t]], D.ca[i]) {
        if i == |D0.ca| {
          OpenHarmless(D0.trail, D.trail[t], D.ca[i]);
        }
      }
    }
  }

  /** The variables of the new clause are touched, and none is forgotten. */
  ghost predicate Touches(D0: Db, D: Db, touched: seq<bool>, touched': seq<bool>) {
    && |touched'| == |touched| && (forall v :: 0 <= v < |touched| && touched[v] ==> touched'[v])
    && (|D.ca| > |D0.ca| ==> forall l :: l in D.ca[|D0.ca|] ==> l.v < |touched'| && touched'[l.v])
  }

  /** Whatever is harmful for the new clause has touched variables. */
  lemma TookCovers(lim: int, D0: Db, D: Db, c: Clause, next: Db -> nat, queue: seq<nat>, touched: seq<bool>,
      touched': seq<bool>)
    requires Took(D0, D, c, next) && Covered(lim, D0, queue, touched) && Touches(D0, D, touched, touched')
      && |D0.ca| == |D0.del|
    requires forall i: nat :: Live(D0, i) ==> D0.ca[i] != []
    ensures Covered(lim, D, Requeued(D0, D, queue), touched')
  {
    var queue' := Requeued(D0, D, queue);
    forall i: nat | Live(D, i) ensures i == |D0.ca|
      || (Live(D0, i) && D.ca[i] == D0.ca[i] && (i !in queue' ==> i !in queue)) {
    }
    forall i: nat, j: nat | Live(D, i) && Live(D, j) && i != j && i !in queue' && !Touched(touched', D.ca[i])
      && Short(lim, D.ca[j])
      ensures Harmless(D.ca[i], D.ca[j])
    {
      assert i != |D0.ca|;
      if j == |D0.ca| {
        assert D.ca[i][0] in D.ca[i];
        Untouched(D.ca[i], D.ca[j], touched');
      } else {
        assert !Touched(touched, D0.ca[i]);
      }
    }
  }

  lemma Untouched(c: Clause, d: Clause, touched: seq<bool>)
    requires !Touched(touched, c) && c != [] && forall l :: l in d ==> l.v < |touched| && touched[l.v]
    ensures Harmless(c, d)
  {
    assert c[0] in c;
    forall l | l in d ensures l.v != c[0].v {
    }
    OtherClauses(c, d, c[0].v);
  }

  lemma OpenHarmless(trail: seq<Lit>, l: Lit, c: Clause)
    requires l in trail && forall x :: x in c ==> Open(trail, x)
    ensures Harmless([l], c)
  {
    assert l in [l] && Neg(Neg(l)) == l;
  }

  /** Two open variables: no literal is derived. */
  ghost predicate TwoOpen(trail: seq<Lit>, c: Clause) {
    exists x, y :: x in c && y in c && x.v != y.v && Open(trail, x) && Open(trail, y)
  }

  lemma TookLong(D0: Db, D: Db, c: Clause, next: Db -> nat)
    requires Took(D0, D, c, next) && TwoOpen(D0.trail, c)
    ensures D.trail == D0.trail
  {
    if !Redundant(D0.trail, c) {
      var c' :| Rest(D0.trail, c, c') && RestAdded(D0, D, c', next);
      var x, y :| x in c && y in c && x.v != y.v && Open(D0.trail, x) && Open(D0.trail, y);
      TwoMembers(c', x, y);
    }
  }

  lemma TwoMembers(c: Clause, x: Lit, y: Lit)
    requires x in c && y in c && x != y
    ensures |c| >= 2
  {
  }

  /** All literals but one are false: the last one is on the trail afterwards. */
  lemma TookUnit(D0: Db, D: Db, c: Clause, next: Db -> nat, a: Lit)
    requires Took(D0, D, c, next) && a in c && FalseBut(D0.trail, c, [a]) && Neg(a) !in c
    requires forall l :: l in D0.trail ==> Neg(l) !in D0.trail
    ensures a in D.trail
  {
    if Redundant(D0.trail, c) {
      var l :| l in c && (l in D0.trail || Neg(l) in c);
      UnitTrue(D0.trail, c, a, l);
    } else {
      var c' :| Rest(D0.trail, c, c') && RestAdded(D0, D, c', next);
      forall l | l in c' ensures l == a {
        assert Open(D0.trail, l);
      }
      OnlyOne(c', a);
      assert (D0.trail + [a])[|D0.trail|] == a;
    }
  }

  lemma UnitTrue(trail: seq<Lit>, c: Clause, a: Lit, l: Lit)
    requires FalseBut(trail, c, [a]) && Neg(a) !in c && l in c && (l in trail || Neg(l) in c)
    requires forall x :: x in trail ==> Neg(x) !in trail
    ensures a in trail
  {
    assert Neg(Neg(l)) == l;
  }

  lemma OnlyOne(c: Clause, a: Lit)
    requires c != [] && DistinctVars(c) && forall l :: l in c ==> l == a
    ensures c == [a]
  {
    assert c[0] in c;
    if |c| > 1 {
      AnotherLit(c, a);
    }
  }

  lemma AnotherLit(c: Clause, a: Lit)
    requires DistinctVars(c) && |c| > 1
    ensures exists l :: l in c && l != a
  {
    assert c[0] in c && c[1] in c && c[0].v != c[1].v;
  }
}
