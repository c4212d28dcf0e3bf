/** The resolution check: one simultaneous walk over two parents and the claimed resolvent. */
module Resolution {
  import opened Literals
  import opened Formulas

  /** The first occurrences of the elements of s, in order. */
  function Dedup(s: seq<Lit>): (t: seq<Lit>)
    ensures forall l :: l in t <==> l in s
    decreases |s|
  {
    if s == [] then [] else
      var t := Dedup(s[..|s| - 1]);
      var l := s[|s| - 1];
      assert s == s[..|s| - 1] + [l];
      if l in t then t else t + [l]
  }

  /** The walk on the remaining literals of both parents and of the resolvent. Running out of
      resolvent counts as a mismatch. */
  function MergeCode(p: seq<Lit>, q: seq<Lit>, c: seq<Lit>, pivots: seq<Var>): int
    decreases |p| + |q|
  {
    if p != [] && q != [] then
      if VarOf(p[0]) < VarOf(q[0]) then
        if c == [] || p[0] != c[0] then 6 else MergeCode(p[1..], q, c[1..], pivots)
      else if VarOf(p[0]) > VarOf(q[0]) then
        if c == [] || q[0] != c[0] then 7 else MergeCode(p, q[1..], c[1..], pivots)
      else if p[0] != q[0] then
        MergeCode(p[1..], q[1..], c, pivots + [VarOf(p[0])])
      else if c != [] && p[0] == c[0] then
        MergeCode(p[1..], q[1..], c[1..], pivots)
      else 8
    else if p != [] then
      if c == [] || p[0] != c[0] then 9 else MergeCode(p[1..], q, c[1..], pivots)
    else if q != [] then
      if c == [] || q[0] != c[0] then 10 else MergeCode(p, q[1..], c[1..], pivots)
    else if c != [] then 11
    else if |pivots| != 1 then 12
    else 0
  }

  function ResolutionCode(parent1: seq<Lit>, parent2: seq<Lit>, c: seq<Lit>): int {
    MergeCode(Dedup(parent1), Dedup(parent2), c, [])
  }

  // ----- soundness, for arbitrary literal vectors -----

  lemma Uncons<T>(s: seq<T>)
    ensures s != [] ==> forall x :: x in s <==> x == s[0] || x in s[1..]
  {
    if s != [] {
      assert s == [s[0]] + s[1..];
    }
  }

  /** Once the pivot has been seen, everything left in the parents is in the resolvent. */
  lemma {:induction false} MergeKeeps(p: seq<Lit>, q: seq<Lit>, c: seq<Lit>, pivots: seq<Var>)
    requires |pivots| >= 1 && MergeCode(p, q, c, pivots) == 0
    ensures forall l :: l in p || l in q ==> l in c
    decreases |p| + |q|
  {
    Uncons(p);
    Uncons(q);
    Uncons(c);
    if p != [] && q != [] {
      if VarOf(p[0]) < VarOf(q[0]) {
        MergeKeeps(p[1..], q, c[1..], pivots);
      } else if VarOf(p[0]) > VarOf(q[0]) {
        MergeKeeps(p, q[1..], c[1..], pivots);
      } else if p[0] != q[0] {
        MergeCounts(p[1..], q[1..], c, pivots + [VarOf(p[0])]);
      } else {
        MergeKeeps(p[1..], q[1..], c[1..], pivots);
      }
    } else if p != [] {
      MergeKeeps(p[1..], q, c[1..], pivots);
    } else if q != [] {
      MergeKeeps(p, q[1..], c[1..], pivots);
    }
  }

  /** The number of pivots never goes down, so a second one is never accepted. */
  lemma {:induction false} MergeCounts(p: seq<Lit>, q: seq<Lit>, c: seq<Lit>, pivots: seq<Var>)
    requires |pivots| > 1
    ensures MergeCode(p, q, c, pivots) != 0
    decreases |p| + |q|
  {
    if p != [] && q != [] {
      if VarOf(p[0]) < VarOf(q[0]) {
        if c != [] { MergeCounts(p[1..], q, c[1..], pivots); }
      } else if VarOf(p[0]) > VarOf(q[0]) {
        if c != [] { MergeCounts(p, q[1..], c[1..], pivots); }
      } else if p[0] != q[0] {
        MergeCounts(p[1..], q[1..], c, pivots + [VarOf(p[0])]);
      } else if c != [] {
        MergeCounts(p[1..], q[1..], c[1..], pivots);
      }
    } else if p != [] {
      if c != [] { MergeCounts(p[1..], q, c[1..], pivots); }
    } else if q != [] {
      if c != [] { MergeCounts(p, q[1..], c[1..], pivots); }
    }
  }

  /** An accepted step drops one literal from the first parent and its negation from the second. */
  lemma {:induction false} MergePivot(p: seq<Lit>, q: seq<Lit>, c: seq<Lit>) returns (pivot: Lit)
    requires MergeCode(p, q, c, []) == 0
    ensures pivot in p && Negate(pivot) in q
    ensures forall l :: l in p ==> l == pivot || l in c
    ensures forall l :: l in q ==> l == Negate(pivot) || l in c
    decreases |p| + |q|
  {
    Uncons(p);
    Uncons(q);
    Uncons(c);
    if p != [] && q != [] {
      if VarOf(p[0]) < VarOf(q[0]) {
        pivot := MergePivot(p[1..], q, c[1..]);
      } else if VarOf(p[0]) > VarOf(q[0]) {
        pivot := MergePivot(p, q[1..], c[1..]);
      } else if p[0] != q[0] {
        pivot := p[0];
        assert q[0] == Negate(pivot);
        MergeKeeps(p[1..], q[1..], c, [] + [VarOf(p[0])]);
      } else {
        pivot := MergePivot(p[1..], q[1..], c[1..]);
      }
    } else if p != [] {
      pivot := MergePivot(p[1..], q, c[1..]);
    } else {
      pivot := MergePivot(p, q[1..], c[1..]);
    }
  }

  /** Whatever the three vectors are, an accepted resolvent follows from its parents. */
  lemma ResolutionSound(parent1: seq<Lit>, parent2: seq<Lit>, c: seq<Lit>, A: Assignment)
    requires ResolutionCode(parent1, parent2, c) == 0
    requires ClauseTrue(A, parent1) && ClauseTrue(A, parent2)
    ensures ClauseTrue(A, c)
  {
    var pivot := MergePivot(Dedup(parent1), Dedup(parent2), c);
    var l :| l in parent1 && LitTrue(A, l);
    var k :| k in parent2 && LitTrue(A, k);
    assert l in Dedup(parent1) && k in Dedup(parent2);
    assert l in c || k in c;
  }

  // ----- exactness, for sorted clauses -----

  /** The literals on which the two clauses clash, as they occur in the first. */
  ghost function Clash(p: seq<Lit>, q: seq<Lit>): set<Lit> {
    set l | l in p && Negate(l) in q
  }

  ghost function Rest(p: seq<Lit>, q: seq<Lit>): set<Lit> {
    (set l | l in p && Negate(l) !in q) + (set l | l in q && Negate(l) !in p)
  }

  /** The set-level resolution rule: one clashing literal, and everything else kept. */
  ghost predicate IsResolvent(p: seq<Lit>, q: seq<Lit>, c: seq<Lit>) {
    exists l :: Clash(p, q) == {l} && Elements(c) == (Elements(p) - {l}) + (Elements(q) - {Negate(l)})
  }

  lemma StrictTail(p: seq<Lit>)
    requires StrictVars(p) && p != []
    ensures StrictVars(p[1..]) && forall l :: l in p[1..] ==> VarOf(p[0]) < VarOf(l)
    ensures forall l :: l in p <==> l == p[0] || l in p[1..]
  {
    assert p == [p[0]] + p[1..];
  }

  /** A strictly sorted vector begins with the least element of its set. */
  lemma LeastFirst(c: seq<Lit>, x: Lit)
    requires StrictlySorted(c) && x in c
    requires forall y :: y in c ==> y == x || LitOrder(x, y)
    ensures c[0] == x
  {
    var i :| 0 <= i < |c| && c[i] == x;
    if i > 0 {
      assert LitOrder(c[0], c[i]);
      assert c[0] in c;
    }
  }

  lemma SortedTail(c: seq<Lit>)
    requires StrictlySorted(c) && c != []
    ensures StrictlySorted(c[1..]) && Elements(c[1..]) == Elements(c) - {c[0]}
  {
    assert c == [c[0]] + c[1..];
    forall l | l in c[1..] ensures l != c[0] {
      var i :| 0 <= i < |c| - 1 && c[1..][i] == l;
      assert LitOrder(c[0], c[i + 1]);
    }
  }

  /** Taking the least literal x off the parents and the front of the resolvent. */
  lemma TakeLeast(c: seq<Lit>, x: Lit, rest: set<Lit>, smaller: set<Lit>)
    requires StrictlySorted(c) && rest == {x} + smaller && x !in smaller
    requires forall y :: y in smaller ==> LitOrder(x, y)
    ensures Elements(c) == rest <==> c != [] && c[0] == x && Elements(c[1..]) == smaller
    ensures c != [] ==> StrictlySorted(c[1..])
  {
    if c != [] {
      SortedTail(c);
      assert c[0] in Elements(c);
    }
    if Elements(c) == rest {
      assert x in Elements(c);
      assert forall y :: y in c ==> y in Elements(c);
      LeastFirst(c, x);
    }
  }

  /** The least variable occurs in the first clause only. */
  lemma LeastInOne(p: seq<Lit>, q: seq<Lit>)
    requires StrictVars(p) && StrictVars(q) && p != []
    requires q == [] || VarOf(p[0]) < VarOf(q[0])
    ensures Clash(p, q) == Clash(p[1..], q) && Clash(q, p) == Clash(q, p[1..])
    ensures Rest(p, q) == {p[0]} + Rest(p[1..], q) && Rest(q, p) == Rest(p, q)
    ensures forall y :: y in Rest(p[1..], q) ==> LitOrder(p[0], y)
  {
    StrictTail(p);
    if q != [] { StrictTail(q); }
    assert forall l :: l in q ==> VarOf(p[0]) < VarOf(l);
  }

  /** The least variable occurs in both clauses with the same sign. */
  lemma LeastInBoth(p: seq<Lit>, q: seq<Lit>)
    requires StrictVars(p) && StrictVars(q) && p != [] && q != [] && p[0] == q[0]
    ensures Clash(p, q) == Clash(p[1..], q[1..])
    ensures Rest(p, q) == {p[0]} + Rest(p[1..], q[1..])
    ensures forall y :: y in Rest(p[1..], q[1..]) ==> LitOrder(p[0], y)
  {
    StrictTail(p);
    StrictTail(q);
    var x := p[0];
    assert forall l :: l in p[1..] || l in q[1..] ==> VarOf(x) < VarOf(l);
    assert Negate(x) !in p && Negate(x) !in q;
  }

  /** The least variable occurs in both clauses with opposite signs. */
  lemma LeastClashes(p: seq<Lit>, q: seq<Lit>)
    requires StrictVars(p) && StrictVars(q) && p != [] && q != [] && p[0] == Negate(q[0])
    ensures Clash(p, q) == {p[0]} + Clash(p[1..], q[1..]) && p[0] !in Clash(p[1..], q[1..])
    ensures Rest(p, q) == Rest(p[1..], q[1..])
  {
    StrictTail(p);
    StrictTail(q);
  }

  lemma ClashSymmetric(p: seq<Lit>, q: seq<Lit>)
    ensures |Clash(p, q)| == |Clash(q, p)| && Rest(p, q) == Rest(q, p)
  {
    var s, t := Clash(p, q), Clash(q, p);
    NegateAll(s, t);
  }

  lemma {:induction false} NegateAll(s: set<Lit>, t: set<Lit>)
    requires forall l: Lit :: l in s <==> Negate(l) in t
    ensures |s| == |t|
    decreases |s|
  {
    forall l | l in t ensures Negate(l) in s {
      assert Negate(Negate(l)) == l;
    }
    if s != {} {
      var l :| l in s;
      NegateAll(s - {l}, t - {Negate(l)});
    }
  }

  /** The merge accepts exactly the rest of two clauses that clash once in all. */
  ghost predicate ExactOn(p: seq<Lit>, q: seq<Lit>, c: seq<Lit>, pivots: seq<Var>) {
    MergeCode(p, q, c, pivots) == 0 <==> |pivots| + |Clash(p, q)| == 1 && Elements(c) == Rest(p, q)
  }

  lemma ExactLeft(p: seq<Lit>, q: seq<Lit>, c: seq<Lit>, pivots: seq<Var>)
    requires StrictVars(p) && StrictVars(q) && StrictlySorted(c) && p != [] && (q == [] || VarOf(p[0]) < VarOf(q[0]))
    requires c != [] ==> ExactOn(p[1..], q, c[1..], pivots)
    ensures ExactOn(p, q, c, pivots)
  {
    LeastInOne(p, q);
    TakeLeast(c, p[0], Rest(p, q), Rest(p[1..], q));
  }

  lemma ExactRight(p: seq<Lit>, q: seq<Lit>, c: seq<Lit>, pivots: seq<Var>)
    requires StrictVars(p) && StrictVars(q) && StrictlySorted(c) && q != [] && (p == [] || VarOf(p[0]) > VarOf(q[0]))
    requires c != [] ==> ExactOn(p, q[1..], c[1..], pivots)
    ensures ExactOn(p, q, c, pivots)
  {
    LeastInOne(q, p);
    ClashSymmetric(p, q[1..]);
    TakeLeast(c, q[0], Rest(p, q), Rest(p, q[1..]));
  }

  lemma ExactBoth(p: seq<Lit>, q: seq<Lit>, c: seq<Lit>, pivots: seq<Var>)
    requires StrictVars(p) && StrictVars(q) && StrictlySorted(c) && p != [] && q != [] && p[0] == q[0]
    requires c != [] ==> ExactOn(p[1..], q[1..], c[1..], pivots)
    ensures ExactOn(p, q, c, pivots)
  {
    LeastInBoth(p, q);
    TakeLeast(c, p[0], Rest(p, q), Rest(p[1..], q[1..]));
  }

  lemma {:induction false} MergeExact(p: seq<Lit>, q: seq<Lit>, c: seq<Lit>, pivots: seq<Var>)
    requires StrictVars(p) && StrictVars(q) && StrictlySorted(c)
    ensures ExactOn(p, q, c, pivots)
    decreases |p| + |q|
  {
    if p != [] { StrictTail(p); }
    if q != [] { StrictTail(q); }
    if c != [] { SortedTail(c); }
    if p != [] && (q == [] || VarOf(p[0]) < VarOf(q[0])) {
      if c != [] { MergeExact(p[1..], q, c[1..], pivots); }
      ExactLeft(p, q, c, pivots);
    } else if q != [] && (p == [] || VarOf(p[0]) > VarOf(q[0])) {
      if c != [] { MergeExact(p, q[1..], c[1..], pivots); }
      ExactRight(p, q, c, pivots);
    } else if p != [] && p[0] != q[0] {
      LeastClashes(p, q);
      MergeExact(p[1..], q[1..], c, pivots + [VarOf(p[0])]);
    } else if p != [] {
      if c != [] { MergeExact(p[1..], q[1..], c[1..], pivots); }
      ExactBoth(p, q, c, pivots);
    } else {
      assert c != [] ==> c[0] in Elements(c);
      assert Clash(p, q) == {};
    }
  }

  /** Removing duplicates of a sorted clause without x and -x leaves increasing variables. */
  lemma {:induction false} DedupStrict(s: seq<Lit>)
    requires Sorted(s) && !Tautology(s)
    ensures StrictVars(Dedup(s))
    decreases |s|
  {
    if s != [] {
      var n := |s| - 1;
      assert forall l :: l in s[..n] ==> l in s;
      DedupStrict(s[..n]);
      var t := Dedup(s[..n]);
      forall l | l in t && l != s[n] ensures VarOf(l) < VarOf(s[n]) {
        EarlierVar(s, l);
      }
    }
  }

  lemma EarlierVar(s: seq<Lit>, l: Lit)
    requires Sorted(s) && !Tautology(s) && s != [] && l in s[..|s| - 1] && l != s[|s| - 1]
    ensures VarOf(l) < VarOf(s[|s| - 1])
  {
    var n := |s| - 1;
    var i :| 0 <= i < n && s[..n][i] == l;
    assert !LitOrder(s[n], s[i]);
    assert s[i] in s && s[n] in s;
    assert l != Negate(s[n]);
  }

  lemma RestIsResolvent(p: seq<Lit>, q: seq<Lit>, l: Lit)
    requires !Tautology(p) && !Tautology(q) && Clash(p, q) == {l}
    ensures Rest(p, q) == (Elements(p) - {l}) + (Elements(q) - {Negate(l)})
  {
    assert l in p && Negate(l) in q;
    assert l !in q && Negate(l) !in p;
    forall x | x in q && Negate(x) in p ensures x == Negate(l) {
      assert Negate(x) in Clash(p, q);
    }
    forall x | x in p && Negate(x) in q ensures x == l {
      assert x in Clash(p, q);
    }
  }

  /** The check is exact: it accepts a sorted duplicate-free clause if and only if the parents
      clash on exactly one literal and the clause is their resolvent on it. */
  lemma ResolutionExact(parent1: seq<Lit>, parent2: seq<Lit>, c: seq<Lit>)
    requires Sorted(parent1) && Sorted(parent2) && !Tautology(parent1) && !Tautology(parent2)
    requires StrictlySorted(c)
    ensures ResolutionCode(parent1, parent2, c) == 0 <==> IsResolvent(parent1, parent2, c)
  {
    var p, q := Dedup(parent1), Dedup(parent2);
    DedupStrict(parent1);
    DedupStrict(parent2);
    MergeExact(p, q, c, []);
    assert Clash(p, q) == Clash(parent1, parent2);
    assert Rest(p, q) == Rest(parent1, parent2);
    if |Clash(parent1, parent2)| == 1 {
      var l :| l in Clash(parent1, parent2);
      assert |Clash(parent1, parent2) - {l}| == 0;
      assert Clash(parent1, parent2) == {l};
      RestIsResolvent(parent1, parent2, l);
    }
    if l :| Clash(parent1, parent2) == {l} {
      RestIsResolvent(parent1, parent2, l);
    }
  }

  // ----- which code a rejected step gets -----

  /** The code for the first literal that the resolvent lacks: where it comes from, and whether the
      walk still has literals of the other parent. */
  ghost function Missing(p: seq<Lit>, q: seq<Lit>, x: Lit): int {
    if x in p && x in q then 8
    else if x in p then if exists y :: y in q && VarOf(x) < VarOf(y) then 6 else 9
    else if exists y :: y in p && VarOf(x) < VarOf(y) then 7 else 10
  }

  /** The code of a step whose clause agrees with the sorted rest of the parents in the first k literals. */
  ghost function Verdict(p: seq<Lit>, q: seq<Lit>, c: seq<Lit>, pivots: nat, rest: seq<Lit>, k: nat): int
    requires k <= |rest|
  {
    if k < |rest| then Missing(p, q, rest[k])
    else if k < |c| then 11
    else if pivots + |Clash(p, q)| != 1 then 12
    else 0
  }

  /** The vectors agree in the first k places and no further. */
  predicate AgreeFor(rest: seq<Lit>, c: seq<Lit>, k: nat) {
    k <= |rest| && k <= |c| && rest[..k] == c[..k] && (k == |rest| || k == |c| || rest[k] != c[k])
  }

  lemma AgreeTail(rest: seq<Lit>, c: seq<Lit>, k: nat)
    requires AgreeFor(rest, c, k) && k > 0
    ensures c != [] && rest[0] == c[0] && AgreeFor(rest[1..], c[1..], k - 1)
  {
    assert rest[..k][0] == c[..k][0];
    assert rest[1..][..k - 1] == rest[..k][1..] && c[1..][..k - 1] == c[..k][1..];
  }

  /** A literal behind the least one is missed for the same reason without it. */
  lemma MissingTail(p: seq<Lit>, q: seq<Lit>, p': seq<Lit>, q': seq<Lit>, least: Var, x: Lit)
    requires least < VarOf(x)
    requires forall y: Lit :: least < VarOf(y) ==> (y in p <==> y in p') && (y in q <==> y in q')
    ensures Missing(p, q, x) == Missing(p', q', x)
  {
    assert forall y: Lit :: VarOf(x) < VarOf(y) ==> least < VarOf(y);
  }

  /** The least literal of the rest comes first in it. */
  lemma RestFirst(rest: seq<Lit>, x: Lit, all: set<Lit>, smaller: set<Lit>)
    requires StrictlySorted(rest) && Elements(rest) == all && all == {x} + smaller
    requires x !in smaller && forall y :: y in smaller ==> LitOrder(x, y)
    ensures rest != [] && rest[0] == x && StrictlySorted(rest[1..]) && Elements(rest[1..]) == smaller
  {
    assert x in Elements(rest);
    TakeLeast(rest, x, all, smaller);
  }

  lemma {:induction false} MergeVerdict(p: seq<Lit>, q: seq<Lit>, c: seq<Lit>, pivots: seq<Var>, rest: seq<Lit>, k: nat)
    requires StrictVars(p) && StrictVars(q) && StrictlySorted(rest) && Elements(rest) == Rest(p, q)
    requires AgreeFor(rest, c, k)
    ensures MergeCode(p, q, c, pivots) == Verdict(p, q, c, |pivots|, rest, k)
    decreases |p| + |q|
  {
    hide LitOrder, Rest, Clash, Missing;
    if p != [] { StrictTail(p); }
    if q != [] { StrictTail(q); }
    if p != [] && (q == [] || VarOf(p[0]) < VarOf(q[0])) {
      VerdictLeft(p, q, c, pivots, rest, k);
      if k > 0 {
        AgreeTail(rest, c, k);
        MergeVerdict(p[1..], q, c[1..], pivots, rest[1..], k - 1);
      }
    } else if q != [] && (p == [] || VarOf(p[0]) > VarOf(q[0])) {
      VerdictRight(p, q, c, pivots, rest, k);
      if k > 0 {
        AgreeTail(rest, c, k);
        MergeVerdict(p, q[1..], c[1..], pivots, rest[1..], k - 1);
      }
    } else if p != [] && p[0] != q[0] {
      VerdictClash(p, q, c, pivots, rest, k);
      MergeVerdict(p[1..], q[1..], c, pivots + [VarOf(p[0])], rest, k);
    } else if p != [] {
      VerdictBoth(p, q, c, pivots, rest, k);
      if k > 0 {
        AgreeTail(rest, c, k);
        MergeVerdict(p[1..], q[1..], c[1..], pivots, rest[1..], k - 1);
      }
    } else {
      NothingLeft(p, q, rest);
    }
  }

  lemma NothingLeft(p: seq<Lit>, q: seq<Lit>, rest: seq<Lit>)
    requires p == [] && q == [] && Elements(rest) == Rest(p, q)
    ensures rest == [] && Clash(p, q) == {}
  {
    EmptyElements(rest);
  }

  lemma EmptyElements(s: seq<Lit>)
    ensures Elements(s) == {} ==> s == []
  {
    if s != [] {
      assert s[0] in Elements(s);
    }
  }

  lemma VerdictLeft(p: seq<Lit>, q: seq<Lit>, c: seq<Lit>, pivots: seq<Var>, rest: seq<Lit>, k: nat)
    requires StrictVars(p) && StrictVars(q) && StrictlySorted(rest) && Elements(rest) == Rest(p, q)
    requires AgreeFor(rest, c, k) && p != [] && (q == [] || VarOf(p[0]) < VarOf(q[0]))
    ensures rest != [] && rest[0] == p[0] && StrictlySorted(rest[1..]) && Elements(rest[1..]) == Rest(p[1..], q)
    ensures k == 0 ==> Missing(p, q, rest[0]) == if q == [] then 9 else 6
    ensures k > 0 ==> |c| > 0 && Verdict(p, q, c, |pivots|, rest, k)
                               == Verdict(p[1..], q, c[1..], |pivots|, rest[1..], k - 1)
  {
    StrictTail(p);
    if q != [] { StrictTail(q); }
    LeastInOne(p, q);
    assert p[0] !in Rest(p[1..], q);
    RestFirst(rest, p[0], Rest(p, q), Rest(p[1..], q));
    if k < |rest| && k > 0 {
      assert rest[k] == rest[1..][k - 1] && rest[k] in Elements(rest[1..]);
      FromParents(p[1..], q, rest[k]);
      MissingTail(p, q, p[1..], q, VarOf(p[0]), rest[k]);
    }
  }

  lemma FromParents(p: seq<Lit>, q: seq<Lit>, x: Lit)
    requires x in Rest(p, q)
    ensures x in p || x in q
  {
  }

  lemma VerdictRight(p: seq<Lit>, q: seq<Lit>, c: seq<Lit>, pivots: seq<Var>, rest: seq<Lit>, k: nat)
    requires StrictVars(p) && StrictVars(q) && StrictlySorted(rest) && Elements(rest) == Rest(p, q)
    requires AgreeFor(rest, c, k) && q != [] && (p == [] || VarOf(p[0]) > VarOf(q[0]))
    ensures rest != [] && rest[0] == q[0] && StrictlySorted(rest[1..]) && Elements(rest[1..]) == Rest(p, q[1..])
    ensures k == 0 ==> Missing(p, q, rest[0]) == if p == [] then 10 else 7
    ensures k > 0 ==> |c| > 0 && Verdict(p, q, c, |pivots|, rest, k)
                               == Verdict(p, q[1..], c[1..], |pivots|, rest[1..], k - 1)
  {
    StrictTail(q);
    if p != [] { StrictTail(p); }
    LeastInOne(q, p);
    ClashSymmetric(p, q);
    ClashSymmetric(p, q[1..]);
    assert q[0] !in Rest(p, q[1..]);
    RestFirst(rest, q[0], Rest(p, q), Rest(p, q[1..]));
    if k < |rest| && k > 0 {
      assert rest[k] == rest[1..][k - 1] && rest[k] in Elements(rest[1..]);
      FromParents(p, q[1..], rest[k]);
      MissingTail(p, q, p, q[1..], VarOf(q[0]), rest[k]);
    }
  }

  lemma VerdictBoth(p: seq<Lit>, q: seq<Lit>, c: seq<Lit>, pivots: seq<Var>, rest: seq<Lit>, k: nat)
    requires StrictVars(p) && StrictVars(q) && StrictlySorted(rest) && Elements(rest) == Rest(p, q)
    requires AgreeFor(rest, c, k) && p != [] && q != [] && p[0] == q[0]
    ensures rest != [] && rest[0] == p[0] && StrictlySorted(rest[1..]) && Elements(rest[1..]) == Rest(p[1..], q[1..])
    ensures k == 0 ==> Missing(p, q, rest[0]) == 8
    ensures k > 0 ==> |c| > 0 && Verdict(p, q, c, |pivots|, rest, k)
                               == Verdict(p[1..], q[1..], c[1..], |pivots|, rest[1..], k - 1)
  {
    StrictTail(p);
    StrictTail(q);
    LeastInBoth(p, q);
    assert p[0] !in Rest(p[1..], q[1..]);
    RestFirst(rest, p[0], Rest(p, q), Rest(p[1..], q[1..]));
    if k < |rest| && k > 0 {
      assert rest[k] == rest[1..][k - 1] && rest[k] in Elements(rest[1..]);
      FromParents(p[1..], q[1..], rest[k]);
      MissingTail(p, q, p[1..], q[1..], VarOf(p[0]), rest[k]);
    }
  }

  lemma VerdictClash(p: seq<Lit>, q: seq<Lit>, c: seq<Lit>, pivots: seq<Var>, rest: seq<Lit>, k: nat)
    requires StrictVars(p) && StrictVars(q) && Elements(rest) == Rest(p, q) && k <= |rest|
    requires p != [] && q != [] && VarOf(p[0]) == VarOf(q[0]) && p[0] != q[0]
    ensures Elements(rest) == Rest(p[1..], q[1..])
    ensures Verdict(p, q, c, |pivots|, rest, k) == Verdict(p[1..], q[1..], c, |pivots| + 1, rest, k)
  {
    StrictTail(p);
    StrictTail(q);
    LeastClashes(p, q);
    if k < |rest| {
      assert rest[k] in Elements(rest);
      FromParents(p[1..], q[1..], rest[k]);
      MissingTail(p, q, p[1..], q[1..], VarOf(p[0]), rest[k]);
    }
  }

  /** What each code says, for sorted parents and any clause. The literals on which the parents do not
      clash, sorted, are what the clause should be. Codes 6 to 10 mean that it lacks one, the first that
      it lacks being in both parents (8), in the first one only, with a greater variable in the second
      (6) or without (9), or in the second one only (7 and 10); 11 that it has them all in front and
      goes on; and 12 that it is right, but the parents do not clash exactly once. */
  lemma ResolutionCodes(parent1: seq<Lit>, parent2: seq<Lit>, c: seq<Lit>, rest: seq<Lit>, k: nat)
    requires Sorted(parent1) && Sorted(parent2) && !Tautology(parent1) && !Tautology(parent2)
    requires StrictlySorted(rest) && Elements(rest) == Rest(parent1, parent2) && AgreeFor(rest, c, k)
    ensures ResolutionCode(parent1, parent2, c) == Verdict(parent1, parent2, c, 0, rest, k)
  {
    var p, q := Dedup(parent1), Dedup(parent2);
    DedupStrict(parent1);
    DedupStrict(parent2);
    assert Clash(p, q) == Clash(parent1, parent2);
    assert Rest(p, q) == Rest(parent1, parent2);
    MergeVerdict(p, q, c, [], rest, k);
  }
}
