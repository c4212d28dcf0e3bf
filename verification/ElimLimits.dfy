/** When the elimination of a variable is worth it: how many resolvents there are and how long they get. */
module ElimLimits {
  import opened SolverTypes
  import opened SolverStates
  import opened SolverNogoods
  import opened SolverAnalysis
  import opened Subsumption
  import opened Elimination
  import opened SimpStates

  ghost predicate ClausesOf(D: Db, cls: seq<nat>, v: nat) {
    forall i: nat :: i in cls <==> Live(D, i) && v in VarsOf(D.ca[i])
  }

  lemma NotYet(cs: seq<nat>, i: nat)
    requires NoRepeat(cs) && i < |cs|
    ensures cs[i] !in cs[..i]
  {
  }

  /** The clauses of both sides as they were at the beginning. */
  ghost predicate SidesOf(D: Db, v: nat, pos: seq<nat>, neg: seq<nat>, P: seq<Clause>, N: seq<Clause>) {
    && |P| == |pos| && |N| == |neg|
    && (forall k :: 0 <= k < |pos| ==> Live(D, pos[k]) && P[k] == D.ca[pos[k]] && Lit(v, false) in P[k])
    && forall k :: 0 <= k < |neg| ==> Live(D, neg[k]) && N[k] == D.ca[neg[k]] && Lit(v, true) in N[k]
  }

  /** Positive clauses have v, the others its negation, and together they are all. */
  ghost predicate SplitOk(D: Db, cls: seq<nat>, v: nat, pos: seq<nat>, neg: seq<nat>) {
    && (forall k :: 0 <= k < |pos| ==> Live(D, pos[k]) && Lit(v, false) in D.ca[pos[k]])
    && (forall k :: 0 <= k < |neg| ==> Live(D, neg[k]) && Lit(v, true) in D.ca[neg[k]])
    && forall i :: i in cls ==> i in pos || i in neg
  }

  /** The live clauses of a variable. */
  ghost function ClausesWith(D: Db, v: nat): set<nat> {
    set i: nat | i < |D.ca| && Live(D, i) && v in VarsOf(D.ca[i])
  }

  /** Two live clauses that clash on v and on nothing else. */
  ghost predicate Resolvable(D: Db, v: nat, i: nat, j: nat) {
    && Live(D, i) && Live(D, j) && Lit(v, false) in D.ca[i] && Lit(v, true) in D.ca[j]
    && !Tautological(D.ca[i], D.ca[j], v)
  }

  ghost function ResolvablePairs(D: Db, v: nat): set<(nat, nat)> {
    set i: nat, j: nat | i < |D.ca| && j < |D.ca| && Resolvable(D, v, i, j) :: (i, j)
  }

  /** When a variable stays: more resolvents than clauses, beyond the growth allowed, or a long one. */
  ghost predicate TooMuch(D: Db, v: nat, grow: int, clause_lim: int) {
    || (ResolvablePairs(D, v) != {} && |ResolvablePairs(D, v)| > |ClausesWith(D, v)| + grow)
    || exists i: nat, j: nat :: Resolvable(D, v, i, j) && TooLong(D.ca[i], D.ca[j], v, clause_lim)
  }

  ghost predicate TooLong(p: Clause, q: Clause, v: nat, clause_lim: int) {
    clause_lim != -1 && |Resolvent(p, q, v)| > clause_lim
  }

  lemma {:induction false} DistinctCount(s: seq<nat>, S: set<nat>)
    requires NoRepeat(s) && forall x :: x in S <==> x in s
    ensures |S| == |s|
  {
    if s == [] {
      assert S == {};
    } else {
      var n := |s| - 1;
      NotYet(s, n);
      assert s == s[..n] + [s[n]];
      DistinctCount(s[..n], S - {s[n]});
    }
  }

  lemma ClausesCounted(D: Db, cls: seq<nat>, v: nat)
    requires ClausesOf(D, cls, v) && NoRepeat(cls)
    ensures |ClausesWith(D, v)| == |cls|
  {
    DistinctCount(cls, ClausesWith(D, v));
  }

  /** The live clauses with a literal. */
  ghost function ClausesHaving(D: Db, l: Lit): set<nat> {
    set i: nat | i < |D.ca| && Live(D, i) && l in D.ca[i]
  }

  lemma SidesCounted(D: Db, cls: seq<nat>, v: nat, pos: seq<nat>, neg: seq<nat>)
    requires SplitOk(D, cls, v, pos, neg) && ClausesOf(D, cls, v) && NoRepeat(pos) && NoRepeat(neg)
    requires forall i: nat :: Live(D, i) ==> DistinctVars(D.ca[i])
    ensures |ClausesHaving(D, Lit(v, false))| == |pos| && |ClausesHaving(D, Lit(v, true))| == |neg|
  {
    forall i: nat | Live(D, i) && (Lit(v, false) in D.ca[i] || Lit(v, true) in D.ca[i])
      ensures i in pos <==> Lit(v, false) in D.ca[i]
      ensures i in neg <==> Lit(v, true) in D.ca[i]
    {
      assert v in VarsOf(D.ca[i]) && i in cls;
      OneSign(D.ca[i], v);
    }
    DistinctCount(pos, ClausesHaving(D, Lit(v, false)));
    DistinctCount(neg, ClausesHaving(D, Lit(v, true)));
  }

  lemma OneSign(c: Clause, v: nat)
    requires DistinctVars(c)
    ensures !(Lit(v, false) in c && Lit(v, true) in c)
  {
  }

  /** The pair is in a row before the i-th, or in that row and in a column before the j-th. */
  predicate Earlier(a: nat, b: nat, i: nat, j: nat) {
    a < i || (a == i && b < j)
  }

  lemma EarlierNext(i: nat, j: nat)
    ensures forall a: nat, b: nat :: Earlier(a, b, i, j + 1) <==> Earlier(a, b, i, j) || (a == i && b == j)
  {
  }

  lemma EarlierRow(i: nat, n: nat)
    ensures forall a: nat, b: nat :: b < n ==> (Earlier(a, b, i + 1, 0) <==> Earlier(a, b, i, n))
  {
  }

  /** The pairs before the j-th column of the i-th row that can be resolved. */
  ghost function Found(D: Db, pos: seq<nat>, neg: seq<nat>, v: nat, i: nat, j: nat): set<(nat, nat)> {
    set a: nat, b: nat | a < |pos| && b < |neg| && Earlier(a, b, i, j)
      && Resolvable(D, v, pos[a], neg[b]) :: (pos[a], neg[b])
  }

  ghost predicate NoneLong(D: Db, v: nat, clause_lim: int, found: set<(nat, nat)>) {
    forall x, y :: (x, y) in found && Resolvable(D, v, x, y) ==> !TooLong(D.ca[x], D.ca[y], v, clause_lim)
  }

  /** So far there were few and short resolvents. */
  ghost predicate WithinSoFar(D: Db, cls: seq<nat>, pos: seq<nat>, neg: seq<nat>, v: nat, grow: int, clause_lim: int,
      i: nat, j: nat, cnt: nat)
  {
    && cnt == |Found(D, pos, neg, v, i, j)| && (cnt == 0 || cnt <= |cls| + grow)
    && NoneLong(D, v, clause_lim, Found(D, pos, neg, v, i, j))
  }

  lemma FoundNext(D: Db, pos: seq<nat>, neg: seq<nat>, v: nat, i: nat, j: nat)
    requires i < |pos| && j < |neg| && NoRepeat(pos) && NoRepeat(neg)
    ensures (pos[i], neg[j]) !in Found(D, pos, neg, v, i, j)
    ensures Found(D, pos, neg, v, i, j + 1) ==
            Found(D, pos, neg, v, i, j) + if Resolvable(D, v, pos[i], neg[j]) then {(pos[i], neg[j])} else {}
  {
    assert Earlier(i, j, i, j + 1);
    EarlierNext(i, j);
  }

  lemma NextFoundRow(D: Db, pos: seq<nat>, neg: seq<nat>, v: nat, i: nat)
    ensures Found(D, pos, neg, v, i + 1, 0) == Found(D, pos, neg, v, i, |neg|)
  {
    EarlierRow(i, |neg|);
  }

  lemma FoundResolvable(D: Db, pos: seq<nat>, neg: seq<nat>, v: nat, i: nat, j: nat)
    ensures Found(D, pos, neg, v, i, j) <= ResolvablePairs(D, v)
  {
  }

  lemma FoundMore(D: Db, pos: seq<nat>, neg: seq<nat>, v: nat, i: nat, j: nat)
    requires i < |pos| && j < |neg| && NoRepeat(pos) && NoRepeat(neg)
    ensures |Found(D, pos, neg, v, i, j + 1)|
            == |Found(D, pos, neg, v, i, j)| + if Resolvable(D, v, pos[i], neg[j]) then 1 else 0
  {
    FoundNext(D, pos, neg, v, i, j);
  }

  lemma WithinNext(D: Db, cls: seq<nat>, pos: seq<nat>, neg: seq<nat>, v: nat, grow: int, clause_lim: int, i: nat,
      j: nat, cnt: nat, cnt': nat)
    requires WithinSoFar(D, cls, pos, neg, v, grow, clause_lim, i, j, cnt) && i < |pos| && j < |neg|
    requires NoRepeat(pos) && NoRepeat(neg) && cnt' == cnt + if Resolvable(D, v, pos[i], neg[j]) then 1 else 0
    requires Resolvable(D, v, pos[i], neg[j]) ==>
      cnt' <= |cls| + grow && !TooLong(D.ca[pos[i]], D.ca[neg[j]], v, clause_lim)
    ensures WithinSoFar(D, cls, pos, neg, v, grow, clause_lim, i, j + 1, cnt')
  {
    FoundMore(D, pos, neg, v, i, j);
    hide Resolvable, TooLong;
    FoundNext(D, pos, neg, v, i, j);
  }

  lemma LimitReached(D: Db, cls: seq<nat>, pos: seq<nat>, neg: seq<nat>, v: nat, grow: int, clause_lim: int, i: nat,
      j: nat, cnt: nat)
    requires |ClausesWith(D, v)| == |cls| && i < |pos| && j < |neg| && Resolvable(D, v, pos[i], neg[j])
    requires NoRepeat(pos) && NoRepeat(neg) && WithinSoFar(D, cls, pos, neg, v, grow, clause_lim, i, j, cnt)
    requires cnt + 1 > |cls| + grow || TooLong(D.ca[pos[i]], D.ca[neg[j]], v, clause_lim)
    ensures TooMuch(D, v, grow, clause_lim)
  {
    FoundMore(D, pos, neg, v, i, j);
    FoundResolvable(D, pos, neg, v, i, j + 1);
    SmallerPairs(Found(D, pos, neg, v, i, j + 1), ResolvablePairs(D, v));
    FoundOne(D, pos, neg, v, i, j);
  }

  lemma FoundOne(D: Db, pos: seq<nat>, neg: seq<nat>, v: nat, i: nat, j: nat)
    requires i < |pos| && j < |neg| && Resolvable(D, v, pos[i], neg[j])
    ensures (pos[i], neg[j]) in Found(D, pos, neg, v, i, j + 1) && Found(D, pos, neg, v, i, j + 1) != {}
  {
    assert Earlier(i, j, i, j + 1);
  }

  lemma SmallerPairs(a: set<(nat, nat)>, b: set<(nat, nat)>)
    requires a <= b
    ensures |a| <= |b|
  {
    assert b == a + (b - a) && a !! b - a;
  }

  lemma AllFound(D: Db, cls: seq<nat>, pos: seq<nat>, neg: seq<nat>, v: nat, grow: int, clause_lim: int, cnt: nat)
    requires SplitOk(D, cls, v, pos, neg) && ClausesOf(D, cls, v) && |ClausesWith(D, v)| == |cls|
    requires forall i: nat :: Live(D, i) ==> DistinctVars(D.ca[i])
    requires WithinSoFar(D, cls, pos, neg, v, grow, clause_lim, |pos|, 0, cnt)
    ensures !TooMuch(D, v, grow, clause_lim)
  {
    var found := Found(D, pos, neg, v, |pos|, 0);
    FoundResolvable(D, pos, neg, v, |pos|, 0);
    forall i: nat, j: nat | Resolvable(D, v, i, j) ensures (i, j) in found {
      PairFound(D, cls, pos, neg, v, i, j);
    }
    assert found == ResolvablePairs(D, v);
  }

  lemma PairFound(D: Db, cls: seq<nat>, pos: seq<nat>, neg: seq<nat>, v: nat, i: nat, j: nat)
    requires SplitOk(D, cls, v, pos, neg) && ClausesOf(D, cls, v) && Resolvable(D, v, i, j)
    requires DistinctVars(D.ca[i]) && DistinctVars(D.ca[j]) && forall k: nat :: Live(D, k) ==> DistinctVars(D.ca[k])
    ensures (i, j) in Found(D, pos, neg, v, |pos|, 0)
  {
    OtherSignOut(D.ca[i], Lit(v, false));
    OtherSignOut(D.ca[j], Lit(v, true));
    assert Lit(v, false).v in VarsOf(D.ca[i]) && Lit(v, true).v in VarsOf(D.ca[j]);
    assert i in pos && j in neg;
    var a :| 0 <= a < |pos| && pos[a] == i;
    var b :| 0 <= b < |neg| && neg[b] == j;
    assert Earlier(a, b, |pos|, 0);
  }
}
