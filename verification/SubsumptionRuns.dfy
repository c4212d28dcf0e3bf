/** When backward subsumption may stop: the clauses it was given have been tried on all others. */
module SubsumptionRuns {
  import opened SolverTypes
  import opened SolverStates
  import opened SolverNogoods
  import opened SolverAnalysis
  import opened Subsumption
  import opened SimpStates

  /** The clause neither subsumes the other one nor takes a literal from it. */
  ghost predicate Harmless(c: Clause, d: Clause) {
    !Subset(c, d) && forall p :: !Flips(c, d, p)
  }

  ghost predicate Short(lim: int, c: Clause) {
    lim == -1 || |c| < lim
  }

  /** The k-th clause, or a literal of level 0, is harmless for all live clauses that were short. */
  ghost predicate Tried(lim: int, ca0: seq<Clause>, D: Db, c: Clause, k: int) {
    forall i: nat :: Live(D, i) && i < |ca0| && i != k && Short(lim, ca0[i]) ==> Harmless(c, D.ca[i])
  }

  /** Clauses were removed, and short ones lost literals; literals of level 0 were added. */
  ghost predicate Reduced(lim: int, D: Db, D': Db) {
    && |D'.ca| == |D.ca| && |D'.del| == |D.del| && D.trail <= D'.trail
    && forall i: nat :: Live(D', i) ==> Live(D, i) && ReducedClause(lim, D.ca[i], D'.ca[i])
  }

  ghost predicate ReducedClause(lim: int, c: Clause, c': Clause) {
    c' == c || (Short(lim, c) && |c'| < |c| && Subset(c', c))
  }

  /** The clauses that lost literals are in the queue. */
  ghost predicate Shrunk(lim: int, D: Db, D': Db, queue: seq<nat>, queue': seq<nat>) {
    && Reduced(lim, D, D') && queue <= queue'
    && forall i: nat :: Live(D', i) && D'.ca[i] != D.ca[i] ==> i in queue'
  }

  lemma ShrunkSelf(lim: int, D: Db, queue: seq<nat>)
    ensures Shrunk(lim, D, D, queue, queue)
  {
  }

  lemma ReducedTrans(lim: int, D: Db, D': Db, D'': Db)
    requires Reduced(lim, D, D') && Reduced(lim, D', D'')
    ensures Reduced(lim, D, D'')
  {
    forall i: nat | Live(D'', i) ensures Live(D, i) && ReducedClause(lim, D.ca[i], D''.ca[i]) {
      assert Live(D', i) && ReducedClause(lim, D'.ca[i], D''.ca[i]);
    }
  }

  lemma ShrunkTrans(lim: int, D: Db, D': Db, D'': Db, queue: seq<nat>, queue': seq<nat>, queue'': seq<nat>)
    requires Shrunk(lim, D, D', queue, queue') && Shrunk(lim, D', D'', queue', queue'')
    ensures Shrunk(lim, D, D'', queue, queue'')
  {
    ReducedTrans(lim, D, D', D'');
    assert forall i :: i in queue' ==> i in queue'';
    forall i: nat | Live(D'', i) && D''.ca[i] != D.ca[i] ensures i in queue'' {
      assert Live(D', i) && (D'.ca[i] != D.ca[i] || D''.ca[i] != D'.ca[i]);
    }
  }

  /** A clause that is short now was short before. */
  lemma ShortBefore(lim: int, D: Db, D': Db, i: nat)
    requires Reduced(lim, D, D') && Live(D', i) && Short(lim, D'.ca[i])
    ensures Live(D, i) && Short(lim, D.ca[i]) && Subset(D'.ca[i], D.ca[i])
  {
    assert ReducedClause(lim, D.ca[i], D'.ca[i]);
  }

  lemma HarmlessShrunk(c: Clause, d: Clause, d': Clause)
    requires Harmless(c, d) && Subset(d', d)
    ensures Harmless(c, d')
  {
    forall p ensures !Flips(c, d', p) {
      assert !Flips(c, d, p);
    }
  }

  lemma TriedReduced(lim: int, ca0: seq<Clause>, D: Db, D': Db, c: Clause, k: int)
    requires Reduced(lim, D, D') && Tried(lim, ca0, D, c, k)
    ensures Tried(lim, ca0, D', c, k)
  {
    forall i: nat | Live(D', i) && i < |ca0| && i != k && Short(lim, ca0[i]) ensures Harmless(c, D'.ca[i]) {
      assert Live(D, i) && ReducedClause(lim, D.ca[i], D'.ca[i]);
      HarmlessShrunk(c, D.ca[i], D'.ca[i]);
    }
  }

  /** A strengthened clause has nothing more to lose to the same clause. */
  lemma StrengthenedHarmless(c: Clause, d: Clause, p: Lit)
    requires Flips(c, d, p) && DistinctVars(d)
    ensures Harmless(c, Without(d, Neg(p)))
  {
    SignOnce(d, p);
  }

  /** A clause without one of its variables is harmless. */
  lemma OtherClauses(c: Clause, d: Clause, v: nat)
    requires v in VarsOf(c) && v !in VarsOf(d)
    ensures Harmless(c, d)
  {
    var l :| l in c && l.v == v;
    assert Neg(l).v == v;
    assert l !in d && Neg(l) !in d;
  }

  // ----- a walk through one list -----

  /** The first j entries of a list have been tried. */
  ghost predicate ListTried(lim: int, ca0: seq<Clause>, D: Db, c: Clause, k: int, list: seq<nat>, j: nat) {
    j <= |list| && forall x :: 0 <= x < j ==> EntryTried(lim, ca0, D, c, k, list[x])
  }

  ghost predicate EntryTried(lim: int, ca0: seq<Clause>, D: Db, c: Clause, k: int, i: nat) {
    Live(D, i) && i < |ca0| && i != k && Short(lim, ca0[i]) ==> Harmless(c, D.ca[i])
  }

  lemma ListReduced(lim: int, ca0: seq<Clause>, D: Db, D': Db, c: Clause, k: int, list: seq<nat>, j: nat)
    requires Reduced(lim, D, D') && ListTried(lim, ca0, D, c, k, list, j)
    ensures ListTried(lim, ca0, D', c, k, list, j)
  {
    forall x | 0 <= x < j ensures EntryTried(lim, ca0, D', c, k, list[x]) {
      var i := list[x];
      assert EntryTried(lim, ca0, D, c, k, i);
      if Live(D', i) && i < |ca0| && i != k && Short(lim, ca0[i]) {
        assert ReducedClause(lim, D.ca[i], D'.ca[i]);
        HarmlessShrunk(c, D.ca[i], D'.ca[i]);
      }
    }
  }

  /** An entry that is removed, the clause itself or too long needs no trying. */
  lemma SkipEntry(lim: int, D0: Db, D: Db, c: Clause, k: int, list: seq<nat>, j: nat)
    requires Reduced(lim, D0, D) && ListTried(lim, D0.ca, D, c, k, list, j) && j < |list|
    requires !Live(D, list[j]) || list[j] == k || !Short(lim, D.ca[list[j]])
    ensures ListTried(lim, D0.ca, D, c, k, list, j + 1)
  {
    var i := list[j];
    if Live(D, i) {
      assert ReducedClause(lim, D0.ca[i], D.ca[i]);
    }
    assert EntryTried(lim, D0.ca, D, c, k, i);
  }

  /** The whole list of one of its variables is enough. */
  lemma AllTried(lim: int, ca0: seq<Clause>, D: Db, c: Clause, k: int, v: nat, list: seq<nat>)
    requires v in VarsOf(c) && OccListOk(D, v, list) && ListTried(lim, ca0, D, c, k, list, |list|)
    ensures Tried(lim, ca0, D, c, k)
  {
    forall i: nat | Live(D, i) && i < |ca0| && i != k && Short(lim, ca0[i]) ensures Harmless(c, D.ca[i]) {
      if v in VarsOf(D.ca[i]) {
        var x :| 0 <= x < |list| && list[x] == i;
        assert EntryTried(lim, ca0, D, c, k, list[x]);
      } else {
        OtherClauses(c, D.ca[i], v);
      }
    }
  }

  // ----- a whole run -----

  /** What has been done since D0: every clause that was queued or has lost literals is still in the
      queue or has been tried, and so have the literals of level 0 from at0 on. */
  ghost predicate Worked(lim: int, D0: Db, D: Db, queue0: seq<nat>, queue: seq<nat>, at0: nat, at: nat) {
    && |D.ca| == |D0.ca|
    && (forall k: nat :: Live(D, k) && (k in queue0 || D.ca[k] != D0.ca[k]) ==>
       k in queue || Tried(lim, D0.ca, D, D.ca[k], k))
    && forall t :: at0 <= t < at && t < |D.trail| ==> Tried(lim, D0.ca, D, [D.trail[t]], -1)
  }

  /** One more entry of the queue, or one more literal of level 0, has been tried. */
  ghost predicate OneTried(lim: int, D: Db, D': Db, queue: seq<nat>, queue': seq<nat>, at: nat, at': nat) {
    if queue == [] then
      at < |D.trail| && at' == at + 1 && Shrunk(lim, D, D', [], queue') && Tried(lim, D.ca, D', [D.trail[at]], -1)
    else
      at' == at && Shrunk(lim, D, D', queue[1..], queue')
        && (Live(D', queue[0]) ==> Tried(lim, D.ca, D', D'.ca[queue[0]], queue[0]))
  }

  lemma RemovedTried(lim: int, D: Db, queue: seq<nat>, queue': seq<nat>, at: nat)
    requires queue != [] && queue' == queue[1..] && !Live(D, queue[0])
    ensures OneTried(lim, D, D, queue, queue', at, at)
  {
  }

  lemma TakenTried(lim: int, D: Db, D': Db, queue: seq<nat>, queue1: seq<nat>, queue': seq<nat>, at: nat, at': nat,
      c: Clause, k: int)
    requires Shrunk(lim, D, D', queue1, queue') && Tried(lim, D.ca, D', c, k)
    requires if queue == [] then queue1 == [] && at' == at + 1 && at < |D.trail| && k == -1 && c == [D.trail[at]]
             else queue1 == queue[1..] && at' == at && k == queue[0] && (Live(D', k) ==> D'.ca[k] == c)
    ensures OneTried(lim, D, D', queue, queue', at, at')
  {
  }

  lemma TriedEarlier(lim: int, D0: Db, D1: Db, D: Db, c: Clause, k: int)
    requires Reduced(lim, D0, D1) && Reduced(lim, D1, D) && Tried(lim, D1.ca, D, c, k)
    ensures Tried(lim, D0.ca, D, c, k)
  {
    forall i: nat | Live(D, i) && i < |D0.ca| && i != k && Short(lim, D0.ca[i]) ensures Harmless(c, D.ca[i]) {
      assert Live(D1, i) && ReducedClause(lim, D0.ca[i], D1.ca[i]) && Short(lim, D1.ca[i]);
    }
  }

  lemma NextWorked(lim: int, D0: Db, D1: Db, D: Db, queue0: seq<nat>, queue1: seq<nat>, queue: seq<nat>, at0: nat,
      at1: nat, at: nat)
    requires Worked(lim, D0, D1, queue0, queue1, at0, at1) && OneTried(lim, D1, D, queue1, queue, at1, at)
    requires Reduced(lim, D0, D1) && at1 <= |D1.trail|
    ensures Worked(lim, D0, D, queue0, queue, at0, at) && Reduced(lim, D0, D)
  {
    var rest := if queue1 == [] then [] else queue1[1..];
    assert Shrunk(lim, D1, D, rest, queue);
    ReducedTrans(lim, D0, D1, D);
    forall k: nat | Live(D, k) && (k in queue0 || D.ca[k] != D0.ca[k]) ensures k in queue
      || Tried(lim, D0.ca, D, D.ca[k], k) {
      assert Live(D1, k);
      if k !in queue {
        assert D.ca[k] == D1.ca[k];
        if k in queue1 {
          assert queue1 == [queue1[0]] + rest && k == queue1[0];
          TriedEarlier(lim, D0, D1, D, D.ca[k], k);
        } else {
          TriedReduced(lim, D0.ca, D1, D, D.ca[k], k);
        }
      }
    }
    forall t | at0 <= t < at && t < |D.trail| ensures Tried(lim, D0.ca, D, [D.trail[t]], -1) {
      assert t < |D1.trail| && D1.trail[t] == D.trail[t];
      if t < at1 {
        TriedReduced(lim, D0.ca, D1, D, [D.trail[t]], -1);
      } else {
        TriedEarlier(lim, D0, D1, D, [D.trail[t]], -1);
      }
    }
  }

  // ----- what stays tried -----

  /** Between any two short clauses that are not queued one is harmless for the other. */
  ghost predicate PairsSettled(lim: int, D: Db, queue: seq<nat>) {
    forall i: nat, j: nat {:trigger Harmless(D.ca[i], D.ca[j])} ::
      Live(D, i) && Live(D, j) && i != j && i !in queue && j !in queue && Short(lim, D.ca[i]) && Short(lim, D.ca[j])
      ==> Harmless(D.ca[i], D.ca[j]) || Harmless(D.ca[j], D.ca[i])
  }

  /** The literal is harmless for all short clauses. */
  ghost predicate LitSettled(lim: int, D: Db, l: Lit) {
    forall i: nat :: Live(D, i) && Short(lim, D.ca[i]) ==> Harmless([l], D.ca[i])
  }

  /** What is settled: the pairs, and the first literals of level 0. */
  ghost predicate Settling(lim: int, D: Db, queue: seq<nat>, at: nat) {
    if at == 0 then PairsSettled(lim, D, queue)
    else Settling(lim, D, queue, at - 1) && (at <= |D.trail| ==> LitSettled(lim, D, D.trail[at - 1]))
  }

  lemma {:induction false} SettlingMeans(lim: int, D: Db, queue: seq<nat>, at: nat)
    ensures Settling(lim, D, queue, at) <==>
            PairsSettled(lim, D, queue) && forall t :: 0 <= t < at && t < |D.trail| ==> LitSettled(lim, D, D.trail[t])
  {
    if at > 0 {
      SettlingMeans(lim, D, queue, at - 1);
    }
  }

  /** A finished run has settled everything. */
  lemma RunSettles(lim: int, D0: Db, D: Db, queue0: seq<nat>, at0: nat)
    requires Settling(lim, D0, queue0, at0) && Worked(lim, D0, D, queue0, [], at0, |D.trail|) && Reduced(lim, D0, D)
    requires at0 <= |D0.trail|
    ensures Settling(lim, D, [], |D.trail|)
  {
    SettlingMeans(lim, D0, queue0, at0);
    SettlingMeans(lim, D, [], |D.trail|);
    forall i: nat, j: nat | Live(D, i) && Live(D, j) && i != j && Short(lim, D.ca[i]) && Short(lim, D.ca[j])
      ensures Harmless(D.ca[i], D.ca[j]) || Harmless(D.ca[j], D.ca[i])
    {
      ShortBefore(lim, D0, D, i);
      ShortBefore(lim, D0, D, j);
      PairSettled(lim, D0, D, queue0, at0, i, j);
    }
    forall t | 0 <= t < |D.trail| ensures LitSettled(lim, D, D.trail[t]) {
      assert if t < at0 then LitSettled(lim, D0, D.trail[t]) else Tried(lim, D0.ca, D, [D.trail[t]], -1);
      LitStillSettled(lim, D0, D, D.trail[t], t < at0);
    }
  }

  lemma LitStillSettled(lim: int, D0: Db, D: Db, l: Lit, before: bool)
    requires Reduced(lim, D0, D) && if before then LitSettled(lim, D0, l) else Tried(lim, D0.ca, D, [l], -1)
    ensures LitSettled(lim, D, l)
  {
    forall i: nat | Live(D, i) && Short(lim, D.ca[i]) ensures Harmless([l], D.ca[i]) {
      ShortBefore(lim, D0, D, i);
      if before {
        HarmlessShrunk([l], D0.ca[i], D.ca[i]);
      }
    }
  }

  lemma PairSettled(lim: int, D0: Db, D: Db, queue0: seq<nat>, at0: nat, i: nat, j: nat)
    requires PairsSettled(lim, D0, queue0) && Worked(lim, D0, D, queue0, [], at0, |D.trail|)
    requires Live(D, i) && Live(D, j) && i != j && Live(D0, i) && Live(D0, j) && Short(lim, D0.ca[i])
      && Short(lim, D0.ca[j])
    ensures Harmless(D.ca[i], D.ca[j]) || Harmless(D.ca[j], D.ca[i])
  {
    if i in queue0 || D.ca[i] != D0.ca[i] {
      assert Tried(lim, D0.ca, D, D.ca[i], i);
    } else if j in queue0 || D.ca[j] != D0.ca[j] {
      assert Tried(lim, D0.ca, D, D.ca[j], j);
    }
  }

  /** There is nothing to find for backward subsumption. */
  ghost predicate Idle(lim: int, D: Db) {
    && (forall k: nat :: Live(D, k) ==> Tried(lim, D.ca, D, D.ca[k], k))
    && forall l :: l in D.trail ==> Tried(lim, D.ca, D, [l], -1)
  }

  lemma IdleTried(lim: int, D: Db, c: Clause, k: int)
    requires Source(D, c, k) && -1 <= k
    ensures Idle(lim, D) ==> Tried(lim, D.ca, D, c, k)
  {
    assert k < 0 ==> c == [c[0]];
  }

  // ----- touched variables -----

  ghost predicate Touched(touched: seq<bool>, c: Clause) {
    exists l :: l in c && l.v < |touched| && touched[l.v]
  }

  /** A clause that is not queued and has no touched variable is harmless for all short ones. */
  ghost predicate Covered(lim: int, D: Db, queue: seq<nat>, touched: seq<bool>) {
    forall i: nat, j: nat {:trigger Harmless(D.ca[i], D.ca[j])} ::
      Live(D, i) && Live(D, j) && i != j && i !in queue && !Touched(touched, D.ca[i]) && Short(lim, D.ca[j])
      ==> Harmless(D.ca[i], D.ca[j])
  }

  /** A finished run keeps that. */
  lemma RunCovers(lim: int, D0: Db, D: Db, queue0: seq<nat>, at0: nat, touched: seq<bool>)
    requires Covered(lim, D0, queue0, touched) && Worked(lim, D0, D, queue0, [], at0, |D.trail|) && Reduced(lim, D0, D)
    ensures Covered(lim, D, [], touched)
  {
    forall i: nat, j: nat | Live(D, i) && Live(D, j) && i != j && !Touched(touched, D.ca[i]) && Short(lim, D.ca[j])
      ensures Harmless(D.ca[i], D.ca[j])
    {
      ShortBefore(lim, D0, D, j);
      if i in queue0 || D.ca[i] != D0.ca[i] {
        assert Tried(lim, D0.ca, D, D.ca[i], i);
      } else {
        assert Live(D0, i) && Harmless(D0.ca[i], D0.ca[j]);
        HarmlessShrunk(D.ca[i], D0.ca[j], D.ca[j]);
      }
    }
  }

  /** When nothing is queued or touched, there is nothing to find. */
  lemma NothingToFind(lim: int, D: Db, touched: seq<bool>)
    requires Settling(lim, D, [], |D.trail|) && Covered(lim, D, [], touched)
    requires forall v :: 0 <= v < |touched| ==> !touched[v]
    ensures Idle(lim, D)
  {
    SettlingMeans(lim, D, [], |D.trail|);
    forall k: nat, i: nat | Live(D, k) && Live(D, i) && i != k && Short(lim, D.ca[i])
      ensures Harmless(D.ca[k], D.ca[i]) {
      assert !Touched(touched, D.ca[k]);
    }
    forall l, i: nat | l in D.trail && Live(D, i) && Short(lim, D.ca[i]) ensures Harmless([l], D.ca[i]) {
      var t :| 0 <= t < |D.trail| && D.trail[t] == l;
      assert LitSettled(lim, D, D.trail[t]);
    }
  }

  /** More in the queue, and fewer clauses, and variables untouched whose clauses are queued. */
  lemma StillCovered(lim: int, D: Db, D': Db, queue: seq<nat>, queue': seq<nat>, touched: seq<bool>,
      touched': seq<bool>)
    requires Covered(lim, D, queue, touched) && D'.ca == D.ca && (forall i :: i in queue ==> i in queue')
    requires forall i: nat :: Live(D', i) ==>
      Live(D, i) && (Touched(touched, D.ca[i]) ==> Touched(touched', D.ca[i]) || i in queue')
    ensures Covered(lim, D', queue', touched')
  {
  }

  lemma StillSettling(lim: int, D: Db, queue: seq<nat>, queue': seq<nat>, at: nat)
    requires Settling(lim, D, queue, at) && forall i :: i in queue ==> i in queue'
    ensures Settling(lim, D, queue', at)
  {
    SettlingMeans(lim, D, queue, at);
    SettlingMeans(lim, D, queue', at);
  }
}
