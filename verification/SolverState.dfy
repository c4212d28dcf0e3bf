/** The solver's trail and watch lists as values, the invariants between them, and how each
    elementary change keeps them. */
module SolverStates {
  import opened SolverTypes

  const CREF_UNDEF: int := -1

  /** The assigned literals in order, where the decision levels begin, and what is stored for each
      variable: value, level, reason and place on the trail (the place is not stored by the original). */
  datatype Trail = Trail(lits: seq<Lit>, lim: seq<nat>, assigns: seq<LBool>, level: seq<nat>, reason: seq<int>,
    pos: seq<nat>)

  function ValueOf(b: LBool, l: Lit): LBool {
    match b
    case Undef => Undef
    case True => if l.neg then False else True
    case False => if l.neg then True else False
  }

  function Assigned(assigns: seq<LBool>, l: Lit): LBool {
    if l.v < |assigns| then ValueOf(assigns[l.v], l) else Undef
  }

  ghost function Val(T: Trail, l: Lit): LBool {
    Assigned(T.assigns, l)
  }

  ghost predicate TrailOk(T: Trail) {
    && |T.assigns| == |T.level| == |T.reason| == |T.pos|
    && (forall i :: 0 <= i < |T.lits| ==> OnTrail(T, i))
    && (forall v :: 0 <= v < |T.assigns| && T.assigns[v] != Undef ==> T.pos[v] < |T.lits| && T.lits[T.pos[v]].v == v)
    && (forall k :: 0 <= k < |T.lim| ==> T.lim[k] <= |T.lits|)
  }

  /** The i-th literal of the trail is true, knows its place, and has the level whose segment it is in. */
  ghost predicate OnTrail(T: Trail, i: nat)
    requires i < |T.lits| && |T.assigns| == |T.level| == |T.pos|
  {
    var l := T.lits[i];
    && l.v < |T.assigns| && Val(T, l) == True && T.pos[l.v] == i && T.level[l.v] <= |T.lim|
    && forall k :: 0 <= k < |T.lim| ==> (T.lim[k] <= i <==> T.level[l.v] > k)
  }

  lemma TrailBound(T: Trail)
    requires TrailOk(T)
    ensures |T.lits| <= |T.assigns|
  {
    var vars := Range(|T.assigns|);
    DistinctPlaces(T, |T.lits|);
    var used := set i | 0 <= i < |T.lits| :: T.lits[i].v;
    forall v | v in used ensures v in vars {
      var i :| 0 <= i < |T.lits| && T.lits[i].v == v;
      assert OnTrail(T, i);
    }
    Smaller(used, vars);
  }

  lemma {:induction false} DistinctPlaces(T: Trail, n: nat)
    requires TrailOk(T) && n <= |T.lits|
    ensures |set i | 0 <= i < n :: T.lits[i].v| == n
  {
    if n > 0 {
      DistinctPlaces(T, n - 1);
      var less, all := set i | 0 <= i < n - 1 :: T.lits[i].v, set i | 0 <= i < n :: T.lits[i].v;
      assert all == less + {T.lits[n - 1].v};
      forall i | 0 <= i < n - 1 ensures T.lits[i].v != T.lits[n - 1].v {
        assert OnTrail(T, i) && OnTrail(T, n - 1);
      }
    }
  }

  ghost function Range(n: nat): (r: set<nat>)
    ensures |r| == n
    ensures forall v: nat :: v in r <==> v < n
  {
    if n == 0 then {} else Range(n - 1) + {n - 1}
  }

  lemma {:induction false} Smaller(a: set<nat>, b: set<nat>)
    requires a <= b
    ensures |a| <= |b|
  {
    if a != {} {
      var x :| x in a;
      Smaller(a - {x}, b - {x});
    }
  }

  // ----- reasons -----

  /** The reason of the i-th literal is a clause that forces it: the other literals were made false
      earlier, one of them at the same level. Clauses of three and more literals have the forced
      literal in front. */
  ghost predicate Forced(T: Trail, ca: seq<Clause>, i: nat)
    requires TrailOk(T) && i < |T.lits|
  {
    var l := T.lits[i];
    assert OnTrail(T, i);
    var r := T.reason[l.v];
    r == CREF_UNDEF || (0 <= r < |ca| && Forces(T, ca[r], i))
  }

  ghost predicate Forces(T: Trail, c: Clause, i: nat)
    requires TrailOk(T) && i < |T.lits|
  {
    && T.lits[i] in c && (|c| > 2 ==> c[0] == T.lits[i])
    && (forall l :: l in c && l != T.lits[i] ==> FalseBefore(T, l, i))
    && exists l :: l in c && l != T.lits[i] && SameLevel(T, l, T.lits[i])
  }

  ghost predicate SameLevel(T: Trail, l: Lit, k: Lit) {
    l.v < |T.level| && k.v < |T.level| && T.level[l.v] == T.level[k.v]
  }

  ghost predicate FalseBefore(T: Trail, l: Lit, i: nat)
    requires TrailOk(T)
  {
    Val(T, l) == False && T.pos[l.v] < i
  }

  ghost predicate ReasonsOk(T: Trail, ca: seq<Clause>) {
    TrailOk(T) && forall i :: 0 <= i < |T.lits| ==> Forced(T, ca, i)
  }

  // ----- watch lists -----

  datatype Watcher = Watcher(cref: nat, blocker: Lit)

  type Lists = map<Lit, seq<Watcher>>

  /** The list of a literal: watchers of clauses to be looked at when the literal becomes true. */
  function At(W: Lists, q: Lit): seq<Watcher> {
    if q in W then W[q] else []
  }

  ghost predicate Clauses(ca: seq<Clause>, n: nat) {
    forall cr :: 0 <= cr < |ca| ==> ClauseOk(ca[cr], n)
  }

  ghost predicate ClauseOk(c: Clause, n: nat) {
    |c| >= 2 && DistinctLits(c) && forall l :: l in c ==> l.v < n
  }

  ghost predicate Has(ws: seq<Watcher>, cr: nat) {
    exists i :: 0 <= i < |ws| && ws[i].cref == cr
  }

  /** A watcher of a long clause: one of its first two literals is the one that became false. */
  ghost predicate LongWatcher(ca: seq<Clause>, q: Lit, w: Watcher) {
    && w.cref < |ca| && |ca[w.cref]| > 2 && w.blocker in ca[w.cref]
    && (ca[w.cref][0] == Neg(q) || ca[w.cref][1] == Neg(q))
  }

  ghost predicate LongList(ca: seq<Clause>, q: Lit, ws: seq<Watcher>) {
    && (forall i :: 0 <= i < |ws| ==> LongWatcher(ca, q, ws[i]))
    && (forall i, j :: 0 <= i < j < |ws| ==> ws[i].cref != ws[j].cref)
  }

  /** Both watched literals of every long clause watch it. */
  ghost predicate Watched(ca: seq<Clause>, W: Lists, cr: nat)
    requires cr < |ca|
  {
    |ca[cr]| > 2 ==> Has(At(W, Neg(ca[cr][0])), cr) && Has(At(W, Neg(ca[cr][1])), cr)
  }

  ghost predicate LongOk(ca: seq<Clause>, W: Lists) {
    && (forall q :: LongList(ca, q, At(W, q)))
    && (forall cr :: 0 <= cr < |ca| ==> Watched(ca, W, cr))
  }

  ghost predicate BinWatcher(ca: seq<Clause>, q: Lit, w: Watcher) {
    w.cref < |ca| && (ca[w.cref] == [Neg(q), w.blocker] || ca[w.cref] == [w.blocker, Neg(q)])
  }

  ghost predicate BinWatched(ca: seq<Clause>, B: Lists, cr: nat)
    requires cr < |ca|
  {
    |ca[cr]| == 2 ==> Watcher(cr, ca[cr][1]) in At(B, Neg(ca[cr][0])) && Watcher(cr, ca[cr][0]) in At(B, Neg(ca[cr][1]))
  }

  ghost predicate BinOk(ca: seq<Clause>, B: Lists) {
    && (forall q, i :: 0 <= i < |At(B, q)| ==> BinWatcher(ca, q, At(B, q)[i]))
    && (forall cr :: 0 <= cr < |ca| ==> BinWatched(ca, B, cr))
  }

  // ----- what the watch lists guarantee -----

  /** The literal is true and was taken from the queue. */
  ghost predicate Processed(T: Trail, qhead: nat, q: Lit)
    requires TrailOk(T)
  {
    Val(T, q) == True && T.pos[q.v] < qhead
  }

  /** The blocker makes its clause true, and will as long as q stays on the trail. */
  ghost predicate Blocks(T: Trail, q: Lit, b: Lit)
    requires TrailOk(T) && q.v < |T.assigns|
  {
    Val(T, b) == True && T.level[b.v] <= T.level[q.v]
  }

  ghost predicate Quiet(T: Trail, q: Lit, ws: seq<Watcher>)
    requires TrailOk(T) && q.v < |T.assigns|
  {
    forall i :: 0 <= i < |ws| ==> Blocks(T, q, ws[i].blocker)
  }

  /** All lists of processed literals of levels below the bound are quiet; those of the literals in
      except may not be yet. */
  ghost predicate Settled(T: Trail, qhead: nat, W: Lists, bound: nat, except: set<Lit>)
    requires TrailOk(T)
  {
    forall q :: Processed(T, qhead, q) && T.level[q.v] < bound && q !in except ==> Quiet(T, q, At(W, q))
  }

  /** What is still in the queue was assigned at the current level. */
  ghost predicate QueueCurrent(T: Trail, qhead: nat)
    requires TrailOk(T)
  {
    qhead <= |T.lits| && forall i :: qhead <= i < |T.lits| ==>
      T.lits[i].v < |T.level| && T.level[T.lits[i].v] == |T.lim|
  }

  // ----- completeness of propagation -----

  /** A clause that propagation has nothing to do for. */
  ghost predicate NoWork(T: Trail, c: Clause) {
    || (exists l :: l in c && Val(T, l) == True)
    || (exists i, j :: 0 <= i < j < |c| && Val(T, c[i]) == Undef && Val(T, c[j]) == Undef)
  }

  /** When the queue is empty, no clause is false or unit. */
  lemma Complete(T: Trail, ca: seq<Clause>, W: Lists, B: Lists, cr: nat)
    requires TrailOk(T) && Clauses(ca, |T.assigns|) && LongOk(ca, W) && BinOk(ca, B) && cr < |ca|
    requires Settled(T, |T.lits|, W, |T.lim| + 1, {}) && Settled(T, |T.lits|, B, |T.lim| + 1, {})
    ensures NoWork(T, ca[cr])
  {
    var c := ca[cr];
    assert ClauseOk(c, |T.assigns|) && c[0] in c && c[1] in c;
    if Val(T, c[0]) == False {
      WatchedTrue(T, ca, W, B, cr, 0);
    } else if Val(T, c[1]) == False {
      WatchedTrue(T, ca, W, B, cr, 1);
    }
  }

  /** A clause with a false watched literal has a true literal. */
  lemma WatchedTrue(T: Trail, ca: seq<Clause>, W: Lists, B: Lists, cr: nat, s: nat)
    requires TrailOk(T) && LongOk(ca, W) && BinOk(ca, B) && cr < |ca| && |ca[cr]| >= 2 && s < 2
    requires Settled(T, |T.lits|, W, |T.lim| + 1, {}) && Settled(T, |T.lits|, B, |T.lim| + 1, {})
    requires ca[cr][s].v < |T.assigns| && Val(T, ca[cr][s]) == False
    ensures exists l :: l in ca[cr] && Val(T, l) == True
  {
    var c, q := ca[cr], Neg(ca[cr][s]);
    assert OnTrail(T, T.pos[q.v]);
    assert Processed(T, |T.lits|, q);
    if |c| > 2 {
      assert LongList(ca, q, At(W, q)) && Watched(ca, W, cr);
      LongTrue(T, ca, q, At(W, q), cr);
    } else {
      assert BinWatched(ca, B, cr) && Quiet(T, q, At(B, q));
      BinTrue(T, q, At(B, q), Watcher(cr, c[1 - s]));
    }
  }

  lemma LongTrue(T: Trail, ca: seq<Clause>, q: Lit, ws: seq<Watcher>, cr: nat)
    requires TrailOk(T) && q.v < |T.assigns| && LongList(ca, q, ws) && Has(ws, cr) && Quiet(T, q, ws) && cr < |ca|
    ensures exists l :: l in ca[cr] && Val(T, l) == True
  {
    var i :| 0 <= i < |ws| && ws[i].cref == cr;
    assert LongWatcher(ca, q, ws[i]) && Blocks(T, q, ws[i].blocker);
  }

  lemma BinTrue(T: Trail, q: Lit, ws: seq<Watcher>, w: Watcher)
    requires TrailOk(T) && q.v < |T.assigns| && w in ws && Quiet(T, q, ws)
    ensures Val(T, w.blocker) == True
  {
    var i :| 0 <= i < |ws| && ws[i] == w;
    assert Blocks(T, q, ws[i].blocker);
  }

  // ----- one more literal on the trail -----

  ghost function Push(T: Trail, l: Lit, from: int): Trail
    requires TrailOk(T) && l.v < |T.assigns|
  {
    Trail(T.lits + [l], T.lim, T.assigns[l.v := if l.neg then False else True], T.level[l.v := |T.lim|],
          T.reason[l.v := from], T.pos[l.v := |T.lits|])
  }

  /** Everything assigned stays as it is. */
  ghost predicate Grows(T: Trail, T': Trail) {
    && TrailOk(T) && TrailOk(T') && T.lits <= T'.lits && T.lim == T'.lim && |T.assigns| == |T'.assigns|
    && forall v :: 0 <= v < |T.assigns| && T.assigns[v] != Undef ==>
                     T'.assigns[v] == T.assigns[v] && T'.level[v] == T.level[v] && T'.reason[v] == T.reason[v]
                       && T'.pos[v] == T.pos[v]
  }

  lemma PushOk(T: Trail, l: Lit, from: int)
    requires TrailOk(T) && l.v < |T.assigns| && Val(T, l) == Undef
    ensures TrailOk(Push(T, l, from)) && Grows(T, Push(T, l, from)) && Val(Push(T, l, from), l) == True
  {
    var T' := Push(T, l, from);
    forall i | 0 <= i < |T'.lits| ensures OnTrail(T', i) {
      if i < |T.lits| {
        assert OnTrail(T, i);
      }
    }
  }

  lemma GrowsTrans(T: Trail, T': Trail, T'': Trail)
    requires Grows(T, T') && Grows(T', T'')
    ensures Grows(T, T'')
  {
  }

  lemma PushQueue(T: Trail, qhead: nat, l: Lit, from: int)
    requires TrailOk(T) && l.v < |T.assigns| && Val(T, l) == Undef && QueueCurrent(T, qhead)
    ensures TrailOk(Push(T, l, from)) && QueueCurrent(Push(T, l, from), qhead)
  {
    PushOk(T, l, from);
    var T' := Push(T, l, from);
    forall i | qhead <= i < |T'.lits| ensures T'.lits[i].v < |T'.level| && T'.level[T'.lits[i].v] == |T'.lim| {
      if i < |T.lits| {
        assert OnTrail(T, i);
      }
    }
  }

  lemma PushForced(T: Trail, ca: seq<Clause>, l: Lit, from: int)
    requires ReasonsOk(T, ca) && l.v < |T.assigns| && Val(T, l) == Undef
    requires from == CREF_UNDEF || (0 <= from < |ca| && l in ca[from] && (|ca[from]| > 2 ==> ca[from][0] == l)
                                    && (forall x :: x in ca[from] && x != l ==> Val(T, x) == False)
                                    && HasLevel(T, ca[from], l))
    ensures ReasonsOk(Push(T, l, from), ca)
  {
    PushOk(T, l, from);
    var T' := Push(T, l, from);
    forall i | 0 <= i < |T'.lits| ensures Forced(T', ca, i) {
      if i < |T.lits| {
        assert OnTrail(T, i) && Forced(T, ca, i);
        GrowsForced(T, T', ca, i);
      } else if from != CREF_UNDEF {
        forall x | x in ca[from] && x != l ensures FalseBefore(T', x, i) {
        }
        var x :| x in ca[from] && x != l && x.v < |T.level| && T.level[x.v] == |T.lim|;
        assert Val(T, x) == False && SameLevel(T', x, l);
      }
    }
  }

  /** A literal of the clause, other than l, is of the current level. */
  ghost predicate HasLevel(T: Trail, c: Clause, l: Lit) {
    exists x :: x in c && x != l && x.v < |T.level| && T.level[x.v] == |T.lim|
  }

  lemma GrowsForced(T: Trail, T': Trail, ca: seq<Clause>, i: nat)
    requires Grows(T, T') && i < |T.lits| && Forced(T, ca, i)
    ensures Forced(T', ca, i)
  {
    assert OnTrail(T, i);
    var r := T.reason[T.lits[i].v];
    if r != CREF_UNDEF {
      forall l | l in ca[r] && l != T.lits[i] ensures FalseBefore(T', l, i) {
        assert FalseBefore(T, l, i);
      }
      var x :| x in ca[r] && x != T.lits[i] && SameLevel(T, x, T.lits[i]);
      assert FalseBefore(T, x, i) && SameLevel(T', x, T'.lits[i]);
    }
  }

  lemma GrowsBlocks(T: Trail, T': Trail, q: Lit, b: Lit)
    requires Grows(T, T') && q.v < |T.assigns| && T.assigns[q.v] != Undef && Blocks(T, q, b)
    ensures Blocks(T', q, b)
  {
  }

  lemma GrowsSettled(T: Trail, T': Trail, qhead: nat, W: Lists, bound: nat, except: set<Lit>)
    requires Grows(T, T') && qhead <= |T.lits| && Settled(T, qhead, W, bound, except)
    ensures Settled(T', qhead, W, bound, except)
  {
    forall q | Processed(T', qhead, q) && T'.level[q.v] < bound && q !in except ensures Quiet(T', q, At(W, q)) {
      assert OnTrail(T', T'.pos[q.v]) && OnTrail(T, T'.pos[q.v]);
      assert Processed(T, qhead, q) && Quiet(T, q, At(W, q));
      forall i | 0 <= i < |At(W, q)| ensures Blocks(T', q, At(W, q)[i].blocker) {
        GrowsBlocks(T, T', q, At(W, q)[i].blocker);
      }
    }
  }

  // ----- literals change places inside a clause -----

  /** The same literals in another order. */
  ghost predicate SameLits(c: Clause, c': Clause) {
    |c| == |c'| && forall l :: l in c <==> l in c'
  }

  ghost predicate SameClauses(ca: seq<Clause>, ca': seq<Clause>) {
    |ca| == |ca'| && forall cr :: 0 <= cr < |ca| ==> SameLits(ca[cr], ca'[cr])
  }

  lemma SameTrans(ca: seq<Clause>, ca': seq<Clause>, ca'': seq<Clause>)
    requires SameClauses(ca, ca') && SameClauses(ca', ca'')
    ensures SameClauses(ca, ca'')
  {
    forall cr | 0 <= cr < |ca| ensures SameLits(ca[cr], ca''[cr]) {
      assert SameLits(ca[cr], ca'[cr]) && SameLits(ca'[cr], ca''[cr]);
    }
  }

  function Exchange(c: Clause, i: nat, j: nat): (r: Clause)
    requires i < |c| && j < |c|
    ensures |r| == |c|
  {
    c[i := c[j]][j := c[i]]
  }

  lemma ExchangeSame(c: Clause, i: nat, j: nat)
    requires i < |c| && j < |c|
    ensures SameLits(c, Exchange(c, i, j)) && (DistinctLits(c) ==> DistinctLits(Exchange(c, i, j)))
  {
    var r := Exchange(c, i, j);
    forall l | l in c ensures l in r {
      var k :| 0 <= k < |c| && c[k] == l;
      assert r[if k == i then j else if k == j then i else k] == l;
    }
  }

  /** Exchanging literals of one clause. */
  lemma ReplaceClause(ca: seq<Clause>, cr: nat, c: Clause, n: nat)
    requires Clauses(ca, n) && cr < |ca| && SameLits(ca[cr], c) && DistinctLits(c)
    ensures Clauses(ca[cr := c], n) && SameClauses(ca, ca[cr := c])
  {
    assert ClauseOk(ca[cr], n) && ClauseOk(c, n);
    forall k | 0 <= k < |ca| ensures SameLits(ca[k], ca[cr := c][k]) && ClauseOk(ca[cr := c][k], n) {
      assert ClauseOk(ca[k], n);
    }
  }

  /** A clause may be reordered if its front literal stays or is false: then it is no reason. */
  lemma ReasonsStay(T: Trail, ca: seq<Clause>, cr: nat, c: Clause)
    requires ReasonsOk(T, ca) && cr < |ca| && SameLits(ca[cr], c) && |c| >= 2
    requires |c| > 2 ==> c[0] == ca[cr][0] || Val(T, ca[cr][0]) == False
    ensures ReasonsOk(T, ca[cr := c])
  {
    var ca' := ca[cr := c];
    forall i | 0 <= i < |T.lits| ensures Forced(T, ca', i) {
      assert OnTrail(T, i) && Forced(T, ca, i);
    }
  }

  /** The two watched literals change places. */
  lemma SwapWatched(ca: seq<Clause>, W: Lists, B: Lists, cr: nat)
    requires LongOk(ca, W) && BinOk(ca, B) && cr < |ca| && |ca[cr]| >= 2
    ensures LongOk(ca[cr := Exchange(ca[cr], 0, 1)], W) && BinOk(ca[cr := Exchange(ca[cr], 0, 1)], B)
  {
    var c := Exchange(ca[cr], 0, 1);
    var ca' := ca[cr := c];
    ExchangeSame(ca[cr], 0, 1);
    forall q ensures LongList(ca', q, At(W, q)) {
      SwapList(ca, q, At(W, q), cr);
    }
    forall k | 0 <= k < |ca'| ensures Watched(ca', W, k) && BinWatched(ca', B, k) {
      assert Watched(ca, W, k) && BinWatched(ca, B, k);
    }
    forall q, i | 0 <= i < |At(B, q)| ensures BinWatcher(ca', q, At(B, q)[i]) {
      assert BinWatcher(ca, q, At(B, q)[i]);
    }
  }

  lemma SwapList(ca: seq<Clause>, q: Lit, ws: seq<Watcher>, cr: nat)
    requires LongList(ca, q, ws) && cr < |ca| && |ca[cr]| >= 2
    ensures LongList(ca[cr := Exchange(ca[cr], 0, 1)], q, ws)
  {
    ExchangeSame(ca[cr], 0, 1);
    forall i | 0 <= i < |ws| ensures LongWatcher(ca[cr := Exchange(ca[cr], 0, 1)], q, ws[i]) {
      assert LongWatcher(ca, q, ws[i]);
    }
  }

  // ----- one list is rewritten -----

  lemma HasAppend(a: seq<Watcher>, b: seq<Watcher>, cr: nat)
    ensures Has(a + b, cr) <==> Has(a, cr) || Has(b, cr)
  {
    if Has(a, cr) {
      var i :| 0 <= i < |a| && a[i].cref == cr;
      assert (a + b)[i].cref == cr;
    }
    if Has(b, cr) {
      var i :| 0 <= i < |b| && b[i].cref == cr;
      assert (a + b)[|a| + i].cref == cr;
    }
    if Has(a + b, cr) {
      var i :| 0 <= i < |a + b| && (a + b)[i].cref == cr;
      assert i < |a| ==> a[i].cref == cr;
      assert i >= |a| ==> b[i - |a|].cref == cr;
    }
  }

  lemma HasOne(w: Watcher, cr: nat)
    ensures Has([w], cr) <==> w.cref == cr
  {
    assert [w][0] == w;
  }

  /** A watcher gets another blocker. */
  lemma KeepWatcher(ca: seq<Clause>, W: Lists, p: Lit, d: seq<Watcher>, x: Watcher, w: Watcher, r: seq<Watcher>)
    requires LongOk(ca, W) && At(W, p) == d + [x] + r && w.cref == x.cref && w.cref < |ca| && w.blocker in ca[w.cref]
    ensures LongOk(ca, W[p := d + [w] + r])
  {
    var W' := W[p := d + [w] + r];
    assert LongList(ca, p, d + [x] + r);
    KeepList(ca, p, d, x, w, r);
    forall q ensures LongList(ca, q, At(W', q)) {
      assert LongList(ca, q, At(W, q));
    }
    forall cr | 0 <= cr < |ca| ensures Watched(ca, W', cr) {
      assert Watched(ca, W, cr);
      KeepHas(d, x, w, r, cr);
    }
  }

  lemma KeepHas(d: seq<Watcher>, x: Watcher, w: Watcher, r: seq<Watcher>, cr: nat)
    requires w.cref == x.cref
    ensures Has(d + [w] + r, cr) <==> Has(d + [x] + r, cr)
  {
    HasAppend(d + [w], r, cr);
    HasAppend(d + [x], r, cr);
    HasAppend(d, [w], cr);
    HasAppend(d, [x], cr);
    HasOne(w, cr);
    HasOne(x, cr);
  }

  lemma KeepList(ca: seq<Clause>, p: Lit, d: seq<Watcher>, x: Watcher, w: Watcher, r: seq<Watcher>)
    requires LongList(ca, p, d + [x] + r) && w.cref == x.cref && w.cref < |ca| && w.blocker in ca[w.cref]
    ensures LongList(ca, p, d + [w] + r)
  {
    var a, b := d + [x] + r, d + [w] + r;
    forall i | 0 <= i < |b| ensures LongWatcher(ca, p, b[i]) {
      assert LongWatcher(ca, p, a[i]);
      assert i != |d| ==> a[i] == b[i];
    }
    forall i, j | 0 <= i < j < |b| ensures b[i].cref != b[j].cref {
      assert a[i].cref == b[i].cref && a[j].cref == b[j].cref;
    }
  }

  /** The watcher at d moves to the list of the new watched literal. */
  ghost function Moved(W: Lists, p: Lit, d: seq<Watcher>, r: seq<Watcher>, q: Lit, w: Watcher): Lists {
    W[p := d + r][q := At(W, q) + [w]]
  }

  lemma MoveWatcher(ca: seq<Clause>, W: Lists, p: Lit, d: seq<Watcher>, x: Watcher, w: Watcher, r: seq<Watcher>, k: nat,
      n: nat)
    requires LongOk(ca, W) && Clauses(ca, n) && At(W, p) == d + [x] + r && w.cref == x.cref < |ca|
    requires 2 <= k < |ca[x.cref]| && ca[x.cref][1] == Neg(p) && w.blocker in ca[w.cref]
    ensures LongOk(ca[x.cref := Exchange(ca[x.cref], 1, k)], Moved(W, p, d, r, Neg(ca[x.cref][k]), w))
  {
    var cr, c := x.cref, ca[x.cref];
    var c', q := Exchange(c, 1, k), Neg(c[k]);
    var ca', W' := ca[cr := c'], Moved(W, p, d, r, q, w);
    ExchangeSame(c, 1, k);
    assert ClauseOk(c, n) && q != p;
    forall u ensures LongList(ca', u, At(W', u)) {
      MoveList(ca, W, p, d, x, w, r, k, n, u);
    }
    forall j | 0 <= j < |ca| ensures Watched(ca', W', j) {
      MoveCovers(ca, W, p, d, x, w, r, k, n, j);
    }
  }

  lemma MoveList(ca: seq<Clause>, W: Lists, p: Lit, d: seq<Watcher>, x: Watcher, w: Watcher, r: seq<Watcher>, k: nat,
      n: nat, u: Lit)
    requires LongOk(ca, W) && Clauses(ca, n) && At(W, p) == d + [x] + r && w.cref == x.cref < |ca|
    requires 2 <= k < |ca[x.cref]| && ca[x.cref][1] == Neg(p) && w.blocker in ca[w.cref]
    ensures LongList(ca[x.cref := Exchange(ca[x.cref], 1, k)], u, At(Moved(W, p, d, r, Neg(ca[x.cref][k]), w), u))
  {
    var cr, c := x.cref, ca[x.cref];
    var q := Neg(c[k]);
    assert LongList(ca, u, At(W, u)) && LongList(ca, p, d + [x] + r) && ClauseOk(c, n);
    ExchangeSame(c, 1, k);
    if u == q {
      NotAmong(ca, u, At(W, u), cr);
      OthersStay(ca, u, At(W, u), cr, k);
      AddToList(ca[cr := Exchange(c, 1, k)], u, At(W, u), w);
    } else if u == p {
      DropFromList(ca, p, d, x, r);
      OthersStay(ca, u, d + r, cr, k);
    } else if Neg(u) == c[0] {
      FrontStays(ca, u, At(W, u), cr, k);
    } else {
      NotAmong(ca, u, At(W, u), cr);
      OthersStay(ca, u, At(W, u), cr, k);
    }
  }

  /** A clause is only on the lists of its first two literals. */
  lemma NotAmong(ca: seq<Clause>, u: Lit, ws: seq<Watcher>, cr: nat)
    requires LongList(ca, u, ws) && cr < |ca| && |ca[cr]| > 2 && Neg(u) != ca[cr][0] && Neg(u) != ca[cr][1]
    ensures !Has(ws, cr)
  {
    forall i | 0 <= i < |ws| ensures ws[i].cref != cr {
      assert LongWatcher(ca, u, ws[i]);
    }
  }

  lemma OthersStay(ca: seq<Clause>, u: Lit, ws: seq<Watcher>, cr: nat, k: nat)
    requires LongList(ca, u, ws) && cr < |ca| && 2 <= k < |ca[cr]| && !Has(ws, cr)
    ensures LongList(ca[cr := Exchange(ca[cr], 1, k)], u, ws)
  {
    forall i | 0 <= i < |ws| ensures LongWatcher(ca[cr := Exchange(ca[cr], 1, k)], u, ws[i]) {
      assert LongWatcher(ca, u, ws[i]) && ws[i].cref != cr;
    }
  }

  lemma FrontStays(ca: seq<Clause>, u: Lit, ws: seq<Watcher>, cr: nat, k: nat)
    requires LongList(ca, u, ws) && cr < |ca| && 2 <= k < |ca[cr]| && Neg(u) == ca[cr][0]
    ensures LongList(ca[cr := Exchange(ca[cr], 1, k)], u, ws)
  {
    ExchangeSame(ca[cr], 1, k);
    forall i | 0 <= i < |ws| ensures LongWatcher(ca[cr := Exchange(ca[cr], 1, k)], u, ws[i]) {
      assert LongWatcher(ca, u, ws[i]);
    }
  }

  lemma AddToList(ca: seq<Clause>, u: Lit, ws: seq<Watcher>, w: Watcher)
    requires LongList(ca, u, ws) && LongWatcher(ca, u, w) && !Has(ws, w.cref)
    ensures LongList(ca, u, ws + [w])
  {
  }

  lemma DropFromList(ca: seq<Clause>, p: Lit, d: seq<Watcher>, x: Watcher, r: seq<Watcher>)
    requires LongList(ca, p, d + [x] + r)
    ensures LongList(ca, p, d + r) && !Has(d + r, x.cref)
    ensures forall cr :: cr != x.cref && Has(d + [x] + r, cr) ==> Has(d + r, cr)
  {
    var a, b := d + [x] + r, d + r;
    forall i | 0 <= i < |b| ensures LongWatcher(ca, p, b[i]) && b[i].cref != x.cref {
      var i' := if i < |d| then i else i + 1;
      assert a[i'] == b[i] && LongWatcher(ca, p, a[i']) && a[|d|] == x;
    }
    forall i, j | 0 <= i < j < |b| ensures b[i].cref != b[j].cref {
      var i', j' := if i < |d| then i else i + 1, if j < |d| then j else j + 1;
      assert a[i'] == b[i] && a[j'] == b[j];
    }
    forall cr | cr != x.cref && Has(a, cr) ensures Has(b, cr) {
      var i :| 0 <= i < |a| && a[i].cref == cr;
      assert b[if i < |d| then i else i - 1] == a[i];
    }
  }

  lemma MoveCovers(ca: seq<Clause>, W: Lists, p: Lit, d: seq<Watcher>, x: Watcher, w: Watcher, r: seq<Watcher>, k: nat,
      n: nat, j: nat)
    requires LongOk(ca, W) && Clauses(ca, n) && At(W, p) == d + [x] + r && w.cref == x.cref < |ca| && j < |ca|
    requires 2 <= k < |ca[x.cref]| && ca[x.cref][1] == Neg(p) && w.blocker in ca[w.cref]
    ensures Watched(ca[x.cref := Exchange(ca[x.cref], 1, k)], Moved(W, p, d, r, Neg(ca[x.cref][k]), w), j)
  {
    var c, q := ca[x.cref], Neg(ca[x.cref][k]);
    assert Watched(ca, W, j) && ClauseOk(c, n) && LongList(ca, p, d + [x] + r);
    if j != x.cref {
      if |ca[j]| > 2 {
        MovedHas(ca, W, p, d, x, w, r, q, Neg(ca[j][0]), j);
        MovedHas(ca, W, p, d, x, w, r, q, Neg(ca[j][1]), j);
      }
    } else {
      assert c[0] != c[1] && c[0] != c[k];
      MovedFront(W, p, d, r, q, w, Neg(c[0]));
    }
  }

  lemma MovedFront(W: Lists, p: Lit, d: seq<Watcher>, r: seq<Watcher>, q: Lit, w: Watcher, u: Lit)
    requires u != p && u != q && Has(At(W, u), w.cref)
    ensures Has(At(Moved(W, p, d, r, q, w), u), w.cref) && Has(At(Moved(W, p, d, r, q, w), q), w.cref)
  {
    HasAppend(At(W[p := d + r], q), [w], w.cref);
    HasAppend(At(W, q), [w], w.cref);
    HasOne(w, w.cref);
  }

  /** No other clause disappears from a list. */
  lemma MovedHas(ca: seq<Clause>, W: Lists, p: Lit, d: seq<Watcher>, x: Watcher, w: Watcher, r: seq<Watcher>, q: Lit,
      u: Lit, j: nat)
    requires LongList(ca, p, d + [x] + r) && At(W, p) == d + [x] + r && q != p && j != x.cref && Has(At(W, u), j)
    ensures Has(At(Moved(W, p, d, r, q, w), u), j)
  {
    DropFromList(ca, p, d, x, r);
    HasAppend(At(W, q), [w], j);
  }

  /** While a list is looked at, what becomes of the others does not matter to the quiet ones. */
  lemma MovedSettled(T: Trail, qhead: nat, W: Lists, bound: nat, p: Lit, d: seq<Watcher>, r: seq<Watcher>, q: Lit,
      w: Watcher)
    requires TrailOk(T) && Settled(T, qhead, W, bound, {p}) && Val(T, q) != True
    ensures Settled(T, qhead, Moved(W, p, d, r, q, w), bound, {p})
  {
    var W' := Moved(W, p, d, r, q, w);
    forall u | Processed(T, qhead, u) && T.level[u.v] < bound && u !in {p} ensures Quiet(T, u, At(W', u)) {
      assert At(W', u) == At(W, u) && Quiet(T, u, At(W, u));
    }
  }

  lemma KeptSettled(T: Trail, qhead: nat, W: Lists, bound: nat, p: Lit, ws: seq<Watcher>)
    requires TrailOk(T) && Settled(T, qhead, W, bound, {p})
    ensures Settled(T, qhead, W[p := ws], bound, {p})
  {
    forall u | Processed(T, qhead, u) && T.level[u.v] < bound && u !in {p} ensures Quiet(T, u, At(W[p := ws], u)) {
      assert At(W[p := ws], u) == At(W, u) && Quiet(T, u, At(W, u));
    }
  }

  lemma NowQuiet(T: Trail, qhead: nat, W: Lists, bound: nat, p: Lit)
    requires TrailOk(T) && Settled(T, qhead, W, bound, {p}) && p.v < |T.assigns| && Quiet(T, p, At(W, p))
    ensures Settled(T, qhead, W, bound, {})
  {
    forall u | Processed(T, qhead, u) && T.level[u.v] < bound && u !in {} ensures Quiet(T, u, At(W, u)) {
      if u != p {
        assert u !in {p};
      }
    }
  }

  /** Taking the next literal from the queue. */
  lemma TakeSettled(T: Trail, qhead: nat, W: Lists, bound: nat)
    requires TrailOk(T) && qhead < |T.lits| && Settled(T, qhead, W, bound, {})
    ensures Settled(T, qhead + 1, W, bound, {T.lits[qhead]})
  {
    forall u | Processed(T, qhead + 1, u) && T.level[u.v] < bound && u !in {T.lits[qhead]}
      ensures Quiet(T, u, At(W, u)) {
      assert OnTrail(T, qhead) && OnTrail(T, T.pos[u.v]);
      assert u !in {} && Processed(T, qhead, u);
    }
  }

  /** After a conflict only the levels below the current one are settled, wherever the queue stands. */
  lemma BelowSettled(T: Trail, qhead: nat, qhead': nat, W: Lists, p: Lit, bound: nat)
    requires TrailOk(T) && QueueCurrent(T, qhead) && Settled(T, qhead, W, bound, {p}) && |T.lim| <= bound
    requires p.v < |T.level| && T.level[p.v] == |T.lim| && qhead <= qhead' <= |T.lits|
    ensures Settled(T, qhead', W, |T.lim|, {}) && QueueCurrent(T, qhead')
  {
    forall u | Processed(T, qhead', u) && T.level[u.v] < |T.lim| && u !in {} ensures Quiet(T, u, At(W, u)) {
      assert OnTrail(T, T.pos[u.v]);
      assert u !in {p} && Processed(T, qhead, u);
    }
  }

  // ----- backtracking -----

  /** Everything above the level is unassigned. */
  ghost function Cut(T: Trail, level: nat): Trail
    requires TrailOk(T) && level < |T.lim|
  {
    Trail(T.lits[..T.lim[level]], T.lim[..level],
          seq(|T.assigns|, v requires 0 <= v < |T.assigns| =>
                             if T.assigns[v] != Undef && T.pos[v] >= T.lim[level] then Undef else T.assigns[v]),
          T.level, T.reason, T.pos)
  }

  lemma CutOk(T: Trail, level: nat)
    requires TrailOk(T) && level < |T.lim|
    ensures TrailOk(Cut(T, level))
    ensures forall v :: 0 <= v < |T.assigns| && T.assigns[v] != Undef ==>
                          (Cut(T, level).assigns[v] == if T.level[v] > level then Undef else T.assigns[v])
  {
    var T' := Cut(T, level);
    forall v | 0 <= v < |T.assigns| && T.assigns[v] != Undef ensures T.pos[v] >= T.lim[level] <==> T.level[v] > level {
      assert OnTrail(T, T.pos[v]);
    }
    forall i | 0 <= i < |T'.lits| ensures OnTrail(T', i) {
      assert OnTrail(T, i);
    }
    forall k | 0 <= k < |T'.lim| ensures T'.lim[k] <= |T'.lits| {
      LevelsInOrder(T, k, level);
    }
  }

  lemma LevelsInOrder(T: Trail, k: nat, level: nat)
    requires TrailOk(T) && k <= level < |T.lim|
    ensures T.lim[k] <= T.lim[level]
  {
    if T.lim[level] < |T.lits| {
      assert OnTrail(T, T.lim[level]);
    }
  }

  lemma CutReasons(T: Trail, ca: seq<Clause>, level: nat)
    requires ReasonsOk(T, ca) && level < |T.lim|
    ensures TrailOk(Cut(T, level)) && ReasonsOk(Cut(T, level), ca)
  {
    CutOk(T, level);
    var T' := Cut(T, level);
    forall i | 0 <= i < |T'.lits| ensures Forced(T', ca, i) {
      assert OnTrail(T, i) && Forced(T, ca, i) && T'.lits[i] == T.lits[i];
      var r := T.reason[T.lits[i].v];
      if r != CREF_UNDEF {
        forall l | l in ca[r] && l != T.lits[i] ensures FalseBefore(T', l, i) {
          assert FalseBefore(T, l, i);
        }
        var x :| x in ca[r] && x != T.lits[i] && SameLevel(T, x, T.lits[i]);
        assert SameLevel(T', x, T'.lits[i]);
      }
    }
  }

  /** Backtracking restores what a conflict has left undone. */
  lemma CutSettled(T: Trail, qhead: nat, W: Lists, level: nat)
    requires TrailOk(T) && level < |T.lim| && QueueCurrent(T, qhead) && Settled(T, qhead, W, |T.lim|, {})
    ensures TrailOk(Cut(T, level)) && Settled(Cut(T, level), T.lim[level], W, level + 1, {})
    ensures QueueCurrent(Cut(T, level), T.lim[level])
  {
    CutOk(T, level);
    var T' := Cut(T, level);
    forall u | Processed(T', T.lim[level], u) && T'.level[u.v] < level + 1 && u !in {} ensures Quiet(T', u, At(W, u)) {
      assert OnTrail(T, T.pos[u.v]);
      assert Processed(T, qhead, u) && Quiet(T, u, At(W, u));
      forall i | 0 <= i < |At(W, u)| ensures Blocks(T', u, At(W, u)[i].blocker) {
        assert Blocks(T, u, At(W, u)[i].blocker);
      }
    }
  }

  // ----- the state as a whole -----

  /** Variables assigned without a reason are facts of level 0 or decisions, which open their level.
      All facts are true at level 0. */
  ghost predicate RootsOk(T: Trail, facts: set<Lit>)
    requires TrailOk(T)
  {
    && (forall i :: 0 <= i < |T.lits| ==> RootOk(T, facts, i))
    && (forall f :: f in facts ==> FactTrue(T, f))
  }

  ghost predicate FactTrue(T: Trail, f: Lit)
    requires TrailOk(T)
  {
    Val(T, f) == True && T.level[f.v] == 0
  }

  ghost predicate RootOk(T: Trail, facts: set<Lit>, i: nat)
    requires TrailOk(T) && i < |T.lits|
  {
    assert OnTrail(T, i);
    var v := T.lits[i].v;
    T.reason[v] == CREF_UNDEF ==> if T.level[v] == 0 then T.lits[i] in facts else T.lim[T.level[v] - 1] == i
  }

  /** The clauses, their watch lists and the trail fit together. */
  ghost predicate Base(T: Trail, ca: seq<Clause>, W: Lists, B: Lists, facts: set<Lit>) {
    ReasonsOk(T, ca) && RootsOk(T, facts) && Clauses(ca, |T.assigns|) && LongOk(ca, W) && BinOk(ca, B)
  }

  /** Propagation has done all it can for the processed literals of levels below the bound, except
      for those it is working on. */
  ghost predicate Upto(T: Trail, qhead: nat, W: Lists, B: Lists, bound: nat, except: set<Lit>)
    requires TrailOk(T)
  {
    QueueCurrent(T, qhead) && Settled(T, qhead, W, bound, except) && Settled(T, qhead, B, bound, except)
  }

  /** A clause is false, and one of its literals became false at the current level. */
  ghost predicate Conflict(T: Trail, ca: seq<Clause>, cr: int) {
    0 <= cr < |ca| && (forall l :: l in ca[cr] ==> Val(T, l) == False)
    && exists l :: l in ca[cr] && l.v < |T.level| && T.level[l.v] == |T.lim|
  }

  lemma PushRoots(T: Trail, facts: set<Lit>, l: Lit, from: int)
    requires TrailOk(T) && RootsOk(T, facts) && l.v < |T.assigns| && Val(T, l) == Undef
    requires from == CREF_UNDEF ==> if |T.lim| == 0 then l in facts else T.lim[|T.lim| - 1] == |T.lits|
    ensures TrailOk(Push(T, l, from)) && RootsOk(Push(T, l, from), facts)
  {
    PushOk(T, l, from);
    var T' := Push(T, l, from);
    forall i | 0 <= i < |T'.lits| ensures RootOk(T', facts, i) {
      if i < |T.lits| {
        assert OnTrail(T, i) && RootOk(T, facts, i);
      }
    }
    forall f | f in facts ensures FactTrue(T', f) {
      assert FactTrue(T, f);
    }
  }

  /** A clause whose other literals are false forces its last literal onto the trail. */
  lemma PushUnit(T: Trail, qhead: nat, ca: seq<Clause>, W: Lists, B: Lists, facts: set<Lit>, bound: nat,
      except: set<Lit>, l: Lit, cr: nat)
    requires TrailOk(T) && Base(T, ca, W, B, facts) && Upto(T, qhead, W, B, bound, except)
    requires l.v < |T.assigns| && Val(T, l) == Undef && cr < |ca| && l in ca[cr] && (|ca[cr]| > 2 ==> ca[cr][0] == l)
    requires (forall x :: x in ca[cr] && x != l ==> Val(T, x) == False) && HasLevel(T, ca[cr], l)
    ensures TrailOk(Push(T, l, cr)) && Base(Push(T, l, cr), ca, W, B, facts)
      && Upto(Push(T, l, cr), qhead, W, B, bound, except)
    ensures Grows(T, Push(T, l, cr))
  {
    PushOk(T, l, cr);
    PushForced(T, ca, l, cr);
    PushRoots(T, facts, l, cr);
    PushQueue(T, qhead, l, cr);
    GrowsSettled(T, Push(T, l, cr), qhead, W, bound, except);
    GrowsSettled(T, Push(T, l, cr), qhead, B, bound, except);
  }

  // ----- another clause -----

  /** The lists with two more watchers, each with the other literal as its blocker. */
  function WatchBoth(W: Lists, cr: nat, a: Lit, b: Lit): Lists {
    var W' := W[Neg(a) := At(W, Neg(a)) + [Watcher(cr, b)]];
    W'[Neg(b) := At(W', Neg(b)) + [Watcher(cr, a)]]
  }

  lemma AttachLong(ca: seq<Clause>, W: Lists, c: Clause)
    requires LongOk(ca, W) && |c| > 2 && DistinctLits(c)
    ensures LongOk(ca + [c], WatchBoth(W, |ca|, c[0], c[1]))
  {
    var ca', W' := ca + [c], WatchBoth(W, |ca|, c[0], c[1]);
    forall q ensures LongList(ca', q, At(W', q)) {
      AttachList(ca, W, c, q);
    }
    forall cr | 0 <= cr < |ca'| ensures Watched(ca', W', cr) {
      if cr < |ca| {
        assert Watched(ca, W, cr) && ca'[cr] == ca[cr];
        if |ca[cr]| > 2 {
          AttachHas(W, |ca|, c[0], c[1], Neg(ca[cr][0]), cr);
          AttachHas(W, |ca|, c[0], c[1], Neg(ca[cr][1]), cr);
        }
      } else {
        AttachNew(W, |ca|, c[0], c[1]);
      }
    }
  }

  lemma AttachHas(W: Lists, n: nat, a: Lit, b: Lit, q: Lit, cr: nat)
    requires Has(At(W, q), cr) && a != b
    ensures Has(At(WatchBoth(W, n, a, b), q), cr)
  {
    HasAppend(At(W, q), [Watcher(n, b)], cr);
    HasAppend(At(W, q), [Watcher(n, a)], cr);
  }

  lemma AttachNew(W: Lists, n: nat, a: Lit, b: Lit)
    requires a != b
    ensures Has(At(WatchBoth(W, n, a, b), Neg(a)), n) && Has(At(WatchBoth(W, n, a, b), Neg(b)), n)
  {
    HasAppend(At(W, Neg(a)), [Watcher(n, b)], n);
    HasAppend(At(W, Neg(b)), [Watcher(n, a)], n);
    HasOne(Watcher(n, a), n);
    HasOne(Watcher(n, b), n);
  }

  lemma AttachList(ca: seq<Clause>, W: Lists, c: Clause, q: Lit)
    requires LongOk(ca, W) && |c| > 2 && DistinctLits(c)
    ensures LongList(ca + [c], q, At(WatchBoth(W, |ca|, c[0], c[1]), q))
  {
    var ca', ws := ca + [c], At(W, q);
    assert LongList(ca, q, ws) && c[0] != c[1];
    forall i | 0 <= i < |ws| ensures LongWatcher(ca', q, ws[i]) && ws[i].cref < |ca| {
      assert LongWatcher(ca, q, ws[i]);
    }
    assert c[0] in c && c[1] in c && LongList(ca', q, ws);
    if q == Neg(c[0]) {
      AddToList(ca', q, ws, Watcher(|ca|, c[1]));
    } else if q == Neg(c[1]) {
      AddToList(ca', q, ws, Watcher(|ca|, c[0]));
    }
  }

  lemma AttachBin(ca: seq<Clause>, B: Lists, c: Clause)
    requires BinOk(ca, B) && |c| == 2 && DistinctLits(c)
    ensures BinOk(ca + [c], WatchBoth(B, |ca|, c[0], c[1]))
  {
    var ca', B' := ca + [c], WatchBoth(B, |ca|, c[0], c[1]);
    forall q, i | 0 <= i < |At(B', q)| ensures BinWatcher(ca', q, At(B', q)[i]) {
      if i < |At(B, q)| {
        assert At(B', q)[i] == At(B, q)[i] && BinWatcher(ca, q, At(B, q)[i]);
      }
    }
    forall cr | 0 <= cr < |ca'| ensures BinWatched(ca', B', cr) {
      if cr < |ca| {
        assert BinWatched(ca, B, cr);
        AttachKeeps(B, |ca|, c[0], c[1]);
      } else {
        BinNew(B, |ca|, c);
      }
    }
  }

  lemma AttachKeeps(B: Lists, n: nat, a: Lit, b: Lit)
    ensures forall q, w :: w in At(B, q) ==> w in At(WatchBoth(B, n, a, b), q)
  {
  }

  lemma BinNew(B: Lists, n: nat, c: Clause)
    requires |c| == 2 && DistinctLits(c)
    ensures Watcher(n, c[1]) in At(WatchBoth(B, n, c[0], c[1]), Neg(c[0]))
      && Watcher(n, c[0]) in At(WatchBoth(B, n, c[0], c[1]), Neg(c[1]))
  {
    assert c[0] != c[1];
  }

  /** Lists of the other kind only see the number of clauses grow. */
  lemma LongUnchanged(ca: seq<Clause>, W: Lists, c: Clause)
    requires LongOk(ca, W) && |c| <= 2
    ensures LongOk(ca + [c], W)
  {
    var ca' := ca + [c];
    forall q ensures LongList(ca', q, At(W, q)) {
      assert LongList(ca, q, At(W, q));
      forall i | 0 <= i < |At(W, q)| ensures LongWatcher(ca', q, At(W, q)[i]) {
        assert LongWatcher(ca, q, At(W, q)[i]);
      }
    }
    forall cr | 0 <= cr < |ca'| ensures Watched(ca', W, cr) {
      if cr < |ca| {
        assert Watched(ca, W, cr);
      }
    }
  }

  lemma BinUnchanged(ca: seq<Clause>, B: Lists, c: Clause)
    requires BinOk(ca, B) && |c| > 2
    ensures BinOk(ca + [c], B)
  {
    var ca' := ca + [c];
    forall q, i | 0 <= i < |At(B, q)| ensures BinWatcher(ca', q, At(B, q)[i]) {
      assert BinWatcher(ca, q, At(B, q)[i]);
    }
    forall cr | 0 <= cr < |ca'| ensures BinWatched(ca', B, cr) {
      if cr < |ca| {
        assert BinWatched(ca, B, cr);
      }
    }
  }

  lemma MoreReasons(T: Trail, ca: seq<Clause>, c: Clause)
    requires ReasonsOk(T, ca)
    ensures ReasonsOk(T, ca + [c])
  {
    var ca' := ca + [c];
    forall i | 0 <= i < |T.lits| ensures Forced(T, ca', i) {
      assert OnTrail(T, i) && Forced(T, ca, i);
    }
  }

  /** A clause with a true literal in front, or with two unassigned ones, disturbs no quiet list. */
  lemma AttachSettled(T: Trail, qhead: nat, W: Lists, bound: nat, cr: nat, a: Lit, b: Lit)
    requires TrailOk(T) && Settled(T, qhead, W, bound, {}) && a != b && Val(T, a) != False
    requires Val(T, b) == False ==> Val(T, a) == True && T.level[a.v] <= T.level[b.v]
    ensures Settled(T, qhead, WatchBoth(W, cr, a, b), bound, {})
  {
    var W' := WatchBoth(W, cr, a, b);
    forall q | Processed(T, qhead, q) && T.level[q.v] < bound && q !in {} ensures Quiet(T, q, At(W', q)) {
      assert Quiet(T, q, At(W, q));
      if q == Neg(b) {
        assert At(W', q) == At(W, q) + [Watcher(cr, a)];
        forall i | 0 <= i < |At(W', q)| ensures Blocks(T, q, At(W', q)[i].blocker) {
          if i < |At(W, q)| {
            assert At(W', q)[i] == At(W, q)[i];
          }
        }
      } else {
        assert At(W', q) == At(W, q);
      }
    }
  }
}
