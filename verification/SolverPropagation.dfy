/** What one step of propagation does to the state. */
module SolverPropagation {
  import opened SolverTypes
  import opened SolverStates

  /** The clause of a binary watcher of a true literal. */
  lemma BinLits(t: Trail, ca: seq<Clause>, p: Lit, w: Watcher)
    requires TrailOk(t) && BinWatcher(ca, p, w) && Clauses(ca, |t.assigns|) && Val(t, p) == True
      && t.level[p.v] == |t.lim|
    ensures w.blocker in ca[w.cref] && w.blocker.v < |t.assigns| && Neg(p) in ca[w.cref] && |ca[w.cref]| == 2
    ensures forall x :: x in ca[w.cref] && x != w.blocker ==> Val(t, x) == False
    ensures Val(t, w.blocker) == False ==> Conflict(t, ca, w.cref)
  {
    var c := ca[w.cref];
    assert ClauseOk(c, |t.assigns|) && c[0] in c && c[1] in c;
  }

  lemma GrowsQuiet(t: Trail, t': Trail, p: Lit, ws: seq<Watcher>)
    requires Grows(t, t') && Val(t, p) == True && Quiet(t, p, ws)
    ensures Quiet(t', p, ws)
  {
    forall i | 0 <= i < |ws| ensures Blocks(t', p, ws[i].blocker) {
      GrowsBlocks(t, t', p, ws[i].blocker);
    }
  }

  lemma OneMoreQuiet(t: Trail, p: Lit, ws: seq<Watcher>, k: nat)
    requires TrailOk(t) && p.v < |t.assigns| && k < |ws| && Quiet(t, p, ws[..k])
    requires Val(t, ws[k].blocker) == True && t.level[p.v] == |t.lim|
    ensures Quiet(t, p, ws[..k + 1])
  {
    var b := ws[k].blocker;
    assert OnTrail(t, t.pos[b.v]);
    var more := ws[..k + 1];
    forall i | 0 <= i < |more| ensures Blocks(t, p, more[i].blocker) {
      if i < k {
        assert Blocks(t, p, ws[..k][i].blocker);
      }
    }
  }

  lemma SameSelf(ca: seq<Clause>)
    ensures SameClauses(ca, ca)
  {
  }

  lemma SwapClause(t: Trail, ca: seq<Clause>, W: Lists, B: Lists, facts: set<Lit>, cr: nat)
    requires TrailOk(t) && Base(t, ca, W, B, facts) && cr < |ca| && (|ca[cr]| > 2 ==> Val(t, ca[cr][0]) == False)
    ensures |ca[cr]| >= 2 && Base(t, ca[cr := Exchange(ca[cr], 0, 1)], W, B, facts)
      && SameClauses(ca, ca[cr := Exchange(ca[cr], 0, 1)])
    ensures SameLits(ca[cr], Exchange(ca[cr], 0, 1))
  {
    var c := Exchange(ca[cr], 0, 1);
    assert ClauseOk(ca[cr], |t.assigns|);
    ExchangeSame(ca[cr], 0, 1);
    ReplaceClause(ca, cr, c, |t.assigns|);
    ReasonsStay(t, ca, cr, c);
    SwapWatched(ca, W, B, cr);
  }

  lemma MovedCommutes(W: Lists, p: Lit, d: seq<Watcher>, x: Watcher, r: seq<Watcher>, q: Lit, w: Watcher)
    requires q != p
    ensures W[q := At(W, q) + [w]][p := d + r] == Moved(W[p := d + [x] + r], p, d, r, q, w)
  {
  }

  lemma MoveClause(t: Trail, qhead: nat, ca: seq<Clause>, W: Lists, B: Lists, facts: set<Lit>, p: Lit,
                          d: seq<Watcher>, x: Watcher, w: Watcher, r: seq<Watcher>, k: nat)
    requires TrailOk(t) && Base(t, ca, W, B, facts) && Upto(t, qhead, W, B, |t.lim| + 1, {p})
    requires At(W, p) == d + [x] + r && w.cref == x.cref < |ca| && 2 <= k < |ca[w.cref]|
    requires ca[w.cref][1] == Neg(p) && w.blocker in ca[w.cref] && Val(t, ca[w.cref][k]) != False
    ensures Neg(ca[w.cref][k]) != p && SameClauses(ca, ca[w.cref := Exchange(ca[w.cref], 1, k)])
    ensures Base(t, ca[w.cref := Exchange(ca[w.cref], 1, k)], Moved(W, p, d, r, Neg(ca[w.cref][k]), w), B, facts)
    ensures Upto(t, qhead, Moved(W, p, d, r, Neg(ca[w.cref][k]), w), B, |t.lim| + 1, {p})
  {
    var cr, c, q := w.cref, Exchange(ca[w.cref], 1, k), Neg(ca[w.cref][k]);
    assert ClauseOk(ca[cr], |t.assigns|);
    ExchangeSame(ca[cr], 1, k);
    ReplaceClause(ca, cr, c, |t.assigns|);
    ReasonsStay(t, ca, cr, c);
    MoveWatcher(ca, W, p, d, x, w, r, k, |t.assigns|);
    MovedSettled(t, qhead, W, |t.lim| + 1, p, d, r, q, w);
    BinStays(ca, B, cr, c);
  }

  /** Long clauses do not matter to the lists of the binary ones. */
  lemma BinStays(ca: seq<Clause>, B: Lists, cr: nat, c: Clause)
    requires BinOk(ca, B) && cr < |ca| && |ca[cr]| > 2 && |c| == |ca[cr]|
    ensures BinOk(ca[cr := c], B)
  {
    var ca' := ca[cr := c];
    forall q, i | 0 <= i < |At(B, q)| ensures BinWatcher(ca', q, At(B, q)[i]) {
      assert BinWatcher(ca, q, At(B, q)[i]);
    }
    forall k | 0 <= k < |ca'| ensures BinWatched(ca', B, k) {
      assert BinWatched(ca, B, k);
    }
  }

  lemma KeepBase(t: Trail, qhead: nat, ca: seq<Clause>, W: Lists, B: Lists, facts: set<Lit>, p: Lit,
                        d: seq<Watcher>, x: Watcher, w: Watcher, r: seq<Watcher>, ws: seq<Watcher>)
    requires TrailOk(t) && Base(t, ca, W[p := d + [x] + r], B, facts)
      && Upto(t, qhead, W[p := d + [x] + r], B, |t.lim| + 1, {p})
    requires w.cref == x.cref < |ca| && w.blocker in ca[w.cref] && ws == d + [w] + r
    ensures Base(t, ca, W[p := ws], B, facts) && Upto(t, qhead, W[p := ws], B, |t.lim| + 1, {p})
  {
    var W' := W[p := d + [x] + r];
    KeepWatcher(ca, W', p, d, x, w, r);
    KeptSettled(t, qhead, W', |t.lim| + 1, p, ws);
    assert W'[p := ws] == W[p := ws];
  }

  lemma FirstWatcher(ca: seq<Clause>, W: Lists, p: Lit, d: seq<Watcher>, x: Watcher, r: seq<Watcher>)
    requires LongOk(ca, W) && At(W, p) == d + [x] + r
    ensures LongWatcher(ca, p, x)
  {
    assert LongList(ca, p, At(W, p)) && At(W, p)[|d|] == x;
  }

  lemma QuietMore(t: Trail, p: Lit, d: seq<Watcher>, w: Watcher)
    requires TrailOk(t) && p.v < |t.assigns| && Quiet(t, p, d) && Val(t, w.blocker) == True && t.level[p.v] == |t.lim|
    ensures Quiet(t, p, d + [w])
  {
    assert (d + [w])[..|d|] == d;
    OneMoreQuiet(t, p, d + [w], |d|);
    assert (d + [w])[..|d| + 1] == d + [w];
  }

  lemma UnitOrFalse(t: Trail, ca: seq<Clause>, cr: nat, p: Lit)
    requires TrailOk(t) && cr < |ca| && |ca[cr]| > 2 && Clauses(ca, |t.assigns|)
    requires ca[cr][1] == Neg(p) && Val(t, p) == True && t.level[p.v] == |t.lim|
    requires forall i :: 2 <= i < |ca[cr]| ==> Val(t, ca[cr][i]) == False
    ensures ca[cr][0] in ca[cr] && ca[cr][0].v < |t.assigns| && Neg(p) in ca[cr]
    ensures forall x :: x in ca[cr] && x != ca[cr][0] ==> Val(t, x) == False
    ensures Val(t, ca[cr][0]) == False ==> Conflict(t, ca, cr)
  {
    assert ClauseOk(ca[cr], |t.assigns|);
    assert ca[cr][0] in ca[cr] && ca[cr][1] in ca[cr];
  }

  lemma SameLists(t: Trail, qhead: nat, ca: seq<Clause>, W: Lists, B: Lists, facts: set<Lit>, p: Lit, ws: seq<Watcher>)
    requires TrailOk(t) && Base(t, ca, W, B, facts) && Upto(t, qhead, W, B, |t.lim| + 1, {p}) && ws == At(W, p)
    ensures Base(t, ca, W[p := ws], B, facts) && Upto(t, qhead, W[p := ws], B, |t.lim| + 1, {p})
  {
    var W' := W[p := ws];
    KeptSettled(t, qhead, W, |t.lim| + 1, p, ws);
    forall q ensures LongList(ca, q, At(W', q)) {
      assert LongList(ca, q, At(W, q));
    }
    forall cr | 0 <= cr < |ca| ensures Watched(ca, W', cr) {
      assert Watched(ca, W, cr);
    }
  }

  lemma SplitList(ws: seq<Watcher>, j: nat, i: nat)
    requires j <= i < |ws|
    ensures ws[..j] + ws[i..] == ws[..j] + [ws[i]] + ws[i + 1..]
  {
  }

  lemma AfterOne(ws: seq<Watcher>, j: nat, i: nat, keep: bool, w: Watcher, ws': seq<Watcher>, j': nat)
    requires j <= i < |ws| && ws' == (if keep then ws[j := w] else ws) && j' == (if keep then j + 1 else j)
    ensures ws'[..j'] == (if keep then ws[..j] + [w] else ws[..j]) && ws'[i + 1..] == ws[i + 1..]
  {
  }

  /** The state after a watcher has moved to another list. */
  lemma MoveResult(t: Trail, qhead: nat, ca: seq<Clause>, W: Lists, B: Lists, facts: set<Lit>, p: Lit,
                   d: seq<Watcher>, x: Watcher, w: Watcher, r: seq<Watcher>, k: nat, ca': seq<Clause>, W': Lists)
    requires TrailOk(t) && Base(t, ca, W[p := d + [x] + r], B, facts)
      && Upto(t, qhead, W[p := d + [x] + r], B, |t.lim| + 1, {p})
    requires w.cref == x.cref < |ca| && 2 <= k < |ca[w.cref]|
    requires ca[w.cref][1] == Neg(p) && w.blocker in ca[w.cref] && Val(t, ca[w.cref][k]) != False
    requires ca' == ca[w.cref := Exchange(ca[w.cref], 1, k)]
      && W' == W[Neg(ca[w.cref][k]) := At(W, Neg(ca[w.cref][k])) + [w]]
    ensures Base(t, ca', W'[p := d + r], B, facts) && Upto(t, qhead, W'[p := d + r], B, |t.lim| + 1, {p})
      && SameClauses(ca, ca')
  {
    MoveClause(t, qhead, ca, W[p := d + [x] + r], B, facts, p, d, x, w, r, k);
    MovedCommutes(W, p, d, x, r, Neg(ca[w.cref][k]), w);
  }

  /** After a conflict in a binary clause something is left in the queue: if the negation of its other
      literal had been taken from it, that literal's list would not be quiet. */
  lemma BinaryQueued(T: Trail, qhead: nat, ca: seq<Clause>, B: Lists, p: Lit, cr: nat)
    requires TrailOk(T) && Clauses(ca, |T.assigns|) && BinOk(ca, B) && Settled(T, qhead, B, |T.lim| + 1, {p})
    requires cr < |ca| && |ca[cr]| == 2 && Neg(p) in ca[cr] && forall l :: l in ca[cr] ==> Val(T, l) == False
    ensures qhead < |T.lits|
  {
    var c := ca[cr];
    assert ClauseOk(c, |T.assigns|) && BinWatched(ca, B, cr) && c[0] in c && c[1] in c;
    var x := if c[0] == Neg(p) then c[1] else c[0];
    var q := Neg(x);
    assert Val(T, q) == True && OnTrail(T, T.pos[q.v]);
    if qhead >= |T.lits| {
      assert Processed(T, qhead, q);
      QuietTrue(T, q, At(B, q), Watcher(cr, Neg(p)));
    }
  }

  lemma QuietTrue(T: Trail, q: Lit, ws: seq<Watcher>, w: Watcher)
    requires TrailOk(T) && q.v < |T.assigns| && Quiet(T, q, ws) && w in ws
    ensures Val(T, w.blocker) == True
  {
    var i :| 0 <= i < |ws| && ws[i] == w;
    assert Blocks(T, q, ws[i].blocker);
  }
}
