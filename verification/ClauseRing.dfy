/** The bounded ring through which solver threads exchange clauses: what is stored where, who has
    read what, and what every interleaving of pushes and gets delivers. */
module ClauseRings {
  /** A shared clause: the thread it came from and its literals. */
  datatype Shared = Shared(origin: nat, lits: seq<nat>)

  const HEADER: nat := 3

  function Len(c: Shared): nat {
    |c.lits| + HEADER
  }

  // ----- positions -----

  /** The index a steps after i. */
  function AddIndex(M: nat, i: nat, a: nat): nat {
    if i + a >= M then i + a - M else i + a
  }

  lemma AddAdd(M: nat, i: nat, a: nat, b: nat)
    requires i < M && a + b <= M
    ensures AddIndex(M, AddIndex(M, i, a), b) == AddIndex(M, i, a + b)
    ensures a < M ==> AddIndex(M, i, a) < M
  {
  }

  /** The index of the k-th stored cell. */
  function Slot(M: nat, last: nat, k: nat): nat {
    AddIndex(M, last, k + 1)
  }

  /** The ring stores these cells. */
  ghost predicate Stores(M: nat, es: seq<nat>, last: nat, content: seq<nat>) {
    |es| == M && last < M && |content| < M && forall k :: 0 <= k < |content| ==> es[Slot(M, last, k)] == content[k]
  }

  /** How many cells the clauses from b to j take. */
  function Off(H: seq<Shared>, b: nat, j: nat): nat
    requires b <= j <= |H|
    decreases j
  {
    if j == b then 0 else Off(H, b, j - 1) + Len(H[j - 1])
  }

  lemma {:induction false} OffSplit(H: seq<Shared>, b: nat, i: nat, j: nat)
    requires b <= i <= j <= |H|
    ensures Off(H, b, j) == Off(H, b, i) + Off(H, i, j)
    ensures i < j ==> Off(H, b, i) + HEADER <= Off(H, b, j)
    decreases j
  {
    if i < j {
      OffSplit(H, b, i, j - 1);
    }
  }

  lemma {:induction false} OffAppend(H: seq<Shared>, c: Shared, b: nat, j: nat)
    requires b <= j <= |H|
    ensures Off(H + [c], b, j) == Off(H, b, j)
    decreases j
  {
    if b < j {
      OffAppend(H, c, b, j - 1);
    }
  }

  // ----- who still has to read a clause -----

  /** The threads other than the origin whose cursor has not passed clause j. */
  function Waiting(cur: seq<nat>, origin: nat, j: nat): (n: nat)
    ensures n <= |cur|
  {
    if cur == [] then 0
    else Waiting(cur[..|cur| - 1], origin, j) + if |cur| - 1 != origin && cur[|cur| - 1] <= j then 1 else 0
  }

  /** The counter kept for clause j. With a single thread it stays 1. */
  function Counter(cur: seq<nat>, origin: nat, j: nat): nat {
    if |cur| > 1 then Waiting(cur, origin, j) else 1
  }

  lemma {:induction false} WaitingAll(cur: seq<nat>, origin: nat, j: nat)
    requires forall i :: 0 <= i < |cur| ==> cur[i] <= j
    ensures Waiting(cur, origin, j) == |cur| - if origin < |cur| then 1 else 0
  {
    if cur != [] {
      WaitingAll(cur[..|cur| - 1], origin, j);
    }
  }

  lemma {:induction false} WaitingMember(cur: seq<nat>, origin: nat, j: nat, i: nat)
    requires i < |cur| && i != origin && cur[i] <= j
    ensures Waiting(cur, origin, j) > 0
  {
    if i < |cur| - 1 {
      WaitingMember(cur[..|cur| - 1], origin, j, i);
    }
  }

  /** Moving one cursor past clause j changes its counter by one, if the thread is not the origin. */
  lemma {:induction false} WaitingMove(cur: seq<nat>, origin: nat, j: nat, t: nat, v: nat)
    requires t < |cur|
    ensures Waiting(cur[t := v], origin, j) + (if t != origin && cur[t] <= j then 1 else 0)
         == Waiting(cur, origin, j) + (if t != origin && v <= j then 1 else 0)
  {
    var n := |cur| - 1;
    if t < n {
      assert cur[t := v][..n] == cur[..n][t := v];
      WaitingMove(cur[..n], origin, j, t, v);
    } else {
      assert cur[t := v][..n] == cur[..n];
    }
  }

  ghost function WaitingThreads(cur: seq<nat>, origin: nat, j: nat): set<nat> {
    set i | 0 <= i < |cur| && i != origin && cur[i] <= j
  }

  lemma {:induction false} WaitingCounts(cur: seq<nat>, origin: nat, j: nat)
    ensures Waiting(cur, origin, j) == |WaitingThreads(cur, origin, j)|
  {
    if cur != [] {
      var n := |cur| - 1;
      WaitingCounts(cur[..n], origin, j);
      var rest := WaitingThreads(cur[..n], origin, j);
      if n != origin && cur[n] <= j {
        assert WaitingThreads(cur, origin, j) == rest + {n} && n !in rest;
      } else {
        assert WaitingThreads(cur, origin, j) == rest;
      }
    } else {
      assert WaitingThreads(cur, origin, j) == {};
    }
  }

  // ----- the cells -----

  function Record(c: Shared, seen: nat): (r: seq<nat>)
    ensures |r| == Len(c)
  {
    [|c.lits|, seen, c.origin] + c.lits
  }

  /** The records of the clauses from b to j, one after the other. */
  function Cells(H: seq<Shared>, b: nat, j: nat, cur: seq<nat>): (r: seq<nat>)
    requires b <= j <= |H|
    ensures |r| == Off(H, b, j)
    decreases j
  {
    if j == b then [] else Cells(H, b, j - 1, cur) + Record(H[j - 1], Counter(cur, H[j - 1].origin, j - 1))
  }

  lemma {:induction false} CellsSplit(H: seq<Shared>, b: nat, i: nat, j: nat, cur: seq<nat>)
    requires b <= i <= j <= |H|
    ensures Cells(H, b, j, cur) == Cells(H, b, i, cur) + Cells(H, i, j, cur)
    decreases j
  {
    if i < j {
      CellsSplit(H, b, i, j - 1, cur);
    }
  }

  lemma {:induction false} CellsAppend(H: seq<Shared>, c: Shared, b: nat, j: nat, cur: seq<nat>)
    requires b <= j <= |H|
    ensures Cells(H + [c], b, j, cur) == Cells(H, b, j, cur)
    decreases j
  {
    if b < j {
      CellsAppend(H, c, b, j - 1, cur);
    }
    OffAppend(H, c, b, j);
  }

  /** The record of clause i stands at its offset. */
  lemma CellsAt(H: seq<Shared>, b: nat, i: nat, j: nat, cur: seq<nat>, k: nat)
    requires b <= i < j <= |H| && k < Len(H[i])
    ensures Off(H, b, i) + k < Off(H, b, j)
    ensures Cells(H, b, j, cur)[Off(H, b, i) + k] == Record(H[i], Counter(cur, H[i].origin, i))[k]
  {
    OffSplit(H, b, i + 1, j);
    CellsSplit(H, b, i + 1, j, cur);
  }

  lemma {:induction false} CellsSame(H: seq<Shared>, b: nat, j: nat, cur: seq<nat>, cur': seq<nat>)
    requires b <= j <= |H|
    requires forall i :: b <= i < j ==> Counter(cur, H[i].origin, i) == Counter(cur', H[i].origin, i)
    ensures Cells(H, b, j, cur) == Cells(H, b, j, cur')
    decreases j
  {
    if b < j {
      CellsSame(H, b, j - 1, cur, cur');
    }
  }

  // ----- what a thread is owed -----

  /** The clauses below j that are not the thread's own, in push order. */
  function Others(H: seq<Shared>, t: nat, j: nat): seq<nat>
    requires j <= |H|
  {
    if j == 0 then []
    else if H[j - 1].origin == t then Others(H, t, j - 1)
    else Others(H, t, j - 1) + [j - 1]
  }

  lemma {:induction false} OthersAppend(H: seq<Shared>, c: Shared, t: nat, j: nat)
    requires j <= |H|
    ensures Others(H + [c], t, j) == Others(H, t, j)
  {
    if j > 0 {
      OthersAppend(H, c, t, j - 1);
    }
  }

  lemma {:induction false} OthersSkip(H: seq<Shared>, t: nat, i: nat, j: nat)
    requires i <= j <= |H| && forall k :: i <= k < j ==> H[k].origin == t
    ensures Others(H, t, j) == Others(H, t, i)
    decreases j
  {
    if i < j {
      OthersSkip(H, t, i, j - 1);
    }
  }

  /** The first clause from i on that is not the thread's own; |H| if there is none. */
  function Next(H: seq<Shared>, t: nat, i: nat): (j: nat)
    requires i <= |H|
    ensures i <= j <= |H| && (forall k :: i <= k < j ==> H[k].origin == t) && (j < |H| ==> H[j].origin != t)
    decreases |H| - i
  {
    if i == |H| || H[i].origin != t then i else Next(H, t, i + 1)
  }

  lemma {:induction false} NextUnique(H: seq<Shared>, t: nat, i: nat, j: nat)
    requires i <= j <= |H| && (forall k :: i <= k < j ==> H[k].origin == t) && (j < |H| ==> H[j].origin != t)
    ensures Next(H, t, i) == j
    decreases |H| - i
  {
    if i < j {
      NextUnique(H, t, i + 1, j);
    }
  }

  /** Received clauses: in push order, never twice, never the thread's own, all passed. */
  ghost predicate InOrder(H: seq<Shared>, t: nat, j: nat, d: seq<nat>) {
    && (forall x :: x in d ==> x < j && x < |H| && H[x].origin != t)
    && (forall x, y :: 0 <= x < y < |d| ==> d[x] < d[y])
  }

  class ClausesBuffer {
    const maxsize: nat
    const nbThreads: nat
    const whenFullRemoveOlder: bool
    const elems: array<nat>
    const lastOfThread: array<nat>
    var first: nat
    var last: nat
    var queuesize: nat
    var removedClauses: nat
    var forcedRemovedClauses: nat

    /** All clauses ever accepted. */
    ghost var H: seq<Shared>

    /** How many of them have been removed. */
    ghost var base: nat

    /** How many of them each thread has passed. */
    ghost var cur: seq<nat>

    /** What each thread has received. */
    ghost var delivered: seq<seq<nat>>

    static ghost predicate Layout(M: nat, es: seq<nat>, first: nat, last: nat, size: nat, H: seq<Shared>, base: nat,
        cur: seq<nat>)
    {
      && base <= |H| && size == Off(H, base, |H|)
      && Stores(M, es, last, Cells(H, base, |H|, cur)) && first == Slot(M, last, size)
    }

    static ghost predicate CursorAt(M: nat, last: nat, H: seq<Shared>, base: nat, c: nat, pos: nat) {
      base <= c <= |H| && pos == AddIndex(M, last, Off(H, base, c))
    }

    /** All cursors but that of the thread skip, whose entry is about to be overwritten. */
    static ghost predicate Cursors(M: nat, last: nat, H: seq<Shared>, base: nat, cur: seq<nat>, pos: seq<nat>,
        skip: int)
    {
      && |pos| == |cur|
      && (forall i :: 0 <= i < |cur| && i != skip ==> CursorAt(M, last, H, base, cur[i], pos[i]))
      && (forall i :: 0 <= i < |cur| ==> base <= cur[i] <= |H|)
    }

    /** What one thread received: in order, and everything it was owed unless clauses were forced out. */
    static ghost predicate ReceivedBy(H: seq<Shared>, t: nat, c: nat, d: seq<nat>, nothingForced: bool) {
      c <= |H| && InOrder(H, t, c, d) && (nothingForced ==> d == Others(H, t, c))
    }

    static ghost predicate Received(H: seq<Shared>, cur: seq<nat>, delivered: seq<seq<nat>>, nothingForced: bool) {
      |delivered| == |cur| && forall t :: 0 <= t < |cur| ==> ReceivedBy(H, t, cur[t], delivered[t], nothingForced)
    }

    ghost predicate Valid()
      reads this, elems, lastOfThread
    {
      elems != lastOfThread
      && State(maxsize, nbThreads, whenFullRemoveOlder, elems[..], lastOfThread[..], first, last, queuesize, H, base,
         cur, delivered, forcedRemovedClauses)
    }

    static ghost predicate State(M: nat, threads: nat, mayForce: bool, es: seq<nat>, pos: seq<nat>, first: nat,
        last: nat, size: nat, H: seq<Shared>, base: nat, cur: seq<nat>, delivered: seq<seq<nat>>, forced: nat)
    {
      && Rep(M, threads, es, pos, first, last, size, H, base, cur, -1)
      && Received(H, cur, delivered, forced == 0)
      && (forced > 0 ==> mayForce)
      && Wanted(H, base, cur)
    }

    /** Somebody still has to read the oldest stored clause. */
    static ghost predicate Wanted(H: seq<Shared>, base: nat, cur: seq<nat>) {
      base < |H| ==> Counter(cur, H[base].origin, base) > 0
    }

    /** The representation alone; the entry of thread skip need not be right. */
    ghost predicate Core(skip: int)
      reads this, elems, lastOfThread
    {
      elems != lastOfThread
      && Rep(maxsize, nbThreads, elems[..], lastOfThread[..], first, last, queuesize, H, base, cur, skip)
    }

    static ghost predicate Rep(M: nat, threads: nat, es: seq<nat>, pos: seq<nat>, first: nat, last: nat, size: nat,
                               H: seq<Shared>, base: nat, cur: seq<nat>, skip: int) {
      && |pos| == |cur| == threads > 0
      && (forall j :: 0 <= j < |H| ==> H[j].origin < threads)
      && Layout(M, es, first, last, size, H, base, cur)
      && Cursors(M, last, H, base, cur, pos, skip)
    }

    constructor (nbThreads: nat, maxsize: nat, whenFullRemoveOlder: bool)
      requires nbThreads > 0 && maxsize > 0
      ensures Valid() && fresh(elems) && fresh(lastOfThread)
      ensures this.nbThreads == nbThreads && this.maxsize == maxsize && this.whenFullRemoveOlder == whenFullRemoveOlder
      ensures H == [] && cur == seq(nbThreads, _ => 0) && delivered == seq(nbThreads, _ => [])
    {
      this.nbThreads, this.maxsize, this.whenFullRemoveOlder := nbThreads, maxsize, whenFullRemoveOlder;
      elems := new nat[maxsize](_ => 0);
      lastOfThread := new nat[nbThreads](_ => maxsize - 1);
      first, last, queuesize, removedClauses, forcedRemovedClauses := 0, maxsize - 1, 0, 0, 0;
      H, base, cur, delivered := [], 0, seq(nbThreads, _ => 0), seq(nbThreads, _ => []);
    }

    function NextIndex(i: nat): nat {
      if i + 1 == maxsize then 0 else i + 1
    }

    /** Appends one cell. */
    method NoCheckPush(x: nat, ghost content: seq<nat>)
      requires elems.Length == maxsize && Stores(maxsize, elems[..], last, content)
      requires |content| + 1 < maxsize && first == Slot(maxsize, last, |content|)
      modifies this`first, elems
      ensures Stores(maxsize, elems[..], last, content + [x]) && first == Slot(maxsize, last, |content| + 1)
    {
      elems[first] := x;
      first := NextIndex(first);
    }

    // ----- removing the oldest clauses -----

    static function Raise(cur: seq<nat>, b: nat): (r: seq<nat>)
      ensures |r| == |cur|
    {
      seq(|cur|, i requires 0 <= i < |cur| => if cur[i] < b then b else cur[i])
    }

    /** A clause that stays keeps its counter when cursors at the oldest clause move on. */
    static lemma {:induction false} RaiseKeepsCounter(cur: seq<nat>, origin: nat, b: nat, j: nat)
      requires b <= j
      ensures Waiting(Raise(cur, b), origin, j) == Waiting(cur, origin, j)
    {
      if cur != [] {
        assert Raise(cur, b)[..|cur| - 1] == Raise(cur[..|cur| - 1], b);
        RaiseKeepsCounter(cur[..|cur| - 1], origin, b, j);
      }
    }

    /** The layout without the oldest clause. */
    static lemma LayoutDrop(M: nat, es: seq<nat>, first: nat, last: nat, size: nat, H: seq<Shared>, base: nat,
        cur: seq<nat>)
      requires Layout(M, es, first, last, size, H, base, cur) && base < |H|
      ensures Len(H[base]) <= size
      ensures Layout(M, es, first, AddIndex(M, last, Len(H[base])), size - Len(H[base]), H, base + 1,
        Raise(cur, base + 1))
    {
      var n, last' := Len(H[base]), AddIndex(M, last, Len(H[base]));
      OffSplit(H, base, base + 1, |H|);
      CellsSplit(H, base, base + 1, |H|, cur);
      forall i | base + 1 <= i < |H| ensures Counter(cur, H[i].origin, i) ==
        Counter(Raise(cur, base + 1), H[i].origin, i) {
        RaiseKeepsCounter(cur, H[i].origin, base + 1, i);
      }
      CellsSame(H, base + 1, |H|, cur, Raise(cur, base + 1));
      var rest := Cells(H, base + 1, |H|, cur);
      forall k | 0 <= k < |rest| ensures es[Slot(M, last', k)] == rest[k] {
        assert Slot(M, last', k) == Slot(M, last, n + k);
        assert Cells(H, base, |H|, cur)[n + k] == rest[k];
      }
    }

    static lemma CursorDrop(M: nat, last: nat, H: seq<Shared>, base: nat, c: nat, pos: nat)
      requires base < |H| && CursorAt(M, last, H, base, c, pos) && last < M && Off(H, base, |H|) < M
      ensures pos == last <==> c == base
      ensures CursorAt(M, AddIndex(M, last, Len(H[base])), H, base + 1, if c == base then base + 1 else c,
                       if pos == last then AddIndex(M, last, Len(H[base])) else pos)
    {
      OffSplit(H, base, c, |H|);
      if c > base {
        OffSplit(H, base, base + 1, c);
      } else {
        OffSplit(H, base, base + 1, |H|);
      }
    }

    /** The threads at the oldest clause move on. */
    method MoveCursors(nextlast: nat, ghost skip: int)
      requires elems != lastOfThread && lastOfThread.Length == nbThreads == |cur|
      requires Layout(maxsize, elems[..], first, last, queuesize, H, base, cur)
      requires Cursors(maxsize, last, H, base, cur, lastOfThread[..], skip)
      requires base < |H| && nextlast == AddIndex(maxsize, last, Len(H[base]))
      modifies lastOfThread
      ensures Cursors(maxsize, nextlast, H, base + 1, Raise(cur, base + 1), lastOfThread[..], skip)
    {
      ghost var pos := lastOfThread[..];
      var i := 0;
      while i < nbThreads
        invariant 0 <= i <= nbThreads == lastOfThread.Length
        invariant forall j :: i <= j < nbThreads ==> lastOfThread[j] == pos[j]
        invariant forall j :: 0 <= j < i && j != skip ==>
                    CursorAt(maxsize, nextlast, H, base + 1, Raise(cur, base + 1)[j], lastOfThread[j])
      {
        if i != skip {
          CursorDrop(maxsize, last, H, base, cur[i], pos[i]);
        }
        if lastOfThread[i] == last {
          lastOfThread[i] := nextlast;
        }
        i := i + 1;
      }
    }

    /** Steps over the cells of one record, which is the oldest clause. */
    method StepOver(n: nat, ghost nextlast: nat, ghost moved: seq<nat>)
      requires last < maxsize && n <= queuesize && n <= maxsize && nextlast == AddIndex(maxsize, last, n)
      modifies this`last, this`queuesize, this`removedClauses, this`base, this`cur
      ensures last == nextlast && queuesize == old(queuesize) - n && removedClauses == old(removedClauses) + 1
      ensures base == old(base) + 1 && cur == moved
    {
      ghost var start := last;
      var i := 0;
      while i < n
        invariant 0 <= i <= n && queuesize == old(queuesize) - i && last == AddIndex(maxsize, start, i)
        invariant last < maxsize && removedClauses == old(removedClauses) && base == old(base)
      {
        last := NextIndex(last);
        assert queuesize > 0;
        queuesize := queuesize - 1;
        i := i + 1;
      }
      removedClauses := removedClauses + 1;
      base := base + 1;
      cur := moved;
    }

    method RemoveOne(ghost skip: int)
      requires Core(skip) && base < |H|
      modifies this`last, this`queuesize, this`removedClauses, this`base, this`cur, lastOfThread
      ensures Core(skip) && base == old(base) + 1 && cur == Raise(old(cur), base)
    {
      hide Cells, Off, Raise, Counter;
      ReadCell(0);
      var size := elems[NextIndex(last)];
      ghost var es, pos, moved := elems[..], lastOfThread[..], Raise(cur, base + 1);
      var nextlast := AddIndex(maxsize, last, size + HEADER);
      MoveCursors(nextlast, skip);
      ghost var pos' := lastOfThread[..];
      ghost var left := queuesize - (size + HEADER);
      RepDrop(maxsize, nbThreads, es, pos, pos', first, last, queuesize, H, base, cur, moved, skip, nextlast, left,
        base + 1);
      StepOver(size + HEADER, nextlast, moved);
      assert elems[..] == es && lastOfThread[..] == pos';
    }

    static lemma RepDrop(M: nat, threads: nat, es: seq<nat>, pos: seq<nat>, pos': seq<nat>, first: nat, last: nat,
        size: nat, H: seq<Shared>, base: nat, cur: seq<nat>, moved: seq<nat>, skip: int, last': nat, size': int,
        base': nat)
      requires Rep(M, threads, es, pos, first, last, size, H, base, cur, skip) && base < |H|
        && moved == Raise(cur, base + 1)
      requires last' == AddIndex(M, last, Len(H[base])) && size' == size - Len(H[base]) && base' == base + 1
      requires Cursors(M, last', H, base', moved, pos', skip)
      ensures Len(H[base]) <= size && size < M && size' >= 0
      ensures Rep(M, threads, es, pos', first, last', size', H, base', moved, skip)
    {
      LayoutDrop(M, es, first, last, size, H, base, cur);
    }

    /** A cell of the oldest clause. */
    lemma ReadCell(k: nat)
      requires Layout(maxsize, elems[..], first, last, queuesize, H, base, cur)
      requires base < |H| && k < Len(H[base])
      ensures k + 1 <= queuesize
      ensures elems[Slot(maxsize, last, k)] == Record(H[base], Counter(cur, H[base].origin, base))[k]
    {
      CellsAt(H, base, base, |H|, cur, k);
    }

    /** Every thread but the clause's own has passed it. */
    static ghost predicate SeenByOthers(cur: seq<nat>, c: Shared, j: nat) {
      forall i :: 0 <= i < |cur| && i != c.origin ==> cur[i] > j
    }

    /** Every clause from a to b was passed by all threads but its own. */
    static ghost predicate AllSeen(cur: seq<nat>, H: seq<Shared>, a: nat, b: nat)
      requires b <= |H|
    {
      b <= a || (AllSeen(cur, H, a, b - 1) && SeenByOthers(cur, H[b - 1], b - 1))
    }

    static lemma {:induction false} AllSeenAt(cur: seq<nat>, H: seq<Shared>, a: nat, b: nat, j: nat)
      requires b <= |H| && AllSeen(cur, H, a, b) && a <= j < b
      ensures SeenByOthers(cur, H[j], j)
      decreases b
    {
      if j < b - 1 {
        AllSeenAt(cur, H, a, b - 1, j);
      }
    }

    static lemma {:induction false} AllSeenFrom(cur: seq<nat>, H: seq<Shared>, a: nat, b: nat)
      requires a < b <= |H| && SeenByOthers(cur, H[a], a) && AllSeen(cur, H, a + 1, b)
      ensures AllSeen(cur, H, a, b)
      decreases b
    {
      if a + 1 < b {
        AllSeenFrom(cur, H, a, b - 1);
      }
    }

    static lemma NothingWaiting(cur: seq<nat>, c: Shared, j: nat)
      requires Counter(cur, c.origin, j) == 0
      ensures SeenByOthers(cur, c, j)
    {
      forall i | 0 <= i < |cur| && i != c.origin ensures cur[i] > j {
        if cur[i] <= j {
          WaitingMember(cur, c.origin, j, i);
        }
      }
    }

    static lemma SeenBefore(cur: seq<nat>, c: Shared, b: nat)
      requires SeenByOthers(Raise(cur, b), c, b)
      ensures SeenByOthers(cur, c, b)
    {
      forall i | 0 <= i < |cur| && i != c.origin ensures cur[i] > b {
        assert Raise(cur, b)[i] > b;
      }
    }

    static lemma RaiseTwice(cur: seq<nat>, b: nat)
      ensures Raise(Raise(cur, b), b + 1) == Raise(cur, b + 1)
    {
    }

    /** Removes the oldest clause, and then all clauses that only its removal made the oldest and
        that nobody waits for. */
    method RemoveLastClause(ghost skip: int)
      requires Core(skip) && base < |H|
      modifies this`last, this`queuesize, this`removedClauses, this`base, this`cur, lastOfThread
      ensures Core(skip) && old(base) < base <= |H| && cur == Raise(old(cur), base)
      ensures AllSeen(old(cur), H, old(base) + 1, base) && Wanted(H, base, cur)
    {
      RemoveOne(skip);
      ghost var start := base;
      var more := OldestUnwanted(skip);
      while more
        invariant Core(skip) && start <= base <= |H| && cur == Raise(old(cur), base)
        invariant more <==> base < |H| && Counter(cur, H[base].origin, base) == 0
        invariant AllSeen(old(cur), H, start, base)
        decreases |H| - base
      {
        RemoveSeen(skip, old(cur), start);
        more := OldestUnwanted(skip);
      }
    }

    /** Whether there is an oldest clause and nobody waits for it. */
    method OldestUnwanted(ghost skip: int) returns (r: bool)
      requires Core(skip)
      ensures base <= |H| && (r <==> base < |H| && Counter(cur, H[base].origin, base) == 0)
    {
      if queuesize > 0 {
        ReadCell(1);
      }
      r := queuesize > 0 && elems[AddIndex(maxsize, last, 2)] == 0;
      assert base < |H| ==> queuesize > 0 by {
        if base < |H| { OffSplit(H, base, |H| - 1, |H|); }
      }
    }

    method RemoveSeen(ghost skip: int, ghost before: seq<nat>, ghost start: nat)
      requires Core(skip) && base < |H| && start <= base && AllSeen(before, H, start, base)
        && cur == Raise(before, base) && Counter(cur, H[base].origin, base) == 0
      modifies this`last, this`queuesize, this`removedClauses, this`base, this`cur, lastOfThread
      ensures Core(skip) && base == old(base) + 1 && cur == Raise(before, base)
      ensures AllSeen(before, H, start, base)
    {
      NothingWaiting(cur, H[base], base);
      SeenBefore(before, H[base], base);
      RaiseTwice(before, base);
      assert AllSeen(before, H, start, base + 1);
      RemoveOne(skip);
    }

    /** Cursors that move over a thread's own clauses only change nothing about what it received. */
    static lemma ReceivedRaise(H: seq<Shared>, cur: seq<nat>, cur': seq<nat>, delivered: seq<seq<nat>>,
        nothingForced: bool, still: bool)
      requires Received(H, cur, delivered, nothingForced) && |cur'| == |cur| && (still ==> nothingForced)
      requires forall i :: 0 <= i < |cur| ==> cur[i] <= cur'[i] <= |H|
      requires still ==> forall i, j :: 0 <= i < |cur| && cur[i] <= j < cur'[i] ==> H[j].origin == i
      ensures Received(H, cur', delivered, still)
    {
      forall i | 0 <= i < |cur| ensures ReceivedBy(H, i, cur'[i], delivered[i], still) {
        assert ReceivedBy(H, i, cur[i], delivered[i], nothingForced);
        if still {
          OthersSkip(H, i, cur[i], cur'[i]);
        }
      }
    }

    // ----- pushing -----

    static lemma RepPush(M: nat, threads: nat, es: seq<nat>, es': seq<nat>, pos: seq<nat>, first: nat, first': nat,
        last: nat, size: nat, H: seq<Shared>, base: nat, cur: seq<nat>, c: Shared)
      requires Rep(M, threads, es, pos, first, last, size, H, base, cur, -1) && c.origin < threads && size + Len(c) < M
      requires Stores(M, es', last, Cells(H, base, |H|, cur) + Record(c, if threads > 1 then threads - 1 else 1))
      requires first' == Slot(M, last, size + Len(c))
      ensures Rep(M, threads, es', pos, first', last, size + Len(c), H + [c], base, cur, -1)
    {
      var H' := H + [c];
      WaitingAll(cur, c.origin, |H|);
      CellsAppend(H, c, base, |H|, cur);
      OffAppend(H, c, base, |H|);
      assert Cells(H', base, |H'|, cur) == Cells(H', base, |H|, cur) + Record(c, Counter(cur, c.origin, |H|));
      forall i | 0 <= i < |cur| ensures CursorAt(M, last, H', base, cur[i], pos[i]) {
        assert CursorAt(M, last, H, base, cur[i], pos[i]);
        OffAppend(H, c, base, cur[i]);
      }
    }

    static lemma ReceivedPush(H: seq<Shared>, cur: seq<nat>, delivered: seq<seq<nat>>, nothingForced: bool, c: Shared)
      requires Received(H, cur, delivered, nothingForced)
      ensures Received(H + [c], cur, delivered, nothingForced)
    {
      forall t | 0 <= t < |cur| ensures ReceivedBy(H + [c], t, cur[t], delivered[t], nothingForced) {
        assert ReceivedBy(H, t, cur[t], delivered[t], nothingForced);
        OthersAppend(H, c, t, cur[t]);
      }
    }

    static lemma WantedPush(H: seq<Shared>, base: nat, cur: seq<nat>, c: Shared)
      requires Wanted(H, base, cur) && |cur| > 0 && base <= |H| && forall i :: 0 <= i < |cur| ==> cur[i] <= |H|
      ensures Wanted(H + [c], base, cur)
    {
      WaitingAll(cur, c.origin, |H|);
    }

    method PushCells(threadId: nat, c: seq<nat>)
      requires Core(-1) && queuesize + |c| + HEADER < maxsize
      modifies this`first, elems
      ensures elems != lastOfThread && first == Slot(maxsize, last, queuesize + |c| + HEADER)
      ensures Stores(maxsize, elems[..], last,
                     Cells(H, base, |H|, cur) + Record(Shared(threadId, c), if nbThreads > 1 then nbThreads - 1 else 1))
    {
      ghost var seen := if nbThreads > 1 then nbThreads - 1 else 1;
      ghost var cells, head := Cells(H, base, |H|, cur), [|c|, seen, threadId];
      PushHeader(threadId, |c|, cells);
      assert cells + head == cells + head + c[..0];
      PushLits(c, cells + head);
      assert cells + head + c == cells + Record(Shared(threadId, c), seen);
    }

    method PushHeader(threadId: nat, size: nat, ghost cells: seq<nat>)
      requires elems.Length == maxsize && |cells| + HEADER < maxsize && first == Slot(maxsize, last, |cells|)
      requires Stores(maxsize, elems[..], last, cells)
      modifies this`first, elems
      ensures first == Slot(maxsize, last, |cells| + HEADER)
      ensures Stores(maxsize, elems[..], last, cells + [size, if nbThreads > 1 then nbThreads - 1 else 1, threadId])
    {
      ghost var seen := if nbThreads > 1 then nbThreads - 1 else 1;
      NoCheckPush(size, cells);
      NoCheckPush(if nbThreads > 1 then nbThreads - 1 else 1, cells + [size]);
      NoCheckPush(threadId, cells + [size] + [seen]);
      assert cells + [size] + [seen] + [threadId] == cells + [size, seen, threadId];
    }

    method PushLits(c: seq<nat>, ghost front: seq<nat>)
      requires elems.Length == maxsize && |front| + |c| < maxsize && first == Slot(maxsize, last, |front|)
      requires Stores(maxsize, elems[..], last, front + c[..0])
      modifies this`first, elems
      ensures first == Slot(maxsize, last, |front| + |c|) && Stores(maxsize, elems[..], last, front + c)
    {
      var i := 0;
      while i < |c|
        invariant 0 <= i <= |c| && first == Slot(maxsize, last, |front| + i)
        invariant Stores(maxsize, elems[..], last, front + c[..i])
      {
        OneMore(front, c, i);
        NoCheckPush(c[i], front + c[..i]);
        i := i + 1;
      }
      assert c[..i] == c;
    }

    static lemma OneMore(front: seq<nat>, c: seq<nat>, i: nat)
      requires i < |c|
      ensures front + c[..i] + [c[i]] == front + c[..i + 1] && |front + c[..i]| == |front| + i
    {
    }

    /** Up to b0 the clauses had gone before. The last one forced out was b: with it there was no room,
        and those behind it went only because nobody waited for them. */
    static ghost predicate Forced(M: nat, H: seq<Shared>, cur: seq<nat>, b0: nat, base: nat, size: nat) {
      exists b ::
        b0 <= b < base <= |H| && Off(H, b, |H|) + size + HEADER >= M && AllSeen(Raise(cur, b), H, b + 1, base)
    }

    /** Forces out the oldest clauses until there is room. */
    method MakeRoom(size: nat)
      requires Valid() && size + HEADER < maxsize && (whenFullRemoveOlder || queuesize + size + HEADER < maxsize)
      modifies this`last, this`queuesize, this`removedClauses, this`forcedRemovedClauses, this`base, this`cur,
        lastOfThread
      ensures Valid() && queuesize + size + HEADER < maxsize
      ensures base >= old(base) && cur == Raise(old(cur), base)
      ensures base > old(base) ==> Forced(maxsize, H, old(cur), old(base), base, size)
      ensures old(queuesize) + size + HEADER < maxsize ==>
        base == old(base) && forcedRemovedClauses == old(forcedRemovedClauses)
    {
      assert cur == Raise(cur, base);
      hide Forced, Raise, Rep, Received;
      while queuesize + size + HEADER >= maxsize
        invariant Valid() && base >= old(base) && cur == Raise(old(cur), base)
        invariant base > old(base) ==> Forced(maxsize, H, old(cur), old(base), base, size)
        invariant old(queuesize) + size + HEADER < maxsize ==>
                    queuesize == old(queuesize) && base == old(base)
                      && forcedRemovedClauses == old(forcedRemovedClauses)
        decreases |H| - base
      {
        ForceOne(size, old(base), old(cur));
      }
    }

    method ForceOne(size: nat, ghost b0: nat, ghost cur0: seq<nat>)
      requires Valid() && whenFullRemoveOlder && queuesize + size + HEADER >= maxsize && size + HEADER < maxsize
      requires b0 <= base && cur == Raise(cur0, base)
      modifies this`last, this`queuesize, this`removedClauses, this`forcedRemovedClauses, this`base, this`cur,
        lastOfThread
      ensures Valid() && old(base) < base <= |H| && cur == Raise(cur0, base)
      ensures Forced(maxsize, H, cur0, b0, base, size) && forcedRemovedClauses == old(forcedRemovedClauses) + 1
    {
      ghost var before, b := cur, base;
      forcedRemovedClauses := forcedRemovedClauses + 1;
      RemoveLastClause(-1);
      RaiseAgain(cur0, b, base);
      ReceivedRaise(H, before, cur, delivered, forcedRemovedClauses == 1, false);
    }

    static lemma RaiseAgain(cur: seq<nat>, b: nat, b': nat)
      requires b <= b'
      ensures Raise(Raise(cur, b), b') == Raise(cur, b')
    {
    }

    /** A clause is refused only when there is no room and older ones may not be removed. Otherwise
        it becomes the newest; nobody receives anything by it. */
    method PushClause(threadId: nat, c: seq<nat>) returns (ok: bool)
      requires Valid() && threadId < nbThreads && |c| + HEADER < maxsize
      modifies this, elems, lastOfThread
      ensures Valid() && delivered == old(delivered)
      ensures ok <==> whenFullRemoveOlder || old(queuesize) + |c| + HEADER < maxsize
      ensures H == if ok then old(H) + [Shared(threadId, c)] else old(H)
      ensures base >= old(base) && cur == Raise(old(cur), base)
      ensures base > old(base) ==> Forced(maxsize, old(H), old(cur), old(base), base, |c|)
      ensures old(queuesize) + |c| + HEADER < maxsize || !ok ==>
                cur == old(cur) && base == old(base) && forcedRemovedClauses == old(forcedRemovedClauses)
    {
      assert cur == Raise(cur, base);
      if !whenFullRemoveOlder && queuesize + |c| + HEADER >= maxsize { return false; }
      MakeRoom(|c|);
      Append(threadId, c);
      return true;
    }

    method Append(threadId: nat, c: seq<nat>)
      requires Valid() && threadId < nbThreads && queuesize + |c| + HEADER < maxsize
      modifies this`first, this`queuesize, this`H, elems
      ensures Valid() && H == old(H) + [Shared(threadId, c)] && queuesize == old(queuesize) + |c| + HEADER
    {
      ghost var es, first0 := elems[..], first;
      PushCells(threadId, c);
      ghost var record := Shared(threadId, c);
      RepPush(maxsize, nbThreads, es, elems[..], lastOfThread[..], first0, first, last, queuesize, H, base, cur,
        record);
      ReceivedPush(H, cur, delivered, forcedRemovedClauses == 0, record);
      WantedPush(H, base, cur, record);
      H := H + [record];
      queuesize := queuesize + |c| + HEADER;
    }

    // ----- getting -----

    /** The cells of the clause behind a cursor. */
    lemma CellBehind(j: nat, pos: nat, k: nat, skip: int)
      requires Core(skip) && j < |H| && CursorAt(maxsize, last, H, base, j, pos) && k < Len(H[j])
      ensures AddIndex(maxsize, pos, k + 1) < maxsize == elems.Length
      ensures elems[AddIndex(maxsize, pos, k + 1)] == Record(H[j], Counter(cur, H[j].origin, j))[k]
    {
      CellInRing(maxsize, elems[..], last, H, base, cur, j, pos, k);
    }

    static lemma CellInRing(M: nat, es: seq<nat>, last: nat, H: seq<Shared>, base: nat, cur: seq<nat>, j: nat, pos: nat,
        k: nat)
      requires base <= j < |H| && k < Len(H[j]) && Stores(M, es, last, Cells(H, base, |H|, cur))
      requires pos == AddIndex(M, last, Off(H, base, j))
      ensures AddIndex(M, pos, k + 1) < M == |es|
      ensures AddIndex(M, pos, k + 1) == Slot(M, last, Off(H, base, j) + k)
      ensures es[AddIndex(M, pos, k + 1)] == Record(H[j], Counter(cur, H[j].origin, j))[k]
    {
      CellsAt(H, base, j, |H|, cur, k);
      AddAdd(M, last, Off(H, base, j), k + 1);
      assert es[Slot(M, last, Off(H, base, j) + k)] == Cells(H, base, |H|, cur)[Off(H, base, j) + k];
    }

    /** A cursor is at the end exactly when the next index is the next free one. */
    lemma AtEnd(j: nat, pos: nat, skip: int)
      requires Core(skip) && CursorAt(maxsize, last, H, base, j, pos)
      ensures pos < maxsize && (NextIndex(pos) == first <==> j == |H|)
    {
      OffSplit(H, base, j, |H|);
    }

    /** No cursor is ever behind the oldest clause. */
    lemma NeverBehind(j: nat, pos: nat, skip: int)
      requires Core(skip) && CursorAt(maxsize, last, H, base, j, pos)
      ensures !(pos < last < first) && !(first < pos < last) && !(last < first < pos)
    {
      OffSplit(H, base, j, |H|);
    }

    lemma CursorAfter(j: nat, pos: nat, skip: int)
      requires Core(skip) && j < |H| && CursorAt(maxsize, last, H, base, j, pos)
      ensures CursorAt(maxsize, last, H, base, j + 1, AddIndex(maxsize, pos, Len(H[j])))
    {
      OffSplit(H, base, j + 1, |H|);
      AddAdd(maxsize, last, Off(H, base, j), Len(H[j]));
    }

    /** Skips the thread's own clauses. */
    method SkipOwn(threadId: nat, start: nat) returns (thislast: nat, ghost j: nat)
      requires Core(-1) && threadId < nbThreads && start == lastOfThread[threadId]
      ensures cur[threadId] <= j <= |H| && j == Next(H, threadId, cur[threadId])
      ensures CursorAt(maxsize, last, H, base, j, thislast)
    {
      thislast, j := start, cur[threadId];
      assert CursorAt(maxsize, last, H, base, j, lastOfThread[..][threadId]);
      AtEnd(j, thislast, -1);
      if j < |H| { CellBehind(j, thislast, 2, -1); }
      while NextIndex(thislast) != first && elems[AddIndex(maxsize, thislast, 3)] == threadId
        invariant cur[threadId] <= j <= |H| && CursorAt(maxsize, last, H, base, j, thislast)
        invariant forall k :: cur[threadId] <= k < j ==> H[k].origin == threadId
        invariant NextIndex(thislast) == first <==> j == |H|
        invariant j < |H| ==>
          AddIndex(maxsize, thislast, 3) < elems.Length && elems[AddIndex(maxsize, thislast, 3)] == H[j].origin
        decreases |H| - j
      {
        thislast, j := OneFurther(thislast, j);
      }
      NextUnique(H, threadId, cur[threadId], j);
    }

    method OneFurther(pos: nat, ghost j: nat) returns (pos': nat, ghost j': nat)
      requires Core(-1) && j < |H| && CursorAt(maxsize, last, H, base, j, pos)
      ensures j' == j + 1 && CursorAt(maxsize, last, H, base, j', pos') && (NextIndex(pos') == first <==> j' == |H|)
      ensures j' < |H| ==>
        AddIndex(maxsize, pos', 3) < elems.Length && elems[AddIndex(maxsize, pos', 3)] == H[j'].origin
    {
      CellBehind(j, pos, 0, -1);
      CursorAfter(j, pos, -1);
      pos' := AddIndex(maxsize, pos, elems[NextIndex(pos)] + HEADER);
      j' := j + 1;
      AtEnd(j', pos', -1);
      if j' < |H| { CellBehind(j', pos', 2, -1); }
    }

    /** Reading clause j changes only its own counter. */
    static lemma ReadCounters(H: seq<Shared>, cur: seq<nat>, t: nat, j: nat, i: nat)
      requires t < |cur| && |cur| > 1 && cur[t] <= j < |H| && i < |H| && j == Next(H, t, cur[t])
      ensures Counter(cur[t := j + 1], H[i].origin, i) == Counter(cur, H[i].origin, i) - if i == j then 1 else 0
    {
      WaitingMove(cur, H[i].origin, i, t, j + 1);
    }

    static lemma ReadCells(H: seq<Shared>, base: nat, cur: seq<nat>, t: nat, j: nat, k: nat)
      requires t < |cur| && |cur| > 1 && base <= cur[t] <= j < |H| && j == Next(H, t, cur[t]) && k < Off(H, base, |H|)
      ensures Off(H, base, j) + 1 < Off(H, base, |H|) && Counter(cur, H[j].origin, j) > 0
      ensures Cells(H, base, |H|, cur[t := j + 1])[k] ==
              if k == Off(H, base, j) + 1 then Counter(cur, H[j].origin, j) - 1 else Cells(H, base, |H|, cur)[k]
    {
      var cur', n := cur[t := j + 1], |H|;
      forall i | 0 <= i < n
        ensures Counter(cur', H[i].origin, i) == Counter(cur, H[i].origin, i) - if i == j then 1 else 0
      {
        ReadCounters(H, cur, t, j, i);
      }
      assert Counter(cur', H[j].origin, j) == Counter(cur, H[j].origin, j) - 1;
      CellsThree(H, base, j, cur);
      CellsThree(H, base, j, cur');
      CellsSame(H, base, j, cur, cur');
      CellsSame(H, j + 1, n, cur, cur');
      RecordDiffers(H[j], Counter(cur, H[j].origin, j));
    }

    static lemma RecordDiffers(c: Shared, seen: nat)
      requires seen > 0
      ensures Record(c, seen - 1) == Record(c, seen)[1 := seen - 1]
    {
    }

    static lemma CellsThree(H: seq<Shared>, base: nat, j: nat, cur: seq<nat>)
      requires base <= j < |H|
      ensures Cells(H, base, |H|, cur) == Cells(H, base, j, cur) + Record(H[j], Counter(cur, H[j].origin, j)) + Cells(H,
        j + 1, |H|, cur)
    {
      CellsSplit(H, base, j + 1, |H|, cur);
    }

    static lemma RepRead(M: nat, threads: nat, es: seq<nat>, es': seq<nat>, pos: seq<nat>, first: nat, last: nat,
        size: nat, H: seq<Shared>, base: nat, cur: seq<nat>, t: nat, j: nat, x: nat)
      requires Rep(M, threads, es, pos, first, last, size, H, base, cur, -1) && t < threads && threads > 1
      requires cur[t] <= j < |H| && j == Next(H, t, cur[t])
      requires x == Slot(M, last, Off(H, base, j) + 1) && x < M && Counter(cur, H[j].origin, j) > 0
      requires es' == es[x := Counter(cur, H[j].origin, j) - 1]
      ensures Rep(M, threads, es', pos, first, last, size, H, base, cur[t := j + 1], t)
    {
      var cells, cells' := Cells(H, base, |H|, cur), Cells(H, base, |H|, cur[t := j + 1]);
      ReadCells(H, base, cur, t, j, 0);
      forall k | 0 <= k < |cells'| ensures es'[Slot(M, last, k)] == cells'[k] {
        ReadCells(H, base, cur, t, j, k);
      }
    }

    /** A second thread exists as soon as some clause is not the reader's own. */
    lemma Several(threadId: nat, j: nat)
      requires Core(-1) && threadId < nbThreads && j < |H| && H[j].origin != threadId
      ensures nbThreads > 1
    {
    }

    /** Copies out the literals that follow the header. */
    method ReadLits(pos: nat, size: nat, ghost start: nat, ghost j: nat, ghost skip: int)
      returns (lits: seq<nat>, end: nat)
      requires Core(skip) && j < |H| && CursorAt(maxsize, last, H, base, j, start)
      requires size == |H[j].lits| && pos == AddIndex(maxsize, start, HEADER)
      ensures lits == H[j].lits && CursorAt(maxsize, last, H, base, j + 1, end)
    {
      lits, end := [], pos;
      CellBehind(j, start, 2, skip);
      var i := 0;
      while i < size
        invariant 0 <= i <= size && lits == H[j].lits[..i] && end == AddIndex(maxsize, start, HEADER + i) < maxsize
      {
        CellBehind(j, start, HEADER + i, skip);
        end := NextIndex(end);
        lits := lits + [elems[end]];
        i := i + 1;
      }
      CursorAfter(j, start, skip);
    }

    /** Reads clause j for the thread, counting it as seen. */
    method ReadClause(threadId: nat, pos: nat, ghost j: nat)
      returns (lits: seq<nat>, origin: nat, end: nat, removeAfter: bool)
      requires Core(-1) && threadId < nbThreads && j < |H| && j == Next(H, threadId, cur[threadId])
        && cur[threadId] <= j
      requires CursorAt(maxsize, last, H, base, j, pos) && maxsize > HEADER
      modifies elems, this`cur
      ensures Core(threadId) && cur == old(cur)[threadId := j + 1]
      ensures lits == H[j].lits && origin == H[j].origin && CursorAt(maxsize, last, H, base, j + 1, end)
      ensures removeAfter <==> Counter(cur, H[j].origin, j) == 0
    {
      CellBehind(j, pos, 0, -1);
      AtEnd(j, pos, -1);
      HeaderSteps(pos);
      var thislast := NextIndex(pos);
      var csize := elems[thislast];
      removeAfter := CountRead(threadId, thislast, pos, j);
      lits, origin, end := ReadRest(thislast, csize, pos, j, threadId);
    }

    /** Reads on after the size cell. */
    method ReadRest(sizeCell: nat, csize: nat, ghost pos: nat, ghost j: nat, ghost skip: int)
      returns (lits: seq<nat>, origin: nat, end: nat)
      requires Core(skip) && j < |H| && CursorAt(maxsize, last, H, base, j, pos) && csize == |H[j].lits|
      requires pos < maxsize && maxsize > HEADER && sizeCell == AddIndex(maxsize, pos, 1)
      ensures lits == H[j].lits && origin == H[j].origin && CursorAt(maxsize, last, H, base, j + 1, end)
    {
      HeaderSteps(pos);
      CellBehind(j, pos, 2, skip);
      var thislast := NextIndex(NextIndex(sizeCell));
      origin := elems[thislast];
      lits, end := ReadLits(thislast, csize, pos, j, skip);
    }

    /** The header cells behind a position. */
    lemma HeaderSteps(pos: nat)
      requires pos < maxsize && maxsize > HEADER
      ensures NextIndex(pos) == AddIndex(maxsize, pos, 1)
      ensures NextIndex(NextIndex(NextIndex(pos))) == AddIndex(maxsize, pos, HEADER)
    {
    }

    /** Counts the thread off clause j; tells whether it was the last one. */
    method CountRead(threadId: nat, sizeCell: nat, ghost pos: nat, ghost j: nat) returns (removeAfter: bool)
      requires Core(-1) && threadId < nbThreads && j < |H| && j == Next(H, threadId, cur[threadId])
        && cur[threadId] <= j
      requires CursorAt(maxsize, last, H, base, j, pos) && sizeCell == AddIndex(maxsize, pos, 1)
      modifies elems, this`cur
      ensures Core(threadId) && cur == old(cur)[threadId := j + 1]
      ensures removeAfter <==> Counter(cur, H[j].origin, j) == 0
    {
      Several(threadId, j);
      CounterCell(maxsize, elems[..], last, H, base, cur, j, pos);
      ReadCounters(H, cur, threadId, j, j);
      ghost var es := elems[..];
      var x := AddIndex(maxsize, sizeCell, 1);
      elems[x] := elems[x] - 1;
      removeAfter := elems[x] == 0;
      RepRead(maxsize, nbThreads, es, elems[..], lastOfThread[..], first, last, queuesize, H, base, cur, threadId, j,
        x);
      cur := cur[threadId := j + 1];
    }

    /** Where the counter of clause j is, and that someone still waits for it. */
    static lemma CounterCell(M: nat, es: seq<nat>, last: nat, H: seq<Shared>, base: nat, cur: seq<nat>, j: nat,
        pos: nat)
      requires base <= j < |H| && Stores(M, es, last, Cells(H, base, |H|, cur))
        && pos == AddIndex(M, last, Off(H, base, j))
      ensures AddIndex(M, AddIndex(M, pos, 1), 1) < M == |es|
      ensures AddIndex(M, AddIndex(M, pos, 1), 1) == Slot(M, last, Off(H, base, j) + 1)
      ensures es[AddIndex(M, AddIndex(M, pos, 1), 1)] == Counter(cur, H[j].origin, j)
    {
      CellInRing(M, es, last, H, base, cur, j, pos, 1);
      OffSplit(H, base, j, |H|);
    }

    /** The oldest clause was read for the last time: it goes, and the cursor with it. */
    method RemoveRead(threadId: nat, ghost was: seq<nat>, ghost received: seq<seq<nat>>) returns (thislast: nat)
      requires Core(threadId) && threadId < nbThreads && base < |H| && |was| == |cur|
      requires cur == was[threadId := base + 1] && was[threadId] <= base && Counter(cur, H[base].origin, base) == 0
      requires Received(H, cur, received, forcedRemovedClauses == 0)
      modifies this`last, this`queuesize, this`removedClauses, this`base, this`cur, lastOfThread
      ensures Core(threadId) && thislast == last && base > old(base) && cur[threadId] == base <= |H|
      ensures cur == Raise(old(cur), base) && Received(H, cur, received, forcedRemovedClauses == 0)
      ensures AllSeen(old(cur), H, old(base), base) && Wanted(H, base, cur)
    {
      ghost var b0, c0 := base, cur;
      RemoveLastClause(threadId);
      thislast := last;
      NothingWaiting(c0, H[b0], b0);
      AllSeenFrom(c0, H, b0, base);
      OwnRaised(H, c0, b0, base, received, forcedRemovedClauses == 0);
    }

    static lemma OwnRaised(H: seq<Shared>, cur: seq<nat>, b0: nat, base: nat, received: seq<seq<nat>>,
        nothingForced: bool)
      requires b0 < base <= |H| && Counter(cur, H[b0].origin, b0) == 0 && AllSeen(cur, H, b0 + 1, base)
      requires (forall i :: 0 <= i < |cur| ==> cur[i] >= b0) && Received(H, cur, received, nothingForced)
      ensures Received(H, Raise(cur, base), received, nothingForced)
    {
      SkippedOwn(H, cur, b0, base);
      ReceivedRaise(H, cur, Raise(cur, base), received, nothingForced, nothingForced);
    }

    /** A clause that a cursor skips is the thread's own if nobody else waited for it. */
    static lemma SkippedOwn(H: seq<Shared>, cur: seq<nat>, b0: nat, base: nat)
      requires b0 < base <= |H| && Counter(cur, H[b0].origin, b0) == 0 && AllSeen(cur, H, b0 + 1, base)
      requires forall i :: 0 <= i < |cur| ==> cur[i] >= b0
      ensures forall i, j :: 0 <= i < |cur| && cur[i] <= j < Raise(cur, base)[i] ==> H[j].origin == i
    {
      NothingWaiting(cur, H[b0], b0);
      forall i, j | 0 <= i < |cur| && cur[i] <= j < Raise(cur, base)[i] ensures H[j].origin == i {
        if j != b0 {
          AllSeenAt(cur, H, b0 + 1, base, j);
        }
      }
    }

    /** Setting the one missing cursor completes the representation. */
    static lemma RepPlace(M: nat, threads: nat, es: seq<nat>, pos: seq<nat>, first: nat, last: nat, size: nat,
                          H: seq<Shared>, base: nat, cur: seq<nat>, t: nat, p: nat)
      requires Rep(M, threads, es, pos, first, last, size, H, base, cur, t) && t < threads
      requires CursorAt(M, last, H, base, cur[t], p)
      ensures Rep(M, threads, es, pos[t := p], first, last, size, H, base, cur, -1)
    {
    }

    /** Moving a cursor over the thread's own clauses changes no counter. */
    static lemma RepSkip(M: nat, threads: nat, es: seq<nat>, pos: seq<nat>, first: nat, last: nat, size: nat,
                         H: seq<Shared>, base: nat, cur: seq<nat>, t: nat, j: nat, p: nat)
      requires Rep(M, threads, es, pos, first, last, size, H, base, cur, -1) && t < threads
      requires cur[t] <= j <= |H| && (forall k :: cur[t] <= k < j ==> H[k].origin == t)
        && CursorAt(M, last, H, base, j, p)
      ensures Rep(M, threads, es, pos[t := p], first, last, size, H, base, cur[t := j], -1)
    {
      forall i | base <= i < |H| ensures Counter(cur, H[i].origin, i) == Counter(cur[t := j], H[i].origin, i) {
        WaitingMove(cur, H[i].origin, i, t, j);
      }
      CellsSame(H, base, |H|, cur, cur[t := j]);
    }

    /** What the reader received, with one more clause. */
    static lemma ReceivedRead(H: seq<Shared>, cur: seq<nat>, delivered: seq<seq<nat>>, nothingForced: bool, t: nat,
        j: nat)
      requires Received(H, cur, delivered, nothingForced) && t < |cur| && j == Next(H, t, cur[t]) && j < |H|
      ensures Received(H, cur[t := j + 1], delivered[t := delivered[t] + [j]], nothingForced)
    {
      assert ReceivedBy(H, t, cur[t], delivered[t], nothingForced);
      OneMoreReceived(H, t, cur[t], delivered[t], nothingForced, j);
    }

    static lemma OneMoreReceived(H: seq<Shared>, t: nat, c: nat, d: seq<nat>, nothingForced: bool, j: nat)
      requires ReceivedBy(H, t, c, d, nothingForced) && j == Next(H, t, c) && j < |H|
      ensures ReceivedBy(H, t, j + 1, d + [j], nothingForced)
    {
      OthersSkip(H, t, c, j);
      var d' := d + [j];
      forall x, y | 0 <= x < y < |d'| ensures d'[x] < d'[y] {
        if y == |d| { assert d[x] in d; }
      }
    }

    static lemma ReceivedSkip(H: seq<Shared>, cur: seq<nat>, delivered: seq<seq<nat>>, nothingForced: bool, t: nat)
      requires Received(H, cur, delivered, nothingForced) && t < |cur| && Next(H, t, cur[t]) == |H|
      ensures Received(H, cur[t := |H|], delivered, nothingForced)
    {
      assert ReceivedBy(H, t, cur[t], delivered[t], nothingForced);
      OthersSkip(H, t, cur[t], |H|);
      assert ReceivedBy(H, t, |H|, delivered[t], nothingForced);
    }

    lemma AtOldest(j: nat, pos: nat, skip: int)
      requires Core(skip) && CursorAt(maxsize, last, H, base, j, pos)
      ensures pos == last <==> j == base
    {
      OffSplit(H, base, j, |H|);
    }

    method Place(threadId: nat, thislast: nat)
      requires Core(threadId) && threadId < nbThreads && CursorAt(maxsize, last, H, base, cur[threadId], thislast)
      modifies lastOfThread
      ensures Core(-1)
    {
      ghost var pos := lastOfThread[..];
      lastOfThread[threadId] := thislast;
      assert lastOfThread[..] == pos[threadId := thislast];
      RepPlace(maxsize, nbThreads, elems[..], pos, first, last, queuesize, H, base, cur, threadId, thislast);
    }

    /** The reading half of getClause, once there is a clause j to read. */
    method Take(threadId: nat, thislast: nat, ghost j: nat) returns (origin: nat, lits: seq<nat>)
      requires Valid() && threadId < nbThreads && j < |H| && j == Next(H, threadId, cur[threadId]) && cur[threadId] <= j
      requires CursorAt(maxsize, last, H, base, j, thislast)
      modifies this, elems, lastOfThread
      ensures Valid() && H == old(H) && forcedRemovedClauses == old(forcedRemovedClauses)
      ensures lits == H[j].lits && origin == H[j].origin
      ensures delivered == old(delivered)[threadId := old(delivered)[threadId] + [j]]
      ensures old(base) <= base <= |H| && cur == Raise(old(cur)[threadId := j + 1], base)
      ensures AllSeen(old(cur)[threadId := j + 1], H, old(base), base)
    {
      ghost var received := delivered[threadId := delivered[threadId] + [j]];
      ReceivedRead(H, cur, delivered, forcedRemovedClauses == 0, threadId, j);
      var end;
      lits, origin, end := ReadAndRemove(threadId, thislast, j, received);
      Finish(threadId, end, received);
    }

    method ReadAndRemove(threadId: nat, thislast: nat, ghost j: nat, ghost received: seq<seq<nat>>)
      returns (lits: seq<nat>, origin: nat, end: nat)
      requires Core(-1) && threadId < nbThreads && j < |H| && j == Next(H, threadId, cur[threadId])
        && cur[threadId] <= j
      requires CursorAt(maxsize, last, H, base, j, thislast)
      requires Received(H, cur[threadId := j + 1], received, forcedRemovedClauses == 0) && Wanted(H, base, cur)
      modifies elems, this`last, this`queuesize, this`removedClauses, this`base, this`cur, lastOfThread
      ensures Core(threadId) && CursorAt(maxsize, last, H, base, cur[threadId], end)
      ensures Received(H, cur, received, forcedRemovedClauses == 0)
      ensures lits == H[j].lits && origin == H[j].origin
      ensures old(base) <= base <= |H| && cur == Raise(old(cur)[threadId := j + 1], base)
      ensures AllSeen(old(cur)[threadId := j + 1], H, old(base), base) && Wanted(H, base, cur)
    {
      ghost var was := cur;
      Several(threadId, j);
      ReadCounters(H, cur, threadId, j, base);
      AtOldest(j, thislast, -1);
      OffSplit(H, base, j, |H|);
      var removeAfter;
      lits, origin, end, removeAfter := ReadClause(threadId, thislast, j);
      end := DropRead(threadId, thislast, end, removeAfter, j, was, received);
    }

    /** The dropping half: a clause that was the oldest one and has now been read by everybody goes. */
    method DropRead(threadId: nat, previouslast: nat, thislast: nat, removeAfter: bool, ghost j: nat,
        ghost was: seq<nat>, ghost received: seq<seq<nat>>) returns (end: nat)
      requires Core(threadId) && threadId < nbThreads && base <= j < |H| && |was| == |cur| && was[threadId] <= j
      requires cur == was[threadId := j + 1] && CursorAt(maxsize, last, H, base, j + 1, thislast)
      requires (previouslast == last <==> j == base) && (removeAfter <==> Counter(cur, H[j].origin, j) == 0)
      requires j != base ==> Wanted(H, base, cur)
      requires Received(H, cur, received, forcedRemovedClauses == 0)
      modifies this`last, this`queuesize, this`removedClauses, this`base, this`cur, lastOfThread
      ensures Core(threadId) && CursorAt(maxsize, last, H, base, cur[threadId], end)
      ensures Received(H, cur, received, forcedRemovedClauses == 0)
      ensures old(base) <= base <= |H| && cur == Raise(old(cur), base)
      ensures AllSeen(old(cur), H, old(base), base) && Wanted(H, base, cur)
    {
      if last == previouslast && removeAfter {
        end := RemoveRead(threadId, was, received);
      } else {
        assert cur == Raise(cur, base);
        end := thislast;
      }
    }

    method Finish(threadId: nat, thislast: nat, ghost received: seq<seq<nat>>)
      requires Core(threadId) && threadId < nbThreads && CursorAt(maxsize, last, H, base, cur[threadId], thislast)
      requires Received(H, cur, received, forcedRemovedClauses == 0)
        && (forcedRemovedClauses > 0 ==> whenFullRemoveOlder) && Wanted(H, base, cur)
      modifies lastOfThread, this`delivered
      ensures Valid() && delivered == received
    {
      Place(threadId, thislast);
      delivered := received;
    }

    /** Delivers the thread's next clause: the first one it has not passed that is not its own. */
    method GetClause(threadId: nat) returns (found: bool, origin: nat, lits: seq<nat>, ghost j: nat)
      requires Valid() && threadId < nbThreads
      modifies this, elems, lastOfThread
      ensures Valid() && H == old(H) && forcedRemovedClauses == old(forcedRemovedClauses)
      ensures j == Next(H, threadId, old(cur)[threadId]) && (found <==> j < |H|)
      ensures found ==> lits == H[j].lits && origin == H[j].origin
      ensures found ==> delivered == old(delivered)[threadId := old(delivered)[threadId] + [j]]
      ensures found ==> old(base) <= base <= |H| && cur == Raise(old(cur)[threadId := j + 1], base)
      ensures found ==> AllSeen(old(cur)[threadId := j + 1], H, old(base), base)
      ensures !found ==> delivered == old(delivered) && base == old(base) && cur == old(cur)[threadId := |H|]
    {
      var ended, thislast;
      ended, thislast, j := FindNext(threadId);
      if ended {
        Skip(threadId, thislast);
        return false, 0, [], j;
      }
      origin, lits := Take(threadId, thislast, j);
      found := true;
    }

    /** The correction for a cursor that has fallen behind the oldest clause. */
    function NotBehind(pos: nat): nat
      reads this`first, this`last
    {
      if pos < last < first || first < pos < last || last < first < pos then last else pos
    }

    /** Where the thread's next clause is. */
    method FindNext(threadId: nat) returns (ended: bool, thislast: nat, ghost j: nat)
      requires Valid() && threadId < nbThreads
      ensures cur[threadId] <= j <= |H| && j == Next(H, threadId, cur[threadId])
        && CursorAt(maxsize, last, H, base, j, thislast)
      ensures ended <==> j == |H|
    {
      thislast, j := lastOfThread[threadId], cur[threadId];
      assert CursorAt(maxsize, last, H, base, cur[threadId], lastOfThread[..][threadId]);
      AtEnd(cur[threadId], thislast, -1);
      if NextIndex(thislast) == first { return true, thislast, j; }
      NeverBehind(cur[threadId], thislast, -1);
      thislast := NotBehind(thislast);
      thislast, j := SkipOwn(threadId, thislast);
      AtEnd(j, thislast, -1);
      ended := NextIndex(thislast) == first;
    }

    static lemma WantedSkip(H: seq<Shared>, base: nat, cur: seq<nat>, t: nat)
      requires Wanted(H, base, cur) && t < |cur| && cur[t] <= |H| && Next(H, t, cur[t]) == |H|
      ensures Wanted(H, base, cur[t := |H|])
    {
      if base < |H| {
        WaitingMove(cur, H[base].origin, base, t, |H|);
      }
    }

    method Skip(threadId: nat, thislast: nat)
      requires Valid() && threadId < nbThreads && Next(H, threadId, cur[threadId]) == |H|
      requires CursorAt(maxsize, last, H, base, |H|, thislast)
      modifies this`cur, lastOfThread
      ensures Valid() && cur == old(cur)[threadId := |H|]
    {
      ghost var pos := lastOfThread[..];
      ReceivedSkip(H, cur, delivered, forcedRemovedClauses == 0, threadId);
      WantedSkip(H, base, cur, threadId);
      RepSkip(maxsize, nbThreads, elems[..], pos, first, last, queuesize, H, base, cur, threadId, |H|, thislast);
      lastOfThread[threadId] := thislast;
      assert lastOfThread[..] == pos[threadId := thislast];
      cur := cur[threadId := |H|];
    }

    // ----- what holds after every interleaving -----

    /** The k-th cell of a stored clause, counted from the oldest one around the ring: its size, the number
        of other threads that have not passed it (1 with a single thread), its origin, its literals. */
    lemma StoredRecord(j: nat, k: nat)
      requires Valid() && base <= j < |H| && k < |H[j].lits| + 3
      ensures maxsize == elems.Length > 0
      ensures var cell := elems[(last + 1 + Off(H, base, j) + k) % maxsize];
              if k == 0 then cell == |H[j].lits|
              else if k == 1 then cell == if nbThreads > 1 then |WaitingThreads(cur, H[j].origin, j)| else 1
              else if k == 2 then cell == H[j].origin
              else cell == H[j].lits[k - 3]
    {
      hide Received, Cursors, Waiting, WaitingThreads, Off, Cells, Wanted;
      var d := Off(H, base, j) + k;
      RecordCell(j, k);
      SlotIs(maxsize, last, d);
    }

    lemma RecordCell(j: nat, k: nat)
      requires Valid() && base <= j < |H| && k < Len(H[j])
      ensures Off(H, base, j) + k < maxsize == elems.Length && last < maxsize
      ensures var cell := elems[Slot(maxsize, last, Off(H, base, j) + k)];
              if k == 0 then cell == |H[j].lits|
              else if k == 1 then cell == if nbThreads > 1 then |WaitingThreads(cur, H[j].origin, j)| else 1
              else if k == 2 then cell == H[j].origin
              else cell == H[j].lits[k - 3]
    {
      hide Received, Cursors, Wanted, Record, Waiting, WaitingThreads, Off, Cells;
      var d := Off(H, base, j) + k;
      CellsAt(H, base, j, |H|, cur, k);
      assert elems[..][Slot(maxsize, last, d)] == Cells(H, base, |H|, cur)[d];
      WaitingCounts(cur, H[j].origin, j);
      RecordAt(H[j], Counter(cur, H[j].origin, j), k);
    }

    static lemma RecordAt(c: Shared, seen: nat, k: nat)
      requires k < Len(c)
      ensures Record(c, seen)[k] ==
        if k == 0 then |c.lits| else if k == 1 then seen else if k == 2 then c.origin else c.lits[k - 3]
    {
    }

    static lemma OnceAround(y: nat, M: nat)
      requires y < M
      ensures (y + M) % M == y
    {
    }

    static lemma SlotIs(M: nat, last: nat, k: nat)
      requires last < M && k < M
      ensures Slot(M, last, k) == (last + 1 + k) % M
    {
      if last + 1 + k >= M {
        OnceAround(last + 1 + k - M, M);
      }
    }

    /** A buffer that never removes older clauses has delivered to each thread exactly the accepted
        clauses of the others up to its cursor, in push order. */
    lemma ExactDelivery(t: nat)
      requires Valid() && !whenFullRemoveOlder && t < nbThreads
      ensures cur[t] <= |H| && delivered[t] == Others(H, t, cur[t])
    {
      assert ReceivedBy(H, t, cur[t], delivered[t], true);
    }

    /** In either mode: in push order, never twice, never the thread's own. */
    lemma OrderlyDelivery(t: nat)
      requires Valid() && t < nbThreads
      ensures InOrder(H, t, cur[t], delivered[t])
    {
      assert ReceivedBy(H, t, cur[t], delivered[t], forcedRemovedClauses == 0);
    }
  }
}
