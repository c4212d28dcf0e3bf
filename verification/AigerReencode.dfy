/** Re-encoding of an AIGER circuit into topological order: what the new codes mean, why the result
    is in normal form, and why every root literal keeps its value. */
module AigerReencoding {
  import opened Aigs
  import opened AigerCycles
  import opened AigerPruning
  import opened AigerCodecs

  /** The table of new literals: the k-th variable of the order gets the literals 2k + 2 and 2k + 3;
      variables that are not in the order have no code yet. */
  ghost predicate CodesFor(code: seq<nat>, order: seq<nat>, maxvar: nat) {
    && |code| == 2 * (maxvar + 1) && code[0] == 0 && code[1] == 1 && Distinct(order)
    && (forall k :: 0 <= k < |order| ==> CodeAt(code, order[k], maxvar, k))
    && (forall v :: 0 < v <= maxvar && v !in order ==> code[2 * v] == 0 && code[2 * v + 1] == 0)
  }

  ghost predicate CodeAt(code: seq<nat>, v: nat, maxvar: nat, k: nat) {
    |code| == 2 * (maxvar + 1) && 0 < v <= maxvar && code[2 * v] == 2 * k + 2 && code[2 * v + 1] == 2 * k + 3
  }

  lemma CodesNext(code: seq<nat>, order: seq<nat>, maxvar: nat, v: nat)
    requires CodesFor(code, order, maxvar) && 0 < v <= maxvar && v !in order
    ensures CodesFor(code[2 * v := 2 * |order| + 2][2 * v + 1 := 2 * |order| + 3], order + [v], maxvar)
  {
    var code', order' := code[2 * v := 2 * |order| + 2][2 * v + 1 := 2 * |order| + 3], order + [v];
    forall k | 0 <= k < |order'| ensures CodeAt(code', order'[k], maxvar, k) {
      if k < |order| {
        assert order[k] in order && CodeAt(code, order[k], maxvar, k);
      }
    }
    forall u | 0 < u <= maxvar && u !in order' ensures code'[2 * u] == 0 && code'[2 * u + 1] == 0 {
      assert v in order' && u !in order;
    }
  }

  /** The code of a literal whose variable has one: even for even, odd for odd. */
  lemma CodeOfLit(code: seq<nat>, order: seq<nat>, maxvar: nat, l: nat) returns (k: nat)
    requires CodesFor(code, order, maxvar) && LitVar(l) <= maxvar && LitVar(l) in order
    ensures k < |order| && order[k] == LitVar(l) && l < |code| && code[l] == 2 * k + 2 + l % 2
  {
    LitVarIsHalf(l);
    k :| 0 <= k < |order| && order[k] == LitVar(l);
    assert CodeAt(code, order[k], maxvar, k);
  }

  /** Only variables of the order have codes. */
  lemma HasCode(code: seq<nat>, order: seq<nat>, maxvar: nat, l: nat)
    requires CodesFor(code, order, maxvar) && 0 < LitVar(l) <= maxvar && l < |code| && code[l] != 0
    ensures LitVar(l) in order
  {
    LitVarIsHalf(l);
    assert l == 2 * LitVar(l) || l == 2 * LitVar(l) + 1;
  }

  lemma NotCoded(code: seq<nat>, order: seq<nat>, maxvar: nat, v: nat)
    requires CodesFor(code, order, maxvar) && 0 < v <= maxvar && code[2 * v] == 0
    ensures v !in order
  {
    forall k | 0 <= k < |order| ensures order[k] != v {
      assert CodeAt(code, order[k], maxvar, k);
    }
  }

  /** The variable behind a new literal. */
  lemma NewVar(k: nat, odd: nat)
    requires odd < 2
    ensures LitVar(2 * k + 2 + odd) == k + 1 && (2 * k + 2 + odd) % 2 == odd
  {
    LitVarIsHalf(2 * k + 2 + odd);
  }

  // ----- the new gates -----

  function NewGate(code: seq<nat>, g: And): And
    requires g.lhs < |code| && g.rhs0 < |code| && g.rhs1 < |code|
  {
    var a, b := code[g.rhs0], code[g.rhs1];
    if a < b then And(code[g.lhs], b, a) else And(code[g.lhs], a, b)
  }

  ghost predicate Codable(code: seq<nat>, gs: seq<And>) {
    forall k :: 0 <= k < |gs| ==> gs[k].lhs < |code| && gs[k].rhs0 < |code| && gs[k].rhs1 < |code|
  }

  /** The gates that have a code, with their new literals, in the old order. */
  function Recoded(code: seq<nat>, gs: seq<And>, n: nat): (r: seq<And>)
    requires n <= |gs| && Codable(code, gs)
    ensures |r| <= n
  {
    if n == 0 then []
    else if code[gs[n - 1].lhs] == 0 then Recoded(code, gs, n - 1)
    else Recoded(code, gs, n - 1) + [NewGate(code, gs[n - 1])]
  }

  lemma {:induction false} RecodedHas(code: seq<nat>, gs: seq<And>, n: nat, x: And)
    requires n <= |gs| && Codable(code, gs)
    ensures x in Recoded(code, gs, n) <==> exists k :: 0 <= k < n && code[gs[k].lhs] != 0 && x == NewGate(code, gs[k])
  {
    if n > 0 {
      RecodedHas(code, gs, n - 1, x);
    }
  }

  // ----- sorting by left-hand side -----

  ghost predicate SortedBy(s: seq<And>) {
    forall i, j :: 0 <= i < j < |s| ==> s[i].lhs < s[j].lhs
  }

  /** Two strictly sorted lists with the same gates are equal. */
  lemma {:induction false} SortedSame(s: seq<And>, t: seq<And>)
    requires SortedBy(s) && SortedBy(t) && forall x :: x in s <==> x in t
    ensures s == t
    decreases |s|
  {
    if s == [] {
      assert forall i :: 0 <= i < |t| ==> t[i] in t;
    } else {
      assert s[0] in s && s[0] in t;
      assert t[0] in t && t[0] in s;
      FirstSame(s, t);
      forall x | x in s[1..] ensures x in t[1..] {
        TailHas(s, t, x);
      }
      forall x | x in t[1..] ensures x in s[1..] {
        TailHas(t, s, x);
      }
      SortedSame(s[1..], t[1..]);
      assert s == [s[0]] + s[1..] && t == [t[0]] + t[1..];
    }
  }

  lemma FirstSame(s: seq<And>, t: seq<And>)
    requires SortedBy(s) && SortedBy(t) && s != [] && t != [] && s[0] in t && t[0] in s
    ensures s[0] == t[0]
  {
    FirstLeast(t, s[0]);
    FirstLeast(s, t[0]);
  }

  lemma FirstLeast(t: seq<And>, x: And)
    requires SortedBy(t) && x in t
    ensures t[0] == x || t[0].lhs < x.lhs
  {
    var i :| 0 <= i < |t| && t[i] == x;
    assert i == 0 || t[0].lhs < t[i].lhs;
  }

  lemma TailHas(s: seq<And>, t: seq<And>, x: And)
    requires SortedBy(s) && s != [] && t != [] && s[0] == t[0] && x in s[1..] && x in t
    ensures x in t[1..]
  {
    var i :| 0 <= i < |s| - 1 && s[1..][i] == x;
    assert s[0].lhs < s[i + 1].lhs;
    assert t == [t[0]] + t[1..];
  }

  /** Inserts a gate behind all gates with a smaller left-hand side. */
  function Insert(s: seq<And>, g: And): (r: seq<And>)
    ensures multiset(r) == multiset(s) + multiset{g}
  {
    if s == [] then [g]
    else if s[0].lhs < g.lhs then
      assert s == [s[0]] + s[1..];
      [s[0]] + Insert(s[1..], g)
    else [g] + s
  }

  function SortGates(s: seq<And>): (r: seq<And>)
    ensures multiset(r) == multiset(s)
  {
    if s == [] then []
    else
      assert s == s[..|s| - 1] + [s[|s| - 1]];
      Insert(SortGates(s[..|s| - 1]), s[|s| - 1])
  }

  lemma {:induction false} InsertSorted(s: seq<And>, g: And)
    requires SortedBy(s) && forall x :: x in s ==> x.lhs != g.lhs
    ensures SortedBy(Insert(s, g))
    ensures forall x :: x in Insert(s, g) <==> x in s || x == g
    decreases |s|
  {
    if s == [] {
    } else if s[0].lhs < g.lhs {
      Uncons(s);
      InsertSorted(s[1..], g);
      ConsSorted(s[0], Insert(s[1..], g));
    } else {
      Uncons(s);
      assert s[0] in s;
      ConsSorted(g, s);
    }
  }

  lemma Uncons(s: seq<And>)
    requires SortedBy(s) && s != []
    ensures s == [s[0]] + s[1..] && SortedBy(s[1..]) && forall x :: x in s[1..] ==> s[0].lhs < x.lhs
  {
  }

  lemma ConsSorted(x: And, t: seq<And>)
    requires SortedBy(t) && forall y :: y in t ==> x.lhs < y.lhs
    ensures SortedBy([x] + t) && forall y :: y in [x] + t <==> y == x || y in t
  {
  }

  ghost predicate DistinctLhs(s: seq<And>) {
    forall i, j :: 0 <= i < j < |s| ==> s[i].lhs != s[j].lhs
  }

  lemma {:induction false} SortGatesSorted(s: seq<And>)
    requires DistinctLhs(s)
    ensures SortedBy(SortGates(s)) && forall x :: x in SortGates(s) <==> x in s
    decreases |s|
  {
    if s != [] {
      var n := |s| - 1;
      assert s == s[..n] + [s[n]];
      SortGatesSorted(s[..n]);
      InsertSorted(SortGates(s[..n]), s[n]);
    }
  }

  // ----- the finished table -----

  /** All gates in done have been coded, operands first; everything they use is a leaf (an input or
      a latch), a constant, or such a gate. */
  ghost predicate Table(maxvar: nat, gs: seq<And>, isAnd: seq<bool>, idx: seq<nat>, leaves: seq<nat>, done: seq<nat>,
      code: seq<nat>)
  {
    && TypedAt(maxvar, gs, isAnd, idx) && CodesFor(code, leaves + done, maxvar)
    && Finished(GraphOf(gs, isAnd, idx), done)
    && (forall v :: v in done ==> v <= maxvar && isAnd[v])
    && (forall v :: v in leaves ==> v <= maxvar && !isAnd[v])
    && (forall k :: 0 <= k < |gs| ==> Defined(isAnd, leaves, gs[k].rhs0) && Defined(isAnd, leaves, gs[k].rhs1))
  }

  ghost predicate Defined(isAnd: seq<bool>, leaves: seq<nat>, l: nat) {
    LitVar(l) == 0 || LitVar(l) in leaves || (LitVar(l) < |isAnd| && isAnd[LitVar(l)])
  }

  lemma TableCodable(maxvar: nat, gs: seq<And>, isAnd: seq<bool>, idx: seq<nat>, leaves: seq<nat>, done: seq<nat>,
      code: seq<nat>)
    requires Table(maxvar, gs, isAnd, idx, leaves, done, code)
    ensures Codable(code, gs)
  {
    forall k | 0 <= k < |gs| ensures gs[k].lhs < |code| && gs[k].rhs0 < |code| && gs[k].rhs1 < |code| {
      assert GateTyped(maxvar, gs[k], isAnd, idx, k);
      LitVarIsHalf(gs[k].lhs);
      LitVarIsHalf(gs[k].rhs0);
      LitVarIsHalf(gs[k].rhs1);
    }
  }

  /** The gate of the p-th coded variable. */
  ghost function GateOf(gs: seq<And>, idx: seq<nat>, done: seq<nat>, p: nat): And
    requires p < |done| && done[p] < |idx| && idx[done[p]] < |gs|
  {
    gs[idx[done[p]]]
  }

  lemma GateOfDone(maxvar: nat, gs: seq<And>, isAnd: seq<bool>, idx: seq<nat>, leaves: seq<nat>, done: seq<nat>,
      code: seq<nat>, p: nat)
    requires Table(maxvar, gs, isAnd, idx, leaves, done, code) && p < |done|
    ensures done[p] < |idx| && idx[done[p]] < |gs| && GateOf(gs, idx, done, p).lhs == 2 * done[p]
    ensures 2 * done[p] < |code| && code[2 * done[p]] == 2 * (|leaves| + p) + 2
  {
    assert done[p] in done && (leaves + done)[|leaves| + p] == done[p];
    assert CodeAt(code, (leaves + done)[|leaves| + p], maxvar, |leaves| + p);
  }

  /** What an operand is coded as: a constant stays, everything else was coded before the gate. */
  ghost predicate Before(maxvar: nat, leaves: seq<nat>, done: seq<nat>, code: seq<nat>, l: nat, p: nat) {
    l < |code| && if LitVar(l) == 0 then code[l] == l
                  else exists k ::
                    0 <= k < |leaves| + p && k < |leaves| + |done| && (leaves + done)[k] == LitVar(l)
                    && code[l] == 2 * k + 2 + l % 2
  }

  lemma OperandBefore(maxvar: nat, gs: seq<And>, isAnd: seq<bool>, idx: seq<nat>, leaves: seq<nat>, done: seq<nat>,
      code: seq<nat>, p: nat, l: nat)
    requires Table(maxvar, gs, isAnd, idx, leaves, done, code) && p < |done|
    requires done[p] < |idx| && idx[done[p]] < |gs|
      && (l == GateOf(gs, idx, done, p).rhs0 || l == GateOf(gs, idx, done, p).rhs1)
    ensures Before(maxvar, leaves, done, code, l, p) && l < |code| && code[l] < 2 * (|leaves| + p) + 2
  {
    TableCodable(maxvar, gs, isAnd, idx, leaves, done, code);
    LitVarIsHalf(l);
    if LitVar(l) != 0 {
      var k := OperandPosition(maxvar, gs, isAnd, idx, leaves, done, code, p, l);
      BeforeAt(maxvar, leaves, done, code, l, p, k);
    } else {
      assert l < 2;
    }
  }

  lemma BeforeAt(maxvar: nat, leaves: seq<nat>, done: seq<nat>, code: seq<nat>, l: nat, p: nat, k: nat)
    requires CodesFor(code, leaves + done, maxvar) && p <= |done| && k < |leaves| + p
      && (leaves + done)[k] == LitVar(l) != 0
    ensures Before(maxvar, leaves, done, code, l, p) && l < |code| && code[l] < 2 * (|leaves| + p) + 2
  {
    LitVarIsHalf(l);
    assert CodeAt(code, (leaves + done)[k], maxvar, k);
  }

  lemma OperandPosition(maxvar: nat, gs: seq<And>, isAnd: seq<bool>, idx: seq<nat>, leaves: seq<nat>, done: seq<nat>,
      code: seq<nat>, p: nat, l: nat) returns (k: nat)
    requires Table(maxvar, gs, isAnd, idx, leaves, done, code) && p < |done| && LitVar(l) != 0
    requires done[p] < |idx| && idx[done[p]] < |gs|
      && (l == GateOf(gs, idx, done, p).rhs0 || l == GateOf(gs, idx, done, p).rhs1)
    ensures k < |leaves| + p && (leaves + done)[k] == LitVar(l)
  {
    var G, v, w := GraphOf(gs, isAnd, idx), done[p], LitVar(l);
    var g := gs[idx[v]];
    assert done[p] in done && GateTyped(maxvar, g, isAnd, idx, idx[v]);
    assert Defined(isAnd, leaves, g.rhs0) && Defined(isAnd, leaves, g.rhs1);
    if w in leaves {
      k :| 0 <= k < |leaves| && leaves[k] == w;
    } else {
      assert G.kids[v] == (LitVar(g.rhs0), LitVar(g.rhs1));
      var j := KidEarlier(G, done, p, w);
      k := |leaves| + j;
    }
  }

  lemma KidEarlier(G: Graph, done: seq<nat>, p: nat, w: nat) returns (j: nat)
    requires Finished(G, done) && p < |done| && G.Edge(done[p], w)
    ensures j < p && done[j] == w
  {
    j :| 0 <= j < p && done[..p][j] == w;
  }

  /** The gates of the re-encoded circuit, in order. */
  ghost function NewGates(gs: seq<And>, idx: seq<nat>, done: seq<nat>, code: seq<nat>): (r: seq<And>)
    requires Codable(code, gs) && forall p :: 0 <= p < |done| ==> done[p] < |idx| && idx[done[p]] < |gs|
    ensures |r| == |done|
  {
    seq(|done|, p requires 0 <= p < |done| => NewGate(code, GateOf(gs, idx, done, p)))
  }

  ghost predicate Indexable(gs: seq<And>, idx: seq<nat>, done: seq<nat>, code: seq<nat>) {
    Codable(code, gs) && forall p :: 0 <= p < |done| ==> done[p] < |idx| && idx[done[p]] < |gs|
  }

  lemma TableIndexable(maxvar: nat, gs: seq<And>, isAnd: seq<bool>, idx: seq<nat>, leaves: seq<nat>, done: seq<nat>,
      code: seq<nat>)
    requires Table(maxvar, gs, isAnd, idx, leaves, done, code)
    ensures Indexable(gs, idx, done, code)
  {
    TableCodable(maxvar, gs, isAnd, idx, leaves, done, code);
    forall p | 0 <= p < |done| ensures done[p] < |idx| && idx[done[p]] < |gs| {
      GateOfDone(maxvar, gs, isAnd, idx, leaves, done, code, p);
    }
  }

  /** The result is in normal form: consecutive left-hand sides, operands below and descending. */
  lemma NewGatesNormal(maxvar: nat, gs: seq<And>, isAnd: seq<bool>, idx: seq<nat>, leaves: seq<nat>, done: seq<nat>,
      code: seq<nat>)
    requires Table(maxvar, gs, isAnd, idx, leaves, done, code) && Indexable(gs, idx, done, code)
    ensures Reencoded(NewGates(gs, idx, done, code), 2 * |leaves|)
    ensures forall p :: 0 <= p < |done| ==> NewGates(gs, idx, done, code)[p].lhs > NewGates(gs, idx, done, code)[p].rhs0
  {
    var r := NewGates(gs, idx, done, code);
    forall p | 0 <= p < |r| ensures r[p].lhs == 2 * |leaves| + 2 * (p + 1) && Descending(r[p]) && r[p].lhs > r[p].rhs0 {
      var g := GateOf(gs, idx, done, p);
      GateOfDone(maxvar, gs, isAnd, idx, leaves, done, code, p);
      OperandBefore(maxvar, gs, isAnd, idx, leaves, done, code, p, g.rhs0);
      OperandBefore(maxvar, gs, isAnd, idx, leaves, done, code, p, g.rhs1);
    }
  }

  // ----- meaning -----

  /** Inputs and latches have the same values in both circuits. */
  ghost predicate LeavesAgree(leaves: seq<nat>, A: set<nat>, A': set<nat>) {
    forall k :: 0 <= k < |leaves| ==> (leaves[k] in A <==> k + 1 in A')
  }

  /** An operand keeps its value if everything coded before the gate does. */
  lemma OperandAgrees(maxvar: nat, leaves: seq<nat>, done: seq<nat>, code: seq<nat>, A: set<nat>, A': set<nat>, p: nat,
      l: nat)
    requires Before(maxvar, leaves, done, code, l, p) && 0 !in A && 0 !in A'
    requires forall k :: 0 <= k < |leaves| + p && k < |leaves| + |done| ==> ((leaves + done)[k] in A <==> k + 1 in A')
    ensures LitIn(A', code[l]) == LitIn(A, l)
  {
    if LitVar(l) != 0 {
      var k :| 0 <= k < |leaves| + p && k < |leaves| + |done| && (leaves + done)[k] == LitVar(l)
        && code[l] == 2 * k + 2 + l % 2;
      NewVar(k, l % 2);
    }
  }

  lemma {:induction false} CodedAgrees(maxvar: nat, gs: seq<And>, isAnd: seq<bool>, idx: seq<nat>, leaves: seq<nat>,
      done: seq<nat>, code: seq<nat>, A: set<nat>, A': set<nat>, k: nat)
    requires Table(maxvar, gs, isAnd, idx, leaves, done, code) && Indexable(gs, idx, done, code)
    requires Models(gs, A) && Models(NewGates(gs, idx, done, code), A') && LeavesAgree(leaves, A, A')
    requires k < |leaves| + |done|
    ensures (leaves + done)[k] in A <==> k + 1 in A'
    decreases k
  {
    if k >= |leaves| {
      var p := k - |leaves|;
      var g := GateOf(gs, idx, done, p);
      forall j | 0 <= j < k ensures (leaves + done)[j] in A <==> j + 1 in A' {
        CodedAgrees(maxvar, gs, isAnd, idx, leaves, done, code, A, A', j);
      }
      OperandBefore(maxvar, gs, isAnd, idx, leaves, done, code, p, g.rhs0);
      OperandBefore(maxvar, gs, isAnd, idx, leaves, done, code, p, g.rhs1);
      OperandAgrees(maxvar, leaves, done, code, A, A', p, g.rhs0);
      OperandAgrees(maxvar, leaves, done, code, A, A', p, g.rhs1);
      GateOfDone(maxvar, gs, isAnd, idx, leaves, done, code, p);
      NewGateAgrees(gs, idx, done, code, A, A', p, k);
    }
  }

  lemma NewGateAgrees(gs: seq<And>, idx: seq<nat>, done: seq<nat>, code: seq<nat>, A: set<nat>, A': set<nat>, p: nat,
      k: nat)
    requires Indexable(gs, idx, done, code) && p < |done| && Models(gs, A) && Models(NewGates(gs, idx, done, code), A')
    requires var g := GateOf(gs, idx, done, p);
             && g.lhs == 2 * done[p] && code[g.lhs] == 2 * k + 2
             && LitIn(A', code[g.rhs0]) == LitIn(A, g.rhs0) && LitIn(A', code[g.rhs1]) == LitIn(A, g.rhs1)
    ensures done[p] in A <==> k + 1 in A'
  {
    var g, h := GateOf(gs, idx, done, p), NewGates(gs, idx, done, code)[p];
    assert h == NewGate(code, g);
    LitVarOf(done[p]);
    NewVar(k, 0);
    assert LitIn(A, g.lhs) == (LitIn(A, g.rhs0) && LitIn(A, g.rhs1));
    assert LitIn(A', h.lhs) == (LitIn(A', h.rhs0) && LitIn(A', h.rhs1));
  }

  /** Re-encoding preserves meaning: under the same input and latch values, any valuation of the old
      gates and any valuation of the new ones agree on every root literal and its new code. */
  lemma ReencodePreserves(maxvar: nat, gs: seq<And>, isAnd: seq<bool>, idx: seq<nat>, leaves: seq<nat>, done: seq<nat>,
      code: seq<nat>, A: set<nat>, A': set<nat>, l: nat)
    requires Table(maxvar, gs, isAnd, idx, leaves, done, code) && Indexable(gs, idx, done, code)
    requires Models(gs, A) && Models(NewGates(gs, idx, done, code), A') && LeavesAgree(leaves, A, A')
    requires LitVar(l) <= maxvar && (LitVar(l) == 0 || LitVar(l) in leaves + done)
    ensures l < |code| && LitIn(A', code[l]) == LitIn(A, l)
  {
    forall k | 0 <= k < |leaves| + |done| ensures (leaves + done)[k] in A <==> k + 1 in A' {
      CodedAgrees(maxvar, gs, isAnd, idx, leaves, done, code, A, A', k);
    }
    RootAgrees(leaves + done, maxvar, code, A, A', l);
  }

  lemma RootAgrees(order: seq<nat>, maxvar: nat, code: seq<nat>, A: set<nat>, A': set<nat>, l: nat)
    requires CodesFor(code, order, maxvar) && 0 !in A && 0 !in A' && LitVar(l) <= maxvar
      && (LitVar(l) == 0 || LitVar(l) in order)
    requires forall k :: 0 <= k < |order| ==> (order[k] in A <==> k + 1 in A')
    ensures l < |code| && LitIn(A', code[l]) == LitIn(A, l)
  {
    LitVarIsHalf(l);
    if LitVar(l) != 0 {
      var k := CodeOfLit(code, order, maxvar, l);
      NewVar(k, l % 2);
    }
  }

  // ----- the sorted list is the list of new gates -----

  lemma RecodedIsNew(maxvar: nat, gs: seq<And>, isAnd: seq<bool>, idx: seq<nat>, leaves: seq<nat>, done: seq<nat>,
      code: seq<nat>, x: And)
    requires Table(maxvar, gs, isAnd, idx, leaves, done, code) && Indexable(gs, idx, done, code)
    ensures x in Recoded(code, gs, |gs|) <==> x in NewGates(gs, idx, done, code)
  {
    RecodedHas(code, gs, |gs|, x);
    if x in NewGates(gs, idx, done, code) {
      var p :| 0 <= p < |done| && NewGates(gs, idx, done, code)[p] == x;
      GateOfDone(maxvar, gs, isAnd, idx, leaves, done, code, p);
    }
    if k :| 0 <= k < |gs| && code[gs[k].lhs] != 0 && x == NewGate(code, gs[k]) {
      CodedIsNew(maxvar, gs, isAnd, idx, leaves, done, code, k);
    }
  }

  lemma CodedIsNew(maxvar: nat, gs: seq<And>, isAnd: seq<bool>, idx: seq<nat>, leaves: seq<nat>, done: seq<nat>,
      code: seq<nat>, k: nat)
    requires Table(maxvar, gs, isAnd, idx, leaves, done, code) && Indexable(gs, idx, done, code)
    requires k < |gs| && gs[k].lhs < |code| && code[gs[k].lhs] != 0
    ensures gs[k].rhs0 < |code| && gs[k].rhs1 < |code| && NewGate(code, gs[k]) in NewGates(gs, idx, done, code)
  {
    var v := LitVar(gs[k].lhs);
    assert GateTyped(maxvar, gs[k], isAnd, idx, k);
    HasCode(code, leaves + done, maxvar, gs[k].lhs);
    assert v in done;
    var p :| 0 <= p < |done| && done[p] == v;
    assert NewGates(gs, idx, done, code)[p] == NewGate(code, gs[k]);
  }

  lemma {:induction false} RecodedDistinct(maxvar: nat, gs: seq<And>, isAnd: seq<bool>, idx: seq<nat>, order: seq<nat>,
      code: seq<nat>, n: nat)
    requires TypedAt(maxvar, gs, isAnd, idx) && CodesFor(code, order, maxvar) && Codable(code, gs) && n <= |gs|
    ensures DistinctLhs(Recoded(code, gs, n))
  {
    if n > 0 {
      RecodedDistinct(maxvar, gs, isAnd, idx, order, code, n - 1);
      var r := Recoded(code, gs, n - 1);
      if code[gs[n - 1].lhs] != 0 {
        forall x | x in r ensures x.lhs != code[gs[n - 1].lhs] {
          EarlierDiffers(maxvar, gs, isAnd, idx, order, code, n - 1, x);
        }
      }
    }
  }

  lemma EarlierDiffers(maxvar: nat, gs: seq<And>, isAnd: seq<bool>, idx: seq<nat>, order: seq<nat>, code: seq<nat>,
      n: nat, x: And)
    requires TypedAt(maxvar, gs, isAnd, idx) && CodesFor(code, order, maxvar) && Codable(code, gs) && n < |gs|
    requires x in Recoded(code, gs, n) && code[gs[n].lhs] != 0
    ensures x.lhs != code[gs[n].lhs]
  {
    RecodedHas(code, gs, n, x);
    var k :| 0 <= k < n && code[gs[k].lhs] != 0 && x == NewGate(code, gs[k]);
    DifferentCodes(maxvar, gs, isAnd, idx, order, code, k, n);
  }

  lemma DifferentCodes(maxvar: nat, gs: seq<And>, isAnd: seq<bool>, idx: seq<nat>, order: seq<nat>, code: seq<nat>,
      i: nat, j: nat)
    requires TypedAt(maxvar, gs, isAnd, idx) && CodesFor(code, order, maxvar) && Codable(code, gs)
    requires i < j < |gs| && code[gs[i].lhs] != 0 && code[gs[j].lhs] != 0
    ensures code[gs[i].lhs] != code[gs[j].lhs]
  {
    assert GateTyped(maxvar, gs[i], isAnd, idx, i) && GateTyped(maxvar, gs[j], isAnd, idx, j);
    var v, w := LitVar(gs[i].lhs), LitVar(gs[j].lhs);
    HasCode(code, order, maxvar, gs[i].lhs);
    HasCode(code, order, maxvar, gs[j].lhs);
    var a := CodeOfLit(code, order, maxvar, gs[i].lhs);
    var b := CodeOfLit(code, order, maxvar, gs[j].lhs);
    assert gs[i].lhs % 2 == 0 && gs[j].lhs % 2 == 0;
  }

  /** Dropping the gates without a code and sorting the rest gives the new gates in order. */
  lemma SortedRecodedIsNew(maxvar: nat, gs: seq<And>, isAnd: seq<bool>, idx: seq<nat>, leaves: seq<nat>, done: seq<nat>,
      code: seq<nat>)
    requires Table(maxvar, gs, isAnd, idx, leaves, done, code) && Indexable(gs, idx, done, code)
    ensures SortGates(Recoded(code, gs, |gs|)) == NewGates(gs, idx, done, code)
  {
    var r, new_gates := Recoded(code, gs, |gs|), NewGates(gs, idx, done, code);
    RecodedDistinct(maxvar, gs, isAnd, idx, leaves + done, code, |gs|);
    SortGatesSorted(r);
    NewGatesNormal(maxvar, gs, isAnd, idx, leaves, done, code);
    forall x ensures x in SortGates(r) <==> x in new_gates {
      RecodedIsNew(maxvar, gs, isAnd, idx, leaves, done, code, x);
    }
    SortedSame(SortGates(r), new_gates);
  }
}
