/** What the extraction does not look at: existential blocks before the one directly before a
    universal block. Two of them in a row make it choose a losing first move, whatever else the
    prefix holds. */
module ExtractLimits {
  import opened Literals
  import opened Qbf
  import opened Formulas
  import opened Resolution
  import opened FerpProofs
  import opened ExtractMove
  import opened ExtractTheory
  import opened ExtractRuns
  import opened ExtractSteps
  import opened ExtractBlocks
  import opened Certificates
  import opened Extraction
  import opened Aigs
  import FerpLimits

  /** An existential variable x two or more blocks before a universal u, and an existential y after it. */
  ghost predicate Apart(B: seq<Quant>, qd: seq<int>, d: nat, x: Var, q: nat, u: Var, e: nat, y: Var) {
    && AllBlocks(B) && WellIndexed(B, qd) && d + 1 < q < e < |B|
    && B[d].kind == EXISTS && x in B[d].vars && B[q].kind == FORALL && u in B[q].vars && B[e].kind == EXISTS
       && y in B[e].vars
  }

  /** Where the first move is not proved to win, there are three such variables. */
  lemma ApartOrWins(B: seq<Quant>, qd: seq<int>, q: nat)
    requires AllBlocks(B) && WellIndexed(B, qd) && q < |B| && B[q].kind == FORALL
    ensures (OneBlockBefore(B, q) || Unannotated(B, q)) <==> !exists d, x, u, e, y :: Apart(B, qd, d, x, q, u, e, y)
  {
    if !OneBlockBefore(B, q) && !Unannotated(B, q) {
      var d, x :| 0 <= d < q && B[d].kind == EXISTS && x in B[d].vars && d != q - 1;
      var e, y :| q < e < |B| && B[e].kind == EXISTS && y in B[e].vars;
      var u := B[q].vars[0];
      assert Apart(B, qd, d, x, q, u, e, y);
    }
  }

  // ----- the formula: u has to be the opposite of x, and y is of no use -----

  function Pair(a: Lit, b: Lit): seq<Lit> {
    if VarOf(a) < VarOf(b) then [a, b] else [b, a]
  }

  /** (x or y or u), (x or not y or u), (not x or y or not u), (not x or not y or not u). */
  function ApartMatrix(x: Var, u: Var, y: Var): seq<QClause>
    requires x > 0 && u > 0 && y > 0
  {
    var X, U, Y := MakeLit(x, false), MakeLit(u, false), MakeLit(y, false);
    [QClause(Pair(X, Y), [U]), QClause(Pair(X, Negate(Y)), [U]),
     QClause(Pair(Negate(X), Y), [Negate(U)]), QClause(Pair(Negate(X), Negate(Y)), [Negate(U)])]
  }

  // ----- its refutation -----

  /** Every variable negative, but for u if it is to be positive. */
  function Signed(v: Var, u: Var, pos: bool): Lit
    requires v > 0
  {
    MakeLit(v, !(v == u && pos))
  }

  function SignedAll(vars: seq<Var>, u: Var, pos: bool): (r: seq<Lit>)
    requires 0 !in vars
    ensures |r| == |vars| && forall i :: 0 <= i < |r| ==> vars[i] > 0 && r[i] == Signed(vars[i], u, pos)
  {
    assert forall i :: 0 <= i < |vars| ==> vars[i] in vars;
    seq(|vars|, i requires 0 <= i < |vars| => Signed(vars[i], u, pos))
  }

  ghost predicate NoZero(B: seq<Quant>)
    requires AllBlocks(B)
  {
    forall i :: 0 <= i < |B| ==> 0 !in B[i].vars
  }

  /** The universal variables of the first d blocks. */
  function Universals(B: seq<Quant>, d: nat, u: Var, pos: bool): seq<Lit>
    requires AllBlocks(B) && NoZero(B) && d <= |B|
  {
    if d == 0 then [] else
      Universals(B, d - 1, u, pos) + if B[d - 1].kind == FORALL then SignedAll(B[d - 1].vars, u, pos) else []
  }

  ghost predicate UniversalBefore(B: seq<Quant>, d: nat, v: Var)
    requires AllBlocks(B) && d <= |B|
  {
    exists i :: 0 <= i < d && B[i].kind == FORALL && v in B[i].vars
  }

  lemma {:induction false} UniversalsHas(B: seq<Quant>, d: nat, u: Var, pos: bool, l: Lit)
    requires AllBlocks(B) && NoZero(B) && d <= |B|
    ensures l in Universals(B, d, u, pos) <==> UniversalBefore(B, d, VarOf(l)) && l == Signed(VarOf(l), u, pos)
  {
    if d > 0 {
      UniversalsHas(B, d - 1, u, pos, l);
      if B[d - 1].kind == FORALL {
        var vars := B[d - 1].vars;
        if VarOf(l) in vars && l == Signed(VarOf(l), u, pos) {
          var i :| 0 <= i < |vars| && vars[i] == VarOf(l);
          assert SignedAll(vars, u, pos)[i] == l;
        }
        if l in SignedAll(vars, u, pos) {
          var i :| 0 <= i < |vars| && SignedAll(vars, u, pos)[i] == l;
          assert vars[i] in vars && VarOf(l) == vars[i];
        }
      }
    }
  }

  lemma UniversalsVars(B: seq<Quant>, d: nat, u: Var, pos: bool)
    requires AllBlocks(B) && NoZero(B) && d <= |B|
    ensures AnnotatedVars(Universals(B, d, u, pos)) == OppVars(Existential, B, d)
  {
    forall v ensures v in AnnotatedVars(Universals(B, d, u, pos)) <==> v in OppVars(Existential, B, d) {
      if v in AnnotatedVars(Universals(B, d, u, pos)) {
        var l :| l in Universals(B, d, u, pos) && VarOf(l) == v;
        UniversalsHas(B, d, u, pos, l);
      }
      if v in OppVars(Existential, B, d) {
        var i :| 0 <= i < d && v in B[i].vars && Owner(B[i].kind) != Existential;
        assert UniversalBefore(B, d, v) && v > 0;
        var l := Signed(v, u, pos);
        UniversalsHas(B, d, u, pos, l);
        assert l in Universals(B, d, u, pos) && VarOf(l) == v;
      }
    }
  }

  /** Copy 1 stands for x, copies 2 and 3 for y where u is false and where u is true. */
  const APART_TRACE: seq<seq<Lit>> := [[], [1, 2], [1, -2], [-1, 3], [-1, -3], [1], [-1], []]
  const APART_ANTE: seq<(nat, nat)> := [(0, 0), (1, 0), (2, 0), (3, 0), (4, 0), (1, 2), (3, 4), (5, 6)]
  const APART_INDEX: map<nat, nat> := map[0 := 0, 1 := 1, 2 := 2, 3 := 3, 4 := 4, 5 := 5, 6 := 6, 7 := 7]

  function ApartProof(B: seq<Quant>, d: nat, x: Var, u: Var, e: nat, y: Var): Proof
    requires AllBlocks(B) && NoZero(B) && d <= |B| && e <= |B|
  {
    Proof(map[1 := x, 2 := y, 3 := y],
          map[1 := Universals(B, d, u, false), 2 := Universals(B, e, u, false), 3 := Universals(B, e, u, true)],
          APART_TRACE, APART_ANTE, APART_INDEX, 7, map[])
  }

  lemma ApartShape(P: Proof)
    requires P.clauses == APART_TRACE && P.antecedents == APART_ANTE && P.index == APART_INDEX && P.root == 7
    requires P.original.Keys == {1, 2, 3} && P.annotation.Keys == {1, 2, 3}
      && forall p :: p in P.original ==> P.original[p] > 0
    ensures P.WellFormed() && (forall c :: c in APART_TRACE ==> P.Copies(c))
    ensures forall i :: 0 <= i < |P.clauses| ==> P.Copies(P.clauses[i])
  {
    forall c, l | c in APART_TRACE && l in c ensures VarOf(l) in P.original {
    }
    FerpLimits.CopiesByPosition(P);
  }

  lemma ApartOrder(P: Proof)
    requires P.WellFormed() && P.antecedents == APART_ANTE && P.index == APART_INDEX
    ensures Ordered(P) && IdsArePositions(P)
  {
  }

  lemma ApartStrict()
    ensures forall c :: c in APART_TRACE ==> StrictVars(c)
  {
  }

  lemma ApartPositive()
    ensures ResolutionCode([1, 2], [1, -2], [1]) == 0
  {
    FerpLimits.Resolves([1, 2], [1, -2], [1], 2);
  }

  lemma ApartNegative()
    ensures ResolutionCode([-1, 3], [-1, -3], [-1]) == 0
  {
    FerpLimits.Resolves([-1, 3], [-1, -3], [-1], 3);
  }

  lemma ApartEmpty()
    ensures ResolutionCode([1], [-1], []) == 0
  {
    FerpLimits.Resolves([1], [-1], [], 1);
  }

  ghost predicate ApartTrace(P: Proof) {
    && P.WellFormed() && P.clauses == APART_TRACE && P.antecedents == APART_ANTE && P.index == APART_INDEX
    && forall i :: 0 <= i < |P.clauses| ==> P.Copies(P.clauses[i])
  }

  lemma ApartNode(P: Proof, matrix: seq<QClause>, i: nat, a: nat, b: nat, p: seq<Lit>, q: seq<Lit>, c: seq<Lit>)
    requires P.WellFormed() && 1 <= i < |P.clauses| && a < |P.clauses| && b < |P.clauses| && b != 0
      && P.antecedents[i] == (a, b)
    requires P.TraceIndex(a) == a && P.TraceIndex(b) == b && P.Copies(c)
    requires P.clauses[a] == p && P.clauses[b] == q && P.clauses[i] == c && ResolutionCode(p, q, c) == 0
    ensures Passes(P, matrix, i)
  {
    FerpLimits.NodePasses(P, matrix, i, p, q, c);
  }

  lemma ApartIndex(P: Proof)
    requires P.index == APART_INDEX
    ensures P.TraceIndex(1) == 1 && P.TraceIndex(2) == 2 && P.TraceIndex(3) == 3 && P.TraceIndex(4) == 4
    ensures P.TraceIndex(5) == 5 && P.TraceIndex(6) == 6
  {
  }

  lemma ApartParents()
    ensures APART_ANTE[5] == (1, 2) && APART_ANTE[6] == (3, 4) && APART_ANTE[7] == (5, 6)
  {
  }

  lemma ApartClauses()
    ensures APART_TRACE[1] == [1, 2] && APART_TRACE[2] == [1, -2] && APART_TRACE[3] == [-1, 3]
      && APART_TRACE[4] == [-1, -3]
    ensures APART_TRACE[5] == [1] && APART_TRACE[6] == [-1] && APART_TRACE[7] == []
  {
  }

  lemma ApartNodes(P: Proof, matrix: seq<QClause>)
    requires ApartTrace(P)
    ensures Passes(P, matrix, 5) && Passes(P, matrix, 6) && Passes(P, matrix, 7)
  {
    ApartPositive();
    ApartNegative();
    ApartEmpty();
    ApartParents();
    ApartClauses();
    ApartIndex(P);
    ApartNode(P, matrix, 5, 1, 2, [1, 2], [1, -2], [1]);
    ApartNode(P, matrix, 6, 3, 4, [-1, 3], [-1, -3], [-1]);
    ApartNode(P, matrix, 7, 5, 6, [1], [-1], []);
  }

  lemma ApartReachable(P: Proof)
    requires P.WellFormed() && P.antecedents == APART_ANTE && P.index == APART_INDEX && P.root == 7
    ensures forall i :: 1 <= i < 8 ==> Reachable(P, i)
  {
    RootReachable(P);
    assert Uses(P, 7, 5) && Uses(P, 7, 6) && Uses(P, 5, 1) && Uses(P, 5, 2) && Uses(P, 6, 3) && Uses(P, 6, 4);
    ReachableStep(P, 7, 5);
    ReachableStep(P, 7, 6);
    ReachableStep(P, 5, 1);
    ReachableStep(P, 5, 2);
    ReachableStep(P, 6, 3);
    ReachableStep(P, 6, 4);
  }

  /** A leaf of two literals whose originals are the existential ones of its clause. */
  lemma PairLeaf(P: Proof, matrix: seq<QClause>, i: nat, a: Lit, b: Lit, U: Lit)
    requires P.WellFormed() && i < |P.clauses| && P.IsLeaf(i) && P.clauses[i] == [a, b] && P.Copies([a, b])
    requires 1 <= P.antecedents[i].0 <= |matrix|
    requires matrix[P.antecedents[i].0 - 1] == QClause(Pair(P.OriginalLit(a), P.OriginalLit(b)), [U])
    requires Consistent(P.Union([a, b])) && Negate(U) in P.Union([a, b])
    ensures Passes(P, matrix, i)
  {
    var o := P.OriginalLits([a, b]);
    assert o == [P.OriginalLit(a), P.OriginalLit(b)];
  }

  /** The literals that copies are annotated with agree, as only the sign of u differs. */
  lemma ApartUnion(B: seq<Quant>, qd: seq<int>, d: nat, x: Var, q: nat, u: Var, e: nat, y: Var, c: seq<Lit>, pos: bool)
    requires Apart(B, qd, d, x, q, u, e, y) && NoZero(B)
    requires var P := ApartProof(B, d, x, u, e, y);
             && P.Copies(c) && (forall l :: l in c ==> VarOf(l) == 1 || VarOf(l) == if pos then 3 else 2)
             && exists l :: l in c && VarOf(l) == if pos then 3 else 2
    ensures Consistent(ApartProof(B, d, x, u, e, y).Union(c))
    ensures MakeLit(u, !pos) in ApartProof(B, d, x, u, e, y).Union(c)
  {
    var P := ApartProof(B, d, x, u, e, y);
    forall a | a in P.Union(c) ensures a == Signed(VarOf(a), u, pos) {
      var l :| l in c && a in P.annotation[VarOf(l)];
      UniversalsHas(B, d, u, false, a);
      UniversalsHas(B, e, u, pos, a);
      if VarOf(l) == 1 {
        var i :| 0 <= i < d && B[i].kind == FORALL && VarOf(a) in B[i].vars;
        assert Depth(qd, u) == q && Depth(qd, VarOf(a)) == i;
      }
    }
    var l :| l in c && VarOf(l) == if pos then 3 else 2;
    var w := Signed(u, u, pos);
    assert UniversalBefore(B, e, u);
    UniversalsHas(B, e, u, pos, w);
    assert w in P.annotation[VarOf(l)] && w in P.Union(c);
  }

  lemma ApartLeaves(B: seq<Quant>, qd: seq<int>, d: nat, x: Var, q: nat, u: Var, e: nat, y: Var)
    requires Apart(B, qd, d, x, q, u, e, y) && NoZero(B)
    requires var P := ApartProof(B, d, x, u, e, y); P.WellFormed() && forall c :: c in APART_TRACE ==> P.Copies(c)
    ensures var P, M := ApartProof(B, d, x, u, e, y), ApartMatrix(x, u, y);
            Passes(P, M, 1) && Passes(P, M, 2) && Passes(P, M, 3) && Passes(P, M, 4)
  {
    var P, M := ApartProof(B, d, x, u, e, y), ApartMatrix(x, u, y);
    assert APART_TRACE[1] == [1, 2] && APART_TRACE[2] == [1, -2] && APART_TRACE[3] == [-1, 3]
      && APART_TRACE[4] == [-1, -3];
    ApartLeaf(B, qd, d, x, q, u, e, y, 1, 1, 2, false);
    ApartLeaf(B, qd, d, x, q, u, e, y, 2, 1, -2, false);
    ApartLeaf(B, qd, d, x, q, u, e, y, 3, -1, 3, true);
    ApartLeaf(B, qd, d, x, q, u, e, y, 4, -1, -3, true);
  }

  lemma ApartLeaf(B: seq<Quant>, qd: seq<int>, d: nat, x: Var, q: nat, u: Var, e: nat, y: Var, i: nat, a: Lit, b: Lit,
      pos: bool)
    requires Apart(B, qd, d, x, q, u, e, y) && NoZero(B)
    requires var P := ApartProof(B, d, x, u, e, y);
             P.WellFormed() && P.Copies([a, b]) && 1 <= i <= 4 && P.clauses[i] == [a, b]
    requires VarOf(a) == 1 && VarOf(b) == (if pos then 3 else 2) && Sign(a) == pos && Sign(b) == (i % 2 == 0)
      && pos == (i > 2)
    ensures Passes(ApartProof(B, d, x, u, e, y), ApartMatrix(x, u, y), i)
  {
    var P, M := ApartProof(B, d, x, u, e, y), ApartMatrix(x, u, y);
    assert a in [a, b] && b in [a, b];
    ApartUnion(B, qd, d, x, q, u, e, y, [a, b], pos);
    ApartClause(x, u, y, i);
    LeafOf(i);
    PairLeaf(P, M, i, a, b, MakeLit(u, pos));
  }

  lemma LeafOf(i: nat)
    requires 1 <= i <= 4
    ensures APART_ANTE[i] == (i, 0)
  {
  }

  lemma ApartClause(x: Var, u: Var, y: Var, i: nat)
    requires x > 0 && u > 0 && y > 0 && 1 <= i <= 4
    ensures ApartMatrix(x, u, y)[i - 1] == QClause(Pair(MakeLit(x, i > 2), MakeLit(y, i % 2 == 0)), [MakeLit(u, i > 2)])
  {
    assert Negate(MakeLit(x, false)) == MakeLit(x, true) && Negate(MakeLit(y, false)) == MakeLit(y, true);
    assert Negate(MakeLit(u, false)) == MakeLit(u, true);
  }

  lemma ApartGood(B: seq<Quant>, qd: seq<int>, d: nat, x: Var, q: nat, u: Var, e: nat, y: Var)
    requires Apart(B, qd, d, x, q, u, e, y) && x > 0 && u > 0 && y > 0
    ensures forall c :: c in ApartMatrix(x, u, y) ==> GoodClause(B, qd, c)
  {
    assert Depth(qd, x) == d && Depth(qd, u) == q && Depth(qd, y) == e;
    forall c | c in ApartMatrix(x, u, y) ensures GoodClause(B, qd, c) {
      assert forall l :: l in c.ex ==> VarOf(l) == x || VarOf(l) == y;
      assert forall l :: l in c.al ==> VarOf(l) == u;
    }
  }

  /** The refutation passes the check and meets everything the extraction takes for granted. */
  lemma ApartChecked(B: seq<Quant>, qd: seq<int>, d: nat, x: Var, q: nat, u: Var, e: nat, y: Var)
    requires Apart(B, qd, d, x, q, u, e, y)
    ensures NoZero(B) && x > 0 && u > 0 && y > 0
    ensures Checked(ApartProof(B, d, x, u, e, y), B, qd, ApartMatrix(x, u, y))
    ensures ExactAnnotations(ApartProof(B, d, x, u, e, y), B) && FirstBlockDecisive(ApartProof(B, d, x, u, e, y), B)
  {
    assert NoZero(B);
    var P, M := ApartProof(B, d, x, u, e, y), ApartMatrix(x, u, y);
    ApartShape(P);
    ApartOrder(P);
    ApartStrict();
    ApartGood(B, qd, d, x, q, u, e, y);
    ApartAccepted(B, qd, d, x, q, u, e, y);
    ApartExact(B, qd, d, x, q, u, e, y);
    ApartDecisive(B, qd, d, x, q, u, e, y);
    assert forall i :: 0 <= i < |P.clauses| ==> P.clauses[i] in APART_TRACE;
  }

  lemma ApartAccepted(B: seq<Quant>, qd: seq<int>, d: nat, x: Var, q: nat, u: Var, e: nat, y: Var)
    requires Apart(B, qd, d, x, q, u, e, y) && NoZero(B) && ApartTrace(ApartProof(B, d, x, u, e, y))
    requires forall c :: c in APART_TRACE ==> ApartProof(B, d, x, u, e, y).Copies(c)
    ensures Accepted(ApartProof(B, d, x, u, e, y), ApartMatrix(x, u, y))
  {
    var P, M := ApartProof(B, d, x, u, e, y), ApartMatrix(x, u, y);
    ApartLeaves(B, qd, d, x, q, u, e, y);
    ApartNodes(P, M);
    ApartReachable(P);
    FerpLimits.SevenAccepted(P, M);
  }

  lemma ApartExact(B: seq<Quant>, qd: seq<int>, d: nat, x: Var, q: nat, u: Var, e: nat, y: Var)
    requires Apart(B, qd, d, x, q, u, e, y) && NoZero(B) && ApartProof(B, d, x, u, e, y).WellFormed()
    ensures ExactAnnotations(ApartProof(B, d, x, u, e, y), B)
  {
    var P := ApartProof(B, d, x, u, e, y);
    assert Depth(qd, x) == d && Depth(qd, y) == e;
    UniversalsVars(B, d, u, false);
    UniversalsVars(B, e, u, false);
    UniversalsVars(B, e, u, true);
  }

  lemma ApartDecisive(B: seq<Quant>, qd: seq<int>, d: nat, x: Var, q: nat, u: Var, e: nat, y: Var)
    requires Apart(B, qd, d, x, q, u, e, y) && NoZero(B)
    ensures FirstBlockDecisive(ApartProof(B, d, x, u, e, y), B)
  {
    var P := ApartProof(B, d, x, u, e, y);
    if B[0].kind == FORALL {
      forall v | v in B[0].vars ensures !Annotated(P, MakeLit(v, false)) && Annotated(P, MakeLit(v, true)) {
        assert Depth(qd, v) == 0 && Depth(qd, u) == q;
        assert UniversalBefore(B, e, v);
        UniversalsHas(B, e, u, false, MakeLit(v, true));
        assert MakeLit(v, true) in P.annotation[2];
        NotPositive(B, d, u, false, v);
        NotPositive(B, e, u, false, v);
        NotPositive(B, e, u, true, v);
      }
    }
  }

  lemma NotPositive(B: seq<Quant>, d: nat, u: Var, pos: bool, v: Var)
    requires AllBlocks(B) && NoZero(B) && d <= |B| && v > 0 && v != u
    ensures MakeLit(v, false) !in Universals(B, d, u, pos)
  {
    UniversalsHas(B, d, u, pos, MakeLit(v, false));
  }

  // ----- why every extracted circuit loses -----

  /** If only two variables matter and the matrix is satisfied by them, the rest is won. */
  lemma {:induction false} AlwaysTrue(bs: seq<Bound>, A: Assignment, M: Matrix, x: Var, u: Var)
    requires x !in VarsOf(bs) && u !in VarsOf(bs)
    requires forall A': Assignment :: (x in A' <==> x in A) && (u in A' <==> u in A) ==> Sat(A', M)
    ensures Truth(bs, A, M)
    decreases |bs|
  {
    if bs != [] {
      assert bs[0] in bs && bs[0].v in VarsOf(bs);
      assert forall b :: b in bs[1..] ==> b in bs;
      AlwaysTrue(bs[1..], A + {bs[0].v}, M, x, u);
      AlwaysTrue(bs[1..], A - {bs[0].v}, M, x, u);
    }
  }

  /** Opposite values of x and u satisfy all four clauses. */
  lemma OppositeSatisfies(x: Var, u: Var, y: Var, A: Assignment)
    requires x > 0 && u > 0 && y > 0 && (x in A <==> u !in A)
    ensures Sat(A, MatrixLits(ApartMatrix(x, u, y)))
  {
    var m := ApartMatrix(x, u, y);
    forall i | 0 <= i < |m| ensures ClauseTrue(A, m[i].Lits()) {
      var neg := i >= 2;
      ApartClause(x, u, y, i + 1);
      var l := if LitTrue(A, MakeLit(u, neg)) then MakeLit(u, neg) else MakeLit(x, neg);
      assert l in m[i].al || l in m[i].ex;
      assert l in m[i].Lits() && LitTrue(A, l);
    }
    forall c | c in MatrixLits(m) ensures ClauseTrue(A, c) {
      var i :| 0 <= i < |m| && MatrixLits(m)[i] == c;
    }
  }

  lemma FirstRead(B: seq<Quant>, qs: seq<nat>, E: set<Var>, F: set<Var>, k: nat)
    requires AllBlocks(B) && qs != [] && SameAt(B, qs[0] as int - 1, E, F) && k == 0
    ensures k < |qs| && SameAsRead(B, qs, k + 1, E, F)
  {
  }

  /** Where two existential blocks stand before the first processed block, the circuit of this
      refutation loses its first move for one of the two values of x: the formula that remains is
      true. */
  lemma ApartLoses(B: seq<Quant>, qd: seq<int>, d: nat, x: Var, q: nat, u: Var, e: nat, y: Var, pivots: seq<Var>,
      num: nat, gs: seq<And>, n: nat, later: set<nat>, done: nat, qs: seq<nat>, tabs: seq<Tables<nat>>)
      returns (E: set<nat>)
    requires Apart(B, qd, d, x, q, u, e, y) && NoZero(B)
    requires var D := Derivation(ApartProof(B, d, x, u, e, y), pivots);
             Circuit(D, B, qd, num, gs, n, later, done, qs, tabs) && Sound(D, B, qd, ApartMatrix(x, u, y))
    requires qs != [] && q == qs[0]
    ensures Truth(Flatten(B[q + 1..]), Position(B, q, E, Moves(gs, n, E)), MatrixLits(ApartMatrix(x, u, y)))
  {
    var D, none, one := Derivation(ApartProof(B, d, x, u, e, y), pivots), {}, {x};
    assert SameAt(B, q as int - 1, none, one) by {
      assert Depth(qd, x) == d;
    }
    var k := FirstIsFirst(D, B, qd, num, gs, n, later, done, qs, tabs);
    FirstRead(B, qs, none, one, k);
    MoveReads(D, B, qd, ApartMatrix(x, u, y), num, gs, n, later, done, qs, tabs, none, one, k, u);
    E := if Aigs.Value(gs, none, 2 * u) then none else one;
    DoneVar(B, qd, |B|, q, u);
    assert u in Moves(gs, n, E) <==> x !in E;
    IndexedDistinct(B, qd);
    var A := Position(B, q, E, Moves(gs, n, E));
    PositionHas(B, q, E, Moves(gs, n, E), d, x);
    PositionHas(B, q, E, Moves(gs, n, E), q, u);
    NotLater(B, q, d, x);
    NotLater(B, q, q, u);
    forall A': Assignment | (x in A' <==> x in A) && (u in A' <==> u in A)
      ensures Sat(A', MatrixLits(ApartMatrix(x, u, y))) {
      OppositeSatisfies(x, u, y, A');
    }
    AlwaysTrue(Flatten(B[q + 1..]), A, MatrixLits(ApartMatrix(x, u, y)), x, u);
  }

  lemma FirstProcessedBlock(D: Derivation, B: seq<Quant>, qd: seq<int>, num: nat, gs: seq<And>, n: nat, later: set<nat>,
                            done: nat, qs: seq<nat>, tabs: seq<Tables<nat>>, q: nat)
    requires Circuit(D, B, qd, num, gs, n, later, done, qs, tabs)
    requires 0 < q < done && B[q].kind == FORALL && forall i :: 0 < i < q ==> B[i].kind != FORALL
    ensures qs != [] && qs[0] == q
  {
    assert q in qs;
    var first := FirstIsFirst(D, B, qd, num, gs, n, later, done, qs, tabs);
    assert qs[0] in qs;
    var k :| 0 <= k < |qs| && qs[k] == q;
    assert Run(D, qd, {}, qs, num, AtAll(gs, {}, tabs));
    FirstSmallest(qs, k);
  }

  lemma FirstSmallest(qs: seq<nat>, k: nat)
    requires k < |qs| && forall i, j :: 0 <= i < j < |qs| ==> qs[i] < qs[j]
    ensures qs[0] <= qs[k]
  {
  }

  /** The extraction, run on that refutation, ends with such a circuit. */
  method LosingCertificate(qbf: Formula, d: nat, x: Var, q: nat, u: Var, e: nat, y: Var)
    returns (b: AigBuilder, ghost E: set<nat>)
    requires qbf.Valid() && qbf.Blocks() == qbf.prefix && qbf.quant_depth != []
      && Apart(qbf.prefix, qbf.quant_depth, d, x, q, u, e, y)
    requires x > 0 && u > 0 && y > 0 && qbf.matrix == ApartMatrix(x, u, y)
    requires forall i :: 0 < i < q ==> qbf.prefix[i].kind != FORALL
    ensures Truth(Flatten(qbf.prefix[q + 1..]), Position(qbf.prefix, q, E, Moves(b.ands, b.current_aig_var, E)),
      MatrixLits(qbf.matrix))
  {
    ApartChecked(qbf.prefix, qbf.quant_depth, d, x, q, u, e, y);
    var P := ApartProof(qbf.prefix, d, x, u, e, y);
    var extractor := new Extractor(P);
    ghost var B, qd := qbf.prefix, qbf.quant_depth;
    ghost var num, done, qs, tabs;
    b, num, done, qs, tabs := extractor.Extract(qbf);
    FirstProcessedBlock(Derivation(P, extractor.pivots), B, qd, num, b.ands, b.current_aig_var, b.reserved, done, qs,
      tabs, q);
    E := ApartLoses(B, qd, d, x, q, u, e, y, extractor.pivots, num, b.ands, b.current_aig_var, b.reserved, done, qs,
      tabs);
  }

  // ----- a universal first block -----

  /** If all declared copies are used, and there is one, the assertion before the constant outputs
      holds. */
  lemma DecisiveWhenUsed(P: Proof, pivots: seq<Var>, B: seq<Quant>, qd: seq<int>, matrix: seq<QClause>)
    requires Checked(P, B, qd, matrix) && Covers(Existential, P, B) && B != []
      && Extractor.PivotsOk(P, pivots, |P.clauses|)
    requires forall v :: v in P.annotation ==> InLeaf(Derivation(P, pivots), v)
    ensures FirstBlockDecisive(P, B)
  {
    var D := Derivation(P, pivots);
    var num := LargerThanAll(P);
    Extractor.DerivationGood(P, pivots, B, qd, matrix, num);
    var T := InitialTablesExist(D, num);
    FirstPositive(B, qd);
    if B[0].kind == FORALL {
      AnnotationExists(P);
      forall u | u in B[0].vars ensures Annotated(P, MakeLit(u, false)) != Annotated(P, MakeLit(u, true)) {
        OneSignAt(D, B, qd, matrix, num, T, 0, u);
      }
    }
  }

  lemma FirstPositive(B: seq<Quant>, qd: seq<int>)
    requires AllBlocks(B) && WellIndexed(B, qd) && B != []
    ensures 0 !in B[0].vars && forall u :: u in B[0].vars ==> u > 0
  {
  }

  lemma OneSignAt(D: Derivation, B: seq<Quant>, qd: seq<int>, matrix: seq<QClause>, num: nat,
                  T: Tables<bool>, q: nat, u: Var)
    requires q == 0 && Setup(D, num) && Shaped(T, |D.P.clauses|, num) && Initial(D, num, T) && PivotsMatch(D)
      && Sound(D, B, qd, matrix) && Placed(D, qd)
    requires IdsArePositions(D.P) && forall i :: 1 <= i < |D.P.clauses| ==> Reachable(D.P, i)
    requires Covers(Existential, D.P, B) && q < |B| && B[q].kind == FORALL && u in B[q].vars && u > 0
    requires D.P.annotation != map[] && forall v :: v in D.P.annotation ==> InLeaf(D, v)
    ensures Annotated(D.P, MakeLit(u, false)) != Annotated(D.P, MakeLit(u, true))
  {
    BlockDecided(D, B, qd, matrix, q);
    LeavesConsistent(D, matrix);
    OneSign(D, qd, num, T, B[q].vars, u);
  }

  lemma OneSign(D: Derivation, qd: seq<int>, num: nat, T: Tables<bool>, vars: seq<Var>, u: Var)
    requires Setup(D, num) && Shaped(T, |D.P.clauses|, num) && Initial(D, num, T)
    requires IdsArePositions(D.P) && PivotsMatch(D) && D.P.root != 0 && ConsistentLeaves(D) && Placed(D, qd)
    requires forall i :: 1 <= i < |D.P.clauses| ==> Reachable(D.P, i)
    requires Decides(D, qd, 0, set w | w in vars) && u in vars && u > 0
    requires D.P.annotation != map[] && forall v :: v in D.P.annotation ==> InLeaf(D, v)
    ensures Annotated(D.P, MakeLit(u, false)) != Annotated(D.P, MakeLit(u, true))
  {
    FirstBlockDecided(D, qd, num, T, (set w | w in vars), u);
  }

  lemma AnnotationExists(P: Proof)
    requires P.annotation.Keys == P.original.Keys && P.original != map[]
    ensures P.annotation != map[]
  {
    assert P.original.Keys != {};
  }

  lemma LargerThanAll(P: Proof) returns (num: nat)
    ensures num > 0 && forall v :: v in P.original ==> v < num
  {
    num := LargerThan(P.original.Keys);
  }

  lemma {:induction false} LargerThan(vs: set<Var>) returns (num: nat)
    ensures num > 0 && forall v :: v in vs ==> v < num
    decreases vs
  {
    if vs == {} {
      num := 1;
    } else {
      var v :| v in vs;
      var n := LargerThan(vs - {v});
      num := if v < n then n else v + 1;
      assert forall x :: x in vs ==> x == v || x in vs - {v};
    }
  }

  /** forall 1 exists 2: (2), (not 2). Copy 11 is declared but not used, with the other sign of 1. */
  const SPARE_PREFIX := [Quant(FORALL, [1]), Quant(EXISTS, [2])]
  const SPARE_DEPTHS: seq<int> := [-1, 0, 1]
  const SPARE_MATRIX := [QClause([2], []), QClause([-2], [])]
  const SPARE_ANNOTATION: map<Var, seq<Lit>> := map[10 := [-1], 11 := [1]]
  const SPARE_PROOF := Proof(map[10 := 2, 11 := 2], SPARE_ANNOTATION, [[], [10], [-10], []],
    [(0, 0), (1, 0), (2, 0), (1, 2)],
                             map[0 := 0, 1 := 1, 2 := 2, 3 := 3], 3, map[])

  lemma SpareGood()
    ensures AllBlocks(SPARE_PREFIX) && WellIndexed(SPARE_PREFIX, SPARE_DEPTHS)
    ensures forall c :: c in SPARE_MATRIX ==> GoodClause(SPARE_PREFIX, SPARE_DEPTHS, c)
  {
    assert GoodClause(SPARE_PREFIX, SPARE_DEPTHS, QClause([2], []));
    assert GoodClause(SPARE_PREFIX, SPARE_DEPTHS, QClause([-2], []));
  }

  lemma SpareShape()
    ensures SPARE_PROOF.WellFormed() && forall i ::
      0 <= i < |SPARE_PROOF.clauses| ==> SPARE_PROOF.Copies(SPARE_PROOF.clauses[i])
    ensures Ordered(SPARE_PROOF) && IdsArePositions(SPARE_PROOF)
    ensures forall i :: 0 <= i < |SPARE_PROOF.clauses| ==> StrictVars(SPARE_PROOF.clauses[i])
  {
  }

  lemma SpareLeaf(i: nat, l: Lit)
    requires (i == 1 && l == 10) || (i == 2 && l == -10)
    requires SPARE_PROOF.WellFormed() && SPARE_PROOF.Copies([l])
    ensures Passes(SPARE_PROOF, SPARE_MATRIX, i)
  {
    var P := SPARE_PROOF;
    assert P.OriginalLits([l]) == [if i == 1 then 2 else -2];
    assert -1 in P.annotation[VarOf(l)] && l in [l];
    assert P.Union([l]) == {-1};
    FerpLimits.LeafPasses(P, SPARE_MATRIX, i, [l], [if i == 1 then 2 else -2], [], {-1});
  }

  lemma SpareNode()
    requires SPARE_PROOF.WellFormed() && SPARE_PROOF.Copies([])
    ensures Passes(SPARE_PROOF, SPARE_MATRIX, 3)
  {
    FerpLimits.Resolves([10], [-10], [], 10);
    FerpLimits.NodePasses(SPARE_PROOF, SPARE_MATRIX, 3, [10], [-10], []);
  }

  lemma SpareReachable()
    ensures forall i :: 1 <= i < 4 ==> Reachable(SPARE_PROOF, i)
  {
    RootReachable(SPARE_PROOF);
    assert Uses(SPARE_PROOF, 3, 1) && Uses(SPARE_PROOF, 3, 2);
    ReachableStep(SPARE_PROOF, 3, 1);
    ReachableStep(SPARE_PROOF, 3, 2);
  }

  lemma SpareBothSigns()
    ensures Annotated(SPARE_PROOF, MakeLit(1, false)) && Annotated(SPARE_PROOF, MakeLit(1, true))
  {
    assert 1 in SPARE_ANNOTATION[11] && -1 in SPARE_ANNOTATION[10];
  }

  /** An unused copy is enough to break that assertion: this refutation is accepted and complete. */
  lemma SpareCopiesBreakFirstBlock()
    ensures Checked(SPARE_PROOF, SPARE_PREFIX, SPARE_DEPTHS, SPARE_MATRIX)
      && ExactAnnotations(SPARE_PROOF, SPARE_PREFIX)
    ensures !FirstBlockDecisive(SPARE_PROOF, SPARE_PREFIX)
  {
    SpareChecked();
    SpareExact();
    SpareBothSigns();
    assert 1 in SPARE_PREFIX[0].vars;
  }

  lemma SpareChecked()
    ensures Checked(SPARE_PROOF, SPARE_PREFIX, SPARE_DEPTHS, SPARE_MATRIX)
  {
    SpareGood();
    SpareShape();
    SpareAccepted();
    assert 10 in SPARE_PROOF.original && SPARE_PROOF.annotation.Keys == SPARE_PROOF.original.Keys;
  }

  lemma SpareAccepted()
    requires SPARE_PROOF.WellFormed() && forall i ::
      0 <= i < |SPARE_PROOF.clauses| ==> SPARE_PROOF.Copies(SPARE_PROOF.clauses[i])
    ensures Accepted(SPARE_PROOF, SPARE_MATRIX)
  {
    assert SPARE_PROOF.clauses[1] == [10] && SPARE_PROOF.clauses[2] == [-10] && SPARE_PROOF.clauses[3] == [];
    SpareLeaf(1, 10);
    SpareLeaf(2, -10);
    SpareNode();
    SpareReachable();
  }

  lemma SpareExact()
    requires AllBlocks(SPARE_PREFIX) && SPARE_PROOF.WellFormed()
    ensures ExactAnnotations(SPARE_PROOF, SPARE_PREFIX)
  {
    OneVar([-1], 1);
    OneVar([1], 1);
    assert forall v :: v in SPARE_PROOF.original ==> SPARE_ANNOTATION[v] == [-1] || SPARE_ANNOTATION[v] == [1];
    assert SPARE_PREFIX[0] == Quant(FORALL, [1]) && SPARE_PREFIX[1] == Quant(EXISTS, [2]) && |SPARE_PREFIX| == 2;
    FirstOpponents(SPARE_PREFIX, 1);
  }

  lemma OneVar(anno: seq<Lit>, v: Var)
    requires |anno| == 1 && VarOf(anno[0]) == v
    ensures AnnotatedVars(anno) == {v}
  {
    assert anno[0] in anno;
  }

  lemma FirstOpponents(B: seq<Quant>, v: Var)
    requires AllBlocks(B) && B != [] && B[0] == Quant(FORALL, [v])
    ensures OppVars(Existential, B, 1) == {v}
  {
    assert v in B[0].vars && Owner(B[0].kind) != Existential;
  }
}
