/** What the checker does not look at, shown by proofs it accepts although their claim is wrong.
    Each meets every premise of the soundness theorem except the one in question. */
module FerpLimits {
  import opened Literals
  import opened Qbf
  import opened Formulas
  import opened Resolution
  import opened FerpProofs
  import opened NorProofs

  /** A resolution step by its sets: l goes, everything else stays, and nothing else clashes. */
  lemma Resolves(p: seq<Lit>, q: seq<Lit>, c: seq<Lit>, l: Lit)
    requires StrictVars(p) && StrictVars(q) && StrictVars(c)
    requires l in p && Negate(l) in q
    requires forall x :: x in p && x != l ==> x in c && Negate(x) !in q
    requires forall x :: x in q && x != Negate(l) ==> x in c
    requires forall x :: x in c ==> (x in p && x != l) || (x in q && x != Negate(l))
    ensures ResolutionCode(p, q, c) == 0
  {
    Formula.StrictNoTautology(p);
    Formula.StrictNoTautology(q);
    assert Clash(p, q) == {l};
    assert Elements(c) == (Elements(p) - {l}) + (Elements(q) - {Negate(l)});
    assert IsResolvent(p, q, c);
    ResolutionExact(p, q, c);
  }

  lemma NodePasses(P: Proof, matrix: seq<QClause>, i: nat, p: seq<Lit>, q: seq<Lit>, c: seq<Lit>)
    requires P.WellFormed() && i < |P.clauses| && !P.IsLeaf(i) && P.Copies(P.clauses[i])
    requires P.clauses[P.TraceIndex(P.antecedents[i].0)] == p
    requires P.clauses[P.TraceIndex(P.antecedents[i].1)] == q
    requires P.clauses[i] == c
    requires ResolutionCode(p, q, c) == 0
    ensures Passes(P, matrix, i)
  {
  }

  lemma LeafPasses(P: Proof, matrix: seq<QClause>, i: nat, c: seq<Lit>, ex: seq<Lit>, al: seq<Lit>, L: set<Lit>)
    requires P.WellFormed() && i < |P.clauses| && P.IsLeaf(i) && P.clauses[i] == c && P.Copies(c)
    requires 1 <= P.antecedents[i].0 <= |matrix| && matrix[P.antecedents[i].0 - 1] == QClause(ex, al)
    requires P.OriginalLits(c) == ex && P.Union(c) == L && Consistent(L)
    requires forall u :: u in al ==> Negate(u) in L
    ensures Passes(P, matrix, i)
  {
  }

  /** A trace whose seven clauses pass and contribute is accepted. */
  lemma SevenAccepted(P: Proof, matrix: seq<QClause>)
    requires P.WellFormed() && |P.clauses| == 8 && forall i :: 0 <= i < |P.clauses| ==> P.Copies(P.clauses[i])
    requires Passes(P, matrix, 1) && Passes(P, matrix, 2) && Passes(P, matrix, 3) && Passes(P, matrix, 4)
    requires Passes(P, matrix, 5) && Passes(P, matrix, 6) && Passes(P, matrix, 7)
    requires P.root != 0 && forall i :: 1 <= i < 8 ==> Reachable(P, i)
    ensures Accepted(P, matrix)
  {
    forall i | 1 <= i < 8 ensures Passes(P, matrix, i) {
      if i <= 4 {
        if i <= 2 { assert i == 1 || i == 2; } else { assert i == 3 || i == 4; }
      } else {
        assert i == 5 || i == 6 || i == 7;
      }
    }
  }

  // ----- annotations that stop short -----

  /** forall 1 exists 2 3: (2 or 3 or 1), (not 2 or 3 or not 1), (not 3).
      It is true: let 2 be the negation of 1. */
  const SHORT_PREFIX := [Quant(FORALL, [1]), Quant(EXISTS, [2, 3])]
  const SHORT_DEPTHS: seq<int> := [-1, 0, 1, 1]
  const SHORT_MATRIX := [QClause([2, 3], [1]), QClause([-2, 3], [-1]), QClause([-3], [])]

  /** Copy 10 of variable 2 has an empty annotation, although 2 depends on 1. */
  const SHORT_ORIGINAL: map<Var, Var> := map[10 := 2, 11 := 3, 12 := 3]
  const SHORT_ANNOTATION: map<Var, seq<Lit>> := map[10 := [], 11 := [-1], 12 := [1]]
  const SHORT_TRACE: seq<seq<Lit>> := [[], [10, 11], [-10, 12], [-11], [-12], [11, 12], [12], []]
  const SHORT_ANTE: seq<(nat, nat)> := [(0, 0), (1, 0), (2, 0), (3, 0), (3, 0), (1, 2), (5, 3), (6, 4)]
  const SHORT_INDEX: map<nat, nat> := map[0 := 0, 1 := 1, 2 := 2, 3 := 3, 4 := 4, 5 := 5, 6 := 6, 7 := 7]
  const SHORT_PROOF := Proof(SHORT_ORIGINAL, SHORT_ANNOTATION, SHORT_TRACE, SHORT_ANTE, SHORT_INDEX, 7, map[])

  lemma ShortWellFormed()
    ensures SHORT_PROOF.WellFormed()
  {
  }

  lemma ShortOrdered()
    ensures Acyclic(SHORT_PROOF)
  {
    assert Ordered(SHORT_PROOF);
    OrderedAcyclic(SHORT_PROOF);
  }

  lemma ShortCopies()
    ensures forall c :: c in SHORT_TRACE ==> SHORT_PROOF.Copies(c)
  {
    forall c, l | c in SHORT_TRACE && l in c ensures VarOf(l) in SHORT_ORIGINAL {
    }
  }

  lemma ShortIndexed()
    ensures AllBlocks(SHORT_PREFIX) && WellIndexed(SHORT_PREFIX, SHORT_DEPTHS)
  {
  }

  lemma ShortGood()
    requires AllBlocks(SHORT_PREFIX)
    ensures forall c :: c in SHORT_MATRIX ==> GoodClause(SHORT_PREFIX, SHORT_DEPTHS, c)
  {
    assert GoodClause(SHORT_PREFIX, SHORT_DEPTHS, QClause([2, 3], [1]));
    assert GoodClause(SHORT_PREFIX, SHORT_DEPTHS, QClause([-2, 3], [-1]));
    assert GoodClause(SHORT_PREFIX, SHORT_DEPTHS, QClause([-3], []));
  }

  /** The annotation of the only annotated copy of a clause is the union. */
  lemma ShortUnion(c: seq<Lit>, x: Lit, u: Lit)
    requires SHORT_PROOF.Copies(c) && x in c && SHORT_ANNOTATION[VarOf(x)] == [u]
    requires forall y :: y in c && y != x ==> SHORT_ANNOTATION[VarOf(y)] == []
    ensures SHORT_PROOF.Union(c) == {u} && Consistent(SHORT_PROOF.Union(c))
  {
    assert u in SHORT_ANNOTATION[VarOf(x)];
  }

  lemma ShortLeaf1()
    requires SHORT_PROOF.WellFormed() && SHORT_PROOF.Copies([10, 11])
    ensures Passes(SHORT_PROOF, SHORT_MATRIX, 1)
  {
    var P := SHORT_PROOF;
    assert P.OriginalLits([10, 11]) == [2, 3];
    ShortUnion([10, 11], 11, -1);
    LeafPasses(P, SHORT_MATRIX, 1, [10, 11], [2, 3], [1], {-1});
  }

  lemma ShortLeaf2()
    requires SHORT_PROOF.WellFormed() && SHORT_PROOF.Copies([-10, 12])
    ensures Passes(SHORT_PROOF, SHORT_MATRIX, 2)
  {
    var P := SHORT_PROOF;
    assert P.OriginalLits([-10, 12]) == [-2, 3];
    ShortUnion([-10, 12], 12, 1);
    LeafPasses(P, SHORT_MATRIX, 2, [-10, 12], [-2, 3], [-1], {1});
  }

  lemma ShortLeaves34()
    requires SHORT_PROOF.WellFormed() && SHORT_PROOF.Copies([-11]) && SHORT_PROOF.Copies([-12])
    ensures Passes(SHORT_PROOF, SHORT_MATRIX, 3) && Passes(SHORT_PROOF, SHORT_MATRIX, 4)
  {
    var P := SHORT_PROOF;
    assert P.OriginalLits([-11]) == [-3];
    ShortUnion([-11], -11, -1);
    LeafPasses(P, SHORT_MATRIX, 3, [-11], [-3], [], {-1});
    assert P.OriginalLits([-12]) == [-3];
    ShortUnion([-12], -12, 1);
    LeafPasses(P, SHORT_MATRIX, 4, [-12], [-3], [], {1});
  }

  lemma ShortResolvent5()
    ensures ResolutionCode([10, 11], [-10, 12], [11, 12]) == 0
  {
    Resolves([10, 11], [-10, 12], [11, 12], 10);
  }

  lemma ShortResolvents67()
    ensures ResolutionCode([11, 12], [-11], [12]) == 0
    ensures ResolutionCode([12], [-12], []) == 0
  {
    Resolves([11, 12], [-11], [12], 11);
    Resolves([12], [-12], [], 12);
  }

  lemma ShortNode5()
    requires SHORT_PROOF.WellFormed() && SHORT_PROOF.Copies([11, 12])
    requires ResolutionCode([10, 11], [-10, 12], [11, 12]) == 0
    ensures Passes(SHORT_PROOF, SHORT_MATRIX, 5)
  {
    NodePasses(SHORT_PROOF, SHORT_MATRIX, 5, [10, 11], [-10, 12], [11, 12]);
  }

  lemma ShortNode6()
    requires SHORT_PROOF.WellFormed() && SHORT_PROOF.Copies([12])
    requires ResolutionCode([11, 12], [-11], [12]) == 0
    ensures Passes(SHORT_PROOF, SHORT_MATRIX, 6)
  {
    NodePasses(SHORT_PROOF, SHORT_MATRIX, 6, [11, 12], [-11], [12]);
  }

  lemma ShortNode7()
    requires SHORT_PROOF.WellFormed() && SHORT_PROOF.Copies([])
    requires ResolutionCode([12], [-12], []) == 0
    ensures Passes(SHORT_PROOF, SHORT_MATRIX, 7)
  {
    NodePasses(SHORT_PROOF, SHORT_MATRIX, 7, [12], [-12], []);
  }

  lemma ShortReachable()
    ensures forall i :: 1 <= i < 8 ==> Reachable(SHORT_PROOF, i)
  {
    var P := SHORT_PROOF;
    RootReachable(P);
    assert Uses(P, 7, 6) && Uses(P, 7, 4) && Uses(P, 6, 5) && Uses(P, 6, 3) && Uses(P, 5, 1) && Uses(P, 5, 2);
    ReachableStep(P, 7, 6);
    ReachableStep(P, 7, 4);
    ReachableStep(P, 6, 5);
    ReachableStep(P, 6, 3);
    ReachableStep(P, 5, 1);
    ReachableStep(P, 5, 2);
  }

  lemma BoundsOf(q: Quant)
    requires q.Quant?
    ensures forall i :: 0 <= i < |q.vars| ==> BlockBounds(q)[i] == Bound(q.vars[i], Owner(q.kind))
  {
  }

  lemma ShortBounds()
    requires AllBlocks(SHORT_PREFIX)
    ensures Flatten(SHORT_PREFIX) == [Bound(1, Universal), Bound(2, Existential), Bound(3, Existential)]
  {
    FlattenTwo(Quant(FORALL, [1]), Quant(EXISTS, [2, 3]));
    BoundsOf(Quant(FORALL, [1]));
    BoundsOf(Quant(EXISTS, [2, 3]));
    assert BlockBounds(Quant(FORALL, [1])) == [Bound(1, Universal)];
    assert BlockBounds(Quant(EXISTS, [2, 3])) == [Bound(2, Existential), Bound(3, Existential)];
    assert SHORT_PREFIX == [Quant(FORALL, [1]), Quant(EXISTS, [2, 3])];
  }

  lemma ShortSat()
    ensures Sat({1}, MatrixLits(SHORT_MATRIX)) && Sat({2}, MatrixLits(SHORT_MATRIX))
  {
    var M := MatrixLits(SHORT_MATRIX);
    assert M[0] == [1] + [2, 3] && M[1] == [-1] + [-2, 3] && M[2] == [] + [-3] && |M| == 3;
    assert 1 in M[0] && 2 in M[0] && -2 in M[1] && -1 in M[1] && -3 in M[2];
  }

  /** Choosing 2 against 1 and never 3 wins. */
  lemma ShortTruth(M: Matrix)
    requires Sat({1}, M) && Sat({2}, M)
    ensures Truth([Bound(1, Universal), Bound(2, Existential), Bound(3, Existential)], {}, M)
  {
    var bs := [Bound(1, Universal), Bound(2, Existential), Bound(3, Existential)];
    var none: Assignment := {};
    assert bs[1..] == [Bound(2, Existential), Bound(3, Existential)];
    assert bs[1..][1..] == [Bound(3, Existential)];
    assert bs[1..][1..][1..] == [];
    assert {1} - {2} == {1} && {1} - {3} == {1} && {2} - {3} == {2};
    assert none + {1} == {1} && none - {1} == none && none + {2} == {2};
    assert Truth(bs[1..][1..], {1}, M) && Truth(bs[1..][1..], {2}, M);
    assert Truth(bs[1..], {1}, M) && Truth(bs[1..], none, M);
  }

  lemma ShortTrue()
    requires AllBlocks(SHORT_PREFIX)
    ensures Truth(Flatten(SHORT_PREFIX), {}, MatrixLits(SHORT_MATRIX))
  {
    ShortBounds();
    ShortSat();
    ShortTruth(MatrixLits(SHORT_MATRIX));
  }

  lemma FlattenTwo(a: Quant, b: Quant)
    requires a.Quant? && b.Quant?
    ensures AllBlocks([a, b]) && Flatten([a, b]) == BlockBounds(a) + BlockBounds(b)
  {
    assert [a, b][..1] == [a] && [a][..0] == [];
    assert Flatten([a]) == Flatten([]) + BlockBounds(a);
  }

  lemma CopiesByPosition(P: Proof)
    requires forall c :: c in P.clauses ==> P.Copies(c)
    ensures forall i :: 0 <= i < |P.clauses| ==> P.Copies(P.clauses[i])
  {
  }

  lemma ShortAccepted()
    ensures SHORT_PROOF.WellFormed()
      && (forall i :: 0 <= i < |SHORT_PROOF.clauses| ==> SHORT_PROOF.Copies(SHORT_PROOF.clauses[i]))
    ensures Accepted(SHORT_PROOF, SHORT_MATRIX)
  {
    ShortWellFormed();
    ShortCopies();
    CopiesByPosition(SHORT_PROOF);
    ShortPasses();
    ShortReachable();
    SevenAccepted(SHORT_PROOF, SHORT_MATRIX);
  }

  lemma ShortPasses()
    requires SHORT_PROOF.WellFormed() && forall c :: c in SHORT_TRACE ==> SHORT_PROOF.Copies(c)
    ensures Passes(SHORT_PROOF, SHORT_MATRIX, 1) && Passes(SHORT_PROOF, SHORT_MATRIX, 2)
    ensures Passes(SHORT_PROOF, SHORT_MATRIX, 3) && Passes(SHORT_PROOF, SHORT_MATRIX, 4)
    ensures Passes(SHORT_PROOF, SHORT_MATRIX, 5) && Passes(SHORT_PROOF, SHORT_MATRIX, 6)
    ensures Passes(SHORT_PROOF, SHORT_MATRIX, 7)
  {
    assert SHORT_TRACE[1] == [10, 11] && SHORT_TRACE[2] == [-10, 12] && SHORT_TRACE[3] == [-11];
    assert SHORT_TRACE[4] == [-12] && SHORT_TRACE[5] == [11, 12] && SHORT_TRACE[6] == [12] && SHORT_TRACE[7] == [];
    ShortLeaf1();
    ShortLeaf2();
    ShortLeaves34();
    ShortResolvent5();
    ShortResolvents67();
    ShortNode5();
    ShortNode6();
    ShortNode7();
  }

  /** Without the premise on annotations the check of refutations is unsound: this proof is
      accepted and refutes a true formula. */
  lemma AnnotationsMustCover()
    ensures Readable(SHORT_PROOF, SHORT_PREFIX, SHORT_DEPTHS, SHORT_MATRIX)
    ensures Accepted(SHORT_PROOF, SHORT_MATRIX) && Acyclic(SHORT_PROOF)
    ensures Truth(Flatten(SHORT_PREFIX), {}, MatrixLits(SHORT_MATRIX))
    ensures !Covers(Existential, SHORT_PROOF, SHORT_PREFIX)
  {
    ShortOrdered();
    ShortIndexed();
    ShortGood();
    ShortAccepted();
    ShortTrue();
    NotSound(SHORT_PROOF, SHORT_PREFIX, SHORT_DEPTHS, SHORT_MATRIX);
  }

  lemma NotSound(P: Proof, B: seq<Quant>, qd: seq<int>, matrix: seq<QClause>)
    requires Readable(P, B, qd, matrix) && Accepted(P, matrix)
    requires Truth(Flatten(B), {}, MatrixLits(matrix))
    ensures !(Covers(Existential, P, B) && Acyclic(P))
  {
    if Covers(Existential, P, B) && Acyclic(P) {
      RefutationSound(P, B, qd, matrix);
    }
  }

  // ----- clauses resolved from themselves -----

  /** exists 1 2: (not 1 or 2), (1 or not 2). It is true. */
  const LOOP_PREFIX := [Quant(EXISTS, [1, 2])]
  const LOOP_DEPTHS: seq<int> := [-1, 0, 0]
  const LOOP_MATRIX := [QClause([-1, 2], []), QClause([1, -2], [])]

  /** Clause 3 is resolved from clause 4 and clause 4 from clause 3, and so are 5 and 6. */
  const LOOP_ORIGINAL: map<Var, Var> := map[10 := 1, 11 := 2]
  const LOOP_ANNOTATION: map<Var, seq<Lit>> := map[10 := [], 11 := []]
  const LOOP_TRACE: seq<seq<Lit>> := [[], [-10, 11], [10, -11], [10], [11], [-10], [-11], []]
  const LOOP_ANTE: seq<(nat, nat)> := [(0, 0), (1, 0), (2, 0), (4, 2), (3, 1), (6, 1), (5, 2), (3, 5)]
  const LOOP_PROOF := Proof(LOOP_ORIGINAL, LOOP_ANNOTATION, LOOP_TRACE, LOOP_ANTE, SHORT_INDEX, 7, map[])

  lemma LoopReadable()
    ensures Readable(LOOP_PROOF, LOOP_PREFIX, LOOP_DEPTHS, LOOP_MATRIX) && Covers(Existential, LOOP_PROOF, LOOP_PREFIX)
  {
    LoopCopies();
    LoopIndexed();
    LoopGood();
    LoopCovers();
    CopiesByPosition(LOOP_PROOF);
  }

  lemma LoopIndexed()
    ensures AllBlocks(LOOP_PREFIX) && WellIndexed(LOOP_PREFIX, LOOP_DEPTHS)
  {
  }

  lemma LoopGood()
    requires AllBlocks(LOOP_PREFIX)
    ensures forall c :: c in LOOP_MATRIX ==> GoodClause(LOOP_PREFIX, LOOP_DEPTHS, c)
  {
    assert GoodClause(LOOP_PREFIX, LOOP_DEPTHS, QClause([-1, 2], []));
    assert GoodClause(LOOP_PREFIX, LOOP_DEPTHS, QClause([1, -2], []));
  }

  lemma LoopCovers()
    requires AllBlocks(LOOP_PREFIX)
    ensures Covers(Existential, LOOP_PROOF, LOOP_PREFIX)
  {
    assert |LOOP_PREFIX| == 1 && LOOP_PREFIX[0] == Quant(EXISTS, [1, 2]);
  }

  lemma LoopCopies()
    ensures LOOP_PROOF.WellFormed() && forall c :: c in LOOP_TRACE ==> LOOP_PROOF.Copies(c)
  {
    forall c, l | c in LOOP_TRACE && l in c ensures VarOf(l) in LOOP_ORIGINAL {
    }
  }

  lemma LoopLeaf1()
    requires LOOP_PROOF.WellFormed() && LOOP_PROOF.Copies([-10, 11])
    ensures Passes(LOOP_PROOF, LOOP_MATRIX, 1)
  {
    var P := LOOP_PROOF;
    assert P.OriginalLits([-10, 11]) == [-1, 2] && P.Union([-10, 11]) == {};
    LeafPasses(P, LOOP_MATRIX, 1, [-10, 11], [-1, 2], [], {});
  }

  lemma LoopLeaf2()
    requires LOOP_PROOF.WellFormed() && LOOP_PROOF.Copies([10, -11])
    ensures Passes(LOOP_PROOF, LOOP_MATRIX, 2)
  {
    var P := LOOP_PROOF;
    assert P.OriginalLits([10, -11]) == [1, -2] && P.Union([10, -11]) == {};
    LeafPasses(P, LOOP_MATRIX, 2, [10, -11], [1, -2], [], {});
  }

  lemma LoopResolvents34()
    ensures ResolutionCode([11], [10, -11], [10]) == 0 && ResolutionCode([10], [-10, 11], [11]) == 0
  {
    Resolves([11], [10, -11], [10], 11);
    Resolves([10], [-10, 11], [11], 10);
  }

  lemma LoopResolvents56()
    ensures ResolutionCode([-11], [-10, 11], [-10]) == 0 && ResolutionCode([-10], [10, -11], [-11]) == 0
  {
    Resolves([-11], [-10, 11], [-10], -11);
    Resolves([-10], [10, -11], [-11], -10);
  }

  lemma LoopResolvent7()
    ensures ResolutionCode([10], [-10], []) == 0
  {
    Resolves([10], [-10], [], 10);
  }

  lemma LoopNode3()
    requires LOOP_PROOF.WellFormed() && LOOP_PROOF.Copies([10]) && ResolutionCode([11], [10, -11], [10]) == 0
    ensures Passes(LOOP_PROOF, LOOP_MATRIX, 3)
  {
    NodePasses(LOOP_PROOF, LOOP_MATRIX, 3, [11], [10, -11], [10]);
  }

  lemma LoopNode4()
    requires LOOP_PROOF.WellFormed() && LOOP_PROOF.Copies([11]) && ResolutionCode([10], [-10, 11], [11]) == 0
    ensures Passes(LOOP_PROOF, LOOP_MATRIX, 4)
  {
    NodePasses(LOOP_PROOF, LOOP_MATRIX, 4, [10], [-10, 11], [11]);
  }

  lemma LoopNode5()
    requires LOOP_PROOF.WellFormed() && LOOP_PROOF.Copies([-10]) && ResolutionCode([-11], [-10, 11], [-10]) == 0
    ensures Passes(LOOP_PROOF, LOOP_MATRIX, 5)
  {
    NodePasses(LOOP_PROOF, LOOP_MATRIX, 5, [-11], [-10, 11], [-10]);
  }

  lemma LoopNode6()
    requires LOOP_PROOF.WellFormed() && LOOP_PROOF.Copies([-11]) && ResolutionCode([-10], [10, -11], [-11]) == 0
    ensures Passes(LOOP_PROOF, LOOP_MATRIX, 6)
  {
    NodePasses(LOOP_PROOF, LOOP_MATRIX, 6, [-10], [10, -11], [-11]);
  }

  lemma LoopNode7()
    requires LOOP_PROOF.WellFormed() && LOOP_PROOF.Copies([]) && ResolutionCode([10], [-10], []) == 0
    ensures Passes(LOOP_PROOF, LOOP_MATRIX, 7)
  {
    NodePasses(LOOP_PROOF, LOOP_MATRIX, 7, [10], [-10], []);
  }

  lemma LoopReachable()
    ensures forall i :: 1 <= i < 8 ==> Reachable(LOOP_PROOF, i)
  {
    var P := LOOP_PROOF;
    RootReachable(P);
    assert Uses(P, 7, 3) && Uses(P, 7, 5) && Uses(P, 3, 4) && Uses(P, 3, 2) && Uses(P, 4, 1) && Uses(P, 5, 6);
    ReachableStep(P, 7, 3);
    ReachableStep(P, 7, 5);
    ReachableStep(P, 3, 4);
    ReachableStep(P, 3, 2);
    ReachableStep(P, 4, 1);
    ReachableStep(P, 5, 6);
  }

  lemma LoopAccepted()
    ensures LOOP_PROOF.WellFormed()
      && (forall i :: 0 <= i < |LOOP_PROOF.clauses| ==> LOOP_PROOF.Copies(LOOP_PROOF.clauses[i]))
    ensures Accepted(LOOP_PROOF, LOOP_MATRIX)
  {
    LoopCopies();
    CopiesByPosition(LOOP_PROOF);
    assert LOOP_TRACE[1] == [-10, 11] && LOOP_TRACE[2] == [10, -11] && LOOP_TRACE[3] == [10] && LOOP_TRACE[4] == [11];
    assert LOOP_TRACE[5] == [-10] && LOOP_TRACE[6] == [-11] && LOOP_TRACE[7] == [];
    LoopLeaf1();
    LoopLeaf2();
    LoopResolvents34();
    LoopResolvents56();
    LoopResolvent7();
    LoopNode3();
    LoopNode4();
    LoopNode5();
    LoopNode6();
    LoopNode7();
    LoopReachable();
    SevenAccepted(LOOP_PROOF, LOOP_MATRIX);
  }

  lemma LoopTrue()
    requires AllBlocks(LOOP_PREFIX)
    ensures Truth(Flatten(LOOP_PREFIX), {}, MatrixLits(LOOP_MATRIX))
  {
    var M := MatrixLits(LOOP_MATRIX);
    assert M[0] == [] + [-1, 2] && M[1] == [] + [1, -2] && |M| == 2;
    assert -1 in M[0] && -2 in M[1];
    var none: Assignment := {};
    assert Sat(none, M);
    BoundsOf(Quant(EXISTS, [1, 2]));
    var bs := [Bound(1, Existential), Bound(2, Existential)];
    assert LOOP_PREFIX[..0] == [] && Flatten(LOOP_PREFIX) == Flatten([]) + BlockBounds(Quant(EXISTS, [1, 2])) == bs;
    assert bs[1..] == [Bound(2, Existential)] && bs[1..][1..] == [];
    assert none - {1} == none && none - {2} == none;
    assert Truth(bs[1..], none, M);
  }

  /** Without the premise on antecedents the check of refutations is unsound: this proof is accepted,
      its annotations are complete, and it refutes a true formula. */
  lemma AntecedentsMustNotLoop()
    ensures Readable(LOOP_PROOF, LOOP_PREFIX, LOOP_DEPTHS, LOOP_MATRIX) && Accepted(LOOP_PROOF, LOOP_MATRIX)
    ensures Covers(Existential, LOOP_PROOF, LOOP_PREFIX)
    ensures Truth(Flatten(LOOP_PREFIX), {}, MatrixLits(LOOP_MATRIX))
    ensures !Acyclic(LOOP_PROOF)
  {
    LoopReadable();
    LoopAccepted();
    LoopTrue();
    NotSound(LOOP_PROOF, LOOP_PREFIX, LOOP_DEPTHS, LOOP_MATRIX);
  }

  // ----- helper clauses that name nothing -----

  /** exists 1: (1), (not 1). It is false. */
  const BARE_PREFIX := [Quant(EXISTS, [1])]
  const BARE_DEPTHS: seq<int> := [-1, 0]
  const BARE_MATRIX := [QClause([1], []), QClause([-1], [])]

  /** Helper 7 stands for nothing; its clause is the unit clause 7. The nor-clause (not 7) refers
      to clause 1 and is certified by the assignment -1. */
  const BARE_PROOF := Proof(map[], map[], [[], [7], [-7], []], [(0, 0), (0, 0), (0, 0), (1, 2)],
                            map[0 := 0, 1 := 1, 2 := 2, 3 := 3], 3, map[7 := []])
  const BARE_NORS: seq<seq<Lit>> := [[-7]]
  const BARE_MAPPING: seq<seq<seq<nat>>> := [[[1]]]

  lemma BareReadable()
    ensures ReadableInput(BARE_PROOF, BARE_PREFIX, BARE_DEPTHS, BARE_MATRIX)
    ensures HelpersOverCopies(BARE_PROOF) && Covers(Universal, BARE_PROOF, BARE_PREFIX)
  {
    BareIndexed();
    BareGood();
  }

  lemma BareIndexed()
    ensures AllBlocks(BARE_PREFIX) && WellIndexed(BARE_PREFIX, BARE_DEPTHS)
  {
  }

  lemma BareGood()
    requires AllBlocks(BARE_PREFIX)
    ensures forall c :: c in BARE_MATRIX ==> GoodClause(BARE_PREFIX, BARE_DEPTHS, c)
  {
    assert GoodClause(BARE_PREFIX, BARE_DEPTHS, QClause([1], []));
    assert GoodClause(BARE_PREFIX, BARE_DEPTHS, QClause([-1], []));
  }

  lemma BareCertified()
    ensures NorReadable(BARE_PROOF, [-7]) && OriginsInRange(BARE_MATRIX, [[1]])
    ensures Certificate(BARE_PROOF, BARE_MATRIX, [-7], [[1]], {-1})
  {
    var P := BARE_PROOF;
    assert Group(P, -7) == [];
    assert P.OriginalLits([]) == [];
    assert MatchCode(P, [], QClause([1], [])) == 0;
    assert Justified(P, BARE_MATRIX, [], [1], {-1});
    assert [1] in [[1]] && 0 + 1 in [1];
    assert Referenced([[1]], 0);
    assert -1 in BARE_MATRIX[1].ex;
  }

  lemma BareAccepted()
    requires BARE_PROOF.WellFormed()
    ensures NorAccepted(BARE_PROOF, BARE_MATRIX, BARE_NORS, BARE_MAPPING, [3])
    ensures AcyclicResolutions(BARE_PROOF, [3])
  {
    BareCertified();
    BareNode();
    var rank: nat -> nat := i => i;
    assert RankedResolutions(BARE_PROOF, [3], rank);
  }

  /** Every truthful solver lets the nor-clause pass. */
  lemma BarePasses(solver: Solver)
    requires Truthful(solver)
    ensures NorsPass(BARE_PROOF, BARE_MATRIX, BARE_PREFIX, BARE_NORS, BARE_MAPPING, solver, |BARE_NORS|)
  {
    BareCertified();
    BareIndexed();
    BareGood();
    NorExact(BARE_PROOF, BARE_MATRIX, BARE_PREFIX, BARE_DEPTHS, [-7], [[1]], solver);
    OneNorPasses(BARE_PROOF, BARE_MATRIX, BARE_PREFIX, BARE_NORS, BARE_MAPPING, solver);
  }

  lemma OneNorPasses(P: Proof, matrix: seq<QClause>, B: seq<Quant>, nors: seq<seq<Lit>>, mapping: seq<seq<seq<nat>>>,
      solver: Solver)
    requires |nors| == |mapping| == 1 && NorPasses(P, matrix, B, nors[0], mapping[0], solver)
    ensures NorsPass(P, matrix, B, nors, mapping, solver, |nors|)
  {
    assert NorsPass(P, matrix, B, nors, mapping, solver, 0);
  }

  lemma BareNode()
    requires BARE_PROOF.WellFormed()
    ensures NodeCode(BARE_PROOF, 3) == 0
  {
    Resolves([7], [-7], [], 7);
  }

  /** Only the bare helper clause has no proper origin. */
  lemma BareOrigins()
    ensures FromRule(BARE_PROOF, BARE_NORS, [3], 2) && FromRule(BARE_PROOF, BARE_NORS, [3], 3)
    ensures BARE_PROOF.clauses[1] == [7] && 7 in BARE_PROOF.helpers
  {
    assert [-7] in BARE_NORS && BARE_NORS[0] == BARE_PROOF.clauses[2];
  }

  lemma BareFalse()
    requires AllBlocks(BARE_PREFIX)
    ensures !Truth(Flatten(BARE_PREFIX), {}, MatrixLits(BARE_MATRIX))
  {
    var M := MatrixLits(BARE_MATRIX);
    assert M[0] == [] + [1] && M[1] == [] + [-1];
    assert M[0] in M && M[1] in M;
    forall A: Assignment ensures !Sat(A, M) {
      assert !ClauseTrue(A, M[0]) || !ClauseTrue(A, M[1]);
    }
    NeverTrue(Flatten(BARE_PREFIX), {}, M);
  }

  lemma {:induction false} NeverTrue(bs: seq<Bound>, A: Assignment, M: Matrix)
    requires forall B: Assignment :: !Sat(B, M)
    ensures !Truth(bs, A, M)
    decreases |bs|
  {
    if bs != [] {
      NeverTrue(bs[1..], A + {bs[0].v}, M);
      NeverTrue(bs[1..], A - {bs[0].v}, M);
    }
  }

  /** A helper clause that names nothing the helper stands for breaks the dual argument: with any
      truthful solver this proof passes every test after which checkSAT returns 0, has an empty
      clause, and proves a false formula. */
  lemma HelpersMustStandForSomething()
    ensures ReadableInput(BARE_PROOF, BARE_PREFIX, BARE_DEPTHS, BARE_MATRIX)
    ensures HelpersOverCopies(BARE_PROOF) && Covers(Universal, BARE_PROOF, BARE_PREFIX)
    ensures forall solver :: Truthful(solver) ==>
              NorsPass(BARE_PROOF, BARE_MATRIX, BARE_PREFIX, BARE_NORS, BARE_MAPPING, solver, |BARE_NORS|)
    ensures (forall i :: i in [3] ==> NodeCode(BARE_PROOF, i) == 0) && AcyclicResolutions(BARE_PROOF, [3])
    ensures NorAccepted(BARE_PROOF, BARE_MATRIX, BARE_NORS, BARE_MAPPING, [3])
    ensures BARE_PROOF.root != 0 && !Truth(Flatten(BARE_PREFIX), {}, MatrixLits(BARE_MATRIX))
    ensures FromRule(BARE_PROOF, BARE_NORS, [3], 2) && FromRule(BARE_PROOF, BARE_NORS, [3], 3)
    ensures !FromRule(BARE_PROOF, BARE_NORS, [3], 1)
  {
    BareReadable();
    BareAccepted();
    BareNode();
    forall solver | Truthful(solver)
      ensures NorsPass(BARE_PROOF, BARE_MATRIX, BARE_PREFIX, BARE_NORS, BARE_MAPPING, solver, |BARE_NORS|) {
      BarePasses(solver);
    }
    BareOrigins();
    BareFalse();
    BareNotFromRule();
  }

  lemma BareNotFromRule()
    ensures !FromRule(BARE_PROOF, BARE_NORS, [3], 1)
  {
    assert BARE_PROOF.clauses[1] == [7];
    assert 7 in Elements(BARE_PROOF.clauses[1]) && forall n :: n in BARE_NORS ==> 7 !in Elements(n);
  }

  // ----- no empty clause -----

  /** Nothing but the dummy clause. */
  const NO_CLAUSES := Proof(map[], map[], [[]], [(0, 0)], map[0 := 0], 0, map[])

  /** The check of true formulas does not look for an empty clause: without any clauses every other
      premise holds, nothing is left to test, and the formula may be false. */
  lemma EmptyClauseMustBeThere(solver: Solver)
    ensures ReadableInput(NO_CLAUSES, BARE_PREFIX, BARE_DEPTHS, BARE_MATRIX)
    ensures HelpersOverCopies(NO_CLAUSES) && Covers(Universal, NO_CLAUSES, BARE_PREFIX)
    ensures NorsPass(NO_CLAUSES, BARE_MATRIX, BARE_PREFIX, [], [], solver, 0)
    ensures NorAccepted(NO_CLAUSES, BARE_MATRIX, [], [], []) && AcyclicResolutions(NO_CLAUSES, [])
    ensures NO_CLAUSES.root == 0 && !Truth(Flatten(BARE_PREFIX), {}, MatrixLits(BARE_MATRIX))
  {
    BareIndexed();
    BareGood();
    BareFalse();
    var rank: nat -> nat := i => i;
    assert RankedResolutions(NO_CLAUSES, [], rank);
  }
}
