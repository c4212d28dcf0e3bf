/** The move extracted for the first universal block wins: whatever the existential player chose
    before it, the rest of the game is lost for the existential player. */
module ExtractMove {
  import opened Literals
  import opened Qbf
  import opened Formulas
  import opened Resolution
  import opened FerpProofs
  import opened ExtractTheory

  /** Annotations assign exactly the universal variables to the left of the original. */
  ghost predicate ExactAnnotations(P: Proof, B: seq<Quant>)
    requires AllBlocks(B) && P.WellFormed()
  {
    forall v, d :: v in P.original && 0 <= d < |B| && B[d].kind == EXISTS && P.original[v] in B[d].vars ==>
      AnnotatedVars(P.annotation[v]) == OppVars(Existential, B, d)
  }

  /** The position after block q: the existential player chose E, the universal one W. */
  ghost function Position(B: seq<Quant>, q: nat, E: set<Var>, W: set<Var>): Assignment
    requires AllBlocks(B) && q < |B|
  {
    set d, v | 0 <= d <= q && v in B[d].vars && (if B[d].kind == FORALL then v in W else v in E) :: v
  }

  lemma SameBlock(B: seq<Quant>, d: nat, e: nat, v: Var)
    requires AllBlocks(B) && DistinctBlocks(B) && d < |B| && e < |B| && v in B[d].vars && v in B[e].vars
    ensures d == e
  {
  }

  lemma PositionHas(B: seq<Quant>, q: nat, E: set<Var>, W: set<Var>, d: nat, v: Var)
    requires AllBlocks(B) && DistinctBlocks(B) && d <= q < |B| && v in B[d].vars
    ensures v in Position(B, q, E, W) <==> if B[d].kind == FORALL then v in W else v in E
  {
    if v in Position(B, q, E, W) {
      var e :| 0 <= e <= q && v in B[e].vars && (if B[e].kind == FORALL then v in W else v in E);
      SameBlock(B, d, e, v);
    }
  }

  lemma LaterBlocks(B: seq<Quant>, q: nat)
    requires AllBlocks(B) && DistinctBlocks(B) && q < |B|
    ensures AllBlocks(B[q + 1..]) && DistinctBlocks(B[q + 1..]) && Distinct(Flatten(B[q + 1..]))
  {
    var C := B[q + 1..];
    forall d, e, v | 0 <= d < e < |C| && v in C[d].vars ensures v !in C[e].vars {
      assert C[d] == B[d + q + 1] && C[e] == B[e + q + 1];
    }
    FlattenDistinct(C);
  }

  lemma NotLater(B: seq<Quant>, q: nat, d: nat, v: Var)
    requires AllBlocks(B) && DistinctBlocks(B) && d <= q < |B| && v in B[d].vars
    ensures AllBlocks(B[q + 1..]) && v !in VarsOf(Flatten(B[q + 1..]))
  {
    var C := B[q + 1..];
    forall b | b in Flatten(C) ensures b.v != v {
      FlattenHas(C, b.v, b.owner);
      var e :| 0 <= e < |C| && b.v in C[e].vars;
      assert C[e] == B[e + q + 1];
    }
  }

  /** What the existential player makes of the rest of the game from the position. */
  ghost function Continuation(B: seq<Quant>, q: nat, A: Assignment, rho: Assignment, M: Matrix): Assignment
    requires AllBlocks(B) && q < |B|
  {
    Play(Existential, Flatten(B[q + 1..]), A, rho, M)
  }

  /** The copies of unassigned variables, valued by the continuation under their annotation. */
  ghost function CopyValues(P: Proof, B: seq<Quant>, q: nat, A: Assignment, M: Matrix): Assignment
    requires P.WellFormed() && AllBlocks(B) && q < |B|
  {
    set v | v in P.original && P.original[v] in Continuation(B, q, A, Positives(Elements(P.annotation[v])), M)
  }

  /** A later existential variable has the value of its copy, for every consistent extension of
      the copy's annotation. */
  lemma CopyAgrees(P: Proof, B: seq<Quant>, q: nat, A: Assignment, M: Matrix, L: set<Lit>, v: Var, e: nat)
    requires P.WellFormed() && AllBlocks(B) && DistinctBlocks(B) && ExactAnnotations(P, B)
    requires q < e < |B| && B[e].kind == EXISTS && v in P.original && P.original[v] in B[e].vars
    requires Consistent(L) && Elements(P.annotation[v]) <= L
    ensures v in CopyValues(P, B, q, A, M) <==> P.original[v] in Continuation(B, q, A, Positives(L), M)
  {
    LaterBlocks(B, q);
    var C, x := B[q + 1..], P.original[v];
    var bs, anno := Flatten(C), P.annotation[v];
    var f := e - (q + 1);
    assert C[f] == B[e];
    OppBeforeBlocks(Existential, C, f, x);
    FlattenHas(C, x, Existential);
    var b := Bound(x, Existential);
    assert b in bs;
    var left := OppBefore(Existential, bs, x);
    forall u | u in left ensures u in AnnotatedVars(anno) {
      var i :| 0 <= i < f && u in C[i].vars && Owner(C[i].kind) != Existential;
      assert C[i] == B[i + q + 1];
      assert u in OppVars(Existential, B, e);
    }
    SameOn(anno, L, left);
    PlayLocal(Existential, bs, A, Positives(L), Positives(Elements(anno)), M, b);
  }

  lemma SameOn(anno: seq<Lit>, L: set<Lit>, left: set<Var>)
    requires Consistent(L) && Elements(anno) <= L && left <= AnnotatedVars(anno)
    ensures Positives(L) * left == Positives(Elements(anno)) * left
  {
    forall u | u in Positives(L) * left ensures u in Positives(Elements(anno)) {
      var l :| l in anno && VarOf(l) == u;
      assert l in Elements(anno);
      assert l == u || l == Negate(u);
    }
  }

  // ----- the premises of the move theorem -----

  /** All existential variables before block q stand in the block directly before it. */
  ghost predicate OneBlockBefore(B: seq<Quant>, q: nat)
    requires AllBlocks(B) && q < |B|
  {
    forall d, v :: 0 <= d < q && B[d].kind == EXISTS && v in B[d].vars ==> d == q - 1
  }

  /** The formula, the refutation and the tables of block q, the first processed universal block. */
  ghost predicate Setting(D: Derivation, B: seq<Quant>, qd: seq<int>, matrix: seq<QClause>, E: set<Var>, q: nat,
      num: nat, S: Tables<bool>, T: Tables<bool>)
  {
    && Readable(D.P, B, qd, matrix) && FirstBlock(D, qd, E, q, num, S, T)
    && 0 < q < |B| && B[q].kind == FORALL
    && OneBlockBefore(B, q)
    && ExactAnnotations(D.P, B)
    && (forall i :: 1 <= i < |D.P.clauses| && D.pivots[i] == 0 ==> LeafCode(D.P, matrix, i) == 0)
    && D.P.root != 0
  }

  /** W plays, in block q, the annotations that are still cumulatively active at the root, and
      before block q what all annotations say. */
  ghost predicate Plays(D: Derivation, B: seq<Quant>, q: nat, num: nat, T: Tables<bool>, W: set<Var>)
    requires Good(D, num) && Shaped(T, |D.P.clauses|, num) && AllBlocks(B) && q < |B| && D.P.root < |D.P.clauses|
  {
    && PlaysActive(D, B[q].vars, num, T, W)
    && PlaysEarlier(D.P, B, q, W)
  }

  ghost predicate PlaysActive(D: Derivation, Q: seq<Var>, num: nat, T: Tables<bool>, W: set<Var>)
    requires Good(D, num) && Shaped(T, |D.P.clauses|, num) && D.P.root < |D.P.clauses|
  {
    forall v, a | 0 <= v < num && v in D.P.annotation && T.cumulative[D.P.root][v] && a in D.P.annotation[v] ::
      VarOf(a) in Q ==> LitTrue(W, a)
  }

  ghost predicate PlaysEarlier(P: Proof, B: seq<Quant>, q: nat, W: set<Var>)
    requires AllBlocks(B) && q <= |B|
  {
    forall v, a, d | v in P.original && v in P.annotation && a in P.annotation[v] && 0 <= d < q
      && B[d].kind == FORALL ::
      VarOf(a) in B[d].vars ==> LitTrue(W, a)
  }

  /** In a used leaf the annotations agree with the universal moves up to block q. */
  lemma UsedFollowsMove(D: Derivation, B: seq<Quant>, qd: seq<int>, matrix: seq<QClause>, E: set<Var>, q: nat, num: nat,
                        S: Tables<bool>, T: Tables<bool>, W: set<Var>, lf: nat, a: Lit, d: nat)
    requires Setting(D, B, qd, matrix, E, q, num, S, T) && Plays(D, B, q, num, T, W)
    requires 1 <= lf < |D.P.clauses| && D.pivots[lf] == 0 && lf in Used(D, num, T, D.P.root) && !T.top[lf]
    requires a in D.P.Union(D.Clause(lf)) && d <= q && B[d].kind == FORALL && VarOf(a) in B[d].vars
    ensures LitTrue(W, a)
  {
    var c := D.Clause(lf);
    var l :| l in c && a in D.P.annotation[VarOf(l)];
    var v := VarOf(l);
    if d == q {
      var e := LeafBlock(D.P, B, qd, matrix, lf, l);
      IndexedDistinct(B, qd);
      assert VarOf(a) in OppVars(Existential, B, e);
      var i :| 0 <= i < e && VarOf(a) in B[i].vars;
      SameBlock(B, i, q, VarOf(a));
      LeafActive(D, qd, E, q, num, S, T, lf, l);
      UsedCumulative(D, qd, E, q, num, S, T, D.P.root, lf, v);
    }
  }

  /** The block in which the original of a leaf's literal is bound. */
  lemma LeafBlock(P: Proof, B: seq<Quant>, qd: seq<int>, matrix: seq<QClause>, i: nat, l: Lit) returns (e: nat)
    requires Readable(P, B, qd, matrix) && i < |P.clauses| && LeafCode(P, matrix, i) == 0 && l in P.clauses[i]
    ensures e < |B| && B[e].kind == EXISTS && P.original[VarOf(l)] in B[e].vars && e == CopyDepth(P, qd, VarOf(l))
    ensures P.OriginalLit(l) in matrix[P.antecedents[i].0 - 1].ex
  {
    var c, Q := P.clauses[i], matrix[P.antecedents[i].0 - 1];
    var k :| 0 <= k < |c| && c[k] == l;
    var o := P.OriginalLits(c);
    assert o[k] == P.OriginalLit(l);
    assert o[k] in multiset(o) && o[k] in multiset(Q.ex);
    assert Q in matrix && GoodClause(B, qd, Q);
    assert BoundAs(B, qd, o[k], EXISTS);
    e := Depth(qd, VarOf(o[k]));
  }

  /** In a leaf that is not satisfied every unassigned copy is active. */
  lemma LeafActive(D: Derivation, qd: seq<int>, E: set<Var>, q: nat, num: nat, S: Tables<bool>, T: Tables<bool>,
      lf: nat, l: Lit)
    requires FirstBlock(D, qd, E, q, num, S, T)
    requires 1 <= lf < |D.P.clauses| && D.pivots[lf] == 0 && !T.top[lf] && l in D.Clause(lf)
    requires CopyDepth(D.P, qd, VarOf(l)) >= q
    ensures VarOf(l) < num && T.active[lf][VarOf(l)]
  {
    var v := VarOf(l);
    assert LeafStep(D, qd, E, q, num, S, T, lf);
    assert l == MakeLit(v, false) || l == MakeLit(v, true);
    assert HasVar(D.Clause(lf), v);
    assert T.active[lf][v] == LeafEntry(D, qd, q, lf, v, S.active[lf][v], T.top[lf]);
  }

  /** Under the position and any continuation consistent with a used leaf, only an active literal
      of the leaf can make its matrix clause true. */
  lemma UsedClauseNeedsActive(D: Derivation, B: seq<Quant>, qd: seq<int>, matrix: seq<QClause>, E: set<Var>, q: nat,
      num: nat, S: Tables<bool>, T: Tables<bool>, W: set<Var>, lf: nat)
    requires Setting(D, B, qd, matrix, E, q, num, S, T) && Plays(D, B, q, num, T, W)
    requires 1 <= lf < |D.P.clauses| && D.pivots[lf] == 0 && lf in Used(D, num, T, D.P.root) && !T.top[lf]
    requires Truth(Flatten(B[q + 1..]), Position(B, q, E, W), MatrixLits(matrix))
    ensures ActiveTrue(D, num, T, CopyValues(D.P, B, q, Position(B, q, E, W), MatrixLits(matrix)), lf)
  {
    var P, M, A := D.P, MatrixLits(matrix), Position(B, q, E, W);
    var L := P.Union(D.Clause(lf));
    var out := Continuation(B, q, A, Positives(L), M);
    IndexedDistinct(B, qd);
    PlayWins(Existential, Flatten(B[q + 1..]), A, Positives(L), M);
    assert LeafCode(P, matrix, lf) == 0;
    var Q := matrix[P.antecedents[lf].0 - 1];
    assert M[P.antecedents[lf].0 - 1] == Q.Lits() && Q in matrix;
    assert ClauseTrue(out, Q.Lits());
    var l :| l in Q.Lits() && LitTrue(out, l);
    forall u | u in Q.al ensures !LitTrue(out, u) {
      UniversalFalse(D, B, qd, matrix, E, q, num, S, T, W, lf, u);
    }
    assert l in Q.ex;
    ExistentialTrue(D, B, qd, matrix, E, q, num, S, T, W, lf, l);
  }

  /** A universal literal that the leaf falsifies: what is known of its negation. */
  lemma LeafFalsifies(P: Proof, B: seq<Quant>, qd: seq<int>, matrix: seq<QClause>, lf: nat, u: Lit) returns (d: nat)
    requires Readable(P, B, qd, matrix) && lf < |P.clauses| && LeafCode(P, matrix, lf) == 0
    requires u in matrix[P.antecedents[lf].0 - 1].al
    ensures d < |B| && B[d].kind == FORALL && VarOf(u) in B[d].vars
    ensures Negate(u) in P.Union(P.clauses[lf]) && Consistent(P.Union(P.clauses[lf]))
    ensures VarOf(Negate(u)) == VarOf(u)
  {
    var Q := matrix[P.antecedents[lf].0 - 1];
    assert Q in matrix && GoodClause(B, qd, Q) && BoundAs(B, qd, u, FORALL);
    d := Depth(qd, VarOf(u));
  }

  lemma UniversalFalse(D: Derivation, B: seq<Quant>, qd: seq<int>, matrix: seq<QClause>, E: set<Var>, q: nat, num: nat,
                       S: Tables<bool>, T: Tables<bool>, W: set<Var>, lf: nat, u: Lit)
    requires Setting(D, B, qd, matrix, E, q, num, S, T) && Plays(D, B, q, num, T, W)
    requires 1 <= lf < |D.P.clauses| && D.pivots[lf] == 0 && lf in Used(D, num, T, D.P.root) && !T.top[lf]
    requires u in matrix[D.P.antecedents[lf].0 - 1].al
    ensures !LitTrue(Continuation(B, q, Position(B, q, E, W), Positives(D.P.Union(D.Clause(lf))), MatrixLits(matrix)),
      u)
  {
    var A, L := Position(B, q, E, W), D.P.Union(D.Clause(lf));
    assert LeafCode(D.P, matrix, lf) == 0;
    var d := LeafFalsifies(D.P, B, qd, matrix, lf, u);
    IndexedDistinct(B, qd);
    if d <= q {
      UsedFollowsMove(D, B, qd, matrix, E, q, num, S, T, W, lf, Negate(u), d);
      PlayedFalse(B, q, E, W, Positives(L), MatrixLits(matrix), u, d);
    } else {
      LaterFalse(B, q, A, L, MatrixLits(matrix), u, d);
    }
  }

  /** A literal of a universal move already made keeps its value. */
  lemma PlayedFalse(B: seq<Quant>, q: nat, E: set<Var>, W: set<Var>, rho: Assignment, M: Matrix, u: Lit, d: nat)
    requires AllBlocks(B) && DistinctBlocks(B) && d <= q < |B| && B[d].kind == FORALL && VarOf(u) in B[d].vars
    requires LitTrue(W, Negate(u))
    ensures !LitTrue(Continuation(B, q, Position(B, q, E, W), rho, M), u)
  {
    NotLater(B, q, d, VarOf(u));
    PlayKeeps(Existential, Flatten(B[q + 1..]), Position(B, q, E, W), rho, M, VarOf(u));
    PositionHas(B, q, E, W, d, VarOf(u));
    assert VarOf(Negate(u)) == VarOf(u);
  }

  /** A later universal literal is false when the opponent plays its negation. */
  lemma LaterFalse(B: seq<Quant>, q: nat, A: Assignment, L: set<Lit>, M: Matrix, u: Lit, d: nat)
    requires AllBlocks(B) && DistinctBlocks(B) && q < d < |B| && B[d].kind == FORALL && VarOf(u) in B[d].vars
    requires Negate(u) in L && Consistent(L)
    ensures !LitTrue(Continuation(B, q, A, Positives(L), M), u)
  {
    LaterBlocks(B, q);
    var C := B[q + 1..];
    assert C[d - (q + 1)] == B[d];
    FlattenHas(C, VarOf(u), Universal);
    PlayFollowsOpponent(Existential, Flatten(C), A, Positives(L), M, Bound(VarOf(u), Universal));
    assert Negate(Negate(u)) == u;
  }

  lemma ExistentialTrue(D: Derivation, B: seq<Quant>, qd: seq<int>, matrix: seq<QClause>, E: set<Var>, q: nat, num: nat,
                        S: Tables<bool>, T: Tables<bool>, W: set<Var>, lf: nat, l: Lit)
    requires Setting(D, B, qd, matrix, E, q, num, S, T)
    requires 1 <= lf < |D.P.clauses| && D.pivots[lf] == 0 && !T.top[lf]
    requires l in matrix[D.P.antecedents[lf].0 - 1].ex
    requires LitTrue(Continuation(B, q, Position(B, q, E, W), Positives(D.P.Union(D.Clause(lf))), MatrixLits(matrix)),
      l)
    ensures ActiveTrue(D, num, T, CopyValues(D.P, B, q, Position(B, q, E, W), MatrixLits(matrix)), lf)
  {
    var P, M, A := D.P, MatrixLits(matrix), Position(B, q, E, W);
    var c := D.Clause(lf);
    var L := P.Union(c);
    assert LeafCode(P, matrix, lf) == 0;
    var k := CopyInLeaf(P, matrix, lf, l);
    var e := LeafBlock(P, B, qd, matrix, lf, c[k]);
    IndexedDistinct(B, qd);
    EarlierFalse(D, B, qd, matrix, E, q, num, S, T, W, lf, c[k], e);
    assert e != q;
    assert Elements(P.annotation[VarOf(c[k])]) <= L;
    CopyAgrees(P, B, q, A, M, L, VarOf(c[k]), e);
    LeafActive(D, qd, E, q, num, S, T, lf, c[k]);
    assert LitTrue(CopyValues(P, B, q, A, M), c[k]);
  }

  /** In a leaf that is not satisfied, the assigned existential literals are false. */
  lemma EarlierFalse(D: Derivation, B: seq<Quant>, qd: seq<int>, matrix: seq<QClause>, E: set<Var>, q: nat, num: nat,
                     S: Tables<bool>, T: Tables<bool>, W: set<Var>, lf: nat, k: Lit, e: nat)
    requires Setting(D, B, qd, matrix, E, q, num, S, T)
    requires 1 <= lf < |D.P.clauses| && D.pivots[lf] == 0 && !T.top[lf] && k in D.Clause(lf)
    requires e < |B| && B[e].kind == EXISTS && D.P.original[VarOf(k)] in B[e].vars && e == CopyDepth(D.P, qd, VarOf(k))
    ensures e < q ==>
      !LitTrue(Continuation(B, q, Position(B, q, E, W), Positives(D.P.Union(D.Clause(lf))), MatrixLits(matrix)),
                               D.P.OriginalLit(k))
  {
    var P, M, A := D.P, MatrixLits(matrix), Position(B, q, E, W);
    var x := P.original[VarOf(k)];
    IndexedDistinct(B, qd);
    if e < q {
      assert e == q - 1;
      NotLater(B, q, e, x);
      PlayKeeps(Existential, Flatten(B[q + 1..]), A, Positives(P.Union(D.Clause(lf))), M, x);
      PositionHas(B, q, E, W, e, x);
      assert LeafStep(D, qd, E, q, num, S, T, lf);
      assert !Holds(P, E, k);
    }
  }

  /** The extracted move wins: from the position it leads to, the remaining formula is false. */
  lemma MoveWins(D: Derivation, B: seq<Quant>, qd: seq<int>, matrix: seq<QClause>, E: set<Var>, q: nat, num: nat,
                 S: Tables<bool>, T: Tables<bool>, W: set<Var>)
    requires Setting(D, B, qd, matrix, E, q, num, S, T) && Plays(D, B, q, num, T, W)
    ensures !Truth(Flatten(B[q + 1..]), Position(B, q, E, W), MatrixLits(matrix))
  {
    var M, A := MatrixLits(matrix), Position(B, q, E, W);
    if Truth(Flatten(B[q + 1..]), A, M) {
      var lf := RefutingLeaf(D, qd, E, q, num, S, T, CopyValues(D.P, B, q, A, M));
      UsedClauseNeedsActive(D, B, qd, matrix, E, q, num, S, T, W, lf);
    }
  }

  // ----- moves that agree with all annotations -----

  /** W plays what the annotations of all existential copies say up to block q. */
  ghost predicate Follows(P: Proof, B: seq<Quant>, q: nat, W: set<Var>)
    requires AllBlocks(B) && q < |B|
  {
    forall v, a, d, e | v in P.original && v in P.annotation && a in P.annotation[v] && 0 <= d <= q
      && B[d].kind == FORALL
                        && 0 <= e < |B| && B[e].kind == EXISTS && P.original[v] in B[e].vars ::
      VarOf(a) in B[d].vars ==> LitTrue(W, a)
  }

  /** A variable bound up to block q keeps the value of the position. */
  lemma EarlierCopy(P: Proof, B: seq<Quant>, q: nat, E: set<Var>, W: set<Var>, M: Matrix, rho: Assignment, v: Var,
      e: nat)
    requires P.WellFormed() && AllBlocks(B) && DistinctBlocks(B) && e <= q < |B|
    requires v in P.original && P.original[v] in B[e].vars
    ensures v in CopyValues(P, B, q, Position(B, q, E, W), M) <==>
            P.original[v] in Continuation(B, q, Position(B, q, E, W), rho, M)
  {
    var A, x := Position(B, q, E, W), P.original[v];
    NotLater(B, q, e, x);
    PlayKeeps(Existential, Flatten(B[q + 1..]), A, rho, M, x);
    PlayKeeps(Existential, Flatten(B[q + 1..]), A, Positives(Elements(P.annotation[v])), M, x);
  }

  lemma FollowedFalse(P: Proof, B: seq<Quant>, qd: seq<int>, matrix: seq<QClause>, E: set<Var>, q: nat, W: set<Var>,
      lf: nat, u: Lit)
    requires Readable(P, B, qd, matrix) && q < |B| && Follows(P, B, q, W)
    requires lf < |P.clauses| && LeafCode(P, matrix, lf) == 0 && u in matrix[P.antecedents[lf].0 - 1].al
    ensures !LitTrue(Continuation(B, q, Position(B, q, E, W), Positives(P.Union(P.clauses[lf])), MatrixLits(matrix)), u)
  {
    var A, L := Position(B, q, E, W), P.Union(P.clauses[lf]);
    var d := LeafFalsifies(P, B, qd, matrix, lf, u);
    IndexedDistinct(B, qd);
    if d <= q {
      var k :| k in P.clauses[lf] && Negate(u) in P.annotation[VarOf(k)];
      var e := LeafBlock(P, B, qd, matrix, lf, k);
      PlayedFalse(B, q, E, W, Positives(L), MatrixLits(matrix), u, d);
    } else {
      LaterFalse(B, q, A, L, MatrixLits(matrix), u, d);
    }
  }

  /** If the position were won, all leaves would be true. */
  lemma FollowedLeaf(P: Proof, B: seq<Quant>, qd: seq<int>, matrix: seq<QClause>, E: set<Var>, q: nat, W: set<Var>,
      lf: nat)
    requires Readable(P, B, qd, matrix) && q < |B| && B[q].kind == FORALL && ExactAnnotations(P, B)
      && Follows(P, B, q, W)
    requires lf < |P.clauses| && LeafCode(P, matrix, lf) == 0
    requires Truth(Flatten(B[q + 1..]), Position(B, q, E, W), MatrixLits(matrix))
    ensures ClauseTrue(CopyValues(P, B, q, Position(B, q, E, W), MatrixLits(matrix)), P.clauses[lf])
  {
    var M, A, c := MatrixLits(matrix), Position(B, q, E, W), P.clauses[lf];
    var L := P.Union(c);
    var out := Continuation(B, q, A, Positives(L), M);
    IndexedDistinct(B, qd);
    PlayWins(Existential, Flatten(B[q + 1..]), A, Positives(L), M);
    var Q := matrix[P.antecedents[lf].0 - 1];
    assert M[P.antecedents[lf].0 - 1] == Q.Lits();
    forall u | u in Q.al ensures !LitTrue(out, u) {
      FollowedFalse(P, B, qd, matrix, E, q, W, lf, u);
    }
    var l := ExistentialLit(Q, out);
    var k := CopyInLeaf(P, matrix, lf, l);
    var e := LeafBlock(P, B, qd, matrix, lf, c[k]);
    assert Elements(P.annotation[VarOf(c[k])]) <= L;
    if e <= q {
      EarlierCopy(P, B, q, E, W, M, Positives(L), VarOf(c[k]), e);
    } else {
      CopyAgrees(P, B, q, A, M, L, VarOf(c[k]), e);
    }
    assert LitTrue(CopyValues(P, B, q, A, M), c[k]);
  }

  /** A resolvent is true wherever both parents are. */
  lemma PivotSound(p: seq<Lit>, q: seq<Lit>, c: seq<Lit>, l: Lit, A: Assignment)
    requires IsPivot(p, q, c, l) && ClauseTrue(A, p) && ClauseTrue(A, q)
    ensures ClauseTrue(A, c)
  {
    var a :| a in p && LitTrue(A, a);
    var b :| b in q && LitTrue(A, b);
    assert a == l && b == Negate(l) ==> !LitTrue(A, a) || !LitTrue(A, b);
    assert a in c || b in c;
  }

  lemma {:induction false} FollowedClause(D: Derivation, num: nat, B: seq<Quant>, qd: seq<int>, matrix: seq<QClause>,
      E: set<Var>, q: nat, W: set<Var>, i: nat)
    requires Readable(D.P, B, qd, matrix) && q < |B| && B[q].kind == FORALL && ExactAnnotations(D.P, B)
      && Follows(D.P, B, q, W)
    requires Good(D, num) && 1 <= i < |D.P.clauses|
    requires forall j :: 1 <= j < |D.P.clauses| && D.pivots[j] == 0 ==> LeafCode(D.P, matrix, j) == 0
    requires Truth(Flatten(B[q + 1..]), Position(B, q, E, W), MatrixLits(matrix))
    ensures ClauseTrue(CopyValues(D.P, B, q, Position(B, q, E, W), MatrixLits(matrix)), D.P.clauses[i])
    decreases i
  {
    if D.pivots[i] == 0 {
      FollowedLeaf(D.P, B, qd, matrix, E, q, W, i);
    } else {
      assert GoodNode(D, i);
      var a, b := D.Parent1(i), D.Parent2(i);
      FollowedClause(D, num, B, qd, matrix, E, q, W, a);
      FollowedClause(D, num, B, qd, matrix, E, q, W, b);
      var l :| VarOf(l) == D.pivots[i] && IsPivot(D.Clause(a), D.Clause(b), D.Clause(i), l);
      PivotSound(D.Clause(a), D.Clause(b), D.Clause(i), l,
        CopyValues(D.P, B, q, Position(B, q, E, W), MatrixLits(matrix)));
    }
  }

  /** Moves that agree with all annotations up to a universal block win, whatever the existential
      player has chosen. */
  lemma FollowingWins(D: Derivation, num: nat, B: seq<Quant>, qd: seq<int>, matrix: seq<QClause>, E: set<Var>, q: nat,
      W: set<Var>)
    requires Readable(D.P, B, qd, matrix) && q < |B| && B[q].kind == FORALL && ExactAnnotations(D.P, B)
      && Follows(D.P, B, q, W)
    requires Good(D, num) && D.P.root != 0
    requires forall j :: 1 <= j < |D.P.clauses| && D.pivots[j] == 0 ==> LeafCode(D.P, matrix, j) == 0
    ensures !Truth(Flatten(B[q + 1..]), Position(B, q, E, W), MatrixLits(matrix))
  {
    if Truth(Flatten(B[q + 1..]), Position(B, q, E, W), MatrixLits(matrix)) {
      FollowedClause(D, num, B, qd, matrix, E, q, W, D.P.root);
    }
  }

  /** No annotation can speak of block q: it binds nothing, or no existential variable follows it. */
  ghost predicate Unannotated(B: seq<Quant>, q: nat)
    requires AllBlocks(B) && q < |B|
  {
    B[q].vars == [] || forall e, v :: q < e < |B| && B[e].kind == EXISTS ==> v !in B[e].vars
  }

  lemma UnannotatedFollows(P: Proof, B: seq<Quant>, q: nat, W: set<Var>)
    requires P.WellFormed() && AllBlocks(B) && DistinctBlocks(B) && q < |B| && B[q].kind == FORALL
    requires ExactAnnotations(P, B) && Unannotated(B, q) && PlaysEarlier(P, B, q, W)
    ensures Follows(P, B, q, W)
  {
    forall v, a, d, e | v in P.original && v in P.annotation && a in P.annotation[v] && 0 <= d <= q
      && B[d].kind == FORALL
                        && 0 <= e < |B| && B[e].kind == EXISTS && P.original[v] in B[e].vars && VarOf(a) in B[d].vars
      ensures LitTrue(W, a)
    {
      assert VarOf(a) in AnnotatedVars(P.annotation[v]) && VarOf(a) in OppVars(Existential, B, e);
      var i :| 0 <= i < e && VarOf(a) in B[i].vars && Owner(B[i].kind) != Existential;
      SameBlock(B, d, i, VarOf(a));
      assert d < q;
    }
  }
}
