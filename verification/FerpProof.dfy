/** A parsed FERP proof as a value, what the checker demands of each of its clauses, and why
    a refutation that passes is a proof that the QBF is false. */
module FerpProofs {
  import opened Literals
  import opened Qbf
  import opened Formulas
  import opened Resolution

  datatype Proof = Proof(
    original: map<Var, Var>,         // propositional variable -> variable of the QBF
    annotation: map<Var, seq<Lit>>,  // propositional variable -> its annotation
    clauses: seq<seq<Lit>>,          // the trace; entry 0 is the unused id 0
    antecedents: seq<(nat, nat)>,
    index: map<nat, nat>,            // clause id -> position in the trace
    root: nat,
    helpers: map<Var, seq<Lit>>)     // helper variable -> the literals it stands for
  {
    /** An id that was never declared is looked up as position 0. */
    function TraceIndex(id: nat): nat {
      if id in index then index[id] else 0
    }

    predicate IsLeaf(i: nat)
      requires i < |antecedents|
    {
      antecedents[i].1 == 0
    }

    ghost predicate WellFormed() {
      && |clauses| == |antecedents| > 0
      && clauses[0] == [] && antecedents[0] == (0, 0)
      && root < |clauses| && clauses[root] == []
      && (forall id :: id in index ==> index[id] < |clauses|)
      && (forall p :: p in original ==> p in annotation && original[p] > 0)
    }

    /** Every literal of the clause is a copy of a variable of the QBF. */
    ghost predicate Copies(c: seq<Lit>) {
      forall l :: l in c ==> VarOf(l) in original && VarOf(l) in annotation && original[VarOf(l)] > 0
    }

    function OriginalLit(l: Lit): Lit
      requires VarOf(l) in original && original[VarOf(l)] > 0
    {
      MakeLit(original[VarOf(l)], Sign(l))
    }

    /** The clause with every copy replaced by the original. */
    function OriginalLits(c: seq<Lit>): (o: seq<Lit>)
      requires Copies(c)
      ensures |o| == |c|
    {
      seq(|c|, i requires 0 <= i < |c| => OriginalLit(c[i]))
    }

    /** All literals in the annotations of a clause's variables. */
    ghost function Union(c: seq<Lit>): set<Lit>
      requires Copies(c)
    {
      set l, a | l in c && a in annotation[VarOf(l)] :: a
    }
  }

  ghost predicate Consistent(L: set<Lit>) {
    forall l :: l in L ==> Negate(l) !in L
  }

  ghost function Positives(L: set<Lit>): Assignment {
    set l | l in L && l > 0 :: l as Var
  }

  // ----- what a leaf and an inner node have to satisfy -----

  /** The verdict on a leaf: its originals are exactly the existential literals of the clause
      it names, its annotations agree, and together they falsify the universal literals. */
  ghost function LeafCode(P: Proof, matrix: seq<QClause>, i: nat): int
    requires i < |P.clauses| == |P.antecedents| && P.Copies(P.clauses[i])
  {
    var c, id := P.clauses[i], P.antecedents[i].0;
    if id == 0 || id > |matrix| then 1
    else if |matrix[id - 1].ex| != |c| then 2
    else if multiset(P.OriginalLits(c)) != multiset(matrix[id - 1].ex) then 3
    else if !Consistent(P.Union(c)) then 4
    else if exists l :: l in matrix[id - 1].al && Negate(l) !in P.Union(c) then 5
    else 0
  }

  function NodeCode(P: Proof, i: nat): int
    requires P.WellFormed() && i < |P.clauses|
  {
    ResolutionCode(P.clauses[P.TraceIndex(P.antecedents[i].0)],
                   P.clauses[P.TraceIndex(P.antecedents[i].1)], P.clauses[i])
  }

  ghost predicate Passes(P: Proof, matrix: seq<QClause>, i: nat)
    requires P.WellFormed() && i < |P.clauses| && P.Copies(P.clauses[i])
  {
    if P.IsLeaf(i) then LeafCode(P, matrix, i) == 0 else NodeCode(P, i) == 0
  }

  /** One step from a clause of the trace to one it was resolved from. */
  ghost predicate Uses(P: Proof, i: nat, j: nat) {
    && i < |P.antecedents| && !P.IsLeaf(i)
    && (j == P.TraceIndex(P.antecedents[i].0) || j == P.TraceIndex(P.antecedents[i].1))
  }

  ghost predicate Path(P: Proof, path: seq<nat>) {
    forall k :: 0 < k < |path| ==> Uses(P, path[k - 1], path[k])
  }

  ghost predicate Reachable(P: Proof, i: nat) {
    exists path :: path != [] && path[0] == P.root && path[|path| - 1] == i && Path(P, path)
  }

  /** Everything checkUNSAT demands. */
  ghost predicate Accepted(P: Proof, matrix: seq<QClause>)
    requires P.WellFormed() && forall i :: 0 <= i < |P.clauses| ==> P.Copies(P.clauses[i])
  {
    && (forall i :: 1 <= i < |P.clauses| ==> Passes(P, matrix, i))
    && P.root != 0
    && (forall i :: 1 <= i < |P.clauses| ==> Reachable(P, i))
  }

  /** The code of a clause by the rule it claims. */
  ghost function ClauseCode(P: Proof, matrix: seq<QClause>, i: nat): int
    requires P.WellFormed() && i < |P.clauses| && P.Copies(P.clauses[i])
  {
    if P.IsLeaf(i) then LeafCode(P, matrix, i) else NodeCode(P, i)
  }

  /** The first clause of the trace that does not pass. */
  ghost predicate FirstBad(P: Proof, matrix: seq<QClause>, i: nat)
    requires P.WellFormed() && forall i :: 0 <= i < |P.clauses| ==> P.Copies(P.clauses[i])
  {
    && 1 <= i < |P.clauses| && !Passes(P, matrix, i)
    && forall j :: 1 <= j < i ==> Passes(P, matrix, j)
  }

  /** What the check of a refutation has to return: the code of the first clause that does not pass, 13 if
      all pass but none is empty, 14 if one does not contribute to the empty one, and 0 else. */
  ghost predicate UnsatVerdict(P: Proof, matrix: seq<QClause>, r: int)
    requires P.WellFormed() && forall i :: 0 <= i < |P.clauses| ==> P.Copies(P.clauses[i])
  {
    if forall i :: 1 <= i < |P.clauses| ==> Passes(P, matrix, i) then
      r == if P.root == 0 then 13 else if exists i: nat :: 1 <= i < |P.clauses| && !Reachable(P, i) then 14 else 0
    else
      exists i :: FirstBad(P, matrix, i) && r == ClauseCode(P, matrix, i)
  }

  // ----- two facts the checker takes for granted -----

  /** A rank that is smaller for the clauses a clause was resolved from. */
  ghost predicate Ranked(P: Proof, rank: nat -> nat) {
    forall i :: 1 <= i < |P.antecedents| && !P.IsLeaf(i) ==>
      rank(P.TraceIndex(P.antecedents[i].0)) < rank(i) && rank(P.TraceIndex(P.antecedents[i].1)) < rank(i)
  }

  /** No clause is, through others or at once, resolved from itself. Forward references are fine. */
  ghost predicate Acyclic(P: Proof) {
    exists rank: nat -> nat :: Ranked(P, rank)
  }

  /** Clauses are resolved from clauses that stand before them. */
  ghost predicate Ordered(P: Proof) {
    forall i :: 1 <= i < |P.antecedents| && !P.IsLeaf(i) ==>
      P.TraceIndex(P.antecedents[i].0) < i && P.TraceIndex(P.antecedents[i].1) < i
  }

  lemma OrderedAcyclic(P: Proof)
    requires Ordered(P)
    ensures Acyclic(P)
  {
    var rank: nat -> nat := i => i;
    assert Ranked(P, rank);
  }

  ghost function AnnotatedVars(anno: seq<Lit>): set<Var> {
    set l | l in anno :: VarOf(l)
  }

  /** The annotation of a copy decides every variable the other player owns to the left of
      the original. */
  ghost predicate Covers(p: Player, P: Proof, B: seq<Quant>)
    requires AllBlocks(B)
  {
    forall v, d :: v in P.original && v in P.annotation && 0 <= d < |B|
                   && P.original[v] in B[d].vars && Owner(B[d].kind) == p
                   ==> OppVars(p, B, d) <= AnnotatedVars(P.annotation[v])
  }

  // ----- from a strategy to a valuation of the copies -----

  /** A copy gets the value the strategy gives its original under the annotation. */
  ghost function Valuation(p: Player, P: Proof, bs: seq<Bound>, F: Strategy): Assignment
    requires P.WellFormed()
  {
    set v | v in P.original &&
            F(P.original[v], Positives(Elements(P.annotation[v])) * OppBefore(p, bs, P.original[v]))
  }

  /** Under any consistent set of opponent choices that extends the annotation, the copy and
      its original have the same value. */
  lemma ValuationAgrees(p: Player, P: Proof, B: seq<Quant>, F: Strategy, L: set<Lit>, v: Var, d: nat)
    requires P.WellFormed() && AllBlocks(B) && DistinctBlocks(B) && Covers(p, P, B)
    requires v in P.original && d < |B| && P.original[v] in B[d].vars && Owner(B[d].kind) == p
    requires Consistent(L) && Elements(P.annotation[v]) <= L
    ensures v in Valuation(p, P, Flatten(B), F)
       <==> P.original[v] in Outcome(p, Flatten(B), F, Positives(L))
  {
    var bs, x := Flatten(B), P.original[v];
    var anno := P.annotation[v];
    var left := OppBefore(p, bs, x);
    FlattenDistinct(B);
    OppBeforeBlocks(p, B, d, x);
    assert left <= AnnotatedVars(anno);
    PositivesLeft(L, anno, left);
    FlattenHas(B, x, p);
    var b := Bound(x, p);
    assert b in bs;
    assert Value(p, bs, F, Positives(L), b) <==> F(x, Positives(L) * left);
    OnlyBound(bs, b);
  }

  lemma PositivesLeft(L: set<Lit>, anno: seq<Lit>, left: set<Var>)
    requires Consistent(L) && Elements(anno) <= L && left <= AnnotatedVars(anno)
    ensures Positives(L) * left == Positives(Elements(anno)) * left
  {
    forall u | u in Positives(L) * left ensures u in Positives(Elements(anno)) {
      var l :| l in anno && VarOf(l) == u;
      assert l in Elements(anno);
      assert l == u || l == Negate(u);
    }
  }

  lemma OnlyBound(bs: seq<Bound>, b: Bound)
    requires Distinct(bs) && b in bs
    ensures forall c :: c in bs && c.v == b.v ==> c == b
  {
    forall c | c in bs && c.v == b.v ensures c == b {
      var i :| 0 <= i < |bs| && bs[i] == b;
      var j :| 0 <= j < |bs| && bs[j] == c;
    }
  }

  /** A variable of the opponent follows the opponent's choices. */
  lemma OpponentValue(p: Player, B: seq<Quant>, F: Strategy, rho: Assignment, x: Var, d: nat)
    requires AllBlocks(B) && DistinctBlocks(B)
    requires d < |B| && x in B[d].vars && Owner(B[d].kind) != p
    ensures x in Outcome(p, Flatten(B), F, rho) <==> x in rho
  {
    var bs := Flatten(B);
    FlattenDistinct(B);
    FlattenHas(B, x, Owner(B[d].kind));
    var b := Bound(x, Owner(B[d].kind));
    assert b in bs;
    OnlyBound(bs, b);
  }

  lemma IndexedDistinct(B: seq<Quant>, qd: seq<int>)
    requires AllBlocks(B) && WellIndexed(B, qd)
    ensures DistinctBlocks(B)
  {
    forall d, e, v | 0 <= d < e < |B| && v in B[d].vars ensures v !in B[e].vars {
      assert Depth(qd, v) == d;
    }
  }

  // ----- soundness of refutations -----

  /** The premises under which a refutation is read. */
  ghost predicate Readable(P: Proof, B: seq<Quant>, qd: seq<int>, matrix: seq<QClause>) {
    && P.WellFormed() && (forall i :: 0 <= i < |P.clauses| ==> P.Copies(P.clauses[i]))
    && AllBlocks(B) && WellIndexed(B, qd)
    && (forall c :: c in matrix ==> GoodClause(B, qd, c))
  }

  /** An opponent's literal whose negation was chosen is false. */
  lemma OpponentLitFalse(p: Player, B: seq<Quant>, F: Strategy, L: set<Lit>, l: Lit, d: nat)
    requires AllBlocks(B) && DistinctBlocks(B)
    requires d < |B| && VarOf(l) in B[d].vars && Owner(B[d].kind) != p
    requires Consistent(L) && Negate(l) in L
    ensures !LitTrue(Outcome(p, Flatten(B), F, Positives(L)), l)
  {
    ChosenFalse(L, l);
    OpponentValue(p, B, F, Positives(L), VarOf(l), d);
  }

  lemma ChosenFalse(L: set<Lit>, l: Lit)
    requires Consistent(L) && Negate(l) in L
    ensures !LitTrue(Positives(L), l)
  {
    assert Negate(Negate(l)) == l;
  }

  /** A clause with a true literal whose universal literals are all false has a true existential one. */
  lemma ExistentialLit(Q: QClause, A: Assignment) returns (l: Lit)
    requires ClauseTrue(A, Q.Lits()) && forall u :: u in Q.al ==> !LitTrue(A, u)
    ensures l in Q.ex && LitTrue(A, l)
  {
    l :| l in Q.Lits() && LitTrue(A, l);
    assert l in Q.al || l in Q.ex;
  }

  /** Every existential literal of the matrix clause has a copy in a leaf that passes. */
  lemma CopyInLeaf(P: Proof, matrix: seq<QClause>, i: nat, l: Lit) returns (k: nat)
    requires i < |P.clauses| == |P.antecedents| && P.Copies(P.clauses[i]) && LeafCode(P, matrix, i) == 0
    requires l in matrix[P.antecedents[i].0 - 1].ex
    ensures k < |P.clauses[i]| && P.clauses[i][k] in P.clauses[i] && P.OriginalLit(P.clauses[i][k]) == l
  {
    var c, Q := P.clauses[i], matrix[P.antecedents[i].0 - 1];
    assert l in multiset(Q.ex) && l in multiset(P.OriginalLits(c));
    k :| 0 <= k < |c| && P.OriginalLits(c)[k] == l;
  }

  /** A leaf that passes is true under the valuation of any winning existential strategy. */
  lemma LeafTrue(P: Proof, B: seq<Quant>, qd: seq<int>, matrix: seq<QClause>, F: Strategy, i: nat)
    requires Readable(P, B, qd, matrix) && Covers(Existential, P, B)
    requires Winning(Existential, Flatten(B), F, MatrixLits(matrix))
    requires i < |P.clauses| && LeafCode(P, matrix, i) == 0
    ensures ClauseTrue(Valuation(Existential, P, Flatten(B), F), P.clauses[i])
  {
    var c, Q := P.clauses[i], matrix[P.antecedents[i].0 - 1];
    var L := P.Union(c);
    var out := Outcome(Existential, Flatten(B), F, Positives(L));
    IndexedDistinct(B, qd);
    assert MatrixLits(matrix)[P.antecedents[i].0 - 1] == Q.Lits();
    assert Q in matrix && GoodClause(B, qd, Q);
    forall u | u in Q.al ensures !LitTrue(out, u) {
      assert BoundAs(B, qd, u, FORALL);
      OpponentLitFalse(Existential, B, F, L, u, Depth(qd, VarOf(u)));
    }
    var l := ExistentialLit(Q, out);
    var k := CopyInLeaf(P, matrix, i, l);
    assert BoundAs(B, qd, l, EXISTS);
    assert Elements(P.annotation[VarOf(c[k])]) <= L;
    ValuationAgrees(Existential, P, B, F, L, VarOf(c[k]), Depth(qd, VarOf(l)));
    assert LitTrue(Valuation(Existential, P, Flatten(B), F), c[k]);
  }

  lemma {:induction false} ClausesTrue(P: Proof, B: seq<Quant>, qd: seq<int>, matrix: seq<QClause>, F: Strategy,
      rank: nat -> nat, i: nat)
    requires Readable(P, B, qd, matrix) && Covers(Existential, P, B) && Ranked(P, rank)
    requires Winning(Existential, Flatten(B), F, MatrixLits(matrix))
    requires forall j :: 1 <= j < |P.clauses| ==> Passes(P, matrix, j)
    requires 1 <= i < |P.clauses|
    ensures ClauseTrue(Valuation(Existential, P, Flatten(B), F), P.clauses[i])
    decreases rank(i)
  {
    assert Passes(P, matrix, i);
    if P.IsLeaf(i) {
      LeafTrue(P, B, qd, matrix, F, i);
    } else {
      var a, b := P.TraceIndex(P.antecedents[i].0), P.TraceIndex(P.antecedents[i].1);
      var pivot := MergePivot(Dedup(P.clauses[a]), Dedup(P.clauses[b]), P.clauses[i]);
      assert a != 0 && b != 0;
      ClausesTrue(P, B, qd, matrix, F, rank, a);
      ClausesTrue(P, B, qd, matrix, F, rank, b);
      ResolutionSound(P.clauses[a], P.clauses[b], P.clauses[i], Valuation(Existential, P, Flatten(B), F));
    }
  }

  /** Soundness of the refutation rules: if every clause passes and the empty clause is in the
      trace, the existential player has no Skolem functions, and the formula is false. */
  lemma RefutationSound(P: Proof, B: seq<Quant>, qd: seq<int>, matrix: seq<QClause>)
    requires Readable(P, B, qd, matrix)
    requires Acyclic(P) && Covers(Existential, P, B)
    requires forall i :: 1 <= i < |P.clauses| ==> Passes(P, matrix, i)
    requires P.root != 0
    ensures forall F: Strategy :: !Winning(Existential, Flatten(B), F, MatrixLits(matrix))
    ensures !Truth(Flatten(B), {}, MatrixLits(matrix))
  {
    var rank: nat -> nat :| Ranked(P, rank);
    forall F: Strategy
      ensures !Winning(Existential, Flatten(B), F, MatrixLits(matrix))
    {
      if Winning(Existential, Flatten(B), F, MatrixLits(matrix)) {
        ClausesTrue(P, B, qd, matrix, F, rank, P.root);
      }
    }
    IndexedDistinct(B, qd);
    FlattenDistinct(B);
    StrategyIffWins(Existential, Flatten(B), MatrixLits(matrix));
  }

  // ----- reachability -----

  lemma ReachableStep(P: Proof, i: nat, j: nat)
    requires Reachable(P, i) && Uses(P, i, j)
    ensures Reachable(P, j)
  {
    var path: seq<nat> :| path != [] && path[0] == P.root && path[|path| - 1] == i && Path(P, path);
    var longer := path + [j];
    forall k | 0 < k < |longer| ensures Uses(P, longer[k - 1], longer[k]) {
      if k < |path| {
        assert Uses(P, path[k - 1], path[k]);
      }
    }
    assert longer[0] == P.root && longer[|longer| - 1] == j && Path(P, longer);
  }

  lemma RootReachable(P: Proof)
    ensures Reachable(P, P.root)
  {
    var path := [P.root];
    assert path[0] == P.root && path[|path| - 1] == P.root && Path(P, path);
  }

  /** A set that holds the root and everything its members use holds all reachable clauses. */
  lemma ClosedHoldsReachable(P: Proof, S: set<nat>, i: nat)
    requires P.root in S && forall a, b :: a in S && Uses(P, a, b) ==> b in S
    requires Reachable(P, i)
    ensures i in S
  {
    var path: seq<nat> :| path != [] && path[0] == P.root && path[|path| - 1] == i && Path(P, path);
    var k := 0;
    while k < |path| - 1
      invariant 0 <= k < |path| && path[k] in S
    {
      assert Uses(P, path[k], path[k + 1]);
      k := k + 1;
    }
  }
}
