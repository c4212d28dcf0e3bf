/** Proofs of true formulas: nor-clauses, certified with the help of an untrusted SAT solver,
    and the dual of the refutation argument. */
module NorProofs {
  import opened Literals
  import opened Qbf
  import opened Formulas
  import opened Resolution
  import opened FerpProofs

  /** What a solver session returns: a status (10 is satisfiable) and a value per variable.
      Nothing is assumed about either. */
  datatype SatAnswer = SatAnswer(status: int, value: Var -> int)
  type Solver = Matrix -> SatAnswer

  function NegateAllOf(s: seq<Lit>): (t: seq<Lit>)
    ensures |t| == |s|
  {
    seq(|s|, i requires 0 <= i < |s| => Negate(s[i]))
  }

  /** The literals a nor-literal stands for. */
  function Group(P: Proof, l: Lit): seq<Lit>
  {
    if VarOf(l) in P.original then [l]
    else if VarOf(l) in P.helpers then P.helpers[VarOf(l)]
    else []
  }

  /** A nor-clause the checker can read: its helpers are negated and defined, and everything
      it stands for is a copy with an annotation. */
  ghost predicate NorReadable(P: Proof, nor: seq<Lit>) {
    forall l :: l in nor ==>
      P.Copies(Group(P, l)) && (VarOf(l) in P.original || (Sign(l) && VarOf(l) in P.helpers))
  }

  ghost predicate OriginsInRange(matrix: seq<QClause>, origins: seq<seq<nat>>) {
    forall os, o :: os in origins && o in os ==> 1 <= o <= |matrix|
  }

  // ----- the assignment the checker builds -----

  function AddNew(a: seq<int>, l: int): seq<int> {
    if l in a then a else a + [l]
  }

  function AddAll(a: seq<int>, ls: seq<int>): seq<int>
    decreases |ls|
  {
    if ls == [] then a else AddAll(AddNew(a, ls[0]), ls[1..])
  }

  lemma {:induction false} AddAllHas(a: seq<int>, ls: seq<int>)
    ensures forall l :: l in AddAll(a, ls) <==> l in a || l in ls
    decreases |ls|
  {
    if ls != [] {
      AddAllHas(AddNew(a, ls[0]), ls[1..]);
      assert forall l :: l in ls <==> l == ls[0] || l in ls[1..];
    }
  }

  function AddAnnotations(P: Proof, a: seq<int>, group: seq<Lit>): seq<int>
    requires P.Copies(group)
    decreases |group|
  {
    if group == [] then a else AddAnnotations(P, AddAll(a, P.annotation[VarOf(group[0])]), group[1..])
  }

  lemma {:induction false} AddAnnotationsGrows(P: Proof, a: seq<int>, group: seq<Lit>)
    requires P.Copies(group)
    ensures forall l :: l in a ==> l in AddAnnotations(P, a, group)
    ensures forall g, l :: g in group && l in P.annotation[VarOf(g)] ==> l in AddAnnotations(P, a, group)
    decreases |group|
  {
    if group != [] {
      assert forall g :: g in group <==> g == group[0] || g in group[1..];
      AddAllHas(a, P.annotation[VarOf(group[0])]);
      AddAnnotationsGrows(P, AddAll(a, P.annotation[VarOf(group[0])]), group[1..]);
    }
  }

  lemma {:induction false} AddAnnotationsOnly(P: Proof, a: seq<int>, group: seq<Lit>, alpha: set<int>)
    requires P.Copies(group) && forall l :: l in a ==> l in alpha
    requires forall g, l :: g in group && l in P.annotation[VarOf(g)] ==> l in alpha
    ensures forall l :: l in AddAnnotations(P, a, group) ==> l in alpha
    decreases |group|
  {
    if group != [] {
      assert forall g :: g in group <==> g == group[0] || g in group[1..];
      AddAllHas(a, P.annotation[VarOf(group[0])]);
      AddAnnotationsOnly(P, AddAll(a, P.annotation[VarOf(group[0])]), group[1..], alpha);
    }
  }

  lemma {:induction false} AddAnnotationsNonZero(P: Proof, a: seq<int>, group: seq<Lit>)
    requires P.Copies(group) && NonZero(a)
    ensures NonZero(AddAnnotations(P, a, group))
    decreases |group|
  {
    if group != [] {
      AddAllHas(a, P.annotation[VarOf(group[0])]);
      assert forall g :: g in group[1..] ==> g in group;
      AddAnnotationsNonZero(P, AddAll(a, P.annotation[VarOf(group[0])]), group[1..]);
    }
  }

  /** A clause matches a nor-literal when its universal part is exactly the negation of what
      the nor-literal stands for. */
  function MatchCode(P: Proof, group: seq<Lit>, c: QClause): int
    requires P.Copies(group)
  {
    if |c.al| != |group| then 2
    else if multiset(c.al) != multiset(NegateAllOf(P.OriginalLits(group))) then 3
    else 0
  }

  function WalkOrigins(P: Proof, matrix: seq<QClause>, group: seq<Lit>, os: seq<nat>, a: seq<int>): (int, seq<int>)
    requires P.Copies(group) && forall o :: o in os ==> 1 <= o <= |matrix|
    decreases |os|
  {
    if os == [] then (0, a)
    else
      assert os[0] in os && forall o :: o in os[1..] ==> o in os;
      var c := matrix[os[0] - 1];
      var m := MatchCode(P, group, c);
      if m != 0 then (m, a) else WalkOrigins(P, matrix, group, os[1..], AddAll(a, NegateAllOf(c.ex)))
  }

  function Walk(P: Proof, matrix: seq<QClause>, nor: seq<Lit>, origins: seq<seq<nat>>, a: seq<int>): (int, seq<int>)
    requires NorReadable(P, nor) && OriginsInRange(matrix, origins)
    decreases |nor|
  {
    if nor == [] || origins == [] then (0, a)
    else
      var group := Group(P, nor[0]);
      var w := WalkOrigins(P, matrix, group, origins[0], AddAnnotations(P, a, group));
      if w.0 != 0 then w else Walk(P, matrix, nor[1..], origins[1..], w.1)
  }

  // ----- the elimination of the clauses that are not referenced -----

  ghost predicate Referenced(origins: seq<seq<nat>>, i: nat) {
    exists os :: os in origins && i + 1 in os
  }

  /** The existential parts of the unreferenced clauses. */
  ghost function Remaining(matrix: seq<QClause>, origins: seq<seq<nat>>, n: nat): Matrix
    requires n <= |matrix|
  {
    if n == 0 then []
    else Remaining(matrix, origins, n - 1) + if Referenced(origins, n - 1) then [] else [matrix[n - 1].ex]
  }

  ghost predicate NonZero(a: seq<int>) {
    0 !in a
  }

  function Units(a: seq<int>): (M: seq<seq<Lit>>)
    requires 0 !in a
    ensures |M| == |a|
  {
    seq(|a|, i requires 0 <= i < |a| => assert a[i] in a; [a[i] as Lit])
  }

  ghost function SolverInput(matrix: seq<QClause>, origins: seq<seq<nat>>, a: seq<int>): Matrix
    requires NonZero(a)
  {
    Remaining(matrix, origins, |matrix|) + Units(a)
  }

  function ExistVars(B: seq<Quant>): seq<Var>
    decreases |B|
  {
    if B == [] then []
    else ExistVars(B[..|B| - 1]) +
         (var q := B[|B| - 1]; if q.Quant? && q.kind == EXISTS then q.vars else [])
  }

  lemma ExistVarsNext(B: seq<Quant>, n: nat)
    requires n < |B|
    ensures ExistVars(B[..n + 1]) ==
            ExistVars(B[..n]) + if B[n].Quant? && B[n].kind == EXISTS then B[n].vars else []
  {
    assert B[..n + 1][..n] == B[..n] && B[..n + 1][n] == B[n];
  }

  lemma ValuesConcat(ans: SatAnswer, vars: seq<Var>, more: seq<Var>)
    ensures Values(ans, vars + more) == Values(ans, vars) + Values(ans, more)
  {
  }

  function Values(ans: SatAnswer, vars: seq<Var>): (vs: seq<int>)
    ensures |vs| == |vars|
  {
    seq(|vars|, i requires 0 <= i < |vars| => ans.value(vars[i]))
  }

  ghost predicate Hits(c: QClause, a: seq<int>) {
    exists l :: l in c.ex && l in a
  }

  ghost function EliminationCode(matrix: seq<QClause>, B: seq<Quant>, origins: seq<seq<nat>>, a: seq<int>,
      solver: Solver): int
    requires NonZero(a)
  {
    var ans := solver(SolverInput(matrix, origins, a));
    var full := AddAll(a, Values(ans, ExistVars(B)));
    if ans.status != 10 then 102
    else if exists l :: l in full && -l in full then 101
    else if exists i :: 0 <= i < |matrix| && !Referenced(origins, i) && !Hits(matrix[i], full) then 103
    else 0
  }

  lemma {:induction false} WalkNonZero(P: Proof, matrix: seq<QClause>, nor: seq<Lit>, origins: seq<seq<nat>>,
      a: seq<int>)
    requires NorReadable(P, nor) && OriginsInRange(matrix, origins) && NonZero(a)
    ensures NonZero(Walk(P, matrix, nor, origins, a).1)
    decreases |nor|
  {
    if nor != [] && origins != [] {
      var group := Group(P, nor[0]);
      AddAnnotationsNonZero(P, a, group);
      WalkOriginsNonZero(P, matrix, group, origins[0], AddAnnotations(P, a, group));
      var w := WalkOrigins(P, matrix, group, origins[0], AddAnnotations(P, a, group));
      if w.0 == 0 {
        WalkNonZero(P, matrix, nor[1..], origins[1..], w.1);
      }
    }
  }

  /** The verdict on one nor-clause. */
  ghost function NorCode(P: Proof, matrix: seq<QClause>, B: seq<Quant>, nor: seq<Lit>, origins: seq<seq<nat>>,
      solver: Solver): int
    requires NorReadable(P, nor) && OriginsInRange(matrix, origins)
  {
    WalkNonZero(P, matrix, nor, origins, []);
    var w := Walk(P, matrix, nor, origins, []);
    if w.0 != 0 then w.0 else EliminationCode(matrix, B, origins, w.1, solver)
  }

  ghost predicate NorPasses(P: Proof, matrix: seq<QClause>, B: seq<Quant>, nor: seq<Lit>, origins: seq<seq<nat>>,
      solver: Solver)
  {
    && NorReadable(P, nor) && OriginsInRange(matrix, origins)
    && NorCode(P, matrix, B, nor, origins, solver) == 0
  }

  /** The first n nor-clauses pass. */
  ghost predicate NorsPass(P: Proof, matrix: seq<QClause>, B: seq<Quant>, nors: seq<seq<Lit>>,
      mapping: seq<seq<seq<nat>>>, solver: Solver, n: nat)
    requires n <= |nors| == |mapping|
  {
    n == 0 || (NorsPass(P, matrix, B, nors, mapping, solver, n - 1)
               && NorPasses(P, matrix, B, nors[n - 1], mapping[n - 1], solver))
  }

  /** The first nor-clause that is not accepted. */
  ghost predicate FirstBadNor(P: Proof, matrix: seq<QClause>, B: seq<Quant>, nors: seq<seq<Lit>>,
      mapping: seq<seq<seq<nat>>>, solver: Solver, k: nat)
    requires |nors| == |mapping|
  {
    && k < |nors| && NorsPass(P, matrix, B, nors, mapping, solver, k)
    && NorReadable(P, nors[k]) && OriginsInRange(matrix, mapping[k])
    && NorCode(P, matrix, B, nors[k], mapping[k], solver) != 0
  }

  /** The first listed resolution that does not check. */
  ghost predicate FirstBadStep(P: Proof, ids: seq<nat>, i: nat)
    requires P.WellFormed() && forall j :: j in ids ==> j < |P.clauses|
  {
    && i < |ids| && ids[i] < |P.clauses| && NodeCode(P, ids[i]) != 0
    && forall j :: 0 <= j < i ==> ids[j] < |P.clauses| && NodeCode(P, ids[j]) == 0
  }

  /** What the check of a proof of truth has to return: the code of the first nor-clause that is not
      accepted, else that of the first listed resolution that does not check, else 0. */
  ghost predicate SatVerdict(P: Proof, matrix: seq<QClause>, B: seq<Quant>, nors: seq<seq<Lit>>,
      mapping: seq<seq<seq<nat>>>, ids: seq<nat>, solver: Solver, r: int)
    requires |nors| == |mapping| && P.WellFormed() && forall j :: j in ids ==> j < |P.clauses|
  {
    if !NorsPass(P, matrix, B, nors, mapping, solver, |nors|) then
      exists k: nat :: FirstBadNor(P, matrix, B, nors, mapping, solver, k)
        && r == NorCode(P, matrix, B, nors[k], mapping[k], solver)
    else if exists i :: i in ids && NodeCode(P, i) != 0 then
      exists i: nat :: FirstBadStep(P, ids, i) && r == NodeCode(P, ids[i])
    else r == 0
  }

  lemma {:induction false} NorsPassEach(P: Proof, matrix: seq<QClause>, B: seq<Quant>, nors: seq<seq<Lit>>,
      mapping: seq<seq<seq<nat>>>, solver: Solver, n: nat, k: nat)
    requires k < n <= |nors| == |mapping| && NorsPass(P, matrix, B, nors, mapping, solver, n)
    ensures NorPasses(P, matrix, B, nors[k], mapping[k], solver)
    decreases n
  {
    if k < n - 1 {
      NorsPassEach(P, matrix, B, nors, mapping, solver, n - 1, k);
    }
  }

  lemma {:induction false} NorsPassOnlyIf(P: Proof, matrix: seq<QClause>, B: seq<Quant>, nors: seq<seq<Lit>>,
      mapping: seq<seq<seq<nat>>>, solver: Solver, n: nat, k: nat)
    requires k < n <= |nors| == |mapping| && !NorPasses(P, matrix, B, nors[k], mapping[k], solver)
    ensures !NorsPass(P, matrix, B, nors, mapping, solver, n)
    decreases n
  {
    if k < n - 1 {
      NorsPassOnlyIf(P, matrix, B, nors, mapping, solver, n - 1, k);
    }
  }

  // ----- what an accepted nor-clause certifies -----

  /** alpha is a consistent choice of the existential player that extends the annotations of the
      nor-clause, satisfies every clause that is not referenced, and leaves of each referenced
      clause only its universal part, the negation of what the nor-literal stands for. */
  ghost predicate Certificate(P: Proof, matrix: seq<QClause>, nor: seq<Lit>, origins: seq<seq<nat>>, alpha: set<int>)
    requires NorReadable(P, nor) && OriginsInRange(matrix, origins)
  {
    && (forall l :: l in alpha ==> -l !in alpha)
    && (forall i :: 0 <= i < |nor| && i < |origins| ==> Justified(P, matrix, Group(P, nor[i]), origins[i], alpha))
    && (forall j :: 0 <= j < |matrix| ==> Referenced(origins, j) || exists l :: l in matrix[j].ex && l in alpha)
  }

  ghost predicate Justified(P: Proof, matrix: seq<QClause>, group: seq<Lit>, os: seq<nat>, alpha: set<int>)
    requires P.Copies(group) && forall o :: o in os ==> 1 <= o <= |matrix|
  {
    && (forall g, l :: g in group && l in P.annotation[VarOf(g)] ==> l in alpha)
    && (forall o :: o in os ==> MatchCode(P, group, matrix[o - 1]) == 0)
    && (forall o, l :: o in os && l in matrix[o - 1].ex ==> Negate(l) in alpha)
  }

  lemma NegateAllOfHas(s: seq<Lit>, l: Lit)
    ensures l in NegateAllOf(s) <==> Negate(l) in s
  {
    if l in NegateAllOf(s) {
      var i :| 0 <= i < |s| && NegateAllOf(s)[i] == l;
      assert Negate(l) == s[i];
    }
    if Negate(l) in s {
      var i :| 0 <= i < |s| && s[i] == Negate(l);
      assert NegateAllOf(s)[i] == l;
    }
  }

  /** The walk accepts exactly when every referenced clause matches. */
  lemma {:induction false} WalkOriginsCode(P: Proof, matrix: seq<QClause>, group: seq<Lit>, os: seq<nat>, a: seq<int>)
    requires P.Copies(group) && forall o :: o in os ==> 1 <= o <= |matrix|
    ensures WalkOrigins(P, matrix, group, os, a).0 == 0 <==>
            forall o :: o in os ==> MatchCode(P, group, matrix[o - 1]) == 0
    decreases |os|
  {
    if os != [] {
      assert os[0] in os && forall o :: o in os <==> o == os[0] || o in os[1..];
      var c := matrix[os[0] - 1];
      if MatchCode(P, group, c) == 0 {
        WalkOriginsCode(P, matrix, group, os[1..], AddAll(a, NegateAllOf(c.ex)));
      }
    }
  }

  lemma NegatedAreAdded(a: seq<int>, c: seq<Lit>)
    ensures forall l :: l in c ==> Negate(l) in AddAll(a, NegateAllOf(c))
  {
    AddAllHas(a, NegateAllOf(c));
    forall l | l in c ensures Negate(l) in NegateAllOf(c) {
      NegateAllOfHas(c, Negate(l));
      assert Negate(Negate(l)) == l;
    }
  }

  /** An accepting walk has added the negated existential literals of every referenced clause. */
  lemma {:induction false} WalkOriginsGrows(P: Proof, matrix: seq<QClause>, group: seq<Lit>, os: seq<nat>, a: seq<int>)
    requires P.Copies(group) && forall o :: o in os ==> 1 <= o <= |matrix|
    ensures var w := WalkOrigins(P, matrix, group, os, a);
            && (forall l :: l in a ==> l in w.1)
            && (w.0 == 0 ==> forall o, l :: o in os && l in matrix[o - 1].ex ==> Negate(l) in w.1)
    decreases |os|
  {
    if os != [] {
      assert os[0] in os && forall o :: o in os <==> o == os[0] || o in os[1..];
      var c := matrix[os[0] - 1];
      if MatchCode(P, group, c) == 0 {
        NegatedAreAdded(a, c.ex);
        AddAllHas(a, NegateAllOf(c.ex));
        WalkOriginsGrows(P, matrix, group, os[1..], AddAll(a, NegateAllOf(c.ex)));
      }
    }
  }

  /** The walk adds nothing else. */
  lemma {:induction false} WalkOriginsOnly(P: Proof, matrix: seq<QClause>, group: seq<Lit>, os: seq<nat>, a: seq<int>,
      alpha: set<int>)
    requires P.Copies(group) && forall o :: o in os ==> 1 <= o <= |matrix|
    requires forall l :: l in a ==> l in alpha
    requires forall o, l :: o in os && l in matrix[o - 1].ex ==> Negate(l) in alpha
    ensures forall l :: l in WalkOrigins(P, matrix, group, os, a).1 ==> l in alpha
    decreases |os|
  {
    if os != [] {
      assert os[0] in os && forall o :: o in os <==> o == os[0] || o in os[1..];
      var c := matrix[os[0] - 1];
      if MatchCode(P, group, c) == 0 {
        var negs := NegateAllOf(c.ex);
        forall l: Lit | l in negs ensures l in alpha {
          NegateAllOfHas(c.ex, l);
          assert Negate(Negate(l)) == l;
        }
        AddAllHas(a, negs);
        WalkOriginsOnly(P, matrix, group, os[1..], AddAll(a, negs), alpha);
      }
    }
  }

  lemma {:induction false} WalkOriginsNonZero(P: Proof, matrix: seq<QClause>, group: seq<Lit>, os: seq<nat>,
      a: seq<int>)
    requires P.Copies(group) && forall o :: o in os ==> 1 <= o <= |matrix|
    requires NonZero(a)
    ensures NonZero(WalkOrigins(P, matrix, group, os, a).1)
    decreases |os|
  {
    if os != [] {
      assert os[0] in os && forall o :: o in os[1..] ==> o in os;
      var c := matrix[os[0] - 1];
      if MatchCode(P, group, c) == 0 {
        AddAllHas(a, NegateAllOf(c.ex));
        WalkOriginsNonZero(P, matrix, group, os[1..], AddAll(a, NegateAllOf(c.ex)));
      }
    }
  }

  lemma JustifiedMonotone(P: Proof, matrix: seq<QClause>, group: seq<Lit>, os: seq<nat>, a: set<int>, b: set<int>)
    requires P.Copies(group) && forall o :: o in os ==> 1 <= o <= |matrix|
    requires a <= b && Justified(P, matrix, group, os, a)
    ensures Justified(P, matrix, group, os, b)
  {
  }

  /** An accepted walk justifies every nor-literal; a justified walk is accepted and collects
      nothing but what is justified. */
  lemma {:induction false} WalkJustifies(P: Proof, matrix: seq<QClause>, nor: seq<Lit>, origins: seq<seq<nat>>,
      a: seq<int>)
    requires NorReadable(P, nor) && OriginsInRange(matrix, origins)
    ensures var w := Walk(P, matrix, nor, origins, a);
            && (forall l :: l in a ==> l in w.1)
            && (w.0 == 0 ==> forall i :: 0 <= i < |nor| && i < |origins| ==>
                  Justified(P, matrix, Group(P, nor[i]), origins[i], Elements(w.1)))
    decreases |nor|
  {
    if nor != [] && origins != [] {
      var group := Group(P, nor[0]);
      var b := AddAnnotations(P, a, group);
      var w := WalkOrigins(P, matrix, group, origins[0], b);
      WalkOriginsCode(P, matrix, group, origins[0], b);
      AddAnnotationsGrows(P, a, group);
      WalkOriginsGrows(P, matrix, group, origins[0], b);
      if w.0 == 0 {
        var end := Walk(P, matrix, nor, origins, a);
        WalkJustifies(P, matrix, nor[1..], origins[1..], w.1);
        if end.0 == 0 {
          forall g, l | g in group && l in P.annotation[VarOf(g)] ensures l in Elements(end.1) {
            assert l in b;
          }
          assert Justified(P, matrix, group, origins[0], Elements(end.1));
          forall i | 0 <= i < |nor| && i < |origins|
            ensures Justified(P, matrix, Group(P, nor[i]), origins[i], Elements(end.1))
          {
            if i > 0 {
              assert nor[1..][i - 1] == nor[i] && origins[1..][i - 1] == origins[i];
            }
          }
        }
      }
    }
  }

  lemma {:induction false} JustifiedWalks(P: Proof, matrix: seq<QClause>, nor: seq<Lit>, origins: seq<seq<nat>>,
      a: seq<int>, alpha: set<int>)
    requires NorReadable(P, nor) && OriginsInRange(matrix, origins)
    requires forall i :: 0 <= i < |nor| && i < |origins| ==> Justified(P, matrix, Group(P, nor[i]), origins[i], alpha)
    requires forall l :: l in a ==> l in alpha
    ensures var w := Walk(P, matrix, nor, origins, a);
            w.0 == 0 && forall l :: l in w.1 ==> l in alpha
    decreases |nor|
  {
    if nor != [] && origins != [] {
      var group := Group(P, nor[0]);
      var b := AddAnnotations(P, a, group);
      assert Justified(P, matrix, group, origins[0], alpha);
      AddAnnotationsOnly(P, a, group, alpha);
      WalkOriginsCode(P, matrix, group, origins[0], b);
      WalkOriginsOnly(P, matrix, group, origins[0], b, alpha);
      var w := WalkOrigins(P, matrix, group, origins[0], b);
      forall i | 0 <= i < |nor[1..]| && i < |origins[1..]|
        ensures Justified(P, matrix, Group(P, nor[1..][i]), origins[1..][i], alpha)
      {
        assert nor[1..][i] == nor[i + 1] && origins[1..][i] == origins[i + 1];
      }
      JustifiedWalks(P, matrix, nor[1..], origins[1..], w.1, alpha);
    }
  }

  /** Whatever the solver answers, an accepted nor-clause has a certificate. */
  lemma AcceptedNorCertified(P: Proof, matrix: seq<QClause>, B: seq<Quant>, nor: seq<Lit>, origins: seq<seq<nat>>,
      solver: Solver)
    returns (alpha: set<int>)
    requires NorReadable(P, nor) && OriginsInRange(matrix, origins)
    requires NorCode(P, matrix, B, nor, origins, solver) == 0
    ensures Certificate(P, matrix, nor, origins, alpha)
  {
    WalkNonZero(P, matrix, nor, origins, []);
    WalkJustifies(P, matrix, nor, origins, []);
    var a := Walk(P, matrix, nor, origins, []).1;
    var ans := solver(SolverInput(matrix, origins, a));
    var full := AddAll(a, Values(ans, ExistVars(B)));
    AddAllHas(a, Values(ans, ExistVars(B)));
    alpha := Elements(full);
    assert forall l :: l in a ==> l in full;
    assert Elements(a) <= alpha;
    forall i | 0 <= i < |nor| && i < |origins|
      ensures Justified(P, matrix, Group(P, nor[i]), origins[i], alpha)
    {
      JustifiedMonotone(P, matrix, Group(P, nor[i]), origins[i], Elements(a), alpha);
    }
    forall j | 0 <= j < |matrix| && !Referenced(origins, j)
      ensures exists l :: l in matrix[j].ex && l in alpha
    {
      assert Hits(matrix[j], full);
    }
  }

  // ----- completeness with a truthful solver -----

  ghost predicate Models(ans: SatAnswer, A: Assignment) {
    forall v: Var :: v > 0 ==> (v in A && ans.value(v) == v) || (v !in A && ans.value(v) + v == 0)
  }

  ghost predicate Truthful(solver: Solver) {
    forall M: Matrix ::
      && (solver(M).status == 10 <==> exists A: Assignment :: Sat(A, M))
      && (solver(M).status == 10 ==> exists A: Assignment :: Sat(A, M) && Models(solver(M), A))
  }

  lemma {:induction false} RemainingHas(matrix: seq<QClause>, origins: seq<seq<nat>>, n: nat, c: seq<Lit>)
    requires n <= |matrix|
    ensures c in Remaining(matrix, origins, n) <==>
            exists i :: 0 <= i < n && !Referenced(origins, i) && matrix[i].ex == c
    decreases n
  {
    if n > 0 {
      RemainingHas(matrix, origins, n - 1, c);
    }
  }

  lemma SatInput(A: Assignment, matrix: seq<QClause>, origins: seq<seq<nat>>, a: seq<int>)
    requires NonZero(a)
    ensures Sat(A, SolverInput(matrix, origins, a)) <==>
            && (forall i :: 0 <= i < |matrix| && !Referenced(origins, i) ==> ClauseTrue(A, matrix[i].ex))
            && (forall l :: l in a ==> LitTrue(A, l))
  {
    var R, U := Remaining(matrix, origins, |matrix|), Units(a);
    assert forall c :: c in R + U <==> c in R || c in U;
    forall c ensures c in R <==> exists i :: 0 <= i < |matrix| && !Referenced(origins, i) && matrix[i].ex == c {
      RemainingHas(matrix, origins, |matrix|, c);
    }
    forall i | 0 <= i < |matrix| && !Referenced(origins, i) ensures matrix[i].ex in R {
      RemainingHas(matrix, origins, |matrix|, matrix[i].ex);
    }
    forall i | 0 <= i < |a| ensures ClauseTrue(A, U[i]) <==> (assert a[i] in a; LitTrue(A, a[i])) {
      assert a[i] in a;
      assert a[i] as Lit in U[i];
    }
    if Sat(A, R + U) {
      forall l | l in a ensures LitTrue(A, l) {
        var i :| 0 <= i < |a| && a[i] == l;
        assert U[i] in R + U;
      }
    }
  }

  lemma {:induction false} ExistVarsHas(B: seq<Quant>, d: nat, v: Var)
    requires d < |B| && B[d].Quant? && B[d].kind == EXISTS && v in B[d].vars
    ensures v in ExistVars(B)
    decreases |B|
  {
    if d < |B| - 1 {
      assert B[..|B| - 1][d] == B[d];
      ExistVarsHas(B[..|B| - 1], d, v);
    }
  }

  lemma {:induction false} ExistVarsPositive(B: seq<Quant>)
    requires forall d :: 0 <= d < |B| && B[d].Quant? ==> 0 !in B[d].vars
    ensures 0 !in ExistVars(B)
    decreases |B|
  {
    if B != [] {
      ExistVarsPositive(B[..|B| - 1]);
    }
  }

  /** The model of a truthful solver, added to the assignment, stays consistent and satisfies
      every clause it was asked to satisfy. */
  lemma TruthfulElimination(matrix: seq<QClause>, B: seq<Quant>, qd: seq<int>, origins: seq<seq<nat>>, a: seq<int>,
      solver: Solver)
    requires AllBlocks(B) && WellIndexed(B, qd) && (forall c :: c in matrix ==> GoodClause(B, qd, c))
    requires NonZero(a) && Truthful(solver)
    requires solver(SolverInput(matrix, origins, a)).status == 10
    ensures EliminationCode(matrix, B, origins, a, solver) == 0
  {
    var M := SolverInput(matrix, origins, a);
    var ans := solver(M);
    var A: Assignment :| Sat(A, M) && Models(ans, A);
    SatInput(A, matrix, origins, a);
    var full := AddAll(a, Values(ans, ExistVars(B)));
    ModelTrue(A, B, a, ans);
    forall l: int | l in full ensures -l !in full {
      assert l != 0 && LitTrue(A, l) && !LitTrue(A, -l);
    }
    forall i | 0 <= i < |matrix| && !Referenced(origins, i) ensures Hits(matrix[i], full) {
      assert matrix[i] in matrix;
      ModelHits(A, B, qd, matrix[i], a, ans);
    }
  }

  lemma ModelTrue(A: Assignment, B: seq<Quant>, a: seq<int>, ans: SatAnswer)
    requires forall d :: 0 <= d < |B| && B[d].Quant? ==> 0 !in B[d].vars
    requires NonZero(a) && Models(ans, A) && forall l :: l in a ==> LitTrue(A, l)
    ensures forall l: int :: l in AddAll(a, Values(ans, ExistVars(B))) ==> l != 0 && LitTrue(A, l)
  {
    ExistVarsPositive(B);
    AddAllHas(a, Values(ans, ExistVars(B)));
    ValuesTrue(A, ExistVars(B), ans);
  }

  lemma ValuesTrue(A: Assignment, vars: seq<Var>, ans: SatAnswer)
    requires 0 !in vars && Models(ans, A)
    ensures forall l: int :: l in Values(ans, vars) ==> l != 0 && LitTrue(A, l)
  {
    var vals := Values(ans, vars);
    forall l: int | l in vals ensures l != 0 && LitTrue(A, l) {
      var i :| 0 <= i < |vars| && vals[i] == l;
      assert vars[i] in vars;
    }
  }

  lemma ModelHits(A: Assignment, B: seq<Quant>, qd: seq<int>, c: QClause, a: seq<int>, ans: SatAnswer)
    requires AllBlocks(B) && WellIndexed(B, qd) && GoodClause(B, qd, c)
    requires Models(ans, A) && ClauseTrue(A, c.ex)
    ensures Hits(c, AddAll(a, Values(ans, ExistVars(B))))
  {
    var vars := ExistVars(B);
    var vals := Values(ans, vars);
    var l :| l in c.ex && LitTrue(A, l);
    assert BoundAs(B, qd, l, EXISTS);
    ExistVarsHas(B, Depth(qd, VarOf(l)), VarOf(l));
    var k :| 0 <= k < |vars| && vars[k] == VarOf(l);
    assert vals[k] == l;
    AddAllHas(a, vals);
  }

  /** With a truthful solver the check is exact: it accepts a nor-clause if and only if a
      certificate for it exists. */
  lemma NorExact(P: Proof, matrix: seq<QClause>, B: seq<Quant>, qd: seq<int>, nor: seq<Lit>, origins: seq<seq<nat>>,
      solver: Solver)
    requires NorReadable(P, nor) && OriginsInRange(matrix, origins)
    requires AllBlocks(B) && WellIndexed(B, qd) && (forall c :: c in matrix ==> GoodClause(B, qd, c))
    requires Truthful(solver)
    ensures NorCode(P, matrix, B, nor, origins, solver) == 0 <==>
            exists alpha :: Certificate(P, matrix, nor, origins, alpha)
  {
    if NorCode(P, matrix, B, nor, origins, solver) == 0 {
      var alpha := AcceptedNorCertified(P, matrix, B, nor, origins, solver);
    }
    if alpha :| Certificate(P, matrix, nor, origins, alpha) {
      JustifiedWalks(P, matrix, nor, origins, [], alpha);
      WalkNonZero(P, matrix, nor, origins, []);
      var a := Walk(P, matrix, nor, origins, []).1;
      var A: Assignment := set l | l in alpha && l > 0 :: l as Var;
      forall l: int | l in alpha && l != 0 ensures LitTrue(A, l) {
      }
      forall l | l in a ensures LitTrue(A, l) {
      }
      forall i | 0 <= i < |matrix| && !Referenced(origins, i) ensures ClauseTrue(A, matrix[i].ex) {
        var l :| l in matrix[i].ex && l in alpha;
        assert LitTrue(A, l);
      }
      SatInput(A, matrix, origins, a);
      TruthfulElimination(matrix, B, qd, origins, a, solver);
    }
  }

  // ----- soundness of proofs of true formulas -----

  ghost function Lits(alpha: set<int>): (L: set<Lit>)
    ensures forall l: Lit :: l in L <==> l in alpha
  {
    set l | l in alpha && l != 0 :: l as Lit
  }

  /** The valuation of copies, extended to helpers: a helper is true when what it stands for
      is not all true. */
  ghost function HelperValuation(P: Proof, bs: seq<Bound>, F: Strategy): Assignment
    requires P.WellFormed()
  {
    var V := Valuation(Universal, P, bs, F);
    V + set h | h in P.helpers && h !in P.original && exists l :: l in P.helpers[h] && !LitTrue(V, l)
  }

  /** Helpers stand for copies only. */
  ghost predicate HelpersOverCopies(P: Proof) {
    forall h :: h in P.helpers ==> h > 0 && h !in P.original && P.Copies(P.helpers[h])
  }

  lemma HelperMeans(P: Proof, bs: seq<Bound>, F: Strategy, l: Lit)
    requires P.WellFormed() && HelpersOverCopies(P)
    requires VarOf(l) in P.original || (Sign(l) && VarOf(l) in P.helpers)
    ensures LitTrue(HelperValuation(P, bs, F), l) <==>
            forall g :: g in Group(P, l) ==> LitTrue(Valuation(Universal, P, bs, F), g)
  {
    var V, W := Valuation(Universal, P, bs, F), HelperValuation(P, bs, F);
    if VarOf(l) in P.original {
      assert VarOf(l) in W <==> VarOf(l) in V;
      assert Group(P, l) == [l] && l in [l];
      assert LitTrue(W, l) <==> LitTrue(V, l);
    } else {
      assert VarOf(l) !in V;
    }
  }

  /** A certified nor-clause is true whenever the universal player has a winning strategy. */
  lemma NorTrue(P: Proof, B: seq<Quant>, qd: seq<int>, matrix: seq<QClause>, F: Strategy, nor: seq<Lit>,
      origins: seq<seq<nat>>, alpha: set<int>)
    requires ReadableInput(P, B, qd, matrix) && HelpersOverCopies(P) && Covers(Universal, P, B)
    requires NorReadable(P, nor) && OriginsInRange(matrix, origins) && |nor| == |origins|
    requires Certificate(P, matrix, nor, origins, alpha)
    requires Winning(Universal, Flatten(B), F, MatrixLits(matrix))
    ensures ClauseTrue(HelperValuation(P, Flatten(B), F), nor)
  {
    var bs, M := Flatten(B), MatrixLits(matrix);
    var L: set<Lit> := Lits(alpha);
    IndexedDistinct(B, qd);
    var j := FalseReferenced(B, qd, matrix, F, origins, alpha, L);
    var os :| os in origins && j + 1 in os;
    var i :| 0 <= i < |origins| && origins[i] == os;
    assert nor[i] in nor;
    assert Justified(P, matrix, Group(P, nor[i]), os, alpha);
    assert matrix[j] in matrix;
    NorLitTrue(P, B, qd, matrix, F, nor[i], os, j, alpha, L);
  }

  lemma NorLitTrue(P: Proof, B: seq<Quant>, qd: seq<int>, matrix: seq<QClause>, F: Strategy, n: Lit, os: seq<nat>,
      j: nat, alpha: set<int>, L: set<Lit>)
    requires P.WellFormed() && AllBlocks(B) && WellIndexed(B, qd) && HelpersOverCopies(P) && Covers(Universal, P, B)
    requires VarOf(n) in P.original || (Sign(n) && VarOf(n) in P.helpers)
    requires P.Copies(Group(P, n)) && forall o :: o in os ==> 1 <= o <= |matrix|
    requires Justified(P, matrix, Group(P, n), os, alpha)
    requires j < |matrix| && j + 1 in os && GoodClause(B, qd, matrix[j])
    requires Consistent(L) && L == Lits(alpha)
    requires !ClauseTrue(Outcome(Universal, Flatten(B), F, Positives(L)), matrix[j].Lits())
    ensures LitTrue(HelperValuation(P, Flatten(B), F), n)
  {
    GroupTrue(P, B, qd, matrix[j], F, Group(P, n), L);
    HelperMeans(P, Flatten(B), F, n);
  }

  /** When the existential player follows alpha and the universal one its winning strategy, the
      clause that is false is a referenced one. */
  lemma FalseReferenced(B: seq<Quant>, qd: seq<int>, matrix: seq<QClause>, F: Strategy, origins: seq<seq<nat>>,
      alpha: set<int>, L: set<Lit>)
    returns (j: nat)
    requires AllBlocks(B) && WellIndexed(B, qd) && forall c :: c in matrix ==> GoodClause(B, qd, c)
    requires forall l :: l in alpha ==> -l !in alpha
    requires L == Lits(alpha)
    requires forall j :: 0 <= j < |matrix| ==> Referenced(origins, j) || exists l :: l in matrix[j].ex && l in alpha
    requires Winning(Universal, Flatten(B), F, MatrixLits(matrix))
    ensures j < |matrix| && Referenced(origins, j) && Consistent(L)
    ensures !ClauseTrue(Outcome(Universal, Flatten(B), F, Positives(L)), matrix[j].Lits())
  {
    var bs, M := Flatten(B), MatrixLits(matrix);
    var out := Outcome(Universal, bs, F, Positives(L));
    IndexedDistinct(B, qd);
    assert !Sat(out, M);
    var lits :| lits in M && !ClauseTrue(out, lits);
    j :| 0 <= j < |matrix| && M[j] == lits;
    var Q := matrix[j];
    assert lits == Q.Lits() && Q in matrix;
    forall l | l in Q.ex ensures l !in alpha {
      assert l in Q.Lits();
      assert BoundAs(B, qd, l, EXISTS);
      OpponentValue(Universal, B, F, Positives(L), VarOf(l), Depth(qd, VarOf(l)));
      assert l in alpha ==> l in L && Negate(l) !in L;
    }
  }

  /** If every universal literal of a matching clause is false, everything the nor-literal
      stands for is true. */
  lemma GroupTrue(P: Proof, B: seq<Quant>, qd: seq<int>, Q: QClause, F: Strategy, group: seq<Lit>, L: set<Lit>)
    requires P.WellFormed() && AllBlocks(B) && WellIndexed(B, qd) && GoodClause(B, qd, Q) && Covers(Universal, P, B)
    requires P.Copies(group) && MatchCode(P, group, Q) == 0
    requires Consistent(L) && forall g, l :: g in group && l in P.annotation[VarOf(g)] ==> l in L
    requires !ClauseTrue(Outcome(Universal, Flatten(B), F, Positives(L)), Q.Lits())
    ensures forall g :: g in group ==> LitTrue(Valuation(Universal, P, Flatten(B), F), g)
  {
    var out := Outcome(Universal, Flatten(B), F, Positives(L));
    IndexedDistinct(B, qd);
    forall g | g in group ensures LitTrue(Valuation(Universal, P, Flatten(B), F), g) {
      var k :| 0 <= k < |group| && group[k] == g;
      var o := P.OriginalLits(group);
      var u := Negate(o[k]);
      assert NegateAllOf(o)[k] == u;
      assert u in multiset(NegateAllOf(o)) && u in multiset(Q.al);
      assert u in Q.al && u in Q.Lits();
      assert BoundAs(B, qd, u, FORALL);
      assert Elements(P.annotation[VarOf(g)]) <= L;
      ValuationAgrees(Universal, P, B, F, L, VarOf(g), Depth(qd, VarOf(u)));
    }
  }

  /** What is assumed of prefix, matrix and mappings; nothing of the clauses of the trace. */
  ghost predicate ReadableInput(P: Proof, B: seq<Quant>, qd: seq<int>, matrix: seq<QClause>) {
    && P.WellFormed() && AllBlocks(B) && WellIndexed(B, qd)
    && (forall c :: c in matrix ==> GoodClause(B, qd, c))
  }

  /** A clause that introduces a helper: the helper itself and at least one literal it stands for. */
  ghost predicate HelperClause(P: Proof, c: seq<Lit>) {
    exists h, l :: h in P.helpers && h > 0 && h in c && l in c && l in P.helpers[h]
  }

  /** Where the reader says a clause of the trace comes from. */
  ghost predicate FromRule(P: Proof, nors: seq<seq<Lit>>, resolved: seq<nat>, i: nat)
    requires i < |P.clauses|
  {
    || i in resolved
    || (exists nor :: nor in nors && Elements(nor) == Elements(P.clauses[i]))
    || HelperClause(P, P.clauses[i])
  }

  ghost predicate RankedResolutions(P: Proof, resolved: seq<nat>, rank: nat -> nat) {
    forall i :: i in resolved ==>
      && i < |P.antecedents|
      && rank(P.TraceIndex(P.antecedents[i].0)) < rank(i) && rank(P.TraceIndex(P.antecedents[i].1)) < rank(i)
  }

  ghost predicate AcyclicResolutions(P: Proof, resolved: seq<nat>) {
    exists rank: nat -> nat :: RankedResolutions(P, resolved, rank)
  }

  /** Everything checkSAT establishes, and where the clauses come from. */
  ghost predicate NorAccepted(P: Proof, matrix: seq<QClause>, nors: seq<seq<Lit>>, mapping: seq<seq<seq<nat>>>,
      resolved: seq<nat>)
  {
    && P.WellFormed() && |nors| == |mapping|
    && (forall k :: 0 <= k < |nors| ==>
          && NorReadable(P, nors[k]) && OriginsInRange(matrix, mapping[k]) && |nors[k]| == |mapping[k]|
          && exists alpha :: Certificate(P, matrix, nors[k], mapping[k], alpha))
    && (forall i :: i in resolved ==> i < |P.clauses| && NodeCode(P, i) == 0)
  }

  lemma {:induction false} NorClausesTrue(P: Proof, B: seq<Quant>, qd: seq<int>, matrix: seq<QClause>,
      nors: seq<seq<Lit>>, mapping: seq<seq<seq<nat>>>, resolved: seq<nat>, F: Strategy, rank: nat -> nat, i: nat)
    requires ReadableInput(P, B, qd, matrix) && HelpersOverCopies(P) && Covers(Universal, P, B)
    requires NorAccepted(P, matrix, nors, mapping, resolved) && RankedResolutions(P, resolved, rank)
    requires forall j :: 1 <= j < |P.clauses| ==> FromRule(P, nors, resolved, j)
    requires Winning(Universal, Flatten(B), F, MatrixLits(matrix))
    requires 1 <= i < |P.clauses|
    ensures ClauseTrue(HelperValuation(P, Flatten(B), F), P.clauses[i])
    decreases rank(i)
  {
    var V, c := HelperValuation(P, Flatten(B), F), P.clauses[i];
    assert FromRule(P, nors, resolved, i);
    if i in resolved {
      assert NodeCode(P, i) == 0;
      var a, b := P.TraceIndex(P.antecedents[i].0), P.TraceIndex(P.antecedents[i].1);
      var pivot := MergePivot(Dedup(P.clauses[a]), Dedup(P.clauses[b]), c);
      assert a != 0 && b != 0;
      NorClausesTrue(P, B, qd, matrix, nors, mapping, resolved, F, rank, a);
      NorClausesTrue(P, B, qd, matrix, nors, mapping, resolved, F, rank, b);
      ResolutionSound(P.clauses[a], P.clauses[b], c, V);
    } else if nor :| nor in nors && Elements(nor) == Elements(c) {
      var k :| 0 <= k < |nors| && nors[k] == nor;
      var alpha :| Certificate(P, matrix, nors[k], mapping[k], alpha);
      NorTrue(P, B, qd, matrix, F, nor, mapping[k], alpha);
      var l :| l in nor && LitTrue(V, l);
      assert l in Elements(nor);
    } else {
      var h, l :| h in P.helpers && h > 0 && h in c && l in c && l in P.helpers[h];
      HelperMeans(P, Flatten(B), F, Negate(h));
      HelperMeans(P, Flatten(B), F, l);
      assert LitTrue(V, h) || LitTrue(V, l);
    }
  }

  /** Soundness of the dual rules: if the nor-clauses are certified, the resolutions check, every
      helper clause names something its helper stands for, and the empty clause is in the trace,
      then the universal player has no Herbrand functions, and the formula is true. */
  lemma NorSound(P: Proof, B: seq<Quant>, qd: seq<int>, matrix: seq<QClause>, nors: seq<seq<Lit>>,
                 mapping: seq<seq<seq<nat>>>, resolved: seq<nat>)
    requires ReadableInput(P, B, qd, matrix) && HelpersOverCopies(P) && Covers(Universal, P, B)
    requires NorAccepted(P, matrix, nors, mapping, resolved) && AcyclicResolutions(P, resolved)
    requires forall j :: 1 <= j < |P.clauses| ==> FromRule(P, nors, resolved, j)
    requires P.root != 0
    ensures forall F: Strategy :: !Winning(Universal, Flatten(B), F, MatrixLits(matrix))
    ensures Truth(Flatten(B), {}, MatrixLits(matrix))
  {
    var rank: nat -> nat :| RankedResolutions(P, resolved, rank);
    forall F: Strategy
      ensures !Winning(Universal, Flatten(B), F, MatrixLits(matrix))
    {
      if Winning(Universal, Flatten(B), F, MatrixLits(matrix)) {
        NorClausesTrue(P, B, qd, matrix, nors, mapping, resolved, F, rank, P.root);
      }
    }
    IndexedDistinct(B, qd);
    FlattenDistinct(B);
    StrategyIffWins(Universal, Flatten(B), MatrixLits(matrix));
  }
}
