/** The tables of the certificate extraction, read at one assignment of the existential inputs:
    what a universal block does to them, and what follows for the extracted moves. */
module ExtractTheory {
  import opened Literals
  import opened Qbf
  import opened Formulas
  import opened Resolution
  import opened FerpProofs

  /** One entry per clause of the trace and per copy; top has one entry per clause. */
  datatype Tables<T> = Tables(active: seq<seq<T>>, cumulative: seq<seq<T>>, top: seq<T>)

  ghost predicate Shaped<T>(S: Tables<T>, n: nat, num: nat) {
    && |S.active| == |S.cumulative| == |S.top| == n
    && (forall i :: 0 <= i < n ==> |S.active[i]| == |S.cumulative[i]| == num)
  }

  /** A refutation together with the pivot of every resolvent (0 for a leaf). Parents are named
      by the raw antecedent ids, which the extraction uses as positions. */
  datatype Derivation = Derivation(P: Proof, pivots: seq<Var>) {
    function Clause(i: nat): seq<Lit>
      requires i < |P.clauses|
    {
      P.clauses[i]
    }

    function Parent1(i: nat): nat
      requires i < |P.antecedents|
    {
      P.antecedents[i].0
    }

    function Parent2(i: nat): nat
      requires i < |P.antecedents|
    {
      P.antecedents[i].1
    }
  }

  ghost predicate HasVar(c: seq<Lit>, v: Var) {
    v > 0 && (MakeLit(v, false) in c || MakeLit(v, true) in c)
  }

  /** The clause is the resolvent of two earlier clauses on the pivot, and neither parent holds
      the pivot with both signs. */
  ghost predicate GoodNode(D: Derivation, i: nat)
    requires i < |D.P.clauses| == |D.P.antecedents| == |D.pivots|
  {
    var p, q, v := D.Parent1(i), D.Parent2(i), D.pivots[i];
    && 1 <= p < i && 1 <= q < i && v > 0
    && (exists l :: VarOf(l) == v && IsPivot(D.Clause(p), D.Clause(q), D.Clause(i), l))
  }

  ghost predicate IsPivot(p: seq<Lit>, q: seq<Lit>, c: seq<Lit>, l: Lit) {
    && l in p && Negate(l) !in p && Negate(l) in q && l !in q
    && l !in c && Negate(l) !in c
    && (forall x :: x in p && x != l ==> x in c)
    && (forall x :: x in q && x != Negate(l) ==> x in c)
    && (forall x :: x in c ==> x in p || x in q)
  }

  ghost predicate Good(D: Derivation, num: nat) {
    && D.P.WellFormed() && |D.pivots| == |D.P.clauses|
    && (forall i :: 0 <= i < |D.P.clauses| ==> D.P.Copies(D.Clause(i)))
    && (forall i, l :: 0 <= i < |D.P.clauses| && l in D.Clause(i) ==> VarOf(l) < num)
    && (forall i :: 1 <= i < |D.P.clauses| ==> D.pivots[i] == 0 || GoodNode(D, i))
  }

  function CopyDepth(P: Proof, qd: seq<int>, v: Var): int
    requires v in P.original
  {
    Depth(qd, P.original[v])
  }

  /** The original of a copy's literal is true in the existential assignment. */
  predicate Holds(P: Proof, E: set<Var>, l: Lit)
    requires VarOf(l) in P.original
  {
    (P.original[VarOf(l)] in E) != Sign(l)
  }

  /** Some literal of the clause whose original is at depth d is true. */
  ghost predicate HoldsAt(P: Proof, qd: seq<int>, E: set<Var>, d: int, c: seq<Lit>)
    requires P.Copies(c)
  {
    exists l :: l in c && CopyDepth(P, qd, VarOf(l)) == d && Holds(P, E, l)
  }

  ghost predicate HoldsBefore(P: Proof, qd: seq<int>, E: set<Var>, q: int, c: seq<Lit>)
    requires P.Copies(c)
  {
    exists l :: l in c && CopyDepth(P, qd, VarOf(l)) < q && Holds(P, E, l)
  }

  // ----- the table updates -----

  function NewTop(t: bool, a1: bool, t1: bool, a2: bool, t2: bool): bool {
    t || !((a1 && a2) || (!a1 && !t1) || (!a2 && !t2))
  }

  /** Where activity comes from: both parents when the pivot is active in both, else the parent
      that is not satisfied and does not need the pivot. */
  function Choose(a1: bool, t1: bool, a2: bool, t2: bool, x1: bool, x2: bool): bool {
    if a1 && a2 then x1 || x2
    else if !a1 && !t1 then x1
    else !a2 && !t2 && x2
  }

  /** A clause's entries before the first block: its own variables are active, everything that
      occurs in a leaf below it is cumulatively active. */
  ghost predicate InitialRow(D: Derivation, num: nat, T: Tables<bool>, i: nat)
    requires Good(D, num) && Shaped(T, |D.P.clauses|, num) && 1 <= i < |D.P.clauses|
  {
    && !T.top[i]
    && (forall v :: 0 <= v < num ==> T.active[i][v] == HasVar(D.Clause(i), v))
    && (forall v :: 0 <= v < num ==>
          T.cumulative[i][v]
          == if D.pivots[i] == 0 then HasVar(D.Clause(i), v)
             else GoodNode(D, i) && v > 0 && (T.cumulative[D.Parent1(i)][v] || T.cumulative[D.Parent2(i)][v]))
  }

  ghost predicate Initial(D: Derivation, num: nat, T: Tables<bool>)
    requires Good(D, num) && Shaped(T, |D.P.clauses|, num)
  {
    forall i :: 1 <= i < |D.P.clauses| ==> InitialRow(D, num, T, i)
  }

  ghost predicate LeafStep(D: Derivation, qd: seq<int>, E: set<Var>, q: int, num: nat, S: Tables<bool>, T: Tables<bool>,
      i: nat)
    requires Good(D, num) && 1 <= i < |D.P.clauses|
    requires Shaped(S, |D.P.clauses|, num) && Shaped(T, |D.P.clauses|, num)
  {
    && T.top[i] == (S.top[i] || HoldsAt(D.P, qd, E, q - 1, D.Clause(i)))
    && (forall v :: 0 <= v < num ==>
          && T.active[i][v] == LeafEntry(D, qd, q, i, v, S.active[i][v], T.top[i])
          && T.cumulative[i][v] == LeafEntry(D, qd, q, i, v, S.cumulative[i][v], T.top[i]))
  }

  ghost predicate LeafEntry(D: Derivation, qd: seq<int>, q: int, i: nat, v: Var, was: bool, top: bool)
    requires i < |D.P.clauses| && D.P.Copies(D.Clause(i))
  {
    if HasVar(D.Clause(i), v) then CopyDepthOf(D, qd, i, v) >= q && !top else was
  }

  ghost function CopyDepthOf(D: Derivation, qd: seq<int>, i: nat, v: Var): int
    requires i < |D.P.clauses| && D.P.Copies(D.Clause(i)) && HasVar(D.Clause(i), v)
  {
    var l := MakeLit(v, MakeLit(v, false) !in D.Clause(i));
    assert l in D.Clause(i) && VarOf(l) == v;
    CopyDepth(D.P, qd, v)
  }

  ghost predicate NodeStep(D: Derivation, num: nat, S: Tables<bool>, T: Tables<bool>, i: nat)
    requires Good(D, num) && 1 <= i < |D.P.clauses| && D.pivots[i] != 0 && D.pivots[i] < num
    requires Shaped(S, |D.P.clauses|, num) && Shaped(T, |D.P.clauses|, num)
  {
    var p, q, x := D.Parent1(i), D.Parent2(i), D.pivots[i];
    var a1, t1, a2, t2 := T.active[p][x], T.top[p], T.active[q][x], T.top[q];
    && T.top[i] == NewTop(S.top[i], a1, t1, a2, t2)
    && (forall v :: 0 < v < num ==>
          && T.active[i][v] == (v != x && S.active[i][v] && Choose(a1, t1, a2, t2, T.active[p][v], T.active[q][v]))
          && T.cumulative[i][v] == (S.cumulative[i][v]
             && Choose(a1, t1, a2, t2, T.cumulative[p][v], T.cumulative[q][v])))
    && T.active[i][0] == S.active[i][0] && T.cumulative[i][0] == S.cumulative[i][0]
  }

  ghost predicate PivotsBelow(D: Derivation, num: nat) {
    forall i :: 0 <= i < |D.pivots| ==> D.pivots[i] < num
  }

  /** What processing universal block q does to all tables. */
  ghost predicate Block(D: Derivation, qd: seq<int>, E: set<Var>, q: int, num: nat, S: Tables<bool>, T: Tables<bool>)
    requires Good(D, num) && PivotsBelow(D, num) && num > 0
    requires Shaped(S, |D.P.clauses|, num) && Shaped(T, |D.P.clauses|, num)
  {
    forall i :: 1 <= i < |D.P.clauses| ==>
      if D.pivots[i] == 0 then LeafStep(D, qd, E, q, num, S, T, i) else NodeStep(D, num, S, T, i)
  }

  // ----- the invariant over all blocks -----

  ghost predicate EntryOk(D: Derivation, qd: seq<int>, E: set<Var>, q: int, num: nat, T: Tables<bool>, i: nat)
    requires Good(D, num) && Shaped(T, |D.P.clauses|, num) && 1 <= i < |D.P.clauses|
  {
    && (forall v :: 0 <= v < num && T.active[i][v] ==>
          HasVar(D.Clause(i), v) && CopyDepthOf(D, qd, i, v) >= q && T.cumulative[i][v])
    && (T.top[i] ==> forall v :: 0 <= v < num ==> !T.active[i][v])
    && (T.top[i] ==> HoldsBefore(D.P, qd, E, q, D.Clause(i)))
  }

  /** Active copies are unassigned variables of their clause and cumulatively active; a satisfied
      node has nothing active, and it really has a true literal among the assigned ones. */
  ghost predicate Invariant(D: Derivation, qd: seq<int>, E: set<Var>, q: int, num: nat, T: Tables<bool>)
    requires Good(D, num) && Shaped(T, |D.P.clauses|, num)
  {
    forall i :: 1 <= i < |D.P.clauses| ==> EntryOk(D, qd, E, q, num, T, i)
  }

  lemma HoldsLater(P: Proof, qd: seq<int>, E: set<Var>, q: int, r: int, c: seq<Lit>)
    requires P.Copies(c) && q <= r && HoldsBefore(P, qd, E, q, c)
    ensures HoldsBefore(P, qd, E, r, c)
  {
  }

  lemma LeafKeeps(D: Derivation, qd: seq<int>, E: set<Var>, q0: int, q: int, num: nat, S: Tables<bool>, T: Tables<bool>,
      i: nat)
    requires Good(D, num) && Shaped(S, |D.P.clauses|, num) && Shaped(T, |D.P.clauses|, num)
    requires 1 <= i < |D.P.clauses| && q0 <= q
    requires EntryOk(D, qd, E, q0, num, S, i) && LeafStep(D, qd, E, q, num, S, T, i)
    ensures EntryOk(D, qd, E, q, num, T, i)
  {
    if S.top[i] {
      HoldsLater(D.P, qd, E, q0, q, D.Clause(i));
    }
  }

  /** A node becomes satisfied only when its parents are satisfied by literals other than an
      active pivot, so it inherits a true assigned literal. */
  lemma NodeSatisfied(D: Derivation, qd: seq<int>, E: set<Var>, q: int, num: nat, T: Tables<bool>, i: nat)
    requires Good(D, num) && PivotsBelow(D, num) && Shaped(T, |D.P.clauses|, num)
    requires 1 <= i < |D.P.clauses| && D.pivots[i] != 0
    requires EntryOk(D, qd, E, q, num, T, D.Parent1(i)) && EntryOk(D, qd, E, q, num, T, D.Parent2(i))
    requires var p, r, x := D.Parent1(i), D.Parent2(i), D.pivots[i];
             NewTop(false, T.active[p][x], T.top[p], T.active[r][x], T.top[r])
    ensures HoldsBefore(D.P, qd, E, q, D.Clause(i))
  {
    var p, r, x := D.Parent1(i), D.Parent2(i), D.pivots[i];
    assert GoodNode(D, i);
    var l :| VarOf(l) == x && IsPivot(D.Clause(p), D.Clause(r), D.Clause(i), l);
    if T.top[p] {
      var k :| k in D.Clause(p) && CopyDepth(D.P, qd, VarOf(k)) < q && Holds(D.P, E, k);
      if k == l {
        if T.top[r] {
          var m :| m in D.Clause(r) && CopyDepth(D.P, qd, VarOf(m)) < q && Holds(D.P, E, m);
          assert m != Negate(l);
        }
      }
    } else {
      var m :| m in D.Clause(r) && CopyDepth(D.P, qd, VarOf(m)) < q && Holds(D.P, E, m);
      assert m != Negate(l);
    }
  }

  lemma NodeKeeps(D: Derivation, qd: seq<int>, E: set<Var>, q0: int, q: int, num: nat, S: Tables<bool>, T: Tables<bool>,
      i: nat)
    requires Good(D, num) && PivotsBelow(D, num) && Shaped(S, |D.P.clauses|, num) && Shaped(T, |D.P.clauses|, num)
    requires 1 <= i < |D.P.clauses| && q0 <= q && D.pivots[i] != 0
    requires EntryOk(D, qd, E, q0, num, S, i) && NodeStep(D, num, S, T, i)
    requires EntryOk(D, qd, E, q, num, T, D.Parent1(i)) && EntryOk(D, qd, E, q, num, T, D.Parent2(i))
    ensures EntryOk(D, qd, E, q, num, T, i)
  {
    assert GoodNode(D, i);
    if S.top[i] {
      HoldsLater(D.P, qd, E, q0, q, D.Clause(i));
    } else if T.top[i] {
      NodeSatisfied(D, qd, E, q, num, T, i);
    }
  }

  lemma {:induction false} BlockKeepsEntry(D: Derivation, qd: seq<int>, E: set<Var>, q0: int, q: int, num: nat,
      S: Tables<bool>, T: Tables<bool>, i: nat)
    requires Good(D, num) && PivotsBelow(D, num) && num > 0
    requires Shaped(S, |D.P.clauses|, num) && Shaped(T, |D.P.clauses|, num)
    requires q0 <= q && Invariant(D, qd, E, q0, num, S) && Block(D, qd, E, q, num, S, T)
    requires 1 <= i < |D.P.clauses|
    ensures EntryOk(D, qd, E, q, num, T, i)
    decreases i
  {
    assert EntryOk(D, qd, E, q0, num, S, i);
    if D.pivots[i] == 0 {
      LeafKeeps(D, qd, E, q0, q, num, S, T, i);
    } else {
      assert GoodNode(D, i);
      BlockKeepsEntry(D, qd, E, q0, q, num, S, T, D.Parent1(i));
      BlockKeepsEntry(D, qd, E, q0, q, num, S, T, D.Parent2(i));
      NodeKeeps(D, qd, E, q0, q, num, S, T, i);
    }
  }

  /** Every universal block keeps the invariant, for every existential assignment. */
  lemma BlockKeeps(D: Derivation, qd: seq<int>, E: set<Var>, q0: int, q: int, num: nat, S: Tables<bool>,
      T: Tables<bool>)
    requires Good(D, num) && PivotsBelow(D, num) && num > 0
    requires Shaped(S, |D.P.clauses|, num) && Shaped(T, |D.P.clauses|, num)
    requires q0 <= q && Invariant(D, qd, E, q0, num, S) && Block(D, qd, E, q, num, S, T)
    ensures Invariant(D, qd, E, q, num, T)
  {
    forall i | 1 <= i < |D.P.clauses| ensures EntryOk(D, qd, E, q, num, T, i) {
      BlockKeepsEntry(D, qd, E, q0, q, num, S, T, i);
    }
  }

  /** The originals of the literals of the trace are bound by the prefix. */
  ghost predicate Placed(D: Derivation, qd: seq<int>)
    requires D.P.WellFormed()
  {
    forall i, l :: 1 <= i < |D.P.clauses| && l in D.Clause(i) ==>
      VarOf(l) in D.P.original && CopyDepth(D.P, qd, VarOf(l)) >= 0
  }

  lemma HasVarPlaced(D: Derivation, qd: seq<int>, num: nat, i: nat, v: Var)
    requires Good(D, num) && Placed(D, qd) && 1 <= i < |D.P.clauses| && HasVar(D.Clause(i), v)
    ensures v in D.P.original && CopyDepth(D.P, qd, v) >= 0
  {
    var l := MakeLit(v, MakeLit(v, false) !in D.Clause(i));
    assert l in D.Clause(i) && VarOf(l) == v;
  }

  /** Every variable of a resolvent is one of a parent's. */
  lemma PivotKeepsVars(D: Derivation, num: nat, i: nat)
    requires Good(D, num) && 1 <= i < |D.P.clauses| && D.pivots[i] != 0 && GoodNode(D, i)
    ensures forall v :: HasVar(D.Clause(i), v) ==>
      HasVar(D.Clause(D.Parent1(i)), v) || HasVar(D.Clause(D.Parent2(i)), v)
  {
    var l :| VarOf(l) == D.pivots[i] && IsPivot(D.Clause(D.Parent1(i)), D.Clause(D.Parent2(i)), D.Clause(i), l);
  }

  lemma {:induction false} InitialEntry(D: Derivation, qd: seq<int>, E: set<Var>, num: nat, T: Tables<bool>, i: nat)
    requires Good(D, num) && Shaped(T, |D.P.clauses|, num) && Initial(D, num, T) && 1 <= i < |D.P.clauses|
    requires Placed(D, qd)
    ensures EntryOk(D, qd, E, 0, num, T, i)
    decreases i
  {
    assert InitialRow(D, num, T, i);
    forall v | 0 <= v < num && T.active[i][v] ensures HasVar(D.Clause(i), v) && CopyDepthOf(D, qd, i, v) >= 0 {
      HasVarPlaced(D, qd, num, i, v);
    }
    if D.pivots[i] != 0 {
      assert GoodNode(D, i);
      InitialEntry(D, qd, E, num, T, D.Parent1(i));
      InitialEntry(D, qd, E, num, T, D.Parent2(i));
      PivotKeepsVars(D, num, i);
      assert InitialRow(D, num, T, D.Parent1(i)) && InitialRow(D, num, T, D.Parent2(i));
    }
  }

  lemma InitialInvariant(D: Derivation, qd: seq<int>, E: set<Var>, num: nat, T: Tables<bool>)
    requires Good(D, num) && Shaped(T, |D.P.clauses|, num) && Initial(D, num, T)
    requires Placed(D, qd)
    ensures Invariant(D, qd, E, 0, num, T)
  {
    forall i | 1 <= i < |D.P.clauses| ensures EntryOk(D, qd, E, 0, num, T, i) {
      InitialEntry(D, qd, E, num, T, i);
    }
  }

  /** The empty clause is never satisfied. */
  lemma RootNeverTop(D: Derivation, qd: seq<int>, E: set<Var>, q: int, num: nat, T: Tables<bool>)
    requires Good(D, num) && Shaped(T, |D.P.clauses|, num) && Invariant(D, qd, E, q, num, T)
    requires D.P.root != 0
    ensures !T.top[D.P.root]
  {
    assert EntryOk(D, qd, E, q, num, T, D.P.root);
    assert D.Clause(D.P.root) == [];
  }

  // ----- what the cumulative entries say -----

  /** The copy occurs in a leaf. */
  ghost predicate InLeaf(D: Derivation, v: Var)
    requires |D.pivots| == |D.P.clauses|
  {
    exists i :: 1 <= i < |D.P.clauses| && D.pivots[i] == 0 && HasVar(D.Clause(i), v)
  }

  /** Cumulatively active copies occur in a leaf and are unassigned. */
  ghost predicate CumulativeOk(D: Derivation, qd: seq<int>, q: int, num: nat, T: Tables<bool>, i: nat)
    requires Good(D, num) && Shaped(T, |D.P.clauses|, num) && 1 <= i < |D.P.clauses|
  {
    forall v :: 0 <= v < num && T.cumulative[i][v] ==>
      && v in D.P.original && CopyDepth(D.P, qd, v) >= q && InLeaf(D, v)
      && (D.pivots[i] == 0 ==> HasVar(D.Clause(i), v))
  }

  lemma {:induction false} InitialCumulative(D: Derivation, qd: seq<int>, num: nat, T: Tables<bool>, i: nat)
    requires Good(D, num) && Shaped(T, |D.P.clauses|, num) && Initial(D, num, T) && 1 <= i < |D.P.clauses|
    requires Placed(D, qd)
    ensures CumulativeOk(D, qd, 0, num, T, i)
    decreases i
  {
    assert InitialRow(D, num, T, i);
    if D.pivots[i] != 0 {
      assert GoodNode(D, i);
      InitialCumulative(D, qd, num, T, D.Parent1(i));
      InitialCumulative(D, qd, num, T, D.Parent2(i));
    } else {
      forall v | 0 <= v < num && T.cumulative[i][v] ensures v in D.P.original && CopyDepth(D.P, qd, v) >= 0 {
        HasVarPlaced(D, qd, num, i, v);
      }
    }
  }

  lemma {:induction false} BlockCumulative(D: Derivation, qd: seq<int>, E: set<Var>, q0: int, q: int, num: nat,
      S: Tables<bool>, T: Tables<bool>, i: nat)
    requires Good(D, num) && PivotsBelow(D, num) && num > 0
    requires Shaped(S, |D.P.clauses|, num) && Shaped(T, |D.P.clauses|, num)
    requires q0 <= q && Block(D, qd, E, q, num, S, T)
    requires 1 <= i < |D.P.clauses|
    requires forall j :: 1 <= j < |D.P.clauses| ==> CumulativeOk(D, qd, q0, num, S, j)
    requires forall j :: 1 <= j < |D.P.clauses| ==> !S.cumulative[j][0]
    ensures CumulativeOk(D, qd, q, num, T, i) && !T.cumulative[i][0]
    decreases i
  {
    assert CumulativeOk(D, qd, q0, num, S, i);
    if D.pivots[i] == 0 {
      assert LeafStep(D, qd, E, q, num, S, T, i);
      forall v | 0 <= v < num && T.cumulative[i][v]
        ensures HasVar(D.Clause(i), v) && v in D.P.original && CopyDepth(D.P, qd, v) >= q
      {
        assert T.cumulative[i][v] == LeafEntry(D, qd, q, i, v, S.cumulative[i][v], T.top[i]);
      }
    } else {
      assert GoodNode(D, i) && NodeStep(D, num, S, T, i);
      BlockCumulative(D, qd, E, q0, q, num, S, T, D.Parent1(i));
      BlockCumulative(D, qd, E, q0, q, num, S, T, D.Parent2(i));
    }
  }

  /** The part of an annotation that speaks about a set of variables. */
  ghost function Restrict(anno: seq<Lit>, Q: set<Var>): set<Lit> {
    set l | l in anno && VarOf(l) in Q
  }

  /** All cumulatively active copies at a node have the same annotation on Q. */
  ghost predicate Agree(D: Derivation, num: nat, T: Tables<bool>, Q: set<Var>, i: nat)
    requires Good(D, num) && Shaped(T, |D.P.clauses|, num) && i < |D.P.clauses|
  {
    forall v, w ::
      (0 <= v < num && 0 <= w < num && T.cumulative[i][v] && T.cumulative[i][w]
       && v in D.P.annotation && w in D.P.annotation)
      ==> Restrict(D.P.annotation[v], Q) == Restrict(D.P.annotation[w], Q)
  }

  /** Copies that are still unassigned at block q have annotations that decide all of Q. */
  ghost predicate Decides(D: Derivation, qd: seq<int>, q: int, Q: set<Var>)
    requires D.P.WellFormed() && |D.pivots| == |D.P.clauses|
  {
    forall v ::
      v in D.P.original && InLeaf(D, v) && CopyDepth(D.P, qd, v) >= q ==> Q <= AnnotatedVars(D.P.annotation[v])
  }

  lemma LeafAgrees(D: Derivation, qd: seq<int>, q: int, num: nat, T: Tables<bool>, Q: set<Var>, i: nat)
    requires Good(D, num) && Shaped(T, |D.P.clauses|, num) && 1 <= i < |D.P.clauses| && D.pivots[i] == 0
    requires CumulativeOk(D, qd, q, num, T, i) && Decides(D, qd, q, Q)
    requires Consistent(D.P.Union(D.Clause(i)))
    ensures Agree(D, num, T, Q, i)
  {
    var c := D.Clause(i);
    forall v, w | 0 <= v < num && 0 <= w < num && T.cumulative[i][v] && T.cumulative[i][w]
      && v in D.P.annotation && w in D.P.annotation
      ensures Restrict(D.P.annotation[v], Q) <= Restrict(D.P.annotation[w], Q)
    {
      var lv, lw := MakeLit(v, MakeLit(v, false) !in c), MakeLit(w, MakeLit(w, false) !in c);
      assert lv in c && lw in c && VarOf(lv) == v && VarOf(lw) == w;
      forall l | l in Restrict(D.P.annotation[v], Q) ensures l in D.P.annotation[w] {
        var k :| k in D.P.annotation[w] && VarOf(k) == VarOf(l);
        assert l in D.P.Union(c) && k in D.P.Union(c);
        assert k == l || k == Negate(l);
      }
    }
  }

  /** Where a node takes its activity from both parents, the pivot ties their annotations together. */
  lemma {:induction false} BlockAgrees(D: Derivation, qd: seq<int>, E: set<Var>, q: int, num: nat, S: Tables<bool>,
      T: Tables<bool>, Q: set<Var>, i: nat)
    requires Good(D, num) && PivotsBelow(D, num) && num > 0
    requires Shaped(S, |D.P.clauses|, num) && Shaped(T, |D.P.clauses|, num)
    requires Block(D, qd, E, q, num, S, T) && Invariant(D, qd, E, q, num, T)
    requires forall j :: 1 <= j < |D.P.clauses| ==> CumulativeOk(D, qd, q, num, T, j) && !T.cumulative[j][0]
    requires forall j :: 1 <= j < |D.P.clauses| && D.pivots[j] == 0 ==> Consistent(D.P.Union(D.Clause(j)))
    requires Decides(D, qd, q, Q)
    requires 1 <= i < |D.P.clauses|
    ensures Agree(D, num, T, Q, i)
    decreases i
  {
    if D.pivots[i] == 0 {
      LeafAgrees(D, qd, q, num, T, Q, i);
    } else {
      var p, r, x := D.Parent1(i), D.Parent2(i), D.pivots[i];
      assert GoodNode(D, i) && NodeStep(D, num, S, T, i);
      BlockAgrees(D, qd, E, q, num, S, T, Q, p);
      BlockAgrees(D, qd, E, q, num, S, T, Q, r);
      assert EntryOk(D, qd, E, q, num, T, p) && EntryOk(D, qd, E, q, num, T, r);
      PivotAnnotated(D, num, i);
      NodeAgrees(D, num, S, T, Q, i);
    }
  }

  lemma PivotAnnotated(D: Derivation, num: nat, i: nat)
    requires Good(D, num) && 1 <= i < |D.P.clauses| && D.pivots[i] != 0
    ensures D.pivots[i] in D.P.annotation
  {
    assert GoodNode(D, i);
    var l :| VarOf(l) == D.pivots[i] && IsPivot(D.Clause(D.Parent1(i)), D.Clause(D.Parent2(i)), D.Clause(i), l);
    assert l in D.Clause(D.Parent1(i));
  }

  lemma NodeAgrees(D: Derivation, num: nat, S: Tables<bool>, T: Tables<bool>, Q: set<Var>, i: nat)
    requires Good(D, num) && PivotsBelow(D, num)
    requires Shaped(S, |D.P.clauses|, num) && Shaped(T, |D.P.clauses|, num)
    requires 1 <= i < |D.P.clauses| && D.pivots[i] != 0 && GoodNode(D, i) && NodeStep(D, num, S, T, i)
    requires Agree(D, num, T, Q, D.Parent1(i)) && Agree(D, num, T, Q, D.Parent2(i)) && !T.cumulative[i][0]
    requires var x := D.pivots[i];
             && x in D.P.annotation
             && (T.active[D.Parent1(i)][x] ==> T.cumulative[D.Parent1(i)][x])
             && (T.active[D.Parent2(i)][x] ==> T.cumulative[D.Parent2(i)][x])
    ensures Agree(D, num, T, Q, i)
  {
    var p, r, x := D.Parent1(i), D.Parent2(i), D.pivots[i];
    forall v, w | 0 <= v < num && 0 <= w < num && T.cumulative[i][v] && T.cumulative[i][w]
      && v in D.P.annotation && w in D.P.annotation
      ensures Restrict(D.P.annotation[v], Q) == Restrict(D.P.annotation[w], Q)
    {
      assert v > 0 && w > 0;
    }
  }

  // ----- the first block: the restricted proof still refutes -----

  /** The leaves from which a node takes its activity. */
  ghost function Used(D: Derivation, num: nat, T: Tables<bool>, i: nat): set<nat>
    requires Good(D, num) && PivotsBelow(D, num) && Shaped(T, |D.P.clauses|, num) && 1 <= i < |D.P.clauses|
    decreases i
  {
    if D.pivots[i] == 0 then {i}
    else
      assert GoodNode(D, i);
      var p, r, x := D.Parent1(i), D.Parent2(i), D.pivots[i];
      if T.active[p][x] && T.active[r][x] then Used(D, num, T, p) + Used(D, num, T, r)
      else if !T.active[p][x] && !T.top[p] then Used(D, num, T, p)
      else if !T.active[r][x] && !T.top[r] then Used(D, num, T, r)
      else {}
  }

  /** The valuation satisfies some active literal of the clause. */
  ghost predicate ActiveTrue(D: Derivation, num: nat, T: Tables<bool>, V: Assignment, i: nat)
    requires Good(D, num) && Shaped(T, |D.P.clauses|, num) && i < |D.P.clauses|
  {
    exists l :: l in D.Clause(i) && T.active[i][VarOf(l)] && LitTrue(V, l)
  }

  /** T is what the first processed universal block makes of the initial tables S. */
  ghost predicate FirstBlock(D: Derivation, qd: seq<int>, E: set<Var>, q: int, num: nat, S: Tables<bool>,
      T: Tables<bool>)
  {
    && Good(D, num) && PivotsBelow(D, num) && num > 0
    && Shaped(S, |D.P.clauses|, num) && Shaped(T, |D.P.clauses|, num)
    && Initial(D, num, S) && Block(D, qd, E, q, num, S, T) && Invariant(D, qd, E, q, num, T)
  }

  /** A node that is not satisfied uses only leaves that are not satisfied. */
  lemma {:induction false} UsedNotTop(D: Derivation, qd: seq<int>, E: set<Var>, q: int, num: nat, S: Tables<bool>,
      T: Tables<bool>, i: nat)
    requires FirstBlock(D, qd, E, q, num, S, T)
    requires 1 <= i < |D.P.clauses| && !T.top[i]
    ensures forall lf :: lf in Used(D, num, T, i) ==> 1 <= lf < |D.P.clauses| && D.pivots[lf] == 0 && !T.top[lf]
    decreases i
  {
    assert InitialRow(D, num, S, i);
    if D.pivots[i] != 0 {
      var p, r := D.Parent1(i), D.Parent2(i);
      assert GoodNode(D, i) && NodeStep(D, num, S, T, i);
      assert EntryOk(D, qd, E, q, num, T, p) && EntryOk(D, qd, E, q, num, T, r);
      if !T.top[p] { UsedNotTop(D, qd, E, q, num, S, T, p); }
      if !T.top[r] { UsedNotTop(D, qd, E, q, num, S, T, r); }
    }
  }

  /** Restriction preserves derivability: a valuation that satisfies the active literals of every
      used leaf satisfies the active literals of every node that is not satisfied already. */
  lemma {:induction false} UsedDerives(D: Derivation, qd: seq<int>, E: set<Var>, q: int, num: nat, S: Tables<bool>,
      T: Tables<bool>, V: Assignment, i: nat)
    requires FirstBlock(D, qd, E, q, num, S, T)
    requires 1 <= i < |D.P.clauses| && !T.top[i]
    requires forall lf :: lf in Used(D, num, T, i) ==> lf < |D.P.clauses| && ActiveTrue(D, num, T, V, lf)
    ensures ActiveTrue(D, num, T, V, i)
    decreases i
  {
    assert InitialRow(D, num, S, i);
    if D.pivots[i] == 0 {
      assert i in Used(D, num, T, i);
    } else {
      var p, r, x := D.Parent1(i), D.Parent2(i), D.pivots[i];
      assert GoodNode(D, i) && NodeStep(D, num, S, T, i);
      assert EntryOk(D, qd, E, q, num, T, p) && EntryOk(D, qd, E, q, num, T, r);
      assert !S.top[i];
      var both := T.active[p][x] && T.active[r][x];
      if both || (!T.active[p][x] && !T.top[p]) {
        assert Used(D, num, T, p) <= Used(D, num, T, i);
        UsedDerives(D, qd, E, q, num, S, T, V, p);
      }
      if both || (!(!T.active[p][x] && !T.top[p]) && !T.active[r][x] && !T.top[r]) {
        assert Used(D, num, T, r) <= Used(D, num, T, i);
        UsedDerives(D, qd, E, q, num, S, T, V, r);
      }
      NodeDerives(D, num, S, T, V, i);
    }
  }

  /** So a valuation of all leaves that are not satisfied is one of every such node. */
  lemma RestrictionDerives(D: Derivation, qd: seq<int>, E: set<Var>, q: int, num: nat, S: Tables<bool>, T: Tables<bool>,
      V: Assignment, i: nat)
    requires FirstBlock(D, qd, E, q, num, S, T)
    requires forall lf: nat ::
      1 <= lf < |D.P.clauses| && D.pivots[lf] == 0 && !T.top[lf] ==> ActiveTrue(D, num, T, V, lf)
    requires 1 <= i < |D.P.clauses| && !T.top[i]
    ensures ActiveTrue(D, num, T, V, i)
  {
    UsedNotTop(D, qd, E, q, num, S, T, i);
    UsedDerives(D, qd, E, q, num, S, T, V, i);
  }

  lemma ActiveKept(D: Derivation, num: nat, S: Tables<bool>, T: Tables<bool>, i: nat, l: Lit)
    requires Good(D, num) && PivotsBelow(D, num) && Shaped(S, |D.P.clauses|, num) && Shaped(T, |D.P.clauses|, num)
    requires 1 <= i < |D.P.clauses| && D.pivots[i] != 0 && GoodNode(D, i)
    requires Initial(D, num, S) && NodeStep(D, num, S, T, i)
    requires l in D.Clause(i) && VarOf(l) != D.pivots[i]
    requires var p, r, x := D.Parent1(i), D.Parent2(i), D.pivots[i];
             Choose(T.active[p][x], T.top[p], T.active[r][x], T.top[r], T.active[p][VarOf(l)], T.active[r][VarOf(l)])
    ensures T.active[i][VarOf(l)]
  {
    assert InitialRow(D, num, S, i);
    assert S.active[i][VarOf(l)] == HasVar(D.Clause(i), VarOf(l));
    assert l == MakeLit(VarOf(l), false) || l == MakeLit(VarOf(l), true);
  }

  lemma NodeDerives(D: Derivation, num: nat, S: Tables<bool>, T: Tables<bool>, V: Assignment, i: nat)
    requires Good(D, num) && PivotsBelow(D, num) && Shaped(S, |D.P.clauses|, num) && Shaped(T, |D.P.clauses|, num)
    requires 1 <= i < |D.P.clauses| && D.pivots[i] != 0 && GoodNode(D, i)
    requires Initial(D, num, S) && NodeStep(D, num, S, T, i) && !T.top[i]
    requires var p, r, x := D.Parent1(i), D.Parent2(i), D.pivots[i];
             if T.active[p][x] && T.active[r][x] then ActiveTrue(D, num, T, V, p) && ActiveTrue(D, num, T, V, r)
             else if !T.active[p][x] && !T.top[p] then ActiveTrue(D, num, T, V, p)
             else ActiveTrue(D, num, T, V, r)
    ensures ActiveTrue(D, num, T, V, i)
  {
    var p, r, x := D.Parent1(i), D.Parent2(i), D.pivots[i];
    var piv :| VarOf(piv) == x && IsPivot(D.Clause(p), D.Clause(r), D.Clause(i), piv);
    if T.active[p][x] && T.active[r][x] {
      var l :| l in D.Clause(p) && T.active[p][VarOf(l)] && LitTrue(V, l);
      var m :| m in D.Clause(r) && T.active[r][VarOf(m)] && LitTrue(V, m);
      PivotVar(D.Clause(p), D.Clause(r), D.Clause(i), piv, l, m);
      if VarOf(l) != x {
        ActiveKept(D, num, S, T, i, l);
      } else {
        ActiveKept(D, num, S, T, i, m);
      }
    } else if !T.active[p][x] && !T.top[p] {
      var l :| l in D.Clause(p) && T.active[p][VarOf(l)] && LitTrue(V, l);
      ActiveKept(D, num, S, T, i, l);
    } else {
      var m :| m in D.Clause(r) && T.active[r][VarOf(m)] && LitTrue(V, m);
      ActiveKept(D, num, S, T, i, m);
    }
  }

  /** Of two literals of the parents that are not complementary, one is not the pivot. */
  lemma PivotVar(p: seq<Lit>, q: seq<Lit>, c: seq<Lit>, piv: Lit, l: Lit, m: Lit)
    requires IsPivot(p, q, c, piv) && l in p && m in q
    ensures VarOf(l) != VarOf(piv) ==> l in c
    ensures VarOf(m) != VarOf(piv) ==> m in c
    ensures VarOf(l) == VarOf(piv) ==> l == piv
    ensures VarOf(m) == VarOf(piv) ==> m == Negate(piv)
  {
  }

  /** What is active in a used leaf is cumulatively active at the node. */
  lemma {:induction false} UsedCumulative(D: Derivation, qd: seq<int>, E: set<Var>, q: int, num: nat, S: Tables<bool>,
      T: Tables<bool>, i: nat, lf: nat, v: Var)
    requires FirstBlock(D, qd, E, q, num, S, T)
    requires 1 <= i < |D.P.clauses| && lf in Used(D, num, T, i) && 1 <= lf < |D.P.clauses| && 0 < v < num
    requires D.pivots[lf] == 0 && T.active[lf][v]
    ensures S.cumulative[i][v] && T.cumulative[i][v]
    decreases i
  {
    assert InitialRow(D, num, S, i);
    assert EntryOk(D, qd, E, q, num, T, lf);
    if D.pivots[i] != 0 {
      var p, r := D.Parent1(i), D.Parent2(i);
      assert GoodNode(D, i) && NodeStep(D, num, S, T, i);
      if lf in Used(D, num, T, p) { UsedCumulative(D, qd, E, q, num, S, T, p, lf, v); }
      if lf in Used(D, num, T, r) { UsedCumulative(D, qd, E, q, num, S, T, r, lf, v); }
    }
  }

  /** The empty clause is not satisfied and has no literal, so the active literals of the used
      leaves are unsatisfiable together. */
  lemma RefutingLeaf(D: Derivation, qd: seq<int>, E: set<Var>, q: int, num: nat, S: Tables<bool>, T: Tables<bool>,
      V: Assignment)
    returns (lf: nat)
    requires FirstBlock(D, qd, E, q, num, S, T)
    requires D.P.root != 0
    ensures 1 <= lf < |D.P.clauses| && D.pivots[lf] == 0 && lf in Used(D, num, T, D.P.root)
    ensures !T.top[lf] && !ActiveTrue(D, num, T, V, lf)
  {
    var root := D.P.root;
    RootNeverTop(D, qd, E, q, num, T);
    UsedNotTop(D, qd, E, q, num, S, T, root);
    assert D.Clause(root) == [];
    if forall x :: x in Used(D, num, T, root) ==> x < |D.P.clauses| && ActiveTrue(D, num, T, V, x) {
      UsedDerives(D, qd, E, q, num, S, T, V, root);
    }
    lf :| lf in Used(D, num, T, root) && !(lf < |D.P.clauses| && ActiveTrue(D, num, T, V, lf));
  }

  // ----- determinism -----

  ghost predicate SameRow(S: Tables<bool>, T: Tables<bool>, i: nat) {
    && i < |S.active| && i < |S.cumulative| && i < |S.top| && i < |T.active| && i < |T.cumulative| && i < |T.top|
    && S.active[i] == T.active[i] && S.cumulative[i] == T.cumulative[i] && S.top[i] == T.top[i]
  }

  ghost predicate SameTables(n: nat, S: Tables<bool>, T: Tables<bool>) {
    forall i :: 1 <= i < n ==> SameRow(S, T, i)
  }

  lemma {:induction false} InitialSame(D: Derivation, num: nat, S: Tables<bool>, T: Tables<bool>, i: nat)
    requires Good(D, num) && Shaped(S, |D.P.clauses|, num) && Shaped(T, |D.P.clauses|, num)
    requires Initial(D, num, S) && Initial(D, num, T) && 1 <= i < |D.P.clauses|
    ensures SameRow(S, T, i)
    decreases i
  {
    assert InitialRow(D, num, S, i) && InitialRow(D, num, T, i);
    if D.pivots[i] != 0 {
      assert GoodNode(D, i);
      InitialSame(D, num, S, T, D.Parent1(i));
      InitialSame(D, num, S, T, D.Parent2(i));
    }
    assert S.active[i] == T.active[i];
    assert S.cumulative[i] == T.cumulative[i];
  }

  /** A block's new tables depend only on the old ones and on the literals of the block before it. */
  lemma {:induction false} BlockSame(D: Derivation, qd: seq<int>, E: set<Var>, F: set<Var>, q: int, num: nat,
                                     S: Tables<bool>, T: Tables<bool>, U: Tables<bool>, V: Tables<bool>, i: nat)
    requires Good(D, num) && PivotsBelow(D, num) && num > 0
    requires Shaped(S, |D.P.clauses|, num) && Shaped(T, |D.P.clauses|, num)
    requires Shaped(U, |D.P.clauses|, num) && Shaped(V, |D.P.clauses|, num)
    requires Block(D, qd, E, q, num, S, T) && Block(D, qd, F, q, num, U, V)
    requires SameTables(|D.P.clauses|, S, U)
    requires forall j :: 1 <= j < |D.P.clauses| && D.pivots[j] == 0 ==>
               (HoldsAt(D.P, qd, E, q - 1, D.Clause(j)) <==> HoldsAt(D.P, qd, F, q - 1, D.Clause(j)))
    requires 1 <= i < |D.P.clauses|
    ensures SameRow(T, V, i)
    decreases i
  {
    assert SameRow(S, U, i);
    if D.pivots[i] == 0 {
      assert LeafStep(D, qd, E, q, num, S, T, i) && LeafStep(D, qd, F, q, num, U, V, i);
      LeafSame(D, qd, E, F, q, num, S, T, U, V, i);
    } else {
      assert GoodNode(D, i) && NodeStep(D, num, S, T, i) && NodeStep(D, num, U, V, i);
      BlockSame(D, qd, E, F, q, num, S, T, U, V, D.Parent1(i));
      BlockSame(D, qd, E, F, q, num, S, T, U, V, D.Parent2(i));
      NodeSame(D, num, S, T, U, V, i);
    }
  }

  lemma LeafSame(D: Derivation, qd: seq<int>, E: set<Var>, F: set<Var>, q: int, num: nat,
                 S: Tables<bool>, T: Tables<bool>, U: Tables<bool>, V: Tables<bool>, i: nat)
    requires Good(D, num) && 1 <= i < |D.P.clauses|
    requires Shaped(S, |D.P.clauses|, num) && Shaped(T, |D.P.clauses|, num)
    requires Shaped(U, |D.P.clauses|, num) && Shaped(V, |D.P.clauses|, num)
    requires LeafStep(D, qd, E, q, num, S, T, i) && LeafStep(D, qd, F, q, num, U, V, i) && SameRow(S, U, i)
    requires HoldsAt(D.P, qd, E, q - 1, D.Clause(i)) <==> HoldsAt(D.P, qd, F, q - 1, D.Clause(i))
    ensures SameRow(T, V, i)
  {
    assert T.top[i] == V.top[i];
    forall v | 0 <= v < num ensures T.active[i][v] == V.active[i][v] && T.cumulative[i][v] == V.cumulative[i][v] {
      assert T.active[i][v] == LeafEntry(D, qd, q, i, v, S.active[i][v], T.top[i]);
      assert T.cumulative[i][v] == LeafEntry(D, qd, q, i, v, S.cumulative[i][v], T.top[i]);
    }
    assert T.active[i] == V.active[i];
    assert T.cumulative[i] == V.cumulative[i];
  }

  lemma NodeSame(D: Derivation, num: nat, S: Tables<bool>, T: Tables<bool>, U: Tables<bool>, V: Tables<bool>, i: nat)
    requires Good(D, num) && num > 0 && 1 <= i < |D.P.clauses| && D.pivots[i] != 0 && D.pivots[i] < num
    requires Shaped(S, |D.P.clauses|, num) && Shaped(T, |D.P.clauses|, num)
    requires Shaped(U, |D.P.clauses|, num) && Shaped(V, |D.P.clauses|, num)
    requires GoodNode(D, i) && NodeStep(D, num, S, T, i) && NodeStep(D, num, U, V, i) && SameRow(S, U, i)
    requires SameRow(T, V, D.Parent1(i)) && SameRow(T, V, D.Parent2(i))
    ensures SameRow(T, V, i)
  {
    forall v | 0 <= v < num ensures T.active[i][v] == V.active[i][v] && T.cumulative[i][v] == V.cumulative[i][v] {
    }
    assert T.active[i] == V.active[i];
    assert T.cumulative[i] == V.cumulative[i];
  }

  // ----- before the first block -----

  /** Before the first block all copies that occur below a node agree on a set of variables that
      every annotation decides. */
  lemma {:induction false} InitialAgrees(D: Derivation, qd: seq<int>, num: nat, T: Tables<bool>, Q: set<Var>, i: nat)
    requires Good(D, num) && Shaped(T, |D.P.clauses|, num) && Initial(D, num, T) && PivotsBelow(D, num)
    requires Placed(D, qd) && Decides(D, qd, 0, Q)
    requires forall j :: 1 <= j < |D.P.clauses| && D.pivots[j] == 0 ==> Consistent(D.P.Union(D.Clause(j)))
    requires 1 <= i < |D.P.clauses|
    ensures Agree(D, num, T, Q, i)
    ensures forall v :: 0 <= v < num && HasVar(D.Clause(i), v) ==> T.cumulative[i][v]
    decreases i
  {
    assert InitialRow(D, num, T, i);
    if D.pivots[i] == 0 {
      InitialCumulative(D, qd, num, T, i);
      LeafAgrees(D, qd, 0, num, T, Q, i);
    } else {
      assert GoodNode(D, i);
      InitialAgrees(D, qd, num, T, Q, D.Parent1(i));
      InitialAgrees(D, qd, num, T, Q, D.Parent2(i));
      InitialNodeAgrees(D, num, T, Q, i);
    }
  }

  lemma InitialNodeAgrees(D: Derivation, num: nat, T: Tables<bool>, Q: set<Var>, i: nat)
    requires Good(D, num) && Shaped(T, |D.P.clauses|, num) && Initial(D, num, T) && PivotsBelow(D, num)
    requires 1 <= i < |D.P.clauses| && D.pivots[i] != 0 && GoodNode(D, i)
    requires forall v :: 0 <= v < num && HasVar(D.Clause(D.Parent1(i)), v) ==> T.cumulative[D.Parent1(i)][v]
    requires forall v :: 0 <= v < num && HasVar(D.Clause(D.Parent2(i)), v) ==> T.cumulative[D.Parent2(i)][v]
    requires Agree(D, num, T, Q, D.Parent1(i)) && Agree(D, num, T, Q, D.Parent2(i))
    ensures Agree(D, num, T, Q, i)
    ensures forall v :: 0 <= v < num && HasVar(D.Clause(i), v) ==> T.cumulative[i][v]
  {
    assert InitialRow(D, num, T, i);
    var p, r, x := D.Parent1(i), D.Parent2(i), D.pivots[i];
    PivotAnnotated(D, num, i);
    var l :| VarOf(l) == x && IsPivot(D.Clause(p), D.Clause(r), D.Clause(i), l);
    assert l == MakeLit(x, false) || l == MakeLit(x, true);
    assert HasVar(D.Clause(p), x) && HasVar(D.Clause(r), x);
    forall v, w | 0 <= v < num && 0 <= w < num && T.cumulative[i][v] && T.cumulative[i][w]
      && v in D.P.annotation && w in D.P.annotation
      ensures Restrict(D.P.annotation[v], Q) == Restrict(D.P.annotation[w], Q)
    {
      assert Restrict(D.P.annotation[v], Q) == Restrict(D.P.annotation[x], Q);
      assert Restrict(D.P.annotation[w], Q) == Restrict(D.P.annotation[x], Q);
    }
  }
}
