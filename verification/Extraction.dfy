/** The certificate extraction: pivots, indicators, the loop over the universal blocks, and the
    theorems about the circuit it produces. */
module Extraction {
  import opened Literals
  import Qbf
  import opened Formulas
  import opened Resolution
  import opened FerpProofs
  import opened ExtractTheory
  import opened ExtractMove
  import opened ExtractRuns
  import opened ExtractSteps
  import opened ExtractBlocks
  import opened Certificates
  import opened Aigs

  // ----- the refutation the extraction is run on -----

  /** A refutation the checker accepts, whose ids are positions and whose clauses have strictly
      increasing variables: what the original takes for granted. */
  ghost predicate Checked(P: Proof, B: seq<Quant>, qd: seq<int>, matrix: seq<QClause>) {
    && Readable(P, B, qd, matrix) && Accepted(P, matrix) && Ordered(P) && IdsArePositions(P)
    && (forall i :: 0 <= i < |P.clauses| ==> StrictVars(P.clauses[i]))
    && P.annotation.Keys == P.original.Keys && P.original != map[]
  }

  lemma StrictVarsSorted(c: seq<Lit>)
    requires StrictVars(c)
    ensures StrictlySorted(c) && Sorted(c) && !Tautology(c)
  {
    forall l | l in c ensures Negate(l) !in c {
      var i :| 0 <= i < |c| && c[i] == l;
      forall j | 0 <= j < |c| ensures c[j] != Negate(l) {
        assert j == i || VarOf(c[j]) != VarOf(c[i]);
      }
    }
  }

  /** The one variable the parents clash on makes the node a proper resolution step. */
  lemma ClashIsPivot(P: Proof, B: seq<Quant>, qd: seq<int>, matrix: seq<QClause>, i: nat, l: Lit)
    requires Checked(P, B, qd, matrix) && 1 <= i < |P.clauses| && !P.IsLeaf(i)
    requires l in Clash(P.clauses[P.TraceIndex(P.antecedents[i].0)], P.clauses[P.TraceIndex(P.antecedents[i].1)])
    ensures 1 <= P.antecedents[i].0 < i && 1 <= P.antecedents[i].1 < i
    ensures IsPivot(P.clauses[P.antecedents[i].0], P.clauses[P.antecedents[i].1], P.clauses[i], l)
  {
    var p, q, c := P.clauses[P.TraceIndex(P.antecedents[i].0)], P.clauses[P.TraceIndex(P.antecedents[i].1)],
      P.clauses[i];
    assert Passes(P, matrix, i);
    StrictVarsSorted(p);
    StrictVarsSorted(q);
    StrictVarsSorted(c);
    ResolutionExact(p, q, c);
    var k :| Clash(p, q) == {k} && Elements(c) == (Elements(p) - {k}) + (Elements(q) - {Negate(k)});
    assert k == l;
    ResolventPivot(p, q, c, l);
  }

  lemma ResolventPivot(p: seq<Lit>, q: seq<Lit>, c: seq<Lit>, l: Lit)
    requires !Tautology(p) && !Tautology(q) && l in p && Negate(l) in q
    requires Elements(c) == (Elements(p) - {l}) + (Elements(q) - {Negate(l)})
    ensures IsPivot(p, q, c, l)
  {
    assert Negate(l) !in p && l !in q;
    assert forall x :: x in c <==> x in Elements(c);
    assert forall x :: x in p <==> x in Elements(p);
    assert forall x :: x in q <==> x in Elements(q);
  }

  /** Every inner node has a clash. */
  lemma HasClash(P: Proof, B: seq<Quant>, qd: seq<int>, matrix: seq<QClause>, i: nat)
    requires Checked(P, B, qd, matrix) && 1 <= i < |P.clauses| && !P.IsLeaf(i)
    ensures Clash(P.clauses[P.TraceIndex(P.antecedents[i].0)], P.clauses[P.TraceIndex(P.antecedents[i].1)]) != {}
  {
    var p, q, c := P.clauses[P.TraceIndex(P.antecedents[i].0)], P.clauses[P.TraceIndex(P.antecedents[i].1)],
      P.clauses[i];
    assert Passes(P, matrix, i);
    StrictVarsSorted(p);
    StrictVarsSorted(q);
    StrictVarsSorted(c);
    ResolutionExact(p, q, c);
  }

  class Extractor {
    const P: Proof
    var pivots: seq<Var>
    var indicators: map<Lit, seq<Var>>

    constructor (P: Proof)
      ensures this.P == P
    {
      this.P := P;
      pivots, indicators := [], map[];
    }

    // ----- pivots -----

    /** The walk over both parents that stops at the first variable they clash on. */
    static method FirstClash(p: seq<Lit>, q: seq<Lit>) returns (v: Var)
      requires StrictVars(p) && StrictVars(q)
      ensures v == 0 ==> Clash(p, q) == {}
      ensures v != 0 ==> exists l :: l in Clash(p, q) && VarOf(l) == v
    {
      v := 0;
      var i, j := 0, 0;
      while i < |p| && j < |q|
        invariant 0 <= i <= |p| && 0 <= j <= |q|
        invariant v == 0 ==> forall l :: l in Clash(p, q) ==> l in p[i..] && Negate(l) in q[j..]
        invariant v != 0 ==> exists l :: l in Clash(p, q) && VarOf(l) == v
        decreases |p| - i, |q| - j
      {
        StrictFrom(p, i);
        StrictFrom(q, j);
        if VarOf(p[i]) < VarOf(q[j]) {
          i := i + 1;
        } else if VarOf(p[i]) > VarOf(q[j]) {
          j := j + 1;
        } else if p[i] == q[j] {
          i, j := i + 1, j + 1;
        } else {
          assert p[i] in Clash(p, q);
          v := VarOf(p[i]);
          i := |p|;
        }
      }
    }

    static lemma StrictFrom(p: seq<Lit>, i: nat)
      requires StrictVars(p) && i < |p|
      ensures forall l :: l in p[i..] <==> l == p[i] || l in p[i + 1..]
      ensures forall l :: l in p[i + 1..] ==> VarOf(l) > VarOf(p[i])
    {
      assert p[i..] == [p[i]] + p[i + 1..];
    }

    /** The pivots recorded for the first clauses make them a derivation. */
    static ghost predicate PivotsOk(P: Proof, pivots: seq<Var>, k: nat) {
      && |pivots| == |P.clauses| == |P.antecedents| && (pivots != [] ==> pivots[0] == 0)
      && (forall i :: 1 <= i < k && i < |pivots| ==>
            if P.IsLeaf(i) then pivots[i] == 0 else pivots[i] != 0 && GoodNode(Derivation(P, pivots), i))
      && (forall i :: k <= i < |pivots| ==> pivots[i] == 0)
    }

    method CollectPivots(ghost B: seq<Quant>, ghost qd: seq<int>, ghost matrix: seq<QClause>)
      requires Checked(P, B, qd, matrix)
      modifies this`pivots
      ensures PivotsOk(P, pivots, |P.clauses|)
    {
      pivots := seq(|P.clauses|, _ => 0);
      var i := 1;
      while i < |P.clauses|
        invariant 1 <= i <= |P.clauses| == |pivots| && PivotsOk(P, pivots, i)
      {
        if P.antecedents[i].1 != 0 {
          var p, q := P.clauses[P.TraceIndex(P.antecedents[i].0)], P.clauses[P.TraceIndex(P.antecedents[i].1)];
          var v := FirstClash(p, q);
          HasClash(P, B, qd, matrix, i);
          ghost var l :| l in Clash(p, q) && VarOf(l) == v;
          ClashIsPivot(P, B, qd, matrix, i, l);
          PivotsNext(P, pivots, i, l);
          pivots := pivots[i := v];
        }
        i := i + 1;
      }
    }

    static lemma PivotsNext(P: Proof, pivots: seq<Var>, i: nat, l: Lit)
      requires P.WellFormed() && 1 <= i < |P.clauses| && !P.IsLeaf(i) && PivotsOk(P, pivots, i)
      requires 1 <= P.antecedents[i].0 < i && 1 <= P.antecedents[i].1 < i
      requires IsPivot(P.clauses[P.antecedents[i].0], P.clauses[P.antecedents[i].1], P.clauses[i], l)
      ensures PivotsOk(P, pivots[i := VarOf(l)], i + 1)
    {
      var pivots' := pivots[i := VarOf(l)];
      GoodNodeFromPivot(P, pivots', i, l);
      forall j | 1 <= j < i && !P.IsLeaf(j) ensures GoodNode(Derivation(P, pivots'), j) {
        SamePivot(P, pivots, pivots', j);
      }
    }

    static lemma GoodNodeFromPivot(P: Proof, pivots: seq<Var>, i: nat, l: Lit)
      requires P.WellFormed() && |pivots| == |P.clauses| && 1 <= i < |P.clauses| && pivots[i] == VarOf(l)
      requires 1 <= P.antecedents[i].0 < i && 1 <= P.antecedents[i].1 < i
      requires IsPivot(P.clauses[P.antecedents[i].0], P.clauses[P.antecedents[i].1], P.clauses[i], l)
      ensures GoodNode(Derivation(P, pivots), i)
    {
    }

    static lemma SamePivot(P: Proof, before: seq<Var>, after: seq<Var>, j: nat)
      requires |before| == |after| == |P.clauses| == |P.antecedents| && j < |before| && before[j] == after[j]
      requires GoodNode(Derivation(P, before), j)
      ensures GoodNode(Derivation(P, after), j)
    {
      var D, D' := Derivation(P, before), Derivation(P, after);
      var l :| VarOf(l) == before[j] && IsPivot(D.Clause(D.Parent1(j)), D.Clause(D.Parent2(j)), D.Clause(j), l);
      assert IsPivot(D'.Clause(D'.Parent1(j)), D'.Clause(D'.Parent2(j)), D'.Clause(j), l);
    }

    // ----- indicators -----

    /** The table lists, for every literal, the copies annotated with it among the first k
        annotations and the first n literals of the next one. */
    static ghost predicate IndicatorsOk(P: Proof, ind: map<Lit, seq<Var>>, k: nat, n: nat) {
      && (forall l :: l in ind ==> ind[l] != [])
      && (forall l: Lit, v: Var :: Indicates(ind, l, v) <==> Listed(P, v, l, k, n))
    }

    static predicate Indicates(ind: map<Lit, seq<Var>>, l: Lit, v: Var) {
      l in ind && v in ind[l]
    }

    static ghost predicate Listed(P: Proof, v: Var, l: Lit, k: nat, n: nat) {
      && v in P.annotation
      && ((v < k && l in P.annotation[v]) || (v == k && n <= |P.annotation[v]| && l in P.annotation[v][..n]))
    }

    method CollectIndicators(num: nat)
      requires forall v :: v in P.annotation ==> v < num
      modifies this`indicators
      ensures IndicatorsOk(P, indicators, num, 0)
    {
      indicators := map[];
      var v := 0;
      while v < num
        invariant 0 <= v <= num && IndicatorsOk(P, indicators, v, 0)
      {
        if v in P.annotation {
          var anno := P.annotation[v];
          var li := 0;
          while li < |anno|
            invariant 0 <= li <= |anno| && IndicatorsOk(P, indicators, v, li)
          {
            RecordNext(P, indicators, v, li);
            var was := if anno[li] in indicators then indicators[anno[li]] else [];
            indicators := indicators[anno[li] := was + [v]];
            li := li + 1;
          }
        }
        ListNext(P, indicators, v, if v in P.annotation then |P.annotation[v]| else 0);
        v := v + 1;
      }
    }

    static lemma RecordNext(P: Proof, ind: map<Lit, seq<Var>>, v: Var, li: nat)
      requires v in P.annotation && li < |P.annotation[v]| && IndicatorsOk(P, ind, v, li)
      ensures var l := P.annotation[v][li];
              IndicatorsOk(P, ind[l := (if l in ind then ind[l] else []) + [v]], v, li + 1)
    {
      var anno := P.annotation[v];
      var k := anno[li];
      var ind' := ind[k := (if k in ind then ind[k] else []) + [v]];
      assert anno[..li + 1] == anno[..li] + [k];
      forall l: Lit, x: Var ensures Indicates(ind', l, x) <==> Listed(P, x, l, v, li + 1) {
        assert Indicates(ind, l, x) <==> Listed(P, x, l, v, li);
        assert Indicates(ind', l, x) <==> Indicates(ind, l, x) || (l == k && x == v);
      }
    }

    static lemma ListNext(P: Proof, ind: map<Lit, seq<Var>>, v: Var, n: nat)
      requires IndicatorsOk(P, ind, v, n) && n == if v in P.annotation then |P.annotation[v]| else 0
      ensures IndicatorsOk(P, ind, v + 1, 0)
    {
      if v in P.annotation {
        assert P.annotation[v][..n] == P.annotation[v];
      }
      forall l: Lit, x: Var ensures Indicates(ind, l, x) <==> Listed(P, x, l, v + 1, 0) {
        assert Indicates(ind, l, x) <==> Listed(P, x, l, v, n);
      }
    }

    // ----- outputs -----

    /** The disjunction of the root's entries for some copies. */
    method AnyOf(b: AigBuilder, row: seq<nat>, vs: seq<Var>) returns (r: nat)
      requires b.Valid() && RowUsable(b.current_aig_var, b.reserved, row) && forall v :: v in vs ==> v < |row|
      modifies b`ands, b`current_aig_var, b`node_cache, b`inv_node_cache
      ensures b.Valid() && b.Live(r)
      ensures AigBuilder.Extends(old(b.ands), old(b.current_aig_var), b.ands, b.current_aig_var)
      ensures old(b.inv_node_cache.Keys) <= b.inv_node_cache.Keys
      ensures forall E: set<nat> :: Value(b.ands, E, r) <==> SomeTrue(RowAt(old(b.ands), E, row), vs)
    {
      ghost var gs, n := b.ands, b.current_aig_var;
      r := FALSE_LIT;
      ConstantUsable(b);
      forall E: set<nat> ensures !Value(gs, E, FALSE_LIT) {
        AigBuilder.ConstantValue(gs, E);
      }
      var k := 0;
      while k < |vs|
        invariant 0 <= k <= |vs| && b.Valid() && b.Live(r)
        invariant AigBuilder.Extends(gs, n, b.ands, b.current_aig_var)
        invariant old(b.inv_node_cache.Keys) <= b.inv_node_cache.Keys
        invariant forall E: set<nat> :: Value(b.ands, E, r) <==> SomeTrue(RowAt(gs, E, row), vs[..k])
      {
        ghost var g1, n1 := b.ands, b.current_aig_var;
        assert vs[k] in vs && vs[..k + 1] == vs[..k] + [vs[k]];
        UsableLater(n, n1, b.reserved, row[vs[k]]);
        r := b.MakeOR(r, row[vs[k]]);
        AigBuilder.ExtendsTrans(gs, n, g1, n1, b.ands, b.current_aig_var);
        forall E: set<nat> ensures Value(b.ands, E, r) <==> SomeTrue(RowAt(gs, E, row), vs[..k + 1]) {
          assert Value(g1, E, row[vs[k]]) == Value(gs, E, row[vs[k]]);
          SomeTrueAppend(RowAt(gs, E, row), vs[..k], vs[k]);
        }
        k := k + 1;
      }
      assert vs[..k] == vs;
    }

    static ghost predicate SomeTrue(row: seq<bool>, vs: seq<Var>) {
      exists v :: v in vs && v < |row| && row[v]
    }

    static lemma SomeTrueAppend(row: seq<bool>, vs: seq<Var>, v: Var)
      requires v < |row|
      ensures SomeTrue(row, vs + [v]) <==> SomeTrue(row, vs) || row[v]
    {
      assert forall x :: x in vs + [v] <==> x in vs || x == v;
    }

    /** What the finished table says: which copies carry a literal. */
    static lemma IndicatorsMean(P: Proof, ind: map<Lit, seq<Var>>, num: nat, l: Lit)
      requires IndicatorsOk(P, ind, num, 0) && forall v :: v in P.annotation ==> v < num
      ensures l in ind <==> Annotated(P, l)
      ensures l in ind ==> forall v :: v in ind[l] <==> v in P.annotation && l in P.annotation[v]
    {
      forall v: Var ensures Indicates(ind, l, v) <==> v in P.annotation && l in P.annotation[v] {
        assert Indicates(ind, l, v) <==> Listed(P, v, l, num, 0);
      }
      if l in ind {
        assert Indicates(ind, l, ind[l][0]);
      }
      if Annotated(P, l) {
        var v :| v in P.annotation && l in P.annotation[v];
        assert Indicates(ind, l, v);
      }
    }

    static lemma SomeTrueIsAnyActive(P: Proof, ind: map<Lit, seq<Var>>, num: nat, row: seq<bool>, l: Lit)
      requires IndicatorsOk(P, ind, num, 0) && (forall v :: v in P.annotation ==> v < num) && l in ind
      ensures SomeTrue(row, ind[l]) <==> AnyActive(P, row, l)
    {
      IndicatorsMean(P, ind, num, l);
    }

    ghost predicate Indexed(num: nat)
      reads this`indicators
    {
      IndicatorsOk(P, indicators, num, 0) && forall v :: v in P.annotation ==> v < num
    }

    /** The literal for the output of one universal variable. */
    method Solution(b: AigBuilder, row: seq<nat>, u: Var, ghost num: nat) returns (solution: nat)
      requires b.Valid() && RowUsable(b.current_aig_var, b.reserved, row) && u > 0 && Indexed(num) && |row| == num
      modifies b`ands, b`current_aig_var, b`node_cache, b`inv_node_cache
      ensures b.Valid() && b.Live(solution)
      ensures AigBuilder.Extends(old(b.ands), old(b.current_aig_var), b.ands, b.current_aig_var)
      ensures old(b.inv_node_cache.Keys) <= b.inv_node_cache.Keys
      ensures SolutionOk(P, b.ands, row, u, solution)
    {
      var l_pos, l_neg := MakeLit(u, false), MakeLit(u, true);
      IndicatorsMean(P, indicators, num, l_pos);
      IndicatorsMean(P, indicators, num, l_neg);
      ConstantUsable(b);
      forall E: set<nat> ensures !Value(b.ands, E, FALSE_LIT) && Value(b.ands, E, TRUE_LIT) {
        AigBuilder.ConstantValue(b.ands, E);
      }
      if l_neg !in indicators {
        solution := TRUE_LIT;
      } else if l_pos !in indicators {
        solution := FALSE_LIT;
      } else {
        solution := PickIndicator(b, row, u, num);
      }
    }

    method PickIndicator(b: AigBuilder, row: seq<nat>, u: Var, ghost num: nat) returns (solution: nat)
      requires b.Valid() && RowUsable(b.current_aig_var, b.reserved, row) && u > 0 && Indexed(num) && |row| == num
      requires MakeLit(u, false) in indicators && MakeLit(u, true) in indicators
      modifies b`ands, b`current_aig_var, b`node_cache, b`inv_node_cache
      ensures b.Valid() && b.Live(solution)
      ensures AigBuilder.Extends(old(b.ands), old(b.current_aig_var), b.ands, b.current_aig_var)
      ensures old(b.inv_node_cache.Keys) <= b.inv_node_cache.Keys
      ensures SolutionOk(P, b.ands, row, u, solution)
    {
      hide SolutionOk;
      ghost var gs, n := b.ands, b.current_aig_var;
      var l_pos, l_neg := MakeLit(u, false), MakeLit(u, true);
      IndicatorsMean(P, indicators, num, l_pos);
      IndicatorsMean(P, indicators, num, l_neg);
      var pos_ind := AnyOf(b, row, indicators[l_pos]);
      ghost var g1, n1 := b.ands, b.current_aig_var;
      ExtendsKeeps(gs, n, g1, n1, b.reserved);
      RowStable(gs, n, g1, n1, b.reserved, row, {});
      var some := AnyOf(b, row, indicators[l_neg]);
      var neg_ind := Not(some);
      ghost var g2, n2 := b.ands, b.current_aig_var;
      AigBuilder.ExtendsTrans(gs, n, g1, n1, g2, n2);
      ExtendsKeeps(g1, n1, g2, n2, b.reserved);
      forall E: set<nat>
        ensures Value(g2, E, pos_ind) == AnyActive(P, RowAt(g2, E, row), l_pos)
        ensures Value(g2, E, neg_ind) == !AnyActive(P, RowAt(g2, E, row), l_neg)
      {
        RowStable(gs, n, g1, n1, b.reserved, row, E);
        RowStable(g1, n1, g2, n2, b.reserved, row, E);
        SomeTrueIsAnyActive(P, indicators, num, RowAt(g2, E, row), l_pos);
        SomeTrueIsAnyActive(P, indicators, num, RowAt(g2, E, row), l_neg);
        NotValue(g2, E, some);
        assert Value(g2, E, pos_ind) == Value(g1, E, pos_ind);
      }
      if pos_ind == TRUE_LIT || pos_ind == FALSE_LIT {
        solution := pos_ind;
      } else if neg_ind == TRUE_LIT || neg_ind == FALSE_LIT {
        solution := neg_ind;
      } else {
        solution := pos_ind;
      }
      PickedOk(P, g2, row, u, pos_ind, neg_ind, solution);
    }

    /** Gate and output for one universal variable. */
    method OneOutput(b: AigBuilder, row: seq<nat>, u: Var, ghost num: nat)
      requires b.Valid() && b.OutputsCached() && RowUsable(b.current_aig_var, b.reserved, row) && Indexed(num)
        && |row| == num
      requires u > 0 && b.Pending(u)
      modifies b`ands, b`current_aig_var, b`node_cache, b`inv_node_cache, b`outputs
      ensures b.Valid() && b.OutputsCached() && RowUsable(b.current_aig_var, b.reserved, row)
      ensures Keeps(old(b.ands), old(b.current_aig_var), b.ands, b.current_aig_var, {u})
      ensures SolutionOk(P, b.ands, row, u, 2 * u) && b.outputs == old(b.outputs) + [2 * u]
    {
      ghost var gs, n := b.ands, b.current_aig_var;
      var solution := Solution(b, row, u, num);
      ghost var g1, n1 := b.ands, b.current_aig_var;
      ExtendsKeeps(gs, n, g1, n1, b.reserved);
      RowStable(gs, n, g1, n1, b.reserved, row, {});
      StillPending(gs, n, g1, n1, u);
      b.AddOutput(u, solution);
      OutputKeeps(g1, n1, b.ands, u, solution);
      ExtendsKeeps(gs, n, g1, n1, {u});
      KeepsTrans(gs, n, g1, n1, b.ands, n1, {u}, {u});
      Narrower(g1, n1, b.ands, n1, {u}, b.reserved);
      SolutionCopied(P, g1, n1, b.ands, b.reserved, row, u, solution, 2 * u);
    }

    static lemma StillPending(gs: seq<And>, n: nat, hs: seq<And>, m: nat, u: Var)
      requires AigBuilder.Extends(gs, n, hs, m) && u < n && forall g :: g in gs ==> LitVar(g.lhs) != u
      ensures forall g :: g in hs ==> LitVar(g.lhs) != u
    {
      forall k | 0 <= k < |hs| ensures LitVar(hs[k].lhs) != u {
        if k < |gs| {
          assert hs[k] == gs[k] && gs[k] in gs;
        }
      }
    }

    static lemma OutputKeeps(gs: seq<And>, n: nat, hs: seq<And>, u: Var, x: nat)
      requires hs == gs + [And(2 * u, x, x)]
      requires forall E: set<nat>, l: nat :: LitVar(l) != u ==> Value(hs, E, l) == Value(gs, E, l)
      ensures Keeps(gs, n, hs, n, {u})
    {
      LitVarOf(u);
      forall E: set<nat>, l: nat | AigBuilder.Usable(n, {u}, l) ensures Value(hs, E, l) == Value(gs, E, l) {
      }
    }

    static function Doubled(vars: seq<Var>): seq<nat> {
      seq(|vars|, i requires 0 <= i < |vars| => 2 * vars[i])
    }

    ghost predicate OutputsReady(b: AigBuilder, row: seq<nat>, vars: seq<Var>)
      reads b`current_aig_var
    {
      && RowUsable(b.current_aig_var, b.reserved, row)
      && NoDuplicates(vars) && Vars(vars) <= b.reserved && (forall u :: u in vars ==> 0 < u < b.current_aig_var)
    }

    /** Gates and outputs for all variables of a block. */
    method BlockOutputs(b: AigBuilder, row: seq<nat>, vars: seq<Var>, ghost num: nat)
      requires b.Valid() && b.OutputsCached() && OutputsReady(b, row, vars) && Indexed(num) && |row| == num
      requires NotDefined(b.ands, Vars(vars))
      modifies b`ands, b`current_aig_var, b`node_cache, b`inv_node_cache, b`outputs
      ensures b.Valid() && b.OutputsCached()
      ensures Keeps(old(b.ands), old(b.current_aig_var), b.ands, b.current_aig_var, Vars(vars))
      ensures BlockOutputsOk(P, b.ands, row, vars) && b.outputs == old(b.outputs) + Doubled(vars)
    {
      ghost var gs, n := b.ands, b.current_aig_var;
      var k := 0;
      while k < |vars|
        invariant 0 <= k <= |vars| && b.Valid() && b.OutputsCached() && OutputsReady(b, row, vars) && Indexed(num)
        invariant Keeps(gs, n, b.ands, b.current_aig_var, Vars(vars))
        invariant NotDefined(b.ands, Vars(vars[k..]))
        invariant BlockOutputsOk(P, b.ands, row, vars[..k]) && b.outputs == old(b.outputs) + Doubled(vars[..k])
      {
        ghost var g1, n1 := b.ands, b.current_aig_var;
        var u := vars[k];
        SplitVars(vars, k);
        assert b.Pending(u) by {
          assert forall j :: 0 <= j < |g1| ==> LitVar(g1[j].lhs) != u;
        }
        OneOutput(b, row, u, num);
        OutputStep(P, gs, n, g1, n1, b.ands, b.current_aig_var, b.reserved, row, vars, k);
        k := k + 1;
      }
      assert vars[..k] == vars;
    }

    static lemma SplitVars(vars: seq<Var>, k: nat)
      requires k < |vars| && NoDuplicates(vars)
      ensures Vars(vars[k..]) == {vars[k]} + Vars(vars[k + 1..]) && vars[k] !in Vars(vars[k + 1..])
      ensures vars[k] in vars && vars[k] !in vars[..k] && vars[..k + 1] == vars[..k] + [vars[k]]
      ensures Doubled(vars[..k + 1]) == Doubled(vars[..k]) + [2 * vars[k]]
      ensures Vars(vars[k + 1..]) <= Vars(vars)
      ensures forall u :: u in vars[..k] ==> u in vars
    {
      assert vars[k..] == [vars[k]] + vars[k + 1..];
    }

    static lemma OutputStep(P: Proof, g0: seq<And>, n0: nat, gs: seq<And>, n: nat, hs: seq<And>, m: nat,
        later: set<nat>, row: seq<nat>, vars: seq<Var>, k: nat)
      requires k < |vars| && NoDuplicates(vars) && Vars(vars) <= later && (forall u :: u in vars ==> 0 < u < n)
      requires Keeps(g0, n0, gs, n, Vars(vars)) && Keeps(gs, n, hs, m, {vars[k]}) && RowUsable(n, later, row)
      requires NotDefined(gs, Vars(vars[k..])) && BlockOutputsOk(P, gs, row, vars[..k])
      requires vars[k] in vars && SolutionOk(P, hs, row, vars[k], 2 * vars[k])
      ensures Keeps(g0, n0, hs, m, Vars(vars)) && NotDefined(hs, Vars(vars[k + 1..]))
      ensures BlockOutputsOk(P, hs, row, vars[..k + 1])
    {
      var u := vars[k];
      SplitVars(vars, k);
      KeepsTrans(g0, n0, gs, n, hs, m, Vars(vars), {u});
      NotDefinedStable(gs, n, hs, m, {u}, Vars(vars[k + 1..]));
      BlockOutputsStable(P, gs, n, hs, m, {u}, later, row, vars[..k]);
    }

    /** Constant outputs for a universal first block. */
    method FirstOutputs(b: AigBuilder, vars: seq<Var>, ghost num: nat)
      requires b.Valid() && b.OutputsCached() && OutputsReady(b, [], vars) && Indexed(num)
        && NotDefined(b.ands, Vars(vars))
      requires forall u :: u in vars ==> Annotated(P, MakeLit(u, false)) != Annotated(P, MakeLit(u, true))
      modifies b`ands, b`outputs, b`triv_out
      ensures b.Valid() && b.OutputsCached()
      ensures Keeps(old(b.ands), b.current_aig_var, b.ands, b.current_aig_var, Vars(vars))
      ensures ConstantsOk(P, b.ands, vars) && b.outputs == old(b.outputs) + Doubled(vars)
    {
      ghost var gs, n := b.ands, b.current_aig_var;
      var k := 0;
      while k < |vars|
        invariant 0 <= k <= |vars| && b.Valid() && b.OutputsCached() && OutputsReady(b, [], vars)
        invariant Keeps(gs, n, b.ands, n, Vars(vars))
        invariant NotDefined(b.ands, Vars(vars[k..]))
        invariant ConstantsOk(P, b.ands, vars[..k]) && b.outputs == old(b.outputs) + Doubled(vars[..k])
      {
        ghost var g1 := b.ands;
        var u := vars[k];
        SplitVars(vars, k);
        assert b.Pending(u) by {
          assert forall j :: 0 <= j < |g1| ==> LitVar(g1[j].lhs) != u;
        }
        var l_pos, l_neg := MakeLit(u, false), MakeLit(u, true);
        IndicatorsMean(P, indicators, num, l_pos);
        IndicatorsMean(P, indicators, num, l_neg);
        assert (l_neg in indicators && l_pos !in indicators) || (l_pos in indicators && l_neg !in indicators);
        var ind := if l_neg !in indicators then TRUE_LIT else FALSE_LIT;
        b.AddTrivialOutput(u, ind);
        OutputKeeps(g1, n, b.ands, u, ind);
        ConstantStep(P, gs, g1, b.ands, n, vars, k);
        k := k + 1;
      }
      assert vars[..k] == vars;
    }

    static lemma ConstantStep(P: Proof, g0: seq<And>, gs: seq<And>, hs: seq<And>, n: nat, vars: seq<Var>, k: nat)
      requires k < |vars| && NoDuplicates(vars) && (forall u :: u in vars ==> 0 < u < n)
      requires Keeps(g0, n, gs, n, Vars(vars)) && Keeps(gs, n, hs, n, {vars[k]})
      requires NotDefined(gs, Vars(vars[k..])) && ConstantsOk(P, gs, vars[..k])
      requires vars[k] in vars && forall E: set<nat> ::
        Value(hs, E, 2 * vars[k]) == !Annotated(P, MakeLit(vars[k], true))
      ensures Keeps(g0, n, hs, n, Vars(vars)) && NotDefined(hs, Vars(vars[k + 1..]))
      ensures ConstantsOk(P, hs, vars[..k + 1])
    {
      var u := vars[k];
      SplitVars(vars, k);
      KeepsTrans(g0, n, gs, n, hs, n, Vars(vars), {u});
      NotDefinedStable(gs, n, hs, n, {u}, Vars(vars[k + 1..]));
      ConstantsStable(P, gs, n, hs, n, {u}, vars[..k]);
    }

    // ----- the extraction -----

    /** The inputs are the existential variables. */
    static ghost predicate InputsOk(B: seq<Quant>, inputs: seq<nat>)
      requires AllBlocks(B)
    {
      && (forall d, v :: 0 <= d < |B| && B[d].kind == EXISTS && v in B[d].vars ==> 2 * v in inputs)
      && forall l :: l in inputs ==> exists d, v :: 0 <= d < |B| && B[d].kind == EXISTS && v in B[d].vars && l == 2 * v
    }

    /** The gate list's inputs: all existential variables. */
    static method AddInputs(b: AigBuilder, B: seq<Quant>)
      requires AllBlocks(B) && b.inputs == []
      modifies b`inputs
      ensures InputsOk(B, b.inputs)
    {
      var qi := 0;
      while qi < |B|
        invariant 0 <= qi <= |B|
        invariant forall d, v :: 0 <= d < qi && B[d].kind == EXISTS && v in B[d].vars ==> 2 * v in b.inputs
        invariant forall l :: l in b.inputs ==> exists d, v ::
          0 <= d < |B| && B[d].kind == EXISTS && v in B[d].vars && l == 2 * v
      {
        if B[qi].kind == EXISTS {
          b.inputs := b.inputs + Doubled(B[qi].vars);
          DoubledHas(B[qi].vars);
        }
        qi := qi + 1;
      }
    }

    static lemma DoubledHas(vars: seq<Var>)
      ensures forall v :: v in vars ==> 2 * v in Doubled(vars)
      ensures forall l :: l in Doubled(vars) ==> exists v :: v in vars && l == 2 * v
    {
      forall v | v in vars ensures 2 * v in Doubled(vars) {
        var i :| 0 <= i < |vars| && vars[i] == v;
        assert Doubled(vars)[i] == 2 * v;
      }
      forall l | l in Doubled(vars) ensures exists v :: v in vars && l == 2 * v {
        var i :| 0 <= i < |vars| && Doubled(vars)[i] == l;
        assert vars[i] in vars;
      }
    }

    /** The outputs of the universal blocks before done, in order. */
    static function OutputLits(B: seq<Quant>, done: nat): seq<nat>
      requires AllBlocks(B) && done <= |B|
    {
      if done == 0 then []
      else if B[done - 1].kind == FORALL then OutputLits(B, done - 1) + Doubled(B[done - 1].vars)
      else OutputLits(B, done - 1)
    }

    static lemma DerivationGood(P: Proof, pivots: seq<Var>, B: seq<Quant>, qd: seq<int>, matrix: seq<QClause>, num: nat)
      requires Checked(P, B, qd, matrix) && PivotsOk(P, pivots, |P.clauses|)
      requires forall v :: v in P.original ==> v < num
      ensures Setup(Derivation(P, pivots), num) && PivotsMatch(Derivation(P, pivots))
      ensures Sound(Derivation(P, pivots), B, qd, matrix) && Placed(Derivation(P, pivots), qd)
    {
      var D := Derivation(P, pivots);
      forall i, l | 0 <= i < |P.clauses| && l in P.clauses[i] ensures VarOf(l) < num {
        assert P.Copies(P.clauses[i]);
      }
      forall i | 1 <= i < |P.clauses| && pivots[i] == 0 ensures LeafCode(P, matrix, i) == 0 {
        assert Passes(P, matrix, i);
      }
      forall i | 0 <= i < |pivots| ensures pivots[i] < num {
        if i > 0 && pivots[i] != 0 {
          assert GoodNode(D, i);
        }
      }
      forall i, l | 1 <= i < |P.clauses| && l in D.Clause(i) ensures VarOf(l) in P.original
        && CopyDepth(P, qd, VarOf(l)) >= 0 {
        PlacedLit(D, B, qd, matrix, i, l);
      }
    }

    /** Every literal of the trace comes from a leaf, so its original is an existential variable. */
    static lemma {:induction false} PlacedLit(D: Derivation, B: seq<Quant>, qd: seq<int>, matrix: seq<QClause>, i: nat,
        l: Lit)
      requires Readable(D.P, B, qd, matrix) && |D.pivots| == |D.P.clauses| && LeavesOk(D, matrix)
      requires forall j :: 1 <= j < |D.P.clauses| && D.pivots[j] != 0 ==> GoodNode(D, j)
      requires 1 <= i < |D.P.clauses| && l in D.Clause(i)
      ensures VarOf(l) in D.P.original && CopyDepth(D.P, qd, VarOf(l)) >= 0
      decreases i
    {
      if D.pivots[i] == 0 {
        var e := LeafBlock(D.P, B, qd, matrix, i, l);
      } else {
        assert GoodNode(D, i);
        if l in D.Clause(D.Parent1(i)) {
          PlacedLit(D, B, qd, matrix, D.Parent1(i), l);
        } else {
          PlacedLit(D, B, qd, matrix, D.Parent2(i), l);
        }
      }
    }

    /** The originals of all leaf literals are inputs of the new graph. */
    static lemma LeavesAreInputs(b: AigBuilder, D: Derivation, B: seq<Quant>, qd: seq<int>, matrix: seq<QClause>)
      requires Sound(D, B, qd, matrix) && b.first_free == |qd| && b.reserved == OpenVars(B, 0)
      ensures LeafInputs(b, D)
    {
      forall i, l | 1 <= i < |D.P.clauses| && D.pivots[i] == 0 && l in D.Clause(i)
        ensures VarOf(l) in D.P.original && 0 < D.P.original[VarOf(l)] < |qd|
          && D.P.original[VarOf(l)] !in OpenVars(B, 0)
      {
        var e := LeafBlock(D.P, B, qd, matrix, i, l);
        var x := D.P.original[VarOf(l)];
        assert Depth(qd, x) == e;
        forall d | 0 <= d < |B| && x in B[d].vars ensures B[d].kind == EXISTS {
          assert Depth(qd, x) == d;
        }
      }
    }

    ghost predicate Underway(b: AigBuilder, D: Derivation, B: seq<Quant>, qd: seq<int>, num: nat, q: nat, qs: seq<nat>,
        tabs: seq<Tables<nat>>)
      reads this`indicators, b`ands, b`current_aig_var, b`node_cache, b`inv_node_cache, b`outputs, b`triv_out
    {
      && b.Valid() && b.OutputsCached() && b.first_free == |qd| && D.P == P && Indexed(num)
      && Circuit(D, B, qd, num, b.ands, b.current_aig_var, b.reserved, q, qs, tabs)
      && NotDefined(b.ands, OpenVars(B, q)) && b.outputs == OutputLits(B, q)
    }

    static lemma BlockReady(B: seq<Quant>, qd: seq<int>, q: nat)
      requires AllBlocks(B) && WellIndexed(B, qd) && q < |B| && B[q].kind == FORALL
      ensures NoDuplicates(B[q].vars) && Vars(B[q].vars) <= OpenVars(B, 0)
        && forall u :: u in B[q].vars ==> 0 < u < |qd|
    {
      DoneVars(B, qd, q + 1, q);
    }

    /** One universal block: its tables, then its outputs. */
    method ProcessBlock(b: AigBuilder, D: Derivation, B: seq<Quant>, qd: seq<int>, ghost num: nat, q: nat,
        T0: Tables<nat>, ghost qs: seq<nat>, ghost tabs: seq<Tables<nat>>) returns (T: Tables<nat>)
      requires Underway(b, D, B, qd, num, q, qs, tabs) && LeafInputs(b, D)
      requires 0 < q < |B| && B[q].kind == FORALL && T0 == tabs[|qs|]
      modifies b`ands, b`current_aig_var, b`node_cache, b`inv_node_cache, b`outputs
      ensures Underway(b, D, B, qd, num, q + 1, qs + [q], tabs + [T])
    {
      hide LeafInputs, Sound;
      ghost var g0, n0 := b.ands, b.current_aig_var;
      T := BlockTables(b, D, qd, AtBlock(q), num, T0);
      ghost var g1, n1 := b.ands, b.current_aig_var;
      OpenSplit(B, qd, q);
      ExtendsKeeps(g0, n0, g1, n1, {});
      NotDefinedStable(g0, n0, g1, n1, {}, OpenVars(B, q));
      forall E: set<nat> ensures Block(D, qd, E, q, num, At(g1, E, T0), At(g1, E, T)) {
        assert StageOk(D, qd, E, AtBlock(q), num, At(g1, E, T0), At(g1, E, T));
      }
      BlockReady(B, qd, q);
      BlockOutputs(b, T.cumulative[D.P.root], B[q].vars, num);
      CircuitBlock(D, B, qd, num, g0, n0, g1, n1, b.ands, b.current_aig_var, b.reserved, q, qs, tabs, T);
      NotDefinedStable(g1, n1, b.ands, b.current_aig_var, Vars(B[q].vars), OpenVars(B, q + 1));
    }

    static method LargestKey(m: map<Var, Var>) returns (k: Var)
      requires m != map[]
      ensures k in m && forall v :: v in m ==> v <= k
    {
      var keys := m.Keys;
      assert keys != {} by {
        var v :| v in m;
        assert v in keys;
      }
      k :| k in keys;
      var rest := keys - {k};
      while rest != {}
        invariant k in m && rest <= keys && forall v :: v in m && v !in rest ==> v <= k
        decreases |rest|
      {
        var v :| v in rest;
        if v > k { k := v; }
        rest := rest - {v};
      }
    }

    static function BlankTables(n: nat, num: nat): Tables<nat> {
      Tables(seq(n, _ => seq(num, _ => FALSE_LIT)), seq(n, _ => seq(num, _ => FALSE_LIT)), seq(n, _ => FALSE_LIT))
    }

    /** The tables before the first block. */
    method Prepare(b: AigBuilder, D: Derivation, B: seq<Quant>, qd: seq<int>, num: nat) returns (T: Tables<nat>)
      requires b.Valid() && b.first_free == b.current_aig_var == |qd| && b.ands == [] && b.outputs == []
      requires AllBlocks(B) && B != [] && WellIndexed(B, qd) && b.reserved == OpenVars(B, 0)
      requires Setup(D, num) && Placed(D, qd) && LeafInputs(b, D) && D.P == P && Indexed(num)
      modifies b`ands, b`current_aig_var, b`node_cache, b`inv_node_cache
      ensures Underway(b, D, B, qd, num, 0, [], [T])
    {
      var S := BlankTables(|D.P.clauses|, num);
      ConstantUsable(b);
      T := BlockTables(b, D, qd, Start, num, S);
      ghost var gs, n := b.ands, b.current_aig_var;
      forall E: set<nat> ensures Initial(D, num, At(gs, E, T)) {
        assert StageOk(D, qd, E, Start, num, At(gs, E, S), At(gs, E, T));
      }
      CircuitStart(D, B, qd, num, gs, n, b.reserved, T);
      OpenSplit(B, qd, 0);
      ExtendsKeeps([], |qd|, gs, n, {});
      NotDefinedStable([], |qd|, gs, n, {}, OpenVars(B, 0));
    }

    /** The constants of a universal first block. */
    method FirstBlock(b: AigBuilder, D: Derivation, B: seq<Quant>, ghost qd: seq<int>, ghost num: nat,
        ghost tabs: seq<Tables<nat>>)
      requires Underway(b, D, B, qd, num, 0, [], tabs) && FirstBlockDecisive(P, B)
      modifies b`ands, b`outputs, b`triv_out
      ensures Underway(b, D, B, qd, num, FirstProcessed(B), [], tabs)
    {
      if B[0].kind == FORALL {
        ghost var gs, n := b.ands, b.current_aig_var;
        OpenSplit(B, qd, 0);
        BlockReady(B, qd, 0);
        FirstOutputs(b, B[0].vars, num);
        CircuitConstants(D, B, qd, num, gs, n, b.ands, n, b.reserved, [], tabs);
        NotDefinedStable(gs, n, b.ands, n, Vars(B[0].vars), OpenVars(B, 1));
      }
    }

    method NextBlock(b: AigBuilder, D: Derivation, B: seq<Quant>, qd: seq<int>, ghost num: nat, q: nat, T0: Tables<nat>,
        ghost qs: seq<nat>, ghost tabs: seq<Tables<nat>>)
        returns (T: Tables<nat>, ghost qs': seq<nat>, ghost tabs': seq<Tables<nat>>)
      requires Underway(b, D, B, qd, num, q, qs, tabs) && LeafInputs(b, D)
      requires FirstProcessed(B) <= q < |B| && T0 == tabs[|qs|]
      modifies b`ands, b`current_aig_var, b`node_cache, b`inv_node_cache, b`outputs
      ensures Underway(b, D, B, qd, num, q + 1, qs', tabs') && T == tabs'[|qs'|]
    {
      T, qs', tabs' := T0, qs, tabs;
      if B[q].kind == EXISTS {
        CircuitSkip(D, B, qd, num, b.ands, b.current_aig_var, b.reserved, q, qs, tabs);
        OpenSplit(B, qd, q);
      } else {
        T := ProcessBlock(b, D, B, qd, num, q, T0, qs, tabs);
        qs', tabs' := qs + [q], tabs + [T];
      }
    }

    /** All further universal blocks but the last. */
    method ProcessBlocks(b: AigBuilder, D: Derivation, B: seq<Quant>, qd: seq<int>, ghost num: nat, T0: Tables<nat>)
      returns (ghost done: nat, ghost qs: seq<nat>, ghost tabs: seq<Tables<nat>>)
      requires AllBlocks(B) && B != [] && Underway(b, D, B, qd, num, FirstProcessed(B), [], [T0]) && LeafInputs(b, D)
      modifies b`ands, b`current_aig_var, b`node_cache, b`inv_node_cache, b`outputs
      ensures Underway(b, D, B, qd, num, done, qs, tabs) && |B| - 1 <= done <= |B|
    {
      var T := T0;
      qs, tabs := [], [T];
      var qi := if B[0].kind == FORALL then 1 else 0;
      while qi < |B| - 1
        invariant qi <= |B|
        invariant Underway(b, D, B, qd, num, qi, qs, tabs) && LeafInputs(b, D) && T == tabs[|qs|]
      {
        T, qs, tabs := NextBlock(b, D, B, qd, num, qi, T, qs, tabs);
        qi := qi + 1;
      }
      done := qi;
    }

    /** The whole extraction. The circuit it leaves behind gives every universal variable, except
        those of the last block, an output that solves its block. */
    method Extract(qbf: Formula) returns (b: AigBuilder, ghost num: nat, ghost done: nat, ghost qs: seq<nat>,
        ghost tabs: seq<Tables<nat>>)
      requires qbf.Valid() && qbf.Blocks() == qbf.prefix && qbf.quant_depth != []
        && Checked(P, qbf.prefix, qbf.quant_depth, qbf.matrix)
      requires FirstBlockDecisive(P, qbf.prefix)
      modifies this`pivots, this`indicators
      ensures fresh(b) && b.Valid()
      ensures |pivots| == |P.clauses| && done <= |qbf.prefix| && |qbf.prefix| - 1 <= done
      ensures Circuit(Derivation(P, pivots), qbf.prefix, qbf.quant_depth, num, b.ands, b.current_aig_var, b.reserved,
        done, qs, tabs)
      ensures Sound(Derivation(P, pivots), qbf.prefix, qbf.quant_depth, qbf.matrix)
      ensures b.outputs == OutputLits(qbf.prefix, done) && InputsOk(qbf.prefix, b.inputs)
      ensures forall v :: v in P.annotation ==> v < num
    {
      hide InputsOk, Circuit;
      var B, qd := qbf.prefix, qbf.quant_depth;
      CollectPivots(B, qd, qbf.matrix);
      var largest := LargestKey(P.original);
      var num_prop := largest + 1;
      num := num_prop;
      CollectIndicators(num_prop);
      var D := Derivation(P, pivots);
      DerivationGood(P, pivots, B, qd, qbf.matrix, num);
      OpenSplit(B, qd, 0);
      b := new AigBuilder(|qd|, OpenVars(B, 0));
      AddInputs(b, B);
      LeavesAreInputs(b, D, B, qd, qbf.matrix);
      var T := Prepare(b, D, B, qd, num_prop);
      FirstBlock(b, D, B, qd, num, [T]);
      done, qs, tabs := ProcessBlocks(b, D, B, qd, num, T);
      var permanent := b.CheckOscillation();
    }
  }
}
