/** One clause of the trace during extraction: its new table rows as literals of the graph. */
module ExtractSteps {
  import opened Literals
  import opened FerpProofs
  import opened ExtractTheory
  import opened Aigs

  // ----- tables of literals, read at an input assignment -----

  ghost function RowAt(gs: seq<And>, E: set<nat>, row: seq<nat>): (r: seq<bool>)
    ensures |r| == |row|
  {
    seq(|row|, i requires 0 <= i < |row| => Value(gs, E, row[i]))
  }

  ghost function At(gs: seq<And>, E: set<nat>, T: Tables<nat>): (r: Tables<bool>)
    ensures |r.active| == |T.active| && |r.cumulative| == |T.cumulative| && |r.top| == |T.top|
    ensures forall i :: 0 <= i < |T.active| ==> |r.active[i]| == |T.active[i]|
    ensures forall i :: 0 <= i < |T.cumulative| ==> |r.cumulative[i]| == |T.cumulative[i]|
  {
    Tables(seq(|T.active|, i requires 0 <= i < |T.active| => RowAt(gs, E, T.active[i])),
           seq(|T.cumulative|, i requires 0 <= i < |T.cumulative| => RowAt(gs, E, T.cumulative[i])),
           RowAt(gs, E, T.top))
  }

  ghost predicate RowUsable(n: nat, later: set<nat>, row: seq<nat>) {
    forall i :: 0 <= i < |row| ==> AigBuilder.Usable(n, later, row[i])
  }

  ghost predicate TablesUsable(n: nat, later: set<nat>, T: Tables<nat>) {
    && (forall i :: 0 <= i < |T.active| ==> RowUsable(n, later, T.active[i]))
    && (forall i :: 0 <= i < |T.cumulative| ==> RowUsable(n, later, T.cumulative[i]))
    && RowUsable(n, later, T.top)
  }

  /** The graph only grows, by gates of new variables and of open ones, and every variable known
      before and not open keeps its value. */
  ghost predicate Keeps(gs: seq<And>, n: nat, hs: seq<And>, m: nat, open: set<nat>) {
    && gs <= hs && n <= m
    && (forall k :: |gs| <= k < |hs| ==> LitVar(hs[k].lhs) >= n || LitVar(hs[k].lhs) in open)
    && forall E: set<nat>, l: nat :: AigBuilder.Usable(n, open, l) ==> Value(hs, E, l) == Value(gs, E, l)
  }

  lemma ExtendsKeeps(gs: seq<And>, n: nat, hs: seq<And>, m: nat, open: set<nat>)
    requires AigBuilder.Extends(gs, n, hs, m)
    ensures Keeps(gs, n, hs, m, open)
  {
  }

  lemma KeepsTrans(gs: seq<And>, n: nat, hs: seq<And>, m: nat, fs: seq<And>, k: nat, open: set<nat>, open': set<nat>)
    requires Keeps(gs, n, hs, m, open) && Keeps(hs, m, fs, k, open') && open' <= open
    ensures Keeps(gs, n, fs, k, open)
  {
    forall E: set<nat>, l: nat | AigBuilder.Usable(n, open, l) ensures Value(fs, E, l) == Value(gs, E, l) {
      assert AigBuilder.Usable(m, open', l);
    }
  }

  lemma RowStable(gs: seq<And>, n: nat, hs: seq<And>, m: nat, later: set<nat>, row: seq<nat>, E: set<nat>)
    requires Keeps(gs, n, hs, m, later) && RowUsable(n, later, row)
    ensures RowAt(hs, E, row) == RowAt(gs, E, row) && RowUsable(m, later, row)
  {
    forall i | 0 <= i < |row| ensures Value(hs, E, row[i]) == Value(gs, E, row[i]) {
      assert AigBuilder.Usable(n, later, row[i]);
    }
  }

  /** Entries keep their meaning while the graph grows. */
  lemma AtStable(gs: seq<And>, n: nat, hs: seq<And>, m: nat, later: set<nat>, T: Tables<nat>, E: set<nat>)
    requires Keeps(gs, n, hs, m, later) && TablesUsable(n, later, T)
    ensures At(hs, E, T) == At(gs, E, T) && TablesUsable(m, later, T)
  {
    forall i | 0 <= i < |T.active| ensures RowAt(hs, E, T.active[i]) == RowAt(gs, E, T.active[i])
      && RowUsable(m, later, T.active[i]) {
      RowStable(gs, n, hs, m, later, T.active[i], E);
    }
    forall i | 0 <= i < |T.cumulative| ensures RowAt(hs, E, T.cumulative[i]) == RowAt(gs, E, T.cumulative[i])
      && RowUsable(m, later, T.cumulative[i]) {
      RowStable(gs, n, hs, m, later, T.cumulative[i], E);
    }
    RowStable(gs, n, hs, m, later, T.top, E);
    assert At(hs, E, T).active == At(gs, E, T).active;
    assert At(hs, E, T).cumulative == At(gs, E, T).cumulative;
  }

  function Install(T: Tables<nat>, i: nat, a: seq<nat>, c: seq<nat>, t: nat): Tables<nat>
    requires i < |T.active| && i < |T.cumulative| && i < |T.top|
  {
    Tables(T.active[i := a], T.cumulative[i := c], T.top[i := t])
  }

  // ----- inputs -----

  function MakeAigerLit(v: nat, s: bool): nat {
    2 * v + if s then 1 else 0
  }

  /** The originals of the clause's copies are inputs of the graph. */
  ghost predicate InputsReady(b: AigBuilder, P: Proof, c: seq<Lit>) {
    forall l :: l in c ==>
      VarOf(l) in P.original && 0 < P.original[VarOf(l)] < b.first_free && P.original[VarOf(l)] !in b.reserved
  }

  lemma InputLit(b: AigBuilder, P: Proof, c: seq<Lit>, l: Lit, E: set<nat>)
    requires b.Valid() && InputsReady(b, P, c) && l in c
    ensures b.Live(MakeAigerLit(P.original[VarOf(l)], !Sign(l)))
    ensures Value(b.ands, E, MakeAigerLit(P.original[VarOf(l)], !Sign(l))) == !Holds(P, E, l)
  {
    var x := P.original[VarOf(l)];
    b.InputValue(x, E);
    LitVarOf(x);
    if !Sign(l) {
      assert MakeAigerLit(x, true) == Not(2 * x);
      NotValue(b.ands, E, 2 * x);
    }
  }

  lemma HoldsAtAppend(P: Proof, qd: seq<int>, E: set<Var>, d: int, c: seq<Lit>, l: Lit)
    requires P.Copies(c) && P.Copies(c + [l]) && VarOf(l) in P.original
    ensures HoldsAt(P, qd, E, d, c + [l]) <==>
      HoldsAt(P, qd, E, d, c) || (CopyDepth(P, qd, VarOf(l)) == d && Holds(P, E, l))
  {
    assert forall x :: x in c + [l] <==> x in c || x == l;
  }

  // ----- leaves -----

  /** Conjoins the negations of the literals of one existential block to the cube of the leaf. */
  method LeafCube(b: AigBuilder, P: Proof, qd: seq<int>, d: int, c: seq<Lit>, top0: nat) returns (out: nat)
    requires b.Valid() && b.Live(top0) && InputsReady(b, P, c) && P.Copies(c)
    modifies b`ands, b`current_aig_var, b`node_cache, b`inv_node_cache
    ensures b.Valid() && b.Live(out)
    ensures AigBuilder.Extends(old(b.ands), old(b.current_aig_var), b.ands, b.current_aig_var)
    ensures old(b.inv_node_cache.Keys) <= b.inv_node_cache.Keys
    ensures forall E: set<nat> :: Value(b.ands, E, out) == !(Value(b.ands, E, top0) || HoldsAt(P, qd, E, d, c))
  {
    out := Not(top0);
    ghost var gs, n := b.ands, b.current_aig_var;
    forall E: set<nat> ensures Value(gs, E, out) == !Value(gs, E, top0) {
      NotValue(gs, E, top0);
    }
    var li := 0;
    while li < |c|
      invariant 0 <= li <= |c| && P.Copies(c[..li])
      invariant b.Valid() && b.Live(out) && b.Live(top0)
      invariant AigBuilder.Extends(gs, n, b.ands, b.current_aig_var)
      invariant old(b.inv_node_cache.Keys) <= b.inv_node_cache.Keys
      invariant forall E: set<nat> ::
        Value(b.ands, E, out) == !(Value(b.ands, E, top0) || HoldsAt(P, qd, E, d, c[..li]))
    {
      ghost var g1, n1 := b.ands, b.current_aig_var;
      out := CubeStep(b, P, qd, d, c, li, out, top0);
      AigBuilder.ExtendsTrans(gs, n, g1, n1, b.ands, b.current_aig_var);
      li := li + 1;
    }
    assert c[..li] == c;
  }

  /** Adds the literal at li to the cube if it belongs to the block. */
  method CubeStep(b: AigBuilder, P: Proof, qd: seq<int>, d: int, c: seq<Lit>, li: nat, cube: nat, ghost top0: nat)
    returns (out: nat)
    requires b.Valid() && b.Live(cube) && b.Live(top0) && InputsReady(b, P, c) && P.Copies(c)
    requires li < |c| && P.Copies(c[..li])
    requires forall E: set<nat> :: Value(b.ands, E, cube) == !(Value(b.ands, E, top0) || HoldsAt(P, qd, E, d, c[..li]))
    modifies b`ands, b`current_aig_var, b`node_cache, b`inv_node_cache
    ensures b.Valid() && b.Live(out) && b.Live(top0)
    ensures AigBuilder.Extends(old(b.ands), old(b.current_aig_var), b.ands, b.current_aig_var)
    ensures old(b.inv_node_cache.Keys) <= b.inv_node_cache.Keys
    ensures P.Copies(c[..li + 1])
    ensures forall E: set<nat> ::
      Value(b.ands, E, out) == !(Value(b.ands, E, top0) || HoldsAt(P, qd, E, d, c[..li + 1]))
  {
    var l := c[li];
    out := cube;
    assert l in c && c[..li + 1] == c[..li] + [l];
    forall E: set<nat>
      ensures HoldsAt(P, qd, E, d, c[..li + 1]) <==>
              HoldsAt(P, qd, E, d, c[..li]) || (CopyDepth(P, qd, VarOf(l)) == d && Holds(P, E, l))
    {
      HoldsAtAppend(P, qd, E, d, c[..li], l);
    }
    if CopyDepth(P, qd, VarOf(l)) == d {
      out := AndInput(b, P, c, l, cube, top0);
    }
  }

  method AndInput(b: AigBuilder, P: Proof, ghost c: seq<Lit>, l: Lit, cube: nat, ghost other: nat) returns (out: nat)
    requires b.Valid() && b.Live(cube) && b.Live(other) && InputsReady(b, P, c) && l in c
    modifies b`ands, b`current_aig_var, b`node_cache, b`inv_node_cache
    ensures b.Valid() && b.Live(out) && b.Live(other)
    ensures AigBuilder.Extends(old(b.ands), old(b.current_aig_var), b.ands, b.current_aig_var)
    ensures old(b.inv_node_cache.Keys) <= b.inv_node_cache.Keys
    ensures forall E: set<nat> :: Value(b.ands, E, out) == (Value(old(b.ands), E, cube) && !Holds(P, E, l))
    ensures forall E: set<nat> :: Value(b.ands, E, other) == Value(old(b.ands), E, other)
  {
    hide AigBuilder.Shares, WellFormed, AigBuilder.GatesUsable, AigBuilder.CachesAgree;
    var rhs := MakeAigerLit(P.original[VarOf(l)], !Sign(l));
    forall E: set<nat> ensures b.Live(rhs) && Value(b.ands, E, rhs) == !Holds(P, E, l) {
      InputLit(b, P, c, l, E);
    }
    InputLit(b, P, c, l, {});
    out := b.MakeAND(cube, rhs);
  }

  /** The new entries of a leaf: nothing for assigned copies, the cube for the others. */
  method LeafRow(P: Proof, qd: seq<int>, q: int, c: seq<Lit>, row: seq<nat>, out: nat) returns (row': seq<nat>)
    requires P.Copies(c) && forall l :: l in c ==> VarOf(l) < |row|
    ensures |row'| == |row|
    ensures forall v :: 0 <= v < |row| && !HasVar(c, v) ==> row'[v] == row[v]
    ensures forall v :: 0 <= v < |row| && HasVar(c, v) ==>
              v in P.original && row'[v] == if CopyDepth(P, qd, v) < q then FALSE_LIT else out
  {
    row' := row;
    var li := 0;
    while li < |c|
      invariant 0 <= li <= |c| && |row'| == |row|
      invariant forall v :: 0 <= v < |row| && !HasVar(c[..li], v) ==> row'[v] == row[v]
      invariant forall v :: 0 <= v < |row| && HasVar(c[..li], v) ==>
                  v in P.original && row'[v] == if CopyDepth(P, qd, v) < q then FALSE_LIT else out
    {
      var l := c[li];
      assert l in c && c[..li + 1] == c[..li] + [l];
      forall v | v > 0 ensures HasVar(c[..li + 1], v) <==> HasVar(c[..li], v) || v == VarOf(l) {
        assert l == MakeLit(VarOf(l), false) || l == MakeLit(VarOf(l), true);
      }
      row' := row'[VarOf(l) := if CopyDepth(P, qd, VarOf(l)) < q then FALSE_LIT else out];
      li := li + 1;
    }
    assert c[..li] == c;
  }

  // ----- inner nodes -----

  /** The two candidates: what the second parent contributes, and what either parent does. */
  method Candidates(b: AigBuilder, c3: nat, x1: nat, x2: nat) returns (else_branch: nat, resolv: nat)
    requires b.Valid() && b.Live(c3) && b.Live(x1) && b.Live(x2)
    modifies b`ands, b`current_aig_var, b`node_cache, b`inv_node_cache
    ensures b.Valid() && b.Live(else_branch) && b.Live(resolv)
    ensures AigBuilder.Extends(old(b.ands), old(b.current_aig_var), b.ands, b.current_aig_var)
    ensures old(b.inv_node_cache.Keys) <= b.inv_node_cache.Keys
    ensures forall E: set<nat> ::
      Value(b.ands, E, else_branch) == (Value(old(b.ands), E, c3) && Value(old(b.ands), E, x2))
    ensures forall E: set<nat> :: Value(b.ands, E, resolv) == (Value(old(b.ands), E, x1) || Value(old(b.ands), E, x2))
  {
    hide AigBuilder.Shares, WellFormed, AigBuilder.GatesUsable, AigBuilder.CachesAgree;
    ghost var gs, n := b.ands, b.current_aig_var;
    else_branch := b.MakeAND(c3, x2);
    ghost var g1, n1 := b.ands, b.current_aig_var;
    resolv := b.MakeOR(x1, x2);
    AigBuilder.ExtendsTrans(gs, n, g1, n1, b.ands, b.current_aig_var);
  }

  /** The nested choice between the candidates. */
  method Pick(b: AigBuilder, c1: nat, c2: nat, resolv: nat, x1: nat, else_branch: nat) returns (r: nat)
    requires b.Valid() && b.Live(c1) && b.Live(c2) && b.Live(resolv) && b.Live(x1) && b.Live(else_branch)
    modifies b`ands, b`current_aig_var, b`node_cache, b`inv_node_cache
    ensures b.Valid() && b.Live(r)
    ensures AigBuilder.Extends(old(b.ands), old(b.current_aig_var), b.ands, b.current_aig_var)
    ensures old(b.inv_node_cache.Keys) <= b.inv_node_cache.Keys
    ensures forall E: set<nat> :: Value(b.ands, E, r) ==
              if Value(old(b.ands), E, c1) then Value(old(b.ands), E, resolv)
              else if Value(old(b.ands), E, c2) then Value(old(b.ands), E, x1)
              else Value(old(b.ands), E, else_branch)
  {
    ghost var gs, n := b.ands, b.current_aig_var;
    var interm := b.MakeITE(c2, x1, else_branch);
    ghost var g1, n1 := b.ands, b.current_aig_var;
    r := b.MakeITE(c1, resolv, interm);
    AigBuilder.ExtendsTrans(gs, n, g1, n1, b.ands, b.current_aig_var);
  }

  /** One entry of a resolvent from the entries of its parents. */
  method Entry(b: AigBuilder, prev: nat, c1: nat, c2: nat, c3: nat, x1: nat, x2: nat) returns (r: nat)
    requires b.Valid() && b.Live(prev) && b.Live(c1) && b.Live(c2) && b.Live(c3) && b.Live(x1) && b.Live(x2)
    modifies b`ands, b`current_aig_var, b`node_cache, b`inv_node_cache
    ensures b.Valid() && b.Live(r)
    ensures AigBuilder.Extends(old(b.ands), old(b.current_aig_var), b.ands, b.current_aig_var)
    ensures old(b.inv_node_cache.Keys) <= b.inv_node_cache.Keys
    ensures forall E: set<nat> :: Value(b.ands, E, r) == EntryValue(old(b.ands), E, prev, c1, c2, c3, x1, x2)
  {
    hide AigBuilder.Shares, WellFormed, AigBuilder.GatesUsable, AigBuilder.CachesAgree;
    ghost var gs, n := b.ands, b.current_aig_var;
    var else_branch, resolv := Candidates(b, c3, x1, x2);
    ghost var g1, n1 := b.ands, b.current_aig_var;
    var pick := Pick(b, c1, c2, resolv, x1, else_branch);
    ghost var g2, n2 := b.ands, b.current_aig_var;
    AigBuilder.ExtendsTrans(gs, n, g1, n1, g2, n2);
    r := b.MakeAND(prev, pick);
    AigBuilder.ExtendsTrans(gs, n, g2, n2, b.ands, b.current_aig_var);
    forall E: set<nat> ensures Value(b.ands, E, r) == EntryValue(gs, E, prev, c1, c2, c3, x1, x2) {
      assert Value(g1, E, c1) == Value(gs, E, c1);
      assert Value(g1, E, c2) == Value(gs, E, c2);
      assert Value(g1, E, x1) == Value(gs, E, x1);
      assert Value(g2, E, prev) == Value(gs, E, prev);
      assert Value(g2, E, pick) == Choice(Value(gs, E, c1), Value(gs, E, c2), Value(gs, E, c3), Value(gs, E, x1),
        Value(gs, E, x2));
      assert Value(b.ands, E, r) == (Value(g2, E, prev) && Value(g2, E, pick));
    }
  }

  ghost predicate Choice(c1: bool, c2: bool, c3: bool, x1: bool, x2: bool) {
    if c1 then x1 || x2 else if c2 then x1 else c3 && x2
  }

  ghost predicate EntryValue(gs: seq<And>, E: set<nat>, prev: nat, c1: nat, c2: nat, c3: nat, x1: nat, x2: nat) {
    && Value(gs, E, prev)
    && Choice(Value(gs, E, c1), Value(gs, E, c2), Value(gs, E, c3), Value(gs, E, x1), Value(gs, E, x2))
  }

  /** One row of a resolvent; the entry of the pivot (skip) becomes false. */
  method NodeRow(b: AigBuilder, prev: seq<nat>, c1: nat, c2: nat, c3: nat, row1: seq<nat>, row2: seq<nat>, skip: nat)
    returns (row: seq<nat>)
    requires b.Valid() && b.Live(c1) && b.Live(c2) && b.Live(c3)
    requires |prev| == |row1| == |row2| > 0
    requires RowUsable(b.current_aig_var, b.reserved, prev)
    requires RowUsable(b.current_aig_var, b.reserved, row1) && RowUsable(b.current_aig_var, b.reserved, row2)
    modifies b`ands, b`current_aig_var, b`node_cache, b`inv_node_cache
    ensures b.Valid() && |row| == |prev| && RowUsable(b.current_aig_var, b.reserved, row) && row[0] == prev[0]
    ensures AigBuilder.Extends(old(b.ands), old(b.current_aig_var), b.ands, b.current_aig_var)
    ensures old(b.inv_node_cache.Keys) <= b.inv_node_cache.Keys
    ensures RowFormula(b.ands, row, prev, c1, c2, c3, row1, row2, skip)
  {
    ghost var gs, n := b.ands, b.current_aig_var;
    row := prev;
    var vi := 1;
    while vi < |row|
      invariant 1 <= vi <= |row| == |prev| && row[0] == prev[0]
      invariant b.Valid() && RowUsable(b.current_aig_var, b.reserved, row)
      invariant AigBuilder.Extends(gs, n, b.ands, b.current_aig_var)
      invariant old(b.inv_node_cache.Keys) <= b.inv_node_cache.Keys
      invariant forall v :: vi <= v < |row| ==> row[v] == prev[v]
      invariant forall E: set<nat>, v :: 0 < v < vi ==>
                  Value(b.ands, E, row[v]) ==
                  (v != skip && EntryValue(gs, E, prev[v], c1, c2, c3, row1[v], row2[v]))
    {
      ghost var g1, n1 := b.ands, b.current_aig_var;
      if vi == skip {
        row := row[vi := FALSE_LIT];
        forall E: set<nat> ensures !Value(b.ands, E, FALSE_LIT) {
          AigBuilder.ConstantValue(b.ands, E);
        }
        ConstantUsable(b);
      } else {
        UsableLater(n, n1, b.reserved, row1[vi]);
        UsableLater(n, n1, b.reserved, row2[vi]);
        UsableLater(n, n1, b.reserved, c1);
        UsableLater(n, n1, b.reserved, c2);
        UsableLater(n, n1, b.reserved, c3);
        var r := Entry(b, row[vi], c1, c2, c3, row1[vi], row2[vi]);
        AigBuilder.ExtendsTrans(gs, n, g1, n1, b.ands, b.current_aig_var);
        ExtendsKeeps(g1, n1, b.ands, b.current_aig_var, b.reserved);
        forall E: set<nat>
          ensures Value(b.ands, E, r) == EntryValue(gs, E, prev[vi], c1, c2, c3, row1[vi], row2[vi])
          ensures RowAt(b.ands, E, row) == RowAt(g1, E, row)
        {
          SameEntry(gs, n, g1, n1, b.reserved, E, prev[vi], c1, c2, c3, row1[vi], row2[vi]);
          RowStable(g1, n1, b.ands, b.current_aig_var, b.reserved, row, E);
        }
        RowStable(g1, n1, b.ands, b.current_aig_var, b.reserved, row, {});
        ghost var was := row;
        row := row[vi := r];
        forall E: set<nat>, v | 0 < v < vi
          ensures Value(b.ands, E, row[v]) == (v != skip && EntryValue(gs, E, prev[v], c1, c2, c3, row1[v], row2[v]))
        {
          assert RowAt(b.ands, E, was)[v] == RowAt(g1, E, was)[v];
        }
      }
      vi := vi + 1;
    }
    forall E: set<nat>, v | 0 < v < |row|
      ensures Value(b.ands, E, row[v]) == (v != skip && EntryValue(b.ands, E, prev[v], c1, c2, c3, row1[v], row2[v]))
    {
      SameEntry(gs, n, b.ands, b.current_aig_var, b.reserved, E, prev[v], c1, c2, c3, row1[v], row2[v]);
    }
  }

  /** Every entry of the row but the pivot's is the one its parents' entries call for. */
  ghost predicate RowFormula(gs: seq<And>, row: seq<nat>, prev: seq<nat>, c1: nat, c2: nat, c3: nat,
                             row1: seq<nat>, row2: seq<nat>, skip: nat)
    requires |row| == |prev| == |row1| == |row2|
  {
    forall E: set<nat>, v :: 0 < v < |row| ==>
      Value(gs, E, row[v]) == (v != skip && EntryValue(gs, E, prev[v], c1, c2, c3, row1[v], row2[v]))
  }

  lemma RowFormulaStable(gs: seq<And>, n: nat, hs: seq<And>, m: nat, later: set<nat>, row: seq<nat>, prev: seq<nat>,
                         c1: nat, c2: nat, c3: nat, row1: seq<nat>, row2: seq<nat>, skip: nat)
    requires AigBuilder.Extends(gs, n, hs, m) && |row| == |prev| == |row1| == |row2|
    requires RowUsable(n, later, row) && RowUsable(n, later, prev) && RowUsable(n, later, row1)
      && RowUsable(n, later, row2)
    requires AigBuilder.Usable(n, later, c1) && AigBuilder.Usable(n, later, c2) && AigBuilder.Usable(n, later, c3)
    requires RowFormula(gs, row, prev, c1, c2, c3, row1, row2, skip)
    ensures RowFormula(hs, row, prev, c1, c2, c3, row1, row2, skip)
  {
    forall E: set<nat>, v | 0 < v < |row|
      ensures Value(hs, E, row[v]) == (v != skip && EntryValue(hs, E, prev[v], c1, c2, c3, row1[v], row2[v]))
    {
      SameEntry(gs, n, hs, m, later, E, prev[v], c1, c2, c3, row1[v], row2[v]);
      assert AigBuilder.Usable(n, later, row[v]);
    }
  }

  /** The three conditions on the pivot's entries in the parents. */
  method Conditions(b: AigBuilder, a1: nat, t1: nat, a2: nat, t2: nat) returns (c1: nat, c2: nat, c3: nat)
    requires b.Valid() && b.Live(a1) && b.Live(t1) && b.Live(a2) && b.Live(t2)
    modifies b`ands, b`current_aig_var, b`node_cache, b`inv_node_cache
    ensures b.Valid() && b.Live(c1) && b.Live(c2) && b.Live(c3)
    ensures AigBuilder.Extends(old(b.ands), old(b.current_aig_var), b.ands, b.current_aig_var)
    ensures old(b.inv_node_cache.Keys) <= b.inv_node_cache.Keys
    ensures forall E: set<nat> :: Value(b.ands, E, c1) == (Value(b.ands, E, a1) && Value(b.ands, E, a2))
    ensures forall E: set<nat> :: Value(b.ands, E, c2) == (!Value(b.ands, E, a1) && !Value(b.ands, E, t1))
    ensures forall E: set<nat> :: Value(b.ands, E, c3) == (!Value(b.ands, E, a2) && !Value(b.ands, E, t2))
  {
    hide AigBuilder.Shares, WellFormed, AigBuilder.GatesUsable, AigBuilder.CachesAgree;
    ghost var gs, n := b.ands, b.current_aig_var;
    forall E: set<nat>
      ensures Value(gs, E, Not(a1)) == !Value(gs, E, a1) && Value(gs, E, Not(t1)) == !Value(gs, E, t1)
      ensures Value(gs, E, Not(a2)) == !Value(gs, E, a2) && Value(gs, E, Not(t2)) == !Value(gs, E, t2)
    {
      NotValue(gs, E, a1);
      NotValue(gs, E, t1);
      NotValue(gs, E, a2);
      NotValue(gs, E, t2);
    }
    c1 := b.MakeAND(a1, a2);
    ghost var g1, n1 := b.ands, b.current_aig_var;
    c2 := b.MakeAND(Not(a1), Not(t1));
    ghost var g2, n2 := b.ands, b.current_aig_var;
    AigBuilder.ExtendsTrans(gs, n, g1, n1, g2, n2);
    c3 := b.MakeAND(Not(a2), Not(t2));
    AigBuilder.ExtendsTrans(gs, n, g2, n2, b.ands, b.current_aig_var);
    AigBuilder.ExtendsTrans(g1, n1, g2, n2, b.ands, b.current_aig_var);
    forall E: set<nat>
      ensures Value(b.ands, E, c1) == (Value(b.ands, E, a1) && Value(b.ands, E, a2))
      ensures Value(b.ands, E, c2) == (!Value(b.ands, E, a1) && !Value(b.ands, E, t1))
      ensures Value(b.ands, E, c3) == (!Value(b.ands, E, a2) && !Value(b.ands, E, t2))
    {
      assert Value(b.ands, E, c1) == Value(g1, E, c1);
      assert Value(b.ands, E, c2) == Value(g2, E, c2);
      assert Value(b.ands, E, a1) == Value(gs, E, a1) && Value(b.ands, E, t1) == Value(gs, E, t1);
      assert Value(b.ands, E, a2) == Value(gs, E, a2) && Value(b.ands, E, t2) == Value(gs, E, t2);
    }
  }

  /** A resolvent is satisfied when it was before, or when none of the conditions holds. */
  method NodeTop(b: AigBuilder, t: nat, c1: nat, c2: nat, c3: nat) returns (r: nat)
    requires b.Valid() && b.Live(t) && b.Live(c1) && b.Live(c2) && b.Live(c3)
    modifies b`ands, b`current_aig_var, b`node_cache, b`inv_node_cache
    ensures b.Valid() && b.Live(r)
    ensures AigBuilder.Extends(old(b.ands), old(b.current_aig_var), b.ands, b.current_aig_var)
    ensures old(b.inv_node_cache.Keys) <= b.inv_node_cache.Keys
    ensures forall E: set<nat> :: Value(b.ands, E, r) ==
              (Value(old(b.ands), E, t) || !(Value(old(b.ands), E, c1) || Value(old(b.ands), E, c2)
                || Value(old(b.ands), E, c3)))
  {
    hide AigBuilder.Shares, WellFormed, AigBuilder.GatesUsable, AigBuilder.CachesAgree;
    ghost var gs, n := b.ands, b.current_aig_var;
    forall E: set<nat>
      ensures Value(gs, E, Not(c1)) == !Value(gs, E, c1) && Value(gs, E, Not(c2)) == !Value(gs, E, c2)
      ensures Value(gs, E, Not(c3)) == !Value(gs, E, c3)
    {
      NotValue(gs, E, c1);
      NotValue(gs, E, c2);
      NotValue(gs, E, c3);
    }
    var two := b.MakeAND(Not(c1), Not(c2));
    ghost var g1, n1 := b.ands, b.current_aig_var;
    var none := b.MakeAND(two, Not(c3));
    ghost var g2, n2 := b.ands, b.current_aig_var;
    AigBuilder.ExtendsTrans(gs, n, g1, n1, g2, n2);
    r := b.MakeOR(t, none);
    AigBuilder.ExtendsTrans(gs, n, g2, n2, b.ands, b.current_aig_var);
    forall E: set<nat>
      ensures Value(b.ands, E, r) ==
              (Value(gs, E, t) || !(Value(gs, E, c1) || Value(gs, E, c2) || Value(gs, E, c3)))
    {
      assert Value(g1, E, two) == (!Value(gs, E, c1) && !Value(gs, E, c2));
      assert Value(g1, E, Not(c3)) == Value(gs, E, Not(c3));
      assert Value(g2, E, none) == (Value(g1, E, two) && Value(g1, E, Not(c3)));
      assert Value(g2, E, t) == Value(gs, E, t);
    }
  }

  lemma ConstantUsable(b: AigBuilder)
    requires b.Valid()
    ensures b.Live(FALSE_LIT) && b.Live(TRUE_LIT)
  {
  }

  lemma UsableLater(n: nat, m: nat, later: set<nat>, l: nat)
    requires n <= m && AigBuilder.Usable(n, later, l)
    ensures AigBuilder.Usable(m, later, l)
  {
  }

  lemma SameEntry(gs: seq<And>, n: nat, hs: seq<And>, m: nat, later: set<nat>, E: set<nat>,
                  prev: nat, c1: nat, c2: nat, c3: nat, x1: nat, x2: nat)
    requires AigBuilder.Extends(gs, n, hs, m)
    requires AigBuilder.Usable(n, later, prev) && AigBuilder.Usable(n, later, c1) && AigBuilder.Usable(n, later, c2)
    requires AigBuilder.Usable(n, later, c3) && AigBuilder.Usable(n, later, x1) && AigBuilder.Usable(n, later, x2)
    ensures EntryValue(hs, E, prev, c1, c2, c3, x1, x2) == EntryValue(gs, E, prev, c1, c2, c3, x1, x2)
  {
  }
}
