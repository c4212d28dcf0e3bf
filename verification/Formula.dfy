/** The parsed QBF: a prefix of quantifier blocks and a matrix of normalised clauses. */
module Formulas {
  import opened Literals
  import opened Qbf

  datatype QuantType = NONE | EXISTS | FORALL

  /** A block of the prefix. Pending is the slot of the free variables before Finalise. */
  datatype Quant = Pending | Quant(kind: QuantType, vars: seq<Var>)

  /** A stored clause: its existential and its universal literals. */
  datatype QClause = QClause(ex: seq<Lit>, al: seq<Lit>) {
    function Lits(): seq<Lit> {
      al + ex
    }
  }

  function MatrixLits(m: seq<QClause>): (M: Matrix)
    ensures |M| == |m|
  {
    seq(|m|, i requires 0 <= i < |m| => m[i].Lits())
  }

  // ----- prefixes as bound-variable lists -----

  function Owner(kind: QuantType): Player {
    if kind == FORALL then Universal else Existential
  }

  function BlockBounds(q: Quant): (bs: seq<Bound>)
    requires q.Quant?
    ensures |bs| == |q.vars|
  {
    seq(|q.vars|, i requires 0 <= i < |q.vars| => Bound(q.vars[i], Owner(q.kind)))
  }

  ghost predicate AllBlocks(B: seq<Quant>) {
    forall i :: 0 <= i < |B| ==> B[i].Quant?
  }

  ghost function Flatten(B: seq<Quant>): seq<Bound>
    requires AllBlocks(B)
    decreases |B|
  {
    if B == [] then [] else Flatten(B[..|B| - 1]) + BlockBounds(B[|B| - 1])
  }

  ghost predicate NoDuplicates(s: seq<Var>) {
    forall i, j :: 0 <= i < j < |s| ==> s[i] != s[j]
  }

  /** Every variable is bound at most once in the whole prefix. */
  ghost predicate DistinctBlocks(B: seq<Quant>)
    requires AllBlocks(B)
  {
    && (forall d :: 0 <= d < |B| ==> NoDuplicates(B[d].vars))
    && (forall d, e, v :: 0 <= d < e < |B| && v in B[d].vars ==> v !in B[e].vars)
  }

  /** The variables of p's opponent in the first d blocks. */
  ghost function OppVars(p: Player, B: seq<Quant>, d: nat): set<Var>
    requires AllBlocks(B) && d <= |B|
  {
    set i, v | 0 <= i < d && v in B[i].vars && Owner(B[i].kind) != p :: v
  }

  lemma BlockHas(q: Quant, v: Var, o: Player)
    requires q.Quant?
    ensures Bound(v, o) in BlockBounds(q) <==> v in q.vars && Owner(q.kind) == o
  {
    if v in q.vars && Owner(q.kind) == o {
      var i :| 0 <= i < |q.vars| && q.vars[i] == v;
      assert BlockBounds(q)[i] == Bound(v, o);
    }
  }

  lemma {:induction false} FlattenFind(B: seq<Quant>, v: Var, o: Player) returns (d: nat)
    requires AllBlocks(B) && Bound(v, o) in Flatten(B)
    ensures d < |B| && v in B[d].vars && Owner(B[d].kind) == o
    decreases |B|
  {
    d := |B| - 1;
    BlockHas(B[d], v, o);
    if Bound(v, o) !in BlockBounds(B[d]) {
      d := FlattenFind(B[..d], v, o);
    }
  }

  lemma {:induction false} FlattenHolds(B: seq<Quant>, d: nat, v: Var)
    requires AllBlocks(B) && d < |B| && v in B[d].vars
    ensures Bound(v, Owner(B[d].kind)) in Flatten(B)
    decreases |B|
  {
    var n := |B| - 1;
    if d < n {
      assert B[..n][d] == B[d];
      FlattenHolds(B[..n], d, v);
    } else {
      BlockHas(B[n], v, Owner(B[n].kind));
    }
  }

  lemma FlattenHas(B: seq<Quant>, v: Var, o: Player)
    requires AllBlocks(B)
    ensures Bound(v, o) in Flatten(B) <==> exists d :: 0 <= d < |B| && v in B[d].vars && Owner(B[d].kind) == o
  {
    if Bound(v, o) in Flatten(B) {
      var d := FlattenFind(B, v, o);
    }
    if d :| 0 <= d < |B| && v in B[d].vars && Owner(B[d].kind) == o {
      FlattenHolds(B, d, v);
    }
  }

  lemma {:induction false} FlattenDistinct(B: seq<Quant>)
    requires AllBlocks(B) && DistinctBlocks(B)
    ensures Distinct(Flatten(B))
    decreases |B|
  {
    if B != [] {
      var n := |B| - 1;
      FlattenDistinct(B[..n]);
      var first, last := Flatten(B[..n]), BlockBounds(B[n]);
      forall b | b in first ensures b.v !in B[n].vars {
        FlattenHas(B[..n], b.v, b.owner);
        var d :| 0 <= d < n && b.v in B[..n][d].vars;
        assert b.v in B[d].vars;
      }
      forall i, j | 0 <= i < j < |Flatten(B)| ensures Flatten(B)[i].v != Flatten(B)[j].v {
        if i < |first| <= j {
          assert first[i] in first;
          assert last[j - |first|].v in B[n].vars;
        }
      }
    }
  }

  lemma {:induction false} OppBeforeConcat(p: Player, a: seq<Bound>, b: seq<Bound>, x: Var)
    requires x !in VarsOf(a)
    ensures OppBefore(p, a + b, x) == (set c | c in a && c.owner != p :: c.v) + OppBefore(p, b, x)
    decreases |a|
  {
    if a == [] {
      assert a + b == b;
    } else {
      assert (a + b)[0] == a[0] && (a + b)[1..] == a[1..] + b;
      assert a[0].v in VarsOf(a) && VarsOf(a[1..]) <= VarsOf(a);
      OppBeforeConcat(p, a[1..], b, x);
      assert (set c | c in a && c.owner != p :: c.v)
          == (if a[0].owner == p then {} else {a[0].v}) + (set c | c in a[1..] && c.owner != p :: c.v);
    }
  }

  lemma {:induction false} OppBeforeOwn(p: Player, a: seq<Bound>, x: Var)
    requires forall b :: b in a ==> b.owner == p
    ensures OppBefore(p, a, x) == {}
    decreases |a|
  {
    if a != [] && a[0].v != x {
      OppBeforeOwn(p, a[1..], x);
    }
  }

  lemma {:induction false} OppBeforeStop(p: Player, a: seq<Bound>, b: seq<Bound>, x: Var)
    requires x in VarsOf(a)
    ensures OppBefore(p, a + b, x) == OppBefore(p, a, x)
    decreases |a|
  {
    assert (a + b)[0] == a[0] && (a + b)[1..] == a[1..] + b;
    if a[0].v != x {
      var c :| c in a && c.v == x;
      assert c in a[1..];
      OppBeforeStop(p, a[1..], b, x);
    }
  }

  /** Left of a variable of block d means: in an earlier block of the other type. */
  lemma {:induction false} OppBeforeBlocks(p: Player, B: seq<Quant>, d: nat, x: Var)
    requires AllBlocks(B) && DistinctBlocks(B) && d < |B|
    requires x in B[d].vars && Owner(B[d].kind) == p
    ensures OppBefore(p, Flatten(B), x) == OppVars(p, B, d)
    decreases |B|
  {
    var n := |B| - 1;
    var C := B[..n];
    var first, last := Flatten(C), BlockBounds(B[n]);
    if d == n {
      forall b | b in first ensures b.v != x {
        FlattenHas(C, b.v, b.owner);
        var e :| 0 <= e < n && b.v in C[e].vars;
        assert b.v in B[e].vars;
      }
      OppBeforeConcat(p, first, last, x);
      OppBeforeOwn(p, last, x);
      var opp := set c | c in first && c.owner != p :: c.v;
      forall v | v in opp ensures v in OppVars(p, B, d) {
        var c :| c in first && c.owner != p && c.v == v;
        FlattenHas(C, c.v, c.owner);
        var e :| 0 <= e < n && c.v in C[e].vars && Owner(C[e].kind) == c.owner;
        assert B[e] == C[e];
      }
      forall v | v in OppVars(p, B, d) ensures v in opp {
        var e :| 0 <= e < d && v in B[e].vars && Owner(B[e].kind) != p;
        assert C[e] == B[e];
        FlattenHas(C, v, Owner(B[e].kind));
        assert Bound(v, Owner(B[e].kind)) in first;
      }
    } else {
      assert C[d] == B[d];
      OppBeforeBlocks(p, C, d, x);
      FlattenHas(C, x, p);
      assert Bound(x, p) in first;
      OppBeforeStop(p, first, last, x);
      assert OppVars(p, C, d) == OppVars(p, B, d);
    }
  }

  // ----- the formula object -----

  function Depth(qd: seq<int>, v: Var): int {
    if v < |qd| then qd[v] else -1
  }

  ghost predicate WellIndexed(B: seq<Quant>, qd: seq<int>)
    requires AllBlocks(B)
  {
    && (forall v: Var :: -1 <= Depth(qd, v) < |B|)
    && (forall d, v :: 0 <= d < |B| ==> (v in B[d].vars <==> Depth(qd, v) == d))
    && (forall d :: 0 <= d < |B| ==> NoDuplicates(B[d].vars) && 0 !in B[d].vars && B[d].kind != NONE)
  }

  ghost predicate StrictVars(s: seq<Lit>) {
    forall i, j :: 0 <= i < j < |s| ==> VarOf(s[i]) < VarOf(s[j])
  }

  /** Whether a literal's variable is bound by a block of the given type. */
  predicate BoundAs(B: seq<Quant>, qd: seq<int>, l: Lit, kind: QuantType) {
    0 <= Depth(qd, VarOf(l)) < |B| && B[Depth(qd, VarOf(l))] .Quant? && B[Depth(qd, VarOf(l))].kind == kind
  }

  ghost predicate GoodClause(B: seq<Quant>, qd: seq<int>, c: QClause) {
    && StrictVars(c.ex) && StrictVars(c.al)
    && (forall l :: l in c.ex ==> BoundAs(B, qd, l, EXISTS))
    && (forall l :: l in c.al ==> BoundAs(B, qd, l, FORALL))
  }

  class Formula {
    var prefix: seq<Quant>
    var matrix: seq<QClause>
    var quant_depth: seq<int>
    var free_variables: seq<Var>

    /** The clauses as they were handed to AddClause. */
    ghost var given: Matrix

    ghost function Blocks(): seq<Quant>
      reads this
      requires prefix != []
    {
      if prefix[0].Pending? then [Quant(EXISTS, free_variables)] + prefix[1..] else prefix
    }

    ghost predicate Valid()
      reads this
    {
      && prefix != []
      && (forall i :: 0 < i < |prefix| ==> prefix[i].Quant?)
      && AllBlocks(Blocks())
      && WellIndexed(Blocks(), quant_depth)
      && (forall c :: c in matrix ==> GoodClause(Blocks(), quant_depth, c))
      && (forall A: Assignment :: Sat(A, given) <==> Sat(A, MatrixLits(matrix)))
    }

    ghost function Bounds(): seq<Bound>
      reads this
      requires Valid()
    {
      Flatten(Blocks())
    }

    /** The QBF is true: over the clauses as given, not as stored. */
    ghost predicate IsTrue()
      reads this
      requires Valid()
    {
      Truth(Bounds(), {}, given)
    }

    constructor ()
      ensures Valid() && prefix == [Pending] && matrix == [] && given == [] && free_variables == []
      ensures quant_depth == []
    {
      prefix := [Pending];
      matrix := [];
      quant_depth := [];
      free_variables := [];
      given := [];
    }

    predicate IsQuantified(v: Var)
      reads this
    {
      v < |quant_depth| && quant_depth[v] >= 0
    }

    predicate IsExistential(v: Var)
      reads this
      requires IsQuantified(v) && quant_depth[v] < |prefix|
    {
      var q := prefix[quant_depth[v]];
      q.Pending? || q.kind == EXISTS
    }

    method Quantify(v: Var, depth: nat) returns (r: int)
      modifies this`quant_depth
      ensures r == if Depth(old(quant_depth), v) == -1 then 0 else -1
      ensures forall w: Var :: Depth(quant_depth, w) ==
                               if w == v && r == 0 then depth else Depth(old(quant_depth), w)
    {
      if v >= |quant_depth| {
        quant_depth := quant_depth + seq(v + 1 - |quant_depth|, _ => -1);
      }
      if quant_depth[v] != -1 {
        return -1;
      }
      quant_depth := quant_depth[v := depth];
      return 0;
    }

    method AddFreeVar(v: Var)
      requires Valid() && prefix[0].Pending? && !IsQuantified(v) && v > 0
      modifies this`quant_depth, this`free_variables
      ensures Valid()
      ensures free_variables == old(free_variables) + [v]
      ensures forall w: Var :: Depth(quant_depth, w) == if w == v then 0 else Depth(old(quant_depth), w)
    {
      ghost var B := Blocks();
      assert B[0].vars == free_variables;
      assert Depth(quant_depth, v) == -1;
      free_variables := free_variables + [v];
      var r := Quantify(v, 0);
      ghost var C := Blocks();
      assert forall i :: 0 < i < |C| ==> C[i] == B[i];
      forall c | c in matrix ensures GoodClause(C, quant_depth, c) {
        assert GoodClause(B, old(quant_depth), c);
        forall l | l in c.ex ensures BoundAs(C, quant_depth, l, EXISTS) {
          assert BoundAs(B, old(quant_depth), l, EXISTS);
        }
        forall l | l in c.al ensures BoundAs(C, quant_depth, l, FORALL) {
          assert BoundAs(B, old(quant_depth), l, FORALL);
        }
      }
      assert NoDuplicates(C[0].vars);
    }

    /** Appends a block, or extends the outermost existential block. It succeeds exactly when
        no variable of the list is bound already or listed twice. */
    method AddQuantifier(requested: QuantType, variables: seq<Var>) returns (r: int)
      requires Valid() && prefix[0].Pending? && 0 !in variables
      modifies this
      ensures r == 0 || r == -1
      ensures r == 0 <==> NoDuplicates(variables) && forall v :: v in variables ==> Depth(old(quant_depth), v) == -1
      ensures given == old(given) && matrix == old(matrix)
      ensures r == 0 ==> Valid() && prefix[0].Pending?
      ensures r == 0 ==>
                var kind := if requested == NONE then EXISTS else requested;
                Blocks() == if |old(prefix)| == 1 && kind == EXISTS
                            then [Quant(EXISTS, old(free_variables) + variables)]
                            else old(Blocks()) + [Quant(kind, variables)]
    {
      var kind := if requested == NONE then EXISTS else requested;
      ghost var B := Blocks();
      ghost var D := if |prefix| == 1 && kind == EXISTS then 0 else |prefix|;
      if |prefix| == 1 && kind == EXISTS {
        var k := 0;
        while k < |variables|
          invariant 0 <= k <= |variables|
          invariant prefix == old(prefix) && matrix == old(matrix) && given == old(given)
          invariant free_variables == old(free_variables) + variables[..k]
          invariant BoundTo(quant_depth, old(quant_depth), variables[..k], D)
        {
          free_variables := free_variables + [variables[k]];
          var q := Quantify(variables[k], 0);
          if q != 0 {
            BoundTwice(old(quant_depth), variables, k);
            return -1;
          }
          BoundToNext(quant_depth, old(quant_depth), variables, k, D);
          k := k + 1;
        }
        assert variables[..k] == variables;
        StillValid(B, old(quant_depth), Blocks(), D, variables);
        return 0;
      }
      var k := 0;
      while k < |variables|
        invariant 0 <= k <= |variables|
        invariant prefix == old(prefix) && matrix == old(matrix) && given == old(given)
        invariant free_variables == old(free_variables)
        invariant BoundTo(quant_depth, old(quant_depth), variables[..k], D)
      {
        var q := Quantify(variables[k], |prefix|);
        if q != 0 {
          BoundTwice(old(quant_depth), variables, k);
          return -1;
        }
        BoundToNext(quant_depth, old(quant_depth), variables, k, D);
        k := k + 1;
      }
      assert variables[..k] == variables;
      prefix := prefix + [Quant(kind, variables)];
      assert Blocks() == B + [Quant(kind, variables)];
      StillValid(B, old(quant_depth), Blocks(), D, variables);
      return 0;
    }

    /** After the quantifier step the depth table is the old one plus `vars` at depth D,
        and all of `vars` were unbound and are different. */
    static ghost predicate BoundTo(qd: seq<int>, was: seq<int>, vars: seq<Var>, D: nat) {
      && NoDuplicates(vars)
      && (forall v :: v in vars ==> Depth(was, v) == -1)
      && (forall w: Var :: Depth(qd, w) == if w in vars then D else Depth(was, w))
    }

    static lemma BoundToNext(qd: seq<int>, was: seq<int>, vars: seq<Var>, k: nat, D: nat)
      requires k < |vars| && vars[k] !in vars[..k] && Depth(was, vars[k]) == -1
      requires NoDuplicates(vars[..k]) && (forall v :: v in vars[..k] ==> Depth(was, v) == -1)
      requires forall w: Var :: Depth(qd, w) ==
                                if w == vars[k] then D else if w in vars[..k] then D else Depth(was, w)
      ensures BoundTo(qd, was, vars[..k + 1], D)
    {
      assert vars[..k + 1] == vars[..k] + [vars[k]];
      forall i, j | 0 <= i < j < k + 1 ensures vars[i] != vars[j] {
        assert vars[..k][i] == vars[i];
        if j < k {
          assert vars[..k][j] == vars[j];
        }
      }
    }

    static lemma BoundTwice(was: seq<int>, vars: seq<Var>, k: nat)
      requires k < |vars| && (vars[k] in vars[..k] || Depth(was, vars[k]) != -1)
      ensures !(NoDuplicates(vars) && forall v :: v in vars ==> Depth(was, v) == -1)
    {
      if vars[k] in vars[..k] {
        var i :| 0 <= i < k && vars[..k][i] == vars[k];
        assert vars[i] == vars[k];
      } else {
        assert vars[k] in vars;
      }
    }

    lemma StillValid(B: seq<Quant>, was: seq<int>, C: seq<Quant>, D: nat, vars: seq<Var>)
      requires AllBlocks(B) && AllBlocks(C) && WellIndexed(B, was) && 0 !in vars
      requires BoundTo(quant_depth, was, vars, D)
      requires forall c :: c in matrix ==> GoodClause(B, was, c)
      requires if D < |B|
               then |C| == |B| && C[D].kind == B[D].kind && C[D].vars == B[D].vars + vars
                    && forall i :: 0 <= i < |B| && i != D ==> C[i] == B[i]
               else D == |B| && |C| == |B| + 1 && C[D].vars == vars && C[D].kind != NONE
                    && forall i :: 0 <= i < |B| ==> C[i] == B[i]
      ensures WellIndexed(C, quant_depth)
      ensures forall c :: c in matrix ==> GoodClause(C, quant_depth, c)
    {
      forall d, v | 0 <= d < |C|
        ensures v in C[d].vars <==> Depth(quant_depth, v) == d
      {
        if d < |B| {
          assert v in B[d].vars <==> Depth(was, v) == d;
        }
      }
      if D < |B| {
        forall i, j | 0 <= i < j < |C[D].vars| ensures C[D].vars[i] != C[D].vars[j] {
          if i < |B[D].vars| <= j {
            assert vars[j - |B[D].vars|] in vars;
            assert B[D].vars[i] in B[D].vars;
          }
        }
      }
      forall c | c in matrix ensures GoodClause(C, quant_depth, c) {
        assert GoodClause(B, was, c);
        forall l, kind | BoundAs(B, was, l, kind) ensures BoundAs(C, quant_depth, l, kind) {
          assert Depth(was, VarOf(l)) != -1;
        }
      }
    }

    /** What the compaction has kept of a sorted prefix s: the same literals, each once. */
    static ghost predicate Kept(s: seq<Lit>, kept: seq<Lit>) {
      && StrictVars(kept)
      && Elements(kept) == Elements(s)
      && |kept| <= |s|
      && (s != [] ==> kept != [] && kept[|kept| - 1] == s[|s| - 1])
    }

    static lemma KeptNext(s: seq<Lit>, kept: seq<Lit>, l: Lit)
      requires Kept(s, kept) && Sorted(s + [l])
      requires kept != [] ==> l != Negate(kept[|kept| - 1])
      ensures if kept != [] && l == kept[|kept| - 1] then Kept(s + [l], kept) else Kept(s + [l], kept + [l])
    {
      assert Elements(s + [l]) == Elements(s) + {l};
      assert Elements(kept + [l]) == Elements(kept) + {l};
      if kept != [] {
        var t := s + [l];
        assert !LitOrder(t[|s|], t[|s| - 1]);
        assert kept[|kept| - 1] in Elements(kept);
      }
    }

    static lemma StrictNoTautology(kept: seq<Lit>)
      requires StrictVars(kept)
      ensures !Tautology(kept)
    {
      forall l | l in kept ensures Negate(l) !in kept {
      }
    }

    /** Sorts the literal vector, drops repeated literals and detects x with -x, all in place. */
    static method Normalise(c: array<Lit>) returns (tautology: bool, n: nat)
      modifies c
      ensures n <= c.Length
      ensures tautology <==> Tautology(old(c[..]))
      ensures !tautology ==> StrictVars(c[..n]) && Elements(c[..n]) == Elements(old(c[..]))
    {
      Sort(c);
      ghost var s := c[..];
      SameElements(s, old(c[..]));
      var i, j := 0, 0;
      var prev: int := 0;
      ghost var front: seq<Lit>, kept: seq<Lit> := [], [];
      while i < c.Length
        invariant 0 <= j <= i <= c.Length == |s| && front == s[..i] && c[..j] == kept
        invariant forall k :: i <= k < c.Length ==> c[k] == s[k]
        invariant Kept(front, kept) && prev == if kept == [] then 0 else kept[|kept| - 1]
      {
        var lit := c[i];
        assert s[..i + 1] == front + [lit];
        if lit == -prev {
          assert front[i - 1] == Negate(lit) && lit in s && Negate(lit) in s;
          return true, 0;
        }
        KeptNext(front, kept, lit);
        i, front := i + 1, front + [lit];
        if lit != prev {
          c[j] := lit;
          assert c[..j + 1] == kept + [lit];
          prev, j, kept := lit, j + 1, kept + [lit];
        }
      }
      assert s[..i] == s;
      tautology, n := false, j;
      StrictNoTautology(c[..n]);
      assert forall l :: l in s <==> l in Elements(c[..n]);
      assert forall l :: l in c[..n] <==> l in Elements(c[..n]);
    }

    static lemma SameElements(s: seq<Lit>, t: seq<Lit>)
      requires multiset(s) == multiset(t)
      ensures Elements(s) == Elements(t) && (Tautology(s) <==> Tautology(t))
    {
      assert forall l :: l in s <==> l in multiset(s);
      assert forall l :: l in t <==> l in multiset(t);
      if l :| l in s && Negate(l) in s {
        assert l in t && Negate(l) in t;
      }
      if l :| l in t && Negate(l) in t {
        assert l in s && Negate(l) in s;
      }
    }

    /** Normalises a clause and appends it, split into its existential and universal literals.
        Unbound variables become free (outermost existential) ones; a tautology changes nothing. */
    method AddClause(c: array<Lit>)
      requires Valid() && prefix[0].Pending?
      modifies this, c
      ensures Valid()
      ensures prefix == old(prefix) && given == old(given) + [old(c[..])]
      ensures Tautology(old(c[..])) ==>
                matrix == old(matrix) && free_variables == old(free_variables) && quant_depth == old(quant_depth)
      ensures !Tautology(old(c[..])) ==>
                && |matrix| == |old(matrix)| + 1 && matrix[..|old(matrix)|] == old(matrix)
                && Elements(matrix[|old(matrix)|].Lits()) == Elements(old(c[..]))
                && FreedAt(old(quant_depth), quant_depth, VarSet(old(c[..])))
    {
      ghost var clause0 := c[..];
      var tautology, n := Normalise(c);
      if tautology {
        given := given + [clause0];
        TautologyAlwaysTrue(clause0);
        assert forall A: Assignment :: Sat(A, given) <==> Sat(A, old(given));
        return;
      }
      ghost var lits := c[..n];
      var ex, al := SplitLiterals(c, n);
      matrix := matrix + [QClause(ex, al)];
      given := given + [clause0];
      SameVarSet(lits, clause0);
      AppendEquivalent(old(given), MatrixLits(old(matrix)), clause0, al + ex);
      assert MatrixLits(matrix) == MatrixLits(old(matrix)) + [al + ex];
    }

    /** Binds the unbound variables of a normalised clause and splits its literals by type. */
    method SplitLiterals(c: array<Lit>, n: nat) returns (ex: seq<Lit>, al: seq<Lit>)
      requires Valid() && prefix[0].Pending? && n <= c.Length && StrictVars(c[..n])
      modifies this`quant_depth, this`free_variables
      ensures Valid()
      ensures SplitAt(c[..n], ex, al)
      ensures GoodClause(Blocks(), quant_depth, QClause(ex, al))
      ensures FreedAt(old(quant_depth), quant_depth, VarSet(c[..n]))
    {
      ghost var lits := c[..n];
      ex, al := [], [];
      ghost var was := quant_depth;
      var k := 0;
      while k < n
        invariant 0 <= k <= n
        invariant Valid()
        invariant FreedAt(was, quant_depth, VarSet(lits[..k]))
        invariant SplitAt(lits[..k], ex, al)
        invariant GoodClause(Blocks(), quant_depth, QClause(ex, al))
      {
        var l := c[k];
        assert l == lits[k];
        assert lits[..k + 1] == lits[..k] + [l];
        VarSetNext(lits[..k], l);
        SplitNext(lits, k, ex, al);
        ex, al := SplitOne(l, ex, al);
        k := k + 1;
      }
      assert lits[..k] == lits;
    }

    method SplitOne(l: Lit, ex: seq<Lit>, al: seq<Lit>) returns (ex': seq<Lit>, al': seq<Lit>)
      requires Valid() && prefix[0].Pending?
      requires GoodClause(Blocks(), quant_depth, QClause(ex, al))
      requires StrictVars(ex + [l]) && StrictVars(al + [l])
      modifies this`quant_depth, this`free_variables
      ensures Valid()
      ensures (ex' == ex + [l] && al' == al) || (ex' == ex && al' == al + [l])
      ensures GoodClause(Blocks(), quant_depth, QClause(ex', al'))
      ensures FreedAt(old(quant_depth), quant_depth, {VarOf(l)})
    {
      var v := VarOf(l);
      ghost var B := Blocks();
      if !IsQuantified(v) {
        AddFreeVar(v);
      }
      KeepsGood(B, old(quant_depth), Blocks(), quant_depth, QClause(ex, al));
      assert 0 <= Depth(quant_depth, v) < |Blocks()|;
      assert BoundAs(Blocks(), quant_depth, l, EXISTS) || BoundAs(Blocks(), quant_depth, l, FORALL);
      if IsExistential(v) {
        ex', al' := ex + [l], al;
      } else {
        ex', al' := ex, al + [l];
      }
    }

    static ghost predicate FreedAt(was: seq<int>, qd: seq<int>, freed: set<Var>) {
      forall v: Var :: Depth(qd, v) == if Depth(was, v) == -1 && v in freed then 0 else Depth(was, v)
    }

    static ghost function VarSet(s: seq<Lit>): set<Var> {
      set l | l in s :: VarOf(l)
    }

    static lemma SameVarSet(s: seq<Lit>, t: seq<Lit>)
      requires Elements(s) == Elements(t)
      ensures VarSet(s) == VarSet(t)
    {
      assert forall l :: l in s <==> l in Elements(s);
      assert forall l :: l in t <==> l in Elements(t);
    }

    static lemma VarSetNext(s: seq<Lit>, l: Lit)
      ensures VarSet(s + [l]) == VarSet(s) + {VarOf(l)}
    {
      assert forall x :: x in s + [l] <==> x in s || x == l;
      assert l in s + [l];
    }

    static ghost predicate SplitAt(s: seq<Lit>, ex: seq<Lit>, al: seq<Lit>) {
      && Elements(al + ex) == Elements(s)
      && StrictVars(ex) && StrictVars(al)
    }

    /** Appending the next literal to either part keeps the split. */
    static lemma SplitNext(s: seq<Lit>, k: nat, ex: seq<Lit>, al: seq<Lit>)
      requires StrictVars(s) && k < |s| && SplitAt(s[..k], ex, al)
      ensures SplitAt(s[..k + 1], ex + [s[k]], al) && SplitAt(s[..k + 1], ex, al + [s[k]])
      ensures StrictVars(ex + [s[k]]) && StrictVars(al + [s[k]])
    {
      assert s[..k + 1] == s[..k] + [s[k]];
      assert al + (ex + [s[k]]) == (al + ex) + [s[k]];
      forall x | x in al + ex ensures VarOf(x) < VarOf(s[k]) {
        assert x in Elements(s[..k]);
        var i :| 0 <= i < k && s[..k][i] == x;
      }
      forall x | x in ex ensures VarOf(x) < VarOf(s[k]) {
        assert x in al + ex;
      }
      forall x | x in al ensures VarOf(x) < VarOf(s[k]) {
        assert x in al + ex;
      }
      assert Elements(al + (ex + [s[k]])) == Elements(s[..k]) + {s[k]} == Elements(s[..k + 1]);
      assert Elements((al + [s[k]]) + ex) == Elements(al + ex) + {s[k]};
    }

    static lemma KeepsGood(B: seq<Quant>, qd: seq<int>, C: seq<Quant>, qd': seq<int>, c: QClause)
      requires GoodClause(B, qd, c) && |C| == |B|
      requires forall i :: 0 <= i < |B| && B[i].Quant? ==> C[i].Quant? && C[i].kind == B[i].kind
      requires forall w: Var :: Depth(qd, w) != -1 ==> Depth(qd', w) == Depth(qd, w)
      ensures GoodClause(C, qd', c)
    {
      forall l, kind | BoundAs(B, qd, l, kind) ensures BoundAs(C, qd', l, kind) {
      }
    }

    static lemma TautologyAlwaysTrue(c: seq<Lit>)
      requires Tautology(c)
      ensures forall A: Assignment :: ClauseTrue(A, c)
    {
      var l :| l in c && Negate(l) in c;
      forall A: Assignment ensures ClauseTrue(A, c) {
        assert LitTrue(A, l) || LitTrue(A, Negate(l));
      }
    }

    static lemma AppendEquivalent(M: Matrix, N: Matrix, c: seq<Lit>, d: seq<Lit>)
      requires forall A: Assignment :: Sat(A, M) <==> Sat(A, N)
      requires Elements(c) == Elements(d)
      ensures forall A: Assignment :: Sat(A, M + [c]) <==> Sat(A, N + [d])
    {
      forall A: Assignment
        ensures Sat(A, M + [c]) <==> Sat(A, N + [d])
      {
        assert forall l :: l in c <==> l in Elements(d);
        assert forall l :: l in d <==> l in Elements(c);
        assert ClauseTrue(A, c) <==> ClauseTrue(A, d);
        SatAppend(A, M, c);
        SatAppend(A, N, d);
      }
    }

    static lemma SatAppend(A: Assignment, M: Matrix, c: seq<Lit>)
      ensures Sat(A, M + [c]) <==> Sat(A, M) && ClauseTrue(A, c)
    {
      assert forall x :: x in M + [c] <==> x in M || x == c;
    }

    /** Turns the free variables into the outermost block, or drops that block when it is
        empty. The flattened prefix, hence the meaning of the formula, stays the same. */
    method Finalise()
      requires Valid() && prefix[0].Pending?
      modifies this
      ensures Valid() && AllBlocks(prefix) && Blocks() == prefix
      ensures matrix == old(matrix) && given == old(given)
      ensures Bounds() == old(Bounds())
      ensures prefix == if old(free_variables) == [] && |old(prefix)| > 1 then old(prefix)[1..]
                        else [Quant(EXISTS, old(free_variables))] + old(prefix)[1..]
    {
      ghost var B := Blocks();
      if free_variables == [] && |prefix| > 1 {
        prefix := prefix[1..];
        var i := 0;
        while i < |quant_depth|
          invariant 0 <= i <= |quant_depth| == |old(quant_depth)|
          invariant prefix == old(prefix)[1..] && matrix == old(matrix) && given == old(given)
          invariant forall j :: 0 <= j < |quant_depth| ==>
                      quant_depth[j] == if j < i && old(quant_depth)[j] > 0 then old(quant_depth)[j] - 1
                                        else old(quant_depth)[j]
        {
          if quant_depth[i] > 0 {
            quant_depth := quant_depth[i := quant_depth[i] - 1];
          }
          i := i + 1;
        }
        DropFirst(B, old(quant_depth), quant_depth);
        assert Blocks() == B[1..];
        FlattenDropEmpty(B);
      } else {
        var i := 0;
        while i < |free_variables|
          invariant 0 <= i <= |free_variables|
          invariant quant_depth == old(quant_depth) && free_variables == old(free_variables)
          invariant prefix == old(prefix) && matrix == old(matrix) && given == old(given)
        {
          var v := free_variables[i];
          assert v in B[0].vars;
          assert Depth(quant_depth, v) == 0;
          quant_depth := quant_depth[v := 0];
          i := i + 1;
        }
        prefix := prefix[0 := Quant(EXISTS, free_variables)];
        assert prefix == B;
      }
    }

    lemma DropFirst(B: seq<Quant>, was: seq<int>, qd: seq<int>)
      requires AllBlocks(B) && WellIndexed(B, was) && |B| > 1 && B[0].vars == []
      requires forall c :: c in matrix ==> GoodClause(B, was, c)
      requires |qd| == |was| && forall j :: 0 <= j < |was| ==> qd[j] == if was[j] > 0 then was[j] - 1 else was[j]
      ensures AllBlocks(B[1..]) && WellIndexed(B[1..], qd)
      ensures forall c :: c in matrix ==> GoodClause(B[1..], qd, c)
    {
      forall v: Var ensures Depth(was, v) != 0 && Depth(qd, v) == if Depth(was, v) > 0 then Depth(was, v) - 1 else -1 {
        assert v in B[0].vars <==> Depth(was, v) == 0;
        assert -1 <= Depth(was, v);
      }
      forall d, v | 0 <= d < |B[1..]| ensures v in B[1..][d].vars <==> Depth(qd, v) == d {
        assert v in B[d + 1].vars <==> Depth(was, v) == d + 1;
      }
      forall c | c in matrix ensures GoodClause(B[1..], qd, c) {
        forall l, kind | BoundAs(B, was, l, kind) ensures BoundAs(B[1..], qd, l, kind) {
        }
      }
    }

    static lemma {:induction false} FlattenDropEmpty(B: seq<Quant>)
      requires AllBlocks(B) && B != [] && B[0].vars == []
      ensures Flatten(B) == Flatten(B[1..])
      decreases |B|
    {
      var n := |B| - 1;
      if n > 0 {
        FlattenDropEmpty(B[..n]);
        assert B[..n][1..] == B[1..][..n - 1];
        assert B[1..][n - 1] == B[n];
      } else {
        assert Flatten(B[..0]) == [];
      }
    }
  }
}
