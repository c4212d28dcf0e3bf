/** And-inverter graphs under construction: a hash-consing gate builder with a redundancy search. */
module Aigs {
  datatype And = And(lhs: nat, rhs0: nat, rhs1: nat)

  /** The operands of a gate; the original packs both 32-bit literals into one 64-bit key. */
  datatype Node = Node(first: nat, second: nat)

  const FALSE_LIT: nat := 0
  const TRUE_LIT: nat := 1

  /** The variable of a literal. It is l / 2, written as a recursion to keep division out of the proofs. */
  function LitVar(l: nat): nat {
    if l < 2 then 0 else 1 + LitVar(l - 2)
  }

  lemma LitVarIsHalf(l: nat)
    ensures LitVar(l) == l / 2
  {
  }

  lemma LitVarOf(n: nat)
    ensures LitVar(2 * n) == n && LitVar(2 * n + 1) == n
  {
    LitVarIsHalf(2 * n);
    LitVarIsHalf(2 * n + 1);
  }

  function Not(l: nat): (r: nat)
    ensures LitVar(r) == LitVar(l) && r % 2 != l % 2
  {
    LitVarIsHalf(l);
    LitVarIsHalf(l + 1);
    if l % 2 == 0 then l + 1 else LitVarIsHalf(l - 1); l - 1
  }

  function Strip(l: nat): (r: nat)
    ensures LitVar(r) == LitVar(l) && r % 2 == 0
  {
    LitVarIsHalf(l);
    LitVarIsHalf(l - l % 2);
    l - l % 2
  }

  // ----- the packing of node keys -----

  const TWO_32: nat := 0x1_0000_0000

  function MakeNode(a: nat, b: nat): nat {
    a * TWO_32 + b
  }

  /** For 32-bit literals the packed key determines both operands, so Node stands for it. */
  lemma PackingIsInjective(a: nat, b: nat)
    requires a < TWO_32 && b < TWO_32
    ensures MakeNode(a, b) / TWO_32 == a && MakeNode(a, b) % TWO_32 == b
    ensures MakeNode(a, b) < TWO_32 * TWO_32
  {
  }

  // ----- meaning -----

  /** The value of a variable when the inputs in E are true. Variable 0 is the constant. */
  ghost predicate VarValue(gs: seq<And>, E: set<nat>, v: nat)
    decreases |gs|, 0
  {
    if v == 0 then false
    else if gs == [] then v in E
    else
      var g := gs[|gs| - 1];
      if LitVar(g.lhs) == v
      then Value(gs[..|gs| - 1], E, g.rhs0) && Value(gs[..|gs| - 1], E, g.rhs1)
      else VarValue(gs[..|gs| - 1], E, v)
  }

  ghost predicate Value(gs: seq<And>, E: set<nat>, l: nat)
    decreases |gs|, 1
  {
    VarValue(gs, E, LitVar(l)) != (l % 2 == 1)
  }

  lemma NotValue(gs: seq<And>, E: set<nat>, l: nat)
    ensures Value(gs, E, Not(l)) == !Value(gs, E, l)
  {
  }

  /** Left-hand sides are different variables, and no gate uses one that is defined at or after it. */
  ghost predicate WellFormed(gs: seq<And>) {
    && (forall k :: 0 <= k < |gs| ==> gs[k].lhs % 2 == 0 && gs[k].lhs >= 2)
    && (forall j, k :: 0 <= j < k < |gs| ==> LitVar(gs[j].lhs) != LitVar(gs[k].lhs))
    && (forall j, k :: 0 <= k <= j < |gs| ==>
       LitVar(gs[j].lhs) != LitVar(gs[k].rhs0) && LitVar(gs[j].lhs) != LitVar(gs[k].rhs1))
  }

  /** The position of a variable's gate, counted from 1; 0 for inputs and constants. */
  ghost function Rank(gs: seq<And>, v: nat): nat
    decreases |gs|
  {
    if gs == [] then 0
    else if LitVar(gs[|gs| - 1].lhs) == v then |gs|
    else Rank(gs[..|gs| - 1], v)
  }

  lemma {:induction false} RankIs(gs: seq<And>, v: nat)
    ensures Rank(gs, v) <= |gs|
    ensures Rank(gs, v) > 0 ==> LitVar(gs[Rank(gs, v) - 1].lhs) == v
    ensures forall k :: Rank(gs, v) <= k < |gs| ==> LitVar(gs[k].lhs) != v
    decreases |gs|
  {
    if gs != [] && LitVar(gs[|gs| - 1].lhs) != v {
      RankIs(gs[..|gs| - 1], v);
    }
  }

  lemma {:induction false} UndefinedValue(gs: seq<And>, hs: seq<And>, E: set<nat>, v: nat)
    requires forall k :: 0 <= k < |hs| ==> LitVar(hs[k].lhs) != v
    ensures VarValue(gs + hs, E, v) == VarValue(gs, E, v)
    decreases |hs|
  {
    if hs == [] {
      assert gs + hs == gs;
    } else {
      assert (gs + hs)[..|gs + hs| - 1] == gs + hs[..|hs| - 1];
      UndefinedValue(gs, hs[..|hs| - 1], E, v);
    }
  }

  /** Defining further variables leaves the value of all others alone. */
  lemma PrefixValue(gs: seq<And>, hs: seq<And>, E: set<nat>, l: nat)
    requires gs <= hs && forall k :: |gs| <= k < |hs| ==> LitVar(hs[k].lhs) != LitVar(l)
    ensures Value(hs, E, l) == Value(gs, E, l)
  {
    assert hs == gs + hs[|gs|..];
    UndefinedValue(gs, hs[|gs|..], E, LitVar(l));
  }

  /** In a well-formed list every gate is the conjunction of its operands. */
  lemma GateValue(gs: seq<And>, E: set<nat>, k: nat)
    requires WellFormed(gs) && k < |gs|
    ensures Value(gs, E, gs[k].lhs) == (Value(gs, E, gs[k].rhs0) && Value(gs, E, gs[k].rhs1))
  {
    var hs := gs[..k + 1];
    assert hs[..|hs| - 1] == gs[..k] && hs[|hs| - 1] == gs[k];
    assert forall j :: k + 1 <= j < |gs| ==> LitVar(gs[j].lhs) != LitVar(gs[k].lhs);
    PrefixValue(hs, gs, E, gs[k].lhs);
    PrefixValue(gs[..k], gs, E, gs[k].rhs0);
    PrefixValue(gs[..k], gs, E, gs[k].rhs1);
  }

  datatype Redundancy = RED_NONE | RED_FALSE | RED_OTHER

  class AigBuilder {
    var ands: seq<And>
    var inputs: seq<nat>
    var outputs: seq<nat>
    var current_aig_var: nat
    var node_cache: map<Node, nat>
    var inv_node_cache: map<nat, Node>
    var triv_out: set<nat>

    /** Variables whose gate is still to come: they may not be used as operands. */
    ghost const reserved: set<nat>

    /** The first variable that is neither an input nor reserved. */
    ghost const first_free: nat

    /** A literal that may be used as an operand. */
    ghost predicate Live(l: nat)
      reads this`current_aig_var
    {
      Usable(current_aig_var, reserved, l)
    }

    ghost predicate Valid()
      reads this`ands, this`current_aig_var, this`node_cache, this`inv_node_cache
    {
      Ok(ands, node_cache, inv_node_cache, first_free, current_aig_var, reserved)
    }

    static ghost predicate Ok(gs: seq<And>, cache: map<Node, nat>, inv: map<nat, Node>, first: nat, n: nat,
        later: set<nat>)
    {
      && 0 < first <= n && 0 !in later && (forall v :: v in later ==> v < first)
      && WellFormed(gs)
      && GatesUsable(gs, first, n, later)
      && CachesAgree(gs, cache, inv, n, later)
    }

    static ghost predicate Usable(n: nat, later: set<nat>, l: nat) {
      LitVar(l) < n && LitVar(l) !in later
    }

    static ghost predicate GatesUsable(gs: seq<And>, first: nat, n: nat, later: set<nat>) {
      forall g :: g in gs ==>
        && Usable(n, later, g.rhs0) && Usable(n, later, g.rhs1)
        && LitVar(g.lhs) < n && (first <= LitVar(g.lhs) || LitVar(g.lhs) in later)
    }

    /** Both caches describe gates of the list and are inverse to each other as far as a key can be
        looked up; only gates of variables that are not reserved are handed out again. */
    static ghost predicate CachesAgree(gs: seq<And>, cache: map<Node, nat>, inv: map<nat, Node>, n: nat,
        later: set<nat>)
    {
      && (forall r :: r in inv ==> CachedGate(gs, r, inv[r]) && inv[r] in cache)
      && (forall x :: x in cache ==> cache[x] in inv && inv[cache[x]] == x)
      && (forall x :: x in cache && x.first != x.second ==> Usable(n, later, cache[x]))
    }

    static ghost predicate CachedGate(gs: seq<And>, r: nat, n: Node) {
      And(r, n.first, n.second) in gs
    }

    constructor (first: nat, ghost later: set<nat>)
      requires 0 < first && 0 !in later && forall v :: v in later ==> v < first
      ensures Valid() && ands == [] && inputs == [] && outputs == []
      ensures current_aig_var == first == first_free
      ensures reserved == later && node_cache == map[] && inv_node_cache == map[] && triv_out == {}
    {
      ands, inputs, outputs, current_aig_var, first_free := [], [], [], first, first;
      node_cache, inv_node_cache, triv_out := map[], map[], {};
      reserved := later;
    }

    method NewVar() returns (v: nat)
      modifies this`current_aig_var
      ensures v == old(current_aig_var) && current_aig_var == v + 1
    {
      v := current_aig_var;
      current_aig_var := current_aig_var + 1;
    }

    /** The caches describe gates of the list. */
    static ghost predicate Cached(gs: seq<And>, inv: map<nat, Node>) {
      WellFormed(gs) && forall r :: r in inv ==> CachedGate(gs, r, inv[r])
    }

    /** Looks for a or its negation among the conjuncts of b, through cached gates only. */
    static function FindRedundant(gs: seq<And>, inv: map<nat, Node>, a: nat, b: nat): Redundancy
      requires Cached(gs, inv)
      decreases Rank(gs, LitVar(b))
    {
      if b % 2 == 1 then RED_NONE
      else if b !in inv then RED_NONE
      else
        var left, right := inv[b].first, inv[b].second;
        if a == left || a == right then RED_OTHER
        else if a == Not(left) || a == Not(right) then RED_FALSE
        else
          CachedRank(gs, b, inv[b]);
          var rec := FindRedundant(gs, inv, a, left);
          if rec != RED_NONE then rec else FindRedundant(gs, inv, a, right)
    }

    static lemma CachedRank(gs: seq<And>, r: nat, n: Node)
      requires WellFormed(gs) && CachedGate(gs, r, n)
      ensures r % 2 == 0
      ensures Rank(gs, LitVar(n.first)) < Rank(gs, LitVar(r)) && Rank(gs, LitVar(n.second)) < Rank(gs, LitVar(r))
    {
      var k :| 0 <= k < |gs| && gs[k] == And(r, n.first, n.second);
      RankIs(gs, LitVar(r));
      RankIs(gs, LitVar(n.first));
      RankIs(gs, LitVar(n.second));
      assert gs[Rank(gs, LitVar(r)) - 1].lhs == r;
    }

    static lemma CachedValue(gs: seq<And>, r: nat, n: Node, E: set<nat>)
      requires WellFormed(gs) && CachedGate(gs, r, n)
      ensures Value(gs, E, r) == (Value(gs, E, n.first) && Value(gs, E, n.second))
    {
      var k :| 0 <= k < |gs| && gs[k] == And(r, n.first, n.second);
      GateValue(gs, E, k);
    }

    /** The gate of x is cached, x is not negated, and y is one of its operands. */
    static predicate Operand(inv: map<nat, Node>, x: nat, y: nat) {
      x % 2 == 0 && x in inv && (y == inv[x].first || y == inv[x].second)
    }

    static predicate Descent(inv: map<nat, Node>, w: seq<nat>) {
      forall k :: 0 < k < |w| ==> Operand(inv, w[k - 1], w[k])
    }

    /** A literal that b is a conjunction of, among others, as far as the cache shows it. */
    static ghost predicate Conjunct(inv: map<nat, Node>, b: nat, c: nat) {
      exists w: seq<nat> :: |w| > 1 && w[0] == b && w[|w| - 1] == c && Descent(inv, w)
    }

    /** Whether a or its negation is a conjunct of b. */
    static ghost predicate Meets(inv: map<nat, Node>, a: nat, b: nat) {
      exists c :: Conjunct(inv, b, c) && (c == a || c == Not(a))
    }

    static lemma NotTwice(a: nat)
      ensures Not(Not(a)) == a
    {
    }

    static lemma ConjunctOperand(inv: map<nat, Node>, b: nat, c: nat)
      requires Operand(inv, b, c)
      ensures Conjunct(inv, b, c)
    {
      var w: seq<nat> := [b, c];
      assert w[0] == b && w[|w| - 1] == c && Descent(inv, w);
    }

    static lemma ConjunctBelow(inv: map<nat, Node>, b: nat, x: nat, c: nat)
      requires Operand(inv, b, x) && Conjunct(inv, x, c)
      ensures Conjunct(inv, b, c)
    {
      var w: seq<nat> :| |w| > 1 && w[0] == x && w[|w| - 1] == c && Descent(inv, w);
      var longer := [b] + w;
      assert longer[0] == b && longer[|longer| - 1] == c && Descent(inv, longer);
    }

    static lemma ConjunctSplit(inv: map<nat, Node>, b: nat, c: nat)
      requires Conjunct(inv, b, c)
      ensures b % 2 == 0 && b in inv
      ensures c == inv[b].first || c == inv[b].second
        || Conjunct(inv, inv[b].first, c) || Conjunct(inv, inv[b].second, c)
    {
      var w: seq<nat> :| |w| > 1 && w[0] == b && w[|w| - 1] == c && Descent(inv, w);
      assert Operand(inv, w[0], w[1]);
      if |w| > 2 {
        var rest := w[1..];
        assert forall k :: 0 < k < |rest| ==> rest[k - 1] == w[k] && rest[k] == w[k + 1];
        assert rest[0] == w[1] && rest[|rest| - 1] == c && Descent(inv, rest);
      }
    }

    /** The search finds a or its negation exactly if one of them is a conjunct of b, and says which. */
    static lemma {:induction false} RedundantExact(gs: seq<And>, inv: map<nat, Node>, a: nat, b: nat)
      requires Cached(gs, inv)
      ensures FindRedundant(gs, inv, a, b) != RED_NONE <==> Meets(inv, a, b)
      ensures FindRedundant(gs, inv, a, b) == RED_OTHER ==> Conjunct(inv, b, a)
      ensures FindRedundant(gs, inv, a, b) == RED_FALSE ==> Conjunct(inv, b, Not(a))
      decreases Rank(gs, LitVar(b))
    {
      hide Conjunct, Meets;
      MeetsBelow(inv, a, b);
      if b % 2 == 0 && b in inv {
        var left, right := inv[b].first, inv[b].second;
        CachedRank(gs, b, inv[b]);
        RedundantExact(gs, inv, a, left);
        RedundantExact(gs, inv, a, right);
        ConjunctsBelow(inv, a, b);
      }
    }

    static lemma ConjunctsBelow(inv: map<nat, Node>, a: nat, b: nat)
      requires b % 2 == 0 && b in inv
      ensures Conjunct(inv, b, inv[b].first) && Conjunct(inv, b, inv[b].second)
      ensures Conjunct(inv, inv[b].first, a) || Conjunct(inv, inv[b].second, a) ==> Conjunct(inv, b, a)
      ensures Conjunct(inv, inv[b].first, Not(a)) || Conjunct(inv, inv[b].second, Not(a)) ==> Conjunct(inv, b, Not(a))
      ensures a == Not(inv[b].first) || a == Not(inv[b].second) ==> Conjunct(inv, b, Not(a))
    {
      hide Conjunct;
      var left, right := inv[b].first, inv[b].second;
      NotTwice(left);
      NotTwice(right);
      ConjunctOperand(inv, b, left);
      ConjunctOperand(inv, b, right);
      forall x, c | (x == left || x == right) && (c == a || c == Not(a)) && Conjunct(inv, x, c)
        ensures Conjunct(inv, b, c)
      {
        ConjunctBelow(inv, b, x, c);
      }
    }

    static lemma MeetsBelow(inv: map<nat, Node>, a: nat, b: nat)
      ensures Meets(inv, a, b) ==> b % 2 == 0 && b in inv
      ensures b % 2 == 0 && b in inv ==>
        (Meets(inv, a, b) <==>
          a == inv[b].first || a == inv[b].second || a == Not(inv[b].first) || a == Not(inv[b].second)
          || Meets(inv, a, inv[b].first) || Meets(inv, a, inv[b].second))
    {
      hide Conjunct;
      if Meets(inv, a, b) {
        var c :| Conjunct(inv, b, c) && (c == a || c == Not(a));
        ConjunctSplit(inv, b, c);
        NotTwice(a);
      }
      if b % 2 == 0 && b in inv {
        ConjunctsBelow(inv, a, b);
      }
    }

    /** The verdict of the search is a true implication, under every input. */
    static lemma {:induction false} RedundantImplies(gs: seq<And>, inv: map<nat, Node>, a: nat, b: nat, E: set<nat>)
      requires Cached(gs, inv)
      ensures FindRedundant(gs, inv, a, b) == RED_OTHER ==> (Value(gs, E, b) ==> Value(gs, E, a))
      ensures FindRedundant(gs, inv, a, b) == RED_FALSE ==> !(Value(gs, E, a) && Value(gs, E, b))
      decreases Rank(gs, LitVar(b))
    {
      if b % 2 == 0 && b in inv {
        var left, right := inv[b].first, inv[b].second;
        CachedValue(gs, b, inv[b], E);
        CachedRank(gs, b, inv[b]);
        if a == left || a == right {
        } else if a == Not(left) || a == Not(right) {
          NotValue(gs, E, left);
          NotValue(gs, E, right);
        } else {
          RedundantImplies(gs, inv, a, left, E);
          RedundantImplies(gs, inv, a, right, E);
        }
      }
    }

    /** The graph grows by gates of new variables only, and every variable known before keeps
        its value. */
    static ghost predicate Extends(gs: seq<And>, n: nat, hs: seq<And>, m: nat) {
      && gs <= hs && n <= m
      && (forall k :: |gs| <= k < |hs| ==> LitVar(hs[k].lhs) >= n)
      && forall E: set<nat>, l: nat :: LitVar(l) < n ==> Value(hs, E, l) == Value(gs, E, l)
    }

    static lemma ExtendsTrans(gs: seq<And>, n: nat, hs: seq<And>, m: nat, fs: seq<And>, k: nat)
      requires Extends(gs, n, hs, m) && Extends(hs, m, fs, k)
      ensures Extends(gs, n, fs, k)
    {
      forall E: set<nat>, l: nat | LitVar(l) < n ensures Value(fs, E, l) == Value(gs, E, l) {
        assert Value(hs, E, l) == Value(gs, E, l);
      }
    }

    /** The conjunction needs no gate: a constant, the same literal twice or with its negation, or one
        that is redundant beside the other. */
    static ghost predicate NeedsNone(inv: map<nat, Node>, a: nat, b: nat) {
      || a == FALSE_LIT || b == FALSE_LIT || a == TRUE_LIT || b == TRUE_LIT || a == b || a == Not(b)
      || Meets(inv, a, b) || Meets(inv, b, a)
    }

    /** A gate is shared if there is one: where none is needed, the result is an operand or false; else it
        is the cached gate of the operands in either order; and only else the list and the caches grow,
        by one gate for just these operands. */
    static ghost predicate Shares(gs: seq<And>, cache: map<Node, nat>, inv: map<nat, Node>, n: nat, gs': seq<And>,
        cache': map<Node, nat>, inv': map<nat, Node>, n': nat, a: nat, b: nat, res: nat)
    {
      if NeedsNone(inv, a, b) || Node(b, a) in cache || Node(a, b) in cache then
        && gs' == gs && cache' == cache && inv' == inv && n' == n
        && if NeedsNone(inv, a, b) then res == FALSE_LIT || res == a || res == b
           else res == cache[if Node(b, a) in cache then Node(b, a) else Node(a, b)]
      else
        && gs' == gs + [And(res, a, b)] && cache' == cache[Node(a, b) := res] && inv' == inv[res := Node(a, b)]
        && n' == n + 1 && res == 2 * n
    }

    /** A literal for the conjunction, of an old gate if possible. */
    method MakeAND(a: nat, b: nat) returns (res: nat)
      requires Valid() && Live(a) && Live(b)
      modifies this`ands, this`current_aig_var, this`node_cache, this`inv_node_cache
      ensures Valid() && Live(res) && Extends(old(ands), old(current_aig_var), ands, current_aig_var)
      ensures forall E: set<nat> :: Value(ands, E, res) == (Value(ands, E, a) && Value(ands, E, b))
      ensures old(inv_node_cache.Keys) <= inv_node_cache.Keys
      ensures Shares(old(ands), old(node_cache), old(inv_node_cache), old(current_aig_var), ands, node_cache,
        inv_node_cache, current_aig_var, a, b, res)
    {
      hide NeedsNone, Extends;
      var simple: bool;
      StillExtends(ands, current_aig_var);
      simple, res := SimpleAND(a, b);
      if simple { return res; }
      var cached: bool;
      cached, res := LookUp(a, b);
      if cached { return res; }
      res := NewGate(a, b);
    }

    static lemma StillExtends(gs: seq<And>, n: nat)
      ensures Extends(gs, n, gs, n)
    {
    }

    /** A gate for the two operands, in either order. */
    method LookUp(a: nat, b: nat) returns (cached: bool, res: nat)
      requires Valid() && a != b
      ensures cached <==> Node(a, b) in node_cache || Node(b, a) in node_cache
      ensures cached ==> res == node_cache[if Node(b, a) in node_cache then Node(b, a) else Node(a, b)]
      ensures cached ==> Live(res)
      ensures cached ==> forall E: set<nat> :: Value(ands, E, res) == (Value(ands, E, a) && Value(ands, E, b))
    {
      if Node(b, a) in node_cache {
        res := node_cache[Node(b, a)];
        forall E: set<nat> ensures Value(ands, E, res) == (Value(ands, E, a) && Value(ands, E, b)) {
          CachedValue(ands, res, Node(b, a), E);
        }
        return true, res;
      }
      if Node(a, b) in node_cache {
        res := node_cache[Node(a, b)];
        forall E: set<nat> ensures Value(ands, E, res) == (Value(ands, E, a) && Value(ands, E, b)) {
          CachedValue(ands, res, Node(a, b), E);
        }
        return true, res;
      }
      return false, 0;
    }

    method NewGate(a: nat, b: nat) returns (res: nat)
      requires Valid() && Live(a) && Live(b) && a != b
      modifies this`ands, this`current_aig_var, this`node_cache, this`inv_node_cache
      ensures Valid() && Live(res) && Extends(old(ands), old(current_aig_var), ands, current_aig_var)
      ensures forall E: set<nat> :: Value(ands, E, res) == (Value(ands, E, a) && Value(ands, E, b))
      ensures old(inv_node_cache.Keys) <= inv_node_cache.Keys
      ensures res == 2 * old(current_aig_var) && ands == old(ands) + [And(res, a, b)]
        && current_aig_var == old(current_aig_var) + 1 && node_cache == old(node_cache)[Node(a, b) := res]
        && inv_node_cache == old(inv_node_cache)[res := Node(a, b)]
    {
      ghost var n := current_aig_var;
      var v := NewVar();
      res := 2 * v;
      var gs, cache, inv := ands + [And(res, a, b)], node_cache[Node(a, b) := res], inv_node_cache[res := Node(a, b)];
      LitVarOf(n);
      FreshGate(ands, node_cache, inv_node_cache, first_free, n, current_aig_var, reserved, And(res, a, b), gs, cache,
        inv);
      ands, node_cache, inv_node_cache := gs, cache, inv;
    }

    /** A gate for the next variable keeps the builder consistent and changes no other value. */
    static lemma FreshGate(gs: seq<And>, cache: map<Node, nat>, inv: map<nat, Node>, first: nat, n: nat, m: nat,
        later: set<nat>, g: And, gs': seq<And>, cache': map<Node, nat>, inv': map<nat, Node>)
      requires Ok(gs, cache, inv, first, n, later) && Usable(n, later, g.rhs0) && Usable(n, later, g.rhs1) && m == n + 1
      requires LitVar(g.lhs) == n && g.lhs % 2 == 0 && g.lhs >= 2
      requires gs' == gs + [g] && cache' == cache[Node(g.rhs0, g.rhs1) := g.lhs]
        && inv' == inv[g.lhs := Node(g.rhs0, g.rhs1)]
      ensures Ok(gs', cache', inv', first, m, later) && Extends(gs, n, gs', m) && Usable(m, later, g.lhs)
      ensures forall E: set<nat> :: Value(gs', E, g.lhs) == (Value(gs', E, g.rhs0) && Value(gs', E, g.rhs1))
    {
      assert Unused(gs, n);
      AppendedWellFormed(gs, g);
      MoreVars(gs, cache, inv, first, n, m, later);
      AppendedUsable(gs, first, m, later, g);
      AppendedCaches(gs, cache, inv, m, later, g);
      AppendedGate(gs, g);
    }

    static lemma MoreVars(gs: seq<And>, cache: map<Node, nat>, inv: map<nat, Node>, first: nat, n: nat, m: nat,
        later: set<nat>)
      requires GatesUsable(gs, first, n, later) && CachesAgree(gs, cache, inv, n, later) && n <= m
      ensures GatesUsable(gs, first, m, later) && CachesAgree(gs, cache, inv, m, later)
    {
    }

    /** The simple rules, and the search for redundancies of the form a & (a & x) or a & (!a & x). */
    method SimpleAND(a: nat, b: nat) returns (simple: bool, res: nat)
      requires Valid() && Live(a) && Live(b)
      ensures simple ==> Live(res)
      ensures simple ==> forall E: set<nat> :: Value(ands, E, res) == (Value(ands, E, a) && Value(ands, E, b))
      ensures simple <==> NeedsNone(inv_node_cache, a, b)
      ensures simple ==> res in {FALSE_LIT, a, b}
      ensures !simple ==> a != b
    {
      hide Meets;
      RedundantExact(ands, inv_node_cache, a, b);
      RedundantExact(ands, inv_node_cache, b, a);
      forall E: set<nat>
        ensures Value(ands, E, Not(b)) == !Value(ands, E, b)
        ensures !Value(ands, E, FALSE_LIT) && Value(ands, E, TRUE_LIT)
      {
        NotValue(ands, E, b);
        ConstantValue(ands, E);
      }
      if a == FALSE_LIT || b == FALSE_LIT { return true, FALSE_LIT; }
      if a == TRUE_LIT { return true, b; }
      if b == TRUE_LIT { return true, a; }
      if a == b { return true, a; }
      if a == Not(b) { return true, FALSE_LIT; }
      var red := FindRedundant(ands, inv_node_cache, a, b);
      forall E: set<nat>
        ensures red == RED_OTHER ==> (Value(ands, E, b) ==> Value(ands, E, a))
        ensures red == RED_FALSE ==> !(Value(ands, E, a) && Value(ands, E, b))
      {
        RedundantImplies(ands, inv_node_cache, a, b, E);
      }
      if red == RED_FALSE { return true, FALSE_LIT; }
      if red == RED_OTHER { return true, b; }
      red := FindRedundant(ands, inv_node_cache, b, a);
      forall E: set<nat>
        ensures red == RED_OTHER ==> (Value(ands, E, a) ==> Value(ands, E, b))
        ensures red == RED_FALSE ==> !(Value(ands, E, a) && Value(ands, E, b))
      {
        RedundantImplies(ands, inv_node_cache, b, a, E);
      }
      if red == RED_FALSE { return true, FALSE_LIT; }
      if red == RED_OTHER { return true, a; }
      return false, 0;
    }

    static lemma ConstantValue(gs: seq<And>, E: set<nat>)
      ensures !Value(gs, E, FALSE_LIT) && Value(gs, E, TRUE_LIT)
    {
    }

    /** The variable occurs in no gate. */
    static ghost predicate Unused(gs: seq<And>, v: nat) {
      forall g :: g in gs ==> LitVar(g.lhs) != v && LitVar(g.rhs0) != v && LitVar(g.rhs1) != v
    }

    static lemma AppendedWellFormed(gs: seq<And>, g: And)
      requires WellFormed(gs) && g.lhs % 2 == 0 && g.lhs >= 2
      requires LitVar(g.rhs0) != LitVar(g.lhs) && LitVar(g.rhs1) != LitVar(g.lhs)
      requires Unused(gs, LitVar(g.lhs))
      ensures WellFormed(gs + [g])
    {
      var hs := gs + [g];
      forall k | 0 <= k < |gs| ensures hs[k] == gs[k] && gs[k] in gs {
      }
    }

    static lemma AppendedUsable(gs: seq<And>, first: nat, n: nat, later: set<nat>, g: And)
      requires GatesUsable(gs, first, n, later) && Usable(n, later, g.rhs0) && Usable(n, later, g.rhs1)
      requires LitVar(g.lhs) < n && (first <= LitVar(g.lhs) || LitVar(g.lhs) in later)
      ensures GatesUsable(gs + [g], first, n, later)
    {
    }

    static lemma AppendedGate(gs: seq<And>, g: And)
      requires WellFormed(gs) && g.lhs % 2 == 0 && g.lhs >= 2
      requires LitVar(g.rhs0) != LitVar(g.lhs) && LitVar(g.rhs1) != LitVar(g.lhs)
      requires Unused(gs, LitVar(g.lhs))
      ensures WellFormed(gs + [g])
      ensures forall E: set<nat>, l: nat :: LitVar(l) != LitVar(g.lhs) ==> Value(gs + [g], E, l) == Value(gs, E, l)
      ensures forall E: set<nat> ::
        Value(gs + [g], E, g.lhs) == (Value(gs + [g], E, g.rhs0) && Value(gs + [g], E, g.rhs1))
    {
      AppendedWellFormed(gs, g);
      var hs := gs + [g];
      assert hs[|gs|] == g;
      forall E: set<nat>, l: nat | LitVar(l) != LitVar(g.lhs) ensures Value(hs, E, l) == Value(gs, E, l) {
        PrefixValue(gs, hs, E, l);
      }
      forall E: set<nat> ensures Value(hs, E, g.lhs) == (Value(hs, E, g.rhs0) && Value(hs, E, g.rhs1)) {
        GateValue(hs, E, |gs|);
      }
    }

    static lemma AppendedCaches(gs: seq<And>, cache: map<Node, nat>, inv: map<nat, Node>, n: nat, later: set<nat>,
        g: And)
      requires CachesAgree(gs, cache, inv, n, later) && Unused(gs, LitVar(g.lhs))
      requires g.rhs0 != g.rhs1 ==> Usable(n, later, g.lhs)
      ensures g.lhs !in inv
      ensures CachesAgree(gs + [g], cache[Node(g.rhs0, g.rhs1) := g.lhs], inv[g.lhs := Node(g.rhs0, g.rhs1)], n, later)
    {
      assert forall x :: x in gs + [g] <==> x in gs || x == g;
    }

    method MakeOR(a: nat, b: nat) returns (res: nat)
      requires Valid() && Live(a) && Live(b)
      modifies this`ands, this`current_aig_var, this`node_cache, this`inv_node_cache
      ensures Valid() && Live(res) && Extends(old(ands), old(current_aig_var), ands, current_aig_var)
      ensures forall E: set<nat> :: Value(ands, E, res) == (Value(ands, E, a) || Value(ands, E, b))
      ensures old(inv_node_cache.Keys) <= inv_node_cache.Keys
    {
      hide Shares;
      var both := MakeAND(Not(a), Not(b));
      res := Not(both);
      forall E: set<nat> ensures Value(ands, E, res) == (Value(ands, E, a) || Value(ands, E, b)) {
        NotValue(ands, E, a);
        NotValue(ands, E, b);
        NotValue(ands, E, both);
      }
    }

    method MakeITE(cond: nat, then_b: nat, else_b: nat) returns (res: nat)
      requires Valid() && Live(cond) && Live(then_b) && Live(else_b)
      modifies this`ands, this`current_aig_var, this`node_cache, this`inv_node_cache
      ensures Valid() && Live(res) && Extends(old(ands), old(current_aig_var), ands, current_aig_var)
      ensures forall E: set<nat> :: Value(ands, E, res) ==
                                    if Value(ands, E, cond) then Value(ands, E, then_b) else Value(ands, E, else_b)
      ensures old(inv_node_cache.Keys) <= inv_node_cache.Keys
    {
      hide Shares, WellFormed, GatesUsable, CachesAgree;
      forall E: set<nat> ensures !Value(ands, E, FALSE_LIT) && Value(ands, E, TRUE_LIT) {
        ConstantValue(ands, E);
      }
      if cond == TRUE_LIT { return then_b; }
      if cond == FALSE_LIT { return else_b; }
      if then_b == else_b { return then_b; }
      var t := MakeAND(cond, then_b);
      var e := MakeAND(Not(cond), else_b);
      res := MakeOR(t, e);
      forall E: set<nat>
        ensures Value(ands, E, res) ==
                if Value(ands, E, cond) then Value(ands, E, then_b) else Value(ands, E, else_b)
      {
        NotValue(ands, E, cond);
      }
    }

    // ----- outputs -----

    /** The gate of a reserved variable has not been added yet. */
    ghost predicate Pending(v: nat)
      reads this`ands
    {
      v in reserved && forall g :: g in ands ==> LitVar(g.lhs) != v
    }

    /** An input has the value it is given. */
    lemma InputValue(v: nat, E: set<nat>)
      requires Valid() && 0 < v < first_free && v !in reserved
      ensures Value(ands, E, 2 * v) == (v in E)
    {
      NeverDefined(ands, E, v);
    }

    static lemma NeverDefined(gs: seq<And>, E: set<nat>, v: nat)
      requires v > 0 && forall g :: g in gs ==> LitVar(g.lhs) != v
      ensures Value(gs, E, 2 * v) == (v in E)
    {
      LitVarOf(v);
      assert [] + gs == gs;
      UndefinedValue([], gs, E, v);
    }

    /** Everything but the outputs of the first block is found again through the cache. */
    ghost predicate OutputsCached()
      reads this`outputs, this`triv_out, this`inv_node_cache
    {
      AllCached(outputs, triv_out, inv_node_cache.Keys)
    }

    static ghost predicate AllCached(outputs: seq<nat>, trivial: set<nat>, cached: set<nat>) {
      forall o :: o in outputs ==> o in trivial || o in cached
    }

    static lemma AppendedOutput(outputs: seq<nat>, trivial: set<nat>, cached: set<nat>, trivial': set<nat>,
        cached': set<nat>, o: nat)
      requires AllCached(outputs, trivial, cached) && trivial <= trivial' && cached <= cached'
      requires o in trivial' || o in cached'
      ensures AllCached(outputs + [o], trivial', cached')
    {
    }

    /** A gate for a reserved variable keeps the builder consistent, cached or not, and changes
        no other value. */
    static lemma ReservedGate(gs: seq<And>, cache: map<Node, nat>, inv: map<nat, Node>, first: nat, n: nat,
        later: set<nat>, v: nat, x: nat)
      requires Ok(gs, cache, inv, first, n, later) && Usable(n, later, x)
      requires v in later && forall g :: g in gs ==> LitVar(g.lhs) != v
      ensures Ok(gs + [And(2 * v, x, x)], cache[Node(x, x) := 2 * v], inv[2 * v := Node(x, x)], first, n, later)
      ensures Ok(gs + [And(2 * v, x, x)], cache, inv, first, n, later)
      ensures forall E: set<nat> :: Value(gs + [And(2 * v, x, x)], E, 2 * v) == Value(gs, E, x)
      ensures forall E: set<nat>, l: nat :: LitVar(l) != v ==> Value(gs + [And(2 * v, x, x)], E, l) == Value(gs, E, l)
    {
      var g := And(2 * v, x, x);
      LitVarOf(v);
      assert Unused(gs, v);
      AppendedWellFormed(gs, g);
      AppendedUsable(gs, first, n, later, g);
      AppendedCaches(gs, cache, inv, n, later, g);
      UncachedGate(gs, cache, inv, n, later, g);
      AppendedGate(gs, g);
    }

    static lemma UncachedGate(gs: seq<And>, cache: map<Node, nat>, inv: map<nat, Node>, n: nat, later: set<nat>, g: And)
      requires CachesAgree(gs, cache, inv, n, later)
      ensures CachesAgree(gs + [g], cache, inv, n, later)
    {
    }

    /** A constant output, for a universal variable that nothing precedes. */
    method AddTrivialOutput(v: nat, ind: nat)
      requires Valid() && OutputsCached() && Pending(v) && (ind == TRUE_LIT || ind == FALSE_LIT)
      modifies this`ands, this`outputs, this`triv_out
      ensures Valid() && OutputsCached()
      ensures ands == old(ands) + [And(2 * v, ind, ind)] && outputs == old(outputs) + [2 * v]
      ensures triv_out == old(triv_out) + {2 * v}
      ensures forall E: set<nat> :: Value(ands, E, 2 * v) == (ind == TRUE_LIT)
      ensures forall E: set<nat>, l: nat :: LitVar(l) != v ==> Value(ands, E, l) == Value(old(ands), E, l)
    {
      ReservedGate(ands, node_cache, inv_node_cache, first_free, current_aig_var, reserved, v, ind);
      forall E: set<nat> ensures Value(ands, E, ind) == (ind == TRUE_LIT) {
        ConstantValue(ands, E);
      }
      AppendedOutput(outputs, triv_out, inv_node_cache.Keys, triv_out + {2 * v}, inv_node_cache.Keys, 2 * v);
      ands := ands + [And(2 * v, ind, ind)];
      outputs := outputs + [2 * v];
      triv_out := triv_out + {2 * v};
    }

    /** An output gate that copies a literal into the universal variable's own gate. */
    method AddOutput(v: nat, solution: nat)
      requires Valid() && OutputsCached() && Pending(v) && Live(solution)
      modifies this`ands, this`outputs, this`node_cache, this`inv_node_cache
      ensures Valid() && OutputsCached()
      ensures ands == old(ands) + [And(2 * v, solution, solution)] && outputs == old(outputs) + [2 * v]
      ensures forall E: set<nat> :: Value(ands, E, 2 * v) == Value(old(ands), E, solution)
      ensures forall E: set<nat>, l: nat :: LitVar(l) != v ==> Value(ands, E, l) == Value(old(ands), E, l)
    {
      var gs, cache := ands + [And(2 * v, solution, solution)], node_cache[Node(solution, solution) := 2 * v];
      var inv := inv_node_cache[2 * v := Node(solution, solution)];
      ReservedGate(ands, node_cache, inv_node_cache, first_free, current_aig_var, reserved, v, solution);
      AppendedOutput(outputs, triv_out, inv_node_cache.Keys, triv_out, inv.Keys, 2 * v);
      ands, node_cache, inv_node_cache, outputs := gs, cache, inv, outputs + [2 * v];
    }

    // ----- the check that the graph does not oscillate -----

    /** Everything the members of S were built from is in S too. */
    static ghost predicate ConeClosed(inv: map<nat, Node>, S: set<nat>) {
      forall r {:trigger r in inv} :: r in S && r in inv ==> Strip(inv[r].first) in S && Strip(inv[r].second) in S
    }

    /** The operands of a cached gate, without their signs, were defined before it. */
    static lemma OperandsBefore(gs: seq<And>, inv: map<nat, Node>, r: nat)
      requires Cached(gs, inv) && r in inv
      ensures r % 2 == 0
      ensures Strip(inv[r].first) % 2 == 0 && Rank(gs, LitVar(Strip(inv[r].first))) < Rank(gs, LitVar(r))
      ensures Strip(inv[r].second) % 2 == 0 && Rank(gs, LitVar(Strip(inv[r].second))) < Rank(gs, LitVar(r))
    {
      CachedRank(gs, r, inv[r]);
    }

    /** Depth-first search from one gate. Both assertions of the original hold: only unsigned
        literals are visited, and none is met again while it is still being explored. */
    static method CheckOscillationHelper(ghost gs: seq<And>, inv: map<nat, Node>, permanent: set<nat>,
        temporary: set<nat>, current: nat)
      returns (permanent': set<nat>, temporary': set<nat>)
      requires Cached(gs, inv) && current % 2 == 0
      requires forall t :: t in temporary ==> Rank(gs, LitVar(t)) > Rank(gs, LitVar(current))
      requires ConeClosed(inv, permanent)
      ensures temporary' == temporary
      ensures permanent <= permanent' && current in permanent' && ConeClosed(inv, permanent')
      decreases Rank(gs, LitVar(current))
    {
      assert current % 2 == 0;
      permanent', temporary' := permanent, temporary;
      if current in permanent { return; }
      var missing := current !in temporary;
      assert missing;
      temporary' := temporary + {current};
      if current in inv {
        var node := inv[current];
        OperandsBefore(gs, inv, current);
        permanent', temporary' := CheckOscillationHelper(gs, inv, permanent', temporary', Strip(node.first));
        permanent', temporary' := CheckOscillationHelper(gs, inv, permanent', temporary', Strip(node.second));
      }
      permanent' := permanent' + {current};
      temporary' := temporary' - {current};
    }

    method CheckOscillation() returns (permanent: set<nat>)
      requires Cached(ands, inv_node_cache) && OutputsCached()
      ensures ConeClosed(inv_node_cache, permanent)
      ensures forall o :: o in outputs && o !in triv_out ==> o in permanent
    {
      permanent := {};
      var oi := 0;
      while oi < |outputs|
        invariant 0 <= oi <= |outputs| && ConeClosed(inv_node_cache, permanent)
        invariant forall j :: 0 <= j < oi && outputs[j] !in triv_out ==> outputs[j] in permanent
      {
        if outputs[oi] !in triv_out {
          assert outputs[oi] in outputs;
          assert outputs[oi] in inv_node_cache;
          OperandsBefore(ands, inv_node_cache, outputs[oi]);
          var temporary: set<nat>;
          permanent, temporary := CheckOscillationHelper(ands, inv_node_cache, permanent, {}, outputs[oi]);
        }
        oi := oi + 1;
      }
    }
  }
}
