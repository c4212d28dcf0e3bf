/** Subsumption between clauses, with the 32-bit abstraction of their variables as a filter. */
module Subsumption {
  import opened SolverTypes
  import opened SolverStates
  import opened SolverNogoods
  import opened SolverAnalysis

  // ----- the abstraction -----

  function Bit(v: nat): bv32 {
    1 << (v % 32)
  }

  /** The bits of all variables of a clause. */
  function Abstraction(bit: nat -> bv32, c: Clause): bv32 {
    if c == [] then 0 else Abstraction(bit, c[..|c| - 1]) | bit(c[|c| - 1].v)
  }

  /** All bits of a are bits of b: the test the original makes. */
  predicate Within(a: bv32, b: bv32) {
    a & !b == 0
  }

  lemma OrZero(x: bv32, y: bv32)
    ensures x | y == 0 <==> x == 0 && y == 0
  {
    assert x == x & (x | y) && y == y & (x | y);
  }

  lemma OrWithin(a: bv32, b: bv32, c: bv32)
    ensures Within(a | b, c) <==> Within(a, c) && Within(b, c)
  {
    assert (a | b) & !c == (a & !c) | (b & !c);
    OrZero(a & !c, b & !c);
  }

  lemma WithinOr(a: bv32, b: bv32)
    ensures Within(a, a | b) && Within(b, a | b)
  {
    assert a & !(a | b) == 0 && b & !(a | b) == 0;
  }

  lemma WithinTrans(a: bv32, b: bv32, c: bv32)
    requires Within(a, b) && Within(b, c)
    ensures Within(a, c)
  {
    assert a & !c == (a & b & !c) | (a & !b & !c);
  }

  lemma StepBit(x: bv32, a: bv32, b: bv32, all: bv32)
    requires all == a | b && Within(x, a)
    ensures Within(x, all)
  {
    WithinOr(a, b);
    WithinTrans(x, a, all);
  }

  lemma LastBit(a: bv32, b: bv32, all: bv32)
    requires all == a | b
    ensures Within(b, all)
  {
    WithinOr(a, b);
  }

  lemma StepAll(a: bv32, b: bv32, all: bv32, c: bv32)
    requires all == a | b && Within(a, c) && Within(b, c)
    ensures Within(all, c)
  {
    OrWithin(a, b, c);
  }

  lemma {:induction false} BitWithin(bit: nat -> bv32, c: Clause, l: Lit)
    requires l in c
    ensures Within(bit(l.v), Abstraction(bit, c))
  {
    var n := |c| - 1;
    assert c == c[..n] + [c[n]];
    if l in c[..n] {
      BitWithin(bit, c[..n], l);
      BitOfRest(bit, c, l.v);
    } else {
      BitOfLast(bit, c);
    }
  }

  lemma BitOfRest(bit: nat -> bv32, c: Clause, v: nat)
    requires c != [] && Within(bit(v), Abstraction(bit, c[..|c| - 1]))
    ensures Within(bit(v), Abstraction(bit, c))
  {
    StepBit(bit(v), Abstraction(bit, c[..|c| - 1]), bit(c[|c| - 1].v), Abstraction(bit, c));
  }

  lemma BitOfLast(bit: nat -> bv32, c: Clause)
    requires c != []
    ensures Within(bit(c[|c| - 1].v), Abstraction(bit, c))
  {
    LastBit(Abstraction(bit, c[..|c| - 1]), bit(c[|c| - 1].v), Abstraction(bit, c));
  }

  /** The filter lets every clause through whose variables all occur in the other. */
  lemma {:induction false} VarsWithin(bit: nat -> bv32, c: Clause, d: Clause)
    requires VarsOf(c) <= VarsOf(d)
    ensures Within(Abstraction(bit, c), Abstraction(bit, d))
  {
    if c == [] {
      ZeroWithin(Abstraction(bit, d));
    } else {
      var n := |c| - 1;
      LastVars(c, d);
      VarsWithin(bit, c[..n], d);
      var l :| l in d && l.v == c[n].v;
      BitWithin(bit, d, l);
      StepAll(Abstraction(bit, c[..n]), bit(c[n].v), Abstraction(bit, c), Abstraction(bit, d));
    }
  }

  lemma ZeroWithin(c: bv32)
    ensures Within(0, c)
  {
  }

  lemma LastVars(c: Clause, d: Clause)
    requires c != [] && VarsOf(c) <= VarsOf(d)
    ensures VarsOf(c[..|c| - 1]) <= VarsOf(d) && exists l :: l in d && l.v == c[|c| - 1].v
  {
    var n := |c| - 1;
    assert c == c[..n] + [c[n]];
    VarsOfAppend(c[..n], c[n]);
  }

  method CalcAbstraction(c: Clause) returns (abstraction: bv32)
    ensures abstraction == Abstraction(Bit, c)
  {
    abstraction := 0;
    var i := 0;
    while i < |c|
      invariant 0 <= i <= |c| && abstraction == Abstraction(Bit, c[..i])
    {
      assert c[..i + 1][..i] == c[..i];
      abstraction := abstraction | Bit(c[i].v);
      i := i + 1;
    }
    assert c[..i] == c;
  }

  // ----- the check -----

  datatype Verdict = Nothing | Subsumes | Strengthens(p: Lit)

  /** Every literal of c but p is in d, and p is in d negated. */
  ghost predicate Flips(c: Clause, d: Clause, p: Lit) {
    p in c && Neg(p) in d && forall l :: l in c && l != p ==> l in d
  }

  ghost predicate Subset(c: Clause, d: Clause) {
    forall l :: l in c ==> l in d
  }

  /** What the first i literals of c have shown. */
  ghost predicate SoFar(c: Clause, d: Clause, i: nat, ret: Verdict)
    requires i <= |c|
  {
    match ret
    case Nothing => false
    case Subsumes => forall k :: 0 <= k < i ==> c[k] in d
    case Strengthens(p) => (exists k :: 0 <= k < i && c[k] == p) && Neg(p) in d && forall k ::
      0 <= k < i && c[k] != p ==> c[k] in d
  }

  /** Looks for a literal or, as long as none was flipped, its negation. */
  method Search(l: Lit, d: Clause, ret: Verdict) returns (found: bool, ret': Verdict)
    requires DistinctVars(d)
    ensures found && ret' == ret <==> l in d
    ensures found && ret' != ret <==> l !in d && ret == Subsumes && Neg(l) in d
    ensures ret' == ret || ret' == Strengthens(l)
  {
    var j := 0;
    while j < |d|
      invariant 0 <= j <= |d| && l !in d[..j] && (ret == Subsumes ==> Neg(l) !in d[..j])
    {
      assert d[..j + 1] == d[..j] + [d[j]];
      if l == d[j] {
        return true, ret;
      } else if ret == Subsumes && l == Neg(d[j]) {
        OtherSign(d, j, l);
        return true, Strengthens(l);
      }
      j := j + 1;
    }
    assert d[..j] == d;
    return false, ret;
  }

  lemma OtherSign(d: Clause, j: nat, l: Lit)
    requires DistinctVars(d) && j < |d| && d[j] == Neg(l)
    ensures l !in d
  {
    forall k | 0 <= k < |d| ensures d[k] != l {
      assert k != j ==> d[k].v != d[j].v;
    }
  }

  /** The check is exact for clauses in which no variable occurs twice: it tells a subset, a subset
      but for one flipped literal, and everything else apart. */
  method CheckSubsumes(c: Clause, abs: bv32, d: Clause, dabs: bv32) returns (ret: Verdict)
    requires DistinctVars(c) && DistinctVars(d) && abs == Abstraction(Bit, c) && dabs == Abstraction(Bit, d)
    ensures ret == Subsumes <==> Subset(c, d)
    ensures forall p :: ret == Strengthens(p) <==> Flips(c, d, p)
  {
    if |d| < |c| || abs & !dabs != 0 {
      NeverRejected(c, d);
      return Nothing;
    }
    ret := Subsumes;
    var i := 0;
    while i < |c|
      invariant 0 <= i <= |c| && SoFar(c, d, i, ret)
    {
      var found, ret' := Search(c[i], d, ret);
      if !found {
        Hopeless(c, d, i, ret);
        return Nothing;
      }
      OneFurther(c, d, i, ret, ret');
      ret := ret';
      i := i + 1;
    }
    Decided(c, d, ret);
  }

  /** Size and abstraction never rule out a clause that subsumes or strengthens. */
  lemma NeverRejected(c: Clause, d: Clause)
    requires DistinctVars(c) && DistinctVars(d)
    ensures Subset(c, d) || (exists p :: Flips(c, d, p)) ==>
      |c| <= |d| && Abstraction(Bit, c) & !Abstraction(Bit, d) == 0
  {
    if Subset(c, d) || exists p :: Flips(c, d, p) {
      forall v | v in VarsOf(c) ensures v in VarsOf(d) {
        var l :| l in c && l.v == v;
        assert l in d || Neg(l) in d;
      }
      VarsWithin(Bit, c, d);
      VarsCount(c);
      VarsCount(d);
      Smaller(VarsOf(c), VarsOf(d));
    }
  }

  lemma OneFurther(c: Clause, d: Clause, i: nat, ret: Verdict, ret': Verdict)
    requires i < |c| && SoFar(c, d, i, ret) && DistinctVars(c)
    requires if ret' == ret then c[i] in d else ret == Subsumes && Neg(c[i]) in d && ret' == Strengthens(c[i])
    ensures SoFar(c, d, i + 1, ret')
  {
  }

  /** A literal that is neither found nor the first to be flipped. */
  lemma Hopeless(c: Clause, d: Clause, i: nat, ret: Verdict)
    requires i < |c| && SoFar(c, d, i, ret) && DistinctVars(c) && DistinctVars(d)
    requires c[i] !in d && (ret == Subsumes ==> Neg(c[i]) !in d)
    ensures !Subset(c, d) && forall p :: !Flips(c, d, p)
  {
    assert c[i] in c;
    forall p ensures !Flips(c, d, p) {
      if ret.Strengthens? && p == c[i] {
        var k :| 0 <= k < i && c[k] == ret.p;
        assert c[k].v != c[i].v && c[k] in c;
        SignOnce(d, ret.p);
      }
    }
  }

  lemma SignOnce(d: Clause, l: Lit)
    requires DistinctVars(d) && Neg(l) in d
    ensures l !in d
  {
    var j :| 0 <= j < |d| && d[j] == Neg(l);
    OtherSign(d, j, l);
  }

  lemma Decided(c: Clause, d: Clause, ret: Verdict)
    requires SoFar(c, d, |c|, ret) && DistinctVars(c) && DistinctVars(d)
    ensures ret == Subsumes <==> Subset(c, d)
    ensures forall p :: ret == Strengthens(p) <==> Flips(c, d, p)
  {
    forall l | l in c ensures exists k :: 0 <= k < |c| && c[k] == l {
    }
    match ret
    case Subsumes =>
      forall p ensures !Flips(c, d, p) {
        if p in c && Neg(p) in d {
          SignOnce(d, p);
        }
      }
    case Strengthens(q) =>
      SignOnce(d, q);
  }

  // ----- what it means -----

  lemma OtherSignOut(c: Clause, p: Lit)
    requires DistinctVars(c) && p in c
    ensures Neg(p) !in c
  {
    assert Neg(Neg(p)) == p;
    if Neg(p) in c {
      SignOnce(c, p);
    }
  }

  function Without(c: Clause, p: Lit): (r: Clause)
    ensures forall l :: l in r <==> l in c && l != p
    ensures |r| <= |c| && (p in c ==> |r| < |c|)
  {
    if c == [] then [] else
      assert c == c[..|c| - 1] + [c[|c| - 1]];
      if c[|c| - 1] == p then Without(c[..|c| - 1], p) else Without(c[..|c| - 1], p) + [c[|c| - 1]]
  }

  lemma {:induction false} WithoutDistinct(c: Clause, p: Lit)
    requires DistinctVars(c)
    ensures DistinctVars(Without(c, p))
  {
    if c != [] {
      var n := |c| - 1;
      WithoutDistinct(c[..n], p);
      var r := Without(c[..n], p);
      forall j | 0 <= j < |r| ensures r[j].v != c[n].v {
        assert r[j] in c[..n];
        var k :| 0 <= k < n && c[k] == r[j];
      }
    }
  }

  /** A clause that is subsumed adds nothing. */
  lemma SubsumedHolds(c: Clause, d: Clause, A: iset<nat>)
    requires Subset(c, d) && Satisfied(A, c)
    ensures Satisfied(A, d)
  {
    var l :| l in c && Holds(A, l);
    assert l in d;
  }

  /** With the strengthening clause, the shorter clause says the same as the longer one. */
  lemma StrengthenedHolds(c: Clause, d: Clause, p: Lit, A: iset<nat>)
    requires Flips(c, d, p) && DistinctVars(c) && Satisfied(A, c)
    ensures Satisfied(A, d) <==> Satisfied(A, Without(d, Neg(p)))
  {
    if Satisfied(A, d) {
      var l :| l in c && Holds(A, l);
      var k :| k in d && Holds(A, k);
      if k == Neg(p) {
        OtherSignOut(c, p);
        assert l != p && l in d && l != Neg(p);
        assert l in Without(d, Neg(p));
      } else {
        assert k in Without(d, Neg(p));
      }
    }
    if Satisfied(A, Without(d, Neg(p))) {
      var k :| k in Without(d, Neg(p)) && Holds(A, k);
      assert k in d;
    }
  }
}
