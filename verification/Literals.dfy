/** Literals of a QBF in DIMACS style: a non-zero integer whose absolute value is the variable. */
module Literals {
  type Var = nat
  type Lit = l: int | l != 0 witness 1

  /** The assignments of the model: the set of variables that are true. */
  type Assignment = set<Var>

  function VarOf(l: Lit): (v: Var)
    ensures v > 0
  {
    var n: int := l;
    if n < 0 then -n else n
  }

  predicate Sign(l: Lit) {
    l < 0
  }

  function Negate(l: Lit): Lit {
    var n: int := l;
    -n
  }

  function MakeLit(v: Var, negative: bool): Lit
    requires v > 0
  {
    var n: int := v;
    if negative then -n else n
  }

  predicate LitTrue(A: Assignment, l: Lit) {
    if l > 0 then VarOf(l) in A else VarOf(l) !in A
  }

  ghost predicate ClauseTrue(A: Assignment, c: seq<Lit>) {
    exists l :: l in c && LitTrue(A, l)
  }

  type Matrix = seq<seq<Lit>>

  ghost predicate Sat(A: Assignment, M: Matrix) {
    forall c :: c in M ==> ClauseTrue(A, c)
  }

  // ----- the order in which the original sorts literals -----

  predicate LitOrder(a: Lit, b: Lit) {
    VarOf(a) < VarOf(b) || (VarOf(a) == VarOf(b) && a < b)
  }

  ghost predicate Sorted(s: seq<Lit>) {
    forall i, j :: 0 <= i < j < |s| ==> !LitOrder(s[j], s[i])
  }

  ghost predicate StrictlySorted(s: seq<Lit>) {
    forall i, j :: 0 <= i < j < |s| ==> LitOrder(s[i], s[j])
  }

  ghost predicate Tautology(s: seq<Lit>) {
    exists l :: l in s && Negate(l) in s
  }

  ghost function Elements<T>(s: seq<T>): set<T> {
    set x | x in s
  }

  /** A sorted vector starts with an element that none of its elements precedes. */
  lemma SortedHead(a: seq<Lit>, x: Lit)
    requires Sorted(a) && x in a
    ensures !LitOrder(x, a[0])
  {
    var i :| 0 <= i < |a| && a[i] == x;
    if i > 0 {
      assert !LitOrder(a[i], a[0]);
    }
  }

  lemma TailOf(a: seq<Lit>)
    requires Sorted(a) && a != []
    ensures Sorted(a[1..]) && multiset(a[1..]) == multiset(a) - multiset{a[0]}
  {
    assert a == [a[0]] + a[1..];
  }

  /** Sorting has one result: two sorted permutations of each other are equal. */
  lemma {:induction false} SortedUnique(a: seq<Lit>, b: seq<Lit>)
    requires Sorted(a) && Sorted(b) && multiset(a) == multiset(b)
    ensures a == b
    decreases |a|
  {
    assert |a| == |multiset(a)| == |multiset(b)| == |b|;
    if a != [] {
      assert a[0] == b[0] by {
        assert a[0] in multiset(b) && b[0] in multiset(a);
        SortedHead(a, b[0]);
        SortedHead(b, a[0]);
      }
      TailOf(a);
      TailOf(b);
      SortedUnique(a[1..], b[1..]);
      assert a == [a[0]] + a[1..] && b == [b[0]] + b[1..];
    }
  }

  /** The library sort, as an insertion sort on the array. */
  method Sort(a: array<Lit>)
    modifies a
    ensures Sorted(a[..])
    ensures multiset(a[..]) == multiset(old(a[..]))
  {
    var n := 0;
    while n < a.Length
      invariant 0 <= n <= a.Length
      invariant Sorted(a[..n])
      invariant multiset(a[..]) == multiset(old(a[..]))
    {
      SortStep(a, n);
      n := n + 1;
    }
    assert a[..n] == a[..];
  }

  method SortStep(a: array<Lit>, n: nat)
    requires n < a.Length && Sorted(a[..n])
    modifies a
    ensures Sorted(a[..n + 1])
    ensures multiset(a[..]) == multiset(old(a[..]))
  {
    var k := n;
    while k > 0 && LitOrder(a[k], a[k - 1])
      invariant 0 <= k <= n
      invariant forall i, j :: 0 <= i < j <= n && j != k ==> !LitOrder(a[j], a[i])
      invariant forall j :: k < j <= n ==> !LitOrder(a[j], a[k])
      invariant multiset(a[..]) == multiset(old(a[..]))
    {
      a[k - 1], a[k] := a[k], a[k - 1];
      k := k - 1;
    }
  }

  /** A sorted copy of a vector. */
  method SortedCopy(s: seq<Lit>) returns (t: seq<Lit>)
    ensures Sorted(t) && multiset(t) == multiset(s)
  {
    var a := new Lit[|s|](i requires 0 <= i < |s| => s[i]);
    assert a[..] == s;
    Sort(a);
    t := a[..];
  }
}
