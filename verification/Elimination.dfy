/** Variable elimination: resolvents, the sections of stored clauses, and how a model of what is left
    becomes a model of everything. */
module Elimination {
  import opened SolverTypes
  import opened SolverStates
  import opened SolverNogoods
  import opened SolverAnalysis
  import opened Subsumption

  // ----- resolvents -----

  /** Some variable other than v makes the resolvent a tautology. */
  ghost predicate Tautological(p: Clause, q: Clause, v: nat) {
    exists l :: l in p && l.v != v && Neg(l) in q
  }

  /** The literals among the first n of the smaller clause that the larger one does not have. */
  function NewLits(small: Clause, big: Clause, v: nat, n: nat): (r: Clause)
    requires n <= |small|
  {
    if n == 0 then []
    else if small[n - 1].v != v && small[n - 1] !in big then NewLits(small, big, v, n - 1) + [small[n - 1]]
    else NewLits(small, big, v, n - 1)
  }

  lemma {:induction false} NewLitsHas(small: Clause, big: Clause, v: nat, n: nat, l: Lit)
    requires n <= |small|
    ensures l in NewLits(small, big, v, n) <==> l.v != v && l !in big && l in small[..n]
  {
    if n > 0 {
      assert small[..n] == small[..n - 1] + [small[n - 1]];
      NewLitsHas(small, big, v, n - 1, l);
    }
  }

  /** The literals of other variables. */
  function OtherLits(c: Clause, v: nat, n: nat): (r: Clause)
    requires n <= |c|
    ensures forall l :: l in r ==> l.v != v && l in c[..n]
    ensures forall l :: l in c[..n] && l.v != v ==> l in r
  {
    if n == 0 then []
    else
      assert c[..n] == c[..n - 1] + [c[n - 1]];
      if c[n - 1].v != v then OtherLits(c, v, n - 1) + [c[n - 1]] else OtherLits(c, v, n - 1)
  }

  /** One literal is missing if the variable occurs once. */
  lemma {:induction false} OtherLitsLength(c: Clause, v: nat, n: nat)
    requires n <= |c| && DistinctVars(c)
    ensures |OtherLits(c, v, n)| == if v in VarsOf(c[..n]) then n - 1 else n
  {
    if n > 0 {
      assert c[..n] == c[..n - 1] + [c[n - 1]];
      VarsOfAppend(c[..n - 1], c[n - 1]);
      OtherLitsLength(c, v, n - 1);
      forall l | l in c[..n - 1] ensures l.v != c[n - 1].v {
        var i :| 0 <= i < n - 1 && c[..n - 1][i] == l;
        assert c[i].v != c[n - 1].v;
      }
    }
  }

  function Larger(p: Clause, q: Clause): Clause {
    if |p| < |q| then q else p
  }

  function Lesser(p: Clause, q: Clause): Clause {
    if |p| < |q| then p else q
  }

  /** The resolvent in the order in which it is built. */
  function Resolvent(p: Clause, q: Clause, v: nat): Clause {
    var big, small := Larger(p, q), Lesser(p, q);
    NewLits(small, big, v, |small|) + OtherLits(big, v, |big|)
  }

  lemma ResolventHas(p: Clause, q: Clause, v: nat, l: Lit)
    ensures l in Resolvent(p, q, v) <==> l.v != v && (l in p || l in q)
  {
    var big, small := Larger(p, q), Lesser(p, q);
    NewLitsHas(small, big, v, |small|, l);
    assert small[..|small|] == small && big[..|big|] == big;
  }

  lemma {:induction false} NewLitsDistinct(small: Clause, big: Clause, v: nat, n: nat)
    requires n <= |small| && DistinctVars(small)
    ensures DistinctVars(NewLits(small, big, v, n))
  {
    if n > 0 {
      NewLitsDistinct(small, big, v, n - 1);
      var r := NewLits(small, big, v, n - 1);
      forall j | 0 <= j < |r| ensures r[j].v != small[n - 1].v {
        NewLitsHas(small, big, v, n - 1, r[j]);
        var k :| 0 <= k < n - 1 && small[..n - 1][k] == r[j];
      }
    }
  }

  lemma {:induction false} OtherLitsDistinct(c: Clause, v: nat, n: nat)
    requires n <= |c| && DistinctVars(c)
    ensures DistinctVars(OtherLits(c, v, n))
  {
    if n > 0 {
      OtherLitsDistinct(c, v, n - 1);
      var r := OtherLits(c, v, n - 1);
      forall j | 0 <= j < |r| ensures r[j].v != c[n - 1].v {
        assert r[j] in c[..n - 1];
        var k :| 0 <= k < n - 1 && c[..n - 1][k] == r[j];
      }
    }
  }

  /** Unless it is a tautology, no variable occurs twice in the resolvent. */
  lemma ResolventDistinct(p: Clause, q: Clause, v: nat)
    requires DistinctVars(p) && DistinctVars(q) && !Tautological(p, q, v) && !Tautological(q, p, v)
    ensures DistinctVars(Resolvent(p, q, v))
  {
    var big, small := Larger(p, q), Lesser(p, q);
    var a, b := NewLits(small, big, v, |small|), OtherLits(big, v, |big|);
    NewLitsDistinct(small, big, v, |small|);
    OtherLitsDistinct(big, v, |big|);
    forall i, j | 0 <= i < |a| && 0 <= j < |b| ensures a[i].v != b[j].v {
      NewLitsHas(small, big, v, |small|, a[i]);
      assert b[j] in big[..|big|];
      assert a[i] in small && b[j] in big && a[i] != b[j] && a[i] != Neg(b[j]);
    }
    BothDistinct(a, b);
  }

  lemma BothDistinct(a: Clause, b: Clause)
    requires DistinctVars(a) && DistinctVars(b)
    requires forall i, j :: 0 <= i < |a| && 0 <= j < |b| ==> a[i].v != b[j].v
    ensures DistinctVars(a + b)
  {
  }

  lemma TautologicalSymmetric(p: Clause, q: Clause, v: nat)
    ensures Tautological(p, q, v) <==> Tautological(q, p, v)
  {
    if Tautological(p, q, v) {
      var l :| l in p && l.v != v && Neg(l) in q;
      assert Neg(Neg(l)) == l && Neg(l).v != v;
    }
    if Tautological(q, p, v) {
      var l :| l in q && l.v != v && Neg(l) in p;
      assert Neg(Neg(l)) == l && Neg(l).v != v;
    }
  }

  /** The resolvent follows from its parents. */
  lemma ResolventHolds(p: Clause, q: Clause, v: nat, A: iset<nat>)
    requires Satisfied(A, p) && Satisfied(A, q) && Lit(v, true) !in p && Lit(v, false) !in q
    ensures Satisfied(A, Resolvent(p, q, v))
  {
    var l :| l in p && Holds(A, l);
    var k :| k in q && Holds(A, k);
    ResolventHas(p, q, v, l);
    ResolventHas(p, q, v, k);
    assert l.v != v || l == Lit(v, false);
    assert k.v != v || k == Lit(v, true);
  }

  // ----- the two ways of merging -----

  /** Looks for the variable of a literal: found with the other sign, with the same one, or not at all. */
  method FindVar(l: Lit, ps: Clause) returns (clash: bool, same: bool)
    requires DistinctVars(ps)
    ensures clash <==> Neg(l) in ps
    ensures same <==> l in ps
  {
    var j := 0;
    while j < |ps|
      invariant 0 <= j <= |ps| && forall k :: 0 <= k < j ==> ps[k].v != l.v
    {
      if ps[j].v == l.v {
        OnlyOnce(ps, j, l);
        return ps[j] == Neg(l), ps[j] != Neg(l);
      }
      j := j + 1;
    }
    return false, false;
  }

  lemma OnlyOnce(ps: Clause, j: nat, l: Lit)
    requires DistinctVars(ps) && j < |ps| && ps[j].v == l.v
    ensures (Neg(l) in ps <==> ps[j] == Neg(l)) && (l in ps <==> ps[j] == l)
  {
    forall k | 0 <= k < |ps| && ps[k].v == l.v ensures k == j {
    }
  }

  /** None of the first n literals clashes with the other clause. */
  ghost predicate NoClash(qs: Clause, ps: Clause, v: nat, n: nat)
    requires n <= |qs|
  {
    forall k :: 0 <= k < n && qs[k].v != v ==> Neg(qs[k]) !in ps
  }

  /** One literal of the smaller clause: it clashes, is new, or is dropped. */
  method Look(l: Lit, ps: Clause, v: nat) returns (clash: bool, push: bool)
    requires DistinctVars(ps)
    ensures clash <==> l.v != v && Neg(l) in ps
    ensures !clash ==> (push <==> l.v != v && l !in ps)
  {
    if l.v == v {
      return false, false;
    }
    var same;
    clash, same := FindVar(l, ps);
    push := !same;
  }

  lemma Clashing(p: Clause, q: Clause, v: nat, i: nat)
    requires var small := Lesser(p, q); i < |small| && small[i].v != v && Neg(small[i]) in Larger(p, q)
    ensures Tautological(p, q, v)
  {
    var l := Lesser(p, q)[i];
    assert l in Lesser(p, q) && Neg(Neg(l)) == l && Neg(l).v != v;
    TautologicalSymmetric(p, q, v);
  }

  lemma NotClashing(p: Clause, q: Clause, v: nat)
    requires NoClash(Lesser(p, q), Larger(p, q), v, |Lesser(p, q)|)
    ensures !Tautological(p, q, v)
  {
    var qs, ps := Lesser(p, q), Larger(p, q);
    forall l | l in qs && l.v != v ensures Neg(l) !in ps {
      var k :| 0 <= k < |qs| && qs[k] == l;
    }
    assert !Tautological(qs, ps, v);
    TautologicalSymmetric(p, q, v);
  }

  /** The resolvent, unless it is a tautology. */
  method Merge(p: Clause, q: Clause, v: nat) returns (ok: bool, out_clause: Clause)
    requires DistinctVars(p) && DistinctVars(q)
    ensures ok <==> !Tautological(p, q, v)
    ensures ok ==> out_clause == Resolvent(p, q, v)
  {
    var ps, qs := Larger(p, q), Lesser(p, q);
    out_clause := [];
    var i := 0;
    while i < |qs|
      invariant 0 <= i <= |qs| && out_clause == NewLits(qs, ps, v, i) && NoClash(qs, ps, v, i)
    {
      var clash, push := Look(qs[i], ps, v);
      if clash {
        Clashing(p, q, v, i);
        return false, out_clause;
      }
      if push { out_clause := out_clause + [qs[i]]; }
      i := i + 1;
    }
    NotClashing(p, q, v);
    var rest := PushOthers(ps, v, out_clause);
    return true, rest;
  }

  method PushOthers(ps: Clause, v: nat, front: Clause) returns (out_clause: Clause)
    ensures out_clause == front + OtherLits(ps, v, |ps|)
  {
    out_clause := front;
    var i := 0;
    while i < |ps|
      invariant 0 <= i <= |ps| && out_clause == front + OtherLits(ps, v, i)
    {
      if ps[i].v != v { out_clause := out_clause + [ps[i]]; }
      i := i + 1;
    }
  }

  /** Only the size of the resolvent: it agrees with the other one, on tautologies and on the length. */
  method MergeSize(p: Clause, q: Clause, v: nat) returns (ok: bool, size: int)
    requires DistinctVars(p) && DistinctVars(q) && v in VarsOf(p) && v in VarsOf(q)
    ensures ok <==> !Tautological(p, q, v)
    ensures ok ==> size == |Resolvent(p, q, v)|
  {
    var ps, qs := Larger(p, q), Lesser(p, q);
    size := |ps| - 1;
    var i := 0;
    while i < |qs|
      invariant 0 <= i <= |qs| && size == |ps| - 1 + |NewLits(qs, ps, v, i)| && NoClash(qs, ps, v, i)
    {
      var clash, push := Look(qs[i], ps, v);
      if clash {
        Clashing(p, q, v, i);
        return false, size;
      }
      if push { size := size + 1; }
      i := i + 1;
    }
    NotClashing(p, q, v);
    ResolventSize(p, q, v);
    ok := true;
  }

  lemma ResolventSize(p: Clause, q: Clause, v: nat)
    requires DistinctVars(p) && DistinctVars(q) && v in VarsOf(p) && v in VarsOf(q)
    ensures |Resolvent(p, q, v)| == |Larger(p, q)| - 1 + |NewLits(Lesser(p, q), Larger(p, q), v, |Lesser(p, q)|)|
  {
    var ps := Larger(p, q);
    OtherLitsLength(ps, v, |ps|);
    assert ps[..|ps|] == ps;
  }

  // ----- sections -----

  ghost function SetLit(A: iset<nat>, l: Lit): iset<nat> {
    if l.neg then A - iset{l.v} else A + iset{l.v}
  }

  /** All literals behind the first are false. */
  ghost predicate OthersFalse(A: iset<nat>, b: Clause) {
    forall i :: 1 <= i < |b| ==> !Holds(A, b[i])
  }

  ghost function ExtendOne(b: Clause, A: iset<nat>): iset<nat>
    requires b != []
  {
    if OthersFalse(A, b) then SetLit(A, b[0]) else A
  }

  /** The blocks are read from the last to the first. */
  ghost function Extend(blocks: seq<Clause>, A: iset<nat>): iset<nat>
    requires forall k :: 0 <= k < |blocks| ==> blocks[k] != []
  {
    if blocks == [] then A else Extend(blocks[..|blocks| - 1], ExtendOne(blocks[|blocks| - 1], A))
  }

  lemma {:induction false} ExtendAppend(a: seq<Clause>, b: seq<Clause>, A: iset<nat>)
    requires (forall k :: 0 <= k < |a| ==> a[k] != []) && forall k :: 0 <= k < |b| ==> b[k] != []
    ensures Extend(a + b, A) == Extend(a, Extend(b, A))
    decreases |b|
  {
    if b == [] {
      assert a + b == a;
    } else {
      assert (a + b)[..|a + b| - 1] == a + b[..|b| - 1];
      ExtendAppend(a, b[..|b| - 1], ExtendOne(b[|b| - 1], A));
    }
  }

  ghost predicate SameBut(A: iset<nat>, A': iset<nat>, v: nat) {
    forall u :: u != v ==> (u in A <==> u in A')
  }

  /** A clause of the section: v's literal in front, and only there. */
  ghost predicate Stored(b: Clause, x: Lit) {
    b != [] && b[0] == x && forall i :: 1 <= i < |b| ==> b[i].v != x.v
  }

  lemma OthersSame(A: iset<nat>, A': iset<nat>, b: Clause, x: Lit)
    requires Stored(b, x) && SameBut(A, A', x.v)
    ensures OthersFalse(A, b) <==> OthersFalse(A', b)
  {
    forall i | 1 <= i < |b| ensures Holds(A, b[i]) <==> Holds(A', b[i]) {
    }
  }

  /** Reading stored clauses makes x true exactly if one of them needs it. */
  lemma {:induction false} ExtendStored(blocks: seq<Clause>, A: iset<nat>, x: Lit)
    requires forall k :: 0 <= k < |blocks| ==> blocks[k] != [] && Stored(blocks[k], x)
    ensures SameBut(A, Extend(blocks, A), x.v)
    ensures Holds(Extend(blocks, A), x) <==> Holds(A, x) || exists k :: 0 <= k < |blocks| && OthersFalse(A, blocks[k])
    decreases |blocks|
  {
    if blocks != [] {
      var n := |blocks| - 1;
      var A1 := ExtendOne(blocks[n], A);
      ExtendStored(blocks[..n], A1, x);
      forall k | 0 <= k < n ensures OthersFalse(A, blocks[k]) <==> OthersFalse(A1, blocks[..n][k]) {
        OthersSame(A, A1, blocks[k], x);
      }
      if k :| 0 <= k < n && OthersFalse(A1, blocks[..n][k]) {
        assert OthersFalse(A, blocks[k]);
      }
      if k :| 0 <= k <= n && OthersFalse(A, blocks[k]) {
        assert k < n ==> OthersFalse(A1, blocks[..n][k]);
      }
    }
  }

  /** The clauses stored for v, with its literal in front, and the default value. */
  ghost predicate SectionOf(section: seq<Clause>, x: Lit, S: seq<Clause>) {
    && |section| == |S| + 1 && section[|S|] == [Neg(x)]
    && forall k :: 0 <= k < |S| ==> Stored(section[k], x) && SameLits(S[k], section[k])
  }

  lemma SectionNonEmpty(section: seq<Clause>, x: Lit, S: seq<Clause>)
    requires SectionOf(section, x, S)
    ensures forall k :: 0 <= k < |section| ==> section[k] != []
  {
    forall k | 0 <= k < |section| ensures section[k] != [] {
      assert k < |S| ==> Stored(section[k], x);
    }
  }

  /** The value a section gives: v's stored literal is true exactly if a stored clause needs it. */
  lemma SectionValue(section: seq<Clause>, x: Lit, S: seq<Clause>, A: iset<nat>)
    requires SectionOf(section, x, S) && forall k :: 0 <= k < |section| ==> section[k] != []
    ensures SameBut(A, Extend(section, A), x.v)
    ensures Holds(Extend(section, A), x) <==> exists k :: 0 <= k < |S| && OthersFalse(A, section[k])
  {
    var n := |S|;
    var A1 := SetLit(A, Neg(x));
    assert OthersFalse(A, section[n]) && Extend(section, A) == Extend(section[..n], A1);
    ExtendStored(section[..n], A1, x);
    assert SameBut(A, A1, x.v) && !Holds(A1, x);
    forall k | 0 <= k < n ensures OthersFalse(A, section[k]) <==> OthersFalse(A1, section[..n][k]) {
      OthersSame(A, A1, section[k], x);
    }
    if k :| 0 <= k < n && OthersFalse(A1, section[..n][k]) {
      assert OthersFalse(A, section[k]);
    }
    if k :| 0 <= k < n && OthersFalse(A, section[k]) {
      assert OthersFalse(A1, section[..n][k]);
    }
  }

  /** Every non-tautological resolvent of the two sides holds. */
  ghost predicate ResolventsHold(A: iset<nat>, S: seq<Clause>, O: seq<Clause>, v: nat) {
    forall i, j ::
      0 <= i < |S| && 0 <= j < |O| && !Tautological(S[i], O[j], v) ==> Satisfied(A, Resolvent(S[i], O[j], v))
  }

  /** After a section has been read, the stored clauses hold. */
  lemma StoredHold(section: seq<Clause>, x: Lit, S: seq<Clause>, A: iset<nat>, i: nat)
    requires SectionOf(section, x, S) && (forall k :: 0 <= k < |section| ==> section[k] != []) && i < |S|
    ensures Satisfied(Extend(section, A), S[i])
  {
    SectionValue(section, x, S, A);
    var b, A' := section[i], Extend(section, A);
    assert Stored(b, x) && b[0] in b && SameLits(S[i], b);
    if !Holds(A', x) {
      assert !OthersFalse(A, b);
      var k :| 1 <= k < |b| && Holds(A, b[k]);
      assert b[k] in b && Holds(A', b[k]);
    }
  }

  /** And so do the clauses of the other side, which were only resolved away. */
  lemma OthersHold(section: seq<Clause>, x: Lit, S: seq<Clause>, O: seq<Clause>, A: iset<nat>, j: nat)
    requires SectionOf(section, x, S) && (forall k :: 0 <= k < |section| ==> section[k] != []) && j < |O|
    requires ResolventsHold(A, S, O, x.v) && Neg(x) in O[j]
    ensures Satisfied(Extend(section, A), O[j])
  {
    SectionValue(section, x, S, A);
    var A' := Extend(section, A);
    if Holds(A', x) {
      var i :| 0 <= i < |S| && OthersFalse(A, section[i]);
      assert Stored(section[i], x) && SameLits(S[i], section[i]);
      FalseButX(section[i], S[i], x, A);
      if Tautological(S[i], O[j], x.v) {
        var l :| l in S[i] && l.v != x.v && Neg(l) in O[j];
        assert Holds(A', Neg(l));
      } else {
        assert Satisfied(A, Resolvent(S[i], O[j], x.v));
        var l :| l in Resolvent(S[i], O[j], x.v) && Holds(A, l);
        ResolventHas(S[i], O[j], x.v, l);
        assert l in O[j] && Holds(A', l);
      }
    } else {
      assert Holds(A', Neg(x));
    }
  }

  lemma FalseButX(b: Clause, c: Clause, x: Lit, A: iset<nat>)
    requires Stored(b, x) && SameLits(c, b) && OthersFalse(A, b)
    ensures forall l :: l in c && l != x ==> !Holds(A, l)
  {
    forall l | l in c && l != x ensures !Holds(A, l) {
      assert l in b;
      var i :| 0 <= i < |b| && b[i] == l;
    }
  }
}
