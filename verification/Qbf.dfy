/** Truth of a quantified Boolean formula, as a game between the two quantifiers.
    A formula is a flattened prefix of bound variables and a clause matrix. */
module Qbf {
  import opened Literals

  datatype Player = Existential | Universal

  datatype Bound = Bound(v: Var, owner: Player)

  /** A strategy maps a variable and the opponent's choices to its left to a value. It is
      a family of Skolem functions for the existential player, of Herbrand functions for
      the universal one. */
  type Strategy = (Var, Assignment) -> bool

  /** The recursive meaning of the prefix. */
  ghost predicate Truth(bs: seq<Bound>, A: Assignment, M: Matrix)
    decreases |bs|
  {
    if bs == [] then Sat(A, M)
    else if bs[0].owner.Existential? then
      Truth(bs[1..], A + {bs[0].v}, M) || Truth(bs[1..], A - {bs[0].v}, M)
    else
      Truth(bs[1..], A + {bs[0].v}, M) && Truth(bs[1..], A - {bs[0].v}, M)
  }

  ghost predicate Wins(p: Player, bs: seq<Bound>, A: Assignment, M: Matrix) {
    Truth(bs, A, M) == p.Existential?
  }

  ghost predicate Distinct(bs: seq<Bound>) {
    forall i, j :: 0 <= i < j < |bs| ==> bs[i].v != bs[j].v
  }

  ghost function VarsOf(bs: seq<Bound>): set<Var> {
    set b | b in bs :: b.v
  }

  /** The opponent's variables to the left of x. */
  ghost function OppBefore(p: Player, bs: seq<Bound>, x: Var): set<Var>
    decreases |bs|
  {
    if bs == [] || bs[0].v == x then {}
    else (if bs[0].owner == p then {} else {bs[0].v}) + OppBefore(p, bs[1..], x)
  }

  /** Whether a bound variable is true when p follows F and the opponent plays rho. */
  ghost predicate Value(p: Player, bs: seq<Bound>, F: Strategy, rho: Assignment, b: Bound) {
    if b.owner == p then F(b.v, rho * OppBefore(p, bs, b.v)) else b.v in rho
  }

  ghost function Outcome(p: Player, bs: seq<Bound>, F: Strategy, rho: Assignment): Assignment {
    set b | b in bs && Value(p, bs, F, rho, b) :: b.v
  }

  ghost predicate Winning(p: Player, bs: seq<Bound>, F: Strategy, M: Matrix) {
    forall rho: Assignment :: Sat(Outcome(p, bs, F, rho), M) == p.Existential?
  }

  // ----- a winning position yields a winning strategy -----

  /** p plays greedily: true whenever that keeps the game won. */
  ghost function Play(p: Player, bs: seq<Bound>, A: Assignment, rho: Assignment, M: Matrix): Assignment
    decreases |bs|
  {
    if bs == [] then A
    else if (if bs[0].owner == p then Wins(p, bs[1..], A + {bs[0].v}, M) else bs[0].v in rho) then
      Play(p, bs[1..], A + {bs[0].v}, rho, M)
    else
      Play(p, bs[1..], A - {bs[0].v}, rho, M)
  }

  lemma {:induction false} PlayWins(p: Player, bs: seq<Bound>, A: Assignment, rho: Assignment, M: Matrix)
    requires Wins(p, bs, A, M)
    ensures Sat(Play(p, bs, A, rho, M), M) == p.Existential?
    decreases |bs|
  {
    if bs != [] {
      if (if bs[0].owner == p then Wins(p, bs[1..], A + {bs[0].v}, M) else bs[0].v in rho) {
        PlayWins(p, bs[1..], A + {bs[0].v}, rho, M);
      } else {
        PlayWins(p, bs[1..], A - {bs[0].v}, rho, M);
      }
    }
  }

  lemma {:induction false} PlayKeeps(p: Player, bs: seq<Bound>, A: Assignment, rho: Assignment, M: Matrix, x: Var)
    requires x !in VarsOf(bs)
    ensures x in Play(p, bs, A, rho, M) <==> x in A
    decreases |bs|
  {
    if bs != [] {
      assert bs[0].v in VarsOf(bs) && VarsOf(bs[1..]) <= VarsOf(bs);
      PlayKeeps(p, bs[1..], A + {bs[0].v}, rho, M, x);
      PlayKeeps(p, bs[1..], A - {bs[0].v}, rho, M, x);
    }
  }

  lemma TailDistinct(bs: seq<Bound>)
    requires bs != [] && Distinct(bs)
    ensures Distinct(bs[1..]) && bs[0].v !in VarsOf(bs[1..])
  {
    forall b | b in bs[1..] ensures b.v != bs[0].v {
      var i :| 0 <= i < |bs| - 1 && bs[1..][i] == b;
      assert bs[i + 1] == b;
    }
  }

  lemma {:induction false} PlayFollowsOpponent(p: Player, bs: seq<Bound>, A: Assignment, rho: Assignment, M: Matrix,
      b: Bound)
    requires Distinct(bs) && b in bs && b.owner != p
    ensures b.v in Play(p, bs, A, rho, M) <==> b.v in rho
    decreases |bs|
  {
    TailDistinct(bs);
    if b == bs[0] {
      PlayKeeps(p, bs[1..], A + {b.v}, rho, M, b.v);
      PlayKeeps(p, bs[1..], A - {b.v}, rho, M, b.v);
    } else {
      PlayFollowsOpponent(p, bs[1..], A + {bs[0].v}, rho, M, b);
      PlayFollowsOpponent(p, bs[1..], A - {bs[0].v}, rho, M, b);
    }
  }

  /** The greedy choice for x looks only at what the opponent did before x. */
  lemma {:induction false} PlayLocal(p: Player, bs: seq<Bound>, A: Assignment, r1: Assignment, r2: Assignment,
      M: Matrix, b: Bound)
    requires Distinct(bs) && b in bs && b.owner == p
    requires r1 * OppBefore(p, bs, b.v) == r2 * OppBefore(p, bs, b.v)
    ensures b.v in Play(p, bs, A, r1, M) <==> b.v in Play(p, bs, A, r2, M)
    decreases |bs|
  {
    TailDistinct(bs);
    var x := bs[0].v;
    if b == bs[0] {
      PlayKeeps(p, bs[1..], A + {x}, r1, M, x);
      PlayKeeps(p, bs[1..], A - {x}, r1, M, x);
      PlayKeeps(p, bs[1..], A + {x}, r2, M, x);
      PlayKeeps(p, bs[1..], A - {x}, r2, M, x);
    } else {
      assert b in bs[1..];
      assert b.v in VarsOf(bs[1..]);
      var rest := OppBefore(p, bs[1..], b.v);
      assert rest <= OppBefore(p, bs, b.v);
      assert r1 * rest == (r1 * OppBefore(p, bs, b.v)) * rest == r2 * rest;
      if bs[0].owner != p {
        assert x in r1 <==> x in r1 * OppBefore(p, bs, b.v);
        assert x in r2 <==> x in r2 * OppBefore(p, bs, b.v);
      }
      PlayLocal(p, bs[1..], A + {x}, r1, r2, M, b);
      PlayLocal(p, bs[1..], A - {x}, r1, r2, M, b);
    }
  }

  ghost function Greedy(p: Player, bs: seq<Bound>, M: Matrix): Strategy {
    (x: Var, rho: Assignment) => x in Play(p, bs, {}, rho, M)
  }

  lemma {:induction false} PlayWithin(p: Player, bs: seq<Bound>, A: Assignment, rho: Assignment, M: Matrix)
    ensures Play(p, bs, A, rho, M) <= A + VarsOf(bs)
    decreases |bs|
  {
    if bs != [] {
      assert bs[0].v in VarsOf(bs) && VarsOf(bs[1..]) <= VarsOf(bs);
      PlayWithin(p, bs[1..], A + {bs[0].v}, rho, M);
      PlayWithin(p, bs[1..], A - {bs[0].v}, rho, M);
    }
  }

  lemma GreedyOutcome(p: Player, bs: seq<Bound>, rho: Assignment, M: Matrix)
    requires Distinct(bs)
    ensures Outcome(p, bs, Greedy(p, bs, M), rho) == Play(p, bs, {}, rho, M)
  {
    var F := Greedy(p, bs, M);
    var end := Play(p, bs, {}, rho, M);
    PlayWithin(p, bs, {}, rho, M);
    forall b | b in bs
      ensures Value(p, bs, F, rho, b) <==> b.v in end
    {
      if b.owner == p {
        var seen := rho * OppBefore(p, bs, b.v);
        assert seen * OppBefore(p, bs, b.v) == seen;
        PlayLocal(p, bs, {}, rho, seen, M, b);
      } else {
        PlayFollowsOpponent(p, bs, {}, rho, M, b);
      }
    }
    forall v | v in end ensures v in Outcome(p, bs, F, rho) {
      var b :| b in bs && b.v == v;
    }
  }

  // ----- a winning strategy wins the game -----

  ghost predicate Follows(p: Player, bs: seq<Bound>, k: nat, F: Strategy, A: Assignment)
    requires k <= |bs|
  {
    && A <= VarsOf(bs[..k])
    && forall i :: 0 <= i < k && bs[i].owner == p ==>
         (bs[i].v in A <==> F(bs[i].v, A * OppBefore(p, bs, bs[i].v)))
  }

  lemma {:induction false} OppBeforeWithin(p: Player, bs: seq<Bound>, k: nat)
    requires k < |bs|
    ensures OppBefore(p, bs, bs[k].v) <= VarsOf(bs[..k])
    decreases |bs|
  {
    if bs[0].v != bs[k].v {
      OppBeforeWithin(p, bs[1..], k - 1);
      assert bs[1..][..k - 1] == bs[1..k];
      assert forall b :: b in bs[1..k] ==> b in bs[..k];
      assert bs[0] in bs[..k];
    }
  }

  lemma PrefixFresh(bs: seq<Bound>, k: nat)
    requires Distinct(bs) && k < |bs|
    ensures bs[k].v !in VarsOf(bs[..k]) && VarsOf(bs[..k + 1]) == VarsOf(bs[..k]) + {bs[k].v}
  {
    assert bs[..k + 1] == bs[..k] + [bs[k]];
    forall b | b in bs[..k + 1] ensures b.v in VarsOf(bs[..k]) + {bs[k].v} {
    }
    assert bs[k] in bs[..k + 1];
  }

  lemma FollowsNext(p: Player, bs: seq<Bound>, k: nat, F: Strategy, A: Assignment, A': Assignment)
    requires Distinct(bs) && k < |bs| && Follows(p, bs, k, F, A)
    requires A' == A || A' == A + {bs[k].v}
    requires bs[k].owner == p ==> (bs[k].v in A' <==> F(bs[k].v, A * OppBefore(p, bs, bs[k].v)))
    ensures Follows(p, bs, k + 1, F, A')
  {
    PrefixFresh(bs, k);
    forall i | 0 <= i <= k
      ensures A' * OppBefore(p, bs, bs[i].v) == A * OppBefore(p, bs, bs[i].v)
    {
      OppBeforeWithin(p, bs, i);
      assert forall b :: b in bs[..i] ==> b in bs[..k];
      assert VarsOf(bs[..i]) <= VarsOf(bs[..k]);
    }
  }

  lemma {:induction false} StrategyWinsFrom(p: Player, bs: seq<Bound>, k: nat, F: Strategy, A: Assignment, M: Matrix)
    requires Distinct(bs) && k <= |bs| && Winning(p, bs, F, M) && Follows(p, bs, k, F, A)
    ensures Wins(p, bs[k..], A, M)
    decreases |bs| - k
  {
    if k == |bs| {
      assert bs[..k] == bs;
      forall v | v in A ensures v in Outcome(p, bs, F, A) {
        var b :| b in bs && b.v == v;
        var i :| 0 <= i < |bs| && bs[i] == b;
      }
      forall v | v in Outcome(p, bs, F, A) ensures v in A {
        var b :| b in bs && Value(p, bs, F, A, b) && b.v == v;
        var i :| 0 <= i < |bs| && bs[i] == b;
      }
      assert A == Outcome(p, bs, F, A);
    } else {
      PrefixFresh(bs, k);
      var v := bs[k].v;
      assert bs[k..][1..] == bs[k + 1..] && bs[k..][0] == bs[k];
      assert A - {v} == A;
      if bs[k].owner != p || F(v, A * OppBefore(p, bs, v)) {
        FollowsNext(p, bs, k, F, A, A + {v});
        StrategyWinsFrom(p, bs, k + 1, F, A + {v}, M);
      }
      if bs[k].owner != p || !F(v, A * OppBefore(p, bs, v)) {
        FollowsNext(p, bs, k, F, A, A);
        StrategyWinsFrom(p, bs, k + 1, F, A, M);
      }
    }
  }

  /** The two definitions of truth agree: a player wins the quantifier game exactly when it
      has Skolem (Herbrand) functions that depend only on the opponent's variables to the left. */
  lemma StrategyIffWins(p: Player, bs: seq<Bound>, M: Matrix)
    requires Distinct(bs)
    ensures Wins(p, bs, {}, M) <==> exists F: Strategy :: Winning(p, bs, F, M)
  {
    if Wins(p, bs, {}, M) {
      var F := Greedy(p, bs, M);
      forall rho: Assignment
        ensures Sat(Outcome(p, bs, F, rho), M) == p.Existential?
      {
        GreedyOutcome(p, bs, rho, M);
        PlayWins(p, bs, {}, rho, M);
      }
      assert Winning(p, bs, F, M);
    }
    if F: Strategy :| Winning(p, bs, F, M) {
      assert Follows(p, bs, 0, F, {});
      StrategyWinsFrom(p, bs, 0, F, {}, M);
      assert bs[0..] == bs;
    }
  }

  /** Equivalent matrices have the same truth value under every prefix. */
  lemma {:induction false} TruthOfEquivalent(bs: seq<Bound>, A: Assignment, M: Matrix, N: Matrix)
    requires forall B: Assignment :: Sat(B, M) <==> Sat(B, N)
    ensures Truth(bs, A, M) <==> Truth(bs, A, N)
    decreases |bs|
  {
    if bs != [] {
      TruthOfEquivalent(bs[1..], A + {bs[0].v}, M, N);
      TruthOfEquivalent(bs[1..], A - {bs[0].v}, M, N);
    }
  }
}
