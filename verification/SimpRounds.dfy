/** What the rounds of preprocessing did: each variable's turn, one after the other. */
module SimpRounds {
  import opened SolverTypes
  import opened SolverStates
  import opened SolverNogoods
  import opened SimpStates
  import opened ElimLimits
  import opened SubsumptionRuns

  /** The clauses and the eliminated variables at some moment. */
  datatype Stage = Stage(db: Db, gone: set<nat>)

  /** What decides which variables are eliminated. */
  datatype Limits = Limits(frozen: seq<bool>, grow: int, clause_lim: int, subsumption_lim: int)

  /** Neither eliminated, nor assigned, nor frozen. */
  ghost predicate Candidate(L: Limits, s: Stage, v: nat) {
    v < |L.frozen| && !L.frozen[v] && v !in s.gone && v !in VarsOf(s.db.trail)
  }

  /** At its turn a candidate is eliminated, if that is worth it; otherwise nothing changes. */
  ghost predicate Turn(L: Limits, s: Stage, s': Stage, v: nat) {
    if Candidate(L, s, v) && !TooMuch(s.db, v, L.grow, L.clause_lim) then s'.gone == s.gone + {v} else s' == s
  }

  /** All turns of one round, with the stage before each and the one after the last. */
  ghost predicate Turns(L: Limits, order: seq<nat>, stages: seq<Stage>) {
    |stages| == |order| + 1 && forall i :: 0 <= i < |order| ==> Turn(L, stages[i], stages[i + 1], order[i])
  }

  lemma NoTurns(L: Limits, s: Stage)
    ensures Turns(L, [], [s])
  {
  }

  lemma OneMoreTurn(L: Limits, order: seq<nat>, i: nat, stages: seq<Stage>, s: Stage)
    requires i < |order| && Turns(L, order[..i], stages) && Turn(L, stages[i], s, order[i])
    ensures Turns(L, order[..i + 1], stages + [s])
  {
    forall k | 0 <= k < i + 1 ensures Turn(L, (stages + [s])[k], (stages + [s])[k + 1], order[..i + 1][k]) {
      if k < i {
        assert Turn(L, stages[k], stages[k + 1], order[..i][k]);
      }
    }
  }

  /** What is eliminated stays so; and only variables of the order that are not frozen go. */
  lemma {:induction false} TurnsGrow(L: Limits, order: seq<nat>, stages: seq<Stage>, i: nat, j: nat)
    requires Turns(L, order, stages) && i <= j <= |order|
    ensures stages[i].gone <= stages[j].gone
    ensures forall v: nat :: v in stages[j].gone ==>
      v in stages[i].gone || (v in order && v < |L.frozen| && !L.frozen[v])
    decreases j - i
  {
    if i < j {
      assert Turn(L, stages[i], stages[i + 1], order[i]);
      TurnsGrow(L, order, stages, i + 1, j);
    }
  }

  /** After a round each variable of its order is eliminated, unless at its turn it was assigned or
      frozen or its elimination too much. */
  lemma TurnsDecide(L: Limits, order: seq<nat>, stages: seq<Stage>, i: nat)
    requires Turns(L, order, stages) && i < |order| && order[i] < |L.frozen|
    ensures order[i] in stages[|order|].gone || order[i] in VarsOf(stages[i].db.trail) || L.frozen[order[i]]
      || TooMuch(stages[i].db, order[i], L.grow, L.clause_lim)
  {
    hide TooMuch;
    assert Turn(L, stages[i], stages[i + 1], order[i]);
    TurnsGrow(L, order, stages, i, |order|);
    TurnsGrow(L, order, stages, i + 1, |order|);
  }

  // ----- rounds -----

  /** A round: the stage before it, and those of its turns, the first of which follows subsumption. */
  datatype Round = Round(before: Stage, turns: seq<Stage>)

  ghost predicate RoundOk(L: Limits, order: seq<nat>, r: Round, after: Stage) {
    && Turns(L, order, r.turns) && r.turns[|order|] == after
    && r.turns[0].gone == r.before.gone && SameSat(r.before.db, r.turns[0].db) && Idle(L.subsumption_lim, r.turns[0].db)
  }

  /** The rounds carried out, from the first stage to the last. */
  ghost predicate Rounds(L: Limits, orders: seq<seq<nat>>, rounds: seq<Round>, start: Stage, end: Stage)
    decreases |rounds|
  {
    |rounds| <= |orders|
    && if rounds == [] then end == start
       else
         var n := |rounds| - 1;
         RoundOk(L, orders[n], rounds[n], end) && Rounds(L, orders, rounds[..n], start, rounds[n].before)
  }

  lemma NoRounds(L: Limits, orders: seq<seq<nat>>, start: Stage)
    ensures Rounds(L, orders, [], start, start)
  {
  }

  lemma OneMoreRound(L: Limits, orders: seq<seq<nat>>, rounds: seq<Round>, start: Stage, r: Round, end: Stage)
    requires Rounds(L, orders, rounds, start, r.before) && |rounds| < |orders|
      && RoundOk(L, orders[|rounds|], r, end)
    ensures Rounds(L, orders, rounds + [r], start, end)
  {
    assert (rounds + [r])[..|rounds|] == rounds;
  }

  /** What is eliminated stays so, frozen variables are not, and each round has decided on its order. */
  lemma {:induction false} RoundsDecide(L: Limits, orders: seq<seq<nat>>, rounds: seq<Round>, start: Stage, end: Stage)
    requires Rounds(L, orders, rounds, start, end)
    ensures start.gone <= end.gone
    ensures forall v: nat :: v in end.gone && v !in start.gone ==> v < |L.frozen| && !L.frozen[v]
    ensures forall r, i :: 0 <= r < |rounds| && 0 <= i < |orders[r]| && orders[r][i] < |L.frozen| ==>
                             Decided(L, orders[r], rounds[r], i, end)
    decreases |rounds|
  {
    hide SameSat, Idle, TooMuch;
    if rounds != [] {
      var n := |rounds| - 1;
      var last := rounds[n];
      RoundsDecide(L, orders, rounds[..n], start, last.before);
      TurnsGrow(L, orders[n], last.turns, 0, |orders[n]|);
      forall r, i | 0 <= r < |rounds| && 0 <= i < |orders[r]| && orders[r][i] < |L.frozen|
        ensures Decided(L, orders[r], rounds[r], i, end)
      {
        if r == n {
          TurnsDecide(L, orders[n], last.turns, i);
        } else {
          assert Decided(L, orders[r], rounds[..n][r], i, last.before);
        }
      }
    }
  }

  /** A variable is eliminated at the end, or at its turn it was assigned, frozen, or not worth it. */
  ghost predicate Decided(L: Limits, order: seq<nat>, r: Round, i: nat, end: Stage)
    requires i < |order| && order[i] < |L.frozen|
  {
    || order[i] in end.gone || L.frozen[order[i]]
    || (i < |r.turns| && (order[i] in VarsOf(r.turns[i].db.trail)
                          || TooMuch(r.turns[i].db, order[i], L.grow, L.clause_lim)))
  }
}
