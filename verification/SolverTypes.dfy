/** Literals, clauses and assignments of the SAT solver. */
module SolverTypes {
  /** The original packs a variable and a sign into one integer, 2v or 2v + 1. */
  datatype Lit = Lit(v: nat, neg: bool)

  datatype LBool = True | False | Undef

  type Clause = seq<Lit>

  function Neg(l: Lit): Lit {
    Lit(l.v, !l.neg)
  }

  function ToInt(l: Lit): nat {
    2 * l.v + if l.neg then 1 else 0
  }

  function ToLit(x: nat): (l: Lit)
    ensures ToInt(l) == x
  {
    Lit(x / 2, x % 2 == 1)
  }

  lemma ToLitInverts(l: Lit)
    ensures ToLit(ToInt(l)) == l
  {
  }

  // ----- meaning -----

  /** The value of a literal under the variables that are true. */
  ghost predicate Holds(A: iset<nat>, l: Lit) {
    (l.v in A) != l.neg
  }

  ghost predicate Satisfied(A: iset<nat>, c: Clause) {
    exists l :: l in c && Holds(A, l)
  }

  ghost predicate Models(A: iset<nat>, cs: seq<Clause>) {
    forall i :: 0 <= i < |cs| ==> Satisfied(A, cs[i])
  }

  ghost predicate DistinctLits(c: Clause) {
    forall i, j :: 0 <= i < j < |c| ==> c[i] != c[j]
  }
}
