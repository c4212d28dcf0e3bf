/** The stack of eliminated clauses: a flat vector of literals and lengths that is read backwards. */
module ElimStacks {
  import opened SolverTypes
  import opened SolverStates
  import opened Elimination

  function Ints(c: Clause): (r: seq<nat>)
    ensures |r| == |c|
  {
    seq(|c|, i requires 0 <= i < |c| => ToInt(c[i]))
  }

  /** Every block is written as its literals followed by their number. */
  function Flat(blocks: seq<Clause>): seq<nat> {
    if blocks == [] then [] else Flat(blocks[..|blocks| - 1]) + Ints(blocks[|blocks| - 1]) + [|blocks[|blocks| - 1]|]
  }

  ghost predicate NonEmpty(blocks: seq<Clause>) {
    forall k :: 0 <= k < |blocks| ==> blocks[k] != []
  }

  /** Where the last block stands. */
  lemma LastBlock(blocks: seq<Clause>)
    requires blocks != [] && blocks[|blocks| - 1] != []
    ensures var s, b, base := Flat(blocks), blocks[|blocks| - 1], |Flat(blocks[..|blocks| - 1])|;
            && |s| == base + |b| + 1 && s[|s| - 1] == |b| && s[..base] == Flat(blocks[..|blocks| - 1])
            && forall k :: 0 <= k < |b| ==> s[base + k] == ToInt(b[k])
  {
  }

  lemma FlatAppend(blocks: seq<Clause>, b: Clause)
    ensures Flat(blocks + [b]) == Flat(blocks) + Ints(b) + [|b|]
  {
    assert (blocks + [b])[..|blocks|] == blocks;
  }

  // ----- the model as the original stores it -----

  function ModelValue(model: seq<LBool>, l: Lit): LBool {
    Assigned(model, l)
  }

  ghost predicate RestFalse(model: seq<LBool>, b: Clause) {
    forall k :: 1 <= k < |b| ==> ModelValue(model, b[k]) == False
  }

  /** All blocks' front variables have a place in the model. */
  ghost predicate Fits(blocks: seq<Clause>, n: nat) {
    forall k :: 0 <= k < |blocks| ==> blocks[k] != [] && blocks[k][0].v < n
  }

  ghost function ReadOne(b: Clause, model: seq<LBool>): (r: seq<LBool>)
    requires b != [] && b[0].v < |model|
    ensures |r| == |model|
  {
    if RestFalse(model, b) then model[b[0].v := if b[0].neg then False else True] else model
  }

  ghost function ReadAll(blocks: seq<Clause>, model: seq<LBool>): (r: seq<LBool>)
    requires Fits(blocks, |model|)
    ensures |r| == |model|
    decreases |blocks|
  {
    if blocks == [] then model else ReadAll(blocks[..|blocks| - 1], ReadOne(blocks[|blocks| - 1], model))
  }

  /** Reads the stack from its end: no block is skipped and none is read twice. */
  method ExtendModel(elimclauses: seq<nat>, model0: seq<LBool>, ghost blocks: seq<Clause>) returns (model: seq<LBool>)
    requires Fits(blocks, |model0|) && elimclauses == Flat(blocks)
    ensures model == ReadAll(blocks, model0)
  {
    model := model0;
    var i: int := |elimclauses| - 1;
    ghost var m := |blocks|;
    assert blocks[..m] == blocks;
    while i > 0
      invariant 0 <= m <= |blocks| && -1 <= i < |elimclauses| && elimclauses[..i + 1] == Flat(blocks[..m])
      invariant |model| == |model0| && ReadAll(blocks, model0) == ReadAll(blocks[..m], model)
      decreases i
    {
      assert |elimclauses[..i + 1]| == i + 1;
      NextBlock(elimclauses, blocks, m, i, blocks[m - 1]);
      ReadNext(blocks, m, model);
      i, model := ReadBlock(elimclauses, i, model, blocks[m - 1]);
      m := m - 1;
    }
    NothingLeft(blocks[..m], i);
  }

  /** The block that ends at i. */
  lemma NextBlock(elimclauses: seq<nat>, blocks: seq<Clause>, m: nat, i: nat, b: Clause)
    requires NonEmpty(blocks) && 0 < m <= |blocks| && 0 < i < |elimclauses| && elimclauses[..i + 1] == Flat(blocks[..m])
    requires b == blocks[m - 1]
    ensures elimclauses[i] == |b| <= i && elimclauses[..i - |b|] == Flat(blocks[..m - 1])
    ensures forall k :: 0 <= k < |b| ==> elimclauses[i - |b| + k] == ToInt(b[k])
  {
    var s := elimclauses[..i + 1];
    assert blocks[..m][..m - 1] == blocks[..m - 1];
    LastBlock(blocks[..m]);
    var base := i - |b|;
    assert s[..base] == elimclauses[..base];
    forall k | 0 <= k < |b| ensures elimclauses[base + k] == ToInt(b[k]) {
      assert s[base + k] == elimclauses[base + k];
    }
  }

  lemma ReadNext(blocks: seq<Clause>, m: nat, model: seq<LBool>)
    requires Fits(blocks, |model|) && 0 < m <= |blocks|
    ensures ReadAll(blocks[..m], model) == ReadAll(blocks[..m - 1], ReadOne(blocks[m - 1], model))
  {
    assert blocks[..m][..m - 1] == blocks[..m - 1];
  }

  lemma NothingLeft(blocks: seq<Clause>, i: int)
    requires NonEmpty(blocks) && |Flat(blocks)| == i + 1 && i <= 0
    ensures blocks == []
  {
    if blocks != [] {
      LastBlock(blocks);
    }
  }

  /** One block, from its length backwards to its first literal. */
  method ReadBlock(elimclauses: seq<nat>, at: nat, model0: seq<LBool>, ghost b: Clause)
    returns (i: int, model: seq<LBool>)
    requires at < |elimclauses| && b != [] && b[0].v < |model0| && elimclauses[at] == |b| && |b| <= at
    requires forall k :: 0 <= k < |b| ==> elimclauses[at - |b| + k] == ToInt(b[k])
    ensures i == at - |b| - 1 && model == ReadOne(b, model0)
  {
    model := model0;
    var j := elimclauses[at];
    i := at - 1;
    while j > 1
      invariant 1 <= j <= |b| && i == at - |b| - 1 + j
      invariant forall k :: j <= k < |b| ==> ModelValue(model, b[k]) == False
    {
      ToLitInverts(b[j - 1]);
      if ModelValue(model, ToLit(elimclauses[i])) != False {
        return i - j, model;
      }
      j, i := j - 1, i - 1;
    }
    ToLitInverts(b[0]);
    var x := ToLit(elimclauses[i]);
    model := model[x.v := if !x.neg then True else False];
    i := i - j;
  }

  // ----- both readings agree -----

  ghost function TrueSet(model: seq<LBool>): iset<nat> {
    iset v: nat | v < |model| && model[v] == True
  }

  /** Whenever a block is read, the literals behind its front have values; only a block of one
      literal gives its variable the first value. */
  ghost predicate Orderly(blocks: seq<Clause>, n: nat, undefined: set<nat>)
    decreases |blocks|
  {
    blocks == [] ||
    (var b := blocks[|blocks| - 1];
     && b != [] && (forall l :: l in b ==> l.v < n) && (forall k :: 1 <= k < |b| ==> b[k].v !in undefined)
     && (|b| == 1 || b[0].v !in undefined)
     && Orderly(blocks[..|blocks| - 1], n, undefined - {b[0].v}))
  }

  ghost predicate Defined(model: seq<LBool>, undefined: set<nat>) {
    forall v: nat :: v < |model| && v !in undefined ==> model[v] != Undef
  }

  lemma {:induction false} OrderlyFits(blocks: seq<Clause>, n: nat, undefined: set<nat>)
    requires Orderly(blocks, n, undefined)
    ensures Fits(blocks, n)
    decreases |blocks|
  {
    if blocks != [] {
      var m := |blocks| - 1;
      assert blocks[m][0] in blocks[m];
      OrderlyFits(blocks[..m], n, undefined - {blocks[m][0].v});
      forall k | 0 <= k < |blocks| ensures blocks[k] != [] && blocks[k][0].v < n {
        assert k < m ==> blocks[..m][k] == blocks[k];
      }
    }
  }

  lemma OneAgrees(b: Clause, model: seq<LBool>, undefined: set<nat>)
    requires b != [] && (forall l :: l in b ==> l.v < |model|) && b[0].v < |model|
    requires (forall k :: 1 <= k < |b| ==> b[k].v !in undefined) && Defined(model, undefined)
    requires |b| == 1 || b[0].v !in undefined
    ensures TrueSet(ReadOne(b, model)) == ExtendOne(b, TrueSet(model))
    ensures Defined(ReadOne(b, model), undefined - {b[0].v})
  {
    forall k | 1 <= k < |b| ensures ModelValue(model, b[k]) == False <==> !Holds(TrueSet(model), b[k]) {
      assert b[k] in b;
    }
  }

  /** A model that is defined on everything that was not eliminated is extended as the sets say, and
      defined everywhere but on variables without a block. */
  lemma {:induction false} ReadAgrees(blocks: seq<Clause>, model: seq<LBool>, undefined: set<nat>)
    requires Orderly(blocks, |model|, undefined) && Defined(model, undefined)
    ensures Fits(blocks, |model|)
    ensures TrueSet(ReadAll(blocks, model)) == Extend(blocks, TrueSet(model))
    decreases |blocks|
  {
    OrderlyFits(blocks, |model|, undefined);
    if blocks != [] {
      var m := |blocks| - 1;
      var b := blocks[m];
      OneAgrees(b, model, undefined);
      ReadAgrees(blocks[..m], ReadOne(b, model), undefined - {b[0].v});
    }
  }

  /** A section for a further variable: its blocks mention no variable eliminated before. */
  lemma OrderlySection(blocks: seq<Clause>, section: seq<Clause>, x: Lit, S: seq<Clause>, n: nat, undefined: set<nat>)
    requires Orderly(blocks, n, undefined) && SectionOf(section, x, S) && x.v !in undefined && x.v < n
    requires forall k, l :: 0 <= k < |section| && l in section[k] ==> l.v < n && l.v !in undefined
    ensures Orderly(blocks + section, n, undefined + {x.v})
  {
    var m := |S|;
    assert (blocks + section)[..|blocks| + m] == blocks + section[..m];
    assert (undefined + {x.v}) - {x.v} == undefined;
    OrderlyStored(blocks, section[..m], x, n, undefined);
  }

  lemma {:induction false} OrderlyStored(blocks: seq<Clause>, stored: seq<Clause>, x: Lit, n: nat, undefined: set<nat>)
    requires Orderly(blocks, n, undefined) && x.v !in undefined
    requires forall k :: 0 <= k < |stored| ==> Stored(stored[k], x)
    requires forall k, l :: 0 <= k < |stored| && l in stored[k] ==> l.v < n && l.v !in undefined
    ensures Orderly(blocks + stored, n, undefined)
    decreases |stored|
  {
    if stored == [] {
      assert blocks + stored == blocks;
    } else {
      var m := |stored| - 1;
      var all := blocks + stored;
      assert all[..|all| - 1] == blocks + stored[..m] && all[|all| - 1] == stored[m];
      assert undefined - {x.v} == undefined;
      forall k | 0 <= k < |stored[m]| ensures stored[m][k] in stored[m] {
      }
      OrderlyStored(blocks, stored[..m], x, n, undefined);
    }
  }
}
