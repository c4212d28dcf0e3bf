/** The proof object the reader fills and the checker walks. */
module FerpManagers {
  import opened Literals
  import opened Qbf
  import opened Formulas
  import opened Resolution
  import opened FerpProofs
  import opened NorProofs

  class FerpManager {
    var prop_to_original: map<Var, Var>
    var prop_to_annotation: map<Var, seq<Lit>>   // the annotation itself, where the original keeps a pointer
    var annotations: seq<seq<Lit>>
    var trace_clauses: seq<seq<Lit>>
    var trace_id_to_cnf_id: seq<nat>
    var cnf_id_to_trace_id: map<nat, nat>
    var antecedents: seq<(nat, nat)>
    var orig_ex: seq<Lit>
    var root: nat
    var is_sat: bool
    var helper_variable_mapping: map<Var, seq<Lit>>
    var nor_clauses: seq<seq<Lit>>
    var original_clause_mapping: seq<seq<seq<nat>>>
    var res_clause_ids: seq<nat>

    /** The proof as a value. */
    ghost function Abs(): Proof
      reads this`prop_to_original, this`prop_to_annotation, this`trace_clauses,
            this`cnf_id_to_trace_id, this`antecedents, this`root, this`helper_variable_mapping
    {
      Proof(prop_to_original, prop_to_annotation,
            trace_clauses, antecedents, cnf_id_to_trace_id, root, helper_variable_mapping)
    }

    ghost predicate Valid()
      reads this`prop_to_original, this`prop_to_annotation, this`trace_clauses,
            this`trace_id_to_cnf_id, this`cnf_id_to_trace_id, this`antecedents, this`root, this`is_sat,
            this`helper_variable_mapping
    {
      IdsAhead(0)
    }

    /** Valid, except that the id tables may be ahead of the trace. */
    ghost predicate IdsAhead(extra: nat)
      reads this`prop_to_original, this`prop_to_annotation, this`trace_clauses,
            this`trace_id_to_cnf_id, this`cnf_id_to_trace_id, this`antecedents, this`root, this`is_sat,
            this`helper_variable_mapping
    {
      && prop_to_original.Keys == prop_to_annotation.Keys
      && (forall v :: v in prop_to_original ==> prop_to_original[v] > 0)
      && |trace_clauses| == |antecedents|
      && |trace_id_to_cnf_id| == |trace_clauses| + extra
      && (forall id :: id in cnf_id_to_trace_id ==> cnf_id_to_trace_id[id] < |trace_clauses| + extra)
      && (forall c :: c in trace_clauses ==> Sorted(c))
      && (!is_sat ==> forall c :: c in trace_clauses ==> Abs().Copies(c))
      && (root == 0 || (root < |trace_clauses| && trace_clauses[root] == []))
    }

    /** The dummy entry for id 0 is in place. */
    ghost predicate Started()
      reads this`trace_clauses, this`antecedents
    {
      trace_clauses != [] && antecedents != [] && trace_clauses[0] == [] && antecedents[0] == (0, 0)
    }

    lemma AbsWellFormed()
      requires Valid() && Started()
      ensures Abs().WellFormed()
    {
    }

    constructor ()
      ensures Valid() && trace_clauses == [] && !is_sat
      ensures prop_to_original == map[] && annotations == [] && helper_variable_mapping == map[]
      ensures nor_clauses == [] && original_clause_mapping == [] && res_clause_ids == []
    {
      prop_to_original, prop_to_annotation, annotations := map[], map[], [];
      trace_clauses, trace_id_to_cnf_id, cnf_id_to_trace_id, antecedents := [], [], map[], [];
      orig_ex, root, is_sat, helper_variable_mapping := [], 0, false, map[];
      nor_clauses, original_clause_mapping, res_clause_ids := [], [], [];
    }

    /** Declares copies of variables under one annotation. It fails exactly when one of the
        copies has been declared before or is listed twice. */
    method AddVariables(prop: seq<Var>, orig: seq<Var>, anno: seq<Lit>) returns (r: int)
      requires Valid() && |prop| == |orig| && 0 !in prop && 0 !in orig
      requires trace_clauses == []
      modifies this`prop_to_original, this`prop_to_annotation, this`annotations
      ensures r == 0 || r == 1
      ensures r == 0 <==> NoDuplicates(prop) && forall v :: v in prop ==> v !in old(prop_to_original)
      ensures r == 0 ==>
                && Valid() && annotations == old(annotations) + [anno]
                && prop_to_original.Keys == old(prop_to_original.Keys) + Elements(prop)
                && (forall v :: v in old(prop_to_original) ==>
                      prop_to_original[v] == old(prop_to_original[v])
                      && Abs().annotation[v] == old(Abs().annotation[v]))
                && (forall i :: 0 <= i < |prop| ==>
                      prop_to_original[prop[i]] == orig[i] && Abs().annotation[prop[i]] == anno)
    {
      annotations := annotations + [anno];
      var success := InsertOriginals(prop, orig);
      if !success { return 1; }
      InsertAnnotations(prop, anno);
      return 0;
    }

    method InsertOriginals(prop: seq<Var>, orig: seq<Var>) returns (success: bool)
      requires |prop| == |orig| && 0 !in orig
      requires forall v :: v in prop_to_original ==> prop_to_original[v] > 0
      modifies this`prop_to_original
      ensures success <==> NoDuplicates(prop) && forall v :: v in prop ==> v !in old(prop_to_original)
      ensures success ==>
                && prop_to_original.Keys == old(prop_to_original.Keys) + Elements(prop)
                && (forall v :: v in prop_to_original ==> prop_to_original[v] > 0)
                && (forall v :: v in old(prop_to_original) ==> prop_to_original[v] == old(prop_to_original[v]))
                && (forall j :: 0 <= j < |prop| ==> prop_to_original[prop[j]] == orig[j])
    {
      var i := 0;
      while i < |prop|
        invariant 0 <= i <= |prop|
        invariant NoDuplicates(prop[..i])
        invariant prop_to_original.Keys == old(prop_to_original.Keys) + Elements(prop[..i])
        invariant forall v :: v in prop_to_original ==> prop_to_original[v] > 0
        invariant forall v :: v in old(prop_to_original) ==>
                    v !in prop[..i] && prop_to_original[v] == old(prop_to_original[v])
        invariant forall j :: 0 <= j < i ==> prop_to_original[prop[j]] == orig[j]
      {
        assert prop[..i + 1] == prop[..i] + [prop[i]];
        assert Elements(prop[..i + 1]) == Elements(prop[..i]) + {prop[i]};
        if prop[i] in prop_to_original {
          if prop[i] in Elements(prop[..i]) {
            var j :| 0 <= j < i && prop[..i][j] == prop[i];
            assert prop[j] == prop[i];
          } else {
            assert prop[i] in prop;
          }
          return false;
        }
        forall j | 0 <= j < i ensures prop[j] != prop[i] {
          assert prop[..i][j] in Elements(prop[..i]);
        }
        assert orig[i] in orig;
        prop_to_original := prop_to_original[prop[i] := orig[i]];
        i := i + 1;
      }
      assert prop[..i] == prop;
      return true;
    }

    method InsertAnnotations(prop: seq<Var>, anno: seq<Lit>)
      requires forall v :: v in prop ==> v !in prop_to_annotation
      modifies this`prop_to_annotation
      ensures prop_to_annotation.Keys == old(prop_to_annotation.Keys) + Elements(prop)
      ensures forall v :: v in prop_to_annotation ==>
                prop_to_annotation[v] == if v in old(prop_to_annotation) then old(prop_to_annotation)[v] else anno
      ensures forall v :: v in prop ==> prop_to_annotation[v] == anno
    {
      var i := 0;
      while i < |prop|
        invariant 0 <= i <= |prop|
        invariant prop_to_annotation.Keys == old(prop_to_annotation.Keys) + Elements(prop[..i])
        invariant forall v :: v in prop_to_annotation ==>
                    prop_to_annotation[v] == if v in old(prop_to_annotation) then old(prop_to_annotation)[v] else anno
      {
        assert prop[..i + 1] == prop[..i] + [prop[i]];
        assert Elements(prop[..i + 1]) == Elements(prop[..i]) + {prop[i]};
        if prop[i] !in prop_to_annotation {
          prop_to_annotation := prop_to_annotation[prop[i] := anno];
        }
        i := i + 1;
      }
      assert prop[..i] == prop;
      assert forall v :: v in prop ==> v in Elements(prop);
    }

    /** Appends a clause to the trace: 1 is a repeated id, 2 an undeclared copy in a refutation,
        3 a second empty clause. */
    method AddClause(id: nat, clause: array<Lit>, ante: (nat, nat)) returns (r: int)
      requires Valid()
      modifies this`cnf_id_to_trace_id, this`trace_id_to_cnf_id, this`root, this`trace_clauses,
               this`antecedents, clause
      ensures r == if id in old(cnf_id_to_trace_id) then 1
                   else if !is_sat && exists l :: l in old(clause[..]) && VarOf(l) !in prop_to_original then 2
                   else if old(root) != 0 && clause.Length == 0 then 3 else 0
      ensures r == 0 ==>
                && Valid()
                && cnf_id_to_trace_id == old(cnf_id_to_trace_id)[id := |old(trace_clauses)|]
                && trace_clauses == old(trace_clauses) + [clause[..]]
                && Sorted(clause[..]) && multiset(clause[..]) == multiset(old(clause[..]))
                && antecedents == old(antecedents) + [ante]
                && root == if clause.Length == 0 then |old(trace_clauses)| else old(root)
      ensures r != 0 ==> trace_clauses == old(trace_clauses) && antecedents == old(antecedents) && root == old(root)
    {
      if id in cnf_id_to_trace_id {
        return 1;
      }
      cnf_id_to_trace_id := cnf_id_to_trace_id[id := |trace_clauses|];
      trace_id_to_cnf_id := trace_id_to_cnf_id + [id];
      var declared := is_sat;
      if !is_sat {
        declared := AllDeclared(clause);
      }
      if !declared { return 2; }
      if root != 0 && clause.Length == 0 {
        return 3;
      }
      Append(clause, ante);
      return 0;
    }

    method Append(clause: array<Lit>, ante: (nat, nat))
      requires IdsAhead(1)
      requires is_sat || forall l :: l in clause[..] ==> VarOf(l) in prop_to_original
      modifies this`root, this`trace_clauses, this`antecedents, clause
      ensures Valid()
      ensures trace_clauses == old(trace_clauses) + [clause[..]]
      ensures Sorted(clause[..]) && multiset(clause[..]) == multiset(old(clause[..]))
      ensures antecedents == old(antecedents) + [ante]
      ensures root == if clause.Length == 0 then |old(trace_clauses)| else old(root)
    {
      if clause.Length == 0 {
        root := |trace_clauses|;
      }
      ghost var lits := clause[..];
      Sort(clause);
      SamePermuted(lits, clause[..]);
      trace_clauses := trace_clauses + [clause[..]];
      antecedents := antecedents + [ante];
      assert !is_sat ==> Abs().Copies(clause[..]);
    }

    method AllDeclared(clause: array<Lit>) returns (ok: bool)
      ensures ok <==> forall l :: l in clause[..] ==> VarOf(l) in prop_to_original
    {
      var i := 0;
      while i < clause.Length
        invariant 0 <= i <= clause.Length
        invariant forall j :: 0 <= j < i ==> VarOf(clause[j]) in prop_to_original
      {
        if VarOf(clause[i]) !in prop_to_original {
          assert clause[i] in clause[..];
          return false;
        }
        i := i + 1;
      }
      return true;
    }

    static lemma SamePermuted(s: seq<Lit>, t: seq<Lit>)
      requires multiset(s) == multiset(t)
      ensures forall l :: l in s <==> l in t
    {
      assert forall l :: l in s <==> l in multiset(s);
      assert forall l :: l in t <==> l in multiset(t);
    }

    // ----- checking a refutation -----

    /** Copies a literal vector, leaving out what is there already. */
    static method WithoutRepeats(s: seq<Lit>) returns (t: seq<Lit>)
      ensures t == Dedup(s)
    {
      t := [];
      var i := 0;
      while i < |s|
        invariant 0 <= i <= |s| && t == Dedup(s[..i])
      {
        assert s[..i + 1][..i] == s[..i];
        if s[i] !in t {
          t := t + [s[i]];
        }
        i := i + 1;
      }
      assert s[..i] == s;
    }

    method CheckResolution(index: nat) returns (r: int)
      requires Valid() && Started() && index < |trace_clauses|
      ensures r == NodeCode(Abs(), index)
    {
      var parent1 := trace_clauses[TraceIndexOf(antecedents[index].0)];
      var parent2 := trace_clauses[TraceIndexOf(antecedents[index].1)];
      var p := WithoutRepeats(parent1);
      var q := WithoutRepeats(parent2);
      r := Merge(p, q, trace_clauses[index]);
    }

    static lemma Slice(s: seq<Lit>, i: nat)
      requires i <= |s|
      ensures i < |s| ==> s[i..] != [] && s[i..][0] == s[i] && s[i..][1..] == s[i + 1..]
      ensures i == |s| ==> s[i..] == []
    {
    }

    /** The walk itself: finds the pivot and checks the resolvent at the same time. */
    static method Merge(p: seq<Lit>, q: seq<Lit>, c: seq<Lit>) returns (r: int)
      ensures r == MergeCode(p, q, c, [])
    {
      var pivot_candidates: seq<Var> := [];
      var li1, li2, res := 0, 0, 0;
      ghost var all := MergeCode(p, q, c, []);
      assert p[0..] == p && q[0..] == q && c[0..] == c;
      while li1 < |p| && li2 < |q|
        invariant 0 <= li1 <= |p| && 0 <= li2 <= |q| && 0 <= res <= |c|
        invariant MergeCode(p[li1..], q[li2..], c[res..], pivot_candidates) == all
      {
        Slice(p, li1);
        Slice(q, li2);
        Slice(c, res);
        var v1, v2 := VarOf(p[li1]), VarOf(q[li2]);
        if v1 < v2 {
          if res == |c| || p[li1] != c[res] { return 6; }
          li1, res := li1 + 1, res + 1;
        } else if v1 > v2 {
          if res == |c| || q[li2] != c[res] { return 7; }
          li2, res := li2 + 1, res + 1;
        } else {
          if p[li1] != q[li2] {
            pivot_candidates := pivot_candidates + [v1];
          } else if res < |c| && p[li1] == c[res] {
            res := res + 1;
          } else {
            return 8;
          }
          li1, li2 := li1 + 1, li2 + 1;
        }
      }
      // check that the rest of the elements are present
      while li1 < |p|
        invariant 0 <= li1 <= |p| && 0 <= res <= |c| && 0 <= li2 <= |q| && (li1 < |p| ==> li2 == |q|)
        invariant MergeCode(p[li1..], q[li2..], c[res..], pivot_candidates) == all
      {
        Slice(p, li1);
        Slice(c, res);
        if res == |c| || p[li1] != c[res] { return 9; }
        li1, res := li1 + 1, res + 1;
      }
      while li2 < |q|
        invariant 0 <= li2 <= |q| && 0 <= res <= |c| && li1 == |p|
        invariant MergeCode(p[li1..], q[li2..], c[res..], pivot_candidates) == all
      {
        Slice(q, li2);
        Slice(c, res);
        if res == |c| || q[li2] != c[res] { return 10; }
        li2, res := li2 + 1, res + 1;
      }
      if res != |c| { return 11; }
      if |pivot_candidates| != 1 { return 12; }
      return 0;
    }

    /** Position by position, two sorted vectors of one length agree exactly when they are
        permutations of each other. */
    static method SameSorted(s: seq<Lit>, t: seq<Lit>) returns (same: bool)
      requires |s| == |t| && Sorted(s) && Sorted(t)
      ensures same <==> multiset(s) == multiset(t)
    {
      var i := 0;
      while i < |s|
        invariant 0 <= i <= |s| && s[..i] == t[..i]
      {
        if s[i] != t[i] {
          if multiset(s) == multiset(t) {
            SortedUnique(s, t);
          }
          return false;
        }
        i := i + 1;
      }
      assert s[..i] == s && t[..i] == t;
      return true;
    }

    static lemma StrictIsSorted(s: seq<Lit>)
      requires StrictVars(s)
      ensures Sorted(s)
    {
    }

    method MapToOriginals(c: seq<Lit>)
      requires Abs().Copies(c)
      modifies this`orig_ex
      ensures orig_ex == Abs().OriginalLits(c)
    {
      orig_ex := [];
      var i := 0;
      while i < |c|
        invariant 0 <= i <= |c| && orig_ex == Abs().OriginalLits(c)[..i]
      {
        assert c[i] in c;
        orig_ex := orig_ex + [MakeLit(prop_to_original[VarOf(c[i])], Sign(c[i]))];
        i := i + 1;
      }
    }

    method CheckExpansionUNSAT(qbf: Formula, index: nat) returns (r: int)
      requires index < |trace_clauses| == |antecedents| && Abs().Copies(trace_clauses[index])
      requires forall c :: c in qbf.matrix ==> StrictVars(c.ex)
      modifies this`orig_ex
      ensures r == LeafCode(Abs(), qbf.matrix, index)
    {
      var c := trace_clauses[index];
      ghost var P := Abs();
      var id := antecedents[index].0;
      // id - 1 is unsigned: id 0 wraps around to a number no matrix reaches
      if id == 0 || id - 1 >= |qbf.matrix| { return 1; }
      var clause := qbf.matrix[id - 1];
      assert clause in qbf.matrix;
      if |clause.ex| != |c| { return 2; }

      MapToOriginals(c);
      orig_ex := SortedCopy(orig_ex);
      assert |orig_ex| == |multiset(orig_ex)| == |multiset(P.OriginalLits(c))| == |c|;
      StrictIsSorted(clause.ex);
      var same := SameSorted(clause.ex, orig_ex);
      if !same { return 3; }

      var consistent, clause_anot := CollectAnnotations(c);
      if !consistent { return 4; }
      var falsified := AllNegated(clause.al, clause_anot);
      return if falsified then 0 else 5;
    }

    /** Whether the negation of every literal is in L. */
    static method AllNegated(al: seq<Lit>, L: set<Lit>) returns (all: bool)
      ensures all <==> forall l :: l in al ==> Negate(l) in L
    {
      var i := 0;
      while i < |al|
        invariant 0 <= i <= |al|
        invariant forall j :: 0 <= j < i ==> Negate(al[j]) in L
      {
        if Negate(al[i]) !in L {
          assert al[i] in al;
          return false;
        }
        i := i + 1;
      }
      return true;
    }

    /** The union of the annotations of a clause's variables, unless two of them disagree. The
        annotations are visited in no particular order, as they are sorted by address. */
    method CollectAnnotations(c: seq<Lit>) returns (ok: bool, L: set<Lit>)
      requires Abs().Copies(c)
      ensures ok <==> Consistent(Abs().Union(c))
      ensures ok ==> L == Abs().Union(c)
    {
      ghost var P := Abs();
      var added: set<seq<Lit>> := {};
      var i := 0;
      while i < |c|
        invariant 0 <= i <= |c|
        invariant added == set j | 0 <= j < i :: prop_to_annotation[VarOf(c[j])]
      {
        assert c[i] in c;
        added := added + {prop_to_annotation[VarOf(c[i])]};
        i := i + 1;
      }
      forall a | a in added ensures Elements(a) <= P.Union(c) {
        var j :| 0 <= j < |c| && prop_to_annotation[VarOf(c[j])] == a;
        assert c[j] in c;
      }
      ok, L := UnionOf(added, P.Union(c));
      if ok {
        forall l | l in P.Union(c) ensures l in L {
          var x :| x in c && l in P.annotation[VarOf(x)];
          var j :| 0 <= j < |c| && c[j] == x;
          assert prop_to_annotation[VarOf(c[j])] in added;
        }
      }
    }

    /** Merges a set of annotations until a literal meets its negation. */
    static method UnionOf(added: set<seq<Lit>>, ghost all: set<Lit>) returns (ok: bool, L: set<Lit>)
      requires forall a :: a in added ==> Elements(a) <= all
      ensures !ok ==> !Consistent(all)
      ensures ok ==> Consistent(L) && L <= all && forall a :: a in added ==> Elements(a) <= L
    {
      L := {};
      var todo := added;
      while todo != {}
        invariant todo <= added
        invariant forall a :: a in added - todo ==> Elements(a) <= L
        invariant Consistent(L) && L <= all
        decreases todo
      {
        var a :| a in todo;
        ghost var before := L;
        var k := 0;
        while k < |a|
          invariant 0 <= k <= |a|
          invariant before <= L && Elements(a[..k]) <= L && Consistent(L) && L <= all
        {
          var l := a[k];
          assert l in Elements(a);
          assert a[..k + 1] == a[..k] + [l];
          if Negate(l) in L {
            assert Negate(l) in all && l in all;
            return false, L;
          }
          assert forall x: Lit :: Negate(Negate(x)) == x;
          L := L + {l};
          k := k + 1;
        }
        assert a[..k] == a;
        todo := todo - {a};
      }
      return true, L;
    }

    /** 13: there is no empty clause; 14: some clause does not contribute to it. */
    method CheckRedundant() returns (r: int)
      requires Valid() && Started()
      ensures r == if root == 0 then 13
                   else if exists i: nat :: 1 <= i < |trace_clauses| && !Reachable(Abs(), i) then 14 else 0
    {
      if root == 0 { return 13; }
      ghost var uses, reach := UseGraph(Abs());
      var mark := MarkFromRoot(uses, reach);
      MarkedIffReachable(mark[..], uses, reach);
      var i := 1;
      while i < mark.Length
        invariant 1 <= i <= mark.Length
        invariant forall j :: 1 <= j < i ==> mark[j]
      {
        if !mark[i] {
          assert !mark[..][i];
          return 14;
        }
        i := i + 1;
      }
      forall j: nat | 1 <= j < |trace_clauses| ensures Reachable(Abs(), j) {
        assert mark[..][j];
      }
      return 0;
    }

    /** The edges of the derivation and what they reach, as sets. */
    static lemma UseGraph(P: Proof) returns (uses: iset<(nat, nat)>, reach: iset<nat>)
      ensures forall i: nat, j: nat :: (i, j) in uses <==> Uses(P, i, j)
      ensures forall i: nat :: i in reach <==> Reachable(P, i)
      ensures P.root in reach && forall i, j :: i in reach && (i, j) in uses ==> j in reach
    {
      uses := iset i: nat, j: nat | Uses(P, i, j) :: (i, j);
      reach := iset i: nat | Reachable(P, i);
      forall i, j | i in reach && (i, j) in uses ensures j in reach {
        ReachableStep(P, i, j);
      }
      RootReachable(P);
    }

    lemma MarkedIffReachable(mark: seq<bool>, uses: iset<(nat, nat)>, reach: iset<nat>)
      requires root < |mark| && mark[root]
      requires forall i: nat, j: nat :: (i, j) in uses <==> Uses(Abs(), i, j)
      requires forall i: nat :: i in reach <==> Reachable(Abs(), i)
      requires forall i: nat :: i < |mark| && mark[i] ==> i in reach
      requires forall i: nat, j: nat :: i < |mark| && mark[i] && (i, j) in uses ==> j < |mark| && mark[j]
      ensures forall i: nat :: i < |mark| ==> (mark[i] <==> Reachable(Abs(), i))
    {
      var S := set i: nat | i < |mark| && mark[i];
      forall i: nat | i < |mark| && Reachable(Abs(), i) ensures mark[i] {
        forall a: nat, b: nat | a in S && Uses(Abs(), a, b) ensures b in S {
          assert (a, b) in uses;
        }
        ClosedHoldsReachable(Abs(), S, i);
      }
    }

    /** Marks what the empty clause was derived from, with a stack of clauses to visit. */
    method MarkFromRoot(ghost uses: iset<(nat, nat)>, ghost reach: iset<nat>) returns (mark: array<bool>)
      requires trace_clauses != [] && |trace_clauses| == |antecedents| && root < |trace_clauses|
      requires forall id :: id in cnf_id_to_trace_id ==> cnf_id_to_trace_id[id] < |trace_clauses|
      requires forall i: nat, j: nat :: (i, j) in uses <==>
                 i < |antecedents| && antecedents[i].1 != 0
                 && (j == TraceIndexOf(antecedents[i].0) || j == TraceIndexOf(antecedents[i].1))
      requires root in reach && forall i, j :: i in reach && (i, j) in uses ==> j in reach
      ensures fresh(mark) && mark.Length == |trace_clauses| && mark[root]
      ensures forall i: nat :: i < mark.Length && mark[i] ==> i in reach
      ensures forall i: nat, j: nat :: i < mark.Length && mark[i] && (i, j) in uses ==> j < mark.Length && mark[j]
    {
      var n := |trace_clauses|;
      mark := new bool[n](_ => false);
      var queue: seq<nat> := [root];
      mark[root] := true;
      ghost var seen: set<nat> := {root};
      while queue != []
        invariant Marked(mark, n, seen)
        invariant Frontier(root, uses, reach, seen, queue)
        decreases Below(n) - seen, |queue|
      {
        var node := queue[|queue| - 1];
        assert queue == queue[..|queue| - 1] + [node];
        queue := queue[..|queue| - 1];
        assert node in seen by { assert node in queue + [node]; }
        if antecedents[node].1 != 0 {
          var second, first := TraceIndexOf(antecedents[node].1), TraceIndexOf(antecedents[node].0);
          PopNode(root, uses, reach, seen, queue, node, second, first);
          queue, seen := PushUnmarked(mark, queue, seen, second);
          queue, seen := PushUnmarked(mark, queue, seen, first);
        } else {
          PopLeaf(root, uses, reach, seen, queue, node);
        }
      }
    }

    static ghost function Below(n: nat): (s: set<nat>)
      ensures forall i: nat :: i in s <==> i < n
    {
      if n == 0 then {} else Below(n - 1) + {(n - 1) as nat}
    }

    static ghost predicate Marked(mark: array<bool>, n: nat, seen: set<nat>)
      reads mark
    {
      && mark.Length == n && seen <= Below(n)
      && forall i: nat :: i < n ==> (mark[i] <==> i in seen)
    }

    static method PushUnmarked(mark: array<bool>, queue: seq<nat>, ghost seen: set<nat>, next: nat)
      returns (queue': seq<nat>, ghost seen': set<nat>)
      requires Marked(mark, mark.Length, seen) && next < mark.Length
      modifies mark
      ensures seen' == seen + {next} && Marked(mark, mark.Length, seen')
      ensures queue' == if next in seen then queue else queue + [next]
    {
      queue', seen' := queue, seen + {next};
      if !mark[next] {
        mark[next] := true;
        queue' := queue + [next];
      }
    }

    /** Everything seen is reachable, and only clauses still queued may use an unseen one. */
    static ghost predicate Frontier(root: nat, uses: iset<(nat, nat)>, reach: iset<nat>, seen: set<nat>,
        queue: seq<nat>)
    {
      && root in seen
      && (forall i :: i in queue ==> i in seen)
      && (forall i :: i in seen ==> i in reach)
      && (forall i, j :: i in seen && i !in queue && (i, j) in uses ==> j in seen)
    }

    static lemma PopLeaf(root: nat, uses: iset<(nat, nat)>, reach: iset<nat>, seen: set<nat>, queue: seq<nat>,
        node: nat)
      requires Frontier(root, uses, reach, seen, queue + [node])
      requires forall j :: (node, j) !in uses
      ensures Frontier(root, uses, reach, seen, queue)
    {
      assert forall i :: i in queue + [node] <==> i in queue || i == node;
    }

    static lemma PopNode(root: nat, uses: iset<(nat, nat)>, reach: iset<nat>, seen: set<nat>, queue: seq<nat>,
                         node: nat, a: nat, b: nat)
      requires Frontier(root, uses, reach, seen, queue + [node])
      requires forall j :: (node, j) in uses <==> j == a || j == b
      requires forall i, j :: i in reach && (i, j) in uses ==> j in reach
      ensures var q := if a in seen then queue else queue + [a];
              Frontier(root, uses, reach, seen + {a} + {b}, if b in seen + {a} then q else q + [b])
    {
      assert forall i :: i in queue + [node] <==> i in queue || i == node;
      var q := if a in seen then queue else queue + [a];
      var r := if b in seen + {a} then q else q + [b];
      assert forall i :: i in q <==> i in queue || (a !in seen && i == a);
      assert forall i :: i in r <==> i in q || (b !in seen + {a} && i == b);
      assert node in queue + [node];
    }

    function TraceIndexOf(id: nat): (i: nat)
      reads this`cnf_id_to_trace_id, this`trace_clauses
      requires trace_clauses != [] && forall id :: id in cnf_id_to_trace_id ==> cnf_id_to_trace_id[id] < |trace_clauses|
      ensures i < |trace_clauses|
    {
      if id in cnf_id_to_trace_id then cnf_id_to_trace_id[id] else 0
    }

    /** The check of a refutation accepts exactly the proofs whose clauses all pass and all
        contribute to an empty clause; and an accepted refutation refutes the formula. */
    method CheckUNSAT(qbf: Formula) returns (r: int)
      requires Valid() && Started() && !is_sat && qbf.Valid()
      modifies this`orig_ex
      ensures Abs().WellFormed() && forall i :: 0 <= i < |trace_clauses| ==> Abs().Copies(trace_clauses[i])
      ensures UnsatVerdict(Abs(), qbf.matrix, r) && (r == 0 <==> Accepted(Abs(), qbf.matrix))
      ensures r == 0 && Acyclic(Abs()) && Covers(Existential, Abs(), qbf.Blocks()) ==> !qbf.IsTrue()
    {
      TraceCopies();
      MatrixStrict(qbf);
      r := CheckClauses(qbf);
      if r != 0 { return r; }
      r := CheckRedundant();
      if r == 0 && Acyclic(Abs()) && Covers(Existential, Abs(), qbf.Blocks()) {
        Refutes(qbf);
      }
    }

    lemma TraceCopies()
      requires Valid() && Started() && !is_sat
      ensures Abs().WellFormed() && forall i :: 0 <= i < |trace_clauses| ==> Abs().Copies(trace_clauses[i])
    {
      forall i | 0 <= i < |trace_clauses| ensures Abs().Copies(trace_clauses[i]) {
        assert trace_clauses[i] in trace_clauses;
      }
    }

    /** The first loop of the check: every clause is an expansion or a resolvent. */
    method CheckClauses(qbf: Formula) returns (r: int)
      requires Valid() && Started() && !is_sat
      requires forall c :: c in qbf.matrix ==> StrictVars(c.ex)
      requires Abs().WellFormed() && forall i :: 0 <= i < |trace_clauses| ==> Abs().Copies(trace_clauses[i])
      modifies this`orig_ex
      ensures r == 0 <==> forall j :: 1 <= j < |trace_clauses| ==> Passes(Abs(), qbf.matrix, j)
      ensures r != 0 ==> exists j :: FirstBad(Abs(), qbf.matrix, j) && r == ClauseCode(Abs(), qbf.matrix, j)
    {
      var i := 1;
      while i < |trace_clauses|
        invariant 1 <= i <= |trace_clauses|
        invariant forall j :: 1 <= j < i ==> Passes(Abs(), qbf.matrix, j)
      {
        var res: int;
        if antecedents[i].1 == 0 {
          res := CheckExpansionUNSAT(qbf, i);
        } else {
          res := CheckResolution(i);
        }
        assert (res == 0 <==> Passes(Abs(), qbf.matrix, i)) && res == ClauseCode(Abs(), qbf.matrix, i);
        if res != 0 {
          assert FirstBad(Abs(), qbf.matrix, i);
          return res;
        }
        i := i + 1;
      }
      return 0;
    }

    /** The refuted formula is false over the clauses as they were given to the parser. */
    lemma Refutes(qbf: Formula)
      requires Valid() && Started() && !is_sat && qbf.Valid()
      requires Abs().WellFormed() && forall i :: 0 <= i < |trace_clauses| ==> Abs().Copies(trace_clauses[i])
      requires Accepted(Abs(), qbf.matrix)
      requires Acyclic(Abs()) && Covers(Existential, Abs(), qbf.Blocks())
      ensures !qbf.IsTrue()
    {
      RefutationSound(Abs(), qbf.Blocks(), qbf.quant_depth, qbf.matrix);
      TruthOfEquivalent(qbf.Bounds(), {}, qbf.given, MatrixLits(qbf.matrix));
    }

    // ----- reading a proof of a true formula -----

    /** A clause that introduces helpers but names nothing they stand for. */
    ghost predicate BareHelper(c: seq<Lit>)
      reads this`prop_to_original
    {
      c != [] && forall l :: l in c ==> !Sign(l) && VarOf(l) !in prop_to_original
    }

    /** Every clause of the trace has one of the three origins, or is a bare helper clause. */
    ghost predicate Traced()
      reads this`prop_to_original, this`prop_to_annotation, this`trace_clauses,
            this`cnf_id_to_trace_id, this`antecedents, this`root, this`helper_variable_mapping,
            this`nor_clauses, this`res_clause_ids
    {
      forall j :: 1 <= j < |trace_clauses| ==>
        FromRule(Abs(), nor_clauses, res_clause_ids, j) || BareHelper(trace_clauses[j])
    }

    /** Sorts the literals of a clause into positive helpers and the rest. */
    method SplitHelpers(clause: seq<Lit>) returns (helper_variable: Var, literal_array: seq<Lit>, is_nor_clause: bool)
      ensures forall l :: l in literal_array <==> l in clause && (Sign(l) || VarOf(l) in prop_to_original)
      ensures is_nor_clause <==> forall l :: l in clause ==> l in literal_array
      ensures !is_nor_clause ==>
        helper_variable > 0 && helper_variable in clause && helper_variable !in prop_to_original
    {
      helper_variable, literal_array, is_nor_clause := 0, [], true;
      var i := 0;
      while i < |clause|
        invariant 0 <= i <= |clause|
        invariant forall l :: l in literal_array <==> l in clause[..i] && (Sign(l) || VarOf(l) in prop_to_original)
        invariant is_nor_clause <==> forall l :: l in clause[..i] ==> l in literal_array
        invariant !is_nor_clause ==>
                    helper_variable > 0 && helper_variable in clause && helper_variable !in prop_to_original
      {
        var l := clause[i];
        assert clause[..i + 1] == clause[..i] + [l] && l in clause;
        if !Sign(l) && IsHelper(VarOf(l)) {
          helper_variable := VarOf(l);
          is_nor_clause := false;
          assert l in clause[..i + 1];
        } else {
          literal_array := literal_array + [l];
        }
        i := i + 1;
      }
      assert clause[..i] == clause;
    }

    /** Enters a clause of a proof of a true formula: a resolvent, a nor-clause with its originals,
        or a helper clause that extends what the helper stands for. */
    method ReadClauseSAT(id: nat, clause: array<Lit>, ante: (nat, nat), originals: seq<seq<nat>>, expansion_part: bool)
      returns (r: int)
      requires Valid() && Started() && is_sat && Traced()
      requires |nor_clauses| == |original_clause_mapping|
      modifies this, clause
      ensures r == if id in old(cnf_id_to_trace_id) || (old(root) != 0 && clause.Length == 0) then 8 else 0
      ensures r == 0 ==>
                && Valid() && Started() && Traced() && |nor_clauses| == |original_clause_mapping|
                && trace_clauses == old(trace_clauses) + [clause[..]]
                && Sorted(clause[..]) && multiset(clause[..]) == multiset(old(clause[..]))
                && cnf_id_to_trace_id == old(cnf_id_to_trace_id)[id := |old(trace_clauses)|]
                && antecedents == old(antecedents) + [ante]
                && root == if clause.Length == 0 then |old(trace_clauses)| else old(root)
      ensures is_sat && prop_to_original == old(prop_to_original) && prop_to_annotation == old(prop_to_annotation)
      ensures r == 0 ==>
                && res_clause_ids == (if expansion_part
                   then old(res_clause_ids) else old(res_clause_ids) + [|old(trace_clauses)|])
                && (if expansion_part && !IntroducesHelper(old(clause[..]))
                    then nor_clauses == old(nor_clauses) + [old(clause[..])]
                         && original_clause_mapping == old(original_clause_mapping) + [originals]
                    else nor_clauses == old(nor_clauses) && original_clause_mapping == old(original_clause_mapping))
                && (if expansion_part && IntroducesHelper(old(clause[..]))
                    then Extended(old(helper_variable_mapping), helper_variable_mapping, old(clause[..]))
                    else helper_variable_mapping == old(helper_variable_mapping))
    {
      hide FromRule, HelperClause, StandsForMore, Extended, IntroducesHelper, BareHelper;
      ghost var P, nors, ids := Abs(), nor_clauses, res_clause_ids;
      EnterRule(clause[..], originals, expansion_part);
      var ok := Enter(id, clause, ante, P, nors, ids);
      return if ok then 0 else 8;
    }

    /** Enters a clause whose rule has been noted. */
    method Enter(id: nat, clause: array<Lit>, ante: (nat, nat), ghost P: Proof, ghost nors: seq<seq<Lit>>,
        ghost ids: seq<nat>) returns (ok: bool)
      requires Valid() && Started() && is_sat && P.clauses == trace_clauses
      requires forall j :: 1 <= j < |P.clauses| ==> FromRule(P, nors, ids, j) || BareHelper(P.clauses[j])
      requires nors <= nor_clauses && ids <= res_clause_ids
      requires forall h :: h in P.helpers ==>
        h in helper_variable_mapping && P.helpers[h] <= helper_variable_mapping[h]
      requires |trace_clauses| in res_clause_ids || clause[..] in nor_clauses || BareHelper(clause[..])
        || HelperClause(Abs(), clause[..])
      modifies this`cnf_id_to_trace_id, this`trace_id_to_cnf_id, this`root, this`trace_clauses, this`antecedents, clause
      ensures ok <==> !(id in old(cnf_id_to_trace_id) || (old(root) != 0 && clause.Length == 0))
      ensures ok ==>
                && Valid() && Started() && Traced() && trace_clauses == old(trace_clauses) + [clause[..]]
                && Sorted(clause[..]) && multiset(clause[..]) == multiset(old(clause[..]))
                && cnf_id_to_trace_id == old(cnf_id_to_trace_id)[id := |old(trace_clauses)|]
                && antecedents == old(antecedents) + [ante]
                && root == if clause.Length == 0 then |old(trace_clauses)| else old(root)
    {
      hide FromRule, HelperClause, BareHelper;
      ghost var lits, Q := clause[..], Abs();
      var code := AddClause(id, clause, ante);
      ok := code == 0;
      if ok {
        KeepsTraced(P, Q, nors, ids, lits);
      }
    }

    /** A clause with a positive helper introduces the helper. */
    ghost predicate IntroducesHelper(clause: seq<Lit>)
      reads this`prop_to_original
    {
      exists l :: l in clause && !Sign(l) && VarOf(l) !in prop_to_original
    }

    /** The last positive helper of the clause now stands for the literals of the clause that are not
        positive helpers as well; all other helpers stand for what they stood for. */
    ghost predicate Extended(was: map<Var, seq<Lit>>, now: map<Var, seq<Lit>>, clause: seq<Lit>)
      reads this`prop_to_original
    {
      exists h: Var, more: seq<Lit> :: StandsForMore(was, now, clause, h, more)
    }

    ghost predicate StandsForMore(was: map<Var, seq<Lit>>, now: map<Var, seq<Lit>>, clause: seq<Lit>, h: Var,
        more: seq<Lit>)
      reads this`prop_to_original
    {
      && h > 0 && h in clause && h !in prop_to_original
      && (forall l :: l in more <==> l in clause && (Sign(l) || VarOf(l) in prop_to_original))
      && now == was[h := (if h in was then was[h] else []) + more]
    }

    /** Files a clause under its rule: as a resolvent by its position in the trace, as a nor-clause
        with its originals, or as part of what a helper stands for. */
    method EnterRule(clause: seq<Lit>, originals: seq<seq<nat>>, expansion_part: bool)
      requires |nor_clauses| == |original_clause_mapping|
      modifies this`res_clause_ids, this`nor_clauses, this`original_clause_mapping, this`helper_variable_mapping
      ensures |nor_clauses| == |original_clause_mapping|
      ensures old(nor_clauses) <= nor_clauses && old(res_clause_ids) <= res_clause_ids
      ensures forall h :: h in old(helper_variable_mapping) ==>
                h in helper_variable_mapping && old(helper_variable_mapping)[h] <= helper_variable_mapping[h]
      ensures res_clause_ids == if expansion_part then old(res_clause_ids) else old(res_clause_ids) + [|trace_clauses|]
      ensures if expansion_part && !IntroducesHelper(clause)
              then nor_clauses == old(nor_clauses) + [clause]
                && original_clause_mapping == old(original_clause_mapping) + [originals]
              else nor_clauses == old(nor_clauses) && original_clause_mapping == old(original_clause_mapping)
      ensures if expansion_part && IntroducesHelper(clause)
        then Extended(old(helper_variable_mapping), helper_variable_mapping, clause)
              else helper_variable_mapping == old(helper_variable_mapping)
      ensures |trace_clauses| in res_clause_ids || clause in nor_clauses || BareHelper(clause)
              || HelperClause(Abs(), clause)
    {
      if !expansion_part {
        res_clause_ids := res_clause_ids + [|trace_clauses|];
        return;
      }
      var helper_variable, literal_array, is_nor_clause := SplitHelpers(clause);
      if is_nor_clause {
        original_clause_mapping := original_clause_mapping + [originals];
        nor_clauses := nor_clauses + [clause];
        return;
      }
      ghost var was := helper_variable_mapping;
      if helper_variable in helper_variable_mapping {
        helper_variable_mapping := helper_variable_mapping[helper_variable :=
          helper_variable_mapping[helper_variable] + literal_array];
      } else {
        helper_variable_mapping := helper_variable_mapping[helper_variable := literal_array];
      }
      ghost var meant := if helper_variable in was then was[helper_variable] else [];
      assert [] + literal_array == literal_array;
      assert helper_variable_mapping == was[helper_variable := meant + literal_array];
      assert StandsForMore(was, helper_variable_mapping, clause, helper_variable, literal_array);
      HelperOrBare(Abs(), clause, helper_variable, meant, literal_array);
    }

    static lemma HelperOrBare(P: Proof, clause: seq<Lit>, h: Var, meant: seq<Lit>, more: seq<Lit>)
      requires h > 0 && h in clause && h in P.helpers && P.helpers[h] == meant + more
        && forall l :: l in more ==> l in clause
      ensures more != [] ==> HelperClause(P, clause)
    {
      if more != [] {
        assert more[0] in more && more[0] in P.helpers[h];
      }
    }

    /** Helper meanings, nor-clauses and resolvents only accumulate, so earlier origins stay valid. */
    lemma KeepsTraced(P: Proof, Q: Proof, nors: seq<seq<Lit>>, ids: seq<nat>, lits: seq<Lit>)
      requires trace_clauses != [] && P.clauses == Q.clauses == trace_clauses[..|trace_clauses| - 1]
      requires multiset(trace_clauses[|trace_clauses| - 1]) == multiset(lits)
      requires forall j :: 1 <= j < |P.clauses| ==> FromRule(P, nors, ids, j) || BareHelper(P.clauses[j])
      requires nors <= nor_clauses && ids <= res_clause_ids && Q.helpers == helper_variable_mapping
      requires forall h :: h in P.helpers ==> h in Q.helpers && P.helpers[h] <= Q.helpers[h]
      requires |P.clauses| in res_clause_ids || lits in nor_clauses || BareHelper(lits) || HelperClause(Q, lits)
      ensures Traced()
    {
      var n := |P.clauses|;
      SamePermuted(trace_clauses[n], lits);
      forall j | 1 <= j < |trace_clauses|
        ensures FromRule(Abs(), nor_clauses, res_clause_ids, j) || BareHelper(trace_clauses[j])
      {
        if j < n {
          assert P.clauses[j] == trace_clauses[j];
          assert forall x :: x in nors ==> x in nor_clauses;
          assert forall x :: x in ids ==> x in res_clause_ids;
          if HelperClause(P, P.clauses[j]) {
            var h, l :| h in P.helpers && h > 0 && h in P.clauses[j] && l in P.clauses[j] && l in P.helpers[h];
            assert l in Q.helpers[h];
          }
        } else {
          assert Elements(lits) == Elements(trace_clauses[n]);
          if HelperClause(Q, lits) {
            var h, l :| h in Q.helpers && h > 0 && h in lits && l in lits && l in Q.helpers[h];
            assert HelperClause(Abs(), trace_clauses[n]);
          }
        }
      }
    }

    predicate IsHelper(v: Var)
      reads this`prop_to_original
    {
      v !in prop_to_original
    }

    static lemma {:induction false} AddAllAppend(a: seq<int>, ls: seq<int>, l: int)
      ensures AddAll(a, ls + [l]) == AddNew(AddAll(a, ls), l)
      decreases |ls|
    {
      if ls == [] {
        assert ls + [l] == [l];
        assert AddAll(AddNew(a, l), [l][1..]) == AddNew(a, l);
      } else {
        assert (ls + [l])[0] == ls[0] && (ls + [l])[1..] == ls[1..] + [l];
        AddAllAppend(AddNew(a, ls[0]), ls[1..], l);
      }
    }

    static method PushAll(a: seq<int>, ls: seq<int>) returns (r: seq<int>)
      ensures r == AddAll(a, ls)
    {
      r := a;
      var i := 0;
      while i < |ls|
        invariant 0 <= i <= |ls| && r == AddAll(a, ls[..i])
      {
        assert ls[..i + 1] == ls[..i] + [ls[i]];
        AddAllAppend(a, ls[..i], ls[i]);
        if ls[i] !in r {
          r := r + [ls[i]];
        }
        i := i + 1;
      }
      assert ls[..i] == ls;
    }

    static method PushNegated(a: seq<int>, ls: seq<Lit>) returns (r: seq<int>)
      ensures r == AddAll(a, NegateAllOf(ls))
    {
      r := a;
      var i := 0;
      ghost var negs := NegateAllOf(ls);
      while i < |ls|
        invariant 0 <= i <= |ls| && r == AddAll(a, negs[..i])
      {
        assert negs[..i + 1] == negs[..i] + [negs[i]];
        AddAllAppend(a, negs[..i], negs[i]);
        if Negate(ls[i]) !in r {
          r := r + [Negate(ls[i])];
        }
        i := i + 1;
      }
      assert negs[..i] == negs;
    }

    /** Adds the annotations of a group to the assignment and leaves its originals, sorted, in orig_ex. */
    method EnterGroup(group: seq<Lit>, a: seq<int>) returns (r: seq<int>)
      requires Abs().Copies(group)
      modifies this`orig_ex
      ensures r == AddAnnotations(Abs(), a, group)
      ensures Sorted(orig_ex) && multiset(orig_ex) == multiset(Abs().OriginalLits(group))
    {
      MapToOriginals(group);
      orig_ex := SortedCopy(orig_ex);
      r := PushAnnotations(group, a);
    }

    method PushAnnotations(group: seq<Lit>, a: seq<int>) returns (r: seq<int>)
      requires Abs().Copies(group)
      ensures r == AddAnnotations(Abs(), a, group)
    {
      ghost var P := Abs();
      r := a;
      var i := 0;
      while i < |group|
        invariant 0 <= i <= |group|
        invariant P.Copies(group[..i]) && r == AddAnnotations(P, a, group[..i])
      {
        var x := group[i];
        assert x in group && group[..i + 1] == group[..i] + [x];
        AddAnnotationsAppend(P, a, group[..i], x);
        r := PushAll(r, prop_to_annotation[VarOf(x)]);
        i := i + 1;
      }
      assert group[..i] == group;
    }

    static lemma {:induction false} AddAnnotationsAppend(P: Proof, a: seq<int>, group: seq<Lit>, x: Lit)
      requires P.Copies(group) && P.Copies([x]) && P.Copies(group + [x])
      ensures AddAnnotations(P, a, group + [x]) == AddAll(AddAnnotations(P, a, group), P.annotation[VarOf(x)])
      decreases |group|
    {
      if group == [] {
        assert group + [x] == [x];
        assert AddAnnotations(P, AddAll(a, P.annotation[VarOf(x)]), [x][1..]) == AddAll(a, P.annotation[VarOf(x)]);
      } else {
        assert (group + [x])[0] == group[0] && (group + [x])[1..] == group[1..] + [x];
        assert forall y :: y in group[1..] + [x] ==> y in group + [x];
        AddAnnotationsAppend(P, AddAll(a, P.annotation[VarOf(group[0])]), group[1..], x);
      }
    }

    static lemma StrictHead(s: seq<Lit>, l: Lit)
      requires StrictVars(s) && l in s
      ensures l == s[0] || VarOf(s[0]) < VarOf(l)
    {
    }

    static lemma NegatedHead(s: seq<Lit>, t: seq<Lit>)
      requires |s| == |t| && s != [] && StrictVars(s) && Sorted(t) && multiset(s) == multiset(NegateAllOf(t))
      ensures s[0] == Negate(t[0])
    {
      var n := NegateAllOf(t);
      assert n[0] in multiset(s) && s[0] in multiset(n);
      StrictHead(s, n[0]);
      NegateAllOfHas(t, s[0]);
      SortedHead(t, Negate(s[0]));
    }

    /** A strictly sorted clause is the negation of a sorted vector exactly when it is so position
        by position. */
    static lemma {:induction false} NegatedUnique(s: seq<Lit>, t: seq<Lit>)
      requires |s| == |t| && StrictVars(s) && Sorted(t)
      ensures multiset(s) == multiset(NegateAllOf(t)) <==> s == NegateAllOf(t)
      decreases |s|
    {
      var n := NegateAllOf(t);
      if s != [] && multiset(s) == multiset(n) {
        NegatedHead(s, t);
        StrictTail(s);
        TailOf(t);
        assert n[1..] == NegateAllOf(t[1..]);
        SameTails(s, n);
        NegatedUnique(s[1..], t[1..]);
      }
    }

    static lemma SameTails(s: seq<Lit>, n: seq<Lit>)
      requires s != [] && n != [] && s[0] == n[0] && multiset(s) == multiset(n)
      ensures multiset(s[1..]) == multiset(n[1..])
      ensures s[1..] == n[1..] ==> s == n
    {
      assert s == [s[0]] + s[1..] && n == [n[0]] + n[1..];
      assert multiset(s[1..]) == multiset(s) - multiset{s[0]};
      assert multiset(n[1..]) == multiset(n) - multiset{n[0]};
    }

    static method SameNegated(s: seq<Lit>, t: seq<Lit>) returns (same: bool)
      requires |s| == |t| && StrictVars(s) && Sorted(t)
      ensures same <==> multiset(s) == multiset(NegateAllOf(t))
    {
      NegatedUnique(s, t);
      var i := 0;
      while i < |s|
        invariant 0 <= i <= |s| && s[..i] == NegateAllOf(t)[..i]
      {
        if s[i] != Negate(t[i]) {
          assert s[i] != NegateAllOf(t)[i];
          return false;
        }
        i := i + 1;
      }
      return true;
    }

    static lemma {:induction false} NegateCount(s: seq<Lit>, x: Lit)
      ensures multiset(NegateAllOf(s))[x] == multiset(s)[Negate(x)]
      decreases |s|
    {
      if s != [] {
        var n := |s| - 1;
        NegateCount(s[..n], x);
        assert s == s[..n] + [s[n]];
        assert NegateAllOf(s) == NegateAllOf(s[..n]) + [Negate(s[n])];
        assert Negate(Negate(x)) == x && Negate(Negate(s[n])) == s[n];
      }
    }

    static lemma NegatePermuted(s: seq<Lit>, t: seq<Lit>)
      requires multiset(s) == multiset(t)
      ensures |s| == |t| && multiset(NegateAllOf(s)) == multiset(NegateAllOf(t))
    {
      assert |s| == |multiset(s)| == |multiset(t)| == |t|;
      forall x: Lit ensures multiset(NegateAllOf(s))[x] == multiset(NegateAllOf(t))[x] {
        NegateCount(s, x);
        NegateCount(t, x);
      }
    }

    /** The clauses a nor-literal refers to: each must be its negation, and their existential
        literals are refuted by the assignment. */
    method CheckOrigins(ghost P: Proof, qbf: Formula, group: seq<Lit>, os: seq<nat>, a: seq<int>)
      returns (code: int, r: seq<int>)
      requires P.Copies(group)
      requires Sorted(orig_ex) && multiset(orig_ex) == multiset(P.OriginalLits(group))
      requires (forall o :: o in os ==> 1 <= o <= |qbf.matrix|)
      requires forall c :: c in qbf.matrix ==> StrictVars(c.al)
      ensures (code, r) == WalkOrigins(P, qbf.matrix, group, os, a)
    {
      r := a;
      NegatePermuted(orig_ex, P.OriginalLits(group));
      var i := 0;
      assert os[0..] == os;
      while i < |os|
        invariant 0 <= i <= |os| && forall o :: o in os[i..] ==> o in os
        invariant WalkOrigins(P, qbf.matrix, group, os[i..], r) == WalkOrigins(P, qbf.matrix, group, os, a)
      {
        SliceOrigins(os, i);
        var clause := qbf.matrix[os[i] - 1];
        if |clause.al| != |group| { return 2, r; }
        var same := SameNegated(clause.al, orig_ex);
        if !same { return 3, r; }
        r := PushNegated(r, clause.ex);
        i := i + 1;
      }
      return 0, r;
    }

    static lemma SliceOrigins<T>(os: seq<T>, i: nat)
      requires i < |os|
      ensures os[i] in os && os[i..] != [] && os[i..][0] == os[i] && os[i..][1..] == os[i + 1..]
      ensures forall o :: o in os[i + 1..] ==> o in os
    {
    }

    method CheckExpansionSAT(qbf: Formula, prop_clause: seq<Lit>, origin_idx: nat, solver: Solver) returns (code: int)
      requires origin_idx < |original_clause_mapping|
      requires NorOk(qbf.matrix, prop_clause, original_clause_mapping[origin_idx])
      requires forall c :: c in qbf.matrix ==> StrictVars(c.al)
      modifies this`orig_ex
      ensures code == NorCode(Abs(), qbf.matrix, qbf.prefix, prop_clause, original_clause_mapping[origin_idx], solver)
    {
      var originals := original_clause_mapping[origin_idx];
      var assignment: seq<int>;
      code, assignment := WalkNor(qbf, prop_clause, originals);
      if code != 0 { return code; }
      code := CheckElimination(qbf, originals, assignment, solver);
    }

    method WalkNor(qbf: Formula, prop_clause: seq<Lit>, originals: seq<seq<nat>>)
      returns (code: int, assignment: seq<int>)
      requires NorOk(qbf.matrix, prop_clause, originals)
      requires forall c :: c in qbf.matrix ==> StrictVars(c.al)
      modifies this`orig_ex
      ensures (code, assignment) == Walk(Abs(), qbf.matrix, prop_clause, originals, [])
      ensures NonZero(assignment)
    {
      ghost var P := Abs();
      assignment := [];
      WalkNonZero(P, qbf.matrix, prop_clause, originals, []);
      var i := 0;
      while i < |prop_clause|
        invariant 0 <= i <= |prop_clause|
        invariant Walk(P, qbf.matrix, prop_clause[i..], originals[i..], assignment)
               == Walk(P, qbf.matrix, prop_clause, originals, [])
      {
        assert prop_clause[i..][0] == prop_clause[i] && prop_clause[i..][1..] == prop_clause[i + 1..];
        assert originals[i..][0] == originals[i] && originals[i..][1..] == originals[i + 1..];
        var lit := prop_clause[i];
        assert lit in prop_clause && originals[i] in originals;
        var literal_array: seq<Lit>;
        if IsHelper(VarOf(lit)) {
          literal_array := helper_variable_mapping[VarOf(lit)];
        } else {
          literal_array := [lit];
        }
        assert literal_array == Group(P, lit);
        assignment := EnterGroup(literal_array, assignment);
        code, assignment := CheckOrigins(P, qbf, literal_array, originals[i], assignment);
        if code != 0 { return code, assignment; }
        i := i + 1;
      }
      return 0, assignment;
    }

    /** Marks the clauses a nor-clause refers to. */
    method MarkReferenced(n: nat, originals: seq<seq<nat>>) returns (eliminated: array<bool>)
      requires forall os, o :: os in originals && o in os ==> 1 <= o <= n
      ensures fresh(eliminated) && eliminated.Length == n
      ensures forall i: nat :: i < n ==> (eliminated[i] <==> Referenced(originals, i))
    {
      eliminated := new bool[n](_ => false);
      var k := 0;
      while k < |originals|
        invariant 0 <= k <= |originals| && eliminated.Length == n
        invariant forall i: nat :: i < n ==> (eliminated[i] <==> Referenced(originals[..k], i))
      {
        ghost var before := eliminated[..];
        var os := originals[k];
        assert os in originals;
        var m := 0;
        while m < |os|
          invariant 0 <= m <= |os| && eliminated.Length == n
          invariant forall i: nat :: i < n ==> (eliminated[i] <==> before[i] || i + 1 in os[..m])
        {
          assert os[m] in os;
          assert os[..m + 1] == os[..m] + [os[m]];
          eliminated[os[m] - 1] := true;
          m := m + 1;
        }
        assert os[..m] == os;
        assert originals[..k + 1] == originals[..k] + [os];
        forall i: nat | i < n ensures eliminated[i] <==> Referenced(originals[..k + 1], i) {
          ReferencedAppend(originals[..k], os, i);
        }
        k := k + 1;
      }
      assert originals[..k] == originals;
    }

    static lemma ReferencedAppend(originals: seq<seq<nat>>, os: seq<nat>, i: nat)
      ensures Referenced(originals + [os], i) <==> Referenced(originals, i) || i + 1 in os
    {
      assert os in originals + [os];
      assert forall x :: x in originals ==> x in originals + [os];
      if Referenced(originals + [os], i) {
        var x :| x in originals + [os] && i + 1 in x;
        assert x in originals || x == os;
      }
    }

    /** Asks the solver to satisfy the existential parts of all other clauses under the assignment,
        and then checks its answer instead of believing it. */
    method CheckElimination(qbf: Formula, originals: seq<seq<nat>>, assignment0: seq<int>, solver: Solver)
      returns (code: int)
      requires OriginsInRange(qbf.matrix, originals) && NonZero(assignment0)
      ensures code == EliminationCode(qbf.matrix, qbf.prefix, originals, assignment0, solver)
    {
      var eliminated := MarkReferenced(|qbf.matrix|, originals);
      var fed := FeedSolver(qbf, originals, eliminated, assignment0);
      var answer := solver(fed);
      if answer.status != 10 { return 102; }
      var assignment := ReadModel(qbf, answer, assignment0);
      var consistent := NoOpposites(assignment);
      if !consistent { return 101; }
      var all_eliminated := EliminateRest(qbf, originals, eliminated, assignment);
      code := if all_eliminated then 0 else 103;
    }

    method FeedSolver(qbf: Formula, originals: seq<seq<nat>>, eliminated: array<bool>, assignment: seq<int>)
      returns (fed: seq<seq<Lit>>)
      requires NonZero(assignment) && eliminated.Length == |qbf.matrix|
      requires forall i: nat :: i < eliminated.Length ==> (eliminated[i] <==> Referenced(originals, i))
      ensures fed == SolverInput(qbf.matrix, originals, assignment)
    {
      fed := [];
      var i := 0;
      while i < |qbf.matrix|
        invariant 0 <= i <= |qbf.matrix| && fed == Remaining(qbf.matrix, originals, i)
      {
        if !eliminated[i] {
          fed := fed + [qbf.matrix[i].ex];
        }
        i := i + 1;
      }
      ghost var rest := fed;
      i := 0;
      while i < |assignment|
        invariant 0 <= i <= |assignment| && fed == rest + Units(assignment)[..i]
      {
        assert assignment[i] in assignment;
        fed := fed + [[assignment[i] as Lit]];
        i := i + 1;
      }
      assert Units(assignment)[..i] == Units(assignment);
    }

    static method NoOpposites(assignment: seq<int>) returns (ok: bool)
      ensures ok <==> forall l :: l in assignment ==> -l !in assignment
    {
      var i := 0;
      while i < |assignment|
        invariant 0 <= i <= |assignment|
        invariant forall j :: 0 <= j < i ==> -assignment[j] !in assignment
      {
        if -assignment[i] in assignment {
          assert assignment[i] in assignment;
          return false;
        }
        i := i + 1;
      }
      return true;
    }

    static lemma {:induction false} AddAllConcat(a: seq<int>, ls: seq<int>, ms: seq<int>)
      ensures AddAll(a, ls + ms) == AddAll(AddAll(a, ls), ms)
      decreases |ls|
    {
      if ls == [] {
        assert ls + ms == ms;
      } else {
        assert (ls + ms)[0] == ls[0] && (ls + ms)[1..] == ls[1..] + ms;
        AddAllConcat(AddNew(a, ls[0]), ls[1..], ms);
      }
    }

    static method PushValues(a: seq<int>, answer: SatAnswer, vars: seq<Var>) returns (r: seq<int>)
      ensures r == AddAll(a, Values(answer, vars))
    {
      r := a;
      ghost var vals := Values(answer, vars);
      var k := 0;
      while k < |vars|
        invariant 0 <= k <= |vars| && r == AddAll(a, vals[..k])
      {
        var lit := answer.value(vars[k]);
        assert vals[..k + 1] == vals[..k] + [lit];
        AddAllAppend(a, vals[..k], lit);
        if lit !in r {
          r := r + [lit];
        }
        k := k + 1;
      }
      assert vals[..k] == vals;
    }

    method ReadModel(qbf: Formula, answer: SatAnswer, assignment0: seq<int>) returns (assignment: seq<int>)
      ensures assignment == AddAll(assignment0, Values(answer, ExistVars(qbf.prefix)))
    {
      assignment := assignment0;
      var qi := 0;
      while qi < |qbf.prefix|
        invariant 0 <= qi <= |qbf.prefix|
        invariant assignment == AddAll(assignment0, Values(answer, ExistVars(qbf.prefix[..qi])))
      {
        ExistVarsNext(qbf.prefix, qi);
        var quant := qbf.prefix[qi];
        ghost var before := ExistVars(qbf.prefix[..qi]);
        if quant.Quant? && quant.kind == EXISTS {
          ValuesConcat(answer, before, quant.vars);
          AddAllConcat(assignment0, Values(answer, before), Values(answer, quant.vars));
          assignment := PushValues(assignment, answer, quant.vars);
        } else {
          assert before + [] == before;
        }
        qi := qi + 1;
      }
      assert qbf.prefix[..qi] == qbf.prefix;
    }

    /** Whether the assignment satisfies every clause that is not referenced. */
    method EliminateRest(qbf: Formula, originals: seq<seq<nat>>, eliminated: array<bool>, assignment: seq<int>)
      returns (all: bool)
      requires eliminated.Length == |qbf.matrix|
      requires forall i: nat :: i < eliminated.Length ==> (eliminated[i] <==> Referenced(originals, i))
      modifies eliminated
      ensures all <==> forall i :: 0 <= i < |qbf.matrix| ==> Referenced(originals, i) || Hits(qbf.matrix[i], assignment)
    {
      var n := |qbf.matrix|;
      var i := 0;
      while i < n
        invariant 0 <= i <= n
        invariant forall j: nat ::
          j < i ==> (eliminated[j] <==> Referenced(originals, j) || Hits(qbf.matrix[j], assignment))
        invariant forall j: nat :: i <= j < n ==> (eliminated[j] <==> Referenced(originals, j))
      {
        if !eliminated[i] {
          var hit := AnyHit(qbf.matrix[i], assignment);
          if hit {
            eliminated[i] := true;
          }
        }
        i := i + 1;
      }
      i := 0;
      while i < n
        invariant 0 <= i <= n && forall j :: 0 <= j < i ==> eliminated[j]
      {
        if !eliminated[i] { return false; }
        i := i + 1;
      }
      return true;
    }

    static method AnyHit(c: QClause, assignment: seq<int>) returns (hit: bool)
      ensures hit <==> Hits(c, assignment)
    {
      var k := 0;
      while k < |assignment|
        invariant 0 <= k <= |assignment|
        invariant forall j :: 0 <= j < k ==> assignment[j] == 0 || assignment[j] !in c.ex
      {
        if assignment[k] != 0 && assignment[k] in c.ex {
          var l: Lit := assignment[k];
          assert l in c.ex && l in assignment;
          return true;
        }
        k := k + 1;
      }
      return false;
    }

    ghost predicate NorOk(matrix: seq<QClause>, nor: seq<Lit>, originals: seq<seq<nat>>)
      reads this`prop_to_original, this`prop_to_annotation, this`trace_clauses,
            this`cnf_id_to_trace_id, this`antecedents, this`root, this`helper_variable_mapping
    {
      NorReadable(Abs(), nor) && OriginsInRange(matrix, originals) && |nor| == |originals|
    }

    /** What the reader has to deliver for the check of a true formula to be defined. */
    ghost predicate NorsReadable(matrix: seq<QClause>)
      reads this`prop_to_original, this`prop_to_annotation, this`trace_clauses,
            this`cnf_id_to_trace_id, this`antecedents, this`root, this`helper_variable_mapping,
            this`nor_clauses, this`original_clause_mapping, this`res_clause_ids
    {
      && |nor_clauses| == |original_clause_mapping|
      && (forall k :: 0 <= k < |nor_clauses| ==> NorOk(matrix, nor_clauses[k], original_clause_mapping[k]))
      && (forall i :: i in res_clause_ids ==> i < |trace_clauses|)
    }

    /** Accepts exactly when every nor-clause is certified against this solver and every resolution
        checks. If moreover the trace derives the empty clause, the formula is true. */
    method CheckSAT(qbf: Formula, solver: Solver) returns (r: int)
      requires Valid() && Started() && qbf.Valid() && AllBlocks(qbf.prefix) && NorsReadable(qbf.matrix)
      modifies this`orig_ex
      ensures r == 0 <==>
              && NorsPass(Abs(), qbf.matrix, qbf.prefix, nor_clauses, original_clause_mapping, solver, |nor_clauses|)
              && (forall i :: i in res_clause_ids ==> NodeCode(Abs(), i) == 0)
      ensures Abs().WellFormed() && SatVerdict(Abs(), qbf.matrix, qbf.prefix, nor_clauses, original_clause_mapping,
        res_clause_ids, solver, r)
      ensures r == 0 ==> NorAccepted(Abs(), qbf.matrix, nor_clauses, original_clause_mapping, res_clause_ids)
      ensures r == 0 && DerivesEmpty(qbf.prefix) ==> qbf.IsTrue()
    {
      MatrixStrict(qbf);
      r := CheckAllNors(qbf, solver);
      if r == 0 {
        Conclude(qbf, solver);
      }
    }

    static lemma MatrixStrict(qbf: Formula)
      requires qbf.Valid()
      ensures forall c :: c in qbf.matrix ==> StrictVars(c.al) && StrictVars(c.ex)
    {
      assert forall c :: c in qbf.matrix ==> GoodClause(qbf.Blocks(), qbf.quant_depth, c);
    }

    lemma Conclude(qbf: Formula, solver: Solver)
      requires Valid() && Started() && qbf.Valid() && AllBlocks(qbf.prefix) && NorsReadable(qbf.matrix)
      requires NorsPass(Abs(), qbf.matrix, qbf.prefix, nor_clauses, original_clause_mapping, solver, |nor_clauses|)
      requires forall i :: i in res_clause_ids ==> NodeCode(Abs(), i) == 0
      ensures NorAccepted(Abs(), qbf.matrix, nor_clauses, original_clause_mapping, res_clause_ids)
      ensures DerivesEmpty(qbf.prefix) ==> qbf.IsTrue()
    {
      Certified(qbf, solver);
      if DerivesEmpty(qbf.prefix) {
        Proves(qbf);
      }
    }

    method CheckAllNors(qbf: Formula, solver: Solver) returns (r: int)
      requires Valid() && Started() && NorsReadable(qbf.matrix)
      requires forall c :: c in qbf.matrix ==> StrictVars(c.al)
      modifies this`orig_ex
      ensures r == 0 <==>
              && NorsPass(Abs(), qbf.matrix, qbf.prefix, nor_clauses, original_clause_mapping, solver, |nor_clauses|)
              && (forall i :: i in res_clause_ids ==> NodeCode(Abs(), i) == 0)
      ensures Abs().WellFormed() && SatVerdict(Abs(), qbf.matrix, qbf.prefix, nor_clauses, original_clause_mapping,
        res_clause_ids, solver, r)
    {
      AbsWellFormed();
      r := CheckNors(qbf, solver);
      if r != 0 { return r; }
      r := CheckResolutions();
    }

    method CheckNors(qbf: Formula, solver: Solver) returns (r: int)
      requires |nor_clauses| == |original_clause_mapping|
      requires forall k :: 0 <= k < |nor_clauses| ==> NorOk(qbf.matrix, nor_clauses[k], original_clause_mapping[k])
      requires forall c :: c in qbf.matrix ==> StrictVars(c.al)
      modifies this`orig_ex
      ensures r == 0 <==>
        NorsPass(Abs(), qbf.matrix, qbf.prefix, nor_clauses, original_clause_mapping, solver, |nor_clauses|)
      ensures r != 0 ==> exists k: nat ::
        FirstBadNor(Abs(), qbf.matrix, qbf.prefix, nor_clauses, original_clause_mapping, solver, k)
          && r == NorCode(Abs(), qbf.matrix, qbf.prefix, nor_clauses[k], original_clause_mapping[k], solver)
    {
      ghost var P, matrix, prefix := Abs(), qbf.matrix, qbf.prefix;
      ghost var nors, mapping := nor_clauses, original_clause_mapping;
      var origin_idx := 0;
      while origin_idx < |nor_clauses|
        invariant 0 <= origin_idx <= |nor_clauses|
        invariant NorsPass(P, matrix, prefix, nors, mapping, solver, origin_idx)
      {
        assert NorOk(qbf.matrix, nor_clauses[origin_idx], original_clause_mapping[origin_idx]);
        var res := CheckNorAt(qbf, origin_idx, solver);
        if res != 0 {
          NorsPassOnlyIf(P, matrix, prefix, nors, mapping, solver, |nors|, origin_idx);
          assert FirstBadNor(P, matrix, prefix, nors, mapping, solver, origin_idx);
          return res;
        }
        origin_idx := origin_idx + 1;
      }
      return 0;
    }

    method CheckNorAt(qbf: Formula, k: nat, solver: Solver) returns (r: int)
      requires k < |nor_clauses| == |original_clause_mapping|
      requires NorOk(qbf.matrix, nor_clauses[k], original_clause_mapping[k])
      requires forall c :: c in qbf.matrix ==> StrictVars(c.al)
      modifies this`orig_ex
      ensures r == 0 <==> NorPasses(Abs(), qbf.matrix, qbf.prefix, nor_clauses[k], original_clause_mapping[k], solver)
      ensures NorReadable(Abs(), nor_clauses[k]) && OriginsInRange(qbf.matrix, original_clause_mapping[k])
        && r == NorCode(Abs(), qbf.matrix, qbf.prefix, nor_clauses[k], original_clause_mapping[k], solver)
    {
      r := CheckExpansionSAT(qbf, nor_clauses[k], k, solver);
    }

    method CheckResolutions() returns (r: int)
      requires Valid() && Started() && forall i :: i in res_clause_ids ==> i < |trace_clauses|
      ensures r == 0 <==> forall i :: i in res_clause_ids ==> NodeCode(Abs(), i) == 0
      ensures Abs().WellFormed() && (r != 0 ==> exists i: nat ::
        FirstBadStep(Abs(), res_clause_ids, i) && r == NodeCode(Abs(), res_clause_ids[i]))
    {
      AbsWellFormed();
      var i := 0;
      while i < |res_clause_ids|
        invariant 0 <= i <= |res_clause_ids|
        invariant forall j :: 0 <= j < i ==>
          res_clause_ids[j] < |trace_clauses| && NodeCode(Abs(), res_clause_ids[j]) == 0
      {
        assert res_clause_ids[i] in res_clause_ids;
        var res := CheckResolution(res_clause_ids[i]);
        if res != 0 {
          assert FirstBadStep(Abs(), res_clause_ids, i);
          return res;
        }
        i := i + 1;
      }
      return 0;
    }

    lemma Certified(qbf: Formula, solver: Solver)
      requires Valid() && Started() && NorsReadable(qbf.matrix)
      requires NorsPass(Abs(), qbf.matrix, qbf.prefix, nor_clauses, original_clause_mapping, solver, |nor_clauses|)
      requires forall i :: i in res_clause_ids ==> NodeCode(Abs(), i) == 0
      ensures NorAccepted(Abs(), qbf.matrix, nor_clauses, original_clause_mapping, res_clause_ids)
    {
      AbsWellFormed();
      forall k | 0 <= k < |nor_clauses|
        ensures exists alpha :: Certificate(Abs(), qbf.matrix, nor_clauses[k], original_clause_mapping[k], alpha)
      {
        NorsPassEach(Abs(), qbf.matrix, qbf.prefix, nor_clauses, original_clause_mapping, solver, |nor_clauses|, k);
        var alpha := AcceptedNorCertified(Abs(), qbf.matrix, qbf.prefix, nor_clauses[k], original_clause_mapping[k],
          solver);
      }
    }

    ghost predicate FromRules()
      reads this`prop_to_original, this`prop_to_annotation, this`trace_clauses,
            this`cnf_id_to_trace_id, this`antecedents, this`root, this`helper_variable_mapping,
            this`nor_clauses, this`res_clause_ids
    {
      forall j :: 1 <= j < |trace_clauses| ==> FromRule(Abs(), nor_clauses, res_clause_ids, j)
    }

    /** What the check of a true formula does not look at: that the trace reaches the empty clause,
        from clauses of the three kinds, in order, with annotations that reach far enough. */
    ghost predicate DerivesEmpty(B: seq<Quant>)
      requires AllBlocks(B)
      reads this`prop_to_original, this`prop_to_annotation, this`trace_clauses,
            this`cnf_id_to_trace_id, this`antecedents, this`root, this`helper_variable_mapping,
            this`nor_clauses, this`res_clause_ids
    {
      && root != 0 && FromRules() && AcyclicResolutions(Abs(), res_clause_ids)
      && HelpersOverCopies(Abs()) && Covers(Universal, Abs(), B)
    }

    lemma Proves(qbf: Formula)
      requires Valid() && Started() && qbf.Valid() && AllBlocks(qbf.prefix)
      requires NorAccepted(Abs(), qbf.matrix, nor_clauses, original_clause_mapping, res_clause_ids)
      requires DerivesEmpty(qbf.prefix)
      ensures qbf.IsTrue()
    {
      NorSound(Abs(), qbf.prefix, qbf.quant_depth, qbf.matrix, nor_clauses, original_clause_mapping, res_clause_ids);
      TruthOfEquivalent(qbf.Bounds(), {}, qbf.given, MatrixLits(qbf.matrix));
    }

    /** Either check, as the proof claims, with its code and its conclusion. */
    method Check(qbf: Formula, solver: Solver) returns (r: int)
      requires Valid() && Started() && qbf.Valid() && AllBlocks(qbf.prefix)
      requires is_sat ==> NorsReadable(qbf.matrix)
      modifies this`orig_ex
      ensures Abs().WellFormed()
      ensures !is_sat ==>
        (forall i :: 0 <= i < |trace_clauses| ==> Abs().Copies(trace_clauses[i])) && UnsatVerdict(Abs(), qbf.matrix, r)
      ensures is_sat ==> SatVerdict(Abs(), qbf.matrix, qbf.prefix, nor_clauses, original_clause_mapping, res_clause_ids,
        solver, r)
      ensures r == 0 && !is_sat && Acyclic(Abs()) && Covers(Existential, Abs(), qbf.prefix) ==> !qbf.IsTrue()
      ensures r == 0 && is_sat && DerivesEmpty(qbf.prefix) ==> qbf.IsTrue()
    {
      assert qbf.Blocks() == qbf.prefix;
      if is_sat {
        r := CheckSAT(qbf, solver);
      } else {
        r := CheckUNSAT(qbf);
      }
    }
  }
}
