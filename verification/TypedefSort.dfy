/** Typedefs in an order in which they can be declared: `getSortedTypeDefMap`, oi/OICodeGen.cpp. */
module TypedefSort {
  import opened Machine

  /** A type, by its address, which is also the order of the map. */
  type Type = nat

  type TypeMap = map<Type, Type>

  type Sorted = seq<(Type, Type)>

  /** Following a chain of typedefs leaves the map within n steps. */
  ghost predicate Ends(m: TypeMap, t: Type, n: nat)
    decreases n
  {
    t in m ==> n > 0 && Ends(m, m[t], n - 1)
  }

  ghost predicate Acyclic(m: TypeMap)
  {
    forall t :: t in m ==> exists n :: Ends(m, t, n)
  }

  ghost function Least(s: set<Type>): (t: Type)
    requires s != {}
    ensures IsLeast(s, t)
  {
    LeastExists(s);
    var t :| IsLeast(s, t);
    t
  }

  /** What one pass leaves, when it still has the keys in `todo` before it. */
  ghost function Sweep(m: TypeMap, todo: set<Type>): TypeMap
    requires todo <= m.Keys
    decreases |todo|
  {
    if todo == {} then m
    else
      var t := Least(todo);
      Sweep(if m[t] in m then m else m - {t}, todo - {t})
  }

  /** What is left after a number of passes. */
  ghost function AfterPasses(m: TypeMap, n: nat): TypeMap
    decreases n
  {
    if n == 0 then m else AfterPasses(Sweep(m, m.Keys), n - 1)
  }

  ghost predicate Submap(m: TypeMap, of: TypeMap)
  {
    m.Keys <= of.Keys && forall t :: t in m ==> m[t] == of[t]
  }

  lemma {:induction false} SweepSubmap(m: TypeMap, todo: set<Type>)
    requires todo <= m.Keys
    ensures Submap(Sweep(m, todo), m)
    decreases |todo|
  {
    if todo != {} {
      var t := Least(todo);
      SweepSubmap(if m[t] in m then m else m - {t}, todo - {t});
    }
  }

  lemma {:induction false} EndsInSubmap(m: TypeMap, of: TypeMap, t: Type, n: nat)
    requires Submap(m, of) && Ends(of, t, n)
    ensures Ends(m, t, n)
    decreases n
  {
    if t in m {
      EndsInSubmap(m, of, of[t], n - 1);
    }
  }

  lemma SubmapAcyclic(m: TypeMap, of: TypeMap)
    requires Submap(m, of) && Acyclic(of)
    ensures Acyclic(m)
  {
    forall t | t in m
      ensures exists n :: Ends(m, t, n)
    {
      var n :| Ends(of, t, n);
      EndsInSubmap(m, of, t, n);
    }
  }

  /** The end of a chain: a typedef whose target is none. */
  lemma {:induction false} EndOfChain(m: TypeMap, t: Type, n: nat) returns (last: Type)
    requires t in m && Ends(m, t, n)
    ensures last in m && m[last] !in m
    decreases n
  {
    if m[t] in m {
      last := EndOfChain(m, m[t], n - 1);
    } else {
      last := t;
    }
  }

  /** A pass takes out any typedef whose target is none. */
  lemma {:induction false} SweepRemoves(m: TypeMap, todo: set<Type>, t: Type)
    requires todo <= m.Keys && t in todo && m[t] !in m
    ensures t !in Sweep(m, todo)
    decreases |todo|
  {
    var u := Least(todo);
    var rest := if m[u] in m then m else m - {u};
    if t == u {
      SweepSubmap(rest, todo - {u});
    } else {
      SweepRemoves(rest, todo - {u}, t);
    }
  }

  /** Every pass over typedefs without a cycle takes something out. */
  lemma PassShrinks(m: TypeMap)
    requires Acyclic(m) && m != map[]
    ensures Sweep(m, m.Keys).Keys < m.Keys
  {
    var t :| t in m;
    var n :| Ends(m, t, n);
    var last := EndOfChain(m, t, n);
    SweepSubmap(m, m.Keys);
    SweepRemoves(m, m.Keys, last);
  }

  /** The typedefs whose chain never leaves the map. */
  ghost function Trapped(m: TypeMap): set<Type>
  {
    set t | t in m && forall n :: !Ends(m, t, n)
  }

  lemma TrappedTarget(m: TypeMap, t: Type)
    requires t in Trapped(m)
    ensures m[t] in Trapped(m)
  {
    if m[t] !in Trapped(m) {
      assert m[t] !in m ==> Ends(m, m[t], 0);
      var n: nat :| Ends(m, m[t], n);
      EndsEarlier(m, t, n);
    }
  }

  lemma EndsEarlier(m: TypeMap, t: Type, n: nat)
    requires t in m && Ends(m, m[t], n)
    ensures Ends(m, t, n + 1)
  {
  }

  /** A pass takes out none of a set of typedefs that only refer to one another. */
  lemma {:induction false} SweepKeeps(m: TypeMap, todo: set<Type>, s: set<Type>)
    requires todo <= m.Keys && s <= m.Keys && forall t :: t in s ==> m[t] in s
    ensures s <= Sweep(m, todo).Keys
    decreases |todo|
  {
    if todo != {} {
      var t := Least(todo);
      SweepKeeps(if m[t] in m then m else m - {t}, todo - {t}, s);
    }
  }

  lemma {:induction false} PassesKeep(m: TypeMap, s: set<Type>, n: nat)
    requires s <= m.Keys && forall t :: t in s ==> m[t] in s
    ensures s <= AfterPasses(m, n).Keys
    decreases n
  {
    if n > 0 {
      SweepKeeps(m, m.Keys, s);
      SweepSubmap(m, m.Keys);
      PassesKeep(Sweep(m, m.Keys), s, n - 1);
    }
  }

  lemma {:induction false} PassesEnd(m: TypeMap) returns (n: nat)
    requires Acyclic(m)
    ensures AfterPasses(m, n) == map[]
    decreases m.Keys
  {
    if m == map[] {
      n := 0;
    } else {
      PassShrinks(m);
      SweepSubmap(m, m.Keys);
      SubmapAcyclic(Sweep(m, m.Keys), m);
      var k := PassesEnd(Sweep(m, m.Keys));
      n := k + 1;
    }
  }

  /** The loop comes to an end exactly if the typedefs have no cycle. */
  lemma LoopEndsExactly(m: TypeMap)
    ensures (exists n :: AfterPasses(m, n) == map[]) <==> Acyclic(m)
  {
    if Acyclic(m) {
      var n := PassesEnd(m);
    } else {
      var t :| t in m && forall n :: !Ends(m, t, n);
      forall n
        ensures AfterPasses(m, n) != map[]
      {
        forall u | u in Trapped(m)
          ensures m[u] in Trapped(m)
        {
          TrappedTarget(m, u);
        }
        PassesKeep(m, Trapped(m), n);
        assert t in Trapped(m);
      }
    }
  }

  // ----- the loop as in the source

  /** Part of the map has been put in order: each entry once, and after the entry of its target. */
  ghost predicate InOrder(all: TypeMap, left: TypeMap, v: Sorted)
  {
    && Submap(left, all)
    && (forall i :: 0 <= i < |v| ==> v[i].0 in all && v[i].1 == all[v[i].0] && v[i].0 !in left)
    && (forall t :: t in all && t !in left ==> exists i :: 0 <= i < |v| && v[i].0 == t)
    && (forall i, j :: 0 <= i < j < |v| ==> v[i].0 != v[j].0)
    && (forall i :: 0 <= i < |v| && v[i].1 in all ==> exists j :: 0 <= j < i && v[j].0 == v[i].1)
  }

  lemma OneMore(all: TypeMap, left: TypeMap, v: Sorted, t: Type)
    requires InOrder(all, left, v) && t in left && left[t] !in left
    ensures InOrder(all, left - {t}, v + [(t, left[t])])
  {
    var w := v + [(t, left[t])];
    forall u | u in all && u !in left - {t}
      ensures exists i :: 0 <= i < |w| && w[i].0 == u
    {
      if u == t {
        assert w[|v|].0 == u;
      } else {
        var i :| 0 <= i < |v| && v[i].0 == u;
        assert w[i].0 == u;
      }
    }
    forall i | 0 <= i < |w| && w[i].1 in all
      ensures exists j :: 0 <= j < i && w[j].0 == w[i].1
    {
      if i < |v| {
        var j :| 0 <= j < i && v[j].0 == v[i].1;
        assert w[j].0 == w[i].1;
      } else {
        var j :| 0 <= j < |v| && v[j].0 == left[t];
        assert w[j].0 == w[i].1;
      }
    }
  }

  /** One pass of the inner loop. */
  method Pass(all: TypeMap, m: TypeMap, v: Sorted) returns (typeMap: TypeMap, typedefVec: Sorted)
    requires InOrder(all, m, v)
    ensures InOrder(all, typeMap, typedefVec) && typeMap == Sweep(m, m.Keys)
  {
    hide InOrder;
    typeMap, typedefVec := m, v;
    var todo := m.Keys;
    while todo != {}
      invariant todo <= typeMap.Keys
      invariant InOrder(all, typeMap, typedefVec)
      invariant Sweep(typeMap, todo) == Sweep(m, m.Keys)
      decreases |todo|
    {
      LeastExists(todo);
      var it :| IsLeast(todo, it);
      assert it == Least(todo);
      if typeMap[it] !in typeMap {
        OneMore(all, typeMap, typedefVec, it);
        typedefVec := typedefVec + [(it, typeMap[it])];
        typeMap := typeMap - {it};
      }
      todo := todo - {it};
    }
  }

  method GetSortedTypeDefMap(typedefTypeMap: TypeMap) returns (typedefVec: Sorted)
    requires Acyclic(typedefTypeMap)
    ensures InOrder(typedefTypeMap, map[], typedefVec)
  {
    hide InOrder, Sweep;
    var typeMap := typedefTypeMap;
    typedefVec := [];
    NothingYet(typeMap);
    while typeMap != map[]
      invariant InOrder(typedefTypeMap, typeMap, typedefVec) && Acyclic(typeMap)
      decreases typeMap.Keys
    {
      PassShrinks(typeMap);
      SweepSubmap(typeMap, typeMap.Keys);
      SubmapAcyclic(Sweep(typeMap, typeMap.Keys), typeMap);
      typeMap, typedefVec := Pass(typedefTypeMap, typeMap, typedefVec);
    }
  }

  lemma NothingYet(m: TypeMap)
    ensures InOrder(m, m, [])
  {
  }
}
