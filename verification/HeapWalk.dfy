/**
 Chasing pointers through a heap that may contain cycles: the generated traversal of a pointer
 (oi/FuncGen.cpp) over the pointer set of oi/OITraceCode.cpp.
 */
module HeapWalk {
  import opened Machine
  import opened PointerSet

  /** The pointers that the traversal of the object at an address comes across, in order. */
  type Heap = U64 -> seq<U64>

  ghost predicate Edge(heap: Heap, a: U64, b: U64)
  {
    b != 0 && b in heap(a)
  }

  ghost predicate IsPath(heap: Heap, path: seq<U64>)
  {
    path != [] && forall i :: 0 <= i < |path| - 1 ==> Edge(heap, path[i], path[i + 1])
  }

  ghost predicate Reaches(heap: Heap, a: U64, b: U64)
  {
    exists path :: IsPath(heap, path) && path[0] == a && path[|path| - 1] == b
  }

  lemma ReachesSelf(heap: Heap, a: U64)
    ensures Reaches(heap, a, a)
  {
    assert IsPath(heap, [a]) && [a][0] == a;
  }

  lemma ReachesThrough(heap: Heap, a: U64, b: U64, c: U64)
    requires Edge(heap, a, b) && Reaches(heap, b, c)
    ensures Reaches(heap, a, c)
  {
    var path :| IsPath(heap, path) && path[0] == b && path[|path| - 1] == c;
    var longer := [a] + path;
    assert IsPath(heap, longer) && longer[0] == a && longer[|longer| - 1] == c;
  }

  /** All that the objects in `from` point at is in `s`. */
  ghost predicate Closed(heap: Heap, from: set<U64>, s: set<U64>)
  {
    forall a, b :: a in from && Edge(heap, a, b) ==> b in s
  }

  lemma {:induction false} ClosedContainsPath(heap: Heap, s: set<U64>, path: seq<U64>)
    requires Closed(heap, s, s) && IsPath(heap, path) && path[0] in s
    ensures path[|path| - 1] in s
    decreases |path|
  {
    if |path| > 1 {
      assert Edge(heap, path[0], path[1]);
      forall i | 0 <= i < |path[1..]| - 1
        ensures Edge(heap, path[1..][i], path[1..][i + 1])
      {
        assert Edge(heap, path[i + 1], path[i + 2]);
      }
      ClosedContainsPath(heap, s, path[1..]);
    }
  }

  ghost function Elements(s: seq<U64>): set<U64>
  {
    set p | p in s
  }

  ghost predicate NoRepeats(s: seq<U64>)
  {
    forall i, j :: 0 <= i < j < |s| ==> s[i] != s[j]
  }

  /** What has been remembered and followed so far. */
  datatype Progress = Progress(seen: set<U64>, followed: seq<U64>)

  /** From `p` to `q` the log grew by exactly the pointers that the set gained. */
  ghost predicate Logged(p: Progress, q: Progress)
  {
    && p.seen <= q.seen
    && p.followed <= q.followed
    && Elements(q.followed[|p.followed|..]) == q.seen - p.seen
    && NoRepeats(q.followed[|p.followed|..])
  }

  ghost predicate AllReached(heap: Heap, a: U64, found: set<U64>)
  {
    forall b :: b in found ==> Reaches(heap, a, b)
  }

  /** What a traversal that starts at `a` does to the state; `cap` is the size of the table. */
  ghost predicate Traversed(heap: Heap, a: U64, cap: nat, p: Progress, q: Progress)
  {
    && Logged(p, q)
    && AllReached(heap, a, q.seen - p.seen)
    && (|q.seen| < cap ==> Closed(heap, q.seen - p.seen, q.seen))
  }

  lemma LoggedMore(p: Progress, q: Progress, r: Progress)
    requires Logged(p, q) && Logged(q, r)
    ensures Logged(p, r)
  {
    var x, y := q.followed[|p.followed|..], r.followed[|q.followed|..];
    assert r.followed[|p.followed|..] == x + y;
    assert forall i :: 0 <= i < |x| ==> x[i] in Elements(x);
    assert forall i :: 0 <= i < |y| ==> y[i] in Elements(y);
    assert Elements(x + y) == Elements(x) + Elements(y);
    NoRepeatsConcat(x, y);
  }

  lemma NoRepeatsConcat(x: seq<U64>, y: seq<U64>)
    requires NoRepeats(x) && NoRepeats(y)
    requires forall i, j :: 0 <= i < |x| && 0 <= j < |y| ==> x[i] != y[j]
    ensures NoRepeats(x + y)
  {
    forall i, j | 0 <= i < j < |x + y|
      ensures (x + y)[i] != (x + y)[j]
    {
      if i < |x| <= j {
        assert x[i] != y[j - |x|];
      } else if |x| <= i {
        assert y[i - |x|] != y[j - |x|];
      }
    }
  }

  lemma Grown(s: set<U64>, t: set<U64>)
    requires s <= t
    ensures |t| == |s| + |t - s|
  {
    assert t == s + (t - s);
  }

  lemma NothingTraversed(heap: Heap, a: U64, cap: nat, p: Progress)
    ensures Traversed(heap, a, cap, p, p)
  {
    assert p.followed[|p.followed|..] == [];
  }

  lemma TraversedGrows(heap: Heap, a: U64, cap: nat, p: Progress, q: Progress)
    requires Traversed(heap, a, cap, p, q)
    ensures p.seen <= q.seen && |p.seen| <= |q.seen|
  {
    Grown(p.seen, q.seen);
  }

  lemma TraversedMore(heap: Heap, a: U64, cap: nat, p: Progress, q: Progress, r: Progress)
    requires Traversed(heap, a, cap, p, q) && Traversed(heap, a, cap, q, r)
    ensures Traversed(heap, a, cap, p, r)
  {
    LoggedMore(p, q, r);
    Grown(q.seen, r.seen);
  }

  lemma TraversedFrom(heap: Heap, a: U64, b: U64, cap: nat, p: Progress, q: Progress)
    requires Edge(heap, a, b) && Traversed(heap, b, cap, p, q)
    ensures Traversed(heap, a, cap, p, q)
  {
    forall c | c in q.seen - p.seen
      ensures Reaches(heap, a, c)
    {
      ReachesThrough(heap, a, b, c);
    }
  }

  /** Remembering a pointer and then traversing what it points at. */
  lemma TraversedPointee(heap: Heap, a: U64, cap: nat, p: Progress, q: Progress, r: Progress)
    requires a !in p.seen && q == Progress(p.seen + {a}, p.followed + [a])
    requires Traversed(heap, a, cap, q, r)
    requires |r.seen| < cap ==> Closed(heap, {a}, r.seen)
    ensures Traversed(heap, a, cap, p, r)
  {
    assert q.followed[|p.followed|..] == [a];
    assert q.seen - p.seen == {a};
    assert Logged(p, q);
    LoggedMore(p, q, r);
    ReachesSelf(heap, a);
    assert r.seen - p.seen == (r.seen - q.seen) + {a};
  }

  /** Unless the table is full, the first n pointers found at `a` have been remembered. */
  ghost predicate FirstFollowed(heap: Heap, a: U64, n: nat, cap: nat, seen: set<U64>)
  {
    n <= |heap(a)| && (|seen| < cap ==> forall k :: 0 <= k < n && heap(a)[k] != 0 ==> heap(a)[k] in seen)
  }

  lemma FollowedNext(heap: Heap, a: U64, n: nat, cap: nat, p: Progress, q: Progress, r: Progress)
    requires n < |heap(a)| && FirstFollowed(heap, a, n, cap, q.seen)
    requires Traversed(heap, a, cap, p, q) && Traversed(heap, heap(a)[n], cap, q, r)
    requires heap(a)[n] == 0 ==> r == q
    requires |r.seen| < cap && heap(a)[n] != 0 ==> heap(a)[n] in r.seen
    ensures FirstFollowed(heap, a, n + 1, cap, r.seen)
    ensures Traversed(heap, a, cap, p, r)
  {
    Grown(q.seen, r.seen);
    if heap(a)[n] != 0 {
      TraversedFrom(heap, a, heap(a)[n], cap, q, r);
      TraversedMore(heap, a, cap, p, q, r);
    }
  }

  class PointerWalk {
    const heap: Heap
    const pointers: PointerHashSet
    /** The addresses followed, in order. */
    var followed: seq<U64>

    constructor (heap: Heap, pointers: PointerHashSet)
      ensures this.heap == heap && this.pointers == pointers && followed == []
    {
      this.heap := heap;
      this.pointers := pointers;
      followed := [];
    }

    ghost function State(): Progress
      reads this, pointers, pointers.data
    {
      Progress(pointers.Contents(), followed)
    }

    ghost function Cap(): nat
    {
      pointers.data.Length
    }

    ghost predicate Ready()
      reads this, pointers, pointers.data
    {
      pointers.Valid() && |State().seen| <= Cap()
    }

    /** `if (t && ctx.pointers.add(t))` and then the traversal of the pointee. */
    method Follow(p: U64)
      requires Ready()
      modifies this, pointers, pointers.data
      ensures Ready() && Traversed(heap, p, Cap(), old(State()), State())
      ensures p == 0 ==> State() == old(State())
      ensures |State().seen| < Cap() && p != 0 ==> p in State().seen
      decreases Cap() - |State().seen|, 0
    {
      hide PointerHashSet.Valid, PointerHashSet.Contents, Traversed;
      NothingTraversed(heap, p, Cap(), State());
      if p == 0 {
        return;
      }
      var added := pointers.Add(p);
      if !added {
        return;
      }
      followed := followed + [p];
      ghost var q := State();
      Visit(p);
      TraversedPointee(heap, p, Cap(), old(State()), q, State());
    }

    /** The traversal of the object at an address follows each pointer it comes across. */
    method Visit(a: U64)
      requires Ready()
      modifies this, pointers, pointers.data
      ensures Ready() && Traversed(heap, a, Cap(), old(State()), State())
      ensures old(State()).seen <= State().seen
      ensures |State().seen| < Cap() ==> Closed(heap, {a}, State().seen)
      decreases Cap() - |State().seen|, 1
    {
      hide PointerHashSet.Valid, PointerHashSet.Contents, Traversed;
      ghost var p := State();
      NothingTraversed(heap, a, Cap(), p);
      for i := 0 to |heap(a)|
        invariant Ready() && Traversed(heap, a, Cap(), p, State())
        invariant |p.seen| <= |State().seen|
        invariant FirstFollowed(heap, a, i, Cap(), State().seen)
      {
        ghost var q := State();
        Follow(heap(a)[i]);
        FollowedNext(heap, a, i, Cap(), p, q, State());
        TraversedGrows(heap, a, Cap(), p, State());
      }
      TraversedGrows(heap, a, Cap(), p, State());
    }
  }

  /**
   The top-level traversal. Each address is followed at most once and the root never again; no
   more than `capacity` pointers are remembered; and unless the table filled up, exactly the
   objects that the root reaches were visited.
   */
  method Walk(heap: Heap, root: U64, pointers: PointerHashSet) returns (followed: seq<U64>)
    requires root != 0 && pointers.data.Length > 0
    modifies pointers, pointers.data
    ensures NoRepeats(followed) && root !in followed && |followed| < pointers.data.Length
    ensures forall q :: q in followed ==> q != 0 && Reaches(heap, root, q)
    ensures |followed| + 1 < pointers.data.Length ==> forall q :: Reaches(heap, root, q) ==> q == root || q in followed
  {
    pointers.Initialize();
    var added := pointers.Add(root);
    var walk := new PointerWalk(heap, pointers);
    assert walk.State() == Progress({root}, []);
    walk.Visit(root);
    followed := walk.followed;
    FollowedOnce(root, walk.State());
    OnlyReachable(heap, root, pointers.data.Length, walk.State());
  }

  lemma FollowedOnce(root: U64, q: Progress)
    requires Logged(Progress({root}, []), q)
    ensures NoRepeats(q.followed) && |q.seen| == |q.followed| + 1
    ensures forall a :: a in q.followed <==> a in q.seen && a != root
  {
    assert q.followed[0..] == q.followed;
    assert forall a :: a in q.followed <==> a in Elements(q.followed);
    ElementsCount(q.followed);
    Grown({root}, q.seen);
  }

  lemma OnlyReachable(heap: Heap, root: U64, cap: nat, q: Progress)
    requires Traversed(heap, root, cap, Progress({root}, []), q)
    requires |q.seen| < cap ==> Closed(heap, {root}, q.seen)
    ensures forall a :: a in q.seen ==> Reaches(heap, root, a)
    ensures |q.seen| < cap ==> forall a :: Reaches(heap, root, a) ==> a in q.seen
  {
    ReachesSelf(heap, root);
    if |q.seen| < cap {
      assert (q.seen - {root}) + {root} == q.seen;
      forall a | Reaches(heap, root, a)
        ensures a in q.seen
      {
        var path :| IsPath(heap, path) && path[0] == root && path[|path| - 1] == a;
        ClosedContainsPath(heap, q.seen, path);
      }
    }
  }

  lemma {:induction false} ElementsCount(s: seq<U64>)
    requires NoRepeats(s)
    ensures |Elements(s)| == |s|
  {
    if s != [] {
      ElementsCount(s[1..]);
      assert Elements(s) == {s[0]} + Elements(s[1..]);
      assert s[0] !in s[1..];
    }
  }
}
