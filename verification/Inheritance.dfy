/** What flattening does to the members of a class: when they are all there, and when some are lost. */
module Inheritance {
  import opened Machine
  import opened TypeGraph
  import opened Flattening

  /** Inheritance is well-founded. */
  ghost predicate Ranked(g: Graph, rank: map<Id, nat>)
  {
    && rank.Keys == g.Keys
    && forall n, b :: n in g && b in ParentsOf(g[n]) && b.ty.NodeRef? ==> b.ty.id in g && rank[b.ty.id] < rank[n]
  }

  /** An object of a class, or one of the objects of its bases inside it. */
  datatype Subobject = Subobject(id: Id, at: nat)

  /** An object at a position and, once for each path of inheritance, the objects of its bases. */
  ghost function Subobjects(g: Graph, rank: map<Id, nat>, n: Id, at: nat): seq<Subobject>
    requires Ranked(g, rank) && n in g
    decreases rank[n], |ParentsOf(g[n])| + 1
  {
    [Subobject(n, at)] + InBases(g, rank, n, ParentsOf(g[n]), at)
  }

  ghost function InBases(g: Graph, rank: map<Id, nat>, n: Id, ps: seq<Parent>, at: nat): seq<Subobject>
    requires Ranked(g, rank) && n in g && forall p :: p in ps ==> p in ParentsOf(g[n])
    decreases rank[n], |ps|
  {
    if ps == [] then []
    else
      assert ps[0] in ps;
      InBase(g, rank, n, ps[0], at) + InBases(g, rank, n, ps[1..], at)
  }

  ghost function InBase(g: Graph, rank: map<Id, nat>, n: Id, p: Parent, at: nat): seq<Subobject>
    requires Ranked(g, rank) && n in g && p in ParentsOf(g[n])
    decreases rank[n], 0
  {
    if p.ty.NodeRef? then Subobjects(g, rank, p.ty.id, at + p.bitOffset) else []
  }

  /** The members declared by the class itself; a container has one member that stands for it. */
  function Content(g: Graph, n: Id): seq<Member>
    requires n in g
  {
    if g[n].Class? then g[n].members else [Member(NodeRef(n), PARENT_PREFIX, 0, 0, 0)]
  }

  /** The members of all subobjects, each at the position that its subobject gives it. */
  function Gathered(g: Graph, subs: seq<Subobject>): seq<Member>
    requires forall s :: s in subs ==> s.id in g
  {
    if subs == [] then []
    else
      assert subs[0] in subs;
      Shift(Content(g, subs[0].id), subs[0].at) + Gathered(g, subs[1..])
  }

  /** Members up to their alignments. */
  function Plain(ms: seq<Member>): (r: seq<Member>)
    ensures |r| == |ms| && forall i :: 0 <= i < |ms| ==> r[i] == ms[i].(align := 0)
  {
    seq(|ms|, i requires 0 <= i < |ms| => ms[i].(align := 0))
  }

  ghost function Copies(ms: seq<Member>, at: nat): multiset<Member>
  {
    multiset(Plain(Shift(ms, at)))
  }

  lemma CopiesConcat(a: seq<Member>, b: seq<Member>, at: nat)
    ensures Copies(a + b, at) == Copies(a, at) + Copies(b, at)
  {
    assert Plain(Shift(a + b, at)) == Plain(Shift(a, at)) + Plain(Shift(b, at));
  }

  lemma CopiesShift(ms: seq<Member>, distance: nat, at: nat)
    ensures Copies(Shift(ms, distance), at) == Copies(ms, at + distance)
  {
    assert Shift(Shift(ms, distance), at) == Shift(ms, at + distance);
  }

  lemma CopiesRaised(ms: seq<Member>, align: nat, at: nat)
    ensures Copies(Raised(ms, align), at) == Copies(ms, at)
  {
    assert Plain(Shift(Raised(ms, align), at)) == Plain(Shift(ms, at));
  }

  /** A base's block holds the base's members, moved by the base's offset. */
  lemma CopiesBlock(g: Graph, p: Parent, at: nat)
    requires p.ty.NodeRef? ==> p.ty.id in g
    ensures Copies(Block(g, p), at) == if p.ty.NodeRef? then Copies(Content(g, p.ty.id), at + p.bitOffset) else multiset{}
  {
    hide Copies, Raised;
    if p.ty.NodeRef? {
      CopiesShift(Content(g, p.ty.id), p.bitOffset, at);
      if g[p.ty.id].Class? {
        CopiesRaised(Shift(g[p.ty.id].members, p.bitOffset), g[p.ty.id].align, at);
      } else {
        assert Block(g, p) == Shift(Content(g, p.ty.id), p.bitOffset);
      }
    } else {
      NoCopies(at);
    }
  }

  lemma NoCopies(at: nat)
    ensures Copies([], at) == multiset{}
  {
  }

  ghost function CopiesOfBlocks(g: Graph, ps: seq<Parent>, at: nat): multiset<Member>
  {
    if ps == [] then multiset{} else Copies(Block(g, ps[0]), at) + CopiesOfBlocks(g, ps[1..], at)
  }

  /** The merge loses nothing and adds nothing. */
  lemma {:induction false} MergedCopies(g: Graph, ms: seq<Member>, ps: seq<Parent>, at: nat)
    ensures Copies(Merged(g, ms, ps), at) == Copies(ms, at) + CopiesOfBlocks(g, ps, at)
    decreases |ms| + |ps|
  {
    hide Copies, Block;
    if ps == [] {
    } else if ms != [] && ms[0].bitOffset < ps[0].bitOffset {
      MergedCopies(g, ms[1..], ps, at);
      CopiesConcat([ms[0]], Merged(g, ms[1..], ps), at);
      CopiesConcat([ms[0]], ms[1..], at);
      assert [ms[0]] + ms[1..] == ms;
    } else {
      MergedCopies(g, ms, ps[1..], at);
      CopiesConcat(Block(g, ps[0]), Merged(g, ms, ps[1..]), at);
    }
  }

  lemma {:induction false} GatheredConcat(g: Graph, a: seq<Subobject>, b: seq<Subobject>)
    requires forall s :: s in a + b ==> s.id in g
    ensures Gathered(g, a + b) == Gathered(g, a) + Gathered(g, b)
    decreases |a|
  {
    if a == [] {
      assert a + b == b;
    } else {
      assert a[0] in a + b;
      assert (a + b)[1..] == a[1..] + b;
      GatheredConcat(g, a[1..], b);
    }
  }

  lemma {:induction false} SubobjectsExist(g: Graph, rank: map<Id, nat>, n: Id, at: nat)
    requires Ranked(g, rank) && n in g
    ensures forall s :: s in Subobjects(g, rank, n, at) ==> s.id in g
    decreases rank[n], |ParentsOf(g[n])| + 1
  {
    InBasesExist(g, rank, n, ParentsOf(g[n]), at);
  }

  lemma {:induction false} InBasesExist(g: Graph, rank: map<Id, nat>, n: Id, ps: seq<Parent>, at: nat)
    requires Ranked(g, rank) && n in g && forall p :: p in ps ==> p in ParentsOf(g[n])
    ensures forall s :: s in InBases(g, rank, n, ps, at) ==> s.id in g
    decreases rank[n], |ps|
  {
    if ps != [] {
      assert ps[0] in ps;
      if ps[0].ty.NodeRef? {
        SubobjectsExist(g, rank, ps[0].ty.id, at + ps[0].bitOffset);
      }
      InBasesExist(g, rank, n, ps[1..], at);
    }
  }

  /** Classes that are closed under bases, each of them flattened when its bases were. */
  ghost predicate WellFlattened(g0: Graph, g: Graph, s: set<Id>)
  {
    g.Keys == g0.Keys && s <= g0.Keys && forall n :: n in s ==> FlatRight(g0, g, s, n)
  }

  ghost predicate FlatRight(g0: Graph, g: Graph, s: set<Id>, n: Id)
    requires n in g0 && n in g
  {
    && g[n] == FlatNode(g, g0[n])
    && forall b :: b in ParentsOf(g0[n]) ==> ValidParent(b) && (b.ty.NodeRef? ==> b.ty.id in s)
  }

  /**
   Flattening conserves members: a flattened class has, up to alignment and order, the members of the
   object and of every base object in it, each moved by the offsets along its path of inheritance.
   */
  lemma {:induction false} MembersConserved(g0: Graph, g: Graph, s: set<Id>, rank: map<Id, nat>, n: Id, at: nat)
    requires WellFlattened(g0, g, s) && Ranked(g0, rank) && n in s
    ensures forall x :: x in Subobjects(g0, rank, n, at) ==> x.id in g0
    ensures Copies(Content(g, n), at) == multiset(Plain(Gathered(g0, Subobjects(g0, rank, n, at))))
    decreases rank[n], |ParentsOf(g0[n])| + 1
  {
    hide Copies, Shift, Plain, Block, Merged, Gathered;
    assert FlatRight(g0, g, s, n);
    SubobjectsExist(g0, rank, n, at);
    var own, bases := [Subobject(n, at)], InBases(g0, rank, n, ParentsOf(g0[n]), at);
    GatheredTogether(g0, own, bases);
    OwnMembers(g0, n, at);
    BasesConserved(g0, g, s, rank, n, ParentsOf(g0[n]), at);
    if g0[n].Class? {
      MergedCopies(g, g0[n].members, g0[n].parents, at);
    }
  }

  lemma PlainConcat(a: seq<Member>, b: seq<Member>)
    ensures multiset(Plain(a + b)) == multiset(Plain(a)) + multiset(Plain(b))
  {
    assert Plain(a + b) == Plain(a) + Plain(b);
  }

  lemma OwnMembers(g0: Graph, n: Id, at: nat)
    requires n in g0
    ensures multiset(Plain(Gathered(g0, [Subobject(n, at)]))) == Copies(Content(g0, n), at)
  {
    var s := Shift(Content(g0, n), at);
    assert s + [] == s;
  }

  lemma {:induction false} BasesConserved(g0: Graph, g: Graph, s: set<Id>, rank: map<Id, nat>, n: Id,
                                          ps: seq<Parent>, at: nat)
    requires WellFlattened(g0, g, s) && Ranked(g0, rank) && n in s
    requires forall b :: b in ps ==> b in ParentsOf(g0[n])
    ensures forall x :: x in InBases(g0, rank, n, ps, at) ==> x.id in g0
    ensures CopiesOfBlocks(g, ps, at) == multiset(Plain(Gathered(g0, InBases(g0, rank, n, ps, at))))
    decreases rank[n], |ps|
  {
    hide Copies, Shift, Plain, Block, Content, Gathered, InBase, FlatNode, WellFlattened;
    BasesFinished(g0, g, s, n);
    InBasesExist(g0, rank, n, ps, at);
    if ps == [] {
      NoMembers();
    } else {
      assert ps[0] in ps;
      var first, rest := InBase(g0, rank, n, ps[0], at), InBases(g0, rank, n, ps[1..], at);
      BaseConserved(g0, g, s, rank, n, ps[0], at);
      BasesConserved(g0, g, s, rank, n, ps[1..], at);
      assert InBases(g0, rank, n, ps, at) == first + rest;
      GatheredTogether(g0, first, rest);
    }
  }

  lemma {:induction false} BaseConserved(g0: Graph, g: Graph, s: set<Id>, rank: map<Id, nat>, n: Id, b: Parent,
                                         at: nat)
    requires WellFlattened(g0, g, s) && Ranked(g0, rank) && n in s && b in ParentsOf(g0[n])
    ensures forall x :: x in InBase(g0, rank, n, b, at) ==> x.id in g0
    ensures Copies(Block(g, b), at) == multiset(Plain(Gathered(g0, InBase(g0, rank, n, b, at))))
    decreases rank[n], 0
  {
    hide Copies, Shift, Plain, Block, Content, Gathered, Subobjects, FlatNode, WellFlattened;
    BasesFinished(g0, g, s, n);
    CopiesBlock(g, b, at);
    if b.ty.NodeRef? {
      MembersConserved(g0, g, s, rank, b.ty.id, at + b.bitOffset);
    } else {
      NoMembers();
    }
  }

  lemma GatheredTogether(g: Graph, a: seq<Subobject>, b: seq<Subobject>)
    requires forall x :: x in a + b ==> x.id in g
    ensures multiset(Plain(Gathered(g, a + b))) == multiset(Plain(Gathered(g, a))) + multiset(Plain(Gathered(g, b)))
  {
    GatheredConcat(g, a, b);
    PlainConcat(Gathered(g, a), Gathered(g, b));
  }

  lemma NoMembers()
    ensures multiset(Plain([])) == multiset{} && forall g :: Gathered(g, []) == []
  {
  }

  lemma BasesFinished(g0: Graph, g: Graph, s: set<Id>, n: Id)
    requires WellFlattened(g0, g, s) && n in s
    ensures g.Keys == g0.Keys && n in g0
    ensures forall b :: b in ParentsOf(g0[n]) ==> ValidParent(b) && (b.ty.NodeRef? ==> b.ty.id in s && b.ty.id in g0)
  {
    assert FlatRight(g0, g, s, n);
  }

  // ----- how many members there should be

  /** The number of members of an object and of every base object in it. */
  ghost function Total(g: Graph, rank: map<Id, nat>, n: Id): nat
    requires Ranked(g, rank) && n in g
    decreases rank[n], |ParentsOf(g[n])| + 1
  {
    |Content(g, n)| + Inherited(g, rank, n, ParentsOf(g[n]))
  }

  /** The number of members that come from some of its bases. */
  ghost function Inherited(g: Graph, rank: map<Id, nat>, n: Id, ps: seq<Parent>): nat
    requires Ranked(g, rank) && n in g && forall p :: p in ps ==> p in ParentsOf(g[n])
    decreases rank[n], |ps|
  {
    if ps == [] then 0
    else
      assert ps[0] in ps;
      TotalOf(g, rank, n, ps[0]) + Inherited(g, rank, n, ps[1..])
  }

  ghost function TotalOf(g: Graph, rank: map<Id, nat>, n: Id, p: Parent): nat
    requires Ranked(g, rank) && n in g && p in ParentsOf(g[n])
    decreases rank[n], 0
  {
    if p.ty.NodeRef? then Total(g, rank, p.ty.id) else 0
  }

  /** A class gets members from its bases. */
  ghost predicate Inherits(g: Graph, rank: map<Id, nat>, n: Id)
    requires Ranked(g, rank) && n in g
  {
    Inherited(g, rank, n, ParentsOf(g[n])) > 0
  }

  lemma {:induction false} TotalGathered(g: Graph, rank: map<Id, nat>, n: Id, at: nat)
    requires Ranked(g, rank) && n in g
    ensures forall x :: x in Subobjects(g, rank, n, at) ==> x.id in g
    ensures |Gathered(g, Subobjects(g, rank, n, at))| == Total(g, rank, n)
    decreases rank[n], |ParentsOf(g[n])| + 1
  {
    hide Shift, Content;
    SubobjectsExist(g, rank, n, at);
    var own, bases := [Subobject(n, at)], InBases(g, rank, n, ParentsOf(g[n]), at);
    InheritedGathered(g, rank, n, ParentsOf(g[n]), at);
    GatheredConcat(g, own, bases);
    assert own[1..] == [];
  }

  lemma {:induction false} InheritedGathered(g: Graph, rank: map<Id, nat>, n: Id, ps: seq<Parent>, at: nat)
    requires Ranked(g, rank) && n in g && forall p :: p in ps ==> p in ParentsOf(g[n])
    ensures forall x :: x in InBases(g, rank, n, ps, at) ==> x.id in g
    ensures |Gathered(g, InBases(g, rank, n, ps, at))| == Inherited(g, rank, n, ps)
    decreases rank[n], |ps|
  {
    InBasesExist(g, rank, n, ps, at);
    if ps != [] {
      assert ps[0] in ps;
      var first, rest := InBase(g, rank, n, ps[0], at), InBases(g, rank, n, ps[1..], at);
      if ps[0].ty.NodeRef? {
        TotalGathered(g, rank, ps[0].ty.id, at + ps[0].bitOffset);
      }
      InheritedGathered(g, rank, n, ps[1..], at);
      assert InBases(g, rank, n, ps, at) == first + rest;
      GatheredConcat(g, first, rest);
    }
  }

  lemma {:induction false} InheritedHas(g: Graph, rank: map<Id, nat>, n: Id, ps: seq<Parent>, b: Parent)
    requires Ranked(g, rank) && n in g && (forall p :: p in ps ==> p in ParentsOf(g[n])) && b in ps
    ensures Inherited(g, rank, n, ps) >= TotalOf(g, rank, n, b)
    decreases |ps|
  {
    hide TotalOf;
    if b != ps[0] {
      InheritedHas(g, rank, n, ps[1..], b);
    }
  }

  function BlocksCount(g: Graph, ps: seq<Parent>): nat
  {
    if ps == [] then 0 else |Block(g, ps[0])| + BlocksCount(g, ps[1..])
  }

  lemma {:induction false} MergedCount(g: Graph, ms: seq<Member>, ps: seq<Parent>)
    ensures |Merged(g, ms, ps)| == |ms| + BlocksCount(g, ps)
    decreases |ms| + |ps|
  {
    hide Block;
    if ps != [] {
      if ms != [] && ms[0].bitOffset < ps[0].bitOffset {
        MergedCount(g, ms[1..], ps);
      } else {
        MergedCount(g, ms, ps[1..]);
      }
    }
  }

  /** Without members in the blocks, only the class's own are left. */
  lemma {:induction false} MergedOwnOnly(g: Graph, ms: seq<Member>, ps: seq<Parent>)
    requires BlocksCount(g, ps) == 0
    ensures Merged(g, ms, ps) == ms
    decreases |ms| + |ps|
  {
    hide Block;
    if ps != [] {
      HeadAndTail(ms);
      if ms != [] && ms[0].bitOffset < ps[0].bitOffset {
        MergedOwnOnly(g, ms[1..], ps);
        assert Merged(g, ms, ps) == [ms[0]] + ms[1..];
      } else {
        MergedOwnOnly(g, ms, ps[1..]);
        assert Merged(g, ms, ps) == [] + ms;
      }
    }
  }

  lemma HeadAndTail(ms: seq<Member>)
    ensures [] + ms == ms && (ms != [] ==> [ms[0]] + ms[1..] == ms)
  {
  }

  // ----- one run of the pass

  /** A base that was still in progress when a class was flattened, although it gets members from its own bases. */
  ghost predicate TakenEarly(g0: Graph, rank: map<Id, nat>, open: map<Id, set<Id>>, n: Id, b: Parent)
    requires Ranked(g0, rank) && n in g0 && b in ParentsOf(g0[n])
  {
    b.ty.NodeRef? && n in open && b.ty.id in open[n] && Inherits(g0, rank, b.ty.id)
  }

  /** This has happened to a class, or to one that it is derived from. */
  ghost predicate Marred(g0: Graph, rank: map<Id, nat>, open: map<Id, set<Id>>, n: Id)
    requires Ranked(g0, rank) && n in g0
    decreases rank[n], 1
  {
    exists b :: b in ParentsOf(g0[n]) && MarredBase(g0, rank, open, n, b)
  }

  ghost predicate MarredBase(g0: Graph, rank: map<Id, nat>, open: map<Id, set<Id>>, n: Id, b: Parent)
    requires Ranked(g0, rank) && n in g0 && b in ParentsOf(g0[n])
    decreases rank[n], 0
  {
    TakenEarly(g0, rank, open, n, b) || (b.ty.NodeRef? && Marred(g0, rank, open, b.ty.id))
  }

  lemma {:induction false} MarredInherits(g0: Graph, rank: map<Id, nat>, open: map<Id, set<Id>>, n: Id)
    requires Ranked(g0, rank) && n in g0 && Marred(g0, rank, open, n)
    ensures Inherits(g0, rank, n)
    decreases rank[n]
  {
    hide Content, Inherited;
    var b :| b in ParentsOf(g0[n]) && MarredBase(g0, rank, open, n, b);
    if !TakenEarly(g0, rank, open, n, b) {
      MarredInherits(g0, rank, open, b.ty.id);
    }
    InheritedHas(g0, rank, n, ParentsOf(g0[n]), b);
  }

  /** A run of the pass that has visited everything that a class is derived from. */
  ghost predicate Visited(g0: Graph, g: Graph, p: Progress, open: map<Id, set<Id>>)
  {
    p.finished == p.visited && FlatSoFar(g0, g, p, open) && forall n :: n in p.visited ==> Covered(AllTypes(g0[n]), p.visited)
  }

  lemma BasesVisited(g0: Graph, g: Graph, p: Progress, open: map<Id, set<Id>>, n: Id, b: Parent)
    requires Visited(g0, g, p, open) && n in p.visited && n in g0 && b in ParentsOf(g0[n])
    ensures g.Keys == g0.Keys && n in open && FlatAt(g0, g, p, open, n) && ValidParent(b)
    ensures b.ty.NodeRef? ==> b.ty.id in p.visited && b.ty.id in g0 && b.ty.id in open && FlatAt(g0, g, p, open, b.ty.id)
  {
    hide FlatNode, ReachesEarly;
    ParentIsFirst(g0[n], b);
    assert b.ty in AllTypes(g0[n]);
    assert FlatAt(g0, g, p, open, n);
  }

  /** A class never has more members than it should have, and fewer of them when this has happened. */
  lemma {:induction false} AtMostTotal(g0: Graph, g: Graph, p: Progress, open: map<Id, set<Id>>, rank: map<Id, nat>,
                                       n: Id)
    requires Visited(g0, g, p, open) && Ranked(g0, rank) && n in p.visited && n in g0 && g.Keys == g0.Keys
    ensures |Content(g, n)| <= Total(g0, rank, n)
    ensures Marred(g0, rank, open, n) ==> |Content(g, n)| < Total(g0, rank, n)
    decreases rank[n], |ParentsOf(g0[n])| + 1
  {
    hide Merged, MarredBase, Inherited, ReachesEarly, BlocksCount;
    assert FlatAt(g0, g, p, open, n);
    if g0[n].Class? {
      var seen := Seen(g0, g, open[n]);
      BlocksAtMost(g0, g, p, open, rank, n, g0[n].parents);
      MergedCount(seen, g0[n].members, g0[n].parents);
    }
  }

  lemma {:induction false} BlocksAtMost(g0: Graph, g: Graph, p: Progress, open: map<Id, set<Id>>, rank: map<Id, nat>,
                                        n: Id, ps: seq<Parent>)
    requires Visited(g0, g, p, open) && Ranked(g0, rank) && n in p.visited && n in g0 && g.Keys == g0.Keys && n in open
    requires forall b :: b in ps ==> b in ParentsOf(g0[n])
    ensures BlocksCount(Seen(g0, g, open[n]), ps) <= Inherited(g0, rank, n, ps)
    ensures (exists b :: b in ps && MarredBase(g0, rank, open, n, b)) ==> BlocksCount(Seen(g0, g, open[n]), ps) < Inherited(g0, rank, n, ps)
    decreases rank[n], |ps|
  {
    hide Visited, MarredBase, Block, Seen, TotalOf, Ranked;
    if ps != [] {
      assert ps[0] in ps;
      BlockAtMost(g0, g, p, open, rank, n, ps[0]);
      BlocksAtMost(g0, g, p, open, rank, n, ps[1..]);
      assert forall b :: b in ps ==> b == ps[0] || b in ps[1..];
    }
  }

  lemma {:induction false} BlockAtMost(g0: Graph, g: Graph, p: Progress, open: map<Id, set<Id>>, rank: map<Id, nat>,
                                       n: Id, b: Parent)
    requires Visited(g0, g, p, open) && Ranked(g0, rank) && n in p.visited && n in g0 && g.Keys == g0.Keys && n in open
    requires b in ParentsOf(g0[n])
    ensures |Block(Seen(g0, g, open[n]), b)| <= TotalOf(g0, rank, n, b)
    ensures MarredBase(g0, rank, open, n, b) ==> |Block(Seen(g0, g, open[n]), b)| < TotalOf(g0, rank, n, b)
    decreases rank[n], 0
  {
    hide Visited, Content, Marred, Inherited, FlatAt, Block, Raised;
    BasesVisited(g0, g, p, open, n, b);
    BlockSize(Seen(g0, g, open[n]), b);
    if b.ty.NodeRef? {
      var d := b.ty.id;
      SeenContent(g0, g, open[n], d);
      if d in open[n] {
        if Marred(g0, rank, open, d) {
          MarredInherits(g0, rank, open, d);
        }
      } else {
        AtMostTotal(g0, g, p, open, rank, d);
      }
    }
  }

  lemma BlockSize(g: Graph, b: Parent)
    ensures |Block(g, b)| == if b.ty.NodeRef? && b.ty.id in g then |Content(g, b.ty.id)| else 0
  {
  }

  lemma SeenContent(g0: Graph, g: Graph, open: set<Id>, d: Id)
    requires g.Keys == g0.Keys && d in g
    ensures Content(Seen(g0, g, open), d) == Content(if d in open then g0 else g, d)
  {
  }

  /** A class that gets nothing from its bases keeps its members. */
  lemma NothingInherited(g0: Graph, g: Graph, p: Progress, open: map<Id, set<Id>>, rank: map<Id, nat>, n: Id)
    requires Visited(g0, g, p, open) && Ranked(g0, rank) && n in p.visited && n in g0 && g.Keys == g0.Keys && !Inherits(g0, rank, n)
    ensures g[n] == if g0[n].Class? then g0[n].(parents := []) else g0[n]
  {
    hide Merged, MarredBase, Inherited, ReachesEarly, BlocksCount, Seen;
    assert FlatAt(g0, g, p, open, n);
    if g0[n].Class? {
      BlocksAtMost(g0, g, p, open, rank, n, g0[n].parents);
      MergedOwnOnly(Seen(g0, g, open[n]), g0[n].members, g0[n].parents);
    }
  }

  /** A class's members include those of its bases as they are in the end, unless a base was taken early. */
  lemma FlatInTheEnd(g0: Graph, g: Graph, p: Progress, open: map<Id, set<Id>>, rank: map<Id, nat>, n: Id)
    requires Visited(g0, g, p, open) && Ranked(g0, rank) && n in p.visited && n in g0 && g.Keys == g0.Keys
    requires forall b :: b in ParentsOf(g0[n]) ==> !TakenEarly(g0, rank, open, n, b)
    ensures g[n] == FlatNode(g, g0[n])
  {
    hide Merged, Inherits, ReachesEarly, Visited;
    FinishedAt(g0, g, p, open, n);
    if g0[n].Class? {
      forall b | b in g0[n].parents
        ensures Block(Seen(g0, g, open[n]), b) == Block(g, b)
      {
        BasesVisited(g0, g, p, open, n, b);
        if b.ty.NodeRef? && b.ty.id in open[n] {
          NothingInherited(g0, g, p, open, rank, b.ty.id);
        }
      }
      MergedSame(Seen(g0, g, open[n]), g, g0[n].members, g0[n].parents);
    }
  }

  lemma FinishedAt(g0: Graph, g: Graph, p: Progress, open: map<Id, set<Id>>, n: Id)
    requires Visited(g0, g, p, open) && n in p.visited
    ensures n in g0 && g.Keys == g0.Keys && n in open && g[n] == FlatNode(Seen(g0, g, open[n]), g0[n])
  {
    hide FlatNode, ReachesEarly;
    assert FlatAt(g0, g, p, open, n);
  }

  ghost function Unmarred(g0: Graph, rank: map<Id, nat>, open: map<Id, set<Id>>, visited: set<Id>): set<Id>
    requires Ranked(g0, rank) && visited <= g0.Keys
  {
    set n | n in visited && !Marred(g0, rank, open, n)
  }

  lemma UnmarredFlattened(g0: Graph, g: Graph, p: Progress, open: map<Id, set<Id>>, rank: map<Id, nat>)
    requires Visited(g0, g, p, open) && Ranked(g0, rank) && p.visited <= g0.Keys && g.Keys == g0.Keys
    ensures WellFlattened(g0, g, Unmarred(g0, rank, open, p.visited))
  {
    hide Visited, FlatNode, Inherits, ValidParent;
    var s := Unmarred(g0, rank, open, p.visited);
    forall n | n in s
      ensures FlatRight(g0, g, s, n)
    {
      forall b | b in ParentsOf(g0[n])
        ensures !TakenEarly(g0, rank, open, n, b) && ValidParent(b) && (b.ty.NodeRef? ==> b.ty.id in s)
      {
        BasesVisited(g0, g, p, open, n, b);
        assert !MarredBase(g0, rank, open, n, b);
      }
      FlatInTheEnd(g0, g, p, open, rank, n);
    }
  }

  /** A class has, up to alignment and order, the members of the object and of every base object in it. */
  ghost predicate Conserved(g0: Graph, g: Graph, rank: map<Id, nat>, n: Id)
    requires Ranked(g0, rank) && n in g0 && n in g
  {
    SubobjectsExist(g0, rank, n, 0);
    Copies(Content(g, n), 0) == multiset(Plain(Gathered(g0, Subobjects(g0, rank, n, 0))))
  }

  /** A run conserves the members of a class exactly if this has not happened to it. */
  lemma ConservedExactly(g0: Graph, g: Graph, p: Progress, open: map<Id, set<Id>>, rank: map<Id, nat>, n: Id)
    requires Visited(g0, g, p, open) && Ranked(g0, rank) && n in p.visited && n in g0 && n in g
    ensures Conserved(g0, g, rank, n) <==> !Marred(g0, rank, open, n)
  {
    hide Visited, Marred, Total, Gathered, Subobjects, Content, Plain;
    KeysKept(g0, g, p, open);
    if Marred(g0, rank, open, n) {
      AtMostTotal(g0, g, p, open, rank, n);
      TotalGathered(g0, rank, n, 0);
      CopiesCount(Content(g, n), Gathered(g0, Subobjects(g0, rank, n, 0)));
    } else {
      UnmarredFlattened(g0, g, p, open, rank);
      MembersConserved(g0, g, Unmarred(g0, rank, open, p.visited), rank, n, 0);
    }
  }

  lemma KeysKept(g0: Graph, g: Graph, p: Progress, open: map<Id, set<Id>>)
    requires Visited(g0, g, p, open)
    ensures g.Keys == g0.Keys && p.visited <= g0.Keys && p.finished == p.visited
  {
  }

  lemma CopiesCount(a: seq<Member>, b: seq<Member>)
    ensures Copies(a, 0) == multiset(Plain(b)) ==> |a| == |b|
  {
    assert |Copies(a, 0)| == |Plain(Shift(a, 0))| == |a|;
    assert |multiset(Plain(b))| == |b|;
  }

  // ----- all runs of the pass

  /** A class, or one that it is derived from, is reached early from a base that gets members from its own bases. */
  ghost predicate Lossy(g0: Graph, rank: map<Id, nat>, n: Id)
    requires Ranked(g0, rank) && n in g0
    decreases rank[n], 1
  {
    exists b :: b in ParentsOf(g0[n]) && LossyBase(g0, rank, n, b)
  }

  ghost predicate LossyBase(g0: Graph, rank: map<Id, nat>, n: Id, b: Parent)
    requires Ranked(g0, rank) && n in g0 && b in ParentsOf(g0[n])
    decreases rank[n], 0
  {
    b.ty.NodeRef? && ((ReachesEarly(g0, b.ty.id, n) && Inherits(g0, rank, b.ty.id)) || Lossy(g0, rank, b.ty.id))
  }

  lemma {:induction false} MarredIsLossy(g0: Graph, g: Graph, p: Progress, open: map<Id, set<Id>>, rank: map<Id, nat>,
                                         n: Id)
    requires Visited(g0, g, p, open) && Ranked(g0, rank) && n in p.visited && n in g0 && Marred(g0, rank, open, n)
    ensures Lossy(g0, rank, n)
    decreases rank[n]
  {
    hide Visited, Inherits, ReachesEarly, FlatNode;
    var b :| b in ParentsOf(g0[n]) && MarredBase(g0, rank, open, n, b);
    BasesVisited(g0, g, p, open, n, b);
    if !TakenEarly(g0, rank, open, n, b) {
      MarredIsLossy(g0, g, p, open, rank, b.ty.id);
    }
    assert LossyBase(g0, rank, n, b);
  }

  /** A class and a base of it from which a run mars the given class. */
  lemma {:induction false} LossyPair(g0: Graph, rank: map<Id, nat>, n: Id) returns (d: Id, c: Id)
    requires Ranked(g0, rank) && n in g0 && Lossy(g0, rank, n)
    ensures d in g0 && ReachesEarly(g0, d, c)
    ensures forall open: map<Id, set<Id>> :: c in open && d in open[c] ==> Marred(g0, rank, open, n)
    decreases rank[n]
  {
    hide Inherits, ReachesEarly;
    var b :| b in ParentsOf(g0[n]) && LossyBase(g0, rank, n, b);
    if ReachesEarly(g0, b.ty.id, n) && Inherits(g0, rank, b.ty.id) {
      d, c := b.ty.id, n;
    } else {
      d, c := LossyPair(g0, rank, b.ty.id);
    }
    forall open: map<Id, set<Id>> | c in open && d in open[c]
      ensures Marred(g0, rank, open, n)
    {
      assert MarredBase(g0, rank, open, n, b);
    }
  }

  /** From whichever types the pass is run, it conserves the members of the class. */
  ghost predicate AlwaysConserved(g0: Graph, rank: map<Id, nat>, n: Id)
    requires Ranked(g0, rank) && n in g0
  {
    forall roots, g, p, open :: Outcome(g0, roots, g, p, open) && n in p.visited ==> n in g && Conserved(g0, g, rank, n)
  }

  lemma OutcomeVisited(g0: Graph, roots: seq<Ty>, g: Graph, p: Progress, open: map<Id, set<Id>>)
    requires Outcome(g0, roots, g, p, open)
    ensures Visited(g0, g, p, open) && g.Keys == g0.Keys && Covered(roots, p.visited)
    ensures roots != [] && Reached(roots[0]).Some? ==> EarlyUnder(g0, p, open, Reached(roots[0]).value)
  {
  }

  /** A run of the pass from a class and then from another one. */
  datatype Run = Run(g: Graph, p: Progress, open: map<Id, set<Id>>)

  ghost predicate RanFrom(g0: Graph, d: Id, n: Id, r: Run)
  {
    Outcome(g0, [NodeRef(d), NodeRef(n)], r.g, r.p, r.open) && n in r.p.visited && n in r.g
  }

  method RunFrom(g0: Graph, d: Id, n: Id) returns (g: Graph, ghost r: Run)
    requires Closed(g0) && d in g0 && n in g0 && forall k :: k in g0 ==> !Broken(g0, k)
    ensures RanFrom(g0, d, n, r) && g == r.g
  {
    hide Closed, Broken, Outcome;
    var f := new Flattener(g0);
    var roots := [NodeRef(d), NodeRef(n)];
    RootsExist(g0, d, n);
    var ok := f.Run(roots);
    NoneElsewhere(g0);
    g, r := f.nodes, Run(f.nodes, f.State(), f.open);
    OutcomeVisited(g0, roots, r.g, r.p, r.open);
    RootsVisited(roots, r.p.visited, d, n);
  }

  /**
   The members of a class are conserved from whichever types the pass is run, exactly if neither it nor a class that it
   is derived from is reached early from such a base. Else one of the runs that are done here loses members.
   */
  method ConservedFromAnywhere(g0: Graph, ghost rank: map<Id, nat>, n: Id)
    returns (graphs: map<Id, Graph>, ghost runs: map<Id, Run>)
    requires Closed(g0) && Ranked(g0, rank) && n in g0 && forall k :: k in g0 ==> !Broken(g0, k)
    ensures graphs.Keys == runs.Keys == g0.Keys && forall d :: d in g0 ==> RanFrom(g0, d, n, runs[d]) && graphs[d] == runs[d].g
    ensures AlwaysConserved(g0, rank, n) <==> !Lossy(g0, rank, n)
    ensures Lossy(g0, rank, n) ==> exists d :: d in g0 && n in graphs[d] && !Conserved(g0, graphs[d], rank, n)
  {
    hide Closed, Conserved, Lossy, Broken, Ranked, RanFrom, AlwaysConserved;
    graphs, runs := map[], map[];
    var left := g0.Keys;
    while left != {}
      invariant left <= g0.Keys && graphs.Keys == runs.Keys == g0.Keys - left
      invariant forall d :: d in runs ==> RanFrom(g0, d, n, runs[d]) && graphs[d] == runs[d].g
    {
      var d :| d in left;
      var g, r := RunFrom(g0, d, n);
      graphs, runs, left := graphs[d := g], runs[d := r], left - {d};
    }
    if Lossy(g0, rank, n) {
      LossyRun(g0, rank, n, runs);
    } else {
      NeverMarred(g0, rank, n);
    }
  }

  lemma NeverMarred(g0: Graph, rank: map<Id, nat>, n: Id)
    requires Ranked(g0, rank) && n in g0 && !Lossy(g0, rank, n)
    ensures AlwaysConserved(g0, rank, n)
  {
    hide Outcome, Conserved, Marred, Lossy, Ranked;
    forall roots, g, p, open | Outcome(g0, roots, g, p, open) && n in p.visited
      ensures n in g && Conserved(g0, g, rank, n)
    {
      ConservedInRun(g0, roots, g, p, open, rank, n);
    }
  }

  lemma LossyRun(g0: Graph, rank: map<Id, nat>, n: Id, runs: map<Id, Run>)
    requires Ranked(g0, rank) && n in g0 && Lossy(g0, rank, n)
    requires runs.Keys == g0.Keys && forall d :: d in g0 ==> RanFrom(g0, d, n, runs[d])
    ensures exists d :: d in g0 && n in runs[d].g && !Conserved(g0, runs[d].g, rank, n)
    ensures !AlwaysConserved(g0, rank, n)
  {
    hide Outcome, Conserved, Marred, Lossy, Ranked, ReachesEarly;
    var d, c := LossyPair(g0, rank, n);
    var roots, r := [NodeRef(d), NodeRef(n)], runs[d];
    assert RanFrom(g0, d, n, r);
    OutcomeVisited(g0, roots, r.g, r.p, r.open);
    assert Reached(roots[0]) == Some(d);
    assert c in r.open && d in r.open[c];
    ConservedInRun(g0, roots, r.g, r.p, r.open, rank, n);
  }

  lemma NoneElsewhere(g0: Graph)
    requires forall k :: k in g0 ==> !Broken(g0, k)
    ensures forall k :: !Broken(g0, k)
  {
  }

  lemma RootsExist(g0: Graph, d: Id, n: Id)
    requires d in g0 && n in g0
    ensures Covered([NodeRef(d), NodeRef(n)], g0.Keys)
  {
  }

  lemma RootsVisited(roots: seq<Ty>, visited: set<Id>, d: Id, n: Id)
    requires roots == [NodeRef(d), NodeRef(n)] && Covered(roots, visited)
    ensures d in visited && n in visited
  {
    assert roots[0] in roots && roots[1] in roots;
  }

  lemma ConservedInRun(g0: Graph, roots: seq<Ty>, g: Graph, p: Progress, open: map<Id, set<Id>>, rank: map<Id, nat>,
                       n: Id)
    requires Outcome(g0, roots, g, p, open) && Ranked(g0, rank) && n in g0 && n in p.visited
    ensures n in g && (Conserved(g0, g, rank, n) <==> !Marred(g0, rank, open, n))
    ensures Marred(g0, rank, open, n) ==> Lossy(g0, rank, n)
  {
    hide Outcome, Visited, Conserved, Marred, Lossy, Ranked;
    OutcomeVisited(g0, roots, g, p, open);
    ConservedExactly(g0, g, p, open, rank, n);
    if Marred(g0, rank, open, n) {
      MarredIsLossy(g0, g, p, open, rank, n);
    }
  }

  /** The alignment of a base lives on in the first of its members. */
  lemma BaseAlignmentKept(g0: Graph, g: Graph, p: Progress, open: map<Id, set<Id>>, n: Id, b: Parent)
    requires Visited(g0, g, p, open) && n in p.visited && n in g0 && b in ParentsOf(g0[n]) && b.ty.NodeRef? && b.ty.id in g0
    requires n in open && b.ty.id in Seen(g0, g, open[n]) && g0[b.ty.id].Class?
    requires Seen(g0, g, open[n])[b.ty.id].Class? && Seen(g0, g, open[n])[b.ty.id].members != []
    ensures n in g && g[n].Class?
    ensures var at := Seen(g0, g, open[n])[b.ty.id].members[0].bitOffset + b.bitOffset;
            exists m :: m in g[n].members && m.align >= g0[b.ty.id].align && m.bitOffset == at
  {
    hide Visited, FlatNode, Merged;
    BasesVisited(g0, g, p, open, n, b);
    FinishedAt(g0, g, p, open, n);
    FinishedAt(g0, g, p, open, b.ty.id);
    var seen := Seen(g0, g, open[n]);
    var m := Block(seen, b)[0];
    assert m in Block(seen, b);
    MergedHasBlock(seen, g0[n].members, g0[n].parents, b, m);
    FlatMembers(seen, g0[n]);
    FlatAlign(Seen(g0, g, open[b.ty.id]), g0[b.ty.id]);
  }

  lemma FlatMembers(g: Graph, c: Node)
    requires c.Class?
    ensures FlatNode(g, c).Class? && FlatNode(g, c).members == Merged(g, c.members, c.parents)
  {
  }

  lemma FlatAlign(g: Graph, c: Node)
    requires c.Class?
    ensures FlatNode(g, c).Class? && FlatNode(g, c).align == c.align
  {
  }

  lemma {:induction false} MergedHasBlock(g: Graph, ms: seq<Member>, ps: seq<Parent>, b: Parent, m: Member)
    requires b in ps && m in Block(g, b)
    ensures m in Merged(g, ms, ps)
    decreases |ms| + |ps|
  {
    hide Block;
    if ms != [] && ms[0].bitOffset < ps[0].bitOffset {
      MergedHasBlock(g, ms[1..], ps, b, m);
    } else if b != ps[0] {
      MergedHasBlock(g, ms, ps[1..], b, m);
    }
  }

  // ----- a base in progress

  const BASE := Class(Struct, 8, 8, false, [], [], [Member(Leaf(8, 8), "x", 0, 0, 0)], [])
  const MIDDLE := Class(Struct, 16, 8, false, [], [Parent(NodeRef(0), 0)], [Member(Pointer(NodeRef(2)), "c", 64, 0, 0)], [])
  const DERIVED := Class(Struct, 16, 8, false, [], [Parent(NodeRef(1), 0)], [], [])
  const CHAIN: Graph := map[0 := BASE, 1 := MIDDLE, 2 := DERIVED]

  /** The three classes: the one in the middle points to the one derived from it. */
  lemma ChainTypes()
    ensures Covered(AllTypes(BASE), CHAIN.Keys) && Covered(AllTypes(MIDDLE), CHAIN.Keys) && Covered(AllTypes(DERIVED), CHAIN.Keys)
    ensures Pointer(NodeRef(2)) in FirstTypes(MIDDLE)
  {
    assert CHAIN.Keys == {0, 1, 2};
    assert AllTypes(BASE) == [Leaf(8, 8)];
    assert AllTypes(MIDDLE) == [NodeRef(0), Pointer(NodeRef(2))];
    assert AllTypes(DERIVED) == [NodeRef(1)];
    assert FirstTypes(MIDDLE)[1] == Pointer(NodeRef(2));
  }

  lemma ChainClosed()
    ensures Closed(CHAIN) && ReachesEarly(CHAIN, 1, 2) && forall n :: !Broken(CHAIN, n)
  {
    hide AllTypes, FirstTypes, Covered;
    ChainTypes();
    assert CHAIN.Keys == {0, 1, 2} && CHAIN[0] == BASE && CHAIN[1] == MIDDLE && CHAIN[2] == DERIVED;
    var t := Pointer(NodeRef(2));
    assert t in FirstTypes(CHAIN[1]) && Reached(t) == Some(2);
    assert EarlyEdge(CHAIN, 1, 2);
    FirstIsType(CHAIN[1], t);
    EarlyIsEdge(CHAIN, 1, 2);
    ReachesStep(CHAIN, 1, 2);
  }

  lemma FirstIsType(n: Node, t: Ty)
    requires t in FirstTypes(n)
    ensures t in AllTypes(n)
  {
  }

  /** A class with a single base at its start. */
  lemma OneBase(g: Graph, c: Node, b: Id)
    requires c.Class? && c.parents == [Parent(NodeRef(b), 0)] && b in g && g[b].Class?
    ensures FlatNode(g, c).members == Raised(g[b].members, g[b].align) + c.members
  {
    var p := c.parents[0];
    assert Shift(g[b].members, 0) == g[b].members;
    assert Block(g, p) == Raised(g[b].members, g[b].align);
    assert c.parents[1..] == [];
    assert Merged(g, c.members, c.parents[1..]) == c.members;
  }

  /** Run from the class in the middle, the pass loses the first member of the derived class. */
  method RunOnChain() returns (g: Graph)
    ensures g.Keys == {0, 1, 2} && g[1].Class? && g[2].Class?
    ensures g[1].members == [Member(Leaf(8, 8), "x", 0, 0, 8), Member(Pointer(NodeRef(2)), "c", 64, 0, 0)]
    ensures g[2].members == [Member(Pointer(NodeRef(2)), "c", 64, 0, 8)]
  {
    hide Outcome, Closed, Broken, ReachesEarly;
    ChainClosed();
    var f := new Flattener(CHAIN);
    var roots := [NodeRef(1)];
    RootExists(1);
    var ok := f.Run(roots);
    g := f.nodes;
    ChainFlattened(roots, g, f.State(), f.open);
  }

  lemma RootExists(n: Id)
    requires n in CHAIN
    ensures Covered([NodeRef(n)], CHAIN.Keys)
  {
  }

  lemma ChainFlattened(roots: seq<Ty>, g: Graph, p: Progress, open: map<Id, set<Id>>)
    requires roots == [NodeRef(1)] && Outcome(CHAIN, roots, g, p, open)
    ensures g.Keys == {0, 1, 2} && g[1].Class? && g[2].Class?
    ensures g[1].members == [Member(Leaf(8, 8), "x", 0, 0, 8), Member(Pointer(NodeRef(2)), "c", 64, 0, 0)]
    ensures g[2].members == [Member(Pointer(NodeRef(2)), "c", 64, 0, 8)]
  {
    hide Outcome, Visited, ReachesEarly, FlatNode, Merged;
    ChainClosed();
    OutcomeVisited(CHAIN, roots, g, p, open);
    assert Reached(roots[0]) == Some(1) && roots[0] in roots;
    BasesOfChain(g, p, open);
    var seen1, seen2 := Seen(CHAIN, g, open[1]), Seen(CHAIN, g, open[2]);
    OneBase(seen1, MIDDLE, 0);
    OneBase(seen2, DERIVED, 1);
    FlatAlign(seen1, MIDDLE);
    FlatAlign(seen2, DERIVED);
  }

  lemma BasesOfChain(g: Graph, p: Progress, open: map<Id, set<Id>>)
    requires Visited(CHAIN, g, p, open) && 1 in p.visited && EarlyUnder(CHAIN, p, open, 1)
    ensures g.Keys == {0, 1, 2} && 1 in open && 2 in open && 1 in open[2]
    ensures g[1] == FlatNode(Seen(CHAIN, g, open[1]), MIDDLE) && g[2] == FlatNode(Seen(CHAIN, g, open[2]), DERIVED)
    ensures 0 in Seen(CHAIN, g, open[1]) && Seen(CHAIN, g, open[1])[0] == BASE && Seen(CHAIN, g, open[2])[1] == MIDDLE
  {
    hide FlatNode, ReachesEarly, Visited;
    ChainClosed();
    KeysKept(CHAIN, g, p, open);
    FinishedAt(CHAIN, g, p, open, 1);
    FinishedAt(CHAIN, g, p, open, 2);
    var b := Parent(NodeRef(0), 0);
    assert b in ParentsOf(CHAIN[1]);
    BasesVisited(CHAIN, g, p, open, 1, b);
    FinishedAt(CHAIN, g, p, open, 0);
    NoBases(Seen(CHAIN, g, open[0]));
  }

  lemma NoBases(g: Graph)
    ensures FlatNode(g, BASE) == BASE
  {
  }
}
