/** Flattened members follow one another without overlapping. */
module FlattenedOrder {
  import opened Machine
  import opened TypeGraph
  import opened Flattening
  import opened Inheritance
  import opened Padding

  /** Where the last of some members ends. */
  function LastEnd(g: Graph, ms: seq<Member>): nat
  {
    if ms == [] then 0 else Max(EndOf(g, ms[0]), LastEnd(g, ms[1..]))
  }

  lemma {:induction false} LastEndConcat(g: Graph, a: seq<Member>, b: seq<Member>)
    ensures LastEnd(g, a + b) == Max(LastEnd(g, a), LastEnd(g, b))
    decreases |a|
  {
    hide EndOf;
    if a == [] {
      assert a + b == b;
    } else {
      assert (a + b)[1..] == a[1..] + b;
      LastEndConcat(g, a[1..], b);
    }
  }

  lemma {:induction false} OrderedTight(g: Graph, start: nat, ms: seq<Member>, end: nat)
    requires Ordered(g, start, ms, end) && ms != []
    ensures start <= LastEnd(g, ms) <= end < U64_LIMIT && Ordered(g, start, ms, LastEnd(g, ms))
    decreases |ms|
  {
    if |ms| > 1 {
      OrderedTight(g, EndOf(g, ms[0]), ms[1..], end);
      assert LastEnd(g, ms) == LastEnd(g, ms[1..]);
    } else {
      assert ms[1..] == [];
    }
  }

  lemma {:induction false} OrderedConcat(g: Graph, start: nat, a: seq<Member>, mid: nat, b: seq<Member>, end: nat)
    requires Ordered(g, start, a, mid) && Ordered(g, mid, b, end)
    ensures Ordered(g, start, a + b, end)
    decreases |a|
  {
    if a == [] {
      assert a + b == b;
      OrderedEarlier(g, start, mid, b, end);
    } else {
      assert (a + b)[1..] == a[1..] + b;
      OrderedConcat(g, EndOf(g, a[0]), a[1..], mid, b, end);
    }
  }

  /** Members moved by a distance; alignments play no part. */
  ghost predicate Moved(ms: seq<Member>, moved: seq<Member>, distance: nat)
  {
    |moved| == |ms| && forall i :: 0 <= i < |ms| ==>
      moved[i].ty == ms[i].ty && moved[i].bitSize == ms[i].bitSize && moved[i].bitOffset == ms[i].bitOffset + distance
  }

  lemma {:induction false} MovedOrdered(g: Graph, start: nat, ms: seq<Member>, end: nat, moved: seq<Member>,
                                        distance: nat)
    requires Ordered(g, start, ms, end) && Moved(ms, moved, distance) && end + distance < U64_LIMIT
    ensures start <= end && Ordered(g, start + distance, moved, end + distance)
    ensures LastEnd(g, moved) == if ms == [] then 0 else LastEnd(g, ms) + distance
    decreases |ms|
  {
    if ms != [] {
      assert EndOf(g, moved[0]) == EndOf(g, ms[0]) + distance;
      MovedOrdered(g, EndOf(g, ms[0]), ms[1..], end, moved[1..], distance);
    }
  }

  /** How far the members of a class and of its bases extend from its start. */
  ghost function Extent(g: Graph, rank: map<Id, nat>, n: Id): nat
    requires Ranked(g, rank) && n in g
    decreases rank[n], |ParentsOf(g[n])| + 1
  {
    Max(LastEnd(g, Content(g, n)), BasesExtent(g, rank, n, ParentsOf(g[n])))
  }

  ghost function BasesExtent(g: Graph, rank: map<Id, nat>, n: Id, ps: seq<Parent>): nat
    requires Ranked(g, rank) && n in g && forall p :: p in ps ==> p in ParentsOf(g[n])
    decreases rank[n], |ps|
  {
    if ps == [] then 0
    else
      assert ps[0] in ps;
      Max(BaseEnd(g, rank, n, ps[0]), BasesExtent(g, rank, n, ps[1..]))
  }

  /** Where the members of a base end, if it has any. */
  ghost function BaseEnd(g: Graph, rank: map<Id, nat>, n: Id, p: Parent): nat
    requires Ranked(g, rank) && n in g && p in ParentsOf(g[n])
    decreases rank[n], 0
  {
    if p.ty.NodeRef? && Total(g, rank, p.ty.id) > 0 then p.bitOffset + Extent(g, rank, p.ty.id) else 0
  }

  lemma {:induction false} ExtentHas(g: Graph, rank: map<Id, nat>, n: Id, ps: seq<Parent>, b: Parent)
    requires Ranked(g, rank) && n in g && (forall p :: p in ps ==> p in ParentsOf(g[n])) && b in ps
    ensures BasesExtent(g, rank, n, ps) >= BaseEnd(g, rank, n, b)
    decreases |ps|
  {
    hide BaseEnd;
    if b != ps[0] {
      ExtentHas(g, rank, n, ps[1..], b);
    }
  }

  ghost predicate HasMembers(g: Graph, rank: map<Id, nat>, n: Id, p: Parent)
    requires Ranked(g, rank) && n in g && p in ParentsOf(g[n])
  {
    TotalOf(g, rank, n, p) > 0
  }

  /** A member lies before all the members of a base, or after them. */
  ghost predicate ClearOf(g: Graph, rank: map<Id, nat>, n: Id, m: Member, p: Parent)
    requires Ranked(g, rank) && n in g && p in ParentsOf(g[n])
  {
    (m.bitOffset < p.bitOffset && EndOf(g, m) <= p.bitOffset) || BaseEnd(g, rank, n, p) <= m.bitOffset
  }

  /**
   The class's own members follow one another, and so do its bases, as far as they have members; no member lies
   between those of a base. Members may use up what a base leaves at its end.
   */
  ghost predicate Disjoint(g: Graph, rank: map<Id, nat>, n: Id)
    requires Ranked(g, rank) && n in g && g[n].Class?
  {
    var ms, ps := g[n].members, g[n].parents;
    && Ordered(g, 0, ms, g[n].size * 8)
    && (forall i, j :: 0 <= i < j < |ps| ==> ps[i].bitOffset <= ps[j].bitOffset)
    && (forall p :: p in ps && HasMembers(g, rank, n, p) ==>
          && BaseEnd(g, rank, n, p) <= g[n].size * 8
          && (g[p.ty.id].Class? ==> g[p.ty.id].kind == Struct)
          && forall m :: m in ms ==> ClearOf(g, rank, n, m, p))
    && (forall i, j :: 0 <= i < j < |ps| && HasMembers(g, rank, n, ps[i]) && HasMembers(g, rank, n, ps[j]) ==>
          BaseEnd(g, rank, n, ps[i]) <= ps[j].bitOffset)
  }

  ghost predicate AllDisjoint(g: Graph, rank: map<Id, nat>)
    requires Ranked(g, rank)
  {
    forall n :: n in g && g[n].Class? && g[n].kind == Struct ==> Disjoint(g, rank, n)
  }

  /** Own members, and blocks to be merged with them from a position on, that do not overlap. */
  ghost predicate Mergeable(g0: Graph, g: Graph, ms: seq<Member>, ps: seq<Parent>, lo: nat, hi: nat)
  {
    && Ordered(g0, lo, ms, hi)
    && (forall i, j :: 0 <= i < j < |ps| ==> ps[i].bitOffset <= ps[j].bitOffset)
    && (forall i :: 0 <= i < |ps| && Block(g, ps[i]) != [] ==> BlockFits(g0, g, ms, ps[i], lo, hi))
    && (forall i, j :: 0 <= i < j < |ps| && Block(g, ps[i]) != [] && Block(g, ps[j]) != [] ==>
          LastEnd(g0, Block(g, ps[i])) <= ps[j].bitOffset)
  }

  ghost predicate BlockFits(g0: Graph, g: Graph, ms: seq<Member>, p: Parent, lo: nat, hi: nat)
  {
    var block := Block(g, p);
    && lo <= p.bitOffset && Ordered(g0, p.bitOffset, block, LastEnd(g0, block)) && LastEnd(g0, block) <= hi
    && forall m :: m in ms ==> (m.bitOffset < p.bitOffset && EndOf(g0, m) <= p.bitOffset) || LastEnd(g0, block) <= m.bitOffset
  }

  lemma {:induction false} MergedOrdered(g0: Graph, g: Graph, ms: seq<Member>, ps: seq<Parent>, lo: nat, hi: nat)
    requires Mergeable(g0, g, ms, ps, lo, hi)
    ensures Ordered(g0, lo, Merged(g, ms, ps), hi)
    decreases |ms| + |ps|
  {
    hide Block, Mergeable;
    if ps == [] {
      NoBlocks(g0, g, ms, lo, hi);
    } else if ms != [] && ms[0].bitOffset < ps[0].bitOffset {
      TailMergeable(g0, g, ms, ps, lo, hi);
      MergedOrdered(g0, g, ms[1..], ps, EndOf(g0, ms[0]), hi);
      assert ([ms[0]] + Merged(g, ms[1..], ps))[1..] == Merged(g, ms[1..], ps);
    } else if Block(g, ps[0]) == [] {
      BasesMergeable(g0, g, ms, ps, lo, hi);
      MergedOrdered(g0, g, ms, ps[1..], lo, hi);
      assert [] + Merged(g, ms, ps[1..]) == Merged(g, ms, ps[1..]);
    } else {
      var block := Block(g, ps[0]);
      BlockMergeable(g0, g, ms, ps, lo, hi);
      MergedOrdered(g0, g, ms, ps[1..], LastEnd(g0, block), hi);
      OrderedConcat(g0, ps[0].bitOffset, block, LastEnd(g0, block), Merged(g, ms, ps[1..]), hi);
      OrderedEarlier(g0, lo, ps[0].bitOffset, Merged(g, ms, ps), hi);
    }
  }

  lemma NoBlocks(g0: Graph, g: Graph, ms: seq<Member>, lo: nat, hi: nat)
    requires Mergeable(g0, g, ms, [], lo, hi)
    ensures Ordered(g0, lo, ms, hi)
  {
  }

  /** The first own member comes first. */
  lemma TailMergeable(g0: Graph, g: Graph, ms: seq<Member>, ps: seq<Parent>, lo: nat, hi: nat)
    requires Mergeable(g0, g, ms, ps, lo, hi) && ps != [] && ms != [] && ms[0].bitOffset < ps[0].bitOffset
    ensures lo <= ms[0].bitOffset < U64_LIMIT && Mergeable(g0, g, ms[1..], ps, EndOf(g0, ms[0]), hi)
  {
    hide Block, EndOf, LastEnd;
    forall i | 0 <= i < |ps| && Block(g, ps[i]) != []
      ensures BlockFits(g0, g, ms[1..], ps[i], EndOf(g0, ms[0]), hi)
    {
      assert BlockFits(g0, g, ms, ps[i], lo, hi);
      BlockAfter(g0, g, ms, ps[i], lo, hi);
      assert ps[0].bitOffset <= ps[i].bitOffset;
    }
  }

  lemma BlockAfter(g0: Graph, g: Graph, ms: seq<Member>, p: Parent, lo: nat, hi: nat)
    requires BlockFits(g0, g, ms, p, lo, hi) && ms != [] && ms[0].bitOffset < p.bitOffset && Block(g, p) != []
    ensures EndOf(g0, ms[0]) <= p.bitOffset
  {
    hide Block, EndOf;
    OrderedTight(g0, p.bitOffset, Block(g, p), LastEnd(g0, Block(g, p)));
    assert ms[0] in ms;
  }

  /** A base without members is passed over. */
  lemma BasesMergeable(g0: Graph, g: Graph, ms: seq<Member>, ps: seq<Parent>, lo: nat, hi: nat)
    requires Mergeable(g0, g, ms, ps, lo, hi) && ps != []
    ensures Mergeable(g0, g, ms, ps[1..], lo, hi)
  {
    hide Block, LastEnd, BlockFits;
  }

  /** The first base comes first. */
  lemma BlockMergeable(g0: Graph, g: Graph, ms: seq<Member>, ps: seq<Parent>, lo: nat, hi: nat)
    requires Mergeable(g0, g, ms, ps, lo, hi) && ps != [] && Block(g, ps[0]) != []
    requires ms != [] ==> ms[0].bitOffset >= ps[0].bitOffset
    ensures BlockFits(g0, g, ms, ps[0], lo, hi) && Mergeable(g0, g, ms, ps[1..], LastEnd(g0, Block(g, ps[0])), hi)
  {
    hide Block, LastEnd;
    var block := Block(g, ps[0]);
    assert BlockFits(g0, g, ms, ps[0], lo, hi);
    OrderedTight(g0, ps[0].bitOffset, block, LastEnd(g0, block));
    if ms == [] {
      OrderedLimit(g0, lo, ms, hi);
    } else {
      assert ms[0] in ms;
    }
    forall i | 0 <= i < |ps[1..]| && Block(g, ps[1..][i]) != []
      ensures BlockFits(g0, g, ms, ps[1..][i], LastEnd(g0, block), hi)
    {
      assert BlockFits(g0, g, ms, ps[i + 1], lo, hi);
    }
  }

  lemma {:induction false} OrderedLimit(g: Graph, start: nat, ms: seq<Member>, end: nat)
    requires Ordered(g, start, ms, end)
    ensures start <= end < U64_LIMIT
    decreases |ms|
  {
    if ms != [] {
      OrderedLimit(g, EndOf(g, ms[0]), ms[1..], end);
    }
  }

  lemma {:induction false} MergedEnd(g0: Graph, g: Graph, ms: seq<Member>, ps: seq<Parent>, bound: nat)
    requires LastEnd(g0, ms) <= bound && forall p :: p in ps ==> LastEnd(g0, Block(g, p)) <= bound
    ensures LastEnd(g0, Merged(g, ms, ps)) <= bound
    decreases |ms| + |ps|
  {
    hide Block, EndOf;
    if ps == [] {
    } else if ms != [] && ms[0].bitOffset < ps[0].bitOffset {
      MergedEnd(g0, g, ms[1..], ps, bound);
      assert ([ms[0]] + Merged(g, ms[1..], ps))[1..] == Merged(g, ms[1..], ps);
    } else {
      MergedEnd(g0, g, ms, ps[1..], bound);
      LastEndConcat(g0, Block(g, ps[0]), Merged(g, ms, ps[1..]));
    }
  }

  /**
   A flattened class has no bases, and its members follow one another without overlapping, up to the end of the class;
   so they do too if a base was taken early.
   */
  lemma {:induction false} FlattenedOrdered(g0: Graph, g: Graph, p: Progress, open: map<Id, set<Id>>,
                                            rank: map<Id, nat>, n: Id)
    requires Visited(g0, g, p, open) && Ranked(g0, rank) && AllDisjoint(g0, rank) && n in p.visited && n in g0 && g.Keys == g0.Keys
    requires g0[n].Class? && g0[n].kind == Struct
    ensures g[n].Class? && g[n].parents == [] && Ordered(g0, 0, g[n].members, g0[n].size * 8)
    ensures LastEnd(g0, g[n].members) <= Extent(g0, rank, n)
    decreases rank[n], |g0[n].parents| + 1
  {
    hide Visited, AllDisjoint, Merged, Mergeable, HasMembers, BasesExtent, Seen;
    FinishedAt(g0, g, p, open, n);
    DisjointAt(g0, rank, n);
    var seen, ps, hi := Seen(g0, g, open[n]), g0[n].parents, g0[n].size * 8;
    forall b | b in ps
      ensures BlockWithin(g0, seen, rank, n, b) && LastEnd(g0, Block(seen, b)) <= Extent(g0, rank, n)
    {
      BaseWithin(g0, g, p, open, rank, n, b);
      ExtentHas(g0, rank, n, ps, b);
      WithinExtent(g0, seen, rank, n, b, Extent(g0, rank, n));
    }
    MembersMergeable(g0, seen, rank, n);
    MergedOrdered(g0, seen, g0[n].members, ps, 0, hi);
    MergedEnd(g0, seen, g0[n].members, ps, Extent(g0, rank, n));
  }

  lemma DisjointAt(g0: Graph, rank: map<Id, nat>, n: Id)
    requires Ranked(g0, rank) && AllDisjoint(g0, rank) && n in g0 && g0[n].Class? && g0[n].kind == Struct
    ensures Disjoint(g0, rank, n) && g0[n].size * 8 < U64_LIMIT
  {
    hide BaseEnd;
    OrderedLimit(g0, 0, g0[n].members, g0[n].size * 8);
  }

  /** The members that a base contributes follow one another, and end where they should at the latest. */
  ghost predicate BlockWithin(g0: Graph, g: Graph, rank: map<Id, nat>, n: Id, b: Parent)
    requires Ranked(g0, rank) && n in g0 && b in ParentsOf(g0[n])
  {
    var block := Block(g, b);
    block != [] ==>
      && HasMembers(g0, rank, n, b) && LastEnd(g0, block) <= BaseEnd(g0, rank, n, b)
      && Ordered(g0, b.bitOffset, block, LastEnd(g0, block))
  }

  lemma WithinExtent(g0: Graph, g: Graph, rank: map<Id, nat>, n: Id, b: Parent, bound: nat)
    requires Ranked(g0, rank) && n in g0 && b in ParentsOf(g0[n]) && BlockWithin(g0, g, rank, n, b) && BaseEnd(g0, rank, n, b) <= bound
    ensures LastEnd(g0, Block(g, b)) <= bound
  {
    hide Block, BaseEnd, HasMembers;
  }

  lemma MembersMergeable(g0: Graph, g: Graph, rank: map<Id, nat>, n: Id)
    requires Ranked(g0, rank) && n in g0 && g0[n].Class? && Disjoint(g0, rank, n)
    requires forall b :: b in g0[n].parents ==> BlockWithin(g0, g, rank, n, b)
    ensures Mergeable(g0, g, g0[n].members, g0[n].parents, 0, g0[n].size * 8)
  {
    hide Block, BaseEnd, HasMembers, LastEnd, EndOf, Ranked;
    var ps := g0[n].parents;
    forall i | 0 <= i < |ps| && Block(g, ps[i]) != []
      ensures BlockFits(g0, g, g0[n].members, ps[i], 0, g0[n].size * 8)
      ensures HasMembers(g0, rank, n, ps[i]) && LastEnd(g0, Block(g, ps[i])) <= BaseEnd(g0, rank, n, ps[i])
    {
      assert ps[i] in ps && BlockWithin(g0, g, rank, n, ps[i]);
      forall m | m in g0[n].members
        ensures (m.bitOffset < ps[i].bitOffset && EndOf(g0, m) <= ps[i].bitOffset) || LastEnd(g0, Block(g, ps[i])) <= m.bitOffset
      {
        assert ClearOf(g0, rank, n, m, ps[i]);
      }
    }
  }

  lemma {:induction false} BaseWithin(g0: Graph, g: Graph, p: Progress, open: map<Id, set<Id>>, rank: map<Id, nat>,
                                      n: Id, b: Parent)
    requires Visited(g0, g, p, open) && Ranked(g0, rank) && AllDisjoint(g0, rank) && n in p.visited && n in g0 && g.Keys == g0.Keys
    requires n in open && g0[n].Class? && g0[n].kind == Struct && b in g0[n].parents
    ensures BlockWithin(g0, Seen(g0, g, open[n]), rank, n, b)
    decreases rank[n], 0
  {
    hide Visited, AllDisjoint, Content, Inherited, FlatAt, Block, Raised, Seen, BasesExtent, Total;
    var seen := Seen(g0, g, open[n]);
    if Block(seen, b) != [] {
      BlockAtMost(g0, g, p, open, rank, n, b);
      BasesVisited(g0, g, p, open, n, b);
      DisjointAt(g0, rank, n);
      BlockSize(seen, b);
      var d := b.ty.id;
      SeenNode(g0, g, open[n], d);
      ContentExtent(g0, rank, d);
      if g0[d].Class? {
        if d in open[n] {
          DisjointAt(g0, rank, d);
        } else {
          FlattenedOrdered(g0, g, p, open, rank, d);
        }
        ClassBlock(g0, seen, rank, n, b);
      } else {
        ContainerSame(g0, g, p, open, d);
        ContainerBlock(g0, seen, rank, n, b);
      }
    }
  }

  lemma SeenNode(g0: Graph, g: Graph, open: set<Id>, d: Id)
    requires g.Keys == g0.Keys && d in g
    ensures d in Seen(g0, g, open) && Seen(g0, g, open)[d] == if d in open then g0[d] else g[d]
  {
  }

  lemma ContentExtent(g0: Graph, rank: map<Id, nat>, d: Id)
    requires Ranked(g0, rank) && d in g0
    ensures LastEnd(g0, Content(g0, d)) <= Extent(g0, rank, d)
    ensures g0[d].Class? ==> Content(g0, d) == g0[d].members
  {
  }

  lemma ContainerSame(g0: Graph, g: Graph, p: Progress, open: map<Id, set<Id>>, d: Id)
    requires Visited(g0, g, p, open) && d in p.visited && d in g0 && g0[d].Container?
    ensures d in g && g[d] == g0[d]
  {
    FinishedAt(g0, g, p, open, d);
  }

  lemma ClassBlock(g0: Graph, g: Graph, rank: map<Id, nat>, n: Id, b: Parent)
    requires Ranked(g0, rank) && n in g0 && b in ParentsOf(g0[n]) && b.ty.NodeRef? && b.ty.id in g && g[b.ty.id].Class?
    requires Block(g, b) != [] && HasMembers(g0, rank, n, b) && BaseEnd(g0, rank, n, b) < U64_LIMIT
    requires Ordered(g0, 0, g[b.ty.id].members, g0[b.ty.id].size * 8) && LastEnd(g0, g[b.ty.id].members) <= Extent(g0, rank, b.ty.id)
    ensures BlockWithin(g0, g, rank, n, b)
  {
    hide Extent, Total, LastEnd;
    var ms := g[b.ty.id].members;
    OrderedTight(g0, 0, ms, g0[b.ty.id].size * 8);
    MovedOrdered(g0, 0, ms, LastEnd(g0, ms), Block(g, b), b.bitOffset);
  }

  lemma ContainerBlock(g0: Graph, g: Graph, rank: map<Id, nat>, n: Id, b: Parent)
    requires Ranked(g0, rank) && n in g0 && b in ParentsOf(g0[n]) && b.ty.NodeRef? && b.ty.id in g && g[b.ty.id].Container?
    requires g0[b.ty.id].Container? && HasMembers(g0, rank, n, b) && BaseEnd(g0, rank, n, b) < U64_LIMIT
    requires LastEnd(g0, Content(g0, b.ty.id)) <= Extent(g0, rank, b.ty.id)
    ensures BlockWithin(g0, g, rank, n, b)
  {
    hide Extent, Total;
    var d := b.ty.id;
    var block := Block(g, b);
    assert b.ty == NodeRef(d) && block == [Member(b.ty, PARENT_PREFIX, b.bitOffset, 0, 0)] && block[1..] == [];
    assert Content(g0, d)[1..] == [];
    assert LastEnd(g0, block) == EndOf(g0, block[0]) == b.bitOffset + LastEnd(g0, Content(g0, d));
    assert BaseEnd(g0, rank, n, b) == b.bitOffset + Extent(g0, rank, d);
    assert Ordered(g0, EndOf(g0, block[0]), block[1..], LastEnd(g0, block));
  }
}
