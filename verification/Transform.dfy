/**
 The passes of `CodeGen::transform` (oi/CodeGen.cpp) that settle the layout of the declared classes: flattening,
 alignment, the removal of members and padding, one after the other on the same graph.
 */
module Transform {
  import opened Machine
  import opened TypeGraph
  import opened Padding
  import opened Layout
  import opened LayoutPasses
  import opened FlattenedOrder
  import F = Flattening
  import I = Inheritance
  import A = Alignment

  // ----- the graph that the debug information gives

  /** Members start on a byte unless they are bit-fields, and so do bases; a union has no bases. */
  ghost predicate ProperClass(c: Node)
  {
    c.Class? ==>
      && c.size * 8 < U64_LIMIT && (forall m :: m in c.members ==> ProperMember(m))
      && (forall b :: b in c.parents ==> b.bitOffset % 8 == 0) && (c.kind == Union ==> c.parents == [])
  }

  /** Inheritance and nesting by value are well-founded, and nothing overlaps in a class. */
  ghost predicate Sound(g0: Graph, rank: map<Id, nat>)
  {
    && Closed(g0) && I.Ranked(g0, rank) && Nested(g0, rank) && AllDisjoint(g0, rank)
    && forall n :: n in g0 ==> ProperClass(g0[n])
  }

  lemma NestedIn(g0: Graph, rank: map<Id, nat>)
    requires Sound(g0, rank)
    ensures Nested(g0, rank) && rank.Keys == g0.Keys
  {
  }

  // ----- where flattened members come from

  lemma {:induction false} MergedFrom(g: Graph, ms: seq<Member>, ps: seq<Parent>, m: Member) returns (b: Option<Parent>)
    requires m in F.Merged(g, ms, ps)
    ensures if b.None? then m in ms else b.value in ps && m in F.Block(g, b.value)
    decreases |ms| + |ps|
  {
    hide F.Block;
    if ps == [] || (ms != [] && m == ms[0]) {
      b := None;
    } else if ms != [] && ms[0].bitOffset < ps[0].bitOffset {
      b := MergedFrom(g, ms[1..], ps, m);
    } else if m in F.Block(g, ps[0]) {
      b := Some(ps[0]);
    } else {
      b := MergedFrom(g, ms, ps[1..], m);
    }
  }

  /** A member, moved by whole bytes. */
  ghost predicate SameKind(m: Member, m0: Member)
  {
    m.ty == m0.ty && m.bitSize == m0.bitSize && m.bitOffset % 8 == m0.bitOffset % 8
  }

  lemma BlockFrom(g: Graph, b: Parent, m: Member) returns (m0: Member)
    requires m in F.Block(g, b) && b.bitOffset % 8 == 0
    ensures b.ty.NodeRef? && b.ty.id in g && m0 in I.Content(g, b.ty.id) && SameKind(m, m0)
  {
    hide F.Block, I.Content;
    var block := F.Block(g, b);
    var i :| 0 <= i < |block| && block[i] == m;
    BlockAt(g, b, i);
    m0 := I.Content(g, b.ty.id)[i];
  }

  lemma BlockAt(g: Graph, b: Parent, i: nat)
    requires i < |F.Block(g, b)| && b.bitOffset % 8 == 0
    ensures b.ty.NodeRef? && b.ty.id in g && i < |I.Content(g, b.ty.id)| && SameKind(F.Block(g, b)[i], I.Content(g, b.ty.id)[i])
  {
  }

  /** A flattened member is a member of the class itself or of one that it is derived from. */
  lemma {:induction false} MemberOrigin(g0: Graph, g: Graph, p: Progress, open: map<Id, set<Id>>, rank: map<Id, nat>,
                                        n: Id, m: Member)
    returns (k: Id, m0: Member)
    requires I.Visited(g0, g, p, open) && Sound(g0, rank) && n in p.visited && n in g0 && n in g && m in I.Content(g, n)
    ensures k in p.visited && k in g0 && m0 in I.Content(g0, k) && SameKind(m, m0) && (k == n || rank[k] < rank[n])
    decreases rank[n]
  {
    hide I.Visited, F.Merged, F.Block, SameKind, AllDisjoint, Nested, F.Seen;
    I.FinishedAt(g0, g, p, open, n);
    k, m0 := n, m;
    var seen := F.Seen(g0, g, open[n]);
    var b: Option<Parent> := None;
    if g0[n].Class? {
      b := MergedFrom(seen, g0[n].members, g0[n].parents, m);
    }
    if b.None? {
      Itself(m);
    } else {
      assert ProperClass(g0[n]);
      m0 := BlockFrom(seen, b.value, m);
      I.BasesVisited(g0, g, p, open, n, b.value);
      k := b.value.ty.id;
      I.SeenContent(g0, g, open[n], k);
      if k !in open[n] {
        var between := m0;
        k, m0 := MemberOrigin(g0, g, p, open, rank, k, m0);
        Between(m, between, m0);
      }
    }
  }

  lemma Itself(m: Member)
    ensures SameKind(m, m)
  {
  }

  lemma Between(m: Member, n: Member, k: Member)
    requires SameKind(m, n) && SameKind(n, k)
    ensures SameKind(m, k)
  {
  }

  /** What holds of a member of class n: it is proper, its type has been visited, and it is of lower rank if nested. */
  ghost predicate GoodMember(visited: set<Id>, rank: map<Id, nat>, n: Id, m: Member)
    requires n in rank
  {
    && ProperMember(m) && Covered([m.ty], visited)
    && (ByValue(m.ty).Some? ==> ByValue(m.ty).value in rank && rank[ByValue(m.ty).value] < rank[n])
  }

  lemma FlattenedMember(g0: Graph, g: Graph, p: Progress, open: map<Id, set<Id>>, rank: map<Id, nat>, n: Id, m: Member)
    requires I.Visited(g0, g, p, open) && Sound(g0, rank) && n in p.visited && n in g0 && n in g && g0[n].Class? && m in I.Content(g, n)
    ensures n in rank && GoodMember(p.visited, rank, n, m)
  {
    hide I.Visited, Sound, SameKind, GoodMember;
    NestedIn(g0, rank);
    var k, m0 := MemberOrigin(g0, g, p, open, rank, n, m);
    GoodOrigin(g0, g, p, open, rank, n, k, m0);
    GoodAlso(p.visited, rank, n, m, m0);
  }

  lemma GoodAlso(visited: set<Id>, rank: map<Id, nat>, n: Id, m: Member, m0: Member)
    requires n in rank && GoodMember(visited, rank, n, m0) && SameKind(m, m0)
    ensures GoodMember(visited, rank, n, m)
  {
  }

  lemma GoodOrigin(g0: Graph, g: Graph, p: Progress, open: map<Id, set<Id>>, rank: map<Id, nat>, n: Id, k: Id,
                   m: Member)
    requires I.Visited(g0, g, p, open) && Sound(g0, rank) && n in rank && n in g0 && g0[n].Class?
    requires k in p.visited && k in g0 && k in rank && m in I.Content(g0, k) && (k == n || rank[k] < rank[n])
    ensures GoodMember(p.visited, rank, n, m)
  {
    hide I.Visited, AllDisjoint, I.Ranked, Closed;
    assert ProperClass(g0[k]);
    if g0[k].Class? {
      OwnVisited(g0, g, p, open, k, m);
    }
  }

  lemma OwnVisited(g0: Graph, g: Graph, p: Progress, open: map<Id, set<Id>>, k: Id, m: Member)
    requires I.Visited(g0, g, p, open) && k in p.visited && k in g0 && g0[k].Class? && m in g0[k].members
    ensures Covered([m.ty], p.visited)
  {
    hide F.FlatSoFar;
    MemberType(g0[k], m);
  }

  lemma MemberType(n: Node, m: Member)
    requires n.Class? && m in n.members
    ensures m.ty in AllTypes(n)
  {
    var i :| 0 <= i < |n.members| && n.members[i] == m;
    assert TypesOfMembers(n.members)[i] == m.ty;
  }

  // ----- the stages

  /** The graph after each pass, with what the passes have visited. */
  datatype Stages = Stages(
    flat: Graph, flattened: Progress, flatOpen: map<Id, set<Id>>,
    aligned: Graph, calculated: Progress, alignOpen: map<Id, set<Id>>,
    removed: Graph, padded: Progress)

  function RemovedNode(n: Node, keep: Member -> bool): Node
  {
    if n.Class? then n.(members := Removed(n, keep)) else n
  }

  function RemovedFrom(g: Graph, keep: (Id, Member) -> bool): Graph
  {
    map n | n in g :: RemovedNode(g[n], m => keep(n, m))
  }

  /** A run of all the passes from some types. */
  ghost predicate Ran(g0: Graph, roots: seq<Ty>, keep: (Id, Member) -> bool, st: Stages, h: Graph)
  {
    && F.Outcome(g0, roots, st.flat, st.flattened, st.flatOpen)
    && A.Outcome(st.flat, roots, st.aligned, st.calculated, st.alignOpen)
    && st.removed == RemovedFrom(st.aligned, keep)
    && st.padded.finished == st.padded.visited && PaddedSoFar(st.removed, h, st.padded) && Covered(roots, st.padded.visited)
    && (forall n :: n in st.padded.visited ==> Covered(Followed(st.removed[n]), st.padded.visited))
    && st.padded.visited <= st.flattened.visited * st.calculated.visited
  }

  /** After a pass, a node is the same but for its alignments, some members and their places. */
  ghost predicate SameOutline(a: Node, b: Node)
  {
    && a.size == b.size && a.params == b.params && a.Class? == b.Class?
    && if a.Class? then a.kind == b.kind && a.children == b.children else a.underlying == b.underlying
  }

  ghost predicate SameOutlines(g: Graph, h: Graph)
  {
    g.Keys == h.Keys && forall n :: n in g ==> SameOutline(g[n], h[n])
  }

  lemma {:induction false} SizesSame(g: Graph, h: Graph, ty: Ty)
    requires SameOutlines(g, h)
    ensures SizeOf(g, ty) == SizeOf(h, ty)
  {
    if ty.Array? {
      SizesSame(g, h, ty.element);
    }
  }

  lemma {:induction false} OrderedSame(g: Graph, h: Graph, start: nat, ms: seq<Member>, end: nat)
    requires SameOutlines(g, h) && Ordered(g, start, ms, end)
    ensures Ordered(h, start, ms, end)
    decreases |ms|
  {
    if ms != [] {
      SizesSame(g, h, ms[0].ty);
      OrderedSame(g, h, EndOf(g, ms[0]), ms[1..], end);
    }
  }

  // ----- after flattening

  lemma FlatOutlines(g0: Graph, g: Graph, p: Progress, open: map<Id, set<Id>>)
    requires I.Visited(g0, g, p, open)
    ensures SameOutlines(g0, g) && p.visited <= g0.Keys && forall n :: n in p.visited && g[n].Class? ==> g[n].parents == []
    ensures forall n :: n in g0 && n !in p.visited ==> g[n] == g0[n]
  {
    hide F.Merged, F.Seen, ReachesEarly, F.FlatAt;
    forall n | n in g0
      ensures SameOutline(g0[n], g[n]) && (n in p.visited && g[n].Class? ==> g[n].parents == [])
    {
      if n in p.visited {
        I.FinishedAt(g0, g, p, open, n);
      }
    }
  }

  /** Nothing that a flattened node refers to has been left out. */
  lemma FlatCovered(g0: Graph, g: Graph, p: Progress, open: map<Id, set<Id>>, rank: map<Id, nat>, n: Id)
    requires I.Visited(g0, g, p, open) && Sound(g0, rank) && n in p.visited && n in g0 && n in g
    ensures Covered(AllTypes(g[n]), p.visited)
  {
    hide Sound, F.FlatSoFar;
    FlatOutlines(g0, g, p, open);
    forall t | t in AllTypes(g[n]) && Reached(t).Some?
      ensures Reached(t).value in p.visited
    {
      if t !in AllTypes(g0[n]) {
        var m := TypeOfMember(g0[n], g[n], t);
        FlattenedMember(g0, g, p, open, rank, n, m);
        assert t in [t];
      }
    }
  }

  /** The only new types are those of members. */
  lemma TypeOfMember(n0: Node, n: Node, t: Ty) returns (m: Member)
    requires SameOutline(n0, n) && t in AllTypes(n) && t !in AllTypes(n0) && (n.Class? ==> n.parents == [])
    ensures n.Class? && m in n.members && m.ty == t
  {
    assert n.Class?;
    assert t !in n.params && t !in n.children;
    var ts := TypesOfMembers(n.members);
    var i :| 0 <= i < |ts| && ts[i] == t;
    m := n.members[i];
  }

  lemma FlatClosed(g0: Graph, g: Graph, p: Progress, open: map<Id, set<Id>>, rank: map<Id, nat>)
    requires I.Visited(g0, g, p, open) && Sound(g0, rank)
    ensures Closed(g)
  {
    hide I.Visited, AllTypes, AllDisjoint, Nested, I.Ranked;
    FlatOutlines(g0, g, p, open);
    forall n | n in g
      ensures Covered(AllTypes(g[n]), g.Keys)
    {
      if n in p.visited {
        FlatCovered(g0, g, p, open, rank, n);
        CoveredMore(AllTypes(g[n]), p.visited, g.Keys);
      }
    }
  }

  // ----- after the alignment pass

  /** A node is the same but for alignments. */
  ghost predicate Aligned(a: Node, b: Node)
  {
    && SameOutline(a, b)
    && (a.Class? ==>
          && a.parents == b.parents && |b.members| == |a.members|
          && forall i :: 0 <= i < |a.members| ==> b.members[i] == a.members[i].(align := b.members[i].align))
  }

  lemma AlignedIs(sees: Ty -> nat, n: Node)
    ensures Aligned(n, A.AlignedNode(sees, n))
  {
    hide A.MaxAlign, A.AllAligned;
  }

  lemma AlignedAll(g: Graph, h: Graph, p: Progress, open: map<Id, set<Id>>)
    requires A.AlignedSoFar(g, h, p, open)
    ensures g.Keys == h.Keys && forall n :: n in g ==> Aligned(g[n], h[n])
  {
    hide A.AlignedNode, Aligned, Reaches, A.Deciding, A.Sees;
    forall n | n in g
      ensures Aligned(g[n], h[n])
    {
      if n in p.finished {
        assert A.FinishedAt(g, h, p, open, n);
        AlignedIs(A.Sees(g, h, open[n]), g[n]);
      } else {
        NothingChanged(g[n]);
      }
    }
  }

  lemma NothingChanged(n: Node)
    ensures Aligned(n, n)
  {
  }

  // ----- after the removal

  /** Some members may be gone, and the others may have other alignments. */
  ghost predicate Fewer(a: Node, c: Node)
  {
    SameOutline(a, c) && (a.Class? ==> c.parents == a.parents && forall m :: m in c.members ==> exists m0 :: m0 in a.members && m == m0.(align := m.align))
  }

  lemma RemovedFewer(a: Node, b: Node, keep: Member -> bool)
    requires Aligned(a, b)
    ensures Fewer(a, RemovedNode(b, keep))
  {
    hide Keep;
    var c := RemovedNode(b, keep);
    if a.Class? {
      forall m | m in c.members
        ensures exists m0 :: m0 in a.members && m == m0.(align := m.align)
      {
        KeptIsMember(b.members, x => keep(x) && x.ty != Incomplete, m);
        var i :| 0 <= i < |b.members| && b.members[i] == m;
        assert a.members[i] in a.members;
      }
    }
  }

  lemma RemovedOrdered(g: Graph, a: Node, b: Node, keep: Member -> bool)
    requires a.Class? && Aligned(a, b) && a.kind == Struct && Ordered(g, 0, a.members, a.size * 8)
    ensures RemovedNode(b, keep).Class? && Ordered(g, 0, RemovedNode(b, keep).members, b.size * 8)
  {
    hide Keep, Ordered;
    AlignedOrdered(g, 0, a.members, b.members, a.size * 8);
    KeepOrdered(g, 0, b.members, b.size * 8, m => keep(m) && m.ty != Incomplete);
  }

  lemma UnionEmptied(b: Node, keep: Member -> bool)
    requires b.Class? && b.kind == Union
    ensures RemovedNode(b, keep).members == []
  {
  }

  lemma RemovedAt(g: Graph, keep: (Id, Member) -> bool, n: Id)
    requires n in g
    ensures n in RemovedFrom(g, keep) && RemovedFrom(g, keep)[n] == RemovedNode(g[n], m => keep(n, m))
  {
  }

  /** The nodes of a graph after the removal. */
  lemma RemovedShape(g: Graph, a: Graph, keep: (Id, Member) -> bool)
    requires g.Keys == a.Keys && forall n :: n in g ==> Aligned(g[n], a[n])
    ensures var r := RemovedFrom(a, keep);
            r.Keys == g.Keys && SameOutlines(g, r) && forall n :: n in g ==> Fewer(g[n], r[n])
  {
    hide Aligned, RemovedNode, SameOutline;
    var r := RemovedFrom(a, keep);
    forall n | n in g
      ensures Fewer(g[n], r[n])
    {
      RemovedAt(a, keep, n);
      RemovedFewer(g[n], a[n], m => keep(n, m));
    }
  }

  lemma FewerTypes(a: Node, c: Node, visited: set<Id>)
    requires Fewer(a, c) && Covered(AllTypes(a), visited) && (a.Class? ==> a.parents == [])
    ensures Covered(Followed(c), visited) && (c.Class? ==> c.parents == [])
  {
    forall t | t in Followed(c) && Reached(t).Some?
      ensures Reached(t).value in visited
    {
      if t !in AllTypes(a) {
        assert c.Class? && t !in c.params && t !in c.children;
        var ts := TypesOfMembers(c.members);
        var i :| 0 <= i < |ts| && ts[i] == t;
        var m := c.members[i];
        var m0 :| m0 in a.members && m == m0.(align := m.align);
        MemberType(a, m0);
      }
    }
  }

  // ----- all together

  /** What is known about the graph that comes to the padding pass. */
  ghost predicate ReadyToPad(g0: Graph, st: Stages)
  {
    && I.Visited(g0, st.flat, st.flattened, st.flatOpen)
    && SameOutlines(g0, st.flat) && SameOutlines(st.flat, st.removed)
    && forall n :: n in st.flat ==> n in st.removed && Fewer(st.flat[n], st.removed[n])
  }

  lemma Ready(g0: Graph, roots: seq<Ty>, keep: (Id, Member) -> bool, st: Stages)
    requires F.Outcome(g0, roots, st.flat, st.flattened, st.flatOpen)
    requires A.AlignedSoFar(st.flat, st.aligned, st.calculated, st.alignOpen) && st.removed == RemovedFrom(st.aligned, keep)
    ensures ReadyToPad(g0, st)
  {
    hide F.FlatSoFar, A.AlignedSoFar, Aligned, Fewer, SameOutline, RemovedFrom;
    I.OutcomeVisited(g0, roots, st.flat, st.flattened, st.flatOpen);
    FlatOutlines(g0, st.flat, st.flattened, st.flatOpen);
    AlignedAll(st.flat, st.aligned, st.calculated, st.alignOpen);
    RemovedShape(st.flat, st.aligned, keep);
  }

  /** The padding pass is given flattened classes, and is not led out of what the other passes have visited. */
  lemma RemovedFlattened(g0: Graph, rank: map<Id, nat>, st: Stages)
    requires Sound(g0, rank) && ReadyToPad(g0, st) && st.calculated.visited <= st.flat.Keys
    requires forall n :: n in st.calculated.visited ==> n in st.flat && Covered(AllTypes(st.flat[n]), st.calculated.visited)
    ensures Flattened(st.removed, st.flattened.visited * st.calculated.visited)
  {
    hide Sound, I.Visited, Fewer, SameOutline;
    FlatOutlines(g0, st.flat, st.flattened, st.flatOpen);
    var region := st.flattened.visited * st.calculated.visited;
    forall n | n in region
      ensures n in st.removed && Covered(Followed(st.removed[n]), region) && (st.removed[n].Class? ==> st.removed[n].parents == [])
    {
      FlatCovered(g0, st.flat, st.flattened, st.flatOpen, rank, n);
      CoveredBoth(AllTypes(st.flat[n]), st.flattened.visited, st.calculated.visited);
      FewerTypes(st.flat[n], st.removed[n], region);
    }
  }

  lemma CoveredBoth(ts: seq<Ty>, v: set<Id>, w: set<Id>)
    requires Covered(ts, v) && Covered(ts, w)
    ensures Covered(ts, v * w)
  {
  }

  /** Classes come to the padding pass with their members in order. */
  lemma RemovedOrderly(g0: Graph, roots: seq<Ty>, keep: (Id, Member) -> bool, rank: map<Id, nat>, st: Stages, h: Graph,
                       n: Id)
    requires Sound(g0, rank) && Ran(g0, roots, keep, st, h) && ReadyToPad(g0, st) && n in st.padded.visited
    ensures n in st.removed && (st.removed[n].Class? ==> Orderly(st.removed, st.removed[n]))
  {
    hide I.Visited, Fewer, Removed, F.Outcome, A.Outcome, AllDisjoint, Nested, I.Ranked, A.AlignedSoFar, Closed;
    FlatOutlines(g0, st.flat, st.flattened, st.flatOpen);
    AlignedFromOutcome(st.flat, roots, st.aligned, st.calculated, st.alignOpen);
    AlignedAll(st.flat, st.aligned, st.calculated, st.alignOpen);
    assert n in st.flattened.visited && n in g0;
    if st.removed[n].Class? {
      RemovedAt(st.aligned, keep, n);
      StaysProper(g0, st, rank, n);
      assert ProperClass(g0[n]);
      if g0[n].kind == Struct {
        FlattenedOrdered(g0, st.flat, st.flattened, st.flatOpen, rank, n);
        RemovedOrdered(g0, st.flat[n], st.aligned[n], m => keep(n, m));
        OutlinesTrans(g0, st.flat, st.removed);
        OrderedSame(g0, st.removed, 0, st.removed[n].members, st.removed[n].size * 8);
      } else {
        UnionEmptied(st.aligned[n], m => keep(n, m));
      }
    }
  }

  lemma AlignedFromOutcome(g: Graph, roots: seq<Ty>, a: Graph, p: Progress, open: map<Id, set<Id>>)
    requires A.Outcome(g, roots, a, p, open)
    ensures A.AlignedSoFar(g, a, p, open) && p.visited <= g.Keys && p.finished == p.visited && Covered(roots, p.visited)
    ensures forall n :: n in p.visited ==> n in g && Covered(AllTypes(g[n]), p.visited)
  {
  }

  lemma OutlinesTrans(a: Graph, b: Graph, c: Graph)
    requires SameOutlines(a, b) && SameOutlines(b, c)
    ensures SameOutlines(a, c)
  {
  }

  /** Where a member that is left comes from. */
  lemma LeftFrom(g0: Graph, st: Stages, rank: map<Id, nat>, n: Id, m: Member) returns (m0: Member)
    requires Sound(g0, rank) && ReadyToPad(g0, st) && n in g0 && n in st.flat && n in st.removed
    requires st.removed[n].Class? && m in st.removed[n].members
    ensures st.flat[n].Class? && g0[n].Class? && m0 in st.flat[n].members && m == m0.(align := m.align)
  {
    hide I.Visited, Sound;
    assert Fewer(st.flat[n], st.removed[n]);
    m0 :| m0 in st.flat[n].members && m == m0.(align := m.align);
  }

  lemma StaysProper(g0: Graph, st: Stages, rank: map<Id, nat>, n: Id)
    requires Sound(g0, rank) && ReadyToPad(g0, st) && n in st.flattened.visited && n in g0 && n in st.flat && n in st.removed
    requires st.removed[n].Class?
    ensures forall m :: m in st.removed[n].members ==> ProperMember(m)
  {
    hide ReadyToPad, Sound, I.Visited;
    forall m | m in st.removed[n].members
      ensures ProperMember(m)
    {
      var m0 := LeftFrom(g0, st, rank, n, m);
      VisitedIn(g0, st);
      FlattenedMember(g0, st.flat, st.flattened, st.flatOpen, rank, n, m0);
    }
  }

  lemma VisitedIn(g0: Graph, st: Stages)
    requires ReadyToPad(g0, st)
    ensures I.Visited(g0, st.flat, st.flattened, st.flatOpen) && SameOutlines(g0, st.flat) && SameOutlines(st.flat, st.removed)
  {
  }

  /** Nesting by value is still well-founded. */
  lemma RemovedNested(g0: Graph, rank: map<Id, nat>, st: Stages)
    requires Sound(g0, rank) && ReadyToPad(g0, st)
    ensures Nested(st.removed, rank)
  {
    hide ReadyToPad, Sound, I.Visited, SameOutline;
    VisitedIn(g0, st);
    NestedIn(g0, rank);
    forall n, m | n in st.removed && st.removed[n].Class? && m in st.removed[n].members && ByValue(m.ty).Some?
      ensures ByValue(m.ty).value in st.removed && rank[ByValue(m.ty).value] < rank[n]
    {
      var m0 := LeftFrom(g0, st, rank, n, m);
      FlatOutlines(g0, st.flat, st.flattened, st.flatOpen);
      if n in st.flattened.visited {
        FlattenedMember(g0, st.flat, st.flattened, st.flatOpen, rank, n, m0);
      }
    }
  }

  lemma PaddedNested(g: Graph, h: Graph, p: Progress, rank: map<Id, nat>)
    requires PaddedSoFar(g, h, p) && Nested(g, rank)
    ensures Nested(h, rank)
  {
    hide Padded, IsPad;
    forall n, m | n in h && h[n].Class? && m in h[n].members && ByValue(m.ty).Some?
      ensures ByValue(m.ty).value in h && rank[ByValue(m.ty).value] < rank[n]
    {
      if n in p.finished {
        PaddedNodeHas(g, g[n], m);
        if IsPad(m) {
          PadByValue(m);
        }
      }
    }
  }

  /**
   What the compiler makes of the classes that the passes leave: all of them keep their recorded sizes and their members'
   recorded offsets, exactly if the gaps of each can be filled and its members sit as they should.
   */
  lemma TransformKeepsLayout(g0: Graph, roots: seq<Ty>, keep: (Id, Member) -> bool, rank: map<Id, nat>, st: Stages,
                             h: Graph, lib: Id -> nat)
    requires Sound(g0, rank) && Ran(g0, roots, keep, st, h)
    ensures Nested(h, rank) && h.Keys == g0.Keys
    ensures forall n :: n in st.padded.visited ==> n in g0 && n in st.removed && n in h && st.removed[n].Class? == h[n].Class? && h[n].size == g0[n].size
    ensures (forall n :: n in st.padded.visited && h[n].Class? ==> KeepsLayoutInC(h, rank, lib, n)) <==>
            (forall n :: n in st.padded.visited && h[n].Class? ==> FilledAndSits(st.removed, h, rank, lib, n))
  {
    hide Sound, F.Outcome, A.Outcome, ReadyToPad, PaddedSoFar, Nested, Orderly, KeepsLayoutInC, FilledAndSits, Followed;
    AlignedFromOutcome(st.flat, roots, st.aligned, st.calculated, st.alignOpen);
    Ready(g0, roots, keep, st);
    RemovedNested(g0, rank, st);
    PaddedNested(st.removed, h, st.padded, rank);
    forall n | n in st.padded.visited
      ensures n in st.removed && Covered(Followed(st.removed[n]), st.padded.visited) && (st.removed[n].Class? ==> Orderly(st.removed, st.removed[n]))
      ensures n in g0 && n in h && h[n].size == g0[n].size
    {
      RemovedOrderly(g0, roots, keep, rank, st, h, n);
      PaddedAt(st.removed, h, st.padded, n);
      SizeStays(g0, st, n);
    }
    PassesKeepLayout(st.removed, h, st.padded, rank, lib);
    KeysStay(g0, st, h);
  }

  lemma SizeStays(g0: Graph, st: Stages, n: Id)
    requires ReadyToPad(g0, st) && n in st.removed
    ensures n in g0 && st.removed[n].size == g0[n].size
  {
    hide I.Visited;
  }

  lemma KeysStay(g0: Graph, st: Stages, h: Graph)
    requires ReadyToPad(g0, st) && PaddedSoFar(st.removed, h, st.padded)
    ensures h.Keys == g0.Keys
  {
    hide I.Visited;
  }

  // ----- when no class leads back to itself by value

  /** Scalars have alignments that are powers of two. */
  ghost predicate PlainType(ty: Ty)
  {
    match ty
    case Leaf(_, align) => IsPowerOfTwo(align)
    case Array(element, _) => element != Incomplete && PlainType(element)
    case _ => true
  }

  /**
   No alignment is given explicitly to a class, and neither its by-value members nor the type that a container is made
   of lead back. The container of the library has an alignment that divides the recorded one.
   */
  ghost predicate PlainNode(f: Graph, a: Graph, lib: Id -> nat, n: Id)
    requires n in f && n in a
  {
    && A.NoWayBack(f, n)
    && match f[n]
       case Container(_, align, _, None) => IsPowerOfTwo(align) && Divides(lib(n), align)
       case Container(_, _, _, Some(ty)) => ty != Incomplete && PlainType(ty) && Divides(lib(n), AlignOf(a, ty))
       case Class(_, _, align, _, _, _, members, _) => align == 0 && forall m :: m in members ==> m.align == 0 && PlainType(m.ty)
  }

  ghost predicate Plain(st: Stages, lib: Id -> nat)
  {
    forall n :: n in st.calculated.visited ==> n in st.flat && n in st.aligned && PlainNode(st.flat, st.aligned, lib, n)
  }

  /** The alignment pass on its own: a graph, what it leaves, and where it has been. */
  ghost predicate PlainRun(f: Graph, a: Graph, p: Progress, open: map<Id, set<Id>>, rank: map<Id, nat>, lib: Id -> nat)
  {
    && A.AlignedSoFar(f, a, p, open) && p.finished == p.visited && Nested(f, rank)
    && (forall n :: n in p.visited ==> n in f && n in a && Covered(AllTypes(f[n]), p.visited) && PlainNode(f, a, lib, n))
  }

  /** All the nodes in `above` lead to the type by value, and it is none of them. */
  ghost predicate Below(f: Graph, above: set<Id>, ty: Ty)
  {
    ByValue(ty).Some? ==> forall x :: x in above ==> x != ByValue(ty).value && Reaches(f, x, ByValue(ty).value)
  }

  lemma StillBelow(f: Graph, above: set<Id>, n: Id, ty: Ty)
    requires n in f && Below(f, above, NodeRef(n)) && A.NoWayBack(f, n) && ty in A.Deciding(f[n])
    ensures Below(f, above + {n}, ty)
  {
    hide Reaches, A.Deciding;
    if ByValue(ty).Some? {
      var d := ByValue(ty).value;
      ByValueIsReached(ty);
      A.DecidingIn(f[n]);
      assert Edge(f, n, d);
      ReachesStep(f, n, d);
      forall x | x in above
        ensures x != d && Reaches(f, x, d)
      {
        assert ByValue(NodeRef(n)) == Some(n);
        ReachesMore(f, x, n, d);
      }
    }
  }

  lemma OneLess(all: set<Id>, above: set<Id>, n: Id)
    requires n in all && n !in above
    ensures |all - (above + {n})| < |all - above|
  {
    Unvisited(all, above, n);
  }

  /** Every alignment that the pass works out is a power of two. */
  lemma {:induction false} PowersOnly(f: Graph, a: Graph, p: Progress, open: map<Id, set<Id>>, rank: map<Id, nat>,
                                      lib: Id -> nat, above: set<Id>, ty: Ty)
    requires PlainRun(f, a, p, open, rank, lib) && PlainType(ty) && ty != Incomplete && Below(f, above, ty)
    requires ByValue(ty).Some? ==> ByValue(ty).value in p.visited
    ensures IsPowerOfTwo(AlignOf(a, ty))
    decreases |p.visited - above|, 1, ty
  {
    hide A.AlignedSoFar, A.NoWayBack, AllTypes, Nested, Reaches;
    match ty
    case Array(element, _) =>
      PowersOnly(f, a, p, open, rank, lib, above, element);
    case NodeRef(n) =>
      assert PlainNode(f, a, lib, n);
      if f[n].Class? {
        LastAligned(f, a, p, open, rank, lib, above, n);
        AlignedClass(a, f[n], a[n]);
      } else {
        ContainerPower(f, a, p, open, rank, lib, above, n);
      }
    case Pointer(_) =>
      EightIsPower();
    case _ =>
  }

  /** A container takes the alignment of what it is made of. */
  lemma {:induction false} ContainerPower(f: Graph, a: Graph, p: Progress, open: map<Id, set<Id>>, rank: map<Id, nat>,
                                          lib: Id -> nat, above: set<Id>, n: Id)
    requires PlainRun(f, a, p, open, rank, lib) && n in p.visited && n in f && n in a && f[n].Container?
    requires Below(f, above, NodeRef(n)) && n !in above
    ensures IsPowerOfTwo(a[n].align) && Divides(lib(n), a[n].align)
    decreases |p.visited - above|, 0
  {
    hide A.AlignedSoFar, A.NoWayBack, Nested, Below, Reaches;
    assert PlainNode(f, a, lib, n);
    if f[n].underlying.None? {
      A.ContainerStays(f, a, p, open, n);
    } else {
      var ty := f[n].underlying.value;
      A.ContainerTakes(f, a, p, open, n);
      assert A.Deciding(f[n])[0] == ty;
      StillBelow(f, above, n, ty);
      OneLess(p.visited, above, n);
      UnderlyingVisited(f, p.visited, n);
      PowersOnly(f, a, p, open, rank, lib, above + {n}, ty);
    }
  }

  lemma UnderlyingVisited(f: Graph, visited: set<Id>, n: Id)
    requires n in f && f[n].Container? && f[n].underlying.Some? && Covered(AllTypes(f[n]), visited)
    ensures ByValue(f[n].underlying.value).Some? ==> ByValue(f[n].underlying.value).value in visited
  {
    assert A.Deciding(f[n])[0] == f[n].underlying.value;
    A.DecidingIn(f[n]);
    if ByValue(f[n].underlying.value).Some? {
      ByValueIsReached(f[n].underlying.value);
    }
  }

  lemma EightIsPower()
    ensures IsPowerOfTwo(POINTER_SIZE)
  {
    assert IsPowerOfTwo(2) && IsPowerOfTwo(4);
  }

  lemma AlignedShape(f: Graph, a: Graph, p: Progress, open: map<Id, set<Id>>, n: Id)
    requires A.AlignedSoFar(f, a, p, open) && n in f
    ensures n in a && a[n].Class? == f[n].Class?
  {
    hide Aligned;
    AlignedAll(f, a, p, open);
    assert SameOutline(f[n], a[n]) by {
      assert Aligned(f[n], a[n]);
      OutlineOf(f[n], a[n]);
    }
  }

  lemma OutlineOf(a: Node, b: Node)
    requires Aligned(a, b)
    ensures SameOutline(a, b)
  {
  }

  /** A class is made from the final alignments, all of them powers of two. */
  lemma {:induction false} LastAligned(f: Graph, a: Graph, p: Progress, open: map<Id, set<Id>>, rank: map<Id, nat>,
                                       lib: Id -> nat, above: set<Id>, n: Id)
    requires PlainRun(f, a, p, open, rank, lib) && n in p.visited && n in f && n in a && f[n].Class?
    requires Below(f, above, NodeRef(n)) && n !in above
    ensures AlignedLast(a, f[n], a[n])
    decreases |p.visited - above|, 0
  {
    hide A.AlignedSoFar, A.NoWayBack, A.AlignedNode, Nested, PlainType, Below, Reaches;
    assert PlainNode(f, a, lib, n);
    A.ResolvedWithoutWayBack(f, a, p, open, n);
    OneLess(p.visited, above, n);
    forall m | m in f[n].members
      ensures KnownType(a, m)
    {
      MemberType(f[n], m);
      if m.ty != Incomplete {
        if ByValue(m.ty).Some? {
          ByValueIsReached(m.ty);
        }
        DecidingMember(f[n], m);
        StillBelow(f, above, n, m.ty);
        PowersOnly(f, a, p, open, rank, lib, above + {n}, m.ty);
      }
    }
  }

  lemma DecidingMember(n: Node, m: Member)
    requires n.Class? && m in n.members
    ensures m.ty in A.Deciding(n)
  {
    var i :| 0 <= i < |n.members| && n.members[i] == m;
    assert A.Deciding(n)[i] == m.ty;
  }

  /** Nesting by value is well-founded when classes have been flattened. */
  lemma FlatNested(g0: Graph, rank: map<Id, nat>, st: Stages)
    requires Sound(g0, rank) && ReadyToPad(g0, st)
    ensures Nested(st.flat, rank)
  {
    hide ReadyToPad, Sound, I.Visited, SameOutline;
    VisitedIn(g0, st);
    NestedIn(g0, rank);
    FlatOutlines(g0, st.flat, st.flattened, st.flatOpen);
    forall n, m | n in st.flat && st.flat[n].Class? && m in st.flat[n].members && ByValue(m.ty).Some?
      ensures ByValue(m.ty).value in st.flat && rank[ByValue(m.ty).value] < rank[n]
    {
      ClassBefore(g0, st.flat, n);
      if n in st.flattened.visited {
        FlattenedMember(g0, st.flat, st.flattened, st.flatOpen, rank, n, m);
      }
    }
  }

  lemma ClassBefore(g0: Graph, g: Graph, n: Id)
    requires SameOutlines(g0, g) && n in g
    ensures n in g0 && g0[n].Class? == g[n].Class?
  {
  }

  lemma {:induction false} AlignsSame(a: Graph, g: Graph, ty: Ty)
    requires a.Keys == g.Keys && forall n :: n in a ==> a[n].align == g[n].align
    ensures AlignOf(a, ty) == AlignOf(g, ty)
  {
    if ty.Array? {
      AlignsSame(a, g, ty.element);
    }
  }

  lemma AlignedLastSame(a: Graph, g: Graph, f: Node, c: Node)
    requires AlignedLast(a, f, c) && a.Keys == g.Keys && forall n :: n in a ==> a[n].align == g[n].align
    ensures AlignedLast(g, f, c)
  {
    hide A.AlignedNode, IsPowerOfTwo, AlignOf;
    forall i | 0 <= i < |A.Deciding(f)|
      ensures A.Aligns(a)(A.Deciding(f)[i]) == A.Aligns(g)(A.Deciding(f)[i])
    {
      AlignsSame(a, g, A.Deciding(f)[i]);
    }
    A.AlignedNodeSame(A.Aligns(a), A.Aligns(g), f);
    forall m | m in f.members
      ensures KnownType(g, m)
    {
      AlignsSame(a, g, m.ty);
    }
  }

  lemma RemovedAligns(a: Graph, keep: (Id, Member) -> bool)
    ensures var g := RemovedFrom(a, keep); g.Keys == a.Keys && forall n :: n in a ==> a[n].align == g[n].align
  {
    hide Removed;
  }

  /** A class that is left was aligned last. */
  lemma LeftAlignedLast(f: Graph, a: Graph, p: Progress, open: map<Id, set<Id>>, rank: map<Id, nat>, lib: Id -> nat,
                        keep: (Id, Member) -> bool, n: Id)
    requires PlainRun(f, a, p, open, rank, lib) && n in p.visited && n in rank
    ensures n in f && n in a && n in RemovedFrom(a, keep) && NodeAlignedLast(f, a, RemovedFrom(a, keep), lib, n)
  {
    hide A.AlignedSoFar, AlignedLast, Nested, Removed, IsPowerOfTwo, A.NoWayBack;
    var g := RemovedFrom(a, keep);
    RemovedAligns(a, keep);
    RemovedAt(a, keep, n);
    AlignedShape(f, a, p, open, n);
    assert PlainNode(f, a, lib, n);
    if f[n].Container? {
      ContainerPower(f, a, p, open, rank, lib, {}, n);
    } else {
      LastAligned(f, a, p, open, rank, lib, {}, n);
      AlignedLastSame(a, g, f[n], a[n]);
      forall m | m in g[n].members
        ensures m in a[n].members && m.ty != Incomplete && AlignOf(g, m.ty) != 0
      {
        RemovedHas(a[n], x => keep(n, x), m);
        AlignsSame(a, g, m.ty);
        KeptHasAlignment(f, a, p, open, rank, lib, n, m);
      }
    }
  }

  lemma RemovedHas(c: Node, keep: Member -> bool, m: Member)
    requires c.Class? && m in Removed(c, keep)
    ensures m in c.members && m.ty != Incomplete
  {
    if c.kind == Struct {
      KeptIsMember(c.members, x => keep(x) && x.ty != Incomplete, m);
    }
  }

  lemma KeptHasAlignment(f: Graph, a: Graph, p: Progress, open: map<Id, set<Id>>, rank: map<Id, nat>, lib: Id -> nat,
                         n: Id, m: Member)
    requires PlainRun(f, a, p, open, rank, lib) && n in p.visited && n in f && n in a && f[n].Class? && a[n].Class?
    requires m in a[n].members && m.ty != Incomplete
    ensures AlignOf(a, m.ty) != 0
  {
    hide A.AlignedSoFar, Nested, A.NoWayBack, AllTypes, AlignOf;
    AlignedAll(f, a, p, open);
    assert Aligned(f[n], a[n]) && PlainNode(f, a, lib, n);
    var i :| 0 <= i < |a[n].members| && a[n].members[i] == m;
    var m0 := f[n].members[i];
    assert m0 in f[n].members && m0.ty == m.ty;
    MemberType(f[n], m0);
    if ByValue(m.ty).Some? {
      ByValueIsReached(m.ty);
    }
    PowersOnly(f, a, p, open, rank, lib, {}, m.ty);
    AlignPositive(AlignOf(a, m.ty));
  }

  /**
   When no by-value member leads back to its class, and no alignment is given explicitly, the compiler's own alignments
   need not be known: a class sits as it should exactly if it is keepable.
   */
  lemma KeepableWithoutWayBack(g0: Graph, roots: seq<Ty>, keep: (Id, Member) -> bool, rank: map<Id, nat>, st: Stages,
                               h: Graph, lib: Id -> nat, n: Id)
    requires Sound(g0, rank) && Ran(g0, roots, keep, st, h) && Plain(st, lib) && n in st.padded.visited && n in h && h[n].Class?
    ensures Nested(h, rank) && (Sits(h, rank, lib, n) <==> Keepable(h[n]))
  {
    hide Sound, F.Outcome, A.Outcome, ReadyToPad, Nested, Orderly, Followed, Keepable, Sits, PlainNode, NodeAlignedLast, PaddedSoFar, RemovedFrom;
    AlignedFromOutcome(st.flat, roots, st.aligned, st.calculated, st.alignOpen);
    Ready(g0, roots, keep, st);
    FlatNested(g0, rank, st);
    RemovedNested(g0, rank, st);
    PaddedNested(st.removed, h, st.padded, rank);
    HasRank(st.flat, rank);
    forall k | k in st.padded.visited
      ensures k in st.removed && Covered(Followed(st.removed[k]), st.padded.visited) && (st.removed[k].Class? ==> Orderly(st.removed, st.removed[k]))
      ensures k in st.flat && k in st.aligned && NodeAlignedLast(st.flat, st.aligned, st.removed, lib, k)
    {
      RemovedOrderly(g0, roots, keep, rank, st, h, k);
      LeftAlignedLast(st.flat, st.aligned, st.calculated, st.alignOpen, rank, lib, keep, k);
    }
    PassesPreserveLayout(st.flat, st.aligned, st.removed, h, st.padded, rank, lib, n);
  }

  /** The passes in turn; not ok if a class cannot be flattened. */
  method Run(g0: Graph, roots: seq<Ty>, keep: (Id, Member) -> bool, ghost rank: map<Id, nat>)
    returns (h: Graph, ok: bool, ghost st: Stages)
    requires Sound(g0, rank) && Covered(roots, g0.Keys)
    ensures ok ==> Ran(g0, roots, keep, st, h)
    ensures (forall n :: n in g0 ==> !F.Broken(g0, n)) ==> ok
  {
    hide Sound, F.Outcome, A.Outcome, PaddedSoFar, F.Broken, RemovedFrom, ReadyToPad, Closed, Flattened;
    SoundIsClosed(g0, rank);
    var flattener := new F.Flattener(g0);
    ok := flattener.Run(roots);
    var flat := flattener.nodes;
    h := flat;
    ghost var p, open := flattener.State(), flattener.open;
    st := Stages(flat, p, open, flat, Progress({}, {}), map[], flat, Progress({}, {}));
    if !ok {
      OnlyInGraph(g0);
      return;
    }
    I.OutcomeVisited(g0, roots, flat, p, open);
    FlatClosed(g0, flat, p, open, rank);
    RootsStay(g0, flat, roots);
    var calc' := new A.AlignmentCalc(flat);
    calc'.Run(roots);
    var aligned := calc'.nodes;
    ghost var q, open' := calc'.State(), calc'.open;
    AlignedFromOutcome(flat, roots, aligned, q, open');
    var removed := RemovedFrom(aligned, keep);
    st := st.(aligned := aligned, calculated := q, alignOpen := open', removed := removed);
    Ready(g0, roots, keep, st);
    RemovedFlattened(g0, rank, st);
    CoveredBoth(roots, p.visited, q.visited);
    var padding := new AddPadding(removed);
    padding.Run(roots, p.visited * q.visited);
    h := padding.nodes;
    st := st.(padded := padding.State());
  }

  lemma SoundIsClosed(g0: Graph, rank: map<Id, nat>)
    requires Sound(g0, rank)
    ensures Closed(g0)
  {
  }

  lemma OnlyInGraph(g0: Graph)
    ensures (forall n :: n in g0 ==> !F.Broken(g0, n)) ==> forall n :: !F.Broken(g0, n)
  {
  }

  lemma RootsStay(g0: Graph, g: Graph, roots: seq<Ty>)
    requires g.Keys == g0.Keys && Covered(roots, g0.Keys)
    ensures Covered(roots, g.Keys)
  {
  }

  // ----- two classes that lead to each other

  const CYCLE_RANK: map<Id, nat> := map[0 := 0, 1 := 1]
  const CYCLE_DECLARED: Graph := map[0 := A.OWNER_ALIGNED, 1 := A.HOLDER_ALIGNED]

  lemma CycleClasses()
    ensures ProperClass(A.OWNER) && ProperClass(A.HOLDER)
    ensures Ordered(A.CYCLE, 0, A.OWNER.members, 128) && Ordered(A.CYCLE, 0, A.HOLDER.members, 144)
    ensures Tiles(CYCLE_DECLARED, 0, A.OWNER_ALIGNED.members, 128) && Tiles(CYCLE_DECLARED, 0, A.HOLDER_ALIGNED.members, 144)
  {
    var a, b := A.OWNER.members, A.HOLDER.members;
    assert a[1..] == [a[1]] && a[1..][1..] == [] && b[1..] == [b[1]] && b[1..][1..] == [];
    var a', b' := A.OWNER_ALIGNED.members, A.HOLDER_ALIGNED.members;
    assert a'[1..] == [a'[1]] && a'[1..][1..] == [] && b'[1..] == [b'[1]] && b'[1..][1..] == [];
  }

  lemma CycleSound()
    ensures Sound(A.CYCLE, CYCLE_RANK)
  {
    hide Ordered, ProperClass, Closed;
    CycleClasses();
    A.CycleClosed();
    assert A.CYCLE.Keys == {0, 1} == CYCLE_RANK.Keys && A.CYCLE[0] == A.OWNER && A.CYCLE[1] == A.HOLDER;
    assert ByValue(A.OWNER.members[0].ty).None? && ByValue(A.OWNER.members[1].ty).None? && ByValue(A.HOLDER.members[0].ty).None?;
    assert Disjoint(A.CYCLE, CYCLE_RANK, 0) && Disjoint(A.CYCLE, CYCLE_RANK, 1);
  }

  lemma CycleFlat(g: Graph, p: Progress, open: map<Id, set<Id>>)
    requires I.Visited(A.CYCLE, g, p, open)
    ensures g == A.CYCLE
  {
    hide I.Visited, A.OWNER, A.HOLDER;
    FlatOutlines(A.CYCLE, g, p, open);
    A.CycleShape();
    forall n | n in A.CYCLE
      ensures g[n] == A.CYCLE[n]
    {
      if n in p.visited {
        I.FinishedAt(A.CYCLE, g, p, open, n);
        WithoutBases(F.Seen(A.CYCLE, g, open[n]), A.CYCLE[n]);
      }
    }
  }

  lemma WithoutBases(g: Graph, c: Node)
    requires c.Class? && c.parents == []
    ensures F.FlatNode(g, c) == c
  {
  }

  lemma {:induction false} KeepAll(ms: seq<Member>, keep: Member -> bool)
    requires forall m :: m in ms ==> keep(m)
    ensures Keep(ms, keep) == ms
  {
    if ms != [] {
      KeepAll(ms[1..], keep);
    }
  }

  lemma NothingRemoved(c: Node, keep: Member -> bool)
    requires c.Class? && c.kind == Struct && forall m :: m in c.members ==> keep(m) && m.ty != Incomplete
    ensures RemovedNode(c, keep) == c
  {
    KeepAll(c.members, m => keep(m) && m.ty != Incomplete);
  }

  lemma NothingPadded(g: Graph, c: Node)
    requires c.Class? && c.kind == Struct && Tiles(g, 0, c.members, c.size * 8)
    ensures PaddedNode(g, c) == c
  {
    PaddingTiledIsSame(g, 0, c.members, c.size * 8);
  }

  lemma CyclePadded(aligned: Graph, keep: (Id, Member) -> bool, h: Graph, p: Progress)
    requires aligned == CYCLE_DECLARED && (forall n, m :: keep(n, m)) && PaddedSoFar(RemovedFrom(aligned, keep), h, p)
    ensures h == CYCLE_DECLARED
  {
    hide Tiles, PaddedNode, RemovedNode;
    var g := RemovedFrom(aligned, keep);
    CycleClasses();
    assert aligned.Keys == {0, 1} && aligned[0] == A.OWNER_ALIGNED && aligned[1] == A.HOLDER_ALIGNED;
    NothingRemoved(aligned[0], m => keep(0, m));
    NothingRemoved(aligned[1], m => keep(1, m));
    RemovedAt(aligned, keep, 0);
    RemovedAt(aligned, keep, 1);
    assert g == CYCLE_DECLARED;
    NothingPadded(g, g[0]);
    NothingPadded(g, g[1]);
  }

  /** Run from the first class and removing nothing, the passes leave the second class with an object of no alignment in it. */
  method RunOnCycle() returns (h: Graph)
    ensures h == CYCLE_DECLARED
  {
    hide Sound, F.Outcome, A.Outcome, PaddedSoFar, CYCLE_DECLARED, F.Broken;
    CycleSound();
    A.RootCovered(A.CYCLE, 0);
    var keep := (n: Id, m: Member) => true;
    var ok;
    ghost var st;
    h, ok, st := Run(A.CYCLE, [NodeRef(0)], keep, CYCLE_RANK);
    CycleUnbroken();
    I.OutcomeVisited(A.CYCLE, [NodeRef(0)], st.flat, st.flattened, st.flatOpen);
    CycleFlat(st.flat, st.flattened, st.flatOpen);
    A.CycleAligned(st.aligned, st.calculated, st.alignOpen);
    CycleDeclared();
    CyclePadded(st.aligned, keep, h, st.padded);
  }

  lemma CycleDeclared()
    ensures CYCLE_DECLARED == map[0 := A.OWNER_ALIGNED, 1 := A.HOLDER_ALIGNED]
  {
  }

  lemma CycleUnbroken()
    ensures forall n :: n in A.CYCLE ==> !F.Broken(A.CYCLE, n)
  {
  }

  lemma TwoFields(packed: bool, a: Field, b: Field)
    requires a.align >= 1 && b.align >= 1
    ensures var fs := [a, b];
            var next := Place(packed, a, 0) + Length(a);
            Typed(fs) && End(packed, fs, 0) == Place(packed, b, next) + Length(b) && LargestAlign(fs) == Max(a.align, b.align)
  {
    hide Place, Length;
    var fs := [a, b];
    assert fs[1..] == [b] && fs[1..][1..] == [];
    var next := Place(packed, a, 0) + Length(a);
    assert End(packed, fs[1..], next) == Place(packed, b, next) + Length(b);
    var largest := LargestAlign(fs);
    assert fs[0].align <= largest && fs[1].align <= largest;
  }

  lemma OwnerInC(lib: Id -> nat)
    requires Nested(CYCLE_DECLARED, CYCLE_RANK)
    ensures SizeOfInC(CYCLE_DECLARED, CYCLE_RANK, lib, NodeRef(0)) == 16 && AlignOfInC(CYCLE_DECLARED, CYCLE_RANK, lib, NodeRef(0)) == 8
  {
    hide LargestAlign, End, Nested;
    var g, c := CYCLE_DECLARED, A.OWNER_ALIGNED;
    assert 0 in g && g[0] == c;
    FieldsAre(g, CYCLE_RANK, lib, 0, c.members);
    var fs := FieldsOf(g, CYCLE_RANK, lib, 0, c.members);
    assert fs == [Field(c.members[0], 8, 8), Field(c.members[1], 8, 8)];
    TwoFields(false, fs[0], fs[1]);
  }

  lemma HolderInC(lib: Id -> nat)
    requires Nested(CYCLE_DECLARED, CYCLE_RANK) && 1 in CYCLE_DECLARED && CYCLE_DECLARED[1] == A.HOLDER_ALIGNED
    ensures SizeInC(CYCLE_DECLARED[1], FieldsOf(CYCLE_DECLARED, CYCLE_RANK, lib, 1, CYCLE_DECLARED[1].members)) == 24
  {
    hide LargestAlign, End, Nested;
    var g, c := CYCLE_DECLARED, A.HOLDER_ALIGNED;
    OwnerInC(lib);
    FieldsAre(g, CYCLE_RANK, lib, 1, c.members);
    var fs := FieldsOf(g, CYCLE_RANK, lib, 1, c.members);
    assert fs == [Field(c.members[0], 2, 2), Field(c.members[1], 16, 8)];
    TwoFields(false, fs[0], fs[1]);
  }

  /** The compiler makes 24 bytes of the second class, and not the 18 that were recorded for it. */
  lemma HolderGrows(lib: Id -> nat)
    ensures Nested(CYCLE_DECLARED, CYCLE_RANK) && 1 in CYCLE_DECLARED && CYCLE_DECLARED[1].size == 18
    ensures SizeOfInC(CYCLE_DECLARED, CYCLE_RANK, lib, NodeRef(1)) == 24
    ensures !KeepsLayoutInC(CYCLE_DECLARED, CYCLE_RANK, lib, 1)
  {
    hide SizeInC, FieldsOf, Nested;
    CycleNested();
    HolderInC(lib);
    SizeOfClass(CYCLE_DECLARED, CYCLE_RANK, lib, 1);
  }

  lemma CycleNested()
    ensures Nested(CYCLE_DECLARED, CYCLE_RANK)
  {
  }
}
