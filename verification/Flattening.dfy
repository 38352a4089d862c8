/** The flattening pass, oi/type_graph/Flattener.cpp: base classes are replaced by their members. */
module Flattening {
  import opened Machine
  import opened TypeGraph

  function Shift(ms: seq<Member>, distance: nat): (r: seq<Member>)
    ensures |r| == |ms| && forall i :: 0 <= i < |ms| ==> r[i] == ms[i].(bitOffset := ms[i].bitOffset + distance)
  {
    seq(|ms|, i requires 0 <= i < |ms| => ms[i].(bitOffset := ms[i].bitOffset + distance))
  }

  /** The first member takes over the alignment of the class it came from. */
  function Raised(ms: seq<Member>, align: nat): seq<Member>
  {
    if ms == [] then [] else [ms[0].(align := Max(ms[0].align, align))] + ms[1..]
  }

  /** The members that stand for a base class, as it is in g. */
  function Block(g: Graph, p: Parent): seq<Member>
  {
    if !p.ty.NodeRef? || p.ty.id !in g then []
    else
      match g[p.ty.id]
      case Class(_, _, align, _, _, _, members, _) => Raised(Shift(members, p.bitOffset), align)
      case Container(_, _, _, _) => [Member(p.ty, PARENT_PREFIX, p.bitOffset, 0, 0)]
  }

  /** A class's own members and those of its bases; at equal offsets the base comes first. */
  function Merged(g: Graph, ms: seq<Member>, ps: seq<Parent>): seq<Member>
    decreases |ms| + |ps|
  {
    if ps == [] then ms
    else if ms != [] && ms[0].bitOffset < ps[0].bitOffset then [ms[0]] + Merged(g, ms[1..], ps)
    else Block(g, ps[0]) + Merged(g, ms, ps[1..])
  }

  predicate ValidParent(p: Parent)
  {
    p.ty.NodeRef? || p.ty.Incomplete?
  }

  /**
   Members that stand for a base class: those of the class, moved to where the base is, of which the first one takes over
   the alignment of the class. A container stands for itself, and an incomplete class for nothing.
   */
  ghost predicate MovedIn(g: Graph, p: Parent, block: seq<Member>)
  {
    if p.ty.NodeRef? && p.ty.id in g then
      match g[p.ty.id]
      case Class(_, _, align, _, _, _, members, _) =>
        && |block| == |members|
        && forall i :: 0 <= i < |members| ==>
             && block[i].ty == members[i].ty && block[i].name == members[i].name && block[i].bitSize == members[i].bitSize
             && block[i].bitOffset == members[i].bitOffset + p.bitOffset
             && block[i].align == if i == 0 && align > members[i].align then align else members[i].align
      case Container(_, _, _, _) => block == [Member(p.ty, "__oi_parent", p.bitOffset, 0, 0)]
    else block == []
  }

  lemma BlockMovesIn(g: Graph, p: Parent)
    ensures MovedIn(g, p, Block(g, p))
  {
    if p.ty.NodeRef? && p.ty.id in g && g[p.ty.id].Class? {
      hide Raised;
      RaisedAt(Shift(g[p.ty.id].members, p.bitOffset), g[p.ty.id].align);
    }
  }

  lemma RaisedAt(ms: seq<Member>, align: nat)
    ensures |Raised(ms, align)| == |ms|
    ensures forall i :: 0 <= i < |ms| ==>
              Raised(ms, align)[i] == ms[i].(align := if i == 0 && align > ms[i].align then align else ms[i].align)
  {
  }

  lemma AfterFront(a: seq<Member>, b: seq<Member>)
    ensures (a + b)[|a|..] == b && (a + b)[..|a|] == a
  {
  }

  // ----- the pass as in the source

  /** `flattenParent`; not ok if it throws. */
  method FlattenParent(g: Graph, parent: Parent, flattened: seq<Member>) returns (r: seq<Member>, ok: bool)
    requires parent.ty.NodeRef? ==> parent.ty.id in g
    ensures ok <==> ValidParent(parent)
    ensures ok ==> r == flattened + Block(g, parent)
    ensures ok ==> MovedIn(g, parent, r[|flattened|..]) && r[..|flattened|] == flattened
  {
    BlockMovesIn(g, parent);
    AfterFront(flattened, Block(g, parent));
    r, ok := flattened, true;
    if parent.ty.NodeRef? {
      var node := g[parent.ty.id];
      if node.Class? {
        ghost var block := Block(g, parent);
        for i := 0 to |node.members|
          invariant |block| == |node.members| && r == flattened + block[..i]
        {
          var member := node.members[i];
          member := member.(bitOffset := member.bitOffset + parent.bitOffset);
          if i == 0 {
            member := member.(align := Max(member.align, node.align));
          }
          assert block[..i + 1] == block[..i] + [block[i]];
          r := r + [member];
        }
        assert block[..|block|] == block;
      } else {
        r := r + [Member(parent.ty, PARENT_PREFIX, parent.bitOffset, 0, 0)];
      }
    } else if parent.ty.Incomplete? {
      assert flattened + [] == flattened;
    } else {
      ok := false;
    }
  }

  lemma Regroup(a: seq<Member>, b: seq<Member>, c: seq<Member>)
    ensures a + (b + c) == (a + b) + c
  {
  }

  lemma MergedOwn(g: Graph, ms: seq<Member>, ps: seq<Parent>, i: nat, j: nat, done: seq<Member>)
    requires i < |ms| && j <= |ps| && (j < |ps| ==> ms[i].bitOffset < ps[j].bitOffset)
    ensures done + Merged(g, ms[i..], ps[j..]) == (done + [ms[i]]) + Merged(g, ms[i + 1..], ps[j..])
  {
    assert ms[i..][0] == ms[i] && ms[i..][1..] == ms[i + 1..];
    assert [ms[i]] + ms[i + 1..] == ms[i..];
    Regroup(done, [ms[i]], Merged(g, ms[i + 1..], ps[j..]));
  }

  lemma MergedBlock(g: Graph, ms: seq<Member>, ps: seq<Parent>, i: nat, j: nat, done: seq<Member>)
    requires i <= |ms| && j < |ps| && (i < |ms| ==> ms[i].bitOffset >= ps[j].bitOffset)
    ensures done + Merged(g, ms[i..], ps[j..]) == (done + Block(g, ps[j])) + Merged(g, ms[i..], ps[j + 1..])
  {
    hide Block;
    assert ps[j..][0] == ps[j] && ps[j..][1..] == ps[j + 1..];
    Regroup(done, Block(g, ps[j]), Merged(g, ms[i..], ps[j + 1..]));
  }

  /** The two-index merge of `visit(Class)`. */
  method Merge(g: Graph, ms: seq<Member>, ps: seq<Parent>) returns (flattened: seq<Member>, ok: bool)
    requires forall j :: 0 <= j < |ps| && ps[j].ty.NodeRef? ==> ps[j].ty.id in g
    ensures ok <==> forall j :: 0 <= j < |ps| ==> ValidParent(ps[j])
    ensures ok ==> flattened == Merged(g, ms, ps)
  {
    hide Block, Merged, ValidParent;
    flattened := [];
    var memberIdx, parentIdx := 0, 0;
    assert ms[0..] == ms && ps[0..] == ps;
    while memberIdx < |ms| && parentIdx < |ps|
      invariant memberIdx <= |ms| && parentIdx <= |ps|
      invariant forall j :: 0 <= j < parentIdx ==> ValidParent(ps[j])
      invariant flattened + Merged(g, ms[memberIdx..], ps[parentIdx..]) == Merged(g, ms, ps)
      decreases |ms| - memberIdx + |ps| - parentIdx
    {
      if ms[memberIdx].bitOffset < ps[parentIdx].bitOffset {
        MergedOwn(g, ms, ps, memberIdx, parentIdx, flattened);
        flattened := flattened + [ms[memberIdx]];
        memberIdx := memberIdx + 1;
      } else {
        MergedBlock(g, ms, ps, memberIdx, parentIdx, flattened);
        flattened, ok := FlattenParent(g, ps[parentIdx], flattened);
        if !ok {
          return;
        }
        parentIdx := parentIdx + 1;
      }
    }
    while memberIdx < |ms|
      invariant memberIdx <= |ms| && parentIdx <= |ps| && (memberIdx < |ms| ==> parentIdx == |ps|)
      invariant flattened + Merged(g, ms[memberIdx..], ps[parentIdx..]) == Merged(g, ms, ps)
    {
      MergedOwn(g, ms, ps, memberIdx, parentIdx, flattened);
      flattened := flattened + [ms[memberIdx]];
      memberIdx := memberIdx + 1;
    }
    while parentIdx < |ps|
      invariant memberIdx == |ms| && parentIdx <= |ps|
      invariant forall j :: 0 <= j < parentIdx ==> ValidParent(ps[j])
      invariant flattened + Merged(g, ms[memberIdx..], ps[parentIdx..]) == Merged(g, ms, ps)
    {
      MergedBlock(g, ms, ps, memberIdx, parentIdx, flattened);
      flattened, ok := FlattenParent(g, ps[parentIdx], flattened);
      if !ok {
        return;
      }
      parentIdx := parentIdx + 1;
    }
    MergedDone(g, ms, ps, flattened);
    ok := true;
  }

  lemma MergedDone(g: Graph, ms: seq<Member>, ps: seq<Parent>, done: seq<Member>)
    ensures done + Merged(g, ms[|ms|..], ps[|ps|..]) == done
  {
  }

  // ----- what the pass does to the graph

  function ParentsOf(n: Node): seq<Parent>
  {
    if n.Class? then n.parents else []
  }

  /** What the pass makes of a node, given its bases as they are in g. */
  function FlatNode(g: Graph, n: Node): Node
  {
    if n.Class? then n.(parents := [], members := Merged(g, n.members, n.parents)) else n
  }

  /** The graph as it was while the nodes in `open` were still in progress, and so unchanged. */
  function Seen(g0: Graph, g: Graph, open: set<Id>): Graph
    requires g.Keys == g0.Keys
  {
    map n | n in g :: if n in open then g0[n] else g[n]
  }

  /**
   Nodes not finished are unchanged. A finished class has no bases, and its members include those that its bases had
   at the time; a base in open[n] was in progress and did not have those of its own bases yet.
   */
  ghost predicate FlatSoFar(g0: Graph, g: Graph, p: Progress, open: map<Id, set<Id>>)
  {
    && g.Keys == g0.Keys && p.finished <= p.visited <= g0.Keys
    && (forall n :: n in g0 && n !in p.finished ==> g[n] == g0[n])
    && (forall n :: n in p.finished ==> n in open && FlatAt(g0, g, p, open, n))
  }

  ghost predicate FlatAt(g0: Graph, g: Graph, p: Progress, open: map<Id, set<Id>>, n: Id)
    requires n in g0 && g.Keys == g0.Keys && n in open
  {
    && g[n] == FlatNode(Seen(g0, g, open[n]), g0[n])
    && (forall b :: b in ParentsOf(g0[n]) ==> ValidParent(b) && (b.ty.NodeRef? ==> b.ty.id in g0 && (b.ty.id in open[n] || b.ty.id in p.finished)))
    && (forall x :: x in open[n] ==> x == n || ReachesEarly(g0, x, n))
  }

  lemma BlockSame(g: Graph, h: Graph, p: Parent)
    requires p.ty.NodeRef? ==> p.ty.id in g && p.ty.id in h && g[p.ty.id] == h[p.ty.id]
    ensures Block(g, p) == Block(h, p)
  {
  }

  lemma {:induction false} MergedSame(g: Graph, h: Graph, ms: seq<Member>, ps: seq<Parent>)
    requires forall p :: p in ps ==> Block(g, p) == Block(h, p)
    ensures Merged(g, ms, ps) == Merged(h, ms, ps)
    decreases |ms| + |ps|
  {
    hide Block;
    if ps != [] {
      if ms != [] && ms[0].bitOffset < ps[0].bitOffset {
        MergedSame(g, h, ms[1..], ps);
      } else {
        MergedSame(g, h, ms, ps[1..]);
      }
    }
  }

  lemma FlatNodeSame(g: Graph, h: Graph, n: Node)
    requires forall p :: p in ParentsOf(n) && p.ty.NodeRef? ==> p.ty.id in g && p.ty.id in h && g[p.ty.id] == h[p.ty.id]
    ensures FlatNode(g, n) == FlatNode(h, n)
  {
    if n.Class? {
      forall p | p in n.parents
        ensures Block(g, p) == Block(h, p)
      {
        BlockSame(g, h, p);
      }
      MergedSame(g, h, n.members, n.parents);
    }
  }

  /** Everything in progress leads to `id`, or is it. */
  ghost predicate AllLeadTo(g0: Graph, p: Progress, id: Id)
  {
    forall x :: x in p.visited && x !in p.finished ==> x == id || ReachesEarly(g0, x, id)
  }

  ghost predicate LeadsTo(g0: Graph, p: Progress, ty: Ty)
  {
    Reached(ty).Some? ==> AllLeadTo(g0, p, Reached(ty).value)
  }

  ghost predicate LeadsToAll(g0: Graph, p: Progress, ts: seq<Ty>)
  {
    forall t :: t in ts ==> LeadsTo(g0, p, t)
  }

  lemma LeadsToStays(g0: Graph, p: Progress, q: Progress, ts: seq<Ty>)
    requires LeadsToAll(g0, p, ts) && Grew(AllFollowed(g0), p, q)
    ensures LeadsToAll(g0, q, ts)
  {
    forall t | t in ts
      ensures LeadsTo(g0, q, t)
    {
      assert LeadsTo(g0, p, t);
    }
  }

  /** From a node to the types visited first, while it is in progress itself. */
  lemma LeadsFirst(g0: Graph, p: Progress, id: Id)
    requires id in g0 && id !in p.visited && AllLeadTo(g0, p, id)
    ensures LeadsToAll(g0, p.(visited := p.visited + {id}), FirstTypes(g0[id]))
  {
    forall t | t in FirstTypes(g0[id]) && Reached(t).Some?
      ensures AllLeadTo(g0, p.(visited := p.visited + {id}), Reached(t).value)
    {
      var d := Reached(t).value;
      assert EarlyEdge(g0, id, d);
      EarlyIsEdge(g0, id, d);
      ReachesStep(g0, id, d);
      forall x | x in p.visited && x !in p.finished
        ensures x == d || ReachesEarly(g0, x, d)
      {
        if x != d {
          ReachesEarlyMore(g0, x, id, d);
        }
      }
    }
  }

  /** From a node to the types visited last, when it is done itself. */
  lemma LeadsLast(g0: Graph, p: Progress, id: Id)
    requires id in g0 && id in p.finished && AllLeadTo(g0, p, id)
    ensures LeadsToAll(g0, p, LastTypes(g0[id]))
  {
    forall t | t in LastTypes(g0[id]) && Reached(t).Some?
      ensures AllLeadTo(g0, p, Reached(t).value)
    {
      var d := Reached(t).value;
      assert Edge(g0, id, d);
      forall x | x in p.visited && x !in p.finished
        ensures x == d || ReachesEarly(g0, x, d)
      {
        if x != d {
          ReachesEarlyMore(g0, x, id, d);
        }
      }
    }
  }

  lemma LeadsAfter(g0: Graph, p: Progress, r: Progress, id: Id)
    requires id !in p.visited && AllLeadTo(g0, p, id) && p.finished <= p.visited
    requires Grew(AllFollowed(g0), p.(visited := p.visited + {id}), r)
    ensures AllLeadTo(g0, r, id) && AllLeadTo(g0, r.(finished := r.finished + {id}), id)
    ensures id in r.visited && id !in r.finished
  {
  }

  lemma ParentIsFirst(n: Node, b: Parent)
    requires b in ParentsOf(n)
    ensures b.ty in FirstTypes(n) && (b.ty.NodeRef? ==> Reached(b.ty) == Some(b.ty.id))
  {
    var i :| 0 <= i < |n.parents| && n.parents[i] == b;
    assert TypesOfParents(n.parents)[i] == b.ty;
    assert b.ty in n.params + TypesOfParents(n.parents);
  }

  lemma ParentsVisited(g0: Graph, id: Id, visited: set<Id>)
    requires id in g0 && Covered(FirstTypes(g0[id]), visited)
    ensures forall b :: b in ParentsOf(g0[id]) && b.ty.NodeRef? ==> b.ty.id in visited
  {
    forall b | b in ParentsOf(g0[id]) && b.ty.NodeRef?
      ensures b.ty.id in visited
    {
      ParentIsFirst(g0[id], b);
    }
  }

  /** One more node is finished, while the nodes visited but not finished are in progress. */
  lemma FlatMore(g0: Graph, g: Graph, p: Progress, open: map<Id, set<Id>>, id: Id, r: Node)
    requires FlatSoFar(g0, g, p, open) && id in p.visited && id !in p.finished && AllLeadTo(g0, p, id)
    requires r == FlatNode(g, g0[id])
    requires forall b :: b in ParentsOf(g0[id]) ==> ValidParent(b) && (b.ty.NodeRef? ==> b.ty.id in p.visited)
    ensures FlatSoFar(g0, g[id := r], p.(finished := p.finished + {id}), open[id := p.visited - p.finished])
  {
    hide FlatNode, ValidParent, ReachesEarly;
    var h, q, open' := g[id := r], p.(finished := p.finished + {id}), open[id := p.visited - p.finished];
    forall n | n in q.finished
      ensures n in open' && FlatAt(g0, h, q, open', n)
    {
      if n == id {
        FlatItself(g0, g, p, open, id, r);
      } else {
        OthersStay(g0, g, p, open, id, r, n);
      }
    }
  }

  lemma FlatItself(g0: Graph, g: Graph, p: Progress, open: map<Id, set<Id>>, id: Id, r: Node)
    requires FlatSoFar(g0, g, p, open) && id in p.visited && id !in p.finished && AllLeadTo(g0, p, id)
    requires r == FlatNode(g, g0[id])
    requires forall b :: b in ParentsOf(g0[id]) ==> ValidParent(b) && (b.ty.NodeRef? ==> b.ty.id in p.visited)
    ensures FlatAt(g0, g[id := r], p.(finished := p.finished + {id}), open[id := p.visited - p.finished], id)
  {
    hide FlatNode, ValidParent, ReachesEarly;
    var gray := p.visited - p.finished;
    FlatNodeSame(g, Seen(g0, g[id := r], gray), g0[id]);
  }

  lemma OthersStay(g0: Graph, g: Graph, p: Progress, open: map<Id, set<Id>>, id: Id, r: Node, n: Id)
    requires FlatSoFar(g0, g, p, open) && id in p.visited && id !in p.finished && n in p.finished
    ensures n in open && FlatAt(g0, g[id := r], p.(finished := p.finished + {id}), open[id := p.visited - p.finished], n)
  {
    hide FlatNode, ValidParent, ReachesEarly;
    assert FlatAt(g0, g, p, open, n);
    FlatNodeSame(Seen(g0, g, open[n]), Seen(g0, g[id := r], open[n]), g0[n]);
  }

  lemma NotDone(g0: Graph, g: Graph, p: Progress, open: map<Id, set<Id>>, id: Id)
    requires FlatSoFar(g0, g, p, open) && id in g0 && id !in p.visited
    ensures id in g && g[id] == g0[id] && p.finished <= p.visited
    ensures FlatSoFar(g0, g, p.(visited := p.visited + {id}), open)
  {
    hide FlatNode, ReachesEarly, Seen;
    var q := p.(visited := p.visited + {id});
    forall n | n in q.finished
      ensures n in open && FlatAt(g0, g, q, open, n)
    {
      assert FlatAt(g0, g, p, open, n);
    }
  }

  lemma OneOf(g0: Graph, p: Progress, ts: seq<Ty>, i: nat)
    requires i < |ts| && LeadsToAll(g0, p, ts) && Covered(ts, g0.Keys)
    ensures LeadsTo(g0, p, ts[i]) && Covered([ts[i]], g0.Keys)
  {
    assert ts[i] in ts;
  }

  lemma ClosedHere(g0: Graph, id: Id)
    requires Closed(g0) && id in g0
    ensures Covered(FirstTypes(g0[id]), g0.Keys) && Covered(LastTypes(g0[id]), g0.Keys)
    ensures forall j :: 0 <= j < |ParentsOf(g0[id])| && ParentsOf(g0[id])[j].ty.NodeRef? ==> ParentsOf(g0[id])[j].ty.id in g0
  {
    forall j | 0 <= j < |ParentsOf(g0[id])| && ParentsOf(g0[id])[j].ty.NodeRef?
      ensures ParentsOf(g0[id])[j].ty.id in g0
    {
      ParentIsFirst(g0[id], ParentsOf(g0[id])[j]);
    }
  }

  /** A class that cannot be flattened. */
  ghost predicate Broken(g0: Graph, n: Id)
  {
    n in g0 && exists b :: b in ParentsOf(g0[n]) && !ValidParent(b)
  }

  // ----- the node that the pass is started at

  /** A node is in progress when those are finished that it leads to before it is changed. */
  ghost predicate EarlyUnder(g0: Graph, q: Progress, open: map<Id, set<Id>>, id: Id)
  {
    forall m :: ReachesEarly(g0, id, m) ==> m in q.finished && m in open && id in open[m]
  }

  /** With nothing visited before it, a node is in progress until all that it leads to early has been finished. */
  lemma EarlyFinished(g0: Graph, p: Progress, r: Progress, open: map<Id, set<Id>>, id: Id)
    requires p.visited == {} && p.finished == {} && id in g0 && Covered(FirstTypes(g0[id]), r.visited)
    requires Grew(AllFollowed(g0), p.(visited := p.visited + {id}), r) && StayedOpen(p.(visited := p.visited + {id}), r, open)
    requires forall n :: n in r.finished ==> n in open
    ensures EarlyUnder(g0, r, open, id)
  {
    forall m | ReachesEarly(g0, id, m)
      ensures m in r.finished && m in open && id in open[m]
    {
      var path :| IsEarlyPath(g0, path) && path[0] == id && path[|path| - 1] == m;
      EarlyPathFinished(g0, p, r, path, |path| - 1);
    }
  }

  lemma {:induction false} EarlyPathFinished(g0: Graph, p: Progress, r: Progress, path: seq<Id>, i: nat)
    requires IsEarlyPath(g0, path) && path[0] in g0 && Covered(FirstTypes(g0[path[0]]), r.visited) && 0 < i < |path|
    requires p.visited == {} && p.finished == {} && Grew(AllFollowed(g0), p.(visited := p.visited + {path[0]}), r)
    ensures path[i] in r.finished
  {
    if i > 1 {
      EarlyPathFinished(g0, p, r, path, i - 1);
      assert Edge(g0, path[i - 1], path[i]);
      assert Covered(AllTypes(g0[path[i - 1]]), r.visited);
    }
  }

  lemma EarlyKept(g0: Graph, q: Progress, r: Progress, open: map<Id, set<Id>>, open': map<Id, set<Id>>, id: Id)
    requires EarlyUnder(g0, q, open, id) && OpenGrew(q, open, open') && q.finished <= r.finished
    ensures EarlyUnder(g0, r, open', id)
  {
  }

  /** What the pass leaves when it has been run from some types and has not thrown. */
  ghost predicate Outcome(g0: Graph, roots: seq<Ty>, g: Graph, p: Progress, open: map<Id, set<Id>>)
  {
    && p.finished == p.visited && FlatSoFar(g0, g, p, open) && Covered(roots, p.visited)
    && (forall n :: n in p.visited ==> Covered(AllTypes(g0[n]), p.visited))
    && (roots != [] && Reached(roots[0]).Some? ==> EarlyUnder(g0, p, open, Reached(roots[0]).value))
  }

  lemma AllOpen(g0: Graph, g: Graph, p: Progress, open: map<Id, set<Id>>)
    requires FlatSoFar(g0, g, p, open)
    ensures forall n :: n in p.finished ==> n in open
  {
  }

  lemma OpenAfter(p: Progress, r: Progress, before: map<Id, set<Id>>, between: map<Id, set<Id>>, id: Id,
                  follow: map<Id, seq<Ty>>)
    requires id !in p.visited && p.finished <= p.visited && Grew(follow, p.(visited := p.visited + {id}), r)
    requires StayedOpen(p.(visited := p.visited + {id}), r, between) && OpenGrew(p.(visited := p.visited + {id}), before, between)
    requires forall n :: n in r.finished ==> n in between
    ensures var open := between[id := r.visited - r.finished];
            StayedOpen(p, r.(finished := r.finished + {id}), open) && OpenGrew(p, before, open) && OpenGrew(r, between, open)
  {
  }

  /** A node is entered at p and finished at r, with all that it leads to first; the rest is visited by s. */
  lemma AllAround(g0: Graph, id: Id, p: Progress, r: Progress, s: Progress, between: map<Id, set<Id>>,
                  after: map<Id, set<Id>>)
    requires id in g0 && id !in p.visited && p.finished <= p.visited && id !in r.finished
    requires Grew(AllFollowed(g0), p.(visited := p.visited + {id}), r)
    requires Grew(AllFollowed(g0), r.(finished := r.finished + {id}), s)
    requires StayedOpen(p, r.(finished := r.finished + {id}), between)
    requires StayedOpen(r.(finished := r.finished + {id}), s, after) && OpenGrew(r.(finished := r.finished + {id}), between, after)
    requires forall n :: n in r.finished + {id} ==> n in between
    requires Covered(FirstTypes(g0[id]), r.visited) && Covered(LastTypes(g0[id]), s.visited)
    ensures Grew(AllFollowed(g0), p, s) && StayedOpen(p, s, after)
  {
    hide FirstTypes, LastTypes;
    GrewSets(AllFollowed(g0), r.(finished := r.finished + {id}), s);
    CoveredMore(FirstTypes(g0[id]), r.visited, s.visited);
    CoveredConcat(FirstTypes(g0[id]), LastTypes(g0[id]), s.visited);
    hide Covered;
    GrewAround(AllFollowed(g0), id, p, r, s);
    StayedAround(AllFollowed(g0), id, p, r, s, between, after);
  }

  lemma StayedAround(follow: map<Id, seq<Ty>>, id: Id, p: Progress, r: Progress, s: Progress,
                     between: map<Id, set<Id>>, after: map<Id, set<Id>>)
    requires id !in p.visited && p.finished <= p.visited && Grew(follow, p.(visited := p.visited + {id}), r)
    requires Grew(follow, r.(finished := r.finished + {id}), s)
    requires StayedOpen(p, r.(finished := r.finished + {id}), between)
    requires StayedOpen(r.(finished := r.finished + {id}), s, after) && OpenGrew(r.(finished := r.finished + {id}), between, after)
    requires forall n :: n in r.finished + {id} ==> n in between
    ensures StayedOpen(p, s, after)
  {
    hide Covered;
  }

  class Flattener {
    var nodes: Graph
    var visited: set<Id>
    ghost var finished: set<Id>
    ghost var open: map<Id, set<Id>>

    constructor (g: Graph)
      ensures nodes == g && visited == {} && finished == {} && open == map[]
    {
      nodes, visited, finished, open := g, {}, {}, map[];
    }

    ghost function State(): Progress
      reads this
    {
      Progress(visited, finished)
    }

    /** Either everything has been done since p, or a class that cannot be flattened was visited. */
    ghost predicate Continued(g0: Graph, p: Progress, before: map<Id, set<Id>>, ok: bool)
      reads this
    {
      if ok then
        && FlatSoFar(g0, nodes, State(), open) && Grew(AllFollowed(g0), p, State())
        && StayedOpen(p, State(), open) && OpenGrew(p, before, open)
      else exists n :: n in visited && Broken(g0, n)
    }

    lemma NothingDone(g0: Graph)
      requires FlatSoFar(g0, nodes, State(), open)
      ensures Continued(g0, State(), open, true)
    {
    }

    lemma MoreDone(g0: Graph, p: Progress, q: Progress, before: map<Id, set<Id>>, between: map<Id, set<Id>>)
      requires Grew(AllFollowed(g0), p, q) && StayedOpen(p, q, between) && OpenGrew(p, before, between)
      requires forall n :: n in q.finished ==> n in between
      requires Continued(g0, q, between, true)
      ensures Continued(g0, p, before, true)
    {
      hide FlatSoFar;
      GrewMore(AllFollowed(g0), p, q, State());
      StayedOpenMore(p, q, State(), between, open, AllFollowed(g0));
      OpenGrewMore(p, q, before, between, open);
    }

    /** The pass from its root types. */
    method Run(roots: seq<Ty>) returns (ok: bool)
      requires visited == {} && finished == {} && open == map[]
      requires Closed(nodes) && Covered(roots, nodes.Keys)
      modifies this
      ensures ok ==> Outcome(old(nodes), roots, nodes, State(), open)
      ensures ok <==> forall n :: n in visited ==> !Broken(old(nodes), n)
    {
      ghost var g0 := nodes;
      ok := AcceptAll(roots, nodes);
      if ok {
        NoneBroken(g0, nodes, State(), open);
      }
    }

    method Accept(ty: Ty, ghost g0: Graph) returns (ok: bool)
      requires Closed(g0) && FlatSoFar(g0, nodes, State(), open) && LeadsTo(g0, State(), ty)
      requires Covered([ty], g0.Keys)
      modifies this
      ensures Continued(g0, old(State()), old(open), ok)
      ensures ok ==> Covered([ty], visited)
      ensures ok && old(visited) == {} && Reached(ty).Some? ==> EarlyUnder(g0, State(), open, Reached(ty).value)
      decreases |g0.Keys - visited|, 2, 0
    {
      hide FlatSoFar, Closed, Grew, Broken, StayedOpen, OpenGrew, EarlyUnder;
      ok := true;
      NothingDone(g0);
      var id := Reached(ty);
      assert ty in [ty];
      if id.None? || id.value in visited {
        return;
      }
      Unvisited(g0.Keys, visited, id.value);
      NotDone(g0, nodes, State(), open, id.value);
      ghost var p := State();
      visited := visited + {id.value};
      ok := Visit(id.value, g0, p);
    }

    method AcceptAll(ts: seq<Ty>, ghost g0: Graph) returns (ok: bool)
      requires Closed(g0) && FlatSoFar(g0, nodes, State(), open) && LeadsToAll(g0, State(), ts)
      requires Covered(ts, g0.Keys)
      modifies this
      ensures Continued(g0, old(State()), old(open), ok)
      ensures ok ==> Covered(ts, visited)
      ensures ok && old(visited) == {} && ts != [] && Reached(ts[0]).Some? ==> EarlyUnder(g0, State(), open, Reached(ts[0]).value)
      decreases |g0.Keys - visited|, 3, 0
    {
      hide FlatSoFar, Closed, Grew, LeadsToAll, Broken, StayedOpen, OpenGrew, EarlyUnder;
      ok := true;
      NothingDone(g0);
      for i := 0 to |ts|
        invariant ok && Continued(g0, old(State()), old(open), true)
        invariant Covered(ts[..i], visited)
        invariant i == 0 ==> State() == old(State())
        invariant i > 0 && old(visited) == {} && Reached(ts[0]).Some? ==> EarlyUnder(g0, State(), open, Reached(ts[0]).value)
      {
        ghost var q, before := State(), open;
        GrewSets(AllFollowed(g0), old(State()), q);
        Shrinks(g0.Keys, old(visited), visited);
        LeadsToStays(g0, old(State()), q, ts);
        OneOf(g0, q, ts, i);
        AllOpen(g0, nodes, q, open);
        ok := Accept(ts[i], g0);
        if !ok {
          return;
        }
        GrewSets(AllFollowed(g0), q, State());
        assert ts[i] in [ts[i]];
        CoveredLoop(ts, i, q.visited, visited);
        if i > 0 && old(visited) == {} && Reached(ts[0]).Some? {
          EarlyKept(g0, q, State(), before, open, Reached(ts[0]).value);
        }
        MoreDone(g0, old(State()), q, old(open), before);
      }
      assert ts[..|ts|] == ts;
    }

    /** `visit`, for a node that has just been marked as visited. */
    method Visit(id: Id, ghost g0: Graph, ghost p: Progress) returns (ok: bool)
      requires Closed(g0) && FlatSoFar(g0, nodes, State(), open) && AllLeadTo(g0, p, id)
      requires id in g0 && id !in p.visited && State() == p.(visited := p.visited + {id}) && p.finished <= p.visited
      requires id in nodes && nodes[id] == g0[id]
      modifies this
      ensures Continued(g0, p, old(open), ok)
      ensures ok ==> id in visited
      ensures ok && p.visited == {} ==> EarlyUnder(g0, State(), open, id)
      decreases |g0.Keys - visited|, 4, 0
    {
      hide FlatSoFar, Closed, Grew, AllLeadTo, LeadsToAll, FirstTypes, LastTypes, Merged, StayedOpen, OpenGrew, EarlyUnder, Broken;
      var node := nodes[id];
      ClosedHere(g0, id);
      LeadsFirst(g0, p, id);
      ghost var q, before := State(), open;
      ok := AcceptAll(FirstTypes(node), g0);
      if !ok {
        return;
      }
      ghost var r, between := State(), open;
      AllOpen(g0, nodes, r, open);
      LeadsAfter(g0, p, r, id);
      ParentsVisited(g0, id, visited);
      ok := FlattenNode(id, g0);
      if !ok {
        return;
      }
      ghost var merged := open;
      OpenAfter(p, r, before, between, id, AllFollowed(g0));
      if p.visited == {} {
        EarlyFinished(g0, p, r, between, id);
        EarlyKept(g0, r, State(), between, open, id);
      }
      AllOpen(g0, nodes, State(), open);
      GrewSets(AllFollowed(g0), q, r);
      Shrinks(g0.Keys, q.visited, visited);
      LeadsLast(g0, State(), id);
      ghost var s := State();
      ok := AcceptAll(LastTypes(node), g0);
      if !ok {
        return;
      }
      AllAround(g0, id, p, r, State(), merged, open);
      GrewSets(AllFollowed(g0), s, State());
      if p.visited == {} {
        EarlyKept(g0, s, State(), merged, open, id);
      }
      OpenGrewMore(p, s, before, merged, open);
    }

    /** Replaces the bases of one class by their members. */
    method FlattenNode(id: Id, ghost g0: Graph) returns (ok: bool)
      requires FlatSoFar(g0, nodes, State(), open) && id in visited && id !in finished && id in g0 && AllLeadTo(g0, State(), id)
      requires forall j :: 0 <= j < |ParentsOf(g0[id])| && ParentsOf(g0[id])[j].ty.NodeRef? ==> ParentsOf(g0[id])[j].ty.id in g0
      requires forall b :: b in ParentsOf(g0[id]) && b.ty.NodeRef? ==> b.ty.id in visited
      modifies this`nodes, this`finished, this`open
      ensures ok ==> FlatSoFar(g0, nodes, State(), open) && finished == old(finished) + {id}
      ensures ok ==> open == old(open)[id := visited - old(finished)]
      ensures !ok ==> Broken(g0, id)
    {
      hide Merged, ValidParent, FlatAt, AllLeadTo;
      ok := true;
      var node := nodes[id];
      assert node == g0[id];
      var flat := node;
      if node.Class? {
        var flattened;
        flattened, ok := Merge(nodes, node.members, node.parents);
        if !ok {
          var j :| 0 <= j < |node.parents| && !ValidParent(node.parents[j]);
          assert node.parents[j] in ParentsOf(g0[id]);
          return;
        }
        flat := node.(parents := [], members := flattened);
      }
      FlatMore(g0, nodes, State(), open, id, flat);
      nodes := nodes[id := flat];
      open := open[id := visited - finished];
      finished := finished + {id};
    }
  }

  lemma NoneBroken(g0: Graph, g: Graph, p: Progress, open: map<Id, set<Id>>)
    requires FlatSoFar(g0, g, p, open) && p.finished == p.visited
    ensures forall n :: n in p.visited ==> !Broken(g0, n)
  {
    hide ValidParent, FlatNode, ReachesEarly;
    forall n | n in p.visited
      ensures !Broken(g0, n)
    {
      assert FlatAt(g0, g, p, open, n);
    }
  }
}
