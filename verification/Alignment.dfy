/** The alignment pass, oi/type_graph/AlignmentCalc.cpp. */
module Alignment {
  import opened Machine
  import opened TypeGraph

  /** The member's own alignment, or else that of its type as `sees` shows it. */
  function SeenAlign(sees: Ty -> nat, m: Member): nat
  {
    if m.align == 0 then sees(m.ty) else m.align
  }

  function WithAligns(sees: Ty -> nat, ms: seq<Member>): (r: seq<Member>)
    ensures |r| == |ms| && forall i :: 0 <= i < |ms| ==> r[i] == ms[i].(align := SeenAlign(sees, ms[i]))
  {
    if ms == [] then [] else [ms[0].(align := SeenAlign(sees, ms[0]))] + WithAligns(sees, ms[1..])
  }

  function MaxAlign(ms: seq<Member>): (a: nat)
    ensures a >= 1 && forall i :: 0 <= i < |ms| ==> a >= ms[i].align
    ensures a == 1 || exists i :: 0 <= i < |ms| && a == ms[i].align
  {
    if ms == [] then 1
    else
      var rest := MaxAlign(ms[1..]);
      assert forall i :: 0 < i < |ms| ==> ms[i] == ms[1..][i - 1];
      Max(rest, ms[0].align)
  }

  predicate IsAligned(m: Member)
  {
    m.align == 0 || m.bitOffset / 8 % m.align == 0
  }

  predicate AllAligned(ms: seq<Member>)
  {
    forall i :: 0 <= i < |ms| ==> IsAligned(ms[i])
  }

  /** What the pass makes of a node, given the alignments that it sees. */
  function AlignedNode(sees: Ty -> nat, n: Node): Node
  {
    if n.Container? then (if n.underlying.Some? then n.(align := sees(n.underlying.value)) else n)
    else
      var c := if n.align != 0 then n
               else
                 var ms := WithAligns(sees, n.members);
                 n.(members := ms, align := MaxAlign(ms), packed := n.packed || !AllAligned(ms));
      c.(packed := c.packed || c.align == 1 || c.size % c.align != 0)
  }

  /** The types whose alignments decide that of a node. */
  function Deciding(n: Node): seq<Ty>
  {
    if n.Class? then TypesOfMembers(n.members) else if n.underlying.Some? then [n.underlying.value] else []
  }

  lemma {:induction false} WithAlignsSame(s: Ty -> nat, t: Ty -> nat, ms: seq<Member>)
    requires forall i :: 0 <= i < |ms| ==> s(ms[i].ty) == t(ms[i].ty)
    ensures WithAligns(s, ms) == WithAligns(t, ms)
  {
    if ms != [] {
      WithAlignsSame(s, t, ms[1..]);
    }
  }

  lemma AlignedNodeSame(s: Ty -> nat, t: Ty -> nat, n: Node)
    requires forall i :: 0 <= i < |Deciding(n)| ==> s(Deciding(n)[i]) == t(Deciding(n)[i])
    ensures AlignedNode(s, n) == AlignedNode(t, n)
  {
    if n.Class? {
      forall i | 0 <= i < |n.members|
        ensures s(n.members[i].ty) == t(n.members[i].ty)
      {
        assert Deciding(n)[i] == n.members[i].ty;
      }
      WithAlignsSame(s, t, n.members);
    } else if n.underlying.Some? {
      assert Deciding(n)[0] == n.underlying.value;
    }
  }

  /** The alignment seen while the nodes in `open` were still in progress. */
  function Sees(g0: Graph, g: Graph, open: set<Id>): Ty -> nat
  {
    ty => if ByValue(ty).Some? && ByValue(ty).value in open then AlignOf(g0, ty) else AlignOf(g, ty)
  }

  /**
   Nodes not finished are unchanged. Each finished node was made from the alignments it saw: those of
   finished nodes, and the old ones of the nodes in open[n], which were in progress at the time.
   */
  ghost predicate AlignedSoFar(g0: Graph, g: Graph, p: Progress, open: map<Id, set<Id>>)
  {
    && g.Keys == g0.Keys && p.finished <= p.visited <= g0.Keys
    && (forall n :: n in g0 && n !in p.finished ==> g[n] == g0[n])
    && (forall n :: n in p.finished ==> n in open && FinishedAt(g0, g, p, open, n))
  }

  ghost predicate FinishedAt(g0: Graph, g: Graph, p: Progress, open: map<Id, set<Id>>, n: Id)
    requires n in open && n in g0 && n in g
  {
    && g[n] == AlignedNode(Sees(g0, g, open[n]), g0[n])
    && (forall t :: t in Deciding(g0[n]) && ByValue(t).Some? ==> ByValue(t).value in open[n] || ByValue(t).value in p.finished)
    && (forall x :: x in open[n] ==> x == n || Reaches(g0, x, n))
  }

  /** Everything in progress leads to `id`. */
  ghost predicate AllLeadTo(g0: Graph, p: Progress, id: Id)
  {
    forall x :: x in p.visited && x !in p.finished ==> Reaches(g0, x, id)
  }

  lemma {:induction false} SameAlign(g: Graph, h: Graph, ty: Ty)
    requires ByValue(ty).Some? ==> ByValue(ty).value in g && ByValue(ty).value in h && g[ByValue(ty).value] == h[ByValue(ty).value]
    ensures AlignOf(g, ty) == AlignOf(h, ty)
  {
    if ty.Array? {
      SameAlign(g, h, ty.element);
    }
  }

  /** The alignments that a graph records. */
  function Aligns(g: Graph): Ty -> nat
  {
    ty => AlignOf(g, ty)
  }

  lemma {:induction false} MaxAlignNext(ms: seq<Member>, m: Member)
    ensures MaxAlign(ms + [m]) == Max(MaxAlign(ms), m.align)
    decreases |ms|
  {
    if ms == [] {
      assert [] + [m] == [m];
    } else {
      assert (ms + [m])[1..] == ms[1..] + [m];
      MaxAlignNext(ms[1..], m);
    }
  }

  lemma AllAlignedNext(ms: seq<Member>, m: Member)
    ensures AllAligned(ms + [m]) <==> AllAligned(ms) && IsAligned(m)
  {
    if AllAligned(ms + [m]) {
      assert forall i :: 0 <= i < |ms| ==> ms[i] == (ms + [m])[i];
      assert (ms + [m])[|ms|] == m;
    }
  }

  // ----- the pass as in the source

  /** The loop over the members of a class whose alignment is not known yet. */
  method CalcMembers(g: Graph, c: Node) returns (members: seq<Member>, alignment: nat, packed: bool)
    requires c.Class?
    ensures members == WithAligns(Aligns(g), c.members) && alignment == MaxAlign(members)
    ensures packed <==> c.packed || !AllAligned(members)
  {
    hide MaxAlign, AllAligned, IsAligned, WithAligns;
    ghost var result := WithAligns(Aligns(g), c.members);
    members, alignment, packed := [], 1, c.packed;
    NoMembers();
    for i := 0 to |c.members|
      invariant members == result[..i] && alignment == MaxAlign(members)
      invariant packed <==> c.packed || !AllAligned(members)
    {
      var member := c.members[i];
      if member.align == 0 {
        // The type has been visited by now; a further visit would do nothing.
        member := member.(align := AlignOf(g, member.ty));
      }
      MaxAlignNext(members, member);
      AllAlignedNext(members, member);
      alignment := Max(alignment, member.align);
      if member.align != 0 && member.bitOffset / 8 % member.align != 0 {
        packed := true;
      }
      IsAlignedMeans(member);
      assert result[i] == member && result[..i + 1] == result[..i] + [result[i]];
      members := members + [member];
    }
    assert result[..|c.members|] == result;
  }

  lemma NoMembers()
    ensures MaxAlign([]) == 1 && AllAligned([])
  {
  }

  lemma IsAlignedMeans(m: Member)
    ensures IsAligned(m) <==> !(m.align != 0 && m.bitOffset / 8 % m.align != 0)
  {
  }

  method CalcNode(g: Graph, node: Node) returns (r: Node)
    ensures r == AlignedNode(Aligns(g), node)
  {
    hide MaxAlign, AllAligned, WithAligns;
    r := node;
    if node.Class? {
      if node.align == 0 {
        var members, alignment, packed := CalcMembers(g, node);
        r := node.(members := members, packed := packed, align := alignment);
      }
      if r.align == 1 || r.size % r.align != 0 {
        r := r.(packed := true);
      }
    } else if node.underlying.Some? {
      r := Container(node.size, AlignOf(g, node.underlying.value), node.params, node.underlying);
    }
  }

  /** Everything in progress leads to whatever the type refers to. */
  ghost predicate LeadsTo(g0: Graph, p: Progress, ty: Ty)
  {
    Reached(ty).Some? ==> AllLeadTo(g0, p, Reached(ty).value)
  }

  ghost predicate LeadsToAll(g0: Graph, p: Progress, ts: seq<Ty>)
  {
    forall t :: t in ts ==> LeadsTo(g0, p, t)
  }

  lemma LeadsToStays(g0: Graph, p: Progress, q: Progress, ts: seq<Ty>)
    requires LeadsToAll(g0, p, ts) && Grew(AllFollowed(g0), p, q)
    ensures LeadsToAll(g0, q, ts)
  {
    forall t | t in ts
      ensures LeadsTo(g0, q, t)
    {
      assert LeadsTo(g0, p, t);
    }
  }

  lemma LeadsFurther(g0: Graph, p: Progress, id: Id)
    requires id in g0 && AllLeadTo(g0, p, id)
    ensures LeadsToAll(g0, p.(visited := p.visited + {id}), AllTypes(g0[id]))
  {
    forall t | t in AllTypes(g0[id]) && Reached(t).Some?
      ensures AllLeadTo(g0, p.(visited := p.visited + {id}), Reached(t).value)
    {
      var d := Reached(t).value;
      assert Edge(g0, id, d);
      ReachesStep(g0, id, d);
      forall x | x in p.visited && x !in p.finished
        ensures Reaches(g0, x, d)
      {
        ReachesMore(g0, x, id, d);
      }
    }
  }

  /** The new value of a node that has just been calculated, while the nodes in `gray` are in progress. */
  lemma Calculated(g0: Graph, g: Graph, p: Progress, open: map<Id, set<Id>>, id: Id, r: Node)
    requires AlignedSoFar(g0, g, p, open) && id in p.visited && id !in p.finished
    requires Covered(AllTypes(g0[id]), p.visited)
    requires r == AlignedNode(Aligns(g), g0[id])
    requires forall x :: x in p.visited && x !in p.finished ==> x == id || Reaches(g0, x, id)
    ensures AlignedSoFar(g0, g[id := r], p.(finished := p.finished + {id}), open[id := p.visited - p.finished])
  {
    hide AlignedNode;
    var gray := p.visited - p.finished;
    var h, q, open' := g[id := r], p.(finished := p.finished + {id}), open[id := gray];
    CalculatedItself(g0, g, p, open, id, r);
    forall n | n in p.finished
      ensures n in open' && FinishedAt(g0, h, q, open', n)
    {
      OthersStay(g0, g, p, open, id, r, n);
    }
  }

  lemma CalculatedItself(g0: Graph, g: Graph, p: Progress, open: map<Id, set<Id>>, id: Id, r: Node)
    requires AlignedSoFar(g0, g, p, open) && id in p.visited && id !in p.finished
    requires Covered(AllTypes(g0[id]), p.visited)
    requires r == AlignedNode(Aligns(g), g0[id])
    requires forall x :: x in p.visited && x !in p.finished ==> x == id || Reaches(g0, x, id)
    ensures FinishedAt(g0, g[id := r], p.(finished := p.finished + {id}), open[id := p.visited - p.finished], id)
  {
    hide AlignedNode, Reaches, FinishedAt;
    var gray := p.visited - p.finished;
    var h := g[id := r];
    DecidingIn(g0[id]);
    forall t | t in Deciding(g0[id])
      ensures Aligns(g)(t) == Sees(g0, h, gray)(t)
      ensures ByValue(t).Some? ==> ByValue(t).value in gray || ByValue(t).value in p.finished
    {
      if ByValue(t).Some? {
        ByValueIsReached(t);
        if ByValue(t).value in gray {
          SameAlign(g, g0, t);
        } else {
          SameAlign(g, h, t);
        }
      } else {
        SameAlign(g, h, t);
      }
    }
    AlignedNodeSame(Aligns(g), Sees(g0, h, gray), g0[id]);
    FinishedMeans(g0, h, p.(finished := p.finished + {id}), open[id := gray], id);
  }

  lemma FinishedMeans(g0: Graph, g: Graph, p: Progress, open: map<Id, set<Id>>, n: Id)
    requires n in open && n in g0 && n in g
    requires g[n] == AlignedNode(Sees(g0, g, open[n]), g0[n])
    requires forall t :: t in Deciding(g0[n]) && ByValue(t).Some? ==> ByValue(t).value in open[n] || ByValue(t).value in p.finished
    requires forall x :: x in open[n] ==> x == n || Reaches(g0, x, n)
    ensures FinishedAt(g0, g, p, open, n)
  {
  }

  lemma DecidingIn(n: Node)
    ensures forall t :: t in Deciding(n) ==> t in AllTypes(n)
  {
  }

  lemma OthersStay(g0: Graph, g: Graph, p: Progress, open: map<Id, set<Id>>, id: Id, r: Node, n: Id)
    requires AlignedSoFar(g0, g, p, open) && id in p.visited && id !in p.finished && n in p.finished
    ensures n in open && FinishedAt(g0, g[id := r], p.(finished := p.finished + {id}), open[id := p.visited - p.finished], n)
  {
    hide AlignedNode, Reaches;
    var h := g[id := r];
    assert FinishedAt(g0, g, p, open, n);
    forall t | t in Deciding(g0[n])
      ensures Sees(g0, g, open[n])(t) == Sees(g0, h, open[n])(t)
    {
      if ByValue(t).Some? && ByValue(t).value in open[n] {
      } else {
        SameAlign(g, h, t);
      }
    }
    AlignedNodeSame(Sees(g0, g, open[n]), Sees(g0, h, open[n]), g0[n]);
  }
  class AlignmentCalc {
    var nodes: Graph
    var visited: set<Id>
    ghost var finished: set<Id>
    ghost var open: map<Id, set<Id>>

    constructor (g: Graph)
      ensures nodes == g && visited == {} && finished == {} && open == map[]
    {
      nodes, visited, finished, open := g, {}, {}, map[];
    }

    ghost function State(): Progress
      reads this
    {
      Progress(visited, finished)
    }

    /** Everything done from p on. */
    ghost predicate Continued(g0: Graph, p: Progress, before: map<Id, set<Id>>)
      reads this
    {
      && AlignedSoFar(g0, nodes, State(), open) && Grew(AllFollowed(g0), p, State())
      && StayedOpen(p, State(), open) && OpenGrew(p, before, open)
    }

    lemma NothingDone(g0: Graph)
      requires AlignedSoFar(g0, nodes, State(), open)
      ensures Continued(g0, State(), open)
    {
    }

    lemma MoreDone(g0: Graph, p: Progress, q: Progress, before: map<Id, set<Id>>, between: map<Id, set<Id>>)
      requires Grew(AllFollowed(g0), p, q) && StayedOpen(p, q, between) && OpenGrew(p, before, between)
      requires forall n :: n in q.finished ==> n in between
      requires Continued(g0, q, between)
      ensures Continued(g0, p, before)
    {
      hide AlignedSoFar;
      GrewMore(AllFollowed(g0), p, q, State());
      StayedOpenMore(p, q, State(), between, open, AllFollowed(g0));
      OpenGrewMore(p, q, before, between, open);
    }

    /** The pass from its root types. */
    method Run(roots: seq<Ty>)
      requires visited == {} && finished == {} && open == map[]
      requires Closed(nodes) && Covered(roots, nodes.Keys)
      modifies this
      ensures Outcome(old(nodes), roots, nodes, State(), open)
    {
      AcceptAll(roots, nodes);
    }

    method Accept(ty: Ty, ghost g0: Graph)
      requires Closed(g0) && AlignedSoFar(g0, nodes, State(), open) && LeadsTo(g0, State(), ty)
      requires Covered([ty], g0.Keys)
      modifies this
      ensures Continued(g0, old(State()), old(open))
      ensures Covered([ty], visited)
      ensures Reached(ty).Some? && Reached(ty).value !in old(visited) ==> OpenThroughout(old(State()), State(), open, Reached(ty).value)
      decreases |g0.Keys - visited|, 2, 0
    {
      hide AlignedSoFar, Closed, StayedOpen, OpenGrew, Grew;
      NothingDone(g0);
      var id := Reached(ty);
      assert ty in [ty];
      if id.None? || id.value in visited {
        return;
      }
      Unvisited(g0.Keys, visited, id.value);
      NotDone(g0, nodes, State(), open, id.value);
      ghost var p := State();
      visited := visited + {id.value};
      Visit(id.value, g0, p);
    }

    method AcceptAll(ts: seq<Ty>, ghost g0: Graph)
      requires Closed(g0) && AlignedSoFar(g0, nodes, State(), open) && LeadsToAll(g0, State(), ts)
      requires Covered(ts, g0.Keys)
      modifies this
      ensures Continued(g0, old(State()), old(open))
      ensures Covered(ts, visited)
      ensures |ts| == 1 && Reached(ts[0]).Some? && Reached(ts[0]).value !in old(visited) ==>
              OpenThroughout(old(State()), State(), open, Reached(ts[0]).value)
      decreases |g0.Keys - visited|, 3, 0
    {
      hide AlignedSoFar, Closed, StayedOpen, OpenGrew, Grew, LeadsToAll;
      NothingDone(g0);
      for i := 0 to |ts|
        invariant Continued(g0, old(State()), old(open))
        invariant Covered(ts[..i], visited)
        invariant i == 0 ==> State() == old(State())
        invariant i == 1 && Reached(ts[0]).Some? && Reached(ts[0]).value !in old(visited) ==>
                  OpenThroughout(old(State()), State(), open, Reached(ts[0]).value)
      {
        ghost var q, before := State(), open;
        GrewSets(AllFollowed(g0), old(State()), q);
        Shrinks(g0.Keys, old(visited), visited);
        LeadsToStays(g0, old(State()), q, ts);
        OneOf(g0, q, ts, i);
        AllOpen(g0, nodes, q, open);
        Accept(ts[i], g0);
        GrewSets(AllFollowed(g0), q, State());
        assert ts[i] in [ts[i]];
        CoveredLoop(ts, i, q.visited, visited);
        MoreDone(g0, old(State()), q, old(open), before);
      }
      assert ts[..|ts|] == ts;
    }

    /** `visit`, for a node that has just been marked as visited. */
    method Visit(id: Id, ghost g0: Graph, ghost p: Progress)
      requires Closed(g0) && AlignedSoFar(g0, nodes, State(), open) && AllLeadTo(g0, p, id)
      requires id in g0 && id !in p.visited && State() == p.(visited := p.visited + {id}) && p.finished <= p.visited
      requires id in nodes && nodes[id] == g0[id]
      modifies this
      ensures Continued(g0, p, old(open)) && OpenThroughout(p, State(), open, id)
      ensures id in visited
      decreases |g0.Keys - visited|, 4, 0
    {
      hide AlignedSoFar, Closed, StayedOpen, OpenGrew, Grew, AllTypes;
      ghost var q, before := State(), open;
      var node := nodes[id];
      ClosedHere(g0, id);
      LeadsFurther(g0, p, id);
      AcceptAll(AllTypes(node), g0);
      ghost var r, between := State(), open;
      ReadyToCalculate(g0, nodes, p, r, open, id);
      var calculated := CalcNode(nodes, nodes[id]);
      Calculated(g0, nodes, r, open, id, calculated);
      nodes := nodes[id := calculated];
      open := open[id := r.visited - r.finished];
      finished := finished + {id};
      OpenAfter(p, r, before, between, id, AllFollowed(g0));
      GrewNot(AllFollowed(g0), State());
      GrewAround(AllFollowed(g0), id, p, r, State());
    }
  }

  /**
   What the pass leaves when it has been run from some types: everything they lead to has been visited and finished. If
   it was run from a single type, the node of that type was in progress all the time.
   */
  ghost predicate Outcome(g0: Graph, roots: seq<Ty>, g: Graph, p: Progress, open: map<Id, set<Id>>)
  {
    && p.finished == p.visited && AlignedSoFar(g0, g, p, open) && Covered(roots, p.visited)
    && (forall n :: n in p.visited ==> Covered(AllTypes(g0[n]), p.visited))
    && (|roots| == 1 && Reached(roots[0]).Some? ==> OpenThroughout(Progress({}, {}), p, open, Reached(roots[0]).value))
  }

  lemma NotDone(g0: Graph, g: Graph, p: Progress, open: map<Id, set<Id>>, id: Id)
    requires AlignedSoFar(g0, g, p, open) && id in g0 && id !in p.visited
    ensures id in g && g[id] == g0[id] && p.finished <= p.visited
    ensures AlignedSoFar(g0, g, p.(visited := p.visited + {id}), open)
  {
    hide FinishedAt;
    forall n | n in p.finished
      ensures n in open && FinishedAt(g0, g, p.(visited := p.visited + {id}), open, n)
    {
      VisitedOnly(g0, g, p, p.(visited := p.visited + {id}), open, n);
    }
  }

  lemma VisitedOnly(g0: Graph, g: Graph, p: Progress, q: Progress, open: map<Id, set<Id>>, n: Id)
    requires n in open && n in g0 && n in g && p.finished == q.finished && FinishedAt(g0, g, p, open, n)
    ensures FinishedAt(g0, g, q, open, n)
  {
  }

  lemma AllOpen(g0: Graph, g: Graph, p: Progress, open: map<Id, set<Id>>)
    requires AlignedSoFar(g0, g, p, open)
    ensures forall n :: n in p.finished ==> n in open
  {
  }

  /** A node was in progress whenever another one was finished from p to q. */
  ghost predicate OpenThroughout(p: Progress, q: Progress, open: map<Id, set<Id>>, id: Id)
  {
    forall n :: n in q.finished && n !in p.finished ==> n in open && id in open[n]
  }

  lemma ReadyToCalculate(g0: Graph, g: Graph, p: Progress, r: Progress, open: map<Id, set<Id>>, id: Id)
    requires AlignedSoFar(g0, g, r, open) && AllLeadTo(g0, p, id) && id in g0 && id !in p.visited && p.finished <= p.visited
    requires Grew(AllFollowed(g0), p.(visited := p.visited + {id}), r)
    ensures id in r.visited && id !in r.finished && id in g && g[id] == g0[id]
    ensures forall x :: x in r.visited && x !in r.finished ==> x == id || Reaches(g0, x, id)
    ensures forall n :: n in r.finished ==> n in open
  {
  }

  lemma OpenAfter(p: Progress, r: Progress, before: map<Id, set<Id>>, between: map<Id, set<Id>>, id: Id,
                  follow: map<Id, seq<Ty>>)
    requires id !in p.visited && p.finished <= p.visited && Grew(follow, p.(visited := p.visited + {id}), r)
    requires StayedOpen(p.(visited := p.visited + {id}), r, between) && OpenGrew(p.(visited := p.visited + {id}), before, between)
    requires forall n :: n in r.finished ==> n in between
    ensures var open := between[id := r.visited - r.finished];
            && StayedOpen(p, r.(finished := r.finished + {id}), open) && OpenGrew(p, before, open)
            && OpenThroughout(p, r.(finished := r.finished + {id}), open, id)
  {
  }

  lemma OneOf(g0: Graph, p: Progress, ts: seq<Ty>, i: nat)
    requires i < |ts| && LeadsToAll(g0, p, ts) && Covered(ts, g0.Keys)
    ensures LeadsTo(g0, p, ts[i]) && Covered([ts[i]], g0.Keys)
  {
    assert ts[i] in ts;
  }

  lemma ClosedHere(g0: Graph, id: Id)
    requires Closed(g0) && id in g0
    ensures Covered(AllTypes(g0[id]), g0.Keys)
  {
  }

  // ----- what the pass achieves

  lemma {:induction false} AlignOfByValue(g: Graph, ty: Ty)
    requires ByValue(ty).Some? && ByValue(ty).value in g
    ensures AlignOf(g, ty) == g[ByValue(ty).value].align
  {
    if ty.Array? {
      AlignOfByValue(g, ty.element);
    }
  }

  /** Nothing that decides the alignment of n refers back to n, however indirectly. */
  ghost predicate NoWayBack(g0: Graph, n: Id)
    requires n in g0
  {
    forall t :: t in Deciding(g0[n]) && ByValue(t).Some? ==> ByValue(t).value != n && !Reaches(g0, ByValue(t).value, n)
  }

  /** Such a node is made from the final alignments, from whichever roots the pass starts. */
  lemma ResolvedWithoutWayBack(g0: Graph, g: Graph, p: Progress, open: map<Id, set<Id>>, n: Id)
    requires AlignedSoFar(g0, g, p, open) && n in p.finished && NoWayBack(g0, n)
    ensures g[n] == AlignedNode(Aligns(g), g0[n])
  {
    hide AlignedNode, Reaches;
    assert FinishedAt(g0, g, p, open, n);
    forall t | t in Deciding(g0[n])
      ensures Sees(g0, g, open[n])(t) == Aligns(g)(t)
    {
      assert ByValue(t).Some? ==> ByValue(t).value !in open[n];
    }
    AlignedNodeSame(Sees(g0, g, open[n]), Aligns(g), g0[n]);
  }

  /** A finished class always has an alignment. */
  lemma FinishedHasAlignment(g0: Graph, g: Graph, p: Progress, open: map<Id, set<Id>>, d: Id)
    requires d in open && d in g0 && d in g && FinishedAt(g0, g, p, open, d) && g0[d].Class?
    ensures g[d].Class? && g[d].align >= 1
  {
    hide WithAligns, AllAligned, Reaches;
  }

  /** A member of class type gets its type's alignment exactly when that class was not in progress at the time. */
  lemma ResolvedExactly(g0: Graph, g: Graph, p: Progress, open: map<Id, set<Id>>, n: Id, i: nat, d: Id)
    requires n in open && n in g0 && n in g && FinishedAt(g0, g, p, open, n)
    requires g0[n].Class? && g0[n].align == 0 && i < |g0[n].members| && g0[n].members[i].align == 0
    requires ByValue(g0[n].members[i].ty) == Some(d) && d in g0 && d in g && g0[d].align == 0 && g[d].align >= 1
    ensures g[n].Class? && |g[n].members| == |g0[n].members| && AlignOf(g, g0[n].members[i].ty) >= 1
    ensures g[n].members[i].align == if d in open[n] then 0 else AlignOf(g, g0[n].members[i].ty)
  {
    var ty := g0[n].members[i].ty;
    hide WithAligns, MaxAlign, AllAligned, Reaches;
    AlignOfByValue(g, ty);
    AlignOfByValue(g0, ty);
    assert g[n].members == WithAligns(Sees(g0, g, open[n]), g0[n].members);
  }

  /** The pass visits everything that a visited node leads to. */
  lemma VisitedReached(g0: Graph, visited: set<Id>, a: Id, b: Id)
    requires forall k :: k in visited ==> k in g0 && Covered(AllTypes(g0[k]), visited)
    requires a in visited && Reaches(g0, a, b)
    ensures b in visited
  {
    var path :| IsPath(g0, path) && path[0] == a && path[|path| - 1] == b;
    VisitedPath(g0, visited, path, |path| - 1);
  }

  lemma {:induction false} VisitedPath(g0: Graph, visited: set<Id>, path: seq<Id>, i: nat)
    requires forall k :: k in visited ==> k in g0 && Covered(AllTypes(g0[k]), visited)
    requires IsPath(g0, path) && path[0] in visited && i < |path|
    ensures path[i] in visited
  {
    if i > 0 {
      VisitedPath(g0, visited, path, i - 1);
      assert Edge(g0, path[i - 1], path[i]);
    }
  }

  /** A member whose type is a class, and for which no alignment is given, nor for either class. */
  ghost predicate Undeclared(g0: Graph, n: Id, i: nat, d: Id)
  {
    && n in g0 && g0[n].Class? && g0[n].align == 0 && i < |g0[n].members| && g0[n].members[i].align == 0
    && ByValue(g0[n].members[i].ty) == Some(d) && d in g0 && g0[d].Class? && g0[d].align == 0
  }

  /** The member has got the alignment of its type. */
  ghost predicate Resolved(g: Graph, n: Id, i: nat)
  {
    && n in g && g[n].Class? && i < |g[n].members|
    && g[n].members[i].align == AlignOf(g, g[n].members[i].ty) >= 1
  }

  lemma ResolvedIffNotOpen(g0: Graph, g: Graph, p: Progress, open: map<Id, set<Id>>, n: Id, i: nat, d: Id)
    requires Undeclared(g0, n, i, d) && AlignedSoFar(g0, g, p, open) && n in p.finished && d in p.finished
    ensures n in open && (Resolved(g, n, i) <==> d !in open[n])
  {
    hide AlignedNode, AlignOf, ByValue, Deciding, Reaches, Sees;
    assert FinishedAt(g0, g, p, open, n) && FinishedAt(g0, g, p, open, d);
    FinishedHasAlignment(g0, g, p, open, d);
    ResolvedExactly(g0, g, p, open, n, i, d);
    SameType(g0, g, p, open, n, i);
  }

  lemma SameType(g0: Graph, g: Graph, p: Progress, open: map<Id, set<Id>>, n: Id, i: nat)
    requires n in open && n in g0 && n in g && FinishedAt(g0, g, p, open, n) && g0[n].Class? && i < |g0[n].members|
    ensures g[n].Class? && i < |g[n].members| && g[n].members[i].ty == g0[n].members[i].ty
  {
    hide WithAligns, MaxAlign, AllAligned, Reaches, ByValue, Deciding;
  }

  /** From whichever types the pass is run, the member gets its type's alignment. */
  ghost predicate AlwaysResolved(g0: Graph, n: Id, i: nat)
  {
    forall roots, g, p, open :: Outcome(g0, roots, g, p, open) && n in p.visited ==> Resolved(g, n, i)
  }

  lemma ResolvedIfNoWayBack(g0: Graph, n: Id, i: nat, d: Id, roots: seq<Ty>, g: Graph, p: Progress,
                            open: map<Id, set<Id>>)
    requires Undeclared(g0, n, i, d) && d != n && !Reaches(g0, d, n) && Outcome(g0, roots, g, p, open) && n in p.visited
    ensures Resolved(g, n, i)
  {
    hide AlignedNode, Reaches, Resolved, Sees;
    ByValueMemberEdge(g0, n, i, d);
    VisitedMember(g0, p.visited, n, d);
    ResolvedIffNotOpen(g0, g, p, open, n, i, d);
    assert FinishedAt(g0, g, p, open, n);
  }

  lemma VisitedMember(g0: Graph, visited: set<Id>, n: Id, d: Id)
    requires n in visited && n in g0 && Covered(AllTypes(g0[n]), visited) && Edge(g0, n, d)
    ensures d in visited
  {
  }

  /**
   A member gets the alignment of its class exactly if that class does not lead back to the owner of the member. Else
   a run from that class, as it is done here, leaves the member without one.
   */
  method ResolvedFromAnywhere(g0: Graph, n: Id, i: nat, d: Id)
    returns (g: Graph, ghost p: Progress, ghost open: map<Id, set<Id>>)
    requires Closed(g0) && Undeclared(g0, n, i, d)
    ensures Outcome(g0, [NodeRef(d)], g, p, open)
    ensures AlwaysResolved(g0, n, i) <==> d != n && !Reaches(g0, d, n)
    ensures d == n || Reaches(g0, d, n) ==> n in p.visited
    ensures d == n || Reaches(g0, d, n) ==> !Resolved(g, n, i)
  {
    hide Outcome, Resolved, Reaches, Closed;
    var calc' := new AlignmentCalc(g0);
    RootCovered(g0, d);
    calc'.Run([NodeRef(d)]);
    g, p, open := calc'.nodes, calc'.State(), calc'.open;
    if d != n && !Reaches(g0, d, n) {
      forall roots, g, p, open | Outcome(g0, roots, g, p, open) && n in p.visited
        ensures Resolved(g, n, i)
      {
        ResolvedIfNoWayBack(g0, n, i, d, roots, g, p, open);
      }
    } else {
      UnresolvedFromOwner(g0, n, i, d, g, p, open);
      assert Outcome(g0, [NodeRef(d)], g, p, open);
    }
  }

  lemma RootCovered(g0: Graph, d: Id)
    requires d in g0
    ensures Covered([NodeRef(d)], g0.Keys)
  {
  }

  /** When the pass is run from a class, that class is in progress all the time. */
  lemma UnresolvedFromOwner(g0: Graph, n: Id, i: nat, d: Id, g: Graph, p: Progress, open: map<Id, set<Id>>)
    requires Undeclared(g0, n, i, d) && Outcome(g0, [NodeRef(d)], g, p, open) && (d == n || Reaches(g0, d, n))
    ensures n in p.visited && !Resolved(g, n, i)
  {
    hide Reaches, AlignedSoFar, Resolved;
    var root := NodeRef(d);
    assert root in [root] && [root][0] == root && Reached(root) == Some(d);
    KeysVisited(g0, g, p, open);
    if d != n {
      VisitedReached(g0, p.visited, d, n);
    }
    ResolvedIffNotOpen(g0, g, p, open, n, i, d);
  }

  lemma KeysVisited(g0: Graph, g: Graph, p: Progress, open: map<Id, set<Id>>)
    requires AlignedSoFar(g0, g, p, open)
    ensures forall n :: n in p.visited ==> n in g0
  {
  }

  /** A member whose alignment is known and that does not start at a multiple of it. */
  ghost predicate Misplaced(m: Member)
  {
    m.align != 0 && m.bitOffset / 8 % m.align != 0
  }

  /** The largest alignment of a member, or 1. */
  ghost predicate Largest(a: nat, ms: seq<Member>)
  {
    && a >= 1 && (forall i :: 0 <= i < |ms| ==> ms[i].align <= a)
    && (a == 1 || exists i :: 0 <= i < |ms| && ms[i].align == a)
  }

  /**
   What a finished class is: its alignment is the largest one of its members unless it was given, and it is
   packed exactly if it was, or if a member or the end of the class would not be where it is otherwise.
   */
  lemma FinishedClass(g0: Graph, g: Graph, p: Progress, open: map<Id, set<Id>>, n: Id)
    requires AlignedSoFar(g0, g, p, open) && n in p.finished && g0[n].Class?
    ensures g[n].Class? && g[n] == g0[n].(align := g[n].align, members := g[n].members, packed := g[n].packed)
    ensures if g0[n].align == 0 then Largest(g[n].align, g[n].members) else g[n].align == g0[n].align && g[n].members == g0[n].members
    ensures |g[n].members| == |g0[n].members|
    ensures forall i :: 0 <= i < |g0[n].members| ==> g[n].members[i] == g0[n].members[i].(align := g[n].members[i].align)
    ensures forall i :: 0 <= i < |g0[n].members| && g0[n].members[i].align != 0 ==> g[n].members[i] == g0[n].members[i]
    ensures forall i :: 0 <= i < |g0[n].members| && g0[n].align == 0 && g0[n].members[i].align == 0 && ByValue(g0[n].members[i].ty).None? ==>
              g[n].members[i].align == AlignOf(g0, g0[n].members[i].ty)
    ensures g[n].packed <==>
              || g0[n].packed || g[n].align == 1 || g[n].size % g[n].align != 0
              || (g0[n].align == 0 && exists i :: 0 <= i < |g[n].members| && Misplaced(g[n].members[i]))
  {
    hide WithAligns, MaxAlign, Reaches, Sees;
    assert FinishedAt(g0, g, p, open, n);
    if g0[n].align == 0 {
      MisplacedSome(g[n].members);
      MembersSee(g0, g, open[n], n);
    }
  }

  lemma MembersSee(g0: Graph, g: Graph, open: set<Id>, n: Id)
    requires n in g0 && g0[n].Class?
    ensures var ms := WithAligns(Sees(g0, g, open), g0[n].members);
            forall i :: 0 <= i < |ms| && g0[n].members[i].align == 0 && ByValue(g0[n].members[i].ty).None? ==>
              ms[i].align == AlignOf(g0, g0[n].members[i].ty)
  {
    forall i | 0 <= i < |g0[n].members| && ByValue(g0[n].members[i].ty).None?
      ensures Sees(g0, g, open)(g0[n].members[i].ty) == AlignOf(g0, g0[n].members[i].ty)
    {
      SameAlign(g0, g, g0[n].members[i].ty);
    }
  }

  lemma MisplacedSome(ms: seq<Member>)
    ensures AllAligned(ms) <==> !exists i :: 0 <= i < |ms| && Misplaced(ms[i])
  {
    if !AllAligned(ms) {
      var i :| 0 <= i < |ms| && !IsAligned(ms[i]);
      assert Misplaced(ms[i]);
    }
  }

  // ----- containers

  /** A container with no underlying type is left as it was. */
  lemma ContainerStays(g0: Graph, g: Graph, p: Progress, open: map<Id, set<Id>>, n: Id)
    requires AlignedSoFar(g0, g, p, open) && n in p.finished && g0[n].Container? && g0[n].underlying.None?
    ensures g[n] == g0[n]
  {
    hide Reaches, Sees;
    assert FinishedAt(g0, g, p, open, n);
  }

  /** A container that its underlying type does not lead back to gets the final alignment of that type, and nothing else changes. */
  lemma ContainerTakes(g0: Graph, g: Graph, p: Progress, open: map<Id, set<Id>>, n: Id)
    requires AlignedSoFar(g0, g, p, open) && n in p.finished && g0[n].Container? && g0[n].underlying.Some? && NoWayBack(g0, n)
    ensures g[n] == Container(g0[n].size, AlignOf(g, g0[n].underlying.value), g0[n].params, g0[n].underlying)
  {
    hide Reaches;
    ResolvedWithoutWayBack(g0, g, p, open, n);
  }

  /** A container, as it is found in debug information: its underlying type is a class. */
  ghost predicate Wraps(g0: Graph, n: Id, d: Id)
  {
    && n in g0 && g0[n].Container? && g0[n].underlying.Some? && ByValue(g0[n].underlying.value) == Some(d)
    && d in g0 && g0[d].Class? && g0[d].align == 0
  }

  /** The container has got the alignment of its underlying type. */
  ghost predicate Takes(g: Graph, n: Id)
  {
    n in g && g[n].Container? && g[n].underlying.Some? && g[n].align == AlignOf(g, g[n].underlying.value) >= 1
  }

  lemma TakesIffNotOpen(g0: Graph, g: Graph, p: Progress, open: map<Id, set<Id>>, n: Id, d: Id)
    requires Wraps(g0, n, d) && AlignedSoFar(g0, g, p, open) && n in p.finished && d in p.finished
    ensures n in open && (Takes(g, n) <==> d !in open[n])
    ensures Takes(g, n) ==> g[n].align == g[d].align
  {
    hide WithAligns, MaxAlign, AllAligned, Reaches, Deciding;
    assert FinishedAt(g0, g, p, open, n) && FinishedAt(g0, g, p, open, d);
    FinishedHasAlignment(g0, g, p, open, d);
    AlignOfByValue(g, g0[n].underlying.value);
    AlignOfByValue(g0, g0[n].underlying.value);
  }

  lemma UnderlyingDecides(g0: Graph, n: Id, d: Id)
    requires Wraps(g0, n, d)
    ensures Edge(g0, n, d)
  {
    var ty := g0[n].underlying.value;
    ByValueIsReached(ty);
    assert Deciding(g0[n])[0] == ty;
    DecidingIn(g0[n]);
  }

  /** From whichever types the pass is run, the container gets the alignment of its underlying class. */
  ghost predicate AlwaysTakes(g0: Graph, n: Id)
  {
    forall roots, g, p, open :: Outcome(g0, roots, g, p, open) && n in p.visited ==> Takes(g, n)
  }

  lemma TakesIfNoWayBack(g0: Graph, n: Id, d: Id, roots: seq<Ty>, g: Graph, p: Progress, open: map<Id, set<Id>>)
    requires Wraps(g0, n, d) && !Reaches(g0, d, n) && Outcome(g0, roots, g, p, open) && n in p.visited
    ensures d in p.visited && Takes(g, n) && g[n].align == g[d].align
  {
    hide AlignedNode, Reaches, Takes, Sees;
    UnderlyingDecides(g0, n, d);
    VisitedMember(g0, p.visited, n, d);
    TakesIffNotOpen(g0, g, p, open, n, d);
    assert FinishedAt(g0, g, p, open, n);
  }

  /**
   A container gets the alignment of its underlying class exactly if that class does not lead back to the
   container. Else a run from the class, as it is done here, leaves the container without one.
   */
  method ContainerFromAnywhere(g0: Graph, n: Id, d: Id)
    returns (g: Graph, ghost p: Progress, ghost open: map<Id, set<Id>>)
    requires Closed(g0) && Wraps(g0, n, d)
    ensures Outcome(g0, [NodeRef(d)], g, p, open)
    ensures g.Keys == g0.Keys
    ensures AlwaysTakes(g0, n) <==> !Reaches(g0, d, n)
    ensures Reaches(g0, d, n) ==> n in p.visited
    ensures Reaches(g0, d, n) ==> !Takes(g, n)
  {
    hide Outcome, Takes, Reaches, Closed;
    var calc' := new AlignmentCalc(g0);
    RootCovered(g0, d);
    calc'.Run([NodeRef(d)]);
    g, p, open := calc'.nodes, calc'.State(), calc'.open;
    SameKeys(g0, [NodeRef(d)], g, p, open);
    if !Reaches(g0, d, n) {
      forall roots, g, p, open | Outcome(g0, roots, g, p, open) && n in p.visited
        ensures Takes(g, n)
      {
        TakesIfNoWayBack(g0, n, d, roots, g, p, open);
      }
    } else {
      NotTakenFromOwner(g0, n, d, g, p, open);
      assert Outcome(g0, [NodeRef(d)], g, p, open);
    }
  }

  lemma SameKeys(g0: Graph, roots: seq<Ty>, g: Graph, p: Progress, open: map<Id, set<Id>>)
    requires Outcome(g0, roots, g, p, open)
    ensures g.Keys == g0.Keys
  {
  }

  lemma NotTakenFromOwner(g0: Graph, n: Id, d: Id, g: Graph, p: Progress, open: map<Id, set<Id>>)
    requires Wraps(g0, n, d) && Outcome(g0, [NodeRef(d)], g, p, open) && Reaches(g0, d, n)
    ensures n in p.visited && !Takes(g, n)
  {
    hide Reaches, AlignedSoFar, Takes;
    var root := NodeRef(d);
    assert root in [root] && [root][0] == root && Reached(root) == Some(d);
    KeysVisited(g0, g, p, open);
    VisitedReached(g0, p.visited, d, n);
    TakesIffNotOpen(g0, g, p, open, n, d);
  }

  /** A member whose type is such a container gets the alignment of the underlying class. */
  lemma MemberOfContainer(g0: Graph, n: Id, i: nat, d: Id, e: Id, roots: seq<Ty>, g: Graph, p: Progress,
                          open: map<Id, set<Id>>)
    requires n in g0 && g0[n].Class? && g0[n].align == 0 && i < |g0[n].members| && g0[n].members[i].align == 0
    requires ByValue(g0[n].members[i].ty) == Some(d) && Wraps(g0, d, e)
    requires d != n && !Reaches(g0, d, n) && !Reaches(g0, e, d) && Outcome(g0, roots, g, p, open) && n in p.visited
    ensures e in p.visited && e in g && n in g && g[n].Class? && i < |g[n].members|
    ensures g[n].members[i].align == g[e].align >= 1
  {
    hide AlignedNode, Reaches, Sees, Deciding;
    ByValueMemberEdge(g0, n, i, d);
    VisitedMember(g0, p.visited, n, d);
    TakesIfNoWayBack(g0, d, e, roots, g, p, open);
    assert FinishedAt(g0, g, p, open, n);
    MemberSees(g0, g, p, open, n, i, d);
  }

  lemma ByValueMemberEdge(g0: Graph, n: Id, i: nat, d: Id)
    requires n in g0 && g0[n].Class? && i < |g0[n].members| && ByValue(g0[n].members[i].ty) == Some(d)
    ensures Edge(g0, n, d)
  {
    var ty := g0[n].members[i].ty;
    ByValueIsReached(ty);
    assert Deciding(g0[n])[i] == ty;
    DecidingIn(g0[n]);
  }

  lemma MemberSees(g0: Graph, g: Graph, p: Progress, open: map<Id, set<Id>>, n: Id, i: nat, d: Id)
    requires n in open && n in g0 && n in g && FinishedAt(g0, g, p, open, n) && d !in open[n] && d in g
    requires g0[n].Class? && g0[n].align == 0 && i < |g0[n].members| && g0[n].members[i].align == 0
    requires ByValue(g0[n].members[i].ty) == Some(d)
    ensures g[n].Class? && i < |g[n].members| && g[n].members[i].align == g[d].align
  {
    hide WithAligns, MaxAlign, AllAligned, Reaches, Deciding;
    AlignOfByValue(g, g0[n].members[i].ty);
    assert g[n].members == WithAligns(Sees(g0, g, open[n]), g0[n].members);
  }

  // ----- two classes that lead to each other

  /** A class that points to another one, which has an object of the first class at its second byte. */
  const OWNER := Class(Struct, 16, 0, false, [], [], [Member(Leaf(8, 8), "x", 0, 0, 0), Member(Pointer(NodeRef(1)), "b", 64, 0, 0)], [])
  const HOLDER := Class(Struct, 18, 0, false, [], [], [Member(Leaf(2, 2), "s", 0, 0, 0), Member(NodeRef(0), "a", 16, 0, 0)], [])
  const CYCLE: Graph := map[0 := OWNER, 1 := HOLDER]

  lemma CycleClosed()
    ensures Closed(CYCLE) && Undeclared(CYCLE, 1, 1, 0) && Reaches(CYCLE, 0, 1)
  {
    CycleTypes();
    hide AllTypes, Covered;
    assert CYCLE.Keys == {0, 1} && CYCLE[0] == OWNER && CYCLE[1] == HOLDER;
    assert Pointer(NodeRef(1)) in AllTypes(CYCLE[0]);
    ReachesStep(CYCLE, 0, 1);
  }

  lemma CycleShape()
    ensures CYCLE.Keys == {0, 1} && forall n :: n in CYCLE ==> CYCLE[n].Class? && CYCLE[n].parents == []
  {
  }

  lemma CycleTypes()
    ensures AllTypes(OWNER) == [Leaf(8, 8), Pointer(NodeRef(1))] && Covered(AllTypes(OWNER), {0, 1})
    ensures AllTypes(HOLDER) == [Leaf(2, 2), NodeRef(0)] && Covered(AllTypes(HOLDER), {0, 1})
  {
    assert AllTypes(OWNER) == [Leaf(8, 8), Pointer(NodeRef(1))];
    assert AllTypes(HOLDER) == [Leaf(2, 2), NodeRef(0)];
  }

  const OWNER_ALIGNED := OWNER.(align := 8, members := [Member(Leaf(8, 8), "x", 0, 0, 8), Member(Pointer(NodeRef(1)), "b", 64, 0, 8)])

  /** Its second member has no alignment. */
  const HOLDER_ALIGNED := HOLDER.(align := 2, members := [Member(Leaf(2, 2), "s", 0, 0, 2), Member(NodeRef(0), "a", 16, 0, 0)])

  lemma TwoMembers(sees: Ty -> nat, a: Member, b: Member)
    ensures WithAligns(sees, [a, b]) == [a.(align := SeenAlign(sees, a)), b.(align := SeenAlign(sees, b))]
  {
    assert [a, b][1..] == [b] && [b][1..] == [];
  }

  lemma TwoAligns(a: Member, b: Member)
    ensures MaxAlign([a, b]) == Max(Max(1, b.align), a.align)
    ensures AllAligned([a, b]) <==> IsAligned(a) && IsAligned(b)
  {
    assert [a, b][1..] == [b] && [b][1..] == [];
    assert [a, b][0] == a && [a, b][1] == b;
  }

  lemma OwnerAligned(sees: Ty -> nat)
    requires sees(Leaf(8, 8)) == 8 && sees(Pointer(NodeRef(1))) == 8
    ensures AlignedNode(sees, OWNER) == OWNER_ALIGNED
  {
    hide WithAligns, MaxAlign, AllAligned;
    TwoMembers(sees, OWNER.members[0], OWNER.members[1]);
    TwoAligns(OWNER_ALIGNED.members[0], OWNER_ALIGNED.members[1]);
  }

  lemma HolderAligned(sees: Ty -> nat)
    requires sees(Leaf(2, 2)) == 2 && sees(NodeRef(0)) == 0
    ensures AlignedNode(sees, HOLDER) == HOLDER_ALIGNED
  {
    hide WithAligns, MaxAlign, AllAligned;
    TwoMembers(sees, HOLDER.members[0], HOLDER.members[1]);
    TwoAligns(HOLDER_ALIGNED.members[0], HOLDER_ALIGNED.members[1]);
  }

  /** Run from the first class, the pass aligns the second one as if the object in it had no alignment. */
  method RunOnCycle() returns (g: Graph)
    ensures g == map[0 := OWNER_ALIGNED, 1 := HOLDER_ALIGNED]
  {
    hide Reaches, Outcome;
    CycleClosed();
    RootCovered(CYCLE, 0);
    var calc' := new AlignmentCalc(CYCLE);
    calc'.Run([NodeRef(0)]);
    g := calc'.nodes;
    CycleAligned(g, calc'.State(), calc'.open);
  }

  lemma CycleAligned(g: Graph, p: Progress, open: map<Id, set<Id>>)
    requires Outcome(CYCLE, [NodeRef(0)], g, p, open)
    ensures g == map[0 := OWNER_ALIGNED, 1 := HOLDER_ALIGNED]
  {
    hide Reaches, AlignedNode, OWNER_ALIGNED, HOLDER_ALIGNED, AllTypes, Deciding;
    CycleClosed();
    var root := NodeRef(0);
    assert root in [root] && [root][0] == root;
    VisitedReached(CYCLE, p.visited, 0, 1);
    assert FinishedAt(CYCLE, g, p, open, 0) && FinishedAt(CYCLE, g, p, open, 1);
    OwnerAligned(Sees(CYCLE, g, open[0]));
    HolderAligned(Sees(CYCLE, g, open[1]));
    assert g.Keys == {0, 1};
  }
}
