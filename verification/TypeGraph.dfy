/**
 The type graph of oi/type_graph/Types.h as far as the layout passes use it. Types that the passes
 change are nodes; the others are values. Typedefs are transparent: every reference to a type is
 taken after stripping them.
 */
module TypeGraph {
  import opened Machine

  type Id = nat

  datatype Ty =
    | Leaf(size: nat, align: nat)
    | Incomplete
    | Pointer(target: Ty)
    | Array(element: Ty, length: nat)
    | NodeRef(id: Id)

  const INT8 := Leaf(1, 1)
  const POINTER_SIZE: nat := 8

  const MEMBER_PREFIX := "__oi_padding"
  const PARENT_PREFIX := "__oi_parent"

  /** A bit size of 0 means that the member is not a bit-field; an alignment of 0, that it is not known. */
  datatype Member = Member(ty: Ty, name: string, bitOffset: nat, bitSize: nat, align: nat)

  datatype Parent = Parent(ty: Ty, bitOffset: nat)

  datatype Kind = Struct | Union

  datatype Node =
    | Class(kind: Kind, size: nat, align: nat, packed: bool, params: seq<Ty>, parents: seq<Parent>, members: seq<Member>, children: seq<Ty>)
    | Container(size: nat, align: nat, params: seq<Ty>, underlying: Option<Ty>)

  type Graph = map<Id, Node>

  function SizeOf(g: Graph, ty: Ty): nat
  {
    match ty
    case Leaf(size, _) => size
    case Incomplete => 0
    case Pointer(_) => POINTER_SIZE
    case Array(element, length) => length * SizeOf(g, element)
    case NodeRef(id) => if id in g then g[id].size else 0
  }

  function AlignOf(g: Graph, ty: Ty): nat
  {
    match ty
    case Leaf(_, align) => align
    case Incomplete => 0
    case Pointer(_) => POINTER_SIZE
    case Array(element, _) => AlignOf(g, element)
    case NodeRef(id) => if id in g then g[id].align else 0
  }

  /** The node that a visitor reaches from a type, going through pointers and arrays. */
  function Reached(ty: Ty): Option<Id>
  {
    match ty
    case NodeRef(id) => Some(id)
    case Pointer(t) => Reached(t)
    case Array(t, _) => Reached(t)
    case _ => None
  }

  /** The node that is stored by value in an object of the type. */
  function ByValue(ty: Ty): Option<Id>
  {
    match ty
    case NodeRef(id) => Some(id)
    case Array(t, _) => ByValue(t)
    case _ => None
  }

  lemma {:induction false} ByValueIsReached(ty: Ty)
    requires ByValue(ty).Some?
    ensures Reached(ty) == ByValue(ty)
  {
    if ty.Array? {
      ByValueIsReached(ty.element);
    }
  }

  function TypesOfMembers(ms: seq<Member>): (r: seq<Ty>)
    ensures |r| == |ms|
  {
    seq(|ms|, i requires 0 <= i < |ms| => ms[i].ty)
  }

  function TypesOfParents(ps: seq<Parent>): (r: seq<Ty>)
    ensures |r| == |ps|
  {
    seq(|ps|, i requires 0 <= i < |ps| => ps[i].ty)
  }

  /** The types visited before a node is changed. */
  function FirstTypes(n: Node): seq<Ty>
  {
    match n
    case Class(_, _, _, _, params, parents, members, _) => params + TypesOfParents(parents) + TypesOfMembers(members)
    case Container(_, _, params, underlying) => params + if underlying.Some? then [underlying.value] else []
  }

  /** The types visited afterwards. */
  function LastTypes(n: Node): seq<Ty>
  {
    if n.Class? then n.children else []
  }

  function AllTypes(n: Node): seq<Ty>
  {
    FirstTypes(n) + LastTypes(n)
  }

  ghost predicate EarlyEdge(g: Graph, a: Id, b: Id)
  {
    a in g && exists t :: t in FirstTypes(g[a]) && Reached(t) == Some(b)
  }

  ghost predicate Edge(g: Graph, a: Id, b: Id)
  {
    a in g && exists t :: t in AllTypes(g[a]) && Reached(t) == Some(b)
  }

  ghost predicate IsPath(g: Graph, path: seq<Id>)
  {
    |path| >= 2 && forall i, j :: 0 <= i && j == i + 1 && j < |path| ==> Edge(g, path[i], path[j])
  }

  /** A path of at least one step. */
  ghost predicate Reaches(g: Graph, a: Id, b: Id)
  {
    exists path :: IsPath(g, path) && path[0] == a && path[|path| - 1] == b
  }

  /** A path whose first step is taken before the node is changed, and that does not come back to the node. */
  ghost predicate IsEarlyPath(g: Graph, path: seq<Id>)
  {
    IsPath(g, path) && EarlyEdge(g, path[0], path[1]) && forall i :: 0 < i < |path| ==> path[i] != path[0]
  }

  ghost predicate ReachesEarly(g: Graph, a: Id, b: Id)
  {
    exists path :: IsEarlyPath(g, path) && path[0] == a && path[|path| - 1] == b
  }

  lemma EarlyIsEdge(g: Graph, a: Id, b: Id)
    requires EarlyEdge(g, a, b)
    ensures Edge(g, a, b)
  {
  }

  lemma ReachesStep(g: Graph, a: Id, b: Id)
    requires Edge(g, a, b)
    ensures Reaches(g, a, b)
    ensures EarlyEdge(g, a, b) && a != b ==> ReachesEarly(g, a, b)
  {
    var path := [a, b];
    assert IsPath(g, path) && path[0] == a && path[1] == b;
    assert EarlyEdge(g, a, b) && a != b ==> IsEarlyPath(g, path);
  }

  lemma ReachesMore(g: Graph, a: Id, b: Id, c: Id)
    requires Reaches(g, a, b) && Edge(g, b, c)
    ensures Reaches(g, a, c)
  {
    var path :| IsPath(g, path) && path[0] == a && path[|path| - 1] == b;
    var longer := path + [c];
    assert IsPath(g, longer) && longer[0] == a && longer[|longer| - 1] == c;
  }

  lemma ReachesEarlyMore(g: Graph, a: Id, b: Id, c: Id)
    requires ReachesEarly(g, a, b) && Edge(g, b, c) && a != c
    ensures ReachesEarly(g, a, c)
  {
    var path :| IsEarlyPath(g, path) && path[0] == a && path[|path| - 1] == b;
    var longer := path + [c];
    assert IsPath(g, longer) && longer[0] == a && longer[|longer| - 1] == c;
    assert IsEarlyPath(g, longer);
  }

  // ----- depth-first visits

  /** Every node reached from one of the types has been visited. */
  ghost predicate Covered(ts: seq<Ty>, visited: set<Id>)
  {
    forall t :: t in ts && Reached(t).Some? ==> Reached(t).value in visited
  }

  /** The nodes a pass has come across, and those of them that it is done with. */
  datatype Progress = Progress(visited: set<Id>, finished: set<Id>)

  function AllFollowed(g: Graph): map<Id, seq<Ty>>
  {
    map n | n in g :: AllTypes(g[n])
  }

  /** Everything mentioned exists. */
  ghost predicate Closed(g: Graph)
  {
    forall n :: n in g ==> Covered(AllTypes(g[n]), g.Keys)
  }

  /** From p to q, every node newly visited was finished, and all that it mentions was visited. */
  ghost predicate Grew(follow: map<Id, seq<Ty>>, p: Progress, q: Progress)
  {
    && p.visited <= q.visited && p.finished <= q.finished
    && (forall n :: n in q.finished && n !in p.finished <==> n in q.visited && n !in p.visited)
    && (forall n :: n in q.visited && n !in p.visited ==> n in follow && Covered(follow[n], q.visited))
  }

  lemma GrewNot(follow: map<Id, seq<Ty>>, p: Progress)
    ensures Grew(follow, p, p)
  {
  }

  lemma GrewMore(follow: map<Id, seq<Ty>>, p: Progress, q: Progress, r: Progress)
    requires Grew(follow, p, q) && Grew(follow, q, r)
    ensures Grew(follow, p, r)
  {
  }

  /** A node entered at p and finished between two rounds of visits, at q; all its types were visited by r. */
  lemma GrewAround(follow: map<Id, seq<Ty>>, n: Id, p: Progress, q: Progress, r: Progress)
    requires n !in p.visited && n in follow && n !in q.finished
    requires Grew(follow, p.(visited := p.visited + {n}), q)
    requires Grew(follow, q.(finished := q.finished + {n}), r)
    requires Covered(follow[n], r.visited)
    ensures Grew(follow, p, r)
  {
  }

  lemma CoveredConcat(ts: seq<Ty>, us: seq<Ty>, visited: set<Id>)
    requires Covered(ts, visited) && Covered(us, visited)
    ensures Covered(ts + us, visited)
  {
  }

  lemma CoveredMore(ts: seq<Ty>, v: set<Id>, w: set<Id>)
    requires Covered(ts, v) && v <= w
    ensures Covered(ts, w)
  {
  }

  lemma CoveredOne(t: Ty, visited: set<Id>)
    requires Reached(t).Some? ==> Reached(t).value in visited
    ensures Covered([t], visited)
  {
  }

  lemma CoveredLoop(ts: seq<Ty>, i: nat, v: set<Id>, w: set<Id>)
    requires i < |ts| && Covered(ts[..i], v) && v <= w
    requires Reached(ts[i]).Some? ==> Reached(ts[i]).value in w
    ensures Covered(ts[..i + 1], w)
  {
    assert ts[..i + 1] == ts[..i] + [ts[i]];
    CoveredOne(ts[i], w);
    CoveredConcat(ts[..i], [ts[i]], w);
  }

  lemma GrewSets(follow: map<Id, seq<Ty>>, p: Progress, q: Progress)
    requires Grew(follow, p, q)
    ensures p.visited <= q.visited && p.finished <= q.finished
    ensures forall n :: n in q.finished && n !in p.finished <==> n in q.visited && n !in p.visited
  {
  }

  lemma Unvisited(all: set<Id>, v: set<Id>, n: Id)
    requires n in all && n !in v
    ensures |all - (v + {n})| < |all - v|
  {
    assert all - v == (all - (v + {n})) + {n};
  }

  lemma Shrinks(all: set<Id>, v: set<Id>, w: set<Id>)
    requires v <= w
    ensures |all - w| <= |all - v|
  {
    assert all - v == (all - w) + ((all - v) * w);
  }

  // ----- what was in progress

  /** What was in progress at p was still in progress whenever a node was finished until q. */
  ghost predicate StayedOpen(p: Progress, q: Progress, open: map<Id, set<Id>>)
  {
    forall n, x :: n in q.finished && n !in p.finished && x in p.visited && x !in p.finished && n in open ==> x in open[n]
  }

  ghost predicate OpenGrew(p: Progress, open: map<Id, set<Id>>, open': map<Id, set<Id>>)
  {
    forall n :: n in p.finished && n in open ==> n in open' && open'[n] == open[n]
  }

  lemma StayedOpenMore(p: Progress, q: Progress, r: Progress, o: map<Id, set<Id>>, o': map<Id, set<Id>>,
                       follow: map<Id, seq<Ty>>)
    requires Grew(follow, p, q) && Grew(follow, q, r)
    requires StayedOpen(p, q, o) && StayedOpen(q, r, o') && OpenGrew(q, o, o')
    requires forall n :: n in q.finished ==> n in o
    ensures StayedOpen(p, r, o')
  {
  }

  lemma OpenGrewMore(p: Progress, q: Progress, o: map<Id, set<Id>>, o': map<Id, set<Id>>, o'': map<Id, set<Id>>)
    requires OpenGrew(p, o, o') && OpenGrew(q, o', o'') && p.finished <= q.finished
    ensures OpenGrew(p, o, o'')
  {
  }
}
