/** The padding pass, oi/type_graph/AddPadding.cpp. Offsets and lengths are in bits. */
module Padding {
  import opened Machine
  import opened TypeGraph

  function BitLength(g: Graph, m: Member): nat
  {
    if m.bitSize == 0 then SizeOf(g, m.ty) * 8 else m.bitSize
  }

  function EndOf(g: Graph, m: Member): nat
  {
    m.bitOffset + BitLength(g, m)
  }

  /** `addPadding(start, end)`: 64-bit subtraction, a bit-field up to the next byte, then whole bytes. */
  function Gap(start: nat, end: nat): seq<Member>
  {
    var bits := (end - start) % U64_LIMIT;
    var first := if bits % 8 != 0 then [Member(INT8, MEMBER_PREFIX, start, bits % 8, 0)] else [];
    var bytes := if bits / 8 > 0 then [Member(Array(INT8, bits / 8), MEMBER_PREFIX, (start + 7) / 8 * 8, 0, 0)] else [];
    first + bytes
  }

  /** The members from the front, each after its gap; `start` is where the previous one ended. */
  function PadFrom(g: Graph, start: nat, ms: seq<Member>, end: nat): seq<Member>
    decreases |ms|
  {
    if ms == [] then Gap(start, end)
    else Gap(start, ms[0].bitOffset) + ([ms[0]] + PadFrom(g, EndOf(g, ms[0]), ms[1..], end))
  }

  ghost predicate FillsUnion(g: Graph, c: Node)
    requires c.Class?
  {
    exists m :: m in c.members && (m.bitSize == c.size * 8 || SizeOf(g, m.ty) == c.size)
  }

  /** The members of a class after the pass. */
  ghost function Padded(g: Graph, c: Node): seq<Member>
    requires c.Class?
  {
    if c.kind == Struct then PadFrom(g, 0, c.members, c.size * 8)
    else if FillsUnion(g, c) then c.members
    else c.members + Gap(0, c.size * 8)
  }

  // ----- the pass as in the source

  /** `addPadding` between two positions, at the end of the padded members. */
  method AddGap(start: nat, end: nat, padded: seq<Member>) returns (r: seq<Member>)
    ensures r == padded + Gap(start, end)
  {
    r := padded;
    var paddingBits := (end - start) % U64_LIMIT;
    if paddingBits == 0 {
      return;
    }
    if paddingBits % 8 != 0 {
      r := r + [Member(INT8, MEMBER_PREFIX, start, paddingBits % 8, 0)];
    }
    var paddingBytes := paddingBits / 8;
    if paddingBytes > 0 {
      var paddingStartByte := (start + 7) / 8;
      r := r + [Member(Array(INT8, paddingBytes), MEMBER_PREFIX, paddingStartByte * 8, 0, 0)];
    }
  }

  method PadUnion(g: Graph, c: Node) returns (members: seq<Member>)
    requires c.Class? && c.kind == Union
    ensures members == Padded(g, c)
  {
    for i := 0 to |c.members|
      invariant forall k :: 0 <= k < i ==> c.members[k].bitSize != c.size * 8 && SizeOf(g, c.members[k].ty) != c.size
    {
      if c.members[i].bitSize == c.size * 8 || SizeOf(g, c.members[i].ty) == c.size {
        return c.members;
      }
    }
    members := AddGap(0, c.size * 8, c.members);
  }

  method PadStruct(g: Graph, c: Node) returns (members: seq<Member>)
    requires c.Class? && c.kind == Struct
    ensures members == Padded(g, c)
  {
    hide Gap, EndOf, PadFrom;
    members := [];
    assert c.members[0..] == c.members;
    for i := 0 to |c.members|
      invariant members + PadFrom(g, PreviousEnd(g, c.members, i), c.members[i..], c.size * 8) == PadFrom(g, 0, c.members, c.size * 8)
    {
      PadFromStep(g, c.members, i, c.size * 8, members);
      if i == 0 {
        members := AddGap(0, c.members[0].bitOffset, members);
      } else {
        members := AddGap(EndOf(g, c.members[i - 1]), c.members[i].bitOffset, members);
      }
      members := members + [c.members[i]];
    }
    PadFromEnd(g, c.members, c.size * 8);
    if |c.members| > 0 {
      members := AddGap(EndOf(g, c.members[|c.members| - 1]), c.size * 8, members);
    } else {
      members := AddGap(0, c.size * 8, members);
    }
  }

  /** Where the member before index i ends. */
  function PreviousEnd(g: Graph, ms: seq<Member>, i: nat): nat
    requires i <= |ms|
  {
    if i == 0 then 0 else EndOf(g, ms[i - 1])
  }

  lemma PadFromStep(g: Graph, ms: seq<Member>, i: nat, end: nat, before: seq<Member>)
    requires i < |ms|
    ensures before + PadFrom(g, PreviousEnd(g, ms, i), ms[i..], end) ==
            ((before + Gap(PreviousEnd(g, ms, i), ms[i].bitOffset)) + [ms[i]]) + PadFrom(g, PreviousEnd(g, ms, i + 1), ms[i + 1..], end)
  {
    assert ms[i..][0] == ms[i] && ms[i..][1..] == ms[i + 1..];
    var gap, rest := Gap(PreviousEnd(g, ms, i), ms[i].bitOffset), PadFrom(g, PreviousEnd(g, ms, i + 1), ms[i + 1..], end);
    assert before + (gap + ([ms[i]] + rest)) == ((before + gap) + [ms[i]]) + rest;
  }

  lemma PadFromEnd(g: Graph, ms: seq<Member>, end: nat)
    ensures PadFrom(g, PreviousEnd(g, ms, |ms|), ms[|ms|..], end) == Gap(PreviousEnd(g, ms, |ms|), end)
  {
  }

  /** The types that the pass goes on to from a node: a union is left before its children. */
  function Followed(n: Node): seq<Ty>
  {
    match n
    case Container(_, _, _, _) => FirstTypes(n)
    case Class(kind, _, _, _, params, _, members, children) =>
      params + TypesOfMembers(members) + if kind == Union then [] else children
  }

  function FollowedIn(g: Graph): map<Id, seq<Ty>>
  {
    map n | n in g :: Followed(g[n])
  }

  ghost function PaddedNode(g: Graph, n: Node): Node
  {
    if n.Class? then n.(members := Padded(g, n)) else n
  }

  /** Nodes that the pass does not lead out of, and of which no class has parents any more. */
  ghost predicate Flattened(g: Graph, region: set<Id>)
  {
    region <= g.Keys && forall n :: n in region ==> Covered(Followed(g[n]), region) && (g[n].Class? ==> g[n].parents == [])
  }

  /** Exactly the finished nodes have been padded. */
  ghost predicate PaddedSoFar(g0: Graph, g: Graph, p: Progress)
  {
    && g.Keys == g0.Keys && p.finished <= p.visited <= g0.Keys
    && forall n :: n in g0 ==> g[n] == if n in p.finished then PaddedNode(g0, g0[n]) else g0[n]
  }

  lemma {:induction false} SameSizes(g0: Graph, g: Graph, p: Progress, ty: Ty)
    requires PaddedSoFar(g0, g, p)
    ensures SizeOf(g, ty) == SizeOf(g0, ty)
  {
    if ty.Array? {
      SameSizes(g0, g, p, ty.element);
    }
  }

  lemma {:induction false} SamePadding(g0: Graph, g: Graph, p: Progress, start: nat, ms: seq<Member>, end: nat)
    requires PaddedSoFar(g0, g, p)
    ensures PadFrom(g, start, ms, end) == PadFrom(g0, start, ms, end)
    decreases |ms|
  {
    if ms != [] {
      SameSizes(g0, g, p, ms[0].ty);
      SamePadding(g0, g, p, EndOf(g, ms[0]), ms[1..], end);
    }
  }

  lemma SamePaddedNode(g0: Graph, g: Graph, p: Progress, n: Node)
    requires PaddedSoFar(g0, g, p) && n.Class?
    ensures Padded(g, n) == Padded(g0, n)
  {
    SamePadding(g0, g, p, 0, n.members, n.size * 8);
    forall m | m in n.members
      ensures SizeOf(g, m.ty) == SizeOf(g0, m.ty)
    {
      SameSizes(g0, g, p, m.ty);
    }
  }

  class AddPadding {
    var nodes: Graph
    var visited: set<Id>
    ghost var finished: set<Id>

    constructor (g: Graph)
      ensures nodes == g && visited == {} && finished == {}
    {
      nodes, visited, finished := g, {}, {};
    }

    ghost function State(): Progress
      reads this
    {
      Progress(visited, finished)
    }

    /** The pass from its root types: every node that they lead to is padded, once. */
    method Run(roots: seq<Ty>, ghost region: set<Id>)
      requires visited == {} && finished == {}
      requires Flattened(nodes, region) && Covered(roots, region)
      modifies this
      ensures finished == visited && PaddedSoFar(old(nodes), nodes, State())
      ensures Covered(roots, visited) && visited <= region
      ensures forall n :: n in visited ==> Covered(Followed(old(nodes)[n]), visited)
    {
      AcceptAll(roots, nodes, region);
    }

    method Accept(ty: Ty, ghost g0: Graph, ghost region: set<Id>)
      requires Flattened(g0, region) && PaddedSoFar(g0, nodes, State()) && visited <= region
      requires Reached(ty).Some? ==> Reached(ty).value in region
      modifies this
      ensures visited <= region && PaddedSoFar(g0, nodes, State()) && Grew(FollowedIn(g0), old(State()), State())
      ensures Reached(ty).Some? ==> Reached(ty).value in visited
      decreases |g0.Keys - visited|, 2, 0
    {
      GrewNot(FollowedIn(g0), State());
      var id := Reached(ty);
      if id.None? || id.value in visited {
        return;
      }
      ghost var p := State();
      Unvisited(g0.Keys, visited, id.value);
      visited := visited + {id.value};
      Visit(id.value, g0, region, p);
    }

    method AcceptAll(ts: seq<Ty>, ghost g0: Graph, ghost region: set<Id>)
      requires Flattened(g0, region) && PaddedSoFar(g0, nodes, State()) && visited <= region
      requires Covered(ts, region)
      modifies this
      ensures visited <= region && PaddedSoFar(g0, nodes, State()) && Grew(FollowedIn(g0), old(State()), State())
      ensures Covered(ts, visited)
      decreases |g0.Keys - visited|, 3, 0
    {
      hide PaddedSoFar, Flattened, Grew;
      GrewNot(FollowedIn(g0), State());
      GrewSets(FollowedIn(g0), State(), State());
      for i := 0 to |ts|
        invariant visited <= region && PaddedSoFar(g0, nodes, State()) && Grew(FollowedIn(g0), old(State()), State())
        invariant old(visited) <= visited
        invariant Covered(ts[..i], visited)
      {
        ghost var q := State();
        Shrinks(g0.Keys, old(visited), visited);
        Accept(ts[i], g0, region);
        GrewSets(FollowedIn(g0), q, State());
        CoveredLoop(ts, i, q.visited, visited);
        GrewMore(FollowedIn(g0), old(State()), q, State());
      }
      assert ts[..|ts|] == ts;
    }

    /** `visit`, for a class or a container that has just been marked as visited. */
    method Visit(id: Id, ghost g0: Graph, ghost region: set<Id>, ghost p: Progress)
      requires Flattened(g0, region) && PaddedSoFar(g0, nodes, State()) && visited <= region
      requires id in g0 && id in region && id !in p.visited && State() == p.(visited := p.visited + {id}) && p.finished <= p.visited
      requires id in nodes && nodes[id] == g0[id]
      modifies this
      ensures visited <= region && PaddedSoFar(g0, nodes, State()) && Grew(FollowedIn(g0), p, State())
      ensures id in visited
      decreases |g0.Keys - visited|, 4, 0
    {
      hide Padded, Grew, Followed, PaddedSoFar, Flattened;
      ghost var follow := FollowedIn(g0);
      ghost var q := State();
      var node := nodes[id];
      assert node == g0[id];
      FollowedExist(g0, region, id);
      if node.Container? {
        AcceptAll(FirstTypes(node), g0, region);
      } else {
        AcceptAll(node.params + TypesOfMembers(node.members), g0, region);
      }
      ghost var r := State();
      GrewSets(follow, q, r);
      PadNode(id, g0);
      GrewNot(follow, State());
      Shrinks(g0.Keys, q.visited, visited);
      if node.Class? && node.kind == Struct {
        AcceptAll(node.children, g0, region);
      }
      GrewSets(follow, r.(finished := r.finished + {id}), State());
      FollowedCovered(g0, id, r.visited, visited);
      GrewAround(follow, id, p, r, State());
    }

    /** Replaces the members of one class by the padded members. */
    method PadNode(id: Id, ghost g0: Graph)
      requires PaddedSoFar(g0, nodes, State()) && id in visited && id !in finished
      modifies this`nodes, this`finished
      ensures finished == old(finished) + {id} && PaddedSoFar(g0, nodes, State())
    {
      hide Padded;
      var node := nodes[id];
      if node.Class? {
        var members;
        SamePaddedNode(g0, nodes, State(), node);
        if node.kind == Union {
          members := PadUnion(nodes, node);
        } else {
          members := PadStruct(nodes, node);
        }
        nodes := nodes[id := node.(members := members)];
      }
      finished := finished + {id};
    }
  }

  lemma FollowedCovered(g0: Graph, id: Id, v: set<Id>, w: set<Id>)
    requires id in g0 && v <= w
    requires if g0[id].Container? then Covered(FirstTypes(g0[id]), v)
             else Covered(g0[id].params + TypesOfMembers(g0[id].members), v) && (g0[id].kind == Struct ==> Covered(g0[id].children, w))
    ensures Covered(FollowedIn(g0)[id], w)
  {
    if g0[id].Class? {
      CoveredMore(g0[id].params + TypesOfMembers(g0[id].members), v, w);
      CoveredConcat(g0[id].params + TypesOfMembers(g0[id].members), if g0[id].kind == Union then [] else g0[id].children, w);
    }
  }

  lemma FollowedExist(g0: Graph, region: set<Id>, id: Id)
    requires Flattened(g0, region) && id in region
    ensures id in g0 && region <= g0.Keys
    ensures g0[id].Class? ==> Covered(g0[id].params + TypesOfMembers(g0[id].members), region)
    ensures g0[id].Class? && g0[id].kind == Struct ==> Covered(g0[id].children, region)
    ensures g0[id].Container? ==> Covered(FirstTypes(g0[id]), region)
  {
    assert forall t :: t in Followed(g0[id]) && Reached(t).Some? ==> Reached(t).value in region;
  }

  // ----- tiling

  /** The members are in order and do not overlap, and nothing is past the end. */
  ghost predicate Ordered(g: Graph, start: nat, ms: seq<Member>, end: nat)
    decreases |ms|
  {
    if ms == [] then start <= end < U64_LIMIT
    else start <= ms[0].bitOffset < U64_LIMIT && Ordered(g, EndOf(g, ms[0]), ms[1..], end)
  }

  lemma {:induction false} OrderedEarlier(g: Graph, earlier: nat, start: nat, ms: seq<Member>, end: nat)
    requires earlier <= start && Ordered(g, start, ms, end)
    ensures Ordered(g, earlier, ms, end)
  {
    if ms == [] {
    }
  }

  /** The members cover everything from `start` to `end`, each starting where the one before it ends. */
  ghost predicate Tiles(g: Graph, start: nat, ms: seq<Member>, end: nat)
    decreases |ms|
  {
    if ms == [] then start == end
    else ms[0].bitOffset == start && Tiles(g, EndOf(g, ms[0]), ms[1..], end)
  }

  /** A gap that can be filled: it ends on a byte boundary or is shorter than a byte. */
  predicate Fillable(start: nat, end: nat)
  {
    end % 8 == 0 || end - start < 8
  }

  ghost predicate GapsFillable(g: Graph, start: nat, ms: seq<Member>, end: nat)
    decreases |ms|
  {
    if ms == [] then Fillable(start, end)
    else Fillable(start, ms[0].bitOffset) && GapsFillable(g, EndOf(g, ms[0]), ms[1..], end)
  }

  lemma {:induction false} TilesConcat(g: Graph, start: nat, a: seq<Member>, mid: nat, b: seq<Member>, end: nat)
    requires Tiles(g, start, a, mid)
    ensures Tiles(g, start, a + b, end) <==> Tiles(g, mid, b, end)
    decreases |a|
  {
    if a == [] {
      assert a + b == b;
    } else {
      assert (a + b)[1..] == a[1..] + b;
      TilesConcat(g, EndOf(g, a[0]), a[1..], mid, b, end);
    }
  }

  function BitPad(start: nat, bits: nat): Member
  {
    Member(INT8, MEMBER_PREFIX, start, bits, 0)
  }

  function BytePad(start: nat, bytes: nat): Member
  {
    Member(Array(INT8, bytes), MEMBER_PREFIX, (start + 7) / 8 * 8, 0, 0)
  }

  lemma BytePadLength(g: Graph, start: nat, bytes: nat)
    ensures BitLength(g, BytePad(start, bytes)) == bytes * 8
  {
    assert SizeOf(g, INT8) == 1;
  }

  /** The shapes that the padding of a gap can have. */
  lemma GapShapes(start: nat, end: nat)
    requires start <= end < U64_LIMIT
    ensures var bits := end - start;
            Gap(start, end) ==
            if bits == 0 then []
            else if bits % 8 == 0 then [BytePad(start, bits / 8)]
            else if bits < 8 then [BitPad(start, bits)]
            else [BitPad(start, bits % 8), BytePad(start, bits / 8)]
  {
  }

  lemma TilesOne(g: Graph, start: nat, m: Member, b: seq<Member>, end: nat)
    ensures Tiles(g, start, [m] + b, end) <==> m.bitOffset == start && Tiles(g, EndOf(g, m), b, end)
  {
    assert ([m] + b)[1..] == b;
  }

  lemma FillableGapTiles(g: Graph, start: nat, end: nat)
    requires start <= end < U64_LIMIT && Fillable(start, end)
    ensures Tiles(g, start, Gap(start, end), end)
  {
    GapShapes(start, end);
    var bits := end - start;
    BytePadLength(g, start, bits / 8);
    var bytePad, bitPad := BytePad(start, bits / 8), BitPad(start, bits % 8);
    TilesOne(g, start, bytePad, [], end);
    TilesOne(g, start, bitPad, [], end);
    TilesOne(g, start + bits % 8, bytePad, [], end);
    TilesOne(g, start, bitPad, [bytePad], end);
    assert [bytePad] + [] == [bytePad] && [bitPad] + [] == [bitPad] && [bitPad] + [bytePad] == [bitPad, bytePad];
  }

  /** Padding that does not tile its own gap spoils the tiling, whatever follows. */
  lemma OtherGapDoesNotTile(g: Graph, start: nat, end: nat, b: seq<Member>, last: nat)
    requires start <= end < U64_LIMIT && !Fillable(start, end)
    ensures !Tiles(g, start, Gap(start, end) + b, last)
  {
    GapShapes(start, end);
    var bits := end - start;
    var bytePad, bitPad := BytePad(start, bits / 8), BitPad(start, bits % 8);
    if bits % 8 == 0 {
      TilesOne(g, start, bytePad, b, last);
    } else {
      TilesOne(g, start, bitPad, [bytePad] + b, last);
      TilesOne(g, start + bits % 8, bytePad, b, last);
      assert [bitPad, bytePad] + b == [bitPad] + ([bytePad] + b);
    }
  }

  /** The padded members tile the class exactly when every gap can be filled. */
  lemma {:induction false} PaddingTiles(g: Graph, start: nat, ms: seq<Member>, end: nat)
    requires Ordered(g, start, ms, end)
    ensures Tiles(g, start, PadFrom(g, start, ms, end), end) <==> GapsFillable(g, start, ms, end)
    decreases |ms|
  {
    if ms == [] {
      if Fillable(start, end) {
        FillableGapTiles(g, start, end);
      } else {
        OtherGapDoesNotTile(g, start, end, [], end);
        assert Gap(start, end) + [] == Gap(start, end);
      }
    } else {
      var m := ms[0];
      var rest := PadFrom(g, EndOf(g, m), ms[1..], end);
      PaddingTiles(g, EndOf(g, m), ms[1..], end);
      if !Fillable(start, m.bitOffset) {
        OtherGapDoesNotTile(g, start, m.bitOffset, [m] + rest, end);
      } else {
        FillableGapTiles(g, start, m.bitOffset);
        TilesConcat(g, start, Gap(start, m.bitOffset), m.bitOffset, [m] + rest, end);
        assert ([m] + rest)[1..] == rest;
      }
    }
  }

  lemma NoGap(start: nat)
    ensures Gap(start, start) == []
  {
  }

  /** A class that is already tiled is left as it is. */
  lemma {:induction false} PaddingTiledIsSame(g: Graph, start: nat, ms: seq<Member>, end: nat)
    requires Tiles(g, start, ms, end)
    ensures PadFrom(g, start, ms, end) == ms
    decreases |ms|
  {
    if ms == [] {
      NoGap(start);
    } else {
      NoGap(start);
      PaddingTiledIsSame(g, EndOf(g, ms[0]), ms[1..], end);
      assert [] + ([ms[0]] + ms[1..]) == ms;
    }
  }

  /** Running the pass again changes nothing. */
  lemma PaddingTwice(g: Graph, start: nat, ms: seq<Member>, end: nat)
    requires Ordered(g, start, ms, end) && GapsFillable(g, start, ms, end)
    ensures PadFrom(g, start, PadFrom(g, start, ms, end), end) == PadFrom(g, start, ms, end)
  {
    PaddingTiles(g, start, ms, end);
    PaddingTiledIsSame(g, start, PadFrom(g, start, ms, end), end);
  }

  /** For a union the second run never changes anything, whatever its members. */
  lemma UnionPaddingTwice(g: Graph, c: Node)
    requires c.Class? && c.kind == Union && c.size * 8 < U64_LIMIT
    ensures Padded(g, c.(members := Padded(g, c))) == Padded(g, c)
    ensures c.members <= Padded(g, c)
  {
    if !FillsUnion(g, c) {
      var after := c.(members := Padded(g, c));
      if c.size > 0 {
        var pad := Gap(0, c.size * 8)[0];
        assert after.members[|c.members|] == pad && SizeOf(g, pad.ty) == c.size;
        assert pad in after.members;
      } else {
        assert Gap(0, 0) == [];
        assert after.members == c.members;
      }
    }
  }

  // ----- the original members

  predicate IsPadding(m: Member)
  {
    MEMBER_PREFIX <= m.name
  }

  function WithoutPadding(ms: seq<Member>): seq<Member>
  {
    if ms == [] then [] else (if IsPadding(ms[0]) then [] else [ms[0]]) + WithoutPadding(ms[1..])
  }

  lemma {:induction false} WithoutPaddingConcat(a: seq<Member>, b: seq<Member>)
    ensures WithoutPadding(a + b) == WithoutPadding(a) + WithoutPadding(b)
    decreases |a|
  {
    if a == [] {
      assert a + b == b;
    } else {
      assert (a + b)[1..] == a[1..] + b;
      WithoutPaddingConcat(a[1..], b);
    }
  }

  lemma GapIsPadding(start: nat, end: nat)
    ensures WithoutPadding(Gap(start, end)) == []
  {
    var s := Gap(start, end);
    assert forall i :: 0 <= i < |s| ==> s[i].name == MEMBER_PREFIX && IsPadding(s[i]);
    OnlyPadding(s);
  }

  lemma {:induction false} OnlyPadding(s: seq<Member>)
    requires forall i :: 0 <= i < |s| ==> IsPadding(s[i])
    ensures WithoutPadding(s) == []
  {
    if s != [] {
      OnlyPadding(s[1..]);
    }
  }

  /** The class's own members survive, unchanged and in order. */
  lemma {:induction false} PaddingKeepsMembers(g: Graph, start: nat, ms: seq<Member>, end: nat)
    ensures WithoutPadding(PadFrom(g, start, ms, end)) == WithoutPadding(ms)
    decreases |ms|
  {
    if ms == [] {
      GapIsPadding(start, end);
    } else {
      var rest := PadFrom(g, EndOf(g, ms[0]), ms[1..], end);
      PaddingKeepsMembers(g, EndOf(g, ms[0]), ms[1..], end);
      GapIsPadding(start, ms[0].bitOffset);
      WithoutPaddingConcat(Gap(start, ms[0].bitOffset), [ms[0]] + rest);
      assert ([ms[0]] + rest)[1..] == rest;
    }
  }
}
