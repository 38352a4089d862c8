/** The recursive decoding of oi/TreeBuilder.cpp as a function: from words to nodes, and the words that are left. */
module TreeDecoding {
  import opened Machine
  import opened TreeModel

  /** Whether a type is primitive, through any typedefs. */
  ghost predicate PrimitiveThrough(th: Hierarchy, rank: Ty -> nat, ty: Ty)
    requires Ranked(th, rank)
    decreases rank(ty)
  {
    if th.kind(ty) != TypedefKind then th.primitive(ty)
    else ty in th.typedefMap && PrimitiveThrough(th, rank, th.typedefMap[ty])
  }

  ghost predicate AllThrough(th: Hierarchy, rank: Ty -> nat, types: seq<Ty>)
    requires Ranked(th, rank)
  {
    forall i :: 0 <= i < |types| ==> PrimitiveThrough(th, rank, types[i])
  }

  function SizeOr0(th: Hierarchy, ty: Ty): nat
  {
    if th.size(ty).Some? then th.size(ty).value else 0
  }

  ghost function SizesIn(th: Hierarchy, types: seq<Ty>): seq<nat>
  {
    seq(|types|, i requires 0 <= i < |types| => SizeOr0(th, types[i]))
  }

  lemma SizesCount(th: Hierarchy, types: seq<Ty>)
    ensures |SizesIn(th, types)| == |types|
  {
  }

  /** The types of the members of a class. */
  function MemberTypes(members: seq<ClassMember>): (r: seq<Ty>)
    ensures |r| == |members| && forall i :: 0 <= i < |r| ==> r[i] == members[i].ty
  {
    seq(|members|, i requires 0 <= i < |members| => members[i].ty)
  }

  /** The types of the children of n elements. */
  function Repeated(types: seq<Ty>, n: nat): (r: seq<Ty>)
    ensures |r| == n * |types|
  {
    if n == 0 then [] else Distribute(n, 1, |types|); Repeated(types, n - 1) + types
  }

  lemma {:induction false} RepeatedAt(types: seq<Ty>, n: nat, i: nat, j: nat)
    requires i < n && j < |types|
    ensures i * |types| + j < |Repeated(types, n)| && Repeated(types, n)[i * |types| + j] == types[j]
  {
    MulMono(i + 1, n, |types|);
    Distribute(i, 1, |types|);
    Distribute(n, 1, |types|);
    if i < n - 1 {
      RepeatedAt(types, n - 1, i, j);
    }
  }

  /** A node with one child. */
  function Adopted(node: Node, child: Node, owned: bool): Node
  {
    Sized(node.(children := Some((child.id, child.id + 1))),
      if owned then child.staticSize + child.dynamicSize else child.dynamicSize, child.dynamicSize + child.staticSize)
  }

  /** Is the type's content described by words of its own? */
  predicate ContainerType(config: Config, th: Hierarchy, ty: Ty)
  {
    ty in th.containerTypeMap || (th.kind(ty) == ArrayKind && (config.typeGraph || th.length(ty) > 0))
  }

  /** A container's kind and element types. */
  function ContainerElements(th: Hierarchy, ty: Ty): (ContainerKind, seq<Ty>)
    requires ty in th.containerTypeMap || th.kind(ty) == ArrayKind
  {
    if th.kind(ty) == ArrayKind then (ArrayType, [th.element(ty)]) else th.containerTypeMap[ty]
  }

  /** The class that an object turns out to be of, and its node with the size of that class. */
  ghost function Selected(th: Hierarchy, ty: Ty, d: seq<U64>, node0: Node): Option<(Ty, Node)>
  {
    if ty !in th.descendantClasses then Some((ty, node0))
    else if d == [] then None
    else if d[0] == NO_VALUE then Some((ty, node0))
    else if d[0] >= |th.descendantClasses[ty]| then None
    else
      var objectType := th.descendantClasses[ty][d[0]];
      if th.size(objectType).None? then None
      else Some((objectType, node0.(ty := objectType, staticSize := th.size(objectType).value)))
  }

  ghost function BoundOf(rank: Ty -> nat, types: seq<Ty>): (bound: nat)
    ensures forall i :: 0 <= i < |types| ==> rank(types[i]) < bound
  {
    if types == [] then 0
    else
      var rest := BoundOf(rank, types[1..]);
      assert forall i :: 0 < i < |types| ==> types[i] == types[1..][i - 1];
      Max(rest, rank(types[0]) + 1)
  }

  lemma PairRanks(th: Hierarchy, rank: Ty -> nat, ty: Ty)
    requires Ranked(th, rank) && ty in th.containerTypeMap && th.containerTypeMap[ty].0 == PairType
    ensures forall i :: 0 <= i < |th.containerTypeMap[ty].1| ==> rank(th.containerTypeMap[ty].1[i]) < rank(ty)
  {
  }

  lemma MemberRanks(th: Hierarchy, rank: Ty -> nat, ty: Ty)
    requires Ranked(th, rank) && ty in th.classMembersMap
    ensures forall i :: 0 <= i < |th.classMembersMap[ty]| ==> rank(th.classMembersMap[ty][i].ty) < rank(ty)
  {
  }

  lemma FunctionRank(th: Hierarchy, rank: Ty -> nat, ty: Ty)
    requires Ranked(th, rank) && ty in th.pointerToTypeMap && th.kind(th.pointerToTypeMap[ty]) == FunctionKind
    ensures rank(th.pointerToTypeMap[ty]) < rank(ty)
  {
  }

  lemma TypedefRank(th: Hierarchy, rank: Ty -> nat, ty: Ty)
    requires Ranked(th, rank) && ty in th.typedefMap
    ensures rank(th.typedefMap[ty]) < rank(ty)
  {
  }

  // ----- decoding

  /** A node, those below it in the order in which they are stored, and the words and the first ID that are left. */
  datatype Decoded = Decoded(node: Node, below: seq<Node>, rest: seq<U64>, next: NodeID)

  /** The sizes of some children in a block, with all the nodes so far, and what is left. */
  datatype Block = Block(dynamics: nat, sizes: nat, nodes: seq<Node>, rest: seq<U64>, next: NodeID)

  function Leaf(node: Node, d: seq<U64>, next: NodeID): Result<Decoded>
  {
    Ok(Decoded(node, [], d, next))
  }

  /** What takes up a block of IDs when all children have been decoded. */
  function Closed(node: Node, first: NodeID, count: nat, dynamicSize: nat, b: Block): Decoded
  {
    Decoded(Sized(node.(children := Some((first, first + count))), dynamicSize + b.dynamics, b.sizes), b.nodes, b.rest, b.next)
  }

  /** The elements of a container, as if they were members. */
  function AsMembers(types: seq<Ty>): (ms: seq<ClassMember>)
    ensures |ms| == |types| && forall i :: 0 <= i < |ms| ==> ms[i] == ClassMember(types[i], false)
  {
    seq(|types|, i requires 0 <= i < |types| => ClassMember(types[i], false))
  }

  /** A word says whether a member is set, except for the last one. */
  predicate HasIsset(members: seq<ClassMember>, capture: bool, i: nat)
  {
    capture && i < |members| - 1
  }

  function IssetOf(word: U64): Option<bool>
  {
    if word == NO_VALUE then None else Some(word != 0)
  }

  function SelectError(th: Hierarchy, ty: Ty, d: seq<U64>): Error
    requires ty in th.descendantClasses
  {
    if d == [] then EndOfData
    else if d[0] != NO_VALUE && d[0] >= |th.descendantClasses[ty]| then Undefined
    else NoSize
  }

  ghost predicate SizesKnown(th: Hierarchy, types: seq<Ty>)
  {
    forall i :: 0 <= i < |types| ==> th.size(types[i]).Some?
  }

  ghost function Decode(c: Config, th: Hierarchy, rank: Ty -> nat, v: Variable, id: NodeID, d: seq<U64>, next: NodeID)
    : (r: Result<Decoded>)
    requires Ranked(th, rank)
    ensures r.Ok? ==> |r.value.rest| <= |d|
    decreases |d|, rank(v.ty), 9
  {
    if th.size(v.ty).None? then Err(NoSize)
    else
      var size := th.size(v.ty).value;
      DecodeFill(c, th, rank, v, Node(id, size, 0, size, None, None, None, v.isset, false, v.ty), d, next)
  }

  ghost function DecodeFill(c: Config, th: Hierarchy, rank: Ty -> nat, v: Variable, node: Node, d: seq<U64>,
                            next: NodeID)
    : (r: Result<Decoded>)
    requires Ranked(th, rank)
    ensures r.Ok? ==> |r.value.rest| <= |d|
    decreases |d|, rank(v.ty), 8
  {
    if v.isStubbed then Leaf(node, d, next)
    else
      match th.kind(v.ty)
      case PointerKind => if c.chaseRawPointers then DecodePointer(c, th, rank, v.ty, node, d, next) else Leaf(node, d, next)
      case TypedefKind => DecodeTypedef(c, th, rank, v.ty, node, d, next)
      case RecordKind => DecodeRecord(c, th, rank, v.ty, node, d, next)
      case ArrayKind => DecodeRecord(c, th, rank, v.ty, node, d, next)
      case _ => Leaf(node, d, next)
  }

  /** A single child, which gets the next ID. */
  ghost function DecodeOnly(c: Config, th: Hierarchy, rank: Ty -> nat, ty: Ty, owned: bool, node: Node, d: seq<U64>,
                            next: NodeID)
    : (r: Result<Decoded>)
    requires Ranked(th, rank)
    ensures r.Ok? ==> |r.value.rest| <= |d| && r.value.below != []
    decreases |d|, rank(ty), 10
  {
    match Decode(c, th, rank, Variable(ty, None, false), next, d, next + 1)
    case Err(e) => Err(e)
    case Ok(x) => Ok(Decoded(Adopted(node, x.node, owned), x.below + [x.node], x.rest, x.next))
  }

  ghost function DecodePointer(c: Config, th: Hierarchy, rank: Ty -> nat, ty: Ty, node: Node, d: seq<U64>, next: NodeID)
    : (r: Result<Decoded>)
    requires Ranked(th, rank)
    ensures r.Ok? ==> |r.value.rest| <= |d|
    decreases |d|, rank(ty), 7
  {
    if ty in th.knownDummyTypeList || ty !in th.pointerToTypeMap then Leaf(node, d, next)
    else
      var inner := th.pointerToTypeMap[ty];
      if th.kind(inner) == FunctionKind then
        FunctionRank(th, rank, ty);
        DecodeOnly(c, th, rank, inner, true, node, d, next)
      else if d == [] then Err(EndOfData)
      else
        var read := node.(pointer := Some(d[0]));
        if th.kind(inner) == VoidKind then Leaf(read, d[1..], next)
        else if |d| < 2 then Err(EndOfData)
        else if d[1] == SKIPPED then Leaf(read, d[2..], next)
        else DecodeOnly(c, th, rank, inner, true, read, d[2..], next)
  }

  ghost function DecodeTypedef(c: Config, th: Hierarchy, rank: Ty -> nat, ty: Ty, node: Node, d: seq<U64>, next: NodeID)
    : (r: Result<Decoded>)
    requires Ranked(th, rank)
    ensures r.Ok? ==> |r.value.rest| <= |d|
    decreases |d|, rank(ty), 7
  {
    if th.standardInteger(ty) then Leaf(node, d, next)
    else if ty !in th.typedefMap then Leaf(node.(isTypedef := true), d, next)
    else
      TypedefRank(th, rank, ty);
      DecodeOnly(c, th, rank, th.typedefMap[ty], false, node.(isTypedef := true), d, next)
  }

  ghost function DecodeRecord(c: Config, th: Hierarchy, rank: Ty -> nat, ty: Ty, node: Node, d: seq<U64>, next: NodeID)
    : (r: Result<Decoded>)
    requires Ranked(th, rank)
    ensures r.Ok? ==> |r.value.rest| <= |d|
    decreases |d|, rank(ty), 7
  {
    if ty in th.knownDummyTypeList then Leaf(node, d, next)
    else if ContainerType(c, th, ty) then DecodeContainer(c, th, rank, ty, node, d, next)
    else if ty !in th.descendantClasses then DecodeClass(c, th, rank, ty, node, d, next)
    else
      match Selected(th, ty, d, node)
      case None => Err(SelectError(th, ty, d))
      case Some(s) => DecodeClass(c, th, rank, s.0, s.1, d[1..], next)
  }

  /** The members of a class take up a block of IDs. */
  ghost function DecodeClass(c: Config, th: Hierarchy, rank: Ty -> nat, ty: Ty, node: Node, d: seq<U64>, next: NodeID)
    : (r: Result<Decoded>)
    requires Ranked(th, rank)
    ensures r.Ok? ==> |r.value.rest| <= |d|
    decreases |d|, rank(ty), 6
  {
    if ty !in th.classMembersMap || th.classMembersMap[ty] == [] then Leaf(node, d, next)
    else
      var members := th.classMembersMap[ty];
      MemberRanks(th, rank, ty);
      match DecodeBlock(c, th, rank, rank(ty), members, ty in th.thriftIssetStructTypes, next, 0, Block(0, 0, [], d, next + |members|))
      case Err(e) => Err(e)
      case Ok(b) => Ok(Closed(node, next, |members|, 0, b))
  }

  ghost predicate MembersBelow(rank: Ty -> nat, members: seq<ClassMember>, bound: nat)
  {
    forall i :: 0 <= i < |members| ==> rank(members[i].ty) < bound
  }

  /** The children in a block from index i on, each taking the words that the one before it left. */
  ghost function DecodeBlock(c: Config, th: Hierarchy, rank: Ty -> nat, bound: nat, members: seq<ClassMember>,
                             capture: bool, first: NodeID, i: nat, b: Block)
    : (r: Result<Block>)
    requires Ranked(th, rank) && i <= |members| && MembersBelow(rank, members, bound)
    ensures r.Ok? ==> |r.value.rest| <= |b.rest|
    decreases |b.rest|, bound, 3, |members| - i
  {
    if i == |members| then Ok(b)
    else if HasIsset(members, capture, i) && b.rest == [] then Err(EndOfData)
    else
      var isset := if HasIsset(members, capture, i) then IssetOf(b.rest[0]) else None;
      var d := if HasIsset(members, capture, i) then b.rest[1..] else b.rest;
      match Decode(c, th, rank, Variable(members[i].ty, isset, members[i].isStubbed), first + i, d, b.next)
      case Err(e) => Err(e)
      case Ok(x) => DecodeBlock(c, th, rank, bound, members, capture, first, i + 1, Joined(b, x))
  }

  function Joined(b: Block, x: Decoded): Block
  {
    Block(b.dynamics + x.node.dynamicSize, b.sizes + (x.node.dynamicSize + x.node.staticSize), b.nodes + (x.below + [x.node]), x.rest, x.next)
  }

  ghost function DecodeContainer(c: Config, th: Hierarchy, rank: Ty -> nat, ty: Ty, node: Node, d: seq<U64>,
                                 next: NodeID)
    : (r: Result<Decoded>)
    requires Ranked(th, rank) && ContainerType(c, th, ty)
    ensures r.Ok? ==> |r.value.rest| <= |d|
    decreases |d|, rank(ty), 6
  {
    var (kind, types) := ContainerElements(th, ty);
    if !SizesKnown(th, types) then Err(NoSize)
    else
      var h := HeaderOf(kind, SizesIn(th, types), node.staticSize, d);
      SizesCount(th, types);
      HeaderProgress(kind, SizesIn(th, types), node.staticSize, d);
      if h.Failed? then Err(h.error)
      else
        ContainerBound(th, rank, ty, h, |SizesIn(th, types)|, |d|);
        DecodeHeader(c, th, rank, if h.words == 0 then rank(ty) else BoundOf(rank, types), h, types, node, d[h.words..], next)
  }

  lemma ContainerBound(th: Hierarchy, rank: Ty -> nat, ty: Ty, h: Header, count: nat, words: nat)
    requires Ranked(th, rank) && (ty in th.containerTypeMap || th.kind(ty) == ArrayKind) && !h.Failed?
    requires Progresses(h, ContainerElements(th, ty).0, count, words)
    ensures var types := ContainerElements(th, ty).1;
            var bound := if h.words == 0 then rank(ty) else BoundOf(rank, types);
            h.One? || (h.All? && h.stats.length > 0) ==> forall i :: 0 <= i < |types| ==> rank(types[i]) < bound
  {
    if h.words == 0 && ContainerElements(th, ty).0 == PairType {
      PairRanks(th, rank, ty);
    }
  }

  /** What a container's words ask for. */
  ghost function DecodeHeader(c: Config, th: Hierarchy, rank: Ty -> nat, bound: nat, h: Header, types: seq<Ty>,
                              node0: Node,
                              d: seq<U64>, next: NodeID)
    : (r: Result<Decoded>)
    requires Ranked(th, rank) && !h.Failed? && (h.One? ==> h.index < |types|)
    requires h.One? || (h.All? && h.stats.length > 0) ==> forall i :: 0 <= i < |types| ==> rank(types[i]) < bound
    ensures r.Ok? ==> |r.value.rest| <= |d|
    decreases |d|, bound, 5
  {
    var node := node0.(pointer := h.pointer, containerStats := Some(h.stats));
    if h.Complete? then Leaf(Sized(node, h.dynamicSize, 0), d, next)
    else if h.One? then
      match DecodeOnly(c, th, rank, types[h.index], false, node, d, next)
      case Err(e) => Err(e)
      case Ok(x) =>
        Ok(if h.adapts then x.(node := x.node.(containerStats := x.below[|x.below| - 1].containerStats)) else x)
    else if h.stats.elementStaticSize * h.stats.capacity >= CONTAINER_SIZE_THRESHOLD then Err(OverThreshold)
    else DecodeAll(c, th, rank, bound, h, types, AllOwn(h, node), d, next)
  }

  /** A container with its own size, before its elements. */
  function AllOwn(h: Header, node: Node): Node
    requires h.All?
  {
    Sized(node, h.dynamicSize + if h.storedInline then 0 else h.stats.elementStaticSize * h.stats.capacity, 0)
  }

  ghost function DecodeAll(c: Config, th: Hierarchy, rank: Ty -> nat, bound: nat, h: Header, types: seq<Ty>, own: Node,
                           d: seq<U64>, next: NodeID)
    : (r: Result<Decoded>)
    requires Ranked(th, rank) && h.All?
    requires h.stats.length > 0 ==> forall i :: 0 <= i < |types| ==> rank(types[i]) < bound
    ensures r.Ok? ==> |r.value.rest| <= |d|
    decreases |d|, bound, 4
  {
    if AllThrough(th, rank, types) || h.stats.length * |types| == 0 then Leaf(own, d, next)
    else DecodeElements(c, th, rank, bound, types, h.stats.length, own, d, next)
  }

  /** The elements of a container take up a block of IDs, with a child for each type of each of them. */
  ghost function DecodeElements(c: Config, th: Hierarchy, rank: Ty -> nat, bound: nat, types: seq<Ty>, length: nat,
                                own: Node, d: seq<U64>, next: NodeID)
    : (r: Result<Decoded>)
    requires Ranked(th, rank) && (length > 0 ==> forall i :: 0 <= i < |types| ==> rank(types[i]) < bound)
    ensures r.Ok? ==> |r.value.rest| <= |d|
    decreases |d|, bound, 4, 0
  {
    var members := AsMembers(Repeated(types, length));
    RepeatedRanks(rank, types, length, bound);
    match DecodeBlock(c, th, rank, bound, members, false, next, 0, Block(0, 0, [], d, next + |members|))
    case Err(e) => Err(e)
    case Ok(b) => Ok(Closed(own, next, |members|, own.dynamicSize, b))
  }

  lemma {:induction false} RepeatedRanks(rank: Ty -> nat, types: seq<Ty>, n: nat, bound: nat)
    requires n > 0 ==> forall i :: 0 <= i < |types| ==> rank(types[i]) < bound
    ensures MembersBelow(rank, AsMembers(Repeated(types, n)), bound)
  {
    if n > 0 {
      RepeatedRanks(rank, types, n - 1, bound);
    }
  }

  lemma BlockDecoded(c: Config, th: Hierarchy, rank: Ty -> nat, bound: nat, members: seq<ClassMember>, capture: bool,
                     first: NodeID, b: Block)
    requires Ranked(th, rank) && MembersBelow(rank, members, bound)
    ensures DecodeBlock(c, th, rank, bound, members, capture, first, |members|, b) == Ok(b)
  {
  }

  /** One more child in a block. */
  lemma BlockStep(c: Config, th: Hierarchy, rank: Ty -> nat, bound: nat, members: seq<ClassMember>, capture: bool,
                  first: NodeID, i: nat, b: Block)
    requires Ranked(th, rank) && i < |members| && MembersBelow(rank, members, bound)
    ensures DecodeBlock(c, th, rank, bound, members, capture, first, i, b) ==
            if HasIsset(members, capture, i) && b.rest == [] then Err(EndOfData)
            else
              var isset := if HasIsset(members, capture, i) then IssetOf(b.rest[0]) else None;
              var d := if HasIsset(members, capture, i) then b.rest[1..] else b.rest;
              match Decode(c, th, rank, Variable(members[i].ty, isset, members[i].isStubbed), first + i, d, b.next)
              case Err(e) => Err(e)
              case Ok(x) => DecodeBlock(c, th, rank, bound, members, capture, first, i + 1, Joined(b, x))
  {
    hide Decode;
  }

  lemma ContainerIs(c: Config, th: Hierarchy, rank: Ty -> nat, ty: Ty, node: Node, d: seq<U64>, next: NodeID, h: Header)
    requires Ranked(th, rank) && ContainerType(c, th, ty) && !h.Failed?
    requires var (kind, types) := ContainerElements(th, ty);
             SizesKnown(th, types) && h == HeaderOf(kind, SizesIn(th, types), node.staticSize, d)
    ensures var types := ContainerElements(th, ty).1;
            var bound := if h.words == 0 then rank(ty) else BoundOf(rank, types);
            && h.words <= |d| && (h.One? ==> h.index < |types|)
            && (h.One? || (h.All? && h.stats.length > 0) ==> forall i :: 0 <= i < |types| ==> rank(types[i]) < bound)
            && DecodeContainer(c, th, rank, ty, node, d, next) == DecodeHeader(c, th, rank, bound, h, types, node, d[h.words..], next)
  {
    hide HeaderOf, DecodeHeader, SizesIn, ContainerElements;
    var (kind, types) := ContainerElements(th, ty);
    SizesCount(th, types);
    HeaderProgress(kind, SizesIn(th, types), node.staticSize, d);
    ContainerBound(th, rank, ty, h, |SizesIn(th, types)|, |d|);
  }

  lemma ContainerFails(c: Config, th: Hierarchy, rank: Ty -> nat, ty: Ty, node: Node, d: seq<U64>, next: NodeID)
    requires Ranked(th, rank) && ContainerType(c, th, ty)
    ensures var (kind, types) := ContainerElements(th, ty);
            && (!SizesKnown(th, types) ==> DecodeContainer(c, th, rank, ty, node, d, next) == Err(NoSize))
            && (SizesKnown(th, types) && HeaderOf(kind, SizesIn(th, types), node.staticSize, d).Failed? ==>
                  DecodeContainer(c, th, rank, ty, node, d, next) == Err(HeaderOf(kind, SizesIn(th, types), node.staticSize, d).error))
  {
    hide HeaderOf, DecodeHeader, SizesIn, ContainerElements;
  }

  // ----- decoding depends on the words that it takes only

  /** The same with more words after those that are left. */
  function Extended(r: Result<Decoded>, e: seq<U64>): Result<Decoded>
  {
    if r.Err? then r else Ok(r.value.(rest := r.value.rest + e))
  }

  function ExtendedBlock(r: Result<Block>, e: seq<U64>): Result<Block>
  {
    if r.Err? then r else Ok(r.value.(rest := r.value.rest + e))
  }

  lemma HeaderLocal(kind: ContainerKind, sizes: seq<nat>, staticSize: nat, d: seq<U64>, e: seq<U64>)
    ensures var h := HeaderOf(kind, sizes, staticSize, d); h != Failed(EndOfData) ==> HeaderOf(kind, sizes, staticSize, d + e) == h
  {
    hide InlineHeader, PointerHeader, BufferHeader, NodesHeader, SmallHeader, ElementsHeader;
    InlineLocal(kind, sizes, Sum(sizes), d, e);
    BufferLocal(kind, Sum(sizes), d, e);
    SmallLocal(kind, staticSize, Sum(sizes), d, e);
  }

  lemma InlineLocal(kind: ContainerKind, sizes: seq<nat>, size: nat, d: seq<U64>, e: seq<U64>)
    ensures InlineHeader(kind, sizes, size, d) != Failed(EndOfData) ==> InlineHeader(kind, sizes, size, d + e) == InlineHeader(kind, sizes, size, d)
    ensures PointerHeader(kind, sizes, size, d) != Failed(EndOfData) ==> PointerHeader(kind, sizes, size, d + e) == PointerHeader(kind, sizes, size, d)
  {
  }

  lemma BufferLocal(kind: ContainerKind, size: nat, d: seq<U64>, e: seq<U64>)
    ensures BufferHeader(kind, size, d) != Failed(EndOfData) ==> BufferHeader(kind, size, d + e) == BufferHeader(kind, size, d)
    ensures NodesHeader(kind, size, d) != Failed(EndOfData) ==> NodesHeader(kind, size, d + e) == NodesHeader(kind, size, d)
    ensures ElementsHeader(kind, size, d) != Failed(EndOfData) ==> ElementsHeader(kind, size, d + e) == ElementsHeader(kind, size, d)
  {
  }

  lemma SmallLocal(kind: ContainerKind, staticSize: nat, size: nat, d: seq<U64>, e: seq<U64>)
    ensures SmallHeader(kind, staticSize, size, d) != Failed(EndOfData) ==>
            SmallHeader(kind, staticSize, size, d + e) == SmallHeader(kind, staticSize, size, d)
  {
  }

  lemma SkipWords(d: seq<U64>, e: seq<U64>, n: nat)
    requires n <= |d|
    ensures (d + e)[n..] == d[n..] + e && forall i :: 0 <= i < |d| ==> (d + e)[i] == d[i]
  {
  }

  /** More words after the data change nothing but what is left, unless the data came to an end too early. */
  lemma {:induction false} DecodeLocal(c: Config, th: Hierarchy, rank: Ty -> nat, v: Variable, id: NodeID, d: seq<U64>,
                                       next: NodeID, e: seq<U64>)
    requires Ranked(th, rank)
    ensures var r := Decode(c, th, rank, v, id, d, next);
            r != Err(EndOfData) ==> Decode(c, th, rank, v, id, d + e, next) == Extended(r, e)
    decreases |d|, rank(v.ty), 9
  {
    hide DecodePointer, DecodeTypedef, DecodeRecord, Ranked;
    if th.size(v.ty).Some? && !v.isStubbed {
      var size := th.size(v.ty).value;
      var node := Node(id, size, 0, size, None, None, None, v.isset, false, v.ty);
      match th.kind(v.ty)
      case PointerKind => PointerLocal(c, th, rank, v.ty, node, d, next, e);
      case TypedefKind => TypedefLocal(c, th, rank, v.ty, node, d, next, e);
      case RecordKind => RecordLocal(c, th, rank, v.ty, node, d, next, e);
      case ArrayKind => RecordLocal(c, th, rank, v.ty, node, d, next, e);
      case _ =>
    }
  }

  lemma {:induction false} OnlyLocal(c: Config, th: Hierarchy, rank: Ty -> nat, ty: Ty, owned: bool, node: Node,
                                     d: seq<U64>, next: NodeID, e: seq<U64>)
    requires Ranked(th, rank)
    ensures var r := DecodeOnly(c, th, rank, ty, owned, node, d, next);
            r != Err(EndOfData) ==> DecodeOnly(c, th, rank, ty, owned, node, d + e, next) == Extended(r, e)
    decreases |d|, rank(ty), 10
  {
    hide Decode, Ranked, Adopted;
    DecodeLocal(c, th, rank, Variable(ty, None, false), next, d, next + 1, e);
  }

  lemma {:induction false} PointerLocal(c: Config, th: Hierarchy, rank: Ty -> nat, ty: Ty, node: Node, d: seq<U64>,
                                        next: NodeID, e: seq<U64>)
    requires Ranked(th, rank)
    ensures var r := DecodePointer(c, th, rank, ty, node, d, next);
            r != Err(EndOfData) ==> DecodePointer(c, th, rank, ty, node, d + e, next) == Extended(r, e)
    decreases |d|, rank(ty), 7
  {
    hide DecodeOnly, Ranked;
    if ty !in th.knownDummyTypeList && ty in th.pointerToTypeMap {
      var inner := th.pointerToTypeMap[ty];
      if th.kind(inner) == FunctionKind {
        FunctionRank(th, rank, ty);
        OnlyLocal(c, th, rank, inner, true, node, d, next, e);
      } else if d != [] {
        SkipWords(d, e, 1);
        if th.kind(inner) != VoidKind && |d| >= 2 {
          SkipWords(d, e, 2);
          OnlyLocal(c, th, rank, inner, true, node.(pointer := Some(d[0])), d[2..], next, e);
        }
      }
    }
  }

  lemma {:induction false} TypedefLocal(c: Config, th: Hierarchy, rank: Ty -> nat, ty: Ty, node: Node, d: seq<U64>,
                                        next: NodeID, e: seq<U64>)
    requires Ranked(th, rank)
    ensures var r := DecodeTypedef(c, th, rank, ty, node, d, next);
            r != Err(EndOfData) ==> DecodeTypedef(c, th, rank, ty, node, d + e, next) == Extended(r, e)
    decreases |d|, rank(ty), 7
  {
    hide DecodeOnly, Ranked;
    if ty in th.typedefMap {
      TypedefRank(th, rank, ty);
      OnlyLocal(c, th, rank, th.typedefMap[ty], false, node.(isTypedef := true), d, next, e);
    }
  }

  lemma {:induction false} RecordLocal(c: Config, th: Hierarchy, rank: Ty -> nat, ty: Ty, node: Node, d: seq<U64>,
                                       next: NodeID, e: seq<U64>)
    requires Ranked(th, rank)
    ensures var r := DecodeRecord(c, th, rank, ty, node, d, next);
            r != Err(EndOfData) ==> DecodeRecord(c, th, rank, ty, node, d + e, next) == Extended(r, e)
    decreases |d|, rank(ty), 7
  {
    hide DecodeClass, DecodeContainer, ContainerType, Ranked;
    if ty !in th.knownDummyTypeList {
      if ContainerType(c, th, ty) {
        ContainerLocal(c, th, rank, ty, node, d, next, e);
      } else if ty !in th.descendantClasses {
        ClassLocal(c, th, rank, ty, node, d, next, e);
      } else if d != [] {
        SkipWords(d, e, 1);
        assert Selected(th, ty, d + e, node) == Selected(th, ty, d, node);
        if Selected(th, ty, d, node).Some? {
          var s := Selected(th, ty, d, node).value;
          ClassLocal(c, th, rank, s.0, s.1, d[1..], next, e);
        }
      }
    }
  }

  lemma {:induction false} ClassLocal(c: Config, th: Hierarchy, rank: Ty -> nat, ty: Ty, node: Node, d: seq<U64>,
                                      next: NodeID, e: seq<U64>)
    requires Ranked(th, rank)
    ensures var r := DecodeClass(c, th, rank, ty, node, d, next);
            r != Err(EndOfData) ==> DecodeClass(c, th, rank, ty, node, d + e, next) == Extended(r, e)
    decreases |d|, rank(ty), 6
  {
    hide DecodeBlock, Ranked, Sized;
    if ty in th.classMembersMap && th.classMembersMap[ty] != [] {
      var members := th.classMembersMap[ty];
      MemberRanks(th, rank, ty);
      BlockLocal(c, th, rank, rank(ty), members, ty in th.thriftIssetStructTypes, next, 0, Block(0, 0, [], d, next + |members|), e);
    }
  }

  lemma {:induction false} BlockLocal(c: Config, th: Hierarchy, rank: Ty -> nat, bound: nat, members: seq<ClassMember>,
                                      capture: bool, first: NodeID, i: nat, b: Block, e: seq<U64>)
    requires Ranked(th, rank) && i <= |members| && MembersBelow(rank, members, bound)
    ensures var r := DecodeBlock(c, th, rank, bound, members, capture, first, i, b);
            r != Err(EndOfData) ==>
            DecodeBlock(c, th, rank, bound, members, capture, first, i, b.(rest := b.rest + e)) == ExtendedBlock(r, e)
    decreases |b.rest|, bound, 3, |members| - i
  {
    hide Decode, DecodeBlock, Ranked;
    if i == |members| {
      BlockDecoded(c, th, rank, bound, members, capture, first, b);
      BlockDecoded(c, th, rank, bound, members, capture, first, b.(rest := b.rest + e));
    } else {
      BlockStep(c, th, rank, bound, members, capture, first, i, b);
      BlockStep(c, th, rank, bound, members, capture, first, i, b.(rest := b.rest + e));
      var read := HasIsset(members, capture, i);
      if !(read && b.rest == []) {
        SkipWords(b.rest, e, if read then 1 else 0);
        var isset := if read then IssetOf(b.rest[0]) else None;
        var d := if read then b.rest[1..] else b.rest;
        var v := Variable(members[i].ty, isset, members[i].isStubbed);
        DecodeLocal(c, th, rank, v, first + i, d, b.next, e);
        var r := Decode(c, th, rank, v, first + i, d, b.next);
        if r.Ok? {
          BlockLocal(c, th, rank, bound, members, capture, first, i + 1, Joined(b, r.value), e);
        }
      }
    }
  }

  lemma {:induction false} ContainerLocal(c: Config, th: Hierarchy, rank: Ty -> nat, ty: Ty, node: Node, d: seq<U64>,
                                          next: NodeID, e: seq<U64>)
    requires Ranked(th, rank) && ContainerType(c, th, ty)
    ensures var r := DecodeContainer(c, th, rank, ty, node, d, next);
            r != Err(EndOfData) ==> DecodeContainer(c, th, rank, ty, node, d + e, next) == Extended(r, e)
    decreases |d|, rank(ty), 6
  {
    hide DecodeContainer, DecodeHeader, Ranked, HeaderOf, SizesIn, ContainerElements, BoundOf;
    var (kind, types) := ContainerElements(th, ty);
    ContainerFails(c, th, rank, ty, node, d, next);
    ContainerFails(c, th, rank, ty, node, d + e, next);
    if SizesKnown(th, types) {
      var h := HeaderOf(kind, SizesIn(th, types), node.staticSize, d);
      HeaderLocal(kind, SizesIn(th, types), node.staticSize, d, e);
      if !h.Failed? {
        ContainerIs(c, th, rank, ty, node, d, next, h);
        ContainerIs(c, th, rank, ty, node, d + e, next, h);
        SkipWords(d, e, h.words);
        HeaderElementsLocal(c, th, rank, if h.words == 0 then rank(ty) else BoundOf(rank, types), h, types, node, d[h.words..], next, e);
      }
    }
  }

  lemma {:induction false} HeaderElementsLocal(c: Config, th: Hierarchy, rank: Ty -> nat, bound: nat, h: Header,
                                               types: seq<Ty>, node0: Node, d: seq<U64>, next: NodeID, e: seq<U64>)
    requires Ranked(th, rank) && !h.Failed? && (h.One? ==> h.index < |types|)
    requires h.One? || (h.All? && h.stats.length > 0) ==> forall i :: 0 <= i < |types| ==> rank(types[i]) < bound
    ensures var r := DecodeHeader(c, th, rank, bound, h, types, node0, d, next);
            r != Err(EndOfData) ==> DecodeHeader(c, th, rank, bound, h, types, node0, d + e, next) == Extended(r, e)
    decreases |d|, bound, 5
  {
    hide DecodeOnly, DecodeElements, Ranked, AllThrough, Sized;
    var node := node0.(pointer := h.pointer, containerStats := Some(h.stats));
    if h.One? {
      OnlyLocal(c, th, rank, types[h.index], false, node, d, next, e);
    } else if h.All? {
      ElementsLocal(c, th, rank, bound, types, h.stats.length, AllOwn(h, node), d, next, e);
      AllIs(c, th, rank, bound, h, types, AllOwn(h, node), d, next);
      AllIs(c, th, rank, bound, h, types, AllOwn(h, node), d + e, next);
    }
  }

  lemma AllIs(c: Config, th: Hierarchy, rank: Ty -> nat, bound: nat, h: Header, types: seq<Ty>, own: Node, d: seq<U64>,
              next: NodeID)
    requires Ranked(th, rank) && h.All? && (h.stats.length > 0 ==> forall i :: 0 <= i < |types| ==> rank(types[i]) < bound)
    ensures DecodeAll(c, th, rank, bound, h, types, own, d, next) ==
            if AllThrough(th, rank, types) || h.stats.length * |types| == 0 then Leaf(own, d, next)
            else DecodeElements(c, th, rank, bound, types, h.stats.length, own, d, next)
  {
    hide DecodeElements, AllThrough;
  }

  lemma {:induction false} ElementsLocal(c: Config, th: Hierarchy, rank: Ty -> nat, bound: nat, types: seq<Ty>,
                                         length: nat, own: Node, d: seq<U64>, next: NodeID, e: seq<U64>)
    requires Ranked(th, rank) && (length > 0 ==> forall i :: 0 <= i < |types| ==> rank(types[i]) < bound)
    ensures var r := DecodeElements(c, th, rank, bound, types, length, own, d, next);
            r != Err(EndOfData) ==> DecodeElements(c, th, rank, bound, types, length, own, d + e, next) == Extended(r, e)
    decreases |d|, bound, 4
  {
    hide DecodeBlock, Ranked, Repeated, Sized;
    var members := AsMembers(Repeated(types, length));
    RepeatedRanks(rank, types, length, bound);
    BlockLocal(c, th, rank, bound, members, false, next, 0, Block(0, 0, [], d, next + |members|), e);
  }
}
