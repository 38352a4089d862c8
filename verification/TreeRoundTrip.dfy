/**
 From objects to nodes: the words that the generated functions store for an object (oi/CodeGen.cpp), decoded as
 oi/TreeBuilder.cpp does it, give the tree of that object and nothing else.
 */
module TreeRoundTrip {
  import opened Machine
  import opened TreeModel
  import opened TreeDecoding
  import opened TreeValues

  // ----- objects

  /** What is stored for an object itself. A pointer that is followed, or a class that may be derived from, has a word that says so. */
  datatype Head =
    | Plain
    | Address(address: U64)
    | Skipped(address: U64)
    | Followed(address: U64)
    | Calls
    | Alias
    | Members(selected: Option<U64>)
    | Holds(contents: Contents)

  /** An object and the objects in it; its isset value as a member, if there is a word for it, may be unknown. */
  datatype Value = Value(isset: Option<Option<bool>>, head: Head, subs: seq<Value>)

  function HeadWords(head: Head): seq<U64>
  {
    match head
    case Plain => []
    case Address(address) => [address]
    case Skipped(address) => [address, 0]
    case Followed(address) => [address, 1]
    case Calls => []
    case Alias => []
    case Members(selected) => if selected.Some? then [selected.value] else []
    case Holds(contents) => WordsIn(contents)
  }

  function IssetWord(isset: Option<Option<bool>>): seq<U64>
  {
    match isset
    case None => []
    case Some(None) => [U64_LIMIT - 1]
    case Some(Some(isSet)) => [if isSet then 1 else 0]
  }

  /** Everything that is stored for an object. */
  function Words(x: Value): seq<U64>
    decreases x
  {
    HeadWords(x.head) + SubWords(x.subs)
  }

  function SubWords(subs: seq<Value>): seq<U64>
    decreases subs
  {
    if subs == [] then [] else (IssetWord(subs[0].isset) + Words(subs[0])) + SubWords(subs[1..])
  }

  // ----- objects of a type

  /** The class that an object of a type is of. */
  function ClassOf(th: Hierarchy, ty: Ty, head: Head): Ty
  {
    if head.Members? && head.selected.Some? && head.selected.value != U64_LIMIT - 1 && ty in th.descendantClasses
       && head.selected.value < |th.descendantClasses[ty]| then th.descendantClasses[ty][head.selected.value]
    else ty
  }

  ghost predicate ContainerFits(th: Hierarchy, ty: Ty, k: Contents)
    requires ty in th.containerTypeMap || th.kind(ty) == ArrayKind
  {
    var (kind, types) := ContainerElements(th, ty);
    && SizesKnown(th, types) && Held(k, kind, SizesIn(th, types))
    && (Brief(k) || k.Adapter? || k.Alternative? || ElementBytes(k, kind, SizesIn(th, types)) * CapacityIn(k) < CONTAINER_SIZE_THRESHOLD)
  }

  ghost predicate HeadFits(c: Config, th: Hierarchy, ty: Ty, isStubbed: bool, head: Head)
  {
    if isStubbed then head.Plain?
    else
      match th.kind(ty)
      case PointerKind =>
        if !c.chaseRawPointers || ty in th.knownDummyTypeList || ty !in th.pointerToTypeMap then head.Plain?
        else if th.kind(th.pointerToTypeMap[ty]) == FunctionKind then head.Calls?
        else if th.kind(th.pointerToTypeMap[ty]) == VoidKind then head.Address?
        else head.Skipped? || head.Followed?
      case TypedefKind => if th.standardInteger(ty) || ty !in th.typedefMap then head.Plain? else head.Alias?
      case RecordKind => RecordFits(c, th, ty, head)
      case ArrayKind => RecordFits(c, th, ty, head)
      case _ => head.Plain?
  }

  ghost predicate RecordFits(c: Config, th: Hierarchy, ty: Ty, head: Head)
  {
    if ty in th.knownDummyTypeList then head.Plain?
    else if ty in th.containerTypeMap || (th.kind(ty) == ArrayKind && (c.typeGraph || th.length(ty) > 0)) then
      head.Holds? && ContainerFits(th, ty, head.contents)
    else
      && head.Members? && (head.selected.Some? <==> ty in th.descendantClasses)
      && (head.selected.Some? && head.selected.value != U64_LIMIT - 1 ==>
            head.selected.value < |th.descendantClasses[ty]| && th.size(ClassOf(th, ty, head)).Some?)
  }

  /** The types of the objects that are in an object, one after the other; primitive elements are not looked at. */
  ghost function Subtypes(th: Hierarchy, rank: Ty -> nat, ty: Ty, head: Head): seq<ClassMember>
    requires Ranked(th, rank)
  {
    match head
    case Followed(_) => if ty in th.pointerToTypeMap then [ClassMember(th.pointerToTypeMap[ty], false)] else []
    case Calls => if ty in th.pointerToTypeMap then [ClassMember(th.pointerToTypeMap[ty], false)] else []
    case Alias => if ty in th.typedefMap then [ClassMember(th.typedefMap[ty], false)] else []
    case Members(_) => if ClassOf(th, ty, head) in th.classMembersMap then th.classMembersMap[ClassOf(th, ty, head)] else []
    case Holds(k) => if ty in th.containerTypeMap || th.kind(ty) == ArrayKind then ElementTypes(th, rank, ty, k) else []
    case _ => []
  }

  ghost function ElementTypes(th: Hierarchy, rank: Ty -> nat, ty: Ty, k: Contents): seq<ClassMember>
    requires Ranked(th, rank) && (ty in th.containerTypeMap || th.kind(ty) == ArrayKind)
  {
    var (kind, types) := ContainerElements(th, ty);
    if k.Alternative? then (if k.index < |types| then [ClassMember(types[k.index], false)] else [])
    else if k.Adapter? then (if types != [] then [ClassMember(types[0], false)] else [])
    else if AllThrough(th, rank, types) then []
    else AsMembers(Repeated(types, ElementCount(k, kind)))
  }

  ghost predicate Captures(th: Hierarchy, ty: Ty, head: Head)
  {
    head.Members? && ClassOf(th, ty, head) in th.thriftIssetStructTypes
  }

  /** An object of a type. */
  ghost predicate HasShape(c: Config, th: Hierarchy, rank: Ty -> nat, ty: Ty, isStubbed: bool, x: Value)
    requires Ranked(th, rank)
    decreases x
  {
    && th.size(ty).Some? && HeadFits(c, th, ty, isStubbed, x.head)
    && SubsFit(c, th, rank, Subtypes(th, rank, ty, x.head), x.subs, Captures(th, ty, x.head))
  }

  /** Objects of the given types; all but the last one have isset values if they are captured. */
  ghost predicate SubsFit(c: Config, th: Hierarchy, rank: Ty -> nat, types: seq<ClassMember>, subs: seq<Value>,
                          capture: bool)
    requires Ranked(th, rank)
    decreases subs
  {
    && |types| == |subs|
    && (subs != [] ==>
          && HasShape(c, th, rank, types[0].ty, types[0].isStubbed, subs[0])
          && (subs[0].isset.Some? <==> capture && |subs| > 1)
          && SubsFit(c, th, rank, types[1..], subs[1..], capture))
  }

  // ----- the tree of an object

  /** Well-known integer types are not looked through. */
  predicate IsTypedef(th: Hierarchy, v: Variable)
  {
    !v.isStubbed && th.kind(v.ty) == TypedefKind && !th.standardInteger(v.ty)
  }

  function StaticOf(th: Hierarchy, ty: Ty, x: Value): nat
  {
    SizeOr0(th, ClassOf(th, ty, x.head))
  }

  /** The memory that an object has elsewhere, apart from what the objects in it have. */
  ghost function OwnBytes(th: Hierarchy, ty: Ty, head: Head): nat
  {
    if head.Holds? && (ty in th.containerTypeMap || th.kind(ty) == ArrayKind) then
      var (kind, types) := ContainerElements(th, ty);
      BytesIn(head.contents, kind, SizesIn(th, types), SizeOr0(th, ty))
    else 0
  }

  /** The memory that an object has elsewhere: its own, that of the objects in it, and an object that a pointer was followed to. */
  ghost function DynamicOf(th: Hierarchy, rank: Ty -> nat, ty: Ty, x: Value): nat
    requires Ranked(th, rank)
    decreases x
  {
    var types := Subtypes(th, rank, ty, x.head);
    OwnBytes(th, ty, x.head) + Dynamics(th, rank, types, x.subs) + if x.head.Followed? || x.head.Calls? then Statics(th, types, x.subs) else 0
  }

  ghost function Dynamics(th: Hierarchy, rank: Ty -> nat, types: seq<ClassMember>, subs: seq<Value>): nat
    requires Ranked(th, rank)
    decreases subs
  {
    if subs == [] || types == [] then 0
    else DynamicOf(th, rank, types[0].ty, subs[0]) + Dynamics(th, rank, types[1..], subs[1..])
  }

  ghost function Statics(th: Hierarchy, types: seq<ClassMember>, subs: seq<Value>): nat
    decreases subs
  {
    if subs == [] || types == [] then 0 else StaticOf(th, types[0].ty, subs[0]) + Statics(th, types[1..], subs[1..])
  }

  /** A container tells its statistics, and an adapter those of the container in it. */
  ghost function StatsOf(th: Hierarchy, ty: Ty, x: Value): Option<Stats>
    decreases x
  {
    if !x.head.Holds? || !(ty in th.containerTypeMap || th.kind(ty) == ArrayKind) then None
    else
      var (kind, types) := ContainerElements(th, ty);
      if x.head.contents.Adapter? && types != [] && x.subs != [] then StatsOf(th, types[0], x.subs[0])
      else Some(StatsIn(x.head.contents, kind, SizesIn(th, types)))
  }

  function PointerOf(head: Head): Option<U64>
  {
    match head
    case Address(address) => Some(address)
    case Skipped(address) => Some(address)
    case Followed(address) => Some(address)
    case Holds(contents) => PointerIn(contents)
    case _ => None
  }

  /** What a node owns itself; an object of a derived class without members still counts as one of the base. */
  ghost function ExclusiveOf(th: Hierarchy, rank: Ty -> nat, ty: Ty, x: Value): nat
    requires Ranked(th, rank)
  {
    var types := Subtypes(th, rank, ty, x.head);
    var all, below := StaticOf(th, ty, x) + DynamicOf(th, rank, ty, x), Dynamics(th, rank, types, x.subs) + Statics(th, types, x.subs);
    if x.head.Members? && x.subs == [] then SizeOr0(th, ty) else if below > all then 0 else all - below
  }

  /** The node of an object, whose children have the next IDs. */
  ghost function NodeOf(th: Hierarchy, rank: Ty -> nat, v: Variable, x: Value, id: NodeID, next: NodeID): Node
    requires Ranked(th, rank)
  {
    Node(
      id, StaticOf(th, v.ty, x), DynamicOf(th, rank, v.ty, x), ExclusiveOf(th, rank, v.ty, x),
      if x.subs == [] then None else Some((next, next + |x.subs|)),
      PointerOf(x.head), StatsOf(th, v.ty, x), v.isset,
      IsTypedef(th, v), ClassOf(th, v.ty, x.head))
  }

  /** How many nodes there are below that of an object. */
  function CountOf(x: Value): nat
    decreases x
  {
    |x.subs| + Counts(x.subs)
  }

  function Counts(subs: seq<Value>): nat
    decreases subs
  {
    if subs == [] then 0 else CountOf(subs[0]) + Counts(subs[1..])
  }

  function IssetIn(isset: Option<Option<bool>>): Option<bool>
  {
    if isset.Some? then isset.value else None
  }

  /** The nodes below that of an object: its children have the next IDs, and their descendants those after them. */
  ghost function BelowOf(th: Hierarchy, rank: Ty -> nat, ty: Ty, x: Value, next: NodeID): seq<Node>
    requires Ranked(th, rank)
    decreases x
  {
    BelowAll(th, rank, Subtypes(th, rank, ty, x.head), x.subs, next, next + |x.subs|)
  }

  ghost function BelowAll(th: Hierarchy, rank: Ty -> nat, types: seq<ClassMember>, subs: seq<Value>, first: NodeID,
                          next: NodeID)
    : seq<Node>
    requires Ranked(th, rank)
    decreases subs
  {
    if subs == [] || types == [] then []
    else
      var v := Variable(types[0].ty, IssetIn(subs[0].isset), types[0].isStubbed);
      (BelowOf(th, rank, v.ty, subs[0], next) + [NodeOf(th, rank, v, subs[0], first, next)])
      + BelowAll(th, rank, types[1..], subs[1..], first + 1, next + CountOf(subs[0]))
  }

  /** The tree of an object, with what is left. */
  ghost function Tree(th: Hierarchy, rank: Ty -> nat, v: Variable, x: Value, id: NodeID, rest: seq<U64>,
                      next: NodeID): Decoded
    requires Ranked(th, rank)
  {
    Decoded(NodeOf(th, rank, v, x, id, next), BelowOf(th, rank, v.ty, x, next), rest, next + CountOf(x))
  }

  // ----- decoding gives the tree

  lemma Cat3<T>(a: seq<T>, b: seq<T>, c: seq<T>)
    ensures (a + b) + c == a + (b + c)
  {
  }

  lemma DropFront<T>(a: seq<T>, b: seq<T>)
    ensures (a + b)[|a|..] == b
  {
  }

  /** A node with children, as its sizes are set when all of them are known. */
  lemma NodeWithSubs(th: Hierarchy, rank: Ty -> nat, v: Variable, x: Value, id: NodeID, next: NodeID, node: Node)
    requires Ranked(th, rank) && x.subs != []
    requires node.id == id && node.staticSize == StaticOf(th, v.ty, x) && node.pointer == PointerOf(x.head) && node.isset == v.isset
    requires node.isTypedef == IsTypedef(th, v) && node.ty == ClassOf(th, v.ty, x.head)
    ensures var types := Subtypes(th, rank, v.ty, x.head);
            var sized := Sized(node.(children := Some((next, next + |x.subs|))), DynamicOf(th, rank, v.ty, x),
              Dynamics(th, rank, types, x.subs) + Statics(th, types, x.subs));
            sized.(containerStats := StatsOf(th, v.ty, x)) == NodeOf(th, rank, v, x, id, next)
  {
    hide DynamicOf, Dynamics, Statics, StaticOf, StatsOf, Subtypes, ClassOf, PointerOf;
  }

  /** A node without any. */
  lemma NodeAlone(th: Hierarchy, rank: Ty -> nat, v: Variable, x: Value, id: NodeID, next: NodeID)
    requires Ranked(th, rank) && x.subs == []
    ensures NodeOf(th, rank, v, x, id, next) ==
            Node(id, StaticOf(th, v.ty, x), OwnBytes(th, v.ty, x.head),
              if x.head.Members? then SizeOr0(th, v.ty) else StaticOf(th, v.ty, x) + OwnBytes(th, v.ty, x.head),
              None, PointerOf(x.head), StatsOf(th, v.ty, x), v.isset,
              IsTypedef(th, v), ClassOf(th, v.ty, x.head))
    ensures BelowOf(th, rank, v.ty, x, next) == [] && CountOf(x) == 0 && Words(x) == HeadWords(x.head)
  {
    hide StaticOf, OwnBytes, StatsOf, Subtypes, ClassOf, PointerOf, HeadWords;
    assert SubWords([]) == [];
  }

  lemma OneSub(th: Hierarchy, rank: Ty -> nat, m: ClassMember, s: Value, first: NodeID, next: NodeID)
    requires Ranked(th, rank)
    ensures Dynamics(th, rank, [m], [s]) == DynamicOf(th, rank, m.ty, s) && Statics(th, [m], [s]) == StaticOf(th, m.ty, s)
    ensures Counts([s]) == CountOf(s) && SubWords([s]) == IssetWord(s.isset) + Words(s)
    ensures BelowAll(th, rank, [m], [s], first, next) ==
            BelowOf(th, rank, m.ty, s, next) + [NodeOf(th, rank, Variable(m.ty, IssetIn(s.isset), m.isStubbed), s, first, next)]
  {
    hide DynamicOf, StaticOf, CountOf, Words, BelowOf, NodeOf, IssetWord;
    assert [m][1..] == [] && [s][1..] == [];
  }

  lemma NodeSizes(th: Hierarchy, rank: Ty -> nat, v: Variable, x: Value, id: NodeID, next: NodeID)
    requires Ranked(th, rank)
    ensures var n := NodeOf(th, rank, v, x, id, next);
            n.id == id && n.staticSize == StaticOf(th, v.ty, x) && n.dynamicSize == DynamicOf(th, rank, v.ty, x)
            && n.containerStats == StatsOf(th, v.ty, x)
  {
    hide DynamicOf, StaticOf, StatsOf, ExclusiveOf, ClassOf, PointerOf;
  }

  /** A single child is decoded to its tree, and its parent adopts it. */
  lemma {:induction false} OnlyBuilds(c: Config, th: Hierarchy, rank: Ty -> nat, ty: Ty, owned: bool, node: Node,
                                      s: Value,
                                      rest: seq<U64>, next: NodeID)
    requires Ranked(th, rank) && HasShape(c, th, rank, ty, false, s) && s.isset.None?
    ensures var v := Variable(ty, None, false);
            DecodeOnly(c, th, rank, ty, owned, node, Words(s) + rest, next) ==
            Ok(Decoded(Adopted(node, NodeOf(th, rank, v, s, next, next + 1), owned),
                       BelowAll(th, rank, [ClassMember(ty, false)], [s], next, next + 1), rest, next + 1 + Counts([s])))
    decreases s, 4
  {
    hide Words, NodeOf, BelowOf, CountOf, HasShape, Decode, Adopted, BelowAll, Counts;
    var v := Variable(ty, None, false);
    Builds(c, th, rank, v, s, next, rest, next + 1);
    OneSub(th, rank, ClassMember(ty, false), s, next, next + 1);
  }

  /** What is in a block from some child on. */
  ghost function Filling(th: Hierarchy, rank: Ty -> nat, types: seq<ClassMember>, subs: seq<Value>, first: NodeID,
                         b: Block,
                         rest: seq<U64>): Block
    requires Ranked(th, rank)
  {
    var dynamics := Dynamics(th, rank, types, subs);
    Block(b.dynamics + dynamics, b.sizes + (dynamics + Statics(th, types, subs)),
      b.nodes + BelowAll(th, rank, types, subs, first, b.next), rest, b.next + Counts(subs))
  }

  lemma FillsNext(th: Hierarchy, rank: Ty -> nat, types: seq<ClassMember>, subs: seq<Value>, first: NodeID, b: Block,
                  rest: seq<U64>, mid: seq<U64>)
    requires Ranked(th, rank) && subs != [] && types != []
    ensures var v := Variable(types[0].ty, IssetIn(subs[0].isset), types[0].isStubbed);
            Filling(th, rank, types[1..], subs[1..], first + 1, Joined(b, Tree(th, rank, v, subs[0], first, mid, b.next)), rest) ==
            Filling(th, rank, types, subs, first, b, rest)
  {
    hide DynamicOf, StaticOf, CountOf, BelowOf, NodeOf;
    var v := Variable(types[0].ty, IssetIn(subs[0].isset), types[0].isStubbed);
    NodeSizes(th, rank, v, subs[0], first, b.next);
    Cat3(b.nodes, BelowOf(th, rank, v.ty, subs[0], b.next) + [NodeOf(th, rank, v, subs[0], first, b.next)],
      BelowAll(th, rank, types[1..], subs[1..], first + 1, b.next + CountOf(subs[0])));
  }

  lemma IssetIsRead(s: Value, more: seq<U64>)
    ensures var d := IssetWord(s.isset) + more;
            if s.isset.Some? then d != [] && IssetOf(d[0]) == IssetIn(s.isset) && d[1..] == more else d == more && IssetIn(s.isset) == None
  {
  }

  /** The children in a block are decoded to their trees, one after the other. */
  lemma {:induction false} BlockBuilds(c: Config, th: Hierarchy, rank: Ty -> nat, bound: nat, members: seq<ClassMember>,
                                       capture: bool, first: NodeID, i: nat, b: Block, subs: seq<Value>, rest: seq<U64>)
    requires Ranked(th, rank) && i <= |members| && MembersBelow(rank, members, bound)
    requires SubsFit(c, th, rank, members[i..], subs, capture) && b.rest == SubWords(subs) + rest
    ensures DecodeBlock(c, th, rank, bound, members, capture, first, i, b) ==
            Ok(Filling(th, rank, members[i..], subs, first + i, b, rest))
    decreases subs, 3
  {
    hide Words, HasShape, Decode, Filling, Tree, Joined, IssetWord, IssetOf, MembersBelow, DecodeBlock;
    if subs == [] {
      NothingToBuild(c, th, rank, bound, members, capture, first, b, rest);
    } else {
      var types := members[i..];
      var v := Variable(types[0].ty, IssetIn(subs[0].isset), types[0].isStubbed);
      var after := SubWords(subs[1..]) + rest;
      SubsSplit(subs, rest);
      IssetIsRead(subs[0], Words(subs[0]) + after);
      Builds(c, th, rank, v, subs[0], first + i, after, b.next);
      var x := Tree(th, rank, v, subs[0], first + i, after, b.next);
      BlockStep(c, th, rank, bound, members, capture, first, i, b);
      assert members[i..][1..] == members[i + 1..];
      TreeRest(th, rank, v, subs[0], first + i, after, b);
      BlockBuilds(c, th, rank, bound, members, capture, first, i + 1, Joined(b, x), subs[1..], rest);
      FillsNext(th, rank, types, subs, first + i, b, rest, after);
    }
  }

  lemma NothingToBuild(c: Config, th: Hierarchy, rank: Ty -> nat, bound: nat, members: seq<ClassMember>, capture: bool,
                       first: NodeID, b: Block, rest: seq<U64>)
    requires Ranked(th, rank) && MembersBelow(rank, members, bound) && b.rest == SubWords([]) + rest
    ensures DecodeBlock(c, th, rank, bound, members, capture, first, |members|, b) ==
            Ok(Filling(th, rank, members[|members|..], [], first + |members|, b, rest))
  {
    hide DecodeBlock, MembersBelow;
    BlockDecoded(c, th, rank, bound, members, capture, first, b);
    assert [] + rest == rest;
    assert b.nodes + [] == b.nodes;
  }

  lemma SubsSplit(subs: seq<Value>, rest: seq<U64>)
    requires subs != []
    ensures SubWords(subs) + rest == IssetWord(subs[0].isset) + (Words(subs[0]) + (SubWords(subs[1..]) + rest))
  {
    hide Words, IssetWord;
    Cat3(IssetWord(subs[0].isset) + Words(subs[0]), SubWords(subs[1..]), rest);
    Cat3(IssetWord(subs[0].isset), Words(subs[0]), SubWords(subs[1..]) + rest);
  }

  lemma TreeRest(th: Hierarchy, rank: Ty -> nat, v: Variable, x: Value, id: NodeID, rest: seq<U64>, b: Block)
    requires Ranked(th, rank)
    ensures Joined(b, Tree(th, rank, v, x, id, rest, b.next)).rest == rest
  {
  }

  /** A node before it is filled. */
  function Start(th: Hierarchy, v: Variable, id: NodeID): Node
  {
    Node(id, SizeOr0(th, v.ty), 0, SizeOr0(th, v.ty), None, None, None, v.isset, false, v.ty)
  }

  lemma PlainBuilds(c: Config, th: Hierarchy, rank: Ty -> nat, v: Variable, x: Value, id: NodeID, rest: seq<U64>,
                    next: NodeID)
    requires Ranked(th, rank) && HasShape(c, th, rank, v.ty, v.isStubbed, x) && x.head.Plain?
    ensures DecodeFill(c, th, rank, v, Start(th, v, id), Words(x) + rest, next) == Ok(Tree(th, rank, v, x, id, rest, next))
  {
    hide DecodeContainer, DecodeClass, DecodeOnly, NodeOf, BelowOf, CountOf, Words, Ranked, ContainerFits;
    NodeAlone(th, rank, v, x, id, next);
    assert [] + rest == rest;
  }

  /** A child that is owned or not, below a node that tells no statistics. */
  lemma AdoptedIs(th: Hierarchy, rank: Ty -> nat, v: Variable, x: Value, id: NodeID, next: NodeID, m: ClassMember,
                  node: Node)
    requires Ranked(th, rank) && |x.subs| == 1 && !x.head.Holds? && !x.head.Members? && Subtypes(th, rank, v.ty, x.head) == [m]
    requires !m.isStubbed && x.subs[0].isset.None?
    requires node == Start(th, v, id).(pointer := PointerOf(x.head), isTypedef := IsTypedef(th, v))
    ensures Adopted(node, NodeOf(th, rank, Variable(m.ty, None, false), x.subs[0], next, next + 1), x.head.Followed? || x.head.Calls?) ==
            NodeOf(th, rank, v, x, id, next)
  {
    hide NodeOf, DynamicOf, StatsOf, Dynamics, Statics, Subtypes;
    var child := Variable(m.ty, None, false);
    assert x.subs == [x.subs[0]];
    OneSub(th, rank, m, x.subs[0], next, next + 1);
    NodeSizes(th, rank, child, x.subs[0], next, next + 1);
    NodeWithSubs(th, rank, v, x, id, next, node);
    SimpleSums(th, rank, v.ty, x);
    NodeOfSame(th, rank, v, x, id, next);
  }

  lemma SimpleSums(th: Hierarchy, rank: Ty -> nat, ty: Ty, x: Value)
    requires Ranked(th, rank) && !x.head.Holds?
    ensures var types := Subtypes(th, rank, ty, x.head);
            DynamicOf(th, rank, ty, x) == Dynamics(th, rank, types, x.subs) + if x.head.Followed? || x.head.Calls? then Statics(th, types, x.subs) else 0
    ensures StatsOf(th, ty, x) == None
  {
    hide Dynamics, Statics, Subtypes;
  }

  lemma NodeOfSame(th: Hierarchy, rank: Ty -> nat, v: Variable, x: Value, id: NodeID, next: NodeID)
    requires Ranked(th, rank)
    ensures var n := NodeOf(th, rank, v, x, id, next); n.(containerStats := StatsOf(th, v.ty, x)) == n
  {
    hide StatsOf, DynamicOf, ExclusiveOf, StaticOf;
  }

  lemma AloneIsset(c: Config, th: Hierarchy, rank: Ty -> nat, v: Variable, x: Value, m: ClassMember)
    requires Ranked(th, rank) && HasShape(c, th, rank, v.ty, v.isStubbed, x) && Subtypes(th, rank, v.ty, x.head) == [m]
    ensures |x.subs| == 1 && x.subs == [x.subs[0]] && x.subs[0].isset.None? && HasShape(c, th, rank, m.ty, m.isStubbed, x.subs[0])
    ensures Words(x) == HeadWords(x.head) + Words(x.subs[0])
  {
    hide HeadWords, HeadFits, Captures, Subtypes;
    var s := x.subs[0];
    assert x.subs == [s];
    OneSub(th, rank, m, s, 0, 0);
    assert [] + Words(s) == Words(s);
  }

  lemma {:induction false} PointerBuilds(c: Config, th: Hierarchy, rank: Ty -> nat, v: Variable, x: Value, id: NodeID,
                                         rest: seq<U64>, next: NodeID)
    requires Ranked(th, rank) && HasShape(c, th, rank, v.ty, v.isStubbed, x) && (x.head.Followed? || x.head.Calls?)
    ensures DecodeFill(c, th, rank, v, Start(th, v, id), Words(x) + rest, next) == Ok(Tree(th, rank, v, x, id, rest, next))
    decreases x, 2
  {
    hide DecodeContainer, DecodeClass, DecodeOnly, NodeOf, BelowOf, CountOf, Words, Ranked, ContainerFits, Adopted;
    var m := ClassMember(th.pointerToTypeMap[v.ty], false);
    AloneIsset(c, th, rank, v, x, m);
    var s := x.subs[0];
    Cat3(HeadWords(x.head), Words(s), rest);
    DropFront(HeadWords(x.head), Words(s) + rest);
    var node := Start(th, v, id).(pointer := PointerOf(x.head));
    OnlyBuilds(c, th, rank, m.ty, true, node, s, rest, next);
    AdoptedIs(th, rank, v, x, id, next, m, node);
    OneBelow(th, rank, v, x, next, m);
  }

  /** A pointer that is not followed. */
  lemma AddressBuilds(c: Config, th: Hierarchy, rank: Ty -> nat, v: Variable, x: Value, id: NodeID, rest: seq<U64>,
                      next: NodeID)
    requires Ranked(th, rank) && HasShape(c, th, rank, v.ty, v.isStubbed, x) && (x.head.Address? || x.head.Skipped?)
    ensures DecodeFill(c, th, rank, v, Start(th, v, id), Words(x) + rest, next) == Ok(Tree(th, rank, v, x, id, rest, next))
  {
    hide DecodeContainer, DecodeClass, DecodeOnly, NodeOf, BelowOf, CountOf, Words, Ranked, ContainerFits;
    NodeAlone(th, rank, v, x, id, next);
    DropFront(HeadWords(x.head), rest);
  }

  lemma OneBelow(th: Hierarchy, rank: Ty -> nat, v: Variable, x: Value, next: NodeID, m: ClassMember)
    requires Ranked(th, rank) && |x.subs| == 1 && Subtypes(th, rank, v.ty, x.head) == [m]
    ensures BelowOf(th, rank, v.ty, x, next) == BelowAll(th, rank, [m], [x.subs[0]], next, next + 1)
    ensures CountOf(x) == 1 + Counts([x.subs[0]])
  {
    hide BelowAll, Counts, Subtypes;
    assert x.subs == [x.subs[0]];
  }

  lemma {:induction false} AliasBuilds(c: Config, th: Hierarchy, rank: Ty -> nat, v: Variable, x: Value, id: NodeID,
                                       rest: seq<U64>, next: NodeID)
    requires Ranked(th, rank) && HasShape(c, th, rank, v.ty, v.isStubbed, x) && x.head.Alias?
    ensures DecodeFill(c, th, rank, v, Start(th, v, id), Words(x) + rest, next) == Ok(Tree(th, rank, v, x, id, rest, next))
    decreases x, 2
  {
    hide DecodeContainer, DecodeClass, DecodeOnly, NodeOf, BelowOf, CountOf, Words, Ranked, ContainerFits, Adopted;
    var m := ClassMember(th.typedefMap[v.ty], false);
    AloneIsset(c, th, rank, v, x, m);
    var s := x.subs[0];
    assert [] + Words(s) == Words(s);
    var node := Start(th, v, id).(isTypedef := true);
    OnlyBuilds(c, th, rank, m.ty, false, node, s, rest, next);
    AdoptedIs(th, rank, v, x, id, next, m, node);
    OneBelow(th, rank, v, x, next, m);
  }

  /** The object `x` of type `v` decodes to its tree, and takes just the words that are stored for it. */
  lemma {:induction false} Builds(c: Config, th: Hierarchy, rank: Ty -> nat, v: Variable, x: Value, id: NodeID,
                                  rest: seq<U64>,
                                  next: NodeID)
    requires Ranked(th, rank) && HasShape(c, th, rank, v.ty, v.isStubbed, x)
    ensures Decode(c, th, rank, v, id, Words(x) + rest, next) == Ok(Tree(th, rank, v, x, id, rest, next))
    decreases x, 3
  {
    hide DecodeFill, Tree, Words, Ranked;
    if x.head.Plain? {
      PlainBuilds(c, th, rank, v, x, id, rest, next);
    } else if x.head.Alias? {
      AliasBuilds(c, th, rank, v, x, id, rest, next);
    } else if x.head.Members? {
      MembersBuild(c, th, rank, v, x, id, rest, next);
    } else if x.head.Holds? {
      ContainerBuilds(c, th, rank, v, x, id, rest, next);
    } else if x.head.Address? || x.head.Skipped? {
      AddressBuilds(c, th, rank, v, x, id, rest, next);
    } else {
      PointerBuilds(c, th, rank, v, x, id, rest, next);
    }
  }

  lemma {:induction false} MembersBuild(c: Config, th: Hierarchy, rank: Ty -> nat, v: Variable, x: Value, id: NodeID,
                                         rest: seq<U64>, next: NodeID)
    requires Ranked(th, rank) && HasShape(c, th, rank, v.ty, v.isStubbed, x) && x.head.Members?
    ensures DecodeFill(c, th, rank, v, Start(th, v, id), Words(x) + rest, next) == Ok(Tree(th, rank, v, x, id, rest, next))
    decreases x, 2
  {
    hide DecodeContainer, DecodeClass, DecodeOnly, NodeOf, BelowOf, CountOf, Words, Ranked, ContainerFits, DecodeBlock, SubsFit, SubWords;
    var class', size := ClassOf(th, v.ty, x.head), StaticOf(th, v.ty, x);
    var node := Start(th, v, id).(ty := class', staticSize := size);
    var d := SubWords(x.subs) + rest;
    MemberWords(x, rest);
    MembersDecode(c, th, rank, v, x, id, rest, next, node);
    assert DecodeFill(c, th, rank, v, Start(th, v, id), Words(x) + rest, next) == DecodeClass(c, th, rank, class', node, d, next);
  }

  lemma MemberWords(x: Value, rest: seq<U64>)
    requires x.head.Members?
    ensures Words(x) + rest == HeadWords(x.head) + (SubWords(x.subs) + rest)
    ensures (Words(x) + rest)[|HeadWords(x.head)|..] == SubWords(x.subs) + rest
  {
    hide SubWords, HeadWords;
    Cat3(HeadWords(x.head), SubWords(x.subs), rest);
    DropFront(HeadWords(x.head), SubWords(x.subs) + rest);
  }

  /** The members of the class that the object is of. */
  lemma {:induction false} MembersDecode(c: Config, th: Hierarchy, rank: Ty -> nat, v: Variable, x: Value, id: NodeID,
                                          rest: seq<U64>, next: NodeID, node: Node)
    requires Ranked(th, rank) && HasShape(c, th, rank, v.ty, v.isStubbed, x) && x.head.Members?
    requires th.kind(v.ty) != TypedefKind && node == Start(th, v, id).(ty := ClassOf(th, v.ty, x.head), staticSize := StaticOf(th, v.ty, x))
    ensures DecodeClass(c, th, rank, ClassOf(th, v.ty, x.head), node, SubWords(x.subs) + rest, next) == Ok(Tree(th, rank, v, x, id, rest, next))
    decreases x, 1
  {
    hide DecodeBlock, NodeOf, Ranked, SubWords, HeadFits, BelowAll, Dynamics, Statics, Counts, DynamicOf, BelowOf, CountOf, Words, Tree;
    hide Filling, Closed, ElementTypes;
    var class' := ClassOf(th, v.ty, x.head);
    var types := Subtypes(th, rank, v.ty, x.head);
    if types == [] {
      AloneTree(th, rank, v, x, id, rest, next, node);
      NoWords(rest);
    } else {
      MemberRanks(th, rank, class');
      var b := Block(0, 0, [], SubWords(x.subs) + rest, next + |types|);
      assert types[0..] == types;
      BlockBuilds(c, th, rank, rank(class'), types, Captures(th, v.ty, x.head), next, 0, b, x.subs, rest);
      SimpleSums(th, rank, v.ty, x);
      ClosedIs(th, rank, v, x, id, rest, next, node, 0);
    }
  }

  /** When all the children in its block are decoded, the node is that of the object. */
  lemma ClosedIs(th: Hierarchy, rank: Ty -> nat, v: Variable, x: Value, id: NodeID, rest: seq<U64>, next: NodeID,
                 node: Node,
                 own: nat)
    requires Ranked(th, rank) && x.subs != [] && |Subtypes(th, rank, v.ty, x.head)| == |x.subs|
    requires DynamicOf(th, rank, v.ty, x) == own + Dynamics(th, rank, Subtypes(th, rank, v.ty, x.head), x.subs)
    requires node.id == id && node.staticSize == StaticOf(th, v.ty, x) && node.pointer == PointerOf(x.head) && node.isset == v.isset
    requires node.isTypedef == IsTypedef(th, v) && node.ty == ClassOf(th, v.ty, x.head)
    requires node.containerStats == StatsOf(th, v.ty, x)
    ensures var types := Subtypes(th, rank, v.ty, x.head);
            var b := Block(0, 0, [], SubWords(x.subs) + rest, next + |types|);
            Closed(node, next, |types|, own, Filling(th, rank, types, x.subs, next, b, rest)) == Tree(th, rank, v, x, id, rest, next)
  {
    hide DynamicOf, Dynamics, Statics, StaticOf, StatsOf, Subtypes, ClassOf, PointerOf, BelowAll, Counts, NodeOf, SubWords;
    var types := Subtypes(th, rank, v.ty, x.head);
    NodeWithSubs(th, rank, v, x, id, next, node);
    NodeOfSame(th, rank, v, x, id, next);
    assert [] + BelowAll(th, rank, types, x.subs, next, next + |types|) == BelowAll(th, rank, types, x.subs, next, next + |types|);
  }

  lemma AloneTree(th: Hierarchy, rank: Ty -> nat, v: Variable, x: Value, id: NodeID, rest: seq<U64>, next: NodeID,
                  node: Node)
    requires Ranked(th, rank) && x.head.Members? && x.subs == [] && th.kind(v.ty) != TypedefKind
    requires node == Start(th, v, id).(ty := ClassOf(th, v.ty, x.head), staticSize := StaticOf(th, v.ty, x))
    ensures Leaf(node, rest, next) == Ok(Tree(th, rank, v, x, id, rest, next))
  {
    hide NodeOf, BelowOf, CountOf, Words;
    NodeAlone(th, rank, v, x, id, next);
  }

  lemma NoWords(rest: seq<U64>)
    ensures SubWords([]) + rest == rest
  {
    assert SubWords([]) == [];
  }

  lemma {:induction false} ContainerBuilds(c: Config, th: Hierarchy, rank: Ty -> nat, v: Variable, x: Value, id: NodeID,
                                           rest: seq<U64>, next: NodeID)
    requires Ranked(th, rank) && HasShape(c, th, rank, v.ty, v.isStubbed, x) && x.head.Holds?
    ensures DecodeFill(c, th, rank, v, Start(th, v, id), Words(x) + rest, next) == Ok(Tree(th, rank, v, x, id, rest, next))
    decreases x, 2
  {
    hide DecodeContainer, DecodeHeader, Ranked, HeaderOf, WordsIn, SubWords, Tree, Says, SizesIn, ContainerElements, BoundOf, HasShape, Held;
    HoldsContainer(c, th, rank, v, x);
    var (kind, types) := ContainerElements(th, v.ty);
    var sizes, k, node := SizesIn(th, types), x.head.contents, Start(th, v, id);
    var d := SubWords(x.subs) + rest;
    Cat3(WordsIn(k), SubWords(x.subs), rest);
    StartsWith(WordsIn(k), d);
    WordsSay(k, kind, sizes, node.staticSize, d);
    var h := HeaderOf(kind, sizes, node.staticSize, WordsIn(k) + d);
    NotFailed(h, k, kind, sizes, node.staticSize);
    ContainerIs(c, th, rank, v.ty, node, WordsIn(k) + d, next, h);
    var bound := if h.words == 0 then rank(v.ty) else BoundOf(rank, types);
    HeaderBuilds(c, th, rank, v, x, id, rest, next, h, bound);
  }

  lemma NotFailed(h: Header, k: Contents, kind: ContainerKind, sizes: seq<nat>, staticSize: nat)
    requires Says(h, k, kind, sizes, staticSize)
    ensures !h.Failed? && h.words == |WordsIn(k)|
  {
  }

  lemma HoldsContainer(c: Config, th: Hierarchy, rank: Ty -> nat, v: Variable, x: Value)
    requires Ranked(th, rank) && HasShape(c, th, rank, v.ty, v.isStubbed, x) && x.head.Holds?
    ensures !v.isStubbed && th.kind(v.ty) in {RecordKind, ArrayKind} && v.ty !in th.knownDummyTypeList && ContainerType(c, th, v.ty)
    ensures ContainerFits(th, v.ty, x.head.contents) && ClassOf(th, v.ty, x.head) == v.ty
    ensures SubsFit(c, th, rank, ElementTypes(th, rank, v.ty, x.head.contents), x.subs, false)
  {
    hide ContainerFits, ElementTypes, SubsFit, Ranked;
  }

  /** The words of the container of a type, and what they ask for. */
  ghost predicate Told(c: Config, th: Hierarchy, rank: Ty -> nat, v: Variable, x: Value, h: Header, bound: nat)
    requires Ranked(th, rank)
  {
    && HasShape(c, th, rank, v.ty, v.isStubbed, x) && x.head.Holds? && ContainerType(c, th, v.ty)
    && var (kind, types) := ContainerElements(th, v.ty);
       && Says(h, x.head.contents, kind, SizesIn(th, types), SizeOr0(th, v.ty)) && (h.One? ==> h.index < |types|)
       && (h.One? || (h.All? && h.stats.length > 0) ==> forall i :: 0 <= i < |types| ==> rank(types[i]) < bound)
  }

  /** The node of a container before its children, if it has any. */
  function OfHeader(node: Node, h: Header): Node
    requires !h.Failed?
  {
    node.(pointer := h.pointer, containerStats := Some(h.stats))
  }

  /** The facts about the node of a container that does not adapt another one. */
  lemma ContainerFacts(c: Config, th: Hierarchy, rank: Ty -> nat, v: Variable, x: Value, id: NodeID, h: Header,
                       bound: nat)
    requires Ranked(th, rank) && Told(c, th, rank, v, x, h, bound)
    ensures var node := OfHeader(Start(th, v, id), h);
            && node.id == id && node.staticSize == StaticOf(th, v.ty, x) && node.pointer == PointerOf(x.head) && node.isset == v.isset
            && node.isTypedef == IsTypedef(th, v) && node.ty == ClassOf(th, v.ty, x.head)
            && (!x.head.contents.Adapter? ==> node.containerStats == StatsOf(th, v.ty, x))
    ensures DynamicOf(th, rank, v.ty, x) == OwnBytes(th, v.ty, x.head) + Dynamics(th, rank, Subtypes(th, rank, v.ty, x.head), x.subs)
    ensures var (kind, types) := ContainerElements(th, v.ty);
            OwnBytes(th, v.ty, x.head) == BytesIn(x.head.contents, kind, SizesIn(th, types), SizeOr0(th, v.ty))
    ensures Subtypes(th, rank, v.ty, x.head) == ElementTypes(th, rank, v.ty, x.head.contents)
    ensures |x.subs| == |ElementTypes(th, rank, v.ty, x.head.contents)|
  {
    hide Ranked, HasShape, BytesIn, SizesIn, ContainerElements, ElementTypes, Dynamics, Statics, StatsIn, WordsIn, PointerIn;
    HoldsContainer(c, th, rank, v, x);
    SubsCount(c, th, rank, ElementTypes(th, rank, v.ty, x.head.contents), x.subs, false);
  }

  lemma SubsCount(c: Config, th: Hierarchy, rank: Ty -> nat, types: seq<ClassMember>, subs: seq<Value>, capture: bool)
    requires Ranked(th, rank) && SubsFit(c, th, rank, types, subs, capture)
    ensures |types| == |subs|
  {
    hide HasShape;
  }

  /** Nothing follows the container's own words. */
  lemma CompleteBuilds(c: Config, th: Hierarchy, rank: Ty -> nat, v: Variable, x: Value, id: NodeID, rest: seq<U64>,
                       next: NodeID,
                       h: Header, bound: nat)
    requires Ranked(th, rank) && Told(c, th, rank, v, x, h, bound) && h.Complete?
    ensures Leaf(Sized(OfHeader(Start(th, v, id), h), h.dynamicSize, 0), SubWords(x.subs) + rest, next) == Ok(Tree(th, rank, v, x, id, rest, next))
  {
    hide Ranked, HasShape, BytesIn, SizesIn, StatsIn, WordsIn, PointerIn, NodeOf, BelowOf, CountOf, Words, OwnBytes, StatsOf, PointerOf;
    ContainerFacts(c, th, rank, v, x, id, h, bound);
    SizesCount(th, ContainerElements(th, v.ty).1);
    NothingFollows(th, rank, v.ty, x.head.contents);
    NodeAlone(th, rank, v, x, id, next);
    NoWords(rest);
  }

  lemma NothingFollows(th: Hierarchy, rank: Ty -> nat, ty: Ty, k: Contents)
    requires Ranked(th, rank) && (ty in th.containerTypeMap || th.kind(ty) == ArrayKind)
    requires Brief(k) || (k.Alternative? && k.index >= |ContainerElements(th, ty).1|)
    ensures ElementTypes(th, rank, ty, k) == []
  {
    hide Ranked, ContainerElements;
  }

  /** One object follows, which the container is made of. */
  lemma {:induction false} OneBuilds(c: Config, th: Hierarchy, rank: Ty -> nat, v: Variable, x: Value, id: NodeID,
                                     rest: seq<U64>,
                                     next: NodeID, h: Header, bound: nat)
    requires Ranked(th, rank) && Told(c, th, rank, v, x, h, bound) && h.One?
    ensures var r := DecodeOnly(c, th, rank, ContainerElements(th, v.ty).1[h.index], false, OfHeader(Start(th, v, id), h), SubWords(x.subs) + rest, next);
            && r.Ok?
            && Tree(th, rank, v, x, id, rest, next) ==
               if h.adapts then r.value.(node := r.value.node.(containerStats := r.value.below[|r.value.below| - 1].containerStats)) else r.value
    decreases x, 0
  {
    hide Ranked, HasShape, BytesIn, SizesIn, StatsIn, WordsIn, PointerIn, NodeOf, BelowOf, CountOf, Words, OwnBytes, StatsOf, PointerOf;
    hide DecodeOnly, DynamicOf, ContainerElements, Subtypes, Adopted, BelowAll, Counts, SubWords;
    ContainerFacts(c, th, rank, v, x, id, h, bound);
    var m := ClassMember(ContainerElements(th, v.ty).1[h.index], false);
    OneFollows(c, th, rank, v, x, h, bound);
    AloneIsset(c, th, rank, v, x, m);
    var s := x.subs[0];
    OneSub(th, rank, m, s, next, next + 1);
    assert [] + Words(s) == Words(s);
    var node := OfHeader(Start(th, v, id), h);
    OnlyBuilds(c, th, rank, m.ty, false, node, s, rest, next);
    HolderIs(c, th, rank, v, x, id, next, m, h, bound);
    OneBelow(th, rank, v, x, next, m);
  }

  lemma OneFollows(c: Config, th: Hierarchy, rank: Ty -> nat, v: Variable, x: Value, h: Header, bound: nat)
    requires Ranked(th, rank) && Told(c, th, rank, v, x, h, bound) && h.One?
    ensures Subtypes(th, rank, v.ty, x.head) == [ClassMember(ContainerElements(th, v.ty).1[h.index], false)]
    ensures OwnBytes(th, v.ty, x.head) == 0 && (h.adapts <==> x.head.contents.Adapter?)
  {
    hide Ranked, HasShape, ContainerElements, StatsIn, WordsIn, PointerIn, SizesIn;
    SizesCount(th, ContainerElements(th, v.ty).1);
  }

  /** The node of a container that is made of one object. */
  lemma HolderIs(c: Config, th: Hierarchy, rank: Ty -> nat, v: Variable, x: Value, id: NodeID, next: NodeID,
                 m: ClassMember, h: Header,
                 bound: nat)
    requires Ranked(th, rank) && Told(c, th, rank, v, x, h, bound) && h.One? && |x.subs| == 1
    requires Subtypes(th, rank, v.ty, x.head) == [m] && m == ClassMember(ContainerElements(th, v.ty).1[h.index], false)
    requires OwnBytes(th, v.ty, x.head) == 0 && (h.adapts <==> x.head.contents.Adapter?)
    ensures var child := NodeOf(th, rank, Variable(m.ty, None, false), x.subs[0], next, next + 1);
            var adopted := Adopted(OfHeader(Start(th, v, id), h), child, false);
            NodeOf(th, rank, v, x, id, next) == if h.adapts then adopted.(containerStats := child.containerStats) else adopted
  {
    hide Ranked, HasShape, BytesIn, SizesIn, StatsIn, WordsIn, PointerIn, NodeOf, BelowOf, CountOf, Words, OwnBytes, StatsOf, PointerOf;
    hide DynamicOf, ContainerElements, Subtypes, Dynamics, Statics;
    var child := Variable(m.ty, None, false);
    assert x.subs == [x.subs[0]];
    ContainerFacts(c, th, rank, v, x, id, h, bound);
    OneSub(th, rank, m, x.subs[0], next, next + 1);
    NodeSizes(th, rank, child, x.subs[0], next, next + 1);
    NodeWithSubs(th, rank, v, x, id, next, OfHeader(Start(th, v, id), h));
    AdapterStats(c, th, rank, v, x, h, bound);
  }

  /** An adapter tells the statistics of the container in it. */
  lemma AdapterStats(c: Config, th: Hierarchy, rank: Ty -> nat, v: Variable, x: Value, h: Header, bound: nat)
    requires Ranked(th, rank) && Told(c, th, rank, v, x, h, bound) && h.One? && |x.subs| == 1
    ensures x.head.contents.Adapter? ==> StatsOf(th, v.ty, x) == StatsOf(th, ContainerElements(th, v.ty).1[h.index], x.subs[0])
  {
    hide Ranked, HasShape, ContainerElements, StatsIn, WordsIn, PointerIn, SizesIn;
  }

  /** All elements follow, unless they are all primitive. */
  lemma {:induction false} AllBuild(c: Config, th: Hierarchy, rank: Ty -> nat, v: Variable, x: Value, id: NodeID,
                                    rest: seq<U64>,
                                    next: NodeID, h: Header, bound: nat)
    requires Ranked(th, rank) && Told(c, th, rank, v, x, h, bound) && h.All?
    ensures h.stats.elementStaticSize * h.stats.capacity < CONTAINER_SIZE_THRESHOLD
    ensures DecodeAll(c, th, rank, bound, h, ContainerElements(th, v.ty).1, AllOwn(h, OfHeader(Start(th, v, id), h)), SubWords(x.subs) + rest, next) ==
            Ok(Tree(th, rank, v, x, id, rest, next))
    decreases x, 0, 1
  {
    hide Ranked, HasShape, NodeOf, SubWords, Tree, AllThrough, DecodeElements, ContainerElements, AllOwn, Says, SubsFit, DynamicOf, Dynamics;
    hide StaticOf, ClassOf, PointerOf, StatsOf, OwnBytes, ElementTypes, Subtypes, Repeated;
    ContainerFacts(c, th, rank, v, x, id, h, bound);
    WithinThreshold(c, th, rank, v, x, h, bound);
    AllFollow(c, th, rank, v, x, h, bound);
    var types := ContainerElements(th, v.ty).1;
    if AllThrough(th, rank, types) || h.stats.length * |types| == 0 {
      NoWords(rest);
      LeafIs(c, th, rank, v, x, id, rest, next, h, bound);
    } else {
      HoldsContainer(c, th, rank, v, x);
      OwnIs(h, OfHeader(Start(th, v, id), h));
      ElementsBuild(c, th, rank, v, x, id, rest, next, bound, types, h.stats.length, AllOwn(h, OfHeader(Start(th, v, id), h)));
    }
  }

  lemma {:induction false} ElementsBuild(c: Config, th: Hierarchy, rank: Ty -> nat, v: Variable, x: Value, id: NodeID,
                                         rest: seq<U64>,
                                         next: NodeID, bound: nat, types: seq<Ty>, length: nat, own: Node)
    requires Ranked(th, rank) && x.subs != [] && Subtypes(th, rank, v.ty, x.head) == AsMembers(Repeated(types, length))
    requires SubsFit(c, th, rank, AsMembers(Repeated(types, length)), x.subs, false)
    requires length > 0 ==> forall i :: 0 <= i < |types| ==> rank(types[i]) < bound
    requires DynamicOf(th, rank, v.ty, x) == own.dynamicSize + Dynamics(th, rank, Subtypes(th, rank, v.ty, x.head), x.subs)
    requires own.id == id && own.staticSize == StaticOf(th, v.ty, x) && own.pointer == PointerOf(x.head) && own.isset == v.isset
    requires own.isTypedef == IsTypedef(th, v) && own.ty == ClassOf(th, v.ty, x.head)
    requires own.containerStats == StatsOf(th, v.ty, x)
    ensures DecodeElements(c, th, rank, bound, types, length, own, SubWords(x.subs) + rest, next) == Ok(Tree(th, rank, v, x, id, rest, next))
    decreases x, 0, 0
  {
    hide Ranked, SubWords, Tree, DecodeBlock, Dynamics, Subtypes, MembersBelow, Repeated, HasShape, Statics;
    hide StatsOf, PointerOf, StaticOf, DynamicOf, ClassOf, Filling, Closed;
    var members := AsMembers(Repeated(types, length));
    RepeatedRanks(rank, types, length, bound);
    SubsCount(c, th, rank, members, x.subs, false);
    assert members[0..] == members;
    BlockBuilds(c, th, rank, bound, members, false, next, 0, Block(0, 0, [], SubWords(x.subs) + rest, next + |members|), x.subs, rest);
    ClosedIs(th, rank, v, x, id, rest, next, own, own.dynamicSize);
  }

  lemma OwnIs(h: Header, node: Node)
    requires h.All?
    ensures AllOwn(h, node) == node.(dynamicSize := AllOwn(h, node).dynamicSize, exclusiveSize := AllOwn(h, node).exclusiveSize)
    ensures AllOwn(h, node).dynamicSize == h.dynamicSize + if h.storedInline then 0 else h.stats.elementStaticSize * h.stats.capacity
  {
  }

  lemma WithinThreshold(c: Config, th: Hierarchy, rank: Ty -> nat, v: Variable, x: Value, h: Header, bound: nat)
    requires Ranked(th, rank) && Told(c, th, rank, v, x, h, bound) && h.All?
    ensures h.stats.elementStaticSize * h.stats.capacity < CONTAINER_SIZE_THRESHOLD
    ensures forall id :: AllOwn(h, OfHeader(Start(th, v, id), h)).dynamicSize == OwnBytes(th, v.ty, x.head)
  {
    hide Ranked, ContainerElements, WordsIn, PointerIn, SizesIn, BytesIn, ElementBytes, Held, Subtypes, SubsFit;
    HoldsContainer(c, th, rank, v, x);
    SizesCount(th, ContainerElements(th, v.ty).1);
  }

  lemma AllFollow(c: Config, th: Hierarchy, rank: Ty -> nat, v: Variable, x: Value, h: Header, bound: nat)
    requires Ranked(th, rank) && Told(c, th, rank, v, x, h, bound) && h.All?
    ensures !x.head.contents.Adapter?
    ensures var types := ContainerElements(th, v.ty).1;
            ElementTypes(th, rank, v.ty, x.head.contents) ==
            if AllThrough(th, rank, types) || h.stats.length * |types| == 0 then [] else AsMembers(Repeated(types, h.stats.length))
  {
    hide Ranked, HasShape, ContainerElements, WordsIn, PointerIn, SizesIn, BytesIn, ElementBytes, AllThrough, Repeated;
    SizesCount(th, ContainerElements(th, v.ty).1);
  }

  lemma LeafIs(c: Config, th: Hierarchy, rank: Ty -> nat, v: Variable, x: Value, id: NodeID, rest: seq<U64>,
               next: NodeID, h: Header,
               bound: nat)
    requires Ranked(th, rank) && Told(c, th, rank, v, x, h, bound) && h.All? && x.subs == []
    ensures Tree(th, rank, v, x, id, rest, next) == Decoded(AllOwn(h, OfHeader(Start(th, v, id), h)), [], rest, next)
  {
    hide Ranked, HasShape, BytesIn, SizesIn, StatsIn, WordsIn, PointerIn, NodeOf, BelowOf, CountOf, Words, OwnBytes, StatsOf, PointerOf;
    hide Dynamics, Subtypes, SubWords, DynamicOf, StaticOf;
    ContainerFacts(c, th, rank, v, x, id, h, bound);
    WithinThreshold(c, th, rank, v, x, h, bound);
    AllFollow(c, th, rank, v, x, h, bound);
    NodeAlone(th, rank, v, x, id, next);
  }

  /** What the words of the container ask for. */
  lemma {:induction false} HeaderBuilds(c: Config, th: Hierarchy, rank: Ty -> nat, v: Variable, x: Value, id: NodeID,
                                        rest: seq<U64>, next: NodeID, h: Header, bound: nat)
    requires Ranked(th, rank) && Told(c, th, rank, v, x, h, bound) && !h.Failed?
    ensures var types := ContainerElements(th, v.ty).1;
            && (h.One? ==> h.index < |types|)
            && (h.One? || (h.All? && h.stats.length > 0) ==> forall i :: 0 <= i < |types| ==> rank(types[i]) < bound)
            && DecodeHeader(c, th, rank, bound, h, types, Start(th, v, id), SubWords(x.subs) + rest, next) ==
               Ok(Tree(th, rank, v, x, id, rest, next))
    decreases x, 1
  {
    hide DecodeContainer, DecodeAll, DecodeOnly, Ranked, SubWords, Tree, SizesIn, ContainerElements, HasShape, Held, Subtypes, Says;
    if h.Complete? {
      CompleteBuilds(c, th, rank, v, x, id, rest, next, h, bound);
    } else if h.One? {
      OneBuilds(c, th, rank, v, x, id, rest, next, h, bound);
    } else {
      AllBuild(c, th, rank, v, x, id, rest, next, h, bound);
    }
  }

  // ----- what the tree says

  ghost predicate TypedefOf(th: Hierarchy, ty: Ty, target: Ty)
  {
    th.kind(ty) == TypedefKind && ty in th.typedefMap && th.typedefMap[ty] == target
  }

  /** Some typedefs, each of the next one, down to a type that is none. */
  ghost predicate Typedefs(th: Hierarchy, chain: seq<Ty>)
  {
    && chain != [] && th.kind(chain[|chain| - 1]) != TypedefKind
    && forall i :: 0 <= i < |chain| - 1 ==> TypedefOf(th, chain[i], chain[i + 1])
  }

  ghost predicate LeadsToPrimitive(th: Hierarchy, ty: Ty)
  {
    exists chain :: Typedefs(th, chain) && chain[0] == ty && th.primitive(chain[|chain| - 1])
  }

  /** The elements that are not looked at are those whose typedefs lead to a primitive type. */
  lemma {:induction false} PrimitiveExactly(th: Hierarchy, rank: Ty -> nat, ty: Ty)
    requires Ranked(th, rank)
    ensures PrimitiveThrough(th, rank, ty) <==> LeadsToPrimitive(th, ty)
    decreases rank(ty)
  {
    hide Ranked;
    if th.kind(ty) == TypedefKind && ty in th.typedefMap {
      TypedefRank(th, rank, ty);
      PrimitiveExactly(th, rank, th.typedefMap[ty]);
    }
    LeadsOn(th, ty);
  }

  lemma LeadsOn(th: Hierarchy, ty: Ty)
    ensures LeadsToPrimitive(th, ty) <==>
              if th.kind(ty) != TypedefKind then th.primitive(ty) else ty in th.typedefMap && LeadsToPrimitive(th, th.typedefMap[ty])
  {
    if th.kind(ty) != TypedefKind {
      assert Typedefs(th, [ty]);
      if chain :| Typedefs(th, chain) && chain[0] == ty && th.primitive(chain[|chain| - 1]) {
        assert |chain| > 1 ==> TypedefOf(th, chain[0], chain[0 + 1]);
      }
    } else {
      if chain :| Typedefs(th, chain) && chain[0] == ty && th.primitive(chain[|chain| - 1]) {
        assert |chain| > 1 && TypedefOf(th, chain[0], chain[0 + 1]);
        ShorterTypedefs(th, chain);
        assert Typedefs(th, chain[1..]);
      }
      if ty in th.typedefMap && LeadsToPrimitive(th, th.typedefMap[ty]) {
        var chain :| Typedefs(th, chain) && chain[0] == th.typedefMap[ty] && th.primitive(chain[|chain| - 1]);
        LongerTypedefs(th, ty, chain);
        assert Typedefs(th, [ty] + chain);
      }
    }
  }

  lemma LongerTypedefs(th: Hierarchy, ty: Ty, chain: seq<Ty>)
    requires Typedefs(th, chain) && TypedefOf(th, ty, chain[0])
    ensures Typedefs(th, [ty] + chain) && ([ty] + chain)[|chain|] == chain[|chain| - 1]
  {
    hide TypedefOf;
    var longer := [ty] + chain;
    forall i | 0 <= i < |longer| - 1
      ensures TypedefOf(th, longer[i], longer[i + 1])
    {
      if i > 0 {
        assert longer[i] == chain[i - 1] && longer[i + 1] == chain[i - 1 + 1];
      }
    }
  }

  lemma ShorterTypedefs(th: Hierarchy, chain: seq<Ty>)
    requires Typedefs(th, chain) && |chain| > 1
    ensures Typedefs(th, chain[1..]) && chain[1..][|chain| - 2] == chain[|chain| - 1]
  {
    hide TypedefOf;
    var rest := chain[1..];
    forall i | 0 <= i < |rest| - 1
      ensures TypedefOf(th, rest[i], rest[i + 1])
    {
      assert rest[i] == chain[i + 1] && rest[i + 1] == chain[i + 1 + 1];
    }
  }

  /** Whichever object the words are stored for, its tree is what is decoded. */
  lemma DecodesToTree(c: Config, th: Hierarchy, rank: Ty -> nat, v: Variable, id: NodeID, d: seq<U64>, next: NodeID)
    requires Ranked(th, rank)
    ensures forall x, rest :: HasShape(c, th, rank, v.ty, v.isStubbed, x) && d == Words(x) + rest ==>
              Decode(c, th, rank, v, id, d, next) == Ok(Tree(th, rank, v, x, id, rest, next))
  {
    hide HasShape, Words, Decode, Tree, Ranked;
    forall x, rest | HasShape(c, th, rank, v.ty, v.isStubbed, x) && d == Words(x) + rest
      ensures Decode(c, th, rank, v, id, d, next) == Ok(Tree(th, rank, v, x, id, rest, next))
    {
      Builds(c, th, rank, v, x, id, rest, next);
    }
  }

  /** When the words of an object break off, there is no tree, and that is why. */
  lemma TruncatedFails(c: Config, th: Hierarchy, rank: Ty -> nat, v: Variable, x: Value, n: nat, id: NodeID,
                       next: NodeID)
    requires Ranked(th, rank) && HasShape(c, th, rank, v.ty, v.isStubbed, x) && n < |Words(x)|
    ensures Decode(c, th, rank, v, id, Words(x)[..n], next) == Err(EndOfData)
  {
    hide HasShape, Words, Decode, Ranked, NodeOf, BelowOf, CountOf;
    var d, e := Words(x)[..n], Words(x)[n..];
    assert Words(x) + [] == d + e;
    Builds(c, th, rank, v, x, id, [], next);
    DecodeLocal(c, th, rank, v, id, d, next, e);
  }

  /** No two objects of a type whose trees differ are stored alike. */
  lemma StoredApart(c: Config, th: Hierarchy, rank: Ty -> nat, v: Variable, x: Value, y: Value, id: NodeID,
                    next: NodeID)
    requires Ranked(th, rank) && HasShape(c, th, rank, v.ty, v.isStubbed, x) && HasShape(c, th, rank, v.ty, v.isStubbed, y)
    requires NodeOf(th, rank, v, x, id, next) != NodeOf(th, rank, v, y, id, next)
    ensures !(Words(x) <= Words(y))
  {
    hide HasShape, Words, Decode, Ranked, NodeOf, BelowOf, CountOf;
    if Words(x) <= Words(y) {
      var rest := Words(y)[|Words(x)|..];
      assert Words(x) + rest == Words(y) + [];
      Builds(c, th, rank, v, x, id, rest, next);
      Builds(c, th, rank, v, y, id, [], next);
    }
  }

  /**
   A container's node: its pointer and statistics, a child for each type of each element unless they are all primitive, and
   the memory for its capacity apart from what its elements have elsewhere.
   */
  lemma ContainerIsBuilt(c: Config, th: Hierarchy, rank: Ty -> nat, v: Variable, x: Value, id: NodeID, rest: seq<U64>,
                         next: NodeID)
    requires Ranked(th, rank) && HasShape(c, th, rank, v.ty, v.isStubbed, x) && x.head.Holds?
    requires !x.head.contents.Adapter? && !x.head.contents.Alternative?
    ensures ContainerType(c, th, v.ty)
    ensures ContainerElements(th, v.ty) == if th.kind(v.ty) == ArrayKind then (ArrayType, [th.element(v.ty)]) else th.containerTypeMap[v.ty]
    ensures var (kind, types) := ContainerElements(th, v.ty);
            var k, sizes, r := x.head.contents, SizesIn(th, types), Decode(c, th, rank, v, id, Words(x) + rest, next);
            && r.Ok? && r.value.rest == rest
            && r.value.node.pointer == PointerIn(k)
            && r.value.node.containerStats == Some(Stats(LengthIn(k, kind), CapacityIn(k), ElementBytes(k, kind, sizes)))
            && |x.subs| == (if AllThrough(th, rank, types) then 0 else ElementCount(k, kind) * |types|)
            && r.value.node.children == (if x.subs == [] then None else Some((next, next + |x.subs|)))
            && r.value.node.dynamicSize == BytesIn(k, kind, sizes, SizeOr0(th, v.ty)) + Dynamics(th, rank, Subtypes(th, rank, v.ty, x.head), x.subs)
  {
    hide Words, Decode, Ranked, HasShape, PointerIn, LengthIn, CapacityIn, ElementBytes, BytesIn, SizesIn, Subtypes, Dynamics;
    hide ExclusiveOf, AllThrough, BelowOf, CountOf, Repeated;
    Builds(c, th, rank, v, x, id, rest, next);
    HoldsContainer(c, th, rank, v, x);
    ElementsCounted(c, th, rank, v, x);
    var types := Subtypes(th, rank, v.ty, x.head);
    assert DynamicOf(th, rank, v.ty, x) == OwnBytes(th, v.ty, x.head) + Dynamics(th, rank, types, x.subs);
  }

  lemma ElementsCounted(c: Config, th: Hierarchy, rank: Ty -> nat, v: Variable, x: Value)
    requires Ranked(th, rank) && HasShape(c, th, rank, v.ty, v.isStubbed, x) && x.head.Holds?
    requires !x.head.contents.Adapter? && !x.head.contents.Alternative? && ContainerType(c, th, v.ty)
    ensures var (kind, types) := ContainerElements(th, v.ty);
            |x.subs| == (if AllThrough(th, rank, types) then 0 else ElementCount(x.head.contents, kind) * |types|)
  {
    hide Ranked, HasShape, ContainerElements, AllThrough, Repeated, ElementCount;
    HoldsContainer(c, th, rank, v, x);
    SubsCount(c, th, rank, ElementTypes(th, rank, v.ty, x.head.contents), x.subs, false);
  }

  /** A container whose capacity is implausible is refused, whatever follows. */
  lemma TooLargeIsRefused(c: Config, th: Hierarchy, rank: Ty -> nat, ty: Ty, k: Contents, node: Node, rest: seq<U64>,
                          next: NodeID)
    requires Ranked(th, rank) && ContainerType(c, th, ty) && !Brief(k) && !k.Adapter? && !k.Alternative?
    requires var (kind, types) := ContainerElements(th, ty);
             && SizesKnown(th, types) && Held(k, kind, SizesIn(th, types))
             && ElementBytes(k, kind, SizesIn(th, types)) * CapacityIn(k) >= CONTAINER_SIZE_THRESHOLD
    ensures DecodeContainer(c, th, rank, ty, node, WordsIn(k) + rest, next) == Err(OverThreshold)
  {
    hide DecodeContainer, Ranked, HeaderOf, WordsIn, SizesIn, ContainerElements, BoundOf, Held, ElementBytes, BytesIn, PointerIn, DecodeAll;
    var (kind, types) := ContainerElements(th, ty);
    WordsSay(k, kind, SizesIn(th, types), node.staticSize, rest);
    StartsWith(WordsIn(k), rest);
    var h := HeaderOf(kind, SizesIn(th, types), node.staticSize, WordsIn(k) + rest);
    ContainerIs(c, th, rank, ty, node, WordsIn(k) + rest, next, h);
  }

  /** A pointer that was followed owns all of the object that it points to, and nothing else. */
  lemma PointerIsBuilt(c: Config, th: Hierarchy, rank: Ty -> nat, v: Variable, x: Value, id: NodeID, rest: seq<U64>,
                       next: NodeID)
    requires Ranked(th, rank) && HasShape(c, th, rank, v.ty, v.isStubbed, x) && x.head.Followed?
    ensures v.ty in th.pointerToTypeMap && |x.subs| == 1
    ensures var child, r := Variable(th.pointerToTypeMap[v.ty], None, false), Decode(c, th, rank, v, id, Words(x) + rest, next);
            var pointee := NodeOf(th, rank, child, x.subs[0], next, next + 1);
            && r.Ok? && r.value.rest == rest && r.value.below != [] && r.value.below[|r.value.below| - 1] == pointee
            && r.value.node.pointer == Some(x.head.address) && r.value.node.children == Some((next, next + 1))
            && r.value.node.dynamicSize == pointee.staticSize + pointee.dynamicSize && r.value.node.exclusiveSize == r.value.node.staticSize
  {
    hide Words, Decode, Ranked, HasShape, NodeOf, BelowOf, CountOf;
    OnlyPointee(c, th, rank, v, x);
    var m := ClassMember(th.pointerToTypeMap[v.ty], false);
    AloneIsset(c, th, rank, v, x, m);
    Builds(c, th, rank, v, x, id, rest, next);
    OneBelow(th, rank, v, x, next, m);
    OneSub(th, rank, m, x.subs[0], next, next + 1);
    AdoptedIs(th, rank, v, x, id, next, m, Start(th, v, id).(pointer := PointerOf(x.head), isTypedef := IsTypedef(th, v)));
    NodeSizes(th, rank, Variable(m.ty, None, false), x.subs[0], next, next + 1);
    NodeSizes(th, rank, v, x, id, next);
  }

  lemma OnlyPointee(c: Config, th: Hierarchy, rank: Ty -> nat, v: Variable, x: Value)
    requires Ranked(th, rank) && HasShape(c, th, rank, v.ty, v.isStubbed, x) && (x.head.Followed? || x.head.Alias?)
    ensures x.head.Followed? ==> v.ty in th.pointerToTypeMap && Subtypes(th, rank, v.ty, x.head) == [ClassMember(th.pointerToTypeMap[v.ty], false)]
    ensures x.head.Alias? ==> v.ty in th.typedefMap && Subtypes(th, rank, v.ty, x.head) == [ClassMember(th.typedefMap[v.ty], false)]
  {
    hide Ranked, SubsFit;
  }

  /** A typedef has the memory elsewhere that its target has. */
  lemma TypedefIsBuilt(c: Config, th: Hierarchy, rank: Ty -> nat, v: Variable, x: Value, id: NodeID, rest: seq<U64>,
                       next: NodeID)
    requires Ranked(th, rank) && HasShape(c, th, rank, v.ty, v.isStubbed, x) && x.head.Alias?
    ensures v.ty in th.typedefMap && |x.subs| == 1
    ensures var child, r := Variable(th.typedefMap[v.ty], None, false), Decode(c, th, rank, v, id, Words(x) + rest, next);
            var target := NodeOf(th, rank, child, x.subs[0], next, next + 1);
            && r.Ok? && r.value.rest == rest && r.value.below != [] && r.value.below[|r.value.below| - 1] == target
            && r.value.node.dynamicSize == target.dynamicSize && r.value.node.children == Some((next, next + 1))
  {
    hide Words, Decode, Ranked, HasShape, NodeOf, BelowOf, CountOf;
    OnlyPointee(c, th, rank, v, x);
    var m := ClassMember(th.typedefMap[v.ty], false);
    AloneIsset(c, th, rank, v, x, m);
    Builds(c, th, rank, v, x, id, rest, next);
    OneBelow(th, rank, v, x, next, m);
    OneSub(th, rank, m, x.subs[0], next, next + 1);
    AdoptedIs(th, rank, v, x, id, next, m, Start(th, v, id).(pointer := PointerOf(x.head), isTypedef := IsTypedef(th, v)));
    NodeSizes(th, rank, Variable(m.ty, None, false), x.subs[0], next, next + 1);
  }
}
