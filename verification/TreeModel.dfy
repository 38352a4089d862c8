/** What the tree builder works on, oi/TreeBuilder.cpp and oi/TypeHierarchy.h: types, nodes and the words in the data segment. */
module TreeModel {
  import opened Machine

  type Ty = nat

  type NodeID = nat

  datatype Kind = PointerKind | TypedefKind | RecordKind | ArrayKind | FunctionKind | VoidKind | OtherKind

  datatype ContainerKind =
    | Unknown | ArrayType | SmallVec | SetType | MultiSet | UnorderedSet | UnorderedMultiset | SeqType | ListType
    | StdMap | StdUnorderedMap | StdUnorderedMultimap | MapSeq | ByMultiQrt | F14Map | F14Set | FeedQuickHashSet
    | FeedQuickHashMap | RadixTree | PairType | StringType | FollyIOBuf | FollyIOBufQueue | FbString | UniqPtr | ShrdPtr
    | FbHashMap | FbHashSet | FollyOptional | OptionalType | TryType | RefWrapper | SortedVecSet | RepeatedField
    | Caffe2Blob | MultiMap | FollySmallHeapVectorMap | ContainerAdapter | MicroList | EnumMap | BoostBimap | StdVariant
    | ThriftIsset | Dummy | WeakPtr

  datatype ClassMember = ClassMember(ty: Ty, isStubbed: bool)

  /** What is known about the types; `element` and `length` are those of arrays. */
  datatype Hierarchy = Hierarchy(
    kind: Ty -> Kind, size: Ty -> Option<nat>, primitive: Ty -> bool, standardInteger: Ty -> bool,
    element: Ty -> Ty, length: Ty -> nat,
    typedefMap: map<Ty, Ty>, pointerToTypeMap: map<Ty, Ty>, classMembersMap: map<Ty, seq<ClassMember>>,
    containerTypeMap: map<Ty, (ContainerKind, seq<Ty>)>, knownDummyTypeList: set<Ty>,
    thriftIssetStructTypes: set<Ty>, descendantClasses: map<Ty, seq<Ty>>)

  datatype Config = Config(chaseRawPointers: bool, typeGraph: bool)

  datatype Error = EndOfData | NoSize | UnknownContainer | OverThreshold | Undefined

  datatype Result<+T> = Ok(value: T) | Err(error: Error)

  datatype Stats = Stats(length: nat, capacity: nat, elementStaticSize: nat)

  datatype Node = Node(
    id: NodeID, staticSize: nat, dynamicSize: nat, exclusiveSize: nat, children: Option<(NodeID, NodeID)>,
    pointer: Option<U64>, containerStats: Option<Stats>, isset: Option<bool>, isTypedef: bool, ty: Ty)

  datatype Variable = Variable(ty: Ty, isset: Option<bool>, isStubbed: bool)

  const SKIPPED: U64 := 0
  const NO_VALUE: U64 := 0xffff_ffff_ffff_ffff
  const CONTAINER_SIZE_THRESHOLD: nat := 0x40_0000_0000

  const ERROR_NODE_ID: NodeID := 1023
  const FIRST_NODE_ID: NodeID := 1024
  const FIRST_DATA_INDEX: nat := 4

  // ----- the words that describe a container

  /** What a container's words say, and what is to be done with its elements. */
  datatype Header =
    | Failed(error: Error)
    | Complete(words: nat, pointer: Option<U64>, stats: Stats, dynamicSize: nat)
    | One(words: nat, pointer: Option<U64>, stats: Stats, index: nat, adapts: bool)
    | All(words: nat, pointer: Option<U64>, stats: Stats, dynamicSize: nat, storedInline: bool)

  function Sum(sizes: seq<nat>): nat
  {
    if sizes == [] then 0 else sizes[0] + Sum(sizes[1..])
  }

  function Largest(sizes: seq<nat>): nat
  {
    if sizes == [] then 0 else Max(sizes[0], Largest(sizes[1..]))
  }

  /** Contents stored inline, or none; `e` is the size of an element, and `d` are the words to come. */
  function InlineHeader(kind: ContainerKind, sizes: seq<nat>, e: nat, d: seq<U64>): Header
  {
    if kind == WeakPtr then All(0, None, Stats(0, 0, e), 0, false)
    else if kind == PairType then All(0, None, Stats(1, 1, e), 0, true)
    else if kind == ThriftIsset || kind == Dummy then All(0, None, Stats(0, 0, 0), 0, false)
    else if |d| < 1 then Failed(EndOfData)
    else if kind == OptionalType then
      if d[0] == 0 then Complete(1, None, Stats(0, 1, e), 0) else All(1, None, Stats(1, 1, e), 0, true)
    else if kind == FollyOptional then
      if d[0] == 0 then Complete(1, Some(d[0]), Stats(0, 1, e), 0) else All(1, Some(d[0]), Stats(1, 1, e), 0, true)
    else if kind == ArrayType then All(1, None, Stats(d[0], d[0], e), 0, true)
    else if kind == StdVariant then
      if d[0] < |sizes| then One(1, None, Stats(1, 1, Largest(sizes)), d[0], false)
      else Complete(1, None, Stats(1, 1, Largest(sizes)), 0)
    else Complete(1, None, Stats(0, 0, e), d[0])
  }

  /** Pointers, which say whether they were followed, and adapters of another container. */
  function PointerHeader(kind: ContainerKind, sizes: seq<nat>, e: nat, d: seq<U64>): Header
  {
    if kind == SortedVecSet || kind == ContainerAdapter then
      if |d| < 1 then Failed(EndOfData)
      else if sizes == [] then Failed(Undefined)
      else One(1, Some(d[0]), Stats(0, 0, e), 0, true)
    else if |d| < 2 then Failed(EndOfData)
    else
      var length := if kind == TryType || kind == RefWrapper || d[0] != 0 then 1 else 0;
      if d[1] == SKIPPED then Complete(2, Some(d[0]), Stats(length, 1, e), 0)
      else All(2, Some(d[0]), Stats(length, 1, e), 0, false)
  }

  function BufferHeader(kind: ContainerKind, e: nat, d: seq<U64>): Header
  {
    if |d| < 2 then Failed(EndOfData)
    else if kind == FollyIOBuf then All(2, None, Stats(d[1], d[0], e), 0, false)
    else if d[1] == SKIPPED then Complete(2, Some(d[0]), Stats(0, 0, e), 0)
    else if |d| < 4 then Failed(EndOfData)
    else All(4, Some(d[0]), Stats(d[3], d[2], e), 0, false)
  }

  predicate OnlyLength(kind: ContainerKind)
  {
    kind == BoostBimap || kind == RadixTree || kind == MultiSet || kind == MultiMap || kind == ByMultiQrt
  }

  /** A number of elements that are kept elsewhere. */
  function ElementsHeader(kind: ContainerKind, e: nat, d: seq<U64>): Header
  {
    if OnlyLength(kind) then
      if |d| < 1 then Failed(EndOfData) else All(1, None, Stats(d[0], d[0], e), 0, false)
    else if kind == ListType then
      if |d| < 2 then Failed(EndOfData) else All(2, Some(d[0]), Stats(d[1], d[1], e), 0, false)
    else if |d| < 3 then Failed(EndOfData)
    else All(3, Some(d[0]), Stats(d[2], d[1], e), 0, false)
  }

  /** Elements with some memory for each node or each bucket, or a total that includes everything. */
  function NodesHeader(kind: ContainerKind, e: nat, d: seq<U64>): Header
  {
    if kind == SetType || kind == StdMap then
      if |d| < 2 then Failed(EndOfData) else All(2, None, Stats(d[1], d[1], e + d[0]), 0, false)
    else if |d| < 3 then Failed(EndOfData)
    else if kind == F14Map || kind == F14Set then All(3, None, Stats(d[2], d[1], e), d[0], true)
    else
      var bucketCount: nat := d[1];
      All(3, None, Stats(d[2], d[2], e + d[0]), bucketCount * 8, false)
  }

  /** Contents that are stored inline while they are few. */
  function SmallHeader(kind: ContainerKind, staticSize: nat, e: nat, d: seq<U64>): Header
  {
    if kind == FbString then
      if |d| < 4 then Failed(EndOfData)
      else All(4, if d[1] < 255 then None else Some(d[0]), Stats(d[2], d[1], e), 0, d[3] == 0)
    else if kind == StringType then
      if |d| < 2 then Failed(EndOfData)
      else All(2, None, Stats(d[1], d[0], e), 0, d[0] <= if staticSize == 24 then 22 else 15)
    else if |d| < 1 then Failed(EndOfData)
    else if d[0] != 0 && e == 0 then Failed(Undefined)
    else if |d| < 3 then Failed(EndOfData)
    else All(3, None, Stats(d[2], d[1], e), 0, d[1] <= if d[0] == 0 then 0 else Max(8 / e, d[0]))
  }

  /** The groups of kinds whose words are alike. */
  predicate IsInline(kind: ContainerKind)
  {
    || kind == OptionalType || kind == FollyOptional || kind == WeakPtr || kind == PairType || kind == ArrayType
    || kind == ThriftIsset || kind == Dummy || kind == Caffe2Blob || kind == StdVariant
  }

  predicate IsPointer(kind: ContainerKind)
  {
    || kind == ShrdPtr || kind == UniqPtr || kind == TryType || kind == RefWrapper || kind == SortedVecSet
    || kind == ContainerAdapter
  }

  predicate IsBuffer(kind: ContainerKind)
  {
    kind == FollyIOBufQueue || kind == FollyIOBuf
  }

  predicate HasNodes(kind: ContainerKind)
  {
    || kind == SetType || kind == StdMap || kind == UnorderedSet || kind == UnorderedMultiset
    || kind == StdUnorderedMultimap || kind == StdUnorderedMap || kind == F14Map || kind == F14Set
  }

  predicate IsSmall(kind: ContainerKind)
  {
    kind == FbString || kind == StringType || kind == SmallVec
  }

  /** The words `d` read for a container of a kind, with the sizes of its element types and its own. */
  function HeaderOf(kind: ContainerKind, sizes: seq<nat>, staticSize: nat, d: seq<U64>): Header
  {
    var e := Sum(sizes);
    if kind == Unknown || kind == EnumMap then Failed(UnknownContainer)
    else if IsInline(kind) then InlineHeader(kind, sizes, e, d)
    else if IsPointer(kind) then PointerHeader(kind, sizes, e, d)
    else if IsBuffer(kind) then BufferHeader(kind, e, d)
    else if HasNodes(kind) then NodesHeader(kind, e, d)
    else if IsSmall(kind) then SmallHeader(kind, staticSize, e, d)
    else ElementsHeader(kind, e, d)
  }

  /** A header takes no more words than there are, and at least one except for a pair or when there are no elements. */
  ghost predicate Progresses(h: Header, kind: ContainerKind, count: nat, words: nat)
  {
    && (h.Failed? || h.words <= words)
    && (h.One? ==> h.words > 0 && h.index < count) && (h.Complete? ==> h.words > 0)
    && (h.All? && h.stats.length > 0 && kind != PairType ==> h.words > 0)
  }

  lemma InlineProgress(kind: ContainerKind, sizes: seq<nat>, e: nat, d: seq<U64>)
    ensures Progresses(InlineHeader(kind, sizes, e, d), kind, |sizes|, |d|)
    ensures Progresses(PointerHeader(kind, sizes, e, d), kind, |sizes|, |d|)
  {
  }

  lemma OtherProgress(kind: ContainerKind, staticSize: nat, e: nat, d: seq<U64>, count: nat)
    ensures Progresses(BufferHeader(kind, e, d), kind, count, |d|)
    ensures Progresses(NodesHeader(kind, e, d), kind, count, |d|)
    ensures Progresses(SmallHeader(kind, staticSize, e, d), kind, count, |d|)
    ensures Progresses(ElementsHeader(kind, e, d), kind, count, |d|)
  {
  }

  lemma HeaderProgress(kind: ContainerKind, sizes: seq<nat>, staticSize: nat, d: seq<U64>)
    ensures Progresses(HeaderOf(kind, sizes, staticSize, d), kind, |sizes|, |d|)
  {
    hide InlineHeader, PointerHeader, BufferHeader, NodesHeader, SmallHeader, ElementsHeader;
    InlineProgress(kind, sizes, Sum(sizes), d);
    OtherProgress(kind, staticSize, Sum(sizes), d, |sizes|);
  }

  // ----- accounts of nodes

  /** The numbers from lo up to hi, each once. */
  ghost function Range(lo: nat, hi: nat): multiset<nat>
    decreases hi - lo
  {
    if lo >= hi then multiset{} else multiset{lo} + Range(lo + 1, hi)
  }

  lemma {:induction false} RangeSplit(lo: nat, mid: nat, hi: nat)
    requires lo <= mid <= hi
    ensures Range(lo, hi) == Range(lo, mid) + Range(mid, hi)
    decreases mid - lo
  {
    if lo < mid {
      RangeSplit(lo + 1, mid, hi);
    }
  }

  lemma RangeOne(lo: nat)
    ensures Range(lo, lo + 1) == multiset{lo} && Range(lo, lo) == multiset{}
  {
    assert Range(lo + 1, lo + 1) == multiset{};
  }

  lemma {:induction false} RangeCount(lo: nat, hi: nat, k: nat)
    ensures Range(lo, hi)[k] == if lo <= k < hi then 1 else 0
    decreases hi - lo
  {
    if lo < hi {
      RangeCount(lo + 1, hi, k);
    }
  }

  ghost function ChildrenOf(n: Node): multiset<NodeID>
  {
    if n.children.None? then multiset{} else Range(n.children.value.0, n.children.value.1)
  }

  ghost function Ids(ns: seq<Node>): multiset<NodeID>
    decreases |ns|
  {
    if ns == [] then multiset{} else multiset{ns[0].id} + Ids(ns[1..])
  }

  ghost function Kids(ns: seq<Node>): multiset<NodeID>
    decreases |ns|
  {
    if ns == [] then multiset{} else ChildrenOf(ns[0]) + Kids(ns[1..])
  }

  function Exclusive(ns: seq<Node>): nat
    decreases |ns|
  {
    if ns == [] then 0 else ns[0].exclusiveSize + Exclusive(ns[1..])
  }

  lemma {:induction false} AccountsConcat(a: seq<Node>, b: seq<Node>)
    ensures Ids(a + b) == Ids(a) + Ids(b)
    ensures Kids(a + b) == Kids(a) + Kids(b)
    ensures Exclusive(a + b) == Exclusive(a) + Exclusive(b)
    decreases |a|
  {
    if a == [] {
      assert a + b == b;
    } else {
      assert (a + b)[1..] == a[1..] + b;
      AccountsConcat(a[1..], b);
    }
  }

  lemma AccountsOne(n: Node)
    ensures Ids([n]) == multiset{n.id} && Kids([n]) == ChildrenOf(n) && Exclusive([n]) == n.exclusiveSize
  {
    assert [n][1..] == [];
  }

  /** What is in the store after nodes have been put there one after the other. */
  ghost function Stored(ns: seq<Node>): map<NodeID, Node>
    decreases |ns|
  {
    if ns == [] then map[] else Stored(ns[..|ns| - 1])[ns[|ns| - 1].id := ns[|ns| - 1]]
  }

  /** Typedefs, by-value members, the halves of a pair and pointed-to functions are of lower rank. */
  ghost predicate Ranked(th: Hierarchy, rank: Ty -> nat)
  {
    && (forall t :: t in th.typedefMap ==> rank(th.typedefMap[t]) < rank(t))
    && (forall t, i :: t in th.classMembersMap && 0 <= i < |th.classMembersMap[t]| ==> rank(th.classMembersMap[t][i].ty) < rank(t))
    && (forall t, i :: t in th.containerTypeMap && th.containerTypeMap[t].0 == PairType && 0 <= i < |th.containerTypeMap[t].1| ==>
          rank(th.containerTypeMap[t].1[i]) < rank(t))
    && (forall t :: t in th.pointerToTypeMap && th.kind(th.pointerToTypeMap[t]) == FunctionKind ==> rank(th.pointerToTypeMap[t]) < rank(t))
  }

  // ----- what a node and its descendants amount to

  /**
   * The descendants of a node, with the IDs that were allocated for them. In all they own `error` bytes more than
   * they should.
   */
  ghost predicate Filled(node: Node, added: seq<Node>, n0: NodeID, n1: NodeID, error: int)
  {
    && n0 <= n1 && Ids(added) == Range(n0, n1) && Kids(added) + ChildrenOf(node) == Range(n0, n1)
    && node.exclusiveSize + Exclusive(added) == node.staticSize + node.dynamicSize + error
  }

  /** A node, put after its descendants: each ID is used once, and is the child of exactly one of them. */
  ghost predicate Whole(node: Node, added: seq<Node>, n0: NodeID, n1: NodeID, error: int)
  {
    && n0 <= n1 && added != [] && added[|added| - 1] == node
    && Ids(added) == multiset{node.id} + Range(n0, n1) && Kids(added) == Range(n0, n1)
    && Exclusive(added) == node.staticSize + node.dynamicSize + error
  }

  /** Some of the children in a block of IDs, with their descendants. */
  ghost predicate Partly(done: nat, block: NodeID, count: nat, added: seq<Node>, n1: NodeID, sizes: nat, error: int)
  {
    && block + count <= n1 && done <= count
    && Ids(added) == Range(block, block + done) + Range(block + count, n1) && Kids(added) == Range(block + count, n1)
    && Exclusive(added) == sizes + error
  }

  /** `setSize`. */
  function Sized(node: Node, dynamicSize: nat, memberSizes: nat): Node
  {
    node.(dynamicSize := dynamicSize,
          exclusiveSize := if memberSizes > node.staticSize + dynamicSize then 0 else node.staticSize + dynamicSize - memberSizes)
  }

  /** By how much a node's members are larger than the node. */
  function Excess(node: Node, dynamicSize: nat, memberSizes: nat): nat
  {
    if memberSizes > node.staticSize + dynamicSize then memberSizes - (node.staticSize + dynamicSize) else 0
  }

  lemma SizedBalances(node: Node, dynamicSize: nat, memberSizes: nat, below: nat, error: int)
    requires below == memberSizes + error
    ensures var n := Sized(node, dynamicSize, memberSizes);
            n.exclusiveSize + below == n.staticSize + n.dynamicSize + error + Excess(node, dynamicSize, memberSizes)
  {
  }

  lemma LeafFilled(node: Node, n: NodeID)
    requires node.children.None?
    ensures Filled(node, [], n, n, node.exclusiveSize - node.staticSize - node.dynamicSize)
  {
    RangeOne(n);
  }

  lemma FilledIsWhole(node: Node, added: seq<Node>, n0: NodeID, n1: NodeID, error: int)
    requires Filled(node, added, n0, n1, error)
    ensures Whole(node, added + [node], n0, n1, error)
  {
    hide ChildrenOf, Range;
    AccountsConcat(added, [node]);
    AccountsOne(node);
  }

  lemma OneChild(node: Node, child: Node, added: seq<Node>, n0: NodeID, n1: NodeID, dynamicSize: nat, error: int)
    requires Whole(child, added, n0 + 1, n1, error) && child.id == n0
    requires node.children == Some((n0, n0 + 1))
    ensures var sizes := child.dynamicSize + child.staticSize;
            Filled(Sized(node, dynamicSize, sizes), added, n0, n1, error + Excess(node, dynamicSize, sizes))
  {
    hide Range, Ids, Kids, Exclusive;
    RangeOne(n0);
    RangeSplit(n0, n0 + 1, n1);
    SizedBalances(node, dynamicSize, child.dynamicSize + child.staticSize, Exclusive(added), error);
  }

  lemma BlockStarts(block: NodeID, count: nat)
    ensures Partly(0, block, count, [], block + count, 0, 0)
  {
    RangeOne(block);
    RangeOne(block + count);
  }

  lemma ChildAdded(done: nat, block: NodeID, count: nat, added: seq<Node>, n1: NodeID, sizes: nat, error: int,
                   child: Node, more: seq<Node>, n2: NodeID, error': int)
    requires Partly(done, block, count, added, n1, sizes, error) && done < count
    requires Whole(child, more, n1, n2, error') && child.id == block + done
    ensures Partly(done + 1, block, count, added + more, n2, sizes + (child.dynamicSize + child.staticSize), error + error')
  {
    hide Range, Ids, Kids, Exclusive;
    AccountsConcat(added, more);
    RangeOne(block + done);
    RangeSplit(block, block + done, block + done + 1);
    RangeSplit(block + count, n1, n2);
  }

  lemma BlockFilled(node: Node, block: NodeID, count: nat, added: seq<Node>, n1: NodeID, dynamicSize: nat,
                    sizes: nat, error: int)
    requires Partly(count, block, count, added, n1, sizes, error) && node.children == Some((block, block + count))
    ensures Filled(Sized(node, dynamicSize, sizes), added, block, n1, error + Excess(node, dynamicSize, sizes))
  {
    hide Range, Ids, Kids, Exclusive;
    RangeSplit(block, block + count, n1);
    SizedBalances(node, dynamicSize, sizes, Exclusive(added), error);
  }

  // ----- the sizes of children

  /** The dynamic sizes of the nodes with IDs in a range. */
  ghost function DynamicIn(ns: seq<Node>, lo: NodeID, hi: NodeID): nat
    decreases |ns|
  {
    if ns == [] then 0 else (if lo <= ns[0].id < hi then ns[0].dynamicSize else 0) + DynamicIn(ns[1..], lo, hi)
  }

  ghost function StaticIn(ns: seq<Node>, lo: NodeID, hi: NodeID): nat
    decreases |ns|
  {
    if ns == [] then 0 else (if lo <= ns[0].id < hi then ns[0].staticSize else 0) + StaticIn(ns[1..], lo, hi)
  }

  lemma {:induction false} SizesConcat(a: seq<Node>, b: seq<Node>, lo: NodeID, hi: NodeID)
    ensures DynamicIn(a + b, lo, hi) == DynamicIn(a, lo, hi) + DynamicIn(b, lo, hi)
    ensures StaticIn(a + b, lo, hi) == StaticIn(a, lo, hi) + StaticIn(b, lo, hi)
    decreases |a|
  {
    if a == [] {
      assert a + b == b;
    } else {
      assert (a + b)[1..] == a[1..] + b;
      SizesConcat(a[1..], b, lo, hi);
    }
  }

  lemma {:induction false} NoSizes(ns: seq<Node>, lo: NodeID, hi: NodeID)
    requires forall id :: id in Ids(ns) ==> id >= hi
    ensures DynamicIn(ns, lo, hi) == 0 && StaticIn(ns, lo, hi) == 0
    decreases |ns|
  {
    if ns != [] {
      assert ns[0].id in Ids(ns);
      assert forall id :: id in Ids(ns[1..]) ==> id in Ids(ns);
      NoSizes(ns[1..], lo, hi);
    }
  }

  /** Of a child and its descendants, only the child itself lies in its parent's block. */
  lemma OneInBlock(child: Node, more: seq<Node>, n1: NodeID, n2: NodeID, lo: NodeID, hi: NodeID, error: int)
    requires Whole(child, more, n1, n2, error) && lo <= child.id < hi <= n1
    ensures DynamicIn(more, lo, hi) == child.dynamicSize && StaticIn(more, lo, hi) == child.staticSize
  {
    var below := more[..|more| - 1];
    assert more == below + [child];
    AccountsConcat(below, [child]);
    AccountsOne(child);
    forall id | id in Ids(below)
      ensures id >= hi
    {
      assert Ids(more)[id] == Ids(below)[id] + multiset{child.id}[id] == multiset{child.id}[id] + Range(n1, n2)[id];
      RangeCount(n1, n2, id);
    }
    NoSizes(below, lo, hi);
    SizesConcat(below, [child], lo, hi);
    OneSize(child, lo, hi);
  }

  lemma OneSize(n: Node, lo: NodeID, hi: NodeID)
    requires lo <= n.id < hi
    ensures DynamicIn([n], lo, hi) == n.dynamicSize && StaticIn([n], lo, hi) == n.staticSize
  {
    assert [n][1..] == [];
  }

  // ----- progress

  /**
   * The state of the builder, as far as accounts are concerned: `excess` is by how many bytes sizes were clamped,
   * and `drift` by how many they were left too large when the size of another type was taken. `fit` says that the
   * types rule out drift.
   */
  datatype Snapshot = Snapshot(rest: nat, next: NodeID, excess: nat, drift: int, puts: seq<Node>, fit: bool)

  /** Words are only read, and IDs only allocated. */
  ghost predicate After(a: Snapshot, b: Snapshot)
  {
    && b.rest <= a.rest && a.next <= b.next && a.excess <= b.excess
    && a.fit == b.fit && (a.fit ==> a.drift == b.drift)
  }

  function Discrepancy(a: Snapshot, b: Snapshot): int
  {
    (b.excess - a.excess) + (b.drift - a.drift)
  }

  ghost predicate FilledBetween(node: Node, added: seq<Node>, a: Snapshot, b: Snapshot)
  {
    b.puts == a.puts + added && Filled(node, added, a.next, b.next, Discrepancy(a, b))
  }

  ghost predicate WholeBetween(node: Node, added: seq<Node>, a: Snapshot, b: Snapshot)
  {
    b.puts == a.puts + added && Whole(node, added, a.next, b.next, Discrepancy(a, b))
  }

  lemma LeafBetween(node: Node, a: Snapshot, b: Snapshot)
    requires b.puts == a.puts && b.next == a.next && node.children.None?
    requires node.exclusiveSize == node.staticSize + node.dynamicSize + Discrepancy(a, b)
    ensures FilledBetween(node, [], a, b)
  {
    LeafFilled(node, a.next);
    assert a.puts + [] == a.puts;
  }

  /** One child is processed from b to c, and the node's sizes are set at d. */
  lemma OneChildBetween(node: Node, child: Node, added: seq<Node>, a: Snapshot, b: Snapshot, c: Snapshot,
                        d: Snapshot, dynamicSize: nat)
    requires b == a.(rest := b.rest, next := a.next + 1) && b.rest <= a.rest && WholeBetween(child, added, b, c) && After(b, c)
    requires child.id == a.next && node.children == Some((a.next, a.next + 1))
    requires d == c.(excess := c.excess + Excess(node, dynamicSize, child.dynamicSize + child.staticSize))
    ensures FilledBetween(Sized(node, dynamicSize, child.dynamicSize + child.staticSize), added, a, d) && After(a, d)
  {
    hide Filled, Whole;
    OneChild(node, child, added, a.next, c.next, dynamicSize, Discrepancy(b, c));
  }

  /** Some of the children in a block have been processed between a and b. */
  ghost predicate PartlyBetween(done: nat, block: NodeID, count: nat, added: seq<Node>, sizes: nat, a: Snapshot,
                                b: Snapshot)
  {
    b.puts == a.puts + added && Partly(done, block, count, added, b.next, sizes, Discrepancy(a, b))
  }

  lemma BlockStartsBetween(count: nat, a: Snapshot, b: Snapshot)
    requires b == a.(next := a.next + count)
    ensures PartlyBetween(0, a.next, count, [], 0, a, b)
  {
    BlockStarts(a.next, count);
    assert a.puts + [] == a.puts;
  }

  lemma ChildAddedBetween(done: nat, block: NodeID, count: nat, added: seq<Node>, sizes: nat, a: Snapshot, b: Snapshot,
                          b': Snapshot, child: Node, more: seq<Node>, c: Snapshot)
    requires PartlyBetween(done, block, count, added, sizes, a, b) && done < count && After(a, b)
    requires b' == b.(rest := b'.rest) && WholeBetween(child, more, b', c) && After(b', c) && child.id == block + done
    ensures PartlyBetween(done + 1, block, count, added + more, sizes + (child.dynamicSize + child.staticSize), a, c)
  {
    hide Partly, Whole;
    ChildAdded(done, block, count, added, b.next, sizes, Discrepancy(a, b), child, more, c.next, Discrepancy(b', c));
    assert a.puts + (added + more) == (a.puts + added) + more;
  }

  lemma SizesAdded(added: seq<Node>, child: Node, more: seq<Node>, b: Snapshot, c: Snapshot, lo: NodeID, hi: NodeID)
    requires WholeBetween(child, more, b, c) && lo <= child.id < hi <= b.next
    ensures DynamicIn(added + more, lo, hi) == DynamicIn(added, lo, hi) + child.dynamicSize
    ensures StaticIn(added + more, lo, hi) == StaticIn(added, lo, hi) + child.staticSize
  {
    hide Whole, DynamicIn, StaticIn;
    SizesConcat(added, more, lo, hi);
    OneInBlock(child, more, b.next, c.next, lo, hi, Discrepancy(b, c));
  }

  lemma BlockFilledBetween(node: Node, count: nat, added: seq<Node>, a: Snapshot, b: Snapshot, c: Snapshot,
                           dynamicSize: nat, sizes: nat)
    requires PartlyBetween(count, a.next, count, added, sizes, a, b) && node.children == Some((a.next, a.next + count)) && After(a, b)
    requires c == b.(excess := b.excess + Excess(node, dynamicSize, sizes))
    ensures FilledBetween(Sized(node, dynamicSize, sizes), added, a, c)
  {
    hide Filled, Partly;
    BlockFilled(node, a.next, count, added, b.next, dynamicSize, sizes, Discrepancy(a, b));
  }

  lemma PutWhole(node: Node, added: seq<Node>, a: Snapshot, b: Snapshot)
    requires FilledBetween(node, added, a, b)
    ensures WholeBetween(node, added + [node], a, b.(puts := b.puts + [node]))
  {
    hide Filled, Whole;
    FilledIsWhole(node, added, a.next, b.next, Discrepancy(a, b));
    assert a.puts + (added + [node]) == (a.puts + added) + [node];
  }

  // ----- what the accounts mean

  lemma {:induction false} IdCount(ns: seq<Node>, i: nat)
    requires i < |ns|
    ensures ns[i].id in Ids(ns) && ns[i].id in Ids(ns[i..])
    decreases i
  {
    if i > 0 {
      IdCount(ns[1..], i - 1);
      assert ns[1..][i - 1..] == ns[i..];
    }
  }

  lemma {:induction false} NodeWithId(ns: seq<Node>, id: NodeID) returns (i: nat)
    requires id in Ids(ns)
    ensures i < |ns| && ns[i].id == id
    decreases |ns|
  {
    if ns[0].id == id {
      i := 0;
    } else {
      var k := NodeWithId(ns[1..], id);
      i := k + 1;
    }
  }

  ghost predicate HasNode(ns: seq<Node>, id: NodeID)
  {
    exists i :: 0 <= i < |ns| && ns[i].id == id
  }

  ghost predicate DistinctIds(ns: seq<Node>)
  {
    forall i, j :: 0 <= i < j < |ns| ==> ns[i].id != ns[j].id
  }

  /** Exactly the IDs of the range are used, each by one node only. */
  lemma IdsUsedOnce(ns: seq<Node>, n0: NodeID, n1: NodeID, id: NodeID)
    requires Ids(ns) == Range(n0, n1)
    ensures HasNode(ns, id) <==> n0 <= id < n1
    ensures DistinctIds(ns)
  {
    RangeCount(n0, n1, id);
    if id in Ids(ns) {
      var i := NodeWithId(ns, id);
    }
    if HasNode(ns, id) {
      var i :| 0 <= i < |ns| && ns[i].id == id;
      IdCount(ns, i);
    }
    forall i, j | 0 <= i < j < |ns|
      ensures ns[i].id != ns[j].id
    {
      TwoNodes(ns, i, j);
      RangeCount(n0, n1, ns[i].id);
    }
  }

  lemma TwoNodes(ns: seq<Node>, i: nat, j: nat)
    requires i < j < |ns|
    ensures ns[i].id == ns[j].id ==> Ids(ns)[ns[i].id] >= 2
  {
    var a, b := ns[..i], ns[i..];
    assert ns == a + b;
    AccountsConcat(a, b);
    IdCount(ns[i + 1..], j - i - 1);
    assert b[1..] == ns[i + 1..];
  }

  predicate IsChildOf(k: NodeID, n: Node)
  {
    n.children.Some? && n.children.value.0 <= k < n.children.value.1
  }

  lemma ChildCount(k: NodeID, n: Node)
    ensures ChildrenOf(n)[k] == if IsChildOf(k, n) then 1 else 0
  {
    if n.children.Some? {
      RangeCount(n.children.value.0, n.children.value.1, k);
    }
  }

  lemma {:induction false} KidCount(ns: seq<Node>, k: NodeID, i: nat)
    requires i < |ns| && IsChildOf(k, ns[i])
    ensures Kids(ns)[k] >= 1
    decreases i
  {
    ChildCount(k, ns[0]);
    if i > 0 {
      KidCount(ns[1..], k, i - 1);
    }
  }

  lemma {:induction false} ParentOf(ns: seq<Node>, k: NodeID) returns (i: nat)
    requires k in Kids(ns)
    ensures i < |ns| && IsChildOf(k, ns[i])
    decreases |ns|
  {
    ChildCount(k, ns[0]);
    if IsChildOf(k, ns[0]) {
      i := 0;
    } else {
      var j := ParentOf(ns[1..], k);
      i := j + 1;
    }
  }

  ghost predicate HasParent(ns: seq<Node>, k: NodeID)
  {
    exists i :: 0 <= i < |ns| && IsChildOf(k, ns[i])
  }

  ghost predicate OneParent(ns: seq<Node>, k: NodeID)
  {
    forall i, j :: 0 <= i < j < |ns| && IsChildOf(k, ns[i]) ==> !IsChildOf(k, ns[j])
  }

  /** Exactly the IDs of the range are children, each of one node only. */
  lemma ChildrenPartition(ns: seq<Node>, n0: NodeID, n1: NodeID, k: NodeID)
    requires Kids(ns) == Range(n0, n1)
    ensures HasParent(ns, k) <==> n0 <= k < n1
    ensures OneParent(ns, k)
  {
    RangeCount(n0, n1, k);
    if k in Kids(ns) {
      var i := ParentOf(ns, k);
    }
    if HasParent(ns, k) {
      var i :| 0 <= i < |ns| && IsChildOf(k, ns[i]);
      KidCount(ns, k, i);
    }
    forall i, j | 0 <= i < j < |ns| && IsChildOf(k, ns[i])
      ensures !IsChildOf(k, ns[j])
    {
      TwoParents(ns, i, j, k);
    }
  }

  lemma TwoParents(ns: seq<Node>, i: nat, j: nat, k: NodeID)
    requires i < j < |ns| && IsChildOf(k, ns[i])
    ensures IsChildOf(k, ns[j]) ==> Kids(ns)[k] >= 2
  {
    if IsChildOf(k, ns[j]) {
      var a, b := ns[..i], ns[i..];
      assert ns == a + b;
      AccountsConcat(a, b);
      ChildCount(k, b[0]);
      assert b[1..][j - i - 1] == ns[j];
      KidCount(b[1..], k, j - i - 1);
    }
  }

  /** Nodes with different IDs are all found in the store. */
  lemma {:induction false} StoredFinds(ns: seq<Node>, i: nat)
    requires i < |ns| && DistinctIds(ns)
    ensures ns[i].id in Stored(ns) && Stored(ns)[ns[i].id] == ns[i]
    decreases |ns|
  {
    if i < |ns| - 1 {
      StoredFinds(ns[..|ns| - 1], i);
    }
  }
}
