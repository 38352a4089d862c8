/**
 The objects that oi/TreeBuilder.cpp is told about, as values: what the generated functions store for them (types/ and
 oi/CodeGen.cpp), and the tree of nodes that should be built. The builder gives back that tree.
 */
module TreeValues {
  import opened Machine
  import opened TreeModel
  import opened TreeDecoding

  // ----- containers

  /** A container, apart from its elements. */
  datatype Contents =
    | Wordless
    | Halves
    | Maybe(present: bool)
    | MaybeAt(address: U64)
    | Fixed(length: U64)
    | Alternative(index: U64)
    | Opaque(bytes: U64)
    | Owner(address: U64, tag: U64)
    | Adapter(address: U64)
    | Buffers(capacity: U64, length: U64)
    | Queue(address: U64, buffers: Option<(U64, U64)>)
    | Vector(address: U64, capacity: U64, length: U64)
    | Linked(address: U64, length: U64)
    | Counted(length: U64)
    | Nodes(nodeSize: U64, length: U64)
    | Buckets(nodeSize: U64, bucketCount: U64, length: U64)
    | Measured(memory: U64, capacity: U64, length: U64)
    | SharedChars(address: U64, capacity: U64, length: U64, counted: bool)
    | Chars(capacity: U64, length: U64)
    | Small(inlineMax: U64, capacity: U64, length: U64)

  /** Which kinds of containers are described in which way. */
  predicate Describes(k: Contents, kind: ContainerKind)
  {
    match k
    case Wordless => kind in {WeakPtr, ThriftIsset, Dummy}
    case Halves => kind == PairType
    case Maybe(_) => kind == OptionalType
    case MaybeAt(_) => kind == FollyOptional
    case Fixed(_) => kind == ArrayType
    case Alternative(_) => kind == StdVariant
    case Opaque(_) => kind == Caffe2Blob
    case Owner(address, tag) => kind in {TryType, RefWrapper} || (kind in {ShrdPtr, UniqPtr} && (tag != 0 ==> address != 0))
    case Adapter(_) => kind in {SortedVecSet, ContainerAdapter}
    case Buffers(_, _) => kind == FollyIOBuf
    case Queue(_, _) => kind == FollyIOBufQueue
    case Vector(_, _, _) =>
      kind in {SeqType, MicroList, FeedQuickHashSet, FeedQuickHashMap, FbHashMap, FbHashSet, MapSeq, FollySmallHeapVectorMap, RepeatedField}
    case Linked(_, _) => kind == ListType
    case Counted(_) => kind in {BoostBimap, RadixTree, MultiSet, MultiMap, ByMultiQrt}
    case Nodes(_, _) => kind in {SetType, StdMap}
    case Buckets(_, _, _) => kind in {UnorderedSet, UnorderedMultiset, StdUnorderedMultimap, StdUnorderedMap}
    case Measured(_, _, _) => kind in {F14Map, F14Set}
    case SharedChars(_, _, _, _) => kind == FbString
    case Chars(_, _) => kind == StringType
    case Small(_, _, _) => kind == SmallVec
  }

  /** The words that are stored before the elements. */
  function WordsIn(k: Contents): seq<U64>
  {
    match k
    case Wordless => []
    case Halves => []
    case Maybe(present) => [if present then 1 else 0]
    case MaybeAt(address) => [address]
    case Fixed(length) => [length]
    case Alternative(index) => [index]
    case Opaque(bytes) => [bytes]
    case Owner(address, tag) => [address, tag]
    case Adapter(address) => [address]
    case Buffers(capacity, length) => [capacity, length]
    case Queue(address, None) => [address, 0]
    case Queue(address, Some((capacity, length))) => [address, 1, capacity, length]
    case Vector(address, capacity, length) => [address, capacity, length]
    case Linked(address, length) => [address, length]
    case Counted(length) => [length]
    case Nodes(nodeSize, length) => [nodeSize, length]
    case Buckets(nodeSize, bucketCount, length) => [nodeSize, bucketCount, length]
    case Measured(memory, capacity, length) => [memory, capacity, length]
    case SharedChars(address, capacity, length, counted) => [address, capacity, length, if counted then 1 else 0]
    case Chars(capacity, length) => [capacity, length]
    case Small(inlineMax, capacity, length) => [inlineMax, capacity, length]
  }

  /** Only strings of 255 characters or more can be shared. */
  function PointerIn(k: Contents): Option<U64>
  {
    match k
    case MaybeAt(address) => Some(address)
    case Owner(address, _) => Some(address)
    case Adapter(address) => Some(address)
    case Queue(address, _) => Some(address)
    case Vector(address, _, _) => Some(address)
    case Linked(address, _) => Some(address)
    case SharedChars(address, capacity, _, _) => if capacity < 255 then None else Some(address)
    case _ => None
  }

  function LengthIn(k: Contents, kind: ContainerKind): nat
  {
    match k
    case Wordless => 0
    case Halves => 1
    case Maybe(present) => if present then 1 else 0
    case MaybeAt(address) => if address != 0 then 1 else 0
    case Alternative(_) => 1
    case Opaque(_) => 0
    case Owner(address, _) => if kind in {TryType, RefWrapper} || address != 0 then 1 else 0
    case Adapter(_) => 0
    case Queue(_, buffers) => if buffers.Some? then buffers.value.1 else 0
    case _ => k.length
  }

  /** What has no capacity of its own has room for just what it holds. */
  function CapacityIn(k: Contents): nat
  {
    match k
    case Halves => 1
    case Maybe(_) => 1
    case MaybeAt(_) => 1
    case Alternative(_) => 1
    case Owner(_, _) => 1
    case Wordless => 0
    case Opaque(_) => 0
    case Adapter(_) => 0
    case Queue(_, buffers) => if buffers.Some? then buffers.value.0 else 0
    case Buffers(capacity, _) => capacity
    case Vector(_, capacity, _) => capacity
    case Measured(_, capacity, _) => capacity
    case SharedChars(_, capacity, _, _) => capacity
    case Chars(capacity, _) => capacity
    case Small(_, capacity, _) => capacity
    case _ => k.length
  }

  /** The memory for one element, with that of its node. */
  function ElementBytes(k: Contents, kind: ContainerKind, sizes: seq<nat>): nat
  {
    match k
    case Wordless => if kind == WeakPtr then Sum(sizes) else 0
    case Alternative(_) => Largest(sizes)
    case Nodes(nodeSize, _) => Sum(sizes) + nodeSize
    case Buckets(nodeSize, _, _) => Sum(sizes) + nodeSize
    case _ => Sum(sizes)
  }

  /** The memory outside the container, apart from what the elements own. */
  function BytesIn(k: Contents, kind: ContainerKind, sizes: seq<nat>, staticSize: nat): nat
  {
    var e := ElementBytes(k, kind, sizes);
    match k
    case Wordless => 0
    case Halves => 0
    case Maybe(_) => 0
    case MaybeAt(_) => 0
    case Fixed(_) => 0
    case Alternative(_) => 0
    case Adapter(_) => 0
    case Opaque(bytes) => bytes
    case Owner(_, tag) => if tag != 0 then e else 0
    case Measured(memory, _, _) => memory
    case Buckets(_, bucketCount, length) => 8 * bucketCount + e * length
    case SharedChars(_, capacity, _, counted) => if counted then e * capacity else 0
    case Chars(capacity, _) => if capacity <= (if staticSize == 24 then 22 else 15) then 0 else e * capacity
    case Small(inlineMax, capacity, _) =>
      if capacity == 0 || (inlineMax != 0 && e != 0 && (capacity <= inlineMax || capacity * e <= 8)) then 0 else e * capacity
    case _ => e * CapacityIn(k)
  }

  /** Contents that are told without any elements to follow, and without a check of their size. */
  predicate Brief(k: Contents)
  {
    match k
    case Maybe(present) => !present
    case MaybeAt(address) => address == 0
    case Owner(_, tag) => tag == 0
    case Queue(_, buffers) => buffers.None?
    case Opaque(_) => true
    case _ => false
  }

  /** How many elements are stored after a container's own words. */
  function ElementCount(k: Contents, kind: ContainerKind): nat
  {
    if Brief(k) then 0 else LengthIn(k, kind)
  }

  /** Whatever the builder can make sense of. */
  ghost predicate Held(k: Contents, kind: ContainerKind, sizes: seq<nat>)
  {
    && Describes(k, kind) && (k.Adapter? ==> sizes != []) && (k.Small? && k.inlineMax != 0 ==> Sum(sizes) != 0)
  }

  function StatsIn(k: Contents, kind: ContainerKind, sizes: seq<nat>): Stats
  {
    Stats(LengthIn(k, kind), CapacityIn(k), ElementBytes(k, kind, sizes))
  }

  /** What the words of a container say. */
  ghost predicate Says(h: Header, k: Contents, kind: ContainerKind, sizes: seq<nat>, staticSize: nat)
  {
    && !h.Failed? && h.words == |WordsIn(k)| && h.pointer == PointerIn(k) && h.stats == StatsIn(k, kind, sizes)
    && (h.Complete? <==> Brief(k) || (k.Alternative? && k.index >= |sizes|))
    && (h.One? <==> k.Adapter? || (k.Alternative? && k.index < |sizes|))
    && (h.One? ==> h.index == (if k.Adapter? then 0 else k.index) && (h.adapts <==> k.Adapter?))
    && (h.Complete? ==> h.dynamicSize == BytesIn(k, kind, sizes, staticSize))
    && (h.All? ==> h.dynamicSize + (if h.storedInline then 0 else h.stats.elementStaticSize * h.stats.capacity) ==
                   BytesIn(k, kind, sizes, staticSize))
  }

  lemma EightFits(e: nat, capacity: nat)
    requires e != 0
    ensures capacity <= 8 / e <==> capacity * e <= 8
  {
    if e > 8 {
      if capacity > 0 {
        MulMono(1, capacity, e);
      }
    } else {
      assert e in {1, 2, 3, 4, 5, 6, 7, 8};
    }
  }

  lemma SmallFits(e: nat, inlineMax: nat, capacity: nat)
    requires inlineMax != 0 && e != 0
    ensures capacity <= Max(8 / e, inlineMax) <==> capacity <= inlineMax || capacity * e <= 8
  {
    EightFits(e, capacity);
  }

  /** The words that the data starts with. */
  ghost predicate Starts(d: seq<U64>, w: seq<U64>)
  {
    && |w| <= |d| && (|w| > 0 ==> d[0] == w[0]) && (|w| > 1 ==> d[1] == w[1]) && (|w| > 2 ==> d[2] == w[2])
    && (|w| > 3 ==> d[3] == w[3])
  }

  lemma WordlessSays(k: Contents, kind: ContainerKind, sizes: seq<nat>, staticSize: nat, d: seq<U64>)
    requires (k.Wordless? || k.Halves?) && Held(k, kind, sizes) && Starts(d, WordsIn(k))
    ensures Says(InlineHeader(kind, sizes, Sum(sizes), d), k, kind, sizes, staticSize)
  {
    hide Sum, Largest;
  }

  lemma MaybeSays(k: Contents, kind: ContainerKind, sizes: seq<nat>, staticSize: nat, d: seq<U64>)
    requires (k.Maybe? || k.MaybeAt?) && Held(k, kind, sizes) && Starts(d, WordsIn(k))
    ensures Says(InlineHeader(kind, sizes, Sum(sizes), d), k, kind, sizes, staticSize)
  {
    hide Sum, Largest;
  }

  lemma FixedSays(k: Contents, kind: ContainerKind, sizes: seq<nat>, staticSize: nat, d: seq<U64>)
    requires (k.Fixed? || k.Opaque?) && Held(k, kind, sizes) && Starts(d, WordsIn(k))
    ensures Says(InlineHeader(kind, sizes, Sum(sizes), d), k, kind, sizes, staticSize)
  {
    hide Sum, Largest;
  }

  lemma AlternativeSays(k: Contents, kind: ContainerKind, sizes: seq<nat>, staticSize: nat, d: seq<U64>)
    requires k.Alternative? && Held(k, kind, sizes) && Starts(d, WordsIn(k))
    ensures Says(InlineHeader(kind, sizes, Sum(sizes), d), k, kind, sizes, staticSize)
  {
    hide Sum, Largest;
  }

  lemma InlineSays(k: Contents, kind: ContainerKind, sizes: seq<nat>, staticSize: nat, d: seq<U64>)
    requires IsInline(kind) && Held(k, kind, sizes) && Starts(d, WordsIn(k))
    ensures Says(InlineHeader(kind, sizes, Sum(sizes), d), k, kind, sizes, staticSize)
  {
    hide Sum, Largest, Says, InlineHeader;
    if k.Wordless? || k.Halves? {
      WordlessSays(k, kind, sizes, staticSize, d);
    } else if k.Maybe? || k.MaybeAt? {
      MaybeSays(k, kind, sizes, staticSize, d);
    } else if k.Alternative? {
      AlternativeSays(k, kind, sizes, staticSize, d);
    } else {
      FixedSays(k, kind, sizes, staticSize, d);
    }
  }

  lemma PointerSays(k: Contents, kind: ContainerKind, sizes: seq<nat>, staticSize: nat, d: seq<U64>)
    requires Held(k, kind, sizes) && IsPointer(kind) && Starts(d, WordsIn(k))
    ensures Says(PointerHeader(kind, sizes, Sum(sizes), d), k, kind, sizes, staticSize)
  {
    hide Sum, Largest;
    match k
    case Owner(_, _) =>
    case Adapter(_) =>
  }

  lemma BufferSays(k: Contents, kind: ContainerKind, sizes: seq<nat>, staticSize: nat, d: seq<U64>)
    requires Held(k, kind, sizes) && IsBuffer(kind) && Starts(d, WordsIn(k))
    ensures Says(BufferHeader(kind, Sum(sizes), d), k, kind, sizes, staticSize)
  {
    hide Sum, Largest;
  }

  lemma NodesSay(k: Contents, kind: ContainerKind, sizes: seq<nat>, staticSize: nat, d: seq<U64>)
    requires Held(k, kind, sizes) && HasNodes(kind) && Starts(d, WordsIn(k))
    ensures Says(NodesHeader(kind, Sum(sizes), d), k, kind, sizes, staticSize)
  {
    hide Sum, Largest, Says;
    match k
    case Nodes(_, _) => TreeSays(k, kind, sizes, staticSize, d);
    case Buckets(_, _, _) => BucketsSay(k, kind, sizes, staticSize, d);
    case Measured(_, _, _) => MeasuredSays(k, kind, sizes, staticSize, d);
  }

  lemma TreeSays(k: Contents, kind: ContainerKind, sizes: seq<nat>, staticSize: nat, d: seq<U64>)
    requires k.Nodes? && Held(k, kind, sizes) && Starts(d, WordsIn(k))
    ensures Says(NodesHeader(kind, Sum(sizes), d), k, kind, sizes, staticSize)
  {
    hide Sum, Largest;
  }

  lemma BucketsSay(k: Contents, kind: ContainerKind, sizes: seq<nat>, staticSize: nat, d: seq<U64>)
    requires k.Buckets? && Held(k, kind, sizes) && Starts(d, WordsIn(k))
    ensures Says(NodesHeader(kind, Sum(sizes), d), k, kind, sizes, staticSize)
  {
    hide Sum, Largest;
  }

  lemma MeasuredSays(k: Contents, kind: ContainerKind, sizes: seq<nat>, staticSize: nat, d: seq<U64>)
    requires k.Measured? && Held(k, kind, sizes) && Starts(d, WordsIn(k))
    ensures Says(NodesHeader(kind, Sum(sizes), d), k, kind, sizes, staticSize)
  {
    hide Sum, Largest;
  }

  lemma SmallSays(k: Contents, kind: ContainerKind, sizes: seq<nat>, staticSize: nat, d: seq<U64>)
    requires Held(k, kind, sizes) && IsSmall(kind) && Starts(d, WordsIn(k))
    ensures Says(SmallHeader(kind, staticSize, Sum(sizes), d), k, kind, sizes, staticSize)
  {
    hide Sum, Largest;
    match k
    case SharedChars(_, _, _, _) =>
    case Chars(_, _) =>
    case Small(inlineMax, capacity, _) =>
      if inlineMax != 0 {
        SmallFits(Sum(sizes), inlineMax, capacity);
      }
  }

  lemma ElementsSay(k: Contents, kind: ContainerKind, sizes: seq<nat>, staticSize: nat, d: seq<U64>)
    requires Held(k, kind, sizes) && (k.Vector? || k.Linked? || k.Counted?) && Starts(d, WordsIn(k))
    ensures Says(ElementsHeader(kind, Sum(sizes), d), k, kind, sizes, staticSize)
  {
    hide Sum, Largest;
    var e := Sum(sizes);
    match k
    case Vector(address, capacity, length) =>
      assert ElementsHeader(kind, e, d) == All(3, Some(address), Stats(length, capacity, e), 0, false);
    case Linked(address, length) =>
      assert ElementsHeader(kind, e, d) == All(2, Some(address), Stats(length, length, e), 0, false);
    case Counted(length) =>
      assert ElementsHeader(kind, e, d) == All(1, None, Stats(length, length, e), 0, false);
  }

  lemma StartsWith(w: seq<U64>, rest: seq<U64>)
    ensures Starts(w + rest, w) && (w + rest)[|w|..] == rest
  {
  }

  lemma Grouped(k: Contents, kind: ContainerKind)
    requires Describes(k, kind)
    ensures kind != Unknown && kind != EnumMap
    ensures IsInline(kind) || IsPointer(kind) || IsBuffer(kind) || HasNodes(kind) || IsSmall(kind) || k.Vector? || k.Linked? || k.Counted?
  {
  }

  /** The sizes of several types are added up, and the largest of them is one of them. */
  lemma {:induction false} SizesAddUp(sizes: seq<nat>, more: seq<nat>)
    ensures Sum(sizes + more) == Sum(sizes) + Sum(more) && forall n: nat :: Sum([n]) == n
    ensures forall i :: 0 <= i < |sizes| ==> sizes[i] <= Largest(sizes)
    ensures sizes != [] ==> Largest(sizes) in sizes
    decreases |sizes|
  {
    if sizes == [] {
      assert sizes + more == more;
    } else {
      assert (sizes + more)[1..] == sizes[1..] + more;
      SizesAddUp(sizes[1..], more);
      assert forall i :: 0 < i < |sizes| ==> sizes[i] == sizes[1..][i - 1];
      if sizes[1..] == [] {
        assert Largest(sizes[1..]) == 0;
      }
    }
    forall n: nat
      ensures Sum([n]) == n
    {
      assert [n][1..] == [];
    }
  }

  /** For every kind of container, the words that are stored for it say what it is. */
  lemma WordsSay(k: Contents, kind: ContainerKind, sizes: seq<nat>, staticSize: nat, rest: seq<U64>)
    requires Held(k, kind, sizes)
    ensures Says(HeaderOf(kind, sizes, staticSize, WordsIn(k) + rest), k, kind, sizes, staticSize)
  {
    hide Says, WordsIn, InlineHeader, PointerHeader, BufferHeader, NodesHeader, SmallHeader, ElementsHeader, Describes, Starts;
    hide IsInline, IsPointer, IsBuffer, HasNodes, IsSmall, Sum;
    var d := WordsIn(k) + rest;
    StartsWith(WordsIn(k), rest);
    Grouped(k, kind);
    if IsInline(kind) {
      InlineSays(k, kind, sizes, staticSize, d);
    } else if IsPointer(kind) {
      PointerSays(k, kind, sizes, staticSize, d);
    } else if IsBuffer(kind) {
      BufferSays(k, kind, sizes, staticSize, d);
    } else if HasNodes(kind) {
      NodesSay(k, kind, sizes, staticSize, d);
    } else if IsSmall(kind) {
      SmallSays(k, kind, sizes, staticSize, d);
    } else {
      ElementsSay(k, kind, sizes, staticSize, d);
    }
  }
}
