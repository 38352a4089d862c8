/** The recursive decoder of oi/TreeBuilder.cpp: from words in the data segment to a store of sized nodes. */
module TreeBuilding {
  import opened Machine
  import opened TreeModel
  import opened TreeDecoding
  import V = TreeValues
  import O = TreeRoundTrip

  /** The words from an index on; there are none past the end. */
  function From(data: seq<U64>, index: nat): (r: seq<U64>)
    ensures |r| == if index <= |data| then |data| - index else 0
  {
    if index <= |data| then data[index..] else []
  }

  /** The first few words. */
  lemma FromWords(data: seq<U64>, index: nat)
    ensures var r := From(data, index);
            && (|r| > 0 ==> r[0] == data[index]) && (|r| > 1 ==> r[1] == data[index + 1])
            && (|r| > 2 ==> r[2] == data[index + 2]) && (|r| > 3 ==> r[3] == data[index + 3])
  {
  }

  /** What is left when some words have been read. */
  lemma FromSkip(data: seq<U64>, index: nat, words: nat)
    requires words <= |From(data, index)|
    ensures From(data, index + words) == From(data, index)[words..]
  {
  }

  class TreeBuilder {
    const config: Config
    var th: Hierarchy
    var oidData: seq<U64>
    var oidDataIndex: nat
    var nextNodeID: NodeID
    var rootIDs: seq<NodeID>
    var db: map<NodeID, Node>

    /**
     * The nodes that were put in the store, in order; by how many bytes sizes were clamped, and by how many they were
     * left too large for the type that was selected.
     */
    ghost var puts: seq<Node>
    ghost var excess: nat
    ghost var drift: int

    constructor (config: Config, th: Hierarchy)
      ensures this.config == config && nextNodeID == FIRST_NODE_ID && rootIDs == [] && db == map[] && puts == []
    {
      this.config, this.th := config, th;
      oidData, oidDataIndex, nextNodeID, rootIDs, db := [], FIRST_DATA_INDEX, FIRST_NODE_ID, [], map[];
      puts, excess, drift := [], 0, 0;
    }

    function Rest(): seq<U64>
      reads this
    {
      From(oidData, oidDataIndex)
    }

    /** `next`; none at the end of the data. */
    method Next() returns (word: Option<U64>)
      modifies this`oidDataIndex
      ensures word == if old(oidDataIndex) < |oidData| then Some(oidData[old(oidDataIndex)]) else None
      ensures oidDataIndex == old(oidDataIndex) + if word.Some? then 1 else 0
    {
      if oidDataIndex >= |oidData| {
        return None;
      }
      word := Some(oidData[oidDataIndex]);
      oidDataIndex := oidDataIndex + 1;
    }

    /** The words of containers whose contents are stored inline, or that have none. */
    method ReadInline(kind: ContainerKind, sizes: seq<nat>, e: nat) returns (h: Header)
      requires IsInline(kind)
      modifies this`oidDataIndex
      ensures h == InlineHeader(kind, sizes, e, old(Rest()))
      ensures oidDataIndex >= old(oidDataIndex) && (!h.Failed? ==> oidDataIndex == old(oidDataIndex) + h.words)
    {
      hide From;
      FromWords(oidData, oidDataIndex);
      if kind == WeakPtr {
        return All(0, None, Stats(0, 0, e), 0, false);
      }
      if kind == PairType {
        return All(0, None, Stats(1, 1, e), 0, true);
      }
      if kind == ThriftIsset || kind == Dummy {
        return All(0, None, Stats(0, 0, 0), 0, false);
      }
      var largest := 0;
      if kind == StdVariant {
        largest := LargestOf(sizes);
      }
      var word := Next();
      if word.None? {
        return Failed(EndOfData);
      }
      if kind == OptionalType {
        h := if word.value == 0 then Complete(1, None, Stats(0, 1, e), 0) else All(1, None, Stats(1, 1, e), 0, true);
      } else if kind == FollyOptional {
        h := if word.value == 0 then Complete(1, word, Stats(0, 1, e), 0) else All(1, word, Stats(1, 1, e), 0, true);
      } else if kind == ArrayType {
        h := All(1, None, Stats(word.value, word.value, e), 0, true);
      } else if kind == StdVariant {
        h := if word.value < |sizes| then One(1, None, Stats(1, 1, largest), word.value, false)
             else Complete(1, None, Stats(1, 1, largest), 0);
      } else {
        h := Complete(1, None, Stats(0, 0, e), word.value);
      }
    }

    method LargestOf(sizes: seq<nat>) returns (largest: nat)
      ensures largest == Largest(sizes)
    {
      largest := 0;
      for i := 0 to |sizes|
        invariant Largest(sizes) == Max(largest, Largest(sizes[i..]))
      {
        assert sizes[i..][0] == sizes[i] && sizes[i..][1..] == sizes[i + 1..];
        largest := Max(largest, sizes[i]);
      }
    }

    /** The words of pointers and of adapters of other containers. */
    method ReadPointer(kind: ContainerKind, sizes: seq<nat>, e: nat) returns (h: Header)
      requires IsPointer(kind)
      modifies this`oidDataIndex
      ensures h == PointerHeader(kind, sizes, e, old(Rest()))
      ensures oidDataIndex >= old(oidDataIndex) && (!h.Failed? ==> oidDataIndex == old(oidDataIndex) + h.words)
    {
      hide From;
      FromWords(oidData, oidDataIndex);
      var pointer := Next();
      if kind == SortedVecSet || kind == ContainerAdapter {
        if pointer.None? {
          return Failed(EndOfData);
        }
        if sizes == [] {
          return Failed(Undefined);
        }
        h := One(1, pointer, Stats(0, 0, e), 0, true);
      } else {
        var tag := Next();
        if tag.None? {
          return Failed(EndOfData);
        }
        var length := if kind == TryType || kind == RefWrapper || pointer.value != 0 then 1 else 0;
        h := if tag.value == SKIPPED then Complete(2, pointer, Stats(length, 1, e), 0)
             else All(2, pointer, Stats(length, 1, e), 0, false);
      }
    }

    /** The words of buffers; a queue of buffers comes first with a pointer to them. */
    method ReadBuffer(kind: ContainerKind, e: nat) returns (h: Header)
      requires IsBuffer(kind)
      modifies this`oidDataIndex
      ensures h == BufferHeader(kind, e, old(Rest()))
      ensures oidDataIndex >= old(oidDataIndex) && (!h.Failed? ==> oidDataIndex == old(oidDataIndex) + h.words)
    {
      hide From;
      FromWords(oidData, oidDataIndex);
      var words, pointer := 2, None;
      if kind == FollyIOBufQueue {
        pointer := Next();
        var tag := Next();
        if tag.None? {
          return Failed(EndOfData);
        }
        if tag.value == SKIPPED {
          return Complete(2, pointer, Stats(0, 0, e), 0);
        }
        words := 4;
      }
      var capacity := Next();
      var length := Next();
      if length.None? {
        return Failed(EndOfData);
      }
      h := All(words, pointer, Stats(length.value, capacity.value, e), 0, false);
    }

    /** The words of containers that keep a number of elements elsewhere. */
    method ReadElements(kind: ContainerKind, e: nat) returns (h: Header)
      modifies this`oidDataIndex
      ensures h == ElementsHeader(kind, e, old(Rest()))
      ensures oidDataIndex >= old(oidDataIndex) && (!h.Failed? ==> oidDataIndex == old(oidDataIndex) + h.words)
    {
      hide From;
      FromWords(oidData, oidDataIndex);
      if OnlyLength(kind) {
        var length := Next();
        if length.None? {
          return Failed(EndOfData);
        }
        return All(1, None, Stats(length.value, length.value, e), 0, false);
      }
      var pointer := Next();
      if kind == ListType {
        var length := Next();
        if length.None? {
          return Failed(EndOfData);
        }
        return All(2, pointer, Stats(length.value, length.value, e), 0, false);
      }
      var capacity := Next();
      var length := Next();
      if length.None? {
        return Failed(EndOfData);
      }
      h := All(3, pointer, Stats(length.value, capacity.value, e), 0, false);
    }

    /** The words of containers with some memory for each node, each bucket or in all. */
    method ReadNodes(kind: ContainerKind, e: nat) returns (h: Header)
      modifies this`oidDataIndex
      ensures h == NodesHeader(kind, e, old(Rest()))
      ensures oidDataIndex >= old(oidDataIndex) && (!h.Failed? ==> oidDataIndex == old(oidDataIndex) + h.words)
    {
      hide From;
      FromWords(oidData, oidDataIndex);
      var first := Next();
      var second := Next();
      if kind == SetType || kind == StdMap {
        if second.None? {
          return Failed(EndOfData);
        }
        return All(2, None, Stats(second.value, second.value, e + first.value), 0, false);
      }
      var length := Next();
      if length.None? {
        return Failed(EndOfData);
      }
      if kind == F14Map || kind == F14Set {
        return All(3, None, Stats(length.value, second.value, e), first.value, true);
      }
      var bucketCount: nat := second.value;
      h := All(3, None, Stats(length.value, length.value, e + first.value), bucketCount * 8, false);
    }

    /** The words of strings and small vectors, whose contents may be stored inline. */
    method ReadSmall(kind: ContainerKind, staticSize: nat, e: nat) returns (h: Header)
      requires IsSmall(kind)
      modifies this`oidDataIndex
      ensures h == SmallHeader(kind, staticSize, e, old(Rest()))
      ensures oidDataIndex >= old(oidDataIndex) && (!h.Failed? ==> oidDataIndex == old(oidDataIndex) + h.words)
    {
      hide From;
      FromWords(oidData, oidDataIndex);
      if kind == FbString {
        var pointer := Next();
        var capacity := Next();
        var length := Next();
        var shared := Next();
        if shared.None? {
          return Failed(EndOfData);
        }
        var contentsStoredInline := shared.value == 0;
        if capacity.value < 255 {
          pointer := None;
        }
        return All(4, pointer, Stats(length.value, capacity.value, e), 0, contentsStoredInline);
      }
      var maxInline: nat := if staticSize == 24 then 22 else 15;
      var words := 2;
      if kind == SmallVec {
        var requestedMaxInline := Next();
        if requestedMaxInline.None? {
          return Failed(EndOfData);
        }
        if requestedMaxInline.value != 0 && e == 0 {
          return Failed(Undefined);
        }
        maxInline := if requestedMaxInline.value == 0 then 0 else Max(8 / e, requestedMaxInline.value);
        words := 3;
      }
      var capacity := Next();
      var length := Next();
      if length.None? {
        return Failed(EndOfData);
      }
      h := All(words, None, Stats(length.value, capacity.value, e), 0, capacity.value <= maxInline);
    }

    /** The switch of `processContainer`. */
    method ReadHeader(kind: ContainerKind, sizes: seq<nat>, staticSize: nat) returns (h: Header)
      modifies this`oidDataIndex
      ensures h == HeaderOf(kind, sizes, staticSize, old(Rest()))
      ensures oidDataIndex >= old(oidDataIndex) && (!h.Failed? ==> oidDataIndex == old(oidDataIndex) + h.words)
      ensures SaysContents(h, kind, sizes, staticSize, old(Rest()))
    {
      hide InlineHeader, PointerHeader, BufferHeader, ElementsHeader, NodesHeader, SmallHeader, From, HeaderOf, SaysContents;
      HeaderSays(kind, sizes, staticSize, Rest());
      HeaderGroups(kind, sizes, staticSize, Rest());
      var e := Sum(sizes);
      if kind == Unknown || kind == EnumMap {
        h := Failed(UnknownContainer);
      } else if IsInline(kind) {
        h := ReadInline(kind, sizes, e);
      } else if IsPointer(kind) {
        h := ReadPointer(kind, sizes, e);
      } else if IsBuffer(kind) {
        h := ReadBuffer(kind, e);
      } else if HasNodes(kind) {
        h := ReadNodes(kind, e);
      } else if IsSmall(kind) {
        h := ReadSmall(kind, staticSize, e);
      } else {
        h := ReadElements(kind, e);
      }
    }

    // ----- nodes

    ghost function Now(): Snapshot
      reads this
    {
      Snapshot(|Rest()|, nextNodeID, excess, drift, puts, DescendantsFit(config, th))
    }

    method SetSize(node: Node, dynamicSize: nat, memberSizes: nat) returns (r: Node)
      modifies this`excess
      ensures r == Sized(node, dynamicSize, memberSizes) && r.id == node.id
      ensures Now() == old(Now()).(excess := old(excess) + Excess(node, dynamicSize, memberSizes))
    {
      r := node.(dynamicSize := dynamicSize);
      if memberSizes > r.staticSize + r.dynamicSize {
        excess := excess + (memberSizes - (r.staticSize + r.dynamicSize));
        r := r.(exclusiveSize := 0);
      } else {
        r := r.(exclusiveSize := r.staticSize + r.dynamicSize - memberSizes);
      }
    }

    /** What has been done is what a decoding function says. */
    ghost predicate Gives(x: Result<Decoded>, r: Result<Node>, added: seq<Node>)
      reads this
    {
      match x
      case Err(e) => r == Err(e)
      case Ok(y) => r == Ok(y.node) && added == y.below && Rest() == y.rest && nextNodeID == y.next
    }

    /** The same, with the node itself put in the store after those below it. */
    ghost predicate GivesWhole(x: Result<Decoded>, r: Result<Node>, added: seq<Node>)
      reads this
    {
      match x
      case Err(e) => r == Err(e)
      case Ok(y) => r == Ok(y.node) && added == y.below + [y.node] && Rest() == y.rest && nextNodeID == y.next
    }

    ghost predicate GivesBlock(x: Result<Block>, r: Result<(nat, nat)>, added: seq<Node>)
      reads this
    {
      match x
      case Err(e) => r == Err(e)
      case Ok(b) => r == Ok((b.dynamics, b.sizes)) && added == b.nodes && Rest() == b.rest && nextNodeID == b.next
    }

    /** A node that has just been given its own size only. */
    ghost predicate Fresh(node: Node)
    {
      node.children.None? && node.dynamicSize == 0 && node.exclusiveSize == node.staticSize
    }

    /** `process`; the nodes that it puts in the store are `added`. */
    method Process(id: NodeID, variable: Variable, ghost rank: Ty -> nat)
      returns (r: Result<Node>, ghost added: seq<Node>)
      requires Ranked(th, rank) && db == Stored(puts)
      modifies this`oidDataIndex, this`nextNodeID, this`db, this`puts, this`excess, this`drift
      ensures After(old(Now()), Now()) && db == Stored(puts)
      ensures r.Ok? ==> r.value.id == id && WholeBetween(r.value, added, old(Now()), Now())
      ensures r.Ok? ==> added != [] && NodeReads(config, th, rank, variable, old(Rest()), old(nextNodeID), id, r.value, added[..|added| - 1])
      ensures r.Ok? ==> added != [] && added[|added| - 1] == r.value && OfType(th, variable.ty, r.value)
      ensures GivesWhole(Decode(config, th, rank, variable, id, old(Rest()), old(nextNodeID)), r, added)
      decreases |Rest()|, rank(variable.ty), 9
    {
      hide DecodeFill, Ranked, DescendantsFit, FilledBetween, WholeBetween, Stored, FillReads, From, OfType;
      added := [];
      ghost var a := Now();
      var size := th.size(variable.ty);
      if size.None? {
        return Err(NoSize), added;
      }
      var node := Node(id, size.value, 0, 0, None, None, None, variable.isset, false, variable.ty);
      node := SetSize(node, 0, 0);
      r, added := Fill(node, variable, rank);
      if r.Ok? {
        PutWhole(r.value, added, a, Now());
        StoredMore(puts, r.value);
        db := db[id := r.value];
        puts := puts + [r.value];
        ghost var below := added;
        added := added + [r.value];
        assert added[..|added| - 1] == below;
        ReadsType(config, th, rank, variable, old(Rest()), old(nextNodeID), node, r.value, below);
      }
    }

    /** The part of `process` that depends on the kind of type. */
    method Fill(node0: Node, variable: Variable, ghost rank: Ty -> nat)
      returns (r: Result<Node>, ghost added: seq<Node>)
      requires Ranked(th, rank) && db == Stored(puts) && Fresh(node0) && th.size(variable.ty) == Some(node0.staticSize)
      modifies this`oidDataIndex, this`nextNodeID, this`db, this`puts, this`excess, this`drift
      ensures After(old(Now()), Now()) && db == Stored(puts)
      ensures r.Ok? ==> r.value.id == node0.id && FilledBetween(r.value, added, old(Now()), Now())
      ensures r.Ok? ==> FillReads(config, th, rank, variable, old(Rest()), old(nextNodeID), node0, r.value, added)
      ensures Gives(DecodeFill(config, th, rank, variable, node0, old(Rest()), old(nextNodeID)), r, added)
      decreases |Rest()|, rank(variable.ty), 8
    {
      hide DecodePointer, DecodeTypedef, DecodeRecord, Ranked, DescendantsFit, FilledBetween, WholeBetween, Stored, PointerReads, TypedefReads, RecordReads, From;
      added := [];
      LeafBetween(node0, Now(), Now());
      r := Ok(node0);
      if !variable.isStubbed {
        var kind := th.kind(variable.ty);
        if kind == PointerKind {
          if config.chaseRawPointers {
            r, added := ProcessPointer(node0, variable.ty, rank);
          }
        } else if kind == TypedefKind {
          r, added := ProcessTypedef(node0, variable.ty, rank);
        } else if kind == RecordKind || kind == ArrayKind {
          r, added := ProcessRecord(node0, variable.ty, rank);
        }
      }
    }

    /** A node with a single child, which gets the next ID; `owned` if the node owns all of the child's memory. */
    method ProcessOnly(node: Node, ty: Ty, owned: bool, ghost rank: Ty -> nat)
      returns (r: Result<Node>, ghost added: seq<Node>, stats: Option<Stats>)
      requires Ranked(th, rank) && db == Stored(puts)
      modifies this`oidDataIndex, this`nextNodeID, this`db, this`puts, this`excess, this`drift
      ensures After(old(Now()), Now()) && db == Stored(puts)
      ensures r.Ok? ==> r.value.id == node.id && FilledBetween(r.value, added, old(Now()), Now())
      ensures r.Ok? ==> added != [] && r.value == Adopted(node, added[|added| - 1], owned)
      ensures r.Ok? ==> stats == added[|added| - 1].containerStats && added[|added| - 1].id == old(nextNodeID)
      ensures r.Ok? ==> OfType(th, ty, added[|added| - 1])
      ensures Gives(DecodeOnly(config, th, rank, ty, owned, node, old(Rest()), old(nextNodeID)), r, added)
      decreases |Rest()|, rank(ty), 10
    {
      hide Decode, Ranked, DescendantsFit, FilledBetween, WholeBetween, Stored, NodeReads, Sized, Excess, From, OfType;
      ghost var a := Now();
      var childID := nextNodeID;
      nextNodeID := nextNodeID + 1;
      ghost var b := Now();
      var processed;
      processed, added := Process(childID, Variable(ty, None, false), rank);
      if processed.Err? {
        return processed, added, None;
      }
      var child := processed.value;
      ghost var c := Now();
      var parent := node.(children := Some((childID, childID + 1)));
      var dynamicSize := if owned then child.staticSize + child.dynamicSize else child.dynamicSize;
      var sized := SetSize(parent, dynamicSize, child.dynamicSize + child.staticSize);
      OneChildBetween(parent, child, added, a, b, c, Now(), dynamicSize);
      r, stats := Ok(sized), child.containerStats;
    }

    /** A pointer is followed if chasing pointers is on and the target says that it was followed. */
    method ProcessPointer(node0: Node, ty: Ty, ghost rank: Ty -> nat) returns (r: Result<Node>, ghost added: seq<Node>)
      requires Ranked(th, rank) && db == Stored(puts) && Fresh(node0)
      modifies this`oidDataIndex, this`nextNodeID, this`db, this`puts, this`excess, this`drift
      ensures After(old(Now()), Now()) && db == Stored(puts)
      ensures r.Ok? ==> r.value.id == node0.id && FilledBetween(r.value, added, old(Now()), Now())
      ensures r.Ok? ==> PointerReads(th, ty, old(Rest()), node0, r.value, added)
      ensures Gives(DecodePointer(config, th, rank, ty, node0, old(Rest()), old(nextNodeID)), r, added)
      decreases |Rest()|, rank(ty), 7
    {
      hide DecodeOnly, Ranked, DescendantsFit, FilledBetween, WholeBetween, Stored, Adopted, OfType, From;
      added := [];
      ghost var a := Now();
      LeafBetween(node0, a, a);
      if ty in th.knownDummyTypeList || ty !in th.pointerToTypeMap {
        return Ok(node0), added;
      }
      var inner := th.pointerToTypeMap[ty];
      var node, followed := node0, true;
      if th.kind(inner) != FunctionKind {
        var ok;
        node, ok, followed := ReadPointee(node0, th.kind(inner) == VoidKind);
        if !ok {
          return Err(EndOfData), added;
        }
        LeafBetween(node, a, Now());
      } else {
        FunctionRank(th, rank, ty);
      }
      r := Ok(node);
      if followed {
        ghost var b := Now();
        var stats;
        r, added, stats := ProcessOnly(node, inner, true, rank);
        if r.Ok? {
          OnlyRead(r.value, added, a, b, Now());
        }
      }
    }

    /** The words of a pointer: its value and, unless it points to nothing known, whether it was followed. */
    method ReadPointee(node0: Node, toVoid: bool) returns (node: Node, ok: bool, followed: bool)
      modifies this`oidDataIndex
      ensures ok <==> |old(Rest())| >= if toVoid then 1 else 2
      ensures ok ==> node == node0.(pointer := Some(old(Rest())[0])) && (followed <==> !toVoid && old(Rest())[1] != SKIPPED)
      ensures oidDataIndex >= old(oidDataIndex) && (ok ==> oidDataIndex == old(oidDataIndex) + if toVoid then 1 else 2)
      ensures ok ==> Rest() == old(Rest())[if toVoid then 1 else 2..]
    {
      node, followed := node0, false;
      var pointer := Next();
      if pointer.None? {
        ok := false;
        return;
      }
      node := node.(pointer := pointer);
      if !toVoid {
        var tag := Next();
        if tag.None? {
          ok := false;
          return;
        }
        followed := tag.value != SKIPPED;
      }
      ok := true;
    }

    method ProcessTypedef(node0: Node, ty: Ty, ghost rank: Ty -> nat) returns (r: Result<Node>, ghost added: seq<Node>)
      requires Ranked(th, rank) && db == Stored(puts) && Fresh(node0)
      modifies this`oidDataIndex, this`nextNodeID, this`db, this`puts, this`excess, this`drift
      ensures After(old(Now()), Now()) && db == Stored(puts)
      ensures r.Ok? ==> r.value.id == node0.id && FilledBetween(r.value, added, old(Now()), Now())
      ensures r.Ok? ==> TypedefReads(th, ty, node0, r.value, added)
      ensures Gives(DecodeTypedef(config, th, rank, ty, node0, old(Rest()), old(nextNodeID)), r, added)
      decreases |Rest()|, rank(ty), 7
    {
      hide DecodeOnly, Ranked, DescendantsFit, FilledBetween, WholeBetween, Stored, Adopted, OfType;
      added := [];
      ghost var a := Now();
      LeafBetween(node0, a, a);
      if th.standardInteger(ty) {
        return Ok(node0), added;
      }
      var node := node0.(isTypedef := true);
      LeafBetween(node, a, a);
      r := Ok(node);
      if ty in th.typedefMap {
        TypedefRank(th, rank, ty);
        var stats;
        r, added, stats := ProcessOnly(node, th.typedefMap[ty], false, rank);
      }
    }

    /** Is the type's content described by words of its own? */
    method IsContainer(ty: Ty) returns (r: bool)
      ensures r == ContainerType(config, th, ty)
      ensures r <==> ty in th.containerTypeMap || (th.kind(ty) == ArrayKind && (config.typeGraph || th.length(ty) > 0))
    {
      if ty in th.containerTypeMap {
        return true;
      }
      r := th.kind(ty) == ArrayKind && (config.typeGraph || th.length(ty) > 0);
    }

    /** A container, or a class with the members of the type that the object turns out to be of. */
    method ProcessRecord(node0: Node, ty: Ty, ghost rank: Ty -> nat) returns (r: Result<Node>, ghost added: seq<Node>)
      requires Ranked(th, rank) && db == Stored(puts) && Fresh(node0) && th.size(ty) == Some(node0.staticSize)
      requires th.kind(ty) in {RecordKind, ArrayKind}
      modifies this`oidDataIndex, this`nextNodeID, this`db, this`puts, this`excess, this`drift
      ensures After(old(Now()), Now()) && db == Stored(puts)
      ensures r.Ok? ==> r.value.id == node0.id && FilledBetween(r.value, added, old(Now()), Now())
      ensures r.Ok? ==> RecordReads(config, th, rank, ty, old(Rest()), old(nextNodeID), node0, r.value, added)
      ensures Gives(DecodeRecord(config, th, rank, ty, node0, old(Rest()), old(nextNodeID)), r, added)
      decreases |Rest()|, rank(ty), 7
    {
      hide DecodeContainer, DecodeBlock, ContainerType, Ranked, DescendantsFit, FilledBetween, WholeBetween, Stored, ContainerReads, MembersRead, From;
      added := [];
      ghost var a := Now();
      LeafBetween(node0, a, a);
      if ty in th.knownDummyTypeList {
        return Ok(node0), added;
      }
      var container := IsContainer(ty);
      if container {
        r, added := ProcessContainer(node0, ty, rank);
        return;
      }
      var selected, objectType := SelectType(node0, ty);
      if selected.Err? {
        return selected, added;
      }
      var node := selected.value;
      ghost var decoded := DecodeClass(config, th, rank, objectType, node, Rest(), nextNodeID);
      assert DecodeRecord(config, th, rank, ty, node0, old(Rest()), old(nextNodeID)) == decoded;
      if objectType !in th.classMembersMap || th.classMembersMap[objectType] == [] {
        if DescendantsFit(config, th) {
          SelectedFits(config, th, ty, old(Rest()), node0);
        }
        drift := drift + (node.exclusiveSize - node.staticSize);
        LeafBetween(node, a, Now());
        return Ok(node), added;
      }
      ghost var b := Now();
      r, added := ProcessMembers(node, objectType, rank);
      if r.Ok? {
        OnlyRead(r.value, added, a, b, Now());
      }
    }

    /** A dynamic class comes with the index of the class that the object is of. Its size replaces the node's own. */
    method SelectType(node0: Node, ty: Ty) returns (r: Result<Node>, objectType: Ty)
      requires Fresh(node0)
      modifies this`oidDataIndex
      ensures oidDataIndex >= old(oidDataIndex) && (objectType != ty ==> |Rest()| < |old(Rest())|)
      ensures r.Ok? ==> r.value.id == node0.id && r.value.children.None? && r.value.dynamicSize == 0 && r.value.exclusiveSize == node0.staticSize
      ensures Selected(th, ty, old(Rest()), node0) == if r.Ok? then Some((objectType, r.value)) else None
      ensures r.Err? ==> ty in th.descendantClasses && r.error == SelectError(th, ty, old(Rest()))
      ensures r.Ok? ==> Rest() == old(Rest())[if ty in th.descendantClasses then 1 else 0..]
    {
      objectType := ty;
      var node := node0;
      if ty in th.descendantClasses {
        var descendants := th.descendantClasses[ty];
        var val := Next();
        if val.None? {
          return Err(EndOfData), objectType;
        }
        if val.value != NO_VALUE {
          if val.value >= |descendants| {
            return Err(Undefined), objectType;
          }
          objectType := descendants[val.value];
          var size := th.size(objectType);
          if size.None? {
            return Err(NoSize), objectType;
          }
          node := node.(ty := objectType, staticSize := size.value);
        }
      }
      r := Ok(node);
    }

    /** Whether an optional member is set; not every member has a word that says so. */
    method ReadIsset(capture: bool) returns (isset: Option<bool>, ok: bool)
      modifies this`oidDataIndex
      ensures ok <==> !capture || old(Rest()) != []
      ensures oidDataIndex == old(oidDataIndex) + if capture && ok then 1 else 0
      ensures ok && capture ==> isset == IssetOf(old(Rest())[0])
      ensures !capture ==> isset == None
      ensures ok ==> Rest() == old(Rest())[if capture then 1 else 0..]
    {
      isset, ok := None, true;
      if capture {
        var val := Next();
        ok := val.Some?;
        if val.Some? && val.value != NO_VALUE {
          isset := Some(val.value != 0);
        }
      }
    }

    /** All the children in a block have been processed. */
    method FinishBlock(node0: Node, block: NodeID, count: nat, dynamicSize: nat, memberSizes: nat,
                       ghost added: seq<Node>, ghost a: Snapshot)
      returns (node: Node)
      requires PartlyBetween(count, block, count, added, memberSizes, a, Now()) && a.next == block && After(a, Now())
      modifies this`excess
      ensures After(a, Now()) && FilledBetween(node, added, a, Now()) && node.id == node0.id
      ensures node == Sized(node0.(children := Some((block, block + count))), dynamicSize, memberSizes)
    {
      hide FilledBetween, PartlyBetween, Excess;
      var parent := node0.(children := Some((block, block + count)));
      ghost var c := Now();
      node := SetSize(parent, dynamicSize, memberSizes);
      BlockFilledBetween(parent, count, added, a, c, Now(), dynamicSize, memberSizes);
    }

    /** One member of a class, which is the next child in the block. */
    method ProcessMember(member: ClassMember, block: NodeID, count: nat, done: nat, capture: bool,
                         ghost dynamics: nat, ghost sizes: nat,
                         ghost added0: seq<Node>, ghost a: Snapshot, ghost rank: Ty -> nat, ghost bound: nat, ghost types: seq<Ty>,
                         ghost members: seq<ClassMember>, ghost captureAll: bool)
      returns (child: Result<Node>, ghost added: seq<Node>)
      requires Ranked(th, rank) && db == Stored(puts) && done < count && rank(member.ty) < bound
      requires |members| == count && members[done] == member && capture == HasIsset(members, captureAll, done)
      requires MembersBelow(rank, members, bound)
      requires After(a, Now()) && PartlyBetween(done, block, count, added0, sizes, a, Now())
      requires BlockRead(th, block, types, done, added0, dynamics, sizes) && |types| == count && types[done] == member.ty
      modifies this`oidDataIndex, this`nextNodeID, this`db, this`puts, this`excess, this`drift
      ensures After(a, Now()) && After(old(Now()), Now()) && db == Stored(puts)
      ensures child.Ok? ==>
        PartlyBetween(done + 1, block, count, added, sizes + (child.value.dynamicSize + child.value.staticSize), a, Now())
      ensures child.Ok? ==>
        BlockRead(th, block, types, done + 1, added, dynamics + child.value.dynamicSize, sizes + (child.value.dynamicSize + child.value.staticSize))
      ensures DecodeBlock(config, th, rank, bound, members, captureAll, block, done, Block(dynamics, sizes, added0, old(Rest()), old(nextNodeID))) ==
              if child.Err? then Err(child.error)
              else DecodeBlock(config, th, rank, bound, members, captureAll, block, done + 1,
                     Block(dynamics + child.value.dynamicSize, sizes + (child.value.dynamicSize + child.value.staticSize), added, Rest(), nextNodeID))
      decreases |Rest()|, bound, 2
    {
      hide DecodeBlock, Decode, Ranked, DescendantsFit, WholeBetween, Stored, PartlyBetween, From, DynamicIn, StaticIn, NodeReads, OfType, TypesRead;
      added := added0;
      BlockStep(config, th, rank, bound, members, captureAll, block, done, Block(dynamics, sizes, added0, Rest(), nextNodeID));
      ghost var b := Now();
      var isset, ok := ReadIsset(capture);
      if !ok {
        return Err(EndOfData), added;
      }
      ghost var b' := Now();
      ghost var more;
      child, more := Process(block + done, Variable(member.ty, isset, member.isStubbed), rank);
      if child.Ok? {
        ChildAddedBetween(done, block, count, added0, sizes, a, b, b', child.value, more, Now());
        BlockAllocated(done, block, count, added0, sizes, a, b);
        SizesAdded(added0, child.value, more, b', Now(), block, block + count);
        TypesMore(th, added0, more, block, types, done);
        added := added0 + more;
      }
    }

    /** The members of a class, one after the other; what comes back is their dynamic size, and their size in all. */
    method ProcessEach(members: seq<ClassMember>, captureThriftIsset: bool, block: NodeID, ghost a: Snapshot,
                       ghost rank: Ty -> nat, ghost bound: nat)
      returns (r: Result<(nat, nat)>, ghost added: seq<Node>)
      requires Ranked(th, rank) && db == Stored(puts) && MembersBelow(rank, members, bound)
      requires After(a, Now()) && PartlyBetween(0, block, |members|, [], 0, a, Now())
      modifies this`oidDataIndex, this`nextNodeID, this`db, this`puts, this`excess, this`drift
      ensures After(a, Now()) && db == Stored(puts)
      ensures r.Ok? ==> PartlyBetween(|members|, block, |members|, added, r.value.1, a, Now())
      ensures r.Ok? ==> BlockRead(th, block, MemberTypes(members), |members|, added, r.value.0, r.value.1)
      ensures GivesBlock(DecodeBlock(config, th, rank, bound, members, captureThriftIsset, block, 0, Block(0, 0, [], old(Rest()), old(nextNodeID))),
                r, added)
      decreases |Rest()|, bound, 3
    {
      hide DecodeBlock, Ranked, DescendantsFit, Stored, PartlyBetween, BlockRead, From;
      var dynamicSize: nat, memberSizes: nat := 0, 0;
      added := [];
      ghost var entry, types := Now(), MemberTypes(members);
      NothingRead(th, block, types);
      ghost var decoded := DecodeBlock(config, th, rank, bound, members, captureThriftIsset, block, 0, Block(0, 0, [], Rest(), nextNodeID));
      for i := 0 to |members|
        invariant After(a, Now()) && After(entry, Now()) && db == Stored(puts)
        invariant decoded == DecodeBlock(config, th, rank, bound, members, captureThriftIsset, block, i, Block(dynamicSize, memberSizes, added, Rest(), nextNodeID))
        invariant PartlyBetween(i, block, |members|, added, memberSizes, a, Now())
        invariant BlockRead(th, block, types, i, added, dynamicSize, memberSizes)
      {
        var capture := captureThriftIsset && i < |members| - 1;
        var child;
        child, added := ProcessMember(members[i], block, |members|, i, capture, dynamicSize, memberSizes, added, a, rank, bound, types,
          members, captureThriftIsset);
        if child.Err? {
          return Err(child.error), added;
        }
        dynamicSize := dynamicSize + child.value.dynamicSize;
        memberSizes := memberSizes + (child.value.dynamicSize + child.value.staticSize);
      }
      BlockDecoded(config, th, rank, bound, members, captureThriftIsset, block, Block(dynamicSize, memberSizes, added, Rest(), nextNodeID));
      r := Ok((dynamicSize, memberSizes));
    }

    /** The members of a class get a block of IDs. */
    method ProcessMembers(node0: Node, objectType: Ty, ghost rank: Ty -> nat)
      returns (r: Result<Node>, ghost added: seq<Node>)
      requires Ranked(th, rank) && db == Stored(puts) && node0.dynamicSize == 0
      requires objectType in th.classMembersMap && th.classMembersMap[objectType] != []
      modifies this`oidDataIndex, this`nextNodeID, this`db, this`puts, this`excess, this`drift
      ensures After(old(Now()), Now()) && db == Stored(puts)
      ensures r.Ok? ==> r.value.id == node0.id && FilledBetween(r.value, added, old(Now()), Now())
      ensures r.Ok? ==> MembersRead(th, node0, r.value, added, old(nextNodeID), MemberTypes(th.classMembersMap[objectType]))
      ensures Gives(DecodeClass(config, th, rank, objectType, node0, old(Rest()), old(nextNodeID)), r, added)
      decreases |Rest()|, rank(objectType), 6
    {
      hide DecodeBlock, Ranked, Selected, DescendantsFit, FilledBetween, Stored, PartlyBetween, Excess, BlockRead, MembersRead, From, Sized, DynamicIn, StaticIn, TypesRead;
      ghost var a := Now();
      var members := th.classMembersMap[objectType];
      var block, count := nextNodeID, |members|;
      nextNodeID := nextNodeID + count;
      BlockStartsBetween(count, a, Now());
      MemberRanks(th, rank, objectType);
      var sizes;
      sizes, added := ProcessEach(members, objectType in th.thriftIssetStructTypes, block, a, rank, rank(objectType));
      if sizes.Err? {
        return Err(sizes.error), added;
      }
      var node := FinishBlock(node0, block, count, sizes.value.0, sizes.value.1, added, a);
      AllRead(th, node0, block, MemberTypes(members), added, sizes.value.0, sizes.value.1);
      r := Ok(node);
    }

    /** Looks through typedefs. */
    method IsPrimitive(ty: Ty, ghost rank: Ty -> nat) returns (primitive: bool)
      requires Ranked(th, rank)
      ensures primitive == PrimitiveThrough(th, rank, ty)
    {
      var t := ty;
      while th.kind(t) == TypedefKind
        invariant PrimitiveThrough(th, rank, t) == PrimitiveThrough(th, rank, ty)
        decreases rank(t)
      {
        if t !in th.typedefMap {
          return false;
        }
        t := th.typedefMap[t];
      }
      primitive := th.primitive(t);
    }

    method AllPrimitive(types: seq<Ty>, ghost rank: Ty -> nat) returns (primitive: bool)
      requires Ranked(th, rank)
      ensures primitive == AllThrough(th, rank, types)
    {
      hide Ranked;
      for i := 0 to |types|
        invariant forall k :: 0 <= k < i ==> PrimitiveThrough(th, rank, types[k])
      {
        var one := IsPrimitive(types[i], rank);
        if !one {
          return false;
        }
      }
      primitive := true;
    }

    /** The sizes of a container's element types; not ok if one is not known. */
    method SizesOf(types: seq<Ty>) returns (sizes: seq<nat>, ok: bool)
      ensures ok <==> SizesKnown(th, types)
      ensures ok ==> sizes == SizesIn(th, types)
    {
      sizes, ok := [], true;
      for i := 0 to |types|
        invariant sizes == SizesIn(th, types)[..i]
        invariant forall k :: 0 <= k < i ==> th.size(types[k]).Some?
      {
        if th.size(types[i]).None? {
          return sizes, false;
        }
        sizes := sizes + [th.size(types[i]).value];
      }
    }

    /** A container is what its words say, and so are its elements if they are not all primitive. */
    method ProcessContainer(node0: Node, ty: Ty, ghost rank: Ty -> nat)
      returns (r: Result<Node>, ghost added: seq<Node>)
      requires Ranked(th, rank) && db == Stored(puts) && Fresh(node0) && ContainerType(config, th, ty)
      modifies this`oidDataIndex, this`nextNodeID, this`db, this`puts, this`excess, this`drift
      ensures After(old(Now()), Now()) && db == Stored(puts)
      ensures r.Ok? ==> r.value.id == node0.id && FilledBetween(r.value, added, old(Now()), Now())
      ensures r.Ok? ==> ContainerReads(config, th, rank, ty, old(Rest()), old(nextNodeID), node0, r.value, added)
      ensures Gives(DecodeContainer(config, th, rank, ty, node0, old(Rest()), old(nextNodeID)), r, added)
      ensures r.Ok? ==> BuiltFromContents(th, rank, ty, old(Rest()), node0, r.value, added, old(nextNodeID))
      decreases |Rest()|, rank(ty), 6
    {
      hide BuiltFromContents;
      hide DecodeContainer, DecodeHeader, Ranked, DescendantsFit, FilledBetween, WholeBetween, Stored, HeaderOf, AllThrough, SizesIn, ReadsAs, From;
      hide PrimitiveThrough, ContainerElements, Progresses, BoundOf;
      added := [];
      ghost var a := Now();
      var kind, elementTypes := ContainerElements(th, ty).0, ContainerElements(th, ty).1;
      ContainerFails(config, th, rank, ty, node0, Rest(), nextNodeID);
      var sizes, ok := SizesOf(elementTypes);
      if !ok {
        return Err(NoSize), added;
      }
      var h := ReadHeader(kind, sizes, node0.staticSize);
      if h.Failed? {
        return Err(h.error), added;
      }
      ContainerIs(config, th, rank, ty, node0, old(Rest()), nextNodeID, h);
      FromSkip(oidData, old(oidDataIndex), h.words);
      ghost var b := Now();
      ghost var bound := if h.words == 0 then rank(ty) else BoundOf(rank, elementTypes);
      r, added := ProcessHeader(node0, h, elementTypes, rank, bound);
      if r.Ok? {
        OnlyRead(r.value, added, a, b, Now());
        ReadsContents(config, th, rank, ty, old(Rest()), old(nextNodeID), node0, r.value, added);
      }
    }

    /** What a container's words ask for. */
    method ProcessHeader(node0: Node, h: Header, elementTypes: seq<Ty>, ghost rank: Ty -> nat, ghost bound: nat)
      returns (r: Result<Node>, ghost added: seq<Node>)
      requires Ranked(th, rank) && db == Stored(puts) && Fresh(node0) && !h.Failed?
      requires h.One? ==> h.index < |elementTypes|
      requires h.One? || (h.All? && h.stats.length > 0) ==> forall i :: 0 <= i < |elementTypes| ==> rank(elementTypes[i]) < bound
      modifies this`oidDataIndex, this`nextNodeID, this`db, this`puts, this`excess, this`drift
      ensures After(old(Now()), Now()) && db == Stored(puts)
      ensures r.Ok? ==> r.value.id == node0.id && FilledBetween(r.value, added, old(Now()), Now())
      ensures r.Ok? ==> ReadsAs(th, h, node0, r.value, added, old(nextNodeID), elementTypes, AllThrough(th, rank, elementTypes))
      ensures Gives(DecodeHeader(config, th, rank, bound, h, elementTypes, node0, old(Rest()), old(nextNodeID)), r, added)
      decreases |Rest()|, bound, 5
    {
      hide DecodeOnly, DecodeAll, Ranked, DescendantsFit, FilledBetween, WholeBetween, Stored, AllThrough, ReadsAll, Adopted;
      added := [];
      ghost var a := Now();
      var node := node0.(pointer := h.pointer, containerStats := Some(h.stats));
      if h.Complete? {
        node := SetSize(node, h.dynamicSize, 0);
        LeafBetween(node, a, Now());
        r := Ok(node);
      } else if h.One? {
        var stats;
        r, added, stats := ProcessOnly(node, elementTypes[h.index], false, rank);
        if r.Ok? && h.adapts {
          SameAccount(r.value, stats, added, a, Now());
          r := Ok(r.value.(containerStats := stats));
        }
      } else {
        r, added := ProcessAll(node, h, elementTypes, rank, bound);
      }
    }

    /** The part of `processContainer` after the switch. */
    method ProcessAll(node0: Node, h: Header, elementTypes: seq<Ty>, ghost rank: Ty -> nat, ghost bound: nat)
      returns (r: Result<Node>, ghost added: seq<Node>)
      requires Ranked(th, rank) && db == Stored(puts) && Fresh(node0) && h.All? && node0.containerStats == Some(h.stats)
      requires h.stats.length > 0 ==> forall i :: 0 <= i < |elementTypes| ==> rank(elementTypes[i]) < bound
      modifies this`oidDataIndex, this`nextNodeID, this`db, this`puts, this`excess, this`drift
      ensures After(old(Now()), Now()) && db == Stored(puts)
      ensures r.Ok? ==> r.value.id == node0.id && FilledBetween(r.value, added, old(Now()), Now())
      ensures r.Ok? ==> ReadsAll(th, h, node0, r.value, added, old(nextNodeID), elementTypes, AllThrough(th, rank, elementTypes))
      ensures h.stats.elementStaticSize * h.stats.capacity >= CONTAINER_SIZE_THRESHOLD ==> r == Err(OverThreshold)
      ensures h.stats.elementStaticSize * h.stats.capacity < CONTAINER_SIZE_THRESHOLD ==>
                Gives(DecodeAll(config, th, rank, bound, h, elementTypes, AllOwn(h, node0), old(Rest()), old(nextNodeID)), r, added)
      decreases |Rest()|, bound, 4
    {
      hide DecodeElements, Ranked, DescendantsFit, FilledBetween, WholeBetween, Stored, AllThrough, MembersRead;
      added := [];
      ghost var a := Now();
      var elements := h.stats.elementStaticSize * h.stats.capacity;
      var node := SetSize(node0, h.dynamicSize, 0);
      if !h.storedInline {
        node := SetSize(node, node.dynamicSize + elements, 0);
      }
      if elements >= CONTAINER_SIZE_THRESHOLD {
        return Err(OverThreshold), added;
      }
      LeafBetween(node, a, Now());
      r := Ok(node);
      var primitive := AllPrimitive(elementTypes, rank);
      var numChildren := h.stats.length * |elementTypes|;
      if !primitive && numChildren != 0 {
        r, added := ProcessElements(node, elementTypes, h.stats.length, rank, bound);
      }
    }

    /** The elements of a container get a block of IDs; each element has a child for each type. */
    method ProcessElements(node0: Node, elementTypes: seq<Ty>, length: nat, ghost rank: Ty -> nat, ghost bound: nat)
      returns (r: Result<Node>, ghost added: seq<Node>)
      requires Ranked(th, rank) && db == Stored(puts)
      requires length > 0 ==> forall i :: 0 <= i < |elementTypes| ==> rank(elementTypes[i]) < bound
      modifies this`oidDataIndex, this`nextNodeID, this`db, this`puts, this`excess, this`drift
      ensures After(old(Now()), Now()) && db == Stored(puts)
      ensures r.Ok? ==> r.value.id == node0.id && FilledBetween(r.value, added, old(Now()), Now())
      ensures r.Ok? ==> MembersRead(th, node0, r.value, added, old(nextNodeID), Repeated(elementTypes, length))
      ensures Gives(DecodeElements(config, th, rank, bound, elementTypes, length, node0, old(Rest()), old(nextNodeID)), r, added)
      decreases |Rest()|, bound, 3
    {
      hide MembersBelow, Repeated, MemberTypes, DecodeBlock, Ranked, DescendantsFit, FilledBetween, WholeBetween, Stored, PartlyBetween, Excess, BlockRead, MembersRead, Sized, DynamicIn, StaticIn, TypesRead, From;
      ghost var a := Now();
      var block, count := nextNodeID, length * |elementTypes|;
      nextNodeID := nextNodeID + count;
      var done: nat := 0;
      ghost var types := Repeated(elementTypes, length);
      var dynamicSize: nat, memberSizes: nat := node0.dynamicSize, 0;
      ghost var dynamics: nat := 0;
      added := [];
      BlockStartsBetween(count, a, Now());
      NothingRead(th, block, types);
      RepeatedRanks(rank, elementTypes, length, bound);
      ghost var members := AsMembers(types);
      ghost var decoded := DecodeBlock(config, th, rank, bound, members, false, block, 0, Block(0, 0, [], Rest(), nextNodeID));
      for i := 0 to length
        invariant After(a, Now()) && db == Stored(puts)
        invariant done <= count &&
                  decoded == DecodeBlock(config, th, rank, bound, members, false, block, done, Block(dynamics, memberSizes, added, Rest(), nextNodeID))
        invariant done == i * |elementTypes| && dynamicSize == node0.dynamicSize + dynamics
        invariant PartlyBetween(done, block, count, added, memberSizes, a, Now())
        invariant BlockRead(th, block, types, done, added, dynamics, memberSizes)
      {
        MulMono(i + 1, length, |elementTypes|);
        Distribute(i, 1, |elementTypes|);
        forall j | 0 <= j < |elementTypes|
          ensures types[done + j] == elementTypes[j]
        {
          RepeatedAt(elementTypes, length, i, j);
        }
        var element;
        element, added, dynamics := ProcessElement(elementTypes, block, count, done, dynamicSize, memberSizes, dynamics, added, a, rank, bound, types);
        if element.Err? {
          return Err(element.error), added;
        }
        dynamicSize, memberSizes := element.value.0, element.value.1;
        done := done + |elementTypes|;
      }
      BlockDecoded(config, th, rank, bound, members, false, block, Block(dynamics, memberSizes, added, Rest(), nextNodeID));
      var node := FinishBlock(node0, block, count, dynamicSize, memberSizes, added, a);
      AllRead(th, node0, block, types, added, dynamics, memberSizes);
      r := Ok(node);
    }

    /** One element: a child for each type, from the given one on; the sizes so far come back with theirs added. */
    method ProcessElement(elementTypes: seq<Ty>, block: NodeID, count: nat, first: nat, dynamic0: nat, sizes0: nat,
                          ghost dynamics0: nat,
                          ghost added0: seq<Node>, ghost a: Snapshot, ghost rank: Ty -> nat, ghost bound: nat, ghost types: seq<Ty>)
      returns (r: Result<(nat, nat)>, ghost added: seq<Node>, ghost dynamics: nat)
      requires Ranked(th, rank) && db == Stored(puts) && first + |elementTypes| <= count
      requires forall i :: 0 <= i < |elementTypes| ==> rank(elementTypes[i]) < bound
      requires MembersBelow(rank, AsMembers(types), bound)
      requires |types| == count && forall j :: 0 <= j < |elementTypes| ==> types[first + j] == elementTypes[j]
      requires After(a, Now()) && PartlyBetween(first, block, count, added0, sizes0, a, Now())
      requires BlockRead(th, block, types, first, added0, dynamics0, sizes0)
      modifies this`oidDataIndex, this`nextNodeID, this`db, this`puts, this`excess, this`drift
      ensures After(a, Now()) && After(old(Now()), Now()) && db == Stored(puts)
      ensures r.Ok? ==> r.value.0 - dynamic0 == dynamics - dynamics0
      ensures r.Ok? ==> PartlyBetween(first + |elementTypes|, block, count, added, r.value.1, a, Now())
      ensures r.Ok? ==> BlockRead(th, block, types, first + |elementTypes|, added, dynamics, r.value.1)
      ensures DecodeBlock(config, th, rank, bound, AsMembers(types), false, block, first, Block(dynamics0, sizes0, added0, old(Rest()), old(nextNodeID))) ==
              if r.Err? then Err(r.error)
              else DecodeBlock(config, th, rank, bound, AsMembers(types), false, block, first + |elementTypes|,
                     Block(dynamics, r.value.1, added, Rest(), nextNodeID))
      decreases |Rest()|, bound, 2
    {
      hide MembersBelow, Repeated, DecodeBlock, Decode, Ranked, DescendantsFit, WholeBetween, Stored, PartlyBetween, From, DynamicIn, StaticIn, NodeReads, OfType, TypesRead;
      added, dynamics := added0, dynamics0;
      var dynamicSize: nat, memberSizes: nat := dynamic0, sizes0;
      ghost var entry := Now();
      ghost var members := AsMembers(types);
      ghost var decoded := DecodeBlock(config, th, rank, bound, members, false, block, first, Block(dynamics0, sizes0, added0, Rest(), nextNodeID));
      for j := 0 to |elementTypes|
        invariant After(a, Now()) && After(entry, Now()) && db == Stored(puts)
        invariant decoded == DecodeBlock(config, th, rank, bound, members, false, block, first + j, Block(dynamics, memberSizes, added, Rest(), nextNodeID))
        invariant dynamicSize - dynamic0 == dynamics - dynamics0
        invariant PartlyBetween(first + j, block, count, added, memberSizes, a, Now())
        invariant BlockRead(th, block, types, first + j, added, dynamics, memberSizes)
      {
        ghost var b := Now();
        BlockStep(config, th, rank, bound, members, false, block, first + j, Block(dynamics, memberSizes, added, Rest(), nextNodeID));
        var child, more := Process(block + first + j, Variable(elementTypes[j], None, false), rank);
        if child.Err? {
          return Err(child.error), added, dynamics;
        }
        ChildAddedBetween(first + j, block, count, added, memberSizes, a, b, b, child.value, more, Now());
        BlockAllocated(first + j, block, count, added, memberSizes, a, b);
        SizesAdded(added, child.value, more, b, Now(), block, block + count);
        TypesMore(th, added, more, block, types, first + j);
        added, dynamics := added + more, dynamics + child.value.dynamicSize;
        dynamicSize := dynamicSize + child.value.dynamicSize;
        memberSizes := memberSizes + (child.value.dynamicSize + child.value.staticSize);
      }
      r := Ok((dynamicSize, memberSizes));
    }

    /** Whichever object the words are stored for, the nodes are those of its tree. */
    ghost predicate BuiltFromObject(hierarchy: Hierarchy, rank: Ty -> nat, ty: Ty, d: seq<U64>, id: NodeID,
                                    r: Result<Node>, added: seq<Node>)
      requires Ranked(hierarchy, rank)
      reads this
    {
      forall x, rest :: O.HasShape(config, hierarchy, rank, ty, false, x) && d == O.Words(x) + rest ==>
        GivesWhole(Ok(O.Tree(hierarchy, rank, Variable(ty, None, false), x, id, rest, id + 1)), r, added)
    }

    lemma ObjectBuilt(hierarchy: Hierarchy, rank: Ty -> nat, ty: Ty, d: seq<U64>, id: NodeID, r: Result<Node>,
                      added: seq<Node>)
      requires Ranked(hierarchy, rank) && GivesWhole(Decode(config, hierarchy, rank, Variable(ty, None, false), id, d, id + 1), r, added)
      ensures BuiltFromObject(hierarchy, rank, ty, d, id, r, added)
    {
      hide O.HasShape, O.Words, O.Tree, Decode, Ranked, GivesWhole;
      O.DecodesToTree(config, hierarchy, rank, Variable(ty, None, false), id, d, id + 1);
    }

    /** `build`, up to the store's own housekeeping; not ok if it throws, having marked the root as failed. */
    method Build(data: seq<U64>, ty: Ty, hierarchy: Hierarchy, ghost rank: Ty -> nat)
      returns (r: Result<Node>, allConsumed: bool, ghost added: seq<Node>)
      requires Ranked(hierarchy, rank) && db == Stored(puts)
      modifies this
      ensures db == Stored(puts) && th == hierarchy && nextNodeID > old(nextNodeID)
      ensures rootIDs == old(rootIDs) + [if r.Ok? then old(nextNodeID) else ERROR_NODE_ID]
      ensures r.Ok? ==> r.value.id == old(nextNodeID) && puts == old(puts) + added
      ensures r.Ok? ==> Ids(added) == Range(old(nextNodeID), nextNodeID) && Kids(added) == Range(old(nextNodeID) + 1, nextNodeID)
      ensures r.Ok? ==> Exclusive(added) == r.value.staticSize + r.value.dynamicSize + (excess - old(excess)) + (drift - old(drift))
      ensures old(excess) <= excess && (DescendantsFit(config, hierarchy) ==> drift == old(drift))
      ensures r.Ok? ==>
        && added != []
        && NodeReads(config, hierarchy, rank, Variable(ty, None, false), From(data, FIRST_DATA_INDEX), old(nextNodeID) + 1, old(nextNodeID), r.value,
             added[..|added| - 1])
      ensures GivesWhole(Decode(config, hierarchy, rank, Variable(ty, None, false), old(nextNodeID), From(data, FIRST_DATA_INDEX), old(nextNodeID) + 1), r, added)
      ensures r.Ok? ==> (allConsumed <==> oidDataIndex == |data|)
      ensures BuiltFromObject(hierarchy, rank, ty, From(data, FIRST_DATA_INDEX), old(nextNodeID), r, added)
    {
      hide BuiltFromObject;
      hide Decode, Ranked, DescendantsFit, Stored, WholeBetween, Range, Ids, Kids, Exclusive, NodeReads, From;
      th, oidData, oidDataIndex := hierarchy, data, FIRST_DATA_INDEX;
      var rootID := nextNodeID;
      nextNodeID := nextNodeID + 1;
      ghost var a := Now();
      r, added := Process(rootID, Variable(ty, None, false), rank);
      if r.Err? {
        rootIDs := rootIDs + [ERROR_NODE_ID];
        ObjectBuilt(hierarchy, rank, ty, From(data, FIRST_DATA_INDEX), rootID, r, added);
        return r, false, added;
      }
      rootIDs := rootIDs + [rootID];
      RootAccounts(r.value, added, a, Now());
      ObjectBuilt(hierarchy, rank, ty, From(data, FIRST_DATA_INDEX), rootID, r, added);
      allConsumed := oidDataIndex == |oidData|;
    }
  }

  lemma StoredMore(ns: seq<Node>, n: Node)
    ensures Stored(ns + [n]) == Stored(ns)[n.id := n]
  {
    assert (ns + [n])[..|ns|] == ns;
  }

  /** The first children in a block are of the types they should be, and their sizes have been added up. */
  ghost predicate BlockRead(th: Hierarchy, block: NodeID, types: seq<Ty>, done: nat, added: seq<Node>, dynamics: nat,
                            sizes: nat)
  {
    && done <= |types| && TypesRead(th, added, block, types[..done])
    && dynamics == DynamicIn(added, block, block + |types|)
    && sizes == dynamics + StaticIn(added, block, block + |types|)
  }

  lemma NothingRead(th: Hierarchy, block: NodeID, types: seq<Ty>)
    ensures BlockRead(th, block, types, 0, [], 0, 0)
  {
  }

  lemma AllRead(th: Hierarchy, node0: Node, block: NodeID, types: seq<Ty>, added: seq<Node>, dynamics: nat, sizes: nat)
    requires BlockRead(th, block, types, |types|, added, dynamics, sizes)
    ensures MembersRead(th, node0, Sized(node0.(children := Some((block, block + |types|))), node0.dynamicSize + dynamics, sizes), added, block, types)
  {
    hide TypesRead, DynamicIn, StaticIn;
    assert types[..|types|] == types;
  }

  lemma BlockAllocated(done: nat, block: NodeID, count: nat, added: seq<Node>, sizes: nat, a: Snapshot, b: Snapshot)
    requires PartlyBetween(done, block, count, added, sizes, a, b)
    ensures block + count <= b.next
  {
  }

  /** Reading words changes no account. */
  lemma OnlyRead(node: Node, added: seq<Node>, a: Snapshot, b: Snapshot, c: Snapshot)
    requires b == a.(rest := b.rest) && FilledBetween(node, added, b, c)
    ensures FilledBetween(node, added, a, c)
  {
  }

  /** A node of a type, or of a class that is derived from it. */
  predicate OfType(th: Hierarchy, ty: Ty, node: Node)
  {
    node.ty == ty || (ty in th.descendantClasses && node.ty in th.descendantClasses[ty])
  }

  /** The children in a block are of the given types, one after the other. */
  ghost predicate TypesRead(th: Hierarchy, added: seq<Node>, block: NodeID, types: seq<Ty>)
  {
    forall i :: 0 <= i < |types| ==> HasTyped(th, added, block + i, types[i])
  }

  ghost predicate HasTyped(th: Hierarchy, added: seq<Node>, id: NodeID, ty: Ty)
  {
    exists k :: 0 <= k < |added| && added[k].id == id && OfType(th, ty, added[k])
  }

  /** The last of some nodes has an ID and is of a type. */
  ghost predicate EndsWith(th: Hierarchy, more: seq<Node>, id: NodeID, ty: Ty)
  {
    more != [] && more[|more| - 1].id == id && OfType(th, ty, more[|more| - 1])
  }

  lemma TypesMore(th: Hierarchy, added: seq<Node>, more: seq<Node>, block: NodeID, types: seq<Ty>, i: nat)
    requires i < |types| && TypesRead(th, added, block, types[..i])
    requires EndsWith(th, more, block + i, types[i])
    ensures TypesRead(th, added + more, block, types[..i + 1])
  {
    hide OfType;
    var wanted := types[..i + 1];
    forall j | 0 <= j < |wanted|
      ensures HasTyped(th, added + more, block + j, wanted[j])
    {
      if j < i {
        assert HasTyped(th, added, block + j, types[..i][j]);
        var k :| 0 <= k < |added| && added[k].id == block + j && OfType(th, types[j], added[k]);
        assert (added + more)[k] == added[k];
      } else {
        assert (added + more)[|added| + |more| - 1] == more[|more| - 1];
      }
    }
  }

  /** A node whose children are of the given types, have the IDs of a block, and add to its own dynamic size. */
  ghost predicate MembersRead(th: Hierarchy, node0: Node, node: Node, added: seq<Node>, block: NodeID, types: seq<Ty>)
  {
    var count, dynamics := |types|, DynamicIn(added, block, block + |types|);
    && TypesRead(th, added, block, types)
    && node == Sized(node0.(children := Some((block, block + count))), node0.dynamicSize + dynamics,
         dynamics + StaticIn(added, block, block + count))
  }

  ghost predicate PointerReads(th: Hierarchy, ty: Ty, d: seq<U64>, node0: Node, node: Node, added: seq<Node>)
  {
    if ty in th.knownDummyTypeList || ty !in th.pointerToTypeMap then node == node0 && added == []
    else if th.kind(th.pointerToTypeMap[ty]) == FunctionKind then
      added != [] && OfType(th, th.pointerToTypeMap[ty], added[|added| - 1]) && node == Adopted(node0, added[|added| - 1], true)
    else
      && d != []
      && var read := node0.(pointer := Some(d[0]));
      if th.kind(th.pointerToTypeMap[ty]) == VoidKind || (|d| > 1 && d[1] == SKIPPED) then node == read && added == []
      else
        && |d| > 1 && added != []
        && OfType(th, th.pointerToTypeMap[ty], added[|added| - 1]) && node == Adopted(read, added[|added| - 1], true)
  }

  ghost predicate TypedefReads(th: Hierarchy, ty: Ty, node0: Node, node: Node, added: seq<Node>)
  {
    if th.standardInteger(ty) then node == node0 && added == []
    else if ty !in th.typedefMap then node == node0.(isTypedef := true) && added == []
    else
      && added != []
      && OfType(th, th.typedefMap[ty], added[|added| - 1]) && node == Adopted(node0.(isTypedef := true), added[|added| - 1], false)
  }

  ghost predicate ContainerReads(config: Config, th: Hierarchy, rank: Ty -> nat, ty: Ty, d: seq<U64>, n0: NodeID,
                                 node0: Node, node: Node,
                                 added: seq<Node>)
    requires Ranked(th, rank) && ContainerType(config, th, ty)
  {
    var (kind, types) := ContainerElements(th, ty);
    ReadsAs(th, HeaderOf(kind, SizesIn(th, types), node0.staticSize, d), node0, node, added, n0, types, AllThrough(th, rank, types))
  }

  ghost predicate RecordReads(config: Config, th: Hierarchy, rank: Ty -> nat, ty: Ty, d: seq<U64>, n0: NodeID,
                              node0: Node, node: Node,
                              added: seq<Node>)
    requires Ranked(th, rank)
  {
    if ty in th.knownDummyTypeList then node == node0 && added == []
    else if ContainerType(config, th, ty) then ContainerReads(config, th, rank, ty, d, n0, node0, node, added)
    else
      match Selected(th, ty, d, node0)
      case None => false
      case Some(s) =>
        if s.0 !in th.classMembersMap || th.classMembersMap[s.0] == [] then node == s.1 && added == []
        else MembersRead(th, s.1, node, added, n0, MemberTypes(th.classMembersMap[s.0]))
  }

  /** What a node is, given its words, its children and the nodes below it. */
  ghost predicate NodeReads(config: Config, th: Hierarchy, rank: Ty -> nat, variable: Variable, d: seq<U64>,
                            n0: NodeID, id: NodeID, node: Node,
                            below: seq<Node>)
    requires Ranked(th, rank)
  {
    && th.size(variable.ty).Some?
    && var size := th.size(variable.ty).value;
       FillReads(config, th, rank, variable, d, n0, Node(id, size, 0, size, None, None, None, variable.isset, false, variable.ty), node, below)
  }

  ghost predicate FillReads(config: Config, th: Hierarchy, rank: Ty -> nat, variable: Variable, d: seq<U64>,
                            n0: NodeID, node0: Node, node: Node,
                            below: seq<Node>)
    requires Ranked(th, rank)
  {
    if variable.isStubbed then node == node0 && below == []
    else
      match th.kind(variable.ty)
      case PointerKind =>
        if config.chaseRawPointers then PointerReads(th, variable.ty, d, node0, node, below) else node == node0 && below == []
      case TypedefKind => TypedefReads(th, variable.ty, node0, node, below)
      case RecordKind => RecordReads(config, th, rank, variable.ty, d, n0, node0, node, below)
      case ArrayKind => RecordReads(config, th, rank, variable.ty, d, n0, node0, node, below)
      case _ => node == node0 && below == []
  }

  /**
   * A descendant that has no members, and that an object of a type may turn out to be of: its node gets its size, but
   * keeps the type's own as its exclusive size.
   */
  ghost predicate Fits(config: Config, th: Hierarchy, ty: Ty, i: nat)
    requires ty in th.descendantClasses && i < |th.descendantClasses[ty]|
  {
    var descendant := th.descendantClasses[ty][i];
    || th.kind(ty) !in {RecordKind, ArrayKind} || ty in th.knownDummyTypeList || ContainerType(config, th, ty)
    || (descendant in th.classMembersMap && th.classMembersMap[descendant] != [])
    || th.size(descendant).None? || th.size(ty).None? || th.size(descendant) == th.size(ty)
  }

  /** No word selects a descendant whose size is lost. */
  ghost predicate DescendantsFit(config: Config, th: Hierarchy)
  {
    forall ty, i :: ty in th.descendantClasses && 0 <= i < |th.descendantClasses[ty]| && i < NO_VALUE ==> Fits(config, th, ty, i)
  }

  lemma SelectedFits(config: Config, th: Hierarchy, ty: Ty, d: seq<U64>, node0: Node)
    requires DescendantsFit(config, th) && Selected(th, ty, d, node0).Some? && th.size(ty) == Some(node0.staticSize)
    requires th.kind(ty) in {RecordKind, ArrayKind} && ty !in th.knownDummyTypeList && !ContainerType(config, th, ty)
    requires var objectType := Selected(th, ty, d, node0).value.0;
             objectType !in th.classMembersMap || th.classMembersMap[objectType] == []
    ensures Selected(th, ty, d, node0).value.1.staticSize == node0.staticSize
  {
    hide ContainerType;
    if ty in th.descendantClasses && d[0] != NO_VALUE {
      assert Fits(config, th, ty, d[0]);
    }
  }

  /** Nodes without descendants own all of their memory. */
  ghost predicate LeavesBalance(config: Config, th: Hierarchy, rank: Ty -> nat)
    requires Ranked(th, rank)
  {
    forall variable, d, n0, id, node :: NodeReads(config, th, rank, variable, d, n0, id, node, []) ==>
      node.exclusiveSize == node.staticSize + node.dynamicSize
  }

  lemma ContainerLeaf(config: Config, th: Hierarchy, rank: Ty -> nat, ty: Ty, d: seq<U64>, n0: NodeID, node0: Node,
                      node: Node)
    requires Ranked(th, rank) && ContainerType(config, th, ty)
    requires ContainerReads(config, th, rank, ty, d, n0, node0, node, []) && node0.dynamicSize == 0
    ensures node.exclusiveSize == node.staticSize + node.dynamicSize
  {
    hide Ranked, HeaderOf, AllThrough, SizesIn, TypesRead;
    var types := ContainerElements(th, ty).1;
    var h := HeaderOf(ContainerElements(th, ty).0, SizesIn(th, types), node0.staticSize, d);
    if h.All? && !(AllThrough(th, rank, types) || h.stats.length * |types| == 0) {
      NoneRead(th, n0, Repeated(types, h.stats.length));
    }
  }

  lemma NoneRead(th: Hierarchy, block: NodeID, types: seq<Ty>)
    ensures TypesRead(th, [], block, types) ==> types == []
  {
    if types != [] {
      assert !HasTyped(th, [], block + 0, types[0]);
    }
  }

  lemma LeafOwns(config: Config, th: Hierarchy, rank: Ty -> nat, variable: Variable, d: seq<U64>, n0: NodeID,
                 id: NodeID, node: Node)
    requires Ranked(th, rank) && DescendantsFit(config, th) && NodeReads(config, th, rank, variable, d, n0, id, node, [])
    ensures node.exclusiveSize == node.staticSize + node.dynamicSize
  {
    hide Ranked, DescendantsFit, ContainerReads, ContainerType, TypesRead, PrimitiveThrough;
    var ty, size := variable.ty, th.size(variable.ty).value;
    var node0 := Node(id, size, 0, size, None, None, None, variable.isset, false, ty);
    if !variable.isStubbed && th.kind(ty) in {RecordKind, ArrayKind} && ty !in th.knownDummyTypeList {
      if ContainerType(config, th, ty) {
        ContainerLeaf(config, th, rank, ty, d, n0, node0, node);
      } else {
        var objectType := Selected(th, ty, d, node0).value.0;
        if objectType in th.classMembersMap && th.classMembersMap[objectType] != [] {
          NoneRead(th, n0, MemberTypes(th.classMembersMap[objectType]));
        } else {
          SelectedFits(config, th, ty, d, node0);
        }
      }
    }
  }

  lemma UnfitDrifts(config: Config, th: Hierarchy, rank: Ty -> nat, ty: Ty, i: nat)
    requires Ranked(th, rank) && ty in th.descendantClasses && i < |th.descendantClasses[ty]| && i < NO_VALUE
    requires !Fits(config, th, ty, i)
    ensures !LeavesBalance(config, th, rank)
  {
    hide Ranked, ContainerReads, ContainerType, MembersRead;
    var d: seq<U64>, size := [i], th.size(ty).value;
    var node0 := Node(0, size, 0, size, None, None, None, None, false, ty);
    var node := Selected(th, ty, d, node0).value.1;
    assert NodeReads(config, th, rank, Variable(ty, None, false), d, 0, 0, node, []);
  }

  /** Whatever words there are, nodes without descendants own their memory exactly if all selectable descendants fit. */
  lemma LeavesBalanceExactly(config: Config, th: Hierarchy, rank: Ty -> nat)
    requires Ranked(th, rank)
    ensures LeavesBalance(config, th, rank) <==> DescendantsFit(config, th)
  {
    hide Ranked, Fits, NodeReads;
    if DescendantsFit(config, th) {
      forall variable, d, n0, id, node | NodeReads(config, th, rank, variable, d, n0, id, node, [])
        ensures node.exclusiveSize == node.staticSize + node.dynamicSize
      {
        LeafOwns(config, th, rank, variable, d, n0, id, node);
      }
    } else {
      var ty, i :| ty in th.descendantClasses && 0 <= i < |th.descendantClasses[ty]| && i < NO_VALUE && !Fits(config, th, ty, i);
      UnfitDrifts(config, th, rank, ty, i);
    }
  }

  lemma ReadsType(config: Config, th: Hierarchy, rank: Ty -> nat, variable: Variable, d: seq<U64>, n0: NodeID,
                  node0: Node, node: Node,
                  below: seq<Node>)
    requires Ranked(th, rank) && FillReads(config, th, rank, variable, d, n0, node0, node, below) && node0.ty == variable.ty
    ensures OfType(th, variable.ty, node)
  {
    hide Ranked, HeaderOf, TypesRead, DynamicIn, StaticIn, AllThrough, ContainerElements, SizesIn;
  }

  /** What a container's node must look like after its words, with the first ID for its children. */
  ghost predicate ReadsAs(th: Hierarchy, h: Header, node0: Node, node: Node, added: seq<Node>, n0: NodeID,
                          types: seq<Ty>, primitive: bool)
  {
    match h
    case Failed(_) => false
    case Complete(_, pointer, stats, dynamicSize) =>
      node == Sized(node0.(pointer := pointer, containerStats := Some(stats)), dynamicSize, 0) && added == []
    case One(_, pointer, stats, index, adapts) =>
      && added != [] && index < |types| && OfType(th, types[index], added[|added| - 1])
      && var child := added[|added| - 1];
      var adopted := Adopted(node0.(pointer := pointer, containerStats := Some(stats)), child, false);
      node == if adapts then adopted.(containerStats := child.containerStats) else adopted
    case All(_, pointer, stats, _, _) =>
      ReadsAll(th, h, node0.(pointer := pointer, containerStats := Some(stats)), node, added, n0, types, primitive)
  }

  ghost predicate ReadsAll(th: Hierarchy, h: Header, node0: Node, node: Node, added: seq<Node>, n0: NodeID,
                           types: seq<Ty>, primitive: bool)
    requires h.All?
  {
    var own := Sized(node0, h.dynamicSize + if h.storedInline then 0 else h.stats.elementStaticSize * h.stats.capacity, 0);
    && h.stats.elementStaticSize * h.stats.capacity < CONTAINER_SIZE_THRESHOLD
    && if primitive || h.stats.length * |types| == 0 then node == own && added == []
       else MembersRead(th, own, node, added, n0, Repeated(types, h.stats.length))
  }

  /** Whichever container the words are stored for, that is what they say. */
  ghost predicate SaysContents(h: Header, kind: ContainerKind, sizes: seq<nat>, staticSize: nat, d: seq<U64>)
  {
    forall k, rest :: V.Held(k, kind, sizes) && d == V.WordsIn(k) + rest ==> V.Says(h, k, kind, sizes, staticSize)
  }

  lemma HeaderSays(kind: ContainerKind, sizes: seq<nat>, staticSize: nat, d: seq<U64>)
    ensures SaysContents(HeaderOf(kind, sizes, staticSize, d), kind, sizes, staticSize, d)
  {
    hide HeaderOf, V.Held, V.WordsIn, V.Says;
    forall k, rest | V.Held(k, kind, sizes) && d == V.WordsIn(k) + rest
      ensures V.Says(HeaderOf(kind, sizes, staticSize, d), k, kind, sizes, staticSize)
    {
      V.WordsSay(k, kind, sizes, staticSize, rest);
    }
  }

  lemma HeaderGroups(kind: ContainerKind, sizes: seq<nat>, staticSize: nat, d: seq<U64>)
    ensures HeaderOf(kind, sizes, staticSize, d) ==
            if kind == Unknown || kind == EnumMap then Failed(UnknownContainer)
            else if IsInline(kind) then InlineHeader(kind, sizes, Sum(sizes), d)
            else if IsPointer(kind) then PointerHeader(kind, sizes, Sum(sizes), d)
            else if IsBuffer(kind) then BufferHeader(kind, Sum(sizes), d)
            else if HasNodes(kind) then NodesHeader(kind, Sum(sizes), d)
            else if IsSmall(kind) then SmallHeader(kind, staticSize, Sum(sizes), d)
            else ElementsHeader(kind, Sum(sizes), d)
  {
    hide InlineHeader, PointerHeader, BufferHeader, NodesHeader, SmallHeader, ElementsHeader;
  }

  /**
   The node of a container with these contents: its pointer and its statistics are those of the container, it has a
   child for each type of each element unless they are all primitive, and its memory is that of the container and of its children.
   */
  ghost predicate ContentsBuilt(th: Hierarchy, rank: Ty -> nat, ty: Ty, k: V.Contents, node0: Node, node: Node,
                                added: seq<Node>, n0: NodeID)
    requires Ranked(th, rank) && (ty in th.containerTypeMap || th.kind(ty) == ArrayKind)
  {
    var (kind, types) := ContainerElements(th, ty);
    var sizes := SizesIn(th, types);
    && node.pointer == V.PointerIn(k)
    && if k.Adapter? || (k.Alternative? && k.index < |types|) then
         && added != [] && types != []
         && var child := added[|added| - 1];
            && OfType(th, types[if k.Adapter? then 0 else k.index], child)
            && node.children == Some((child.id, child.id + 1)) && node.dynamicSize == child.dynamicSize
            && node.containerStats == if k.Adapter? then child.containerStats else Some(V.StatsIn(k, kind, sizes))
       else
         var count := if k.Alternative? || AllThrough(th, rank, types) then 0 else V.ElementCount(k, kind) * |types|;
         && node.containerStats == Some(V.StatsIn(k, kind, sizes))
         && node.children == (if count == 0 then node0.children else Some((n0, n0 + count)))
         && node.dynamicSize == V.BytesIn(k, kind, sizes, node0.staticSize) + DynamicIn(added, n0, n0 + count)
  }

  /** Whichever container the words are stored for, the node is that of this container. */
  ghost predicate BuiltFromContents(th: Hierarchy, rank: Ty -> nat, ty: Ty, d: seq<U64>, node0: Node, node: Node,
                                    added: seq<Node>, n0: NodeID)
    requires Ranked(th, rank) && (ty in th.containerTypeMap || th.kind(ty) == ArrayKind)
  {
    var (kind, types) := ContainerElements(th, ty);
    forall k, rest :: V.Held(k, kind, SizesIn(th, types)) && d == V.WordsIn(k) + rest ==>
      ContentsBuilt(th, rank, ty, k, node0, node, added, n0)
  }

  lemma ReadsContents(config: Config, th: Hierarchy, rank: Ty -> nat, ty: Ty, d: seq<U64>, n0: NodeID, node0: Node,
                      node: Node,
                      added: seq<Node>)
    requires Ranked(th, rank) && ContainerType(config, th, ty) && ContainerReads(config, th, rank, ty, d, n0, node0, node, added)
    ensures BuiltFromContents(th, rank, ty, d, node0, node, added, n0)
  {
    hide Ranked, HeaderOf, V.Held, V.WordsIn, V.Says, ReadsAs, ContentsBuilt, SizesIn, AllThrough, ContainerElements;
    var (kind, types) := ContainerElements(th, ty);
    forall k, rest | V.Held(k, kind, SizesIn(th, types)) && d == V.WordsIn(k) + rest
      ensures ContentsBuilt(th, rank, ty, k, node0, node, added, n0)
    {
      V.WordsSay(k, kind, SizesIn(th, types), node0.staticSize, rest);
      var h := HeaderOf(kind, SizesIn(th, types), node0.staticSize, d);
      SaidIsBuilt(th, rank, ty, k, h, node0, node, added, n0);
    }
  }

  lemma SaidIsBuilt(th: Hierarchy, rank: Ty -> nat, ty: Ty, k: V.Contents, h: Header, node0: Node, node: Node,
                    added: seq<Node>, n0: NodeID)
    requires Ranked(th, rank) && (ty in th.containerTypeMap || th.kind(ty) == ArrayKind)
    requires var (kind, types) := ContainerElements(th, ty);
             && V.Says(h, k, kind, SizesIn(th, types), node0.staticSize)
             && ReadsAs(th, h, node0, node, added, n0, types, AllThrough(th, rank, types))
    ensures ContentsBuilt(th, rank, ty, k, node0, node, added, n0)
  {
    hide Ranked, SizesIn, AllThrough, ContainerElements, V.BytesIn, V.WordsIn, V.PointerIn, V.ElementBytes, TypesRead, OfType;
    SizesCount(th, ContainerElements(th, ty).1);
  }

  /** The statistics of a container play no part in the accounts. */
  lemma SameAccount(node: Node, stats: Option<Stats>, added: seq<Node>, a: Snapshot, b: Snapshot)
    requires FilledBetween(node, added, a, b)
    ensures FilledBetween(node.(containerStats := stats), added, a, b)
  {
  }

  lemma RootAccounts(node: Node, added: seq<Node>, a: Snapshot, b: Snapshot)
    requires WholeBetween(node, added, a, b) && a.next > 0 && node.id == a.next - 1
    ensures b.puts == a.puts + added && Ids(added) == Range(a.next - 1, b.next) && Kids(added) == Range(a.next, b.next)
    ensures Exclusive(added) == node.staticSize + node.dynamicSize + Discrepancy(a, b)
  {
    hide Range, Ids, Kids, Exclusive;
    RangeOne(node.id);
    RangeSplit(node.id, a.next, b.next);
  }

}
