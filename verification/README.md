# Object Introspection: a model and its proofs

Object Introspection compiles a C++ type into code that walks an object of that type, writes what it
finds into a compact data segment, and decodes the segment into a sized tree. This project models
the parts of that pipeline in which a mistake would not be seen in any single function, and proves
what the parts promise each other.

The files follow the program:

- `Machine`, `Leb128`: machine words, and the variable-length integers of the segment (the unsigned
  LEB128 of section 7.6 of the DWARF 5 standard), with the writers' and the reader's loops.
- `TypeGraph`, `Flattening`, `Inheritance`, `FlattenedOrder`, `Alignment`, `Padding`, `Layout`,
  `LayoutPasses`, `Transform`: the type graph as a map of nodes, the passes over it as depth-first
  visitors that update it in place, and the C layout rule of section 3.1.2 of the System V AMD64 psABI
  as an independent definition to compare with. Each pass has ghost state (nodes finished, nodes still
  in progress) so that its contract says what every node was made from, on cyclic graphs too;
  `Transform` runs them one after the other and states the result end to end.
- `ClassCodeGen`: the three generators for a class (static type, traversal, reader instructions) as
  loops that append tokens.
- `Instructions`, `Iterator`, `IteratorClass`, `Csv`: the reader's stack machine on values and as an
  object, against a recursive reading of trees; and the parent column of the CSV export.
- `ObjectModel`, `RoundTrip`, `PointerSet`, `HeapWalk`, `Traversal`, `Introspection`: objects of
  pointers, fixed arrays and classes; the bytes that the generated traversal writes; the set of
  pointers it remembers; and the whole way from an object to the elements and rows that come out.
- `DynamicTypes`, `Walker`: the type-directed stack machine against a recursive decoder.
- `DataSegment`: the older, untyped segment with its two sentinels and its overflow reporting.
- `TreeModel`, `TreeDecode`, `TreeBuilder`: the recursive decoder of that segment, with its node IDs and
  sizes: as a function of the words, and as an object that reads them.
- `TreeValues`, `TreeRoundTrip`: objects as values, with pointers, typedefs, classes and every kind of container;
  the words that the generated functions store for them; and the proof that decoding gives their tree.
- `TrapOverlay`, `ProbeProtocol`: breakpoints written over the target's text eight bytes at a time,
  and the protocol that lets one thread at a time run a probe.
- `Slabs`, `TypedefSort`: memory for generated code and its relocation; the order of typedefs.

Objects whose methods update their fields are classes here too; each method's contract ties the new
state to a function of the old one, and the lemmas are about those functions.

## What does not hold

Some promises are not kept by the code on all inputs. In each case the code was kept as it is, and
the condition under which it does keep the promise is proved:

- A segment that ends exactly at `dataSize` passes the decoder's size check but lacks its last
  sentinel, and is decoded only if its old last bytes stand in for it (`DataSegment.DecodesIffFits`);
  the comment above `decodeTargetData`'s loop speaks of MAX_INT where the code uses 123456789, and a
  list that contains that number comes back without it (`DataSegment.CollectedIsList`).
- The loop from `begin()` to `end()` stops only if the object takes up the whole buffer
  (`Iterator.LoopStopsIffAllRead`).
- A member's alignment stays unknown in some run of the alignment pass exactly if the member's class
  leads back to the member's owner, for example through a pointer (`Alignment.ResolvedFromAnywhere`, with
  a run in `Alignment.RunOnCycle`). The layout of such a class may then be lost: 24 bytes are declared
  for a class of 18 (`Transform.RunOnCycle`, `Transform.HolderGrows`). The same goes for a container whose class
  leads back to it (`Alignment.ContainerFromAnywhere`). Layouts are kept exactly if
  members sit at multiples of the alignments that the compiler gives them, sizes are multiples of the
  largest, or classes are packed, and gaps can be filled (`Transform.TransformKeepsLayout`).
- A class derived from one that is still in progress does not get what that one inherits. Some run
  loses members of a class exactly if it or an ancestor has a base that reaches it early, through its
  parameters, bases or members, and that inherits members itself (`Inheritance.ConservedFromAnywhere`,
  with a run in `Inheritance.RunOnChain`).
- Padding cannot fill a gap of eight bits or more that does not end on a byte (`Padding.PaddingTiles`), and then
  a member is out of place (`LayoutPasses.InPlaceFillable`).
- A packed class of which only padding is left is declared with an alignment that can make it larger
  (`LayoutPasses.StubKeepable`, `LayoutPasses.PackedStubGrows`).
- Traps that are put in out of order overwrite one another (`TrapOverlay.WrittenIsOverlaidExactly`).
- A trap that a later request puts less than eight bytes before an active one takes that breakpoint for
  original text, and may write it back when no trap is there any more. Removal in any order is safe
  exactly if no request does that (`TrapOverlay.Debugger.PatchFunctions`, `TrapOverlay.RemovalsSafeExactly`,
  with a run in `TrapOverlay.LeaveStaleBreakpoint`).
- Sending the main thread to a global variable is safe only while no other thread is being processed
  (`ProbeProtocol.GlobalSafeExactly`).
- A thread that exits while it holds the probe stays in the map, and keeps every other thread from being measured
  (`ProbeProtocol.OthersWait`).
- A relocated section keeps an alignment exactly if its slab is moved by a multiple of it
  (`Slabs.AlignmentKeptExactly`). As generated code starts 128 bytes into a page, sections aligned to 256
  bytes or more lose that alignment in every slab (`Slabs.LargerAlignmentLost`).
- Sorting typedefs does not end if they have a cycle (`TypedefSort.LoopEndsExactly`).
- Exclusive sizes in the tree add up to the root's size plus what was clamped, plus what is left over
  where a selected descendant class without members is smaller than the class it replaces
  (`TreeBuilding.TreeBuilder.Build`); nothing is left over exactly if all such classes have the size of the
  one they replace (`TreeBuilding.LeavesBalanceExactly`).

## Model

| member | source | states |
|---|---|---|
| `Leb128.EncodeVarintSize` | oi/FuncGen.cpp:219-231 | the counting loop returns the number of bytes that the encoding has |
| `Leb128.EncodeVarint` | oi/FuncGen.cpp:205-218 | the writing loop puts exactly the encoding into the buffer and changes no other byte |
| `Leb128.ParseVarint` | oi/exporters/ParsedData.cpp:65-74 | the reading loop returns the LEB128 number at the iterator, cut off at 64 bits, and stops right after it |
| `Leb128.ReadEncode` | oi/exporters/ParsedData.cpp:65-74 | reading what was written for any 64-bit word gives it back and leaves what follows |
| `Leb128.EncodeLength` | oi/FuncGen.cpp:219-231 | an encoding has at most k bytes exactly if the number is below 128 to the k |
| `Leb128.EncodeFitsTenBytes` | oi/FuncGen.cpp:205-231 | no 64-bit word needs more than ten bytes |
| `Leb128.EncodeIsShortest` | oi/FuncGen.cpp:205-218 | no other spelling of a number is shorter than its encoding |
| `Flattening.FlattenParent` | oi/type_graph/Flattener.cpp:42-65 | a base contributes its members, each moved by the base's offset and otherwise as it was, but for the first one, which takes over the alignment of the base if that is larger; a container, one member; an incomplete type, nothing; anything else throws |
| `Flattening.Merge` | oi/type_graph/Flattener.cpp:159-185 | the two-index loop yields the ordered merge of own members and base blocks, a base first at equal offsets, and fails exactly if a base has an invalid type |
| `Flattening.Flattener.Run` | oi/type_graph/Flattener.cpp:34-39 | on any graph, cyclic or not, every class reached ends up without bases and with the merge of its bases as they were at its turn: final ones, or unchanged ones that were still in progress, which all reach the class early; the node of the first root is in progress for everything that it reaches early; it throws exactly if it meets an invalid base |
| `Flattening.Flattener.Visit` | oi/type_graph/Flattener.cpp:112-206 | one visit finishes the node, and everything newly visited, keeps what was in progress open meanwhile, and flattens the node before its children are followed |
| `Flattening.EarlyFinished` | oi/type_graph/Flattener.cpp:138-146 | visited first, a class is still in progress when everything is flattened that it leads to through its parameters, bases and members |
| `Inheritance.MembersConserved` | oi/type_graph/Flattener.cpp:42-65 | a class flattened after its bases has its own members plus one copy of each ancestor's members for every path of inheritance, moved by the sum of the offsets on the path; nothing else |
| `Inheritance.MergedCopies` | oi/type_graph/Flattener.cpp:159-185 | the merge loses and adds nothing, as multisets of moved members |
| `Inheritance.AtMostTotal` | oi/type_graph/Flattener.cpp:159-191 | in every run a class gets at most the members it should have, and strictly fewer if it or an ancestor was merged with a base in progress that has something to inherit |
| `Inheritance.ConservedExactly` | oi/type_graph/Flattener.cpp:112-191 | a run conserves the members of a class exactly if that happened neither to it nor to an ancestor |
| `Inheritance.ConservedFromAnywhere` | oi/type_graph/Flattener.cpp:34-191 | from whichever types the pass is run the members of a class are conserved, exactly if neither it nor an ancestor has a base that reaches it early and itself inherits members; otherwise one of the runs made here loses some |
| `FlattenedOrder.FlattenedOrdered` | oi/type_graph/Flattener.cpp:159-191 | if own members and the members of bases do not overlap, the flattened members follow one another without overlapping up to the end of the class, own members in a base's tail padding included, and no bases remain; in runs that lose members too |
| `FlattenedOrder.MergedOrdered` | oi/type_graph/Flattener.cpp:159-185 | merging own members with blocks that are clear of them and of each other keeps all in order, with their lengths |
| `Inheritance.BaseAlignmentKept` | oi/type_graph/Flattener.cpp:46-54 | the alignment of a base lives on in the first of its members |
| `Inheritance.RunOnChain` | oi/type_graph/Flattener.cpp:34-39 | a run on three classes, started at the one in the middle, that leaves the derived class without the member of its base's base |
| `Alignment.CalcMembers` | oi/type_graph/AlignmentCalc.cpp:53-71 | the loop fills in missing member alignments, returns their maximum, and marks the class packed exactly if it was or a member is not at a multiple of its alignment |
| `Alignment.AlignmentCalc.Run` | oi/type_graph/AlignmentCalc.cpp:36-48 | every node reached was made once, from the final alignments of the nodes finished before it and the initial ones of the nodes in progress; those in progress all lead to it; the node of a single root is in progress all the time |
| `Alignment.AlignmentCalc.Visit` | oi/type_graph/AlignmentCalc.cpp:50-85 | one visit leaves everything newly visited finished, and was in progress itself whenever one of them was; what finished classes and containers are is said by FinishedClass, ContainerTakes and ContainerStays |
| `Alignment.ResolvedWithoutWayBack` | oi/type_graph/AlignmentCalc.cpp:50-77 | a node is made from final alignments, from whichever roots the pass starts, if no type stored in it by value leads back to it |
| `Alignment.FinishedHasAlignment` | oi/type_graph/AlignmentCalc.cpp:53-71 | a finished class always has an alignment |
| `Alignment.FinishedClass` | oi/type_graph/AlignmentCalc.cpp:50-77 | a finished class keeps all but alignments and the packed flag; its alignment is the largest of its members' or 1, if it was not given; members keep a given alignment, and those whose type is no class or container get that of the type; and it is packed exactly if it was, or has alignment 1, or a size that is no multiple of its alignment, or a member that is not at a multiple of its own |
| `Alignment.ContainerTakes` | oi/type_graph/AlignmentCalc.cpp:79-85 | a container that its underlying type does not lead back to has the final alignment of that type, and nothing else of it changes |
| `Alignment.ContainerStays` | oi/type_graph/AlignmentCalc.cpp:79-85 | a container without an underlying type is left as it was |
| `Alignment.ContainerFromAnywhere` | oi/type_graph/AlignmentCalc.cpp:36-85 | from whichever types the pass is run a container gets the alignment of its underlying class, exactly if that class does not lead back to the container; otherwise the run made here leaves it without one |
| `Alignment.MemberOfContainer` | oi/type_graph/AlignmentCalc.cpp:56-85 | a by-value member whose type is such a container gets the alignment of the container's underlying class, from whichever types the pass is run |
| `Alignment.ResolvedExactly` | oi/type_graph/AlignmentCalc.cpp:56-61 | a member of class type gets its type's final alignment exactly if that class was not in progress; otherwise it stays unknown |
| `Alignment.UnresolvedFromOwner` | oi/type_graph/AlignmentCalc.cpp:56-61 | in a pass that starts at a class, a member of that class type in any class that it leads to never gets its alignment |
| `Alignment.ResolvedFromAnywhere` | oi/type_graph/AlignmentCalc.cpp:36-77 | from whichever types the pass is run a member gets the alignment of its class, exactly if that class does not lead back to the member's owner; otherwise the run made here leaves it without one |
| `Alignment.RunOnCycle` | oi/type_graph/AlignmentCalc.cpp:36-77 | a run on two classes that lead to each other, and the alignments that it leaves |
| `Alignment.VisitedReached` | oi/type_graph/Visitor.h:78-97 | the pass visits everything that a visited node leads to |
| `Padding.AddGap` | oi/type_graph/AddPadding.cpp:112-140 | a gap becomes a bit-field for the bits that do not make up bytes and an array of bytes for the rest, with 64-bit wrap-around of its length |
| `Padding.PadStruct` | oi/type_graph/AddPadding.cpp:71-90 | the index loop puts each gap's padding before its member and pads up to the size of the class |
| `Padding.PadUnion` | oi/type_graph/AddPadding.cpp:59-69 | a union is padded only if no member fills it |
| `Padding.AddPadding.Run` | oi/type_graph/AddPadding.cpp:38-44 | every class reached is padded exactly once, using sizes that padding does not change, and nothing outside a closed part of the graph is touched |
| `Padding.AddPadding.Visit` | oi/type_graph/AddPadding.cpp:48-95 | one visit pads the node and everything newly visited; a union is left before its children |
| `Padding.PaddingTiles` | oi/type_graph/AddPadding.cpp:71-140 | for ordered members the padded list tiles the class, without gap or overlap, exactly if every gap ends on a byte or is shorter than eight bits |
| `Padding.PaddingTwice` | oi/type_graph/AddPadding.cpp:71-140 | padding again changes nothing |
| `Padding.UnionPaddingTwice` | oi/type_graph/AddPadding.cpp:59-69 | padding a union again changes nothing, whatever its members |
| `Padding.PaddingKeepsMembers` | oi/type_graph/AddPadding.cpp:71-90 | the class's own members survive, unchanged and in order |
| `Layout.KeepsLayoutExactly` | oi/CodeGen.cpp:353-383 | a tiled class laid out by the C rule has every member at its recorded bit and its recorded size exactly if it is not empty, its members fit their alignments or it is packed, and its size is a multiple of its alignment |
| `Layout.MemberAlignDivides` | oi/type_graph/AlignmentCalc.cpp:50-77 | the alignment that the compiler gives a member's type divides the recorded alignment of the class and, unless packed, the member's offset, through all nested classes |
| `Layout.SitsWhenKeepable` | oi/CodeGen.cpp:399-412 | where alignments are known, a declared class sits as it should exactly if it has members, no bit-field of an unpacked class crosses a storage unit, and a stub's size is a multiple of its alignment |
| `Layout.LayoutPreserved` | oi/CodeGen.cpp:399-412 | if all classes are tiled and sit as they should, sizes and offsets in C are the recorded ones however deeply classes are nested by value |
| `Layout.LayoutKeptExactly` | oi/CodeGen.cpp:399-412 | all layouts are kept if and only if every class is tiled and, by the compiler's own alignments, has its members at multiples of theirs or is packed, and has a size that is a multiple of its alignment; nothing is asked of the recorded alignments |
| `Layout.LayoutPreservedExactly` | oi/CodeGen.cpp:399-412 | where alignments are known, all layouts are kept if and only if every class is tiled and keepable |
| `LayoutPasses.KeepOrdered` | oi/type_graph/RemoveMembers.cpp:63-69 | taking members out leaves the others in order |
| `LayoutPasses.RemovedExactly` | oi/type_graph/RemoveMembers.cpp:46-71 | nothing is left of a union; a structure keeps each of its members, as often as it was there, unless the member is ignored or of an incomplete type |
| `LayoutPasses.PaddedTilesExactly` | oi/type_graph/AddPadding.cpp:48-95 | the padded members of a class tile it exactly if its gaps can be filled |
| `LayoutPasses.InPlaceFillable` | oi/type_graph/AddPadding.cpp:112-140 | a gap that cannot be filled puts a member out of place in C, whatever the alignments |
| `LayoutPasses.PassesKeepLayout` | oi/CodeGen.cpp:399-412 | after the padding pass, with no assumption about alignments, the C layout of all declared classes is the recorded one exactly if the gaps of each can be filled and its members sit as they should |
| `LayoutPasses.PaddedKnown` | oi/type_graph/AlignmentCalc.cpp:50-77 | in a class made from final alignments every member's alignment is known, is at most the class's, and is observed unless the class is packed, also after removal and padding |
| `LayoutPasses.PassesPrepare` | oi/CodeGen.cpp:1277-1310 | classes made from final alignments, with members removed and others padded, satisfy what the theorem about known alignments asks for |
| `LayoutPasses.PassesPreserveLayout` | oi/CodeGen.cpp:399-412 | such a class sits as it should exactly if it is keepable |
| `LayoutPasses.StubKeepable` | oi/CodeGen.cpp:363-372 | a class that loses all its members keeps its layout exactly if its size is a multiple of its alignment |
| `LayoutPasses.PackedStubGrows` | oi/CodeGen.cpp:363-372 | a concrete packed class of nine bytes that is declared as one of sixteen |
| `Transform.MemberOrigin` | oi/type_graph/Flattener.cpp:42-65 | every flattened member is a member of the class or of an ancestor, moved by whole bytes, in every run |
| `Transform.FlatClosed` | oi/CodeGen.cpp:1278-1279 | the graph that flattening leaves refers to nothing outside itself, so the alignment pass can follow |
| `Transform.RemovedFlattened` | oi/CodeGen.cpp:1301-1310 | what comes to the padding pass has no bases, and leads only to what the earlier passes have visited |
| `Transform.Run` | oi/CodeGen.cpp:1278-1310 | the four passes in turn on one graph, each contract the condition of the next; it fails only if some class cannot be flattened |
| `Transform.TransformKeepsLayout` | oi/CodeGen.cpp:1278-1310 | end to end, from the graph of the debug information to declared structures: the C layout of all of them is the recorded one exactly if the gaps of each can be filled and its members sit as they should by the compiler's alignments |
| `Transform.KeepableWithoutWayBack` | oi/CodeGen.cpp:1278-1310 | end to end, when no by-value member leads back to its class and no alignment is given explicitly, members sit as they should exactly if the class is keepable |
| `Transform.PowersOnly` | oi/type_graph/AlignmentCalc.cpp:50-85 | when no alignment is given to a class, and neither by-value members nor what containers are made of lead back, every alignment that the pass works out is a power of two, also that of a container |
| `Transform.RunOnCycle` | oi/CodeGen.cpp:1278-1310 | a run of all passes on two classes that lead to each other, and what it declares |
| `Transform.HolderGrows` | oi/CodeGen.cpp:399-412 | the compiler makes 24 bytes of the second of those classes, where 18 were recorded |
| `ClassCodeGen.GetLastNonPaddingMemberIndex` | oi/CodeGen.cpp:664-671 | the backward loop finds the last member that is not padding, or wraps to the largest index if there is none |
| `ClassCodeGen.GenClassStaticType` | oi/CodeGen.cpp:740-787 | the emitted tokens, closing brackets counted separately, can be parsed as right-nested pairs of just the members that are not padding, in order; each has an integer of its own before it exactly if there is an isset member and it is another one, and there are no other integers; a class of padding only spells the unit type |
| `ClassCodeGen.ParsePrint` | oi/CodeGen.cpp:740-787 | the spelling of a type can be parsed back, so its brackets balance and it denotes one type only |
| `ClassCodeGen.GenClassTraversalFunction` | oi/CodeGen.cpp:679-732 | the emitted chain of write, delegate and consume stores the same members in the same order, an isset value before exactly those that are not the isset member, numbers the isset values in turn, and reduces the static type exactly to the unit type |
| `ClassCodeGen.GenClassTreeBuilderInstructions` | oi/CodeGen.cpp:789-868 | the reader's fields are the members that are not padding, in order, with an isset value exactly for those that are not the isset member, and their declared number is right |
| `ClassCodeGen.FieldsReadSlots` | oi/CodeGen.cpp:816-863 | the fields read, one by one, exactly the slots of the static type, isset value first |
| `ClassCodeGen.SlotsLaw` | oi/CodeGen.cpp:756-768 | what is stored for a class: each member that is not padding once, in order, with an integer before it exactly if there is an isset member and it is another one |
| `ClassCodeGen.IntegersCounted` | oi/CodeGen.cpp:762-768 | with an isset member that is stored there is one integer less than there are members, and without one there is none |
| `Iterator.IncrementEmits` | oi/IntrospectionResult.cpp:36-110 | one increment from any stack emits the root of the first pending tree, with the path of its ancestors, and leaves its children and the rest pending |
| `Iterator.IncrementEnds` | oi/IntrospectionResult.cpp:36-110 | when no tree is pending an increment restores the path, drains the stack and ends the iteration |
| `Iterator.RunEmits` | oi/IntrospectionResult.cpp:36-110 | after k increments exactly the first k elements of the pre-order have been emitted |
| `Iterator.RunEnds` | oi/IntrospectionResult.cpp:38-44 | one increment more than there are elements ends the iteration, and further ones change nothing |
| `Iterator.EndedRunReads` | oi/IntrospectionResult.cpp:36-110 | conversely, every run that comes to an end is the reading of some forest from the data |
| `Iterator.EndsIffReadable` | oi/IntrospectionResult.cpp:36-110 | iteration comes to an end exactly if the data can be read as a forest by the recursive definition |
| `Iterator.IncrementStaysOwned` | oi/IntrospectionResult.cpp:54-57 | an entry of the path of generated names belongs to a level that is still open |
| `Iterator.IncrementOwns` | oi/IntrospectionResult.cpp:50-97 | a generated name is owned for as long as an entry of the path shows it, and no longer: exactly the entries that were generated are owned, after every increment |
| `Instructions.VisitNames` | oi/IntrospectionResult.cpp:86-141 | an element whose handlers leave a number is named, as is the last entry of its path, by an opening bracket, decimal digits for that number without leading zeros, and a closing bracket; a string or a pointer in brackets likewise; without data the path ends in the field's name |
| `Instructions.NumbersDiffer` | oi/IntrospectionResult.cpp:129-133 | elements for different numbers have different names |
| `Iterator.IncrementShows` | oi/IntrospectionResult.cpp:61-110 | an increment shows an element exactly if it meets a field, the next one on the stack past names to pop and repeats that are used up, under the name that belongs to its data |
| `Iterator.FieldsFirst` | oi/IntrospectionResult.cpp:84-101 | an element's own fields are met next, in order, before anything that its handlers have pushed |
| `Iterator.LoopStopsIffAllRead` | include/oi/IntrospectionResult-inl.h:87-103 | the loop until the end iterator shows each element once and stops after the last one exactly if the tree takes up the whole buffer |
| `ResultIterator.ConstIterator.PlusPlus` | oi/IntrospectionResult.cpp:36-110 | the object's increment does to its fields what the step function does to the state, and fails exactly where the source is undefined; the element that it shows has the name that belongs to its data |
| `ResultIterator.ConstIterator.Process` | oi/IntrospectionResult.cpp:84-87 | the processors are run in order, each on the data that the one before left |
| `ResultIterator.ConstIterator.Equals` | include/oi/IntrospectionResult-inl.h:87-100 | equality compares the data first, then whether both have ended, then the increments |
| `Csv.RowsOfForest` | oi/exporters/CSV.cpp:65-102 | for any forest at any depth, popping the stack of IDs by path length numbers each element below its parent's ID |
| `Csv.Printer.PrintElement` | oi/exporters/CSV.cpp:67-101 | one row is printed with the next ID and the ID that the trimmed stack holds |
| `Csv.Printer.Print` | oi/exporters/CSV.cpp:61-103 | one row for each node in pre-order, whose parent column is the ID of the node's parent in the tree |
| `PointerSet.PointerHashSet.Initialize` | oi/OITraceCode.cpp:73-76 | the set is empty afterwards |
| `PointerSet.PointerHashSet.Add` | oi/OITraceCode.cpp:84-105 | for any hash, true exactly for a pointer that is not null and not present while there is room; the set then gains it and nothing else changes; probing ends on a full table too |
| `PointerSet.PointerHashSet.Size` | oi/OITraceCode.cpp:107-109 | the counter is the cardinality of the set |
| `PointerSet.PointerHashSet.Capacity` | oi/OITraceCode.cpp:111-113 | the capacity bounds the cardinality |
| `PointerSet.NotBehindEmpty` | oi/OITraceCode.cpp:89-104 | a pointer whose probe sequence meets an empty slot first is not in the table |
| `PointerSet.Inserted` | oi/OITraceCode.cpp:93-97 | storing a new pointer where its probe sequence ends keeps every entry reachable and distinct |
| `HeapWalk.Walk` | oi/FuncGen.cpp:268-283 | on any heap, cyclic or not, the traversal ends, follows each address at most once and the root never again, follows fewer addresses than the capacity, and, unless the table fills up, exactly those that the root reaches |
| `HeapWalk.PointerWalk.Follow` | oi/FuncGen.cpp:702-722 | a pointer is followed exactly if it can be added, and traversing it only adds pointers that are then followed |
| `HeapWalk.OnlyReachable` | oi/FuncGen.cpp:702-722 | everything remembered is reachable from the root, and everything reachable is remembered while there is room |
| `Traversal.TypeHandler.WriteVarInt` | include/oi/types/st.h:119-145 | the writer appends the encoding |
| `Traversal.TypeHandler.WritePointer` | oi/FuncGen.cpp:702-722 | a pointer is written with its value, a tag that says whether it was followed, and its pointee if so |
| `Traversal.TypeHandler.WriteAllItems` | oi/FuncGen.cpp:745-753 | an array's items are written in order, pointers met in one being known to the next |
| `Traversal.TypeHandler.RunChain` | oi/CodeGen.cpp:679-732 | running the generated chain writes each slot of the class in turn |
| `Traversal.TypeHandler.GetSizeType` | oi/FuncGen.cpp:702-753 | traversing any object appends exactly the bytes of the recursive definition and remembers exactly its pointers |
| `RoundTrip.PointerContentIsRead` | oi/FuncGen.cpp:648-663 | the sum's processor reports capacity one, length one only if followed, and asks for the pointee only then |
| `RoundTrip.ArrayHeadIsRead` | oi/FuncGen.cpp:754-767 | the list's processor asks for as many items as the array has |
| `RoundTrip.IssetIsRead` | oi/CodeGen.cpp:1124-1138 | the isset processor reports 0 and 1 as what they are, and nothing for 2 |
| `RoundTrip.IssetIsReported` | oi/CodeGen.cpp:878-888 | a member's element says whether it is set exactly if it has an isset value and that is known |
| `RoundTrip.NodeIsRead` | oi/FuncGen.cpp:643-723 | reading the bytes of any object, with anything after them, yields the tree of its elements and leaves what follows |
| `RoundTrip.MembersAreRead` | oi/CodeGen.cpp:816-863 | the fields of a class read back its members, isset values included |
| `Introspection.Introspect` | oi/FuncGen.cpp:254-284 | the buffer holds exactly the bytes of the object, its own address being known from the start |
| `Introspection.SegmentIsRead` | oi/IntrospectionResult.cpp:36-110 | reading an introspected segment takes all of it and yields the object |
| `Introspection.IterationShowsObject` | include/oi/IntrospectionResult-inl.h:44-57 | iterating from begin to end shows exactly the object's elements in pre-order and stops after the last one |
| `Introspection.ProgramLeavesPathAlone` | oi/FuncGen.cpp:643-663 | no handler pushes an instruction that would disturb the path |
| `Introspection.SegmentIsTyped` | oi/exporters/TypeCheckingWalker.cpp:25-76 | the bytes written for an object are the words of a value of the type that the walker is given |
| `Introspection.ExportCsv` | oi/exporters/CSV.cpp:61-103 | from an object to rows: one for each of its nodes, with the ID of its parent |
| `Walker.TypeCheckingWalker.PopFront` | oi/exporters/TypeCheckingWalker.h:66-73 | takes the first word, or throws on an empty buffer |
| `Walker.TypeCheckingWalker.Advance` | oi/exporters/TypeCheckingWalker.cpp:25-76 | one step takes exactly the next event, or the exception, off what the recursive decoder would produce |
| `Walker.WalkAll` | oi/exporters/TypeCheckingWalker.cpp:25-76 | advancing until nothing is left yields the recursive decoder's trace: its events, its remainder and its exception |
| `Walker.DecodeSucceedsIff` | oi/exporters/TypeCheckingWalker.cpp:25-76 | the walk succeeds exactly if the buffer starts with the words of a value of the type |
| `Walker.DecodeAccounts` | oi/exporters/TypeCheckingWalker.cpp:63-70 | writing the events out again gives back what was consumed; the end of data is reported only when all was consumed, and an index only if it is out of range |
| `DataSegment.Segment.StoreData` | oi/FuncGen.cpp:238-248 | the offset advances by the size of the encoding; the bytes are written only if they end below the limit |
| `DataSegment.StoreManyIs` | oi/FuncGen.cpp:238-248 | after any list of values the offset is the exact total, the values that fit are in place, and no other byte has changed |
| `DataSegment.Segment.GetSize` | oi/FuncGen.cpp:331-348 | the reported size is exact whether or not the data fits, and no byte from the last one of the segment on is written |
| `DataSegment.DecodeTargetData` | oi/OIDebugger.cpp:2742-2821 | accepts exactly a right identifier, cookie and size whose bytes decode up to two sentinels, and returns four zeros and the values; for a size below that of the header the length wraps around, as in the source |
| `DataSegment.DecodeEncoded` | oi/OIDebugger.cpp:2797-2818 | from the encoding of a list and two sentinels the decoder gets what it collects from the list |
| `DataSegment.CollectedIsList` | oi/OIDebugger.cpp:2810-2817 | that is the list itself exactly if the sentinel is not one of its values |
| `DataSegment.LastSentinelIsLost` | oi/FuncGen.cpp:240-247 | if the data ends exactly at the limit, its last sentinel is the one value not stored |
| `DataSegment.DecodeOneSentinel` | oi/OIDebugger.cpp:2797-2818 | with one sentinel lost, what the decoder returns is the values and whatever the following bytes decode to |
| `DataSegment.DecodesIffFits` | oi/OIDebugger.cpp:2765-2818 | whatever the memory held, the round trip succeeds exactly if the sentinel is not a value and the data fits strictly, or fits exactly and the old last bytes decode to a second sentinel at once |
| `TreeBuilding.TreeBuilder.Next` | oi/TreeBuilder.cpp:372-378 | the next word, or the end of data |
| `TreeBuilding.TreeBuilder.ReadHeader` | oi/TreeBuilder.cpp:640-878 | for every kind of container, whatever container the words were stored for, they are read as its pointer, length, capacity, element size and memory, and the index moves past just these words |
| `TreeModel.HeaderProgress` | oi/TreeBuilder.cpp:640-878 | only a pair goes on to elements without a word having been read |
| `TreeBuilding.TreeBuilder.SetSize` | oi/TreeBuilder.cpp:414-426 | exclusive size is own plus dynamic size without the members', or zero if that would be negative |
| `TreeBuilding.TreeBuilder.Process` | oi/TreeBuilder.cpp:428-583 | for any words and types of well-founded nesting it ends, with exactly the node, the stored nodes, the next ID and the words left, or the error, of the recursive decoding, in which each child takes up the words where the one before it stopped; the IDs allocated are each used once, each is the child of one node, and exclusive sizes add up to the node's size plus what was clamped plus what a selected descendant left over |
| `TreeDecoding.DecodeLocal` | oi/TreeBuilder.cpp:428-583 | decoding depends on the words that it takes only: more words after the data change nothing but what is left, unless the data came to an end too early |
| `TreeDecoding.HeaderLocal` | oi/TreeBuilder.cpp:640-878 | so does what a container's words say |
| `TreeBuilding.TreeBuilder.ProcessPointer` | oi/TreeBuilder.cpp:446-474 | a pointer is followed exactly if it is not known to be incomplete and the target says so; it then owns all of its pointee's memory |
| `TreeBuilding.TreeBuilder.ProcessTypedef` | oi/TreeBuilder.cpp:475-495 | a typedef has its target as only child and takes over its dynamic size, unless it is a standard integer |
| `TreeBuilding.TreeBuilder.SelectType` | oi/TreeBuilder.cpp:504-518 | a dynamic class is replaced, with its size, by the descendant whose index comes first in its words |
| `TreeBuilding.TreeBuilder.ProcessMembers` | oi/TreeBuilder.cpp:520-556 | the members take up one block of IDs, each child there is of its member's type or derived from it, and the class's dynamic size is the sum of theirs |
| `TreeBuilding.TreeBuilder.ProcessContainer` | oi/TreeBuilder.cpp:585-929 | whatever container the words were stored for, the node has its pointer and statistics, a child for each type of each element unless they are all primitive, and the memory for its capacity, unless that is inline, plus that of its children |
| `TreeBuilding.TreeBuilder.ProcessAll` | oi/TreeBuilder.cpp:880-910 | a container over the threshold is refused, whatever its elements |
| `TreeBuilding.TreeBuilder.ProcessElements` | oi/TreeBuilder.cpp:912-928 | one block of IDs with a child of each element type for each element, in turn, whose sizes are added to the container's own |
| `TreeBuilding.TreeBuilder.IsPrimitive` | oi/TreeBuilder.cpp:397-405 | looks through any chain of typedefs |
| `TreeBuilding.TreeBuilder.Build` | oi/TreeBuilder.cpp:225-274 | whatever object the words were stored for, the nodes put in the store are those of its tree; the IDs used by a build are exactly the next ones, the root first; the total of exclusive sizes is the size of the root plus what was clamped, exactly, if all selectable descendants fit; a failed build is recorded as such |
| `TreeModel.IdsUsedOnce` | oi/TreeBuilder.cpp:526-528 | exactly the IDs of the allocated range are used, each by one node |
| `TreeModel.ChildrenPartition` | oi/TreeBuilder.cpp:912-915 | the ranges of children partition the allocated IDs |
| `TreeModel.StoredFinds` | oi/TreeBuilder.cpp:574-582 | every node put in the store is found there under its ID |
| `TreeModel.ChildAdded` | oi/TreeBuilder.cpp:534-555 | processing one more child keeps the accounts of a block: IDs, children and sizes |
| `TreeModel.OneInBlock` | oi/TreeBuilder.cpp:547-554 | of a child and everything below it, only the child itself lies in its parent's block |
| `TreeBuilding.LeavesBalanceExactly` | oi/TreeBuilder.cpp:504-523 | whatever the words, nodes without descendants own exactly their memory if and only if every selectable class without members has the size of the class it replaces |
| `TreeValues.WordsSay` | oi/TreeBuilder.cpp:640-878 | for every kind of container: the words stored for it (pointer, capacity and length for a vector, and so on) say its pointer, length and capacity, the memory for an element with its node, and the memory outside it, which is that for its capacity unless it is stored inline |
| `TreeValues.SizesAddUp` | oi/TreeBuilder.cpp:636-638 | the sizes of the types of an element are added up, and the largest alternative of a variant is one of them |
| `TreeRoundTrip.Builds` | oi/TreeBuilder.cpp:428-583 | round trip for any object of any type, through pointers, typedefs, classes with isset values or descendants, and containers: decoding the words that are stored for it gives the tree of the object, node by node with IDs, sizes, pointers and statistics, takes no word more, and continues the IDs after its nodes |
| `TreeRoundTrip.TruncatedFails` | oi/TreeBuilder.cpp:372-378 | if any number of words are missing at the end of what is stored for an object, decoding fails because the data has come to an end |
| `TreeRoundTrip.StoredApart` | oi/CodeGen.cpp:450-475 | what is stored for an object is never the beginning of what is stored for another one of the same type, unless both have the same node |
| `TreeRoundTrip.ContainerIsBuilt` | oi/TreeBuilder.cpp:585-929 | a container's node, in terms of the container: pointer, length, capacity, element size, one child for each type of each element that is not primitive, and memory |
| `TreeRoundTrip.TooLargeIsRefused` | oi/TreeBuilder.cpp:887-896 | a container whose capacity takes too much memory is refused, whatever its words are followed by |
| `TreeRoundTrip.PointerIsBuilt` | oi/TreeBuilder.cpp:466-472 | a pointer that was followed owns its pointee's static and dynamic size, and itself no more than its own size |
| `TreeRoundTrip.TypedefIsBuilt` | oi/TreeBuilder.cpp:487-494 | a typedef has the dynamic size of its target only |
| `TreeRoundTrip.PrimitiveExactly` | oi/TreeBuilder.cpp:397-405 | elements are taken for primitive exactly if a chain of typedefs leads from their type to a primitive one |
| `TrapOverlay.Debugger.FunctionPatch` | oi/OIDebugger.cpp:1474-1579 | fails, changing nothing, exactly if some text cannot be read; otherwise writes traps made from the text as it is, keeps those that are there, leaves a breakpoint at each trap and the original elsewhere exactly if none is clobbered, and leaves all traps with the original text exactly if none is put close before an active one |
| `TrapOverlay.Debugger.PatchFunctions` | oi/OIDebugger.cpp:101-124 | over any number of requests: removal in any order is safe afterwards exactly if no request has put a trap close before one of an earlier request |
| `TrapOverlay.EmplacedRemember` | oi/OIDebugger.cpp:1480-1509 | new traps remember the original exactly if no breakpoint was active within the eight bytes from one of them |
| `TrapOverlay.WrittenIsOverlaid` | oi/OIDebugger.cpp:1563-1576 | writes in which no trap is clobbered leave exactly the overlay of what was read |
| `TrapOverlay.WrittenIsOverlaidExactly` | oi/OIDebugger.cpp:1563-1576 | that is exactly the condition: a trap is lost if a later one is put in within the eight bytes before it and it is not put in again |
| `TrapOverlay.AscendingIsSafe` | oi/OIDebugger.cpp:1563-1576 | traps put in at ascending addresses are never clobbered |
| `TrapOverlay.Debugger.RemoveTrap` | oi/OIDebugger.cpp:1873-1909 | each of the eight bytes becomes what the trap remembers, or the patched text of the last neighbour before it; if all traps remember the original, one breakpoint goes and no other byte changes |
| `TrapOverlay.CopiesNeighbour` | oi/OIDebugger.cpp:1884-1895 | copying one more neighbour's patched bytes makes the bytes before it final |
| `TrapOverlay.RemovedIntact` | oi/OIDebugger.cpp:1873-1909 | when all traps remember the original, removing one leaves breakpoints exactly at the others, however closely they follow one another |
| `TrapOverlay.RemovalsSafeExactly` | oi/OIDebugger.cpp:1873-1909 | all orders of removal keep breakpoints exactly at the traps that are left, if and only if all traps remember the original |
| `TrapOverlay.Debugger.RemoveInTurn` | oi/OIDebugger.cpp:1233-1234 | any sequence of removals does what its definition on values does, and keeps the overlay if all traps remember the original |
| `TrapOverlay.Debugger.RemoveTraps` | oi/OIDebugger.cpp:1845-1863 | each byte is last written by the nearest trap before it; the text is the original exactly if that trap remembers it, so always when no remembered breakpoint has been removed before; only the traps of the generated code are left |
| `TrapOverlay.RestoredExactly` | oi/OIDebugger.cpp:1845-1863 | writing everything back restores the original if and only if every byte is last written by a trap that remembers it |
| `TrapOverlay.LeaveStaleBreakpoint` | oi/OIDebugger.cpp:101-124 | a run of two requests and two removals that leaves a breakpoint where no trap is active, for any two addresses less than eight bytes apart |
| `ProbeProtocol.Debugger.CanProcessTrapForThread` | oi/OIDebugger.cpp:950-965 | yes if nobody is being processed, or this thread is |
| `ProbeProtocol.Debugger.ProcessFuncTrap` | oi/OIDebugger.cpp:643-764 | an entry that belongs to a return only marks the thread; any other trap also sends it to the generated code; nothing happens if the objects cannot be located; EntersExactly says what that comes to over a run |
| `ProbeProtocol.Debugger.ProcessJitCodeRet` | oi/OIDebugger.cpp:766-847 | the thread is released and the probe is done the first time, or when interrupted |
| `ProbeProtocol.Debugger.ProcessTrap` | oi/OIDebugger.cpp:1124-1256 | each stop of a thread is one step of the protocol, and keeps it safe |
| `ProbeProtocol.NextSafe` | oi/OIDebugger.cpp:1205-1256 | every step keeps: at most one thread in the map, only that one in the generated code, and the log in order |
| `ProbeProtocol.RunSafe` | oi/OIDebugger.cpp:950-965 | over any run, with any number of threads: between the acquisitions of two threads the first one releases the probe, and each trap is removed once |
| `ProbeProtocol.NextAccounted` | oi/OIDebugger.cpp:1205-1256 | after every step the map of threads, the active traps, the threads in the generated code and the count are what the traps put in place and the events so far make them, and each event was permitted by those before it |
| `ProbeProtocol.EntersExactly` | oi/OIDebugger.cpp:713-754 | over any run a thread enters the generated code exactly after it came to a trap at a function's entry or return that is to be measured there, and acquired the probe |
| `ProbeProtocol.EntersOnReturn` | oi/OIDebugger.cpp:713-734 | a thread that acquired the probe at an entry that belongs to a return enters only once it has come to another trap, which is to be measured there |
| `ProbeProtocol.AcquiresAndReleases` | oi/OIDebugger.cpp:766-847 | the probe is acquired only at a trap of a function that is still in place, while nobody else holds it; it is released only by its holder, and by a holder that comes to the end of the generated code at once |
| `ProbeProtocol.EventsTell` | oi/OIDebugger.cpp:1205-1256 | what each event does: a thread is let through to a trap exactly if the trap is in place, the debugger waits for it and nobody else holds the probe; it acquires the probe exactly if its objects are located |
| `ProbeProtocol.OthersWait` | oi/OIDebugger.cpp:950-965 | while a thread holds the probe, whatever the others do, none of them comes to a trap, acquires the probe or enters the generated code, not even after the holder has exited |
| `ProbeProtocol.OthersReleased` | oi/OIDebugger.cpp:961-964 | a thread is let through only when every other one that held the probe has released it |
| `ProbeProtocol.GlobalSafeExactly` | oi/OIDebugger.cpp:893-904 | sending the main thread to a global variable is safe exactly if no other thread is being processed |
| `ProbeProtocol.Debugger.RemoveAllTraps` | oi/OIDebugger.cpp:1845-1863 | only the traps of the generated code stay; the protocol stays safe |
| `ProbeProtocol.Debugger.ProcessGlobal` | oi/OIDebugger.cpp:857-948 | the main thread is marked with the trap of the generated code, unless it is marked already, and sent to the generated code; nothing else changes |
| `ProbeProtocol.Debugger.ProcessTraps` | oi/OID.cpp:463-467 | the main loop is a run of the protocol from its initial state, or after a thread was sent to a global variable, up to the first event that finishes it; it is safe and accounted for at its end, and no more than one measurement has been made |
| `Slabs.LimitsFit` | oi/OICompiler.cpp:169-203 | for all sizes of code and data both segments fit into the block, which the source only asserts |
| `Slabs.LimitsFitTightly` | oi/OICompiler.cpp:171-172 | with not a byte to spare: there are sizes for which the limit is the end of the block |
| `Slabs.ReserveAllocationSpace` | oi/OICompiler.cpp:306-338 | whatever an object file asks for, its slab is valid and has room for it |
| `Slabs.Slab.Allocate` | oi/OICompiler.cpp:223-249 | a section is aligned, lies in its segment after all others of it, and is refused exactly if it does not fit |
| `Slabs.Slab.SectionsDisjoint` | oi/OICompiler.cpp:223-249 | no two sections of a slab overlap, and all lie in its block |
| `Slabs.ApplyRelocs` | oi/OICompiler.cpp:686-714 | the loops place slab after slab and map each section to the same offset in its slab |
| `Slabs.BlocksApart` | oi/OICompiler.cpp:707-713 | relocated slabs do not overlap and start at multiples of 128 |
| `Slabs.MappedApart` | oi/OICompiler.cpp:688-706 | relocated sections do not overlap, be they of one slab or of two |
| `Slabs.AlignmentKept` | oi/OICompiler.cpp:686-714 | alignments that divide 128 are kept |
| `Slabs.AlignmentKeptExactly` | oi/OICompiler.cpp:686-714 | a section keeps an alignment exactly if its slab is moved by a multiple of it |
| `Slabs.LargerAlignmentLost` | oi/OIDebugger.cpp:1765-1769 | placed from the start of the generated code, 128 bytes into a page, sections of every slab keep an alignment of up to a page exactly if it divides 128 |
| `TypedefSort.GetSortedTypeDefMap` | oi/OICodeGen.cpp:1906-1922 | for typedefs without a cycle the loop ends, with each entry once and after the entry of its target |
| `TypedefSort.Pass` | oi/OICodeGen.cpp:1912-1919 | one pass, erasing while it goes, keeps what has been put in order |
| `TypedefSort.PassShrinks` | oi/OICodeGen.cpp:1912-1919 | without a cycle every pass takes something out |
| `TypedefSort.LoopEndsExactly` | oi/OICodeGen.cpp:1911-1920 | the loop comes to an end if and only if no chain of typedefs stays in the map for ever |

## Left out

- Templates of the type graph other than class, container, pointer, array, scalar and incomplete: typedefs are stripped wherever a type is referred to, and enumerations are scalars.
- Flattening.Flattener.Visit: does not model a class's functions, the repair of allocator parameters, or the merging of grandchildren into the list of children, which inserts into the list that it iterates over.
- Inheritance.ConservedFromAnywhere: assumes that no class of the graph has an invalid base, so that all runs come to an end, and that no class is derived from itself.
- Transform.Run: which members are removed is a parameter, and the removal pass's own traversal is not modelled: members are removed from every class, also from those that it would not come to. The passes for containers, pruning, children, compatibility and key capture are not modelled.
- Transform.TransformKeepsLayout: assumes that members and bases in the debug information do not overlap, that bases start on a byte, and that inheritance and nesting by value are well-founded.
- LayoutPasses.PassesPreserveLayout: assumes that the alignment of a container stored by value in a kept member is known; LayoutPasses.PassesKeepLayout does not, and Transform.KeepableWithoutWayBack derives it.
- Transform.KeepableWithoutWayBack: assumes that the compiler's alignment of a container divides that of the class that it is made of.
- Layout.KeepsLayoutExactly: packed structures are laid out with alignment 1 throughout, which compilers do not do for members that are not plain data; virtual bases are not modelled.
- Iterator.IncrementEmits: the counter of increments is not bounded by 64 bits; printing of a pointer's value in a generated name is a parameter.
- RoundTrip.NodeIsRead: objects are finite trees of pointers, arrays and classes; containers with their own traversal code, and recursive types, which the static type of the segment cannot express, are not modelled.
- Introspection.Introspect: the object walked does not change meanwhile.
- Csv.Printer.Print: columns other than ID and parent are carried along unchanged; quoting and the header row are not modelled.
- DataSegment.Segment.GetSize: one object a segment; moving the base of the segment for further arguments is not modelled.
- DataSegment.DecodeTargetData: assumes that the memory which the header's size asks for can be read.
- TreeBuilding.TreeBuilder.Process: sizes are unbounded, so wrap-around of 64-bit sums and products is not modelled; names, type paths and padding statistics are not either, nor are failures of the store. An index of a descendant that is out of range, an adapter without element type and a division by an element size of zero, all undefined in the source, end the build with an error.
- TreeRoundTrip.Builds: assumes that the isset member of a class comes last, as the builder does, and that a container's capacity does not take too much memory; what is stored for containers without a definition in types/ (those of kinds such as MICROLIST_TYPE) is taken from the builder.
- TreeBuilding.TreeBuilder.Build: options that make an incomplete reading fatal, and compaction of the store.
- TrapOverlay.Debugger.FunctionPatch: one text that all traps lie in; the buffer of replayed instructions, arguments, and failures of writing are not modelled.
- ProbeProtocol.Debugger.ProcessTrap: registers, replaying of instructions, signals other than breakpoints and faults, and creation of threads, which all leave the state of the protocol alone.
- Slabs.ApplyRelocs: how much memory the operating system grants for a block is a parameter; addresses do not wrap around; copying of slabs when there are more than four of them.
- Target process access, debug information, compilation of the generated code, configuration, caching and the JSON output: foreign libraries and plumbing.
- Text of generated code beyond the tokens that the generators for classes decide on.
