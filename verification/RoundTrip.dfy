/**
 From object to bytes and back: reading with the iterator of oi/IntrospectionResult.cpp what the
 generated traversal wrote gives the object's own elements in pre-order, and takes every byte.
 */
module RoundTrip {
  import opened Machine
  import opened Instructions
  import opened Iterator
  import opened ObjectModel
  import Leb128
  import DT = DynamicTypes
  import CG = ClassCodeGen

  // ----- the elements an object has

  /** A node of an object as it should be reported, and the pointers seen after its contents. */
  datatype Reported = Reported(tree: Tree<FieldRef>, seen: set<U64>)

  datatype ReportedAll = ReportedAll(trees: seq<Tree<FieldRef>>, seen: set<U64>)

  function ElementOf(info: TypeInfo, r: FieldRef, isset: U64, o: Obj, path: seq<string>, seen: set<U64>,
                     cap: nat): Element
  {
    Element(
      r.name,
      path + [r.name],
      info.names(r.ty),
      if r.bitField then 0 else info.size(r.ty),
      if r.ty.Array? || r.bitField then 0 else info.exclusiveSize(r.ty),
      if r.ty.Pointer? && o.PointerObj? then Some(o.address) else None,
      NoData,
      (match r.ty
       case Pointer(_) => Some(ContainerStats(1, if o.PointerObj? && Follows(o.address, seen, cap) then 1 else 0))
       case Array(_, n) => Some(ContainerStats(n, n))
       case _ => None),
      if r.isset && isset <= 1 then Some(isset == 1) else None,
      r.ty.Primitive?)
  }

  ghost function Report(info: TypeInfo, r: FieldRef, isset: U64, o: Obj, path: seq<string>, seen: set<U64>,
                        cap: nat): Reported
    requires HasShape(o, r.ty)
    decreases r.ty, 2, 0
  {
    var kids := ReportContent(info, r.ty, o, path + [r.name], seen, cap);
    Reported(Node(r, ElementOf(info, r, isset, o, path, seen, cap), kids.trees), kids.seen)
  }

  /** The nodes below an object: a followed pointee, array elements, or class members. */
  ghost function ReportContent(info: TypeInfo, ty: Ty, o: Obj, path: seq<string>, seen: set<U64>, cap: nat): ReportedAll
    requires HasShape(o, ty)
    decreases ty, 1, 0
  {
    match ty
    case Primitive(_) => ReportedAll([], seen)
    case Incomplete => ReportedAll([], seen)
    case Pointer(t) =>
      if !Follows(o.address, seen, cap) then ReportedAll([], seen)
      else if t.Incomplete? then ReportedAll([], seen + {o.address})
      else
        var x := Report(info, FieldRef("*", t, false, false), 0, o.pointee, path, seen + {o.address}, cap);
        ReportedAll([x.tree], x.seen)
    case Array(t, n) => ReportItems(info, t, o.items, path, seen, cap)
    case Class(_, _, _) => ReportMembers(info, ty, o, ClassFields(ty), 0, path, seen, cap)
  }

  ghost function ReportItems(info: TypeInfo, ty: Ty, items: seq<Obj>, path: seq<string>, seen: set<U64>,
                             cap: nat): ReportedAll
    requires forall x :: x in items ==> HasShape(x, ty)
    decreases ty, 3, |items|
  {
    if items == [] then ReportedAll([], seen)
    else
      var x := Report(info, FieldRef("[]", ty, false, false), 0, items[0], path, seen, cap);
      var rest := ReportItems(info, ty, items[1..], path, x.seen, cap);
      ReportedAll([x.tree] + rest.trees, rest.seen)
  }

  ghost function ReportMembers(info: TypeInfo, c: Ty, o: Obj, fs: seq<CG.FieldText>, k: nat, path: seq<string>,
                               seen: set<U64>, cap: nat): ReportedAll
    requires c.Class? && HasShape(o, c)
    requires forall j :: 0 <= j < |fs| ==> fs[j].index < |c.members|
    decreases c, 0, |fs|
  {
    if fs == [] then ReportedAll([], seen)
    else
      var f := fs[0];
      var x := Report(info, RefOf(c, f), Isset(o, k), o.members[f.index], path, seen, cap);
      var rest := ReportMembers(info, c, o, fs[1..], if f.isset then k + 1 else k, path, x.seen, cap);
      ReportedAll([x.tree] + rest.trees, rest.seen)
  }

  // ----- one node

  /** What is written for a node: its isset value, if it has one, and its object. */
  ghost function NodeBytes(r: FieldRef, isset: U64, o: Obj, seen: set<U64>, cap: nat): seq<Byte>
    requires HasShape(o, r.ty)
  {
    (if r.isset then Leb128.Encode(isset) else []) + Write(r.ty, o, seen, cap).bytes
  }

  /** A field tells whether its member is set exactly if it has an isset value and that is known. */
  lemma IssetIsReported(info: TypeInfo, r: FieldRef, o: Obj, k: nat, m: Obj, path: seq<string>, seen: set<U64>,
                        cap: nat)
    requires o.ClassObj?
    ensures ElementOf(info, r, Isset(o, k), m, path, seen, cap).isSet ==
            if !r.isset || k >= |o.issets| || o.issets[k] > 1 then None else Some(o.issets[k] == 1)
  {
  }

  function PushedBy(ty: Ty, o: Obj, seen: set<U64>, cap: nat): seq<Inst<FieldRef>>
  {
    match ty
    case Pointer(t) =>
      if o.PointerObj? && Follows(o.address, seen, cap) && !t.Incomplete? then [FieldInst(FieldRef("*", t, false, false))] else []
    case Array(t, n) => Copies(FieldInst(FieldRef("[]", t, false, false)), n)
    case _ => []
  }

  lemma ProcessorStep(p: Processor<FieldRef>, ps: seq<Processor<FieldRef>>, h: Handled<FieldRef>)
    ensures RunProcessors([p] + ps, h) ==
            match ParseHead(p.dy, h.rest)
            case None => None
            case Some((head, rest)) =>
              match p.handler(h.element, head, rest)
              case None => None
              case Some(g) => RunProcessors(ps, Handled(g.element, h.pushed + g.pushed, g.rest))
  {
    assert ([p] + ps)[1..] == ps;
  }

  /** The isset processor, if there is one, reads the isset value that was written. */
  lemma IssetIsRead(r: FieldRef, isset: U64, el: Element, rest: seq<Byte>)
    ensures RunProcessors((if r.isset then [Processor(DT.VarInt, ProcessThriftIsset)] else []) + Processors(r.ty),
                          Handled(el, [], (if r.isset then Leb128.Encode(isset) else []) + rest)) ==
            RunProcessors(Processors(r.ty), Handled(if r.isset && isset <= 1 then el.(isSet := Some(isset == 1)) else el, [], rest))
  {
    if r.isset {
      ProcessorStep(Processor(DT.VarInt, ProcessThriftIsset), Processors(r.ty), Handled(el, [], Leb128.Encode(isset) + rest));
      Leb128.ReadEncode(isset, rest);
      var none: seq<Inst<FieldRef>> := [];
      assert none + none == none;
    } else {
      assert [] + rest == rest;
      assert [] + Processors(r.ty) == Processors(r.ty);
    }
  }

  function Finished(ty: Ty, o: Obj, seen: set<U64>, cap: nat, el: Element): Element
  {
    match ty
    case Pointer(_) =>
      if o.PointerObj? then
        el.(pointer := Some(o.address), containerStats := Some(ContainerStats(1, if Follows(o.address, seen, cap) then 1 else 0)))
      else el
    case Array(_, n) => el.(exclusiveSize := 0, containerStats := Some(ContainerStats(n, n)))
    case _ => el
  }

  /** The processors of a type read the head of an object and push what is to be read next. */
  lemma HeadIsRead(ty: Ty, o: Obj, seen: set<U64>, cap: nat, el: Element, rest: seq<Byte>)
    requires HasShape(o, ty)
    ensures RunProcessors(Processors(ty), Handled(el, [], Head(ty, o, seen, cap) + rest)) ==
            Some(Handled(Finished(ty, o, seen, cap, el), PushedBy(ty, o, seen, cap), rest))
  {
    match ty
    case Pointer(t) => PointerHeadIsRead(t, o, seen, cap, el, rest);
    case Array(t, n) => ArrayHeadIsRead(t, n, el, rest);
    case _ => assert [] + rest == rest;
  }

  lemma PointerHeadIsRead(t: Ty, o: Obj, seen: set<U64>, cap: nat, el: Element, rest: seq<Byte>)
    requires o.PointerObj?
    ensures RunProcessors(Processors(Pointer(t)), Handled(el, [], Head(Pointer(t), o, seen, cap) + rest)) ==
            Some(Handled(Finished(Pointer(t), o, seen, cap, el), PushedBy(Pointer(t), o, seen, cap), rest))
  {
    hide RunProcessors, Processors;
    var index: U64 := if Follows(o.address, seen, cap) then 1 else 0;
    var mid := Leb128.Encode(index) + rest;
    assert Head(Pointer(t), o, seen, cap) + rest == Leb128.Encode(o.address) + mid;
    PointerValueIsRead(t, o.address, el, mid);
    PointerContentIsRead(t, index, el.(pointer := Some(o.address)), rest);
  }

  lemma PointerValueIsRead(t: Ty, address: U64, el: Element, mid: seq<Byte>)
    ensures |Processors(Pointer(t))| == 2
    ensures RunProcessors(Processors(Pointer(t)), Handled(el, [], Leb128.Encode(address) + mid)) ==
            RunProcessors([Processors(Pointer(t))[1]], Handled(el.(pointer := Some(address)), [], mid))
  {
    var p1, p2 := Processors(Pointer(t))[0], Processors(Pointer(t))[1];
    Leb128.ReadEncode(address, mid);
    assert Processors(Pointer(t)) == [p1] + [p2];
    ProcessorStep(p1, [p2], Handled(el, [], Leb128.Encode(address) + mid));
    var none: seq<Inst<FieldRef>> := [];
    assert none + none == none;
  }

  lemma PointerContentIsRead(t: Ty, index: U64, el: Element, rest: seq<Byte>)
    requires index <= 1
    ensures |Processors(Pointer(t))| == 2
    ensures RunProcessors([Processors(Pointer(t))[1]], Handled(el, [], Leb128.Encode(index) + rest)) ==
            Some(Handled(el.(containerStats := Some(ContainerStats(1, index))),
                         if index == 1 && !t.Incomplete? then [FieldInst(FieldRef("*", t, false, false))] else [], rest))
  {
    var p := Processors(Pointer(t))[1];
    Leb128.ReadEncode(index, rest);
    assert [p] + [] == [p];
    ProcessorStep(p, [], Handled(el, [], Leb128.Encode(index) + rest));
    var pushed: seq<Inst<FieldRef>> := if index == 1 && !t.Incomplete? then [FieldInst(FieldRef("*", t, false, false))] else [];
    assert [] + pushed == pushed;
  }

  lemma ArrayHeadIsRead(t: Ty, n: U64, el: Element, rest: seq<Byte>)
    ensures RunProcessors(Processors(Array(t, n)), Handled(el, [], Leb128.Encode(n) + rest)) ==
            Some(Handled(el.(exclusiveSize := 0, containerStats := Some(ContainerStats(n, n))),
                         Copies(FieldInst(FieldRef("[]", t, false, false)), n), rest))
  {
    var p := Processors(Array(t, n))[0];
    Leb128.ReadEncode(n, rest);
    assert Processors(Array(t, n)) == [p] + [];
    ProcessorStep(p, [], Handled(el, [], Leb128.Encode(n) + rest));
    var pushed := Copies(FieldInst(FieldRef("[]", t, false, false)), n);
    assert [] + pushed == pushed;
  }

  /** Meeting a field produces the element of the object and leaves its content to be read. */
  lemma VisitReads(info: TypeInfo, r: FieldRef, isset: U64, o: Obj, path: seq<string>, seen: set<U64>, cap: nat,
                   rest: seq<Byte>)
    requires HasShape(o, r.ty)
    ensures Visit(ProgramOf(info), Deref(info, r), path, NodeBytes(r, isset, o, seen, cap) + rest) ==
            Some(Handled(ElementOf(info, r, isset, o, path, seen, cap), PushedBy(r.ty, o, seen, cap),
                         Content(r.ty, o, seen, cap).bytes + rest))
  {
    var f := Deref(info, r);
    var el := FreshElement(f, path);
    var content := Content(r.ty, o, seen, cap).bytes;
    var head := Head(r.ty, o, seen, cap);
    var pre := if r.isset then Leb128.Encode(isset) else [];
    assert NodeBytes(r, isset, o, seen, cap) + rest == pre + (head + (content + rest));
    IssetIsRead(r, isset, el, head + (content + rest));
    var el1 := if r.isset && isset <= 1 then el.(isSet := Some(isset == 1)) else el;
    HeadIsRead(r.ty, o, seen, cap, el1, content + rest);
  }

  // ----- whole objects

  /** The stack left by a field is read as the given trees, back to the same path. */
  ghost predicate StackReads(info: TypeInfo, stack: seq<Inst<FieldRef>>, path: seq<string>, data: seq<Byte>,
                             trees: seq<Tree<FieldRef>>, rest: seq<Byte>)
  {
    ReadStack(ProgramOf(info), stack, path, data, trees) == Some(End(path, rest))
  }

  lemma NothingReads(info: TypeInfo, path: seq<string>, rest: seq<Byte>)
    ensures StackReads(info, [], path, [] + rest, [], rest)
  {
    assert [] + rest == rest;
  }

  lemma OneMoreReads(info: TypeInfo, r: FieldRef, below: seq<Inst<FieldRef>>, path: seq<string>, data: seq<Byte>,
                     t: Tree<FieldRef>, mid: seq<Byte>, trees: seq<Tree<FieldRef>>, rest: seq<Byte>)
    requires ReadField(ProgramOf(info), r, path, data, t) == Some(mid)
    requires StackReads(info, below, path, mid, trees, rest)
    ensures StackReads(info, below + [FieldInst(r)], path, data, [t] + trees, rest)
  {
    var stack := below + [FieldInst(r)];
    assert stack[|stack| - 1] == FieldInst(r) && stack[..|stack| - 1] == below;
    assert ([t] + trees)[1..] == trees;
  }

  /** Reading a node back: the tree of the object, the same pointers seen, and nothing more taken. */
  lemma {:induction false} NodeIsRead(info: TypeInfo, r: FieldRef, isset: U64, o: Obj, path: seq<string>,
                                      seen: set<U64>, cap: nat, rest: seq<Byte>)
    requires HasShape(o, r.ty)
    ensures Report(info, r, isset, o, path, seen, cap).seen == Write(r.ty, o, seen, cap).seen
    ensures ReadField(ProgramOf(info), r, path, NodeBytes(r, isset, o, seen, cap) + rest,
                      Report(info, r, isset, o, path, seen, cap).tree) == Some(rest)
    decreases r.ty, 2, 0
  {
    hide Visit, Write, Content, ReportContent, ElementOf, NodeBytes;
    VisitReads(info, r, isset, o, path, seen, cap, rest);
    ContentIsRead(info, r.ty, o, path + [r.name], seen, cap, rest);
    WriteSeen(r.ty, o, seen, cap);
    ElementPath(info, r, isset, o, path, seen, cap);
  }

  lemma WriteSeen(ty: Ty, o: Obj, seen: set<U64>, cap: nat)
    requires HasShape(o, ty)
    ensures Write(ty, o, seen, cap).seen == Content(ty, o, seen, cap).seen
  {
  }

  lemma ElementPath(info: TypeInfo, r: FieldRef, isset: U64, o: Obj, path: seq<string>, seen: set<U64>, cap: nat)
    ensures ElementOf(info, r, isset, o, path, seen, cap).typePath == path + [r.name]
  {
  }

  lemma {:induction false} ContentIsRead(info: TypeInfo, ty: Ty, o: Obj, path: seq<string>, seen: set<U64>, cap: nat,
                                         rest: seq<Byte>)
    requires HasShape(o, ty)
    ensures ReportContent(info, ty, o, path, seen, cap).seen == Content(ty, o, seen, cap).seen
    ensures StackReads(info, PushedBy(ty, o, seen, cap) + Reversed(AsInsts(FieldsOf(ty))), path,
                       Content(ty, o, seen, cap).bytes + rest, ReportContent(info, ty, o, path, seen, cap).trees, rest)
    decreases ty, 1, 0
  {
    hide StackReads, Report, Write;
    var stack := PushedBy(ty, o, seen, cap) + Reversed(AsInsts(FieldsOf(ty)));
    match ty
    case Primitive(_) =>
      assert stack == [];
      NothingReads(info, path, rest);
    case Incomplete =>
      assert stack == [];
      NothingReads(info, path, rest);
    case Pointer(t) =>
      assert stack == PushedBy(ty, o, seen, cap);
      NothingReads(info, path, rest);
      if Follows(o.address, seen, cap) && !t.Incomplete? {
        PointeeIsRead(info, t, o, path, seen, cap, rest);
      }
    case Array(t, n) =>
      assert stack == PushedBy(ty, o, seen, cap);
      ItemsAreRead(info, t, o.items, path, seen, cap, rest);
    case Class(_, _, _) =>
      assert stack == Reversed(AsInsts(RefsOf(ty, ClassFields(ty))));
      CG.FieldsReadSlots(Texts(ty.members), ty.issetMember, 0);
      MembersAreRead(info, ty, o, ClassFields(ty), 0, path, seen, cap, rest);
  }

  lemma {:induction false} PointeeIsRead(info: TypeInfo, t: Ty, o: Obj, path: seq<string>, seen: set<U64>, cap: nat,
                                         rest: seq<Byte>)
    requires HasShape(o, Pointer(t)) && Follows(o.address, seen, cap)
    ensures var r, s := FieldRef("*", t, false, false), seen + {o.address};
            && Report(info, r, 0, o.pointee, path, s, cap).seen == Write(t, o.pointee, s, cap).seen
            && StackReads(info, [FieldInst(r)], path, Write(t, o.pointee, s, cap).bytes + rest,
                          [Report(info, r, 0, o.pointee, path, s, cap).tree], rest)
    decreases t, 4, 0
  {
    hide Write, Report;
    var r, s := FieldRef("*", t, false, false), seen + {o.address};
    NodeIsRead(info, r, 0, o.pointee, path, s, cap, rest);
    NothingReads(info, path, rest);
    var bytes, tree := Write(t, o.pointee, s, cap).bytes, Report(info, r, 0, o.pointee, path, s, cap).tree;
    assert NodeBytes(r, 0, o.pointee, s, cap) == bytes;
    assert [] + rest == rest;
    OneMoreReads(info, r, [], path, bytes + rest, tree, rest, [], rest);
    assert [] + [FieldInst(r)] == [FieldInst(r)] && [tree] + [] == [tree];
  }

  lemma {:induction false} ItemsAreRead(info: TypeInfo, t: Ty, items: seq<Obj>, path: seq<string>, seen: set<U64>,
                                        cap: nat, rest: seq<Byte>)
    requires forall x :: x in items ==> HasShape(x, t)
    ensures ReportItems(info, t, items, path, seen, cap).seen == WriteItems(t, items, seen, cap).seen
    ensures StackReads(info, Copies(FieldInst(FieldRef("[]", t, false, false)), |items|), path,
                       WriteItems(t, items, seen, cap).bytes + rest, ReportItems(info, t, items, path, seen, cap).trees, rest)
    decreases t, 3, |items|
  {
    hide StackReads, Write, Report;
    var r := FieldRef("[]", t, false, false);
    if items == [] {
      assert Copies(FieldInst(r), 0) == [];
      NothingReads(info, path, rest);
    } else {
      var a := Write(t, items[0], seen, cap);
      var b := WriteItems(t, items[1..], a.seen, cap);
      NodeIsRead(info, r, 0, items[0], path, seen, cap, b.bytes + rest);
      ItemsAreRead(info, t, items[1..], path, a.seen, cap, rest);
      assert NodeBytes(r, 0, items[0], seen, cap) == a.bytes;
      assert a.bytes + (b.bytes + rest) == (a.bytes + b.bytes) + rest;
      assert Copies(FieldInst(r), |items|) == Copies(FieldInst(r), |items| - 1) + [FieldInst(r)];
      OneMoreReads(info, r, Copies(FieldInst(r), |items| - 1), path, a.bytes + (b.bytes + rest),
                   Report(info, r, 0, items[0], path, seen, cap).tree, b.bytes + rest,
                   ReportItems(info, t, items[1..], path, a.seen, cap).trees, rest);
    }
  }

  lemma {:induction false} MembersAreRead(info: TypeInfo, c: Ty, o: Obj, fs: seq<CG.FieldText>, k: nat,
                                          path: seq<string>, seen: set<U64>, cap: nat, rest: seq<Byte>)
    requires c.Class? && HasShape(o, c)
    requires forall j :: 0 <= j < |fs| ==> fs[j].index < |c.members|
    ensures ReportMembers(info, c, o, fs, k, path, seen, cap).seen == WriteTail(c, o, fs, k, seen, cap).seen
    ensures StackReads(info, Reversed(AsInsts(RefsOf(c, fs))), path,
                       WriteTail(c, o, fs, k, seen, cap).bytes + rest,
                       ReportMembers(info, c, o, fs, k, path, seen, cap).trees, rest)
    decreases c, 0, |fs|
  {
    hide StackReads, Write, Report, WriteTail, ReportMembers, NodeBytes, Reversed, AsInsts, RefsOf;
    if fs == [] {
      NoMembers(info, c, o, k, path, seen, cap, rest);
    } else {
      var f, r := fs[0], RefOf(c, fs[0]);
      var m, k' := o.members[f.index], if f.isset then k + 1 else k;
      var mid := Write(r.ty, m, seen, cap).seen;
      var more := WriteTail(c, o, fs[1..], k', mid, cap).bytes + rest;
      MembersAreRead(info, c, o, fs[1..], k', path, mid, cap, rest);
      NodeIsRead(info, r, Isset(o, k), m, path, seen, cap, more);
      MembersJoin(info, c, o, fs, k, path, seen, cap, rest);
    }
  }

  ghost function WriteTail(c: Ty, o: Obj, fs: seq<CG.FieldText>, k: nat, seen: set<U64>, cap: nat): Written
    requires c.Class? && HasShape(o, c)
    requires forall j :: 0 <= j < |fs| ==> fs[j].index < |c.members|
  {
    FieldSlotsInRange(c, fs);
    WriteSlots(c, o, CG.FieldSlots(fs), k, seen, cap)
  }

  lemma {:induction false} FieldSlotsInRange(c: Ty, fs: seq<CG.FieldText>)
    requires c.Class? && forall j :: 0 <= j < |fs| ==> fs[j].index < |c.members|
    ensures SlotsInRange(c, CG.FieldSlots(fs))
  {
    if fs != [] {
      FieldSlotsInRange(c, fs[1..]);
    }
  }

  lemma NoMembers(info: TypeInfo, c: Ty, o: Obj, k: nat, path: seq<string>, seen: set<U64>, cap: nat, rest: seq<Byte>)
    requires c.Class? && HasShape(o, c)
    ensures ReportMembers(info, c, o, [], k, path, seen, cap).seen == WriteTail(c, o, [], k, seen, cap).seen
    ensures StackReads(info, Reversed(AsInsts(RefsOf(c, []))), path, WriteTail(c, o, [], k, seen, cap).bytes + rest,
                       ReportMembers(info, c, o, [], k, path, seen, cap).trees, rest)
  {
    NothingReads(info, path, rest);
  }

  lemma MembersJoin(info: TypeInfo, c: Ty, o: Obj, fs: seq<CG.FieldText>, k: nat, path: seq<string>, seen: set<U64>,
                    cap: nat, rest: seq<Byte>)
    requires c.Class? && HasShape(o, c) && fs != []
    requires forall j :: 0 <= j < |fs| ==> fs[j].index < |c.members|
    requires var f, r := fs[0], RefOf(c, fs[0]);
             var m, k' := o.members[f.index], if f.isset then k + 1 else k;
             var x, mid := Report(info, r, Isset(o, k), m, path, seen, cap), Write(r.ty, m, seen, cap).seen;
             var b := WriteTail(c, o, fs[1..], k', mid, cap);
             && x.seen == mid
             && ReportMembers(info, c, o, fs[1..], k', path, mid, cap).seen == b.seen
             && ReadField(ProgramOf(info), r, path, NodeBytes(r, Isset(o, k), m, seen, cap) + (b.bytes + rest), x.tree) == Some(b.bytes + rest)
             && StackReads(info, Reversed(AsInsts(RefsOf(c, fs[1..]))), path, b.bytes + rest,
                           ReportMembers(info, c, o, fs[1..], k', path, mid, cap).trees, rest)
    ensures ReportMembers(info, c, o, fs, k, path, seen, cap).seen == WriteTail(c, o, fs, k, seen, cap).seen
    ensures StackReads(info, Reversed(AsInsts(RefsOf(c, fs))), path, WriteTail(c, o, fs, k, seen, cap).bytes + rest,
                       ReportMembers(info, c, o, fs, k, path, seen, cap).trees, rest)
  {
    hide StackReads, Write, Report, NodeBytes, ReadField, WriteSlots;
    var f, r := fs[0], RefOf(c, fs[0]);
    var m, k' := o.members[f.index], if f.isset then k + 1 else k;
    var mid := Write(r.ty, m, seen, cap).seen;
    var b := WriteTail(c, o, fs[1..], k', mid, cap);
    var node := NodeBytes(r, Isset(o, k), m, seen, cap);
    FieldSlotsInRange(c, fs[1..]);
    FieldIsWritten(c, o, f, CG.FieldSlots(fs[1..]), k, seen, cap);
    assert (node + b.bytes) + rest == node + (b.bytes + rest);
    OneMoreReads(info, r, Reversed(AsInsts(RefsOf(c, fs[1..]))), path, node + (b.bytes + rest),
                 Report(info, r, Isset(o, k), m, path, seen, cap).tree, b.bytes + rest,
                 ReportMembers(info, c, o, fs[1..], k', path, mid, cap).trees, rest);
    assert AsInsts(RefsOf(c, fs))[1..] == AsInsts(RefsOf(c, fs[1..]));
  }

  ghost predicate SlotsInRange(c: Ty, slots: seq<CG.StaticType>)
    requires c.Class?
  {
    forall j :: 0 <= j < |slots| && slots[j].OfMember? ==> slots[j].index < |c.members|
  }

  /** The slots of one field are written as its node. */
  lemma FieldIsWritten(c: Ty, o: Obj, f: CG.FieldText, slots: seq<CG.StaticType>, k: nat, seen: set<U64>, cap: nat)
    requires c.Class? && HasShape(o, c) && f.index < |c.members| && SlotsInRange(c, slots)
    ensures SlotsInRange(c, CG.SlotsOfField(f) + slots)
    ensures var r, m := RefOf(c, f), o.members[f.index];
            var b := WriteSlots(c, o, slots, if f.isset then k + 1 else k, Write(r.ty, m, seen, cap).seen, cap);
            WriteSlots(c, o, CG.SlotsOfField(f) + slots, k, seen, cap) ==
            Written(NodeBytes(r, Isset(o, k), m, seen, cap) + b.bytes, b.seen)
  {
    hide Write;
    var tail := [CG.OfMember(f.index)] + slots;
    assert tail[1..] == slots;
    var r, m := RefOf(c, f), o.members[f.index];
    var a := Write(r.ty, m, seen, cap);
    if f.isset {
      var all := CG.SlotsOfField(f) + slots;
      assert all[1..] == tail;
      var b := WriteSlots(c, o, slots, k + 1, a.seen, cap);
      var pre := Leb128.Encode(Isset(o, k));
      assert pre + (a.bytes + b.bytes) == (pre + a.bytes) + b.bytes;
    } else {
      assert [] + a.bytes == a.bytes;
    }
  }
}
