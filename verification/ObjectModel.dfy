/**
 The C++ types and objects that the generated code of oi/FuncGen.cpp and oi/CodeGen.cpp handles
 itself: fundamental types, pointers, OIArray and classes; what its traversal writes for an object, and the
 fields and elements that its reader is meant to produce. Types are finite, as the generated
 static types must be.
 */
module ObjectModel {
  import opened Machine
  import opened Instructions
  import Leb128
  import DT = DynamicTypes
  import CG = ClassCodeGen

  /** Incomplete stands for void and for types without a definition. */
  datatype Ty =
    | Primitive(size: nat)
    | Incomplete
    | Pointer(pointee: Ty)
    | Array(element: Ty, length: U64)
    | Class(name: string, members: seq<ClassMember>, issetMember: Option<nat>)

  datatype ClassMember = ClassMember(text: CG.Member, ty: Ty, bitField: bool)

  /** An object in memory; a pointer comes with what is found at its address. */
  datatype Obj =
    | PrimitiveObj
    | PointerObj(address: U64, pointee: Obj)
    | ArrayObj(items: seq<Obj>)
    | ClassObj(members: seq<Obj>, issets: seq<U64>)

  function Texts(ms: seq<ClassMember>): (r: seq<CG.Member>)
    ensures |r| == |ms|
  {
    seq(|ms|, i requires 0 <= i < |ms| => ms[i].text)
  }

  /** What is stored for a class, in order. */
  function ClassSlots(c: Ty): (r: seq<CG.StaticType>)
    requires c.Class?
    ensures forall k :: 0 <= k < |r| && r[k].OfMember? ==> r[k].index < |c.members|
  {
    CG.Slots(Texts(c.members), c.issetMember, 0)
  }

  ghost predicate HasShape(o: Obj, ty: Ty)
    decreases ty
  {
    match ty
    case Primitive(_) => o.PrimitiveObj?
    case Incomplete => true
    case Pointer(t) => o.PointerObj? && (o.address != 0 ==> HasShape(o.pointee, t))
    case Array(t, n) => o.ArrayObj? && |o.items| == n && forall x :: x in o.items ==> HasShape(x, t)
    case Class(_, ms, _) =>
      o.ClassObj? && |o.members| == |ms| < U64_LIMIT - 1 &&
      forall i :: 0 <= i < |ms| ==> HasShape(o.members[i], ms[i].ty)
  }

  /** `getThriftIsset`: 2 when there is no information. */
  function Isset(o: Obj, k: nat): U64
    requires o.ClassObj?
  {
    if k < |o.issets| then o.issets[k] else 2
  }

  // ----- what the traversal writes

  /** The bytes written, and the pointers remembered afterwards. */
  datatype Written = Written(bytes: seq<Byte>, seen: set<U64>)

  /** `t && ctx.pointers.add(t)` succeeds. */
  predicate Follows(p: U64, seen: set<U64>, cap: nat)
  {
    p != 0 && p !in seen && |seen| < cap
  }

  /** The part of an object that its own processors read. */
  function Head(ty: Ty, o: Obj, seen: set<U64>, cap: nat): seq<Byte>
  {
    match ty
    case Pointer(_) =>
      if o.PointerObj? then Leb128.Encode(o.address) + Leb128.Encode(if Follows(o.address, seen, cap) then 1 else 0)
      else []
    case Array(_, n) => Leb128.Encode(n)
    case _ => []
  }

  /** The rest of it. */
  ghost function Content(ty: Ty, o: Obj, seen: set<U64>, cap: nat): Written
    requires HasShape(o, ty)
    decreases ty, 1, 0
  {
    match ty
    case Primitive(_) => Written([], seen)
    case Incomplete => Written([], seen)
    case Pointer(t) =>
      if !Follows(o.address, seen, cap) then Written([], seen)
      else if t.Incomplete? then Written([], seen + {o.address})
      else Write(t, o.pointee, seen + {o.address}, cap)
    case Array(t, n) => WriteItems(t, o.items, seen, cap)
    case Class(_, _, _) => WriteSlots(ty, o, ClassSlots(ty), 0, seen, cap)
  }

  ghost function Write(ty: Ty, o: Obj, seen: set<U64>, cap: nat): Written
    requires HasShape(o, ty)
    decreases ty, 2, 0
  {
    var w := Content(ty, o, seen, cap);
    Written(Head(ty, o, seen, cap) + w.bytes, w.seen)
  }

  ghost function WriteItems(ty: Ty, items: seq<Obj>, seen: set<U64>, cap: nat): Written
    requires forall x :: x in items ==> HasShape(x, ty)
    decreases ty, 3, |items|
  {
    if items == [] then Written([], seen)
    else
      var a := Write(ty, items[0], seen, cap);
      var b := WriteItems(ty, items[1..], a.seen, cap);
      Written(a.bytes + b.bytes, b.seen)
  }

  /** Slots from the front: isset values are numbered from k. */
  ghost function WriteSlots(c: Ty, o: Obj, slots: seq<CG.StaticType>, k: nat, seen: set<U64>, cap: nat): Written
    requires c.Class? && HasShape(o, c)
    requires forall j :: 0 <= j < |slots| && slots[j].OfMember? ==> slots[j].index < |c.members|
    decreases c, 0, |slots|
  {
    if slots == [] then Written([], seen)
    else if slots[0].OfMember? then
      var i := slots[0].index;
      var a := Write(c.members[i].ty, o.members[i], seen, cap);
      var b := WriteSlots(c, o, slots[1..], k, a.seen, cap);
      Written(a.bytes + b.bytes, b.seen)
    else
      var b := WriteSlots(c, o, slots[1..], k + 1, seen, cap);
      Written(Leb128.Encode(Isset(o, k)) + b.bytes, b.seen)
  }

  // ----- the reader's fields

  /** A field that `make_field` or a class's list of fields makes: its type and name, and its extras. */
  datatype FieldRef = FieldRef(name: string, ty: Ty, isset: bool, bitField: bool)

  /** Sizes and names that the code generator knows for a type. */
  datatype TypeInfo = TypeInfo(size: Ty -> nat, exclusiveSize: Ty -> nat, names: Ty -> seq<string>, showPointer: U64 -> string)

  function ProcessThriftIsset(el: Element, d: Parsed, data: seq<Byte>): Option<Handled<FieldRef>>
  {
    if !d.VarIntHead? then None
    else Some(Handled(if d.value <= 1 then el.(isSet := Some(d.value == 1)) else el, [], data))
  }

  function ProcessPointer(el: Element, d: Parsed, data: seq<Byte>): Option<Handled<FieldRef>>
  {
    if !d.VarIntHead? then None else Some(Handled(el.(pointer := Some(d.value)), [], data))
  }

  function ProcessPointerContent(target: Ty, el: Element, d: Parsed, data: seq<Byte>): Option<Handled<FieldRef>>
  {
    if !d.SumHead? then None
    else if d.index == 0 then Some(Handled(el.(containerStats := Some(ContainerStats(1, 0))), [], data))
    else
      var el' := el.(containerStats := Some(ContainerStats(1, 1)));
      Some(Handled(el', if target.Incomplete? then [] else [FieldInst(FieldRef("*", target, false, false))], data))
  }

  function Copies<T>(x: T, n: nat): (r: seq<T>)
    ensures |r| == n && forall i :: 0 <= i < n ==> r[i] == x
  {
    seq(n, i => x)
  }

  function ProcessArray(element: Ty, n: nat, el: Element, d: Parsed, data: seq<Byte>): Option<Handled<FieldRef>>
  {
    if !d.ListHead? then None
    else
      Some(Handled(el.(exclusiveSize := 0, containerStats := Some(ContainerStats(n, n))),
                   Copies(FieldInst(FieldRef("[]", element, false, false)), n), data))
  }

  function Processors(ty: Ty): seq<Processor<FieldRef>>
  {
    match ty
    case Pointer(t) =>
      [Processor(DT.VarInt, ProcessPointer),
       Processor(DT.Sum([DT.Unit, DynamicType(t)]), (el, d, data) => ProcessPointerContent(t, el, d, data))]
    case Array(t, n) =>
      [Processor(DT.List(DynamicType(t)), (el, d, data) => ProcessArray(t, n, el, d, data))]
    case _ => []
  }

  function ClassFields(c: Ty): (fs: seq<CG.FieldText>)
    requires c.Class?
    ensures forall k :: 0 <= k < |fs| ==> fs[k].index < |c.members|
  {
    CG.FieldTexts(Texts(c.members), c.issetMember, 0)
  }

  function RefOf(c: Ty, f: CG.FieldText): FieldRef
    requires c.Class? && f.index < |c.members|
  {
    FieldRef(f.name, c.members[f.index].ty, f.isset, c.members[f.index].bitField)
  }

  function RefsOf(c: Ty, fs: seq<CG.FieldText>): (r: seq<FieldRef>)
    requires c.Class? && forall k :: 0 <= k < |fs| ==> fs[k].index < |c.members|
    ensures |r| == |fs|
  {
    if fs == [] then [] else [RefOf(c, fs[0])] + RefsOf(c, fs[1..])
  }

  function FieldsOf(ty: Ty): seq<FieldRef>
  {
    if ty.Class? then RefsOf(ty, ClassFields(ty)) else []
  }

  function Deref(info: TypeInfo, r: FieldRef): Field<FieldRef>
  {
    Field(if r.bitField then 0 else info.size(r.ty),
          if r.bitField then 0 else info.exclusiveSize(r.ty),
          r.name,
          info.names(r.ty),
          FieldsOf(r.ty),
          (if r.isset then [Processor(DT.VarInt, ProcessThriftIsset)] else []) + Processors(r.ty),
          r.ty.Primitive?)
  }

  function ProgramOf(info: TypeInfo): Program<FieldRef>
  {
    Program(r => Deref(info, r), info.showPointer)
  }

  // ----- the dynamic description of the static type

  function DynamicType(ty: Ty): DT.Dynamic
    decreases ty, 1
  {
    match ty
    case Primitive(_) => DT.Unit
    case Incomplete => DT.Unit
    case Pointer(t) => DT.Pair(DT.VarInt, DT.Sum([DT.Unit, DynamicType(t)]))
    case Array(t, _) => DT.List(DynamicType(t))
    case Class(_, ms, _) => Resolve(CG.Nest(ClassSlots(ty)), MemberTypes(ty))
  }

  function MemberTypes(c: Ty): (r: seq<DT.Dynamic>)
    requires c.Class?
    ensures |r| == |c.members|
    decreases c, 0
  {
    seq(|c.members|, i requires 0 <= i < |c.members| => DynamicType(c.members[i].ty))
  }

  function Resolve(st: CG.StaticType, members: seq<DT.Dynamic>): DT.Dynamic
  {
    match st
    case Unit => DT.Unit
    case VarInt => DT.VarInt
    case Pair(a, b) => DT.Pair(Resolve(a, members), Resolve(b, members))
    case OfMember(i) => if i < |members| then members[i] else DT.Unit
  }
}
