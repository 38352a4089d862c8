/** A whole introspection: `introspect_`, the result's iterator, and the CSV exporter on top of both. */
module Introspection {
  import opened Machine
  import opened Instructions
  import opened Iterator
  import opened ObjectModel
  import opened PointerSet
  import opened RoundTrip
  import opened Traversal
  import Leb128
  import DT = DynamicTypes
  import CG = ClassCodeGen
  import Csv

  /** The root instruction, whose field is called "a0". */
  function Root(ty: Ty): FieldRef
  {
    FieldRef("a0", ty, false, false)
  }

  /** The bytes of an object at `address`: the root's own address is never followed again. */
  ghost function Segment(ty: Ty, o: Obj, address: U64, cap: nat): seq<Byte>
    requires HasShape(o, ty)
  {
    Write(ty, o, {address}, cap).bytes
  }

  /** The object as it should be reported. */
  ghost function Expected(info: TypeInfo, ty: Ty, o: Obj, address: U64, cap: nat): Tree<FieldRef>
    requires HasShape(o, ty)
  {
    Report(info, Root(ty), 0, o, [], {address}, cap).tree
  }

  /** `introspect_`: a fresh buffer and pointer set, the root remembered, and the traversal. */
  method Introspect(ty: Ty, o: Obj, address: U64, pointers: PointerHashSet) returns (v: seq<Byte>)
    requires HasShape(o, ty) && address != 0 && pointers.data.Length > 0
    modifies pointers, pointers.data
    ensures v == Segment(ty, o, address, pointers.data.Length)
  {
    pointers.Initialize();
    var added := pointers.Add(address);
    var handler := new TypeHandler(pointers);
    assert handler.Seen() == {address};
    handler.GetSizeType(ty, o);
    v := handler.out;
  }

  /** Reading a segment takes all of it and yields the object. */
  lemma SegmentIsRead(info: TypeInfo, ty: Ty, o: Obj, address: U64, cap: nat)
    requires HasShape(o, ty)
    ensures ReadField(ProgramOf(info), Root(ty), [], Segment(ty, o, address, cap), Expected(info, ty, o, address, cap)) == Some([])
  {
    hide Write, Report, ReadField;
    NodeIsRead(info, Root(ty), 0, o, [], {address}, cap, []);
    var bytes := Write(ty, o, {address}, cap).bytes;
    assert NodeBytes(Root(ty), 0, o, {address}, cap) + [] == bytes;
  }

  /**
   The loop from begin() to end() over an introspected object shows exactly the object's elements in
   pre-order and stops right after the last one.
   */
  lemma IterationShowsObject(info: TypeInfo, ty: Ty, o: Obj, address: U64, cap: nat, k: nat)
    requires HasShape(o, ty) && k > 0
    ensures var es := Preorder([Expected(info, ty, o, address, cap)]);
            var s := Steps(ProgramOf(info), Start(Segment(ty, o, address, cap), FieldInst(Root(ty))), k);
            && s.Some?
            && (k <= |es| ==> s.value.next == Some(es[k - 1]) && !Same(s.value, Finish()))
            && (k > |es| ==> s.value.next == None && s.value.data == [] && Same(s.value, Finish()))
  {
    hide Write, Report, ReadField, Increment, Preorder;
    SegmentIsRead(info, ty, o, address, cap);
    LoopStopsIffAllRead(ProgramOf(info), Root(ty), Segment(ty, o, address, cap), Expected(info, ty, o, address, cap), k);
  }

  // ----- the generated handlers leave the type path to the iterator

  ghost predicate Tame(p: Processor<FieldRef>)
  {
    forall el, d, data :: p.handler(el, d, data).Some? ==> NoPops(p.handler(el, d, data).value.pushed)
  }

  lemma {:induction false} TameProcessorsPushNoPops(ps: seq<Processor<FieldRef>>, h: Handled<FieldRef>)
    requires forall i :: 0 <= i < |ps| ==> Tame(ps[i])
    requires NoPops(h.pushed) && RunProcessors(ps, h).Some?
    ensures NoPops(RunProcessors(ps, h).value.pushed)
  {
    if ps != [] {
      var (head, rest) := ParseHead(ps[0].dy, h.rest).value;
      var g := ps[0].handler(h.element, head, rest).value;
      assert Tame(ps[0]);
      TameProcessorsPushNoPops(ps[1..], Handled(g.element, h.pushed + g.pushed, g.rest));
    }
  }

  lemma ProcessorsAreTame(ty: Ty)
    ensures forall i :: 0 <= i < |Processors(ty)| ==> Tame(Processors(ty)[i])
  {
    match ty
    case Pointer(t) =>
      assert Tame(Processors(ty)[0]);
      assert Tame(Processors(ty)[1]);
    case Array(t, n) =>
      assert Tame(Processors(ty)[0]);
    case _ =>
  }

  lemma ProgramLeavesPathAlone(info: TypeInfo)
    ensures LeavesPathAlone(ProgramOf(info))
  {
    var prog := ProgramOf(info);
    forall r, path, data | Visit(prog, prog.deref(r), path, data).Some?
      ensures NoPops(ChildStack(prog.deref(r), Visit(prog, prog.deref(r), path, data).value.pushed))
    {
      var f := Deref(info, r);
      VisitPushesNoPops(info, r, path, data);
      var s := AsInsts(f.fields);
      assert forall i :: 0 <= i < |Reversed(s)| ==> Reversed(s)[i] == s[|s| - 1 - i];
    }
  }

  lemma VisitPushesNoPops(info: TypeInfo, r: FieldRef, path: seq<string>, data: seq<Byte>)
    requires Visit(ProgramOf(info), Deref(info, r), path, data).Some?
    ensures NoPops(Visit(ProgramOf(info), Deref(info, r), path, data).value.pushed)
  {
    var f := Deref(info, r);
    ProcessorsAreTame(r.ty);
    if r.isset {
      assert Tame(Processor(DT.VarInt, ProcessThriftIsset));
      assert f.processors == [Processor(DT.VarInt, ProcessThriftIsset)] + Processors(r.ty);
    } else {
      assert f.processors == Processors(r.ty);
    }
    TameProcessorsPushNoPops(f.processors, Handled(FreshElement(f, path), [], data));
  }

  /** From an object to the rows of a CSV file: one row a node, each with the row of its parent. */
  method ExportCsv(info: TypeInfo, ty: Ty, o: Obj, address: U64, pointers: PointerHashSet) returns (rows: seq<Csv.Row>)
    requires HasShape(o, ty) && address != 0 && pointers.data.Length > 0
    modifies pointers, pointers.data
    ensures rows == Csv.Numbered([Expected(info, ty, o, address, pointers.data.Length)], 0, 0)
  {
    hide Segment, Expected, ReadField, LeavesPathAlone;
    var buf := Introspect(ty, o, address, pointers);
    SegmentIsRead(info, ty, o, address, pointers.data.Length);
    ProgramLeavesPathAlone(info);
    var printer := new Csv.Printer();
    printer.Print(ProgramOf(info), Root(ty), buf, Expected(info, ty, o, address, pointers.data.Length));
    rows := printer.rows;
    assert [] + rows == rows;
  }

  // ----- the segment is a value of the class's static type

  /** `bytes` are the words of the typed value `v`. */
  ghost predicate Encodes(bytes: seq<Byte>, v: DT.Val, ty: DT.Dynamic)
  {
    DT.HasType(v, ty) && bytes == Leb128.EncodeAll(DT.Words(DT.Events(v, ty)))
  }

  lemma EncodesInt(n: U64)
    ensures Encodes(Leb128.Encode(n), DT.IntVal(n), DT.VarInt)
  {
    assert DT.Events(DT.IntVal(n), DT.VarInt) == [DT.VarIntEvent(n)];
    assert Leb128.Encode(n) + [] == Leb128.Encode(n);
    assert DT.Words([DT.VarIntEvent(n)]) == [n];
    assert Leb128.EncodeAll([n]) == Leb128.Encode(n) + Leb128.EncodeAll([]);
  }

  lemma EncodesPair(a: seq<Byte>, v: DT.Val, s: DT.Dynamic, b: seq<Byte>, w: DT.Val, t: DT.Dynamic)
    requires Encodes(a, v, s) && Encodes(b, w, t)
    ensures Encodes(a + b, DT.PairVal(v, w), DT.Pair(s, t))
  {
    var x, y := DT.Events(v, s), DT.Events(w, t);
    assert DT.Events(DT.PairVal(v, w), DT.Pair(s, t)) == x + y;
    DT.WordsConcat(x, y);
    Leb128.EncodeAllConcat(DT.Words(x), DT.Words(y));
  }

  lemma EncodesSum(i: nat, b: seq<Byte>, w: DT.Val, ts: seq<DT.Dynamic>)
    requires i < |ts| && i < U64_LIMIT && Encodes(b, w, ts[i])
    ensures Encodes(Leb128.Encode(i) + b, DT.SumVal(i, w), DT.Sum(ts))
  {
    var y := DT.Events(w, ts[i]);
    assert DT.Events(DT.SumVal(i, w), DT.Sum(ts)) == [DT.SumIndex(i)] + y;
    DT.WordsConcat([DT.SumIndex(i)], y);
    assert DT.Words([DT.SumIndex(i)]) == [i];
    Leb128.EncodeAllConcat([i], DT.Words(y));
    assert Leb128.EncodeAll([i]) == Leb128.Encode(i) + Leb128.EncodeAll([]);
    assert Leb128.Encode(i) + [] == Leb128.Encode(i);
  }

  ghost predicate EncodesItems(bytes: seq<Byte>, vs: seq<DT.Val>, ty: DT.Dynamic)
  {
    && (forall x :: x in vs ==> DT.HasType(x, ty))
    && bytes == Leb128.EncodeAll(DT.Words(DT.EventsOfAll(vs, ty)))
  }

  lemma EncodesMoreItems(a: seq<Byte>, v: DT.Val, b: seq<Byte>, vs: seq<DT.Val>, ty: DT.Dynamic)
    requires Encodes(a, v, ty) && EncodesItems(b, vs, ty)
    ensures EncodesItems(a + b, [v] + vs, ty)
  {
    var x, y := DT.Events(v, ty), DT.EventsOfAll(vs, ty);
    assert ([v] + vs)[1..] == vs;
    assert DT.EventsOfAll([v] + vs, ty) == x + y;
    DT.WordsConcat(x, y);
    Leb128.EncodeAllConcat(DT.Words(x), DT.Words(y));
  }

  lemma EncodesList(b: seq<Byte>, vs: seq<DT.Val>, ty: DT.Dynamic)
    requires EncodesItems(b, vs, ty) && |vs| < U64_LIMIT
    ensures Encodes(Leb128.Encode(|vs|) + b, DT.ListVal(vs), DT.List(ty))
  {
    var n: U64 := |vs|;
    var y := DT.EventsOfAll(vs, ty);
    assert DT.Events(DT.ListVal(vs), DT.List(ty)) == [DT.ListLength(n)] + y;
    DT.WordsConcat([DT.ListLength(n)], y);
    assert DT.Words([DT.ListLength(n)]) == [n];
    Leb128.EncodeAllConcat([n], DT.Words(y));
    assert Leb128.EncodeAll([n]) == Leb128.Encode(n) + Leb128.EncodeAll([]);
    assert Leb128.Encode(n) + [] == Leb128.Encode(n);
  }

  /** What the traversal writes for an object is the encoding of a value of the object's static type. */
  lemma {:induction false} SegmentIsTyped(ty: Ty, o: Obj, seen: set<U64>, cap: nat) returns (v: DT.Val)
    requires HasShape(o, ty)
    ensures Encodes(Write(ty, o, seen, cap).bytes, v, DynamicType(ty))
    decreases ty, 2, 0
  {
    hide Encodes;
    match ty
    case Primitive(_) => v := UnitIsTyped(ty, o, seen, cap);
    case Incomplete => v := UnitIsTyped(ty, o, seen, cap);
    case Pointer(t) =>
      PointerIsWritten(t, o, seen, cap);
      EncodesInt(o.address);
      var u, ts := DT.UnitVal, [DT.Unit, DynamicType(t)];
      UnitEncodes();
      if !Follows(o.address, seen, cap) {
        EncodesSum(0, [], u, ts);
        EncodesPair(Leb128.Encode(o.address), DT.IntVal(o.address), DT.VarInt, Leb128.Encode(0) + [], DT.SumVal(0, u), DT.Sum(ts));
        assert Leb128.Encode(0) + [] == Leb128.Encode(0);
        v := DT.PairVal(DT.IntVal(o.address), DT.SumVal(0, u));
      } else {
        var w, b := u, [];
        if !t.Incomplete? {
          b := Write(t, o.pointee, seen + {o.address}, cap).bytes;
          w := SegmentIsTyped(t, o.pointee, seen + {o.address}, cap);
        }
        EncodesSum(1, b, w, ts);
        EncodesPair(Leb128.Encode(o.address), DT.IntVal(o.address), DT.VarInt, Leb128.Encode(1) + b, DT.SumVal(1, w), DT.Sum(ts));
        Join(Leb128.Encode(o.address), Leb128.Encode(1), b);
        assert Leb128.Encode(1) + [] == Leb128.Encode(1);
        v := DT.PairVal(DT.IntVal(o.address), DT.SumVal(1, w));
      }
    case Array(t, n) =>
      var vs := ItemsAreTyped(t, o.items, seen, cap);
      EncodesList(WriteItems(t, o.items, seen, cap).bytes, vs, DynamicType(t));
      v := DT.ListVal(vs);
    case Class(_, _, _) =>
      v := SlotsAreTyped(ty, o, ClassSlots(ty), 0, seen, cap);
      var b := WriteSlots(ty, o, ClassSlots(ty), 0, seen, cap).bytes;
      assert [] + b == b;
  }

  lemma UnitEncodes()
    ensures Encodes([], DT.UnitVal, DT.Unit)
  {
  }

  lemma UnitIsTyped(ty: Ty, o: Obj, seen: set<U64>, cap: nat) returns (v: DT.Val)
    requires HasShape(o, ty) && (ty.Primitive? || ty.Incomplete?)
    ensures Encodes(Write(ty, o, seen, cap).bytes, v, DynamicType(ty))
  {
    v := DT.UnitVal;
  }

  lemma {:induction false} ItemsAreTyped(ty: Ty, items: seq<Obj>, seen: set<U64>, cap: nat) returns (vs: seq<DT.Val>)
    requires forall x :: x in items ==> HasShape(x, ty)
    ensures |vs| == |items| && EncodesItems(WriteItems(ty, items, seen, cap).bytes, vs, DynamicType(ty))
    decreases ty, 3, |items|
  {
    hide Encodes, Write;
    vs := [];
    if items != [] {
      var a := Write(ty, items[0], seen, cap);
      var v := SegmentIsTyped(ty, items[0], seen, cap);
      var ws := ItemsAreTyped(ty, items[1..], a.seen, cap);
      EncodesMoreItems(a.bytes, v, WriteItems(ty, items[1..], a.seen, cap).bytes, ws, DynamicType(ty));
      vs := [v] + ws;
    }
  }

  /** The first slot, as a value of its own type; k counts isset values. */
  lemma {:induction false} SlotsAreTyped(c: Ty, o: Obj, slots: seq<CG.StaticType>, k: nat, seen: set<U64>, cap: nat)
    returns (v: DT.Val)
    requires c.Class? && HasShape(o, c) && SlotsInRange(c, slots) && CG.Simple(slots)
    ensures Encodes(WriteSlots(c, o, slots, k, seen, cap).bytes, v, Resolve(CG.Nest(slots), MemberTypes(c)))
    decreases c, 0, |slots|
  {
    hide Encodes, Write;
    if slots == [] {
      UnitEncodes();
      v := DT.UnitVal;
    } else {
      var head, seen', k' := Leb128.Encode(Isset(o, k)), seen, k + 1;
      if slots[0].OfMember? {
        var i := slots[0].index;
        var a := Write(c.members[i].ty, o.members[i], seen, cap);
        v := SegmentIsTyped(c.members[i].ty, o.members[i], seen, cap);
        head, seen', k' := a.bytes, a.seen, k;
      } else {
        EncodesInt(Isset(o, k));
        v := DT.IntVal(Isset(o, k));
      }
      assert Encodes(head, v, Resolve(slots[0], MemberTypes(c)));
      var b := WriteSlots(c, o, slots[1..], k', seen', cap).bytes;
      assert WriteSlots(c, o, slots, k, seen, cap).bytes == head + b;
      if |slots| == 1 {
        assert slots[1..] == [] && head + [] == head;
      } else {
        var w := SlotsAreTyped(c, o, slots[1..], k', seen', cap);
        EncodesPair(head, v, Resolve(slots[0], MemberTypes(c)), b, w, Resolve(CG.Nest(slots[1..]), MemberTypes(c)));
        v := DT.PairVal(v, w);
      }
    }
  }
}
