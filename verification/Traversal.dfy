/** The generated traversal as it runs: it writes bytes to a buffer and remembers pointers. */
module Traversal {
  import opened Machine
  import opened ObjectModel
  import opened PointerSet
  import Leb128
  import CG = ClassCodeGen

  lemma PointerIsWritten(t: Ty, o: Obj, seen: set<U64>, cap: nat)
    requires HasShape(o, Pointer(t))
    ensures var w := Write(Pointer(t), o, seen, cap);
            if Follows(o.address, seen, cap) then
              var head := Leb128.Encode(o.address) + Leb128.Encode(1);
              if t.Incomplete? then w == Written(head, seen + {o.address})
              else
                var p := Write(t, o.pointee, seen + {o.address}, cap);
                w == Written(head + p.bytes, p.seen)
            else
              w == Written(Leb128.Encode(o.address) + Leb128.Encode(0), seen)
  {
    hide Leb128.Encode;
    var head := Head(Pointer(t), o, seen, cap);
    assert head + [] == head;
  }

  lemma ScalarIsWritten(ty: Ty, o: Obj, seen: set<U64>, cap: nat)
    requires HasShape(o, ty) && (ty.Primitive? || ty.Incomplete?)
    ensures Write(ty, o, seen, cap) == Written([], seen)
  {
  }

  lemma ArrayIsWritten(t: Ty, n: U64, o: Obj, seen: set<U64>, cap: nat)
    requires HasShape(o, Array(t, n))
    ensures o.ArrayObj? && forall x :: x in o.items ==> HasShape(x, t)
    ensures Write(Array(t, n), o, seen, cap) ==
            var items := WriteItems(t, o.items, seen, cap);
            Written(Leb128.Encode(n) + items.bytes, items.seen)
  {
    hide Leb128.Encode, WriteItems;
  }

  lemma ClassIsWritten(c: Ty, o: Obj, seen: set<U64>, cap: nat)
    requires c.Class? && HasShape(o, c)
    ensures |c.members| < U64_LIMIT - 1 && Write(c, o, seen, cap) == WriteSlots(c, o, ClassSlots(c), 0, seen, cap)
  {
    hide WriteSlots, ClassSlots;
  }

  lemma PointeeHasShape(t: Ty, o: Obj, seen: set<U64>, cap: nat)
    requires HasShape(o, Pointer(t))
    ensures o.PointerObj? && (Follows(o.address, seen, cap) ==> HasShape(o.pointee, t))
  {
  }

  lemma Join<T>(a: seq<T>, b: seq<T>, c: seq<T>)
    ensures (a + b) + c == a + (b + c)
  {
  }

  /** The first slot and then the others. */
  lemma SlotsAreWritten(c: Ty, o: Obj, slots: seq<CG.StaticType>, j: nat, k: nat, seen: set<U64>, cap: nat)
    requires c.Class? && HasShape(o, c) && j < |slots|
    requires forall i :: 0 <= i < |slots| && slots[i].OfMember? ==> slots[i].index < |c.members|
    ensures WriteSlots(c, o, slots[j..], k, seen, cap) ==
            if slots[j].OfMember? then
              var a := Write(c.members[slots[j].index].ty, o.members[slots[j].index], seen, cap);
              var b := WriteSlots(c, o, slots[j + 1..], k, a.seen, cap);
              Written(a.bytes + b.bytes, b.seen)
            else
              var b := WriteSlots(c, o, slots[j + 1..], k + 1, seen, cap);
              Written(Leb128.Encode(Isset(o, k)) + b.bytes, b.seen)
  {
    hide Write;
    assert slots[j..][0] == slots[j] && slots[j..][1..] == slots[j + 1..];
  }

  class TypeHandler {
    /** The bytes written so far (`DataBuffer`). */
    var out: seq<Byte>
    /** `ctx.pointers`. */
    const pointers: PointerHashSet

    constructor (pointers: PointerHashSet)
      ensures this.pointers == pointers && out == []
    {
      this.pointers := pointers;
      out := [];
    }

    ghost function Seen(): set<U64>
      reads pointers, pointers.data
    {
      pointers.Contents()
    }

    ghost function Cap(): nat
    {
      pointers.data.Length
    }

    /** `VarInt::write`. */
    method WriteVarInt(value: U64)
      modifies this
      ensures out == old(out) + Leb128.Encode(value)
    {
      var val: U64 := value;
      while val >= 0x80
        invariant out + Leb128.Encode(val) == old(out) + Leb128.Encode(value)
      {
        out := out + [0x80 + val % 0x80];
        val := val / 0x80;
      }
      out := out + [val];
    }

    /** The traversal of an object writes exactly what `Write` says and remembers the same pointers. */
    method GetSizeType(ty: Ty, o: Obj)
      requires pointers.Valid() && HasShape(o, ty)
      modifies this, pointers, pointers.data
      ensures pointers.Valid()
      ensures out == old(out) + Write(ty, o, old(Seen()), Cap()).bytes
      ensures Seen() == Write(ty, o, old(Seen()), Cap()).seen
      decreases ty, 2, 0
    {
      hide PointerHashSet.Valid, PointerHashSet.Contents, Write, WriteItems, WriteSlots, HasShape, Leb128.Encode;
      match ty
      case Primitive(_) => ScalarIsWritten(ty, o, Seen(), Cap());
      case Incomplete => ScalarIsWritten(ty, o, Seen(), Cap());
      case Pointer(t) => WritePointer(t, o);
      case Array(t, n) =>
        ArrayIsWritten(t, n, o, Seen(), Cap());
        Join(out, Leb128.Encode(n), WriteItems(t, o.items, Seen(), Cap()).bytes);
        WriteVarInt(n);
        WriteAllItems(t, o.items);
      case Class(_, _, _) =>
        ClassIsWritten(ty, o, Seen(), Cap());
        var ops := CG.GenClassTraversalFunction(Texts(ty.members), ty.issetMember);
        RunChain(ty, o, ops);
    }

    method WritePointer(t: Ty, o: Obj)
      requires pointers.Valid() && HasShape(o, Pointer(t))
      modifies this, pointers, pointers.data
      ensures pointers.Valid()
      ensures out == old(out) + Write(Pointer(t), o, old(Seen()), Cap()).bytes
      ensures Seen() == Write(Pointer(t), o, old(Seen()), Cap()).seen
      decreases t, 4, 0
    {
      hide PointerHashSet.Valid, PointerHashSet.Contents, Write, Content, Follows, Leb128.Encode;
      PointerIsWritten(t, o, Seen(), Cap());
      PointeeHasShape(t, o, Seen(), Cap());
      ghost var before, seen := out, Seen();
      var follow := StartPointer(o.address);
      if follow {
        WriteVarInt(1);
        Join(before, Leb128.Encode(o.address), Leb128.Encode(1));
        if !t.Incomplete? {
          GetSizeType(t, o.pointee);
          Join(before, Leb128.Encode(o.address) + Leb128.Encode(1), Write(t, o.pointee, seen + {o.address}, Cap()).bytes);
        }
      } else {
        WriteVarInt(0);
        Join(before, Leb128.Encode(o.address), Leb128.Encode(0));
      }
    }

    /** The value of a pointer is written, and whether to follow it is up to the set. */
    method StartPointer(address: U64) returns (follow: bool)
      requires pointers.Valid()
      modifies this, pointers, pointers.data
      ensures pointers.Valid()
      ensures out == old(out) + Leb128.Encode(address)
      ensures follow == Follows(address, old(Seen()), Cap())
      ensures Seen() == old(Seen()) + if follow then {address} else {}
    {
      hide PointerHashSet.Valid, PointerHashSet.Contents, Leb128.Encode;
      WriteVarInt(address);
      follow := false;
      if address != 0 {
        follow := pointers.Add(address);
      }
    }

    /** The loop of the OIArray handler. */
    method WriteAllItems(t: Ty, items: seq<Obj>)
      requires pointers.Valid() && forall x :: x in items ==> HasShape(x, t)
      modifies this, pointers, pointers.data
      ensures pointers.Valid()
      ensures out == old(out) + WriteItems(t, items, old(Seen()), Cap()).bytes
      ensures Seen() == WriteItems(t, items, old(Seen()), Cap()).seen
      decreases t, 3, 0
    {
      hide PointerHashSet.Valid, PointerHashSet.Contents, Write, HasShape;
      ghost var whole := WriteItems(t, items, Seen(), Cap());
      assert items[0..] == items;
      for i := 0 to |items|
        invariant pointers.Valid()
        invariant forall x :: x in items[i..] ==> HasShape(x, t)
        invariant out + WriteItems(t, items[i..], Seen(), Cap()).bytes == old(out) + whole.bytes
        invariant WriteItems(t, items[i..], Seen(), Cap()).seen == whole.seen
      {
        assert items[i..][0] == items[i] && items[i..][1..] == items[i + 1..];
        GetSizeType(t, items[i]);
      }
    }

    /** Runs the chain of writes that was generated for a class. */
    method RunChain(c: Ty, o: Obj, ops: seq<CG.Op>)
      requires pointers.Valid() && c.Class? && HasShape(o, c)
      requires CG.Stored(ops) == ClassSlots(c) && CG.IssetsNumbered(ops)
      modifies this, pointers, pointers.data
      ensures pointers.Valid()
      ensures out == old(out) + WriteSlots(c, o, ClassSlots(c), 0, old(Seen()), Cap()).bytes
      ensures Seen() == WriteSlots(c, o, ClassSlots(c), 0, old(Seen()), Cap()).seen
      decreases c, 0, 0
    {
      hide PointerHashSet.Valid, PointerHashSet.Contents, Write, ClassSlots, WriteSlots;
      ghost var slots := ClassSlots(c);
      ghost var whole := WriteSlots(c, o, slots, 0, Seen(), Cap());
      assert slots[0..] == slots;
      for j := 0 to |ops|
        invariant pointers.Valid()
        invariant out + WriteSlots(c, o, slots[j..], CG.IssetCount(ops, j), Seen(), Cap()).bytes == old(out) + whole.bytes
        invariant WriteSlots(c, o, slots[j..], CG.IssetCount(ops, j), Seen(), Cap()).seen == whole.seen
      {
        assert slots[j] == CG.SlotOfOp(ops[j]);
        SlotsAreWritten(c, o, slots, j, CG.IssetCount(ops, j), Seen(), Cap());
        ghost var before := out;
        if ops[j].WriteIsset? {
          WriteVarInt(Isset(o, ops[j].fieldIndex));
        } else {
          GetSizeType(c.members[ops[j].index].ty, o.members[ops[j].index]);
        }
        assert out[..|before|] == before;
        Join(before, out[|before|..], WriteSlots(c, o, slots[j + 1..], CG.IssetCount(ops, j + 1), Seen(), Cap()).bytes);
      }
      NoSlots(c, o, Seen(), CG.IssetCount(ops, |ops|), Cap());
    }
  }

  lemma NoSlots(c: Ty, o: Obj, seen: set<U64>, k: nat, cap: nat)
    requires c.Class? && HasShape(o, c)
    ensures WriteSlots(c, o, [], k, seen, cap) == Written([], seen)
  {
  }
}
