/** `IntrospectionResult::const_iterator` as an object. */
module ResultIterator {
  import opened Machine
  import opened Instructions
  import opened Iterator

  class ConstIterator<R> {
    const prog: Program<R>
    var data: seq<Byte>
    var stack: seq<Inst<R>>
    var next: Option<Element>
    var typePath: seq<string>
    var dynamicTypePath: seq<OwnedName>
    var increments: nat

    ghost function Abs(): State<R>
      reads this
    {
      State(data, stack, next, typePath, dynamicTypePath, increments)
    }

    constructor (prog: Program<R>, buf: seq<Byte>, stack: seq<Inst<R>>)
      ensures this.prog == prog && Abs() == State(buf, stack, None, [], [], 0)
    {
      this.prog := prog;
      data := buf;
      this.stack := stack;
      next, typePath, dynamicTypePath, increments := None, [], [], 0;
    }

    /** `operator==`. */
    method Equals(that: ConstIterator<R>) returns (same: bool)
      ensures same == Same(Abs(), that.Abs())
    {
      if |data| != |that.data| {
        return false;
      }
      if next.None? && that.next.None? {
        return true;
      }
      return increments == that.increments;
    }

    /** `operator++`; false stands for undefined behaviour. */
    method PlusPlus() returns (ok: bool)
      modifies this
      ensures ok <==> Increment(prog, old(Abs())).Some?
      ensures ok ==> Abs() == Increment(prog, old(Abs())).value
      ensures ok ==> Shows(prog, NextField(old(stack)), Abs())
      decreases Skipped(stack)
    {
      hide Emit, Shows, NextField;
      IncrementMayShow(prog, Abs());
      if stack == [] {
        if next.Some? {
          increments := increments + 1;
          next := None;
        }
        return true;
      }
      increments := increments + 1;
      var el := stack[|stack| - 1];
      stack := stack[..|stack| - 1];
      match el
      case PopTypePath =>
        if typePath == [] {
          return false;
        }
        if dynamicTypePath != [] && dynamicTypePath[|dynamicTypePath| - 1].depth == |typePath| {
          dynamicTypePath := dynamicTypePath[..|dynamicTypePath| - 1];
        }
        typePath := typePath[..|typePath| - 1];
        ok := PlusPlus();
      case Repeat(n, r) =>
        if n != 0 {
          SkippedRepeatOnce(stack, n, r);
          ghost var below := stack;
          stack := stack + [Repeat(n - 1, r)];
          stack := stack + [FieldInst(r)];
          assert stack == below + RepeatOnce(n, r);
        }
        ok := PlusPlus();
      case FieldInst(r) =>
        ok := MeetField(r);
    }

    method MeetField(r: R) returns (ok: bool)
      modifies this`data, this`stack, this`next, this`typePath, this`dynamicTypePath
      ensures ok <==> Emit(prog, old(Abs()), r).Some?
      ensures ok ==> Abs() == Emit(prog, old(Abs()), r).value
    {
      hide RunProcessors, NameFromData;
      var f := prog.deref(r);
      typePath := typePath + [f.name];
      stack := stack + [PopTypePath];
      next := Some(FreshElement(f, typePath[..|typePath| - 1]));
      ghost var low := stack;
      ghost var start := Handled(next.value, [], data);
      ok := Process(f.processors);
      if !ok {
        return;
      }
      ghost var h := RunProcessors(f.processors, start).value;
      next := Some(next.value.(typePath := typePath));
      var newName := NameFromData(prog.showPointer, next.value.data);
      if newName.Some? {
        dynamicTypePath := dynamicTypePath + [OwnedName(|typePath|, newName.value)];
        typePath := typePath[..|typePath| - 1] + [newName.value];
        next := Some(next.value.(name := newName.value, typePath := typePath));
      }
      PushFields(f.fields);
      assert stack == low + ChildStack(f, h.pushed);
    }

    /** Parses the data of each processor in turn and hands it to the handler. */
    method Process(ps: seq<Processor<R>>) returns (ok: bool)
      requires next.Some?
      modifies this`data, this`stack, this`next
      ensures var h := RunProcessors(ps, Handled(old(next).value, [], old(data)));
              && (ok <==> h.Some?)
              && (ok ==> next == Some(h.value.element) && data == h.value.rest && stack == old(stack) + h.value.pushed)
    {
      ghost var start := Handled(next.value, [], data);
      ghost var pushed: seq<Inst<R>> := [];
      for i := 0 to |ps|
        invariant next.Some? && stack == old(stack) + pushed
        invariant RunProcessors(ps, start) == RunProcessors(ps[i..], Handled(next.value, pushed, data))
      {
        assert ps[i..][0] == ps[i] && ps[i..][1..] == ps[i + 1..];
        var parsed := ParseHead(ps[i].dy, data);
        if parsed.None? {
          return false;
        }
        var h := ps[i].handler(next.value, parsed.value.0, parsed.value.1);
        if h.None? {
          return false;
        }
        next := Some(h.value.element);
        data := h.value.rest;
        stack := stack + h.value.pushed;
        pushed := pushed + h.value.pushed;
      }
      return true;
    }

    /** Pushes the fields last first, so that they are met in order. */
    method PushFields(fields: seq<R>)
      modifies this`stack
      ensures stack == old(stack) + Reversed(AsInsts(fields))
    {
      for i := |fields| downto 0
        invariant stack == old(stack) + Reversed(AsInsts(fields[i..]))
      {
        assert fields[i..][0] == fields[i] && fields[i..][1..] == fields[i + 1..];
        assert AsInsts(fields[i..])[1..] == AsInsts(fields[i + 1..]);
        stack := stack + [FieldInst(fields[i])];
      }
      assert fields[0..] == fields;
    }
  }
}
