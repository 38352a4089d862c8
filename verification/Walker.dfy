/**
 The type-directed stack machine of oi/exporters/TypeCheckingWalker.cpp, against a recursive
 decoder that follows the structure of the type.
 */
module Walker {
  import opened Machine
  import opened DynamicTypes

  /** How a walk ends: with some words left over, or with one of the two exceptions. */
  datatype Stop = Done(rest: seq<U64>) | EndOfData | InvalidSumIndex(got: U64, max: nat)

  datatype Trace = Trace(events: seq<Event>, stop: Stop)

  function Prepend(e: Event, t: Trace): Trace
  {
    Trace([e] + t.events, t.stop)
  }

  /** What remains to be read after `t`. */
  function Rest(t: Trace): seq<U64>
  {
    if t.stop.Done? then t.stop.rest else []
  }

  /** `a`, followed by `b` unless `a` ended in an exception. */
  function Then(a: Trace, b: Trace): Trace
  {
    if a.stop.Done? then Trace(a.events + b.events, b.stop) else a
  }

  lemma ThenAssociative(a: Trace, b: Trace, c: Trace)
    ensures Then(Then(a, b), c) == Then(a, Then(b, c))
  {
    assert a.events + (b.events + c.events) == (a.events + b.events) + c.events;
  }

  /** The recursive decoder. */
  function Decode(ty: Dynamic, buf: seq<U64>): (t: Trace)
    decreases ty, 0
  {
    match ty
    case Unit => Trace([], Done(buf))
    case VarInt =>
      if buf == [] then Trace([], EndOfData) else Trace([VarIntEvent(buf[0])], Done(buf[1..]))
    case Pair(t1, t2) =>
      var a := Decode(t1, buf);
      Then(a, Decode(t2, Rest(a)))
    case Sum(ts) =>
      if buf == [] then Trace([], EndOfData)
      else if buf[0] >= |ts| then Trace([], InvalidSumIndex(buf[0], |ts|))
      else Prepend(SumIndex(buf[0]), Decode(ts[buf[0]], buf[1..]))
    case List(t) =>
      if buf == [] then Trace([], EndOfData)
      else Prepend(ListLength(buf[0]), DecodeMany(t, buf[0], buf[1..]))
  }

  function DecodeMany(ty: Dynamic, n: nat, buf: seq<U64>): (t: Trace)
    decreases ty, 1 + n
  {
    if n == 0 then Trace([], Done(buf))
    else
      var a := Decode(ty, buf);
      Then(a, DecodeMany(ty, n - 1, Rest(a)))
  }

  // ----- what the decoder accepts

  /** Every typed value is decoded to its own events, and what follows it is left alone. */
  lemma {:induction false} DecodeAccepts(v: Val, ty: Dynamic, rest: seq<U64>)
    requires HasType(v, ty)
    ensures Decode(ty, Words(Events(v, ty)) + rest) == Trace(Events(v, ty), Done(rest))
    decreases ty, 0
  {
    match ty
    case Unit =>
      assert Words(Events(v, ty)) + rest == rest;
    case VarInt =>
      WordThen(VarIntEvent(v.value), [], rest);
    case Pair(t1, t2) =>
      var e1, e2 := Events(v.first, t1), Events(v.second, t2);
      WordsThen(e1, e2, rest);
      DecodeAccepts(v.first, t1, Words(e2) + rest);
      DecodeAccepts(v.second, t2, rest);
    case Sum(ts) =>
      WordThen(SumIndex(v.index), Events(v.payload, ts[v.index]), rest);
      DecodeAccepts(v.payload, ts[v.index], rest);
    case List(t) =>
      WordThen(ListLength(|v.items|), EventsOfAll(v.items, t), rest);
      DecodeManyAccepts(v.items, t, rest);
  }

  lemma {:induction false} DecodeManyAccepts(vs: seq<Val>, ty: Dynamic, rest: seq<U64>)
    requires forall x :: x in vs ==> HasType(x, ty)
    ensures DecodeMany(ty, |vs|, Words(EventsOfAll(vs, ty)) + rest) == Trace(EventsOfAll(vs, ty), Done(rest))
    decreases ty, 1 + |vs|
  {
    if vs == [] {
      assert Words(EventsOfAll(vs, ty)) + rest == rest;
    } else {
      var e1, e2 := Events(vs[0], ty), EventsOfAll(vs[1..], ty);
      WordsThen(e1, e2, rest);
      DecodeAccepts(vs[0], ty, Words(e2) + rest);
      DecodeManyAccepts(vs[1..], ty, rest);
    }
  }

  /** A decoder that comes to its end has read a value of the type. */
  lemma {:induction false} DecodeIsSound(ty: Dynamic, buf: seq<U64>) returns (v: Val)
    requires Decode(ty, buf).stop.Done?
    ensures HasType(v, ty) && Decode(ty, buf).events == Events(v, ty)
    decreases ty, 0
  {
    match ty
    case Unit => v := UnitVal;
    case VarInt => v := IntVal(buf[0]);
    case Pair(t1, t2) =>
      var v1 := DecodeIsSound(t1, buf);
      var v2 := DecodeIsSound(t2, Rest(Decode(t1, buf)));
      v := PairVal(v1, v2);
    case Sum(ts) =>
      var p := DecodeIsSound(ts[buf[0]], buf[1..]);
      v := SumVal(buf[0], p);
    case List(t) =>
      var vs := DecodeManyIsSound(t, buf[0], buf[1..]);
      v := ListVal(vs);
  }

  lemma {:induction false} DecodeManyIsSound(ty: Dynamic, n: nat, buf: seq<U64>) returns (vs: seq<Val>)
    requires DecodeMany(ty, n, buf).stop.Done?
    ensures |vs| == n && forall x :: x in vs ==> HasType(x, ty)
    ensures DecodeMany(ty, n, buf).events == EventsOfAll(vs, ty)
    decreases ty, 1 + n
  {
    if n == 0 {
      vs := [];
    } else {
      var v := DecodeIsSound(ty, buf);
      var ws := DecodeManyIsSound(ty, n - 1, Rest(Decode(ty, buf)));
      vs := [v] + ws;
    }
  }

  /** The words of `es`, followed by what the way of stopping says about the next word. */
  ghost predicate Accounts(es: seq<Event>, stop: Stop, buf: seq<U64>)
  {
    && Words(es) <= buf
    && match stop
       case Done(rest) => buf == Words(es) + rest
       case EndOfData => buf == Words(es)
       case InvalidSumIndex(got, max) => |es| < |buf| && buf[|es|] == got && got >= max
  }

  lemma AccountsThen(a: Trace, b: Trace, buf: seq<U64>)
    requires Accounts(a.events, a.stop, buf)
    requires a.stop.Done? ==> Accounts(b.events, b.stop, a.stop.rest)
    ensures Accounts(Then(a, b).events, Then(a, b).stop, buf)
  {
    if a.stop.Done? {
      var es, fs, rest := a.events, b.events, a.stop.rest;
      WordsThen(es, fs, rest[|fs|..]);
      assert rest == Words(fs) + rest[|fs|..];
    }
  }

  lemma AccountsPrepend(e: Event, t: Trace, buf: seq<U64>)
    requires buf != [] && buf[0] == Word(e)
    requires Accounts(t.events, t.stop, buf[1..])
    ensures Accounts(Prepend(e, t).events, Prepend(e, t).stop, buf)
  {
    var one := Trace([e], Done(buf[1..]));
    assert buf == Words([e]) + buf[1..];
    AccountsThen(one, t, buf);
  }

  /**
   Serialising the events again gives back what was consumed; the walk runs out of data only
   when it has consumed all of it, and rejects an index only when it is out of range.
   */
  lemma {:induction false} DecodeAccounts(ty: Dynamic, buf: seq<U64>)
    ensures Accounts(Decode(ty, buf).events, Decode(ty, buf).stop, buf)
    decreases ty, 0
  {
    match ty
    case Unit =>
    case VarInt =>
      if buf != [] { assert buf == Words([VarIntEvent(buf[0])]) + buf[1..]; }
    case Pair(t1, t2) =>
      DecodeAccounts(t1, buf);
      var a := Decode(t1, buf);
      DecodeAccounts(t2, Rest(a));
      AccountsThen(a, Decode(t2, Rest(a)), buf);
    case Sum(ts) =>
      if buf != [] && buf[0] < |ts| {
        DecodeAccounts(ts[buf[0]], buf[1..]);
        AccountsPrepend(SumIndex(buf[0]), Decode(ts[buf[0]], buf[1..]), buf);
      }
    case List(t) =>
      if buf != [] {
        DecodeManyAccounts(t, buf[0], buf[1..]);
        AccountsPrepend(ListLength(buf[0]), DecodeMany(t, buf[0], buf[1..]), buf);
      }
  }

  lemma {:induction false} DecodeManyAccounts(ty: Dynamic, n: nat, buf: seq<U64>)
    ensures Accounts(DecodeMany(ty, n, buf).events, DecodeMany(ty, n, buf).stop, buf)
    decreases ty, 1 + n
  {
    if n > 0 {
      DecodeAccounts(ty, buf);
      var a := Decode(ty, buf);
      DecodeManyAccounts(ty, n - 1, Rest(a));
      AccountsThen(a, DecodeMany(ty, n - 1, Rest(a)), buf);
    }
  }

  /** The walk of a buffer succeeds exactly when the buffer starts with a value of the type. */
  lemma DecodeSucceedsIff(ty: Dynamic, buf: seq<U64>)
    ensures Decode(ty, buf).stop.Done? <==> exists v :: HasType(v, ty) && Words(Events(v, ty)) <= buf
  {
    if Decode(ty, buf).stop.Done? {
      var v := DecodeIsSound(ty, buf);
      DecodeAccounts(ty, buf);
      assert HasType(v, ty) && Words(Events(v, ty)) <= buf;
    }
    forall v | HasType(v, ty) && Words(Events(v, ty)) <= buf
      ensures Decode(ty, buf).stop.Done?
    {
      DecodeAcceptsPrefix(v, ty, buf);
    }
  }

  lemma DecodeAcceptsPrefix(v: Val, ty: Dynamic, buf: seq<U64>)
    requires HasType(v, ty) && Words(Events(v, ty)) <= buf
    ensures Decode(ty, buf) == Trace(Events(v, ty), Done(buf[|Events(v, ty)|..]))
  {
    var ws := Words(Events(v, ty));
    assert buf == ws + buf[|ws|..];
    DecodeAccepts(v, ty, buf[|ws|..]);
  }

  // ----- the stack machine

  /** What is left to decode: the top of the stack is its last element. */
  function DecodeStack(stack: seq<Dynamic>, buf: seq<U64>): (t: Trace)
    decreases |stack|
  {
    if stack == [] then Trace([], Done(buf))
    else
      var a := Decode(stack[|stack| - 1], buf);
      Then(a, DecodeStack(stack[..|stack| - 1], Rest(a)))
  }

  lemma ThenStack(a: Trace, b: Trace, stack: seq<Dynamic>)
    ensures Then(a, Then(b, DecodeStack(stack, Rest(b)))) == Then(Then(a, b), DecodeStack(stack, Rest(Then(a, b))))
  {
    ThenAssociative(a, b, DecodeStack(stack, Rest(b)));
  }

  lemma StackTop(stack: seq<Dynamic>, top: Dynamic, buf: seq<U64>)
    ensures var a := Decode(top, buf); DecodeStack(stack + [top], buf) == Then(a, DecodeStack(stack, Rest(a)))
  {
    assert (stack + [top])[..|stack|] == stack;
  }

  /** Pushing the halves of a pair, second first, leaves the same work. */
  lemma PairOnStack(stack: seq<Dynamic>, t1: Dynamic, t2: Dynamic, buf: seq<U64>)
    ensures DecodeStack(stack + [t2, t1], buf) == DecodeStack(stack + [Pair(t1, t2)], buf)
  {
    assert stack + [t2, t1] == (stack + [t2]) + [t1];
    StackTop(stack + [t2], t1, buf);
    StackTop(stack, Pair(t1, t2), buf);
    var a := Decode(t1, buf);
    StackTop(stack, t2, Rest(a));
    var b := Decode(t2, Rest(a));
    ThenStack(a, b, stack);
  }

  /** For any buffer, the stack `pending` leaves the work of decoding n elements before that of `stack`. */
  ghost predicate LeavesMany(pending: seq<Dynamic>, ty: Dynamic, n: nat, stack: seq<Dynamic>)
  {
    forall buf: seq<U64> ::
      DecodeStack(pending, buf) == Then(DecodeMany(ty, n, buf), DecodeStack(stack, Rest(DecodeMany(ty, n, buf))))
  }

  lemma LeavesNone(stack: seq<Dynamic>, ty: Dynamic)
    ensures LeavesMany(stack, ty, 0, stack)
  {
  }

  lemma LeavesOneMore(pending: seq<Dynamic>, ty: Dynamic, n: nat, stack: seq<Dynamic>)
    requires LeavesMany(pending, ty, n, stack)
    ensures LeavesMany(pending + [ty], ty, n + 1, stack)
  {
    forall buf: seq<U64>
      ensures var c := DecodeMany(ty, n + 1, buf);
              DecodeStack(pending + [ty], buf) == Then(c, DecodeStack(stack, Rest(c)))
    {
      StackTop(pending, ty, buf);
      var a := Decode(ty, buf);
      ThenStack(a, DecodeMany(ty, n, Rest(a)), stack);
    }
  }

  function Weight(ty: Dynamic): (w: nat)
    ensures w > 0
  {
    match ty
    case Pair(t1, t2) => 1 + Weight(t1) + Weight(t2)
    case _ => 1
  }

  function StackWeight(stack: seq<Dynamic>): nat
  {
    if stack == [] then 0 else StackWeight(stack[..|stack| - 1]) + Weight(stack[|stack| - 1])
  }

  lemma StackWeightPush(stack: seq<Dynamic>, top: Dynamic)
    ensures StackWeight(stack + [top]) == StackWeight(stack) + Weight(top)
  {
    assert (stack + [top])[..|stack|] == stack;
  }

  lemma WordOnStack(e: Event, stack: seq<Dynamic>, top: Dynamic, buf: seq<U64>)
    ensures var a := Decode(top, buf);
            Takes(Then(Prepend(e, a), DecodeStack(stack, Rest(a))), Item(e), DecodeStack(stack + [top], buf))
  {
    StackTop(stack, top, buf);
    var a := Decode(top, buf);
    PrependThen(e, a, DecodeStack(stack, Rest(a)));
  }

  lemma PrependThen(e: Event, a: Trace, b: Trace)
    ensures Then(Prepend(e, a), b) == Prepend(e, Then(a, b))
  {
    if a.stop.Done? {
      assert ([e] + a.events) + b.events == [e] + (a.events + b.events);
    }
  }

  lemma ListOnStack(pending: seq<Dynamic>, ty: Dynamic, n: U64, stack: seq<Dynamic>, buf: seq<U64>)
    requires LeavesMany(pending, ty, n, stack)
    ensures var a := DecodeMany(ty, n, buf);
            Takes(Then(Prepend(ListLength(n), a), DecodeStack(stack, Rest(a))), Item(ListLength(n)),
                  DecodeStack(pending, buf))
  {
    var a := DecodeMany(ty, n, buf);
    PrependThen(ListLength(n), a, DecodeStack(stack, Rest(a)));
  }

  datatype Advanced = Nothing | Item(event: Event) | Throw(error: Stop)

  /** `r` is the first thing in `before`, and `after` is what follows it. */
  ghost predicate Takes(before: Trace, r: Advanced, after: Trace)
  {
    match r
    case Nothing => before == after && before.events == [] && before.stop.Done?
    case Item(e) => before == Prepend(e, after)
    case Throw(err) => before == Trace([], err) && !err.Done?
  }

  class TypeCheckingWalker {
    var stack: seq<Dynamic>
    var buf: seq<U64>

    constructor (rootType: Dynamic, buffer: seq<U64>)
      ensures stack == [rootType] && buf == buffer
    {
      stack := [rootType];
      buf := buffer;
    }

    method PopFront() returns (el: Option<U64>)
      modifies this`buf
      ensures old(buf) == [] ==> el == None && buf == []
      ensures old(buf) != [] ==> el == Some(old(buf)[0]) && buf == old(buf)[1..]
    {
      if buf == [] {
        return None;
      }
      el := Some(buf[0]);
      buf := buf[1..];
    }

    /** Pushing n copies of the element type leaves the work of decoding n elements. */
    method PushCopies(ty: Dynamic, n: nat)
      modifies this`stack
      ensures LeavesMany(stack, ty, n, old(stack))
    {
      LeavesNone(stack, ty);
      for i := 0 to n
        invariant LeavesMany(stack, ty, i, old(stack))
      {
        LeavesOneMore(stack, ty, i, old(stack));
        stack := stack + [ty];
      }
    }

    /** One step of the walk takes one event, or the exception, off what is left to decode. */
    method Advance() returns (r: Advanced)
      modifies this
      ensures Takes(old(DecodeStack(stack, buf)), r, DecodeStack(stack, buf))
      ensures r.Nothing? ==> stack == [] && buf == old(buf)
      decreases StackWeight(stack)
    {
      if stack == [] {
        return Nothing;
      }
      var el := stack[|stack| - 1];
      ghost var below := stack[..|stack| - 1];
      assert stack == below + [el];
      StackTop(below, el, buf);
      StackWeightPush(below, el);
      stack := stack[..|stack| - 1];
      match el
      case Unit =>
        r := Advance();
      case VarInt =>
        var v := PopFront();
        if v == None { return Throw(EndOfData); }
        r := Item(VarIntEvent(v.value));
      case Pair(t1, t2) =>
        PairOnStack(below, t1, t2, buf);
        StackWeightPush(below, t2);
        StackWeightPush(below + [t2], t1);
        stack := stack + [t2];
        stack := stack + [t1];
        assert stack == below + [t2, t1];
        r := Advance();
      case List(t) =>
        r := AdvanceList(t);
      case Sum(ts) =>
        r := AdvanceSum(ts);
    }

    method AdvanceList(element: Dynamic) returns (r: Advanced)
      modifies this
      ensures var a := Decode(List(element), old(buf));
              Takes(Then(a, DecodeStack(old(stack), Rest(a))), r, DecodeStack(stack, buf)) && !r.Nothing?
    {
      var n := PopFront();
      if n == None { return Throw(EndOfData); }
      PushCopies(element, n.value);
      ListOnStack(stack, element, n.value, old(stack), buf);
      r := Item(ListLength(n.value));
    }

    method AdvanceSum(variants: seq<Dynamic>) returns (r: Advanced)
      modifies this
      ensures var a := Decode(Sum(variants), old(buf));
              Takes(Then(a, DecodeStack(old(stack), Rest(a))), r, DecodeStack(stack, buf)) && !r.Nothing?
    {
      var i := PopFront();
      if i == None { return Throw(EndOfData); }
      if i.value >= |variants| { return Throw(InvalidSumIndex(i.value, |variants|)); }
      WordOnStack(SumIndex(i.value), stack, variants[i.value], buf);
      stack := stack + [variants[i.value]];
      r := Item(SumIndex(i.value));
    }
  }

  /** Calling `Advance` until it has nothing more to give yields exactly the decoder's trace. */
  method WalkAll(rootType: Dynamic, data: seq<U64>) returns (t: Trace)
    ensures t == Decode(rootType, data)
  {
    var w := new TypeCheckingWalker(rootType, data);
    StackTop([], rootType, data);
    assert [] + [rootType] == [rootType];
    var events: seq<Event> := [];
    ghost var whole := Decode(rootType, data);
    while true
      invariant Trace(events + DecodeStack(w.stack, w.buf).events, DecodeStack(w.stack, w.buf).stop) == whole
      decreases |DecodeStack(w.stack, w.buf).events|
    {
      var r := w.Advance();
      match r
      case Nothing => return Trace(events, Done(w.buf));
      case Throw(err) => return Trace(events, err);
      case Item(e) =>
        assert events + ([e] + DecodeStack(w.stack, w.buf).events) == (events + [e]) + DecodeStack(w.stack, w.buf).events;
        events := events + [e];
    }
  }
}
