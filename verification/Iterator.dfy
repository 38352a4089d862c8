/**
 The iterator of oi/IntrospectionResult.cpp, a stack machine that reads the data segment
 and keeps the path of names that leads to the current element, against a recursive pre-order reading.
 */
module Iterator {
  import opened Machine
  import opened Instructions

  // ----- the recursive reading

  /** An object as read from the segment: its element and then its children, in order. */
  datatype Tree<R> = Node(field: R, element: Element, children: seq<Tree<R>>)

  /** Where a reading ends: the path it leaves behind and the bytes it has not touched. */
  datatype End = End(path: seq<string>, rest: seq<Byte>)

  /** If `t` is the reading of field `r` below `path`, the bytes that follow it. */
  ghost function ReadField<R(!new)>(prog: Program<R>, r: R, path: seq<string>, data: seq<Byte>,
                                    t: Tree<R>): Option<seq<Byte>>
    decreases t, 0
  {
    match Visit(prog, prog.deref(r), path, data)
    case None => None
    case Some(h) =>
      if t.field != r || t.element != h.element then None
      else
        match ReadStack(prog, ChildStack(prog.deref(r), h.pushed), h.element.typePath, h.rest, t.children)
        case None => None
        case Some(e) => if e.path == h.element.typePath then Some(e.rest) else None
  }

  /**
   If `ts` are the readings of the instructions on `stack`, last first, the end of the last one.
   Repeat stands for copies of its field, and PopTypePath for going back up one name.
   */
  ghost function ReadStack<R(!new)>(prog: Program<R>, stack: seq<Inst<R>>, path: seq<string>, data: seq<Byte>,
                                    ts: seq<Tree<R>>): Option<End>
    decreases ts, 1 + |stack|
  {
    if stack == [] then (if ts == [] then Some(End(path, data)) else None)
    else
      var below := stack[..|stack| - 1];
      match stack[|stack| - 1]
      case PopTypePath =>
        if path == [] then None else ReadStack(prog, below, path[..|path| - 1], data, ts)
      case Repeat(n, r) =>
        if n == 0 then ReadStack(prog, below, path, data, ts)
        else if ts == [] then None
        else
          (match ReadField(prog, r, path, data, ts[0])
           case None => None
           case Some(rest) => ReadStack(prog, below + [Repeat(n - 1, r)], path, rest, ts[1..]))
      case FieldInst(r) =>
        if ts == [] then None
        else
          match ReadField(prog, r, path, data, ts[0])
          case None => None
          case Some(rest) => ReadStack(prog, below, path, rest, ts[1..])
  }

  function Preorder<R>(ts: seq<Tree<R>>): seq<Element>
  {
    if ts == [] then [] else [ts[0].element] + (Preorder(ts[0].children) + Preorder(ts[1..]))
  }

  lemma {:induction false} PreorderConcat<R>(ts: seq<Tree<R>>, us: seq<Tree<R>>)
    ensures Preorder(ts + us) == Preorder(ts) + Preorder(us)
    decreases |ts|
  {
    if ts == [] {
      assert ts + us == us;
    } else {
      assert (ts + us)[1..] == ts[1..] + us;
      PreorderConcat(ts[1..], us);
      var c, r, x := Preorder(ts[0].children), Preorder(ts[1..]), Preorder(us);
      assert [ts[0].element] + (c + (r + x)) == ([ts[0].element] + (c + r)) + x;
    }
  }

  lemma PreorderRoot<R>(ts: seq<Tree<R>>)
    ensures ts == [] ==> Preorder(ts) == []
    ensures ts != [] ==> Preorder(ts) == [ts[0].element] + Preorder(ts[0].children + ts[1..])
  {
    if ts != [] {
      PreorderConcat(ts[0].children, ts[1..]);
    }
  }

  lemma DropCons<T>(x: T, s: seq<T>, k: nat)
    requires 0 < k <= |s| + 1
    ensures ([x] + s)[k..] == s[k - 1..]
    ensures ([x] + s)[k - 1] == if k == 1 then x else s[k - 2]
  {
  }

  /** Two stacks on top of each other are read one after the other. */
  lemma {:induction false} ReadStackConcat<R(!new)>(
    prog: Program<R>, low: seq<Inst<R>>, high: seq<Inst<R>>, path: seq<string>, data: seq<Byte>, ts: seq<Tree<R>>, us: seq<Tree<R>>)
    requires ReadStack(prog, high, path, data, ts).Some?
    ensures var e := ReadStack(prog, high, path, data, ts).value;
            ReadStack(prog, low + high, path, data, ts + us) == ReadStack(prog, low, e.path, e.rest, us)
    decreases |ts|, |high|
  {
    hide ReadField;
    if high == [] {
      assert low + high == low;
      assert ts + us == us;
    } else {
      var top := high[|high| - 1];
      var below := high[..|high| - 1];
      var both := low + high;
      assert both[|both| - 1] == top && both[..|both| - 1] == low + below;
      match top
      case PopTypePath =>
        ReadStackConcat(prog, low, below, path[..|path| - 1], data, ts, us);
      case Repeat(n, r) =>
        if n == 0 {
          ReadStackConcat(prog, low, below, path, data, ts, us);
        } else {
          assert (ts + us)[1..] == ts[1..] + us;
          assert (low + below) + [Repeat(n - 1, r)] == low + (below + [Repeat(n - 1, r)]);
          ReadStackConcat(prog, low, below + [Repeat(n - 1, r)], path, ReadField(prog, r, path, data, ts[0]).value, ts[1..], us);
        }
      case FieldInst(r) =>
        assert (ts + us)[1..] == ts[1..] + us;
        ReadStackConcat(prog, low, below, path, ReadField(prog, r, path, data, ts[0]).value, ts[1..], us);
    }
  }

  // ----- the state machine

  /** An owned name, and the length of the type path whose last entry shows it. */
  datatype OwnedName = OwnedName(depth: nat, name: string)

  datatype State<R> = State(
    data: seq<Byte>,
    stack: seq<Inst<R>>,
    next: Option<Element>,
    typePath: seq<string>,
    dynamicTypePath: seq<OwnedName>,
    increments: nat)

  /** The instructions that are passed before the next field is met. */
  function Skipped<R>(stack: seq<Inst<R>>): nat
  {
    if stack == [] then 0
    else
      var below := stack[..|stack| - 1];
      match stack[|stack| - 1]
      case FieldInst(_) => 0
      case PopTypePath => 1 + Skipped(below)
      case Repeat(n, _) => if n == 0 then 1 + Skipped(below) else 1
  }

  function Popped(path: seq<string>, dynamic: seq<OwnedName>): seq<OwnedName>
  {
    if dynamic != [] && dynamic[|dynamic| - 1].depth == |path| then dynamic[..|dynamic| - 1] else dynamic
  }

  function RepeatOnce<R>(n: nat, r: R): seq<Inst<R>>
    requires n > 0
  {
    [Repeat(n - 1, r), FieldInst(r)]
  }

  lemma SkippedRepeatOnce<R>(below: seq<Inst<R>>, n: nat, r: R)
    requires n > 0
    ensures Skipped(below + RepeatOnce(n, r)) == 0
  {
    var s := below + RepeatOnce(n, r);
    assert s[|s| - 1] == FieldInst(r);
  }

  /** `operator++` as a function of the state; None stands for undefined behaviour. */
  function Increment<R>(prog: Program<R>, s: State<R>): Option<State<R>>
    decreases Skipped(s.stack)
  {
    if s.stack == [] then Some(if s.next.Some? then s.(next := None, increments := s.increments + 1) else s)
    else
      var below := s.stack[..|s.stack| - 1];
      var t := s.(stack := below, increments := s.increments + 1);
      match s.stack[|s.stack| - 1]
      case PopTypePath =>
        if s.typePath == [] then None
        else Increment(prog, t.(typePath := s.typePath[..|s.typePath| - 1],
                                dynamicTypePath := Popped(s.typePath, s.dynamicTypePath)))
      case Repeat(n, r) =>
        if n == 0 then Increment(prog, t)
        else
          SkippedRepeatOnce(below, n, r);
          Increment(prog, t.(stack := below + RepeatOnce(n, r)))
      case FieldInst(r) => Emit(prog, t, r)
  }

  /** The state after meeting field `r`, taken off the stack of `t`. */
  function Emit<R>(prog: Program<R>, t: State<R>, r: R): Option<State<R>>
  {
    match Visit(prog, prog.deref(r), t.typePath, t.data)
    case None => None
    case Some(h) =>
      Some(t.(data := h.rest,
              stack := t.stack + [PopTypePath] + ChildStack(prog.deref(r), h.pushed),
              next := Some(h.element),
              typePath := h.element.typePath,
              dynamicTypePath := t.dynamicTypePath +
                (if NameFromData(prog.showPointer, h.element.data).Some? then [OwnedName(|t.typePath| + 1, h.element.name)] else [])))
  }

  /** What a state has still to emit. */
  ghost predicate Pending<R(!new)>(prog: Program<R>, s: State<R>, ts: seq<Tree<R>>, e: End)
  {
    ReadStack(prog, s.stack, s.typePath, s.data, ts) == Some(e)
  }

  /** The next increment emits the root of the first pending tree; its children come next. */
  lemma {:induction false} IncrementEmits<R(!new)>(prog: Program<R>, s: State<R>, ts: seq<Tree<R>>, e: End)
    requires Pending(prog, s, ts, e)
    requires ts != []
    ensures Increment(prog, s).Some?
    ensures Increment(prog, s).value.next == Some(ts[0].element)
    ensures Pending(prog, Increment(prog, s).value, ts[0].children + ts[1..], e)
    ensures Increment(prog, s).value.increments > s.increments
    decreases Skipped(s.stack)
  {
    var below := s.stack[..|s.stack| - 1];
    var t := s.(stack := below, increments := s.increments + 1);
    match s.stack[|s.stack| - 1]
    case PopTypePath =>
      IncrementEmits(prog, t.(typePath := s.typePath[..|s.typePath| - 1],
                              dynamicTypePath := Popped(s.typePath, s.dynamicTypePath)), ts, e);
    case Repeat(n, r) =>
      if n == 0 {
        IncrementEmits(prog, t, ts, e);
      } else {
        SkippedRepeatOnce(below, n, r);
        var u := t.(stack := below + RepeatOnce(n, r));
        assert u.stack[..|u.stack| - 1] == below + [Repeat(n - 1, r)];
        IncrementEmits(prog, u, ts, e);
      }
    case FieldInst(r) =>
      EmitEmits(prog, t, r, ts, e);
  }

  lemma EmitEmits<R(!new)>(prog: Program<R>, t: State<R>, r: R, ts: seq<Tree<R>>, e: End)
    requires ts != [] && ReadField(prog, r, t.typePath, t.data, ts[0]).Some?
    requires ReadStack(prog, t.stack, t.typePath, ReadField(prog, r, t.typePath, t.data, ts[0]).value, ts[1..]) == Some(e)
    ensures Emit(prog, t, r).Some?
    ensures Emit(prog, t, r).value.next == Some(ts[0].element)
    ensures Pending(prog, Emit(prog, t, r).value, ts[0].children + ts[1..], e)
  {
    var h := Visit(prog, prog.deref(r), t.typePath, t.data).value;
    var high := ChildStack(prog.deref(r), h.pushed);
    var low := t.stack + [PopTypePath];
    ReadStackConcat(prog, low, high, h.element.typePath, h.rest, ts[0].children, ts[1..]);
    assert low[..|low| - 1] == t.stack;
    var p := h.element.typePath;
    assert p[..|p| - 1] == t.typePath;
  }

  /** With nothing pending, the next increment empties the stack and there is no next element. */
  lemma {:induction false} IncrementEnds<R(!new)>(prog: Program<R>, s: State<R>, e: End)
    requires Pending(prog, s, [], e)
    ensures Increment(prog, s).Some?
    ensures var t := Increment(prog, s).value; t.stack == [] && t.next == None && t.typePath == e.path && t.data == e.rest
    decreases Skipped(s.stack)
  {
    if s.stack != [] {
      var below := s.stack[..|s.stack| - 1];
      var t := s.(stack := below, increments := s.increments + 1);
      match s.stack[|s.stack| - 1]
      case PopTypePath =>
        IncrementEnds(prog, t.(typePath := s.typePath[..|s.typePath| - 1],
                               dynamicTypePath := Popped(s.typePath, s.dynamicTypePath)), e);
      case Repeat(n, r) =>
        IncrementEnds(prog, t, e);
    }
  }

  // ----- whole runs

  function Steps<R>(prog: Program<R>, s: State<R>, n: nat): Option<State<R>>
    decreases n
  {
    if n == 0 then Some(s)
    else match Increment(prog, s) case None => None case Some(t) => Steps(prog, t, n - 1)
  }

  /** After k increments the first k elements of the pre-order have been emitted, one at a time. */
  lemma {:induction false} RunEmits<R(!new)>(prog: Program<R>, s: State<R>, ts: seq<Tree<R>>, e: End, k: nat)
    returns (us: seq<Tree<R>>)
    requires Pending(prog, s, ts, e) && k <= |Preorder(ts)|
    ensures Steps(prog, s, k).Some?
    ensures Pending(prog, Steps(prog, s, k).value, us, e) && Preorder(us) == Preorder(ts)[k..]
    ensures k > 0 ==> Steps(prog, s, k).value.next == Some(Preorder(ts)[k - 1])
    ensures k > 0 ==> Steps(prog, s, k).value.increments > s.increments
    decreases k
  {
    hide Pending, Increment, Preorder;
    us := ts;
    if k > 0 {
      PreorderRoot(ts);
      var below := ts[0].children + ts[1..];
      IncrementEmits(prog, s, ts, e);
      DropCons(ts[0].element, Preorder(below), k);
      us := RunEmits(prog, Increment(prog, s).value, below, e, k - 1);
    }
  }

  lemma {:induction false} StepsPlusOne<R>(prog: Program<R>, s: State<R>, n: nat)
    requires Steps(prog, s, n).Some?
    ensures Steps(prog, s, n + 1) == Increment(prog, Steps(prog, s, n).value)
    decreases n
  {
    if n > 0 {
      StepsPlusOne(prog, Increment(prog, s).value, n - 1);
    }
  }

  /** One more increment than there are elements drains the stack, and then nothing changes. */
  lemma {:induction false} RunEnds<R(!new)>(prog: Program<R>, s: State<R>, ts: seq<Tree<R>>, e: End, k: nat)
    requires Pending(prog, s, ts, e) && k > |Preorder(ts)|
    ensures Steps(prog, s, k).Some?
    ensures var t := Steps(prog, s, k).value; t.stack == [] && t.next == None && t.typePath == e.path && t.data == e.rest
    decreases k
  {
    var n := |Preorder(ts)|;
    if k == n + 1 {
      var us := RunEmits(prog, s, ts, e, n);
      assert us == [];
      IncrementEnds(prog, Steps(prog, s, n).value, e);
      StepsPlusOne(prog, s, n);
    } else {
      RunEnds(prog, s, ts, e, k - 1);
      StepsPlusOne(prog, s, k - 1);
    }
  }

  // ----- every run that comes to an end is a reading

  ghost predicate NoPops<R>(stack: seq<Inst<R>>)
  {
    forall i :: 0 <= i < |stack| ==> stack[i] != PopTypePath
  }

  /** No handler of the program pushes a PopTypePath of its own. */
  ghost predicate LeavesPathAlone<R(!new)>(prog: Program<R>)
  {
    forall r, path, data ::
      var v := Visit(prog, prog.deref(r), path, data);
      v.Some? ==> NoPops(ChildStack(prog.deref(r), v.value.pushed))
  }

  lemma {:induction false} NoPopsKeepsPath<R(!new)>(prog: Program<R>, stack: seq<Inst<R>>, path: seq<string>,
                                                    data: seq<Byte>, ts: seq<Tree<R>>)
    requires NoPops(stack) && ReadStack(prog, stack, path, data, ts).Some?
    ensures ReadStack(prog, stack, path, data, ts).value.path == path
    decreases |ts|, |stack|
  {
    hide ReadField;
    if stack != [] {
      var below := stack[..|stack| - 1];
      match stack[|stack| - 1]
      case Repeat(n, r) =>
        if n == 0 {
          NoPopsKeepsPath(prog, below, path, data, ts);
        } else {
          NoPopsKeepsPath(prog, below + [Repeat(n - 1, r)], path, ReadField(prog, r, path, data, ts[0]).value, ts[1..]);
        }
      case FieldInst(r) =>
        NoPopsKeepsPath(prog, below, path, ReadField(prog, r, path, data, ts[0]).value, ts[1..]);
    }
  }

  /** What is read off a stack can be split where the stack can. */
  lemma {:induction false} ReadStackSplit<R(!new)>(
    prog: Program<R>, low: seq<Inst<R>>, high: seq<Inst<R>>, path: seq<string>, data: seq<Byte>, ts: seq<Tree<R>>)
    returns (k: nat)
    requires ReadStack(prog, low + high, path, data, ts).Some?
    ensures k <= |ts| && ReadStack(prog, high, path, data, ts[..k]).Some?
    ensures var e := ReadStack(prog, high, path, data, ts[..k]).value;
            ReadStack(prog, low + high, path, data, ts) == ReadStack(prog, low, e.path, e.rest, ts[k..])
    decreases |ts|, |high|
  {
    hide ReadField;
    if high == [] {
      k := 0;
      assert low + high == low && ts[..0] == [] && ts[0..] == ts;
    } else {
      var top := high[|high| - 1];
      var below := high[..|high| - 1];
      var both := low + high;
      assert both[|both| - 1] == top && both[..|both| - 1] == low + below;
      match top
      case PopTypePath =>
        k := ReadStackSplit(prog, low, below, path[..|path| - 1], data, ts);
      case Repeat(n, r) =>
        if n == 0 {
          k := ReadStackSplit(prog, low, below, path, data, ts);
        } else {
          assert (low + below) + [Repeat(n - 1, r)] == low + (below + [Repeat(n - 1, r)]);
          k := ReadStackSplit(prog, low, below + [Repeat(n - 1, r)], path, ReadField(prog, r, path, data, ts[0]).value, ts[1..]);
          k := TakeOneMore(ts, k);
        }
      case FieldInst(r) =>
        k := ReadStackSplit(prog, low, below, path, ReadField(prog, r, path, data, ts[0]).value, ts[1..]);
        k := TakeOneMore(ts, k);
    }
  }

  lemma TakeOneMore<T>(ts: seq<T>, k: nat) returns (j: nat)
    requires k < |ts|
    ensures j == k + 1 && ts[..j] != [] && ts[..j][0] == ts[0]
    ensures ts[..j][1..] == ts[1..][..k] && ts[j..] == ts[1..][k..]
  {
    j := k + 1;
  }

  /** A run that empties its stack has read a forest. */
  lemma {:induction false} EndedRunReads<R(!new)>(prog: Program<R>, s: State<R>, n: nat)
    returns (ts: seq<Tree<R>>, e: End)
    requires LeavesPathAlone(prog)
    requires Steps(prog, s, n).Some? && Steps(prog, s, n).value.stack == []
    ensures Pending(prog, s, ts, e)
    decreases n, Skipped(s.stack)
  {
    hide Emit, ReadField;
    if s.stack == [] {
      ts, e := [], End(s.typePath, s.data);
    } else {
      var below := s.stack[..|s.stack| - 1];
      var t := s.(stack := below, increments := s.increments + 1);
      assert Increment(prog, s).Some?;
      match s.stack[|s.stack| - 1]
      case PopTypePath =>
        var u := t.(typePath := s.typePath[..|s.typePath| - 1], dynamicTypePath := Popped(s.typePath, s.dynamicTypePath));
        assert Steps(prog, u, n) == Steps(prog, s, n);
        ts, e := EndedRunReads(prog, u, n);
      case Repeat(m, r) =>
        if m == 0 {
          assert Steps(prog, t, n) == Steps(prog, s, n);
          ts, e := EndedRunReads(prog, t, n);
        } else {
          SkippedRepeatOnce(below, m, r);
          var u := t.(stack := below + RepeatOnce(m, r));
          assert Steps(prog, u, n) == Steps(prog, s, n);
          ts, e := EndedRunReads(prog, u, n);
          assert u.stack[..|u.stack| - 1] == below + [Repeat(m - 1, r)];
        }
      case FieldInst(r) =>
        var us, e' := EndedRunReads(prog, Emit(prog, t, r).value, n - 1);
        ts := EmittedReads(prog, t, r, us, e');
        e := e';
    }
  }

  lemma EmittedReads<R(!new)>(prog: Program<R>, t: State<R>, r: R, us: seq<Tree<R>>, e: End) returns (ts: seq<Tree<R>>)
    requires LeavesPathAlone(prog)
    requires Emit(prog, t, r).Some? && Pending(prog, Emit(prog, t, r).value, us, e)
    ensures ts != [] && ReadField(prog, r, t.typePath, t.data, ts[0]).Some?
    ensures ReadStack(prog, t.stack, t.typePath, ReadField(prog, r, t.typePath, t.data, ts[0]).value, ts[1..]) == Some(e)
  {
    var h := Visit(prog, prog.deref(r), t.typePath, t.data).value;
    var high := ChildStack(prog.deref(r), h.pushed);
    var low := t.stack + [PopTypePath];
    var p := h.element.typePath;
    var k := ReadStackSplit(prog, low, high, p, h.rest, us);
    NoPopsKeepsPath(prog, high, p, h.rest, us[..k]);
    assert low[..|low| - 1] == t.stack && p[..|p| - 1] == t.typePath;
    ts := [Node(r, h.element, us[..k])] + us[k..];
  }

  /** The iterator comes to an end exactly when the segment holds a finite object. */
  lemma EndsIffReadable<R(!new)>(prog: Program<R>, s: State<R>)
    requires LeavesPathAlone(prog)
    ensures (exists n :: Steps(prog, s, n).Some? && Steps(prog, s, n).value.stack == [])
       <==> (exists ts, e :: Pending(prog, s, ts, e))
  {
    if n :| Steps(prog, s, n).Some? && Steps(prog, s, n).value.stack == [] {
      var ts, e := EndedRunReads(prog, s, n);
      assert Pending(prog, s, ts, e);
    }
    if ts, e :| Pending(prog, s, ts, e) {
      RunEnds(prog, s, ts, e, |Preorder(ts)| + 1);
    }
  }

  // ----- names built while reading

  /** Every owned name is shown by exactly one entry of the type path, in order. */
  ghost predicate Owned(path: seq<string>, dynamic: seq<OwnedName>)
  {
    && (forall i :: 0 <= i < |dynamic| ==> 1 <= dynamic[i].depth <= |path| && path[dynamic[i].depth - 1] == dynamic[i].name)
    && (forall i, j :: 0 <= i < j < |dynamic| ==> dynamic[i].depth < dynamic[j].depth)
  }

  lemma PoppedStaysOwned(path: seq<string>, dynamic: seq<OwnedName>)
    requires Owned(path, dynamic) && path != []
    ensures Owned(path[..|path| - 1], Popped(path, dynamic))
  {
    var popped := Popped(path, dynamic);
    forall i | 0 <= i < |popped|
      ensures popped[i].depth < |path|
    {
      var last := |dynamic| - 1;
      assert i == last || dynamic[i].depth < dynamic[last].depth;
    }
  }

  lemma EmitStaysOwned<R>(prog: Program<R>, t: State<R>, r: R)
    requires Owned(t.typePath, t.dynamicTypePath) && Emit(prog, t, r).Some?
    ensures var u := Emit(prog, t, r).value; Owned(u.typePath, u.dynamicTypePath)
  {
    var h := Visit(prog, prog.deref(r), t.typePath, t.data).value;
    assert h.element.typePath == t.typePath + [h.element.typePath[|t.typePath|]];
  }

  /** No increment leaves a path entry that shows a name which is gone. */
  lemma {:induction false} IncrementStaysOwned<R>(prog: Program<R>, s: State<R>)
    requires Owned(s.typePath, s.dynamicTypePath) && Increment(prog, s).Some?
    ensures var t := Increment(prog, s).value; Owned(t.typePath, t.dynamicTypePath)
    decreases Skipped(s.stack)
  {
    hide Owned, Emit;
    if s.stack != [] {
      var below := s.stack[..|s.stack| - 1];
      var t := s.(stack := below, increments := s.increments + 1);
      match s.stack[|s.stack| - 1]
      case PopTypePath =>
        PoppedStaysOwned(s.typePath, s.dynamicTypePath);
        IncrementStaysOwned(prog, t.(typePath := s.typePath[..|s.typePath| - 1],
                                     dynamicTypePath := Popped(s.typePath, s.dynamicTypePath)));
      case Repeat(n, r) =>
        if n == 0 {
          IncrementStaysOwned(prog, t);
        } else {
          SkippedRepeatOnce(below, n, r);
          IncrementStaysOwned(prog, t.(stack := below + RepeatOnce(n, r)));
        }
      case FieldInst(r) =>
        EmitStaysOwned(prog, t, r);
    }
  }

  ghost predicate HasOwned(dynamic: seq<OwnedName>, depth: nat)
  {
    exists i :: 0 <= i < |dynamic| && dynamic[i].depth == depth
  }

  /** Exactly the entries of the path that were generated, as `generated` says, are owned. */
  ghost predicate OwnsGenerated(path: seq<string>, dynamic: seq<OwnedName>, generated: seq<bool>)
  {
    && Owned(path, dynamic) && |generated| == |path|
    && forall k :: 0 <= k < |path| ==> (generated[k] <==> HasOwned(dynamic, k + 1))
  }

  lemma PoppedOwns(path: seq<string>, dynamic: seq<OwnedName>, generated: seq<bool>)
    requires OwnsGenerated(path, dynamic, generated) && path != []
    ensures OwnsGenerated(path[..|path| - 1], Popped(path, dynamic), generated[..|path| - 1])
  {
    var popped := Popped(path, dynamic);
    PoppedStaysOwned(path, dynamic);
    forall d: nat | d < |path|
      ensures HasOwned(dynamic, d) <==> HasOwned(popped, d)
    {
      if i :| 0 <= i < |dynamic| && dynamic[i].depth == d {
        assert i < |popped| && popped[i].depth == d;
      }
      if i :| 0 <= i < |popped| && popped[i].depth == d {
        assert dynamic[i].depth == d;
      }
    }
  }

  lemma EmitOwns<R>(prog: Program<R>, t: State<R>, r: R, generated: seq<bool>)
    requires OwnsGenerated(t.typePath, t.dynamicTypePath, generated) && Emit(prog, t, r).Some?
    ensures var u := Emit(prog, t, r).value;
            u.next.Some? && OwnsGenerated(u.typePath, u.dynamicTypePath, generated + [u.next.value.data != NoData])
  {
    hide Owned, Decimal;
    var u := Emit(prog, t, r).value;
    var h := Visit(prog, prog.deref(r), t.typePath, t.data).value;
    EmitStaysOwned(prog, t, r);
    EmitShows(prog, t, r);
    var more := if h.element.data != NoData then [OwnedName(|t.typePath| + 1, h.element.name)] else [];
    assert u.dynamicTypePath == t.dynamicTypePath + more;
    OneMoreOwned(t.typePath, t.dynamicTypePath, more);
  }

  lemma OneMoreOwned(path: seq<string>, dynamic: seq<OwnedName>, more: seq<OwnedName>)
    requires Owned(path, dynamic) && |more| <= 1 && (more != [] ==> more[0].depth == |path| + 1)
    ensures forall d: nat :: d <= |path| ==> (HasOwned(dynamic + more, d) <==> HasOwned(dynamic, d))
    ensures HasOwned(dynamic + more, |path| + 1) <==> more != []
  {
    forall d: nat | d <= |path|
      ensures HasOwned(dynamic + more, d) <==> HasOwned(dynamic, d)
    {
      if i :| 0 <= i < |dynamic| && dynamic[i].depth == d {
        assert (dynamic + more)[i].depth == d;
      }
    }
    if more != [] {
      assert (dynamic + more)[|dynamic|].depth == |path| + 1;
    }
  }

  /** A generated name is kept for as long as an entry of the path shows it, and no longer. */
  lemma {:induction false} IncrementOwns<R>(prog: Program<R>, s: State<R>, generated: seq<bool>)
    requires OwnsGenerated(s.typePath, s.dynamicTypePath, generated) && Increment(prog, s).Some?
    ensures var t := Increment(prog, s).value;
            if NextField(s.stack).Some? then
              && t.next.Some? && 0 < |t.typePath| <= |generated| + 1
              && OwnsGenerated(t.typePath, t.dynamicTypePath, generated[..|t.typePath| - 1] + [t.next.value.data != NoData])
            else |t.typePath| <= |generated| && OwnsGenerated(t.typePath, t.dynamicTypePath, generated[..|t.typePath|])
    decreases Skipped(s.stack)
  {
    hide Owned, HasOwned, Emit;
    if s.stack == [] {
      assert generated[..|generated|] == generated;
    } else {
      var below := s.stack[..|s.stack| - 1];
      var t := s.(stack := below, increments := s.increments + 1);
      match s.stack[|s.stack| - 1]
      case PopTypePath =>
        PoppedOwns(s.typePath, s.dynamicTypePath, generated);
        var u := t.(typePath := s.typePath[..|s.typePath| - 1], dynamicTypePath := Popped(s.typePath, s.dynamicTypePath));
        IncrementOwns(prog, u, generated[..|generated| - 1]);
        assert forall m :: 0 <= m < |generated| ==> generated[..|generated| - 1][..m] == generated[..m];
      case Repeat(n, r) =>
        if n == 0 {
          IncrementOwns(prog, t, generated);
        } else {
          SkippedRepeatOnce(below, n, r);
          var u := t.(stack := below + RepeatOnce(n, r));
          assert u.stack[|u.stack| - 1] == FieldInst(r);
          IncrementOwns(prog, u, generated);
        }
      case FieldInst(r) =>
        EmitOwns(prog, t, r, generated);
        EmitShows(prog, t, r);
        EmitPath(prog, t, r);
        assert generated[..|generated|] == generated;
    }
  }

  lemma EmitPath<R>(prog: Program<R>, t: State<R>, r: R)
    requires Emit(prog, t, r).Some?
    ensures |Emit(prog, t, r).value.typePath| == |t.typePath| + 1
  {
    EmitShows(prog, t, r);
  }

  /** The field that the next increment meets. */
  function NextField<R>(stack: seq<Inst<R>>): (r: Option<R>)
  {
    if stack == [] then None
    else
      match stack[|stack| - 1]
      case PopTypePath => NextField(stack[..|stack| - 1])
      case Repeat(n, r) => if n == 0 then NextField(stack[..|stack| - 1]) else Some(r)
      case FieldInst(r) => Some(r)
  }

  /** An increment that meets a field shows its element under the name that belongs to its data, and one that meets none shows nothing. */
  ghost predicate Shows<R>(prog: Program<R>, met: Option<R>, s: State<R>)
  {
    && (met.Some? <==> s.next.Some?)
    && (met.Some? ==> Named(prog.showPointer, prog.deref(met.value).name, s.next.value) && s.typePath == s.next.value.typePath)
  }

  lemma EmitShows<R>(prog: Program<R>, t: State<R>, r: R)
    requires Emit(prog, t, r).Some?
    ensures Shows(prog, Some(r), Emit(prog, t, r).value)
    ensures var path := Emit(prog, t, r).value.typePath; path != [] && path[..|path| - 1] == t.typePath
  {
    hide Visit, Named;
    VisitNames(prog, prog.deref(r), t.typePath, t.data);
  }

  lemma {:induction false} IncrementShows<R>(prog: Program<R>, s: State<R>)
    requires Increment(prog, s).Some?
    ensures Shows(prog, NextField(s.stack), Increment(prog, s).value)
    decreases Skipped(s.stack)
  {
    hide Emit, Named;
    if s.stack != [] {
      var below := s.stack[..|s.stack| - 1];
      var t := s.(stack := below, increments := s.increments + 1);
      match s.stack[|s.stack| - 1]
      case PopTypePath =>
        IncrementShows(prog, t.(typePath := s.typePath[..|s.typePath| - 1],
                                dynamicTypePath := Popped(s.typePath, s.dynamicTypePath)));
      case Repeat(n, r) =>
        if n == 0 {
          IncrementShows(prog, t);
        } else {
          SkippedRepeatOnce(below, n, r);
          IncrementShows(prog, t.(stack := below + RepeatOnce(n, r)));
        }
      case FieldInst(r) =>
        EmitShows(prog, t, r);
    }
  }

  /** An element's own fields are met next, in order, before anything that its handlers have pushed; without either the path is popped. */
  lemma FieldsFirst<R>(prog: Program<R>, t: State<R>, r: R, k: nat)
    requires Emit(prog, t, r).Some? && k <= |prog.deref(r).fields|
    ensures var stack, fields := Emit(prog, t, r).value.stack, prog.deref(r).fields;
            && |fields| <= |stack|
            && (k < |fields| ==> NextField(stack[..|stack| - k]) == Some(fields[k]))
            && (|stack| == |t.stack| + 1 + |fields| ==> stack[|t.stack|] == PopTypePath)
  {
    hide Visit;
    var stack, fields := Emit(prog, t, r).value.stack, prog.deref(r).fields;
    if k < |fields| {
      var top := stack[..|stack| - k];
      assert top[|top| - 1] == stack[|stack| - 1 - k] == FieldInst(fields[k]);
    }
  }

  lemma IncrementMayShow<R>(prog: Program<R>, s: State<R>)
    ensures Increment(prog, s).Some? ==> Shows(prog, NextField(s.stack), Increment(prog, s).value)
  {
    hide Increment, Shows;
    if Increment(prog, s).Some? {
      IncrementShows(prog, s);
    }
  }

  // ----- where the loop from begin() to end() stops

  /** `operator==`; positions in one buffer are equal when as many bytes are left. */
  predicate Same<R>(a: State<R>, b: State<R>)
  {
    && |a.data| == |b.data|
    && ((a.next == None && b.next == None) || a.increments == b.increments)
  }

  /** The iterator that `cbegin` makes, before its first increment. */
  function Start<R>(buf: seq<Byte>, inst: Inst<R>): State<R>
  {
    State(buf, [inst], None, [], [], 0)
  }

  /** `cend`. */
  function Finish<R>(): State<R>
  {
    State([], [], None, [], [], 0)
  }

  /**
   For an object read from the front of the buffer, the loop passes its elements in pre-order and is
   never at end() before the last of them. After it, the loop stops at once if the object took
   the whole buffer, and never stops otherwise.
   */
  lemma LoopStopsIffAllRead<R(!new)>(prog: Program<R>, r: R, buf: seq<Byte>, t: Tree<R>, k: nat)
    requires ReadField(prog, r, [], buf, t).Some?
    requires k > 0
    ensures Steps(prog, Start(buf, FieldInst(r)), k).Some?
    ensures var s, es := Steps(prog, Start(buf, FieldInst(r)), k).value, Preorder([t]);
            && (k <= |es| ==> s.next == Some(es[k - 1]) && !Same(s, Finish()))
            && (k > |es| ==> s.next == None && (Same(s, Finish()) <==> ReadField(prog, r, [], buf, t) == Some([])))
  {
    var s, rest := Start(buf, FieldInst(r)), ReadField(prog, r, [], buf, t).value;
    assert Pending(prog, s, [t], End([], rest));
    if k <= |Preorder([t])| {
      var us := RunEmits(prog, s, [t], End([], rest), k);
    } else {
      RunEnds(prog, s, [t], End([], rest), k);
    }
  }
}
