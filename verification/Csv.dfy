/** The rows of oi/exporters/CSV.cpp: how parents are found from the lengths of type paths alone. */
module Csv {
  import opened Machine
  import opened Instructions
  import opened Iterator
  import opened ResultIterator

  /** A row: the columns that come from the element itself, its number and its parent's. */
  datatype Row = Row(id: nat, element: Element, parentId: nat)

  /** The rows of a forest: nodes numbered in pre-order after `id`, each with its parent's number. */
  function Numbered<R>(ts: seq<Tree<R>>, parent: nat, id: nat): seq<Row>
  {
    if ts == [] then []
    else
      var children := Numbered(ts[0].children, id + 1, id + 1);
      [Row(id + 1, ts[0].element, parent)] + (children + Numbered(ts[1..], parent, id + 1 + |children|))
  }

  /** Every element at the given depth has a path one longer than the depth. */
  ghost predicate Deep<R>(ts: seq<Tree<R>>, depth: nat)
  {
    forall i :: 0 <= i < |ts| ==> |ts[i].element.typePath| == depth + 1 && Deep(ts[i].children, depth + 1)
  }

  lemma {:induction false} ReadFieldIsDeep<R(!new)>(prog: Program<R>, r: R, path: seq<string>, data: seq<Byte>,
                                                    t: Tree<R>)
    requires LeavesPathAlone(prog)
    requires ReadField(prog, r, path, data, t).Some?
    ensures |t.element.typePath| == |path| + 1 && Deep(t.children, |path| + 1)
    decreases t, 0
  {
    var h := Visit(prog, prog.deref(r), path, data).value;
    ReadStackIsDeep(prog, ChildStack(prog.deref(r), h.pushed), h.element.typePath, h.rest, t.children);
  }

  lemma {:induction false} ReadStackIsDeep<R(!new)>(prog: Program<R>, stack: seq<Inst<R>>, path: seq<string>,
                                                    data: seq<Byte>, ts: seq<Tree<R>>)
    requires LeavesPathAlone(prog) && NoPops(stack)
    requires ReadStack(prog, stack, path, data, ts).Some?
    ensures Deep(ts, |path|)
    decreases ts, 1 + |stack|
  {
    hide ReadField, LeavesPathAlone;
    if stack != [] {
      var below := stack[..|stack| - 1];
      match stack[|stack| - 1]
      case Repeat(n, r) =>
        if n == 0 {
          ReadStackIsDeep(prog, below, path, data, ts);
        } else {
          ReadFieldIsDeep(prog, r, path, data, ts[0]);
          ReadStackIsDeep(prog, below + [Repeat(n - 1, r)], path, ReadField(prog, r, path, data, ts[0]).value, ts[1..]);
          DeepCons(ts, |path|);
        }
      case FieldInst(r) =>
        ReadFieldIsDeep(prog, r, path, data, ts[0]);
        ReadStackIsDeep(prog, below, path, ReadField(prog, r, path, data, ts[0]).value, ts[1..]);
        DeepCons(ts, |path|);
    }
  }

  lemma DeepCons<R>(ts: seq<Tree<R>>, depth: nat)
    requires ts != [] && |ts[0].element.typePath| == depth + 1 && Deep(ts[0].children, depth + 1)
    requires Deep(ts[1..], depth)
    ensures Deep(ts, depth)
  {
    forall i | 0 <= i < |ts|
      ensures |ts[i].element.typePath| == depth + 1 && Deep(ts[i].children, depth + 1)
    {
      if i > 0 {
        assert ts[i] == ts[1..][i - 1];
      }
    }
  }

  // ----- the loop of the source, on its list of elements

  /** The stack of parent ids, cut down to the given length. */
  function Trim(ids: seq<nat>, length: nat): (r: seq<nat>)
    requires ids != [] && length > 0
    ensures r != []
  {
    if |ids| <= length then ids else ids[..length]
  }

  ghost predicate HavePaths(es: seq<Element>)
  {
    forall i :: 0 <= i < |es| ==> es[i].typePath != []
  }

  /** The rows printed for `es`, from a stack of parent ids and the last id used. */
  ghost function Rows(es: seq<Element>, ids: seq<nat>, id: nat): seq<Row>
    requires ids != [] && HavePaths(es)
  {
    if es == [] then []
    else
      var trimmed := Trim(ids, |es[0].typePath|);
      [Row(id + 1, es[0], trimmed[|trimmed| - 1])] + Rows(es[1..], trimmed + [id + 1], id + 1)
  }

  lemma {:induction false} DeepPathsAreNotEmpty<R>(ts: seq<Tree<R>>, depth: nat)
    requires Deep(ts, depth)
    ensures HavePaths(Preorder(ts))
  {
    if ts != [] {
      DeepPathsAreNotEmpty(ts[0].children, depth + 1);
      DeepPathsAreNotEmpty(ts[1..], depth);
    }
  }

  lemma {:induction false} NumberedLength<R>(ts: seq<Tree<R>>, parent: nat, id: nat)
    ensures |Numbered(ts, parent, id)| == |Preorder(ts)|
  {
    if ts != [] {
      NumberedLength(ts[0].children, id + 1, id + 1);
      NumberedLength(ts[1..], parent, id + 1 + |Numbered(ts[0].children, id + 1, id + 1)|);
    }
  }

  ghost predicate Agree(a: seq<nat>, b: seq<nat>, depth: nat)
  {
    |a| > depth && |b| > depth && a[..depth + 1] == b[..depth + 1]
  }

  lemma AgreeBelow(a: seq<nat>, b: seq<nat>, depth: nat)
    requires Agree(a, b, depth + 1)
    ensures Agree(a, b, depth) && a[depth] == b[depth]
  {
    assert a[..depth + 1] == a[..depth + 2][..depth + 1];
    assert b[..depth + 1] == b[..depth + 2][..depth + 1];
    assert a[depth] == a[..depth + 2][depth];
  }

  lemma TrimAgrees(ids: seq<nat>, depth: nat, id: nat)
    requires |ids| > depth
    ensures var pushed := Trim(ids, depth + 1) + [id];
            |pushed| == depth + 2 && Agree(pushed, ids, depth) && pushed[depth] == ids[depth] && pushed[depth + 1] == id
  {
  }

  /** The forest `ts` and then `more` are printed from `ids` as numbered below ids[depth], ending in `after`. */
  ghost predicate Prints<R>(ts: seq<Tree<R>>, depth: nat, more: seq<Element>, ids: seq<nat>, id: nat, after: seq<nat>)
    requires |ids| > depth && HavePaths(more)
  {
    && Agree(after, ids, depth)
    && HavePaths(Preorder(ts) + more)
    && Rows(Preorder(ts) + more, ids, id) == Numbered(ts, ids[depth], id) + Rows(more, after, id + |Preorder(ts)|)
  }

  /** A forest at some depth is numbered below the id that the stack holds for that depth. */
  lemma {:induction false} RowsOfForest<R>(ts: seq<Tree<R>>, depth: nat, more: seq<Element>, ids: seq<nat>, id: nat)
    returns (after: seq<nat>)
    requires Deep(ts, depth) && |ids| > depth && HavePaths(more)
    ensures Prints(ts, depth, more, ids, id, after)
    decreases ts
  {
    hide Prints, HavePaths, Trim;
    if ts == [] {
      after := ids;
      PrintsNothing<R>(depth, more, ids, id);
    } else {
      var t := ts[0];
      var inner, outer := Preorder(t.children), Preorder(ts[1..]);
      var pushed := Trim(ids, depth + 1) + [id + 1];
      TrimAgrees(ids, depth, id + 1);
      DeepPathsAreNotEmpty(ts[1..], depth);
      HavePathsConcat(outer, more);
      var mid := RowsOfForest(t.children, depth + 1, outer + more, pushed, id + 1);
      PrintsAgree(t.children, depth + 1, outer + more, pushed, id + 1, mid);
      after := RowsOfForest(ts[1..], depth, more, mid, id + 1 + |inner|);
      PrintsJoin(ts, depth, more, ids, id, mid, after);
    }
  }

  lemma PrintsNothing<R>(depth: nat, more: seq<Element>, ids: seq<nat>, id: nat)
    requires |ids| > depth && HavePaths(more)
    ensures Prints<R>([], depth, more, ids, id, ids)
  {
    assert Preorder<R>([]) + more == more;
  }

  lemma PrintsAgree<R>(ts: seq<Tree<R>>, depth: nat, more: seq<Element>, ids: seq<nat>, id: nat, after: seq<nat>)
    requires |ids| > depth && HavePaths(more) && Prints(ts, depth, more, ids, id, after)
    ensures Agree(after, ids, depth)
  {
  }

  lemma PrintsJoin<R>(ts: seq<Tree<R>>, depth: nat, more: seq<Element>, ids: seq<nat>, id: nat, mid: seq<nat>,
                      after: seq<nat>)
    requires ts != [] && Deep(ts, depth) && |ids| > depth && HavePaths(more)
    requires HavePaths(Preorder(ts[1..]) + more)
    requires Prints(ts[0].children, depth + 1, Preorder(ts[1..]) + more, Trim(ids, depth + 1) + [id + 1], id + 1, mid)
    requires Prints(ts[1..], depth, more, mid, id + 1 + |Preorder(ts[0].children)|, after)
    ensures Prints(ts, depth, more, ids, id, after)
  {
    hide Rows, HavePaths, Trim, Preorder, Deep, Numbered;
    var t := ts[0];
    var inner, outer := Preorder(t.children), Preorder(ts[1..]);
    NumberedFirst(ts, ids[depth], id);
    TrimAgrees(ids, depth, id + 1);
    AgreeBelow(mid, Trim(ids, depth + 1) + [id + 1], depth);
    NumberedLength(t.children, id + 1, id + 1);
    RowsOfNode(ts, more, ids, depth, id);
    Regroup(Row(id + 1, t.element, ids[depth]), Numbered(t.children, id + 1, id + 1),
            Numbered(ts[1..], ids[depth], id + 1 + |inner|), Rows(more, after, id + 1 + |inner| + |outer|));
  }

  lemma NumberedFirst<R>(ts: seq<Tree<R>>, parent: nat, id: nat)
    requires ts != []
    ensures Numbered(ts, parent, id) ==
            [Row(id + 1, ts[0].element, parent)] +
            (Numbered(ts[0].children, id + 1, id + 1) + Numbered(ts[1..], parent, id + 1 + |Preorder(ts[0].children)|))
  {
    hide Preorder;
    NumberedLength(ts[0].children, id + 1, id + 1);
  }

  lemma Regroup<T>(x: T, a: seq<T>, b: seq<T>, c: seq<T>)
    ensures [x] + (a + (b + c)) == ([x] + (a + b)) + c
  {
  }

  lemma HavePathsConcat(es: seq<Element>, fs: seq<Element>)
    requires HavePaths(es) && HavePaths(fs)
    ensures HavePaths(es + fs)
  {
  }

  lemma RowsOfNode<R>(ts: seq<Tree<R>>, more: seq<Element>, ids: seq<nat>, depth: nat, id: nat)
    requires ts != [] && Deep(ts, depth) && |ids| > depth && HavePaths(more)
    ensures |Preorder(ts)| == 1 + |Preorder(ts[0].children)| + |Preorder(ts[1..])|
    ensures HavePaths(Preorder(ts) + more) && HavePaths(Preorder(ts[0].children) + (Preorder(ts[1..]) + more))
    ensures Rows(Preorder(ts) + more, ids, id) ==
            [Row(id + 1, ts[0].element, ids[depth])] +
            Rows(Preorder(ts[0].children) + (Preorder(ts[1..]) + more), Trim(ids, depth + 1) + [id + 1], id + 1)
  {
    DeepPathsAreNotEmpty(ts, depth);
    HavePathsConcat(Preorder(ts), more);
    var es, rest := Preorder(ts) + more, Preorder(ts[0].children) + (Preorder(ts[1..]) + more);
    assert es == [ts[0].element] + rest;
    assert es[1..] == rest;
    assert HavePaths(rest) by {
      assert forall i :: 0 <= i < |rest| ==> rest[i] == es[i + 1];
    }
  }

  /** The rows still to be printed when the first k elements are done. */
  ghost function RowsFrom(es: seq<Element>, k: nat, ids: seq<nat>, id: nat): seq<Row>
    requires k <= |es| && ids != [] && HavePaths(es)
  {
    Rows(es[k..], ids, id)
  }

  lemma RowsStep(es: seq<Element>, k: nat, ids: seq<nat>, id: nat, done: seq<Row>)
    requires k < |es| && ids != [] && HavePaths(es)
    ensures es[k].typePath != []
    ensures var trimmed := Trim(ids, |es[k].typePath|);
            done + RowsFrom(es, k, ids, id) ==
            (done + [Row(id + 1, es[k], trimmed[|trimmed| - 1])]) + RowsFrom(es, k + 1, trimmed + [id + 1], id + 1)
  {
    assert es[k..][1..] == es[k + 1..];
    var trimmed := Trim(ids, |es[k].typePath|);
    AppendRow(done, Row(id + 1, es[k], trimmed[|trimmed| - 1]), RowsFrom(es, k + 1, trimmed + [id + 1], id + 1));
  }

  lemma AppendRow(done: seq<Row>, row: Row, rest: seq<Row>)
    ensures done + ([row] + rest) == (done + [row]) + rest
  {
  }

  class Printer {
    var id: nat
    var parentIdStack: seq<nat>
    /** What has been written, a row at a time. */
    var rows: seq<Row>

    constructor ()
      ensures id == 0 && parentIdStack == [0] && rows == []
    {
      id, parentIdStack, rows := 0, [0], [];
    }

    /** The body of the loop, for one element. */
    method PrintElement(el: Element)
      requires parentIdStack != [] && el.typePath != []
      modifies this
      ensures id == old(id) + 1
      ensures parentIdStack == Trim(old(parentIdStack), |el.typePath|) + [id]
      ensures rows == old(rows) + [Row(id, el, Trim(old(parentIdStack), |el.typePath|)[|Trim(old(parentIdStack), |el.typePath|)| - 1])]
    {
      id := id + 1;
      while |parentIdStack| > |el.typePath|
        invariant parentIdStack != [] && id == old(id) + 1 && rows == old(rows)
        invariant Trim(parentIdStack, |el.typePath|) == Trim(old(parentIdStack), |el.typePath|)
      {
        parentIdStack := parentIdStack[..|parentIdStack| - 1];
      }
      rows := rows + [Row(id, el, parentIdStack[|parentIdStack| - 1])];
      parentIdStack := parentIdStack + [id];
    }

    /**
     Printing an object that fills its buffer writes one row for each of its nodes, in pre-order, and
     the parent column of each row is the number of the node's parent in the object.
     */
    method Print<R(!new)>(prog: Program<R>, r: R, buf: seq<Byte>, ghost t: Tree<R>)
      requires parentIdStack != [] && parentIdStack[0] == 0
      requires LeavesPathAlone(prog) && ReadField(prog, r, [], buf, t) == Some([])
      modifies this
      ensures rows == old(rows) + Numbered([t], 0, old(id))
      ensures id == old(id) + |Preorder([t])|
    {
      hide Increment, ReadField, LeavesPathAlone, Preorder, Numbered, Rows, RowsFrom, HavePaths, Same, Trim, Shows, NextField, Named;
      ghost var start, es := Start(buf, FieldInst(r)), Preorder([t]);
      ReadFieldIsDeep(prog, r, [], buf, t);
      assert Deep([t], 0);
      DeepPathsAreNotEmpty([t], 0);
      parentIdStack := parentIdStack[..1];
      NumberOne(t, parentIdStack, id);
      var it := new ConstIterator<R>(prog, buf, [FieldInst(r)]);
      var end := new ConstIterator<R>(prog, [], []);
      LoopStopsIffAllRead(prog, r, buf, t, 1);
      var ok := it.PlusPlus();
      assert Steps(prog, start, 1) == Some(it.Abs());
      var same := it.Equals(end);
      ghost var k := 0;
      while !same
        invariant 0 <= k <= |es| && parentIdStack != []
        invariant it.prog == prog && Steps(prog, start, k + 1) == Some(it.Abs()) && end.Abs() == Finish()
        invariant same == Same(it.Abs(), Finish())
        invariant id == old(id) + k
        invariant rows + RowsFrom(es, k, parentIdStack, id) == old(rows) + Numbered([t], 0, old(id))
        decreases |es| - k
      {
        LoopStopsIffAllRead(prog, r, buf, t, k + 1);
        LoopStopsIffAllRead(prog, r, buf, t, k + 2);
        StepsPlusOne(prog, start, k + 1);
        RowsStep(es, k, parentIdStack, id, rows);
        PrintElement(it.next.value);
        ok := it.PlusPlus();
        k := k + 1;
        same := it.Equals(end);
      }
      LoopStopsIffAllRead(prog, r, buf, t, k + 1);
      RowsEnd(es, parentIdStack, id);
    }
  }

  lemma NumberOne<R>(t: Tree<R>, ids: seq<nat>, id: nat)
    requires Deep([t], 0) && ids == [0]
    ensures HavePaths(Preorder([t])) && RowsFrom(Preorder([t]), 0, ids, id) == Numbered([t], 0, id)
  {
    var es := Preorder([t]);
    DeepPathsAreNotEmpty([t], 0);
    var after := RowsOfForest([t], 0, [], ids, id);
    assert es + [] == es && es[0..] == es;
  }

  lemma RowsEnd(es: seq<Element>, ids: seq<nat>, id: nat)
    requires HavePaths(es) && ids != []
    ensures RowsFrom(es, |es|, ids, id) == []
  {
  }
}
