/**
 From a flattened class to the structure that is declared for it: the removal of members
 (oi/type_graph/RemoveMembers.cpp) and the padding pass, and what a compiler makes of the result.
 */
module LayoutPasses {
  import opened Machine
  import opened TypeGraph
  import opened Padding
  import opened Alignment
  import opened Layout

  function Keep(ms: seq<Member>, keep: Member -> bool): seq<Member>
  {
    if ms == [] then [] else (if keep(ms[0]) then [ms[0]] else []) + Keep(ms[1..], keep)
  }

  /** A union loses all its members, and no member of an incomplete type stays. */
  function Removed(c: Node, keep: Member -> bool): seq<Member>
    requires c.Class?
  {
    if c.kind == Union then [] else Keep(c.members, m => keep(m) && m.ty != Incomplete)
  }

  lemma {:induction false} KeptIsMember(ms: seq<Member>, keep: Member -> bool, m: Member)
    requires m in Keep(ms, keep)
    ensures m in ms && keep(m)
  {
    if ms != [] && !(keep(ms[0]) && m == ms[0]) {
      KeptIsMember(ms[1..], keep, m);
    }
  }

  lemma {:induction false} KeptExactly(ms: seq<Member>, keep: Member -> bool, m: Member)
    ensures multiset(Keep(ms, keep))[m] == if keep(m) then multiset(ms)[m] else 0
  {
    if ms != [] {
      KeptExactly(ms[1..], keep, m);
      assert ms == [ms[0]] + ms[1..];
      assert Keep(ms, keep) == (if keep(ms[0]) then [ms[0]] else []) + Keep(ms[1..], keep);
    }
  }

  /** What is left of a class: nothing of a union, and of a structure every member that is neither ignored nor of an incomplete type. */
  lemma RemovedExactly(c: Node, keep: Member -> bool, m: Member)
    requires c.Class?
    ensures multiset(Removed(c, keep))[m] ==
            if c.kind == Struct && keep(m) && m.ty != Incomplete then multiset(c.members)[m] else 0
  {
    KeptExactly(c.members, x => keep(x) && x.ty != Incomplete, m);
  }

  /** Taking members out leaves the others in order. */
  lemma {:induction false} KeepOrdered(g: Graph, start: nat, ms: seq<Member>, end: nat, keep: Member -> bool)
    requires Ordered(g, start, ms, end)
    ensures Ordered(g, start, Keep(ms, keep), end)
    decreases |ms|
  {
    if ms != [] {
      KeepOrdered(g, EndOf(g, ms[0]), ms[1..], end, keep);
      var rest := Keep(ms[1..], keep);
      if keep(ms[0]) {
        assert ([ms[0]] + rest)[1..] == rest;
      } else {
        assert [] + rest == rest;
        OrderedEarlier(g, start, EndOf(g, ms[0]), rest, end);
      }
    }
  }

  /** Alignments play no part in the order. */
  lemma {:induction false} AlignedOrdered(g: Graph, start: nat, ms: seq<Member>, ms': seq<Member>, end: nat)
    requires Ordered(g, start, ms, end)
    requires |ms'| == |ms| && forall i :: 0 <= i < |ms| ==> ms'[i] == ms[i].(align := ms'[i].align)
    ensures Ordered(g, start, ms', end)
    decreases |ms|
  {
    if ms != [] {
      assert EndOf(g, ms'[0]) == EndOf(g, ms[0]);
      AlignedOrdered(g, EndOf(g, ms[0]), ms[1..], ms'[1..], end);
    }
  }

  ghost predicate IsPad(m: Member)
  {
    IsPadding(m) && ((m.ty == INT8 && 0 < m.bitSize < 8) || (m.ty.Array? && m.ty.element == INT8 && m.bitSize == 0 && m.bitOffset % 8 == 0))
  }

  lemma GapHasPads(start: nat, end: nat)
    ensures forall m :: m in Gap(start, end) ==> IsPad(m)
  {
  }

  lemma {:induction false} PaddedHas(g: Graph, start: nat, ms: seq<Member>, end: nat, m: Member)
    requires m in PadFrom(g, start, ms, end)
    ensures m in ms || IsPad(m)
    decreases |ms|
  {
    hide Gap, IsPad;
    if ms == [] {
      GapHasPads(start, end);
    } else if m !in ms {
      GapHasPads(start, ms[0].bitOffset);
      if m !in Gap(start, ms[0].bitOffset) {
        PaddedHas(g, EndOf(g, ms[0]), ms[1..], end, m);
      }
    }
  }

  lemma PaddedNodeHas(g: Graph, c: Node, m: Member)
    requires c.Class? && m in Padded(g, c)
    ensures m in c.members || IsPad(m)
  {
    hide Gap, IsPad, PadFrom;
    if c.kind == Struct {
      PaddedHas(g, 0, c.members, c.size * 8, m);
    } else {
      GapHasPads(0, c.size * 8);
    }
  }

  // ----- the members tile the class

  /** A class as it comes to the padding pass: nothing is left of a union. */
  ghost predicate Orderly(g: Graph, c: Node)
    requires c.Class?
  {
    && c.size * 8 < U64_LIMIT && (forall m :: m in c.members ==> ProperMember(m))
    && if c.kind == Struct then Ordered(g, 0, c.members, c.size * 8) else c.members == []
  }

  /** The gaps between the members can be filled. */
  ghost predicate CanBeFilled(g: Graph, c: Node)
    requires c.Class?
  {
    GapsFillable(g, 0, c.members, c.size * 8)
  }

  lemma PaddedTilesExactly(g: Graph, c: Node)
    requires c.Class? && Orderly(g, c)
    ensures Tiles(g, 0, Padded(g, c), c.size * 8) <==> CanBeFilled(g, c)
  {
    hide Gap, PadFrom;
    if c.kind == Union {
      FillableGapTiles(g, 0, c.size * 8);
      assert [] + Gap(0, c.size * 8) == Gap(0, c.size * 8);
    } else {
      PaddingTiles(g, 0, c.members, c.size * 8);
    }
  }

  lemma PaddedProper(g: Graph, c: Node)
    requires c.Class? && Orderly(g, c)
    ensures forall m :: m in Padded(g, c) ==> ProperMember(m)
  {
    hide Padded, Ordered;
    forall m | m in Padded(g, c)
      ensures ProperMember(m)
    {
      PaddedNodeHas(g, c, m);
    }
  }

  // ----- a gap that cannot be filled puts a member out of place

  /** The members as the compiler sees them, of the sizes that were recorded. */
  ghost predicate FieldsFor(g: Graph, ms: seq<Member>, fs: seq<Field>)
  {
    Typed(fs) && |fs| == |ms| && forall i :: 0 <= i < |fs| ==> fs[i].m == ms[i] && fs[i].size == SizeOf(g, ms[i].ty)
  }

  lemma InPlaceTail(g: Graph, m: Member, ms: seq<Member>, packed: bool, fs: seq<Field>, at: nat)
    requires FieldsFor(g, [m] + ms, fs) && InPlace(packed, fs, at)
    ensures m.bitOffset >= at && FieldsFor(g, ms, fs[1..]) && InPlace(packed, fs[1..], EndOf(g, m))
  {
    assert ([m] + ms)[0] == m && forall i :: 0 < i < |fs| ==> ([m] + ms)[i] == ms[i - 1];
  }

  /** If what fills a gap and what follows it are in place, then it does fill the gap. */
  lemma GapInPlace(g: Graph, start: nat, next: Member, rest: seq<Member>, packed: bool, fs: seq<Field>)
    requires start <= next.bitOffset < U64_LIMIT
    requires FieldsFor(g, Gap(start, next.bitOffset) + ([next] + rest), fs) && InPlace(packed, fs, start)
    ensures Fillable(start, next.bitOffset)
    ensures var after := |Gap(start, next.bitOffset)| + 1;
            after <= |fs| && FieldsFor(g, rest, fs[after..]) && InPlace(packed, fs[after..], EndOf(g, next))
  {
    hide InPlace, FieldsFor, Gap, EndOf;
    var bits := next.bitOffset - start;
    GapShapes(start, next.bitOffset);
    FieldCount(g, Gap(start, next.bitOffset) + ([next] + rest), fs);
    var bytePad, bitPad := BytePad(start, bits / 8), BitPad(start, bits % 8);
    PadEnds(g, start, bits);
    if bits == 0 {
      assert [] + ([next] + rest) == [next] + rest;
      InPlaceTail(g, next, rest, packed, fs, start);
    } else if bits % 8 == 0 {
      InPlaceTail(g, bytePad, [next] + rest, packed, fs, start);
      InPlaceTail(g, next, rest, packed, fs[1..], EndOf(g, bytePad));
    } else if bits < 8 {
      InPlaceTail(g, bitPad, [next] + rest, packed, fs, start);
      InPlaceTail(g, next, rest, packed, fs[1..], EndOf(g, bitPad));
    } else {
      assert [bitPad, bytePad] + ([next] + rest) == [bitPad] + ([bytePad] + ([next] + rest));
      InPlaceTail(g, bitPad, [bytePad] + ([next] + rest), packed, fs, start);
      InPlaceTail(g, bytePad, [next] + rest, packed, fs[1..], EndOf(g, bitPad));
      InPlaceTail(g, next, rest, packed, fs[1..][1..], EndOf(g, bytePad));
      assert fs[1..][1..][1..] == fs[3..];
    }
  }

  lemma FieldCount(g: Graph, ms: seq<Member>, fs: seq<Field>)
    requires FieldsFor(g, ms, fs)
    ensures |fs| == |ms| && Typed(fs)
  {
  }

  lemma PadEnds(g: Graph, start: nat, bits: nat)
    ensures EndOf(g, BytePad(start, bits / 8)) == (start + 7) / 8 * 8 + bits / 8 * 8
    ensures bits % 8 != 0 ==> EndOf(g, BitPad(start, bits % 8)) == start + bits % 8
  {
    BytePadLength(g, start, bits / 8);
  }

  lemma {:induction false} InPlaceFillable(g: Graph, start: nat, ms: seq<Member>, end: nat, packed: bool,
                                           fs: seq<Field>)
    requires Ordered(g, start, ms, end) && end % 8 == 0
    requires FieldsFor(g, PadFrom(g, start, ms, end), fs) && Typed(fs) && InPlace(packed, fs, start)
    ensures GapsFillable(g, start, ms, end)
    decreases |ms|
  {
    hide InPlace, FieldsFor, Gap, EndOf;
    if ms != [] {
      var rest := PadFrom(g, EndOf(g, ms[0]), ms[1..], end);
      GapInPlace(g, start, ms[0], rest, packed, fs);
      var after := |Gap(start, ms[0].bitOffset)| + 1;
      InPlaceFillable(g, EndOf(g, ms[0]), ms[1..], end, packed, fs[after..]);
    }
  }

  lemma KeptIsFilled(g: Graph, c: Node, fs: seq<Field>)
    requires c.Class? && Orderly(g, c) && FieldsFor(g, Padded(g, c), fs) && InPlace(c.packed, fs, 0)
    ensures CanBeFilled(g, c)
  {
    hide InPlace, FieldsFor, Gap;
    FieldCount(g, Padded(g, c), fs);
    if c.kind == Struct {
      InPlaceFillable(g, 0, c.members, c.size * 8, c.packed, fs);
    }
  }

  // ----- the whole graph

  /** Sizes of the nodes are the same. */
  lemma {:induction false} SizesStay(g: Graph, h: Graph, p: Progress, ty: Ty)
    requires PaddedSoFar(g, h, p)
    ensures SizeOf(h, ty) == SizeOf(g, ty) && AlignOf(h, ty) == AlignOf(g, ty)
  {
    if ty.Array? {
      SizesStay(g, h, p, ty.element);
    }
  }

  lemma {:induction false} TilesStay(g: Graph, h: Graph, p: Progress, start: nat, ms: seq<Member>, end: nat)
    requires PaddedSoFar(g, h, p)
    ensures Tiles(h, start, ms, end) <==> Tiles(g, start, ms, end)
    decreases |ms|
  {
    if ms != [] {
      SizesStay(g, h, p, ms[0].ty);
      TilesStay(g, h, p, EndOf(g, ms[0]), ms[1..], end);
    }
  }

  /** What the padding pass is given: orderly classes, and no way out of the nodes that it visits. */
  ghost predicate OrderlyIn(g: Graph, s: set<Id>)
  {
    forall n :: n in s ==> n in g && Covered(Followed(g[n]), s) && (g[n].Class? ==> Orderly(g, g[n]))
  }

  lemma PaddedAt(g: Graph, h: Graph, p: Progress, n: Id)
    requires PaddedSoFar(g, h, p) && n in p.finished
    ensures n in g && n in h && h[n] == PaddedNode(g, g[n])
  {
  }

  lemma PaddedTiled(g: Graph, h: Graph, p: Progress, n: Id)
    requires PaddedSoFar(g, h, p) && n in p.finished && n in g && n in h && g[n].Class? && Orderly(g, g[n])
    ensures h[n].Class? && (Tiles(h, 0, h[n].members, h[n].size * 8) <==> CanBeFilled(g, g[n]))
  {
    hide Orderly, Padded;
    PaddedAt(g, h, p, n);
    PaddedTilesExactly(g, g[n]);
    TilesStay(g, h, p, 0, h[n].members, h[n].size * 8);
  }

  lemma PaddedIfKept(g: Graph, h: Graph, p: Progress, rank: map<Id, nat>, lib: Id -> nat, n: Id)
    requires PaddedSoFar(g, h, p) && n in p.finished && n in g && n in h && g[n].Class? && Orderly(g, g[n])
    requires Nested(h, rank) && h[n].Class?
    ensures TiledIfKept(h, rank, lib, n)
  {
    hide Orderly, Padded, SizeOfInC, AlignOfInC, FieldsOf, Tiles, Nested;
    PaddedAt(g, h, p, n);
    PaddedTiled(g, h, p, n);
    if SizesKept(h, rank, lib, n) && KeepsLayoutInC(h, rank, lib, n) {
      var fs := FieldsOf(h, rank, lib, n, h[n].members);
      FieldsAre(h, rank, lib, n, h[n].members);
      forall i | 0 <= i < |fs|
        ensures fs[i].m == h[n].members[i] && fs[i].size == SizeOf(g, h[n].members[i].ty)
      {
        assert h[n].members[i] in h[n].members;
        SizesStay(g, h, p, h[n].members[i].ty);
      }
      KeptIsFilled(g, g[n], fs);
    }
  }

  lemma ByValueFollowed(n: Node, m: Member)
    requires n.Class? && m in n.members && ByValue(m.ty).Some?
    ensures m.ty in Followed(n) && Reached(m.ty) == ByValue(m.ty)
  {
    ByValueIsReached(m.ty);
    var i :| 0 <= i < |n.members| && n.members[i] == m;
    assert TypesOfMembers(n.members)[i] == m.ty;
    assert m.ty in n.params + TypesOfMembers(n.members);
  }

  lemma PadByValue(m: Member)
    requires IsPad(m)
    ensures ByValue(m.ty).None? && m.ty != Incomplete
  {
    assert ByValue(INT8).None?;
  }

  lemma PaddedEnclosed(g: Graph, h: Graph, p: Progress)
    requires PaddedSoFar(g, h, p) && p.finished == p.visited && OrderlyIn(g, p.visited)
    ensures Enclosed(h, p.visited)
  {
    hide Orderly, Padded, Followed, IsPad, PaddedSoFar;
    forall n | n in p.visited
      ensures n in h && (h[n].Class? ==> EnclosedMembers(h[n].members, p.visited))
    {
      PaddedAt(g, h, p, n);
      if g[n].Class? {
        PaddedProper(g, g[n]);
        forall m | m in h[n].members && ByValue(m.ty).Some?
          ensures ByValue(m.ty).value in p.visited
        {
          PaddedNodeHas(g, g[n], m);
          if IsPad(m) {
            PadByValue(m);
          } else {
            ByValueFollowed(g[n], m);
          }
        }
      }
    }
  }

  /** The gaps of a class can be filled, and by the compiler's own alignments its padded members sit as they should. */
  ghost predicate FilledAndSits(g: Graph, h: Graph, rank: map<Id, nat>, lib: Id -> nat, n: Id)
    requires Nested(h, rank) && n in g && n in h && g[n].Class? && h[n].Class?
  {
    CanBeFilled(g, g[n]) && Sits(h, rank, lib, n)
  }

  /**
   The compiler gives every declared class its recorded size, and every member its recorded offset, exactly if the
   gaps of each class can be filled and its members sit as they should.
   */
  lemma PassesKeepLayout(g: Graph, h: Graph, p: Progress, rank: map<Id, nat>, lib: Id -> nat)
    requires PaddedSoFar(g, h, p) && p.finished == p.visited && OrderlyIn(g, p.visited) && Nested(h, rank)
    ensures forall n :: n in p.visited ==> n in g && n in h && g[n].Class? == h[n].Class?
    ensures (forall n :: n in p.visited && g[n].Class? ==> KeepsLayoutInC(h, rank, lib, n)) <==>
            (forall n :: n in p.visited && g[n].Class? ==> FilledAndSits(g, h, rank, lib, n))
  {
    hide Orderly, Nested, KeepsLayoutInC, Sits, CanBeFilled, Tiles, Enclosed, Covered, Followed, Padded;
    forall n | n in p.visited
      ensures n in g && n in h && g[n].Class? == h[n].Class?
      ensures g[n].Class? ==> TiledIfKept(h, rank, lib, n) && (Tiles(h, 0, h[n].members, h[n].size * 8) <==> CanBeFilled(g, g[n]))
    {
      PaddedAt(g, h, p, n);
      if g[n].Class? {
        PaddedTiled(g, h, p, n);
        PaddedIfKept(g, h, p, rank, lib, n);
      }
    }
    PaddedEnclosed(g, h, p);
    LayoutKeptExactly(h, rank, lib, p.visited);
  }

  // ----- the alignments are known

  /** A type of known alignment, and any alignment that was given explicitly is no smaller. */
  ghost predicate KnownType(g: Graph, m: Member)
  {
    && (AlignOf(g, m.ty) == 0 || IsPowerOfTwo(AlignOf(g, m.ty)))
    && (m.align == 0 || (IsPowerOfTwo(m.align) && AlignOf(g, m.ty) <= m.align))
  }

  lemma OneIsPower()
    ensures IsPowerOfTwo(1)
  {
  }

  lemma PadAlign(g: Graph, m: Member)
    requires IsPad(m)
    ensures AlignOf(g, m.ty) == 1
  {
    assert AlignOf(g, INT8) == 1;
  }

  lemma AlignedMember(g: Graph, f: Node, c: Node, m: Member)
    requires f.Class? && f.align == 0 && c == AlignedNode(Aligns(g), f) && m in c.members && m.ty != Incomplete
    requires forall x :: x in f.members ==> KnownType(g, x)
    requires AlignOf(g, m.ty) != 0
    ensures KnownMember(g, c, m)
  {
    hide WithAligns, MaxAlign, IsPowerOfTwo;
    var i :| 0 <= i < |c.members| && c.members[i] == m;
    assert f.members[i] in f.members;
    AlignPositive(m.align);
    if !c.packed {
      assert IsAligned(c.members[i]);
    }
  }

  lemma AlignedClass(g: Graph, f: Node, c: Node)
    requires f.Class? && f.align == 0 && c == AlignedNode(Aligns(g), f)
    requires forall x :: x in f.members ==> KnownType(g, x)
    ensures c.Class? && IsPowerOfTwo(c.align) && (c.packed || Divides(c.align, c.size))
  {
    hide WithAligns, IsPowerOfTwo, MaxAlign;
    OneIsPower();
    if c.align != 1 {
      var i :| 0 <= i < |c.members| && c.align == c.members[i].align;
      assert f.members[i] in f.members;
    }
  }

  /** A class whose alignment was worked out from those that its members' types have in the end. */
  ghost predicate AlignedLast(g: Graph, f: Node, c: Node)
  {
    && f.Class? && f.align == 0 && c == AlignedNode(Aligns(g), f)
    && forall m :: m in f.members ==> KnownType(g, m)
  }

  /** Its alignments are known when members have been removed and others padded. */
  lemma PaddedKnown(g: Graph, f: Node, c: Node, d: Node)
    requires AlignedLast(g, f, c) && c.Class? && d.Class? && d == c.(members := d.members)
    requires forall m :: m in d.members ==> m in c.members && m.ty != Incomplete && AlignOf(g, m.ty) != 0
    ensures Known(g, PaddedNode(g, d))
  {
    hide AlignedNode, KnownType, IsPowerOfTwo, Padded, AlignOf;
    AlignedClass(g, f, c);
    var e := PaddedNode(g, d);
    forall m | m in e.members
      ensures KnownMember(g, e, m)
    {
      PaddedNodeHas(g, d, m);
      OneIsPower();
      if IsPad(m) {
        PadAlign(g, m);
      } else {
        AlignedMember(g, f, c, m);
      }
    }
  }

  lemma KnownStays(g: Graph, h: Graph, p: Progress, c: Node)
    requires PaddedSoFar(g, h, p) && c.Class? && Known(g, c)
    ensures Known(h, c)
  {
    hide IsPowerOfTwo, PaddedSoFar, Divides;
    forall m | m in c.members
      ensures KnownMember(h, c, m)
    {
      assert KnownMember(g, c, m);
      SizesStay(g, h, p, m.ty);
    }
  }

  /** Every class that is left was aligned last; `f` are the classes before, and `a` after the alignment pass. */
  ghost predicate AllAlignedLast(f: Graph, a: Graph, g: Graph, lib: Id -> nat, s: set<Id>)
  {
    forall n :: n in s ==> n in f && n in a && n in g && NodeAlignedLast(f, a, g, lib, n)
  }

  ghost predicate NodeAlignedLast(f: Graph, a: Graph, g: Graph, lib: Id -> nat, n: Id)
    requires n in f && n in a && n in g
  {
    if g[n].Container? then Divides(lib(n), g[n].align)
    else
      && a[n].Class? && AlignedLast(g, f[n], a[n]) && g[n] == a[n].(members := g[n].members)
      && forall m :: m in g[n].members ==> m in a[n].members && m.ty != Incomplete && AlignOf(g, m.ty) != 0
  }

  lemma PassesPrepare(f: Graph, a: Graph, g: Graph, h: Graph, p: Progress, lib: Id -> nat)
    requires PaddedSoFar(g, h, p) && p.finished == p.visited && OrderlyIn(g, p.visited) && AllAlignedLast(f, a, g, lib, p.visited)
    ensures Prepared(h, lib, p.visited)
  {
    hide Orderly, AlignedLast, Known, Padded, EnclosedMembers, PaddedSoFar, Followed;
    PaddedEnclosed(g, h, p);
    forall n | n in p.visited
      ensures n in h && PreparedNode(h, lib, p.visited, n)
    {
      PaddedAt(g, h, p, n);
      assert NodeAlignedLast(f, a, g, lib, n);
      if g[n].Class? {
        PaddedKnown(g, f[n], a[n], g[n]);
        KnownStays(g, h, p, h[n]);
        forall m | m in h[n].members
          ensures m.ty != Incomplete
        {
          PaddedNodeHas(g, g[n], m);
          if IsPad(m) {
            PadByValue(m);
          }
        }
      }
    }
  }

  /**
   When every class was aligned last, its members sit as they should exactly if it is keepable: it has members left, no
   bit-field of an unpacked class crosses a storage unit and, if only padding is left, the size is a multiple of the
   alignment.
   */
  lemma PassesPreserveLayout(f: Graph, a: Graph, g: Graph, h: Graph, p: Progress, rank: map<Id, nat>, lib: Id -> nat,
                             n: Id)
    requires PaddedSoFar(g, h, p) && p.finished == p.visited && OrderlyIn(g, p.visited) && AllAlignedLast(f, a, g, lib, p.visited)
    requires Nested(h, rank) && n in p.visited && n in h && h[n].Class?
    ensures Sits(h, rank, lib, n) <==> Keepable(h[n])
  {
    hide Orderly, Keepable, Sits, Prepared, Nested, PaddedSoFar, OrderlyIn, AllAlignedLast;
    PassesPrepare(f, a, g, h, p, lib);
    SitsWhenKeepable(h, rank, lib, p.visited, n);
  }

  // ----- nothing is left

  /** A class that loses all its members keeps its layout exactly if its size is a multiple of its alignment. */
  lemma StubKeepable(g: Graph, c: Node)
    requires c.Class? && 0 < c.size && c.size * 8 < U64_LIMIT && c.members == []
    ensures Keepable(PaddedNode(g, c)) <==> Divides(c.align, c.size)
  {
    hide Divides;
    StubMembers(g, c);
    PadIsPadding(c.size);
  }

  lemma PadIsPadding(bytes: nat)
    ensures IsPadding(BytePad(0, bytes)) && BytePad(0, bytes).bitSize == 0
  {
  }

  lemma StubMembers(g: Graph, c: Node)
    requires c.Class? && 0 < c.size && c.size * 8 < U64_LIMIT && c.members == []
    ensures PaddedNode(g, c) == c.(members := [BytePad(0, c.size)])
  {
    hide Gap;
    OneGap(c.size);
    assert [] + Gap(0, c.size * 8) == Gap(0, c.size * 8);
  }

  lemma OneGap(bytes: nat)
    requires 0 < bytes && bytes * 8 < U64_LIMIT
    ensures Gap(0, bytes * 8) == [BytePad(0, bytes)]
  {
    GapShapes(0, bytes * 8);
  }

  /**
   For a packed class the size may not be: a char and a double without padding between them have size
   9 and alignment 8. Declared as a stub, the class takes up 16 bytes.
   */
  lemma PackedStubGrows()
    ensures var f := Class(Struct, 9, 0, false, [], [], [Member(Leaf(1, 1), "c", 0, 0, 0), Member(Leaf(8, 8), "d", 8, 0, 0)], []);
            var c := AlignedNode(Aligns(map[]), f);
            var d := PaddedNode(map[], c.(members := Removed(c, m => false)));
            c.packed && c.align == 8 && d.members == [BytePad(0, 9)] && SizeInC(d, [Field(BytePad(0, 9), 9, 1)]) == 16
  {
    hide AllAligned, Keep, Removed;
    var a, b := Member(Leaf(1, 1), "c", 0, 0, 0), Member(Leaf(8, 8), "d", 8, 0, 0);
    var f := Class(Struct, 9, 0, false, [], [], [a, b], []);
    var a', b' := a.(align := 1), b.(align := 8);
    var ms := WithAligns(Aligns(map[]), [a, b]);
    assert ms == [a', b'];
    assert MaxAlign(ms) == 8;
    var c := AlignedNode(Aligns(map[]), f);
    RemovedAll(c, m => false);
    StubMembers(map[], c.(members := []));
    var fs := [Field(BytePad(0, 9), 9, 1)];
    assert End(true, fs, 0) == 72;
  }

  lemma {:induction false} KeepNone(ms: seq<Member>, keep: Member -> bool)
    requires forall m :: m in ms ==> !keep(m)
    ensures Keep(ms, keep) == []
  {
    if ms != [] {
      KeepNone(ms[1..], keep);
    }
  }

  lemma RemovedAll(c: Node, keep: Member -> bool)
    requires c.Class? && forall m :: m in c.members ==> !keep(m)
    ensures Removed(c, keep) == []
  {
    KeepNone(c.members, m => keep(m) && m.ty != Incomplete);
  }
}
