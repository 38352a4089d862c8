/**
 The structures that the generated code declares (`genDefsClass`, oi/CodeGen.cpp) laid out by the C
 rule of section 3.1.2 of the System V AMD64 psABI: does each member come where it was recorded?
 Positions are in bits, sizes and alignments in bytes.
 */
module Layout {
  import opened Machine
  import opened TypeGraph
  import opened Padding
  import opened Alignment

  /** A member with the size and the alignment that the compiler gives to its type. */
  datatype Field = Field(m: Member, size: nat, align: nat)

  function Length(f: Field): nat
  {
    if f.m.bitSize == 0 then f.size * 8 else f.m.bitSize
  }

  /** A bit-field that would not lie within one storage unit of its type. */
  predicate Straddles(f: Field, at: nat)
    requires f.align >= 1
  {
    at % (8 * f.align) + f.m.bitSize > 8 * f.size
  }

  /** Where the compiler puts a member when everything before `at` is taken. */
  function Place(packed: bool, f: Field, at: nat): nat
    requires f.align >= 1
  {
    if f.m.bitSize == 0 then AlignTo(at, 8 * if packed then 1 else f.align)
    else if !packed && Straddles(f, at) then AlignTo(at, 8 * f.align)
    else at
  }

  ghost predicate Typed(fs: seq<Field>)
  {
    forall i :: 0 <= i < |fs| ==> fs[i].align >= 1
  }

  /** No bit-field is wider than its type, and other members start on a byte. */
  ghost predicate Proper(fs: seq<Field>)
  {
    forall i :: 0 <= i < |fs| ==>
      fs[i].m.bitSize <= 8 * fs[i].size && (fs[i].m.bitSize == 0 ==> fs[i].m.bitOffset % 8 == 0)
  }

  /** Where the last member ends. */
  function End(packed: bool, fs: seq<Field>, at: nat): nat
    requires Typed(fs)
    decreases |fs|
  {
    if fs == [] then at else End(packed, fs[1..], Place(packed, fs[0], at) + Length(fs[0]))
  }

  /** Every member is put where it was recorded. */
  ghost predicate InPlace(packed: bool, fs: seq<Field>, at: nat)
    requires Typed(fs)
    decreases |fs|
  {
    fs != [] ==>
      && Place(packed, fs[0], at) == fs[0].m.bitOffset
      && InPlace(packed, fs[1..], fs[0].m.bitOffset + Length(fs[0]))
  }

  function LargestAlign(fs: seq<Field>): (a: nat)
    ensures a >= 1 && forall i :: 0 <= i < |fs| ==> a >= fs[i].align
    ensures a == 1 || exists i :: 0 <= i < |fs| && a == fs[i].align
  {
    var ms := seq(|fs|, i requires 0 <= i < |fs| => fs[i].m.(align := fs[i].align));
    assert forall i :: 0 <= i < |fs| ==> ms[i].align == fs[i].align;
    MaxAlign(ms)
  }

  /** The generated code gives an explicit alignment to a class of which only padding is left. */
  predicate IsStub(fs: seq<Field>)
  {
    |fs| == 1 && IsPadding(fs[0].m)
  }

  function AlignInC(c: Node, fs: seq<Field>): (a: nat)
    requires c.Class? && Typed(fs)
    ensures a >= 1
  {
    Max(if c.packed then 1 else LargestAlign(fs), if IsStub(fs) then c.align else 1)
  }

  /** An empty structure takes up one byte. */
  function SizeInC(c: Node, fs: seq<Field>): nat
    requires c.Class? && Typed(fs)
  {
    if fs == [] then 1 else AlignTo((End(c.packed, fs, 0) + 7) / 8, AlignInC(c, fs))
  }

  /** What the generated static assertions check, and that the bit-fields are in place too. */
  ghost predicate KeepsLayout(c: Node, fs: seq<Field>)
    requires c.Class? && Typed(fs)
  {
    InPlace(c.packed, fs, 0) && SizeInC(c, fs) == c.size
  }

  // ----- one class

  /** The fields cover everything up to `end`, each starting where the one before it ends. */
  ghost predicate Covers(fs: seq<Field>, at: nat, end: nat)
    decreases |fs|
  {
    if fs == [] then at == end
    else fs[0].m.bitOffset == at && Covers(fs[1..], at + Length(fs[0]), end)
  }

  /** A member that the compiler can leave where it was recorded. */
  predicate Fits(f: Field)
    requires f.align >= 1
  {
    if f.m.bitSize == 0 then f.m.bitOffset / 8 % f.align == 0 else !Straddles(f, f.m.bitOffset)
  }

  ghost predicate AllFit(fs: seq<Field>)
    requires Typed(fs)
  {
    forall i :: 0 <= i < |fs| ==> Fits(fs[i])
  }

  lemma ByteMultiple(x: nat, a: nat)
    requires a >= 1 && x % 8 == 0
    ensures x % (8 * a) == 0 <==> x / 8 % a == 0
  {
    var k := x / 8;
    assert x == 8 * k;
    if k % a == 0 {
      var j := k / a;
      assert k == j * a;
      assert x == j * (8 * a);
      MultipleOf(j, 8 * a);
    }
    if x % (8 * a) == 0 {
      var j := x / (8 * a);
      assert x == j * (8 * a);
      assert 8 * k == 8 * (j * a);
      MultipleOf(j, a);
    }
  }

  lemma StaysWhenFits(packed: bool, f: Field)
    requires f.align >= 1 && f.m.bitSize <= 8 * f.size && (f.m.bitSize == 0 ==> f.m.bitOffset % 8 == 0)
    ensures Place(packed, f, f.m.bitOffset) == f.m.bitOffset <==> packed || Fits(f)
  {
    if f.m.bitSize == 0 {
      ByteMultiple(f.m.bitOffset, f.align);
    }
  }

  lemma {:induction false} InPlaceWhenFits(packed: bool, fs: seq<Field>, at: nat, end: nat)
    requires Typed(fs) && Proper(fs) && Covers(fs, at, end)
    ensures InPlace(packed, fs, at) <==> packed || AllFit(fs)
    ensures InPlace(packed, fs, at) ==> End(packed, fs, at) == end
    decreases |fs|
  {
    hide Place, Fits, Straddles;
    if fs != [] {
      StaysWhenFits(packed, fs[0]);
      InPlaceWhenFits(packed, fs[1..], at + Length(fs[0]), end);
      assert forall i :: 0 < i < |fs| ==> fs[i] == fs[1..][i - 1];
    }
  }

  /** A class that is tiled by its members keeps its layout in C exactly under these conditions. */
  lemma KeepsLayoutExactly(c: Node, fs: seq<Field>)
    requires c.Class? && Typed(fs) && Proper(fs) && Covers(fs, 0, c.size * 8)
    ensures KeepsLayout(c, fs) <==> fs != [] && (c.packed || AllFit(fs)) && Divides(AlignInC(c, fs), c.size)
  {
    hide AlignInC, AllFit;
    InPlaceWhenFits(c.packed, fs, 0, c.size * 8);
    if fs == [] {
      assert c.size == 0;
    } else if InPlace(c.packed, fs, 0) {
      assert (c.size * 8 + 7) / 8 == c.size;
    }
  }

  // ----- powers of two

  predicate Divides(a: nat, b: nat)
  {
    a >= 1 && b % a == 0
  }

  predicate IsPowerOfTwo(n: nat)
  {
    n == 1 || (n > 0 && n % 2 == 0 && IsPowerOfTwo(n / 2))
  }

  lemma {:induction false} PowersDivide(a: nat, b: nat)
    requires IsPowerOfTwo(a) && IsPowerOfTwo(b) && a <= b
    ensures Divides(a, b)
  {
    if a > 1 {
      PowersDivide(a / 2, b / 2);
      var k := (b / 2) / (a / 2);
      assert b / 2 == k * (a / 2);
      assert b == k * a;
      MultipleOf(k, a);
    }
  }

  lemma DividesTrans(x: nat, b: nat, a: nat)
    requires Divides(b, x) && Divides(a, b)
    ensures Divides(a, x)
  {
    var j, k := x / b, b / a;
    assert x == j * b && b == k * a;
    assert x == (j * k) * a;
    MultipleOf(j * k, a);
  }

  // ----- all classes

  /** Nesting by value is well-founded. */
  ghost predicate Nested(g: Graph, rank: map<Id, nat>)
  {
    && rank.Keys == g.Keys
    && forall n, m :: n in g && g[n].Class? && m in g[n].members && ByValue(m.ty).Some? ==>
         ByValue(m.ty).value in g && rank[ByValue(m.ty).value] < rank[n]
  }

  function Rank(rank: map<Id, nat>, ty: Ty): nat
  {
    if ByValue(ty).Some? && ByValue(ty).value in rank then rank[ByValue(ty).value] + 1 else 0
  }

  /** What the compiler makes of a type; `lib` gives the alignments of the library's containers. */
  ghost function SizeOfInC(g: Graph, rank: map<Id, nat>, lib: Id -> nat, ty: Ty): nat
    requires Nested(g, rank)
    decreases Rank(rank, ty), 1, ty
  {
    match ty
    case Array(element, length) => length * SizeOfInC(g, rank, lib, element)
    case NodeRef(id) =>
      if id in g && g[id].Class? then SizeInC(g[id], FieldsOf(g, rank, lib, id, g[id].members)) else SizeOf(g, ty)
    case _ => SizeOf(g, ty)
  }

  ghost function AlignOfInC(g: Graph, rank: map<Id, nat>, lib: Id -> nat, ty: Ty): (a: nat)
    requires Nested(g, rank)
    ensures a >= 1
    decreases Rank(rank, ty), 1, ty
  {
    match ty
    case Array(element, _) => AlignOfInC(g, rank, lib, element)
    case NodeRef(id) =>
      if id in g && g[id].Class? then AlignInC(g[id], FieldsOf(g, rank, lib, id, g[id].members)) else Max(1, lib(id))
    case _ => Max(1, AlignOf(g, ty))
  }

  ghost function FieldsOf(g: Graph, rank: map<Id, nat>, lib: Id -> nat, n: Id, ms: seq<Member>): (fs: seq<Field>)
    requires Nested(g, rank) && n in g && g[n].Class? && forall m :: m in ms ==> m in g[n].members
    ensures Typed(fs) && |fs| == |ms|
    decreases rank[n] + 1, 0, |ms|
  {
    if ms == [] then []
    else
      assert ms[0] in g[n].members;
      [Field(ms[0], SizeOfInC(g, rank, lib, ms[0].ty), AlignOfInC(g, rank, lib, ms[0].ty))]
      + FieldsOf(g, rank, lib, n, ms[1..])
  }

  lemma {:induction false} FieldsAre(g: Graph, rank: map<Id, nat>, lib: Id -> nat, n: Id, ms: seq<Member>)
    requires Nested(g, rank) && n in g && g[n].Class? && forall m :: m in ms ==> m in g[n].members
    ensures var fs := FieldsOf(g, rank, lib, n, ms);
            forall i :: 0 <= i < |ms| ==> fs[i] == Field(ms[i], SizeOfInC(g, rank, lib, ms[i].ty), AlignOfInC(g, rank, lib, ms[i].ty))
    decreases |ms|
  {
    hide SizeOfInC, AlignOfInC;
    if ms != [] {
      FieldsAre(g, rank, lib, n, ms[1..]);
    }
  }

  /** Scalars only are cut to a number of bits; other members start on a byte. */
  ghost predicate ProperMember(m: Member)
  {
    if m.bitSize == 0 then m.bitOffset % 8 == 0 else m.ty.Leaf? && m.bitSize <= 8 * m.ty.size
  }

  ghost predicate Tidy(g: Graph, c: Node)
    requires c.Class?
  {
    Tiles(g, 0, c.members, c.size * 8) && forall m :: m in c.members ==> ProperMember(m)
  }

  // ----- the main result

  ghost predicate KeepsLayoutInC(g: Graph, rank: map<Id, nat>, lib: Id -> nat, n: Id)
    requires Nested(g, rank) && n in g && g[n].Class?
  {
    KeepsLayout(g[n], FieldsOf(g, rank, lib, n, g[n].members))
  }

  /** By its own alignments the compiler can leave every member where it is, and need not round up the size. */
  ghost predicate Sits(g: Graph, rank: map<Id, nat>, lib: Id -> nat, n: Id)
    requires Nested(g, rank) && n in g && g[n].Class?
  {
    var fs := FieldsOf(g, rank, lib, n, g[n].members);
    fs != [] && (g[n].packed || AllFit(fs)) && Divides(AlignInC(g[n], fs), g[n].size)
  }

  /** The types of the members have the sizes that were recorded for them. */
  ghost predicate SizesKept(g: Graph, rank: map<Id, nat>, lib: Id -> nat, n: Id)
    requires Nested(g, rank) && n in g && g[n].Class?
  {
    forall m :: m in g[n].members ==> SizeOfInC(g, rank, lib, m.ty) == SizeOf(g, m.ty)
  }

  /** Nodes that are closed under nesting by value. */
  ghost predicate Enclosed(g: Graph, s: set<Id>)
  {
    forall n :: n in s ==> n in g && (g[n].Class? ==> EnclosedMembers(g[n].members, s))
  }

  ghost predicate EnclosedMembers(ms: seq<Member>, s: set<Id>)
  {
    forall m :: m in ms ==> ProperMember(m) && (ByValue(m.ty).Some? ==> ByValue(m.ty).value in s)
  }

  /** A class that keeps its layout is tiled by its members. */
  ghost predicate TiledIfKept(g: Graph, rank: map<Id, nat>, lib: Id -> nat, n: Id)
    requires Nested(g, rank) && n in g && g[n].Class?
  {
    SizesKept(g, rank, lib, n) && KeepsLayoutInC(g, rank, lib, n) ==> Tiles(g, 0, g[n].members, g[n].size * 8)
  }

  lemma {:induction false} TilesCovers(g: Graph, ms: seq<Member>, fs: seq<Field>, start: nat, end: nat)
    requires |fs| == |ms| && forall i :: 0 <= i < |ms| ==> fs[i].m == ms[i] && fs[i].size == SizeOf(g, ms[i].ty)
    ensures Tiles(g, start, ms, end) <==> Covers(fs, start, end)
    decreases |ms|
  {
    if ms != [] {
      TilesCovers(g, ms[1..], fs[1..], EndOf(g, ms[0]), end);
    }
  }

  lemma FieldsProper(g: Graph, c: Node, fs: seq<Field>)
    requires c.Class? && Tidy(g, c) && |fs| == |c.members|
    requires forall i :: 0 <= i < |fs| ==> fs[i].m == c.members[i] && fs[i].size == SizeOf(g, c.members[i].ty)
    ensures Proper(fs)
  {
    hide Tiles;
    assert forall i :: 0 <= i < |fs| ==> c.members[i] in c.members;
  }

  /** One class that is tiled by members whose types have their sizes. */
  lemma SitsExactly(g: Graph, rank: map<Id, nat>, lib: Id -> nat, n: Id)
    requires Nested(g, rank) && n in g && g[n].Class? && Tidy(g, g[n]) && SizesKept(g, rank, lib, n)
    ensures KeepsLayoutInC(g, rank, lib, n) <==> Sits(g, rank, lib, n)
  {
    hide AlignOfInC, SizeOfInC, Fits, AlignInC, KeepsLayout, FieldsOf;
    var c := g[n];
    var fs := FieldsOf(g, rank, lib, n, c.members);
    FieldsAre(g, rank, lib, n, c.members);
    TilesCovers(g, c.members, fs, 0, c.size * 8);
    FieldsProper(g, c, fs);
    KeepsLayoutExactly(c, fs);
  }

  ghost predicate TiledAndSits(g: Graph, rank: map<Id, nat>, lib: Id -> nat, n: Id)
    requires Nested(g, rank) && n in g && g[n].Class?
  {
    Tiles(g, 0, g[n].members, g[n].size * 8) && Sits(g, rank, lib, n)
  }

  /**
   If every class is tiled and sits as it should, then what the compiler makes of the emitted structures has the
   recorded sizes and offsets, however deeply they are nested.
   */
  lemma {:induction false} LayoutPreserved(g: Graph, rank: map<Id, nat>, lib: Id -> nat, s: set<Id>, ty: Ty)
    requires Nested(g, rank) && Enclosed(g, s) && (ByValue(ty).Some? ==> ByValue(ty).value in s)
    requires forall n :: n in s && g[n].Class? ==> TiledAndSits(g, rank, lib, n)
    ensures SizeOfInC(g, rank, lib, ty) == SizeOf(g, ty)
    ensures ty.NodeRef? && g[ty.id].Class? ==> KeepsLayoutInC(g, rank, lib, ty.id)
    decreases Rank(rank, ty), ty
  {
    hide KeepsLayoutInC, FieldsOf, SizeInC, Sits;
    match ty
    case Array(element, _) =>
      LayoutPreserved(g, rank, lib, s, element);
    case NodeRef(n) =>
      if g[n].Class? {
        forall m | m in g[n].members
          ensures SizeOfInC(g, rank, lib, m.ty) == SizeOf(g, m.ty)
        {
          LayoutPreserved(g, rank, lib, s, m.ty);
        }
        SitsExactly(g, rank, lib, n);
        SizeOfClass(g, rank, lib, n);
        KeepsSize(g, rank, lib, n);
      }
    case _ =>
  }

  lemma SizeOfClass(g: Graph, rank: map<Id, nat>, lib: Id -> nat, n: Id)
    requires Nested(g, rank) && n in g && g[n].Class?
    ensures SizeOfInC(g, rank, lib, NodeRef(n)) == SizeInC(g[n], FieldsOf(g, rank, lib, n, g[n].members))
  {
  }

  lemma KeepsSize(g: Graph, rank: map<Id, nat>, lib: Id -> nat, n: Id)
    requires Nested(g, rank) && n in g && g[n].Class? && KeepsLayoutInC(g, rank, lib, n)
    ensures SizeInC(g[n], FieldsOf(g, rank, lib, n, g[n].members)) == g[n].size
  {
  }

  lemma {:induction false} KeptSizes(g: Graph, rank: map<Id, nat>, lib: Id -> nat, s: set<Id>, ty: Ty)
    requires Nested(g, rank) && Enclosed(g, s) && (ByValue(ty).Some? ==> ByValue(ty).value in s)
    requires forall n :: n in s && g[n].Class? ==> KeepsLayoutInC(g, rank, lib, n)
    ensures SizeOfInC(g, rank, lib, ty) == SizeOf(g, ty)
  {
    hide KeepsLayoutInC, FieldsOf, SizeInC;
    if ty.Array? {
      KeptSizes(g, rank, lib, s, ty.element);
    } else if ty.NodeRef? && g[ty.id].Class? {
      SizeOfClass(g, rank, lib, ty.id);
      KeepsSize(g, rank, lib, ty.id);
    }
  }

  /** All layouts are kept exactly if every class is tiled and sits as it should. Nothing is asked of any alignment. */
  lemma LayoutKeptExactly(g: Graph, rank: map<Id, nat>, lib: Id -> nat, s: set<Id>)
    requires Nested(g, rank) && Enclosed(g, s) && forall n :: n in s && g[n].Class? ==> TiledIfKept(g, rank, lib, n)
    ensures (forall n :: n in s && g[n].Class? ==> KeepsLayoutInC(g, rank, lib, n)) <==>
            (forall n :: n in s && g[n].Class? ==> TiledAndSits(g, rank, lib, n))
  {
    hide KeepsLayoutInC, Sits, Nested, Tiles;
    if forall n :: n in s && g[n].Class? ==> TiledAndSits(g, rank, lib, n) {
      forall n | n in s && g[n].Class?
        ensures KeepsLayoutInC(g, rank, lib, n)
      {
        LayoutPreserved(g, rank, lib, s, NodeRef(n));
      }
    }
    if forall n :: n in s && g[n].Class? ==> KeepsLayoutInC(g, rank, lib, n) {
      forall n | n in s && g[n].Class?
        ensures TiledAndSits(g, rank, lib, n)
      {
        forall m | m in g[n].members
          ensures SizeOfInC(g, rank, lib, m.ty) == SizeOf(g, m.ty)
        {
          KeptSizes(g, rank, lib, s, m.ty);
        }
        assert TiledIfKept(g, rank, lib, n);
        SitsExactly(g, rank, lib, n);
      }
    }
  }

  // ----- what the alignment pass finds out

  /** What the alignment pass found out about a member: its type's alignment, and that it observes it. */
  ghost predicate KnownMember(g: Graph, c: Node, m: Member)
    requires c.Class?
  {
    && IsPowerOfTwo(AlignOf(g, m.ty))
    && (AlignOf(g, m.ty) == 1 ||
        (IsPowerOfTwo(m.align) && AlignOf(g, m.ty) <= m.align <= c.align && (c.packed || Divides(m.align, m.bitOffset / 8))))
  }

  ghost predicate Known(g: Graph, c: Node)
    requires c.Class?
  {
    && IsPowerOfTwo(c.align) && (c.packed || Divides(c.align, c.size))
    && forall m :: m in c.members ==> KnownMember(g, c, m)
  }

  /** Classes and containers that are closed under nesting by value, as the passes leave them. */
  ghost predicate Prepared(g: Graph, lib: Id -> nat, s: set<Id>)
  {
    forall n :: n in s ==> n in g && PreparedNode(g, lib, s, n)
  }

  ghost predicate PreparedNode(g: Graph, lib: Id -> nat, s: set<Id>, n: Id)
    requires n in g
  {
    if g[n].Container? then Divides(lib(n), g[n].align)
    else
      && Known(g, g[n]) && EnclosedMembers(g[n].members, s)
      && forall m :: m in g[n].members ==> m.ty != Incomplete
  }

  lemma OneDivides(x: nat)
    ensures Divides(1, x)
  {
  }

  lemma HasRank(g: Graph, rank: map<Id, nat>)
    requires Nested(g, rank)
    ensures rank.Keys == g.Keys
  {
  }

  /** The compiler's alignment of a type divides the recorded one. */
  lemma {:induction false} AlignDivides(g: Graph, rank: map<Id, nat>, lib: Id -> nat, s: set<Id>, ty: Ty)
    requires Nested(g, rank) && Prepared(g, lib, s) && ty != Incomplete
    requires ByValue(ty).Some? ==> ByValue(ty).value in s
    requires IsPowerOfTwo(AlignOf(g, ty))
    ensures Divides(AlignOfInC(g, rank, lib, ty), AlignOf(g, ty))
    decreases Rank(rank, ty), 1, ty
  {
    hide AlignInC, SizeInC, Known, Nested, FieldsOf, SizeOfInC, Divides, IsPowerOfTwo;
    HasRank(g, rank);
    AlignPositive(AlignOf(g, ty));
    match ty
    case Array(element, _) =>
      if element != Incomplete {
        AlignDivides(g, rank, lib, s, element);
      }
    case NodeRef(id) =>
      assert PreparedNode(g, lib, s, id);
      if g[id].Class? {
        ClassAlignDivides(g, rank, lib, s, id);
      } else {
        DivisorPositive(lib(id), g[id].align);
      }
    case _ =>
  }

  lemma DivisorPositive(a: nat, b: nat)
    requires Divides(a, b)
    ensures a >= 1
  {
  }

  lemma AlignPositive(a: nat)
    ensures IsPowerOfTwo(a) ==> a >= 1 && Divides(a, a)
    ensures !IsPowerOfTwo(0)
  {
  }

  lemma {:induction false} ClassAlignDivides(g: Graph, rank: map<Id, nat>, lib: Id -> nat, s: set<Id>, n: Id)
    requires Nested(g, rank) && Prepared(g, lib, s) && n in s && n in g && g[n].Class?
    ensures Divides(AlignInC(g[n], FieldsOf(g, rank, lib, n, g[n].members)), g[n].align)
    decreases rank[n] + 1, 0
  {
    hide AlignOfInC, SizeOfInC, FieldsOf, Prepared, IsPowerOfTwo, Divides;
    var c := g[n];
    var fs := FieldsOf(g, rank, lib, n, c.members);
    FieldsAre(g, rank, lib, n, c.members);
    PreparedAt(g, lib, s, n);
    OneDivides(c.align);
    if !c.packed && LargestAlign(fs) != 1 {
      var i :| 0 <= i < |fs| && LargestAlign(fs) == fs[i].align;
      MemberAlignDivides(g, rank, lib, s, n, c.members[i]);
    }
    AlignPositive(c.align);
  }

  lemma PreparedAt(g: Graph, lib: Id -> nat, s: set<Id>, n: Id)
    requires Prepared(g, lib, s) && n in s
    ensures n in g && PreparedNode(g, lib, s, n)
  {
  }

  /** The compiler's alignment of a member's type divides the class's alignment and, unless packed, the member's position. */
  lemma {:induction false} MemberAlignDivides(g: Graph, rank: map<Id, nat>, lib: Id -> nat, s: set<Id>, n: Id,
                                              m: Member)
    requires Nested(g, rank) && Prepared(g, lib, s) && n in s && n in g && g[n].Class? && m in g[n].members
    ensures Divides(AlignOfInC(g, rank, lib, m.ty), g[n].align)
    ensures !g[n].packed ==> Divides(AlignOfInC(g, rank, lib, m.ty), m.bitOffset / 8)
    decreases rank[n] + 1, 0, 0
  {
    hide AlignOfInC, Prepared, IsPowerOfTwo, Divides;
    PreparedAt(g, lib, s, n);
    assert KnownMember(g, g[n], m);
    AlignDivides(g, rank, lib, s, m.ty);
    var a, b := AlignOfInC(g, rank, lib, m.ty), AlignOf(g, m.ty);
    AlignPositive(b);
    if b == 1 {
      OnlyOneDividesOne(a);
      OneDivides(g[n].align);
      OneDivides(m.bitOffset / 8);
    } else {
      AlignPositive(m.align);
      AlignPositive(g[n].align);
      PowersDivide(b, m.align);
      PowersDivide(m.align, g[n].align);
      DividesTrans(m.align, b, a);
      DividesTrans(g[n].align, m.align, a);
      if !g[n].packed {
        DividesTrans(m.bitOffset / 8, m.align, a);
      }
    }
  }

  // ----- alignments that are known

  /** No bit-field crosses a storage unit of its type. */
  ghost predicate NoStraddling(c: Node)
    requires c.Class?
  {
    forall m :: m in c.members && m.bitSize != 0 && m.ty.Leaf? && m.ty.align >= 1 ==>
      m.bitOffset % (8 * m.ty.align) + m.bitSize <= 8 * m.ty.size
  }

  /** Only padding is left of the class. */
  predicate OnlyPad(c: Node)
    requires c.Class?
  {
    |c.members| == 1 && IsPadding(c.members[0])
  }

  /** When the layout of one class is kept, given that those of its members are. */
  ghost predicate Keepable(c: Node)
    requires c.Class?
  {
    c.members != [] && (c.packed || NoStraddling(c)) && (OnlyPad(c) ==> Divides(c.align, c.size))
  }

  lemma OneFits(g: Graph, rank: map<Id, nat>, lib: Id -> nat, s: set<Id>, n: Id, m: Member)
    requires Nested(g, rank) && Prepared(g, lib, s) && n in s && n in g && g[n].Class? && m in g[n].members && !g[n].packed
    ensures Fits(Field(m, SizeOfInC(g, rank, lib, m.ty), AlignOfInC(g, rank, lib, m.ty))) <==>
            (m.bitSize != 0 && m.ty.Leaf? && m.ty.align >= 1 ==> m.bitOffset % (8 * m.ty.align) + m.bitSize <= 8 * m.ty.size)
  {
    hide AlignOfInC, SizeOfInC, Prepared, Tiles;
    PreparedAt(g, lib, s, n);
    MemberAlignDivides(g, rank, lib, s, n, m);
    assert KnownMember(g, g[n], m);
    AlignPositive(AlignOf(g, m.ty));
    if m.bitSize != 0 {
      LeafAlign(g, rank, lib, m.ty);
    }
  }

  lemma LeafAlign(g: Graph, rank: map<Id, nat>, lib: Id -> nat, ty: Ty)
    requires Nested(g, rank) && ty.Leaf? && ty.align >= 1
    ensures AlignOfInC(g, rank, lib, ty) == ty.align && SizeOfInC(g, rank, lib, ty) == ty.size
  {
  }

  /** Where the alignments are known, a class sits as it should exactly if it is keepable. */
  lemma SitsWhenKeepable(g: Graph, rank: map<Id, nat>, lib: Id -> nat, s: set<Id>, n: Id)
    requires Nested(g, rank) && Prepared(g, lib, s) && n in s && n in g && g[n].Class?
    ensures Sits(g, rank, lib, n) <==> Keepable(g[n])
  {
    hide AlignOfInC, SizeOfInC, Prepared, Fits, AlignInC, Known, FieldsOf;
    var c := g[n];
    var fs := FieldsOf(g, rank, lib, n, c.members);
    FieldsAre(g, rank, lib, n, c.members);
    if !c.packed {
      forall i | 0 <= i < |fs|
        ensures Fits(fs[i]) <==>
                (fs[i].m.bitSize != 0 && fs[i].m.ty.Leaf? && fs[i].m.ty.align >= 1 ==>
                   fs[i].m.bitOffset % (8 * fs[i].m.ty.align) + fs[i].m.bitSize <= 8 * fs[i].m.ty.size)
      {
        OneFits(g, rank, lib, s, n, c.members[i]);
      }
      AllFitMeans(c, fs);
    }
    SizeMultiple(g, rank, lib, s, n);
  }

  lemma AllFitMeans(c: Node, fs: seq<Field>)
    requires c.Class? && Typed(fs) && |fs| == |c.members| && forall i :: 0 <= i < |fs| ==> fs[i].m == c.members[i]
    requires forall i :: 0 <= i < |fs| ==>
      (Fits(fs[i]) <==>
        (fs[i].m.bitSize != 0 && fs[i].m.ty.Leaf? && fs[i].m.ty.align >= 1 ==>
          fs[i].m.bitOffset % (8 * fs[i].m.ty.align) + fs[i].m.bitSize <= 8 * fs[i].m.ty.size))
    ensures AllFit(fs) <==> NoStraddling(c)
  {
    hide Fits;
    if AllFit(fs) {
      forall m | m in c.members && m.bitSize != 0 && m.ty.Leaf? && m.ty.align >= 1
        ensures m.bitOffset % (8 * m.ty.align) + m.bitSize <= 8 * m.ty.size
      {
        var i :| 0 <= i < |fs| && c.members[i] == m;
        assert Fits(fs[i]);
      }
    }
  }

  /** The size is right exactly if it is a multiple of the alignment that a stub is given. */
  lemma SizeMultiple(g: Graph, rank: map<Id, nat>, lib: Id -> nat, s: set<Id>, n: Id)
    requires Nested(g, rank) && Prepared(g, lib, s) && n in s && n in g && g[n].Class?
    ensures var fs := FieldsOf(g, rank, lib, n, g[n].members);
            Divides(AlignInC(g[n], fs), g[n].size) <==> (OnlyPad(g[n]) ==> Divides(g[n].align, g[n].size))
  {
    hide AlignOfInC, SizeOfInC, Prepared;
    var c := g[n];
    var fs := FieldsOf(g, rank, lib, n, c.members);
    PreparedAt(g, lib, s, n);
    ClassAlignDivides(g, rank, lib, s, n);
    FieldsAre(g, rank, lib, n, c.members);
    AlignPositive(c.align);
    OneDivides(c.size);
    if !c.packed {
      DividesTrans(c.size, c.align, AlignInC(c, fs));
    }
  }

  /** All layouts are kept exactly if every class is tiled and keepable. */
  lemma LayoutPreservedExactly(g: Graph, rank: map<Id, nat>, lib: Id -> nat, s: set<Id>)
    requires Nested(g, rank) && Prepared(g, lib, s) && forall n :: n in s && g[n].Class? ==> TiledIfKept(g, rank, lib, n)
    ensures (forall n :: n in s && g[n].Class? ==> KeepsLayoutInC(g, rank, lib, n)) <==>
            (forall n :: n in s && g[n].Class? ==> Tiles(g, 0, g[n].members, g[n].size * 8) && Keepable(g[n]))
  {
    hide Keepable, KeepsLayoutInC, Sits, Known, Nested, SizesKept, Tiles, EnclosedMembers;
    forall n | n in s && g[n].Class?
      ensures Sits(g, rank, lib, n) <==> Keepable(g[n])
    {
      SitsWhenKeepable(g, rank, lib, s, n);
    }
    assert forall n :: n in s ==> n in g && PreparedNode(g, lib, s, n);
    LayoutKeptExactly(g, rank, lib, s);
  }

  lemma SmallRemainder(x: nat, a: nat)
    requires a >= 1
    ensures x < a ==> x % a == x
  {
  }

  lemma OnlyOneDividesOne(a: nat)
    requires Divides(a, 1)
    ensures a == 1
  {
    SmallRemainder(1, a);
  }
}
