/** The memory that generated code is loaded into, oi/OICompiler.cpp: slabs, sections and their relocation. */
module Slabs {
  import opened Machine

  datatype Section = Section(base: nat, size: nat)

  datatype RelocInfo = RelocInfo(baseAddr: nat, relocAddr: nat, size: nat)

  predicate Disjoint(a: Section, b: Section)
  {
    a.base + a.size <= b.base || b.base + b.size <= a.base
  }

  predicate Inside(s: Section, low: nat, high: nat)
  {
    low <= s.base && s.base + s.size <= high
  }

  /** Sections one after the other between two addresses. */
  ghost predicate Packed(ss: seq<Section>, low: nat, high: nat)
  {
    && (forall i :: 0 <= i < |ss| ==> Inside(ss[i], low, high))
    && (forall i, j :: 0 <= i < j < |ss| ==> ss[i].base + ss[i].size <= ss[j].base)
  }

  // ----- the size of a slab

  /** What is reserved for an object file with so much code and data. */
  function TotalSize(code: nat, roData: nat, rwData: nat): nat
  {
    AlignTo(code + roData + rwData, 1024)
  }

  function BlockSize(total: nat): nat
  {
    AlignTo(total + 256, 256)
  }

  function TextLimit(base: nat, code: nat): nat
  {
    AlignTo(base + code, 128)
  }

  function DataLimit(base: nat, code: nat, data: nat): nat
  {
    AlignTo(TextLimit(base, code) + data, 128)
  }

  /** Both segments fit into the block, however much the segments have to be aligned. */
  lemma LimitsFit(base: nat, code: nat, roData: nat, rwData: nat)
    requires base % 128 == 0
    ensures base + code <= TextLimit(base, code) <= DataLimit(base, code, roData + rwData + 128)
    ensures DataLimit(base, code, roData + rwData + 128) <= base + BlockSize(TotalSize(code, roData, rwData))
  {
    hide AlignTo;
    var n := code + roData + rwData;
    var total, text := TotalSize(code, roData, rwData), TextLimit(base, code);
    var data := DataLimit(base, code, roData + rwData + 128);
    assert n <= total && total % 1024 == 0;
    assert text < base + code + 128;
    assert data < text + roData + rwData + 128 + 128;
    MultiplesApart(data, base, total);
    assert BlockSize(total) >= total + 256;
  }

  lemma MultiplesApart(data: nat, base: nat, total: nat)
    requires data % 128 == 0 && base % 128 == 0 && total % 1024 == 0 && data < base + total + 384
    ensures data <= base + total + 256
  {
    var d, b, t := data / 128, base / 128, total / 1024;
    assert data == 128 * d && base == 128 * b && total == 1024 * t;
  }

  /** Not a byte less would do. */
  lemma LimitsFitTightly(base: nat)
    requires base % 128 == 0
    ensures DataLimit(base, 1, 1023 + 0 + 128) == base + BlockSize(TotalSize(1, 1023, 0))
  {
    hide AlignTo;
    assert TextLimit(base, 1) == base + 128;
    assert DataLimit(base, 1, 1151) == base + 1280;
    assert TotalSize(1, 1023, 0) == 1024;
  }

  // ----- one slab

  class Slab {
    const memBase: nat
    const memSize: nat
    var functionSections: seq<Section>
    var dataSections: seq<Section>
    var textSegBase: nat
    const textSegLimit: nat
    var dataSegBase: nat
    const dataSegLimit: nat

    /** `base` is where the operating system put the block, and `granted` how much it gave. */
    constructor (base: nat, granted: nat, total: nat, code: nat, data: nat)
      requires BlockSize(total) <= granted && DataLimit(base, code, data) <= base + BlockSize(total)
      ensures Valid() && functionSections == [] && dataSections == []
      ensures memBase == base && memSize == granted
      ensures textSegBase == base && textSegLimit == TextLimit(base, code)
      ensures dataSegBase == textSegLimit && dataSegLimit == DataLimit(base, code, data)
    {
      hide AlignTo;
      memBase, memSize := base, granted;
      textSegBase, textSegLimit := base, TextLimit(base, code);
      dataSegBase, dataSegLimit := TextLimit(base, code), DataLimit(base, code, data);
      functionSections, dataSections := [], [];
    }

    /** Code lies in the text segment and data in the data segment, each packed up to where the free space starts. */
    ghost predicate Valid()
      reads this
    {
      && memBase <= textSegBase <= textSegLimit <= dataSegBase <= dataSegLimit <= memBase + memSize
      && Packed(functionSections, memBase, textSegBase)
      && Packed(dataSections, textSegLimit, dataSegBase)
    }

    /** `allocate`; not ok if there is not enough memory. */
    method Allocate(size: nat, alignment: nat, isCode: bool) returns (addr: nat, ok: bool)
      requires Valid() && alignment > 0
      modifies this
      ensures Valid()
      ensures ok <==> AlignTo(old(if isCode then textSegBase else dataSegBase), alignment) + size <= if isCode then textSegLimit else dataSegLimit
      ensures !ok ==> unchanged(this)
      ensures ok ==> addr % alignment == 0 && addr >= old(if isCode then textSegBase else dataSegBase)
      ensures ok && isCode ==> functionSections == old(functionSections) + [Section(addr, size)] && unchanged(`dataSections) && unchanged(`dataSegBase)
      ensures ok && !isCode ==> dataSections == old(dataSections) + [Section(addr, size)] && unchanged(`functionSections) && unchanged(`textSegBase)
      ensures ok ==> (if isCode then textSegBase else dataSegBase) == addr + size
    {
      hide AlignTo;
      var allocOffset := if isCode then textSegBase else dataSegBase;
      var allocLimit := if isCode then textSegLimit else dataSegLimit;
      addr := AlignTo(allocOffset, alignment);
      var newAllocOffset := addr + size;
      if newAllocOffset > allocLimit {
        return addr, false;
      }
      if isCode {
        functionSections := functionSections + [Section(addr, size)];
        textSegBase := newAllocOffset;
      } else {
        dataSections := dataSections + [Section(addr, size)];
        dataSegBase := newAllocOffset;
      }
      ok := true;
    }

    function Sections(): seq<Section>
      reads this
    {
      functionSections + dataSections
    }

    /** No two sections of a slab overlap, and all lie in its block. */
    lemma SectionsDisjoint(i: nat, j: nat)
      requires Valid() && i < j < |Sections()|
      ensures Disjoint(Sections()[i], Sections()[j])
      ensures Inside(Sections()[i], memBase, memBase + memSize) && Inside(Sections()[j], memBase, memBase + memSize)
    {
    }

    /** The slab as it is now. */
    function AsBlock(): Block
      reads this
    {
      Block(memBase, memSize, Sections())
    }

    lemma IsSound()
      requires Valid()
      ensures Sound(AsBlock())
    {
      forall i, j | 0 <= i < j < |Sections()|
        ensures Disjoint(Sections()[i], Sections()[j])
      {
        SectionsDisjoint(i, j);
      }
    }
  }

  /** `reserveAllocationSpace`: whatever an object file asks for, its slab fits the block that it gets. */
  method ReserveAllocationSpace(base: nat, granted: nat, codeSize: nat, roDataSize: nat,
                                rwDataSize: nat) returns (slab: Slab)
    requires base % 128 == 0 && BlockSize(TotalSize(codeSize, roDataSize, rwDataSize)) <= granted
    ensures fresh(slab) && slab.Valid() && slab.Sections() == [] && slab.memBase == base && slab.memSize == granted
    ensures slab.textSegLimit - slab.textSegBase >= codeSize
    ensures slab.dataSegLimit - slab.dataSegBase >= roDataSize + rwDataSize + 128
    ensures slab.dataSegLimit <= base + BlockSize(TotalSize(codeSize, roDataSize, rwDataSize))
  {
    hide AlignTo;
    var totalSz := TotalSize(codeSize, roDataSize, rwDataSize);
    LimitsFit(base, codeSize, roDataSize, rwDataSize);
    slab := new Slab(base, granted, totalSz, codeSize, roDataSize + rwDataSize + 128);
  }

  // ----- relocation

  datatype Block = Block(base: nat, size: nat, sections: seq<Section>)

  /** A section, and where it will be in the target. */
  datatype Mapping = Mapping(section: Section, address: nat)

  ghost predicate Sound(b: Block)
  {
    && (forall i :: 0 <= i < |b.sections| ==> Inside(b.sections[i], b.base, b.base + b.size))
    && (forall i, j :: 0 <= i < j < |b.sections| ==> Disjoint(b.sections[i], b.sections[j]))
  }

  function Moved(m: Mapping): Section
  {
    Section(m.address, m.section.size)
  }

  /** The mappings of one block's sections, when the block goes to an address. */
  function MappingsOf(b: Block, address: nat): (ms: seq<Mapping>)
    requires Sound(b)
    ensures |ms| == |b.sections|
    ensures forall i :: 0 <= i < |ms| ==> ms[i] == Mapping(b.sections[i], address + (b.sections[i].base - b.base))
  {
    seq(|b.sections|, i requires 0 <= i < |b.sections| => Mapping(b.sections[i], address + (b.sections[i].base - b.base)))
  }

  function AddressAfter(b: Block, address: nat): nat
  {
    AlignTo(address + b.size, 128)
  }

  /** The addresses that the blocks go to, in turn, with the first free address at the end. */
  function Addresses(blocks: seq<Block>, address: nat): (r: seq<nat>)
    ensures |r| == |blocks| + 1 && r[0] == address
    decreases |blocks|
  {
    [address] + if blocks == [] then [] else Addresses(blocks[1..], AddressAfter(blocks[0], address))
  }

  function Mappings(blocks: seq<Block>, address: nat): seq<Mapping>
    requires forall i :: 0 <= i < |blocks| ==> Sound(blocks[i])
    decreases |blocks|
  {
    if blocks == [] then []
    else MappingsOf(blocks[0], address) + Mappings(blocks[1..], AddressAfter(blocks[0], address))
  }

  /** The blocks do not overlap where they are put, and keep the alignment of the first one. */
  lemma {:induction false} BlocksApart(blocks: seq<Block>, address: nat, i: nat, j: nat)
    requires i < j <= |blocks|
    ensures Addresses(blocks, address)[i] + blocks[i].size <= Addresses(blocks, address)[j]
    ensures Addresses(blocks, address)[j] % 128 == 0
    decreases |blocks|
  {
    hide AlignTo;
    var next := AddressAfter(blocks[0], address);
    if i > 0 {
      BlocksApart(blocks[1..], next, i - 1, j - 1);
    } else if j > 1 {
      BlocksApart(blocks[1..], next, 0, j - 1);
    }
  }

  lemma {:induction false} MappedFrom(blocks: seq<Block>, address: nat, i: nat)
    requires (forall k :: 0 <= k < |blocks| ==> Sound(blocks[k])) && i < |Mappings(blocks, address)|
    ensures Mappings(blocks, address)[i].address >= address
    decreases |blocks|
  {
    hide AlignTo;
    var first := MappingsOf(blocks[0], address);
    if i >= |first| {
      MappedFrom(blocks[1..], AddressAfter(blocks[0], address), i - |first|);
    } else {
      assert Inside(blocks[0].sections[i], blocks[0].base, blocks[0].base + blocks[0].size);
    }
  }

  /** No two sections overlap where they are put, be they of the same block or not. */
  lemma {:induction false} MappedApart(blocks: seq<Block>, address: nat, i: nat, j: nat)
    requires (forall k :: 0 <= k < |blocks| ==> Sound(blocks[k])) && i < j < |Mappings(blocks, address)|
    ensures Disjoint(Moved(Mappings(blocks, address)[i]), Moved(Mappings(blocks, address)[j]))
    decreases |blocks|
  {
    hide AlignTo;
    var b := blocks[0];
    var first, next := MappingsOf(b, address), AddressAfter(b, address);
    if i >= |first| {
      MappedApart(blocks[1..], next, i - |first|, j - |first|);
    } else {
      assert Inside(b.sections[i], b.base, b.base + b.size);
      if j < |first| {
        assert Disjoint(b.sections[i], b.sections[j]);
        assert Inside(b.sections[j], b.base, b.base + b.size);
      } else {
        MappedFrom(blocks[1..], next, j - |first|);
      }
    }
  }

  /** Two numbers that leave the same remainder. */
  lemma SameRemainder(x: nat, y: nat, base: nat, a: nat)
    requires a > 0 && x >= base && base % a == 0 && y % a == 0 && x % a == 0
    ensures (y + (x - base)) % a == 0
  {
    var p, q, r := x / a, base / a, y / a;
    assert x == p * a && base == q * a && y == r * a;
    Distribute(p, q, a);
    Distribute(r, p - q, a);
    assert y + (x - base) == (r + (p - q)) * a;
    MultipleOf(r + (p - q), a);
  }

  lemma MultipleOfDivisor(x: nat, a: nat)
    requires a > 0 && 128 % a == 0 && x % 128 == 0
    ensures x % a == 0
  {
    var k, m := x / 128, 128 / a;
    assert 128 == m * a;
    assert x == k * (m * a) == (k * m) * a;
    MultipleOf(k * m, a);
  }

  /** Alignments that divide 128 are kept. */
  lemma {:induction false} AlignmentKept(blocks: seq<Block>, address: nat, i: nat, a: nat)
    requires forall k :: 0 <= k < |blocks| ==> Sound(blocks[k]) && blocks[k].base % 128 == 0
    requires address % 128 == 0 && i < |Mappings(blocks, address)| && a > 0 && 128 % a == 0
    requires Mappings(blocks, address)[i].section.base % a == 0
    ensures Mappings(blocks, address)[i].address % a == 0
    decreases |blocks|
  {
    hide AlignTo;
    var b := blocks[0];
    var first, next := MappingsOf(b, address), AddressAfter(b, address);
    if i >= |first| {
      AlignmentKept(blocks[1..], next, i - |first|, a);
    } else {
      assert Inside(b.sections[i], b.base, b.base + b.size);
      MultipleOfDivisor(address, a);
      MultipleOfDivisor(b.base, a);
      SameRemainder(b.sections[i].base, address, b.base, a);
    }
  }

  /** Where the sections of a block begin in the list of all mappings. */
  function SectionsBefore(blocks: seq<Block>, k: nat): nat
    requires k <= |blocks|
  {
    if k == 0 then 0 else |blocks[0].sections| + SectionsBefore(blocks[1..], k - 1)
  }

  /** A section goes to the address of its block and keeps its offset there. */
  lemma {:induction false} MappingOfSection(blocks: seq<Block>, address: nat, k: nat, j: nat)
    requires forall i :: 0 <= i < |blocks| ==> Sound(blocks[i])
    requires k < |blocks| && j < |blocks[k].sections|
    ensures SectionsBefore(blocks, k) + j < |Mappings(blocks, address)|
    ensures var to := Addresses(blocks, address)[k];
            var section := blocks[k].sections[j];
            && section.base >= blocks[k].base
            && Mappings(blocks, address)[SectionsBefore(blocks, k) + j] == Mapping(section, to + (section.base - blocks[k].base))
    decreases |blocks|
  {
    hide AlignTo;
    var b := blocks[0];
    if k > 0 {
      MappingOfSection(blocks[1..], AddressAfter(b, address), k - 1, j);
    } else {
      assert Inside(b.sections[j], b.base, b.base + b.size);
    }
  }

  lemma SumOfMultiples(x: int, y: int, a: nat)
    requires a > 0 && x % a == 0
    ensures (x + y) % a == 0 <==> y % a == 0
  {
    var k := x / a;
    assert x == k * a;
    if y % a == 0 {
      var m := y / a;
      Distribute(k, -m, a);
      assert x + y == (k + m) * a;
      MultipleOf(k + m, a);
    }
    if (x + y) % a == 0 {
      var m := (x + y) / a;
      Distribute(m, k, a);
      assert y == (m - k) * a;
      MultipleOf(m - k, a);
    }
  }

  /** A section keeps an alignment exactly if its block is moved by a multiple of it. */
  lemma AlignmentKeptExactly(blocks: seq<Block>, address: nat, k: nat, j: nat, a: nat)
    requires forall i :: 0 <= i < |blocks| ==> Sound(blocks[i])
    requires k < |blocks| && j < |blocks[k].sections| && a > 0 && blocks[k].sections[j].base % a == 0
    ensures var i := SectionsBefore(blocks, k) + j;
            && i < |Mappings(blocks, address)| && Mappings(blocks, address)[i].section == blocks[k].sections[j]
            && (Mappings(blocks, address)[i].address % a == 0 <==> (Addresses(blocks, address)[k] - blocks[k].base) % a == 0)
  {
    hide Mappings, Addresses, SectionsBefore, Sound;
    MappingOfSection(blocks, address, k, j);
    SumOfMultiples(blocks[k].sections[j].base, Addresses(blocks, address)[k] - blocks[k].base, a);
  }

  const PAGE := 4096

  /** Where the generated code begins in the text segment, after the prologue and the constants. */
  const JIT_CODE_OFFSET := 64 + 64

  /** A block as the operating system hands it out. */
  predicate Paged(b: Block)
  {
    b.base % PAGE == 0 && b.size % PAGE == 0
  }

  /** The first slab is put 128 bytes into a page, and every later one as well, when blocks are whole pages. */
  lemma {:induction false} EverySlabShifted(blocks: seq<Block>, address: nat, k: nat)
    requires k < |blocks| && (forall i :: 0 <= i < k ==> Paged(blocks[i])) && address % PAGE == JIT_CODE_OFFSET
    ensures Addresses(blocks, address)[k] % PAGE == JIT_CODE_OFFSET
    decreases |blocks|
  {
    if k > 0 {
      var b := blocks[0];
      assert Paged(b);
      NextInPage(address, b.size);
      EverySlabShifted(blocks[1..], AddressAfter(b, address), k - 1);
    }
  }

  lemma NextInPage(address: nat, size: nat)
    requires address % PAGE == JIT_CODE_OFFSET && size % PAGE == 0
    ensures AlignTo(address + size, 128) == address + size && (address + size) % PAGE == JIT_CODE_OFFSET
  {
    var p, q := address / PAGE, size / PAGE;
    assert address + size == PAGE * (p + q) + JIT_CODE_OFFSET;
    assert address + size == 128 * (32 * (p + q) + 1);
  }

  /**
   * Placed from the start of the generated code, a section keeps an alignment of up to a page exactly if that
   * alignment divides 128: an alignment of 256 bytes is lost by every section that has it, in every slab.
   */
  lemma LargerAlignmentLost(blocks: seq<Block>, address: nat, k: nat, j: nat, a: nat)
    requires forall i :: 0 <= i < |blocks| ==> Sound(blocks[i]) && Paged(blocks[i])
    requires address % PAGE == JIT_CODE_OFFSET && a > 0 && PAGE % a == 0
    requires k < |blocks| && j < |blocks[k].sections| && blocks[k].sections[j].base % a == 0
    ensures var i := SectionsBefore(blocks, k) + j;
            && i < |Mappings(blocks, address)| && Mappings(blocks, address)[i].section == blocks[k].sections[j]
            && (Mappings(blocks, address)[i].address % a == 0 <==> 128 % a == 0)
  {
    hide Mappings, Addresses, SectionsBefore, Sound;
    EverySlabShifted(blocks, address, k);
    AlignmentKeptExactly(blocks, address, k, j, a);
    ShiftOfPages(Addresses(blocks, address)[k], blocks[k].base, a);
  }

  lemma ShiftOfPages(to: nat, base: nat, a: nat)
    requires to % PAGE == JIT_CODE_OFFSET && base % PAGE == 0 && a > 0 && PAGE % a == 0
    ensures (to - base) % a == 0 <==> 128 % a == 0
  {
    var p, m := to / PAGE - base / PAGE, PAGE / a;
    assert to - base == p * PAGE + 128;
    assert p * PAGE == p * (m * a) == (p * m) * a;
    MultipleOf(p * m, a);
    SumOfMultiples(p * PAGE, 128, a);
  }

  function BlocksOf(slabs: seq<Slab>): (bs: seq<Block>)
    reads slabs
    ensures |bs| == |slabs| && forall i :: 0 <= i < |slabs| ==> bs[i] == slabs[i].AsBlock()
    decreases |slabs|
  {
    if slabs == [] then [] else [slabs[0].AsBlock()] + BlocksOf(slabs[1..])
  }

  /** The loops of `applyRelocs` that place the slabs and their sections in the target. */
  method ApplyRelocs(slabs: seq<Slab>, baseRelocAddress: nat)
    returns (infos: seq<RelocInfo>, mappings: seq<Mapping>, newBaseRelocAddr: nat)
    requires forall i :: 0 <= i < |slabs| ==> slabs[i].Valid()
    ensures forall i :: 0 <= i < |slabs| ==> Sound(BlocksOf(slabs)[i])
    ensures mappings == Mappings(BlocksOf(slabs), baseRelocAddress)
    ensures |infos| == |slabs|
    ensures forall i :: 0 <= i < |slabs| ==>
      infos[i] == RelocInfo(slabs[i].memBase, Addresses(BlocksOf(slabs), baseRelocAddress)[i], slabs[i].memSize)
    ensures slabs != [] ==> newBaseRelocAddr == Addresses(BlocksOf(slabs), baseRelocAddress)[|slabs|]
  {
    hide AlignTo, Mappings, Addresses, Sound;
    ghost var blocks := BlocksOf(slabs);
    SlabsSound(slabs);
    infos, mappings, newBaseRelocAddr := [], [], 0;
    var current := baseRelocAddress;
    assert blocks[0..] == blocks;
    for i := 0 to |slabs|
      invariant current == Addresses(blocks, baseRelocAddress)[i]
      invariant mappings + Mappings(blocks[i..], current) == Mappings(blocks, baseRelocAddress)
      invariant |infos| == i
      invariant forall k :: 0 <= k < i ==> infos[k] == RelocInfo(slabs[k].memBase, Addresses(blocks, baseRelocAddress)[k], slabs[k].memSize)
      invariant i > 0 ==> newBaseRelocAddr == current
    {
      var slab := slabs[i];
      NextBlock(blocks, i, current, mappings);
      NextAddress(blocks, baseRelocAddress, i);
      var some := MapSections(slab, current);
      mappings := mappings + some;
      infos := infos + [RelocInfo(slab.memBase, current, slab.memSize)];
      current := AlignTo(current + slab.memSize, 128);
      newBaseRelocAddr := current;
    }
    NoBlocks(current);
    assert blocks[|slabs|..] == [];
  }

  lemma SlabsSound(slabs: seq<Slab>)
    requires forall i :: 0 <= i < |slabs| ==> slabs[i].Valid()
    ensures forall i :: 0 <= i < |slabs| ==> Sound(BlocksOf(slabs)[i])
  {
    forall i | 0 <= i < |slabs|
      ensures Sound(BlocksOf(slabs)[i])
    {
      slabs[i].IsSound();
    }
  }

  lemma NoBlocks(address: nat)
    ensures Mappings([], address) == []
  {
  }

  lemma NextBlock(blocks: seq<Block>, i: nat, address: nat, done: seq<Mapping>)
    requires i < |blocks| && forall k :: 0 <= k < |blocks| ==> Sound(blocks[k])
    ensures done + Mappings(blocks[i..], address) ==
            (done + MappingsOf(blocks[i], address)) + Mappings(blocks[i + 1..], AddressAfter(blocks[i], address))
  {
    hide AlignTo, Sound;
    assert blocks[i..][0] == blocks[i] && blocks[i..][1..] == blocks[i + 1..];
    var first, rest := MappingsOf(blocks[i], address), Mappings(blocks[i + 1..], AddressAfter(blocks[i], address));
    assert done + (first + rest) == (done + first) + rest;
  }

  lemma {:induction false} NextAddress(blocks: seq<Block>, address: nat, i: nat)
    requires i < |blocks|
    ensures Addresses(blocks, address)[i + 1] == AddressAfter(blocks[i], Addresses(blocks, address)[i])
    decreases |blocks|
  {
    hide AlignTo;
    if i > 0 {
      NextAddress(blocks[1..], AddressAfter(blocks[0], address), i - 1);
    }
  }

  /** The two loops over the sections of a slab. */
  method MapSections(slab: Slab, current: nat) returns (mappings: seq<Mapping>)
    requires slab.Valid() && Sound(slab.AsBlock())
    ensures mappings == MappingsOf(slab.AsBlock(), current)
  {
    ghost var all := MappingsOf(slab.AsBlock(), current);
    mappings := [];
    for i := 0 to |slab.functionSections|
      invariant mappings == all[..i]
    {
      var section := slab.functionSections[i];
      assert section == slab.Sections()[i];
      mappings := mappings + [Mapping(section, current + (section.base - slab.memBase))];
    }
    for i := 0 to |slab.dataSections|
      invariant mappings == all[..|slab.functionSections| + i]
    {
      var section := slab.dataSections[i];
      assert section == slab.Sections()[|slab.functionSections| + i];
      mappings := mappings + [Mapping(section, current + (section.base - slab.memBase))];
    }
  }
}
