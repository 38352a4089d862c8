/**
 The untyped data segment: `StoreData` and the header of oi/FuncGen.cpp, and `decodeTargetData` of
 oi/OIDebugger.cpp. A segment that is too small is not written past its end, but the size that
 would have been needed is still reported.
 */
module DataSegment {
  import opened Machine
  import opened Leb128

  /** The six words of the header (oi/OIDebugger.h:278-284). */
  const HEADER_SIZE: nat := 48
  const OID_MAGIC_ID: U64 := 0x01DE8
  const SENTINEL: U64 := 123456789

  datatype DataHeader = DataHeader(magicId: U64, cookie: U64, size: nat)

  /** How many of the values fit strictly below `dataSize` when stored from `offset`. */
  function Fitting(values: seq<U64>, offset: nat, dataSize: nat): (k: nat)
    ensures k <= |values|
  {
    if values == [] || offset + |Encode(values[0])| >= dataSize then 0
    else 1 + Fitting(values[1..], offset + |Encode(values[0])|, dataSize)
  }

  lemma {:induction false} FittingBound(values: seq<U64>, offset: nat, dataSize: nat)
    requires offset < dataSize
    ensures offset + |EncodeAll(values[..Fitting(values, offset, dataSize)])| < dataSize
    ensures Fitting(values, offset, dataSize) == |values| <==> offset + |EncodeAll(values)| < dataSize
  {
    if values != [] {
      var next := offset + |Encode(values[0])|;
      if next < dataSize {
        FittingBound(values[1..], next, dataSize);
        var k := Fitting(values, offset, dataSize);
        assert values[..k][1..] == values[1..][..k - 1];
        assert values[..|values|] == values;
      } else {
        assert values[..0] == [];
      }
    } else {
      assert values[..0] == [];
    }
  }

  datatype State = State(mem: seq<Byte>, offset: nat)

  /** Stores one value: the offset always advances, the bytes are written only below `dataSize`. */
  function Store(s: State, v: U64, dataSize: nat): (t: State)
    requires dataSize <= |s.mem|
    ensures |t.mem| == |s.mem|
  {
    var after := s.offset + |Encode(v)|;
    State(if after < dataSize then Overwrite(s.mem, s.offset, Encode(v)) else s.mem, after)
  }

  function StoreMany(s: State, values: seq<U64>, dataSize: nat): (t: State)
    requires dataSize <= |s.mem|
    ensures |t.mem| == |s.mem|
    decreases |values|
  {
    if values == [] then s else StoreMany(Store(s, values[0], dataSize), values[1..], dataSize)
  }

  lemma OverwriteTwice<T>(mem: seq<T>, start: nat, a: seq<T>, b: seq<T>)
    requires start + |a| + |b| <= |mem|
    ensures Overwrite(Overwrite(mem, start, a), start + |a|, b) == Overwrite(mem, start, a + b)
  {
  }

  lemma OverwriteNothing<T>(mem: seq<T>, start: nat)
    requires start <= |mem|
    ensures Overwrite(mem, start, []) == mem
  {
  }

  lemma {:induction false} NothingFits(s: State, values: seq<U64>, dataSize: nat)
    requires dataSize <= |s.mem| && s.offset >= dataSize
    ensures StoreMany(s, values, dataSize) == State(s.mem, s.offset + |EncodeAll(values)|)
    decreases |values|
  {
    if values != [] {
      NothingFits(Store(s, values[0], dataSize), values[1..], dataSize);
    }
  }

  /** The final offset is the exact total; the bytes of the values that fit are in place, and no others change. */
  lemma {:induction false} StoreManyIs(s: State, values: seq<U64>, dataSize: nat)
    requires s.offset < dataSize <= |s.mem|
    ensures var fit := EncodeAll(values[..Fitting(values, s.offset, dataSize)]);
            && s.offset + |fit| < dataSize
            && StoreMany(s, values, dataSize) == State(Overwrite(s.mem, s.offset, fit), s.offset + |EncodeAll(values)|)
    decreases |values|
  {
    hide Encode, Overwrite;
    FittingBound(values, s.offset, dataSize);
    var k := Fitting(values, s.offset, dataSize);
    if k == 0 {
      assert values[..0] == [];
      OverwriteNothing(s.mem, s.offset);
      if values != [] {
        NothingFits(Store(s, values[0], dataSize), values[1..], dataSize);
      }
    } else {
      StoreManyIs(Store(s, values[0], dataSize), values[1..], dataSize);
      assert values[..k][1..] == values[1..][..k - 1];
      OverwriteTwice(s.mem, s.offset, Encode(values[0]), EncodeAll(values[1..][..k - 1]));
    }
  }

  class Segment {
    const mem: array<Byte>
    const dataSize: nat

    ghost predicate Valid()
    {
      HEADER_SIZE < dataSize <= mem.Length
    }

    constructor (mem: array<Byte>, dataSize: nat)
      requires HEADER_SIZE < dataSize <= mem.Length
      ensures this.mem == mem && this.dataSize == dataSize && Valid()
    {
      this.mem := mem;
      this.dataSize := dataSize;
    }

    /** `StoreData`. */
    method StoreData(data: U64, offset: nat) returns (after: nat)
      requires Valid()
      modifies mem
      ensures State(mem[..], after) == Store(State(old(mem[..]), offset), data, dataSize)
    {
      var sz := EncodeVarintSize(data);
      if sz + offset < dataSize {
        var n := EncodeVarint(data, mem, offset);
        after := offset + n;
      } else {
        after := offset + sz;
      }
    }

    /** A traversal that stores the given values one after the other. */
    method StoreAll(values: seq<U64>, start: nat) returns (after: nat)
      requires Valid() && start < dataSize
      modifies mem
      ensures State(mem[..], after) == StoreMany(State(old(mem[..]), start), values, dataSize)
    {
      after := start;
      assert values[0..] == values;
      for i := 0 to |values|
        invariant StoreMany(State(mem[..], after), values[i..], dataSize) == StoreMany(State(old(mem[..]), start), values, dataSize)
      {
        assert values[i..][0] == values[i] && values[i..][1..] == values[i + 1..];
        after := StoreData(values[i], after);
      }
    }

    /**
     `getSize_`: the header, the values of the object and two sentinels. The size in the header is exact
     whether or not the data fits; bytes of the header's own words, and bytes past the end, are kept.
     */
    method GetSize(values: seq<U64>, cookie: U64) returns (header: DataHeader)
      requires Valid()
      modifies mem
      ensures header == DataHeader(OID_MAGIC_ID, cookie, HEADER_SIZE + |EncodeAll(Terminated(values))|)
      ensures header.size < dataSize ==> mem[..] == Overwrite(old(mem[..]), HEADER_SIZE, EncodeAll(Terminated(values)))
      ensures header.size >= dataSize ==>
                var fit := EncodeAll(Terminated(values)[..Fitting(Terminated(values), HEADER_SIZE, dataSize)]);
                HEADER_SIZE + |fit| < dataSize && mem[..] == Overwrite(old(mem[..]), HEADER_SIZE, fit)
      ensures mem[..HEADER_SIZE] == old(mem[..HEADER_SIZE]) && mem[dataSize - 1..] == old(mem[dataSize - 1..])
    {
      var all := Terminated(values);
      FittingBound(all, HEADER_SIZE, dataSize);
      StoreManyIs(State(mem[..], HEADER_SIZE), all, dataSize);
      assert all[..|all|] == all;
      var size := StoreAll(all, HEADER_SIZE);
      header := DataHeader(OID_MAGIC_ID, cookie, size);
    }
  }

  /** The values of an object, followed by two sentinels. */
  function Terminated(values: seq<U64>): (r: seq<U64>)
    ensures |r| == |values| + 2
  {
    values + [SENTINEL, SENTINEL]
  }

  // ----- decoding

  /** The values that the decoder takes from a list: it skips a sentinel and stops at the second of two. */
  function Collected(values: seq<U64>, prev: U64): seq<U64>
  {
    if values == [] then []
    else if values[0] != SENTINEL then [values[0]] + Collected(values[1..], values[0])
    else if prev == SENTINEL then []
    else Collected(values[1..], SENTINEL)
  }

  /** The decoder's loop on bytes: None when it meets a broken number before two sentinels. */
  function DecodeLoop(range: seq<Byte>, prev: U64): Option<seq<U64>>
    decreases |range|
  {
    match Read(range)
    case Value(v, rest) =>
      if v == SENTINEL && prev == SENTINEL then Some([])
      else
        (match DecodeLoop(rest, v)
         case None => None
         case Some(out) => Some(if v == SENTINEL then out else [v] + out))
    case _ => None
  }

  /** From the encoding of a list that ends in two sentinels the decoder gets what it collects from the list. */
  lemma {:induction false} DecodeEncoded(values: seq<U64>, prev: U64, rest: seq<Byte>)
    ensures DecodeLoop(EncodeAll(Terminated(values)) + rest, prev) == Some(Collected(Terminated(values), prev))
  {
    var all := Terminated(values);
    var tail := EncodeAll(all[1..]) + rest;
    assert EncodeAll(all) + rest == Encode(all[0]) + tail;
    ReadEncode(all[0], tail);
    if values != [] {
      assert all[1..] == Terminated(values[1..]);
      DecodeEncoded(values[1..], values[0], rest);
    } else if prev != SENTINEL {
      assert all[1..] == [SENTINEL] && [SENTINEL][1..] == [];
      assert EncodeAll([SENTINEL]) == Encode(SENTINEL) + [] == Encode(SENTINEL);
      ReadEncode(SENTINEL, rest);
    }
  }

  lemma {:induction false} CollectedHasNoSentinel(values: seq<U64>, prev: U64)
    ensures SENTINEL !in Collected(values, prev)
  {
    if values != [] {
      CollectedHasNoSentinel(values[1..], values[0]);
    }
  }

  /** The decoder returns a list unchanged exactly when the sentinel is not one of its values. */
  lemma {:induction false} CollectedIsList(values: seq<U64>, prev: U64)
    ensures (Collected(Terminated(values), prev) == values) <==> (SENTINEL !in values)
  {
    CollectedHasNoSentinel(Terminated(values), prev);
    if SENTINEL !in values {
      if values == [] {
        assert Terminated(values)[1..] == [SENTINEL] && [SENTINEL][1..] == [];
      } else {
        assert Terminated(values)[1..] == Terminated(values[1..]);
        assert forall x :: x in values[1..] ==> x in values;
        CollectedIsList(values[1..], values[0]);
      }
    }
  }

  /** The length of what is decoded: 64-bit subtraction, so that it is huge for a size below that of the header. */
  function RangeLength(size: nat): (r: nat)
    ensures HEADER_SIZE <= size < HEADER_SIZE + U64_LIMIT ==> r == size - HEADER_SIZE
    ensures 0 < size < HEADER_SIZE ==> r == U64_LIMIT - (HEADER_SIZE - size)
  {
    (size - HEADER_SIZE) % U64_LIMIT
  }

  /** `decodeTargetData`, given the memory from the start of the segment on and the segment's size. */
  method DecodeTargetData(header: DataHeader, cookie: U64, dataSegSize: nat, mem: seq<Byte>)
    returns (ok: bool, outVec: seq<U64>)
    requires 0 < header.size <= dataSegSize ==> HEADER_SIZE + RangeLength(header.size) <= |mem|
    ensures ok <==> header.magicId == OID_MAGIC_ID && header.cookie == cookie && 0 < header.size <= dataSegSize &&
                    DecodeLoop(mem[HEADER_SIZE..HEADER_SIZE + RangeLength(header.size)], 0).Some?
    ensures ok ==> outVec == [0, 0, 0, 0] + DecodeLoop(mem[HEADER_SIZE..HEADER_SIZE + RangeLength(header.size)], 0).value
  {
    ok, outVec := false, [];
    if header.magicId != OID_MAGIC_ID {
      return;
    }
    if header.cookie != cookie {
      return;
    }
    if header.size == 0 {
      return;
    }
    if dataSegSize < header.size {
      return;
    }
    var range := mem[HEADER_SIZE..HEADER_SIZE + RangeLength(header.size)];
    outVec := [0, 0, 0, 0];
    var prevVal: U64 := 0;
    ghost var whole := DecodeLoop(range, 0);
    while true
      invariant match DecodeLoop(range, prevVal)
                case None => whole == None
                case Some(out) => whole.Some? && outVec + out == [0, 0, 0, 0] + whole.value
      decreases |range|
    {
      var expected := Read(range);
      if !expected.Value? {
        return;
      }
      var currVal := expected.value;
      if currVal == SENTINEL {
        if prevVal == SENTINEL {
          break;
        }
      } else {
        outVec := outVec + [currVal];
      }
      prevVal := currVal;
      range := expected.rest;
    }
    assert outVec + [] == outVec;
    ok := true;
  }

  // ----- from the probe to the decoder

  /** What `GetSize` leaves in a segment that it found holding `mem`. */
  function Probed(mem: seq<Byte>, values: seq<U64>, dataSize: nat): seq<Byte>
    requires HEADER_SIZE < dataSize <= |mem|
  {
    StoreMany(State(mem, HEADER_SIZE), Terminated(values), dataSize).mem
  }

  function NeededSize(values: seq<U64>): nat
  {
    HEADER_SIZE + |EncodeAll(Terminated(values))|
  }

  /** If the data fits strictly, what the decoder gets depends only on the values. */
  lemma DecodeWhenFits(mem: seq<Byte>, values: seq<U64>, dataSize: nat)
    requires HEADER_SIZE < dataSize <= |mem| && NeededSize(values) < dataSize
    ensures |Probed(mem, values, dataSize)| == |mem|
    ensures DecodeLoop(Probed(mem, values, dataSize)[HEADER_SIZE..NeededSize(values)], 0) == Some(Collected(Terminated(values), 0))
  {
    var all := Terminated(values);
    FittingBound(all, HEADER_SIZE, dataSize);
    StoreManyIs(State(mem, HEADER_SIZE), all, dataSize);
    assert all[..|all|] == all;
    DecodeEncoded(values, 0, []);
    assert EncodeAll(all) + [] == EncodeAll(all);
  }

  ghost predicate AllZero(s: seq<Byte>)
  {
    forall i :: 0 <= i < |s| ==> s[i] == 0
  }

  lemma {:induction false} ZerosDoNotEnd(range: seq<Byte>, prev: U64)
    requires AllZero(range)
    ensures DecodeLoop(range, prev) == None
    decreases |range|
  {
    if range != [] {
      assert range == Encode(0) + range[1..];
      ReadEncode(0, range[1..]);
      ZerosDoNotEnd(range[1..], 0);
    }
  }

  /** After values and one sentinel, what follows decides whether there is a second one and what comes before it. */
  lemma {:induction false} DecodeOneSentinel(values: seq<U64>, prev: U64, tail: seq<Byte>)
    requires SENTINEL !in values && prev != SENTINEL
    ensures DecodeLoop(EncodeAll(values + [SENTINEL]) + tail, prev) ==
            match DecodeLoop(tail, SENTINEL)
            case None => None
            case Some(out) => Some(values + out)
    decreases |values|
  {
    hide Read, Encode;
    var all := values + [SENTINEL];
    var next := EncodeAll(all[1..]) + tail;
    assert EncodeAll(all) + tail == Encode(all[0]) + next;
    ReadEncode(all[0], next);
    if values == [] {
      assert all[1..] == [] && next == [] + tail == tail;
      NothingBefore(DecodeLoop(tail, SENTINEL));
    } else {
      assert all[1..] == values[1..] + [SENTINEL];
      DecodeOneSentinel(values[1..], values[0], tail);
      Regrouped(values, DecodeLoop(tail, SENTINEL));
    }
  }

  lemma NothingBefore(out: Option<seq<U64>>)
    ensures out.Some? ==> [] + out.value == out.value
  {
  }

  lemma Regrouped(values: seq<U64>, out: Option<seq<U64>>)
    requires values != []
    ensures out.Some? ==> [values[0]] + (values[1..] + out.value) == values + out.value
  {
  }

  lemma {:induction false} DecodedHasNoSentinel(range: seq<Byte>, prev: U64)
    ensures DecodeLoop(range, prev).Some? ==> SENTINEL !in DecodeLoop(range, prev).value
    decreases |range|
  {
    if Read(range).Value? {
      DecodedHasNoSentinel(Read(range).rest, Read(range).value);
    }
  }

  /** If the data ends exactly at `dataSize`, its last sentinel is the one value that is not stored. */
  lemma LastSentinelIsLost(mem: seq<Byte>, values: seq<U64>, dataSize: nat)
    requires HEADER_SIZE < dataSize <= |mem| && NeededSize(values) == dataSize
    ensures |Probed(mem, values, dataSize)| == |mem|
    ensures Probed(mem, values, dataSize)[HEADER_SIZE..dataSize] ==
            EncodeAll(values + [SENTINEL]) + mem[dataSize - |Encode(SENTINEL)|..dataSize]
  {
    hide Overwrite, Encode;
    var all, most := Terminated(values), values + [SENTINEL];
    assert all == most + [SENTINEL];
    EncodeAllConcat(most, [SENTINEL]);
    assert EncodeAll([SENTINEL]) == Encode(SENTINEL) + [] == Encode(SENTINEL);
    FittingBound(all, HEADER_SIZE, dataSize);
    FittingPrefix(most, SENTINEL, HEADER_SIZE, dataSize);
    assert all[..|most|] == most;
    StoreManyIs(State(mem, HEADER_SIZE), all, dataSize);
    OverwriteShows(mem, HEADER_SIZE, EncodeAll(most), dataSize);
  }

  lemma OverwriteShows<T>(mem: seq<T>, start: nat, bytes: seq<T>, end: nat)
    requires start + |bytes| <= end <= |mem|
    ensures Overwrite(mem, start, bytes)[start..end] == bytes + mem[start + |bytes|..end]
  {
  }

  lemma {:induction false} FittingPrefix(values: seq<U64>, last: U64, offset: nat, dataSize: nat)
    requires offset + |EncodeAll(values)| < dataSize
    ensures Fitting(values + [last], offset, dataSize) >= |values|
    decreases |values|
  {
    if values != [] {
      assert (values + [last])[1..] == values[1..] + [last];
      FittingPrefix(values[1..], last, offset + |Encode(values[0])|, dataSize);
    }
  }

  /**
   The decoder gets back the values of the object exactly if the sentinel is not one of them and they fit strictly, or
   fit exactly and the last bytes of the segment happen to be read as a second sentinel from an earlier run. A fresh
   segment of exactly the needed size passes the decoder's size check and cannot be decoded.
   */
  lemma DecodesIffFits(mem: seq<Byte>, values: seq<U64>, dataSize: nat)
    requires HEADER_SIZE < dataSize <= |mem|
    ensures |Probed(mem, values, dataSize)| == |mem| && (NeededSize(values) == dataSize ==> |Encode(SENTINEL)| <= dataSize)
    ensures (NeededSize(values) <= dataSize &&
             DecodeLoop(Probed(mem, values, dataSize)[HEADER_SIZE..NeededSize(values)], 0) == Some(values))
       <==> SENTINEL !in values &&
            (NeededSize(values) < dataSize ||
             (NeededSize(values) == dataSize && DecodeLoop(mem[dataSize - |Encode(SENTINEL)|..dataSize], SENTINEL) == Some([])))
    ensures NeededSize(values) == dataSize && AllZero(mem) && SENTINEL !in values ==>
            DecodeLoop(Probed(mem, values, dataSize)[HEADER_SIZE..NeededSize(values)], 0) == None
  {
    hide Read, Encode, Overwrite, EncodeAll;
    EncodeFitsTenBytes(SENTINEL);
    if NeededSize(values) < dataSize {
      DecodeWhenFits(mem, values, dataSize);
      CollectedIsList(values, 0);
    } else if NeededSize(values) == dataSize {
      LastSentinelIsLost(mem, values, dataSize);
      var tail := mem[dataSize - |Encode(SENTINEL)|..dataSize];
      if SENTINEL in values {
        DecodedHasNoSentinel(Probed(mem, values, dataSize)[HEADER_SIZE..NeededSize(values)], 0);
      } else {
        DecodeOneSentinel(values, 0, tail);
        NothingAfter(values, DecodeLoop(tail, SENTINEL));
        if AllZero(mem) {
          ZerosDoNotEnd(tail, SENTINEL);
        }
      }
    } else {
      ProbedLength(mem, values, dataSize);
    }
  }

  lemma ProbedLength(mem: seq<Byte>, values: seq<U64>, dataSize: nat)
    requires HEADER_SIZE < dataSize <= |mem|
    ensures |Probed(mem, values, dataSize)| == |mem|
  {
    var all := Terminated(values);
    FittingBound(all, HEADER_SIZE, dataSize);
    StoreManyIs(State(mem, HEADER_SIZE), all, dataSize);
  }

  lemma NothingAfter(values: seq<U64>, out: Option<seq<U64>>)
    ensures out.Some? ==> (values + out.value == values <==> out.value == [])
  {
    if out.Some? && values + out.value == values {
      assert |values + out.value| == |values| + |out.value|;
    }
  }
}
