/**
 The open-addressing pointer set of oi/OITraceCode.cpp. The hash is a parameter: nothing
 here depends on which function it is.
 */
module PointerSet {
  import opened Machine

  /** The slots passed when probing from `home` until slot `i`, going round at the end. */
  predicate Passed(home: nat, k: nat, i: nat)
  {
    if home <= i then home <= k < i else home <= k || k < i
  }

  /** How many steps lead from slot `i` to slot `j` in a table of n slots. */
  function Distance(i: nat, j: nat, n: nat): nat
    requires i < n && j < n
  {
    if i <= j then j - i else n - i + j
  }

  function NextSlot(i: nat, n: nat): (r: nat)
    requires i < n
    ensures r == if i + 1 == n then 0 else i + 1
  {
    DivModUnique(i + 1, n, if i + 1 == n then 1 else 0, if i + 1 == n then 0 else i + 1);
    (i + 1) % n
  }

  lemma NextIsCloser(i: nat, j: nat, n: nat)
    requires i < n && j < n && i != j
    ensures NextSlot(i, n) < n && Distance(NextSlot(i, n), j, n) < Distance(i, j, n)
  {
  }

  function Home(hash: U64 -> U64, p: U64, n: nat): (r: nat)
    requires n > 0
    ensures r < n
  {
    hash(p) % n
  }

  /** The number of entries that are not null. */
  function Occupied(s: seq<U64>): (c: nat)
    ensures c <= |s|
  {
    if s == [] then 0 else (if s[0] != 0 then 1 else 0) + Occupied(s[1..])
  }

  ghost function Members(s: seq<U64>): set<U64>
  {
    set p | p in s && p != 0
  }

  ghost predicate Distinct(s: seq<U64>)
  {
    forall i, j :: 0 <= i < j < |s| && s[i] != 0 ==> s[i] != s[j]
  }

  /** No entry lies behind an empty slot on its own probe sequence. */
  ghost predicate Reachable(s: seq<U64>, hash: U64 -> U64)
  {
    forall i, k :: 0 <= i < |s| && 0 <= k < |s| && s[i] != 0 && Passed(Home(hash, s[i], |s|), k, i) ==> s[k] != 0
  }

  lemma {:induction false} OccupiedHasRoom(s: seq<U64>)
    ensures Occupied(s) < |s| <==> exists e :: 0 <= e < |s| && s[e] == 0
  {
    if s != [] {
      OccupiedHasRoom(s[1..]);
      if e :| 0 <= e < |s[1..]| && s[1..][e] == 0 {
        assert s[e + 1] == 0;
      }
      if e :| 0 < e < |s| && s[e] == 0 {
        assert s[1..][e - 1] == 0;
      }
    }
  }

  lemma {:induction false} OccupiedUpdate(s: seq<U64>, i: nat, p: U64)
    requires i < |s| && s[i] == 0 && p != 0
    ensures Occupied(s[i := p]) == Occupied(s) + 1
  {
    if i > 0 {
      OccupiedUpdate(s[1..], i - 1, p);
      assert s[i := p][1..] == s[1..][i - 1 := p];
    } else {
      assert s[i := p][1..] == s[1..];
    }
  }

  /** Without repetitions, counting entries counts members. */
  lemma {:induction false} OccupiedIsCardinality(s: seq<U64>)
    requires Distinct(s)
    ensures Occupied(s) == |Members(s)|
  {
    if s != [] {
      OccupiedIsCardinality(s[1..]);
      if s[0] != 0 {
        assert Members(s) == {s[0]} + Members(s[1..]);
        assert s[0] !in s[1..];
      } else {
        assert Members(s) == Members(s[1..]);
      }
    }
  }

  /** Probing for `p` has passed only other pointers on its way to slot `i`. */
  ghost predicate Probed(s: seq<U64>, home: nat, i: nat, p: U64)
  {
    i < |s| && forall k :: 0 <= k < |s| && Passed(home, k, i) ==> s[k] != 0 && s[k] != p
  }

  lemma ProbedNext(s: seq<U64>, home: nat, i: nat, p: U64)
    requires Probed(s, home, i, p) && s[i] != 0 && s[i] != p
    requires home < |s| && NextSlot(i, |s|) != home
    ensures Probed(s, home, NextSlot(i, |s|), p)
  {
  }

  lemma OneBeforeTheOther(home: nat, i: nat, j: nat)
    requires i != j
    ensures Passed(home, i, j) || Passed(home, j, i)
  {
  }

  /** A pointer whose probe sequence meets an empty slot first is not in the table. */
  lemma NotBehindEmpty(s: seq<U64>, hash: U64 -> U64, p: U64, i: nat)
    requires p != 0 && i < |s| && s[i] == 0 && Reachable(s, hash)
    requires Probed(s, Home(hash, p, |s|), i, p)
    ensures p !in s
  {
    forall j | 0 <= j < |s|
      ensures s[j] != p
    {
      if i != j {
        OneBeforeTheOther(Home(hash, p, |s|), i, j);
      }
    }
  }

  /** Putting a new pointer into the slot where its probe sequence ends. */
  lemma Inserted(s: seq<U64>, hash: U64 -> U64, p: U64, i: nat)
    requires p != 0 && i < |s| && s[i] == 0 && Reachable(s, hash) && Distinct(s)
    requires Probed(s, Home(hash, p, |s|), i, p)
    ensures p !in Members(s) && Members(s[i := p]) == Members(s) + {p}
    ensures Distinct(s[i := p]) && Occupied(s[i := p]) == Occupied(s) + 1
    ensures Reachable(s[i := p], hash)
  {
    NotBehindEmpty(s, hash, p, i);
    OccupiedUpdate(s, i, p);
    var t := s[i := p];
    assert p in t by { assert t[i] == p; }
    forall q | q in Members(s)
      ensures q in Members(t)
    {
      var j :| 0 <= j < |s| && s[j] == q;
      assert t[j] == q;
    }
  }

  lemma InTable(s: seq<U64>, i: nat)
    requires i < |s| && s[i] != 0
    ensures s[i] in Members(s)
  {
  }

  class PointerHashSet {
    const data: array<U64>
    var numEntries: nat
    const hash: U64 -> U64

    ghost predicate Valid()
      reads this, data
    {
      && data.Length > 0
      && numEntries == Occupied(data[..])
      && Distinct(data[..])
      && Reachable(data[..], hash)
    }

    ghost function Contents(): set<U64>
      reads this, data
    {
      Members(data[..])
    }

    constructor (size: nat, hash: U64 -> U64)
      requires size > 0
      ensures Valid() && Contents() == {} && fresh(data)
      ensures data.Length == size && this.hash == hash
    {
      this.hash := hash;
      data := new U64[size](_ => 0);
      numEntries := 0;
      new;
      NothingOccupied(data[..]);
    }

    static lemma {:induction false} NothingOccupied(s: seq<U64>)
      requires forall i :: 0 <= i < |s| ==> s[i] == 0
      ensures Occupied(s) == 0
    {
      if s != [] {
        NothingOccupied(s[1..]);
      }
    }

    /** `initialize`: `data.fill(0)`. */
    method Initialize()
      requires data.Length > 0
      modifies this, data
      ensures Valid() && Contents() == {}
    {
      for i := 0 to data.Length
        invariant forall k :: 0 <= k < i ==> data[k] == 0
      {
        data[i] := 0;
      }
      numEntries := 0;
      NothingOccupied(data[..]);
    }

    /** Writes a new pointer into the empty slot where its probe sequence ends. */
    method Store(index: nat, pointer: U64)
      requires Valid() && pointer != 0
      requires index < data.Length && data[index] == 0
      requires Probed(data[..], Home(hash, pointer, data.Length), index, pointer)
      modifies this`numEntries, data
      ensures Valid() && pointer !in old(Contents()) && Contents() == old(Contents()) + {pointer}
      ensures numEntries == old(numEntries) + 1
    {
      Inserted(data[..], hash, pointer, index);
      data[index] := pointer;
      numEntries := numEntries + 1;
      assert data[..] == old(data[..])[index := pointer];
    }

    /** `add`, on 0, on a pointer that is present, on a full table, and on a new pointer. */
    method Add(pointer: U64) returns (added: bool)
      requires Valid()
      modifies this, data
      ensures Valid()
      ensures added <==> pointer != 0 && pointer !in old(Contents()) && |old(Contents())| < data.Length
      ensures Contents() == old(Contents()) + if added then {pointer} else {}
    {
      hide Distance, Distinct, Reachable, Occupied;
      if pointer == 0 {
        return false;
      }
      ghost var s := data[..];
      OccupiedIsCardinality(s);
      OccupiedHasRoom(s);
      var index := Home(hash, pointer, data.Length);
      ghost var home := index;
      ghost var empty: nat := index;
      if numEntries < data.Length {
        empty :| empty < |s| && s[empty] == 0;
      }
      while true
        invariant data[..] == s && numEntries == old(numEntries)
        invariant index == empty || Passed(home, index, empty)
        invariant Probed(s, home, index, pointer)
        decreases Distance(index, empty, |s|)
      {
        var entry := data[index];
        if entry == 0 {
          Store(index, pointer);
          return true;
        }
        if entry == pointer || numEntries >= data.Length {
          InTable(s, index);
          return false;
        }
        ProbedNext(s, home, index, pointer);
        NextIsCloser(index, empty, |s|);
        index := NextSlot(index, data.Length);
      }
    }

    method Size() returns (n: nat)
      requires Valid()
      ensures n == |Contents()|
    {
      OccupiedIsCardinality(data[..]);
      n := numEntries;
    }

    method Capacity() returns (n: nat)
      requires Valid()
      ensures n == data.Length && |Contents()| <= n
    {
      OccupiedIsCardinality(data[..]);
      n := data.Length;
    }
  }
}
