/**
 The breakpoints that the debugger keeps in the target's text: `functionPatch`, `removeTrap` and
 `removeTraps` of oi/OIDebugger.cpp. Memory is written eight bytes at a time, so writing one trap can
 touch others.
 */
module TrapOverlay {
  import opened Machine

  type Addr = nat

  const INT3: Byte := 0xCC
  const WINDOW: nat := 8

  /** The target's text, as far as it is of interest. */
  type Text = map<Addr, Byte>

  type Word = w: seq<Byte> | |w| == WINDOW witness [0, 0, 0, 0, 0, 0, 0, 0]

  datatype TrapKind = JitCodeRet | VectEntry | VectEntryRet | VectRet

  datatype Trap = Trap(kind: TrapKind, addr: Addr, origText: Word, patchedText: Word)

  type Traps = map<Addr, Trap>

  /** What is outside the text is not recorded. */
  function Poke(text: Text, addr: Addr, word: Word): Text
  {
    map k | k in text :: if addr <= k < addr + WINDOW then word[k - addr] else text[k]
  }

  /** The text with a breakpoint at each of the addresses. */
  function Overlaid(original: Text, traps: set<Addr>): Text
  {
    map k | k in original :: if k in traps then INT3 else original[k]
  }

  ghost predicate Covers(original: Text, addr: Addr)
  {
    forall k :: addr <= k < addr + WINDOW ==> k in original
  }

  ghost predicate Outside(original: Text, addr: Addr)
  {
    forall k :: addr <= k < addr + WINDOW ==> k !in original
  }

  /** A trap remembers the original text around it; one in the generated code is nowhere near it. */
  ghost predicate Remembers(original: Text, t: Trap)
  {
    if t.kind == JitCodeRet then Outside(original, t.addr)
    else
      && Covers(original, t.addr)
      && (forall i :: 0 <= i < WINDOW ==> t.origText[i] == original[t.addr + i])
      && t.patchedText == t.origText[0 := INT3]
  }

  ghost predicate AllRemember(original: Text, traps: Traps)
  {
    forall a :: a in traps ==> traps[a].addr == a && Remembers(original, traps[a])
  }

  /** A trap remembers the original text around it, or breakpoints that were there when it was made. */
  ghost predicate Recalls(original: Text, t: Trap)
  {
    if t.kind == JitCodeRet then Outside(original, t.addr)
    else
      && Covers(original, t.addr) && t.origText[0] == original[t.addr]
      && (forall i :: 0 <= i < WINDOW ==> t.origText[i] == original[t.addr + i] || t.origText[i] == INT3)
      && t.patchedText == t.origText[0 := INT3]
  }

  ghost predicate AllRecall(original: Text, traps: Traps)
  {
    forall a :: a in traps ==> traps[a].addr == a && Recalls(original, traps[a])
  }

  /** Remembering all of the original is more than what is asked of a state in general. */
  lemma RememberedIsRecalled(original: Text, traps: Traps)
    requires AllRemember(original, traps)
    ensures AllRecall(original, traps)
  {
    forall a | a in traps
      ensures Recalls(original, traps[a])
    {
      assert Remembers(original, traps[a]);
      assert traps[a].kind != JitCodeRet ==> traps[a].origText[0] == original[a + 0];
    }
  }

  // ----- the writes of step 5, in any order

  function PatchedWord(original: Text, addr: Addr): Word
    requires Covers(original, addr)
  {
    [INT3] + seq(WINDOW - 1, i requires 0 <= i < WINDOW - 1 => original[addr + 1 + i])
  }

  /** The text after a patched word has been written at each of the addresses, in turn. */
  ghost function Written(original: Text, text: Text, addrs: seq<Addr>): Text
    requires forall a :: a in addrs ==> Covers(original, a)
    decreases |addrs|
  {
    if addrs == [] then text
    else assert addrs[0] in addrs; Written(original, Poke(text, addrs[0], PatchedWord(original, addrs[0])), addrs[1..])
  }

  /** One trap comes after another although it lies in the eight bytes before it. */
  predicate Clobbered(addrs: seq<Addr>, i: nat, j: nat)
    requires i < j < |addrs|
  {
    addrs[j] < addrs[i] < addrs[j] + WINDOW
  }

  /** Where there was no breakpoint yet, none is clobbered, unless it is put in again later. */
  ghost predicate NothingClobbered(original: Text, addrs: seq<Addr>)
  {
    forall i: nat, j: nat :: i < j < |addrs| && addrs[i] !in addrs[j..] && addrs[i] in original && original[addrs[i]] != INT3 ==>
      !Clobbered(addrs, i, j)
  }

  lemma {:induction false} WrittenKeys(original: Text, text: Text, addrs: seq<Addr>)
    requires forall a :: a in addrs ==> Covers(original, a)
    ensures Written(original, text, addrs).Keys == text.Keys
    decreases |addrs|
  {
    if addrs != [] {
      assert addrs[0] in addrs;
      WrittenKeys(original, Poke(text, addrs[0], PatchedWord(original, addrs[0])), addrs[1..]);
    }
  }

  /** A byte at which no trap is written in the end shows the original. */
  lemma {:induction false} WrittenElsewhere(original: Text, text: Text, addrs: seq<Addr>, k: Addr)
    requires forall a :: a in addrs ==> Covers(original, a)
    requires k in text && k in original && text[k] == original[k] && k !in addrs
    ensures k in Written(original, text, addrs) && Written(original, text, addrs)[k] == original[k]
    decreases |addrs|
  {
    if addrs != [] {
      assert addrs[0] in addrs;
      WrittenElsewhere(original, Poke(text, addrs[0], PatchedWord(original, addrs[0])), addrs[1..], k);
    }
  }

  /** A breakpoint stays if no later write touches it. */
  lemma {:induction false} WrittenStays(original: Text, text: Text, addrs: seq<Addr>, k: Addr)
    requires forall a :: a in addrs ==> Covers(original, a)
    requires k in text && text[k] == INT3 && k in original
    requires forall i :: 0 <= i < |addrs| ==> !(addrs[i] < k < addrs[i] + WINDOW) || original[k] == INT3
    ensures k in Written(original, text, addrs) && Written(original, text, addrs)[k] == INT3
    decreases |addrs|
  {
    if addrs != [] {
      assert addrs[0] in addrs;
      WrittenStays(original, Poke(text, addrs[0], PatchedWord(original, addrs[0])), addrs[1..], k);
    }
  }

  lemma {:induction false} WrittenConcat(original: Text, text: Text, a: seq<Addr>, b: seq<Addr>)
    requires forall x :: x in a ==> Covers(original, x)
    requires forall x :: x in b ==> Covers(original, x)
    ensures Written(original, text, a + b) == Written(original, Written(original, text, a), b)
    decreases |a|
  {
    if a == [] {
      assert a + b == b;
    } else {
      assert a[0] in a && (a + b)[1..] == a[1..] + b && (a + b)[0] == a[0];
      WrittenConcat(original, Poke(text, a[0], PatchedWord(original, a[0])), a[1..], b);
    }
  }

  function SetOf(addrs: seq<Addr>): set<Addr>
  {
    set a | a in addrs
  }

  /** If no trap is clobbered by a later one, the writes leave a breakpoint at each, and nothing else. */
  lemma WrittenIsOverlaid(original: Text, addrs: seq<Addr>)
    requires (forall a :: a in addrs ==> Covers(original, a)) && NothingClobbered(original, addrs)
    ensures Written(original, original, addrs) == Overlaid(original, SetOf(addrs))
  {
    hide Written, NothingClobbered;
    WrittenKeys(original, original, addrs);
    var result, after := Written(original, original, addrs), Overlaid(original, SetOf(addrs));
    forall k | k in original
      ensures k in result && result[k] == after[k]
    {
      if k in addrs {
        TrapWritten(original, addrs, k);
      } else {
        WrittenElsewhere(original, original, addrs, k);
      }
    }
  }

  /** That is exactly the condition: a clobbered trap is lost. */
  lemma WrittenIsOverlaidExactly(original: Text, addrs: seq<Addr>)
    requires forall a :: a in addrs ==> Covers(original, a)
    ensures Written(original, original, addrs) == Overlaid(original, SetOf(addrs)) <==> NothingClobbered(original, addrs)
  {
    hide Written, Overlaid;
    if NothingClobbered(original, addrs) {
      WrittenIsOverlaid(original, addrs);
    } else {
      var i: nat, j: nat :| i < j < |addrs| && addrs[i] !in addrs[j..] && addrs[i] in original && original[addrs[i]] != INT3 && Clobbered(addrs, i, j);
      TrapLost(original, addrs, i, j);
    }
  }

  /** Traps put in at ascending addresses are never clobbered. */
  lemma AscendingIsSafe(original: Text, addrs: seq<Addr>)
    requires forall i, j :: 0 <= i < j < |addrs| ==> addrs[i] <= addrs[j]
    ensures NothingClobbered(original, addrs)
  {
  }

  lemma {:induction false} LastOccurrence(addrs: seq<Addr>, k: Addr) returns (i: nat)
    requires k in addrs
    ensures i < |addrs| && addrs[i] == k && k !in addrs[i + 1..]
    decreases |addrs|
  {
    var last := |addrs| - 1;
    if addrs[last] == k {
      i := last;
    } else {
      i := LastOccurrence(addrs[..last], k);
      assert addrs[i + 1..] == addrs[..last][i + 1..] + [addrs[last]];
    }
  }

  lemma TrapWritten(original: Text, addrs: seq<Addr>, k: Addr)
    requires (forall a :: a in addrs ==> Covers(original, a)) && NothingClobbered(original, addrs) && k in addrs && k in original
    ensures k in Written(original, original, addrs) && Written(original, original, addrs)[k] == INT3
  {
    var i := LastOccurrence(addrs, k);
    Split(original, original, addrs, i);
    WrittenKeys(original, original, addrs[..i]);
    var after := Poke(Written(original, original, addrs[..i]), k, PatchedWord(original, k));
    var later := addrs[i + 1..];
    forall j | 0 <= j < |later|
      ensures !(later[j] < k < later[j] + WINDOW) || original[k] == INT3
    {
      assert addrs[i + 1 + j..] == later[j..];
      assert original[k] != INT3 ==> !Clobbered(addrs, i, i + 1 + j);
    }
    WrittenStays(original, after, later, k);
  }

  lemma Split(original: Text, before: Text, addrs: seq<Addr>, i: nat)
    requires (forall a :: a in addrs ==> Covers(original, a)) && i < |addrs|
    ensures Written(original, before, addrs) ==
            Written(original, Poke(Written(original, before, addrs[..i]), addrs[i], PatchedWord(original, addrs[i])), addrs[i + 1..])
  {
    assert addrs == addrs[..i] + addrs[i..];
    WrittenConcat(original, before, addrs[..i], addrs[i..]);
    assert addrs[i..][0] == addrs[i] && addrs[i..][1..] == addrs[i + 1..];
  }

  lemma TrapLost(original: Text, addrs: seq<Addr>, i: nat, j: nat)
    requires forall a :: a in addrs ==> Covers(original, a)
    requires i < j < |addrs| && addrs[i] !in addrs[j..] && Clobbered(addrs, i, j) && addrs[i] in original && original[addrs[i]] != INT3
    ensures Written(original, original, addrs) != Overlaid(original, SetOf(addrs))
  {
    hide Written, PatchedWord;
    var k := addrs[i];
    Split(original, original, addrs, j);
    WrittenKeys(original, original, addrs[..j]);
    var before := Written(original, original, addrs[..j]);
    var after := Poke(before, addrs[j], PatchedWord(original, addrs[j]));
    PatchedByte(original, addrs[j], k);
    assert addrs[j + 1..] == addrs[j..][1..];
    WrittenElsewhere(original, after, addrs[j + 1..], k);
    assert k in SetOf(addrs);
  }

  lemma PatchedByte(original: Text, addr: Addr, k: Addr)
    requires Covers(original, addr) && addr < k < addr + WINDOW
    ensures k in original && PatchedWord(original, addr)[k - addr] == original[k]
  {
  }

  // ----- removal, on values

  datatype State = State(text: Text, traps: Traps)

  /** Breakpoints are exactly at the active traps. */
  ghost predicate Overlay(original: Text, s: State)
  {
    s.text == Overlaid(original, s.traps.Keys)
  }

  ghost predicate Intact(original: Text, s: State)
  {
    Overlay(original, s) && AllRemember(original, s.traps)
  }

  /** The last trap up to an address, but not below another address. */
  function Nearest(keys: set<Addr>, low: Addr, k: Addr): (n: Addr)
    requires low <= k
    ensures low <= n <= k && (n == low || n in keys)
    ensures forall m :: n < m <= k ==> m !in keys
    decreases k
  {
    if k == low || k in keys then k else Nearest(keys, low, k - 1)
  }

  /** What is written at an address near a trap that is removed: the text it remembers, or a neighbour's patched text. */
  function RestoredByte(traps: Traps, a: Addr, k: Addr): Byte
    requires a in traps && a <= k < a + WINDOW
  {
    var n := Nearest(traps.Keys, a, k);
    if n == a then traps[a].origText[k - a] else traps[n].patchedText[k - n]
  }

  function RestoredWord(traps: Traps, a: Addr): (w: Word)
    requires a in traps
    ensures forall k :: a <= k < a + WINDOW ==> w[k - a] == RestoredByte(traps, a, k)
  {
    var w := seq(WINDOW, i requires 0 <= i < WINDOW => assert a <= a + i < a + WINDOW; RestoredByte(traps, a, a + i));
    assert forall i :: 0 <= i < |w| ==> w[i] == RestoredByte(traps, a, a + i);
    w
  }

  /** `removeTrap`, for a trap that is active. */
  function Removed(s: State, a: Addr): State
  {
    if a !in s.traps then s else State(Poke(s.text, a, RestoredWord(s.traps, a)), s.traps - {a})
  }

  function RemovedAll(s: State, addrs: seq<Addr>): State
    decreases |addrs|
  {
    if addrs == [] then s else RemovedAll(Removed(s, addrs[0]), addrs[1..])
  }

  lemma {:induction false} RemovedConcat(s: State, addrs: seq<Addr>, a: Addr)
    ensures RemovedAll(s, addrs + [a]) == Removed(RemovedAll(s, addrs), a)
    decreases |addrs|
  {
    hide Removed;
    if addrs == [] {
      assert (addrs + [a])[1..] == [];
    } else {
      assert (addrs + [a])[1..] == addrs[1..] + [a];
      RemovedConcat(Removed(s, addrs[0]), addrs[1..], a);
    }
  }

  /** A byte near a trap that is removed shows the original, or the breakpoint of a trap that stays. */
  lemma RestoredRight(original: Text, traps: Traps, a: Addr, k: Addr)
    requires AllRemember(original, traps) && a in traps && traps[a].kind != JitCodeRet && a <= k < a + WINDOW
    ensures k in original && RestoredByte(traps, a, k) == if k in traps && k != a then INT3 else original[k]
  {
    assert Remembers(original, traps[a]) && Covers(original, a);
    var n := Nearest(traps.Keys, a, k);
    if n == a {
      assert traps[a].origText[k - a] == original[a + (k - a)];
    } else {
      assert n in original;
      NotJit(original, traps[n]);
      assert traps[n].origText[k - n] == original[n + (k - n)];
    }
  }

  lemma NotJit(original: Text, t: Trap)
    requires Remembers(original, t) && t.addr in original
    ensures t.kind != JitCodeRet
  {
  }

  /** One breakpoint goes and nothing else changes, whatever other traps lie close by. */
  lemma RemovedIntact(original: Text, s: State, a: Addr)
    requires Intact(original, s)
    ensures Intact(original, Removed(s, a))
  {
    hide Remembers, RestoredByte;
    if a in s.traps {
      var after := Removed(s, a);
      forall k | k in original
        ensures after.text[k] == if k in after.traps then INT3 else original[k]
      {
        if a <= k < a + WINDOW {
          assert s.traps[a].kind != JitCodeRet by {
            OutsideJit(original, s.traps[a], k);
          }
          RestoredRight(original, s.traps, a, k);
        }
      }
    }
  }

  lemma OutsideJit(original: Text, t: Trap, k: Addr)
    requires Remembers(original, t) && t.addr <= k < t.addr + WINDOW && k in original
    ensures t.kind != JitCodeRet
  {
  }

  lemma {:induction false} RemovedAllIntact(original: Text, s: State, addrs: seq<Addr>)
    requires Intact(original, s)
    ensures Intact(original, RemovedAll(s, addrs))
    decreases |addrs|
  {
    hide Intact, Removed;
    if addrs != [] {
      RemovedIntact(original, s, addrs[0]);
      RemovedAllIntact(original, Removed(s, addrs[0]), addrs[1..]);
    }
  }

  lemma {:induction false} RemovedTraps(s: State, addrs: seq<Addr>)
    ensures RemovedAll(s, addrs).traps == s.traps - SetOf(addrs) && RemovedAll(s, addrs).text.Keys == s.text.Keys
    decreases |addrs|
  {
    hide RestoredWord;
    if addrs != [] {
      RemovedTraps(Removed(s, addrs[0]), addrs[1..]);
      assert SetOf(addrs) == {addrs[0]} + SetOf(addrs[1..]);
    }
  }

  /** Whatever traps are removed, and in whatever order, breakpoints are exactly at those that are left. */
  ghost predicate RemovalsSafe(original: Text, s: State)
  {
    forall addrs :: Overlay(original, RemovedAll(s, addrs))
  }

  /** Removal is safe exactly if all traps remember the original text, and not the breakpoint of another one. */
  lemma RemovalsSafeExactly(original: Text, s: State)
    requires Overlay(original, s) && AllRecall(original, s.traps)
    ensures RemovalsSafe(original, s) <==> AllRemember(original, s.traps)
  {
    hide Overlay, Overlaid, AllRecall, RemovedAll;
    if AllRemember(original, s.traps) {
      forall addrs: seq<Addr>
        ensures Overlay(original, RemovedAll(s, addrs))
      {
        RemovedAllIntact(original, s, addrs);
      }
    } else {
      var a, i := Misremembered(original, s.traps);
      var addrs := StaleBreakpointLeft(original, s, a, i);
      assert !Overlay(original, RemovedAll(s, addrs));
    }
  }

  lemma Misremembered(original: Text, traps: Traps) returns (a: Addr, i: nat)
    requires AllRecall(original, traps) && !AllRemember(original, traps)
    ensures a in traps && i < WINDOW && traps[a].kind != JitCodeRet && Covers(original, a) && traps[a].origText[i] != original[a + i]
  {
    a :| a in traps && !Remembers(original, traps[a]);
    assert Recalls(original, traps[a]);
    i :| 0 <= i < WINDOW && traps[a].origText[i] != original[a + i];
  }

  /** If a trap is the last one to go, what it remembers is what is left. */
  lemma StaleBreakpointLeft(original: Text, s: State, a: Addr, i: nat) returns (addrs: seq<Addr>)
    requires Overlay(original, s) && a in s.traps && i < WINDOW && Covers(original, a) && s.traps[a].origText[i] != original[a + i]
    ensures !Overlay(original, RemovedAll(s, addrs))
  {
    hide RemovedAll, SetOf, Removed;
    var others := Listed(s.traps.Keys - {a});
    addrs := others + [a];
    RemovedConcat(s, others, a);
    RemovedTraps(s, others);
    LastRemoved(original, RemovedAll(s, others), a, i);
  }

  lemma LastRemoved(original: Text, s: State, a: Addr, i: nat)
    requires s.traps.Keys == {a} && i < WINDOW && Covers(original, a) && s.text.Keys == original.Keys
    ensures var after := Removed(s, a); after.traps == map[] && a + i in after.text && after.text[a + i] == s.traps[a].origText[i]
    ensures s.traps[a].origText[i] != original[a + i] ==> !Overlay(original, Removed(s, a))
  {
    hide RestoredByte;
    var after, k := Removed(s, a), a + i;
    OnlyTrap(s.traps, a, k);
    assert after.text[k] == RestoredWord(s.traps, a)[k - a];
    assert after.traps.Keys == {};
  }

  lemma OnlyTrap(traps: Traps, a: Addr, k: Addr)
    requires traps.Keys == {a} && a <= k < a + WINDOW
    ensures RestoredByte(traps, a, k) == traps[a].origText[k - a]
  {
  }

  lemma {:induction false} Listed(keys: set<Addr>) returns (addrs: seq<Addr>)
    ensures SetOf(addrs) == keys
    decreases |keys|
  {
    if keys == {} {
      addrs := [];
    } else {
      var k :| k in keys;
      var rest := Listed(keys - {k});
      addrs := [k] + rest;
      assert SetOf(addrs) == {k} + SetOf(rest);
    }
  }

  // ----- removal of all traps

  /** The last trap that is written over an address, from the given distance on. */
  function Over(traps: Traps, k: Addr, d: nat): (n: Option<Addr>)
    requires d <= WINDOW
    ensures n.Some? ==> n.value in traps && traps[n.value].kind != JitCodeRet && n.value + d <= k < n.value + WINDOW
    ensures n.Some? ==> forall m :: m in traps && n.value < m && m + d <= k ==> traps[m].kind == JitCodeRet
    ensures n.None? ==> forall m :: m in traps && m + d <= k < m + WINDOW ==> traps[m].kind == JitCodeRet
    decreases WINDOW - d
  {
    if d == WINDOW then None
    else if k >= d && k - d in traps && traps[k - d].kind != JitCodeRet then Some(k - d)
    else Over(traps, k, d + 1)
  }

  function LastWritten(text: Text, traps: Traps, k: Addr): Byte
    requires k in text
  {
    match Over(traps, k, 0)
    case None => text[k]
    case Some(n) => traps[n].origText[k - n]
  }

  /** The text after all traps have been removed at ascending addresses, each writing back what it remembers. */
  function Restored(text: Text, traps: Traps): Text
  {
    map k | k in text :: LastWritten(text, traps, k)
  }

  /** The traps that come before an iterator. */
  function Before(traps: Traps, it: Option<Addr>): Traps
  {
    map k | k in traps && (it.None? || k < it.value) :: traps[k]
  }

  lemma RestoredNone(text: Text, traps: Traps, it: Option<Addr>)
    requires it.None? ==> forall k :: k in traps ==> k < 0
    requires it.Some? ==> forall k :: k in traps ==> it.value <= k
    ensures Restored(text, Before(traps, it)) == text
  {
  }

  lemma RestoredMore(text: Text, traps: Traps, at: Addr, it: Option<Addr>)
    requires at in traps && forall k :: k in traps && k > at ==> it.Some? && it.value <= k
    requires it.Some? ==> it.value > at
    ensures Restored(text, Before(traps, it)) ==
            if traps[at].kind == JitCodeRet then Restored(text, Before(traps, Some(at)))
            else Poke(Restored(text, Before(traps, Some(at))), at, traps[at].origText)
  {
    hide Restored, Over, Poke;
    var less := Before(traps, Some(at));
    assert Before(traps, it) == less[at := traps[at]];
    RestoredPut(text, less, at, traps[at]);
  }

  lemma RestoredPut(text: Text, traps: Traps, at: Addr, t: Trap)
    requires forall m :: m in traps ==> m < at
    ensures Restored(text, traps[at := t]) == if t.kind == JitCodeRet then Restored(text, traps) else Poke(Restored(text, traps), at, t.origText)
  {
    hide LastWritten;
    forall k | k in text
      ensures LastWritten(text, traps[at := t], k) == if t.kind != JitCodeRet && at <= k < at + WINDOW then t.origText[k - at] else LastWritten(text, traps, k)
    {
      LastWrittenMore(text, traps, at, t, k);
    }
  }

  lemma LastWrittenMore(text: Text, traps: Traps, at: Addr, t: Trap, k: Addr)
    requires k in text && forall m :: m in traps ==> m < at
    ensures LastWritten(text, traps[at := t], k) == if t.kind != JitCodeRet && at <= k < at + WINDOW then t.origText[k - at] else LastWritten(text, traps, k)
  {
    OverMore(traps, at, t, k, 0);
    hide Over;
  }


  lemma {:induction false} OverMore(traps: Traps, at: Addr, t: Trap, k: Addr, d: nat)
    requires d <= WINDOW && forall m :: m in traps ==> m < at
    ensures Over(traps[at := t], k, d) == if t.kind != JitCodeRet && at + d <= k < at + WINDOW then Some(at) else Over(traps, k, d)
    decreases WINDOW - d
  {
    if d < WINDOW {
      OverMore(traps, at, t, k, d + 1);
    }
  }

  lemma RestoredLast(text: Text, traps: Traps)
    ensures Restored(text, Before(traps, None)) == Restored(text, traps)
  {
    assert Before(traps, None) == traps;
  }

  /** Where a trap does not remember the original, another trap is active. */
  ghost predicate Accounted(original: Text, traps: Traps)
  {
    forall a, k :: a in traps && traps[a].kind != JitCodeRet && a <= k < a + WINDOW && k in original && traps[a].origText[k - a] != original[k] ==>
      k in traps
  }

  /** No byte is last written back by a trap that does not remember it. */
  ghost predicate LastRemembers(original: Text, traps: Traps)
  {
    forall k :: k in original && Over(traps, k, 0).Some? ==> traps[Over(traps, k, 0).value].origText[k - Over(traps, k, 0).value] == original[k]
  }

  lemma RestoredAt(original: Text, s: State, k: Addr)
    requires Overlay(original, s) && AllRecall(original, s.traps) && k in original
    ensures Restored(s.text, s.traps)[k] == original[k] <==>
            (Over(s.traps, k, 0).Some? ==> s.traps[Over(s.traps, k, 0).value].origText[k - Over(s.traps, k, 0).value] == original[k])
  {
    hide Over;
    if k in s.traps {
      RecallsOwn(original, s.traps[k]);
    }
  }

  lemma RecallsOwn(original: Text, t: Trap)
    requires Recalls(original, t) && t.addr in original
    ensures t.kind != JitCodeRet && t.origText[0] == original[t.addr]
  {
  }

  /** The text is the original exactly if each byte is last written by a trap that remembers it. */
  lemma RestoredExactly(original: Text, s: State)
    requires Overlay(original, s) && AllRecall(original, s.traps)
    ensures Restored(s.text, s.traps) == original <==> LastRemembers(original, s.traps)
    ensures Accounted(original, s.traps) ==> LastRemembers(original, s.traps)
  {
    hide AllRecall, Over, Restored, Accounted;
    RestoredKeys(s.text, s.traps);
    assert s.text.Keys == original.Keys;
    forall k | k in original
      ensures Restored(s.text, s.traps)[k] == original[k] <==>
              (Over(s.traps, k, 0).Some? ==> s.traps[Over(s.traps, k, 0).value].origText[k - Over(s.traps, k, 0).value] == original[k])
    {
      RestoredAt(original, s, k);
    }
    if Accounted(original, s.traps) {
      forall k | k in original && Over(s.traps, k, 0).Some?
        ensures s.traps[Over(s.traps, k, 0).value].origText[k - Over(s.traps, k, 0).value] == original[k]
      {
        LastIsRight(original, s.traps, k);
      }
    }
  }

  lemma RestoredKeys(text: Text, traps: Traps)
    ensures Restored(text, traps).Keys == text.Keys
  {
  }

  lemma LastIsRight(original: Text, traps: Traps, k: Addr)
    requires AllRecall(original, traps) && Accounted(original, traps) && k in original && Over(traps, k, 0).Some?
    ensures var n := Over(traps, k, 0).value; traps[n].origText[k - n] == original[k]
  {
    hide Over;
    if k in traps {
      RecallsOwn(original, traps[k]);
    }
  }

  // ----- steps of the debugger

  function Addrs(requests: seq<(TrapKind, Addr)>): (addrs: seq<Addr>)
    ensures |addrs| == |requests| && forall i :: 0 <= i < |addrs| ==> addrs[i] == requests[i].1
  {
    seq(|requests|, i requires 0 <= i < |requests| => requests[i].1)
  }

  /** A trap as it is made for a request, from the text as it is. */
  ghost predicate BuiltFrom(text: Text, request: (TrapKind, Addr), t: Trap)
  {
    && t.kind == request.0 && t.addr == request.1 && t.kind != JitCodeRet && Covers(text, t.addr)
    && (forall k :: t.addr <= k < t.addr + WINDOW ==> t.origText[k - t.addr] == text[k])
    && t.patchedText == t.origText[0 := INT3]
  }

  function ReadWord(text: Text, addr: Addr): (w: Word)
    requires forall k :: addr <= k < addr + WINDOW ==> k in text
    ensures forall k :: addr <= k < addr + WINDOW ==> w[k - addr] == text[k]
  {
    seq(WINDOW, i requires 0 <= i < WINDOW => assert addr <= addr + i < addr + WINDOW; text[addr + i])
  }

  lemma TrapBuilt(text: Text, request: (TrapKind, Addr), t: Trap)
    requires BuiltFrom(text, request, t)
    ensures Covers(text, t.addr) && t.patchedText == PatchedWord(text, t.addr) && t.addr == request.1
  {
  }

  lemma NextWritten(original: Text, text: Text, addrs: seq<Addr>, i: nat)
    requires i < |addrs| && forall a :: a in addrs ==> Covers(original, a)
    ensures Covers(original, addrs[i])
    ensures Written(original, text, addrs[i..]) == Written(original, Poke(text, addrs[i], PatchedWord(original, addrs[i])), addrs[i + 1..])
  {
    assert addrs[i..][0] == addrs[i] && addrs[i..][1..] == addrs[i + 1..];
  }

  lemma NoneLeft(original: Text, text: Text)
    ensures Written(original, text, []) == text
  {
  }

  /** `activeTraps.emplace`: a trap that is there already stays. */
  function Emplaced(traps: Traps, t: Trap): Traps
  {
    if t.addr in traps then traps else traps[t.addr := t]
  }

  function EmplacedAll(traps: Traps, ts: seq<Trap>): Traps
    decreases |ts|
  {
    if ts == [] then traps else EmplacedAll(Emplaced(traps, ts[0]), ts[1..])
  }

  lemma {:induction false} EmplacedKeys(traps: Traps, ts: seq<Trap>, addrs: seq<Addr>)
    requires |ts| == |addrs| && forall i :: 0 <= i < |ts| ==> ts[i].addr == addrs[i]
    ensures EmplacedAll(traps, ts).Keys == traps.Keys + SetOf(addrs)
    decreases |ts|
  {
    if ts != [] {
      EmplacedKeys(Emplaced(traps, ts[0]), ts[1..], addrs[1..]);
      assert SetOf(addrs) == {addrs[0]} + SetOf(addrs[1..]);
    }
  }

  lemma {:induction false} EmplacedIs(traps: Traps, ts: seq<Trap>, a: Addr)
    requires a in EmplacedAll(traps, ts)
    ensures if a in traps then EmplacedAll(traps, ts)[a] == traps[a] else EmplacedAll(traps, ts)[a] in ts && EmplacedAll(traps, ts)[a].addr == a
    decreases |ts|
  {
    if ts != [] {
      EmplacedIs(Emplaced(traps, ts[0]), ts[1..], a);
    }
  }

  /** No new trap is followed within eight bytes by a breakpoint that is active already. */
  ghost predicate Unspoiled(original: Text, base: set<Addr>, addrs: seq<Addr>)
  {
    forall a, e :: a in addrs && a !in base && e in base && e in original && a < e < a + WINDOW ==> original[e] == INT3
  }

  /** What a trap remembers if it is made while others are active. */
  lemma BuiltRecalls(original: Text, base: set<Addr>, request: (TrapKind, Addr), t: Trap)
    requires BuiltFrom(Overlaid(original, base), request, t) && t.addr !in base
    ensures MadeBeside(original, base, t)
  {
    forall k | t.addr <= k < t.addr + WINDOW
      ensures k in original
    {
      assert k in Overlaid(original, base);
    }
    forall i | 0 <= i < WINDOW
      ensures t.origText[i] == if t.addr + i in base then INT3 else original[t.addr + i]
    {
      assert t.origText[t.addr + i - t.addr] == Overlaid(original, base)[t.addr + i];
    }
    if Remembers(original, t) {
      forall e | e in base && e in original && t.addr < e < t.addr + WINDOW
        ensures original[e] == INT3
      {
        assert t.origText[e - t.addr] == original[t.addr + (e - t.addr)];
      }
    }
  }

  ghost predicate AllBuilt(text: Text, requests: seq<(TrapKind, Addr)>, ts: seq<Trap>)
  {
    |ts| == |requests| && forall i :: 0 <= i < |ts| ==> BuiltFrom(text, requests[i], ts[i])
  }

  /** The new traps remember the original exactly if none is made before a breakpoint that is active. */
  lemma EmplacedRemember(original: Text, traps: Traps, requests: seq<(TrapKind, Addr)>, ts: seq<Trap>)
    requires AllRecall(original, traps) && AllBuilt(Overlaid(original, traps.Keys), requests, ts)
    ensures AllRecall(original, EmplacedAll(traps, ts))
    ensures AllRemember(original, EmplacedAll(traps, ts)) <==> AllRemember(original, traps) && Unspoiled(original, traps.Keys, Addrs(requests))
    ensures Accounted(original, traps) ==> Accounted(original, EmplacedAll(traps, ts))
  {
    hide Remembers, Recalls, BuiltFrom, EmplacedAll, Overlaid;
    var addrs, after := Addrs(requests), EmplacedAll(traps, ts);
    KeysBuilt(Overlaid(original, traps.Keys), requests, ts);
    EmplacedKeys(traps, ts, addrs);
    forall a | a in after
      ensures after[a].addr == a && if a in traps then after[a] == traps[a] else MadeBeside(original, traps.Keys, after[a])
    {
      EmplacedOne(original, traps, requests, ts, a);
    }
    forall a | a in after
      ensures Recalls(original, after[a])
    {
      assert a in traps ==> Recalls(original, traps[a]);
    }
    RememberedExactly(original, traps, addrs, after);
  }

  /** A trap as it is when the breakpoints that were active were read with the text. */
  ghost predicate MadeBeside(original: Text, base: set<Addr>, t: Trap)
  {
    && Recalls(original, t)
    && (Remembers(original, t) <==> forall e :: e in base && e in original && t.addr < e < t.addr + WINDOW ==> original[e] == INT3)
    && (forall k :: t.addr <= k < t.addr + WINDOW && k in original && t.origText[k - t.addr] != original[k] ==> k in base)
  }

  lemma EmplacedOne(original: Text, traps: Traps, requests: seq<(TrapKind, Addr)>, ts: seq<Trap>, a: Addr)
    requires AllRecall(original, traps) && AllBuilt(Overlaid(original, traps.Keys), requests, ts) && a in EmplacedAll(traps, ts)
    ensures var t := EmplacedAll(traps, ts)[a];
            t.addr == a && if a in traps then t == traps[a] else MadeBeside(original, traps.Keys, t)
  {
    hide BuiltFrom, EmplacedAll, Overlaid, MadeBeside, Recalls;
    EmplacedIs(traps, ts, a);
    if a !in traps {
      var i :| 0 <= i < |ts| && ts[i] == EmplacedAll(traps, ts)[a];
      BuiltRecalls(original, traps.Keys, requests[i], ts[i]);
    }
  }

  lemma KeysBuilt(text: Text, requests: seq<(TrapKind, Addr)>, ts: seq<Trap>)
    requires AllBuilt(text, requests, ts)
    ensures forall i :: 0 <= i < |ts| ==> ts[i].addr == Addrs(requests)[i]
  {
    forall i | 0 <= i < |ts|
      ensures ts[i].addr == Addrs(requests)[i]
    {
      assert BuiltFrom(text, requests[i], ts[i]);
    }
  }

  lemma RememberedExactly(original: Text, traps: Traps, addrs: seq<Addr>, after: Traps)
    requires AllRecall(original, traps) && after.Keys == traps.Keys + SetOf(addrs)
    requires forall a :: a in after ==> after[a].addr == a
    requires forall a :: a in traps ==> after[a] == traps[a]
    requires forall a :: a in after && a !in traps ==> MadeBeside(original, traps.Keys, after[a])
    ensures AllRemember(original, after) <==> AllRemember(original, traps) && Unspoiled(original, traps.Keys, addrs)
  {
    hide Remembers, Recalls;
    if AllRemember(original, after) {
      forall a | a in traps
        ensures Remembers(original, traps[a])
      {
        assert Remembers(original, after[a]);
      }
      forall a | a in addrs && a !in traps
        ensures Remembers(original, after[a])
      {
        assert a in after;
      }
    }
    if AllRemember(original, traps) && Unspoiled(original, traps.Keys, addrs) {
      forall a | a in after
        ensures Remembers(original, after[a])
      {
        if a !in traps {
          assert a in addrs;
        }
      }
    }
  }

  /** Breakpoints over breakpoints. */
  lemma OverlaidTwice(original: Text, base: set<Addr>, more: set<Addr>)
    ensures Overlaid(Overlaid(original, base), more) == Overlaid(original, base + more)
  {
  }

  // ----- requests, one after the other

  ghost predicate AllCovered(original: Text, requests: seq<(TrapKind, Addr)>)
  {
    forall a :: a in Addrs(requests) ==> Covers(original, a)
  }

  ghost predicate EachCovered(original: Text, batches: seq<seq<(TrapKind, Addr)>>)
  {
    forall i :: 0 <= i < |batches| ==> AllCovered(original, batches[i])
  }

  /** In no request is a trap clobbered by a later one of the same request. */
  ghost predicate NoneClobbered(original: Text, base: set<Addr>, batches: seq<seq<(TrapKind, Addr)>>)
    decreases |batches|
  {
    batches == [] ||
    (NothingClobbered(Overlaid(original, base), Addrs(batches[0])) && NoneClobbered(original, base + SetOf(Addrs(batches[0])), batches[1..]))
  }

  /** No request has a trap that is followed within eight bytes by one of an earlier request. */
  ghost predicate NoneSpoiled(original: Text, base: set<Addr>, batches: seq<seq<(TrapKind, Addr)>>)
    decreases |batches|
  {
    batches == [] ||
    (Unspoiled(original, base, Addrs(batches[0])) && NoneSpoiled(original, base + SetOf(Addrs(batches[0])), batches[1..]))
  }

  function KeysAfter(base: set<Addr>, batches: seq<seq<(TrapKind, Addr)>>): set<Addr>
    decreases |batches|
  {
    if batches == [] then base else KeysAfter(base + SetOf(Addrs(batches[0])), batches[1..])
  }

  // ----- the iterator of `removeTraps`

  /** The traps from an iterator on. */
  ghost function FromOn(keys: set<Addr>, it: Option<Addr>): set<Addr>
  {
    if it.None? then {} else set k | k in keys && k >= it.value
  }

  /** What is left of the traps when the iterator has got that far. */
  ghost predicate LeftAt(before: Traps, traps: Traps, it: Option<Addr>)
  {
    && (forall k :: k in traps <==> k in before && (before[k].kind == JitCodeRet || (it.Some? && k >= it.value)))
    && (forall k :: k in traps ==> traps[k] == before[k])
  }

  lemma LeftFirst(traps: Traps, it: Option<Addr>)
    requires it.None? ==> forall k :: k in traps ==> k < 0
    requires it.Some? ==> forall k :: k in traps ==> it.value <= k
    ensures LeftAt(traps, traps, it)
  {
  }

  /** One step of the iterator over the traps, past a trap that was removed or left alone. */
  lemma LeftNext(before: Traps, traps: Traps, at: Addr, traps': Traps, it: Option<Addr>)
    requires LeftAt(before, traps, Some(at)) && at in traps
    requires traps' == if traps[at].kind == JitCodeRet then traps else traps - {at}
    requires it.None? ==> forall k :: k in traps' ==> k < at + 1
    requires it.Some? ==> it.value in traps' && it.value > at && forall k :: k in traps' && k > at ==> it.value <= k
    ensures LeftAt(before, traps', it) && FromOn(traps'.Keys, it) < FromOn(traps.Keys, Some(at))
    ensures forall k :: k in before && k > at ==> it.Some? && it.value <= k
  {
    assert at in FromOn(traps.Keys, Some(at)) && at !in FromOn(traps'.Keys, it);
    forall k | k in before && k > at
      ensures k in traps'
    {
      assert k in traps;
    }
  }

  lemma LeftLast(before: Traps, traps: Traps)
    requires LeftAt(before, traps, None)
    ensures traps == map a | a in before && before[a].kind == JitCodeRet :: before[a]
  {
  }

  class Debugger {
    var text: Text
    var activeTraps: Traps

    constructor (original: Text)
      ensures text == original && activeTraps == map[]
    {
      text, activeTraps := original, map[];
    }

    function Now(): State
      reads this
    {
      State(text, activeTraps)
    }

    /** Breakpoints are exactly at the active traps, each of which remembers its own byte. */
    ghost predicate Shown(original: Text)
      reads this
    {
      Overlay(original, Now()) && AllRecall(original, activeTraps)
    }

    /** Breakpoints are exactly at the active traps, which remember what was there. */
    ghost predicate Valid(original: Text)
      reads this
    {
      Intact(original, Now())
    }

    /** The first trap that is not below an address. */
    method From(low: Addr) returns (next: Option<Addr>)
      ensures next.None? ==> forall k :: k in activeTraps ==> k < low
      ensures next.Some? ==> next.value in activeTraps && next.value >= low
      ensures next.Some? ==> forall k :: k in activeTraps && k >= low ==> next.value <= k
    {
      var above := set k | k in activeTraps && k >= low;
      assert forall k :: k in activeTraps && k >= low ==> k in above;
      if above == {} {
        next := None;
      } else {
        LeastExists(above);
        var k :| k in above && IsLeast(above, k);
        next := Some(k);
      }
    }

    /**
     `functionPatch`, from reading the original instructions on; not ok if they cannot be read. The
     traps are made from the text as it is, with any breakpoints, and then put in one after the other.
     */
    method FunctionPatch(requests: seq<(TrapKind, Addr)>, ghost original: Text) returns (ok: bool,
                         ghost made: seq<Trap>)
      requires forall i :: 0 <= i < |requests| ==> requests[i].0 != JitCodeRet
      modifies this
      ensures ok <==> AllCovered(old(text), requests)
      ensures !ok ==> unchanged(this)
      ensures ok ==> text == Written(old(text), old(text), Addrs(requests)) && text.Keys == old(text.Keys)
      ensures ok ==> AllBuilt(old(text), requests, made) && activeTraps == EmplacedAll(old(activeTraps), made)
      ensures ok ==> activeTraps.Keys == old(activeTraps.Keys) + SetOf(Addrs(requests))
      ensures forall a :: a in old(activeTraps) ==> a in activeTraps && activeTraps[a] == old(activeTraps[a])
      ensures ok && old(Shown(original)) ==>
        && AllRecall(original, activeTraps)
        && (Overlay(original, Now()) <==> NothingClobbered(old(text), Addrs(requests)))
        && (AllRemember(original, activeTraps) <==> AllRemember(original, old(activeTraps)) && Unspoiled(original, old(activeTraps.Keys), Addrs(requests)))
        && (Accounted(original, old(activeTraps)) ==> Accounted(original, activeTraps))
    {
      hide AllRemember, AllRecall, NothingClobbered, Written, SetOf, Overlaid, AllBuilt, Covers, EmplacedAll, Unspoiled, Accounted;
      var traps;
      traps, ok := ReadTraps(requests);
      made := traps;
      ghost var before, base, addrs := text, activeTraps, Addrs(requests);
      if !ok {
        return;
      }
      KeysBuilt(before, requests, traps);
      EmplacedKeys(base, traps, addrs);
      if Shown(original) {
        EmplacedRemember(original, base, requests, traps);
      }
      forall a | a in base
        ensures a in EmplacedAll(base, traps) && EmplacedAll(base, traps)[a] == base[a]
      {
        EmplacedIs(base, traps, a);
      }
      assert addrs[0..] == addrs && traps[0..] == traps;
      for i := 0 to |traps|
        invariant Written(before, text, addrs[i..]) == Written(before, before, addrs)
        invariant EmplacedAll(activeTraps, traps[i..]) == EmplacedAll(base, traps)
      {
        BuiltAt(before, requests, traps, i);
        NextWritten(before, text, addrs, i);
        NextEmplaced(activeTraps, traps, i);
        if traps[i].addr !in activeTraps {
          activeTraps := activeTraps[traps[i].addr := traps[i]];
        }
        text := Poke(text, traps[i].addr, traps[i].patchedText);
      }
      assert addrs[|addrs|..] == [] && traps[|traps|..] == [];
      NoneLeft(before, text);
      NoneEmplaced(activeTraps);
      WrittenKeys(before, before, addrs);
      WrittenIsOverlaidExactly(before, addrs);
      OverlaidTwice(original, base.Keys, SetOf(addrs));
    }

    /** Steps 2 and 3: the instructions are read from the target, and INT3 is put over the first byte. */
    method ReadTraps(requests: seq<(TrapKind, Addr)>) returns (traps: seq<Trap>, ok: bool)
      requires forall i :: 0 <= i < |requests| ==> requests[i].0 != JitCodeRet
      ensures ok <==> forall a :: a in Addrs(requests) ==> Covers(text, a)
      ensures ok ==> AllBuilt(text, requests, traps)
    {
      traps, ok := [], true;
      for i := 0 to |requests|
        invariant ok && |traps| == i
        invariant forall j :: 0 <= j < i ==> Covers(text, requests[j].1) && BuiltFrom(text, requests[j], traps[j])
      {
        var kind, addr := requests[i].0, requests[i].1;
        if !(forall k :: addr <= k < addr + WINDOW ==> k in text) {
          ok := false;
          assert addr == Addrs(requests)[i] && !Covers(text, addr);
          return;
        }
        var origText := ReadWord(text, addr);
        traps := traps + [Trap(kind, addr, origText, origText[0 := INT3])];
      }
    }

    /**
     `patchFunctions`: one request after the other, up to one that fails. All traps remember the original, and can be
     removed in any order, exactly if no request has put a trap close before one of an earlier request.
     */
    method PatchFunctions(batches: seq<seq<(TrapKind, Addr)>>, ghost original: Text) returns (ok: bool)
      requires forall i, j :: 0 <= i < |batches| && 0 <= j < |batches[i]| ==> batches[i][j].0 != JitCodeRet
      modifies this
      ensures ok <==> EachCovered(old(text), batches)
      ensures ok ==> activeTraps.Keys == KeysAfter(old(activeTraps.Keys), batches)
      ensures old(Shown(original)) && NoneClobbered(original, old(activeTraps.Keys), batches) ==>
        && Shown(original)
        && (RemovalsSafe(original, Now()) <==> AllRemember(original, activeTraps))
        && (ok ==> (AllRemember(original, activeTraps) <==> AllRemember(original, old(activeTraps)) && NoneSpoiled(original, old(activeTraps.Keys), batches)))
        && (Accounted(original, old(activeTraps)) ==> Accounted(original, activeTraps))
    {
      hide AllRemember, AllRecall, NothingClobbered, SetOf, Overlaid, Unspoiled, Accounted, RemovalsSafe, Addrs, AllCovered, AllBuilt, EmplacedAll, Written, Overlay;
      ghost var was, before := activeTraps, text;
      ghost var fine := Shown(original) && NoneClobbered(original, was.Keys, batches);
      assert batches[0..] == batches;
      for i := 0 to |batches|
        invariant text.Keys == before.Keys
        invariant KeysAfter(activeTraps.Keys, batches[i..]) == KeysAfter(was.Keys, batches)
        invariant forall j :: 0 <= j < i ==> AllCovered(before, batches[j])
        invariant fine ==> Shown(original) && NoneClobbered(original, activeTraps.Keys, batches[i..])
        invariant fine ==>
          (AllRemember(original, activeTraps) && NoneSpoiled(original, activeTraps.Keys, batches[i..]) <==>
          AllRemember(original, was) && NoneSpoiled(original, was.Keys, batches))
        invariant fine && Accounted(original, was) ==> Accounted(original, activeTraps)
      {
        assert batches[i..][0] == batches[i] && batches[i..][1..] == batches[i + 1..];
        CoveredSame(before, text, batches[i]);
        if Shown(original) {
          TextShown(original, Now());
        }
        ghost var made;
        ok, made := FunctionPatch(batches[i], original);
        if !ok {
          if fine {
            RemovalsSafeExactly(original, Now());
          }
          return;
        }
      }
      ok := true;
      assert batches[|batches|..] == [];
      if fine {
        RemovalsSafeExactly(original, Now());
      }
    }

    /**
     `removeTraps`: each byte is last written by the nearest trap before it. Afterwards the text is the original if
     all traps remember it, and also if every breakpoint that one of them remembers is still there.
     */
    method RemoveTraps(ghost original: Text)
      requires forall a :: a in activeTraps ==> activeTraps[a].addr == a
      modifies this
      ensures text == Restored(old(text), old(activeTraps))
      ensures activeTraps == map a | a in old(activeTraps) && old(activeTraps)[a].kind == JitCodeRet :: old(activeTraps)[a]
      ensures old(Shown(original)) ==> (text == original <==> LastRemembers(original, old(activeTraps)))
      ensures old(Shown(original)) && Accounted(original, old(activeTraps)) ==> text == original
    {
      hide LeftAt, FromOn, Poke, Restored, Before, Accounted, LastRemembers, Overlay, AllRecall;
      ghost var before, start := activeTraps, text;
      if Shown(original) {
        RestoredExactly(original, Now());
      }
      var it := From(0);
      LeftFirst(before, it);
      RestoredNone(start, before, it);
      while it.Some?
        invariant it.Some? ==> it.value in activeTraps
        invariant LeftAt(before, activeTraps, it) && text == Restored(start, Before(before, it))
        decreases FromOn(activeTraps.Keys, it)
      {
        ghost var was, at := activeTraps, it;
        LeftIs(before, was, at);
        var t := activeTraps[it.value];
        if t.kind != JitCodeRet {
          text := Poke(text, t.addr, t.origText);
          activeTraps := activeTraps - {it.value};
        }
        it := From(it.value + 1);
        LeftNext(before, was, at.value, activeTraps, it);
        RestoredMore(start, before, at.value, it);
      }
      LeftLast(before, activeTraps);
      RestoredLast(start, before);
    }

    /** `removeTrap`: the neighbours within the eight bytes are copied over what the trap remembers. */
    method RemoveTrap(t: Trap, ghost original: Text)
      requires t.addr in activeTraps && activeTraps[t.addr] == t
      modifies this
      ensures Now() == Removed(old(Now()), t.addr)
      ensures old(Valid(original)) ==> Valid(original)
    {
      hide CopiedUpTo, RestoredWord, Poke, Intact;
      if Valid(original) {
        RemovedIntact(original, Now(), t.addr);
      }
      var repatched: Word := t.origText;
      var at := t.addr;
      NothingCopied(activeTraps, t.addr);
      var scanning := true;
      while scanning
        invariant t.addr in activeTraps && at in activeTraps && t.addr <= at < t.addr + WINDOW
        invariant CopiedUpTo(activeTraps, repatched, t.addr, at)
        invariant !scanning ==> forall k :: k in activeTraps && k > at ==> k >= t.addr + WINDOW
        invariant unchanged(this)
        decreases scanning, t.addr + WINDOW - at
      {
        var next := From(at + 1);
        if next.None? || next.value - t.addr >= WINDOW {
          scanning := false;
        } else {
          var off := next.value - t.addr;
          var neighbour := activeTraps[next.value].patchedText;
          CopiesNeighbour(activeTraps, t.addr, repatched, at, next.value);
          repatched := repatched[..off] + neighbour[..WINDOW - off];
          at := next.value;
        }
      }
      AllCopied(activeTraps, t.addr, repatched, at);
      text := Poke(text, t.addr, repatched);
      activeTraps := activeTraps - {t.addr};
    }

    /** Traps are hit, and removed, one after the other. */
    method RemoveInTurn(addrs: seq<Addr>, ghost original: Text)
      requires forall a :: a in activeTraps ==> activeTraps[a].addr == a
      modifies this
      ensures Now() == RemovedAll(old(Now()), addrs) && activeTraps == old(activeTraps) - SetOf(addrs)
      ensures old(Valid(original)) ==> Valid(original)
    {
      hide Intact, Removed, RemovedAll, SetOf;
      ghost var start := Now();
      if Valid(original) {
        RemovedAllIntact(original, start, addrs);
      }
      RemovedTraps(start, addrs);
      assert addrs[..0] == [];
      NoneRemoved(start);
      for i := 0 to |addrs|
        invariant Now() == RemovedAll(start, addrs[..i])
        invariant forall a :: a in activeTraps ==> activeTraps[a].addr == a
      {
        assert addrs[..i + 1] == addrs[..i] + [addrs[i]];
        RemovedConcat(start, addrs[..i], addrs[i]);
        RemovedIs(Now(), addrs[i]);
        if addrs[i] in activeTraps {
          RemoveTrap(activeTraps[addrs[i]], original);
        }
      }
      assert addrs[..|addrs|] == addrs;
    }
  }

  lemma NoneRemoved(s: State)
    ensures RemovedAll(s, []) == s
  {
  }

  lemma RemovedIs(s: State, a: Addr)
    ensures a !in s.traps ==> Removed(s, a) == s
    ensures forall k :: k in Removed(s, a).traps ==> k in s.traps && Removed(s, a).traps[k] == s.traps[k]
  {
  }

  lemma LeftIs(before: Traps, traps: Traps, it: Option<Addr>)
    requires LeftAt(before, traps, it)
    ensures forall k :: k in traps ==> k in before && traps[k] == before[k]
  {
  }

  lemma CoveredSame(a: Text, b: Text, requests: seq<(TrapKind, Addr)>)
    requires a.Keys == b.Keys
    ensures AllCovered(a, requests) <==> AllCovered(b, requests)
  {
    forall addr | addr in Addrs(requests)
      ensures Covers(a, addr) <==> Covers(b, addr)
    {
    }
  }

  lemma TextShown(original: Text, s: State)
    requires Overlay(original, s)
    ensures s.text == Overlaid(original, s.traps.Keys)
  {
  }

  lemma BuiltAt(text: Text, requests: seq<(TrapKind, Addr)>, ts: seq<Trap>, i: nat)
    requires AllBuilt(text, requests, ts) && i < |ts|
    ensures i < |requests| && Covers(text, ts[i].addr) && ts[i].patchedText == PatchedWord(text, ts[i].addr) && ts[i].addr == Addrs(requests)[i]
  {
    hide BuiltFrom;
    assert BuiltFrom(text, requests[i], ts[i]);
    TrapBuilt(text, requests[i], ts[i]);
  }

  lemma NextEmplaced(traps: Traps, ts: seq<Trap>, i: nat)
    requires i < |ts|
    ensures EmplacedAll(traps, ts[i..]) == EmplacedAll(Emplaced(traps, ts[i]), ts[i + 1..])
  {
    assert ts[i..][0] == ts[i] && ts[i..][1..] == ts[i + 1..];
  }

  lemma NoneEmplaced(traps: Traps)
    ensures EmplacedAll(traps, []) == traps
  {
  }

  /** The neighbours of a trap up to one of them have been copied. */
  ghost predicate CopiedUpTo(traps: Traps, word: Word, a: Addr, at: Addr)
    requires a in traps && at in traps && a <= at < a + WINDOW
  {
    forall k :: a <= k < a + WINDOW ==>
      word[k - a] == if k < at then RestoredByte(traps, a, k)
                     else if at == a then traps[a].origText[k - a] else traps[at].patchedText[k - at]
  }

  lemma NothingCopied(traps: Traps, a: Addr)
    requires a in traps
    ensures CopiedUpTo(traps, traps[a].origText, a, a)
  {
  }

  /** The next trap within the eight bytes is copied over. */
  lemma CopiesNeighbour(traps: Traps, a: Addr, word: Word, at: Addr, next: Addr)
    requires a in traps && at in traps && next in traps && a <= at < next < a + WINDOW
    requires CopiedUpTo(traps, word, a, at) && forall k :: k in traps && k > at ==> next <= k
    ensures CopiedUpTo(traps, word[..next - a] + traps[next].patchedText[..WINDOW - (next - a)], a, next)
  {
    var off := next - a;
    var patched := traps[next].patchedText;
    var copied := word[..off] + patched[..WINDOW - off];
    forall k | a <= k < a + WINDOW
      ensures copied[k - a] == if k < next then RestoredByte(traps, a, k) else patched[k - next]
    {
      assert copied[k - a] == if k < next then word[k - a] else patched[k - next];
      if at <= k < next {
        assert Nearest(traps.Keys, a, k) == at;
      }
    }
  }

  lemma AllCopied(traps: Traps, a: Addr, word: Word, at: Addr)
    requires a in traps && at in traps && a <= at < a + WINDOW && CopiedUpTo(traps, word, a, at)
    requires forall k :: k in traps && k > at ==> k >= a + WINDOW
    ensures word == RestoredWord(traps, a)
  {
    hide CopiedUpTo, RestoredByte;
    var wanted := RestoredWord(traps, a);
    forall i | 0 <= i < WINDOW
      ensures word[i] == wanted[i]
    {
      var k := a + i;
      assert wanted[k - a] == RestoredByte(traps, a, k);
      CopiedAt(traps, a, word, at, k);
    }
  }

  lemma CopiedAt(traps: Traps, a: Addr, word: Word, at: Addr, k: Addr)
    requires a in traps && at in traps && a <= at < a + WINDOW && CopiedUpTo(traps, word, a, at) && a <= k < a + WINDOW
    requires forall m :: m in traps && m > at ==> m >= a + WINDOW
    ensures word[k - a] == RestoredByte(traps, a, k)
  {
    if k >= at {
      assert Nearest(traps.Keys, a, k) == at;
    }
  }

  /**
   * A breakpoint that is left behind: a second request puts a trap close before that of the first one, which is hit and
   * removed first. The text shows a breakpoint where no trap is active.
   */
  method LeaveStaleBreakpoint(original: Text, a: Addr, e: Addr) returns (text: Text, traps: Traps)
    requires Covers(original, a) && Covers(original, e) && a < e < a + WINDOW && original[e] != INT3
    ensures traps == map[] && e in text && text[e] == INT3
  {
    hide NothingClobbered, Unspoiled, AllCovered, RemovedAll, AllRemember, AllRecall, Accounted, SetOf, Overlaid, Overlay;
    hide AllBuilt, EmplacedAll, Written, Remembers;
    var d := new Debugger(original);
    NoTraps(original, d.activeTraps);
    SingleRequest(original, {}, e);
    assert d.activeTraps.Keys == {};
    TextShown(original, d.Now());
    ghost var made;
    var ok;
    ok, made := d.FunctionPatch([(VectEntry, e)], original);
    ghost var first := d.activeTraps;
    SingleRequest(original, {e}, a);
    assert first.Keys == {e};
    TextShown(original, d.Now());
    ok, made := d.FunctionPatch([(VectEntry, a)], original);
    RemembersAt(original, first, e);
    OnlySpoiled(original, d.Now(), a, e);
    Addressed(original, d.activeTraps);
    d.RemoveInTurn([e, a], original);
    return d.text, d.activeTraps;
  }

  lemma NoTraps(original: Text, traps: Traps)
    requires traps == map[]
    ensures AllRemember(original, traps) && AllRecall(original, traps) && Accounted(original, traps) && Overlay(original, State(original, traps))
  {
  }

  lemma RemembersAt(original: Text, traps: Traps, e: Addr)
    requires AllRemember(original, traps) && e in traps
    ensures Remembers(original, traps[e])
  {
  }

  lemma SingleRequest(original: Text, base: set<Addr>, a: Addr)
    requires Covers(original, a)
    ensures var requests := [(VectEntry, a)];
            && AllCovered(original, requests) && AllCovered(Overlaid(original, base), requests)
            && NothingClobbered(Overlaid(original, base), Addrs(requests))
            && SetOf(Addrs(requests)) == {a}
            && (Unspoiled(original, base, Addrs(requests)) <==>
                (a !in base ==> forall e :: e in base && e in original && a < e < a + WINDOW ==> original[e] == INT3))
  {
    var addrs := Addrs([(VectEntry, a)]);
    assert addrs[0] == a && addrs == [a];
  }

  lemma OnlySpoiled(original: Text, s: State, a: Addr, e: Addr)
    requires Overlay(original, s) && AllRecall(original, s.traps) && s.traps.Keys == {a, e} && a < e < a + WINDOW
    requires !AllRemember(original, s.traps) && Remembers(original, s.traps[e]) && Accounted(original, s.traps) && e in original
    ensures var after := RemovedAll(s, [e, a]);
            after.traps == map[] && e in after.text && after.text[e] == INT3
  {
    hide Removed, RemovedAll, AllRemember, AllRecall, Accounted;
    SpoiledByte(original, s.traps, a, e);
    RemovedConcat(s, [e], a);
    assert [e] + [a] == [e, a];
    RemovedTraps(s, [e]);
    LastRemoved(original, RemovedAll(s, [e]), a, e - a);
  }

  lemma SpoiledByte(original: Text, traps: Traps, a: Addr, e: Addr)
    requires AllRecall(original, traps) && traps.Keys == {a, e} && a < e < a + WINDOW
    requires !AllRemember(original, traps) && Remembers(original, traps[e]) && Accounted(original, traps)
    ensures Covers(original, a) && traps[a].origText[e - a] == INT3
  {
    hide Remembers, Recalls, AllRecall, AllRemember, Accounted;
    var x, i := Misremembered(original, traps);
    AddressOf(original, traps, e);
    RememberedByte(original, traps[e], i);
    assert x == a;
    RecallsAt(original, traps, a, i);
  }

  lemma Addressed(original: Text, traps: Traps)
    requires AllRecall(original, traps)
    ensures forall x :: x in traps ==> traps[x].addr == x
  {
  }

  lemma AddressOf(original: Text, traps: Traps, x: Addr)
    requires AllRecall(original, traps) && x in traps
    ensures traps[x].addr == x && Recalls(original, traps[x])
  {
  }

  lemma RememberedByte(original: Text, t: Trap, i: nat)
    requires Remembers(original, t) && i < WINDOW
    ensures t.kind != JitCodeRet ==> Covers(original, t.addr) && t.origText[i] == original[t.addr + i]
  {
  }

  lemma RecallsAt(original: Text, traps: Traps, a: Addr, i: nat)
    requires AllRecall(original, traps) && Accounted(original, traps) && a in traps && traps[a].kind != JitCodeRet
    requires i < WINDOW && Covers(original, a) && traps[a].origText[i] != original[a + i]
    ensures i > 0 && traps[a].origText[i] == INT3 && a + i in traps
  {
    hide AllRecall, Recalls, Accounted, Covers, Outside;
    AddressOf(original, traps, a);
    RecalledByte(original, traps[a], i);
    var k := a + i;
    assert i == k - a;
    AccountedAt(original, traps, a, k);
  }

  lemma RecalledByte(original: Text, t: Trap, i: nat)
    requires Recalls(original, t) && t.kind != JitCodeRet && i < WINDOW
    ensures Covers(original, t.addr) && t.addr + i in original
    ensures t.origText[i] != original[t.addr + i] ==> i > 0 && t.origText[i] == INT3
  {
  }

  lemma AccountedAt(original: Text, traps: Traps, a: Addr, k: Addr)
    requires Accounted(original, traps) && a in traps && traps[a].kind != JitCodeRet && a <= k < a + WINDOW && k in original
    ensures traps[a].origText[k - a] != original[k] ==> k in traps
  {
  }
}
