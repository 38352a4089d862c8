/**
 Which thread runs a probe: how oi/OIDebugger.cpp reacts when a thread of the target stops. Threads,
 and the moments at which they stop, are the environment's; the generated code may only ever be run by
 one of them.
 */
module ProbeProtocol {

  type Pid = nat
  type Addr = nat

  datatype TrapKind = JitCodeRet | VectEntry | VectEntryRet | VectRet

  const GLOBAL_VARIABLE_TRAP_ADDR: Addr := 0xfeedfacefeedface

  /** What is remembered of the trap that a thread is being processed for. */
  datatype Saved = Saved(kind: TrapKind, addr: Addr)

  datatype Result = Continue | Done | Error

  /** What has happened, as far as it can be seen from outside. */
  datatype Log =
    | Removed(pid: Pid, addr: Addr)
    | Acquired(pid: Pid)
    | Entered(pid: Pid)
    | Released(pid: Pid)
    | Exited(pid: Pid)
    | Cleared

  /** `running` are the threads that execute the generated code. */
  datatype State = State(
    activeTraps: map<Addr, TrapKind>, threadTrapState: map<Pid, Saved>, count: nat, running: set<Pid>, log: seq<Log>)

  /** What a thread can stop for, with what decides the outcome besides the debugger's own state. */
  datatype Event =
    | Breakpoint(pid: Pid, addr: Addr, blocking: bool, located: bool, interrupted: bool)
    | Fault(pid: Pid)
    | Exit(pid: Pid)
    | RemoveTraps

  predicate CanProcess(s: State, pid: Pid)
  {
    |s.threadTrapState| == 0 || pid in s.threadTrapState
  }

  /** After the trap was removed, for a trap at a function's entry or return. */
  function AfterFunction(s: State, kind: TrapKind, pid: Pid, addr: Addr, located: bool): State
  {
    if !located then s
    else
      var acquired := s.(threadTrapState := s.threadTrapState[pid := Saved(kind, addr)], log := s.log + [Acquired(pid)]);
      if kind == VectEntryRet then acquired
      else acquired.(running := s.running + {pid}, log := acquired.log + [Entered(pid)])
  }

  /** After the trap was removed, for the trap at the end of the generated code. */
  function AfterJitCode(s: State, pid: Pid): State
  {
    if pid !in s.threadTrapState then s
    else
      s.(threadTrapState := s.threadTrapState - {pid}, running := s.running - {pid}, count := s.count + 1,
         log := s.log + [Released(pid)])
  }

  function Next(s: State, e: Event): State
  {
    match e
    case Breakpoint(pid, addr, blocking, located, _) =>
      if addr !in s.activeTraps || !blocking || !CanProcess(s, pid) then s
      else
        var removed := s.(activeTraps := s.activeTraps - {addr}, log := s.log + [Removed(pid, addr)]);
        if s.activeTraps[addr] == JitCodeRet then AfterJitCode(removed, pid)
        else AfterFunction(removed, s.activeTraps[addr], pid, addr, located)
    case Fault(pid) =>
      if pid !in s.threadTrapState then s
      else s.(threadTrapState := s.threadTrapState - {pid}, running := s.running - {pid}, log := s.log + [Released(pid)])
    case Exit(pid) => s.(running := s.running - {pid}, log := s.log + [Exited(pid)])
    case RemoveTraps =>
      s.(activeTraps := map a | a in s.activeTraps && s.activeTraps[a] == JitCodeRet :: s.activeTraps[a], log := s.log + [Cleared])
  }

  function Run(s: State, events: seq<Event>): State
    decreases |events|
  {
    if events == [] then s else Run(Next(s, events[0]), events[1..])
  }

  /** Before the target continues: traps are in place, and no thread has stopped yet. */
  predicate Initial(s: State)
  {
    s.threadTrapState == map[] && s.running == {} && s.log == [] && s.count == 0
  }

  // ----- safety

  /** Whoever acquired the probe still holds it, or has released it. */
  ghost predicate HeldOrReleased(s: State)
  {
    forall i :: 0 <= i < |s.log| && s.log[i].Acquired? && s.log[i].pid !in s.threadTrapState ==>
      exists k :: i < k < |s.log| && s.log[k] == Released(s.log[i].pid)
  }

  /** Between two threads' acquisitions the first one releases the probe. */
  ghost predicate OneAtATime(log: seq<Log>)
  {
    forall i, j :: 0 <= i < j < |log| && log[i].Acquired? && (log[j].Acquired? || log[j].Entered?) && log[i].pid != log[j].pid ==>
      exists k :: i < k < j && log[k] == Released(log[i].pid)
  }

  /** A trap that has been removed is not there any more, and was removed once. */
  ghost predicate RemovedOnce(s: State)
  {
    && (forall i :: 0 <= i < |s.log| && s.log[i].Removed? ==> s.log[i].addr !in s.activeTraps)
    && (forall i, j :: 0 <= i < j < |s.log| && s.log[i].Removed? && s.log[j].Removed? ==> s.log[i].addr != s.log[j].addr)
  }

  ghost predicate Exclusive(s: State)
  {
    |s.threadTrapState| <= 1 && s.running <= s.threadTrapState.Keys
  }

  ghost predicate Safe(s: State)
  {
    Exclusive(s) && HeldOrReleased(s) && OneAtATime(s.log) && RemovedOnce(s)
  }

  lemma OneKey<V>(m: map<Pid, V>, p: Pid, q: Pid)
    requires |m| <= 1 && p in m && q in m
    ensures p == q
  {
    if p != q {
      assert {p, q} <= m.Keys;
      Larger({p, q}, m.Keys);
    }
  }

  lemma {:induction false} Larger(s: set<Pid>, t: set<Pid>)
    requires s <= t
    ensures |s| <= |t|
  {
    assert t == s + (t - s);
  }

  lemma FewerKeys<V>(m: map<Pid, V>, p: Pid)
    ensures |m - {p}| <= |m|
  {
    Larger((m - {p}).Keys, m.Keys);
  }

  lemma OneMoreLog(log: seq<Log>, entry: Log)
    requires OneAtATime(log)
    requires entry.Acquired? || entry.Entered? ==>
      forall i :: 0 <= i < |log| && log[i].Acquired? && log[i].pid != entry.pid ==>
        exists k :: i < k < |log| && log[k] == Released(log[i].pid)
    ensures OneAtATime(log + [entry])
  {
    var longer := log + [entry];
    forall i, j | 0 <= i < j < |longer| && longer[i].Acquired? && (longer[j].Acquired? || longer[j].Entered?) && longer[i].pid != longer[j].pid
      ensures exists k :: i < k < j && longer[k] == Released(longer[i].pid)
    {
      assert longer[i] == log[i];
      if j < |log| {
        assert longer[j] == log[j];
        var k :| i < k < j && log[k] == Released(log[i].pid);
        assert longer[k] == Released(longer[i].pid);
      } else {
        var k :| i < k < |log| && log[k] == Released(log[i].pid);
        assert longer[k] == Released(longer[i].pid);
      }
    }
  }

  /** Only the holder of the probe, or anyone while it is free, is let through. */
  lemma OthersReleased(s: State, pid: Pid)
    requires Safe(s) && CanProcess(s, pid)
    ensures forall i :: 0 <= i < |s.log| && s.log[i].Acquired? && s.log[i].pid != pid ==>
              exists k :: i < k < |s.log| && s.log[k] == Released(s.log[i].pid)
  {
    forall i | 0 <= i < |s.log| && s.log[i].Acquired? && s.log[i].pid != pid
      ensures exists k :: i < k < |s.log| && s.log[k] == Released(s.log[i].pid)
    {
      if s.log[i].pid in s.threadTrapState {
        OneKey(s.threadTrapState, pid, s.log[i].pid);
      }
    }
  }

  lemma HeldLonger(s: State, t: State, entry: Log)
    requires HeldOrReleased(s) && t.log == s.log + [entry]
    requires entry.Acquired? ==> entry.pid in t.threadTrapState
    requires forall p :: p in s.threadTrapState && p !in t.threadTrapState ==> entry == Released(p)
    ensures HeldOrReleased(t)
  {
    forall i | 0 <= i < |t.log| && t.log[i].Acquired? && t.log[i].pid !in t.threadTrapState
      ensures exists k :: i < k < |t.log| && t.log[k] == Released(t.log[i].pid)
    {
      assert i < |s.log| && t.log[i] == s.log[i];
      if s.log[i].pid in s.threadTrapState {
        assert t.log[|s.log|] == Released(t.log[i].pid);
      } else {
        var k :| i < k < |s.log| && s.log[k] == Released(s.log[i].pid);
        assert t.log[k] == Released(t.log[i].pid);
      }
    }
  }

  lemma RemovedStays(s: State, t: State, entry: Log)
    requires RemovedOnce(s) && t.log == s.log + [entry] && t.activeTraps.Keys <= s.activeTraps.Keys
    requires entry.Removed? ==> entry.addr in s.activeTraps && entry.addr !in t.activeTraps
    ensures RemovedOnce(t)
  {
  }

  lemma TrapRemoved(s: State, pid: Pid, addr: Addr)
    requires Safe(s) && addr in s.activeTraps
    ensures Safe(s.(activeTraps := s.activeTraps - {addr}, log := s.log + [Removed(pid, addr)]))
  {
    hide OneAtATime, HeldOrReleased, RemovedOnce;
    var t := s.(activeTraps := s.activeTraps - {addr}, log := s.log + [Removed(pid, addr)]);
    OneMoreLog(s.log, Removed(pid, addr));
    HeldLonger(s, t, Removed(pid, addr));
    RemovedStays(s, t, Removed(pid, addr));
  }

  lemma ProbeAcquired(s: State, pid: Pid, saved: Saved)
    requires Safe(s) && CanProcess(s, pid)
    ensures Safe(s.(threadTrapState := s.threadTrapState[pid := saved], log := s.log + [Acquired(pid)]))
  {
    hide OneAtATime, HeldOrReleased, RemovedOnce;
    var t := s.(threadTrapState := s.threadTrapState[pid := saved], log := s.log + [Acquired(pid)]);
    OthersReleased(s, pid);
    OneMoreLog(s.log, Acquired(pid));
    HeldLonger(s, t, Acquired(pid));
    RemovedStays(s, t, Acquired(pid));
    OnlyHolder(s.threadTrapState, pid, saved);
  }

  lemma OnlyHolder(m: map<Pid, Saved>, pid: Pid, saved: Saved)
    requires |m| <= 1 && (|m| == 0 || pid in m)
    ensures |m[pid := saved]| <= 1
  {
    if pid in m {
      assert m[pid := saved].Keys == m.Keys;
    }
  }

  lemma CodeEntered(s: State, pid: Pid)
    requires Safe(s) && pid in s.threadTrapState
    ensures Safe(s.(running := s.running + {pid}, log := s.log + [Entered(pid)]))
  {
    hide OneAtATime, HeldOrReleased, RemovedOnce;
    var t := s.(running := s.running + {pid}, log := s.log + [Entered(pid)]);
    OthersReleased(s, pid);
    OneMoreLog(s.log, Entered(pid));
    HeldLonger(s, t, Entered(pid));
    RemovedStays(s, t, Entered(pid));
  }

  lemma ProbeReleased(s: State, pid: Pid, count: nat)
    requires Safe(s)
    ensures Safe(s.(threadTrapState := s.threadTrapState - {pid}, running := s.running - {pid}, count := count, log := s.log + [Released(pid)]))
  {
    hide OneAtATime, HeldOrReleased, RemovedOnce;
    var t := s.(threadTrapState := s.threadTrapState - {pid}, running := s.running - {pid}, count := count, log := s.log + [Released(pid)]);
    OneMoreLog(s.log, Released(pid));
    HeldLonger(s, t, Released(pid));
    RemovedStays(s, t, Released(pid));
    FewerKeys(s.threadTrapState, pid);
  }

  lemma NextSafe(s: State, e: Event)
    requires Safe(s)
    ensures Safe(Next(s, e))
  {
    hide OneAtATime, HeldOrReleased, RemovedOnce, Exclusive;
    match e
    case Breakpoint(pid, addr, blocking, located, _) =>
      if addr in s.activeTraps && blocking && CanProcess(s, pid) {
        TrapRemoved(s, pid, addr);
        var removed := s.(activeTraps := s.activeTraps - {addr}, log := s.log + [Removed(pid, addr)]);
        var kind := s.activeTraps[addr];
        if kind == JitCodeRet {
          ProbeReleased(removed, pid, removed.count + 1);
        } else if located {
          ProbeAcquired(removed, pid, Saved(kind, addr));
          CodeEntered(removed.(threadTrapState := removed.threadTrapState[pid := Saved(kind, addr)], log := removed.log + [Acquired(pid)]), pid);
        }
      }
    case Fault(pid) =>
      ProbeReleased(s, pid, s.count);
    case Exit(pid) =>
      Noted(s, Next(s, e), Exited(pid));
    case RemoveTraps =>
      Noted(s, Next(s, e), Cleared);
  }

  lemma Noted(s: State, t: State, entry: Log)
    requires Safe(s) && t.log == s.log + [entry] && t.threadTrapState == s.threadTrapState
    requires entry.Exited? || entry.Cleared?
    requires t.activeTraps.Keys <= s.activeTraps.Keys && t.running <= s.running
    ensures Safe(t)
  {
    hide OneAtATime, HeldOrReleased, RemovedOnce;
    OneMoreLog(s.log, entry);
    HeldLonger(s, t, entry);
    RemovedStays(s, t, entry);
  }

  /** Whatever the threads do, no more than one thread ever runs the generated code at a time. */
  lemma {:induction false} RunSafe(s: State, events: seq<Event>)
    requires Safe(s)
    ensures Safe(Run(s, events))
    decreases |events|
  {
    hide Safe, Next;
    if events != [] {
      NextSafe(s, events[0]);
      RunSafe(Next(s, events[0]), events[1..]);
    }
  }

  /**
   Before anything else, the main thread may be sent to measure a global variable. It is safe exactly
   if no other thread is being processed.
   */
  function SendGlobal(s: State, tracee: Pid): State
  {
    var saved := if tracee in s.threadTrapState then s.threadTrapState[tracee] else Saved(JitCodeRet, GLOBAL_VARIABLE_TRAP_ADDR);
    s.(threadTrapState := s.threadTrapState[tracee := saved], running := s.running + {tracee},
       log := s.log + [Acquired(tracee)] + [Entered(tracee)])
  }

  lemma GlobalSafeExactly(s: State, tracee: Pid)
    requires Safe(s)
    ensures Safe(SendGlobal(s, tracee)) <==> CanProcess(s, tracee)
  {
    hide OneAtATime, HeldOrReleased, RemovedOnce;
    if CanProcess(s, tracee) {
      var saved := if tracee in s.threadTrapState then s.threadTrapState[tracee] else Saved(JitCodeRet, GLOBAL_VARIABLE_TRAP_ADDR);
      ProbeAcquired(s, tracee, saved);
      CodeEntered(s.(threadTrapState := s.threadTrapState[tracee := saved], log := s.log + [Acquired(tracee)]), tracee);
    } else {
      var after := SendGlobal(s, tracee).threadTrapState;
      var p :| p in s.threadTrapState;
      if |after| <= 1 {
        OneKey(after, p, tracee);
      }
    }
  }

  // ----- what has happened decides what is going on

  /** The thread that acquired the probe has not released it since. */
  ghost predicate Holds(log: seq<Log>, p: Pid)
  {
    log != [] &&
    var before, last := log[..|log| - 1], log[|log| - 1];
    last == Acquired(p) || (last != Released(p) && Holds(before, p))
  }

  /** The thread that was sent to the generated code has neither come back nor exited since. */
  ghost predicate InCode(log: seq<Log>, p: Pid)
  {
    log != [] &&
    var before, last := log[..|log| - 1], log[|log| - 1];
    last == Entered(p) || (last != Released(p) && last != Exited(p) && InCode(before, p))
  }

  ghost predicate WasRemoved(log: seq<Log>, a: Addr)
  {
    exists i :: 0 <= i < |log| && log[i].Removed? && log[i].addr == a
  }

  /** Of the traps put in place at first, those that no thread has used up, and at the end only those of the generated code. */
  ghost predicate InPlace(traps: map<Addr, TrapKind>, log: seq<Log>, a: Addr)
  {
    a in traps && !WasRemoved(log, a) && (traps[a] == JitCodeRet || Cleared !in log)
  }

  /** The last thing that happened is that the thread came to the trap. */
  ghost predicate JustRemoved(log: seq<Log>, p: Pid)
  {
    log != [] && log[|log| - 1].Removed? && log[|log| - 1].pid == p
  }

  /** How often a thread came back from the generated code. */
  ghost function Returns(traps: map<Addr, TrapKind>, log: seq<Log>): (n: nat)
  {
    if log == [] then 0
    else
      var before, last := log[..|log| - 1], log[|log| - 1];
      Returns(traps, before) +
      if last.Released? && JustRemoved(before, last.pid) && before[|before| - 1].addr in traps && traps[before[|before| - 1].addr] == JitCodeRet
      then 1 else 0
  }

  /** The trap for which the thread last acquired the probe. */
  ghost function AcquiredAt(traps: map<Addr, TrapKind>, log: seq<Log>, p: Pid): (s: Saved)
    requires Holds(log, p)
  {
    var before, last := log[..|log| - 1], log[|log| - 1];
    if last == Acquired(p) then
      if JustRemoved(before, p) && before[|before| - 1].addr in traps then
        Saved(traps[before[|before| - 1].addr], before[|before| - 1].addr)
      else Saved(JitCodeRet, GLOBAL_VARIABLE_TRAP_ADDR)
    else AcquiredAt(traps, before, p)
  }

  /** All that the debugger keeps follows from the traps put in place at first and from what has happened. */
  ghost predicate Told(traps: map<Addr, TrapKind>, s: State)
  {
    && (forall a :: a in s.activeTraps <==> InPlace(traps, s.log, a))
    && (forall a :: a in s.activeTraps && a in traps ==> s.activeTraps[a] == traps[a])
    && (forall p :: p in s.threadTrapState <==> Holds(s.log, p))
    && (forall p :: p in s.threadTrapState && Holds(s.log, p) ==> s.threadTrapState[p] == AcquiredAt(traps, s.log, p))
    && (forall p :: p in s.running <==> InCode(s.log, p))
    && s.count == Returns(traps, s.log)
  }

  ghost predicate Probes(kind: TrapKind)
  {
    kind == VectEntry || kind == VectRet
  }

  /** The thread came to a trap of a function at which it is to be measured, and has acquired the probe. */
  ghost predicate AboutToEnter(traps: map<Addr, TrapKind>, log: seq<Log>, p: Pid)
  {
    && |log| >= 2 && log[|log| - 1] == Acquired(p)
    && log[|log| - 2].Removed? && log[|log| - 2].pid == p
    && log[|log| - 2].addr in traps && Probes(traps[log[|log| - 2].addr])
  }

  /** The holder came to the trap at the end of the generated code. */
  ghost predicate AboutToRelease(traps: map<Addr, TrapKind>, log: seq<Log>, p: Pid)
  {
    JustRemoved(log, p) && log[|log| - 1].addr in traps && traps[log[|log| - 1].addr] == JitCodeRet && Holds(log, p)
  }

  /** What may happen next. */
  ghost predicate Permitted(traps: map<Addr, TrapKind>, log: seq<Log>, next: Log)
  {
    && (forall p :: AboutToEnter(traps, log, p) ==> next == Entered(p))
    && (forall p :: AboutToRelease(traps, log, p) ==> next == Released(p))
    && match next
       case Removed(p, a) => InPlace(traps, log, a) && forall q :: Holds(log, q) ==> q == p
       case Acquired(p) =>
         JustRemoved(log, p) && log[|log| - 1].addr in traps && traps[log[|log| - 1].addr] != JitCodeRet
       case Entered(p) => AboutToEnter(traps, log, p)
       case Released(p) => Holds(log, p)
       case Exited(_) => true
       case Cleared => true
  }

  /** Each thing that has happened since `start` was permitted, and nothing is about to happen. */
  ghost predicate Proper(traps: map<Addr, TrapKind>, start: nat, log: seq<Log>)
  {
    && (forall i :: start <= i < |log| ==> Permitted(traps, log[..i], log[i]))
    && (forall p :: !AboutToEnter(traps, log, p) && !AboutToRelease(traps, log, p))
  }

  /** Told and proper, so far. */
  ghost predicate Accounted(traps: map<Addr, TrapKind>, start: nat, s: State)
  {
    Told(traps, s) && Proper(traps, start, s.log)
  }

  lemma Snoc(log: seq<Log>, next: Log)
    ensures (log + [next])[..|log + [next]| - 1] == log && (log + [next])[|log + [next]| - 1] == next
    ensures forall i :: 0 <= i <= |log| ==> (log + [next])[..i] == log[..i]
  {
  }
  lemma RemovedFurther(log: seq<Log>, next: Log, a: Addr)
    ensures WasRemoved(log + [next], a) <==> WasRemoved(log, a) || (next.Removed? && next.addr == a)
  {
    var longer := log + [next];
    if i :| 0 <= i < |log| && log[i].Removed? && log[i].addr == a {
      assert longer[i] == log[i];
    }
    assert longer[|log|] == next;
  }

  lemma PlaceFurther(traps: map<Addr, TrapKind>, log: seq<Log>, next: Log, a: Addr)
    ensures InPlace(traps, log + [next], a) <==>
              InPlace(traps, log, a) && !(next.Removed? && next.addr == a) && (next == Cleared ==> traps[a] == JitCodeRet)
  {
    hide WasRemoved;
    RemovedFurther(log, next, a);
    assert Cleared in log + [next] <==> Cleared in log || next == Cleared;
  }

  /** The parts of `Told`: the traps, and the threads. */
  ghost predicate TrapsTold(traps: map<Addr, TrapKind>, s: State)
  {
    && (forall a :: a in s.activeTraps <==> InPlace(traps, s.log, a))
    && (forall a :: a in s.activeTraps && a in traps ==> s.activeTraps[a] == traps[a])
  }

  lemma TrapsFurther(traps: map<Addr, TrapKind>, s: State, t: State, next: Log)
    requires TrapsTold(traps, s) && t.log == s.log + [next] && t.activeTraps.Keys <= s.activeTraps.Keys
    requires forall a :: a in t.activeTraps ==> t.activeTraps[a] == s.activeTraps[a]
    requires forall a :: a in s.activeTraps ==>
      (a in t.activeTraps <==> !(next.Removed? && next.addr == a) && (next == Cleared ==> s.activeTraps[a] == JitCodeRet))
    ensures TrapsTold(traps, t)
  {
    hide InPlace;
    forall a
      ensures a in t.activeTraps <==> InPlace(traps, t.log, a)
    {
      PlaceFurther(traps, s.log, next, a);
      InPlaceIsTrap(traps, s.log, a);
    }
  }

  lemma InPlaceIsTrap(traps: map<Addr, TrapKind>, log: seq<Log>, a: Addr)
    ensures InPlace(traps, log, a) ==> a in traps
  {
  }

  lemma RemovedTold(traps: map<Addr, TrapKind>, s: State, pid: Pid, addr: Addr)
    requires Told(traps, s)
    ensures Told(traps, s.(activeTraps := s.activeTraps - {addr}, log := s.log + [Removed(pid, addr)]))
  {
    hide InPlace;
    var t := s.(activeTraps := s.activeTraps - {addr}, log := s.log + [Removed(pid, addr)]);
    Snoc(s.log, Removed(pid, addr));
    TrapsFurther(traps, s, t, Removed(pid, addr));
  }

  lemma AcquiredTold(traps: map<Addr, TrapKind>, s: State, pid: Pid, saved: Saved)
    requires Told(traps, s)
    requires JustRemoved(s.log, pid) && saved.addr == s.log[|s.log| - 1].addr && saved.addr in traps && saved.kind == traps[saved.addr]
    ensures Told(traps, s.(threadTrapState := s.threadTrapState[pid := saved], log := s.log + [Acquired(pid)]))
  {
    hide InPlace;
    var t := s.(threadTrapState := s.threadTrapState[pid := saved], log := s.log + [Acquired(pid)]);
    Snoc(s.log, Acquired(pid));
    TrapsFurther(traps, s, t, Acquired(pid));
  }

  lemma EnteredTold(traps: map<Addr, TrapKind>, s: State, pid: Pid)
    requires Told(traps, s)
    ensures Told(traps, s.(running := s.running + {pid}, log := s.log + [Entered(pid)]))
  {
    hide InPlace;
    var t := s.(running := s.running + {pid}, log := s.log + [Entered(pid)]);
    Snoc(s.log, Entered(pid));
    TrapsFurther(traps, s, t, Entered(pid));
  }

  lemma ReturnsFurther(traps: map<Addr, TrapKind>, log: seq<Log>, pid: Pid)
    requires Holds(log, pid)
    ensures Returns(traps, log + [Released(pid)]) == Returns(traps, log) + if AboutToRelease(traps, log, pid) then 1 else 0
  {
    Snoc(log, Released(pid));
  }

  lemma ReleasedTold(traps: map<Addr, TrapKind>, s: State, pid: Pid, count: nat)
    requires Told(traps, s) && Holds(s.log, pid)
    requires count == s.count + if AboutToRelease(traps, s.log, pid) then 1 else 0
    ensures Told(traps, s.(threadTrapState := s.threadTrapState - {pid}, running := s.running - {pid}, count := count, log := s.log + [Released(pid)]))
  {
    hide InPlace, Returns, AboutToRelease;
    var t := s.(threadTrapState := s.threadTrapState - {pid}, running := s.running - {pid}, count := count, log := s.log + [Released(pid)]);
    Snoc(s.log, Released(pid));
    ReturnsFurther(traps, s.log, pid);
    TrapsFurther(traps, s, t, Released(pid));
  }

  lemma ExitedTold(traps: map<Addr, TrapKind>, s: State, pid: Pid)
    requires Told(traps, s)
    ensures Told(traps, Next(s, Exit(pid)))
  {
    hide InPlace;
    Snoc(s.log, Exited(pid));
    TrapsFurther(traps, s, Next(s, Exit(pid)), Exited(pid));
  }

  lemma ClearedTold(traps: map<Addr, TrapKind>, s: State)
    requires Told(traps, s)
    ensures Told(traps, Next(s, RemoveTraps))
  {
    hide InPlace;
    Snoc(s.log, Cleared);
    TrapsFurther(traps, s, Next(s, RemoveTraps), Cleared);
  }

  ghost predicate ProperSoFar(traps: map<Addr, TrapKind>, start: nat, log: seq<Log>)
  {
    forall i :: start <= i < |log| ==> Permitted(traps, log[..i], log[i])
  }

  lemma OneMore(traps: map<Addr, TrapKind>, start: nat, log: seq<Log>, next: Log)
    requires ProperSoFar(traps, start, log) && Permitted(traps, log, next)
    ensures ProperSoFar(traps, start, log + [next])
  {
    hide Permitted;
    var longer := log + [next];
    Snoc(log, next);
    forall i | start <= i < |longer|
      ensures Permitted(traps, longer[..i], longer[i])
    {
      if i < |log| {
        assert longer[i] == log[i] && longer[..i] == log[..i];
      }
    }
  }

  /** Before anything has happened, or once the main thread has been sent to measure a global variable. */
  ghost predicate Ready(s: State)
  {
    Initial(s) || exists u, tracee :: Initial(u) && s == SendGlobal(u, tracee)
  }

  lemma ReadyAccounted(s: State)
    requires Ready(s)
    ensures Safe(s) && Accounted(s.activeTraps, |s.log|, s) && s.count == 0
  {
    if !Initial(s) {
      var u, tracee :| Initial(u) && s == SendGlobal(u, tracee);
      GlobalSafeExactly(u, tracee);
      GlobalAccounted(u, tracee);
    }
  }

  lemma GlobalAccounted(u: State, tracee: Pid)
    requires Initial(u)
    ensures Accounted(u.activeTraps, |SendGlobal(u, tracee).log|, SendGlobal(u, tracee))
  {
    hide InPlace;
    var saved := Saved(JitCodeRet, GLOBAL_VARIABLE_TRAP_ADDR);
    var acquired := u.(threadTrapState := u.threadTrapState[tracee := saved], log := u.log + [Acquired(tracee)]);
    InitiallyTold(u);
    Snoc(u.log, Acquired(tracee));
    TrapsFurther(u.activeTraps, u, acquired, Acquired(tracee));
    assert Told(u.activeTraps, acquired);
    EnteredTold(u.activeTraps, acquired, tracee);
    NotAbout(u.activeTraps, acquired.log + [Entered(tracee)]);
  }

  lemma InitiallyTold(u: State)
    requires Initial(u)
    ensures Told(u.activeTraps, u)
  {
  }

  /** The thread comes to a trap that it may be processed for. */
  lemma TrapAccounted(traps: map<Addr, TrapKind>, start: nat, s: State, pid: Pid, addr: Addr)
    requires Accounted(traps, start, s) && addr in s.activeTraps && CanProcess(s, pid) && |s.threadTrapState| <= 1
    ensures var t := s.(activeTraps := s.activeTraps - {addr}, log := s.log + [Removed(pid, addr)]);
            Told(traps, t) && ProperSoFar(traps, start, t.log) && JustRemoved(t.log, pid) && addr in traps
            && traps[addr] == s.activeTraps[addr] && forall p :: Holds(t.log, p) <==> Holds(s.log, p)
  {
    hide Told;
    RemovedTold(traps, s, pid, addr);
    Snoc(s.log, Removed(pid, addr));
    OthersDoNotHold(traps, s, pid, addr);
    OneMore(traps, start, s.log, Removed(pid, addr));
  }

  lemma OthersDoNotHold(traps: map<Addr, TrapKind>, s: State, pid: Pid, addr: Addr)
    requires Told(traps, s) && CanProcess(s, pid) && |s.threadTrapState| <= 1 && addr in s.activeTraps
    ensures forall q :: Holds(s.log, q) ==> q == pid
    ensures InPlace(traps, s.log, addr) && traps[addr] == s.activeTraps[addr]
  {
    forall q | Holds(s.log, q)
      ensures q == pid
    {
      assert q in s.threadTrapState;
      OneKey(s.threadTrapState, pid, q);
    }
  }

  lemma NotAbout(traps: map<Addr, TrapKind>, log: seq<Log>)
    requires log != [] && !log[|log| - 1].Removed? && !log[|log| - 1].Acquired?
    ensures forall p :: !AboutToEnter(traps, log, p) && !AboutToRelease(traps, log, p)
  {
  }

  lemma JitAccounted(traps: map<Addr, TrapKind>, start: nat, s: State, pid: Pid)
    requires Told(traps, s) && ProperSoFar(traps, start, s.log)
    requires JustRemoved(s.log, pid) && s.log[|s.log| - 1].addr in traps && traps[s.log[|s.log| - 1].addr] == JitCodeRet
    ensures Accounted(traps, start, AfterJitCode(s, pid))
  {
    hide InPlace, Returns;
    if pid in s.threadTrapState {
      ReleasedTold(traps, s, pid, s.count + 1);
      OneMore(traps, start, s.log, Released(pid));
      NotAbout(traps, s.log + [Released(pid)]);
    }
  }

  lemma FunctionAccounted(traps: map<Addr, TrapKind>, start: nat, s: State, pid: Pid, addr: Addr, located: bool)
    requires Told(traps, s) && ProperSoFar(traps, start, s.log)
    requires JustRemoved(s.log, pid) && s.log[|s.log| - 1].addr == addr && addr in traps && traps[addr] != JitCodeRet
    ensures Accounted(traps, start, AfterFunction(s, traps[addr], pid, addr, located))
  {
    hide Told, InPlace;
    if located {
      var acquired := s.(threadTrapState := s.threadTrapState[pid := Saved(traps[addr], addr)], log := s.log + [Acquired(pid)]);
      AcquiredTold(traps, s, pid, Saved(traps[addr], addr));
      OneMore(traps, start, s.log, Acquired(pid));
      if traps[addr] != VectEntryRet {
        assert Probes(traps[addr]);
        assert AboutToEnter(traps, acquired.log, pid);
        EnteredTold(traps, acquired, pid);
        OneMore(traps, start, acquired.log, Entered(pid));
        NotAbout(traps, acquired.log + [Entered(pid)]);
      }
    }
  }

  /** Every step is accounted for: what is kept follows from what has happened, and it was permitted. */
  lemma NextAccounted(traps: map<Addr, TrapKind>, start: nat, s: State, e: Event)
    requires Accounted(traps, start, s) && Safe(s)
    ensures Accounted(traps, start, Next(s, e))
  {
    hide Told, Permitted, Safe, OneAtATime, HeldOrReleased, RemovedOnce, AfterFunction, AfterJitCode, Returns, InPlace;
    match e
    case Breakpoint(pid, addr, blocking, located, _) =>
      if addr in s.activeTraps && blocking && CanProcess(s, pid) {
        HolderIsOne(s);
        TrapAccounted(traps, start, s, pid, addr);
        var removed := s.(activeTraps := s.activeTraps - {addr}, log := s.log + [Removed(pid, addr)]);
        if s.activeTraps[addr] == JitCodeRet {
          JitAccounted(traps, start, removed, pid);
        } else {
          FunctionAccounted(traps, start, removed, pid, addr, located);
        }
      }
    case Fault(pid) =>
      FaultAccounted(traps, start, s, pid);
    case Exit(pid) =>
      ExitedTold(traps, s, pid);
      AnyTime(traps, start, s.log, Exited(pid));
    case RemoveTraps =>
      ClearedTold(traps, s);
      AnyTime(traps, start, s.log, Cleared);
  }

  lemma HolderIsOne(s: State)
    requires Safe(s)
    ensures |s.threadTrapState| <= 1
  {
  }

  lemma AnyTime(traps: map<Addr, TrapKind>, start: nat, log: seq<Log>, next: Log)
    requires Proper(traps, start, log) && (next.Exited? || next == Cleared)
    ensures Proper(traps, start, log + [next])
  {
    hide InPlace, Holds, AboutToEnter, AboutToRelease;
    OneMore(traps, start, log, next);
    NotAbout(traps, log + [next]);
  }

  lemma FaultAccounted(traps: map<Addr, TrapKind>, start: nat, s: State, pid: Pid)
    requires Accounted(traps, start, s)
    ensures Accounted(traps, start, Next(s, Fault(pid)))
  {
    hide InPlace, Returns;
    if pid in s.threadTrapState {
      ReleasedTold(traps, s, pid, s.count);
      OneMore(traps, start, s.log, Released(pid));
      NotAbout(traps, s.log + [Released(pid)]);
    }
  }

  /**
   Over any run: a thread enters the generated code exactly after it has acquired the probe at a trap at
   which it is to be measured, so never at the entry that only belongs to a return.
   */
  lemma EntersExactly(traps: map<Addr, TrapKind>, start: nat, log: seq<Log>, i: nat, p: Pid)
    requires Proper(traps, start, log) && start <= i <= |log|
    ensures i < |log| && log[i] == Entered(p) <==>
              i >= 2 && log[i - 1] == Acquired(p) && log[i - 2].Removed? && log[i - 2].pid == p && log[i - 2].addr in traps
              && (traps[log[i - 2].addr] == VectEntry || traps[log[i - 2].addr] == VectRet)
  {
    hide InPlace, Holds, AboutToRelease;
    if i < |log| {
      assert Permitted(traps, log[..i], log[i]);
      assert log[i] == Entered(p) <==> AboutToEnter(traps, log[..i], p);
    } else {
      assert !AboutToEnter(traps, log, p);
    }
  }

  /** A thread that acquired the probe at the entry for a return is sent to the generated code only once it has come to another trap. */
  lemma EntersOnReturn(traps: map<Addr, TrapKind>, start: nat, log: seq<Log>, i: nat, j: nat)
    requires Proper(traps, start, log) && start <= i < j < |log| && i >= 1
    requires log[i].Acquired? && log[i - 1].Removed? && log[i - 1].addr in traps && traps[log[i - 1].addr] == VectEntryRet
    requires log[j] == Entered(log[i].pid)
    ensures exists k :: i < k < j && log[k].Removed? && log[k].pid == log[i].pid && log[k].addr in traps
              && (traps[log[k].addr] == VectEntry || traps[log[k].addr] == VectRet)
  {
    hide Proper;
    EntersExactly(traps, start, log, j, log[i].pid);
    assert log[j - 2].Removed?;
  }

  /** Who acquires or releases the probe, and at which trap. */
  lemma AcquiresAndReleases(traps: map<Addr, TrapKind>, start: nat, log: seq<Log>, i: nat, p: Pid)
    requires Proper(traps, start, log) && start <= i < |log|
    ensures log[i] == Acquired(p) ==>
              i >= 1 && log[i - 1].Removed? && log[i - 1].pid == p && log[i - 1].addr in traps && traps[log[i - 1].addr] != JitCodeRet
    ensures log[i].Removed? ==> InPlace(traps, log[..i], log[i].addr) && forall q :: Holds(log[..i], q) ==> q == log[i].pid
    ensures log[i] == Released(p) ==> Holds(log[..i], p)
    ensures log[i].Removed? && log[i].pid == p && log[i].addr in traps && traps[log[i].addr] == JitCodeRet ==>
              (Holds(log[..i], p) <==> i + 1 < |log| && log[i + 1] == Released(p))
  {
    hide InPlace, AboutToEnter;
    assert Permitted(traps, log[..i], log[i]);
    if log[i].Removed? && log[i].pid == p && log[i].addr in traps && traps[log[i].addr] == JitCodeRet {
      ReleasesNext(traps, start, log, i, p);
    }
  }

  /** The holder that comes to the end of the generated code releases the probe there, and nobody else does. */
  lemma ReleasesNext(traps: map<Addr, TrapKind>, start: nat, log: seq<Log>, i: nat, p: Pid)
    requires Proper(traps, start, log) && start <= i < |log|
    requires log[i].Removed? && log[i].pid == p && log[i].addr in traps && traps[log[i].addr] == JitCodeRet
    ensures Holds(log[..i], p) <==> i + 1 < |log| && log[i + 1] == Released(p)
  {
    hide InPlace, AboutToEnter;
    var before, after := log[..i], log[..i + 1];
    assert after == before + [log[i]];
    Snoc(before, log[i]);
    assert Holds(after, p) <==> Holds(before, p);
    assert AboutToRelease(traps, after, p) <==> Holds(before, p);
    if i + 1 < |log| {
      assert Permitted(traps, after, log[i + 1]);
    } else {
      assert after == log;
    }
  }

  lemma LetThrough(s: State, e: Event)
    requires e.Breakpoint? && e.addr in s.activeTraps && e.blocking && CanProcess(s, e.pid)
    ensures s.log + [Removed(e.pid, e.addr)] <= Next(s, e).log
    ensures s.activeTraps[e.addr] != JitCodeRet ==>
              (e.located <==> s.log + [Removed(e.pid, e.addr)] + [Acquired(e.pid)] <= Next(s, e).log)
  {
  }

  lemma IsLetThrough(traps: map<Addr, TrapKind>, s: State, e: Event)
    requires e.Breakpoint? && Told(traps, s) && Safe(s)
    ensures InPlace(traps, s.log, e.addr) && (forall q :: Holds(s.log, q) ==> q == e.pid) <==>
              e.addr in s.activeTraps && CanProcess(s, e.pid)
    ensures e.addr in s.activeTraps ==> e.addr in traps && s.activeTraps[e.addr] == traps[e.addr]
  {
    hide InPlace, Holds, InCode, Returns, AcquiredAt, HeldOrReleased, OneAtATime, RemovedOnce;
    InPlaceIsTrap(traps, s.log, e.addr);
    if e.addr in s.activeTraps {
      if CanProcess(s, e.pid) {
        OthersDoNotHold(traps, s, e.pid, e.addr);
      } else {
        var q :| q in s.threadTrapState;
        assert Holds(s.log, q);
        assert q != e.pid;
        assert !forall p :: Holds(s.log, p) ==> p == e.pid;
      }
    }
  }

  /**
   What each event adds to what has happened: a thread is let through to a trap that is in place, if it is
   waited for and no other thread holds the probe, and it acquires the probe if its objects are located.
   */
  lemma EventsTell(traps: map<Addr, TrapKind>, s: State, e: Event)
    requires Told(traps, s) && Safe(s)
    ensures e.Breakpoint? ==>
              var t, through := Next(s, e), InPlace(traps, s.log, e.addr) && e.blocking && forall q :: Holds(s.log, q) ==> q == e.pid;
              && (!through ==> t == s)
              && (through ==> s.log + [Removed(e.pid, e.addr)] <= t.log)
              && (through && traps[e.addr] != JitCodeRet ==>
                    (e.located <==> s.log + [Removed(e.pid, e.addr)] + [Acquired(e.pid)] <= t.log))
    ensures e.Fault? ==> Next(s, e).log == if Holds(s.log, e.pid) then s.log + [Released(e.pid)] else s.log
    ensures e.Exit? ==> Next(s, e).log == s.log + [Exited(e.pid)]
    ensures e.RemoveTraps? ==> Next(s, e).log == s.log + [Cleared]
  {
    hide InPlace, Holds, InCode, Returns, AcquiredAt, HeldOrReleased, OneAtATime, RemovedOnce;
    if e.Breakpoint? {
      IsLetThrough(traps, s, e);
      if e.addr in s.activeTraps && e.blocking && CanProcess(s, e.pid) {
        LetThrough(s, e);
      }
    }
  }

  /** While a thread holds the probe, nothing that other threads do lets any of them have it, even after the holder has exited. */
  lemma {:induction false} OthersWait(traps: map<Addr, TrapKind>, start: nat, s: State, events: seq<Event>, p: Pid)
    requires Accounted(traps, start, s) && Safe(s) && Holds(s.log, p)
    requires forall i :: 0 <= i < |events| && (events[i].Breakpoint? || events[i].Fault?) ==> events[i].pid != p
    ensures Holds(Run(s, events).log, p) && s.log <= Run(s, events).log
    ensures forall i :: |s.log| <= i < |Run(s, events).log| ==> Run(s, events).log[i].Exited? || Run(s, events).log[i].Cleared?
    decreases |events|
  {
    hide InPlace, InCode, Returns, AcquiredAt, Next, Safe, Told, Proper;
    if events != [] {
      var t := Next(s, events[0]);
      WaitsOne(traps, s, events[0], p);
      NextAccounted(traps, start, s, events[0]);
      NextSafe(s, events[0]);
      OthersWait(traps, start, t, events[1..], p);
    }
  }

  lemma WaitsOne(traps: map<Addr, TrapKind>, s: State, e: Event, p: Pid)
    requires Told(traps, s) && Safe(s) && Holds(s.log, p)
    requires (e.Breakpoint? || e.Fault?) ==> e.pid != p
    ensures var log := Next(s, e).log;
            Holds(log, p) && (log == s.log || (log == s.log + [log[|s.log|]] && (log[|s.log|].Exited? || log[|s.log|].Cleared?)))
  {
    hide InPlace, InCode, Returns, AcquiredAt, Next, HeldOrReleased, OneAtATime, RemovedOnce;
    EventsTell(traps, s, e);
    assert p in s.threadTrapState;
    if e.Fault? && Holds(s.log, e.pid) {
      OneKey(s.threadTrapState, p, e.pid);
    }
    if e.Exit? {
      Snoc(s.log, Exited(e.pid));
    }
    if e.RemoveTraps? {
      Snoc(s.log, Cleared);
    }
  }

  /** Measuring is done: a thread has come back for the first time, or after an interrupt, or a thread has faulted. */
  ghost predicate Finishes(s: State, e: Event)
  {
    e.Fault? || (e.Breakpoint? && Next(s, e).count > s.count && (s.count == 0 || e.interrupted))
  }

  lemma StaysSafe(s: State, e: Event)
    ensures Safe(s) ==> Safe(Next(s, e))
  {
    hide Safe;
    if Safe(s) {
      NextSafe(s, e);
    }
  }

  lemma FinishesWhen(s: State, e: Event)
    ensures e.Fault? ==> Finishes(s, e)
    ensures e.Exit? || e.RemoveTraps? ==> !Finishes(s, e)
    ensures e.Breakpoint? ==>
              (Finishes(s, e) <==>
                e.addr in s.activeTraps && e.blocking && CanProcess(s, e.pid) && s.activeTraps[e.addr] == JitCodeRet
                && e.pid in s.threadTrapState && (s.count == 0 || e.interrupted))
  {
  }

  // ----- the debugger

  class Debugger {
    var activeTraps: map<Addr, TrapKind>
    var threadTrapState: map<Pid, Saved>
    var count: nat
    ghost var running: set<Pid>
    ghost var log: seq<Log>

    constructor (traps: map<Addr, TrapKind>)
      ensures activeTraps == traps && Initial(Now())
    {
      activeTraps, threadTrapState, count := traps, map[], 0;
      running, log := {}, [];
    }

    ghost function Now(): State
      reads this
    {
      State(activeTraps, threadTrapState, count, running, log)
    }

    method CanProcessTrapForThread(pid: Pid) returns (can: bool)
      ensures can == CanProcess(Now(), pid)
    {
      if |threadTrapState| == 0 {
        return true;
      }
      can := pid in threadTrapState;
    }

    /** `processFuncTrap`, once the trap has been removed. */
    method ProcessFuncTrap(kind: TrapKind, addr: Addr, pid: Pid, located: bool) returns (ret: Result)
      requires kind != JitCodeRet
      modifies this
      ensures Now() == AfterFunction(old(Now()), kind, pid, addr, located)
      ensures ret == if located then Continue else Error
    {
      if !located {
        return Error;
      }
      threadTrapState := threadTrapState[pid := Saved(kind, addr)];
      log := log + [Acquired(pid)];
      if kind != VectEntryRet {
        running, log := running + {pid}, log + [Entered(pid)];
      }
      ret := Continue;
    }

    /** `processJitCodeRet`, once the trap has been removed. */
    method ProcessJitCodeRet(pid: Pid, interrupted: bool) returns (ret: Result)
      modifies this
      ensures Now() == AfterJitCode(old(Now()), pid)
      ensures ret == Done <==> pid in old(threadTrapState) && (old(count) == 0 || interrupted)
    {
      ret := Continue;
      if pid in threadTrapState {
        threadTrapState := threadTrapState - {pid};
        running, log := running - {pid}, log + [Released(pid)];
        count := count + 1;
        ret := if count == 1 || interrupted then Done else Continue;
      }
    }

    /** `processTrap`, for a thread that has stopped. */
    method ProcessTrap(e: Event) returns (ret: Result)
      requires !e.RemoveTraps?
      modifies this
      ensures Now() == Next(old(Now()), e)
      ensures ret == Done <==> Finishes(old(Now()), e)
      ensures Safe(old(Now())) ==> Safe(Now())
    {
      hide Safe, AfterFunction, AfterJitCode, Finishes;
      StaysSafe(Now(), e);
      FinishesWhen(Now(), e);
      ret := Continue;
      match e
      case Breakpoint(pid, bpaddr, blocking, located, interrupted) =>
        if bpaddr in activeTraps {
          var kind := activeTraps[bpaddr];
          var can := CanProcessTrapForThread(pid);
          if !blocking || !can {
            return;
          }
          activeTraps := activeTraps - {bpaddr};
          log := log + [Removed(pid, bpaddr)];
          if kind == JitCodeRet {
            ret := ProcessJitCodeRet(pid, interrupted);
          } else {
            ret := ProcessFuncTrap(kind, bpaddr, pid, located);
          }
        }
      case Fault(pid) =>
        if pid in threadTrapState {
          threadTrapState := threadTrapState - {pid};
          running, log := running - {pid}, log + [Released(pid)];
        }
        ret := Done;
      case Exit(pid) =>
        running, log := running - {pid}, log + [Exited(pid)];
      case RemoveTraps =>
    }

    method RemoveAllTraps()
      modifies this
      ensures Now() == Next(old(Now()), RemoveTraps)
      ensures Safe(old(Now())) ==> Safe(Now())
    {
      hide Safe;
      StaysSafe(Now(), RemoveTraps);
      activeTraps := map a | a in activeTraps && activeTraps[a] == JitCodeRet :: activeTraps[a];
      log := log + [Cleared];
    }

    method ProcessGlobal(tracee: Pid)
      modifies this
      ensures Now() == SendGlobal(old(Now()), tracee)
      ensures tracee in threadTrapState && running == old(running) + {tracee} && activeTraps == old(activeTraps)
      ensures threadTrapState == map[tracee := Saved(JitCodeRet, GLOBAL_VARIABLE_TRAP_ADDR)] + old(threadTrapState)
    {
      if tracee !in threadTrapState {
        threadTrapState := threadTrapState[tracee := Saved(JitCodeRet, GLOBAL_VARIABLE_TRAP_ADDR)];
      }
      running, log := running + {tracee}, log + [Acquired(tracee)] + [Entered(tracee)];
    }

    /** The main loop: stops are processed until one says that measuring is done. */
    method ProcessTraps(events: seq<Event>) returns (n: nat)
      requires forall i :: 0 <= i < |events| ==> !events[i].RemoveTraps?
      requires Ready(Now())
      modifies this
      ensures n <= |events| && Now() == Run(old(Now()), events[..n])
      ensures Safe(Now()) && Accounted(old(activeTraps), |old(log)|, Now())
      ensures forall k :: 0 <= k < n - 1 ==> !Finishes(Run(old(Now()), events[..k]), events[k])
      ensures n < |events| ==> n > 0 && Finishes(Run(old(Now()), events[..n - 1]), events[n - 1])
      ensures Returns(old(activeTraps), log) <= 1
    {
      hide Next, Safe, Accounted, Ready, Finishes, Returns;
      ReadyAccounted(Now());
      n := 0;
      var ret := Continue;
      while n < |events| && ret != Done
        invariant n <= |events| && Now() == Run(old(Now()), events[..n])
        invariant Safe(Now()) && Accounted(old(activeTraps), |old(log)|, Now())
        invariant forall k :: 0 <= k < n - 1 ==> !Finishes(Run(old(Now()), events[..k]), events[k])
        invariant ret == Done <==> n > 0 && Finishes(Run(old(Now()), events[..n - 1]), events[n - 1])
        invariant count <= 1 && (ret != Done ==> count == 0)
      {
        NextAccounted(old(activeTraps), |old(log)|, Now(), events[n]);
        NextCount(Now(), events[n]);
        ret := ProcessTrap(events[n]);
        RunFurther(old(Now()), events, n);
        n := n + 1;
      }
      CountTold(old(activeTraps), |old(log)|, Now());
    }
  }

  lemma NextCount(s: State, e: Event)
    ensures s.count <= Next(s, e).count <= s.count + 1
    ensures s.count == 0 && !Finishes(s, e) ==> Next(s, e).count == 0
  {
  }

  lemma CountTold(traps: map<Addr, TrapKind>, start: nat, s: State)
    requires Accounted(traps, start, s)
    ensures s.count == Returns(traps, s.log)
  {
    hide InPlace, Holds, InCode, AcquiredAt, Proper, Returns;
  }

  lemma {:induction false} RunFurther(s: State, events: seq<Event>, n: nat)
    requires n < |events|
    ensures Run(s, events[..n + 1]) == Next(Run(s, events[..n]), events[n])
    decreases n
  {
    hide Next;
    if n > 0 {
      RunFurther(Next(s, events[0]), events[1..], n - 1);
      assert events[..n + 1][1..] == events[1..][..n] && events[..n][1..] == events[1..][..n - 1];
    }
  }
}
