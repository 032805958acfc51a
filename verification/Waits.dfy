/** What becomes of a process that waits, over whole runs: who wakes it, with what, and who never
    wakes again (src/kernel/scheduler/scheduler.c). */
module Waits {
  import opened Bytes
  import opened Wrappers
  import opened Mmu
  import opened Kernel
  import opened TableInvariant
  import opened Steps
  import opened Others
  import opened Runs
  import opened Evolution

  // ---- what a run does to a process ----

  predicate IsScheduled(k: State, pid: int) {
    exists i :: 0 <= i < |k.procs| && k.procs[i].id == pid && k.procs[i].status.Scheduled?
  }

  /** In some state of the run the process can run. */
  ghost predicate EverScheduled(k: State, events: seq<Event>, pid: int)
    requires Ready(k) && RunFresh(k, events)
    decreases |events|
  {
    || IsScheduled(k, pid)
    || (events != [] &&
        (NextKeepsReady(k, events[0]);
         Next(k, events[0]).Ok? && EverScheduled(Next(k, events[0]).value, events[1..], pid)))
  }

  /** The running process exits in this event. */
  predicate ExitsNow(k: State, e: Event) { TrapOf(e).Some? && Exits(TrapOf(e).value) }

  /** At some point of the run process `pid` exits, and its parent then is `parent`. */
  ghost predicate ExitsAsChild(k: State, events: seq<Event>, pid: int, parent: int)
    requires Ready(k) && RunFresh(k, events)
    decreases |events|
  {
    events != [] &&
    (NextKeepsReady(k, events[0]);
     Next(k, events[0]).Ok? &&
     ((ExitsNow(k, events[0]) && k.procs[k.current].id == pid && k.procs[k.current].parent == parent)
      || ExitsAsChild(Next(k, events[0]).value, events[1..], pid, parent)))
  }

  lemma OneEntry(k: State, i: nat, j: nat)
    requires Ordered(k.procs) && i < |k.procs| && j < |k.procs| && k.procs[i].id == k.procs[j].id
    ensures i == j
  {
  }

  /** What an event does to a suspended process: it is woken by the exit of the process it waits for
      as its child, and by nothing else. */
  predicate WaiterIs(k: State, wakes: bool, status: Word, q: nat, k1: State, q1: nat)
    requires k.current < |k.procs| && q < |k.procs|
  {
    && q1 < |k1.procs| && k1.procs[q1].id == k.procs[q].id && k1.procs[q1].section == k.procs[q].section
    && if wakes && ParentWakes(k, q) then
         && k1.procs[q1].status.Scheduled? && k1.procs[q1].context == k.procs[q].context.(r0 := k.procs[k.current].id % ADDRESS_LIMIT)
         && (RefInside(k.procs[q]) ==> StatusDelivered(k, q, status, k1))
       else k1.procs[q1].status == k.procs[q].status && k1.procs[q1].context == k.procs[q].context
  }

  /** The status of an exit, 0 for any other event. */
  function StatusOf(e: Event): Word { if TrapOf(e).Some? && Exits(TrapOf(e).value) then ExitStatus(TrapOf(e).value) else 0 }

  lemma WaiterAfter(k: State, e: Event, q: nat, k1: State) returns (q1: nat)
    requires Ready(k) && EventFresh(k, e) && Next(k, e) == Ok(k1) && q < |k.procs| && k.procs[q].status.Suspended?
    ensures WaiterIs(k, ExitsNow(k, e), StatusOf(e), q, k1, q1)
  {
    NextIs(k, e);
    q1 := q;
    if TrapOf(e).Some? {
      var trap := TrapOf(e).value;
      StepServes(k, trap, k1);
      var k2 := Serve(k, trap).value;
      if Exits(trap) { q1 := ExitWaiter(k, trap, q, k2); } else { q1 := OtherWaiter(k, trap, q, k2); }
    }
  }

  /** A completed step is its handler and a new current index. */
  lemma StepServes(k: State, trap: Trap, k1: State)
    requires Ready(k) && TrapFresh(k, trap) && Step(k, trap) == Ok(k1)
    ensures !MustHalt(k, trap) && Serve(k, trap).Ok? && Loose(Serve(k, trap).value)
    ensures k1 == Serve(k, trap).value.(current := k1.current)
  {
    ServeSound(k, trap);
  }

  lemma ExitWaiter(k: State, trap: Trap, q: nat, k1: State) returns (q1: nat)
    requires Ready(k) && TrapFresh(k, trap) && !MustHalt(k, trap) && Exits(trap) && Serve(k, trap) == Ok(k1)
    requires q < |k.procs| && k.procs[q].status.Suspended?
    ensures WaiterIs(k, true, ExitStatus(trap), q, k1, q1)
  {
    q1 := ServeOthers(k, trap, q);
  }

  lemma OtherWaiter(k: State, trap: Trap, q: nat, k1: State) returns (q1: nat)
    requires Ready(k) && TrapFresh(k, trap) && !MustHalt(k, trap) && !Exits(trap) && Serve(k, trap) == Ok(k1)
    requires q < |k.procs| && k.procs[q].status.Suspended?
    ensures q1 < |k1.procs| && k1.procs[q1] == k.procs[q]
  {
    q1 := ServeOthers(k, trap, q);
  }

  /** A waiting process runs again if and only if the process it waits for exits as its child: that
      one is its child when it exits, whatever it was at the time of the call. */
  lemma {:induction false} WokenIff(k: State, events: seq<Event>, q: nat)
    requires Ready(k) && RunFresh(k, events) && q < |k.procs| && k.procs[q].status.Suspended?
    ensures EverScheduled(k, events, k.procs[q].id)
            <==> ExitsAsChild(k, events, k.procs[q].status.waitPid, k.procs[q].id)
    decreases |events|
  {
    var me := k.procs[q].id;
    assert !IsScheduled(k, me) by {
      if i :| 0 <= i < |k.procs| && k.procs[i].id == me && k.procs[i].status.Scheduled? { OneEntry(k, i, q); }
    }
    if events != [] {
      var e := events[0];
      NextKeepsReady(k, e);
      if Next(k, e).Ok? {
        var k1 := Next(k, e).value;
        var q1 := WaiterAfter(k, e, q, k1);
        if ExitsNow(k, e) && ParentWakes(k, q) {
          assert IsScheduled(k1, me);
          assert EverScheduled(k1, events[1..], me);
        } else {
          WokenIff(k1, events[1..], q1);
        }
      }
    }
  }

  // ---- who never wakes ----

  /** The process is no child of that parent, and no live process if `live` is false. */
  predicate Stranger(k: State, pid: int, parent: int) {
    pid <= k.idGen && forall i :: 0 <= i < |k.procs| && k.procs[i].id == pid ==> k.procs[i].parent != parent
  }

  predicate Dead(k: State, pid: int) {
    pid <= k.idGen && forall i :: 0 <= i < |k.procs| && k.procs[i].id == pid ==> !Live(k.procs[i])
  }

  /** Orphans go to init only: nobody else gains a child but by fork. */
  lemma {:induction false} StrangersStay(k: State, events: seq<Event>, pid: int, parent: int)
    requires Ready(k) && RunFresh(k, events) && Stranger(k, pid, parent) && parent != INIT_PID
    ensures !ExitsAsChild(k, events, pid, parent)
    decreases |events|
  {
    if events != [] {
      var e := events[0];
      NextKeepsReady(k, e);
      if Next(k, e).Ok? {
        var k1 := Next(k, e).value;
        NextEvolves(k, e);
        var me := k.procs[k.current].id;
        forall i | 0 <= i < |k1.procs| && k1.procs[i].id == pid ensures k1.procs[i].parent != parent {
          assert Comes(k.procs, me, k1.procs[i]);
          var o :| 0 <= o < |k.procs| && Continues(k.procs[o], me, k1.procs[i]);
        }
        StrangersStay(k1, events[1..], pid, parent);
      }
    }
  }

  /** The dead stay dead and do not exit again. */
  lemma {:induction false} DeadStay(k: State, events: seq<Event>, pid: int, parent: int)
    requires Ready(k) && RunFresh(k, events) && Dead(k, pid)
    ensures !ExitsAsChild(k, events, pid, parent)
    decreases |events|
  {
    if events != [] {
      var e := events[0];
      NextKeepsReady(k, e);
      if Next(k, e).Ok? {
        var k1 := Next(k, e).value;
        NextEvolves(k, e);
        var me := k.procs[k.current].id;
        forall i | 0 <= i < |k1.procs| && k1.procs[i].id == pid ensures !Live(k1.procs[i]) {
          assert Comes(k.procs, me, k1.procs[i]);
          var o :| 0 <= o < |k.procs| && Continues(k.procs[o], me, k1.procs[i]);
        }
        DeadStay(k1, events[1..], pid, parent);
      }
    }
  }

  /** A process other than init that waits for a process that is not its child never runs again, over
      every run, whatever anybody does. */
  lemma StuckForever(k: State, events: seq<Event>, q: nat)
    requires Ready(k) && RunFresh(k, events) && q < |k.procs| && k.procs[q].status.Suspended?
    requires k.procs[q].id != INIT_PID && Stranger(k, k.procs[q].status.waitPid, k.procs[q].id)
    ensures !EverScheduled(k, events, k.procs[q].id)
  {
    WokenIff(k, events, q);
    StrangersStay(k, events, k.procs[q].status.waitPid, k.procs[q].id);
  }

  /** Init runs again if and only if the process it waits for exits as a child of init, be it one by
      birth or an orphan that exit has handed over; once that process is dead, init never does. */
  lemma InitWokenIff(k: State, events: seq<Event>)
    requires Ready(k) && RunFresh(k, events) && k.procs[0].status.Suspended?
    ensures EverScheduled(k, events, INIT_PID) <==> ExitsAsChild(k, events, k.procs[0].status.waitPid, INIT_PID)
    ensures Dead(k, k.procs[0].status.waitPid) ==> !EverScheduled(k, events, INIT_PID)
  {
    WokenIff(k, events, 0);
    if Dead(k, k.procs[0].status.waitPid) { DeadStay(k, events, k.procs[0].status.waitPid, INIT_PID); }
  }

  // ---- the call ----

  /** The entry of the caller after a trap that is no exit: suspended exactly by a WAITPID that names
      a live process. */
  lemma CallerAfter(k: State, trap: Trap, k1: State)
    requires Ready(k) && TrapFresh(k, trap) && Serve(k, trap) == Ok(k1) && !Exits(trap)
    ensures CallerIs(k, SuspendsCaller(k, trap), trap, k1)
  {
    CurrentFacts(k);
    if trap.Syscall? {
      SaveKeeps(k, trap.context, trap.call);
      var k0 := SaveContext(k, trap.context).value;
      CallerAfterCall(k0, trap, k1);
      SavedSuspends(k, trap);
    }
  }

  lemma SavedSuspends(k: State, trap: Trap)
    requires Ready(k) && trap.Syscall? && SaveContext(k, trap.context).Ok?
    ensures SuspendsCaller(SaveContext(k, trap.context).value, trap) == SuspendsCaller(k, trap)
  {
    var k0 := SaveContext(k, trap.context).value;
    assert forall j :: 0 <= j < |k.procs| ==> k0.procs[j].id == k.procs[j].id && k0.procs[j].status == k.procs[j].status;
    if trap.call.WaitPidCall? { FindSame(k.procs, k0.procs, trap.call.pid); }
  }

  /** The caller keeps its place, pid, section and parent. */
  predicate CallerIs(k: State, suspended: bool, trap: Trap, k1: State)
    requires suspended ==> trap.Syscall? && trap.call.WaitPidCall?
  {
    && k1.current == k.current < |k1.procs| && k.current < |k.procs| && k.procs[k.current].section.Some?
    && var p, p1 := k.procs[k.current], k1.procs[k.current];
    && p1.id == p.id && p1.section == p.section && p1.parent == p.parent
    && p1.status == if suspended then Suspended(trap.call.pid, PointerTo(p.section.value, trap.call.va)) else Scheduled
  }

  lemma FindSame(a: seq<Process>, b: seq<Process>, pid: int)
    requires |a| == |b| && forall j :: 0 <= j < |a| ==> a[j].id == b[j].id
    ensures FindPid(a, pid) == FindPid(b, pid)
  {
  }

  predicate SuspendsCaller(k: State, trap: Trap) {
    && trap.Syscall? && trap.call.WaitPidCall? && trap.call.pid != -1
    && FindPid(k.procs, trap.call.pid).Some? && Live(k.procs[FindPid(k.procs, trap.call.pid).value])
  }

  lemma CallerAfterCall(k: State, trap: Trap, k1: State)
    requires Ready(k) && trap.Syscall? && Fresh(k, trap.call) && Dispatch(k, trap.call) == Ok(k1) && !trap.call.ExitCall?
    ensures CallerIs(k, SuspendsCaller(k, trap), trap, k1)
  {
    DispatchSound(k, trap.call);
    DispatchIs(k, trap.call, k1);
    var k2 := Handle(k, trap.call).value.0;
    if trap.call.WaitPidCall? {
      CallerAfterWait(k, trap, k2);
    } else {
      CallerAfterOther(k, trap, k2);
    }
  }

  /** Behind the handler of a call that is no exit there is at most a status. */
  lemma DispatchIs(k: State, call: Call, k1: State)
    requires Shape(k) && k.current < |k.procs| && Dispatch(k, call) == Ok(k1) && !call.ExitCall?
    ensures Handle(k, call).Ok?
    ensures var k2 := Handle(k, call).value.0;
            && k2.current < |k2.procs| && k1.current == k2.current && |k1.procs| == |k2.procs|
            && k1.procs[k1.current] == k2.procs[k1.current].(context := k1.procs[k1.current].context)
  {
  }

  lemma CallerAfterOther(k: State, trap: Trap, k2: State)
    requires Ready(k) && trap.Syscall? && !trap.call.ExitCall? && !trap.call.WaitPidCall?
    requires Handle(k, trap.call).Ok? && Handle(k, trap.call).value.0 == k2
    ensures CallerIs(k, false, trap, k2)
  {
    CurrentFacts(k);
    if trap.call.ForkCall? {
      if |k.procs| < MAX_PROCS { ForkIs(k); }
    } else {
      PlainCall(k, trap.call);
      HandleKeepsCurrent(k, trap.call);
    }
  }

  lemma HandleKeepsCurrent(k: State, call: Call)
    requires Shape(k) && k.current < |k.procs| && Handle(k, call).Ok?
    requires !call.ExitCall? && !call.WaitPidCall? && !call.ForkCall?
    ensures Handle(k, call).value.0.current == k.current
  {
  }

  lemma CallerAfterWait(k: State, trap: Trap, k2: State)
    requires Ready(k) && trap.Syscall? && trap.call.WaitPidCall? && !ReapsBelow(k, trap.call.pid) && !BadPointer(trap.call.va)
    requires Handle(k, trap.call).Ok? && Handle(k, trap.call).value.0 == k2
    ensures CallerIs(k, SuspendsCaller(k, trap), trap, k2)
  {
    PointerIs(k, trap.call.va);
    WaitIdCaller(k, trap.call.pid, k.procs[k.current].section.value, trap.call.va, k2);
  }

  lemma WaitIdCaller(k: State, pid: int, slot: nat, va: Word, k2: State)
    requires Ready(k) && !ReapsBelow(k, pid) && !BadPointer(va) && k.procs[k.current].section == Some(slot)
    requires WaitId(k, pid, PointerTo(slot, va)).Ok? && WaitId(k, pid, PointerTo(slot, va)).value.0 == k2
    ensures k2.current == k.current < |k2.procs|
    ensures var p, p2, f := k.procs[k.current], k2.procs[k.current], FindPid(k.procs, pid);
            && p2.id == p.id && p2.section == p.section && p2.parent == p.parent
            && p2.status == if pid != -1 && f.Some? && Live(k.procs[f.value]) then Suspended(pid, PointerTo(slot, va)) else Scheduled
  {
    WaitProcs(k, pid, slot, va);
    WaitKeepsCurrent(k, pid, PointerTo(slot, va));
    var f := FindPid(k.procs, pid);
    if pid == -1 || f.None? {
      assert k2.procs == k.procs;
    } else if Live(k.procs[f.value]) {
      assert k2.procs[k.current] == k.procs[k.current].(status := Suspended(pid, PointerTo(slot, va)));
    } else {
      AboveCaller(k, pid, f.value);
      WithoutAt(k.procs, f.value, k.current);
      assert k2.procs[k.current] == k.procs[k.current];
    }
  }

  lemma AboveCaller(k: State, pid: int, j: nat)
    requires Ready(k) && !ReapsBelow(k, pid) && j < |k.procs| && k.procs[j].id == pid && k.procs[j].status.Exited?
    ensures k.current < j
  {
  }

  lemma WaitKeepsCurrent(k: State, pid: int, ref: nat)
    requires Shape(k) && k.current < |k.procs| && WaitId(k, pid, ref).Ok? && !ReapsBelow(k, pid) && Live(k.procs[k.current])
    ensures WaitId(k, pid, ref).value.0.current == k.current
  {
  }

  /** WAITPID by a process other than init on a live process that is no child of it (itself included):
      if the machine goes on, the caller never runs again. */
  lemma BadWaitSticks(k: State, cp: Context, j: nat, va: Word, events: seq<Event>)
    requires Ready(k) && k.current != 0 && !BadPointer(va) && j < |k.procs| && Live(k.procs[j])
    requires k.procs[j].parent != k.procs[k.current].id
    ensures var trap := Syscall(cp, WaitPidCall(k.procs[j].id, va));
            Step(k, trap).Ok? && Ready(Step(k, trap).value) && RunFresh(Step(k, trap).value, events) ==>
              !EverScheduled(Step(k, trap).value, events, k.procs[k.current].id)
  {
    var pid := k.procs[j].id;
    var trap := Syscall(cp, WaitPidCall(pid, va));
    StepKeepsReady(k, trap);
    LiveIsFound(k, j);
    CurrentFacts(k);
    if Step(k, trap).Ok? && RunFresh(Step(k, trap).value, events) {
      var k1 := Step(k, trap).value;
      CallerSuspended(k, trap, k1);
      StaysStranger(k, trap, k1, j);
      StuckForever(k1, events, k.current);
    }
  }

  lemma CallerSuspended(k: State, trap: Trap, k1: State)
    requires Ready(k) && TrapFresh(k, trap) && Step(k, trap) == Ok(k1) && SuspendsCaller(k, trap)
    ensures k.current < |k1.procs| && k.procs[k.current].section.Some?
    ensures var p, p1 := k.procs[k.current], k1.procs[k.current];
            && p1.id == p.id && p1.section == p.section && p1.parent == p.parent
            && p1.status == Suspended(trap.call.pid, PointerTo(p.section.value, trap.call.va))
  {
    StepServes(k, trap, k1);
    CallerAfter(k, trap, Serve(k, trap).value);
  }

  lemma StaysStranger(k: State, trap: Trap, k1: State, j: nat)
    requires Ready(k) && TrapFresh(k, trap) && Step(k, trap) == Ok(k1) && k.current != 0 && j < |k.procs|
    requires k.procs[j].parent != k.procs[k.current].id
    ensures Stranger(k1, k.procs[j].id, k.procs[k.current].id)
  {
    StepServes(k, trap, k1);
    ServeEvolves(k, trap);
    IdPositive(k.procs, k.idGen, j);
    CurrentFacts(k);
    var pid, me := k.procs[j].id, k.procs[k.current].id;
    forall i | 0 <= i < |k1.procs| && k1.procs[i].id == pid ensures k1.procs[i].parent != me {
      assert Comes(k.procs, me, k1.procs[i]);
      var o :| 0 <= o < |k.procs| && Continues(k.procs[o], me, k1.procs[i]);
      OneEntry(k, o, j);
    }
  }

  /** Nobody but the running process can run. */
  predicate OthersIdle(k: State) {
    forall i :: 0 <= i < |k.procs| && i != k.current ==> !k.procs[i].status.Scheduled?
  }

  /** The running process is the last one that can run, and the trap ends or suspends it without waking
      its parent. */
  predicate LeavesNobody(k: State, trap: Trap)
    requires k.current < |k.procs|
  {
    && OthersIdle(k)
    && if Exits(trap) then forall q :: 0 <= q < |k.procs| ==> !ParentWakes(k, q) else SuspendsCaller(k, trap)
  }

  /** "no more scheduled processes" is reached exactly when the last process that can run exits while its
      parent does not wait for it, or waits for a live process, itself included; then some process waits
      for something that is no live child of it. */
  lemma NoScheduledIff(k: State, trap: Trap)
    requires Ready(k) && TrapFresh(k, trap)
    ensures Step(k, trap) == Halted(NoScheduled) <==> !MustHalt(k, trap) && LeavesNobody(k, trap)
    ensures Step(k, trap) == Halted(NoScheduled) ==>
              Serve(k, trap).Ok? && exists i :: 0 <= i < |Serve(k, trap).value.procs| && !WaitOk(Serve(k, trap).value.procs, i)
  {
    StepKeepsReady(k, trap);
    ServeSound(k, trap);
    if !MustHalt(k, trap) {
      var k1 := Serve(k, trap).value;
      SwitchSound(k1);
      if LeavesNobody(k, trap) { NobodyLeft(k, trap, k1); } else { SomebodyLeft(k, trap, k1); }
    }
  }

  /** Whatever WAITPID names, a trap stops the machine if and only if it is one that must or it leaves
      nobody to run. */
  lemma StepHaltsIff(k: State, trap: Trap)
    requires Ready(k) && TrapFresh(k, trap)
    ensures Step(k, trap).Halted? <==> MustHalt(k, trap) || LeavesNobody(k, trap)
  {
    StepKeepsReady(k, trap);
    NoScheduledIff(k, trap);
    ServeSound(k, trap);
    if !MustHalt(k, trap) { SwitchSound(Serve(k, trap).value); }
  }

  lemma SomebodyLeft(k: State, trap: Trap, k1: State)
    requires Ready(k) && TrapFresh(k, trap) && !MustHalt(k, trap) && Serve(k, trap) == Ok(k1) && !LeavesNobody(k, trap)
    ensures SomeScheduled(k1.procs)
  {
    if !OthersIdle(k) {
      var q :| 0 <= q < |k.procs| && q != k.current && k.procs[q].status.Scheduled?;
      var q1 := ServeOthers(k, trap, q);
      assert k1.procs[q1].status.Scheduled?;
    } else if Exits(trap) {
      var q :| 0 <= q < |k.procs| && ParentWakes(k, q);
      var q1 := ServeOthers(k, trap, q);
      assert k1.procs[q1].status.Scheduled?;
    } else {
      CallerAfter(k, trap, k1);
      assert k1.procs[k.current].status.Scheduled?;
    }
  }

  lemma NobodyLeft(k: State, trap: Trap, k1: State)
    requires Ready(k) && TrapFresh(k, trap) && !MustHalt(k, trap) && Serve(k, trap) == Ok(k1) && LeavesNobody(k, trap)
    ensures !SomeScheduled(k1.procs)
  {
    if Exits(trap) { ExitLeavesNobody(k, trap, k1); } else { WaitLeavesNobody(k, trap, k1); }
  }

  lemma ExitLeavesNobody(k: State, trap: Trap, k1: State)
    requires Ready(k) && TrapFresh(k, trap) && Exits(trap) && Serve(k, trap) == Ok(k1) && LeavesNobody(k, trap)
    ensures !SomeScheduled(k1.procs)
  {
    var k0, k2 := ExitServed(k, trap, k1);
    var j := ExitProcs(k0, ExitStatus(trap));
    assert !ParentWakes(k, j);
    ExitLeavesIdle(k0.procs, k0.current, ExitStatus(trap), j);
  }

  lemma ExitLeavesIdle(procs: seq<Process>, c: nat, status: Word, j: nat)
    requires c < |procs| && j < |procs| && j != c && forall i :: 0 <= i < |procs| && i != c ==> !procs[i].status.Scheduled?
    requires !(procs[j].status.Suspended? && procs[j].status.waitPid == procs[c].id)
    ensures !SomeScheduled(AfterExit(procs, c, status, j))
  {
    var r := ExitedTable(procs, c, status);
    forall i | 0 <= i < |procs| ensures !r[i].status.Scheduled? { ExitedEntry(procs, c, status, i); }
    ExitedEntry(procs, c, status, j);
  }

  lemma WaitLeavesNobody(k: State, trap: Trap, k1: State)
    requires Ready(k) && TrapFresh(k, trap) && !MustHalt(k, trap) && Serve(k, trap) == Ok(k1)
    requires OthersIdle(k) && SuspendsCaller(k, trap) && !Exits(trap)
    ensures !SomeScheduled(k1.procs)
  {
    SaveKeeps(k, trap.context, trap.call);
    SavedSuspends(k, trap);
    var k0 := SaveContext(k, trap.context).value;
    WaitLeavesIdle(k0, trap, k1);
  }

  lemma WaitLeavesIdle(k: State, trap: Trap, k1: State)
    requires Ready(k) && OthersIdle(k) && SuspendsCaller(k, trap) && !CallHalts(k, trap.call) && Dispatch(k, trap.call) == Ok(k1)
    ensures !SomeScheduled(k1.procs)
  {
    var pid, va := trap.call.pid, trap.call.va;
    PointerIs(k, va);
    WaitIdIs(k, pid, PointerTo(k.procs[k.current].section.value, va));
    var k2 := Handle(k, trap.call).value.0;
    assert !SomeScheduled(k2.procs);
    StatusKeepsIdle(k2, Handle(k, trap.call).value.1);
    CallerKept(k, trap.call, k1);
  }

  lemma StatusKeepsIdle(k: State, w: Word)
    requires k.current < |k.procs| && !SomeScheduled(k.procs)
    ensures !SomeScheduled(SetStatus(k, w).value.procs)
  {
    var r := SetStatus(k, w).value.procs;
    forall i | 0 <= i < |r| ensures !r[i].status.Scheduled? { assert !k.procs[i].status.Scheduled?; }
  }

  /** A status goes to a caller that is still current. */
  lemma CallerKept(k: State, call: Call, k1: State)
    requires Shape(k) && k.current < |k.procs| && call.WaitPidCall? && Dispatch(k, call) == Ok(k1) && Handle(k, call).Ok?
    ensures k1 == SetStatus(Handle(k, call).value.0, Handle(k, call).value.1).value
  {
  }

  // ---- what a wait delivers ----

  /** The first state of the run in which the process can run. */
  ghost function FirstTurn(k: State, events: seq<Event>, pid: int): Option<State>
    requires Ready(k) && RunFresh(k, events)
    decreases |events|
  {
    if IsScheduled(k, pid) then Some(k)
    else if events == [] then None
    else
      NextKeepsReady(k, events[0]);
      match Next(k, events[0])
      case Ok(k1) => FirstTurn(k1, events[1..], pid)
      case Halted(_) => None
  }

  /** The status with which a process exits in the run. */
  ghost function ExitWord(k: State, events: seq<Event>, pid: int): Option<Word>
    requires Ready(k) && RunFresh(k, events)
    decreases |events|
  {
    if events == [] then None
    else
      NextKeepsReady(k, events[0]);
      if ExitsNow(k, events[0]) && k.procs[k.current].id == pid then Some(StatusOf(events[0]))
      else
        match Next(k, events[0])
        case Ok(k1) => ExitWord(k1, events[1..], pid)
        case Halted(_) => None
  }

  lemma {:induction false} NoTurn(k: State, events: seq<Event>, pid: int)
    requires Ready(k) && RunFresh(k, events)
    ensures FirstTurn(k, events, pid).Some? <==> EverScheduled(k, events, pid)
    decreases |events|
  {
    if events != [] {
      NextKeepsReady(k, events[0]);
      if Next(k, events[0]).Ok? { NoTurn(Next(k, events[0]).value, events[1..], pid); }
    }
  }

  /** The process is there with the pid in r0, the other registers as they were and the word in its memory. */
  predicate HasReceived(k: State, me: int, c: Context, slot: nat, offset: nat, pid: int, w: Word) {
    && |k.memory| == SLOTS && slot < SLOTS && offset + 4 <= SECTION_SIZE
    && k.memory[slot][offset..offset + 4] == WordBytes(w)
    && exists i :: 0 <= i < |k.procs| && k.procs[i].id == me && k.procs[i].section == Some(slot)
                   && k.procs[i].context == c.(r0 := pid % ADDRESS_LIMIT)
  }

  /** A completed wait delivers: over every run, whatever happens in between, the first time that a
      suspended process can run again it has the pid it waited for in r0 and in its memory, where it
      asked for it, the very status with which that process exited. */
  lemma {:induction false} WaitDelivers(k: State, events: seq<Event>, q: nat)
    requires Ready(k) && RunFresh(k, events) && q < |k.procs| && k.procs[q].status.Suspended? && RefInside(k.procs[q])
    ensures var p := k.procs[q];
            FirstTurn(k, events, p.id).Some? ==>
              && ExitWord(k, events, p.status.waitPid).Some?
              && HasReceived(FirstTurn(k, events, p.id).value, p.id, p.context, p.section.value, OffsetOf(p.status.wstatusRef),
                             p.status.waitPid, ExitWord(k, events, p.status.waitPid).value)
    decreases |events|
  {
    var p := k.procs[q];
    var me, pid := p.id, p.status.waitPid;
    assert !IsScheduled(k, me) by {
      if i :| 0 <= i < |k.procs| && k.procs[i].id == me && k.procs[i].status.Scheduled? { OneEntry(k, i, q); }
    }
    if events != [] {
      var e := events[0];
      NextKeepsReady(k, e);
      if Next(k, e).Ok? {
        var k1 := Next(k, e).value;
        var q1 := WaiterAfter(k, e, q, k1);
        if ExitsNow(k, e) && ParentWakes(k, q) {
          assert IsScheduled(k1, me);
          assert HasReceived(k1, me, p.context, p.section.value, OffsetOf(p.status.wstatusRef), pid, StatusOf(e));
        } else if ExitsNow(k, e) && k.procs[k.current].id == pid {
          ExitedIsDead(k, e);
          WokenIff(k1, events[1..], q1);
          DeadStay(k1, events[1..], pid, me);
          NoTurn(k1, events[1..], me);
        } else {
          WaitDelivers(k1, events[1..], q1);
        }
      }
    }
  }

  lemma ExitedIsDead(k: State, e: Event)
    requires Ready(k) && EventFresh(k, e) && Next(k, e).Ok? && ExitsNow(k, e)
    ensures Dead(Next(k, e).value, k.procs[k.current].id)
  {
    NextIs(k, e);
    NextEvolves(k, e);
    IdPositive(k.procs, k.idGen, k.current);
    var trap := TrapOf(e).value;
    StepServes(k, trap, Next(k, e).value);
    ExitLeavesDead(k, trap, Serve(k, trap).value);
  }

  lemma ExitLeavesDead(k: State, trap: Trap, k1: State)
    requires Ready(k) && TrapFresh(k, trap) && Exits(trap) && Serve(k, trap) == Ok(k1)
    ensures forall i :: 0 <= i < |k1.procs| && k1.procs[i].id == k.procs[k.current].id ==> !Live(k1.procs[i])
  {
    var k0, k2 := ExitServed(k, trap, k1);
    ExitDead(k0, ExitStatus(trap), k2);
  }

  lemma ExitDead(k0: State, status: Word, k2: State)
    requires Ready(k0) && k0.current != 0 && Exit(k0, status) == Ok(k2)
    ensures forall i :: 0 <= i < |k2.procs| && k2.procs[i].id == k0.procs[k0.current].id ==> !Live(k2.procs[i])
  {
    var j := ExitProcs(k0, status);
    AfterExitDead(k0.procs, k0.current, status, j);
  }

  /** Behind the handler of EXIT there is at most a status. */
  lemma ExitDispatched(k: State, status: Word, k1: State)
    requires Shape(k) && k.current < |k.procs| && Dispatch(k, ExitCall(status)) == Ok(k1)
    ensures Exit(k, status).Ok?
    ensures var k2 := Exit(k, status).value;
            |k1.procs| == |k2.procs| &&
            forall i :: 0 <= i < |k1.procs| ==> k1.procs[i].id == k2.procs[i].id && k1.procs[i].status == k2.procs[i].status
  {
  }

  /** The exit inside a trap: from saved registers, with a status behind it at most. */
  lemma ExitServed(k: State, trap: Trap, k1: State) returns (k0: State, k2: State)
    requires Ready(k) && Exits(trap) && Serve(k, trap) == Ok(k1)
    ensures Ready(k0) && k0.current == k.current && k0.current != 0 && k0.procs[k.current].id == k.procs[k.current].id
    ensures |k0.procs| == |k.procs| && forall i :: 0 <= i < |k.procs| ==> k0.procs[i] == k.procs[i].(context := k0.procs[i].context)
    ensures Exit(k0, ExitStatus(trap)) == Ok(k2) && |k1.procs| == |k2.procs|
    ensures forall i :: 0 <= i < |k1.procs| ==> k1.procs[i].id == k2.procs[i].id && k1.procs[i].status == k2.procs[i].status
  {
    CurrentFacts(k);
    match trap
    case Fault => k0, k2 := k, k1;
    case Syscall(c, call) =>
      SaveKeeps(k, c, call);
      k0 := SaveContext(k, c).value;
      ExitDispatched(k0, call.status, k1);
      k2 := Exit(k0, call.status).value;
  }

  lemma AfterExitDead(procs: seq<Process>, c: nat, status: Word, j: nat)
    requires Ordered(procs) && c < |procs| && j < c
    ensures forall i :: 0 <= i < |AfterExit(procs, c, status, j)| && AfterExit(procs, c, status, j)[i].id == procs[c].id ==>
              !Live(AfterExit(procs, c, status, j)[i])
  {
    var r := ExitedTable(procs, c, status);
    forall i | 0 <= i < |procs| ensures r[i].id == procs[i].id && (i == c ==> !Live(r[i])) { ExitedEntry(procs, c, status, i); }
    if r[j].status.Suspended? && r[j].status.waitPid == procs[c].id {
      var w := r[j := WithR0(r[j].(status := Scheduled), procs[c].id % ADDRESS_LIMIT)];
      forall i | 0 <= i < |w| - 1 ensures Without(w, c)[i].id != procs[c].id { WithoutAt(w, c, i); }
    }
  }

  /** The suspended caller has the registers it called with, but for r0. */
  lemma SuspendedRegisters(k: State, trap: Trap, k1: State)
    requires Ready(k) && TrapFresh(k, trap) && Step(k, trap) == Ok(k1) && SuspendsCaller(k, trap)
    ensures k.current < |k1.procs| && k1.procs[k.current].context == trap.context.(r0 := 0)
  {
    StepServes(k, trap, k1);
    SaveKeeps(k, trap.context, trap.call);
    SavedSuspends(k, trap);
    SuspendedByCall(SaveContext(k, trap.context).value, trap, Serve(k, trap).value);
  }

  lemma SuspendedByCall(k: State, trap: Trap, k1: State)
    requires Ready(k) && SuspendsCaller(k, trap) && !CallHalts(k, trap.call) && Dispatch(k, trap.call) == Ok(k1)
    ensures k.current < |k1.procs| && k1.procs[k.current].context == k.procs[k.current].context.(r0 := 0)
  {
    PointerIs(k, trap.call.va);
    WaitIdIs(k, trap.call.pid, PointerTo(k.procs[k.current].section.value, trap.call.va));
    CallerKept(k, trap.call, k1);
  }

  /** WAITPID on a live direct child, from the call to the first state in which the parent runs again. */
  lemma WaitForChildDelivers(k: State, cp: Context, j: nat, va: Word, events: seq<Event>)
    requires Good(k) && BufferOk(va, 4) && j < |k.procs| && Live(k.procs[j]) && k.procs[j].parent == k.procs[k.current].id
    ensures k.procs[k.current].section.Some?
    ensures var trap := Syscall(cp, WaitPidCall(k.procs[j].id, va));
            && Step(k, trap).Ok? && Good(Step(k, trap).value)
            && (RunFresh(Step(k, trap).value, events) ==>
                 var k1, me := Step(k, trap).value, k.procs[k.current].id;
                 FirstTurn(k1, events, me).Some? ==>
                   && ExitWord(k1, events, k.procs[j].id).Some?
                   && HasReceived(FirstTurn(k1, events, me).value, me, cp, k.procs[k.current].section.value, va % SECTION_SIZE,
                                  k.procs[j].id, ExitWord(k1, events, k.procs[j].id).value))
  {
    var pid := k.procs[j].id;
    var trap := Syscall(cp, WaitPidCall(pid, va));
    ChildWaitStep(k, trap, j);
    var k1 := Step(k, trap).value;
    if RunFresh(k1, events) {
      LiveIsFound(k, j);
      SuspendedRegisters(k, trap, k1);
      WaitDelivers(k1, events, k.current);
    }
  }

  lemma ChildWaitStep(k: State, trap: Trap, j: nat)
    requires Good(k) && trap.Syscall? && trap.call.WaitPidCall? && BufferOk(trap.call.va, 4)
    requires j < |k.procs| && Live(k.procs[j]) && k.procs[j].parent == k.procs[k.current].id && k.procs[j].id == trap.call.pid
    ensures Step(k, trap).Ok? && Good(Step(k, trap).value)
    ensures var k1, p := Step(k, trap).value, k.procs[k.current];
            && p.section.Some? && k.current < |k1.procs|
            && var p1 := k1.procs[k.current];
            && p1.id == p.id && p1.section == p.section && RefInside(p1)
            && p1.status == Suspended(trap.call.pid, PointerTo(p.section.value, trap.call.va))
            && OffsetOf(p1.status.wstatusRef) == trap.call.va % SECTION_SIZE
  {
    ChildWaitGood(k, trap, j);
    ChildWaitEntry(k, trap, j, Step(k, trap).value);
  }

  lemma ChildWaitEntry(k: State, trap: Trap, j: nat, k1: State)
    requires Ready(k) && TrapFresh(k, trap) && trap.Syscall? && trap.call.WaitPidCall? && BufferOk(trap.call.va, 4)
    requires j < |k.procs| && Live(k.procs[j]) && k.procs[j].id == trap.call.pid && Step(k, trap) == Ok(k1)
    ensures k.current < |k1.procs| && k.procs[k.current].section.Some?
    ensures var p, p1 := k.procs[k.current], k1.procs[k.current];
            && p1.id == p.id && p1.section == p.section && p1.parent == p.parent && RefInside(p1)
            && p1.status == Suspended(trap.call.pid, PointerTo(p.section.value, trap.call.va))
            && OffsetOf(p1.status.wstatusRef) == trap.call.va % SECTION_SIZE
  {
    LiveIsFound(k, j);
    CallerSuspended(k, trap, k1);
    SlotInRange(k);
    InOwnSection(k.procs[k.current].section.value, trap.call.va, 4);
  }

  lemma SlotInRange(k: State)
    requires Ready(k)
    ensures k.procs[k.current].section.Some? && k.procs[k.current].section.value < SLOTS
  {
    CurrentFacts(k);
  }

  lemma LiveIsFound(k: State, j: nat)
    requires Ready(k) && j < |k.procs|
    ensures FindPid(k.procs, k.procs[j].id) == Some(j) && k.procs[j].id >= 1
  {
    FindIs(k.procs, j);
    IdPositive(k.procs, k.idGen, j);
  }

  lemma ChildWaitGood(k: State, trap: Trap, j: nat)
    requires Good(k) && trap.Syscall? && trap.call.WaitPidCall? && !BadPointer(trap.call.va)
    requires j < |k.procs| && Live(k.procs[j]) && k.procs[j].parent == k.procs[k.current].id && k.procs[j].id == trap.call.pid
    ensures TrapFresh(k, trap) && Step(k, trap).Ok? && Good(Step(k, trap).value)
  {
    OneEntryEach(k.procs);
    assert WaitAllowed(k, trap.call.pid);
    StepKeepsGood(k, trap);
    AllowedSparesBelow(k, trap);
  }

  lemma OneEntryEach(procs: seq<Process>)
    requires Ordered(procs)
    ensures forall i, j :: 0 <= i < |procs| && 0 <= j < |procs| && procs[i].id == procs[j].id ==> i == j
  {
  }

  // ---- status words inside sections, over runs ----

  /** Status words stay inside as long as the processes ask for them inside. */
  lemma NextKeepsContained(k: State, e: Event)
    requires Ready(k) && Contained(k) && EventFresh(k, e) && EventFits(k, e) && Next(k, e).Ok?
    ensures Contained(Next(k, e).value)
  {
    NextIs(k, e);
    NextEvolves(k, e);
    var k1, me := Next(k, e).value, k.procs[k.current].id;
    IdPositive(k.procs, k.idGen, k.current);
    if TrapOf(e).Some? {
      StepServes(k, TrapOf(e).value, k1);
      CallerInside(k, TrapOf(e).value, Serve(k, TrapOf(e).value).value);
    }
    forall i | 0 <= i < |k1.procs| ensures RefInside(k1.procs[i]) {
      if Comes(k.procs, me, k1.procs[i]) { InsideComes(k, k1.procs[i]); }
    }
  }

  lemma InsideComes(k: State, p: Process)
    requires k.current < |k.procs| && Contained(k) && Comes(k.procs, k.procs[k.current].id, p)
    requires p.id == k.procs[k.current].id ==> RefInside(p) || p == k.procs[k.current]
    ensures RefInside(p)
  {
    var o :| 0 <= o < |k.procs| && Continues(k.procs[o], k.procs[k.current].id, p);
    assert RefInside(k.procs[o]) && RefInside(k.procs[k.current]);
  }

  lemma CallerInside(k: State, trap: Trap, k1: State)
    requires Ready(k) && TrapFresh(k, trap) && TrapFits(k, trap) && Serve(k, trap) == Ok(k1) && Ordered(k1.procs)
    ensures forall i :: 0 <= i < |k1.procs| && k1.procs[i].id == k.procs[k.current].id ==> RefInside(k1.procs[i])
  {
    if Exits(trap) {
      ExitLeavesDead(k, trap, k1);
    } else {
      CallerAfter(k, trap, k1);
      CurrentFacts(k);
      if SuspendsCaller(k, trap) { InOwnSection(k.procs[k.current].section.value, trap.call.va, 4); }
    }
  }
}
