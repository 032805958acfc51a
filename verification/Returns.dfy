/** What a process gets back when the processor returns to it: its registers, the answer of its system
    call, and what the call has changed (src/kernel/syscalls.c, src/kernel/scheduler/scheduler.c,
    src/kernel/hardware/interupts.S). */
module Returns {
  import opened Bytes
  import opened Wrappers
  import opened Mmu
  import opened Kernel
  import opened TableInvariant
  import opened Steps
  import opened Others
  import opened Runs
  import opened Evolution
  import opened Waits

  // ---- until the next turn ----

  /** The first state of the run in which the process has the processor. */
  ghost function OnProcessor(k: State, events: seq<Event>, pid: int): Option<State>
    requires Ready(k) && RunFresh(k, events)
    decreases |events|
  {
    if k.procs[k.current].id == pid then Some(k)
    else if events == [] then None
    else
      NextKeepsReady(k, events[0]);
      match Next(k, events[0])
      case Ok(k1) => OnProcessor(k1, events[1..], pid)
      case Halted(_) => None
  }

  /** The entry of a process as user mode knows it. */
  predicate SameForUser(p: Process, q: Process) {
    p.id == q.id && p.context == q.context && p.section == q.section && p.files == q.files && p.status == q.status
  }

  lemma EventSparesScheduled(k: State, e: Event, q: nat, k1: State) returns (q1: nat)
    requires Ready(k) && EventFresh(k, e) && Next(k, e) == Ok(k1)
    requires q < |k.procs| && q != k.current && k.procs[q].status.Scheduled?
    ensures q1 < |k1.procs| && SameForUser(k.procs[q], k1.procs[q1])
  {
    NextIs(k, e);
    q1 := q;
    if TrapOf(e).Some? {
      var trap := TrapOf(e).value;
      StepServes(k, trap, k1);
      q1 := ServeOthers(k, trap, q);
    }
  }

  /** Over every run a process that can run finds its registers and descriptors as they were. */
  lemma {:induction false} RegistersSurvive(k: State, events: seq<Event>, q: nat)
    requires Ready(k) && RunFresh(k, events) && q < |k.procs| && k.procs[q].status.Scheduled?
    ensures var t := OnProcessor(k, events, k.procs[q].id);
            t.Some? ==> t.value.current < |t.value.procs| && SameForUser(k.procs[q], t.value.procs[t.value.current])
    decreases |events|
  {
    if k.procs[k.current].id == k.procs[q].id {
      OneEntry(k, k.current, q);
    } else if events != [] {
      NextKeepsReady(k, events[0]);
      if Next(k, events[0]).Ok? {
        var k1 := Next(k, events[0]).value;
        var q1 := EventSparesScheduled(k, events[0], q, k1);
        RegistersSurvive(k1, events[1..], q1);
      }
    }
  }

  /** An interrupted process goes on with the registers it was interrupted with, whatever happens before
      its next turn. */
  lemma PreemptedResumes(k: State, c: Context, events: seq<Event>)
    requires Ready(k)
    ensures Step(k, Preempt(c)).Ok? && Ready(Step(k, Preempt(c)).value)
    ensures RunFresh(Step(k, Preempt(c)).value, events) ==>
              var p, t := k.procs[k.current], OnProcessor(Step(k, Preempt(c)).value, events, k.procs[k.current].id);
              t.Some? ==> t.value.current < |t.value.procs| && SameForUser(p.(context := c), t.value.procs[t.value.current])
  {
    StepHaltsIff(k, Preempt(c));
    StepKeepsReady(k, Preempt(c));
    var k1 := Step(k, Preempt(c)).value;
    assert SameForUser(k.procs[k.current].(context := c), k1.procs[k.current]);
    if RunFresh(k1, events) { RegistersSurvive(k1, events, k.current); }
  }

  // ---- the answers ----

  predicate LowestFree(files: seq<Option<nat>>, fd: int) {
    0 <= fd < |files| && files[fd].None? && forall i :: 0 <= i < fd ==> files[i].Some?
  }

  predicate AllUsed(files: seq<Option<nat>>) { forall i :: 0 <= i < |files| ==> files[i].Some? }

  /** Bytes stand in the section of a process, and the rest of it is what it was. */
  predicate Delivered(k: State, k1: State, slot: nat, va: Word, bytes: seq<Byte>) {
    && |k.memory| == |k1.memory| == SLOTS && slot < SLOTS
    && (bytes != [] && BufferOk(va, |bytes|) ==>
          && k1.memory[slot][va % SECTION_SIZE..va % SECTION_SIZE + |bytes|] == bytes
          && SameOutside(k.memory[slot], k1.memory[slot], va % SECTION_SIZE, |bytes|))
    && (bytes == [] ==> k1.memory == k.memory)
  }

  /** OPEN: the lowest free descriptor names the new file, which counts one reference. */
  predicate OpenAnswers(p: Process, file: Option<nat>, k1: State, p1: Process, w: Word) {
    if file.None? || AllUsed(p.files) then w == ERR && p1.files == p.files
    else LowestFree(p.files, w) && p1.files == p.files[w := file] && file.value in k1.fdCount && k1.fdCount[file.value] == 1
  }

  /** CLOSE: a descriptor in use is free again and its file gone. */
  predicate CloseAnswers(p: Process, fd: nat, k1: State, p1: Process, w: Word) {
    if HasFile(p, fd) then w == 0 && p1.files == p.files[fd := None] && p.files[fd].value !in k1.fdCount
    else w == ERR && p1.files == p.files
  }

  /** FORK: the new last entry is the child, with r0 = 0 and the descriptors of its parent. */
  predicate ForkAnswers(k: State, c: Context, k1: State, w: Word)
    requires k.current < |k.procs|
  {
    var p := k.procs[k.current];
    if |k.procs| >= MAX_PROCS then w == ERR && |k1.procs| == |k.procs|
    else
      && |k1.procs| == |k.procs| + 1
      && var child := k1.procs[|k.procs|];
      && w == child.id % ADDRESS_LIMIT && child.parent == p.id && child.status.Scheduled?
      && child.context == c.(r0 := 0) && child.files == p.files
      && forall i :: 0 <= i < |k.procs| ==> k.procs[i].id < child.id
  }

  /** WAITPID that does not suspend: nobody has the pid, or an exited process has had it. */
  predicate WaitAnswers(k: State, pid: int, va: Word, k1: State, w: Word)
    requires k.current < |k.procs|
  {
    var p := k.procs[k.current];
    if exists j :: 0 <= j < |k.procs| && k.procs[j].id == pid then
      && (exists j :: 0 <= j < |k.procs| && k.procs[j].id == pid && k.procs[j].status.Exited? && p.section.Some?
                      && Delivered(k, k1, p.section.value, va, WordBytes(k.procs[j].status.wstatus)))
      && w == pid % ADDRESS_LIMIT && |k1.procs| == |k.procs| - 1
      && forall i :: 0 <= i < |k1.procs| ==> k1.procs[i].id != pid
    else w == ERR && |k1.procs| == |k.procs|
  }

  /** The answer of a completed call in r0, and what it has changed, from the state before the call. */
  predicate Answers(k: State, c: Context, call: Call, k1: State, p1: Process, w: Word)
    requires k.current < |k.procs|
  {
    var p := k.procs[k.current];
    match call
    case YieldCall(status) => w == status
    case GetPidCall => w == p.id % ADDRESS_LIMIT
    case GetPpidCall => w == p.parent % ADDRESS_LIMIT
    case OpenCall(_, file) => file.Done? && OpenAnswers(p, file.value, k1, p1, w)
    case CloseCall(fd) => CloseAnswers(p, fd, k1, p1, w)
    case ReadCall(fd, va, data) =>
      if HasFile(p, fd) then data.Done? && w == data.value.1 && p.section.Some? && Delivered(k, k1, p.section.value, va, data.value.0)
      else w == ERR && k1.memory == k.memory
    case WriteCall(fd, _, written) => if HasFile(p, fd) then written.Done? && w == written.value.1 else w == ERR
    case SeekCall(fd, answer) => if HasFile(p, fd) then answer == Done(w) else w == ERR
    case MakeCall(_, answer) => answer == Done(w)
    case ForkCall => ForkAnswers(k, c, k1, w)
    case WaitPidCall(pid, va) => WaitAnswers(k, pid, va, k1, w)
    case ExecCall(_, _, _, image) => image == Done(None) && w == ERR
    case InvalidCall => w == ERR
    case _ => false
  }

  // ---- handler by handler ----

  lemma OpenReturns(k: State, file: Option<nat>, k2: State, w: Word)
    requires Ready(k) && Open(k, file) == Ok((k2, w))
    ensures k.current < |k2.procs| && OpenAnswers(k.procs[k.current], file, k2, k2.procs[k.current], w)
  {
    var files := k.procs[k.current].files;
    var used := seq(|files|, i requires 0 <= i < |files| => files[i].Some?);
    assert FreeFd(files) == Bitfield.FirstClear(used);
    assert forall i :: 0 <= i < |files| ==> used[i] == files[i].Some?;
  }

  lemma CloseReturns(k: State, fd: nat, k2: State, w: Word)
    requires Ready(k) && Close(k, fd) == Ok((k2, w))
    ensures k.current < |k2.procs| && CloseAnswers(k.procs[k.current], fd, k2, k2.procs[k.current], w)
  {
  }

  /** Bytes stored through a user pointer. */
  lemma StoreDelivers(k: State, va: Word, bytes: seq<Byte>)
    requires Ready(k) && !BadPointer(va) && k.procs[k.current].section.Some?
    requires Store(k, PointerTo(k.procs[k.current].section.value, va), bytes).Ok?
    ensures Delivered(k, Store(k, PointerTo(k.procs[k.current].section.value, va), bytes).value,
                      k.procs[k.current].section.value, va, bytes)
  {
    CurrentFacts(k);
    var s := k.procs[k.current].section.value;
    if bytes != [] && BufferOk(va, |bytes|) {
      InOwnSection(s, va, |bytes|);
      StoreInside(k, PointerTo(s, va), bytes);
      SpliceParts(k.memory[s], va % SECTION_SIZE, bytes);
    }
  }

  lemma ReadReturns(k: State, fd: nat, va: Word, data: Outcome<(seq<Byte>, Word)>, k2: State, w: Word)
    requires Ready(k) && Read(k, fd, va, data) == Ok((k2, w))
    ensures k2.procs == k.procs
    ensures Answers(k, k.procs[k.current].context, ReadCall(fd, va, data), k2, k.procs[k.current], w)
  {
    CurrentFacts(k);
    PointerIs(k, va);
    if HasFile(k.procs[k.current], fd) { StoreDelivers(k, va, data.value.0); }
  }

  lemma ForkReturns(k: State, k2: State, w: Word)
    requires Ready(k) && Fork(k) == Ok((k2, w))
    ensures ForkAnswers(k, k.procs[k.current].context, k2, w)
  {
    if |k.procs| < MAX_PROCS {
      ForkIs(k);
      forall i | 0 <= i < |k.procs| ensures k.procs[i].id < k2.procs[|k.procs|].id { IdPositive(k.procs, k.idGen, i); }
    }
  }

  lemma WaitReturns(k: State, pid: int, va: Word, k2: State, w: Word)
    requires Ready(k) && !ReapsBelow(k, pid) && !BadPointer(va) && WaitPid(k, pid, va) == Ok((k2, w))
    requires !(pid != -1 && FindPid(k.procs, pid).Some? && Live(k.procs[FindPid(k.procs, pid).value]))
    ensures WaitAnswers(k, pid, va, k2, w)
  {
    CurrentFacts(k);
    PointerIs(k, va);
    var s, f := k.procs[k.current].section.value, FindPid(k.procs, pid);
    WaitIdIs(k, pid, PointerTo(s, va));
    if pid == -1 {
      forall j | 0 <= j < |k.procs| ensures k.procs[j].id != pid { IdPositive(k.procs, k.idGen, j); }
    } else if f.Some? {
      var bytes := WordBytes(k.procs[f.value].status.wstatus);
      ReapFacts(k, f.value, s, va, bytes);
      StoreDelivers(k, va, bytes);
      forall i | 0 <= i < |k.procs| - 1 ensures Without(k.procs, f.value)[i].id != pid { WithoutAt(k.procs, f.value, i); }
    }
  }

  // ---- a whole system call ----

  /** WAITPID for a live process. */
  predicate Suspends(k: State, call: Call) {
    call.WaitPidCall? && exists j :: 0 <= j < |k.procs| && k.procs[j].id == call.pid && Live(k.procs[j])
  }

  /** EXEC of a program that could be loaded. */
  predicate Replaces(call: Call) { call.ExecCall? && call.image.Done? && call.image.value.Some? }

  /** What no call touches in the entry of its caller, and what only some calls touch. */
  predicate CallerKeeps(k: State, call: Call, k1: State, p1: Process)
    requires k.current < |k.procs|
  {
    var p := k.procs[k.current];
    && p1.id == p.id && p1.parent == p.parent && p1.section == p.section && p1.table == p.table
    && (call.OpenCall? || call.CloseCall? || p1.files == p.files)
    && (call.ReadCall? || call.ForkCall? || call.WaitPidCall? || call.ExecCall? || k1.memory == k.memory)
  }

  lemma LiveFound(k: State, call: Call)
    requires Ready(k) && call.WaitPidCall?
    ensures Suspends(k, call) <==>
              call.pid != -1 && FindPid(k.procs, call.pid).Some? && Live(k.procs[FindPid(k.procs, call.pid).value])
  {
    if j :| 0 <= j < |k.procs| && k.procs[j].id == call.pid && Live(k.procs[j]) { LiveIsFound(k, j); }
  }

  lemma PlainReturns(k: State, call: Call, k2: State, w: Word)
    requires Ready(k) && Handle(k, call) == Ok((k2, w)) && !Replaces(call)
    requires !call.ExitCall? && !call.ForkCall? && !call.WaitPidCall?
    ensures k2.current == k.current < |k2.procs| && |k2.procs| == |k.procs| && CallerKeeps(k, call, k2, k2.procs[k.current])
    ensures k2.procs[k.current].status == k.procs[k.current].status && k2.procs[k.current].context == k.procs[k.current].context
    ensures Answers(k, k.procs[k.current].context, call, k2, k2.procs[k.current], w)
  {
    match call
    case OpenCall(path, file) => OpenReturns(k, file.value, k2, w);
    case CloseCall(fd) => CloseReturns(k, fd, k2, w);
    case ReadCall(fd, va, data) => ReadReturns(k, fd, va, data, k2, w);
    case _ =>
  }

  lemma WaitCaller(k: State, call: Call, k2: State, w: Word)
    requires Ready(k) && call.WaitPidCall? && Handle(k, call) == Ok((k2, w)) && !Suspends(k, call)
    requires !ReapsBelow(k, call.pid) && !BadPointer(call.va)
    ensures k2.current == k.current < |k2.procs| && k2.procs[k.current] == k.procs[k.current]
    ensures WaitAnswers(k, call.pid, call.va, k2, w)
  {
    LiveFound(k, call);
    WaitReturns(k, call.pid, call.va, k2, w);
    PointerIs(k, call.va);
    CurrentFacts(k);
    WaitEntry(k, call.pid, k.procs[k.current].section.value, call.va, k2);
  }

  /** A wait that does not suspend leaves the entry of the caller alone. */
  lemma WaitEntry(k: State, pid: int, slot: nat, va: Word, k2: State)
    requires Ready(k) && !ReapsBelow(k, pid) && !BadPointer(va) && k.procs[k.current].section == Some(slot)
    requires WaitId(k, pid, PointerTo(slot, va)).Ok? && WaitId(k, pid, PointerTo(slot, va)).value.0 == k2
    requires !(pid != -1 && FindPid(k.procs, pid).Some? && Live(k.procs[FindPid(k.procs, pid).value]))
    ensures k2.current == k.current < |k2.procs| && k2.procs[k.current] == k.procs[k.current]
  {
    var f := FindPid(k.procs, pid);
    WaitProcs(k, pid, slot, va);
    WaitKeepsCurrent(k, pid, PointerTo(slot, va));
    if pid != -1 && f.Some? {
      AboveCaller(k, pid, f.value);
      WithoutAt(k.procs, f.value, k.current);
    }
  }

  lemma HandleReturns(k: State, call: Call, k2: State, w: Word)
    requires Ready(k) && Fresh(k, call) && Handle(k, call) == Ok((k2, w)) && !call.ExitCall? && !Replaces(call) && !Suspends(k, call)
    requires call.WaitPidCall? ==> !ReapsBelow(k, call.pid)
    ensures k2.current == k.current < |k2.procs| && CallerKeeps(k, call, k2, k2.procs[k.current])
    ensures k2.procs[k.current].status == k.procs[k.current].status && k2.procs[k.current].context == k.procs[k.current].context
    ensures Answers(k, k.procs[k.current].context, call, k2, k2.procs[k.current], w)
  {
    if call.WaitPidCall? {
      HandleSound(k, call);
      WaitCaller(k, call, k2, w);
    } else if call.ForkCall? {
      ForkReturns(k, k2, w);
      if |k.procs| < MAX_PROCS { ForkIs(k); }
    } else {
      PlainReturns(k, call, k2, w);
    }
  }

  /** The status is written to the caller, and nothing else happens behind the handler. */
  lemma StatusWritten(k: State, call: Call, k1: State)
    requires Shape(k) && k.current < |k.procs| && Dispatch(k, call) == Ok(k1) && !call.ExitCall? && !Replaces(call)
    ensures Handle(k, call).Ok?
    ensures var (k2, w) := Handle(k, call).value;
            && k2.current < |k2.procs|
            && (k2.procs[k2.current].id == k.procs[k.current].id && (call.ExecCall? ==> w != 0) ==>
                  k1 == k2.(procs := k2.procs[k2.current := WithR0(k2.procs[k2.current], w)]))
  {
  }

  /** The answer does not depend on the other registers of the caller. */
  lemma AnswersMove(k: State, c: Context, call: Call, k2: State, w: Word, k1: State)
    requires k.current < |k.procs| && k.current < |k2.procs| && Answers(k, c, call, k2, k2.procs[k.current], w)
    requires k1 == k2.(procs := k2.procs[k.current := WithR0(k2.procs[k.current], w)])
    ensures Answers(k, c, call, k1, k1.procs[k.current], w)
  {
    if call.WaitPidCall? {
      assert forall i :: 0 <= i < |k1.procs| ==> k1.procs[i].id == k2.procs[i].id;
    }
  }

  lemma DispatchReturns(k: State, call: Call, k1: State)
    requires Ready(k) && Fresh(k, call) && Dispatch(k, call) == Ok(k1) && !call.ExitCall? && !Replaces(call) && !Suspends(k, call)
    ensures k.current < |k1.procs|
    ensures var p, p1 := k.procs[k.current], k1.procs[k.current];
            && CallerKeeps(k, call, k1, p1) && p1.status.Scheduled? && p1.context == p.context.(r0 := p1.context.r0)
            && Answers(k, p.context, call, k1, p1, p1.context.r0)
  {
    DispatchSound(k, call);
    StatusWritten(k, call, k1);
    var (k2, w) := Handle(k, call).value;
    HandleReturns(k, call, k2, w);
    AnswersMove(k, k.procs[k.current].context, call, k2, w, k1);
  }

  /** The saved registers do not matter to the answer. */
  lemma AnswersFromSaved(k: State, c: Context, call: Call, k1: State, p1: Process, w: Word)
    requires k.current < |k.procs| && SaveContext(k, c).Ok?
    ensures Answers(SaveContext(k, c).value, c, call, k1, p1, w) ==> Answers(k, c, call, k1, p1, w)
    ensures CallerKeeps(SaveContext(k, c).value, call, k1, p1) == CallerKeeps(k, call, k1, p1)
    ensures Suspends(SaveContext(k, c).value, call) == Suspends(k, call)
  {
    var k0 := SaveContext(k, c).value;
    assert forall i :: 0 <= i < |k.procs| ==> k0.procs[i].id == k.procs[i].id && k0.procs[i].status == k.procs[i].status;
    if Suspends(k, call) {
      var j :| 0 <= j < |k.procs| && k.procs[j].id == call.pid && Live(k.procs[j]);
      assert k0.procs[j].id == call.pid && Live(k0.procs[j]);
    }
    if Answers(k0, c, call, k1, p1, w) && call.WaitPidCall? { WaitFromSaved(k, c, call.pid, call.va, k1, w); }
  }

  lemma WaitFromSaved(k: State, c: Context, pid: int, va: Word, k1: State, w: Word)
    requires k.current < |k.procs| && SaveContext(k, c).Ok? && WaitAnswers(SaveContext(k, c).value, pid, va, k1, w)
    ensures WaitAnswers(k, pid, va, k1, w)
  {
    var k0 := SaveContext(k, c).value;
    assert forall i :: 0 <= i < |k.procs| ==> k0.procs[i].id == k.procs[i].id && k0.procs[i].status == k.procs[i].status;
    if j :| 0 <= j < |k.procs| && k.procs[j].id == pid {
      assert k0.procs[j].id == pid;
      var z :| 0 <= z < |k0.procs| && k0.procs[z].id == pid && k0.procs[z].status.Exited? && k0.procs[k0.current].section.Some?
               && Delivered(k0, k1, k0.procs[k0.current].section.value, va, WordBytes(k0.procs[z].status.wstatus));
      assert Delivered(k, k1, k.procs[k.current].section.value, va, WordBytes(k.procs[z].status.wstatus));
    }
  }

  /** The index of the next process is no part of an answer. */
  lemma CurrentIndexFree(k: State, c: Context, call: Call, k2: State, k1: State)
    requires k.current < |k.procs| && k.current < |k2.procs| && k1 == k2.(current := k1.current)
    requires Answers(k, c, call, k2, k2.procs[k.current], k2.procs[k.current].context.r0)
    ensures Answers(k, c, call, k1, k1.procs[k.current], k1.procs[k.current].context.r0)
  {
  }

  lemma ServeReturns(k: State, c: Context, call: Call, k2: State)
    requires Ready(k) && Fresh(k, call) && Serve(k, Syscall(c, call)) == Ok(k2)
    requires !call.ExitCall? && !Replaces(call) && !Suspends(k, call)
    ensures k.current < |k2.procs|
    ensures var p1 := k2.procs[k.current];
            && CallerKeeps(k, call, k2, p1) && p1.status.Scheduled? && p1.context == c.(r0 := p1.context.r0)
            && Answers(k, c, call, k2, p1, p1.context.r0)
  {
    SaveKeeps(k, c, call);
    var k0 := SaveContext(k, c).value;
    SavedServes(k, c, call);
    AnswersFromSaved(k, c, call, k2, k0.procs[k.current], 0);
    DispatchReturns(k0, call, k2);
    AnswersFromSaved(k, c, call, k2, k2.procs[k.current], k2.procs[k.current].context.r0);
  }

  lemma SavedServes(k: State, c: Context, call: Call)
    requires Shape(k) && SaveContext(k, c).Ok?
    ensures Serve(k, Syscall(c, call)) == Dispatch(SaveContext(k, c).value, call)
    ensures k.current < |k.procs| && SaveContext(k, c).value.current == k.current
    ensures SaveContext(k, c).value.procs == k.procs[k.current := k.procs[k.current].(context := c)]
  {
  }

  /** A completed system call of a process that stays scheduled: its registers are those it called with
      but for r0, and r0 is the answer. */
  lemma SyscallReturns(k: State, c: Context, call: Call, k1: State)
    requires Ready(k) && Fresh(k, call) && Step(k, Syscall(c, call)) == Ok(k1)
    requires !call.ExitCall? && !Replaces(call) && !Suspends(k, call)
    ensures k.current < |k1.procs|
    ensures var p1 := k1.procs[k.current];
            && CallerKeeps(k, call, k1, p1) && p1.status.Scheduled? && p1.context == c.(r0 := p1.context.r0)
            && Answers(k, c, call, k1, p1, p1.context.r0)
  {
    StepServes(k, Syscall(c, call), k1);
    var k2 := Serve(k, Syscall(c, call)).value;
    ServeReturns(k, c, call, k2);
    CurrentIndexFree(k, c, call, k2, k1);
  }

  /** And so it finds them at its next turn, whatever happens in between. */
  lemma CallerResumes(k: State, c: Context, call: Call, events: seq<Event>)
    requires Ready(k) && Fresh(k, call) && Step(k, Syscall(c, call)).Ok?
    requires !call.ExitCall? && !Replaces(call) && !Suspends(k, call)
    ensures Ready(Step(k, Syscall(c, call)).value)
    ensures RunFresh(Step(k, Syscall(c, call)).value, events) ==>
              var k1 := Step(k, Syscall(c, call)).value;
              var t := OnProcessor(k1, events, k.procs[k.current].id);
              t.Some? ==>
                && t.value.current < |t.value.procs| && k.current < |k1.procs|
                && var q := t.value.procs[t.value.current];
                   && q.context == c.(r0 := q.context.r0) && q.files == k1.procs[k.current].files
                   && Answers(k, c, call, k1, k1.procs[k.current], q.context.r0)
  {
    StepKeepsReady(k, Syscall(c, call));
    var k1 := Step(k, Syscall(c, call)).value;
    SyscallReturns(k, c, call, k1);
    if RunFresh(k1, events) { RegistersSurvive(k1, events, k.current); }
  }

  /** EXEC of a program: the caller goes on with the registers and the image of the program. */
  lemma ExecReplaces(k: State, c: Context, call: Call, k1: State)
    requires Ready(k) && Step(k, Syscall(c, call)) == Ok(k1) && Replaces(call)
    ensures k.current < |k1.procs| && k.procs[k.current].section.Some? && k.procs[k.current].section.value < SLOTS
    ensures var p1, (image, registers) := k1.procs[k.current], call.image.value.value;
            && CallerKeeps(k, call, k1, p1) && p1.status.Scheduled? && p1.context == registers
            && k1.memory == k.memory[k.procs[k.current].section.value := image] && k1.tables == k.tables
  {
    StepServes(k, Syscall(c, call), k1);
    CurrentFacts(k);
    SaveKeeps(k, c, call);
    ExecDispatched(SaveContext(k, c).value, call, Serve(k, Syscall(c, call)).value);
  }

  lemma ExecDispatched(k: State, call: Call, k1: State)
    requires Ready(k) && Replaces(call) && Dispatch(k, call) == Ok(k1) && k.procs[k.current].section.Some?
    requires k.procs[k.current].section.value < SLOTS
    ensures k1 == k.(procs := k.procs[k.current := k.procs[k.current].(context := call.image.value.value.1)],
                     memory := k.memory[k.procs[k.current].section.value := call.image.value.value.0])
  {
  }

  /** WAITPID for a live process: the caller is suspended with the registers it called with. */
  lemma WaitSuspends(k: State, c: Context, call: Call, k1: State)
    requires Ready(k) && Step(k, Syscall(c, call)) == Ok(k1) && Suspends(k, call)
    ensures k.current < |k1.procs|
    ensures var p, p1 := k.procs[k.current], k1.procs[k.current];
            && p1.id == p.id && p1.section == p.section && p1.parent == p.parent
            && p1.status.Suspended? && p1.status.waitPid == call.pid && p1.context == c.(r0 := 0)
  {
    LiveFound(k, call);
    CallerSuspended(k, Syscall(c, call), k1);
    SuspendedRegisters(k, Syscall(c, call), k1);
  }

  // ---- buffers ----

  /** WRITE hands over the bytes of the buffer. */
  lemma WriteHands(k: State, va: Word, n: nat)
    requires Ready(k) && BufferOk(va, n)
    ensures k.procs[k.current].section.Some? && k.procs[k.current].section.value < SLOTS
    ensures Handed(k, va, n) == Some(k.memory[k.procs[k.current].section.value][va % SECTION_SIZE..va % SECTION_SIZE + n])
  {
    CurrentFacts(k);
    PointerIs(k, va);
    InOwnSection(k.procs[k.current].section.value, va, n);
  }

  /** What a process reads into a buffer is what it writes from it at its next turn. */
  lemma ReadThenWrite(k: State, c: Context, fd: nat, va: Word, bytes: seq<Byte>, status: Word, k1: State)
    requires Ready(k) && HasFile(k.procs[k.current], fd) && bytes != [] && BufferOk(va, |bytes|)
    requires Step(k, Syscall(c, ReadCall(fd, va, Done((bytes, status))))) == Ok(k1) && Ready(k1) && k1.current == k.current
    ensures Handed(k1, va, |bytes|) == Some(bytes)
  {
    SyscallReturns(k, c, ReadCall(fd, va, Done((bytes, status))), k1);
    WriteHands(k1, va, |bytes|);
    CurrentFacts(k);
    assert Delivered(k, k1, k.procs[k.current].section.value, va, bytes);
  }
}
