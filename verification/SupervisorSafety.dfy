/** Safety of the supervisor over every run: no lost wake-up despite coalescing signals, exact exit
    code and kill behaviour, and no child output lost or reordered. */
module SupervisorSafety {
  import opened Supervisor

  // ----- the history and what it means

  /** Children started and not yet reaped, as the history tells it. */
  function Outstanding(h: seq<Event>): set<int> {
    if h == [] then {} else After(Outstanding(h[..|h| - 1]), h[|h| - 1])
  }

  function After(before: set<int>, e: Event): set<int> {
    match e
    case Forked(pid) => before + {pid}
    case Reaped(pid, _) => before - {pid}
    case Forwarded(_, _) => before
    case Terminated(_) => before
  }

  predicate Failure(e: Event) {
    e.Reaped? && e.code != 0
  }

  /** A child has failed, or a signal has been forwarded: later failures no longer count. */
  predicate Settled(h: seq<Event>) {
    exists k :: 0 <= k < |h| && (h[k].Forwarded? || Failure(h[k]))
  }

  /** The code of the first child that failed before any signal was forwarded, else 0. */
  function FirstFailure(h: seq<Event>): int {
    if h == [] || h[0].Forwarded? then 0 else if Failure(h[0]) then h[0].code else FirstFailure(h[1..])
  }

  /** The last event is the failure that has to be answered by terminating the other children. */
  predicate Awaiting(h: seq<Event>) {
    h != [] && Failure(h[|h| - 1]) && !Settled(h[..|h| - 1])
  }

  predicate NothingReaped(h: seq<Event>) {
    forall k :: 0 <= k < |h| ==> !h[k].Reaped?
  }

  /** What may happen next: only outstanding children are reaped, every kill goes to exactly the
      outstanding children, and the terminating broadcast directly follows the first failure. */
  predicate EventOk(before: seq<Event>, e: Event) {
    match e
    case Forked(pid) => pid !in Outstanding(before) && NothingReaped(before)
    case Reaped(pid, _) => pid in Outstanding(before) && !Awaiting(before)
    case Forwarded(_, targets) => targets == Outstanding(before) && !Awaiting(before)
    case Terminated(targets) => targets == Outstanding(before) && Awaiting(before)
  }

  predicate HistoryOk(h: seq<Event>) {
    h == [] || (HistoryOk(h[..|h| - 1]) && EventOk(h[..|h| - 1], h[|h| - 1]))
  }

  lemma {:induction false} EventAt(h: seq<Event>, k: nat)
    requires HistoryOk(h) && k < |h|
    ensures EventOk(h[..k], h[k])
    decreases |h|
  {
    if k < |h| - 1 {
      EventAt(h[..|h| - 1], k);
      assert h[..|h| - 1][..k] == h[..k];
    }
  }

  lemma {:induction false} FirstFailureAppend(h: seq<Event>, e: Event)
    ensures FirstFailure(h + [e]) == if Settled(h) then FirstFailure(h) else FirstFailure([e])
    ensures Settled(h + [e]) == (Settled(h) || e.Forwarded? || Failure(e))
    ensures !Settled(h) ==> FirstFailure(h) == 0
  {
    assert (h + [e])[|h|] == e;
    assert forall k :: 0 <= k < |h| ==> (h + [e])[k] == h[k];
    if h != [] {
      assert (h + [e])[1..] == h[1..] + [e];
      assert forall k :: 1 <= k < |h| ==> h[k] == h[1..][k - 1];
      FirstFailureAppend(h[1..], e);
    } else {
      assert h + [e] == [e];
    }
  }

  lemma AppendHistory(h: seq<Event>, e: Event)
    requires HistoryOk(h) && EventOk(h, e)
    ensures HistoryOk(h + [e])
    ensures Awaiting(h + [e]) == (Failure(e) && !Settled(h))
    ensures Outstanding(h + [e]) == After(Outstanding(h), e)
  {
    assert (h + [e])[..|h + [e]| - 1] == h;
  }

  // ----- the invariant

  function Remaining(pc: Pc): seq<Source> {
    if pc.Batch? || pc.ReadSignal? || pc.Reap? || pc.Drain? then pc.events else []
  }

  predicate PcOk(s: State) {
    && Distinct(Remaining(s.pc))
    && |Remaining(s.pc)| <= EVENT_SIZE
    && (forall e :: e in Remaining(s.pc) && e.PipeFd? ==> e.child < |s.pipes|)
    && match s.pc
       case Fork(next) => next <= |s.pids| && forall i :: next <= i < |s.pids| ==> s.pids[i] == 0
       case Register(next) => next <= |s.pids|
       case Wait => AnyValidPid(s.pids)
       case Drain(i, events) => i < |s.pipes| && PipeFd(i) !in events
       case ReadSignal(events) => SignalFd !in events
       case Reap(events) => SignalFd !in events
       case FinalDrain(i) => i <= |s.pids| && !AnyValidPid(s.pids)
       case Done => !AnyValidPid(s.pids)
       case _ => true
  }

  ghost predicate Structure(s: State) {
    && 0 < |s.pids| == |s.pipes|
    && (forall i :: 0 <= i < |s.pids| ==> 0 <= s.pids[i])
    && (forall i :: 0 <= i < |s.pids| && 0 < s.pids[i] ==> s.pids[i] in s.table)
    && (forall i, j :: 0 <= i < j < |s.pids| && 0 < s.pids[i] ==> s.pids[i] != s.pids[j])
    && (forall pid :: pid in s.table ==> 0 < pid)
    && PcOk(s)
  }

  /** No lost wake-up: a dead child not yet reaped means SIGCHLD is pending or the reap loop has
      not yet seen waitpid run dry; and a signalfd event in hand means a signal is pending. */
  ghost predicate Wakeup(s: State) {
    && (forall i :: 0 <= i < |s.pids| && 0 < s.pids[i] && s.pids[i] in s.table && s.table[s.pids[i]].Zombie? ==>
          SIGCHLD in s.pending || s.pc.Reap?)
    && (SignalFd in Remaining(s.pc) ==> s.pending != {})
  }

  /** Unread output of pipe `i` will still be looked at. */
  predicate Attended(s: State, i: nat)
    requires i < |s.pipes|
  {
    match s.pc
    case Fork(_) => true
    case Register(next) => next <= i || s.pipes[i].edge
    case LoopTop => s.pipes[i].edge
    case Wait => s.pipes[i].edge
    case Drain(c, events) => s.pipes[i].edge || c == i || PipeFd(i) in events
    case FinalDrain(c) => c <= i
    case Done => false
    case _ => s.pipes[i].edge || PipeFd(i) in s.pc.events
  }

  predicate PipeOk(s: State, i: nat)
    requires i < |s.pipes|
  {
    var p := s.pipes[i];
    && p.written == p.forwarded + p.unread
    && p.readOpen && p.parentEnd
    && p.registered == (if s.pc.Fork? then false else if s.pc.Register? then i < s.pc.next else true)
    && (p.edge ==> p.registered)
    && (p.unread != "" ==> Attended(s, i))
  }

  ghost predicate Output(s: State) {
    forall i :: 0 <= i < |s.pipes| ==> PipeOk(s, i)
  }

  ghost predicate Record(s: State) {
    && HistoryOk(s.history)
    && !Awaiting(s.history)
    && LivePids(s.pids) == Outstanding(s.history)
    && s.raised == Settled(s.history)
    && s.exitCode == FirstFailure(s.history)
    && (s.pc.Fork? || s.pc.Register? ==> NothingReaped(s.history))
  }

  ghost predicate Inv(s: State) {
    Structure(s) && Wakeup(s) && Output(s) && Record(s)
  }

  lemma InitInv(s: State)
    requires Init(s)
    ensures Inv(s)
  {
    assert LivePids(s.pids) == {};
  }

  // ----- environment steps keep it

  lemma EnvInv(s: State, t: State)
    requires Inv(s) && EnvNext(s, t)
    ensures Inv(t)
  {
    if i: nat, data :| CanWrite(s, i, data) && t == DoWrite(s, i, data) {
      WriteOutput(s, i, data);
    } else if pid, status :| CanExit(s, pid) && t == DoExit(s, pid, status) {
      ExitInv(s, pid, status);
    } else {
      var sig :| t == DoSignal(s, sig);
      ArriveInv(s, sig);
    }
  }

  lemma ExitInv(s: State, pid: int, status: Status)
    requires Inv(s) && CanExit(s, pid)
    ensures Inv(DoExit(s, pid, status))
  {
    SamePipes(s, DoExit(s, pid, status));
  }

  lemma ArriveInv(s: State, sig: Signal)
    requires Inv(s)
    ensures Inv(DoSignal(s, sig))
  {
    SamePipes(s, DoSignal(s, sig));
  }

  lemma WriteOutput(s: State, i: nat, data: string)
    requires Inv(s) && CanWrite(s, i, data)
    ensures Output(DoWrite(s, i, data))
  {
    var t := DoWrite(s, i, data);
    forall j | 0 <= j < |t.pipes|
      ensures PipeOk(t, j)
    {
      assert PipeOk(s, j);
      if j == i {
        assert s.pipes[i].forwarded + s.pipes[i].unread + data == s.pipes[i].forwarded + (s.pipes[i].unread + data);
      }
    }
  }

  // ----- runner steps keep it

  lemma RunnerInv(s: State, t: State)
    requires Inv(s) && RunnerNext(s, t)
    ensures Inv(t)
  {
    match s.pc
    case Fork(next) =>
      if next < |s.pids| {
        var pid :| 0 < pid && pid !in s.table && t == DoFork(s, pid);
        ForkInv(s, pid);
      } else {
        MoveInv(s, t.pc);
      }
    case Register(next) => RegisterInv(s, t);
    case LoopTop => MoveInv(s, t.pc);
    case Wait =>
      var events :| CanWait(s, events) && t == DoWait(s, events);
      WaitInv(s, events);
    case Batch(events) => BatchInv(s, t);
    case ReadSignal(events) =>
      if s.pending == {} {
        MoveInv(s, t.pc);
      } else {
        var sig :| sig in s.pending && t == DoReadSignal(s, sig);
        SignalInv(s, sig);
      }
    case Reap(events) =>
      if HasZombie(s.table) {
        var pid :| pid in s.table && s.table[pid].Zombie? && t == DoReap(s, pid);
        ReapInv(s, pid);
      } else {
        MoveInv(s, t.pc);
      }
    case Drain(i, events) => DrainInv(s, i, t);
    case FinalDrain(i) =>
      if i < |s.pipes| { DrainInv(s, i, t); } else { MoveInv(s, t.pc); }
  }

  /** Steps that only move the program counter. */
  predicate Moves(s: State, pc: Pc) {
    match s.pc
    case Fork(next) => next == |s.pids| && pc == Register(0)
    case LoopTop => pc == if AnyValidPid(s.pids) then Wait else FinalDrain(0)
    case Wait => pc == LoopTop
    case ReadSignal(events) => s.pending == {} && pc == Batch(events)
    case Reap(events) => !HasZombie(s.table) && pc == ReadSignal(events)
    case FinalDrain(i) => i == |s.pipes| && pc == Done
    case _ => false
  }

  lemma MoveInv(s: State, pc: Pc)
    requires Inv(s) && Moves(s, pc)
    ensures Inv(s.(pc := pc))
  {
    SamePipes(s, s.(pc := pc));
  }

  /** Steps that leave the pipes alone keep Output as long as nothing unread loses its attention. */
  lemma SamePipes(s: State, t: State)
    requires Inv(s) && s.pipes == t.pipes
    requires forall i :: 0 <= i < |s.pipes| && s.pipes[i].unread != "" && Attended(s, i) ==> Attended(t, i)
    requires (s.pc.Fork? <==> t.pc.Fork?) || (s.pc.Fork? && t.pc == Register(0))
    requires s.pc.Register? ==> (t.pc == s.pc) || (s.pc.next == |s.pipes| && !t.pc.Fork? && !t.pc.Register?)
    requires t.pc.Register? ==> s.pc.Fork? || s.pc.Register?
    ensures Output(t)
  {
    forall i | 0 <= i < |t.pipes|
      ensures PipeOk(t, i)
    {
      assert PipeOk(s, i);
    }
  }

  lemma ForkInv(s: State, pid: int)
    requires Inv(s) && s.pc.Fork? && s.pc.next < |s.pids| && 0 < pid && pid !in s.table
    ensures Inv(DoFork(s, pid))
  {
    var t := DoFork(s, pid);
    assert Output(t) by { SamePipes(s, t); }
    assert Record(t) by { ForkRecord(s, pid); }
  }

  lemma SetLivePid(pids: seq<int>, i: nat, pid: int)
    requires i < |pids| && pids[i] == 0 && 0 < pid
    ensures LivePids(pids[i := pid]) == LivePids(pids) + {pid}
  {
    var after := pids[i := pid];
    assert after[i] == pid;
    assert forall j :: 0 <= j < |pids| && j != i ==> after[j] == pids[j];
  }

  lemma ForkRecord(s: State, pid: int)
    requires Inv(s) && s.pc.Fork? && s.pc.next < |s.pids| && 0 < pid && pid !in s.table
    ensures Record(DoFork(s, pid))
  {
    SetLivePid(s.pids, s.pc.next, pid);
    AppendHistory(s.history, Forked(pid));
    FirstFailureAppend(s.history, Forked(pid));
  }

  lemma RegisterOutput(s: State)
    requires Inv(s) && s.pc.Register? && s.pc.next < |s.pipes|
    ensures Output(DoRegister(s))
  {
    var t := DoRegister(s);
    forall i | 0 <= i < |t.pipes|
      ensures PipeOk(t, i)
    {
      assert PipeOk(s, i);
    }
  }

  lemma RegisterInv(s: State, t: State)
    requires Inv(s) && s.pc.Register? && RunnerNext(s, t)
    ensures Inv(t)
  {
    if s.pc.next < |s.pipes| {
      RegisterOutput(s);
    } else {
      SamePipes(s, t);
    }
  }

  lemma WaitInv(s: State, events: seq<Source>)
    requires Inv(s) && s.pc.Wait? && CanWait(s, events)
    ensures Inv(DoWait(s, events))
  {
    var t := DoWait(s, events);
    forall i | 0 <= i < |t.pipes|
      ensures PipeOk(t, i)
    {
      assert PipeOk(s, i);
    }
    forall e | e in events && e.PipeFd?
      ensures e.child < |t.pipes|
    {
      assert Ready(s, e);
    }
    if SignalFd in events {
      assert Ready(s, SignalFd);
    }
  }

  lemma BatchInv(s: State, t: State)
    requires Inv(s) && s.pc.Batch? && RunnerNext(s, t)
    ensures Inv(t)
  {
    var events := s.pc.events;
    if events == [] {
      SamePipes(s, t);
    } else {
      assert events == [events[0]] + events[1..];
      assert forall e :: e in events <==> e == events[0] || e in events[1..];
      if events[0].PipeFd? {
        PipeEventInv(s, t);
      } else {
        SamePipes(s, t);
      }
    }
  }

  lemma PipeEventInv(s: State, t: State)
    requires Inv(s) && s.pc.Batch? && s.pc.events != [] && s.pc.events[0].PipeFd? && RunnerNext(s, t)
    ensures Inv(t)
  {
    var events := s.pc.events;
    assert events == [events[0]] + events[1..];
    assert forall e :: e in events <==> e == events[0] || e in events[1..];
    assert events[0] in Remaining(s.pc);
    assert PipeOk(s, events[0].child);
    SamePipes(s, t);
  }

  lemma SignalInv(s: State, sig: Signal)
    requires Inv(s) && s.pc.ReadSignal? && sig in s.pending
    ensures Inv(DoReadSignal(s, sig))
  {
    var t := DoReadSignal(s, sig);
    SamePipes(s, t);
    if sig != SIGCHLD {
      var e := Forwarded(sig, LivePids(s.pids));
      AppendHistory(s.history, e);
      FirstFailureAppend(s.history, e);
    }
  }

  lemma ClearLivePid(pids: seq<int>, i: nat)
    requires i < |pids| && 0 < pids[i]
    requires forall j, k :: 0 <= j < k < |pids| && 0 < pids[j] ==> pids[j] != pids[k]
    ensures LivePids(pids[i := 0]) == LivePids(pids) - {pids[i]}
  {
    var after := pids[i := 0];
    assert forall j :: 0 <= j < |pids| && j != i ==> after[j] == pids[j] && after[j] != pids[i];
    forall p | p in LivePids(pids) && p != pids[i]
      ensures p in LivePids(after)
    {
      var j :| 0 <= j < |pids| && 0 < pids[j] && pids[j] == p;
      assert after[j] == p;
    }
  }

  lemma ReapRecord(s: State, pid: int)
    requires Inv(s) && s.pc.Reap? && pid in s.table && s.table[pid].Zombie?
    ensures Record(DoReap(s, pid))
  {
    var t := DoReap(s, pid);
    var i := IndexOf(s.pids, pid);
    if i < |s.pids| {
      assert pid in LivePids(s.pids);
      ClearLivePid(s.pids, i);
      var e := Reaped(pid, ExitCode(s.table[pid].status));
      AppendHistory(s.history, e);
      FirstFailureAppend(s.history, e);
      if Failure(e) && !s.raised {
        var k := Terminated(LivePids(t.pids));
        AppendHistory(s.history + [e], k);
        FirstFailureAppend(s.history + [e], k);
      }
    }
  }

  lemma ReapStructure(s: State, pid: int)
    requires Inv(s) && s.pc.Reap? && pid in s.table && s.table[pid].Zombie?
    ensures Structure(DoReap(s, pid)) && Wakeup(DoReap(s, pid))
  {
    var t := DoReap(s, pid);
    assert t.pipes == s.pipes && t.pc == s.pc && t.pending == s.pending && t.table == s.table - {pid};
    assert forall i :: 0 <= i < |s.pids| ==> t.pids[i] == 0 || (t.pids[i] == s.pids[i] && t.pids[i] != pid);
  }

  lemma ReapInv(s: State, pid: int)
    requires Inv(s) && s.pc.Reap? && pid in s.table && s.table[pid].Zombie?
    ensures Inv(DoReap(s, pid))
  {
    var t := DoReap(s, pid);
    assert Structure(t) && Wakeup(t) by { ReapStructure(s, pid); }
    assert Output(t) by { SamePipes(s, t); }
    assert Record(t) by { ReapRecord(s, pid); }
  }

  lemma ReadOutput(s: State, i: nat, k: nat)
    requires Inv(s) && CanRead(s, i, k)
    ensures Output(DoRead(s, i, k))
  {
    var t := DoRead(s, i, k);
    var p := s.pipes[i];
    assert p.forwarded + p.unread[..k] + p.unread[k..] == p.forwarded + p.unread;
    forall j | 0 <= j < |t.pipes|
      ensures PipeOk(t, j)
    {
      assert PipeOk(s, j);
    }
  }

  lemma DrainInv(s: State, i: nat, t: State)
    requires Inv(s) && RunnerNext(s, t) && i < |s.pipes|
    requires (s.pc.Drain? && s.pc.child == i) || s.pc == FinalDrain(i)
    ensures Inv(t)
  {
    assert PipeOk(s, i);
    if k: nat :| CanRead(s, i, k) && t == DoRead(s, i, k) {
      ReadOutput(s, i, k);
    } else {
      DrainedInv(s, i, t);
    }
  }

  /** The end of a drain: the pipe is empty, so it needs no more attention. */
  lemma DrainedInv(s: State, i: nat, t: State)
    requires Inv(s) && Drained(s, i)
    requires
      || (s.pc.Drain? && s.pc.child == i && t == s.(pc := Batch(s.pc.events)))
      || (s.pc == FinalDrain(i) && t == s.(pc := FinalDrain(i + 1)))
    ensures Inv(t)
  {
    assert PipeOk(s, i);
    SamePipes(s, t);
  }

  lemma NextInv(s: State, t: State)
    requires Inv(s) && Next(s, t)
    ensures Inv(t)
  {
    if RunnerNext(s, t) {
      RunnerInv(s, t);
    } else if EnvNext(s, t) {
      EnvInv(s, t);
    } else if s.pc.Wait? {
      MoveInv(s, LoopTop);
    }
  }

  /** The invariant holds in every state of every run. */
  lemma {:induction false} RunInv(run: seq<State>, k: nat)
    requires IsRun(run) && k < |run|
    ensures Inv(run[k])
  {
    if k == 0 {
      InitInv(run[0]);
    } else {
      RunInv(run, k - 1);
      assert StepAt(run, k - 1);
      NextInv(run[k - 1], run[k]);
    }
  }

  // ----- what the invariant says about every run

  /** The runner sits in epoll_wait and nothing is ready. */
  ghost predicate Blocked(s: State) {
    s.pc.Wait? && forall e :: !Ready(s, e)
  }

  predicate StillRunning(s: State, i: nat) {
    i < |s.pids| && 0 < s.pids[i] && s.pids[i] in s.table && s.table[s.pids[i]].Running?
  }

  /** The runner is never stuck behind a lost wake-up: while it is blocked, every child not yet
      reaped is still running, there is one, and every byte any child wrote has been forwarded. */
  lemma NoLostWakeup(run: seq<State>, k: nat)
    requires IsRun(run) && k < |run|
    ensures Wakeup(run[k])
    ensures Blocked(run[k]) ==>
      && (exists i :: StillRunning(run[k], i))
      && (forall i :: 0 <= i < |run[k].pids| && 0 < run[k].pids[i] ==> StillRunning(run[k], i))
      && (forall i :: 0 <= i < |run[k].pipes| ==> run[k].pipes[i].forwarded == run[k].pipes[i].written)
  {
    RunInv(run, k);
    var s := run[k];
    if Blocked(s) {
      assert !Ready(s, SignalFd);
      var i :| 0 <= i < |s.pids| && 0 < s.pids[i];
      assert StillRunning(s, i);
      forall j | 0 <= j < |s.pipes|
        ensures s.pipes[j].forwarded == s.pipes[j].written
      {
        assert PipeOk(s, j) && !Ready(s, PipeFd(j));
      }
    }
  }

  /** Per child, the output forwarded so far is a prefix of what it wrote, and all of it on return. */
  lemma OutputForwarded(run: seq<State>, k: nat, i: nat)
    requires IsRun(run) && k < |run| && i < |run[k].pipes|
    ensures run[k].pipes[i].forwarded <= run[k].pipes[i].written
    ensures run[k].pc.Done? ==> run[k].pipes[i].forwarded == run[k].pipes[i].written
    ensures !CanSeeEof(run[k], i)
  {
    RunInv(run, k);
    assert PipeOk(run[k], i);
  }

  lemma StepGrowsHistory(s: State, t: State)
    requires Next(s, t)
    ensures s.history <= t.history
  {
  }

  lemma {:induction false} HistoryGrows(run: seq<State>, j: nat, k: nat)
    requires forall i :: 0 <= i < |run| - 1 ==> run[i].history <= run[i + 1].history
    requires j <= k < |run|
    ensures run[j].history <= run[k].history
  {
    if j < k {
      HistoryGrows(run, j, k - 1);
      assert run[k - 1].history <= run[k - 1 + 1].history;
    }
  }

  lemma StepsGrow(run: seq<State>)
    requires IsRun(run)
    ensures run[0].history == [] && forall i :: 0 <= i < |run| - 1 ==> run[i].history <= run[i + 1].history
  {
    forall i | 0 <= i < |run| - 1
      ensures run[i].history <= run[i + 1].history
    {
      assert StepAt(run, i);
      StepGrowsHistory(run[i], run[i + 1]);
    }
  }

  lemma {:induction false} FirstFailurePrefix(g: seq<Event>, h: seq<Event>)
    requires g <= h && FirstFailure(g) != 0
    ensures FirstFailure(h) == FirstFailure(g)
  {
    if !g[0].Forwarded? && !Failure(g[0]) {
      FirstFailurePrefix(g[1..], h[1..]);
    }
  }

  /** The exit code is exactly the first failure reaped before any forwarded signal, and once it has
      been written it never changes. */
  lemma ExitCodeExact(run: seq<State>, j: nat, k: nat)
    requires IsRun(run) && j <= k < |run|
    ensures run[k].exitCode == FirstFailure(run[k].history)
    ensures run[j].exitCode != 0 ==> run[k].exitCode == run[j].exitCode
  {
    RunInv(run, j);
    RunInv(run, k);
    StepsGrow(run);
    HistoryGrows(run, j, k);
    if run[j].exitCode != 0 {
      FirstFailurePrefix(run[j].history, run[k].history);
    }
  }

  /** A failing child's code is propagated exactly when some child failed before the first forwarded
      signal; a failure after one is masked. */
  lemma PropagatedExactly(run: seq<State>, k: nat)
    requires IsRun(run) && k < |run|
    ensures var h := run[k].history;
      run[k].exitCode != 0 <==> exists n :: 0 <= n < |h| && Failure(h[n]) && forall j :: 0 <= j < n ==> !h[j].Forwarded?
  {
    ExitCodeExact(run, k, k);
    PropagatedIff(run[k].history);
  }

  lemma {:induction false} PropagatedIff(h: seq<Event>)
    ensures FirstFailure(h) != 0 <==>
      exists k :: 0 <= k < |h| && Failure(h[k]) && forall j :: 0 <= j < k ==> !h[j].Forwarded?
  {
    if h != [] && !h[0].Forwarded? && !Failure(h[0]) {
      PropagatedIff(h[1..]);
      if k :| 0 <= k < |h| && Failure(h[k]) && forall j :: 0 <= j < k ==> !h[j].Forwarded? {
        assert h[1..][k - 1] == h[k];
        assert forall j :: 0 <= j < k - 1 ==> h[1..][j] == h[j + 1];
      }
      if k :| 0 <= k < |h[1..]| && Failure(h[1..][k]) && forall j :: 0 <= j < k ==> !h[1..][j].Forwarded? {
        assert h[k + 1] == h[1..][k];
        assert forall j :: 1 <= j < k + 1 ==> h[j] == h[1..][j - 1];
        assert Failure(h[k + 1]) && forall j :: 0 <= j < k + 1 ==> !h[j].Forwarded?;
      }
    }
  }

  predicate IsKill(e: Event) {
    e.Forwarded? || e.Terminated?
  }

  lemma {:induction false} ReapedStaysOut(h: seq<Event>, j: nat, k: nat)
    requires HistoryOk(h) && j < k <= |h| && h[j].Reaped?
    ensures h[j].pid !in Outstanding(h[..k])
    decreases k
  {
    EventAt(h, k - 1);
    assert h[..k][..k - 1] == h[..k - 1];
    if j < k - 1 {
      ReapedStaysOut(h, j, k - 1);
      assert h[..k - 1][j] == h[j];
    }
  }

  /** Kills, over every run: each goes to exactly the children started and not yet reaped, none to a
      pid reaped earlier; the terminating broadcast happens at most once, and directly after the
      first failure if no signal was forwarded before that. */
  lemma KillsExact(run: seq<State>, m: nat, k: nat)
    requires IsRun(run) && m < |run| && k < |run[m].history|
    ensures var h := run[m].history;
      && (IsKill(h[k]) ==> h[k].targets == Outstanding(h[..k]))
      && (forall j :: 0 <= j < k && IsKill(h[k]) && h[j].Reaped? ==> h[j].pid !in h[k].targets)
      && (forall j :: 0 <= j < k && h[j].Terminated? ==> !h[k].Terminated?)
      && (Failure(h[k]) && !Settled(h[..k]) <==> k + 1 < |h| && h[k + 1].Terminated?)
  {
    RunInv(run, m);
    var h := run[m].history;
    EventAt(h, k);
    forall j | 0 <= j < k && IsKill(h[k]) && h[j].Reaped?
      ensures h[j].pid !in h[k].targets
    {
      ReapedStaysOut(h, j, k);
    }
    forall j | 0 <= j < k && h[j].Terminated?
      ensures !h[k].Terminated?
    {
      EventAt(h, j);
      assert h[..j][j - 1] == h[j - 1] && h[..k][..k - 1] == h[..k - 1];
      assert h[..k - 1][j - 1] == h[j - 1];
    }
    assert h[..k + 1][..k] == h[..k];
    if k + 1 < |h| {
      EventAt(h, k + 1);
    } else {
      assert h[..k + 1] == h;
    }
  }
}
