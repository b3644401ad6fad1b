/** Termination of the supervisor. With the environment quiet, the runner's own steps cannot go on
    for ever; they stop only in `Done` or in an epoll_wait with nothing ready; and once all remaining
    children are dead the second is impossible, so the runner returns. */
module SupervisorProgress {
  import opened Supervisor
  import opened SupervisorSafety

  // ----- a rank that every runner step lowers

  function PipeWork(pipes: seq<Pipe>): nat {
    if pipes == [] then 0
    else |pipes[0].unread| + (if pipes[0].edge then 1 else 0) + PipeWork(pipes[1..])
  }

  /** Signals to read, children to wait for, bytes to read, edges to deliver. */
  function Work(s: State): nat {
    |s.pending| + |s.table| + PipeWork(s.pipes)
  }

  /** Registering a pipe can raise one edge, so pipes still to register count as work. */
  function Major(s: State): nat {
    Work(s) + if s.pc.Register? && s.pc.next <= |s.pipes| then |s.pipes| - s.pc.next else 0
  }

  /** How far the runner is from the next step that does some work or ends the program. A batch that
      still holds the signalfd event is close: a signal is pending and about to be read. */
  function Minor(s: State): nat {
    var n := |s.pipes|;
    match s.pc
    case Done => 0
    case FinalDrain(i) => if i <= n then n - i + 1 else 0
    case ReadSignal(events) => if s.pending != {} then n + 2 else n + 53 + 2 * |events|
    case Batch(events) => n + 2 + 2 * |events| + if SignalFd in events then 0 else 50
    case Drain(_, events) => n + 3 + 2 * |events| + if SignalFd in events then 0 else 50
    case Wait => n + 42
    case LoopTop => n + 43
    case Reap(events) => n + 54 + 2 * |events|
    case Register(i) => n + 90 + if i <= n then n - i else 0
    case Fork(_) => 0
  }

  ghost predicate Lower(t: State, s: State) {
    Major(t) < Major(s) || (Major(t) == Major(s) && Minor(t) < Minor(s))
  }

  lemma {:induction false} PipeWorkUpdate(pipes: seq<Pipe>, i: nat, p: Pipe)
    requires i < |pipes|
    ensures PipeWork(pipes[i := p]) + PipeWork([pipes[i]]) == PipeWork(pipes) + PipeWork([p])
  {
    if i == 0 {
      assert pipes[0 := p][1..] == pipes[1..];
    } else {
      PipeWorkUpdate(pipes[1..], i - 1, p);
      assert pipes[i := p][1..] == pipes[1..][i - 1 := p];
    }
  }

  /** Pipes that only lose edges, at least one of them, lose work. */
  lemma {:induction false} EdgesDelivered(before: seq<Pipe>, after: seq<Pipe>)
    requires |before| == |after|
    requires forall i :: 0 <= i < |before| ==> after[i] == before[i] || after[i] == before[i].(edge := false)
    ensures PipeWork(after) <= PipeWork(before)
    ensures (exists i :: 0 <= i < |before| && before[i].edge && !after[i].edge) ==> PipeWork(after) < PipeWork(before)
  {
    if before != [] {
      assert forall i :: 0 <= i < |before| - 1 ==> before[1..][i] == before[i + 1] && after[1..][i] == after[i + 1];
      EdgesDelivered(before[1..], after[1..]);
      if i :| 0 <= i < |before| && before[i].edge && !after[i].edge {
        if i > 0 {
          assert before[1..][i - 1].edge && !after[1..][i - 1].edge;
        }
      }
    }
  }

  lemma RegisterLowers(s: State, t: State)
    requires Inv(s) && s.pc.Register? && RunnerNext(s, t)
    ensures Lower(t, s)
  {
    var i := s.pc.next;
    if i < |s.pipes| {
      assert PipeOk(s, i);
      PipeWorkUpdate(s.pipes, i, t.pipes[i]);
      assert PipeWork([s.pipes[i]]) == |s.pipes[i].unread|;
    }
  }

  lemma WaitLowers(s: State, events: seq<Source>)
    requires Inv(s) && s.pc.Wait? && CanWait(s, events)
    ensures Lower(DoWait(s, events), s)
  {
    var t := DoWait(s, events);
    EdgesDelivered(s.pipes, t.pipes);
    if SignalFd !in events {
      var e := events[0];
      assert e in events && Ready(s, e);
      assert s.pipes[e.child].edge && !t.pipes[e.child].edge;
    }
  }

  lemma BatchLowers(s: State, t: State)
    requires Inv(s) && s.pc.Batch? && RunnerNext(s, t)
    ensures Lower(t, s)
  {
    var events := s.pc.events;
    if events != [] {
      assert events == [events[0]] + events[1..];
      assert SignalFd in events <==> events[0] == SignalFd || SignalFd in events[1..];
      if events[0].PipeFd? {
        assert events[0] in Remaining(s.pc);
        assert PipeOk(s, events[0].child);
      }
    }
  }

  lemma SignalLowers(s: State, t: State)
    requires s.pc.ReadSignal? && RunnerNext(s, t)
    ensures Lower(t, s)
  {
    if s.pending != {} {
      var sig :| sig in s.pending && t == DoReadSignal(s, sig);
      SignalTaken(s, sig);
    }
  }

  lemma SignalTaken(s: State, sig: Signal)
    requires s.pc.ReadSignal? && sig in s.pending
    ensures Major(DoReadSignal(s, sig)) < Major(s)
  {
    var t := DoReadSignal(s, sig);
    assert t.pending == s.pending - {sig} && |s.pending - {sig}| == |s.pending| - 1;
    assert t.table == s.table && t.pipes == s.pipes && !t.pc.Register?;
  }

  lemma ReapSize(s: State, pid: int)
    requires pid in s.table && s.table[pid].Zombie?
    ensures var t := DoReap(s, pid);
      |t.table| == |s.table| - 1 && t.pipes == s.pipes && t.pending == s.pending && t.pc == s.pc
  {
    assert (s.table - {pid}).Keys == s.table.Keys - {pid};
    assert |s.table.Keys - {pid}| == |s.table.Keys| - 1;
  }

  lemma ReapLowers(s: State, t: State)
    requires s.pc.Reap? && RunnerNext(s, t)
    ensures Lower(t, s)
  {
    if HasZombie(s.table) {
      var pid :| pid in s.table && s.table[pid].Zombie? && t == DoReap(s, pid);
      ReapSize(s, pid);
    }
  }

  lemma DrainLowers(s: State, i: nat, t: State)
    requires Inv(s) && RunnerNext(s, t) && i < |s.pipes|
    requires (s.pc.Drain? && s.pc.child == i) || s.pc == FinalDrain(i)
    ensures Lower(t, s)
  {
    assert PipeOk(s, i);
    if k: nat :| CanRead(s, i, k) && t == DoRead(s, i, k) {
      PipeWorkUpdate(s.pipes, i, t.pipes[i]);
      assert PipeWork([t.pipes[i]]) == PipeWork([s.pipes[i]]) - k;
    }
  }

  /** Every runner step after start-up lowers the rank. */
  lemma RunnerLowers(s: State, t: State)
    requires Inv(s) && !s.pc.Fork? && RunnerNext(s, t)
    ensures Lower(t, s)
  {
    match s.pc
    case Register(_) => RegisterLowers(s, t);
    case LoopTop =>
    case Wait =>
      var events :| CanWait(s, events) && t == DoWait(s, events);
      WaitLowers(s, events);
    case Batch(_) => BatchLowers(s, t);
    case ReadSignal(_) => SignalLowers(s, t);
    case Reap(_) => ReapLowers(s, t);
    case Drain(i, _) => DrainLowers(s, i, t);
    case FinalDrain(i) => if i < |s.pipes| { DrainLowers(s, i, t); }
  }

  // ----- when the runner has a step to take

  ghost predicate Enabled(s: State) {
    exists t :: RunnerNext(s, t)
  }

  /** The runner can move unless it has returned or is blocked in epoll_wait. */
  lemma EnabledUnlessBlocked(s: State) returns (t: State)
    requires Inv(s) && !s.pc.Fork? && !s.pc.Done? && !Blocked(s)
    ensures RunnerNext(s, t)
  {
    match s.pc
    case Register(next) => t := if next < |s.pipes| then DoRegister(s) else s.(pc := LoopTop);
    case LoopTop => t := s.(pc := if AnyValidPid(s.pids) then Wait else FinalDrain(0));
    case Wait =>
      var e :| Ready(s, e);
      assert CanWait(s, [e]);
      t := DoWait(s, [e]);
    case Batch(events) =>
      t := s.(pc :=
        if events == [] then LoopTop
        else match events[0]
             case SignalFd => ReadSignal(events[1..])
             case PipeFd(i) => if i < |s.pipes| && s.pipes[i].readOpen then Drain(i, events[1..]) else Batch(events[1..]));
    case ReadSignal(events) =>
      if s.pending == {} {
        t := s.(pc := Batch(events));
      } else {
        var sig :| sig in s.pending;
        t := DoReadSignal(s, sig);
      }
    case Reap(events) =>
      if HasZombie(s.table) {
        var pid :| pid in s.table && s.table[pid].Zombie?;
        t := DoReap(s, pid);
      } else {
        t := s.(pc := ReadSignal(events));
      }
    case Drain(i, events) =>
      if Drained(s, i) {
        t := s.(pc := Batch(events));
      } else {
        assert CanRead(s, i, 1) by { assert PipeOk(s, i); }
        t := DoRead(s, i, 1);
      }
    case FinalDrain(i) =>
      if i == |s.pipes| {
        t := s.(pc := Done);
      } else if Drained(s, i) {
        t := s.(pc := FinalDrain(i + 1));
      } else {
        assert CanRead(s, i, 1) by { assert PipeOk(s, i); }
        t := DoRead(s, i, 1);
      }
  }

  // ----- once every remaining child is dead

  ghost predicate AllDead(s: State) {
    !s.pc.Fork? && forall i :: !StillRunning(s, i)
  }

  lemma DeadNeverBlocks(s: State)
    requires Inv(s) && AllDead(s)
    ensures !Blocked(s)
  {
    if s.pc.Wait? {
      var i :| 0 <= i < |s.pids| && 0 < s.pids[i];
      assert !StillRunning(s, i);
      assert Ready(s, SignalFd);
    }
  }

  lemma SameChildren(s: State, t: State)
    requires !s.pc.Fork? && !s.pc.Reap? && RunnerNext(s, t)
    ensures t.pids == s.pids && t.table == s.table
  {
  }

  lemma ReapKeepsDead(s: State, pid: int)
    requires s.pc.Reap? && AllDead(s) && pid in s.table && s.table[pid].Zombie?
    ensures AllDead(DoReap(s, pid))
  {
    var t := DoReap(s, pid);
    forall i | 0 <= i < |t.pids|
      ensures !StillRunning(t, i)
    {
      assert !StillRunning(s, i);
    }
  }

  lemma DeadStaysDead(s: State, t: State)
    requires AllDead(s) && RunnerNext(s, t)
    ensures AllDead(t)
  {
    if s.pc.Reap? && HasZombie(s.table) {
      var pid :| pid in s.table && s.table[pid].Zombie? && t == DoReap(s, pid);
      ReapKeepsDead(s, pid);
    } else {
      SamePipeCount(s, t);
      assert t.pids == s.pids && t.table == s.table by {
        if !s.pc.Reap? { SameChildren(s, t); }
      }
      forall i | 0 <= i < |t.pids|
        ensures !StillRunning(t, i)
      {
        assert !StillRunning(s, i);
      }
    }
  }

  ghost predicate QuietRun(run: seq<State>) {
    run != [] && forall i :: 0 <= i < |run| - 1 ==> RunnerNext(run[i], run[i + 1])
  }

  /** A single number for the rank, to bound the length of a run. */
  function Rank(s: State): nat {
    Major(s) * (3 * |s.pipes| + 100) + Minor(s)
  }

  lemma MinorBound(s: State)
    requires 0 < |s.pids| == |s.pipes| && PcOk(s)
    ensures Minor(s) < 3 * |s.pipes| + 100
  {
  }

  lemma Scale(a: nat, b: nat, c: nat, x: nat, y: nat)
    requires a < b && x < c
    ensures a * c + x < b * c + y
  {
    assert (a + 1) * c <= b * c;
  }

  lemma RankLowers(s: State, t: State)
    requires 0 < |t.pids| == |t.pipes| == |s.pipes| && PcOk(t) && Lower(t, s)
    ensures Rank(t) < Rank(s)
  {
    MinorBound(t);
    if Major(t) < Major(s) {
      Scale(Major(t), Major(s), 3 * |s.pipes| + 100, Minor(t), Minor(s));
    }
  }

  /** One quiet step: the invariant holds again and the rank is smaller. */
  lemma QuietStep(s: State, t: State)
    requires Inv(s) && !s.pc.Fork? && RunnerNext(s, t)
    ensures Inv(t) && !t.pc.Fork? && Rank(t) < Rank(s)
  {
    assert Inv(t) by { RunnerInv(s, t); }
    assert Lower(t, s) by { RunnerLowers(s, t); }
    SamePipeCount(s, t);
    RankLowers(s, t);
  }

  lemma SamePipeCount(s: State, t: State)
    requires !s.pc.Fork? && RunnerNext(s, t)
    ensures |t.pipes| == |s.pipes| && !t.pc.Fork?
  {
  }

  lemma QuietTail(run: seq<State>)
    requires QuietRun(run) && 1 < |run|
    ensures RunnerNext(run[0], run[1]) && QuietRun(run[1..])
  {
    assert RunnerNext(run[0], run[0 + 1]);
    forall i | 0 <= i < |run[1..]| - 1
      ensures RunnerNext(run[1..][i], run[1..][i + 1])
    {
      assert RunnerNext(run[i + 1], run[i + 1 + 1]);
    }
  }

  /** Quiet runs are finite, with an explicit bound. */
  lemma {:induction false} QuietRunBounded(run: seq<State>)
    requires QuietRun(run) && Inv(run[0]) && !run[0].pc.Fork?
    ensures |run| - 1 <= Rank(run[0])
  {
    if 1 < |run| {
      QuietTail(run);
      QuietStep(run[0], run[1]);
      QuietRunBounded(run[1..]);
    }
  }

  /** What holds when the runner returns. */
  ghost predicate Complete(s: State) {
    && s.pc.Done?
    && !AnyValidPid(s.pids)
    && s.exitCode == FirstFailure(s.history)
    && Outstanding(s.history) == {}
    && forall i :: 0 <= i < |s.pipes| ==> s.pipes[i].forwarded == s.pipes[i].written
  }

  lemma DoneIsComplete(s: State)
    requires Inv(s) && s.pc.Done?
    ensures Complete(s)
  {
    assert LivePids(s.pids) == {};
    forall i | 0 <= i < |s.pipes|
      ensures s.pipes[i].forwarded == s.pipes[i].written
    {
      assert PipeOk(s, i);
    }
  }

  /** Whatever it does, a runner whose remaining children are all dead cannot stop short of a complete
      return: a quiet run that cannot be extended ends in `Complete`. */
  lemma {:induction false} MaximalQuietRunReturns(run: seq<State>)
    requires QuietRun(run) && Inv(run[0]) && AllDead(run[0])
    requires !Enabled(run[|run| - 1])
    ensures Complete(run[|run| - 1])
    decreases |run|
  {
    if 1 < |run| {
      QuietTail(run);
      QuietStep(run[0], run[1]);
      DeadStaysDead(run[0], run[1]);
      MaximalQuietRunReturns(run[1..]);
    } else if run[0].pc.Done? {
      DoneIsComplete(run[0]);
    } else {
      DeadNeverBlocks(run[0]);
      var t := EnabledUnlessBlocked(run[0]);
    }
  }

  /** From every state of every run in which the remaining children are dead, a quiet run to a
      complete return exists, and none is longer than the rank. */
  lemma {:induction false} RunnerReturns(s: State) returns (run: seq<State>)
    requires Inv(s) && AllDead(s)
    ensures QuietRun(run) && run[0] == s && Complete(run[|run| - 1])
    decreases Rank(s)
  {
    if s.pc.Done? {
      DoneIsComplete(s);
      run := [s];
    } else {
      DeadNeverBlocks(s);
      var t := EnabledUnlessBlocked(s);
      QuietStep(s, t);
      DeadStaysDead(s, t);
      var rest := RunnerReturns(t);
      run := [s] + rest;
    }
  }
}
