/** A failing child whose code is not propagated, because the runner had forwarded a signal before. */
module SupervisorMasked {
  import opened Supervisor
  import opened SupervisorLoop

  lemma Then(run: seq<State>, t: State) returns (longer: seq<State>)
    requires IsRun(run) && Next(run[|run| - 1], t)
    ensures IsRun(longer) && longer == run + [t]
  {
    ExtendRun(run, t);
    longer := run + [t];
  }

  const FRESH := Pipe("", "", "", false, false, true, true)
  const WATCHED := Pipe("", "", "", true, false, true, true)

  /** One child, nothing written, no exit code. */
  function One(pid: int, pipe: Pipe, table: map<int, Proc>, pending: set<Signal>, raised: bool,
               h: seq<Event>, pc: Pc): State
  {
    State([pid], [pipe], table, pending, raised, 0, h, pc)
  }

  const STARTED := [Forked(1)]
  const SIGNALLED := STARTED + [Forwarded(SIGINT, {1})]

  lemma Started() returns (run: seq<State>)
    ensures IsRun(run) && run[|run| - 1] == One(1, WATCHED, map[1 := Running], {}, false, STARTED, LoopTop)
  {
    run := [One(0, FRESH, map[], {}, false, [], Fork(0))];
    var s := One(1, FRESH, map[1 := Running], {}, false, STARTED, Fork(1));
    assert s == DoFork(run[0], 1);
    run := Then(run, s);
    run := Then(run, s.(pc := Register(0)));
    s := One(1, WATCHED, map[1 := Running], {}, false, STARTED, Register(1));
    assert s == DoRegister(run[|run| - 1]);
    run := Then(run, s);
    run := Then(run, s.(pc := LoopTop));
  }

  /** SIGINT arrives and is forwarded. */
  lemma Interrupted() returns (run: seq<State>)
    ensures IsRun(run) && run[|run| - 1] == One(1, WATCHED, map[1 := Running], {}, true, SIGNALLED, ReadSignal([]))
  {
    run := Started();
    var s := One(1, WATCHED, map[1 := Running], {SIGINT}, false, STARTED, LoopTop);
    assert s == DoSignal(run[|run| - 1], SIGINT);
    run := Then(run, s);
    assert s.pids[0] == 1;
    run := Then(run, s.(pc := Wait));
    s := s.(pc := Batch([SignalFd]));
    assert s == DoWait(run[|run| - 1], [SignalFd]) && CanWait(run[|run| - 1], [SignalFd]);
    run := Then(run, s);
    assert [SignalFd][1..] == [];
    run := Then(run, s.(pc := ReadSignal([])));
    var t := One(1, WATCHED, map[1 := Running], {}, true, SIGNALLED, ReadSignal([]));
    assert LivePids([1]) == {1} by { assert [1][0] == 1; }
    assert t == DoReadSignal(run[|run| - 1], SIGINT);
    run := Then(run, t);
  }

  /** The child then fails and is reaped. */
  lemma Failed(code: nat) returns (run: seq<State>)
    ensures IsRun(run)
    ensures run[|run| - 1] == One(0, WATCHED, map[], {}, true, SIGNALLED + [Reaped(1, code)], Reap([]))
  {
    run := Interrupted();
    var zombie := map[1 := Zombie(Exited(code))];
    var s := One(1, WATCHED, zombie, {SIGCHLD}, true, SIGNALLED, ReadSignal([]));
    assert s == DoExit(run[|run| - 1], 1, Exited(code)) && CanExit(run[|run| - 1], 1);
    run := Then(run, s);
    var t := One(1, WATCHED, zombie, {}, true, SIGNALLED, Reap([]));
    assert t == DoReadSignal(s, SIGCHLD);
    run := Then(run, t);
    var u := One(0, WATCHED, map[], {}, true, SIGNALLED + [Reaped(1, code)], Reap([]));
    assert 1 in t.table && t.table[1].Zombie?;
    assert u == DoReap(t, 1);
    run := Then(run, u);
  }

  /** For every code: a signal is forwarded, the child exits with that code and is reaped, and the runner
      returns 0. */
  lemma FailureMasked(code: nat) returns (run: seq<State>)
    ensures IsRun(run)
    ensures var s := run[|run| - 1];
      s.pc.Done? && s.exitCode == 0 && s.history == [Forked(1), Forwarded(SIGINT, {1}), Reaped(1, code)]
  {
    run := Failed(code);
    var s := run[|run| - 1];
    run := Then(run, s.(pc := ReadSignal([])));
    run := Then(run, s.(pc := Batch([])));
    run := Then(run, s.(pc := LoopTop));
    run := Then(run, s.(pc := FinalDrain(0)));
    run := Then(run, s.(pc := FinalDrain(1)));
    run := Then(run, s.(pc := Done));
  }
}
