/** What becomes of every death of a child and of every signal to the runner, over whole runs and in both
    directions: from what happened to the runner's record, and from the record back to what happened. */
module SupervisorDeaths {
  import opened Supervisor
  import opened SupervisorSafety

  // ----- single steps

  /** Children and the record of them change only in a fork, in a signal read and in a reap. */
  lemma ElsewhereQuiet(s: State, t: State)
    requires RunnerNext(s, t) && !s.pc.Fork? && !s.pc.ReadSignal? && !s.pc.Reap?
    ensures t.table == s.table && t.history == s.history && t.pending == s.pending
  {
  }

  /** The environment only adds to what is pending. */
  lemma EnvironmentAdds(s: State, t: State)
    requires EnvNext(s, t)
    ensures t.table.Keys == s.table.Keys && t.history == s.history && s.pending <= t.pending
  {
    if i: nat, data :| CanWrite(s, i, data) && t == DoWrite(s, i, data) {
    } else if pid, status :| CanExit(s, pid) && t == DoExit(s, pid, status) {
    }
  }

  lemma ForkAdds(s: State, t: State)
    requires RunnerNext(s, t) && s.pc.Fork?
    ensures s.table.Keys <= t.table.Keys && t.pending == s.pending && s.history <= t.history
    ensures |t.history| <= |s.history| + 1
    ensures t.history != s.history ==> t.history[|s.history|].Forked?
  {
  }

  lemma RemovedByReap(s: State, t: State, pid: int)
    requires Next(s, t) && pid in s.table && pid !in t.table
    ensures s.pc.Reap? && s.table[pid].Zombie? && t == DoReap(s, pid)
  {
    if RunnerNext(s, t) {
      if s.pc.Fork? {
        ForkAdds(s, t);
      } else if s.pc.Reap? {
        if HasZombie(s.table) {
          var p :| p in s.table && s.table[p].Zombie? && t == DoReap(s, p);
        }
      } else if !s.pc.ReadSignal? {
        ElsewhereQuiet(s, t);
      }
    } else if EnvNext(s, t) {
      EnvironmentAdds(s, t);
    }
  }

  lemma TakenByRead(s: State, t: State, sig: Signal)
    requires Next(s, t) && sig in s.pending && sig !in t.pending
    ensures s.pc.ReadSignal? && t == DoReadSignal(s, sig)
  {
    if RunnerNext(s, t) {
      if s.pc.Fork? {
        ForkAdds(s, t);
      } else if s.pc.ReadSignal? {
        var taken :| taken in s.pending && t == DoReadSignal(s, taken);
      } else if !s.pc.Reap? {
        ElsewhereQuiet(s, t);
      }
    } else if EnvNext(s, t) {
      EnvironmentAdds(s, t);
    }
  }

  /** A child, this one, is reaped. */
  predicate Reaps(s: State, t: State, pid: int) {
    pid in s.table && pid !in t.table && s.table[pid].Zombie? && t == DoReap(s, pid)
  }

  /** A signal, this one, is passed on. */
  predicate Passes(s: State, t: State, sig: Signal) {
    sig in s.pending && sig !in t.pending && sig != SIGCHLD && t == DoForward(s, sig)
  }

  /** What a step can add to the record. */
  lemma Recorded(s: State, t: State)
    requires Next(s, t) && t.history != s.history
    ensures s.history <= t.history
    ensures
      || (|t.history| == |s.history| + 1 && t.history[|s.history|].Forked?)
      || (exists sig :: Passes(s, t, sig))
      || (exists pid :: Reaps(s, t, pid))
  {
    if RunnerNext(s, t) {
      if s.pc.Fork? {
        ForkAdds(s, t);
      } else if s.pc.ReadSignal? {
        var sig :| sig in s.pending && t == DoReadSignal(s, sig);
        assert Passes(s, t, sig);
      } else if s.pc.Reap? {
        var pid :| pid in s.table && s.table[pid].Zombie? && t == DoReap(s, pid);
        assert Reaps(s, t, pid);
      } else {
        ElsewhereQuiet(s, t);
      }
    } else if EnvNext(s, t) {
      EnvironmentAdds(s, t);
    }
  }

  /** The step that wrote entry n of the record. */
  lemma {:induction false} WrittenAt(run: seq<State>, m: nat, n: nat) returns (k: nat)
    requires m < |run| && run[0].history == [] && n < |run[m].history|
    requires forall i :: 0 <= i < |run| - 1 ==> run[i].history <= run[i + 1].history
    ensures k < m && |run[k].history| <= n < |run[k + 1].history| && run[k + 1].history <= run[m].history
    decreases m
  {
    assert 0 < m;
    assert run[m - 1].history <= run[m - 1 + 1].history;
    if n < |run[m - 1].history| {
      k := WrittenAt(run, m - 1, n);
    } else {
      k := m - 1;
    }
  }

  // ----- deaths

  /** The reap of a child that the runner has started: the record gets the code a shell would report, the exit
      status or 128 plus the signal's number. A child that was never started leaves no trace. */
  lemma DeathRecorded(run: seq<State>, k: nat, pid: int)
    requires IsRun(run) && k + 1 < |run| && pid in run[k].table && pid !in run[k + 1].table
    ensures run[k].table[pid].Zombie? && run[k].history <= run[k + 1].history
    ensures var s, t, h := run[k], run[k + 1], |run[k].history|;
      match s.table[pid].status
      case Exited(code) => pid in s.pids ==> h < |t.history| && t.history[h] == Reaped(pid, code)
      case Signalled(signo) => pid in s.pids ==> h < |t.history| && t.history[h] == Reaped(pid, 128 + signo)
    ensures pid !in run[k].pids ==> run[k + 1].history == run[k].history && run[k + 1].exitCode == run[k].exitCode
  {
    assert StepAt(run, k);
    RemovedByReap(run[k], run[k + 1], pid);
  }

  /** No child has failed so far and no signal has been forwarded. */
  predicate Calm(h: seq<Event>) {
    forall j :: 0 <= j < |h| ==> !h[j].Forwarded? && (h[j].Reaped? ==> h[j].code == 0)
  }

  /** The runner answers with this exit code, from now on, and terminates the children that are left. */
  ghost predicate Answered(s: State, h: nat, code: int) {
    && s.exitCode == code && h + 1 < |s.history|
    && s.history[h + 1] == Terminated(Outstanding(s.history[..h + 1]))
  }

  /** The reap changes nothing but the record of it. */
  predicate OnlyRecorded(s: State, t: State, pid: int, code: nat) {
    t.history == s.history + [Reaped(pid, code)] && t.exitCode == s.exitCode
  }

  lemma ReapEffect(s: State, pid: int)
    requires Inv(s) && s.pc.Reap? && pid in s.table && s.table[pid].Zombie? && pid in s.pids
    ensures var t, code := DoReap(s, pid), ExitCode(s.table[pid].status);
      if code != 0 && Calm(s.history) then Answered(t, |s.history|, code) else OnlyRecorded(s, t, pid, code)
  {
    var t, e := DoReap(s, pid), Reaped(pid, ExitCode(s.table[pid].status));
    ReapRecord(s, pid);
    if e.code != 0 && Calm(s.history) {
      assert t.history == s.history + [e] + [Terminated(LivePids(t.pids))];
      assert t.history[..|s.history| + 1] == s.history + [e];
      EventAt(t.history, |s.history| + 1);
    }
  }

  /** A child's death decides the exit code exactly if it is a failure and the first thing to go wrong. A death
      by signal n then makes it 128 + n, a non-zero status itself, both for good and with the other children
      terminated at once. Every other death is only recorded. */
  lemma DeathDecides(run: seq<State>, k: nat, m: nat, pid: int)
    requires IsRun(run) && k < m < |run| && pid in run[k].table && pid !in run[k + 1].table && pid in run[k].pids
    ensures var s, t, h := run[k], run[k + 1], |run[k].history|;
      && s.table[pid].Zombie?
      && match s.table[pid].status
         case Signalled(n) =>
           if Calm(s.history) then Answered(t, h, 128 + n) && run[m].exitCode == 128 + n
           else OnlyRecorded(s, t, pid, 128 + n)
         case Exited(code) =>
           if Calm(s.history) && code != 0 then Answered(t, h, code) && run[m].exitCode == code
           else OnlyRecorded(s, t, pid, code)
  {
    assert StepAt(run, k);
    RemovedByReap(run[k], run[k + 1], pid);
    RunInv(run, k);
    ReapEffect(run[k], pid);
    ExitCodeExact(run, k + 1, m);
  }

  /** This child is dead with the status that this code reports. */
  predicate DeadWith(s: State, pid: int, code: nat) {
    && pid in s.table && s.table[pid].Zombie?
    && match s.table[pid].status
       case Exited(status) => code == status
       case Signalled(signo) => code == 128 + signo
  }

  lemma StepRecordsDeath(s: State, t: State)
    requires Next(s, t) && |s.history| < |t.history| && t.history[|s.history|].Reaped?
    ensures var e := t.history[|s.history|]; DeadWith(s, e.pid, e.code) && e.pid !in t.table && e.pid in s.pids
  {
    Recorded(s, t);
    var pid :| Reaps(s, t, pid);
  }

  /** A step adds its reap or its forwarded signal first. */
  lemma StepRecordsFirst(s: State, t: State, n: nat)
    requires Next(s, t) && |s.history| <= n < |t.history| && (t.history[n].Reaped? || t.history[n].Forwarded?)
    ensures s.history <= t.history && n == |s.history|
  {
    Recorded(s, t);
  }

  /** And back: every reap in the record is the death of that child, with that code. */
  lemma RecordedDeath(run: seq<State>, m: nat, n: nat) returns (k: nat)
    requires IsRun(run) && m < |run| && n < |run[m].history| && run[m].history[n].Reaped?
    ensures k < m && |run[k].history| == n
    ensures var e := run[m].history[n];
      DeadWith(run[k], e.pid, e.code) && e.pid !in run[k + 1].table && e.pid in run[k].pids
  {
    StepsGrow(run);
    k := WrittenAt(run, m, n);
    assert StepAt(run, k);
    StepRecordsFirst(run[k], run[k + 1], n);
    StepRecordsDeath(run[k], run[k + 1]);
  }

  // ----- signals

  /** A signal stays pending until the runner takes it. SIGINT, SIGTERM and SIGQUIT are then passed on as they
      came, to every child started and not yet reaped; SIGCHLD starts the reaping. No other signal is lost with it. */
  lemma SignalPassedOn(run: seq<State>, k: nat, sig: Signal)
    requires IsRun(run) && k + 1 < |run| && sig in run[k].pending && sig !in run[k + 1].pending
    ensures run[k + 1].pending == run[k].pending - {sig}
    ensures sig != SIGCHLD ==> run[k + 1].history == run[k].history + [Forwarded(sig, Outstanding(run[k].history))]
    ensures sig == SIGCHLD ==> run[k + 1].history == run[k].history && run[k + 1].pc.Reap?
  {
    assert StepAt(run, k);
    TakenByRead(run[k], run[k + 1], sig);
    RunInv(run, k);
  }

  lemma StepRecordsSignal(s: State, t: State)
    requires Next(s, t) && |s.history| < |t.history| && t.history[|s.history|].Forwarded?
    ensures var sig := t.history[|s.history|].sig; sig != SIGCHLD && sig in s.pending && sig !in t.pending
  {
    Recorded(s, t);
    var sig :| Passes(s, t, sig);
  }

  /** And back: every signal passed on is one that came. */
  lemma RecordedSignal(run: seq<State>, m: nat, n: nat) returns (k: nat)
    requires IsRun(run) && m < |run| && n < |run[m].history| && run[m].history[n].Forwarded?
    ensures k < m && |run[k].history| == n
    ensures var sig := run[m].history[n].sig; sig != SIGCHLD && sig in run[k].pending && sig !in run[k + 1].pending
  {
    StepsGrow(run);
    k := WrittenAt(run, m, n);
    assert StepAt(run, k);
    StepRecordsFirst(run[k], run[k + 1], n);
    StepRecordsSignal(run[k], run[k + 1]);
  }
}
