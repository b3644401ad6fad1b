/** The supervisor's `main`, `read_signal` and `read_pipe` as the loops they are. Every method leaves
    behind a run of the transition system, so what is proved of runs is proved of this code.

    The environment moves inside `Interfere`, called before each system call. `budget` is how many
    environment steps are still to come: it is arbitrary, and the loops terminate for every value. */
module SupervisorLoop {
  import opened Supervisor
  import opened SupervisorSafety
  import opened SupervisorProgress

  datatype Outcome = Returned(code: int) | StuckInEpollWait | ForkFailed

  lemma ExtendRun(run: seq<State>, t: State)
    requires IsRun(run) && Next(run[|run| - 1], t)
    ensures IsRun(run + [t])
  {
    var longer := run + [t];
    forall i | 0 <= i < |longer| - 1
      ensures StepAt(longer, i)
    {
      if i < |run| - 1 {
        assert StepAt(run, i);
      }
    }
  }

  /** The last state of a run, with what the invariant and the rank say about its next runner step. */
  lemma RunnerStep(run: seq<State>, t: State)
    requires IsRun(run) && RunnerNext(run[|run| - 1], t)
    ensures IsRun(run + [t])
    ensures !run[|run| - 1].pc.Fork? ==> !t.pc.Fork? && Rank(t) < Rank(run[|run| - 1])
  {
    var s := run[|run| - 1];
    ExtendRun(run, t);
    if !s.pc.Fork? {
      RunInv(run, |run| - 1);
      QuietStep(s, t);
    }
  }

  // ----- each thing the code does is a runner step

  lemma WriteStep(s: State, i: nat, data: string)
    requires CanWrite(s, i, data)
    ensures EnvNext(s, DoWrite(s, i, data))
  {
  }

  lemma ExitStep(s: State, pid: int, status: Status)
    requires CanExit(s, pid)
    ensures EnvNext(s, DoExit(s, pid, status))
  {
  }

  lemma SignalStep(s: State, sig: Signal)
    requires s.pc.ReadSignal? && sig in s.pending
    ensures RunnerNext(s, DoReadSignal(s, sig))
  {
  }

  lemma ReapStep(s: State, pid: int)
    requires s.pc.Reap? && pid in s.table && s.table[pid].Zombie?
    ensures RunnerNext(s, DoReap(s, pid))
  {
  }

  lemma MoveStep(s: State, pc: Pc)
    requires Moves(s, pc) && !s.pc.Wait?
    ensures RunnerNext(s, s.(pc := pc))
  {
  }

  /** Where read_pipe returns to. */
  function AfterDrain(pc: Pc): Pc
    requires pc.Drain? || pc.FinalDrain?
  {
    if pc.Drain? then Batch(pc.events) else FinalDrain(pc.child + 1)
  }

  lemma ReadStep(s: State, k: nat)
    requires (s.pc.Drain? || s.pc.FinalDrain?) && CanRead(s, s.pc.child, k)
    ensures RunnerNext(s, DoRead(s, s.pc.child, k))
  {
  }

  lemma CloseStep(s: State)
    requires (s.pc.Drain? || s.pc.FinalDrain?) && CanSeeEof(s, s.pc.child)
    ensures RunnerNext(s, DoClose(s, s.pc.child))
  {
  }

  lemma DrainedStep(s: State)
    requires (s.pc.Drain? || s.pc.FinalDrain?) && Drained(s, s.pc.child)
    ensures RunnerNext(s, s.(pc := AfterDrain(s.pc)))
  {
  }

  lemma ForkStep(s: State, pid: int)
    requires s.pc.Fork? && s.pc.next < |s.pids| && 0 < pid && pid !in s.table
    ensures RunnerNext(s, DoFork(s, pid))
  {
  }

  lemma RegisterStep(s: State)
    requires s.pc.Register?
    ensures RunnerNext(s, if s.pc.next < |s.pipes| then DoRegister(s) else s.(pc := LoopTop))
  {
  }

  lemma WaitStep(s: State, events: seq<Source>)
    requires s.pc.Wait? && CanWait(s, events)
    ensures RunnerNext(s, DoWait(s, events))
  {
  }

  /** What the batch loop does with its next event. */
  lemma BatchStep(s: State, to: Pc)
    requires s.pc.Batch?
    requires to == if s.pc.events == [] then LoopTop
                   else if s.pc.events[0].SignalFd? then Pc.ReadSignal(s.pc.events[1..])
                   else var i := s.pc.events[0].child;
                     if i < |s.pipes| && s.pipes[i].readOpen then Drain(i, s.pc.events[1..]) else Batch(s.pc.events[1..])
    ensures RunnerNext(s, s.(pc := to))
  {
  }

  lemma RunSizes(run: seq<State>)
    requires IsRun(run)
    ensures var s := run[|run| - 1]; 0 < |s.pids| == |s.pipes|
  {
    RunInv(run, |run| - 1);
  }

  lemma WaitsForSomeone(run: seq<State>)
    requires IsRun(run) && Blocked(run[|run| - 1])
    ensures var s := run[|run| - 1]; exists i :: StillRunning(s, i)
  {
    NoLostWakeup(run, |run| - 1);
  }

  class Runner {
    // the program's variables
    var pids: seq<int>
    var raised: bool
    var exitCode: int
    // the kernel's side
    var pipes: seq<Pipe>
    var table: map<int, Proc>
    var pending: set<Signal>
    var budget: nat
    // what happened
    ghost var history: seq<Event>
    ghost var trace: seq<State>

    ghost function View(pc: Pc): State
      reads this
    {
      State(pids, pipes, table, pending, raised, exitCode, history, pc)
    }

    /** The run so far ends here. */
    ghost predicate At(pc: Pc)
      reads this
    {
      IsRun(trace) && trace[|trace| - 1] == View(pc)
    }

    /** Less is left to do than `(b, r)`: environment steps first, then the rank. */
    ghost predicate Less(pc: Pc, b: int, r: int)
      reads this
    {
      budget < b || (budget == b && Rank(View(pc)) < r)
    }

    constructor (threads: nat, strays: map<int, Proc>, early: set<Signal>, environment: nat)
      requires 0 < threads && forall pid :: pid in strays ==> 0 < pid
      ensures At(Fork(0)) && |pids| == threads && budget == environment
    {
      pids := seq(threads, _ => 0);
      pipes := seq(threads, _ => Pipe("", "", "", false, false, true, true));
      table, pending, budget := strays, early, environment;
      raised, exitCode, history := false, 0, [];
      new;
      trace := [View(Fork(0))];
      InitInv(View(Fork(0)));
    }

    /** Record a step the code has just taken. */
    ghost method Record(to: Pc)
      requires IsRun(trace) && RunnerNext(trace[|trace| - 1], View(to))
      modifies this`trace
      ensures trace == old(trace) + [View(to)] && At(to)
      ensures !old(trace[|trace| - 1].pc.Fork?) ==> !to.Fork? && Rank(View(to)) < Rank(old(trace[|trace| - 1]))
    {
      RunnerStep(trace, View(to));
      trace := trace + [View(to)];
    }

    ghost method Move(from: Pc, to: Pc)
      requires At(from) && Moves(View(from), to) && !from.Wait?
      modifies this`trace
      ensures trace == old(trace) + [View(to)] && At(to)
      ensures !from.Fork? ==> !to.Fork? && Rank(View(to)) < Rank(View(from))
    {
      MoveStep(View(from), to);
      Record(to);
    }

    /** Any number of environment steps. */
    method Interfere(ghost pc: Pc)
      requires At(pc)
      modifies this`pipes, this`table, this`pending, this`budget, this`trace
      ensures At(pc) && old(trace) <= trace
      ensures budget <= old(budget)
      ensures budget == old(budget) ==> View(pc) == old(View(pc))
      ensures |pipes| == old(|pipes|) && table.Keys == old(table.Keys)
    {
      var steps: nat := *;
      if budget < steps { steps := budget; }
      while 0 < steps
        invariant At(pc) && old(trace) <= trace
        invariant steps <= budget <= old(budget)
        invariant budget == old(budget) ==> View(pc) == old(View(pc))
        invariant |pipes| == old(|pipes|) && table.Keys == old(table.Keys)
      {
        budget, steps := budget - 1, steps - 1;
        EnvironmentStep(pc);
      }
    }

    method EnvironmentStep(ghost pc: Pc)
      requires At(pc)
      modifies this`pipes, this`table, this`pending, this`trace
      ensures At(pc) && old(trace) <= trace && |pipes| == old(|pipes|) && table.Keys == old(table.Keys)
    {
      ghost var s := View(pc);
      var kind: int := *;
      if kind == 0 {
        var i: int := *;
        var data: string := *;
        if 0 <= i < |pids| == |pipes| && 0 < pids[i] && pids[i] in table && table[pids[i]].Running? && data != "" {
          var p := pipes[i];
          pipes := pipes[i := p.(written := p.written + data, unread := p.unread + data, edge := p.edge || p.registered)];
          WriteStep(s, i, data);
          RecordEnvironment(s, pc);
        }
      } else if kind == 1 {
        var pid: int := *;
        var status: Status := *;
        if pid in table && table[pid].Running? {
          table, pending := table[pid := Zombie(status)], pending + {SIGCHLD};
          ExitStep(s, pid, status);
          RecordEnvironment(s, pc);
        }
      } else {
        var sig: Signal := *;
        pending := pending + {sig};
        assert View(pc) == DoSignal(s, sig);
        RecordEnvironment(s, pc);
      }
    }

    ghost method RecordEnvironment(s: State, pc: Pc)
      requires IsRun(trace) && trace[|trace| - 1] == s && EnvNext(s, View(pc))
      modifies this`trace
      ensures trace == old(trace) + [View(pc)] && At(pc)
    {
      ExtendRun(trace, View(pc));
      trace := trace + [View(pc)];
    }

    /** The kill loops: signal every process whose pid is still positive. */
    method KillAll() returns (targets: set<int>)
      ensures targets == LivePids(pids)
    {
      targets := {};
      for i := 0 to |pids|
        invariant targets == LivePids(pids[..i])
      {
        assert pids[..i + 1] == pids[..i] + [pids[i]];
        ghost var before := LivePids(pids[..i]);
        assert LivePids(pids[..i + 1]) == before + (if 0 < pids[i] then {pids[i]} else {}) by {
          LivePidsAppend(pids[..i], pids[i]);
        }
        if 0 < pids[i] {
          targets := targets + {pids[i]};
        }
      }
      assert pids[..|pids|] == pids;
    }

    static lemma LivePidsAppend(some: seq<int>, pid: int)
      ensures LivePids(some + [pid]) == LivePids(some) + if 0 < pid then {pid} else {}
    {
      assert (some + [pid])[|some|] == pid;
      assert forall i :: 0 <= i < |some| ==> (some + [pid])[i] == some[i];
      forall p | p in LivePids(some)
        ensures p in LivePids(some + [pid])
      {
        var i :| 0 <= i < |some| && 0 < some[i] && some[i] == p;
        assert (some + [pid])[i] == p;
      }
    }

    method Find(pid: int) returns (i: nat)
      ensures i == IndexOf(pids, pid)
    {
      i := 0;
      while i < |pids| && pids[i] != pid
        invariant i <= |pids| && forall j :: 0 <= j < i ==> pids[j] != pid
      {
        i := i + 1;
      }
    }

    /** The body of the reap loop once waitpid has returned a pid. */
    method Reaped(pid: int, status: Status, ghost s: State)
      requires s.pc.Reap? && pid in s.table && s.table[pid] == Zombie(status)
      requires View(s.pc) == s.(table := s.table - {pid})
      modifies this`pids, this`exitCode, this`raised, this`history
      ensures View(s.pc) == DoReap(s, pid)
    {
      var i := Find(pid);
      if i < |pids| {
        pids := pids[i := 0];
        var code := match status case Exited(code) => code case Signalled(signo) => 128 + signo;
        history := history + [Event.Reaped(pid, code)];
        if code != 0 && !raised {
          exitCode := code;
          var targets := KillAll();
          history := history + [Terminated(targets)];
          raised := true;
        }
      }
    }

    method RecordReap(pid: int, status: Status, ghost s: State)
      requires IsRun(trace) && trace[|trace| - 1] == s
      requires s.pc.Reap? && pid in s.table && s.table[pid] == Zombie(status)
      requires View(s.pc) == s.(table := s.table - {pid})
      modifies this`pids, this`exitCode, this`raised, this`history, this`trace
      ensures At(s.pc) && old(trace) <= trace && Rank(View(s.pc)) < Rank(s)
    {
      Reaped(pid, status, s);
      ReapStep(s, pid);
      Record(s.pc);
    }

    /** One waitpid and what follows it. */
    method ReapOne(ghost events: seq<Source>) returns (more: bool)
      requires At(Reap(events))
      modifies this
      ensures old(trace) <= trace && budget == old(budget)
      ensures more ==> At(Reap(events)) && Rank(View(Reap(events))) < old(Rank(View(Reap(events))))
      ensures !more ==> At(Pc.ReadSignal(events)) && Rank(View(Pc.ReadSignal(events))) < old(Rank(View(Reap(events))))
      ensures !more ==> !HasZombie(table)
    {
      ghost var s := View(Reap(events));
      more := HasZombie(table);
      if !more {
        Move(Reap(events), Pc.ReadSignal(events));
        return;
      }
      var pid :| pid in table && table[pid].Zombie?;
      var status := table[pid].status;
      table := table - {pid};
      RecordReap(pid, status, s);
    }

    /** The reap loop: wait without blocking until nobody is left to report. */
    method ReapChildren(ghost events: seq<Source>)
      requires At(Reap(events))
      modifies this
      ensures At(Pc.ReadSignal(events)) && old(trace) <= trace
      ensures Less(Pc.ReadSignal(events), old(budget), old(Rank(View(Reap(events)))))
      ensures !HasZombie(table)
    {
      var more := true;
      while more
        invariant old(trace) <= trace && budget <= old(budget) && (!more ==> !HasZombie(table))
        invariant more ==> At(Reap(events)) && (budget == old(budget) ==> Rank(View(Reap(events))) <= old(Rank(View(Reap(events)))))
        invariant !more ==> At(Pc.ReadSignal(events)) && Less(Pc.ReadSignal(events), old(budget), old(Rank(View(Reap(events)))))
        decreases more, budget, Rank(View(Reap(events)))
      {
        Interfere(Reap(events));
        more := ReapOne(events);
      }
    }

    /** A SIGINT, SIGTERM or SIGQUIT record: pass it on to every child not yet reaped. */
    method Forward(sig: Signal, ghost s: State)
      requires s.pc.ReadSignal? && sig in s.pending && sig != SIGCHLD
      requires IsRun(trace) && trace[|trace| - 1] == s && View(s.pc) == s.(pending := s.pending - {sig})
      modifies this`history, this`raised, this`trace
      ensures At(s.pc) && old(trace) <= trace && Rank(View(s.pc)) < Rank(s)
    {
      var targets := KillAll();
      history := history + [Forwarded(sig, targets)];
      raised := true;
      SignalStep(s, sig);
      Record(s.pc);
    }

    /** A SIGCHLD record: reap. */
    method ReapAfterSignal(ghost events: seq<Source>, ghost s: State)
      requires s.pc == Pc.ReadSignal(events) && SIGCHLD in s.pending
      requires IsRun(trace) && trace[|trace| - 1] == s && View(s.pc) == s.(pending := s.pending - {SIGCHLD})
      modifies this
      ensures At(s.pc) && old(trace) <= trace && Less(s.pc, old(budget), Rank(s))
    {
      SignalStep(s, SIGCHLD);
      Record(Reap(events));
      ReapChildren(events);
    }

    /** One signal record and what follows it. */
    method HandleOne(ghost events: seq<Source>) returns (more: bool)
      requires At(Pc.ReadSignal(events))
      modifies this
      ensures old(trace) <= trace && budget <= old(budget)
      ensures more ==> At(Pc.ReadSignal(events)) && Less(Pc.ReadSignal(events), old(budget), old(Rank(View(Pc.ReadSignal(events)))))
      ensures !more ==> At(Batch(events)) && Less(Batch(events), old(budget), old(Rank(View(Pc.ReadSignal(events)))))
    {
      ghost var here := Pc.ReadSignal(events);
      ghost var s := View(here);
      more := pending != {};
      if !more {
        Move(here, Batch(events));
        return;
      }
      var sig :| sig in pending;
      pending := pending - {sig};
      if sig == SIGCHLD {
        ReapAfterSignal(events, s);
      } else {
        Forward(sig, s);
      }
    }

    /** `read_signal`: drain the signalfd; on SIGCHLD reap until waitpid has nobody left to report. */
    method ReadSignals(ghost events: seq<Source>)
      requires At(Pc.ReadSignal(events))
      modifies this
      ensures At(Batch(events)) && old(trace) <= trace
      ensures Less(Batch(events), old(budget), old(Rank(View(Pc.ReadSignal(events)))))
    {
      ghost var here := Pc.ReadSignal(events);
      var more := true;
      while more
        invariant old(trace) <= trace && budget <= old(budget)
        invariant more ==> At(here) && (budget == old(budget) ==> Rank(View(here)) <= old(Rank(View(here))))
        invariant !more ==> At(Batch(events)) && Less(Batch(events), old(budget), old(Rank(View(here))))
        decreases more, budget, Rank(View(here))
      {
        Interfere(here);
        more := HandleOne(events);
      }
    }

    /** A read of k bytes, written to stdout. */
    method CopyOut(i: nat, k: nat, ghost here: Pc)
      requires (here.Drain? || here.FinalDrain?) && here.child == i < |pids| == |pipes| && At(here)
      requires CanRead(View(here), i, k)
      modifies this`pipes, this`trace
      ensures At(here) && old(trace) <= trace && |pipes| == old(|pipes|)
      ensures Rank(View(here)) < old(Rank(View(here)))
    {
      ghost var s := View(here);
      var p := pipes[i];
      ReadStep(s, k);
      pipes := pipes[i := p.(unread := p.unread[k..], forwarded := p.forwarded + p.unread[..k])];
      Record(here);
    }

    /** close_read, after a read of 0 bytes. */
    method CloseRead(i: nat, ghost here: Pc)
      requires (here.Drain? || here.FinalDrain?) && here.child == i < |pids| == |pipes| && At(here)
      requires CanSeeEof(View(here), i)
      modifies this`pipes, this`trace
      ensures At(here) && old(trace) <= trace && |pipes| == old(|pipes|)
      ensures Rank(View(here)) < old(Rank(View(here)))
    {
      CloseStep(View(here));
      pipes := pipes[i := pipes[i].(readOpen := false, registered := false, edge := false)];
      Record(here);
    }

    /** One read and what follows it. */
    method ReadOne(i: nat, ghost here: Pc) returns (more: bool)
      requires (here.Drain? || here.FinalDrain?) && here.child == i < |pids| == |pipes| && At(here)
      modifies this`pipes, this`trace
      ensures old(trace) <= trace && |pipes| == old(|pipes|)
      ensures more ==> At(here) && Rank(View(here)) < old(Rank(View(here)))
      ensures !more ==> At(AfterDrain(here)) && Rank(View(AfterDrain(here))) < old(Rank(View(here)))
      ensures !more ==> pipes[i].unread == "" || !pipes[i].readOpen
    {
      ghost var s := View(here);
      var p := pipes[i];
      if p.readOpen && p.unread != "" {
        var k: int := *;
        if k < 1 || |p.unread| < k || BUFFER_SIZE < k { k := 1; }
        CopyOut(i, k, here);
        more := true;
      } else if p.readOpen && !p.parentEnd && pids[i] == 0 {
        CloseRead(i, here);
        more := true;
      } else {
        DrainedStep(s);
        Record(AfterDrain(here));
        more := false;
      }
    }

    /** `read_pipe`: copy to stdout until the pipe runs dry. */
    method ReadPipe(i: nat, ghost here: Pc)
      requires (here.Drain? || here.FinalDrain?) && here.child == i < |pids| == |pipes| && At(here)
      modifies this`pipes, this`table, this`pending, this`budget, this`trace
      ensures At(AfterDrain(here)) && old(trace) <= trace && |pipes| == old(|pipes|)
      ensures Less(AfterDrain(here), old(budget), old(Rank(View(here))))
      ensures pipes[i].unread == "" || !pipes[i].readOpen
    {
      var more := true;
      while more
        invariant old(trace) <= trace && budget <= old(budget) && |pipes| == old(|pipes|)
        invariant !more ==> pipes[i].unread == "" || !pipes[i].readOpen
        invariant more ==> At(here) && (budget == old(budget) ==> Rank(View(here)) <= old(Rank(View(here))))
        invariant !more ==> At(AfterDrain(here)) && Less(AfterDrain(here), old(budget), old(Rank(View(here))))
        decreases more, budget, Rank(View(here))
      {
        Interfere(here);
        more := ReadOne(i, here);
      }
    }

    ghost method RecordBatch(events: seq<Source>, to: Pc)
      requires At(Batch(events))
      requires to == if events == [] then LoopTop
                     else if events[0].SignalFd? then Pc.ReadSignal(events[1..])
                     else var i := events[0].child;
                       if i < |pipes| && pipes[i].readOpen then Drain(i, events[1..]) else Batch(events[1..])
      modifies this`trace
      ensures trace == old(trace) + [View(to)] && At(to) && Rank(View(to)) < Rank(View(Batch(events)))
    {
      BatchStep(View(Batch(events)), to);
      Record(to);
    }

    /** The loop over the events epoll_wait returned. */
    method HandleEvents(events: seq<Source>)
      requires At(Batch(events))
      modifies this
      ensures At(LoopTop) && old(trace) <= trace
      ensures Less(LoopTop, old(budget), old(Rank(View(Batch(events)))))
    {
      var idx := 0;
      ghost var rest := events;
      while idx < |events|
        invariant 0 <= idx <= |events| && rest == events[idx..]
        invariant old(trace) <= trace && budget <= old(budget) && At(Batch(rest))
        invariant budget == old(budget) ==> Rank(View(Batch(rest))) <= old(Rank(View(Batch(events))))
      {
        assert rest == [events[idx]] + rest[1..];
        HandleEvent(events[idx], rest[1..]);
        idx, rest := idx + 1, rest[1..];
      }
      assert rest == [];
      RecordBatch(rest, LoopTop);
    }

    method HandleEvent(event: Source, ghost rest: seq<Source>)
      requires At(Batch([event] + rest))
      modifies this
      ensures At(Batch(rest)) && old(trace) <= trace
      ensures Less(Batch(rest), old(budget), old(Rank(View(Batch([event] + rest)))))
    {
      assert ([event] + rest)[1..] == rest;
      match event
      case SignalFd =>
        RecordBatch([event] + rest, Pc.ReadSignal(rest));
        ReadSignals(rest);
      case PipeFd(i) =>
        if i < |pipes| && pipes[i].readOpen {
          RunSizes(trace);
          RecordBatch([event] + rest, Drain(i, rest));
          ReadPipe(i, Drain(i, rest));
        } else {
          RecordBatch([event] + rest, Batch(rest));
        }
    }

    /** epoll_wait: some ready events, or none if it was interrupted or nothing is ready. */
    method EpollWait() returns (events: seq<Source>)
      requires At(Wait)
      ensures events != [] ==> CanWait(View(Wait), events)
      ensures events == [] && budget == 0 ==> Blocked(View(Wait))
    {
      var now := State(pids, pipes, table, pending, raised, exitCode, [], Wait);
      events := *;
      if CanWait(now, events) || (events == [] && 0 < budget) {
        return;
      }
      if pending != {} {
        events := [SignalFd];
      } else if exists i :: 0 <= i < |pipes| && pipes[i].registered && pipes[i].edge {
        var i :| 0 <= i < |pipes| && pipes[i].registered && pipes[i].edge;
        events := [PipeFd(i)];
      } else {
        events := [];
      }
    }

    ghost method RecordInterrupt()
      requires At(Wait)
      modifies this`trace
      ensures trace == old(trace) + [View(LoopTop)] && At(LoopTop)
    {
      ExtendRun(trace, View(LoopTop));
      trace := trace + [View(LoopTop)];
    }

    method TakeEvents(events: seq<Source>)
      requires At(Wait) && CanWait(View(Wait), events)
      modifies this`pipes, this`trace
      ensures At(Batch(events)) && old(trace) <= trace && Rank(View(Batch(events))) < old(Rank(View(Wait)))
    {
      WaitStep(View(Wait), events);
      pipes := Deliver(pipes, events);
      Record(Batch(events));
    }

    /** One turn of the event loop. */
    method Turn() returns (stuck: bool)
      requires At(LoopTop) && AnyValidPid(pids)
      modifies this
      ensures old(trace) <= trace
      ensures stuck ==> budget == 0 && At(Wait) && Blocked(View(Wait))
      ensures !stuck ==> At(LoopTop) && Less(LoopTop, old(budget), old(Rank(View(LoopTop))))
    {
      Move(LoopTop, Wait);
      Interfere(Wait);
      var events := EpollWait();
      stuck := events == [] && budget == 0;
      if events != [] {
        TakeEvents(events);
        HandleEvents(events);
      } else if !stuck {
        budget := budget - 1;
        RecordInterrupt();
      }
    }

    /** What fork returns in the parent for each child in turn: a negative number if it fails, otherwise a pid
        that no child of this process has. */
    ghost predicate ForkResults(forks: seq<int>)
      reads this
    {
      && |forks| == |pids|
      && (forall i :: 0 <= i < |forks| ==> forks[i] != 0 && forks[i] !in table)
      && (forall i, j :: 0 <= i < j < |forks| && 0 < forks[i] ==> forks[i] != forks[j])
    }

    /** start_processes: fork every child; the first fork that fails throws. */
    method StartProcesses(forks: seq<int>) returns (ok: bool)
      requires At(Fork(0)) && ForkResults(forks)
      modifies this
      ensures ok <==> forall i :: 0 <= i < |forks| ==> 0 < forks[i]
      ensures ok ==> At(Register(0)) && pids == forks
    {
      var idx := 0;
      while idx < |pids|
        invariant At(Fork(idx)) && idx <= |pids| == |forks| && pids[..idx] == forks[..idx]
        invariant forall i :: 0 <= i < idx ==> 0 < forks[i]
        invariant forall i :: idx <= i < |forks| ==> forks[i] !in table
        decreases |pids| - idx
      {
        Interfere(Fork(idx));
        var pid := forks[idx];
        if pid < 0 {
          return false;
        }
        ForkStep(View(Fork(idx)), pid);
        pids, table := pids[idx := pid], table[pid := Running];
        history := history + [Forked(pid)];
        Record(Fork(idx + 1));
        idx := idx + 1;
      }
      Move(Fork(idx), Register(0));
      return true;
    }

    /** EPOLL_CTL_ADD for every pipe. */
    method RegisterPipes()
      requires At(Register(0))
      modifies this
      ensures At(LoopTop)
    {
      var idx := 0;
      while idx < |pipes|
        invariant At(Register(idx)) && idx <= |pipes|
        decreases |pipes| - idx
      {
        Interfere(Register(idx));
        RegisterStep(View(Register(idx)));
        var p := pipes[idx];
        pipes := pipes[idx := p.(registered := true, edge := p.unread != "")];
        Record(Register(idx + 1));
        idx := idx + 1;
      }
      RegisterStep(View(Register(idx)));
      Record(LoopTop);
    }

    /** The last drain, once no pid is valid. */
    method FinalDrains()
      requires At(FinalDrain(0))
      modifies this`pipes, this`table, this`pending, this`budget, this`trace
      ensures At(Done)
    {
      RunSizes(trace);
      var idx := 0;
      while idx < |pids|
        invariant At(FinalDrain(idx)) && idx <= |pids| == |pipes|
      {
        ReadPipe(idx, FinalDrain(idx));
        idx := idx + 1;
      }
      Move(FinalDrain(idx), Done);
    }

    method Finish()
      requires At(LoopTop) && !AnyValidPid(pids)
      modifies this`pipes, this`table, this`pending, this`budget, this`trace
      ensures At(Done) && Complete(View(Done))
    {
      Move(LoopTop, FinalDrain(0));
      FinalDrains();
      RunInv(trace, |trace| - 1);
      DoneIsComplete(View(Done));
    }

    /** `main`. For every schedule it either returns, with the exit code and output the runs promise,
        or is left waiting for a child that the schedule never lets exit; unless a fork fails. */
    method Run(forks: seq<int>) returns (outcome: Outcome)
      requires At(Fork(0)) && ForkResults(forks)
      modifies this
      ensures outcome.ForkFailed? <==> exists i :: 0 <= i < |forks| && forks[i] < 0
      ensures outcome.Returned? ==> At(Done) && Complete(View(Done)) && outcome.code == exitCode
      ensures outcome.StuckInEpollWait? ==> At(Wait) && exists i :: StillRunning(View(Wait), i)
    {
      var ok := StartProcesses(forks);
      if !ok {
        return ForkFailed;
      }
      RegisterPipes();
      while AnyValidPid(pids)
        invariant At(LoopTop)
        decreases budget, Rank(View(LoopTop))
      {
        var stuck := Turn();
        if stuck {
          WaitsForSomeone(trace);
          return StuckInEpollWait;
        }
      }
      Finish();
      return Returned(exitCode);
    }
  }
}
