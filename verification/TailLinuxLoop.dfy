/** `_read_data`, `_drain_inotify`, the constructor's order of calls and `_worker_impl` as loops over
    one reused buffer. Each leaves behind a run of the transition system in `TailLinux`. */
module TailLinuxLoop {
  import opened TailLinux

  lemma ExtendRun(run: seq<State>, t: State, bufferSize: nat)
    requires IsRun(run, bufferSize) && Next(run[|run| - 1], t, bufferSize)
    ensures IsRun(run + [t], bufferSize)
  {
    var longer := run + [t];
    forall i | 0 <= i < |longer| - 1
      ensures StepAt(longer, i, bufferSize)
    {
      if i < |run| - 1 {
        assert StepAt(run, i, bufferSize);
      }
    }
  }

  /** Where _read_data returns to. */
  function AfterRead(s: State): State
    requires s.pc.InitialRead? || s.pc.ReadData?
  {
    if s.pc.InitialRead? then s.(start := if s.sow then s.start else s.offset, pc := Wait)
    else s.(pc := Batch(s.pc.events, s.pc.exiting))
  }

  lemma ReadStep(s: State, k: nat, bufferSize: nat)
    requires s.pc.InitialRead? || s.pc.ReadData?
    requires !AtEnd(s) && CanRead(s, k, bufferSize)
    ensures WorkerNext(s, DoRead(s, k, s.pc.ReadData? || s.sow), bufferSize)
  {
  }

  lemma AppendStep(s: State, data: Bytes)
    ensures EnvNext(s, DoAppend(s, data))
  {
  }

  lemma ExitedByStop(run: seq<State>, bufferSize: nat)
    requires IsRun(run, bufferSize) && run[|run| - 1].pc.Exited?
    ensures run[|run| - 1].exitWritten && !run[|run| - 1].running
  {
    RunInv(run, bufferSize, |run| - 1);
  }

  /** The thread has ended in state s, after an epoll_wait that met state w. It was told to, and what an inotify
      event had announced by then is delivered; with no append in progress that is the whole file. */
  predicate Ended(w: State, s: State) {
    && w.pc.Wait? && s.pc.Exited? && s.exitWritten && !s.running
    && (0 < w.queued || w.appending == 0 ==> w.file <= s.file && DeliveredTo(s, |w.file|))
  }

  lemma LastWait(run: seq<State>, bufferSize: nat, j: nat, events: seq<Source>)
    requires IsRun(run, bufferSize) && WakesWith(run, j, events) && run[|run| - 1].pc.Exited?
    requires Ready(run[j], InotifyFd) ==> InotifyFd in events
    ensures Ended(run[j], run[|run| - 1])
  {
    var k := |run| - 1;
    ExitedByStop(run, bufferSize);
    StartPoint(run, bufferSize, j, k);
    if 0 < run[j].queued {
      WakeupDelivers(run, bufferSize, j, k, events);
    } else if run[j].appending == 0 {
      StopLosesNothing(run, bufferSize, j, k, events);
    }
  }

  class FileTrigger {
    const sow: bool
    const buffer: array<bv8>
    // kernel side
    var file: Bytes
    var appending: nat
    var queued: nat
    var exitWritten: bool
    var running: bool
    var offset: nat
    var budget: nat
    // what the callback has received, and the run so far
    var delivered: Bytes
    ghost var start: nat
    ghost var trace: seq<State>

    ghost function View(pc: Pc): State
      reads this
    {
      State(file, appending, queued, exitWritten, running, sow, start, offset, delivered, pc)
    }

    ghost predicate At(pc: Pc)
      reads this
    {
      0 < buffer.Length && IsRun(trace, buffer.Length) && trace[|trace| - 1] == View(pc)
    }

    /** Less is left to do: environment steps first, then the worker's rank. */
    ghost predicate Less(pc: Pc, b: int, r: int)
      reads this
    {
      budget < b || (budget == b && Rank(View(pc)) < r)
    }

    constructor (handleOffset: nat, contents: Bytes, sow_: bool, bufferSize: nat, environment: nat)
      requires 0 < bufferSize
      ensures At(AddWatch) && sow == sow_ && offset == handleOffset && file == contents && fresh(buffer)
    {
      sow, buffer := sow_, new bv8[bufferSize];
      file, appending, queued, exitWritten, running := contents, 0, 0, false, true;
      offset, delivered, start, budget := handleOffset, [], handleOffset, environment;
      new;
      trace := [View(AddWatch)];
    }

    ghost method Record(s: State, to: Pc)
      requires 0 < buffer.Length && IsRun(trace, buffer.Length) && trace[|trace| - 1] == s
      requires WorkerNext(s, View(to), buffer.Length)
      modifies this`trace
      ensures At(to) && trace == old(trace) + [View(to)] && Rank(View(to)) < Rank(s)
    {
      RunInv(trace, buffer.Length, |trace| - 1);
      WorkerLowers(s, View(to), buffer.Length);
      ExtendRun(trace, View(to), buffer.Length);
      trace := trace + [View(to)];
    }

    ghost method RecordOther(s: State, to: Pc)
      requires 0 < buffer.Length && IsRun(trace, buffer.Length) && trace[|trace| - 1] == s
      requires EnvNext(s, View(to)) || InterruptNext(s, View(to))
      modifies this`trace
      ensures At(to) && old(trace) <= trace
    {
      ExtendRun(trace, View(to), buffer.Length);
      trace := trace + [View(to)];
    }

    /** Any number of appends, late inotify events and stop() calls. */
    method Interfere(pc: Pc)
      requires At(pc)
      modifies this`file, this`appending, this`queued, this`exitWritten, this`running, this`budget, this`trace
      ensures At(pc) && old(trace) <= trace && budget <= old(budget)
      ensures budget == old(budget) ==> View(pc) == old(View(pc))
    {
      var steps: nat := *;
      if budget < steps { steps := budget; }
      while 0 < steps
        invariant At(pc) && old(trace) <= trace && steps <= budget <= old(budget)
        invariant budget == old(budget) ==> View(pc) == old(View(pc))
      {
        budget, steps := budget - 1, steps - 1;
        EnvironmentStep(pc);
      }
    }

    method EnvironmentStep(pc: Pc)
      requires At(pc)
      modifies this`file, this`appending, this`queued, this`exitWritten, this`running, this`trace
      ensures At(pc) && old(trace) <= trace
    {
      ghost var s := View(pc);
      var kind: int := *;
      if kind == 0 {
        var data: Bytes := *;
        file, appending := file + data, appending + 1;
        AppendStep(s, data);
        RecordOther(s, pc);
      } else if kind == 1 && 0 < appending {
        var merged: bool := *;
        appending := appending - 1;
        if !pc.AddWatch? && !(merged && 0 < queued) { queued := queued + 1; }
        assert View(pc) == DoNotify(s, merged);
        RecordOther(s, pc);
      } else if kind == 2 && !pc.AddWatch? && !pc.InitialRead? {
        Stop(pc);
      }
    }

    /** stop(), up to the join: an exchange on `running`, then one byte into the exit pipe. */
    method Stop(ghost pc: Pc)
      requires At(pc) && !pc.AddWatch? && !pc.InitialRead?
      modifies this`running, this`exitWritten, this`trace
      ensures At(pc) && old(trace) <= trace && !running
      ensures exitWritten == (old(running) || old(exitWritten))
    {
      ghost var s := View(pc);
      var was := running;
      running := false;
      if was {
        exitWritten := true;
      }
      assert View(pc) == DoStop(s);
      RecordOther(s, pc);
    }

    ghost method EndOfData(s: State)
      requires s.pc.InitialRead? || s.pc.ReadData?
      requires At(s.pc) && s == View(s.pc) && AtEnd(s)
      modifies this`start, this`trace
      ensures old(trace) <= trace && At(AfterRead(s).pc) && Rank(View(AfterRead(s).pc)) < Rank(s)
    {
      start := AfterRead(s).start;
      Record(s, AfterRead(s).pc);
    }

    /** read(): the next k bytes of the file, into the buffer. */
    method FillBuffer(k: nat)
      requires k <= buffer.Length && offset + k <= |file|
      modifies buffer
      ensures buffer[..k] == file[offset..offset + k]
    {
      forall i | 0 <= i < k {
        buffer[i] := file[offset + i];
      }
    }

    /** One read() of `k` bytes into the buffer and, if `exec`, one callback. */
    method ReadSome(k: nat, exec: bool, here: Pc)
      requires At(here) && (here.InitialRead? || here.ReadData?) && exec == (here.ReadData? || sow)
      requires CanRead(View(here), k, buffer.Length) && !AtEnd(View(here))
      modifies this`offset, this`delivered, this`trace, buffer
      ensures old(trace) <= trace && At(here) && Rank(View(here)) < old(Rank(View(here)))
      ensures offset == old(offset) + k
    {
      ghost var s := View(here);
      FillBuffer(k);
      offset := offset + k;
      if exec {
        delivered := delivered + buffer[..k];
      }
      assert View(here) == DoRead(s, k, exec);
      ReadStep(s, k, buffer.Length);
      Record(s, here);
    }

    /** One read(): 0 at the end of the file, otherwise any number of bytes that fit. */
    method ReadOnce(exec: bool, here: Pc) returns (size: nat)
      requires At(here) && (here.InitialRead? || here.ReadData?) && exec == (here.ReadData? || sow)
      modifies this`offset, this`delivered, this`start, this`trace, buffer
      ensures old(trace) <= trace && budget == old(budget) && size <= buffer.Length
      ensures offset == old(offset) + size && (size == 0 <==> |file| <= old(offset))
      ensures 0 < size ==> At(here) && Rank(View(here)) < old(Rank(View(here)))
      ensures size == 0 ==> var to := AfterRead(old(View(here))).pc; At(to) && Rank(View(to)) < old(Rank(View(here)))
    {
      if |file| <= offset {
        EndOfData(View(here));
        return 0;
      }
      var k: int := *;
      if k < 1 || buffer.Length < k || |file| < offset + k { k := 1; }
      ReadSome(k, exec, here);
      return k;
    }

    /** `_read_data`: read until there is nothing left; returns false at end of file. */
    method ReadAll(exec: bool, here: Pc)
      requires At(here) && (here.InitialRead? || here.ReadData?) && exec == (here.ReadData? || sow)
      modifies this, buffer
      ensures old(trace) <= trace
      ensures here.InitialRead? ==> At(Wait)
      ensures here.ReadData? ==> At(Batch(here.events, here.exiting))
      ensures here.ReadData? ==> Less(Batch(here.events, here.exiting), old(budget), old(Rank(View(here))))
      ensures |file| <= offset
    {
      var size: nat := 1;
      ghost var after := if here.InitialRead? then Wait else Batch(here.events, here.exiting);
      while size != 0
        invariant old(trace) <= trace && budget <= old(budget)
        invariant size != 0 ==> At(here) && (budget == old(budget) ==> Rank(View(here)) <= old(Rank(View(here))))
        invariant size == 0 ==> At(after) && Less(after, old(budget), old(Rank(View(here)))) && |file| <= offset
        decreases size != 0, budget, Rank(View(here))
      {
        Interfere(here);
        size := ReadOnce(exec, here);
      }
    }

    /** One read of the inotify descriptor. */
    method TakeOnce(here: Pc) returns (more: bool)
      requires At(here) && here.DrainInotify?
      modifies this`queued, this`budget, this`trace
      ensures old(trace) <= trace && budget <= old(budget)
      ensures more ==> At(here) && Less(here, old(budget), old(Rank(View(here))))
      ensures !more ==> var to := ReadData(here.events, here.exiting); At(to) && Less(to, old(budget), old(Rank(View(here))))
    {
      ghost var s := View(here);
      var interrupted: bool := *;
      if 0 < budget && interrupted {
        budget := budget - 1;
        RecordOther(s, ReadData(here.events, here.exiting));
        return false;
      }
      if queued == 0 {
        Record(s, ReadData(here.events, here.exiting));
        return false;
      }
      var k: int := *;
      if k < 1 || queued < k { k := 1; }
      queued := queued - k;
      assert View(here) == DoTake(s, k);
      Record(s, here);
      return true;
    }

    /** `_drain_inotify`: read events until a read takes none. */
    method Drain(here: Pc)
      requires At(here) && here.DrainInotify?
      modifies this
      ensures old(trace) <= trace
      ensures var to := ReadData(here.events, here.exiting); At(to) && Less(to, old(budget), old(Rank(View(here))))
    {
      var more := true;
      ghost var after := ReadData(here.events, here.exiting);
      while more
        invariant old(trace) <= trace && budget <= old(budget)
        invariant more ==> At(here) && (budget == old(budget) ==> Rank(View(here)) <= old(Rank(View(here))))
        invariant !more ==> At(after) && Less(after, old(budget), old(Rank(View(here))))
        decreases more, budget, Rank(View(here))
      {
        Interfere(here);
        more := TakeOnce(here);
      }
    }

    method EpollWait() returns (events: seq<Source>)
      requires At(Wait)
      ensures events != [] ==> CanWait(View(Wait), events) && (0 < queued ==> InotifyFd in events)
      ensures events == [] && budget == 0 ==> queued == 0 && !exitWritten
    {
      var interrupted: bool := *;
      if interrupted && 0 < budget {
        return [];
      }
      var exitFirst: bool := *;
      return if 0 < queued && exitWritten then (if exitFirst then [ExitPipe, InotifyFd] else [InotifyFd, ExitPipe])
             else if 0 < queued then [InotifyFd]
             else if exitWritten then [ExitPipe]
             else [];
    }

    /** The loop over the events of one epoll_wait. */
    method HandleEvents(events: seq<Source>) returns (exitRequested: bool)
      requires At(Batch(events, false))
      modifies this, buffer
      ensures old(trace) <= trace && At(Batch([], exitRequested))
      ensures exitRequested <==> ExitPipe in events
      ensures budget <= old(budget)
      ensures budget == old(budget) ==> Rank(View(Batch([], exitRequested))) <= old(Rank(View(Batch(events, false))))
    {
      exitRequested := false;
      var rest := events;
      while rest != []
        invariant old(trace) <= trace && budget <= old(budget) && At(Batch(rest, exitRequested))
        invariant ExitPipe in events <==> exitRequested || ExitPipe in rest
        invariant budget == old(budget) ==> Rank(View(Batch(rest, exitRequested))) <= old(Rank(View(Batch(events, false))))
        decreases |rest|
      {
        exitRequested := HandleEvent(rest, exitRequested);
        rest := rest[1..];
      }
    }

    method HandleEvent(events: seq<Source>, exiting: bool) returns (exitRequested: bool)
      requires events != [] && At(Batch(events, exiting))
      modifies this, buffer
      ensures old(trace) <= trace && At(Batch(events[1..], exitRequested))
      ensures exitRequested <==> exiting || events[0] == ExitPipe
      ensures events[0] == InotifyFd ==> |file| <= offset
      ensures Less(Batch(events[1..], exitRequested), old(budget), old(Rank(View(Batch(events, exiting)))))
    {
      ghost var s := View(Batch(events, exiting));
      Record(s, NextEvent(events, exiting));
      if events[0].InotifyFd? {
        Drain(DrainInotify(events[1..], exiting));
        ReadAll(true, ReadData(events[1..], exiting));
        return exiting;
      }
      return true;
    }

    /** The constructor's calls in order, then `_worker_impl`. For every schedule the thread ends after
        a stop() or is left waiting with every announced byte delivered. State `last` of the run is the one the
        last epoll_wait meets: what an inotify event had announced by then is delivered before the thread ends. */
    method Run() returns (exited: bool, ghost last: nat)
      requires At(AddWatch)
      modifies this, buffer
      ensures exited ==> At(Exited) && last < |trace| && Ended(trace[last], View(Exited))
      ensures !exited ==> At(Wait) && queued == 0 && !exitWritten
      ensures !exited && appending == 0 ==> delivered == if start <= |file| then file[start..] else []
    {
      Record(View(AddWatch), InitialRead);
      ReadAll(sow, InitialRead);
      last := 0;
      while true
        invariant At(Wait)
        decreases budget, Rank(View(Wait))
      {
        Interfere(Wait);
        var events := EpollWait();
        if events == [] {
          if budget == 0 {
            DeliversExactly(trace, buffer.Length, |trace| - 1);
            return false, last;
          }
          budget := budget - 1;
          continue;
        }
        last := |trace| - 1;
        exited := Turn(events);
        if exited {
          return;
        }
      }
    }

    method Turn(events: seq<Source>) returns (exited: bool)
      requires At(Wait) && CanWait(View(Wait), events) && (0 < queued ==> InotifyFd in events)
      modifies this, buffer
      ensures old(trace) <= trace
      ensures exited <==> ExitPipe in events
      ensures exited ==> At(Exited) && Ended(old(View(Wait)), View(Exited))
      ensures !exited ==> At(Wait) && Less(Wait, old(budget), old(Rank(View(Wait))))
    {
      Record(View(Wait), Batch(events, false));
      exited := HandleEvents(events);
      Record(View(Batch([], exited)), if exited then Exited else Wait);
      if exited {
        LastWait(trace, buffer.Length, |old(trace)| - 1, events);
      }
    }
  }
}
