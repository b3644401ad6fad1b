/** `push`, `stop` and the worker loop as code over one shared queue. Between any two of its steps a
    thread lets the others act; what is left behind is a run of the transition system in `AsyncLog`. */
module AsyncLogLoop {
  import opened AsyncLog
  import opened AsyncLogTerminate
  import opened Options

  lemma CheckNext(s: State, i: nat, line: string, terminate: bool)
    requires i < |s.threads| && s.threads[i].Free?
    ensures Next(s, DoCheck(s, i, line, terminate))
  {
    ThreadStep(s, DoCheck(s, i, line, terminate), i);
  }

  /** With nothing queued the worker has written everything. */
  lemma RestedOutput(run: seq<State>)
    requires IsRun(run)
    ensures var s := run[|run| - 1];
      s.worker.Popping? && s.popped == |s.enqueued| ==> s.output == Lines(s.enqueued)
  {
    var s := run[|run| - 1];
    RunInv(run, |run| - 1);
    if s.popped == |s.enqueued| {
      assert s.enqueued[..s.popped] == s.enqueued;
    }
  }

  predicate Flushed(s: State) {
    && s.sentinelAt.Some? && s.sentinelAt.value < |s.enqueued|
    && s.output == Lines(s.enqueued[..s.sentinelAt.value])
  }

  lemma ReturnedOutput(run: seq<State>)
    requires IsRun(run)
    ensures run[|run| - 1].worker.Returned? ==> Flushed(run[|run| - 1])
  {
    RunInv(run, |run| - 1);
    OutputIs(run[|run| - 1]);
  }

  /** While a thread waits in join(), the worker can move, and comes closer to the sentinel. */
  lemma JoinProgress(run: seq<State>, i: nat)
    requires IsRun(run) && i < |run[|run| - 1].threads| && run[|run| - 1].threads[i].Joining?
    ensures var s := run[|run| - 1];
      0 <= Distance(s) && (s.worker.Popping? ==> s.popped < |s.enqueued|) &&
      forall t :: WorkerNext(s, t) ==> Distance(t) < Distance(s)
  {
    var s := run[|run| - 1];
    RunInv(run, |run| - 1);
    WorkerReturns(s);
    if s.worker.Popping? {
      var t :| WorkerNext(s, t);
    }
  }

  /** What holds of thread `me`, which enqueued `line` as item p, once its stop() has returned. */
  ghost predicate Outcome(run: seq<State>, me: nat, p: nat, line: string, flushed: bool)
    requires run != []
  {
    var s := run[|run| - 1];
    && me < |s.threads| && s.threads[me] == Stopped(flushed, Some(p)) && p < |s.enqueued| && s.enqueued[p] == Some(line)
    && (flushed ==> p < |s.output| && s.output[p] == line)
    && (!CanBeWritten(run, p) <==> s.sentinelAt.Some? && s.sentinelAt.value < p)
  }

  lemma OutcomeIs(run: seq<State>, at: nat, me: nat, line: string)
    requires IsRun(run) && at < |run| && run[at].enqueued != [] && run[at].enqueued[|run[at].enqueued| - 1] == Some(line)
    requires me < |run[|run| - 1].threads|
    requires run[|run| - 1].threads[me].Stopped? && run[|run| - 1].threads[me].own == Some(|run[at].enqueued| - 1)
    ensures Outcome(run, me, |run[at].enqueued| - 1, line, run[|run| - 1].threads[me].result)
  {
    KeepsItems(run, at, |run| - 1);
    NeverWrittenIff(run, |run[at].enqueued| - 1);
    if run[|run| - 1].threads[me].result {
      StopFlushes(run, |run| - 1, me);
    }
  }

  /** The queue is kept as everything ever put into it and how much of that has been taken. */
  class OstreamLog {
    var threads: seq<Thread>
    var worker: Worker
    var enqueued: seq<Option<string>>
    var popped: nat
    var output: seq<string>
    var running: bool
    var throttle: int
    var budget: nat
    ghost var owner: Option<nat>
    ghost var sentinelAt: Option<nat>
    ghost var trace: seq<State>

    ghost function View(): State
      reads this
    {
      State(threads, worker, enqueued, popped, output, running, throttle, owner, sentinelAt)
    }

    ghost predicate At()
      reads this
    {
      IsRun(trace) && trace[|trace| - 1] == View() && popped <= |enqueued|
    }

    function QueueSize(): int
      reads this
    {
      |enqueued| - popped
    }

    constructor (environment: nat)
      ensures At() && worker == Popping && enqueued == [] && output == [] && threads == [] && budget == environment
      ensures running && throttle == PTRDIFF_MAX
    {
      threads, worker, enqueued, popped, output, running := [], Popping, [], 0, [], true;
      throttle, budget, owner, sentinelAt := PTRDIFF_MAX, environment, None, None;
      new;
      trace := [View()];
    }

    ghost method Record(s: State)
      requires IsRun(trace) && trace[|trace| - 1] == s && Next(s, View()) && popped <= |enqueued|
      modifies this`trace
      ensures At() && old(trace) <= trace
    {
      ExtendRun(trace, View());
      trace := trace + [View()];
    }

    // ----- single steps

    /** The throttle check of push. */
    method Check(i: nat, line: string, terminate: bool) returns (dropped: bool)
      requires At() && i < |threads| && threads[i].Free?
      modifies this`threads, this`trace
      ensures At() && old(trace) <= trace && View() == DoCheck(old(View()), i, line, terminate)
      ensures dropped <==> throttle < QueueSize()
      ensures !dropped ==> threads[i] == Passed(line, terminate)
    {
      ghost var s := View();
      dropped := throttle < QueueSize();
      if !dropped {
        threads := threads[i := Passed(line, terminate)];
      }
      CheckNext(s, i, line, terminate);
      Record(s);
    }

    /** The emplace of push. */
    method Enqueue(i: nat)
      requires At() && i < |threads| && threads[i].Passed?
      modifies this`threads, this`enqueued, this`trace
      ensures At() && old(trace) <= trace && View() == DoEnqueue(old(View()), i)
    {
      ghost var s := View();
      var next := if threads[i].terminate then Stopping(Some(|enqueued|)) else Free;
      enqueued := enqueued + [Some(threads[i].line)];
      threads := threads[i := next];
      ThreadStep(s, View(), i);
      Record(s);
    }

    method CallStop(i: nat)
      requires At() && i < |threads| && threads[i].Free?
      modifies this`threads, this`trace
      ensures At() && old(trace) <= trace && View() == DoCallStop(old(View()), i)
    {
      ghost var s := View();
      threads := threads[i := Stopping(None)];
      ThreadStep(s, View(), i);
      Record(s);
    }

    /** running.exchange(false). */
    method Exchange(i: nat) returns (won: bool)
      requires At() && i < |threads| && threads[i].Stopping?
      modifies this`threads, this`running, this`owner, this`trace
      ensures At() && old(trace) <= trace && View() == DoExchange(old(View()), i) && won == old(running)
    {
      ghost var s := View();
      won := running;
      running := false;
      if won {
        owner := Some(i);
        threads := threads[i := Winner(threads[i].own)];
      } else {
        threads := threads[i := Stopped(false, threads[i].own)];
      }
      ThreadStep(s, View(), i);
      Record(s);
    }

    /** The emplace of the empty item. */
    method Sentinel(i: nat)
      requires At() && i < |threads| && threads[i].Winner?
      modifies this`threads, this`enqueued, this`sentinelAt, this`trace
      ensures At() && old(trace) <= trace && View() == DoSentinel(old(View()), i)
    {
      ghost var s := View();
      sentinelAt := Some(|enqueued|);
      enqueued := enqueued + [None];
      threads := threads[i := Joining(threads[i].own)];
      ThreadStep(s, View(), i);
      Record(s);
    }

    method Join(i: nat)
      requires At() && i < |threads| && threads[i].Joining? && worker.Returned?
      modifies this`threads, this`trace
      ensures At() && old(trace) <= trace && View() == DoJoin(old(View()), i)
    {
      ghost var s := View();
      threads := threads[i := Stopped(true, threads[i].own)];
      ThreadStep(s, View(), i);
      Record(s);
    }

    method Resume(i: nat)
      requires At() && i < |threads| && threads[i].Stopped? && threads[i].own.None?
      modifies this`threads, this`trace
      ensures At() && old(trace) <= trace && View() == DoResume(old(View()), i)
    {
      ghost var s := View();
      threads := threads[i := Free];
      ThreadStep(s, View(), i);
      Record(s);
    }

    method Pop()
      requires At() && worker.Popping? && popped < |enqueued|
      modifies this`worker, this`popped, this`trace
      ensures At() && old(trace) <= trace && View() == DoPop(old(View()))
    {
      ghost var s := View();
      var line := enqueued[popped];
      popped := popped + 1;
      worker := match line case Some(text) => Writing(text) case None => Returned;
      Record(s);
    }

    method Write()
      requires At() && worker.Writing?
      modifies this`worker, this`output, this`trace
      ensures At() && old(trace) <= trace && View() == DoWrite(old(View()))
    {
      ghost var s := View();
      output := output + [worker.line];
      worker := Popping;
      Record(s);
    }

    // ----- the others

    /** One step of thread i, if it can take one. */
    method OtherThread(i: nat)
      requires At() && i < |threads|
      modifies this`threads, this`enqueued, this`running, this`owner, this`sentinelAt, this`trace
      ensures At() && old(trace) <= trace && |threads| == |old(threads)|
      ensures forall j :: 0 <= j < |threads| && j != i ==> threads[j] == old(threads)[j]
    {
      match threads[i] {
        case Free =>
          var stopping, terminate: bool := *, *;
          var line: string := *;
          if stopping {
            CallStop(i);
          } else {
            var dropped := Check(i, line, terminate);
          }
        case Passed(_, _) => Enqueue(i);
        case Stopping(_) => var won := Exchange(i);
        case Winner(_) => Sentinel(i);
        case Joining(_) => if worker.Returned? { Join(i); }
        case Stopped(_, own) => if own.None? { Resume(i); }
      }
    }

    method WorkerStep()
      requires At() && !worker.Returned? && (worker.Popping? ==> popped < |enqueued|)
      modifies this`worker, this`popped, this`output, this`trace
      ensures At() && old(trace) <= trace && WorkerNext(old(View()), View())
    {
      if worker.Popping? {
        Pop();
      } else {
        Write();
      }
    }

    /** A thread appears, or the throttle is set. */
    method Surroundings(spawn: bool, size: int)
      requires At()
      modifies this`threads, this`throttle, this`trace
      ensures At() && old(trace) <= trace && old(threads) <= threads
    {
      ghost var s := View();
      if spawn {
        threads := threads + [Free];
      } else {
        throttle := size;
      }
      Record(s);
    }

    /** One step of anyone but thread `me`, and of the worker only if `worksToo`. */
    method EnvironmentStep(me: int, worksToo: bool)
      requires At() && me < |threads|
      modifies this`threads, this`worker, this`enqueued, this`popped, this`output, this`running, this`throttle,
               this`owner, this`sentinelAt, this`trace
      ensures At() && old(trace) <= trace && |old(threads)| <= |threads|
      ensures 0 <= me ==> threads[me] == old(threads)[me]
      ensures !worksToo ==> worker == old(worker) && output == old(output) && popped == old(popped)
    {
      var kind: int := *;
      if 0 <= kind < |threads| && kind != me {
        OtherThread(kind);
      } else if kind == -1 && worksToo && !worker.Returned? && (worker.Popping? ==> popped < |enqueued|) {
        WorkerStep();
      } else {
        var spawn: bool := *;
        Surroundings(spawn, kind);
      }
    }

    method Interfere(me: int, worksToo: bool)
      requires At() && me < |threads|
      modifies this
      ensures At() && old(trace) <= trace && |old(threads)| <= |threads| && budget <= old(budget)
      ensures 0 <= me ==> threads[me] == old(threads)[me]
      ensures !worksToo ==> worker == old(worker) && output == old(output) && popped == old(popped)
      ensures budget == old(budget) ==> View() == old(View())
    {
      var steps: nat := *;
      if budget < steps { steps := budget; }
      while 0 < steps
        invariant At() && old(trace) <= trace && |old(threads)| <= |threads| && steps <= budget <= old(budget)
        invariant 0 <= me ==> threads[me] == old(threads)[me]
        invariant !worksToo ==> worker == old(worker) && output == old(output) && popped == old(popped)
        invariant budget == old(budget) ==> View() == old(View())
      {
        budget, steps := budget - 1, steps - 1;
        EnvironmentStep(me, worksToo);
      }
    }

    // ----- the code

    /** One round of worker(). */
    method WorkOnce() returns (returned: bool)
      requires At() && worker.Popping? && popped < |enqueued|
      modifies this
      ensures At() && old(trace) <= trace && budget <= old(budget)
      ensures budget == old(budget) ==> |enqueued| - popped < old(|enqueued| - popped)
      ensures if returned then worker.Returned? else worker.Popping?
    {
      Pop();
      if worker.Returned? {
        return true;
      }
      Interfere(-1, false);
      Write();
      return false;
    }

    /** worker(): pop and write until the empty item. Either it returns with exactly the lines ahead of the
        sentinel written, or it is left waiting with every enqueued line written. */
    method Work() returns (returned: bool)
      requires At() && worker.Popping?
      modifies this
      ensures At() && old(trace) <= trace
      ensures returned ==> worker.Returned? && Flushed(View())
      ensures !returned ==> worker.Popping? && QueueSize() == 0 && output == Lines(enqueued)
    {
      returned := false;
      while !returned
        invariant At() && old(trace) <= trace && if returned then worker.Returned? else worker.Popping?
        decreases !returned, budget, |enqueued| - popped
      {
        Interfere(-1, false);
        if popped == |enqueued| {
          if budget == 0 {
            RestedOutput(trace);
            return;
          }
          budget := budget - 1;
        } else {
          returned := WorkOnce();
        }
      }
      ReturnedOutput(trace);
    }

    /** The worker takes a step while thread `me` waits for it. */
    method Progress(ghost me: nat)
      requires At() && me < |threads| && threads[me].Joining? && !worker.Returned?
      modifies this`worker, this`popped, this`output, this`trace
      ensures At() && old(trace) <= trace && Distance(View()) < old(Distance(View())) && 0 <= old(Distance(View()))
    {
      JoinProgress(trace, me);
      WorkerStep();
    }

    /** join(): waits for the worker, the only thread that is relied on to keep going. */
    method AwaitWorker(me: nat)
      requires At() && me < |threads| && threads[me].Joining?
      modifies this
      ensures At() && old(trace) <= trace && me < |threads| && threads[me] == old(threads[me]) && worker.Returned?
    {
      while !worker.Returned?
        invariant At() && old(trace) <= trace && me < |threads| && threads[me] == old(threads[me])
        decreases budget, Distance(View())
      {
        Progress(me);
        Interfere(me, true);
      }
    }

    /** stop(), once thread `me` has entered it. State `at` of the run is the one its exchange meets. */
    method Stop(me: nat) returns (r: bool, ghost at: nat)
      requires At() && me < |threads| && threads[me].Stopping?
      modifies this
      ensures At() && old(trace) <= trace && me < |threads| && threads[me] == Stopped(r, old(threads[me].own))
      ensures |old(trace)| <= at + 1 && at < |trace| && (r <==> trace[at].running)
      ensures r ==> worker.Returned? && Flushed(View())
    {
      Interfere(me, true);
      at := |trace| - 1;
      r := Exchange(me);
      if !r {
        return;
      }
      FinishStop(me);
    }

    /** The winner's part of stop(). */
    method FinishStop(me: nat)
      requires At() && me < |threads| && threads[me].Winner?
      modifies this
      ensures At() && old(trace) <= trace && me < |threads| && threads[me] == Stopped(true, old(threads[me].own))
      ensures worker.Returned? && Flushed(View())
    {
      Interfere(me, true);
      Sentinel(me);
      Interfere(me, true);
      AwaitWorker(me);
      Join(me);
      ReturnedOutput(trace);
    }

    /** push(), by its two guards. The line is dropped exactly if the queue is longer than the throttle in state
        `check`, and then nothing has happened, whatever the level. Otherwise it is item p of the queue, and a
        Terminate-level line is flushed by this thread exactly if the logger is running in state `exchange`. */
    method Push(me: nat, line: string, terminate: bool)
      returns (dropped: bool, flushed: bool, ghost check: nat, ghost exchange: nat, ghost p: nat)
      requires At() && me < |threads| && threads[me].Free?
      modifies this
      ensures At() && old(trace) <= trace && me < |threads| && |old(trace)| <= check + 1 && check < |trace|
      ensures dropped <==> trace[check].throttle < |Queue(trace[check])|
      ensures dropped ==> View() == trace[check]
      ensures dropped || !terminate ==> threads[me].Free? && !flushed
      ensures !dropped ==> |trace[check].enqueued| <= p < |enqueued| && enqueued[p] == Some(line)
      ensures !dropped && terminate ==>
        check < exchange < |trace| && (flushed <==> trace[exchange].running) && Outcome(trace, me, p, line, flushed)
    {
      flushed, exchange, p := false, 0, 0;
      Interfere(me, true);
      check := |trace| - 1;
      dropped := Check(me, line, terminate);
      if !dropped {
        flushed, exchange, p := PushPassed(me, line, terminate, check);
      }
    }

    /** The rest of push(), past the check. */
    method PushPassed(me: nat, line: string, terminate: bool, ghost check: nat)
      returns (flushed: bool, ghost exchange: nat, ghost p: nat)
      requires At() && me < |threads| && threads[me] == Passed(line, terminate) && check < |trace| - 1
      modifies this
      ensures At() && old(trace) <= trace && me < |threads|
      ensures !terminate ==> threads[me].Free? && !flushed
      ensures |trace[check].enqueued| <= p < |enqueued| && enqueued[p] == Some(line)
      ensures terminate ==>
        check < exchange < |trace| && (flushed <==> trace[exchange].running) && Outcome(trace, me, p, line, flushed)
    {
      flushed, exchange := false, 0;
      Interfere(me, true);
      KeepsItems(trace, check, |trace| - 1);
      p := |enqueued|;
      Enqueue(me);
      if terminate {
        flushed, exchange := StopAfter(me, line);
      }
    }

    /** What a Terminate-level push does once its line is in the queue. */
    method StopAfter(me: nat, ghost line: string) returns (flushed: bool, ghost exchange: nat)
      requires At() && me < |threads| && enqueued != [] && enqueued[|enqueued| - 1] == Some(line)
      requires threads[me] == Stopping(Some(|enqueued| - 1))
      modifies this
      ensures At() && old(trace) <= trace && |old(trace)| <= exchange + 1 && exchange < |trace|
      ensures flushed <==> trace[exchange].running
      ensures Outcome(trace, me, |old(enqueued)| - 1, line, flushed)
    {
      ghost var at := |trace| - 1;
      flushed, exchange := Stop(me);
      OutcomeIs(trace, at, me, line);
    }
  }
}
