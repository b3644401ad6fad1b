/** What becomes of a Terminate-level line. It is meant to be logged and flushed before the process aborts;
    these are the two guards that decide whether it is. A thread that is `Stopped` with a line of its own is
    about to abort; the others may still act until it does. */
module AsyncLogTerminate {
  import opened AsyncLog
  import opened Options

  // ----- one thread along a run

  lemma ThreadMoves(s: State, t: State, i: nat)
    requires Next(s, t) && i < |s.threads|
    ensures |s.threads| <= |t.threads| && (t.threads[i] == s.threads[i] || ThreadNext(s, t, i))
  {
    if !WorkerNext(s, t) {
      if j: nat :| j < |s.threads| && ThreadNext(s, t, j) {
        OneThreadMoves(s, t, j);
      }
    }
  }

  lemma OneThreadMoves(s: State, t: State, j: nat)
    requires j < |s.threads| && ThreadNext(s, t, j)
    ensures |t.threads| == |s.threads| && forall i :: 0 <= i < |s.threads| && i != j ==> t.threads[i] == s.threads[i]
  {
  }

  predicate Holds(th: Thread, p: nat) {
    (th.Stopping? || th.Winner? || th.Joining? || th.Stopped?) && th.own == Some(p)
  }

  /** Past the check: the line is about to be enqueued, or it is in the queue and the thread stops the logger. */
  predicate Pushing(s: State, i: nat, from: nat, line: string) {
    && i < |s.threads| && from <= |s.enqueued|
    && (s.threads[i] == Passed(line, true) ||
        exists p :: from <= p < |s.enqueued| && s.enqueued[p] == Some(line) && Holds(s.threads[i], p))
  }

  lemma PushingStep(s: State, t: State, i: nat, from: nat, line: string)
    requires Next(s, t) && Pushing(s, i, from, line)
    ensures Pushing(t, i, from, line)
  {
    ThreadMoves(s, t, i);
    StepKeepsItems(s, t);
    if s.threads[i] == Passed(line, true) {
      if t.threads[i] != s.threads[i] {
        assert t == DoEnqueue(s, i);
        assert t.enqueued[|s.enqueued|] == Some(line) && Holds(t.threads[i], |s.enqueued|);
      }
    } else {
      var p :| from <= p < |s.enqueued| && s.enqueued[p] == Some(line) && Holds(s.threads[i], p);
      assert t.enqueued[p] == Some(line);
      assert Holds(t.threads[i], p);
    }
  }

  /** The first guard. A Terminate-level line goes on to the queue exactly if the queue is not longer than the
      throttle when push looks; otherwise push returns and nothing at all has happened. */
  lemma {:induction false} CheckDecides(run: seq<State>, c: nat, m: nat, i: nat, line: string)
    requires IsRun(run) && c < m < |run| && i < |run[c].threads| && run[c].threads[i].Free?
    requires run[c + 1] == DoCheck(run[c], i, line, true)
    ensures |Queue(run[c])| <= run[c].throttle ==> Pushing(run[m], i, |run[c].enqueued|, line)
    ensures |Queue(run[c])| > run[c].throttle ==> run[c + 1] == run[c]
    decreases m
  {
    if c + 1 < m {
      CheckDecides(run, c, m - 1, i, line);
      if |Queue(run[c])| <= run[c].throttle {
        assert StepAt(run, m - 1);
        PushingStep(run[m - 1], run[m], i, |run[c].enqueued|, line);
      }
    }
  }

  /** Where a thread that holds line p is after its exchange. */
  predicate Exchanged(th: Thread, p: nat, won: bool) {
    if won then th == Winner(Some(p)) || th == Joining(Some(p)) || th == Stopped(true, Some(p))
    else th == Stopped(false, Some(p))
  }

  lemma {:induction false} AfterExchange(run: seq<State>, x: nat, m: nat, i: nat, p: nat)
    requires IsRun(run) && x < m < |run| && i < |run[x].threads| && run[x].threads[i] == Stopping(Some(p))
    requires run[x + 1] == DoExchange(run[x], i)
    ensures i < |run[m].threads| && Exchanged(run[m].threads[i], p, run[x].running)
    decreases m
  {
    if x + 1 < m {
      AfterExchange(run, x, m - 1, i, p);
      assert StepAt(run, m - 1);
      ThreadMoves(run[m - 1], run[m], i);
    }
  }

  lemma {:induction false} OutputGrows(run: seq<State>, j: nat, k: nat)
    requires IsRun(run) && j <= k < |run|
    ensures run[j].output <= run[k].output
  {
    if j < k {
      OutputGrows(run, j, k - 1);
      assert StepAt(run, k - 1);
      StepGrowsOutput(run[k - 1], run[k]);
    }
  }

  lemma StepGrowsOutput(s: State, t: State)
    requires Next(s, t)
    ensures s.output <= t.output
  {
    if !WorkerNext(s, t) {
      if i: nat :| i < |s.threads| && ThreadNext(s, t, i) {
      }
    }
  }

  /** The second guard. After its exchange the thread comes to abort with the result `running` had then; and if
      that is true, its line is in the output. */
  lemma ExchangeDecides(run: seq<State>, x: nat, m: nat, i: nat, p: nat)
    requires IsRun(run) && x < m < |run| && i < |run[x].threads| && run[x].threads[i] == Stopping(Some(p))
    requires run[x + 1] == DoExchange(run[x], i)
    ensures i < |run[m].threads| && Exchanged(run[m].threads[i], p, run[x].running)
    ensures run[m].threads[i].Stopped? ==> run[m].threads[i].result == run[x].running
    ensures run[m].threads[i].Stopped? && run[x].running ==>
      p < |run[m].output| && p < |run[m].enqueued| && run[m].enqueued[p] == Some(run[m].output[p])
  {
    AfterExchange(run, x, m, i, p);
    if run[m].threads[i].Stopped? && run[x].running {
      StopFlushes(run, m, i);
    }
  }

  // ----- the promise, exactly

  /** However the run goes on after thread i's exchange, line p is in the output when the thread aborts. */
  ghost predicate AlwaysFlushed(run: seq<State>, i: nat, p: nat)
    requires run != [] && i < |run[|run| - 1].threads| && run[|run| - 1].threads[i].Stopping?
  {
    forall more: seq<State> :: AbortsIn(Onward(run, i, more), i) ==> p < |Final(Onward(run, i, more)).output|
  }

  function Final(run: seq<State>): State
    requires run != []
  {
    run[|run| - 1]
  }

  /** The run with thread i's exchange and whatever follows. */
  function Onward(run: seq<State>, i: nat, more: seq<State>): (r: seq<State>)
    requires run != [] && i < |Final(run).threads| && Final(run).threads[i].Stopping?
    ensures r != []
  {
    run + [DoExchange(Final(run), i)] + more
  }

  ghost predicate AbortsIn(run: seq<State>, i: nat) {
    IsRun(run) && i < |Final(run).threads| && Final(run).threads[i].Stopped?
  }

  /** The line is sure to be flushed if and only if the logger is still running at the exchange, or the line
      has been written already. */
  lemma FlushedIff(run: seq<State>, i: nat, p: nat)
    requires IsRun(run) && i < |Final(run).threads| && Final(run).threads[i] == Stopping(Some(p))
    ensures AlwaysFlushed(run, i, p) <==> Final(run).running || p < |Final(run).output|
  {
    var s := Final(run);
    var next := DoExchange(s, i);
    if s.running || p < |s.output| {
      forall more: seq<State> | AbortsIn(Onward(run, i, more), i)
        ensures p < |Final(Onward(run, i, more)).output|
      {
        SureFlush(run, i, p, more);
      }
    } else {
      ThreadStep(s, next, i);
      ExtendRun(run, next);
      var ends := Onward(run, i, []);
      assert ends == run + [next];
      assert AbortsIn(ends, i) && Final(ends) == next;
    }
  }

  lemma SureFlush(run: seq<State>, i: nat, p: nat, more: seq<State>)
    requires IsRun(run) && i < |Final(run).threads| && Final(run).threads[i] == Stopping(Some(p))
    requires Final(run).running || p < |Final(run).output|
    requires AbortsIn(Onward(run, i, more), i)
    ensures p < |Final(Onward(run, i, more)).output|
  {
    var x, longer := |run| - 1, Onward(run, i, more);
    assert longer[x] == Final(run) && longer[x + 1] == DoExchange(Final(run), i);
    if Final(run).running {
      ExchangeDecides(longer, x, |longer| - 1, i, p);
    } else {
      OutputGrows(longer, x, |longer| - 1);
    }
  }

  // ----- when a line can still be written

  /** Some way to go on writes item p. */
  ghost predicate CanBeWritten(run: seq<State>, p: nat) {
    exists more: seq<State> :: WritesIn(run + more, p)
  }

  ghost predicate WritesIn(run: seq<State>, p: nat) {
    IsRun(run) && p < |Final(run).output|
  }

  /** Steps the worker is away from having written item p. */
  function Missing(s: State, p: nat): int {
    2 * (p + 1 - |s.output|) - if s.worker.Writing? then 1 else 0
  }

  lemma {:induction false} WorkerWrites(run: seq<State>, p: nat) returns (more: seq<State>)
    requires IsRun(run) && p < |Final(run).enqueued| && Final(run).enqueued[p].Some?
    requires Final(run).sentinelAt.Some? ==> p < Final(run).sentinelAt.value
    ensures WritesIn(run + more, p)
    decreases Missing(Final(run), p)
  {
    var s := Final(run);
    if p < |s.output| {
      more := [];
      assert run + more == run;
    } else {
      var t := NextWrite(run, p);
      ExtendRun(run, t);
      var rest := WorkerWrites(run + [t], p);
      more := [t] + rest;
      assert run + more == run + [t] + rest;
    }
  }

  lemma NextWrite(run: seq<State>, p: nat) returns (t: State)
    requires IsRun(run) && p < |Final(run).enqueued| && Final(run).enqueued[p].Some?
    requires Final(run).sentinelAt.Some? ==> p < Final(run).sentinelAt.value
    requires |Final(run).output| <= p
    ensures WorkerNext(Final(run), t) && Missing(t, p) < Missing(Final(run), p) && 0 <= Missing(Final(run), p)
    ensures t.enqueued == Final(run).enqueued && t.sentinelAt == Final(run).sentinelAt
  {
    var s := Final(run);
    RunInv(run, |run| - 1);
    OutputIs(s);
    if s.worker.Writing? {
      t := DoWrite(s);
    } else {
      assert s.popped <= p;
      t := DoPop(s);
    }
  }

  lemma BehindSentinel(run: seq<State>, more: seq<State>, p: nat)
    requires IsRun(run) && IsRun(run + more)
    requires Final(run).sentinelAt.Some? && Final(run).sentinelAt.value < p
    ensures |Final(run + more).output| <= p
  {
    var n, longer := |run| - 1, run + more;
    RunInv(run, n);
    KeepsItems(longer, n, |longer| - 1);
    RunInv(longer, |longer| - 1);
    var v := Final(run).sentinelAt.value;
    assert longer[n] == run[n];
    assert Final(longer).enqueued[v].None?;
    OutputIs(Final(longer));
  }

  /** An enqueued line is never written, however the run goes on, if and only if the sentinel is ahead of it. */
  lemma NeverWrittenIff(run: seq<State>, p: nat)
    requires IsRun(run) && p < |Final(run).enqueued| && Final(run).enqueued[p].Some?
    ensures !CanBeWritten(run, p) <==> Final(run).sentinelAt.Some? && Final(run).sentinelAt.value < p
  {
    var s := Final(run);
    if s.sentinelAt.Some? && s.sentinelAt.value < p {
      forall more: seq<State> | IsRun(run + more)
        ensures !WritesIn(run + more, p)
      {
        BehindSentinel(run, more, p);
      }
    } else {
      SentinelElsewhere(run, p);
      var more := WorkerWrites(run, p);
      assert WritesIn(run + more, p);
    }
  }

  lemma SentinelElsewhere(run: seq<State>, p: nat)
    requires IsRun(run) && p < |Final(run).enqueued| && Final(run).enqueued[p].Some?
    ensures Final(run).sentinelAt != Some(p)
  {
    RunInv(run, |run| - 1);
  }

  // ----- two runs in which the promise fails

  /** Over the throttle: for every T, a Terminate-level push that finds T + 1 lines queued returns to its
      caller. Its line is nowhere, the logger runs on, and nothing has been flushed. */
  lemma TerminateDropped(limit: nat, line: string) returns (run: seq<State>)
    requires line != ""
    ensures IsRun(run) && 2 <= |run|
    ensures var s, t := run[|run| - 2], run[|run| - 1];
      && |s.threads| == 1 && s.threads[0].Free? && |Queue(s)| == limit + 1 && s.throttle == limit
      && t == DoCheck(s, 0, line, true)
      && t.threads[0].Free? && t.running && Some(line) !in t.enqueued && t.output == []
  {
    run := EnqueueAll(limit, 1, 1);
    var s := Final(run);
    assert Queue(s) == s.enqueued;
    var t := DoCheck(s, 0, line, true);
    ThreadStep(s, t, 0);
    ExtendRun(run, t);
    run := run + [t];
  }

  function Two(first: Thread, second: Thread, items: seq<Option<string>>, stopped: bool): State {
    State([first, second], Popping, items, 0, [], !stopped, PTRDIFF_MAX,
          if stopped then Some(0) else None, if items == [] then None else Some(0))
  }

  lemma Then(run: seq<State>, t: State, i: nat) returns (longer: seq<State>)
    requires IsRun(run) && i < |Final(run).threads| && ThreadNext(Final(run), t, i)
    ensures IsRun(longer) && Final(longer) == t
  {
    ThreadStep(Final(run), t, i);
    ExtendRun(run, t);
    longer := run + [t];
  }

  /** Behind another stop(): the thread aborts with its line enqueued behind the sentinel, so that it is never
      written. */
  lemma TerminateLost(line: string) returns (run: seq<State>)
    ensures IsRun(run)
    ensures var s := Final(run);
      && |s.threads| == 2 && s.threads[1] == Stopped(false, Some(1)) && |s.enqueued| == 2
      && s.enqueued[1] == Some(line) && s.output == [] && s.sentinelAt == Some(0) && !CanBeWritten(run, 1)
  {
    run := [Two(Free, Free, [], false)];
    var mine := Passed(line, true);
    var s := Two(Free, mine, [], false);
    assert s == DoCheck(run[0], 1, line, true);
    run := Then(run, s, 1);
    s := Two(Stopping(None), mine, [], false);
    assert s == DoCallStop(Final(run), 0);
    run := Then(run, s, 0);
    s := Two(Winner(None), mine, [], true);
    assert s == DoExchange(Final(run), 0);
    run := Then(run, s, 0);
    s := Two(Joining(None), mine, [None], true);
    assert s == DoSentinel(Final(run), 0);
    run := Then(run, s, 0);
    s := Two(Joining(None), Stopping(Some(1)), [None, Some(line)], true);
    assert s == DoEnqueue(Final(run), 1);
    run := Then(run, s, 1);
    s := Two(Joining(None), Stopped(false, Some(1)), [None, Some(line)], true);
    assert s == DoExchange(Final(run), 1);
    run := Then(run, s, 1);
    NeverWrittenIff(run, 1);
  }
}
