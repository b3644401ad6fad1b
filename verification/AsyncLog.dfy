/** The asynchronous stream logger: many producers, one FIFO queue, one worker, an empty item as
    sentinel and an atomic exchange that lets exactly one stop() win.

    The TBB queue is taken to be a linearizable FIFO whose size() is its length. `push` is two steps,
    the throttle check and the enqueue, so producers can overlap in between. */
module AsyncLog {
  import opened Options

  /** What a thread using the logger is doing. `own` is the queue position of the Terminate-level line
      this thread has pushed, if that is why it is stopping the logger. */
  datatype Thread =
    | Free
    | Passed(line: string, terminate: bool)
    | Stopping(own: Option<nat>)
    | Winner(own: Option<nat>)
    | Joining(own: Option<nat>)
    | Stopped(result: bool, own: Option<nat>)

  datatype Worker = Popping | Writing(line: string) | Returned

  /** `enqueued` is everything ever put into the queue, in order, and `popped` how much of it the worker
      has taken, so the queue is the rest. `owner` won the exchange; `sentinelAt` is where its empty
      item went. */
  datatype State = State(
    threads: seq<Thread>,
    worker: Worker,
    enqueued: seq<Option<string>>,
    popped: nat,
    output: seq<string>,
    running: bool,
    throttle: int,
    owner: Option<nat>,
    sentinelAt: Option<nat>)

  function Queue(s: State): seq<Option<string>> {
    if s.popped <= |s.enqueued| then s.enqueued[s.popped..] else []
  }

  /** The lines among queue items. */
  function Lines(items: seq<Option<string>>): seq<string> {
    if items == [] then []
    else
      var before := Lines(items[..|items| - 1]);
      match items[|items| - 1] case Some(line) => before + [line] case None => before
  }

  /** A new logger is not throttled; throttleSize sets a limit later. */
  const PTRDIFF_MAX := 0x7FFF_FFFF_FFFF_FFFF

  ghost predicate Init(s: State) {
    && (forall i :: 0 <= i < |s.threads| ==> s.threads[i].Free?)
    && s.worker.Popping? && s.enqueued == [] && s.popped == 0 && s.output == []
    && s.running && s.throttle == PTRDIFF_MAX && s.owner.None? && s.sentinelAt.None?
  }

  // ----- producer steps

  /** The throttle check: over the limit the line is dropped and push returns. */
  function DoCheck(s: State, i: nat, line: string, terminate: bool): State
    requires i < |s.threads|
  {
    if s.throttle < |Queue(s)| then s else s.(threads := s.threads[i := Passed(line, terminate)])
  }

  /** The enqueue; a Terminate-level line then stops the logger. */
  function DoEnqueue(s: State, i: nat): State
    requires i < |s.threads| && s.threads[i].Passed?
  {
    var next := if s.threads[i].terminate then Stopping(Some(|s.enqueued|)) else Free;
    s.(enqueued := s.enqueued + [Some(s.threads[i].line)], threads := s.threads[i := next])
  }

  // ----- stop() steps

  function DoCallStop(s: State, i: nat): State
    requires i < |s.threads|
  {
    s.(threads := s.threads[i := Stopping(None)])
  }

  /** running.exchange(false). */
  function DoExchange(s: State, i: nat): State
    requires i < |s.threads| && s.threads[i].Stopping?
  {
    var own := s.threads[i].own;
    if s.running then s.(running := false, owner := Some(i), threads := s.threads[i := Winner(own)])
    else s.(threads := s.threads[i := Stopped(false, own)])
  }

  function DoSentinel(s: State, i: nat): State
    requires i < |s.threads| && s.threads[i].Winner?
  {
    s.(enqueued := s.enqueued + [None], sentinelAt := Some(|s.enqueued|),
       threads := s.threads[i := Joining(s.threads[i].own)])
  }

  /** join() returns once the worker has returned. */
  function DoJoin(s: State, i: nat): State
    requires i < |s.threads| && s.threads[i].Joining?
  {
    s.(threads := s.threads[i := Stopped(true, s.threads[i].own)])
  }

  /** stop()'s caller goes on, unless it was a Terminate-level push, which aborts. */
  function DoResume(s: State, i: nat): State
    requires i < |s.threads|
  {
    s.(threads := s.threads[i := Free])
  }

  ghost predicate ThreadNext(s: State, t: State, i: nat)
    requires i < |s.threads|
  {
    match s.threads[i]
    case Free => t == DoCallStop(s, i) || exists line, terminate :: t == DoCheck(s, i, line, terminate)
    case Passed(_, _) => t == DoEnqueue(s, i)
    case Stopping(_) => t == DoExchange(s, i)
    case Winner(_) => t == DoSentinel(s, i)
    case Joining(_) => s.worker.Returned? && t == DoJoin(s, i)
    case Stopped(_, own) => own.None? && t == DoResume(s, i)
  }

  // ----- worker steps

  function DoPop(s: State): State
    requires s.popped < |s.enqueued|
  {
    s.(popped := s.popped + 1,
       worker := match s.enqueued[s.popped] case Some(line) => Writing(line) case None => Returned)
  }

  function DoWrite(s: State): State
    requires s.worker.Writing?
  {
    s.(output := s.output + [s.worker.line], worker := Popping)
  }

  ghost predicate WorkerNext(s: State, t: State) {
    match s.worker
    case Popping => s.popped < |s.enqueued| && t == DoPop(s)
    case Writing(_) => t == DoWrite(s)
    case Returned => false
  }

  /** A thread may appear at any time, and anyone may change the throttle. */
  ghost predicate Next(s: State, t: State) {
    || WorkerNext(s, t)
    || (exists i: nat :: i < |s.threads| && ThreadNext(s, t, i))
    || t == s.(threads := s.threads + [Free])
    || t == s.(throttle := t.throttle)
  }

  ghost predicate StepAt(run: seq<State>, k: nat)
    requires k < |run| - 1
  {
    Next(run[k], run[k + 1])
  }

  ghost predicate IsRun(run: seq<State>) {
    && run != []
    && Init(run[0])
    && forall k :: 0 <= k < |run| - 1 ==> StepAt(run, k)
  }

  lemma ExtendRun(run: seq<State>, t: State)
    requires IsRun(run) && Next(run[|run| - 1], t)
    ensures IsRun(run + [t])
  {
    var longer := run + [t];
    forall k | 0 <= k < |longer| - 1
      ensures StepAt(longer, k)
    {
      if k < |run| - 1 {
        assert StepAt(run, k);
      }
    }
  }

  lemma ThreadStep(s: State, t: State, i: nat)
    requires i < |s.threads| && ThreadNext(s, t, i)
    ensures Next(s, t)
  {
  }

  // ----- the invariant

  /** One sentinel at most, put there by the one thread that won the exchange. */
  ghost predicate OneSentinel(s: State) {
    && (s.running <==> s.owner.None?)
    && (s.sentinelAt.Some? ==> s.owner.Some? && s.sentinelAt.value < |s.enqueued|)
    && (forall k :: 0 <= k < |s.enqueued| ==> (s.enqueued[k].None? <==> s.sentinelAt == Some(k)))
    && (forall i :: 0 <= i < |s.threads| && s.threads[i].Winner? ==> s.owner == Some(i) && s.sentinelAt.None?)
    && (forall i :: 0 <= i < |s.threads| && (s.threads[i].Joining? || (s.threads[i].Stopped? && s.threads[i].result)) ==>
          s.owner == Some(i) && s.sentinelAt.Some?)
    && (forall i :: 0 <= i < |s.threads| && s.threads[i].Stopped? && s.threads[i].result ==> s.worker.Returned?)
  }

  /** The worker has written exactly the lines it popped, except one it may still hold, and stops at
      the sentinel. */
  ghost predicate WritesInOrder(s: State) {
    && s.popped <= |s.enqueued|
    && Lines(s.enqueued[..s.popped]) == (if s.worker.Writing? then s.output + [s.worker.line] else s.output)
    && (s.worker.Writing? ==> 0 < s.popped && s.enqueued[s.popped - 1] == Some(s.worker.line))
    && (s.worker.Returned? <==> s.sentinelAt.Some? && s.sentinelAt.value < s.popped)
    && (s.worker.Returned? ==> s.popped == s.sentinelAt.value + 1)
  }

  /** A Terminate-level line is in the queue before its thread goes on to stop the logger. */
  predicate OwnLine(s: State, i: nat)
    requires i < |s.threads|
  {
    var th := s.threads[i];
    var own := if th.Stopping? || th.Winner? || th.Joining? || th.Stopped? then th.own else None;
    own.Some? ==>
      && own.value < |s.enqueued|
      && s.enqueued[own.value].Some?
      && (th.Joining? || (th.Stopped? && th.result) ==> s.sentinelAt.Some? && own.value < s.sentinelAt.value)
  }

  ghost predicate Inv(s: State) {
    && OneSentinel(s)
    && WritesInOrder(s)
    && forall i :: 0 <= i < |s.threads| ==> OwnLine(s, i)
  }

  lemma {:induction false} LinesAppend(a: seq<Option<string>>, b: seq<Option<string>>)
    ensures Lines(a + b) == Lines(a) + Lines(b)
  {
    if b == [] {
      assert a + b == a;
    } else {
      var c := b[..|b| - 1];
      LinesAppend(a, c);
      assert (a + b)[..|a + b| - 1] == a + c;
    }
  }

  /** Without a sentinel, item k is line k. */
  lemma {:induction false} LinesOfLines(items: seq<Option<string>>)
    requires forall k :: 0 <= k < |items| ==> items[k].Some?
    ensures |Lines(items)| == |items|
    ensures forall k :: 0 <= k < |items| ==> Lines(items)[k] == items[k].value
  {
    if items != [] {
      LinesOfLines(items[..|items| - 1]);
    }
  }

  lemma EnqueueInv(s: State, i: nat)
    requires Inv(s) && i < |s.threads| && s.threads[i].Passed?
    ensures Inv(DoEnqueue(s, i))
  {
    var t := DoEnqueue(s, i);
    assert t.enqueued[..s.popped] == s.enqueued[..s.popped];
    forall j | 0 <= j < |t.threads|
      ensures OwnLine(t, j)
    {
      assert OwnLine(s, j);
    }
  }

  lemma SentinelInv(s: State, i: nat)
    requires Inv(s) && i < |s.threads| && s.threads[i].Winner?
    ensures Inv(DoSentinel(s, i))
  {
    var t := DoSentinel(s, i);
    assert t.enqueued[..s.popped] == s.enqueued[..s.popped];
    forall j | 0 <= j < |t.threads|
      ensures OwnLine(t, j)
    {
      assert OwnLine(s, j);
    }
  }

  lemma PopInv(s: State)
    requires Inv(s) && s.worker.Popping? && s.popped < |s.enqueued|
    ensures Inv(DoPop(s))
  {
    var t := DoPop(s);
    assert s.enqueued[..s.popped + 1][..s.popped] == s.enqueued[..s.popped];
    forall j | 0 <= j < |t.threads|
      ensures OwnLine(t, j)
    {
      assert OwnLine(s, j);
    }
  }

  /** Replacing one thread's state, nothing else. */
  lemma ThreadOnlyInv(s: State, i: nat, th: Thread)
    requires Inv(s) && i < |s.threads| && !th.Winner? && !th.Joining?
    requires th.Stopped? && th.result ==> s.threads[i].Joining? && s.worker.Returned?
    requires th.Stopping? || th.Stopped? ==>
      th.own.None? || ((s.threads[i].Stopping? || s.threads[i].Joining?) && th.own == s.threads[i].own)
    ensures Inv(s.(threads := s.threads[i := th]))
  {
    var t := s.(threads := s.threads[i := th]);
    forall j | 0 <= j < |t.threads|
      ensures OwnLine(t, j)
    {
      assert OwnLine(s, j);
    }
  }

  lemma WinInv(s: State, i: nat)
    requires Inv(s) && s.running && i < |s.threads| && s.threads[i].Stopping?
    ensures Inv(DoExchange(s, i))
  {
    var t := DoExchange(s, i);
    forall j | 0 <= j < |t.threads|
      ensures OwnLine(t, j)
    {
      assert OwnLine(s, j);
    }
  }

  lemma WorkerInv(s: State, t: State)
    requires Inv(s) && WorkerNext(s, t)
    ensures Inv(t)
  {
    if s.worker.Popping? {
      PopInv(s);
    } else {
      forall j | 0 <= j < |t.threads|
        ensures OwnLine(t, j)
      {
        assert OwnLine(s, j);
      }
    }
  }

  lemma ThreadInv(s: State, t: State, i: nat)
    requires Inv(s) && i < |s.threads| && ThreadNext(s, t, i)
    ensures Inv(t)
  {
    match s.threads[i]
    case Free =>
      if t == DoCallStop(s, i) {
        ThreadOnlyInv(s, i, Stopping(None));
      } else {
        var line, terminate :| t == DoCheck(s, i, line, terminate);
        ThreadOnlyInv(s, i, Passed(line, terminate));
      }
    case Passed(_, _) => EnqueueInv(s, i);
    case Stopping(own) =>
      if s.running { WinInv(s, i); } else { ThreadOnlyInv(s, i, Stopped(false, own)); }
    case Winner(_) => SentinelInv(s, i);
    case Joining(own) => ThreadOnlyInv(s, i, Stopped(true, own));
    case Stopped(_, _) => ThreadOnlyInv(s, i, Free);
  }

  lemma SpawnInv(s: State, throttle: int)
    requires Inv(s)
    ensures Inv(s.(threads := s.threads + [Free])) && Inv(s.(throttle := throttle))
  {
    var t, u := s.(threads := s.threads + [Free]), s.(throttle := throttle);
    forall j | 0 <= j < |t.threads|
      ensures OwnLine(t, j)
    {
      if j < |s.threads| {
        assert OwnLine(s, j);
      }
    }
    forall j | 0 <= j < |u.threads|
      ensures OwnLine(u, j)
    {
      assert OwnLine(s, j);
    }
  }

  lemma NextInv(s: State, t: State)
    requires Inv(s) && Next(s, t)
    ensures Inv(t)
  {
    if WorkerNext(s, t) {
      WorkerInv(s, t);
    } else if i: nat :| i < |s.threads| && ThreadNext(s, t, i) {
      ThreadInv(s, t, i);
    } else {
      SpawnInv(s, t.throttle);
    }
  }

  lemma {:induction false} RunInv(run: seq<State>, k: nat)
    requires IsRun(run) && k < |run|
    ensures Inv(run[k])
  {
    if 0 < k {
      RunInv(run, k - 1);
      assert StepAt(run, k - 1);
      NextInv(run[k - 1], run[k]);
    }
  }

  /** What has been enqueued stays where it is. */
  lemma {:induction false} KeepsItems(run: seq<State>, i: nat, j: nat)
    requires IsRun(run) && i <= j < |run|
    ensures run[i].enqueued <= run[j].enqueued
  {
    if i < j {
      KeepsItems(run, i, j - 1);
      assert StepAt(run, j - 1);
      StepKeepsItems(run[j - 1], run[j]);
    }
  }

  lemma StepKeepsItems(s: State, t: State)
    requires Next(s, t)
    ensures s.enqueued <= t.enqueued
  {
    if !WorkerNext(s, t) {
      if i: nat :| i < |s.threads| && ThreadNext(s, t, i) {
      }
    }
  }

  // ----- what holds over every run

  /** How many items have been written. */
  function Written(s: State): nat {
    if s.worker.Popping? || s.popped == 0 then s.popped else s.popped - 1
  }

  lemma OutputIs(s: State)
    requires Inv(s)
    ensures Written(s) <= |s.enqueued|
    ensures forall k :: 0 <= k < Written(s) ==> s.enqueued[k].Some?
    ensures s.output == Lines(s.enqueued[..Written(s)]) && |s.output| == Written(s)
    ensures s.sentinelAt.Some? ==> Written(s) <= s.sentinelAt.value
  {
    var n := Written(s);
    if n < s.popped {
      assert s.enqueued[..s.popped][..n] == s.enqueued[..n];
      if s.worker.Writing? {
        assert (s.output + [s.worker.line])[..|s.output|] == s.output;
        assert (Lines(s.enqueued[..n]) + [s.worker.line])[..|Lines(s.enqueued[..n])|] == Lines(s.enqueued[..n]);
      }
    }
    LinesOfLines(s.enqueued[..n]);
  }

  lemma LinesPrefix(items: seq<Option<string>>, n: nat)
    requires n <= |items|
    ensures Lines(items[..n]) <= Lines(items)
  {
    assert items == items[..n] + items[n..];
    LinesAppend(items[..n], items[n..]);
  }

  lemma OutputAt(s: State)
    requires Inv(s)
    ensures |s.output| <= |s.enqueued| && s.output <= Lines(s.enqueued)
    ensures forall j :: 0 <= j < |s.output| ==> s.enqueued[j] == Some(s.output[j])
    ensures forall i, j :: 0 <= i < j < |s.enqueued| && s.enqueued[i].None? ==> s.enqueued[j].Some? && |s.output| <= i
  {
    OutputIs(s);
    LinesOfLines(s.enqueued[..Written(s)]);
    LinesPrefix(s.enqueued, Written(s));
  }

  /** Written lines are always the first so many enqueued items, in queue order; there is at most one
      sentinel, and nothing enqueued behind it is ever written. */
  lemma WrittenInOrder(run: seq<State>, k: nat)
    requires IsRun(run) && k < |run|
    ensures var s := run[k];
      && |s.output| <= |s.enqueued|
      && (forall j :: 0 <= j < |s.output| ==> s.enqueued[j] == Some(s.output[j]))
      && s.output <= Lines(s.enqueued)
      && (forall i, j :: 0 <= i < j < |s.enqueued| && s.enqueued[i].None? ==> s.enqueued[j].Some? && |s.output| <= i)
  {
    RunInv(run, k);
    OutputAt(run[k]);
  }

  /** When a stop() returns true, the output is exactly the lines enqueued ahead of the sentinel; and a
      Terminate-level push whose own stop() did that finds its line among them. */
  lemma StopFlushes(run: seq<State>, k: nat, i: nat)
    requires IsRun(run) && k < |run| && i < |run[k].threads|
    requires run[k].threads[i].Stopped? && run[k].threads[i].result
    ensures var s := run[k];
      && s.sentinelAt.Some? && s.sentinelAt.value < |s.enqueued|
      && s.enqueued[s.sentinelAt.value].None?
      && s.output == Lines(s.enqueued[..s.sentinelAt.value])
      && |s.output| == s.sentinelAt.value
    ensures var s := run[k];
      s.threads[i].own.Some? ==>
        s.threads[i].own.value < |s.output| && s.enqueued[s.threads[i].own.value] == Some(s.output[s.threads[i].own.value])
  {
    RunInv(run, k);
    OutputIs(run[k]);
    LinesOfLines(run[k].enqueued[..Written(run[k])]);
    assert OwnLine(run[k], i);
  }

  // ----- the throttle

  function Passing(threads: seq<Thread>): nat {
    if threads == [] then 0 else Passing(threads[1..]) + if threads[0].Passed? then 1 else 0
  }

  lemma {:induction false} PassingUpdate(threads: seq<Thread>, i: nat, th: Thread)
    requires i < |threads|
    ensures Passing(threads[i := th]) ==
      Passing(threads) + (if th.Passed? then 1 else 0) - if threads[i].Passed? then 1 else 0
  {
    if i == 0 {
      assert threads[0 := th][1..] == threads[1..];
    } else {
      PassingUpdate(threads[1..], i - 1, th);
      assert threads[i := th][1..] == threads[1..][i - 1 := th];
    }
  }

  lemma {:induction false} PassingAppend(threads: seq<Thread>)
    ensures Passing(threads + [Free]) == Passing(threads)
  {
    if threads != [] {
      PassingAppend(threads[1..]);
      assert (threads + [Free])[1..] == threads[1..] + [Free];
    }
  }

  lemma {:induction false} LinesLength(items: seq<Option<string>>)
    ensures |Lines(items)| <= |items|
  {
    if items != [] {
      LinesLength(items[..|items| - 1]);
    }
  }

  function Load(s: State): nat {
    |Lines(Queue(s))| + Passing(s.threads)
  }

  lemma PopLoad(s: State)
    requires s.popped < |s.enqueued|
    ensures Load(DoPop(s)) <= Load(s)
  {
    var t := DoPop(s);
    assert Queue(s) == [s.enqueued[s.popped]] + Queue(t);
    LinesAppend([s.enqueued[s.popped]], Queue(t));
  }

  lemma EnqueueLoad(s: State, i: nat)
    requires s.popped <= |s.enqueued| && i < |s.threads|
    ensures s.threads[i].Passed? ==> Load(DoEnqueue(s, i)) == Load(s)
    ensures s.threads[i].Winner? ==> Load(DoSentinel(s, i)) == Load(s)
  {
    if s.threads[i].Passed? {
      var t := DoEnqueue(s, i);
      PassingUpdate(s.threads, i, t.threads[i]);
      var item := Some(s.threads[i].line);
      assert Queue(t) == Queue(s) + [item];
      LinesAppend(Queue(s), [item]);
      assert Lines([item]) == [s.threads[i].line];
    } else if s.threads[i].Winner? {
      var t := DoSentinel(s, i);
      PassingUpdate(s.threads, i, t.threads[i]);
      assert Queue(t) == Queue(s) + [None];
      LinesAppend(Queue(s), [None]);
      assert Lines([None]) == [];
    }
  }

  lemma ThreadLoad(s: State, t: State, i: nat)
    requires s.popped <= |s.enqueued| && i < |s.threads| && ThreadNext(s, t, i)
    ensures Load(t) <= Load(s) || (|Queue(s)| <= s.throttle && Load(t) <= |Queue(s)| + Passing(t.threads))
  {
    if s.threads[i].Passed? || s.threads[i].Winner? {
      EnqueueLoad(s, i);
    } else {
      PassingUpdate(s.threads, i, t.threads[i]);
      LinesLength(Queue(s));
    }
  }

  /** Queued lines plus producers past the check never exceed the throttle plus the producers. */
  lemma LoadStep(s: State, t: State, limit: nat, producers: nat)
    requires s.popped <= |s.enqueued| && Next(s, t) && s.throttle == limit
    requires Load(s) <= limit + producers && Passing(t.threads) <= producers
    ensures Load(t) <= limit + producers
  {
    if WorkerNext(s, t) {
      if s.worker.Popping? {
        PopLoad(s);
      }
    } else if i: nat :| i < |s.threads| && ThreadNext(s, t, i) {
      ThreadLoad(s, t, i);
    } else {
      PassingAppend(s.threads);
    }
  }

  /** From state `from` on the throttle is T and at most P producers are past the check at once. */
  ghost predicate Throttled(run: seq<State>, from: nat, limit: nat, producers: nat) {
    && IsRun(run) && from < |run|
    && forall j :: from <= j < |run| ==> run[j].throttle == limit && Passing(run[j].threads) <= producers
  }

  /** Once the throttle is T, with at most T lines queued by then, and as long as it stays T and never more
      than P producers are past the check at once, the queue never holds more than T + P lines. */
  lemma {:induction false} ThrottleBound(run: seq<State>, from: nat, limit: nat, producers: nat, k: nat)
    requires Throttled(run, from, limit, producers) && from <= k < |run|
    requires |Lines(Queue(run[from]))| <= limit
    ensures Load(run[k]) <= limit + producers
    ensures |Lines(Queue(run[k]))| <= limit + producers
    decreases k
  {
    if from < k {
      ThrottleBound(run, from, limit, producers, k - 1);
      RunInv(run, k - 1);
      assert StepAt(run, k - 1);
      LoadStep(run[k - 1], run[k], limit, producers);
    }
  }

  // ----- the bound is reached

  /** `P` producers, those in [lo, hi) past the check, and n lines queued. */
  function Filled(limit: nat, producers: nat, n: nat, lo: nat, hi: nat): State {
    State(seq(producers, i => if lo <= i < hi then Passed("", false) else Free), Popping,
          seq(n, _ => Some("")), 0, [], true, limit, None, None)
  }

  lemma {:induction false} PassingAtMost(threads: seq<Thread>)
    ensures Passing(threads) <= |threads|
  {
    if threads != [] {
      PassingAtMost(threads[1..]);
    }
  }

  lemma Extend(run: seq<State>, t: State, from: nat, limit: nat, producers: nat)
    requires Throttled(run, from, limit, producers) && Next(run[|run| - 1], t)
    requires t.throttle == limit && |t.threads| == producers
    ensures Throttled(run + [t], from, limit, producers)
  {
    ExtendRun(run, t);
    PassingAtMost(t.threads);
  }

  lemma CheckStep(limit: nat, producers: nat, n: nat, hi: nat)
    requires hi < producers && n <= limit
    ensures Next(Filled(limit, producers, n, 0, hi), Filled(limit, producers, n, 0, hi + 1))
  {
    var s, t := Filled(limit, producers, n, 0, hi), Filled(limit, producers, n, 0, hi + 1);
    assert Queue(s) == s.enqueued;
    assert t.threads == s.threads[hi := Passed("", false)];
    assert t == DoCheck(s, hi, "", false);
    assert ThreadNext(s, t, hi);
  }

  lemma EnqueueStep(limit: nat, producers: nat, n: nat, lo: nat, hi: nat)
    requires lo < hi <= producers
    ensures Next(Filled(limit, producers, n, lo, hi), Filled(limit, producers, n + 1, lo + 1, hi))
  {
    var s, t := Filled(limit, producers, n, lo, hi), Filled(limit, producers, n + 1, lo + 1, hi);
    assert t.threads == s.threads[lo := Free];
    assert t.enqueued == s.enqueued + [Some("")];
    assert t == DoEnqueue(s, lo);
    assert ThreadNext(s, t, lo);
  }

  lemma {:induction false} FillQueue(limit: nat, producers: nat, n: nat) returns (run: seq<State>)
    requires 0 < producers && n <= limit
    ensures Throttled(run, 1, limit, producers) && run[|run| - 1] == Filled(limit, producers, n, 0, 0)
    ensures Queue(run[1]) == []
    decreases n
  {
    if n == 0 {
      var s := Filled(limit, producers, 0, 0, 0);
      var unlimited := s.(throttle := PTRDIFF_MAX);
      assert Next(unlimited, s);
      ExtendRun([unlimited], s);
      run := [unlimited] + [s];
      PassingAtMost(s.threads);
    } else {
      run := FillQueue(limit, producers, n - 1);
      CheckStep(limit, producers, n - 1, 0);
      Extend(run, Filled(limit, producers, n - 1, 0, 1), 1, limit, producers);
      run := run + [Filled(limit, producers, n - 1, 0, 1)];
      EnqueueStep(limit, producers, n - 1, 0, 1);
      var t := Filled(limit, producers, n, 0, 0);
      assert t.threads == Filled(limit, producers, n, 1, 1).threads;
      Extend(run, t, 1, limit, producers);
      run := run + [t];
    }
  }

  lemma {:induction false} PassAll(limit: nat, producers: nat, hi: nat) returns (run: seq<State>)
    requires 0 < producers && hi <= producers
    ensures Throttled(run, 1, limit, producers) && run[|run| - 1] == Filled(limit, producers, limit, 0, hi)
    ensures Queue(run[1]) == []
    decreases hi
  {
    if hi == 0 {
      run := FillQueue(limit, producers, limit);
    } else {
      run := PassAll(limit, producers, hi - 1);
      CheckStep(limit, producers, limit, hi - 1);
      Extend(run, Filled(limit, producers, limit, 0, hi), 1, limit, producers);
      run := run + [Filled(limit, producers, limit, 0, hi)];
    }
  }

  lemma {:induction false} EnqueueAll(limit: nat, producers: nat, lo: nat) returns (run: seq<State>)
    requires 0 < producers && lo <= producers
    ensures Throttled(run, 1, limit, producers) && run[|run| - 1] == Filled(limit, producers, limit + lo, lo, producers)
    ensures Queue(run[1]) == []
    decreases lo
  {
    if lo == 0 {
      run := PassAll(limit, producers, producers);
    } else {
      run := EnqueueAll(limit, producers, lo - 1);
      EnqueueStep(limit, producers, limit + lo - 1, lo - 1, producers);
      Extend(run, Filled(limit, producers, limit + lo, lo, producers), 1, limit, producers);
      run := run + [Filled(limit, producers, limit + lo, lo, producers)];
    }
  }

  /** T + P is the least such bound: for every T and P some run sets the throttle to T in its first step and
      fills the queue to exactly that. */
  lemma ThrottleTight(limit: nat, producers: nat) returns (run: seq<State>)
    requires 0 < producers
    ensures Throttled(run, 1, limit, producers) && Queue(run[1]) == []
    ensures |Lines(Queue(run[|run| - 1]))| == limit + producers
  {
    run := EnqueueAll(limit, producers, producers);
    var s := run[|run| - 1];
    assert Queue(s) == s.enqueued;
    LinesOfLines(s.enqueued);
  }

  // ----- stop() does not hang

  /** How many worker steps the sentinel is away, at most. */
  function Distance(s: State): int {
    if s.sentinelAt.None? then 0 else 2 * (s.sentinelAt.value + 1 - s.popped) + if s.worker.Writing? then 1 else 0
  }

  /** Once the sentinel is in the queue the worker can always move, until it returns, and each of its
      steps brings it closer; so the winner's join() returns. */
  lemma WorkerReturns(s: State)
    requires Inv(s) && s.sentinelAt.Some?
    ensures 0 <= Distance(s)
    ensures (exists t :: WorkerNext(s, t)) <==> !s.worker.Returned?
    ensures forall t :: WorkerNext(s, t) ==> Distance(t) < Distance(s)
  {
    if s.worker.Writing? {
      assert WorkerNext(s, DoWrite(s));
    } else if s.worker.Popping? {
      assert WorkerNext(s, DoPop(s));
    }
  }
}
