/** The Linux file tail trigger: inotify watch, initial read, then drain-and-read on every wake-up.

    An append first makes its bytes visible and only later queues its inotify event; the worker's
    system calls interleave with that in any order. */
module TailLinux {

  type Bytes = seq<bv8>

  datatype Source = InotifyFd | ExitPipe

  /** Where the constructor, and then the worker thread, is. */
  datatype Pc =
    | AddWatch
    | InitialRead
    | Wait
    | Batch(events: seq<Source>, exiting: bool)
    | DrainInotify(events: seq<Source>, exiting: bool)
    | ReadData(events: seq<Source>, exiting: bool)
    | Exited

  /** `appending` counts appends whose bytes are visible and whose event is not queued yet; `queued`
      is the length of the inotify queue; `delivered` concatenates what the callback received. */
  datatype State = State(
    file: Bytes,
    appending: nat,
    queued: nat,
    exitWritten: bool,
    running: bool,
    sow: bool,
    start: nat,
    offset: nat,
    delivered: Bytes,
    pc: Pc)

  const EVENT_SIZE := 16

  predicate Ready(s: State, source: Source) {
    match source
    case InotifyFd => 0 < s.queued
    case ExitPipe => s.exitWritten
  }

  predicate Distinct(events: seq<Source>) {
    forall i, j :: 0 <= i < j < |events| ==> events[i] != events[j]
  }

  predicate Watching(s: State) {
    !s.pc.AddWatch?
  }

  /** The handle may come with any offset, even one past the end of the file. */
  ghost predicate Init(s: State) {
    && s.pc.AddWatch? && s.queued == 0 && s.delivered == [] && s.start == s.offset
    && s.running && !s.exitWritten
  }

  // ----- environment steps

  function DoAppend(s: State, data: Bytes): State {
    s.(file := s.file + data, appending := s.appending + 1)
  }

  /** The event of a finished append: dropped without a watch, merged or queued with one. */
  function DoNotify(s: State, merged: bool): State
    requires 0 < s.appending
  {
    s.(appending := s.appending - 1,
       queued := if !Watching(s) || (merged && 0 < s.queued) then s.queued else s.queued + 1)
  }

  /** stop(): the first call writes the exit byte; later calls do nothing. The worker thread has to be
      there, so no call comes before the constructor is through. */
  function DoStop(s: State): State {
    if s.running then s.(running := false, exitWritten := true) else s
  }

  ghost predicate EnvNext(s: State, t: State) {
    || (exists data :: t == DoAppend(s, data))
    || (0 < s.appending && exists merged :: t == DoNotify(s, merged))
    || (!s.pc.AddWatch? && !s.pc.InitialRead? && t == DoStop(s))
  }

  // ----- constructor and worker steps

  /** One read of `k` bytes; `exec` says whether the callback gets them. */
  function DoRead(s: State, k: nat, exec: bool): State
    requires s.offset + k <= |s.file|
  {
    s.(offset := s.offset + k,
       delivered := if exec then s.delivered + s.file[s.offset..s.offset + k] else s.delivered)
  }

  predicate CanRead(s: State, k: nat, bufferSize: nat) {
    0 < k <= bufferSize && s.offset + k <= |s.file|
  }

  /** read() returns 0 (or would block): nothing beyond the offset. */
  predicate AtEnd(s: State) {
    |s.file| <= s.offset
  }

  /** One read of the inotify descriptor takes at least one event. */
  function DoTake(s: State, k: nat): State
    requires k <= s.queued
  {
    s.(queued := s.queued - k)
  }

  predicate CanWait(s: State, events: seq<Source>) {
    && 0 < |events| <= EVENT_SIZE
    && Distinct(events)
    && forall e :: e in events ==> Ready(s, e)
  }

  ghost predicate WorkerNext(s: State, t: State, bufferSize: nat) {
    match s.pc
    case AddWatch => t == s.(pc := InitialRead)
    case InitialRead =>
      if AtEnd(s) then t == s.(start := if s.sow then s.start else s.offset, pc := Wait)
      else exists k: nat :: CanRead(s, k, bufferSize) && t == DoRead(s, k, s.sow)
    case Wait =>
      exists events :: CanWait(s, events) && t == s.(pc := Batch(events, false))
    case Batch(events, exiting) =>
      t == s.(pc := NextEvent(events, exiting))
    case DrainInotify(events, exiting) =>
      || (exists k: nat :: 0 < k <= s.queued && t == DoTake(s, k))
      || (s.queued == 0 && t == s.(pc := ReadData(events, exiting)))
    case ReadData(events, exiting) =>
      if AtEnd(s) then t == s.(pc := Batch(events, exiting))
      else exists k: nat :: CanRead(s, k, bufferSize) && t == DoRead(s, k, true)
    case Exited => false
  }

  function NextEvent(events: seq<Source>, exiting: bool): Pc {
    if events == [] then (if exiting then Exited else Wait)
    else if events[0].InotifyFd? then DrainInotify(events[1..], exiting)
    else Batch(events[1..], true)
  }

  /** EINTR: reads and waits are repeated, but it ends a drain with events left in the queue. */
  ghost predicate InterruptNext(s: State, t: State) {
    t == if s.pc.DrainInotify? then s.(pc := ReadData(s.pc.events, s.pc.exiting)) else s
  }

  ghost predicate Next(s: State, t: State, bufferSize: nat) {
    WorkerNext(s, t, bufferSize) || InterruptNext(s, t) || EnvNext(s, t)
  }

  ghost predicate StepAt(run: seq<State>, i: nat, bufferSize: nat)
    requires i < |run| - 1
  {
    Next(run[i], run[i + 1], bufferSize)
  }

  ghost predicate IsRun(run: seq<State>, bufferSize: nat) {
    && run != []
    && Init(run[0])
    && forall i :: 0 <= i < |run| - 1 ==> StepAt(run, i, bufferSize)
  }

  // ----- the invariant

  function Slice(file: Bytes, from: nat, to: nat): Bytes {
    if from <= to <= |file| then file[from..to] else []
  }

  function Remaining(pc: Pc): seq<Source> {
    if pc.Batch? || pc.DrainInotify? || pc.ReadData? then pc.events else []
  }

  predicate Starting(s: State) {
    s.pc.AddWatch? || s.pc.InitialRead?
  }

  /** Delivered bytes are exactly the file from the start point to the read offset. */
  predicate Exact(s: State) {
    && s.start <= s.offset
    && (|s.file| < s.offset ==> s.start == s.offset)
    && s.delivered == if Starting(s) && !s.sow then [] else Slice(s.file, s.start, s.offset)
  }

  /** Bytes not read yet are announced by a queued event or an unfinished append, or will be seen
      before the worker waits again. An inotify event in hand is still in the queue. */
  predicate Announced(s: State) {
    && (AtEnd(s) || Starting(s) || 0 < s.queued || 0 < s.appending ||
        s.pc.DrainInotify? || s.pc.ReadData? || s.pc.Exited?)
    && (InotifyFd in Remaining(s.pc) ==> 0 < s.queued)
    && (s.pc.DrainInotify? || s.pc.ReadData? ==> InotifyFd !in s.pc.events)
    && Distinct(Remaining(s.pc)) && |Remaining(s.pc)| <= EVENT_SIZE
  }

  /** The worker leaves only after stop(), and stop() is what makes the exit pipe readable. */
  predicate Stopping(s: State) {
    && s.exitWritten == !s.running
    && (ExitPipe in Remaining(s.pc) || s.pc.Exited? ==> s.exitWritten)
    && ((s.pc.Batch? || s.pc.DrainInotify? || s.pc.ReadData?) && s.pc.exiting ==> s.exitWritten)
    && (Starting(s) ==> s.running)
  }

  predicate Inv(s: State) {
    Exact(s) && Announced(s) && Stopping(s)
  }

  lemma ReadInv(s: State, k: nat, bufferSize: nat)
    requires Inv(s) && CanRead(s, k, bufferSize) && (s.pc.InitialRead? || s.pc.ReadData?)
    ensures Inv(DoRead(s, k, s.pc.ReadData? || s.sow))
  {
    assert s.file[s.start..s.offset + k] == s.file[s.start..s.offset] + s.file[s.offset..s.offset + k];
  }

  lemma BatchInv(s: State)
    requires Inv(s) && s.pc.Batch?
    ensures Inv(s.(pc := NextEvent(s.pc.events, s.pc.exiting)))
  {
    var events := s.pc.events;
    if events != [] {
      assert events == [events[0]] + events[1..];
      assert forall e :: e in events <==> e == events[0] || e in events[1..];
    }
  }

  lemma EnvInv(s: State, t: State)
    requires Inv(s) && EnvNext(s, t)
    ensures Inv(t)
  {
    if data :| t == DoAppend(s, data) {
      assert Slice(t.file, s.start, s.offset) == Slice(s.file, s.start, s.offset);
    }
  }

  lemma WaitInv(s: State, events: seq<Source>)
    requires Inv(s) && s.pc.Wait? && CanWait(s, events)
    ensures Inv(s.(pc := Batch(events, false)))
  {
    assert InotifyFd in events ==> Ready(s, InotifyFd);
    assert ExitPipe in events ==> Ready(s, ExitPipe);
  }

  lemma WorkerInv(s: State, t: State, bufferSize: nat)
    requires Inv(s) && WorkerNext(s, t, bufferSize)
    ensures Inv(t)
  {
    match s.pc
    case AddWatch =>
    case InitialRead =>
      if !AtEnd(s) {
        var k: nat :| CanRead(s, k, bufferSize) && t == DoRead(s, k, s.sow);
        ReadInv(s, k, bufferSize);
      }
    case Wait =>
      var events :| CanWait(s, events) && t == s.(pc := Batch(events, false));
      WaitInv(s, events);
    case Batch(_, _) => BatchInv(s);
    case DrainInotify(_, _) => DrainInv(s, t);
    case ReadData(_, _) =>
      if !AtEnd(s) {
        var k: nat :| CanRead(s, k, bufferSize) && t == DoRead(s, k, true);
        ReadInv(s, k, bufferSize);
      }
  }

  lemma DrainInv(s: State, t: State)
    requires Inv(s) && s.pc.DrainInotify? && WorkerNext(s, t, 0)
    ensures Inv(t)
  {
  }

  lemma NextInv(s: State, t: State, bufferSize: nat)
    requires Inv(s) && Next(s, t, bufferSize)
    ensures Inv(t)
  {
    if WorkerNext(s, t, bufferSize) {
      WorkerInv(s, t, bufferSize);
    } else if EnvNext(s, t) {
      EnvInv(s, t);
    }
  }

  lemma {:induction false} RunInv(run: seq<State>, bufferSize: nat, k: nat)
    requires IsRun(run, bufferSize) && k < |run|
    ensures Inv(run[k])
  {
    if 0 < k {
      RunInv(run, bufferSize, k - 1);
      assert StepAt(run, k - 1, bufferSize);
      NextInv(run[k - 1], run[k], bufferSize);
    }
  }

  // ----- what holds over every run

  /** epoll_wait has nothing to report and no append is half done. */
  predicate Idle(s: State) {
    s.pc.Wait? && s.queued == 0 && !s.exitWritten && s.appending == 0
  }

  /** Everything from the start point on has been delivered. */
  predicate Complete(s: State) {
    s.delivered == if s.start <= |s.file| then s.file[s.start..] else []
  }

  /** Every byte exactly once and in order, and none missed: what has been delivered is the file from
      the start point to the read offset, and when the worker is idle that is all of it. */
  lemma DeliversExactly(run: seq<State>, bufferSize: nat, k: nat)
    requires IsRun(run, bufferSize) && k < |run|
    ensures !Starting(run[k]) || run[k].sow ==> run[k].delivered == Slice(run[k].file, run[k].start, run[k].offset)
    ensures Starting(run[k]) && !run[k].sow ==> run[k].delivered == []
    ensures Idle(run[k]) ==> Complete(run[k])
  {
    RunInv(run, bufferSize, k);
  }

  /** What no step takes back. */
  predicate Keeps(s: State, t: State) {
    && t.sow == s.sow && s.delivered <= t.delivered && s.file <= t.file
    && t.start == (if Starting(s) && !Starting(t) && !s.sow then s.offset else s.start)
    && (Starting(s) && !Starting(t) ==> AtEnd(s))
    && (!Starting(s) ==> !Starting(t))
  }

  lemma ReadKeeps(s: State, k: nat, exec: bool)
    requires s.offset + k <= |s.file|
    ensures Keeps(s, DoRead(s, k, exec))
  {
  }

  lemma WorkerKeeps(s: State, t: State, bufferSize: nat)
    requires WorkerNext(s, t, bufferSize)
    ensures Keeps(s, t)
  {
    if (s.pc.InitialRead? || s.pc.ReadData?) && !AtEnd(s) {
      var exec := s.pc.ReadData? || s.sow;
      var k: nat :| CanRead(s, k, bufferSize) && t == DoRead(s, k, exec);
      ReadKeeps(s, k, exec);
    }
  }

  lemma StepKeeps(s: State, t: State, bufferSize: nat)
    requires Next(s, t, bufferSize)
    ensures Keeps(s, t)
  {
    if WorkerNext(s, t, bufferSize) {
      WorkerKeeps(s, t, bufferSize);
    } else if EnvNext(s, t) {
      EnvKeeps(s, t);
    }
  }

  lemma EnvKeeps(s: State, t: State)
    requires EnvNext(s, t)
    ensures Keeps(s, t)
  {
  }

  /** The start point: the handle's own offset with `sow`, otherwise the end of the initial read, and
      fixed from then on. Delivered data is never taken back. */
  lemma {:induction false} StartPoint(run: seq<State>, bufferSize: nat, j: nat, k: nat)
    requires IsRun(run, bufferSize) && j <= k < |run|
    ensures run[k].sow == run[0].sow
    ensures run[k].sow ==> run[k].start == run[0].offset
    ensures !Starting(run[j]) ==> !Starting(run[k]) && run[k].start == run[j].start
    ensures 0 < j && Starting(run[j - 1]) && !Starting(run[j]) && !run[k].sow ==>
      run[k].start == run[j - 1].offset && AtEnd(run[j - 1])
    ensures run[j].delivered <= run[k].delivered
    ensures run[j].file <= run[k].file
    decreases k
  {
    if 0 < k {
      assert StepAt(run, k - 1, bufferSize);
      StepKeeps(run[k - 1], run[k], bufferSize);
      StartPoint(run, bufferSize, if j < k then j else k - 1, k - 1);
    }
  }

  // ----- what a wake-up owes

  /** The first n bytes of the file have been read, or will be before the batch in hand is done. */
  predicate Owed(s: State, n: nat) {
    n <= |s.file| && (n <= s.offset || InotifyFd in Remaining(s.pc) || s.pc.DrainInotify? || s.pc.ReadData?)
  }

  lemma BatchOwes(s: State, n: nat)
    requires Owed(s, n) && s.pc.Batch?
    ensures Owed(s.(pc := NextEvent(s.pc.events, s.pc.exiting)), n)
  {
    var events := s.pc.events;
    if events != [] {
      assert events == [events[0]] + events[1..];
    }
  }

  lemma StepOwes(s: State, t: State, bufferSize: nat, n: nat)
    requires Owed(s, n) && Next(s, t, bufferSize)
    ensures Owed(t, n)
  {
    if WorkerNext(s, t, bufferSize) {
      WorkerOwes(s, t, bufferSize, n);
    }
  }

  lemma WorkerOwes(s: State, t: State, bufferSize: nat, n: nat)
    requires Owed(s, n) && WorkerNext(s, t, bufferSize)
    ensures Owed(t, n)
  {
    if s.pc.Batch? {
      BatchOwes(s, n);
    }
  }

  lemma {:induction false} RunOwes(run: seq<State>, bufferSize: nat, j: nat, k: nat, n: nat)
    requires IsRun(run, bufferSize) && j <= k < |run| && Owed(run[j], n)
    ensures Owed(run[k], n)
    decreases k
  {
    if j < k {
      RunOwes(run, bufferSize, j, k - 1, n);
      assert StepAt(run, k - 1, bufferSize);
      StepOwes(run[k - 1], run[k], bufferSize, n);
    }
  }

  /** At step j epoll_wait returns these events. */
  predicate WakesWith(run: seq<State>, j: nat, events: seq<Source>) {
    j + 1 < |run| && run[j].pc.Wait? && run[j + 1].pc == Batch(events, false)
  }

  /** The first n bytes have been delivered, as far as they are behind the start point. */
  predicate DeliveredTo(s: State, n: nat) {
    n <= |s.file| && n <= s.offset && (s.start <= n ==> s.file[s.start..n] <= s.delivered)
  }

  lemma SlicePrefix(file: Bytes, from: nat, mid: nat, to: nat)
    requires from <= mid <= to
    ensures mid <= to <= |file| ==> file[from..mid] <= file[from..to]
  {
  }

  lemma DeliveredFar(s: State, n: nat)
    requires Exact(s) && !Starting(s) && n <= |s.file| && n <= s.offset
    ensures DeliveredTo(s, n)
  {
    if s.start <= n {
      SlicePrefix(s.file, s.start, n, s.offset);
    }
  }

  lemma WakeKeepsFile(run: seq<State>, bufferSize: nat, j: nat)
    requires IsRun(run, bufferSize) && j + 1 < |run| && run[j].pc.Wait? && run[j + 1].pc.Batch?
    ensures run[j + 1].file == run[j].file && !Starting(run[j])
  {
    assert StepAt(run, j, bufferSize);
  }

  /** Once epoll_wait has reported an inotify event, whatever was in the file at that moment is delivered before
      the worker waits again or its thread ends, also if the exit event came in the same batch and ahead of it. */
  lemma WakeupDelivers(run: seq<State>, bufferSize: nat, j: nat, k: nat, events: seq<Source>)
    requires IsRun(run, bufferSize) && j + 1 < k < |run|
    requires WakesWith(run, j, events) && InotifyFd in events && (run[k].pc.Wait? || run[k].pc.Exited?)
    ensures |run[j].file| <= run[k].offset && run[j].file <= run[k].file && DeliveredTo(run[k], |run[j].file|)
  {
    var n := |run[j].file|;
    WakeKeepsFile(run, bufferSize, j);
    RunOwes(run, bufferSize, j + 1, k, n);
    StartPoint(run, bufferSize, j, k);
    RunInv(run, bufferSize, k);
    DeliveredFar(run[k], n);
  }

  /** So if epoll_wait reports everything that is ready, every append that was through by then is delivered by the
      end of the batch. Nothing announced before the last wait is lost to stop(). */
  lemma StopLosesNothing(run: seq<State>, bufferSize: nat, j: nat, k: nat, events: seq<Source>)
    requires IsRun(run, bufferSize) && j + 1 < k < |run|
    requires WakesWith(run, j, events) && (run[k].pc.Wait? || run[k].pc.Exited?)
    requires run[j].appending == 0 && (Ready(run[j], InotifyFd) ==> InotifyFd in events)
    ensures DeliveredTo(run[k], |run[j].file|)
  {
    if InotifyFd in events {
      WakeupDelivers(run, bufferSize, j, k, events);
    } else {
      WakeKeepsFile(run, bufferSize, j);
      RunInv(run, bufferSize, j);
      RunOwes(run, bufferSize, j, k, |run[j].file|);
      StartPoint(run, bufferSize, j, k);
      RunInv(run, bufferSize, k);
      DeliveredFar(run[k], |run[j].file|);
    }
  }

  // ----- the worker does not spin, and stop() gets its thread back

  function Unread(s: State): nat {
    if AtEnd(s) then 0 else |s.file| - s.offset
  }

  function Major(s: State): nat {
    s.queued + Unread(s)
  }

  function Minor(s: State): nat {
    match s.pc
    case Exited => 0
    case Batch(events, exiting) =>
      1 + 2 * |events| + if InotifyFd in events || ExitPipe in events || exiting then 0 else 60
    case DrainInotify(events, _) => if 0 < s.queued then 0 else 102 + 2 * |events|
    case ReadData(events, _) => 101 + 2 * |events|
    case Wait => 50
    case InitialRead => 150
    case AddWatch => 151
  }

  predicate Lower(t: State, s: State) {
    Major(t) < Major(s) || (Major(t) == Major(s) && Minor(t) < Minor(s))
  }

  function Rank(s: State): nat {
    200 * Major(s) + Minor(s)
  }

  lemma BatchLowers(s: State)
    requires Inv(s) && s.pc.Batch?
    ensures Lower(s.(pc := NextEvent(s.pc.events, s.pc.exiting)), s)
  {
    var events := s.pc.events;
    if events != [] {
      assert events == [events[0]] + events[1..];
      assert forall e :: e in events <==> e == events[0] || e in events[1..];
    }
  }

  lemma WaitLowers(s: State, events: seq<Source>)
    requires s.pc.Wait? && CanWait(s, events)
    ensures Lower(s.(pc := Batch(events, false)), s)
  {
    assert events[0] in events;
  }

  /** Every worker step lowers the rank, so without environment steps the worker comes to rest. */
  lemma WorkerLowers(s: State, t: State, bufferSize: nat)
    requires Inv(s) && WorkerNext(s, t, bufferSize)
    ensures Rank(t) < Rank(s)
  {
    WorkerInv(s, t, bufferSize);
    match s.pc
    case Batch(_, _) => BatchLowers(s);
    case Wait =>
      var events :| CanWait(s, events) && t == s.(pc := Batch(events, false));
      WaitLowers(s, events);
    case _ =>
  }

  /** Where it comes to rest: only in epoll_wait with nothing ready, or at the end of the thread. */
  lemma WorkerRests(s: State, bufferSize: nat) returns (t: State)
    requires 0 < bufferSize && !s.pc.Exited? && !(s.pc.Wait? && s.queued == 0 && !s.exitWritten)
    ensures WorkerNext(s, t, bufferSize)
  {
    match s.pc
    case AddWatch => t := s.(pc := InitialRead);
    case InitialRead =>
      if AtEnd(s) {
        t := s.(start := if s.sow then s.start else s.offset, pc := Wait);
      } else {
        assert CanRead(s, 1, bufferSize);
        t := DoRead(s, 1, s.sow);
      }
    case Wait =>
      var events := if 0 < s.queued then [InotifyFd] else [ExitPipe];
      assert CanWait(s, events);
      t := s.(pc := Batch(events, false));
    case Batch(events, exiting) => t := s.(pc := NextEvent(events, exiting));
    case DrainInotify(events, exiting) =>
      t := if s.queued == 0 then s.(pc := ReadData(events, exiting)) else DoTake(s, 1);
    case ReadData(events, exiting) =>
      if AtEnd(s) {
        t := s.(pc := Batch(events, exiting));
      } else {
        assert CanRead(s, 1, bufferSize);
        t := DoRead(s, 1, true);
      }
  }

  ghost predicate QuietRun(run: seq<State>, bufferSize: nat) {
    run != [] && forall i :: 0 <= i < |run| - 1 ==> WorkerNext(run[i], run[i + 1], bufferSize)
  }

  lemma QuietTail(run: seq<State>, bufferSize: nat)
    requires QuietRun(run, bufferSize) && 1 < |run|
    ensures WorkerNext(run[0], run[1], bufferSize) && QuietRun(run[1..], bufferSize)
  {
    assert WorkerNext(run[0], run[0 + 1], bufferSize);
    forall i | 0 <= i < |run[1..]| - 1
      ensures WorkerNext(run[1..][i], run[1..][i + 1], bufferSize)
    {
      assert WorkerNext(run[i + 1], run[i + 1 + 1], bufferSize);
    }
  }

  /** Once the environment is quiet, the worker takes at most `Rank` steps; where it can take no more,
      it has delivered everything and waits, or, if stop() was called, its thread has ended. */
  lemma {:induction false} QuietRunSettles(run: seq<State>, bufferSize: nat)
    requires 0 < bufferSize && QuietRun(run, bufferSize) && Inv(run[0])
    ensures |run| - 1 <= Rank(run[0])
    ensures var s := run[|run| - 1];
      (forall t :: !WorkerNext(s, t, bufferSize)) ==>
        && (s.pc.Exited? <==> run[0].exitWritten)
        && (s.pc.Exited? || (run[0].appending == 0 ==> Idle(s) && Complete(s)))
  {
    if 1 < |run| {
      QuietTail(run, bufferSize);
      WorkerInv(run[0], run[1], bufferSize);
      WorkerLowers(run[0], run[1], bufferSize);
      QuietRunSettles(run[1..], bufferSize);
    } else if !run[0].pc.Exited? && !(run[0].pc.Wait? && run[0].queued == 0 && !run[0].exitWritten) {
      var t := WorkerRests(run[0], bufferSize);
    }
  }
}
