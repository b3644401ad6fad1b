/** The Linux process supervisor (`multi_runner`) as a transition system.

    The runner blocks SIGCHLD, SIGINT, SIGTERM and SIGQUIT, forks its children, registers their
    pipes with an edge-triggered epoll instance and then loops: wait for events, read signal
    records, reap, drain pipes. Every system call is one step of the runner, and the environment
    (children, the kernel, whoever sends signals) may take any number of steps between two of them. */
module Supervisor {

  /** The signals in the signalfd mask. Standard signals coalesce: pending is a set. */
  datatype Signal = SIGCHLD | SIGINT | SIGTERM | SIGQUIT

  /** What waitpid reports about a dead child. */
  datatype Status = Exited(code: nat) | Signalled(signo: nat)

  function ExitCode(status: Status): nat {
    match status
    case Exited(code) => code
    case Signalled(signo) => 128 + signo
  }

  /** A child of the runner that has not been waited for. */
  datatype Proc = Running | Zombie(status: Status)

  /** A child's stdout pipe. `unread` is the kernel's buffer; `written` and `forwarded` record
      everything the child wrote and everything the runner copied to its own stdout. `edge` is the
      edge-triggered readiness held by epoll and `parentEnd` the runner's own copy of the write end. */
  datatype Pipe = Pipe(written: string, unread: string, forwarded: string,
                       registered: bool, edge: bool, readOpen: bool, parentEnd: bool)

  /** The runner's observable actions, in order. */
  datatype Event =
    | Forked(pid: int)
    | Reaped(pid: int, code: nat)
    | Forwarded(sig: Signal, targets: set<int>)
    | Terminated(targets: set<int>)

  datatype Source = SignalFd | PipeFd(child: nat)

  /** Where the runner is. `events` holds the epoll events of the current batch still to handle. */
  datatype Pc =
    | Fork(next: nat)
    | Register(next: nat)
    | LoopTop
    | Wait
    | Batch(events: seq<Source>)
    | ReadSignal(events: seq<Source>)
    | Reap(events: seq<Source>)
    | Drain(child: nat, events: seq<Source>)
    | FinalDrain(child: nat)
    | Done

  datatype State = State(
    pids: seq<int>,
    pipes: seq<Pipe>,
    table: map<int, Proc>,
    pending: set<Signal>,
    raised: bool,
    exitCode: int,
    history: seq<Event>,
    pc: Pc)

  const EVENT_SIZE := 16
  const BUFFER_SIZE := 1024 * 1024

  // ----- what the runner computes from its own variables

  /** The pids a kill loop signals: every entry that is still positive. */
  function LivePids(pids: seq<int>): set<int> {
    set i | 0 <= i < |pids| && 0 < pids[i] :: pids[i]
  }

  predicate AnyValidPid(pids: seq<int>) {
    exists i :: 0 <= i < |pids| && 0 < pids[i]
  }

  predicate HasZombie(table: map<int, Proc>) {
    exists pid :: pid in table && table[pid].Zombie?
  }

  /** The entry with a given pid, or |pids| when there is none. */
  function IndexOf(pids: seq<int>, pid: int): (i: nat)
    ensures i <= |pids|
    ensures i < |pids| ==> pids[i] == pid
    ensures forall j :: 0 <= j < i ==> pids[j] != pid
  {
    if pids == [] then 0 else if pids[0] == pid then 0 else 1 + IndexOf(pids[1..], pid)
  }

  predicate Ready(s: State, source: Source) {
    match source
    case SignalFd => s.pending != {}
    case PipeFd(i) => i < |s.pipes| && s.pipes[i].registered && s.pipes[i].edge
  }

  predicate Distinct(events: seq<Source>) {
    forall i, j :: 0 <= i < j < |events| ==> events[i] != events[j]
  }

  // ----- initial states

  /** `strays` are children inherited from before the exec, which the runner never started. */
  ghost predicate Init(s: State) {
    && 0 < |s.pids| == |s.pipes|
    && (forall i :: 0 <= i < |s.pids| ==> s.pids[i] == 0)
    && (forall i :: 0 <= i < |s.pipes| ==> s.pipes[i] == Pipe("", "", "", false, false, true, true))
    && (forall pid :: pid in s.table ==> 0 < pid)
    && !s.raised && s.exitCode == 0 && s.history == [] && s.pc == Fork(0)
  }

  // ----- environment steps

  /** A child may write only while it runs. Data arriving in a registered pipe raises its edge. */
  function DoWrite(s: State, i: nat, data: string): State
    requires i < |s.pipes|
  {
    var p := s.pipes[i];
    s.(pipes := s.pipes[i := p.(written := p.written + data, unread := p.unread + data, edge := p.edge || p.registered)])
  }

  predicate CanWrite(s: State, i: nat, data: string) {
    i < |s.pids| == |s.pipes| && 0 < s.pids[i] && s.pids[i] in s.table && s.table[s.pids[i]].Running? && data != ""
  }

  /** An exit turns a running child into a zombie and sets the one SIGCHLD pending bit. */
  function DoExit(s: State, pid: int, status: Status): State {
    s.(table := s.table[pid := Zombie(status)], pending := s.pending + {SIGCHLD})
  }

  predicate CanExit(s: State, pid: int) {
    pid in s.table && s.table[pid].Running?
  }

  /** Someone signals the runner. SIGCHLD covers a child that merely stopped or continued. */
  function DoSignal(s: State, sig: Signal): State {
    s.(pending := s.pending + {sig})
  }

  ghost predicate EnvNext(s: State, t: State) {
    || (exists i: nat, data :: CanWrite(s, i, data) && t == DoWrite(s, i, data))
    || (exists pid, status :: CanExit(s, pid) && t == DoExit(s, pid, status))
    || (exists sig :: t == DoSignal(s, sig))
  }

  // ----- runner steps

  function DoFork(s: State, pid: int): State
    requires s.pc.Fork? && s.pc.next < |s.pids|
  {
    s.(pids := s.pids[s.pc.next := pid], table := s.table[pid := Running],
       history := s.history + [Forked(pid)], pc := Fork(s.pc.next + 1))
  }

  /** EPOLL_CTL_ADD of a pipe that already holds data queues its first edge. */
  function DoRegister(s: State): State
    requires s.pc.Register? && s.pc.next < |s.pipes|
  {
    var p := s.pipes[s.pc.next];
    s.(pipes := s.pipes[s.pc.next := p.(registered := true, edge := p.unread != "")], pc := Register(s.pc.next + 1))
  }

  /** Delivering an edge-triggered event consumes the edge; the signalfd is level-triggered. */
  function Deliver(pipes: seq<Pipe>, events: seq<Source>): (after: seq<Pipe>)
    ensures |after| == |pipes|
  {
    seq(|pipes|, i requires 0 <= i < |pipes| => if PipeFd(i) in events then pipes[i].(edge := false) else pipes[i])
  }

  function DoWait(s: State, events: seq<Source>): State {
    s.(pipes := Deliver(s.pipes, events), pc := Batch(events))
  }

  predicate CanWait(s: State, events: seq<Source>) {
    && 0 < |events| <= EVENT_SIZE
    && Distinct(events)
    && forall e :: e in events ==> Ready(s, e)
  }

  /** One signal record other than SIGCHLD: pass it on to every child not yet reaped. */
  function DoForward(s: State, sig: Signal): State {
    s.(pending := s.pending - {sig}, raised := true,
       history := s.history + [Forwarded(sig, LivePids(s.pids))])
  }

  /** One signal record: SIGCHLD enters the reap loop, anything else is forwarded. */
  function DoReadSignal(s: State, sig: Signal): State
    requires s.pc.ReadSignal?
  {
    if sig == SIGCHLD then s.(pending := s.pending - {SIGCHLD}, pc := Reap(s.pc.events)) else DoForward(s, sig)
  }

  /** One successful waitpid. */
  function DoReap(s: State, pid: int): State
    requires pid in s.table && s.table[pid].Zombie?
  {
    var code := ExitCode(s.table[pid].status);
    var i := IndexOf(s.pids, pid);
    var reaped := s.(table := s.table - {pid});
    if i == |s.pids| then reaped
    else
      var cleared := reaped.(pids := s.pids[i := 0], history := s.history + [Reaped(pid, code)]);
      if code != 0 && !s.raised then
        cleared.(exitCode := code, raised := true, history := cleared.history + [Terminated(LivePids(cleared.pids))])
      else cleared
  }

  /** One read of `k` bytes from pipe `i`, copied to stdout. */
  function DoRead(s: State, i: nat, k: nat): State
    requires i < |s.pipes| && k <= |s.pipes[i].unread|
  {
    var p := s.pipes[i];
    s.(pipes := s.pipes[i := p.(unread := p.unread[k..], forwarded := p.forwarded + p.unread[..k])])
  }

  predicate CanRead(s: State, i: nat, k: nat) {
    i < |s.pipes| && s.pipes[i].readOpen && 0 < k <= |s.pipes[i].unread| && k <= BUFFER_SIZE
  }

  /** read() returns 0 only when nobody holds the write end any more. */
  predicate CanSeeEof(s: State, i: nat) {
    && i < |s.pids| == |s.pipes| && s.pipes[i].readOpen && s.pipes[i].unread == ""
    && !s.pipes[i].parentEnd && s.pids[i] == 0
  }

  function DoClose(s: State, i: nat): State
    requires i < |s.pipes|
  {
    s.(pipes := s.pipes[i := s.pipes[i].(readOpen := false, registered := false, edge := false)])
  }

  /** read_pipe has nothing left to do: the pipe is empty (EAGAIN) or already closed. */
  predicate Drained(s: State, i: nat) {
    i < |s.pipes| && (s.pipes[i].unread == "" || !s.pipes[i].readOpen)
  }

  ghost predicate ReadPipeStep(s: State, i: nat, t: State) {
    || (exists k: nat :: CanRead(s, i, k) && t == DoRead(s, i, k))
    || (CanSeeEof(s, i) && t == DoClose(s, i))
  }

  /** Every runner step except a system call that returns EINTR and is retried. */
  ghost predicate RunnerNext(s: State, t: State) {
    match s.pc
    case Fork(next) =>
      if next < |s.pids| then exists pid :: 0 < pid && pid !in s.table && t == DoFork(s, pid)
      else t == s.(pc := Register(0))
    case Register(next) =>
      if next < |s.pipes| then t == DoRegister(s) else t == s.(pc := LoopTop)
    case LoopTop =>
      t == s.(pc := if AnyValidPid(s.pids) then Wait else FinalDrain(0))
    case Wait =>
      exists events :: CanWait(s, events) && t == DoWait(s, events)
    case Batch(events) =>
      t == s.(pc :=
        if events == [] then LoopTop
        else match events[0]
             case SignalFd => ReadSignal(events[1..])
             case PipeFd(i) => if i < |s.pipes| && s.pipes[i].readOpen then Drain(i, events[1..]) else Batch(events[1..]))
    case ReadSignal(events) =>
      if s.pending == {} then t == s.(pc := Batch(events))
      else exists sig :: sig in s.pending && t == DoReadSignal(s, sig)
    case Reap(events) =>
      if HasZombie(s.table) then exists pid :: pid in s.table && s.table[pid].Zombie? && t == DoReap(s, pid)
      else t == s.(pc := ReadSignal(events))
    case Drain(i, events) =>
      ReadPipeStep(s, i, t) || (Drained(s, i) && t == s.(pc := Batch(events)))
    case FinalDrain(i) =>
      if i < |s.pipes| then ReadPipeStep(s, i, t) || (Drained(s, i) && t == s.(pc := FinalDrain(i + 1)))
      else t == s.(pc := Done)
    case Done => false
  }

  /** EINTR: epoll_wait goes back to the loop test; waitpid and read are simply repeated. */
  ghost predicate InterruptNext(s: State, t: State) {
    t == if s.pc.Wait? then s.(pc := LoopTop) else s
  }

  ghost predicate Next(s: State, t: State) {
    RunnerNext(s, t) || InterruptNext(s, t) || EnvNext(s, t)
  }

  /** A finite run: any interleaving of environment and runner steps. */
  ghost predicate IsRun(run: seq<State>) {
    && run != []
    && Init(run[0])
    && forall i :: 0 <= i < |run| - 1 ==> StepAt(run, i)
  }

  ghost predicate StepAt(run: seq<State>, i: nat)
    requires i < |run| - 1
  {
    Next(run[i], run[i + 1])
  }
}
