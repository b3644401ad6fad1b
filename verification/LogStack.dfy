/** The stack of loggers behind `nstl::log::Logger`: the newest live logger receives log calls, and the
    one below it, with its level, resumes when it goes. Loggers may go in any order. */
module LogStack {
  import opened Options

  datatype Level = Debug | Info | Warning | Error | Terminate

  /** A sink object, as a shared pointer identifies it. */
  datatype Sink = Sink(id: nat, level: Level, isCout: bool)

  /** The process-wide state: the stack, the sink the installed log function pushes to, the global
      level and the flag that guards the console logger. */
  datatype Global = Global(items: seq<Sink>, functor: Option<Sink>, level: Level, coutActive: bool)

  datatype ConstructError = NullSink | CoutAlreadyActive

  // ----- what each operation does

  function SetFunctor(g: Global): Global {
    if g.items == [] then g
    else var top := g.items[|g.items| - 1]; g.(functor := Some(top), level := top.level)
  }

  function RemoveAll(items: seq<Sink>, sink: Sink): seq<Sink> {
    if items == [] then []
    else
      var rest := RemoveAll(items[..|items| - 1], sink);
      if items[|items| - 1] == sink then rest else rest + [items[|items| - 1]]
  }

  function Pushed(g: Global, sink: Sink): Global {
    SetFunctor(g.(items := g.items + [sink]))
  }

  function Erased(g: Global, sink: Sink): Global {
    if g.items != [] && g.items[|g.items| - 1] == sink then SetFunctor(g.(items := g.items[..|g.items| - 1]))
    else g.(items := RemoveAll(g.items, sink))
  }

  /** Logger's constructor; `None` when it throws. */
  function Constructed(g: Global, sink: Sink): Option<Global> {
    if sink.isCout && g.coutActive then None
    else Some(Pushed(g.(coutActive := g.coutActive || sink.isCout), sink))
  }

  /** Logger::reset on a logger that holds `sink`. */
  function Released(g: Global, sink: Sink): Global {
    Erased(g.(coutActive := g.coutActive && !sink.isCout), sink)
  }

  // ----- the code

  class Stack {
    var items: seq<Sink>
    var functor: Option<Sink>
    var level: Level
    var coutActive: bool

    function View(): Global
      reads this
    {
      Global(items, functor, level, coutActive)
    }

    constructor (initialLevel: Level)
      ensures View() == Global([], None, initialLevel, false)
    {
      items, functor, level, coutActive := [], None, initialLevel, false;
    }

    method InstallFunctor() returns (installed: bool)
      modifies this`functor, this`level
      ensures View() == SetFunctor(old(View())) && installed == (items != [])
    {
      if |items| == 0 {
        return false;
      }
      var ptr := items[|items| - 1];
      functor := Some(ptr);
      level := ptr.level;
      return true;
    }

    method PushBack(log: Sink) returns (installed: bool)
      modifies this`items, this`functor, this`level
      ensures View() == Pushed(old(View()), log) && installed
    {
      items := items + [log];
      installed := InstallFunctor();
    }

    method Erase(log: Sink) returns (installed: bool)
      modifies this`items, this`functor, this`level
      ensures View() == Erased(old(View()), log)
    {
      if |items| != 0 && items[|items| - 1] == log {
        items := items[..|items| - 1];
        installed := InstallFunctor();
      } else {
        var kept: seq<Sink> := [];
        for i := 0 to |items|
          invariant kept == RemoveAll(items[..i], log)
        {
          assert items[..i + 1][..i] == items[..i];
          if items[i] != log {
            kept := kept + [items[i]];
          }
        }
        assert items[..|items|] == items;
        items := kept;
        installed := false;
      }
    }
  }

  /** One `Logger` object: a sink until it is reset. */
  class Logger {
    var log: Option<Sink>

    constructor (sink: Sink)
      ensures log == Some(sink)
    {
      log := Some(sink);
    }

    /** Logger's constructor, with the exceptions it throws. */
    static method Make(stack: Stack, sink: Option<Sink>) returns (logger: Logger?, error: Option<ConstructError>)
      modifies stack
      ensures error == Some(NullSink) <==> sink.None?
      ensures error == Some(CoutAlreadyActive) <==> sink.Some? && sink.value.isCout && old(stack.coutActive)
      ensures Settled(old(stack.View())) ==>
        (error == Some(CoutAlreadyActive) <==> sink.Some? && sink.value.isCout && AnyCout(old(stack.items)))
      ensures error != None ==> stack.View() == old(stack.View())
      ensures error == None ==>
        && Some(stack.View()) == Constructed(old(stack.View()), sink.value)
        && stack.items == old(stack.items) + [sink.value] && stack.functor == sink && stack.level == sink.value.level
      ensures logger != null <==> error == None
      ensures logger != null ==> fresh(logger) && logger.log == sink
    {
      if sink.None? {
        return null, Some(NullSink);
      }
      if sink.value.isCout {
        var active := stack.coutActive;
        stack.coutActive := true;
        if active {
          return null, Some(CoutAlreadyActive);
        }
      }
      var _ := stack.PushBack(sink.value);
      logger := new Logger(sink.value);
      error := None;
    }

    /** reset(), which the destructor also calls: harmless the second time. */
    method Reset(stack: Stack)
      modifies this, stack
      ensures log == None
      ensures stack.View() == match old(log) case Some(sink) => Released(old(stack.View()), sink) case None => old(stack.View())
    {
      var taken := log;
      log := None;
      if taken.None? {
        return;
      }
      if taken.value.isCout {
        stack.coutActive := false;
      }
      var _ := stack.Erase(taken.value);
    }
  }

  // ----- any sequence of constructions and resets

  /** All Logger objects ever constructed, in order; a reset one holds nothing. */
  datatype World = World(g: Global, loggers: seq<Option<Sink>>)

  datatype Op = Construct(sink: Sink) | Reset(index: nat)

  function Live(loggers: seq<Option<Sink>>): seq<Sink> {
    if loggers == [] then []
    else
      var before := Live(loggers[..|loggers| - 1]);
      match loggers[|loggers| - 1] case Some(sink) => before + [sink] case None => before
  }

  /** A constructor that throws leaves no object; resetting an empty or missing logger does nothing. */
  function Step(w: World, op: Op): World {
    match op
    case Construct(sink) =>
      (match Constructed(w.g, sink)
       case Some(g) => World(g, w.loggers + [Some(sink)])
       case None => w)
    case Reset(k) =>
      if k < |w.loggers| && w.loggers[k].Some? then
        World(Released(w.g, w.loggers[k].value), w.loggers[k := None])
      else w
  }

  function Run(initial: World, ops: seq<Op>): World {
    if ops == [] then initial else Step(Run(initial, ops[..|ops| - 1]), ops[|ops| - 1])
  }

  /** No construction shares a sink with a logger that is still alive. */
  predicate DistinctSinks(initial: World, ops: seq<Op>) {
    ops == [] ||
    (DistinctSinks(initial, ops[..|ops| - 1]) &&
     (ops[|ops| - 1].Construct? ==> ops[|ops| - 1].sink !in Live(Run(initial, ops[..|ops| - 1]).loggers)))
  }

  predicate NoDuplicates(items: seq<Sink>) {
    forall i, j :: 0 <= i < j < |items| ==> items[i] != items[j]
  }

  predicate OneCout(items: seq<Sink>) {
    forall i, j :: 0 <= i < j < |items| ==> !(items[i].isCout && items[j].isCout)
  }

  predicate AnyCout(items: seq<Sink>) {
    exists i :: 0 <= i < |items| && items[i].isCout
  }

  /** Stack, functor, level and console flag agree. */
  predicate Settled(g: Global) {
    && NoDuplicates(g.items) && OneCout(g.items) && (g.coutActive <==> AnyCout(g.items))
    && (g.items != [] ==>
          var top := g.items[|g.items| - 1];
          g.functor == Some(top) && g.level == top.level)
  }

  /** The stack is the live sinks in construction order, the top one receives the log calls at its own
      level, and the console flag says whether the one allowed console logger is alive. */
  predicate Consistent(w: World) {
    w.g.items == Live(w.loggers) && Settled(w.g)
  }

  function Without(items: seq<Sink>, p: nat): seq<Sink>
    requires p < |items|
  {
    items[..p] + items[p + 1..]
  }

  /** Where logger k's sink is in the stack: after the live ones constructed before it. */
  lemma {:induction false} LiveAt(loggers: seq<Option<Sink>>, k: nat)
    requires k < |loggers| && loggers[k].Some?
    ensures var p := |Live(loggers[..k])|;
      p < |Live(loggers)| && Live(loggers)[p] == loggers[k].value &&
      Live(loggers[k := None]) == Without(Live(loggers), p)
  {
    var n := |loggers| - 1;
    var before := loggers[..n];
    var p := |Live(loggers[..k])|;
    if k == n {
      assert loggers[k := None][..n] == before;
      assert Live(loggers) == Live(before) + [loggers[k].value];
    } else {
      LiveAt(before, k);
      assert before[..k] == loggers[..k];
      assert loggers[k := None][..n] == before[k := None];
      var all := Live(before);
      if loggers[n].Some? {
        assert Without(all + [loggers[n].value], p) == Without(all, p) + [loggers[n].value];
      }
    }
  }

  lemma {:induction false} RemoveAbsent(items: seq<Sink>, sink: Sink)
    requires sink !in items
    ensures RemoveAll(items, sink) == items
  {
    if items != [] {
      RemoveAbsent(items[..|items| - 1], sink);
      assert items == items[..|items| - 1] + [items[|items| - 1]];
    }
  }

  lemma {:induction false} RemoveOnce(items: seq<Sink>, p: nat)
    requires p < |items| && forall j :: 0 <= j < |items| && j != p ==> items[j] != items[p]
    ensures RemoveAll(items, items[p]) == Without(items, p)
  {
    var n := |items| - 1;
    if p == n {
      RemoveAbsent(items[..n], items[p]);
      assert Without(items, p) == items[..n];
    } else {
      RemoveOnce(items[..n], p);
      assert Without(items, p) == Without(items[..n], p) + [items[n]];
    }
  }

  /** Without shared sinks, erase takes out exactly the one entry. */
  lemma EraseExact(g: Global, p: nat)
    requires p < |g.items| && NoDuplicates(g.items)
    ensures Erased(g, g.items[p]).items == Without(g.items, p)
  {
    RemoveOnce(g.items, p);
    if p == |g.items| - 1 {
      assert Without(g.items, p) == g.items[..p];
    }
  }

  lemma WithoutKeeps(items: seq<Sink>, p: nat)
    requires p < |items| && NoDuplicates(items) && OneCout(items)
    ensures NoDuplicates(Without(items, p)) && OneCout(Without(items, p))
    ensures AnyCout(Without(items, p)) <==> AnyCout(items) && !items[p].isCout
  {
    var after := Without(items, p);
    assert forall j :: 0 <= j < |after| ==> after[j] == items[if j < p then j else j + 1];
    if AnyCout(items) && !items[p].isCout {
      var i :| 0 <= i < |items| && items[i].isCout;
      assert after[if i < p then i else i - 1].isCout;
    }
  }

  /** The functor and level after an erase: those of the new top, whichever entry went. */
  lemma EraseFunctor(g: Global, p: nat)
    requires p < |g.items| && NoDuplicates(g.items)
    requires g.functor == Some(g.items[|g.items| - 1]) && g.level == g.items[|g.items| - 1].level
    ensures var t := Erased(g, g.items[p]);
      t.items != [] ==> t.functor == Some(t.items[|t.items| - 1]) && t.level == t.items[|t.items| - 1].level
  {
    EraseExact(g, p);
  }

  lemma ReleaseKeeps(g: Global, p: nat)
    requires Settled(g) && p < |g.items|
    ensures Released(g, g.items[p]).items == Without(g.items, p) && Settled(Released(g, g.items[p]))
  {
    var flagged := g.(coutActive := g.coutActive && !g.items[p].isCout);
    EraseExact(flagged, p);
    EraseFunctor(flagged, p);
    WithoutKeeps(g.items, p);
  }

  lemma ResetKeeps(w: World, k: nat)
    requires Consistent(w) && k < |w.loggers| && w.loggers[k].Some?
    ensures Consistent(Step(w, Reset(k)))
  {
    LiveAt(w.loggers, k);
    ReleaseKeeps(w.g, |Live(w.loggers[..k])|);
  }

  lemma ConstructKeeps(w: World, sink: Sink)
    requires Consistent(w) && sink !in Live(w.loggers)
    ensures Consistent(Step(w, Construct(sink)))
  {
    var t := Step(w, Construct(sink));
    if t != w {
      assert t.loggers[..|w.loggers|] == w.loggers;
      if AnyCout(w.g.items) {
        var i :| 0 <= i < |w.g.items| && w.g.items[i].isCout;
        assert t.g.items[i].isCout;
      }
      if sink.isCout {
        assert t.g.items[|w.g.items|].isCout;
      }
    }
  }

  /** A construction throws, and changes nothing, exactly if it would make a second live console logger. Any other
      one adds its sink as the newest live logger, which gets the log calls at its own level. */
  lemma ConstructExactly(w: World, sink: Sink)
    requires Consistent(w)
    ensures var t := Step(w, Construct(sink));
      && (t.loggers == w.loggers <==> sink.isCout && AnyCout(Live(w.loggers)))
      && (if sink.isCout && AnyCout(Live(w.loggers)) then t == w
          else
            && t.loggers == w.loggers + [Some(sink)] && Live(t.loggers) == Live(w.loggers) + [sink]
            && t.g.items == w.g.items + [sink] && t.g.functor == Some(sink) && t.g.level == sink.level)
  {
    assert (w.loggers + [Some(sink)])[..|w.loggers|] == w.loggers;
    assert |w.loggers + [Some(sink)]| != |w.loggers|;
  }

  /** A reset takes exactly that logger out of the live ones; the others keep their order. */
  lemma ResetExactly(w: World, k: nat)
    requires Consistent(w)
    ensures var t, live := Step(w, Reset(k)), Live(w.loggers);
      if k < |w.loggers| && w.loggers[k].Some? then
        var p := |Live(w.loggers[..k])|;
        p < |live| && t.loggers == w.loggers[k := None] && t.g.items == live[..p] + live[p + 1..]
      else t == w
  {
    if k < |w.loggers| && w.loggers[k].Some? {
      LiveAt(w.loggers, k);
      ReleaseKeeps(w.g, |Live(w.loggers[..k])|);
    }
  }

  /** After any sequence of constructions and resets, in any order. */
  lemma {:induction false} StackFollowsLoggers(level: Level, ops: seq<Op>)
    requires DistinctSinks(World(Global([], None, level, false), []), ops)
    ensures Consistent(Run(World(Global([], None, level, false), []), ops))
  {
    if ops != [] {
      StackFollowsLoggers(level, ops[..|ops| - 1]);
      var w := Run(World(Global([], None, level, false), []), ops[..|ops| - 1]);
      match ops[|ops| - 1]
      case Construct(sink) => ConstructKeeps(w, sink);
      case Reset(k) =>
        if k < |w.loggers| && w.loggers[k].Some? {
          ResetKeeps(w, k);
        }
    }
  }

  /** So after any such sequence, the next construction throws exactly if it and a live logger are both console
      loggers. */
  lemma ThrowsIff(level: Level, ops: seq<Op>, sink: Sink)
    requires DistinctSinks(World(Global([], None, level, false), []), ops)
    ensures var w := Run(World(Global([], None, level, false), []), ops);
      Constructed(w.g, sink).None? <==> sink.isCout && exists k :: 0 <= k < |w.loggers| && LiveCout(w.loggers[k])
  {
    var w := Run(World(Global([], None, level, false), []), ops);
    StackFollowsLoggers(level, ops);
    ConstructExactly(w, sink);
    AnyLiveCout(w.loggers);
  }

  predicate LiveCout(logger: Option<Sink>) {
    logger.Some? && logger.value.isCout
  }

  lemma {:induction false} AnyLiveCout(loggers: seq<Option<Sink>>)
    ensures AnyCout(Live(loggers)) <==> exists k :: 0 <= k < |loggers| && LiveCout(loggers[k])
  {
    if loggers != [] {
      var n := |loggers| - 1;
      AnyLiveCout(loggers[..n]);
      var before, live := Live(loggers[..n]), Live(loggers);
      assert forall i :: 0 <= i < |before| ==> live[i] == before[i];
      assert forall k :: 0 <= k < n ==> loggers[..n][k] == loggers[k];
      if LiveCout(loggers[n]) {
        assert live[|before|].isCout;
      }
      if AnyCout(before) {
        var i :| 0 <= i < |before| && before[i].isCout;
        assert live[i].isCout;
      }
    }
  }

  /** Constructing a logger and resetting it puts everything back as it was, exactly when there is a
      previous logger to resume: below an empty stack the dead sink stays installed, with its level. */
  lemma InnermostRestoresIff(w: World, sink: Sink)
    requires Consistent(w) && sink !in Live(w.loggers) && !(sink.isCout && AnyCout(Live(w.loggers)))
    ensures var inner := Step(w, Construct(sink));
      && inner.g.functor == Some(sink) && inner.g.level == sink.level
      && (Step(inner, Reset(|w.loggers|)).g == w.g <==>
            w.g.items != [] || (w.g.functor == Some(sink) && w.g.level == sink.level))
  {
    var inner := Step(w, Construct(sink));
    assert inner.g.items[..|w.g.items|] == w.g.items;
  }

  // ----- sinks shared between loggers

  predicate OnceOrTail(items: seq<Sink>, p: nat)
    requires p < |items|
  {
    || (forall j :: 0 <= j < |items| && j != p ==> items[j] != items[p])
    || (forall j :: p <= j < |items| ==> items[j] == items[p])
  }

  lemma {:induction false} RemoveAllLength(items: seq<Sink>, sink: Sink)
    ensures |RemoveAll(items, sink)| <= |items|
    ensures sink !in RemoveAll(items, sink)
  {
    if items != [] {
      RemoveAllLength(items[..|items| - 1], sink);
    }
  }

  /** Two loggers may be given one sink. Then resetting one of them takes out exactly its own entry if
      and only if the sink is nowhere else in the stack or fills it from that entry to the top. */
  lemma EraseExactIff(g: Global, p: nat)
    requires p < |g.items|
    ensures Erased(g, g.items[p]).items == Without(g.items, p) <==> OnceOrTail(g.items, p)
  {
    var items, sink, n := g.items, g.items[p], |g.items| - 1;
    var after := Without(items, p);
    assert forall j :: 0 <= j < n ==> after[j] == items[if j < p then j else j + 1];
    if items[n] == sink {
      if forall j :: p <= j < |items| ==> items[j] == sink {
        assert items[..n] == after;
      }
      if items[..n] == after {
        TailEqual(items, p, n);
      }
    } else {
      if forall j :: 0 <= j < |items| && j != p ==> items[j] != sink {
        RemoveOnce(items, p);
      }
      if RemoveAll(items, sink) == after {
        RemoveAllLength(items, sink);
        forall j | 0 <= j < |items| && j != p
          ensures items[j] != sink
        {
          assert after[if j < p then j else j - 1] == items[j];
        }
      }
    }
  }

  lemma {:induction false} TailEqual(items: seq<Sink>, p: nat, j: nat)
    requires p <= j < |items| && items[..|items| - 1] == Without(items, p)
    ensures forall k :: p <= k <= j ==> items[k] == items[p]
  {
    if p < j {
      TailEqual(items, p, j - 1);
      assert items[..|items| - 1][j - 1] == Without(items, p)[j - 1];
    }
  }
}
