/** The Windows file trigger: overlapped reads at an offset kept by the worker, polling at the end of the
    file. Every run is given by a script of what the system does at each turn. */
module TailWindows {

  type Bytes = seq<bv8>

  const WORD := 0x1_0000_0000
  const MAX_FILE := 0x7FFF_FFFF_FFFF_FFFF

  // ----- the offset in two halves

  /** set_overlapped_offset: two 32-bit halves. */
  method SetOverlappedOffset(offset: nat) returns (low: nat, high: nat)
    requires offset < WORD * WORD
    ensures low < WORD && high < WORD && Recombined(low, high) == offset
  {
    low := offset % WORD;
    high := offset / WORD % WORD;
  }

  /** The offset the system reads at. */
  function Recombined(low: nat, high: nat): nat {
    high * WORD + low
  }

  // ----- what the system does

  /** A read completes with at most `most` bytes (0 at the end of the file), reports the end of the file,
      or is still pending when the exit event comes. */
  datatype Read = Completed(most: nat) | EndOfFile | ExitWhilePending

  /** What is appended to the file before the read, the read, and whether the poll at the end of the file
      sees the exit event. */
  datatype Turn = Turn(appended: Bytes, read: Read, exit: bool)

  datatype Config = Config(sow: bool, boundary: nat, bufferSize: nat)

  /** `calls` are the spans given to the callback so far. */
  datatype State = State(file: Bytes, offset: nat, calls: seq<Bytes>, stopped: bool)

  function Min(a: nat, b: nat): nat {
    if a < b then a else b
  }

  function Appended(s: State, t: Turn): State {
    s.(file := s.file + t.appended)
  }

  /** How many bytes a read asks for: the buffer's size, cut to 32 bits. */
  function Request(c: Config): (n: nat)
    ensures n <= c.bufferSize
  {
    c.bufferSize % WORD
  }

  function Transferred(c: Config, s: State, read: Read): (k: nat)
    requires s.offset <= |s.file|
    ensures k <= c.bufferSize && s.offset + k <= |s.file|
  {
    match read
    case Completed(most) => Min(most, Min(Request(c), |s.file| - s.offset))
    case EndOfFile => 0
    case ExitWhilePending => 0
  }

  function DeliverFrom(c: Config, start: nat, end: nat): (from: nat)
    requires start <= end
    ensures start <= from <= end
  {
    if !c.sow && start < c.boundary then Min(end, c.boundary) else start
  }

  /** A chunk of k bytes has been read. */
  function Delivered(c: Config, s: State, k: nat): State
    requires s.offset + k <= |s.file|
  {
    var end := s.offset + k;
    var from := DeliverFrom(c, s.offset, end);
    if from < end then s.(offset := end, calls := s.calls + [s.file[from..end]]) else s.(offset := end)
  }

  function Apply(c: Config, s: State, t: Turn): (r: State)
    requires s.offset <= |s.file|
    ensures r.offset <= |r.file|
  {
    if s.stopped then s
    else
      var grown := Appended(s, t);
      var k := Transferred(c, grown, t.read);
      if 0 < k then Delivered(c, grown, k)
      else grown.(stopped := t.read.ExitWhilePending? || t.exit)
  }

  function Run(c: Config, file: Bytes, script: seq<Turn>): (r: State)
    ensures r.offset <= |r.file|
  {
    if script == [] then State(file, 0, [], false)
    else Apply(c, Run(c, file, script[..|script| - 1]), script[|script| - 1])
  }

  // ----- the worker

  /** Everything a script appends. */
  function Appends(script: seq<Turn>): Bytes {
    if script == [] then [] else Appends(script[..|script| - 1]) + script[|script| - 1].appended
  }

  /** The end of a chunk, in the buffer and in the file. */
  lemma SpanIs(buffer: Bytes, n: nat, file: Bytes, start: nat, skip: nat)
    requires skip <= n <= |buffer| && start + n <= |file| && buffer[..n] == file[start..start + n]
    ensures buffer[skip..n] == file[start + skip..start + n]
  {
    assert buffer[skip..n] == buffer[..n][skip..];
    assert file[start..start + n][skip..] == file[start + skip..start + n];
  }

  class Worker {
    const config: Config
    const buffer: array<bv8>
    var file: Bytes
    var fileOffset: nat
    var calls: seq<Bytes>

    ghost predicate Valid()
      reads this
    {
      buffer.Length == config.bufferSize && fileOffset <= |file|
    }

    ghost function View(stopped: bool): State
      reads this
    {
      State(file, fileOffset, calls, stopped)
    }

    constructor (sow: bool, boundary: nat, bufferSize: nat, file: Bytes)
      ensures Valid() && config == Config(sow, boundary, bufferSize) && fresh(buffer)
      ensures View(false) == Run(config, file, [])
    {
      config := Config(sow, boundary, bufferSize);
      buffer := new bv8[bufferSize](_ => 0);
      this.file := file;
      fileOffset := 0;
      calls := [];
    }

    /** ReadFile: fills the buffer from the offset in the two halves. */
    method ReadFile(low: nat, high: nat, read: Read) returns (transferred: nat)
      requires Valid() && Recombined(low, high) == fileOffset
      modifies buffer
      ensures transferred == Transferred(config, View(false), read)
      ensures transferred <= buffer.Length && buffer[..transferred] == file[fileOffset..fileOffset + transferred]
    {
      var at := high * WORD + low;
      var request := buffer.Length % WORD;
      transferred := 0;
      if read.Completed? {
        while transferred < read.most && transferred < request && at + transferred < |file|
          invariant transferred <= Transferred(config, View(false), read)
          invariant buffer[..transferred] == file[at..at + transferred]
        {
          buffer[transferred] := file[at + transferred];
          transferred := transferred + 1;
        }
      }
    }

    /** The part of a chunk the callback gets: nothing before the boundary unless the start was asked for. */
    method Deliver(transferred: nat)
      requires Valid() && 0 < transferred <= buffer.Length && fileOffset + transferred <= |file|
      requires buffer[..transferred] == file[fileOffset..fileOffset + transferred]
      modifies this`fileOffset, this`calls
      ensures Valid() && View(false) == Delivered(config, old(View(false)), transferred)
    {
      var chunkStart := fileOffset;
      fileOffset := fileOffset + transferred;
      var deliverFrom := chunkStart;
      if !config.sow && chunkStart < config.boundary {
        deliverFrom := if fileOffset < config.boundary then fileOffset else config.boundary;
      }
      if deliverFrom < fileOffset {
        var skip := deliverFrom - chunkStart;
        var count := fileOffset - deliverFrom;
        SpanIs(buffer[..], transferred, file, chunkStart, skip);
        calls := calls + [buffer[skip..skip + count]];
      }
    }

    /** One turn of the loop. */
    method TakeTurn(t: Turn) returns (stopped: bool)
      requires Valid() && |file| + |t.appended| <= MAX_FILE
      modifies this, buffer
      ensures Valid() && View(stopped) == Apply(config, old(View(false)), t)
    {
      file := file + t.appended;
      var low, high := SetOverlappedOffset(fileOffset);
      if t.read.ExitWhilePending? {
        return true;
      }
      var transferred := ReadFile(low, high, t.read);
      if 0 < transferred {
        Deliver(transferred);
        return false;
      }
      return t.exit;
    }

    /** _worker_impl. */
    method Work(script: seq<Turn>, ghost start: Bytes) returns (stopped: bool)
      requires Valid() && View(false) == Run(config, start, []) && |start| + |Appends(script)| <= MAX_FILE
      modifies this, buffer
      ensures Valid() && View(stopped) == Run(config, start, script)
    {
      stopped := false;
      var i := 0;
      while i < |script| && !stopped
        invariant 0 <= i <= |script|
        invariant Valid() && View(stopped) == Run(config, start, script[..i])
      {
        Room(config, start, script, i);
        assert script[..i + 1][..i] == script[..i];
        stopped := TakeTurn(script[i]);
        i := i + 1;
      }
      if stopped {
        StaysStopped(config, start, script, i);
      }
      assert script[..|script|] == script;
    }
  }

  lemma {:induction false} AppendsPrefix(script: seq<Turn>, i: nat)
    requires i <= |script|
    ensures |Appends(script[..i])| <= |Appends(script)|
    decreases |script|
  {
    if i < |script| {
      var n := |script| - 1;
      AppendsPrefix(script[..n], i);
      assert script[..n][..i] == script[..i];
    } else {
      assert script[..i] == script;
    }
  }

  /** The file is what it was with everything appended, while the worker runs. */
  lemma {:induction false} FileIs(c: Config, file: Bytes, script: seq<Turn>)
    ensures var s := Run(c, file, script);
      |s.file| <= |file| + |Appends(script)| && (!s.stopped ==> s.file == file + Appends(script))
  {
    if script != [] {
      FileIs(c, file, script[..|script| - 1]);
    }
  }

  lemma {:induction false} Room(c: Config, file: Bytes, script: seq<Turn>, i: nat)
    requires i < |script|
    ensures |Run(c, file, script[..i]).file| + |script[i].appended| <= |file| + |Appends(script)|
  {
    FileIs(c, file, script[..i]);
    AppendsPrefix(script, i + 1);
    assert script[..i + 1][..i] == script[..i];
  }

  lemma {:induction false} StaysStopped(c: Config, file: Bytes, script: seq<Turn>, i: nat)
    requires i <= |script| && Run(c, file, script[..i]).stopped
    ensures Run(c, file, script) == Run(c, file, script[..i])
    decreases |script|
  {
    if i < |script| {
      var n := |script| - 1;
      assert script[..n][..i] == script[..i];
      StaysStopped(c, file, script[..n], i);
    } else {
      assert script[..i] == script;
    }
  }

  // ----- what the callbacks got

  function Flat(calls: seq<Bytes>): Bytes {
    if calls == [] then [] else Flat(calls[..|calls| - 1]) + calls[|calls| - 1]
  }

  function StartPoint(c: Config): nat {
    if c.sow then 0 else c.boundary
  }

  /** The bytes between the start point and the offset. */
  function Wanted(c: Config, file: Bytes, offset: nat): Bytes
    requires offset <= |file|
  {
    if StartPoint(c) <= offset then file[StartPoint(c)..offset] else []
  }

  predicate Sized(calls: seq<Bytes>, bufferSize: nat) {
    forall i :: 0 <= i < |calls| ==> 0 < |calls[i]| <= bufferSize
  }

  /** The calls are exactly these bytes, in spans that are not empty and fit the buffer. */
  predicate Spell(calls: seq<Bytes>, wanted: Bytes, bufferSize: nat) {
    Flat(calls) == wanted && Sized(calls, bufferSize)
  }

  ghost predicate Exact(c: Config, s: State) {
    s.offset <= |s.file| && Spell(s.calls, Wanted(c, s.file, s.offset), c.bufferSize)
  }

  lemma {:induction false} SpellNothing(calls: seq<Bytes>, before: Bytes, call: Bytes, wanted: Bytes, bufferSize: nat)
    requires Spell(calls, before, bufferSize) && call == [] && wanted == before + call
    ensures Spell(calls, wanted, bufferSize)
  {
  }

  lemma {:induction false} SpellCall(calls: seq<Bytes>, before: Bytes, call: Bytes, wanted: Bytes, bufferSize: nat)
    requires Spell(calls, before, bufferSize) && 0 < |call| <= bufferSize && wanted == before + call
    ensures Spell(calls + [call], wanted, bufferSize)
  {
    assert (calls + [call])[..|calls|] == calls;
  }

  /** The new calls spell what the old ones did and the part of the chunk that is delivered. */
  lemma {:induction false} DeliveredSpells(c: Config, s: State, k: nat, before: Bytes, wanted: Bytes)
    requires s.offset + k <= |s.file| && k <= c.bufferSize && Spell(s.calls, before, c.bufferSize)
    requires wanted == before + s.file[DeliverFrom(c, s.offset, s.offset + k)..s.offset + k]
    ensures Spell(Delivered(c, s, k).calls, wanted, c.bufferSize)
  {
    var end := s.offset + k;
    var from := DeliverFrom(c, s.offset, end);
    var call, calls := s.file[from..end], Delivered(c, s, k).calls;
    assert |call| == end - from;
    if from < end {
      assert calls == s.calls + [call];
      SpellCall(s.calls, before, call, wanted, c.bufferSize);
    } else {
      assert calls == s.calls;
      SpellNothing(s.calls, before, call, wanted, c.bufferSize);
    }
  }

  lemma {:induction false} DeliveredExact(c: Config, s: State, k: nat)
    requires Exact(c, s) && s.offset + k <= |s.file| && k <= c.bufferSize
    ensures Exact(c, Delivered(c, s, k))
  {
    WantedGrows(c, s.file, s.offset, s.offset + k);
    DeliveredSpells(c, s, k, Wanted(c, s.file, s.offset), Wanted(c, s.file, s.offset + k));
  }

  lemma {:induction false} WantedGrows(c: Config, file: Bytes, start: nat, end: nat)
    requires start <= end <= |file|
    ensures var from := DeliverFrom(c, start, end);
      Wanted(c, file, end) == Wanted(c, file, start) + file[from..end]
  {
    var from, first := DeliverFrom(c, start, end), StartPoint(c);
    if first <= start {
      assert file[first..end] == file[first..start] + file[start..end];
    } else if end <= first {
      assert file[from..end] == [];
    }
  }

  lemma {:induction false} AppendedExact(c: Config, s: State, t: Turn)
    requires Exact(c, s)
    ensures Exact(c, Appended(s, t))
  {
    var file, first := s.file + t.appended, StartPoint(c);
    if first <= s.offset {
      assert file[first..s.offset] == s.file[first..s.offset];
    }
  }

  /** For every script, the callbacks together are the file from the start point to the offset: from 0 if
      the start was asked for, else from the boundary. No callback gets an empty span. */
  lemma {:induction false} CallsExact(c: Config, file: Bytes, script: seq<Turn>)
    ensures Exact(c, Run(c, file, script)) && file <= Run(c, file, script).file
  {
    if script != [] {
      var n := |script| - 1;
      CallsExact(c, file, script[..n]);
      ApplyExact(c, Run(c, file, script[..n]), script[n]);
    }
  }

  lemma {:induction false} ApplyExact(c: Config, s: State, t: Turn)
    requires Exact(c, s)
    ensures Exact(c, Apply(c, s, t)) && s.file <= Apply(c, s, t).file
  {
    AppendedExact(c, s, t);
    var grown := Appended(s, t);
    DeliveredExact(c, grown, Transferred(c, grown, t.read));
  }

  // ----- when the worker stops

  /** The exit event is seen in this turn: while a read is pending, or in the poll after a read that brought
      nothing, because the file was at its end or the size asked for is cut to 0. */
  predicate MeetsExit(c: Config, s: State, t: Turn) {
    match t.read
    case ExitWhilePending => true
    case EndOfFile => t.exit
    case Completed(most) => t.exit && (most == 0 || c.bufferSize % WORD == 0 || s.offset == |s.file| + |t.appended|)
  }

  lemma TurnStops(c: Config, s: State, t: Turn)
    requires s.offset <= |s.file| && !s.stopped
    ensures Apply(c, s, t).stopped <==> MeetsExit(c, s, t)
  {
  }

  /** Turn i meets the exit event. */
  predicate StopsAt(c: Config, file: Bytes, script: seq<Turn>, i: nat) {
    i < |script| && MeetsExit(c, Run(c, file, script[..i]), script[i])
  }

  /** The turn a stopped worker has stopped in. */
  lemma {:induction false} StoppedIn(c: Config, file: Bytes, script: seq<Turn>) returns (i: nat)
    requires Run(c, file, script).stopped
    ensures StopsAt(c, file, script, i)
  {
    var n := |script| - 1;
    var before := script[..n];
    if Run(c, file, before).stopped {
      i := StoppedIn(c, file, before);
      assert before[..i] == script[..i] && before[i] == script[i];
    } else {
      i := n;
      TurnStops(c, Run(c, file, before), script[n]);
    }
  }

  lemma {:induction false} StopsFrom(c: Config, file: Bytes, script: seq<Turn>, i: nat)
    requires StopsAt(c, file, script, i)
    ensures Run(c, file, script).stopped
  {
    var s := Run(c, file, script[..i]);
    assert script[..i + 1][..i] == script[..i];
    if !s.stopped {
      TurnStops(c, s, script[i]);
    }
    StaysStopped(c, file, script, i + 1);
  }

  /** The worker stops exactly when it meets the exit event. The end of the file alone never stops it. */
  lemma {:induction false} StopsIff(c: Config, file: Bytes, script: seq<Turn>)
    ensures Run(c, file, script).stopped <==> exists i :: StopsAt(c, file, script, i)
  {
    if Run(c, file, script).stopped {
      var i := StoppedIn(c, file, script);
    }
    if i :| StopsAt(c, file, script, i) {
      StopsFrom(c, file, script, i);
    }
  }

  /** The exit event is never set. */
  predicate NoExit(script: seq<Turn>) {
    forall i :: 0 <= i < |script| ==> !script[i].exit && !script[i].read.ExitWhilePending?
  }

  /** Without an exit event the worker polls on for ever, however often it meets the end of the file. */
  lemma NeverStops(c: Config, file: Bytes, script: seq<Turn>)
    ensures NoExit(script) ==> !Run(c, file, script).stopped
  {
    StopsIff(c, file, script);
  }

  // ----- nothing is left behind

  /** A turn in which nothing is appended and the read takes something if there is anything. */
  predicate Eager(t: Turn) {
    t.appended == [] && t.read.Completed? && 0 < t.read.most
  }

  /** Once appends stop, at most one turn per missing byte brings the offset to the end of the file, unless the
      size asked for is cut to 0. */
  lemma {:induction false} CatchesUp(c: Config, file: Bytes, before: seq<Turn>, quiet: seq<Turn>)
    requires Request(c) != 0 && forall i :: 0 <= i < |quiet| ==> Eager(quiet[i])
    requires !Run(c, file, before).stopped
    ensures var s, s' := Run(c, file, before), Run(c, file, before + quiet);
      s'.file == s.file && (s'.offset == |s.file| || (!s'.stopped && s.offset + |quiet| <= s'.offset))
  {
    if quiet == [] {
      assert before + quiet == before;
    } else {
      var n := |quiet| - 1;
      CatchesUp(c, file, before, quiet[..n]);
      assert (before + quiet)[..|before + quiet| - 1] == before + quiet[..n];
      assert Eager(quiet[n]);
      var s := Run(c, file, before + quiet[..n]);
      assert Appended(s, quiet[n]) == s;
    }
  }

  /** So then every byte from the start point on has been delivered. */
  lemma {:induction false} EverythingDelivered(c: Config, file: Bytes, before: seq<Turn>, quiet: seq<Turn>)
    requires Request(c) != 0 && !Run(c, file, before).stopped && |Run(c, file, before).file| <= |quiet|
    requires forall i :: 0 <= i < |quiet| ==> Eager(quiet[i])
    ensures var s := Run(c, file, before + quiet);
      s.file == Run(c, file, before).file && Flat(s.calls) == Wanted(c, s.file, |s.file|)
  {
    CatchesUp(c, file, before, quiet);
    CallsExact(c, file, before + quiet);
  }

  // ----- exactly which buffer sizes work

  /** The exit event is not set, nothing more is appended, and there is a turn for every byte of the file. */
  predicate Enough(file: Bytes, before: seq<Turn>, quiet: seq<Turn>) {
    && NoExit(before) && |file + Appends(before)| <= |quiet|
    && forall i :: 0 <= i < |quiet| ==> Eager(quiet[i])
  }

  /** Enough quiet turns deliver all of the file, with all that was appended, from the start point on. */
  ghost predicate Delivers(c: Config, file: Bytes, before: seq<Turn>, quiet: seq<Turn>) {
    Enough(file, before, quiet) ==>
      var all := file + Appends(before);
      Flat(Run(c, file, before + quiet).calls) == Wanted(c, all, |all|)
  }

  /** A request cut to 0 bytes never reads anything. */
  lemma {:induction false} NothingRead(c: Config, file: Bytes, script: seq<Turn>)
    requires Request(c) == 0
    ensures Run(c, file, script).offset == 0 && Run(c, file, script).calls == []
  {
    if script != [] {
      NothingRead(c, file, script[..|script| - 1]);
    }
  }

  /** The trigger delivers everything, in every run, if and only if the buffer's size is not a multiple of 2^32. */
  lemma DeliversIff(c: Config)
    ensures (forall file: Bytes, before: seq<Turn>, quiet: seq<Turn> :: Delivers(c, file, before, quiet)) <==>
      c.bufferSize % WORD != 0
  {
    if Request(c) != 0 {
      forall file: Bytes, before: seq<Turn>, quiet: seq<Turn>
        ensures Delivers(c, file, before, quiet)
      {
        Settles(c, file, before, quiet);
      }
    } else {
      NotDelivered(c, seq(c.boundary + 1, _ => 0), seq(c.boundary + 1, _ => Turn([], Completed(1), false)));
    }
  }

  /** A file one byte longer than the boundary, and turns enough. */
  lemma NotDelivered(c: Config, file: Bytes, quiet: seq<Turn>)
    requires Request(c) == 0 && |file| == |quiet| == c.boundary + 1 && forall i :: 0 <= i < |quiet| ==> Eager(quiet[i])
    ensures !Delivers(c, file, [], quiet)
  {
    assert [] + quiet == quiet;
    NothingRead(c, file, quiet);
    assert file + Appends([]) == file && Wanted(c, file, |file|) != [];
  }

  lemma Settles(c: Config, file: Bytes, before: seq<Turn>, quiet: seq<Turn>)
    requires Request(c) != 0
    ensures Delivers(c, file, before, quiet)
  {
    if Enough(file, before, quiet) {
      NeverStops(c, file, before);
      FileIs(c, file, before);
      EverythingDelivered(c, file, before, quiet);
    }
  }
}
