/** Taking a flag out of argc/argv in place. */
module ArgsEditor {

  /** An entry of argv: a null pointer, or the address of a C string and its text. */
  datatype Arg = Null | Text(address: nat, text: string)

  datatype Error = NegativeCount | NoArguments | NoValue

  datatype Result = Ok(found: bool) | Fail(error: Error)

  /** strcmp gives 0; a null entry equals no value. */
  predicate Matches(value: string, arg: Arg) {
    arg.Text? && arg.text == value
  }

  /** One entry, if it stays. */
  function Stays(value: string, arg: Arg): seq<Arg> {
    if Matches(value, arg) then [] else [arg]
  }

  /** One entry, if it is taken. */
  function Goes(value: string, arg: Arg): seq<Arg> {
    if Matches(value, arg) then [arg] else []
  }

  function Kept(value: string, args: seq<Arg>): seq<Arg> {
    if args == [] then []
    else
      var n := |args| - 1;
      Kept(value, args[..n]) + Stays(value, args[n])
  }

  /** The matching entries, the last one first. */
  function Taken(value: string, args: seq<Arg>): seq<Arg> {
    if args == [] then []
    else
      var n := |args| - 1;
      Goes(value, args[n]) + Taken(value, args[..n])
  }

  lemma {:induction false} Grow(value: string, args: seq<Arg>, n: nat)
    requires n < |args|
    ensures Kept(value, args[..n + 1]) == Kept(value, args[..n]) + Stays(value, args[n])
    ensures Taken(value, args[..n + 1]) == Goes(value, args[n]) + Taken(value, args[..n])
  {
    assert args[..n + 1][..n] == args[..n];
  }

  /** memmove of the entries behind idx one place down, and the one at idx to the end. */
  method MoveToEnd(argv: array<Arg>, idx: nat, argc: nat)
    requires idx < argc <= argv.Length
    modifies argv
    ensures argv[..] == Moved(old(argv[..]), idx, argc)
  {
    ghost var was := argv[..];
    var ptrval := argv[idx];
    var last := argc - 1;
    if idx < last {
      var i := idx;
      while i < last
        invariant idx <= i <= last
        invariant forall j :: 0 <= j < idx ==> argv[j] == was[j]
        invariant forall j :: idx <= j < i ==> argv[j] == was[j + 1]
        invariant forall j :: i <= j < argv.Length ==> argv[j] == was[j]
      {
        argv[i] := argv[i + 1];
        i := i + 1;
      }
      argv[last] := ptrval;
    }
    MovedAt(argv[..], was, idx, argc);
  }

  function Moved(s: seq<Arg>, idx: nat, argc: nat): seq<Arg>
    requires idx < argc <= |s|
  {
    s[..idx] + s[idx + 1..argc] + [s[idx]] + s[argc..]
  }

  lemma {:induction false} MovedAt(now: seq<Arg>, was: seq<Arg>, idx: nat, argc: nat)
    requires |now| == |was| && idx < argc <= |was|
    requires forall j :: 0 <= j < idx ==> now[j] == was[j]
    requires forall j :: idx <= j < argc - 1 ==> now[j] == was[j + 1]
    requires now[argc - 1] == was[idx] && forall j :: argc <= j < |now| ==> now[j] == was[j]
    ensures now == Moved(was, idx, argc)
  {
    assert now[idx..argc - 1] == was[idx + 1..argc];
    assert now == now[..idx] + now[idx..argc - 1] + [now[argc - 1]] + now[argc..];
  }

  /** The state of the loop when n entries of s have been looked at. */
  ghost predicate Sorted(now: seq<Arg>, s: seq<Arg>, count: nat, value: string, idx: nat, argc: nat, n: nat) {
    && idx <= argc <= count <= |s| == |now| && n == idx + (count - argc)
    && now[..idx] == Kept(value, s[..n]) && now[idx..argc] == s[n..count]
    && now[argc..count] == Taken(value, s[..n]) && now[count..] == s[count..]
  }

  lemma {:induction false} KeepSlices(now: seq<Arg>, s: seq<Arg>, count: nat, idx: nat, argc: nat, n: nat)
    requires idx < argc <= count <= |s| == |now| && n == idx + (count - argc) && now[idx..argc] == s[n..count]
    ensures now[idx] == s[n] && now[..idx + 1] == now[..idx] + [s[n]] && now[idx + 1..argc] == s[n + 1..count]
  {
    assert now[idx] == now[idx..argc][0];
    assert now[idx + 1..argc] == now[idx..argc][1..];
  }

  lemma {:induction false} Keep(now: seq<Arg>, s: seq<Arg>, count: nat, value: string, idx: nat, argc: nat, n: nat)
    requires Sorted(now, s, count, value, idx, argc, n) && idx < argc && !Matches(value, now[idx])
    ensures Sorted(now, s, count, value, idx + 1, argc, n + 1)
  {
    KeepSlices(now, s, count, idx, argc, n);
    Grow(value, s, n);
    assert [] + Taken(value, s[..n]) == Taken(value, s[..n]);
  }

  lemma {:induction false} TakeSlices(was: seq<Arg>, now: seq<Arg>, s: seq<Arg>, count: nat, idx: nat, argc: nat, n: nat)
    requires idx < argc <= count <= |s| == |was| && n == idx + (count - argc) && was[idx..argc] == s[n..count]
    requires now == Moved(was, idx, argc)
    ensures |now| == |was| && was[idx] == s[n] && now[..idx] == was[..idx] && now[idx..argc - 1] == s[n + 1..count]
    ensures now[argc - 1..count] == [s[n]] + was[argc..count] && now[count..] == was[count..]
  {
    assert was[idx] == was[idx..argc][0];
    assert now[idx..argc - 1] == was[idx + 1..argc] == was[idx..argc][1..];
  }

  lemma {:induction false} Take(was: seq<Arg>, now: seq<Arg>, s: seq<Arg>, count: nat, value: string,
                                idx: nat, argc: nat, n: nat)
    requires Sorted(was, s, count, value, idx, argc, n) && idx < argc && Matches(value, was[idx])
    requires now == Moved(was, idx, argc)
    ensures Sorted(now, s, count, value, idx, argc - 1, n + 1)
  {
    TakeSlices(was, now, s, count, idx, argc, n);
    Grow(value, s, n);
    assert Kept(value, s[..n]) + [] == Kept(value, s[..n]);
  }

  /** What the call leaves in argv. */
  ghost predicate Edited(now: seq<Arg>, s: seq<Arg>, count: nat, value: string) {
    && count <= |s| == |now|
    && now[..count] == Kept(value, s[..count]) + Taken(value, s[..count])
    && now[count..] == s[count..]
  }

  lemma {:induction false} Finish(now: seq<Arg>, s: seq<Arg>, count: nat, value: string, argc: nat, n: nat)
    requires Sorted(now, s, count, value, argc, argc, n)
    ensures Edited(now, s, count, value) && argc == |Kept(value, s[..count])|
    ensures count - argc == |Taken(value, s[..count])|
  {
    assert now[argc..argc] == [];
    assert n == count;
    assert now[..count] == now[..argc] + now[argc..count];
  }

  lemma {:induction false} Start(s: seq<Arg>, count: nat, value: string)
    requires count <= |s|
    ensures Sorted(s, s, count, value, 0, count, 0)
  {
    assert s[..0] == [] && s[count..count] == [];
  }

  /** A matching entry goes behind the ones still to look at. */
  method SetAside(argv: array<Arg>, idx: nat, argc: nat, value: string, ghost count: nat, ghost n: nat, ghost s: seq<Arg>)
    requires Sorted(argv[..], s, count, value, idx, argc, n) && idx < argc && Matches(value, argv[idx])
    modifies argv
    ensures Sorted(argv[..], s, count, value, idx, argc - 1, n + 1)
  {
    ghost var was := argv[..];
    MoveToEnd(argv, idx, argc);
    Take(was, argv[..], s, count, value, idx, argc, n);
  }

  /** The loop of is_arg_set. */
  method TakeOut(argc: nat, argv: array<Arg>, value: string) returns (found: bool, argc': nat)
    requires argc <= argv.Length
    modifies argv
    ensures Edited(argv[..], old(argv[..]), argc, value)
    ensures argc' == |Kept(value, old(argv[..])[..argc])|
    ensures found <==> Taken(value, old(argv[..])[..argc]) != []
  {
    ghost var s := argv[..];
    ghost var n: nat := 0;
    var left: int := argc;
    found := false;
    var idx: int := 0;
    Start(s, argc, value);
    while idx < left
      invariant 0 <= idx <= left <= argc
      invariant Sorted(argv[..], s, argc, value, idx, left, n)
      invariant found <==> left < argc
      decreases left - idx
    {
      var ptrval := argv[idx];
      if Matches(value, ptrval) {
        found := true;
        SetAside(argv, idx, left, value, argc, n, s);
        left := left - 1;
        idx := idx - 1;
      } else {
        Keep(argv[..], s, argc, value, idx, left, n);
      }
      idx := idx + 1;
      n := n + 1;
    }
    Finish(argv[..], s, argc, value, left, n);
    argc' := left;
  }

  /** is_arg_set: the arguments that do not match stay in order, the matching ones follow them in
      reverse, and the count drops to the ones that stay. */
  method IsArgSet(argc: int, argv: array?<Arg>, value: Arg) returns (r: Result, argc': int)
    requires argv != null ==> argc <= argv.Length
    modifies argv
    ensures r.Fail? <==> argc < 0 || argv == null || value == Null || value.text == ""
    ensures r.Fail? ==> argc' == argc && (argv != null ==> argv[..] == old(argv[..]))
    ensures r.Fail? ==> r.error == if argc < 0 then NegativeCount else if argv == null then NoArguments else NoValue
    ensures r.Ok? ==>
      var args := old(argv[..])[..argc];
      && argv[..][..argc] == Kept(value.text, args) + Taken(value.text, args)
      && argv[..][argc..] == old(argv[..])[argc..]
      && argc' == |Kept(value.text, args)| && (r.found <==> Taken(value.text, args) != [])
  {
    argc' := argc;
    if argc < 0 {
      return Fail(NegativeCount), argc';
    }
    if argv == null {
      return Fail(NoArguments), argc';
    }
    if value == Null || value.text == "" {
      return Fail(NoValue), argc';
    }
    var found;
    found, argc' := TakeOut(argc, argv, value.text);
    return Ok(found), argc';
  }

  // ----- what the result means

  /** No argument is lost or made up. */
  lemma {:induction false} SameArguments(value: string, args: seq<Arg>)
    ensures multiset(Kept(value, args) + Taken(value, args)) == multiset(args)
  {
    if args != [] {
      var n := |args| - 1;
      SameArguments(value, args[..n]);
      AddOne(value, Kept(value, args[..n]), Taken(value, args[..n]), args[n]);
      LastOne(args);
    }
  }

  lemma {:induction false} LastOne(args: seq<Arg>)
    requires args != []
    ensures multiset(args) == multiset(args[..|args| - 1]) + multiset{args[|args| - 1]}
  {
    assert args == args[..|args| - 1] + [args[|args| - 1]];
  }

  lemma {:induction false} AddOne(value: string, a: seq<Arg>, b: seq<Arg>, x: Arg)
    ensures multiset((a + Stays(value, x)) + (Goes(value, x) + b)) == multiset(a + b) + multiset{x}
  {
    if Matches(value, x) {
      assert (a + Stays(value, x)) + (Goes(value, x) + b) == a + [x] + b;
    } else {
      assert (a + Stays(value, x)) + (Goes(value, x) + b) == a + [x] + b;
    }
  }

  /** Exactly the entries with the flag's text are taken, wherever that text is stored; a null pointer and any
      other text stay. */
  lemma {:induction false} TakenMatch(value: string, args: seq<Arg>)
    ensures forall a :: a in Kept(value, args) <==> a in args && (a == Null || a.text != value)
    ensures forall a :: a in Taken(value, args) <==> a in args && a != Null && a.text == value
  {
    if args != [] {
      var n := |args| - 1;
      TakenMatch(value, args[..n]);
      assert args == args[..n] + [args[n]];
    }
  }

  lemma {:induction false} Untouched(value: string, args: seq<Arg>)
    requires forall a :: a in args ==> !Matches(value, a)
    ensures Kept(value, args) == args && Taken(value, args) == []
  {
    if args != [] {
      var n := |args| - 1;
      Untouched(value, args[..n]);
      assert args == args[..n] + [args[n]] && args[n] in args;
    }
  }

  /** Asking again for the same flag changes nothing and finds nothing. */
  lemma {:induction false} AskAgain(value: string, args: seq<Arg>)
    ensures Kept(value, Kept(value, args)) == Kept(value, args) && Taken(value, Kept(value, args)) == []
  {
    TakenMatch(value, args);
    Untouched(value, Kept(value, args));
  }

  lemma {:induction false} KeptConcat(value: string, a: seq<Arg>, b: seq<Arg>)
    ensures Kept(value, a + b) == Kept(value, a) + Kept(value, b)
  {
    if b == [] {
      assert a + b == a;
    } else {
      var n := |b| - 1;
      KeptConcat(value, a, b[..n]);
      assert (a + b)[..|a + b| - 1] == a + b[..n];
      Associative(Kept(value, a), Kept(value, b[..n]), Stays(value, b[n]));
    }
  }

  /** What stays keeps its order, and what is taken comes out in reverse. */
  lemma {:induction false} TakenConcat(value: string, a: seq<Arg>, b: seq<Arg>)
    ensures Kept(value, a + b) == Kept(value, a) + Kept(value, b)
    ensures Taken(value, a + b) == Taken(value, b) + Taken(value, a)
  {
    KeptConcat(value, a, b);
    if b == [] {
      assert a + b == a;
    } else {
      var n := |b| - 1;
      TakenConcat(value, a, b[..n]);
      assert (a + b)[..|a + b| - 1] == a + b[..n];
      Associative(Goes(value, b[n]), Taken(value, b[..n]), Taken(value, a));
    }
  }

  lemma {:induction false} Associative(a: seq<Arg>, b: seq<Arg>, c: seq<Arg>)
    ensures a + (b + c) == a + b + c
  {
  }

  lemma {:induction false} OneInAnyOrder(v: string, w: string, x: Arg)
    ensures Kept(v, Stays(w, x)) == Kept(w, Stays(v, x))
  {
    assert [x][..0] == [];
  }

  /** Flags can be asked for in any order. */
  lemma {:induction false} AnyOrder(v: string, w: string, args: seq<Arg>)
    ensures Kept(v, Kept(w, args)) == Kept(w, Kept(v, args))
  {
    if args != [] {
      var n := |args| - 1;
      AnyOrder(v, w, args[..n]);
      KeptConcat(v, Kept(w, args[..n]), Stays(w, args[n]));
      KeptConcat(w, Kept(v, args[..n]), Stays(v, args[n]));
      OneInAnyOrder(v, w, args[n]);
    }
  }
}
