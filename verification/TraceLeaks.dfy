/** Which traces stay open when calls raise, and how a sequence of calls ends. */
module TraceLeaks {
  import opened Prelude
  import opened FlowContracts
  import opened TraceForest

  // A wrapped API call pops its trace on both exits; a nested tool call pops only when it returns, so
  // an exception leaves its trace on the stack.

  datatype Kind = NestedTool | Wrapped

  /** What a traced function does: a sequence of calls, each with its own body, the error it raises
      after its body if any, and whether its caller handles an error or lets it propagate. */
  datatype Program =
    | End
    | Run(kind: Kind, name: string, result: Value, body: Program, fails: Option<string>, handled: bool, rest: Program)

  // The error a sequence of calls ends with.
  function Raised(p: Program): Option<string>
    decreases p, 1
  {
    match p
    case End => None
    case Run(_, _, _, _, _, handled, rest) =>
      var own := OwnError(p);
      if own.Some? && !handled then own else Raised(rest)
  }

  // The error of the first call: one from inside it, or its own.
  function OwnError(p: Program): Option<string>
    requires p.Run?
    decreases p, 0
  {
    if Raised(p.body).Some? then Raised(p.body) else p.fails
  }

  predicate Stops(p: Program)
    requires p.Run?
  {
    OwnError(p).Some? && !p.handled
  }

  predicate Leaking(p: Program)
    requires p.Run?
  {
    OwnError(p).Some? && p.kind.NestedTool?
  }

  // How the first call leaves the tracer, after its body.
  function Leave(inside: Arena, p: Program): (r: Arena)
    requires WellFormed(inside) && inside.stack != [] && p.Run?
    ensures WellFormed(r) && |r.records| == |inside.records|
    ensures r.stack == if Leaking(p) then inside.stack else inside.stack[..|inside.stack| - 1]
  {
    if OwnError(p).None? then Popped(inside, Some(p.result), None)
    else if p.kind.Wrapped? then Popped(inside, None, OwnError(p))
    else inside
  }

  lemma {:induction false} InitExtends(s: seq<nat>, x: nat, longer: seq<nat>)
    requires s + [x] <= longer
    ensures longer != [] && s <= longer && s <= longer[..|longer| - 1]
  {
    assert s == (s + [x])[..|s|];
  }

  // The body of a call only adds traces, and its end takes at most the call's own from the stack.
  lemma {:induction false} LeaveKeeps(a: Arena, name: string, inside: Arena, p: Program)
    requires WellFormed(a) && WellFormed(inside) && p.Run?
    requires |Pushed(a, name).records| <= |inside.records| && Pushed(a, name).stack <= inside.stack
    ensures inside.stack != [] && WellFormed(Leave(inside, p))
    ensures |a.records| <= |Leave(inside, p).records| && a.stack <= Leave(inside, p).stack
  {
    assert Pushed(a, name).stack == a.stack + [|a.records|];
    InitExtends(a.stack, |a.records|, inside.stack);
  }

  lemma {:induction false} PrefixTransitive(a: seq<nat>, b: seq<nat>, c: seq<nat>)
    requires a <= b && b <= c
    ensures a <= c
  {
  }

  // What the tracer does along the way.
  function Exec(a: Arena, p: Program): (r: Arena)
    requires WellFormed(a)
    ensures WellFormed(r) && |a.records| <= |r.records| && a.stack <= r.stack
    decreases p
  {
    match p
    case End => a
    case Run(_, name, _, body, _, _, rest) =>
      var inside := Exec(Pushed(a, name), body);
      LeaveKeeps(a, name, inside, p);
      var after := Leave(inside, p);
      if Stops(p) then after
      else
        var r := Exec(after, rest);
        PrefixTransitive(a.stack, after.stack, r.stack);
        r
  }

  // How many nested tool calls raise on the way.
  function Leaks(p: Program): nat {
    match p
    case End => 0
    case Run(_, _, _, body, _, _, rest) =>
      Leaks(body) + (if Leaking(p) then 1 else 0) + (if Stops(p) then 0 else Leaks(rest))
  }

  // The calls that are made.
  function Executed(p: Program): Forest {
    match p
    case End => Nothing
    case Run(_, name, result, body, _, _, rest) =>
      var error := OwnError(p);
      Call(name, if error.None? then Some(result) else None, error, Executed(body),
           if Stops(p) then Nothing else Executed(rest))
  }

  /** How one call without calls inside it ends: if it returns, its trace is closed with the result; if it
      raises, the trace of an API call is closed with the error and that of a nested tool stays open. */
  lemma {:induction false} OneCall(a: Arena, p: Program, inside: Arena)
    requires WellFormed(a) && p.Run? && p.body == End && p.rest == End
    requires inside == Pushed(a, p.name) && WellFormed(inside) && inside.stack != []
    ensures p.fails.None? ==> Exec(a, p) == Popped(inside, Some(p.result), None)
    ensures p.fails.Some? && p.kind.Wrapped? ==> Exec(a, p) == Popped(inside, None, p.fails)
    ensures p.fails.Some? && p.kind.NestedTool? ==> Exec(a, p) == inside
  {
    assert Raised(p.body).None? && OwnError(p) == p.fails;
    assert Exec(a, p) == Leave(inside, p) by {
      assert Exec(inside, p.body) == inside;
      assert Exec(Leave(inside, p), p.rest) == Leave(inside, p);
    }
  }

  /** An error that is not handled, from inside a call or its own, ends the sequence and is its error; after
      any other call the sequence goes on with the rest. */
  lemma {:induction false} Propagation(a: Arena, p: Program)
    requires WellFormed(a) && p.Run?
    ensures var own := if Raised(p.body).Some? then Raised(p.body) else p.fails;
      if own.Some? && !p.handled
      then Raised(p) == own && Exec(a, p) == Exec(a, p.(rest := End))
      else Raised(p) == Raised(p.rest) && Exec(a, p) == Exec(Exec(a, p.(rest := End)), p.rest)
  {
    var alone := p.(rest := End);
    var after := Leave(Exec(Pushed(a, p.name), p.body), p);
    assert OwnError(alone) == OwnError(p);
    assert Exec(a, alone) == after by {
      assert Exec(after, End) == after;
    }
  }

  /** Every nested tool call that raises leaves one trace on the stack, and nothing else does. */
  lemma {:induction false} StackGrowsByLeaks(a: Arena, p: Program)
    requires WellFormed(a)
    ensures |Exec(a, p).stack| == |a.stack| + Leaks(p)
    decreases p
  {
    if p.Run? {
      StackGrowsByLeaks(Pushed(a, p.name), p.body);
      if !Stops(p) {
        StackGrowsByLeaks(Leave(Exec(Pushed(a, p.name), p.body), p), p.rest);
      }
    }
  }

  // The open traces are those on the stack.
  ghost predicate OpenOnStack(a: Arena) {
    forall i: nat :: i < |a.records| ==> (a.records[i].closed <==> i !in a.stack)
  }

  lemma {:induction false} PushedOpen(a: Arena, name: string)
    requires WellFormed(a) && OpenOnStack(a)
    ensures OpenOnStack(Pushed(a, name))
  {
    var b := Pushed(a, name);
    assert b.stack == a.stack + [|a.records|];
    assert |a.records| !in a.stack;
  }

  lemma {:induction false} PoppedOpen(a: Arena, output: Option<Value>, error: Option<string>)
    requires WellFormed(a) && OpenOnStack(a) && a.stack != []
    ensures OpenOnStack(Popped(a, output, error))
  {
    var b, top := Popped(a, output, error), a.stack[|a.stack| - 1];
    assert a.stack == b.stack + [top];
    assert top !in b.stack;
  }

  lemma {:induction false} ExecOpen(a: Arena, p: Program)
    requires WellFormed(a) && OpenOnStack(a)
    ensures OpenOnStack(Exec(a, p))
    decreases p
  {
    if p.Run? {
      PushedOpen(a, p.name);
      ExecOpen(Pushed(a, p.name), p.body);
      LeaveOpen(Exec(Pushed(a, p.name), p.body), p);
      if !Stops(p) {
        ExecOpen(Leave(Exec(Pushed(a, p.name), p.body), p), p.rest);
      }
    }
  }

  lemma {:induction false} LeaveOpen(inside: Arena, p: Program)
    requires WellFormed(inside) && OpenOnStack(inside) && inside.stack != [] && p.Run?
    ensures OpenOnStack(Leave(inside, p))
  {
    if OwnError(p).None? {
      PoppedOpen(inside, Some(p.result), None);
    } else if p.kind.Wrapped? {
      PoppedOpen(inside, None, OwnError(p));
    }
  }

  /** Without such calls the tracer records the executed calls as properly nested ones. */
  lemma {:induction false} NoLeakIsPlay(a: Arena, p: Program)
    requires WellFormed(a) && Leaks(p) == 0
    ensures Exec(a, p) == Play(a, Executed(p))
    decreases p
  {
    if p.Run? {
      NoLeakIsPlay(Pushed(a, p.name), p.body);
      if !Stops(p) {
        NoLeakIsPlay(Leave(Exec(Pushed(a, p.name), p.body), p), p.rest);
      }
    }
  }

  // A node run: a fresh tracer, and a tool whose trace is popped on both exits.
  function NodeRun(name: string, result: Value, body: Program, fails: Option<string>): Program {
    Run(Wrapped, name, result, body, fails, true, End)
  }

  /** The trace of a node run is closed, with all the others, if and only if no nested tool call raised;
      then the trace forest is the forest of the executed calls. */
  lemma {:induction false} NodeTraceClosedIff(name: string, result: Value, body: Program, fails: Option<string>)
    ensures var p := NodeRun(name, result, body, fails);
      var a := Exec(EMPTY_ARENA, p);
      && |a.records| > 0
      && (a.records[0].closed <==> Leaks(body) == 0)
      && ((forall i :: 0 <= i < |a.records| ==> a.records[i].closed) <==> Leaks(body) == 0)
      && (Leaks(body) == 0 ==> a == Play(EMPTY_ARENA, Executed(p)))
  {
    var p := NodeRun(name, result, body, fails);
    var a := Exec(EMPTY_ARENA, p);
    StackGrowsByLeaks(EMPTY_ARENA, p);
    ExecOpen(EMPTY_ARENA, p);
    RootAtBottom(name, result, body, fails);
    if Leaks(body) == 0 {
      NoLeakIsPlay(EMPTY_ARENA, p);
    }
  }

  lemma {:induction false} RootAtBottom(name: string, result: Value, body: Program, fails: Option<string>)
    ensures var a := Exec(EMPTY_ARENA, NodeRun(name, result, body, fails));
      |a.records| > 0 && (a.stack != [] ==> a.stack[0] == 0)
  {
    var inside := Exec(Pushed(EMPTY_ARENA, name), body);
    assert Pushed(EMPTY_ARENA, name).stack == [0];
    assert inside.stack[0] == 0;
  }

  // A tool that calls another one and handles its error.
  function LeakingBody(): Program {
    Run(NestedTool, "inner", Null, End, Some("failed"), true, End)
  }

  /** A node run with such a body: the result of the node closes the trace of the inner call, and the
      trace of the node itself stays open. */
  lemma {:induction false} LeakLeavesRootOpen(name: string, result: Value)
    ensures var a := Exec(EMPTY_ARENA, NodeRun(name, result, LeakingBody(), None));
      && a.stack == [0]
      && a.records == [Record(name, None, None, false, [1]), Record("inner", Some(result), None, true, [])]
  {
    LeakingInside(Pushed(EMPTY_ARENA, name));
    GoodNodeRun(name, result, LeakingBody());
    TwoPushed(name, "inner");
  }

  lemma {:induction false} LeakingInside(a: Arena)
    requires WellFormed(a)
    ensures Exec(a, LeakingBody()) == Pushed(a, "inner") && Raised(LeakingBody()).None?
  {
    assert Exec(Pushed(a, "inner"), End) == Pushed(a, "inner");
  }

  lemma {:induction false} GoodNodeRun(name: string, result: Value, body: Program)
    requires Raised(body).None?
    ensures var inside := Exec(Pushed(EMPTY_ARENA, name), body);
      inside.stack != [] && Exec(EMPTY_ARENA, NodeRun(name, result, body, None)) == Popped(inside, Some(result), None)
  {
    var p := NodeRun(name, result, body, None);
    LeaveKeeps(EMPTY_ARENA, name, Exec(Pushed(EMPTY_ARENA, name), body), p);
  }

  lemma {:induction false} TwoPushed(outer: string, inner: string)
    ensures Pushed(Pushed(EMPTY_ARENA, outer), inner)
         == Arena([Record(outer, None, None, false, [1]), Record(inner, None, None, false, [])], [0], [0, 1])
  {
    var record := Record(outer, None, None, false, []);
    PushedOnOne(record, inner);
    assert record.children + [1] == [1];
    assert Pushed(EMPTY_ARENA, outer) == Arena([Record(outer, None, None, false, [])], [0], [0]);
  }

  lemma {:induction false} PushedOnOne(record: Record, name: string)
    ensures Pushed(Arena([record], [0], [0]), name)
         == Arena([record.(children := record.children + [1]), Record(name, None, None, false, [])], [0], [0, 1])
  {
    assert [record][0 := record.(children := record.children + [1])] == [record.(children := record.children + [1])];
  }
}
