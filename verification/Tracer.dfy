/** The mutable tracer: trace objects linked by their lists of children, and a stack of open ones.
    Its state is an arena of TraceForest, and its methods are the steps defined there. */
module Tracer {
  import opened Prelude
  import opened FlowContracts
  import opened TraceForest

  class Trace {
    const name: string
    var output: Option<Value>
    var error: Option<string>
    var closed: bool
    var children: seq<Trace>

    constructor (name: string)
      ensures this.name == name && output == None && error == None && !closed && children == []
    {
      this.name := name;
      output, error, closed, children := None, None, false, [];
    }
  }

  class Tracer {
    var traces: seq<Trace>
    var traceStack: seq<Trace>
    // All traces in the order they were pushed, and the arena they represent.
    ghost var recorded: seq<Trace>
    ghost var arena: Arena

    // The traces are the ones at the given positions.
    static ghost predicate Links(all: seq<Trace>, ts: seq<Trace>, ids: seq<nat>) {
      |ts| == |ids| && forall k :: 0 <= k < |ids| ==> ids[k] < |all| && all[ids[k]] == ts[k]
    }

    static ghost predicate Represents(all: seq<Trace>, t: Trace, r: Record)
      reads t
    {
      && t.name == r.name && t.output == r.output && t.error == r.error && t.closed == r.closed
      && Links(all, t.children, r.children)
    }

    static lemma {:induction false} LinksGrow(all: seq<Trace>, trace: Trace, ts: seq<Trace>, ids: seq<nat>)
      requires Links(all, ts, ids)
      ensures Links(all + [trace], ts, ids)
      ensures Links(all + [trace], ts + [trace], ids + [|all|])
    {
    }

    ghost predicate Valid()
      reads this, recorded
    {
      && Distinct(recorded)
      && WellFormed(arena)
      && |arena.records| == |recorded|
      && Links(recorded, traces, arena.roots)
      && Links(recorded, traceStack, arena.stack)
      && forall i :: 0 <= i < |recorded| ==> Represents(recorded, recorded[i], arena.records[i])
    }

    constructor ()
      ensures Valid() && arena == EMPTY_ARENA && recorded == []
    {
      traces, traceStack, recorded, arena := [], [], [], EMPTY_ARENA;
    }

    // Records a trace that is not recorded yet and has no children.
    method Push(trace: Trace)
      requires Valid() && trace !in recorded
      requires !trace.closed && trace.output == None && trace.error == None && trace.children == []
      modifies this, recorded
      ensures Valid() && recorded == old(recorded) + [trace]
      ensures arena == Pushed(old(arena), trace.name)
      ensures traceStack == old(traceStack) + [trace]
      ensures traces == if old(traceStack) == [] then old(traces) + [trace] else old(traces)
      ensures old(traceStack) != [] ==>
        var top := old(traceStack)[|old(traceStack)| - 1]; top.children == old(top.children) + [trace]
    {
      LinksGrow(recorded, trace, traces, arena.roots);
      LinksGrow(recorded, trace, traceStack, arena.stack);
      ghost var all := recorded + [trace];
      if traceStack == [] {
        RecordsGrow(trace);
        traces := traces + [trace];
      } else {
        AddChild(traceStack[|traceStack| - 1], trace);
      }
      traceStack := traceStack + [trace];
      arena := Pushed(arena, trace.name);
      assert Represents(all, trace, arena.records[|all| - 1]);
      recorded := all;
    }

    lemma {:induction false} RecordsGrow(trace: Trace)
      requires Valid()
      ensures forall i :: 0 <= i < |recorded| ==> Represents(recorded + [trace], recorded[i], arena.records[i])
    {
      forall i | 0 <= i < |recorded| ensures Represents(recorded + [trace], recorded[i], arena.records[i]) {
        LinksGrow(recorded, trace, recorded[i].children, arena.records[i].children);
      }
    }

    // The child is not recorded yet: it will be at the next position.
    method AddChild(top: Trace, trace: Trace)
      requires Valid() && arena.stack != [] && top == recorded[arena.stack[|arena.stack| - 1]] && trace !in recorded
      modifies top`children
      ensures top.children == old(top.children) + [trace]
      ensures forall i :: 0 <= i < |recorded| ==>
          Represents(recorded + [trace], recorded[i], Pushed(arena, trace.name).records[i])
    {
      RecordsGrow(trace);
      LinksGrow(recorded, trace, top.children, arena.records[arena.stack[|arena.stack| - 1]].children);
      top.children := top.children + [trace];
    }

    // Popping from an empty stack is an index error.
    method Pop(output: Option<Value>, error: Option<string>) returns (ok: bool)
      requires Valid()
      modifies this, recorded
      ensures Valid() && recorded == old(recorded)
      ensures ok <==> old(arena).stack != []
      ensures arena == if ok then Popped(old(arena), output, error) else old(arena)
      ensures ok <==> old(traceStack) != []
      ensures traces == old(traces) && traceStack == if ok then old(traceStack)[..|old(traceStack)| - 1] else []
      ensures ok ==>
        var top := old(traceStack)[|old(traceStack)| - 1];
        && top.closed && top.children == old(top.children)
        && top.output == (if output.Some? then output else old(top.output))
        && top.error == (if error.Some? then error else old(top.error))
    {
      if traceStack == [] {
        return false;
      }
      Close(traceStack[|traceStack| - 1], output, error);
      traceStack := traceStack[..|traceStack| - 1];
      arena := Popped(arena, output, error);
      return true;
    }

    method Close(last: Trace, output: Option<Value>, error: Option<string>)
      requires Valid() && arena.stack != [] && last == recorded[arena.stack[|arena.stack| - 1]]
      modifies last`output, last`error, last`closed
      ensures last.closed && last.output == (if output.Some? then output else old(last.output))
      ensures last.error == if error.Some? then error else old(last.error)
      ensures forall i :: 0 <= i < |recorded| ==>
          Represents(recorded, recorded[i], Popped(arena, output, error).records[i])
    {
      if output.Some? {
        last.output := output;
      }
      if error.Some? {
        last.error := error;
      }
      last.closed := true;
    }
  }
}
