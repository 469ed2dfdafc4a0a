/** What pushing and popping traces builds: a forest of calls, in the order of the calls. */
module TraceForest {
  import opened Prelude
  import opened FlowContracts

  // Trace objects are records of an arena, named by their position; the mutable tracer is in the
  // module Tracer.

  datatype Record = Record(name: string, output: Option<Value>, error: Option<string>, closed: bool, children: seq<nat>)

  datatype Arena = Arena(records: seq<Record>, roots: seq<nat>, stack: seq<nat>)

  const EMPTY_ARENA := Arena([], [], [])

  ghost predicate WellFormed(a: Arena) {
    && (forall i :: 0 <= i < |a.stack| ==> a.stack[i] < |a.records|)
    && forall i, j :: 0 <= i < j < |a.stack| ==> a.stack[i] < a.stack[j]
  }

  // A new trace becomes a root, or the last child of the trace on top of the stack.
  function Pushed(a: Arena, name: string): Arena
    requires WellFormed(a)
  {
    var id := |a.records|;
    var record := Record(name, None, None, false, []);
    if a.stack == [] then Arena(a.records + [record], a.roots + [id], [id])
    else
      var top := a.stack[|a.stack| - 1];
      var parent := a.records[top];
      Arena(a.records[top := parent.(children := parent.children + [id])] + [record], a.roots, a.stack + [id])
  }

  // The trace on top is closed with its output or its error, and leaves the stack.
  function Popped(a: Arena, output: Option<Value>, error: Option<string>): Arena
    requires WellFormed(a) && a.stack != []
  {
    var top := a.stack[|a.stack| - 1];
    var r := a.records[top];
    var done := r.(output := if output.Some? then output else r.output,
                   error := if error.Some? then error else r.error,
                   closed := true);
    Arena(a.records[top := done], a.roots, a.stack[..|a.stack| - 1])
  }

  // ---------- properly nested calls ----------

  // A forest of calls: the first call with the calls made inside it, then the calls after it.
  datatype Forest =
    | Nothing
    | Call(name: string, output: Option<Value>, error: Option<string>, inner: Forest, next: Forest)

  function Size(f: Forest): nat {
    match f
    case Nothing => 0
    case Call(_, _, _, inner, next) => 1 + Size(inner) + Size(next)
  }

  // The pushes and pops of the calls, in their order.
  function Play(a: Arena, f: Forest): (r: Arena)
    requires WellFormed(a)
    ensures WellFormed(r) && r.stack == a.stack && |r.records| == |a.records| + Size(f)
    decreases f
  {
    match f
    case Nothing => a
    case Call(name, output, error, inner, next) =>
      var inside := Play(Pushed(a, name), inner);
      PopsBack(a, name, inside, output, error);
      Play(Popped(inside, output, error), next)
  }

  // A pop after a push, and whatever came between them, leaves the stack as it was.
  lemma {:induction false} PopsBack(a: Arena, name: string, inside: Arena, output: Option<Value>, error: Option<string>)
    requires WellFormed(a) && WellFormed(inside) && inside.stack == Pushed(a, name).stack
    ensures inside.stack != [] && WellFormed(Popped(inside, output, error))
    ensures Popped(inside, output, error).stack == a.stack
        && |Popped(inside, output, error).records| == |inside.records|
  {
    assert inside.stack == a.stack + [|a.records|];
  }

  // The positions the outermost calls get when the first free one is n.
  function TopIds(n: nat, f: Forest): seq<nat>
    decreases f
  {
    match f
    case Nothing => []
    case Call(_, _, _, inner, next) => [n] + TopIds(n + 1 + Size(inner), next)
  }

  // The records of a forest, laid out from position n in the order of the calls.
  function Layout(n: nat, f: Forest): (records: seq<Record>)
    ensures |records| == Size(f)
    decreases f
  {
    match f
    case Nothing => []
    case Call(name, output, error, inner, next) =>
      [Record(name, output, error, true, TopIds(n + 1, inner))]
      + Layout(n + 1, inner) + Layout(n + 1 + Size(inner), next)
  }

  // New outermost calls are appended to the roots, or to the children of the trace on top.
  function Grown(a: Arena, ids: seq<nat>, records: seq<Record>): Arena
    requires WellFormed(a)
  {
    if a.stack == [] then Arena(a.records + records, a.roots + ids, [])
    else
      var top := a.stack[|a.stack| - 1];
      var parent := a.records[top];
      Arena(a.records[top := parent.(children := parent.children + ids)] + records, a.roots, a.stack)
  }

  lemma {:induction false} GrownTwice(
    a: Arena, ids1: seq<nat>, records1: seq<Record>, ids2: seq<nat>, records2: seq<Record>)
    requires WellFormed(a)
    ensures WellFormed(Grown(a, ids1, records1))
    ensures Grown(Grown(a, ids1, records1), ids2, records2) == Grown(a, ids1 + ids2, records1 + records2)
  {
    if a.stack == [] {
      assert a.roots + ids1 + ids2 == a.roots + (ids1 + ids2);
      assert a.records + records1 + records2 == a.records + (records1 + records2);
    } else {
      var top := a.stack[|a.stack| - 1];
      var parent := a.records[top];
      assert parent.children + ids1 + ids2 == parent.children + (ids1 + ids2);
      var b := Grown(a, ids1, records1);
      assert b.records[top := b.records[top].(children := b.records[top].children + ids2)] + records2
          == a.records[top := parent.(children := parent.children + (ids1 + ids2))] + (records1 + records2);
    }
  }

  lemma {:induction false} UpdateLast<T>(s: seq<T>, x: T, y: T)
    ensures (s + [x])[|s| := y] == s + [y]
  {
  }

  lemma {:induction false} UpdateMiddle<T>(s: seq<T>, x: T, y: T, rest: seq<T>)
    ensures (s + [x] + rest)[|s|] == x
    ensures (s + [x] + rest)[|s| := y] == s + ([y] + rest)
  {
  }

  // What a push does to the older traces.
  function Adopted(a: Arena): seq<Record>
    requires WellFormed(a)
    ensures |Adopted(a)| == |a.records|
  {
    if a.stack == [] then a.records
    else
      var top := a.stack[|a.stack| - 1];
      var parent := a.records[top];
      a.records[top := parent.(children := parent.children + [|a.records|])]
  }

  lemma {:induction false} PushedParts(a: Arena, name: string)
    requires WellFormed(a)
    ensures WellFormed(Pushed(a, name))
    ensures Pushed(a, name).records == Adopted(a) + [Record(name, None, None, false, [])]
    ensures Pushed(a, name).stack == a.stack + [|a.records|]
    ensures Pushed(a, name).roots == if a.stack == [] then a.roots + [|a.records|] else a.roots
  {
  }

  lemma {:induction false} GrownPushed(a: Arena, name: string, ids: seq<nat>, records: seq<Record>)
    requires WellFormed(a)
    ensures WellFormed(Pushed(a, name))
    ensures var grown := Grown(Pushed(a, name), ids, records);
      && WellFormed(grown)
      && grown.records == Adopted(a) + [Record(name, None, None, false, ids)] + records
      && grown.stack == a.stack + [|a.records|]
      && grown.roots == Pushed(a, name).roots
  {
    PushedParts(a, name);
    assert [] + ids == ids;
    UpdateLast(Adopted(a), Record(name, None, None, false, []), Record(name, None, None, false, ids));
  }

  // One call with everything inside it.
  lemma {:induction false} CallGrows(
    a: Arena, name: string, output: Option<Value>, error: Option<string>, ids: seq<nat>, records: seq<Record>)
    requires WellFormed(a)
    ensures var n := |a.records|;
      && WellFormed(Pushed(a, name))
      && WellFormed(Grown(Pushed(a, name), ids, records))
      && Popped(Grown(Pushed(a, name), ids, records), output, error)
         == Grown(a, [n], [Record(name, output, error, true, ids)] + records)
  {
    GrownPushed(a, name, ids, records);
    PushedParts(a, name);
    UpdateMiddle(Adopted(a), Record(name, None, None, false, ids), Record(name, output, error, true, ids), records);
    assert (a.stack + [|a.records|])[..|a.stack|] == a.stack;
  }

  // The records of the first call of a forest and of everything inside it.
  function FirstRecords(n: nat, f: Forest): (records: seq<Record>)
    requires f.Call?
    ensures |records| == 1 + Size(f.inner)
  {
    [Record(f.name, f.output, f.error, true, TopIds(n + 1, f.inner))] + Layout(n + 1, f.inner)
  }

  lemma {:induction false} LayoutCall(n: nat, f: Forest)
    requires f.Call?
    ensures var m := n + 1 + Size(f.inner);
      TopIds(n, f) == [n] + TopIds(m, f.next) && Layout(n, f) == FirstRecords(n, f) + Layout(m, f.next)
  {
  }

  // The first call of a forest with everything inside it, as an addition to the arena.
  function AfterFirst(a: Arena, f: Forest): Arena
    requires WellFormed(a) && f.Call?
  {
    Grown(a, [|a.records|], FirstRecords(|a.records|, f))
  }

  lemma {:induction false} FirstCallGrows(a: Arena, f: Forest, inside: Arena)
    requires WellFormed(a) && f.Call?
    requires var pushed := Pushed(a, f.name);
      WellFormed(pushed) && inside == Grown(pushed, TopIds(|a.records| + 1, f.inner), Layout(|a.records| + 1, f.inner))
    ensures WellFormed(inside) && inside.stack != [] && Popped(inside, f.output, f.error) == AfterFirst(a, f)
  {
    var n := |a.records|;
    CallGrows(a, f.name, f.output, f.error, TopIds(n + 1, f.inner), Layout(n + 1, f.inner));
  }

  lemma {:induction false} PlayCall(a: Arena, f: Forest, inside: Arena, b: Arena)
    requires WellFormed(a) && f.Call? && inside == Play(Pushed(a, f.name), f.inner)
    requires WellFormed(inside) && inside.stack != [] && b == Popped(inside, f.output, f.error) && WellFormed(b)
    ensures Play(a, f) == Play(b, f.next)
  {
  }

  lemma {:induction false} AfterFirstFacts(a: Arena, f: Forest)
    requires WellFormed(a) && f.Call?
    ensures WellFormed(AfterFirst(a, f)) && |AfterFirst(a, f).records| == |a.records| + 1 + Size(f.inner)
  {
    GrownWellFormed(a, [|a.records|], FirstRecords(|a.records|, f));
  }

  lemma {:induction false} PlayFirst(a: Arena, f: Forest, inside: Arena)
    requires WellFormed(a) && f.Call? && inside == Play(Pushed(a, f.name), f.inner)
    requires inside == Grown(Pushed(a, f.name), TopIds(|a.records| + 1, f.inner), Layout(|a.records| + 1, f.inner))
    ensures WellFormed(AfterFirst(a, f)) && Play(a, f) == Play(AfterFirst(a, f), f.next)
  {
    FirstCallGrows(a, f, inside);
    AfterFirstFacts(a, f);
    PlayCall(a, f, inside, AfterFirst(a, f));
  }

  lemma {:induction false} GrownWellFormed(a: Arena, ids: seq<nat>, records: seq<Record>)
    requires WellFormed(a)
    ensures WellFormed(Grown(a, ids, records)) && |Grown(a, ids, records).records| == |a.records| + |records|
  {
  }

  lemma {:induction false} RestGrows(a: Arena, f: Forest)
    requires WellFormed(a) && f.Call? && WellFormed(AfterFirst(a, f))
    ensures var m := |a.records| + 1 + Size(f.inner);
      Grown(AfterFirst(a, f), TopIds(m, f.next), Layout(m, f.next)) ==
          Grown(a, TopIds(|a.records|, f), Layout(|a.records|, f))
  {
    var n := |a.records|;
    var m := n + 1 + Size(f.inner);
    LayoutCall(n, f);
    GrownTwice(a, [n], FirstRecords(n, f), TopIds(m, f.next), Layout(m, f.next));
  }

  lemma {:induction false} PushedArena(a: Arena, name: string) returns (b: Arena)
    requires WellFormed(a)
    ensures WellFormed(b) && b == Pushed(a, name) && |b.records| == |a.records| + 1
  {
    PushedParts(a, name);
    b := Pushed(a, name);
  }

  // The arena after the first call: what is left to play, and what is left to add.
  lemma {:induction false} FirstPlayed(a: Arena, f: Forest, inside: Arena) returns (b: Arena)
    requires WellFormed(a) && f.Call? && inside == Play(Pushed(a, f.name), f.inner)
    requires inside == Grown(Pushed(a, f.name), TopIds(|a.records| + 1, f.inner), Layout(|a.records| + 1, f.inner))
    ensures WellFormed(b) && Play(a, f) == Play(b, f.next)
    ensures Grown(b, TopIds(|b.records|, f.next), Layout(|b.records|, f.next)) ==
        Grown(a, TopIds(|a.records|, f), Layout(|a.records|, f))
  {
    b := AfterFirst(a, f);
    PlayFirst(a, f, inside);
    AfterFirstFacts(a, f);
    RestGrows(a, f);
  }

  /** Matched pushes and pops leave the stack where it was and add exactly the calls, each closed. */
  lemma {:induction false} PlayGrows(a: Arena, f: Forest)
    requires WellFormed(a)
    ensures Play(a, f) == Grown(a, TopIds(|a.records|, f), Layout(|a.records|, f))
    decreases f
  {
    if f.Nothing? {
      GrownByNothing(a);
    } else {
      var pushed := PushedArena(a, f.name);
      PlayGrows(pushed, f.inner);
      var b := FirstPlayed(a, f, Play(pushed, f.inner));
      PlayGrows(b, f.next);
    }
  }

  lemma {:induction false} GrownByNothing(a: Arena)
    requires WellFormed(a)
    ensures Grown(a, [], []) == a
  {
    if a.stack != [] {
      var top := a.stack[|a.stack| - 1];
      assert a.records[top].children + [] == a.records[top].children;
      assert a.records[top := a.records[top]] == a.records;
    }
    assert a.records + [] == a.records && a.roots + [] == a.roots;
  }

  // ---------- reading the forest back ----------

  // Children come after their parents.
  ghost predicate Downward(records: seq<Record>, lo: nat) {
    forall i, k :: lo <= i < |records| && 0 <= k < |records[i].children| ==> i < records[i].children[k] < |records|
  }

  ghost predicate Within(ids: seq<nat>, lo: nat, hi: nat) {
    forall k :: 0 <= k < |ids| ==> lo <= ids[k] < hi
  }

  // The forest below the given traces.
  ghost function Read(records: seq<Record>, ids: seq<nat>, lo: nat): Forest
    requires lo <= |records| && Downward(records, lo)
    requires Within(ids, lo, |records|)
    decreases |records| - lo, |ids|
  {
    if ids == [] then Nothing
    else
      var r := records[ids[0]];
      Call(r.name, r.output, r.error, Read(records, r.children, ids[0] + 1), Read(records, ids[1..], lo))
  }

  // The traces below the given ones, each before its children.
  ghost function Visit(records: seq<Record>, ids: seq<nat>, lo: nat): seq<nat>
    requires lo <= |records| && Downward(records, lo)
    requires Within(ids, lo, |records|)
    decreases |records| - lo, |ids|
  {
    if ids == [] then []
    else [ids[0]] + Visit(records, records[ids[0]].children, ids[0] + 1) + Visit(records, ids[1..], lo)
  }

  function Range(from: nat, count: nat): seq<nat> {
    seq(count, i requires 0 <= i < count => from + i)
  }

  // The records at the positions from n on are those of the forest.
  ghost predicate Holds(records: seq<Record>, n: nat, f: Forest) {
    n + Size(f) <= |records| && records[n..n + Size(f)] == Layout(n, f)
  }

  lemma {:induction false} HoldsParts(records: seq<Record>, n: nat, f: Forest)
    requires Holds(records, n, f) && f.Call?
    ensures records[n] == Record(f.name, f.output, f.error, true, TopIds(n + 1, f.inner))
    ensures Holds(records, n + 1, f.inner) && Holds(records, n + 1 + Size(f.inner), f.next)
  {
    LayoutCall(n, f);
    CallInSlice(records, n, Record(f.name, f.output, f.error, true, TopIds(n + 1, f.inner)),
                Layout(n + 1, f.inner), Layout(n + 1 + Size(f.inner), f.next), Layout(n, f));
  }

  lemma {:induction false} CallInSlice<T>(s: seq<T>, n: nat, x: T, a: seq<T>, b: seq<T>, all: seq<T>)
    requires all == [x] + a + b && n + |all| <= |s| && s[n..n + |all|] == all
    ensures s[n] == x && s[n + 1..n + 1 + |a|] == a && s[n + 1 + |a|..n + 1 + |a| + |b|] == b
  {
    SliceParts(s, n, x, a, b);
  }

  lemma {:induction false} SliceParts<T>(s: seq<T>, n: nat, x: T, a: seq<T>, b: seq<T>)
    requires n + 1 + |a| + |b| <= |s| && s[n..n + 1 + |a| + |b|] == [x] + a + b
    ensures s[n] == x && s[n + 1..n + 1 + |a|] == a && s[n + 1 + |a|..n + 1 + |a| + |b|] == b
  {
    var slice := s[n..n + 1 + |a| + |b|];
    assert slice[0] == s[n];
    forall i | 0 <= i < |a| ensures s[n + 1 + i] == a[i] {
      assert slice[1 + i] == s[n + 1 + i];
    }
    forall i | 0 <= i < |b| ensures s[n + 1 + |a| + i] == b[i] {
      assert slice[1 + |a| + i] == s[n + 1 + |a| + i];
    }
  }

  lemma {:induction false} TopIdsBounds(n: nat, f: Forest)
    ensures Within(TopIds(n, f), n, n + Size(f))
    decreases f
  {
    match f
    case Nothing =>
    case Call(_, _, _, inner, next) => TopIdsBounds(n + 1 + Size(inner), next);
  }

  lemma {:induction false} TopIdsWithin(records: seq<Record>, n: nat, f: Forest, lo: nat)
    requires lo <= n && n + Size(f) <= |records|
    ensures Within(TopIds(n, f), lo, |records|)
  {
    TopIdsBounds(n, f);
  }

  // The same, call by call.
  ghost predicate Laid(records: seq<Record>, n: nat, f: Forest)
    decreases f
  {
    match f
    case Nothing => true
    case Call(name, output, error, inner, next) =>
      && n < |records|
      && records[n] == Record(name, output, error, true, TopIds(n + 1, inner))
      && Laid(records, n + 1, inner)
      && Laid(records, n + 1 + Size(inner), next)
  }

  lemma {:induction false} HoldsLaid(records: seq<Record>, n: nat, f: Forest)
    requires Holds(records, n, f)
    ensures Laid(records, n, f)
    decreases f
  {
    if f.Call? {
      var m := n + 1 + Size(f.inner);
      assert n < |records| && records[n] == Record(f.name, f.output, f.error, true, TopIds(n + 1, f.inner))
          && Holds(records, n + 1, f.inner) && Holds(records, m, f.next) by {
        HoldsParts(records, n, f);
      }
      assert Laid(records, n + 1, f.inner) by {
        HoldsLaid(records, n + 1, f.inner);
      }
      assert Laid(records, m, f.next) by {
        HoldsLaid(records, m, f.next);
      }
    }
  }

  // The forest lies in the records from position n on, and may be read.
  ghost predicate Readable(records: seq<Record>, n: nat, f: Forest, lo: nat) {
    && lo <= n && n + Size(f) <= |records|
    && Downward(records, lo) && Laid(records, n, f) && Within(TopIds(n, f), lo, |records|)
  }

  lemma {:induction false} DownwardFrom(records: seq<Record>, lo: nat, from: nat)
    requires Downward(records, lo) && lo <= from
    ensures Downward(records, from)
  {
  }

  lemma {:induction false} ReadableParts(records: seq<Record>, n: nat, f: Forest, lo: nat)
    requires Readable(records, n, f, lo) && f.Call?
    ensures n < |records| && records[n] == Record(f.name, f.output, f.error, true, TopIds(n + 1, f.inner))
    ensures Readable(records, n + 1, f.inner, n + 1)
    ensures Readable(records, n + 1 + Size(f.inner), f.next, lo)
  {
    DownwardFrom(records, lo, n + 1);
    TopIdsWithin(records, n + 1, f.inner, n + 1);
    TopIdsWithin(records, n + 1 + Size(f.inner), f.next, lo);
  }

  // Reading the new traces gives back the call forest.
  lemma {:induction false} ReadBack(records: seq<Record>, n: nat, f: Forest, lo: nat)
    requires Readable(records, n, f, lo)
    ensures Read(records, TopIds(n, f), lo) == f
    decreases f
  {
    if f.Call? {
      ReadableParts(records, n, f, lo);
      ReadBack(records, n + 1, f.inner, n + 1);
      ReadBack(records, n + 1 + Size(f.inner), f.next, lo);
      ReadCall(records, n, f, lo);
    }
  }

  // Visiting them meets every new trace exactly once, in the order of the calls.
  lemma {:induction false} VisitBack(records: seq<Record>, n: nat, f: Forest, lo: nat)
    requires Readable(records, n, f, lo)
    ensures Visit(records, TopIds(n, f), lo) == Range(n, Size(f))
    decreases f
  {
    if f.Call? {
      ReadableParts(records, n, f, lo);
      VisitBack(records, n + 1, f.inner, n + 1);
      VisitBack(records, n + 1 + Size(f.inner), f.next, lo);
      VisitCall(records, n, f, lo);
    }
  }

  lemma {:induction false} RangeSplits(n: nat, a: nat, b: nat, total: nat)
    requires total == 1 + a + b
    ensures [n] + Range(n + 1, a) + Range(n + 1 + a, b) == Range(n, total)
  {
  }

  lemma {:induction false} ReadCall(records: seq<Record>, n: nat, f: Forest, lo: nat)
    requires Readable(records, n, f, lo) && f.Call?
    requires Readable(records, n + 1, f.inner, n + 1) && Readable(records, n + 1 + Size(f.inner), f.next, lo)
    requires records[n] == Record(f.name, f.output, f.error, true, TopIds(n + 1, f.inner))
    requires Read(records, TopIds(n + 1, f.inner), n + 1) == f.inner
    requires Read(records, TopIds(n + 1 + Size(f.inner), f.next), lo) == f.next
    ensures Read(records, TopIds(n, f), lo) == f
  {
    assert TopIds(n, f)[0] == n && TopIds(n, f)[1..] == TopIds(n + 1 + Size(f.inner), f.next);
  }

  lemma {:induction false} VisitCall(records: seq<Record>, n: nat, f: Forest, lo: nat)
    requires Readable(records, n, f, lo) && f.Call?
    requires Readable(records, n + 1, f.inner, n + 1) && Readable(records, n + 1 + Size(f.inner), f.next, lo)
    requires records[n] == Record(f.name, f.output, f.error, true, TopIds(n + 1, f.inner))
    requires Visit(records, TopIds(n + 1, f.inner), n + 1) == Range(n + 1, Size(f.inner))
    requires Visit(records, TopIds(n + 1 + Size(f.inner), f.next), lo) == Range(n + 1 + Size(f.inner), Size(f.next))
    ensures Visit(records, TopIds(n, f), lo) == Range(n, Size(f))
  {
    assert TopIds(n, f)[0] == n && TopIds(n, f)[1..] == TopIds(n + 1 + Size(f.inner), f.next);
    RangeSplits(n, Size(f.inner), Size(f.next), Size(f));
  }

  lemma {:induction false} LayoutDownward(n: nat, f: Forest)
    ensures forall i, k :: 0 <= i < Size(f) && 0 <= k < |Layout(n, f)[i].children| ==>
              n + i < Layout(n, f)[i].children[k] < n + Size(f)
    ensures forall i :: 0 <= i < Size(f) ==> Layout(n, f)[i].closed
    decreases f
  {
    match f
    case Nothing =>
    case Call(name, output, error, inner, next) =>
      LayoutDownward(n + 1, inner);
      LayoutDownward(n + 1 + Size(inner), next);
      TopIdsBounds(n + 1, inner);
      var a, b := Layout(n + 1, inner), Layout(n + 1 + Size(inner), next);
      var all := Layout(n, f);
      forall i | 0 <= i < Size(f)
        ensures all[i].closed && forall k :: 0 <= k < |all[i].children| ==> n + i < all[i].children[k] < n + Size(f)
      {
        if 0 < i <= |a| {
          assert all[i] == a[i - 1];
        } else if i > |a| {
          assert all[i] == b[i - 1 - |a|];
        }
      }
  }

  /** A whole run of a fresh tracer: the stack is empty again, every trace is closed, and the roots with
      their children are the call forest, each trace in exactly one place. */
  lemma {:induction false} TraceForestIsCallForest(f: Forest)
    ensures var a := Play(EMPTY_ARENA, f);
      && a.stack == [] && |a.records| == Size(f) && a.roots == TopIds(0, f)
      && (forall i :: 0 <= i < |a.records| ==> a.records[i].closed)
      && Downward(a.records, 0)
      && Within(a.roots, 0, |a.records|)
      && Read(a.records, a.roots, 0) == f
      && Visit(a.records, a.roots, 0) == Range(0, Size(f))
  {
    PlayGrows(EMPTY_ARENA, f);
    var a := Play(EMPTY_ARENA, f);
    assert a.records == Layout(0, f) && a.roots == TopIds(0, f);
    LayoutReadable(f);
    ReadBack(a.records, 0, f, 0);
    VisitBack(a.records, 0, f, 0);
  }

  lemma {:induction false} LayoutReadable(f: Forest)
    ensures Readable(Layout(0, f), 0, f, 0)
    ensures forall i :: 0 <= i < Size(f) ==> Layout(0, f)[i].closed
  {
    LayoutDownward(0, f);
    assert Layout(0, f)[0..0 + Size(f)] == Layout(0, f);
    HoldsLaid(Layout(0, f), 0, f);
    TopIdsWithin(Layout(0, f), 0, f, 0);
  }
}
