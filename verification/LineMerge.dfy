/** Joining several input lists line by line. */
module LineMerge {
  import opened Prelude
  import opened FlowContracts

  const LINE_NUMBER_KEY := "line_number"

  // One named input list; the sources of a call are the items of a dictionary, in order.
  datatype Source = Source(key: string, rows: seq<Row>)

  datatype MergedLine = MergedLine(line: Value, rows: map<string, Row>)

  datatype MergeError = EmptyInputList(key: string) | LineNumberNotAlign

  ghost predicate DistinctKeys(inputs: seq<Source>) {
    forall i, j :: 0 <= i < j < |inputs| ==> inputs[i].key != inputs[j].key
  }

  // Some row of the list carries a line number: then rows without one are passed over.
  predicate Numbered(s: Source) {
    exists i :: 0 <= i < |s.rows| && LINE_NUMBER_KEY in s.rows[i]
  }

  // The line the row at position i stands for, if any.
  function LineAt(s: Source, i: nat): Option<Value>
    requires i < |s.rows|
  {
    if !Numbered(s) then Some(Number(i))
    else if LINE_NUMBER_KEY in s.rows[i] then Some(s.rows[i][LINE_NUMBER_KEY])
    else None
  }

  ghost predicate Supplies(s: Source, line: Value) {
    exists i: nat :: i < |s.rows| && LineAt(s, i) == Some(line)
  }

  // The row is the last one the list supplies for the line.
  ghost predicate LastSupplied(s: Source, line: Value, row: Row) {
    exists i: nat :: IsLastAt(s, line, i) && s.rows[i] == row
  }

  ghost predicate IsLastAt(s: Source, line: Value, i: nat) {
    && i < |s.rows| && LineAt(s, i) == Some(line)
    && forall j: nat :: i < j < |s.rows| ==> LineAt(s, j) != Some(line)
  }

  // Position i of the list is the first that stands for the line.
  ghost predicate IsFirstAt(s: Source, line: Value, i: nat) {
    && i < |s.rows| && LineAt(s, i) == Some(line)
    && forall j: nat :: j < i ==> LineAt(s, j) != Some(line)
  }

  // Lists without line numbers have one common length.
  ghost predicate Aligned(inputs: seq<Source>) {
    forall i, j :: 0 <= i < |inputs| && 0 <= j < |inputs| && !Numbered(inputs[i]) && !Numbered(inputs[j])
      ==> |inputs[i].rows| == |inputs[j].rows|
  }

  // ---------- the stream of items and the table it builds ----------

  datatype Item = Item(line: Value, key: string, row: Row)

  function ItemsUpTo(s: Source, n: nat): seq<Item>
    requires n <= |s.rows|
  {
    if n == 0 then []
    else ItemsUpTo(s, n - 1)
         + (match LineAt(s, n - 1) case Some(line) => [Item(line, s.key, s.rows[n - 1])] case None => [])
  }

  function Stream(inputs: seq<Source>): seq<Item> {
    if inputs == [] then []
    else Stream(inputs[..|inputs| - 1]) + ItemsUpTo(inputs[|inputs| - 1], |inputs[|inputs| - 1].rows|)
  }

  // A dictionary of dictionaries, with the insertion order of the outer one.
  datatype Table = Table(lines: seq<Value>, entries: map<Value, map<string, Row>>)

  function AddItem(t: Table, item: Item): Table {
    var started := if item.line in t.entries then t else Table(t.lines + [item.line], t.entries[item.line := map[]]);
    started.(entries := started.entries[item.line := started.entries[item.line][item.key := item.row]])
  }

  function TableOf(items: seq<Item>): Table {
    if items == [] then Table([], map[]) else AddItem(TableOf(items[..|items| - 1]), items[|items| - 1])
  }

  // The row of the last item of a line and a key.
  function LastFor(items: seq<Item>, line: Value, key: string): Option<Row> {
    if items == [] then None
    else if items[|items| - 1].line == line && items[|items| - 1].key == key then Some(items[|items| - 1].row)
    else LastFor(items[..|items| - 1], line, key)
  }

  lemma {:induction false} TableSnoc(items: seq<Item>, item: Item)
    ensures TableOf(items + [item]) == AddItem(TableOf(items), item)
  {
    assert (items + [item])[..|items|] == items;
  }

  lemma {:induction false} TableEntries(items: seq<Item>)
    ensures var t := TableOf(items);
      && Distinct(t.lines)
      && (forall line :: line in t.lines <==> line in t.entries)
      && (forall line, key :: LastFor(items, line, key).Some? ==> line in t.entries)
      && (forall line, key :: line in t.entries ==> (key in t.entries[line] <==> LastFor(items, line, key).Some?))
      && (forall line, key :: line in t.entries && key in t.entries[line] ==>
            LastFor(items, line, key) == Some(t.entries[line][key]))
  {
    if items != [] {
      var init, last := items[..|items| - 1], items[|items| - 1];
      TableEntries(init);
      assert TableOf(items) == AddItem(TableOf(init), last);
    }
  }

  ghost predicate Seen(items: seq<Item>, line: Value) {
    exists i :: 0 <= i < |items| && items[i].line == line
  }

  // The order of the lines is the order of their first items.
  ghost predicate FirstItemAt(items: seq<Item>, line: Value, p: nat) {
    && p < |items| && items[p].line == line
    && forall q: nat :: q < p ==> items[q].line != line
  }

  ghost predicate FirstSeenOrder(items: seq<Item>, lines: seq<Value>) {
    forall a, b, p: nat, q: nat ::
      0 <= a < b < |lines| && FirstItemAt(items, lines[a], p) && FirstItemAt(items, lines[b], q) ==> p < q
  }

  lemma {:induction false} TableOrder(items: seq<Item>)
    ensures FirstSeenOrder(items, TableOf(items).lines)
    ensures forall line :: line in TableOf(items).lines <==> Seen(items, line)
    ensures forall line :: line in TableOf(items).lines <==> line in TableOf(items).entries
  {
    if items != [] {
      var init, last := items[..|items| - 1], items[|items| - 1];
      TableOrder(init);
      var before, after := TableOf(init).lines, TableOf(items).lines;
      forall line | line in before ensures Seen(items, line) {
        var i :| 0 <= i < |init| && init[i].line == line;
        assert items[i].line == line;
      }
      assert items[|items| - 1].line == last.line;
      forall a, b, p: nat, q: nat | 0 <= a < b < |after| && FirstItemAt(items, after[a], p)
          && FirstItemAt(items, after[b], q)
        ensures p < q
      {
        OlderLineFirst(items, before, after, a, b, p, q);
      }
    }
  }

  lemma {:induction false} OlderLineFirst(
    items: seq<Item>, before: seq<Value>, after: seq<Value>, a: nat, b: nat, p: nat, q: nat)
    requires items != [] && FirstSeenOrder(items[..|items| - 1], before)
    requires forall line :: line in before <==> Seen(items[..|items| - 1], line)
    requires after == if items[|items| - 1].line in before then before else before + [items[|items| - 1].line]
    requires a < b < |after| && FirstItemAt(items, after[a], p) && FirstItemAt(items, after[b], q)
    ensures p < q
  {
    var init := items[..|items| - 1];
    assert before[a] in before;
    var i: nat :| i < |init| && init[i].line == after[a];
    assert items[i].line == after[a];
    assert p < |init| && FirstItemAt(init, after[a], p);
    if b < |before| {
      assert before[b] in before;
      var j: nat :| j < |init| && init[j].line == after[b];
      assert items[j].line == after[b];
      assert FirstItemAt(init, after[b], q);
    }
  }

  // ---------- what the stream says about the sources ----------

  lemma {:induction false} LastForConcat(a: seq<Item>, b: seq<Item>, line: Value, key: string)
    ensures LastFor(a + b, line, key)
         == if LastFor(b, line, key).Some? then LastFor(b, line, key) else LastFor(a, line, key)
  {
    if b == [] {
      assert a + b == a;
    } else {
      assert (a + b)[..|a + b| - 1] == a + b[..|b| - 1];
      LastForConcat(a, b[..|b| - 1], line, key);
    }
  }

  // Which of the first n rows is the last that stands for the line.
  function LastIndex(s: Source, n: nat, line: Value): (i: Option<nat>)
    requires n <= |s.rows|
    ensures i.Some? ==> i.value < n
  {
    if n == 0 then None else if LineAt(s, n - 1) == Some(line) then Some(n - 1) else LastIndex(s, n - 1, line)
  }

  lemma {:induction false} LastIndexNone(s: Source, n: nat, line: Value)
    requires n <= |s.rows| && LastIndex(s, n, line).None?
    ensures forall j: nat :: j < n ==> LineAt(s, j) != Some(line)
  {
    if n > 0 {
      LastIndexNone(s, n - 1, line);
    }
  }

  lemma {:induction false} LastIndexSome(s: Source, n: nat, line: Value)
    requires n <= |s.rows| && LastIndex(s, n, line).Some?
    ensures var i := LastIndex(s, n, line).value;
      i < n && LineAt(s, i) == Some(line) && forall j: nat :: i < j < n ==> LineAt(s, j) != Some(line)
  {
    if LineAt(s, n - 1) != Some(line) {
      LastIndexSome(s, n - 1, line);
    }
  }

  lemma {:induction false} LastForStep(s: Source, n: nat, line: Value)
    requires 0 < n <= |s.rows|
    ensures LastFor(ItemsUpTo(s, n), line, s.key)
         == if LineAt(s, n - 1) == Some(line) then Some(s.rows[n - 1]) else LastFor(ItemsUpTo(s, n - 1), line, s.key)
  {
    var before, all := ItemsUpTo(s, n - 1), ItemsUpTo(s, n);
    if LineAt(s, n - 1).None? {
      assert all == before;
    } else {
      assert all[..|all| - 1] == before;
    }
  }

  lemma {:induction false} LastForSource(s: Source, n: nat, line: Value)
    requires n <= |s.rows|
    ensures LastFor(ItemsUpTo(s, n), line, s.key)
         == match LastIndex(s, n, line) case Some(i) => Some(s.rows[i]) case None => None
  {
    if n > 0 {
      LastForStep(s, n, line);
      LastForSource(s, n - 1, line);
    }
  }

  lemma {:induction false} ForeignKey(s: Source, n: nat, line: Value, key: string)
    requires n <= |s.rows| && key != s.key
    ensures LastFor(ItemsUpTo(s, n), line, key).None?
  {
    if n > 0 {
      ForeignKey(s, n - 1, line, key);
      LastForConcat(ItemsUpTo(s, n - 1),
        match LineAt(s, n - 1) case Some(l) => [Item(l, s.key, s.rows[n - 1])] case None => [], line, key);
    }
  }

  lemma {:induction false} StreamLastFor(inputs: seq<Source>, line: Value, key: string)
    requires DistinctKeys(inputs)
    ensures (forall k :: 0 <= k < |inputs| ==> inputs[k].key != key) ==> LastFor(Stream(inputs), line, key).None?
    ensures forall k :: 0 <= k < |inputs| && inputs[k].key == key ==>
              LastFor(Stream(inputs), line, key) == LastFor(ItemsUpTo(inputs[k], |inputs[k].rows|), line, key)
  {
    if inputs != [] {
      var init, last := inputs[..|inputs| - 1], inputs[|inputs| - 1];
      StreamLastFor(init, line, key);
      LastForConcat(Stream(init), ItemsUpTo(last, |last.rows|), line, key);
      if last.key != key {
        ForeignKey(last, |last.rows|, line, key);
      }
      forall k | 0 <= k < |inputs| - 1 ensures init[k] == inputs[k] {
      }
    }
  }

  // The table holds, for a line and a source, the last row the source supplies for the line.
  lemma {:induction false} SourceInTable(inputs: seq<Source>, k: nat, line: Value)
    requires DistinctKeys(inputs) && k < |inputs|
    ensures var t := TableOf(Stream(inputs));
      && (Supplies(inputs[k], line) <==> line in t.entries && inputs[k].key in t.entries[line])
      && (line in t.entries && inputs[k].key in t.entries[line] ==>
            LastSupplied(inputs[k], line, t.entries[line][inputs[k].key]))
  {
    var s := inputs[k];
    TableEntries(Stream(inputs));
    StreamLastFor(inputs, line, s.key);
    LastForSource(s, |s.rows|, line);
    match LastIndex(s, |s.rows|, line)
    case None => LastIndexNone(s, |s.rows|, line);
    case Some(i) =>
      LastIndexSome(s, |s.rows|, line);
      assert IsLastAt(s, line, i);
  }

  function KeysOf(inputs: seq<Source>): set<string> {
    set s | s in inputs :: s.key
  }

  lemma {:induction false} KeysCardinality(inputs: seq<Source>)
    requires DistinctKeys(inputs)
    ensures |KeysOf(inputs)| == |inputs|
  {
    if inputs == [] {
      assert KeysOf(inputs) == {};
    } else {
      var init, last := inputs[..|inputs| - 1], inputs[|inputs| - 1];
      assert inputs == init + [last];
      KeysCardinality(init);
      assert KeysOf(inputs) == KeysOf(init) + {last.key};
    }
  }

  lemma {:induction false} EntryKeys(inputs: seq<Source>, line: Value)
    requires DistinctKeys(inputs) && line in TableOf(Stream(inputs)).entries
    ensures TableOf(Stream(inputs)).entries[line].Keys <= KeysOf(inputs)
  {
    TableEntries(Stream(inputs));
    forall key | key in TableOf(Stream(inputs)).entries[line] ensures key in KeysOf(inputs) {
      StreamLastFor(inputs, line, key);
    }
  }

  lemma {:induction false} SuppliersAreKeys(inputs: seq<Source>, line: Value)
    requires DistinctKeys(inputs) && line in TableOf(Stream(inputs)).entries
    ensures (forall k :: 0 <= k < |inputs| ==> Supplies(inputs[k], line))
       <==> KeysOf(inputs) <= TableOf(Stream(inputs)).entries[line].Keys
  {
    var entry := TableOf(Stream(inputs)).entries[line];
    forall k | 0 <= k < |inputs| ensures Supplies(inputs[k], line) <==> inputs[k].key in entry {
      SourceInTable(inputs, k, line);
    }
    if KeysOf(inputs) <= entry.Keys {
      forall k | 0 <= k < |inputs| ensures Supplies(inputs[k], line) {
        assert inputs[k].key in KeysOf(inputs);
      }
    }
  }

  // A line has as many entries as there are sources exactly when every source supplies it.
  lemma {:induction false} CompleteMeansAllSupply(inputs: seq<Source>, line: Value)
    requires DistinctKeys(inputs) && line in TableOf(Stream(inputs)).entries
    ensures var entry := TableOf(Stream(inputs)).entries[line];
      && (|entry| == |inputs| <==> forall k :: 0 <= k < |inputs| ==> Supplies(inputs[k], line))
      && (|entry| == |inputs| ==> entry.Keys == KeysOf(inputs))
  {
    EntryKeys(inputs, line);
    SuppliersAreKeys(inputs, line);
    KeysCardinality(inputs);
    FullEntry(TableOf(Stream(inputs)).entries[line], KeysOf(inputs));
  }

  lemma {:induction false} FullEntry(entry: map<string, Row>, keys: set<string>)
    requires entry.Keys <= keys
    ensures |entry| == |keys| <==> keys <= entry.Keys
    ensures |entry| == |keys| ==> entry.Keys == keys
  {
    SubsetCardinality(entry.Keys, keys);
    assert |entry| == |entry.Keys|;
    if keys <= entry.Keys {
      assert entry.Keys == keys;
    }
  }

  // ---------- the result ----------

  function LinesOf(result: seq<MergedLine>): seq<Value> {
    seq(|result|, i requires 0 <= i < |result| => result[i].line)
  }

  // The complete lines; the line number takes the place of an input that is itself called so.
  function CompleteLines(lines: seq<Value>, entries: map<Value, map<string, Row>>, count: nat): seq<MergedLine>
    requires forall line :: line in lines ==> line in entries
  {
    if lines == [] then []
    else
      var last := lines[|lines| - 1];
      CompleteLines(lines[..|lines| - 1], entries, count)
      + (if |entries[last]| == count then [MergedLine(last, entries[last] - {LINE_NUMBER_KEY})] else [])
  }

  lemma {:induction false} CompleteLinesMembers(lines: seq<Value>, entries: map<Value, map<string, Row>>, count: nat)
    requires forall line :: line in lines ==> line in entries
    ensures forall m :: m in CompleteLines(lines, entries, count) <==>
              m.line in lines && |entries[m.line]| == count && m.rows == entries[m.line] - {LINE_NUMBER_KEY}
  {
    if lines != [] {
      var init, last := lines[..|lines| - 1], lines[|lines| - 1];
      assert lines == init + [last];
      CompleteLinesMembers(init, entries, count);
    }
  }

  lemma {:induction false} LinesOfMembers(result: seq<MergedLine>)
    ensures forall m :: m in result ==> m.line in LinesOf(result)
    ensures forall line :: line in LinesOf(result) ==> exists m :: m in result && m.line == line
  {
    forall m | m in result ensures m.line in LinesOf(result) {
      var i :| 0 <= i < |result| && result[i] == m;
      assert LinesOf(result)[i] == m.line;
    }
    forall line | line in LinesOf(result) ensures exists m :: m in result && m.line == line {
      var i :| 0 <= i < |result| && LinesOf(result)[i] == line;
      assert result[i] in result;
    }
  }

  lemma {:induction false} CompleteLinesOrder(
    items: seq<Item>, lines: seq<Value>, entries: map<Value, map<string, Row>>, count: nat)
    requires forall line :: line in lines ==> line in entries
    requires Distinct(lines) && FirstSeenOrder(items, lines)
    ensures var kept := LinesOf(CompleteLines(lines, entries, count));
      && Distinct(kept) && FirstSeenOrder(items, kept)
      && forall line :: line in kept ==> line in lines
  {
    if lines != [] {
      var init, last := lines[..|lines| - 1], lines[|lines| - 1];
      assert lines == init + [last];
      OrderOfPrefix(items, lines);
      CompleteLinesOrder(items, init, entries, count);
      var before, result := CompleteLines(init, entries, count), CompleteLines(lines, entries, count);
      if |entries[last]| == count {
        assert LinesOf(result) == LinesOf(before) + [last];
        AppendLine(items, lines, LinesOf(before));
      } else {
        assert result == before;
      }
    }
  }

  lemma {:induction false} OrderOfPrefix(items: seq<Item>, lines: seq<Value>)
    requires lines != [] && Distinct(lines) && FirstSeenOrder(items, lines)
    ensures Distinct(lines[..|lines| - 1]) && FirstSeenOrder(items, lines[..|lines| - 1])
  {
  }

  lemma {:induction false} AppendLine(items: seq<Item>, lines: seq<Value>, kept: seq<Value>)
    requires lines != [] && Distinct(lines) && FirstSeenOrder(items, lines)
    requires Distinct(kept) && FirstSeenOrder(items, kept)
    requires forall line :: line in kept ==> line in lines[..|lines| - 1]
    ensures Distinct(kept + [lines[|lines| - 1]]) && FirstSeenOrder(items, kept + [lines[|lines| - 1]])
  {
    var last := lines[|lines| - 1];
    var all := kept + [last];
    forall a | 0 <= a < |kept| ensures kept[a] != last {
      assert kept[a] in kept;
    }
    forall a, b, p: nat, q: nat | 0 <= a < b < |all| && FirstItemAt(items, all[a], p) && FirstItemAt(items, all[b], q)
      ensures p < q {
      if b == |kept| {
        assert kept[a] in kept;
        var i :| 0 <= i < |lines| - 1 && lines[i] == kept[a];
      }
    }
  }

  /** The join of the inputs over the line: exactly one entry for every line that all inputs supply,
      each with the last row of every input for the line, in the order lines were first seen. */
  ghost predicate IsJoin(inputs: seq<Source>, result: seq<MergedLine>) {
    && Distinct(LinesOf(result))
    && (inputs == [] ==> result == [])
    && (inputs != [] ==>
          forall line :: line in LinesOf(result) <==> forall k :: 0 <= k < |inputs| ==> Supplies(inputs[k], line))
    && (forall m, k :: m in result && 0 <= k < |inputs| && inputs[k].key != LINE_NUMBER_KEY ==>
          inputs[k].key in m.rows && LastSupplied(inputs[k], m.line, m.rows[inputs[k].key]))
    && (forall m :: m in result ==> m.rows.Keys == KeysOf(inputs) - {LINE_NUMBER_KEY})
    && FirstSeenOrder(Stream(inputs), LinesOf(result))
  }

  // What the two loops compute.
  function Joined(inputs: seq<Source>): seq<MergedLine>
    requires forall line :: line in TableOf(Stream(inputs)).lines ==> line in TableOf(Stream(inputs)).entries
  {
    CompleteLines(TableOf(Stream(inputs)).lines, TableOf(Stream(inputs)).entries, |inputs|)
  }

  lemma {:induction false} TableLines(inputs: seq<Source>)
    ensures forall line :: line in TableOf(Stream(inputs)).lines <==> line in TableOf(Stream(inputs)).entries
  {
    TableEntries(Stream(inputs));
  }

  lemma {:induction false} JoinedLines(inputs: seq<Source>)
    requires DistinctKeys(inputs) && inputs != []
    requires forall line :: line in TableOf(Stream(inputs)).lines <==> line in TableOf(Stream(inputs)).entries
    ensures forall line ::
              line in LinesOf(Joined(inputs)) <==> forall k :: 0 <= k < |inputs| ==> Supplies(inputs[k], line)
  {
    var t := TableOf(Stream(inputs));
    CompleteLinesMembers(t.lines, t.entries, |inputs|);
    LinesOfMembers(Joined(inputs));
    forall line
      ensures line in LinesOf(Joined(inputs)) <==> forall k :: 0 <= k < |inputs| ==> Supplies(inputs[k], line)
    {
      if line in t.entries {
        CompleteMeansAllSupply(inputs, line);
        assert |t.entries[line]| == |inputs| ==>
            MergedLine(line, t.entries[line] - {LINE_NUMBER_KEY}) in Joined(inputs);
      } else {
        SourceInTable(inputs, 0, line);
      }
    }
  }

  lemma {:induction false} JoinedRows(inputs: seq<Source>, m: MergedLine)
    requires DistinctKeys(inputs)
    requires forall line :: line in TableOf(Stream(inputs)).lines <==> line in TableOf(Stream(inputs)).entries
    requires m in Joined(inputs)
    ensures m.rows.Keys == KeysOf(inputs) - {LINE_NUMBER_KEY}
    ensures forall k :: 0 <= k < |inputs| && inputs[k].key != LINE_NUMBER_KEY ==>
              inputs[k].key in m.rows && LastSupplied(inputs[k], m.line, m.rows[inputs[k].key])
  {
    var t := TableOf(Stream(inputs));
    CompleteLinesMembers(t.lines, t.entries, |inputs|);
    CompleteMeansAllSupply(inputs, m.line);
    forall k | 0 <= k < |inputs| && inputs[k].key != LINE_NUMBER_KEY
      ensures inputs[k].key in m.rows && LastSupplied(inputs[k], m.line, m.rows[inputs[k].key])
    {
      SourceInTable(inputs, k, m.line);
      assert inputs[k].key in KeysOf(inputs);
    }
  }

  lemma {:induction false} CompleteLinesJoin(inputs: seq<Source>)
    requires DistinctKeys(inputs)
    ensures forall line :: line in TableOf(Stream(inputs)).lines ==> line in TableOf(Stream(inputs)).entries
    ensures IsJoin(inputs, Joined(inputs))
  {
    TableLines(inputs);
    if inputs != [] {
      JoinedLines(inputs);
    }
    forall m | m in Joined(inputs)
      ensures m.rows.Keys == KeysOf(inputs) - {LINE_NUMBER_KEY}
      ensures forall k :: 0 <= k < |inputs| && inputs[k].key != LINE_NUMBER_KEY ==>
                inputs[k].key in m.rows && LastSupplied(inputs[k], m.line, m.rows[inputs[k].key])
    {
      JoinedRows(inputs, m);
    }
    JoinedOrder(inputs);
  }

  lemma {:induction false} JoinedOrder(inputs: seq<Source>)
    requires forall line :: line in TableOf(Stream(inputs)).lines <==> line in TableOf(Stream(inputs)).entries
    ensures Distinct(LinesOf(Joined(inputs))) && FirstSeenOrder(Stream(inputs), LinesOf(Joined(inputs)))
  {
    TableEntries(Stream(inputs));
    TableOrder(Stream(inputs));
    CompleteLinesOrder(Stream(inputs), TableOf(Stream(inputs)).lines, TableOf(Stream(inputs)).entries, |inputs|);
  }

  // The key is that of the first empty list.
  ghost predicate FirstEmpty(inputs: seq<Source>, key: string) {
    exists k :: 0 <= k < |inputs| && inputs[k].rows == [] && inputs[k].key == key
      && forall j :: 0 <= j < k ==> inputs[j].rows != []
  }

  /** Fails on the first empty list, then on positional lists of different lengths; otherwise joins. */
  method MergeInputDictsByLine(inputs: seq<Source>) returns (r: Result<seq<MergedLine>, MergeError>)
    requires DistinctKeys(inputs)
    ensures r.Err? && r.error.EmptyInputList? <==> exists k :: 0 <= k < |inputs| && inputs[k].rows == []
    ensures r.Err? && r.error.EmptyInputList? ==> FirstEmpty(inputs, r.error.key)
    ensures r == Err(LineNumberNotAlign) <==>
              (forall k :: 0 <= k < |inputs| ==> inputs[k].rows != []) && !Aligned(inputs)
    ensures r.Ok? ==> IsJoin(inputs, r.value) && JoinsRows(inputs, r.value)
  {
    for k := 0 to |inputs|
      invariant forall j :: 0 <= j < k ==> inputs[j].rows != []
    {
      if inputs[k].rows == [] {
        return Err(EmptyInputList(inputs[k].key));
      }
    }
    var aligned := CheckAligned(inputs);
    if !aligned {
      return Err(LineNumberNotAlign);
    }
    var table := Table([], map[]);
    for k := 0 to |inputs|
      invariant table == TableOf(Stream(inputs[..k]))
    {
      table := CollectSource(inputs[k], Stream(inputs[..k]), table);
      assert inputs[..k + 1][..k] == inputs[..k];
    }
    assert inputs[..|inputs|] == inputs;
    CompleteLinesJoin(inputs);
    var result := KeepComplete(table.lines, table.entries, |inputs|);
    JoinOfRows(inputs, result);
    r := Ok(result);
  }

  // The second loop: only the lines that every input has an item for.
  method KeepComplete(
    lines: seq<Value>, entries: map<Value, map<string, Row>>, n: nat) returns (result: seq<MergedLine>)
    requires forall line :: line in lines ==> line in entries
    ensures result == CompleteLines(lines, entries, n)
  {
    result := [];
    for k := 0 to |lines|
      invariant result == CompleteLines(lines[..k], entries, n)
    {
      assert lines[..k + 1][..k] == lines[..k];
      var line := lines[k];
      assert line in lines;
      var entry := entries[line];
      if |entry| == n {
        result := result + [MergedLine(line, entry - {LINE_NUMBER_KEY})];
      }
    }
    assert lines[..|lines|] == lines;
  }

  method CheckAligned(inputs: seq<Source>) returns (aligned: bool)
    ensures aligned <==> Aligned(inputs)
  {
    var length: Option<nat> := None;
    for k := 0 to |inputs|
      invariant length.None? ==> forall j :: 0 <= j < k ==> Numbered(inputs[j])
      invariant length.Some? ==> exists j :: 0 <= j < k && !Numbered(inputs[j]) && |inputs[j].rows| == length.value
      invariant length.Some? ==> forall j :: 0 <= j < k && !Numbered(inputs[j]) ==> |inputs[j].rows| == length.value
    {
      if !Numbered(inputs[k]) {
        if length.Some? && length.value != |inputs[k].rows| {
          return false;
        }
        length := Some(|inputs[k].rows|);
      }
    }
    aligned := true;
  }

  method CollectSource(s: Source, ghost before: seq<Item>, table: Table) returns (t: Table)
    requires table == TableOf(before)
    ensures t == TableOf(before + ItemsUpTo(s, |s.rows|))
    ensures forall line, key, row :: Holds(t, line, key, row) <==>
              if key == s.key && OffersSome(s.rows, line) then Offers(s.rows, line, row)
                  else Holds(table, line, key, row)
  {
    t := AddEveryRow(s, table);
    AddRowsCollects(s, before, |s.rows|);
    forall line, key, row {
      CollectedRows(s, before, line, key, row);
    }
  }

  // The table after the first n rows of a list.
  function AddRows(t: Table, s: Source, n: nat): Table
    requires n <= |s.rows|
  {
    if n == 0 then t
    else
      match LineAt(s, n - 1)
      case Some(line) => AddItem(AddRows(t, s, n - 1), Item(line, s.key, s.rows[n - 1]))
      case None => AddRows(t, s, n - 1)
  }

  method AddEveryRow(s: Source, table: Table) returns (t: Table)
    ensures t == AddRows(table, s, |s.rows|)
  {
    t := table;
    for i := 0 to |s.rows|
      invariant t == AddRows(table, s, i)
    {
      match LineAt(s, i)
      case Some(line) => t := AddItem(t, Item(line, s.key, s.rows[i]));
      case None =>
    }
  }

  lemma {:induction false} AddRowsCollects(s: Source, before: seq<Item>, n: nat)
    requires n <= |s.rows|
    ensures AddRows(TableOf(before), s, n) == TableOf(before + ItemsUpTo(s, n))
  {
    if n == 0 {
      assert before + ItemsUpTo(s, 0) == before;
    } else {
      AddRowsCollects(s, before, n - 1);
      CollectRow(s, before, n - 1, AddRows(TableOf(before), s, n - 1));
    }
  }

  lemma {:induction false} CollectRow(s: Source, before: seq<Item>, i: nat, t: Table)
    requires i < |s.rows| && t == TableOf(before + ItemsUpTo(s, i))
    ensures TableOf(before + ItemsUpTo(s, i + 1))
         == match LineAt(s, i) case Some(line) => AddItem(t, Item(line, s.key, s.rows[i])) case None => t
  {
    match LineAt(s, i)
    case Some(line) => CollectItem(before, ItemsUpTo(s, i), Item(line, s.key, s.rows[i]));
    case None => assert before + ItemsUpTo(s, i + 1) == before + ItemsUpTo(s, i);
  }

  lemma {:induction false} CollectItem(before: seq<Item>, items: seq<Item>, item: Item)
    ensures TableOf(before + (items + [item])) == AddItem(TableOf(before + items), item)
  {
    TableSnoc(before + items, item);
    assert before + (items + [item]) == (before + items) + [item];
  }

  // ---------- the join, in terms of the rows alone ----------

  // A row of the list carries a line number of its own.
  ghost predicate SomeCarries(rows: seq<Row>) {
    exists i :: 0 <= i < |rows| && LINE_NUMBER_KEY in rows[i]
  }

  ghost predicate CarriesAt(rows: seq<Row>, line: Value, i: nat) {
    i < |rows| && LINE_NUMBER_KEY in rows[i] && rows[i][LINE_NUMBER_KEY] == line
  }

  /** What a list offers for a line.  Without any line number in it, its rows are the lines 0, 1, 2 and so
      on; otherwise a row is offered for the number it carries, unless a later row carries the same. */
  ghost predicate Offers(rows: seq<Row>, line: Value, row: Row) {
    if SomeCarries(rows) then
      exists i: nat :: CarriesAt(rows, line, i) && rows[i] == row && forall j: nat :: i < j ==>
          !CarriesAt(rows, line, j)
    else
      exists i: nat :: i < |rows| && line == Number(i) && rows[i] == row
  }

  lemma {:induction false} NumberedCarries(s: Source, line: Value, i: nat)
    requires SomeCarries(s.rows) && i < |s.rows|
    ensures LineAt(s, i) == Some(line) <==> CarriesAt(s.rows, line, i)
  {
    assert Numbered(s);
  }

  lemma {:induction false} LastCarried(s: Source, line: Value, i: nat)
    requires SomeCarries(s.rows)
    ensures IsLastAt(s, line, i) <==> CarriesAt(s.rows, line, i) && forall j: nat :: i < j ==>
        !CarriesAt(s.rows, line, j)
  {
    forall j: nat | j < |s.rows| ensures LineAt(s, j) == Some(line) <==> CarriesAt(s.rows, line, j) {
      NumberedCarries(s, line, j);
    }
  }

  lemma {:induction false} LastPositional(s: Source, line: Value, i: nat)
    requires !SomeCarries(s.rows)
    ensures IsLastAt(s, line, i) <==> i < |s.rows| && line == Number(i)
  {
    assert !Numbered(s);
    forall j: nat | j < |s.rows| ensures LineAt(s, j) == Some(Number(j)) {
    }
  }

  /** A list supplies exactly the lines it offers a row for, and that row is the one it supplies last. */
  lemma {:induction false} SuppliesOffered(s: Source, line: Value)
    ensures forall row :: LastSupplied(s, line, row) <==> Offers(s.rows, line, row)
    ensures Supplies(s, line) <==> exists row :: Offers(s.rows, line, row)
  {
    if SomeCarries(s.rows) {
      forall i: nat {
        LastCarried(s, line, i);
      }
    } else {
      forall i: nat {
        LastPositional(s, line, i);
      }
    }
    SuppliesLast(s, line);
  }

  lemma {:induction false} SuppliesLast(s: Source, line: Value)
    ensures Supplies(s, line) <==> exists row :: LastSupplied(s, line, row)
  {
    match LastIndex(s, |s.rows|, line)
    case None => LastIndexNone(s, |s.rows|, line);
    case Some(i) =>
      LastIndexSome(s, |s.rows|, line);
      assert IsLastAt(s, line, i) && LastSupplied(s, line, s.rows[i]);
  }

  ghost predicate OffersSome(rows: seq<Row>, line: Value) {
    exists row :: Offers(rows, line, row)
  }

  ghost predicate AllOffer(inputs: seq<Source>, line: Value) {
    forall k :: 0 <= k < |inputs| ==> OffersSome(inputs[k].rows, line)
  }

  /** The lines are those for which every list offers a row, and each of them has the rows the lists
      offer; without lists there is none. */
  ghost predicate JoinsRows(inputs: seq<Source>, result: seq<MergedLine>) {
    && (inputs == [] ==> result == [])
    && (inputs != [] ==> forall line :: line in LinesOf(result) <==> AllOffer(inputs, line))
    && (forall m, k :: m in result && 0 <= k < |inputs| && inputs[k].key != LINE_NUMBER_KEY ==>
          inputs[k].key in m.rows && Offers(inputs[k].rows, m.line, m.rows[inputs[k].key]))
  }

  lemma {:induction false} JoinOfRows(inputs: seq<Source>, result: seq<MergedLine>)
    requires IsJoin(inputs, result)
    ensures JoinsRows(inputs, result)
  {
    if inputs != [] {
      forall line ensures line in LinesOf(result) <==> AllOffer(inputs, line) {
        forall k | 0 <= k < |inputs| ensures Supplies(inputs[k], line) <==> OffersSome(inputs[k].rows, line) {
          SuppliesOffered(inputs[k], line);
        }
      }
    }
    forall m, k | m in result && 0 <= k < |inputs| && inputs[k].key != LINE_NUMBER_KEY
      ensures inputs[k].key in m.rows && Offers(inputs[k].rows, m.line, m.rows[inputs[k].key])
    {
      SuppliesOffered(inputs[k], m.line);
    }
  }

  // ---------- what one list adds to the table ----------

  ghost predicate Holds(t: Table, line: Value, key: string, row: Row) {
    line in t.entries && key in t.entries[line] && t.entries[line][key] == row
  }

  lemma {:induction false} TableHolds(items: seq<Item>, line: Value, key: string, row: Row)
    ensures Holds(TableOf(items), line, key, row) <==> LastFor(items, line, key) == Some(row)
  {
    TableEntries(items);
  }

  lemma {:induction false} SourceHolds(s: Source, line: Value, row: Row)
    ensures LastFor(ItemsUpTo(s, |s.rows|), line, s.key) == Some(row) <==> Offers(s.rows, line, row)
  {
    LastForSource(s, |s.rows|, line);
    SuppliesOffered(s, line);
    match LastIndex(s, |s.rows|, line)
    case None => LastIndexNone(s, |s.rows|, line);
    case Some(i) =>
      LastIndexSome(s, |s.rows|, line);
      assert IsLastAt(s, line, i);
  }

  /** A list enters the rows it offers under its own key; every other entry stays as it was. */
  lemma {:induction false} CollectedRows(s: Source, before: seq<Item>, line: Value, key: string, row: Row)
    ensures Holds(TableOf(before + ItemsUpTo(s, |s.rows|)), line, key, row) <==>
              if key == s.key && OffersSome(s.rows, line) then Offers(s.rows, line, row)
              else Holds(TableOf(before), line, key, row)
  {
    var items := ItemsUpTo(s, |s.rows|);
    TableHolds(before + items, line, key, row);
    TableHolds(before, line, key, row);
    LastForConcat(before, items, line, key);
    if key == s.key {
      forall other ensures LastFor(items, line, key) == Some(other) <==> Offers(s.rows, line, other) {
        SourceHolds(s, line, other);
      }
    } else {
      ForeignKey(s, |s.rows|, line, key);
    }
  }

  // The rows that carry a line number carry numbers, and these ascend.
  ghost predicate CarriedAscend(rows: seq<Row>) {
    && (forall i: nat :: i < |rows| && LINE_NUMBER_KEY in rows[i] ==> rows[i][LINE_NUMBER_KEY].Number?)
    && forall i: nat, j: nat :: i < j < |rows| && LINE_NUMBER_KEY in rows[i] && LINE_NUMBER_KEY in rows[j] ==>
         rows[i][LINE_NUMBER_KEY].n < rows[j][LINE_NUMBER_KEY].n
  }

  /** A list is ascending if it has no line numbers, or if those it has ascend. */
  lemma {:induction false} AscendingRows(s: Source)
    ensures Ascending(s) <==> !SomeCarries(s.rows) || CarriedAscend(s.rows)
  {
    assert Numbered(s) <==> SomeCarries(s.rows);
    forall i: nat | i < |s.rows|
      ensures LineAt(s, i) == (if !SomeCarries(s.rows) then Some(Number(i))
                               else if LINE_NUMBER_KEY in s.rows[i] then Some(s.rows[i][LINE_NUMBER_KEY]) else None)
    {
    }
  }

  // ---------- the first input decides the order ----------

  lemma {:induction false} ItemsPrefix(s: Source, i: nat, n: nat)
    requires i <= n <= |s.rows|
    ensures ItemsUpTo(s, i) <= ItemsUpTo(s, n)
    ensures i < n && LineAt(s, i).Some? ==>
      && |ItemsUpTo(s, i)| < |ItemsUpTo(s, n)|
      && ItemsUpTo(s, n)[|ItemsUpTo(s, i)|] == Item(LineAt(s, i).value, s.key, s.rows[i])
    decreases n
  {
    if i < n {
      ItemsPrefix(s, i, n - 1);
    }
  }

  lemma {:induction false} NoEarlierItem(s: Source, i: nat, line: Value)
    requires i <= |s.rows| && forall j: nat :: j < i ==> LineAt(s, j) != Some(line)
    ensures forall p :: 0 <= p < |ItemsUpTo(s, i)| ==> ItemsUpTo(s, i)[p].line != line
  {
    if i > 0 {
      NoEarlierItem(s, i - 1, line);
    }
  }

  lemma {:induction false} FirstSourceLeads(inputs: seq<Source>)
    requires inputs != []
    ensures ItemsUpTo(inputs[0], |inputs[0].rows|) <= Stream(inputs)
  {
    if |inputs| > 1 {
      FirstSourceLeads(inputs[..|inputs| - 1]);
      assert inputs[..|inputs| - 1][0] == inputs[0];
    } else {
      assert inputs[..0] == [];
      assert Stream(inputs) == ItemsUpTo(inputs[0], |inputs[0].rows|);
    }
  }

  lemma {:induction false} FirstRowFirstItem(inputs: seq<Source>, line: Value, i: nat)
    requires inputs != [] && IsFirstAt(inputs[0], line, i)
    ensures FirstItemAt(Stream(inputs), line, |ItemsUpTo(inputs[0], i)|)
  {
    FirstSourceLeads(inputs);
    ItemsPrefix(inputs[0], i, |inputs[0].rows|);
    NoEarlierItem(inputs[0], i, line);
    var all := ItemsUpTo(inputs[0], |inputs[0].rows|);
    forall q: nat | q < |ItemsUpTo(inputs[0], i)| ensures Stream(inputs)[q].line != line {
      assert all[q] == ItemsUpTo(inputs[0], i)[q] && Stream(inputs)[q] == all[q];
    }
  }

  /** The lines of a join stand in the order in which the first input supplies them. */
  lemma {:induction false} FirstInputDecidesOrder(
    inputs: seq<Source>, result: seq<MergedLine>, a: nat, b: nat, i: nat, j: nat)
    requires inputs != [] && IsJoin(inputs, result) && a < b < |result|
    requires IsFirstAt(inputs[0], result[a].line, i) && IsFirstAt(inputs[0], result[b].line, j)
    ensures i < j
  {
    var lines := LinesOf(result);
    FirstRowFirstItem(inputs, lines[a], i);
    FirstRowFirstItem(inputs, lines[b], j);
    assert lines[a] != lines[b];
    if j < i {
      ItemsPrefix(inputs[0], j, i);
    }
  }

  lemma {:induction false} FirstPosition(s: Source, line: Value, i: nat) returns (k: nat)
    requires i < |s.rows| && LineAt(s, i) == Some(line)
    ensures k <= i && IsFirstAt(s, line, k)
  {
    if j: nat :| j < i && LineAt(s, j) == Some(line) {
      k := FirstPosition(s, line, j);
    } else {
      k := i;
    }
  }

  // The list supplies numbers in strictly ascending order.
  ghost predicate Ascending(s: Source) {
    && (forall i: nat :: i < |s.rows| && LineAt(s, i).Some? ==> LineAt(s, i).value.Number?)
    && forall i: nat, j: nat :: i < j < |s.rows| && LineAt(s, i).Some? && LineAt(s, j).Some?
         ==> LineAt(s, i).value.n < LineAt(s, j).value.n
  }

  /** If the first input is positional or numbered in ascending order, so is the join. */
  lemma {:induction false} JoinAscending(inputs: seq<Source>, result: seq<MergedLine>, a: nat, b: nat)
    requires inputs != [] && IsJoin(inputs, result) && Ascending(inputs[0]) && a < b < |result|
    ensures result[a].line.Number? && result[b].line.Number? && result[a].line.n < result[b].line.n
  {
    var x, y := result[a].line, result[b].line;
    assert LinesOf(result)[a] == x && LinesOf(result)[b] == y;
    assert x in LinesOf(result) && y in LinesOf(result);
    assert Supplies(inputs[0], x) && Supplies(inputs[0], y);
    var i: nat :| i < |inputs[0].rows| && LineAt(inputs[0], i) == Some(x);
    var j: nat :| j < |inputs[0].rows| && LineAt(inputs[0], j) == Some(y);
    i := FirstPosition(inputs[0], x, i);
    j := FirstPosition(inputs[0], y, j);
    FirstInputDecidesOrder(inputs, result, a, b, i, j);
  }
}
