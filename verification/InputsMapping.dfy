/** Resolving an inputs mapping for a line. */
module InputsMapping {
  import opened Prelude
  import opened FlowContracts
  import opened LineMerge

  // ---------- splitting at dots ----------

  function Split(s: string): (parts: seq<string>)
    ensures |parts| >= 1
  {
    if s == "" then [""]
    else
      var rest := Split(s[1..]);
      if s[0] == '.' then [""] + rest else [[s[0]] + rest[0]] + rest[1..]
  }

  function Join(parts: seq<string>): string {
    if |parts| == 0 then ""
    else if |parts| == 1 then parts[0]
    else parts[0] + "." + Join(parts[1..])
  }

  // The number of dots.
  function Dots(s: string): nat {
    |Split(s)| - 1
  }

  lemma {:induction false} JoinSplit(s: string)
    ensures Join(Split(s)) == s
  {
    if s != "" {
      JoinSplit(s[1..]);
      var rest := Split(s[1..]);
      if s[0] == '.' {
        assert ([""] + rest)[1..] == rest;
        assert s == "" + "." + s[1..];
      } else {
        var parts := [[s[0]] + rest[0]] + rest[1..];
        assert parts[1..] == rest[1..];
        assert s == [s[0]] + s[1..];
        assert Join(parts) == [s[0]] + Join(rest);
      }
    }
  }

  lemma {:induction false} SplitConcat(a: string, b: string)
    ensures Split(a + "." + b) == Split(a) + Split(b)
  {
    var all := a + "." + b;
    if a == "" {
      assert all[0] == '.' && all[1..] == b;
    } else {
      assert all[0] == a[0] && all[1..] == a[1..] + "." + b;
      SplitConcat(a[1..], b);
      SplitHead(all, Split(a[1..]), Split(b));
      SplitHead(a, Split(a[1..]), []);
      assert Split(a[1..]) + [] == Split(a[1..]);
    }
  }

  // The first character goes to the first part.
  lemma {:induction false} SplitHead(s: string, front: seq<string>, back: seq<string>)
    requires s != "" && front != [] && Split(s[1..]) == front + back
    ensures Split(s) == (if s[0] == '.' then [""] + front else [[s[0]] + front[0]] + front[1..]) + back
  {
    assert (front + back)[0] == front[0] && (front + back)[1..] == front[1..] + back;
  }

  lemma {:induction false} JoinConcat(a: seq<string>, b: seq<string>)
    requires a != [] && b != []
    ensures Join(a + b) == Join(a) + "." + Join(b)
  {
    assert (a + b)[1..] == a[1..] + b;
    if |a| == 1 {
      assert a[1..] + b == b;
    } else {
      JoinConcat(a[1..], b);
      assert a[0] + "." + (Join(a[1..]) + "." + Join(b)) == (a[0] + "." + Join(a[1..])) + "." + Join(b);
    }
  }

  // Cutting the parts at position i is cutting the text at its i-th dot, and there is no other cut.
  lemma {:induction false} CutsAreDots(p: string, i: nat)
    requires 1 <= i < |Split(p)|
    ensures Join(Split(p)[..i]) + "." + Join(Split(p)[i..]) == p
    ensures Dots(Join(Split(p)[..i])) == i - 1
  {
    var parts := Split(p);
    assert parts == parts[..i] + parts[i..];
    JoinConcat(parts[..i], parts[i..]);
    JoinSplit(p);
    PartsHaveNoDot(p);
    SplitJoin(parts[..i]);
  }

  // Joining parts that contain no dot and splitting again gives the parts back.
  lemma {:induction false} SplitJoin(parts: seq<string>)
    requires parts != [] && forall part :: part in parts ==> '.' !in part
    ensures Split(Join(parts)) == parts
  {
    NoDotSplit(parts[0]);
    if |parts| > 1 {
      SplitJoin(parts[1..]);
      SplitConcat(parts[0], Join(parts[1..]));
      assert parts == [parts[0]] + parts[1..];
    } else {
      assert parts == [parts[0]];
    }
  }

  lemma {:induction false} PartsHaveNoDot(p: string)
    ensures forall part :: part in Split(p) ==> '.' !in part
  {
    if p != "" {
      PartsHaveNoDot(p[1..]);
    }
  }

  lemma {:induction false} NoDotSplit(s: string)
    requires '.' !in s
    ensures Split(s) == [s]
  {
    if s != "" {
      NoDotSplit(s[1..]);
      assert s == [s[0]] + s[1..];
    }
  }

  // ---------- resolving one reference ----------

  datatype MergedInputs = MergedInputs(sources: map<string, Row>, line: Option<Value>)

  ghost predicate Resolves(inputs: MergedInputs, p: string, key: string, source: string) {
    p == key + "." + source && key in inputs.sources && source in inputs.sources[key]
  }

  // Of all the ways to read p as a key and a field, this one has the fewest dots in the key.
  ghost predicate ShortestKey(inputs: MergedInputs, p: string, key: string, source: string) {
    && Resolves(inputs, p, key, source)
    && forall k, s :: Resolves(inputs, p, k, s) ==> Dots(key) <= Dots(k)
  }

  ghost predicate Resolvable(inputs: MergedInputs, p: string) {
    exists key, source :: Resolves(inputs, p, key, source)
  }

  // The line number of the merged inputs is not a dictionary of fields.
  predicate AsksLineNumber(inputs: MergedInputs, p: string) {
    inputs.line.Some? && |Split(p)| > 1 && Split(p)[0] == LINE_NUMBER_KEY
  }

  datatype Lookup = Found(value: Value) | NotFound | NotADictionary

  method FindSource(inputs: MergedInputs, p: string) returns (r: Lookup)
    ensures r.NotADictionary? <==> AsksLineNumber(inputs, p)
    ensures r.NotFound? <==> !AsksLineNumber(inputs, p) && !Resolvable(inputs, p)
    ensures r.Found? ==>
        exists key, source :: ShortestKey(inputs, p, key, source) && r.value == inputs.sources[key][source]
  {
    var parts := Split(p);
    if inputs.line.Some? && |parts| > 1 && parts[0] == LINE_NUMBER_KEY {
      return NotADictionary;
    }
    for i := 1 to |parts|
      invariant forall key, source :: Resolves(inputs, p, key, source) ==> Dots(key) >= i - 1
    {
      var key, source := Join(parts[..i]), Join(parts[i..]);
      CutsAreDots(p, i);
      if key in inputs.sources && source in inputs.sources[key] {
        assert ShortestKey(inputs, p, key, source);
        return Found(inputs.sources[key][source]);
      }
      forall k, s | Resolves(inputs, p, k, s) ensures Dots(k) >= i {
        if Dots(k) == i - 1 {
          SplitConcat(k, s);
          assert parts[..i] == Split(k) && parts[i..] == Split(s);
          JoinSplit(k);
          JoinSplit(s);
        }
      }
    }
    forall k, s ensures !Resolves(inputs, p, k, s) {
      if Resolves(inputs, p, k, s) {
        SplitConcat(k, s);
      }
    }
    r := NotFound;
  }

  // ---------- the mapping of one line ----------

  datatype MappingEntry = MappingEntry(key: string, value: Value)

  datatype MappingError =
    | MappingSourceNotFound(relations: seq<string>)
    | LineNumberIsNotADictionary
    | EmptyInputAfterMapping
    | Merge(error: MergeError)

  // The text between "${" and "}", if the whole text has this form and the inside no brace.
  // A final newline is allowed, as `$` matches before it.
  function MatchReference(text: string): Option<string> {
    var body := if text != "" && text[|text| - 1] == '\n' then text[..|text| - 1] else text;
    if |body| > 3 && body[..2] == "${" && body[|body| - 1] == '}'
       && '{' !in body[2..|body| - 1] && '}' !in body[2..|body| - 1]
    then Some(body[2..|body| - 1])
    else None
  }

  // The text is "${p}" for a p without braces, perhaps with a final newline.
  ghost predicate IsReferenceTo(text: string, p: string) {
    p != "" && '{' !in p && '}' !in p && (text == "${" + p + "}" || text == "${" + p + "}\n")
  }

  lemma {:induction false} Braced(p: string)
    ensures var body := "${" + p + "}";
      |body| == |p| + 3 && body[..2] == "${" && body[2..|body| - 1] == p && body[|body| - 1] == '}'
  {
  }

  lemma {:induction false} Unbraced(body: string)
    requires |body| > 3 && body[..2] == "${" && body[|body| - 1] == '}'
    ensures "${" + body[2..|body| - 1] + "}" == body
  {
    assert body == body[..2] + body[2..|body| - 1] + [body[|body| - 1]];
  }

  /** Exactly such texts are references. */
  lemma {:induction false} MatchReferenceMeans(text: string, p: string)
    ensures MatchReference(text) == Some(p) <==> IsReferenceTo(text, p)
  {
    if IsReferenceTo(text, p) {
      ReferenceMatches(text, p);
    }
    if MatchReference(text) == Some(p) {
      MatchedIsReference(text, p);
    }
  }

  lemma {:induction false} ReferenceMatches(text: string, p: string)
    requires IsReferenceTo(text, p)
    ensures MatchReference(text) == Some(p)
  {
    Braced(p);
    var body := "${" + p + "}";
    if text != body {
      assert text[..|text| - 1] == body && text[|text| - 1] == '\n';
    }
  }

  lemma {:induction false} MatchedIsReference(text: string, p: string)
    requires MatchReference(text) == Some(p)
    ensures IsReferenceTo(text, p)
  {
    var body := if text[|text| - 1] == '\n' then text[..|text| - 1] else text;
    Unbraced(body);
    if text != body {
      assert text == text[..|text| - 1] + [text[|text| - 1]];
    }
  }

  /** An entry has a reference if its key is not the reserved one and its value is a text of that form. */
  lemma {:induction false} ReferenceOfMeans(entry: MappingEntry, p: string)
    ensures ReferenceOf(entry) == Some(p)
       <==> entry.key != "line_number" && entry.value.Text? && IsReferenceTo(entry.value.text, p)
  {
    if entry.value.Text? {
      MatchReferenceMeans(entry.value.text, p);
    }
  }

  // The first part is the key if the text starts with the key and a dot.
  lemma {:induction false} FirstPart(p: string, key: string)
    requires '.' !in key
    ensures |Split(p)| > 1 && Split(p)[0] == key <==> key + "." <= p
  {
    JoinSplit(p);
    var parts := Split(p);
    if |parts| > 1 && parts[0] == key {
      assert p == (key + ".") + Join(parts[1..]);
    }
    if key + "." <= p {
      var rest := p[|key| + 1..];
      assert p == key + "." + rest;
      SplitConcat(key, rest);
      NoDotSplit(key);
    }
  }

  /** A reference asks for a field of the line number if it starts with "line_number." and there is one. */
  lemma {:induction false} AsksLineNumberMeans(inputs: MergedInputs, p: string)
    ensures AsksLineNumber(inputs, p) <==> inputs.line.Some? && "line_number." <= p
  {
    assert '.' !in LINE_NUMBER_KEY && LINE_NUMBER_KEY + "." == "line_number.";
    FirstPart(p, LINE_NUMBER_KEY);
  }

  // The reference of an entry; the entry of the reserved key is ignored.
  function ReferenceOf(entry: MappingEntry): Option<string> {
    if entry.key != LINE_NUMBER_KEY && entry.value.Text? then MatchReference(entry.value.text) else None
  }

  ghost predicate Unresolved(inputs: MergedInputs, entry: MappingEntry) {
    ReferenceOf(entry).Some? && !Resolvable(inputs, ReferenceOf(entry).value)
  }

  // The texts of the unresolved references, in order.
  ghost function UnresolvedTexts(inputs: MergedInputs, mapping: seq<MappingEntry>): seq<string> {
    if mapping == [] then []
    else
      var last := mapping[|mapping| - 1];
      UnresolvedTexts(inputs, mapping[..|mapping| - 1]) + (if Unresolved(inputs, last) then [last.value.text] else [])
  }

  // What the result holds for an entry of the mapping.
  ghost predicate Mapped(inputs: MergedInputs, entry: MappingEntry, value: Value) {
    match ReferenceOf(entry)
    case None => value == entry.value
    case Some(p) => exists key, source :: ShortestKey(inputs, p, key, source) && value == inputs.sources[key][source]
  }

  ghost predicate DistinctEntries(mapping: seq<MappingEntry>) {
    forall i, j :: 0 <= i < j < |mapping| ==> mapping[i].key != mapping[j].key
  }

  // A row that holds the image of every entry and the line number, and nothing else.
  ghost predicate IsImage(inputs: MergedInputs, mapping: seq<MappingEntry>, row: Row) {
    && (forall k :: 0 <= k < |mapping| && mapping[k].key != LINE_NUMBER_KEY ==>
          mapping[k].key in row && Mapped(inputs, mapping[k], row[mapping[k].key]))
    && (forall x :: x in row && x != LINE_NUMBER_KEY ==> exists k :: 0 <= k < |mapping| && mapping[k].key == x)
    && (if inputs.line.Some? then LINE_NUMBER_KEY in row && row[LINE_NUMBER_KEY] == inputs.line.value
        else LINE_NUMBER_KEY !in row)
  }

  ghost predicate AnyAsksLineNumber(inputs: MergedInputs, mapping: seq<MappingEntry>) {
    exists k :: 0 <= k < |mapping| && ReferenceOf(mapping[k]).Some?
        && AsksLineNumber(inputs, ReferenceOf(mapping[k]).value)
  }

  /** Every reference takes the value under the shortest existing key; if some cannot be resolved all
      of them are reported together, in order. */
  method ApplyInputsMapping(inputs: MergedInputs, mapping: seq<MappingEntry>) returns (r: Result<Row, MappingError>)
    requires DistinctEntries(mapping)
    ensures r == Err(LineNumberIsNotADictionary) <==> AnyAsksLineNumber(inputs, mapping)
    ensures r.Err? && r.error.MappingSourceNotFound? <==>
              !AnyAsksLineNumber(inputs, mapping) && UnresolvedTexts(inputs, mapping) != []
    ensures r.Err? && r.error.MappingSourceNotFound? ==> r.error.relations == UnresolvedTexts(inputs, mapping)
    ensures r.Ok? <==> !AnyAsksLineNumber(inputs, mapping) && UnresolvedTexts(inputs, mapping) == []
    ensures r.Ok? ==> IsImage(inputs, mapping, r.value)
    ensures Fault(inputs, mapping) == if r.Ok? then None else Some(r.error)
  {
    var row: Row := map[];
    var notFound: seq<string> := [];
    for k := 0 to |mapping|
      invariant notFound == UnresolvedTexts(inputs, mapping[..k])
      invariant !AnyAsksLineNumber(inputs, mapping[..k])
      invariant KeysAmong(mapping, k, row) && (notFound == [] ==> ImagesAmong(inputs, mapping, k, row))
    {
      var entry := mapping[k];
      assert mapping[..k + 1] == mapping[..k] + [entry];
      var image := MapEntry(inputs, entry);
      EntryStep(inputs, mapping[..k], entry);
      match image
      case Unreadable =>
        PrefixAsks(inputs, mapping, k + 1);
        return Err(LineNumberIsNotADictionary);
      case Missing => notFound := notFound + [entry.value.text];
      case Ignored =>
      case Image(value) =>
        RowStep(inputs, mapping, k, row, value);
        row := row[entry.key := value];
    }
    assert mapping[..|mapping|] == mapping;
    if notFound != [] {
      return Err(MappingSourceNotFound(notFound));
    }
    RowComplete(inputs, mapping, row);
    if inputs.line.Some? {
      row := row[LINE_NUMBER_KEY := inputs.line.value];
    }
    r := Ok(row);
  }

  lemma {:induction false} PrefixAsks(inputs: MergedInputs, mapping: seq<MappingEntry>, k: nat)
    requires k <= |mapping| && AnyAsksLineNumber(inputs, mapping[..k])
    ensures AnyAsksLineNumber(inputs, mapping)
  {
    var j :| 0 <= j < k && ReferenceOf(mapping[..k][j]).Some?
        && AsksLineNumber(inputs, ReferenceOf(mapping[..k][j]).value);
    assert mapping[..k][j] == mapping[j];
  }

  lemma {:induction false} RowComplete(inputs: MergedInputs, mapping: seq<MappingEntry>, row: Row)
    requires KeysAmong(mapping, |mapping|, row) && ImagesAmong(inputs, mapping, |mapping|, row)
    ensures IsImage(inputs, mapping, if inputs.line.Some? then row[LINE_NUMBER_KEY := inputs.line.value] else row)
  {
  }

  datatype EntryImage = Ignored | Missing | Unreadable | Image(value: Value)

  // One round of the loop.
  method MapEntry(inputs: MergedInputs, entry: MappingEntry) returns (image: EntryImage)
    ensures image.Ignored? <==> entry.key == LINE_NUMBER_KEY
    ensures image.Unreadable? <==> AnyAsksLineNumber(inputs, [entry])
    ensures image.Missing? <==> !image.Unreadable? && Unresolved(inputs, entry)
    ensures image.Image? ==> Mapped(inputs, entry, image.value)
  {
    assert [entry][0] == entry;
    if entry.key == LINE_NUMBER_KEY {
      return Ignored;
    }
    match ReferenceOf(entry)
    case None => image := Image(entry.value);
    case Some(p) =>
      var found := FindSource(inputs, p);
      match found
      case NotADictionary => image := Unreadable;
      case NotFound => image := Missing;
      case Found(value) => image := Image(value);
  }

  lemma {:induction false} EntryStep(inputs: MergedInputs, mapping: seq<MappingEntry>, entry: MappingEntry)
    ensures AnyAsksLineNumber(inputs, mapping + [entry])
       <==> AnyAsksLineNumber(inputs, mapping) || AnyAsksLineNumber(inputs, [entry])
    ensures UnresolvedTexts(inputs, mapping + [entry])
         == UnresolvedTexts(inputs, mapping) + (if Unresolved(inputs, entry) then [entry.value.text] else [])
  {
    var longer := mapping + [entry];
    assert longer[..|mapping|] == mapping && longer[|mapping|] == entry && [entry][0] == entry;
    if AnyAsksLineNumber(inputs, mapping) {
      var k :| 0 <= k < |mapping| && ReferenceOf(mapping[k]).Some?
          && AsksLineNumber(inputs, ReferenceOf(mapping[k]).value);
      assert longer[k] == mapping[k];
    }
  }

  // The first k entries have their images in the row.
  ghost predicate ImagesAmong(inputs: MergedInputs, mapping: seq<MappingEntry>, k: nat, row: Row) {
    forall j :: 0 <= j < k && j < |mapping| && mapping[j].key != LINE_NUMBER_KEY ==>
      mapping[j].key in row && Mapped(inputs, mapping[j], row[mapping[j].key])
  }

  // The row has no keys but those of the first k entries.
  ghost predicate KeysAmong(mapping: seq<MappingEntry>, k: nat, row: Row) {
    forall x :: x in row ==> x != LINE_NUMBER_KEY && exists j :: 0 <= j < k && j < |mapping| && mapping[j].key == x
  }

  lemma {:induction false} RowStep(inputs: MergedInputs, mapping: seq<MappingEntry>, k: nat, row: Row, value: Value)
    requires DistinctEntries(mapping) && k < |mapping| && mapping[k].key != LINE_NUMBER_KEY
    requires KeysAmong(mapping, k, row) && Mapped(inputs, mapping[k], value)
    ensures KeysAmong(mapping, k + 1, row[mapping[k].key := value])
    ensures ImagesAmong(inputs, mapping, k, row) ==> ImagesAmong(inputs, mapping, k + 1, row[mapping[k].key := value])
  {
    var longer := row[mapping[k].key := value];
    forall x | x in longer
      ensures x != LINE_NUMBER_KEY && exists j :: 0 <= j < k + 1 && j < |mapping| && mapping[j].key == x
    {
      if x in row {
        var j :| 0 <= j < k && j < |mapping| && mapping[j].key == x;
      }
    }
    if ImagesAmong(inputs, mapping, k, row) {
      forall j | 0 <= j < k + 1 && mapping[j].key != LINE_NUMBER_KEY
        ensures mapping[j].key in longer && Mapped(inputs, mapping[j], longer[mapping[j].key]) {
        if j < k {
          assert mapping[j].key in row;
        }
      }
    }
  }

  // ---------- all lines ----------

  ghost predicate ImagesInOrder(merged: seq<MergedLine>, mapping: seq<MappingEntry>, rows: seq<Row>) {
    && |rows| == |merged|
    && forall k :: 0 <= k < |rows| ==> IsImage(LineInputs(merged[k]), mapping, rows[k])
  }

  // The lists can be merged: none is empty, and positional ones have one length.
  ghost predicate Mergeable(inputs: seq<Source>) {
    (forall k :: 0 <= k < |inputs| ==> inputs[k].rows != []) && Aligned(inputs)
  }

  // Some line has an item in every input, and there is an input.
  ghost predicate HasCompleteLine(inputs: seq<Source>) {
    inputs != [] && exists line :: CompleteLine(inputs, line)
  }

  ghost predicate CompleteLine(inputs: seq<Source>, line: Value) {
    forall k :: 0 <= k < |inputs| ==> Supplies(inputs[k], line)
  }

  function LineInputs(m: MergedLine): MergedInputs {
    MergedInputs(m.rows, Some(m.line))
  }

  // What mapping one line fails with.
  ghost function Fault(inputs: MergedInputs, mapping: seq<MappingEntry>): Option<MappingError> {
    if AnyAsksLineNumber(inputs, mapping) then Some(LineNumberIsNotADictionary)
    else if UnresolvedTexts(inputs, mapping) != [] then Some(MappingSourceNotFound(UnresolvedTexts(inputs, mapping)))
    else None
  }

  ghost predicate FaultlessBefore(merged: seq<MergedLine>, mapping: seq<MappingEntry>, k: nat) {
    forall j :: 0 <= j < k && j < |merged| ==> Fault(LineInputs(merged[j]), mapping).None?
  }

  lemma {:induction false} JoinEmptyIff(inputs: seq<Source>, merged: seq<MergedLine>)
    requires IsJoin(inputs, merged)
    ensures merged != [] <==> HasCompleteLine(inputs)
  {
    if merged != [] {
      assert LinesOf(merged)[0] in LinesOf(merged);
      assert CompleteLine(inputs, LinesOf(merged)[0]);
    }
    if HasCompleteLine(inputs) {
      var line :| CompleteLine(inputs, line);
      assert line in LinesOf(merged);
    }
  }

  // The error is that of the first line that has one.
  ghost predicate FirstFault(merged: seq<MergedLine>, mapping: seq<MappingEntry>, error: MappingError) {
    exists k :: 0 <= k < |merged| && FaultlessBefore(merged, mapping, k)
        && Fault(LineInputs(merged[k]), mapping) == Some(error)
  }

  method MapLines(merged: seq<MergedLine>, mapping: seq<MappingEntry>) returns (r: Result<seq<Row>, MappingError>)
    requires DistinctEntries(mapping)
    ensures r.Ok? <==> FaultlessBefore(merged, mapping, |merged|)
    ensures r.Ok? ==> ImagesInOrder(merged, mapping, r.value)
    ensures r.Err? ==> FirstFault(merged, mapping, r.error)
  {
    var rows: seq<Row> := [];
    for k := 0 to |merged|
      invariant |rows| == k && FaultlessBefore(merged, mapping, k)
      invariant forall j :: 0 <= j < k ==> IsImage(LineInputs(merged[j]), mapping, rows[j])
    {
      var row := ApplyInputsMapping(LineInputs(merged[k]), mapping);
      match row
      case Err(error) => return Err(error);
      case Ok(value) => rows := rows + [value];
    }
    r := Ok(rows);
  }

  /** The batch handed to the flow: one row per joined line, in the order of the join, carrying the
      number of its line.  Every error has its exact condition; a mapping error is that of the first
      joined line that has one. */
  method ApplyInputsMappingForAllLines(inputs: seq<Source>, mapping: seq<MappingEntry>)
    returns (r: Result<seq<Row>, MappingError>, ghost merged: seq<MergedLine>)
    requires DistinctKeys(inputs) && DistinctEntries(mapping)
    ensures r.Err? && r.error.Merge? <==> !Mergeable(inputs)
    ensures r == Err(Merge(LineNumberNotAlign)) <==>
              (forall k :: 0 <= k < |inputs| ==> inputs[k].rows != []) && !Aligned(inputs)
    ensures r.Err? && r.error.Merge? && r.error.error.EmptyInputList? ==> FirstEmpty(inputs, r.error.error.key)
    ensures r == Err(EmptyInputAfterMapping) <==> Mergeable(inputs) && !HasCompleteLine(inputs)
    ensures Mergeable(inputs) ==> IsJoin(inputs, merged)
    ensures r.Ok? <==> Mergeable(inputs) && HasCompleteLine(inputs) && FaultlessBefore(merged, mapping, |merged|)
    ensures r.Ok? ==> r.value != [] && ImagesInOrder(merged, mapping, r.value)
    ensures r.Err? && !r.error.Merge? && r.error != EmptyInputAfterMapping ==> FirstFault(merged, mapping, r.error)
  {
    merged := [];
    var joined := MergeInputDictsByLine(inputs);
    if joined.Err? {
      return Err(Merge(joined.error)), merged;
    }
    merged := joined.value;
    JoinEmptyIff(inputs, merged);
    if joined.value == [] {
      return Err(EmptyInputAfterMapping), merged;
    }
    r := MapLines(joined.value, mapping);
  }
}
