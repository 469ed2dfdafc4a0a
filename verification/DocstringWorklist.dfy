/** Division of source text into pieces that fit a model's prompt, and the merge of the generated
    docstrings back into the pieces.  Division is a loop over a stack of texts that are still to be
    tried; merging is a loop over the definitions of a piece, each of which is kept, gets its first
    docstring replaced, or gets one inserted behind its header. */
module DocstringWorklist {
  import opened Prelude

  // A definition found in a text: its normalized signature and the span of its header.
  datatype Definition = Definition(signature: string, start: nat, end: nat)

  datatype Validation = Fits | TooLong | OtherFailure

  // The text analysis that regular expressions and string formatting do: the definitions of a text,
  // its docstrings, a docstring indented for a header, and a text without surrounding blanks.
  datatype Analysis = Analysis(definitions: string -> seq<Definition>, docstrings: string -> seq<string>,
                               indented: (string, string) -> string, stripped: string -> string)

  type Analyzer = an: Analysis | WellBehaved(an) ghost witness BLIND

  ghost const BLIND := Analysis(text => [], text => [], (doc, header) => doc, text => text)

  // Matches are not empty, do not overlap, and come in the order of the text.
  ghost predicate Spans(ds: seq<Definition>, length: nat) {
    && (forall k :: 0 <= k < |ds| ==> ds[k].start < ds[k].end <= length)
    && forall j, k :: 0 <= j < k < |ds| ==> ds[j].end <= ds[k].start
  }

  // Every docstring is found somewhere in the text.
  ghost predicate Found(docs: seq<string>, text: string) {
    forall k :: 0 <= k < |docs| ==> OccursIn(docs[k], text)
  }

  ghost predicate OccursIn(part: string, text: string) {
    exists i :: OccursAt(part, text, i)
  }

  predicate OccursAt(part: string, text: string, i: int) {
    0 <= i && i + |part| <= |text| && text[i..i + |part|] == part
  }

  ghost predicate WellBehaved(an: Analysis) {
    && (forall text: string :: Spans(an.definitions(text), |text|))
    && forall text: string :: Found(an.docstrings(text), text)
  }

  function Reversed<T>(s: seq<T>): seq<T> {
    seq(|s|, i requires 0 <= i < |s| => s[|s| - 1 - i])
  }

  function Combine(parts: seq<string>): string {
    if parts == [] then "" else parts[0] + Combine(parts[1..])
  }

  lemma {:induction false} CombineConcat(a: seq<string>, b: seq<string>)
    ensures Combine(a + b) == Combine(a) + Combine(b)
  {
    if a == [] {
      assert a + b == b;
    } else {
      assert (a + b)[1..] == a[1..] + b;
      CombineConcat(a[1..], b);
    }
  }

  function Characters(text: string): seq<string> {
    seq(|text|, i requires 0 <= i < |text| => [text[i]])
  }

  lemma {:induction false} CombineCharacters(text: string)
    ensures Combine(Characters(text)) == text
  {
    if text != "" {
      assert Characters(text)[1..] == Characters(text[1..]);
      CombineCharacters(text[1..]);
    }
  }

  // Two halves cut before the middle definition, or the text itself; what its user then sees of a
  // text is its length and its characters.
  function DivideHalf(text: string, an: Analyzer): seq<string>
  {
    var ds := an.definitions(text);
    if |ds| > 1 then
      assert Spans(ds, |text|);
      [text[..ds[|ds| / 2].start], text[ds[|ds| / 2].start..]]
    else
      Characters(text)
  }

  lemma {:induction false} HalvesAreSmaller(text: string, an: Analyzer)
    requires |an.definitions(text)| > 1
    ensures |DivideHalf(text, an)| == 2 && DivideHalf(text, an)[0] + DivideHalf(text, an)[1] == text
    ensures 0 < |DivideHalf(text, an)[0]| < |text| && 0 < |DivideHalf(text, an)[1]| < |text|
    ensures forall j :: 0 <= j < |an.definitions(text)| ==>
              (an.definitions(text)[j].start < |DivideHalf(text, an)[0]| <==> j < |an.definitions(text)| / 2)
  {
    var ds := an.definitions(text);
    assert Spans(ds, |text|);
    var m := |ds| / 2;
    assert ds[0].start < ds[0].end <= ds[m].start < ds[m].end <= |text|;
    assert forall j :: 0 <= j < m ==> ds[j].start < ds[j].end <= ds[m].start;
    assert forall j :: m < j < |ds| ==> ds[m].end <= ds[j].start;
  }

  /** What becomes of one text: it stays whole if it fits or has no two characters, its halves are
      divided further if it has two definitions, and it falls into characters otherwise. */
  function Pieces(text: string, validate: string -> Validation, an: Analyzer): (pieces: seq<string>)
    ensures |pieces| >= 1
    decreases |text|
  {
    if !validate(text).TooLong? || |text| <= 1 then [text]
    else if |an.definitions(text)| > 1 then
      HalvesAreSmaller(text, an);
      var halves := DivideHalf(text, an);
      Pieces(halves[0], validate, an) + Pieces(halves[1], validate, an)
    else Characters(text)
  }

  function FlatMap<T, U>(s: seq<T>, f: T -> seq<U>): seq<U> {
    if s == [] then [] else f(s[0]) + FlatMap(s[1..], f)
  }

  lemma {:induction false} FlatMapConcat<T, U>(a: seq<T>, b: seq<T>, f: T -> seq<U>)
    ensures FlatMap(a + b, f) == FlatMap(a, f) + FlatMap(b, f)
  {
    if a == [] {
      assert a + b == b;
    } else {
      assert (a + b)[1..] == a[1..] + b;
      FlatMapConcat(a[1..], b, f);
    }
  }

  function AllPieces(parts: seq<string>, validate: string -> Validation, an: Analyzer): seq<string> {
    FlatMap(parts, text => Pieces(text, validate, an))
  }

  lemma {:induction false} AllPiecesCons(text: string, rest: seq<string>, validate: string -> Validation, an: Analyzer)
    ensures AllPieces([text] + rest, validate, an) == Pieces(text, validate, an) + AllPieces(rest, validate, an)
  {
    assert ([text] + rest)[1..] == rest;
  }

  lemma {:induction false} PiecesConserve(text: string, validate: string -> Validation, an: Analyzer)
    ensures Combine(Pieces(text, validate, an)) == text
    decreases |text|
  {
    if !validate(text).TooLong? || |text| <= 1 {
    } else if |an.definitions(text)| > 1 {
      HalvesAreSmaller(text, an);
      var halves := DivideHalf(text, an);
      PiecesConserve(halves[0], validate, an);
      PiecesConserve(halves[1], validate, an);
      CombineConcat(Pieces(halves[0], validate, an), Pieces(halves[1], validate, an));
    } else {
      CombineCharacters(text);
    }
  }

  /** Whatever the validation answers, no character is lost, added or moved. */
  lemma {:induction false} DivisionConserves(parts: seq<string>, validate: string -> Validation, an: Analyzer)
    ensures Combine(AllPieces(parts, validate, an)) == Combine(parts)
  {
    if parts != [] {
      PiecesConserve(parts[0], validate, an);
      DivisionConserves(parts[1..], validate, an);
      CombineConcat(Pieces(parts[0], validate, an), AllPieces(parts[1..], validate, an));
    }
  }

  // The piece is accepted or cannot be divided.
  predicate Fitting(piece: string, validate: string -> Validation) {
    !validate(piece).TooLong? || |piece| <= 1
  }

  lemma {:induction false} PiecesFit(text: string, validate: string -> Validation, an: Analyzer)
    ensures forall p :: p in Pieces(text, validate, an) ==> Fitting(p, validate)
    decreases |text|
  {
    if validate(text).TooLong? && |text| > 1 && |an.definitions(text)| > 1 {
      HalvesAreSmaller(text, an);
      var halves := DivideHalf(text, an);
      PiecesFit(halves[0], validate, an);
      PiecesFit(halves[1], validate, an);
    }
  }

  lemma {:induction false} FlatMapSource<T, U>(s: seq<T>, f: T -> seq<U>, k: nat) returns (i: nat, j: nat)
    requires k < |FlatMap(s, f)|
    ensures i < |s| && j < |f(s[i])| && FlatMap(s, f)[k] == f(s[i])[j]
  {
    if k < |f(s[0])| {
      i, j := 0, k;
    } else {
      i, j := FlatMapSource(s[1..], f, k - |f(s[0])|);
      i := i + 1;
    }
  }

  /** Every piece is accepted or cannot be divided. */
  lemma {:induction false} AllPiecesFit(parts: seq<string>, validate: string -> Validation, an: Analyzer, k: nat)
    requires k < |AllPieces(parts, validate, an)|
    ensures Fitting(AllPieces(parts, validate, an)[k], validate)
  {
    var i, j := FlatMapSource(parts, text => Pieces(text, validate, an), k);
    PiecesFit(parts[i], validate, an);
    assert Pieces(parts[i], validate, an)[j] in Pieces(parts[i], validate, an);
  }

  /** A text is divided exactly when it is refused for its length and has two characters to divide. */
  lemma {:induction false} StaysWholeIff(text: string, validate: string -> Validation, an: Analyzer)
    ensures Pieces(text, validate, an) == [text] <==> (validate(text).TooLong? ==> |text| <= 1)
  {
    if validate(text).TooLong? && |text| > 1 {
      assert |Pieces(text, validate, an)| > 1;
    }
  }

  // ---------- The work list ----------

  function Weight(text: string): nat {
    if text == "" then 1 else 2 * |text| - 1
  }

  function Weights(stack: seq<string>): nat {
    if stack == [] then 0 else Weights(stack[..|stack| - 1]) + Weight(stack[|stack| - 1])
  }

  lemma {:induction false} WeightsConcat(a: seq<string>, b: seq<string>)
    ensures Weights(a + b) == Weights(a) + Weights(b)
  {
    if b == [] {
      assert a + b == a;
    } else {
      assert (a + b)[..|a + b| - 1] == a + b[..|b| - 1];
      WeightsConcat(a, b[..|b| - 1]);
    }
  }

  lemma {:induction false} WeightsOfCharacters(parts: seq<string>)
    requires forall k :: 0 <= k < |parts| ==> |parts[k]| == 1
    ensures Weights(parts) == |parts|
  {
    if parts != [] {
      WeightsOfCharacters(parts[..|parts| - 1]);
    }
  }

  /** Dividing a text lowers the weight, even when it falls into single characters. */
  lemma {:induction false} DivisionIsLighter(text: string, an: Analyzer)
    requires |DivideHalf(text, an)| > 1
    ensures Weights(Reversed(DivideHalf(text, an))) < Weight(text)
  {
    var parts := DivideHalf(text, an);
    if |an.definitions(text)| > 1 {
      HalvesAreSmaller(text, an);
      assert Reversed(parts) == [parts[1], parts[0]];
      assert Reversed(parts)[..1] == [parts[1]] && [parts[1]][..0] == [];
      assert Weights([parts[1]]) == Weight(parts[1]);
    } else {
      WeightsOfCharacters(Reversed(parts));
    }
  }

  lemma {:induction false} CharactersStay(text: string, validate: string -> Validation, an: Analyzer)
    ensures AllPieces(Characters(text), validate, an) == Characters(text)
  {
    if text != "" {
      var cs := Characters(text);
      assert cs[1..] == Characters(text[1..]);
      CharactersStay(text[1..], validate, an);
      assert Pieces(cs[0], validate, an) == [cs[0]];
    }
  }

  // Putting the parts of a text in its place does not change the outcome.
  lemma {:induction false} PartsStandForText(text: string, validate: string -> Validation, an: Analyzer)
    ensures |DivideHalf(text, an)| > 1 <==> |text| > 1
    ensures validate(text).TooLong? && |text| > 1 ==>
              AllPieces(DivideHalf(text, an), validate, an) == Pieces(text, validate, an)
  {
    if |an.definitions(text)| > 1 {
      HalvesAreSmaller(text, an);
      var halves := DivideHalf(text, an);
      assert halves == [halves[0]] + [halves[1]] && [halves[1]] == [halves[1]] + [];
      AllPiecesCons(halves[0], [halves[1]], validate, an);
      AllPiecesCons(halves[1], [], validate, an);
    } else {
      CharactersStay(text, validate, an);
    }
  }

  lemma {:induction false} TopOfStack(rest: seq<string>, item: string)
    ensures Reversed(rest + [item]) == [item] + Reversed(rest)
  {
  }

  lemma {:induction false} PushParts(stack: seq<string>, parts: seq<string>)
    ensures Reversed(stack + Reversed(parts)) == parts + Reversed(stack)
  {
  }

  // The pieces so far and those of what is still on the stack are all the pieces.
  ghost predicate Outcome(
    pieces: seq<string>, done: seq<string>, stack: seq<string>, validate: string -> Validation, an: Analyzer)
  {
    done + AllPieces(Reversed(stack), validate, an) == pieces
  }

  lemma {:induction false} DivideStep(pieces: seq<string>, done: seq<string>, rest: seq<string>, item: string,
                                      validate: string -> Validation, an: Analyzer)
    requires Outcome(pieces, done, rest + [item], validate, an)
    requires validate(item).TooLong? && |DivideHalf(item, an)| > 1
    ensures Outcome(pieces, done, rest + Reversed(DivideHalf(item, an)), validate, an)
    ensures Weights(rest + Reversed(DivideHalf(item, an))) < Weights(rest + [item])
  {
    var parts := DivideHalf(item, an);
    TopOfStack(rest, item);
    AllPiecesCons(item, Reversed(rest), validate, an);
    PartsStandForText(item, validate, an);
    PushParts(rest, parts);
    FlatMapConcat(parts, Reversed(rest), text => Pieces(text, validate, an));
    DivisionIsLighter(item, an);
    WeightsConcat(rest, Reversed(parts));
    WeightsSnoc(rest, item);
  }

  lemma {:induction false} KeepStep(pieces: seq<string>, done: seq<string>, rest: seq<string>, item: string,
                                    validate: string -> Validation, an: Analyzer)
    requires Outcome(pieces, done, rest + [item], validate, an)
    requires !validate(item).TooLong? || |DivideHalf(item, an)| <= 1
    ensures Outcome(pieces, done + [item], rest, validate, an)
    ensures Weights(rest) < Weights(rest + [item])
  {
    TopOfStack(rest, item);
    AllPiecesCons(item, Reversed(rest), validate, an);
    PartsStandForText(item, validate, an);
    assert Pieces(item, validate, an) == [item];
    assert done + ([item] + AllPieces(Reversed(rest), validate, an)) ==
        done + [item] + AllPieces(Reversed(rest), validate, an);
    WeightsSnoc(rest, item);
  }

  lemma {:induction false} WeightsSnoc(rest: seq<string>, item: string)
    ensures Weights(rest + [item]) == Weights(rest) + Weight(item)
  {
    assert (rest + [item])[..|rest|] == rest;
  }

  // What the loop does with the top of the stack keeps the outcome and makes the stack lighter.
  lemma {:induction false} RoundKeeps(pieces: seq<string>, done: seq<string>, stack: seq<string>,
                                      validate: string -> Validation, an: Analyzer)
    requires stack != [] && Outcome(pieces, done, stack, validate, an)
    ensures var item, rest := stack[|stack| - 1], stack[..|stack| - 1];
      var pushed := rest + Reversed(DivideHalf(item, an));
      if validate(item).TooLong? && |DivideHalf(item, an)| > 1
      then Outcome(pieces, done, pushed, validate, an) && Weights(pushed) < Weights(stack)
      else Outcome(pieces, done + [item], rest, validate, an) && Weights(rest) < Weights(stack)
  {
    var item, rest := stack[|stack| - 1], stack[..|stack| - 1];
    assert stack == rest + [item];
    if validate(item).TooLong? && |DivideHalf(item, an)| > 1 {
      DivideStep(pieces, done, rest, item, validate, an);
    } else {
      KeepStep(pieces, done, rest, item, validate, an);
    }
  }

  lemma {:induction false} OutcomeStarts(input: seq<string>, validate: string -> Validation, an: Analyzer)
    ensures Outcome(AllPieces(input, validate, an), [], Reversed(input), validate, an)
  {
    assert Reversed(Reversed(input)) == input;
  }

  lemma {:induction false} OutcomeEnds(
    pieces: seq<string>, done: seq<string>, validate: string -> Validation, an: Analyzer)
    requires Outcome(pieces, done, [], validate, an)
    ensures done == pieces
  {
    assert Reversed<string>([]) == [];
  }

  /** The loop over a stack computes the recursive division, and ends. */
  method DivideAll(input: seq<string>, validate: string -> Validation, an: Analyzer) returns (allDivided: seq<string>)
    ensures allDivided == AllPieces(input, validate, an)
  {
    var divided := Reversed(input);
    allDivided := [];
    ghost var pieces := AllPieces(input, validate, an);
    OutcomeStarts(input, validate, an);
    while |divided| > 0
      invariant Outcome(pieces, allDivided, divided, validate, an)
      decreases Weights(divided)
    {
      RoundKeeps(pieces, allDivided, divided, validate, an);
      var item := divided[|divided| - 1];
      divided := divided[..|divided| - 1];
      if validate(item).TooLong? {
        var parts := DivideHalf(item, an);
        if |parts| > 1 {
          divided := divided + Reversed(parts);
          continue;
        }
      }
      allDivided := allDivided + [item];
    }
    OutcomeEnds(pieces, allDivided, validate, an);
  }

  // ---------- Merging docstrings ----------

  // Where the k-th definition begins, or the end of the text.
  function StartOf(ds: seq<Definition>, k: nat, length: nat): nat
  {
    if k < |ds| then ds[k].start else length
  }

  // The text of the k-th definition, up to the next one.
  function Segment(code: string, ds: seq<Definition>, k: nat): string
    requires k < |ds|
  {
    Slice(code, ds[k].start, StartOf(ds, k + 1, |code|))
  }

  function HeaderOf(code: string, ds: seq<Definition>, k: nat): string
    requires k < |ds|
  {
    Slice(code, ds[k].start, ds[k].end)
  }

  // The same without its header.
  function Body(code: string, ds: seq<Definition>, k: nat): string
    requires k < |ds|
  {
    Slice(code, ds[k].end, StartOf(ds, k + 1, |code|))
  }

  function IndexOf(ds: seq<Definition>, signature: string): (i: nat)
    ensures i <= |ds|
    ensures forall j :: 0 <= j < i ==> ds[j].signature != signature
    ensures i < |ds| ==> ds[i].signature == signature
  {
    if ds == [] || ds[0].signature == signature then 0 else 1 + IndexOf(ds[1..], signature)
  }

  // The docstring that the answer gives for the first definition with this signature.
  function NewDoc(answer: string, signature: string, an: Analysis): Option<string> {
    var ds := an.definitions(answer);
    var i := IndexOf(ds, signature);
    if i == |ds| then None
    else
      var docs := an.docstrings(Body(answer, ds, i));
      if docs == [] then None else Some(docs[0])
  }

  // Position i is that of the first definition with the signature.
  ghost predicate FirstWithSignature(ds: seq<Definition>, signature: string, i: nat) {
    && i < |ds| && ds[i].signature == signature
    && forall j :: 0 <= j < i ==> ds[j].signature != signature
  }

  // The text behind the header of the i-th definition, up to the next definition or the end.
  ghost predicate BodyBehind(text: string, ds: seq<Definition>, i: nat, body: string)
    requires i < |ds|
  {
    var end := if i + 1 < |ds| then ds[i + 1].start else |text|;
    ds[i].end <= end <= |text| && body == text[ds[i].end..end]
  }

  // The docstring is the first in the body of the first definition with the signature.
  ghost predicate Answers(text: string, signature: string, an: Analysis, doc: string) {
    exists i: nat, body :: FirstWithSignature(an.definitions(text), signature, i)
      && BodyBehind(text, an.definitions(text), i, body)
      && an.docstrings(body) != [] && an.docstrings(body)[0] == doc
  }

  /** A definition gets the first docstring of the first definition in the answer that has its signature. */
  lemma {:induction false} NewDocMeans(answer: string, signature: string, an: Analyzer, doc: string)
    ensures NewDoc(answer, signature, an) == Some(doc) <==> Answers(answer, signature, an, doc)
  {
    var ds := an.definitions(answer);
    var i := IndexOf(ds, signature);
    if i < |ds| {
      BodyIsBehind(answer, ds, i, Body(answer, ds, i), an);
      assert NewDoc(answer, signature, an) == Some(doc) ==> FirstWithSignature(ds, signature, i);
    }
    if Answers(answer, signature, an, doc) {
      var first: nat, body :| FirstWithSignature(ds, signature, first) && BodyBehind(answer, ds, first, body)
        && an.docstrings(body) != [] && an.docstrings(body)[0] == doc;
      FirstIsIndex(ds, signature, first);
      BodyIsBehind(answer, ds, first, body, an);
    }
  }

  lemma {:induction false} FirstIsIndex(ds: seq<Definition>, signature: string, i: nat)
    requires FirstWithSignature(ds, signature, i)
    ensures IndexOf(ds, signature) == i
  {
  }

  lemma {:induction false} BodyIsBehind(text: string, ds: seq<Definition>, i: nat, body: string, an: Analyzer)
    requires ds == an.definitions(text) && i < |ds|
    ensures BodyBehind(text, ds, i, body) <==> body == Body(text, ds, i)
  {
    assert Spans(ds, |text|);
  }

  function FirstAt(part: string, text: string, i: nat): nat
    requires i <= |text|
    decreases |text| - i
  {
    if OccursAt(part, text, i) || i == |text| then i else FirstAt(part, text, i + 1)
  }

  lemma {:induction false} FirstAtFinds(part: string, text: string, i: nat, at: nat)
    requires i <= at && OccursAt(part, text, at)
    ensures i <= FirstAt(part, text, i) <= at && OccursAt(part, text, FirstAt(part, text, i))
    decreases at - i
  {
    if !OccursAt(part, text, i) {
      FirstAtFinds(part, text, i + 1, at);
    }
  }

  // Replacement of the first occurrence, if there is one.
  function ReplaceOnce(text: string, part: string, replacement: string): string {
    var i := FirstAt(part, text, 0);
    if OccursAt(part, text, i) then text[..i] + replacement + text[i + |part|..] else text
  }

  function MergedSegment(answer: string, code: string, ds: seq<Definition>, k: nat, an: Analysis): string
    requires k < |ds|
  {
    var newDoc := NewDoc(answer, ds[k].signature, an);
    if newDoc.None? then Segment(code, ds, k)
    else
      var addition := an.indented(newDoc.value, HeaderOf(code, ds, k));
      var docs := an.docstrings(Body(code, ds, k));
      if docs != [] then ReplaceOnce(Segment(code, ds, k), docs[0], an.stripped(addition))
      else HeaderOf(code, ds, k) + ("\n" + addition + "\n") + Body(code, ds, k)
  }

  function Preamble(code: string, ds: seq<Definition>): string {
    if ds == [] then code else Slice(code, 0, ds[0].start)
  }

  // The k-th definition as it goes into the result.
  function MergedParts(answer: string, code: string, ds: seq<Definition>, an: Analysis): nat -> string {
    (k: nat) => if k < |ds| then MergedSegment(answer, code, ds, k, an) else ""
  }

  // A text followed by the first k parts.
  function UpTo(start: string, part: nat -> string, k: nat): string {
    if k == 0 then start else UpTo(start, part, k - 1) + part(k - 1)
  }

  // The text before the first definition, and the definitions.
  function Merged(answer: string, code: string, an: Analysis): string {
    var ds := an.definitions(code);
    UpTo(Preamble(code, ds), MergedParts(answer, code, ds, an), |ds|)
  }

  // One round of the merge.
  method MergeDefinition(docstring: string, originCode: string, ds2: seq<Definition>, i2: nat, an: Analysis)
    returns (part: string)
    requires i2 < |ds2|
    ensures part == MergedParts(docstring, originCode, ds2, an)(i2)
  {
    var ds1 := an.definitions(docstring);
    part := Segment(originCode, ds2, i2);
    var i1 := IndexOf(ds1, ds2[i2].signature);
    if i1 == |ds1| {
      return;
    }
    var newDoc := an.docstrings(Body(docstring, ds1, i1));
    if newDoc != [] {
      var header := HeaderOf(originCode, ds2, i2);
      var body := Body(originCode, ds2, i2);
      var codeDoc := an.docstrings(body);
      var formatNewDoc := an.indented(newDoc[0], header);
      if codeDoc != [] {
        part := ReplaceOnce(part, codeDoc[0], an.stripped(formatNewDoc));
      } else {
        part := header + ("\n" + formatNewDoc + "\n") + body;
      }
    }
  }

  method MergeDoc2Code(docstring: string, originCode: string, an: Analysis) returns (code: string)
    ensures code == Merged(docstring, originCode, an)
  {
    var ds2 := an.definitions(originCode);
    ghost var parts := MergedParts(docstring, originCode, ds2, an);
    code := Preamble(originCode, ds2);
    for i2 := 0 to |ds2|
      invariant code == UpTo(Preamble(originCode, ds2), parts, i2)
    {
      var part := MergeDefinition(docstring, originCode, ds2, i2, an);
      code := code + part;
    }
  }

  // No definition of the code gets a docstring from the answer.
  ghost predicate NothingNew(answer: string, code: string, an: Analysis) {
    forall d :: d in an.definitions(code) ==> NewDoc(answer, d.signature, an).None?
  }

  lemma {:induction false} UpToEqual(start: string, p: nat -> string, q: nat -> string, k: nat)
    requires forall j: nat :: j < k ==> p(j) == q(j)
    ensures UpTo(start, p, k) == UpTo(start, q, k)
  {
    if k > 0 {
      UpToEqual(start, p, q, k - 1);
    }
  }

  function OriginalParts(code: string, ds: seq<Definition>): nat -> string {
    (k: nat) => if k < |ds| then Segment(code, ds, k) else ""
  }

  // The part between two neighbouring cuts of a text.
  ghost predicate IsCut(text: string, part: nat -> string, cuts: nat -> nat, k: nat) {
    cuts(k) <= cuts(k + 1) <= |text| && part(k) == text[cuts(k)..cuts(k + 1)]
  }

  lemma {:induction false} CutsRejoin(text: string, start: string, part: nat -> string, cuts: nat -> nat, k: nat)
    requires cuts(0) <= |text| && start == text[..cuts(0)]
    requires forall j: nat :: j < k ==> IsCut(text, part, cuts, j)
    ensures cuts(k) <= |text| && UpTo(start, part, k) == text[..cuts(k)]
  {
    if k > 0 {
      CutsRejoin(text, start, part, cuts, k - 1);
      assert IsCut(text, part, cuts, k - 1);
      assert text[..cuts(k)] == text[..cuts(k - 1)] + text[cuts(k - 1)..cuts(k)];
    }
  }

  // The definitions follow one another in the code.
  lemma {:induction false} DefinitionsRejoin(code: string, ds: seq<Definition>)
    requires Spans(ds, |code|)
    ensures UpTo(Preamble(code, ds), OriginalParts(code, ds), |ds|) == code
  {
    var cuts := (k: nat) => StartOf(ds, k, |code|);
    if ds == [] {
      assert code[..|code|] == code;
    }
    forall j: nat | j < |ds| ensures IsCut(code, OriginalParts(code, ds), cuts, j) {
    }
    CutsRejoin(code, Preamble(code, ds), OriginalParts(code, ds), cuts, |ds|);
    assert code[..|code|] == code;
  }

  /** Without a docstring for any of its definitions, the code comes back unchanged. */
  lemma {:induction false} NothingNewKeepsCode(answer: string, code: string, an: Analyzer)
    requires NothingNew(answer, code, an)
    ensures Merged(answer, code, an) == code
  {
    var ds := an.definitions(code);
    assert Spans(ds, |code|);
    var p, q := MergedParts(answer, code, ds, an), OriginalParts(code, ds);
    forall j: nat | j < |ds| ensures p(j) == q(j) {
      assert ds[j] in ds;
    }
    UpToEqual(Preamble(code, ds), p, q, |ds|);
    DefinitionsRejoin(code, ds);
  }

  // text and changed differ at i only, where removed stands in one and added in the other.
  ghost predicate DiffersAt(text: string, changed: string, removed: string, added: string, i: nat) {
    OccursAt(removed, text, i) && changed == text[..i] + added + text[i + |removed|..]
  }

  ghost predicate FirstOccurrence(part: string, text: string, i: nat) {
    OccursAt(part, text, i) && forall j :: 0 <= j < i ==> !OccursAt(part, text, j)
  }

  // The text also stands at a place that begins within the header.
  ghost predicate BeginsInHeader(part: string, header: string, body: string) {
    exists j :: 0 <= j < |header| && OccursAt(part, header + body, j)
  }

  lemma {:induction false} HeaderAndBody(code: string, ds: seq<Definition>, k: nat)
    requires Spans(ds, |code|) && k < |ds|
    ensures Segment(code, ds, k) == HeaderOf(code, ds, k) + Body(code, ds, k)
  {
  }

  lemma {:induction false} FirstAtIsFirst(part: string, text: string, i: nat, at: nat)
    requires i <= at && FirstOccurrence(part, text, at)
    ensures FirstAt(part, text, i) == at
    decreases at - i
  {
    if i < at {
      FirstAtIsFirst(part, text, i + 1, at);
    }
  }

  lemma {:induction false} FirstAtSkips(part: string, text: string, i: nat, j: nat)
    requires i <= |text| && i <= j < FirstAt(part, text, i)
    ensures !OccursAt(part, text, j)
    decreases |text| - i
  {
    if i < j {
      FirstAtSkips(part, text, i + 1, j);
    }
  }

  lemma {:induction false} FirstAtOccurs(part: string, text: string, at: nat)
    requires OccursAt(part, text, at)
    ensures FirstOccurrence(part, text, FirstAt(part, text, 0))
  {
    FirstAtFinds(part, text, 0, at);
    forall j | 0 <= j < FirstAt(part, text, 0) ensures !OccursAt(part, text, j) {
      FirstAtSkips(part, text, 0, j);
    }
  }

  // A text that occurs is replaced where it occurs first.
  lemma {:induction false} ReplacesFirst(text: string, part: string, replacement: string, i: nat)
    requires FirstOccurrence(part, text, i)
    ensures DiffersAt(text, ReplaceOnce(text, part, replacement), part, replacement, i)
  {
    FirstAtIsFirst(part, text, 0, i);
  }

  lemma {:induction false} FirstInBody(header: string, body: string, part: string, i: nat)
    requires FirstOccurrence(part, header + body, i) && i >= |header|
    ensures FirstOccurrence(part, body, i - |header|)
  {
    forall j: nat | j <= i - |header| ensures OccursAt(part, body, j) <==> OccursAt(part, header + body, |header| + j) {
      ShiftOccurrence(part, header, body, j);
    }
  }

  // A change behind the header is a change of the body.
  lemma {:induction false} DiffersInBody(header: string, body: string, changed: string, changedBody: string,
                                         removed: string, added: string, i: nat)
    requires i >= |header| && DiffersAt(header + body, changed, removed, added, i)
    requires DiffersAt(body, changedBody, removed, added, i - |header|)
    ensures changed == header + changedBody
  {
    var at := i - |header|;
    var rest := i + |removed|;
    assert (header + body)[..i] == header + body[..at];
    assert (header + body)[rest..] == body[at + |removed|..];
    PutBehind(header, body[..at], added, body[at + |removed|..]);
  }

  lemma {:induction false} PutBehind(header: string, a: string, b: string, c: string)
    ensures (header + a) + b + c == header + (a + b + c)
  {
  }

  // If it begins nowhere in the header, the body is where it is replaced.
  lemma {:induction false} ReplacesInBody(header: string, body: string, part: string, replacement: string, i: nat)
    requires FirstOccurrence(part, header + body, i) && i >= |header|
    ensures ReplaceOnce(header + body, part, replacement) == header + ReplaceOnce(body, part, replacement)
  {
    FirstInBody(header, body, part, i);
    ReplacesFirst(body, part, replacement, i - |header|);
    ReplacesFirst(header + body, part, replacement, i);
    DiffersInBody(header, body, ReplaceOnce(header + body, part, replacement), ReplaceOnce(body, part, replacement),
                  part, replacement, i);
  }

  lemma {:induction false} InsertsBehind(header: string, body: string, added: string)
    ensures DiffersAt(header + body, header + added + body, "", added, |header|)
  {
    assert (header + body)[..|header|] == header && (header + body)[|header| + 0..] == body;
  }

  // How a definition has changed, at i, given the docstrings of its body and the new text.
  ghost predicate ChangedAt(header: string, body: string, docs: seq<string>, inserted: string, replacement: string,
                            changed: string, i: nat)
  {
    if docs == [] then i == |header| && DiffersAt(header + body, changed, "", inserted, i)
    else
      && FirstOccurrence(docs[0], header + body, i)
      && DiffersAt(header + body, changed, docs[0], replacement, i)
      && (i >= |header| <==> !BeginsInHeader(docs[0], header, body))
      && (i >= |header| ==> changed == header + ReplaceOnce(body, docs[0], replacement))
  }

  lemma {:induction false} ReplacesDocstring(
    header: string, body: string, docs: seq<string>, inserted: string, replacement: string)
    returns (i: nat)
    requires docs != [] && OccursIn(docs[0], body)
    ensures ChangedAt(header, body, docs, inserted, replacement, ReplaceOnce(header + body, docs[0], replacement), i)
  {
    var doc := docs[0];
    var at: int :| OccursAt(doc, body, at);
    ShiftOccurrence(doc, header, body, at);
    FirstAtOccurs(doc, header + body, |header| + at);
    i := FirstAt(doc, header + body, 0);
    ReplacesFirst(header + body, doc, replacement, i);
    if i >= |header| {
      ReplacesInBody(header, body, doc, replacement, i);
    }
  }

  /** A definition that gets a docstring changes in one place i.  Without a docstring of its own that
      is an insertion behind the header.  Otherwise the text of its first docstring is replaced where
      it first occurs in header and body together: that is the docstring in the body if and only if the
      same text does not begin in the header already. */
  lemma {:induction false} OnlyTheDocstringChanges(answer: string, code: string, k: nat, an: Analyzer) returns (i: nat)
    requires k < |an.definitions(code)|
    requires NewDoc(answer, an.definitions(code)[k].signature, an).Some?
    ensures var ds := an.definitions(code);
            var header, body := HeaderOf(code, ds, k), Body(code, ds, k);
            var addition := an.indented(NewDoc(answer, ds[k].signature, an).value, header);
            ChangedAt(header, body, an.docstrings(body), "\n" + addition + "\n", an.stripped(addition),
                      MergedParts(answer, code, ds, an)(k), i)
  {
    var ds := an.definitions(code);
    var header, body := HeaderOf(code, ds, k), Body(code, ds, k);
    var addition := an.indented(NewDoc(answer, ds[k].signature, an).value, header);
    MergedIs(answer, code, k, an);
    if an.docstrings(body) != [] {
      FirstDocOccurs(body, an);
      i := ReplacesDocstring(header, body, an.docstrings(body), "\n" + addition + "\n", an.stripped(addition));
    } else {
      i := |header|;
      InsertsBehind(header, body, "\n" + addition + "\n");
    }
  }

  // What is added to the k-th definition when it gets a docstring.
  function Addition(answer: string, code: string, k: nat, an: Analyzer): string
    requires k < |an.definitions(code)|
    requires NewDoc(answer, an.definitions(code)[k].signature, an).Some?
  {
    var ds := an.definitions(code);
    var addition := an.indented(NewDoc(answer, ds[k].signature, an).value, HeaderOf(code, ds, k));
    if an.docstrings(Body(code, ds, k)) == [] then "\n" + addition + "\n" else an.stripped(addition)
  }

  lemma {:induction false} OccursBetween(front: string, part: string, back: string)
    ensures OccursAt(part, front + part + back, |front|)
  {
  }

  lemma {:induction false} AddedOccurs(text: string, changed: string, removed: string, added: string, i: nat)
    requires DiffersAt(text, changed, removed, added, i)
    ensures OccursAt(added, changed, i)
  {
    OccursBetween(text[..i], added, text[i + |removed|..]);
  }

  lemma {:induction false} OccursWithin(part: string, middle: string, text: string, i: nat, j: nat)
    requires OccursAt(part, middle, i) && OccursAt(middle, text, j)
    ensures OccursAt(part, text, i + j)
  {
    var found := text[i + j..i + j + |part|];
    forall k | 0 <= k < |part| ensures found[k] == part[k] {
      assert found[k] == text[j..j + |middle|][i + k] == middle[i..i + |part|][k];
    }
  }

  lemma {:induction false} PartOccurs(start: string, part: nat -> string, k: nat, n: nat)
    requires k < n
    ensures OccursIn(part(k), UpTo(start, part, n))
    decreases n
  {
    var before := UpTo(start, part, n - 1);
    if k < n - 1 {
      PartOccurs(start, part, k, n - 1);
      var i :| OccursAt(part(k), before, i);
      assert OccursAt(before, before + part(n - 1), 0);
      OccursWithin(part(k), before, before + part(n - 1), i, 0);
    } else {
      OccursBetween(before, part(k), "");
      assert before + part(k) + "" == UpTo(start, part, n);
    }
  }

  /** The docstring that the answer gives for a definition of the code stands in the merged text. */
  lemma {:induction false} AdditionAppears(answer: string, code: string, k: nat, an: Analyzer)
    requires k < |an.definitions(code)|
    requires NewDoc(answer, an.definitions(code)[k].signature, an).Some?
    ensures OccursIn(Addition(answer, code, k, an), Merged(answer, code, an))
  {
    var ds := an.definitions(code);
    var parts, added := MergedParts(answer, code, ds, an), Addition(answer, code, k, an);
    var i := OnlyTheDocstringChanges(answer, code, k, an);
    var docs := an.docstrings(Body(code, ds, k));
    var removed := if docs == [] then "" else docs[0];
    AddedOccurs(HeaderOf(code, ds, k) + Body(code, ds, k), parts(k), removed, added, i);
    assert OccursIn(parts(k), Merged(answer, code, an)) by {
      PartOccurs(Preamble(code, ds), parts, k, |ds|);
    }
    var j :| OccursAt(parts(k), Merged(answer, code, an), j);
    OccursWithin(added, parts(k), Merged(answer, code, an), i, j);
  }

  lemma {:induction false} FirstDocOccurs(body: string, an: Analyzer)
    requires an.docstrings(body) != []
    ensures OccursIn(an.docstrings(body)[0], body)
  {
    assert Found(an.docstrings(body), body);
  }

  lemma {:induction false} MergedIs(answer: string, code: string, k: nat, an: Analyzer)
    requires k < |an.definitions(code)|
    requires NewDoc(answer, an.definitions(code)[k].signature, an).Some?
    ensures var ds := an.definitions(code);
            var header, body := HeaderOf(code, ds, k), Body(code, ds, k);
            var addition := an.indented(NewDoc(answer, ds[k].signature, an).value, header);
            MergedParts(answer, code, ds, an)(k)
            == if an.docstrings(body) == [] then header + ("\n" + addition + "\n") + body
               else ReplaceOnce(header + body, an.docstrings(body)[0], an.stripped(addition))
  {
    assert Spans(an.definitions(code), |code|);
    HeaderAndBody(code, an.definitions(code), k);
  }

  // An analysis that finds one definition behind a given header, and two given docstrings.
  function SingleAnalysis(header: string, doc: string, newDoc: string): Analysis {
    Analysis(text => if header != "" && header <= text then [Definition("f", 0, |header|)] else [],
             text => if text == doc || text == newDoc then [text] else [],
             (doc, header) => doc, text => text)
  }

  lemma {:induction false} SingleAnalysisBehaves(header: string, doc: string, newDoc: string)
    ensures WellBehaved(SingleAnalysis(header, doc, newDoc))
  {
    forall text: string ensures Found(SingleAnalysis(header, doc, newDoc).docstrings(text), text) {
      assert OccursAt(text, text, 0);
    }
  }

  lemma {:induction false} FirstQuote(pre: string, doc: string, post: string, replacement: string)
    requires doc != "" && doc[0] !in pre
    ensures ReplaceOnce(pre + doc + post, doc, replacement) == pre + replacement + post
  {
    var text := pre + doc + post;
    forall j | 0 <= j < |pre| ensures !OccursAt(doc, text, j) {
      assert text[j] == pre[j];
      assert text[j] != doc[0];
    }
    assert OccursAt(doc, text, |pre|);
    FirstAtIsFirst(doc, text, 0, |pre|);
    assert text[..|pre|] == pre && text[|pre| + |doc|..] == post;
  }

  // The merge of a text that is one documented definition.
  lemma {:induction false} MergedSingle(header: string, body: string, answer: string, doc: string, an: Analysis)
    requires an.definitions(header + body) == [Definition("f", 0, |header|)]
    requires NewDoc(answer, "f", an) == Some(doc) && an.docstrings(body) == [body]
    ensures Merged(answer, header + body, an) == ReplaceOnce(header + body, body, an.stripped(an.indented(doc, header)))
  {
    var code := header + body;
    var ds := an.definitions(code);
    assert HeaderOf(code, ds, 0) == header && Body(code, ds, 0) == body && Segment(code, ds, 0) == code;
    assert UpTo("", MergedParts(answer, code, ds, an), 1) == MergedSegment(answer, code, ds, 0, an);
  }

  lemma {:induction false} NewDocSingle(header: string, doc: string, an: Analysis)
    requires an.definitions(header + doc) == [Definition("f", 0, |header|)] && an.docstrings(doc) == [doc]
    ensures NewDoc(header + doc, "f", an) == Some(doc)
  {
    assert Body(header + doc, an.definitions(header + doc), 0) == doc;
  }

  lemma {:induction false} SingleFacts(header: string, doc: string, newDoc: string, text: string)
    requires header != ""
    ensures SingleAnalysis(header, doc, newDoc).definitions(header + text) == [Definition("f", 0, |header|)]
    ensures text == doc || text == newDoc ==> SingleAnalysis(header, doc, newDoc).docstrings(text) == [text]
  {
    assert header <= header + text;
  }

  lemma {:induction false} SingleMerge(header: string, doc: string, newDoc: string)
    requires header != ""
    ensures Merged(header + newDoc, header + doc, SingleAnalysis(header, doc, newDoc)) ==
        ReplaceOnce(header + doc, doc, newDoc)
  {
    var an := SingleAnalysis(header, doc, newDoc);
    SingleFacts(header, doc, newDoc, doc);
    SingleFacts(header, doc, newDoc, newDoc);
    NewDocSingle(header, newDoc, an);
    MergedSingle(header, doc, header + newDoc, newDoc, an);
  }

  lemma {:induction false} Regroup(pre: string, doc: string, post: string, body: string)
    ensures pre + doc + post + body == pre + doc + (post + body)
  {
  }

  // A docstring whose text stands in the header, too, is not the one that is replaced.
  lemma {:induction false} HeaderIsChanged(pre: string, doc: string, post: string, header: string, newDoc: string)
    requires doc != "" && doc[0] !in pre && header == pre + doc + post
    ensures Merged(header + newDoc, header + doc, SingleAnalysis(header, doc, newDoc)) == pre + newDoc + (post + doc)
  {
    assert Merged(header + newDoc, header + doc, SingleAnalysis(header, doc, newDoc)) ==
        ReplaceOnce(header + doc, doc, newDoc) by {
      SingleMerge(header, doc, newDoc);
    }
    assert header + doc == pre + doc + (post + doc) by {
      Regroup(pre, doc, post, doc);
    }
    FirstQuote(pre, doc, post + doc, newDoc);
  }

  // The merge changes the text of the docstring in the header and keeps the docstring.
  ghost predicate ChangesHeader(pre: string, doc: string, post: string, newDoc: string) {
    exists header, an :: header == pre + doc + post && WellBehaved(an)
      && Merged(header + newDoc, header + doc, an) == pre + newDoc + (post + doc)
  }

  lemma {:induction false} QuotedDefault(pre: string, doc: string, post: string, newDoc: string)
    requires doc != "" && doc[0] !in pre
    ensures ChangesHeader(pre, doc, post, newDoc)
  {
    var header := pre + doc + post;
    SingleAnalysisBehaves(header, doc, newDoc);
    HeaderIsChanged(pre, doc, post, header, newDoc);
  }

  /** `def f(x="""d"""):` with the docstring `"""d"""`: the default value is changed, the docstring stays. */
  lemma {:induction false} DefaultValueChanges()
    ensures ChangesHeader("def f(x=", "\"\"\"d\"\"\"", "):", "\"\"\"e\"\"\"")
  {
    QuotedDefault("def f(x=", "\"\"\"d\"\"\"", "):", "\"\"\"e\"\"\"");
  }

  lemma {:induction false} ShiftOccurrence(part: string, header: string, body: string, at: nat)
    ensures OccursAt(part, body, at) <==> OccursAt(part, header + body, |header| + at)
  {
    if at + |part| <= |body| {
      assert (header + body)[|header| + at..|header| + at + |part|] == body[at..at + |part|];
    }
  }

  // ---------- The tool ----------

  // What becomes of one piece, given what the model answers for it (if it answers with a text).
  function Documented(piece: string, answer: string -> Option<string>, an: Analysis): string {
    if an.definitions(piece) != [] && answer(piece).Some? then Merged(answer(piece).value, piece, an) else piece
  }

  method AGenerateDocstring(
    input: seq<string>, validate: string -> Validation, answer: string -> Option<string>, an: Analyzer)
    returns (newCode: seq<string>)
    ensures newCode == Map(AllPieces(input, validate, an), piece => Documented(piece, answer, an))
    ensures |newCode| == |AllPieces(input, validate, an)|
    ensures forall k :: 0 <= k < |newCode| ==> PieceDone(AllPieces(input, validate, an)[k], newCode[k], answer, an)
  {
    var allDivided := DivideAll(input, validate, an);
    newCode := DocumentAll(allDivided, answer, an);
    forall k | 0 <= k < |newCode| ensures PieceDone(allDivided[k], newCode[k], answer, an) {
      DocumentedIsDone(allDivided[k], answer, an);
    }
  }

  // A piece with a definition has the answer merged into it, if that is a text; then every docstring the
  // answer has for one of its definitions stands in the result.  Any other piece is as it was.
  ghost predicate PieceDone(piece: string, done: string, answer: string -> Option<string>, an: Analyzer) {
    if |an.definitions(piece)| > 0 && answer(piece).Some? then
      && done == Merged(answer(piece).value, piece, an)
      && forall k: nat :: k < |an.definitions(piece)|
           && NewDoc(answer(piece).value, an.definitions(piece)[k].signature, an).Some?
           ==> OccursIn(Addition(answer(piece).value, piece, k, an), done)
    else done == piece
  }

  lemma {:induction false} DocumentedIsDone(piece: string, answer: string -> Option<string>, an: Analyzer)
    ensures PieceDone(piece, Documented(piece, answer, an), answer, an)
  {
    if |an.definitions(piece)| > 0 && answer(piece).Some? {
      forall k: nat | k < |an.definitions(piece)|
          && NewDoc(answer(piece).value, an.definitions(piece)[k].signature, an).Some?
        ensures OccursIn(Addition(answer(piece).value, piece, k, an), Merged(answer(piece).value, piece, an))
      {
        AdditionAppears(answer(piece).value, piece, k, an);
      }
    }
  }

  // The second half of the tool: the answers for all pieces, merged into them.
  method DocumentAll(
    allDivided: seq<string>, answer: string -> Option<string>, an: Analysis) returns (newCode: seq<string>)
    ensures newCode == Map(allDivided, piece => Documented(piece, answer, an))
  {
    newCode := [];
    for i := 0 to |allDivided|
      invariant |newCode| == i
      invariant forall k :: 0 <= k < i ==> newCode[k] == Documented(allDivided[k], answer, an)
    {
      var item := allDivided[i];
      if |an.definitions(item)| > 0 && answer(item).Some? {
        var merged := MergeDoc2Code(answer(item).value, item, an);
        newCode := newCode + [merged];
      } else {
        newCode := newCode + [item];
      }
    }
  }

  // No answer has a docstring for the piece it answers.
  ghost predicate Unhelpful(pieces: seq<string>, answer: string -> Option<string>, an: Analysis) {
    forall piece :: piece in pieces && answer(piece).Some? ==> NothingNew(answer(piece).value, piece, an)
  }

  /** Divided, answered without docstrings and put together again, the code is the same text. */
  lemma {:induction false} UnhelpfulRunKeepsText(input: seq<string>, validate: string -> Validation,
                                                 answer: string -> Option<string>, an: Analyzer)
    requires Unhelpful(AllPieces(input, validate, an), answer, an)
    ensures Combine(Map(AllPieces(input, validate, an), piece => Documented(piece, answer, an))) == Combine(input)
  {
    var pieces := AllPieces(input, validate, an);
    forall k | 0 <= k < |pieces| ensures Documented(pieces[k], answer, an) == pieces[k] {
      assert pieces[k] in pieces;
      if answer(pieces[k]).Some? {
        NothingNewKeepsCode(answer(pieces[k]).value, pieces[k], an);
      }
    }
    assert Map(pieces, piece => Documented(piece, answer, an)) == pieces;
    DivisionConserves(input, validate, an);
  }
}
