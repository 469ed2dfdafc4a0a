/** Cutting a text into overlapping chunks.  The number of full chunks is computed in advance, by a
    division that rounds down, and the rest of the text becomes the last chunk; slices follow
    Python, where a negative start counts from the end. */
module TextChunks {
  import opened Prelude

  datatype ChunkError = ZeroDivision

  function ChunkCount(length: nat, size: int, overlap: int): int
    requires size != overlap
  {
    FloorDiv(length - overlap, size - overlap)
  }

  // Python's //, which rounds down.
  function FloorDiv(a: int, b: int): int
    requires b != 0
  {
    if b > 0 then a / b else -a / -b
  }

  // What the chunks have in common left out, the text is rebuilt.
  function Rebuild(chunks: seq<string>, overlap: nat): string {
    if chunks == [] then ""
    else if |chunks| == 1 then chunks[0]
    else Rebuild(chunks[..|chunks| - 1], overlap) + Drop(chunks[|chunks| - 1], overlap)
  }

  function Drop(s: string, n: nat): string {
    if n <= |s| then s[n..] else ""
  }

  // Where the i-th chunk starts, by repeated addition.
  function StartOf(i: nat, step: int): int {
    if i == 0 then 0 else StartOf(i - 1, step) + step
  }

  lemma {:induction false} StartIsProduct(i: nat, step: int)
    ensures StartOf(i, step) == i * step
  {
    if i > 0 {
      StartIsProduct(i - 1, step);
      assert i * step == (i - 1) * step + step;
    }
  }

  // The rounds are those whose chunk fits; the last chunk takes less than a full one.
  ghost predicate LastFits(length: nat, count: nat, size: nat, overlap: nat) {
    StartOf(count, size - overlap) + overlap <= length < StartOf(count, size - overlap) + size
  }

  lemma {:induction false} CountFits(length: nat, size: nat, overlap: nat)
    requires overlap < size && overlap <= length
    ensures ChunkCount(length, size, overlap) >= 0 && LastFits(length, ChunkCount(length, size, overlap), size, overlap)
  {
    var n, step := ChunkCount(length, size, overlap), size - overlap;
    StartIsProduct(n, step);
    assert n * step <= length - overlap < n * step + step;
  }

  // All chunks but the last are full, the last is shorter, and neighbours share the overlap.
  ghost predicate WellCut(chunks: seq<string>, size: nat, overlap: nat) {
    && |chunks| >= 1
    && (forall i :: 0 <= i < |chunks| - 1 ==> |chunks[i]| == size)
    && overlap <= |chunks[|chunks| - 1]| < size
    && forall i :: 0 <= i < |chunks| - 1 ==> SharedAfter(chunks, i, overlap)
  }

  ghost predicate SharesOverlap(a: string, b: string, overlap: nat) {
    |a| >= overlap && |b| >= overlap && a[|a| - overlap..] == b[..overlap]
  }

  ghost predicate SharedAfter(chunks: seq<string>, i: int, overlap: nat) {
    0 <= i < |chunks| - 1 && SharesOverlap(chunks[i], chunks[i + 1], overlap)
  }

  // The first chunks together cover the text up to the end of the last of them.
  ghost predicate Covers(text: string, chunks: seq<string>, start: nat, size: nat, overlap: nat) {
    && start + overlap <= |text|
    && (chunks == [] ==> start == 0)
    && (chunks != [] ==> Rebuild(chunks, overlap) == text[..start + overlap])
    && (forall i :: 0 <= i < |chunks| ==> |chunks[i]| == size)
    && (forall i :: 0 <= i < |chunks| - 1 ==> SharedAfter(chunks, i, overlap))
    && (chunks != [] ==> overlap <= size && chunks[|chunks| - 1][size - overlap..] == text[start..start + overlap])
  }

  lemma {:induction false} CoversSnoc(text: string, chunks: seq<string>, start: nat, size: nat, overlap: nat)
    requires overlap <= size && Covers(text, chunks, start, size, overlap) && start + size <= |text|
    ensures Covers(text, chunks + [text[start..start + size]], start + size - overlap, size, overlap)
  {
    if chunks == [] {
      CoversFirst(text, size, overlap);
      assert chunks + [text[..size]] == [text[..size]];
    } else {
      CoversMore(text, chunks, start, size, overlap);
    }
  }

  lemma {:induction false} CoversFirst(text: string, size: nat, overlap: nat)
    requires overlap <= size <= |text|
    ensures Covers(text, [text[..size]], size - overlap, size, overlap)
  {
    assert text[..size][size - overlap..] == text[size - overlap..size];
  }

  lemma {:induction false} CoversMore(text: string, chunks: seq<string>, start: nat, size: nat, overlap: nat)
    requires overlap <= size && Covers(text, chunks, start, size, overlap) && start + size <= |text| && chunks != []
    ensures Covers(text, chunks + [text[start..start + size]], start + size - overlap, size, overlap)
  {
    var chunk := text[start..start + size];
    OverlapOf(text, start, size, overlap);
    RebuildSnoc(chunks, chunk, overlap);
    SharingSnoc(chunks, chunk, size, overlap);
  }

  lemma {:induction false} SharingSnoc(chunks: seq<string>, chunk: string, size: nat, overlap: nat)
    requires chunks != [] && overlap <= size && overlap <= |chunk|
    requires forall i :: 0 <= i < |chunks| ==> |chunks[i]| == size
    requires forall i :: 0 <= i < |chunks| - 1 ==> SharedAfter(chunks, i, overlap)
    requires chunks[|chunks| - 1][size - overlap..] == chunk[..overlap]
    ensures var longer := chunks + [chunk]; forall i :: 0 <= i < |longer| - 1 ==> SharedAfter(longer, i, overlap)
  {
    var longer := chunks + [chunk];
    forall i | 0 <= i < |longer| - 1 ensures SharedAfter(longer, i, overlap) {
      if i < |chunks| - 1 {
        assert SharedAfter(chunks, i, overlap);
      }
    }
  }

  lemma {:induction false} OverlapOf(text: string, start: nat, size: nat, overlap: nat)
    requires overlap <= size && start + size <= |text|
    ensures text[start..start + size][..overlap] == text[start..start + overlap]
    ensures text[..start + overlap] + text[start..start + size][overlap..] == text[..start + size]
    ensures text[start..start + size][size - overlap..] == text[start + size - overlap..start + size]
  {
  }

  lemma {:induction false} RebuildSnoc(chunks: seq<string>, chunk: string, overlap: nat)
    requires chunks != [] && overlap <= |chunk|
    ensures Rebuild(chunks + [chunk], overlap) == Rebuild(chunks, overlap) + chunk[overlap..]
  {
    assert (chunks + [chunk])[..|chunks|] == chunks;
  }

  lemma {:induction false} CoversLast(text: string, chunks: seq<string>, start: nat, size: nat, overlap: nat)
    requires overlap <= size && Covers(text, chunks, start, size, overlap) && |text| < start + size
    ensures WellCut(chunks + [text[start..]], size, overlap) && Rebuild(chunks + [text[start..]], overlap) == text
  {
    var chunk := text[start..];
    if chunks == [] {
      assert chunks + [chunk] == [text];
    } else {
      assert chunk[..overlap] == text[start..start + overlap];
      assert text[..start + overlap] + chunk[overlap..] == text;
      RebuildSnoc(chunks, chunk, overlap);
      SharingSnoc(chunks, chunk, size, overlap);
    }
  }

  // The chunks that the loop cuts in its first i rounds.
  function FirstChunks(text: string, i: nat, size: int, overlap: int): seq<string> {
    if i == 0 then []
    else
      var start := StartOf(i - 1, size - overlap);
      FirstChunks(text, i - 1, size, overlap) + [Slice(text, start, start + size)]
  }

  function LoopRounds(length: nat, size: int, overlap: int): nat
    requires size != overlap
  {
    if ChunkCount(length, size, overlap) < 0 then 0 else ChunkCount(length, size, overlap)
  }

  function Chunks(text: string, size: int, overlap: int): seq<string>
    requires size != overlap
  {
    FirstChunks(text, LoopRounds(|text|, size, overlap), size, overlap)
    + [Tail(text, ChunkCount(|text|, size, overlap) * (size - overlap))]
  }

  lemma {:induction false} FirstChunksCover(text: string, i: nat, size: nat, overlap: nat)
    requires overlap < size && StartOf(i, size - overlap) + overlap <= |text|
    ensures FirstCover(text, i, size, overlap)
  {
    if i == 0 {
      NoneCover(text, size, overlap);
    } else {
      FirstChunksCover(text, i - 1, size, overlap);
      MoreCover(text, i - 1, i, size, overlap);
    }
  }

  lemma {:induction false} NoneCover(text: string, size: nat, overlap: nat)
    requires overlap < size && overlap <= |text|
    ensures FirstCover(text, 0, size, overlap)
  {
  }

  // The first i chunks cover the text up to the start of the next one.
  ghost predicate FirstCover(text: string, i: nat, size: nat, overlap: nat) {
    && StartOf(i, size - overlap) >= 0
    && Covers(text, FirstChunks(text, i, size, overlap), StartOf(i, size - overlap), size, overlap)
  }

  lemma {:induction false} MoreCover(text: string, i: nat, next: nat, size: nat, overlap: nat)
    requires overlap < size && next == i + 1
    requires FirstCover(text, i, size, overlap) && StartOf(next, size - overlap) + overlap <= |text|
    ensures FirstCover(text, next, size, overlap)
  {
    NextChunk(text, FirstChunks(text, i, size, overlap), FirstChunks(text, next, size, overlap),
              StartOf(i, size - overlap), StartOf(next, size - overlap), size, overlap);
  }

  lemma {:induction false} NextChunk(
    text: string, chunks: seq<string>, longer: seq<string>, start: nat, next: nat, size: nat, overlap: nat)
    requires overlap < size && Covers(text, chunks, start, size, overlap) && start + size <= |text|
    requires longer == chunks + [Slice(text, start, start + size)] && next == start + (size - overlap)
    ensures Covers(text, longer, next, size, overlap)
  {
    CoversSnoc(text, chunks, start, size, overlap);
  }

  lemma {:induction false} LastChunk(
    text: string, chunks: seq<string>, all: seq<string>, start: nat, size: nat, overlap: nat)
    requires overlap < size && Covers(text, chunks, start, size, overlap) && |text| < start + size
    requires all == chunks + [Tail(text, start)]
    ensures WellCut(all, size, overlap) && Rebuild(all, overlap) == text
  {
    CoversLast(text, chunks, start, size, overlap);
  }

  /** If the text is at least as long as the overlap, the chunks are well cut and rebuild the text;
      a shorter text is never cut. */
  lemma {:induction false} ChunksWellCut(text: string, size: nat, overlap: nat)
    requires overlap < size
    ensures overlap <= |text| ==>
        WellCut(Chunks(text, size, overlap), size, overlap) && Rebuild(Chunks(text, size, overlap), overlap) == text
    ensures overlap > |text| ==> |Chunks(text, size, overlap)| == 1
  {
    if overlap <= |text| {
      CountFits(|text|, size, overlap);
      var count := ChunkCount(|text|, size, overlap);
      FirstChunksCover(text, count, size, overlap);
      StartIsProduct(count, size - overlap);
      LastChunk(text, FirstChunks(text, count, size, overlap), Chunks(text, size, overlap),
          StartOf(count, size - overlap), size, overlap);
    } else {
      CountNegative(|text|, size, overlap);
    }
  }

  method SplitText(text: string, size: int, overlap: int) returns (r: Result<seq<string>, ChunkError>)
    ensures r == if size == overlap then Err(ZeroDivision) else Ok(Chunks(text, size, overlap))
  {
    if size == overlap {
      return Err(ZeroDivision);
    }
    var rounds := ChunkCount(|text|, size, overlap);
    var chunks := CutFull(text, size, overlap, rounds);
    r := Ok(chunks + [Tail(text, rounds * (size - overlap))]);
  }

  // The loop.
  method CutFull(text: string, size: int, overlap: int, rounds: int) returns (chunks: seq<string>)
    ensures chunks == FirstChunks(text, if rounds < 0 then 0 else rounds, size, overlap)
  {
    chunks := [];
    var i := 0;
    while i < rounds
      invariant 0 <= i && (i <= rounds || i == 0)
      invariant chunks == FirstChunks(text, i, size, overlap)
    {
      var start := i * (size - overlap);
      StartIsProduct(i, size - overlap);
      chunks := chunks + [Slice(text, start, start + size)];
      i := i + 1;
    }
  }

  lemma {:induction false} CountNegative(length: nat, size: int, overlap: int)
    requires overlap > length && size > overlap
    ensures ChunkCount(length, size, overlap) < 0
  {
    var n, step := ChunkCount(length, size, overlap), size - overlap;
    assert n * step <= length - overlap;
  }

  /** A text shorter than the overlap comes back as one chunk; it is the whole text if and only if the
      (negative) start of that chunk does not fall inside the text. */
  lemma {:induction false} ShortTextIff(text: string, size: int, overlap: int)
    requires 0 <= overlap < size && overlap > |text|
    ensures var start := ChunkCount(|text|, size, overlap) * (size - overlap);
      Tail(text, start) == text <==> text == "" || |text| <= -start
  {
    CountNegative(|text|, size, overlap);
    var start := ChunkCount(|text|, size, overlap) * (size - overlap);
    assert start < 0;
  }

  /** Text is lost, for instance, when ten characters are cut with an overlap of eleven. */
  lemma {:induction false} ShortTextLost()
    ensures Tail("abcdefghij", ChunkCount(10, 12, 11) * (12 - 11)) == "j"
  {
  }
}
