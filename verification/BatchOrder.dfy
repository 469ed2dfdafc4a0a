/** Line numbers, and the rows they belong to. */
module BatchOrder {
  import opened Prelude
  import opened FlowContracts
  import opened LineMerge
  import opened ProcessPool
  import opened StableSort

  // ---------- numbering ----------

  // Line numbers are values of any kind; `rank` stands for Python's comparison of those at hand:
  // equal ones have the same rank, smaller ones a smaller rank.
  type LineOrder = Value -> int

  // The line numbers of the rows that have one.
  function GivenNumbers(batch: seq<Row>, rank: LineOrder): seq<int> {
    if batch == [] then []
    else
      var last := batch[|batch| - 1];
      GivenNumbers(batch[..|batch| - 1], rank) + (if LINE_NUMBER_KEY in last then [rank(last[LINE_NUMBER_KEY])] else [])
  }

  function Positions(n: nat): seq<int> {
    seq(n, i => i)
  }

  predicate HasDuplicates(numbers: seq<int>) {
    exists i, j :: 0 <= i < j < |numbers| && numbers[i] == numbers[j]
  }

  // Rows are numbered by position if no row has a number, or if two numbers coincide.
  function LineNumbers(batch: seq<Row>, rank: LineOrder): seq<int> {
    var given := GivenNumbers(batch, rank);
    if given == [] || HasDuplicates(given) then Positions(|batch|) else given
  }

  // Numbers and rows are paired off from the front; surplus rows are left out.
  function Tasks(numbers: seq<int>, batch: seq<Row>): seq<Task> {
    var n := if |numbers| < |batch| then |numbers| else |batch|;
    seq(n, i requires 0 <= i < n => Task(numbers[i], batch[i]))
  }

  ghost predicate StrictlyAscending(numbers: seq<int>) {
    forall i, j :: 0 <= i < j < |numbers| ==> numbers[i] < numbers[j]
  }

  lemma {:induction false} GivenNumbersFacts(batch: seq<Row>, rank: LineOrder)
    ensures |GivenNumbers(batch, rank)| <= |batch|
    ensures |GivenNumbers(batch, rank)| == |batch| <==> forall i :: 0 <= i < |batch| ==> LINE_NUMBER_KEY in batch[i]
    ensures |GivenNumbers(batch, rank)| == |batch| ==>
              forall i :: 0 <= i < |batch| ==> GivenNumbers(batch, rank)[i] == rank(batch[i][LINE_NUMBER_KEY])
    ensures GivenNumbers(batch, rank) == [] <==> forall i :: 0 <= i < |batch| ==> LINE_NUMBER_KEY !in batch[i]
  {
    if batch != [] {
      var init, last := batch[..|batch| - 1], batch[|batch| - 1];
      GivenNumbersFacts(init, rank);
      assert forall i :: 0 <= i < |init| ==> batch[i] == init[i];
      var given, before := GivenNumbers(batch, rank), GivenNumbers(init, rank);
      if LINE_NUMBER_KEY in last {
        assert given == before + [rank(last[LINE_NUMBER_KEY])];
        assert batch[|init|] == last;
      } else {
        assert given == before && batch[|init|] == last;
      }
    }
  }

  /** The numbers are always distinct, and never more than the rows. */
  lemma {:induction false} LineNumbersDistinct(batch: seq<Row>, rank: LineOrder)
    ensures !HasDuplicates(LineNumbers(batch, rank)) && |LineNumbers(batch, rank)| <= |batch|
  {
    GivenNumbersFacts(batch, rank);
  }

  // ---------- sorting by index ----------

  function ResultIndex(r: LineResult): int { r.index }

  function SortByIndex(results: seq<LineResult>): seq<LineResult> {
    SortBy(results, ResultIndex)
  }

  // ---------- which row a result belongs to ----------

  // What the pool may answer for a batch of tasks, by the exactly-once property.
  ghost predicate PoolAnswer(cfg: Config, results: seq<LineResult>) {
    exists credited: seq<Task> :: IsCrediting(cfg, results, credited)
  }

  function TaskIndex(t: Task): int { t.index }

  // The indices of the sorted results are the numbers of the tasks in ascending order.
  lemma {:induction false} SortedIndices(cfg: Config, results: seq<LineResult>)
    requires PoolAnswer(cfg, results)
    ensures var indices := Map(SortByIndex(results), ResultIndex);
      && multiset(indices) == multiset(Map(cfg.batch, TaskIndex))
      && |indices| == |cfg.batch|
      && Ascends(indices)
  {
    var credited :| IsCrediting(cfg, results, credited);
    SortBySorts(results, ResultIndex);
    MapPermutation(credited, cfg.batch, TaskIndex);
    MapPermutation(SortByIndex(results), results, ResultIndex);
    assert Map(results, ResultIndex) == Map(credited, TaskIndex);
    var indices := Map(SortByIndex(results), ResultIndex);
    assert |multiset(indices)| == |indices| && |multiset(Map(cfg.batch, TaskIndex))| == |cfg.batch|;
  }

  // Every sorted result comes from the task with its index, which is unique.
  lemma {:induction false} SortedCredits(cfg: Config, results: seq<LineResult>, j: nat, p: nat)
    requires PoolAnswer(cfg, results) && !HasDuplicates(Map(cfg.batch, TaskIndex))
    requires j < |SortByIndex(results)| && p < |cfg.batch| && cfg.batch[p].index == SortByIndex(results)[j].index
    ensures Credits(cfg, SortByIndex(results)[j], cfg.batch[p])
  {
    var r := SortByIndex(results)[j];
    SortBySorts(results, ResultIndex);
    assert r in multiset(SortByIndex(results));
    assert r in results;
    var q := CreditedTask(cfg, results, r);
    SameIndexSameTask(cfg.batch, p, q);
  }

  lemma {:induction false} CreditedTask(cfg: Config, results: seq<LineResult>, r: LineResult) returns (q: nat)
    requires PoolAnswer(cfg, results) && r in results
    ensures q < |cfg.batch| && Credits(cfg, r, cfg.batch[q])
  {
    var credited :| IsCrediting(cfg, results, credited);
    var k :| 0 <= k < |results| && results[k] == r;
    assert credited[k] in multiset(credited);
    assert credited[k] in multiset(cfg.batch);
    q :| 0 <= q < |cfg.batch| && cfg.batch[q] == credited[k];
  }

  lemma {:induction false} SameIndexSameTask(tasks: seq<Task>, p: nat, q: nat)
    requires !HasDuplicates(Map(tasks, TaskIndex)) && p < |tasks| && q < |tasks| && tasks[p].index == tasks[q].index
    ensures p == q
  {
    assert Map(tasks, TaskIndex)[p] == Map(tasks, TaskIndex)[q];
  }

  // The results stand row by row: result j carries number j and is credited to row j.
  ghost predicate RowByRow(cfg: Config, batch: seq<Row>, numbers: seq<int>, results: seq<LineResult>) {
    && |results| == |numbers| <= |batch|
    && forall j :: 0 <= j < |results| ==> Credits(cfg, results[j], Task(numbers[j], batch[j]))
  }

  // No row has a line number, or two of the given numbers coincide, or they ascend.
  ghost predicate OrderedNumbers(batch: seq<Row>, rank: LineOrder) {
    var given := GivenNumbers(batch, rank);
    given == [] || HasDuplicates(given) || StrictlyAscending(given)
  }

  // No row has a line number, or two of the given numbers coincide, or every row has one.
  ghost predicate CompleteNumbers(batch: seq<Row>, rank: LineOrder) {
    var given := GivenNumbers(batch, rank);
    given == [] || HasDuplicates(given) || |given| == |batch|
  }

  /** Aggregation takes the inputs of result j from row j of the batch.  That is right for every answer
      of the pool if and only if the given line numbers are absent, repeated or ascending; rows without
      a number among numbered ones do not matter for it. */
  lemma {:induction false} RowByRowIff(
    batch: seq<Row>, rank: LineOrder, exec: Row -> LineBody, results: seq<LineResult>)
    requires PoolAnswer(Config(Tasks(LineNumbers(batch, rank), batch), exec), results)
    ensures var cfg := Config(Tasks(LineNumbers(batch, rank), batch), exec);
      RowByRow(cfg, batch, LineNumbers(batch, rank), SortByIndex(results)) <==> OrderedNumbers(batch, rank)
  {
    var numbers := LineNumbers(batch, rank);
    var cfg := Config(Tasks(numbers, batch), exec);
    LineNumbersDistinct(batch, rank);
    NumbersAscend(batch, rank);
    TaskIndices(numbers, batch);
    if Ascends(numbers) {
      AscendingRowByRow(cfg, batch, numbers, results);
    }
    if RowByRow(cfg, batch, numbers, SortByIndex(results)) {
      RowByRowAscends(cfg, batch, numbers, results);
    }
  }

  // ---------- which rows have a result ----------

  // Row p goes into task p, and some result is credited to that task.
  ghost predicate Answered(cfg: Config, results: seq<LineResult>, p: nat) {
    p < |cfg.batch| && exists j :: 0 <= j < |results| && Credits(cfg, results[j], cfg.batch[p])
  }

  /** There are as many results as line numbers, and the rows behind them are dropped.  So every row has
      a result if and only if the line numbers are absent, repeated or present on every row. */
  lemma {:induction false} EveryRowAnsweredIff(
    batch: seq<Row>, rank: LineOrder, exec: Row -> LineBody, results: seq<LineResult>)
    requires PoolAnswer(Config(Tasks(LineNumbers(batch, rank), batch), exec), results)
    ensures |SortByIndex(results)| == |LineNumbers(batch, rank)| <= |batch|
    ensures var cfg := Config(Tasks(LineNumbers(batch, rank), batch), exec);
      && (forall p: nat :: Answered(cfg, SortByIndex(results), p) <==> p < |LineNumbers(batch, rank)|)
      && ((forall p: nat :: p < |batch| ==> Answered(cfg, SortByIndex(results), p)) <==> CompleteNumbers(batch, rank))
  {
    var cfg := Config(Tasks(LineNumbers(batch, rank), batch), exec);
    var sorted := SortByIndex(results);
    LineNumbersDistinct(batch, rank);
    SortedIndices(cfg, results);
    assert |Map(sorted, ResultIndex)| == |sorted|;
    forall p: nat ensures Answered(cfg, sorted, p) <==> p < |LineNumbers(batch, rank)| {
      if p < |cfg.batch| {
        TaskAnswered(cfg, results, p);
      }
    }
    if !CompleteNumbers(batch, rank) {
      assert !Answered(cfg, sorted, |LineNumbers(batch, rank)|);
    }
  }

  lemma {:induction false} TaskAnswered(cfg: Config, results: seq<LineResult>, p: nat)
    requires PoolAnswer(cfg, results) && p < |cfg.batch|
    ensures Answered(cfg, SortByIndex(results), p)
  {
    var credited :| IsCrediting(cfg, results, credited);
    assert cfg.batch[p] in multiset(credited);
    var k :| 0 <= k < |credited| && credited[k] == cfg.batch[p];
    SortBySorts(results, ResultIndex);
    assert results[k] in multiset(SortByIndex(results));
    var j :| 0 <= j < |SortByIndex(results)| && SortByIndex(results)[j] == results[k];
  }

  // ---------- which number a row runs under ----------

  // The row at position p has a line number.
  predicate Carries(batch: seq<Row>, p: nat) {
    p < |batch| && LINE_NUMBER_KEY in batch[p]
  }

  // Row p runs under the number it carries.
  predicate OwnNumber(batch: seq<Row>, rank: LineOrder, p: nat) {
    && Carries(batch, p) && p < |LineNumbers(batch, rank)|
    && LineNumbers(batch, rank)[p] == rank(batch[p][LINE_NUMBER_KEY])
  }

  // Numbers are paired with rows from the front, so the rows that carry one must come first.
  ghost predicate NumberedFirst(batch: seq<Row>) {
    forall p: nat, q: nat :: p < q && Carries(batch, q) ==> Carries(batch, p)
  }

  /** If the given numbers are used, every row that runs does so under its own number if and only if no
      row without a number stands before one that has one. */
  lemma {:induction false} OwnNumbersIff(batch: seq<Row>, rank: LineOrder)
    requires GivenNumbers(batch, rank) != [] && !HasDuplicates(GivenNumbers(batch, rank))
    ensures (forall p: nat :: p < |LineNumbers(batch, rank)| ==> OwnNumber(batch, rank, p)) <==> NumberedFirst(batch)
  {
    var given := GivenNumbers(batch, rank);
    GivenNumbersFacts(batch, rank);
    if forall p: nat :: p < |given| ==> OwnNumber(batch, rank, p) {
      forall p: nat | p < |given| ensures Carries(batch, p) {
        assert OwnNumber(batch, rank, p);
      }
      NothingBehind(batch, rank, |given|);
    }
    if NumberedFirst(batch) {
      var m := NumberedPrefix(batch);
      GivenOfPrefix(batch, rank, m);
    }
  }

  // The numbers are those of the given rows: of all that carry one, in the order of the batch.
  ghost predicate NumbersOfRows(batch: seq<Row>, rank: LineOrder, numbers: seq<int>, rows: seq<nat>) {
    && |rows| == |numbers|
    && (forall i :: 0 <= i < |rows| ==> RunsUnder(batch, rank, rows[i], numbers[i]))
    && (forall i, j :: 0 <= i < j < |rows| ==> rows[i] < rows[j])
    && forall p: nat :: Carries(batch, p) ==> p in rows
  }

  ghost predicate RunsUnder(batch: seq<Row>, rank: LineOrder, p: nat, number: int) {
    Carries(batch, p) && rank(batch[p][LINE_NUMBER_KEY]) == number
  }

  // No row carries a number, or two rows carry equal ones.
  ghost predicate NoneOrRepeated(batch: seq<Row>, rank: LineOrder) {
    || (forall p: nat :: !Carries(batch, p))
    || exists p: nat, q: nat, number :: p < q && RunsUnder(batch, rank, p, number) && RunsUnder(batch, rank, q, number)
  }

  lemma {:induction false} GivenRows(batch: seq<Row>, rank: LineOrder) returns (rows: seq<nat>)
    ensures NumbersOfRows(batch, rank, GivenNumbers(batch, rank), rows)
  {
    if batch == [] {
      rows := [];
    } else {
      var init, last := batch[..|batch| - 1], batch[|batch| - 1];
      rows := GivenRows(init, rank);
      assert batch == init + [last];
      RowsSnoc(init, last, rank, GivenNumbers(init, rank), rows);
      if LINE_NUMBER_KEY in last {
        rows := rows + [|init|];
      }
    }
  }

  lemma {:induction false} RowsSnoc(init: seq<Row>, last: Row, rank: LineOrder, numbers: seq<int>, rows: seq<nat>)
    requires NumbersOfRows(init, rank, numbers, rows)
    ensures if LINE_NUMBER_KEY in last
            then NumbersOfRows(init + [last], rank, numbers + [rank(last[LINE_NUMBER_KEY])], rows + [|init|])
            else NumbersOfRows(init + [last], rank, numbers, rows)
  {
    var batch := init + [last];
    forall i | 0 <= i < |rows| ensures RunsUnder(batch, rank, rows[i], numbers[i]) && rows[i] < |init| {
      assert RunsUnder(init, rank, rows[i], numbers[i]);
    }
    forall p: nat | Carries(batch, p) && p < |init| ensures p in rows {
      assert Carries(init, p);
    }
  }

  lemma {:induction false} RepeatedRows(batch: seq<Row>, rank: LineOrder, numbers: seq<int>, rows: seq<nat>)
    requires NumbersOfRows(batch, rank, numbers, rows)
    ensures numbers == [] || HasDuplicates(numbers) <==> NoneOrRepeated(batch, rank)
  {
    if numbers != [] {
      assert RunsUnder(batch, rank, rows[0], numbers[0]);
    }
    if i, j :| 0 <= i < j < |numbers| && numbers[i] == numbers[j] {
      assert RunsUnder(batch, rank, rows[i], numbers[i]) && RunsUnder(batch, rank, rows[j], numbers[i]);
    }
    if p: nat, q: nat, number :| p < q && RunsUnder(batch, rank, p, number) && RunsUnder(batch, rank, q, number) {
      assert p in rows && q in rows;
      var i :| 0 <= i < |rows| && rows[i] == p;
      var j :| 0 <= j < |rows| && rows[j] == q;
      assert numbers[i] == number == numbers[j] && i != j;
      assert HasDuplicates(numbers);
    }
  }

  /** Rows are numbered 0, 1, 2 and so on if none carries a number or two carry equal ones; otherwise the
      numbers are those of the rows that carry one, in the order of the batch. */
  lemma {:induction false} LineNumbersMean(batch: seq<Row>, rank: LineOrder) returns (rows: seq<nat>)
    ensures NoneOrRepeated(batch, rank) ==>
      && |LineNumbers(batch, rank)| == |batch|
      && forall i :: 0 <= i < |batch| ==> LineNumbers(batch, rank)[i] == i
    ensures !NoneOrRepeated(batch, rank) ==> NumbersOfRows(batch, rank, LineNumbers(batch, rank), rows)
  {
    rows := GivenRows(batch, rank);
    RepeatedRows(batch, rank, GivenNumbers(batch, rank), rows);
  }

  lemma {:induction false} AscendingAreOwn(batch: seq<Row>, rank: LineOrder)
    requires StrictlyAscending(GivenNumbers(batch, rank))
    requires forall i :: 0 <= i < |batch| ==> LINE_NUMBER_KEY in batch[i]
    ensures forall p: nat :: p < |batch| ==> OwnNumber(batch, rank, p)
  {
    GivenNumbersFacts(batch, rank);
  }

  lemma {:induction false} GivenConcat(a: seq<Row>, b: seq<Row>, rank: LineOrder)
    ensures GivenNumbers(a + b, rank) == GivenNumbers(a, rank) + GivenNumbers(b, rank)
  {
    if b == [] {
      assert a + b == a;
    } else {
      assert (a + b)[..|a + b| - 1] == a + b[..|b| - 1];
      GivenConcat(a, b[..|b| - 1], rank);
    }
  }

  // If the first m rows carry all m numbers, no later row carries one.
  lemma {:induction false} NothingBehind(batch: seq<Row>, rank: LineOrder, m: nat)
    requires m == |GivenNumbers(batch, rank)| <= |batch| && forall p: nat :: p < m ==> Carries(batch, p)
    ensures forall q: nat :: m <= q ==> !Carries(batch, q)
  {
    var front, back := batch[..m], batch[m..];
    assert batch == front + back;
    GivenConcat(front, back, rank);
    assert |GivenNumbers(front, rank)| == m by {
      AllCarry(batch, rank, m);
    }
    assert GivenNumbers(back, rank) == [];
    GivenNumbersFacts(back, rank);
    forall q: nat | m <= q < |batch| ensures !Carries(batch, q) {
      assert batch[q] == back[q - m];
    }
  }

  lemma {:induction false} AllCarry(batch: seq<Row>, rank: LineOrder, m: nat)
    requires m <= |batch| && forall p: nat :: p < m ==> Carries(batch, p)
    ensures |GivenNumbers(batch[..m], rank)| == m
  {
    forall i | 0 <= i < m ensures LINE_NUMBER_KEY in batch[..m][i] {
      assert Carries(batch, i);
    }
    GivenNumbersFacts(batch[..m], rank);
  }

  lemma {:induction false} NumberedPrefix(batch: seq<Row>) returns (m: nat)
    requires NumberedFirst(batch)
    ensures m <= |batch| && forall p: nat :: Carries(batch, p) <==> p < m
  {
    if batch == [] {
      m := 0;
    } else {
      var init := batch[..|batch| - 1];
      forall p: nat | p < |init| ensures Carries(init, p) <==> Carries(batch, p) {
      }
      m := NumberedPrefix(init);
      if Carries(batch, |init|) {
        m := |batch|;
      }
    }
  }

  // The numbers of a batch whose first m rows carry them are theirs.
  lemma {:induction false} GivenOfPrefix(batch: seq<Row>, rank: LineOrder, m: nat)
    requires m <= |batch| && forall p: nat :: Carries(batch, p) <==> p < m
    ensures |GivenNumbers(batch, rank)| == m
    ensures forall p: nat :: p < m ==>
        Carries(batch, p) && GivenNumbers(batch, rank)[p] == rank(batch[p][LINE_NUMBER_KEY])
  {
    var front, back := batch[..m], batch[m..];
    assert batch == front + back;
    GivenConcat(front, back, rank);
    forall i | 0 <= i < |front| ensures LINE_NUMBER_KEY in front[i] {
      assert Carries(batch, i);
    }
    forall i | 0 <= i < |back| ensures LINE_NUMBER_KEY !in back[i] {
      assert !Carries(batch, m + i);
    }
    GivenNumbersFacts(front, rank);
    GivenNumbersFacts(back, rank);
  }

  // ---------- batches that go wrong ----------

  // Two rows that carry their numbers in descending order.
  function SwappedBatch(): seq<Row> {
    [map[LINE_NUMBER_KEY := Number(1)], map[LINE_NUMBER_KEY := Number(0)]]
  }

  /** For them the pool may answer with both lines, and no answer of it stands row by row. */
  lemma {:induction false} SwappedBatchMisplaced(rank: LineOrder, exec: Row -> LineBody, results: seq<LineResult>)
    requires rank(Number(0)) < rank(Number(1))
    ensures LineNumbers(SwappedBatch(), rank) == [rank(Number(1)), rank(Number(0))]
    ensures var cfg := Config(Tasks(LineNumbers(SwappedBatch(), rank), SwappedBatch()), exec);
      && PoolAnswer(cfg, Map(cfg.batch, (task: Task) => LineResult(task.index, exec(task.inputs))))
      && (PoolAnswer(cfg, results) ==>
            !RowByRow(cfg, SwappedBatch(), LineNumbers(SwappedBatch(), rank), SortByIndex(results)))
  {
    var batch := SwappedBatch();
    GivenNumbersFacts(batch, rank);
    assert GivenNumbers(batch, rank) == [rank(Number(1)), rank(Number(0))];
    var cfg := Config(Tasks(LineNumbers(batch, rank), batch), exec);
    assert IsCrediting(cfg, Map(cfg.batch, (task: Task) => LineResult(task.index, exec(task.inputs))), cfg.batch);
    if PoolAnswer(cfg, results) {
      RowByRowIff(batch, rank, exec, results);
    }
  }

  // A row without a number, then one with the number 5.
  function PartlyNumberedBatch(): seq<Row> {
    [map[], map[LINE_NUMBER_KEY := Number(5)]]
  }

  /** The first row runs as line 5 and the second never runs, though the one result stands at its row. */
  lemma {:induction false} PartlyNumberedRowLost(rank: LineOrder, exec: Row -> LineBody, results: seq<LineResult>)
    ensures var batch := PartlyNumberedBatch();
      var cfg := Config(Tasks(LineNumbers(batch, rank), batch), exec);
      && cfg.batch == [Task(rank(Number(5)), map[])]
      && PoolAnswer(cfg, [LineResult(rank(Number(5)), exec(map[]))])
      && (PoolAnswer(cfg, results) ==>
            && RowByRow(cfg, batch, LineNumbers(batch, rank), SortByIndex(results))
            && |results| == 1 && !Answered(cfg, SortByIndex(results), 1))
  {
    var batch := PartlyNumberedBatch();
    PartlyNumberedGiven(rank);
    var cfg := Config(Tasks(LineNumbers(batch, rank), batch), exec);
    assert cfg.batch == [Task(rank(Number(5)), batch[0])];
    assert IsCrediting(cfg, [LineResult(rank(Number(5)), exec(map[]))], cfg.batch);
    if PoolAnswer(cfg, results) {
      RowByRowIff(batch, rank, exec, results);
      EveryRowAnsweredIff(batch, rank, exec, results);
      SortBySorts(results, ResultIndex);
      assert |multiset(results)| == |results| && |multiset(SortByIndex(results))| == |SortByIndex(results)|;
    }
  }

  lemma {:induction false} PartlyNumberedGiven(rank: LineOrder)
    ensures LineNumbers(PartlyNumberedBatch(), rank) == GivenNumbers(PartlyNumberedBatch(), rank) == [rank(Number(5))]
  {
    var batch := PartlyNumberedBatch();
    assert batch[..1] == [map[]] && batch[..1][..0] == [];
    assert GivenNumbers(batch[..1], rank) == [] + [];
    assert GivenNumbers(batch, rank) == [] + [rank(Number(5))];
  }

  lemma {:induction false} TaskIndices(numbers: seq<int>, batch: seq<Row>)
    requires |numbers| <= |batch|
    ensures Map(Tasks(numbers, batch), TaskIndex) == numbers
  {
    var mapped := Map(Tasks(numbers, batch), TaskIndex);
    forall i | 0 <= i < |numbers| ensures mapped[i] == numbers[i] {
    }
  }

  // The numbers in use ascend exactly in the ordered cases.
  lemma {:induction false} NumbersAscend(batch: seq<Row>, rank: LineOrder)
    ensures OrderedNumbers(batch, rank) <==> Ascends(LineNumbers(batch, rank))
  {
    var given := GivenNumbers(batch, rank);
    if given != [] && !HasDuplicates(given) && Ascends(given) {
      forall i, j | 0 <= i < j < |given| ensures given[i] < given[j] {
      }
    }
  }

  lemma {:induction false} AscendingRowByRow(cfg: Config, batch: seq<Row>, numbers: seq<int>, results: seq<LineResult>)
    requires PoolAnswer(cfg, results) && cfg.batch == Tasks(numbers, batch)
    requires |numbers| <= |batch| && Ascends(numbers) && !HasDuplicates(numbers)
    ensures RowByRow(cfg, batch, numbers, SortByIndex(results))
  {
    var sorted := SortByIndex(results);
    TaskIndices(numbers, batch);
    SortedIndices(cfg, results);
    SortedUnique(Map(sorted, ResultIndex), numbers);
    forall j | 0 <= j < |numbers| ensures Credits(cfg, sorted[j], Task(numbers[j], batch[j])) {
      assert Map(sorted, ResultIndex)[j] == numbers[j] && cfg.batch[j] == Task(numbers[j], batch[j]);
      SortedCredits(cfg, results, j, j);
    }
  }

  lemma {:induction false} RowByRowAscends(cfg: Config, batch: seq<Row>, numbers: seq<int>, results: seq<LineResult>)
    requires RowByRow(cfg, batch, numbers, SortByIndex(results))
    ensures Ascends(numbers)
  {
    SortBySorts(results, ResultIndex);
    forall i, j | 0 <= i < j < |numbers| ensures numbers[i] <= numbers[j] {
      var sorted := SortByIndex(results);
      assert Credits(cfg, sorted[i], Task(numbers[i], batch[i])) && Credits(cfg, sorted[j], Task(numbers[j], batch[j]));
    }
  }
}
