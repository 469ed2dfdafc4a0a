/** Distributing the width of the terminal over the columns of a table, greedily in three rounds.
    A dictionary keyed by the (distinct) columns is a sequence indexed by their positions. */
module ColumnWidths {
  import opened Prelude
  import opened StableSort

  // The lengths of the header and of the cells.
  datatype Column = Column(header: nat, contents: seq<nat>)

  // A column, by position, with the width it should have.
  datatype Expected = Expected(column: nat, width: int)

  datatype WidthError = ZeroDivision

  function Sum(s: seq<int>): int {
    if s == [] then 0 else Sum(s[..|s| - 1]) + s[|s| - 1]
  }

  function Max(a: int, b: int): int {
    if a < b then b else a
  }

  function Longest(contents: seq<nat>): nat {
    if contents == [] then 0 else Max(Longest(contents[..|contents| - 1]), contents[|contents| - 1])
  }

  function Average(contents: seq<nat>): int
    requires contents != []
  {
    Sum(contents) / |contents|
  }

  function Margin(c: Column): int {
    if c.header >= Longest(c.contents) then 4 else 2
  }

  function AverageExpected(c: Column): int
    requires c.contents != []
  {
    Max(c.header, Average(c.contents)) + Margin(c)
  }

  function MaxExpected(c: Column): int {
    Max(c.header, Longest(c.contents)) + Margin(c)
  }

  lemma {:induction false} SumUpdate(s: seq<int>, i: nat, x: int)
    requires i < |s|
    ensures Sum(s[i := x]) == Sum(s) - s[i] + x
  {
    var n := |s| - 1;
    if i == n {
      assert s[i := x][..n] == s[..n];
    } else {
      assert s[i := x][..n] == s[..n][i := x];
      SumUpdate(s[..n], i, x);
    }
  }

  lemma {:induction false} SumAtMost(s: seq<int>, bound: int)
    requires forall i :: 0 <= i < |s| ==> s[i] <= bound
    ensures Sum(s) <= |s| * bound
  {
    if s != [] {
      SumAtMost(s[..|s| - 1], bound);
    }
  }

  // The average is at most the longest.
  lemma {:induction false} AverageAtMostLongest(contents: seq<nat>)
    requires contents != []
    ensures Average(contents) <= Longest(contents)
  {
    EachAtMostLongest(contents);
    SumAtMost(contents, Longest(contents));
    FloorAtMost(Sum(contents), |contents|, Longest(contents));
  }

  lemma {:induction false} EachAtMostLongest(contents: seq<nat>)
    ensures forall i :: 0 <= i < |contents| ==> contents[i] <= Longest(contents)
  {
    if contents != [] {
      EachAtMostLongest(contents[..|contents| - 1]);
      assert forall i :: 0 <= i < |contents| - 1 ==> contents[i] == contents[..|contents| - 1][i];
    }
  }

  /** The longest is one of the lengths, and at least as long as every other. */
  lemma {:induction false} LongestMeans(contents: seq<nat>)
    requires contents != []
    ensures Longest(contents) in contents && forall x :: x in contents ==> x <= Longest(contents)
  {
    EachAtMostLongest(contents);
    LongestIsOne(contents);
  }

  lemma {:induction false} LongestIsOne(contents: seq<nat>)
    requires contents != []
    ensures Longest(contents) in contents
  {
    var init := contents[..|contents| - 1];
    assert contents == init + [contents[|contents| - 1]];
    if init != [] {
      LongestIsOne(init);
    }
  }

  /** The sum of lists put together is the sum of their sums. */
  lemma {:induction false} SumConcat(a: seq<int>, b: seq<int>)
    ensures Sum(a + b) == Sum(a) + Sum(b) && (|a| == 1 ==> Sum(a) == a[0])
  {
    if b == [] {
      assert a + b == a;
    } else {
      assert (a + b)[..|a + b| - 1] == a + b[..|b| - 1];
      SumConcat(a, b[..|b| - 1]);
    }
  }

  /** The average is the sum divided by the number of lengths, rounded down. */
  lemma {:induction false} AverageMeans(contents: seq<nat>)
    requires contents != []
    ensures |contents| * Average(contents) <= Sum(contents) < |contents| * (Average(contents) + 1)
  {
  }

  /** The margin is 4 if the header is at least as long as every cell, and 2 otherwise. */
  lemma {:induction false} MarginMeans(c: Column)
    requires c.contents != []
    ensures Margin(c) == 4 <==> forall x :: x in c.contents ==> x <= c.header
    ensures Margin(c) == 4 || Margin(c) == 2
  {
    LongestMeans(c.contents);
  }

  /** Without its margin the maximum of a column is the least width that holds the header and every cell,
      and its need the least that holds the header and the average. */
  lemma {:induction false} ExpectedMean(c: Column, width: int)
    requires c.contents != []
    ensures MaxExpected(c) - Margin(c) <= width <==> c.header <= width && forall x :: x in c.contents ==> x <= width
    ensures AverageExpected(c) - Margin(c) <= width <==> c.header <= width && Average(c.contents) <= width
  {
    LongestMeans(c.contents);
  }

  lemma {:induction false} FloorAtMost(total: int, count: int, bound: int)
    requires count > 0 && total <= count * bound
    ensures total / count <= bound
  {
    assert count * (total / count) <= total;
  }

  // ---------- sorting by width, widest first ----------

  function SortDescending(es: seq<Expected>): seq<Expected> {
    SortBy(es, (e: Expected) => -e.width)
  }

  // The entries are for different columns of a table of n.
  ghost predicate DistinctColumns(es: seq<Expected>, n: nat) {
    && (forall i :: 0 <= i < |es| ==> es[i].column < n)
    && forall i, j :: 0 <= i < j < |es| ==> es[i].column != es[j].column
  }

  /** Sorting puts the widest first and keeps the entries, for different columns. */
  lemma {:induction false} SortKeeps(es: seq<Expected>, n: nat)
    requires DistinctColumns(es, n)
    ensures var sorted := SortDescending(es);
      && DistinctColumns(sorted, n)
      && (forall i, j :: 0 <= i < j < |sorted| ==> sorted[i].width >= sorted[j].width)
      && multiset(sorted) == multiset(es)
  {
    var key := (e: Expected) => -e.width;
    var sorted := SortBy(es, key);
    SortBySorts(es, key);
    forall i, j | 0 <= i < j < |sorted| ensures sorted[i].width >= sorted[j].width {
      assert key(sorted[i]) <= key(sorted[j]);
    }
    PermutedColumns(es, sorted, n);
  }

  lemma {:induction false} PermutedColumns(es: seq<Expected>, sorted: seq<Expected>, n: nat)
    requires DistinctColumns(es, n) && multiset(sorted) == multiset(es)
    ensures DistinctColumns(sorted, n)
  {
    var column := (e: Expected) => e.column;
    MapPermutation(es, sorted, column);
    PermutedDistinct(Map(es, column), Map(sorted, column));
    forall i | 0 <= i < |sorted| ensures sorted[i].column < n {
      assert sorted[i] in multiset(es);
    }
    forall i, j | 0 <= i < j < |sorted| ensures sorted[i].column != sorted[j].column {
      assert Map(sorted, column)[i] != Map(sorted, column)[j];
    }
  }

  // ---------- one greedy round ----------

  /** The first k columns of the list have all they want, the next one got what was left, and those
      behind it got nothing; columns not in the list are untouched. */
  ghost predicate Served(es: seq<Expected>, before: seq<int>, after: seq<int>, left: int, k: nat)
    requires DistinctColumns(es, |before|) && |after| == |before|
  {
    && k <= |es|
    && (forall i :: 0 <= i < k ==> after[es[i].column] == es[i].width)
    && (k < |es| ==> left == 0 && before[es[k].column] <= after[es[k].column] <= es[k].width)
    && (forall i :: k < i < |es| ==> after[es[i].column] == before[es[i].column])
    && (forall c :: 0 <= c < |before| && (forall i :: 0 <= i < |es| ==> es[i].column != c) ==> after[c] == before[c])
  }

  ghost predicate ServedInOrder(es: seq<Expected>, before: seq<int>, after: seq<int>, left: int) {
    DistinctColumns(es, |before|) && |after| == |before| && exists k: nat :: Served(es, before, after, left, k)
  }

  method AssignAvailableWidth(es: seq<Expected>, availableWidth: int, start: seq<int>, averageWidth: Option<int>)
    returns (left: int, widths: seq<int>)
    requires availableWidth >= 0 && DistinctColumns(es, |start|)
    requires forall i :: 0 <= i < |es| ==> start[es[i].column] <= es[i].width
    requires averageWidth.Some? ==> forall i :: 0 <= i < |es| ==> start[es[i].column] == averageWidth.value
    ensures |widths| == |start| && left >= 0
    ensures Sum(widths) + left == Sum(start) + availableWidth
    ensures ServedInOrder(es, start, widths, left)
  {
    left, widths := availableWidth, start;
    ghost var k := 0;
    var i := 0;
    while i < |es|
      invariant 0 <= i <= |es| && |widths| == |start| && left >= 0
      invariant Sum(widths) + left == Sum(start) + availableWidth
      invariant k == i || (k + 1 == i && left == 0)
      invariant forall j :: 0 <= j < k ==> widths[es[j].column] == es[j].width
      invariant k < i ==> start[es[k].column] <= widths[es[k].column] <= es[k].width
      invariant forall j :: i <= j < |es| ==> widths[es[j].column] == start[es[j].column]
      invariant forall c :: 0 <= c < |start| && (forall j :: 0 <= j < |es| ==> es[j].column != c) ==>
          widths[c] == start[c]
    {
      if left <= 0 {
        break;
      }
      var column, expectedWidth := es[i].column, es[i].width;
      var target := if averageWidth.Some? then averageWidth.value else widths[column];
      var delta := expectedWidth - target;
      if delta <= left {
        SumUpdate(widths, column, expectedWidth);
        widths := widths[column := expectedWidth];
        left := left - delta;
        k := k + 1;
      } else {
        SumUpdate(widths, column, widths[column] + left);
        widths := widths[column := widths[column] + left];
        left := 0;
      }
      i := i + 1;
    }
    assert Served(es, start, widths, left, k);
  }

  // ---------- the three rounds ----------

  function Digits(n: nat): nat {
    if n < 10 then 1 else 1 + Digits(n / 10)
  }

  function Power(n: nat): nat {
    if n == 0 then 1 else 10 * Power(n - 1)
  }

  /** The number of digits: n lies below that power of ten, and not below the one before unless n is 0. */
  lemma {:induction false} DigitsMean(n: nat)
    ensures Digits(n) >= 1 && n < Power(Digits(n)) && (n > 0 ==> Power(Digits(n) - 1) <= n)
  {
    if n >= 10 {
      DigitsMean(n / 10);
    } else {
      assert Power(1) == 10 * Power(0);
    }
  }

  function IndexWidth(rows: nat): int {
    Max(Digits(rows) + 2, 4)
  }

  /** The index column is two wider than the number of rows has digits, and at least four wide. */
  lemma {:induction false} IndexWidthMeans(rows: nat)
    ensures IndexWidth(rows) >= 4 && rows < Power(IndexWidth(rows) - 2)
    ensures IndexWidth(rows) > 4 ==> Power(IndexWidth(rows) - 3) <= rows
  {
    DigitsMean(rows);
    if Digits(rows) == 1 {
      assert Power(1) == 10 * Power(0) && Power(2) == 10 * Power(1);
    }
  }

  function AvailableWidth(columns: nat, rows: nat, terminalWidth: int): int {
    terminalWidth - 10 - IndexWidth(rows) - (columns + 2)
  }

  // Every width lies between its share and its maximum, and the widths fit the budget.
  ghost predicate Fits(columns: seq<Column>, widths: seq<int>, budget: int)
    requires forall c :: 0 <= c < |columns| ==> columns[c].contents != []
  {
    && |widths| == |columns| > 0
    && Sum(widths) <= budget
    && forall c :: 0 <= c < |columns| ==>
         && widths[c] <= MaxExpected(columns[c])
         && (widths[c] >= budget / |columns| || widths[c] >= AverageExpected(columns[c]))
  }

  // The smaller of the share and the need of every column.
  function Shares(columns: seq<Column>, average: int): seq<int>
    requires forall c :: 0 <= c < |columns| ==> columns[c].contents != []
  {
    seq(|columns|, c requires 0 <= c < |columns| =>
      if average <= AverageExpected(columns[c]) then average else AverageExpected(columns[c]))
  }

  // The first n columns without those whose need is below the share, with their needs.
  function Needing(columns: seq<Column>, average: int, n: nat): seq<Expected>
    requires n <= |columns| && forall c :: 0 <= c < |columns| ==> columns[c].contents != []
  {
    if n == 0 then []
    else
      var need := AverageExpected(columns[n - 1]);
      Needing(columns, average, n - 1) + (if average <= need then [Expected(n - 1, need)] else [])
  }

  lemma {:induction false} NeedingAre(columns: seq<Column>, average: int, n: nat)
    requires n <= |columns| && forall c :: 0 <= c < |columns| ==> columns[c].contents != []
    ensures forall e :: e in Needing(columns, average, n) <==>
              e.column < n && e.width == AverageExpected(columns[e.column]) && average <= e.width
  {
    if n > 0 {
      NeedingAre(columns, average, n - 1);
    }
  }

  lemma {:induction false} NeedingDistinct(columns: seq<Column>, average: int, n: nat)
    requires n <= |columns| && forall c :: 0 <= c < |columns| ==> columns[c].contents != []
    ensures DistinctColumns(Needing(columns, average, n), n)
  {
    if n > 0 {
      NeedingDistinct(columns, average, n - 1);
    }
  }

  // One round: what is left of the budget goes to the columns of the list, greedily from its front.
  ghost predicate RoundTaken(es: seq<Expected>, before: seq<int>, after: seq<int>, budget: int) {
    if Sum(before) < budget then ServedInOrder(es, before, after, budget - Sum(after)) else after == before
  }

  // From the shares, `second` is what the second round leads to, and the widths what the third does.
  ghost predicate GreedyWidths(columns: seq<Column>, second: seq<int>, widths: seq<int>, budget: int)
    requires columns != [] && forall c :: 0 <= c < |columns| ==> columns[c].contents != []
  {
    var average := budget / |columns|;
    && RoundTaken(SortDescending(Needing(columns, average, |columns|)), Shares(columns, average), second, budget)
    && RoundTaken(SortDescending(Wanted(columns)), second, widths, budget)
  }

  /** The widths (margins included) never exceed the budget, even a negative one; no column gets more
      than its maximum, nor less than the smaller of the average share and its average need; and
      unless every column has its maximum the whole budget is spent: first on the shares, then on the
      needs from the largest down, then on the maxima from the largest down. */
  method CalculateColumnWidths(
    columns: seq<Column>, rows: nat, terminalWidth: int) returns (r: Result<seq<int>, WidthError>)
    requires forall c :: 0 <= c < |columns| ==> |columns[c].contents| == rows
    ensures r.Err? <==> columns == [] || rows == 0
    ensures r.Ok? ==> |r.value| == |columns| + 1 && r.value[0] == IndexWidth(rows)
    ensures r.Ok? ==>
      var widths := WithMargins(columns, r.value);
      var used := Sum(widths) + r.value[0] + (|columns| + 2) + 10;
      && used <= terminalWidth
      && (used == terminalWidth || forall c :: 0 <= c < |columns| ==> widths[c] == MaxExpected(columns[c]))
    ensures r.Ok? ==>
      var budget := AvailableWidth(|columns|, rows, terminalWidth);
      var widths := WithMargins(columns, r.value);
      && Fits(columns, widths, budget)
      && exists second :: GreedyWidths(columns, second, widths, budget)
  {
    if |columns| == 0 || rows == 0 {
      return Err(ZeroDivision);
    }
    var widths := Distribute(columns, AvailableWidth(|columns|, rows, terminalWidth));
    WithoutAndWithMargins(columns, widths, IndexWidth(rows));
    r := Ok([IndexWidth(rows)] + WithoutMargins(columns, widths));
  }

  // The three rounds.
  method Distribute(columns: seq<Column>, available: int) returns (widths: seq<int>)
    requires columns != [] && forall c :: 0 <= c < |columns| ==> columns[c].contents != []
    ensures Fits(columns, widths, available)
    ensures Sum(widths) == available || forall c :: 0 <= c < |columns| ==> widths[c] == MaxExpected(columns[c])
    ensures exists second :: GreedyWidths(columns, second, widths, available)
  {
    var average := available / |columns|;
    var needing;
    widths, needing := RoundOne(columns, average);
    RoundOneFits(columns, widths, available);
    var current := available - Sum(widths);
    if current > 0 {
      current, widths := RoundTwo(columns, needing, current, widths, average, available);
    }
    assert RoundTaken(SortDescending(Needing(columns, average, |columns|)), Shares(columns, average), widths,
        available);
    ghost var second := widths;
    if current > 0 {
      current, widths := RoundThree(columns, current, widths, available);
    }
    assert RoundTaken(SortDescending(Wanted(columns)), second, widths, available);
    assert GreedyWidths(columns, second, widths, available);
  }

  function WithoutMargins(columns: seq<Column>, widths: seq<int>): seq<int>
    requires |widths| == |columns|
  {
    seq(|columns|, c requires 0 <= c < |columns| => widths[c] - Margin(columns[c]))
  }

  function WithMargins(columns: seq<Column>, shown: seq<int>): seq<int>
    requires |shown| == |columns| + 1
  {
    seq(|columns|, c requires 0 <= c < |columns| => shown[c + 1] + Margin(columns[c]))
  }

  lemma {:induction false} WithoutAndWithMargins(columns: seq<Column>, widths: seq<int>, index: int)
    requires |widths| == |columns|
    ensures WithMargins(columns, [index] + WithoutMargins(columns, widths)) == widths
  {
  }

  /** What is left goes to the columns with the largest average need first. */
  method RoundTwo(
    columns: seq<Column>, needing: seq<Expected>, current: int, before: seq<int>, average: int, ghost budget: int)
    returns (left: int, widths: seq<int>)
    requires forall c :: 0 <= c < |columns| ==> columns[c].contents != []
    requires Fits(columns, before, budget) && current > 0 && Sum(before) + current == budget
    requires DistinctColumns(needing, |columns|)
    requires forall e :: e in needing ==>
      e.column < |columns| && e.width == AverageExpected(columns[e.column]) && before[e.column] == average <= e.width
    ensures Fits(columns, widths, budget) && left >= 0 && Sum(widths) + left == budget
    ensures RoundTaken(SortDescending(needing), before, widths, budget)
  {
    var es := SortDescending(needing);
    NeedsSorted(columns, needing, before, average);
    left, widths := AssignAvailableWidth(es, current, before, Some(average));
    RaisedFits(columns, es, before, widths, budget, left);
  }

  lemma {:induction false} NeedsSorted(columns: seq<Column>, needing: seq<Expected>, before: seq<int>, average: int)
    requires |before| == |columns| && (forall c :: 0 <= c < |columns| ==> columns[c].contents != [])
    requires DistinctColumns(needing, |columns|)
    requires forall e :: e in needing ==>
      e.column < |columns| && e.width == AverageExpected(columns[e.column]) && before[e.column] == average <= e.width
    ensures var es := SortDescending(needing);
      && DistinctColumns(es, |columns|)
      && forall i :: 0 <= i < |es| ==>
          before[es[i].column] == average <= es[i].width <= MaxExpected(columns[es[i].column])
  {
    var es := SortDescending(needing);
    SortKeeps(needing, |columns|);
    forall i | 0 <= i < |es|
      ensures before[es[i].column] == average <= es[i].width <= MaxExpected(columns[es[i].column]) {
      assert es[i] in multiset(needing);
      AverageAtMostLongest(columns[es[i].column].contents);
    }
  }

  /** What is left goes to the columns with the largest maximum first. */
  method RoundThree(columns: seq<Column>, current: int, before: seq<int>, ghost budget: int)
    returns (left: int, widths: seq<int>)
    requires forall c :: 0 <= c < |columns| ==> columns[c].contents != []
    requires Fits(columns, before, budget) && current > 0 && Sum(before) + current == budget
    ensures Fits(columns, widths, budget) && left >= 0 && Sum(widths) + left == budget
    ensures RoundTaken(SortDescending(Wanted(columns)), before, widths, budget)
    ensures left > 0 ==> forall c :: 0 <= c < |columns| ==> widths[c] == MaxExpected(columns[c])
  {
    var es := SortDescending(Wanted(columns));
    WantedSorted(columns);
    left, widths := AssignAvailableWidth(es, current, before, None);
    RaisedFits(columns, es, before, widths, budget, left);
    if left > 0 {
      AllServed(columns, es, before, widths, left);
    }
  }

  // Every column with its maximum.
  function Wanted(columns: seq<Column>): seq<Expected>
    requires forall c :: 0 <= c < |columns| ==> columns[c].contents != []
  {
    seq(|columns|, c requires 0 <= c < |columns| => Expected(c, MaxExpected(columns[c])))
  }

  lemma {:induction false} WantedSorted(columns: seq<Column>)
    requires forall c :: 0 <= c < |columns| ==> columns[c].contents != []
    ensures var es := SortDescending(Wanted(columns));
      && DistinctColumns(es, |columns|)
      && (forall i :: 0 <= i < |es| ==> es[i].width == MaxExpected(columns[es[i].column]))
      && forall c :: 0 <= c < |columns| ==> Expected(c, MaxExpected(columns[c])) in es
  {
    var wanted := Wanted(columns);
    var es := SortDescending(wanted);
    SortKeeps(wanted, |columns|);
    forall i | 0 <= i < |es| ensures es[i].width == MaxExpected(columns[es[i].column]) {
      assert es[i] in multiset(wanted);
    }
    forall c | 0 <= c < |columns| ensures Expected(c, MaxExpected(columns[c])) in es {
      assert wanted[c] in multiset(wanted);
    }
  }

  // Columns that need less than the share get what they need, the others the share.
  method RoundOne(columns: seq<Column>, average: int) returns (widths: seq<int>, needing: seq<Expected>)
    requires forall c :: 0 <= c < |columns| ==> columns[c].contents != []
    ensures widths == Shares(columns, average)
    ensures needing == Needing(columns, average, |columns|) && DistinctColumns(needing, |columns|)
    ensures forall e :: e in needing <==>
      e.column < |columns| && e.width == AverageExpected(columns[e.column]) && widths[e.column] == average <= e.width
  {
    widths, needing := [], [];
    for c := 0 to |columns|
      invariant |widths| == c
      invariant forall d :: 0 <= d < c ==> widths[d] == Shares(columns, average)[d]
      invariant needing == Needing(columns, average, c)
    {
      var expectedWidth := AverageExpected(columns[c]);
      if average <= expectedWidth {
        widths := widths + [average];
        needing := needing + [Expected(c, expectedWidth)];
      } else {
        widths := widths + [expectedWidth];
      }
    }
    NeedingAre(columns, average, |columns|);
    NeedingDistinct(columns, average, |columns|);
  }

  lemma {:induction false} RoundOneFits(columns: seq<Column>, widths: seq<int>, budget: int)
    requires columns != [] && forall c :: 0 <= c < |columns| ==> columns[c].contents != []
    requires widths == Shares(columns, budget / |columns|)
    ensures Fits(columns, widths, budget)
  {
    var average := budget / |columns|;
    SumAtMost(widths, average);
    assert |columns| * average <= budget;
    forall c | 0 <= c < |columns| ensures AverageExpected(columns[c]) <= MaxExpected(columns[c]) {
      AverageAtMostLongest(columns[c].contents);
    }
  }

  // A round only widens columns, up to what the list asks for.
  lemma {:induction false} RaisedFits(
    columns: seq<Column>, es: seq<Expected>, before: seq<int>, after: seq<int>, budget: int, left: int)
    requires (forall c :: 0 <= c < |columns| ==> columns[c].contents != []) && Fits(columns, before, budget)
    requires DistinctColumns(es, |before|) && |after| == |before| && left >= 0
    requires Sum(after) + left == budget && ServedInOrder(es, before, after, left)
    requires forall i :: 0 <= i < |es| ==> before[es[i].column] <= es[i].width <= MaxExpected(columns[es[i].column])
    ensures Fits(columns, after, budget)
  {
    var k: nat :| Served(es, before, after, left, k);
    forall c | 0 <= c < |columns| ensures before[c] <= after[c] <= MaxExpected(columns[c]) {
      if i :| 0 <= i < |es| && es[i].column == c {
        assert i < k || i == k || i > k;
      }
    }
  }

  // If some budget is left after the last round, every column has its maximum.
  lemma {:induction false} AllServed(
    columns: seq<Column>, es: seq<Expected>, before: seq<int>, after: seq<int>, left: int)
    requires forall c :: 0 <= c < |columns| ==> columns[c].contents != []
    requires |before| == |columns| == |after| && DistinctColumns(es, |before|) && left > 0
    requires ServedInOrder(es, before, after, left)
    requires forall c :: 0 <= c < |columns| ==> Expected(c, MaxExpected(columns[c])) in es
    ensures forall c :: 0 <= c < |columns| ==> after[c] == MaxExpected(columns[c])
  {
    var k: nat :| Served(es, before, after, left, k);
    forall c | 0 <= c < |columns| ensures after[c] == MaxExpected(columns[c]) {
      var i :| 0 <= i < |es| && es[i] == Expected(c, MaxExpected(columns[c]));
    }
  }
}
