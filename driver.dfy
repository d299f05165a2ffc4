/** The render loop of the script: fetch the next batch from the cursor,
    count it, report progress, draw every row of it, and stop after the first
    empty batch. */
module Driver {
  import opened Projection
  import opened Render
  import opened Progress

  /** `increment`: the number of rows each `fetch forward` asks for. */
  const Increment := 1000

  /** The rows of the first n batches, batch after batch. */
  function Rows(bs: seq<seq<Row>>, n: nat): seq<Row>
    requires n <= |bs|
  {
    if n == 0 then [] else Rows(bs, n - 1) + bs[n - 1]
  }

  /** Putting a batch in front of the batches puts its rows in front of
      their rows. */
  lemma {:induction false} RowsCons(b: seq<Row>, bs: seq<seq<Row>>, n: nat)
    requires n <= |bs|
    ensures Rows([b] + bs, n + 1) == b + Rows(bs, n)
  {
    var cs := [b] + bs;
    if n == 0 {
      assert Rows(cs, 0) == [];
      assert cs[0] == b;
      assert [] + b == b && b + [] == b;
    } else {
      RowsCons(b, bs, n - 1);
      assert cs[n] == bs[n - 1];
      assert Rows(cs, n + 1) == Rows(cs, n) + cs[n];
      assert (b + Rows(bs, n - 1)) + bs[n - 1] == b + (Rows(bs, n - 1) + bs[n - 1]);
    }
  }

  /** The index of the first empty batch, or the number of batches when
      none is empty. */
  function FirstEmpty(bs: seq<seq<Row>>): (k: nat)
    ensures k <= |bs|
    ensures forall j :: 0 <= j < k ==> bs[j] != []
    ensures k < |bs| ==> bs[k] == []
  {
    if bs == [] || bs[0] == [] then 0 else 1 + FirstEmpty(bs[1..])
  }

  /** Below the first empty batch, batch i is non-empty; at it, batch i is
      empty or past the end. */
  lemma FirstEmptyStep(bs: seq<seq<Row>>, i: nat)
    requires i <= FirstEmpty(bs)
    ensures i < FirstEmpty(bs) <==> i < |bs| && bs[i] != []
  {
  }

  /** The server-side cursor declared over the query: the batches it hands
      out in order, and how many fetches it has answered. Past the last
      batch it answers with empty batches. */
  class Cursor {
    const batches: seq<seq<Row>>
    var fetches: nat

    constructor (batches: seq<seq<Row>>)
      ensures this.batches == batches && fetches == 0
    {
      this.batches := batches;
      fetches := 0;
    }

    /** `fetch forward increment from mycursor`. */
    method FetchForward() returns (batch: seq<Row>)
      modifies this
      ensures fetches == old(fetches) + 1
      ensures batch == if old(fetches) < |batches| then batches[old(fetches)] else []
    {
      batch := if fetches < |batches| then batches[fetches] else [];
      fetches := fetches + 1;
    }
  }

  /** `lastPercent` after the first n progress reports of the loop, made at
      counts Increment, 2 * Increment, ..., n * Increment, starting from
      `last`. */
  function LastAfter(last: int, n: nat, total: int): int
    requires total > 0
  {
    if n == 0 then last
    else
      var p := Percent(Increment * n, total);
      var before := LastAfter(last, n - 1, total);
      if p > before then p else before
  }

  /** The milestones printed by those n reports, in order. */
  function Milestones(last: int, n: nat, total: int): seq<int>
    requires total > 0
  {
    if n == 0 then []
    else
      var p := Percent(Increment * n, total);
      Milestones(last, n - 1, total) + if p > LastAfter(last, n - 1, total) then [p] else []
  }

  /** Since the count only grows, `lastPercent` after n >= 1 reports is the
      larger of its start value and the percentage of the last report. */
  lemma {:induction false} LastAfterIsLastReport(last: int, n: nat, total: int)
    requires total > 0 && n >= 1
    ensures var p := Percent(Increment * n, total);
      LastAfter(last, n, total) == if p > last then p else last
  {
    if n > 1 {
      LastAfterIsLastReport(last, n - 1, total);
      PercentIsMonotone(Increment * (n - 1), Increment * n, total);
    }
  }

  /** ms is a run of milestones printed after `last`: strictly increasing,
      each above `last` and a multiple of 10 in [0, 100]. */
  predicate IsMilestoneRun(ms: seq<int>, last: int) {
    (forall i :: 0 <= i < |ms| ==> last < ms[i] <= 100 && 0 <= ms[i] && ms[i] % 10 == 0) &&
    (forall i, j :: 0 <= i < j < |ms| ==> ms[i] < ms[j])
  }

  /** A run of milestones stays one when a larger multiple of 10 in
      [0, 100] is printed after it. */
  lemma MilestoneRunSnoc(ms: seq<int>, last: int, p: int)
    requires IsMilestoneRun(ms, last)
    requires p > (if ms == [] then last else ms[|ms| - 1])
    requires 0 <= p <= 100 && p % 10 == 0
    ensures IsMilestoneRun(ms + [p], last)
  {
    var ms' := ms + [p];
    forall i, j | 0 <= i < j < |ms'|
      ensures ms'[i] < ms'[j]
    {
      if j == |ms| {
        assert ms'[i] == ms[i] && ms'[j] == p;
        if i < |ms| - 1 {
          assert ms[i] < ms[|ms| - 1];
        }
      }
    }
  }

  /** The printed milestones are strictly increasing, each above the start
      value and a multiple of 10 in [0, 100]; the last one printed is
      `lastPercent` afterwards. */
  lemma {:induction false} MilestonesAreOrdered(last: int, n: nat, total: int)
    requires total > 0
    ensures var ms := Milestones(last, n, total);
      IsMilestoneRun(ms, last) &&
      LastAfter(last, n, total) == if ms == [] then last else ms[|ms| - 1]
  {
    if n > 0 {
      MilestonesAreOrdered(last, n - 1, total);
      var ms := Milestones(last, n - 1, total);
      var before := LastAfter(last, n - 1, total);
      var p := Percent(Increment * n, total);
      if p > before {
        assert Milestones(last, n, total) == ms + [p];
        assert LastAfter(last, n, total) == p;
        MilestoneRunSnoc(ms, last, p);
      } else {
        assert Milestones(last, n, total) == ms;
        assert LastAfter(last, n, total) == before;
      }
    }
  }

  /** Once the count has reached 95% of the total, the last milestone
      printed is 100. */
  lemma MilestonesEndAtHundred(last: int, n: nat, total: int)
    requires total > 0 && last < 100 && n >= 1
    requires 20 * (Increment * n) >= 19 * total
    ensures var ms := Milestones(last, n, total);
      ms != [] && ms[|ms| - 1] == 100
  {
    LastAfterIsLastReport(last, n, total);
    MilestonesAreOrdered(last, n, total);
  }

  /** The `for row in 0..<numRows` loop over one fetched batch. */
  method DrawBatch(v: Viewport, canvas: Canvas, batch: seq<Row>)
    requires HasPositiveSpans(v) && canvas.current == []
    modifies canvas
    ensures canvas.stroked == old(canvas.stroked) + RowsPaths(v, batch)
    ensures canvas.lineWidth == WidthAfter(old(canvas.lineWidth), batch)
    ensures canvas.current == []
  {
    for r := 0 to |batch|
      invariant canvas.stroked == old(canvas.stroked) + RowsPaths(v, batch[..r])
      invariant canvas.lineWidth == WidthAfter(old(canvas.lineWidth), batch[..r])
      invariant canvas.current == []
    {
      RowsPathsAppend(v, batch[..r], [batch[r]]);
      assert batch[..r + 1] == batch[..r] + [batch[r]];
      assert batch[..r + 1][..r] == batch[..r];
      DrawRow(v, canvas, batch[r]);
    }
    assert batch[..|batch|] == batch;
  }

  /** The progress report of the n-th fetch, made with the loop's `count`
      = n * Increment: it extends the milestones and `lastPercent` of the
      first n - 1 reports to those of the first n. */
  method ReportFetch(reporter: Reporter, count: int, total: int,
                     ghost n: nat, ghost last: int, ghost before: seq<int>)
    requires total > 0 && n >= 1 && count == Increment * n && reporter.Valid()
    requires reporter.emitted == before + Milestones(last, n - 1, total)
    requires reporter.lastPercent == LastAfter(last, n - 1, total)
    modifies reporter
    ensures reporter.Valid()
    ensures reporter.emitted == before + Milestones(last, n, total)
    ensures reporter.lastPercent == LastAfter(last, n, total)
  {
    reporter.Report(count, total);
  }

  /** Drawing one more fetched batch extends the paths and the line width
      of the rows drawn so far to those of the rows drawn so far followed by
      the batch. */
  method DrawFetched(v: Viewport, canvas: Canvas, batch: seq<Row>,
                     ghost start: seq<Path>, ghost width: real, ghost drawn: seq<Row>)
    requires HasPositiveSpans(v) && canvas.current == []
    requires canvas.stroked == start + RowsPaths(v, drawn)
    requires canvas.lineWidth == WidthAfter(width, drawn)
    modifies canvas
    ensures canvas.stroked == start + RowsPaths(v, drawn + batch)
    ensures canvas.lineWidth == WidthAfter(width, drawn + batch)
    ensures canvas.current == []
    ensures batch == [] ==> canvas.stroked == old(canvas.stroked) && canvas.lineWidth == old(canvas.lineWidth)
  {
    DrawBatch(v, canvas, batch);
    RowsPathsAppend(v, drawn, batch);
    WidthAfterAppend(width, drawn, batch);
    if batch == [] {
      assert drawn + batch == drawn;
    }
  }

  /** The whole `while hasData` loop. It returns the final `count`. */
  method RenderAll(cursor: Cursor, v: Viewport, canvas: Canvas, reporter: Reporter,
                   printProgress: bool, totalRows: int)
    returns (count: int)
    requires HasPositiveSpans(v)
    requires cursor.fetches == 0 && canvas.current == [] && reporter.Valid()
    requires printProgress ==> totalRows > 0
    modifies cursor, canvas, reporter
    ensures var k := FirstEmpty(cursor.batches);
      var rows := Rows(cursor.batches, k);
      cursor.fetches == k + 1 &&
      count == Increment * (k + 1) &&
      canvas.stroked == old(canvas.stroked) + RowsPaths(v, rows) &&
      canvas.lineWidth == WidthAfter(old(canvas.lineWidth), rows) &&
      canvas.current == []
    ensures reporter.Valid()
    ensures printProgress ==>
      var k := FirstEmpty(cursor.batches);
      reporter.emitted == old(reporter.emitted) + Milestones(old(reporter.lastPercent), k + 1, totalRows) &&
      reporter.lastPercent == LastAfter(old(reporter.lastPercent), k + 1, totalRows)
    ensures !printProgress ==>
      reporter.emitted == old(reporter.emitted) && reporter.lastPercent == old(reporter.lastPercent)
  {
    var hasData := true;
    count := 0;
    ghost var bs := cursor.batches;
    ghost var k := FirstEmpty(bs);
    ghost var start, width := canvas.stroked, canvas.lineWidth;
    ghost var last, before := reporter.lastPercent, reporter.emitted;
    ghost var done: nat := 0;  // the non-empty batches drawn so far
    ghost var drawn: seq<Row> := [];  // their rows
    while hasData
      invariant cursor.batches == bs && reporter.Valid()
      invariant done <= k && done <= cursor.fetches <= done + 1
      invariant hasData ==> cursor.fetches == done
      invariant !hasData ==> cursor.fetches == k + 1 && done == k
      invariant count == Increment * cursor.fetches
      invariant drawn == Rows(bs, done)
      invariant canvas.stroked == start + RowsPaths(v, drawn)
      invariant canvas.lineWidth == WidthAfter(width, drawn)
      invariant canvas.current == []
      invariant printProgress ==>
        reporter.emitted == before + Milestones(last, cursor.fetches, totalRows) &&
        reporter.lastPercent == LastAfter(last, cursor.fetches, totalRows)
      invariant !printProgress ==> reporter.emitted == before && reporter.lastPercent == last
      decreases |bs| + 1 - cursor.fetches
    {
      FirstEmptyStep(bs, done);
      var batch := cursor.FetchForward();
      hasData := |batch| > 0;
      count := count + Increment;
      if printProgress {
        ReportFetch(reporter, count, totalRows, cursor.fetches, last, before);
      }
      DrawFetched(v, canvas, batch, start, width, drawn);
      if hasData {
        done := done + 1;
        drawn := drawn + batch;
      }
    }
  }

  /** The batches a cursor with `fetch forward n` hands out for `rows`:
      consecutive slices of n rows, the last one possibly shorter. */
  function Chunks(rows: seq<Row>, n: nat): (r: seq<seq<Row>>)
    requires n > 0
    ensures r == [] <==> rows == []
    ensures forall i :: 0 <= i < |r| ==> 0 < |r[i]| <= n
    decreases |rows|
  {
    if rows == [] then []
    else if |rows| <= n then [rows]
    else [rows[..n]] + Chunks(rows[n..], n)
  }

  /** A cursor over a query result answers with no empty batch before the
      end, so the loop draws every row of the result. */
  lemma ChunksCoverRows(rows: seq<Row>, n: nat)
    requires n > 0
    ensures var cs := Chunks(rows, n);
      FirstEmpty(cs) == |cs| && Rows(cs, |cs|) == rows
  {
    ChunksConcatenate(rows, n);
  }

  /** The batches, joined in order, give back the query result. */
  lemma {:induction false} ChunksConcatenate(rows: seq<Row>, n: nat)
    requires n > 0
    ensures var cs := Chunks(rows, n); Rows(cs, |cs|) == rows
    decreases |rows|
  {
    if |rows| > n {
      var rest := Chunks(rows[n..], n);
      ChunksConcatenate(rows[n..], n);
      assert Chunks(rows, n) == [rows[..n]] + rest;
      RowsCons(rows[..n], rest, |rest|);
      assert rows[..n] + rows[n..] == rows;
    } else if rows != [] {
      assert Chunks(rows, n) == [rows];
      assert Rows([rows], 1) == Rows([rows], 0) + rows;
      assert [] + rows == rows;
    }
  }

  /** The cursor hands out ceil(|rows| / n) batches: all but the last are
      full. */
  lemma {:induction false} ChunksCount(rows: seq<Row>, n: nat)
    requires n > 0
    ensures var c := |Chunks(rows, n)|;
      (c - 1) * n < |rows| <= c * n
    decreases |rows|
  {
    if |rows| > n {
      var c := |Chunks(rows[n..], n)|;
      ChunksCount(rows[n..], n);
      assert |Chunks(rows, n)| == c + 1;
      assert (c + 1) * n == c * n + n;
    }
  }

  /** With the total counted from the same query, the loop over the
      cursor's batches ends its progress output with 100. */
  lemma ProgressEndsAtHundred(rows: seq<Row>, last: int)
    requires rows != [] && last < 100
    ensures var cs := Chunks(rows, Increment);
      var ms := Milestones(last, FirstEmpty(cs) + 1, |rows|);
      ms != [] && ms[|ms| - 1] == 100
  {
    ChunksCoverRows(rows, Increment);
    ChunksCount(rows, Increment);
    var c := |Chunks(rows, Increment)|;
    assert |rows| <= c * Increment;
    MilestonesEndAtHundred(last, c + 1, |rows|);
  }
}
