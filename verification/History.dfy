/** Downsampling of the metrics history, over the reals. */
module History {
  import opened Arithmetic

  datatype Metrics = Metrics(
    cpu: real, memory: real, disk: real, load1: real, load5: real, load15: real, rx: real, tx: real)
  {
    function Plus(o: Metrics): Metrics {
      Metrics(cpu + o.cpu, memory + o.memory, disk + o.disk, load1 + o.load1, load5 + o.load5,
              load15 + o.load15, rx + o.rx, tx + o.tx)
    }

    function Times(k: real): Metrics {
      Metrics(cpu * k, memory * k, disk * k, load1 * k, load5 * k, load15 * k, rx * k, tx * k)
    }

    function Over(k: real): Metrics
      requires k != 0.0
    {
      Metrics(cpu / k, memory / k, disk / k, load1 / k, load5 / k, load15 / k, rx / k, tx / k)
    }
  }

  const ZERO := Metrics(0.0, 0.0, 0.0, 0.0, 0.0, 0.0, 0.0, 0.0)

  /** A stored snapshot, and a point of the chart. */
  datatype Row = Row(at: int, values: Metrics)
  datatype Point = Point(at: int, values: Metrics)

  function Total(rows: seq<Row>): Metrics
    decreases |rows|
  {
    if rows == [] then ZERO else Total(rows[..|rows| - 1]).Plus(rows[|rows| - 1].values)
  }

  /** The mean of a chunk, stamped with its last row. */
  function Mean(chunk: seq<Row>): Point
    requires chunk != []
  {
    Point(chunk[|chunk| - 1].at, Total(chunk).Over(|chunk| as real))
  }

  function Chunked(rows: seq<Row>, step: nat): seq<Point>
    requires step > 0
    decreases |rows|
  {
    if rows == [] then []
    else if |rows| <= step then [Mean(rows)]
    else [Mean(rows[..step])] + Chunked(rows[step..], step)
  }

  function Copied(rows: seq<Row>): (points: seq<Point>)
    ensures |points| == |rows|
  {
    seq(|rows|, i requires 0 <= i < |rows| => Point(rows[i].at, rows[i].values))
  }

  /** ceil(n / m). */
  function Step(n: nat, m: nat): (step: nat)
    requires m > 0
    ensures n <= step * m && (n > 0 ==> step > 0 && (step - 1) * m < n)
  {
    (n + m - 1) / m
  }

  function Downsampled(rows: seq<Row>, maxPoints: int): seq<Point> {
    if maxPoints <= 0 || |rows| <= maxPoints then Copied(rows)
    else Chunked(rows, Step(|rows|, maxPoints))
  }

  method DownsampleHistory(rows: seq<Row>, maxPoints: int) returns (out: seq<Point>)
    ensures out == Downsampled(rows, maxPoints)
  {
    hide Chunked, Total;
    if |rows| == 0 {
      out := [];
      DownsampledNothing(maxPoints);
    } else if maxPoints <= 0 || |rows| <= maxPoints {
      out := CopyRows(rows);
    } else {
      out := ChunkMeans(rows, Step(|rows|, maxPoints));
    }
  }

  lemma DownsampledNothing(maxPoints: int)
    ensures Downsampled([], maxPoints) == []
  {
  }

  method CopyRows(rows: seq<Row>) returns (out: seq<Point>)
    ensures out == Copied(rows)
  {
    out := [];
    for i := 0 to |rows|
      invariant |out| == i
      invariant forall k | 0 <= k < i :: out[k] == Point(rows[k].at, rows[k].values)
    {
      out := out + [Point(rows[i].at, rows[i].values)];
    }
  }

  /** The chunk loop. */
  method ChunkMeans(rows: seq<Row>, step: nat) returns (out: seq<Point>)
    requires step > 0
    ensures out == Chunked(rows, step)
  {
    hide Chunked, Mean;
    out := [];
    var i := 0;
    assert rows[0..] == rows;
    while i < |rows|
      invariant 0 <= i
      invariant out + Chunked(Rest(rows, i), step) == Chunked(rows, step)
      decreases |rows| - i
    {
      var end := i + step;
      if end > |rows| {
        end := |rows|;
      }
      ghost var rest := Rest(rows, i);
      ChunkedUnfolds(rest, step);
      assert rest[..end - i] == rows[i..end] && rest[end - i..] == Rest(rows, i + step);
      var mean := MeanOf(rows[i..end]);
      Regroup(out, mean, Chunked(Rest(rows, i + step), step));
      out := out + [mean];
      i := i + step;
    }
    ChunkedUnfolds([], step);
  }

  ghost function Rest(rows: seq<Row>, i: nat): seq<Row> {
    if i < |rows| then rows[i..] else []
  }

  lemma Regroup(a: seq<Point>, p: Point, b: seq<Point>)
    ensures a + ([p] + b) == a + [p] + b
  {
  }

  /** The inner loop: the totals of a chunk divided by its length. */
  method MeanOf(chunk: seq<Row>) returns (mean: Point)
    requires chunk != []
    ensures mean == Mean(chunk)
  {
    hide Total;
    var total := ZERO;
    TotalNothing();
    for k := 0 to |chunk|
      invariant total == Total(chunk[..k])
    {
      TotalSnoc(chunk[..k], chunk[k]);
      assert chunk[..k + 1] == chunk[..k] + [chunk[k]];
      total := total.Plus(chunk[k].values);
    }
    assert chunk[..|chunk|] == chunk;
    mean := Point(chunk[|chunk| - 1].at, total.Over(|chunk| as real));
  }

  lemma TotalNothing()
    ensures Total([]) == ZERO
  {
  }

  lemma TotalSnoc(rows: seq<Row>, r: Row)
    ensures Total(rows + [r]) == Total(rows).Plus(r.values)
  {
    assert (rows + [r])[..|rows|] == rows;
  }

  lemma ChunkedUnfolds(rows: seq<Row>, step: nat)
    requires step > 0
    ensures Chunked([], step) == []
    ensures rows != [] ==>
              var k := if step < |rows| then step else |rows|;
              Chunked(rows, step) == [Mean(rows[..k])] + Chunked(rows[k..], step)
  {
    hide Mean;
    if rows != [] && |rows| <= step {
      assert rows[..|rows|] == rows && rows[|rows|..] == [];
    }
  }

  // ---- How many points, and which rows they stand for ----

  /** The size of chunk i when n rows are cut in steps. */
  function ChunkSize(n: nat, step: nat, i: nat): nat
    requires step > 0
  {
    if (i + 1) * step <= n then step else if i * step < n then n - i * step else 0
  }

  lemma {:induction false} ChunkedLength(rows: seq<Row>, step: nat)
    requires step > 0
    ensures |Chunked(rows, step)| == Step(|rows|, step)
    decreases |rows|
  {
    if |rows| > step {
      ChunkedLength(rows[step..], step);
      StepLess(|rows|, step);
    } else if rows != [] {
      StepOne(|rows|, step);
    } else {
      StepZero(step);
    }
  }

  lemma StepUnique(n: nat, m: nat, s: nat)
    requires 0 < m && 0 < n && 0 < s && n <= s * m && (s - 1) * m < n
    ensures Step(n, m) == s
  {
    var t := Step(n, m);
    assert t * m >= n && (t - 1) * m < n;
    if t < s {
      MulMono(t, s - 1, m);
      assert false;
    } else if s < t {
      MulMono(s, t - 1, m);
      assert false;
    }
  }

  lemma StepLess(n: nat, m: nat)
    requires 0 < m < n
    ensures Step(n, m) == 1 + Step(n - m, m)
  {
    var s := Step(n - m, m);
    assert (s + 1) * m == s * m + m && s * m == (s - 1) * m + m;
    StepUnique(n, m, s + 1);
  }

  lemma StepOne(n: nat, m: nat)
    requires 0 < n <= m
    ensures Step(n, m) == 1
  {
    StepUnique(n, m, 1);
  }

  lemma StepZero(m: nat)
    requires m > 0
    ensures Step(0, m) == 0
  {
  }

  /** ceil(n / ceil(n / m)) <= m. */
  lemma EnoughPoints(n: nat, m: nat)
    requires 0 < m < n
    ensures Step(n, Step(n, m)) <= m
  {
    var step := Step(n, m);
    var k := Step(n, step);
    assert n <= m * step && (k - 1) * step < n;
    if k > m {
      MulMono(m, k - 1, step);
      assert false;
    }
  }

  /** Point i stands for rows i * step up to its end: the chunks partition the rows in order. */
  lemma {:induction false} PointCovers(rows: seq<Row>, step: nat, i: nat)
    requires step > 0 && i < |Chunked(rows, step)|
    ensures i * step < |rows|
    ensures var from, n := i * step, ChunkSize(|rows|, step, i);
            && n > 0 && from + n <= |rows|
            && Chunked(rows, step)[i] == Mean(rows[from..from + n])
            && (i + 1 < |Chunked(rows, step)| ==> n == step)
            && (i + 1 == |Chunked(rows, step)| ==> from + n == |rows|)
    decreases |rows|
  {
    hide Mean, ChunkSize;
    if i == 0 {
      FirstChunk(|rows|, step);
      if |rows| <= step {
        assert rows[0..|rows|] == rows;
      }
    } else {
      var rest := rows[step..];
      PointCovers(rest, step, i - 1);
      ShiftStep(step, i);
      ShiftedChunk(|rows|, step, i);
      ShiftedSlice(rows, step, (i - 1) * step, ChunkSize(|rest|, step, i - 1));
    }
  }

  lemma FirstChunk(n: nat, step: nat)
    requires step > 0
    ensures ChunkSize(n, step, 0) == if step <= n then step else n
  {
  }

  lemma ShiftedChunk(n: nat, step: nat, i: nat)
    requires 0 < step < n && i > 0
    ensures ChunkSize(n - step, step, i - 1) == ChunkSize(n, step, i)
  {
    ShiftStep(step, i);
  }

  lemma ShiftedSlice(rows: seq<Row>, step: nat, from: nat, n: nat)
    requires step + from + n <= |rows|
    ensures rows[step..][from..from + n] == rows[from + step..from + step + n]
  {
  }

  lemma ShiftStep(step: nat, i: nat)
    requires i > 0
    ensures (i - 1) * step + step == i * step && i * step + step == (i + 1) * step
  {
  }

  // ---- Conservation ----

  lemma {:induction false} TotalConcat(a: seq<Row>, b: seq<Row>)
    ensures Total(a + b) == Total(a).Plus(Total(b))
    decreases |b|
  {
    if b == [] {
      assert a + b == a;
    } else {
      var front := b[..|b| - 1];
      assert (a + b)[..|a + b| - 1] == a + front;
      TotalConcat(a, front);
    }
  }

  /** The points' values, each weighted by the number of rows it stands for. */
  function Weighted(points: seq<Point>, n: nat, step: nat): Metrics
    requires step > 0
    decreases |points|
  {
    if points == [] then ZERO
    else
      var k := if step < n then step else n;
      points[0].values.Times(k as real).Plus(Weighted(points[1..], n - k, step))
  }

  lemma OverTimes(m: Metrics, k: real)
    requires k != 0.0
    ensures m.Over(k).Times(k) == m
  {
  }

  lemma {:induction false} MeansConserveTotals(rows: seq<Row>, step: nat)
    requires step > 0
    ensures Weighted(Chunked(rows, step), |rows|, step) == Total(rows)
    decreases |rows|
  {
    hide Total;
    if rows == [] {
      TotalNothing();
    } else {
      var k := if step < |rows| then step else |rows|;
      ChunkedUnfolds(rows, step);
      var points := Chunked(rows, step);
      assert points[1..] == Chunked(rows[k..], step);
      OverTimes(Total(rows[..k]), k as real);
      MeansConserveTotals(rows[k..], step);
      TotalConcat(rows[..k], rows[k..]);
      assert rows[..k] + rows[k..] == rows;
    }
  }

  predicate Sorted(rows: seq<Row>) {
    forall i, j | 0 <= i < j < |rows| :: rows[i].at <= rows[j].at
  }

  predicate SortedPoints(points: seq<Point>) {
    forall i, j | 0 <= i < j < |points| :: points[i].at <= points[j].at
  }

  lemma SortedStaysSorted(rows: seq<Row>, step: nat)
    requires step > 0 && Sorted(rows)
    ensures SortedPoints(Chunked(rows, step))
  {
    hide Chunked, Total;
    var points := Chunked(rows, step);
    forall i, j | 0 <= i < j < |points| ensures points[i].at <= points[j].at {
      PointCovers(rows, step, i);
      PointCovers(rows, step, j);
      MulMono(i + 1, j, step);
      ShiftStep(step, i + 1);
    }
  }

  lemma LastPoint(rows: seq<Row>, step: nat)
    requires step > 0 && rows != []
    ensures var points := Chunked(rows, step); points != [] && points[|points| - 1].at == rows[|rows| - 1].at
  {
    hide Chunked, Total;
    ChunkedLength(rows, step);
    PointCovers(rows, step, |Chunked(rows, step)| - 1);
  }

  /** A chart of at most maxPoints points that keeps the order and, over the reals, the totals. */
  lemma DownsamplingIsFaithful(rows: seq<Row>, maxPoints: int)
    requires 0 < maxPoints < |rows|
    ensures var step := Step(|rows|, maxPoints);
            var points := Downsampled(rows, maxPoints);
            && 0 < |points| <= maxPoints
            && Weighted(points, |rows|, step) == Total(rows)
            && (Sorted(rows) ==> SortedPoints(points))
            && points[|points| - 1].at == rows[|rows| - 1].at
  {
    hide Chunked, Total, Weighted, Step, Mean, Sorted, SortedPoints, Copied;
    var step := Step(|rows|, maxPoints);
    ChunkedLength(rows, step);
    EnoughPoints(|rows|, maxPoints);
    MeansConserveTotals(rows, step);
    if Sorted(rows) { SortedStaysSorted(rows, step); }
    LastPoint(rows, step);
  }

  // ---- Every field by itself ----

  /** The sum of one field over the rows, from the first on. */
  function Sum(rows: seq<Row>, field: Metrics -> real): real
    decreases |rows|
  {
    if rows == [] then 0.0 else field(rows[0].values) + Sum(rows[1..], field)
  }

  lemma {:induction false} SumSnoc(rows: seq<Row>, r: Row, field: Metrics -> real)
    ensures Sum(rows + [r], field) == Sum(rows, field) + field(r.values)
    decreases |rows|
  {
    if rows == [] {
      assert rows + [r] == [r] && [r][1..] == [];
    } else {
      assert (rows + [r])[1..] == rows[1..] + [r];
      SumSnoc(rows[1..], r, field);
    }
  }

  lemma {:induction false} TotalIsSums(rows: seq<Row>)
    ensures var t := Total(rows);
            && t.cpu == Sum(rows, (m: Metrics) => m.cpu) && t.memory == Sum(rows, (m: Metrics) => m.memory)
            && t.disk == Sum(rows, (m: Metrics) => m.disk) && t.load1 == Sum(rows, (m: Metrics) => m.load1)
            && t.load5 == Sum(rows, (m: Metrics) => m.load5) && t.load15 == Sum(rows, (m: Metrics) => m.load15)
            && t.rx == Sum(rows, (m: Metrics) => m.rx) && t.tx == Sum(rows, (m: Metrics) => m.tx)
    decreases |rows|
  {
    hide Sum;
    if rows == [] {
      SumNothing();
    } else {
      var front, last := rows[..|rows| - 1], rows[|rows| - 1];
      assert rows == front + [last];
      TotalIsSums(front);
      forall field: Metrics -> real ensures Sum(rows, field) == Sum(front, field) + field(last.values) {
        SumSnoc(front, last, field);
      }
    }
  }

  lemma SumNothing()
    ensures forall field: Metrics -> real :: Sum([], field) == 0.0
  {
  }

  /** Point i of a thinned chart: each field is the sum of that field over the rows of its chunk, divided by their
      number, and its time is that of the last of them. */
  lemma PointIsMean(rows: seq<Row>, maxPoints: int, i: nat)
    requires 0 < maxPoints < |rows| && i < |Downsampled(rows, maxPoints)|
    ensures var step := Step(|rows|, maxPoints);
            var end := if (i + 1) * step < |rows| then (i + 1) * step else |rows|;
            && 0 <= i * step < end <= |rows|
            && var chunk := rows[i * step..end];
               var p := Downsampled(rows, maxPoints)[i];
               var n := (end - i * step) as real;
               && p.at == rows[end - 1].at
               && p.values == Metrics(
                    Sum(chunk, (m: Metrics) => m.cpu) / n, Sum(chunk, (m: Metrics) => m.memory) / n,
                    Sum(chunk, (m: Metrics) => m.disk) / n, Sum(chunk, (m: Metrics) => m.load1) / n,
                    Sum(chunk, (m: Metrics) => m.load5) / n, Sum(chunk, (m: Metrics) => m.load15) / n,
                    Sum(chunk, (m: Metrics) => m.rx) / n, Sum(chunk, (m: Metrics) => m.tx) / n)
  {
    hide Chunked, Total, Sum, Step;
    var step := Step(|rows|, maxPoints);
    PointCovers(rows, step, i);
    ShiftStep(step, i + 1);
    var end := if (i + 1) * step < |rows| then (i + 1) * step else |rows|;
    TotalIsSums(rows[i * step..end]);
  }

  /** A chart of few rows is the rows. */
  lemma FewAreCopied(rows: seq<Row>, maxPoints: int)
    requires maxPoints <= 0 || |rows| <= maxPoints
    ensures var points := Downsampled(rows, maxPoints);
            |points| == |rows| && forall i | 0 <= i < |rows| :: points[i].at == rows[i].at && points[i].values == rows[i].values
  {
  }
}
