/** The CSV worker's `onmessage`: window reads, range aggregates, release,
    and file loading into the chunk store. Parsing is reduced to the rows it
    yields; the store is the worker's only state. */
module CsvWorker {
  import opened JsMath
  import opened Wrappers
  import opened Stats
  import opened Aggregates
  import opened ChunkStore

  /** A parsed row: anything that is not an array, or its cells after `+` conversion. */
  datatype RawRow = NotArray | Fields(cells: seq<Num>)

  /** An array of at least two cells whose first two are finite numbers. */
  predicate ValidRow(row: RawRow) {
    row.Fields? && |row.cells| >= 2 && IsFinite(row.cells[0]) && IsFinite(row.cells[1])
  }

  /** The `(x, y)` pairs of the valid rows, in file order. */
  function ValidRows(rows: seq<RawRow>): (r: seq<(real, real)>)
    ensures |r| <= |rows|
  {
    if |rows| == 0 then []
    else
      var last := rows[|rows| - 1];
      ValidRows(rows[..|rows| - 1]) +
        (if ValidRow(last) then [(last.cells[0].v, last.cells[1].v)] else [])
  }

  /** The load in progress: the store, the next row index `i`, and the
      number of rows skipped. */
  datatype Ingest = Ingest(store: Store, next: nat, invalid: nat)

  predicate Ready(g: Ingest) {
    Valid(g.store) && g.next <= Capacity(g.store)
  }

  /** One row of the parse callback: an invalid row bumps the skip counter,
      a valid one is written at index `next`, which then advances. */
  function IngestRow(g: Ingest, row: RawRow): (g': Ingest)
    requires Ready(g)
    ensures Ready(g') && g'.store.totalRows == g.store.totalRows
    ensures !ValidRow(row) ==> g' == g.(invalid := g.invalid + 1)
    ensures ValidRow(row) ==>
              && g'.next == g.next + 1 && g'.invalid == g.invalid
              && XAt(g'.store, g.next) == row.cells[0].v && YAt(g'.store, g.next) == row.cells[1].v
    ensures forall j :: 0 <= j < g.next ==>
              XAt(g'.store, j) == XAt(g.store, j) && YAt(g'.store, j) == YAt(g.store, j)
  {
    if !ValidRow(row) then g.(invalid := g.invalid + 1)
    else Ingest(WriteRow(g.store, g.next, row.cells[0].v, row.cells[1].v), g.next + 1, g.invalid)
  }

  /** The rows of a parse, in order. */
  function IngestRows(g: Ingest, rows: seq<RawRow>): (g': Ingest)
    requires Ready(g)
    ensures Ready(g') && g'.store.totalRows == g.store.totalRows
  {
    if |rows| == 0 then g
    else IngestRow(IngestRows(g, rows[..|rows| - 1]), rows[|rows| - 1])
  }

  /** Papa Parse hands rows over in chunks; where the chunks break does not
      change the outcome. */
  lemma {:induction false} IngestRowsAppend(g: Ingest, a: seq<RawRow>, b: seq<RawRow>)
    requires Ready(g)
    ensures IngestRows(g, a + b) == IngestRows(IngestRows(g, a), b)
    decreases |b|
  {
    if |b| == 0 {
      assert a + b == a;
    } else {
      assert (a + b)[..|a + b| - 1] == a + b[..|b| - 1];
      IngestRowsAppend(g, a, b[..|b| - 1]);
    }
  }

  /** After a parse, the valid rows sit at consecutive indices from the
      starting `next`, rows already written are untouched, and every row is
      counted exactly once as written or skipped. */
  lemma {:induction false} IngestRowsStore(g: Ingest, rows: seq<RawRow>)
    requires Ready(g)
    ensures var g' := IngestRows(g, rows);
            var v := ValidRows(rows);
            && g'.next == g.next + |v|
            && g'.invalid == g.invalid + (|rows| - |v|)
            && (forall j :: 0 <= j < g.next ==>
                  XAt(g'.store, j) == XAt(g.store, j) && YAt(g'.store, j) == YAt(g.store, j))
            && (forall k :: 0 <= k < |v| ==>
                  XAt(g'.store, g.next + k) == v[k].0 && YAt(g'.store, g.next + k) == v[k].1)
    decreases |rows|
  {
    if |rows| > 0 {
      var p := rows[..|rows| - 1];
      var last := rows[|rows| - 1];
      IngestRowsStore(g, p);
      var g1 := IngestRows(g, p);
      var vp := ValidRows(p);
      var g' := IngestRow(g1, last);
      assert IngestRows(g, rows) == g';
      if ValidRow(last) {
        var v := ValidRows(rows);
        assert v == vp + [(last.cells[0].v, last.cells[1].v)];
        forall k | 0 <= k < |v|
          ensures XAt(g'.store, g.next + k) == v[k].0 && YAt(g'.store, g.next + k) == v[k].1
        {
          if k < |vp| {
            assert v[k] == vp[k];
          }
        }
      } else {
        assert ValidRows(rows) == vp + [];
      }
    }
  }

  /** Why a load failed. */
  datatype CsvErrorKind = EmptyFile | NoValidRows(firstParseError: Option<string>)

  /** Messages the CSV worker receives. */
  datatype Inbound =
    | ReadWindowReq(start: int, count: int, reqId: int)
    | DownsampleReq(start: int, count: int, threshold: int, reqId: int)
    | CsvAggReq(start: int, count: int, reqId: int)
    | ReleaseReq
    | FileUpload(size: nat, rows: seq<RawRow>, parseErrors: seq<string>)

  /** Messages the CSV worker posts; `CsvReady.skipped` is the count its
      warning reports. */
  datatype Outbound =
    | CsvWindow(x: seq<real>, y: seq<real>, reqId: int)
    | CsvAggRes(agg: AggResult, reqId: int)
    | CsvReleased
    | CsvError(kind: CsvErrorKind)
    | CsvReady(totalRows: nat, skipped: Option<nat>)

  /** What the `CSV_AGG_REQ` handler computes: the aggregates of the stored
      y values in the range a `READ_WINDOW` with the same bounds returns, or
      nothing where that read throws. */
  function CsvAgg(st: Store, start: int, count: int): (r: Option<AggResult>)
    requires Valid(st)
    ensures r.None? <==> ReadWindow(st, start, count).None?
  {
    match ReadWindow(st, start, count)
    case None => None
    case Some(w) => Some(Aggregate(Fins(w.y)))
  }

  /** `data` holds the stored y values of the rows from `lo` on, as numbers. */
  ghost predicate Mirrors(st: Store, lo: nat, data: seq<Num>)
    requires Valid(st)
  {
    lo + |data| <= Capacity(st) && forall k :: 0 <= k < |data| ==> data[k] == Fin(YAt(st, lo + k))
  }

  /** Row `j` of a mirrored range, and the prefix of `data` up to it. */
  lemma MirrorStep(st: Store, lo: nat, data: seq<Num>, j: nat)
    requires Valid(st) && Mirrors(st, lo, data) && lo <= j < lo + |data|
    ensures data[j - lo] == Fin(YAt(st, j))
    ensures data[..j - lo + 1] == data[..j - lo] + [Fin(YAt(st, j))]
  {
    assert data[..j - lo + 1][..j - lo] == data[..j - lo];
  }

  /** The first loop of the `CSV_AGG_REQ` handler over rows `lo .. hi - 1`:
      count, sum and running extremes, started at +/-Infinity. */
  method RangeFirstPass(st: Store, lo: nat, hi: nat, ghost data: seq<Num>)
      returns (mn: Num, mx: Num, sum: real, valid: nat)
    requires Valid(st) && lo <= hi && hi - lo == |data| && Mirrors(st, lo, data)
    ensures valid == |Finites(data)| && sum == Sum(Finites(data))
    ensures mn == MinFold(PosInf, data) && mx == MaxFold(NegInf, data)
  {
    mn, mx, sum, valid := PosInf, NegInf, 0.0, 0;
    var j := lo;
    while j < hi
      invariant lo <= j <= hi
      invariant FirstPassAt(data, j - lo, mn, mx, sum, valid)
    {
      var v := YAt(st, j);
      MirrorStep(st, lo, data, j);
      FirstPassStep(data, j - lo, mn, mx, sum, valid);
      valid := valid + 1;
      sum := sum + v;
      if Less(Fin(v), mn) {
        mn := Fin(v);
      }
      if Less(mx, Fin(v)) {
        mx := Fin(v);
      }
      j := j + 1;
    }
    assert data[..hi - lo] == data;
  }

  /** The second loop: the sum of squared deviations from `avg`. */
  method RangeSquaredDiffs(st: Store, lo: nat, hi: nat, ghost data: seq<Num>, avg: real)
      returns (sumSq: real)
    requires Valid(st) && lo <= hi && hi - lo == |data| && Mirrors(st, lo, data)
    ensures sumSq == SumSqDiff(Finites(data), avg)
  {
    sumSq := 0.0;
    var j := lo;
    while j < hi
      invariant lo <= j <= hi
      invariant sumSq == SumSqDiff(Finites(data[..j - lo]), avg)
    {
      var v := YAt(st, j);
      ghost var i := j - lo;
      MirrorStep(st, lo, data, j);
      var d := v - avg;
      SquaredStep(data, i, avg, sumSq, d);
      sumSq := sumSq + d * d;
      j := j + 1;
      assert data[..j - lo] == data[..i + 1];
    }
    assert data[..hi - lo] == data;
  }

  /** The `CSV_AGG_REQ` handler, reading the chunk store row by row. Stored
      values are always finite (rows are filtered on the way in and fresh
      slots are zero), so its `Number.isFinite` test always passes. An empty
      range runs neither loop and reports zeros. */
  method CsvAggregates(st: Store, start: int, count: int) returns (r: Option<AggResult>)
    requires Valid(st)
    ensures r == CsvAgg(st, start, count)
  {
    var end := Min(st.totalRows, start + count);
    if start < end && start < 0 {
      return None;
    }
    if end <= start {
      return Some(Zero);
    }
    ghost var data := Fins(ReadWindow(st, start, count).value.y);
    var mn, mx, sum, valid := RangeFirstPass(st, start, end, data);
    if valid > 0 {
      var avg := sum / (valid as real);
      var sumSq := RangeSquaredDiffs(st, start, end, data, avg);
      var variance := if valid > 1 then sumSq / (valid as real) else 0.0;
      r := Some(AggResult(mn.v, mx.v, avg, variance, valid));
    } else {
      r := Some(Zero);
    }
  }

  /** A non-empty file: storage is reset, the rows are ingested, and
      `totalRows` is published on completion, with an error when no row was
      valid and otherwise the row count and the number skipped. */
  function LoadFile(rows: seq<RawRow>, parseErrors: seq<string>): (r: (Store, Outbound))
    ensures Valid(r.0)
  {
    var g := IngestRows(Ingest(Empty, 0, 0), rows);
    var st := g.store.(totalRows := g.next);
    if g.next == 0 then
      (st, CsvError(NoValidRows(if |parseErrors| > 0 then Some(parseErrors[0]) else None)))
    else
      (st, CsvReady(g.next, if g.invalid > 0 then Some(g.invalid) else None))
  }

  /** The worker's `onmessage`. */
  function Handle(st: Store, msg: Inbound): (r: (Store, Option<Outbound>))
    requires Valid(st)
    ensures Valid(r.0)
    ensures msg.ReadWindowReq? || msg.CsvAggReq? || msg.DownsampleReq? ==> r.0 == st
    ensures msg.DownsampleReq? ==> r.1.None?
    ensures msg.ReleaseReq? ==> r == (Empty, Some(CsvReleased))
    ensures msg.ReadWindowReq? || msg.CsvAggReq? ==>
              (r.1.None? <==> msg.start < 0 && WindowLen(st, msg.start, msg.count) > 0)
    ensures msg.ReadWindowReq? && r.1.Some? ==>
              var w := ReadWindow(st, msg.start, msg.count);
              w.Some? && r.1 == Some(CsvWindow(w.value.x, w.value.y, msg.reqId))
    ensures msg.CsvAggReq? && r.1.Some? ==>
              var a := CsvAgg(st, msg.start, msg.count);
              a.Some? && r.1 == Some(CsvAggRes(a.value, msg.reqId))
    ensures msg.FileUpload? && msg.size == 0 ==> r == (st, Some(CsvError(EmptyFile)))
    ensures msg.FileUpload? && msg.size > 0 ==> r.1.Some? && r.0.totalRows == |ValidRows(msg.rows)|
  {
    match msg
    case ReadWindowReq(start, count, reqId) =>
      (st, match ReadWindow(st, start, count)
           case None => None
           case Some(w) => Some(CsvWindow(w.x, w.y, reqId)))
    case CsvAggReq(start, count, reqId) =>
      (st, match CsvAgg(st, start, count)
           case None => None
           case Some(a) => Some(CsvAggRes(a, reqId)))
    case ReleaseReq => (Empty, Some(CsvReleased))
    case DownsampleReq(_, _, _, _) => (st, None)
    case FileUpload(size, rows, parseErrors) =>
      if size == 0 then (st, Some(CsvError(EmptyFile)))
      else
        IngestRowsStore(Ingest(Empty, 0, 0), rows);
        var (st', out) := LoadFile(rows, parseErrors);
        (st', Some(out))
  }

  /** Load, then read back: a `READ_WINDOW` at any non-negative start returns
      exactly the valid rows of the file from that index on, up to `count`
      of them and no further than the last one. */
  lemma LoadThenRead(st: Store, size: nat, rows: seq<RawRow>, errs: seq<string>, start: int, count: int)
    requires Valid(st) && size > 0 && start >= 0
    ensures var st' := Handle(st, FileUpload(size, rows, errs)).0;
            var v := ValidRows(rows);
            var w := ReadWindow(st', start, count);
            && w.Some?
            && |w.value.x| == Max(0, Min(|v|, start + count) - start)
            && (forall k :: 0 <= k < |w.value.x| ==>
                  w.value.x[k] == v[start + k].0 && w.value.y[k] == v[start + k].1)
  {
    var st' := LoadFile(rows, errs).0;
    assert Handle(st, FileUpload(size, rows, errs)).0 == st';
    LoadedStore(rows, errs);
    var w := ReadWindow(st', start, count).value;
    var v := ValidRows(rows);
    forall k | 0 <= k < |w.x|
      ensures w.x[k] == v[start + k].0 && w.y[k] == v[start + k].1
    {
      assert start + k < st'.totalRows;
    }
  }

  /** A loaded store holds the valid rows at indices `0 .. |v| - 1`. */
  lemma LoadedStore(rows: seq<RawRow>, errs: seq<string>)
    ensures var st' := LoadFile(rows, errs).0;
            var v := ValidRows(rows);
            && st'.totalRows == |v| && |v| <= Capacity(st')
            && forall k :: 0 <= k < |v| ==> XAt(st', k) == v[k].0 && YAt(st', k) == v[k].1
  {
    var g := IngestRows(Ingest(Empty, 0, 0), rows);
    IngestRowsStore(Ingest(Empty, 0, 0), rows);
    var st' := LoadFile(rows, errs).0;
    assert st'.xChunks == g.store.xChunks && st'.yChunks == g.store.yChunks;
  }

  /** What the load reports: the number of valid rows and, when some rows
      were skipped, how many; a file without valid rows is an error and
      leaves nothing readable, because storage was reset before parsing. */
  lemma LoadReport(st: Store, size: nat, rows: seq<RawRow>, errs: seq<string>)
    requires Valid(st) && size > 0
    ensures var r := Handle(st, FileUpload(size, rows, errs));
            var n := |ValidRows(rows)|;
            var skipped := |rows| - n;
            && (n > 0 ==> r.1 == Some(CsvReady(n, if skipped > 0 then Some(skipped) else None)))
            && (n == 0 ==> r.1 == Some(CsvError(NoValidRows(if |errs| > 0 then Some(errs[0]) else None))))
            && (n == 0 ==> r.0.totalRows == 0)
  {
    IngestRowsStore(Ingest(Empty, 0, 0), rows);
  }

  /** While a parse is under way `totalRows` is still 0, so a read served in
      the meantime returns no rows. */
  lemma PartialLoadInvisible(rows: seq<RawRow>, start: int, count: int)
    ensures var g := IngestRows(Ingest(Empty, 0, 0), rows);
            var w := ReadWindow(g.store, start, count);
            w.Some? ==> w.value == Columns([], [])
  {
  }

  /** A `CSV_AGG_REQ` answers with the aggregates of exactly the y values a
      `READ_WINDOW` with the same bounds returns, and both fail together. */
  lemma AggMatchesRead(st: Store, start: int, count: int, reqId: int)
    requires Valid(st)
    ensures var a := Handle(st, CsvAggReq(start, count, reqId)).1;
            var w := Handle(st, ReadWindowReq(start, count, reqId)).1;
            && (a.None? <==> w.None?)
            && (w.Some? ==> a == Some(CsvAggRes(Aggregate(Fins(w.value.y)), reqId)))
  {
  }

  /** The aggregates of a window of a loaded file are those of its valid
      rows' y values in that range: the minimum is the least of them, and so on. */
  lemma AggOfLoadedRows(st: Store, size: nat, rows: seq<RawRow>, errs: seq<string>, start: nat, count: int)
    requires Valid(st) && size > 0
    ensures var st' := Handle(st, FileUpload(size, rows, errs)).0;
            var v := ValidRows(rows);
            var end := Max(start, Min(|v|, start + count));
            var ys := seq(end - start, k requires 0 <= k < end - start => v[start + k].1);
            CsvAgg(st', start, count) == Some(Aggregate(Fins(ys)))
  {
    var st' := Handle(st, FileUpload(size, rows, errs)).0;
    LoadThenRead(st, size, rows, errs, start, count);
    var w := ReadWindow(st', start, count).value;
    var v := ValidRows(rows);
    SameYs(w.y, v, start, Max(start, Min(|v|, start + count)));
  }

  /** A column read back element by element from `v[start..end]` is the
      sequence of those rows' y values. */
  lemma SameYs(wy: seq<real>, v: seq<(real, real)>, start: nat, end: int)
    requires start <= end && |wy| == end - start && (end == start || end <= |v|)
    requires forall k :: 0 <= k < |wy| ==> start + k < |v| && wy[k] == v[start + k].1
    ensures wy == seq(end - start, k requires 0 <= k < end - start => v[start + k].1)
  {
  }
}
