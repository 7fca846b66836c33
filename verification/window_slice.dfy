/** The local-mode window: `useWindowData` slices the loaded columns, and
    `useWindowRows` builds the same rows as `{ x, y }` pairs. */
module WindowSlice {
  import opened JsMath
  import opened Wrappers
  import opened Windows

  /** `useWindowData`: no window when a column is missing or empty;
      otherwise the start is clamped into `[0, total - 1]`, the size raised
      to at least 1, and the slice stops at the shorter column. */
  function WindowOf(xAll: Option<seq<Num>>, yAll: Option<seq<Num>>, startIndex: int, windowSize: int): (r: Option<WindowData>)
    ensures r.None? <==> xAll.None? || yAll.None? || |xAll.value| == 0 || |yAll.value| == 0
    ensures r.Some? ==>
              var total := Min(|xAll.value|, |yAll.value|);
              var s := Max(0, Min(startIndex, total - 1));
              && |r.value.x| == |r.value.y|
              && |r.value.x| == Min(s + Max(1, windowSize), total) - s
              && 1 <= |r.value.x| <= Max(1, windowSize)
              && s + |r.value.x| <= total
              && (s + Max(1, windowSize) <= total ==> |r.value.x| == Max(1, windowSize))
              && (forall k :: 0 <= k < |r.value.x| ==>
                    r.value.x[k] == xAll.value[s + k] && r.value.y[k] == yAll.value[s + k])
  {
    if xAll.None? || yAll.None? || |xAll.value| == 0 || |yAll.value| == 0 then None
    else
      var total := Min(|xAll.value|, |yAll.value|);
      if total == 0 then None
      else
        var s := Max(0, Min(startIndex, Max(0, total - 1)));
        var n := Max(1, windowSize);
        var e := Min(s + n, total);
        Some(WindowData(xAll.value[s..e], yAll.value[s..e]))
  }

  /** The hook's own example: columns 1..5 and 10..50; start 1, size 3
      gives `[2, 3, 4]` and `[20, 30, 40]`; start 2, size 10 gives `[3, 4, 5]`. */
  lemma WindowOfExample()
    ensures var xs := [Fin(1.0), Fin(2.0), Fin(3.0), Fin(4.0), Fin(5.0)];
            var ys := [Fin(10.0), Fin(20.0), Fin(30.0), Fin(40.0), Fin(50.0)];
            && WindowOf(Some(xs), Some(ys), 1, 3) ==
                 Some(WindowData([Fin(2.0), Fin(3.0), Fin(4.0)], [Fin(20.0), Fin(30.0), Fin(40.0)]))
            && WindowOf(Some(xs), Some(ys), 2, 10).value.x == [Fin(3.0), Fin(4.0), Fin(5.0)]
  {
    var xs := [Fin(1.0), Fin(2.0), Fin(3.0), Fin(4.0), Fin(5.0)];
    var ys := [Fin(10.0), Fin(20.0), Fin(30.0), Fin(40.0), Fin(50.0)];
    assert xs[1..4] == [Fin(2.0), Fin(3.0), Fin(4.0)];
    assert ys[1..4] == [Fin(20.0), Fin(30.0), Fin(40.0)];
    assert xs[2..5] == [Fin(3.0), Fin(4.0), Fin(5.0)];
  }

  /** `{ x, y }` */
  datatype Row = Row(x: Num, y: Num)

  /** `useWindowRows`: nothing in external mode or without data; otherwise
      the rows from the clamped start, up to `N` of them. Unlike
      `useWindowData`, a size below 1 yields no rows. */
  function WindowRows(useExternal: bool, x: Option<seq<Num>>, y: Option<seq<Num>>, S: int, N: int): (rows: seq<Row>)
    ensures useExternal || x.None? || y.None? || |x.value| == 0 || |y.value| == 0 ==> rows == []
    ensures !useExternal && x.Some? && y.Some? ==>
              var total := Min(|x.value|, |y.value|);
              var start := Max(0, Min(S, Max(0, total - 1)));
              && |rows| == Max(0, Min(start + N, total) - start)
              && (forall i :: 0 <= i < |rows| ==>
                    rows[i] == Row(x.value[start + i], y.value[start + i]))
  {
    if useExternal || x.None? || y.None? || |x.value| == 0 || |y.value| == 0 then []
    else
      var total := Min(|x.value|, |y.value|);
      var start := Max(0, Min(S, Max(0, total - 1)));
      var end := Min(start + N, total);
      var len := Max(0, end - start);
      seq(len, i requires 0 <= i < len => Row(x.value[start + i], y.value[start + i]))
  }

  /** For a window size of at least 1 the two hooks agree: the rows are the
      window's columns zipped together. */
  lemma RowsZipWindow(x: Option<seq<Num>>, y: Option<seq<Num>>, S: int, N: int)
    requires N >= 1
    ensures var w := WindowOf(x, y, S, N);
            var rows := WindowRows(false, x, y, S, N);
            && (w.None? ==> rows == [])
            && (w.Some? ==>
                  && |rows| == |w.value.x|
                  && forall i :: 0 <= i < |rows| ==> rows[i] == Row(w.value.x[i], w.value.y[i]))
  {
  }
}

/** `useTargetPoints`: how many points the chart asks the downsampler for. */
module TargetPoints {
  import opened JsMath

  /** `max(1, floor(width / max(1, downsampleRatio)))` */
  function TargetPoints(width: int, ratio: int): (t: int)
    ensures t >= 1
    ensures width >= 1 ==> t <= width
    ensures ratio <= 1 ==> t == Max(1, width)
  {
    Max(1, width / Max(1, ratio))
  }

  /** A larger ratio never asks for more points. */
  lemma TargetPointsAntitone(width: int, r1: int, r2: int)
    requires width >= 0 && r1 <= r2
    ensures TargetPoints(width, r2) <= TargetPoints(width, r1)
  {
    var d1 := Max(1, r1);
    var d2 := Max(1, r2);
    var q2 := width / d2;
    MulMonoLe(d1, d2, q2);
    assert q2 * d1 <= width;
    if q2 > width / d1 {
      MulMonoLe(width / d1 + 1, q2, d1);
      assert false;
    }
  }

  /** The default 1000-pixel chart at ratio 2 asks for 500 points. */
  lemma TargetPointsDefault()
    ensures TargetPoints(1000, 2) == 500
  {
  }
}
