/** The chart's data preparation: the four downsampled series become the
    plotted `[x, y, lo, hi]`, where a non-finite extreme falls back to the
    line value and each band pair is put in order. */
module ChartBand {
  import opened JsMath
  import opened Wrappers
  import opened Windows
  import opened Downsample

  /** `[x, y, lo, hi]`: the four plotted series. */
  datatype Plot = Plot(x: seq<Num>, y: seq<Num>, lo: seq<Num>, hi: seq<Num>)

  /** The plot before any data: four empty series. */
  const NoPlot := Plot([], [], [], [])

  /** An extreme that is not finite is replaced by the line value. */
  function Fallback(extreme: Num, line: Num): (v: Num)
    ensures IsFinite(extreme) ==> v == extreme
    ensures !IsFinite(extreme) ==> v == line
  {
    if IsFinite(extreme) then extreme else line
  }

  /** One band pair: both extremes after the fallback, lower first. The pair
      is the two values in some order, and ordered unless one is NaN (JS
      `<=` is false on NaN, so the pair is then swapped). */
  function BandAt(a: Num, b: Num, line: Num): (p: (Num, Num))
    ensures multiset{p.0, p.1} == multiset{Fallback(a, line), Fallback(b, line)}
    ensures !Fallback(a, line).NaN? && !Fallback(b, line).NaN? ==> LessEq(p.0, p.1)
    ensures IsFinite(a) && IsFinite(b) && LessEq(a, b) ==> p == (a, b)
    ensures !IsFinite(a) && !IsFinite(b) ==> p == (line, line)
  {
    var va := Fallback(a, line);
    var vb := Fallback(b, line);
    var p := if LessEq(va, vb) then (va, vb) else (vb, va);
    assert !va.NaN? && !vb.NaN? ==> LessEq(p.0, p.1) by {
      if !va.NaN? && !vb.NaN? { LessEqTotal(va, vb); }
    }
    p
  }

  /** The number of rows plotted: the shortest of the four series. */
  function AlignedLen(w: ChartWindow): nat {
    Min(Min(|w.x|, |w.yLine|), Min(|w.yMin|, |w.yMax|))
  }

  /** The memoised `aligned` value. With no data or an empty window the
      previous plot is kept; otherwise x and the line pass through whole and
      the band has one pair per aligned row. The result is also the next
      call's `prev`. */
  function Align(prev: Plot, data: Option<ChartWindow>): (r: Plot)
    ensures data.None? || AlignedLen(data.value) == 0 ==> r == prev
    ensures data.Some? && AlignedLen(data.value) > 0 ==>
              var w := data.value;
              && r.x == w.x && r.y == w.yLine
              && |r.lo| == |r.hi| == AlignedLen(w)
              && forall i :: 0 <= i < |r.lo| ==>
                   && multiset{r.lo[i], r.hi[i]} ==
                        multiset{Fallback(w.yMin[i], w.yLine[i]), Fallback(w.yMax[i], w.yLine[i])}
                   && (!Fallback(w.yMin[i], w.yLine[i]).NaN? && !Fallback(w.yMax[i], w.yLine[i]).NaN? ==>
                         LessEq(r.lo[i], r.hi[i]))
  {
    if data.None? then prev
    else
      var w := data.value;
      var len := AlignedLen(w);
      if len == 0 then prev
      else
        Plot(w.x, w.yLine,
             seq(len, i requires 0 <= i < len => BandAt(w.yMin[i], w.yMax[i], w.yLine[i]).0),
             seq(len, i requires 0 <= i < len => BandAt(w.yMin[i], w.yMax[i], w.yLine[i]).1))
  }

  /** On a downsampled bucket whose first sample is finite the band is
      exactly the bucket's least and greatest sample, and the line lies
      inside it. */
  lemma BandOfBucket(prev: Plot, x: seq<Num>, y: seq<Num>, threshold: int, stride: int, startIndex: int, i: nat)
    requires |x| == |y| && threshold >= 1 && stride >= 1 && |x| > threshold
    requires i < |Downsample.Downsample(x, y, threshold, stride, startIndex).x|
    requires 0 <= BucketStart(i, stride, startIndex) < |y| && IsFinite(y[BucketStart(i, stride, startIndex)])
    ensures var r := Downsample.Downsample(x, y, threshold, stride, startIndex);
            var p := Align(prev, Some(r));
            && i < |p.lo| && i < |p.y|
            && p.lo[i] == r.yMin[i] && p.hi[i] == r.yMax[i]
            && LessEq(p.lo[i], p.y[i]) && LessEq(p.y[i], p.hi[i])
  {
    DownsampleBucketOrdered(x, y, threshold, stride, startIndex, i);
    var r := Downsample.Downsample(x, y, threshold, stride, startIndex);
    assert AlignedLen(r) == |r.x|;
  }

  /** When a NaN first sample has left NaN as a bucket's extremes, the
      fallback draws the band as the single line value: the plot shows no
      spread for that bucket. */
  lemma NaNBucketBandCollapses(prev: Plot, x: seq<Num>, y: seq<Num>, threshold: int, stride: int, startIndex: int, i: nat, j: int)
    requires |x| == |y| && threshold >= 1 && stride >= 1 && |x| > threshold
    requires i < |Downsample.Downsample(x, y, threshold, stride, startIndex).x|
    requires 0 <= BucketStart(i, stride, startIndex) < |y| && y[BucketStart(i, stride, startIndex)] == NaN
    requires BucketStart(i, stride, startIndex) <= j < BucketEnd(|x|, i, stride, startIndex) && j < |y|
    requires IsFinite(y[j])
    ensures var r := Downsample.Downsample(x, y, threshold, stride, startIndex);
            var p := Align(prev, Some(r));
            i < |p.lo| && p.lo[i] == r.yLine[i] && p.hi[i] == r.yLine[i]
  {
    NaNFirstSampleMasksExtremes(x, y, threshold, stride, startIndex, i, j);
    var r := Downsample.Downsample(x, y, threshold, stride, startIndex);
    assert AlignedLen(r) == |r.x|;
  }

  /** A window that fits the threshold is passed through as `(x, y, y, y)`,
      and its band is the line itself at every row. */
  lemma PassthroughBandIsLine(prev: Plot, x: seq<Num>, y: seq<Num>, threshold: int, stride: int, startIndex: int)
    requires |x| == |y| && threshold >= 1 && stride >= 1 && 0 < |x| <= threshold
    ensures var p := Align(prev, Some(Downsample.Downsample(x, y, threshold, stride, startIndex)));
            p.x == x && p.y == y && p.lo == y && p.hi == y
  {
  }
}
