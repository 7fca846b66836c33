/** The downsampling worker's `downsample`: passthrough for small windows,
    otherwise buckets anchored to the absolute index grid, each reduced to a
    midpoint x and the mean, minimum and maximum of its finite y values. */
module Downsample {
  import opened JsMath
  import opened Stats
  import opened Windows

  /** `Math.floor(startIndex / stride) * stride` (Dafny's `/` floors for a positive divisor). */
  function BaseAligned(startIndex: int, stride: int): int
    requires stride >= 1
  {
    (startIndex / stride) * stride
  }

  /** `Math.min(threshold, Math.ceil(n / stride))` */
  function BucketCount(n: nat, threshold: int, stride: int): int
    requires stride >= 1
  {
    Min(threshold, CeilDiv(n, stride))
  }

  /** The local start of bucket `i`: `max(0, baseAligned + i * stride - startIndex)`. */
  function BucketStart(i: nat, stride: int, startIndex: int): int
    requires stride >= 1
  {
    Max(0, BaseAligned(startIndex, stride) + i * stride - startIndex)
  }

  /** The local end of bucket `i`: `min(n, localStart + stride)`. */
  function BucketEnd(n: nat, i: nat, stride: int, startIndex: int): int
    requires stride >= 1
  {
    Min(n, BucketStart(i, stride, startIndex) + stride)
  }

  /** `start + Math.floor(Math.max(1, end - start) / 2)` */
  function MidIdx(start: int, end: int): int {
    start + Max(1, end - start) / 2
  }

  /** The aligned base is the grid point at or just below the window start. */
  lemma BaseAlignedOnGrid(startIndex: int, stride: int)
    requires stride >= 1
    ensures BaseAligned(startIndex, stride) % stride == 0
    ensures startIndex - stride < BaseAligned(startIndex, stride) <= startIndex
  {
    var q := startIndex / stride;
    assert startIndex == q * stride + startIndex % stride;
    assert (q * stride) % stride == 0 by {
      MulMod(q, stride);
    }
  }

  lemma MulMod(q: int, d: int)
    requires d >= 1
    ensures (q * d) % d == 0
  {
    var r := (q * d) % d;
    var p := (q * d) / d;
    assert q * d == p * d + r;
    assert (q - p) * d == q * d - p * d;
    if q - p > 0 {
      MulMonoLe(1, q - p, d);
    } else if q - p < 0 {
      MulMonoLe(q - p, -1, d);
    }
  }

  /** Bucket 0 always starts at local index 0; bucket i >= 1 starts
      `i * stride - startIndex mod stride` into the window. */
  lemma BucketStartFormula(i: nat, stride: int, startIndex: int)
    requires stride >= 1
    ensures i == 0 ==> BucketStart(i, stride, startIndex) == 0
    ensures i >= 1 ==> BucketStart(i, stride, startIndex) == i * stride - startIndex % stride
  {
    BaseAlignedOnGrid(startIndex, stride);
    assert startIndex == (startIndex / stride) * stride + startIndex % stride;
    if i >= 1 {
      MulMonoLe(1, i, stride);
    }
  }

  /** Every bucket below the bucket count is a non-empty in-bounds range and
      its midpoint lies inside it, so every array read is in bounds. */
  lemma BucketInBounds(n: nat, i: nat, stride: int, startIndex: int)
    requires stride >= 1 && i < CeilDiv(n, stride)
    ensures var start := BucketStart(i, stride, startIndex);
            var end := BucketEnd(n, i, stride, startIndex);
            0 <= start < end <= n && start <= MidIdx(start, end) < end
  {
    BucketStartFormula(i, stride, startIndex);
    var q := CeilDiv(n, stride);
    MulMonoLe(i, q - 1, stride);
    assert BucketStart(i, stride, startIndex) <= i * stride;
  }

  /** With the start not on the grid, bucket 0 and bucket 1 overlap: bucket 0
      covers `[0, stride)` while bucket 1 starts earlier. */
  lemma FirstBucketsOverlap(n: nat, stride: int, startIndex: int)
    requires stride >= 1 && n >= stride && startIndex % stride != 0
    ensures BucketStart(0, stride, startIndex) == 0
    ensures BucketEnd(n, 0, stride, startIndex) == stride
    ensures BucketStart(1, stride, startIndex) < BucketEnd(n, 0, stride, startIndex)
  {
    BucketStartFormula(0, stride, startIndex);
    BucketStartFormula(1, stride, startIndex);
  }

  /** Grid stability: for i >= 1 the absolute start of bucket i is
      `baseAligned + i * stride`, so two window starts in the same stride
      block give the same absolute bucket boundaries. */
  lemma GridStable(i: nat, stride: int, s1: int, s2: int)
    requires stride >= 1 && i >= 1 && s1 / stride == s2 / stride
    ensures s1 + BucketStart(i, stride, s1) == BaseAligned(s1, stride) + i * stride
    ensures s1 + BucketStart(i, stride, s1) == s2 + BucketStart(i, stride, s2)
  {
    BaseAlignedOnGrid(s1, stride);
    BaseAlignedOnGrid(s2, stride);
    MulMonoLe(1, i, stride);
  }

  /** One output bucket: representative x, mean y, minimum y, maximum y. */
  datatype Bucket = Bucket(x: Num, line: Num, min: Num, max: Num)

  /** Bucket `i` as the source's loop body computes it: x at the midpoint,
      the running min/max started at `y[start]`, the mean of the finite
      values or `y[start]` when there are none. */
  function BucketAt(x: seq<Num>, y: seq<Num>, stride: int, startIndex: int, i: nat): Bucket
    requires |x| == |y| && stride >= 1 && i < CeilDiv(|x|, stride)
  {
    BucketInBounds(|x|, i, stride, startIndex);
    var start := BucketStart(i, stride, startIndex);
    var end := BucketEnd(|x|, i, stride, startIndex);
    var ys := y[start..end];
    var f := Finites(ys);
    Bucket(x[MidIdx(start, end)],
           if |f| > 0 then Fin(Mean(f)) else y[start],
           MinFold(y[start], ys),
           MaxFold(y[start], ys))
  }

  /** `downsample(x, y, threshold, stride, startIndex)` */
  function Downsample(x: seq<Num>, y: seq<Num>, threshold: int, stride: int, startIndex: int): (r: ChartWindow)
    requires |x| == |y| && threshold >= 1 && stride >= 1
    ensures |x| <= threshold ==> r == ChartWindow(x, y, y, y)
    ensures |x| > threshold ==>
              |r.x| == |r.yLine| == |r.yMin| == |r.yMax| == Min(threshold, CeilDiv(|x|, stride))
    ensures |r.x| <= threshold && |r.yLine| <= threshold && |r.yMin| <= threshold && |r.yMax| <= threshold
  {
    if |x| <= threshold then ChartWindow(x, y, y, y)
    else
      var b := BucketCount(|x|, threshold, stride);
      ChartWindow(seq(b, i requires 0 <= i < b => BucketAt(x, y, stride, startIndex, i).x),
                  seq(b, i requires 0 <= i < b => BucketAt(x, y, stride, startIndex, i).line),
                  seq(b, i requires 0 <= i < b => BucketAt(x, y, stride, startIndex, i).min),
                  seq(b, i requires 0 <= i < b => BucketAt(x, y, stride, startIndex, i).max))
  }

  /** The i-th output x is a raw sample at the bucket's midpoint
      `start + floor((end - start) / 2)`, not an interpolation. */
  lemma DownsampleMidpointX(x: seq<Num>, y: seq<Num>, threshold: int, stride: int, startIndex: int, i: nat)
    requires |x| == |y| && threshold >= 1 && stride >= 1 && |x| > threshold
    requires i < |Downsample(x, y, threshold, stride, startIndex).x|
    ensures var start := BucketStart(i, stride, startIndex);
            var end := BucketEnd(|x|, i, stride, startIndex);
            0 <= start < end <= |x| &&
            Downsample(x, y, threshold, stride, startIndex).x[i] == x[start + (end - start) / 2]
  {
    BucketInBounds(|x|, i, stride, startIndex);
  }

  /** A bucket range whose first sample is finite (in particular, one whose
      samples are all finite) reports the least, mean and greatest of its
      finite samples, in that order, and every finite sample lies between
      the reported least and greatest. */
  lemma BucketOrdered(y: seq<Num>, start: int, end: int)
    requires 0 <= start < end <= |y| && IsFinite(y[start])
    ensures var f := Finites(y[start..end]);
            && |f| > 0
            && MinFold(y[start], y[start..end]) == Fin(SeqMin(f))
            && MaxFold(y[start], y[start..end]) == Fin(SeqMax(f))
            && SeqMin(f) <= Mean(f) <= SeqMax(f)
            && forall j :: start <= j < end && IsFinite(y[j]) ==> SeqMin(f) <= y[j].v <= SeqMax(f)
  {
    var ys := y[start..end];
    assert ys[0] == y[start];
    FiniteBetweenExtremes(ys, 0);
    MeanBetweenExtremes(Finites(ys));
    forall j | start <= j < end && IsFinite(y[j])
      ensures SeqMin(Finites(ys)) <= y[j].v <= SeqMax(Finites(ys))
    {
      assert ys[j - start] == y[j];
      FiniteBetweenExtremes(ys, j - start);
    }
  }

  /** When the bucket's first sample is finite (in particular when all its
      samples are), yMin[i], yLine[i] and yMax[i] are the least, the mean and
      the greatest of the bucket's finite samples: finite, in that order, and
      bracketing every finite sample of the bucket. */
  lemma DownsampleBucketOrdered(x: seq<Num>, y: seq<Num>, threshold: int, stride: int, startIndex: int, i: nat)
    requires |x| == |y| && threshold >= 1 && stride >= 1 && |x| > threshold
    requires i < |Downsample(x, y, threshold, stride, startIndex).x|
    requires 0 <= BucketStart(i, stride, startIndex) < |y| && IsFinite(y[BucketStart(i, stride, startIndex)])
    ensures var r := Downsample(x, y, threshold, stride, startIndex);
            var start := BucketStart(i, stride, startIndex);
            var end := BucketEnd(|x|, i, stride, startIndex);
            var f := Finites(y[start..end]);
            && 0 <= start < end <= |y| && |f| > 0
            && r.yMin[i] == Fin(SeqMin(f)) && r.yLine[i] == Fin(Mean(f)) && r.yMax[i] == Fin(SeqMax(f))
            && r.yMin[i].Fin? && r.yLine[i].Fin? && r.yMax[i].Fin?
            && r.yMin[i].v <= r.yLine[i].v <= r.yMax[i].v
            && forall j :: start <= j < end && IsFinite(y[j]) ==> r.yMin[i].v <= y[j].v <= r.yMax[i].v
  {
    BucketInBounds(|x|, i, stride, startIndex);
    var r := Downsample(x, y, threshold, stride, startIndex);
    var b := BucketAt(x, y, stride, startIndex, i);
    assert r.yMin[i] == b.min && r.yLine[i] == b.line && r.yMax[i] == b.max;
    BucketOrdered(y, BucketStart(i, stride, startIndex), BucketEnd(|x|, i, stride, startIndex));
  }

  /** A bucket with no finite sample reports its first raw sample as mean, min and max. */
  lemma DownsampleBucketNoFinite(x: seq<Num>, y: seq<Num>, threshold: int, stride: int, startIndex: int, i: nat)
    requires |x| == |y| && threshold >= 1 && stride >= 1 && |x| > threshold
    requires i < |Downsample(x, y, threshold, stride, startIndex).x|
    requires forall j :: (BucketStart(i, stride, startIndex) <= j < BucketEnd(|x|, i, stride, startIndex)
                          && 0 <= j < |y|) ==> !IsFinite(y[j])
    ensures var r := Downsample(x, y, threshold, stride, startIndex);
            var start := BucketStart(i, stride, startIndex);
            0 <= start < |y| && r.yLine[i] == y[start] && r.yMin[i] == y[start] && r.yMax[i] == y[start]
  {
    BucketInBounds(|x|, i, stride, startIndex);
    var start := BucketStart(i, stride, startIndex);
    var end := BucketEnd(|x|, i, stride, startIndex);
    NoFinites(y[start..end]);
  }

  /** The running extremes start from `y[start]`, not from +/-Infinity: a NaN
      first sample survives as yMin and yMax even when the bucket holds finite
      samples, and then yMin <= yLine does not hold. */
  lemma NaNFirstSampleMasksExtremes(x: seq<Num>, y: seq<Num>, threshold: int, stride: int, startIndex: int, i: nat, j: int)
    requires |x| == |y| && threshold >= 1 && stride >= 1 && |x| > threshold
    requires i < |Downsample(x, y, threshold, stride, startIndex).x|
    requires 0 <= BucketStart(i, stride, startIndex) < |y| && y[BucketStart(i, stride, startIndex)] == NaN
    requires BucketStart(i, stride, startIndex) <= j < BucketEnd(|x|, i, stride, startIndex) && j < |y|
    requires IsFinite(y[j])
    ensures var r := Downsample(x, y, threshold, stride, startIndex);
            r.yMin[i] == NaN && r.yMax[i] == NaN && r.yLine[i].Fin? && !LessEq(r.yMin[i], r.yLine[i])
  {
    BucketInBounds(|x|, i, stride, startIndex);
    var start := BucketStart(i, stride, startIndex);
    var end := BucketEnd(|x|, i, stride, startIndex);
    var ys := y[start..end];
    assert ys[j - start] == y[j];
    FiniteBetweenExtremes(ys, j - start);
    var b := BucketAt(x, y, stride, startIndex, i);
    var r := Downsample(x, y, threshold, stride, startIndex);
    assert r.yMin[i] == b.min && r.yLine[i] == b.line && r.yMax[i] == b.max;
  }
}
