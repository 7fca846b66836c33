/** The two shapes of data that cross the worker boundary: a raw window of
    parallel columns and the four series of a downsampled chart window. */
module Windows {
  import opened JsMath

  /** `{ x, y }`: a copied slice of the dataset. */
  datatype WindowData = WindowData(x: seq<Num>, y: seq<Num>)

  /** `{ x, yLine, yMin, yMax }`: one entry per bucket (or per sample in passthrough). */
  datatype ChartWindow = ChartWindow(x: seq<Num>, yLine: seq<Num>, yMin: seq<Num>, yMax: seq<Num>)

  const EmptyChart := ChartWindow([], [], [], [])

  /** The external hooks' start: the value if finite, else 0. */
  function NormalStart(startIndex: Num): (s: real)
    ensures IsFinite(startIndex) ==> s == startIndex.v
    ensures !IsFinite(startIndex) ==> s == 0.0
  {
    if IsFinite(startIndex) then startIndex.v else 0.0
  }

  /** The external hooks' window size: the value if finite and positive, else 1. */
  function NormalSize(windowSize: Num): (n: real)
    ensures n > 0.0
    ensures IsFinite(windowSize) && windowSize.v > 0.0 ==> n == windowSize.v
    ensures !(IsFinite(windowSize) && windowSize.v > 0.0) ==> n == 1.0
  {
    if IsFinite(windowSize) && windowSize.v > 0.0 then windowSize.v else 1.0
  }
}
