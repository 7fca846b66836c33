/** The two-pass aggregator (`calculateAggregates`) and the aggregates worker's
    message dispatch. The hook's copy and the worker's copy of
    `calculateAggregates` are the same text, so one definition serves both. */
module Aggregates {
  import opened JsMath
  import opened Stats
  import opened Wrappers

  /** `{ min, max, average, variance, count }` */
  datatype AggResult = AggResult(min: real, max: real, average: real, variance: real, count: nat)

  /** The all-zero record returned when no entry is finite. */
  const Zero := AggResult(0.0, 0.0, 0.0, 0.0, 0)

  /** Reference statistics of the finite entries of `data`: their count,
      extremes, mean and population variance; all zero when there are none. */
  function Aggregate(data: seq<Num>): (r: AggResult)
    ensures r.count == |Finites(data)|
    ensures r == Zero <==> r.count == 0
    ensures |data| == 0 ==> r == Zero
    ensures r.count > 0 ==> r.min <= r.average <= r.max && r.variance >= 0.0
    ensures r.count > 0 ==>
              forall i :: 0 <= i < |data| && IsFinite(data[i]) ==> r.min <= data[i].v <= r.max
    ensures r.count > 0 ==>
              (exists i :: 0 <= i < |data| && data[i] == Fin(r.min)) &&
              (exists j :: 0 <= j < |data| && data[j] == Fin(r.max))
    ensures r.count == 1 ==> r.variance == 0.0 && r.min == r.average == r.max
  {
    var f := Finites(data);
    if |f| == 0 then Zero
    else
      FiniteStats(data);
      var avg := Mean(f);
      AggResult(SeqMin(f), SeqMax(f), avg,
                if |f| > 1 then SumSqDiff(f, avg) / (|f| as real) else 0.0,
                |f|)
  }

  /** What the statistics of a series with a finite entry satisfy. */
  lemma FiniteStats(data: seq<Num>)
    requires |Finites(data)| > 0
    ensures var f := Finites(data);
            && SeqMin(f) <= Mean(f) <= SeqMax(f)
            && SumSqDiff(f, Mean(f)) / (|f| as real) >= 0.0
            && (forall i :: 0 <= i < |data| && IsFinite(data[i]) ==> SeqMin(f) <= data[i].v <= SeqMax(f))
            && (exists i :: 0 <= i < |data| && data[i] == Fin(SeqMin(f)))
            && (exists j :: 0 <= j < |data| && data[j] == Fin(SeqMax(f)))
            && (|f| == 1 ==> SeqMin(f) == Mean(f) == SeqMax(f))
  {
    var f := Finites(data);
    MeanBetweenExtremes(f);
    NonNegQuotient(SumSqDiff(f, Mean(f)), |f| as real);
    FiniteBracket(data);
    ExtremesOccur(data);
    if |f| == 1 {
      SingleMean(f);
    }
  }

  lemma NonNegQuotient(x: real, c: real)
    requires x >= 0.0 && c > 0.0
    ensures x / c >= 0.0
  {
  }

  lemma SingleMean(f: seq<real>)
    requires |f| == 1
    ensures SeqMin(f) == Mean(f) == SeqMax(f) == f[0]
  {
    assert Sum(f) == Sum(f[..0]) + f[0];
  }

  /** Every finite entry lies between the least and greatest finite entry. */
  lemma FiniteBracket(data: seq<Num>)
    requires |Finites(data)| > 0
    ensures forall i :: 0 <= i < |data| && IsFinite(data[i]) ==>
              SeqMin(Finites(data)) <= data[i].v <= SeqMax(Finites(data))
  {
    forall i | 0 <= i < |data| && IsFinite(data[i])
      ensures SeqMin(Finites(data)) <= data[i].v <= SeqMax(Finites(data))
    {
      FiniteBetweenExtremes(data, i);
    }
  }

  /** The least and greatest finite entries are entries of `data`. */
  lemma ExtremesOccur(data: seq<Num>)
    requires |Finites(data)| > 0
    ensures exists i :: 0 <= i < |data| && data[i] == Fin(SeqMin(Finites(data)))
    ensures exists j :: 0 <= j < |data| && data[j] == Fin(SeqMax(Finites(data)))
  {
    FinitesMembers(data);
  }

  /** Taking in entry `i`: the filter grows by the entry when it is finite,
      and the running extremes take one step. */
  lemma FinitesStep(data: seq<Num>, i: nat)
    requires i < |data|
    ensures Finites(data[..i + 1]) == Finites(data[..i]) + (if IsFinite(data[i]) then [data[i].v] else [])
    ensures MinFold(PosInf, data[..i + 1]) == MinStep(MinFold(PosInf, data[..i]), data[i])
    ensures MaxFold(NegInf, data[..i + 1]) == MaxStep(MaxFold(NegInf, data[..i]), data[i])
  {
    assert data[..i + 1][..i] == data[..i];
    assert data[..i + 1][i] == data[i];
  }

  /** How the running totals over `data[..i]` change when finite entry `i`
      is taken in. */
  lemma PrefixStep(data: seq<Num>, i: nat)
    requires i < |data| && IsFinite(data[i])
    ensures Finites(data[..i + 1]) == Finites(data[..i]) + [data[i].v]
    ensures Sum(Finites(data[..i + 1])) == Sum(Finites(data[..i])) + data[i].v
    ensures MinFold(PosInf, data[..i + 1]) == MinStep(MinFold(PosInf, data[..i]), data[i])
    ensures MaxFold(NegInf, data[..i + 1]) == MaxStep(MaxFold(NegInf, data[..i]), data[i])
  {
    FinitesStep(data, i);
    SumSnoc(Finites(data[..i]), data[i].v);
  }

  /** How the sum of squared deviations over `data[..i]` changes when
      finite entry `i` is taken in. */
  lemma SumSqDiffStep(data: seq<Num>, i: nat, avg: real)
    requires i < |data| && IsFinite(data[i])
    ensures SumSqDiff(Finites(data[..i + 1]), avg) == SumSqDiff(Finites(data[..i]), avg) + Square(data[i].v - avg)
  {
    FinitesStep(data, i);
    SumSqDiffSnoc(Finites(data[..i]), data[i].v, avg);
  }

  /** Adding `d * d` is adding `Square(d)`. */
  lemma AddSquare(acc: real, d: real, next: real)
    requires next == acc + Square(d)
    ensures acc + d * d == next
  {
    SquareIsProduct(d);
  }

  /** The same step for the second pass, with `d * d` as the code writes it. */
  lemma SquaredStep(data: seq<Num>, i: nat, avg: real, acc: real, d: real)
    requires i < |data| && data[i] == Fin(d + avg)
    requires acc == SumSqDiff(Finites(data[..i]), avg)
    ensures acc + d * d == SumSqDiff(Finites(data[..i + 1]), avg)
  {
    SumSqDiffStep(data, i, avg);
    assert data[i].v - avg == d;
    AddSquare(acc, d, SumSqDiff(Finites(data[..i + 1]), avg));
  }

  /** A non-finite entry leaves the running totals alone. */
  lemma SkipStep(data: seq<Num>, i: nat)
    requires i < |data| && !IsFinite(data[i])
    ensures Finites(data[..i + 1]) == Finites(data[..i])
    ensures MinFold(PosInf, data[..i + 1]) == MinStep(MinFold(PosInf, data[..i]), data[i])
    ensures MaxFold(NegInf, data[..i + 1]) == MaxStep(MaxFold(NegInf, data[..i]), data[i])
  {
    FinitesStep(data, i);
    assert Finites(data[..i]) + [] == Finites(data[..i]);
  }

  /** The first loop's four accumulators after `k` entries of `data`. */
  ghost predicate FirstPassAt(data: seq<Num>, k: nat, mn: Num, mx: Num, sum: real, valid: nat) {
    && k <= |data|
    && valid == |Finites(data[..k])| && sum == Sum(Finites(data[..k]))
    && mn == MinFold(PosInf, data[..k]) && mx == MaxFold(NegInf, data[..k])
  }

  lemma FirstPassStep(data: seq<Num>, k: nat, mn: Num, mx: Num, sum: real, valid: nat)
    requires FirstPassAt(data, k, mn, mx, sum, valid) && k < |data| && IsFinite(data[k])
    ensures FirstPassAt(data, k + 1, MinStep(mn, data[k]), MaxStep(mx, data[k]), sum + data[k].v, valid + 1)
  {
    PrefixStep(data, k);
  }

  lemma FirstPassSkip(data: seq<Num>, k: nat, mn: Num, mx: Num, sum: real, valid: nat)
    requires FirstPassAt(data, k, mn, mx, sum, valid) && k < |data| && !IsFinite(data[k])
    ensures FirstPassAt(data, k + 1, mn, mx, sum, valid)
  {
    SkipStep(data, k);
  }

  /** The source's first pass: count and sum of the finite entries and their
      running extremes, started at +/-Infinity and compared with JavaScript `<`. */
  method FirstPass(data: seq<Num>) returns (mn: Num, mx: Num, sum: real, validCount: nat)
    ensures validCount == |Finites(data)|
    ensures sum == Sum(Finites(data))
    ensures mn == MinFold(PosInf, data) && mx == MaxFold(NegInf, data)
  {
    mn, mx := PosInf, NegInf;
    sum := 0.0;
    validCount := 0;
    var i := 0;
    while i < |data|
      invariant 0 <= i <= |data|
      invariant FirstPassAt(data, i, mn, mx, sum, validCount)
    {
      var value := data[i];
      if IsFinite(value) {
        FirstPassStep(data, i, mn, mx, sum, validCount);
        validCount := validCount + 1;
        sum := sum + value.v;
        if Less(value, mn) {
          mn := value;
        }
        if Less(mx, value) {
          mx := value;
        }
      } else {
        FirstPassSkip(data, i, mn, mx, sum, validCount);
      }
      i := i + 1;
    }
    assert data[..i] == data;
  }

  /** The source's second pass: the sum of squared deviations of the finite
      entries from `average`. */
  method SquaredDiffs(data: seq<Num>, average: real) returns (sumSquaredDiffs: real)
    ensures sumSquaredDiffs == SumSqDiff(Finites(data), average)
  {
    sumSquaredDiffs := 0.0;
    var i := 0;
    while i < |data|
      invariant 0 <= i <= |data|
      invariant sumSquaredDiffs == SumSqDiff(Finites(data[..i]), average)
    {
      var value := data[i];
      if IsFinite(value) {
        var diff := value.v - average;
        SquaredStep(data, i, average, sumSquaredDiffs, diff);
        sumSquaredDiffs := sumSquaredDiffs + diff * diff;
      } else {
        SkipStep(data, i);
      }
      i := i + 1;
    }
    assert data[..i] == data;
  }

  /** `calculateAggregates` as the source computes it: the early return for
      empty input, the first pass, the all-zero return when nothing is
      finite, the mean, the second pass, and variance 0 for one sample. */
  method CalculateAggregates(data: seq<Num>) returns (r: AggResult)
    ensures r == Aggregate(data)
  {
    if |data| == 0 {
      return Zero;
    }
    var mn, mx, sum, validCount := FirstPass(data);
    if validCount == 0 {
      return Zero;
    }
    var average := sum / (validCount as real);
    var sumSquaredDiffs := SquaredDiffs(data, average);
    var variance := if validCount > 1 then sumSquaredDiffs / (validCount as real) else 0.0;
    r := AggResult(mn.v, mx.v, average, variance, validCount);
  }

  /** A message the aggregates worker receives: its `type`, the `data`
      column of a plain request, the `x` and `y` columns of an XY request,
      and `reqId`. A field the message does not carry is empty. */
  datatype AggRequest = AggRequest(kind: string, data: seq<Num>, x: seq<Num>, y: seq<Num>, reqId: int)

  const PlainKind := "CALCULATE_AGGREGATES"
  const XYKind := "CALCULATE_AGGREGATES_XY"

  /** `{ type: "AGGREGATES_RESULT", ...aggregates, reqId }` */
  datatype AggResponse = AggregatesResult(agg: AggResult, reqId: int)

  /** The worker's `onmessage`: plain requests aggregate `data`, XY requests
      aggregate `y` only, any other type gets no reply; the reply echoes reqId. */
  function HandleAggregatesMessage(req: AggRequest): (r: Option<AggResponse>)
    ensures r.None? <==> req.kind != PlainKind && req.kind != XYKind
    ensures r.Some? ==> r.value.reqId == req.reqId
    ensures req.kind == PlainKind ==> r.value.agg == Aggregate(req.data)
    ensures req.kind == XYKind ==> r.value.agg == Aggregate(req.y)
  {
    if req.kind == PlainKind then Some(AggregatesResult(Aggregate(req.data), req.reqId))
    else if req.kind == XYKind then Some(AggregatesResult(Aggregate(req.y), req.reqId))
    else None
  }

  /** The x column of an XY request never influences the reply, which is the
      reply to a plain request over y. */
  lemma XYIgnoresX(x1: seq<Num>, x2: seq<Num>, y: seq<Num>, d: seq<Num>, reqId: int)
    ensures HandleAggregatesMessage(AggRequest(XYKind, d, x1, y, reqId))
         == HandleAggregatesMessage(AggRequest(XYKind, d, x2, y, reqId))
         == HandleAggregatesMessage(AggRequest(PlainKind, y, [], [], reqId))
  {
  }
}

/** `useAggregates`: at most one computation in flight, and a single queued
    slot that a newer window overwrites (latest wins). */
module AggregatesHook {
  import opened JsMath
  import opened Wrappers
  import opened Windows
  import opened Aggregates

  /** The hook's refs and state: the payload being computed (at most one),
      the queued payload, and the aggregates last shown. */
  datatype Coalescer = Coalescer(inFlight: seq<seq<Num>>, queued: Option<seq<Num>>, shown: Option<AggResult>)

  const Initial := Coalescer([], None, None)

  /** At most one computation runs, and something is queued only while one runs. */
  predicate Inv(c: Coalescer) {
    |c.inFlight| <= 1 && (c.queued.Some? ==> |c.inFlight| == 1)
  }

  /** The effect on a window change; the second component is the payload
      dispatched to the worker, if any. */
  function OnWindow(c: Coalescer, win: Option<WindowData>): (r: (Coalescer, Option<seq<Num>>))
    requires Inv(c)
    ensures Inv(r.0)
    ensures r.0.shown == c.shown
    ensures win.None? ==> r == (c, None)
    ensures win.Some? && |c.inFlight| == 1 ==>
              r.1.None? && r.0.inFlight == c.inFlight && r.0.queued == Some(win.value.y)
    ensures win.Some? && |c.inFlight| == 0 ==>
              r.1 == Some(win.value.y) && r.0.inFlight == [win.value.y] && r.0.queued.None?
  {
    match win
    case None => (c, None)
    case Some(w) =>
      if |c.inFlight| > 0 then (c.(queued := Some(w.y)), None)
      else (c.(inFlight := [w.y]), Some(w.y))
  }

  /** The in-flight computation settles (`ok` false models a rejected
      promise): its result is shown on success, and the queued payload, if
      any, is dispatched and the slot cleared. */
  function OnSettled(c: Coalescer, ok: bool): (r: (Coalescer, Option<seq<Num>>))
    requires Inv(c)
    ensures Inv(r.0)
    ensures |c.inFlight| == 0 ==> r == (c, None)
    ensures |c.inFlight| == 1 ==>
              && r.0.shown == (if ok then Some(Aggregate(c.inFlight[0])) else c.shown)
              && r.0.queued.None?
              && r.1 == c.queued
              && r.0.inFlight == (if c.queued.Some? then [c.queued.value] else [])
  {
    if |c.inFlight| == 0 then (c, None)
    else
      var shown := if ok then Some(Aggregate(c.inFlight[0])) else c.shown;
      match c.queued
      case None => (Coalescer([], None, shown), None)
      case Some(q) => (Coalescer([q], None, shown), Some(q))
  }

  /** Two windows arriving while a computation runs: the first is never
      dispatched, and on settling the second one is. */
  lemma LatestWins(c: Coalescer, w1: WindowData, w2: WindowData, ok: bool)
    requires Inv(c) && |c.inFlight| == 1
    ensures var c1 := OnWindow(c, Some(w1)).0;
            var c2 := OnWindow(c1, Some(w2)).0;
            OnSettled(c2, ok).1 == Some(w2.y) && OnSettled(c2, ok).0.inFlight == [w2.y]
  {
  }
}
