/** The callers of the downsampler: the parameter normalisation and even
    stride derivation shared by `useDownsampleExternal` and `useDownsample`,
    the external hook's reqId/version response filter, and the local hook's
    dispatch step. */
module DownsampleHooks {
  import opened JsMath
  import opened Wrappers
  import opened Windows
  import Downsample

  /** `rawStride = max(1, ceil(n / t))`, then rounded to an even stride:
      `max(1, round(rawStride / 2) * 2)`. The stride is even, at least 2, at
      most one above rawStride, and `t` buckets of it cover `n` rows. */
  function Stride(n: real, t: int): (stride: int)
    requires n > 0.0 && t >= 1
    ensures stride >= 2 && stride % 2 == 0
    ensures var raw := Max(1, Ceil(n / (t as real)));
            raw <= stride <= raw + 1
    ensures (stride as real) * (t as real) >= n
  {
    var raw := Max(1, Ceil(n / (t as real)));
    var half := Round(raw as real / 2.0);
    assert raw - 1 <= half * 2 <= raw + 1;
    assert half * 2 != raw - 1 && half * 2 != raw + 1 ==> half * 2 == raw;
    var stride := Max(1, half * 2);
    CoverLemma(n, t as real, raw, stride);
    stride
  }

  lemma CoverLemma(n: real, t: real, raw: int, stride: int)
    requires t >= 1.0 && n > 0.0 && raw as real >= n / t && stride >= raw
    ensures (stride as real) * t >= n
  {
    assert (stride as real) >= n / t;
    assert (stride as real) * t >= (n / t) * t;
  }

  /** The worked examples: 1000 rows at threshold 200 give stride 6; at
      threshold 100, stride 10. */
  lemma StrideExamples()
    ensures Stride(1000.0, 200) == 6
    ensures Stride(1000.0, 100) == 10
  {
    assert Ceil(1000.0 / 200.0) == 5;
    assert Round(5.0 / 2.0) == 3;
    assert Ceil(1000.0 / 100.0) == 10;
    assert Round(10.0 / 2.0) == 5;
  }

  /** Since the stride is at least ceil(n / t), a window of at most n rows
      never yields more than t buckets: the threshold cap is not what
      bounds the output. */
  lemma StrideBoundsBuckets(n: real, t: int, m: nat)
    requires n > 0.0 && t >= 1 && (m as real) <= n
    ensures Downsample.BucketCount(m, t, Stride(n, t)) == CeilDiv(m, Stride(n, t))
    ensures CeilDiv(m, Stride(n, t)) <= t
  {
    var stride := Stride(n, t);
    var q := CeilDiv(m, stride);
    if q > t {
      assert (q - 1) * stride >= t * stride by {
        MulMonoLe(t, q - 1, stride);
      }
      assert false;
    }
  }

  /** The external hook's normalised parameters. */
  datatype ExtParams = ExtParams(s: real, n: real, t: int)

  /** `s = isFinite(startIndex) ? startIndex : 0`,
      `n = isFinite(windowSize) && windowSize > 0 ? windowSize : 1`,
      `t = max(3, isFinite(threshold) ? floor(threshold) : 3)`. */
  function NormalizeExternal(startIndex: Num, windowSize: Num, threshold: Num): (p: ExtParams)
    ensures p.t >= 3 && p.n > 0.0
    ensures p.s == (if IsFinite(startIndex) then startIndex.v else 0.0)
    ensures IsFinite(windowSize) && windowSize.v > 0.0 ==> p.n == windowSize.v
    ensures !(IsFinite(windowSize) && windowSize.v > 0.0) ==> p.n == 1.0
    ensures IsFinite(threshold) && threshold.v >= 3.0 ==> p.t == threshold.v.Floor
    ensures !(IsFinite(threshold) && threshold.v >= 3.0) ==> p.t == 3
  {
    var t := Max(3, if IsFinite(threshold) then threshold.v.Floor else 3);
    ExtParams(NormalStart(startIndex), NormalSize(windowSize), t)
  }

  /** `useDownsampleExternal`'s refs and state: the two counters and the
      chart window last applied. */
  datatype ExtHook = ExtHook(reqId: nat, version: nat, agg: Option<ChartWindow>)

  /** The `AGG_REQ` message posted to the downsampling worker. */
  datatype AggReq = AggReq(x: seq<Num>, y: seq<Num>, threshold: int, stride: int,
                           startIndex: real, reqId: nat, version: nat)

  /** A message from the downsampling worker. */
  datatype DsMessage = DsMessage(kind: string, reqId: int, version: int, result: ChartWindow)

  /** The parameter effect. Without a worker nothing happens; otherwise both
      counters advance, an empty window shows four empty series and posts
      nothing, and a non-empty window is posted as copies together with the
      normalised threshold, the derived stride and the fresh token. */
  function OnParams(h: ExtHook, workerReady: bool, win: Option<WindowData>,
                    startIndex: Num, windowSize: Num, threshold: Num): (r: (ExtHook, Option<AggReq>))
    ensures !workerReady ==> r == (h, None)
    ensures workerReady ==> r.0.reqId == h.reqId + 1 && r.0.version == h.version + 1
    ensures workerReady && (win.None? || |win.value.x| == 0 || |win.value.y| == 0) ==>
              r.0.agg == Some(EmptyChart) && r.1.None?
    ensures workerReady && win.Some? && |win.value.x| > 0 && |win.value.y| > 0 ==>
              var p := NormalizeExternal(startIndex, windowSize, threshold);
              && r.0.agg == h.agg
              && r.1 == Some(AggReq(win.value.x, win.value.y, p.t, Stride(p.n, p.t), p.s,
                                    r.0.reqId, r.0.version))
  {
    if !workerReady then (h, None)
    else
      var p := NormalizeExternal(startIndex, windowSize, threshold);
      var reqId := h.reqId + 1;
      var version := h.version + 1;
      var x := if win.Some? then win.value.x else [];
      var y := if win.Some? then win.value.y else [];
      if |x| == 0 || |y| == 0 then
        (ExtHook(reqId, version, Some(EmptyChart)), None)
      else
        var stride := Stride(p.n, p.t);
        (ExtHook(reqId, version, h.agg), Some(AggReq(x, y, p.t, stride, p.s, reqId, version)))
  }

  /** The listener's filter: the right type, the current reqId and version,
      and a non-empty x series. */
  predicate Accepts(h: ExtHook, m: DsMessage) {
    m.kind == "AGG_RES" && m.reqId == h.reqId && m.version == h.version && |m.result.x| > 0
  }

  /** The message listener: applies an accepted result and ignores anything else. */
  function OnMessage(h: ExtHook, m: DsMessage): (h': ExtHook)
    ensures h'.reqId == h.reqId && h'.version == h.version
    ensures h' != h ==> Accepts(h, m)
    ensures Accepts(h, m) ==> h'.agg == Some(m.result)
  {
    if m.kind != "AGG_RES" then h
    else if m.reqId != h.reqId || m.version != h.version then h
    else if |m.result.x| == 0 then h
    else h.(agg := Some(m.result))
  }

  /** Once a newer parameter change has been made (with an empty window or
      not), a response carrying the older token is dropped. */
  lemma StaleResponseDropped(h0: ExtHook, w1: Option<WindowData>, w2: Option<WindowData>,
                             a1: Num, b1: Num, c1: Num, a2: Num, b2: Num, c2: Num, m: DsMessage)
    requires var r1 := OnParams(h0, true, w1, a1, b1, c1);
             m.reqId == r1.0.reqId && m.version == r1.0.version
    ensures var h2 := OnParams(OnParams(h0, true, w1, a1, b1, c1).0, true, w2, a2, b2, c2).0;
            OnMessage(h2, m) == h2
  {
  }

  /** Stale-response rejection: after tokens T1 then T2 are issued, the two
      responses in either arrival order leave the same state, showing T2's
      result when it is a non-empty `AGG_RES`. */
  lemma LatestTokenWins(h0: ExtHook, w1: Option<WindowData>, w2: Option<WindowData>,
                        a1: Num, b1: Num, c1: Num, a2: Num, b2: Num, c2: Num,
                        m1: DsMessage, m2: DsMessage)
    requires var h1 := OnParams(h0, true, w1, a1, b1, c1).0;
             var h2 := OnParams(h1, true, w2, a2, b2, c2).0;
             m1.reqId == h1.reqId && m1.version == h1.version &&
             m2.reqId == h2.reqId && m2.version == h2.version
    ensures var h2 := OnParams(OnParams(h0, true, w1, a1, b1, c1).0, true, w2, a2, b2, c2).0;
            var final := if Accepts(h2, m2) then h2.(agg := Some(m2.result)) else h2;
            OnMessage(OnMessage(h2, m1), m2) == final &&
            OnMessage(OnMessage(h2, m2), m1) == final
  {
  }

  /** What `useDownsample`'s parameter effect does. */
  datatype LocalAction =
    | SetEmpty
    | Dispatch(x: seq<Num>, y: seq<Num>, threshold: int, stride: int, startIndex: int)
    | NoAction

  /** `useDownsample`: `n = max(1, len)` and `t = max(3, threshold)`; a
      missing window shows four empty series; without a worker proxy nothing
      is dispatched; otherwise copies of the window go to the worker. */
  function LocalStep(apiReady: bool, win: Option<WindowData>, threshold: int, startIndex: int): (a: LocalAction)
    ensures a.SetEmpty? <==> win.None?
    ensures a.NoAction? <==> win.Some? && !apiReady
    ensures a.Dispatch? ==>
              && a.x == win.value.x && a.y == win.value.y && a.startIndex == startIndex
              && a.threshold == Max(3, threshold)
              && a.stride == Stride(Max(1, Min(|a.x|, |a.y|)) as real, a.threshold)
              && a.stride >= 2 && a.stride % 2 == 0
              && CeilDiv(Min(|a.x|, |a.y|), a.stride) <= a.threshold
  {
    var len := if win.Some? then Min(|win.value.x|, |win.value.y|) else 0;
    var n := Max(1, len);
    var t := Max(3, threshold);
    if n == 0 || win.None? then SetEmpty
    else
      var stride := Stride(n as real, t);
      StrideBoundsBuckets(n as real, t, len);
      if !apiReady then NoAction
      else Dispatch(win.value.x, win.value.y, t, stride, startIndex)
  }

  /** A local result as it completes: the number of the request it answers
      and the chart window it carries. */
  datatype Completion = Completion(request: nat, result: ChartWindow)

  /** `.then((res) => setAgg(res))`: the completing result replaces what is
      shown; which request it answers is never consulted. */
  function Resolve(shown: Option<ChartWindow>, c: Completion): Option<ChartWindow> {
    Some(c.result)
  }

  /** `useDownsample` has no token check: the results are applied one by one
      in completion order, so the last one to complete is shown, whichever
      request it answers. */
  function ApplyCompletions(current: Option<ChartWindow>, completed: seq<Completion>): (r: Option<ChartWindow>)
    ensures |completed| == 0 ==> r == current
    ensures |completed| > 0 ==> r == Some(completed[|completed| - 1].result)
  {
    if |completed| == 0 then current
    else Resolve(ApplyCompletions(current, completed[..|completed| - 1]), completed[|completed| - 1])
  }

  /** Applying completions in two batches is applying them all at once: the
      state shown after the first batch is all the second batch sees. */
  lemma {:induction false} ApplyCompletionsAppend(current: Option<ChartWindow>, a: seq<Completion>, b: seq<Completion>)
    ensures ApplyCompletions(current, a + b) == ApplyCompletions(ApplyCompletions(current, a), b)
    decreases |b|
  {
    if |b| > 0 {
      assert (a + b)[..|a + b| - 1] == a + b[..|b| - 1];
      ApplyCompletionsAppend(current, a, b[..|b| - 1]);
    } else {
      assert a + b == a;
    }
  }

  /** The two hooks part ways when responses overtake each other. Request A
      is issued, then request B, and B's result arrives first. The local
      hook ends up showing A's stale result; the external hook, given the
      same arrival order, drops A's response and keeps showing B's. */
  lemma OvertakenResultContrast(h0: ExtHook, w1: Option<WindowData>, w2: Option<WindowData>,
                                a1: Num, b1: Num, c1: Num, a2: Num, b2: Num, c2: Num,
                                current: Option<ChartWindow>, resultA: ChartWindow, resultB: ChartWindow)
    requires resultA != resultB && |resultB.x| > 0
    ensures ApplyCompletions(current, [Completion(2, resultB), Completion(1, resultA)]) == Some(resultA)
    ensures var h1 := OnParams(h0, true, w1, a1, b1, c1).0;
            var h2 := OnParams(h1, true, w2, a2, b2, c2).0;
            var mA := DsMessage("AGG_RES", h1.reqId, h1.version, resultA);
            var mB := DsMessage("AGG_RES", h2.reqId, h2.version, resultB);
            OnMessage(OnMessage(h2, mB), mA).agg == Some(resultB)
  {
  }

  /** Both hooks derive the same threshold and stride: when the external
      hook's window size is the window's length and its threshold a whole
      number, it posts the `t` and stride the local hook dispatches. */
  lemma ExternalMatchesLocal(h: ExtHook, win: WindowData, startIndex: Num, threshold: int, localStart: int)
    requires |win.x| > 0 && |win.y| > 0
    ensures var req := OnParams(h, true, Some(win), startIndex, Fin(Min(|win.x|, |win.y|) as real), Fin(threshold as real)).1;
            var a := LocalStep(true, Some(win), threshold, localStart);
            && req.Some? && a.Dispatch?
            && req.value.threshold == a.threshold && req.value.stride == a.stride
  {
    assert (threshold as real).Floor == threshold;
  }

  /** An external request whose window holds no more rows than the
      normalised size asked for is never cut short by the threshold: its
      bucket count is `ceil(m / stride)`, at most `t`. */
  lemma ExternalRequestUncapped(h: ExtHook, win: WindowData, startIndex: Num, windowSize: Num, threshold: Num)
    requires |win.x| > 0 && |win.y| > 0
    requires (|win.x| as real) <= NormalizeExternal(startIndex, windowSize, threshold).n
    ensures var req := OnParams(h, true, Some(win), startIndex, windowSize, threshold).1;
            && req.Some?
            && Downsample.BucketCount(|req.value.x|, req.value.threshold, req.value.stride)
               == CeilDiv(|req.value.x|, req.value.stride) <= req.value.threshold
  {
    var p := NormalizeExternal(startIndex, windowSize, threshold);
    StrideBoundsBuckets(p.n, p.t, |win.x|);
  }

  /** A dispatched local request yields at most `threshold` points. */
  lemma LocalDispatchBounded(apiReady: bool, win: Option<WindowData>, threshold: int, startIndex: int)
    requires win.Some? && |win.value.x| == |win.value.y|
    requires LocalStep(apiReady, win, threshold, startIndex).Dispatch?
    ensures var a := LocalStep(apiReady, win, threshold, startIndex);
            |Downsample.Downsample(a.x, a.y, a.threshold, a.stride, a.startIndex).x| <= a.threshold
  {
  }
}
