/** `useWindowExternal` and `useExternalWindow` (the same logic under two
    names): each parameter change mints a request id, posts `READ_WINDOW` on
    the next animation frame, and applies the matching `CSV_WINDOW` reply,
    retrying once with half the window when the reply is empty. */
module WindowFetch {
  import opened JsMath
  import opened Wrappers
  import opened Windows

  /** Where one effect run stands: its frame is pending, it listens for a
      reply (to the first request, or to the retry), or it is finished. */
  datatype Stage = Scheduled | Listening(awaiting: nat, retried: bool) | Closed

  /** One run of the effect: its normalised start and size, the id minted
      for it, and whether its cleanup has run. */
  datatype Effect = Effect(s: real, n: real, reqId: nat, cancelled: bool, stage: Stage)

  /** The hook: `reqIdRef`, every effect run so far (the last is the current
      one), and the window state. */
  datatype Hook = Hook(counter: nat, effects: seq<Effect>, win: Option<WindowData>)

  /** `{ type: "READ_WINDOW", start, count, reqId }` */
  datatype ReadReq = ReadReq(start: real, count: real, reqId: nat)

  /** A message seen by the listeners. */
  datatype WindowMsg = WindowMsg(kind: string, reqId: int, data: WindowData)

  const Initial := Hook(0, [], None)

  /** The retry's row count, `max(1, floor(n / 2))`: at least one row, and
      fewer than asked the first time. */
  function HalfCount(n: real): (c: real)
    requires n > 1.0
    ensures 1.0 <= c < n
    ensures c <= n / 2.0 || c == 1.0
  {
    Max(1, (n / 2.0).Floor) as real
  }

  /** The cleanup: sets `cancelled`, and a frame that has not fired yet never will. */
  function Cleanup(e: Effect): (e': Effect)
    ensures e'.cancelled && e'.s == e.s && e'.n == e.n && e'.reqId == e.reqId
    ensures e'.stage == (if e.stage.Scheduled? then Closed else e.stage)
  {
    e.(cancelled := true, stage := if e.stage.Scheduled? then Closed else e.stage)
  }

  /** Only the newest run is live; a pending frame belongs to the live run
      and holds the newest id; ids being awaited are distinct and already minted. */
  predicate Inv(h: Hook) {
    && (forall i :: 0 <= i < |h.effects| - 1 ==> h.effects[i].cancelled)
    && (forall i :: 0 <= i < |h.effects| && h.effects[i].stage.Scheduled? ==>
          !h.effects[i].cancelled && h.effects[i].reqId == h.counter)
    && (forall i :: 0 <= i < |h.effects| && h.effects[i].stage.Listening? ==>
          h.effects[i].stage.awaiting <= h.counter)
    && (forall i, j ::
          (0 <= i < |h.effects| && 0 <= j < |h.effects| &&
           h.effects[i].stage.Scheduled? && h.effects[j].stage.Listening?) ==>
          h.effects[j].stage.awaiting < h.counter)
    && (forall i, j ::
          (0 <= i < j < |h.effects| &&
           h.effects[i].stage.Listening? && h.effects[j].stage.Listening?) ==>
          h.effects[i].stage.awaiting != h.effects[j].stage.awaiting)
  }

  lemma InitialInv()
    ensures Inv(Initial)
  {
  }

  /** A parameter change: the previous run's cleanup, then a new run with a
      fresh id and a pending frame. */
  function Rerun(h: Hook, startIndex: Num, windowSize: Num): (h': Hook)
    requires Inv(h)
    ensures Inv(h')
    ensures h'.counter == h.counter + 1 && h'.win == h.win
    ensures |h'.effects| == |h.effects| + 1
    ensures h'.effects[|h.effects|] ==
              Effect(NormalStart(startIndex), NormalSize(windowSize), h'.counter, false, Scheduled)
    ensures |h.effects| > 0 ==> h'.effects[|h.effects| - 1] == Cleanup(h.effects[|h.effects| - 1])
    ensures forall i :: 0 <= i < |h.effects| - 1 ==> h'.effects[i] == h.effects[i]
  {
    var prior := if |h.effects| == 0 then [] else h.effects[..|h.effects| - 1] + [Cleanup(h.effects[|h.effects| - 1])];
    var e := Effect(NormalStart(startIndex), NormalSize(windowSize), h.counter + 1, false, Scheduled);
    Hook(h.counter + 1, prior + [e], h.win)
  }

  /** Unmounting runs the current run's cleanup. */
  function Unmount(h: Hook): (h': Hook)
    requires Inv(h)
    ensures Inv(h')
    ensures h'.counter == h.counter && h'.win == h.win && |h'.effects| == |h.effects|
    ensures forall i :: 0 <= i < |h'.effects| ==> h'.effects[i].cancelled
    ensures forall i :: 0 <= i < |h'.effects| ==> !h'.effects[i].stage.Scheduled?
  {
    if |h.effects| == 0 then h
    else h.(effects := h.effects[|h.effects| - 1 := Cleanup(h.effects[|h.effects| - 1])])
  }

  /** Run `i`'s animation frame fires: it starts listening and posts its
      request. A cancelled frame never fires. */
  function FireFrame(h: Hook, i: nat): (r: (Hook, Option<ReadReq>))
    requires Inv(h) && i < |h.effects|
    ensures Inv(r.0) && r.0.counter == h.counter && r.0.win == h.win
    ensures !h.effects[i].stage.Scheduled? ==> r == (h, None)
    ensures h.effects[i].stage.Scheduled? ==>
              var e := h.effects[i];
              && r.1 == Some(ReadReq(e.s, e.n, e.reqId))
              && r.0.effects == h.effects[i := e.(stage := Listening(e.reqId, false))]
  {
    var e := h.effects[i];
    if !e.stage.Scheduled? then (h, None)
    else (h.(effects := h.effects[i := e.(stage := Listening(e.reqId, false))]), Some(ReadReq(e.s, e.n, e.reqId)))
  }

  /** The run whose listener is waiting for `id`, if any. */
  function Listener(effects: seq<Effect>, id: int): (r: Option<nat>)
    ensures r.Some? ==> r.value < |effects| && effects[r.value].stage.Listening? &&
                        effects[r.value].stage.awaiting == id
    ensures r.None? ==> forall i :: 0 <= i < |effects| && effects[i].stage.Listening? ==>
                          effects[i].stage.awaiting != id
  {
    if |effects| == 0 then None
    else
      var last := effects[|effects| - 1];
      if last.stage.Listening? && last.stage.awaiting == id then Some(|effects| - 1)
      else Listener(effects[..|effects| - 1], id)
  }

  /** A reply reaches the listeners. Only a `CSV_WINDOW` carrying an id some
      run awaits is taken, and that run's listener is removed. A cancelled
      run drops it. Otherwise an empty reply to a first request for more than
      one row is retried once with half the rows and a fresh id; any other
      reply, the retry's included, becomes the window as it is. */
  function Deliver(h: Hook, m: WindowMsg): (r: (Hook, Option<ReadReq>))
    requires Inv(h)
    ensures Inv(r.0) && |r.0.effects| == |h.effects|
    ensures m.kind != "CSV_WINDOW" || Listener(h.effects, m.reqId).None? ==> r == (h, None)
    ensures r.0.win != h.win || r.1.Some? ==>
              |h.effects| > 0 && Listener(h.effects, m.reqId) == Some(|h.effects| - 1) &&
              !h.effects[|h.effects| - 1].cancelled
    ensures r.1.Some? ==>
              var e := h.effects[|h.effects| - 1];
              && !e.stage.retried && e.n > 1.0 && |m.data.x| == 0 && |m.data.y| == 0
              && r.1 == Some(ReadReq(e.s, HalfCount(e.n), h.counter + 1))
              && r.0.counter == h.counter + 1 && r.0.win == h.win
              && r.0.effects[|h.effects| - 1].stage == Listening(h.counter + 1, true)
    ensures r.0.win != h.win ==> r.0.win == Some(m.data)
  {
    if m.kind != "CSV_WINDOW" then (h, None)
    else match Listener(h.effects, m.reqId)
      case None => (h, None)
      case Some(i) =>
        var e := h.effects[i];
        var closed := h.effects[i := e.(stage := Closed)];
        if e.cancelled then (h.(effects := closed), None)
        else if !e.stage.retried && |m.data.x| == 0 && |m.data.y| == 0 && e.n > 1.0 then
          var id2 := h.counter + 1;
          (Hook(id2, h.effects[i := e.(stage := Listening(id2, true))], h.win),
           Some(ReadReq(e.s, HalfCount(e.n), id2)))
        else (h.(effects := closed, win := Some(m.data)), None)
  }

  /** A reply to the live run's request is shown as received unless it is
      the empty first reply to a request for more than one row: a non-empty
      reply, an empty one to a one-row request, and any reply to the retry. */
  lemma ReplyApplied(h: Hook, m: WindowMsg)
    requires Inv(h) && |h.effects| > 0 && m.kind == "CSV_WINDOW" && m.reqId >= 0
    requires var e := h.effects[|h.effects| - 1];
             !e.cancelled && e.stage.Listening? && e.stage.awaiting == m.reqId
    requires var e := h.effects[|h.effects| - 1];
             e.stage.retried || e.n <= 1.0 || |m.data.x| > 0 || |m.data.y| > 0
    ensures Deliver(h, m).0.win == Some(m.data) && Deliver(h, m).1.None?
  {
    var i := Listener(h.effects, m.reqId).value;
    assert i == |h.effects| - 1;
  }

  /** An empty reply to the live run's first request for more than one row
      is retried once, from the same start with `max(1, floor(n / 2))` rows;
      the reply to the retry is shown even when it is empty too. */
  lemma EmptyReplyRetriedOnce(h: Hook, m: WindowMsg, m2: WindowMsg)
    requires Inv(h) && |h.effects| > 0 && m.kind == "CSV_WINDOW" && m.reqId >= 0
    requires var e := h.effects[|h.effects| - 1];
             !e.cancelled && e.stage == Listening(m.reqId as nat, false) && e.n > 1.0
    requires m.data == WindowData([], [])
    requires m2 == WindowMsg("CSV_WINDOW", h.counter + 1, WindowData([], []))
    ensures var e := h.effects[|h.effects| - 1];
            var (h1, post) := Deliver(h, m);
            && post == Some(ReadReq(e.s, HalfCount(e.n), h.counter + 1))
            && h1.win == h.win
            && Deliver(h1, m2).0.win == Some(WindowData([], []))
            && Deliver(h1, m2).1.None?
  {
    var i := Listener(h.effects, m.reqId).value;
    assert i == |h.effects| - 1;
    var h1 := Deliver(h, m).0;
    var j := Listener(h1.effects, m2.reqId).value;
    assert j == |h.effects| - 1;
  }

  /** After a parameter change, no reply to an earlier request can change
      the window: every id minted before belongs to a cancelled run. */
  lemma RerunSupersedes(h: Hook, startIndex: Num, windowSize: Num, m: WindowMsg)
    requires Inv(h) && m.reqId <= h.counter
    ensures var h1 := Rerun(h, startIndex, windowSize);
            Deliver(h1, m).0.win == h.win && Deliver(h1, m).1.None?
  {
  }

  /** Once unmounted, no reply changes the window or triggers a request. */
  lemma UnmountSilences(h: Hook, m: WindowMsg)
    requires Inv(h)
    ensures Deliver(Unmount(h), m).0.win == h.win && Deliver(Unmount(h), m).1.None?
  {
  }
}
