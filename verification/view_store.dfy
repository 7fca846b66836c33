/** The view store (`useStore`): the loaded columns, the window `S`/`N`,
    playback settings and load status, with the setters that clamp. */
module ViewStore {
  import opened JsMath
  import opened Wrappers

  datatype State = State(
    x: Option<seq<Num>>, y: Option<seq<Num>>,
    S: int, N: int, P: int, T: int,
    isPlaying: bool, wrap: bool, downsampleRatio: int,
    useExternalStorage: bool, totalRows: int, csvProcessMs: real,
    csvProcessing: bool, csvError: Option<string>, dataVersion: nat)

  /** The store's initial values. */
  const Initial := State(None, None, 0, 5_000, 10, 500, false, false, 2, false, 0, 0.0, false, None, 0)

  /** The default window size `resetControls` falls back to. */
  const DefaultN := 5_000

  /** Rows in the current dataset: the worker's count in external mode,
      otherwise the length of the local x column (0 when there is none). */
  function Total(st: State): int {
    if st.useExternalStorage then st.totalRows
    else if st.x.Some? then |st.x.value| else 0
  }

  /** `setN`: the size is clamped to `[1, total]` (only to at least 1 when
      there is no data), and `S` is pulled back so the window ends inside the
      data; nothing else changes. */
  function SetN(st: State, n: int): (st': State)
    ensures st' == st.(N := st'.N, S := st'.S)
    ensures st'.N >= 1
    ensures Total(st) > 0 ==> st'.N == Max(1, Min(n, Total(st))) && st'.S == Min(st.S, Total(st) - st'.N)
    ensures Total(st) > 0 ==> st'.N <= Total(st) && st'.S + st'.N <= Total(st)
    ensures Total(st) > 0 && 1 <= n <= Total(st) ==> st'.N == n
    ensures Total(st) <= 0 ==> st'.N == Max(1, n) && st'.S == Min(st.S, 0)
    ensures st'.S <= st.S && (st.S + st'.N <= Total(st) ==> st'.S == st.S)
    ensures st.S >= 0 && Total(st) > 0 ==> st'.S >= 0
  {
    var total := Total(st);
    var clamped := Max(1, Min(n, if total > 0 then total else n));
    var maxStart := Max(0, total - clamped);
    st.(N := clamped, S := Min(st.S, maxStart))
  }

  /** Setting the same size twice is the same as once. */
  lemma SetNIdempotent(st: State, n: int)
    ensures SetN(SetN(st, n), n) == SetN(st, n)
  {
  }

  /** `jumpToEnd`: `S = max(0, total - N)`, so a window that fits ends exactly
      on the last row. */
  function JumpToEnd(st: State): (st': State)
    ensures st' == st.(S := st'.S)
    ensures st'.S >= 0 && st'.S + st.N >= Total(st)
    ensures 0 <= st.N <= Total(st) ==> st'.S + st.N == Total(st)
    ensures Total(st) <= st.N ==> st'.S == 0
  {
    st.(S := Max(0, Total(st) - st.N))
  }

  /** `setDownsampleRatio`: `max(1, floor(v))`. */
  function SetDownsampleRatio(st: State, v: real): (st': State)
    ensures st' == st.(downsampleRatio := st'.downsampleRatio)
    ensures st'.downsampleRatio >= 1
    ensures v >= 1.0 ==> st'.downsampleRatio as real <= v < st'.downsampleRatio as real + 1.0
    ensures v < 1.0 ==> st'.downsampleRatio == 1
  {
    st.(downsampleRatio := Max(1, v.Floor))
  }

  /** `setTotalRows`: negative counts become 0. */
  function SetTotalRows(st: State, n: int): (st': State)
    ensures st' == st.(totalRows := st'.totalRows)
    ensures st'.totalRows >= 0 && (n >= 0 ==> st'.totalRows == n)
  {
    st.(totalRows := Max(0, n))
  }

  /** `setCsvProcessMs`: negative durations become 0. */
  function SetCsvProcessMs(st: State, ms: real): (st': State)
    ensures st' == st.(csvProcessMs := st'.csvProcessMs)
    ensures st'.csvProcessMs >= 0.0 && (ms >= 0.0 ==> st'.csvProcessMs == ms)
  {
    st.(csvProcessMs := MaxR(0.0, ms))
  }

  /** `bumpDataVersion`: a new dataset gets the next version, one above the
      last, so it is never one seen before. */
  function BumpDataVersion(st: State): (st': State)
    ensures st' == st.(dataVersion := st'.dataVersion)
    ensures st'.dataVersion == st.dataVersion + 1
  {
    st.(dataVersion := st.dataVersion + 1)
  }

  /** `reset`: back to the first row; nothing else changes. */
  function Reset(st: State): (st': State)
    ensures st' == st.(S := 0)
  {
    st.(S := 0)
  }

  /** `resetControls`: playback and view settings back to their defaults,
      external mode off and `totalRows` 0, with `N` the default clamped to the
      row count seen before the reset. The columns, load status and data
      version are kept. */
  function ResetControls(st: State): (st': State)
    ensures st'.x == st.x && st'.y == st.y && st'.csvProcessing == st.csvProcessing
    ensures st'.csvError == st.csvError && st'.dataVersion == st.dataVersion
    ensures st'.S == 0 && st'.P == Initial.P && st'.T == Initial.T && !st'.isPlaying && !st'.wrap
    ensures st'.downsampleRatio == Initial.downsampleRatio && !st'.useExternalStorage
    ensures st'.totalRows == 0 && st'.csvProcessMs == 0.0
    ensures 1 <= st'.N <= DefaultN
    ensures Total(st) > 0 ==> st'.N == Min(DefaultN, Total(st))
    ensures Total(st) <= 0 ==> st'.N == DefaultN
  {
    var total := Total(st);
    var clampedN := Max(1, Min(DefaultN, if total > 0 then total else DefaultN));
    st.(S := 0, N := clampedN, P := 10, T := 500, isPlaying := false, wrap := false,
        downsampleRatio := 2, useExternalStorage := false, totalRows := 0, csvProcessMs := 0.0)
  }

  /** In local mode `resetControls` leaves the row count alone, so doing it
      twice is the same as once. */
  lemma ResetControlsLocalIdempotent(st: State)
    requires !st.useExternalStorage
    ensures ResetControls(ResetControls(st)) == ResetControls(st)
  {
  }

  /** The store's own examples: 100 local rows with `S = 90`, then `setN(20)`
      gives `N = 20, S = 80`; 1234 external rows, `setN(200)`, then
      `jumpToEnd` gives `S = 1034`. */
  lemma StoreExamples(cols: seq<Num>)
    requires |cols| == 100
    ensures var st := ResetControls(Initial).(x := Some(cols), y := Some(cols), S := 90);
            SetN(st, 20).N == 20 && SetN(st, 20).S == 80
    ensures var st := SetTotalRows(ResetControls(Initial).(useExternalStorage := true), 1234);
            JumpToEnd(SetN(st, 200)).S == 1034
  {
  }
}

/** `usePlayback`: on each animation frame, once `max(1, T)` ms have passed,
    `S` advances by `max(1, P)`, wrapping or stopping at the last start. */
module Playback {
  import opened JsMath
  import opened ViewStore

  /** The last start that keeps a full window: `max(0, length - N)`. */
  function MaxStart(st: State): (m: int)
    ensures m >= 0 && m >= Total(st) - st.N
  {
    Max(0, Total(st) - st.N)
  }

  /** The loop runs only while playing over a non-empty dataset. */
  predicate Starts(st: State) {
    st.isPlaying && Total(st) != 0
  }

  /** One advance. With `wrap`, `S` moves `max(1, P)` on modulo
      `maxStart + 1` (JavaScript `%`); without, it moves on but not past
      `maxStart`, and reaching `maxStart` stops playback. */
  function Advance(st: State): (st': State)
    ensures st' == st.(S := st'.S, isPlaying := st'.isPlaying)
    ensures st.wrap ==> st'.isPlaying == st.isPlaying
    ensures st.wrap && st.S + Max(1, st.P) >= 0 ==> 0 <= st'.S <= MaxStart(st)
    ensures !st.wrap ==> st'.S == Min(st.S + Max(1, st.P), MaxStart(st))
    ensures !st.wrap ==> (st'.isPlaying <==> st.isPlaying && st'.S < MaxStart(st))
  {
    var maxStart := MaxStart(st);
    var step := Max(1, st.P);
    if st.wrap then st.(S := JsRem(st.S + step, maxStart + 1))
    else
      var next := Min(st.S + step, maxStart);
      if next >= maxStart then st.(S := next, isPlaying := false)
      else st.(S := next)
  }

  /** One animation frame at time `now`, the last update having been at
      `last`: the new state, the new last-update time, and whether another
      frame is requested. Before `max(1, T)` ms nothing changes. After that
      the state advances once, and the time is recorded unless a
      non-wrapping step reached `maxStart`, which stops playback and returns
      early. The step is taken from the stored settings even when playback
      was stopped in the meantime. */
  function Frame(st: State, last: real, now: real): (r: (State, real, bool))
    ensures now - last < Max(1, st.T) as real ==> r == (st, last, st.isPlaying)
    ensures now - last >= Max(1, st.T) as real ==> r.0 == Advance(st)
    ensures now - last >= Max(1, st.T) as real ==>
              (r.1 == now <==> st.wrap || st.S + Max(1, st.P) < MaxStart(st))
    ensures r.2 == r.0.isPlaying
    ensures r.1 != last ==> r.1 == now && r.0 == Advance(st)
  {
    if now - last >= Max(1, st.T) as real then
      var st' := Advance(st);
      var maxStart := MaxStart(st);
      if !st.wrap && Min(st.S + Max(1, st.P), maxStart) >= maxStart then (st', last, false)
      else (st', now, st'.isPlaying)
    else (st, last, st.isPlaying)
  }

  /** A frame that fires after playback was stopped short of the end still
      moves `S` on and records the time, but requests no further frame. */
  lemma StoppedFrameStillSteps(st: State, last: real, now: real)
    requires !st.isPlaying && !st.wrap && st.S + Max(1, st.P) < MaxStart(st)
    requires now - last >= Max(1, st.T) as real
    ensures var r := Frame(st, last, now);
            r.0.S == st.S + Max(1, st.P) && r.1 == now && !r.2
  {
  }

  /** `jumpToEnd` moves to the last start playback can reach, so a
      non-wrapping advance from there stays put and stops playback. */
  lemma JumpToEndIsLastStart(st: State)
    ensures JumpToEnd(st).S == MaxStart(st) && MaxStart(JumpToEnd(st)) == MaxStart(st)
    ensures !st.wrap ==> Advance(JumpToEnd(st)).S == MaxStart(st) && !Advance(JumpToEnd(st)).isPlaying
  {
  }

  /** `k` frames that each come late enough to advance, while playing. */
  function Advances(st: State, k: nat): (st': State)
    ensures st'.N == st.N && st'.wrap == st.wrap && Total(st') == Total(st)
    decreases k
  {
    if k == 0 || !st.isPlaying then st else Advances(Advance(st), k - 1)
  }

  /** Without `wrap`, playback stops after at most `max(1, maxStart - S)`
      advances, on the last start. */
  lemma {:induction false} StopsAtEnd(st: State, k: nat)
    requires !st.wrap && st.isPlaying && k >= Max(1, MaxStart(st) - st.S)
    ensures !Advances(st, k).isPlaying
    ensures st.S <= MaxStart(st) ==> Advances(st, k).S == MaxStart(st)
    decreases k
  {
    var st1 := Advance(st);
    assert MaxStart(st1) == MaxStart(st);
    if st1.isPlaying {
      assert st1.S == st.S + Max(1, st.P);
      StopsAtEnd(st1, k - 1);
    }
  }

  /** With `wrap`, playback never stops on its own, and from a start in
      range `S` stays in `[0, maxStart]`. */
  lemma {:induction false} WrapKeepsPlaying(st: State, k: nat)
    requires st.wrap && st.isPlaying && 0 <= st.S
    ensures Advances(st, k).isPlaying
    ensures 0 <= Advances(st, k).S <= MaxStart(st) || (k == 0 && Advances(st, k) == st)
    decreases k
  {
    if k > 0 {
      var st1 := Advance(st);
      assert MaxStart(st1) == MaxStart(st);
      WrapKeepsPlaying(st1, k - 1);
    }
  }
}
