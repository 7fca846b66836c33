/** The CSV worker's column storage: two parallel lists of fixed-size
    `Float64Array` chunks and the number of committed rows. Row `j` lives in
    chunk `floor(j / CHUNK_SIZE)` at offset `j % CHUNK_SIZE`. */
module ChunkStore {
  import opened JsMath
  import opened Wrappers

  /** Rows per chunk. */
  const CHUNK_SIZE: nat := 1_000_000

  /** A freshly allocated chunk: typed arrays start out zero-filled. */
  function ZeroChunk(): (c: seq<real>)
    ensures |c| == CHUNK_SIZE && forall k :: 0 <= k < |c| ==> c[k] == 0.0
  {
    seq(CHUNK_SIZE, k => 0.0)
  }

  datatype Store = Store(xChunks: seq<seq<real>>, yChunks: seq<seq<real>>, totalRows: nat)

  /** The state `resetStorage` leaves behind. */
  const Empty := Store([], [], 0)

  function Capacity(st: Store): nat {
    |st.xChunks| * CHUNK_SIZE
  }

  /** The two chunk lists run in parallel, every chunk is full size, and the
      committed rows fit in the allocated chunks. */
  predicate Valid(st: Store) {
    && |st.xChunks| == |st.yChunks|
    && (forall k :: 0 <= k < |st.xChunks| ==> |st.xChunks[k]| == CHUNK_SIZE)
    && (forall k :: 0 <= k < |st.yChunks| ==> |st.yChunks[k]| == CHUNK_SIZE)
    && st.totalRows <= Capacity(st)
  }

  /** Where row `j` lives: its chunk exists and its offset is inside it. */
  lemma Locate(j: nat, chunks: nat)
    requires j < chunks * CHUNK_SIZE
    ensures j / CHUNK_SIZE < chunks && j % CHUNK_SIZE < CHUNK_SIZE
    ensures j == (j / CHUNK_SIZE) * CHUNK_SIZE + j % CHUNK_SIZE
  {
  }

  /** The x value stored for row `j`. */
  function XAt(st: Store, j: nat): real
    requires Valid(st) && j < Capacity(st)
  {
    Locate(j, |st.xChunks|);
    st.xChunks[j / CHUNK_SIZE][j % CHUNK_SIZE]
  }

  /** The y value stored for row `j`. */
  function YAt(st: Store, j: nat): real
    requires Valid(st) && j < Capacity(st)
  {
    Locate(j, |st.xChunks|);
    st.yChunks[j / CHUNK_SIZE][j % CHUNK_SIZE]
  }

  /** Appends one zero chunk to each list. */
  function Grow(st: Store): (r: Store)
    requires Valid(st)
    ensures Valid(r) && Capacity(r) == Capacity(st) + CHUNK_SIZE && r.totalRows == st.totalRows
    ensures forall j :: 0 <= j < Capacity(st) ==> XAt(r, j) == XAt(st, j) && YAt(r, j) == YAt(st, j)
    ensures forall j :: Capacity(st) <= j < Capacity(r) ==> XAt(r, j) == 0.0 && YAt(r, j) == 0.0
  {
    GrowZero(st);
    Store(st.xChunks + [ZeroChunk()], st.yChunks + [ZeroChunk()], st.totalRows)
  }

  lemma GrowZero(st: Store)
    requires Valid(st)
    ensures var r := Store(st.xChunks + [ZeroChunk()], st.yChunks + [ZeroChunk()], st.totalRows);
            Valid(r) &&
            forall j :: Capacity(st) <= j < Capacity(r) ==> XAt(r, j) == 0.0 && YAt(r, j) == 0.0
  {
    var r := Store(st.xChunks + [ZeroChunk()], st.yChunks + [ZeroChunk()], st.totalRows);
    forall j | Capacity(st) <= j < Capacity(r)
      ensures XAt(r, j) == 0.0 && YAt(r, j) == 0.0
    {
      Locate(j, |r.xChunks|);
      assert j / CHUNK_SIZE == |st.xChunks|;
    }
  }

  /** `ensureCapacity`: allocates chunks until row `next` has a slot. Chunks
      are only ever added, exactly as many as row `next` needs, and new slots
      read as zero. */
  function EnsureCapacity(st: Store, next: nat): (r: Store)
    requires Valid(st)
    ensures Valid(r) && next < Capacity(r) && r.totalRows == st.totalRows
    ensures |r.xChunks| == Max(|st.xChunks|, next / CHUNK_SIZE + 1)
    ensures forall j :: 0 <= j < Capacity(st) ==> XAt(r, j) == XAt(st, j) && YAt(r, j) == YAt(st, j)
    ensures forall j :: Capacity(st) <= j < Capacity(r) ==> XAt(r, j) == 0.0 && YAt(r, j) == 0.0
    decreases Max(0, next + 1 - Capacity(st))
  {
    if next < Capacity(st) then
      Locate(next, |st.xChunks|);
      st
    else
      var g := Grow(st);
      var r := EnsureCapacity(g, next);
      assert forall j :: Capacity(st) <= j < Capacity(g) ==> XAt(r, j) == XAt(g, j);
      r
  }

  /** `writeRow`: makes room for row `i`, then stores `(x, y)` in its slot and
      nothing else. */
  function WriteRow(st: Store, i: nat, x: real, y: real): (r: Store)
    requires Valid(st)
    ensures Valid(r) && i < Capacity(r) && r.totalRows == st.totalRows
    ensures |r.xChunks| == Max(|st.xChunks|, i / CHUNK_SIZE + 1)
    ensures XAt(r, i) == x && YAt(r, i) == y
    ensures forall j :: 0 <= j < Capacity(st) && j != i ==> XAt(r, j) == XAt(st, j) && YAt(r, j) == YAt(st, j)
    ensures forall j :: Capacity(st) <= j < Capacity(r) && j != i ==> XAt(r, j) == 0.0 && YAt(r, j) == 0.0
  {
    var g := EnsureCapacity(st, i);
    Locate(i, |g.xChunks|);
    var c := i / CHUNK_SIZE;
    var o := i % CHUNK_SIZE;
    var r := Store(g.xChunks[c := g.xChunks[c][o := x]], g.yChunks[c := g.yChunks[c][o := y]], g.totalRows);
    WriteCellOnly(g, r, i, x, y);
    r
  }

  lemma WriteCellOnly(g: Store, r: Store, i: nat, x: real, y: real)
    requires Valid(g) && i < Capacity(g)
    requires var c := i / CHUNK_SIZE;
             var o := i % CHUNK_SIZE;
             c < |g.xChunks| && o < CHUNK_SIZE &&
             r == Store(g.xChunks[c := g.xChunks[c][o := x]], g.yChunks[c := g.yChunks[c][o := y]], g.totalRows)
    ensures Valid(r) && Capacity(r) == Capacity(g)
    ensures XAt(r, i) == x && YAt(r, i) == y
    ensures forall j :: 0 <= j < Capacity(g) && j != i ==> XAt(r, j) == XAt(g, j) && YAt(r, j) == YAt(g, j)
  {
    forall j | 0 <= j < Capacity(g) && j != i
      ensures XAt(r, j) == XAt(g, j) && YAt(r, j) == YAt(g, j)
    {
      Locate(j, |g.xChunks|);
      Locate(i, |g.xChunks|);
    }
  }

  /** The two columns a `READ_WINDOW` reply carries. */
  datatype Columns = Columns(x: seq<real>, y: seq<real>)

  /** `end = min(totalRows, start + count)` and `len = max(0, end - start)`. */
  function WindowLen(st: Store, start: int, count: int): nat {
    Max(0, Min(st.totalRows, start + count) - start)
  }

  /** The `READ_WINDOW` loop: rows `start .. start + len - 1`, in order. A
      negative start with a non-empty range indexes a chunk that does not
      exist and the handler throws: `None`. */
  function ReadWindow(st: Store, start: int, count: int): (r: Option<Columns>)
    requires Valid(st)
    ensures r.None? <==> start < 0 && WindowLen(st, start, count) > 0
    ensures r.Some? ==>
              var len := WindowLen(st, start, count);
              && |r.value.x| == len && |r.value.y| == len
              && (len > 0 ==> 0 <= start && start + len <= st.totalRows)
              && (forall k :: 0 <= k < len ==>
                    r.value.x[k] == XAt(st, start + k) && r.value.y[k] == YAt(st, start + k))
  {
    var len := WindowLen(st, start, count);
    if len == 0 then Some(Columns([], []))
    else if start < 0 then None
    else
      Some(Columns(seq(len, k requires 0 <= k < len => XAt(st, start + k)),
                   seq(len, k requires 0 <= k < len => YAt(st, start + k))))
  }
}
