/**
 * The batching state machine of a batched column processor, as pure
 * functions over a snapshot of its state, and what they guarantee.
 *
 * A snapshot holds the processor's two counters, the rows its column store
 * holds for the batch being accumulated, and a trace of every call the
 * processor made to its consumer hook. Each hook call records the row count
 * it was given and the rows the store held while the hook ran, which is
 * what the consumer can read at that moment.
 */
module Batching {
  import opened Splitter

  const MIN_INT: int := -0x8000_0000
  const MAX_INT: int := 0x7fff_ffff

  /** A Java `int`. */
  type Int32 = x: int | MIN_INT <= x <= MAX_INT

  /** Java's `x++` on an `int`: past the maximum it wraps to the minimum. */
  function Inc32(x: Int32): (r: Int32)
    ensures r > x <==> x < MAX_INT
    ensures x < MAX_INT ==> r == x + 1
  {
    if x == MAX_INT then MIN_INT else x + 1
  }

  /** The `int` that `k` increments starting from 0 leave behind (two's complement). */
  function ToInt32(k: int): Int32
  {
    (k + 0x8000_0000) % 0x1_0000_0000 - 0x8000_0000
  }

  lemma Inc32ToInt32(k: int)
    ensures Inc32(ToInt32(k)) == ToInt32(k + 1)
  {
  }

  /**
   * One call of the consumer hook: the count it was given, and what the
   * consumer could observe while it ran: the value `getBatchesProcessed`
   * returned and the rows the store held.
   */
  datatype HookCall = HookCall(rowsInThisBatch: Int32, batchesProcessed: Int32, rows: seq<Row>)

  /**
   * The processor's state: the rows counted since the last flush, the
   * number of flushes since the stream started, the rows held by the
   * column store, and every hook call made so far (oldest first).
   */
  datatype Snapshot = Snapshot(batchCount: Int32, batchesProcessed: Int32, pending: seq<Row>, calls: seq<HookCall>)

  /**
   * The number of rows after which the processor flushes. The flush test is
   * `batchCount >= rowsPerBatch` right after the count is incremented, so a
   * non-positive `rowsPerBatch` flushes after every row, as 1 would.
   */
  function FlushSize(rowsPerBatch: Int32): (e: int)
    ensures 1 <= e <= MAX_INT
    ensures rowsPerBatch >= 1 ==> e == rowsPerBatch
  {
    if rowsPerBatch >= 1 then rowsPerBatch else 1
  }

  /** A hook call reports between 1 and a full batch of rows, exactly the rows the store held. */
  ghost predicate WellFormedCall(rowsPerBatch: Int32, c: HookCall)
  {
    1 <= c.rowsInThisBatch <= FlushSize(rowsPerBatch) && c.rowsInThisBatch == |c.rows|
  }

  /**
   * The invariant that holds between calls: fewer rows than a full batch are
   * pending, the store holds exactly the counted rows, and every hook call so
   * far was well formed.
   */
  ghost predicate Consistent(rowsPerBatch: Int32, s: Snapshot)
  {
    && 0 <= s.batchCount < FlushSize(rowsPerBatch)
    && |s.pending| == s.batchCount
    && forall i | 0 <= i < |s.calls| :: WellFormedCall(rowsPerBatch, s.calls[i])
  }

  /** `processStarted`: reset the store, zero both counters. */
  function Started(s: Snapshot): (r: Snapshot)
    ensures r.batchCount == 0 && r.batchesProcessed == 0 && r.pending == []
    ensures r.calls == s.calls
  {
    s.(batchCount := 0, batchesProcessed := 0, pending := [])
  }

  /**
   * `rowProcessed`: add the row to the store and count it; once the count
   * reaches `rowsPerBatch`, call the hook with the count while the store
   * still holds the batch and the flush counter still has its old value,
   * then zero the count, clear the store and count the flush.
   *
   * The trace grows by at most one call. A call is made exactly when the
   * flush counter moves; that call saw the rows held before plus this row,
   * and the counter before the increment; afterwards nothing is pending.
   * Without a call, the row is simply added to the pending rows.
   */
  function RowProcessed(rowsPerBatch: Int32, s: Snapshot, row: Row): (r: Snapshot)
    ensures |s.calls| <= |r.calls| <= |s.calls| + 1 && r.calls[..|s.calls|] == s.calls
    ensures |r.calls| > |s.calls| <==> r.batchesProcessed != s.batchesProcessed
    ensures |r.calls| > |s.calls| ==>
      && r.calls[|s.calls|].rows == s.pending + [row]
      && r.calls[|s.calls|].batchesProcessed == s.batchesProcessed
      && r.pending == [] && r.batchCount == 0
    ensures |r.calls| == |s.calls| ==> r.pending == s.pending + [row]
  {
    var count := Inc32(s.batchCount);
    var held := s.pending + [row];
    if count >= rowsPerBatch then
      Snapshot(0, Inc32(s.batchesProcessed), [], s.calls + [HookCall(count, s.batchesProcessed, held)])
    else
      s.(batchCount := count, pending := held)
  }

  /** `processEnded`: call the hook with the count if rows are pending; change nothing else. */
  function Ended(s: Snapshot): (r: Snapshot)
    ensures r.batchCount == s.batchCount && r.batchesProcessed == s.batchesProcessed && r.pending == s.pending
    ensures |r.calls| == |s.calls| + (if s.batchCount > 0 then 1 else 0) && r.calls[..|s.calls|] == s.calls
  {
    if s.batchCount > 0 then s.(calls := s.calls + [HookCall(s.batchCount, s.batchesProcessed, s.pending)]) else s
  }

  /** `rowProcessed` applied to each row in turn: the trace only grows, by at most one call per row. */
  function Feed(rowsPerBatch: Int32, s: Snapshot, rows: seq<Row>): (r: Snapshot)
    ensures |s.calls| <= |r.calls| <= |s.calls| + |rows| && r.calls[..|s.calls|] == s.calls
    decreases |rows|
  {
    if rows == [] then s
    else RowProcessed(rowsPerBatch, Feed(rowsPerBatch, s, rows[..|rows| - 1]), rows[|rows| - 1])
  }

  /** A whole stream: start, every row in order, end. The earlier trace is kept; at most one call per row, plus one. */
  function Stream(rowsPerBatch: Int32, s: Snapshot, rows: seq<Row>): (r: Snapshot)
    ensures |s.calls| <= |r.calls| <= |s.calls| + |rows| + 1 && r.calls[..|s.calls|] == s.calls
  {
    Ended(Feed(rowsPerBatch, Started(s), rows))
  }

  /** The rows handed to the hook by a run of calls, in call order. */
  function Flatten(cs: seq<HookCall>): seq<Row>
  {
    if cs == [] then [] else Flatten(cs[..|cs| - 1]) + cs[|cs| - 1].rows
  }

  /** The sum of the counts reported by a run of calls. */
  function Reported(cs: seq<HookCall>): int
  {
    if cs == [] then 0 else Reported(cs[..|cs| - 1]) + cs[|cs| - 1].rowsInThisBatch
  }

  // ---------------------------------------------------------------------------
  // Arithmetic helpers

  lemma DivModUnique(n: int, e: int, q: int, r: int)
    requires 1 <= e && 0 <= r < e && n == q * e + r
    ensures n / e == q && n % e == r
  {
    var q', r' := n / e, n % e;
    assert n == q' * e + r';
    if q' < q {
      assert (q - q') * e >= e by { MulMonotone(q - q', 1, e); }
      assert false;
    } else if q < q' {
      assert (q' - q) * e >= e by { MulMonotone(q' - q, 1, e); }
      assert false;
    }
  }

  lemma MulMonotone(a: int, b: int, e: int)
    requires a >= b && e >= 0
    ensures a * e >= b * e
  {
  }

  // ---------------------------------------------------------------------------
  // Lemmas about runs of hook calls

  lemma {:induction false} FlattenAppend(cs: seq<HookCall>, c: HookCall)
    ensures Flatten(cs + [c]) == Flatten(cs) + c.rows
  {
    assert (cs + [c])[..|cs|] == cs;
  }

  /** When every call reports the rows it was shown, the counts add up to the rows shown. */
  lemma {:induction false} ReportedIsFlattenLength(cs: seq<HookCall>)
    requires forall i | 0 <= i < |cs| :: cs[i].rowsInThisBatch == |cs[i].rows|
    ensures Reported(cs) == |Flatten(cs)|
  {
    if cs != [] {
      ReportedIsFlattenLength(cs[..|cs| - 1]);
    }
  }

  /** A run of calls that each show `e` rows shows `|cs| * e` rows. */
  lemma {:induction false} FlattenUniformLength(cs: seq<HookCall>, e: int)
    requires forall i | 0 <= i < |cs| :: |cs[i].rows| == e
    ensures |Flatten(cs)| == |cs| * e
  {
    if cs != [] {
      FlattenUniformLength(cs[..|cs| - 1], e);
      assert |Flatten(cs)| == (|cs| - 1) * e + e;
    }
  }

  /** In a run of calls that each show `e` rows, call `i` shows the `i`-th block of `e` rows. */
  lemma {:induction false} FlattenUniformBlock(cs: seq<HookCall>, e: nat, i: nat)
    requires forall j | 0 <= j < |cs| :: |cs[j].rows| == e
    requires i < |cs|
    ensures (i + 1) * e <= |Flatten(cs)|
    ensures cs[i].rows == Flatten(cs)[i * e..(i + 1) * e]
  {
    var init := cs[..|cs| - 1];
    FlattenUniformLength(init, e);
    FlattenUniformLength(cs, e);
    if i < |cs| - 1 {
      FlattenUniformBlock(init, e, i);
      assert Flatten(cs) == Flatten(init) + cs[|cs| - 1].rows;
    } else {
      assert |Flatten(init)| == i * e;
    }
  }

  /** A run of one-row calls that shows `rows` is the rows one by one. */
  lemma {:induction false} FlattenSingletons(cs: seq<HookCall>, rows: seq<Row>)
    requires forall j | 0 <= j < |cs| :: |cs[j].rows| == 1
    requires Flatten(cs) == rows
    ensures |cs| == |rows|
    ensures forall j | 0 <= j < |cs| :: cs[j].rows == [rows[j]]
  {
    FlattenUniformLength(cs, 1);
    forall j | 0 <= j < |cs|
      ensures cs[j].rows == [rows[j]]
    {
      FlattenUniformBlock(cs, 1, j);
    }
  }

  // ---------------------------------------------------------------------------
  // One step at a time

  /**
   * `rowProcessed` keeps the invariant, and under it the `>=` test fires
   * exactly when the row completes a batch; the hook then gets the full
   * batch size and sees the completed batch in the store and the flush
   * counter's old value, and only after that is the store cleared, the count
   * zeroed and the flush counted.
   */
  lemma RowStep(rowsPerBatch: Int32, s: Snapshot, row: Row)
    requires Consistent(rowsPerBatch, s)
    ensures var t := RowProcessed(rowsPerBatch, s, row);
      && Consistent(rowsPerBatch, t)
      && if s.batchCount + 1 == FlushSize(rowsPerBatch) then
           && t.calls == s.calls + [HookCall(FlushSize(rowsPerBatch), s.batchesProcessed, s.pending + [row])]
           && t.batchCount == 0 && t.pending == []
           && t.batchesProcessed == Inc32(s.batchesProcessed)
         else
           && t.calls == s.calls
           && t.batchCount == s.batchCount + 1 && t.pending == s.pending + [row]
           && t.batchesProcessed == s.batchesProcessed
  {
  }

  /**
   * `processEnded` keeps the invariant, calls the hook once with the number
   * of pending rows when there are any and not at all otherwise (the hook
   * sees those rows and the current flush counter), and leaves the counters
   * and the store as they were.
   */
  lemma EndStep(rowsPerBatch: Int32, s: Snapshot)
    requires Consistent(rowsPerBatch, s)
    ensures var t := Ended(s);
      && Consistent(rowsPerBatch, t)
      && t.batchCount == s.batchCount && t.batchesProcessed == s.batchesProcessed && t.pending == s.pending
      && t.calls == s.calls + (if s.pending != [] then [HookCall(|s.pending|, s.batchesProcessed, s.pending)] else [])
  {
  }

  /**
   * `getBatchesProcessed` never goes down between stream starts: a row
   * leaves it as it was or increments it, and the end of a stream leaves it
   * alone. It grows with each increment until it reaches the largest `int`.
   */
  lemma BatchesProcessedMonotone(rowsPerBatch: Int32, s: Snapshot, row: Row)
    ensures var t := RowProcessed(rowsPerBatch, s, row);
      t.batchesProcessed == s.batchesProcessed || t.batchesProcessed == Inc32(s.batchesProcessed)
    ensures s.batchesProcessed < MAX_INT ==> RowProcessed(rowsPerBatch, s, row).batchesProcessed >= s.batchesProcessed
    ensures Ended(s).batchesProcessed == s.batchesProcessed
  {
  }

  // ---------------------------------------------------------------------------
  // Whole streams

  /**
   * Every call in the run reports a full batch of `e` rows and shows that
   * many, and call `i` sees `i` earlier flushes counted.
   */
  ghost predicate AllFull(e: int, cs: seq<HookCall>)
  {
    forall i | 0 <= i < |cs| :: cs[i].rowsInThisBatch == e && |cs[i].rows| == e && cs[i].batchesProcessed == ToInt32(i)
  }

  /**
   * What `t` looks like after a stream start with earlier trace `base` and the
   * rows `rows`: the earlier trace is kept, every new call reported a full
   * batch, the rows shown to the new calls followed by the pending rows are
   * the rows delivered, fewer than a batch is pending, and `batchesProcessed`
   * counts the new calls (as a 32-bit `int`).
   */
  ghost predicate FedShape(e: int, base: seq<HookCall>, t: Snapshot, rows: seq<Row>)
  {
    && |base| <= |t.calls| && t.calls[..|base|] == base
    && AllFull(e, t.calls[|base|..])
    && Flatten(t.calls[|base|..]) + t.pending == rows
    && 0 <= t.batchCount < e && |t.pending| == t.batchCount
    && t.batchesProcessed == ToInt32(|t.calls| - |base|)
  }

  lemma FedShapeStep(rowsPerBatch: Int32, base: seq<HookCall>, u: Snapshot, rows: seq<Row>, row: Row)
    requires FedShape(FlushSize(rowsPerBatch), base, u, rows)
    ensures FedShape(FlushSize(rowsPerBatch), base, RowProcessed(rowsPerBatch, u, row), rows + [row])
  {
    var e := FlushSize(rowsPerBatch);
    var n := |base|;
    var t := RowProcessed(rowsPerBatch, u, row);
    if u.batchCount + 1 >= rowsPerBatch {
      var c := HookCall(e, u.batchesProcessed, u.pending + [row]);
      assert t.calls == u.calls + [c];
      assert t.calls[n..] == u.calls[n..] + [c];
      assert t.calls[..n] == u.calls[..n];
      FlattenAppend(u.calls[n..], c);
      Inc32ToInt32(|u.calls| - n);
    } else {
      assert t.calls == u.calls;
    }
  }

  /** After a stream start and any rows, the processor has the shape described by `FedShape`. */
  lemma {:induction false} FeedShape(rowsPerBatch: Int32, s: Snapshot, rows: seq<Row>)
    ensures FedShape(FlushSize(rowsPerBatch), s.calls, Feed(rowsPerBatch, Started(s), rows), rows)
    decreases |rows|
  {
    if rows == [] {
      assert Started(s).calls[|s.calls|..] == [];
    } else {
      var init, last := rows[..|rows| - 1], rows[|rows| - 1];
      FeedShape(rowsPerBatch, s, init);
      FedShapeStep(rowsPerBatch, s.calls, Feed(rowsPerBatch, Started(s), init), init, last);
      assert rows == init + [last];
    }
  }

  /** The counters and the store of a processor with the shape `FedShape`, in terms of the row count. */
  lemma CountsFromShape(e: int, base: seq<HookCall>, t: Snapshot, rows: seq<Row>)
    requires 1 <= e && FedShape(e, base, t, rows)
    ensures |t.calls| == |base| + |rows| / e
    ensures t.batchCount == |rows| % e
    ensures t.batchesProcessed == ToInt32(|rows| / e)
    ensures t.pending == rows[|rows| - |rows| % e..]
  {
    var d := t.calls[|base|..];
    FlattenUniformLength(d, e);
    assert |rows| == |d| * e + t.batchCount;
    DivModUnique(|rows|, e, |d|, t.batchCount);
  }

  /** In a processor with the shape `FedShape`, the `i`-th new hook call showed rows `i*e` up to `(i+1)*e`. */
  lemma BlocksFromShape(e: int, base: seq<HookCall>, t: Snapshot, rows: seq<Row>, i: nat)
    requires 1 <= e && FedShape(e, base, t, rows)
    requires i < |t.calls| - |base|
    ensures (i + 1) * e <= |rows|
    ensures t.calls[|base| + i] == HookCall(e, ToInt32(i), rows[i * e..(i + 1) * e])
  {
    var d := t.calls[|base|..];
    assert d[i] == t.calls[|base| + i];
    BlockOfRows(d, e, t.pending, rows, i);
  }

  /** When calls that each show `e` rows are followed by `pending` to make `rows`, call `i` shows the `i`-th block. */
  lemma BlockOfRows(d: seq<HookCall>, e: nat, pending: seq<Row>, rows: seq<Row>, i: nat)
    requires forall j | 0 <= j < |d| :: |d[j].rows| == e
    requires Flatten(d) + pending == rows
    requires i < |d|
    ensures (i + 1) * e <= |rows|
    ensures d[i].rows == rows[i * e..(i + 1) * e]
  {
    FlattenUniformBlock(d, e, i);
  }

  /**
   * With batch size `e` (`rowsPerBatch`, or 1 when it is not positive), after
   * a stream start and `N` rows: the earlier trace is kept and `N / e` calls
   * were added, `batchesProcessed == N / e` (as a 32-bit `int`),
   * `batchCount == N % e`, and the store holds the last `N % e` rows.
   */
  lemma FeedCounts(rowsPerBatch: Int32, s: Snapshot, rows: seq<Row>)
    ensures var t := Feed(rowsPerBatch, Started(s), rows);
            var e := FlushSize(rowsPerBatch);
      && |t.calls| == |s.calls| + |rows| / e
      && t.calls[..|s.calls|] == s.calls
      && t.batchCount == |rows| % e
      && t.batchesProcessed == ToInt32(|rows| / e)
      && t.pending == rows[|rows| - |rows| % e..]
  {
    FeedShape(rowsPerBatch, s, rows);
    CountsFromShape(FlushSize(rowsPerBatch), s.calls, Feed(rowsPerBatch, Started(s), rows), rows);
  }

  /**
   * After a stream start and `N` rows, the `i`-th hook call since the start
   * (for `i < N / e`) reported `e`, showed rows `i*e` up to `(i+1)*e`, and saw
   * `getBatchesProcessed` return `i`: the flush is counted after the hook.
   */
  lemma FeedBatch(rowsPerBatch: Int32, s: Snapshot, rows: seq<Row>, i: nat)
    requires i < |rows| / FlushSize(rowsPerBatch)
    ensures var t := Feed(rowsPerBatch, Started(s), rows);
            var e := FlushSize(rowsPerBatch);
      && |s.calls| + i < |t.calls|
      && (i + 1) * e <= |rows|
      && t.calls[|s.calls| + i] == HookCall(e, ToInt32(i), rows[i * e..(i + 1) * e])
  {
    var t := Feed(rowsPerBatch, Started(s), rows);
    var e := FlushSize(rowsPerBatch);
    FeedShape(rowsPerBatch, s, rows);
    CountsFromShape(e, s.calls, t, rows);
    BlocksFromShape(e, s.calls, t, rows, i);
  }

  /** The hook calls a stream made, after the calls `s` had already recorded. */
  function CallsSince(s: Snapshot, t: Snapshot): seq<HookCall>
  {
    if |s.calls| <= |t.calls| then t.calls[|s.calls|..] else []
  }

  /** The end of the stream adds what is pending as one more call, if anything is pending. */
  lemma EndFromShape(e: int, s: Snapshot, f: Snapshot, rows: seq<Row>)
    requires 1 <= e && FedShape(e, s.calls, f, rows)
    ensures var t := Ended(f);
            var d := CallsSince(s, t);
      && t.calls == s.calls + d
      && |d| == |rows| / e + (if |rows| % e == 0 then 0 else 1)
      && (forall i | 0 <= i < |d| :: d[i].rowsInThisBatch == |d[i].rows|)
      && (forall i | 0 <= i < |d| - 1 :: d[i].rowsInThisBatch == e)
      && (forall i | 0 <= i < |d| :: d[i].batchesProcessed == ToInt32(i))
      && (|d| > 0 ==> 1 <= d[|d| - 1].rowsInThisBatch <= e)
      && Flatten(d) == rows
      && (|rows| % e == 0 <==> t.calls == f.calls)
      && t.batchesProcessed == ToInt32(|rows| / e)
      && t.batchCount == |rows| % e
  {
    var n := |s.calls|;
    var t := Ended(f);
    CountsFromShape(e, s.calls, f, rows);
    var full := f.calls[n..];
    assert f.calls == s.calls + full;
    var d := CallsSince(s, t);
    if f.batchCount > 0 {
      var c := HookCall(f.batchCount, f.batchesProcessed, f.pending);
      assert t.calls == f.calls + [c];
      assert d == full + [c];
      FlattenAppend(full, c);
    } else {
      assert d == full;
    }
  }

  /** Rounding up a quotient: `ceil(n / e)` adds one to `n / e` exactly when `e` does not divide `n`. */
  lemma CeilDiv(n: nat, e: int)
    requires 1 <= e
    ensures (n + e - 1) / e == n / e + (if n % e == 0 then 0 else 1)
  {
    if n % e == 0 {
      DivModUnique(n + e - 1, e, n / e, e - 1);
    } else {
      DivModUnique(n + e - 1, e, n / e + 1, n % e - 1);
    }
  }

  /**
   * A whole stream (start, `N` rows, end) with batch size `e`: the earlier
   * trace is kept and the hook is called `ceil(N / e)` more times; every call
   * but the last reports `e`, the last reports between 1 and `e`; each call
   * reports the rows it was shown, and call `i` sees `getBatchesProcessed`
   * return `i` (as an `int`); the calls show every delivered row exactly
   * once, in delivery order, so their counts add up to `N`; and the end of
   * the stream calls the hook exactly when `N` is not a multiple of `e`.
   */
  lemma StreamBatches(rowsPerBatch: Int32, s: Snapshot, rows: seq<Row>)
    ensures var t := Stream(rowsPerBatch, s, rows);
            var d := CallsSince(s, t);
            var e := FlushSize(rowsPerBatch);
      && t.calls == s.calls + d
      && |d| == (|rows| + e - 1) / e
      && (forall i | 0 <= i < |d| :: d[i].rowsInThisBatch == |d[i].rows|)
      && (forall i | 0 <= i < |d| - 1 :: d[i].rowsInThisBatch == e)
      && (forall i | 0 <= i < |d| :: d[i].batchesProcessed == ToInt32(i))
      && (|d| > 0 ==> 1 <= d[|d| - 1].rowsInThisBatch <= e)
      && Flatten(d) == rows
      && Reported(d) == |rows|
      && (|rows| % e == 0 <==> t.calls == Feed(rowsPerBatch, Started(s), rows).calls)
      && t.batchesProcessed == ToInt32(|rows| / e)
      && t.batchCount == |rows| % e
  {
    var e := FlushSize(rowsPerBatch);
    FeedShape(rowsPerBatch, s, rows);
    EndFromShape(e, s, Feed(rowsPerBatch, Started(s), rows), rows);
    CeilDiv(|rows|, e);
    ReportedIsFlattenLength(CallsSince(s, Stream(rowsPerBatch, s, rows)));
  }

  /**
   * With a `rowsPerBatch` that is not positive (the constructor accepts one),
   * every row is flushed on its own: the hook is called once per row,
   * reporting 1 and showing that row, and `batchesProcessed` counts the rows.
   */
  lemma NonPositiveBatchSize(rowsPerBatch: Int32, s: Snapshot, rows: seq<Row>)
    requires rowsPerBatch <= 0
    ensures var t := Stream(rowsPerBatch, s, rows);
      && |t.calls| == |s.calls| + |rows|
      && (forall i | 0 <= i < |rows| :: t.calls[|s.calls| + i] == HookCall(1, ToInt32(i), [rows[i]]))
      && t.batchesProcessed == ToInt32(|rows|)
      && t.batchCount == 0
  {
    StreamBatches(rowsPerBatch, s, rows);
    var t := Stream(rowsPerBatch, s, rows);
    var d := CallsSince(s, t);
    FlattenSingletons(d, rows);
    forall i | 0 <= i < |rows|
      ensures t.calls[|s.calls| + i] == HookCall(1, ToInt32(i), [rows[i]])
    {
      assert d[i] == t.calls[|s.calls| + i];
    }
  }
}
