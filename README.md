# Batched column processor: a verified model

This project models the batching state machine of univocity-parsers'
`BatchedColumnProcessor`. A parsing engine calls the processor once when a
stream starts, once per parsed row, and once when the stream ends. The
processor stores each row in its column store and counts it. When the count
reaches `rowsPerBatch`, it calls its abstract hook `batchProcessed(count)`.
The consumer reads the accumulated columns inside that call. Afterwards the
processor zeroes the count, clears the stored values and increments
`batchesProcessed`. At the end of the stream, a partial batch is handed to the
hook once.

Files:

- `column_splitter.dfy` (module `Splitter`): the column store, reduced to the
  rows it holds for the current batch, with `Reset`, `AddValuesToColumns` and
  `ClearValues`.
- `batching.dfy` (module `Batching`): the processor's state as a value
  (`Snapshot`). It defines one function per callback (`Started`,
  `RowProcessed`, `Ended`), whole streams (`Feed`, `Stream`) and the lemmas
  about them.
- `batched_column_processor.dfy` (module `Processor`): the class. It has the
  source's fields, a `const rowsPerBatch`, and a ghost trace `calls` that
  records every hook call. Each method's postcondition ties the new snapshot
  to the matching `Batching` function of the old one.

A hook call is recorded as `HookCall(rowsInThisBatch, batchesProcessed, rows)`.
The last two fields are what the consumer can read during the call: the value
`getBatchesProcessed` returns and the rows the store holds. So the trace shows
that the hook runs before the values are cleared and before the flush is
counted. The hook's frame is `modifies this`calls`, so the hook cannot change
the processor's state.

Three details of the code are easy to get wrong:

- This class's constructor does not check `rowsPerBatch`. It passes the
  value on to the store's constructor, which is not part of this model.
- The flush test is `batchCount >= rowsPerBatch`, applied after the
  increment. A non-positive `rowsPerBatch` therefore flushes after every row
  and reports 1, exactly as 1 would. `FlushSize` names this effective batch
  size.
- `processEnded` only calls the hook when rows are pending. It does not
  increment `batchesProcessed`, clear the store or reset `batchCount`.

Both counters are Java `int`s, and both `++` are modelled with 32-bit
wrap-around (`Inc32`). `batchCount` provably never wraps, because the
invariant keeps it below the flush size. `batchesProcessed` reaches the
largest `int` after 2^31 - 1 flushes, and the next flush wraps it to the
smallest `int`. The counting results are therefore
stated as `ToInt32(N / e)`, and the monotonicity of `getBatchesProcessed`
holds up to that point.

## Model

| member | source | states |
|---|---|---|
| Processor.BatchedColumnProcessor.constructor | src/main/java/com/univocity/parsers/common/processor/BatchedColumnProcessor.java:29-32 | Lines 29-32 accept any `rowsPerBatch` and keep it. Both counters, the store and the trace start empty, and the invariant holds. |
| Processor.BatchedColumnProcessor.ProcessStarted | src/main/java/com/univocity/parsers/common/processor/BatchedColumnProcessor.java:35-39 | The store is reset and both counters are zeroed. `rowsPerBatch` (a const) and the hook trace are unchanged, and the invariant is kept. |
| Processor.BatchedColumnProcessor.RowProcessed | src/main/java/com/univocity/parsers/common/processor/BatchedColumnProcessor.java:42-52 | The new snapshot is `Batching.RowProcessed` of the old one: add and count the row; when the count reaches `rowsPerBatch`, call the hook with `e` while the store still holds the batch and `batchesProcessed` still has its old value; then zero, clear and count the flush. The invariant is kept. |
| Processor.BatchedColumnProcessor.ProcessEnded | src/main/java/com/univocity/parsers/common/processor/BatchedColumnProcessor.java:55-59 | Exactly one hook call, reporting the number of pending rows, when rows are pending; none otherwise. Counters and store are unchanged. |
| Processor.BatchedColumnProcessor.GetRowsPerBatch | src/main/java/com/univocity/parsers/common/processor/BatchedColumnProcessor.java:91-93 | Returns the `rowsPerBatch` given to the constructor, a const field. |
| Processor.BatchedColumnProcessor.GetBatchesProcessed | src/main/java/com/univocity/parsers/common/processor/BatchedColumnProcessor.java:95-97 | Returns the current flush counter. |
| Processor.BatchedColumnProcessor.BatchProcessed | src/main/java/com/univocity/parsers/common/processor/BatchedColumnProcessor.java:99 | The abstract hook: records its argument, the current `batchesProcessed` and the rows the store holds during the call, and changes nothing else. |
| Splitter.ColumnSplitter.constructor | src/main/java/com/univocity/parsers/common/processor/BatchedColumnProcessor.java:30 | A new store holds no rows. |
| Splitter.ColumnSplitter.Reset | src/main/java/com/univocity/parsers/common/processor/BatchedColumnProcessor.java:36 | Resetting leaves the store empty. |
| Splitter.ColumnSplitter.AddValuesToColumns | src/main/java/com/univocity/parsers/common/processor/BatchedColumnProcessor.java:43 | The row is appended after the rows already held. |
| Splitter.ColumnSplitter.ClearValues | src/main/java/com/univocity/parsers/common/processor/BatchedColumnProcessor.java:49 | Clearing leaves no values in the store. |
| Batching.FlushSize | src/main/java/com/univocity/parsers/common/processor/BatchedColumnProcessor.java:46 | The effective batch size is between 1 and the largest `int`. It equals `rowsPerBatch` whenever that is at least 1. |
| Batching.Inc32 | src/main/java/com/univocity/parsers/common/processor/BatchedColumnProcessor.java:44-50 | Java's `int` `++`: the result is larger exactly when the value was below the largest `int`, and is then the value plus one. |
| Batching.Started | src/main/java/com/univocity/parsers/common/processor/BatchedColumnProcessor.java:35-39 | `processStarted` as a function: both counters zero, store empty, hook trace kept. |
| Batching.RowProcessed | src/main/java/com/univocity/parsers/common/processor/BatchedColumnProcessor.java:42-52 | `rowProcessed` as a function: the trace grows by at most one call. A call is made exactly when the flush counter moves. That call saw the held rows plus the new row and the counter's value before the increment, and afterwards nothing is pending. Without a call, the row is added to the pending rows. |
| Batching.Ended | src/main/java/com/univocity/parsers/common/processor/BatchedColumnProcessor.java:55-59 | `processEnded` as a function: counters and store unchanged; the trace grows by one call exactly when `batchCount > 0`, and the earlier trace is kept. |
| Batching.Feed | src/main/java/com/univocity/parsers/common/processor/BatchedColumnProcessor.java:42-52 | Rows processed one after another only extend the trace, by at most one call per row. |
| Batching.Stream | src/main/java/com/univocity/parsers/common/processor/BatchedColumnProcessor.java:35-59 | A whole stream keeps the earlier trace and adds at most one call per row plus one. |
| Batching.RowStep | src/main/java/com/univocity/parsers/common/processor/BatchedColumnProcessor.java:42-52 | Under the invariant (`0 <= batchCount < e`, store size equals `batchCount`, every earlier call reported 1..e rows equal to what it was shown), a row keeps the invariant. The `>=` test fires exactly when the row completes a batch. The hook then gets exactly `e` (so `rowsPerBatch` when it is at least 1) and sees the full batch. The hook also sees the old `batchesProcessed`. Only after the hook is the store cleared, the count zeroed and `batchesProcessed` incremented once. Otherwise nothing is called and the row is just added and counted. |
| Batching.EndStep | src/main/java/com/univocity/parsers/common/processor/BatchedColumnProcessor.java:55-59 | Under the invariant, the end of a stream adds exactly one call `HookCall(pending count, batchesProcessed, pending rows)` when rows are pending and none otherwise. `batchCount`, `batchesProcessed` and the store are unchanged. |
| Batching.BatchesProcessedMonotone | src/main/java/com/univocity/parsers/common/processor/BatchedColumnProcessor.java:42-59 | Between stream starts, a row leaves `batchesProcessed` unchanged or increments it, so it never goes down unless it was already the largest `int`. The end of a stream leaves it unchanged. |
| Batching.FedShapeStep | src/main/java/com/univocity/parsers/common/processor/BatchedColumnProcessor.java:42-52 | One row keeps the stream shape: all new calls are full batches, the rows shown to them followed by the pending rows are the rows delivered, and `batchesProcessed` counts the new calls. |
| Batching.FeedShape | src/main/java/com/univocity/parsers/common/processor/BatchedColumnProcessor.java:35-52 | After a start and any rows, the earlier trace is kept and every new call reported a full batch. The rows those calls were shown, followed by the pending rows, are exactly the rows delivered, in order. |
| Batching.FeedCounts | src/main/java/com/univocity/parsers/common/processor/BatchedColumnProcessor.java:35-52 | After a start and N rows with batch size e: N / e hook calls were made, `batchesProcessed == N / e` (as an `int`), `batchCount == N % e`, and the store holds the last N % e rows. |
| Batching.FeedBatch | src/main/java/com/univocity/parsers/common/processor/BatchedColumnProcessor.java:42-52 | The i-th call after a start reported e, was shown exactly rows i*e up to (i+1)*e, and saw `batchesProcessed == i` (as an `int`). |
| Batching.EndFromShape | src/main/java/com/univocity/parsers/common/processor/BatchedColumnProcessor.java:55-59 | Ending a stream of that shape adds one partial call when N % e > 0 and none when N % e == 0. After it, the calls show exactly the rows delivered. |
| Batching.StreamBatches | src/main/java/com/univocity/parsers/common/processor/BatchedColumnProcessor.java:35-59 | For a whole stream (start, N rows, end): the hook is called ceil(N / e) times, after the earlier trace. Every call but the last reports e, and the last reports 1..e. Each call reports the rows it was shown, and call i sees `batchesProcessed == i`. Together the calls show every row exactly once, in order, and their counts sum to N. The end adds a call iff N % e != 0. At the end, `batchesProcessed == N / e` and `batchCount == N % e`. |
| Batching.NonPositiveBatchSize | src/main/java/com/univocity/parsers/common/processor/BatchedColumnProcessor.java:29-46 | With `rowsPerBatch <= 0`, every row is flushed on its own: one call per row, reporting 1, showing that row and seeing `batchesProcessed` equal to the row's index. `batchesProcessed` counts the rows and `batchCount` ends at 0. |

## Left out

- The column store's internals are not modelled: transposing rows into per-column lists, null-padding and truncating rows of another width, taking headers from the parsing context, and building the name-keyed and index-keyed maps. The store class is not part of this model; it is represented by the rows it holds.
- The delegating getters at lines 61-89 (`getHeaders`, `getColumnValuesAsList`, `putColumnValuesInMapOf*`, `getColumnValuesAsMapOf*`) are left out, because they only pass through to the store's internals above.
- The `ParsingContext` argument of the callbacks is dropped, because this class never reads it; it only passes it to the store for header extraction.
- What the consumer does inside `batchProcessed` is not modelled. Only the fact of the call, its argument, and the counter and rows visible to it are recorded. The consumer is assumed not to change the processor's state from inside the hook.
- `BatchProcessed` is assumed to return normally. If the Java hook throws at line 47, lines 48-50 are skipped. `batchCount` then stays at `rowsPerBatch` and the store keeps the batch. A later `processEnded` would hand the same rows to the hook again, and the next row would flush `rowsPerBatch + 1` rows. The invariant `batchCount < e` and every lemma built on it hold only for hooks that return.
- The store's constructor (`new ColumnSplitter<String>(rowsPerBatch)` at line 30) is not part of this model. It may reject a non-positive `rowsPerBatch`. `Processor.BatchedColumnProcessor.constructor` and `Batching.NonPositiveBatchSize` describe only lines 29-32 and 46, on the assumption that construction succeeds.
- `processEnded` is not `final` in the source, so a subclass may replace it. The model covers the class's own version only.
- Threads and concurrent use are left out: the engine drives the processor from one thread, in order.
