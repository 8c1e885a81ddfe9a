/**
 * A row processor that hands the values it collects to its consumer in
 * batches of `rowsPerBatch` rows. The parsing engine calls
 * `ProcessStarted`, then `RowProcessed` once per row, then `ProcessEnded`;
 * the consumer is the `BatchProcessed` hook, which may read the column
 * store while it runs.
 *
 * Each method is specified by the function of the `Batching` module that
 * gives its effect on the processor's snapshot; the lemmas there say what
 * those effects add up to.
 */
module Processor {
  import opened Splitter
  import opened Batching

  class BatchedColumnProcessor {
    const splitter: ColumnSplitter
    const rowsPerBatch: Int32
    var batchCount: Int32
    var batchesProcessed: Int32

    /**
     * Every call made to `BatchProcessed`, with what the consumer could read
     * during the call: the flush counter and the rows the store held.
     */
    ghost var calls: seq<HookCall>

    /** The processor's state as a value. */
    ghost function Snap(): Snapshot
      reads this, splitter
    {
      Snapshot(batchCount, batchesProcessed, splitter.rows, calls)
    }

    ghost predicate Valid()
      reads this, splitter
    {
      Consistent(rowsPerBatch, Snap())
    }

    /**
     * This constructor does not check `rowsPerBatch`; a value below 1 is kept
     * and flushes after every row. The store's own constructor, which also
     * receives it, is not part of this model.
     */
    constructor (rowsPerBatch: Int32)
      ensures Valid() && fresh(splitter)
      ensures this.rowsPerBatch == rowsPerBatch
      ensures Snap() == Snapshot(0, 0, [], [])
    {
      splitter := new ColumnSplitter(rowsPerBatch);
      this.rowsPerBatch := rowsPerBatch;
      batchCount := 0;
      batchesProcessed := 0;
      calls := [];
    }

    /** Forgets the previous stream: the store is reset and both counters are zeroed. */
    method ProcessStarted()
      requires Valid()
      modifies this, splitter
      ensures Valid()
      ensures Snap() == Started(old(Snap()))
      ensures splitter.rows == [] && batchCount == 0 && batchesProcessed == 0 && calls == old(calls)
    {
      splitter.Reset();
      batchCount := 0;
      batchesProcessed := 0;
    }

    /**
     * Adds the row to the store and counts it. When the count reaches
     * `rowsPerBatch` the hook is called with the count while the store still
     * holds the batch and `batchesProcessed` still has its old value; then the
     * count is zeroed, the store cleared and the flush counted.
     */
    method RowProcessed(row: Row)
      requires Valid()
      modifies this, splitter
      ensures Valid()
      ensures Snap() == Batching.RowProcessed(rowsPerBatch, old(Snap()), row)
      ensures |calls| > |old(calls)| ==>
        calls == old(calls) + [HookCall(FlushSize(rowsPerBatch), old(batchesProcessed), old(splitter.rows) + [row])]
    {
      splitter.AddValuesToColumns(row);
      batchCount := Inc32(batchCount);

      if batchCount >= rowsPerBatch {
        BatchProcessed(batchCount);
        batchCount := 0;
        splitter.ClearValues();
        batchesProcessed := Inc32(batchesProcessed);
      }
      RowStep(rowsPerBatch, old(Snap()), row);
    }

    /**
     * Calls the hook with the pending count if rows are pending. The counters
     * and the store are left as they are.
     */
    method ProcessEnded()
      requires Valid()
      modifies this
      ensures Valid()
      ensures Snap() == Ended(old(Snap()))
      ensures calls == old(calls) + (if old(splitter.rows) != [] then [HookCall(|splitter.rows|, batchesProcessed, splitter.rows)] else [])
      ensures batchCount == old(batchCount) && batchesProcessed == old(batchesProcessed) && splitter.rows == old(splitter.rows)
    {
      if batchCount > 0 {
        BatchProcessed(batchCount);
      }
      EndStep(rowsPerBatch, old(Snap()));
    }

    method GetRowsPerBatch() returns (r: Int32)
      ensures r == rowsPerBatch
    {
      r := rowsPerBatch;
    }

    method GetBatchesProcessed() returns (r: Int32)
      ensures r == batchesProcessed
    {
      r := batchesProcessed;
    }

    /**
     * The consumer hook. What the consumer does is not part of this model:
     * the call is recorded with its argument, the value `getBatchesProcessed`
     * would return during it, and the rows the store holds while it runs. It
     * changes nothing else: the consumer does not change the processor.
     */
    method BatchProcessed(rowsInThisBatch: Int32)
      modifies this`calls
      ensures calls == old(calls) + [HookCall(rowsInThisBatch, batchesProcessed, splitter.rows)]
    {
      calls := calls + [HookCall(rowsInThisBatch, batchesProcessed, splitter.rows)];
    }
  }
}
