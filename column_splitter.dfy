/**
 * The column store a batched processor fills. In the library this is a
 * splitter that transposes each row into per-column lists and keeps the
 * header names; here it is abstracted to the rows it holds for the batch
 * being accumulated, in delivery order, which is all the batching logic
 * depends on.
 */
module Splitter {

  /** One cell of a parsed row: the parser may hand over a null cell. */
  datatype Cell = Null | Text(value: string)

  /** A row as delivered by the parsing engine. */
  type Row = seq<Cell>

  class ColumnSplitter {
    /** The rows added since the last reset or clear, oldest first. */
    var rows: seq<Row>

    /**
     * The processor passes its `rowsPerBatch` here as `expectedRowCount`.
     * What the store's constructor does with it is not part of this model:
     * here a new store simply holds no rows.
     */
    constructor (expectedRowCount: int)
      ensures rows == []
    {
      rows := [];
    }

    /** Drops headers and values; used when a new stream starts. */
    method Reset()
      modifies this
      ensures rows == []
    {
      rows := [];
    }

    /** Appends one row to the accumulated values. */
    method AddValuesToColumns(row: Row)
      modifies this
      ensures rows == old(rows) + [row]
    {
      rows := rows + [row];
    }

    /** Empties the accumulated values, keeping the headers; used between batches. */
    method ClearValues()
      modifies this
      ensures rows == []
    {
      rows := [];
    }
  }
}
