/**
 * The telemetry Writer (Source/santad/rust/telemetry/writer.rs): counts the
 * rows completed in its table builder and hands a record batch to the spool
 * writer whenever `batch_size` rows are buffered.
 *
 * The table builder, `autocomplete_row` and the spool writer are foreign
 * code. Each call to them is given as the outcome it would produce
 * (`Result`), and the writer records which calls it made in `calls`.
 */
module TelemetryWriter {
  import opened Wrappers

  /** An `anyhow::Error` from one of the collaborators. */
  datatype Error = BuilderError | SpoolError | AutocompleteError

  /** Rust's `anyhow::Result<()>`. */
  datatype Outcome = Pass | Fail(error: Error)

  /** A record batch produced by `TableBuilder::flush`. */
  type Batch = nat

  /** A call into foreign code, as logged by the writer. */
  datatype Call =
    | AutocompleteRow
    | BuilderFlush
    | WriteRecordBatch(batch: Batch)

  class Writer {
    const batchSize: nat
    var bufferedRows: nat
    /** Every call the writer made to the builder and the spool, in order. */
    var calls: seq<Call>

    /** `Writer::new`: no rows buffered yet. */
    constructor (batchSize: nat)
      ensures this.batchSize == batchSize && bufferedRows == 0 && calls == []
    {
      this.batchSize := batchSize;
      bufferedRows := 0;
      calls := [];
    }

    /**
     * `flush`: with no rows buffered, succeed without touching the builder
     * or the spool. Otherwise flush the builder (on failure nothing else
     * changes), reset the row count, then write the batch to the spool (a
     * failure there leaves the row count already reset).
     */
    method Flush(builderFlush: Result<Batch, Error>, spoolWrite: Outcome)
      returns (r: Outcome)
      modifies this
      ensures old(bufferedRows) == 0 ==> r == Pass && bufferedRows == 0 && calls == old(calls)
      ensures old(bufferedRows) > 0 && builderFlush.Err? ==>
                r == Fail(builderFlush.error) && bufferedRows == old(bufferedRows)
                && calls == old(calls) + [BuilderFlush]
      ensures old(bufferedRows) > 0 && builderFlush.Ok? ==>
                bufferedRows == 0 && r == spoolWrite
                && calls == old(calls) + [BuilderFlush, WriteRecordBatch(builderFlush.value)]
    {
      if bufferedRows == 0 {
        return Pass;
      }
      calls := calls + [BuilderFlush];
      if builderFlush.Err? {
        return Fail(builderFlush.error);
      }
      var batch := builderFlush.value;
      bufferedRows := 0;
      calls := calls + [WriteRecordBatch(batch)];
      if spoolWrite.Fail? {
        return Fail(spoolWrite.error);
      }
      return Pass;
    }

    /**
     * `autocomplete`: complete the current row (on failure the row count is
     * unchanged), count it, and flush once `batch_size` rows are buffered.
     */
    method Autocomplete(autocompleteRow: Outcome, builderFlush: Result<Batch, Error>,
                        spoolWrite: Outcome)
      returns (r: Outcome)
      modifies this
      ensures autocompleteRow.Fail? ==>
                r == autocompleteRow && bufferedRows == old(bufferedRows) && calls == old(calls) + [AutocompleteRow]
      ensures autocompleteRow.Pass? && old(bufferedRows) + 1 < batchSize ==>
                r == Pass && bufferedRows == old(bufferedRows) + 1 && calls == old(calls) + [AutocompleteRow]
      ensures autocompleteRow.Pass? && old(bufferedRows) + 1 >= batchSize && builderFlush.Err? ==>
                r == Fail(builderFlush.error) && bufferedRows == old(bufferedRows) + 1
                && calls == old(calls) + [AutocompleteRow, BuilderFlush]
      ensures autocompleteRow.Pass? && old(bufferedRows) + 1 >= batchSize && builderFlush.Ok? ==>
                r == spoolWrite && bufferedRows == 0
                && calls == old(calls) + [AutocompleteRow, BuilderFlush, WriteRecordBatch(builderFlush.value)]
      ensures r.Pass? && 1 <= batchSize ==> bufferedRows < batchSize
    {
      calls := calls + [AutocompleteRow];
      if autocompleteRow.Fail? {
        return autocompleteRow;
      }
      bufferedRows := bufferedRows + 1;
      if bufferedRows >= batchSize {
        var flushed := Flush(builderFlush, spoolWrite);
        if flushed.Fail? {
          return flushed;
        }
      }
      return Pass;
    }
  }
}
