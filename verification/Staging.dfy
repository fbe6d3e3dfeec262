/**
 The shared extraction template: streaming records into the staged file of an entity, merging
 an incremental delta into history, and tombstoning the keys a full snapshot no longer has.
 */
module Staging {
  import opened Outcomes

  datatype Mode = Backfill | Incremental

  const PARQUET_BATCH_SIZE: nat := 25000

  /** The staged rows of an entity; None while the file does not exist. */
  type Staged<Row> = Option<seq<Row>>

  function Rows<Row>(staged: Staged<Row>): seq<Row> {
    if staged.Some? then staged.value else []
  }

  /** An incremental run merges only into a file that exists. */
  predicate Merges<Row>(staged: Staged<Row>, mode: Mode) {
    mode.Incremental? && staged.Some?
  }

  /** The staged file after a run whose stream ended normally. */
  function AfterSuccess<Row>(staged: Staged<Row>, stream: seq<Row>, mode: Mode): Staged<Row> {
    if stream == [] then staged
    else if Merges(staged, mode) then Some(staged.value + stream)
    else Some(stream)
  }

  /** The staged file after a run whose stream raised: only whole batches reached the live file. */
  function AfterFailure<Row>(staged: Staged<Row>, stream: seq<Row>, mode: Mode): Staged<Row> {
    if stream == [] || Merges(staged, mode) then staged
    else Some(stream[..|stream| - |stream| % PARQUET_BATCH_SIZE])
  }

  class StagedFile<Row> {
    var content: Staged<Row>

    constructor ()
      ensures content == None
    {
      content := None;
    }

    /**
     Write a stream of records that ends after its last record or, when `raises`, fails there.
     A run that merges writes to a sibling first; any other run writes the live file as it goes.
     */
    method WriteRecords(stream: seq<Row>, raises: bool, mode: Mode) returns (rows: nat)
      modifies this
      ensures rows == |stream|
      ensures content == if raises then AfterFailure(old(content), stream, mode)
                         else AfterSuccess(old(content), stream, mode)
    {
      rows := 0;
      if stream == [] {
        return;
      }
      var merging := mode.Incremental? && content.Some?;
      var written: seq<Row> := [];
      var pending := [stream[0]];
      rows := 1;
      var full := 0;
      while rows < |stream|
        invariant 1 <= rows <= |stream|
        invariant written + pending == stream[..rows]
        invariant full <= rows && |written| == full * PARQUET_BATCH_SIZE && |pending| < PARQUET_BATCH_SIZE
      {
        pending := pending + [stream[rows]];
        rows := rows + 1;
        if |pending| >= PARQUET_BATCH_SIZE {
          written, pending, full := written + pending, [], full + 1;
        }
      }
      assert stream[..rows] == stream;
      if raises {
        assert written == stream[..full * PARQUET_BATCH_SIZE];
        if !merging {
          content := Some(written);
        }
        return;
      }
      if pending != [] {
        written := written + pending;
      }
      content := Some(if merging then content.value + written else written);
    }
  }
}
