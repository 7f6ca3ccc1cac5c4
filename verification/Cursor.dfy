/** Streaming one input segment of a compaction run: batches arrive one at a time, each is validated
    when it arrives, and the whole stream is checked against the registered descriptor at its end. */
module Cursor {
  import opened Basics
  import opened StableOrder
  import opened Segments
  import opened Packing

  /** What the reader delivers next: a batch of rows, with a flag for whether its schema, null counts
      and system columns are as declared, or a failed read. */
  datatype StreamItem = Batch(rows: seq<Row>, wellTyped: bool) | ReadFailed

  datatype CursorError = CursorError

  function ItemRows(item: StreamItem): seq<Row> {
    if item.Batch? then item.rows else []
  }

  /** All rows of a stream, in order. */
  function StreamRows(stream: seq<StreamItem>): seq<Row> {
    if stream == [] then [] else StreamRows(stream[..|stream| - 1]) + ItemRows(stream[|stream| - 1])
  }

  predicate RowsValid(rows: seq<Row>, day: int) {
    && InRowOrder(rows)
    && (forall i :: 0 <= i < |rows| ==> InDay(rows[i], day))
  }

  predicate ItemValid(item: StreamItem) {
    item.Batch? && item.wellTyped && item.rows != []
  }

  /** A prefix of a stream that passes every check made on arrival. */
  predicate PrefixValid(d: SegmentDescriptor, prefix: seq<StreamItem>, day: int) {
    && (forall k :: 0 <= k < |prefix| ==> ItemValid(prefix[k]))
    && RowsValid(StreamRows(prefix), day)
    && |StreamRows(prefix)| <= d.rowCount
  }

  /** A complete stream that agrees with its registered descriptor. */
  predicate StreamValid(d: SegmentDescriptor, stream: seq<StreamItem>, day: int) {
    && PrefixValid(d, stream, day)
    && |StreamRows(stream)| == d.rowCount
    && BoundsOf(StreamRows(stream)) == Some(InMilliseconds(d.times.bounds))
  }

  lemma {:induction false} StreamRowsSplit(stream: seq<StreamItem>, n: nat)
    requires n <= |stream|
    ensures |StreamRows(stream[..n])| <= |StreamRows(stream)|
    ensures StreamRows(stream[..n]) == StreamRows(stream)[..|StreamRows(stream[..n])|]
    decreases |stream|
  {
    if n == |stream| {
      assert stream[..n] == stream;
    } else {
      StreamRowsSplit(stream[..|stream| - 1], n);
      assert stream[..|stream| - 1][..n] == stream[..n];
    }
  }

  lemma PrefixOfValid(d: SegmentDescriptor, stream: seq<StreamItem>, n: nat, day: int)
    requires n <= |stream| && PrefixValid(d, stream, day)
    ensures PrefixValid(d, stream[..n], day)
  {
    StreamRowsSplit(stream, n);
  }

  /** The running figures a cursor keeps about the rows it has loaded. */
  ghost predicate Summary(loaded: nat, bounds: Option<TimeBounds>, lastKey: Option<RowKey>, rows: seq<Row>) {
    loaded == |rows| && bounds == BoundsOf(rows) && lastKey == LastKey(rows)
  }

  class InputCursor {
    const descriptor: SegmentDescriptor
    const day: int
    ghost const source: seq<StreamItem>
    var stream: seq<StreamItem>
    var batch: Option<seq<Row>>
    var rowIndex: nat
    var batchGeneration: nat
    var rowsLoaded: nat
    var rowsEmitted: nat
    var bounds: Option<TimeBounds>
    var lastLoadedKey: Option<RowKey>

    constructor (descriptor: SegmentDescriptor, day: int, stream: seq<StreamItem>)
      requires descriptor.rowCount > 0
      ensures this.descriptor == descriptor && this.day == day && source == stream
      ensures Loaded() && batch.None? && batchGeneration == 0 && rowsEmitted == 0
    {
      this.descriptor, this.day, this.source, this.stream := descriptor, day, stream, stream;
      batch, rowIndex, batchGeneration, rowsLoaded, rowsEmitted := None, 0, 0, 0, 0;
      bounds, lastLoadedKey := None, None;
    }

    /** What is known about the batches loaded so far. Batch `g` of the source is generation `g + 1`. */
    ghost predicate Loaded()
      reads this
    {
      && descriptor.rowCount > 0
      && batchGeneration <= |source|
      && stream == source[batchGeneration..]
      && PrefixValid(descriptor, source[..batchGeneration], day)
      && Summary(rowsLoaded, bounds, lastLoadedKey, StreamRows(source[..batchGeneration]))
    }

    /** The cursor stands on a row of its newest batch. */
    ghost predicate Positioned()
      reads this
    {
      && Loaded()
      && batchGeneration > 0
      && batch == Some(source[batchGeneration - 1].rows)
      && rowIndex < |batch.value|
      && rowsEmitted == |StreamRows(source[..batchGeneration - 1])| + rowIndex
    }

    /** The cursor has handed out every row and the stream proved valid. */
    ghost predicate Exhausted()
      reads this
    {
      && batch.None?
      && StreamValid(descriptor, source, day)
      && rowsEmitted == |StreamRows(source)|
    }

    /** The rows still to come, with their charged bytes. */
    ghost function Rest(): seq<Item>
      reads this
      requires descriptor.rowCount > 0 && rowsEmitted <= |StreamRows(source)|
    {
      Items(descriptor, StreamRows(source))[rowsEmitted..]
    }

    lemma CurrentRow()
      requires Positioned()
      ensures rowsEmitted < |StreamRows(source)|
      ensures batch.value[rowIndex] == StreamRows(source)[rowsEmitted]
      ensures rowsEmitted < descriptor.rowCount
    {
      StreamRowsSplit(source, batchGeneration);
      assert source[..batchGeneration][..batchGeneration - 1] == source[..batchGeneration - 1];
    }

    /** The rows loaded are those of the earlier batches and of the newest one. */
    lemma BatchEnd()
      requires Positioned()
      ensures |StreamRows(source[..batchGeneration])| ==
              |StreamRows(source[..batchGeneration - 1])| + |batch.value|
    {
      TakeSnoc(source, batchGeneration);
    }

    method CurrentKey() returns (key: RowKey)
      requires Positioned()
      ensures rowsEmitted < |StreamRows(source)| && key == Key(StreamRows(source)[rowsEmitted])
    {
      CurrentRow();
      key := Key(batch.value[rowIndex]);
    }

    /** Moves past the current row. A failure, here or in loading, means the stream is not valid. */
    method Advance() returns (r: Result<bool, CursorError>)
      requires Positioned()
      modifies this
      ensures r.Success? && r.value ==> Positioned()
      ensures r.Success? && !r.value ==> Exhausted()
      ensures r.Success? ==> rowsEmitted == old(rowsEmitted) + 1
      ensures batchGeneration >= old(batchGeneration)
      ensures r.Failure? ==> !StreamValid(descriptor, source, day)
    {
      hide PrefixValid, Summary, BoundsOf;
      BatchEnd();
      hide StreamRows;
      rowsEmitted := rowsEmitted + 1;
      rowIndex := rowIndex + 1;
      if rowIndex < |batch.value| {
        return Success(true);
      }
      r := LoadNextBatch();
    }

    method LoadNextBatch() returns (r: Result<bool, CursorError>)
      requires Loaded()
      requires rowsEmitted == |StreamRows(source[..batchGeneration])|
      modifies this
      ensures r.Success? && r.value ==> Positioned()
      ensures r.Success? && !r.value ==> Exhausted()
      ensures r.Success? ==> rowsEmitted == old(rowsEmitted)
      ensures batchGeneration >= old(batchGeneration)
      ensures r.Failure? ==> !StreamValid(descriptor, source, day)
    {
      hide PrefixValid, StreamRows, Summary, StreamValid;
      if stream == [] {
        batch := None;
        var complete := ValidateComplete();
        return if complete then Success(false) else Failure(CursorError);
      }
      var item := stream[0];
      NextItemMustBeValid();
      if item.ReadFailed? {
        return Failure(CursorError);
      }
      var ok := ValidateBatch(item);
      if !ok {
        return Failure(CursorError);
      }
      stream := stream[1..];
      batchGeneration := batchGeneration + 1;
      batch := Some(item.rows);
      rowIndex := 0;
      return Success(true);
    }

    /** The check made once the stream has ended. */
    method ValidateComplete() returns (complete: bool)
      requires Loaded() && stream == []
      requires rowsEmitted == |StreamRows(source[..batchGeneration])|
      ensures complete <==> StreamValid(descriptor, source, day)
      ensures complete ==> rowsEmitted == |StreamRows(source)|
    {
      assert source[..batchGeneration] == source;
      complete := rowsLoaded == descriptor.rowCount
        && rowsEmitted == descriptor.rowCount
        && bounds == Some(InMilliseconds(descriptor.times.bounds));
    }

    lemma NextItemMustBeValid()
      requires Loaded() && stream != []
      ensures source[batchGeneration] == stream[0]
      ensures StreamValid(descriptor, source, day) ==>
                PrefixValid(descriptor, source[..batchGeneration + 1], day) && ItemValid(stream[0])
    {
      if StreamValid(descriptor, source, day) {
        PrefixOfValid(descriptor, source, batchGeneration + 1, day);
        assert ItemValid(source[batchGeneration]);
      }
    }

    /** Checks a batch against the running summary, and updates the summary. It succeeds exactly when
        the longer prefix is still valid. */
    method ValidateBatch(item: StreamItem) returns (ok: bool)
      requires Loaded() && stream != [] && item == stream[0] && item.Batch?
      modifies this`rowsLoaded, this`bounds, this`lastLoadedKey
      ensures ok <==> PrefixValid(descriptor, source[..batchGeneration + 1], day)
      ensures ok ==> item.rows != []
      ensures ok ==> Summary(rowsLoaded, bounds, lastLoadedKey, StreamRows(source[..batchGeneration + 1]))
    {
      ghost var before := StreamRows(source[..batchGeneration]);
      NextPrefix(descriptor, source, batchGeneration, day);
      assert RowsValid(before, day);
      hide PrefixValid, StreamRows, RowsValid, BoundsOf, LastKey;
      if item.rows == [] || !item.wellTyped {
        return false;
      }
      ok := ValidateRows(before, item.rows);
      if ok {
        rowsLoaded := rowsLoaded + |item.rows|;
        ok := rowsLoaded <= descriptor.rowCount;
      }
    }

    /** Checks rows one by one: on the event day, and not below the key loaded last. */
    method ValidateRows(ghost before: seq<Row>, rows: seq<Row>) returns (ok: bool)
      requires RowsValid(before, day) && bounds == BoundsOf(before) && lastLoadedKey == LastKey(before)
      modifies this`bounds, this`lastLoadedKey
      ensures ok <==> RowsValid(before + rows, day)
      ensures ok ==> bounds == BoundsOf(before + rows) && lastLoadedKey == LastKey(before + rows)
    {
      hide RowsValid, BoundsOf;
      hide PrefixValid;
      assert before + rows[..0] == before;
      var i := 0;
      while i < |rows|
        invariant 0 <= i <= |rows|
        invariant RowsValid(before + rows[..i], day)
        invariant bounds == BoundsOf(before + rows[..i]) && lastLoadedKey == LastKey(before + rows[..i])
      {
        ghost var seen := before + rows[..i];
        var row := rows[i];
        assert before + rows[..i + 1] == seen + [row];
        assert before + rows == (seen + [row]) + rows[i + 1..];
        RowsValidSnoc(seen, row, day);
        BoundsSnoc(seen, row);
        if !InDay(row, day) || (lastLoadedKey.Some? && !AtMost(lastLoadedKey.value, Key(row))) {
          if RowsValid(before + rows, day) {
            RowsValidPrefix(seen + [row], rows[i + 1..], day);
          }
          return false;
        }
        lastLoadedKey := Some(Key(row));
        bounds := Some(Extend(bounds, row));
        i := i + 1;
      }
      assert rows[..i] == rows;
      ok := true;
    }
  }

  /** When a valid prefix of a stream stays valid with its next batch. */
  lemma NextPrefix(d: SegmentDescriptor, stream: seq<StreamItem>, n: nat, day: int)
    requires n < |stream| && PrefixValid(d, stream[..n], day)
    ensures var before := StreamRows(stream[..n]);
            var rows := ItemRows(stream[n]);
            && StreamRows(stream[..n + 1]) == before + rows
            && (PrefixValid(d, stream[..n + 1], day) <==>
                ItemValid(stream[n]) && RowsValid(before + rows, day) && |before| + |rows| <= d.rowCount)
  {
    hide RowsValid;
    TakeSnoc(stream, n + 1);
    assert forall k :: 0 <= k < n ==> stream[..n + 1][k] == stream[..n][k];
    assert StreamRows(stream[..n + 1]) == StreamRows(stream[..n]) + ItemRows(stream[n]);
    hide StreamRows;
    if ItemValid(stream[n]) {
      var longer := stream[..n + 1];
      forall k | 0 <= k < |longer| ensures ItemValid(longer[k]) {
        if k < n {
          assert ItemValid(stream[..n][k]);
        }
      }
    } else {
      assert !ItemValid(stream[..n + 1][n]);
    }
  }

  function LastKey(rows: seq<Row>): Option<RowKey> {
    if rows == [] then None else Some(Key(rows[|rows| - 1]))
  }

  lemma RowsValidSnoc(rows: seq<Row>, row: Row, day: int)
    requires RowsValid(rows, day)
    ensures RowsValid(rows + [row], day) <==>
            InDay(row, day) && (rows == [] || AtMost(LastKey(rows).value, Key(row)))
  {
    var longer := rows + [row];
    assert longer[|rows|] == row && longer[..|rows|] == rows;
    if rows != [] {
      assert longer[|rows| - 1] == rows[|rows| - 1];
    }
  }

  lemma RowsValidPrefix(rows: seq<Row>, more: seq<Row>, day: int)
    requires RowsValid(rows + more, day)
    ensures RowsValid(rows, day)
  {
    assert forall i :: 0 <= i < |rows| ==> rows[i] == (rows + more)[i];
  }

  /** Opens a cursor on the first row of a stream; an empty stream is invalid. */
  method OpenCursor(descriptor: SegmentDescriptor, day: int, stream: seq<StreamItem>)
    returns (r: Result<InputCursor, CursorError>)
    requires descriptor.rowCount > 0
    ensures r.Success? ==> fresh(r.value) && r.value.Positioned() && r.value.rowsEmitted == 0
    ensures r.Success? ==> r.value.descriptor == descriptor && r.value.day == day && r.value.source == stream
    ensures r.Failure? ==> !StreamValid(descriptor, stream, day)
  {
    var cursor := new InputCursor(descriptor, day, stream);
    var loaded := cursor.LoadNextBatch();
    if loaded.Failure? || !loaded.value {
      return Failure(CursorError);
    }
    return Success(cursor);
  }
}
