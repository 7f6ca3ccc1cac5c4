/** When a stream is accepted as the rows of its registered segment, in plain comparisons. */
module StreamConditions {
  import opened Basics
  import opened Segments
  import opened Cursor

  /** The whole milliseconds of a time in microseconds. */
  predicate Truncates(milliseconds: int, microseconds: int) {
    milliseconds * 1000 <= microseconds < milliseconds * 1000 + 1000
  }

  lemma Truncation(microseconds: int, milliseconds: int)
    ensures Truncates(milliseconds, microseconds) <==> milliseconds == microseconds / 1000
  {
  }

  /** The registered bounds, truncated, are the least and greatest times of the rows. */
  ghost predicate BoundsMatch(registered: TimeBounds, rows: seq<Row>) {
    exists bounds ::
      && Tight(bounds, rows)
      && Truncates(bounds.minEvent, registered.minEvent) && Truncates(bounds.maxEvent, registered.maxEvent)
      && Truncates(bounds.minIngestion, registered.minIngestion)
      && Truncates(bounds.maxIngestion, registered.maxIngestion)
  }

  lemma BoundsMatchIff(registered: TimeBounds, rows: seq<Row>)
    ensures rows != [] ==> (BoundsOf(rows) == Some(InMilliseconds(registered)) <==> BoundsMatch(registered, rows))
  {
    if rows != [] {
      BoundsOfTight(rows);
      hide Tight, BoundsOf;
      var exact := BoundsOf(rows).value;
      Truncation(registered.minEvent, exact.minEvent);
      Truncation(registered.maxEvent, exact.maxEvent);
      Truncation(registered.minIngestion, exact.minIngestion);
      Truncation(registered.maxIngestion, exact.maxIngestion);
      forall bounds | Tight(bounds, rows) ensures bounds == exact {
        TightUnique(bounds, exact, rows, rows);
      }
    }
  }

  /** A stream is accepted exactly when every read succeeds with a non-empty batch as declared, the rows are in order
      of event time and then of event identity, all on the event day, as many as registered and with the registered
      bounds. */
  lemma StreamIsAccepted(d: SegmentDescriptor, stream: seq<StreamItem>, day: int)
    requires d.rowCount > 0
    ensures StreamValid(d, stream, day) <==>
              var rows := StreamRows(stream);
              && (forall k :: 0 <= k < |stream| ==>
                    stream[k].Batch? && stream[k].wellTyped && |stream[k].rows| > 0)
              && (forall i, j :: 0 <= i < j < |rows| ==>
                    || rows[i].eventTime < rows[j].eventTime
                    || (rows[i].eventTime == rows[j].eventTime && rows[i].eventId <= rows[j].eventId))
              && (forall i :: 0 <= i < |rows| ==>
                    day * 86_400_000 <= rows[i].eventTime < day * 86_400_000 + 86_400_000)
              && |rows| == d.rowCount && BoundsMatch(d.times.bounds, rows)
  {
    hide StreamRows, BoundsOf, BoundsMatch, InMilliseconds;
    BoundsMatchIff(d.times.bounds, StreamRows(stream));
  }

  /** The rows of a stream are those of its batches, one after the other. */
  lemma {:induction false} RowsOfBatches(stream: seq<StreamItem>)
    ensures StreamRows(stream) == Flatten(seq(|stream|, k requires 0 <= k < |stream| => ItemRows(stream[k])))
  {
    if stream != [] {
      var n := |stream| - 1;
      RowsOfBatches(stream[..n]);
      var parts := seq(|stream|, k requires 0 <= k < |stream| => ItemRows(stream[k]));
      assert parts == seq(n, k requires 0 <= k < n => ItemRows(stream[..n][k])) + [ItemRows(stream[n])];
      FlattenSnoc(parts[..n], parts[n]);
      assert parts[..n] == seq(n, k requires 0 <= k < n => ItemRows(stream[..n][k]));
    }
  }
}
