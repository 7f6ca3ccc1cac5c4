/** Rows, exact time bounds and registered segment descriptors. Row times are UTC milliseconds;
    registered times are UTC microseconds, the precision the metadata store keeps. */
module Segments {
  import opened Basics
  import opened StableOrder

  const MILLISECONDS_PER_DAY: int := 86_400_000
  // The first and last millisecond a calendar timestamp can represent.
  const UTC_MIN_MILLISECONDS: int := -8_334_601_228_800_000
  const UTC_MAX_MILLISECONDS: int := 8_210_266_876_799_999

  datatype Row = Row(eventTime: int, eventId: nat, ingestionTime: int, columns: seq<int>)

  function Key(row: Row): RowKey {
    RowKey(row.eventTime, row.eventId)
  }

  /** The order of the rows of a segment: by event time, and by event identity where the times are equal. */
  predicate InRowOrder(rows: seq<Row>) {
    forall i, j :: 0 <= i < j < |rows| ==>
      || rows[i].eventTime < rows[j].eventTime
      || (rows[i].eventTime == rows[j].eventTime && rows[i].eventId <= rows[j].eventId)
  }

  predicate InDay(row: Row, day: int) {
    day * MILLISECONDS_PER_DAY <= row.eventTime < (day + 1) * MILLISECONDS_PER_DAY
  }

  predicate Representable(milliseconds: int) {
    UTC_MIN_MILLISECONDS <= milliseconds <= UTC_MAX_MILLISECONDS
  }

  datatype TimeBounds = TimeBounds(minEvent: int, maxEvent: int, minIngestion: int, maxIngestion: int)

  function Point(row: Row): TimeBounds {
    TimeBounds(row.eventTime, row.eventTime, row.ingestionTime, row.ingestionTime)
  }

  function Join(a: TimeBounds, b: TimeBounds): TimeBounds {
    TimeBounds(Min(a.minEvent, b.minEvent), Max(a.maxEvent, b.maxEvent),
               Min(a.minIngestion, b.minIngestion), Max(a.maxIngestion, b.maxIngestion))
  }

  function Extend(bounds: Option<TimeBounds>, row: Row): TimeBounds {
    if bounds.None? then Point(row) else Join(bounds.value, Point(row))
  }

  /** The running bounds after reading `rows` in order. */
  function BoundsOf(rows: seq<Row>): Option<TimeBounds> {
    if rows == [] then None
    else Some(Extend(BoundsOf(rows[..|rows| - 1]), rows[|rows| - 1]))
  }

  lemma BoundsSnoc(rows: seq<Row>, row: Row)
    ensures BoundsOf(rows + [row]) == Some(Extend(BoundsOf(rows), row))
  {
    assert (rows + [row])[..|rows|] == rows;
  }

  predicate Within(row: Row, bounds: TimeBounds) {
    bounds.minEvent <= row.eventTime <= bounds.maxEvent &&
    bounds.minIngestion <= row.ingestionTime <= bounds.maxIngestion
  }

  /** Every row lies within the bounds and each of the four bounds is some row's own time. */
  ghost predicate Tight(bounds: TimeBounds, rows: seq<Row>) {
    && (forall row :: row in rows ==> Within(row, bounds))
    && (exists row :: row in rows && row.eventTime == bounds.minEvent)
    && (exists row :: row in rows && row.eventTime == bounds.maxEvent)
    && (exists row :: row in rows && row.ingestionTime == bounds.minIngestion)
    && (exists row :: row in rows && row.ingestionTime == bounds.maxIngestion)
  }

  lemma TightPoint(row: Row)
    ensures Tight(Point(row), [row])
  {
    assert row in [row];
  }

  lemma TightJoin(a: TimeBounds, left: seq<Row>, b: TimeBounds, right: seq<Row>)
    requires Tight(a, left) && Tight(b, right)
    ensures Tight(Join(a, b), left + right)
  {
    assert forall row :: row in left + right <==> row in left || row in right;
  }

  lemma TightUnique(a: TimeBounds, b: TimeBounds, rows: seq<Row>, permuted: seq<Row>)
    requires multiset(rows) == multiset(permuted)
    requires Tight(a, rows) && Tight(b, permuted)
    ensures a == b
  {
    assert forall row :: row in rows <==> row in multiset(rows);
    assert forall row :: row in permuted <==> row in multiset(permuted);
    assert forall row :: row in permuted ==> Within(row, a);
    assert forall row :: row in rows ==> Within(row, b);
  }

  /** The running bounds are exact. */
  lemma {:induction false} BoundsOfTight(rows: seq<Row>)
    requires rows != []
    ensures BoundsOf(rows).Some? && Tight(BoundsOf(rows).value, rows)
  {
    var init, last := rows[..|rows| - 1], rows[|rows| - 1];
    assert rows == init + [last];
    TightPoint(last);
    if init != [] {
      BoundsOfTight(init);
      TightJoin(BoundsOf(init).value, init, Point(last), [last]);
    } else {
      assert rows == [last];
    }
  }

  /** Registered bounds, in microseconds. */
  datatype SegmentTimes = SegmentTimes(eventDay: int, bounds: TimeBounds)

  function InMicroseconds(bounds: TimeBounds): TimeBounds {
    TimeBounds(bounds.minEvent * 1000, bounds.maxEvent * 1000,
               bounds.minIngestion * 1000, bounds.maxIngestion * 1000)
  }

  /** Truncation to milliseconds, rounding down as the calendar library does. */
  function InMilliseconds(bounds: TimeBounds): TimeBounds {
    TimeBounds(bounds.minEvent / 1000, bounds.maxEvent / 1000,
               bounds.minIngestion / 1000, bounds.maxIngestion / 1000)
  }

  predicate MillisecondExact(bounds: TimeBounds) {
    InMicroseconds(InMilliseconds(bounds)) == bounds
  }

  /** What the constructor of registered times accepts: ordered bounds on the stated event day. */
  predicate ValidTimes(times: SegmentTimes) {
    && times.bounds.minEvent <= times.bounds.maxEvent
    && times.bounds.minIngestion <= times.bounds.maxIngestion
    && times.bounds.minEvent / (1000 * MILLISECONDS_PER_DAY) == times.eventDay
    && times.bounds.maxEvent / (1000 * MILLISECONDS_PER_DAY) == times.eventDay
  }

  datatype SegmentDescriptor = SegmentDescriptor(
    segmentId: nat, sourceId: nat, schemaId: nat, times: SegmentTimes,
    rowCount: nat, uncompressedBytes: nat, objectBytes: nat, objectOwner: nat)

  /** What every constructed descriptor satisfies: valid representable times, positive counts within
      64 bits and an object owned by the segment itself. */
  predicate ValidDescriptor(d: SegmentDescriptor) {
    && ValidTimes(d.times)
    && Representable(d.times.bounds.minEvent / 1000) && Representable(d.times.bounds.maxEvent / 1000)
    && Representable(d.times.bounds.minIngestion / 1000) && Representable(d.times.bounds.maxIngestion / 1000)
    && 0 < d.rowCount <= U64_MAX
    && 0 < d.uncompressedBytes <= U64_MAX
    && d.objectBytes <= U64_MAX
    && d.objectOwner == d.segmentId
  }

  datatype InputSegment = InputSegment(descriptor: SegmentDescriptor, expiresAt: int, publishedAt: int)
}
