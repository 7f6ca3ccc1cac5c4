/** The segment builders of the ingestion path: open builders by source, schema and event day, sealed by size, age,
    pressure or number, and drained through a queue. */
module Builders {
  import opened Basics
  import opened StableOrder
  import opened Segments
  import opened BuilderRows

  datatype BuildError =
    | EstimatedBytesOverflow | ClockMovedBackwards | AccessSequenceExhausted | BatchExceedsCapacity(capacity: Capacity)

  datatype Record = Accepted(row: Row, uncompressed: nat, resident: nat) | DeadLetter(entry: nat)

  datatype Batch = Batch(metadata: BatchMetadata, records: seq<Record>, ignored: nat)

  datatype Outcome =
    | BatchAccepted(metadata: BatchMetadata, deadLetters: seq<nat>, ignored: nat)
    | BatchDeferred(batch: Batch, capacity: Capacity)

  // ---------- what a batch brings ----------

  function RowsOf(metadata: BatchMetadata, records: seq<Record>): seq<SegmentRow> {
    if records == [] then []
    else
      var last := records[|records| - 1];
      var init := RowsOf(metadata, records[..|records| - 1]);
      if last.Accepted? then init + [SegmentRow(metadata, last.row, last.uncompressed, last.resident)] else init
  }

  function DeadLettersOf(records: seq<Record>): seq<nat> {
    if records == [] then []
    else
      var last := records[|records| - 1];
      var init := DeadLettersOf(records[..|records| - 1]);
      if last.DeadLetter? then init + [last.entry] else init
  }

  function BatchSize(batch: Batch, of: Capacity): nat {
    Sizes(RowsOf(batch.metadata, batch.records), of)
  }

  lemma {:induction false} RowsPrefixSizes(metadata: BatchMetadata, records: seq<Record>, n: nat, of: Capacity)
    requires n <= |records|
    ensures Sizes(RowsOf(metadata, records[..n]), of) <= Sizes(RowsOf(metadata, records), of)
    ensures |RowsOf(metadata, records[..n])| <= |RowsOf(metadata, records)|
    decreases |records|
  {
    if n == |records| {
      assert records[..n] == records;
    } else {
      var m := |records| - 1;
      RowsPrefixSizes(metadata, records[..m], n, of);
      assert records[..m][..n] == records[..n];
      var last := records[m];
      if last.Accepted? {
        SizesSnoc(RowsOf(metadata, records[..m]), SegmentRow(metadata, last.row, last.uncompressed, last.resident), of);
      }
    }
  }

  lemma RowsStep(metadata: BatchMetadata, records: seq<Record>, n: nat)
    requires n < |records|
    ensures var rows := RowsOf(metadata, records[..n]);
            RowsOf(metadata, records[..n + 1]) ==
            if records[n].Accepted?
            then rows + [SegmentRow(metadata, records[n].row, records[n].uncompressed, records[n].resident)] else rows
    ensures var letters := DeadLettersOf(records[..n]);
            DeadLettersOf(records[..n + 1]) == if records[n].DeadLetter? then letters + [records[n].entry] else letters
  {
    TakeSnoc(records, n + 1);
  }

  /** Adds up the estimates of a batch's rows, checking for overflow. */
  method PlanBatchRows(batch: Batch) returns (r: Result<(nat, nat, nat), BuildError>)
    ensures r == if BatchSize(batch, Staging) <= U64_MAX && BatchSize(batch, ResidentMemory) <= U64_MAX
                 then Success((BatchSize(batch, Staging), BatchSize(batch, ResidentMemory),
                               |RowsOf(batch.metadata, batch.records)|))
                 else Failure(EstimatedBytesOverflow)
  {
    hide Sizes, RowsOf, DeadLettersOf;
    NoRecords(batch);
    var uncompressed, resident, rows := 0, 0, 0;
    for n := 0 to |batch.records|
      invariant uncompressed == Sizes(RowsOf(batch.metadata, batch.records[..n]), Staging) <= U64_MAX
      invariant resident == Sizes(RowsOf(batch.metadata, batch.records[..n]), ResidentMemory) <= U64_MAX
      invariant rows == |RowsOf(batch.metadata, batch.records[..n])|
    {
      var record := batch.records[n];
      ghost var before := RowsOf(batch.metadata, batch.records[..n]);
      RowsStep(batch.metadata, batch.records, n);
      RowsPrefixSizes(batch.metadata, batch.records, n + 1, Staging);
      RowsPrefixSizes(batch.metadata, batch.records, n + 1, ResidentMemory);
      if record.DeadLetter? {
        continue;
      }
      SizesSnoc(before, SegmentRow(batch.metadata, record.row, record.uncompressed, record.resident), Staging);
      SizesSnoc(before, SegmentRow(batch.metadata, record.row, record.uncompressed, record.resident), ResidentMemory);
      uncompressed := uncompressed + record.uncompressed;
      if uncompressed > U64_MAX {
        return Failure(EstimatedBytesOverflow);
      }
      resident := resident + record.resident;
      if resident > U64_MAX {
        return Failure(EstimatedBytesOverflow);
      }
      rows := rows + 1;
    }
    assert batch.records[..|batch.records|] == batch.records;
    return Success((uncompressed, resident, rows));
  }

  // ---------- sealing one builder ----------

  /** The rows of a builder in stored order, with their bounds: the event times of the first and the last row, and
      running bounds of the ingestion times. */
  method SealSegment(segment: OpenSegment, key: SegmentKey, reason: SealingReason) returns (sealed: SealedSegment)
    requires segment.rows != []
    ensures SealOf(sealed, segment, key, reason)
  {
    var rows := StableSort(segment.rows, OrderOf);
    StableSortCorrect(segment.rows, OrderOf);
    assert |rows| == |multiset(rows)| == |segment.rows|;
    hide StableSort;
    var first, last := rows[0], rows[|rows| - 1];
    var least, most := first.row.ingestionTime, first.row.ingestionTime;
    ghost var leastAt, mostAt := 0, 0;
    for i := 1 to |rows|
      invariant 0 <= leastAt < i && least == rows[leastAt].row.ingestionTime
      invariant 0 <= mostAt < i && most == rows[mostAt].row.ingestionTime
      invariant forall k :: 0 <= k < i ==> least <= rows[k].row.ingestionTime <= most
    {
      if rows[i].row.ingestionTime < least {
        least, leastAt := rows[i].row.ingestionTime, i;
      }
      if rows[i].row.ingestionTime > most {
        most, mostAt := rows[i].row.ingestionTime, i;
      }
    }
    var bounds := TimeBounds(first.row.eventTime, last.row.eventTime, least, most);
    SortedBounds(rows, bounds, leastAt, mostAt);
    sealed := SealedSegment(key, bounds, rows, segment.uncompressed, segment.resident, reason);
  }

  lemma SortedBounds(rows: seq<SegmentRow>, bounds: TimeBounds, leastAt: nat, mostAt: nat)
    requires rows != [] && Sorted(rows, OrderOf) && leastAt < |rows| && mostAt < |rows|
    requires bounds == TimeBounds(rows[0].row.eventTime, rows[|rows| - 1].row.eventTime,
                                  rows[leastAt].row.ingestionTime, rows[mostAt].row.ingestionTime)
    requires forall k :: 0 <= k < |rows| ==> bounds.minIngestion <= rows[k].row.ingestionTime <= bounds.maxIngestion
    ensures Tight(bounds, PlainRows(rows))
  {
    var plain := PlainRows(rows);
    forall row | row in plain ensures Within(row, bounds) {
      var k :| 0 <= k < |plain| && plain[k] == row;
      assert k > 0 ==> AtMost(OrderOf(rows[0]), OrderOf(rows[k]));
      assert k < |rows| - 1 ==> AtMost(OrderOf(rows[k]), OrderOf(rows[|rows| - 1]));
    }
    assert plain[0] in plain && plain[|rows| - 1] in plain && plain[leastAt] in plain && plain[mostAt] in plain;
  }

  // ---------- keys in order ----------

  predicate KeyAtMost(a: SegmentKey, b: SegmentKey) {
    || a.sourceId < b.sourceId
    || (a.sourceId == b.sourceId && (a.schemaId < b.schemaId || (a.schemaId == b.schemaId && a.eventDay <= b.eventDay)))
  }

  method LeastKey(keys: set<SegmentKey>) returns (least: SegmentKey)
    requires keys != {}
    ensures least in keys && forall key :: key in keys ==> KeyAtMost(least, key)
  {
    least :| least in keys;
    var rest := keys - {least};
    while rest != {}
      invariant rest <= keys && least in keys
      invariant forall key :: key in keys && key !in rest ==> KeyAtMost(least, key)
      decreases |rest|
    {
      var key :| key in rest;
      rest := rest - {key};
      if !KeyAtMost(least, key) {
        assert KeyAtMost(key, least);
        least := key;
      }
    }
  }

  /** The least recently touched builder; among equals, the one with the least key. */
  method LeastRecentlyTouched(open: OpenMap) returns (least: SegmentKey)
    requires open != map[]
    ensures least in open && forall key :: key in open ==> open[least].touched <= open[key].touched
    ensures forall key :: key in open && open[key].touched == open[least].touched ==> KeyAtMost(least, key)
  {
    var some :| some in open;
    least := some;
    var rest := open.Keys - {least};
    while rest != {}
      invariant rest <= open.Keys && least in open
      invariant forall key :: key in open.Keys - rest ==> open[least].touched <= open[key].touched
      invariant forall key :: key in open.Keys - rest && open[key].touched == open[least].touched ==>
                  KeyAtMost(least, key)
      decreases |rest|
    {
      var key :| key in rest;
      rest := rest - {key};
      if open[key].touched < open[least].touched
          || (open[key].touched == open[least].touched && !KeyAtMost(least, key)) {
        least := key;
      }
    }
  }

  // ---------- the builders ----------

  /** No two builders were touched last by the same row, and none after the last one. */
  predicate TouchesOk(open: OpenMap, last: nat) {
    && (forall key :: key in open ==> open[key].touched <= last)
    && (forall a, b :: a in open && b in open && a != b ==> open[a].touched != open[b].touched)
  }

  predicate OpenedBy(open: OpenMap, observed: Option<int>) {
    forall key :: key in open ==> observed.Some? && open[key].openedAt <= observed.value
  }

  /** In order but for one builder that has just reached a target. */
  ghost predicate InOrderBut(h: Holdings, key: SegmentKey, limits: Limits) {
    && key in h.open && SealableOk(h.open[key], key, limits)
    && (forall other :: other in h.open && other != key ==> OpenOk(h.open[other], other, limits))
    && (forall i :: 0 <= i < |h.sealed| ==> SealedOk(h.sealed[i], limits))
  }

  lemma InOrderButAny(h: Holdings, key: SegmentKey, limits: Limits)
    requires InOrder(h, limits) && key in h.open
    ensures InOrderBut(h, key, limits)
  {
    hide SealedOk;
    assert OpenOk(h.open[key], key, limits);
  }

  lemma HasRows(h: Holdings, key: SegmentKey, limits: Limits)
    requires InOrderBut(h, key, limits)
    ensures key in h.open && h.open[key].rows != []
  {
  }

  lemma SealKeepsOrder(h: Holdings, key: SegmentKey, segment: SealedSegment, reason: SealingReason, limits: Limits)
    requires InOrderBut(h, key, limits) && SealOf(segment, h.open[key], key, reason)
    ensures var h' := Holdings(h.open - {key}, h.sealed + [segment]);
            && InOrder(h', limits) && HeldRows(h') == HeldRows(h)
            && (forall of :: HeldSizes(h', of) == HeldSizes(h, of))
  {
    hide SealOf, SealedOk, OpenOk, SealableOk, HeldRows, HeldSizes, InOrder;
    SealKeeps(h, key, segment, reason, limits);
  }

  /** By source, then by schema, then by day. */
  predicate Precedes(a: SegmentKey, b: SegmentKey) {
    if a.sourceId != b.sourceId then a.sourceId < b.sourceId
    else if a.schemaId != b.schemaId then a.schemaId < b.schemaId
    else a.eventDay < b.eventDay
  }

  lemma AtMostPrecedes(a: SegmentKey, b: SegmentKey)
    ensures KeyAtMost(a, b) && a != b <==> Precedes(a, b)
  {
  }

  /** The segments sealed from `keys`, in key order. */
  ghost predicate SealsOf(added: seq<SealedSegment>, open: OpenMap, keys: set<SegmentKey>, reason: SealingReason) {
    && (forall i :: 0 <= i < |added| ==>
          added[i].key in keys && added[i].key in open && SealOf(added[i], open[added[i].key], added[i].key, reason))
    && (forall i, j :: 0 <= i < j < |added| ==> Precedes(added[i].key, added[j].key))
    && (forall key :: key in keys ==> exists i :: 0 <= i < |added| && added[i].key == key)
  }

  predicate ComesBefore(added: seq<SealedSegment>, keys: set<SegmentKey>) {
    forall i, key :: 0 <= i < |added| && key in keys ==> KeyAtMost(added[i].key, key)
  }

  lemma NothingSealed(open: OpenMap, reason: SealingReason)
    ensures SealsOf([], open, {}, reason)
  {
  }

  lemma MoreComeBefore(added: seq<SealedSegment>, segment: SealedSegment, keys: set<SegmentKey>, key: SegmentKey,
                       reason: SealingReason, open: OpenMap)
    requires ComesBefore(added, keys) && key in open && SealOf(segment, open[key], key, reason)
    requires forall other :: other in keys ==> KeyAtMost(key, other)
    ensures ComesBefore(added + [segment], keys - {key})
  {
    assert segment.key == key;
    hide SealOf, KeyAtMost;
  }

  class SegmentBuilders {
    const limits: Limits
    var open: OpenMap
    var sealed: seq<SealedSegment>
    var resident: nat
    var staging: nat
    var accessSequence: nat
    var lastObserved: Option<int>
    // Every row ever pushed, and every row handed over in a sealed segment.
    ghost var pushed: multiset<SegmentRow>
    ghost var taken: multiset<SegmentRow>

    ghost function Held(): Holdings
      reads this
    {
      Holdings(open, sealed)
    }

    /** Both byte totals are exact and within budget, and no row is lost or doubled. */
    ghost predicate Balanced()
      reads this
    {
      && resident == HeldSizes(Held(), ResidentMemory) <= limits.maxResident
      && staging == HeldSizes(Held(), Staging) <= limits.maxStaging
      && pushed == HeldRows(Held()) + taken
    }

    /** The builders are few enough, and their ages and touches make sense. */
    ghost predicate Bounded()
      reads this
    {
      && ValidLimits(limits) && |open| <= limits.maxOpen && accessSequence <= U64_MAX
      && TouchesOk(open, accessSequence) && OpenedBy(open, lastObserved)
    }

    ghost predicate Valid()
      reads this
    {
      Balanced() && Bounded() && InOrder(Held(), limits)
    }

    constructor (limits: Limits)
      requires ValidLimits(limits)
      ensures Valid() && this.limits == limits && pushed == multiset{} && taken == multiset{}
      ensures open == map[] && sealed == [] && accessSequence == 0 && lastObserved == None
    {
      this.limits := limits;
      open, sealed, resident, staging, accessSequence, lastObserved := map[], [], 0, 0, 0, None;
      pushed, taken := multiset{}, multiset{};
      new;
      NothingHeld();
    }

    /** Moves one builder to the queue of sealed segments. */
    method Seal(key: SegmentKey, reason: SealingReason)
      requires Balanced() && Bounded() && InOrderBut(Held(), key, limits)
      modifies this`open, this`sealed
      ensures Valid()
      ensures open == old(open) - {key} && |sealed| == |old(sealed)| + 1 && sealed[..|old(sealed)|] == old(sealed)
      ensures SealOf(sealed[|old(sealed)|], old(open)[key], key, reason)
    {
      hide SealOf, HeldRows, HeldSizes, InOrder, InOrderBut, TouchesOk, OpenedBy;
      HasRows(Held(), key, limits);
      var segment := SealSegment(open[key], key, reason);
      SealKeepsOrder(Held(), key, segment, reason, limits);
      FewerKeys(open, key);
      FewerTouches(open, key, accessSequence, lastObserved);
      open := open - {key};
      sealed := sealed + [segment];
    }

    /** Seals the given builders in key order. */
    method SealKeys(keys: set<SegmentKey>, reason: SealingReason)
      requires Valid() && keys <= open.Keys
      modifies this`open, this`sealed
      ensures Valid()
      ensures open == old(open) - keys && |sealed| >= |old(sealed)| && sealed[..|old(sealed)|] == old(sealed)
      ensures SealsOf(sealed[|old(sealed)|..], old(open), keys, reason)
    {
      hide SealOf, InOrder, InOrderBut, SealsOf, KeyAtMost, SegmentBuilders.Balanced, SegmentBuilders.Bounded;
      NothingSealed(open, reason);
      var rest := keys;
      ghost var n := |sealed|;
      assert sealed[n..] == [] && keys - rest == {};
      while rest != {}
        invariant Valid() && rest <= keys && rest <= open.Keys
        invariant open == old(open) - (keys - rest)
        invariant |sealed| >= n && sealed[..n] == old(sealed)
        invariant SealsOf(sealed[n..], old(open), keys - rest, reason)
        invariant ComesBefore(sealed[n..], rest)
        decreases |rest|
      {
        var key := LeastKey(rest);
        InOrderButAny(Held(), key, limits);
        ghost var before := sealed;
        Seal(key, reason);
        SealedTail(before, sealed, n);
        SealedLess(old(open), keys, rest, key);
        SealsMore(before[n..], sealed[|before|], old(open), keys - rest, key, reason);
        MoreComeBefore(before[n..], sealed[|before|], rest, key, reason, old(open));
        rest := rest - {key};
      }
      assert keys - rest == keys;
    }

    /** Refuses a clock that runs backwards. */
    method ObserveTime(at: int) returns (r: Result<(), BuildError>)
      requires Valid()
      modifies this`lastObserved
      ensures Valid()
      ensures r == if old(lastObserved).Some? && at < old(lastObserved).value then Failure(ClockMovedBackwards)
                   else Success(())
      ensures lastObserved == if r.Success? then Some(at) else old(lastObserved)
    {
      hide HeldRows, HeldSizes, InOrder, TouchesOk;
      if lastObserved.Some? && at < lastObserved.value {
        return Failure(ClockMovedBackwards);
      }
      lastObserved := Some(at);
      return Success(());
    }

    /** Seals every builder that has been open for the maximal duration. */
    method SealExpiredAt(at: int) returns (count: nat)
      requires Valid()
      modifies this`open, this`sealed
      ensures Valid()
      ensures var expired := set key | key in old(open) && at - old(open)[key].openedAt >= limits.maxOpenDuration;
              && count == |expired| && open == old(open) - expired
              && |sealed| >= |old(sealed)| && sealed[..|old(sealed)|] == old(sealed)
              && SealsOf(sealed[|old(sealed)|..], old(open), expired, MaximumAge)
    {
      hide SegmentBuilders.Balanced, SegmentBuilders.Bounded, InOrder, SealsOf;
      var keys := Expired(open, at, limits.maxOpenDuration);
      SealKeys(keys, MaximumAge);
      return |keys|;
    }

    /** Seals every open builder. */
    method SealAll(reason: SealingReason) returns (count: nat)
      requires Valid()
      modifies this`open, this`sealed
      ensures Valid() && open == map[] && count == |old(open)|
      ensures |sealed| >= |old(sealed)| && sealed[..|old(sealed)|] == old(sealed)
      ensures SealsOf(sealed[|old(sealed)|..], old(open), old(open).Keys, reason)
    {
      hide SegmentBuilders.Balanced, SegmentBuilders.Bounded, InOrder, SealsOf;
      count := |open|;
      var keys := open.Keys;
      SealKeys(keys, reason);
    }

    method SealExpired(at: int) returns (r: Result<nat, BuildError>)
      requires Valid()
      modifies this`lastObserved, this`open, this`sealed
      ensures Valid()
      ensures r.Success? <==> !(old(lastObserved).Some? && at < old(lastObserved).value)
      ensures r.Success? ==>
                var expired := set key | key in old(open) && at - old(open)[key].openedAt >= limits.maxOpenDuration;
                && lastObserved == Some(at) && r.value == |expired| && open == old(open) - expired
                && NoneExpired(open, at, limits.maxOpenDuration)
                && |sealed| >= |old(sealed)| && sealed[..|old(sealed)|] == old(sealed)
                && SealsOf(sealed[|old(sealed)|..], old(open), expired, MaximumAge)
      ensures r.Failure? ==> open == old(open) && sealed == old(sealed) && lastObserved == old(lastObserved)
    {
      hide SegmentBuilders.Balanced, SegmentBuilders.Bounded, InOrder, SealsOf;
      var observed := ObserveTime(at);
      if observed.Failure? {
        return Failure(observed.error);
      }
      var count := SealExpiredAt(at);
      return Success(count);
    }

    method FlushAll() returns (count: nat)
      requires Valid()
      modifies this`open, this`sealed
      ensures Valid() && open == map[] && count == |old(open)|
      ensures |sealed| >= |old(sealed)| && sealed[..|old(sealed)|] == old(sealed)
      ensures SealsOf(sealed[|old(sealed)|..], old(open), old(open).Keys, Flush)
    {
      hide SegmentBuilders.Balanced, SegmentBuilders.Bounded, InOrder, SealsOf;
      count := SealAll(Flush);
    }

    /** Hands over the oldest sealed segment with its rows and its share of both totals. */
    method TakeNextSealed() returns (segment: Option<SealedSegment>)
      requires Valid()
      modifies this`sealed, this`resident, this`staging, this`taken
      ensures Valid()
      ensures if old(sealed) == [] then segment == None && sealed == [] && taken == old(taken)
              else
                && segment == Some(old(sealed)[0]) && sealed == old(sealed)[1..]
                && SealedOk(segment.value, limits) && taken == old(taken) + multiset(segment.value.rows)
      ensures segment.Some? ==>
                var key, rows := segment.value.key, segment.value.rows;
                && (forall i :: 0 <= i < |rows| ==>
                      && rows[i].batch.sourceId == key.sourceId && rows[i].batch.schemaId == key.schemaId
                      && InDay(rows[i].row, key.eventDay))
                && (forall i, j :: 0 <= i < j < |rows| ==>
                      || rows[i].row.eventTime < rows[j].row.eventTime
                      || (rows[i].row.eventTime == rows[j].row.eventTime
                          && rows[i].row.eventId <= rows[j].row.eventId))
    {
      hide TouchesOk, OpenedBy, HeldRows, HeldSizes, SealedOk, OpenOk;
      if sealed == [] {
        return None;
      }
      TakeKeeps(Held(), limits);
      var first := sealed[0];
      SealedInOrder(first, limits);
      resident := resident - first.resident;
      staging := staging - first.uncompressed;
      sealed := sealed[1..];
      taken := taken + multiset(first.rows);
      return Some(first);
    }

    // ---------- pushing ----------

    /** Makes room for a row: seals its builder when the row would push it past the byte target, or the least recently
        touched one when a new builder would be one too many. */
    method MakeRoom(row: SegmentRow) returns (r: Result<(), BuildError>)
      requires Valid() && staging + row.uncompressed <= limits.maxStaging
      modifies this`open, this`sealed
      ensures Valid() && r == Success(())
      ensures RoomFor(open, row, KeyFor(row), limits) && MadeRoom(old(Held()), Held(), row, KeyFor(row), limits)
    {
      hide SegmentBuilders.Balanced, InOrder, InOrderBut, SealOf, KeyAtMost, TouchesOk, OpenedBy;
      var key := KeyFor(row);
      SumsFit(row);
      var projected := BuilderSum(open, key, row, Staging);
      if projected.Failure? {
        return Failure(EstimatedBytesOverflow);
      }
      if key in open && projected.value > limits.targetBytes {
        InOrderButAny(Held(), key, limits);
        FewerKeys(open, key);
        Seal(key, ByteTarget);
        assert Evicts(old(Held()), Held(), key, row, key, limits);
      } else if key !in open && |open| == limits.maxOpen {
        var oldest := LeastRecentlyTouched(open);
        InOrderButAny(Held(), oldest, limits);
        FewerKeys(open, oldest);
        Seal(oldest, BuilderLimit);
        assert Evicts(old(Held()), Held(), oldest, row, key, limits);
      }
      return Success(());
    }

    /** What a row would make of its builder's sizes stays within the budgets, and so within 64 bits. */
    lemma SumsFit(row: SegmentRow)
      requires Balanced() && ValidLimits(limits)
      ensures staging + row.uncompressed <= limits.maxStaging ==> BuilderSum(open, KeyFor(row), row, Staging).Success?
      ensures resident + row.resident <= limits.maxResident ==>
                BuilderSum(open, KeyFor(row), row, ResidentMemory).Success?
    {
      hide HeldRows, HeldSizes;
      if KeyFor(row) in open {
        BuilderWithinTotals(Held(), KeyFor(row));
      }
    }

    /** Puts a row into its builder. */
    method AddRow(row: SegmentRow, at: int) returns (r: Result<(), BuildError>)
      requires Valid() && RoomFor(open, row, KeyFor(row), limits)
      requires lastObserved == Some(at) && accessSequence < U64_MAX
      requires resident + row.resident <= limits.maxResident && staging + row.uncompressed <= limits.maxStaging
      modifies this`open, this`resident, this`staging, this`accessSequence, this`pushed
      ensures r == Success(()) && Balanced() && Bounded() && InOrderBut(Held(), KeyFor(row), limits)
      ensures accessSequence == old(accessSequence) + 1 && open == Added(old(open), row, at, accessSequence)
      ensures resident == old(resident) + row.resident && staging == old(staging) + row.uncompressed
      ensures pushed == old(pushed) + multiset{row}
    {
      hide HeldRows, HeldSizes, InOrder, InOrderBut, TouchesOk, OpenedBy, Added, BuilderSum, RoomFor;
      SumsFit(row);
      r := AddedSums(open, KeyFor(row), row, resident, staging, accessSequence);
      if r.Failure? {
        return;
      }
      AddKeepsOrder(Held(), row, at, accessSequence + 1, limits);
      AddTouches(open, row, at, accessSequence, limits);
      accessSequence := accessSequence + 1;
      open := Added(open, row, at, accessSequence);
      resident := resident + row.resident;
      staging := staging + row.uncompressed;
      pushed := pushed + multiset{row};
      return Success(());
    }

    /** Adds one row and seals its builder when it has reached a target. */
    method PushRow(row: SegmentRow, at: int) returns (r: Result<(), BuildError>)
      requires Valid() && lastObserved == Some(at) && accessSequence < U64_MAX
      requires resident + row.resident <= limits.maxResident && staging + row.uncompressed <= limits.maxStaging
      modifies this`open, this`sealed, this`resident, this`staging, this`accessSequence, this`pushed
      ensures Valid() && r == Success(())
      ensures accessSequence == old(accessSequence) + 1 && pushed == old(pushed) + multiset{row}
      ensures resident == old(resident) + row.resident && staging == old(staging) + row.uncompressed
      ensures WentIn(old(Held()), Held(), row, at, accessSequence, limits)
    {
      hide SegmentBuilders.Balanced, SegmentBuilders.Bounded, InOrder, InOrderBut, SealOf, RoomFor, Added, Grown,
        MadeRoom, Evicts, Belongs;
      r := MakeRoom(row);
      if r.Failure? {
        return;
      }
      ghost var room := Held();
      AddedIsGrown(open, row, at, accessSequence + 1);
      r := AddRow(row, at);
      if r.Failure? {
        return;
      }
      var key := KeyFor(row);
      HasRows(Held(), key, limits);
      if |open[key].rows| >= limits.targetRows {
        Seal(key, RowTarget);
      } else if open[key].uncompressed >= limits.targetBytes {
        Seal(key, ByteTarget);
      } else {
        BelowTargets(Held(), key, limits);
      }
      assert Settled(room, Held(), row, key, at, accessSequence, limits);
    }

    /** Pushes the accepted rows of a batch, one after the other. */
    method PushRows(batch: Batch, at: int) returns (r: Result<seq<nat>, BuildError>)
      requires Valid() && lastObserved == Some(at)
      requires accessSequence + |RowsOf(batch.metadata, batch.records)| <= U64_MAX
      requires resident + BatchSize(batch, ResidentMemory) <= limits.maxResident
      requires staging + BatchSize(batch, Staging) <= limits.maxStaging
      modifies this`open, this`sealed, this`resident, this`staging, this`accessSequence, this`pushed
      ensures Valid() && r == Success(DeadLettersOf(batch.records))
      ensures pushed == old(pushed) + multiset(RowsOf(batch.metadata, batch.records))
      ensures resident == old(resident) + BatchSize(batch, ResidentMemory)
      ensures staging == old(staging) + BatchSize(batch, Staging)
      ensures |sealed| >= |old(sealed)| && sealed[..|old(sealed)|] == old(sealed)
      ensures AllWentIn(old(Held()), Held(), RowsOf(batch.metadata, batch.records), at, old(accessSequence), limits)
    {
      hide SegmentBuilders.Balanced, SegmentBuilders.Bounded, InOrder, Sizes, RowsOf, DeadLettersOf, WentIn;
      var deadLetters := [];
      NoRecords(batch);
      for n := 0 to |batch.records|
        invariant Valid() && lastObserved == Some(at)
        invariant deadLetters == DeadLettersOf(batch.records[..n])
        invariant pushed == old(pushed) + multiset(RowsOf(batch.metadata, batch.records[..n]))
        invariant accessSequence == old(accessSequence) + |RowsOf(batch.metadata, batch.records[..n])|
        invariant resident == old(resident) + Sizes(RowsOf(batch.metadata, batch.records[..n]), ResidentMemory)
        invariant staging == old(staging) + Sizes(RowsOf(batch.metadata, batch.records[..n]), Staging)
        invariant |sealed| >= |old(sealed)| && sealed[..|old(sealed)|] == old(sealed)
        invariant AllWentIn(old(Held()), Held(), RowsOf(batch.metadata, batch.records[..n]), at, old(accessSequence),
                            limits)
      {
        RowsStep(batch.metadata, batch.records, n);
        match batch.records[n] {
          case DeadLetter(entry) => deadLetters := deadLetters + [entry];
          case Accepted(row, uncompressed, size) =>
            var next := SegmentRow(batch.metadata, row, uncompressed, size);
            RowsPrefixSizes(batch.metadata, batch.records, n + 1, Staging);
            RowsPrefixSizes(batch.metadata, batch.records, n + 1, ResidentMemory);
            SizesSnoc(RowsOf(batch.metadata, batch.records[..n]), next, Staging);
            SizesSnoc(RowsOf(batch.metadata, batch.records[..n]), next, ResidentMemory);
            ghost var before := sealed;
            ghost var held := Held();
            var pushed := PushRow(next, at);
            if pushed.Failure? {
              return Unbuilt(pushed);
            }
            QueueGrows(held, Held(), next, at, accessSequence, limits);
            OneMoreWentIn(old(Held()), held, Held(), RowsOf(batch.metadata, batch.records[..n]), next, at,
                          old(accessSequence), limits);
            assert sealed[..|before|][..|old(sealed)|] == sealed[..|old(sealed)|];
        }
      }
      assert batch.records[..|batch.records|] == batch.records;
      return Success(deadLetters);
    }

    /** Adds a batch, or hands it back when queued segments must drain first. Past the checks of time, size and
        access count every row goes in: nothing can fail midway. */
    method PushBatch(batch: Batch, at: int) returns (r: Result<Outcome, BuildError>)
      requires Valid()
      modifies this`lastObserved, this`open, this`sealed, this`resident, this`staging, this`accessSequence, this`pushed
      ensures Valid()
      ensures r == Failure(ClockMovedBackwards) <==> old(lastObserved).Some? && at < old(lastObserved).value
      ensures r != Failure(ClockMovedBackwards) ==>
                r == Verdict(batch, old(resident), old(staging), old(accessSequence), limits)
      ensures r.Success? && r.value.BatchAccepted? ==>
                && pushed == old(pushed) + multiset(RowsOf(batch.metadata, batch.records))
                && resident == old(resident) + BatchSize(batch, ResidentMemory)
                && staging == old(staging) + BatchSize(batch, Staging)
      ensures !(r.Success? && r.value.BatchAccepted?) ==>
                pushed == old(pushed) && resident == old(resident) && staging == old(staging)
                && accessSequence == old(accessSequence)
      ensures r.Success? && r.value.BatchDeferred? ==> open == map[]
      ensures lastObserved == if r == Failure(ClockMovedBackwards) then old(lastObserved) else Some(at)
      ensures if r == Failure(ClockMovedBackwards) then Held() == old(Held())
              else TookBatch(old(Held()), Held(), batch, r, at, old(accessSequence), limits)
      ensures |sealed| >= |old(sealed)| && sealed[..|old(sealed)|] == old(sealed)
    {
      hide SegmentBuilders.Balanced, SegmentBuilders.Bounded, InOrder, Sizes, RowsOf, DeadLettersOf, SealsOf, AllWentIn;
      var observed := ObserveTime(at);
      if observed.Failure? {
        return Failure(ClockMovedBackwards);
      }
      var expired := SealExpiredAt(at);
      ghost var aged := Held();
      assert SealedExpired(old(Held()), aged, at, limits.maxOpenDuration);
      var planned := PlanBatchRows(batch);
      if planned.Failure? {
        return Failure(planned.error);
      }
      var (uncompressed, size, rows) := planned.value;
      if size > limits.maxResident {
        return Failure(BatchExceedsCapacity(ResidentMemory));
      }
      if uncompressed > limits.maxStaging {
        return Failure(BatchExceedsCapacity(Staging));
      }
      if resident + size > U64_MAX || staging + uncompressed > U64_MAX {
        return Failure(EstimatedBytesOverflow);
      }
      if resident + size > limits.maxResident {
        var count := SealAll(CapacityPressure(ResidentMemory));
        return Success(BatchDeferred(batch, ResidentMemory));
      } else if staging + uncompressed > limits.maxStaging {
        var count := SealAll(CapacityPressure(Staging));
        return Success(BatchDeferred(batch, Staging));
      }
      if accessSequence + rows > U64_MAX {
        return Failure(AccessSequenceExhausted);
      }
      var deadLetters := PushRows(batch, at);
      return Built(deadLetters, batch);
    }
  }

  /** What is left of a batch when one of its rows cannot be added. */
  function Unbuilt(r: Result<(), BuildError>): Result<seq<nat>, BuildError> {
    if r.Failure? then Failure(r.error) else Success([])
  }

  function Built(deadLetters: Result<seq<nat>, BuildError>, batch: Batch): Result<Outcome, BuildError> {
    if deadLetters.Failure? then Failure(deadLetters.error)
    else Success(BatchAccepted(batch.metadata, deadLetters.value, batch.ignored))
  }

  function CheckedSum(a: nat, b: nat): Result<nat, BuildError> {
    if a + b > U64_MAX then Failure(EstimatedBytesOverflow) else Success(a + b)
  }

  /** The size of the row's builder with the row in it, in 64 bits. */
  function BuilderSum(open: OpenMap, key: SegmentKey, row: SegmentRow, of: Capacity): Result<nat, BuildError> {
    if key in open then CheckedSum(OpenSize(open[key], of), Size(row, of)) else Success(Size(row, of))
  }

  /** The first of the sums of adding a row that leaves 64 bits, if there is one. */
  function AddedSums(open: OpenMap, key: SegmentKey, row: SegmentRow, resident: nat, staging: nat, accessSequence: nat)
    : Result<(), BuildError>
  {
    if accessSequence + 1 > U64_MAX then Failure(AccessSequenceExhausted)
    else if BuilderSum(open, key, row, Staging).Failure? then Failure(EstimatedBytesOverflow)
    else if BuilderSum(open, key, row, ResidentMemory).Failure? then Failure(EstimatedBytesOverflow)
    else if CheckedSum(resident, row.resident).Failure? then Failure(EstimatedBytesOverflow)
    else if CheckedSum(staging, row.uncompressed).Failure? then Failure(EstimatedBytesOverflow)
    else Success(())
  }

  /** What becomes of a batch once the clock is right, as the totals and limits decide it. */
  function Verdict(batch: Batch, resident: nat, staging: nat, accessSequence: nat,
                   limits: Limits): Result<Outcome, BuildError>
  {
    var size, uncompressed := BatchSize(batch, ResidentMemory), BatchSize(batch, Staging);
    if size > U64_MAX || uncompressed > U64_MAX then Failure(EstimatedBytesOverflow)
    else if size > limits.maxResident then Failure(BatchExceedsCapacity(ResidentMemory))
    else if uncompressed > limits.maxStaging then Failure(BatchExceedsCapacity(Staging))
    else if resident + size > U64_MAX || staging + uncompressed > U64_MAX then Failure(EstimatedBytesOverflow)
    else if resident + size > limits.maxResident then Success(BatchDeferred(batch, ResidentMemory))
    else if staging + uncompressed > limits.maxStaging then Success(BatchDeferred(batch, Staging))
    else if accessSequence + |RowsOf(batch.metadata, batch.records)| > U64_MAX then Failure(AccessSequenceExhausted)
    else Success(BatchAccepted(batch.metadata, DeadLettersOf(batch.records), batch.ignored))
  }

  /** A batch that was deferred is accepted once nothing is held, unless the access count is exhausted. */
  lemma DeferredFitsEmpty(batch: Batch, resident: nat, staging: nat, accessSequence: nat, limits: Limits)
    requires var verdict := Verdict(batch, resident, staging, accessSequence, limits);
             verdict.Success? && verdict.value.BatchDeferred?
    requires accessSequence + |RowsOf(batch.metadata, batch.records)| <= U64_MAX
    ensures var verdict := Verdict(batch, 0, 0, accessSequence, limits);
            verdict.Success? && verdict.value.BatchAccepted?
  {
  }

  /** Drains the sealed queue and pushes the deferred batch again. */
  method DrainAndRetry(builders: SegmentBuilders, batch: Batch, at: int, ghost resident: nat, ghost staging: nat)
    returns (drained: seq<SealedSegment>, r: Result<Outcome, BuildError>)
    requires builders.Valid() && builders.open == map[]
    requires builders.lastObserved.Some? && at >= builders.lastObserved.value
    requires builders.accessSequence + |RowsOf(batch.metadata, batch.records)| <= U64_MAX
    requires var verdict := Verdict(batch, resident, staging, builders.accessSequence, builders.limits);
             verdict.Success? && verdict.value.BatchDeferred?
    modifies builders
    ensures builders.Valid() && drained == old(builders.sealed)
    ensures r.Success? && r.value.BatchAccepted?
    ensures builders.pushed == old(builders.pushed) + multiset(RowsOf(batch.metadata, batch.records))
  {
    hide SegmentBuilders.Bounded, SegmentBuilders.Balanced, InOrder, Verdict, BatchSize, RowsOf, SealedOk;
    drained := [];
    while builders.sealed != []
      invariant builders.Valid() && builders.open == map[] && builders.pushed == old(builders.pushed)
      invariant builders.lastObserved == old(builders.lastObserved)
                && builders.accessSequence == old(builders.accessSequence)
      invariant drained + builders.sealed == old(builders.sealed)
      decreases |builders.sealed|
    {
      var segment := builders.TakeNextSealed();
      drained := drained + [segment.value];
    }
    NothingIsHeld(builders);
    DeferredFitsEmpty(batch, resident, staging, builders.accessSequence, builders.limits);
    r := builders.PushBatch(batch, at);
  }

  lemma SealedInOrder(segment: SealedSegment, limits: Limits)
    requires SealedOk(segment, limits)
    ensures forall i :: 0 <= i < |segment.rows| ==> Belongs(segment.rows[i], segment.key)
    ensures forall i, j :: 0 <= i < j < |segment.rows| ==>
              || segment.rows[i].row.eventTime < segment.rows[j].row.eventTime
              || (segment.rows[i].row.eventTime == segment.rows[j].row.eventTime
                  && segment.rows[i].row.eventId <= segment.rows[j].row.eventId)
  {
    hide Tight, Sizes, Belongs;
    var rows := PlainRows(segment.rows);
    assert forall i :: 0 <= i < |rows| ==> rows[i] == segment.rows[i].row;
  }

  lemma NothingIsHeld(builders: SegmentBuilders)
    requires builders.Valid() && builders.open == map[] && builders.sealed == []
    ensures builders.resident == 0 && builders.staging == 0
  {
    hide SegmentBuilders.Bounded, InOrder;
    NothingHeld();
  }

  lemma NoRecords(batch: Batch)
    ensures RowsOf(batch.metadata, batch.records[..0]) == [] && DeadLettersOf(batch.records[..0]) == []
    ensures forall of :: Sizes([], of) == 0
  {
  }

  /** The builders that have been open for the maximal duration. */
  function Expired(open: OpenMap, at: int, duration: nat): set<SegmentKey> {
    set key | key in open && at - open[key].openedAt >= duration
  }

  predicate NoneExpired(open: OpenMap, at: int, duration: nat) {
    forall key :: key in open ==> at - open[key].openedAt < duration
  }

  /** A row can go in without passing the byte target of its builder or the number of builders. */
  predicate RoomFor(open: OpenMap, row: SegmentRow, key: SegmentKey, limits: Limits) {
    if key in open then open[key].uncompressed + row.uncompressed <= limits.targetBytes
    else |open| < limits.maxOpen
  }

  /** One builder was sealed: the row's own, or the least recently touched of as many as there may be. */
  ghost predicate Evicts(
      h: Holdings, h': Holdings, evicted: SegmentKey, row: SegmentRow, key: SegmentKey, limits: Limits)
  {
    && evicted in h.open && h'.open == h.open - {evicted} && Queues(h, h')
    && (if key in h.open then evicted == key else |h.open| == limits.maxOpen && IsLeastTouched(h.open, evicted))
    && SealOf(h'.sealed[|h.sealed|], h.open[evicted], evicted, if evicted == key then ByteTarget else BuilderLimit)
  }

  predicate Queues(h: Holdings, h': Holdings) {
    |h'.sealed| == |h.sealed| + 1 && h'.sealed[..|h.sealed|] == h.sealed
  }

  /** A builder is sealed only when the row has no room, and then just one. */
  ghost predicate MadeRoom(h: Holdings, h': Holdings, row: SegmentRow, key: SegmentKey, limits: Limits) {
    if RoomFor(h.open, row, key, limits) then h' == h
    else exists evicted :: Evicts(h, h', evicted, row, key, limits)
  }

  /** The row is the last of its builder, which is sealed exactly when it has reached a target. */
  ghost predicate Settled(
      h: Holdings, h': Holdings, row: SegmentRow, key: SegmentKey, at: int, touched: nat, limits: Limits)
  {
    var grown := Grown(h.open, key, row, at, touched);
    if |grown.rows| >= limits.targetRows || grown.uncompressed >= limits.targetBytes then
      && h'.open == h.open - {key} && Queues(h, h')
      && SealOf(h'.sealed[|h.sealed|], grown, key, if |grown.rows| >= limits.targetRows then RowTarget else ByteTarget)
    else h' == Holdings(h.open[key := grown], h.sealed)
  }

  /** The row went into the builder it belongs to, after room was made for it. */
  ghost predicate WentIn(h: Holdings, h': Holdings, row: SegmentRow, at: int, touched: nat, limits: Limits) {
    exists room, key ::
      Belongs(row, key) && MadeRoom(h, room, row, key, limits) && Settled(room, h', row, key, at, touched, limits)
  }

  /** The rows went in one after the other. */
  ghost predicate AllWentIn(h: Holdings, h': Holdings, rows: seq<SegmentRow>, at: int, touched: nat, limits: Limits)
    decreases |rows|
  {
    if rows == [] then h' == h
    else
      var n := |rows| - 1;
      exists before ::
        && AllWentIn(h, before, rows[..n], at, touched, limits)
        && WentIn(before, h', rows[n], at, touched + |rows|, limits)
  }

  /** Exactly the builders that have been open for the duration were sealed, for their age. */
  ghost predicate SealedExpired(h: Holdings, h': Holdings, at: int, duration: nat) {
    var expired := set key | key in h.open && at - h.open[key].openedAt >= duration;
    && h'.open == h.open - expired && |h'.sealed| >= |h.sealed| && h'.sealed[..|h.sealed|] == h.sealed
    && SealsOf(h'.sealed[|h.sealed|..], h.open, expired, MaximumAge)
  }

  ghost predicate SealedAll(h: Holdings, h': Holdings, reason: SealingReason) {
    && h'.open == map[] && |h'.sealed| >= |h.sealed| && h'.sealed[..|h.sealed|] == h.sealed
    && SealsOf(h'.sealed[|h.sealed|..], h.open, h.open.Keys, reason)
  }

  /** What a batch does once the clock is right: expired builders are sealed first. A batch that is refused does
      nothing more, a deferred one has everything sealed, and the rows of an accepted one go in. */
  ghost predicate TookBatch(h: Holdings, h': Holdings, batch: Batch, r: Result<Outcome, BuildError>, at: int,
                            touched: nat, limits: Limits)
  {
    exists aged ::
      SealedExpired(h, aged, at, limits.maxOpenDuration) && WentOn(aged, h', batch, r, at, touched, limits)
  }

  ghost predicate WentOn(h: Holdings, h': Holdings, batch: Batch, r: Result<Outcome, BuildError>, at: int,
                         touched: nat, limits: Limits)
  {
    match r
    case Failure(_) => h' == h
    case Success(BatchDeferred(_, capacity)) => SealedAll(h, h', CapacityPressure(capacity))
    case Success(BatchAccepted(_, _, _)) =>
      AllWentIn(h, h', RowsOf(batch.metadata, batch.records), at, touched, limits)
  }

  lemma OneMoreWentIn(h: Holdings, before: Holdings, h': Holdings, rows: seq<SegmentRow>, row: SegmentRow, at: int,
                      touched: nat, limits: Limits)
    requires AllWentIn(h, before, rows, at, touched, limits)
    requires WentIn(before, h', row, at, touched + |rows| + 1, limits)
    ensures AllWentIn(h, h', rows + [row], at, touched, limits)
  {
    hide WentIn;
    assert (rows + [row])[..|rows|] == rows;
  }

  lemma QueueGrows(h: Holdings, h': Holdings, row: SegmentRow, at: int, touched: nat, limits: Limits)
    requires WentIn(h, h', row, at, touched, limits)
    ensures |h'.sealed| >= |h.sealed| && h'.sealed[..|h.sealed|] == h.sealed
  {
    hide SealOf, Grown, RoomFor;
    var room, key :|
      Belongs(row, key) && MadeRoom(h, room, row, key, limits) && Settled(room, h', row, key, at, touched, limits);
    assert h'.sealed[..|room.sealed|][..|h.sealed|] == h'.sealed[..|h.sealed|];
  }

  predicate IsLeastTouched(open: OpenMap, least: SegmentKey) {
    least in open && forall key :: key in open ==> open[least].touched <= open[key].touched
  }

  lemma AddKeepsOrder(h: Holdings, row: SegmentRow, at: int, touched: nat, limits: Limits)
    requires InOrder(h, limits) && ValidLimits(limits) && RoomFor(h.open, row, KeyFor(row), limits)
    ensures var h' := Holdings(Added(h.open, row, at, touched), h.sealed);
            && InOrderBut(h', KeyFor(row), limits)
            && HeldRows(h') == HeldRows(h) + multiset{row}
            && HeldSizes(h', Staging) == HeldSizes(h, Staging) + row.uncompressed
            && HeldSizes(h', ResidentMemory) == HeldSizes(h, ResidentMemory) + row.resident
  {
    hide HeldRows, HeldSizes, SealedOk, OpenOk, SealableOk;
    AddKeeps(h, row, at, touched, limits);
  }

  lemma AddTouches(open: OpenMap, row: SegmentRow, at: int, last: nat, limits: Limits)
    requires TouchesOk(open, last) && OpenedBy(open, Some(at))
    requires |open| <= limits.maxOpen && RoomFor(open, row, KeyFor(row), limits)
    ensures var open' := Added(open, row, at, last + 1);
            TouchesOk(open', last + 1) && OpenedBy(open', Some(at)) && |open'| <= limits.maxOpen
  {
    var key := KeyFor(row);
    var open' := Added(open, row, at, last + 1);
    assert open'.Keys == open.Keys + {key};
    assert |open| == |open.Keys| && |open'| == |open'.Keys|;
    if key in open {
      assert open'.Keys == open.Keys;
    }
  }

  lemma BelowTargets(h: Holdings, key: SegmentKey, limits: Limits)
    requires InOrderBut(h, key, limits)
    requires |h.open[key].rows| < limits.targetRows && h.open[key].uncompressed < limits.targetBytes
    ensures InOrder(h, limits)
  {
    hide SealedOk;
  }

  lemma SealHasKey(sealed: SealedSegment, segment: OpenSegment, key: SegmentKey, reason: SealingReason)
    requires SealOf(sealed, segment, key, reason)
    ensures sealed.key == key
  {
  }

  lemma SealsMore(added: seq<SealedSegment>, segment: SealedSegment, open: OpenMap, keys: set<SegmentKey>,
                  key: SegmentKey, reason: SealingReason)
    requires SealsOf(added, open, keys, reason) && key in open && key !in keys
    requires SealOf(segment, open[key], key, reason)
    requires forall i :: 0 <= i < |added| ==> KeyAtMost(added[i].key, key)
    ensures SealsOf(added + [segment], open, keys + {key}, reason) && segment.key == key
  {
    hide SealOf, KeyAtMost, Precedes;
    var all := added + [segment];
    SealHasKey(segment, open[key], key, reason);
    forall i | 0 <= i < |added| ensures Precedes(added[i].key, key) {
      AtMostPrecedes(added[i].key, key);
    }
    forall k | k in keys + {key} ensures exists i :: 0 <= i < |all| && all[i].key == k {
      if k == key {
        assert all[|added|].key == k;
      } else {
        var i :| 0 <= i < |added| && added[i].key == k;
        assert all[i].key == k;
      }
    }
  }

  lemma SealedTail(before: seq<SealedSegment>, after: seq<SealedSegment>, n: nat)
    requires n <= |before| && |after| == |before| + 1 && after[..|before|] == before
    ensures after[n..] == before[n..] + [after[|before|]] && after[..n] == before[..n]
  {
    assert after[..|before|][..n] == after[..n];
    assert after == before + [after[|before|]];
  }

  lemma SealedLess(all: OpenMap, keys: set<SegmentKey>, rest: set<SegmentKey>, key: SegmentKey)
    requires keys <= all.Keys && rest <= keys && key in rest
    ensures var open := all - (keys - rest);
            && key in open && open[key] == all[key] && open - {key} == all - (keys - (rest - {key}))
            && rest - {key} <= (open - {key}).Keys
    ensures keys - (rest - {key}) == (keys - rest) + {key}
  {
    var open := all - (keys - rest);
    assert keys - (rest - {key}) == (keys - rest) + {key};
    forall k ensures k in open - {key} <==> k in all - (keys - (rest - {key})) {}
    assert open - {key} == all - (keys - (rest - {key}));
  }

  lemma FewerTouches(open: OpenMap, key: SegmentKey, last: nat, observed: Option<int>)
    requires TouchesOk(open, last) && OpenedBy(open, observed)
    ensures TouchesOk(open - {key}, last) && OpenedBy(open - {key}, observed)
  {
  }
}
