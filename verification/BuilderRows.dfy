/** The rows a set of segment builders holds: in open builders by key, and in the queue of sealed segments. */
module BuilderRows {
  import opened Basics
  import opened StableOrder
  import opened Segments

  datatype SegmentKey = SegmentKey(sourceId: nat, schemaId: nat, eventDay: int)

  datatype BatchMetadata = BatchMetadata(batchId: nat, sourceId: nat, schemaId: nat)

  /** A row on its way into a segment, with the two estimates of its size. */
  datatype SegmentRow = SegmentRow(batch: BatchMetadata, row: Row, uncompressed: nat, resident: nat)

  datatype Capacity = ResidentMemory | Staging

  datatype SealingReason =
    RowTarget | ByteTarget | MaximumAge | BuilderLimit | CapacityPressure(capacity: Capacity) | Flush

  datatype OpenSegment = OpenSegment(rows: seq<SegmentRow>, uncompressed: nat, resident: nat, openedAt: int,
                                     touched: nat)

  datatype SealedSegment = SealedSegment(
    key: SegmentKey, bounds: TimeBounds, rows: seq<SegmentRow>, uncompressed: nat, resident: nat, reason: SealingReason)

  datatype Limits = Limits(
    targetRows: nat, targetBytes: nat, maxOpenDuration: nat, maxOpen: nat, maxResident: nat, maxStaging: nat)

  predicate ValidLimits(limits: Limits) {
    && limits.targetRows > 0 && limits.targetBytes > 0 && limits.maxOpenDuration > 0 && limits.maxOpen > 0
    && 0 < limits.maxResident <= U64_MAX && 0 < limits.maxStaging <= U64_MAX
  }

  function DayOf(row: Row): int {
    row.eventTime / MILLISECONDS_PER_DAY
  }

  function KeyFor(row: SegmentRow): SegmentKey {
    SegmentKey(row.batch.sourceId, row.batch.schemaId, DayOf(row.row))
  }

  function OrderOf(row: SegmentRow): RowKey {
    Key(row.row)
  }

  // ---------- sizes ----------

  function Size(row: SegmentRow, of: Capacity): nat {
    if of == Staging then row.uncompressed else row.resident
  }

  function Sizes(rows: seq<SegmentRow>, of: Capacity): nat {
    if rows == [] then 0 else Sizes(rows[..|rows| - 1], of) + Size(rows[|rows| - 1], of)
  }

  function OpenSize(segment: OpenSegment, of: Capacity): nat {
    if of == Staging then segment.uncompressed else segment.resident
  }

  function SealedSize(segment: SealedSegment, of: Capacity): nat {
    if of == Staging then segment.uncompressed else segment.resident
  }

  lemma SizesSnoc(rows: seq<SegmentRow>, row: SegmentRow, of: Capacity)
    ensures Sizes(rows + [row], of) == Sizes(rows, of) + Size(row, of)
  {
    assert (rows + [row])[..|rows|] == rows;
  }

  // ---------- open and sealed segments in order ----------

  /** The row is of the key's source and schema, and its event lies in the key's day. */
  predicate Belongs(row: SegmentRow, key: SegmentKey) {
    && row.batch.sourceId == key.sourceId && row.batch.schemaId == key.schemaId
    && InDay(row.row, key.eventDay)
  }

  lemma KeyIsUnique(row: SegmentRow, key: SegmentKey)
    ensures Belongs(row, key) <==> key == KeyFor(row)
  {
  }

  predicate KeyedRows(rows: seq<SegmentRow>, key: SegmentKey) {
    forall i :: 0 <= i < |rows| ==> Belongs(rows[i], key)
  }

  /** An open builder: rows of its key, exact sizes, and below both targets. */
  predicate OpenOk(segment: OpenSegment, key: SegmentKey, limits: Limits) {
    && segment.rows != [] && KeyedRows(segment.rows, key)
    && segment.uncompressed == Sizes(segment.rows, Staging) && segment.resident == Sizes(segment.rows, ResidentMemory)
    && |segment.rows| < limits.targetRows && segment.uncompressed < limits.targetBytes
  }

  /** A builder about to be sealed may have just reached a target. */
  predicate SealableOk(segment: OpenSegment, key: SegmentKey, limits: Limits) {
    && segment.rows != [] && KeyedRows(segment.rows, key)
    && segment.uncompressed == Sizes(segment.rows, Staging) && segment.resident == Sizes(segment.rows, ResidentMemory)
    && |segment.rows| <= limits.targetRows && (segment.uncompressed <= limits.targetBytes || |segment.rows| == 1)
  }

  function PlainRows(rows: seq<SegmentRow>): seq<Row> {
    seq(|rows|, i requires 0 <= i < |rows| => rows[i].row)
  }

  /** A sealed segment: sorted rows of its key with exact bounds, within both targets unless it is one oversized row. */
  ghost predicate SealedOk(segment: SealedSegment, limits: Limits) {
    && segment.rows != [] && KeyedRows(segment.rows, segment.key) && InRowOrder(PlainRows(segment.rows))
    && Tight(segment.bounds, PlainRows(segment.rows))
    && segment.uncompressed == Sizes(segment.rows, Staging) && segment.resident == Sizes(segment.rows, ResidentMemory)
    && |segment.rows| <= limits.targetRows && (segment.uncompressed <= limits.targetBytes || |segment.rows| == 1)
  }

  // ---------- everything held ----------

  type OpenMap = map<SegmentKey, OpenSegment>

  ghost function OpenRows(open: OpenMap): multiset<SegmentRow>
    decreases |open|
  {
    if open == map[] then multiset{}
    else
      var key :| key in open;
      multiset(open[key].rows) + OpenRows(open - {key})
  }

  ghost function OpenSizes(open: OpenMap, of: Capacity): nat
    decreases |open|
  {
    if open == map[] then 0
    else
      var key :| key in open;
      OpenSize(open[key], of) + OpenSizes(open - {key}, of)
  }

  lemma MapWithoutTwice(open: OpenMap, a: SegmentKey, b: SegmentKey)
    ensures open - {a} - {b} == open - {b} - {a}
  {
  }

  lemma {:induction false} OpenRowsWithout(open: OpenMap, key: SegmentKey)
    requires key in open
    ensures OpenRows(open) == multiset(open[key].rows) + OpenRows(open - {key})
    decreases |open|
  {
    var picked :| picked in open && OpenRows(open) == multiset(open[picked].rows) + OpenRows(open - {picked});
    if picked != key {
      OpenRowsWithout(open - {picked}, key);
      OpenRowsWithout(open - {key}, picked);
      MapWithoutTwice(open, picked, key);
    }
  }

  lemma {:induction false} OpenSizesWithout(open: OpenMap, key: SegmentKey, of: Capacity)
    requires key in open
    ensures OpenSizes(open, of) == OpenSize(open[key], of) + OpenSizes(open - {key}, of)
    decreases |open|
  {
    var picked :| picked in open && OpenSizes(open, of) == OpenSize(open[picked], of) + OpenSizes(open - {picked}, of);
    if picked != key {
      OpenSizesWithout(open - {picked}, key, of);
      OpenSizesWithout(open - {key}, picked, of);
      MapWithoutTwice(open, picked, key);
    }
  }

  function SealedRows(sealed: seq<SealedSegment>): multiset<SegmentRow> {
    if sealed == [] then multiset{} else multiset(sealed[0].rows) + SealedRows(sealed[1..])
  }

  function SealedSizes(sealed: seq<SealedSegment>, of: Capacity): nat {
    if sealed == [] then 0 else SealedSize(sealed[0], of) + SealedSizes(sealed[1..], of)
  }

  lemma {:induction false} SealedSnoc(sealed: seq<SealedSegment>, last: SealedSegment)
    ensures SealedRows(sealed + [last]) == SealedRows(sealed) + multiset(last.rows)
    ensures forall of :: SealedSizes(sealed + [last], of) == SealedSizes(sealed, of) + SealedSize(last, of)
  {
    if sealed == [] {
      assert sealed + [last] == [last] && [last][1..] == [];
    } else {
      SealedSnoc(sealed[1..], last);
      assert (sealed + [last])[1..] == sealed[1..] + [last];
    }
  }

  datatype Holdings = Holdings(open: OpenMap, sealed: seq<SealedSegment>)

  ghost function HeldRows(h: Holdings): multiset<SegmentRow> {
    OpenRows(h.open) + SealedRows(h.sealed)
  }

  ghost function HeldSizes(h: Holdings, of: Capacity): nat {
    OpenSizes(h.open, of) + SealedSizes(h.sealed, of)
  }

  ghost predicate InOrder(h: Holdings, limits: Limits) {
    && (forall key :: key in h.open ==> OpenOk(h.open[key], key, limits))
    && (forall i :: 0 <= i < |h.sealed| ==> SealedOk(h.sealed[i], limits))
  }

  // ---------- sealing ----------

  /** What sealing a builder makes of it. */
  ghost predicate SealOf(sealed: SealedSegment, segment: OpenSegment, key: SegmentKey, reason: SealingReason) {
    && sealed.key == key && sealed.reason == reason
    && sealed.rows == StableSort(segment.rows, OrderOf) && Tight(sealed.bounds, PlainRows(sealed.rows))
    && sealed.uncompressed == segment.uncompressed && sealed.resident == segment.resident
  }

  lemma {:induction false} InsertSizes(row: SegmentRow, rows: seq<SegmentRow>, of: Capacity)
    ensures Sizes(Insert(row, rows, OrderOf), of) == Size(row, of) + Sizes(rows, of)
  {
    SizesCons(row, rows, of);
    if rows != [] && !AtMost(OrderOf(row), OrderOf(rows[0])) {
      InsertSizes(row, rows[1..], of);
      SizesCons(rows[0], rows[1..], of);
      SizesCons(rows[0], Insert(row, rows[1..], OrderOf), of);
      assert rows == [rows[0]] + rows[1..];
    }
  }

  lemma {:induction false} SizesCons(row: SegmentRow, rows: seq<SegmentRow>, of: Capacity)
    ensures Sizes([row] + rows, of) == Size(row, of) + Sizes(rows, of)
    decreases |rows|
  {
    if rows == [] {
      assert [row] + rows == [row] && [row][..0] == [];
    } else {
      var n := |rows| - 1;
      SizesCons(row, rows[..n], of);
      assert ([row] + rows)[..n + 1] == [row] + rows[..n];
    }
  }

  lemma {:induction false} SortSizes(rows: seq<SegmentRow>, of: Capacity)
    ensures Sizes(StableSort(rows, OrderOf), of) == Sizes(rows, of)
  {
    if rows != [] {
      SortSizes(rows[1..], of);
      InsertSizes(rows[0], StableSort(rows[1..], OrderOf), of);
      SizesCons(rows[0], rows[1..], of);
      assert rows == [rows[0]] + rows[1..];
    }
  }

  lemma SealedIsOk(sealed: SealedSegment, segment: OpenSegment, key: SegmentKey, reason: SealingReason, limits: Limits)
    requires SealOf(sealed, segment, key, reason) && SealableOk(segment, key, limits)
    ensures SealedOk(sealed, limits) && multiset(sealed.rows) == multiset(segment.rows)
  {
    StableSortCorrect(segment.rows, OrderOf);
    SortSizes(segment.rows, Staging);
    SortSizes(segment.rows, ResidentMemory);
    hide StableSort, Sizes, Tight;
    assert |sealed.rows| == |multiset(sealed.rows)| == |segment.rows|;
    forall i | 0 <= i < |sealed.rows| ensures Belongs(sealed.rows[i], key) {
      assert sealed.rows[i] in multiset(segment.rows);
    }
  }

  lemma SealKeepsSize(sealed: SealedSegment, segment: OpenSegment, key: SegmentKey, reason: SealingReason)
    requires SealOf(sealed, segment, key, reason)
    ensures forall of :: SealedSize(sealed, of) == OpenSize(segment, of)
  {
  }

  /** Moving a builder from the open ones to the sealed ones keeps every row and every size. */
  lemma SealKeeps(h: Holdings, key: SegmentKey, sealed: SealedSegment, reason: SealingReason, limits: Limits)
    requires key in h.open && SealOf(sealed, h.open[key], key, reason) && SealableOk(h.open[key], key, limits)
    requires forall other :: other in h.open && other != key ==> OpenOk(h.open[other], other, limits)
    requires forall i :: 0 <= i < |h.sealed| ==> SealedOk(h.sealed[i], limits)
    ensures var h' := Holdings(h.open - {key}, h.sealed + [sealed]);
            && InOrder(h', limits) && HeldRows(h') == HeldRows(h)
            && (forall of :: HeldSizes(h', of) == HeldSizes(h, of))
  {
    hide SealedOk, OpenOk, SealableOk, SealOf, OpenRows, OpenSizes, SealedRows, SealedSizes;
    SealedIsOk(sealed, h.open[key], key, reason, limits);
    SealKeepsSize(sealed, h.open[key], key, reason);
    OpenRowsWithout(h.open, key);
    SealedSnoc(h.sealed, sealed);
    var h' := Holdings(h.open - {key}, h.sealed + [sealed]);
    forall of ensures HeldSizes(h', of) == HeldSizes(h, of) {
      OpenSizesWithout(h.open, key, of);
    }
  }

  // ---------- adding a row ----------

  function Opened(row: SegmentRow, at: int, touched: nat): OpenSegment {
    OpenSegment([row], row.uncompressed, row.resident, at, touched)
  }

  function Pushed(segment: OpenSegment, row: SegmentRow, touched: nat): OpenSegment {
    OpenSegment(segment.rows + [row], segment.uncompressed + row.uncompressed, segment.resident + row.resident,
                segment.openedAt, touched)
  }

  function Added(open: OpenMap, row: SegmentRow, at: int, touched: nat): OpenMap {
    var key := KeyFor(row);
    open[key := if key in open then Pushed(open[key], row, touched) else Opened(row, at, touched)]
  }

  /** The row's builder with the row in it: opened now when there was none, and touched last. */
  function Grown(open: OpenMap, key: SegmentKey, row: SegmentRow, at: int, touched: nat): OpenSegment {
    OpenSegment((if key in open then open[key].rows else []) + [row],
                (if key in open then open[key].uncompressed else 0) + row.uncompressed,
                (if key in open then open[key].resident else 0) + row.resident,
                if key in open then open[key].openedAt else at, touched)
  }

  lemma AddedIsGrown(open: OpenMap, row: SegmentRow, at: int, touched: nat)
    ensures Belongs(row, KeyFor(row))
    ensures Added(open, row, at, touched) == open[KeyFor(row) := Grown(open, KeyFor(row), row, at, touched)]
  {
    KeyIsUnique(row, KeyFor(row));
    assert [] + [row] == [row];
  }

  /** Adding a row adds exactly that row and its sizes; the builder it went to can be sealed. */
  lemma AddKeeps(h: Holdings, row: SegmentRow, at: int, touched: nat, limits: Limits)
    requires InOrder(h, limits) && ValidLimits(limits)
    requires KeyFor(row) in h.open ==> h.open[KeyFor(row)].uncompressed + row.uncompressed <= limits.targetBytes
    ensures var h' := Holdings(Added(h.open, row, at, touched), h.sealed);
            && HeldRows(h') == HeldRows(h) + multiset{row}
            && (forall of :: HeldSizes(h', of) == HeldSizes(h, of) + Size(row, of))
            && SealableOk(h'.open[KeyFor(row)], KeyFor(row), limits)
            && (forall other :: other in h'.open && other != KeyFor(row) ==>
                other in h.open && h'.open[other] == h.open[other])
  {
    hide OpenRows, OpenSizes, SealedRows, SealedSizes, SealableOk, SealedOk;
    var key := KeyFor(row);
    AddedSegment(h.open, row, at, touched, limits);
    hide OpenOk, InOrder;
    var segment := Added(h.open, row, at, touched)[key];
    OpenRowsUpdate(h.open, key, segment);
    var before := if key in h.open then multiset(h.open[key].rows) else multiset{};
    Cancel(OpenRows(h.open[key := segment]), OpenRows(h.open) + multiset{row}, before);
    var h' := Holdings(Added(h.open, row, at, touched), h.sealed);
    forall of ensures HeldSizes(h', of) == HeldSizes(h, of) + Size(row, of) {
      OpenSizesUpdate(h.open, key, segment, of);
    }
  }

  lemma Cancel(a: multiset<SegmentRow>, b: multiset<SegmentRow>, c: multiset<SegmentRow>)
    requires a + c == b + c
    ensures a == b
  {
    forall row ensures a[row] == b[row] {
      assert (a + c)[row] == a[row] + c[row] && (b + c)[row] == b[row] + c[row];
    }
  }

  lemma OpenRowsUpdate(open: OpenMap, key: SegmentKey, segment: OpenSegment)
    ensures OpenRows(open[key := segment]) + (if key in open then multiset(open[key].rows) else multiset{}) ==
            OpenRows(open) + multiset(segment.rows)
  {
    hide OpenRows;
    OpenRowsWithout(open[key := segment], key);
    assert open[key := segment] - {key} == open - {key};
    if key in open {
      OpenRowsWithout(open, key);
    } else {
      assert open - {key} == open;
    }
  }

  lemma OpenSizesUpdate(open: OpenMap, key: SegmentKey, segment: OpenSegment, of: Capacity)
    ensures OpenSizes(open[key := segment], of) + (if key in open then OpenSize(open[key], of) else 0) ==
            OpenSizes(open, of) + OpenSize(segment, of)
  {
    hide OpenSizes;
    OpenSizesWithout(open[key := segment], key, of);
    assert open[key := segment] - {key} == open - {key};
    if key in open {
      OpenSizesWithout(open, key, of);
    } else {
      assert open - {key} == open;
    }
  }

  lemma AddedSegment(open: OpenMap, row: SegmentRow, at: int, touched: nat, limits: Limits)
    requires KeyFor(row) in open ==>
               OpenOk(open[KeyFor(row)], KeyFor(row), limits)
                   && open[KeyFor(row)].uncompressed + row.uncompressed <= limits.targetBytes
    requires ValidLimits(limits)
    ensures var key := KeyFor(row);
            var segment := Added(open, row, at, touched)[key];
            && SealableOk(segment, key, limits)
            && multiset(segment.rows) == (if key in open then multiset(open[key].rows) else multiset{}) + multiset{row}
            && forall of :: OpenSize(segment, of) ==
                (if key in open then OpenSize(open[key], of) else 0) + Size(row, of)
  {
    var key := KeyFor(row);
    KeyIsUnique(row, key);
    if key in open {
      SizesSnoc(open[key].rows, row, Staging);
      SizesSnoc(open[key].rows, row, ResidentMemory);
    } else {
      assert [row][..0] == [];
      assert KeyedRows([row], key);
    }
  }

  /** The first sealed segment leaves with exactly its rows and sizes. */
  lemma TakeKeeps(h: Holdings, limits: Limits)
    requires InOrder(h, limits) && h.sealed != []
    ensures var h' := Holdings(h.open, h.sealed[1..]);
            && InOrder(h', limits)
            && HeldRows(h) == multiset(h.sealed[0].rows) + HeldRows(h')
            && forall of :: HeldSizes(h, of) == SealedSize(h.sealed[0], of) + HeldSizes(h', of)
  {
    hide OpenRows, OpenSizes, SealedOk, OpenOk;
  }

  /** No builder holds more than all of them together. */
  lemma BuilderWithinTotals(h: Holdings, key: SegmentKey)
    requires key in h.open
    ensures h.open[key].uncompressed <= HeldSizes(h, Staging) && h.open[key].resident <= HeldSizes(h, ResidentMemory)
  {
    hide OpenSizes, SealedSizes;
    OpenSizesWithout(h.open, key, Staging);
    OpenSizesWithout(h.open, key, ResidentMemory);
  }

  lemma NothingHeld()
    ensures HeldRows(Holdings(map[], [])) == multiset{} && forall of :: HeldSizes(Holdings(map[], []), of) == 0
  {
  }
}
