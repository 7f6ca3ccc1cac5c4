/** Building the outputs of a compaction run: a k-way merge over streamed inputs, packed greedily. */
module Worker {
  import opened Basics
  import opened StableOrder
  import opened Segments
  import opened Packing
  import opened Cursor
  import opened Claims

  datatype HeapEntry = HeapEntry(key: RowKey, inputIndex: nat)

  predicate EntryAtMost(a: HeapEntry, b: HeapEntry) {
    AtMost(a.key, b.key) && (a.key == b.key ==> a.inputIndex <= b.inputIndex)
  }

  predicate IsLeast(entry: HeapEntry, heap: set<HeapEntry>) {
    entry in heap && forall other :: other in heap ==> EntryAtMost(entry, other)
  }

  lemma {:induction false} LeastExists(heap: set<HeapEntry>)
    requires heap != {}
    ensures exists entry :: IsLeast(entry, heap)
    decreases |heap|
  {
    var some :| some in heap;
    if heap == {some} {
      assert IsLeast(some, heap);
    } else {
      var rest := heap - {some};
      assert |rest| < |heap|;
      LeastExists(rest);
      var least :| IsLeast(least, rest);
      var lesser := if EntryAtMost(some, least) then some else least;
      forall other | other in heap ensures EntryAtMost(lesser, other) {
        assert other == some || other in rest;
      }
      assert IsLeast(lesser, heap);
    }
  }

  /** A row picked by the merge, with the batch it lives in. */
  datatype SelectedRow = SelectedRow(
    inputIndex: nat, batchGeneration: nat, batch: seq<Row>, rowIndex: nat, bytes: nat)

  /** One output under construction. Each source batch is kept once, under the input and the
      generation it came from, and the rows are kept as positions within those batches. */
  class OutputAccumulator {
    const targetRows: nat
    const targetBytes: nat
    var sourceBatches: seq<seq<Row>>
    var sourceIndexes: map<(nat, nat), nat>
    var selections: seq<(nat, nat)>
    var estimatedBytes: nat
    var bounds: Option<TimeBounds>
    ghost var items: seq<Item>

    constructor (targetRows: nat, targetBytes: nat)
      ensures this.targetRows == targetRows && this.targetBytes == targetBytes
      ensures Valid() && items == [] && Cache() == map[]
    {
      this.targetRows, this.targetBytes := targetRows, targetBytes;
      sourceBatches, sourceIndexes, selections, estimatedBytes := [], map[], [], 0;
      bounds, items := None, [];
    }

    ghost predicate Valid()
      reads this
    {
      && (forall k :: k in sourceIndexes ==> sourceIndexes[k] < |sourceBatches|)
      && |selections| == |items|
      && (forall i :: 0 <= i < |items| ==> Selects(selections[i], items[i].row))
      && estimatedBytes == Bytes(items)
      && bounds == BoundsOf(Rows(items))
    }

    ghost predicate Selects(selection: (nat, nat), row: Row)
      reads this
    {
      && selection.0 < |sourceBatches|
      && selection.1 < |sourceBatches[selection.0]|
      && sourceBatches[selection.0][selection.1] == row
    }

    /** The batch cached for each input and generation. */
    ghost function Cache(): map<(nat, nat), seq<Row>>
      reads this
      requires Valid()
    {
      map k | k in sourceIndexes :: sourceBatches[sourceIndexes[k]]
    }

    method CanAccept(bytes: nat) returns (r: Result<bool, BuildError>)
      requires Valid()
      ensures r == if bytes == 0 || bytes > targetBytes then Failure(InputInvalid)
                   else if items != [] && Bytes(items) + bytes > U64_MAX then Failure(BuildFailed)
                   else Success(items == [] || (|items| < targetRows && Bytes(items) + bytes <= targetBytes))
    {
      if bytes == 0 || bytes > targetBytes {
        return Failure(InputInvalid);
      }
      if selections == [] {
        return Success(true);
      }
      var projected := estimatedBytes + bytes;
      if projected > U64_MAX {
        return Failure(BuildFailed);
      }
      return Success(|selections| < targetRows && projected <= targetBytes);
    }

    /** Adds a row. What the cache holds for the row's input and generation must be the row's batch. */
    method Append(row: SelectedRow)
      requires Valid() && row.rowIndex < |row.batch|
      requires (row.inputIndex, row.batchGeneration) in Cache() ==>
                 Cache()[(row.inputIndex, row.batchGeneration)] == row.batch
      modifies this
      ensures Valid()
      ensures items == old(items) + [Item(row.batch[row.rowIndex], row.bytes)]
      ensures Cache() == old(Cache())[(row.inputIndex, row.batchGeneration) := row.batch]
    {
      hide Bytes, Rows, BoundsOf;
      var index := SourceIndex(row);
      ghost var item := Item(row.batch[row.rowIndex], row.bytes);
      AppendFacts(items, item);
      selections := selections + [(index, row.rowIndex)];
      estimatedBytes := estimatedBytes + row.bytes;
      bounds := Some(Extend(bounds, row.batch[row.rowIndex]));
      items := items + [item];
    }

    /** Where the batch of a row is kept; a batch seen for the first time is added. */
    method SourceIndex(row: SelectedRow) returns (index: nat)
      requires Valid() && row.rowIndex < |row.batch|
      requires (row.inputIndex, row.batchGeneration) in Cache() ==>
                 Cache()[(row.inputIndex, row.batchGeneration)] == row.batch
      modifies this`sourceBatches, this`sourceIndexes
      ensures Valid() && index < |sourceBatches| && sourceBatches[index] == row.batch
      ensures Cache() == old(Cache())[(row.inputIndex, row.batchGeneration) := row.batch]
    {
      hide Bytes, Rows, BoundsOf;
      var cacheKey := (row.inputIndex, row.batchGeneration);
      if cacheKey in sourceIndexes {
        assert cacheKey in Cache();
        return sourceIndexes[cacheKey];
      }
      index := |sourceBatches|;
      sourceBatches := sourceBatches + [row.batch];
      sourceIndexes := sourceIndexes[cacheKey := index];
    }

    /** Materializing the selections gives back exactly the rows that were added. */
    method Materialize() returns (rows: seq<Row>)
      requires Valid()
      ensures rows == Rows(items)
    {
      rows := [];
      for i := 0 to |selections|
        invariant rows == Rows(items)[..i]
      {
        assert Selects(selections[i], items[i].row);
        rows := rows + [sourceBatches[selections[i].0][selections[i].1]];
      }
    }
  }

  lemma AppendFacts(items: seq<Item>, item: Item)
    ensures Bytes(items + [item]) == Bytes(items) + item.bytes
    ensures BoundsOf(Rows(items + [item])) == Some(Extend(BoundsOf(Rows(items)), item.row))
  {
    assert (items + [item])[..|items|] == items;
    assert Rows(items + [item]) == Rows(items) + [item.row];
    BoundsSnoc(Rows(items), item.row);
  }

  // ---------- the merge as a fact about sequences ----------

  /** `i` is where the merge continues: its head is least, and least again by input index. */
  ghost predicate IsNext(rests: seq<seq<Item>>, i: nat) {
    && i < |rests| && rests[i] != []
    && forall k :: 0 <= k < |rests| && rests[k] != [] ==>
         EntryAtMost(HeapEntry(ItemKey(rests[i][0]), i), HeapEntry(ItemKey(rests[k][0]), k))
  }

  ghost predicate AllSorted(rests: seq<seq<Item>>) {
    forall k :: 0 <= k < |rests| ==> Sorted(rests[k], ItemKey)
  }

  lemma {:induction false} FlattenMember(parts: seq<seq<Item>>, p: nat) returns (k: nat, j: nat)
    requires p < |Flatten(parts)|
    ensures k < |parts| && j < |parts[k]| && Flatten(parts)[p] == parts[k][j]
  {
    if p < |parts[0]| {
      k, j := 0, p;
    } else {
      k, j := FlattenMember(parts[1..], p - |parts[0]|);
      k := k + 1;
    }
  }

  lemma {:induction false} TakeHead(rests: seq<seq<Item>>, i: nat)
    requires i < |rests| && rests[i] != []
    ensures var before := Flatten(rests[..i]);
            && |before| < |Flatten(rests)|
            && Flatten(rests)[|before|] == rests[i][0]
            && Flatten(rests[i := rests[i][1..]]) == before + Flatten(rests)[|before| + 1..]
    ensures |Flatten(rests[i := rests[i][1..]])| == |Flatten(rests)| - 1
  {
    var shorter := rests[i := rests[i][1..]];
    FlattenAround(rests, i);
    FlattenAround(shorter, i);
    assert shorter[..i] == rests[..i];
    assert shorter[i + 1..] == rests[i + 1..];
  }

  /** Taking the next head off is one step of stably sorting everything that is left. */
  lemma {:induction false} MergeStep(rests: seq<seq<Item>>, i: nat)
    requires AllSorted(rests) && IsNext(rests, i)
    ensures StableSort(Flatten(rests), ItemKey) ==
            [rests[i][0]] + StableSort(Flatten(rests[i := rests[i][1..]]), ItemKey)
  {
    var all, before := Flatten(rests), Flatten(rests[..i]);
    TakeHead(rests, i);
    forall p | 0 <= p < |before| ensures !AtMost(ItemKey(all[p]), ItemKey(rests[i][0])) {
      var k, j := FlattenMember(rests[..i], p);
      FlattenAround(rests, i);
      assert all[p] == rests[k][j];
      assert AtMost(ItemKey(rests[k][0]), ItemKey(rests[k][j]));
    }
    forall p | 0 <= p < |all| ensures AtMost(ItemKey(rests[i][0]), ItemKey(all[p])) {
      var k, j := FlattenMember(rests, p);
      assert AtMost(ItemKey(rests[k][0]), ItemKey(rests[k][j]));
    }
    LeastComesFirst(all, ItemKey, |before|);
    assert all[..|before|] == before by { FlattenAround(rests, i); }
  }

  // ---------- the cursors and the heap ----------

  ghost predicate Open(cursor: InputCursor)
    reads cursor
  {
    && (cursor.batch.Some? ==> cursor.Positioned())
    && (cursor.batch.None? ==> cursor.Exhausted() && cursor.descriptor.rowCount > 0)
  }

  lemma OpenHasRest(cursor: InputCursor)
    requires Open(cursor)
    ensures cursor.descriptor.rowCount > 0 && cursor.rowsEmitted <= |StreamRows(cursor.source)|
    ensures cursor.batch.Some? <==> cursor.Rest() != []
    ensures cursor.batch.Some? ==>
              cursor.Rest()[0] == Item(StreamRows(cursor.source)[cursor.rowsEmitted],
                                       EstimatedRowBytes(cursor.descriptor, cursor.rowsEmitted))
  {
    if cursor.batch.Some? {
      cursor.CurrentRow();
    }
  }

  ghost function RestOf(cursor: InputCursor): seq<Item>
    reads cursor
    requires Open(cursor)
  {
    OpenHasRest(cursor);
    cursor.Rest()
  }

  ghost predicate AllOpen(cursors: seq<InputCursor>)
    reads cursors
  {
    && (forall a, b :: 0 <= a < b < |cursors| ==> cursors[a] != cursors[b])
    && (forall i :: 0 <= i < |cursors| ==> Open(cursors[i]))
  }

  ghost function Rests(cursors: seq<InputCursor>): seq<seq<Item>>
    reads cursors
    requires AllOpen(cursors)
  {
    seq(|cursors|, i requires 0 <= i < |cursors| requires Open(cursors[i]) reads cursors => RestOf(cursors[i]))
  }

  /** The heap holds one entry, with the current key, for every cursor that has rows left. */
  ghost predicate HeapMatches(heap: set<HeapEntry>, rests: seq<seq<Item>>) {
    && (forall entry :: entry in heap ==>
          && entry.inputIndex < |rests| && rests[entry.inputIndex] != []
          && entry.key == ItemKey(rests[entry.inputIndex][0]))
    && (forall i :: 0 <= i < |rests| && rests[i] != [] ==>
          HeapEntry(ItemKey(rests[i][0]), i) in heap)
  }

  lemma LeastIsNext(heap: set<HeapEntry>, rests: seq<seq<Item>>, entry: HeapEntry)
    requires HeapMatches(heap, rests) && IsLeast(entry, heap)
    ensures IsNext(rests, entry.inputIndex)
  {
  }

  /** Every input stream agrees with its descriptor. */
  ghost predicate AllValid(cursors: seq<InputCursor>) {
    forall i :: 0 <= i < |cursors| ==> StreamValid(cursors[i].descriptor, cursors[i].source, cursors[i].day)
  }

  lemma ValidStreamsAreSorted(cursors: seq<InputCursor>, heap: set<HeapEntry>, rests: seq<seq<Item>>)
    requires Merging(cursors, heap, rests) && AllValid(cursors)
    ensures AllSorted(rests)
  {
    forall i | 0 <= i < |cursors| ensures Sorted(rests[i], ItemKey) {
      var cursor := cursors[i];
      OpenHasRest(cursor);
      assert Sorted(StreamRows(cursor.source), Key);
    }
  }

  /** The cursors and the heap agree, and `rests` is what the cursors still have to deliver. */
  ghost predicate Merging(cursors: seq<InputCursor>, heap: set<HeapEntry>, rests: seq<seq<Item>>)
    reads cursors
  {
    AllOpen(cursors) && rests == Rests(cursors) && HeapMatches(heap, rests)
  }

  /** Everything left to merge, in the order the merge must produce it. */
  ghost function Merged(rests: seq<seq<Item>>): seq<Item> {
    StableSort(Flatten(rests), ItemKey)
  }

  /** What the heap must become once the head of one input is taken. */
  lemma HeapAfter(heap: set<HeapEntry>, rests: seq<seq<Item>>, entry: HeapEntry)
    requires HeapMatches(heap, rests) && entry in heap
    ensures var i := entry.inputIndex;
            var shorter := rests[i := rests[i][1..]];
            if shorter[i] == [] then HeapMatches(heap - {entry}, shorter)
            else HeapMatches(heap - {entry} + {HeapEntry(ItemKey(shorter[i][0]), i)}, shorter)
  {
  }

  /** Moves one open cursor past its current row. */
  method AdvanceCursor(cursor: InputCursor) returns (r: Result<Option<RowKey>, BuildError>)
    requires Open(cursor) && RestOf(cursor) != []
    modifies cursor
    ensures r.Success? ==> Open(cursor) && RestOf(cursor) == old(RestOf(cursor))[1..]
    ensures r.Success? && r.value.None? ==> RestOf(cursor) == []
    ensures r.Success? && r.value.Some? ==> RestOf(cursor) != [] && r.value.value == ItemKey(RestOf(cursor)[0])
    ensures r.Failure? ==> r.error == InputInvalid && !StreamValid(cursor.descriptor, cursor.source, cursor.day)
  {
    OpenHasRest(cursor);
    var advanced := cursor.Advance();
    if advanced.Failure? {
      return Failure(InputInvalid);
    }
    if !advanced.value {
      OpenHasRest(cursor);
      return Success(None);
    }
    OpenHasRest(cursor);
    var key := cursor.CurrentKey();
    return Success(Some(key));
  }

  /** Takes an entry off the heap, moves its cursor on and puts the cursor's next key back. */
  method AdvanceInput(cursors: seq<InputCursor>, heap: set<HeapEntry>, entry: HeapEntry, ghost rests: seq<seq<Item>>)
    returns (r: Result<set<HeapEntry>, BuildError>)
    requires Merging(cursors, heap, rests) && entry in heap
    requires entry.inputIndex < |rests| && rests[entry.inputIndex] != []
    modifies cursors
    ensures r.Success? ==>
              Merging(cursors, r.value, rests[entry.inputIndex := rests[entry.inputIndex][1..]])
    ensures r.Failure? ==> r.error == InputInvalid && !AllValid(cursors)
  {
    var i := entry.inputIndex;
    assert rests[i] == RestOf(cursors[i]);
    OpenHasRest(cursors[i]);
    HeapAfter(heap, rests, entry);
    var advanced := AdvanceCursor(cursors[i]);
    if advanced.Failure? {
      return Failure(InputInvalid);
    }
    assert forall k :: 0 <= k < |cursors| && k != i ==> cursors[k] != cursors[i];
    assert AllOpen(cursors);
    assert Rests(cursors) == rests[i := rests[i][1..]];
    if advanced.value.None? {
      return Success(heap - {entry});
    }
    return Success(heap - {entry} + {HeapEntry(advanced.value.value, i)});
  }

  method PeekLeast(heap: set<HeapEntry>) returns (entry: HeapEntry)
    requires heap != {}
    ensures IsLeast(entry, heap)
  {
    LeastExists(heap);
    entry :| entry in heap && forall other :: other in heap ==> EntryAtMost(entry, other);
  }

  /** The current row of an open cursor, with its batch and the generation of that batch. */
  method SelectRow(cursor: InputCursor, inputIndex: nat) returns (row: SelectedRow)
    requires Open(cursor) && RestOf(cursor) != []
    ensures row.inputIndex == inputIndex && row.batchGeneration == cursor.batchGeneration
    ensures 0 < cursor.batchGeneration <= |cursor.source|
    ensures row.batch == ItemRows(cursor.source[cursor.batchGeneration - 1])
    ensures row.rowIndex < |row.batch|
    ensures Item(row.batch[row.rowIndex], row.bytes) == RestOf(cursor)[0]
  {
    OpenHasRest(cursor);
    cursor.CurrentRow();
    row := SelectedRow(inputIndex, cursor.batchGeneration, cursor.batch.value, cursor.rowIndex,
                       EstimatedRowBytes(cursor.descriptor, cursor.rowsEmitted));
  }

  /** The batch cache holds what the inputs delivered: generation `g` is the input's batch `g`. */
  ghost predicate CacheSound(cache: map<(nat, nat), seq<Row>>, cursors: seq<InputCursor>) {
    forall k :: k in cache ==>
      && k.0 < |cursors| && 0 < k.1 <= |cursors[k.0].source|
      && cache[k] == ItemRows(cursors[k.0].source[k.1 - 1])
  }

  lemma EmptyCacheIsSound(cursors: seq<InputCursor>)
    ensures CacheSound(map[], cursors)
  {
  }

  /** Every row an input may still charge fits an output by itself. */
  ghost predicate SharesFit(cursors: seq<InputCursor>, targetBytes: nat) {
    && targetBytes <= U64_MAX
    && forall i :: 0 <= i < |cursors| ==>
        cursors[i].descriptor.rowCount > 0 && RowsFit(cursors[i].descriptor, targetBytes)
  }

  ghost predicate RowsFit(d: SegmentDescriptor, targetBytes: nat)
    requires d.rowCount > 0
  {
    forall p: nat :: p < d.rowCount ==> 0 < EstimatedRowBytes(d, p) <= targetBytes
  }

  lemma HeadFits(cursor: InputCursor, targetBytes: nat)
    requires Open(cursor) && RestOf(cursor) != [] && RowsFit(cursor.descriptor, targetBytes)
    ensures 0 < RestOf(cursor)[0].bytes <= targetBytes
  {
    OpenHasRest(cursor);
    cursor.CurrentRow();
  }

  /** Growing past a full output stops; growing by one accepted row is one step of growing. */
  ghost predicate GrowsFrom(all: seq<Item>, taken: seq<Item>, rest: seq<Item>, targetRows: nat, targetBytes: nat) {
    && all == taken + rest
    && (taken != [] ==>
          Grow(all, 1, targetRows, targetBytes) == Grow(all, |taken|, targetRows, targetBytes))
  }

  lemma GrowOne(all: seq<Item>, taken: seq<Item>, rest: seq<Item>, targetRows: nat, targetBytes: nat)
    requires GrowsFrom(all, taken, rest, targetRows, targetBytes) && rest != []
    requires taken == [] || (|taken| < targetRows && Bytes(taken) + rest[0].bytes <= targetBytes)
    ensures GrowsFrom(all, taken + [rest[0]], rest[1..], targetRows, targetBytes)
  {
    hide Bytes, Grow;
    TakeOne(taken, rest);
    if taken != [] {
      GrowStep(all, |taken|, targetRows, targetBytes);
    }
  }

  lemma TakeOne(taken: seq<Item>, rest: seq<Item>)
    requires rest != []
    ensures var all := taken + rest;
            && all[..|taken|] == taken && all[|taken|] == rest[0] && all == (taken + [rest[0]]) + rest[1..]
            && (taken == [] ==> taken + [rest[0]] == [rest[0]])
  {
  }

  lemma GrowStep(all: seq<Item>, n: nat, targetRows: nat, targetBytes: nat)
    requires n < |all| && n < targetRows && Bytes(all[..n]) + all[n].bytes <= targetBytes
    ensures Grow(all, n, targetRows, targetBytes) == Grow(all, n + 1, targetRows, targetBytes)
  {
    hide Bytes;
  }

  lemma GrowDone(all: seq<Item>, taken: seq<Item>, rest: seq<Item>, targetRows: nat, targetBytes: nat)
    requires GrowsFrom(all, taken, rest, targetRows, targetBytes) && taken != []
    requires rest == [] || |taken| >= targetRows || Bytes(taken) + rest[0].bytes > targetBytes
    ensures Pack(all, targetRows, targetBytes) == [taken] + Pack(rest, targetRows, targetBytes)
  {
    assert all[..|taken|] == taken;
    assert all[|taken|..] == rest;
  }

  /** The row the merge takes next. The key on the heap is always the cursor's current key, so the
      mismatch between heap and cursor that the source guards against cannot occur. */
  method PeekRow(cursors: seq<InputCursor>, heap: set<HeapEntry>, ghost rests: seq<seq<Item>>)
    returns (entry: HeapEntry, row: SelectedRow)
    requires Merging(cursors, heap, rests) && heap != {}
    ensures entry in heap && IsNext(rests, entry.inputIndex)
    ensures row.rowIndex < |row.batch|
    ensures entry.key == Key(row.batch[row.rowIndex])
    ensures Item(row.batch[row.rowIndex], row.bytes) == rests[entry.inputIndex][0]
    ensures CacheSound(map[(row.inputIndex, row.batchGeneration) := row.batch], cursors)
    ensures forall t :: SharesFit(cursors, t) ==> 0 < row.bytes <= t
  {
    entry := PeekLeast(heap);
    LeastIsNext(heap, rests, entry);
    var cursor := cursors[entry.inputIndex];
    assert rests[entry.inputIndex] == RestOf(cursor);
    row := SelectRow(cursor, entry.inputIndex);
    forall t | SharesFit(cursors, t) ensures 0 < row.bytes <= t {
      HeadFits(cursor, t);
    }
  }

  /** Adds a row to the output unless the output is full. It fails when the byte sum leaves 64 bits. */
  method TryAppend(acc: OutputAccumulator, row: SelectedRow, ghost cursors: seq<InputCursor>)
    returns (r: Result<bool, BuildError>)
    requires acc.Valid() && CacheSound(acc.Cache(), cursors)
    requires CacheSound(map[(row.inputIndex, row.batchGeneration) := row.batch], cursors)
    requires row.rowIndex < |row.batch| && 0 < row.bytes <= acc.targetBytes
    requires Bytes(acc.items) <= acc.targetBytes
    modifies acc
    ensures acc.Valid() && CacheSound(acc.Cache(), cursors) && Bytes(acc.items) <= acc.targetBytes
    ensures r == if old(acc.items) != [] && Bytes(old(acc.items)) + row.bytes > U64_MAX then Failure(BuildFailed)
                 else Success(old(acc.items) == [] ||
                        (|old(acc.items)| < acc.targetRows && Bytes(old(acc.items)) + row.bytes <= acc.targetBytes))
    ensures acc.items ==
            if r == Success(true) then old(acc.items) + [Item(row.batch[row.rowIndex], row.bytes)] else old(acc.items)
  {
    r := acc.CanAccept(row.bytes);
    if r == Success(true) {
      var cacheKey := (row.inputIndex, row.batchGeneration);
      assert cacheKey in map[cacheKey := row.batch];
      assert (acc.items + [Item(row.batch[row.rowIndex], row.bytes)])[..|acc.items|] == acc.items;
      acc.Append(row);
    }
  }

  /** The byte sum of an output and the row after it leaves 64 bits. */
  predicate Overflows(taken: seq<Item>, rest: seq<Item>) {
    taken != [] && rest != [] && Bytes(taken) + rest[0].bytes > U64_MAX
  }

  /** Merges rows into one output until it is full or nothing is left. */
  method FillOutput(cursors: seq<InputCursor>, heap: set<HeapEntry>, targetRows: nat, targetBytes: nat,
                    ghost rests: seq<seq<Item>>)
    returns (r: Result<set<HeapEntry>, BuildError>, acc: OutputAccumulator, ghost rests': seq<seq<Item>>)
    requires Merging(cursors, heap, rests) && heap != {} && SharesFit(cursors, targetBytes)
    modifies cursors
    ensures fresh(acc)
    ensures r == Failure(InputInvalid) ==> !AllValid(cursors)
    ensures r != Failure(NotBeneficial)
    ensures r.Success? ==> Merging(cursors, r.value, rests') && acc.Valid() && acc.items != []
    ensures r.Success? ==> |acc.items| + |Flatten(rests')| == |Flatten(rests)|
    ensures AllValid(cursors) ==>
              Pack(Merged(rests), targetRows, targetBytes) ==
                  [acc.items] + Pack(Merged(rests'), targetRows, targetBytes)
    ensures AllValid(cursors) ==> (r.Failure? <==> Overflows(acc.items, Merged(rests')))
  {
    hide Merging, AllValid, CacheSound, Merged, OutputAccumulator.Valid, OutputAccumulator.Cache;
    acc := new OutputAccumulator(targetRows, targetBytes);
    EmptyCacheIsSound(cursors);
    rests' := rests;
    var remaining := heap;
    while remaining != {}
      invariant Merging(cursors, remaining, rests')
      invariant acc.Valid() && CacheSound(acc.Cache(), cursors) && Bytes(acc.items) <= targetBytes
      invariant |acc.items| + |Flatten(rests')| == |Flatten(rests)|
      invariant acc.items == [] ==> remaining != {}
      invariant AllValid(cursors) ==> GrowsFrom(Merged(rests), acc.items, Merged(rests'), targetRows, targetBytes)
      decreases |Flatten(rests')|
    {
      ghost var taken := acc.items;
      var entry, row := PeekRow(cursors, remaining, rests');
      ghost var i := entry.inputIndex;
      TakeHead(rests', i);
      if AllValid(cursors) {
        ValidStreamsAreSorted(cursors, remaining, rests');
        MergedStep(rests', i);
      }
      var accepted := TryAppend(acc, row, cursors);
      if accepted.Failure? {
        if AllValid(cursors) {
          GrowDone(Merged(rests), acc.items, Merged(rests'), targetRows, targetBytes);
        }
        return Failure(accepted.error), acc, rests';
      }
      if !accepted.value {
        break;
      }
      var advanced := AdvanceInput(cursors, remaining, entry, rests');
      if advanced.Failure? {
        return Failure(InputInvalid), acc, rests';
      }
      if AllValid(cursors) {
        GrowOne(Merged(rests), taken, Merged(rests'), targetRows, targetBytes);
      }
      remaining, rests' := advanced.value, rests'[i := rests'[i][1..]];
    }
    if AllValid(cursors) {
      NothingLeft(cursors, remaining, rests');
      GrowDone(Merged(rests), acc.items, Merged(rests'), targetRows, targetBytes);
    }
    return Success(remaining), acc, rests';
  }

  lemma MergedStep(rests: seq<seq<Item>>, i: nat)
    requires AllSorted(rests) && IsNext(rests, i)
    ensures Merged(rests) != [] && Merged(rests)[0] == rests[i][0]
    ensures Merged(rests)[1..] == Merged(rests[i := rests[i][1..]])
  {
    MergeStep(rests, i);
  }

  lemma HeadIsOnHeap(heap: set<HeapEntry>, rests: seq<seq<Item>>, i: nat)
    requires HeapMatches(heap, rests) && i < |rests|
    ensures rests[i] != [] ==> heap != {}
  {
  }

  /** An empty heap means every input is exhausted. */
  lemma NothingLeft(cursors: seq<InputCursor>, heap: set<HeapEntry>, rests: seq<seq<Item>>)
    requires Merging(cursors, heap, rests)
    ensures heap == {} ==> Flatten(rests) == [] && Merged(rests) == [] && AllValid(cursors)
  {
    if heap == {} {
      forall i | 0 <= i < |cursors|
        ensures rests[i] == [] && StreamValid(cursors[i].descriptor, cursors[i].source, cursors[i].day)
      {
        assert rests[i] == RestOf(cursors[i]);
        HeadIsOnHeap(heap, rests, i);
        OpenHasRest(cursors[i]);
      }
      FlattenEmpty(rests);
    }
  }

  lemma {:induction false} FlattenEmpty(parts: seq<seq<Item>>)
    requires forall i :: 0 <= i < |parts| ==> parts[i] == []
    ensures Flatten(parts) == []
  {
    if parts != [] {
      FlattenEmpty(parts[1..]);
    }
  }

  // ---------- the whole build ----------

  /** One finished output: its rows, their exact bounds in milliseconds, and the bytes charged. */
  datatype LocalOutput = LocalOutput(rows: seq<Row>, bounds: TimeBounds, bytes: nat)

  /** The charged rows of every input of a claim. */
  ghost function InputItems(claim: Claim, streams: seq<seq<StreamItem>>): seq<seq<Item>>
    requires |streams| == |claim.inputs|
    requires forall i :: 0 <= i < |claim.inputs| ==> claim.inputs[i].descriptor.rowCount > 0
  {
    seq(|streams|, i requires 0 <= i < |streams| => Items(claim.inputs[i].descriptor, StreamRows(streams[i])))
  }

  ghost predicate StreamsValid(claim: Claim, streams: seq<seq<StreamItem>>)
    requires |streams| == |claim.inputs|
  {
    forall i :: 0 <= i < |streams| ==> StreamValid(claim.inputs[i].descriptor, streams[i], claim.eventDay)
  }

  /** What a build must produce: the stable sort of all input rows, packed greedily. */
  ghost function Packed(claim: Claim, streams: seq<seq<StreamItem>>, limits: Limits): seq<seq<Item>>
    requires |streams| == |claim.inputs|
    requires forall i :: 0 <= i < |claim.inputs| ==> claim.inputs[i].descriptor.rowCount > 0
  {
    Pack(Merged(InputItems(claim, streams)), limits.targetRows, limits.targetBytes)
  }

  function TimesOf(bounds: TimeBounds, day: int): SegmentTimes {
    SegmentTimes(day, InMicroseconds(bounds))
  }

  ghost predicate Holds(output: LocalOutput, items: seq<Item>, day: int) {
    && output.rows == Rows(items)
    && ValidTimes(TimesOf(output.bounds, day))
    && Some(output.bounds) == BoundsOf(output.rows)
    && output.bytes == Bytes(items)
  }

  ghost predicate AllHold(outputs: seq<LocalOutput>, packed: seq<seq<Item>>, day: int) {
    |outputs| == |packed| && forall k :: 0 <= k < |outputs| ==> Holds(outputs[k], packed[k], day)
  }

  lemma ValidClaimSharesFit(claim: Claim, limits: Limits)
    requires BuildLimits(limits) && ValidateClaim(claim, limits) == Success(())
    requires forall i :: 0 <= i < |claim.inputs| ==> ValidDescriptor(claim.inputs[i].descriptor)
    ensures |claim.inputs| >= 2 && claim.totals == TotalsOf(claim.inputs)
    ensures forall i :: 0 <= i < |claim.inputs| ==>
              claim.inputs[i].descriptor.rowCount > 0 && RowsFit(claim.inputs[i].descriptor, limits.targetBytes)
  {
    forall i, p: nat | 0 <= i < |claim.inputs| && p < claim.inputs[i].descriptor.rowCount
      ensures 0 < EstimatedRowBytes(claim.inputs[i].descriptor, p) <= limits.targetBytes
    {
      ShareWithinTarget(claim.inputs[i].descriptor, p, limits.targetBytes);
    }
  }

  lemma ShareWithinTarget(d: SegmentDescriptor, p: nat, targetBytes: nat)
    requires p < d.rowCount && d.uncompressedBytes < targetBytes
    ensures 0 < EstimatedRowBytes(d, p) <= targetBytes
  {
    ShareRange(d, p);
    if d.uncompressedBytes < d.rowCount {
      assert d.rowCount / d.rowCount == 1 && d.rowCount % d.rowCount == 0;
    }
  }

  /** The cursors read the inputs of the claim. */
  ghost predicate CursorsOf(cursors: seq<InputCursor>, claim: Claim, streams: seq<seq<StreamItem>>) {
    && |cursors| <= |claim.inputs| && |cursors| <= |streams|
    && forall i :: 0 <= i < |cursors| ==>
         && cursors[i].descriptor == claim.inputs[i].descriptor
         && cursors[i].source == streams[i] && cursors[i].day == claim.eventDay
  }

  method OpenInput(descriptor: SegmentDescriptor, day: int, stream: seq<StreamItem>)
    returns (r: Result<InputCursor, BuildError>)
    requires descriptor.rowCount > 0
    ensures r.Success? ==>
              && fresh(r.value) && r.value.descriptor == descriptor && r.value.day == day && r.value.source == stream
              && Open(r.value) && RestOf(r.value) == Items(descriptor, StreamRows(stream)) && RestOf(r.value) != []
    ensures r.Failure? ==> r.error == InputInvalid && !StreamValid(descriptor, stream, day)
  {
    var first := OpenCursor(descriptor, day, stream);
    if first.Failure? {
      return Failure(InputInvalid);
    }
    OpenHasRest(first.value);
    return Success(first.value);
  }

  method HeadKey(cursor: InputCursor) returns (key: RowKey)
    requires Open(cursor) && RestOf(cursor) != []
    ensures key == ItemKey(RestOf(cursor)[0])
  {
    OpenHasRest(cursor);
    key := cursor.CurrentKey();
  }

  /** Opens every input on its first row. */
  method OpenInputs(claim: Claim, streams: seq<seq<StreamItem>>)
    returns (r: Result<(), BuildError>, cursors: seq<InputCursor>)
    requires |streams| == |claim.inputs|
    requires forall i :: 0 <= i < |claim.inputs| ==> claim.inputs[i].descriptor.rowCount > 0
    ensures forall i :: 0 <= i < |cursors| ==> fresh(cursors[i])
    ensures r.Failure? ==> r.error == InputInvalid && !StreamsValid(claim, streams)
    ensures r.Success? ==> CursorsOf(cursors, claim, streams) && |cursors| == |streams|
    ensures r.Success? ==> AllOpen(cursors) && Rests(cursors) == InputItems(claim, streams)
    ensures r.Success? ==> forall i :: 0 <= i < |cursors| ==> InputItems(claim, streams)[i] != []
  {
    hide Open, RestOf, StreamValid;
    cursors := [];
    ghost var rests := InputItems(claim, streams);
    for i := 0 to |streams|
      invariant |cursors| == i && AllOpen(cursors) && CursorsOf(cursors, claim, streams)
      invariant forall k :: 0 <= k < i ==> fresh(cursors[k]) && RestOf(cursors[k]) == rests[k] && rests[k] != []
    {
      var input := OpenInput(claim.inputs[i].descriptor, claim.eventDay, streams[i]);
      if input.Failure? {
        return Failure(input.error), cursors;
      }
      cursors := cursors + [input.value];
    }
    return Success(()), cursors;
  }

  method FillHeap(cursors: seq<InputCursor>) returns (heap: set<HeapEntry>)
    requires AllOpen(cursors) && forall i :: 0 <= i < |cursors| ==> Rests(cursors)[i] != []
    ensures Merging(cursors, heap, Rests(cursors)) && (cursors != [] ==> heap != {})
  {
    hide Open, RestOf;
    heap := {};
    ghost var rests := Rests(cursors);
    for i := 0 to |cursors|
      invariant HeapMatches(heap, rests[..i]) && (i > 0 ==> heap != {})
    {
      assert rests[i] == RestOf(cursors[i]);
      var key := HeadKey(cursors[i]);
      heap := heap + {HeapEntry(key, i)};
    }
    assert rests[..|cursors|] == rests;
  }

  /** A row whose times an output descriptor can carry. */
  predicate RowStorable(row: Row, day: int) {
    InDay(row, day) && Representable(row.eventTime) && Representable(row.ingestionTime)
  }

  predicate AllStorable(items: seq<Item>, day: int) {
    forall k :: 0 <= k < |items| ==> RowStorable(items[k].row, day)
  }

  /** Materializes an output; only a row outside the calendar or the event day can make this fail. */
  method FinishOutput(acc: OutputAccumulator, day: int) returns (r: Result<LocalOutput, BuildError>)
    requires acc.Valid() && acc.items != []
    ensures r.Success? ==> Holds(r.value, acc.items, day)
    ensures r.Failure? ==> r.error == BuildFailed
    ensures AllStorable(acc.items, day) ==> r.Success?
  {
    var rows := acc.Materialize();
    BoundsOfTight(rows);
    var bounds := acc.bounds.value;
    if AllStorable(acc.items, day) {
      StorableBounds(rows, bounds, day);
    }
    if !(Representable(bounds.minEvent) && Representable(bounds.maxEvent) && Representable(bounds.minIngestion)
         && Representable(bounds.maxIngestion) && ValidTimes(TimesOf(bounds, day))) {
      return Failure(BuildFailed);
    }
    return Success(LocalOutput(rows, bounds, acc.estimatedBytes));
  }

  lemma StorableBounds(rows: seq<Row>, bounds: TimeBounds, day: int)
    requires Tight(bounds, rows) && forall row :: row in rows ==> RowStorable(row, day)
    ensures Representable(bounds.minEvent) && Representable(bounds.maxEvent)
    ensures Representable(bounds.minIngestion) && Representable(bounds.maxIngestion)
    ensures ValidTimes(TimesOf(bounds, day))
  {
    var first :| first in rows && first.eventTime == bounds.minEvent;
    var last :| last in rows && last.eventTime == bounds.maxEvent;
    var early :| early in rows && early.ingestionTime == bounds.minIngestion;
    var late :| late in rows && late.ingestionTime == bounds.maxIngestion;
    assert RowStorable(first, day) && RowStorable(last, day) && RowStorable(early, day) && RowStorable(late, day);
    assert Within(first, bounds);
    DayOfMicroseconds(bounds.minEvent, day);
    DayOfMicroseconds(bounds.maxEvent, day);
  }

  lemma DayOfMicroseconds(milliseconds: int, day: int)
    requires day * MILLISECONDS_PER_DAY <= milliseconds < (day + 1) * MILLISECONDS_PER_DAY
    ensures milliseconds * 1000 / (1000 * MILLISECONDS_PER_DAY) == day
  {
  }

  /** The rows of a stream that agrees with a constructed descriptor are storable. */
  lemma ValidStreamIsStorable(d: SegmentDescriptor, stream: seq<StreamItem>, day: int)
    requires ValidDescriptor(d) && StreamValid(d, stream, day)
    ensures forall k :: 0 <= k < |StreamRows(stream)| ==> RowStorable(StreamRows(stream)[k], day)
  {
    hide ValidDescriptor, InMilliseconds, InDay, Representable, StreamRows;
    var rows := StreamRows(stream);
    BoundsOfTight(rows);
    forall k | 0 <= k < |rows| ensures RowStorable(rows[k], day) {
      assert rows[k] in rows;
      RowIsRepresentable(rows[k], d);
    }
  }

  lemma RowIsRepresentable(row: Row, d: SegmentDescriptor)
    requires ValidDescriptor(d) && Within(row, InMilliseconds(d.times.bounds))
    ensures Representable(row.eventTime) && Representable(row.ingestionTime)
  {
    hide ValidTimes;
  }

  /** Every packed item is an item of some input. */
  lemma PackedItemIsInput(inputs: seq<seq<Item>>, targetRows: nat, targetBytes: nat, k: nat, j: nat)
    returns (i: nat, q: nat)
    requires k < |Pack(Merged(inputs), targetRows, targetBytes)|
    requires j < |Pack(Merged(inputs), targetRows, targetBytes)[k]|
    ensures i < |inputs| && q < |inputs[i]|
    ensures Pack(Merged(inputs), targetRows, targetBytes)[k][j] == inputs[i][q]
  {
    var packed: seq<seq<Item>> := Pack(Merged(inputs), targetRows, targetBytes);
    PackKeepsItems(Merged(inputs), targetRows, targetBytes);
    StableSortCorrect(Flatten(inputs), ItemKey);
    FlattenAround(packed, k);
    var item := packed[k][j];
    assert item == Merged(inputs)[|Flatten(packed[..k])| + j];
    assert item in multiset(Merged(inputs));
    var p :| 0 <= p < |Flatten(inputs)| && Flatten(inputs)[p] == item;
    i, q := FlattenMember(inputs, p);
  }

  lemma PackedRowsAreStorable(claim: Claim, streams: seq<seq<StreamItem>>, limits: Limits, k: nat)
    requires |streams| == |claim.inputs|
    requires forall i :: 0 <= i < |claim.inputs| ==> ValidDescriptor(claim.inputs[i].descriptor)
    requires StreamsValid(claim, streams) && k < |Packed(claim, streams, limits)|
    ensures AllStorable(Packed(claim, streams, limits)[k], claim.eventDay)
  {
    hide StreamValid, Pack, RowStorable;
    var inputs := InputItems(claim, streams);
    var packed: seq<seq<Item>> := Packed(claim, streams, limits);
    forall j | 0 <= j < |packed[k]| ensures RowStorable(packed[k][j].row, claim.eventDay) {
      var i, q := PackedItemIsInput(inputs, limits.targetRows, limits.targetBytes, k, j);
      ValidStreamIsStorable(claim.inputs[i].descriptor, streams[i], claim.eventDay);
    }
  }

  /** Writing an output yields the size of its file, or fails. */
  type Writer = seq<Row> -> Option<nat>

  ghost function StagedBytes(packed: seq<seq<Item>>, write: Writer): nat {
    if packed == [] then 0
    else
      var size := write(Rows(packed[|packed| - 1]));
      StagedBytes(packed[..|packed| - 1], write) + (if size.Some? then size.value else 0)
  }

  ghost predicate WritesFit(packed: seq<seq<Item>>, write: Writer, maximumStaging: nat) {
    && (forall k :: 0 <= k < |packed| ==> write(Rows(packed[k])).Some?)
    && StagedBytes(packed, write) <= maximumStaging
  }

  lemma {:induction false} WritesFitPrefix(packed: seq<seq<Item>>, n: nat, write: Writer, maximumStaging: nat)
    requires n <= |packed| && WritesFit(packed, write, maximumStaging)
    ensures WritesFit(packed[..n], write, maximumStaging)
    decreases |packed|
  {
    if n < |packed| {
      WritesFitPrefix(packed[..|packed| - 1], n, write, maximumStaging);
      assert packed[..|packed| - 1][..n] == packed[..n];
    } else {
      assert packed[..n] == packed;
    }
  }

  /** What is known between two outputs. */
  ghost predicate Progress(packed: seq<seq<Item>>, done: seq<seq<Item>>, rests: seq<seq<Item>>, limits: Limits) {
    packed == done + Pack(Merged(rests), limits.targetRows, limits.targetBytes)
  }

  lemma ProgressStep(packed: seq<seq<Item>>, done: seq<seq<Item>>, rests: seq<seq<Item>>, limits: Limits,
                     items: seq<Item>, rests': seq<seq<Item>>)
    requires Progress(packed, done, rests, limits)
    requires Pack(Merged(rests), limits.targetRows, limits.targetBytes) ==
             [items] + Pack(Merged(rests'), limits.targetRows, limits.targetBytes)
    ensures Progress(packed, done + [items], rests', limits)
    ensures |done| < |packed| && packed[|done|] == items && packed[..|done| + 1] == done + [items]
  {
    hide Pack, Merged;
    assert done + ([items] + Pack(Merged(rests'), limits.targetRows, limits.targetBytes))
        == done + [items] + Pack(Merged(rests'), limits.targetRows, limits.targetBytes);
  }

  /** The sum at the end of an output leaves 64 bits exactly when the packing says so. */
  lemma OverflowIsSeen(packed: seq<seq<Item>>, done: seq<seq<Item>>, items: seq<Item>, rests: seq<seq<Item>>,
                       limits: Limits)
    requires Progress(packed, done + [items], rests, limits) && |done| < |packed| && packed[|done|] == items
             && items != []
    ensures SumFits(packed, |done|) <==> !Overflows(items, Merged(rests))
  {
    hide Pack, Merged, Bytes;
    var rest, more := Merged(rests), Pack(Merged(rests), limits.targetRows, limits.targetBytes);
    if rest != [] {
      PackBegins(rest, limits.targetRows, limits.targetBytes);
      assert packed[|done| + 1] == more[0];
    } else {
      PackNothing(limits.targetRows, limits.targetBytes);
      assert packed == done + [items];
    }
  }

  lemma PackNothing(targetRows: nat, targetBytes: nat)
    ensures Pack([], targetRows, targetBytes) == []
  {
  }

  predicate FitSoFar(packed: seq<seq<Item>>, n: nat) {
    forall k :: 0 <= k < n && k < |packed| ==> SumFits(packed, k)
  }

  lemma FitsNothing(packed: seq<seq<Item>>)
    ensures FitSoFar(packed, 0)
  {
  }

  lemma FitsOneMore(packed: seq<seq<Item>>, n: nat)
    ensures FitSoFar(packed, n) && n < |packed| && SumFits(packed, n) ==> FitSoFar(packed, n + 1)
  {
  }

  lemma AllFit(packed: seq<seq<Item>>)
    ensures FitSoFar(packed, |packed|) <==> SumsFit(packed)
  {
  }

  lemma TotalRows(claim: Claim, streams: seq<seq<StreamItem>>)
    requires |streams| == |claim.inputs|
    requires forall i :: 0 <= i < |claim.inputs| ==> claim.inputs[i].descriptor.rowCount > 0
    requires StreamsValid(claim, streams)
    ensures |Flatten(InputItems(claim, streams))| == TotalsOf(claim.inputs).rows
  {
    TotalRowsPrefix(claim, streams, |streams|);
    assert InputItems(claim, streams)[..|streams|] == InputItems(claim, streams);
    assert claim.inputs[..|streams|] == claim.inputs;
  }

  lemma {:induction false} TotalRowsPrefix(claim: Claim, streams: seq<seq<StreamItem>>, n: nat)
    requires |streams| == |claim.inputs| && n <= |streams|
    requires forall i :: 0 <= i < |claim.inputs| ==> claim.inputs[i].descriptor.rowCount > 0
    requires StreamsValid(claim, streams)
    ensures |Flatten(InputItems(claim, streams)[..n])| == TotalsOf(claim.inputs[..n]).rows
  {
    if n > 0 {
      TotalRowsPrefix(claim, streams, n - 1);
      var items := InputItems(claim, streams);
      assert |items| == |streams| && |items[n - 1]| == claim.inputs[n - 1].descriptor.rowCount;
      hide InputItems, StreamsValid;
      FlattenSnoc(items[..n - 1], items[n - 1]);
      TakeSnoc(items, n);
      TakeSnoc(claim.inputs, n);
    }
  }

  lemma OpenedSharesFit(cursors: seq<InputCursor>, claim: Claim, streams: seq<seq<StreamItem>>, limits: Limits)
    requires CursorsOf(cursors, claim, streams) && limits.targetBytes <= U64_MAX
    requires forall i :: 0 <= i < |claim.inputs| ==>
               claim.inputs[i].descriptor.rowCount > 0 && RowsFit(claim.inputs[i].descriptor, limits.targetBytes)
    ensures SharesFit(cursors, limits.targetBytes)
  {
    hide RowsFit;
  }

  /** Builds every output of a claim. */
  method BuildOutputs(claim: Claim, streams: seq<seq<StreamItem>>, limits: Limits, maximumStaging: nat, write: Writer)
    returns (r: Result<seq<LocalOutput>, BuildError>)
    requires BuildLimits(limits) && |streams| == |claim.inputs|
    requires forall i :: 0 <= i < |claim.inputs| ==> ValidDescriptor(claim.inputs[i].descriptor)
    ensures ValidateClaim(claim, limits).Failure? ==> r == Failure(ValidateClaim(claim, limits).error)
    ensures r.Success? ==>
              && StreamsValid(claim, streams)
              && AllHold(r.value, Packed(claim, streams, limits), claim.eventDay)
              && 0 < |r.value| < |claim.inputs|
    ensures r.Success? ==> SumsFit(Packed(claim, streams, limits))
    ensures r == Failure(InputInvalid) ==>
              ValidateClaim(claim, limits) == Failure(InputInvalid) || !StreamsValid(claim, streams)
    ensures r == Failure(NotBeneficial) && ValidateClaim(claim, limits).Success? && StreamsValid(claim, streams) ==>
              |Packed(claim, streams, limits)| >= |claim.inputs|
    ensures ValidateClaim(claim, limits).Success? && StreamsValid(claim, streams)
            && SumsFit(Packed(claim, streams, limits))
            && WritesFit(Packed(claim, streams, limits), write, maximumStaging) ==>
              if |Packed(claim, streams, limits)| < |claim.inputs| then r.Success? else r == Failure(NotBeneficial)
  {
    assert forall i :: 0 <= i < |claim.inputs| ==> claim.inputs[i].descriptor.rowCount > 0;
    hide ValidateClaim, ValidDescriptor, StreamsValid, AllHold, Packed, SumsFit, WritesFit, Merging, InputItems,
      RowsFit, TotalsOf, Rests, AllOpen, CursorsOf, SharesFit;
    var accepted := ValidateClaim(claim, limits);
    if accepted.Failure? {
      return Failure(accepted.error);
    }
    ValidClaimSharesFit(claim, limits);
    var begun, cursors := OpenInputs(claim, streams);
    if begun.Failure? {
      return Failure(begun.error);
    }
    OpenedSharesFit(cursors, claim, streams, limits);
    var heap := FillHeap(cursors);
    r := MergeOutputs(claim, streams, limits, maximumStaging, write, cursors, heap);
  }

  method MergeOutputs(claim: Claim, ghost streams: seq<seq<StreamItem>>, limits: Limits, maximumStaging: nat,
                      write: Writer, cursors: seq<InputCursor>, initialHeap: set<HeapEntry>)
    returns (r: Result<seq<LocalOutput>, BuildError>)
    requires |streams| == |claim.inputs| == |cursors| && |cursors| >= 2 && claim.totals == TotalsOf(claim.inputs)
    requires forall i :: 0 <= i < |claim.inputs| ==> ValidDescriptor(claim.inputs[i].descriptor)
    requires CursorsOf(cursors, claim, streams) && SharesFit(cursors, limits.targetBytes)
    requires Merging(cursors, initialHeap, InputItems(claim, streams)) && initialHeap != {}
    modifies cursors
    ensures r.Success? ==>
              && StreamsValid(claim, streams)
              && AllHold(r.value, Packed(claim, streams, limits), claim.eventDay)
              && 0 < |r.value| < |claim.inputs|
    ensures r.Success? ==> SumsFit(Packed(claim, streams, limits))
    ensures r == Failure(InputInvalid) ==> !StreamsValid(claim, streams)
    ensures r == Failure(NotBeneficial) && StreamsValid(claim, streams) ==>
              |Packed(claim, streams, limits)| >= |claim.inputs|
    ensures StreamsValid(claim, streams) && SumsFit(Packed(claim, streams, limits))
            && WritesFit(Packed(claim, streams, limits), write, maximumStaging) ==>
              if |Packed(claim, streams, limits)| < |claim.inputs| then r.Success? else r == Failure(NotBeneficial)
  {
    assert forall i :: 0 <= i < |claim.inputs| ==> claim.inputs[i].descriptor.rowCount > 0;
    hide Merging, StreamsValid, Packed, InputItems, AllHold, StagedBytes, WritesFit, Progress, SharesFit,
      CursorsOf, ValidDescriptor, TotalsOf, SumFits, SumsFit, FitSoFar;
    ghost var inputs := InputItems(claim, streams);
    ghost var packed: seq<seq<Item>> := Packed(claim, streams, limits);
    ghost var done, rests := [], inputs;
    NothingDone(claim, streams, limits, write);
    FitsNothing(packed);
    var heap, outputs, totalRows, totalStaging := initialHeap, [], 0, 0;
    while heap != {}
      invariant Merging(cursors, heap, rests)
      invariant AllHold(outputs, done, claim.eventDay) && |outputs| == |done| < |claim.inputs|
      invariant outputs == [] ==> heap != {}
      invariant StreamsValid(claim, streams) ==> Progress(packed, done, rests, limits)
      invariant StreamsValid(claim, streams) ==> FitSoFar(packed, |done|)
      invariant totalRows + |Flatten(rests)| == |Flatten(inputs)|
      invariant totalStaging == StagedBytes(done, write)
      decreases |Flatten(rests)|
    {
      var output, size, heap'; ghost var items, rests';
      output, size, heap', items, rests' :=
        NextOutput(claim, streams, limits, maximumStaging, write, cursors, heap, rests, done);
      if output.Failure? {
        return Failure(output.error);
      }
      OutputsSnoc(outputs, done, output.value, items, claim.eventDay, write);
      FitsOneMore(packed, |done|);
      totalRows := totalRows + |output.value.rows|;
      totalStaging := totalStaging + size;
      outputs := outputs + [output.value];
      done, rests, heap := done + [items], rests', heap';
      if totalStaging > maximumStaging {
        return Failure(BuildFailed);
      }
      if |outputs| >= |claim.inputs| {
        return Failure(NotBeneficial);
      }
    }
    EverythingDone(claim, streams, limits, cursors, heap, rests, done);
    AllFit(packed);
    assert totalRows == claim.totals.rows;
    return Success(outputs);
  }

  /** One output of the build, from merging its rows to writing its file. */
  method NextOutput(claim: Claim, ghost streams: seq<seq<StreamItem>>, limits: Limits, ghost maximumStaging: nat,
                    write: Writer, cursors: seq<InputCursor>, heap: set<HeapEntry>,
                    ghost rests: seq<seq<Item>>, ghost done: seq<seq<Item>>)
    returns (r: Result<LocalOutput, BuildError>, size: nat, heap': set<HeapEntry>,
             ghost items: seq<Item>, ghost rests': seq<seq<Item>>)
    requires |streams| == |claim.inputs|
    requires forall i :: 0 <= i < |claim.inputs| ==> ValidDescriptor(claim.inputs[i].descriptor)
    requires CursorsOf(cursors, claim, streams) && |cursors| == |streams| && SharesFit(cursors, limits.targetBytes)
    requires Merging(cursors, heap, rests) && heap != {}
    requires StreamsValid(claim, streams) ==> Progress(Packed(claim, streams, limits), done, rests, limits)
    modifies cursors
    ensures r.Success? ==>
              && Merging(cursors, heap', rests')
              && Holds(r.value, items, claim.eventDay) && write(Rows(items)) == Some(size)
              && |r.value.rows| == |items| > 0 && |items| + |Flatten(rests')| == |Flatten(rests)|
    ensures r.Success? && StreamsValid(claim, streams) ==>
              && Progress(Packed(claim, streams, limits), done + [items], rests', limits)
              && |done| < |Packed(claim, streams, limits)| && SumFits(Packed(claim, streams, limits), |done|)
    ensures r.Failure? ==> r.error != NotBeneficial && (r.error == InputInvalid ==> !StreamsValid(claim, streams))
    ensures StreamsValid(claim, streams) && SumsFit(Packed(claim, streams, limits))
            && WritesFit(Packed(claim, streams, limits), write, maximumStaging) ==>
              r.Success? && StagedBytes(done + [items], write) <= maximumStaging
  {
    assert AllValid(cursors) <==> StreamsValid(claim, streams);
    assert forall i :: 0 <= i < |claim.inputs| ==> claim.inputs[i].descriptor.rowCount > 0;
    hide Merging, StreamValid, Merged, Holds, Pack, SharesFit, ValidDescriptor, AllStorable, StagedBytes, WritesFit,
      Progress, OutputAccumulator.Valid, SumFits, Overflows;
    var filled, acc;
    filled, acc, rests' := FillOutput(cursors, heap, limits.targetRows, limits.targetBytes, rests);
    items, size, heap' := acc.items, 0, {};
    if AllValid(cursors) {
      ghost var packed: seq<seq<Item>> := Packed(claim, streams, limits);
      ProgressStep(packed, done, rests, limits, items, rests');
      OverflowIsSeen(packed, done, items, rests', limits);
    }
    if filled.Failure? {
      r := Failure(filled.error);
      return;
    }
    heap' := filled.value;
    if AllValid(cursors) {
      ghost var packed: seq<seq<Item>> := Packed(claim, streams, limits);
      PackedRowsAreStorable(claim, streams, limits, |done|);
      if WritesFit(packed, write, maximumStaging) {
        WritesFitPrefix(packed, |done| + 1, write, maximumStaging);
        LastWriteFits(done, items, write, maximumStaging);
      }
    }
    r, size := WriteOutput(acc, claim.eventDay, write);
  }

  method WriteOutput(acc: OutputAccumulator, day: int, write: Writer)
    returns (r: Result<LocalOutput, BuildError>, size: nat)
    requires acc.Valid() && acc.items != []
    ensures r.Success? ==> Holds(r.value, acc.items, day) && |r.value.rows| == |acc.items|
    ensures r.Success? ==> write(Rows(acc.items)) == Some(size)
    ensures r.Failure? ==> r.error == BuildFailed
    ensures AllStorable(acc.items, day) && write(Rows(acc.items)).Some? ==> r.Success?
  {
    size := 0;
    r := FinishOutput(acc, day);
    if r.Success? {
      var written := write(r.value.rows);
      if written.None? {
        r := Failure(BuildFailed);
      } else {
        size := written.value;
      }
    }
  }

  lemma OutputsSnoc(outputs: seq<LocalOutput>, done: seq<seq<Item>>, output: LocalOutput, items: seq<Item>,
                    day: int, write: Writer)
    requires AllHold(outputs, done, day) && Holds(output, items, day) && write(Rows(items)).Some?
    ensures AllHold(outputs + [output], done + [items], day)
    ensures StagedBytes(done + [items], write) == StagedBytes(done, write) + write(Rows(items)).value
  {
    assert (done + [items])[..|done|] == done;
  }

  lemma LastWriteFits(done: seq<seq<Item>>, items: seq<Item>, write: Writer, maximumStaging: nat)
    requires WritesFit(done + [items], write, maximumStaging)
    ensures write(Rows(items)).Some? && StagedBytes(done + [items], write) <= maximumStaging
  {
    assert (done + [items])[|done|] == items;
  }

  lemma NothingDone(claim: Claim, streams: seq<seq<StreamItem>>, limits: Limits, write: Writer)
    requires |streams| == |claim.inputs|
    requires forall i :: 0 <= i < |claim.inputs| ==> claim.inputs[i].descriptor.rowCount > 0
    ensures AllHold([], [], claim.eventDay) && StagedBytes([], write) == 0
    ensures Progress(Packed(claim, streams, limits), [], InputItems(claim, streams), limits)
  {
  }

  /** An empty heap ends the build: every stream proved valid and everything was packed. */
  lemma EverythingDone(claim: Claim, streams: seq<seq<StreamItem>>, limits: Limits, cursors: seq<InputCursor>,
                       heap: set<HeapEntry>, rests: seq<seq<Item>>, done: seq<seq<Item>>)
    requires |streams| == |claim.inputs| == |cursors| && CursorsOf(cursors, claim, streams)
    requires forall i :: 0 <= i < |claim.inputs| ==> claim.inputs[i].descriptor.rowCount > 0
    requires Merging(cursors, heap, rests) && heap == {}
    requires StreamsValid(claim, streams) ==> Progress(Packed(claim, streams, limits), done, rests, limits)
    ensures StreamsValid(claim, streams) && Packed(claim, streams, limits) == done
    ensures Flatten(rests) == [] && |Flatten(InputItems(claim, streams))| == TotalsOf(claim.inputs).rows
  {
    hide Merging, StreamValid, TotalsOf;
    NothingLeft(cursors, heap, rests);
    TotalRows(claim, streams);
  }
}
