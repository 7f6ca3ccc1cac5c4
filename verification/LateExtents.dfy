/** Runs of the spool in which its reader fails or goes back: appends settled out of order, and extents published out of
    order though the appends were settled in order. Every frame in them is whole and durable. */
module LateExtents {
  import opened Basics
  import opened Frames
  import opened FrameScan
  import opened Spooling
  import opened SpoolOrder
  import opened ReaderPlace
  import opened SpoolReader

  const FIRST: nat := 1 + OVERHEAD
  const SECOND: nat := 2 + OVERHEAD

  function Short(metadata: Metadata): Batch {
    Batch(metadata, [0])
  }

  function Long(metadata: Metadata): Batch {
    Batch(metadata, [0, 0])
  }

  /** A reader that has caught up with an empty spool. */
  method NewReader(hash: Hash) returns (c: Consumer)
    ensures fresh(c) && fresh(c.spool) && c.IsInStep() && c.spool.hash == hash && c.limit == 2
    ensures c.state == Following && c.generation == c.spool.generation == 0 && c.position == 0
    ensures c.spool.batches == [] && c.spool.live == [] && c.spool.written == [] && c.spool.unpublished == []
    ensures c.delivered == c.accepted == [] && c.spool.committed == c.spool.reserved == c.spool.checkpoint == 0
    ensures !c.spool.failed && c.spool.capacity == 1000 && c.spool.extent == SpoolExtent(0, 0) && c.spool.file == []
  {
    hide Encode, AcceptedTail, IsBoundary, InPlace, Left, InStep, Readable, Spool.Valid;
    NoFrames(hash);
    StartIsBoundary([], hash);
    EndOfNone([], hash);
    var spool := new Spool(1000, hash, [], [], 0, 2);
    c := new Consumer(spool, 2, 0);
    var r := c.WaitNextBatch();
    EmptyReader(c);
  }

  lemma EmptyReader(c: Consumer)
    requires c.Valid() && c.spool.batches == []
    ensures c.accepted == c.delivered
  {
    hide AllMake, Spool.Valid, SettledInOrder;
  }

  /** Two appends are written, neither is settled. */
  method WriteTwo(c: Consumer, metadata: Metadata)
    requires c.IsInStep() && c.limit == 2 && !c.spool.failed && c.spool.capacity == 1000 && c.spool.reserved == 0
    requires c.spool.live == [] && c.spool.written == [] && c.spool.batches == [] && c.spool.committed == 0
    modifies c.spool
    ensures c.IsInStep() && !c.spool.failed && c.spool.live == []
    ensures c.spool.batches == [Short(metadata), Long(metadata)]
    ensures c.spool.written == [Spooling.Write(FIRST, FIRST), Spooling.Write(SECOND, SECOND)]
    ensures c.spool.reserved == FIRST + SECOND && c.spool.committed == 0
            && c.spool.checkpoint == old(c.spool.checkpoint)
    ensures c.spool.generation == old(c.spool.generation) && c.spool.extent == old(c.spool.extent)
    ensures c.spool.unpublished == old(c.spool.unpublished)
  {
    hide InPlace, Left, InStep, Spool.Valid, SettledInOrder;
    var a := c.Reserve(1);
    assert c.spool.live == [a.value];
    var first := c.Write(0, a.value, metadata, [0], Synchronized);
    assert c.spool.live == [];
    var b := c.Reserve(2);
    assert c.spool.live == [b.value];
    var second := c.Write(0, b.value, metadata, [0, 0], Synchronized);
    assert c.spool.live == [];
  }

  /** The frames of the two appends, and what the reader finds between and after them. */
  lemma TwoFrames(spool: Spool, metadata: Metadata)
    requires spool.Valid() && spool.largest <= 2 && spool.batches == [Short(metadata), Long(metadata)]
    ensures End(spool.batches, 1, spool.hash) == FIRST && End(spool.batches, 2, spool.hash) == FIRST + SECOND
    ensures FIRST <= |spool.file|
    ensures StartsWithFrame(spool.file[0..], 2, spool.hash)
            && FirstBatch(spool.file[0..], 2, spool.hash) == Short(metadata)
    ensures StartsWithFrame(spool.file[FIRST..], 2, spool.hash)
    ensures FirstBatch(spool.file[FIRST..], 2, spool.hash) == Long(metadata)
    ensures forall end :: Readable(spool.file, 0, end, 2, spool.hash) <==> FIRST <= end
    ensures forall end :: Readable(spool.file, FIRST, end, 2, spool.hash) <==> FIRST + SECOND <= end
  {
    hide Encode, Frame, StartsWithFrame, FirstBatch, Spool.Valid, End;
    EndOfNone(spool.batches, spool.hash);
    NextOfSpool(spool, 0, 2);
    NextOfSpool(spool, 1, 2);
    EndOfNext(spool.batches, 0, spool.hash);
    EndOfNext(spool.batches, 1, spool.hash);
  }

  // ---------- settled out of order ----------

  /** With two appends in flight, the longer second one is settled and published first. The extent then ends inside its
      frame: the reader hands out the first batch and fails on the second. */
  method SettleOutOfOrder(metadata: Metadata, hash: Hash)
    returns (c: Consumer, first: Result<Option<Batch>, SpoolError>, second: Result<Option<Batch>, SpoolError>)
    ensures fresh(c) && c.spool.Valid() && !c.spool.failed && c.spool.batches == [Short(metadata), Long(metadata)]
    ensures !IsBoundary(c.spool.batches, c.spool.extent.end, c.spool.hash)
    ensures first == Success(Some(Short(metadata))) && second.Failure? && c.state == ReaderFailed
  {
    hide InPlace, Left, InStep, Spool.Valid, SettledInOrder, Readable, StartsWithFrame, FirstBatch, Frame, IsBoundary,
      StoredBytes, End;
    c := NewReader(hash);
    WriteTwo(c, metadata);
    ghost var written := c.spool.written;
    LargestFits(c);
    TwoFrames(c.spool, metadata);
    NoPrefixSum(written);
    var extent := Settle(c.spool, 1, SECOND, SECOND);
    c.spool.Publish(0, extent);
    first := c.NextBatch();
    second := c.NextBatch();
  }

  lemma LargestFits(c: Consumer)
    requires c.Valid() && c.limit == 2
    ensures c.spool.Valid() && SettledInOrder(c.spool) && c.spool.largest <= 2
  {
  }

  lemma NoPrefixSum(written: seq<Write>)
    requires |written| == 2 && written[0].stored == FIRST && written[1].stored == SECOND
    ensures forall j :: 0 <= j <= 2 ==> StoredBytes(written[..j]) != SECOND
  {
    WrittenSnoc([], written[0]);
    WrittenSnoc([written[0]], written[1]);
    assert written[..0] == [] && written[..1] == [] + [written[0]] && written[..2] == [written[0]] + [written[1]];
  }

  // ---------- settled in order, published out of order ----------

  /** Both appends are settled in order, but the extent of the second is published first. */
  method SecondIsTold(metadata: Metadata, hash: Hash) returns (c: Consumer, late: SpoolExtent)
    ensures fresh(c) && fresh(c.spool) && c.Valid() && !c.spool.failed && c.limit == 2
    ensures c.spool.batches == [Short(metadata), Long(metadata)] == c.accepted && c.delivered == []
    ensures c.state == Following && c.generation == c.spool.generation == 0 == c.position
    ensures late == SpoolExtent(0, FIRST) && c.spool.unpublished == [late] && c.spool.committed == FIRST + SECOND
    ensures c.spool.extent == SpoolExtent(0, FIRST + SECOND) && c.spool.reserved == c.spool.checkpoint == 0
    ensures c.spool.hash == hash
  {
    hide InPlace, Left, InStep, Spool.Valid, SettledInOrder, Readable, StartsWithFrame, FirstBatch, Frame, End;
    c := NewReader(hash);
    WriteTwo(c, metadata);
    late := c.SettleOldest(FIRST, FIRST);
    var extent := c.SettleOldest(SECOND, SECOND);
    c.Publish(1, extent);
    assert c.spool.unpublished == [late];
  }

  /** The reader hands out both, and the extent of the first is still to come. */
  method BothHandedOut(metadata: Metadata, hash: Hash) returns (c: Consumer, late: SpoolExtent)
    ensures fresh(c) && fresh(c.spool) && c.Valid() && !c.spool.failed && c.limit == 2
    ensures c.spool.batches == [Short(metadata), Long(metadata)] == c.delivered == c.accepted
    ensures c.state == Following && c.generation == c.spool.generation == 0
            && c.position == FIRST + SECOND == c.spool.committed
    ensures late == SpoolExtent(0, FIRST) && c.spool.unpublished == [late]
    ensures c.spool.extent == SpoolExtent(0, FIRST + SECOND) && c.spool.reserved == c.spool.checkpoint == 0
    ensures c.spool.hash == hash
  {
    hide InPlace, Left, InStep, Spool.Valid, SettledInOrder, Readable, StartsWithFrame, FirstBatch, Frame, End;
    c, late := SecondIsTold(metadata, hash);
    LargestFits(c);
    TwoFrames(c.spool, metadata);
    var first := c.NextBatch();
    var second := c.NextBatch();
  }

  /** When the late extent is published the reader fails, and for good. */
  method PublishOutOfOrder(metadata: Metadata, hash: Hash)
    returns (c: Consumer, third: Result<Option<Batch>, SpoolError>, again: Result<Option<Batch>, SpoolError>)
    ensures fresh(c) && c.SpoolOk() && !c.spool.failed && c.delivered == [Short(metadata), Long(metadata)]
    ensures third.Failure? && again.Failure? && c.state == ReaderFailed
  {
    hide InPlace, Left, InStep, Spool.Valid, SettledInOrder, Readable, StartsWithFrame, FirstBatch, Frame;
    var late;
    c, late := BothHandedOut(metadata, hash);
    c.Publish(0, late);
    third := c.NextBatch();
    again := c.NextBatch();
  }

  /** Everything is checkpointed and reclaimed, and the reader has followed the spool into its new generation. */
  method ReclaimBoth(metadata: Metadata, hash: Hash)
    returns (c: Consumer, late: SpoolExtent, moved: Result<Option<Batch>, SpoolError>)
    ensures fresh(c) && fresh(c.spool) && c.Valid() && !c.spool.failed && c.limit == 2
    ensures c.delivered == [Short(metadata), Long(metadata)] && c.spool.file == [] && c.spool.hash == hash
    ensures moved == Success(None) && c.state == Following && c.generation == c.spool.generation == 1
    ensures late == SpoolExtent(0, FIRST) && c.spool.unpublished == [late]
  {
    hide InPlace, Left, InStep, Spool.Valid, SettledInOrder, Readable, StartsWithFrame, FirstBatch, Frame, IsBoundary,
      End;
    c, late := BothHandedOut(metadata, hash);
    LargestFits(c);
    TwoFrames(c.spool, metadata);
    EndIsBoundary(c.spool.batches, 2, c.spool.hash);
    var advanced := c.Advance(CheckpointPlan(0, FIRST + SECOND));
    var reclaimed := c.Reclaim();
    c.Publish(1, reclaimed.value.value.extent);
    assert c.spool.unpublished == [late];
    moved := c.NextBatch();
  }

  /** When everything is checkpointed and reclaimed before, the reader goes back to the generation it had left, to the
      beginning of a file that is empty now, and fails there. */
  method PublishAfterReclamation(metadata: Metadata, hash: Hash)
    returns (c: Consumer, moved: Result<Option<Batch>, SpoolError>, back: Result<Option<Batch>, SpoolError>)
    ensures fresh(c) && c.SpoolOk() && !c.spool.failed && c.delivered == [Short(metadata), Long(metadata)]
    ensures moved == Success(None) && c.spool.generation == 1
    ensures back.Failure? && c.state == ReaderFailed && c.generation == 0 && c.position == 0
  {
    hide InPlace, Left, InStep, Spool.Valid, SettledInOrder, Readable, StartsWithFrame, FirstBatch, Frame;
    var late;
    c, late, moved := ReclaimBoth(metadata, hash);
    c.Publish(0, late);
    NothingToRead(c.spool.extent.end, hash);
    back := c.NextBatch();
  }

  lemma EndIsBoundary(batches: seq<Batch>, k: nat, hash: Hash)
    requires k <= |batches|
    ensures IsBoundary(batches, End(batches, k, hash), hash)
  {
    assert BoundaryAt(batches, End(batches, k, hash), k, hash);
  }

  lemma NothingToRead(end: nat, hash: Hash)
    ensures !Readable([], 0, end, 2, hash)
  {
  }
}
