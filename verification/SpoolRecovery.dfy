/** Crashes and recovery. A crash leaves the files as they are, with any prefix of an append in flight, the old or the
    new checkpoint, or a reclamation half done; recovery succeeds from all of them. */
module SpoolRecovery {
  import opened Basics
  import opened ByteStrings
  import opened Frames
  import opened FrameScan
  import opened Spooling

  // ---------- the checkpoint file ----------

  const CHECKPOINT_MAGIC: seq<Byte> := [0x45, 0x4C, 0x55, 0x43, 0x4B, 0x50, 0x30, 0x31]
  const CHECKPOINT_VERSION: nat := 1
  const CHECKPOINT_PREFIX_BYTES: nat := 20
  const CHECKPOINT_BYTES: nat := 52

  function CheckpointPrefix(position: nat): (bytes: seq<Byte>)
    ensures |bytes| == CHECKPOINT_PREFIX_BYTES
  {
    CHECKPOINT_MAGIC + BigEndian(CHECKPOINT_VERSION, 2) + BigEndian(CHECKPOINT_BYTES, 2) + BigEndian(position, 8)
  }

  function EncodeCheckpoint(position: nat, hash: Hash): (bytes: seq<Byte>)
    ensures |bytes| == CHECKPOINT_BYTES
  {
    CheckpointPrefix(position) + hash(CheckpointPrefix(position))
  }

  function LoadCheckpoint(bytes: seq<Byte>, hash: Hash): Result<nat, SpoolError> {
    if |bytes| != CHECKPOINT_BYTES then Failure(CorruptSpool)
    else if bytes[..8] != CHECKPOINT_MAGIC then Failure(CorruptSpool)
    else if Number(bytes[8..10]) != CHECKPOINT_VERSION then Failure(CorruptSpool)
    else if Number(bytes[10..12]) != CHECKPOINT_BYTES then Failure(CorruptSpool)
    else if bytes[CHECKPOINT_PREFIX_BYTES..] != hash(bytes[..CHECKPOINT_PREFIX_BYTES]) then Failure(CorruptSpool)
    else Success(Number(bytes[12..20]))
  }

  /** Loading undoes storing, and only stored checkpoints load. */
  lemma CheckpointRoundTrip(bytes: seq<Byte>, position: nat, hash: Hash)
    requires position <= U64_MAX
    ensures LoadCheckpoint(bytes, hash) == Success(position) <==> bytes == EncodeCheckpoint(position, hash)
  {
    hide BigEndian, Number, Values, LoadCheckpoint, EncodeCheckpoint;
    LoadsStored(position, hash);
    if LoadCheckpoint(bytes, hash) == Success(position) {
      LoadedIsStored(bytes, position, hash);
    }
  }

  lemma LoadsStored(position: nat, hash: Hash)
    requires position <= U64_MAX
    ensures LoadCheckpoint(EncodeCheckpoint(position, hash), hash) == Success(position)
  {
    hide BigEndian, Number, Values;
    ValuesOfWidths();
    NumberOfBigEndian(CHECKPOINT_VERSION, 2);
    NumberOfBigEndian(CHECKPOINT_BYTES, 2);
    NumberOfBigEndian(position, 8);
    var stored := EncodeCheckpoint(position, hash);
    assert stored[..8] == CHECKPOINT_MAGIC && stored[8..10] == BigEndian(CHECKPOINT_VERSION, 2);
    assert stored[10..12] == BigEndian(CHECKPOINT_BYTES, 2) && stored[12..20] == BigEndian(position, 8);
    assert stored[..20] == CheckpointPrefix(position);
  }

  lemma LoadedIsStored(bytes: seq<Byte>, position: nat, hash: Hash)
    requires LoadCheckpoint(bytes, hash) == Success(position)
    ensures bytes == EncodeCheckpoint(position, hash)
  {
    hide BigEndian, Number, Values;
    BigEndianOfNumber(bytes[8..10]);
    BigEndianOfNumber(bytes[10..12]);
    BigEndianOfNumber(bytes[12..20]);
    assert bytes[..20] == bytes[..8] + bytes[8..10] + bytes[10..12] + bytes[12..20];
    assert bytes == bytes[..20] + bytes[20..];
  }

  // ---------- opening ----------

  datatype Disk = Disk(data: seq<Byte>, checkpoint: seq<Byte>)

  datatype Report = Report(
    checkpoint: nat, committedBatches: nat, pendingBatches: nat, committedBytes: nat, discardedBytes: nat, admits: bool)

  /** What recovery can work with: a checkpoint that loads and a file that splits at it. */
  ghost predicate Recoverable(disk: Disk, batches: seq<Batch>, tail: seq<Byte>, first: nat, limit: nat, hash: Hash) {
    && LoadCheckpoint(disk.checkpoint, hash).Success?
    && Splits(disk.data, batches, tail, limit, hash)
    && BoundaryAt(batches, LoadCheckpoint(disk.checkpoint, hash).value, first, hash)
  }

  lemma SplitWithoutTail(file: seq<Byte>, batches: seq<Batch>, tail: seq<Byte>, limit: nat, hash: Hash)
    requires Splits(file, batches, tail, limit, hash)
    ensures |tail| <= |file| && file[..|file| - |tail|] == Encode(batches, hash)
  {
  }

  /** Recovers the spool of a directory. It succeeds exactly when its files are recoverable, and hands out the spool
      with exactly the whole frames of the file. */
  method Open(disk: Disk, capacity: nat, limit: nat, hash: Hash)
    returns (spool: Spool?, r: Result<Report, SpoolError>, ghost batches: seq<Batch>, ghost first: nat)
    requires |disk.data| <= U64_MAX && capacity <= U64_MAX
    ensures r.Success? <==>
              limit + OVERHEAD <= U64_MAX && exists others, tail, k :: Recoverable(disk, others, tail, k, limit, hash)
    ensures r.Success? ==>
              && (exists tail :: Recoverable(disk, batches, tail, first, limit, hash))
              && spool != null && fresh(spool) && spool.Valid() && !spool.failed
              && spool.batches == batches && spool.hash == hash && spool.capacity == capacity
              && spool.checkpoint == r.value.checkpoint == End(batches, first, hash)
              && spool.committed == |spool.file| == r.value.committedBytes
              && spool.generation == 0 && spool.extent == SpoolExtent(0, spool.committed) && spool.unpublished == []
              && spool.written == [] && spool.largest == limit
              && r.value.committedBatches == |batches| && r.value.pendingBatches == |batches| - first
              && r.value.committedBytes + r.value.discardedBytes == |disk.data|
              && (r.value.admits <==> r.value.committedBytes + limit + OVERHEAD <= capacity)
  {
    spool, batches, first := null, [], 0;
    var checkpoint := LoadCheckpoint(disk.checkpoint, hash);
    if checkpoint.Failure? {
      return spool, Failure(checkpoint.error), batches, first;
    }
    hide Splits, BoundaryAt, LoadCheckpoint, Encode, End;
    var scan, found, tail, k := ScanCommittedFrames(disk.data, checkpoint.value, limit, hash);
    if scan.Failure? {
      return spool, Failure(scan.error), batches, first;
    }
    if limit + OVERHEAD > U64_MAX {
      return spool, Failure(InvariantViolated), batches, first;
    }
    batches, first := found, k;
    assert Recoverable(disk, batches, tail, first, limit, hash);
    SplitWithoutTail(disk.data, batches, tail, limit, hash);
    SplitFits(disk.data, batches, tail, limit, hash);
    BoundaryIs(batches, checkpoint.value, first, hash);
    var data := disk.data[..scan.value.committedBytes];
    var available := if scan.value.committedBytes > capacity then 0 else capacity - scan.value.committedBytes;
    spool := new Spool(capacity, hash, batches, data, checkpoint.value, limit);
    r := Success(Report(checkpoint.value, scan.value.committedBatches, scan.value.pendingBatches,
                        scan.value.committedBytes, scan.value.discardedBytes, limit + OVERHEAD <= available));
  }

  lemma SplitFits(file: seq<Byte>, batches: seq<Batch>, tail: seq<Byte>, limit: nat, hash: Hash)
    requires Splits(file, batches, tail, limit, hash)
    ensures forall k :: 0 <= k < |batches| ==> BatchFits(batches[k], limit)
  {
  }

  lemma BoundaryIs(batches: seq<Batch>, position: nat, k: nat, hash: Hash)
    requires BoundaryAt(batches, position, k, hash)
    ensures IsBoundary(batches, position, hash) && k <= |batches| && position == End(batches, k, hash)
  {
  }

  // ---------- crashes ----------

  datatype CrashPoint =
    | Quiet                            // between operations
    | Appending(batch: Batch, n: nat)  // the first n bytes of a frame reached the file
    | Advancing(target: nat)           // the new checkpoint is installed
    | Resetting                        // reclamation: the checkpoint is reset, the data still there
    | Truncated                        // reclamation: the data is gone too

  /** The files a crash at `point` leaves behind. */
  ghost function LeftBehind(spool: Spool, point: CrashPoint): Disk
    reads spool
  {
    var hash := spool.hash;
    match point
    case Quiet => Disk(spool.file, EncodeCheckpoint(spool.stored, hash))
    case Appending(batch, n) =>
      var frame := Frame(batch, hash);
      Disk(spool.file + (if n < |frame| then frame[..n] else frame), EncodeCheckpoint(spool.stored, hash))
    case Advancing(target) => Disk(spool.file, EncodeCheckpoint(target, hash))
    case Resetting => Disk(spool.file, EncodeCheckpoint(0, hash))
    case Truncated => Disk([], EncodeCheckpoint(0, hash))
  }

  /** The operation a crash interrupts can be under way. */
  ghost predicate CanCrash(spool: Spool, point: CrashPoint)
    reads spool
  {
    match point
    case Quiet => true
    case Appending(batch, _) =>
      !spool.failed && exists k :: 0 <= k < |spool.live| && |batch.body| <= spool.live[k].limit
    case Advancing(target) =>
      !spool.failed && target <= spool.committed && IsBoundary(spool.batches, target, spool.hash)
    case Resetting => !spool.failed && spool.Reclaimable()
    case Truncated => !spool.failed && spool.Reclaimable()
  }

  /** The whole frames the crash leaves. */
  ghost function Surviving(spool: Spool, point: CrashPoint): seq<Batch>
    reads spool
  {
    match point
    case Appending(batch, n) =>
      if n < |Frame(batch, spool.hash)| then spool.batches else spool.batches + [batch]
    case Truncated => []
    case _ => spool.batches
  }

  lemma SplitsGrow(file: seq<Byte>, batches: seq<Batch>, tail: seq<Byte>, limit: nat, larger: nat, hash: Hash)
    requires Splits(file, batches, tail, limit, hash) && limit <= larger
    ensures Splits(file, batches, tail, larger, hash)
  {
    LimitsGrow(batches, tail, limit, larger, hash);
    hide AcceptedTail, Encode;
  }

  lemma SpoolSplits(spool: Spool)
    requires spool.Valid()
    ensures Splits(spool.file, spool.batches, spool.torn, spool.largest, spool.hash)
  {
    hide AcceptedTail, Encode;
  }

  /** A frame in flight fits the spool: its reservation still holds the room. */
  lemma AppendFits(spool: Spool, batch: Batch, k: nat)
    requires spool.Valid() && k < |spool.live| && |batch.body| <= spool.live[k].limit
    ensures BatchFits(batch, spool.largest)
    ensures !spool.failed ==> |Encode(spool.batches, spool.hash)| + |batch.body| + OVERHEAD <= spool.Bound() <= U64_MAX
  {
    hide AcceptedTail, Encode, IsBoundary;
    LiveWithout(spool.live, k);
    StoredWithinReserved(spool.written);
  }

  lemma AppendingSplits(spool: Spool, batch: Batch, n: nat) returns (tail: seq<Byte>)
    requires spool.Valid() && CanCrash(spool, Appending(batch, n))
    ensures Splits(LeftBehind(spool, Appending(batch, n)).data, Surviving(spool, Appending(batch, n)), tail,
                   spool.largest, spool.hash)
    ensures |LeftBehind(spool, Appending(batch, n)).data| <= U64_MAX
  {
    var k: nat :| k < |spool.live| && |batch.body| <= spool.live[k].limit;
    AppendFits(spool, batch, k);
    SpoolSplits(spool);
    var hash := spool.hash;
    var frame := Frame(batch, hash);
    assert |frame| == |batch.body| + OVERHEAD;
    assert spool.torn == [];
    assert spool.file == Encode(spool.batches, hash);
    hide Frame, Encode, AcceptedTail;
    if n < |frame| {
      tail := frame[..n];
      StrictPrefixIsTail(batch, n, |Encode(spool.batches, hash)|, spool.largest, hash);
    } else {
      tail := [];
      FramesSnoc(spool.batches, batch, hash);
      NoTail(|Encode(spool.batches + [batch], hash)|, spool.largest);
      assert spool.file + frame == spool.file + frame + tail;
    }
  }

  lemma CrashSplits(spool: Spool, point: CrashPoint) returns (tail: seq<Byte>)
    requires spool.Valid() && CanCrash(spool, point)
    ensures Splits(LeftBehind(spool, point).data, Surviving(spool, point), tail, spool.largest, spool.hash)
    ensures |LeftBehind(spool, point).data| <= U64_MAX
  {
    hide Frame, Encode, AcceptedTail;
    match point
    case Appending(batch, n) => tail := AppendingSplits(spool, batch, n);
    case Truncated =>
      tail := [];
      NoFrames(spool.hash);
      NoTail(0, spool.largest);
    case _ =>
      tail := spool.torn;
      SpoolSplits(spool);
  }

  /** The checkpoint a crash leaves, a boundary of the surviving frames. */
  ghost function LeftCheckpoint(spool: Spool, point: CrashPoint): nat
    reads spool
  {
    match point
    case Advancing(target) => target
    case Resetting => 0
    case Truncated => 0
    case _ => spool.stored
  }

  lemma CrashCheckpoint(spool: Spool, point: CrashPoint)
    requires spool.Valid() && CanCrash(spool, point)
    ensures LeftBehind(spool, point).checkpoint == EncodeCheckpoint(LeftCheckpoint(spool, point), spool.hash)
    ensures LeftCheckpoint(spool, point) <= U64_MAX
    ensures IsBoundary(Surviving(spool, point), LeftCheckpoint(spool, point), spool.hash)
  {
    hide AcceptedTail, Encode, IsBoundary, EncodeCheckpoint, Frame;
    StartIsBoundary(Surviving(spool, point), spool.hash);
    if point.Appending? {
      BoundaryKept(spool.batches, point.batch, spool.stored, spool.hash);
    }
  }

  /** From every crash point of every reachable spool the files are recoverable with the frames that survive. */
  lemma EveryCrashIsRecoverable(spool: Spool, point: CrashPoint, limit: nat)
    requires spool.Valid() && CanCrash(spool, point) && limit >= spool.largest
    ensures |LeftBehind(spool, point).data| <= U64_MAX
    ensures exists tail, k :: Recoverable(LeftBehind(spool, point), Surviving(spool, point), tail, k, limit, spool.hash)
  {
    var tail := CrashSplits(spool, point);
    CrashCheckpoint(spool, point);
    var disk, batches, checkpoint := LeftBehind(spool, point), Surviving(spool, point), LeftCheckpoint(spool, point);
    SplitsGrow(disk.data, batches, tail, spool.largest, limit, spool.hash);
    CheckpointRoundTrip(disk.checkpoint, checkpoint, spool.hash);
    hide Splits, LeftBehind, Surviving, LeftCheckpoint, LoadCheckpoint, EncodeCheckpoint, BoundaryAt;
    var k: nat :| BoundaryAt(batches, checkpoint, k, spool.hash);
    assert Recoverable(disk, batches, tail, k, limit, spool.hash);
  }

  /** Only frames the checkpoint had passed are ever gone, and only frames that were appended come back, in order. */
  lemma NothingAcknowledgedIsLost(spool: Spool, point: CrashPoint)
    requires spool.Valid() && CanCrash(spool, point)
    ensures if point.Truncated? then End(spool.batches, |spool.batches|, spool.hash) == spool.checkpoint
            else spool.batches <= Surviving(spool, point)
    ensures Surviving(spool, point) <= spool.batches ||
            (point.Appending? && Surviving(spool, point) == spool.batches + [point.batch])
  {
    hide Frame, Encode, AcceptedTail, IsBoundary;
    if point.Truncated? {
      NothingWritten(spool.written);
      assert spool.batches[..|spool.batches|] == spool.batches;
      assert spool.file == Encode(spool.batches, spool.hash) + [];
    }
  }

  /** Crash, recover, go on: the recovered spool holds exactly the surviving frames, with everything from the
      checkpoint on still pending. */
  method RecoverAfterCrash(spool: Spool, point: CrashPoint, disk: Disk, limit: nat)
    returns (next: Spool, report: Report)
    requires spool.Valid() && CanCrash(spool, point) && disk == LeftBehind(spool, point)
    requires spool.largest <= limit && limit + OVERHEAD <= U64_MAX && spool.capacity <= U64_MAX
    ensures fresh(next) && next.Valid() && !next.failed
    ensures next.batches == old(Surviving(spool, point)) && next.checkpoint == old(LeftCheckpoint(spool, point))
  {
    EveryCrashIsRecoverable(spool, point, limit);
    CrashCheckpoint(spool, point);
    CheckpointRoundTrip(disk.checkpoint, LeftCheckpoint(spool, point), spool.hash);
    ghost var surviving := Surviving(spool, point);
    ghost var tail, k :| Recoverable(disk, surviving, tail, k, limit, spool.hash);
    hide Splits, BoundaryAt, LoadCheckpoint, EncodeCheckpoint, Surviving, LeftBehind, CanCrash, End;
    var found, r, batches, first := Open(disk, spool.capacity, limit, spool.hash);
    ghost var rest :| Recoverable(disk, batches, rest, first, limit, spool.hash);
    SplitIsUnique(disk.data, batches, rest, surviving, tail, 0, limit, spool.hash);
    BoundaryIs(batches, LoadCheckpoint(disk.checkpoint, spool.hash).value, first, spool.hash);
    next, report := found, r.value;
  }
}
