/** The reader that follows the spool across reclamations. It fails, or goes back to a generation it has left, exactly
    when the extent it is told of lies behind it. Extents that are published in the order they were made never do: then,
    with any number of appends in flight that are settled in the order they were written, it hands out every batch that
    was pending at recovery or settled since exactly once and in order, and never fails. */
module SpoolReader {
  import opened Basics
  import opened ByteStrings
  import opened Frames
  import opened FrameScan
  import opened ReaderPlace
  import opened SpoolOrder
  import opened Spooling

  /** There is a frame at the position, and it ends within the range. */
  ghost predicate Readable(file: seq<Byte>, position: nat, end: nat, limit: nat, hash: Hash) {
    && position <= |file| && StartsWithFrame(file[position..], limit, hash)
    && position + |Frame(FirstBatch(file[position..], limit, hash), hash)| <= Min(end, U64_MAX)
  }

  /** Reads the frame at `position`, which must end within the committed range. */
  method ReadRecoveredBatch(file: seq<Byte>, position: nat, end: nat, limit: nat, hash: Hash)
    returns (r: Result<(Batch, nat), SpoolError>)
    ensures r.Success? <==> Readable(file, position, end, limit, hash)
    ensures r.Success? ==>
              var batch := FirstBatch(file[position..], limit, hash);
              r.value == (batch, position + |Frame(batch, hash)|)
  {
    hide DecodeHeader, ValidateDigestsAndFooter;
    if position > |file| {
      return Failure(CorruptSpool);
    }
    ghost var rest := file[position..];
    if |file| - position < HEADER_BYTES {
      return Failure(CorruptSpool);
    }
    var raw := file[position..position + HEADER_BYTES];
    assert rest[..HEADER_BYTES] == raw;
    var decoded := DecodeHeader(raw, limit);
    if decoded.Failure? {
      return Failure(decoded.error);
    }
    var length := decoded.value.bodyLength;
    var next := position + length + OVERHEAD;
    if next > U64_MAX {
      return Failure(CorruptSpool);
    }
    if next > end {
      return Failure(CorruptSpool);
    }
    if next > |file| {
      return Failure(CorruptSpool);
    }
    var body := file[position + HEADER_BYTES..position + HEADER_BYTES + length];
    var footer := file[position + HEADER_BYTES + length..next];
    assert rest[HEADER_BYTES..HEADER_BYTES + length] == body;
    assert rest[HEADER_BYTES + length..length + OVERHEAD] == footer;
    var checked := ValidateDigestsAndFooter(decoded.value, hash(body), hash(raw + body), footer);
    if checked.Failure? {
      return Failure(checked.error);
    }
    return Success((Batch(decoded.value.metadata, body), next));
  }

  /** The boundary after frame `k` is followed by exactly one frame up to the next one. */
  lemma NextFrame(batches: seq<Batch>, tail: seq<Byte>, k: nat, limit: nat, hash: Hash)
    requires k < |batches| && forall j :: 0 <= j < |batches| ==> BatchFits(batches[j], limit)
    ensures var file := Encode(batches, hash) + tail;
            && End(batches, k, hash) < |file|
            && StartsWithFrame(file[End(batches, k, hash)..], limit, hash)
            && FirstBatch(file[End(batches, k, hash)..], limit, hash) == batches[k]
            && End(batches, k, hash) + |Frame(batches[k], hash)| == End(batches, k + 1, hash) <= |file|
  {
    hide Encode, StartsWithFrame, FirstBatch, Frame;
    RestOfFrames(batches, tail, k, limit, hash);
    EndOfNext(batches, k, hash);
    EndWithin(batches, k + 1, hash);
  }

  /** Reserves room for one batch, writes its frame, settles the reservation and publishes the extent. */
  method AppendSettled(spool: Spool, bodyLimit: nat, metadata: Metadata, body: seq<Byte>)
    returns (r: Result<(nat, nat), SpoolError>)
    requires spool.Valid() && !spool.failed && spool.written == []
    modifies spool
    ensures spool.Valid() && !spool.failed && spool.written == [] && SettledInOrder(spool)
    ensures spool.largest <= Max(old(spool.largest), bodyLimit) && spool.unpublished == old(spool.unpublished)
    ensures spool.generation == old(spool.generation) && spool.checkpoint == old(spool.checkpoint)
    ensures r.Success? <==>
              && |body| <= bodyLimit && bodyLimit + OVERHEAD <= U64_MAX
              && old(spool.committed) + old(spool.reserved) + bodyLimit + OVERHEAD <= spool.capacity
    ensures r.Success? ==>
              && r.value == (|old(spool.file)|, |spool.file|)
              && spool.batches == old(spool.batches) + [Batch(metadata, body)]
              && spool.extent == SpoolExtent(spool.generation, spool.committed)
              && spool.committed == old(spool.committed) + |body| + OVERHEAD
    ensures r.Failure? ==>
              && spool.batches == old(spool.batches) && spool.committed == old(spool.committed)
              && spool.extent == old(spool.extent)
  {
    hide Encode, Frame, AcceptedTail, IsBoundary, End, BatchFits, Pending, StoredBytes, Spool.Accounted, Spool.Stored;
    QuietIsInOrder(spool);
    var reserved := spool.Reserve(bodyLimit);
    if reserved.Failure? {
      return Failure(reserved.error);
    }
    ghost var k := |spool.live| - 1;
    WritingKeepsOrder(spool.batches, [], spool.committed, Batch(metadata, body), reserved.value.bytes, spool.hash);
    r := spool.WriteFrame(k, reserved.value, metadata, body, Synchronized);
    if r.Failure? {
      spool.Release(k, reserved.value.bytes);
    } else {
      var extent := Settle(spool, 0, reserved.value.bytes, r.value.1 - r.value.0);
      PublishingLast(old(spool.unpublished), extent);
      spool.Publish(|spool.unpublished| - 1, extent);
      assert spool.written == [];
    }
  }

  lemma PublishingLast(unpublished: seq<SpoolExtent>, extent: SpoolExtent)
    ensures Without(unpublished + [extent], |unpublished|) == unpublished
  {
  }

  /** A reader at the end of frame `k`, told of an extent that ends inside the next frame, fails. */
  method ReadInsideFrame(file: seq<Byte>, ghost batches: seq<Batch>, ghost tail: seq<Byte>, ghost k: nat, position: nat,
                         end: nat, limit: nat, hash: Hash)
    returns (r: Result<(Batch, nat), SpoolError>)
    requires k < |batches| && forall j :: 0 <= j < |batches| ==> BatchFits(batches[j], limit)
    requires file == Encode(batches, hash) + tail && position == End(batches, k, hash)
    requires position < end < End(batches, k + 1, hash)
    ensures r.Failure?
  {
    hide Encode, Frame, StartsWithFrame, FirstBatch, End, BatchFits;
    NextFrame(batches, tail, k, limit, hash);
    r := ReadRecoveredBatch(file, position, end, limit, hash);
  }

  // ---------- the reader ----------

  class Consumer {
    const spool: Spool
    const limit: nat
    const recoveredEnd: nat
    var position: nat
    var generation: nat
    var state: ReaderState

    // How many frames of its generation the reader has passed, and how many recovery had found.
    ghost var index: nat
    ghost const recoveredIndex: nat
    // Everything handed out, and everything that was pending at recovery or settled since.
    ghost var delivered: seq<Batch>
    ghost var accepted: seq<Batch>

    ghost function Here(): Place
      reads this
    {
      Place(generation, position, index, state)
    }

    ghost function Recovered(): Found {
      Found(recoveredEnd, recoveredIndex)
    }

    ghost function View(): SpoolView
      reads spool
    {
      SpoolView(spool.generation, spool.batches, Max(0, |spool.batches| - |spool.written|), spool.checkpoint,
                [spool.extent] + spool.unpublished, spool.hash)
    }

    /** Appends are settled in the order they were written; extents were published in any order. */
    ghost predicate SpoolOk()
      reads spool
    {
      spool.Valid() && SettledInOrder(spool) && spool.largest <= limit
    }

    ghost predicate Valid()
      reads this, spool
    {
      SpoolOk() && InPlace(Here(), View(), Recovered()) && delivered + Left(Here(), View()) == accepted
    }

    /** The reader follows the spool and is told of an extent that lies behind it. */
    ghost predicate IsOvertaken()
      reads this, spool
    {
      Overtaken(Here(), View())
    }

    /** Extents have been published in the order they were made. */
    ghost predicate IsInStep()
      reads this, spool
    {
      Valid() && InStep(Here(), View(), Recovered(), spool.committed)
    }

    /** The reader as recovery hands it out, at the checkpoint. */
    constructor (spool: Spool, limit: nat, ghost first: nat)
      requires spool.Valid() && spool.written == [] && spool.unpublished == [] && spool.generation == 0
      requires spool.extent == SpoolExtent(0, spool.committed) && spool.largest <= limit
      requires BoundaryAt(spool.batches, spool.checkpoint, first, spool.hash)
      ensures IsInStep() && this.spool == spool && delivered == [] && accepted == spool.batches[first..]
      ensures state == ReadingRecovery && this.limit == limit
    {
      hide Encode, Frame, AcceptedTail, IsBoundary, BatchFits, End, Spool.Accounted, Spool.Stored;
      this.spool, this.limit := spool, limit;
      recoveredEnd, recoveredIndex := spool.committed, |spool.batches|;
      position, generation, state := spool.checkpoint, 0, ReadingRecovery;
      index, delivered, accepted := first, [], spool.batches[first..];
      new;
      QuietIsInOrder(spool);
      EndsDiffer(spool.batches, first, |spool.batches|, spool.hash);
      assert BoundaryAt(View().batches, spool.committed, |spool.batches|, spool.hash);
      assert EndsSettled(spool.extent.end, View());
      OneInStep(Here(), View(), Recovered(), spool.committed);
    }

    /** Looks at the published extent and goes to its generation; tells whether the reader is beyond it. */
    method Follow() returns (behind: bool)
      requires state == Following
      modifies this`position, this`generation, this`state, this`index
      ensures behind <==> position > spool.extent.end
      ensures Here() == old(Followed(Here(), spool.extent)).(state := if behind then ReaderFailed else Following)
      ensures old(Valid()) && !old(IsOvertaken()) ==> Valid() && !behind && generation >= old(generation)
      ensures old(IsOvertaken()) ==> behind || generation < old(generation)
    {
      hide InPlace, Left, Consumer.SpoolOk;
      if Valid() && !IsOvertaken() {
        FollowKeepsPlace(Here(), View(), Recovered());
      }
      if spool.extent.generation != generation {
        generation, position, index := spool.extent.generation, 0, 0;
      }
      behind := position > spool.extent.end;
      state := if behind then ReaderFailed else state;
    }

    /** Reads the frame at the position, inside the range that ends at `end`. */
    method ReadOne(end: nat, ghost last: nat) returns (r: Result<Option<Batch>, SpoolError>)
      modifies this`position, this`state, this`index, this`delivered
      ensures old(Valid() && MayRead(Here(), View(), Recovered(), end, last)) ==>
                r.Success? && Valid() && position <= end
      ensures r.Success? <==> Readable(spool.file, old(position), end, limit, spool.hash)
      ensures r.Success? ==>
                var batch := FirstBatch(spool.file[old(position)..], limit, spool.hash);
                && r.value == Some(batch) && position == old(position) + |Frame(batch, spool.hash)|
                && state == old(state)
                && delivered == old(delivered) + [batch] && index == old(index) + 1
      ensures r.Failure? ==> state == ReaderFailed && delivered == old(delivered) && position == old(position)
    {
      hide Encode, Frame, StartsWithFrame, FirstBatch, Readable, InPlace, Left, End, Consumer.SpoolOk;
      ghost var inRange := Valid() && MayRead(Here(), View(), Recovered(), end, last);
      if inRange {
        NextIsReadable(end, last);
        ReadKeepsPlace(Here(), View(), Recovered(), end, last);
      }
      var read := ReadRecoveredBatch(spool.file, position, end, limit, spool.hash);
      if read.Failure? {
        state := ReaderFailed;
        return Failure(read.error);
      }
      position := read.value.1;
      delivered := delivered + [read.value.0];
      index := index + 1;
      if inRange {
        OneMoreOut(old(delivered), read.value.0, old(Left(Here(), View())), Left(Here(), View()));
      }
      return Success(Some(read.value.0));
    }

    lemma NextIsReadable(end: nat, last: nat)
      requires Valid() && MayRead(Here(), View(), Recovered(), end, last)
      ensures index < |spool.batches| && Readable(spool.file, position, end, limit, spool.hash)
      ensures FirstBatch(spool.file[position..], limit, spool.hash) == spool.batches[index]
      ensures position + |Frame(spool.batches[index], spool.hash)| == End(spool.batches, index + 1, spool.hash)
    {
      hide Encode, Frame, StartsWithFrame, FirstBatch, End, AllMake, Spool.Valid, SettledInOrder;
      NextOfSpool(spool, index, limit);
      EndsDiffer(spool.batches, index + 1, last, spool.hash);
    }

    /** Hands out the next batch of the range it may read, if there is one. It fails or goes back exactly when it
        follows the spool and is told of an extent that lies behind it. */
    method NextBatch() returns (r: Result<Option<Batch>, SpoolError>)
      modifies this`position, this`generation, this`state, this`index, this`delivered
      ensures old(Valid()) ==> (r.Failure? || generation < old(generation) <==> old(IsOvertaken()))
      ensures old(Valid()) && !old(IsOvertaken()) ==> Valid()
      ensures old(IsInStep()) ==> IsInStep()
      ensures r.Success? && r.value.Some? ==> delivered == old(delivered) + [r.value.value] && state == old(state)
      ensures r.Failure? || r.value.None? ==> delivered == old(delivered)
      ensures r.Failure? ==> state == ReaderFailed
      ensures old(state) == ReaderFailed ==> r.Failure?
      ensures old(state) == Following && r == Success(None) ==>
                state == Following && spool.extent == SpoolExtent(generation, position)
      ensures old(state) == ReadingRecovery && r == Success(None) ==>
                state == RecoveryComplete && position == old(position) == recoveredEnd && generation == old(generation)
      ensures old(state) == RecoveryComplete ==> r == Success(None) && Here() == old(Here())
      ensures old(state) == Following ==>
                var at := old(Followed(Here(), spool.extent));
                && generation == at.generation && (r == Success(None) <==> at.position == spool.extent.end)
                && (r.Failure? ==> position == at.position)
                && (at.position < spool.extent.end ==>
                      && (r.Success? <==> Readable(spool.file, at.position, spool.extent.end, limit, spool.hash))
                      && (r.Success? ==>
                            var batch := FirstBatch(spool.file[at.position..], limit, spool.hash);
                            r.value == Some(batch) && position == at.position + |Frame(batch, spool.hash)|))
    {
      hide Frame, StartsWithFrame, FirstBatch, Readable, InPlace, Left, Ascending, MayRead, Consumer.SpoolOk;
      if Valid() {
        PlacedIsNotFailed(Here(), View(), Recovered());
      }
      if state == ReaderFailed {
        return Failure(InvariantViolated);
      }
      if state == RecoveryComplete {
        return Success(None);
      }
      var end := recoveredEnd;
      ghost var last := recoveredIndex;
      ghost var good := Valid() && !IsOvertaken();
      if state == Following {
        var behind := Follow();
        if behind {
          return Failure(CorruptSpool);
        }
        end := spool.extent.end;
        if good {
          last := PublishedRange(Here(), View(), Recovered());
        }
      } else if good {
        RecoveredRange(Here(), View(), Recovered());
      }
      if position == end {
        if good {
          StateKeepsPlace(Here(), View(), Recovered(), if state == ReadingRecovery then RecoveryComplete else state);
        }
        state := if state == ReadingRecovery then RecoveryComplete else state;
        return Success(None);
      }
      r := ReadOne(end, last);
    }

    /** One round of waiting: the next batch that is durable, or none when the reader is at the published extent. */
    method WaitNextBatch() returns (r: Result<Option<Batch>, SpoolError>)
      modifies this`position, this`generation, this`state, this`index, this`delivered
      ensures old(Valid()) && !Below(spool.extent, old(generation), old(position)) ==> Valid() && r.Success?
      ensures old(Valid()) && old(state) != ReadingRecovery ==>
                (r.Failure? || generation < old(generation) <==> Below(spool.extent, old(generation), old(position)))
      ensures old(IsInStep()) ==> IsInStep() && r.Success?
      ensures r.Success? && r.value.Some? ==> delivered == old(delivered) + [r.value.value]
      ensures r.Failure? || r.value.None? ==> delivered == old(delivered)
      ensures r.Failure? ==> state == ReaderFailed
      ensures old(state) == Following && r.Success? ==> state == Following
      ensures r == Success(None) ==> state == Following && spool.extent == SpoolExtent(generation, position)
      ensures old(IsInStep()) && r == Success(None) && spool.unpublished == [] ==> delivered == accepted
    {
      hide InPlace, Left, Ascending, Readable, Frame, StartsWithFrame, FirstBatch, Consumer.SpoolOk;
      if state == ReadingRecovery {
        r := NextBatch();
        if r.Failure? || r.value.Some? {
          return;
        }
      }
      if state == RecoveryComplete {
        if Valid() {
          StateKeepsPlace(Here(), View(), Recovered(), Following);
        }
        state := Following;
      }
      r := NextBatch();
      if IsInStep() && r == Success(None) && spool.unpublished == [] {
        EverythingIsOut();
      }
    }

    /** At an extent that is everything, nothing is left to hand out. */
    lemma EverythingIsOut()
      requires Valid() && spool.extent == SpoolExtent(spool.generation, spool.committed) ==
                 SpoolExtent(generation, position)
      ensures delivered == accepted
    {
      hide InPlace, Left, End, Spool.Valid;
      CommittedEnd(spool);
      NothingLeft(Here(), View(), Recovered());
    }

    /** Reserves room for one more append. */
    method Reserve(bodyLimit: nat) returns (r: Result<Reservation, SpoolError>)
      requires Valid() && bodyLimit <= limit
      modifies spool`reserved, spool`live, spool`largest
      ensures Valid() && (old(IsInStep()) ==> IsInStep())
      ensures r.Success? <==>
                && !spool.failed && bodyLimit + OVERHEAD <= U64_MAX
                && spool.committed + old(spool.reserved) + bodyLimit + OVERHEAD <= spool.capacity
      ensures spool.live == if r.Success? then old(spool.live) + [r.value] else old(spool.live)
      ensures r.Success? ==>
                && r.value == Reservation(bodyLimit, bodyLimit + OVERHEAD)
                && spool.reserved == old(spool.reserved) + bodyLimit + OVERHEAD
    {
      hide InPlace, Left, InStep, Pending, Spool.Accounted, Spool.Stored;
      r := spool.Reserve(bodyLimit);
    }

    /** Gives back the reservation of an append that was dropped or whose write failed. */
    method Release(ghost k: nat, bytes: nat)
      requires Valid() && k < |spool.live| && spool.live[k].bytes == bytes
      modifies spool`reserved, spool`live, spool`failed
      ensures Valid() && (old(IsInStep()) ==> IsInStep()) && spool.failed == old(spool.failed)
      ensures spool.reserved == old(spool.reserved) - bytes && spool.live == Without(old(spool.live), k)
    {
      hide InPlace, Left, InStep, Pending, Spool.Accounted, Spool.Stored;
      spool.Release(k, bytes);
    }

    /** Writes the frame of one append beside any number that are written and not settled. The reader sees nothing of
        it yet, even when writing fails and fails the spool. */
    method Write(ghost k: nat, reservation: Reservation, metadata: Metadata, body: seq<Byte>, outcome: WriteOutcome)
      returns (r: Result<(nat, nat), SpoolError>)
      requires Valid() && k < |spool.live| && spool.live[k] == reservation
      modifies spool`file, spool`batches, spool`torn, spool`live, spool`written, spool`failed
      ensures Valid() && (old(IsInStep()) ==> IsInStep())
      ensures r.Success? <==> |body| <= reservation.limit && !old(spool.failed) && outcome.Synchronized?
      ensures r.Success? ==>
                && spool.batches == old(spool.batches) + [Batch(metadata, body)] && !spool.failed
                && spool.written == old(spool.written) + [Spooling.Write(reservation.bytes, |body| + OVERHEAD)]
                && spool.live == Without(old(spool.live), k)
      ensures r.Failure? ==> spool.batches == old(spool.batches) && spool.written == old(spool.written)
    {
      hide InPlace, Left, Ascending, Below, Pending, Spool.Accounted, Spool.Stored, Frame;
      ghost var v, batch := View(), Batch(metadata, body);
      WritingKeepsOrder(spool.batches, spool.written, spool.committed, batch, reservation.bytes, spool.hash);
      WriteKeepsPlace(Here(), v, Recovered(), batch);
      PendingFits(spool);
      r := spool.WriteFrame(k, reservation, metadata, body, outcome);
      assert View() == if r.Success? then v.(batches := v.batches + [batch]) else v;
    }

    /** Settles the oldest append in flight: once its extent is published the reader may hand out its batch. */
    method SettleOldest(bytes: nat, storedBytes: nat) returns (extent: SpoolExtent)
      requires Valid() && spool.written != [] && spool.written[0] == Spooling.Write(bytes, storedBytes)
      modifies spool`committed, spool`reserved, spool`unpublished, spool`written, spool`failed, this`accepted
      ensures Valid() && (old(IsInStep()) ==> IsInStep()) && spool.failed == old(spool.failed)
      ensures spool.written == old(spool.written)[1..] && spool.unpublished == old(spool.unpublished) + [extent]
      ensures extent == SpoolExtent(spool.generation, spool.committed)
              && spool.committed == old(spool.committed) + storedBytes
      ensures spool.reserved == old(spool.reserved) - bytes
      ensures accepted == old(accepted) + [spool.batches[|spool.batches| - |old(spool.written)|]]
    {
      hide InPlace, Left, InStep, End, Pending, Spool.Accounted, Spool.Stored, Frame, IsBoundary, StoredBytes;
      ghost var v := View();
      CommittedEnd(spool);
      SettleKeepsPlace(Here(), v, Recovered());
      if IsInStep() {
        MadeInStep(Here(), v, Recovered(), spool.committed, OneMoreSettled(v), spool.committed + storedBytes);
      }
      extent := Settle(spool, 0, bytes, storedBytes);
      accepted := accepted + [v.batches[v.settled]];
      assert View().extents == OneMoreSettled(v).extents;
      assert View() == OneMoreSettled(v);
    }

    /** Publishes any of the extents that were made. The reader is in step as long as that is always the oldest. */
    method Publish(ghost k: nat, next: SpoolExtent)
      requires Valid() && k < |spool.unpublished| && spool.unpublished[k] == next
      modifies spool`extent, spool`unpublished
      ensures Valid() && (old(IsInStep()) && k == 0 ==> IsInStep())
      ensures spool.extent == next && spool.unpublished == Without(old(spool.unpublished), k)
    {
      hide InPlace, Left, InStep, Pending, Spool.Accounted, Spool.Stored;
      ghost var v := View();
      PublishKeepsPlace(Here(), v, Recovered(), k);
      if IsInStep() && k == 0 {
        OldestKeepsStep(Here(), v, Recovered(), spool.committed);
      }
      assert v.extents[1..] == spool.unpublished;
      spool.Publish(k, next);
      assert View() == v.(extents := Told(v.extents, k));
    }

    /** Reserves, writes, settles and publishes one append with no other in flight. */
    method Append(bodyLimit: nat, metadata: Metadata, body: seq<Byte>) returns (r: Result<(nat, nat), SpoolError>)
      requires Valid() && !spool.failed && spool.written == [] && bodyLimit <= limit
      modifies spool, this`accepted
      ensures Valid() && !spool.failed && spool.written == [] && spool.unpublished == old(spool.unpublished)
      ensures old(IsInStep()) && spool.unpublished == [] ==> IsInStep()
      ensures accepted == old(accepted) + if r.Success? then [Batch(metadata, body)] else []
      ensures r.Success? ==> r.value == (|old(spool.file)|, |spool.file|)
      ensures r.Success? <==>
                && |body| <= bodyLimit && bodyLimit + OVERHEAD <= U64_MAX
                && old(spool.committed) + old(spool.reserved) + bodyLimit + OVERHEAD <= spool.capacity
    {
      hide InPlace, Left, End, Pending, Spool.Accounted, Spool.Stored, Frame, IsBoundary;
      ghost var v, batch := View(), Batch(metadata, body);
      ghost var grown := v.(batches := v.batches + [batch]);
      PendingFits(spool);
      WriteKeepsPlace(Here(), v, Recovered(), batch);
      SettleKeepsPlace(Here(), grown, Recovered());
      PublishKeepsPlace(Here(), OneMoreSettled(grown), Recovered(), |spool.unpublished|);
      r := AppendSettled(spool, bodyLimit, metadata, body);
      CommittedEnd(spool);
      if r.Success? {
        accepted := accepted + [batch];
        NewestIsTold(v.extents, spool.extent);
        assert v.extents[1..] == old(spool.unpublished);
        assert View().extents == Told(OneMoreSettled(grown).extents, |old(spool.unpublished)|);
        assert View() == OneMoreSettled(grown).(extents := View().extents);
      } else {
        assert View() == v;
      }
    }

    /** Installs a checkpoint for batches this reader has handed out. */
    method Advance(plan: CheckpointPlan) returns (r: Result<nat, SpoolError>)
      requires Valid() && IsBoundary(spool.batches, plan.target, spool.hash)
      requires plan.target <= if generation == spool.generation then position else 0
      modifies spool`checkpoint, spool`stored
      ensures Valid() && (old(IsInStep()) ==> IsInStep())
      ensures r.Success? <==> !spool.failed && plan.current == old(spool.checkpoint) && plan.target <= spool.committed
      ensures spool.checkpoint == if r.Success? then plan.target else old(spool.checkpoint)
    {
      hide InPlace, Left, Ascending, Below, Pending, Spool.Accounted, Spool.Stored;
      ghost var v := View();
      AdvanceKeepsPlace(Here(), v, Recovered(), plan.target);
      r := spool.AdvanceCheckpoint(plan);
      assert View() == if r.Success? then v.(checkpoint := plan.target) else v;
    }

    /** Reclaims the file once everything in it is checkpointed: the extent of the new generation is to be published. */
    method Reclaim() returns (r: Result<Option<Reclamation>, SpoolError>)
      requires Valid()
      modifies spool`checkpoint, spool`stored, spool`file, spool`batches, spool`committed, spool`generation,
               spool`unpublished
      ensures Valid() && (old(IsInStep()) ==> IsInStep()) && (r.Success? <==> !spool.failed)
      ensures r.Success? && r.value.Some? <==> !spool.failed && old(spool.Reclaimable())
      ensures r.Success? && r.value.Some? ==>
                && delivered == accepted && spool.batches == [] && spool.file == []
                && spool.generation == old(spool.generation) + 1
                && spool.unpublished == old(spool.unpublished) + [SpoolExtent(spool.generation, 0)]
                && r.value.value.extent == SpoolExtent(spool.generation, 0)
      ensures !(r.Success? && r.value.Some?) ==>
                && spool.batches == old(spool.batches) && spool.generation == old(spool.generation)
                && spool.unpublished == old(spool.unpublished)
    {
      hide InPlace, Left, InStep, End, Pending, Spool.Accounted, Spool.Stored;
      ghost var v := View();
      if spool.Reclaimable() {
        QuietWhenReclaimable(spool);
        CommittedEnd(spool);
        ReclaimKeepsPlace(Here(), v, Recovered());
        NoneInFlight(spool.hash);
        if IsInStep() {
          MadeInStep(Here(), v, Recovered(), spool.committed, Emptied(v), 0);
        }
      }
      r := spool.ReclaimCheckpointed();
      if r.Success? && r.value.Some? {
        assert View().extents == Emptied(v).extents;
        assert View() == Emptied(v);
      } else {
        assert View() == v;
      }
    }
  }

  lemma OneMoreOut(before: seq<Batch>, batch: Batch, left: seq<Batch>, rest: seq<Batch>)
    requires left == [batch] + rest
    ensures before + left == (before + [batch]) + rest
  {
  }

  lemma NewestIsTold(extents: seq<SpoolExtent>, extent: SpoolExtent)
    requires extents != []
    ensures Told(extents + [extent], |extents| - 1) == [extent] + extents[1..]
  {
    var all, n := extents + [extent], |extents| - 1;
    assert Without(all[1..], n) == extents[1..];
  }

  lemma NoneInFlight(hash: Hash)
    ensures Pending([], [], 0, hash)
  {
  }

  /** Nothing is in flight when the spool can be reclaimed. */
  lemma QuietWhenReclaimable(spool: Spool)
    requires spool.Valid() && SettledInOrder(spool) && spool.Reclaimable()
    ensures spool.written == []
  {
    hide Spool.Stored, Frame, End;
    NothingInFlight(spool.batches, spool.written, spool.committed, spool.hash);
  }

  lemma CommittedEnd(spool: Spool)
    requires SettledInOrder(spool)
    ensures |spool.written| <= |spool.batches|
    ensures spool.committed == End(spool.batches, |spool.batches| - |spool.written|, spool.hash)
    ensures spool.written != [] ==>
              End(spool.batches, |spool.batches| - |spool.written| + 1, spool.hash) ==
                  spool.committed + spool.written[0].stored
  {
    hide End, Frame;
    if spool.written != [] {
      EndOfNext(spool.batches, |spool.batches| - |spool.written|, spool.hash);
    }
  }

  lemma FitsMore(batches: seq<Batch>, limit: nat, larger: nat)
    requires limit <= larger && forall k :: 0 <= k < |batches| ==> BatchFits(batches[k], limit)
    ensures forall k :: 0 <= k < |batches| ==> BatchFits(batches[k], larger)
  {
  }

  /** The frame at the end of frame `k` of a spool, whether it has failed or not. */
  lemma NextOfSpool(spool: Spool, k: nat, limit: nat)
    requires spool.Valid() && k < |spool.batches| && spool.largest <= limit
    ensures var position := End(spool.batches, k, spool.hash);
            && position < |spool.file| <= U64_MAX && StartsWithFrame(spool.file[position..], limit, spool.hash)
            && FirstBatch(spool.file[position..], limit, spool.hash) == spool.batches[k]
            && position + |Frame(spool.batches[k], spool.hash)| == End(spool.batches, k + 1, spool.hash) <= |spool.file|
  {
    hide Encode, Frame, StartsWithFrame, FirstBatch, AcceptedTail, IsBoundary, End, BatchFits;
    FitsMore(spool.batches, spool.largest, limit);
    NextFrame(spool.batches, spool.torn, k, limit, spool.hash);
  }

  lemma PendingFits(spool: Spool)
    requires SettledInOrder(spool)
    ensures |spool.written| <= |spool.batches|
  {
  }

  /** As long as nothing is in flight every valid spool is settled in order. */
  lemma QuietIsInOrder(spool: Spool)
    requires spool.Valid() && spool.written == []
    ensures SettledInOrder(spool)
  {
    hide Encode, AcceptedTail, IsBoundary;
    assert |spool.file| == |Encode(spool.batches, spool.hash)| + |spool.torn|;
    assert spool.batches[..|spool.batches|] == spool.batches;
  }
}
