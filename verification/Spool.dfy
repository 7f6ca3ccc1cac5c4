/** The durable spool: appended frames under capacity reservations, a checkpoint and its reclamation. Every method is
    one critical section, so any interleaving of appends, drops, checkpoint advances and reclamations is a sequence of
    calls; each keeps `Valid`. Settling an append and reclaiming only make a new extent; telling the reader of it is a
    step of its own, which comes after the locks are dropped and so in any order. */
module Spooling {
  import opened Basics
  import opened ByteStrings
  import opened Frames
  import opened FrameScan

  /** A frame that is written and synchronized but whose reservation is not yet settled. */
  datatype Write = Write(reserved: nat, stored: nat)

  datatype Reservation = Reservation(limit: nat, bytes: nat)

  datatype SpoolExtent = SpoolExtent(generation: nat, end: nat)

  /** What a reclamation gave back, and the extent to publish for it. */
  datatype Reclamation = Reclamation(bytes: nat, extent: SpoolExtent)

  datatype CheckpointPlan = CheckpointPlan(current: nat, target: nat)

  /** How writing a frame ends: synchronized, or failed after some bytes reached the file. */
  datatype WriteOutcome = Synchronized | Torn(bytes: nat)

  function LiveBytes(live: seq<Reservation>): nat {
    if live == [] then 0 else live[0].bytes + LiveBytes(live[1..])
  }

  function ReservedBytes(written: seq<Write>): nat {
    if written == [] then 0 else written[0].reserved + ReservedBytes(written[1..])
  }

  function StoredBytes(written: seq<Write>): nat {
    if written == [] then 0 else written[0].stored + StoredBytes(written[1..])
  }

  function Without<T>(s: seq<T>, k: nat): seq<T>
    requires k < |s|
  {
    s[..k] + s[k + 1..]
  }

  lemma {:induction false} LiveWithout(live: seq<Reservation>, k: nat)
    requires k < |live|
    ensures LiveBytes(live) == live[k].bytes + LiveBytes(Without(live, k))
  {
    if k == 0 {
      assert Without(live, 0) == live[1..];
    } else {
      LiveWithout(live[1..], k - 1);
      assert Without(live, k)[1..] == Without(live[1..], k - 1);
    }
  }

  lemma {:induction false} WrittenWithout(written: seq<Write>, k: nat)
    requires k < |written|
    ensures ReservedBytes(written) == written[k].reserved + ReservedBytes(Without(written, k))
    ensures StoredBytes(written) == written[k].stored + StoredBytes(Without(written, k))
  {
    if k == 0 {
      assert Without(written, 0) == written[1..];
    } else {
      WrittenWithout(written[1..], k - 1);
      assert Without(written, k)[1..] == Without(written[1..], k - 1);
    }
  }

  lemma StoredWithinReserved(written: seq<Write>)
    requires forall k :: 0 <= k < |written| ==> written[k].stored <= written[k].reserved
    ensures StoredBytes(written) <= ReservedBytes(written)
  {
  }

  /** The position is the beginning of the file or the end of one of its frames. */
  ghost predicate IsBoundary(batches: seq<Batch>, position: nat, hash: Hash) {
    exists k: nat :: BoundaryAt(batches, position, k, hash)
  }

  lemma BoundaryKept(batches: seq<Batch>, batch: Batch, position: nat, hash: Hash)
    requires IsBoundary(batches, position, hash)
    ensures IsBoundary(batches + [batch], position, hash)
  {
    var k: nat :| BoundaryAt(batches, position, k, hash);
    assert (batches + [batch])[..k] == batches[..k];
    assert BoundaryAt(batches + [batch], position, k, hash);
  }

  lemma StartIsBoundary(batches: seq<Batch>, hash: Hash)
    ensures IsBoundary(batches, 0, hash)
  {
    assert batches[..0] == [];
    assert BoundaryAt(batches, 0, 0, hash);
  }

  /** The reserved bytes after giving some back, and whether that was more than there were. */
  function Released(reserved: nat, bytes: nat): (nat, bool) {
    if reserved < bytes then (0, true) else (reserved - bytes, false)
  }

  /** The committed and reserved bytes after settling a frame. */
  function Settled(committed: nat, reserved: nat, bytes: nat, stored: nat): Result<(nat, nat), SpoolError> {
    if stored > bytes || reserved < bytes then Failure(InvariantViolated)
    else if committed + stored > U64_MAX then Failure(InvariantViolated)
    else Success((committed + stored, reserved - bytes))
  }

  class Spool {
    const capacity: nat
    const hash: Hash
    var generation: nat
    var committed: nat
    var reserved: nat
    var checkpoint: nat
    var failed: bool
    var extent: SpoolExtent
    // The data file and the checkpoint file.
    var file: seq<Byte>
    var stored: nat

    // What the file holds: whole frames, then the bytes of an append that failed.
    ghost var batches: seq<Batch>
    ghost var torn: seq<Byte>
    // Reservations handed out, and those whose frame is written but not settled.
    ghost var live: seq<Reservation>
    ghost var written: seq<Write>
    // Extents that were made and not yet published, oldest first.
    ghost var unpublished: seq<SpoolExtent>
    // The bytes found at recovery and the largest body ever reserved for.
    ghost const recovered: nat
    ghost var largest: nat

    ghost function Bound(): nat
    {
      Max(capacity, recovered)
    }

    /** The accounting: reservations, bytes in the file, and the occupancy they can never exceed. */
    ghost predicate Accounted()
      reads this
    {
      && reserved == LiveBytes(live) + ReservedBytes(written)
      && committed + StoredBytes(written) + |torn| == |file|
      && committed + reserved <= Bound() && |file| <= Bound() <= U64_MAX
      && (forall k :: 0 <= k < |live| ==> live[k].bytes == live[k].limit + OVERHEAD && live[k].limit <= largest)
      && (forall k :: 0 <= k < |written| ==> written[k].stored <= written[k].reserved)
    }

    /** The file and its checkpoint. */
    ghost predicate Stored()
      reads this
    {
      && file == Encode(batches, hash) + torn
      && (forall k :: 0 <= k < |batches| ==> BatchFits(batches[k], largest))
      && AcceptedTail(torn, |Encode(batches, hash)|, largest) && (torn != [] ==> failed)
      && stored == checkpoint <= committed && IsBoundary(batches, checkpoint, hash)
    }

    ghost predicate Valid()
      reads this
    {
      Accounted() && Stored()
    }

    /** A spool as recovery hands it out. */
    constructor (capacity: nat, hash: Hash, ghost batches: seq<Batch>, file: seq<Byte>, checkpoint: nat,
                 ghost limit: nat)
      requires capacity <= U64_MAX && |file| <= U64_MAX
      requires file == Encode(batches, hash) && forall k :: 0 <= k < |batches| ==> BatchFits(batches[k], limit)
      requires IsBoundary(batches, checkpoint, hash)
      ensures Valid() && this.capacity == capacity && this.hash == hash && this.recovered == |file|
      ensures this.batches == batches && this.file == file && this.checkpoint == checkpoint && !failed
      ensures reserved == 0 && committed == |file| && generation == 0 && extent == SpoolExtent(0, |file|)
      ensures live == [] && written == [] && unpublished == [] && largest == limit
    {
      this.capacity := capacity;
      this.hash := hash;
      generation, committed, reserved, failed := 0, |file|, 0, false;
      this.checkpoint, this.stored := checkpoint, checkpoint;
      extent := SpoolExtent(0, |file|);
      this.file := file;
      this.batches, torn, live, written, unpublished := batches, [], [], [], [];
      recovered := |file|;
      largest := limit;
      new;
      BoundaryWithin(batches, checkpoint, hash);
      assert file == file + [];
    }

    /** Reserves room for the largest frame a request may need. */
    method Reserve(limit: nat) returns (r: Result<Reservation, SpoolError>)
      requires Valid()
      modifies this`reserved, this`live, this`largest
      ensures Valid()
      ensures r.Success? <==>
                !failed && limit + OVERHEAD <= U64_MAX && old(committed) + old(reserved) + limit + OVERHEAD <= capacity
      ensures r.Success? ==>
                && r.value == Reservation(limit, limit + OVERHEAD)
                && reserved == old(reserved) + r.value.bytes && live == old(live) + [r.value]
                && largest == Max(old(largest), limit)
      ensures r.Failure? ==> reserved == old(reserved) && live == old(live) && largest == old(largest)
      ensures r == Failure(CapacityExhausted) <==>
                && !failed && limit + OVERHEAD <= U64_MAX
                && old(committed) + old(reserved) + limit + OVERHEAD > capacity
    {
      hide Encode, AcceptedTail, IsBoundary, LiveBytes, ReservedBytes, StoredBytes;
      if failed {
        return Failure(InvariantViolated);
      }
      if limit + OVERHEAD > U64_MAX {
        return Failure(InvariantViolated);
      }
      var required := limit + OVERHEAD;
      var occupied := committed + reserved;
      if occupied > U64_MAX {
        return Failure(InvariantViolated);
      }
      var available := if occupied > capacity then 0 else capacity - occupied;
      if required > available {
        return Failure(CapacityExhausted);
      }
      reserved := reserved + required;
      LiveSnoc(live, Reservation(limit, required));
      live := live + [Reservation(limit, required)];
      largest := Max(largest, limit);
      LimitsGrow(batches, torn, old(largest), largest, hash);
      return Success(Reservation(limit, required));
    }

    /** Gives back a reservation that was dropped or whose write failed. */
    method Release(ghost k: nat, bytes: nat)
      requires Valid() && k < |live| && live[k].bytes == bytes
      modifies this`reserved, this`live, this`failed
      ensures Valid() && failed == old(failed)
      ensures reserved == old(reserved) - bytes && live == Without(old(live), k)
    {
      hide Encode, AcceptedTail, IsBoundary, LiveBytes, ReservedBytes, StoredBytes;
      LiveWithout(live, k);
      live := Without(live, k);
      var (left, broken) := Released(reserved, bytes);
      failed := failed || broken;
      reserved := left;
    }

    /** Leaves the first bytes of a frame whose write failed. */
    method Tear(ghost batch: Batch, frame: seq<Byte>, bytes: nat)
      requires Valid() && !failed && frame == Frame(batch, hash) && BatchFits(batch, largest)
               && |file| + |frame| <= Bound()
      modifies this`file, this`torn, this`failed
      ensures Valid() && failed
    {
      hide Encode, Frame, AcceptedTail, IsBoundary, LiveBytes, ReservedBytes, StoredBytes;
      var n := if bytes < |frame| then bytes else |frame| - 1;
      StrictPrefixIsTail(batch, n, |Encode(batches, hash)|, largest, hash);
      file := file + frame[..n];
      torn := frame[..n];
      failed := true;
    }

    /** Writes and synchronizes one frame under a reservation. */
    method WriteFrame(ghost k: nat, reservation: Reservation, metadata: Metadata, body: seq<Byte>,
                      outcome: WriteOutcome)
      returns (r: Result<(nat, nat), SpoolError>)
      requires Valid() && k < |live| && live[k] == reservation
      modifies this`file, this`batches, this`torn, this`live, this`written, this`failed
      ensures Valid()
      ensures r.Success? <==> |body| <= reservation.limit && !old(failed) && outcome.Synchronized?
      ensures r.Success? ==>
                && !failed && batches == old(batches) + [Batch(metadata, body)] && torn == []
                && r.value == (|old(file)|, |file|) && file == old(file) + Frame(Batch(metadata, body), hash)
                && live == Without(old(live), k)
                && written == old(written) + [Write(reservation.bytes, |body| + OVERHEAD)]
      ensures r.Failure? ==> batches == old(batches) && live == old(live) && written == old(written)
      ensures |body| > reservation.limit ==>
                r == Failure(BatchTooLarge) && failed == old(failed) && file == old(file) && torn == old(torn)
      ensures r.Failure? && |body| <= reservation.limit ==> failed
    {
      hide Encode, Frame, AcceptedTail, IsBoundary, LiveBytes, ReservedBytes, StoredBytes;
      if |body| > reservation.limit {
        return Failure(BatchTooLarge);
      }
      LiveWithout(live, k);
      ghost var batch := Batch(metadata, body);
      StoredWithinReserved(written);
      var prepared := Prepare(metadata, body, hash);
      if failed || prepared.Failure? {
        failed := true;
        return Failure(InvariantViolated);
      }
      var start := |file|;
      var frame := prepared.value.header + body + prepared.value.footer;
      if outcome.Torn? {
        Tear(batch, frame, outcome.bytes);
        return Failure(InvariantViolated);
      }
      Grow(k, reservation, batch, frame);
      return Success((start, start + prepared.value.stored));
    }

    /** The state once a frame is synchronized. */
    method Grow(ghost k: nat, ghost reservation: Reservation, ghost batch: Batch, frame: seq<Byte>)
      requires Valid() && k < |live| && live[k] == reservation && !failed
      requires frame == Frame(batch, hash) && BatchFits(batch, largest)
      requires |frame| <= reservation.bytes && |file| + |frame| <= Bound()
      modifies this`file, this`batches, this`live, this`written
      ensures Valid() && torn == []
      ensures file == old(file) + frame && batches == old(batches) + [batch]
      ensures live == Without(old(live), k) && written == old(written) + [Write(reservation.bytes, |frame|)]
    {
      hide Encode, Frame, AcceptedTail, IsBoundary, LiveBytes, ReservedBytes, StoredBytes, BatchFits;
      LiveWithout(live, k);
      file := file + frame;
      live := Without(live, k);
      WrittenSnoc(written, Write(reservation.bytes, |frame|));
      written := written + [Write(reservation.bytes, |frame|)];
      FramesSnoc(batches, batch, hash);
      BoundaryKept(batches, batch, checkpoint, hash);
      batches := batches + [batch];
      NoTail(|Encode(batches, hash)|, largest);
      assert file == Encode(batches, hash) + torn;
    }

    /** Settles the reservation of a written frame: its bytes are committed, and an extent with them is to be
        published. */
    method CommitReservation(ghost k: nat, bytes: nat, storedBytes: nat) returns (r: Result<SpoolExtent, SpoolError>)
      requires Valid() && k < |written| && written[k] == Write(bytes, storedBytes)
      modifies this`committed, this`reserved, this`unpublished, this`written, this`failed
      ensures Valid() && r == Success(SpoolExtent(generation, committed)) && failed == old(failed)
      ensures committed == old(committed) + storedBytes && reserved == old(reserved) - bytes
      ensures written == Without(old(written), k)
              && unpublished == old(unpublished) + [SpoolExtent(generation, committed)]
    {
      hide Encode, AcceptedTail, IsBoundary, LiveBytes, ReservedBytes, StoredBytes;
      WrittenWithout(written, k);
      written := Without(written, k);
      var settled := Settled(committed, reserved, bytes, storedBytes);
      failed := failed || settled.Failure?;
      if settled.Success? {
        committed, reserved := settled.value.0, settled.value.1;
        unpublished := unpublished + [SpoolExtent(generation, committed)];
      }
      r := if settled.Success? then Success(SpoolExtent(generation, committed)) else Failure(InvariantViolated);
    }

    /** Tells the reader of one of the extents that were made, whatever it was told before. */
    method Publish(ghost k: nat, next: SpoolExtent)
      requires Valid() && k < |unpublished| && unpublished[k] == next
      modifies this`extent, this`unpublished
      ensures Valid() && extent == next && unpublished == Without(old(unpublished), k)
    {
      hide Encode, AcceptedTail, IsBoundary, LiveBytes, ReservedBytes, StoredBytes;
      unpublished := Without(unpublished, k);
      extent := next;
    }

    /** Installs the checkpoint of a completion plan. */
    method AdvanceCheckpoint(plan: CheckpointPlan) returns (r: Result<nat, SpoolError>)
      requires Valid() && IsBoundary(batches, plan.target, hash)
      modifies this`checkpoint, this`stored
      ensures Valid()
      ensures r.Success? <==> !failed && plan.current == old(checkpoint) && plan.target <= committed
      ensures checkpoint == if r.Success? then plan.target else old(checkpoint)
      ensures r.Success? ==> r.value == checkpoint
    {
      if failed {
        return Failure(InvariantViolated);
      }
      if plan.current != checkpoint {
        return Failure(InvariantViolated);
      }
      if plan.target > committed {
        return Failure(InvariantViolated);
      }
      stored := plan.target;
      checkpoint := plan.target;
      return Success(checkpoint);
    }

    /** Whether everything in the file is checkpointed and nothing is reserved. */
    predicate Reclaimable()
      reads this
    {
      reserved == 0 && checkpoint != 0 && checkpoint == committed
    }

    /** Empties the file once every frame is checkpointed: first the checkpoint, then the data. */
    method ReclaimCheckpointed() returns (r: Result<Option<Reclamation>, SpoolError>)
      requires Valid()
      modifies this`checkpoint, this`stored, this`file, this`batches, this`committed, this`generation, this`unpublished
      ensures Valid()
      ensures r.Success? <==> !failed
      ensures r.Success? && r.value.Some? <==> !failed && old(Reclaimable())
      ensures r.Success? && r.value.Some? ==>
                && r.value.value == Reclamation(old(|file|), SpoolExtent(generation, 0))
                && old(|file|) == old(checkpoint)
                && file == [] && batches == [] && committed == 0 && checkpoint == 0 && generation == old(generation) + 1
                && unpublished == old(unpublished) + [SpoolExtent(generation, 0)]
      ensures !(r.Success? && r.value.Some?) ==>
                && file == old(file) && batches == old(batches) && checkpoint == old(checkpoint)
                && committed == old(committed) && generation == old(generation) && unpublished == old(unpublished)
    {
      hide Encode, AcceptedTail, IsBoundary, LiveBytes, ReservedBytes, StoredBytes;
      if failed {
        return Failure(InvariantViolated);
      }
      if reserved != 0 || checkpoint == 0 || checkpoint != committed {
        return Success(None);
      }
      NothingWritten(written);
      var reclaimed := committed;
      stored := 0;
      checkpoint := 0;
      file := [];
      batches := [];
      committed := 0;
      generation := generation + 1;
      unpublished := unpublished + [SpoolExtent(generation, 0)];
      StartIsBoundary(batches, hash);
      NoTail(0, largest);
      NoFrames(hash);
      return Success(Some(Reclamation(reclaimed, SpoolExtent(generation, 0))));
    }
  }

  lemma NoTail(position: nat, limit: nat)
    ensures AcceptedTail([], position, limit)
  {
  }

  lemma NoFrames(hash: Hash)
    ensures Encode([], hash) == []
  {
  }

  lemma BoundaryWithin(batches: seq<Batch>, position: nat, hash: Hash)
    requires IsBoundary(batches, position, hash)
    ensures position <= |Encode(batches, hash)|
  {
    hide Encode;
    var k: nat :| BoundaryAt(batches, position, k, hash);
    FramesAppend(batches[..k], batches[k..], hash);
    assert batches == batches[..k] + batches[k..];
  }

  lemma {:induction false} LiveSnoc(live: seq<Reservation>, last: Reservation)
    ensures LiveBytes(live + [last]) == LiveBytes(live) + last.bytes
  {
    LiveWithout(live + [last], |live|);
    assert Without(live + [last], |live|) == live;
  }

  lemma WrittenSnoc(written: seq<Write>, last: Write)
    ensures ReservedBytes(written + [last]) == ReservedBytes(written) + last.reserved
    ensures StoredBytes(written + [last]) == StoredBytes(written) + last.stored
  {
    WrittenWithout(written + [last], |written|);
    assert Without(written + [last], |written|) == written;
  }

  /** With nothing reserved no frame is waiting to be settled. */
  lemma NothingWritten(written: seq<Write>)
    requires ReservedBytes(written) == 0
    requires forall k :: 0 <= k < |written| ==> written[k].stored <= written[k].reserved
    ensures StoredBytes(written) == 0
  {
    StoredWithinReserved(written);
  }

  /** A larger recovery limit accepts no less. */
  lemma LimitsGrow(batches: seq<Batch>, torn: seq<Byte>, limit: nat, larger: nat, hash: Hash)
    requires limit <= larger && AcceptedTail(torn, |Encode(batches, hash)|, limit)
    ensures AcceptedTail(torn, |Encode(batches, hash)|, larger)
  {
    hide Encode, Number;
  }
}
