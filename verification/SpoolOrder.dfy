/** Appends in flight. Frames enter the file in the order they are written, but their reservations may be settled in any
    order, and every settlement makes the committed bytes the extent to publish to a reader. This module says exactly
    when that extent ends a frame. */
module SpoolOrder {
  import opened Frames
  import opened FrameScan
  import opened Spooling

  lemma EndWithin(batches: seq<Batch>, k: nat, hash: Hash)
    requires k <= |batches|
    ensures End(batches, k, hash) + |Encode(batches[k..], hash)| == |Encode(batches, hash)| ==
              End(batches, |batches|, hash)
  {
    hide Encode;
    FramesAppend(batches[..k], batches[k..], hash);
    assert batches == batches[..k] + batches[k..] && batches[..|batches|] == batches;
  }

  lemma EndsDiffer(batches: seq<Batch>, j: nat, k: nat, hash: Hash)
    requires j <= k <= |batches|
    ensures End(batches, j, hash) <= End(batches, k, hash)
    ensures End(batches, j, hash) == End(batches, k, hash) <==> j == k
  {
    if j < k {
      EndsIncrease(batches, j, k, hash);
    }
  }

  lemma EndKept(batches: seq<Batch>, batch: Batch, k: nat, hash: Hash)
    requires k <= |batches|
    ensures End(batches + [batch], k, hash) == End(batches, k, hash)
  {
    assert (batches + [batch])[..k] == batches[..k];
  }

  lemma EndOfNone(batches: seq<Batch>, hash: Hash)
    ensures End(batches, 0, hash) == 0
  {
    assert batches[..0] == [];
  }

  lemma EndOfNext(batches: seq<Batch>, k: nat, hash: Hash)
    requires k < |batches|
    ensures End(batches, k + 1, hash) == End(batches, k, hash) + |Frame(batches[k], hash)|
  {
    hide Encode, Frame;
    FramesSnoc(batches[..k], batches[k], hash);
    assert batches[..k + 1] == batches[..k] + [batches[k]];
  }

  /** In every state of a spool, whatever was settled in whatever order, the committed bytes end a frame exactly when
      the frames waiting to be settled have the size of the last frames of the file. */
  lemma CommittedIsBoundary(spool: Spool)
    requires spool.Valid()
    ensures IsBoundary(spool.batches, spool.committed, spool.hash) <==>
            exists k :: 0 <= k <= |spool.batches|
                && StoredBytes(spool.written) == |Encode(spool.batches[k..], spool.hash)|
  {
    hide Encode, AcceptedTail, Frame, End, StoredBytes, ReservedBytes, LiveBytes, BatchFits;
    var batches, hash := spool.batches, spool.hash;
    assert |spool.file| == |Encode(batches, hash)| + |spool.torn|;
    if IsBoundary(batches, spool.committed, hash) {
      var k: nat :| BoundaryAt(batches, spool.committed, k, hash);
      EndWithin(batches, k, hash);
    }
    if k :| 0 <= k <= |batches| && StoredBytes(spool.written) == |Encode(batches[k..], hash)| {
      EndWithin(batches, k, hash);
      assert BoundaryAt(batches, spool.committed, k, hash);
    }
  }

  /** Settled in order so far: what waits is the last frames of the file, and the committed bytes end right before
      them. */
  ghost predicate Pending(batches: seq<Batch>, written: seq<Write>, committed: nat, hash: Hash) {
    && |written| <= |batches| && committed == End(batches, |batches| - |written|, hash)
    && forall k :: 0 <= k < |written| ==> written[k].stored == |Frame(batches[|batches| - |written| + k], hash)|
  }

  ghost predicate SettledInOrder(spool: Spool)
    reads spool
  {
    Pending(spool.batches, spool.written, spool.committed, spool.hash)
  }

  /** The ends of the frames that wait lie one prefix sum of their sizes beyond the committed bytes. */
  lemma {:induction false} EndOfPending(batches: seq<Batch>, written: seq<Write>, committed: nat, j: nat, hash: Hash)
    requires Pending(batches, written, committed, hash) && j <= |written|
    ensures End(batches, |batches| - |written| + j, hash) == committed + StoredBytes(written[..j])
    decreases j
  {
    hide End, Frame;
    if j > 0 {
      EndOfPending(batches, written, committed, j - 1, hash);
      EndOfNext(batches, |batches| - |written| + j - 1, hash);
      WrittenSnoc(written[..j - 1], written[j - 1]);
      assert written[..j] == written[..j - 1] + [written[j - 1]];
    }
  }

  /** Settling one of any number of appends in flight makes a frame boundary the extent exactly when its size is a
      prefix sum of the sizes in flight: so always for the oldest. */
  lemma SettlingMakesBoundary(batches: seq<Batch>, written: seq<Write>, committed: nat, k: nat, hash: Hash)
    requires Pending(batches, written, committed, hash) && k < |written|
    ensures IsBoundary(batches, committed + written[k].stored, hash) <==>
            exists j :: 0 <= j <= |written| && written[k].stored == StoredBytes(written[..j])
    ensures k == 0 ==> IsBoundary(batches, committed + written[k].stored, hash)
  {
    hide End, Frame, StoredBytes;
    var n, position := |batches| - |written|, committed + written[k].stored;
    if IsBoundary(batches, position, hash) {
      var i: nat :| BoundaryAt(batches, position, i, hash);
      if i < n {
        EndsDiffer(batches, i, n, hash);
        assert false;
      }
      EndOfPending(batches, written, committed, i - n, hash);
      assert written[k].stored == StoredBytes(written[..i - n]);
    }
    if j :| 0 <= j <= |written| && written[k].stored == StoredBytes(written[..j]) {
      EndOfPending(batches, written, committed, j, hash);
      assert BoundaryAt(batches, position, n + j, hash);
    }
    if k == 0 {
      EndOfNext(batches, n, hash);
      assert BoundaryAt(batches, position, n + 1, hash);
    }
  }

  lemma WritingKeepsOrder(batches: seq<Batch>, written: seq<Write>, committed: nat, batch: Batch, reserved: nat,
                          hash: Hash)
    requires Pending(batches, written, committed, hash)
    ensures Pending(batches + [batch], written + [Write(reserved, |Frame(batch, hash)|)], committed, hash)
  {
    hide End, Frame;
    EndKept(batches, batch, |batches| - |written|, hash);
  }

  lemma SettlingKeepsOrder(batches: seq<Batch>, written: seq<Write>, committed: nat, hash: Hash)
    requires Pending(batches, written, committed, hash) && written != []
    ensures Pending(batches, Without(written, 0), committed + written[0].stored, hash)
  {
    hide End, Frame;
    EndOfNext(batches, |batches| - |written|, hash);
    assert Without(written, 0) == written[1..];
  }

  /** In order, nothing reserved means nothing in flight. */
  lemma NothingInFlight(batches: seq<Batch>, written: seq<Write>, committed: nat, hash: Hash)
    requires Pending(batches, written, committed, hash) && ReservedBytes(written) == 0
    requires forall k :: 0 <= k < |written| ==> written[k].stored <= written[k].reserved
    ensures written == []
  {
  }

  /** Settles any one of the appends in flight. */
  method Settle(spool: Spool, ghost k: nat, bytes: nat, storedBytes: nat) returns (extent: SpoolExtent)
    requires spool.Valid() && SettledInOrder(spool) && k < |spool.written|
             && spool.written[k] == Write(bytes, storedBytes)
    modifies spool`committed, spool`reserved, spool`unpublished, spool`written, spool`failed
    ensures spool.Valid() && spool.failed == old(spool.failed) && spool.written == Without(old(spool.written), k)
    ensures extent == SpoolExtent(spool.generation, spool.committed)
            && spool.unpublished == old(spool.unpublished) + [extent]
    ensures spool.committed == old(spool.committed) + storedBytes && spool.reserved == old(spool.reserved) - bytes
    ensures IsBoundary(spool.batches, extent.end, spool.hash) <==>
            exists j :: 0 <= j <= |old(spool.written)| && storedBytes == StoredBytes(old(spool.written)[..j])
    ensures k == 0 ==> SettledInOrder(spool) && IsBoundary(spool.batches, extent.end, spool.hash)
  {
    hide Pending, IsBoundary, Spool.Accounted, Spool.Stored, StoredBytes, Without;
    SettlingMakesBoundary(spool.batches, spool.written, spool.committed, k, spool.hash);
    if k == 0 {
      SettlingKeepsOrder(spool.batches, spool.written, spool.committed, spool.hash);
    }
    var settled := spool.CommitReservation(k, bytes, storedBytes);
    extent := settled.value;
  }
}
