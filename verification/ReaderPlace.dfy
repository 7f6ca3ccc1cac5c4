/** Where the reader of a spool is, and what the extents it is or will be told of mean for it. Everything here is about
    values: what each step of the spool and of the reader makes of a place. */
module ReaderPlace {
  import opened Frames
  import opened FrameScan
  import opened Spooling
  import opened SpoolOrder

  datatype ReaderState = ReadingRecovery | RecoveryComplete | Following | ReaderFailed

  /** What matters of the spool: its generation, the frames of the file with how many are settled, the checkpoint, and
      the published extent followed by those that were made and not published. */
  datatype SpoolView = SpoolView(
    generation: nat, batches: seq<Batch>, settled: nat, checkpoint: nat, extents: seq<SpoolExtent>, hash: Hash)

  /** Where the reader is: `index` frames of its generation are behind it. */
  datatype Place = Place(generation: nat, position: nat, index: nat, state: ReaderState)

  /** What recovery had found. */
  datatype Found = Found(end: nat, frames: nat)

  // ---------- extents ----------

  /** The extent ends before that place of that generation, or belongs to an older one. */
  predicate Below(extent: SpoolExtent, generation: nat, position: nat) {
    extent.generation < generation || (extent.generation == generation && extent.end < position)
  }

  /** Each extent reaches at least as far as the one before it. */
  predicate Ascending(extents: seq<SpoolExtent>) {
    forall i, j :: 0 <= i < j < |extents| ==> !Below(extents[j], extents[i].generation, extents[i].end)
  }

  /** An extent of the spool's generation ends one of the settled frames; one of the reader's own generation, if the
      spool has left it, does not go beyond the reader. */
  ghost predicate Makes(extent: SpoolExtent, v: SpoolView, generation: nat, position: nat) {
    && extent.generation <= v.generation
    && (extent.generation == v.generation ==> EndsSettled(extent.end, v))
    && (extent.generation == generation < v.generation ==> extent.end <= position)
  }

  ghost predicate EndsSettled(end: nat, v: SpoolView) {
    exists k: nat :: k <= v.settled && BoundaryAt(v.batches, end, k, v.hash)
  }

  ghost predicate AllMake(v: SpoolView, generation: nat, position: nat) {
    forall k :: 0 <= k < |v.extents| ==> Makes(v.extents[k], v, generation, position)
  }

  // ---------- places ----------

  ghost predicate InPlace(p: Place, v: SpoolView, found: Found) {
    && v.settled <= |v.batches| && v.extents != [] && AllMake(v, p.generation, p.position)
    && p.generation <= v.generation <= p.generation + 1 && p.state != ReaderFailed
    && (p.generation == v.generation ==>
          && p.index <= v.settled && p.position == End(v.batches, p.index, v.hash) && v.checkpoint <= p.position)
    && (p.generation < v.generation ==> v.checkpoint == 0)
    && (p.state == ReadingRecovery ==> Recovering(p, v, found))
  }

  ghost predicate Recovering(p: Place, v: SpoolView, found: Found) {
    && (p.generation == v.generation ==>
          && p.index <= found.frames <= v.settled <= |v.batches| && found.end == End(v.batches, found.frames, v.hash))
    && (p.generation < v.generation ==> p.position == found.end)
  }

  /** What the reader has not handed out yet. */
  ghost function Left(p: Place, v: SpoolView): seq<Batch> {
    if v.settled > |v.batches| then []
    else if p.generation != v.generation then v.batches[..v.settled]
    else if p.index <= v.settled then v.batches[p.index..v.settled]
    else []
  }

  /** The reader is told of an extent that lies behind it. */
  predicate Overtaken(p: Place, v: SpoolView)
    requires v.extents != []
  {
    p.state == Following && Below(v.extents[0], p.generation, p.position)
  }

  /** Extents are published in the order they were made, the last one made is all that is committed, and the reader is
      not beyond the published one. */
  predicate InStep(p: Place, v: SpoolView, found: Found, committed: nat)
  {
    && v.extents != [] && Ascending(v.extents) && v.extents[|v.extents| - 1] == SpoolExtent(v.generation, committed)
    && !Below(v.extents[0], p.generation, if p.state == ReadingRecovery then found.end else p.position)
  }

  // ---------- steps of the reader ----------

  /** Where the reader goes when it looks at the published extent. */
  function Followed(p: Place, extent: SpoolExtent): Place {
    if extent.generation == p.generation then p else p.(generation := extent.generation, position := 0, index := 0)
  }

  lemma FollowKeepsPlace(p: Place, v: SpoolView, found: Found)
    requires InPlace(p, v, found) && p.state == Following && !Overtaken(p, v)
    ensures var p' := Followed(p, v.extents[0]);
            && InPlace(p', v, found) && Left(p', v) == Left(p, v) && p.generation <= p'.generation
            && p'.position <= v.extents[0].end
  {
    hide End, EndsSettled;
    assert Makes(v.extents[0], v, p.generation, p.position);
    EndOfNone(v.batches, v.hash);
    var p' := Followed(p, v.extents[0]);
    if p' != p {
      forall k | 0 <= k < |v.extents| ensures Makes(v.extents[k], v, p'.generation, p'.position) {
        assert Makes(v.extents[k], v, p.generation, p.position);
      }
    }
  }

  /** A range that ends with frame number `last` beyond the reader. */
  ghost predicate MayRead(p: Place, v: SpoolView, found: Found, end: nat, last: nat) {
    && InPlace(p, v, found) && p.generation == v.generation && p.index < last <= v.settled
    && end == End(v.batches, last, v.hash) && (p.state == ReadingRecovery ==> last == found.frames)
  }

  lemma PublishedRange(p: Place, v: SpoolView, found: Found) returns (last: nat)
    requires InPlace(p, v, found) && p.state == Following && p.generation == v.extents[0].generation
    requires p.position <= v.extents[0].end
    ensures p.position == v.extents[0].end || MayRead(p, v, found, v.extents[0].end, last)
  {
    hide End, AllMake;
    assert Makes(v.extents[0], v, p.generation, p.position) by { FirstMakes(v, p.generation, p.position); }
    last := 0;
    if p.generation == v.generation {
      last :| last <= v.settled && BoundaryAt(v.batches, v.extents[0].end, last, v.hash);
      if last <= p.index {
        EndsDiffer(v.batches, last, p.index, v.hash);
      }
    }
  }

  lemma FirstMakes(v: SpoolView, generation: nat, position: nat)
    requires AllMake(v, generation, position) && v.extents != []
    ensures Makes(v.extents[0], v, generation, position)
  {
    hide Makes;
  }

  lemma PlacedIsNotFailed(p: Place, v: SpoolView, found: Found)
    requires InPlace(p, v, found)
    ensures p.state != ReaderFailed
  {
  }

  lemma RecoveredRange(p: Place, v: SpoolView, found: Found)
    requires InPlace(p, v, found) && p.state == ReadingRecovery
    ensures p.position == found.end || MayRead(p, v, found, found.end, found.frames)
  {
    hide End, AllMake;
  }

  lemma ReadKeepsPlace(p: Place, v: SpoolView, found: Found, end: nat, last: nat)
    requires MayRead(p, v, found, end, last)
    ensures var p' := p.(position := End(v.batches, p.index + 1, v.hash), index := p.index + 1);
            && InPlace(p', v, found) && Left(p, v) == [v.batches[p.index]] + Left(p', v) && p'.position <= end
  {
    hide End, EndsSettled;
    EndsDiffer(v.batches, p.index, p.index + 1, v.hash);
    EndsDiffer(v.batches, p.index + 1, last, v.hash);
    var place := End(v.batches, p.index + 1, v.hash);
    forall k | 0 <= k < |v.extents| ensures Makes(v.extents[k], v, p.generation, place) {
      assert Makes(v.extents[k], v, p.generation, p.position);
    }
  }

  lemma StateKeepsPlace(p: Place, v: SpoolView, found: Found, state: ReaderState)
    requires InPlace(p, v, found) && state != ReadingRecovery && state != ReaderFailed
    ensures InPlace(p.(state := state), v, found) && Left(p.(state := state), v) == Left(p, v)
  {
    hide End, AllMake;
  }

  /** At an extent that is everything, nothing is left to hand out. */
  lemma NothingLeft(p: Place, v: SpoolView, found: Found)
    requires InPlace(p, v, found) && p.generation == v.generation && p.position == End(v.batches, v.settled, v.hash)
    ensures Left(p, v) == []
  {
    hide End, AllMake;
    EndsDiffer(v.batches, p.index, v.settled, v.hash);
  }

  // ---------- steps of the spool ----------

  lemma WriteKeepsPlace(p: Place, v: SpoolView, found: Found, batch: Batch)
    requires InPlace(p, v, found)
    ensures var v' := v.(batches := v.batches + [batch]); InPlace(p, v', found) && Left(p, v') == Left(p, v)
  {
    hide End;
    var v' := v.(batches := v.batches + [batch]);
    forall k | 0 <= k <= |v.batches| ensures End(v'.batches, k, v.hash) == End(v.batches, k, v.hash) {
      EndKept(v.batches, batch, k, v.hash);
    }
    forall k | 0 <= k < |v.extents| ensures Makes(v.extents[k], v', p.generation, p.position) {
      assert Makes(v.extents[k], v, p.generation, p.position);
      if v.extents[k].generation == v.generation {
        var j: nat :| j <= v.settled && BoundaryAt(v.batches, v.extents[k].end, j, v.hash);
        assert BoundaryAt(v'.batches, v.extents[k].end, j, v.hash);
      }
    }
  }

  function OneMoreSettled(v: SpoolView): SpoolView
    requires v.settled < |v.batches|
  {
    v.(settled := v.settled + 1,
       extents := v.extents + [SpoolExtent(v.generation, End(v.batches, v.settled + 1, v.hash))])
  }

  lemma SettleKeepsPlace(p: Place, v: SpoolView, found: Found)
    requires InPlace(p, v, found) && v.settled < |v.batches|
    ensures InPlace(p, OneMoreSettled(v), found) && Left(p, OneMoreSettled(v)) == Left(p, v) + [v.batches[v.settled]]
  {
    hide End;
    var v' := OneMoreSettled(v);
    forall k | 0 <= k < |v'.extents| ensures Makes(v'.extents[k], v', p.generation, p.position) {
      if k < |v.extents| {
        assert Makes(v.extents[k], v, p.generation, p.position);
        if v.extents[k].generation == v.generation {
          var j: nat :| j <= v.settled && BoundaryAt(v.batches, v.extents[k].end, j, v.hash);
          assert BoundaryAt(v'.batches, v.extents[k].end, j, v.hash);
        }
      } else {
        assert BoundaryAt(v'.batches, v'.extents[k].end, v.settled + 1, v.hash);
      }
    }
  }

  /** Extent `n` of those not published is published. */
  function Told(extents: seq<SpoolExtent>, n: nat): seq<SpoolExtent>
    requires n + 1 < |extents|
  {
    [extents[n + 1]] + Without(extents[1..], n)
  }

  lemma PublishKeepsPlace(p: Place, v: SpoolView, found: Found, n: nat)
    requires InPlace(p, v, found) && n + 1 < |v.extents|
    ensures var v' := v.(extents := Told(v.extents, n)); InPlace(p, v', found) && Left(p, v') == Left(p, v)
  {
    hide End, EndsSettled;
    var v' := v.(extents := Told(v.extents, n));
    forall k | 0 <= k < |v'.extents| ensures Makes(v'.extents[k], v', p.generation, p.position) {
      var j := if k == 0 then n + 1 else if k - 1 < n then k else k + 1;
      assert v'.extents[k] == v.extents[j];
      assert Makes(v.extents[j], v, p.generation, p.position);
      SameSettled(v.extents[j].end, v, v');
    }
  }

  lemma SameSettled(end: nat, v: SpoolView, v': SpoolView)
    requires v'.batches == v.batches && v'.settled == v.settled && v'.hash == v.hash
    ensures EndsSettled(end, v) <==> EndsSettled(end, v')
  {
  }

  function Emptied(v: SpoolView): SpoolView {
    SpoolView(v.generation + 1, [], 0, 0, v.extents + [SpoolExtent(v.generation + 1, 0)], v.hash)
  }

  lemma ReclaimKeepsPlace(p: Place, v: SpoolView, found: Found)
    requires InPlace(p, v, found) && v.checkpoint == End(v.batches, v.settled, v.hash) != 0
    ensures InPlace(p, Emptied(v), found) && Left(p, v) == [] == Left(p, Emptied(v))
  {
    hide End;
    var v' := Emptied(v);
    EndsDiffer(v.batches, p.index, v.settled, v.hash);
    if p.state == ReadingRecovery {
      EndsDiffer(v.batches, p.index, found.frames, v.hash);
    }
    EndOfNone([], v.hash);
    assert BoundaryAt([], 0, 0, v.hash);
    forall k | 0 <= k < |v'.extents| ensures Makes(v'.extents[k], v', p.generation, p.position) {
      if k < |v.extents| {
        assert Makes(v.extents[k], v, p.generation, p.position);
        if v.extents[k].generation == v.generation {
          var j: nat :| j <= v.settled && BoundaryAt(v.batches, v.extents[k].end, j, v.hash);
          EndsDiffer(v.batches, j, v.settled, v.hash);
        }
      }
    }
  }

  lemma AdvanceKeepsPlace(p: Place, v: SpoolView, found: Found, target: nat)
    requires InPlace(p, v, found) && target <= if p.generation == v.generation then p.position else 0
    ensures var v' := v.(checkpoint := target); InPlace(p, v', found) && Left(p, v') == Left(p, v)
  {
    hide End, EndsSettled;
    var v' := v.(checkpoint := target);
    forall k | 0 <= k < |v.extents| ensures Makes(v.extents[k], v', p.generation, p.position) {
      assert Makes(v.extents[k], v, p.generation, p.position);
      SameSettled(v.extents[k].end, v, v');
    }
  }

  // ---------- extents in order ----------

  lemma MadeInStep(p: Place, v: SpoolView, found: Found, committed: nat, v': SpoolView, more: nat)
    requires InStep(p, v, found, committed)
    requires v'.extents == v.extents + [SpoolExtent(v'.generation, more)]
    requires !Below(SpoolExtent(v'.generation, more), v.generation, committed)
    ensures InStep(p, v', found, more)
  {
    var last := v.extents[|v.extents| - 1];
    forall i, j | 0 <= i < j < |v'.extents| ensures !Below(v'.extents[j], v'.extents[i].generation, v'.extents[i].end) {
      if j == |v.extents| && i < |v.extents| - 1 {
        assert !Below(last, v.extents[i].generation, v.extents[i].end);
      }
    }
  }

  /** Publishing the oldest extent keeps the reader in step. */
  lemma OldestKeepsStep(p: Place, v: SpoolView, found: Found, committed: nat)
    requires InStep(p, v, found, committed) && |v.extents| > 1
    ensures InStep(p, v.(extents := Told(v.extents, 0)), found, committed)
  {
    var left := Told(v.extents, 0);
    assert left == v.extents[1..];
    assert !Below(v.extents[1], v.extents[0].generation, v.extents[0].end);
    forall i, j | 0 <= i < j < |left| ensures !Below(left[j], left[i].generation, left[i].end) {
      assert !Below(v.extents[j + 1], v.extents[i + 1].generation, v.extents[i + 1].end);
    }
  }

  lemma OneInStep(p: Place, v: SpoolView, found: Found, committed: nat)
    requires v.extents == [SpoolExtent(v.generation, committed)]
    requires !Below(v.extents[0], p.generation, if p.state == ReadingRecovery then found.end else p.position)
    ensures InStep(p, v, found, committed)
  {
  }
}
