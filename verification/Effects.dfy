/** What each transaction of the metastore does to the store, segment by segment and object by object, and when it
    does it. */
module Effects {
  import opened Basics
  import opened Metastore
  import opened Lifecycle

  /** Claiming takes active, unclaimed segments of one owner, two to a thousand of them, and nothing else. */
  lemma ClaimTakes(s: Store, run: nat, ids: set<nat>, owner: Owner)
    ensures ClaimTransaction(s, run, ids, owner).Success? <==>
              && run !in s.runs && 2 <= |ids| <= 1000
              && (forall id :: id in ids ==>
                    && id in s.segments && s.segments[id].state.Active?
                    && s.segments[id].claimedBy == None && s.segments[id].owner == owner)
              && ids <= s.segments.Keys && TotalOf(s, ids).rows <= 0x7FFF_FFFF_FFFF_FFFF
    ensures ClaimTransaction(s, run, ids, owner).Success? ==>
              var s' := ClaimTransaction(s, run, ids, owner).value;
              && s'.runs == s.runs[run := Run(owner, Building)]
              && s'.segments.Keys == s.segments.Keys && s'.objects == s.objects && s'.contents == s.contents
              && forall id :: id in s.segments ==>
                   var was := s.segments[id];
                   s'.segments[id] ==
                   Segment(was.owner, was.extent, was.state, if id in ids then Some(run) else was.claimedBy,
                           was.producedBy)
  {
    hide TotalOf;
  }

  /** The first registration of outputs stores each as planned, and marks the run as uploading. */
  lemma RegistrationStores(s: Store, run: nat, outputs: seq<Registration>, s': Store)
    requires RegisterTransaction(s, run, outputs) == Success(s') && s.runs[run].state.Building?
    ensures s'.runs == s.runs[run := Run(s.runs[run].owner, Uploading)]
    ensures forall k :: 0 <= k < |outputs| ==>
              var output := outputs[k];
              && output.run == run && output.owner == s.runs[run].owner && output.segmentId !in s.segments
              && output.segmentId in s'.segments && output.segmentId in s'.objects && output.segmentId in s'.contents
              && s'.segments[output.segmentId] == Segment(output.owner, output.extent, Prepared, None, Some(run))
              && s'.objects[output.segmentId] == Planned && s'.contents[output.segmentId] == output.rows
    ensures forall id :: id in s'.segments && id !in s.segments ==>
              exists k :: 0 <= k < |outputs| && outputs[k].segmentId == id
    ensures forall id :: id in s.segments ==> id in s'.segments && s'.segments[id] == s.segments[id]
    ensures forall id :: id in s.objects && id in s.segments ==> id in s'.objects && s'.objects[id] == s.objects[id]
    ensures forall id :: id in s.contents && id in s.segments ==> id in s'.contents && s'.contents[id] == s.contents[id]
  {
    hide TotalOf, Total, RegisteredExtents, InputsActive, InputsOwned, Inputs;
    forall k | 0 <= k < |outputs|
      ensures outputs[k].segmentId in RegisteredIds(outputs) && Named(outputs, outputs[k].segmentId) == outputs[k]
    {
      OneOfEach(run, outputs, k);
    }
    forall id | id in RegisteredIds(outputs) ensures exists k :: 0 <= k < |outputs| && outputs[k].segmentId == id {
      var k :| 0 <= k < |outputs| && OutputIds(outputs)[k] == id;
      assert outputs[k].segmentId == id;
    }
  }

  /** A first registration succeeds exactly for one to a thousand new outputs of this run, each with its own segment and
      object, fewer than the inputs, which are all active, and together with just their rows, bounds and expiry. */
  lemma RegistrationIsAdmitted(s: Store, run: nat, outputs: seq<Registration>)
    requires run in s.runs && s.runs[run].state.Building?
    ensures var inputs := set id | id in s.segments && s.segments[id].claimedBy == Some(run);
            RegisterTransaction(s, run, outputs).Success? <==>
              && 0 < |outputs| <= 1000 && 2 <= |inputs| && |outputs| < |inputs|
              && (forall k :: 0 <= k < |outputs| ==>
                    && outputs[k].run == run && outputs[k].segmentId !in s.segments
                    && outputs[k].owner == s.runs[run].owner
                    && outputs[k].extent.expiresAt == TotalOf(s, inputs).expiresAt)
              && (forall a, b :: 0 <= a < b < |outputs| ==>
                    outputs[a].segmentId != outputs[b].segmentId && outputs[a].objectId != outputs[b].objectId)
              && (forall id :: id in inputs ==>
                    s.segments[id].state.Active? && s.segments[id].owner == s.runs[run].owner)
              && Total(RegisteredExtents(outputs)).rows == TotalOf(s, inputs).rows <= 0xFFFF_FFFF_FFFF_FFFF
              && Total(RegisteredExtents(outputs)).bounds == TotalOf(s, inputs).bounds
  {
    hide TotalOf, Total, RegisteredExtents, Registered;
    assert Inputs(s, run) == set id | id in s.segments && s.segments[id].claimedBy == Some(run);
    assert forall k :: 0 <= k < |outputs| ==> OutputIds(outputs)[k] == outputs[k].segmentId;
    assert RegisteredIds(outputs) !! s.segments.Keys <==>
           forall k :: 0 <= k < |outputs| ==> outputs[k].segmentId !in s.segments by {
      assert forall k :: 0 <= k < |outputs| ==> OutputIds(outputs)[k] in RegisteredIds(outputs);
    }
  }

  lemma OneOfEach(run: nat, outputs: seq<Registration>, k: nat)
    requires IdentitiesOk(run, outputs) && k < |outputs|
    ensures outputs[k].segmentId in RegisteredIds(outputs) && Named(outputs, outputs[k].segmentId) == outputs[k]
  {
    var id := outputs[k].segmentId;
    assert OutputIds(outputs)[k] == id;
    var j :| 0 <= j < |outputs| && OutputIds(outputs)[j] == id && Named(outputs, id) == outputs[j];
    assert outputs[j].segmentId == id;
  }

  /** Repeating a registration changes nothing, and is accepted only for the outputs that are stored. */
  lemma RepeatedRegistration(s: Store, run: nat, outputs: seq<Registration>)
    requires run in s.runs && s.runs[run].state.Uploading? && RegisterTransaction(s, run, outputs).Success?
    ensures RegisterTransaction(s, run, outputs).value == s
    ensures forall id :: id in s.segments && s.segments[id].producedBy == Some(run) ==>
              exists k :: 0 <= k < |outputs| && outputs[k].segmentId == id
    ensures forall k :: 0 <= k < |outputs| ==>
              var id := outputs[k].segmentId;
              && id in s.segments && s.segments[id].producedBy == Some(run) && s.segments[id].state.Prepared?
              && s.segments[id].owner == outputs[k].owner && s.segments[id].extent == outputs[k].extent
              && id in s.objects && (s.objects[id].Planned? || s.objects[id].Uploaded?)
  {
    hide TotalOf, Total, OutputSetOk, InputsActive, InputsOwned, Inputs;
    forall k | 0 <= k < |outputs|
      ensures outputs[k].segmentId in RegisteredIds(outputs) && Named(outputs, outputs[k].segmentId) == outputs[k]
    {
      OneOfEach(run, outputs, k);
    }
    forall id | id in Outputs(s, run) ensures exists k :: 0 <= k < |outputs| && outputs[k].segmentId == id {
      var k :| 0 <= k < |outputs| && OutputIds(outputs)[k] == id;
      assert outputs[k].segmentId == id;
    }
  }

  /** An upload marks a planned object as uploaded now; any other stored object stays as it is. */
  lemma UploadMarks(s: Store, id: nat, now: int)
    ensures UploadTransaction(s, id, now).Success? <==> id in s.objects
    ensures id in s.objects ==>
              var s' := UploadTransaction(s, id, now).value;
              && s'.runs == s.runs && s'.segments == s.segments && s'.contents == s.contents
              && s'.objects.Keys == s.objects.Keys
              && forall other :: other in s.objects ==>
                   s'.objects[other] ==
                   if other == id && s.objects[other].Planned? then Uploaded(now) else s.objects[other]
  {
  }

  /** Publication makes the outputs active and published now, and retires the inputs now, to be reclaimed only after
      the grace period. Nothing else changes. */
  lemma PublicationReplaces(s: Store, run: nat, now: int, grace: Grace, s': Store)
    requires PublishTransaction(s, run, now, grace) == Success((s', DidPublish))
    ensures run in s.runs && s.runs[run].state.Uploading?
    ensures s'.runs == s.runs[run := Run(s.runs[run].owner, Committed(now))] && s'.contents == s.contents
    ensures s'.segments.Keys == s.segments.Keys && s'.objects.Keys == s.objects.Keys
    ensures forall id :: id in s.segments ==>
              var was, became := s.segments[id], s'.segments[id];
              if was.producedBy == Some(run) then
                became == Segment(was.owner, was.extent, Active(now), was.claimedBy, was.producedBy)
              else if was.claimedBy == Some(run) then
                && was.state.Active?
                && became == Segment(was.owner, was.extent, Superseded(was.state.publishedAt, now, now + grace),
                                 was.claimedBy, was.producedBy)
              else became == was
    ensures forall id :: id in s.objects ==>
              if id in s.segments && s.segments[id].producedBy == Some(run) then
                s.objects[id].Uploaded? && s'.objects[id] == Published(s.objects[id].uploadedAt, now)
              else s'.objects[id] == s.objects[id]
  {
    hide TotalOf;
  }

  /** A publication that finds itself done changes nothing. */
  lemma RepeatedPublication(s: Store, run: nat, now: int, grace: Grace, s': Store)
    requires PublishTransaction(s, run, now, grace) == Success((s', AlreadyPublished))
    ensures s' == s && run in s.runs && s.runs[run].state.Committed?
  {
    hide ValidateCommitted, ValidatePrepublication, PublishedStore;
  }

  /** Failing a run gives its inputs back and abandons its outputs now, to be reclaimed only after the grace period.
      Nothing else changes. */
  lemma FailureReleases(s: Store, run: nat, reason: FailureReason, now: int, grace: Grace, s': Store)
    requires FailTransaction(s, run, reason, now, grace) == Success((s', DidFail))
    ensures run in s.runs && (s.runs[run].state.Building? || s.runs[run].state.Uploading?)
    ensures s'.runs == s.runs[run := Run(s.runs[run].owner, Failed(reason, now))]
    ensures s'.segments.Keys == s.segments.Keys && s'.objects == s.objects && s'.contents == s.contents
    ensures forall id :: id in s.segments ==>
              var was, became := s.segments[id], s'.segments[id];
              if was.claimedBy == Some(run) then
                became == Segment(was.owner, was.extent, was.state, None, was.producedBy)
              else if was.producedBy == Some(run) then
                became == Segment(was.owner, was.extent, Abandoned(now, now + grace), was.claimedBy, was.producedBy)
              else became == was
  {
    hide ValidateFailureSafe, ValidateFailed, ValidateCommitted;
  }

  lemma RepeatedFailure(s: Store, run: nat, reason: FailureReason, now: int, grace: Grace)
    requires FailTransaction(s, run, reason, now, grace).Success?
    ensures var (s', outcome) := FailTransaction(s, run, reason, now, grace).value;
            && run in s.runs && (outcome != DidFail ==> s' == s)
            && (outcome == AlreadyFailed <==> s.runs[run].state.Failed?)
            && (outcome == AlreadyCommitted <==> s.runs[run].state.Committed?)
  {
    hide ValidateFailureSafe, ValidateFailed, ValidateCommitted, FailedStore;
  }

  /** What failing the given runs makes of a segment. */
  predicate LetGo(was: Segment, became: Segment, runs: set<nat>, now: int, grace: Grace) {
    var claimed := was.claimedBy.Some? && was.claimedBy.value in runs;
    var produced := was.producedBy.Some? && was.producedBy.value in runs;
    && became.owner == was.owner && became.extent == was.extent && became.producedBy == was.producedBy
    && became.claimedBy == (if claimed then None else was.claimedBy)
    && (!produced ==> became.state == was.state)
    && (produced && !claimed ==> became.state == Abandoned(now, now + grace))
  }

  lemma LetGoInTurn(was: Segment, between: Segment, became: Segment, run: nat, runs: set<nat>, now: int, grace: Grace)
    requires LetGo(was, between, {run}, now, grace) && LetGo(between, became, runs, now, grace)
    ensures LetGo(was, became, {run} + runs, now, grace)
  {
  }

  lemma OneLetGo(s: Store, run: nat, now: int, grace: Grace)
    requires run in s.runs
    ensures var s' := FailedStore(s, run, RecoveryFailed, now, grace);
            && s'.runs == s.runs[run := Run(s.runs[run].owner, Failed(RecoveryFailed, now))]
            && s'.segments.Keys == s.segments.Keys && s'.objects == s.objects && s'.contents == s.contents
            && forall id :: id in s.segments ==> LetGo(s.segments[id], s'.segments[id], {run}, now, grace)
  {
  }

  lemma IdSetCons(ids: seq<nat>)
    requires ids != []
    ensures IdSet(ids) == {ids[0]} + IdSet(ids[1..])
  {
    forall id ensures id in IdSet(ids) <==> id in {ids[0]} + IdSet(ids[1..]) {
      if id in IdSet(ids[1..]) {
        var k :| 0 <= k < |ids[1..]| && ids[1..][k] == id;
        assert ids[k + 1] == id;
      }
      if id in IdSet(ids) && id != ids[0] {
        var k :| 0 <= k < |ids| && ids[k] == id;
        assert ids[1..][k - 1] == id;
      }
    }
  }

  /** Recovery fails every run of the batch, in one transaction, and does to their segments what failing does. */
  lemma {:induction false} RecoveryReleases(s: Store, batch: seq<nat>, now: int, grace: Grace, s': Store)
    requires RecoverTransaction(s, batch, now, grace) == Success(s')
    ensures s'.runs.Keys == s.runs.Keys && IdSet(batch) <= s.runs.Keys
    ensures forall run :: run in s.runs ==>
              s'.runs[run] ==
              if run in IdSet(batch) then Run(s.runs[run].owner, Failed(RecoveryFailed, now)) else s.runs[run]
    ensures s'.segments.Keys == s.segments.Keys && s'.objects == s.objects && s'.contents == s.contents
    ensures forall id :: id in s.segments ==> LetGo(s.segments[id], s'.segments[id], IdSet(batch), now, grace)
    decreases |batch|
  {
    hide ValidateFailureSafe, FailedStore, LetGo, IdSet;
    if batch == [] {
      NothingLetGo(s, now, grace);
    } else {
      var next := FailedStore(s, batch[0], RecoveryFailed, now, grace);
      RecoveryReleases(next, batch[1..], now, grace, s');
      OneLetGo(s, batch[0], now, grace);
      IdSetCons(batch);
      forall id | id in s.segments ensures LetGo(s.segments[id], s'.segments[id], IdSet(batch), now, grace) {
        LetGoInTurn(s.segments[id], next.segments[id], s'.segments[id], batch[0], IdSet(batch[1..]), now, grace);
      }
    }
  }

  lemma NothingLetGo(s: Store, now: int, grace: Grace)
    ensures IdSet([]) == {}
    ensures forall id :: id in s.segments ==> LetGo(s.segments[id], s.segments[id], IdSet([]), now, grace)
  {
  }
}
