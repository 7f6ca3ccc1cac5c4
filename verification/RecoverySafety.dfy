/** Failing runs: always possible before publication, one by one or in the bounded batches a new
    maintenance owner repeats until nothing unfinished is left. */
module RecoverySafety {
  import opened Basics
  import opened Metastore
  import opened Lifecycle
  import opened LifecycleSafety

  // ---------- what the invariant says about a run ----------

  lemma UnfinishedInputs(s: Store, run: nat)
    requires Inv(s) && run in s.runs && Unfinished(s.runs[run].state)
    ensures InputsActive(s, run) && InputsOwned(s, run)
  {
    hide RunsOk;
    forall id | id in Inputs(s, run) ensures s.segments[id].state.Active? && s.segments[id].owner == s.runs[run].owner {
      assert SegmentOk(s, id);
    }
  }

  lemma UploadingOutputs(s: Store, run: nat)
    requires Inv(s) && run in s.runs && s.runs[run].state.Uploading?
    ensures OutputsPrepared(s, run) && ObjectsPending(s, run)
  {
    hide RunsOk;
    forall id | id in Outputs(s, run) ensures s.segments[id].state.Prepared? && Pending(s.objects[id]) {
      assert SegmentOk(s, id);
    }
  }

  /** An unfinished run can always be failed: the checks that guard it never object. */
  lemma FailureIsSafe(s: Store, run: nat)
    requires Inv(s) && run in s.runs && Unfinished(s.runs[run].state)
    ensures LoadReplacement(s, run).Success? && ValidateFailureSafe(s, run).Success?
  {
    UnfinishedInputs(s, run);
    assert RunOk(s, run);
    hide SegmentsOk, RunsOk, InputsActive, InputsOwned, Inputs;
    if s.runs[run].state.Building? {
      NothingProduced(s, run);
    } else {
      UploadingOutputs(s, run);
    }
  }

  lemma FailedRunIsClean(s: Store, run: nat)
    requires Inv(s) && run in s.runs && s.runs[run].state.Failed?
    ensures ValidateFailed(s, run).Success?
  {
    hide RunsOk;
    forall id | id in s.segments ensures s.segments[id].claimedBy != Some(run) {
      assert SegmentOk(s, id);
    }
    forall id | id in Outputs(s, run)
      ensures id in s.objects && s.segments[id].owner == s.runs[run].owner && s.segments[id].state.Abandoned?
      ensures s.segments[id].state.reclaimAfter > s.segments[id].state.retiredAt && Pending(s.objects[id])
    {
      assert SegmentOk(s, id);
    }
    hide SegmentsOk;
  }

  lemma CommittedInputs(s: Store, run: nat, at: int)
    requires Inv(s) && run in s.runs && s.runs[run].state == Committed(at)
    ensures InputsSuperseded(s, run, at)
  {
    hide RunsOk;
    forall id | id in Inputs(s, run)
      ensures var state := s.segments[id].state; state.Superseded? && state.retiredAt == at && state.reclaimAfter > at
    {
      assert SegmentOk(s, id);
    }
  }

  ghost predicate OutputsStillActive(s: Store, run: nat) {
    forall id :: id in Outputs(s, run) ==> s.segments[id].state.Active?
  }

  lemma CommittedOutputs(s: Store, run: nat, at: int)
    requires Inv(s) && run in s.runs && s.runs[run].state == Committed(at)
    ensures OutputsActive(s, run, at) <==> OutputsStillActive(s, run)
    ensures ObjectsPublished(s, run, at)
  {
    hide RunsOk;
    forall id | id in Outputs(s, run)
      ensures (s.segments[id].state.Active? <==> s.segments[id].state == Active(at))
      ensures s.objects[id].Published? && s.objects[id].publishedAt == at
    {
      assert SegmentOk(s, id);
    }
    hide SegmentsOk;
  }

  /** The answer to a retried publication is recognised exactly while none of its outputs has been compacted
      further: a later run that supersedes an output makes the retry report corruption. */
  lemma CommittedRunIsRecognised(s: Store, run: nat, at: int)
    requires Inv(s) && run in s.runs && s.runs[run].state == Committed(at)
    ensures LoadReplacement(s, run).Success?
    ensures ValidateCommitted(s, run, at).Success? <==> OutputsStillActive(s, run)
  {
    CommittedInputs(s, run, at);
    CommittedOutputs(s, run, at);
    assert RunOk(s, run);
    hide SegmentsOk, RunsOk, Inputs, Outputs, InputsSuperseded, OutputsActive, ObjectsPublished, OutputsStillActive;
  }

  // ---------- fail ----------

  lemma FailLinks(runs: map<nat, Run>, run: nat, segment: Segment, stored: ObjectState,
                  reason: FailureReason, now: int, grace: Grace)
    requires run in runs && Unfinished(runs[run].state) && LinksOk(runs, segment, stored)
    ensures var runs' := runs[run := runs[run].(state := Failed(reason, now))];
            if segment.claimedBy == Some(run) then LinksOk(runs', segment.(claimedBy := None), stored)
            else if segment.producedBy == Some(run) then
              !segment.state.Active? && LinksOk(runs', segment.(state := Abandoned(now, now + grace)), stored)
            else LinksOk(runs', segment, stored)
  {
  }

  lemma FailShape(s: Store, run: nat, reason: FailureReason, now: int, grace: Grace)
    requires run in s.runs
    ensures var s' := FailedStore(s, run, reason, now, grace);
            && Grows(s, s') && TouchesOnly(s, s', run)
            && s'.runs == s.runs[run := s.runs[run].(state := Failed(reason, now))]
            && s'.contents == s.contents && s'.segments.Keys == s.segments.Keys && s'.objects == s.objects
            && (forall id :: id in s.segments ==>
                  s'.segments[id] ==
                  if s.segments[id].claimedBy == Some(run) then s.segments[id].(claimedBy := None)
                  else if s.segments[id].producedBy == Some(run)
                      then s.segments[id].(state := Abandoned(now, now + grace))
                  else s.segments[id])
  {
  }

  lemma FailSegments(s: Store, run: nat, reason: FailureReason, now: int, grace: Grace)
    requires Inv(s) && run in s.runs && Unfinished(s.runs[run].state)
    ensures SegmentsOk(FailedStore(s, run, reason, now, grace))
  {
    var s' := FailedStore(s, run, reason, now, grace);
    FailShape(s, run, reason, now, grace);
    hide FailedStore, RunsOk, LinksOk, Grows, TouchesOnly;
    forall id | id in s'.segments ensures SegmentOk(s', id) {
      assert SegmentOk(s, id);
      FailLinks(s.runs, run, s.segments[id], s.objects[id], reason, now, grace);
    }
  }

  lemma FailActive(s: Store, run: nat, reason: FailureReason, now: int, grace: Grace)
    requires Inv(s) && run in s.runs && Unfinished(s.runs[run].state)
    ensures ActiveIds(FailedStore(s, run, reason, now, grace)) == ActiveIds(s)
  {
    var s' := FailedStore(s, run, reason, now, grace);
    FailShape(s, run, reason, now, grace);
    hide FailedStore, RunsOk, Grows, TouchesOnly, LinksOk, ActiveIds;
    forall id | id in s.segments ensures s'.segments[id].state.Active? <==> s.segments[id].state.Active? {
      assert SegmentOk(s, id);
      FailLinks(s.runs, run, s.segments[id], s.objects[id], reason, now, grace);
    }
    ActiveAreKept(s, s');
  }

  lemma FailSets(s: Store, run: nat, reason: FailureReason, now: int, grace: Grace)
    requires Inv(s) && run in s.runs
    ensures var s' := FailedStore(s, run, reason, now, grace);
            Inputs(s', run) == {} && Outputs(s', run) == Outputs(s, run) && OthersKept(s, s', run)
  {
    hide FailedStore, Inv, Grows, OthersKept, TouchesOnly;
    var s' := FailedStore(s, run, reason, now, grace);
    FailShape(s, run, reason, now, grace);
    OthersAreKept(s, s', run, s'.runs[run]);
    forall id ensures id !in Inputs(s', run) {}
    forall id ensures id in Outputs(s', run) <==> id in Outputs(s, run) {}
  }

  /** Failing an unfinished run releases its inputs, abandons its outputs and shows queries no difference. */
  lemma FailIsSafe(s: Store, run: nat, reason: FailureReason, now: int, grace: Grace)
    requires Inv(s) && run in s.runs && Unfinished(s.runs[run].state)
    ensures var s' := FailedStore(s, run, reason, now, grace);
            && Inv(s') && SeesTheSame(s, s')
            && UnfinishedRuns(s') == UnfinishedRuns(s) - {run}
            && Inputs(s', run) == {} && Outputs(s', run) == Outputs(s, run) && OutputsAbandoned(s', run)
  {
    var s' := FailedStore(s, run, reason, now, grace);
    FailShape(s, run, reason, now, grace);
    FailSets(s, run, reason, now, grace);
    FailSegments(s, run, reason, now, grace);
    FailActive(s, run, reason, now, grace);
    assert RunOk(s, run);
    FailedUnfinished(s, s', run, s'.runs[run]);
    hide FailedStore, SegmentsOk, RunsOk, OthersKept, TouchesOnly, Replaces, Inputs, Outputs, SeesTheSame,
      UnfinishedRuns;
    StepKeepsInv(s, s', run);
    FailedRunIsClean(s', run);
    ActiveHaveContents(s);
    SameActive(s, s');
  }

  lemma FailedUnfinished(s: Store, s': Store, run: nat, state: Run)
    requires run in s.runs && s'.runs == s.runs[run := state] && !Unfinished(state.state)
    ensures UnfinishedRuns(s') == UnfinishedRuns(s) - {run}
  {
    forall other ensures other in UnfinishedRuns(s') <==> other in UnfinishedRuns(s) - {run} {}
  }

  /** What failing a run answers in every state it can be in. */
  lemma FailTransactionAnswers(s: Store, run: nat, reason: FailureReason, now: int, grace: Grace)
    requires Inv(s)
    ensures var answer := FailTransaction(s, run, reason, now, grace);
            if run !in s.runs then answer == Failure(Conflict)
            else match s.runs[run].state
              case Building => answer == Success((FailedStore(s, run, reason, now, grace), DidFail))
              case Uploading => answer == Success((FailedStore(s, run, reason, now, grace), DidFail))
              case Failed(_, _) => answer == Success((s, AlreadyFailed))
              case Committed(_) =>
                answer == if OutputsStillActive(s, run) then Success((s, AlreadyCommitted)) else Failure(Corrupt)
  {
    if run in s.runs {
      assert RunOk(s, run);
      match s.runs[run].state
      case Building => FailureIsSafe(s, run);
      case Uploading => FailureIsSafe(s, run);
      case Failed(_, _) => FailedRunIsClean(s, run);
      case Committed(at) => CommittedRunIsRecognised(s, run, at);
    }
  }

  // ---------- recover ----------

  lemma SeesTheSameTransitive(a: Store, b: Store, c: Store)
    requires Inv(a) && Inv(b) && Inv(c) && SeesTheSame(a, b) && SeesTheSame(b, c)
    ensures SeesTheSame(a, c)
  {
    hide Inv, VisibleRows, RowsKeptUntil;
    forall deadline ensures RowsKeptUntil(a, deadline) <= RowsKeptUntil(c, deadline) {
      assert RowsKeptUntil(a, deadline) <= RowsKeptUntil(b, deadline);
      assert RowsKeptUntil(b, deadline) <= RowsKeptUntil(c, deadline);
    }
  }

  lemma SeesItself(s: Store)
    requires Inv(s)
    ensures SeesTheSame(s, s)
  {
  }

  /** The run was failed by recovery: what it had claimed is active and free again, what it had prepared is abandoned.
      */
  ghost predicate CleanedUp(s: Store, s': Store, run: nat) {
    && run in s'.runs && s'.runs[run].state.Failed? && s'.runs[run].state.reason == RecoveryFailed
    && (forall id :: id in Inputs(s, run) ==>
          id in s'.segments && s'.segments[id].state.Active? && s'.segments[id].claimedBy == None)
    && Inputs(s', run) == {} && Outputs(s', run) == Outputs(s, run) && OutputsAbandoned(s', run)
  }

  /** Recovery only lets go of a segment: an active one stays active, a free one free, an abandoned one abandoned. */
  predicate LetsGo(segment: Segment, segment': Segment) {
    && segment'.producedBy == segment.producedBy
    && (segment.state.Active? ==> segment'.state.Active?)
    && (segment'.claimedBy == segment.claimedBy || segment'.claimedBy.None?)
    && (segment.state.Abandoned? ==> segment'.state == segment.state)
  }

  ghost predicate LetsAllGo(s: Store, s': Store) {
    && s'.segments.Keys == s.segments.Keys
    && (forall id :: id in s.segments ==> LetsGo(s.segments[id], s'.segments[id]))
    && (forall run :: run in s.runs && s.runs[run].state.Failed? ==> run in s'.runs && s'.runs[run] == s.runs[run])
  }

  /** What recoveries make of a store: the runs they finished are cleaned up, the others go on with what they had. */
  ghost predicate RecoveredFrom(s: Store, s': Store) {
    && LetsAllGo(s, s')
    && (forall run :: run in UnfinishedRuns(s') ==> run in UnfinishedRuns(s) && Inputs(s', run) == Inputs(s, run))
    && (forall run :: run in UnfinishedRuns(s) && run !in UnfinishedRuns(s') ==> CleanedUp(s, s', run))
  }

  lemma LettingGoKeepsOutputs(s: Store, s': Store, run: nat)
    requires LetsAllGo(s, s')
    ensures Outputs(s', run) == Outputs(s, run)
    ensures OutputsAbandoned(s, run) ==> OutputsAbandoned(s', run)
  {
    forall id ensures id in Outputs(s', run) <==> id in Outputs(s, run) {}
    if OutputsAbandoned(s, run) {
      forall id | id in Outputs(s', run)
        ensures s'.segments[id].state.Abandoned? && s'.segments[id].state.reclaimAfter > s'.segments[id].state.retiredAt
      {
        assert LetsGo(s.segments[id], s'.segments[id]);
      }
    }
  }

  lemma RecoveredItself(s: Store)
    ensures RecoveredFrom(s, s)
  {
  }

  /** Cleaned up once, cleaned up for good, as long as nothing but recovery happens. */
  lemma StaysCleanedUp(a: Store, b: Store, c: Store, run: nat)
    requires CleanedUp(a, b, run) && LetsAllGo(b, c)
    ensures CleanedUp(a, c, run)
  {
    LettingGoKeepsOutputs(b, c, run);
    forall id ensures id !in Inputs(c, run) {
      assert id in b.segments ==> LetsGo(b.segments[id], c.segments[id]);
      assert id !in Inputs(b, run);
    }
  }

  lemma LetsAllGoTransitive(a: Store, b: Store, c: Store)
    requires LetsAllGo(a, b) && LetsAllGo(b, c)
    ensures LetsAllGo(a, c)
  {
    forall id | id in a.segments ensures LetsGo(a.segments[id], c.segments[id]) {
      assert LetsGo(a.segments[id], b.segments[id]) && LetsGo(b.segments[id], c.segments[id]);
    }
  }

  lemma CleanedUpLater(a: Store, b: Store, c: Store, run: nat)
    requires CleanedUp(b, c, run) && Inputs(a, run) == Inputs(b, run) && Outputs(a, run) == Outputs(b, run)
    ensures CleanedUp(a, c, run)
  {
  }

  lemma RecoveredTransitive(a: Store, b: Store, c: Store)
    requires RecoveredFrom(a, b) && RecoveredFrom(b, c)
    ensures RecoveredFrom(a, c)
  {
    hide Inputs, Outputs, CleanedUp, LetsAllGo, UnfinishedRuns;
    LetsAllGoTransitive(a, b, c);
    forall run | run in UnfinishedRuns(a) && run !in UnfinishedRuns(c) ensures CleanedUp(a, c, run) {
      if run in UnfinishedRuns(b) {
        LettingGoKeepsOutputs(a, b, run);
        CleanedUpLater(a, b, c, run);
      } else {
        StaysCleanedUp(a, b, c, run);
      }
    }
  }

  lemma FailLetsGo(s: Store, run: nat, now: int, grace: Grace)
    requires Inv(s) && run in s.runs && Unfinished(s.runs[run].state)
    ensures LetsAllGo(s, FailedStore(s, run, RecoveryFailed, now, grace))
  {
    hide FailedStore, RunsOk, Grows, TouchesOnly, LinksOk, LetsGo;
    var s' := FailedStore(s, run, RecoveryFailed, now, grace);
    FailShape(s, run, RecoveryFailed, now, grace);
    forall id | id in s.segments ensures LetsGo(s.segments[id], s'.segments[id]) {
      assert SegmentOk(s, id);
      LetsOneGo(s.runs, run, s.segments[id], s.objects[id], now, grace);
    }
  }

  lemma LetsOneGo(runs: map<nat, Run>, run: nat, segment: Segment, stored: ObjectState, now: int, grace: Grace)
    requires run in runs && Unfinished(runs[run].state) && LinksOk(runs, segment, stored)
    ensures LetsGo(segment,
                   if segment.claimedBy == Some(run) then segment.(claimedBy := None)
                   else if segment.producedBy == Some(run) then segment.(state := Abandoned(now, now + grace))
                   else segment)
  {
    hide LinksOk;
    if segment.producedBy == Some(run) {
      OutputIsPrepared(runs, run, segment, stored);
    }
  }

  lemma OutputIsPrepared(runs: map<nat, Run>, run: nat, segment: Segment, stored: ObjectState)
    requires run in runs && Unfinished(runs[run].state) && LinksOk(runs, segment, stored)
             && segment.producedBy == Some(run)
    ensures segment.state.Prepared?
  {
  }

  /** Failing one run is such a step. */
  lemma FailRecovers(s: Store, run: nat, now: int, grace: Grace)
    requires Inv(s) && run in s.runs && Unfinished(s.runs[run].state)
    ensures RecoveredFrom(s, FailedStore(s, run, RecoveryFailed, now, grace))
  {
    hide Inv, FailedStore, LetsAllGo, Grows, TouchesOnly, SeesTheSame, OutputsAbandoned;
    var s' := FailedStore(s, run, RecoveryFailed, now, grace);
    FailLetsGo(s, run, now, grace);
    FailShape(s, run, RecoveryFailed, now, grace);
    FailSets(s, run, RecoveryFailed, now, grace);
    FailIsSafe(s, run, RecoveryFailed, now, grace);
    UnfinishedInputs(s, run);
    hide UnfinishedRuns;
    UnfinishedAreRuns(s);
    assert CleanedUp(s, s', run);
  }

  lemma UnfinishedAreRuns(s: Store)
    ensures forall run :: run in UnfinishedRuns(s) <==> run in s.runs && Unfinished(s.runs[run].state)
  {
  }

  /** A recovery of distinct unfinished runs always commits, and finishes exactly those runs, cleaning up after each. */
  lemma {:induction false} RecoverySucceeds(s: Store, batch: seq<nat>, now: int, grace: Grace) returns (s': Store)
    requires Inv(s) && NoDuplicates(batch) && IdSet(batch) <= UnfinishedRuns(s)
    ensures RecoverTransaction(s, batch, now, grace) == Success(s')
    ensures Inv(s') && SeesTheSame(s, s') && UnfinishedRuns(s') == UnfinishedRuns(s) - IdSet(batch)
    ensures RecoveredFrom(s, s')
    decreases |batch|
  {
    hide Inv, FailedStore, SeesTheSame, ValidateFailureSafe, UnfinishedRuns, RecoveredFrom, IdSet, OutputsAbandoned;
    UnfinishedAreRuns(s);
    if batch == [] {
      SeesItself(s);
      RecoveredItself(s);
      s' := s;
      NoIds();
    } else {
      var run := batch[0];
      IdSetHead(batch);
      FailureIsSafe(s, run);
      FailIsSafe(s, run, RecoveryFailed, now, grace);
      FailRecovers(s, run, now, grace);
      var next := FailedStore(s, run, RecoveryFailed, now, grace);
      s' := RecoverySucceeds(next, batch[1..], now, grace);
      SeesTheSameTransitive(s, next, s');
      RecoveredTransitive(s, next, s');
    }
  }

  lemma NoIds()
    ensures IdSet([]) == {}
  {
  }

  lemma IdSetHead(ids: seq<nat>)
    requires ids != [] && NoDuplicates(ids)
    ensures NoDuplicates(ids[1..]) && IdSet(ids) == {ids[0]} + IdSet(ids[1..]) && ids[0] !in IdSet(ids[1..])
  {
    forall id | id in IdSet(ids) && id != ids[0] ensures id in IdSet(ids[1..]) {
      var k :| 0 <= k < |ids| && ids[k] == id;
      assert ids[1..][k - 1] == id;
    }
    forall id | id in IdSet(ids[1..]) ensures id in IdSet(ids) && id != ids[0] {
      var k :| 0 <= k < |ids[1..]| && ids[1..][k] == id;
      assert ids[k + 1] == id;
    }
  }

  /** One bounded recovery: some batch is picked, and its transaction commits. */
  ghost predicate Recovers(s: Store, s': Store, limit: nat, grace: Grace) {
    exists batch: seq<nat>, now: int ::
      RecoveryBatch(s, batch, limit) && RecoverTransaction(s, batch, now, grace) == Success(s')
  }

  lemma BatchIds(s: Store, batch: seq<nat>, limit: nat)
    requires RecoveryBatch(s, batch, limit)
    ensures NoDuplicates(batch) && IdSet(batch) <= UnfinishedRuns(s)
    ensures |IdSet(batch)| == Min(limit, |UnfinishedRuns(s)|)
  {
    hide UnfinishedRuns;
    CountIds(batch);
  }

  lemma RecoveryFinishesABatch(s: Store, s': Store, limit: nat, grace: Grace)
    requires Inv(s) && Recovers(s, s', limit, grace)
    ensures Inv(s') && SeesTheSame(s, s') && UnfinishedRuns(s') <= UnfinishedRuns(s)
    ensures |UnfinishedRuns(s')| == |UnfinishedRuns(s)| - Min(limit, |UnfinishedRuns(s)|)
    ensures RecoveredFrom(s, s')
  {
    hide Inv, UnfinishedRuns, RecoverTransaction, SeesTheSame, RecoveredFrom;
    var batch: seq<nat>, now: int :|
      RecoveryBatch(s, batch, limit) && RecoverTransaction(s, batch, now, grace) == Success(s');
    BatchIds(s, batch, limit);
    hide RecoveryBatch;
    var end := RecoverySucceeds(s, batch, now, grace);
    assert UnfinishedRuns(s) == UnfinishedRuns(s') + IdSet(batch);
  }

  /** Recovering again and again, as a new maintenance owner does. */
  ghost predicate RecoveryRun(stores: seq<Store>, limit: nat, grace: Grace) {
    && stores != []
    && forall n :: 0 <= n < |stores| - 1 ==> Recovers(stores[n], stores[n + 1], limit, grace)
  }

  /** Nothing is left half done: every claim belongs to a published replacement, every unpublished output is
      abandoned. */
  ghost predicate Clean(s: Store) {
    && UnfinishedRuns(s) == {}
    && forall id :: id in s.segments ==>
         && (s.segments[id].claimedBy.Some? ==> s.segments[id].state.Superseded?)
         && !s.segments[id].state.Prepared?
  }

  lemma NothingUnfinishedIsClean(s: Store)
    requires Inv(s) && UnfinishedRuns(s) == {}
    ensures Clean(s)
  {
    hide RunsOk;
    forall id | id in s.segments
      ensures (s.segments[id].claimedBy.Some? ==> s.segments[id].state.Superseded?) && !s.segments[id].state.Prepared?
    {
      assert SegmentOk(s, id);
      assert forall run :: run in s.runs && Unfinished(s.runs[run].state) ==> run in UnfinishedRuns(s);
    }
  }

  /** Every repetition finishes a whole batch, so the owner's loop ends after as many as it takes, with a clean
      store that shows the rows it always showed: every run that was unfinished at the start is failed, its inputs are
      active and unclaimed, and its outputs are abandoned. */
  lemma {:induction false} RepeatedRecoveryEndsClean(stores: seq<Store>, limit: nat, grace: Grace)
    requires RecoveryRun(stores, limit, grace) && Inv(stores[0])
    ensures var last := stores[|stores| - 1];
            && Inv(last) && SeesTheSame(stores[0], last)
            && |UnfinishedRuns(last)| == Max(0, |UnfinishedRuns(stores[0])| - limit * (|stores| - 1))
            && RecoveredFrom(stores[0], last)
            && (limit * (|stores| - 1) >= |UnfinishedRuns(stores[0])| ==>
                  Clean(last) && forall run :: run in UnfinishedRuns(stores[0]) ==> CleanedUp(stores[0], last, run))
    decreases |stores|
  {
    hide Inv, SeesTheSame, Recovers, UnfinishedRuns, Clean, RecoveredFrom, CleanedUp;
    var left := |UnfinishedRuns(stores[0])|;
    if |stores| == 1 {
      SeesItself(stores[0]);
      RecoveredItself(stores[0]);
      MoreBatches(left, limit, 0);
    } else {
      var before := stores[..|stores| - 1];
      RepeatedRecoveryEndsClean(before, limit, grace);
      var s, s' := before[|stores| - 2], stores[|stores| - 1];
      assert Recovers(stores[|stores| - 2], stores[|stores| - 2 + 1], limit, grace);
      RecoveryFinishesABatch(s, s', limit, grace);
      SeesTheSameTransitive(stores[0], s, s');
      RecoveredTransitive(stores[0], s, s');
      MoreBatches(left, limit, |stores| - 2);
    }
    if limit * (|stores| - 1) >= left {
      NothingUnfinishedIsClean(stores[|stores| - 1]);
      AllCleanedUp(stores[0], stores[|stores| - 1]);
    }
  }

  lemma AllCleanedUp(s: Store, s': Store)
    requires RecoveredFrom(s, s') && UnfinishedRuns(s') == {}
    ensures forall run :: run in UnfinishedRuns(s) ==> CleanedUp(s, s', run)
  {
    hide UnfinishedRuns, CleanedUp, LetsAllGo;
  }

  /** What is left after one more batch. */
  lemma MoreBatches(all: nat, limit: nat, n: nat)
    ensures limit * 0 == 0 && limit * (n + 1) == limit * n + limit
    ensures var left := Max(0, all - limit * n); left - Min(limit, left) == Max(0, all - limit * (n + 1))
  {
  }

  lemma SomeBatch(s: Store, limit: nat) returns (batch: seq<nat>)
    ensures RecoveryBatch(s, batch, limit)
  {
    hide UnfinishedRuns, Ordered;
    var unfinished := UnfinishedRuns(s);
    OrderedLists(unfinished);
    OrderedDistinct(unfinished);
    batch := Ordered(unfinished)[..Min(limit, |unfinished|)];
    assert forall k :: 0 <= k < |batch| ==> batch[k] == Ordered(unfinished)[k];
  }

  /** A recovery can always take its next step. */
  lemma RecoveryNeverBlocks(s: Store, limit: nat, now: int, grace: Grace) returns (s': Store)
    requires Inv(s)
    ensures Recovers(s, s', limit, grace)
  {
    hide Inv, UnfinishedRuns, RecoverTransaction, RecoveryBatch, SeesTheSame, RecoveredFrom;
    var batch := SomeBatch(s, limit);
    BatchIds(s, batch, limit);
    s' := RecoverySucceeds(s, batch, now, grace);
  }

  lemma {:induction false} OrderedDistinct(ids: set<nat>)
    ensures NoDuplicates(Ordered(ids))
    decreases |ids|
  {
    if ids != {} {
      MinimumExists(ids);
      var least: nat :| IsMinimum(ids, least);
      OrderedStarts(ids, least);
      OrderedDistinct(ids - {least});
      OrderedLists(ids - {least});
    }
  }
}
