/** Ingestion registers bounds in whole milliseconds. Then so does everything else: no run of the store ever holds
    a segment with other bounds, and every compaction that builds also registers and publishes. */
module ExactBounds {
  import opened Segments
  import opened Cursor
  import opened Claims
  import opened Worker
  import opened Metastore
  import opened Lifecycle
  import opened LifecycleSafety
  import opened Runs
  import opened Stages

  ghost predicate AllExact(s: Store) {
    forall id :: id in s.segments ==> MillisecondExact(s.segments[id].extent.bounds)
  }

  /** The registrations are those of the outputs of some build. */
  ghost predicate FromBuild(run: nat, outputs: seq<Registration>) {
    exists claim: Claim, local: seq<LocalOutput>, segmentIds: seq<nat>, objectIds: seq<nat> ::
      && |segmentIds| == |local| == |objectIds| && (forall k :: 0 <= k < |local| ==> local[k].rows != [])
      && outputs == Registrations(run, claim, local, segmentIds, objectIds)
  }

  /** Ingestion writes whole milliseconds, and what a worker registers it has built. */
  ghost predicate WritesExact(step: Step) {
    match step
    case IngestStep(_, _, extent, _, _, _) => MillisecondExact(extent.bounds)
    case RegisterStep(run, outputs) => FromBuild(run, outputs)
    case _ => true
  }

  lemma BuiltIsExact(run: nat, outputs: seq<Registration>)
    requires FromBuild(run, outputs)
    ensures forall k :: 0 <= k < |outputs| ==> MillisecondExact(outputs[k].extent.bounds)
  {
    var claim: Claim, local: seq<LocalOutput>, segmentIds: seq<nat>, objectIds: seq<nat> :|
      && |segmentIds| == |local| == |objectIds| && (forall k :: 0 <= k < |local| ==> local[k].rows != [])
      && outputs == Registrations(run, claim, local, segmentIds, objectIds);
    forall k | 0 <= k < |outputs| ensures MillisecondExact(outputs[k].extent.bounds) {
      WholeMilliseconds(local[k].bounds);
    }
  }

  lemma RegisteringKeepsExact(s: Store, run: nat, outputs: seq<Registration>)
    requires AllExact(s) && FromBuild(run, outputs)
    ensures AllExact(Apply(s, RegisterStep(run, outputs)))
  {
    BuiltIsExact(run, outputs);
    hide MillisecondExact, FromBuild, OutputSetOk, StoredOutputsMatch, TotalOf, InputsActive, InputsOwned, Inputs;
  }

  lemma {:induction false} RecoveryKeepsExact(s: Store, batch: seq<nat>, at: int, grace: Grace)
    requires AllExact(s)
    ensures AllExact(Apply(s, RecoverStep(batch, at, grace)))
    decreases |batch|
  {
    hide MillisecondExact, ValidateFailureSafe;
    if RecoverTransaction(s, batch, at, grace).Success? && batch != [] {
      RecoveryKeepsExact(FailedStore(s, batch[0], RecoveryFailed, at, grace), batch[1..], at, grace);
    }
  }

  lemma StepKeepsExact(s: Store, step: Step)
    requires AllExact(s) && WritesExact(step)
    ensures AllExact(Apply(s, step))
  {
    hide MillisecondExact, Claimable, ValidatePrepublication, ValidateCommitted, ValidateFailureSafe, ValidateFailed,
      RegisterTransaction, RecoverTransaction, FromBuild;
    match step {
      case RegisterStep(run, outputs) => RegisteringKeepsExact(s, run, outputs);
      case RecoverStep(batch, at, grace) => RecoveryKeepsExact(s, batch, at, grace);
      case _ =>
    }
  }

  /** At every point of every run, every segment has bounds in whole milliseconds. */
  lemma {:induction false} EveryRunStaysExact(stores: seq<Store>, steps: seq<Step>, n: nat)
    requires IsRun(stores, steps) && n <= |steps| && AllExact(stores[0])
    requires forall m :: 0 <= m < |steps| ==> WritesExact(steps[m])
    ensures AllExact(stores[n])
  {
    hide AllExact, WritesExact, Apply, Honest;
    if n > 0 {
      EveryRunStaysExact(stores, steps, n - 1);
      StepKeepsExact(stores[n - 1], steps[n - 1]);
      assert stores[n - 1 + 1] == stores[n];
    }
  }

  /** So wherever a run of the store has got to, a build that succeeds there is registered, uploaded and published,
      and queries see the same rows in fewer segments. */
  lemma EveryBuildIsPublished(stores: seq<Store>, steps: seq<Step>, n: nat, run: nat, ids: seq<nat>, claim: Claim,
                              streams: seq<seq<StreamItem>>, limits: Limits, outputs: seq<LocalOutput>,
                              segmentIds: seq<nat>, objectIds: seq<nat>, uploadedAt: int, now: int, grace: Grace)
    requires IsRun(stores, steps) && n <= |steps| && Initial(stores[0]) && AllExact(stores[0])
    requires forall m :: 0 <= m < |steps| ==> WritesExact(steps[m])
    requires Built(stores[n], run, ids, claim, streams, limits, outputs)
    requires |segmentIds| == |outputs| == |objectIds| && FreshIds(stores[n], segmentIds, objectIds)
    ensures Inv(stores[n]) && forall k :: 0 <= k < |outputs| ==> outputs[k].rows != []
    ensures var regs := Registrations(run, claim, outputs, segmentIds, objectIds);
            && RegisterTransaction(stores[n], run, regs).Success?
            && var registered := RegisterTransaction(stores[n], run, regs).value;
               var published := PublishTransaction(UploadAll(registered, segmentIds, uploadedAt), run, now, grace);
               && published.Success?
               && Inv(published.value.0) && SeesTheSame(stores[n], published.value.0)
               && |ActiveIds(published.value.0)| < |ActiveIds(stores[n])|
               && run in published.value.0.runs && published.value.0.runs[run].state == Committed(now)
  {
    hide Initial, WritesExact, Apply, Honest, FreshIds, MillisecondExact, Inv, SeesTheSame, RegisterTransaction,
      UploadAll, PublishTransaction, ActiveIds, ValidateClaim, StreamsValid, AllHold, Packed, Reads, Registrations;
    EveryRunStaysExact(stores, steps, n);
    RunFromInitialStore(stores, steps);
    CompactionCompletes(stores[n], run, ids, claim, streams, limits, outputs, segmentIds, objectIds,
                        uploadedAt, now, grace);
  }
}
