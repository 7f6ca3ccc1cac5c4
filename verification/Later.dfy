/** What a store may have become by the time somebody looks at it again: any run of the store may lie in between. */
module Later {
  import opened Basics
  import opened Metastore
  import opened Lifecycle
  import opened LifecycleSafety
  import opened PublicationSafety
  import opened RecoverySafety
  import opened Runs

  ghost predicate Leads(stores: seq<Store>, steps: seq<Step>, s: Store, s': Store) {
    IsRun(stores, steps) && stores[0] == s && stores[|steps|] == s'
  }

  ghost predicate Becomes(s: Store, s': Store) {
    exists stores, steps :: Leads(stores, steps, s, s')
  }

  lemma BecomesItself(s: Store)
    ensures Becomes(s, s)
  {
    assert Leads([s], [], s, s);
  }

  /** A run that is ready to be published. */
  ghost predicate Ready(s: Store, run: nat) {
    run in s.runs && s.runs[run].state.Uploading? && ObjectsUploaded(s, run)
  }

  /** Nobody touches the outputs of the run. */
  ghost predicate OutputsKept(s: Store, s': Store, run: nat) {
    && run in s.runs && run in s'.runs && s'.runs[run] == s.runs[run]
    && Outputs(s', run) == Outputs(s, run)
    && forall id :: id in Outputs(s, run) && id in s'.objects ==>
         id in s.objects && (s.objects[id].Uploaded? ==> s'.objects[id] == s.objects[id])
  }

  lemma KeptReady(s: Store, s': Store, run: nat)
    requires Ready(s, run) && OutputsKept(s, s', run)
    ensures Ready(s', run)
  {
    hide Outputs;
  }

  lemma SameOutputs(s: Store, s': Store, run: nat)
    requires forall id :: id in s.segments ==>
               id in s'.segments && s'.segments[id].producedBy == s.segments[id].producedBy
    requires forall id :: id in s'.segments && id !in s.segments ==> s'.segments[id].producedBy != Some(run)
    ensures Outputs(s', run) == Outputs(s, run)
  {
    forall id ensures id in Outputs(s', run) <==> id in Outputs(s, run) {}
  }

  lemma RegisterKeepsReady(s: Store, r: nat, outputs: seq<Registration>, run: nat)
    requires Inv(s) && Ready(s, run)
    ensures Ready(Apply(s, RegisterStep(r, outputs)), run)
  {
    hide Inv, OutputSetOk, InputsOwned, InputsActive, Inputs, StoredOutputsMatch, Registered, RegisteredIds, Outputs,
      ObjectsUploaded;
    if RegisterTransaction(s, r, outputs).Success? && s.runs[r].state.Building? {
      assert Registers(s, r, outputs);
      var s' := Registered(s, r, outputs);
      RegisterShape(s, r, outputs);
      RegisterTouches(s, r, outputs);
      OutputsAreSegments(s, run);
      OthersAreKept(s, s', r, s'.runs[r]);
      KeptReady(s, s', run);
    }
  }

  lemma OutputsAreSegments(s: Store, run: nat)
    requires Inv(s)
    ensures Outputs(s, run) <= s.segments.Keys == s.objects.Keys
  {
  }

  lemma PublishKeepsReady(s: Store, r: nat, at: int, grace: Grace, run: nat)
    requires Inv(s) && Ready(s, run)
    ensures var s' := Apply(s, PublishStep(r, at, grace));
            run in s'.runs && (Ready(s', run) || Terminal(s'.runs[run].state))
  {
    hide Inv, ValidatePrepublication, ValidateCommitted, ObjectsUploaded, PublishedStore, Outputs, Grows, TouchesOnly;
    if PublishTransaction(s, r, at, grace).Success? && s.runs[r].state.Uploading? {
      var s' := PublishedStore(s, r, at, grace);
      PublishShape(s, r, at, grace);
      if r != run {
        OthersAreKept(s, s', r, s'.runs[r]);
        PublishObjects(s, r, at, grace, run);
        KeptReady(s, s', run);
      }
    }
  }

  lemma PublishObjects(s: Store, r: nat, at: int, grace: Grace, run: nat)
    requires Inv(s) && ValidatePrepublication(s, r).Success? && r != run
    ensures var s' := PublishedStore(s, r, at, grace);
            forall id :: id in Outputs(s, run) && id in s'.objects ==>
                id in s.objects && s'.objects[id] == s.objects[id]
  {
    hide Inv, ValidatePrepublication, Inputs;
  }

  lemma FailKeepsReady(s: Store, r: nat, reason: FailureReason, at: int, grace: Grace, run: nat)
    requires r in s.runs && Ready(s, run)
    ensures var s' := FailedStore(s, r, reason, at, grace);
            run in s'.runs && (Ready(s', run) || Terminal(s'.runs[run].state))
  {
    hide FailedStore, ObjectsUploaded, Outputs, Grows, TouchesOnly;
    var s' := FailedStore(s, r, reason, at, grace);
    FailShape(s, r, reason, at, grace);
    if r != run {
      OthersAreKept(s, s', r, s'.runs[r]);
      KeptReady(s, s', run);
    }
  }

  lemma {:induction false} RecoveryKeepsReady(s: Store, batch: seq<nat>, at: int, grace: Grace, run: nat)
    requires Ready(s, run)
    ensures var s' := Apply(s, RecoverStep(batch, at, grace));
            run in s'.runs && (Ready(s', run) || Terminal(s'.runs[run].state))
    decreases |batch|
  {
    hide ValidateFailureSafe, FailedStore, ObjectsUploaded;
    if RecoverTransaction(s, batch, at, grace).Success? && batch != [] {
      var next := FailedStore(s, batch[0], RecoveryFailed, at, grace);
      FailKeepsReady(s, batch[0], RecoveryFailed, at, grace, run);
      if Ready(next, run) {
        RecoveryKeepsReady(next, batch[1..], at, grace, run);
      } else {
        RecoveryKeepsOutcomes(next, batch[1..], at, grace, run);
      }
    }
  }

  lemma PlainKeepsReady(s: Store, step: Step, run: nat)
    requires Inv(s) && Ready(s, run) && (step.IngestStep? || step.ClaimStep? || step.UploadStep?)
    ensures Ready(Apply(s, step), run)
  {
    hide Inv, Claimable, RegisterTransaction, PublishTransaction, FailTransaction, RecoverTransaction;
    var s' := Apply(s, step);
    OutputsAreSegments(s, run);
    SameOutputs(s, s', run);
    KeptReady(s, s', run);
  }

  /** A ready run stays ready until somebody publishes or fails it. */
  lemma StepKeepsReady(s: Store, step: Step, run: nat)
    requires Inv(s) && Ready(s, run)
    ensures var s' := Apply(s, step); run in s'.runs && (Ready(s', run) || Terminal(s'.runs[run].state))
  {
    hide Inv, Ready, ClaimTransaction, RegisterTransaction, PublishTransaction, UploadTransaction, RecoverTransaction,
      ValidateFailureSafe, ValidateFailed, ValidateCommitted, FailedStore, Ingest;
    ReadyRun(s, run);
    match step
    case RecoverStep(batch, at, grace) => RecoveryKeepsReady(s, batch, at, grace, run);
    case RegisterStep(r, outputs) =>
      RegisterKeepsReady(s, r, outputs, run);
      ReadyRun(Apply(s, step), run);
    case FailStep(r, reason, at, grace) =>
      if r in s.runs {
        FailKeepsReady(s, r, reason, at, grace, run);
      }
    case PublishStep(r, at, grace) => PublishKeepsReady(s, r, at, grace, run);
    case _ =>
      PlainKeepsReady(s, step, run);
      ReadyRun(Apply(s, step), run);
  }

  lemma ReadyRun(s: Store, run: nat)
    requires Ready(s, run)
    ensures run in s.runs && s.runs[run].state.Uploading?
  {
  }

  lemma {:induction false} ReadyUntilFinished(stores: seq<Store>, steps: seq<Step>, n: nat, run: nat)
    requires IsRun(stores, steps) && Inv(stores[0]) && n <= |steps| && Ready(stores[0], run)
    ensures run in stores[n].runs && (Ready(stores[n], run) || Terminal(stores[n].runs[run].state))
  {
    hide Apply, Honest, Inv, Conserves, Ready;
    ReadyRun(stores[0], run);
    if n > 0 {
      ReadyUntilFinished(stores, steps, n - 1, run);
      EveryRunConservesRows(stores, steps, n - 1);
      var s, s' := stores[n - 1], stores[n - 1 + 1];
      if Ready(s, run) {
        StepKeepsReady(s, steps[n - 1], run);
      } else {
        StepKeepsOutcomes(s, steps[n - 1], run);
      }
    }
  }

  lemma {:induction false} RecoveryKeepsRuns(s: Store, batch: seq<nat>, at: int, grace: Grace)
    ensures s.runs.Keys <= Apply(s, RecoverStep(batch, at, grace)).runs.Keys
    decreases |batch|
  {
    hide ValidateFailureSafe, Inputs, Outputs;
    if RecoverTransaction(s, batch, at, grace).Success? && batch != [] {
      RecoveryKeepsRuns(FailedStore(s, batch[0], RecoveryFailed, at, grace), batch[1..], at, grace);
    }
  }

  lemma StepKeepsRuns(s: Store, step: Step)
    ensures s.runs.Keys <= Apply(s, step).runs.Keys
  {
    hide Claimable, OutputSetOk, ValidatePrepublication, ValidateCommitted, ValidateFailureSafe, ValidateFailed,
      StoredOutputsMatch, RegisteredIds, Named, Inputs, Outputs, RecoverTransaction;
    if step.RecoverStep? {
      RecoveryKeepsRuns(s, step.batch, step.at, step.grace);
    }
  }

  lemma {:induction false} RunsStay(stores: seq<Store>, steps: seq<Step>, n: nat)
    requires IsRun(stores, steps) && n <= |steps|
    ensures stores[0].runs.Keys <= stores[n].runs.Keys
  {
    hide Apply, Honest;
    if n > 0 {
      RunsStay(stores, steps, n - 1);
      StepKeepsRuns(stores[n - 1], steps[n - 1]);
      assert stores[n - 1 + 1] == stores[n];
    }
  }

  /** However much later: the invariant holds, finished runs are what they were, ready runs are ready or finished. */
  lemma LaterStore(s: Store, s': Store)
    requires Inv(s) && Becomes(s, s')
    ensures Inv(s') && s.runs.Keys <= s'.runs.Keys
    ensures forall run :: run in s.runs && Terminal(s.runs[run].state) ==> run in s'.runs && s'.runs[run] == s.runs[run]
    ensures forall run :: Ready(s, run) ==> run in s'.runs && (Ready(s', run) || Terminal(s'.runs[run].state))
  {
    hide Inv, IsRun, Ready, Conserves;
    var stores, steps :| Leads(stores, steps, s, s');
    EveryRunConservesRows(stores, steps, |steps|);
    RunsStay(stores, steps, |steps|);
    forall run | run in s.runs && Terminal(s.runs[run].state) ensures run in s'.runs && s'.runs[run] == s.runs[run] {
      OutcomesAreFinal(stores, steps, 0, |steps|, run);
    }
    forall run | Ready(s, run) ensures run in s'.runs && (Ready(s', run) || Terminal(s'.runs[run].state)) {
      ReadyUntilFinished(stores, steps, |steps|, run);
    }
  }
}
