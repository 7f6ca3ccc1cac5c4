/** Whole runs of the metadata store: any interleaving of ingestion and of the transactions of any number of
    compaction runs, each committing, failing its checks or losing its commit. */
module Runs {
  import opened Basics
  import opened Segments
  import opened Metastore
  import opened Lifecycle
  import opened LifecycleSafety
  import opened PublicationSafety
  import opened RecoverySafety

  datatype Step =
    | IngestStep(id: nat, owner: Owner, extent: Extent, rows: seq<Row>, uploadedAt: int, at: int)
    | ClaimStep(run: nat, ids: set<nat>, owner: Owner)
    | RegisterStep(run: nat, outputs: seq<Registration>)
    | UploadStep(id: nat, at: int)
    | PublishStep(run: nat, at: int, grace: Grace)
    | FailStep(run: nat, reason: FailureReason, at: int, grace: Grace)
    | RecoverStep(batch: seq<nat>, at: int, grace: Grace)

  /** A published ingested segment joins the store under a new identity. */
  ghost function Ingest(s: Store, step: Step): Store
    requires step.IngestStep?
  {
    if step.id in s.segments then s
    else s.(
      segments := s.segments[step.id := Segment(step.owner, step.extent, Active(step.at), None, None)],
      objects := s.objects[step.id := Published(step.uploadedAt, step.at)],
      contents := s.contents[step.id := step.rows])
  }

  /** The store once the step's transaction has committed; a transaction that fails leaves it alone. */
  ghost function Apply(s: Store, step: Step): Store {
    match step
    case IngestStep(_, _, _, _, _, _) => Ingest(s, step)
    case ClaimStep(run, ids, owner) =>
      var r := ClaimTransaction(s, run, ids, owner); if r.Success? then r.value else s
    case RegisterStep(run, outputs) =>
      var r := RegisterTransaction(s, run, outputs); if r.Success? then r.value else s
    case UploadStep(id, at) =>
      var r := UploadTransaction(s, id, at); if r.Success? then r.value else s
    case PublishStep(run, at, grace) =>
      var r := PublishTransaction(s, run, at, grace); if r.Success? then r.value.0 else s
    case FailStep(run, reason, at, grace) =>
      var r := FailTransaction(s, run, reason, at, grace); if r.Success? then r.value.0 else s
    case RecoverStep(batch, at, grace) =>
      var r := RecoverTransaction(s, batch, at, grace); if r.Success? then r.value else s
  }

  /** Registered outputs come from a build over the claimed inputs. */
  ghost predicate Honest(s: Store, step: Step) {
    step.RegisterStep? && step.run in s.runs && s.runs[step.run].state.Building? ==>
      HoldMergedRows(s, step.run, step.outputs)
  }

  ghost function Added(s: Store, step: Step): multiset<Row> {
    if step.IngestStep? && step.id !in s.segments then multiset(step.rows) else multiset{}
  }

  /** The visible rows grow by `added` and nothing else, and no visible row is kept less long. */
  ghost predicate Conserves(s: Store, s': Store, added: multiset<Row>)
    requires Inv(s) && Inv(s')
  {
    && VisibleRows(s') == VisibleRows(s) + added
    && forall deadline :: RowsKeptUntil(s, deadline) <= RowsKeptUntil(s', deadline)
  }

  lemma SameConserves(s: Store, s': Store)
    requires Inv(s) && Inv(s') && SeesTheSame(s, s')
    ensures Conserves(s, s', multiset{})
  {
    hide Inv, VisibleRows, RowsKeptUntil;
  }

  // ---------- ingestion ----------

  lemma IngestSets(s: Store, step: Step)
    requires Inv(s) && step.IngestStep? && step.id !in s.segments
    ensures var s' := Ingest(s, step);
            && ActiveIds(s') == ActiveIds(s) + {step.id}
            && forall run :: run in s.runs ==> Inputs(s', run) == Inputs(s, run) && Outputs(s', run) == Outputs(s, run)
  {
    var s' := Ingest(s, step);
    hide Inv;
    forall id ensures id in ActiveIds(s') <==> id in ActiveIds(s) + {step.id} {}
    hide ActiveIds;
    forall run | run in s.runs ensures Inputs(s', run) == Inputs(s, run) && Outputs(s', run) == Outputs(s, run) {
      forall id ensures id in Inputs(s', run) <==> id in Inputs(s, run) {}
      forall id ensures id in Outputs(s', run) <==> id in Outputs(s, run) {}
    }
  }

  lemma IngestSegments(s: Store, step: Step)
    requires Inv(s) && step.IngestStep? && step.id !in s.segments
    ensures SegmentsOk(Ingest(s, step))
  {
    var s' := Ingest(s, step);
    hide RunsOk;
    forall id | id in s'.segments ensures SegmentOk(s', id) {
      assert id != step.id ==> SegmentOk(s, id);
    }
  }

  lemma IngestKeepsInv(s: Store, step: Step)
    requires Inv(s) && step.IngestStep?
    ensures Inv(Ingest(s, step))
  {
    hide SegmentsOk, Inputs, Outputs, ActiveIds, RunOk;
    var s' := Ingest(s, step);
    if step.id !in s.segments {
      IngestSets(s, step);
      IngestSegments(s, step);
      forall run | run in s'.runs ensures RunOk(s', run) {
        assert RunOk(s, run);
        InputsAndOutputs(s, run);
        RunOkFrame(s, s', run);
      }
    }
  }

  lemma IngestConserves(s: Store, step: Step)
    requires Inv(s) && step.IngestStep?
    ensures Inv(Ingest(s, step)) && Conserves(s, Ingest(s, step), Added(s, step))
  {
    var s' := Ingest(s, step);
    IngestKeepsInv(s, step);
    if step.id in s.segments {
      SeesItself(s);
      SameConserves(s, s);
    } else {
      IngestSets(s, step);
      ActiveHaveContents(s);
      ActiveHaveContents(s');
      assert step.id !in ActiveIds(s);
      IngestKept(s, step);
      hide Inv;
      GatherRemove(s'.contents, ActiveIds(s'), step.id);
      assert ActiveIds(s') - {step.id} == ActiveIds(s);
      GatherSame(s.contents, s'.contents, ActiveIds(s));
      forall deadline ensures RowsKeptUntil(s, deadline) <= RowsKeptUntil(s', deadline) {
        GatherSame(s.contents, s'.contents, KeptIds(s, deadline));
        GatherSubset(s'.contents, KeptIds(s, deadline), KeptIds(s', deadline));
      }
    }
  }

  lemma IngestKept(s: Store, step: Step)
    requires Inv(s) && step.IngestStep? && step.id !in s.segments
    ensures forall deadline :: KeptIds(s, deadline) <= KeptIds(Ingest(s, step), deadline)
  {
    IngestSets(s, step);
    hide Inv, Inputs, Outputs;
  }

  // ---------- one step ----------

  lemma PublishStepIsSafe(s: Store, run: nat, at: int, grace: Grace)
    requires Inv(s)
    ensures var s' := Apply(s, PublishStep(run, at, grace)); Inv(s') && SeesTheSame(s, s')
  {
    hide Inv, SeesTheSame, ValidatePrepublication, ValidateCommitted, PublishedStore;
    SeesItself(s);
    if PublishTransaction(s, run, at, grace).Success? && s.runs[run].state.Uploading? {
      PublishIsSafe(s, run, at, grace);
    }
  }

  lemma FailStepIsSafe(s: Store, run: nat, reason: FailureReason, at: int, grace: Grace)
    requires Inv(s)
    ensures var s' := Apply(s, FailStep(run, reason, at, grace)); Inv(s') && SeesTheSame(s, s')
  {
    hide Inv, SeesTheSame, ValidateFailureSafe, ValidateFailed, ValidateCommitted, FailedStore;
    SeesItself(s);
    if FailTransaction(s, run, reason, at, grace).Success? && Unfinished(s.runs[run].state) {
      FailIsSafe(s, run, reason, at, grace);
    }
  }

  lemma {:induction false} RecoverIsSafe(s: Store, batch: seq<nat>, at: int, grace: Grace)
    requires Inv(s)
    ensures var s' := Apply(s, RecoverStep(batch, at, grace)); Inv(s') && SeesTheSame(s, s')
    decreases |batch|
  {
    hide Inv, SeesTheSame, ValidateFailureSafe, FailedStore;
    SeesItself(s);
    if RecoverTransaction(s, batch, at, grace).Success? && batch != [] {
      var next := FailedStore(s, batch[0], RecoveryFailed, at, grace);
      FailIsSafe(s, batch[0], RecoveryFailed, at, grace);
      RecoverIsSafe(next, batch[1..], at, grace);
      SeesTheSameTransitive(s, next, RecoverTransaction(s, batch, at, grace).value);
    }
  }

  /** Every step keeps the invariant and conserves the visible rows. */
  lemma StepIsSafe(s: Store, step: Step)
    requires Inv(s) && Honest(s, step)
    ensures Inv(Apply(s, step)) && Conserves(s, Apply(s, step), Added(s, step))
  {
    hide Inv, SeesTheSame, Conserves, Ingest, HoldMergedRows;
    var s' := Apply(s, step);
    if step.IngestStep? {
      IngestConserves(s, step);
    } else {
      SeesItself(s);
      match step {
        case ClaimStep(run, ids, owner) =>
          hide ClaimTransaction;
          if s' != s { ClaimKeepsInv(s, run, ids, owner, s'); }
        case RegisterStep(run, outputs) =>
          assert RegisterTransaction(s, run, outputs).Success? ==> run in s.runs;
          hide RegisterTransaction;
          if s' != s { RegisterKeepsInv(s, run, outputs, s'); }
        case UploadStep(id, at) =>
          hide UploadTransaction;
          if s' != s { UploadKeepsInv(s, id, at, s'); }
        case PublishStep(run, at, grace) => PublishStepIsSafe(s, run, at, grace);
        case FailStep(run, reason, at, grace) => FailStepIsSafe(s, run, reason, at, grace);
        case RecoverStep(batch, at, grace) => RecoverIsSafe(s, batch, at, grace);
      }
      SameConserves(s, s');
    }
  }

  // ---------- whole runs ----------

  /** A run of the store: after every step it either committed or was lost with its commit. */
  ghost predicate IsRun(stores: seq<Store>, steps: seq<Step>) {
    && |stores| == |steps| + 1
    && forall n :: 0 <= n < |steps| ==>
         && Honest(stores[n], steps[n])
         && (stores[n + 1] == Apply(stores[n], steps[n]) || stores[n + 1] == stores[n])
  }

  /** The rows that the first `n` steps made visible. */
  ghost function AddedBy(stores: seq<Store>, steps: seq<Step>, n: nat): multiset<Row>
    requires n <= |steps| && |stores| == |steps| + 1
  {
    if n == 0 then multiset{}
    else AddedBy(stores, steps, n - 1) +
         if stores[n] == stores[n - 1] then multiset{} else Added(stores[n - 1], steps[n - 1])
  }

  lemma ConservesTransitive(a: Store, b: Store, c: Store, x: multiset<Row>, y: multiset<Row>)
    requires Inv(a) && Inv(b) && Inv(c) && Conserves(a, b, x) && Conserves(b, c, y)
    ensures Conserves(a, c, x + y)
  {
    hide Inv, VisibleRows, RowsKeptUntil;
    forall deadline ensures RowsKeptUntil(a, deadline) <= RowsKeptUntil(c, deadline) {
      assert RowsKeptUntil(a, deadline) <= RowsKeptUntil(b, deadline);
      assert RowsKeptUntil(b, deadline) <= RowsKeptUntil(c, deadline);
    }
  }

  /** At every point of every run a query sees exactly the rows ingested so far, each kept at least as long as
      when it was first visible, whatever compaction has done in between. */
  lemma {:induction false} EveryRunConservesRows(stores: seq<Store>, steps: seq<Step>, n: nat)
    requires IsRun(stores, steps) && Inv(stores[0]) && n <= |steps|
    ensures Inv(stores[n]) && Conserves(stores[0], stores[n], AddedBy(stores, steps, n))
  {
    hide Inv, Conserves, SeesTheSame, Apply, Honest;
    if n == 0 {
      SeesItself(stores[0]);
      SameConserves(stores[0], stores[0]);
    } else {
      EveryRunConservesRows(stores, steps, n - 1);
      var s, s' := stores[n - 1], stores[n - 1 + 1];
      assert Honest(stores[n - 1], steps[n - 1]);
      SeesItself(s);
      SameConserves(s, s);
      StepIsSafe(s, steps[n - 1]);
      ConservesTransitive(stores[0], s, s', AddedBy(stores, steps, n - 1),
                          if s' == s then multiset{} else Added(s, steps[n - 1]));
    }
  }

  lemma {:induction false} RunFromInitialStore(stores: seq<Store>, steps: seq<Step>)
    requires IsRun(stores, steps) && Initial(stores[0])
    ensures forall n :: 0 <= n < |stores| ==> Inv(stores[n])
    ensures Inv(stores[|steps|])
    ensures Conserves(stores[0], stores[|steps|], AddedBy(stores, steps, |steps|))
  {
    InitialInv(stores[0]);
    hide Inv, Conserves, Initial;
    forall n | 0 <= n < |stores| ensures Inv(stores[n]) {
      EveryRunConservesRows(stores, steps, n);
    }
    EveryRunConservesRows(stores, steps, |steps|);
  }

  // ---------- outcomes are final ----------

  predicate Terminal(state: RunState) {
    state.Committed? || state.Failed?
  }

  lemma {:induction false} RecoveryKeepsOutcomes(s: Store, batch: seq<nat>, at: int, grace: Grace, run: nat)
    requires run in s.runs && Terminal(s.runs[run].state)
    ensures var s' := Apply(s, RecoverStep(batch, at, grace)); run in s'.runs && s'.runs[run] == s.runs[run]
    decreases |batch|
  {
    hide ValidateFailureSafe;
    if RecoverTransaction(s, batch, at, grace).Success? && batch != [] {
      RecoveryKeepsOutcomes(FailedStore(s, batch[0], RecoveryFailed, at, grace), batch[1..], at, grace, run);
    }
  }

  lemma StepKeepsOutcomes(s: Store, step: Step, run: nat)
    requires run in s.runs && Terminal(s.runs[run].state)
    ensures var s' := Apply(s, step); run in s'.runs && s'.runs[run] == s.runs[run]
  {
    hide Claimable, OutputSetOk, ValidatePrepublication, ValidateCommitted, ValidateFailureSafe, ValidateFailed,
      StoredOutputsMatch, RegisteredIds, Named, Inputs, Outputs;
    if step.RecoverStep? {
      RecoveryKeepsOutcomes(s, step.batch, step.at, step.grace, run);
    }
  }

  /** A run that was committed or failed stays what it is for the rest of every run of the store. */
  lemma {:induction false} OutcomesAreFinal(stores: seq<Store>, steps: seq<Step>, m: nat, n: nat, run: nat)
    requires IsRun(stores, steps) && m <= n <= |steps|
    requires run in stores[m].runs && Terminal(stores[m].runs[run].state)
    ensures run in stores[n].runs && stores[n].runs[run] == stores[m].runs[run]
    decreases n
  {
    hide Apply, Honest;
    if m < n {
      OutcomesAreFinal(stores, steps, m, n - 1, run);
      StepKeepsOutcomes(stores[n - 1], steps[n - 1], run);
      assert stores[n - 1 + 1] == stores[n];
    }
  }

  // ---------- claims are exclusive ----------

  /** The segment is claimed by a run that has not ended. */
  ghost predicate Holds(s: Store, run: nat, id: nat) {
    && run in s.runs && Unfinished(s.runs[run].state)
    && id in s.segments && s.segments[id].claimedBy == Some(run)
  }

  lemma {:induction false} RecoveryKeepsClaims(s: Store, batch: seq<nat>, at: int, grace: Grace, run: nat, id: nat)
    requires Holds(s, run, id)
    ensures var s' := Apply(s, RecoverStep(batch, at, grace));
            run in s'.runs && (Unfinished(s'.runs[run].state) ==> Holds(s', run, id))
    decreases |batch|
  {
    hide ValidateFailureSafe, FailedStore;
    if RecoverTransaction(s, batch, at, grace).Success? && batch != [] {
      var next := FailedStore(s, batch[0], RecoveryFailed, at, grace);
      FailShape(s, batch[0], RecoveryFailed, at, grace);
      if batch[0] == run {
        RecoveryKeepsOutcomes(next, batch[1..], at, grace, run);
      } else {
        RecoveryKeepsClaims(next, batch[1..], at, grace, run, id);
      }
    }
  }

  /** No step takes a claimed segment away from a run that goes on. */
  lemma StepKeepsClaims(s: Store, step: Step, run: nat, id: nat)
    requires Inv(s) && Holds(s, run, id)
    ensures var s' := Apply(s, step); run in s'.runs && (Unfinished(s'.runs[run].state) ==> Holds(s', run, id))
  {
    hide Inv, ClaimTransaction, RegisterTransaction, PublishTransaction, FailTransaction, RecoverTransaction;
    match step
    case RecoverStep(batch, at, grace) => RecoveryKeepsClaims(s, batch, at, grace, run, id);
    case RegisterStep(r, outputs) => RegisterKeepsClaims(s, r, outputs, run, id);
    case FailStep(r, reason, at, grace) => FailKeepsClaims(s, r, reason, at, grace, run, id);
    case PublishStep(r, at, grace) => PublishKeepsClaims(s, r, at, grace, run, id);
    case ClaimStep(r, ids, owner) => ClaimKeepsClaims(s, r, ids, owner, run, id);
    case UploadStep(_, _) =>
    case IngestStep(_, _, _, _, _, _) =>
  }

  lemma ClaimKeepsClaims(s: Store, r: nat, ids: set<nat>, owner: Owner, run: nat, id: nat)
    requires Holds(s, run, id)
    ensures Holds(Apply(s, ClaimStep(r, ids, owner)), run, id)
  {
    hide TotalOf;
  }

  lemma RegisterKeepsClaims(s: Store, r: nat, outputs: seq<Registration>, run: nat, id: nat)
    requires Inv(s) && Holds(s, run, id)
    ensures Holds(Apply(s, RegisterStep(r, outputs)), run, id)
  {
    hide Inv, OutputSetOk, InputsOwned, InputsActive, Inputs, StoredOutputsMatch, Registered;
    if RegisterTransaction(s, r, outputs).Success? && s.runs[r].state.Building? {
      assert Registers(s, r, outputs);
      RegisterShape(s, r, outputs);
    }
  }

  lemma FailKeepsClaims(s: Store, r: nat, reason: FailureReason, at: int, grace: Grace, run: nat, id: nat)
    requires Holds(s, run, id)
    ensures var s' := Apply(s, FailStep(r, reason, at, grace));
            run in s'.runs && (Unfinished(s'.runs[run].state) ==> Holds(s', run, id))
  {
    hide ValidateFailureSafe, ValidateFailed, ValidateCommitted, FailedStore;
    if r in s.runs {
      FailShape(s, r, reason, at, grace);
    }
  }

  lemma PublishKeepsClaims(s: Store, r: nat, at: int, grace: Grace, run: nat, id: nat)
    requires Inv(s) && Holds(s, run, id)
    ensures var s' := Apply(s, PublishStep(r, at, grace));
            run in s'.runs && (Unfinished(s'.runs[run].state) ==> Holds(s', run, id))
  {
    hide Inv, ValidatePrepublication, ValidateCommitted, PublishedStore;
    if PublishTransaction(s, r, at, grace).Success? && s.runs[r].state.Uploading? {
      PublishShape(s, r, at, grace);
    }
  }

  /** A segment has one claim at a time, and in every run of the store it stays with the run that took it until that run
      is committed or failed. */
  lemma {:induction false} ClaimsAreExclusive(stores: seq<Store>, steps: seq<Step>, m: nat, n: nat, run: nat, id: nat)
    requires IsRun(stores, steps) && Inv(stores[0]) && m <= n <= |steps| && Holds(stores[m], run, id)
    ensures run in stores[n].runs && (Unfinished(stores[n].runs[run].state) ==> Holds(stores[n], run, id))
    decreases n
  {
    hide Apply, Honest, Inv, Conserves, Holds;
    assert run in stores[m].runs by { HoldsRun(stores[m], run, id); }
    if m < n {
      ClaimsAreExclusive(stores, steps, m, n - 1, run, id);
      EveryRunConservesRows(stores, steps, n - 1);
      var s, s' := stores[n - 1], stores[n - 1 + 1];
      if Unfinished(s.runs[run].state) {
        StepKeepsClaims(s, steps[n - 1], run, id);
      } else {
        StepKeepsOutcomes(s, steps[n - 1], run);
      }
    }
  }

  lemma HoldsRun(s: Store, run: nat, id: nat)
    requires Holds(s, run, id)
    ensures run in s.runs && Unfinished(s.runs[run].state)
  {
  }
}
