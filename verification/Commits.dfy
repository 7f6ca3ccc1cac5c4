/** Transactions whose commit may be lost. The owner then inspects the durable run over a second connection and
    answers from what it finds. Between the commit and the inspection any other transactions may take effect, of this
    run as well. */
module Commits {
  import opened Basics
  import opened Metastore
  import opened Lifecycle
  import opened LifecycleSafety
  import opened PublicationSafety
  import opened RecoverySafety
  import opened Later

  /** What became of a commit: acknowledged, or its answer lost after or before it took effect. */
  datatype Fate = Acknowledged | LostApplied | LostUnapplied

  ghost function Durable(before: Store, after: Store, fate: Fate): Store {
    if fate.LostUnapplied? then before else after
  }

  datatype Inspected = RunBuilding | RunUploading | RunCommitted | RunFailed

  /** `reachable` says whether the inspection could talk to the database at all. */
  ghost function InspectRun(s: Store, run: nat, reachable: bool): Result<Inspected, MetadataError> {
    if !reachable then Failure(Unavailable)
    else if LoadReplacement(s, run).Failure? then Failure(LoadReplacement(s, run).error)
    else match s.runs[run].state
      case Building => Success(RunBuilding)
      case Uploading => Success(RunUploading)
      case Committed(at) =>
        if ValidateCommitted(s, run, at).Failure? then Failure(Corrupt) else Success(RunCommitted)
      case Failed(_, _) => if ValidateFailed(s, run).Failure? then Failure(Corrupt) else Success(RunFailed)
  }

  /** The inspection tells the state of the run, unless a committed replacement was compacted further. */
  lemma InspectionTells(s: Store, run: nat)
    requires Inv(s) && run in s.runs
    ensures InspectRun(s, run, true) ==
            match s.runs[run].state
            case Building => Success(RunBuilding)
            case Uploading => Success(RunUploading)
            case Committed(_) => if OutputsStillActive(s, run) then Success(RunCommitted) else Failure(Corrupt)
            case Failed(_, _) => Success(RunFailed)
  {
    assert RunOk(s, run);
    hide Inv, ValidateCommitted, ValidateFailed, OutputsStillActive;
    match s.runs[run].state
    case Committed(at) => CommittedRunIsRecognised(s, run, at);
    case Failed(_, _) => FailedRunIsClean(s, run);
    case _ =>
  }

  lemma NoInspection(s: Store, run: nat)
    ensures InspectRun(s, run, false) == Failure(Unavailable)
  {
    hide ValidateCommitted, ValidateFailed;
  }

  // ---------- publish ----------

  /** The store once the commit of a publication has its fate. */
  ghost function PublishDurable(s: Store, run: nat, now: int, grace: Grace, fate: Fate): Store {
    var transaction := PublishTransaction(s, run, now, grace);
    if transaction.Failure? then s else Durable(s, transaction.value.0, fate)
  }

  /** The answer to a publication, given the store that an inspection would see. */
  ghost function PublishReplacement(s: Store, run: nat, now: int, grace: Grace, fate: Fate, seen: Store,
                                    reachable: bool)
    : Result<PublicationOutcome, MetadataError>
  {
    var transaction := PublishTransaction(s, run, now, grace);
    if transaction.Failure? then Failure(transaction.error)
    else if fate.Acknowledged? then Success(transaction.value.1)
    else match InspectRun(seen, run, reachable)
      case Success(RunCommitted) => Success(AlreadyPublished)
      case Success(RunFailed) => Failure(Conflict)
      case Success(_) => Failure(WriteError)
      case Failure(_) => Failure(AmbiguousCommit)
  }

  /** Publishing answers in every state a run can be in. */
  lemma PublishTransactionAnswers(s: Store, run: nat, now: int, grace: Grace)
    requires Inv(s)
    ensures var answer := PublishTransaction(s, run, now, grace);
            if run !in s.runs then answer == Failure(Conflict)
            else match s.runs[run].state
              case Building => answer == Failure(Conflict)
              case Failed(_, _) => answer == Failure(Conflict)
              case Uploading =>
                if ObjectsUploaded(s, run) then
                  && ValidatePrepublication(s, run).Success?
                  && answer == Success((PublishedStore(s, run, now, grace), DidPublish))
                else answer == Failure(Conflict)
              case Committed(_) =>
                answer == if OutputsStillActive(s, run) then Success((s, AlreadyPublished)) else Failure(Corrupt)
  {
    if run in s.runs {
      assert RunOk(s, run);
      match s.runs[run].state
      case Uploading =>
        UnfinishedInputs(s, run);
        UploadingOutputs(s, run);
        hide Inv, CommonReplacement, ObjectsUploaded, InputsActive, OutputsPrepared, PublishedStore;
      case Committed(at) =>
        CommittedRunIsRecognised(s, run, at);
      case _ =>
    }
  }

  /** A publication that took effect is recognised at once. */
  lemma PublishedIsRecognised(s: Store, run: nat, now: int, grace: Grace)
    requires Inv(s) && run in s.runs && s.runs[run].state.Uploading? && ValidatePrepublication(s, run).Success?
    ensures var s' := PublishedStore(s, run, now, grace);
            && Inv(s') && run in s'.runs && s'.runs[run].state == Committed(now) && OutputsStillActive(s', run)
  {
    var s' := PublishedStore(s, run, now, grace);
    PublishKeepsInv(s, run, now, grace);
    PublishShape(s, run, now, grace);
    PublishSets(s, run, now, grace);
    PublishActive(s, run, now, grace);
    hide PublishedStore, Inv, ValidatePrepublication;
    forall id | id in Outputs(s', run) ensures s'.segments[id].state.Active? {
      assert id in ActiveIds(s');
    }
  }

  /** The replacement is published and none of its outputs has been compacted further. */
  ghost predicate IsPublished(s: Store, run: nat) {
    run in s.runs && s.runs[run].state.Committed? && OutputsStillActive(s, run)
  }

  ghost predicate CompactedFurther(s: Store, run: nat) {
    run in s.runs && s.runs[run].state.Committed? && !OutputsStillActive(s, run)
  }

  /** What a publication leaves behind at once. */
  lemma PublicationTakesEffect(s: Store, run: nat, now: int, grace: Grace, fate: Fate)
    requires Inv(s)
    ensures var durable := PublishDurable(s, run, now, grace, fate);
            && Inv(durable) && SeesTheSame(s, durable)
            && (!Ready(s, run) ==> durable == s)
            && (Ready(s, run) && !fate.LostUnapplied? ==>
                  && |ActiveIds(durable)| < |ActiveIds(s)| && IsPublished(durable, run)
                  && durable.runs[run].state == Committed(now))
            && (fate.LostUnapplied? ==> durable == s)
  {
    hide Inv, SeesTheSame, OutputsStillActive, ActiveIds, PublishedStore, ValidatePrepublication, ObjectsUploaded,
      PublishTransaction;
    SeesItself(s);
    PublishTransactionAnswers(s, run, now, grace);
    if Ready(s, run) {
      PublishIsSafe(s, run, now, grace);
      PublishedIsRecognised(s, run, now, grace);
    }
  }

  /** Whatever happens to the commit and whatever other transactions come before the inspection, the answer tells the
      truth: success means that the replacement is published, an error other than an ambiguous one that this publication
      changed nothing, a write error that the run is still unfinished, and only an unreachable database or a replacement
      that was compacted further leaves it open. */
  lemma PublicationAnswersTruthfully(
      s: Store, run: nat, now: int, grace: Grace, fate: Fate, seen: Store, reachable: bool)
    requires Inv(s) && Becomes(PublishDurable(s, run, now, grace, fate), seen)
    ensures var durable := PublishDurable(s, run, now, grace, fate);
            var answer := PublishReplacement(s, run, now, grace, fate, seen, reachable);
            && Inv(durable) && SeesTheSame(s, durable) && Inv(seen)
            && (answer == Success(DidPublish) ==>
                  fate.Acknowledged? && IsPublished(durable, run) && |ActiveIds(durable)| < |ActiveIds(s)|)
            && (answer == Success(AlreadyPublished) ==> IsPublished(if fate.Acknowledged? then durable else seen, run))
            && (answer.Failure? && answer.error != AmbiguousCommit ==> durable == s)
            && (answer == Failure(WriteError) ==>
                  fate.LostUnapplied? && Ready(s, run) && run in seen.runs && Unfinished(seen.runs[run].state))
            && (answer == Failure(AmbiguousCommit) ==>
                !fate.Acknowledged? && (!reachable || CompactedFurther(seen, run)))
  {
    hide Inv, SeesTheSame, OutputsStillActive, ActiveIds, Becomes, PublishTransaction, InspectRun, PublishDurable,
      Ready, PublishedStore, ValidatePrepublication, ObjectsUploaded;
    var durable := PublishDurable(s, run, now, grace, fate);
    PublicationTakesEffect(s, run, now, grace, fate);
    PublishTransactionAnswers(s, run, now, grace);
    ReadyIs(s, run);
    LaterStore(durable, seen);
    if run in seen.runs {
      InspectionTells(seen, run);
    }
    NoInspection(seen, run);
  }

  /** The answer to publishing a run that is ready: what was done when the commit is acknowledged, and otherwise what
      the inspection finds. */
  lemma PublicationAnswerIs(s: Store, run: nat, now: int, grace: Grace, fate: Fate, seen: Store, reachable: bool)
    requires Inv(s) && Ready(s, run) && Inv(seen) && run in seen.runs
    ensures PublishReplacement(s, run, now, grace, fate, seen, reachable) ==
            if fate.Acknowledged? then Success(DidPublish)
            else if !reachable then Failure(AmbiguousCommit)
            else match seen.runs[run].state
              case Committed(_) =>
                if OutputsStillActive(seen, run) then Success(AlreadyPublished) else Failure(AmbiguousCommit)
              case Failed(_, _) => Failure(Conflict)
              case Building => Failure(WriteError)
              case Uploading => Failure(WriteError)
  {
    hide Inv, OutputsStillActive, PublishTransaction, InspectRun, PublishedStore, ValidatePrepublication;
    PublishTransactionAnswers(s, run, now, grace);
    InspectionTells(seen, run);
    NoInspection(seen, run);
  }

  lemma ReadyIs(s: Store, run: nat)
    ensures Ready(s, run) <==> run in s.runs && s.runs[run].state.Uploading? && ObjectsUploaded(s, run)
  {
  }

  /** Retrying settles the matter, whatever came in between: after a publication of a ready run, however its commit
      ended, an acknowledged retry publishes the run if it is still unfinished, recognises it while none of its outputs
      has been compacted further, and refuses it only if somebody failed it. */
  lemma RetriedPublicationSettles(s: Store, run: nat, now: int, later: int, grace: Grace, fate: Fate, seen: Store)
    requires Inv(s) && Ready(s, run) && Becomes(PublishDurable(s, run, now, grace, fate), seen)
    ensures var answer := PublishReplacement(seen, run, later, grace, Acknowledged, seen, true);
            var final := PublishDurable(seen, run, later, grace, Acknowledged);
            && run in seen.runs && Inv(seen) && Inv(final) && SeesTheSame(seen, final)
            && match seen.runs[run].state
               case Building => false
               case Uploading => fate.LostUnapplied? && answer == Success(DidPublish) && IsPublished(final, run)
               case Committed(at) =>
                 && (fate.LostUnapplied? || at == now) && final == seen
                 && answer == if OutputsStillActive(seen, run) then Success(AlreadyPublished) else Failure(Corrupt)
               case Failed(_, _) => fate.LostUnapplied? && final == seen && answer == Failure(Conflict)
    ensures seen == PublishDurable(s, run, now, grace, fate) ==>
              PublishReplacement(seen, run, later, grace, Acknowledged, seen, true).Success?
  {
    hide Inv, SeesTheSame, OutputsStillActive, ActiveIds, Becomes, PublishTransaction, InspectRun, PublishDurable,
      Ready, PublishedStore, ValidatePrepublication, ObjectsUploaded;
    PublicationTakesEffect(s, run, now, grace, fate);
    LaterStore(PublishDurable(s, run, now, grace, fate), seen);
    ReadyIs(s, run);
    ReadyIs(seen, run);
    PublicationTakesEffect(seen, run, later, grace, Acknowledged);
    PublishTransactionAnswers(seen, run, later, grace);
  }

  // ---------- fail ----------

  ghost function FailDurable(s: Store, run: nat, reason: FailureReason, now: int, grace: Grace, fate: Fate): Store {
    var transaction := FailTransaction(s, run, reason, now, grace);
    if transaction.Failure? then s else Durable(s, transaction.value.0, fate)
  }

  ghost function FailRun(
      s: Store, run: nat, reason: FailureReason, now: int, grace: Grace, fate: Fate, seen: Store, reachable: bool)
    : Result<FailureOutcome, MetadataError>
  {
    var transaction := FailTransaction(s, run, reason, now, grace);
    if transaction.Failure? then Failure(transaction.error)
    else if fate.Acknowledged? then Success(transaction.value.1)
    else match InspectRun(seen, run, reachable)
      case Success(RunCommitted) => Success(AlreadyCommitted)
      case Success(RunFailed) => Success(AlreadyFailed)
      case Success(_) => Failure(WriteError)
      case Failure(_) => Failure(AmbiguousCommit)
  }

  /** An answer to a failure request names the durable outcome of the run. */
  ghost predicate NamesOutcome(s: Store, run: nat, outcome: FailureOutcome) {
    && run in s.runs
    && match outcome
       case DidFail => s.runs[run].state.Failed? && Inputs(s, run) == {}
       case AlreadyFailed => s.runs[run].state.Failed? && Inputs(s, run) == {}
       case AlreadyCommitted => s.runs[run].state.Committed?
  }

  lemma FailedState(s: Store, run: nat, reason: FailureReason, now: int, grace: Grace)
    requires run in s.runs
    ensures var s' := FailedStore(s, run, reason, now, grace);
            run in s'.runs && s'.runs[run].state == Failed(reason, now)
  {
  }

  lemma FailureTakesEffect(s: Store, run: nat, reason: FailureReason, now: int, grace: Grace, fate: Fate)
    requires Inv(s)
    ensures var durable := FailDurable(s, run, reason, now, grace, fate);
            && Inv(durable) && SeesTheSame(s, durable)
            && (run in s.runs && Unfinished(s.runs[run].state) && !fate.LostUnapplied? ==>
                  run in durable.runs && durable.runs[run].state == Failed(reason, now))
            && (fate.LostUnapplied? || run !in s.runs || !Unfinished(s.runs[run].state) ==> durable == s)
  {
    hide Inv, SeesTheSame, FailedStore, Inputs, Outputs, OutputsAbandoned, UnfinishedRuns, FailTransaction,
      OutputsStillActive;
    SeesItself(s);
    FailTransactionAnswers(s, run, reason, now, grace);
    if run in s.runs && Unfinished(s.runs[run].state) {
      FailIsSafe(s, run, reason, now, grace);
      FailedState(s, run, reason, now, grace);
    }
  }

  /** Whatever comes before the inspection: an answer names the outcome the run really has, a committed run is never
      undone, an error means that this request changed nothing, and only an unreachable database or a replacement that
      was compacted further leaves the outcome open. */
  lemma FailureAnswersTruthfully(
      s: Store, run: nat, reason: FailureReason, now: int, grace: Grace, fate: Fate, seen: Store, reachable: bool)
    requires Inv(s) && Becomes(FailDurable(s, run, reason, now, grace, fate), seen)
    ensures var durable := FailDurable(s, run, reason, now, grace, fate);
            var answer := FailRun(s, run, reason, now, grace, fate, seen, reachable);
            && Inv(durable) && SeesTheSame(s, durable) && Inv(seen)
            && (answer.Success? ==> NamesOutcome(if fate.Acknowledged? then durable else seen, run, answer.value))
            && (answer == Success(DidFail) ==> fate.Acknowledged?)
            && (answer.Failure? && answer.error != AmbiguousCommit ==> durable == s)
            && (answer == Failure(WriteError) ==> run in seen.runs && Unfinished(seen.runs[run].state))
            && (answer == Failure(AmbiguousCommit) ==>
                !fate.Acknowledged? && (!reachable || CompactedFurther(seen, run)))
            && (run in s.runs && !Unfinished(s.runs[run].state) ==> durable == s)
  {
    hide Inv, SeesTheSame, OutputsStillActive, Becomes, FailTransaction, InspectRun, FailDurable, FailedStore, Inputs,
      Ready;
    var durable := FailDurable(s, run, reason, now, grace, fate);
    FailureTakesEffect(s, run, reason, now, grace, fate);
    FailTransactionAnswers(s, run, reason, now, grace);
    LaterStore(durable, seen);
    if run in durable.runs && durable.runs[run].state.Failed? {
      FailedRunHasNothing(durable, run);
    }
    if run in seen.runs {
      InspectionTells(seen, run);
      if seen.runs[run].state.Failed? {
        FailedRunHasNothing(seen, run);
      }
    }
    NoInspection(seen, run);
  }

  /** The answer to failing an unfinished run: what was done when the commit is acknowledged, and otherwise what the
      inspection finds. */
  lemma FailureAnswerIs(
      s: Store, run: nat, reason: FailureReason, now: int, grace: Grace, fate: Fate, seen: Store, reachable: bool)
    requires Inv(s) && run in s.runs && Unfinished(s.runs[run].state) && Inv(seen) && run in seen.runs
    ensures FailRun(s, run, reason, now, grace, fate, seen, reachable) ==
            if fate.Acknowledged? then Success(DidFail)
            else if !reachable then Failure(AmbiguousCommit)
            else match seen.runs[run].state
              case Committed(_) =>
                if OutputsStillActive(seen, run) then Success(AlreadyCommitted) else Failure(AmbiguousCommit)
              case Failed(_, _) => Success(AlreadyFailed)
              case Building => Failure(WriteError)
              case Uploading => Failure(WriteError)
  {
    hide Inv, OutputsStillActive, FailTransaction, InspectRun, FailedStore;
    FailTransactionAnswers(s, run, reason, now, grace);
    InspectionTells(seen, run);
    NoInspection(seen, run);
  }

  // ---------- recover ----------

  /** Whether the intended failures are durable. */
  ghost function InspectRecovery(s: Store, batch: seq<nat>, reachable: bool): Result<bool, MetadataError> {
    if !reachable then Failure(Unavailable)
    else if batch == [] then Success(UnfinishedRuns(s) == {})
    else Success(forall k :: 0 <= k < |batch| ==>
           batch[k] in s.runs && s.runs[batch[k]].state.Failed? && s.runs[batch[k]].state.reason == RecoveryFailed)
  }

  ghost function RecoverDurable(s: Store, batch: seq<nat>, now: int, grace: Grace, fate: Fate): Store {
    var transaction := RecoverTransaction(s, batch, now, grace);
    if transaction.Failure? then s else Durable(s, transaction.value, fate)
  }

  ghost function RecoverUnfinished(
      s: Store, batch: seq<nat>, now: int, grace: Grace, fate: Fate, seen: Store, reachable: bool)
    : Result<seq<nat>, MetadataError>
  {
    var transaction := RecoverTransaction(s, batch, now, grace);
    if transaction.Failure? then Failure(transaction.error)
    else if fate.Acknowledged? then Success(batch)
    else match InspectRecovery(seen, batch, reachable)
      case Success(true) => Success(batch)
      case Success(false) => Failure(WriteError)
      case Failure(_) => Failure(AmbiguousCommit)
  }

  lemma {:induction false} RecoveryKeepsFailures(s: Store, batch: seq<nat>, now: int, grace: Grace, s': Store, run: nat)
    requires RecoverTransaction(s, batch, now, grace) == Success(s')
    requires run in s.runs && s.runs[run].state == Failed(RecoveryFailed, now)
    ensures run in s'.runs && s'.runs[run].state == Failed(RecoveryFailed, now)
    decreases |batch|
  {
    hide ValidateFailureSafe;
    if batch != [] {
      RecoveryKeepsFailures(FailedStore(s, batch[0], RecoveryFailed, now, grace), batch[1..], now, grace, s', run);
    }
  }

  lemma {:induction false} RecoveryFailsTheBatch(s: Store, batch: seq<nat>, now: int, grace: Grace, s': Store)
    requires RecoverTransaction(s, batch, now, grace) == Success(s')
    ensures forall k :: 0 <= k < |batch| ==>
              batch[k] in s'.runs && s'.runs[batch[k]].state == Failed(RecoveryFailed, now)
    decreases |batch|
  {
    hide ValidateFailureSafe;
    if batch != [] {
      var next := FailedStore(s, batch[0], RecoveryFailed, now, grace);
      RecoveryFailsTheBatch(next, batch[1..], now, grace, s');
      RecoveryKeepsFailures(next, batch[1..], now, grace, s', batch[0]);
      forall k | 0 <= k < |batch|
        ensures batch[k] in s'.runs && s'.runs[batch[k]].state == Failed(RecoveryFailed, now)
      {
        assert k > 0 ==> batch[k] == batch[1..][k - 1];
      }
    }
  }

  /** The run was failed by a recovery, and nothing it had is left half done. */
  ghost predicate FailedByRecovery(s: Store, run: nat) {
    && run in s.runs && s.runs[run].state.Failed? && s.runs[run].state.reason == RecoveryFailed
    && Inputs(s, run) == {} && OutputsAbandoned(s, run)
  }

  lemma FailedRunHasNothing(s: Store, run: nat)
    requires Inv(s) && run in s.runs && s.runs[run].state.Failed?
    ensures Inputs(s, run) == {} && OutputsAbandoned(s, run)
  {
    FailedRunIsClean(s, run);
  }

  ghost predicate AllFailedByRecovery(s: Store, batch: seq<nat>) {
    forall k :: 0 <= k < |batch| ==> FailedByRecovery(s, batch[k])
  }

  /** What a recovery leaves behind at once. */
  lemma RecoveryTakesEffect(s: Store, batch: seq<nat>, limit: nat, now: int, grace: Grace, fate: Fate)
    requires Inv(s) && RecoveryBatch(s, batch, limit)
    ensures var durable := RecoverDurable(s, batch, now, grace, fate);
            && Inv(durable) && SeesTheSame(s, durable) && RecoverTransaction(s, batch, now, grace).Success?
            && (if fate.LostUnapplied? then durable == s
                else
                  && UnfinishedRuns(durable) == UnfinishedRuns(s) - IdSet(batch)
                  && AllFailedByRecovery(durable, batch)
                  && forall run :: run in IdSet(batch) ==> CleanedUp(s, durable, run))
            && (batch == [] ==> durable == s)
  {
    hide Inv, SeesTheSame, RecoverTransaction, Clean, UnfinishedRuns, CleanedUp, LetsAllGo, Inputs, Outputs,
      OutputsAbandoned;
    BatchIds(s, batch, limit);
    SeesItself(s);
    var after := RecoverySucceeds(s, batch, now, grace);
    RecoveryFailsTheBatch(s, batch, now, grace, after);
    EmptyRecovery(s, now, grace);
    forall k | 0 <= k < |batch| ensures FailedByRecovery(after, batch[k]) {
      FailedRunHasNothing(after, batch[k]);
    }
  }

  lemma EmptyRecovery(s: Store, now: int, grace: Grace)
    ensures RecoverTransaction(s, [], now, grace) == Success(s)
  {
  }

  /** A recovery reports its batch only if the batch is failed and cleaned up, by it or by somebody else in between; a
      plain error means that it changed nothing, only an unreachable database leaves it open, and an empty report means
      that the store it looked at is clean. Asked with a batch it may pick, it never refuses. */
  lemma RecoveryAnswersTruthfully(
      s: Store, batch: seq<nat>, limit: nat, now: int, grace: Grace, fate: Fate, seen: Store, reachable: bool)
    requires Inv(s) && limit > 0 && RecoveryBatch(s, batch, limit)
    requires Becomes(RecoverDurable(s, batch, now, grace, fate), seen)
    ensures var durable := RecoverDurable(s, batch, now, grace, fate);
            var answer := RecoverUnfinished(s, batch, now, grace, fate, seen, reachable);
            var told := if fate.Acknowledged? then durable else seen;
            && Inv(durable) && SeesTheSame(s, durable) && Inv(seen)
            && (!fate.LostUnapplied? ==>
                  && UnfinishedRuns(durable) == UnfinishedRuns(s) - IdSet(batch)
                  && forall run :: run in IdSet(batch) ==> CleanedUp(s, durable, run))
            && (answer.Success? ==> answer.value == batch && AllFailedByRecovery(told, batch))
            && (answer == Failure(WriteError) ==> durable == s)
            && (answer == Failure(AmbiguousCommit) ==> !fate.Acknowledged? && !reachable)
            && (answer.Success? || answer == Failure(WriteError) || answer == Failure(AmbiguousCommit))
            && (answer == Success([]) ==> Clean(told))
            && (fate.Acknowledged? ==> answer == Success(batch))
            && (!fate.Acknowledged? && !reachable ==> answer == Failure(AmbiguousCommit))
            && (!fate.Acknowledged? && reachable && batch != [] ==>
                  answer ==
                  if forall k :: 0 <= k < |batch| ==>
                       && batch[k] in seen.runs && seen.runs[batch[k]].state.Failed?
                       && seen.runs[batch[k]].state.reason == RecoveryFailed
                  then Success(batch) else Failure(WriteError))
  {
    hide Inv, SeesTheSame, RecoverTransaction, Clean, UnfinishedRuns, CleanedUp, Becomes, RecoverDurable, IdSet, Ready,
      Inputs, Outputs, OutputsAbandoned, RecoveryBatch;
    var durable := RecoverDurable(s, batch, now, grace, fate);
    RecoveryTakesEffect(s, batch, limit, now, grace, fate);
    LaterStore(durable, seen);
    forall k | 0 <= k < |batch| && batch[k] in seen.runs && seen.runs[batch[k]].state.Failed?
      ensures Inputs(seen, batch[k]) == {} && OutputsAbandoned(seen, batch[k])
    {
      FailedRunHasNothing(seen, batch[k]);
    }
    if batch == [] {
      NothingToRecover(s, limit);
      NothingUnfinishedIsClean(s);
      if UnfinishedRuns(seen) == {} {
        NothingUnfinishedIsClean(seen);
      }
    }
  }

  lemma NothingToRecover(s: Store, limit: nat)
    requires limit > 0 && RecoveryBatch(s, [], limit)
    ensures UnfinishedRuns(s) == {}
  {
    hide UnfinishedRuns;
  }
}
