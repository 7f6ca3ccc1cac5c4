/** The metadata transactions of a compaction run: claim, register, upload, publish, fail, recover.
    Each is one atomic step of the store; a transaction that fails leaves the store as it was. */
module Lifecycle {
  import opened Basics
  import opened Segments
  import opened Metastore

  // ---------- checks ----------

  /** What every replacement must satisfy, before and after it is published. */
  ghost predicate CommonReplacement(s: Store, run: nat) {
    var inputs, outputs := Inputs(s, run), Outputs(s, run);
    && run in s.runs
    && |inputs| >= 2 && outputs != {} && |outputs| < |inputs|
    && outputs <= s.objects.Keys
    && (forall id :: id in inputs + outputs ==> s.segments[id].owner == s.runs[run].owner)
    && TotalOf(s, inputs).rows <= U64_MAX && TotalOf(s, outputs).rows <= U64_MAX
    && TotalOf(s, inputs).rows == TotalOf(s, outputs).rows
    && TotalOf(s, inputs).bounds == TotalOf(s, outputs).bounds
    && (forall id :: id in outputs ==> s.segments[id].extent.expiresAt == TotalOf(s, inputs).expiresAt)
  }

  /** The run and its bounded rows can be loaded. */
  ghost function LoadReplacement(s: Store, run: nat): Result<(), MetadataError> {
    if run !in s.runs then Failure(Conflict)
    else if |Inputs(s, run)| > MAX_INPUT_SEGMENTS || |Outputs(s, run)| > MAX_OUTPUT_SEGMENTS then Failure(Corrupt)
    else Success(())
  }

  ghost predicate InputsActive(s: Store, run: nat) {
    forall id :: id in Inputs(s, run) ==> s.segments[id].state.Active?
  }

  ghost predicate InputsSuperseded(s: Store, run: nat, at: int) {
    forall id :: id in Inputs(s, run) ==>
      var state := s.segments[id].state;
      state.Superseded? && state.retiredAt == at && state.reclaimAfter > at
  }

  ghost predicate OutputsPrepared(s: Store, run: nat) {
    forall id :: id in Outputs(s, run) ==> s.segments[id].state.Prepared?
  }

  ghost predicate OutputsActive(s: Store, run: nat, at: int) {
    forall id :: id in Outputs(s, run) ==> s.segments[id].state == Active(at)
  }

  ghost predicate OutputsAbandoned(s: Store, run: nat) {
    forall id :: id in Outputs(s, run) ==>
      var state := s.segments[id].state;
      state.Abandoned? && state.reclaimAfter > state.retiredAt
  }

  predicate Pending(state: ObjectState) {
    state.Planned? || state.Uploaded?
  }

  ghost predicate ObjectsPending(s: Store, run: nat) {
    forall id :: id in Outputs(s, run) && id in s.objects ==> Pending(s.objects[id])
  }

  ghost predicate ObjectsUploaded(s: Store, run: nat) {
    forall id :: id in Outputs(s, run) && id in s.objects ==> s.objects[id].Uploaded?
  }

  ghost predicate ObjectsPublished(s: Store, run: nat, at: int) {
    forall id :: id in Outputs(s, run) && id in s.objects ==>
      s.objects[id].Published? && s.objects[id].publishedAt == at
  }

  ghost predicate InputsOwned(s: Store, run: nat)
    requires run in s.runs
  {
    forall id :: id in Inputs(s, run) ==> s.segments[id].owner == s.runs[run].owner
  }

  ghost function ValidatePrepublication(s: Store, run: nat): Result<(), MetadataError> {
    if !CommonReplacement(s, run) then Failure(Corrupt)
    else if !InputsActive(s, run) then Failure(Conflict)
    else if !OutputsPrepared(s, run) then Failure(Conflict)
    else if !ObjectsUploaded(s, run) then Failure(Conflict)
    else Success(())
  }

  ghost function ValidateCommitted(s: Store, run: nat, completedAt: int): Result<(), MetadataError> {
    if !CommonReplacement(s, run) then Failure(Corrupt)
    else if !InputsSuperseded(s, run, completedAt) then Failure(Corrupt)
    else if !OutputsActive(s, run, completedAt) then Failure(Corrupt)
    else if !ObjectsPublished(s, run, completedAt) then Failure(Corrupt)
    else Success(())
  }

  ghost function ValidateFailureSafe(s: Store, run: nat): Result<(), MetadataError>
    requires run in s.runs
  {
    if |Inputs(s, run)| < 2
       || !InputsOwned(s, run)
       || !InputsActive(s, run)
      then Failure(Corrupt)
    else match s.runs[run].state
      case Building => if Outputs(s, run) == {} then Success(()) else Failure(Corrupt)
      case Uploading =>
        if !CommonReplacement(s, run)
           || !OutputsPrepared(s, run)
           || !ObjectsPending(s, run)
          then Failure(Corrupt)
        else Success(())
      case _ => Failure(Corrupt)
  }

  ghost function ValidateFailed(s: Store, run: nat): Result<(), MetadataError>
    requires run in s.runs
  {
    if Inputs(s, run) != {}
       || !(Outputs(s, run) <= s.objects.Keys)
       || (exists id :: id in Outputs(s, run) && s.segments[id].owner != s.runs[run].owner)
       || !OutputsAbandoned(s, run)
       || !ObjectsPending(s, run)
      then Failure(Corrupt)
    else Success(())
  }

  // ---------- claim ----------

  /** The segments are active, unclaimed, of one owner, and within what a claim may take. */
  ghost predicate Claimable(s: Store, ids: set<nat>, owner: Owner) {
    && 2 <= |ids| <= MAX_INPUT_SEGMENTS
    && ids <= s.segments.Keys
    && (forall id :: id in ids ==>
          && s.segments[id].state.Active? && s.segments[id].claimedBy == None
          && s.segments[id].owner == owner)
    && TotalOf(s, ids).rows <= I64_MAX
  }

  ghost function ClaimTransaction(s: Store, run: nat, ids: set<nat>, owner: Owner): Result<Store, MetadataError> {
    if run in s.runs || !Claimable(s, ids, owner) then Failure(Conflict)
    else
      Success(s.(
        runs := s.runs[run := Run(owner, Building)],
        segments := map id | id in s.segments ::
          if id in ids then s.segments[id].(claimedBy := Some(run)) else s.segments[id]))
  }

  // ---------- registration ----------

  datatype Registration = Registration(
    run: nat, segmentId: nat, objectId: nat, owner: Owner, extent: Extent, rows: seq<Row>)

  function OutputIds(outputs: seq<Registration>): seq<nat> {
    seq(|outputs|, k requires 0 <= k < |outputs| => outputs[k].segmentId)
  }

  ghost function RegisteredIds(outputs: seq<Registration>): set<nat> {
    IdSet(OutputIds(outputs))
  }

  function RegisteredExtents(outputs: seq<Registration>): seq<Extent> {
    seq(|outputs|, k requires 0 <= k < |outputs| => outputs[k].extent)
  }

  predicate IdentitiesOk(run: nat, outputs: seq<Registration>) {
    && (forall k :: 0 <= k < |outputs| ==> outputs[k].run == run)
    && (forall a, b :: 0 <= a < b < |outputs| ==>
          outputs[a].segmentId != outputs[b].segmentId && outputs[a].objectId != outputs[b].objectId)
  }

  /** The outputs replace inputs with the total extent `total`: same owner, rows, bounds, and the latest expiry. */
  predicate OutputSetOk(owner: Owner, total: Extent, outputs: seq<Registration>)
    requires outputs != []
  {
    && OutputsAlike(owner, total.expiresAt, outputs)
    && Total(RegisteredExtents(outputs)).rows == total.rows <= U64_MAX
    && Total(RegisteredExtents(outputs)).bounds == total.bounds
  }

  function InputExtents(inputs: seq<Segment>): seq<Extent> {
    seq(|inputs|, i requires 0 <= i < |inputs| => inputs[i].extent)
  }

  method InputTotals(owner: Owner, inputs: seq<Segment>) returns (r: Result<Extent, MetadataError>)
    requires inputs != []
    ensures r.Success? <==>
              && (forall i :: 0 <= i < |inputs| ==> inputs[i].state.Active? && inputs[i].owner == owner)
              && Total(InputExtents(inputs)).rows <= U64_MAX
    ensures r.Success? ==> r.value == Total(InputExtents(inputs))
  {
    ghost var extents := InputExtents(inputs);
    var total := inputs[0].extent;
    assert extents[..1] == [total];
    for i := 0 to |inputs|
      invariant forall k :: 0 <= k < i ==> inputs[k].state.Active? && inputs[k].owner == owner
      invariant total == if i == 0 then inputs[0].extent else Total(extents[..i])
      invariant i > 0 ==> total.rows <= U64_MAX
    {
      if !inputs[i].state.Active? || inputs[i].owner != owner {
        return Failure(Conflict);
      }
      TakeSnoc(extents, i + 1);
      total := if i == 0 then total else Combine(total, inputs[i].extent);
      if total.rows > U64_MAX {
        TotalRowsMonotone(extents, i + 1);
        return Failure(Corrupt);
      }
    }
    assert extents[..|inputs|] == extents;
    return Success(total);
  }

  predicate OutputsAlike(owner: Owner, expiresAt: int, outputs: seq<Registration>) {
    forall k :: 0 <= k < |outputs| ==> outputs[k].owner == owner && outputs[k].extent.expiresAt == expiresAt
  }

  method OutputTotals(owner: Owner, expiresAt: int, outputs: seq<Registration>)
    returns (r: Result<Extent, MetadataError>)
    requires outputs != []
    ensures r.Success? <==>
              OutputsAlike(owner, expiresAt, outputs) && Total(RegisteredExtents(outputs)).rows <= U64_MAX
    ensures r.Success? ==> r.value == Total(RegisteredExtents(outputs))
  {
    ghost var registered := RegisteredExtents(outputs);
    var replaced := outputs[0].extent;
    assert |registered| == |outputs| && forall k :: 0 <= k < |outputs| ==> registered[k] == outputs[k].extent;
    FirstTotal(registered);
    hide Total, Combine, RegisteredExtents, OutputsAlike;
    AlikeStep(owner, expiresAt, outputs, 0);
    for k := 0 to |outputs|
      invariant OutputsAlike(owner, expiresAt, outputs[..k])
      invariant replaced == if k == 0 then outputs[0].extent else Total(registered[..k])
      invariant k > 0 ==> replaced.rows <= U64_MAX
    {
      AlikeStep(owner, expiresAt, outputs, k);
      if outputs[k].owner != owner || outputs[k].extent.expiresAt != expiresAt {
        return Failure(Conflict);
      }
      if k > 0 {
        NextTotal(registered, k);
        replaced := Combine(replaced, outputs[k].extent);
      }
      if replaced.rows > U64_MAX {
        TotalRowsMonotone(registered, k + 1);
        return Failure(Corrupt);
      }
    }
    assert registered[..|outputs|] == registered && outputs[..|outputs|] == outputs;
    return Success(replaced);
  }

  lemma AlikeStep(owner: Owner, expiresAt: int, outputs: seq<Registration>, k: nat)
    requires k < |outputs|
    ensures k == 0 ==> OutputsAlike(owner, expiresAt, outputs[..k])
    ensures OutputsAlike(owner, expiresAt, outputs[..k + 1]) <==>
              && OutputsAlike(owner, expiresAt, outputs[..k])
              && outputs[k].owner == owner && outputs[k].extent.expiresAt == expiresAt
    ensures OutputsAlike(owner, expiresAt, outputs) ==>
              outputs[k].owner == owner && outputs[k].extent.expiresAt == expiresAt
  {
    TakeSnoc(outputs, k + 1);
  }

  lemma FirstTotal(extents: seq<Extent>)
    requires extents != []
    ensures Total(extents[..1]) == extents[0]
  {
  }

  lemma NextTotal(extents: seq<Extent>, k: nat)
    requires 0 < k < |extents|
    ensures Total(extents[..k + 1]) == Combine(Total(extents[..k]), extents[k])
  {
    TakeSnoc(extents, k + 1);
  }

  /** The registered outputs may replace the listed inputs. */
  predicate MayReplace(owner: Owner, inputs: seq<Segment>, outputs: seq<Registration>)
    requires outputs != []
  {
    && |inputs| >= 2 && |outputs| < |inputs|
    && (forall i :: 0 <= i < |inputs| ==> inputs[i].state.Active? && inputs[i].owner == owner)
    && OutputSetOk(owner, Total(InputExtents(inputs)), outputs)
  }

  /** The check of a registered output set against its locked inputs, by running totals. */
  method ValidateOutputSet(owner: Owner, inputs: seq<Segment>, outputs: seq<Registration>)
    returns (r: Result<(), MetadataError>)
    requires outputs != []
    ensures r.Success? <==> MayReplace(owner, inputs, outputs)
  {
    if |inputs| < 2 || |outputs| >= |inputs| {
      return Failure(Conflict);
    }
    hide Total, InputExtents, RegisteredExtents;
    var total := InputTotals(owner, inputs);
    if total.Failure? {
      return Failure(total.error);
    }
    var replaced := OutputTotals(owner, total.value.expiresAt, outputs);
    if replaced.Failure? {
      return Failure(replaced.error);
    }
    if replaced.value.rows != total.value.rows || replaced.value.bounds != total.value.bounds {
      return Failure(Conflict);
    }
    return Success(());
  }

  function NewSegment(output: Registration): Segment {
    Segment(output.owner, output.extent, Prepared, None, Some(output.run))
  }

  ghost function Registered(s: Store, run: nat, outputs: seq<Registration>): Store
    requires run in s.runs && IdentitiesOk(run, outputs)
  {
    var added := RegisteredIds(outputs);
    s.(runs := s.runs[run := s.runs[run].(state := Uploading)],
       segments := map id | id in s.segments.Keys + added ::
         if id in added then NewSegment(Named(outputs, id)) else s.segments[id],
       objects := map id | id in s.objects.Keys + added :: if id in added then Planned else s.objects[id],
       contents := map id | id in s.contents.Keys + added ::
         if id in added then Named(outputs, id).rows else s.contents[id])
  }

  ghost function Named(outputs: seq<Registration>, id: nat): Registration
    requires id in RegisteredIds(outputs)
  {
    var k :| 0 <= k < |outputs| && OutputIds(outputs)[k] == id;
    outputs[k]
  }

  /** What a retry of a registration must find already stored. */
  ghost predicate StoredOutputsMatch(s: Store, run: nat, outputs: seq<Registration>) {
    && Outputs(s, run) == RegisteredIds(outputs)
    && forall id :: id in Outputs(s, run) ==>
         && s.segments[id].state.Prepared? && s.segments[id].owner == Named(outputs, id).owner
         && s.segments[id].extent == Named(outputs, id).extent
         && id in s.objects && (s.objects[id].Planned? || s.objects[id].Uploaded?)
  }

  ghost function RegisterTransaction(s: Store, run: nat, outputs: seq<Registration>): Result<Store, MetadataError> {
    if outputs == [] || |outputs| > MAX_OUTPUT_SEGMENTS || !IdentitiesOk(run, outputs) || run !in s.runs
      then Failure(Conflict)
    else if |Inputs(s, run)| < 2 || |outputs| >= |Inputs(s, run)|
         || !InputsActive(s, run)
         || !InputsOwned(s, run)
         || !OutputSetOk(s.runs[run].owner, TotalOf(s, Inputs(s, run)), outputs)
      then Failure(Conflict)
    else match s.runs[run].state
      case Building =>
        if RegisteredIds(outputs) !! s.segments.Keys then Success(Registered(s, run, outputs)) else Failure(Conflict)
      case Uploading => if StoredOutputsMatch(s, run, outputs) then Success(s) else Failure(Conflict)
      case _ => Failure(Conflict)
  }

  // ---------- upload ----------

  /** A verified upload moves a planned object on; repeating it changes nothing. */
  ghost function UploadTransaction(s: Store, id: nat, now: int): Result<Store, MetadataError> {
    if id !in s.objects then Failure(Conflict)
    else match s.objects[id]
      case Planned => Success(s.(objects := s.objects[id := Uploaded(now)]))
      case _ => Success(s)
  }

  // ---------- publish ----------

  datatype PublicationOutcome = DidPublish | AlreadyPublished

  ghost function PublishedStore(s: Store, run: nat, now: int, grace: Grace): Store
    requires ValidatePrepublication(s, run).Success?
  {
    var inputs, outputs := Inputs(s, run), Outputs(s, run);
    s.(runs := s.runs[run := s.runs[run].(state := Committed(now))],
       segments := map id | id in s.segments ::
         if id in outputs then s.segments[id].(state := Active(now))
         else if id in inputs then
           s.segments[id].(state := Superseded(s.segments[id].state.publishedAt, now, now + grace))
         else s.segments[id],
       objects := map id | id in s.objects ::
         if id in outputs then Published(s.objects[id].uploadedAt, now) else s.objects[id])
  }

  ghost function PublishTransaction(s: Store, run: nat, now: int, grace: Grace)
    : Result<(Store, PublicationOutcome), MetadataError>
  {
    if LoadReplacement(s, run).Failure? then Failure(LoadReplacement(s, run).error)
    else match s.runs[run].state
      case Uploading =>
        if ValidatePrepublication(s, run).Failure? then Failure(ValidatePrepublication(s, run).error)
        else Success((PublishedStore(s, run, now, grace), DidPublish))
      case Committed(at) =>
        if ValidateCommitted(s, run, at).Failure? then Failure(Corrupt) else Success((s, AlreadyPublished))
      case Building => Failure(Conflict)
      case Failed(_, _) => Failure(Conflict)
  }

  // ---------- fail and recover ----------

  datatype FailureOutcome = DidFail | AlreadyFailed | AlreadyCommitted

  ghost function FailedStore(s: Store, run: nat, reason: FailureReason, now: int, grace: Grace): Store
    requires run in s.runs
  {
    var inputs, outputs := Inputs(s, run), Outputs(s, run);
    s.(runs := s.runs[run := s.runs[run].(state := Failed(reason, now))],
       segments := map id | id in s.segments ::
         if id in inputs then s.segments[id].(claimedBy := None)
         else if id in outputs then s.segments[id].(state := Abandoned(now, now + grace))
         else s.segments[id])
  }

  ghost function FailTransaction(s: Store, run: nat, reason: FailureReason, now: int, grace: Grace)
    : Result<(Store, FailureOutcome), MetadataError>
  {
    if LoadReplacement(s, run).Failure? then Failure(LoadReplacement(s, run).error)
    else match s.runs[run].state
      case Building =>
        if ValidateFailureSafe(s, run).Failure? then Failure(Corrupt)
        else Success((FailedStore(s, run, reason, now, grace), DidFail))
      case Uploading =>
        if ValidateFailureSafe(s, run).Failure? then Failure(Corrupt)
        else Success((FailedStore(s, run, reason, now, grace), DidFail))
      case Failed(_, _) => if ValidateFailed(s, run).Failure? then Failure(Corrupt) else Success((s, AlreadyFailed))
      case Committed(at) =>
        if ValidateCommitted(s, run, at).Failure? then Failure(Corrupt) else Success((s, AlreadyCommitted))
  }

  ghost function UnfinishedRuns(s: Store): set<nat> {
    set run | run in s.runs && Unfinished(s.runs[run].state)
  }

  /** The batch a recovery picks: distinct unfinished runs, as many as the limit allows. */
  ghost predicate RecoveryBatch(s: Store, batch: seq<nat>, limit: nat) {
    && (forall a, b :: 0 <= a < b < |batch| ==> batch[a] != batch[b])
    && (forall k :: 0 <= k < |batch| ==> batch[k] in UnfinishedRuns(s))
    && |batch| == Min(limit, |UnfinishedRuns(s)|)
  }

  /** Fails the runs of a batch one after the other inside one transaction. */
  ghost function RecoverTransaction(s: Store, batch: seq<nat>, now: int, grace: Grace): Result<Store, MetadataError>
    decreases |batch|
  {
    if batch == [] then Success(s)
    else
      var run := batch[0];
      if LoadReplacement(s, run).Failure? then Failure(LoadReplacement(s, run).error)
      else if !Unfinished(s.runs[run].state) || ValidateFailureSafe(s, run).Failure? then Failure(Corrupt)
      else RecoverTransaction(FailedStore(s, run, RecoveryFailed, now, grace), batch[1..], now, grace)
  }
}
