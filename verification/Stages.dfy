/** No stage of a compaction rejects what the stage before it produced: a successful build passes registration
    and, once uploaded, publication. */
module Stages {
  import opened Basics
  import opened StableOrder
  import opened Segments
  import opened Packing
  import opened Cursor
  import opened Claims
  import opened Worker
  import opened MergeTheorem
  import opened Metastore
  import opened Lifecycle
  import opened LifecycleSafety
  import opened PublicationSafety
  import opened RecoverySafety
  import opened Commits
  import opened Later

  // ---------- totals of exact extents ----------

  /** The extents count and bound the parts, to the millisecond. */
  ghost predicate Measures(extents: seq<Extent>, parts: seq<seq<Row>>) {
    && |extents| == |parts|
    && forall k :: 0 <= k < |parts| ==>
         extents[k].rows == |parts[k]| && Tight(InMilliseconds(extents[k].bounds), parts[k])
  }

  lemma JoinTruncates(a: TimeBounds, b: TimeBounds)
    ensures InMilliseconds(Join(a, b)) == Join(InMilliseconds(a), InMilliseconds(b))
  {
  }

  /** The total of such extents counts and bounds all the rows. */
  lemma {:induction false} TotalMeasures(extents: seq<Extent>, parts: seq<seq<Row>>)
    requires extents != [] && Measures(extents, parts)
    ensures Total(extents).rows == |Flatten(parts)|
    ensures Tight(InMilliseconds(Total(extents).bounds), Flatten(parts))
    decreases |extents|
  {
    hide Tight, InMilliseconds, Join;
    var n := |parts| - 1;
    TakeSnoc(parts, n + 1);
    assert parts == parts[..n] + [parts[n]];
    FlattenSnoc(parts[..n], parts[n]);
    if n == 0 {
      assert parts[..n] == [] && Flatten(parts[..n]) == [];
      assert Flatten(parts) == parts[0];
    } else {
      TotalMeasures(extents[..n], parts[..n]);
      JoinTruncates(Total(extents[..n]).bounds, extents[n].bounds);
      TightJoin(InMilliseconds(Total(extents[..n]).bounds), Flatten(parts[..n]), InMilliseconds(extents[n].bounds),
                parts[n]);
    }
  }

  // ---------- a claim of stored segments ----------

  /** The claim describes the inputs of a building run, listed as `ids`. */
  ghost predicate Describes(s: Store, run: nat, ids: seq<nat>, claim: Claim) {
    && run in s.runs && s.runs[run] == Run(Owner(claim.sourceId, claim.schemaId, claim.eventDay), Building)
    && NoDuplicates(ids) && IdSet(ids) == Inputs(s, run) && |ids| == |claim.inputs|
    && forall i :: 0 <= i < |ids| ==>
         var d := claim.inputs[i].descriptor;
         && ids[i] in s.segments
         && ValidDescriptor(d)
         && s.segments[ids[i]].extent == Extent(d.rowCount, d.times.bounds, claim.inputs[i].expiresAt)
  }

  /** The streams read what the inputs' objects hold. */
  ghost predicate Reads(s: Store, ids: seq<nat>, streams: seq<seq<StreamItem>>) {
    && |streams| == |ids|
    && forall i :: 0 <= i < |ids| ==> ids[i] in s.contents && StreamRows(streams[i]) == s.contents[ids[i]]
  }

  /** The registrations of a build's outputs under new identities. */
  function Registrations(run: nat, claim: Claim, outputs: seq<LocalOutput>, segmentIds: seq<nat>, objectIds: seq<nat>)
    : seq<Registration>
    requires |segmentIds| == |outputs| == |objectIds|
    requires forall k :: 0 <= k < |outputs| ==> outputs[k].rows != []
  {
    seq(|outputs|, k requires 0 <= k < |outputs| =>
      Registration(run, segmentIds[k], objectIds[k], Owner(claim.sourceId, claim.schemaId, claim.eventDay),
                   Extent(|outputs[k].rows|, InMicroseconds(outputs[k].bounds), claim.expiresAt), outputs[k].rows))
  }

  predicate FreshIds(s: Store, segmentIds: seq<nat>, objectIds: seq<nat>) {
    && NoDuplicates(segmentIds) && NoDuplicates(objectIds)
    && forall k :: 0 <= k < |segmentIds| ==> segmentIds[k] !in s.segments
  }

  /** A claim of stored inputs, its streams and the outputs a successful build made of them. */
  ghost predicate Built(s: Store, run: nat, ids: seq<nat>, claim: Claim, streams: seq<seq<StreamItem>>,
                        limits: Limits, outputs: seq<LocalOutput>) {
    && BuildLimits(limits) && ValidateClaim(claim, limits).Success?
    && Describes(s, run, ids, claim) && Reads(s, ids, streams)
    && StreamsValid(claim, streams)
    && AllHold(outputs, Packed(claim, streams, limits), claim.eventDay)
    && 0 < |outputs| < |claim.inputs|
  }

  lemma InputsMeasured(s: Store, run: nat, ids: seq<nat>, claim: Claim, streams: seq<seq<StreamItem>>)
    requires Describes(s, run, ids, claim) && Reads(s, ids, streams) && StreamsValid(claim, streams)
    ensures Measures(Extents(s, ids), StreamedRows(streams))
  {
    forall i | 0 <= i < |ids|
      ensures Extents(s, ids)[i].rows == |StreamRows(streams[i])|
      ensures Tight(InMilliseconds(Extents(s, ids)[i].bounds), StreamRows(streams[i]))
    {
      assert StreamValid(claim.inputs[i].descriptor, streams[i], claim.eventDay);
      BoundsOfTight(StreamRows(streams[i]));
    }
  }

  lemma OutputsHaveRows(outputs: seq<LocalOutput>, packed: seq<seq<Item>>, day: int)
    requires AllHold(outputs, packed, day)
    ensures forall k :: 0 <= k < |outputs| ==> outputs[k].rows != [] && Tight(outputs[k].bounds, outputs[k].rows)
  {
    forall k | 0 <= k < |outputs| ensures outputs[k].rows != [] && Tight(outputs[k].bounds, outputs[k].rows) {
      assert Holds(outputs[k], packed[k], day);
      BoundsOfTight(outputs[k].rows);
    }
  }

  lemma WholeMilliseconds(bounds: TimeBounds)
    ensures InMilliseconds(InMicroseconds(bounds)) == bounds && MillisecondExact(InMicroseconds(bounds))
  {
  }

  lemma OutputsMeasured(run: nat, claim: Claim, outputs: seq<LocalOutput>, segmentIds: seq<nat>, objectIds: seq<nat>)
    requires |segmentIds| == |outputs| == |objectIds|
    requires forall k :: 0 <= k < |outputs| ==> outputs[k].rows != [] && Tight(outputs[k].bounds, outputs[k].rows)
    ensures Measures(RegisteredExtents(Registrations(run, claim, outputs, segmentIds, objectIds)), OutputRows(outputs))
  {
    hide Tight;
    forall k | 0 <= k < |outputs| {
      WholeMilliseconds(outputs[k].bounds);
    }
    hide InMilliseconds, InMicroseconds, MillisecondExact;
  }

  /** Totals of whole-millisecond extents are whole milliseconds. */
  lemma {:induction false} TotalExact(extents: seq<Extent>)
    requires extents != [] && forall k :: 0 <= k < |extents| ==> MillisecondExact(extents[k].bounds)
    ensures MillisecondExact(Total(extents).bounds)
  {
    if |extents| > 1 {
      TotalExact(extents[..|extents| - 1]);
    }
  }

  lemma {:induction false} TotalLatest(s: Store, ids: seq<nat>, inputs: seq<InputSegment>)
    requires ids != [] && |ids| == |inputs| && forall i :: 0 <= i < |ids| ==> ids[i] in s.segments
    requires forall i :: 0 <= i < |ids| ==> s.segments[ids[i]].extent.expiresAt == inputs[i].expiresAt
    ensures Total(Extents(s, ids)).expiresAt == LatestExpiry(inputs)
  {
    var n := |ids| - 1;
    if n > 0 {
      TotalLatest(s, ids[..n], inputs[..n]);
      assert Extents(s, ids)[..n] == Extents(s, ids[..n]);
    }
  }

  /** What the outputs add up to, beside what the inputs add up to. */
  lemma TotalsAgree(s: Store, run: nat, ids: seq<nat>, claim: Claim, streams: seq<seq<StreamItem>>,
                    limits: Limits, outputs: seq<LocalOutput>, segmentIds: seq<nat>, objectIds: seq<nat>)
    requires Built(s, run, ids, claim, streams, limits, outputs) && |segmentIds| == |outputs| == |objectIds|
    ensures forall k :: 0 <= k < |outputs| ==> outputs[k].rows != []
    ensures var regs := Registrations(run, claim, outputs, segmentIds, objectIds);
            var input, output := Total(Extents(s, ids)), Total(RegisteredExtents(regs));
            && output.rows == input.rows && input.expiresAt == claim.expiresAt
            && (output.bounds == input.bounds <==> MillisecondExact(input.bounds))
  {
    var packed := Packed(claim, streams, limits);
    OutputsHaveRows(outputs, packed, claim.eventDay);
    OutputsMeasured(run, claim, outputs, segmentIds, objectIds);
    InputsMeasured(s, run, ids, claim, streams);
    OutputsAreTheStableMerge(claim, streams, limits, outputs);
    TotalLatest(s, ids, claim.inputs);
    var input := Extents(s, ids);
    var regs := Registrations(run, claim, outputs, segmentIds, objectIds);
    var output := RegisteredExtents(regs);
    forall k | 0 <= k < |output| ensures MillisecondExact(output[k].bounds) {
      WholeMilliseconds(outputs[k].bounds);
    }
    hide Built, Describes, Reads, StreamsValid, AllHold, Packed, Registrations, RegisteredExtents, Extents, Tight,
      Measures, OutputRows, StreamedRows, StableSort, Sorted, InMilliseconds, InMicroseconds, ValidateClaim,
      BuildLimits;
    TotalMeasures(input, StreamedRows(streams));
    TotalMeasures(output, OutputRows(outputs));
    TotalExact(output);
    SameRowsSameBounds(Total(input).bounds, Total(output).bounds, Flatten(StreamedRows(streams)),
                       Flatten(OutputRows(outputs)));
  }

  lemma SameRowsSameBounds(a: TimeBounds, b: TimeBounds, rows: seq<Row>, permuted: seq<Row>)
    requires Tight(InMilliseconds(a), rows) && Tight(InMilliseconds(b), permuted)
    requires multiset(rows) == multiset(permuted) && MillisecondExact(b)
    ensures |rows| == |permuted| && (a == b <==> MillisecondExact(a))
  {
    TightUnique(InMilliseconds(a), InMilliseconds(b), rows, permuted);
    assert |rows| == |multiset(rows)| && |permuted| == |multiset(permuted)|;
    hide Tight;
  }

  // ---------- registration ----------

  lemma RegistrationIds(s: Store, run: nat, claim: Claim, outputs: seq<LocalOutput>, segmentIds: seq<nat>,
                        objectIds: seq<nat>)
    requires |segmentIds| == |outputs| == |objectIds| && FreshIds(s, segmentIds, objectIds)
    requires forall k :: 0 <= k < |outputs| ==> outputs[k].rows != []
    ensures var regs := Registrations(run, claim, outputs, segmentIds, objectIds);
            && |regs| == |outputs| && IdentitiesOk(run, regs) && RegisteredIds(regs) !! s.segments.Keys
            && OutputsAlike(Owner(claim.sourceId, claim.schemaId, claim.eventDay), claim.expiresAt, regs)
            && OutputContents(regs) == OutputRows(outputs) && OutputIds(regs) == segmentIds
  {
    var regs := Registrations(run, claim, outputs, segmentIds, objectIds);
    assert OutputIds(regs) == segmentIds;
  }

  lemma BuildHoldsMergedRows(s: Store, run: nat, ids: seq<nat>, claim: Claim, streams: seq<seq<StreamItem>>,
                             limits: Limits, outputs: seq<LocalOutput>, segmentIds: seq<nat>, objectIds: seq<nat>)
    requires Built(s, run, ids, claim, streams, limits, outputs)
    requires |segmentIds| == |outputs| == |objectIds| && FreshIds(s, segmentIds, objectIds)
    ensures forall k :: 0 <= k < |outputs| ==> outputs[k].rows != []
    ensures HoldMergedRows(s, run, Registrations(run, claim, outputs, segmentIds, objectIds))
  {
    OutputsHaveRows(outputs, Packed(claim, streams, limits), claim.eventDay);
    RegistrationIds(s, run, claim, outputs, segmentIds, objectIds);
    OutputsAreTheStableMerge(claim, streams, limits, outputs);
    assert seq(|ids|, k requires 0 <= k < |ids| => s.contents[ids[k]]) == StreamedRows(streams);
    hide AllHold, Packed, Registrations, StreamsValid, ValidateClaim, ValidDescriptor, Gather, StableSort, Sorted;
    GatherList(s.contents, ids);
  }

  /** Registration accepts what a successful build produced exactly when the inputs' bounds are whole milliseconds:
      the outputs' bounds are, and nothing else can differ. */
  lemma BuildPassesRegistration(s: Store, run: nat, ids: seq<nat>, claim: Claim, streams: seq<seq<StreamItem>>,
                                limits: Limits, outputs: seq<LocalOutput>, segmentIds: seq<nat>, objectIds: seq<nat>)
    requires Inv(s) && Built(s, run, ids, claim, streams, limits, outputs)
    requires |segmentIds| == |outputs| == |objectIds| && FreshIds(s, segmentIds, objectIds)
    ensures forall k :: 0 <= k < |outputs| ==> outputs[k].rows != []
    ensures Inputs(s, run) != {} && Inputs(s, run) <= s.segments.Keys
    ensures RegisterTransaction(s, run, Registrations(run, claim, outputs, segmentIds, objectIds)).Success? <==>
            MillisecondExact(TotalOf(s, Inputs(s, run)).bounds)
  {
    hide Built, Inv, Registrations, FreshIds, RegisteredExtents, RegisteredIds, IdentitiesOk, OutputsAlike, Total,
      TotalOf, Inputs, InputsActive, InputsOwned, MillisecondExact, Registered, RegisterTransaction, OutputSetOk;
    TotalsAgree(s, run, ids, claim, streams, limits, outputs, segmentIds, objectIds);
    RegistrationIds(s, run, claim, outputs, segmentIds, objectIds);
    var regs := Registrations(run, claim, outputs, segmentIds, objectIds);
    BuiltRun(s, run, ids, claim, streams, limits, outputs);
    AcceptsWhenTotalsAgree(s, run, regs);
  }

  lemma AcceptsWhenTotalsAgree(s: Store, run: nat, regs: seq<Registration>)
    requires run in s.runs && s.runs[run].state.Building? && InputsActive(s, run) && InputsOwned(s, run)
    requires 0 < |regs| < |Inputs(s, run)| && |regs| <= MAX_OUTPUT_SEGMENTS && Inputs(s, run) <= s.segments.Keys
    requires IdentitiesOk(run, regs) && RegisteredIds(regs) !! s.segments.Keys
    requires TotalOf(s, Inputs(s, run)).rows <= U64_MAX
    requires OutputsAlike(s.runs[run].owner, TotalOf(s, Inputs(s, run)).expiresAt, regs)
    requires Total(RegisteredExtents(regs)).rows == TotalOf(s, Inputs(s, run)).rows
    ensures RegisterTransaction(s, run, regs).Success? <==>
            Total(RegisteredExtents(regs)).bounds == TotalOf(s, Inputs(s, run)).bounds
  {
    hide RegisteredExtents, RegisteredIds, IdentitiesOk, OutputsAlike, Total, TotalOf, Inputs, InputsActive,
      InputsOwned, Registered;
  }

  /** What a build says about its run in the store. */
  lemma BuiltRun(s: Store, run: nat, ids: seq<nat>, claim: Claim, streams: seq<seq<StreamItem>>,
                 limits: Limits, outputs: seq<LocalOutput>)
    requires Inv(s) && Built(s, run, ids, claim, streams, limits, outputs)
    ensures run in s.runs && s.runs[run] == Run(Owner(claim.sourceId, claim.schemaId, claim.eventDay), Building)
    ensures InputsActive(s, run) && InputsOwned(s, run)
    ensures Inputs(s, run) != {} && Inputs(s, run) <= s.segments.Keys
    ensures ids != [] && forall i :: 0 <= i < |ids| ==> ids[i] in s.segments
    ensures TotalOf(s, Inputs(s, run)) == Total(Extents(s, ids)) && TotalOf(s, Inputs(s, run)).rows <= U64_MAX
    ensures 0 < |outputs| < |Inputs(s, run)| && |outputs| <= MAX_OUTPUT_SEGMENTS
  {
    UnfinishedInputs(s, run);
    assert RunOk(s, run);
    BuiltRows(s, run, ids, claim, streams);
    CountIds(ids);
    hide Inv, AllHold, Packed, StreamsValid, InputsActive, InputsOwned, Reads, Total;
    TotalOfList(s, ids);
  }

  lemma BuiltRows(s: Store, run: nat, ids: seq<nat>, claim: Claim, streams: seq<seq<StreamItem>>)
    requires Describes(s, run, ids, claim) && ids != [] && Fits64(TotalsOf(claim.inputs))
    ensures Total(Extents(s, ids)).rows <= U64_MAX
  {
    TotalsOfExtents(s, ids, claim.inputs);
  }

  lemma {:induction false} TotalsOfExtents(s: Store, ids: seq<nat>, inputs: seq<InputSegment>)
    requires ids != [] && |ids| == |inputs|
    requires forall i :: 0 <= i < |ids| ==>
               ids[i] in s.segments && s.segments[ids[i]].extent.rows == inputs[i].descriptor.rowCount
    ensures Total(Extents(s, ids)).rows == TotalsOf(inputs).rows
  {
    var n := |ids| - 1;
    if n > 0 {
      TotalsOfExtents(s, ids[..n], inputs[..n]);
      assert Extents(s, ids)[..n] == Extents(s, ids[..n]);
    } else {
      assert inputs[..0] == [];
    }
  }

  // ---------- upload and publication ----------

  /** Uploading objects one after the other. */
  ghost function UploadAll(s: Store, ids: seq<nat>, now: int): Store
    decreases |ids|
  {
    if ids == [] then s
    else
      var before := UploadAll(s, ids[..|ids| - 1], now);
      var r := UploadTransaction(before, ids[|ids| - 1], now);
      if r.Success? then r.value else before
  }

  lemma {:induction false} UploadAllShape(s: Store, ids: seq<nat>, now: int)
    requires Inv(s)
    ensures var s' := UploadAll(s, ids, now);
            && Inv(s') && SeesTheSame(s, s') && s'.runs == s.runs && s'.segments == s.segments
            && s'.objects.Keys == s.objects.Keys
            && forall id :: id in s.objects ==>
                 s'.objects[id] == if id in ids && s.objects[id].Planned? then Uploaded(now) else s.objects[id]
    decreases |ids|
  {
    hide Inv, SeesTheSame;
    SeesItself(s);
    if ids != [] {
      var init, last := ids[..|ids| - 1], ids[|ids| - 1];
      assert ids == init + [last];
      UploadAllShape(s, init, now);
      var before := UploadAll(s, init, now);
      var r := UploadTransaction(before, last, now);
      if r.Success? {
        UploadKeepsInv(before, last, now, r.value);
        SeesTheSameTransitive(s, before, r.value);
      }
    }
  }

  lemma UploadAllReady(s: Store, run: nat, ids: seq<nat>, uploadedAt: int)
    requires Inv(s) && run in s.runs && s.runs[run].state.Uploading?
    requires forall id :: id in Outputs(s, run) ==> id in ids
    ensures var uploaded := UploadAll(s, ids, uploadedAt);
            && Inv(uploaded) && SeesTheSame(s, uploaded) && Ready(uploaded, run) && ActiveIds(uploaded) == ActiveIds(s)
            && run in uploaded.runs && uploaded.runs[run].state.Uploading? && ObjectsUploaded(uploaded, run)
  {
    hide Inv, SeesTheSame;
    var uploaded := UploadAll(s, ids, uploadedAt);
    UploadAllShape(s, ids, uploadedAt);
    hide UploadAll;
    UploadingOutputs(s, run);
    SameLinksSameSets(s, uploaded, run);
    ActiveAreKept(s, uploaded);
    hide ActiveIds;
    forall id | id in Outputs(uploaded, run) && id in uploaded.objects ensures uploaded.objects[id].Uploaded? {
      assert id in ids && Pending(s.objects[id]);
    }
  }

  /** Once every output of a registered run is uploaded, publication goes through. */
  lemma UploadedRunPublishes(s: Store, run: nat, ids: seq<nat>, uploadedAt: int, now: int, grace: Grace)
    requires Inv(s) && run in s.runs && s.runs[run].state.Uploading?
    requires forall id :: id in Outputs(s, run) ==> id in ids
    ensures var uploaded := UploadAll(s, ids, uploadedAt);
            && Inv(uploaded) && Ready(uploaded, run)
            && PublishTransaction(uploaded, run, now, grace).Success?
            && var published := PublishTransaction(uploaded, run, now, grace).value.0;
               && Inv(published) && SeesTheSame(s, published)
               && |ActiveIds(published)| < |ActiveIds(s)|
               && run in published.runs && published.runs[run].state == Committed(now)
  {
    hide Inv, SeesTheSame, ActiveIds, Outputs, UploadAll, PublishTransaction, ObjectsUploaded, PublishedStore,
      ValidatePrepublication, Ready;
    var uploaded := UploadAll(s, ids, uploadedAt);
    UploadAllReady(s, run, ids, uploadedAt);
    PublishTransactionAnswers(uploaded, run, now, grace);
    PublishIsSafe(uploaded, run, now, grace);
    PublishedIsRecognised(uploaded, run, now, grace);
    SeesTheSameTransitive(s, uploaded, PublishedStore(uploaded, run, now, grace));
  }

  /** A whole compaction, from a successful build on: registration, uploads and publication all succeed, and
      queries see the same rows in fewer segments. */
  lemma CompactionCompletes(s: Store, run: nat, ids: seq<nat>, claim: Claim, streams: seq<seq<StreamItem>>,
                            limits: Limits, outputs: seq<LocalOutput>, segmentIds: seq<nat>, objectIds: seq<nat>,
                            uploadedAt: int, now: int, grace: Grace)
    requires Inv(s) && Built(s, run, ids, claim, streams, limits, outputs)
    requires |segmentIds| == |outputs| == |objectIds| && FreshIds(s, segmentIds, objectIds)
    requires forall i :: 0 <= i < |ids| ==> ids[i] in s.segments && MillisecondExact(s.segments[ids[i]].extent.bounds)
    ensures forall k :: 0 <= k < |outputs| ==> outputs[k].rows != []
    ensures var regs := Registrations(run, claim, outputs, segmentIds, objectIds);
            && RegisterTransaction(s, run, regs).Success?
            && var registered := RegisterTransaction(s, run, regs).value;
               var published := PublishTransaction(UploadAll(registered, segmentIds, uploadedAt), run, now, grace);
               && published.Success?
               && Inv(published.value.0) && SeesTheSame(s, published.value.0)
               && |ActiveIds(published.value.0)| < |ActiveIds(s)|
               && run in published.value.0.runs && published.value.0.runs[run].state == Committed(now)
  {
    hide Built, FreshIds, MillisecondExact, Registrations, TotalOf, Total, Inv, SeesTheSame, HoldMergedRows, Inputs,
      Outputs, RegisterTransaction, UploadAll, PublishTransaction, ActiveIds, InputsActive, InputsOwned;
    BuildPassesRegistration(s, run, ids, claim, streams, limits, outputs, segmentIds, objectIds);
    BuildHoldsMergedRows(s, run, ids, claim, streams, limits, outputs, segmentIds, objectIds);
    BuiltRun(s, run, ids, claim, streams, limits, outputs);
    TotalExact(Extents(s, ids));
    var regs := Registrations(run, claim, outputs, segmentIds, objectIds);
    var registered := RegisterTransaction(s, run, regs).value;
    RegistrationIds(s, run, claim, outputs, segmentIds, objectIds);
    RegisteredRun(s, run, regs, registered, segmentIds);
    RegisterKeepsInv(s, run, regs, registered);
    UploadedRunPublishes(registered, run, segmentIds, uploadedAt, now, grace);
    SeesTheSameTransitive(s, registered,
                          PublishTransaction(UploadAll(registered, segmentIds, uploadedAt), run, now, grace).value.0);
  }

  lemma RegisteredRun(s: Store, run: nat, regs: seq<Registration>, s': Store, segmentIds: seq<nat>)
    requires Inv(s) && run in s.runs && s.runs[run].state.Building? && RegisterTransaction(s, run, regs) == Success(s')
    requires OutputIds(regs) == segmentIds
    ensures run in s'.runs && s'.runs[run].state.Uploading?
    ensures forall id :: id in Outputs(s', run) ==> id in segmentIds
    ensures ActiveIds(s') == ActiveIds(s)
  {
    assert Registers(s, run, regs);
    RegisterSets(s, run, regs);
    RegisterShape(s, run, regs);
    hide Inv, Registers, OthersKept, Grows, Outputs, Inputs, ActiveIds;
  }
}
