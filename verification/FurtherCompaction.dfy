/** Compacting twice. Two segments that fit together can always be compacted into one, and the result compacted again;
    after that the first publication is no longer recognised. */
module FurtherCompaction {
  import opened Basics
  import opened Segments
  import opened Metastore
  import opened Lifecycle
  import opened LifecycleSafety
  import opened PublicationSafety
  import opened RecoverySafety
  import opened Runs
  import opened Later
  import opened Commits

  /** One more step of a run of the store. */
  lemma OneMore(s: Store, s': Store, step: Step)
    requires Becomes(s, s') && Honest(s', step)
    ensures Becomes(s, Apply(s', step))
  {
    hide Honest, Apply;
    var stores, steps :| Leads(stores, steps, s, s');
    var next := Apply(s', step);
    var stores', steps' := stores + [next], steps + [step];
    forall n | 0 <= n < |steps'|
      ensures Honest(stores'[n], steps'[n])
      ensures stores'[n + 1] == Apply(stores'[n], steps'[n]) || stores'[n + 1] == stores'[n]
    {
      if n < |steps| {
        assert Honest(stores[n], steps[n]) && stores'[n + 1] == stores[n + 1];
      }
    }
    assert Leads(stores', steps', s, next);
  }

  /** Two free segments of one owner with the same times and deadline. */
  ghost predicate Pair(s: Store, a: nat, b: nat, owner: Owner, bounds: TimeBounds, expiresAt: int) {
    && a != b && Free(s, a, owner, bounds, expiresAt) && Free(s, b, owner, bounds, expiresAt)
    && s.segments[a].extent.rows + s.segments[b].extent.rows <= I64_MAX
  }

  ghost predicate Free(s: Store, id: nat, owner: Owner, bounds: TimeBounds, expiresAt: int) {
    && id in s.segments && s.segments[id].state.Active? && s.segments[id].claimedBy == None
    && s.segments[id].owner == owner
    && s.segments[id].extent.bounds == bounds && s.segments[id].extent.expiresAt == expiresAt
  }

  ghost function Both(s: Store, a: nat, b: nat): Extent
    requires a in s.segments && b in s.segments
  {
    Combine(s.segments[a].extent, s.segments[b].extent)
  }

  lemma PairTotal(s: Store, a: nat, b: nat)
    requires a != b && a in s.segments && b in s.segments
    ensures {a, b} != {} && {a, b} <= s.segments.Keys && |{a, b}| == 2
    ensures TotalOf(s, {a, b}) == Both(s, a, b)
  {
    var ids := [a, b];
    assert ids[0] == a && ids[1] == b;
    assert IdSet(ids) == {a, b};
    TotalOfList(s, ids);
    assert Extents(s, ids)[..1] == [s.segments[a].extent];
  }

  lemma JoinedRows(a: Extent, b: Extent)
    ensures Combine(a, b).rows == a.rows + b.rows
    ensures a.bounds == b.bounds && a.expiresAt == b.expiresAt ==>
              Combine(a, b).bounds == a.bounds && Combine(a, b).expiresAt == a.expiresAt
  {
  }

  lemma PairRows(s: Store, a: nat, b: nat)
    requires a != b && a in s.contents && b in s.contents
    ensures Gather(s.contents, {a, b}) == multiset(s.contents[a] + s.contents[b])
  {
    GatherRemove(s.contents, {a, b}, a);
    assert {a, b} - {a} == {b};
    GatherRemove(s.contents, {b}, b);
    assert {b} - {b} == {};
  }

  ghost function Claimed(s: Store, a: nat, b: nat, run: nat, owner: Owner): Store {
    Apply(s, ClaimStep(run, {a, b}, owner))
  }

  lemma PairClaimed(s: Store, a: nat, b: nat, run: nat, owner: Owner, bounds: TimeBounds, expiresAt: int)
    requires Inv(s) && Pair(s, a, b, owner, bounds, expiresAt) && run !in s.runs
    ensures var s' := Claimed(s, a, b, run, owner);
            && Inv(s') && s'.runs == s.runs[run := Run(owner, Building)] && Inputs(s', run) == {a, b}
            && s'.contents == s.contents && s'.segments.Keys == s.segments.Keys
            && (forall id :: id in s.segments ==>
                  s'.segments[id] == if id in {a, b} then s.segments[id].(claimedBy := Some(run)) else s.segments[id])
  {
    hide TotalOf, Combine;
    PairTotal(s, a, b);
    JoinedRows(s.segments[a].extent, s.segments[b].extent);
    assert Claimable(s, {a, b}, owner);
    var s' := Claimed(s, a, b, run, owner);
    ClaimKeepsInv(s, run, {a, b}, owner, s');
    forall id ensures id in Inputs(s', run) <==> id in {a, b} {
      assert id in s.segments ==> SegmentOk(s, id);
    }
  }

  function Merged(s: Store, a: nat, b: nat, run: nat, out: nat, owner: Owner): Registration
    requires a in s.segments && b in s.segments && a in s.contents && b in s.contents
  {
    Registration(run, out, out, owner, Combine(s.segments[a].extent, s.segments[b].extent),
                 s.contents[a] + s.contents[b])
  }

  lemma PairRegistered(s: Store, a: nat, b: nat, run: nat, out: nat, owner: Owner, bounds: TimeBounds, expiresAt: int)
    requires Inv(s) && a != b && a in s.segments && b in s.segments && out !in s.segments
    requires run in s.runs && s.runs[run] == Run(owner, Building) && Inputs(s, run) == {a, b}
    requires forall id :: id in {a, b} ==>
               s.segments[id].extent.bounds == bounds && s.segments[id].extent.expiresAt == expiresAt
    requires s.segments[a].extent.rows + s.segments[b].extent.rows <= I64_MAX
    ensures a in s.contents && b in s.contents
    ensures var reg := Merged(s, a, b, run, out, owner);
            var s' := Apply(s, RegisterStep(run, [reg]));
            && Honest(s, RegisterStep(run, [reg])) && Inv(s')
            && s'.runs == s.runs[run := Run(owner, Uploading)] && s'.segments.Keys == s.segments.Keys + {out}
            && s'.segments[out] == Segment(owner, reg.extent, Prepared, None, Some(run)) && out in s'.objects
            && (forall id :: id in s.segments ==> s'.segments[id] == s.segments[id])
  {
    hide TotalOf, Total, Inputs, InputsActive, InputsOwned, RegisteredExtents, RegisteredIds, OutputIds, OutputContents,
      Registered, SegmentsOk, RunsOk, SeesTheSame, Grows, Combine, Named, Gather, Flatten, IdentitiesOk;
    var reg := Merged(s, a, b, run, out, owner);
    var regs := [reg];
    UnfinishedInputs(s, run);
    PairTotal(s, a, b);
    PairRows(s, a, b);
    JoinedRows(s.segments[a].extent, s.segments[b].extent);
    OneRegistration(run, reg);
    assert OutputSetOk(owner, TotalOf(s, {a, b}), regs);
    assert Registers(s, run, regs);
    var s' := Registered(s, run, regs);
    assert RegisterTransaction(s, run, regs) == Success(s');
    RegisterKeepsInv(s, run, regs, s');
    RegisterShape(s, run, regs);
    StoredOne(s, run, reg);
  }

  lemma OneRegistration(run: nat, reg: Registration)
    requires reg.run == run
    ensures RegisteredExtents([reg]) == [reg.extent] && Total(RegisteredExtents([reg])) == reg.extent
    ensures IdentitiesOk(run, [reg]) && RegisteredIds([reg]) == {reg.segmentId}
    ensures Flatten(OutputContents([reg])) == reg.rows
  {
    OneExtent(reg.extent);
    assert RegisteredExtents([reg]) == [reg.extent];
    assert OutputIds([reg]) == [reg.segmentId] && OutputIds([reg])[0] == reg.segmentId;
    assert OutputContents([reg]) == [] + [reg.rows];
    FlattenSnoc([], reg.rows);
  }

  lemma StoredOne(s: Store, run: nat, reg: Registration)
    requires Registers(s, run, [reg])
    ensures reg.segmentId in Registered(s, run, [reg]).segments && reg.segmentId in Registered(s, run, [reg]).objects
    ensures Registered(s, run, [reg]).segments[reg.segmentId] == NewSegment(reg)
  {
    hide TotalOf, Inputs, InputsOwned, OutputSetOk, Named;
    NamedIs(run, [reg], 0);
  }

  lemma OneExtent(extent: Extent)
    ensures Total([extent]) == extent
  {
  }

  lemma OnlyOutput(s: Store, run: nat, out: nat)
    requires Inv(s) && out in s.segments && s.segments[out].producedBy == Some(run)
    requires forall id :: id in s.segments && id != out ==> s.segments[id].producedBy != Some(run)
    ensures Outputs(s, run) == {out}
  {
    forall id ensures id in Outputs(s, run) <==> id == out {}
  }

  /** Claims the two segments and registers what they merge into. */
  lemma PairPrepared(s: Store, a: nat, b: nat, run: nat, out: nat, owner: Owner, bounds: TimeBounds, expiresAt: int)
    returns (s': Store)
    requires Inv(s) && Pair(s, a, b, owner, bounds, expiresAt) && run !in s.runs && out !in s.segments
    ensures Becomes(s, s') && Inv(s') && s'.runs == s.runs[run := Run(owner, Uploading)]
    ensures Inputs(s', run) == {a, b} && Outputs(s', run) == {out}
    ensures s'.segments.Keys == s.segments.Keys + {out}
    ensures s'.segments[out] == Segment(owner, Both(s, a, b), Prepared, None, Some(run))
    ensures forall id :: id in s.segments ==>
              && s'.segments[id].producedBy == s.segments[id].producedBy
              && (id !in {a, b} ==> s'.segments[id] == s.segments[id])
  {
    hide Inv, Apply, Becomes, Honest, Combine, Inputs, Outputs, Claimed;
    BecomesItself(s);
    PairClaimed(s, a, b, run, owner, bounds, expiresAt);
    var s1 := Claimed(s, a, b, run, owner);
    ClaimedLater(s, a, b, run, owner);
    PairRegistered(s1, a, b, run, out, owner, bounds, expiresAt);
    var reg := Merged(s1, a, b, run, out, owner);
    s' := Apply(s1, RegisterStep(run, [reg]));
    OneMore(s, s1, RegisterStep(run, [reg]));
    NotProduced(s, run);
    OnlyOutput(s', run, out);
    SameInputs(s1, s', run);
  }

  lemma ClaimedLater(s: Store, a: nat, b: nat, run: nat, owner: Owner)
    ensures Becomes(s, Claimed(s, a, b, run, owner))
  {
    hide Apply;
    BecomesItself(s);
    PlainIsHonest(s, ClaimStep(run, {a, b}, owner));
    OneMore(s, s, ClaimStep(run, {a, b}, owner));
  }

  /** Any two such segments can be compacted into one, by four transactions. */
  lemma MergeTwo(s: Store, a: nat, b: nat, run: nat, out: nat, owner: Owner, bounds: TimeBounds, expiresAt: int)
    returns (s': Store)
    requires Inv(s) && Pair(s, a, b, owner, bounds, expiresAt) && run !in s.runs && out !in s.segments
    ensures Becomes(s, s') && Inv(s')
    ensures s'.runs == s.runs[run := Run(owner, Committed(0))] && Outputs(s', run) == {out}
    ensures s'.segments.Keys == s.segments.Keys + {out} && s'.segments[a].state.Superseded?
            && s'.segments[b].state.Superseded?
    ensures Free(s', out, owner, bounds, expiresAt) && s'.segments[out].extent == Both(s, a, b)
    ensures forall id :: id in s.segments ==> s'.segments[id].producedBy == s.segments[id].producedBy
    ensures forall id :: id in s.segments && id != a && id != b ==> s'.segments[id] == s.segments[id]
  {
    hide Inv, Becomes, Combine, Inputs, Outputs;
    var s2 := PairPrepared(s, a, b, run, out, owner, bounds, expiresAt);
    s' := Finish(s, s2, run, out);
    JoinedRows(s.segments[a].extent, s.segments[b].extent);
  }

  lemma PlainIsHonest(s: Store, step: Step)
    requires !step.RegisterStep?
    ensures Honest(s, step)
  {
  }

  lemma NotProduced(s: Store, run: nat)
    requires Inv(s) && run !in s.runs
    ensures forall id :: id in s.segments ==> s.segments[id].producedBy != Some(run)
  {
    forall id | id in s.segments ensures s.segments[id].producedBy != Some(run) {
      assert SegmentOk(s, id);
    }
  }

  lemma SameInputs(s: Store, s': Store, run: nat)
    requires s.segments.Keys <= s'.segments.Keys
    requires forall id :: id in s.segments ==> s'.segments[id] == s.segments[id]
    requires forall id :: id in s'.segments && id !in s.segments ==> s'.segments[id].claimedBy == None
    ensures Inputs(s', run) == Inputs(s, run)
  {
    forall id ensures id in Inputs(s', run) <==> id in Inputs(s, run) {}
  }

  /** Uploads the one output of a registered run and publishes it. */
  lemma Finish(s: Store, s2: Store, run: nat, out: nat) returns (s': Store)
    requires Becomes(s, s2) && Inv(s2) && run in s2.runs && s2.runs[run].state.Uploading? && Outputs(s2, run) == {out}
    ensures Becomes(s, s') && Inv(s') && out in s2.segments
    ensures s'.runs == s2.runs[run := s2.runs[run].(state := Committed(0))] && Outputs(s', run) == {out}
    ensures s'.segments.Keys == s2.segments.Keys && s'.segments[out] == s2.segments[out].(state := Active(0))
    ensures forall id :: id in s2.segments && id != out ==>
              && s'.segments[id].producedBy == s2.segments[id].producedBy
              && (id in Inputs(s2, run) ==> s'.segments[id].state.Superseded?)
              && (id !in Inputs(s2, run) ==> s'.segments[id] == s2.segments[id])
  {
    hide Inv, Becomes, Inputs, Outputs, ObjectsUploaded;
    var s3 := Apply(s2, UploadStep(out, 0));
    UploadOne(s2, run, out);
    PlainIsHonest(s2, UploadStep(out, 0));
    OneMore(s, s2, UploadStep(out, 0));
    s' := Published(s, s3, run, out);
  }

  lemma UploadOne(s: Store, run: nat, out: nat)
    requires Inv(s) && run in s.runs && s.runs[run].state.Uploading? && Outputs(s, run) == {out}
    ensures var s' := Apply(s, UploadStep(out, 0));
            && Inv(s') && Ready(s', run) && out in s.segments && s'.segments == s.segments && s'.runs == s.runs
            && Outputs(s', run) == Outputs(s, run) && Inputs(s', run) == Inputs(s, run)
  {
    hide SegmentsOk, RunsOk;
    var s' := Apply(s, UploadStep(out, 0));
    OutputsAreSegments(s, run);
    UploadingOutputs(s, run);
    assert out in Outputs(s, run);
    assert UploadTransaction(s, out, 0) == Success(s');
    UploadKeepsInv(s, out, 0, s');
  }

  lemma Published(s: Store, s3: Store, run: nat, out: nat) returns (s': Store)
    requires Becomes(s, s3) && Inv(s3) && Ready(s3, run) && Outputs(s3, run) == {out} && out in s3.segments
    ensures Becomes(s, s') && Inv(s') && out in s3.segments
    ensures s'.runs == s3.runs[run := s3.runs[run].(state := Committed(0))] && Outputs(s', run) == {out}
    ensures s'.segments.Keys == s3.segments.Keys && s'.segments[out] == s3.segments[out].(state := Active(0))
    ensures forall id :: id in s3.segments && id != out ==>
              && s'.segments[id].producedBy == s3.segments[id].producedBy
              && (id in Inputs(s3, run) ==> s'.segments[id].state.Superseded?)
              && (id !in Inputs(s3, run) ==> s'.segments[id] == s3.segments[id])
  {
    hide Inv, Becomes, ValidatePrepublication, ObjectsUploaded, OutputsStillActive, SeesTheSame, ActiveIds, Grows,
      TouchesOnly;
    var publish := PublishStep(run, 0, 1);
    PublishTransactionAnswers(s3, run, 0, 1);
    s' := PublishedStore(s3, run, 0, 1);
    assert Apply(s3, publish) == s';
    PlainIsHonest(s3, publish);
    OneMore(s, s3, publish);
    PublishKeepsInv(s3, run, 0, 1);
    PublishShape(s3, run, 0, 1);
    PublishSets(s3, run, 0, 1);
  }

  /** Whoever publishes a replacement of an output of an earlier run takes away what that run is recognised by. */
  lemma PublicationForgets(s: Store, first: nat, at: int, second: nat, id: nat, now: int, grace: Grace)
    requires Inv(s) && first in s.runs && s.runs[first].state == Committed(at) && Ready(s, second)
    requires id in Outputs(s, first) && id in Inputs(s, second)
    ensures var s' := PublishDurable(s, second, now, grace, Acknowledged);
            && Inv(s') && CompactedFurther(s', first) && InspectRun(s', first, true) == Failure(Corrupt)
            && PublishTransaction(s', first, now, grace) == Failure(Corrupt)
  {
    hide Inv, ValidatePrepublication, ObjectsUploaded, SeesTheSame, ActiveIds, PublishedStore, PublishTransaction,
      InspectRun, Inputs, Outputs, Grows;
    PublishTransactionAnswers(s, second, now, grace);
    PublishShape(s, second, now, grace);
    PublishKeepsInv(s, second, now, grace);
    PublishActive(s, second, now, grace);
    PublishSets(s, second, now, grace);
    var s' := PublishedStore(s, second, now, grace);
    OthersAreKept(s, s', second, s'.runs[second]);
    InputIsNoOutput(s, second, id);
    OutputsAreSegments(s', first);
    ActiveAreActive(s', id);
    InspectionTells(s', first);
    PublishTransactionAnswers(s', first, now, grace);
  }

  lemma InputIsNoOutput(s: Store, run: nat, id: nat)
    requires Inv(s) && id in Inputs(s, run)
    ensures id !in Outputs(s, run)
  {
    assert SegmentOk(s, id);
  }

  lemma ActiveAreActive(s: Store, id: nat)
    requires id in s.segments
    ensures id in ActiveIds(s) <==> s.segments[id].state.Active?
  {
  }

  /** A store of three ingested segments of one row each. */
  ghost function ThreeSegments(owner: Owner, row: Row): Store {
    var bounds := TimeBounds(1000 * row.eventTime, 1000 * row.eventTime, 1000 * row.ingestionTime,
                             1000 * row.ingestionTime);
    var segment := Segment(owner, Extent(1, bounds, 0), Active(0), None, None);
    Store(map[], map[0 := segment, 1 := segment, 2 := segment],
          map[0 := ObjectState.Published(0, 0), 1 := ObjectState.Published(0, 0), 2 := ObjectState.Published(0, 0)],
          map[0 := [row], 1 := [row], 2 := [row]])
  }

  /** From three ingested segments the store gets, by ordinary transactions, to where a committed run is reported as
      corrupt: its output was compacted further. */
  lemma CommittedRunIsForgotten(owner: Owner, row: Row) returns (s: Store)
    ensures Initial(ThreeSegments(owner, row)) && Becomes(ThreeSegments(owner, row), s) && Inv(s)
    ensures 0 in s.runs && s.runs[0].state == Committed(0) && ValidateCommitted(s, 0, 0).Failure?
    ensures InspectRun(s, 0, true) == Failure(Corrupt)
    ensures forall now, grace: Grace :: PublishTransaction(s, 0, now, grace) == Failure(Corrupt)
  {
    hide Inv, Becomes, ValidateCommitted, InspectRun, PublishTransaction, Outputs, Combine;
    var s0 := ThreeSegments(owner, row);
    var bounds := s0.segments[0].extent.bounds;
    InitialInv(s0);
    var s1 := MergeTwo(s0, 0, 1, 0, 3, owner, bounds, 0);
    JoinedRows(s0.segments[0].extent, s0.segments[1].extent);
    assert s1.segments[2] == s0.segments[2];
    s := MergeTwo(s1, 3, 2, 1, 4, owner, bounds, 0);
    BecomesTransitive(s0, s1, s);
    StillAnOutput(s1, s, 0, 3);
    assert !OutputsStillActive(s, 0);
    CommittedRunIsRecognised(s, 0, 0);
    InspectionTells(s, 0);
    forall now, grace: Grace ensures PublishTransaction(s, 0, now, grace) == Failure(Corrupt) {
      PublishTransactionAnswers(s, 0, now, grace);
    }
  }

  lemma StillAnOutput(s: Store, s': Store, run: nat, out: nat)
    requires out in Outputs(s, run) && out in s.segments && out in s'.segments
    requires s'.segments[out].producedBy == s.segments[out].producedBy
    ensures out in Outputs(s', run)
  {
  }

  lemma BecomesTransitive(a: Store, b: Store, c: Store)
    requires Becomes(a, b) && Becomes(b, c)
    ensures Becomes(a, c)
  {
    hide Honest, Apply;
    var stores, steps :| Leads(stores, steps, a, b);
    var stores', steps' :| Leads(stores', steps', b, c);
    var all, both := stores + stores'[1..], steps + steps';
    forall n | 0 <= n < |both|
      ensures Honest(all[n], both[n]) && (all[n + 1] == Apply(all[n], both[n]) || all[n + 1] == all[n])
    {
      if n < |steps| {
        assert Honest(stores[n], steps[n]) && all[n + 1] == stores[n + 1];
      } else {
        var m := n - |steps|;
        assert all[n] == stores'[m] && all[n + 1] == stores'[m + 1] && both[n] == steps'[m];
        assert Honest(stores'[m], steps'[m]);
      }
    }
    assert Leads(all, both, a, c);
  }
}
