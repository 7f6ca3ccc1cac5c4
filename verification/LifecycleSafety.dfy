/** What every compaction transaction keeps: the invariant of the metadata store and, with it, the rows
    a query can see. */
module LifecycleSafety {
  import opened Basics
  import opened Segments
  import opened Metastore
  import opened Lifecycle

  // ---------- the invariant ----------

  predicate ClaimOk(segment: Segment, run: Run) {
    && run.owner == segment.owner
    && ((segment.state.Active? && Unfinished(run.state)) ||
        (segment.state.Superseded? && run.state.Committed? &&
         segment.state.retiredAt == run.state.completedAt && segment.state.reclaimAfter > run.state.completedAt))
  }

  predicate ProductOk(segment: Segment, run: Run) {
    && run.owner == segment.owner
    && match run.state
       case Building => false
       case Uploading => segment.state.Prepared?
       case Committed(at) =>
         (segment.state.Active? || segment.state.Superseded?) && segment.state.publishedAt == at
       case Failed(_, at) =>
         segment.state.Abandoned? && segment.state.retiredAt == at && segment.state.reclaimAfter > at
  }

  predicate ObjectOk(segment: Segment, stored: ObjectState) {
    match segment.state
    case Prepared => Pending(stored)
    case Abandoned(_, _) => Pending(stored)
    case Active(at) => stored.Published? && stored.publishedAt == at
    case Superseded(at, _, _) => stored.Published? && stored.publishedAt == at
  }

  /** A segment agrees with its object and with the runs that claim and produced it. */
  predicate LinksOk(runs: map<nat, Run>, segment: Segment, stored: ObjectState) {
    && ObjectOk(segment, stored)
    && (segment.claimedBy.Some? ==>
          segment.claimedBy.value in runs && ClaimOk(segment, runs[segment.claimedBy.value]))
    && (segment.producedBy.Some? ==>
          segment.producedBy.value in runs && ProductOk(segment, runs[segment.producedBy.value]))
    && (segment.producedBy.None? ==> segment.state.Active? || segment.state.Superseded?)
    && (segment.state.Superseded? ==> segment.claimedBy.Some?)
    && (segment.claimedBy.Some? && segment.producedBy.Some? ==> segment.claimedBy != segment.producedBy)
  }

  predicate SegmentOk(s: Store, id: nat)
    requires id in s.segments
  {
    id in s.contents && id in s.objects && LinksOk(s.runs, s.segments[id], s.objects[id])
  }

  /** The outputs of a run hold the rows of its inputs. */
  ghost predicate Replaces(s: Store, run: nat) {
    && CommonReplacement(s, run)
    && Inputs(s, run) <= s.contents.Keys && Outputs(s, run) <= s.contents.Keys
    && Gather(s.contents, Inputs(s, run)) == Gather(s.contents, Outputs(s, run))
  }

  ghost predicate RunOk(s: Store, run: nat)
    requires run in s.runs
  {
    && |Inputs(s, run)| <= MAX_INPUT_SEGMENTS
    && |Outputs(s, run)| <= MAX_OUTPUT_SEGMENTS
    && (Unfinished(s.runs[run].state) ==> |Inputs(s, run)| >= 2)
    && (s.runs[run].state.Uploading? || s.runs[run].state.Committed? ==> Replaces(s, run))
  }

  ghost predicate SegmentsOk(s: Store) {
    forall id :: id in s.segments ==> SegmentOk(s, id)
  }

  ghost predicate RunsOk(s: Store) {
    forall run :: run in s.runs ==> RunOk(s, run)
  }

  ghost predicate Inv(s: Store) {
    && s.contents.Keys == s.segments.Keys && s.objects.Keys == s.segments.Keys
    && SegmentsOk(s) && RunsOk(s)
  }

  /** A store before any compaction: published, unclaimed ingested segments. */
  ghost predicate Initial(s: Store) {
    && s.runs == map[] && s.contents.Keys == s.segments.Keys && s.objects.Keys == s.segments.Keys
    && forall id :: id in s.segments ==>
         && s.segments[id].state.Active? && s.segments[id].claimedBy == None && s.segments[id].producedBy == None
         && id in s.contents && id in s.objects && ObjectOk(s.segments[id], s.objects[id])
  }

  lemma InitialInv(s: Store)
    requires Initial(s)
    ensures Inv(s)
  {
  }

  // ---------- what a query sees ----------

  /** The active segments kept at least until `deadline`. */
  ghost function KeptIds(s: Store, deadline: int): set<nat> {
    set id | id in ActiveIds(s) && s.segments[id].extent.expiresAt >= deadline
  }

  ghost function VisibleRows(s: Store): multiset<Row>
    requires Inv(s)
  {
    ActiveHaveContents(s);
    Gather(s.contents, ActiveIds(s))
  }

  /** The visible rows that will not expire before `deadline`. */
  ghost function RowsKeptUntil(s: Store, deadline: int): multiset<Row>
    requires Inv(s)
  {
    ActiveHaveContents(s);
    Gather(s.contents, KeptIds(s, deadline))
  }

  lemma ActiveHaveContents(s: Store)
    requires Inv(s)
    ensures ActiveIds(s) <= s.contents.Keys
    ensures forall deadline :: KeptIds(s, deadline) <= s.contents.Keys
  {
    hide SegmentsOk, RunsOk;
    assert ActiveIds(s) <= s.segments.Keys;
    assert forall deadline :: KeptIds(s, deadline) <= ActiveIds(s);
  }

  /** Nothing visible was lost or doubled, and no visible row expires earlier than before. */
  ghost predicate SeesTheSame(s: Store, s': Store)
    requires Inv(s) && Inv(s')
  {
    && VisibleRows(s) == VisibleRows(s')
    && forall deadline :: RowsKeptUntil(s, deadline) <= RowsKeptUntil(s', deadline)
  }

  /** Steps that leave the active segments and their contents alone change nothing a query sees. */
  lemma SameActive(s: Store, s': Store)
    requires Inv(s) && Inv(s') && ActiveIds(s) == ActiveIds(s')
    requires forall id :: id in ActiveIds(s) ==>
               s.contents[id] == s'.contents[id] && s.segments[id].extent == s'.segments[id].extent
    ensures SeesTheSame(s, s')
  {
    hide SegmentsOk, RunsOk;
    ActiveHaveContents(s);
    ActiveHaveContents(s');
    GatherSame(s.contents, s'.contents, ActiveIds(s));
    forall deadline ensures RowsKeptUntil(s, deadline) <= RowsKeptUntil(s', deadline) {
      assert KeptIds(s, deadline) == KeptIds(s', deadline);
      GatherSame(s.contents, s'.contents, KeptIds(s, deadline));
    }
  }

  // ---------- frames ----------

  /** A run whose segments kept their identity, owner, extent and contents is still in order. */
  lemma RunOkFrame(s: Store, s': Store, run: nat)
    requires run in s.runs && RunOk(s, run) && run in s'.runs && s'.runs[run] == s.runs[run]
    requires Inputs(s', run) == Inputs(s, run) && Outputs(s', run) == Outputs(s, run)
    requires forall id :: id in Inputs(s, run) + Outputs(s, run) ==>
               s'.segments[id].extent == s.segments[id].extent && s'.segments[id].owner == s.segments[id].owner
    requires s.objects.Keys <= s'.objects.Keys && s.contents.Keys <= s'.contents.Keys
    requires forall id :: id in s.contents ==> s'.contents[id] == s.contents[id]
    ensures RunOk(s', run)
  {
    if s.runs[run].state.Uploading? || s.runs[run].state.Committed? {
      ReplacesFrame(s, s', run);
    }
  }

  lemma ReplacesFrame(s: Store, s': Store, run: nat)
    requires run in s.runs && run in s'.runs && s'.runs[run].owner == s.runs[run].owner && Replaces(s, run)
    requires Inputs(s', run) == Inputs(s, run) && Outputs(s', run) == Outputs(s, run)
    requires forall id :: id in Inputs(s, run) + Outputs(s, run) ==>
               s'.segments[id].extent == s.segments[id].extent && s'.segments[id].owner == s.segments[id].owner
    requires s.objects.Keys <= s'.objects.Keys && s.contents.Keys <= s'.contents.Keys
    requires forall id :: id in s.contents ==> s'.contents[id] == s.contents[id]
    ensures Replaces(s', run)
  {
    TotalOfSame(s, s', Inputs(s, run));
    TotalOfSame(s, s', Outputs(s, run));
    GatherSame(s.contents, s'.contents, Inputs(s, run));
    GatherSame(s.contents, s'.contents, Outputs(s, run));
  }

  lemma NoStrangers(s: Store, run: nat)
    requires Inv(s) && run !in s.runs
    ensures forall id :: id in s.segments ==>
              s.segments[id].claimedBy != Some(run) && s.segments[id].producedBy != Some(run)
  {
    hide RunsOk;
    forall id | id in s.segments
      ensures s.segments[id].claimedBy != Some(run) && s.segments[id].producedBy != Some(run)
    {
      assert SegmentOk(s, id);
    }
  }

  /** What a step may do to the store as a whole: add, and change states and claims only. */
  ghost predicate Grows(s: Store, s': Store) {
    && s.segments.Keys <= s'.segments.Keys && s.objects.Keys <= s'.objects.Keys && s.contents.Keys <= s'.contents.Keys
    && (forall id :: id in s.contents ==> s'.contents[id] == s.contents[id])
    && (forall id :: id in s.segments ==>
          && s'.segments[id].extent == s.segments[id].extent && s'.segments[id].owner == s.segments[id].owner
          && s'.segments[id].producedBy == s.segments[id].producedBy)
  }

  /** The other runs and their segments are untouched. */
  ghost predicate OthersKept(s: Store, s': Store, run: nat) {
    && s'.runs.Keys == s.runs.Keys + {run}
    && forall other :: other in s.runs && other != run ==>
         && s'.runs[other] == s.runs[other]
         && Inputs(s', other) == Inputs(s, other) && Outputs(s', other) == Outputs(s, other)
  }

  /** A step of `run` moves claims only between it and nobody, and what it adds is its own. */
  ghost predicate TouchesOnly(s: Store, s': Store, run: nat) {
    && (forall id :: id in s.segments ==>
          && id in s'.segments
          && s'.segments[id].producedBy == s.segments[id].producedBy
          && (s'.segments[id].claimedBy != s.segments[id].claimedBy ==>
                s.segments[id].claimedBy in {None, Some(run)} && s'.segments[id].claimedBy in {None, Some(run)}))
    && (forall id :: id in s'.segments && id !in s.segments ==>
          s'.segments[id].claimedBy == None && s'.segments[id].producedBy == Some(run))
  }

  lemma OthersAreKept(s: Store, s': Store, run: nat, state: Run)
    requires TouchesOnly(s, s', run) && s'.runs == s.runs[run := state]
    ensures OthersKept(s, s', run)
  {
    forall other | other in s.runs && other != run
      ensures Inputs(s', other) == Inputs(s, other) && Outputs(s', other) == Outputs(s, other)
    {
      SetsAreKept(s, s', run, other);
    }
    hide TouchesOnly, Inputs, Outputs;
  }

  lemma SetsAreKept(s: Store, s': Store, run: nat, other: nat)
    requires TouchesOnly(s, s', run) && other != run
    ensures Inputs(s', other) == Inputs(s, other) && Outputs(s', other) == Outputs(s, other)
  {
    forall id ensures id in Inputs(s', other) <==> id in Inputs(s, other) {}
    forall id ensures id in Outputs(s', other) <==> id in Outputs(s, other) {}
  }

  lemma ActiveAreKept(s: Store, s': Store)
    requires s.segments.Keys <= s'.segments.Keys
    requires forall id :: id in s.segments ==> (s'.segments[id].state.Active? <==> s.segments[id].state.Active?)
    requires forall id :: id in s'.segments && id !in s.segments ==> !s'.segments[id].state.Active?
    ensures ActiveIds(s') == ActiveIds(s)
  {
    forall id ensures id in ActiveIds(s') <==> id in ActiveIds(s) {}
  }

  /** A step of one run keeps the invariant when its own run and the segments are in order afterwards. */
  lemma StepKeepsInv(s: Store, s': Store, run: nat)
    requires Inv(s) && Grows(s, s') && OthersKept(s, s', run)
    requires s'.contents.Keys == s'.segments.Keys && s'.objects.Keys == s'.segments.Keys
    requires SegmentsOk(s') && run in s'.runs && RunOk(s', run)
    ensures Inv(s')
  {
    hide SegmentsOk, RunOk;
    forall other | other in s'.runs ensures RunOk(s', other) {
      if other != run {
        assert RunOk(s, other);
        InputsAndOutputs(s, other);
        RunOkFrame(s, s', other);
      }
    }
  }

  lemma InputsAndOutputs(s: Store, run: nat)
    ensures Inputs(s, run) <= s.segments.Keys && Outputs(s, run) <= s.segments.Keys
  {
  }

  // ---------- claim ----------

  lemma ClaimShape(s: Store, run: nat, ids: set<nat>, owner: Owner, s': Store)
    requires ClaimTransaction(s, run, ids, owner) == Success(s')
    ensures Grows(s, s') && s'.runs == s.runs[run := Run(owner, Building)] && run !in s.runs
    ensures s'.segments.Keys == s.segments.Keys && s'.objects == s.objects && s'.contents == s.contents
    ensures forall id :: id in s.segments ==>
              s'.segments[id] == if id in ids then s.segments[id].(claimedBy := Some(run)) else s.segments[id]
    ensures 2 <= |ids| <= MAX_INPUT_SEGMENTS && ids <= s.segments.Keys
    ensures forall id :: id in ids ==>
              s.segments[id].claimedBy == None && s.segments[id].state.Active? && s.segments[id].owner == owner
  {
    hide TotalOf;
  }

  lemma ClaimSets(s: Store, run: nat, ids: set<nat>, owner: Owner, s': Store)
    requires Inv(s) && ClaimTransaction(s, run, ids, owner) == Success(s')
    ensures Inputs(s', run) == ids && Outputs(s', run) == {}
    ensures OthersKept(s, s', run) && ActiveIds(s') == ActiveIds(s)
  {
    NoStrangers(s, run);
    ClaimShape(s, run, ids, owner, s');
    hide Inv, ClaimTransaction, Grows, OthersKept, ActiveIds;
    forall id ensures id in Inputs(s', run) <==> id in ids {}
    hide Inputs;
    forall id ensures id !in Outputs(s', run) {}
    hide Outputs;
    OthersAreKept(s, s', run, Run(owner, Building));
    ActiveAreKept(s, s');
  }

  lemma ClaimLinks(runs: map<nat, Run>, run: nat, owner: Owner, segment: Segment, stored: ObjectState)
    requires run !in runs && LinksOk(runs, segment, stored)
    ensures var runs' := runs[run := Run(owner, Building)];
            && LinksOk(runs', segment, stored)
            && (segment.claimedBy.None? && segment.state.Active? && segment.owner == owner ==>
                  LinksOk(runs', segment.(claimedBy := Some(run)), stored))
  {
  }

  lemma ClaimSegments(s: Store, run: nat, ids: set<nat>, owner: Owner, s': Store)
    requires Inv(s) && ClaimTransaction(s, run, ids, owner) == Success(s')
    ensures SegmentsOk(s')
  {
    ClaimShape(s, run, ids, owner, s');
    hide ClaimTransaction, RunsOk, LinksOk, Grows;
    forall id | id in s'.segments ensures SegmentOk(s', id) {
      assert SegmentOk(s, id);
      ClaimLinks(s.runs, run, owner, s.segments[id], s.objects[id]);
    }
  }

  lemma ClaimKeepsInv(s: Store, run: nat, ids: set<nat>, owner: Owner, s': Store)
    requires Inv(s) && ClaimTransaction(s, run, ids, owner) == Success(s')
    ensures Inv(s') && SeesTheSame(s, s')
  {
    ClaimShape(s, run, ids, owner, s');
    ClaimSets(s, run, ids, owner, s');
    ClaimSegments(s, run, ids, owner, s');
    hide ClaimTransaction, SegmentsOk, RunsOk, OthersKept, Replaces, Inputs, Outputs, SeesTheSame;
    StepKeepsInv(s, s', run);
    SameActive(s, s');
  }

  // ---------- upload ----------

  lemma UploadKeepsInv(s: Store, id: nat, now: int, s': Store)
    requires Inv(s) && UploadTransaction(s, id, now) == Success(s')
    ensures Inv(s') && SeesTheSame(s, s')
  {
    UploadRuns(s, id, now, s');
    UploadSegments(s, id, now, s');
    ActiveAreKept(s, s');
    ActiveHaveContents(s);
    hide SegmentsOk, RunsOk, SeesTheSame, ActiveIds, KeptIds;
    SameActive(s, s');
  }

  lemma UploadSegments(s: Store, id: nat, now: int, s': Store)
    requires Inv(s) && UploadTransaction(s, id, now) == Success(s')
    ensures SegmentsOk(s')
  {
    hide RunsOk;
    forall other | other in s'.segments ensures SegmentOk(s', other) {
      assert SegmentOk(s, other);
    }
  }

  lemma UploadRuns(s: Store, id: nat, now: int, s': Store)
    requires Inv(s) && UploadTransaction(s, id, now) == Success(s')
    ensures RunsOk(s')
  {
    hide SegmentsOk;
    forall run | run in s.runs ensures RunOk(s', run) {
      assert RunOk(s, run);
      assert Inputs(s', run) == Inputs(s, run) && Outputs(s', run) == Outputs(s, run);
      RunOkFrame(s, s', run);
    }
  }

  // ---------- registration ----------

  function OutputContents(outputs: seq<Registration>): seq<seq<Row>> {
    seq(|outputs|, k requires 0 <= k < |outputs| => outputs[k].rows)
  }

  /** The uploaded outputs hold exactly the rows of the run's inputs, as a successful build guarantees. */
  ghost predicate HoldMergedRows(s: Store, run: nat, outputs: seq<Registration>) {
    && Inputs(s, run) <= s.contents.Keys
    && multiset(Flatten(OutputContents(outputs))) == Gather(s.contents, Inputs(s, run))
  }

  /** Named picks the one registration of an identity. */
  lemma NamedIs(run: nat, outputs: seq<Registration>, k: nat)
    requires IdentitiesOk(run, outputs) && k < |outputs|
    ensures outputs[k].segmentId in RegisteredIds(outputs) && Named(outputs, outputs[k].segmentId) == outputs[k]
  {
    var id := outputs[k].segmentId;
    assert OutputIds(outputs)[k] == id;
    var j :| 0 <= j < |outputs| && OutputIds(outputs)[j] == id && Named(outputs, id) == outputs[j];
    assert j == k;
  }

  /** An output as its registration stores it. */
  ghost predicate Stored(s: Store, output: Registration) {
    var id := output.segmentId;
    && id in s.segments && s.segments[id] == NewSegment(output)
    && id in s.objects && s.objects[id] == Planned
    && id in s.contents && s.contents[id] == output.rows
  }

  ghost predicate AllStored(s: Store, outputs: seq<Registration>) {
    forall k :: 0 <= k < |outputs| ==> Stored(s, outputs[k])
  }

  /** A registration that adds its outputs to the store. */
  ghost predicate Registers(s: Store, run: nat, outputs: seq<Registration>) {
    && run in s.runs && s.runs[run].state.Building?
    && outputs != [] && |outputs| <= MAX_OUTPUT_SEGMENTS && IdentitiesOk(run, outputs)
    && RegisteredIds(outputs) !! s.segments.Keys
    && |outputs| < |Inputs(s, run)| && InputsOwned(s, run)
    && OutputSetOk(s.runs[run].owner, TotalOf(s, Inputs(s, run)), outputs)
  }

  lemma RegisterStores(s: Store, run: nat, outputs: seq<Registration>)
    requires Registers(s, run, outputs)
    ensures AllStored(Registered(s, run, outputs), outputs)
  {
    hide OutputSetOk, InputsOwned, TotalOf, Inputs;
    forall k | 0 <= k < |outputs| ensures Stored(Registered(s, run, outputs), outputs[k]) {
      NamedIs(run, outputs, k);
    }
  }

  lemma RegisterShape(s: Store, run: nat, outputs: seq<Registration>)
    requires Inv(s) && Registers(s, run, outputs)
    ensures var s' := Registered(s, run, outputs);
            && Grows(s, s') && s'.runs == s.runs[run := s.runs[run].(state := Uploading)]
            && s'.segments.Keys == s.segments.Keys + RegisteredIds(outputs)
            && s'.objects.Keys == s'.segments.Keys && s'.contents.Keys == s'.segments.Keys
            && (forall id :: id in s.segments ==>
                  s'.segments[id] == s.segments[id] && s'.objects[id] == s.objects[id])
  {
    hide OutputSetOk, InputsOwned, TotalOf, Inputs;
  }

  /** What registration stores for an added identity. */
  lemma RegisteredFrom(s: Store, run: nat, outputs: seq<Registration>, id: nat) returns (k: nat)
    requires Registers(s, run, outputs) && id in RegisteredIds(outputs)
    ensures k < |outputs| && outputs[k].segmentId == id && Stored(Registered(s, run, outputs), outputs[k])
    ensures outputs[k].run == run && outputs[k].owner == s.runs[run].owner
    ensures |Inputs(s, run)| >= 2 && outputs[k].extent.expiresAt == TotalOf(s, Inputs(s, run)).expiresAt
  {
    RegisterStores(s, run, outputs);
    hide Registered, TotalOf, Total;
    k :| 0 <= k < |outputs| && OutputIds(outputs)[k] == id;
  }

  lemma RegisteredSegments(s: Store, run: nat, outputs: seq<Registration>)
    requires Inv(s) && Registers(s, run, outputs)
    ensures var s' := Registered(s, run, outputs);
            forall id :: id in RegisteredIds(outputs) ==>
              && id in s'.segments
              && s'.segments[id].state.Prepared? && s'.segments[id].claimedBy == None
              && s'.segments[id].producedBy == Some(run)
  {
    forall id | id in RegisteredIds(outputs)
      ensures var s' := Registered(s, run, outputs);
              && id in s'.segments
              && s'.segments[id].state.Prepared? && s'.segments[id].claimedBy == None
              && s'.segments[id].producedBy == Some(run)
    {
      hide Registered, Registers, Inv, RegisteredIds;
      var k := RegisteredFrom(s, run, outputs, id);
    }
  }

  lemma RegisterOwnSets(s: Store, run: nat, outputs: seq<Registration>)
    requires Inv(s) && Registers(s, run, outputs)
    ensures var s' := Registered(s, run, outputs);
            && Outputs(s', run) == RegisteredIds(outputs) && Inputs(s', run) == Inputs(s, run)
  {
    NothingProduced(s, run);
    RegisterShape(s, run, outputs);
    RegisteredSegments(s, run, outputs);
    var s' := Registered(s, run, outputs);
    hide Registered, Inv, Grows, Registers, RegisteredIds;
    forall id ensures id in Outputs(s', run) <==> id in RegisteredIds(outputs) {}
    hide Outputs;
    forall id ensures id in Inputs(s', run) <==> id in Inputs(s, run) {}
  }

  /** What registration leaves alone and what it adds. */
  lemma RegisterAdds(s: Store, run: nat, outputs: seq<Registration>)
    requires Inv(s) && Registers(s, run, outputs)
    ensures var s' := Registered(s, run, outputs);
            && (forall id :: id in s.segments ==> id in s'.segments && s'.segments[id] == s.segments[id])
            && (forall id :: id in s'.segments && id !in s.segments ==>
                  && s'.segments[id].state.Prepared? && s'.segments[id].claimedBy == None
                  && s'.segments[id].producedBy == Some(run))
  {
    RegisterShape(s, run, outputs);
    RegisteredSegments(s, run, outputs);
    var s' := Registered(s, run, outputs);
    hide Registered, Inv, Grows, Registers, RegisteredIds;
    forall id | id in s'.segments && id !in s.segments ensures id in RegisteredIds(outputs) {}
  }

  lemma RegisterTouches(s: Store, run: nat, outputs: seq<Registration>)
    requires Inv(s) && Registers(s, run, outputs)
    ensures var s' := Registered(s, run, outputs);
            TouchesOnly(s, s', run) && ActiveIds(s') == ActiveIds(s)
  {
    hide Registered, Inv, ActiveIds, OutputSetOk, InputsOwned, Inputs, RegisteredIds;
    RegisterAdds(s, run, outputs);
    var s' := Registered(s, run, outputs);
    ActiveAreKept(s, s');
  }

  lemma RegisterSets(s: Store, run: nat, outputs: seq<Registration>)
    requires Inv(s) && Registers(s, run, outputs)
    ensures var s' := Registered(s, run, outputs);
            && Outputs(s', run) == RegisteredIds(outputs) && Inputs(s', run) == Inputs(s, run)
            && OthersKept(s, s', run) && ActiveIds(s') == ActiveIds(s)
  {
    hide OthersKept, ActiveIds, Inputs, Outputs, TouchesOnly, RegisteredIds;
    RegisterOwnSets(s, run, outputs);
    RegisterTouches(s, run, outputs);
    var s' := Registered(s, run, outputs);
    OthersAreKept(s, s', run, s'.runs[run]);
  }

  lemma NothingProduced(s: Store, run: nat)
    requires Inv(s) && run in s.runs && s.runs[run].state.Building?
    ensures forall id :: id in s.segments ==> s.segments[id].producedBy != Some(run)
    ensures Outputs(s, run) == {}
  {
    hide RunsOk;
    forall id | id in s.segments ensures s.segments[id].producedBy != Some(run) {
      assert SegmentOk(s, id);
    }
  }

  /** The totals and the rows of stored outputs are those of their registrations. */
  lemma StoredTotals(s: Store, run: nat, outputs: seq<Registration>)
    requires IdentitiesOk(run, outputs) && AllStored(s, outputs) && outputs != []
    ensures RegisteredIds(outputs) != {} && RegisteredIds(outputs) <= s.segments.Keys
    ensures TotalOf(s, RegisteredIds(outputs)) == Total(RegisteredExtents(outputs))
  {
    hide TotalOf, Total;
    var ids := OutputIds(outputs);
    forall k | 0 <= k < |ids| ensures ids[k] in s.segments && s.segments[ids[k]].extent == outputs[k].extent {
      assert Stored(s, outputs[k]);
    }
    TotalOfList(s, ids);
    assert Extents(s, ids) == RegisteredExtents(outputs);
  }

  lemma StoredRows(s: Store, run: nat, outputs: seq<Registration>)
    requires IdentitiesOk(run, outputs) && AllStored(s, outputs)
    ensures RegisteredIds(outputs) <= s.contents.Keys
    ensures Gather(s.contents, RegisteredIds(outputs)) == multiset(Flatten(OutputContents(outputs)))
    ensures |RegisteredIds(outputs)| == |outputs|
  {
    hide Gather;
    var ids := OutputIds(outputs);
    forall k | 0 <= k < |ids| ensures ids[k] in s.contents && s.contents[ids[k]] == outputs[k].rows {
      assert Stored(s, outputs[k]);
    }
    GatherList(s.contents, ids);
    assert OutputContents(outputs) == seq(|ids|, k requires 0 <= k < |ids| => s.contents[ids[k]]);
    CountIds(ids);
  }

  /** What is stored for the added identities, taken together. */
  lemma RegisteredExtentsOk(s: Store, run: nat, outputs: seq<Registration>)
    requires Inv(s) && Registers(s, run, outputs)
    ensures |Inputs(s, run)| >= 2 && Inputs(s, run) <= s.segments.Keys
    ensures var s' := Registered(s, run, outputs);
            var ids := RegisteredIds(outputs);
            && ids <= s'.segments.Keys
            && (forall id :: id in ids ==>
                  && s'.segments[id].owner == s.runs[run].owner
                  && s'.segments[id].extent.expiresAt == TotalOf(s, Inputs(s, run)).expiresAt)
  {
    RegisterShape(s, run, outputs);
    InputsAndOutputs(s, run);
    assert |Inputs(s, run)| >= 2;
    hide Registered, Inv, TotalOf, Registers, Inputs, Grows, RegisteredIds;
    forall id | id in RegisteredIds(outputs)
      ensures var s' := Registered(s, run, outputs);
              && s'.segments[id].owner == s.runs[run].owner
              && s'.segments[id].extent.expiresAt == TotalOf(s, Inputs(s, run)).expiresAt
    {
      var k := RegisteredFrom(s, run, outputs, id);
    }
  }

  lemma RegisterTotals(s: Store, run: nat, outputs: seq<Registration>)
    requires Inv(s) && Registers(s, run, outputs)
    ensures var s' := Registered(s, run, outputs);
            var ids, inputs := RegisteredIds(outputs), Inputs(s, run);
            && ids != {} && |ids| == |outputs| && ids <= s'.segments.Keys
            && inputs != {} && inputs <= s'.segments.Keys
            && TotalOf(s', ids).rows == TotalOf(s', inputs).rows <= U64_MAX
            && TotalOf(s', ids).bounds == TotalOf(s', inputs).bounds
            && TotalOf(s', inputs) == TotalOf(s, inputs)
  {
    var s' := Registered(s, run, outputs);
    RegisterShape(s, run, outputs);
    RegisterStores(s, run, outputs);
    StoredTotals(s', run, outputs);
    StoredRows(s', run, outputs);
    InputsAndOutputs(s, run);
    hide Registered, Inv, Total, TotalOf, AllStored, RegisteredIds, IdentitiesOk, Inputs;
    TotalOfSame(s, s', Inputs(s, run));
  }

  lemma RegisterOwners(s: Store, run: nat, outputs: seq<Registration>)
    requires Inv(s) && Registers(s, run, outputs)
    ensures var s' := Registered(s, run, outputs);
            && run in s'.runs && s'.runs[run].owner == s.runs[run].owner
            && |outputs| < |Inputs(s, run)| && |outputs| <= MAX_OUTPUT_SEGMENTS
            && Inputs(s, run) <= s'.segments.Keys
            && forall id :: id in Inputs(s, run) ==> s'.segments[id].owner == s.runs[run].owner
  {
    RegisterShape(s, run, outputs);
    hide Registered, Inv, OutputSetOk, RegisteredIds, IdentitiesOk;
  }

  lemma RegisterCommon(s: Store, run: nat, outputs: seq<Registration>)
    requires Inv(s) && Registers(s, run, outputs)
    ensures CommonReplacement(Registered(s, run, outputs), run)
    ensures |Outputs(Registered(s, run, outputs), run)| <= MAX_OUTPUT_SEGMENTS
  {
    var s' := Registered(s, run, outputs);
    assert run in s.runs;
    hide Registered, Registers, TotalOf, OthersKept, ActiveIds, RegisteredIds, SegmentsOk, RunsOk, Inputs, Outputs;
    RegisterShape(s, run, outputs);
    RegisterSets(s, run, outputs);
    RegisterTotals(s, run, outputs);
    RegisteredExtentsOk(s, run, outputs);
    RegisterOwners(s, run, outputs);
    hide Grows, Inv, CommonReplacement;
    CommonFrom(s', run, Inputs(s, run), RegisteredIds(outputs));
  }

  lemma CommonFrom(s: Store, run: nat, inputs: set<nat>, outputs: set<nat>)
    requires run in s.runs && Inputs(s, run) == inputs && Outputs(s, run) == outputs
    requires |outputs| < |inputs| && outputs != {} && outputs <= s.objects.Keys
    requires inputs <= s.segments.Keys && outputs <= s.segments.Keys
    requires forall id :: id in inputs ==> s.segments[id].owner == s.runs[run].owner
    requires forall id :: id in outputs ==>
               && s.segments[id].owner == s.runs[run].owner
               && s.segments[id].extent.expiresAt == TotalOf(s, inputs).expiresAt
    requires TotalOf(s, outputs).rows == TotalOf(s, inputs).rows <= U64_MAX
    requires TotalOf(s, outputs).bounds == TotalOf(s, inputs).bounds
    ensures CommonReplacement(s, run)
  {
    hide TotalOf, Inputs, Outputs;
  }

  lemma RegisterReplaces(s: Store, run: nat, outputs: seq<Registration>)
    requires Inv(s) && Registers(s, run, outputs) && HoldMergedRows(s, run, outputs)
    ensures Replaces(Registered(s, run, outputs), run)
  {
    var s' := Registered(s, run, outputs);
    RegisterShape(s, run, outputs);
    RegisterSets(s, run, outputs);
    RegisterStores(s, run, outputs);
    RegisterCommon(s, run, outputs);
    assert IdentitiesOk(run, outputs);
    hide Registered, Registers, AllStored, IdentitiesOk, Inv, OthersKept, ActiveIds, RegisteredIds, CommonReplacement,
      Gather, Inputs, Outputs;
    StoredRows(s', run, outputs);
    GatherSame(s.contents, s'.contents, Inputs(s, run));
  }

  lemma RegisterLinks(runs: map<nat, Run>, run: nat, segment: Segment, stored: ObjectState)
    requires run in runs && runs[run].state.Building? && LinksOk(runs, segment, stored)
    ensures LinksOk(runs[run := runs[run].(state := Uploading)], segment, stored)
  {
  }

  lemma RegisterSegment(s: Store, run: nat, outputs: seq<Registration>, id: nat)
    requires Inv(s) && Registers(s, run, outputs) && id in RegisteredIds(outputs)
    ensures var s' := Registered(s, run, outputs); id in s'.segments && SegmentOk(s', id)
  {
    hide SegmentsOk, RunsOk;
    RegisterShape(s, run, outputs);
    assert run in s.runs;
    hide Registered, Registers, RegisteredIds, Grows;
    var k := RegisteredFrom(s, run, outputs, id);
  }

  lemma RegisterSegments(s: Store, run: nat, outputs: seq<Registration>)
    requires Inv(s) && Registers(s, run, outputs)
    ensures SegmentsOk(Registered(s, run, outputs))
  {
    var s' := Registered(s, run, outputs);
    RegisterShape(s, run, outputs);
    assert run in s.runs && s.runs[run].state.Building?;
    hide Registered, Registers, RunsOk, Grows, RegisteredIds, LinksOk;
    forall id | id in s'.segments ensures SegmentOk(s', id) {
      if id in s.segments {
        assert SegmentOk(s, id);
        RegisterLinks(s.runs, run, s.segments[id], s.objects[id]);
      } else {
        RegisterSegment(s, run, outputs, id);
      }
    }
  }

  lemma RegisteringKeepsInv(s: Store, run: nat, outputs: seq<Registration>)
    requires Inv(s) && Registers(s, run, outputs) && HoldMergedRows(s, run, outputs)
    ensures var s' := Registered(s, run, outputs); Inv(s') && SeesTheSame(s, s')
  {
    var s' := Registered(s, run, outputs);
    RegisterShape(s, run, outputs);
    RegisterSets(s, run, outputs);
    RegisterSegments(s, run, outputs);
    RegisterReplaces(s, run, outputs);
    RegisterCommon(s, run, outputs);
    assert run in s.runs && RunOk(s, run) && |Inputs(s, run)| >= 2;
    hide Registered, Registers, HoldMergedRows, SegmentsOk, RunsOk, Replaces, Inputs, Outputs, OthersKept, SeesTheSame;
    StepKeepsInv(s, s', run);
    SameActive(s, s');
  }

  lemma RegisterKeepsInv(s: Store, run: nat, outputs: seq<Registration>, s': Store)
    requires Inv(s) && RegisterTransaction(s, run, outputs) == Success(s')
    requires s.runs[run].state.Building? ==> HoldMergedRows(s, run, outputs)
    ensures Inv(s') && SeesTheSame(s, s')
  {
    hide Inv, TotalOf, HoldMergedRows, OutputSetOk, Inputs, InputsOwned, InputsActive;
    if s.runs[run].state.Building? {
      assert Registers(s, run, outputs);
      RegisteringKeepsInv(s, run, outputs);
    } else {
      SameActive(s, s);
    }
  }

  lemma {:induction false} CountIds(ids: seq<nat>)
    requires NoDuplicates(ids)
    ensures |IdSet(ids)| == |ids|
  {
    if ids != [] {
      IdSetSnoc(ids);
      CountIds(ids[..|ids| - 1]);
    } else {
      assert IdSet(ids) == {};
    }
  }
}
