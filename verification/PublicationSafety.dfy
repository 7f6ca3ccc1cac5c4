/** Publishing and failing a run: both keep the invariant, the visible rows and their expiry. */
module PublicationSafety {
  import opened Basics
  import opened Segments
  import opened Metastore
  import opened Lifecycle
  import opened LifecycleSafety

  // ---------- publish ----------

  lemma PublishShape(s: Store, run: nat, now: int, grace: Grace)
    requires Inv(s) && ValidatePrepublication(s, run).Success?
    ensures var s' := PublishedStore(s, run, now, grace);
            && run in s.runs && Grows(s, s') && TouchesOnly(s, s', run)
            && s'.runs == s.runs[run := s.runs[run].(state := Committed(now))]
            && s'.contents == s.contents && s'.segments.Keys == s.segments.Keys && s'.objects.Keys == s.objects.Keys
            && (forall id :: id in s.segments ==>
                  && s'.segments[id].claimedBy == s.segments[id].claimedBy
                  && s'.segments[id].producedBy == s.segments[id].producedBy)
  {
    hide SegmentsOk, RunsOk, CommonReplacement, Inputs, Outputs;
    assert run in s.runs by { assert CommonReplacement(s, run); PublishedRun(s, run); }
  }

  lemma PublishedRun(s: Store, run: nat)
    requires CommonReplacement(s, run)
    ensures run in s.runs && |Outputs(s, run)| < |Inputs(s, run)|
  {
    hide Inputs, Outputs, TotalOf;
  }

  lemma PublishLinks(runs: map<nat, Run>, run: nat, segment: Segment, stored: ObjectState, now: int, grace: Grace)
    requires run in runs && runs[run].state.Uploading? && LinksOk(runs, segment, stored)
    ensures var runs' := runs[run := runs[run].(state := Committed(now))];
            if segment.producedBy == Some(run) then
              stored.Uploaded? ==> LinksOk(runs', segment.(state := Active(now)), Published(stored.uploadedAt, now))
            else if segment.claimedBy == Some(run) then
              && segment.state.Active?
              && LinksOk(runs', segment.(state := Superseded(segment.state.publishedAt, now, now + grace)), stored)
            else LinksOk(runs', segment, stored)
  {
  }

  lemma PublishSegments(s: Store, run: nat, now: int, grace: Grace)
    requires Inv(s) && run in s.runs && s.runs[run].state.Uploading? && ValidatePrepublication(s, run).Success?
    ensures SegmentsOk(PublishedStore(s, run, now, grace))
  {
    var s' := PublishedStore(s, run, now, grace);
    hide RunsOk, CommonReplacement, LinksOk, OutputsPrepared;
    forall id | id in s'.segments ensures SegmentOk(s', id) {
      assert SegmentOk(s, id);
      PublishLinks(s.runs, run, s.segments[id], s.objects[id], now, grace);
    }
  }

  lemma PublishSets(s: Store, run: nat, now: int, grace: Grace)
    requires Inv(s) && ValidatePrepublication(s, run).Success?
    ensures var s' := PublishedStore(s, run, now, grace);
            && Inputs(s', run) == Inputs(s, run) && Outputs(s', run) == Outputs(s, run)
            && OthersKept(s, s', run)
  {
    var s' := PublishedStore(s, run, now, grace);
    PublishShape(s, run, now, grace);
    hide PublishedStore, Inv, Grows, ValidatePrepublication, OthersKept, Inputs, Outputs;
    SameLinksSameSets(s, s', run);
    hide TouchesOnly;
    OthersAreKept(s, s', run, s'.runs[run]);
  }

  lemma SameLinksSameSets(s: Store, s': Store, run: nat)
    requires s'.segments.Keys == s.segments.Keys
    requires forall id :: id in s.segments ==>
               s'.segments[id].claimedBy == s.segments[id].claimedBy
                   && s'.segments[id].producedBy == s.segments[id].producedBy
    ensures Inputs(s', run) == Inputs(s, run) && Outputs(s', run) == Outputs(s, run)
  {
    forall id ensures id in Outputs(s', run) <==> id in Outputs(s, run) {}
    forall id ensures id in Inputs(s', run) <==> id in Inputs(s, run) {}
  }

  /** Publication swaps the inputs for the outputs. */
  lemma PublishActive(s: Store, run: nat, now: int, grace: Grace)
    requires Inv(s) && ValidatePrepublication(s, run).Success?
    ensures ActiveIds(PublishedStore(s, run, now, grace)) == (ActiveIds(s) - Inputs(s, run)) + Outputs(s, run)
    ensures Inputs(s, run) <= ActiveIds(s) && Outputs(s, run) !! ActiveIds(s)
  {
    hide Inv, CommonReplacement, ObjectsUploaded;
    InputsShow(s, run);
    var s' := PublishedStore(s, run, now, grace);
    hide ValidatePrepublication;
    assert Outputs(s, run) <= s.segments.Keys;
    hide Inputs, Outputs;
    forall id ensures id in ActiveIds(s') <==> id in (ActiveIds(s) - Inputs(s, run)) + Outputs(s, run) {}
  }

  lemma InputsShow(s: Store, run: nat)
    requires InputsActive(s, run) && OutputsPrepared(s, run)
    ensures Inputs(s, run) <= ActiveIds(s) && Outputs(s, run) !! ActiveIds(s)
  {
  }

  lemma PublishKeepsInv(s: Store, run: nat, now: int, grace: Grace)
    requires Inv(s) && run in s.runs && s.runs[run].state.Uploading? && ValidatePrepublication(s, run).Success?
    ensures Inv(PublishedStore(s, run, now, grace))
  {
    var s' := PublishedStore(s, run, now, grace);
    PublishShape(s, run, now, grace);
    PublishSets(s, run, now, grace);
    PublishSegments(s, run, now, grace);
    assert RunOk(s, run);
    hide PublishedStore, ValidatePrepublication, SegmentsOk, RunsOk, OthersKept, TouchesOnly, Inputs, Outputs;
    InputsAndOutputs(s, run);
    ReplacesFrame(s, s', run);
    hide Replaces;
    StepKeepsInv(s, s', run);
  }

  lemma GatherSubset(contents: map<nat, seq<Row>>, a: set<nat>, b: set<nat>)
    requires a <= b <= contents.Keys
    ensures Gather(contents, a) <= Gather(contents, b)
  {
    GatherUnion(contents, a, b - a);
    assert a + (b - a) == b;
  }

  /** Every member of a group expires no later than the group. */
  lemma ExpiresWithin(s: Store, ids: set<nat>, id: nat)
    requires ids <= s.segments.Keys && id in ids
    ensures s.segments[id].extent.expiresAt <= TotalOf(s, ids).expiresAt
  {
    OrderedLists(ids);
    TotalExpiry(Extents(s, Ordered(ids)));
    var k :| 0 <= k < |Ordered(ids)| && Ordered(ids)[k] == id;
    assert Extents(s, Ordered(ids))[k] == s.segments[id].extent;
  }

  /** Replacing a part of a set by another with the same rows. */
  lemma GatherSwap(contents: map<nat, seq<Row>>, all: set<nat>, part: set<nat>, other: set<nat>)
    requires part <= all <= contents.Keys && other <= contents.Keys && other !! all
    requires Gather(contents, part) == Gather(contents, other)
    ensures Gather(contents, (all - part) + other) == Gather(contents, all)
  {
    GatherUnion(contents, all - part, part);
    assert (all - part) + part == all;
    GatherUnion(contents, all - part, other);
  }

  /** Dropping some of `all` for `other` loses nothing when `other` holds at least what was dropped. */
  lemma GatherGrow(contents: map<nat, seq<Row>>, kept: set<nat>, part: set<nat>, other: set<nat>)
    requires kept <= contents.Keys && part <= contents.Keys && other <= contents.Keys && other !! kept
    requires Gather(contents, part) == Gather(contents, other)
    ensures Gather(contents, kept) <= Gather(contents, (kept - part) + other)
  {
    GatherUnion(contents, kept - part, kept * part);
    assert (kept - part) + kept * part == kept;
    GatherSubset(contents, kept * part, part);
    GatherUnion(contents, kept - part, other);
  }

  lemma PublishKeepsExpiry(s: Store, run: nat, now: int, grace: Grace, deadline: int)
    requires Inv(s) && run in s.runs && s.runs[run].state.Uploading? && ValidatePrepublication(s, run).Success?
    requires Inv(PublishedStore(s, run, now, grace))
    ensures RowsKeptUntil(s, deadline) <= RowsKeptUntil(PublishedStore(s, run, now, grace), deadline)
  {
    var s' := PublishedStore(s, run, now, grace);
    var inputs, outputs := Inputs(s, run), Outputs(s, run);
    PublishShape(s, run, now, grace);
    PublishActive(s, run, now, grace);
    assert RunOk(s, run);
    assert Replaces(s, run);
    ActiveHaveContents(s);
    ActiveHaveContents(s');
    var kept := KeptIds(s, deadline);
    if exists id :: id in kept && id in inputs {
      KeptAfter(s, s', run, deadline);
      GatherGrow(s.contents, kept, inputs, outputs);
    } else {
      KeptWithout(s, s', run, deadline);
      GatherSubset(s.contents, kept, KeptIds(s', deadline));
    }
  }

  lemma KeptAfter(s: Store, s': Store, run: nat, deadline: int)
    requires CommonReplacement(s, run) && Grows(s, s') && Inputs(s, run) <= s.segments.Keys
             && Outputs(s, run) <= s.segments.Keys
    requires ActiveIds(s') == (ActiveIds(s) - Inputs(s, run)) + Outputs(s, run)
    requires exists id :: id in KeptIds(s, deadline) && id in Inputs(s, run)
    ensures KeptIds(s', deadline) == (KeptIds(s, deadline) - Inputs(s, run)) + Outputs(s, run)
  {
    var inputs, outputs := Inputs(s, run), Outputs(s, run);
    var id :| id in KeptIds(s, deadline) && id in inputs;
    ExpiresWithin(s, inputs, id);
    assert forall out :: out in outputs ==> s.segments[out].extent.expiresAt >= deadline;
    hide CommonReplacement, Inputs, Outputs, TotalOf;
    forall k ensures k in KeptIds(s', deadline) <==> k in (KeptIds(s, deadline) - inputs) + outputs {}
  }

  lemma KeptWithout(s: Store, s': Store, run: nat, deadline: int)
    requires Grows(s, s')
    requires ActiveIds(s') == (ActiveIds(s) - Inputs(s, run)) + Outputs(s, run)
    requires forall id :: id in KeptIds(s, deadline) ==> id !in Inputs(s, run)
    ensures KeptIds(s, deadline) <= KeptIds(s', deadline)
  {
    hide Inputs, Outputs;
  }

  lemma PublishKeepsRows(s: Store, run: nat, now: int, grace: Grace)
    requires Inv(s) && run in s.runs && s.runs[run].state.Uploading? && ValidatePrepublication(s, run).Success?
    ensures var s' := PublishedStore(s, run, now, grace);
            && Inv(s') && VisibleRows(s') == VisibleRows(s)
  {
    var s' := PublishedStore(s, run, now, grace);
    PublishKeepsInv(s, run, now, grace);
    PublishShape(s, run, now, grace);
    PublishActive(s, run, now, grace);
    ActiveHaveContents(s);
    assert RunOk(s, run);
    assert Replaces(s, run);
    hide PublishedStore, ValidatePrepublication, Inv, CommonReplacement;
    GatherSwap(s.contents, ActiveIds(s), Inputs(s, run), Outputs(s, run));
  }

  /** Publication is atomic for a query: the same rows, kept at least as long, in strictly fewer segments. */
  lemma PublishIsSafe(s: Store, run: nat, now: int, grace: Grace)
    requires Inv(s) && run in s.runs && s.runs[run].state.Uploading? && ValidatePrepublication(s, run).Success?
    ensures var s' := PublishedStore(s, run, now, grace);
            && Inv(s') && SeesTheSame(s, s') && |ActiveIds(s')| < |ActiveIds(s)|
  {
    var s' := PublishedStore(s, run, now, grace);
    PublishKeepsRows(s, run, now, grace);
    PublishActive(s, run, now, grace);
    assert CommonReplacement(s, run);
    PublishedRun(s, run);
    SwapCount(ActiveIds(s), Inputs(s, run), Outputs(s, run));
    hide PublishedStore, Inv, CommonReplacement;
    forall deadline ensures RowsKeptUntil(s, deadline) <= RowsKeptUntil(s', deadline) {
      PublishKeepsExpiry(s, run, now, grace, deadline);
    }
  }

  lemma SwapCount(all: set<nat>, part: set<nat>, other: set<nat>)
    requires part <= all && other !! all && |other| < |part|
    ensures |(all - part) + other| < |all|
  {
    assert (all - part) + part == all;
  }
}
