/** A claim of segments whose bounds are not whole milliseconds. Stored bounds may be so; the worker truncates them,
    registration compares microseconds, and so the build succeeds and registration refuses it. This service's
    ingestion never writes such bounds. */
module SubMilliseconds {
  import opened Basics
  import opened Segments
  import opened Packing
  import opened Cursor
  import opened Claims
  import opened Worker
  import opened MergeTheorem
  import opened Metastore
  import opened Lifecycle
  import opened LifecycleSafety
  import opened Later
  import opened Stages
  import FurtherCompaction

  /** Every accepted claim with valid streams has outputs that hold its packing. */
  lemma OutputsExist(claim: Claim, streams: seq<seq<StreamItem>>, limits: Limits) returns (outputs: seq<LocalOutput>)
    requires BuildLimits(limits) && |streams| == |claim.inputs| && StreamsValid(claim, streams)
    requires forall i :: 0 <= i < |claim.inputs| ==> ValidDescriptor(claim.inputs[i].descriptor)
    ensures AllHold(outputs, Packed(claim, streams, limits), claim.eventDay)
  {
    var packed := Packed(claim, streams, limits);
    forall k | 0 <= k < |packed| ensures AllStorable(packed[k], claim.eventDay) && packed[k] != [] {
      PackedRowsAreStorable(claim, streams, limits, k);
      PackedAreNotEmpty(Merged(InputItems(claim, streams)), limits.targetRows, limits.targetBytes, k);
    }
    hide Packed, StreamsValid, AllStorable;
    outputs := seq(|packed|, k requires 0 <= k < |packed| => OutputOf(packed[k]));
    forall k | 0 <= k < |packed| ensures Holds(outputs[k], packed[k], claim.eventDay) {
      OutputHolds(packed[k], claim.eventDay);
    }
  }

  ghost function OutputOf(items: seq<Item>): LocalOutput {
    var bounds := BoundsOf(Rows(items));
    LocalOutput(Rows(items), if bounds.Some? then bounds.value else TimeBounds(0, 0, 0, 0), Bytes(items))
  }

  lemma OutputHolds(items: seq<Item>, day: int)
    requires AllStorable(items, day) && items != []
    ensures Holds(OutputOf(items), items, day)
  {
    var rows := Rows(items);
    BoundsOfTight(rows);
    forall row | row in rows ensures RowStorable(row, day) {
      var k :| 0 <= k < |rows| && rows[k] == row;
      assert RowStorable(items[k].row, day);
    }
    StorableBounds(rows, BoundsOf(rows).value, day);
  }

  lemma {:induction false} PackedAreNotEmpty(items: seq<Item>, targetRows: nat, targetBytes: nat, k: nat)
    requires k < |Pack(items, targetRows, targetBytes)|
    ensures Pack(items, targetRows, targetBytes)[k] != []
    decreases |items|
  {
    if items != [] && k > 0 {
      PackedAreNotEmpty(items[Grow(items, 1, targetRows, targetBytes)..], targetRows, targetBytes, k - 1);
    }
  }

  // ---------- two inputs of one row ----------

  const ROW := Row(0, 0, 0, [])
  // One microsecond past the row's times.
  const BOUNDS := TimeBounds(1, 1, 1, 1)
  const OWNER := Owner(0, 0, 0)
  const LIMITS := Limits(2, 100, 100, 100, 100, 100)
  const STREAM := [Batch([ROW], true)]

  function Input(id: nat): InputSegment {
    InputSegment(SegmentDescriptor(id, 0, 0, SegmentTimes(0, BOUNDS), 1, 1, 1, id), 0, 0)
  }

  function TwoInputs(): Claim {
    Claim(0, 0, 0, 0, [Input(0), Input(1)], Totals(2, 2, 2), 0)
  }

  lemma ClaimIsGood()
    ensures BuildLimits(LIMITS) && ValidateClaim(TwoInputs(), LIMITS) == Success(())
    ensures ValidDescriptor(Input(0).descriptor) && ValidDescriptor(Input(1).descriptor)
  {
    var inputs := TwoInputs().inputs;
    assert inputs[..1] == [Input(0)] && [Input(0)][..0] == [];
    assert TotalsOf([Input(0)]) == Totals(1, 1, 1);
    assert TotalsOf(inputs) == Totals(2, 2, 2);
  }

  lemma StreamsAreGood()
    ensures StreamsValid(TwoInputs(), [STREAM, STREAM])
  {
    RowsOfStream();
    assert [ROW][..0] == [];
    assert BoundsOf([ROW]) == Some(Point(ROW));
    assert InMilliseconds(BOUNDS) == Point(ROW);
    assert InDay(ROW, 0);
    assert StreamValid(Input(0).descriptor, STREAM, 0) && StreamValid(Input(1).descriptor, STREAM, 0);
  }

  lemma RowsOfStream()
    ensures StreamRows(STREAM) == [ROW]
  {
    assert STREAM[..0] == [];
    assert StreamRows([]) == [];
  }

  lemma OneOutput(outputs: seq<LocalOutput>)
    requires AllHold(outputs, Packed(TwoInputs(), [STREAM, STREAM], LIMITS), 0)
    ensures |outputs| == 1
  {
    hide AllHold, Packed, ValidateClaim, StreamsValid;
    ClaimIsGood();
    StreamsAreGood();
    var claim := TwoInputs();
    OutputsKeepTheTargets(claim, [STREAM, STREAM], LIMITS, outputs);
    OutputsAreTheStableMerge(claim, [STREAM, STREAM], LIMITS, outputs);
    ChargedTwo();
    RowsOfStream();
    var streamed := StreamedRows([STREAM, STREAM]);
    assert streamed[0] == [ROW];
    assert ROW in Flatten(streamed);
    assert multiset(Flatten(streamed))[ROW] > 0;
    if outputs == [] {
      assert false;
    }
  }

  lemma ChargedTwo()
    ensures ChargedTotal(TwoInputs().inputs) == 2
  {
    var inputs := TwoInputs().inputs;
    assert inputs[..1] == [Input(0)] && [Input(0)][..0] == [];
    assert ChargedTotal([Input(0)]) == 1;
  }

  ghost function TwoSegments(): Store {
    var segment := Segment(OWNER, Extent(1, BOUNDS, 0), Active(0), None, None);
    Store(map[], map[0 := segment, 1 := segment],
          map[0 := ObjectState.Published(0, 0), 1 := ObjectState.Published(0, 0)], map[0 := [ROW], 1 := [ROW]])
  }

  /** The two segments, claimed. */
  lemma TwoAreClaimed() returns (s: Store)
    ensures Initial(TwoSegments()) && Becomes(TwoSegments(), s) && Inv(s)
    ensures s.runs == map[0 := Run(OWNER, Building)] && Inputs(s, 0) == {0, 1}
    ensures s.contents == TwoSegments().contents && s.segments.Keys == {0, 1}
    ensures s.segments[0].extent == Extent(1, BOUNDS, 0) && s.segments[1].extent == Extent(1, BOUNDS, 0)
  {
    hide Inv, Becomes, Inputs, FurtherCompaction.Claimed;
    var s0 := TwoSegments();
    InitialInv(s0);
    FurtherCompaction.PairClaimed(s0, 0, 1, 0, OWNER, BOUNDS, 0);
    FurtherCompaction.ClaimedLater(s0, 0, 1, 0, OWNER);
    s := FurtherCompaction.Claimed(s0, 0, 1, 0, OWNER);
  }

  lemma TotalIsNotExact(s: Store)
    requires 0 in s.segments && 1 in s.segments && Inputs(s, 0) == {0, 1}
    requires s.segments[0].extent == Extent(1, BOUNDS, 0) && s.segments[1].extent == Extent(1, BOUNDS, 0)
    ensures Inputs(s, 0) != {} && Inputs(s, 0) <= s.segments.Keys && !MillisecondExact(TotalOf(s, Inputs(s, 0)).bounds)
  {
    hide Inputs, TotalOf;
    FurtherCompaction.PairTotal(s, 0, 1);
    FurtherCompaction.JoinedRows(s.segments[0].extent, s.segments[1].extent);
  }

  /** From two stored segments with such bounds the store gets to a claim whose build succeeds and whose registration
      is refused, though the outputs hold exactly the claimed rows. */
  lemma RegistrationRefusesABuild() returns (s: Store, outputs: seq<LocalOutput>)
    ensures Initial(TwoSegments()) && Becomes(TwoSegments(), s) && Inv(s)
    ensures Built(s, 0, [0, 1], TwoInputs(), [STREAM, STREAM], LIMITS, outputs) && |outputs| == 1
            && outputs[0].rows != []
    ensures HoldMergedRows(s, 0, Registrations(0, TwoInputs(), outputs, [2], [2]))
    ensures RegisterTransaction(s, 0, Registrations(0, TwoInputs(), outputs, [2], [2])).Failure?
  {
    hide Inv, Becomes, Initial, TwoSegments, Built, RegisterTransaction, AllHold, Packed, ValidateClaim, StreamsValid,
      HoldMergedRows, Inputs, TotalOf, MillisecondExact, ValidDescriptor;
    s := TwoAreClaimed();
    ClaimIsGood();
    StreamsAreGood();
    outputs := OutputsExist(TwoInputs(), [STREAM, STREAM], LIMITS);
    OneOutput(outputs);
    TwoAreBuilt(s, outputs);
    TotalIsNotExact(s);
    BuildPassesRegistration(s, 0, [0, 1], TwoInputs(), [STREAM, STREAM], LIMITS, outputs, [2], [2]);
    BuildHoldsMergedRows(s, 0, [0, 1], TwoInputs(), [STREAM, STREAM], LIMITS, outputs, [2], [2]);
  }

  lemma TwoAreBuilt(s: Store, outputs: seq<LocalOutput>)
    requires BuildLimits(LIMITS) && ValidateClaim(TwoInputs(), LIMITS) == Success(())
             && StreamsValid(TwoInputs(), [STREAM, STREAM])
    requires ValidDescriptor(Input(0).descriptor) && ValidDescriptor(Input(1).descriptor)
    requires AllHold(outputs, Packed(TwoInputs(), [STREAM, STREAM], LIMITS), 0) && |outputs| == 1
    requires 0 in s.runs && s.runs[0] == Run(OWNER, Building) && Inputs(s, 0) == {0, 1}
    requires s.contents == TwoSegments().contents && s.segments.Keys == {0, 1}
    requires s.segments[0].extent == Extent(1, BOUNDS, 0) && s.segments[1].extent == Extent(1, BOUNDS, 0)
    ensures Built(s, 0, [0, 1], TwoInputs(), [STREAM, STREAM], LIMITS, outputs)
  {
    hide ValidateClaim, StreamsValid, AllHold, Packed, Inputs, ValidDescriptor;
    RowsOfStream();
    var ids: seq<nat> := [0, 1];
    assert ids[0] == 0 && ids[1] == 1 && IdSet(ids) == {0, 1};
  }
}
