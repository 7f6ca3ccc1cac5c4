/** The checks of a replacement as the metastore runs them: over rows that a query has listed. They
    decide exactly what the transactions say about sets of segments. */
module ListedRows {
  import opened Basics
  import opened Metastore
  import opened Lifecycle
  import opened LifecycleSafety

  /** A query listed every one of these segments, without repeating any. */
  ghost predicate Lists(ids: seq<nat>, listed: set<nat>) {
    NoDuplicates(ids) && IdSet(ids) == listed
  }

  ghost function SegmentRows(s: Store, ids: seq<nat>): seq<Segment>
    requires forall k :: 0 <= k < |ids| ==> ids[k] in s.segments
  {
    seq(|ids|, k requires 0 <= k < |ids| => s.segments[ids[k]])
  }

  lemma Listed(s: Store, ids: seq<nat>, listed: set<nat>)
    requires Lists(ids, listed) && listed <= s.segments.Keys
    ensures |ids| == |listed| && forall k :: 0 <= k < |ids| ==> ids[k] in listed
    ensures forall id :: id in listed ==> exists k :: 0 <= k < |ids| && ids[k] == id
    ensures ids != [] ==> listed != {} && TotalOf(s, listed) == Total(InputExtents(SegmentRows(s, ids)))
  {
    CountIds(ids);
    forall k | 0 <= k < |ids| ensures ids[k] in listed {
      assert ids[k] in IdSet(ids);
    }
    if ids != [] {
      TotalOfList(s, ids);
      assert Extents(s, ids) == InputExtents(SegmentRows(s, ids));
    }
  }

  /** Registration accepts outputs exactly when the check over the run's listed inputs does. */
  lemma ListedInputsDecideRegistration(s: Store, run: nat, ids: seq<nat>, outputs: seq<Registration>)
    requires run in s.runs && Lists(ids, Inputs(s, run))
    requires outputs != [] && |outputs| <= MAX_OUTPUT_SEGMENTS && IdentitiesOk(run, outputs)
    ensures forall k :: 0 <= k < |ids| ==> ids[k] in s.segments
    ensures RegisterTransaction(s, run, outputs).Success? <==>
              && MayReplace(s.runs[run].owner, SegmentRows(s, ids), outputs)
              && (match s.runs[run].state
                  case Building => RegisteredIds(outputs) !! s.segments.Keys
                  case Uploading => StoredOutputsMatch(s, run, outputs)
                  case _ => false)
  {
    hide TotalOf, Total, IdentitiesOk, OutputSetOk, StoredOutputsMatch, Registered, RegisteredIds, InputExtents, Lists,
      InputsActive, InputsOwned;
    Listed(s, ids, Inputs(s, run));
    ListedInputs(s, run, ids);
  }

  lemma ListedInputs(s: Store, run: nat, ids: seq<nat>)
    requires run in s.runs && Lists(ids, Inputs(s, run))
    ensures forall k :: 0 <= k < |ids| ==> ids[k] in s.segments
    ensures var rows := SegmentRows(s, ids);
            (forall i :: 0 <= i < |rows| ==> rows[i].state.Active? && rows[i].owner == s.runs[run].owner)
            <==> InputsActive(s, run) && InputsOwned(s, run)
  {
    hide TotalOf, Total;
    Listed(s, ids, Inputs(s, run));
    var rows, owner := SegmentRows(s, ids), s.runs[run].owner;
    if forall i :: 0 <= i < |rows| ==> rows[i].state.Active? && rows[i].owner == owner {
      forall id | id in Inputs(s, run) ensures s.segments[id].state.Active? && s.segments[id].owner == owner {
        var k :| 0 <= k < |ids| && ids[k] == id;
        assert rows[k] == s.segments[id];
      }
    }
  }

  /** What the queries load of a replacement: segment rows, and the segments that the object rows name. */
  datatype ReplacementRows = ReplacementRows(
    owner: Owner, inputs: seq<Segment>, outputs: seq<Segment>, outputIds: seq<nat>, objectIds: seq<nat>)

  ghost predicate InOrder(s: Store, ids: set<nat>, rows: seq<Segment>)
    requires ids <= s.segments.Keys
  {
    OrderedLists(ids);
    rows == SegmentRows(s, Ordered(ids))
  }

  /** The rows of a run are listed in the order of their segments. */
  ghost predicate Loads(s: Store, run: nat, rows: ReplacementRows) {
    && run in s.runs && rows.owner == s.runs[run].owner
    && rows.outputIds == Ordered(Outputs(s, run)) && rows.objectIds == Ordered(Outputs(s, run) * s.objects.Keys)
    && InOrder(s, Inputs(s, run), rows.inputs) && InOrder(s, Outputs(s, run), rows.outputs)
  }

  predicate Owned(segments: seq<Segment>, owner: Owner) {
    forall i :: 0 <= i < |segments| ==> segments[i].owner == owner
  }

  predicate KeptUntil(segments: seq<Segment>, expiresAt: int) {
    forall i :: 0 <= i < |segments| ==> segments[i].extent.expiresAt == expiresAt
  }

  /** The listed outputs replace the listed inputs. */
  predicate RowsReplace(rows: ReplacementRows) {
    && |rows.inputs| >= 2 && rows.outputs != [] && |rows.outputs| < |rows.inputs|
    && rows.objectIds == rows.outputIds && Owned(rows.inputs, rows.owner) && Owned(rows.outputs, rows.owner)
    && var input, output := Total(InputExtents(rows.inputs)), Total(InputExtents(rows.outputs));
    && input.rows == output.rows <= U64_MAX && input.bounds == output.bounds
    && KeptUntil(rows.outputs, input.expiresAt)
  }

  /** The common check of a replacement, row by row. Every refusal reports corruption. */
  method ValidateCommonReplacement(rows: ReplacementRows) returns (r: Result<(), MetadataError>)
    requires |rows.outputIds| == |rows.outputs|
    ensures r == if RowsReplace(rows) then Success(()) else Failure(Corrupt)
  {
    hide Total, InputExtents;
    if |rows.inputs| < 2 || rows.outputs == [] || |rows.outputs| >= |rows.inputs|
       || |rows.objectIds| != |rows.outputs| {
      return Failure(Corrupt);
    }
    for i := 0 to |rows.inputs|
      invariant Owned(rows.inputs[..i], rows.owner)
    {
      if rows.inputs[i].owner != rows.owner {
        return Failure(Corrupt);
      }
    }
    for k := 0 to |rows.outputs|
      invariant Owned(rows.outputs[..k], rows.owner) && rows.objectIds[..k] == rows.outputIds[..k]
    {
      if rows.outputs[k].owner != rows.owner || rows.objectIds[k] != rows.outputIds[k] {
        return Failure(Corrupt);
      }
    }
    assert rows.inputs[..|rows.inputs|] == rows.inputs && rows.outputs[..|rows.outputs|] == rows.outputs;
    assert rows.objectIds[..|rows.objectIds|] == rows.objectIds && rows.outputIds[..|rows.outputIds|] == rows.outputIds;
    r := CompareTotals(rows.inputs, rows.outputs);
  }

  /** The outputs have the rows and bounds of the inputs, and each is kept as long as any input. */
  method CompareTotals(inputs: seq<Segment>, outputs: seq<Segment>) returns (r: Result<(), MetadataError>)
    requires inputs != [] && outputs != []
    ensures var input, output := Total(InputExtents(inputs)), Total(InputExtents(outputs));
            r == if input.rows == output.rows <= U64_MAX && input.bounds == output.bounds
                    && KeptUntil(outputs, input.expiresAt) then Success(())
                 else Failure(Corrupt)
  {
    hide Total;
    var input := ReplacementTotals(InputExtents(inputs));
    var output := ReplacementTotals(InputExtents(outputs));
    if input.Failure? || output.Failure?
       || input.value.rows != output.value.rows || input.value.bounds != output.value.bounds
       || !KeptUntil(outputs, input.value.expiresAt) {
      return Failure(Corrupt);
    }
    return Success(());
  }

  /** The check over the loaded rows decides what every transaction requires of a replacement. */
  lemma LoadedRowsDecideReplacement(s: Store, run: nat, rows: ReplacementRows)
    requires Loads(s, run, rows)
    ensures RowsReplace(rows) <==> CommonReplacement(s, run)
  {
    hide Ordered, InOrder, TotalOf, Total, InputExtents, Owned, KeptUntil;
    var inputs, outputs := Inputs(s, run), Outputs(s, run);
    LoadedSet(s, inputs, rows.inputs);
    LoadedSet(s, outputs, rows.outputs);
    OrderedIsOneToOne(outputs, outputs * s.objects.Keys);
    hide Inputs, Outputs;
    LoadedOwners(s, inputs, rows.inputs, rows.owner);
    LoadedOwners(s, outputs, rows.outputs, rows.owner);
    if inputs != {} {
      LoadedDeadlines(s, outputs, rows.outputs, TotalOf(s, inputs).expiresAt);
    }
    assert outputs * s.objects.Keys == outputs <==> outputs <= s.objects.Keys;
  }

  lemma LoadedOwners(s: Store, ids: set<nat>, rows: seq<Segment>, owner: Owner)
    requires ids <= s.segments.Keys && InOrder(s, ids, rows)
    ensures Owned(rows, owner) <==> forall id :: id in ids ==> s.segments[id].owner == owner
  {
    LoadedSet(s, ids, rows);
    hide InOrder;
  }

  lemma LoadedDeadlines(s: Store, ids: set<nat>, rows: seq<Segment>, expiresAt: int)
    requires ids <= s.segments.Keys && InOrder(s, ids, rows)
    ensures KeptUntil(rows, expiresAt) <==> forall id :: id in ids ==> s.segments[id].extent.expiresAt == expiresAt
  {
    LoadedSet(s, ids, rows);
    hide InOrder;
  }

  lemma OrderedIsOneToOne(a: set<nat>, b: set<nat>)
    ensures Ordered(a) == Ordered(b) <==> a == b
  {
    OrderedLists(a);
    OrderedLists(b);
    if Ordered(a) == Ordered(b) {
      forall id ensures id in a <==> id in b {
        assert id in a <==> id in Ordered(a);
      }
    }
  }

  lemma LoadedSet(s: Store, ids: set<nat>, rows: seq<Segment>)
    requires ids <= s.segments.Keys && InOrder(s, ids, rows)
    ensures |rows| == |ids| && (forall i :: 0 <= i < |rows| ==> rows[i] in SegmentsOf(s, ids))
    ensures forall id :: id in ids ==> s.segments[id] in rows
    ensures ids != {} ==> TotalOf(s, ids) == Total(InputExtents(rows))
  {
    OrderedLists(ids);
    forall id | id in ids ensures s.segments[id] in rows {
      var k :| 0 <= k < |Ordered(ids)| && Ordered(ids)[k] == id;
      assert rows[k] == s.segments[id];
    }
    assert Extents(s, Ordered(ids)) == InputExtents(rows);
  }

  ghost function SegmentsOf(s: Store, ids: set<nat>): set<Segment>
    requires ids <= s.segments.Keys
  {
    set id | id in ids :: s.segments[id]
  }
}
