/** What a successful compaction build means, stated on rows alone. */
module MergeTheorem {
  import opened Basics
  import opened StableOrder
  import opened Segments
  import opened Packing
  import opened Cursor
  import opened Claims
  import opened Worker

  lemma {:induction false} InsertRows(item: Item, items: seq<Item>)
    ensures Rows(Insert(item, items, ItemKey)) == Insert(item.row, Rows(items), Key)
  {
    if items == [] || AtMost(ItemKey(item), ItemKey(items[0])) {
    } else {
      InsertRows(item, items[1..]);
      assert Rows(items)[1..] == Rows(items[1..]);
    }
  }

  /** The charged bytes play no part in the order. */
  lemma {:induction false} SortRows(items: seq<Item>)
    ensures Rows(StableSort(items, ItemKey)) == StableSort(Rows(items), Key)
  {
    if items != [] {
      SortRows(items[1..]);
      InsertRows(items[0], StableSort(items[1..], ItemKey));
      assert Rows(items)[1..] == Rows(items[1..]);
    }
  }

  function OutputRows(outputs: seq<LocalOutput>): seq<seq<Row>> {
    seq(|outputs|, k requires 0 <= k < |outputs| => outputs[k].rows)
  }

  function AllRows(parts: seq<seq<Item>>): seq<seq<Row>> {
    seq(|parts|, k requires 0 <= k < |parts| => Rows(parts[k]))
  }

  lemma {:induction false} FlattenRows(parts: seq<seq<Item>>)
    ensures Flatten(AllRows(parts)) == Rows(Flatten(parts))
  {
    if parts != [] {
      FlattenRows(parts[1..]);
      assert AllRows(parts)[1..] == AllRows(parts[1..]);
    }
  }

  function StreamedRows(streams: seq<seq<StreamItem>>): seq<seq<Row>> {
    seq(|streams|, i requires 0 <= i < |streams| => StreamRows(streams[i]))
  }

  lemma InputRows(claim: Claim, streams: seq<seq<StreamItem>>)
    requires |streams| == |claim.inputs|
    requires forall i :: 0 <= i < |claim.inputs| ==> claim.inputs[i].descriptor.rowCount > 0
    ensures AllRows(InputItems(claim, streams)) == StreamedRows(streams)
  {
    forall i | 0 <= i < |streams|
      ensures Rows(InputItems(claim, streams)[i]) == StreamRows(streams[i])
    {
      assert |Rows(InputItems(claim, streams)[i])| == |StreamRows(streams[i])|;
    }
  }

  /** The outputs, read one after the other, are the stable sort by event time and event identity of the
      inputs read one after the other: ties go to the earlier input, then to the earlier row. Hence they
      are sorted and hold every input row exactly as often as the inputs do. */
  lemma OutputsAreTheStableMerge(
      claim: Claim, streams: seq<seq<StreamItem>>, limits: Limits, outputs: seq<LocalOutput>)
    requires |streams| == |claim.inputs|
    requires forall i :: 0 <= i < |claim.inputs| ==> claim.inputs[i].descriptor.rowCount > 0
    requires AllHold(outputs, Packed(claim, streams, limits), claim.eventDay)
    ensures Flatten(OutputRows(outputs)) == StableSort(Flatten(StreamedRows(streams)), Key)
    ensures InRowOrder(Flatten(OutputRows(outputs)))
    ensures multiset(Flatten(OutputRows(outputs))) == multiset(Flatten(StreamedRows(streams)))
  {
    var inputs := InputItems(claim, streams);
    var packed: seq<seq<Item>> := Packed(claim, streams, limits);
    assert OutputRows(outputs) == AllRows(packed);
    FlattenRows(packed);
    PackKeepsItems(Merged(inputs), limits.targetRows, limits.targetBytes);
    SortRows(Flatten(inputs));
    FlattenRows(inputs);
    InputRows(claim, streams);
    StableSortCorrect(Flatten(StreamedRows(streams)), Key);
  }

  lemma {:induction false} MergedBytes(claim: Claim, streams: seq<seq<StreamItem>>, n: nat)
    requires |streams| == |claim.inputs| && n <= |streams|
    requires forall i :: 0 <= i < |claim.inputs| ==> claim.inputs[i].descriptor.rowCount > 0
    requires StreamsValid(claim, streams)
    ensures Bytes(Flatten(InputItems(claim, streams)[..n])) == ChargedTotal(claim.inputs[..n])
  {
    hide StreamValid, Items, EstimatedRowBytes, StreamRows;
    if n > 0 {
      hide Bytes;
      MergedBytes(claim, streams, n - 1);
      var items := InputItems(claim, streams);
      InputBytes(claim, streams, n - 1);
      hide InputItems;
      TakeSnoc(items, n);
      FlattenSnoc(items[..n - 1], items[n - 1]);
      BytesAppend(Flatten(items[..n - 1]), items[n - 1]);
      TakeSnoc(claim.inputs, n);
    }
  }

  lemma InputBytes(claim: Claim, streams: seq<seq<StreamItem>>, i: nat)
    requires |streams| == |claim.inputs| && i < |streams| && StreamsValid(claim, streams)
    requires forall i :: 0 <= i < |claim.inputs| ==> claim.inputs[i].descriptor.rowCount > 0
    ensures var d := claim.inputs[i].descriptor;
            && |InputItems(claim, streams)| == |streams|
            && Bytes(InputItems(claim, streams)[i]) == Max(d.uncompressedBytes, d.rowCount)
  {
    SharesAreExact(claim.inputs[i].descriptor, StreamRows(streams[i]));
  }

  /** The sum over inputs of the larger of uncompressed bytes and rows. */
  function ChargedTotal(inputs: seq<InputSegment>): nat {
    if inputs == [] then 0
    else
      var d := inputs[|inputs| - 1].descriptor;
      ChargedTotal(inputs[..|inputs| - 1]) + Max(d.uncompressedBytes, d.rowCount)
  }

  lemma BytesCons(item: Item, items: seq<Item>)
    ensures Bytes([item] + items) == item.bytes + Bytes(items)
  {
    BytesAppend([item], items);
    assert [item][..0] == [];
  }

  lemma {:induction false} InsertBytes(item: Item, items: seq<Item>)
    ensures Bytes(Insert(item, items, ItemKey)) == item.bytes + Bytes(items)
  {
    BytesCons(item, items);
    if items != [] && !AtMost(ItemKey(item), ItemKey(items[0])) {
      InsertBytes(item, items[1..]);
      BytesCons(items[0], items[1..]);
      BytesCons(items[0], Insert(item, items[1..], ItemKey));
      assert items == [items[0]] + items[1..];
    }
  }

  lemma {:induction false} SortBytes(items: seq<Item>)
    ensures Bytes(StableSort(items, ItemKey)) == Bytes(items)
  {
    if items != [] {
      SortBytes(items[1..]);
      InsertBytes(items[0], StableSort(items[1..], ItemKey));
      BytesCons(items[0], items[1..]);
      assert items == [items[0]] + items[1..];
    }
  }

  /** Every output keeps to both targets, no charged byte is lost on the way, and the number of outputs
      is bounded by the rows and the charged bytes of the inputs. */
  lemma OutputsKeepTheTargets(
      claim: Claim, streams: seq<seq<StreamItem>>, limits: Limits, outputs: seq<LocalOutput>)
    requires BuildLimits(limits) && ValidateClaim(claim, limits) == Success(())
    requires |streams| == |claim.inputs| && StreamsValid(claim, streams)
    requires forall i :: 0 <= i < |claim.inputs| ==> ValidDescriptor(claim.inputs[i].descriptor)
    requires AllHold(outputs, Packed(claim, streams, limits), claim.eventDay)
    ensures forall k :: 0 <= k < |outputs| ==>
              0 < |outputs[k].rows| <= limits.targetRows && outputs[k].bytes <= limits.targetBytes
    ensures Bytes(Flatten(Packed(claim, streams, limits))) == ChargedTotal(claim.inputs)
    ensures |outputs| <= 1 + claim.totals.rows / limits.targetRows
                           + 2 * ChargedTotal(claim.inputs) / limits.targetBytes
  {
    ChargedItems(claim, streams, limits);
    hide ValidateClaim, StreamValid, ValidDescriptor;
    var inputs := InputItems(claim, streams);
    PackWithinTargets(Merged(inputs), limits.targetRows, limits.targetBytes);
    OutputCountBound(Merged(inputs), limits.targetRows, limits.targetBytes);
    PackKeepsItems(Merged(inputs), limits.targetRows, limits.targetBytes);
  }

  /** Limits the claiming side accepts leave room for every byte sum of a build. */
  lemma ClaimLimitsLeaveRoom(claim: Claim, streams: seq<seq<StreamItem>>, limits: Limits)
    requires ValidLimits(limits) && ValidateClaim(claim, limits) == Success(())
    requires |streams| == |claim.inputs| && StreamsValid(claim, streams)
    requires forall i :: 0 <= i < |claim.inputs| ==> ValidDescriptor(claim.inputs[i].descriptor)
    ensures forall i :: 0 <= i < |claim.inputs| ==> claim.inputs[i].descriptor.rowCount > 0
    ensures SumsFit(Packed(claim, streams, limits))
  {
    ChargedItems(claim, streams, limits);
    hide ValidateClaim, StreamValid, ValidDescriptor, Bytes, Pack;
    var packed: seq<seq<Item>> := Packed(claim, streams, limits);
    PackWithinTargets(Merged(InputItems(claim, streams)), limits.targetRows, limits.targetBytes);
    forall k | 0 <= k < |packed| ensures SumFits(packed, k) {
      assert WithinTargets(packed[k], limits.targetRows, limits.targetBytes);
      if k + 1 < |packed| {
        assert WithinTargets(packed[k + 1], limits.targetRows, limits.targetBytes);
        FirstItemBytes(packed[k + 1]);
      }
    }
  }

  lemma ChargedItems(claim: Claim, streams: seq<seq<StreamItem>>, limits: Limits)
    requires BuildLimits(limits) && ValidateClaim(claim, limits) == Success(())
    requires |streams| == |claim.inputs| && StreamsValid(claim, streams)
    requires forall i :: 0 <= i < |claim.inputs| ==> ValidDescriptor(claim.inputs[i].descriptor)
    ensures forall i :: 0 <= i < |claim.inputs| ==> claim.inputs[i].descriptor.rowCount > 0
    ensures var merged := Merged(InputItems(claim, streams));
            && (forall p :: 0 <= p < |merged| ==> merged[p].bytes <= limits.targetBytes)
            && Bytes(merged) == ChargedTotal(claim.inputs) && |merged| == claim.totals.rows
  {
    ValidClaimSharesFit(claim, limits);
    var inputs := InputItems(claim, streams);
    assert claim.totals == TotalsOf(claim.inputs);
    EveryShareFits(claim, streams, limits.targetBytes);
    hide ValidateClaim, ValidDescriptor, RowsFit, TotalsOf;
    StableSortCorrect(Flatten(inputs), ItemKey);
    SortBytes(Flatten(inputs));
    MergedBytes(claim, streams, |streams|);
    assert inputs[..|streams|] == inputs && claim.inputs[..|streams|] == claim.inputs;
    TotalRows(claim, streams);
  }

  lemma EveryShareFits(claim: Claim, streams: seq<seq<StreamItem>>, targetBytes: nat)
    requires |streams| == |claim.inputs| && StreamsValid(claim, streams)
    requires forall i :: 0 <= i < |claim.inputs| ==>
               claim.inputs[i].descriptor.rowCount > 0 && RowsFit(claim.inputs[i].descriptor, targetBytes)
    ensures var merged := Merged(InputItems(claim, streams));
            forall p :: 0 <= p < |merged| ==> merged[p].bytes <= targetBytes
  {
    hide InputItems, StreamValid, RowsFit, StableSort, Flatten;
    var inputs := InputItems(claim, streams);
    var merged := Merged(inputs);
    StableSortCorrect(Flatten(inputs), ItemKey);
    forall p | 0 <= p < |merged| ensures merged[p].bytes <= targetBytes {
      assert merged[p] in multiset(merged);
      var q :| 0 <= q < |Flatten(inputs)| && Flatten(inputs)[q] == merged[p];
      var i, j := FlattenMember(inputs, q);
      ShareFits(claim, streams, targetBytes, i, j);
    }
  }

  lemma ShareFits(claim: Claim, streams: seq<seq<StreamItem>>, targetBytes: nat, i: nat, j: nat)
    requires |streams| == |claim.inputs| && StreamsValid(claim, streams)
    requires forall i :: 0 <= i < |claim.inputs| ==>
               claim.inputs[i].descriptor.rowCount > 0 && RowsFit(claim.inputs[i].descriptor, targetBytes)
    requires i < |InputItems(claim, streams)| && j < |InputItems(claim, streams)[i]|
    ensures InputItems(claim, streams)[i][j].bytes <= targetBytes
  {
  }
}
