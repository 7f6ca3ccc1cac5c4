/** What claiming and building check of a group of segments, in sums, maxima and the least number of outputs. */
module ClaimConditions {
  import opened Basics
  import opened Segments
  import opened Packing
  import opened Claims

  function Sum(values: seq<nat>): nat {
    if values == [] then 0 else values[0] + Sum(values[1..])
  }

  lemma {:induction false} SumSnoc(values: seq<nat>, last: nat)
    ensures Sum(values + [last]) == Sum(values) + last
  {
    if values == [] {
      assert [] + [last] == [last];
    } else {
      SumSnoc(values[1..], last);
      assert (values + [last])[1..] == values[1..] + [last];
    }
  }

  function RowCounts(inputs: seq<InputSegment>): seq<nat> {
    seq(|inputs|, i requires 0 <= i < |inputs| => inputs[i].descriptor.rowCount)
  }

  function FileSizes(inputs: seq<InputSegment>): seq<nat> {
    seq(|inputs|, i requires 0 <= i < |inputs| => inputs[i].descriptor.objectBytes)
  }

  function PlainSizes(inputs: seq<InputSegment>): seq<nat> {
    seq(|inputs|, i requires 0 <= i < |inputs| => inputs[i].descriptor.uncompressedBytes)
  }

  /** The totals of a group are the sums of its rows, of its file sizes and of its uncompressed sizes. */
  lemma {:induction false} TotalsAreSums(inputs: seq<InputSegment>)
    ensures TotalsOf(inputs) == Totals(Sum(RowCounts(inputs)), Sum(FileSizes(inputs)), Sum(PlainSizes(inputs)))
  {
    if inputs != [] {
      var init, last := inputs[..|inputs| - 1], inputs[|inputs| - 1];
      TotalsAreSums(init);
      assert RowCounts(inputs) == RowCounts(init) + [last.descriptor.rowCount];
      assert FileSizes(inputs) == FileSizes(init) + [last.descriptor.objectBytes];
      assert PlainSizes(inputs) == PlainSizes(init) + [last.descriptor.uncompressedBytes];
      SumSnoc(RowCounts(init), last.descriptor.rowCount);
      SumSnoc(FileSizes(init), last.descriptor.objectBytes);
      SumSnoc(PlainSizes(init), last.descriptor.uncompressedBytes);
    }
  }

  /** So many outputs hold so much: at most the target each. */
  predicate Hold(outputs: nat, amount: nat, target: nat) {
    amount <= outputs * target
  }

  lemma CeilingIsLeast(value: nat, divisor: nat, n: nat)
    requires divisor > 0
    ensures Hold(n, value, divisor) <==> CeilingDividend(value, divisor) <= n
  {
    var q, r := value / divisor, value % divisor;
    assert value == divisor * q + r;
    if n <= q {
      MultiplesOrdered(n, q, divisor);
    } else {
      MultiplesOrdered(q + 1, n, divisor);
      assert (q + 1) * divisor == q * divisor + divisor;
    }
  }

  /** The number of outputs that is expected is the least that can hold all rows and all bytes. */
  lemma ExpectedOutputsIsLeast(totals: Totals, limits: Limits, n: nat)
    requires limits.targetRows > 0 && limits.targetBytes > 0
    ensures Hold(n, totals.rows, limits.targetRows) && Hold(n, totals.uncompressedBytes, limits.targetBytes) <==>
            ExpectedOutputs(totals, limits) <= n
  {
    CeilingIsLeast(totals.rows, limits.targetRows, n);
    CeilingIsLeast(totals.uncompressedBytes, limits.targetBytes, n);
  }

  predicate IsLatest(expiresAt: int, inputs: seq<InputSegment>) {
    && (forall i :: 0 <= i < |inputs| ==> inputs[i].expiresAt <= expiresAt)
    && (exists i :: 0 <= i < |inputs| && inputs[i].expiresAt == expiresAt)
  }

  /** The claim is what its inputs say: alike, each below both targets, with their exact sums within the limits and
      their latest deadline. */
  predicate Sound(claim: Claim, limits: Limits) {
    && 2 <= |claim.inputs| <= limits.maxInputSegments && claim.schemaSourceId == claim.sourceId
    && (forall i :: 0 <= i < |claim.inputs| ==>
          var d := claim.inputs[i].descriptor;
          && d.times.eventDay == claim.eventDay && d.objectOwner == d.segmentId
          && d.rowCount < limits.targetRows && d.uncompressedBytes < limits.targetBytes)
    && claim.totals.rows == Sum(RowCounts(claim.inputs)) <= limits.maxInputRows
    && claim.totals.parquetBytes == Sum(FileSizes(claim.inputs)) <= limits.maxInputParquetBytes
    && claim.totals.uncompressedBytes == Sum(PlainSizes(claim.inputs)) <= limits.maxInputUncompressedBytes
    && IsLatest(claim.expiresAt, claim.inputs)
  }

  /** A build takes a claim exactly when it is sound and fewer outputs than inputs can hold it; a sound one that
      needs as many is not beneficial, and any other is invalid. */
  lemma ClaimIsTaken(claim: Claim, limits: Limits)
    requires BuildLimits(limits)
    ensures ValidateClaim(claim, limits) ==
            if !Sound(claim, limits) then Failure(InputInvalid)
            else if |claim.inputs| > 0 && Hold(|claim.inputs| - 1, claim.totals.rows, limits.targetRows)
                    && Hold(|claim.inputs| - 1, claim.totals.uncompressedBytes, limits.targetBytes) then Success(())
            else Failure(NotBeneficial)
  {
    if |claim.inputs| >= 2 {
      TotalsAreSums(claim.inputs);
      LatestExpiryIsMaximum(claim.inputs);
      ExpectedOutputsIsLeast(claim.totals, limits, |claim.inputs| - 1);
      hide Sum, TotalsOf, LatestExpiry, ExpectedOutputs, Hold, RowCounts, FileSizes, PlainSizes;
    }
  }

  /** The candidates of a group are all those of its source, schema and day. */
  lemma {:induction false} GroupMembers(candidates: seq<InputSegment>, key: GroupKey, candidate: InputSegment)
    ensures candidate in OfKey(candidates, key) <==>
            && candidate in candidates && candidate.descriptor.sourceId == key.sourceId
            && candidate.descriptor.schemaId == key.schemaId && candidate.descriptor.times.eventDay == key.eventDay
  {
    if candidates != [] {
      var init, last := candidates[..|candidates| - 1], candidates[|candidates| - 1];
      GroupMembers(init, key, candidate);
      assert candidates == init + [last];
    }
  }
}
