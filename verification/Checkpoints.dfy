/** Checkpoint planning: how far the spool may be checkpointed, given which positions of which batches the published
    outputs cover. */
module Checkpoints {
  import opened Basics
  import opened Frames
  import opened FrameScan
  import opened Spooling

  datatype PlanError = DuplicateBatches | UnknownCoverage | RangeMismatch | OverlappingCoverage | NotContiguous

  /** A non-empty range of spool bytes. */
  datatype RawRange = Range(start: nat, end: nat)
  type Range = r: RawRange | r.start < r.end witness RawRange.Range(0, 1)

  /** The input positions of one batch that need an output. They increase strictly. */
  datatype Requirements = Requirements(batchId: nat, range: Range, positions: seq<nat>)

  /** The input positions of one batch that one published output covers. */
  datatype Coverage = Coverage(batchId: nat, range: Range, positions: seq<nat>)

  /** One covered position. */
  datatype Point = Point(batchId: nat, position: nat)

  // ---------- what the plan should be ----------

  predicate DistinctBatches(batches: seq<Requirements>) {
    forall a, b :: 0 <= a < b < |batches| ==> batches[a].batchId != batches[b].batchId
  }

  predicate Known(batches: seq<Requirements>, id: nat) {
    exists i :: 0 <= i < |batches| && batches[i].batchId == id
  }

  /** The batch requires that position, at that place of the spool. */
  predicate Required(batches: seq<Requirements>, point: Point, range: Range) {
    exists i :: 0 <= i < |batches| && batches[i].batchId == point.batchId && batches[i].range == range
      && point.position in batches[i].positions
  }

  /** The covered positions of the listed batches, in the order the outputs name them. */
  function Points(batches: seq<Requirements>, coverage: seq<Coverage>): seq<Point> {
    if coverage == [] then []
    else
      var last := coverage[|coverage| - 1];
      Points(batches, coverage[..|coverage| - 1]) +
      if Known(batches, last.batchId) then PointsOf(last, |last.positions|) else []
  }

  function PointsOf(c: Coverage, n: nat): (points: seq<Point>)
    requires n <= |c.positions|
    ensures |points| == n && forall k :: 0 <= k < n ==> points[k] == Point(c.batchId, c.positions[k])
  {
    seq(n, k requires 0 <= k < n => Point(c.batchId, c.positions[k]))
  }

  predicate NoRepeats(points: seq<Point>) {
    forall a, b :: 0 <= a < b < |points| ==> points[a] != points[b]
  }

  /** Every covered position of a listed batch is one it requires, in the right place. */
  predicate CoverageKnown(batches: seq<Requirements>, coverage: seq<Coverage>) {
    forall c :: 0 <= c < |coverage| ==> CoverageFits(batches, coverage[c], |coverage[c].positions|)
  }

  predicate CoverageFits(batches: seq<Requirements>, c: Coverage, n: nat)
    requires n <= |c.positions|
  {
    Known(batches, c.batchId) ==>
      forall k :: 0 <= k < n ==> Required(batches, Point(c.batchId, c.positions[k]), c.range)
  }

  /** The outputs cover the listed batches without error: nothing unknown, nothing misplaced, nothing twice. */
  predicate SoundCoverage(batches: seq<Requirements>, coverage: seq<Coverage>) {
    CoverageKnown(batches, coverage) && NoRepeats(Points(batches, coverage))
  }

  predicate Complete(batches: seq<Requirements>, coverage: seq<Coverage>, i: nat)
    requires i < |batches|
  {
    forall p :: p in batches[i].positions ==> Point(batches[i].batchId, p) in Points(batches, coverage)
  }

  /** The first `n` batches are completely covered, and no more. */
  predicate CoveredPrefix(batches: seq<Requirements>, coverage: seq<Coverage>, n: nat) {
    && n <= |batches|
    && (forall i :: 0 <= i < n ==> Complete(batches, coverage, i))
    && (n < |batches| ==> !Complete(batches, coverage, n))
  }

  function EndOf(current: nat, batches: seq<Requirements>, n: nat): nat
    requires n <= |batches|
  {
    if n == 0 then current else batches[n - 1].range.end
  }

  /** Each of the first `n` batches begins where the one before it ends. */
  predicate Contiguous(current: nat, batches: seq<Requirements>, n: nat)
    requires n <= |batches|
  {
    forall i :: 0 <= i < n ==> batches[i].range.start == EndOf(current, batches, i)
  }

  lemma {:induction false} PrefixExists(batches: seq<Requirements>, coverage: seq<Coverage>, k: nat) returns (n: nat)
    requires k <= |batches| && forall i :: 0 <= i < k ==> Complete(batches, coverage, i)
    ensures CoveredPrefix(batches, coverage, n)
    decreases |batches| - k
  {
    if k < |batches| && Complete(batches, coverage, k) {
      n := PrefixExists(batches, coverage, k + 1);
    } else {
      n := k;
    }
  }

  // ---------- the plan ----------

  /** Collects the covered positions, refusing unknown, misplaced and repeated ones. */
  method CollectCoverage(batches: seq<Requirements>, coverage: seq<Coverage>) returns (r: Result<set<Point>, PlanError>)
    ensures r.Success? <==> SoundCoverage(batches, coverage)
    ensures r.Success? ==> forall point :: point in r.value <==> point in Points(batches, coverage)
    ensures r.Failure? ==> Uncollectable(batches, coverage, r.error)
  {
    hide Uncollectable, SoundCoverage, Points;
    NothingCollected(batches, coverage);
    var covered: set<Point> := {};
    for c := 0 to |coverage|
      invariant SoundCoverage(batches, coverage[..c])
      invariant forall point :: point in covered <==> point in Points(batches, coverage[..c])
    {
      var collected := CollectBatch(batches, coverage, c, covered);
      if collected.Failure? {
        return Failure(collected.error);
      }
      covered := collected.value;
    }
    assert coverage[..|coverage|] == coverage;
    return Success(covered);
  }

  lemma NothingCollected(batches: seq<Requirements>, coverage: seq<Coverage>)
    ensures SoundCoverage(batches, coverage[..0]) && Points(batches, coverage[..0]) == []
  {
  }

  /** Adds the published coverage of one batch. */
  method CollectBatch(batches: seq<Requirements>, coverage: seq<Coverage>, c: nat, before: set<Point>)
    returns (r: Result<set<Point>, PlanError>)
    requires c < |coverage| && SoundCoverage(batches, coverage[..c])
    requires forall point :: point in before <==> point in Points(batches, coverage[..c])
    ensures r.Success? ==>
              && SoundCoverage(batches, coverage[..c + 1])
              && forall point :: point in r.value <==> point in Points(batches, coverage[..c + 1])
    ensures r.Failure? ==> !SoundCoverage(batches, coverage) && Uncollectable(batches, coverage, r.error)
  {
    var item := coverage[c];
    ghost var points := Points(batches, coverage[..c]);
    PointsSnoc(batches, coverage, c);
    assert CoverageFits(batches, item, 0) && NoRepeats(points);
    hide Uncollectable, SoundCoverage, NoRepeats, Points, Required, RangesOf, Known;
    var covered := before;
    if Known(batches, item.batchId) {
      assert points + PointsOf(item, 0) == points;
      for k := 0 to |item.positions|
        invariant CoverageFits(batches, item, k)
        invariant NoRepeats(points + PointsOf(item, k))
        invariant forall point :: point in covered <==> point in points + PointsOf(item, k)
      {
        var point := Point(item.batchId, item.positions[k]);
        assert PointsOf(item, k + 1) == PointsOf(item, k) + [point];
        assert points + PointsOf(item, k + 1) == (points + PointsOf(item, k)) + [point];
        if !Required(batches, point, item.range) {
          UnknownPoint(batches, coverage, c, k);
          var elsewhere := exists range :: range in RangesOf(batches, point);
          Misplaced(batches, coverage, c, k);
          return Failure(if elsewhere then RangeMismatch else UnknownCoverage);
        }
        if point in covered {
          RepeatedPoint(batches, coverage, c, k, points);
          return Failure(OverlappingCoverage);
        }
        OneMorePoint(points + PointsOf(item, k), point);
        covered := covered + {point};
      }
    }
    SoundSnoc(batches, coverage, c);
    return Success(covered);
  }

  lemma PointsSnoc(batches: seq<Requirements>, coverage: seq<Coverage>, c: nat)
    requires c < |coverage|
    ensures Points(batches, coverage[..c + 1]) ==
            Points(batches, coverage[..c])
            + if Known(batches, coverage[c].batchId) then PointsOf(coverage[c], |coverage[c].positions|) else []
  {
    TakeSnoc(coverage, c + 1);
  }

  lemma OneMorePoint(points: seq<Point>, point: Point)
    requires NoRepeats(points) && point !in points
    ensures NoRepeats(points + [point])
  {
  }

  /** Where the batches require a position. */
  function RangesOf(batches: seq<Requirements>, point: Point): set<Range> {
    set i | 0 <= i < |batches| && batches[i].batchId == point.batchId && point.position in batches[i].positions ::
      batches[i].range
  }

  /** What is wrong with the coverage: a position its batch does not require, or requires in another range, or one that
      is covered twice. */
  ghost predicate Uncollectable(batches: seq<Requirements>, coverage: seq<Coverage>, error: PlanError) {
    match error
    case UnknownCoverage => exists c, k :: IsUnknown(batches, coverage, c, k)
    case RangeMismatch => exists c, k :: IsMisplaced(batches, coverage, c, k)
    case OverlappingCoverage => !NoRepeats(Points(batches, coverage))
    case _ => false
  }

  predicate IsUnknown(batches: seq<Requirements>, coverage: seq<Coverage>, c: nat, k: nat) {
    && c < |coverage| && k < |coverage[c].positions| && Known(batches, coverage[c].batchId)
    && forall i :: 0 <= i < |batches| && batches[i].batchId == coverage[c].batchId ==>
         coverage[c].positions[k] !in batches[i].positions
  }

  predicate IsMisplaced(batches: seq<Requirements>, coverage: seq<Coverage>, c: nat, k: nat) {
    && c < |coverage| && k < |coverage[c].positions|
    && exists i :: 0 <= i < |batches| && batches[i].batchId == coverage[c].batchId
         && coverage[c].positions[k] in batches[i].positions && batches[i].range != coverage[c].range
  }

  lemma Misplaced(batches: seq<Requirements>, coverage: seq<Coverage>, c: nat, k: nat)
    requires c < |coverage| && k < |coverage[c].positions| && Known(batches, coverage[c].batchId)
    requires !Required(batches, Point(coverage[c].batchId, coverage[c].positions[k]), coverage[c].range)
    ensures var point := Point(coverage[c].batchId, coverage[c].positions[k]);
            Uncollectable(batches, coverage,
                          if exists range :: range in RangesOf(batches, point) then RangeMismatch else UnknownCoverage)
  {
    var point := Point(coverage[c].batchId, coverage[c].positions[k]);
    assert forall i ::
        0 <= i < |batches| && batches[i].batchId == point.batchId && point.position in batches[i].positions ==>
          batches[i].range in RangesOf(batches, point);
    if range :| range in RangesOf(batches, point) {
      var i :| 0 <= i < |batches| && batches[i].batchId == point.batchId && point.position in batches[i].positions
               && batches[i].range == range;
      assert IsMisplaced(batches, coverage, c, k);
    } else {
      assert IsUnknown(batches, coverage, c, k);
    }
  }

  lemma UnknownPoint(batches: seq<Requirements>, coverage: seq<Coverage>, c: nat, k: nat)
    requires c < |coverage| && k < |coverage[c].positions| && Known(batches, coverage[c].batchId)
    requires !Required(batches, Point(coverage[c].batchId, coverage[c].positions[k]), coverage[c].range)
    ensures !SoundCoverage(batches, coverage)
  {
    assert !CoverageFits(batches, coverage[c], |coverage[c].positions|);
  }

  /** Points only grow. */
  lemma {:induction false} PointsPrefix(batches: seq<Requirements>, coverage: seq<Coverage>, c: nat)
    requires c <= |coverage|
    ensures Points(batches, coverage[..c]) <= Points(batches, coverage)
  {
    if c == |coverage| {
      assert coverage[..c] == coverage;
    } else {
      var init := coverage[..|coverage| - 1];
      PointsPrefix(batches, init, c);
      assert init[..c] == coverage[..c];
    }
  }

  lemma RepeatedPoint(batches: seq<Requirements>, coverage: seq<Coverage>, c: nat, k: nat, before: seq<Point>)
    requires c < |coverage| && k < |coverage[c].positions| && Known(batches, coverage[c].batchId)
    requires before == Points(batches, coverage[..c])
    requires Point(coverage[c].batchId, coverage[c].positions[k]) in before + PointsOf(coverage[c], k)
    ensures !SoundCoverage(batches, coverage) && Uncollectable(batches, coverage, OverlappingCoverage)
  {
    var item := coverage[c];
    TakeSnoc(coverage, c + 1);
    var upTo := Points(batches, coverage[..c + 1]);
    assert upTo == before + PointsOf(item, |item.positions|);
    PointsPrefix(batches, coverage, c + 1);
    var all := Points(batches, coverage);
    var seen := before + PointsOf(item, k);
    var a :| 0 <= a < |seen| && seen[a] == Point(item.batchId, item.positions[k]);
    assert upTo[a] == seen[a] && upTo[|before| + k] == Point(item.batchId, item.positions[k]);
    assert all[a] == all[|before| + k];
  }

  lemma SoundSnoc(batches: seq<Requirements>, coverage: seq<Coverage>, c: nat)
    requires c < |coverage| && SoundCoverage(batches, coverage[..c])
    requires CoverageFits(batches, coverage[c], |coverage[c].positions|)
    requires Known(batches, coverage[c].batchId) ==>
               NoRepeats(Points(batches, coverage[..c]) + PointsOf(coverage[c], |coverage[c].positions|))
    ensures SoundCoverage(batches, coverage[..c + 1])
  {
    TakeSnoc(coverage, c + 1);
  }

  /** There is only one such prefix. */
  lemma PrefixIsUnique(batches: seq<Requirements>, coverage: seq<Coverage>, a: nat, b: nat)
    requires CoveredPrefix(batches, coverage, a) && CoveredPrefix(batches, coverage, b)
    ensures a == b
  {
  }

  method BatchesAreDistinct(batches: seq<Requirements>) returns (distinct: bool)
    ensures distinct <==> DistinctBatches(batches)
  {
    var known: set<nat> := {};
    for i := 0 to |batches|
      invariant forall id :: id in known <==> exists j :: 0 <= j < i && batches[j].batchId == id
      invariant DistinctBatches(batches[..i])
    {
      if batches[i].batchId in known {
        return false;
      }
      known := known + {batches[i].batchId};
    }
    assert batches[..|batches|] == batches;
    return true;
  }

  /** Plans the next checkpoint. It fails exactly when batches repeat, coverage is unsound, or a batch up to the first
      incomplete one does not begin where its predecessor ends; otherwise its target is the end of the longest
      completely covered prefix, and there is no plan exactly when that prefix is empty. */
  method PlanCheckpoint(current: nat, batches: seq<Requirements>, coverage: seq<Coverage>)
    returns (r: Result<Option<CheckpointPlan>, PlanError>, ghost n: nat)
    ensures CoveredPrefix(batches, coverage, n)
    ensures r.Success? <==>
              && DistinctBatches(batches) && SoundCoverage(batches, coverage)
              && Contiguous(current, batches, Min(n + 1, |batches|))
    ensures r.Success? ==>
              r.value == if n == 0 then None else Some(CheckpointPlan(current, batches[n - 1].range.end))
    ensures r.Success? && r.value.Some? ==> r.value.value.target > current
    ensures r.Failure? ==>
              match r.error
              case DuplicateBatches => !DistinctBatches(batches)
              case NotContiguous => !Contiguous(current, batches, Min(n + 1, |batches|))
              case _ => Uncollectable(batches, coverage, r.error)
  {
    n := PrefixExists(batches, coverage, 0);
    var distinct := BatchesAreDistinct(batches);
    if !distinct {
      return Failure(DuplicateBatches), n;
    }
    var collected := CollectCoverage(batches, coverage);
    if collected.Failure? {
      return Failure(collected.error), n;
    }
    hide DistinctBatches, SoundCoverage, Points, CoveredPrefix, Contiguous;
    var target := Target(current, batches, collected.value, coverage, n);
    if target.Failure? {
      return Failure(target.error), n;
    }
    return Success(if target.value != current then Some(CheckpointPlan(current, target.value)) else None), n;
  }

  lemma StartsAt(current: nat, batches: seq<Requirements>)
    ensures EndOf(current, batches, 0) == current
  {
  }

  lemma EndsAt(current: nat, batches: seq<Requirements>, i: nat)
    requires i < |batches|
    ensures EndOf(current, batches, i + 1) == batches[i].range.end
  {
  }

  lemma CompleteIffCovered(batches: seq<Requirements>, covered: set<Point>, coverage: seq<Coverage>, i: nat)
    requires i < |batches| && forall point :: point in covered <==> point in Points(batches, coverage)
    ensures Complete(batches, coverage, i) <==>
              forall p :: p in batches[i].positions ==> Point(batches[i].batchId, p) in covered
  {
    hide Points;
  }

  /** Walks the batches up to the first incomplete one. */
  method Target(current: nat, batches: seq<Requirements>, covered: set<Point>, ghost coverage: seq<Coverage>,
                ghost n: nat)
    returns (r: Result<nat, PlanError>)
    requires CoveredPrefix(batches, coverage, n)
    requires forall point :: point in covered <==> point in Points(batches, coverage)
    ensures n <= |batches|
    ensures r.Success? <==> Contiguous(current, batches, Min(n + 1, |batches|))
    ensures r.Success? ==> r.value == EndOf(current, batches, n) && (n > 0 ==> r.value > current)
    ensures r.Failure? ==> r.error == NotContiguous
  {
    hide Points, Complete, EndOf;
    StartsAt(current, batches);
    var target, i := current, 0;
    while i < |batches|
      invariant 0 <= i <= n
      invariant target == EndOf(current, batches, i) && (i > 0 ==> target > current)
      invariant Contiguous(current, batches, i)
      decreases |batches| - i
    {
      if batches[i].range.start != target {
        return Failure(NotContiguous);
      }
      if exists p :: p in batches[i].positions && Point(batches[i].batchId, p) !in covered {
        CompleteIffCovered(batches, covered, coverage, i);
        assert i == n;
        break;
      }
      CompleteIffCovered(batches, covered, coverage, i);
      EndsAt(current, batches, i);
      target := batches[i].range.end;
      i := i + 1;
    }
    return Success(target);
  }

  // ---------- plans and the spool ----------

  /** The batches are those of the spool from frame `first` on. */
  ghost predicate Lists(batches: seq<Requirements>, frames: seq<Batch>, first: nat, hash: Hash) {
    && first + |batches| <= |frames|
    && forall i :: 0 <= i < |batches| ==>
         && batches[i].range.start == End(frames, first + i, hash)
         && batches[i].range.end == End(frames, first + i + 1, hash)
  }

  /** A plan over the batches of the spool always targets a frame boundary, which is what advancing asks for. */
  lemma PlanTargetsBoundary(current: nat, batches: seq<Requirements>, frames: seq<Batch>, first: nat, n: nat,
                            hash: Hash)
    requires Lists(batches, frames, first, hash) && 0 < n <= |batches|
    ensures IsBoundary(frames, batches[n - 1].range.end, hash)
  {
    assert BoundaryAt(frames, batches[n - 1].range.end, first + n, hash);
  }

  /** The batches after the checkpoint are always contiguous, so planning never fails on them for that. */
  lemma SpoolBatchesAreContiguous(batches: seq<Requirements>, frames: seq<Batch>, first: nat, hash: Hash)
    requires Lists(batches, frames, first, hash)
    ensures Contiguous(End(frames, first, hash), batches, |batches|)
  {
    hide End;
    forall i | 0 <= i < |batches| ensures batches[i].range.start == EndOf(End(frames, first, hash), batches, i) {
      assert i > 0 ==> batches[i - 1].range.end == End(frames, first + (i - 1) + 1, hash);
    }
  }
}
