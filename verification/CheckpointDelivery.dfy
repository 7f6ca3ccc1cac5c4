/** From published outputs to the checkpoint of the spool: planning over what the reader handed out, then advancing. */
module CheckpointDelivery {
  import opened Basics
  import opened Checkpoints
  import opened FrameScan
  import opened SpoolOrder
  import opened ReaderPlace
  import opened SpoolReader
  import opened Spooling

  lemma Contiguously(current: nat, batches: seq<Requirements>, n: nat)
    requires Contiguous(current, batches, |batches|) && n <= |batches|
    ensures Contiguous(current, batches, n)
  {
  }

  /** Plans a checkpoint over batches the reader has handed out and installs it. With sound coverage this cannot fail,
      and the checkpoint passes exactly the frames up to the first batch that is not completely covered. */
  method CheckpointDelivered(consumer: Consumer, batches: seq<Requirements>, coverage: seq<Coverage>, ghost first: nat)
    returns (r: Result<Option<nat>, PlanError>, ghost n: nat)
    requires consumer.Valid() && consumer.generation == consumer.spool.generation && !consumer.spool.failed
    requires BoundaryAt(consumer.spool.batches, consumer.spool.checkpoint, first, consumer.spool.hash)
    requires Lists(batches, consumer.spool.batches, first, consumer.spool.hash) && first + |batches| <= consumer.index
    modifies consumer.spool`checkpoint, consumer.spool`stored
    ensures consumer.Valid() && (old(consumer.IsInStep()) ==> consumer.IsInStep())
    ensures CoveredPrefix(batches, coverage, n)
    ensures r.Success? <==> DistinctBatches(batches) && SoundCoverage(batches, coverage)
    ensures BoundaryAt(consumer.spool.batches, consumer.spool.checkpoint,
                       first + if r.Success? then n else 0, consumer.spool.hash)
    ensures r.Success? ==> r.value == if n == 0 then None else Some(consumer.spool.checkpoint)
  {
    hide DistinctBatches, SoundCoverage, Contiguous, IsBoundary, Complete, End, Consumer.Valid, Consumer.IsInStep;
    var plan;
    plan, n := PlanCheckpoint(consumer.spool.checkpoint, batches, coverage);
    SpoolBatchesAreContiguous(batches, consumer.spool.batches, first, consumer.spool.hash);
    Contiguously(consumer.spool.checkpoint, batches, Min(n + 1, |batches|));
    if plan.Failure? {
      return Failure(plan.error), n;
    }
    if plan.value.None? {
      return Success(None), n;
    }
    PlanTargetsBoundary(consumer.spool.checkpoint, batches, consumer.spool.batches, first, n, consumer.spool.hash);
    WithinReach(consumer, first + n);
    assert batches[n - 1].range.end == End(consumer.spool.batches, first + (n - 1) + 1, consumer.spool.hash);
    var advanced := consumer.Advance(plan.value.value);
    return Success(Some(plan.value.value.target)), n;
  }

  /** What the reader has handed out is behind it and committed. */
  lemma WithinReach(consumer: Consumer, k: nat)
    requires consumer.Valid() && consumer.generation == consumer.spool.generation && k <= consumer.index
    ensures consumer.index <= |consumer.spool.batches|
    ensures End(consumer.spool.batches, k, consumer.spool.hash) <= consumer.position
    ensures End(consumer.spool.batches, k, consumer.spool.hash) <= consumer.spool.committed
  {
    hide End, AllMake, Spool.Valid;
    CommittedEnd(consumer.spool);
    EndsDiffer(consumer.spool.batches, k, consumer.index, consumer.spool.hash);
    EndsDiffer(consumer.spool.batches, consumer.index, consumer.View().settled, consumer.spool.hash);
  }
}
