/** The limit on the records of the output-recovery log, which replay enforces and recording does not. */
module OutputLogLimit {
  import opened Basics
  import opened ByteStrings
  import opened Frames
  import opened Checkpoints
  import opened OutputLog

  const FRAME_BYTES: nat := LOG_HEADER_BYTES + MAX_PAYLOAD_BYTES + LOG_FOOTER_BYTES

  function NumberedId(k: nat): Uuid {
    BigEndian(k, 6) + [0x70, 0, 0x80] + seq(7, _ => 0)
  }

  lemma NumberedIdsDiffer(j: nat, k: nat)
    requires j < Values(6) && k < Values(6) && j != k
    ensures NumberedId(j) != NumberedId(k)
  {
    NumberOfBigEndian(j, 6);
    NumberOfBigEndian(k, 6);
    hide BigEndian, Number, Values;
    assert NumberedId(j)[..6] == BigEndian(j, 6) && NumberedId(k)[..6] == BigEndian(k, 6);
  }

  function OneRow(k: nat): (coverage: seq<Coverage>)
    ensures CoverageOk(coverage)
  {
    var coverage := [Coverage(k, RawRange.Range(k, k + 1), [0])];
    assert coverage[..0] == [] && CoveredPositions(coverage[..0]) == 0;
    assert CoveredPositions(coverage) == 1;
    coverage
  }

  /** The first revision of a segment of its own, with one row from a batch of its own. */
  function Numbered(k: nat, root: nat): OutputRecord {
    RawRecord.OutputRecord(NumberedId(k), 1, SegmentOutput, k, root, OneRow(k), 0)
  }

  predicate Fits(record: OutputRecord, codec: Codec) {
    codec.constructed(record) && |codec.encode(record)| <= MAX_PAYLOAD_BYTES
  }

  function Many(n: nat, root: nat): seq<OutputRecord> {
    seq(n, k requires 0 <= k < n => Numbered(k, root))
  }

  /** Records of so many identities can all be recorded, one after the other. */
  lemma {:induction false} ManyAreAdmissible(n: nat, root: nat, codec: Codec)
    requires n <= Values(6) && forall k :: 0 <= k < n ==> Fits(Numbered(k, root), codec)
    ensures Admissible(Many(n, root), root, codec) && |Replay(Many(n, root))| == n
    ensures AllNumbered(Replay(Many(n, root)), n)
  {
    hide RecordOk, CoverageOk, Values, NumberedId, Replay, Admissible, TransitionOk, ObjectIsUnique;
    if n == 0 {
      assert Many(n, root) == [];
      NothingRecorded(root, codec);
    } else {
      ManyAreAdmissible(n - 1, root, codec);
      var before, last := Many(n - 1, root), Numbered(n - 1, root);
      assert Many(n, root) == before + [last];
      NextIsAdmitted(Replay(before), n - 1, root);
      assert Fits(last, codec);
      AdmissibleSnoc(before, last, root, codec);
      OneRecordMore(Replay(before), last, n);
    }
  }

  /** Every record is held under the identity of its number. */
  predicate AllNumbered(records: Records, n: nat) {
    forall id :: id in records ==> records[id].objectId < n && id == NumberedId(records[id].objectId)
  }

  lemma NothingRecorded(root: nat, codec: Codec)
    ensures Admissible([], root, codec) && Replay([]) == map[]
  {
  }

  lemma NextIsAdmitted(records: Records, n: nat, root: nat)
    requires AllNumbered(records, n) && n < Values(6)
    ensures NumberedId(n) !in records
    ensures TransitionOk(records, Numbered(n, root)) && ObjectIsUnique(records, Numbered(n, root))
  {
    hide RecordOk, CoverageOk, Values, NumberedId;
    forall id | id in records ensures id != NumberedId(n) && records[id].objectId != n {
      NumberedIdsDiffer(records[id].objectId, n);
    }
  }

  lemma OneRecordMore(records: Records, last: OutputRecord, n: nat)
    requires n > 0 && AllNumbered(records, n - 1) && last.id !in records
    requires last.objectId == n - 1 && last.id == NumberedId(n - 1)
    ensures |records[last.id := last]| == |records| + 1 && AllNumbered(records[last.id := last], n)
  {
    hide NumberedId;
    var more := records[last.id := last];
    assert more.Keys == records.Keys + {last.id};
    assert |more| == |more.Keys| && |records| == |records.Keys|;
  }

  lemma {:induction false} ManyFit(n: nat, root: nat, codec: Codec, hash: Hash)
    requires forall k :: 0 <= k < n ==> Fits(Numbered(k, root), codec)
    ensures |LogFile(Many(n, root), codec, hash)| <= n * FRAME_BYTES
  {
    hide RecordOk, CoverageOk, LogFrame, NumberedId;
    if n == 0 {
      assert Many(n, root) == [];
    } else {
      ManyFit(n - 1, root, codec, hash);
      assert Many(n, root) == Many(n - 1, root) + [Numbered(n - 1, root)];
      LogFileSnoc(Many(n - 1, root), Numbered(n - 1, root), codec, hash);
      assert n * FRAME_BYTES == (n - 1) * FRAME_BYTES + FRAME_BYTES;
    }
  }

  /** A log of one identity more than the limit, or of any number more, was recorded without objection and is refused by
      replay. */
  lemma RecordedIsRefused(n: nat, root: nat, codec: Codec, hash: Hash)
    requires Faithful(codec) && 1_000_000 < n <= 1_000_000_000
    requires forall k :: 0 <= k < n ==> Fits(Numbered(k, root), codec)
    ensures Admissible(Many(n, root), root, codec) && |Replay(Many(n, root))| == n
    ensures ScanFrom(LogFile(Many(n, root), codec, hash), 0, map[], root, codec, hash) == Failure(LogCorrupt)
  {
    ValuesOfSix();
    hide Many, LogFile, ScanFrom, Replay, Admissible, Values;
    ManyAreAdmissible(n, root, codec);
    ManyFit(n, root, codec, hash);
    assert n * FRAME_BYTES <= 1_000_000_000 * FRAME_BYTES <= U64_MAX;
    var file := LogFile(Many(n, root), codec, hash);
    ReplayRebuilds(Many(n, root), [], root, codec, hash);
    assert file + [] == file;
  }

  lemma ValuesOfSix()
    ensures Values(6) == 0x1_0000_0000_0000
  {
    assert Values(3) == 0x100_0000;
  }
}
