/** The output-recovery log: an append-only file of record revisions, replayed into a map after a crash. */
module OutputLog {
  import opened Basics
  import opened ByteStrings
  import opened Frames
  import opened Checkpoints

  const RECOVERY_MAGIC: seq<Byte> := [0x45, 0x4C, 0x55, 0x43, 0x4F, 0x52, 0x30, 0x31]
  const RECOVERY_COMMIT_MAGIC: seq<Byte> := [0x45, 0x4C, 0x55, 0x43, 0x4F, 0x43, 0x30, 0x31]
  const LOG_VERSION: nat := 1
  const LOG_HEADER_BYTES: nat := 76
  const LOG_FOOTER_BYTES: nat := 48
  const MAX_PAYLOAD_BYTES: nat := 8 * 1024 * 1024
  const MAX_RECORDS: nat := 1_000_000

  datatype LogError = LogConflict | LogCorrupt

  datatype OutputKind = SegmentOutput | DeadLetterOutput

  type Revision = n: nat | 0 < n <= U64_MAX witness 1

  const MAX_COVERED_BATCHES: nat := 50_000
  const MAX_COVERED_POSITIONS: nat := 100_000

  function CoveredPositions(coverage: seq<Coverage>): nat {
    if coverage == [] then 0 else CoveredPositions(coverage[..|coverage| - 1]) + |coverage[|coverage| - 1].positions|
  }

  predicate PositionsOk(positions: seq<nat>) {
    positions != [] && forall a, b :: 0 <= a < b < |positions| ==> positions[a] < positions[b]
  }

  /** Some positions of some batches: each batch once, one after the other in the spool, with rising positions, and
      not too many of either. */
  predicate CoverageOk(coverage: seq<Coverage>) {
    && 0 < |coverage| <= MAX_COVERED_BATCHES && CoveredPositions(coverage) <= MAX_COVERED_POSITIONS
    && (forall c :: 0 <= c < |coverage| ==> PositionsOk(coverage[c].positions))
    && (forall a, b :: 0 <= a < b < |coverage| ==>
          coverage[a].batchId != coverage[b].batchId && coverage[a].range.end <= coverage[b].range.start)
  }

  /** One revision of an output record. `root` is the managed root its object key lies under, `details` the rest of
      the object's metadata, numbered like the root and the object. The row count of a segment and the batch of a dead
      letter are those its coverage tells. */
  datatype RawRecord = OutputRecord(
    id: Uuid, revision: Revision, kind: OutputKind, objectId: nat, root: nat, coverage: seq<Coverage>, details: nat)

  /** What constructing a record and decoding one check of it. */
  predicate RecordOk(record: RawRecord) {
    CoverageOk(record.coverage) && (record.kind == DeadLetterOutput ==> |record.coverage| == 1)
  }

  type OutputRecord = record: RawRecord | RecordOk(record)
    witness RawRecord.OutputRecord(seq(16, i => if i == 8 then 0x80 else 0x70), 1, SegmentOutput, 0, 0,
                                   [Coverage(0, RawRange.Range(0, 1), [0])], 0)

  /** Serialization of records, relative to a root. Not every number numbers something, so `constructed` tells the
      records there can be. */
  datatype Codec = Codec(
    encode: OutputRecord -> seq<Byte>, decode: (seq<Byte>, nat) -> Option<OutputRecord>,
    constructed: OutputRecord -> bool)

  /** Decoding a record that was constructed, under its own root, gives it back. */
  ghost predicate Faithful(codec: Codec) {
    forall record :: codec.constructed(record) ==>
      codec.encode(record) != [] && codec.decode(codec.encode(record), record.root) == Some(record)
  }

  type Records = map<Uuid, OutputRecord>

  // ---------- transitions ----------

  predicate TransitionOk(records: Records, next: OutputRecord) {
    if next.id !in records then next.revision == 1
    else
      var current := records[next.id];
      && current.coverage == next.coverage && current.kind == next.kind
      && current.revision + 1 <= U64_MAX && current.revision + 1 == next.revision
  }

  predicate ObjectIsUnique(records: Records, next: OutputRecord) {
    forall id :: id in records && id != next.id ==> records[id].objectId != next.objectId
  }

  /** The next revision may be appended. */
  predicate Admits(records: Records, next: OutputRecord, root: nat, codec: Codec) {
    && next.root == root && TransitionOk(records, next) && ObjectIsUnique(records, next)
    && codec.constructed(next) && |codec.encode(next)| <= MAX_PAYLOAD_BYTES
  }

  function Replay(history: seq<OutputRecord>): Records {
    if history == [] then map[]
    else
      var last := history[|history| - 1];
      Replay(history[..|history| - 1])[last.id := last]
  }

  predicate Admissible(history: seq<OutputRecord>, root: nat, codec: Codec) {
    forall k :: 0 <= k < |history| ==> Admits(Replay(history[..k]), history[k], root, codec)
  }

  /** The latest revision of every identity is what the map holds. */
  lemma {:induction false} ReplayHoldsLatest(history: seq<OutputRecord>, i: nat)
    requires i < |history| && forall j :: i < j < |history| ==> history[j].id != history[i].id
    ensures history[i].id in Replay(history) && Replay(history)[history[i].id] == history[i]
  {
    var n := |history| - 1;
    if i < n {
      var init := history[..n];
      ReplayHoldsLatest(init, i);
    }
  }

  /** How often an identity was recorded. */
  function Revisions(history: seq<OutputRecord>, id: Uuid): nat {
    if history == [] then 0
    else Revisions(history[..|history| - 1], id) + if history[|history| - 1].id == id then 1 else 0
  }

  /** The map holds exactly the recorded identities, each at the revision that counts its recordings. */
  lemma {:induction false} RevisionsCount(history: seq<OutputRecord>, id: Uuid, root: nat, codec: Codec)
    requires Admissible(history, root, codec)
    ensures id in Replay(history) <==> Revisions(history, id) > 0
    ensures id in Replay(history) ==>
              Replay(history)[id].revision == Revisions(history, id) && Replay(history)[id].id == id
  {
    if history != [] {
      var n := |history| - 1;
      var init := history[..n];
      AdmissiblePrefix(history, n, root, codec);
      RevisionsCount(init, id, root, codec);
      assert Admits(Replay(history[..n]), history[n], root, codec);
    }
  }

  lemma AdmissiblePrefix(history: seq<OutputRecord>, n: nat, root: nat, codec: Codec)
    requires Admissible(history, root, codec) && n <= |history|
    ensures Admissible(history[..n], root, codec)
  {
    forall k | 0 <= k < n ensures Admits(Replay(history[..n][..k]), history[..n][k], root, codec) {
      assert history[..n][..k] == history[..k];
    }
  }

  /** The record, or a later revision of it, is held. */
  predicate Keeps(records: Records, record: OutputRecord) {
    && record.id in records && records[record.id].coverage == record.coverage && records[record.id].kind == record.kind
    && records[record.id].revision >= record.revision
    && (records[record.id].revision == record.revision ==> records[record.id] == record)
  }

  lemma KeptByTransition(records: Records, next: OutputRecord, record: OutputRecord)
    requires Keeps(records, record) && TransitionOk(records, next)
    ensures Keeps(records[next.id := next], record)
  {
  }

  /** Across all its revisions a record keeps its coverage and its kind, and revisions rise. */
  lemma {:induction false} RecordsKeepTheirCoverage(history: seq<OutputRecord>, i: nat, root: nat, codec: Codec)
    requires Admissible(history, root, codec) && i < |history|
    ensures Keeps(Replay(history), history[i])
  {
    hide Keeps, TransitionOk, ObjectIsUnique, Replay;
    var n := |history| - 1;
    ReplaySnoc(history, n);
    assert history[..n + 1] == history;
    if i < n {
      AdmissiblePrefix(history, n, root, codec);
      RecordsKeepTheirCoverage(history[..n], i, root, codec);
      assert Admits(Replay(history[..n]), history[n], root, codec);
      KeptByTransition(Replay(history[..n]), history[n], history[i]);
    } else {
      KeepsNewest(Replay(history[..n]), history[n]);
    }
  }

  lemma KeepsNewest(records: Records, record: OutputRecord)
    ensures Keeps(records[record.id := record], record)
  {
  }

  predicate DistinctObjects(records: Records) {
    forall a, b :: a in records && b in records && a != b ==> records[a].objectId != records[b].objectId
  }

  /** Distinct records never share an object. */
  lemma {:induction false} ObjectsStayDistinct(history: seq<OutputRecord>, root: nat, codec: Codec)
    requires Admissible(history, root, codec)
    ensures DistinctObjects(Replay(history))
  {
    if history != [] {
      var n := |history| - 1;
      AdmissiblePrefix(history, n, root, codec);
      ObjectsStayDistinct(history[..n], root, codec);
      assert Admits(Replay(history[..n]), history[n], root, codec);
    }
  }

  // ---------- frames ----------

  function LogPreamble(): seq<Byte> {
    RECOVERY_MAGIC + BigEndian(LOG_VERSION, 2) + BigEndian(LOG_HEADER_BYTES, 2)
  }

  function LogHeader(record: OutputRecord, payload: seq<Byte>, hash: Hash): (header: seq<Byte>)
    ensures |header| == LOG_HEADER_BYTES
  {
    LogPreamble() + BigEndian(|payload|, 8) + record.id + BigEndian(record.revision, 8) + hash(payload)
  }

  function LogFooter(header: seq<Byte>, payload: seq<Byte>, hash: Hash): (footer: seq<Byte>)
    ensures |footer| == LOG_FOOTER_BYTES
  {
    hash(header + payload) + RECOVERY_COMMIT_MAGIC + BigEndian(|payload| + LOG_HEADER_BYTES + LOG_FOOTER_BYTES, 8)
  }

  /** The frame of a record whose payload may be any text of it. */
  function FrameWith(record: OutputRecord, payload: seq<Byte>, hash: Hash): (frame: seq<Byte>)
    ensures |frame| == LOG_HEADER_BYTES + |payload| + LOG_FOOTER_BYTES
  {
    var header := LogHeader(record, payload, hash);
    header + payload + LogFooter(header, payload, hash)
  }

  function LogFrame(record: OutputRecord, codec: Codec, hash: Hash): (frame: seq<Byte>)
    ensures |frame| == LOG_HEADER_BYTES + |codec.encode(record)| + LOG_FOOTER_BYTES
  {
    FrameWith(record, codec.encode(record), hash)
  }

  function LogFile(history: seq<OutputRecord>, codec: Codec, hash: Hash): seq<Byte> {
    if history == [] then []
    else LogFile(history[..|history| - 1], codec, hash) + LogFrame(history[|history| - 1], codec, hash)
  }

  datatype LogHeaderFields = LogHeaderFields(payloadBytes: nat, id: seq<Byte>, revision: nat, payloadDigest: seq<Byte>)

  function DecodeLogHeader(header: seq<Byte>): Result<LogHeaderFields, LogError>
    requires |header| == LOG_HEADER_BYTES
  {
    if header[..8] != RECOVERY_MAGIC then Failure(LogCorrupt)
    else if Number(header[8..10]) != LOG_VERSION then Failure(LogCorrupt)
    else if Number(header[10..12]) != LOG_HEADER_BYTES then Failure(LogCorrupt)
    else
      var payloadBytes := Number(header[12..20]);
      if payloadBytes == 0 || payloadBytes > MAX_PAYLOAD_BYTES then Failure(LogCorrupt)
      else Success(LogHeaderFields(payloadBytes, header[20..36], Number(header[36..44]), header[44..76]))
  }

  function ValidateIncompleteLogHeader(prefix: seq<Byte>): Result<(), LogError> {
    var magic := if |prefix| < 8 then |prefix| else 8;
    if prefix[..magic] != RECOVERY_MAGIC[..magic] then Failure(LogCorrupt)
    else if |prefix| >= 10 && Number(prefix[8..10]) != LOG_VERSION then Failure(LogCorrupt)
    else if |prefix| >= 12 && Number(prefix[10..12]) != LOG_HEADER_BYTES then Failure(LogCorrupt)
    else if |prefix| >= 20 && (Number(prefix[12..20]) == 0 || Number(prefix[12..20]) > MAX_PAYLOAD_BYTES)
      then Failure(LogCorrupt)
    else Success(())
  }

  predicate FooterMatches(header: seq<Byte>, payload: seq<Byte>, footer: seq<Byte>, frameBytes: nat, hash: Hash)
    requires |footer| == LOG_FOOTER_BYTES
  {
    footer[..32] == hash(header + payload) && footer[32..40] == RECOVERY_COMMIT_MAGIC
        && Number(footer[40..48]) == frameBytes
  }

  lemma LogHeaderFieldsOf(record: OutputRecord, payload: seq<Byte>, hash: Hash)
    requires 0 < |payload| <= MAX_PAYLOAD_BYTES
    ensures DecodeLogHeader(LogHeader(record, payload, hash)) ==
            Success(LogHeaderFields(|payload|, record.id, record.revision, hash(payload)))
  {
    hide BigEndian, Number, Values;
    var h := LogHeader(record, payload, hash);
    ValuesOfWidths();
    NumberOfBigEndian(LOG_VERSION, 2);
    NumberOfBigEndian(LOG_HEADER_BYTES, 2);
    NumberOfBigEndian(|payload|, 8);
    NumberOfBigEndian(record.revision, 8);
    assert h[..8] == RECOVERY_MAGIC && h[8..10] == BigEndian(LOG_VERSION, 2);
    assert h[10..12] == BigEndian(LOG_HEADER_BYTES, 2) && h[12..20] == BigEndian(|payload|, 8);
    assert h[20..36] == record.id && h[36..44] == BigEndian(record.revision, 8) && h[44..76] == hash(payload);
  }

  lemma LogFooterMatches(header: seq<Byte>, payload: seq<Byte>, hash: Hash)
    requires |payload| <= MAX_PAYLOAD_BYTES
    ensures FooterMatches(header, payload, LogFooter(header, payload, hash),
                          |payload| + LOG_HEADER_BYTES + LOG_FOOTER_BYTES, hash)
  {
    var footer := LogFooter(header, payload, hash);
    ValuesOfWidths();
    NumberOfBigEndian(|payload| + LOG_HEADER_BYTES + LOG_FOOTER_BYTES, 8);
    hide BigEndian, Number, Values;
    assert footer[40..48] == BigEndian(|payload| + LOG_HEADER_BYTES + LOG_FOOTER_BYTES, 8);
  }

  // ---------- the scan ----------

  /** Reads one frame: the record and where it ends, nothing for an incomplete append, or corruption. */
  function ReadFrame(file: seq<Byte>, position: nat, root: nat, codec: Codec, hash: Hash)
    : Result<Option<(OutputRecord, nat)>, LogError>
    requires position < |file|
  {
    if |file| - position < LOG_HEADER_BYTES then
      if ValidateIncompleteLogHeader(file[position..]).Success? then Success(None) else Failure(LogCorrupt)
    else
      var header := file[position..position + LOG_HEADER_BYTES];
      var decoded := DecodeLogHeader(header);
      if decoded.Failure? then Failure(LogCorrupt)
      else
        var frameBytes := LOG_HEADER_BYTES + decoded.value.payloadBytes + LOG_FOOTER_BYTES;
        if position + frameBytes > U64_MAX then Failure(LogCorrupt)
        else if position + frameBytes > |file| then Success(None)
        else
          var payload := file[position + LOG_HEADER_BYTES..position + LOG_HEADER_BYTES + decoded.value.payloadBytes];
          var footer := file[position + LOG_HEADER_BYTES + decoded.value.payloadBytes..position + frameBytes];
          if hash(payload) != decoded.value.payloadDigest || !FooterMatches(header, payload, footer, frameBytes, hash)
            then Failure(LogCorrupt)
          else
            var record := codec.decode(payload, root);
            if record.None? || record.value.id != decoded.value.id || record.value.revision != decoded.value.revision
              then Failure(LogCorrupt)
            else Success(Some((record.value, position + frameBytes)))
  }

  function ScanFrom(file: seq<Byte>, position: nat, records: Records, root: nat, codec: Codec, hash: Hash)
    : Result<(Records, nat), LogError>
    requires position <= |file|
    decreases |file| - position
  {
    if position == |file| then Success((records, position))
    else
      var frame := ReadFrame(file, position, root, codec, hash);
      if frame.Failure? then Failure(frame.error)
      else if frame.value.None? then Success((records, position))
      else
        var record := frame.value.value.0;
        if !TransitionOk(records, record) || !ObjectIsUnique(records, record) then Failure(LogCorrupt)
        else if |records[record.id := record]| > MAX_RECORDS then Failure(LogCorrupt)
        else ScanFrom(file, frame.value.value.1, records[record.id := record], root, codec, hash)
  }

  /** Scans a log. It succeeds exactly on the logs of histories of no more records than a replay allows, and then
      rebuilds those records and finds where the last whole frame ends. */
  method ScanLog(file: seq<Byte>, root: nat, codec: Codec, hash: Hash) returns (r: Result<(Records, nat), LogError>)
    ensures forall history, payloads, tail :: IsLog(file, history, payloads, tail, root, codec, hash) ==>
              r == if |Replay(history)| <= MAX_RECORDS
                   then Success((Replay(history), |Written(history, payloads, hash)|))
                   else Failure(LogCorrupt)
    ensures r.Success? ==> exists history, payloads, tail :: IsLog(file, history, payloads, tail, root, codec, hash)
    ensures r == ScanFrom(file, 0, map[], root, codec, hash)
  {
    hide IsLog, Written, Replay;
    ScanMeans(file, root, codec, hash);
    var position: nat, records: Records := 0, map[];
    while position < |file|
      invariant position <= |file|
      invariant ScanFrom(file, 0, map[], root, codec, hash) == ScanFrom(file, position, records, root, codec, hash)
      decreases |file| - position
    {
      var frame := ReadFrame(file, position, root, codec, hash);
      if frame.Failure? {
        return Failure(frame.error);
      }
      if frame.value.None? {
        break;
      }
      var record := frame.value.value.0;
      if !TransitionOk(records, record) || !ObjectIsUnique(records, record) {
        return Failure(LogCorrupt);
      }
      records := records[record.id := record];
      if |records| > MAX_RECORDS {
        return Failure(LogCorrupt);
      }
      position := frame.value.value.1;
    }
    return Success((records, position));
  }

  // ---------- replay ----------

  lemma ScanMeans(file: seq<Byte>, root: nat, codec: Codec, hash: Hash)
    ensures var r := ScanFrom(file, 0, map[], root, codec, hash);
            && (forall history, payloads, tail :: IsLog(file, history, payloads, tail, root, codec, hash) ==>
                  r == if |Replay(history)| <= MAX_RECORDS
                       then Success((Replay(history), |Written(history, payloads, hash)|))
                       else Failure(LogCorrupt))
            && (r.Success? ==> exists history, payloads, tail ::
                IsLog(file, history, payloads, tail, root, codec, hash))
  {
    hide ScanFrom, Written, Replay, Continues, IncompleteAppend, TextOf;
    forall history, payloads, tail | IsLog(file, history, payloads, tail, root, codec, hash)
      ensures ScanFrom(file, 0, map[], root, codec, hash) ==
              if |Replay(history)| <= MAX_RECORDS then Success((Replay(history), |Written(history, payloads, hash)|))
              else Failure(LogCorrupt)
    {
      NothingWrittenYet(history, payloads, hash);
      LogIsAccepted(file, 0, history, payloads, tail, root, codec, hash);
    }
    if ScanFrom(file, 0, map[], root, codec, hash).Success? {
      NothingScanned(file, root, codec, hash);
      var all, texts, tail := AcceptedIsLog(file, 0, [], [], root, codec, hash);
    }
  }

  lemma NothingScanned(file: seq<Byte>, root: nat, codec: Codec, hash: Hash)
    ensures Scanned(file, 0, [], [], root, codec, hash) && Replay([]) == map[]
  {
  }

  lemma FrameParts(record: OutputRecord, payload: seq<Byte>, before: seq<Byte>, more: seq<Byte>, hash: Hash)
    ensures var header := LogHeader(record, payload, hash);
            var file := before + FrameWith(record, payload, hash) + more;
            var at := |before|;
            && file[at..at + LOG_HEADER_BYTES] == header
            && file[at + LOG_HEADER_BYTES..at + LOG_HEADER_BYTES + |payload|] == payload
            && file[at + LOG_HEADER_BYTES + |payload|..at + |FrameWith(record, payload, hash)|] ==
                LogFooter(header, payload, hash)
  {
    hide RecordOk, RecordOk, LogHeader, LogFooter;
  }

  /** A frame in the file reads back as its record. */
  lemma ReadsFrame(
      record: OutputRecord, payload: seq<Byte>, before: seq<Byte>, more: seq<Byte>, root: nat, codec: Codec, hash: Hash)
    requires TextOf(payload, record, root, codec)
    requires |before| + |FrameWith(record, payload, hash)| <= U64_MAX
    ensures var file := before + FrameWith(record, payload, hash) + more;
            ReadFrame(file, |before|, root, codec, hash) ==
                Success(Some((record, |before| + |FrameWith(record, payload, hash)|)))
  {
    var header := LogHeader(record, payload, hash);
    FrameParts(record, payload, before, more, hash);
    LogHeaderFieldsOf(record, payload, hash);
    LogFooterMatches(header, payload, hash);
    hide LogHeader, LogFooter, FrameWith, DecodeLogHeader, FooterMatches;
  }

  /** A payload that is read as the record. */
  predicate TextOf(payload: seq<Byte>, record: OutputRecord, root: nat, codec: Codec) {
    0 < |payload| <= MAX_PAYLOAD_BYTES && codec.decode(payload, root) == Some(record)
  }

  /** What is read as a frame is the frame of the record that was read. */
  lemma FrameIsRead(file: seq<Byte>, position: nat, root: nat, codec: Codec, hash: Hash) returns (payload: seq<Byte>)
    requires position < |file|
    requires var read := ReadFrame(file, position, root, codec, hash); read.Success? && read.value.Some?
    ensures var (record, next) := ReadFrame(file, position, root, codec, hash).value.value;
            && TextOf(payload, record, root, codec) && position < next <= |file| && next <= U64_MAX
            && file[position..next] == FrameWith(record, payload, hash)
  {
    hide LogHeader, LogFooter, DecodeLogHeader, FooterMatches, ValidateIncompleteLogHeader;
    var header := file[position..position + LOG_HEADER_BYTES];
    DecodedLength(header);
    var length := DecodeLogHeader(header).value.payloadBytes;
    var next := position + LOG_HEADER_BYTES + length + LOG_FOOTER_BYTES;
    payload := file[position + LOG_HEADER_BYTES..position + LOG_HEADER_BYTES + length];
    var footer := file[position + LOG_HEADER_BYTES + length..next];
    var record := codec.decode(payload, root).value;
    HeaderIsRead(header, record, payload, hash);
    FooterIsRead(header, payload, footer, hash);
    ThreeParts(file, position, position + LOG_HEADER_BYTES, position + LOG_HEADER_BYTES + length, next);
  }

  lemma DecodedLength(header: seq<Byte>)
    requires |header| == LOG_HEADER_BYTES && DecodeLogHeader(header).Success?
    ensures 0 < DecodeLogHeader(header).value.payloadBytes <= MAX_PAYLOAD_BYTES
  {
    hide Number;
  }

  lemma ThreeParts(file: seq<Byte>, a: nat, b: nat, c: nat, d: nat)
    requires a <= b <= c <= d <= |file|
    ensures file[a..d] == file[a..b] + file[b..c] + file[c..d]
  {
  }

  lemma HeaderIsRead(header: seq<Byte>, record: OutputRecord, payload: seq<Byte>, hash: Hash)
    requires |header| == LOG_HEADER_BYTES
    requires DecodeLogHeader(header) == Success(LogHeaderFields(|payload|, record.id, record.revision, hash(payload)))
    ensures header == LogHeader(record, payload, hash)
  {
    hide BigEndian, Number;
    BigEndianOfNumber(header[8..10]);
    BigEndianOfNumber(header[10..12]);
    BigEndianOfNumber(header[12..20]);
    BigEndianOfNumber(header[36..44]);
    assert header == header[..8] + header[8..10] + header[10..12] + header[12..20] + header[20..36] + header[36..44]
           + header[44..76];
  }

  lemma FooterIsRead(header: seq<Byte>, payload: seq<Byte>, footer: seq<Byte>, hash: Hash)
    requires |footer| == LOG_FOOTER_BYTES
    requires FooterMatches(header, payload, footer, LOG_HEADER_BYTES + |payload| + LOG_FOOTER_BYTES, hash)
    ensures footer == LogFooter(header, payload, hash)
  {
    BigEndianOfNumber(footer[40..48]);
    hide BigEndian, Number;
    assert footer == footer[..32] + footer[32..40] + footer[40..48];
  }

  // ---------- what the scan accepts ----------

  /** The frames of the records under the payloads, one after the other. */
  function Written(history: seq<OutputRecord>, payloads: seq<seq<Byte>>, hash: Hash): seq<Byte>
    requires |payloads| == |history|
  {
    if history == [] then []
    else
      var n := |history| - 1;
      Written(history[..n], payloads[..n], hash) + FrameWith(history[n], payloads[n], hash)
  }

  lemma WrittenLogSnoc(history: seq<OutputRecord>, payloads: seq<seq<Byte>>, record: OutputRecord, payload: seq<Byte>,
                       hash: Hash)
    requires |payloads| == |history|
    ensures Written(history + [record], payloads + [payload], hash) ==
            Written(history, payloads, hash) + FrameWith(record, payload, hash)
  {
    assert (history + [record])[..|history|] == history && (payloads + [payload])[..|history|] == payloads;
  }

  /** Every record is a new one of its own or the next revision of one before it, with an object of its own. */
  predicate Continues(history: seq<OutputRecord>) {
    forall k :: 0 <= k < |history| ==>
      TransitionOk(Replay(history[..k]), history[k]) && ObjectIsUnique(Replay(history[..k]), history[k])
  }

  lemma ContinuesSnoc(history: seq<OutputRecord>, record: OutputRecord)
    requires Continues(history) && TransitionOk(Replay(history), record) && ObjectIsUnique(Replay(history), record)
    ensures Continues(history + [record]) && Replay(history + [record]) == Replay(history)[record.id := record]
  {
    hide RecordOk, TransitionOk, ObjectIsUnique;
    var more := history + [record];
    assert more[..|history|] == history;
    forall k | 0 <= k < |more|
      ensures TransitionOk(Replay(more[..k]), more[k]) && ObjectIsUnique(Replay(more[..k]), more[k])
    {
      if k < |history| {
        assert more[..k] == history[..k] && more[k] == history[k];
      }
    }
  }

  /** The beginning of a frame that goes on after the end of the file. */
  predicate IncompleteAppend(before: nat, tail: seq<Byte>) {
    if |tail| < LOG_HEADER_BYTES then ValidateIncompleteLogHeader(tail).Success?
    else
      var header := DecodeLogHeader(tail[..LOG_HEADER_BYTES]);
      && header.Success?
      && |tail| < LOG_HEADER_BYTES + header.value.payloadBytes + LOG_FOOTER_BYTES
      && before + LOG_HEADER_BYTES + header.value.payloadBytes + LOG_FOOTER_BYTES <= U64_MAX
  }

  lemma TailIsRead(before: seq<Byte>, tail: seq<Byte>, root: nat, codec: Codec, hash: Hash)
    requires tail != []
    ensures ReadFrame(before + tail, |before|, root, codec, hash) == Success(None) <==> IncompleteAppend(|before|, tail)
  {
    hide ValidateIncompleteLogHeader, DecodeLogHeader, FooterMatches;
    var file := before + tail;
    assert file[|before|..] == tail;
    if |tail| >= LOG_HEADER_BYTES {
      assert file[|before|..|before| + LOG_HEADER_BYTES] == tail[..LOG_HEADER_BYTES];
    }
  }

  /** The file is a log of the records: their frames, then nothing or an incomplete append. */
  ghost predicate IsLog(file: seq<Byte>, history: seq<OutputRecord>, payloads: seq<seq<Byte>>, tail: seq<Byte>,
                        root: nat, codec: Codec, hash: Hash)
  {
    && |payloads| == |history| && Continues(history)
    && (forall k :: 0 <= k < |history| ==> TextOf(payloads[k], history[k], root, codec))
    && file == Written(history, payloads, hash) + tail
    && |Written(history, payloads, hash)| <= U64_MAX
    && (tail == [] || IncompleteAppend(|Written(history, payloads, hash)|, tail))
  }

  /** The part of a log that was scanned. */
  ghost predicate Scanned(file: seq<Byte>, position: nat, history: seq<OutputRecord>, payloads: seq<seq<Byte>>,
                          root: nat, codec: Codec, hash: Hash)
  {
    && position <= |file| && IsLog(file[..position], history, payloads, [], root, codec, hash)
    && |Replay(history)| <= MAX_RECORDS
  }

  /** An accepted log holds the records it was rebuilt from. */
  lemma {:induction false} AcceptedIsLog(file: seq<Byte>, position: nat, history: seq<OutputRecord>,
                                         payloads: seq<seq<Byte>>, root: nat, codec: Codec, hash: Hash)
      returns (all: seq<OutputRecord>, texts: seq<seq<Byte>>, tail: seq<Byte>)
    requires Scanned(file, position, history, payloads, root, codec, hash)
    requires ScanFrom(file, position, Replay(history), root, codec, hash).Success?
    ensures IsLog(file, all, texts, tail, root, codec, hash) && |Replay(all)| <= MAX_RECORDS
    ensures ScanFrom(file, position, Replay(history), root, codec, hash) ==
              Success((Replay(all), |Written(all, texts, hash)|))
    decreases |file| - position
  {
    hide ReadFrame, Replay, Written, Continues, IncompleteAppend, FrameWith, TransitionOk, ObjectIsUnique;
    var before := file[..position];
    assert before + [] == before;
    all, texts, tail := history, payloads, file[position..];
    assert file == before + tail;
    if position < |file| {
      var frame := ReadFrame(file, position, root, codec, hash);
      if frame.value.None? {
        TailIsRead(before, tail, root, codec, hash);
      } else {
        var (record, next) := frame.value.value;
        var payload := FrameIsRead(file, position, root, codec, hash);
        ScannedMore(file, position, history, payloads, record, payload, next, root, codec, hash);
        all, texts, tail := AcceptedIsLog(file, next, history + [record], payloads + [payload], root, codec, hash);
      }
    }
  }

  lemma ScannedMore(file: seq<Byte>, position: nat, history: seq<OutputRecord>, payloads: seq<seq<Byte>>,
                    record: OutputRecord, payload: seq<Byte>, next: nat, root: nat, codec: Codec, hash: Hash)
    requires Scanned(file, position, history, payloads, root, codec, hash) && position < next <= |file|
             && next <= U64_MAX
    requires TextOf(payload, record, root, codec) && file[position..next] == FrameWith(record, payload, hash)
    requires TransitionOk(Replay(history), record) && ObjectIsUnique(Replay(history), record)
    requires |Replay(history)[record.id := record]| <= MAX_RECORDS
    ensures Scanned(file, next, history + [record], payloads + [payload], root, codec, hash)
    ensures Replay(history + [record]) == Replay(history)[record.id := record]
  {
    hide RecordOk, Replay, Written, Continues, FrameWith, TransitionOk, ObjectIsUnique, IncompleteAppend, TextOf;
    ContinuesSnoc(history, record);
    WrittenLogSnoc(history, payloads, record, payload, hash);
    assert file[..next] == file[..position] + file[position..next];
    var written := Written(history, payloads, hash);
    assert file[..position] == written + [] == written;
    var more := Written(history + [record], payloads + [payload], hash);
    assert more == file[..next] && more + [] == more;
  }

  /** Every log is accepted as long as it holds no more records than a replay allows. */
  lemma {:induction false} LogIsAccepted(file: seq<Byte>, k: nat, history: seq<OutputRecord>, payloads: seq<seq<Byte>>,
                                         tail: seq<Byte>, root: nat, codec: Codec, hash: Hash)
    requires IsLog(file, history, payloads, tail, root, codec, hash) && k <= |history|
    requires |Replay(history[..k])| <= MAX_RECORDS
    ensures var at := |Written(history[..k], payloads[..k], hash)|;
            && at <= |file|
            && ScanFrom(file, at, Replay(history[..k]), root, codec, hash) ==
               if |Replay(history)| <= MAX_RECORDS then Success((Replay(history), |Written(history, payloads, hash)|))
               else Failure(LogCorrupt)
    decreases |history| - k
  {
    hide ReadFrame, Replay, Written, IncompleteAppend, FrameWith, TransitionOk, ObjectIsUnique, TextOf;
    if k == |history| {
      assert history[..k] == history && payloads[..k] == payloads;
      var written := Written(history, payloads, hash);
      if tail != [] {
        TailIsRead(written, tail, root, codec, hash);
      } else {
        assert written + tail == written;
      }
    } else {
      RecordOfLog(file, k, history, payloads, tail, root, codec, hash);
      ReplaySnoc(history, k);
      if |Replay(history[..k + 1])| <= MAX_RECORDS {
        LogIsAccepted(file, k + 1, history, payloads, tail, root, codec, hash);
      } else {
        ReplayGrows(history, k + 1);
      }
    }
  }

  lemma {:induction false} WrittenAround(history: seq<OutputRecord>, payloads: seq<seq<Byte>>, k: nat, tail: seq<Byte>,
                                         hash: Hash)
      returns (rest: seq<Byte>)
    requires k < |history| == |payloads|
    ensures Written(history, payloads, hash) + tail ==
            Written(history[..k], payloads[..k], hash) + FrameWith(history[k], payloads[k], hash) + rest
    decreases |history|
  {
    hide FrameWith;
    var n := |history| - 1;
    if k == n {
      rest := tail;
    } else {
      var last := FrameWith(history[n], payloads[n], hash);
      rest := WrittenAround(history[..n], payloads[..n], k, last + tail, hash);
      assert history[..n][..k] == history[..k] && payloads[..n][..k] == payloads[..k];
      assert Written(history, payloads, hash) + tail == Written(history[..n], payloads[..n], hash) + (last + tail);
    }
  }

  /** Reading one record of the log. */
  lemma RecordOfLog(file: seq<Byte>, k: nat, history: seq<OutputRecord>, payloads: seq<seq<Byte>>, tail: seq<Byte>,
                    root: nat, codec: Codec, hash: Hash)
    requires IsLog(file, history, payloads, tail, root, codec, hash) && k < |history|
    ensures var at := |Written(history[..k], payloads[..k], hash)|;
            var next := |Written(history[..k + 1], payloads[..k + 1], hash)|;
            && at < next <= |file| && ReadFrame(file, at, root, codec, hash) == Success(Some((history[k], next)))
            && TransitionOk(Replay(history[..k]), history[k]) && ObjectIsUnique(Replay(history[..k]), history[k])
  {
    hide ReadFrame, FrameWith, Written, TransitionOk, ObjectIsUnique, IncompleteAppend, TextOf, Replay;
    var before, frame := Written(history[..k], payloads[..k], hash), FrameWith(history[k], payloads[k], hash);
    WrittenLogSnoc(history[..k], payloads[..k], history[k], payloads[k], hash);
    assert history[..k + 1] == history[..k] + [history[k]] && payloads[..k + 1] == payloads[..k] + [payloads[k]];
    var rest := WrittenAround(history, payloads, k, tail, hash);
    var none := WrittenAround(history, payloads, k, [], hash);
    assert |Written(history, payloads, hash) + []| == |before| + |frame| + |none|;
    ReadsFrame(history[k], payloads[k], before, rest, root, codec, hash);
  }

  /** What the log writes of a history is a log of it. */
  lemma {:induction false} LogFileIsWritten(history: seq<OutputRecord>, root: nat, codec: Codec, hash: Hash)
      returns (payloads: seq<seq<Byte>>)
    requires Faithful(codec) && Admissible(history, root, codec)
    ensures |payloads| == |history| && LogFile(history, codec, hash) == Written(history, payloads, hash)
    ensures Continues(history) && forall k :: 0 <= k < |history| ==> TextOf(payloads[k], history[k], root, codec)
  {
    hide FrameWith, Replay;
    forall k | 0 <= k < |history|
      ensures TransitionOk(Replay(history[..k]), history[k]) && ObjectIsUnique(Replay(history[..k]), history[k])
    {
      assert Admits(Replay(history[..k]), history[k], root, codec);
    }
    if history == [] {
      payloads := [];
    } else {
      var n := |history| - 1;
      AdmissiblePrefix(history, n, root, codec);
      var init := LogFileIsWritten(history[..n], root, codec, hash);
      payloads := init + [codec.encode(history[n])];
      assert payloads[..n] == init;
      assert Admits(Replay(history[..n]), history[n], root, codec);
    }
  }

  /** A torn append reads as an incomplete one. */
  lemma TornIsIncomplete(before: nat, tail: seq<Byte>, root: nat, codec: Codec, hash: Hash)
    requires Faithful(codec) && TornTail(before, tail, root, codec, hash)
    ensures tail == [] || IncompleteAppend(before, tail)
  {
    if tail != [] {
      var record, n: nat :| TornFrame(before, tail, record, n, root, codec, hash);
      var payload := codec.encode(record);
      var header := LogHeader(record, payload, hash);
      LogHeaderFieldsOf(record, payload, hash);
      var frame := LogFrame(record, codec, hash);
      hide LogHeader, LogFooter, DecodeLogHeader, ValidateIncompleteLogHeader;
      assert frame[..LOG_HEADER_BYTES] == header;
      hide LogFrame, FrameWith;
      if n < LOG_HEADER_BYTES {
        TornHeader(header, n);
        assert frame[..n] == header[..n];
      } else {
        assert frame[..n][..LOG_HEADER_BYTES] == header;
      }
    }
  }

  lemma TornHeader(header: seq<Byte>, n: nat)
    requires |header| == LOG_HEADER_BYTES && DecodeLogHeader(header).Success? && n < LOG_HEADER_BYTES
    ensures ValidateIncompleteLogHeader(header[..n]).Success?
  {
    var prefix := header[..n];
    if n >= 10 { assert prefix[8..10] == header[8..10]; }
    if n >= 12 { assert prefix[10..12] == header[10..12]; }
    if n >= 20 { assert prefix[12..20] == header[12..20]; }
    var magic := if n < 8 then n else 8;
    assert prefix[..magic] == header[..8][..magic];
    hide Number;
  }

  lemma LogFileSnoc(history: seq<OutputRecord>, record: OutputRecord, codec: Codec, hash: Hash)
    ensures LogFile(history + [record], codec, hash) == LogFile(history, codec, hash) + LogFrame(record, codec, hash)
  {
    assert (history + [record])[..|history|] == history;
  }

  /** The bytes of an append cut short, or none. */
  ghost predicate TornTail(before: nat, tail: seq<Byte>, root: nat, codec: Codec, hash: Hash) {
    tail == [] ||
    exists record, n: nat :: TornFrame(before, tail, record, n, root, codec, hash)
  }

  ghost predicate TornFrame(before: nat, tail: seq<Byte>, record: OutputRecord, n: nat, root: nat, codec: Codec,
                            hash: Hash)
  {
    && record.root == root && codec.constructed(record) && |codec.encode(record)| <= MAX_PAYLOAD_BYTES
    && 0 < n < |LogFrame(record, codec, hash)| && before + |LogFrame(record, codec, hash)| <= U64_MAX
    && tail == LogFrame(record, codec, hash)[..n]
  }

  lemma ReplaySnoc(history: seq<OutputRecord>, k: nat)
    requires k < |history|
    ensures Replay(history[..k + 1]) == Replay(history[..k])[history[k].id := history[k]]
  {
    TakeSnoc(history, k + 1);
  }

  lemma {:induction false} ReplayGrows(history: seq<OutputRecord>, k: nat)
    requires k <= |history|
    ensures |Replay(history[..k])| <= |Replay(history)|
    decreases |history|
  {
    hide RecordOk;
    if k == |history| {
      assert history[..k] == history;
    } else {
      var n := |history| - 1;
      ReplayGrows(history[..n], k);
      assert history[..n][..k] == history[..k];
      var before := Replay(history[..n]);
      assert before.Keys <= Replay(history).Keys;
      SubsetCount(before.Keys, Replay(history).Keys);
      assert |before| == |before.Keys| && |Replay(history)| == |Replay(history).Keys|;
    }
  }

  lemma SubsetCount(a: set<Uuid>, b: set<Uuid>)
    requires a <= b
    ensures |a| <= |b|
  {
    assert a + (b - a) == b;
  }

  /** Replaying a log, even cut inside its last append, gives back exactly the map it was written from, unless more
      identities were recorded than a replay allows: then it is refused, though every append had been accepted. */
  lemma ReplayRebuilds(history: seq<OutputRecord>, tail: seq<Byte>, root: nat, codec: Codec, hash: Hash)
    requires Faithful(codec) && Admissible(history, root, codec) && |LogFile(history, codec, hash)| <= U64_MAX
    requires TornTail(|LogFile(history, codec, hash)|, tail, root, codec, hash)
    ensures ScanFrom(LogFile(history, codec, hash) + tail, 0, map[], root, codec, hash) ==
            if |Replay(history)| <= 1_000_000 then Success((Replay(history), |LogFile(history, codec, hash)|))
            else Failure(LogCorrupt)
  {
    hide LogFile, Written, Replay, ScanFrom, TornTail, IncompleteAppend;
    var payloads := LogFileIsWritten(history, root, codec, hash);
    TornIsIncomplete(|LogFile(history, codec, hash)|, tail, root, codec, hash);
    NothingWrittenYet(history, payloads, hash);
    LogIsAccepted(LogFile(history, codec, hash) + tail, 0, history, payloads, tail, root, codec, hash);
  }

  lemma NothingWrittenYet(history: seq<OutputRecord>, payloads: seq<seq<Byte>>, hash: Hash)
    requires |payloads| == |history|
    ensures Written(history[..0], payloads[..0], hash) == [] && Replay(history[..0]) == map[] && Continues([])
  {
  }

  // ---------- the log ----------

  datatype RecordOutcome = DidRecord | AlreadyRecorded

  class OutputRecoveryLog {
    const root: nat
    const codec: Codec
    const hash: Hash
    var file: seq<Byte>
    var records: Records
    // The revisions appended since the log was last emptied.
    ghost var history: seq<OutputRecord>

    ghost predicate Valid()
      reads this
    {
      && Faithful(codec) && Admissible(history, root, codec)
      && file == LogFile(history, codec, hash) && records == Replay(history)
    }

    /** A log replayed from its file. */
    constructor (root: nat, codec: Codec, hash: Hash, file: seq<Byte>, records: Records,
                 ghost history: seq<OutputRecord>)
      requires Faithful(codec) && Admissible(history, root, codec)
      requires file == LogFile(history, codec, hash) && records == Replay(history)
      ensures Valid() && this.history == history && this.root == root && this.codec == codec && this.hash == hash
    {
      this.root, this.codec, this.hash := root, codec, hash;
      this.file, this.records, this.history := file, records, history;
    }

    /** Appends the next revision of a record. A repeated request changes nothing. */
    method Record(record: OutputRecord) returns (r: Result<RecordOutcome, LogError>)
      requires Valid() && codec.constructed(record)
      modifies this
      ensures Valid()
      ensures r.Success? <==>
                && record.root == root
                && (|| old(record.id in records && records[record.id] == record)
                    || (&& (if record.id in old(records) then
                              var current := old(records)[record.id];
                              && record.coverage == current.coverage && record.kind == current.kind
                              && record.revision == current.revision + 1
                            else record.revision == 1)
                        && (forall id :: id in old(records) && id != record.id ==>
                              old(records)[id].objectId != record.objectId)
                        && |codec.encode(record)| <= 8_388_608))
      ensures r == Success(AlreadyRecorded) <==>
                record.root == root && record.id in old(records) && old(records)[record.id] == record
      ensures r == Success(DidRecord) ==>
                && history == old(history) + [record] && records == old(records)[record.id := record]
                && file == old(file) + LogFrame(record, codec, hash)
      ensures r != Success(DidRecord) ==> history == old(history) && records == old(records) && file == old(file)
    {
      hide LogFrame, LogFile, Replay, LogHeader, LogFooter;
      if record.root != root {
        return Failure(LogConflict);
      }
      if record.id in records && records[record.id] == record {
        return Success(AlreadyRecorded);
      }
      if !TransitionOk(records, record) {
        return Failure(LogConflict);
      }
      if !ObjectIsUnique(records, record) {
        return Failure(LogConflict);
      }
      var payload := codec.encode(record);
      if |payload| > MAX_PAYLOAD_BYTES {
        return Failure(LogConflict);
      }
      var header := LogHeader(record, payload, hash);
      var frame := header + payload + LogFooter(header, payload, hash);
      FrameIs(record, codec, hash);
      AdmissibleSnoc(history, record, root, codec);
      LogFileSnoc(history, record, codec, hash);
      file := file + frame;
      records := records[record.id := record];
      history := history + [record];
      return Success(DidRecord);
    }

    /** Empties the log once the spool bytes behind every record are reclaimed. */
    method Reclaim(reclaimedBytes: nat) returns (r: Result<nat, LogError>)
      requires Valid()
      modifies this
      ensures Valid()
      ensures r.Success? <==>
                forall id, c :: id in old(records) && 0 <= c < |old(records)[id].coverage| ==>
                  old(records)[id].coverage[c].range.end <= reclaimedBytes
      ensures r.Success? ==> r.value == |old(records)| && records == map[] && file == [] && history == []
      ensures r.Failure? ==> history == old(history) && records == old(records) && file == old(file)
    {
      if exists id :: id in records && !CoveredBy(records[id], reclaimedBytes) {
        return Failure(LogConflict);
      }
      var reclaimed := |records|;
      file, records, history := [], map[], [];
      return Success(reclaimed);
    }
  }

  predicate CoveredBy(record: OutputRecord, bytes: nat) {
    forall c :: 0 <= c < |record.coverage| ==> record.coverage[c].range.end <= bytes
  }

  lemma FrameIs(record: OutputRecord, codec: Codec, hash: Hash)
    ensures var payload := codec.encode(record);
            var header := LogHeader(record, payload, hash);
            LogFrame(record, codec, hash) == header + payload + LogFooter(header, payload, hash)
  {
  }

  lemma AdmissibleSnoc(history: seq<OutputRecord>, record: OutputRecord, root: nat, codec: Codec)
    requires Admissible(history, root, codec) && Admits(Replay(history), record, root, codec)
    ensures Admissible(history + [record], root, codec)
    ensures Replay(history + [record]) == Replay(history)[record.id := record]
  {
    hide RecordOk, Admits;
    var all := history + [record];
    assert all[..|history|] == history;
    forall k | 0 <= k < |all| ensures Admits(Replay(all[..k]), all[k], root, codec) {
      if k < |history| {
        assert all[..k] == history[..k];
        assert Admits(Replay(history[..k]), history[k], root, codec);
      }
    }
  }

  /** Crash during an append, then reopen: the log comes back with every revision that was recorded. */
  method Reopen(log: OutputRecoveryLog, tail: seq<Byte>) returns (next: OutputRecoveryLog?, r: Result<(), LogError>)
    requires log.Valid() && |log.file| <= U64_MAX
    requires TornTail(|log.file|, tail, log.root, log.codec, log.hash)
    ensures r.Success? <==> |log.records| <= 1_000_000
    ensures r.Success? ==>
              next != null && fresh(next) && next.Valid() && next.history == log.history && next.records == log.records
  {
    hide LogFile, Replay, Admissible, Faithful, TornTail, ScanFrom;
    ReplayRebuilds(log.history, tail, log.root, log.codec, log.hash);
    var scanned := ScanLog(log.file + tail, log.root, log.codec, log.hash);
    if scanned.Failure? {
      return null, Failure(scanned.error);
    }
    var kept := (log.file + tail)[..scanned.value.1];
    assert kept == log.file;
    next := new OutputRecoveryLog(log.root, log.codec, log.hash, kept, scanned.value.0, log.history);
    r := Success(());
  }
}
