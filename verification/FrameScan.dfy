/** The scan that recovers a spool file: the committed frames at its front and at most one incomplete append. */
module FrameScan {
  import opened Basics
  import opened ByteStrings
  import opened Frames

  // ---------- incomplete headers ----------

  /** Where the last field ends that a prefix of `n` header bytes holds completely. */
  function WholeFields(n: nat): (cut: nat)
    ensures cut <= n && cut <= 148
  {
    if n < 8 then n else if n < 10 then 8 else if n < 12 then 10 else if n < 28 then 12 else if n < 44 then 28
    else if n < 60 then 44 else if n < 76 then 60 else if n < 92 then 76 else if n < 108 then 92
    else if n < 116 then 108 else if n < 148 then 116 else 148
  }

  /** `prefix` begins some header that decodes. */
  ghost predicate BeginsHeader(prefix: seq<Byte>, limit: nat) {
    exists raw: seq<Byte> :: |raw| == HEADER_BYTES && prefix <= raw && DecodeHeader(raw, limit).Success?
  }

  /** The checks of an incomplete header read only complete fields of whatever header it begins. */
  lemma PrefixOfHeaderAccepted(raw: seq<Byte>, prefix: seq<Byte>, limit: nat)
    requires |raw| == HEADER_BYTES && |prefix| < HEADER_BYTES && DecodeHeader(raw, limit).Success?
    requires raw[..WholeFields(|prefix|)] == prefix[..WholeFields(|prefix|)]
    ensures ValidateIncompleteHeader(prefix, limit).Success?
  {
    var n, cut := |prefix|, WholeFields(|prefix|);
    FieldSame(raw, prefix, cut, 8, 10);
    FieldSame(raw, prefix, cut, 10, 12);
    FieldSame(raw, prefix, cut, 12, 20);
    FieldSame(raw, prefix, cut, 20, 28);
    FieldSame(raw, prefix, cut, 28, 44);
    FieldSame(raw, prefix, cut, 44, 60);
    FieldSame(raw, prefix, cut, 60, 76);
    FieldSame(raw, prefix, cut, 76, 92);
    FieldSame(raw, prefix, cut, 92, 108);
    FieldSame(raw, prefix, cut, 108, 116);
    var magic := if n < 8 then n else 8;
    FieldSame(raw, prefix, cut, 0, magic);
    assert prefix[..magic] == raw[..8][..magic];
    hide Number;
  }

  lemma FieldSame(raw: seq<Byte>, prefix: seq<Byte>, cut: nat, a: nat, b: nat)
    requires cut <= |raw| && cut <= |prefix| && a <= b && raw[..cut] == prefix[..cut]
    ensures b <= cut ==> raw[a..b] == prefix[a..b]
  {
    if b <= cut {
      assert raw[..cut][a..b] == raw[a..b] && prefix[..cut][a..b] == prefix[a..b];
    }
  }

  /** Some header that decodes under every limit: an empty body. */
  function Template(): (raw: seq<Byte>)
    ensures |raw| == HEADER_BYTES
  {
    var id: Uuid := seq(16, i => if i == 8 then 0x80 else 0x70);
    Header(Metadata(id, id, id, id, id, 0), 0, seq(32, _ => 0))
  }

  /** Completes the whole fields of a prefix from the template. */
  function Completed(prefix: seq<Byte>): (raw: seq<Byte>)
    requires |prefix| < HEADER_BYTES
    ensures |raw| == HEADER_BYTES && raw[..WholeFields(|prefix|)] == prefix[..WholeFields(|prefix|)]
  {
    prefix[..WholeFields(|prefix|)] + Template()[WholeFields(|prefix|)..]
  }

  lemma CompletedField(prefix: seq<Byte>, a: nat, b: nat)
    requires |prefix| < HEADER_BYTES && a <= b <= HEADER_BYTES
    ensures b <= WholeFields(|prefix|) ==> Completed(prefix)[a..b] == prefix[a..b]
    ensures a >= WholeFields(|prefix|) ==> Completed(prefix)[a..b] == Template()[a..b]
  {
    hide Template;
    var cut := WholeFields(|prefix|);
    if a >= cut {
      assert Completed(prefix)[a..b] == Template()[cut..][a - cut..b - cut];
    } else if b <= cut {
      assert Completed(prefix)[a..b] == Completed(prefix)[..cut][a..b] == prefix[..cut][a..b];
    }
  }

  lemma TemplateDecodes(limit: nat)
    ensures DecodeHeader(Template(), limit).Success?
  {
    var id: Uuid := seq(16, i => if i == 8 then 0x80 else 0x70);
    DecodeOfHeader(Metadata(id, id, id, id, id, 0), 0, seq(32, _ => 0), limit);
  }

  lemma CompletedDecodes(prefix: seq<Byte>, limit: nat)
    requires |prefix| < HEADER_BYTES && ValidateIncompleteHeader(prefix, limit).Success?
    ensures DecodeHeader(Completed(prefix), limit).Success?
  {
    TemplateDecodes(limit);
    CompletedField(prefix, 8, 10);
    CompletedField(prefix, 10, 12);
    CompletedField(prefix, 12, 20);
    CompletedField(prefix, 20, 28);
    CompletedField(prefix, 28, 44);
    CompletedField(prefix, 44, 60);
    CompletedField(prefix, 60, 76);
    CompletedField(prefix, 76, 92);
    CompletedField(prefix, 92, 108);
    CompletedField(prefix, 108, 116);
    CompletedMagic(prefix, limit);
    hide Template, Completed, Number;
  }

  lemma CompletedMagic(prefix: seq<Byte>, limit: nat)
    requires |prefix| < HEADER_BYTES && ValidateIncompleteHeader(prefix, limit).Success?
    ensures Completed(prefix)[..8] == FRAME_MAGIC
  {
    var n := |prefix|;
    TemplateDecodes(limit);
    assert Template()[..8] == FRAME_MAGIC;
    hide Template, Number, ValidateLengths, DecodeHeader;
    if n < 8 {
      var rest := Template()[n..];
      assert prefix[..n] == prefix && prefix == FRAME_MAGIC[..n];
      assert rest[..8 - n] == Template()[..8][n..];
      assert Completed(prefix)[..8] == prefix + rest[..8 - n];
    } else {
      CompletedField(prefix, 0, 8);
    }
  }

  /** An incomplete header is accepted exactly when its complete fields begin a header that decodes; the bytes of
      the field it was cut in are not looked at. */
  lemma IncompleteHeaderAcceptedIff(prefix: seq<Byte>, limit: nat)
    requires |prefix| < HEADER_BYTES
    ensures ValidateIncompleteHeader(prefix, limit).Success? <==> BeginsHeader(prefix[..WholeFields(|prefix|)], limit)
  {
    hide ValidateIncompleteHeader, DecodeHeader;
    var whole := prefix[..WholeFields(|prefix|)];
    if ValidateIncompleteHeader(prefix, limit).Success? {
      CompletedDecodes(prefix, limit);
      assert whole <= Completed(prefix);
    }
    if BeginsHeader(whole, limit) {
      var raw: seq<Byte> :| |raw| == HEADER_BYTES && whole <= raw && DecodeHeader(raw, limit).Success?;
      assert raw[..WholeFields(|prefix|)] == whole;
      PrefixOfHeaderAccepted(raw, prefix, limit);
    }
  }

  /** So a tail cut inside a field can be accepted though no frame begins with it. */
  lemma CutFieldIsNotChecked(limit: nat)
    ensures ValidateIncompleteHeader(FRAME_MAGIC + [9], limit).Success? && !BeginsHeader(FRAME_MAGIC + [9], limit)
  {
    var prefix: seq<Byte> := FRAME_MAGIC + [9];
    assert prefix[..8] == FRAME_MAGIC;
    forall raw: seq<Byte> | |raw| == HEADER_BYTES && prefix <= raw ensures !DecodeHeader(raw, limit).Success? {
      assert raw[8] == prefix[8] == 9;
      var version := raw[8..10];
      assert version == [9, raw[9]] && version[..1] == [9] && version[..1][..0] == [];
      assert Number(version) == Number(version[..1]) * 256 + raw[9];
      assert Number(version[..1]) == 9;
    }
  }

  // ---------- tails ----------

  /** What the scan takes for an incomplete append, found at `position`. */
  predicate AcceptedTail(tail: seq<Byte>, position: nat, limit: nat) {
    || tail == []
    || (|tail| < HEADER_BYTES && ValidateIncompleteHeader(tail, limit).Success?)
    || (|tail| >= HEADER_BYTES
        && var header := DecodeHeader(tail[..HEADER_BYTES], limit);
           && header.Success?
           && |tail| < header.value.bodyLength + OVERHEAD
           && position + header.value.bodyLength + OVERHEAD <= U64_MAX)
  }

  predicate BatchFits(batch: Batch, limit: nat) {
    Storable(|batch.body|, limit)
  }

  /** Every strict prefix of a frame is an incomplete append. */
  lemma StrictPrefixIsTail(batch: Batch, n: nat, position: nat, limit: nat, hash: Hash)
    requires BatchFits(batch, limit) && n < |Frame(batch, hash)|
    requires position + |Frame(batch, hash)| <= U64_MAX
    ensures AcceptedTail(Frame(batch, hash)[..n], position, limit)
  {
    var header := Header(batch.metadata, |batch.body|, hash(batch.body));
    DecodeOfHeader(batch.metadata, |batch.body|, hash(batch.body), limit);
    var tail := Frame(batch, hash)[..n];
    hide Header, Footer, DecodeHeader, ValidateIncompleteHeader;
    if n < HEADER_BYTES {
      assert tail == header[..n];
      PrefixOfHeaderAccepted(header, tail, limit);
    } else {
      assert tail[..HEADER_BYTES] == header;
    }
  }

  // ---------- one frame ----------

  /** A whole frame stands at the front of `rest`. */
  predicate StartsWithFrame(rest: seq<Byte>, limit: nat, hash: Hash) {
    && |rest| >= HEADER_BYTES
    && var header := DecodeHeader(rest[..HEADER_BYTES], limit);
       && header.Success?
       && var length := header.value.bodyLength;
          && |rest| >= length + OVERHEAD
          && var body := rest[HEADER_BYTES..HEADER_BYTES + length];
             ValidateDigestsAndFooter(header.value, hash(body), hash(rest[..HEADER_BYTES] + body),
                                      rest[HEADER_BYTES + length..length + OVERHEAD]).Success?
  }

  function FirstBatch(rest: seq<Byte>, limit: nat, hash: Hash): Batch
    requires StartsWithFrame(rest, limit, hash)
  {
    var header := DecodeHeader(rest[..HEADER_BYTES], limit).value;
    Batch(header.metadata, rest[HEADER_BYTES..HEADER_BYTES + header.bodyLength])
  }

  lemma FooterOfChecks(footer: seq<Byte>, digest: Digest, stored: nat)
    requires |footer| == FOOTER_BYTES && footer[..32] == digest && footer[32..40] == COMMIT_MAGIC
    requires Number(footer[40..48]) == stored
    ensures footer == Footer(digest, stored)
  {
    BigEndianOfNumber(footer[40..48]);
    assert footer == footer[..32] + footer[32..40] + footer[40..48];
  }

  /** What the checks accept as a frame is the encoding of the batch they read from it. */
  lemma AcceptedFrameIsEncoded(rest: seq<Byte>, limit: nat, hash: Hash)
    requires StartsWithFrame(rest, limit, hash)
    ensures var batch := FirstBatch(rest, limit, hash);
            BatchFits(batch, limit) && Frame(batch, hash) <= rest
  {
    hide Header, Footer, DecodeHeader, Number;
    var raw := rest[..HEADER_BYTES];
    HeaderOfDecode(raw, limit);
    var header := DecodeHeader(raw, limit).value;
    var length := header.bodyLength;
    var body, footer := rest[HEADER_BYTES..HEADER_BYTES + length], rest[HEADER_BYTES + length..length + OVERHEAD];
    FooterOfChecks(footer, hash(raw + body), length + OVERHEAD);
    ThreeParts(rest, HEADER_BYTES, HEADER_BYTES + length, length + OVERHEAD);
  }

  lemma ThreeParts(s: seq<Byte>, a: nat, b: nat, c: nat)
    requires a <= b <= c <= |s|
    ensures s[..a] + s[a..b] + s[b..c] == s[..c] && s[..c] <= s
  {
  }

  /** And every encoded frame is accepted, as the batch it encodes. */
  lemma EncodedFrameIsAccepted(batch: Batch, more: seq<Byte>, limit: nat, hash: Hash)
    requires BatchFits(batch, limit)
    ensures var rest := Frame(batch, hash) + more;
            StartsWithFrame(rest, limit, hash) && FirstBatch(rest, limit, hash) == batch
  {
    hide Header, Footer, DecodeHeader, BigEndian, Number, Values;
    var length := |batch.body|;
    var header := Header(batch.metadata, length, hash(batch.body));
    var footer := Footer(hash(header + batch.body), length + OVERHEAD);
    var rest := Frame(batch, hash) + more;
    DecodeOfHeader(batch.metadata, length, hash(batch.body), limit);
    FooterFields(hash(header + batch.body), length + OVERHEAD);
    assert rest[..HEADER_BYTES] == header;
    assert rest[HEADER_BYTES..HEADER_BYTES + length] == batch.body;
    assert rest[HEADER_BYTES + length..length + OVERHEAD] == footer;
  }

  lemma FooterFields(digest: Digest, frameBytes: nat)
    requires frameBytes <= U64_MAX
    ensures var footer := Footer(digest, frameBytes);
            footer[..32] == digest && footer[32..40] == COMMIT_MAGIC && Number(footer[40..48]) == frameBytes
  {
    ValuesOfWidths();
    NumberOfBigEndian(frameBytes, 8);
    hide BigEndian, Number, Values;
    assert Footer(digest, frameBytes)[40..48] == BigEndian(frameBytes, 8);
  }

  // ---------- whole files ----------

  /** The file is the frames of `batches` followed by an incomplete append. */
  ghost predicate Splits(file: seq<Byte>, batches: seq<Batch>, tail: seq<Byte>, limit: nat, hash: Hash) {
    && file == Encode(batches, hash) + tail
    && (forall k :: 0 <= k < |batches| ==> BatchFits(batches[k], limit))
    && AcceptedTail(tail, |Encode(batches, hash)|, limit)
  }

  function End(batches: seq<Batch>, k: nat, hash: Hash): nat
    requires k <= |batches|
  {
    |Encode(batches[..k], hash)|
  }

  /** `position` is where frame number `k` ends, or the beginning of the file. */
  ghost predicate BoundaryAt(batches: seq<Batch>, position: nat, k: nat, hash: Hash) {
    k <= |batches| && position == End(batches, k, hash)
  }

  lemma FramesSnoc(batches: seq<Batch>, batch: Batch, hash: Hash)
    ensures Encode(batches + [batch], hash) == Encode(batches, hash) + Frame(batch, hash)
  {
    assert (batches + [batch])[..|batches|] == batches;
  }

  lemma {:induction false} FramesAppend(a: seq<Batch>, b: seq<Batch>, hash: Hash)
    ensures Encode(a + b, hash) == Encode(a, hash) + Encode(b, hash)
    decreases |b|
  {
    hide Frame;
    if b == [] {
      assert a + b == a;
    } else {
      var init, last := b[..|b| - 1], b[|b| - 1];
      FramesAppend(a, init, hash);
      FramesSnoc(a + init, last, hash);
      FramesSnoc(init, last, hash);
      assert b == init + [last] && a + b == (a + init) + [last];
      hide Encode;
      Regroup(Encode(a, hash), Encode(init, hash), Frame(last, hash));
    }
  }

  /** The frames before, at and after one of the batches. */
  lemma FramesAround(batches: seq<Batch>, k: nat, hash: Hash)
    requires k < |batches|
    ensures Encode(batches[k..], hash) == Frame(batches[k], hash) + Encode(batches[k + 1..], hash)
  {
    hide Frame;
    var one, more := [batches[k]], batches[k + 1..];
    FramesAppend(one, more, hash);
    assert one[..0] == [];
    assert batches[k..] == one + more;
  }

  /** Ends of frames lie strictly one after the other. */
  lemma EndsIncrease(batches: seq<Batch>, j: nat, k: nat, hash: Hash)
    requires j < k <= |batches|
    ensures End(batches, j, hash) + OVERHEAD <= End(batches, k, hash) && End(batches, 0, hash) == 0
  {
    hide Frame;
    FramesAppend(batches[..j], batches[j..k], hash);
    assert batches[..k] == batches[..j] + batches[j..k];
    var last := batches[j..k][..k - j - 1];
    assert batches[j..k] == last + [batches[k - 1]];
    FramesSnoc(last, batches[k - 1], hash);
  }

  lemma TailIsNoFrame(tail: seq<Byte>, position: nat, limit: nat, hash: Hash)
    requires AcceptedTail(tail, position, limit)
    ensures !StartsWithFrame(tail, limit, hash)
  {
  }

  lemma DropPrefix(a: seq<Byte>, b: seq<Byte>)
    ensures (a + b)[|a|..] == b
  {
  }

  /** What follows the first `k` frames. */
  lemma RestOfFrames(batches: seq<Batch>, more: seq<Byte>, k: nat, limit: nat, hash: Hash)
    requires k <= |batches| && forall j :: 0 <= j < |batches| ==> BatchFits(batches[j], limit)
    ensures var file := Encode(batches, hash) + more;
            var at := End(batches, k, hash);
            && at <= |file| && file[at..] == Encode(batches[k..], hash) + more
            && (k < |batches| ==>
                  && StartsWithFrame(file[at..], limit, hash)
                  && FirstBatch(file[at..], limit, hash) == batches[k])
  {
    hide Encode, StartsWithFrame, FirstBatch, Frame;
    var file := Encode(batches, hash) + more;
    FramesAppend(batches[..k], batches[k..], hash);
    assert batches == batches[..k] + batches[k..];
    var before, after := Encode(batches[..k], hash), Encode(batches[k..], hash);
    Regroup(before, after, more);
    DropPrefix(before, after + more);
    if k < |batches| {
      FrameFirst(batches, k, more, limit, hash);
    }
  }

  lemma FrameFirst(batches: seq<Batch>, k: nat, more: seq<Byte>, limit: nat, hash: Hash)
    requires k < |batches| && BatchFits(batches[k], limit)
    ensures var rest := Encode(batches[k..], hash) + more;
            StartsWithFrame(rest, limit, hash) && FirstBatch(rest, limit, hash) == batches[k]
  {
    hide Encode, StartsWithFrame, FirstBatch, Frame;
    FramesAround(batches, k, hash);
    var rest := Encode(batches[k + 1..], hash);
    EncodedFrameIsAccepted(batches[k], rest + more, limit, hash);
    Regroup(Frame(batches[k], hash), rest, more);
  }

  lemma RestOfSplit(file: seq<Byte>, batches: seq<Batch>, tail: seq<Byte>, k: nat, limit: nat, hash: Hash)
    requires Splits(file, batches, tail, limit, hash) && k <= |batches|
    ensures End(batches, k, hash) <= |file|
    ensures file[End(batches, k, hash)..] == Encode(batches[k..], hash) + tail
    ensures k < |batches| ==>
              && StartsWithFrame(file[End(batches, k, hash)..], limit, hash)
              && FirstBatch(file[End(batches, k, hash)..], limit, hash) == batches[k]
  {
    RestOfFrames(batches, tail, k, limit, hash);
  }

  /** A file splits in at most one way. */
  lemma {:induction false} SplitIsUnique(
      file: seq<Byte>, a: seq<Batch>, s: seq<Byte>, b: seq<Batch>, t: seq<Byte>, k: nat, limit: nat, hash: Hash)
    requires Splits(file, a, s, limit, hash) && Splits(file, b, t, limit, hash)
    requires k <= |a| && k <= |b| && a[..k] == b[..k]
    ensures a == b && s == t
    decreases |a| - k
  {
    RestOfSplit(file, a, s, k, limit, hash);
    RestOfSplit(file, b, t, k, limit, hash);
    var rest := file[End(a, k, hash)..];
    if k == |a| || k == |b| {
      SplitEnds(file, a, s, k, limit, hash);
      SplitEnds(file, b, t, k, limit, hash);
      assert a == a[..k] && b == b[..k];
    } else {
      hide Splits, StartsWithFrame, FirstBatch, End;
      TakeSnoc(a, k + 1);
      TakeSnoc(b, k + 1);
      SplitIsUnique(file, a, s, b, t, k + 1, limit, hash);
    }
  }

  lemma SplitEnds(file: seq<Byte>, batches: seq<Batch>, tail: seq<Byte>, k: nat, limit: nat, hash: Hash)
    requires Splits(file, batches, tail, limit, hash) && k <= |batches|
    ensures End(batches, k, hash) <= |file|
    ensures StartsWithFrame(file[End(batches, k, hash)..], limit, hash) <==> k < |batches|
    ensures k == |batches| ==> file[End(batches, k, hash)..] == tail
  {
    RestOfSplit(file, batches, tail, k, limit, hash);
    if k == |batches| {
      assert batches[k..] == [] && Encode(batches[k..], hash) == [];
      assert file[End(batches, k, hash)..] == tail;
      TailIsNoFrame(tail, |Encode(batches, hash)|, limit, hash);
    }
  }

  // ---------- the scan ----------

  datatype ScanReport = ScanReport(committedBatches: nat, pendingBatches: nat, committedBytes: nat, discardedBytes: nat)

  const SCAN_BUFFER_BYTES: nat := 64 * 1024

  /** The body of one frame, read in chunks. */
  method ReadBody(file: seq<Byte>, start: nat, length: nat) returns (body: seq<Byte>)
    requires start + length <= |file|
    ensures body == file[start..start + length]
  {
    body := [];
    var unread := length;
    while unread > 0
      invariant 0 <= unread <= length && body == file[start..start + (length - unread)]
    {
      var chunk := if unread < SCAN_BUFFER_BYTES then unread else SCAN_BUFFER_BYTES;
      var at := start + (length - unread);
      assert file[start..at] + file[at..at + chunk] == file[start..at + chunk];
      body := body + file[at..at + chunk];
      unread := unread - chunk;
    }
  }

  /** Checks the frame at `position`: its end, or nothing when the append that wrote it did not complete. */
  method ScanFrame(file: seq<Byte>, position: nat, limit: nat, hash: Hash) returns (r: Result<Option<nat>, SpoolError>)
    requires position < |file| <= U64_MAX
    ensures var rest := file[position..];
            match r
            case Success(Some(end)) =>
              && StartsWithFrame(rest, limit, hash)
              && end == position + |Frame(FirstBatch(rest, limit, hash), hash)| <= |file|
            case Success(None) => AcceptedTail(rest, position, limit)
            case Failure(_) => !StartsWithFrame(rest, limit, hash) && !AcceptedTail(rest, position, limit)
  {
    var remaining := |file| - position;
    ghost var rest := file[position..];
    if remaining < HEADER_BYTES {
      var accepted := ValidateIncompleteHeader(file[position..], limit);
      if accepted.Failure? {
        return Failure(accepted.error);
      }
      return Success(None);
    }
    var raw := file[position..position + HEADER_BYTES];
    assert rest[..HEADER_BYTES] == raw;
    var decoded := DecodeHeader(raw, limit);
    if decoded.Failure? {
      return Failure(decoded.error);
    }
    hide DecodeHeader, ValidateIncompleteHeader;
    var length := decoded.value.bodyLength;
    if position + length + OVERHEAD > U64_MAX {
      return Failure(CorruptSpool);
    }
    var end := position + length + OVERHEAD;
    if end > |file| {
      return Success(None);
    }
    var body := ReadBody(file, position + HEADER_BYTES, length);
    var footer := file[position + HEADER_BYTES + length..end];
    assert rest[HEADER_BYTES..HEADER_BYTES + length] == body;
    assert rest[HEADER_BYTES + length..length + OVERHEAD] == footer;
    var checked := ValidateDigestsAndFooter(decoded.value, hash(body), hash(raw + body), footer);
    if checked.Failure? {
      return Failure(checked.error);
    }
    return Success(Some(end));
  }

  /** The scan has read the frames of `batches` up to `position`. */
  ghost predicate Scanned(file: seq<Byte>, batches: seq<Batch>, position: nat, limit: nat, hash: Hash) {
    && position <= |file| && file[..position] == Encode(batches, hash)
    && forall k :: 0 <= k < |batches| ==> BatchFits(batches[k], limit)
  }

  lemma ScanOne(file: seq<Byte>, batches: seq<Batch>, position: nat, limit: nat, hash: Hash)
    requires Scanned(file, batches, position, limit, hash) && StartsWithFrame(file[position..], limit, hash)
    ensures var batch := FirstBatch(file[position..], limit, hash);
            && position + |Frame(batch, hash)| <= |file|
            && Scanned(file, batches + [batch], position + |Frame(batch, hash)|, limit, hash)
  {
    hide StartsWithFrame, FirstBatch, Frame, Encode, BatchFits;
    var batch := FirstBatch(file[position..], limit, hash);
    AcceptedFrameIsEncoded(file[position..], limit, hash);
    FramesSnoc(batches, batch, hash);
    var end := position + |Frame(batch, hash)|;
    assert file[..end] == file[..position] + file[position..][..|Frame(batch, hash)|];
  }

  /** A scan that cannot go on rules out every split of the file. */
  lemma {:induction false} ScannedIsPrefix(file: seq<Byte>, batches: seq<Batch>, position: nat, k: nat,
                                           other: seq<Batch>, tail: seq<Byte>, limit: nat, hash: Hash)
    requires Scanned(file, batches, position, limit, hash) && Splits(file, other, tail, limit, hash) && k <= |batches|
    ensures k <= |other| && other[..k] == batches[..k]
  {
    hide Splits, Scanned, StartsWithFrame, FirstBatch, Encode;
    if k > 0 {
      ScannedIsPrefix(file, batches, position, k - 1, other, tail, limit, hash);
      SplitEnds(file, other, tail, k - 1, limit, hash);
      RestOfSplit(file, other, tail, k - 1, limit, hash);
      ScannedRest(file, batches, position, k - 1, limit, hash);
      TakeSnoc(batches, k);
      TakeSnoc(other, k);
    }
  }

  lemma ScannedRest(file: seq<Byte>, batches: seq<Batch>, position: nat, k: nat, limit: nat, hash: Hash)
    requires Scanned(file, batches, position, limit, hash) && k < |batches|
    ensures End(batches, k, hash) <= |file|
    ensures StartsWithFrame(file[End(batches, k, hash)..], limit, hash)
    ensures FirstBatch(file[End(batches, k, hash)..], limit, hash) == batches[k]
  {
    assert file == file[..position] + file[position..];
    RestOfFrames(batches, file[position..], k, limit, hash);
  }

  /** The end of a scan. */
  lemma ScanEnds(file: seq<Byte>, batches: seq<Batch>, position: nat, tail: seq<Byte>, limit: nat, hash: Hash)
    requires Scanned(file, batches, position, limit, hash) && tail == file[position..]
             && AcceptedTail(tail, position, limit)
    ensures Splits(file, batches, tail, limit, hash)
            && position == |Encode(batches, hash)| == End(batches, |batches|, hash)
  {
    hide AcceptedTail, Encode;
    assert file == file[..position] + tail;
    assert batches[..|batches|] == batches;
  }

  lemma NoBoundary(file: seq<Byte>, batches: seq<Batch>, tail: seq<Byte>, checkpoint: nat, limit: nat, hash: Hash)
    requires Splits(file, batches, tail, limit, hash)
    requires forall k :: 0 <= k <= |batches| ==> checkpoint != End(batches, k, hash)
    ensures forall others, rest, k ::
              !(Splits(file, others, rest, limit, hash) && BoundaryAt(others, checkpoint, k, hash))
  {
    hide Splits, End;
    forall others, rest, k: nat | Splits(file, others, rest, limit, hash)
      ensures !BoundaryAt(others, checkpoint, k, hash)
    {
      SplitIsUnique(file, batches, tail, others, rest, 0, limit, hash);
    }
  }

  /** How far the checkpoint has been found among the frames read so far. */
  ghost predicate CheckpointSought(batches: seq<Batch>, position: nat, checkpoint: nat, boundary: bool, first: nat,
                                   hash: Hash)
  {
    && first <= |batches| && (position < checkpoint ==> first == |batches|)
    && (boundary ==> BoundaryAt(batches, checkpoint, first, hash) && checkpoint <= position)
    && (!boundary ==> forall k :: 0 <= k <= |batches| ==> checkpoint != End(batches, k, hash))
  }

  lemma SeekOn(batches: seq<Batch>, position: nat, checkpoint: nat, boundary: bool, first: nat, batch: Batch,
               hash: Hash)
    requires CheckpointSought(batches, position, checkpoint, boundary, first, hash)
             && position == End(batches, |batches|, hash)
    ensures var next := position + |Frame(batch, hash)|;
            && next == End(batches + [batch], |batches| + 1, hash)
            && CheckpointSought(batches + [batch], next, checkpoint, boundary || next == checkpoint,
                                if position >= checkpoint then first else first + 1, hash)
  {
    hide Encode, Frame;
    var more := batches + [batch];
    FramesSnoc(batches, batch, hash);
    assert more[..|more|] == more && batches[..|batches|] == batches;
    forall k | 0 <= k <= |batches| ensures End(more, k, hash) == End(batches, k, hash) {
      assert more[..k] == batches[..k];
    }
  }

  /** Recovers the frames of a spool file and checks that the checkpoint is one of their boundaries. It succeeds
      exactly when the file is a sequence of frames and an incomplete append, and the checkpoint is such a boundary;
      its report then counts those frames, the ones from the checkpoint on, and the bytes of both parts. */
  method ScanCommittedFrames(file: seq<Byte>, checkpoint: nat, limit: nat, hash: Hash)
    returns (r: Result<ScanReport, SpoolError>, ghost batches: seq<Batch>, ghost tail: seq<Byte>, ghost first: nat)
    requires |file| <= U64_MAX
    ensures r.Success? ==>
              && Splits(file, batches, tail, limit, hash) && BoundaryAt(batches, checkpoint, first, hash)
              && r.value == ScanReport(|batches|, |batches| - first, |file| - |tail|, |tail|)
    ensures r.Failure? ==> forall others, rest, k ::
              !(Splits(file, others, rest, limit, hash) && BoundaryAt(others, checkpoint, k, hash))
  {
    var position, committed, pending, discarded := 0, 0, 0, 0;
    var boundary := checkpoint == 0;
    batches, tail, first := [], [], 0;
    while position < |file|
      invariant position <= |file| && Scanned(file, batches, position, limit, hash)
                && position == End(batches, |batches|, hash)
      invariant committed == |batches| && pending == |batches| - first
      invariant CheckpointSought(batches, position, checkpoint, boundary, first, hash)
      invariant discarded == |tail| && tail == []
      decreases |file| - position
    {
      hide Scanned, StartsWithFrame, FirstBatch, AcceptedTail, Encode, Frame, CheckpointSought, End, Splits;
      var step := ScanFrame(file, position, limit, hash);
      if step.Failure? {
        StuckScan(file, batches, position, limit, hash);
        return Failure(step.error), batches, tail, first;
      }
      if step.value.None? {
        discarded := |file| - position;
        tail := file[position..];
        break;
      }
      ghost var batch := FirstBatch(file[position..], limit, hash);
      ScanOne(file, batches, position, limit, hash);
      SeekOn(batches, position, checkpoint, boundary, first, batch, hash);
      committed := committed + 1;
      if position >= checkpoint {
        pending := pending + 1;
      } else {
        first := first + 1;
      }
      position := step.value.value;
      if position == checkpoint {
        boundary := true;
      }
      batches := batches + [batch];
    }
    ScanEnds(file, batches, position, tail, limit, hash);
    hide Scanned, AcceptedTail, Encode, Splits;
    if checkpoint > position || !boundary {
      NoBoundary(file, batches, tail, checkpoint, limit, hash);
      return Failure(CorruptSpool), batches, tail, first;
    }
    return Success(ScanReport(committed, pending, position, discarded)), batches, tail, first;
  }

  lemma StuckScan(file: seq<Byte>, batches: seq<Batch>, position: nat, limit: nat, hash: Hash)
    requires Scanned(file, batches, position, limit, hash) && position == End(batches, |batches|, hash)
    requires !StartsWithFrame(file[position..], limit, hash) && !AcceptedTail(file[position..], position, limit)
    ensures forall others, rest :: !Splits(file, others, rest, limit, hash)
  {
    forall others, rest ensures !Splits(file, others, rest, limit, hash) {
      if Splits(file, others, rest, limit, hash) {
        ScannedIsPrefix(file, batches, position, |batches|, others, rest, limit, hash);
        SplitEnds(file, others, rest, |batches|, limit, hash);
        assert false;
      }
    }
  }

}
