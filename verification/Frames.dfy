/** The frames of the spool file: a header, the batch body and a commit footer, bound together by digests. */
module Frames {
  import opened Basics
  import opened Segments
  import opened ByteStrings

  const FRAME_MAGIC: seq<Byte> := [0x45, 0x4C, 0x55, 0x43, 0x53, 0x50, 0x30, 0x31]
  const COMMIT_MAGIC: seq<Byte> := [0x45, 0x4C, 0x55, 0x43, 0x43, 0x4D, 0x30, 0x31]
  const FORMAT_VERSION: nat := 1
  const HEADER_BYTES: nat := 148
  const FOOTER_BYTES: nat := 48
  const OVERHEAD: nat := HEADER_BYTES + FOOTER_BYTES

  datatype SpoolError = CorruptSpool | InvariantViolated | CapacityExhausted | BatchTooLarge

  /** A 32-byte digest of a byte string. Nothing is assumed of it beyond being a function. */
  type Digest = d: seq<Byte> | |d| == 32 witness seq(32, _ => 0)
  type Hash = seq<Byte> -> Digest

  /** Sixteen bytes of version 7 and the RFC variant (section 4.1 of RFC 9562). */
  predicate IsUuid(bytes: seq<Byte>) {
    |bytes| == 16 && bytes[6] / 16 == 7 && bytes[8] / 64 == 2
  }

  type Uuid = u: seq<Byte> | IsUuid(u) witness seq(16, i => if i == 8 then 0x80 else 0x70)

  type IngestionTime = t: int | Representable(t) witness 0

  datatype Metadata = Metadata(
    batchId: Uuid, sourceId: Uuid, inputId: Uuid, profileId: Uuid, schemaId: Uuid, ingestionTime: IngestionTime)

  datatype Batch = Batch(metadata: Metadata, body: seq<Byte>)

  // ---------- encoding ----------

  function Preamble(): seq<Byte> {
    FRAME_MAGIC + BigEndian(FORMAT_VERSION, 2) + BigEndian(HEADER_BYTES, 2)
  }

  function Identities(m: Metadata): (bytes: seq<Byte>)
    ensures |bytes| == 80
  {
    m.batchId + m.sourceId + m.inputId + m.profileId + m.schemaId
  }

  function Header(m: Metadata, bodyLength: nat, bodyDigest: Digest): (header: seq<Byte>)
    ensures |header| == HEADER_BYTES
  {
    Preamble() + BigEndian(bodyLength + OVERHEAD, 8) + BigEndian(bodyLength, 8) + Identities(m)
    + BigEndian(Unsigned(m.ingestionTime), 8) + bodyDigest
  }

  function Footer(frameDigest: Digest, stored: nat): (footer: seq<Byte>)
    ensures |footer| == FOOTER_BYTES
  {
    frameDigest + COMMIT_MAGIC + BigEndian(stored, 8)
  }

  /** The bytes of a committed frame. */
  function Frame(batch: Batch, hash: Hash): (bytes: seq<Byte>)
    ensures |bytes| == |batch.body| + OVERHEAD
  {
    var header := Header(batch.metadata, |batch.body|, hash(batch.body));
    header + batch.body + Footer(hash(header + batch.body), |batch.body| + OVERHEAD)
  }

  function Encode(batches: seq<Batch>, hash: Hash): seq<Byte> {
    if batches == [] then [] else Encode(batches[..|batches| - 1], hash) + Frame(batches[|batches| - 1], hash)
  }

  datatype PreparedFrame = PreparedFrame(header: seq<Byte>, footer: seq<Byte>, bodyDigest: Digest, stored: nat)

  /** Fills the header and the footer of a new frame, field by field. */
  method Prepare(metadata: Metadata, body: seq<Byte>, hash: Hash) returns (r: Result<PreparedFrame, SpoolError>)
    ensures r.Success? <==> |body| + OVERHEAD <= U64_MAX
    ensures r.Success? ==>
              && r.value.header + body + r.value.footer == Frame(Batch(metadata, body), hash)
              && r.value.stored == |Frame(Batch(metadata, body), hash)| && r.value.bodyDigest == hash(body)
  {
    if |body| + OVERHEAD > U64_MAX {
      return Failure(InvariantViolated);
    }
    var stored := |body| + OVERHEAD;
    var digest := hash(body);
    var header := FRAME_MAGIC;
    header := header + BigEndian(FORMAT_VERSION, 2);
    header := header + BigEndian(HEADER_BYTES, 2);
    header := header + BigEndian(stored, 8);
    header := header + BigEndian(|body|, 8);
    header := header + metadata.batchId;
    header := header + metadata.sourceId;
    header := header + metadata.inputId;
    header := header + metadata.profileId;
    header := header + metadata.schemaId;
    header := header + BigEndian(Unsigned(metadata.ingestionTime), 8);
    header := header + digest;
    assert header == Header(metadata, |body|, digest);
    var footer := hash(header + body);
    footer := footer + COMMIT_MAGIC;
    footer := footer + BigEndian(stored, 8);
    return Success(PreparedFrame(header, footer, digest, stored));
  }

  // ---------- decoding ----------

  function ValidateLengths(stored: nat, bodyLength: nat, limit: nat): Result<(), SpoolError> {
    if bodyLength > limit then Failure(CorruptSpool)
    else if bodyLength + OVERHEAD > U64_MAX then Failure(CorruptSpool)
    else if stored != bodyLength + OVERHEAD then Failure(CorruptSpool)
    else Success(())
  }

  datatype DecodedHeader = DecodedHeader(metadata: Metadata, bodyLength: nat, bodyDigest: Digest)

  function DecodeHeader(raw: seq<Byte>, limit: nat): Result<DecodedHeader, SpoolError>
    requires |raw| == HEADER_BYTES
  {
    if raw[..8] != FRAME_MAGIC then Failure(CorruptSpool)
    else if Number(raw[8..10]) != FORMAT_VERSION then Failure(CorruptSpool)
    else if Number(raw[10..12]) != HEADER_BYTES then Failure(CorruptSpool)
    else if ValidateLengths(Number(raw[12..20]), Number(raw[20..28]), limit).Failure? then Failure(CorruptSpool)
    else if !IsUuid(raw[28..44]) then Failure(CorruptSpool)
    else if !IsUuid(raw[44..60]) then Failure(CorruptSpool)
    else if !IsUuid(raw[60..76]) then Failure(CorruptSpool)
    else if !IsUuid(raw[76..92]) then Failure(CorruptSpool)
    else if !IsUuid(raw[92..108]) then Failure(CorruptSpool)
    else if !Representable(Signed(Number(raw[108..116]))) then Failure(CorruptSpool)
    else Success(DecodedHeader(
      Metadata(raw[28..44], raw[44..60], raw[60..76], raw[76..92], raw[92..108], Signed(Number(raw[108..116]))),
      Number(raw[20..28]), raw[116..148]))
  }

  function ValidateIncompleteHeader(prefix: seq<Byte>, limit: nat): Result<(), SpoolError> {
    var magic := if |prefix| < 8 then |prefix| else 8;
    if prefix[..magic] != FRAME_MAGIC[..magic] then Failure(CorruptSpool)
    else if |prefix| >= 10 && Number(prefix[8..10]) != FORMAT_VERSION then Failure(CorruptSpool)
    else if |prefix| >= 12 && Number(prefix[10..12]) != HEADER_BYTES then Failure(CorruptSpool)
    else if |prefix| >= 28 && ValidateLengths(Number(prefix[12..20]), Number(prefix[20..28]), limit).Failure?
      then Failure(CorruptSpool)
    else if |prefix| >= 44 && !IsUuid(prefix[28..44]) then Failure(CorruptSpool)
    else if |prefix| >= 60 && !IsUuid(prefix[44..60]) then Failure(CorruptSpool)
    else if |prefix| >= 76 && !IsUuid(prefix[60..76]) then Failure(CorruptSpool)
    else if |prefix| >= 92 && !IsUuid(prefix[76..92]) then Failure(CorruptSpool)
    else if |prefix| >= 108 && !IsUuid(prefix[92..108]) then Failure(CorruptSpool)
    else if |prefix| >= 116 && !Representable(Signed(Number(prefix[108..116]))) then Failure(CorruptSpool)
    else Success(())
  }

  function ValidateDigestsAndFooter(header: DecodedHeader, bodyDigest: Digest, frameDigest: Digest, footer: seq<Byte>)
    : Result<(), SpoolError>
    requires |footer| == FOOTER_BYTES
  {
    if header.bodyDigest != bodyDigest then Failure(CorruptSpool)
    else if footer[..32] != frameDigest then Failure(CorruptSpool)
    else if footer[32..40] != COMMIT_MAGIC then Failure(CorruptSpool)
    else if Number(footer[40..48]) != header.bodyLength + OVERHEAD then Failure(CorruptSpool)
    else Success(())
  }

  // ---------- the header is exactly its fields ----------

  /** The fields of a header, cut at their offsets. */
  lemma HeaderFields(m: Metadata, bodyLength: nat, digest: Digest)
    ensures var h := Header(m, bodyLength, digest);
            && h[..8] == FRAME_MAGIC && h[8..10] == BigEndian(FORMAT_VERSION, 2)
            && h[10..12] == BigEndian(HEADER_BYTES, 2)
            && h[12..20] == BigEndian(bodyLength + OVERHEAD, 8) && h[20..28] == BigEndian(bodyLength, 8)
            && h[28..44] == m.batchId && h[44..60] == m.sourceId && h[60..76] == m.inputId
            && h[76..92] == m.profileId && h[92..108] == m.schemaId
            && h[108..116] == BigEndian(Unsigned(m.ingestionTime), 8) && h[116..148] == digest
  {
    hide BigEndian;
  }

  /** Thirteen cuts put back together. */
  lemma CutHeader(h: seq<Byte>)
    requires |h| == HEADER_BYTES
    ensures h == h[..8] + h[8..10] + h[10..12] + h[12..20] + h[20..28]
                 + (h[28..44] + h[44..60] + h[60..76] + h[76..92] + h[92..108]) + h[108..116] + h[116..148]
  {
  }

  predicate Storable(bodyLength: nat, limit: nat) {
    bodyLength <= limit && bodyLength + OVERHEAD <= U64_MAX
  }

  /** Decoding undoes encoding. */
  lemma DecodeOfHeader(m: Metadata, bodyLength: nat, digest: Digest, limit: nat)
    requires Storable(bodyLength, limit)
    ensures DecodeHeader(Header(m, bodyLength, digest), limit) == Success(DecodedHeader(m, bodyLength, digest))
  {
    HeaderFields(m, bodyLength, digest);
    ValuesOfWidths();
    NumberOfBigEndian(FORMAT_VERSION, 2);
    NumberOfBigEndian(HEADER_BYTES, 2);
    NumberOfBigEndian(bodyLength + OVERHEAD, 8);
    NumberOfBigEndian(bodyLength, 8);
    NumberOfBigEndian(Unsigned(m.ingestionTime), 8);
    hide Header, BigEndian, Number, Values;
  }

  /** Encoding undoes decoding: a header that decodes has no other bytes than those of its fields. */
  lemma HeaderOfDecode(raw: seq<Byte>, limit: nat)
    requires |raw| == HEADER_BYTES && DecodeHeader(raw, limit).Success?
    ensures var d := DecodeHeader(raw, limit).value;
            Header(d.metadata, d.bodyLength, d.bodyDigest) == raw && Storable(d.bodyLength, limit)
  {
    hide BigEndian, Number, Values, IsUuid;
    ValuesOfWidths();
    BigEndianOfNumber(raw[8..10]);
    BigEndianOfNumber(raw[10..12]);
    BigEndianOfNumber(raw[12..20]);
    BigEndianOfNumber(raw[20..28]);
    BigEndianOfNumber(raw[108..116]);
    CutHeader(raw);
  }
}
