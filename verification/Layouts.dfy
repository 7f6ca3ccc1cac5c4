/** The bytes of the three file formats, field by field: spool frames, the checkpoint file and the output recovery
    log. */
module Layouts {
  import opened Basics
  import opened ByteStrings
  import opened Frames
  import opened SpoolRecovery
  import opened OutputLog

  lemma TwoBytes(s: seq<Byte>)
    requires |s| == 2
    ensures var high: nat := s[0]; Number(s) == high * 256 + s[1]
  {
    var first := s[..1];
    assert first == [s[0]] && first[..0] == [] && Number(first) == s[0];
  }

  /** Version 7, variant of RFC 9562. */
  predicate Uuid7(s: seq<Byte>, at: nat)
    requires at + 16 <= |s|
  {
    0x70 <= s[at + 6] <= 0x7F && 0x80 <= s[at + 8] <= 0xBF
  }

  lemma Uuids(s: seq<Byte>, at: nat)
    requires at + 16 <= |s|
    ensures IsUuid(s[at..at + 16]) <==> Uuid7(s, at)
  {
    assert s[at..at + 16][6] == s[at + 6] && s[at..at + 16][8] == s[at + 8];
  }

  /** A frame header: "ELUCSP01", version 1, 148 bytes, the stored and the body length, five identities, the ingestion
      time and the digest of the body. */
  lemma FrameHeader(raw: seq<Byte>, limit: nat)
    requires |raw| == 148
    ensures DecodeHeader(raw, limit).Success? <==>
              var length := Number(raw[20..28]);
              var time := Signed(Number(raw[108..116]));
              && raw[..8] == [0x45, 0x4C, 0x55, 0x43, 0x53, 0x50, 0x30, 0x31]
              && raw[8] == 0 && raw[9] == 1 && raw[10] == 0 && raw[11] == 148
              && length <= limit && length + 196 <= U64_MAX && Number(raw[12..20]) == length + 196
              && Uuid7(raw, 28) && Uuid7(raw, 44) && Uuid7(raw, 60) && Uuid7(raw, 76) && Uuid7(raw, 92)
              && -8_334_601_228_800_000 <= time <= 8_210_266_876_799_999
    ensures DecodeHeader(raw, limit).Success? ==>
              var header := DecodeHeader(raw, limit).value;
              var m := header.metadata;
              && m.batchId == raw[28..44] && m.sourceId == raw[44..60] && m.inputId == raw[60..76]
              && m.profileId == raw[76..92] && m.schemaId == raw[92..108]
              && m.ingestionTime == Signed(Number(raw[108..116]))
              && header.bodyLength == Number(raw[20..28]) && header.bodyDigest == raw[116..148]
  {
    TwoBytes(raw[8..10]);
    TwoBytes(raw[10..12]);
    Uuids(raw, 28);
    Uuids(raw, 44);
    Uuids(raw, 60);
    Uuids(raw, 76);
    Uuids(raw, 92);
    hide IsUuid, Number, Signed;
  }

  /** A frame footer: the digest of header and body, "ELUCCM01" and the stored length. */
  lemma FrameFooter(digest: Digest, stored: nat)
    ensures var footer := Footer(digest, stored);
            && |footer| == 48 && footer[..32] == digest && footer[40..48] == BigEndian(stored, 8)
            && footer[32..40] == [0x45, 0x4C, 0x55, 0x43, 0x43, 0x4D, 0x30, 0x31]
  {
    hide BigEndian;
  }

  /** A checkpoint file: "ELUCKP01", version 1, 52 bytes, the position and the digest of all that. */
  lemma CheckpointFile(bytes: seq<Byte>, hash: Hash, position: nat)
    ensures LoadCheckpoint(bytes, hash) == Success(position) <==>
              && |bytes| == 52 && bytes[..8] == [0x45, 0x4C, 0x55, 0x43, 0x4B, 0x50, 0x30, 0x31]
              && bytes[8] == 0 && bytes[9] == 1 && bytes[10] == 0 && bytes[11] == 52
              && Number(bytes[12..20]) == position && bytes[20..] == hash(bytes[..20])
  {
    if |bytes| == 52 {
      TwoBytes(bytes[8..10]);
      TwoBytes(bytes[10..12]);
      hide Number;
    }
  }

  /** A log header: "ELUCOR01", version 1, 76 bytes, the payload length up to 8 MiB, the identity, the revision and
      the digest of the payload. */
  lemma RecoveryLogHeader(header: seq<Byte>)
    requires |header| == 76
    ensures DecodeLogHeader(header).Success? <==>
              && header[..8] == [0x45, 0x4C, 0x55, 0x43, 0x4F, 0x52, 0x30, 0x31]
              && header[8] == 0 && header[9] == 1 && header[10] == 0 && header[11] == 76
              && 0 < Number(header[12..20]) <= 8_388_608
    ensures DecodeLogHeader(header).Success? ==>
              DecodeLogHeader(header).value ==
              LogHeaderFields(Number(header[12..20]), header[20..36], Number(header[36..44]), header[44..76])
  {
    TwoBytes(header[8..10]);
    TwoBytes(header[10..12]);
    hide Number;
  }

  /** Where less than a header is left, the log accepts exactly what agrees with a header in its magic, as far as that
      goes, and in every later number that is whole. */
  lemma IncompleteLogHeader(prefix: seq<Byte>)
    requires |prefix| < 76
    ensures ValidateIncompleteLogHeader(prefix).Success? <==>
              && (forall i :: 0 <= i < |prefix| && i < 8 ==>
                    prefix[i] == [0x45, 0x4C, 0x55, 0x43, 0x4F, 0x52, 0x30, 0x31][i])
              && (|prefix| >= 10 ==> prefix[8] == 0 && prefix[9] == 1)
              && (|prefix| >= 12 ==> prefix[10] == 0 && prefix[11] == 76)
              && (|prefix| >= 20 ==> 0 < Number(prefix[12..20]) <= 8_388_608)
  {
    var magic := if |prefix| < 8 then |prefix| else 8;
    assert prefix[..magic] == RECOVERY_MAGIC[..magic] <==>
           forall i :: 0 <= i < magic ==> prefix[i] == RECOVERY_MAGIC[i];
    if |prefix| >= 10 {
      TwoBytes(prefix[8..10]);
    }
    if |prefix| >= 12 {
      TwoBytes(prefix[10..12]);
    }
    hide Number;
  }
}
