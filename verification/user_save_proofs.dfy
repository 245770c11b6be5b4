/**
 * Properties of the USER_SAVE record: where every field lands, what the
 * header comment gets wrong about the sizes, that the code as written can
 * never produce a record, what the corrected layout round-trips, and which
 * single-byte corruptions each layout's checksum lets through.
 */
module UserSaveProofs {
  import opened Wrappers
  import opened Bytes
  import opened Js
  import opened UserDoc
  import opened DragonName
  import opened SaveFields
  import opened UserSave
  import Crc16
  import Base64

  /** The sizes the header comment gives for the dragon-status group and for the whole record. */
  const COMMENT_DRAGON_STATUS: nat := 20
  const COMMENT_TOTAL: nat := 63

  /** The record the corrected layout promises to read back: values reduced to their field widths. */
  function Expected(u: UserDoc, nowMs: nat): Decoded {
    Decoded(
      OrInt(u.careBalance, 0) % 0x1_0000_0000,
      OrInt(u.careSilver, 0) % 0x1_0000_0000,
      OrInt(u.careGold, 0) % 0x1_0000_0000,
      ExpectedStatus(u.eggStatus),
      OrInt(u.eggSessionsRemaining, 10) % 0x100,
      DecodeName(NameHead(u.dragonName)),
      OrInt(u.dragonLevel, 1) % 0x100,
      (CreatedSeconds(u, nowMs) % 0x1_0000_0000) * 1000,
      ((nowMs / 1000) % 0x1_0000_0000) * 1000,
      OrInt(u.lifetimeActions, 0) % 0x1_0000_0000,
      OrInt(u.lifetimeSessions, 0) % 0x1_0000_0000)
  }

  /** The two statuses the format knows survive; anything else reads back as "none". */
  function ExpectedStatus(status: Option<string>): string {
    if status == Some("incubating") || status == Some("hatched") then status.value else "none"
  }

  // ---------------------------------------------------------------------
  // Layout

  /** The widths of the fifteen fields, in writing order. */
  predicate RecordWidths(fs: seq<Field>) {
    |fs| == 15 &&
    Width(fs[0]) == 4 && Width(fs[1]) == 1 && Width(fs[2]) == 8 &&
    Width(fs[3]) == 4 && Width(fs[4]) == 4 && Width(fs[5]) == 4 &&
    Width(fs[6]) == 1 && Width(fs[7]) == 1 && Width(fs[8]) == 8 && Width(fs[9]) == 10 && Width(fs[10]) == 1 &&
    Width(fs[11]) == 4 && Width(fs[12]) == 4 && Width(fs[13]) == 4 && Width(fs[14]) == 4
  }

  lemma FieldsWidths(v: FieldValues)
    requires |v.userHash| == 8 && Width(v.dragonId) == 8 && |v.dragonName| == NAME_BYTES
    ensures RecordWidths(Fields(v)) && RecordKinds(Fields(v))
  {
  }

  /**
   * The running offset of `encodeToBinary`: the fields start at 0, 4, 5, 13,
   * 17, 21, 25, 26, 27, 35, 45, 46, 50, 54 and 58, and fill 62 bytes.
   */
  lemma FieldOffsets(fs: seq<Field>)
    requires RecordWidths(fs)
    ensures Span(fs[..0]) == 0 && Span(fs[..1]) == 4 && Span(fs[..2]) == 5 && Span(fs[..3]) == 13
    ensures Span(fs[..4]) == 17 && Span(fs[..5]) == 21 && Span(fs[..6]) == 25 && Span(fs[..7]) == 26
    ensures Span(fs[..8]) == 27 && Span(fs[..9]) == 35 && Span(fs[..10]) == 45 && Span(fs[..11]) == 46
    ensures Span(fs[..12]) == 50 && Span(fs[..13]) == 54 && Span(fs[..14]) == 58 && Span(fs) == 62
  {
    assert fs[..0] == [];
    FieldStep(fs, 0);
    FieldStep(fs, 1);
    FieldStep(fs, 2);
    FieldStep(fs, 3);
    FieldStep(fs, 4);
    FieldStep(fs, 5);
    FieldStep(fs, 6);
    FieldStep(fs, 7);
    FieldStep(fs, 8);
    FieldStep(fs, 9);
    FieldStep(fs, 10);
    FieldStep(fs, 11);
    FieldStep(fs, 12);
    FieldStep(fs, 13);
    FieldStep(fs, 14);
    assert fs[..15] == fs;
  }

  /**
   * The header comment's groups against the fields: magic 4, version 1,
   * hash 8, balances 12, timestamps 8 and stats 8 agree, but the dragon
   * status group is 21 bytes, not 20, so the record is 64 bytes, not 63.
   */
  lemma HeaderCommentMiscount(fs: seq<Field>)
    requires RecordWidths(fs)
    ensures Span(fs[..1]) == 4 && Span(fs[1..2]) == 1 && Span(fs[2..3]) == 8 && Span(fs[3..6]) == 12
    ensures Span(fs[11..13]) == 8 && Span(fs[13..15]) == 8
    ensures Span(fs[6..11]) == COMMENT_DRAGON_STATUS + 1
    ensures Span(fs) + 2 == COMMENT_TOTAL + 1
  {
    FieldOffsets(fs);
    SpanBetween(fs, 1, 2);
    SpanBetween(fs, 2, 3);
    SpanBetween(fs, 3, 6);
    SpanBetween(fs, 6, 11);
    SpanBetween(fs, 11, 13);
    SpanBetween(fs, 13, 15);
    assert fs[..15] == fs;
  }

  // ---------------------------------------------------------------------
  // Encoding

  /**
   * As written, `encodeToBinary` always throws a `RangeError`: either the
   * name does not fit its field, or writing the checksum at offset 62 of a
   * 63-byte buffer throws.
   */
  lemma EncodeAlwaysThrows(u: UserDoc, sha256: seq<byte> -> Digest, nowMs: nat)
    ensures EncodeToBinary(AS_WRITTEN, u, sha256, nowMs) == Err(RangeError)
  {
    var nb := NameBytes(AS_WRITTEN, u.dragonName);
    if nb.Ok? {
      var fs := Fields(Values(u, sha256, nowMs, nb.value));
      FieldsWidths(Values(u, sha256, nowMs, nb.value));
      FieldOffsets(fs);
      var w := WriteFields(Zeros(63), 0, fs);
      if w.Ok? {
        assert |w.value| == 63;
        assert SetUint16(w.value, 62, Crc16.Crc16(w.value[..61])).Err?;
      }
    }
  }

  /** The corrected encoder never throws: it yields the fields' bytes followed by their checksum. */
  lemma EncodeCorrected(u: UserDoc, sha256: seq<byte> -> Digest, nowMs: nat)
    ensures var fs := Fields(Values(u, sha256, nowMs, EncodeDragonNameTruncated(u.dragonName)));
      EncodeToBinary(CORRECTED, u, sha256, nowMs) == Ok(Image(fs) + U16Bytes(Crc16.Crc16(Image(fs))))
  {
    var v := Values(u, sha256, nowMs, EncodeDragonNameTruncated(u.dragonName));
    var fs := Fields(v);
    FieldsWidths(v);
    WriteRecord(fs);
    SealAt62(Image(fs));
  }

  /** The fifteen fields written into a zero-filled 64-byte buffer leave two zero bytes after them. */
  lemma WriteRecord(fs: seq<Field>)
    requires RecordWidths(fs)
    ensures Span(fs) == 62 && |Image(fs)| == 62
    ensures WriteFields(Zeros(64), 0, fs) == Ok(Image(fs) + Zeros(2))
  {
    FieldOffsets(fs);
    WriteFieldsImage([], fs, 64);
    assert [] + Zeros(64) == Zeros(64);
    assert [] + Image(fs) + Zeros(2) == Image(fs) + Zeros(2);
  }

  /** Storing the checksum of the first 62 bytes in the last two bytes of a 64-byte buffer. */
  lemma SealAt62(img: seq<byte>)
    requires |img| == 62
    ensures var buf := img + Zeros(2);
      SetUint16(buf, 62, Crc16.Crc16(buf[..62])) == Ok(img + U16Bytes(Crc16.Crc16(img)))
  {
    var buf := img + Zeros(2);
    assert buf[..62] == img;
    var crc := Crc16.Crc16(img);
    assert Splice(buf, 62, U16Bytes(crc)) == img + U16Bytes(crc);
  }

  // ---------------------------------------------------------------------
  // Decoding

  lemma PrefixSlice(a: seq<byte>, x: seq<byte>, i: nat, j: nat)
    requires i <= j <= |a|
    ensures (a + x)[i..j] == a[i..j]
  {
  }

  /** The checksum reads back from the two bytes it is stored in. */
  lemma StoredChecksum(data: seq<byte>)
    ensures U16Value(U16Bytes(Crc16.Crc16(data))) == Crc16.Crc16(data)
  {
    Crc16.Crc16Bound(data);
    U16RoundTrip(Crc16.Crc16(data));
  }

  /** Any 62 bytes behind the magic number, sealed with their checksum, decode to what they hold. */
  lemma DecodeSealed(img: seq<byte>)
    requires |img| == 62 && U32Value(img[..4]) == MAGIC
    ensures DecodeFromBinary(CORRECTED, img + U16Bytes(Crc16.Crc16(img))) == Ok(ReadBack(img))
  {
    var crc := Crc16.Crc16(img);
    var buf := img + U16Bytes(crc);
    StoredChecksum(img);
    assert buf[62..64] == U16Bytes(crc);
    assert Slice(buf, 0, 62) == img;
    PrefixSlice(img, U16Bytes(crc), 0, 4);
    assert ReadBack(buf) == ReadBack(img) by {
      PrefixSlice(img, U16Bytes(crc), 13, 17);
      PrefixSlice(img, U16Bytes(crc), 17, 21);
      PrefixSlice(img, U16Bytes(crc), 21, 25);
      PrefixSlice(img, U16Bytes(crc), 35, 45);
      PrefixSlice(img, U16Bytes(crc), 46, 50);
      PrefixSlice(img, U16Bytes(crc), 50, 54);
      PrefixSlice(img, U16Bytes(crc), 54, 58);
      PrefixSlice(img, U16Bytes(crc), 58, 62);
    }
  }

  /** A 32-bit field read back: its value reduced modulo 2^32. */
  lemma ReadU32(fs: seq<Field>, k: nat)
    requires k < |fs| && fs[k].U32?
    ensures var off := Span(fs[..k]);
      off + 4 <= |Image(fs)| && U32Value(Image(fs)[off..off + 4]) == fs[k].v % 0x1_0000_0000
  {
    FieldBytesAt(fs, k);
    U32RoundTrip(fs[k].v);
  }

  /** An 8-bit field read back: its value reduced modulo 2^8. */
  lemma ReadU8(fs: seq<Field>, k: nat)
    requires k < |fs| && fs[k].U8?
    ensures var off := Span(fs[..k]);
      off < |Image(fs)| && Image(fs)[off] == fs[k].v % 0x100
  {
    FieldBytesAt(fs, k);
    var off := Span(fs[..k]);
    assert Image(fs)[off] == Image(fs)[off..off + 1][0];
  }

  /** The kinds of the fifteen fields: which are 8-bit and which 32-bit numbers. */
  predicate RecordKinds(fs: seq<Field>)
    requires |fs| == 15
  {
    fs[0].U32? && fs[3].U32? && fs[4].U32? && fs[5].U32? && fs[6].U8? && fs[7].U8? &&
    fs[10].U8? && fs[11].U32? && fs[12].U32? && fs[13].U32? && fs[14].U32?
  }

  /** Any record-shaped list of fields reads back as its values reduced to their widths. */
  lemma ReadBackOf(fs: seq<Field>)
    requires RecordWidths(fs) && RecordKinds(fs)
    ensures |Image(fs)| == 62
    ensures U32Value(Image(fs)[..4]) == fs[0].v % 0x1_0000_0000
    ensures ReadBack(Image(fs)) == Decoded(
      fs[3].v % 0x1_0000_0000, fs[4].v % 0x1_0000_0000, fs[5].v % 0x1_0000_0000,
      StatusName(fs[6].v % 0x100), fs[7].v % 0x100, DecodeName(FieldBytes(fs[9])), fs[10].v % 0x100,
      (fs[11].v % 0x1_0000_0000) * 1000, (fs[12].v % 0x1_0000_0000) * 1000,
      fs[13].v % 0x1_0000_0000, fs[14].v % 0x1_0000_0000)
  {
    var img := Image(fs);
    FieldOffsets(fs);
    ReadU32(fs, 0);
    assert img[..4] == img[0..4];
    ReadU32(fs, 3);
    ReadU32(fs, 4);
    ReadU32(fs, 5);
    ReadU8(fs, 6);
    ReadU8(fs, 7);
    FieldBytesAt(fs, 9);
    ReadU8(fs, 10);
    ReadU32(fs, 11);
    ReadU32(fs, 12);
    ReadU32(fs, 13);
    ReadU32(fs, 14);
  }

  /** The status code read back names the status written, or "none". */
  lemma StatusReadBack(status: Option<string>)
    ensures StatusName(EggStatusCode(status) % 0x100) == ExpectedStatus(status)
  {
  }

  /** The record of field values as the decoder reports them: reduced to their widths. */
  function ReadValues(v: FieldValues): Decoded {
    Decoded(
      v.careBalance % 0x1_0000_0000, v.careSilver % 0x1_0000_0000, v.careGold % 0x1_0000_0000,
      StatusName(v.eggStatus % 0x100), v.eggSessionsRemaining % 0x100, DecodeName(v.dragonName),
      v.dragonLevel % 0x100, (v.createdAt % 0x1_0000_0000) * 1000, (v.lastSync % 0x1_0000_0000) * 1000,
      v.lifetimeActions % 0x1_0000_0000, v.lifetimeSessions % 0x1_0000_0000)
  }

  /** Whatever the values, their fields read back reduced to the field widths. */
  lemma ReadBackValues(v: FieldValues)
    requires |v.userHash| == 8 && Width(v.dragonId) == 8 && |v.dragonName| == NAME_BYTES
    ensures |Image(Fields(v))| == 62
    ensures U32Value(Image(Fields(v))[..4]) == MAGIC
    ensures ReadBack(Image(Fields(v))) == ReadValues(v)
  {
    var fs := Fields(v);
    FieldsWidths(v);
    FieldsAt(v);
    ReadBackOf(fs);
    MagicFits();
  }

  lemma MagicFits()
    ensures MAGIC % 0x1_0000_0000 == MAGIC
  {
  }

  lemma FieldsAt(v: FieldValues)
    ensures var fs := Fields(v);
      fs[0] == U32(MAGIC) && fs[9] == Raw(v.dragonName) &&
      fs[3] == U32(v.careBalance) && fs[4] == U32(v.careSilver) && fs[5] == U32(v.careGold) &&
      fs[6] == U8(v.eggStatus) && fs[7] == U8(v.eggSessionsRemaining) && fs[10] == U8(v.dragonLevel) &&
      fs[11] == U32(v.createdAt) && fs[12] == U32(v.lastSync) &&
      fs[13] == U32(v.lifetimeActions) && fs[14] == U32(v.lifetimeSessions)
  {
  }

  /** The corrected record's fields, read back from its bytes, are the promised values. */
  lemma ReadBackFields(u: UserDoc, sha256: seq<byte> -> Digest, nowMs: nat)
    ensures var fs := Fields(Values(u, sha256, nowMs, EncodeDragonNameTruncated(u.dragonName)));
      |Image(fs)| == 62 && U32Value(Image(fs)[..4]) == MAGIC && ReadBack(Image(fs)) == Expected(u, nowMs)
  {
    var v := Values(u, sha256, nowMs, EncodeDragonNameTruncated(u.dragonName));
    ReadBackValues(v);
    StatusReadBack(u.eggStatus);
    TruncatedNameRoundTrip(u.dragonName);
    assert ReadValues(v) == Expected(u, nowMs);
  }

  /**
   * Round trip of the corrected record: every field reads back as written,
   * reduced to its width, the status as one of the three names, the name as
   * the decoding of the first ten bytes of its UTF-8 form, and the two times
   * in milliseconds.
   */
  lemma RoundTrip(u: UserDoc, sha256: seq<byte> -> Digest, nowMs: nat)
    ensures EncodeToBinary(CORRECTED, u, sha256, nowMs).Ok?
    ensures DecodeFromBinary(CORRECTED, EncodeToBinary(CORRECTED, u, sha256, nowMs).value) == Ok(Expected(u, nowMs))
  {
    var fs := Fields(Values(u, sha256, nowMs, EncodeDragonNameTruncated(u.dragonName)));
    EncodeCorrected(u, sha256, nowMs);
    ReadBackFields(u, sha256, nowMs);
    DecodeSealed(Image(fs));
  }

  /** The text round trip: `loadUserSave` of the Base64 form of a corrected record. */
  lemma LoadRoundTrip(u: UserDoc, sha256: seq<byte> -> Digest, nowMs: nat)
    ensures EncodeToBinary(CORRECTED, u, sha256, nowMs).Ok?
    ensures LoadUserSave(CORRECTED, BinaryToBase64(EncodeToBinary(CORRECTED, u, sha256, nowMs).value))
         == Ok(Expected(u, nowMs))
  {
    RoundTrip(u, sha256, nowMs);
  }

  /** Text that is not Base64 fails with the transport error before any record check. */
  lemma NotBase64Rejected(L: Layout)
    ensures LoadUserSave(L, "not-base64!!") == Err(InvalidCharacter)
  {
    assert !Base64.Symbol("not-base64!!"[3]);
  }

  // ---------------------------------------------------------------------
  // Corruption

  lemma U32ValueDiffers(s: seq<byte>, t: seq<byte>)
    requires |s| == 4 && |t| == 4 && s != t
    ensures U32Value(s) != U32Value(t)
  {
    U32Injective(s);
    U32Injective(t);
  }

  /**
   * As written, the checksum covers bytes 0 to 60 only: changing byte 61 of
   * an accepted record is still accepted, and silently changes the lifetime
   * session count.
   */
  lemma ByteSixtyOneUnprotected(buf: seq<byte>, b: byte)
    requires DecodeFromBinary(AS_WRITTEN, buf).Ok?
    ensures var r, r2 := DecodeFromBinary(AS_WRITTEN, buf), DecodeFromBinary(AS_WRITTEN, buf[61 := b]);
      r2.Ok? &&
      r2.value == r.value.(lifetimeSessions := U32Value(buf[61 := b][58..62])) &&
      (b != buf[61] ==> r2.value.lifetimeSessions != r.value.lifetimeSessions)
  {
    var buf2 := buf[61 := b];
    assert buf2[..4] == buf[..4];
    assert buf2[62..64] == buf[62..64];
    assert Slice(buf2, 0, 61) == Slice(buf, 0, 61);
    assert buf2[13..17] == buf[13..17] && buf2[17..21] == buf[17..21] && buf2[21..25] == buf[21..25];
    assert buf2[35..45] == buf[35..45];
    assert buf2[46..50] == buf[46..50] && buf2[50..54] == buf[50..54] && buf2[54..58] == buf[54..58];
    if b != buf[61] {
      assert buf2[58..62][3] != buf[58..62][3];
      U32ValueDiffers(buf2[58..62], buf[58..62]);
    }
  }

  /**
   * With the corrected layout every single-byte change among the 62 field
   * bytes of an accepted record is rejected: a change to the magic number as
   * a magic mismatch, any other as a checksum failure.
   */
  lemma SingleByteChangeRejected(buf: seq<byte>, i: nat, b: byte)
    requires DecodeFromBinary(CORRECTED, buf).Ok?
    requires i < 62 && b != buf[i]
    ensures DecodeFromBinary(CORRECTED, buf[i := b]) == Err(if i < 4 then MagicMismatch else ChecksumMismatch)
  {
    var buf2 := buf[i := b];
    if i < 4 {
      assert buf2[..4][i] != buf[..4][i];
      U32ValueDiffers(buf2[..4], buf[..4]);
    } else {
      assert buf2[..4] == buf[..4];
      assert buf2[62..64] == buf[62..64];
      var d1, d2 := buf[..62], buf2[..62];
      assert Slice(buf, 0, 62) == d1 && Slice(buf2, 0, 62) == d2;
      assert d1[i] != d2[i];
      assert forall j :: 0 <= j < 62 && j != i ==> d1[j] == d2[j];
      Crc16.SingleByteChangeDetected(d1, d2, i);
    }
  }

  /**
   * As written, a single-byte change among bytes 4 to 60 of an accepted
   * record is still rejected as a checksum failure; only byte 61 escapes.
   */
  lemma AsWrittenSingleByteChangeRejected(buf: seq<byte>, i: nat, b: byte)
    requires DecodeFromBinary(AS_WRITTEN, buf).Ok?
    requires 4 <= i < 61 && b != buf[i]
    ensures DecodeFromBinary(AS_WRITTEN, buf[i := b]) == Err(ChecksumMismatch)
  {
    var buf2 := buf[i := b];
    assert buf2[..4] == buf[..4];
    assert buf2[62..64] == buf[62..64];
    var d1, d2 := buf[..61], buf2[..61];
    assert Slice(buf, 0, 61) == d1 && Slice(buf2, 0, 61) == d2;
    assert d1[i] != d2[i];
    assert forall j :: 0 <= j < 61 && j != i ==> d1[j] == d2[j];
    Crc16.SingleByteChangeDetected(d1, d2, i);
  }

  /** As written, a record sealed with the checksum of its first 61 bytes is accepted. */
  lemma AsWrittenSealed(img: seq<byte>)
    requires |img| == 62 && U32Value(img[..4]) == MAGIC
    ensures DecodeFromBinary(AS_WRITTEN, img + U16Bytes(Crc16.Crc16(img[..61]))).Ok?
  {
    var crc := Crc16.Crc16(img[..61]);
    var buf := img + U16Bytes(crc);
    StoredChecksum(img[..61]);
    assert buf[62..64] == U16Bytes(crc);
    assert Slice(buf, 0, 61) == img[..61];
    PrefixSlice(img, U16Bytes(crc), 0, 4);
  }

  /** So the as-written decoder accepts some record, and the corruption lemmas above are not vacuous. */
  lemma AsWrittenAcceptsSome()
    ensures exists buf :: |buf| == 64 && DecodeFromBinary(AS_WRITTEN, buf).Ok?
  {
    var img := U32Bytes(MAGIC) + Zeros(58);
    MagicFits();
    U32RoundTrip(MAGIC);
    assert img[..4] == U32Bytes(MAGIC);
    AsWrittenSealed(img);
    var buf := img + U16Bytes(Crc16.Crc16(img[..61]));
    assert |buf| == 64;
  }
}
