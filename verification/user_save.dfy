/**
 * `UserSaveEncoder`: the binary USER_SAVE record, its Base64 text form,
 * and `loadUserSave`.
 *
 * The record is a run of big-endian fields behind the magic number "CARE"
 * and a CRC-16 trailer. The code writes 62 bytes of fields into a 63-byte
 * buffer, checksums the first 61 of them and tries to store the checksum
 * at offset 62, which throws. A `Layout` names the two numbers that
 * matter: `AS_WRITTEN` is the code's, `CORRECTED` is the evidently
 * intended 64-byte record whose checksum covers every field. The corrected
 * layout also cuts the dragon name's UTF-8 form to its first ten bytes
 * instead of throwing.
 *
 * SHA-256 is a parameter (`sha256`), and so is the clock (`nowMs`, the
 * value of `Date.now()`).
 */
module UserSave {
  import opened Wrappers
  import opened Bytes
  import opened Js
  import opened UserDoc
  import opened DragonName
  import opened SaveFields
  import Utf8
  import Crc16
  import Base64

  const MAGIC: nat := 0x43415245   // "CARE"
  const VERSION: nat := 1
  const MAX_SIZE: nat := 868       // capacity of an NTAG 216 card

  /**
   * The checksum is stored at the end of the fields and covers the first
   * `protectedLength` bytes; the record is `bufferSize` bytes long; with
   * `cutName` the name's UTF-8 form is cut to ten bytes instead of throwing.
   */
  datatype Layout = Layout(bufferSize: nat, protectedLength: nat, cutName: bool)

  const AS_WRITTEN := Layout(63, 61, false)
  const CORRECTED := Layout(64, 62, true)

  /** A SHA-256 digest. */
  type Digest = d: seq<byte> | |d| == 32 witness Zeros(32)

  /** `generateUserHash`: the first eight bytes of the digest of the UTF-8 form of `email:uid`. */
  function GenerateUserHash(sha256: seq<byte> -> Digest, email: Option<string>, uid: Option<string>): (r: seq<byte>)
    ensures |r| == 8
    ensures r <= sha256(Utf8.Encode(Render(email) + ":" + Render(uid)))
  {
    sha256(Utf8.Encode(Render(email) + ":" + Render(uid)))[..8]
  }

  /** `eggStatusMap[eggStatus] || 0`. */
  function EggStatusCode(status: Option<string>): (r: nat)
    ensures r <= 2
    ensures r == 1 <==> status == Some("incubating")
    ensures r == 2 <==> status == Some("hatched")
  {
    if status == Some("incubating") then 1
    else if status == Some("hatched") then 2
    else 0
  }

  /** The decoder's `['none', 'incubating', 'hatched'][code] || 'none'`. */
  function StatusName(code: nat): (r: string)
    ensures r == "none" || r == "incubating" || r == "hatched"
    ensures r == "incubating" <==> code == 1
    ensures r == "hatched" <==> code == 2
  {
    if code == 1 then "incubating"
    else if code == 2 then "hatched"
    else "none"
  }

  /** Eight bytes of the dragon id's digest, or nothing written when there is no id. */
  function DragonIdField(sha256: seq<byte> -> Digest, id: Option<string>): (f: Field)
    ensures Width(f) == 8
    ensures f.Skip? <==> !Truthy(id)
  {
    if Truthy(id) then Raw(sha256(Utf8.Encode(id.value))[..8]) else Skip(8)
  }

  /** `userData.createdAt?.seconds || Math.floor(Date.now() / 1000)`. */
  function CreatedSeconds(u: UserDoc, nowMs: nat): (r: int)
    ensures u.createdAt.Some? && u.createdAt.value.seconds != 0 ==> r == u.createdAt.value.seconds
    ensures u.createdAt.None? || u.createdAt.value.seconds == 0 ==> r == nowMs / 1000
  {
    OrInt(if u.createdAt.Some? then Some(u.createdAt.value.seconds) else None, nowMs / 1000)
  }

  /** The ten bytes of the name field under a layout. */
  function NameBytes(L: Layout, name: Option<string>): (r: Result<seq<byte>, Error>)
    ensures r.Ok? ==> |r.value| == NAME_BYTES
    ensures r.Err? ==> r.error == RangeError && !L.cutName
    ensures L.cutName ==> r == Ok(EncodeDragonNameTruncated(name))
  {
    if L.cutName then Ok(EncodeDragonNameTruncated(name)) else EncodeDragonName(name)
  }

  /** The values `encodeToBinary` writes, once the defaults for missing fields are applied. */
  datatype FieldValues = FieldValues(
    userHash: seq<byte>,
    careBalance: int,
    careSilver: int,
    careGold: int,
    eggStatus: int,
    eggSessionsRemaining: int,
    dragonId: Field,
    dragonName: seq<byte>,
    dragonLevel: int,
    createdAt: int,
    lastSync: int,
    lifetimeActions: int,
    lifetimeSessions: int)

  /** The defaults of `encodeToBinary`: `|| 0` for counters, `|| 10` sessions, `|| 1` level, the clock for times. */
  function Values(u: UserDoc, sha256: seq<byte> -> Digest, nowMs: nat, name: seq<byte>): (v: FieldValues)
    ensures |v.userHash| == 8 && Width(v.dragonId) == 8 && v.dragonName == name
  {
    FieldValues(
      GenerateUserHash(sha256, u.email, u.uid),
      OrInt(u.careBalance, 0),
      OrInt(u.careSilver, 0),
      OrInt(u.careGold, 0),
      EggStatusCode(u.eggStatus),
      OrInt(u.eggSessionsRemaining, 10),
      DragonIdField(sha256, u.dragonId),
      name,
      OrInt(u.dragonLevel, 1),
      CreatedSeconds(u, nowMs),
      nowMs / 1000,
      OrInt(u.lifetimeActions, 0),
      OrInt(u.lifetimeSessions, 0))
  }

  /** The fields `encodeToBinary` writes, in order. */
  function Fields(v: FieldValues): (fs: seq<Field>)
    ensures |fs| == 15
  {
    [ U32(MAGIC),
      U8(VERSION),
      Raw(v.userHash),
      U32(v.careBalance),
      U32(v.careSilver),
      U32(v.careGold),
      U8(v.eggStatus),
      U8(v.eggSessionsRemaining),
      v.dragonId,
      Raw(v.dragonName),
      U8(v.dragonLevel),
      U32(v.createdAt),
      U32(v.lastSync),
      U32(v.lifetimeActions),
      U32(v.lifetimeSessions) ]
  }

  /**
   * `encodeToBinary`: the fields written into a zero-filled buffer, then the
   * CRC-16 of its first `protectedLength` bytes stored after the last field.
   * Every failure is a `RangeError`.
   */
  function EncodeToBinary(L: Layout, u: UserDoc, sha256: seq<byte> -> Digest, nowMs: nat): (r: Result<seq<byte>, Error>)
    ensures r.Err? ==> r.error == RangeError
    ensures r.Ok? ==> |r.value| == L.bufferSize
  {
    var name :- NameBytes(L, u.dragonName);
    var fs := Fields(Values(u, sha256, nowMs, name));
    var buf :- WriteFields(Zeros(L.bufferSize), 0, fs);
    // new Uint8Array(buffer, 0, protectedLength) throws past the end of the buffer
    if L.protectedLength > |buf| then Err(RangeError)
    else SetUint16(buf, Span(fs), Crc16.Crc16(buf[..L.protectedLength]))
  }

  /** What `decodeFromBinary` returns; the two dates are in milliseconds. */
  datatype Decoded = Decoded(
    careBalance: nat,
    careSilver: nat,
    careGold: nat,
    eggStatus: string,
    eggSessionsRemaining: nat,
    dragonName: Option<string>,
    dragonLevel: nat,
    createdAtMs: nat,
    lastSyncMs: nat,
    lifetimeActions: nat,
    lifetimeSessions: nat)

  /** The record's fields as the decoder finds them in the first 62 bytes of `buf`. */
  function ReadBack(buf: seq<byte>): Decoded
    requires |buf| >= 62
  {
    Decoded(
      U32Value(buf[13..17]), U32Value(buf[17..21]), U32Value(buf[21..25]),
      StatusName(buf[25]), buf[26], DecodeName(buf[35..45]), buf[45],
      U32Value(buf[46..50]) * 1000, U32Value(buf[50..54]) * 1000,
      U32Value(buf[54..58]), U32Value(buf[58..62]))
  }

  /**
   * The reads of `decodeFromBinary` after the magic number, in order; the
   * first read past the end of the buffer throws. A version other than 1
   * only warns; the user hash and the dragon id are not read back.
   */
  function ReadFields(buf: seq<byte>): (r: Result<Decoded, Error>)
    ensures r.Ok? <==> |buf| >= 62
    ensures r.Err? ==> r.error == RangeError
    ensures r.Ok? ==> r.value == ReadBack(buf)
  {
    var version :- GetUint8(buf, 4);
    var careBalance :- GetUint32(buf, 13);
    var careSilver :- GetUint32(buf, 17);
    var careGold :- GetUint32(buf, 21);
    var eggStatusCode :- GetUint8(buf, 25);
    var eggSessionsRemaining :- GetUint8(buf, 26);
    var dragonName := DecodeName(Slice(buf, 35, 45));
    var dragonLevel :- GetUint8(buf, 45);
    var createdAt :- GetUint32(buf, 46);
    var lastSync :- GetUint32(buf, 50);
    var lifetimeActions :- GetUint32(buf, 54);
    var lifetimeSessions :- GetUint32(buf, 58);
    Ok(Decoded(careBalance, careSilver, careGold, StatusName(eggStatusCode),
               eggSessionsRemaining, dragonName, dragonLevel,
               createdAt * 1000, lastSync * 1000, lifetimeActions, lifetimeSessions))
  }

  /**
   * `decodeFromBinary`: the magic number is checked first, every read past
   * the end throws a `RangeError`, and the checksum stored at offset 62 must
   * equal the CRC-16 of the first `protectedLength` bytes.
   */
  function DecodeFromBinary(L: Layout, buf: seq<byte>): (r: Result<Decoded, Error>)
    ensures |buf| < 4 ==> r == Err(RangeError)
    ensures |buf| >= 4 && U32Value(buf[..4]) != MAGIC ==> r == Err(MagicMismatch)
    ensures |buf| >= 4 && U32Value(buf[..4]) == MAGIC && |buf| < 64 ==> r == Err(RangeError)
    ensures |buf| >= 64 && U32Value(buf[..4]) == MAGIC ==>
      (r.Ok? <==> U16Value(buf[62..64]) == Crc16.Crc16(Slice(buf, 0, L.protectedLength))) &&
      (r.Err? ==> r.error == ChecksumMismatch)
    ensures r.Ok? ==> |buf| >= 64 && r.value == ReadBack(buf)
  {
    var magic :- GetUint32(buf, 0);
    if magic != MAGIC then Err(MagicMismatch)
    else
      var record :- ReadFields(buf);
      var stored :- GetUint16(buf, 62);
      if stored != Crc16.Crc16(Slice(buf, 0, L.protectedLength)) then Err(ChecksumMismatch)
      else Ok(record)
  }

  /** `binaryToBase64`. */
  function BinaryToBase64(b: seq<byte>): (s: string)
    ensures |s| == 4 * ((|b| + 2) / 3)
    ensures Base64.Decode(s) == Ok(b)
  {
    Base64.EncodeLength(b);
    Base64.DecodeEncode(b);
    Base64.Encode(b)
  }

  /** `loadUserSave`: the text decoded from Base64, then the record decoded. */
  function LoadUserSave(L: Layout, text: string): (r: Result<Decoded, Error>)
    ensures !Base64.Strict(text) ==> r == Err(InvalidCharacter)
    ensures Base64.Decode(text).Err? ==> r == Err(InvalidCharacter)
    ensures Base64.Decode(text).Ok? ==> r == DecodeFromBinary(L, Base64.Decode(text).value)
  {
    Base64.DecodeAcceptsStrict(text);
    var bytes :- Base64.Decode(text);
    DecodeFromBinary(L, bytes)
  }
}
