/**
 * Byte buffers and the `DataView` / `Uint8Array` accessors the save codec
 * uses on them: fixed-width big-endian integer writes and reads that throw a
 * `RangeError` when `offset + width` runs past the end of the buffer, the
 * bulk copy `Uint8Array.prototype.set`, and the clamping `slice`.
 */
module Bytes {
  import opened Wrappers

  type byte = x: int | 0 <= x < 0x100

  /** The exceptions the byte-level operations and the save codec can throw. */
  datatype Error =
    | RangeError        // an access past the end of a buffer
    | MagicMismatch     // "Invalid USER_SAVE: Magic number mismatch"
    | ChecksumMismatch  // "USER_SAVE checksum verification failed"
    | InvalidCharacter  // `atob` on text that is not Base64

  /** A freshly allocated buffer: `new ArrayBuffer(n)` is zero-filled. */
  function Zeros(n: nat): (r: seq<byte>)
    ensures |r| == n
    ensures forall i :: 0 <= i < n ==> r[i] == 0
  {
    seq(n, _ => 0)
  }

  /** The two bytes `setUint16(_, v, false)` stores: `v` reduced modulo 2^16, high byte first. */
  function U16Bytes(v: int): (r: seq<byte>)
    ensures |r| == 2
  {
    var w := v % 0x1_0000;
    [w / 0x100, w % 0x100]
  }

  /** The four bytes `setUint32(_, v, false)` stores: `v` reduced modulo 2^32, high byte first. */
  function U32Bytes(v: int): (r: seq<byte>)
    ensures |r| == 4
  {
    var w := v % 0x1_0000_0000;
    var w1 := w / 0x100;
    var w2 := w1 / 0x100;
    [w2 / 0x100, w2 % 0x100, w1 % 0x100, w % 0x100]
  }

  /** The unsigned value of two big-endian bytes, as `getUint16(_, false)` reads it. */
  function U16Value(s: seq<byte>): nat
    requires |s| == 2
  {
    (s[0] as int) * 0x100 + s[1]
  }

  /** The unsigned value of four big-endian bytes, as `getUint32(_, false)` reads it. */
  function U32Value(s: seq<byte>): nat
    requires |s| == 4
  {
    (((s[0] as int) * 0x100 + s[1]) * 0x100 + s[2]) * 0x100 + s[3]
  }

  lemma U16RoundTrip(v: int)
    ensures U16Value(U16Bytes(v)) == v % 0x1_0000
  {
  }

  lemma U32RoundTrip(v: int)
    ensures U32Value(U32Bytes(v)) == v % 0x1_0000_0000
  {
  }

  lemma U16Injective(s: seq<byte>)
    requires |s| == 2
    ensures U16Bytes(U16Value(s)) == s
  {
    var v := U16Value(s);
    assert v < 0x1_0000 && v % 0x1_0000 == v;
    assert v / 0x100 == s[0] && v % 0x100 == s[1];
  }

  lemma U32Injective(s: seq<byte>)
    requires |s| == 4
    ensures U32Bytes(U32Value(s)) == s
  {
    var v := U32Value(s);
    var w2 := (s[0] as int) * 0x100 + s[1];
    var w1 := w2 * 0x100 + s[2];
    assert v == w1 * 0x100 + s[3];
    assert 0 <= w2 < 0x1_0000 && 0 <= w1 < 0x100_0000;
    assert v % 0x1_0000_0000 == v;
    assert v / 0x100 == w1 && v % 0x100 == s[3];
    assert w1 / 0x100 == w2 && w1 % 0x100 == s[2];
    assert w2 / 0x100 == s[0] && w2 % 0x100 == s[1];
  }

  /** `buf` with `data` copied in at `off`, every other position unchanged. */
  function Splice(buf: seq<byte>, off: nat, data: seq<byte>): (r: seq<byte>)
    requires off + |data| <= |buf|
    ensures |r| == |buf|
    ensures r[off..off + |data|] == data
    ensures forall i :: 0 <= i < |buf| && !(off <= i < off + |data|) ==> r[i] == buf[i]
  {
    buf[..off] + data + buf[off + |data|..]
  }

  /**
   * A store of `data` at `off`: `Uint8Array.prototype.set(data, off)`, and the
   * byte-level effect of every `DataView` setter. It throws a `RangeError`
   * exactly when the bytes would run past the end of the buffer.
   */
  function Store(buf: seq<byte>, off: nat, data: seq<byte>): (r: Result<seq<byte>, Error>)
    ensures r.Ok? <==> off + |data| <= |buf|
    ensures r.Err? ==> r.error == RangeError
    ensures r.Ok? ==> r.value == Splice(buf, off, data)
  {
    if off + |data| > |buf| then Err(RangeError) else Ok(Splice(buf, off, data))
  }

  /** `view.setUint8(off, v)`: stores `v` modulo 2^8. */
  function SetUint8(buf: seq<byte>, off: nat, v: int): Result<seq<byte>, Error>
  {
    Store(buf, off, [v % 0x100])
  }

  /** `view.setUint16(off, v, false)`: stores `v` modulo 2^16, big-endian. */
  function SetUint16(buf: seq<byte>, off: nat, v: int): Result<seq<byte>, Error>
  {
    Store(buf, off, U16Bytes(v))
  }

  /** `view.setUint32(off, v, false)`: stores `v` modulo 2^32, big-endian. */
  function SetUint32(buf: seq<byte>, off: nat, v: int): Result<seq<byte>, Error>
  {
    Store(buf, off, U32Bytes(v))
  }

  /** `view.getUint8(off)`: a `RangeError` unless `off + 1 <= |buf|`. */
  function GetUint8(buf: seq<byte>, off: nat): (r: Result<nat, Error>)
    ensures r.Ok? <==> off + 1 <= |buf|
    ensures r.Err? ==> r.error == RangeError
    ensures r.Ok? ==> r.value == buf[off] < 0x100
  {
    if off + 1 > |buf| then Err(RangeError) else Ok(buf[off])
  }

  /** `view.getUint16(off, false)`: a `RangeError` unless `off + 2 <= |buf|`. */
  function GetUint16(buf: seq<byte>, off: nat): (r: Result<nat, Error>)
    ensures r.Ok? <==> off + 2 <= |buf|
    ensures r.Err? ==> r.error == RangeError
    ensures r.Ok? ==> r.value == U16Value(buf[off..off + 2]) < 0x1_0000
    ensures r.Ok? ==> U16Bytes(r.value) == buf[off..off + 2]
  {
    if off + 2 > |buf| then Err(RangeError) else
      U16Injective(buf[off..off + 2]);
      Ok(U16Value(buf[off..off + 2]))
  }

  /** `view.getUint32(off, false)`: a `RangeError` unless `off + 4 <= |buf|`. */
  function GetUint32(buf: seq<byte>, off: nat): (r: Result<nat, Error>)
    ensures r.Ok? <==> off + 4 <= |buf|
    ensures r.Err? ==> r.error == RangeError
    ensures r.Ok? ==> r.value == U32Value(buf[off..off + 4]) < 0x1_0000_0000
    ensures r.Ok? ==> U32Bytes(r.value) == buf[off..off + 4]
  {
    if off + 4 > |buf| then Err(RangeError) else
      U32Injective(buf[off..off + 4]);
      Ok(U32Value(buf[off..off + 4]))
  }

  /** `Uint8Array.prototype.slice(start, end)` for `start <= end`: both ends are clamped, it never throws. */
  function Slice(buf: seq<byte>, start: nat, end: nat): (r: seq<byte>)
    requires start <= end
    ensures |r| == (if end <= |buf| then end else |buf|) - (if start <= |buf| then start else |buf|)
    ensures end <= |buf| ==> r == buf[start..end]
    ensures start <= |buf| < end ==> r == buf[start..]
  {
    var lo := if start <= |buf| then start else |buf|;
    var hi := if end <= |buf| then end else |buf|;
    buf[lo..hi]
  }
}
