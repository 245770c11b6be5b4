/**
 * The text form of a save: `btoa` over the bytes read as Latin-1
 * characters, and `atob` back. This is Base64 with the alphabet and
 * padding of section 4 of RFC 4648; decoding is strict (length a multiple
 * of four, `=` only at the end), and, like `atob`, it ignores the unused
 * low bits of a padded final group.
 */
module Base64 {
  import opened Wrappers
  import opened Bytes

  /** The character for a 6-bit value. */
  function CharOf(v: int): (c: char)
    requires 0 <= v < 64
  {
    if v < 26 then ('A' as int + v) as char
    else if v < 52 then ('a' as int + (v - 26)) as char
    else if v < 62 then ('0' as int + (v - 52)) as char
    else if v == 62 then '+'
    else '/'
  }

  /** The 6-bit value of an alphabet character; `None` for anything else, `=` included. */
  function ValueOf(c: char): (r: Option<int>)
    ensures r.Some? ==> 0 <= r.value < 64
  {
    if 'A' <= c <= 'Z' then Some(c as int - 'A' as int)
    else if 'a' <= c <= 'z' then Some(c as int - 'a' as int + 26)
    else if '0' <= c <= '9' then Some(c as int - '0' as int + 52)
    else if c == '+' then Some(62)
    else if c == '/' then Some(63)
    else None
  }

  /** `btoa`: three bytes become four characters; a short final group is padded with `=`. */
  function Encode(b: seq<byte>): (s: string)
    decreases |b|
  {
    if |b| == 0 then []
    else if |b| == 1 then
      [CharOf(b[0] / 4), CharOf((b[0] % 4) * 16), '=', '=']
    else if |b| == 2 then
      [CharOf(b[0] / 4), CharOf((b[0] % 4) * 16 + b[1] / 16), CharOf((b[1] % 16) * 4), '=']
    else Quad(b[0], b[1], b[2]) + Encode(b[3..])
  }

  /** The four characters of a full group of three bytes. */
  function Quad(b0: byte, b1: byte, b2: byte): string {
    [CharOf(b0 / 4), CharOf((b0 % 4) * 16 + b1 / 16), CharOf((b1 % 16) * 4 + b2 / 64), CharOf(b2 % 64)]
  }

  /** The three bytes of a full group of four 6-bit values. */
  function Bytes3(v0: int, v1: int, v2: int, v3: int): seq<byte>
    requires 0 <= v0 < 64 && 0 <= v1 < 64 && 0 <= v2 < 64 && 0 <= v3 < 64
  {
    [v0 * 4 + v1 / 16, (v1 % 16) * 16 + v2 / 4, (v2 % 4) * 64 + v3]
  }

  /**
   * One group of four characters; only the `last` group of the text may
   * end in `==` (one byte) or `=` (two bytes).
   */
  function DecodeQuad(c0: char, c1: char, c2: char, c3: char, last: bool): (r: Result<seq<byte>, Error>)
    ensures r.Err? ==> r.error == InvalidCharacter
    ensures r.Ok? ==> 1 <= |r.value| <= 3 && (|r.value| < 3 ==> last)
  {
    var v0, v1, v2, v3 := ValueOf(c0), ValueOf(c1), ValueOf(c2), ValueOf(c3);
    if v0.None? || v1.None? then Err(InvalidCharacter)
    else if last && c2 == '=' && c3 == '=' then
      Ok([v0.value * 4 + v1.value / 16])
    else if v2.None? then Err(InvalidCharacter)
    else if last && c3 == '=' then
      Ok([v0.value * 4 + v1.value / 16, (v1.value % 16) * 16 + v2.value / 4])
    else if v3.None? then Err(InvalidCharacter)
    else Ok(Bytes3(v0.value, v1.value, v2.value, v3.value))
  }

  /** `atob`: an `InvalidCharacter` error for text that is not strict Base64. */
  function Decode(s: string): (r: Result<seq<byte>, Error>)
    ensures r.Err? ==> r.error == InvalidCharacter
    decreases |s|
  {
    if |s| == 0 then Ok([])
    else if |s| % 4 != 0 then Err(InvalidCharacter)
    else
      Then(DecodeQuad(s[0], s[1], s[2], s[3], |s| == 4), Decode(s[4..]))
  }

  /** A character of the alphabet. */
  predicate Symbol(c: char) {
    ValueOf(c).Some?
  }

  /**
   * Strict Base64 text: whole groups of four, alphabet characters only,
   * except that the text may end in `=` or `==`.
   */
  predicate Strict(s: string) {
    |s| % 4 == 0 &&
    (forall k :: 0 <= k < |s| ==> Symbol(s[k]) || (s[k] == '=' && |s| - 2 <= k)) &&
    (|s| >= 2 && s[|s| - 2] == '=' ==> s[|s| - 1] == '=')
  }

  /** The bytes of a group followed by those of the rest, or the first error. */
  function Then(group: Result<seq<byte>, Error>, rest: Result<seq<byte>, Error>): Result<seq<byte>, Error> {
    if group.Err? then group
    else if rest.Err? then rest
    else Ok(group.value + rest.value)
  }

  // ---------------------------------------------------------------------
  // Properties

  /** Four characters per started group of three bytes: 4 * ceil(|b| / 3). */
  lemma {:induction false} EncodeLength(b: seq<byte>)
    ensures |Encode(b)| == 4 * ((|b| + 2) / 3)
    decreases |b|
  {
    if |b| >= 3 {
      EncodeLength(b[3..]);
      assert |Encode(b)| == 4 + |Encode(b[3..])|;
      assert (|b| + 2) / 3 == (|b[3..]| + 2) / 3 + 1;
    }
  }

  /** The text form decodes back to exactly the bytes it was made from. */
  lemma {:induction false} DecodeEncode(b: seq<byte>)
    ensures Decode(Encode(b)) == Ok(b)
    decreases |b|
  {
    if |b| >= 3 {
      DecodeEncode(b[3..]);
      DecodeEncodeFirst(b);
    } else {
      DecodeEncodeShort(b);
    }
  }

  /** Fewer than three bytes round-trip through one padded group, or through the empty text. */
  lemma DecodeEncodeShort(b: seq<byte>)
    requires |b| < 3
    ensures Decode(Encode(b)) == Ok(b)
  {
    if |b| == 1 {
      DecodeEncodeOne(b[0]);
      assert b == [b[0]];
    } else if |b| == 2 {
      DecodeEncodeTwo(b[0], b[1]);
      assert b == [b[0], b[1]];
    }
  }

  /** A sequence whose bytes after the first three round-trip round-trips itself. */
  lemma DecodeEncodeFirst(b: seq<byte>)
    requires |b| >= 3 && Decode(Encode(b[3..])) == Ok(b[3..])
    ensures Decode(Encode(b)) == Ok(b)
  {
    DecodeEncodeStep(b[0], b[1], b[2], b[3..]);
    assert b == [b[0], b[1], b[2]] + b[3..];
  }

  /** Three bytes in front of bytes that round-trip keep the round trip. */
  lemma DecodeEncodeStep(b0: byte, b1: byte, b2: byte, t: seq<byte>)
    requires Decode(Encode(t)) == Ok(t)
    ensures Decode(Encode([b0, b1, b2] + t)) == Ok([b0, b1, b2] + t)
  {
    var b := [b0, b1, b2] + t;
    assert b[3..] == t;
    assert Encode(b) == Quad(b0, b1, b2) + Encode(t);
    EncodeLength(t);
    DecodeEncodeGroup(b0, b1, b2, Encode(t), t);
  }

  /** `atob` accepts exactly the strict Base64 texts. */
  lemma {:induction false} DecodeAcceptsStrict(s: string)
    ensures Decode(s).Ok? <==> Strict(s)
    decreases |s|
  {
    if |s| > 0 && |s| % 4 == 0 {
      DecodeAcceptsStrict(s[4..]);
      GroupAccepts(s[0], s[1], s[2], s[3], |s| == 4);
      StrictSplit(s);
    }
  }

  /** Which groups of four characters decode. */
  lemma GroupAccepts(c0: char, c1: char, c2: char, c3: char, last: bool)
    ensures DecodeQuad(c0, c1, c2, c3, last).Ok? <==>
      Symbol(c0) && Symbol(c1) &&
      (Symbol(c2) || (last && c2 == '=' && c3 == '=')) &&
      (Symbol(c3) || (last && c3 == '='))
  {
  }

  /** Strict text is a strict first group followed by strict text; only the last group may hold `=`. */
  lemma StrictSplit(s: string)
    requires |s| >= 4 && |s| % 4 == 0
    ensures Strict(s) <==>
      Symbol(s[0]) && Symbol(s[1]) &&
      (Symbol(s[2]) || (|s| == 4 && s[2] == '=' && s[3] == '=')) &&
      (Symbol(s[3]) || (|s| == 4 && s[3] == '=')) &&
      Strict(s[4..])
  {
    var t := s[4..];
    assert forall k :: 4 <= k < |s| ==> s[k] == t[k - 4];
    if |s| == 4 {
      assert t == [];
    } else {
      assert s[|s| - 2] == t[|t| - 2] && s[|s| - 1] == t[|t| - 1];
      if Strict(s) {
        forall k | 0 <= k < |t| ensures Symbol(t[k]) || (t[k] == '=' && |t| - 2 <= k) {
          assert t[k] == s[k + 4];
        }
      }
    }
  }

  lemma DecodeEncodeOne(b0: byte)
    ensures Decode(Encode([b0])) == Ok([b0])
  {
    var s := Encode([b0]);
    var v0, v1 := b0 / 4, (b0 % 4) * 16;
    ValueOfCharOf(v0);
    ValueOfCharOf(v1);
    assert DecodeQuad(s[0], s[1], s[2], s[3], true) == Ok([b0]);
    assert s[4..] == [];
    assert [b0] + [] == [b0];
  }

  lemma DecodeEncodeTwo(b0: byte, b1: byte)
    ensures Decode(Encode([b0, b1])) == Ok([b0, b1])
  {
    var s := Encode([b0, b1]);
    var v0, v1, v2 := b0 / 4, (b0 % 4) * 16 + b1 / 16, (b1 % 16) * 4;
    ValueOfCharOf(v0);
    ValueOfCharOf(v1);
    ValueOfCharOf(v2);
    assert v0 * 4 + v1 / 16 == b0;
    assert (v1 % 16) * 16 + v2 / 4 == b1;
    assert DecodeQuad(s[0], s[1], s[2], s[3], true) == Ok([b0, b1]);
    assert s[4..] == [];
    assert [b0, b1] + [] == [b0, b1];
  }

  lemma DecodeEncodeGroup(b0: byte, b1: byte, b2: byte, rest: string, tail: seq<byte>)
    requires |rest| % 4 == 0 && Decode(rest) == Ok(tail)
    ensures Decode(Quad(b0, b1, b2) + rest) == Ok([b0, b1, b2] + tail)
  {
    QuadDecodes(b0, b1, b2, |rest| == 0);
    DecodePrepend(Quad(b0, b1, b2), rest, [b0, b1, b2], tail);
  }

  /** Decoding a group followed by more text. */
  lemma DecodePrepend(q: string, rest: string, g: seq<byte>, r: seq<byte>)
    requires |q| == 4 && |rest| % 4 == 0
    requires DecodeQuad(q[0], q[1], q[2], q[3], |rest| == 0) == Ok(g)
    requires Decode(rest) == Ok(r)
    ensures Decode(q + rest) == Ok(g + r)
  {
    var s := q + rest;
    assert s[0] == q[0] && s[1] == q[1] && s[2] == q[2] && s[3] == q[3];
    assert s[4..] == rest;
    DecodeGroups(s);
  }

  /** A text of whole groups decodes its first group, then the rest. */
  lemma DecodeGroups(s: string)
    requires |s| >= 4 && |s| % 4 == 0
    ensures Decode(s) == Then(DecodeQuad(s[0], s[1], s[2], s[3], |s| == 4), Decode(s[4..]))
  {
  }

  /** The four characters of a full group decode to its three bytes, last group or not. */
  lemma QuadDecodes(b0: byte, b1: byte, b2: byte, last: bool)
    ensures var q := Quad(b0, b1, b2); DecodeQuad(q[0], q[1], q[2], q[3], last) == Ok([b0, b1, b2])
  {
    var v0, v1, v2, v3 := b0 / 4, (b0 % 4) * 16 + b1 / 16, (b1 % 16) * 4 + b2 / 64, b2 % 64;
    ValueOfCharOf(v0);
    ValueOfCharOf(v1);
    ValueOfCharOf(v2);
    ValueOfCharOf(v3);
    Group3(b0, b1, b2);
  }

  lemma Group3(b0: byte, b1: byte, b2: byte)
    ensures Bytes3(b0 / 4, (b0 % 4) * 16 + b1 / 16, (b1 % 16) * 4 + b2 / 64, b2 % 64) == [b0, b1, b2]
  {
  }

  lemma ValueOfCharOf(v: int)
    requires 0 <= v < 64
    ensures ValueOf(CharOf(v)) == Some(v)
  {
  }
}
