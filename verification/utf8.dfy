/**
 * UTF-8 as the browser's `TextEncoder` and `TextDecoder` implement it
 * (the WHATWG Encoding Standard), plus the one piece of UTF-16 that the
 * save codec depends on: JavaScript strings are sequences of UTF-16 code
 * units, so `slice(0, n)` can cut an astral character in half.
 *
 * Dafny's `char` is a Unicode scalar value, so a `string` here can never
 * hold a lone surrogate. A cut surrogate pair is therefore represented by
 * what `TextEncoder` makes of the lone high surrogate: U+FFFD.
 */
module Utf8 {
  import opened Bytes

  const REPLACEMENT: char := '\U{FFFD}'
  const BOM: char := '\U{FEFF}'

  /** The number of UTF-8 bytes a scalar value takes. */
  function Width(c: char): nat {
    if c as int < 0x80 then 1
    else if c as int < 0x800 then 2
    else if c as int < 0x1_0000 then 3
    else 4
  }

  predicate IsCont(x: int) {
    0x80 <= x <= 0xBF
  }

  /** The UTF-8 form of one scalar value. */
  function EncodeChar(c: char): (r: seq<byte>)
    ensures |r| == Width(c)
    ensures Width(c) == 1 <==> r[0] < 0x80
    ensures forall k :: 1 <= k < |r| ==> IsCont(r[k])
  {
    var v := c as int;
    if v < 0x80 then [v]
    else if v < 0x800 then [0xC0 + v / 0x40, 0x80 + v % 0x40]
    else if v < 0x1_0000 then [0xE0 + v / 0x1000, 0x80 + (v / 0x40) % 0x40, 0x80 + v % 0x40]
    else [0xF0 + v / 0x4_0000, 0x80 + (v / 0x1000) % 0x40, 0x80 + (v / 0x40) % 0x40, 0x80 + v % 0x40]
  }

  /** `TextEncoder.encode` of a string. */
  function Encode(s: string): (r: seq<byte>)
    decreases |s|
  {
    if s == [] then [] else EncodeChar(s[0]) + Encode(s[1..])
  }

  /** One decoder step: how many bytes it consumes and the character it emits. */
  datatype Step = Step(len: nat, ch: char)

  /**
   * The WHATWG UTF-8 decoder, one character at a time: an ill-formed
   * sequence becomes one U+FFFD per maximal subpart, and the byte that
   * broke the sequence is decoded afresh.
   */
  function DecodeOne(b: seq<byte>): (r: Step)
    requires |b| > 0
    ensures 1 <= r.len <= |b|
    ensures r.len == 1 && b[0] < 0x80 ==> r.ch as int == b[0]
  {
    var b0 := b[0] as int;
    if b0 < 0x80 then Step(1, b0 as char)
    else if b0 < 0xC2 || b0 > 0xF4 then Step(1, REPLACEMENT)
    else
      var lo := if b0 == 0xE0 then 0xA0 else if b0 == 0xF0 then 0x90 else 0x80;
      var hi := if b0 == 0xED then 0x9F else if b0 == 0xF4 then 0x8F else 0xBF;
      if |b| < 2 || !(lo <= b[1] <= hi) then Step(1, REPLACEMENT)
      else
        var b1 := b[1] as int - 0x80;
        if b0 < 0xE0 then Step(2, ((b0 - 0xC0) * 0x40 + b1) as char)
        else if |b| < 3 || !IsCont(b[2]) then Step(2, REPLACEMENT)
        else
          var b2 := b[2] as int - 0x80;
          if b0 < 0xF0 then Step(3, ((b0 - 0xE0) * 0x1000 + b1 * 0x40 + b2) as char)
          else if |b| < 4 || !IsCont(b[3]) then Step(3, REPLACEMENT)
          else
            var b3 := b[3] as int - 0x80;
            Step(4, ((b0 - 0xF0) * 0x4_0000 + b1 * 0x1000 + b2 * 0x40 + b3) as char)
  }

  /** The decoder over a whole byte sequence, without BOM handling. */
  function Decode(b: seq<byte>): (r: string)
    ensures |r| <= |b|
    decreases |b|
  {
    if b == [] then [] else
      var st := DecodeOne(b);
      [st.ch] + Decode(b[st.len..])
  }

  /** `new TextDecoder().decode(b)`: decoding, with a leading byte order mark dropped. */
  function TextDecode(b: seq<byte>): (r: string)
    ensures |r| <= |b|
  {
    var s := Decode(b);
    if |s| > 0 && s[0] == BOM then s[1..] else s
  }

  // ---------------------------------------------------------------------
  // UTF-16 code units

  /** How many UTF-16 code units JavaScript uses for a scalar value. */
  function Units(c: char): nat {
    if c as int < 0x1_0000 then 1 else 2
  }

  /**
   * What `TextEncoder` sees of `s.slice(0, n)`: the longest prefix of at
   * most `n` code units; when the cut falls inside a surrogate pair, the
   * dangling high surrogate, which the encoder replaces by U+FFFD.
   */
  function Utf16Prefix(s: string, n: nat): (r: string)
    ensures |r| <= |s|
    decreases n
  {
    if s == [] || n == 0 then []
    else if Units(s[0]) <= n then [s[0]] + Utf16Prefix(s[1..], n - Units(s[0]))
    else [REPLACEMENT]
  }

  /** The number of code units in a string. */
  function Utf16Length(s: string): nat
    decreases |s|
  {
    if s == [] then 0 else Units(s[0]) + Utf16Length(s[1..])
  }

  /** A string of scalar values below U+0080. */
  predicate IsAscii(s: string) {
    forall k :: 0 <= k < |s| ==> s[k] as int < 0x80
  }

  // ---------------------------------------------------------------------
  // Properties

  /** Decoding the first character of a well-formed sequence recovers it, whatever follows. */
  lemma DecodeOneEncodeChar(c: char, rest: seq<byte>)
    ensures DecodeOne(EncodeChar(c) + rest) == Step(Width(c), c)
  {
    var v := c as int;
    if v < 0x80 {
      assert (EncodeChar(c) + rest)[0] == v;
    } else if v < 0x800 {
      DecodeTwo(c, rest);
    } else if v < 0x1_0000 {
      DecodeThree(c, rest);
    } else {
      DecodeFour(c, rest);
    }
  }

  lemma DecodeTwo(c: char, rest: seq<byte>)
    requires 0x80 <= c as int < 0x800
    ensures DecodeOne(EncodeChar(c) + rest) == Step(2, c)
  {
    var v := c as int;
    var e := EncodeChar(c);
    var b := e + rest;
    assert b[0] == e[0] && b[1] == e[1];
    Split2(v);
  }

  lemma DecodeThree(c: char, rest: seq<byte>)
    requires 0x800 <= c as int < 0x1_0000
    ensures DecodeOne(EncodeChar(c) + rest) == Step(3, c)
  {
    var v := c as int;
    var e := EncodeChar(c);
    var b := e + rest;
    assert b[0] == e[0] && b[1] == e[1] && b[2] == e[2];
    Split3(v);
  }

  lemma DecodeFour(c: char, rest: seq<byte>)
    requires 0x1_0000 <= c as int
    ensures DecodeOne(EncodeChar(c) + rest) == Step(4, c)
  {
    var v := c as int;
    var e := EncodeChar(c);
    var b := e + rest;
    assert b[0] == e[0] && b[1] == e[1] && b[2] == e[2] && b[3] == e[3];
    Split4(v);
  }

  lemma Split2(v: int)
    requires 0x80 <= v < 0x800
    ensures 0xC2 <= 0xC0 + v / 0x40 <= 0xDF
    ensures (v / 0x40) * 0x40 + v % 0x40 == v
  {
  }

  lemma Split3(v: int)
    requires 0x800 <= v < 0x1_0000 && !(0xD800 <= v < 0xE000)
    ensures 0xE0 <= 0xE0 + v / 0x1000 <= 0xEF
    ensures v / 0x1000 == 0 ==> 0xA0 <= 0x80 + (v / 0x40) % 0x40
    ensures v / 0x1000 == 0xD ==> 0x80 + (v / 0x40) % 0x40 <= 0x9F
    ensures (v / 0x1000) * 0x1000 + ((v / 0x40) % 0x40) * 0x40 + v % 0x40 == v
  {
    var q, m := v / 0x40, v % 0x40;
    assert v == q * 0x40 + m;
    assert q / 0x40 == v / 0x1000;
    assert q == (q / 0x40) * 0x40 + q % 0x40;
  }

  lemma Split4(v: int)
    requires 0x1_0000 <= v < 0x11_0000
    ensures 0xF0 <= 0xF0 + v / 0x4_0000 <= 0xF4
    ensures v / 0x4_0000 == 0 ==> 0x90 <= 0x80 + (v / 0x1000) % 0x40
    ensures v / 0x4_0000 == 4 ==> 0x80 + (v / 0x1000) % 0x40 <= 0x8F
    ensures (v / 0x4_0000) * 0x4_0000 + ((v / 0x1000) % 0x40) * 0x1000
            + ((v / 0x40) % 0x40) * 0x40 + v % 0x40 == v
  {
    var q1, m1 := v / 0x40, v % 0x40;
    var q2, m2 := q1 / 0x40, q1 % 0x40;
    var q3, m3 := q2 / 0x40, q2 % 0x40;
    assert v == q1 * 0x40 + m1;
    assert q1 == q2 * 0x40 + m2;
    assert q2 == q3 * 0x40 + m3;
    assert q2 == v / 0x1000;
    assert q3 == v / 0x4_0000;
  }

  lemma {:induction false} EncodeAppend(s: string, t: string)
    ensures Encode(s + t) == Encode(s) + Encode(t)
    decreases |s|
  {
    if s == [] {
      assert s + t == t;
    } else {
      assert (s + t)[0] == s[0];
      assert (s + t)[1..] == s[1..] + t;
      EncodeAppend(s[1..], t);
    }
  }

  /** Decoding an encoded string followed by anything recovers the string first. */
  lemma {:induction false} DecodeEncodeAppend(s: string, tail: seq<byte>)
    ensures Decode(Encode(s) + tail) == s + Decode(tail)
    decreases |s|
  {
    if s == [] {
      assert Encode(s) + tail == tail;
    } else {
      var rest := Encode(s[1..]) + tail;
      calc {
        Decode(Encode(s) + tail);
        { assert Encode(s) + tail == EncodeChar(s[0]) + rest; }
        Decode(EncodeChar(s[0]) + rest);
        { DecodeFirst(s[0], rest); }
        [s[0]] + Decode(rest);
        { DecodeEncodeAppend(s[1..], tail); }
        [s[0]] + (s[1..] + Decode(tail));
        { assert s == [s[0]] + s[1..]; }
        s + Decode(tail);
      }
    }
  }

  lemma DecodeFirst(c: char, rest: seq<byte>)
    ensures Decode(EncodeChar(c) + rest) == [c] + Decode(rest)
  {
    var e := EncodeChar(c);
    DecodeOneEncodeChar(c, rest);
    assert (e + rest)[|e|..] == rest;
  }

  /** UTF-8 round trip. */
  lemma DecodeEncode(s: string)
    ensures Decode(Encode(s)) == s
  {
    DecodeEncodeAppend(s, []);
    assert Encode(s) + [] == Encode(s);
  }

  /** Zero bytes decode to as many NUL characters. */
  lemma {:induction false} DecodeZeros(n: nat)
    ensures |Decode(Zeros(n))| == n
    ensures forall k :: 0 <= k < n ==> Decode(Zeros(n))[k] == '\0'
    decreases n
  {
    if n > 0 {
      assert Zeros(n)[1..] == Zeros(n - 1);
      DecodeZeros(n - 1);
    }
  }

  /** An ASCII string is stored byte for byte. */
  lemma {:induction false} EncodeAscii(s: string)
    requires IsAscii(s)
    ensures |Encode(s)| == |s|
    ensures forall k :: 0 <= k < |s| ==> Encode(s)[k] == s[k] as int
    decreases |s|
  {
    if s != [] {
      assert IsAscii(s[1..]) by {
        forall k | 0 <= k < |s[1..]| ensures s[1..][k] as int < 0x80 {
          assert s[1..][k] == s[k + 1];
        }
      }
      EncodeAscii(s[1..]);
    }
  }

  /** The prefix never exceeds `n` code units, and it is the whole string when that fits. */
  lemma {:induction false} Utf16PrefixLength(s: string, n: nat)
    ensures Utf16Length(Utf16Prefix(s, n)) <= n
    ensures Utf16Length(s) <= n ==> Utf16Prefix(s, n) == s
    decreases n
  {
    if s != [] && n != 0 {
      if Units(s[0]) <= n {
        Utf16PrefixLength(s[1..], n - Units(s[0]));
        var p := Utf16Prefix(s[1..], n - Units(s[0]));
        assert ([s[0]] + p)[1..] == p;
      } else {
        assert [REPLACEMENT][1..] == [];
      }
    }
  }
}
