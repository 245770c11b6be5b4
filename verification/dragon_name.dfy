/**
 * The 10-byte dragon-name field of a user save: how `encodeDragonName`
 * fills it, how the decoder reads it back (`TextDecoder`, then every NUL
 * removed, then `|| null`), and a corrected encoder that cuts the UTF-8
 * form of the whole name to its first 10 bytes instead of taking 10 UTF-16
 * code units and throwing when their UTF-8 form does not fit.
 */
module DragonName {
  import opened Wrappers
  import opened Bytes
  import opened Js
  import Utf8

  const NAME_BYTES: nat := 10

  /**
   * `encodeDragonName`: ten zero bytes for a missing or empty name;
   * otherwise the UTF-8 form of the first ten UTF-16 code units copied to
   * the front, which throws a `RangeError` when that form is longer than
   * ten bytes.
   */
  function EncodeDragonName(name: Option<string>): (r: Result<seq<byte>, Error>)
    ensures r.Ok? ==> |r.value| == NAME_BYTES
    ensures r.Err? ==> r.error == RangeError
    ensures !Truthy(name) ==> r == Ok(Zeros(NAME_BYTES))
    ensures Truthy(name) ==>
      var enc := Utf8.Encode(Utf8.Utf16Prefix(name.value, NAME_BYTES));
      (r.Ok? <==> |enc| <= NAME_BYTES) &&
      (r.Ok? ==> r.value == enc + Zeros(NAME_BYTES - |enc|))
  {
    if !Truthy(name) then Ok(Zeros(NAME_BYTES))
    else
      var enc := Utf8.Encode(Utf8.Utf16Prefix(name.value, NAME_BYTES));
      var r := Store(Zeros(NAME_BYTES), 0, enc);
      assert r.Ok? ==> r.value == enc + Zeros(NAME_BYTES - |enc|);
      r
  }

  /** The first ten bytes of the UTF-8 form of a name; none for a missing or empty one. */
  function NameHead(name: Option<string>): (r: seq<byte>)
    ensures |r| <= NAME_BYTES
    ensures r <= Utf8.Encode(OrStr(name, ""))
    ensures |Utf8.Encode(OrStr(name, ""))| <= NAME_BYTES ==> r == Utf8.Encode(OrStr(name, ""))
  {
    var enc := Utf8.Encode(OrStr(name, ""));
    enc[..Min(NAME_BYTES, |enc|)]
  }

  /**
   * The corrected encoder: the UTF-8 form of the name cut to its first ten
   * bytes, possibly in the middle of a character, then padded with zeros.
   * It never throws.
   */
  function EncodeDragonNameTruncated(name: Option<string>): (r: seq<byte>)
    ensures |r| == NAME_BYTES
    ensures !Truthy(name) ==> r == Zeros(NAME_BYTES)
    ensures Truthy(name) ==> var enc := Utf8.Encode(name.value);
      (|enc| <= NAME_BYTES ==> r == enc + Zeros(NAME_BYTES - |enc|)) &&
      (|enc| > NAME_BYTES ==> r == enc[..NAME_BYTES])
  {
    var head := NameHead(name);
    assert !Truthy(name) ==> head == [];
    Splice(Zeros(NAME_BYTES), 0, head)
  }

  /** `s.replace(/\0/g, '')`. */
  function RemoveNul(s: string): (r: string)
    ensures '\0' !in r
    ensures |r| <= |s|
    decreases |s|
  {
    if s == [] then []
    else if s[0] == '\0' then RemoveNul(s[1..])
    else [s[0]] + RemoveNul(s[1..])
  }

  /** A leading byte order mark dropped, as `TextDecoder` does. */
  function StripBom(s: string): string {
    if |s| > 0 && s[0] == Utf8.BOM then s[1..] else s
  }

  /** How the decoder reads the name field: decoded, NULs removed, `''` read as absent. */
  function DecodeName(b: seq<byte>): (r: Option<string>)
    ensures r.Some? ==> r.value != [] && '\0' !in r.value
  {
    var s := RemoveNul(Utf8.TextDecode(b));
    if s == [] then None else Some(s)
  }

  /** What a reader gets back for stored characters `t`: a BOM and NULs lost, `''` absent. */
  function StoredName(t: string): Option<string> {
    var s := RemoveNul(StripBom(t));
    if s == [] then None else Some(s)
  }

  // ---------------------------------------------------------------------
  // Properties

  lemma {:induction false} RemoveNulAppend(a: string, b: string)
    ensures RemoveNul(a + b) == RemoveNul(a) + RemoveNul(b)
    decreases |a|
  {
    if a == [] {
      assert a + b == b;
    } else {
      assert (a + b)[0] == a[0];
      assert (a + b)[1..] == a[1..] + b;
      RemoveNulAppend(a[1..], b);
    }
  }

  /** Removing NULs from a string of NULs leaves nothing. */
  lemma {:induction false} RemoveNulAllNul(s: string)
    requires forall k :: 0 <= k < |s| ==> s[k] == '\0'
    ensures RemoveNul(s) == []
    decreases |s|
  {
    if s != [] {
      RemoveNulAllNul(s[1..]);
    }
  }

  /** A string without NULs is left as it is. */
  lemma {:induction false} RemoveNulKeeps(s: string)
    requires '\0' !in s
    ensures RemoveNul(s) == s
    decreases |s|
  {
    if s != [] {
      assert s == [s[0]] + s[1..];
      RemoveNulKeeps(s[1..]);
    }
  }

  /** A field holding the UTF-8 form of `t` padded with zeros reads back as `StoredName(t)`. */
  lemma DecodeStoredName(t: string)
    requires |Utf8.Encode(t)| <= NAME_BYTES
    ensures DecodeName(Utf8.Encode(t) + Zeros(NAME_BYTES - |Utf8.Encode(t)|)) == StoredName(t)
  {
    var z := NAME_BYTES - |Utf8.Encode(t)|;
    var nuls := Utf8.Decode(Zeros(z));
    Utf8.DecodeEncodeAppend(t, Zeros(z));
    Utf8.DecodeZeros(z);
    RemoveNulAllNul(nuls);
    assert Utf8.TextDecode(Utf8.Encode(t) + Zeros(z)) == StripBom(t) + nuls by {
      if t == [] {
        assert t + nuls == nuls;
        if |nuls| > 0 {
          assert nuls[0] == '\0';
        }
      } else {
        assert (t + nuls)[0] == t[0];
        assert (t + nuls)[1..] == t[1..] + nuls;
      }
    }
    RemoveNulAppend(StripBom(t), nuls);
    assert RemoveNul(StripBom(t)) + [] == RemoveNul(StripBom(t));
  }

  /** Round trip of the name field as written: a name that fits reads back as its first ten code units. */
  lemma NameRoundTrip(name: Option<string>)
    requires EncodeDragonName(name).Ok?
    ensures DecodeName(EncodeDragonName(name).value)
         == StoredName(if Truthy(name) then Utf8.Utf16Prefix(name.value, NAME_BYTES) else [])
  {
    var t := if Truthy(name) then Utf8.Utf16Prefix(name.value, NAME_BYTES) else [];
    var enc := Utf8.Encode(t);
    assert EncodeDragonName(name).value == enc + Zeros(NAME_BYTES - |enc|) by {
      if !Truthy(name) {
        assert enc == [];
        assert enc + Zeros(NAME_BYTES) == Zeros(NAME_BYTES);
      }
    }
    DecodeStoredName(t);
  }

  /** Zero padding never changes the decoder's first step: 0x00 is no continuation byte. */
  lemma DecodeOnePadded(b: seq<byte>, z: nat)
    requires b != []
    ensures Utf8.DecodeOne(b + Zeros(z)) == Utf8.DecodeOne(b)
  {
    var p := b + Zeros(z);
    assert forall k :: 0 <= k < |b| ==> p[k] == b[k];
    assert forall k :: |b| <= k < |p| ==> p[k] == 0;
  }

  /** Decoding a padded field decodes the bytes, then the zeros, each on its own. */
  lemma {:induction false} DecodePadded(b: seq<byte>, z: nat)
    ensures Utf8.Decode(b + Zeros(z)) == Utf8.Decode(b) + Utf8.Decode(Zeros(z))
    decreases |b|
  {
    if b == [] {
      assert b + Zeros(z) == Zeros(z);
    } else {
      var st := Utf8.DecodeOne(b);
      DecodeOnePadded(b, z);
      assert (b + Zeros(z))[st.len..] == b[st.len..] + Zeros(z);
      DecodePadded(b[st.len..], z);
    }
  }

  /** The decoder reads a field as the bytes before its zero padding. */
  lemma DecodeNamePadded(b: seq<byte>, z: nat)
    ensures DecodeName(b + Zeros(z)) == DecodeName(b)
  {
    var s, nuls := Utf8.Decode(b), Utf8.Decode(Zeros(z));
    DecodePadded(b, z);
    Utf8.DecodeZeros(z);
    RemoveNulAllNul(nuls);
    assert Utf8.TextDecode(b + Zeros(z)) == Utf8.TextDecode(b) + nuls by {
      if s == [] {
        assert s + nuls == nuls;
        if |nuls| > 0 {
          assert nuls[0] == '\0';
        }
      } else {
        assert (s + nuls)[0] == s[0];
        assert (s + nuls)[1..] == s[1..] + nuls;
      }
    }
    RemoveNulAppend(Utf8.TextDecode(b), nuls);
    assert RemoveNul(Utf8.TextDecode(b)) + [] == RemoveNul(Utf8.TextDecode(b));
  }

  /**
   * Round trip of the corrected name field: every name reads back as the
   * decoding of the first ten bytes of its UTF-8 form, and a name whose
   * UTF-8 form fits reads back whole.
   */
  lemma TruncatedNameRoundTrip(name: Option<string>)
    ensures DecodeName(EncodeDragonNameTruncated(name)) == DecodeName(NameHead(name))
    ensures |Utf8.Encode(OrStr(name, ""))| <= NAME_BYTES ==>
      DecodeName(EncodeDragonNameTruncated(name)) == StoredName(OrStr(name, ""))
  {
    var head := NameHead(name);
    assert EncodeDragonNameTruncated(name) == head + Zeros(NAME_BYTES - |head|);
    DecodeNamePadded(head, NAME_BYTES - |head|);
    if |Utf8.Encode(OrStr(name, ""))| <= NAME_BYTES {
      DecodeStoredName(OrStr(name, ""));
      DecodeNamePadded(Utf8.Encode(OrStr(name, "")), NAME_BYTES - |head|);
    }
  }

  lemma {:induction false} AsciiUtf16Length(s: string)
    requires Utf8.IsAscii(s)
    ensures Utf8.Utf16Length(s) == |s|
    decreases |s|
  {
    if s != [] {
      assert Utf8.IsAscii(s[1..]) by {
        forall k | 0 <= k < |s[1..]| ensures s[1..][k] as int < 0x80 {
          assert s[1..][k] == s[k + 1];
        }
      }
      AsciiUtf16Length(s[1..]);
    }
  }

  /** An ASCII name of one to ten characters without NULs is stored byte for byte and read back whole. */
  lemma AsciiNameStoredVerbatim(s: string)
    requires Utf8.IsAscii(s) && 0 < |s| <= NAME_BYTES && '\0' !in s
    ensures EncodeDragonName(Some(s)).Ok?
    ensures forall k :: 0 <= k < |s| ==> EncodeDragonName(Some(s)).value[k] == s[k] as int
    ensures DecodeName(EncodeDragonName(Some(s)).value) == Some(s)
  {
    AsciiUtf16Length(s);
    Utf8.Utf16PrefixLength(s, NAME_BYTES);
    Utf8.EncodeAscii(s);
    NameRoundTrip(Some(s));
    assert s[0] != Utf8.BOM;
    RemoveNulKeeps(s);
  }

  /** Characters of two UTF-8 bytes each take twice as many bytes as there are characters. */
  lemma {:induction false} EncodeTwoByteChars(s: string)
    requires forall k :: 0 <= k < |s| ==> Utf8.Width(s[k]) == 2
    ensures |Utf8.Encode(s)| == 2 * |s|
    decreases |s|
  {
    if s != [] {
      var t := s[1..];
      forall k | 0 <= k < |t| ensures Utf8.Width(t[k]) == 2 {
        assert t[k] == s[k + 1];
      }
      EncodeTwoByteChars(t);
      assert |Utf8.Encode(s)| == Utf8.Width(s[0]) + |Utf8.Encode(t)|;
    }
  }

  /** Six accented letters are twelve UTF-8 bytes: the name throws instead of being truncated. */
  lemma AccentedNameThrows()
    ensures EncodeDragonName(Some("\U{E9}\U{E9}\U{E9}\U{E9}\U{E9}\U{E9}")) == Err(RangeError)
  {
    var s := "\U{E9}\U{E9}\U{E9}\U{E9}\U{E9}\U{E9}";
    var p := Utf8.Utf16Prefix(s, NAME_BYTES);
    assert Utf8.Utf16Length(s) == 6;
    Utf8.Utf16PrefixLength(s, NAME_BYTES);
    assert |Utf8.Encode(s)| == 12;
  }

  /** The corrected encoder stores the same six letters as their first five, which take ten bytes. */
  lemma AccentedNameTruncated()
    ensures DecodeName(EncodeDragonNameTruncated(Some("\U{E9}\U{E9}\U{E9}\U{E9}\U{E9}\U{E9}")))
         == Some("\U{E9}\U{E9}\U{E9}\U{E9}\U{E9}")
  {
    var e := '\U{E9}';
    var five := [e, e, e, e, e];
    var s := five + [e];
    assert s == "\U{E9}\U{E9}\U{E9}\U{E9}\U{E9}\U{E9}";
    EncodeTwoByteChars(five);
    Utf8.EncodeAppend(five, [e]);
    assert NameHead(Some(s)) == Utf8.Encode(five);
    TruncatedNameRoundTrip(Some(s));
    DecodeStoredName(five);
    DecodeNamePadded(Utf8.Encode(five), 0);
    assert Utf8.Encode(five) + Zeros(0) == Utf8.Encode(five);
    RemoveNulKeeps(five);
  }

  /**
   * A cut in the middle of a character reads back as U+FFFD: `a` and six
   * accented letters are thirteen bytes, and the tenth is the first byte of
   * the fifth letter.
   */
  lemma SplitCharacterReadsReplacement()
    ensures DecodeName(EncodeDragonNameTruncated(Some("a\U{E9}\U{E9}\U{E9}\U{E9}\U{E9}\U{E9}")))
         == Some("a\U{E9}\U{E9}\U{E9}\U{E9}\U{FFFD}")
  {
    var e := '\U{E9}';
    var four := ['a', e, e, e, e];
    assert four + [e, e] == "a\U{E9}\U{E9}\U{E9}\U{E9}\U{E9}\U{E9}";
    SplitCharacterHead(four, e);
    TruncatedNameRoundTrip(Some(four + [e, e]));
    DecodeCutLead(four, e);
    assert four + [Utf8.REPLACEMENT] == "a\U{E9}\U{E9}\U{E9}\U{E9}\U{FFFD}";
  }

  /** The first ten bytes of `a` and six accented letters end with the lead byte of the fifth letter. */
  lemma SplitCharacterHead(four: string, e: char)
    requires e == '\U{E9}' && four == ['a', e, e, e, e]
    ensures NameHead(Some(four + [e, e])) == Utf8.Encode(four) + [0xC3]
  {
    assert |Utf8.Encode(four)| == 9 by {
      EncodeTwoByteChars(four[1..]);
      assert four == ['a'] + four[1..];
    }
    Utf8.EncodeAppend(four, [e, e]);
    TwoAccents(e);
  }

  lemma TwoAccents(e: char)
    requires e == '\U{E9}'
    ensures Utf8.Encode([e, e]) == [0xC3, 0xA9, 0xC3, 0xA9]
  {
    assert e as int == 0xE9;
    assert Utf8.EncodeChar(e) == [0xC3, 0xA9];
    assert [e, e][1..] == [e];
    assert [e][1..] == [];
    assert Utf8.Encode([e]) == [0xC3, 0xA9];
  }

  /** A lone lead byte after the encoded letters reads back as U+FFFD. */
  lemma DecodeCutLead(four: string, e: char)
    requires e == '\U{E9}' && four == ['a', e, e, e, e]
    ensures DecodeName(Utf8.Encode(four) + [0xC3]) == Some(four + [Utf8.REPLACEMENT])
  {
    Utf8.DecodeEncodeAppend(four, [0xC3]);
    assert Utf8.Decode([0xC3]) == [Utf8.REPLACEMENT];
    var t := four + [Utf8.REPLACEMENT];
    assert t[0] == 'a';
    assert Utf8.TextDecode(Utf8.Encode(four) + [0xC3]) == t;
    assert '\0' !in t;
    RemoveNulKeeps(t);
  }
}
