/**
 * The encoder's writing discipline: a list of fixed-width fields written one
 * after another into a fresh zero-filled buffer, each at the running offset,
 * the offset advancing by the field's width whether or not anything was
 * written (the dragon id is skipped when there is none).
 */
module SaveFields {
  import opened Wrappers
  import opened Bytes

  datatype Field =
    | U8(v: int)              // `view.setUint8`
    | U32(v: int)             // `view.setUint32`, big-endian
    | Raw(bytes: seq<byte>)   // `uint8View.set(bytes, offset)`
    | Skip(width: nat)        // the offset advances, nothing is written

  function Width(f: Field): nat {
    match f
    case U8(_) => 1
    case U32(_) => 4
    case Raw(b) => |b|
    case Skip(w) => w
  }

  /** The bytes a field occupies once written into a zero-filled buffer. */
  function FieldBytes(f: Field): (r: seq<byte>)
    ensures |r| == Width(f)
  {
    match f
    case U8(v) => [v % 0x100]
    case U32(v) => U32Bytes(v)
    case Raw(b) => b
    case Skip(w) => Zeros(w)
  }

  /** The total width of a list of fields. */
  function Span(fs: seq<Field>): nat
    decreases |fs|
  {
    if fs == [] then 0 else Width(fs[0]) + Span(fs[1..])
  }

  /** The bytes of a list of fields laid end to end. */
  function Image(fs: seq<Field>): (r: seq<byte>)
    ensures |r| == Span(fs)
    decreases |fs|
  {
    if fs == [] then [] else FieldBytes(fs[0]) + Image(fs[1..])
  }

  /** One write: an error exactly when a written field runs past the end of the buffer. */
  function WriteField(buf: seq<byte>, off: nat, f: Field): (r: Result<seq<byte>, Error>)
    ensures r.Ok? <==> f.Skip? || off + Width(f) <= |buf|
    ensures r.Err? ==> r.error == RangeError
    ensures f.Skip? ==> r == Ok(buf)
    ensures r.Ok? && !f.Skip? ==> r.value == Splice(buf, off, FieldBytes(f))
  {
    match f
    case U8(v) => SetUint8(buf, off, v)
    case U32(v) => SetUint32(buf, off, v)
    case Raw(b) => Store(buf, off, b)
    case Skip(_) => Ok(buf)
  }

  /** Every written field of `fs`, laid out from `off`, ends within `len` bytes. */
  predicate Placeable(len: nat, off: nat, fs: seq<Field>)
    decreases |fs|
  {
    fs == [] ||
    ((fs[0].Skip? || off + Width(fs[0]) <= len) && Placeable(len, off + Width(fs[0]), fs[1..]))
  }

  /** The fields written in order from `off`; the first write that does not fit throws. */
  function WriteFields(buf: seq<byte>, off: nat, fs: seq<Field>): (r: Result<seq<byte>, Error>)
    ensures r.Ok? <==> Placeable(|buf|, off, fs)
    ensures r.Err? ==> r.error == RangeError
    ensures r.Ok? ==> |r.value| == |buf|
    decreases |fs|
  {
    if fs == [] then Ok(buf)
    else
      var b := WriteField(buf, off, fs[0]);
      if b.Err? then b
      else WriteFields(b.value, off + Width(fs[0]), fs[1..])
  }

  // ---------------------------------------------------------------------
  // Properties

  /** Storing `d` at the start of a zero-filled tail. */
  lemma SpliceIntoZeros(p: seq<byte>, d: seq<byte>, m: nat)
    requires |d| <= m
    ensures Splice(p + Zeros(m), |p|, d) == p + d + Zeros(m - |d|)
  {
    var buf := p + Zeros(m);
    assert buf[..|p|] == p;
    assert buf[|p| + |d|..] == Zeros(m - |d|);
  }

  /** Skipping `w` bytes of a zero-filled tail. */
  lemma SkipZeros(p: seq<byte>, w: nat, m: nat)
    requires w <= m
    ensures p + Zeros(m) == p + Zeros(w) + Zeros(m - w)
  {
    assert Zeros(m) == Zeros(w) + Zeros(m - w);
  }

  /**
   * Writing the fields into the zero-filled tail of a buffer, starting where
   * the tail starts, lays their bytes end to end and leaves the rest zero.
   */
  lemma {:induction false} WriteFieldsImage(p: seq<byte>, fs: seq<Field>, m: nat)
    requires Span(fs) <= m
    ensures WriteFields(p + Zeros(m), |p|, fs) == Ok(p + Image(fs) + Zeros(m - Span(fs)))
    decreases |fs|
  {
    if fs == [] {
      assert p + Image(fs) == p;
    } else {
      var q, n := p + FieldBytes(fs[0]), m - Width(fs[0]);
      WriteFirstOfFields(p, fs, m);
      WriteFieldsImage(q, fs[1..], n);
      ImageStep(p, fs, m);
      assert WriteFields(p + Zeros(m), |p|, fs) == WriteFields(q + Zeros(n), |q|, fs[1..]);
      assert q + Image(fs[1..]) + Zeros(n - Span(fs[1..])) == p + Image(fs) + Zeros(m - Span(fs));
    }
  }

  lemma WriteFirstOfFields(p: seq<byte>, fs: seq<Field>, m: nat)
    requires fs != [] && Width(fs[0]) <= m
    ensures WriteFields(p + Zeros(m), |p|, fs)
         == WriteFields(p + FieldBytes(fs[0]) + Zeros(m - Width(fs[0])), |p + FieldBytes(fs[0])|, fs[1..])
  {
    WriteFirst(p, fs[0], m);
  }

  lemma ImageStep(p: seq<byte>, fs: seq<Field>, m: nat)
    requires fs != [] && Span(fs) <= m
    ensures p + FieldBytes(fs[0]) + Image(fs[1..]) + Zeros(m - Width(fs[0]) - Span(fs[1..]))
         == p + Image(fs) + Zeros(m - Span(fs))
  {
    var a, b := FieldBytes(fs[0]), Image(fs[1..]);
    assert Image(fs) == a + b;
    assert m - Width(fs[0]) - Span(fs[1..]) == m - Span(fs);
    Regroup(p, a, b, Zeros(m - Span(fs)));
  }

  lemma Regroup<T>(p: seq<T>, a: seq<T>, b: seq<T>, z: seq<T>)
    ensures p + a + b + z == p + (a + b) + z
  {
  }

  /** One field written where the zero-filled tail starts. */
  lemma WriteFirst(p: seq<byte>, f: Field, m: nat)
    requires Width(f) <= m
    ensures WriteField(p + Zeros(m), |p|, f) == Ok(p + FieldBytes(f) + Zeros(m - Width(f)))
  {
    if f.Skip? {
      SkipZeros(p, Width(f), m);
    } else {
      SpliceIntoZeros(p, FieldBytes(f), m);
    }
  }

  lemma {:induction false} ImageAppend(a: seq<Field>, b: seq<Field>)
    ensures Image(a + b) == Image(a) + Image(b)
    ensures Span(a + b) == Span(a) + Span(b)
    decreases |a|
  {
    if a == [] {
      assert a + b == b;
    } else {
      assert (a + b)[0] == a[0];
      assert (a + b)[1..] == a[1..] + b;
      ImageAppend(a[1..], b);
    }
  }

  /** Field `k` starts at the width of the fields before it and occupies its own bytes. */
  lemma FieldAt(fs: seq<Field>, k: nat)
    requires k < |fs|
    ensures Span(fs[..k + 1]) == Span(fs[..k]) + Width(fs[k])
    ensures Span(fs[..k]) + Width(fs[k]) <= Span(fs)
    ensures Image(fs)[Span(fs[..k])..Span(fs[..k]) + Width(fs[k])] == FieldBytes(fs[k])
  {
    FieldStep(fs, k);
    FieldBytesAt(fs, k);
  }

  lemma {:induction false} FieldBytesAt(fs: seq<Field>, k: nat)
    requires k < |fs|
    ensures Span(fs[..k]) + Width(fs[k]) <= Span(fs)
    ensures Image(fs)[Span(fs[..k])..Span(fs[..k]) + Width(fs[k])] == FieldBytes(fs[k])
    decreases k
  {
    var head, rest := FieldBytes(fs[0]), fs[1..];
    assert Image(fs) == head + Image(rest);
    if k == 0 {
      assert Span(fs[..0]) == 0 by {
        assert fs[..0] == [];
      }
      SliceShift([], head + Image(rest), 0, |head|);
      assert (head + Image(rest))[0..|head|] == head;
    } else {
      FieldBytesAt(rest, k - 1);
      var i := Span(rest[..k - 1]);
      assert Span(fs[..k]) == |head| + i by {
        assert fs[..k][0] == fs[0];
        assert fs[..k][1..] == rest[..k - 1];
      }
      assert rest[k - 1] == fs[k];
      SliceShift(head, Image(rest), i, i + Width(fs[k]));
    }
  }

  lemma SliceShift(a: seq<byte>, c: seq<byte>, i: nat, j: nat)
    requires i <= j <= |c|
    ensures (a + c)[|a| + i..|a| + j] == c[i..j]
  {
  }

  lemma FieldStep(fs: seq<Field>, k: nat)
    requires k < |fs|
    ensures Span(fs[..k + 1]) == Span(fs[..k]) + Width(fs[k])
  {
    assert fs[..k + 1] == fs[..k] + [fs[k]];
    ImageAppend(fs[..k], [fs[k]]);
    assert Span([fs[k]]) == Width(fs[k]) + Span([fs[k]][1..]);
    assert [fs[k]][1..] == [];
  }

  /** The fields from `i` to `j` span the difference of their start offsets. */
  lemma SpanBetween(fs: seq<Field>, i: nat, j: nat)
    requires i <= j <= |fs|
    ensures Span(fs[i..j]) == Span(fs[..j]) - Span(fs[..i])
  {
    assert fs[..j] == fs[..i] + fs[i..j];
    ImageAppend(fs[..i], fs[i..j]);
  }
}
