/**
 * The byte reader of the common header (`ByteStream`): fixed-width
 * little-endian scalars read with `memcpy` from a byte position, with a
 * sticky overrun flag that makes every later read yield 0 in place.
 *
 * As for the bit reader, the pure functions are the specification and
 * class `ByteStream` holds the cursor fields.
 */
module ByteStreams {
  import opened Primitives

  /** Cursor state: byte position and sticky overrun flag. */
  datatype ByteCursor = ByteCursor(pos: nat, overrun: bool)

  /** A scalar read together with the cursor state after the read. */
  datatype Scalar = Scalar(cursor: ByteCursor, value: nat)

  /**
   * `read<T>()` with sizeof(T) == size: a read on an overrun stream, or one
   * whose bytes run past the end, sets the flag, stays put and yields 0;
   * otherwise it yields the little-endian value of the next size bytes.
   */
  function ReadScalarSpec(data: seq<u8>, c: ByteCursor, size: nat): (r: Scalar)
  {
    if c.overrun || c.pos + size > |data| then Scalar(c.(overrun := true), 0)
    else Scalar(ByteCursor(c.pos + size, false), LittleEndian(data[c.pos..c.pos + size]))
  }

  /** A read yields a value that fits in size bytes. */
  lemma ReadScalarBound(data: seq<u8>, c: ByteCursor, size: nat)
    ensures ReadScalarSpec(data, c, size).value < Pow2(8 * size)
  {
  }

  /**
   * A read succeeds exactly when the stream had not overrun and size bytes
   * remain; it then advances by size and yields the value whose size-byte
   * little-endian encoding is the bytes it passed over. A failed read sets
   * the flag, stays put and yields 0.
   */
  lemma ReadScalarEncodes(data: seq<u8>, c: ByteCursor, size: nat)
    ensures var r := ReadScalarSpec(data, c, size);
      !r.cursor.overrun <==> !c.overrun && c.pos + size <= |data|
    ensures var r := ReadScalarSpec(data, c, size);
      !r.cursor.overrun ==>
        c.pos + size <= |data| && r.cursor.pos == c.pos + size &&
        ToLittleEndian(r.value, size) == data[c.pos..c.pos + size]
    ensures var r := ReadScalarSpec(data, c, size);
      r.cursor.overrun ==> r.cursor == c.(overrun := true) && r.value == 0
  {
    if !(c.overrun || c.pos + size > |data|) {
      ToLittleEndianRoundTrip(data[c.pos..c.pos + size]);
    }
  }

  /** Bytes holding the encoding of v read back as v. */
  lemma ReadScalarRoundTrip(data: seq<u8>, c: ByteCursor, size: nat, v: nat)
    requires !c.overrun && c.pos + size <= |data| && v < Pow2(8 * size)
    requires data[c.pos..c.pos + size] == ToLittleEndian(v, size)
    ensures ReadScalarSpec(data, c, size) == Scalar(ByteCursor(c.pos + size, false), v)
  {
    LittleEndianRoundTrip(v, size);
  }

  /** Characters read into a buffer, with the cursor after the reads. */
  datatype Chars = Chars(cursor: ByteCursor, values: seq<u8>)

  /**
   * `read(Span<char>)` once the characters acc have been stored: each
   * element is one 1-byte read, and the loop stops right after the first
   * read that overran, whose 0 is stored.
   */
  function ReadCharsFrom(data: seq<u8>, c: ByteCursor, count: nat, acc: seq<u8>): (r: Chars)
    ensures |r.values| <= |acc| + count
    decreases count
  {
    if count == 0 then Chars(c, acc)
    else
      var x := ReadScalarSpec(data, c, 1);
      ReadScalarBound(data, c, 1);
      Pow2Values();
      if x.cursor.overrun then Chars(x.cursor, acc + [x.value as u8])
      else ReadCharsFrom(data, x.cursor, count - 1, acc + [x.value as u8])
  }

  /** `read(Span<char>)` of count characters. */
  function ReadCharsSpec(data: seq<u8>, c: ByteCursor, count: nat): (r: Chars)
    ensures |r.values| <= count
  {
    ReadCharsFrom(data, c, count, [])
  }

  /**
   * The element loop in closed form: the characters stored are the bytes
   * at the cursor, up to count of them; when they run out first, a 0 is
   * stored after the last byte and the stream is overrun at the end.
   */
  lemma {:induction false} ReadCharsFromClosed(data: seq<u8>, c: ByteCursor, count: nat, acc: seq<u8>)
    requires !c.overrun && c.pos <= |data|
    ensures var r := ReadCharsFrom(data, c, count, acc);
      if c.pos + count <= |data| then
        r == Chars(ByteCursor(c.pos + count, false), acc + data[c.pos..c.pos + count])
      else
        r == Chars(ByteCursor(|data|, true), acc + data[c.pos..] + [0])
    decreases count
  {
    if count > 0 {
      var x := ReadScalarSpec(data, c, 1);
      if c.pos + 1 <= |data| {
        assert x.value == data[c.pos] && x.cursor == ByteCursor(c.pos + 1, false);
        ReadCharsFromClosed(data, x.cursor, count - 1, acc + [data[c.pos]]);
        if c.pos + count <= |data| {
          assert acc + [data[c.pos]] + data[c.pos + 1..c.pos + count] == acc + data[c.pos..c.pos + count];
        } else {
          assert acc + [data[c.pos]] + data[c.pos + 1..] == acc + data[c.pos..];
        }
      } else {
        assert data[c.pos..] == [];
      }
    } else {
      assert data[c.pos..c.pos] == [];
    }
  }

  /**
   * `read(Span<char>)` of count > 0 characters: on an overrun stream or
   * from past the end it stores a single 0 and stays put; otherwise it
   * stores the next count bytes, or the bytes left followed by a 0.
   */
  lemma ReadCharsClosed(data: seq<u8>, c: ByteCursor, count: nat)
    requires count > 0
    ensures var r := ReadCharsSpec(data, c, count);
      if c.overrun || c.pos >= |data| then r == Chars(c.(overrun := true), [0])
      else if c.pos + count <= |data| then
        r == Chars(ByteCursor(c.pos + count, false), data[c.pos..c.pos + count])
      else r == Chars(ByteCursor(|data|, true), data[c.pos..] + [0])
  {
    if !(c.overrun || c.pos >= |data|) {
      ReadCharsFromClosed(data, c, count, []);
      if c.pos + count <= |data| {
        assert [] + data[c.pos..c.pos + count] == data[c.pos..c.pos + count];
      } else {
        assert [] + data[c.pos..] == data[c.pos..];
      }
    }
  }

  class ByteStream {
    const bytes: seq<u8>
    var pos: nat
    var overrun: bool

    function State(): ByteCursor
      reads this
    {
      ByteCursor(pos, overrun)
    }

    constructor (bytes: seq<u8>)
      ensures this.bytes == bytes && State() == ByteCursor(0, false)
    {
      this.bytes := bytes;
      pos := 0;
      overrun := false;
    }

    /** `seek(offset)`: no bounds check, the overrun flag is kept. */
    method Seek(offset: nat)
      modifies this
      ensures State() == ByteCursor(offset, old(overrun))
    {
      pos := offset;
    }

    method Tell() returns (p: nat)
      ensures p == pos
    {
      p := pos;
    }

    /** `read<T>()` with sizeof(T) == size. */
    method ReadScalar(size: nat) returns (v: nat)
      modifies this
      ensures Scalar(State(), v) == ReadScalarSpec(bytes, old(State()), size)
      ensures v < Pow2(8 * size)
    {
      overrun := overrun || pos + size > |bytes|;
      if overrun {
        return 0;
      }
      v := LittleEndian(bytes[pos..pos + size]);
      pos := pos + size;
    }

    /** `read(Span<char>)` into the whole of dst. */
    method ReadChars(dst: array<u8>)
      modifies this, dst
      ensures var r := ReadCharsSpec(bytes, old(State()), dst.Length);
        State() == r.cursor && dst[..] == r.values + old(dst[..])[|r.values|..]
    {
      ghost var start := State();
      ghost var acc: seq<u8> := [];
      var i := 0;
      while i < dst.Length
        invariant i <= dst.Length && |acc| == i
        invariant dst[..] == acc + old(dst[..])[i..]
        invariant ReadCharsFrom(bytes, State(), dst.Length - i, acc) == ReadCharsSpec(bytes, start, dst.Length)
      {
        var v := ReadScalar(1);
        Pow2Values();
        BufferStep(acc, old(dst[..]), v as u8);
        dst[i] := v as u8;
        acc := acc + [v as u8];
        if overrun {
          return;
        }
        i := i + 1;
      }
    }
  }
}
