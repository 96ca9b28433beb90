/**
 * The bit cursor (`BitStream`) of the engine's common header: it reads a
 * byte buffer most significant bit first, keeps a sticky overrun flag, and
 * answers 0 to a read that would run off the end. On top of it sit the
 * archive's packed integers and NUL-terminated names.
 *
 * The pure functions below are the specification; class `BitStream` holds
 * the cursor fields and its methods are proved against them.
 */
module BitStreams {
  import opened Primitives

  /**
   * Bit k of byte b, counting from the most significant bit (k = 0): the
   * value of `(b >> (7 - k)) & 1`.
   */
  function BitOf(b: nat, k: nat): (r: nat)
    requires k < 8
    ensures r <= 1
    decreases 7 - k
  {
    if k == 7 then b % 2 else BitOf(b / 2, k + 1)
  }

  /** Cursor state: byte offset, bit offset within it, sticky overrun flag. */
  datatype Cursor = Cursor(byteOff: nat, bitOff: nat, overrun: bool)

  /** Absolute bit position of a cursor. */
  function Pos(c: Cursor): nat
  {
    8 * c.byteOff + c.bitOff
  }

  /** A value read together with the cursor state after the read. */
  datatype Read<T> = Read(cursor: Cursor, value: T)

  /**
   * The loop of `read_bits` with n bits still to read from bit k of byte
   * b, the bits read so far making acc: each step shifts in one bit and
   * moves to the next bit, or to bit 0 of the next byte; running out of
   * bytes before the last bit sets the overrun flag and yields 0.
   */
  function ReadSteps(data: seq<u8>, b: nat, k: nat, n: nat, acc: nat): (r: Read<nat>)
    requires k < 8 && (n > 0 ==> b < |data|)
    ensures r.cursor.bitOff < 8
    ensures r.cursor.overrun ==> r.value == 0
    decreases n
  {
    if n == 0 then Read(Cursor(b, k, false), acc)
    else
      var v := 2 * acc + BitOf(data[b], k);
      if k < 7 then ReadSteps(data, b, k + 1, n - 1, v)
      else if b + 1 >= |data| && n != 1 then Read(Cursor(b + 1, 0, true), 0)
      else ReadSteps(data, b + 1, 0, n - 1, v)
  }

  /**
   * `read_bits(n)`: a read that starts at or past the end, or on an
   * overrun stream, sets the flag, leaves the position alone and yields 0;
   * otherwise the loop above runs from the cursor.
   */
  function ReadBitsSpec(data: seq<u8>, c: Cursor, n: nat): (r: Read<nat>)
    requires c.bitOff < 8
    ensures r.cursor.bitOff < 8
    ensures r.cursor.overrun ==> r.value == 0
  {
    if c.overrun || c.byteOff >= |data| then Read(c.(overrun := true), 0)
    else ReadSteps(data, c.byteOff, c.bitOff, n, 0)
  }

  /**
   * The loop when the n bits lie inside the data: it does not overrun and
   * ends n positions further on.
   */
  lemma {:induction false} ReadStepsFits(data: seq<u8>, b: nat, k: nat, n: nat, acc: nat)
    requires k < 8 && (n > 0 ==> b < |data|) && 8 * b + k + n <= 8 * |data|
    ensures var r := ReadSteps(data, b, k, n, acc);
      !r.cursor.overrun && Pos(r.cursor) == 8 * b + k + n
    decreases n
  {
    if n > 0 {
      var v := 2 * acc + BitOf(data[b], k);
      if k < 7 {
        ReadStepsFits(data, b, k + 1, n - 1, v);
      } else {
        ReadStepsFits(data, b + 1, 0, n - 1, v);
      }
    }
  }

  /** The loop when the n bits run past the data: it stops at the end, overrun, with 0. */
  lemma {:induction false} ReadStepsOverruns(data: seq<u8>, b: nat, k: nat, n: nat, acc: nat)
    requires k < 8 && b < |data| && 8 * b + k + n > 8 * |data|
    ensures ReadSteps(data, b, k, n, acc) == Read(Cursor(|data|, 0, true), 0)
    decreases n
  {
    var v := 2 * acc + BitOf(data[b], k);
    if k < 7 {
      ReadStepsOverruns(data, b, k + 1, n - 1, v);
    } else if b + 1 >= |data| && n != 1 {
      assert b + 1 == |data|;
    } else {
      ReadStepsOverruns(data, b + 1, 0, n - 1, v);
    }
  }

  /**
   * Reference definition: the n bits from absolute bit position p, most
   * significant bit first, as a number.
   */
  function BitsValue(data: seq<u8>, p: nat, n: nat): nat
    requires p + n <= 8 * |data|
    decreases n
  {
    if n == 0 then 0 else 2 * BitsValue(data, p, n - 1) + BitAt(data, p + n - 1)
  }

  /** The bit at absolute position p: bit p % 8 of byte p / 8, counted from the top. */
  function BitAt(data: seq<u8>, p: nat): (r: nat)
    requires p < 8 * |data|
    ensures r <= 1
  {
    if p < 8 then BitOf(data[0], p) else BitAt(data[1..], p - 8)
  }

  lemma {:induction false} BitAtCoords(data: seq<u8>, b: nat, k: nat)
    requires b < |data| && k < 8
    ensures BitAt(data, 8 * b + k) == BitOf(data[b], k)
  {
    if b > 0 {
      BitAtCoords(data[1..], b - 1, k);
    }
  }

  /** n bits make a number below 2^n. */
  lemma {:induction false} BitsValueBound(data: seq<u8>, p: nat, n: nat)
    requires p + n <= 8 * |data|
    ensures BitsValue(data, p, n) < Pow2(n)
    decreases n
  {
    if n > 0 {
      BitsValueBound(data, p, n - 1);
      assert Pow2(n) == 2 * Pow2(n - 1);
    }
  }

  /**
   * The loop, when the bits fit, having read the m bits from p0 into acc,
   * ends with the m + n bits from p0.
   */
  lemma {:induction false} ReadStepsValue(data: seq<u8>, p0: nat, m: nat, b: nat, k: nat, n: nat, acc: nat)
    requires k < 8 && (n > 0 ==> b < |data|) && 8 * b + k == p0 + m && p0 + m + n <= 8 * |data|
    requires acc == BitsValue(data, p0, m)
    ensures ReadSteps(data, b, k, n, acc).value == BitsValue(data, p0, m + n)
    decreases n
  {
    if n > 0 {
      var v := 2 * acc + BitOf(data[b], k);
      assert v == BitsValue(data, p0, m + 1) by {
        BitAtCoords(data, b, k);
      }
      if k < 7 {
        assert ReadSteps(data, b, k, n, acc) == ReadSteps(data, b, k + 1, n - 1, v);
        ReadStepsValue(data, p0, m + 1, b, k + 1, n - 1, v);
      } else {
        assert ReadSteps(data, b, k, n, acc) == ReadSteps(data, b + 1, 0, n - 1, v);
        ReadStepsValue(data, p0, m + 1, b + 1, 0, n - 1, v);
      }
    }
  }

  /**
   * `read_bits(n)` in closed form: it overruns exactly when the stream had
   * overrun or the n bits do not lie inside the data; a successful read
   * moves n positions on and yields a value below 2^n.
   */
  lemma ReadBitsClosed(data: seq<u8>, c: Cursor, n: nat)
    requires c.bitOff < 8
    ensures var r := ReadBitsSpec(data, c, n);
      (r.cursor.overrun <==> c.overrun || c.byteOff >= |data| || Pos(c) + n > 8 * |data|) &&
      (!r.cursor.overrun ==> Pos(r.cursor) == Pos(c) + n && r.value == BitsValue(data, Pos(c), n)) &&
      (c.overrun ==> r == Read(c, 0)) &&
      r.value < Pow2(n)
  {
    var r := ReadBitsSpec(data, c, n);
    if !(c.overrun || c.byteOff >= |data|) {
      assert r == ReadSteps(data, c.byteOff, c.bitOff, n, 0);
      if Pos(c) + n <= 8 * |data| {
        ReadStepsFits(data, c.byteOff, c.bitOff, n, 0);
        ReadStepsValue(data, Pos(c), 0, c.byteOff, c.bitOff, n, 0);
        BitsValueBound(data, Pos(c), n);
      } else {
        ReadStepsOverruns(data, c.byteOff, c.bitOff, n, 0);
      }
    }
  }

  /** A read of n bits yields a value below 2^n. */
  lemma ReadBitsBound(data: seq<u8>, c: Cursor, n: nat)
    requires c.bitOff < 8
    ensures ReadBitsSpec(data, c, n).value < Pow2(n)
  {
    ReadBitsClosed(data, c, n);
  }

  lemma ReadByteBound(data: seq<u8>, c: Cursor)
    requires c.bitOff < 8
    ensures ReadBitsSpec(data, c, 8).value < 0x100
  {
    ReadBitsBound(data, c, 8);
    Pow2Values();
  }

  /** `read_int`: a 2-bit count e of extra bytes, then 8 + 8 * e value bits. */
  function ReadIntSpec(data: seq<u8>, c: Cursor): (r: Read<u32>)
    requires c.bitOff < 8
    ensures r.cursor.bitOff < 8
  {
    var e := ReadBitsSpec(data, c, 2);
    ReadBitsBound(data, c, 2);
    Pow2Values();
    Pow2Monotonic(8 + 8 * e.value, 32);
    var v := ReadBitsSpec(data, e.cursor, 8 + 8 * e.value);
    ReadBitsBound(data, e.cursor, 8 + 8 * e.value);
    Read(v.cursor, v.value)
  }

  /** The 2-bit prefix of `read_int`: a count below 4, read as any 2-bit field. */
  lemma ReadIntPrefix(data: seq<u8>, c: Cursor)
    requires c.bitOff < 8
    ensures var e := ReadBitsSpec(data, c, 2);
      e.value < 4 &&
      (e.cursor.overrun <==> c.overrun || c.byteOff >= |data| || Pos(c) + 2 > 8 * |data|) &&
      (!e.cursor.overrun ==> Pos(e.cursor) == Pos(c) + 2)
  {
    ReadBitsClosed(data, c, 2);
    Pow2Values();
  }

  /**
   * `read_int` overruns exactly when the 10 + 8e bits it consumes, e being
   * its 2-bit prefix, do not lie inside the data.
   */
  lemma ReadIntOverrun(data: seq<u8>, c: Cursor)
    requires c.bitOff < 8
    ensures var e := ReadBitsSpec(data, c, 2).value;
      ReadIntSpec(data, c).cursor.overrun
      <==> c.overrun || c.byteOff >= |data| || Pos(c) + 10 + 8 * e > 8 * |data|
  {
    var e := ReadBitsSpec(data, c, 2);
    ReadIntPrefix(data, c);
    var w := 8 + 8 * e.value;
    var v := ReadBitsSpec(data, e.cursor, w);
    assert ReadIntSpec(data, c).cursor == v.cursor;
    assert v.cursor.overrun <==> e.cursor.overrun || e.cursor.byteOff >= |data| || Pos(e.cursor) + w > 8 * |data| by {
      ReadBitsClosed(data, e.cursor, w);
    }
  }

  /**
   * A `read_int` that does not overrun consumes 10 + 8e bits, e being its
   * 2-bit prefix, and yields the 8 + 8e bits after the prefix.
   */
  lemma ReadIntValue(data: seq<u8>, c: Cursor)
    requires c.bitOff < 8
    ensures var e := ReadBitsSpec(data, c, 2).value; var r := ReadIntSpec(data, c);
      !r.cursor.overrun ==>
        Pos(c) + 10 + 8 * e <= 8 * |data| && Pos(r.cursor) == Pos(c) + 10 + 8 * e &&
        r.value == BitsValue(data, Pos(c) + 2, 8 + 8 * e)
  {
    var e := ReadBitsSpec(data, c, 2);
    var w := 8 + 8 * e.value;
    var v := ReadBitsSpec(data, e.cursor, w);
    assert ReadIntSpec(data, c).cursor == v.cursor && ReadIntSpec(data, c).value == v.value;
    if !v.cursor.overrun {
      assert !e.cursor.overrun && Pos(e.cursor) + w <= 8 * |data| && Pos(v.cursor) == Pos(e.cursor) + w &&
        v.value == BitsValue(data, Pos(e.cursor), w) by {
        ReadBitsClosed(data, e.cursor, w);
      }
      assert Pos(e.cursor) == Pos(c) + 2 by {
        ReadIntPrefix(data, c);
      }
    }
  }

  /** A packed integer with prefix e fits in 1 + e bytes. */
  lemma ReadIntBound(data: seq<u8>, c: Cursor)
    requires c.bitOff < 8
    ensures var e := ReadBitsSpec(data, c, 2).value;
      e < 4 && ReadIntSpec(data, c).value < IntLimit(e)
  {
    var e := ReadBitsSpec(data, c, 2);
    ReadIntPrefix(data, c);
    var w := 8 + 8 * e.value;
    assert ReadIntSpec(data, c).value == ReadBitsSpec(data, e.cursor, w).value;
    ReadBitsBound(data, e.cursor, w);
    Pow2Values();
    assert Pow2(w) == IntLimit(e.value);
  }

  /** 2^(8 + 8e): the bound on a packed integer with prefix e. */
  function IntLimit(e: nat): nat
    requires e < 4
  {
    if e == 0 then 0x100 else if e == 1 then 0x1_0000 else if e == 2 then 0x100_0000 else 0x1_0000_0000
  }

  /**
   * Result of reading a NUL-terminated name into a bounded buffer: the
   * non-NUL characters stored, and whether a terminating NUL was stored
   * after them.
   */
  datatype CString = CString(cursor: Cursor, chars: seq<u8>, terminated: bool)

  /** Bytes a name read stores into its buffer, from index 0. */
  function Stored(s: CString): seq<u8>
  {
    if s.terminated then s.chars + [0] else s.chars
  }

  /**
   * `read_c_string` once the characters acc have been stored: up to len
   * more 8-bit reads, stopping after the first 0. An overrun read yields 0
   * and so also ends the name.
   */
  function NameFrom(data: seq<u8>, c: Cursor, len: nat, acc: seq<u8>): (r: CString)
    requires c.bitOff < 8
    ensures r.cursor.bitOff < 8
    decreases len, 1
  {
    if len == 0 then CString(c, acc, false) else NameChar(data, c, len, acc)
  }

  /** One character of `read_c_string`, with len > 0 characters left. */
  function NameChar(data: seq<u8>, c: Cursor, len: nat, acc: seq<u8>): (r: CString)
    requires c.bitOff < 8 && len > 0
    ensures r.cursor.bitOff < 8
    decreases len, 0
  {
    var ch := ReadBitsSpec(data, c, 8);
    if ch.value == 0 then CString(ch.cursor, acc, true)
    else
      ReadByteBound(data, c);
      NameFrom(data, ch.cursor, len - 1, acc + [ch.value as u8])
  }

  /** `read_c_string(str, len)` from cursor c. */
  function ReadCStringSpec(data: seq<u8>, c: Cursor, len: nat): (r: CString)
    requires c.bitOff < 8
    ensures r.cursor.bitOff < 8
    ensures |r.chars| + (if r.terminated then 1 else 0) <= len
  {
    NameLength(data, c, len, []);
    NameFrom(data, c, len, [])
  }

  /** A name read stores at most len bytes, the NUL included. */
  lemma {:induction false} NameLength(data: seq<u8>, c: Cursor, len: nat, acc: seq<u8>)
    requires c.bitOff < 8
    ensures var r := NameFrom(data, c, len, acc);
      |r.chars| + (if r.terminated then 1 else 0) <= |acc| + len
    decreases len
  {
    if len > 0 {
      var ch := ReadBitsSpec(data, c, 8);
      if ch.value != 0 {
        ReadByteBound(data, c);
        NameLength(data, ch.cursor, len - 1, acc + [ch.value as u8]);
      }
    }
  }

  /** One character of a name read: the read from c yields v and moves to next. */
  lemma NameStep(data: seq<u8>, c: Cursor, len: nat, acc: seq<u8>, next: Cursor, v: nat)
    requires c.bitOff < 8 && len > 0
    requires Read(next, v) == ReadBitsSpec(data, c, 8)
    ensures v < 0x100 && next.bitOff < 8
    ensures v == 0 ==> NameFrom(data, c, len, acc) == CString(next, acc, true)
    ensures v != 0 ==> NameFrom(data, c, len, acc) == NameFrom(data, next, len - 1, acc + [v as u8])
  {
    ReadByteBound(data, c);
  }

  /**
   * A name read adds only non-zero characters, and stops short of len more
   * only by storing a NUL.
   */
  lemma {:induction false} NameShape(data: seq<u8>, c: Cursor, len: nat, acc: seq<u8>)
    requires c.bitOff < 8
    requires forall i :: 0 <= i < |acc| ==> acc[i] != 0
    ensures var r := NameFrom(data, c, len, acc);
      (forall i :: 0 <= i < |r.chars| ==> r.chars[i] != 0) &&
      (!r.terminated ==> |r.chars| == |acc| + len)
    decreases len
  {
    if len > 0 {
      var ch := ReadBitsSpec(data, c, 8);
      if ch.value != 0 {
        ReadByteBound(data, c);
        var acc' := acc + [ch.value as u8];
        assert forall i :: 0 <= i < |acc'| ==> acc'[i] != 0;
        NameShape(data, ch.cursor, len - 1, acc');
      }
    }
  }

  /**
   * `read_c_string(str, len)`: the characters before the terminator are
   * non-zero, and a name without terminator fills all len places, so one
   * with a terminator has fewer than len characters.
   */
  lemma ReadCStringShape(data: seq<u8>, c: Cursor, len: nat)
    requires c.bitOff < 8
    ensures var r := ReadCStringSpec(data, c, len);
      (forall i :: 0 <= i < |r.chars| ==> r.chars[i] != 0) &&
      (if r.terminated then |r.chars| < len else |r.chars| == len)
  {
    NameShape(data, c, len, []);
  }

  /**
   * The older `ReadUTF8` once the characters acc have been stored: the
   * same loop as `read_c_string`, but the overrun flag is tested before
   * each character.
   */
  function Utf8From(data: seq<u8>, c: Cursor, len: nat, acc: seq<u8>): (r: CString)
    requires c.bitOff < 8
    ensures r.cursor.bitOff < 8
    decreases len, 1
  {
    if len == 0 || c.overrun then CString(c, acc, false) else Utf8Char(data, c, len, acc)
  }

  /** One character of `ReadUTF8`, with len > 0 characters left. */
  function Utf8Char(data: seq<u8>, c: Cursor, len: nat, acc: seq<u8>): (r: CString)
    requires c.bitOff < 8 && len > 0
    ensures r.cursor.bitOff < 8
    decreases len, 0
  {
    var ch := ReadBitsSpec(data, c, 8);
    if ch.value == 0 then CString(ch.cursor, acc, true)
    else
      ReadByteBound(data, c);
      Utf8From(data, ch.cursor, len - 1, acc + [ch.value as u8])
  }

  /** `ReadUTF8(out, len)` from cursor c. */
  function ReadUtf8Spec(data: seq<u8>, c: Cursor, len: nat): (r: CString)
    requires c.bitOff < 8
    ensures r.cursor.bitOff < 8
    ensures |r.chars| + (if r.terminated then 1 else 0) <= len
  {
    Utf8Length(data, c, len, []);
    Utf8From(data, c, len, [])
  }

  lemma {:induction false} Utf8Length(data: seq<u8>, c: Cursor, len: nat, acc: seq<u8>)
    requires c.bitOff < 8
    ensures var r := Utf8From(data, c, len, acc);
      |r.chars| + (if r.terminated then 1 else 0) <= |acc| + len
    decreases len
  {
    if len > 0 && !c.overrun {
      var ch := ReadBitsSpec(data, c, 8);
      if ch.value != 0 {
        ReadByteBound(data, c);
        Utf8Length(data, ch.cursor, len - 1, acc + [ch.value as u8]);
      }
    }
  }

  lemma Utf8Step(data: seq<u8>, c: Cursor, len: nat, acc: seq<u8>, next: Cursor, v: nat)
    requires c.bitOff < 8 && len > 0 && !c.overrun
    requires Read(next, v) == ReadBitsSpec(data, c, 8)
    ensures v < 0x100 && next.bitOff < 8 && (v != 0 ==> !next.overrun)
    ensures v == 0 ==> Utf8From(data, c, len, acc) == CString(next, acc, true)
    ensures v != 0 ==> Utf8From(data, c, len, acc) == Utf8From(data, next, len - 1, acc + [v as u8])
  {
    ReadByteBound(data, c);
  }

  /**
   * The two name readers agree on a stream that has not overrun: after a
   * non-zero character the stream cannot have overrun, so the extra test
   * only matters before the first read.
   */
  lemma {:induction false} Utf8AgreesFrom(data: seq<u8>, c: Cursor, len: nat, acc: seq<u8>)
    requires c.bitOff < 8 && !c.overrun
    ensures Utf8From(data, c, len, acc) == NameFrom(data, c, len, acc)
    decreases len
  {
    if len > 0 {
      var ch := ReadBitsSpec(data, c, 8);
      if ch.value != 0 {
        ReadByteBound(data, c);
        Utf8AgreesFrom(data, ch.cursor, len - 1, acc + [ch.value as u8]);
      }
    }
  }

  lemma Utf8Agrees(data: seq<u8>, c: Cursor, len: nat)
    requires c.bitOff < 8
    ensures ReadUtf8Spec(data, c, len)
            == if c.overrun then CString(c, [], false) else ReadCStringSpec(data, c, len)
  {
    if !c.overrun {
      Utf8AgreesFrom(data, c, len, []);
    }
  }

  class BitStream {
    const bytes: seq<u8>
    var curByte: nat
    var curBit: nat
    var overrun: bool

    predicate Valid()
      reads this
    {
      curBit < 8
    }

    function State(): Cursor
      reads this
    {
      Cursor(curByte, curBit, overrun)
    }

    constructor (bytes: seq<u8>)
      ensures Valid() && this.bytes == bytes && State() == Cursor(0, 0, false)
    {
      this.bytes := bytes;
      curByte := 0;
      curBit := 0;
      overrun := false;
    }

    /** A copy of a stream: what passing a `BitStream` by value makes. */
    constructor Copy(other: BitStream)
      requires other.Valid()
      ensures Valid() && bytes == other.bytes && State() == other.State()
    {
      bytes := other.bytes;
      curByte := other.curByte;
      curBit := other.curBit;
      overrun := other.overrun;
    }

    /**
     * `seek(byte, bit)`: no bounds check and the overrun flag is kept. A
     * bit offset of 8 or more would make `7 - bit` wrap in the read, so the
     * model requires bit < 8.
     */
    method Seek(byteOff: nat, bitOff: nat)
      requires bitOff < 8
      modifies this
      ensures Valid() && State() == Cursor(byteOff, bitOff, old(overrun))
    {
      curByte := byteOff;
      curBit := bitOff;
    }

    /** The older one-argument `Seek`, which always resets the bit offset. */
    method SeekByte(byteOff: nat)
      modifies this
      ensures Valid() && State() == Cursor(byteOff, 0, old(overrun))
    {
      curByte := byteOff;
      curBit := 0;
    }

    method ReadBits(n: nat) returns (r: nat)
      requires Valid() && n <= 32
      modifies this
      ensures Valid() && Read(State(), r) == ReadBitsSpec(bytes, old(State()), n)
    {
      ghost var c := State();
      r := 0;
      overrun := overrun || curByte >= |bytes|;
      if overrun {
        return 0;
      }
      var i := 0;
      while i < n
        invariant i <= n && curBit < 8 && !overrun && (i < n ==> curByte < |bytes|)
        invariant ReadSteps(bytes, curByte, curBit, n - i, r) == ReadBitsSpec(bytes, c, n)
      {
        r := r * 2 + BitOf(bytes[curByte], curBit);
        curBit := curBit + 1;
        if curBit >= 8 {
          curBit := 0;
          curByte := curByte + 1;
          overrun := overrun || (curByte >= |bytes| && i + 1 != n);
          if overrun {
            return 0;
          }
        }
        i := i + 1;
      }
    }

    method ReadInt() returns (r: u32)
      requires Valid()
      modifies this
      ensures Valid() && Read(State(), r) == ReadIntSpec(bytes, old(State()))
    {
      ghost var c := State();
      var e := ReadBits(2);
      ReadBitsBound(bytes, c, 2);
      Pow2Values();
      Pow2Monotonic(8 + 8 * e, 32);
      ghost var c' := State();
      var v := ReadBits(8 + 8 * e);
      ReadBitsBound(bytes, c', 8 + 8 * e);
      r := v;
    }

    /**
     * One pass of the `read_c_string` loop, `str[n] = read_bits<char>()`:
     * the name read from the old cursor, with rest characters left and acc
     * stored, continues from the new one.
     */
    method ReadNameChar(str: array<u8>, n: nat, ghost rest: nat, ghost acc: seq<u8>) returns (ch: nat)
      requires Valid() && n < str.Length && rest > 0
      modifies this, str
      ensures Valid() && ch < 0x100
      ensures str[..] == old(str[..])[n := ch as u8]
      ensures ch == 0 ==> NameFrom(bytes, old(State()), rest, acc) == CString(State(), acc, true)
      ensures ch != 0 ==> NameFrom(bytes, old(State()), rest, acc)
                          == NameFrom(bytes, State(), rest - 1, acc + [ch as u8])
    {
      ghost var c := State();
      ch := ReadBits(8);
      NameStep(bytes, c, rest, acc, State(), ch);
      str[n] := ch as u8;
    }

    /** The same pass in the `ReadUTF8` loop, which runs only while the stream has not overrun. */
    method ReadUtf8Char(str: array<u8>, n: nat, ghost rest: nat, ghost acc: seq<u8>) returns (ch: nat)
      requires Valid() && n < str.Length && rest > 0 && !overrun
      modifies this, str
      ensures Valid() && ch < 0x100
      ensures str[..] == old(str[..])[n := ch as u8]
      ensures ch == 0 ==> Utf8From(bytes, old(State()), rest, acc) == CString(State(), acc, true)
      ensures ch != 0 ==> !overrun && Utf8From(bytes, old(State()), rest, acc)
                                      == Utf8From(bytes, State(), rest - 1, acc + [ch as u8])
    {
      ghost var c := State();
      ch := ReadBits(8);
      Utf8Step(bytes, c, rest, acc, State(), ch);
      str[n] := ch as u8;
    }

    /** `read_c_string(str, len)`: stores into str[0..len). */
    method ReadCString(str: array<u8>, len: nat) returns (n: nat)
      requires Valid() && len <= str.Length
      modifies this, str
      ensures Valid()
      ensures var s := ReadCStringSpec(bytes, old(State()), len);
        State() == s.cursor && n == |s.chars| &&
        str[..] == Stored(s) + old(str[..])[|Stored(s)|..]
    {
      ghost var start := State();
      ghost var spec := ReadCStringSpec(bytes, start, len);
      ghost var acc: seq<u8> := [];
      n := 0;
      while n < len
        invariant n <= len && Valid()
        invariant |acc| == n && str[..] == acc + old(str[..])[n..]
        invariant NameFrom(bytes, State(), len - n, acc) == ReadCStringSpec(bytes, start, len)
      {
        var ch := ReadNameChar(str, n, len - n, acc);
        BufferStep(acc, old(str[..]), ch as u8);
        acc := acc + [ch as u8];
        if ch == 0 {
          break;
        }
        n := n + 1;
      }
      assert Stored(spec) == acc;
    }

    /** The older `ReadUTF8(out, len)`, which checks overrun before each read. */
    method ReadUtf8(str: array<u8>, len: nat) returns (n: nat)
      requires Valid() && len <= str.Length
      modifies this, str
      ensures Valid()
      ensures var s := ReadUtf8Spec(bytes, old(State()), len);
        State() == s.cursor && n == |s.chars| &&
        str[..] == Stored(s) + old(str[..])[|Stored(s)|..]
    {
      ghost var start := State();
      ghost var spec := ReadUtf8Spec(bytes, start, len);
      ghost var acc: seq<u8> := [];
      n := 0;
      while n < len && !overrun
        invariant n <= len && Valid()
        invariant |acc| == n && str[..] == acc + old(str[..])[n..]
        invariant Utf8From(bytes, State(), len - n, acc) == ReadUtf8Spec(bytes, start, len)
      {
        var ch := ReadUtf8Char(str, n, len - n, acc);
        BufferStep(acc, old(str[..]), ch as u8);
        acc := acc + [ch as u8];
        if ch == 0 {
          break;
        }
        n := n + 1;
      }
      assert Stored(spec) == acc;
    }
  }

  /**
   * The unit test of `read_bits`: from the byte 0b01011101, widths
   * 1, 1, 1, 1, 2, 1, 1 give 0, 1, 0, 1, 3, 0, 1 and end exactly at the end
   * of the data without overrun; one more bit overruns.
   */
  method ReadBitsExample() returns (values: seq<nat>, overrunBefore: bool, overrunAfter: bool)
    ensures values == [0, 1, 0, 1, 3, 0, 1] && !overrunBefore && overrunAfter
  {
    var d: seq<u8> := [0x5D];
    var bits := new BitStream(d);
    var v0 := bits.ReadBits(1);
    assert ReadBitsSpec(d, Cursor(0, 0, false), 1) == Read(Cursor(0, 1, false), 0);
    var v1 := bits.ReadBits(1);
    assert ReadBitsSpec(d, Cursor(0, 1, false), 1) == Read(Cursor(0, 2, false), 1);
    var v2 := bits.ReadBits(1);
    assert ReadBitsSpec(d, Cursor(0, 2, false), 1) == Read(Cursor(0, 3, false), 0);
    var v3 := bits.ReadBits(1);
    assert ReadBitsSpec(d, Cursor(0, 3, false), 1) == Read(Cursor(0, 4, false), 1);
    var v4 := bits.ReadBits(2);
    assert ReadBitsSpec(d, Cursor(0, 4, false), 2) == Read(Cursor(0, 6, false), 3);
    var v5 := bits.ReadBits(1);
    assert ReadBitsSpec(d, Cursor(0, 6, false), 1) == Read(Cursor(0, 7, false), 0);
    var v6 := bits.ReadBits(1);
    assert ReadBitsSpec(d, Cursor(0, 7, false), 1) == Read(Cursor(1, 0, false), 1);
    values := [v0, v1, v2, v3, v4, v5, v6];
    overrunBefore := bits.overrun;
    var _ := bits.ReadBits(1);
    overrunAfter := bits.overrun;
  }
}
