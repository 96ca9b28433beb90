/**
 * The LZSS decompressor of archive entries. A 0x2000-byte ring
 * dictionary starts zeroed with its head at 1. A 1-bit flag selects an
 * 8-bit literal or a back-reference of a 13-bit offset and a 4-bit length
 * plus 3. The output is sized to the entry's declared length first.
 *
 * The dictionary is specified as a function of the output produced so far
 * (`Ring`), so the decoded bytes depend on the stream alone. `DecodeFrom`
 * follows the loops as written: a back-reference is copied whole even
 * where it runs past the declared size. The decoder methods stop at the
 * first write past the output (`Overflowed`), where the source's index
 * check fires.
 */
module Lzss {
  import opened Primitives
  import opened BitStreams
  import opened GameTypes
  import opened Containers

  const DictSize: nat := 0x2000
  const MinMatch: nat := 3
  const OffsetBits: nat := 13
  const LengthBits: nat := 4

  /**
   * Slot s of the dictionary once the bytes out have been produced. Byte t
   * of the output is written at slot (1 + t) mod DictSize, so a slot holds
   * the last byte written there, or its initial 0.
   */
  function Ring(out: seq<u8>, s: nat): u8
    requires s < DictSize
  {
    if |out| == 0 then 0
    else if |out| % DictSize == s then out[|out| - 1]
    else Ring(out[..|out| - 1], s)
  }

  /** The ring invariant: the latest DictSize output bytes sit one slot past their index. */
  lemma {:induction false} RingWindow(out: seq<u8>, t: nat)
    requires t < |out| <= t + DictSize
    ensures Ring(out, (1 + t) % DictSize) == out[t]
  {
    if t < |out| - 1 {
      assert |out| % DictSize != (1 + t) % DictSize;
      RingWindow(out[..|out| - 1], t);
      assert out[..|out| - 1][t] == out[t];
    }
  }

  /** Slots the output has not reached yet still hold the zero fill. */
  lemma {:induction false} RingUnwritten(out: seq<u8>, s: nat)
    requires |out| < DictSize && s < DictSize && (s == 0 || s > |out|)
    ensures Ring(out, s) == 0
  {
    if |out| > 0 {
      RingUnwritten(out[..|out| - 1], s);
    }
  }

  /** The dictionary array mirrors the output: slot s holds Ring(out, s). */
  predicate Mirrors(dict: seq<u8>, out: seq<u8>)
  {
    |dict| == DictSize && forall s :: 0 <= s < DictSize ==> dict[s] == Ring(out, s)
  }

  /** Writing the next output byte at the head keeps the dictionary a mirror. */
  lemma MirrorsStep(dict: seq<u8>, out: seq<u8>, head: nat, octet: u8)
    requires Mirrors(dict, out) && head == (1 + |out|) % DictSize
    ensures Mirrors(dict[head := octet], out + [octet])
  {
    var next := out + [octet];
    assert next[..|next| - 1] == out;
    forall s | 0 <= s < DictSize
      ensures dict[head := octet][s] == Ring(next, s)
    {
    }
  }

  /** Advancing the head past output byte n: it then sits one slot past byte n + 1. */
  lemma HeadAdvance(n: nat)
    ensures ((1 + n) % DictSize + 1) % DictSize == (2 + n) % DictSize
  {
  }

  /**
   * A back-reference: the dictionary slots j mod DictSize for j from
   * `from` below `to`, each byte written back at the head before the next
   * is read, so an overlapping copy repeats what it has just produced.
   */
  function CopyMatch(out: seq<u8>, from: nat, to: nat): (r: seq<u8>)
    ensures |r| == |out| + (if from < to then to - from else 0)
    ensures r[..|out|] == out
    decreases if from < to then to - from else 0
  {
    if from >= to then out
    else
      var next := out + [Ring(out, from % DictSize)];
      var r := CopyMatch(next, from + 1, to);
      assert r[..|next|][..|out|] == r[..|out|];
      r
  }

  /** The cursor after the decode and the bytes produced. */
  datatype Decoded = Decoded(cursor: Cursor, out: seq<u8>)

  /**
   * The decode loop with out produced so far and size bytes declared, as
   * written: it runs while fewer than size bytes exist.
   */
  function DecodeFrom(data: seq<u8>, c: Cursor, out: seq<u8>, size: nat): (r: Decoded)
    requires c.bitOff < 8
    ensures r.cursor.bitOff < 8
    ensures |r.out| >= |out| && r.out[..|out|] == out && |r.out| >= size
    ensures |out| < size ==> |r.out| < size + MinMatch + 15
    decreases if |out| < size then size - |out| else 0, 2
  {
    if |out| >= size then Decoded(c, out) else DecodeTurn(data, c, out, size)
  }

  /** One turn of the loop and the rest of it: the flag selects a literal or a back-reference. */
  function DecodeTurn(data: seq<u8>, c: Cursor, out: seq<u8>, size: nat): (r: Decoded)
    requires c.bitOff < 8 && |out| < size
    ensures r.cursor.bitOff < 8
    ensures |r.out| >= |out| && r.out[..|out|] == out && size <= |r.out| < size + MinMatch + 15
    decreases size - |out|, 1
  {
    var flag := ReadBitsSpec(data, c, 1);
    if flag.value != 0 then DecodeLiteral(data, flag.cursor, out, size)
    else DecodeMatch(data, flag.cursor, out, size)
  }

  /** After a flag 1: an 8-bit literal joins the output. */
  function DecodeLiteral(data: seq<u8>, c: Cursor, out: seq<u8>, size: nat): (r: Decoded)
    requires c.bitOff < 8 && |out| < size
    ensures r.cursor.bitOff < 8
    ensures |r.out| >= |out| && r.out[..|out|] == out && size <= |r.out| < size + MinMatch + 15
    decreases size - |out|, 0
  {
    var lit := ReadBitsSpec(data, c, 8);
    ReadByteBound(data, c);
    var r := DecodeFrom(data, lit.cursor, out + [lit.value as u8], size);
    assert r.out[..|out| + 1][..|out|] == r.out[..|out|];
    r
  }

  /**
   * After a flag 0: a 13-bit offset and a 4-bit length, and the whole
   * back-reference of length + 3 bytes joins the output.
   */
  function DecodeMatch(data: seq<u8>, c: Cursor, out: seq<u8>, size: nat): (r: Decoded)
    requires c.bitOff < 8 && |out| < size
    ensures r.cursor.bitOff < 8
    ensures |r.out| >= |out| && r.out[..|out|] == out && size <= |r.out| < size + MinMatch + 15
    decreases size - |out|, 0
  {
    var off := ReadBitsSpec(data, c, OffsetBits);
    var len := ReadBitsSpec(data, off.cursor, LengthBits);
    ReadBitsBound(data, off.cursor, LengthBits);
    Pow2Values();
    var next := CopyMatch(out, off.value, off.value + len.value + MinMatch);
    var r := DecodeFrom(data, len.cursor, next, size);
    assert r.out[..|next|][..|out|] == r.out[..|out|];
    r
  }

  /** A turn of the loop, once its flag is read. */
  lemma TurnSplit(data: seq<u8>, c: Cursor, out: seq<u8>, size: nat, flag: Read<nat>)
    requires c.bitOff < 8 && |out| < size && flag == ReadBitsSpec(data, c, 1)
    ensures flag.cursor.bitOff < 8
    ensures DecodeFrom(data, c, out, size) ==
      if flag.value != 0 then DecodeLiteral(data, flag.cursor, out, size)
      else DecodeMatch(data, flag.cursor, out, size)
  {
    assert DecodeFrom(data, c, out, size) == DecodeTurn(data, c, out, size);
  }

  /** An entry of declared size 0 reads nothing and produces nothing. */
  lemma EmptyEntryReadsNothing(data: seq<u8>, c: Cursor)
    requires c.bitOff < 8
    ensures DecodeFrom(data, c, [], 0) == Decoded(c, [])
  {
  }

  /**
   * Decoding from an overrun cursor stays overrun: every flag reads 0,
   * so every turn is a back-reference that reads nothing.
   */
  lemma {:induction false} DecodeSticky(data: seq<u8>, c: Cursor, out: seq<u8>, size: nat)
    requires c.bitOff < 8 && c.overrun
    ensures DecodeFrom(data, c, out, size).cursor == c
    decreases if |out| < size then size - |out| else 0
  {
    if |out| < size {
      ReadBitsClosed(data, c, 1);
      ReadBitsClosed(data, c, OffsetBits);
      ReadBitsClosed(data, c, LengthBits);
      DecodeSticky(data, c, CopyMatch(out, 0, MinMatch), size);
      TurnSplit(data, c, out, size, ReadBitsSpec(data, c, 1));
    }
  }

  /** All-zero data holds only zero bits. */
  lemma {:induction false} ZeroBits(data: seq<u8>, p: nat, n: nat)
    requires p + n <= 8 * |data| && forall i :: 0 <= i < |data| ==> data[i] == 0
    ensures BitsValue(data, p, n) == 0
    decreases n
  {
    if n > 0 {
      ZeroBits(data, p, n - 1);
      var q := p + n - 1;
      BitAtCoords(data, q / 8, q % 8);
      assert BitOf(0, q % 8) == 0 by { ZeroBitOf(q % 8); }
    }
  }

  lemma {:induction false} ZeroBitOf(k: nat)
    requires k < 8
    ensures BitOf(0, k) == 0
    decreases 7 - k
  {
    if k < 7 {
      ZeroBitOf(k + 1);
    }
  }

  /**
   * The loop as written runs a back-reference past the declared size:
   * three zero bytes declared as one byte of output decode to a flag 0,
   * offset 0 and length 0, a three-byte match, and so three bytes.
   */
  lemma MatchRunsPastSize(data: seq<u8>)
    requires data == [0, 0, 0]
    ensures |DecodeFrom(data, Cursor(0, 0, false), [], 1).out| == 3
  {
    var c := Cursor(0, 0, false);
    var flag := ReadBitsSpec(data, c, 1);
    ReadBitsClosed(data, c, 1);
    ZeroBits(data, 0, 1);
    var off := ReadBitsSpec(data, flag.cursor, OffsetBits);
    ReadBitsClosed(data, flag.cursor, OffsetBits);
    var len := ReadBitsSpec(data, off.cursor, LengthBits);
    ReadBitsClosed(data, off.cursor, LengthBits);
    ZeroBits(data, 14, 4);
    var next := CopyMatch([], off.value, off.value + MinMatch);
    TurnSplit(data, c, [], 1, flag);
    assert DecodeMatch(data, flag.cursor, [], 1) == DecodeFrom(data, len.cursor, next, 1);
  }

  /**
   * What the caller gets: either the whole decode fitted the output, which
   * then holds it, with true exactly when no read overran; or a
   * back-reference ran past the output, which holds the bytes that fitted.
   */
  datatype Outcome = Finished(ok: bool) | Overflowed

  predicate Delivers(outcome: Outcome, r: Decoded, size: nat, contents: seq<u8>)
  {
    match outcome
    case Finished(ok) => |r.out| == size && contents == r.out && ok == !r.cursor.overrun
    case Overflowed => |r.out| > size && contents == r.out[..size]
  }

  /**
   * The state after a turn that produces next as written: when it fitted,
   * the output and the dictionary hold next and the head sits past it;
   * otherwise next ran past the output, which holds the bytes that fitted.
   */
  predicate Turned(dict: seq<u8>, head: nat, contents: seq<u8>, i: nat, fits: bool, next: seq<u8>)
  {
    (fits ==> i == |next| <= |contents| && contents[..i] == next &&
              Mirrors(dict, next) && head == (1 + |next|) % DictSize) &&
    (!fits ==> |next| > |contents| && contents == next[..|contents|])
  }

  /**
   * One output byte: written at the dictionary head, the head advanced,
   * then stored at output index i, which the index check requires to be
   * below the length; false when it is not.
   */
  method Emit(dict: array<u8>, head: nat, data: Array<u8>, i: nat, octet: u8, ghost out: seq<u8>)
    returns (head': nat, fits: bool)
    requires data.Valid() && dict != data.buffer
    requires Mirrors(dict[..], out) && head == (1 + |out|) % DictSize
    requires i == |out| <= data.length && data.Contents()[..i] == out
    modifies dict, data.buffer
    ensures data.Valid() && (fits <==> i < data.length)
    ensures fits ==> data.Contents()[..i + 1] == out + [octet] && Mirrors(dict[..], out + [octet]) &&
                     head' == (1 + |out + [octet]|) % DictSize
    ensures !fits ==> data.Contents() == out
  {
    MirrorsStep(dict[..], out, head, octet);
    dict[head] := octet;
    ghost var written := dict[..];
    HeadAdvance(|out|);
    head' := (head + 1) % DictSize;
    if i >= data.length {
      return head', false;
    }
    data.Set(i, octet);
    assert dict[..] == written;
    assert data.Contents()[..i + 1] == out + [octet];
    fits := true;
  }

  /**
   * The inner copy loop: copies the back-reference `from` up to `to` into
   * the dictionary and the output, and reports false at the first byte
   * whose output index is not below the length.
   */
  method CopyBack(dict: array<u8>, head: nat, data: Array<u8>, i: nat, from: nat, to: nat, ghost out: seq<u8>)
    returns (head': nat, i': nat, fits: bool)
    requires data.Valid() && dict != data.buffer
    requires Mirrors(dict[..], out) && head == (1 + |out|) % DictSize
    requires i == |out| <= data.length && data.Contents()[..i] == out
    modifies dict, data.buffer
    ensures data.Valid() && Turned(dict[..], head', data.Contents(), i', fits, CopyMatch(out, from, to))
  {
    ghost var cur := out;
    head', i' := head, i;
    var j := from;
    while j < to
      invariant data.Valid() && i' == |cur| <= data.length && data.Contents()[..i'] == cur
      invariant Mirrors(dict[..], cur) && head' == (1 + |cur|) % DictSize
      invariant CopyMatch(cur, j, to) == CopyMatch(out, from, to)
      decreases if j < to then to - j else 0
    {
      var octet := dict[j % DictSize];
      var ok;
      head', ok := Emit(dict, head', data, i', octet, cur);
      if !ok {
        return head', i', false;
      }
      cur := cur + [octet];
      i' := i' + 1;
      j := j + 1;
    }
    fits := true;
  }

  /** A literal turn, once its flag has been read. */
  method LiteralStep(bits: BitStream, dict: array<u8>, head: nat, data: Array<u8>, i: nat, ghost out: seq<u8>)
    returns (head': nat, i': nat, fits: bool, ghost next: seq<u8>)
    requires bits.Valid() && data.Valid() && dict != data.buffer
    requires Mirrors(dict[..], out) && head == (1 + |out|) % DictSize
    requires i == |out| < data.length && data.Contents()[..i] == out
    modifies bits, dict, data.buffer
    ensures bits.Valid() && data.Valid() && |next| > |out|
    ensures DecodeLiteral(bits.bytes, old(bits.State()), out, data.length) ==
            DecodeFrom(bits.bytes, bits.State(), next, data.length)
    ensures Turned(dict[..], head', data.Contents(), i', fits, next)
  {
    ghost var c := bits.State();
    var lit := bits.ReadBits(8);
    ReadByteBound(bits.bytes, c);
    var octet := lit as u8;
    next := out + [octet];
    head', fits := Emit(dict, head, data, i, octet, out);
    i' := i + 1;
  }

  /** A back-reference turn, once its flag has been read. */
  method MatchStep(bits: BitStream, dict: array<u8>, head: nat, data: Array<u8>, i: nat, ghost out: seq<u8>)
    returns (head': nat, i': nat, fits: bool, ghost next: seq<u8>)
    requires bits.Valid() && data.Valid() && dict != data.buffer
    requires Mirrors(dict[..], out) && head == (1 + |out|) % DictSize
    requires i == |out| < data.length && data.Contents()[..i] == out
    modifies bits, dict, data.buffer
    ensures bits.Valid() && data.Valid() && |next| > |out|
    ensures DecodeMatch(bits.bytes, old(bits.State()), out, data.length) ==
            DecodeFrom(bits.bytes, bits.State(), next, data.length)
    ensures Turned(dict[..], head', data.Contents(), i', fits, next)
  {
    var off, len := ReadMatchWord(bits, out, data.length);
    next := CopyMatch(out, off, off + len + MinMatch);
    head', i', fits := CopyBack(dict, head, data, i, off, off + len + MinMatch, out);
  }

  /** The offset and length of a back-reference. */
  method ReadMatchWord(bits: BitStream, ghost out: seq<u8>, ghost size: nat) returns (off: nat, len: nat)
    requires bits.Valid() && |out| < size
    modifies bits
    ensures bits.Valid()
    ensures DecodeMatch(bits.bytes, old(bits.State()), out, size) ==
            DecodeFrom(bits.bytes, bits.State(), CopyMatch(out, off, off + len + MinMatch), size)
  {
    off := bits.ReadBits(OffsetBits);
    len := bits.ReadBits(LengthBits);
  }

  /** One turn of the decode loop: the flag, then a literal or a back-reference. */
  method DecodeStep(bits: BitStream, dict: array<u8>, head: nat, data: Array<u8>, i: nat, ghost out: seq<u8>)
    returns (head': nat, i': nat, fits: bool, ghost next: seq<u8>)
    requires bits.Valid() && data.Valid() && dict != data.buffer
    requires Mirrors(dict[..], out) && head == (1 + |out|) % DictSize
    requires i == |out| < data.length && data.Contents()[..i] == out
    modifies bits, dict, data.buffer
    ensures bits.Valid() && data.Valid() && |next| > |out|
    ensures DecodeFrom(bits.bytes, old(bits.State()), out, data.length) ==
            DecodeFrom(bits.bytes, bits.State(), next, data.length)
    ensures Turned(dict[..], head', data.Contents(), i', fits, next)
  {
    ghost var c := bits.State();
    var flag := bits.ReadBits(1);
    TurnSplit(bits.bytes, c, out, data.length, Read(bits.State(), flag));
    if flag != 0 {
      head', i', fits, next := LiteralStep(bits, dict, head, data, i, out);
    } else {
      head', i', fits, next := MatchStep(bits, dict, head, data, i, out);
    }
  }

  /**
   * The decoder on a stream already at the entry's data, filling the
   * output of the length it already has: the dictionary is allocated
   * zeroed with the head at 1, then turns run while the output is short.
   */
  method Decode(bits: BitStream, data: Array<u8>) returns (outcome: Outcome)
    requires bits.Valid() && data.Valid()
    modifies bits, data.buffer
    ensures bits.Valid() && data.Valid()
    ensures var r := DecodeFrom(bits.bytes, old(bits.State()), [], data.length);
      bits.State() == r.cursor && Delivers(outcome, r, data.length, data.Contents())
  {
    ghost var start := bits.State();
    var dict := new u8[DictSize](_ => 0);
    var head := 1;
    var i := 0;
    ghost var out: seq<u8> := [];
    forall s | 0 <= s < DictSize
      ensures dict[s] == Ring(out, s)
    {
    }
    while i < data.length
      invariant bits.Valid() && data.Valid() && dict != data.buffer
      invariant i == |out| <= data.length && data.Contents()[..i] == out
      invariant Mirrors(dict[..], out) && head == (1 + |out|) % DictSize
      invariant DecodeFrom(bits.bytes, bits.State(), out, data.length) ==
                DecodeFrom(bits.bytes, start, [], data.length)
      decreases data.length - i
    {
      var fits;
      head, i, fits, out := DecodeStep(bits, dict, head, data, i, out);
      if !fits {
        return Overflowed;
      }
    }
    assert data.Contents() == out;
    return Finished(!bits.overrun);
  }

  /**
   * `read_pbg_entry_data(archive, file, data)`: the output is resized to
   * the declared size and a fresh stream on the archive seeks to the
   * entry's offset, bit 0.
   */
  method ReadPbgEntryData(archive: seq<u8>, file: PbgEntry, data: Array<u8>) returns (outcome: Outcome)
    requires data.Valid()
    modifies data, data.buffer
    ensures data.Valid() && data.length == file.fsiz
    ensures Delivers(outcome, DecodeFrom(archive, Cursor(file.foff, 0, false), [], file.fsiz), file.fsiz, data.Contents())
    ensures file.fsiz == 0 ==> outcome == Finished(true)
  {
    data.Resize(file.fsiz);
    var bits := new BitStream(archive);
    bits.Seek(file.foff, 0);
    outcome := Decode(bits, data);
  }

  /**
   * `PBG::ReadEntryData(bits, file, data)`: the stream is passed by value,
   * so the caller's stream keeps its position and its overrun flag.
   */
  method ReadEntryData(bits: BitStream, file: PbgEntry, data: Array<u8>) returns (outcome: Outcome)
    requires bits.Valid() && data.Valid()
    modifies data, data.buffer
    ensures data.Valid() && data.length == file.fsiz && bits.State() == old(bits.State())
    ensures Delivers(outcome, DecodeFrom(bits.bytes, Cursor(file.foff, 0, bits.overrun), [], file.fsiz),
                     file.fsiz, data.Contents())
  {
    data.Resize(file.fsiz);
    var copy := new BitStream.Copy(bits);
    copy.Seek(file.foff, 0);
    outcome := Decode(copy, data);
  }

  /**
   * The older `PBG::ReadEntryContents(bits, entry, data)`: the stream is
   * shared by reference and seeks with the one-argument `Seek`; once it
   * has overrun, no later entry read on it succeeds.
   */
  method ReadEntryContents(bits: BitStream, entry: PbgEntry, data: Array<u8>) returns (outcome: Outcome)
    requires bits.Valid() && data.Valid()
    modifies bits, data, data.buffer
    ensures bits.Valid() && data.Valid() && data.length == entry.fsiz
    ensures var r := DecodeFrom(bits.bytes, Cursor(entry.foff, 0, old(bits.overrun)), [], entry.fsiz);
      bits.State() == r.cursor && Delivers(outcome, r, entry.fsiz, data.Contents())
    ensures old(bits.overrun) ==> outcome != Finished(true) && bits.overrun
  {
    data.Resize(entry.fsiz);
    bits.SeekByte(entry.foff);
    if bits.overrun {
      DecodeSticky(bits.bytes, bits.State(), [], entry.fsiz);
    }
    outcome := Decode(bits, data);
  }
}
