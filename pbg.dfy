/**
 * The PBG3 archive index: a four-character magic, the packed entry count
 * and table offset, then per entry five packed integers and a name, all
 * read through the bit reader.
 *
 * Three versions of the reader share one body and differ only in how they
 * get their stream and read names: `read_pbg_entries` opens a fresh stream
 * on the archive, `PBG::ReadEntryList` takes a stream by value (a copy),
 * and the older `PBG::ReadEntries` takes one by reference, seeks with the
 * one-argument `Seek` and reads names with `ReadUTF8`.
 */
module Pbg {
  import opened Primitives
  import opened BitStreams
  import opened GameTypes
  import opened Containers

  /** "PBG3". */
  const PbgMagic: seq<nat> := [0x50, 0x42, 0x47, 0x33]

  /** Four 8-bit reads: the magic as the archive holds it. */
  function MagicSpec(data: seq<u8>, c: Cursor): (r: Read<seq<nat>>)
    requires c.bitOff < 8
    ensures r.cursor.bitOff < 8 && |r.value| == 4
  {
    var a := ReadBitsSpec(data, c, 8);
    var b := ReadBitsSpec(data, a.cursor, 8);
    var g := ReadBitsSpec(data, b.cursor, 8);
    var d := ReadBitsSpec(data, g.cursor, 8);
    Read(d.cursor, [a.value, b.value, g.value, d.value])
  }

  /**
   * A name of at most MaxPbgName bytes: `read_c_string`, or `ReadUTF8` in
   * the older reader (legacy).
   */
  function NameSpec(data: seq<u8>, c: Cursor, legacy: bool): (r: CString)
    requires c.bitOff < 8
    ensures r.cursor.bitOff < 8 && |Stored(r)| <= MaxPbgName
  {
    if legacy then ReadUtf8Spec(data, c, MaxPbgName) else ReadCStringSpec(data, c, MaxPbgName)
  }

  /** The name buffer after a name read: the bytes it stored, then zeros. */
  function NameBuffer(s: CString): (b: seq<u8>)
    requires |Stored(s)| <= MaxPbgName
    ensures |b| == MaxPbgName && b[..|Stored(s)|] == Stored(s)
    ensures forall i :: |Stored(s)| <= i < MaxPbgName ==> b[i] == 0
  {
    Stored(s) + Zeros(MaxPbgName - |Stored(s)|)
  }

  /**
   * One index entry: five packed integers (unk1, unk2, chck, foff, fsiz),
   * then the name.
   */
  function EntrySpec(data: seq<u8>, c: Cursor, legacy: bool): (r: Read<PbgEntry>)
    requires c.bitOff < 8
    ensures r.cursor.bitOff < 8 && |r.value.name| == MaxPbgName
  {
    var unk1 := ReadIntSpec(data, c);
    var unk2 := ReadIntSpec(data, unk1.cursor);
    var chck := ReadIntSpec(data, unk2.cursor);
    var foff := ReadIntSpec(data, chck.cursor);
    var fsiz := ReadIntSpec(data, foff.cursor);
    var name := NameSpec(data, fsiz.cursor, legacy);
    Read(name.cursor, PbgEntry(unk1.value, unk2.value, chck.value, foff.value, fsiz.value, NameBuffer(name)))
  }

  /** The first k entries of the table that starts at cursor c, and the cursor after them. */
  function Entries(data: seq<u8>, c: Cursor, k: nat, legacy: bool): (r: Read<seq<PbgEntry>>)
    requires c.bitOff < 8
    ensures r.cursor.bitOff < 8 && |r.value| == k
    decreases k, 1
  {
    if k == 0 then Read(c, []) else EntriesThen(data, c, k, legacy)
  }

  /** Entries with k > 0: the first k - 1 entries, then one more. */
  function EntriesThen(data: seq<u8>, c: Cursor, k: nat, legacy: bool): (r: Read<seq<PbgEntry>>)
    requires c.bitOff < 8 && k > 0
    ensures r.cursor.bitOff < 8 && |r.value| == k
    decreases k, 0
  {
    var before := Entries(data, c, k - 1, legacy);
    var e := EntrySpec(data, before.cursor, legacy);
    Read(e.cursor, before.value + [e.value])
  }

  /** Reading one more entry after the first k extends the table by it. */
  lemma EntriesNext(data: seq<u8>, c: Cursor, k: nat, legacy: bool,
                    mid: Cursor, before: seq<PbgEntry>, next: Cursor, e: PbgEntry)
    requires c.bitOff < 8 && mid.bitOff < 8
    requires Entries(data, c, k, legacy) == Read(mid, before)
    requires EntrySpec(data, mid, legacy) == Read(next, e)
    ensures Entries(data, c, k + 1, legacy) == Read(next, before + [e])
  {
  }

  /**
   * The outcome of reading an index: a wrong magic, which ends the read
   * at once, or the entry table and the cursor after it.
   */
  datatype Index = BadMagic(cursor: Cursor) | Table(cursor: Cursor, entries: seq<PbgEntry>)

  /**
   * The index read from cursor c: the magic, the entry count, the table
   * offset, a seek to bit 0 of that byte (keeping the overrun flag), then
   * count entries.
   */
  function IndexSpec(data: seq<u8>, c: Cursor, legacy: bool): (r: Index)
    requires c.bitOff < 8
  {
    var m := MagicSpec(data, c);
    if m.value != PbgMagic then BadMagic(m.cursor)
    else
      var count := ReadIntSpec(data, m.cursor);
      var off := ReadIntSpec(data, count.cursor);
      var es := Entries(data, Cursor(off.value, 0, off.cursor.overrun), count.value, legacy);
      Table(es.cursor, es.value)
  }

  /**
   * What the caller sees: a wrong magic returns false and leaves the entry
   * array alone; otherwise the array holds the table and the result is
   * true exactly when no read overran.
   */
  predicate IndexOutcome(index: Index, ok: bool, before: seq<PbgEntry>, after: seq<PbgEntry>)
  {
    match index
    case BadMagic(_) => !ok && after == before
    case Table(cursor, entries) => ok == !cursor.overrun && after == entries
  }

  /** The four magic reads. */
  method ReadMagic(bits: BitStream) returns (magic: seq<nat>)
    requires bits.Valid()
    modifies bits
    ensures bits.Valid() && Read(bits.State(), magic) == MagicSpec(bits.bytes, old(bits.State()))
  {
    var a := bits.ReadBits(8);
    var b := bits.ReadBits(8);
    var g := bits.ReadBits(8);
    var d := bits.ReadBits(8);
    magic := [a, b, g, d];
  }

  /** The name read of an entry, into a zeroed buffer of MaxPbgName bytes. */
  method ReadEntryName(bits: BitStream, legacy: bool) returns (name: seq<u8>)
    requires bits.Valid()
    modifies bits
    ensures bits.Valid()
    ensures var s := NameSpec(bits.bytes, old(bits.State()), legacy);
      bits.State() == s.cursor && name == NameBuffer(s)
  {
    var buffer := new u8[MaxPbgName](_ => 0);
    ghost var blank := buffer[..];
    ghost var c := bits.State();
    var n;
    if legacy {
      n := bits.ReadUtf8(buffer, MaxPbgName);
    } else {
      n := bits.ReadCString(buffer, MaxPbgName);
    }
    ghost var stored := Stored(NameSpec(bits.bytes, c, legacy));
    assert blank[|stored|..] == Zeros(MaxPbgName - |stored|);
    name := buffer[..];
  }

  /** The body of the entry loop: five `read_int`s and the name read. */
  method ReadEntry(bits: BitStream, legacy: bool) returns (e: PbgEntry)
    requires bits.Valid()
    modifies bits
    ensures bits.Valid() && Read(bits.State(), e) == EntrySpec(bits.bytes, old(bits.State()), legacy)
  {
    var unk1 := bits.ReadInt();
    var unk2 := bits.ReadInt();
    var chck := bits.ReadInt();
    var foff := bits.ReadInt();
    var fsiz := bits.ReadInt();
    var name := ReadEntryName(bits, legacy);
    e := PbgEntry(unk1, unk2, chck, foff, fsiz, name);
  }

  /** Entry k of the table read from start, once the first k have been read. */
  method ReadNextEntry(bits: BitStream, legacy: bool, ghost start: Cursor, ghost k: nat, ghost before: seq<PbgEntry>)
    returns (e: PbgEntry)
    requires bits.Valid() && start.bitOff < 8
    requires Entries(bits.bytes, start, k, legacy) == Read(bits.State(), before)
    modifies bits
    ensures bits.Valid() && Entries(bits.bytes, start, k + 1, legacy) == Read(bits.State(), before + [e])
  {
    ghost var c := bits.State();
    e := ReadEntry(bits, legacy);
    EntriesNext(bits.bytes, start, k, legacy, c, before, bits.State(), e);
  }

  /** The entry loop: entry i of the table is read into slot i, in order. */
  method FillTable(bits: BitStream, entries: Array<PbgEntry>, legacy: bool)
    requires bits.Valid() && entries.Valid()
    modifies bits, entries.buffer
    ensures bits.Valid() && entries.Valid()
    ensures Read(bits.State(), entries.Contents()) == Entries(bits.bytes, old(bits.State()), entries.length, legacy)
  {
    ghost var start := bits.State();
    var i: nat := 0;
    while i < entries.length
      invariant i <= entries.length && entries.Valid() && bits.Valid()
      invariant Entries(bits.bytes, start, i, legacy) == Read(bits.State(), entries.Contents()[..i])
    {
      FillSlot(bits, entries, legacy, start, i);
      i := i + 1;
    }
    assert entries.Contents()[..i] == entries.Contents();
  }

  /** One turn of the entry loop: slot i receives entry i. */
  method FillSlot(bits: BitStream, entries: Array<PbgEntry>, legacy: bool, ghost start: Cursor, i: nat)
    requires bits.Valid() && entries.Valid() && start.bitOff < 8 && i < entries.length
    requires Entries(bits.bytes, start, i, legacy) == Read(bits.State(), entries.Contents()[..i])
    modifies bits, entries.buffer
    ensures bits.Valid() && entries.Valid()
    ensures Entries(bits.bytes, start, i + 1, legacy) == Read(bits.State(), entries.Contents()[..i + 1])
  {
    ghost var before := entries.Contents()[..i];
    var e := ReadNextEntry(bits, legacy, start, i, before);
    entries.Set(i, e);
    assert entries.Contents()[..i + 1] == before + [e];
  }

  /**
   * The shared body of the three readers, on the stream bits: legacy
   * selects the older reader's one-argument `Seek` and `ReadUTF8`.
   */
  method ReadIndex(bits: BitStream, entries: Array<PbgEntry>, legacy: bool) returns (ok: bool)
    requires bits.Valid() && entries.Valid()
    modifies bits, entries, entries.buffer
    ensures bits.Valid() && entries.Valid()
    ensures var index := IndexSpec(bits.bytes, old(bits.State()), legacy);
      bits.State() == index.cursor &&
      IndexOutcome(index, ok, old(entries.Contents()), entries.Contents())
  {
    var magic := ReadMagic(bits);
    if magic != PbgMagic {
      return false;
    }
    var count := bits.ReadInt();
    var off := bits.ReadInt();
    if legacy {
      bits.SeekByte(off);
    } else {
      bits.Seek(off, 0);
    }
    entries.Resize(count);
    FillTable(bits, entries, legacy);
    return !bits.overrun;
  }

  /** `read_pbg_entries(archive, entries)`: a fresh stream on the archive. */
  method ReadPbgEntries(archive: seq<u8>, entries: Array<PbgEntry>) returns (ok: bool)
    requires entries.Valid()
    modifies entries, entries.buffer
    ensures entries.Valid()
    ensures IndexOutcome(IndexSpec(archive, Cursor(0, 0, false), false), ok,
                         old(entries.Contents()), entries.Contents())
  {
    var bits := new BitStream(archive);
    ok := ReadIndex(bits, entries, false);
  }

  /**
   * `PBG::ReadEntryList(bits, entries)`: the stream is passed by value, so
   * the reads move a copy and the caller's stream is left where it was.
   */
  method ReadEntryList(bits: BitStream, entries: Array<PbgEntry>) returns (ok: bool)
    requires bits.Valid() && entries.Valid()
    modifies entries, entries.buffer
    ensures entries.Valid() && bits.State() == old(bits.State())
    ensures IndexOutcome(IndexSpec(bits.bytes, bits.State(), false), ok,
                         old(entries.Contents()), entries.Contents())
  {
    var copy := new BitStream.Copy(bits);
    ok := ReadIndex(copy, entries, false);
  }

  /**
   * The older `PBG::ReadEntries(bits, entries)`: the stream is passed by
   * reference and is left after the last read.
   */
  method ReadEntries(bits: BitStream, entries: Array<PbgEntry>) returns (ok: bool)
    requires bits.Valid() && entries.Valid()
    modifies bits, entries, entries.buffer
    ensures bits.Valid() && entries.Valid()
    ensures var index := IndexSpec(bits.bytes, old(bits.State()), true);
      bits.State() == index.cursor &&
      IndexOutcome(index, ok, old(entries.Contents()), entries.Contents())
  {
    ok := ReadIndex(bits, entries, true);
  }

  /**
   * The magic reads either all succeed, consuming 32 bits, or end
   * overrun; an overrun magic ends in a 0 read and so is never "PBG3".
   */
  lemma MagicClosed(data: seq<u8>, c: Cursor)
    requires c.bitOff < 8
    ensures var m := MagicSpec(data, c);
      (!m.cursor.overrun ==> Pos(c) + 32 <= 8 * |data| && Pos(m.cursor) == Pos(c) + 32) &&
      (m.cursor.overrun ==> m.value != PbgMagic)
  {
    var a := ReadBitsSpec(data, c, 8);
    var b := ReadBitsSpec(data, a.cursor, 8);
    var g := ReadBitsSpec(data, b.cursor, 8);
    ReadBitsClosed(data, c, 8);
    ReadBitsClosed(data, a.cursor, 8);
    ReadBitsClosed(data, b.cursor, 8);
    ReadBitsClosed(data, g.cursor, 8);
  }

  /** An archive shorter than the four magic bytes is rejected. */
  lemma ShortArchiveRejected(data: seq<u8>, legacy: bool)
    requires |data| < 4
    ensures IndexSpec(data, Cursor(0, 0, false), legacy).BadMagic?
  {
    MagicClosed(data, Cursor(0, 0, false));
  }

  /** Every read from an overrun cursor yields 0 and leaves it in place. */
  lemma IntSticky(data: seq<u8>, c: Cursor)
    requires c.bitOff < 8 && c.overrun
    ensures ReadIntSpec(data, c) == Read(c, 0)
  {
    ReadBitsClosed(data, c, 2);
    ReadBitsClosed(data, c, 8);
  }

  /** An entry read from an overrun cursor leaves it overrun. */
  lemma EntrySticky(data: seq<u8>, c: Cursor, legacy: bool)
    requires c.bitOff < 8 && c.overrun
    ensures EntrySpec(data, c, legacy).cursor.overrun
  {
    IntSticky(data, c);
    ReadBitsClosed(data, c, 8);
  }

  /** Entries read from an overrun cursor leave it overrun. */
  lemma {:induction false} EntriesSticky(data: seq<u8>, c: Cursor, k: nat, legacy: bool)
    requires c.bitOff < 8 && c.overrun
    ensures Entries(data, c, k, legacy).cursor.overrun
  {
    if k > 0 {
      EntriesSticky(data, c, k - 1, legacy);
      EntrySticky(data, Entries(data, c, k - 1, legacy).cursor, legacy);
      assert Entries(data, c, k, legacy) == EntriesThen(data, c, k, legacy);
    }
  }

  /**
   * A stream that has overrun, as a by-reference stream may have after an
   * earlier read, fails every later index read without moving.
   */
  lemma OverrunStreamRejected(data: seq<u8>, c: Cursor, legacy: bool)
    requires c.bitOff < 8 && c.overrun
    ensures IndexSpec(data, c, legacy) == BadMagic(c)
  {
    ReadBitsClosed(data, c, 8);
  }

  /**
   * A successful read overran nowhere: the magic, count and offset reads
   * all lay inside the archive, and the table holds count entries.
   */
  lemma IndexSucceeds(data: seq<u8>, c: Cursor, legacy: bool)
    requires c.bitOff < 8
    ensures var m := MagicSpec(data, c);
      var count := ReadIntSpec(data, m.cursor);
      var off := ReadIntSpec(data, count.cursor);
      match IndexSpec(data, c, legacy)
      case BadMagic(_) => m.value != PbgMagic
      case Table(cursor, entries) =>
        m.value == PbgMagic && |entries| == count.value &&
        (!cursor.overrun ==> Pos(c) + 32 <= 8 * |data| && !count.cursor.overrun && !off.cursor.overrun)
  {
    var m := MagicSpec(data, c);
    var count := ReadIntSpec(data, m.cursor);
    var off := ReadIntSpec(data, count.cursor);
    MagicClosed(data, c);
    if m.value == PbgMagic && off.cursor.overrun {
      if count.cursor.overrun {
        IntSticky(data, count.cursor);
      }
      EntriesSticky(data, Cursor(off.value, 0, true), count.value, legacy);
    }
  }
}
