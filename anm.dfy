/**
 * The ANM animation parser (`read_anm`). A file starts with sixteen
 * 32-bit words; the parser then reads the sprite offset table, the script
 * (index, offset) pairs, one or two 32-byte texture names, a 20-byte
 * record at each sprite offset and, from each script offset, opcodes up
 * to the End tag.
 *
 * The pure functions describe, stage by stage, what the parser reads from
 * the file bytes; `ReadAnm` drives a ByteStream as the parser does and is
 * proved to return what `AnmSpec` describes. The two hard assertions of
 * the parser (version 0, a texture name offset) and its final overrun
 * check are failure outcomes.
 */
module Anm {
  import opened Primitives
  import opened ByteStreams
  import opened GameTypes

  /** Words of the file header and the positions of the ones the parser uses. */
  const HeaderWords: nat := 16
  const NumSpritesWord: nat := 0
  const NumScriptsWord: nat := 1
  const TexturePathWord: nat := 7
  const AlphaPathWord: nat := 9
  const VersionWord: nat := 10

  /** Bytes of a sprite record: an index and four coordinate words. */
  const SpriteRecordSize: nat := 20

  /** A 32-bit word read together with the cursor after the read. */
  datatype Word = Word(cursor: ByteCursor, value: u32)

  /** `read<u32>()`. */
  function ReadWord(data: seq<u8>, c: ByteCursor): (r: Word)
    ensures !r.cursor.overrun <==> !c.overrun && c.pos + 4 <= |data|
    ensures !r.cursor.overrun ==> r.cursor.pos == c.pos + 4 && r.value == LittleEndian(data[c.pos..c.pos + 4])
    ensures r.cursor.overrun ==> r.cursor == c.(overrun := true) && r.value == 0
  {
    var s := ReadScalarSpec(data, c, 4);
    ReadScalarBound(data, c, 4);
    Pow2Values();
    Word(s.cursor, s.value)
  }

  /** Consecutive words read together with the cursor after them. */
  datatype Words = Words(cursor: ByteCursor, values: seq<u32>)

  /**
   * k consecutive `read<u32>()` calls: the header, the sprite offset
   * table. All k succeed exactly when the 4k bytes at the cursor lie in
   * the data; after a failed read every later word is 0.
   */
  function ReadWords(data: seq<u8>, c: ByteCursor, k: nat): (r: Words)
    ensures |r.values| == k
    ensures k > 0 ==> (!r.cursor.overrun <==> !c.overrun && c.pos + 4 * k <= |data|)
    ensures !r.cursor.overrun ==> r.cursor.pos == c.pos + 4 * k
    ensures c.overrun ==> r.cursor == c
    decreases k, 1
  {
    if k == 0 then Words(c, []) else ReadWordsThen(data, c, k)
  }

  function ReadWordsThen(data: seq<u8>, c: ByteCursor, k: nat): (r: Words)
    requires k > 0
    ensures |r.values| == k
    ensures !r.cursor.overrun <==> !c.overrun && c.pos + 4 * k <= |data|
    ensures !r.cursor.overrun ==> r.cursor.pos == c.pos + 4 * k
    ensures c.overrun ==> r.cursor == c
    decreases k, 0
  {
    var before := ReadWords(data, c, k - 1);
    var w := ReadWord(data, before.cursor);
    Words(w.cursor, before.values + [w.value])
  }

  /** The word table read back: word j of a successful read is the j-th 4-byte group. */
  lemma {:induction false} ReadWordsValues(data: seq<u8>, c: ByteCursor, k: nat, j: nat)
    requires j < k
    ensures var r := ReadWords(data, c, k);
      !r.cursor.overrun ==> r.values[j] == LittleEndian(data[c.pos + 4 * j..c.pos + 4 * j + 4])
    decreases k
  {
    var r := ReadWords(data, c, k);
    assert r == ReadWordsThen(data, c, k);
    var before := ReadWords(data, c, k - 1);
    if !r.cursor.overrun && j < k - 1 {
      ReadWordsValues(data, c, k - 1, j);
      assert r.values[j] == before.values[j];
    }
  }

  /** The script table so far: the scripts appended and the offsets stored. */
  datatype Pairs = Pairs(cursor: ByteCursor, scripts: seq<Script>, offsets: seq<u32>)

  /**
   * k (index, offset) pairs: each index starts a script with no opcodes,
   * each offset goes to the script offset table.
   */
  function ReadPairs(data: seq<u8>, c: ByteCursor, k: nat): (r: Pairs)
    ensures |r.scripts| == |r.offsets| == k
    ensures forall j :: 0 <= j < k ==> r.scripts[j].ops == []
    ensures k > 0 ==> (!r.cursor.overrun <==> !c.overrun && c.pos + 8 * k <= |data|)
    ensures !r.cursor.overrun ==> r.cursor.pos == c.pos + 8 * k
    ensures c.overrun ==> r.cursor == c
    decreases k, 1
  {
    if k == 0 then Pairs(c, [], []) else ReadPairsThen(data, c, k)
  }

  function ReadPairsThen(data: seq<u8>, c: ByteCursor, k: nat): (r: Pairs)
    requires k > 0
    ensures |r.scripts| == |r.offsets| == k
    ensures forall j :: 0 <= j < k ==> r.scripts[j].ops == []
    ensures !r.cursor.overrun <==> !c.overrun && c.pos + 8 * k <= |data|
    ensures !r.cursor.overrun ==> r.cursor.pos == c.pos + 8 * k
    ensures c.overrun ==> r.cursor == c
    decreases k, 0
  {
    var before := ReadPairs(data, c, k - 1);
    var idx := ReadWord(data, before.cursor);
    var off := ReadWord(data, idx.cursor);
    Pairs(off.cursor, before.scripts + [Script(idx.value, [])], before.offsets + [off.value])
  }

  /** A name buffer of MaxAnmName zeroed bytes after the characters read into it. */
  function NameBuffer(values: seq<u8>): (b: seq<u8>)
    requires |values| <= MaxAnmName
    ensures |b| == MaxAnmName && b[..|values|] == values
    ensures forall i :: |values| <= i < MaxAnmName ==> b[i] == 0
  {
    values + Zeros(MaxAnmName - |values|)
  }

  /** A sprite record read together with the cursor after it. */
  datatype SpriteRead = SpriteRead(cursor: ByteCursor, sprite: Sprite)

  /** Seek to the record's offset, then five words: index, x, y, w, h. */
  function ReadSprite(data: seq<u8>, c: ByteCursor, offset: u32): (r: SpriteRead)
  {
    var idx := ReadWord(data, ByteCursor(offset, c.overrun));
    var x := ReadWord(data, idx.cursor);
    var y := ReadWord(data, x.cursor);
    var w := ReadWord(data, y.cursor);
    var h := ReadWord(data, w.cursor);
    SpriteRead(h.cursor, Sprite(idx.value, x.value, y.value, w.value, h.value))
  }

  /** A record is read whole exactly when its 20 bytes lie in the data. */
  lemma ReadSpriteClosed(data: seq<u8>, c: ByteCursor, offset: u32)
    ensures var r := ReadSprite(data, c, offset);
      (!r.cursor.overrun <==> !c.overrun && offset + SpriteRecordSize <= |data|) &&
      (!r.cursor.overrun ==> r.cursor.pos == offset + SpriteRecordSize)
  {
  }

  /** The sprites read so far. */
  datatype SpriteList = SpriteList(cursor: ByteCursor, sprites: seq<Sprite>)

  /**
   * The records at the first k sprite offsets, in table order. When no
   * read overran, every one of them lies in the data.
   */
  function ReadSprites(data: seq<u8>, c: ByteCursor, offsets: seq<u32>, k: nat): (r: SpriteList)
    requires k <= |offsets|
    ensures |r.sprites| == k
    ensures c.overrun ==> r.cursor.overrun
    ensures !r.cursor.overrun ==> forall j :: 0 <= j < k ==> offsets[j] + SpriteRecordSize <= |data|
    decreases k, 1
  {
    if k == 0 then SpriteList(c, []) else ReadSpritesThen(data, c, offsets, k)
  }

  function ReadSpritesThen(data: seq<u8>, c: ByteCursor, offsets: seq<u32>, k: nat): (r: SpriteList)
    requires 0 < k <= |offsets|
    ensures |r.sprites| == k
    ensures c.overrun ==> r.cursor.overrun
    ensures !r.cursor.overrun ==> forall j :: 0 <= j < k ==> offsets[j] + SpriteRecordSize <= |data|
    decreases k, 0
  {
    var before := ReadSprites(data, c, offsets, k - 1);
    var s := ReadSprite(data, before.cursor, offsets[k - 1]);
    ReadSpriteClosed(data, before.cursor, offsets[k - 1]);
    SpriteList(s.cursor, before.sprites + [s.sprite])
  }

  /** An opcode read together with the cursor after it. */
  datatype OpRead = OpRead(cursor: ByteCursor, op: Op)

  /**
   * How far a cursor is from forcing the End tag: 0 once overrun, 1 past
   * the end of the data (the next read overruns), more before it.
   */
  function Remaining(data: seq<u8>, c: ByteCursor): nat
  {
    if c.overrun then 0 else if c.pos <= |data| then |data| - c.pos + 2 else 1
  }

  /**
   * One opcode: u16 time, u8 tag, u8 size. SetSprite then reads its u32
   * payload whatever the size says; End reads nothing more; every other
   * tag seeks to the end of the header plus size. A read on an overrun
   * stream yields the tag 0, End, in place; every other opcode advances
   * the cursor by at least its 4-byte header.
   */
  function ReadOp(data: seq<u8>, c: ByteCursor): (r: OpRead)
    ensures c.overrun ==> r == OpRead(c, Op(0, End, 0, 0))
    ensures r.op.kind != End ==>
      !c.overrun && c.pos + 2 < |data| && (r.cursor.overrun || r.cursor.pos >= c.pos + OpHeaderSize)
    ensures r.op.kind != SetSprite ==> r.op.setSprite == 0
    ensures Remaining(data, r.cursor) <= Remaining(data, c)
    ensures r.op.kind != End ==> Remaining(data, r.cursor) < Remaining(data, c)
  {
    var time := ReadScalarSpec(data, c, 2);
    var tag := ReadScalarSpec(data, time.cursor, 1);
    var size := ReadScalarSpec(data, tag.cursor, 1);
    ReadScalarBound(data, c, 2);
    ReadScalarBound(data, time.cursor, 1);
    ReadScalarBound(data, tag.cursor, 1);
    Pow2Values();
    var op := Op(time.value, KindOf(tag.value), size.value, 0);
    if op.kind == End then OpRead(size.cursor, op)
    else if op.kind == SetSprite then
      var payload := ReadWord(data, size.cursor);
      OpRead(payload.cursor, op.(setSprite := payload.value))
    else OpRead(ByteCursor(size.cursor.pos + size.value, size.cursor.overrun), op)
  }

  /** Opcodes read together with the cursor after the End tag. */
  datatype Ops = Ops(cursor: ByteCursor, ops: seq<Op>)

  predicate EndFree(ops: seq<Op>)
  {
    forall m :: 0 <= m < |ops| ==> ops[m].kind != End
  }

  /**
   * The opcode scan of one script: opcodes up to the first End tag, which
   * is not kept. It stops on every input, as each kept opcode moves the
   * cursor forward or overruns the stream, and an overrun reads End.
   */
  function ScanOps(data: seq<u8>, c: ByteCursor): (r: Ops)
    ensures EndFree(r.ops)
    ensures c.overrun ==> r == Ops(c, [])
    decreases Remaining(data, c), 3
  {
    if c.overrun then Ops(c, []) else ScanLive(data, c)
  }

  /** The scan of a stream that has not overrun: it takes turns until End. */
  function ScanLive(data: seq<u8>, c: ByteCursor): (r: Ops)
    requires !c.overrun
    ensures EndFree(r.ops)
    decreases Remaining(data, c), 2
  {
    ScanTurn(data, c)
  }

  /** One turn of the scan: End stops it, any other opcode is kept before the rest. */
  function ScanTurn(data: seq<u8>, c: ByteCursor): (r: Ops)
    ensures EndFree(r.ops)
    ensures c.overrun ==> r == Ops(c, [])
    decreases Remaining(data, c), 1
  {
    var first := ReadOp(data, c);
    if first.op.kind == End then Ops(first.cursor, []) else ScanOpsThen(data, c, first)
  }

  function ScanOpsThen(data: seq<u8>, c: ByteCursor, first: OpRead): (r: Ops)
    requires first == ReadOp(data, c) && first.op.kind != End
    ensures EndFree(r.ops) && |r.ops| > 0 && r.ops[0] == first.op
    decreases Remaining(data, c), 0
  {
    var rest := ScanOps(data, first.cursor);
    Ops(rest.cursor, [first.op] + rest.ops)
  }

  /** One turn of the scan: End stops it, any other opcode is kept before the rest. */
  lemma ScanOpsStep(data: seq<u8>, c: ByteCursor)
    ensures var first := ReadOp(data, c);
      var rest := ScanOps(data, first.cursor);
      ScanOps(data, c) ==
        if first.op.kind == End then Ops(first.cursor, []) else Ops(rest.cursor, [first.op] + rest.ops)
  {
    var first := ReadOp(data, c);
    if !c.overrun {
      assert ScanOps(data, c) == ScanLive(data, c) == ScanTurn(data, c);
    }
    if first.op.kind != End {
      assert ScanTurn(data, c) == ScanOpsThen(data, c, first);
    }
  }

  /** The 4-byte opcode header: u16 time, u8 tag, u8 size, little-endian. */
  function EncodeHeader(time: u16, tag: u8, size: u8): (b: seq<u8>)
    ensures |b| == OpHeaderSize
  {
    ToLittleEndian(time, 2) + ToLittleEndian(tag, 1) + ToLittleEndian(size, 1)
  }

  /** An opcode a script can hold: a tag byte's kind other than End, a payload only on SetSprite. */
  predicate Encodable(op: Op)
  {
    ValidKind(op.kind) && op.kind != End && (op.kind != SetSprite ==> op.setSprite == 0)
  }

  /** The bytes an opcode takes: its header, then its payload or operands. */
  function OpSize(op: Op): nat
  {
    OpHeaderSize + (if op.kind == SetSprite then 4 else op.size as int)
  }

  /**
   * An opcode as the scan expects it: the header, then the u32 payload of
   * SetSprite or, for any other tag, `size` operand bytes (zeros here).
   */
  function EncodeOp(op: Op): (b: seq<u8>)
    requires Encodable(op)
    ensures |b| == OpSize(op)
  {
    EncodeHeader(op.time, Tag(op.kind), op.size) +
      (if op.kind == SetSprite then ToLittleEndian(op.setSprite, 4) else Zeros(op.size))
  }

  /** A script's opcodes followed by an End header. */
  function EncodeScript(ops: seq<Op>): (b: seq<u8>)
    requires forall m :: 0 <= m < |ops| ==> Encodable(ops[m])
  {
    if |ops| == 0 then EncodeHeader(0, Tag(End), 0) else EncodeOp(ops[0]) + EncodeScript(ops[1..])
  }

  /** A slice of a slice is a slice of the data. */
  lemma SubSlice(data: seq<u8>, p: nat, n: nat, i: nat, j: nat)
    requires p + n <= |data| && i <= j <= n
    ensures data[p + i..p + j] == data[p..p + n][i..j]
  {
    var whole := data[p..p + n];
    forall k | 0 <= k < j - i
      ensures data[p + i..p + j][k] == whole[i..j][k]
    {
      assert whole[i..j][k] == whole[i + k] == data[p + i + k];
    }
  }

  /** An encoded header reads back as its three fields. */
  lemma ReadHeaderEncoded(data: seq<u8>, p: nat, time: u16, tag: u8, size: u8)
    requires p + OpHeaderSize <= |data| && data[p..p + OpHeaderSize] == EncodeHeader(time, tag, size)
    ensures var t := ReadScalarSpec(data, ByteCursor(p, false), 2);
      var g := ReadScalarSpec(data, t.cursor, 1);
      var z := ReadScalarSpec(data, g.cursor, 1);
      t.value == time && g.value == tag && z.value == size && z.cursor == ByteCursor(p + OpHeaderSize, false)
  {
    Pow2Values();
    var h := EncodeHeader(time, tag, size);
    SubSlice(data, p, OpHeaderSize, 0, 2);
    SubSlice(data, p, OpHeaderSize, 2, 3);
    SubSlice(data, p, OpHeaderSize, 3, 4);
    assert h[..2] == ToLittleEndian(time, 2) && h[2..3] == ToLittleEndian(tag, 1) && h[3..4] == ToLittleEndian(size, 1);
    ReadScalarRoundTrip(data, ByteCursor(p, false), 2, time);
    ReadScalarRoundTrip(data, ByteCursor(p + 2, false), 1, tag);
    ReadScalarRoundTrip(data, ByteCursor(p + 3, false), 1, size);
  }

  /** An encoded opcode reads back as itself, with the cursor just past it. */
  lemma ReadOpEncoded(data: seq<u8>, p: nat, op: Op)
    requires Encodable(op)
    requires p + |EncodeOp(op)| <= |data| && data[p..p + |EncodeOp(op)|] == EncodeOp(op)
    ensures ReadOp(data, ByteCursor(p, false)) == OpRead(ByteCursor(p + |EncodeOp(op)|, false), op)
  {
    var e := EncodeOp(op);
    assert data[p..p + OpHeaderSize] == e[..OpHeaderSize];
    ReadHeaderEncoded(data, p, op.time, Tag(op.kind), op.size);
    KindRoundTrip(op.kind);
    if op.kind == SetSprite {
      Pow2Values();
      assert data[p + 4..p + 8] == e[4..8];
      ReadScalarRoundTrip(data, ByteCursor(p + 4, false), 4, op.setSprite);
    }
  }

  /** The End header reads as End, with the cursor just past it. */
  lemma ReadEndEncoded(data: seq<u8>, p: nat)
    requires p + OpHeaderSize <= |data| && data[p..p + OpHeaderSize] == EncodeHeader(0, Tag(End), 0)
    ensures ReadOp(data, ByteCursor(p, false)).op.kind == End
    ensures ReadOp(data, ByteCursor(p, false)).cursor == ByteCursor(p + OpHeaderSize, false)
  {
    ReadHeaderEncoded(data, p, 0, Tag(End), 0);
  }

  /** Bytes holding a + b at p hold a at p and b right after it. */
  lemma SliceSplit(data: seq<u8>, p: nat, a: seq<u8>, b: seq<u8>)
    requires p + |a + b| <= |data| && data[p..p + |a + b|] == a + b
    ensures data[p..p + |a|] == a && data[p + |a|..p + |a| + |b|] == b
  {
    assert data[p..p + |a|] == data[p..p + |a + b|][..|a|];
    assert data[p + |a|..p + |a| + |b|] == data[p..p + |a + b|][|a|..];
  }

  /** A kept opcode followed by the scan from just after it. */
  lemma ScanKeeps(data: seq<u8>, c: ByteCursor, op: Op, next: ByteCursor)
    requires ReadOp(data, c) == OpRead(next, op) && op.kind != End
    ensures ScanOps(data, c) == Ops(ScanOps(data, next).cursor, [op] + ScanOps(data, next).ops)
  {
    assert ScanOps(data, c) == ScanLive(data, c) == ScanTurn(data, c);
    assert ScanTurn(data, c) == ScanOpsThen(data, c, OpRead(next, op));
  }

  /** The scan of an End header keeps nothing and stops just after it. */
  lemma ScanEncodedEnd(data: seq<u8>, p: nat)
    requires p + OpHeaderSize <= |data| && data[p..p + OpHeaderSize] == EncodeHeader(0, Tag(End), 0)
    ensures ScanOps(data, ByteCursor(p, false)) == Ops(ByteCursor(p + OpHeaderSize, false), [])
  {
    ReadEndEncoded(data, p);
    assert ScanOps(data, ByteCursor(p, false)) == ScanLive(data, ByteCursor(p, false)) == ScanTurn(data, ByteCursor(p, false));
  }

  /** The scan keeps an encoded opcode and goes on just after it. */
  lemma ScanEncodedOp(data: seq<u8>, p: nat, op: Op)
    requires Encodable(op)
    requires p + |EncodeOp(op)| <= |data| && data[p..p + |EncodeOp(op)|] == EncodeOp(op)
    ensures var rest := ScanOps(data, ByteCursor(p + |EncodeOp(op)|, false));
      ScanOps(data, ByteCursor(p, false)) == Ops(rest.cursor, [op] + rest.ops)
  {
    ReadOpEncoded(data, p, op);
    ScanKeeps(data, ByteCursor(p, false), op, ByteCursor(p + |EncodeOp(op)|, false));
  }

  /**
   * The data at p holds the encoded opcodes one after another and then an
   * End header; `EncodedEnd` is the position just past that header.
   */
  predicate EncodedAt(data: seq<u8>, p: nat, ops: seq<Op>)
    decreases |ops|
  {
    if |ops| == 0 then p + OpHeaderSize <= |data| && data[p..p + OpHeaderSize] == EncodeHeader(0, Tag(End), 0)
    else
      Encodable(ops[0]) && p + |EncodeOp(ops[0])| <= |data| && data[p..p + |EncodeOp(ops[0])|] == EncodeOp(ops[0]) &&
      EncodedAt(data, p + OpSize(ops[0]), ops[1..])
  }

  function EncodedEnd(p: nat, ops: seq<Op>): nat
    decreases |ops|
  {
    if |ops| == 0 then p + OpHeaderSize else EncodedEnd(p + OpSize(ops[0]), ops[1..])
  }

  /** An encoded script in the data is its opcodes encoded one after another. */
  lemma {:induction false} ScriptEncodedAt(data: seq<u8>, p: nat, ops: seq<Op>)
    requires forall m :: 0 <= m < |ops| ==> Encodable(ops[m])
    requires p + |EncodeScript(ops)| <= |data| && data[p..p + |EncodeScript(ops)|] == EncodeScript(ops)
    ensures EncodedAt(data, p, ops)
    ensures EncodedEnd(p, ops) == p + |EncodeScript(ops)|
    decreases |ops|
  {
    if |ops| > 0 {
      var e := EncodeOp(ops[0]);
      var rest := EncodeScript(ops[1..]);
      assert EncodeScript(ops) == e + rest;
      SliceSplit(data, p, e, rest);
      ScriptEncodedAt(data, p + |e|, ops[1..]);
    }
  }

  /** The first opcode of encoded opcodes is kept, and the rest are encoded just after it. */
  lemma ScanEncodedHead(data: seq<u8>, p: nat, ops: seq<Op>)
    requires |ops| > 0 && EncodedAt(data, p, ops)
    ensures EncodedAt(data, p + OpSize(ops[0]), ops[1..])
    ensures EncodedEnd(p, ops) == EncodedEnd(p + OpSize(ops[0]), ops[1..])
    ensures var rest := ScanOps(data, ByteCursor(p + OpSize(ops[0]), false));
      ScanOps(data, ByteCursor(p, false)) == Ops(rest.cursor, [ops[0]] + rest.ops)
  {
    ScanEncodedOp(data, p, ops[0]);
  }

  /** The scan reads encoded opcodes back, stopping just past the End header. */
  lemma {:induction false} ScanEncodedAt(data: seq<u8>, p: nat, ops: seq<Op>)
    requires EncodedAt(data, p, ops)
    ensures ScanOps(data, ByteCursor(p, false)) == Ops(ByteCursor(EncodedEnd(p, ops), false), ops)
    decreases |ops|
  {
    if |ops| == 0 {
      ScanEncodedEnd(data, p);
    } else {
      ScanEncodedHead(data, p, ops);
      ScanEncodedAt(data, p + OpSize(ops[0]), ops[1..]);
      assert [ops[0]] + ops[1..] == ops;
    }
  }

  /**
   * The scan reads an encoded script back: the opcodes, in order, with the
   * cursor just past the End header.
   */
  lemma ScanEncoded(data: seq<u8>, p: nat, ops: seq<Op>)
    requires forall m :: 0 <= m < |ops| ==> Encodable(ops[m])
    requires p + |EncodeScript(ops)| <= |data| && data[p..p + |EncodeScript(ops)|] == EncodeScript(ops)
    ensures ScanOps(data, ByteCursor(p, false)) == Ops(ByteCursor(p + |EncodeScript(ops)|, false), ops)
  {
    ScriptEncodedAt(data, p, ops);
    ScanEncodedAt(data, p, ops);
  }

  /** The scripts after the opcode scans of the first k of them. */
  datatype Scanned = Scanned(cursor: ByteCursor, scripts: seq<Script>)

  /**
   * The opcode scans of the first k scripts, each from its table offset,
   * appending to the script's opcodes. The script indices stay as read.
   */
  function ScanScripts(data: seq<u8>, c: ByteCursor, offsets: seq<u32>, scripts: seq<Script>, k: nat): (r: Scanned)
    requires k <= |offsets| == |scripts|
    ensures |r.scripts| == |scripts|
    ensures forall j :: 0 <= j < |scripts| ==> r.scripts[j].idx == scripts[j].idx
    ensures forall j :: k <= j < |scripts| ==> r.scripts[j] == scripts[j]
    ensures (forall j :: 0 <= j < |scripts| ==> EndFree(scripts[j].ops)) ==>
      forall j :: 0 <= j < |scripts| ==> EndFree(r.scripts[j].ops)
    ensures c.overrun ==> r.cursor.overrun
    decreases k, 1
  {
    if k == 0 then Scanned(c, scripts) else ScanScriptsThen(data, c, offsets, scripts, k)
  }

  function ScanScriptsThen(data: seq<u8>, c: ByteCursor, offsets: seq<u32>, scripts: seq<Script>, k: nat): (r: Scanned)
    requires 0 < k <= |offsets| == |scripts|
    ensures |r.scripts| == |scripts|
    ensures forall j :: 0 <= j < |scripts| ==> r.scripts[j].idx == scripts[j].idx
    ensures forall j :: k <= j < |scripts| ==> r.scripts[j] == scripts[j]
    ensures (forall j :: 0 <= j < |scripts| ==> EndFree(scripts[j].ops)) ==>
      forall j :: 0 <= j < |scripts| ==> EndFree(r.scripts[j].ops)
    ensures c.overrun ==> r.cursor.overrun
    decreases k, 0
  {
    var before := ScanScripts(data, c, offsets, scripts, k - 1);
    var scan := ScanOps(data, ByteCursor(offsets[k - 1], before.cursor.overrun));
    var s := before.scripts[k - 1];
    Scanned(scan.cursor, before.scripts[k - 1 := Script(s.idx, s.ops + scan.ops)])
  }

  /** Why a file is refused. */
  datatype Failure = BadVersion | NoTexturePath | Overrun

  datatype AnmOutcome = Aborted(why: Failure) | Parsed(anim: Animation)

  /**
   * `read_anm(file, anim)`: a version other than 0 and a zero texture
   * name offset stop the parser at their assertions; an overrun anywhere
   * fails the final check.
   */
  function AnmSpec(data: seq<u8>): (r: AnmOutcome)
  {
    var header := ReadWords(data, ByteCursor(0, false), HeaderWords);
    if header.values[VersionWord] != 0 then Aborted(BadVersion)
    else AnmTables(data, header.cursor, header.values)
  }

  /** After the header: the sprite offset table and the script table. */
  function AnmTables(data: seq<u8>, c: ByteCursor, h: seq<u32>): (r: AnmOutcome)
    requires |h| == HeaderWords
  {
    var spriteTable := ReadWords(data, c, h[NumSpritesWord]);
    var scriptTable := ReadPairs(data, spriteTable.cursor, h[NumScriptsWord]);
    if h[TexturePathWord] == 0 then Aborted(NoTexturePath)
    else AnmContents(data, scriptTable.cursor, h, spriteTable.values, scriptTable.scripts, scriptTable.offsets)
  }

  /**
   * After the tables: the texture names, the sprite records and the
   * opcode scans. The alpha name is read only when its offset is not 0;
   * otherwise its buffer stays zeroed.
   */
  function AnmContents(data: seq<u8>, c: ByteCursor, h: seq<u32>, spriteOffsets: seq<u32>,
                       scripts: seq<Script>, scriptOffsets: seq<u32>): (r: AnmOutcome)
    requires |h| == HeaderWords && |scripts| == |scriptOffsets|
  {
    var path := ReadCharsSpec(data, ByteCursor(h[TexturePathWord], c.overrun), MaxAnmName);
    var alpha :=
      if h[AlphaPathWord] != 0 then ReadCharsSpec(data, ByteCursor(h[AlphaPathWord], path.cursor.overrun), MaxAnmName)
      else Chars(path.cursor, []);
    var records := ReadSprites(data, alpha.cursor, spriteOffsets, |spriteOffsets|);
    var scanned := ScanScripts(data, records.cursor, scriptOffsets, scripts, |scriptOffsets|);
    if scanned.cursor.overrun then Aborted(Overrun)
    else Parsed(Animation(h[VersionWord], NameBuffer(path.values), NameBuffer(alpha.values), records.sprites, scanned.scripts))
  }

  /**
   * A parsed animation has version 0, a texture name offset, one sprite
   * per sprite offset and one script per table pair, in table order with
   * its index as read, and no End opcode in any script.
   */
  lemma ParsedShape(data: seq<u8>)
    ensures var header := ReadWords(data, ByteCursor(0, false), HeaderWords);
      var h := header.values;
      var table := ReadPairs(data, ReadWords(data, header.cursor, h[NumSpritesWord]).cursor, h[NumScriptsWord]);
      AnmSpec(data).Parsed? ==>
        var a := AnmSpec(data).anim;
        a.version == 0 && h[TexturePathWord] != 0 &&
        |a.texturePath| == |a.textureAlphaPath| == MaxAnmName &&
        |a.sprites| == h[NumSpritesWord] && |a.scripts| == h[NumScriptsWord] &&
        (forall j :: 0 <= j < |a.scripts| ==> a.scripts[j].idx == table.scripts[j].idx) &&
        (forall j :: 0 <= j < |a.scripts| ==> EndFree(a.scripts[j].ops))
  {
    var header := ReadWords(data, ByteCursor(0, false), HeaderWords);
    var h := header.values;
    if h[VersionWord] == 0 && h[TexturePathWord] != 0 {
      var spriteTable := ReadWords(data, header.cursor, h[NumSpritesWord]);
      var table := ReadPairs(data, spriteTable.cursor, h[NumScriptsWord]);
      assert forall j :: 0 <= j < |table.scripts| ==> EndFree(table.scripts[j].ops);
    }
  }

  /**
   * The texture names of a parsed animation are the 32 bytes at their
   * offsets, with no stop at a NUL, and the cursor before them had not
   * overrun. An alpha name offset of 0 leaves that buffer zeroed.
   */
  lemma ParsedNames(data: seq<u8>, c: ByteCursor, h: seq<u32>, spriteOffsets: seq<u32>,
                    scripts: seq<Script>, scriptOffsets: seq<u32>)
    requires |h| == HeaderWords && |scripts| == |scriptOffsets|
    ensures var r := AnmContents(data, c, h, spriteOffsets, scripts, scriptOffsets);
      var path := h[TexturePathWord];
      var alpha := h[AlphaPathWord];
      r.Parsed? ==>
        !c.overrun && path + MaxAnmName <= |data| &&
        r.anim.texturePath == data[path..path + MaxAnmName] &&
        (alpha != 0 ==> alpha + MaxAnmName <= |data| && r.anim.textureAlphaPath == data[alpha..alpha + MaxAnmName]) &&
        (alpha == 0 ==> r.anim.textureAlphaPath == Zeros(MaxAnmName))
  {
    var path := ReadCharsSpec(data, ByteCursor(h[TexturePathWord], c.overrun), MaxAnmName);
    ReadCharsClosed(data, ByteCursor(h[TexturePathWord], c.overrun), MaxAnmName);
    var alpha :=
      if h[AlphaPathWord] != 0 then ReadCharsSpec(data, ByteCursor(h[AlphaPathWord], path.cursor.overrun), MaxAnmName)
      else Chars(path.cursor, []);
    if h[AlphaPathWord] != 0 {
      ReadCharsClosed(data, ByteCursor(h[AlphaPathWord], path.cursor.overrun), MaxAnmName);
    }
    var records := ReadSprites(data, alpha.cursor, spriteOffsets, |spriteOffsets|);
    var scanned := ScanScripts(data, records.cursor, scriptOffsets, scripts, |scriptOffsets|);
    if !scanned.cursor.overrun {
      assert !records.cursor.overrun;
      assert !alpha.cursor.overrun;
      assert !path.cursor.overrun;
    }
  }

  /** Every sprite record of a parsed animation lies in the file. */
  lemma ParsedSprites(data: seq<u8>, c: ByteCursor, h: seq<u32>, spriteOffsets: seq<u32>,
                      scripts: seq<Script>, scriptOffsets: seq<u32>)
    requires |h| == HeaderWords && |scripts| == |scriptOffsets|
    ensures AnmContents(data, c, h, spriteOffsets, scripts, scriptOffsets).Parsed? ==>
      forall j :: 0 <= j < |spriteOffsets| ==> spriteOffsets[j] + SpriteRecordSize <= |data|
  {
    var path := ReadCharsSpec(data, ByteCursor(h[TexturePathWord], c.overrun), MaxAnmName);
    var alpha :=
      if h[AlphaPathWord] != 0 then ReadCharsSpec(data, ByteCursor(h[AlphaPathWord], path.cursor.overrun), MaxAnmName)
      else Chars(path.cursor, []);
    var records := ReadSprites(data, alpha.cursor, spriteOffsets, |spriteOffsets|);
    var scanned := ScanScripts(data, records.cursor, scriptOffsets, scripts, |scriptOffsets|);
    if !scanned.cursor.overrun {
      assert !records.cursor.overrun;
    }
  }

  /**
   * Everything a parsed animation was read from lies in the file: the
   * header and both tables, each sprite record and both texture names.
   * So a file shorter than its 64-byte header is always refused.
   */
  lemma ParsedInBounds(data: seq<u8>)
    ensures var header := ReadWords(data, ByteCursor(0, false), HeaderWords);
      var h := header.values;
      var spriteOffsets := ReadWords(data, header.cursor, h[NumSpritesWord]).values;
      AnmSpec(data).Parsed? ==>
        4 * HeaderWords + 4 * (h[NumSpritesWord] as int) + 8 * (h[NumScriptsWord] as int) <= |data| &&
        h[TexturePathWord] + MaxAnmName <= |data| &&
        (h[AlphaPathWord] != 0 ==> h[AlphaPathWord] + MaxAnmName <= |data|) &&
        forall j :: 0 <= j < |spriteOffsets| ==> spriteOffsets[j] + SpriteRecordSize <= |data|
  {
    var header := ReadWords(data, ByteCursor(0, false), HeaderWords);
    var h := header.values;
    if h[VersionWord] == 0 && h[TexturePathWord] != 0 {
      var spriteTable := ReadWords(data, header.cursor, h[NumSpritesWord]);
      var table := ReadPairs(data, spriteTable.cursor, h[NumScriptsWord]);
      assert AnmSpec(data) == AnmContents(data, table.cursor, h, spriteTable.values, table.scripts, table.offsets);
      ParsedNames(data, table.cursor, h, spriteTable.values, table.scripts, table.offsets);
      ParsedSprites(data, table.cursor, h, spriteTable.values, table.scripts, table.offsets);
    }
  }

  /** `read<u32>()` on the stream. */
  method ReadU32(bs: ByteStream) returns (v: u32)
    modifies bs
    ensures Word(bs.State(), v) == ReadWord(bs.bytes, old(bs.State()))
  {
    var n := bs.ReadScalar(4);
    Pow2Values();
    v := n;
  }

  /** The loop that fills a word table: the header, `sprite_offsets`. */
  method ReadWordTable(bs: ByteStream, table: array<u32>)
    modifies bs, table
    ensures Words(bs.State(), table[..]) == ReadWords(bs.bytes, old(bs.State()), table.Length)
  {
    ghost var start := bs.State();
    var i := 0;
    while i < table.Length
      invariant i <= table.Length
      invariant ReadWords(bs.bytes, start, i) == Words(bs.State(), table[..i])
    {
      ghost var before := table[..i];
      var v := ReadU32(bs);
      table[i] := v;
      assert ReadWords(bs.bytes, start, i + 1) == ReadWordsThen(bs.bytes, start, i + 1);
      assert table[..i + 1] == before + [v];
      i := i + 1;
    }
    assert table[..i] == table[..];
  }

  /**
   * The loop over the script table: each index is appended as a script
   * with no opcodes, each offset stored in `script_offsets`.
   */
  method ReadScriptTable(bs: ByteStream, offsets: array<u32>) returns (scripts: seq<Script>)
    modifies bs, offsets
    ensures Pairs(bs.State(), scripts, offsets[..]) == ReadPairs(bs.bytes, old(bs.State()), offsets.Length)
  {
    ghost var start := bs.State();
    scripts := [];
    var i := 0;
    while i < offsets.Length
      invariant i <= offsets.Length
      invariant ReadPairs(bs.bytes, start, i) == Pairs(bs.State(), scripts, offsets[..i])
    {
      ghost var before := offsets[..i];
      var idx := ReadU32(bs);
      scripts := scripts + [Script(idx, [])];
      var off := ReadU32(bs);
      offsets[i] := off;
      assert ReadPairs(bs.bytes, start, i + 1) == ReadPairsThen(bs.bytes, start, i + 1);
      assert offsets[..i + 1] == before + [off];
      i := i + 1;
    }
    assert offsets[..i] == offsets[..];
  }

  /** One texture name: seek, then `read` into a zeroed 32-byte buffer. */
  method ReadName(bs: ByteStream, offset: u32) returns (name: seq<u8>)
    modifies bs
    ensures var r := ReadCharsSpec(bs.bytes, ByteCursor(offset, old(bs.overrun)), MaxAnmName);
      bs.State() == r.cursor && name == NameBuffer(r.values)
  {
    bs.Seek(offset);
    var buffer := new u8[MaxAnmName](_ => 0);
    ghost var zeros := buffer[..];
    assert zeros == Zeros(MaxAnmName);
    bs.ReadChars(buffer);
    name := buffer[..];
  }

  /** One sprite record: seek to its offset, then five words. */
  method ReadSpriteRecord(bs: ByteStream, offset: u32) returns (sprite: Sprite)
    modifies bs
    ensures SpriteRead(bs.State(), sprite) == ReadSprite(bs.bytes, old(bs.State()), offset)
  {
    bs.Seek(offset);
    var idx := ReadU32(bs);
    var x := ReadU32(bs);
    var y := ReadU32(bs);
    var w := ReadU32(bs);
    var h := ReadU32(bs);
    sprite := Sprite(idx, x, y, w, h);
  }

  /** The loop over `sprite_offsets`, appending records in table order. */
  method ReadSpriteRecords(bs: ByteStream, offsets: array<u32>) returns (sprites: seq<Sprite>)
    modifies bs
    ensures SpriteList(bs.State(), sprites) == ReadSprites(bs.bytes, old(bs.State()), offsets[..], offsets.Length)
  {
    ghost var start := bs.State();
    sprites := [];
    var i := 0;
    while i < offsets.Length
      invariant i <= offsets.Length
      invariant ReadSprites(bs.bytes, start, offsets[..], i) == SpriteList(bs.State(), sprites)
    {
      var sprite := ReadSpriteRecord(bs, offsets[i]);
      sprites := sprites + [sprite];
      assert ReadSprites(bs.bytes, start, offsets[..], i + 1) == ReadSpritesThen(bs.bytes, start, offsets[..], i + 1);
      i := i + 1;
    }
  }

  /**
   * One opcode and its switch: End clears `reading`, SetSprite reads its
   * payload, any other tag seeks past its operands.
   */
  method ReadNextOp(bs: ByteStream) returns (op: Op, reading: bool)
    modifies bs
    ensures OpRead(bs.State(), op) == ReadOp(bs.bytes, old(bs.State()))
    ensures reading <==> op.kind != End
  {
    var time := bs.ReadScalar(2);
    var tag := bs.ReadScalar(1);
    var size := bs.ReadScalar(1);
    Pow2Values();
    op := Op(time, KindOf(tag), size, 0);
    var next := bs.Tell();
    next := next + size;
    reading := true;
    if op.kind == End {
      reading := false;
    } else if op.kind == SetSprite {
      var payload := ReadU32(bs);
      op := op.(setSprite := payload);
    } else {
      bs.Seek(next);
    }
  }

  /** One turn of the opcode loop, stated as a turn of the scan. */
  method ScanStep(bs: ByteStream) returns (op: Op, reading: bool)
    modifies bs
    ensures reading <==> op.kind != End
    ensures !reading ==> ScanOps(bs.bytes, old(bs.State())) == Ops(bs.State(), [])
    ensures reading ==>
      ScanOps(bs.bytes, old(bs.State())) == Ops(ScanOps(bs.bytes, bs.State()).cursor, [op] + ScanOps(bs.bytes, bs.State()).ops)
    ensures Remaining(bs.bytes, bs.State()) + (if reading then 1 else 0) <= Remaining(bs.bytes, old(bs.State()))
  {
    ghost var c := bs.State();
    ScanOpsStep(bs.bytes, c);
    op, reading := ReadNextOp(bs);
  }

  /**
   * The `while (reading)` loop of one script: seek to its offset, then
   * append every opcode before End to the script's opcodes.
   */
  method ScanScript(bs: ByteStream, offset: u32, ops0: seq<Op>) returns (ops: seq<Op>)
    modifies bs
    ensures var scan := ScanOps(bs.bytes, ByteCursor(offset, old(bs.overrun)));
      bs.State() == scan.cursor && ops == ops0 + scan.ops
  {
    bs.Seek(offset);
    ghost var first := bs.State();
    ghost var added: seq<Op> := [];
    ops := ops0;
    var reading := true;
    while reading
      invariant ops == ops0 + added
      invariant reading ==>
        ScanOps(bs.bytes, first) == Ops(ScanOps(bs.bytes, bs.State()).cursor, added + ScanOps(bs.bytes, bs.State()).ops)
      invariant !reading ==> ScanOps(bs.bytes, first) == Ops(bs.State(), added)
      decreases Remaining(bs.bytes, bs.State()) + (if reading then 1 else 0)
    {
      var op;
      op, reading := ScanStep(bs);
      if reading {
        assert added + ([op] + ScanOps(bs.bytes, bs.State()).ops) == (added + [op]) + ScanOps(bs.bytes, bs.State()).ops;
        ops := ops + [op];
        added := added + [op];
      }
    }
  }

  /** The loop over the scripts: scan each from its offset in table order. */
  method ScanAllScripts(bs: ByteStream, offsets: array<u32>, scripts: seq<Script>) returns (scanned: seq<Script>)
    requires offsets.Length == |scripts|
    modifies bs
    ensures Scanned(bs.State(), scanned) == ScanScripts(bs.bytes, old(bs.State()), offsets[..], scripts, offsets.Length)
  {
    ghost var start := bs.State();
    scanned := scripts;
    var i := 0;
    while i < offsets.Length
      invariant i <= offsets.Length
      invariant ScanScripts(bs.bytes, start, offsets[..], scripts, i) == Scanned(bs.State(), scanned)
    {
      var ops := ScanScript(bs, offsets[i], scanned[i].ops);
      scanned := scanned[i := Script(scanned[i].idx, ops)];
      assert ScanScripts(bs.bytes, start, offsets[..], scripts, i + 1) ==
        ScanScriptsThen(bs.bytes, start, offsets[..], scripts, i + 1);
      i := i + 1;
    }
  }

  /** `read_anm(file, anim)`, the animation returned inside the outcome. */
  method ReadAnm(file: seq<u8>) returns (outcome: AnmOutcome)
    ensures outcome == AnmSpec(file)
  {
    var bs := new ByteStream(file);
    var header := new u32[HeaderWords];
    ReadWordTable(bs, header);
    if header[VersionWord] != 0 {
      return Aborted(BadVersion);
    }
    outcome := ReadAnmTables(bs, header[..]);
  }

  /** The offset tables and the texture name assertion. */
  method ReadAnmTables(bs: ByteStream, header: seq<u32>) returns (outcome: AnmOutcome)
    requires |header| == HeaderWords
    modifies bs
    ensures outcome == AnmTables(bs.bytes, old(bs.State()), header)
  {
    var spriteOffsets := new u32[header[NumSpritesWord]];
    ReadWordTable(bs, spriteOffsets);
    var scriptOffsets := new u32[header[NumScriptsWord]];
    var scripts := ReadScriptTable(bs, scriptOffsets);
    if header[TexturePathWord] == 0 {
      return Aborted(NoTexturePath);
    }
    outcome := ReadAnmContents(bs, header, spriteOffsets, scripts, scriptOffsets);
  }

  /** The names, the sprite records, the opcode scans and the final overrun check. */
  method ReadAnmContents(bs: ByteStream, header: seq<u32>, spriteOffsets: array<u32>,
                         scripts: seq<Script>, scriptOffsets: array<u32>) returns (outcome: AnmOutcome)
    requires |header| == HeaderWords && |scripts| == scriptOffsets.Length
    modifies bs
    ensures outcome == AnmContents(bs.bytes, old(bs.State()), header, spriteOffsets[..], scripts, scriptOffsets[..])
  {
    var texturePath := ReadName(bs, header[TexturePathWord]);
    var textureAlphaPath := NameBuffer([]);
    if header[AlphaPathWord] != 0 {
      textureAlphaPath := ReadName(bs, header[AlphaPathWord]);
    }
    var sprites := ReadSpriteRecords(bs, spriteOffsets);
    var scanned := ScanAllScripts(bs, scriptOffsets, scripts);
    if bs.overrun {
      return Aborted(Overrun);
    }
    outcome := Parsed(Animation(header[VersionWord], texturePath, textureAlphaPath, sprites, scanned));
  }
}
