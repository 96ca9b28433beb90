# moth06 asset codec, modelled in Dafny

This project models the asset-decoding core of moth06, a client for a legacy 2D shooting game. The model covers:

- **The bit cursor (`BitStream`).** It reads a byte buffer most significant bit first. It keeps a sticky overrun flag and answers 0 to any read that would run off the end. On top of it sit:
  - the archive's packed integers (`read_int`: a 2-bit count `e`, then `8 + 8e` value bits);
  - NUL-terminated names (`read_c_string`, and the older `ReadUTF8`).
- **The byte cursor (`ByteStream`).** It reads little-endian scalars and character buffers, with the same sticky overrun flag.
- **The PBG3 archive index parser** (`read_pbg_entries`). It checks the magic "PBG3", reads the entry count and table offset, and then reads each entry: five packed integers and a bounded name. There are three variants:
  - a fresh stream;
  - a stream passed by value (`PBG::ReadEntryList`);
  - a stream shared by reference (`PBG::ReadEntries`), which uses the one-argument `Seek` and `ReadUTF8`.
- **The LZSS entry decompressor** (`read_pbg_entry_data`, `PBG::ReadEntryData`, `PBG::ReadEntryContents`). It has an 8192-byte ring dictionary with its head starting at 1. A flag bit chooses between an 8-bit literal and a back-reference made of a 13-bit offset and a 4-bit length plus 3.
- **The ANM animation parser** (`read_anm`). It reads, in order:
  - the 16-word header;
  - the sprite offset table and the script (index, offset) pairs;
  - the 32-byte texture names;
  - the 20-byte sprite records;
  - each script's opcodes, up to the End tag.
- **The support code:**
  - the growable `Array`, with its growth rules from each snapshot;
  - the FNV-keyed `HashMap`;
  - the path helpers `basename`, `extension` and `StartsWith`;
  - `next_power_of_2` and `rotate_left`;
  - the 32-bit FNV-1a hash;
  - the MD5 input padding (sections 3.1 and 3.2 of RFC 1321);
  - the digest rendering.

**Structure.** Each stateful entity of the source is a Dafny `class` whose methods update its fields: `BitStreams.BitStream`, `ByteStreams.ByteStream`, `Containers.Array`, `Containers.HashMap`. Beside each class is a pure specification function, such as `ReadBitsSpec`, `ReadIntSpec`, `DecodeFrom`, `IndexSpec`, `ScanOps` or `AnmSpec`. The methods are proved to produce exactly what that function describes. The properties the source promises are then proved about the function as lemmas: closed forms, bounds, sticky overrun, round trips against an encoder, and the ring-dictionary invariant.

**One model for several snapshots.** The repository carries several near-identical snapshots of the same code.
- Where snapshots differ, the model keeps one body and a switch:
  - `legacy` selects the older `Seek`/`ReadUTF8` pair;
  - `Growth` selects the `reserve` rule;
  - `windows` selects the path delimiter.
- Where snapshots agree, a row below cites the canonical copy: `moth06_common/moth06_common.hh` and `moth06_game/moth06_game_files.cc`.

**Integers.** `u8`, `u16` and `u32` are subset types of `int`. The fold in the FNV hash uses `bv32`, so its multiplication wraps modulo 2^32 as the source's does. `next_power_of_2` is computed on 64-bit words.

**Points of the format that the model takes from the code:**
- **Opcode advance.** An ANM opcode header is four bytes: a u16 time, a u8 type and a u8 size (moth06_game/moth06_game_files.cc:157-161). The next opcode starts at the position after that header plus `size` (line 162), so a skipped opcode advances `4 + size` bytes. A SetSprite opcode reads one u32 and does not seek (line 168), so it advances 8 bytes whatever its size field says.
- **Declared output size.** The LZSS loop checks the declared size only before each token (moth06_game/moth06_game_files.cc:71). The copy loop of a back-reference has no such check (lines 82-87), so the output can run past the declared size (see Findings).
- **Bit-read width.** `read_bits` takes any width up to the width of its result type (moth06_common/moth06_common.hh:328). Every call site reads at most 32 bits; the one 64-bit read, `read_bits<usize>(2)` in `read_int` (line 349), reads 2 bits. The model requires a width of at most 32 (see Left out).

## Model

| member | source | states |
|---|---|---|
| Primitives.NextPowerOf2Grows | moth06_common/moth06_common.hh:57-60 | `(v << 1) & ~v` on 64-bit words is strictly above v and still fits 64 bits for every 0 < v < 2^63; it maps 0 to 0 |
| Primitives.NextPowerOf2Three | tests/common.cc:30 | next_power_of_2(3) == 4 |
| Primitives.RotateLeft32 | moth06_common/moth06_common.hh:52-55 | `(v << s) \| (v >> (32 - s))` on a 32-bit word is the left rotation of v by s, for 0 < s < 32 |
| Primitives.LittleEndianRoundTrip | moth06_common/moth06_common.hh:386 | the host-order (little-endian) value of the k-byte encoding of any v < 2^(8k) is v |
| Primitives.ToLittleEndianRoundTrip | moth06_common/moth06_common.hh:386 | re-encoding the value of any byte string gives back the same bytes |
| Primitives.Zeros | moth06_common/moth06_common.hh:84 | the calloc fill: n bytes, all 0 |
| BitStreams.BitOf | moth06_common/moth06_common.hh:335 | `(b >> (7 - k)) & 1` is a single bit |
| BitStreams.BitAt | moth06_common/moth06_common.hh:335 | bit p of the stream, MSB first, is a single bit |
| BitStreams.BitAtCoords | moth06_common/moth06_common.hh:335 | bit 8b + k of the stream is bit k of byte b counted from the most significant bit |
| BitStreams.BitsValueBound | moth06_common/moth06_common.hh:333-335 | the value of n stream bits is below 2^n |
| BitStreams.ReadStepsFits | moth06_common/moth06_common.hh:333-343 | the bit loop over bits that lie inside the data does not overrun and ends n positions on |
| BitStreams.ReadStepsOverruns | moth06_common/moth06_common.hh:336-340 | the bit loop over bits that leave the data stops at the end with overrun set and result 0 |
| BitStreams.ReadStepsValue | moth06_common/moth06_common.hh:333-343 | the loop's accumulator is the MSB-first value of the bits read so far |
| BitStreams.ReadBitsSpec | moth06_common/moth06_common.hh:327-344 | a read that overruns yields 0 and keeps the bit offset below 8 |
| BitStreams.ReadBitsClosed | moth06_common/moth06_common.hh:327-344 | read_bits(n) overruns iff the stream had overrun, the byte offset is past the end, or p + n > 8·length; otherwise it moves to p + n and yields bits [p, p + n) MSB first; an overrun stream yields 0 in place (sticky); the value is below 2^n |
| BitStreams.ReadBitsBound | moth06_common/moth06_common.hh:327-344 | read_bits(n) yields a value below 2^n |
| BitStreams.ReadByteBound | moth06_common/moth06_common.hh:327-344 | an 8-bit read yields a byte |
| BitStreams.ReadIntPrefix | moth06_common/moth06_common.hh:349 | the 2-bit prefix e is below 4; it overruns iff fewer than 2 bits remain (or already overrun), else moves 2 bits |
| BitStreams.ReadIntOverrun | moth06_common/moth06_common.hh:346-351 | read_int overruns iff the 10 + 8e bits it consumes do not lie inside the data (or the stream had overrun) |
| BitStreams.ReadIntValue | moth06_common/moth06_common.hh:346-351 | a read_int that does not overrun consumes exactly 10, 18, 26 or 34 bits and yields the (1 + e)·8 bits after the prefix |
| BitStreams.ReadIntBound | moth06_common/moth06_common.hh:346-351 | the value of a packed integer with prefix e is below 2^(8(1 + e)) |
| BitStreams.ReadCStringSpec | moth06_common/moth06_common.hh:353-361 | at most len places are filled, counting the terminator |
| BitStreams.NameLength | moth06_common/moth06_common.hh:355-360 | the name loop stores at most len characters |
| BitStreams.NameStep | moth06_common/moth06_common.hh:356-358 | one turn of the name loop: a 0 byte ends the name, any other byte is stored and the loop continues with one place fewer |
| BitStreams.NameShape | moth06_common/moth06_common.hh:355-360 | stored characters are non-zero; a name without terminator filled every place |
| BitStreams.ReadCStringShape | moth06_common/moth06_common.hh:353-361 | read_c_string stores only non-zero characters before the terminator; the count is len when no NUL was met, and below len when one was |
| BitStreams.ReadUtf8Spec | old/moth06.hh:341-349 | ReadUTF8 fills at most len places |
| BitStreams.Utf8Length | old/moth06.hh:343-347 | the ReadUTF8 loop stores at most len characters |
| BitStreams.Utf8Step | old/moth06.hh:343-346 | one turn of ReadUTF8 on a stream that has not overrun: a 0 byte ends the name, any other byte is stored and leaves the stream not overrun |
| BitStreams.Utf8AgreesFrom | old/moth06.hh:341-349 | on a stream that has not overrun, the ReadUTF8 loop reads exactly what read_c_string reads |
| BitStreams.Utf8Agrees | old/moth06.hh:341-349 | ReadUTF8 writes nothing and returns 0 on an overrun stream, and otherwise reads what read_c_string reads |
| BitStreams.BitStream.constructor | moth06_common/moth06_common.hh:318 | a new stream sits at byte 0, bit 0, not overrun |
| BitStreams.BitStream.Copy | moth06_core_files.cc:8 | passing the stream by value copies its bytes and its whole cursor state |
| BitStreams.BitStream.Seek | moth06_common/moth06_common.hh:322-325 | seek sets byte and bit offsets and never clears the overrun flag |
| BitStreams.BitStream.SeekByte | old/moth06.hh:310-313 | the one-argument Seek sets the byte offset, resets the bit offset to 0 and keeps the overrun flag |
| BitStreams.BitStream.ReadBits | moth06_common/moth06_common.hh:327-344 | the bit loop leaves the cursor and result that ReadBitsSpec describes |
| BitStreams.BitStream.ReadInt | moth06_common/moth06_common.hh:346-351 | the cursor and result are those of ReadIntSpec |
| BitStreams.BitStream.ReadNameChar | moth06_common/moth06_common.hh:356-358 | one character read stores the byte read at str[n] and advances the name as NameFrom does |
| BitStreams.BitStream.ReadUtf8Char | old/moth06.hh:344-346 | one ReadUTF8 character stores the byte read and advances as Utf8From does |
| BitStreams.BitStream.ReadCString | moth06_common/moth06_common.hh:353-361 | the characters stored, the count returned and the cursor are those of ReadCStringSpec; places past them are untouched |
| BitStreams.BitStream.ReadUtf8 | old/moth06.hh:341-349 | the characters stored, the count returned and the cursor are those of ReadUtf8Spec; places past them are untouched |
| BitStreams.ReadBitsExample | tests/common.cc:116-129 | from byte 0b01011101, widths 1,1,1,1,2,1,1 read 0,1,0,1,3,0,1 without overrun, and one further bit overruns |
| ByteStreams.ReadScalarBound | moth06_common/moth06_common.hh:379-389 | read<T> yields a value that fits in sizeof(T) bytes |
| ByteStreams.ReadScalarEncodes | moth06_common/moth06_common.hh:379-389 | read<T> succeeds iff the stream had not overrun and pos + sizeof(T) ≤ length; it then yields the little-endian value of those bytes and advances exactly sizeof(T); otherwise it sets overrun, yields 0 and stays put |
| ByteStreams.ReadScalarRoundTrip | moth06_common/moth06_common.hh:379-389 | bytes holding the little-endian encoding of v are read back as v |
| ByteStreams.ReadCharsFrom | moth06_common/moth06_common.hh:393-398 | the element loop fills at most the remaining count |
| ByteStreams.ReadCharsSpec | moth06_common/moth06_common.hh:391-399 | read(Span) fills at most count elements |
| ByteStreams.ReadCharsFromClosed | moth06_common/moth06_common.hh:393-398 | from a stream that has not overrun, the loop stores the next count bytes and advances count when they all lie in the data; otherwise it stores the bytes left and then one 0, and ends overrun at the end of the data |
| ByteStreams.ReadCharsClosed | moth06_common/moth06_common.hh:391-399 | read(Span) of count > 0 elements on an overrun stream or from past the end stores one 0 and stays put; otherwise it stores the next count bytes and advances count, or stores the bytes left followed by one 0 and stops at the first element that overran |
| ByteStreams.ByteStream.constructor | moth06_common/moth06_common.hh:372 | a new stream sits at offset 0, not overrun |
| ByteStreams.ByteStream.Seek | moth06_common/moth06_common.hh:376 | seek sets the offset without a bounds check and keeps the overrun flag |
| ByteStreams.ByteStream.Tell | moth06_common/moth06_common.hh:377 | tell returns the offset |
| ByteStreams.ByteStream.ReadScalar | moth06_common/moth06_common.hh:379-389 | the value and new cursor are those of ReadScalarSpec, and the value fits in size bytes |
| ByteStreams.ByteStream.ReadChars | moth06_common/moth06_common.hh:391-399 | the elements written, in order, and the cursor are those of ReadCharsSpec; later elements are untouched |
| Strings.CLength | moth06_common/moth06_common.hh:141-143 | strlen is the index of the first NUL: every earlier character is non-zero |
| Strings.Text | moth06_common/moth06_common.hh:141-143 | the text of a C string holds no NUL |
| Strings.TextOf | moth06_common/moth06_common.hh:141-143 | text written before a terminator reads back as that text |
| Strings.LastIndexOf | moth06_common/moth06_common.hh:119-129 | the position found holds the character and no later position does; none is found iff the character is absent |
| Strings.BaseName | moth06_common/moth06_common.hh:117-135 | basename returns true iff the text holds a delimiter, and then overwrites exactly the last delimiter with NUL; otherwise the string is unchanged |
| Strings.BaseNameText | moth06_common/moth06_common.hh:130-133 | after basename found a delimiter, the string's text is the text before the last delimiter |
| Strings.ExtensionStart | moth06_common/moth06_common.hh:146-154 | the extension starts right after the last '.' that is followed by a character other than '.', or at 0 when there is none |
| Strings.ExtensionStep | moth06_common/moth06_common.hh:148-152 | one more character of the scan moves the start exactly when it follows a '.' and is not one |
| Strings.Extension | moth06_common/moth06_common.hh:146-154 | extension(str) returns the position ExtensionStart describes |
| Strings.ExtensionExample | src/old/tests/read_files.cc:117-118 | the extension of "face12a.png" is "png" |
| Strings.OldExtensionFrom | old/moth06.hh:124-132 | the old Extension finds the last '.' that is not the final character and returns the text after it, or nothing |
| Strings.OldExtension | old/moth06.hh:124-132 | the old Extension's loop returns what OldExtensionFrom describes |
| Strings.StrNEqualPrefix | old/moth06.hh:135 | strncmp over k ≤ strlen(b) characters reports equality iff a's text is at least k long and agrees with b on the first k characters |
| Strings.StartsWithPrefix | old/moth06.hh:134-136 | StartsWith holds iff the needle's text is a prefix of the haystack's text |
| Hashing.FnvFromConcat | moth06_common.cc:23-28 | the FNV loop is a left fold: hashing s + t continues from the hash of s |
| Hashing.FnvAppend | moth06_common.cc:23-28 | fnv(s + [b]) == ((fnv(s) xor b) · 0x01000193) mod 2^32 |
| Hashing.FnvEmpty | moth06_common.cc:21-23 | the hash of no bytes is the offset basis 0x811c9dc5 |
| Hashing.FnvKnownValue | moth06_common.cc:18-29 | the FNV-1a hash of "a" is 0xe40c292c |
| Hashing.FnvBytes | moth06_common.cc:18-29 | the accumulator loop computes Fnv |
| Hashing.FnvStringPrefix | moth06_common.cc:31-34 | fnv_string of a terminated string is fnv of the bytes before the terminator |
| Hashing.PaddedLengthSmallest | moth06_common.cc:74 | ((len + 8) / 64 + 1) · 64 is a multiple of 64 and the smallest one ≥ len + 9, so the assertion at line 93 holds |
| Hashing.Md5PadSpec | moth06_common.cc:74-84 | the padded buffer has the padded length |
| Hashing.Md5PadLayout | moth06_common.cc:77-84 | the padded buffer is the data, then 0x80 at index len, then zeros, then 8·len mod 2^64 as little-endian u64 in the last 8 bytes |
| Hashing.Md5Pad | moth06_common.cc:74-84 | for len > 0, the buffer filled in place is exactly Md5PadSpec(data) |
| Hashing.PaddedBytes | moth06_common.cc:77-84 | a buffer of the padded length that agrees with the layout at every index is the padded buffer |
| Hashing.DigitValue | moth06_common.cc:10 | a hex digit's value is below 16 |
| Hashing.DigitRoundTrip | moth06_common.cc:10 | a digit below 16 renders to a character that parses back to it |
| Hashing.ByteRoundTrip | moth06_common.cc:10 | the two hex digits of a byte parse back to the byte |
| Hashing.RenderLength | moth06_common.cc:9-16 | "%x" per byte yields between 16 and 32 digits for a digest; it yields exactly 2 per byte iff every byte is ≥ 0x10 |
| Hashing.RenderCollision | moth06_common.cc:9-16 | two different digests render to the same text (finding) |
| Hashing.RenderPadded | moth06_common.cc:9-16 | "%02x" per byte yields exactly two digits per byte |
| Hashing.ParseHex | moth06_common.cc:9-16 | parsing 2k digits yields k bytes |
| Hashing.RenderPaddedRoundTrip | moth06_common.cc:9-16 | the padded rendering parses back to the digest, so it is injective |
| Hashing.RenderAgrees | moth06_common.cc:9-16 | when every byte is ≥ 0x10, the unpadded rendering equals the padded one |
| Containers.Grow | moth06_common/moth06_common.hh:271-276 | the grown capacity is at least the request; Double gives at least twice the old capacity; Exponential gives more than a non-zero old capacity |
| Containers.Max | moth06_common/moth06_common.hh:273 | max is one of its arguments and at least both |
| Containers.Array.constructor | moth06_common/moth06_common.hh:253 | a new array is empty with capacity 0 and the chosen growth rule |
| Containers.Array.Reserve | moth06_common/moth06_common.hh:269-285 | reserve acts only when the request exceeds the capacity; it then sets the capacity Grow describes (at least the request) in a fresh buffer; it keeps the length and the elements |
| Containers.Array.ReserveMore | old/moth06.hh:245-247 | ReserveMore(k) leaves capacity at least the old capacity plus k and keeps the elements |
| Containers.Array.Resize | moth06_common/moth06_common.hh:287-300 | resize(n) sets length n and capacity at least n, and keeps the elements below min(old length, n) |
| Containers.Array.Append | moth06_common/moth06_common.hh:302-306 | append returns the old length and the contents become the old contents followed by val |
| Containers.Array.At | moth06_common/moth06_common.hh:211 | indexing requires idx < length and yields element idx |
| Containers.Array.Set | moth06_common/moth06_common.hh:211 | writing through an index below the length replaces exactly that element |
| Containers.Array.Copy | moth06_common/moth06_common.hh:260-267 | copy from another array yields an element-wise equal array; copy from itself empties the array (finding) |
| Containers.Array.CopyChecked | moth06_common/moth06_common.hh:260-267 | copy guarded against self-assignment always yields the source's contents |
| Containers.Array.Assign | old/moth06.hh:216-220 | the old operator= (Resize then block copy) yields the source's contents, itself included |
| Containers.AppendExample | src/test_hk.cc:54-61 | appending i % 10 for i < 100 leaves element i equal to i % 10 |
| Containers.Find | moth06_common.hh:363-370 | IndexOf returns the first slot holding the hash, and returns none iff no slot holds it |
| Containers.GetFinds | moth06_common.hh:346-356 | after Get the hash is at the slot returned; the map grew by at most one slot, holding {hash, T()}; earlier slots are unchanged; hashes stay distinct |
| Containers.GetIdempotent | moth06_common.hh:346-356 | a second Get of the same key changes nothing and returns the same slot |
| Containers.CollidingKeysShareSlot | moth06_common.hh:347-348 | two keys whose FNV hashes collide address the same slot |
| Containers.FindFirst | moth06_common.hh:364-366 | the first slot holding the hash is the one IndexOf returns |
| Containers.HashMap.constructor | moth06_common.hh:341 | a new map has no slots |
| Containers.HashMap.IndexOf | moth06_common.hh:363-370 | the linear scan returns what Find describes |
| Containers.HashMap.Has | moth06_common.hh:358-360 | Has(key) iff some slot holds FNV(key) |
| Containers.HashMap.Get | moth06_common.hh:346-356 | Get updates the slots and returns the index as GetSpec describes |
| Containers.HashMap.SetAt | moth06_common.hh:355 | assigning through the reference Get returns replaces that slot's value and keeps its hash |
| GameTypes.Tag | moth06_game/moth06_game.hh:51-83 | End is encoded as 0 and SetSprite as 1, and no other kind has either tag |
| GameTypes.KindOf | moth06_game/moth06_game.hh:51-83 | every tag byte denotes a well-formed kind |
| GameTypes.TagRoundTrip | moth06_game/moth06_game.hh:51-83 | decoding a tag byte and encoding it again gives the byte |
| GameTypes.KindRoundTrip | moth06_game/moth06_game.hh:51-83 | encoding a kind and decoding it again gives the kind |
| GameTypes.EmptyAnimation | moth06_game/moth06_game.hh:101-108 | `Animation()` has two name buffers of MAX_ANM_NAME = 32 bytes |
| Pbg.MagicSpec | moth06_game/moth06_game_files.cc:24-30 | four 8-bit reads give a 4-character magic |
| Pbg.NameSpec | moth06_game/moth06_game_files.cc:51 | an entry name stores at most MAX_PBG_NAME = 256 characters |
| Pbg.NameBuffer | moth06_game/moth06_game.hh:27 | the name buffer is 256 bytes: the characters read, then zeros |
| Pbg.EntrySpec | moth06_game/moth06_game_files.cc:45-51 | an entry read gives a 256-byte name and keeps the bit offset valid |
| Pbg.Entries | moth06_game/moth06_game_files.cc:44-52 | the entry loop reads exactly k entries |
| Pbg.EntriesThen | moth06_game/moth06_game_files.cc:44-52 | k > 0 entries are k - 1 entries and one more |
| Pbg.EntriesNext | moth06_game/moth06_game_files.cc:44-52 | reading one more entry appends it to the table, in table order |
| Pbg.ReadMagic | moth06_game/moth06_game_files.cc:24-30 | the four reads give MagicSpec's magic and cursor |
| Pbg.ReadEntryName | moth06_game/moth06_game_files.cc:51 | the name buffer holds the characters read_c_string (or ReadUTF8) stored, then zeros |
| Pbg.ReadEntry | moth06_game/moth06_game_files.cc:45-51 | unk1, unk2, chck, foff and fsiz are five packed integers in that order, then the name, as EntrySpec describes |
| Pbg.ReadNextEntry | moth06_game/moth06_game_files.cc:45-51 | the entry read next is entry k + 1 of the table |
| Pbg.FillTable | moth06_game/moth06_game_files.cc:44-52 | slot i of the array receives entry i of the table, for every slot |
| Pbg.FillSlot | moth06_game/moth06_game_files.cc:45-51 | one turn of the loop writes entry i to slot i |
| Pbg.ReadIndex | moth06_game/moth06_game_files.cc:23-55 | a wrong magic returns false and leaves the entries alone; otherwise the entries become the table of count entries read from (offset, bit 0) and the result is true iff no read overran |
| Pbg.ReadPbgEntries | moth06_game/moth06_game_files.cc:23-55 | read_pbg_entries on a fresh stream over the archive behaves as IndexSpec and IndexOutcome describe |
| Pbg.ReadEntryList | moth06_core_files.cc:8-38 | the same index read on a copy of the stream; the caller's cursor and overrun flag are unchanged |
| Pbg.ReadEntries | moth06_pbg.cc:5-33 | the older reader on the caller's stream: one-argument Seek, ReadUTF8 names, and the stream is left after the last read |
| Pbg.MagicClosed | moth06_game/moth06_game_files.cc:24-36 | the magic either lies inside the data and consumes 32 bits, or it overruns, and then it reads as zeros and is never "PBG3" |
| Pbg.ShortArchiveRejected | moth06_game/moth06_game_files.cc:24-36 | an archive shorter than 4 bytes is rejected by the magic check |
| Pbg.IntSticky | moth06_common/moth06_common.hh:346-351 | read_int on an overrun stream yields 0 and does not move |
| Pbg.EntrySticky | moth06_game/moth06_game_files.cc:45-51 | an entry read on an overrun stream leaves it overrun |
| Pbg.EntriesSticky | moth06_game/moth06_game_files.cc:44-52 | entries read on an overrun stream leave it overrun |
| Pbg.OverrunStreamRejected | moth06_pbg.cc:5-14 | a shared stream that has already overrun fails the magic check and stays in place |
| Pbg.IndexSucceeds | moth06_game/moth06_game_files.cc:38-54 | a table read had the magic "PBG3" and holds exactly count entries; a successful one read the magic, count and offset inside the data |
| Lzss.RingWindow | moth06_game/moth06_game_files.cc:75-86 | the ring invariant: output byte t sits at dictionary slot (1 + t) mod 0x2000 for the latest 0x2000 outputs |
| Lzss.RingUnwritten | moth06_game/moth06_game_files.cc:69-70 | slots the output has not reached still hold the zero fill |
| Lzss.MirrorsStep | moth06_game/moth06_game_files.cc:75-77 | writing the next byte at the head keeps the dictionary equal to the ring of the output |
| Lzss.HeadAdvance | moth06_game/moth06_game_files.cc:76 | advancing the head modulo 0x2000 keeps head == (1 + i) mod 0x2000 |
| Lzss.CopyMatch | moth06_game/moth06_game_files.cc:82-87 | a back-reference appends one byte per j in [off, off + len) and keeps the output before it |
| Lzss.DecodeFrom | moth06_game/moth06_game_files.cc:71-89 | the decode loop keeps the output it started with as a prefix, ends with at least the declared size, and overshoots by less than 18 bytes |
| Lzss.DecodeTurn | moth06_game/moth06_game_files.cc:72-88 | one turn of the loop and the rest: the same bounds |
| Lzss.DecodeLiteral | moth06_game/moth06_game_files.cc:73-77 | a literal turn: the same bounds |
| Lzss.DecodeMatch | moth06_game/moth06_game_files.cc:79-87 | a back-reference turn: the same bounds |
| Lzss.TurnSplit | moth06_game/moth06_game_files.cc:72 | the flag bit selects the literal turn (1) or the back-reference turn (0) |
| Lzss.EmptyEntryReadsNothing | moth06_game/moth06_game_files.cc:66-71 | an entry of declared size 0 reads nothing and produces nothing |
| Lzss.DecodeSticky | moth06_pbg.cc:42-67 | decoding on an overrun stream reads nothing and leaves it overrun |
| Lzss.MatchRunsPastSize | moth06_game/moth06_game_files.cc:82-87 | the loop as written turns the input bytes 0, 0, 0 declared as 1 byte into 3 bytes of output (finding) |
| Lzss.Emit | moth06_game/moth06_game_files.cc:75-77 | one output byte goes to data[i] and to the dictionary at the head; the head advances and the mirror is kept; a write past the output is reported |
| Lzss.CopyBack | moth06_game/moth06_game_files.cc:82-87 | the copy loop emits the back-reference byte by byte, reading each slot after the previous byte was written |
| Lzss.LiteralStep | moth06_game/moth06_game_files.cc:73-77 | a literal turn as DecodeLiteral describes |
| Lzss.MatchStep | moth06_game/moth06_game_files.cc:79-87 | a back-reference turn as DecodeMatch describes, or an overflow report |
| Lzss.ReadMatchWord | moth06_game/moth06_game_files.cc:80-81 | the 13-bit offset and the 4-bit length plus 3 |
| Lzss.DecodeStep | moth06_game/moth06_game_files.cc:72-88 | one turn of the loop as DecodeFrom describes |
| Lzss.Decode | moth06_game/moth06_game_files.cc:66-91 | the output holds DecodeFrom's bytes and the result is true iff no read overran; a back-reference past the declared size is reported as Overflowed, with the bytes that fit |
| Lzss.ReadPbgEntryData | moth06_game/moth06_game_files.cc:57-92 | the output is sized to fsiz and decoded from (foff, bit 0) of a fresh stream; fsiz = 0 gives true |
| Lzss.ReadEntryData | moth06_core_files.cc:40-74 | the same decode on a copy of the stream; the caller's cursor and overrun flag are unchanged |
| Lzss.ReadEntryContents | moth06_pbg.cc:42-68 | the decode on the shared stream; once it has overrun, every later call fails and leaves it overrun |
| Anm.ReadWord | moth06_game/moth06_game_files.cc:102 | read<u32> succeeds iff 4 bytes remain (and no overrun); it then yields their little-endian value and advances 4; otherwise it overruns in place with 0 |
| Anm.ReadWords | moth06_game/moth06_game_files.cc:118-121 | k words: they succeed iff 4k bytes remain and then advance 4k; an overrun stream stays in place |
| Anm.ReadWordsThen | moth06_game/moth06_game_files.cc:118-121 | the same for k > 0 |
| Anm.ReadWordsValues | moth06_game/moth06_game_files.cc:119-121 | without overrun, word j is the little-endian value of bytes [p + 4j, p + 4j + 4) |
| Anm.ReadPairs | moth06_game/moth06_game_files.cc:122-130 | k (index, offset) pairs give k empty scripts and k offsets; they succeed iff 8k bytes remain |
| Anm.ReadPairsThen | moth06_game/moth06_game_files.cc:122-130 | the same for k > 0 |
| Anm.NameBuffer | moth06_game/moth06_game_files.cc:131-135 | a 32-byte name buffer: the bytes read, then zeros |
| Anm.ReadSpriteClosed | moth06_game/moth06_game_files.cc:140-147 | a sprite record is read whole iff its 20 bytes lie in the file (and no overrun), ending 20 bytes past its offset |
| Anm.ReadSprites | moth06_game/moth06_game_files.cc:138-149 | one sprite per offset, in table order; without overrun every record lay in the file |
| Anm.ReadSpritesThen | moth06_game/moth06_game_files.cc:138-149 | the same for k > 0 |
| Anm.ReadOp | moth06_game/moth06_game_files.cc:157-173 | an overrun stream reads End in place; every other op advances the cursor by at least its 4-byte header; only SetSprite carries a payload; a non-End op strictly lowers the distance to overrun |
| Anm.ScanOps | moth06_game/moth06_game_files.cc:155-177 | the scanned ops never include End; an overrun stream scans nothing |
| Anm.ScanLive | moth06_game/moth06_game_files.cc:155-177 | the scan of a stream that has not overrun never includes End |
| Anm.ScanTurn | moth06_game/moth06_game_files.cc:156-177 | one turn and the rest: no End is appended |
| Anm.ScanOpsThen | moth06_game/moth06_game_files.cc:174-176 | a non-End op is appended first, then the rest of the scan |
| Anm.ScanOpsStep | moth06_game/moth06_game_files.cc:156-177 | End stops the scan without appending; any other op is appended before the ops after it |
| Anm.EncodeOp | moth06_game/moth06_game_files.cc:157-172 | the encoding the scan reads: a 4-byte header, then 4 payload bytes for SetSprite or size bytes otherwise |
| Anm.ReadHeaderEncoded | moth06_game/moth06_game_files.cc:158-160 | an encoded header reads back as its time, tag and size, 4 bytes on |
| Anm.ReadOpEncoded | moth06_game/moth06_game_files.cc:157-173 | an encoded op reads back as the same op, just past its encoding |
| Anm.ReadEndEncoded | moth06_game/moth06_game_files.cc:164-166 | an encoded End header reads as End, 4 bytes on |
| Anm.ScanKeeps | moth06_game/moth06_game_files.cc:174-176 | a non-End op read is the head of the scanned ops |
| Anm.ScanEncodedEnd | moth06_game/moth06_game_files.cc:164-166 | an encoded End stops the scan with no ops |
| Anm.ScanEncodedOp | moth06_game/moth06_game_files.cc:156-177 | an encoded op followed by the rest scans to that op followed by the rest's scan |
| Anm.ScriptEncodedAt | moth06_game/moth06_game_files.cc:156-177 | an encoded script places each op where the scan will look for it, and ends where the End header ends |
| Anm.ScanEncodedHead | moth06_game/moth06_game_files.cc:156-177 | the first op of an encoded script is the first op scanned |
| Anm.ScanEncodedAt | moth06_game/moth06_game_files.cc:152-178 | ops placed one after another, followed by End, scan back to exactly those ops |
| Anm.ScanEncoded | moth06_game/moth06_game_files.cc:152-178 | round trip: the scan of an encoded End-free script is that script, and it stops just past its End header |
| Anm.ScanScripts | moth06_game/moth06_game_files.cc:152-178 | each script keeps its index and, up to k, gets its scanned ops; none holds End; an overrun stays |
| Anm.ScanScriptsThen | moth06_game/moth06_game_files.cc:152-178 | the same for k > 0 |
| Anm.ParsedShape | moth06_game/moth06_game_files.cc:98-182 | a parsed animation has version 0, a non-zero texture name offset, one sprite per sprite offset and one script per table pair, with its index as read and no End op |
| Anm.ParsedNames | moth06_game/moth06_game_files.cc:131-135 | the names of a parsed animation are the 32 bytes at their offsets, with no stop at NUL; an alpha offset of 0 leaves that buffer zeroed |
| Anm.ParsedSprites | moth06_game/moth06_game_files.cc:138-149 | every sprite record of a parsed animation lies in the file |
| Anm.ParsedInBounds | moth06_game/moth06_game_files.cc:101-149 | a parsed animation read its header, tables, names and sprite records inside the file, so a file shorter than its 64-byte header fails |
| Anm.ReadU32 | moth06_game/moth06_game_files.cc:102 | read<u32> on the stream as ReadWord describes |
| Anm.ReadWordTable | moth06_game/moth06_game_files.cc:118-121 | the offset loop fills the table as ReadWords describes |
| Anm.ReadScriptTable | moth06_game/moth06_game_files.cc:122-130 | the pair loop appends scripts and fills offsets as ReadPairs describes |
| Anm.ReadName | moth06_game/moth06_game_files.cc:131-135 | seek, then read 32 bytes into a zeroed buffer |
| Anm.ReadSpriteRecord | moth06_game/moth06_game_files.cc:140-147 | seek, then five words: idx, x, y, w, h |
| Anm.ReadSpriteRecords | moth06_game/moth06_game_files.cc:138-149 | the sprite loop appends the records as ReadSprites describes |
| Anm.ReadNextOp | moth06_game/moth06_game_files.cc:157-173 | one op read as ReadOp describes; reading continues iff the op is not End |
| Anm.ScanStep | moth06_game/moth06_game_files.cc:156-177 | one loop turn: End ends the scan; any other op is the head of the remaining scan, and the distance to overrun drops |
| Anm.ScanScript | moth06_game/moth06_game_files.cc:154-177 | the while (reading) loop appends exactly ScanOps's ops and ends where the scan ends |
| Anm.ScanAllScripts | moth06_game/moth06_game_files.cc:152-178 | each script receives its scanned ops, in table order |
| Anm.ReadAnm | moth06_game/moth06_game_files.cc:98-182 | read_anm returns what AnmSpec describes: version ≠ 0 and a zero texture name offset abort; an overrun anywhere fails; otherwise the parsed animation |
| Anm.ReadAnmTables | moth06_game/moth06_game_files.cc:118-131 | the sprite offset and script tables, then the texture name offset check |
| Anm.ReadAnmContents | moth06_game/moth06_game_files.cc:131-181 | the names, sprite records and opcode scans, then the final overrun check |

## Left out

- Pbg.NameBuffer: the 256-byte name buffer is zero after the characters read only because the model reads each name into a freshly zeroed buffer. `read_c_string` and `ReadUTF8` write in place into the entry's `e_name` and leave the bytes after the terminator as they were. Those bytes are zero for a newly allocated entries array, but a reused slot keeps its earlier bytes, and the model does not track the contents of array slots beyond the length.
- Pbg.ReadEntryName: states the name as the characters read followed by zeros, for the reason given for Pbg.NameBuffer. It does not model the earlier contents of a reused entry slot.
- BitStreams.BitStream.ReadBits: requires n ≤ 32. Every call site reads at most 32 bits; the 64-bit `read_bits<usize>` only reads the 2-bit prefix.
- BitStreams.BitStream.Seek: requires a bit offset below 8. An offset of 8 or more makes `7 - bit` wrap in the next read, and no caller passes one.
- Floating-point sprite coordinates are kept as the 32-bit words they are read as. No float semantics are modelled.
- `usize` overflow is not modelled. Array lengths and requests are kept below 2^63, where no capacity computation wraps. `next_power_of_2` and `rotate_left` are modelled on their 64-bit and 32-bit words.
- Containers.Array.Resize: slots past the length and their construction or destruction (placement new, destructors) are not modelled; only the live elements are specified.
- Containers.Array: allocation failure is not modelled; a huge count read from a file only grows an unbounded sequence.
- Containers.HashMap: the slots are a sequence field rather than an `Array<Entry>`, and `Get` returns the slot index instead of a reference into it. Writing through that reference is `SetAt`.
- Containers.Grow: the Exponential rule promises only growth past a non-zero capacity. `(c << 1) & ~c` is not a power of two in general (5 gives 10).
- The old `HashTable` of old/moth06.hh is not modelled. Its `Find` returns the stored value where the index is meant (line 293), so it specifies nothing usable.
- `arrlen` (src/hk.hh:72-75) is a compile-time array extent. The model uses its constants (MaxPbgName, MaxAnmName) directly.
- The process-wide `parser_error` buffer is not modelled: a wrong magic is reported by the result alone.
- Hard `ASSERT`s are modelled in one of two ways:
  - as failure outcomes: ANM version ≠ 0, a zero texture name offset, and the final overrun check become `Aborted`; an LZSS write past the output becomes `Overflowed`;
  - as preconditions, where the caller can always meet them: an index below the length, a bit offset below 8, and MD5 input length > 0 (`mem::copy` asserts a non-zero count).
- Anm.ReadAnm: the animation is returned only on success. On failure the source leaves a partly filled `anim` behind, and the model does not return it.
- Anm.ReadAnm: the `reserve` calls on the sprite and script arrays are not modelled, since reserving does not change contents. The output Arrays are modelled as sequences.
- Anm: the header words the parser ignores are read but not kept.
- Anm.ReadAnm: the version ASSERT fires after word 10 of the header in the source. The model reads all 16 header words before checking it. The outcome is the same.
- Hashing: the MD5 compression rounds (section 3.4 of RFC 1321) are not modelled. They read words through a pointer cast whose order depends on the host. Only the padding and the rendering are modelled.
- Hashing.Render: the `snprintf` buffer length `len` is not modelled; the text is the whole formatted string.
- Strings: the Windows path delimiter is a parameter (`windows`) rather than a build flag.
- Strings.Extension returns the position where the extension starts rather than a pointer; OldExtension returns `None` for `nullptr`.
- Byte order: ByteStream's `memcpy` read is modelled as little-endian, the order of the hosts the game runs on.
- File and disk I/O are outside the core: archive and animation bytes are parameters. Rendering, audio, windowing and hot reload are out of scope too.
- Lzss: the dictionary is a Dafny array of 0x2000 bytes that the decoder updates in place. It is specified by `Ring`, a function of the output produced so far.

## Findings

| source | as written | input that shows it | evidently intended | confidence | as-written member | corrected member |
|---|---|---|---|---|---|---|
| moth06_common.cc:9-16 | each digest byte is printed with unpadded "%x", so a byte below 0x10 gives one digit | digests starting 01 23 … and 12 03 … with equal remaining bytes both render as "123…" | the conventional 32-digit "%02x" form, which is injective | not executed | Hashing.RenderCollision | Hashing.RenderPaddedRoundTrip |
| moth06_common/moth06_common.hh:260-267 | copy(other) first calls resize(0), which sets the length it then copies to 0 when other is the same array | `a = a;` (operator= at line 258) | self-assignment leaves the array unchanged | not executed | Containers.Array.Copy | Containers.Array.CopyChecked |
| moth06_game/moth06_game_files.cc:82-87 | the back-reference loop writes `data[i++]` len + 3 times without checking i against the declared size | entry data 00 00 00 with declared size 1: flag 0, offset 0, length 0 asks for 3 bytes | the decoder stops, or reports a failure, instead of writing past the output (only Span's debug ASSERT at line 211 of the common header catches it) | not executed | Lzss.MatchRunsPastSize | Lzss.Decode |
