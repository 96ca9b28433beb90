/**
 * Hashing helpers of the engine: the 32-bit FNV-1a hash used to key the
 * hash map, the input padding step of MD5 (sections 3.1 and 3.2 of
 * RFC 1321) and the rendering of a digest as hexadecimal text.
 */
module Hashing {
  import opened Primitives
  import opened Strings

  const FnvOffset: bv32 := 0x811c9dc5
  const FnvPrime: bv32 := 0x01000193

  /** One FNV-1a round: xor the byte in, then multiply modulo 2^32. */
  function FnvStep(h: bv32, b: u8): bv32
  {
    (h ^ (b as bv32)) * FnvPrime
  }

  /** The hash loop continued from state h over the bytes s. */
  function FnvFrom(h: bv32, s: seq<u8>): bv32
    decreases |s|
  {
    if |s| == 0 then h else FnvFrom(FnvStep(h, s[0]), s[1..])
  }

  /** FNV-1a of a byte string. */
  function Fnv(s: seq<u8>): bv32
  {
    FnvFrom(FnvOffset, s)
  }

  /** Hashing s then t is hashing their concatenation. */
  lemma {:induction false} FnvFromConcat(h: bv32, s: seq<u8>, t: seq<u8>)
    ensures FnvFrom(h, s + t) == FnvFrom(FnvFrom(h, s), t)
    decreases |s|
  {
    if |s| > 0 {
      assert (s + t)[0] == s[0] && (s + t)[1..] == s[1..] + t;
      FnvFromConcat(FnvStep(h, s[0]), s[1..], t);
    } else {
      assert s + t == t;
    }
  }

  /** The hash is a left fold: one more byte is one more round. */
  lemma FnvAppend(s: seq<u8>, b: u8)
    ensures Fnv(s + [b]) == FnvStep(Fnv(s), b)
  {
    FnvFromConcat(FnvOffset, s, [b]);
    assert FnvFrom(Fnv(s), [b]) == FnvFrom(FnvStep(Fnv(s), b), []);
  }

  /** The empty input hashes to the offset basis. */
  lemma FnvEmpty()
    ensures Fnv([]) == 0x811c9dc5
  {
  }

  /** The published FNV-1a 32-bit value of "a". */
  lemma FnvKnownValue()
    ensures Fnv([0x61]) == 0xe40c292c
  {
    var a: seq<u8> := [0x61];
    assert FnvStep(FnvOffset, 0x61) == 0xe40c292c by {
      assert (0x61 as u8) as bv32 == 0x61;
      assert (0x811c9dc5 as bv32) ^ 0x61 == 0x811c9da4;
      assert (0x811c9da4 as bv32) * 0x01000193 == 0xe40c292c;
    }
    assert a[0] == 0x61 && a[1..] == [];
    assert Fnv(a) == FnvFrom(FnvStep(FnvOffset, 0x61), []);
  }

  /** `hash::fnv(data)`. */
  method FnvBytes(data: seq<u8>) returns (r: bv32)
    ensures r == Fnv(data)
  {
    r := FnvOffset;
    var i := 0;
    while i < |data|
      invariant i <= |data| && FnvFrom(r, data[i..]) == Fnv(data)
    {
      assert data[i..][1..] == data[i + 1..];
      r := FnvStep(r, data[i]);
      i := i + 1;
    }
  }

  /** `hash::fnv_string(s)`: the hash of the bytes before the terminator. */
  function FnvString(s: seq<u8>): bv32
    requires 0 in s
  {
    Fnv(Text(s))
  }

  /** Whatever follows the first NUL does not affect the string hash. */
  lemma FnvStringPrefix(t: seq<u8>, rest: seq<u8>)
    requires 0 !in t
    ensures 0 in t + [0] + rest && FnvString(t + [0] + rest) == Fnv(t)
  {
    TextOf(t, rest);
  }

  /** Length of the MD5 input once padded: `((len + 8) / 64 + 1) * 64`. */
  function PaddedLength(len: nat): nat
  {
    ((len + 8) / 64 + 1) * 64
  }

  /**
   * The padded length is the smallest multiple of 64 that leaves room for
   * the data, the 0x80 byte and the 8-byte length.
   */
  lemma PaddedLengthSmallest(len: nat)
    ensures PaddedLength(len) % 64 == 0
    ensures len + 9 <= PaddedLength(len) < len + 9 + 64
  {
  }

  /** The width of `size_t` arithmetic: `len * 8` wraps modulo 2^64. */
  const SizeModulus: nat := 0x1_0000_0000_0000_0000

  /**
   * The padded MD5 input: the data, a single 1 bit (0x80), zeros, and the
   * bit length modulo 2^64 as a little-endian 64-bit word.
   */
  function Md5PadSpec(data: seq<u8>): (r: seq<u8>)
    ensures |r| == PaddedLength(|data|)
  {
    PaddedLengthSmallest(|data|);
    data + [0x80] + Zeros(PaddedLength(|data|) - |data| - 9) + ToLittleEndian((8 * |data|) % SizeModulus, 8)
  }

  /**
   * The layout of the padded input, with the length word decoded back: this
   * is what the compression rounds consume.
   */
  lemma Md5PadLayout(data: seq<u8>)
    ensures var p := Md5PadSpec(data);
      |p| % 64 == 0 && |p| >= |data| + 9 && p[..|data|] == data && p[|data|] == 0x80 &&
      (forall j :: |data| < j < |p| - 8 ==> p[j] == 0) &&
      LittleEndian(p[|p| - 8..]) == (8 * |data|) % SizeModulus
  {
    PaddedLengthSmallest(|data|);
    var p := Md5PadSpec(data);
    var z := PaddedLength(|data|) - |data| - 9;
    var w := ToLittleEndian((8 * |data|) % SizeModulus, 8);
    assert p == data + [0x80] + Zeros(z) + w;
    assert p[..|data|] == data;
    assert p[|p| - 8..] == w;
    forall j | |data| < j < |p| - 8
      ensures p[j] == 0
    {
      assert p[j] == Zeros(z)[j - |data| - 1];
    }
    assert Pow2(64) == SizeModulus by {
      Pow2Values();
      Pow2Add(32, 32);
    }
    LittleEndianRoundTrip((8 * |data|) % SizeModulus, 8);
  }

  /**
   * The padding step of `hash::md5`: a zero-filled buffer of the padded
   * length, the data copied in, 0x80 after it and the bit length in the
   * last 8 bytes. `mem::copy` asserts a non-zero count, hence non-empty
   * data.
   */
  method Md5Pad(data: seq<u8>) returns (inp: array<u8>)
    requires |data| > 0
    ensures inp[..] == Md5PadSpec(data)
  {
    PaddedLengthSmallest(|data|);
    var n := PaddedLength(|data|);
    inp := new u8[n](_ => 0);
    var i := 0;
    while i < |data|
      invariant i <= |data| && inp.Length == n
      invariant forall j :: 0 <= j < n ==> inp[j] == if j < i then data[j] else 0
    {
      inp[i] := data[i];
      i := i + 1;
    }
    inp[|data|] := 0x80;
    var sizeBits := ToLittleEndian((8 * |data|) % SizeModulus, 8);
    var k := 0;
    while k < 8
      invariant k <= 8 && inp.Length == n
      invariant forall j :: 0 <= j < n ==>
        inp[j] == if j < |data| then data[j] else if j == |data| then 0x80
                  else if n - 8 <= j < n - 8 + k then sizeBits[j - (n - 8)] else 0
    {
      inp[n - 8 + k] := sizeBits[k];
      k := k + 1;
    }
    assert forall j :: 0 <= j < n ==>
      inp[..][j] == if j < |data| then data[j] else if j == |data| then 0x80
                    else if n - 8 <= j then sizeBits[j - (n - 8)] else 0;
    PaddedBytes(data, inp[..], sizeBits);
  }

  /** The padded input described byte by byte is the padding of the data. */
  lemma PaddedBytes(data: seq<u8>, s: seq<u8>, sizeBits: seq<u8>)
    requires |s| == PaddedLength(|data|) && sizeBits == ToLittleEndian((8 * |data|) % SizeModulus, 8)
    requires forall j :: 0 <= j < |s| ==>
      s[j] == if j < |data| then data[j] else if j == |data| then 0x80
              else if |s| - 8 <= j then sizeBits[j - (|s| - 8)] else 0
    ensures s == Md5PadSpec(data)
  {
    PaddedLengthSmallest(|data|);
    var n := |s|;
    var spec := Md5PadSpec(data);
    assert spec == data + [0x80] + Zeros(n - |data| - 9) + sizeBits;
    forall j | 0 <= j < n
      ensures s[j] == spec[j]
    {
      if j >= n - 8 {
        assert spec[j] == sizeBits[j - (n - 8)];
      } else if j > |data| {
        assert spec[j] == Zeros(n - |data| - 9)[j - |data| - 1];
      }
    }
  }

  /** `%x` of one digit value. */
  function HexDigit(d: nat): char
    requires d < 16
  {
    if d < 10 then ('0' as int + d) as char else ('a' as int + d - 10) as char
  }

  /** The value of a lower-case hexadecimal digit (0 for any other char). */
  function DigitValue(c: char): (d: nat)
    ensures d < 16
  {
    if '0' <= c <= '9' then (c - '0') as nat
    else if 'a' <= c <= 'f' then (c - 'a') as nat + 10
    else 0
  }

  lemma DigitRoundTrip(d: nat)
    requires d < 16
    ensures DigitValue(HexDigit(d)) == d
  {
  }

  /** The two digits of a byte read back as that byte. */
  lemma ByteRoundTrip(b: u8)
    ensures 16 * DigitValue(HexDigit(b / 16)) + DigitValue(HexDigit(b % 16)) == b
  {
    DigitRoundTrip(b / 16);
    DigitRoundTrip(b % 16);
  }

  /** `%x` of one byte: no leading zero, so one digit below 0x10. */
  function HexByte(b: u8): string
  {
    if b < 16 then [HexDigit(b)] else [HexDigit(b / 16), HexDigit(b % 16)]
  }

  /** `MD5Digest::render`: every byte printed with `%x`, in order. */
  function Render(bytes: seq<u8>): string
  {
    if |bytes| == 0 then [] else HexByte(bytes[0]) + Render(bytes[1..])
  }

  /**
   * The rendered text has between one and two digits per byte, and two per
   * byte exactly when every byte is at least 0x10.
   */
  lemma {:induction false} RenderLength(bytes: seq<u8>)
    ensures |bytes| <= |Render(bytes)| <= 2 * |bytes|
    ensures |Render(bytes)| == 2 * |bytes| <==> forall i :: 0 <= i < |bytes| ==> bytes[i] >= 0x10
  {
    if |bytes| > 0 {
      RenderLength(bytes[1..]);
      assert forall i :: 1 <= i < |bytes| ==> bytes[i] == bytes[1..][i - 1];
    }
  }

  /**
   * Two different digests render to the same text: a byte below 0x10 loses
   * its leading zero, so 01 23 and 12 03 both print as "123".
   */
  lemma RenderCollision(rest: seq<u8>)
    requires |rest| == 14
    ensures var d1 := [0x01, 0x23] + rest; var d2 := [0x12, 0x03] + rest;
      |d1| == |d2| == 16 && d1 != d2 && Render(d1) == Render(d2)
  {
    var d1 := [0x01, 0x23] + rest;
    var d2 := [0x12, 0x03] + rest;
    assert d1[1..][1..] == rest && d2[1..][1..] == rest;
    assert d1[0] != d2[0];
    assert Render(d1) == "1" + ("23" + Render(rest));
    assert Render(d2) == "12" + ("3" + Render(rest));
  }

  /** Rendering with `%02x`: exactly two digits per byte. */
  function RenderPadded(bytes: seq<u8>): (r: string)
    ensures |r| == 2 * |bytes|
  {
    if |bytes| == 0 then [] else [HexDigit(bytes[0] / 16), HexDigit(bytes[0] % 16)] + RenderPadded(bytes[1..])
  }

  /** Reads text of two digits per byte back into bytes. */
  function ParseHex(text: string): (r: seq<u8>)
    requires |text| % 2 == 0
    ensures |r| == |text| / 2
  {
    if |text| == 0 then []
    else [16 * DigitValue(text[0]) + DigitValue(text[1])] + ParseHex(text[2..])
  }

  /** The padded rendering can always be read back: no two digests collide. */
  lemma {:induction false} RenderPaddedRoundTrip(bytes: seq<u8>)
    ensures ParseHex(RenderPadded(bytes)) == bytes
  {
    if |bytes| > 0 {
      var t := RenderPadded(bytes);
      ByteRoundTrip(bytes[0]);
      assert t[2..] == RenderPadded(bytes[1..]);
      RenderPaddedRoundTrip(bytes[1..]);
      assert ParseHex(t) == [bytes[0]] + bytes[1..];
    }
  }

  /** Where no byte is below 0x10 the two renderings agree. */
  lemma {:induction false} RenderAgrees(bytes: seq<u8>)
    requires forall i :: 0 <= i < |bytes| ==> bytes[i] >= 0x10
    ensures Render(bytes) == RenderPadded(bytes)
  {
    if |bytes| > 0 {
      assert forall i :: 0 <= i < |bytes[1..]| ==> bytes[1..][i] == bytes[i + 1];
      RenderAgrees(bytes[1..]);
    }
  }
}
