/**
 * Fixed-width integers and the small bit helpers of the engine's common
 * header: powers of two, the `next_power_of_2` trick used by the growable
 * array, a 32-bit left rotation and little-endian byte order.
 */
module Primitives {

  datatype Option<T> = None | Some(value: T)

  type u8 = x: int | 0 <= x < 0x100
  type u16 = x: int | 0 <= x < 0x1_0000
  type u32 = x: int | 0 <= x < 0x1_0000_0000

  /** 2 to the power n. */
  function Pow2(n: nat): (r: nat)
    ensures r >= 1
  {
    if n == 0 then 1 else 2 * Pow2(n - 1)
  }

  lemma {:induction false} Pow2Monotonic(m: nat, n: nat)
    requires m <= n
    ensures Pow2(m) <= Pow2(n)
  {
    if m < n {
      Pow2Monotonic(m, n - 1);
    }
  }

  lemma {:induction false} Pow2Add(m: nat, n: nat)
    ensures Pow2(m + n) == Pow2(m) * Pow2(n)
  {
    if n > 0 {
      Pow2Add(m, n - 1);
    }
  }

  lemma Pow2Values()
    ensures Pow2(1) == 2 && Pow2(2) == 4 && Pow2(4) == 16 && Pow2(8) == 0x100 && Pow2(13) == 0x2000
    ensures Pow2(16) == 0x1_0000 && Pow2(24) == 0x100_0000 && Pow2(32) == 0x1_0000_0000
  {
    assert Pow2(4) == 16 by {
      assert Pow2(1) == 2;
      assert Pow2(2) == 4;
      assert Pow2(3) == 8;
    }
    Pow2Add(4, 4);
    Pow2Add(8, 5);
    Pow2Add(8, 8);
    Pow2Add(16, 8);
    Pow2Add(16, 16);
  }

  /**
   * `(val << 1) & ~val` on the low w bits of val, from the least
   * significant bit up: bit i of the result is set exactly when bit i - 1
   * of val is set and bit i is clear. `below` is bit i - 1 for the lowest
   * bit still to do (the 0 shifted in, for the whole word).
   */
  function ShiftAndNot(v: nat, below: nat, w: nat): (r: nat)
    requires below <= 1
    ensures r < Pow2(w)
  {
    if w == 0 then 0
    else (if below == 1 && v % 2 == 0 then 1 else 0) + 2 * ShiftAndNot(v / 2, v % 2, w - 1)
  }

  /**
   * `next_power_of_2(val)` on a 64-bit word. It is not a power of two in
   * general (5 gives 10), but see NextPowerOf2Grows.
   */
  function NextPowerOf2(v: nat): nat
  {
    ShiftAndNot(v, 0, 64)
  }

  lemma {:induction false} ShiftAndNotZero(w: nat)
    ensures ShiftAndNot(0, 0, w) == 0
  {
    if w > 0 {
      ShiftAndNotZero(w - 1);
    }
  }

  /**
   * A non-zero value whose top bit is clear sets, in the result, the bit
   * above its highest set bit, so the result exceeds it.
   */
  lemma {:induction false} ShiftAndNotGrows(v: nat, below: nat, w: nat)
    requires below <= 1 && w >= 1 && 1 <= v < Pow2(w - 1)
    ensures ShiftAndNot(v, below, w) > v
  {
    if v / 2 >= 1 {
      ShiftAndNotGrows(v / 2, v % 2, w - 1);
    } else {
      assert ShiftAndNot(0, 1, w - 2) >= 0;
    }
  }

  /**
   * For any non-zero value below 2^63 the result is larger: what the
   * growable array relies on. Zero stays zero.
   */
  lemma NextPowerOf2Grows(v: nat)
    ensures 0 < v < 0x8000_0000_0000_0000 ==> v < NextPowerOf2(v) < 0x1_0000_0000_0000_0000
    ensures v == 0 ==> NextPowerOf2(v) == 0
  {
    assert Pow2(64) == 0x1_0000_0000_0000_0000 && Pow2(63) == 0x8000_0000_0000_0000 by {
      Pow2Values();
      Pow2Add(32, 32);
    }
    if 0 < v < 0x8000_0000_0000_0000 {
      ShiftAndNotGrows(v, 0, 64);
    }
    if v == 0 {
      ShiftAndNotZero(64);
    }
  }

  /** The unit test of the common header: `next_power_of_2(3) == 4`. */
  lemma NextPowerOf2Three()
    ensures NextPowerOf2(3) == 4
  {
    ShiftAndNotZero(61);
    assert ShiftAndNot(0, 1, 62) == 1;
    assert ShiftAndNot(1, 1, 63) == 2;
  }

  /**
   * `(val << shift) | (val >> (32 - shift))` on a 32-bit word. A shift of 0
   * or of 32 and more shifts by the full width, which C leaves undefined.
   */
  function RotateLeft32(v: bv32, shift: nat): (r: bv32)
    requires 0 < shift < 32
    ensures r == v.RotateLeft(shift)
  {
    (v << shift) | (v >> (32 - shift))
  }

  /** Little-endian value of a byte string (the host order of `memcpy`). */
  function LittleEndian(s: seq<u8>): (r: nat)
    ensures r < Pow2(8 * |s|)
  {
    if |s| == 0 then 0
    else
      Pow2Add(8, 8 * (|s| - 1));
      Pow2Values();
      s[0] + 256 * LittleEndian(s[1..])
  }

  /** The k-byte little-endian encoding of v, the partner of LittleEndian. */
  function ToLittleEndian(v: nat, k: nat): (r: seq<u8>)
    ensures |r| == k
  {
    if k == 0 then [] else [v % 256] + ToLittleEndian(v / 256, k - 1)
  }

  lemma SplitByte(b: nat, q: nat)
    requires b < 256
    ensures (b + 256 * q) % 256 == b && (b + 256 * q) / 256 == q
  {
  }

  lemma DivideBelow(v: nat, m: nat)
    requires v < 256 * m
    ensures v / 256 < m
  {
  }

  lemma {:induction false} LittleEndianRoundTrip(v: nat, k: nat)
    requires v < Pow2(8 * k)
    ensures LittleEndian(ToLittleEndian(v, k)) == v
  {
    if k > 0 {
      Pow2Add(8, 8 * (k - 1));
      Pow2Values();
      DivideBelow(v, Pow2(8 * (k - 1)));
      LittleEndianRoundTrip(v / 256, k - 1);
      var r := ToLittleEndian(v, k);
      assert r[0] == v % 256 && r[1..] == ToLittleEndian(v / 256, k - 1);
    }
  }

  lemma {:induction false} ToLittleEndianRoundTrip(s: seq<u8>)
    ensures ToLittleEndian(LittleEndian(s), |s|) == s
  {
    if |s| > 0 {
      var rest := LittleEndian(s[1..]);
      SplitByte(s[0], rest);
      ToLittleEndianRoundTrip(s[1..]);
      assert ToLittleEndian(LittleEndian(s), |s|) == [s[0]] + s[1..];
    }
  }

  /**
   * Storing v at index |acc| of a buffer whose first |acc| places hold acc
   * and whose rest is unchanged from w extends the stored prefix by v.
   */
  lemma BufferStep(acc: seq<u8>, w: seq<u8>, v: u8)
    requires |acc| < |w|
    ensures (acc + w[|acc|..])[|acc| := v] == (acc + [v]) + w[|acc| + 1..]
  {
  }

  /** n zero bytes. */
  function Zeros(n: nat): (r: seq<u8>)
    ensures |r| == n && forall i :: 0 <= i < n ==> r[i] == 0
  {
    if n == 0 then [] else [0] + Zeros(n - 1)
  }
}
