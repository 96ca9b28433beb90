/**
 * The growable array and the FNV-keyed hash map of the common headers.
 *
 * The array exists in three snapshots that differ only in how `reserve`
 * picks the new capacity; `Growth` names each rule and `Grow` computes it.
 * The buffer is a Dafny array whose length is the capacity; the live
 * elements are its first `length` slots.
 */
module Containers {
  import opened Primitives
  import opened Hashing
  import opened Strings

  /** `usize` is 64 bits wide. */
  const SizeLimit: nat := 0x1_0000_0000_0000_0000
  /** Requests at or above half the address space cannot be allocated. */
  const HalfSize: nat := 0x8000_0000_0000_0000

  /**
   * How `reserve` grows a buffer whose capacity is below the request:
   * - Linear: exactly the request (`AllocationStrategy::Linear`, and the
   *   zero-filling array of the old header);
   * - Double: the request or twice the old capacity, whichever is larger
   *   (`AllocationStrategy::Double`, and the `hk` array);
   * - Exponential: the request or `next_power_of_2` of the old capacity;
   * - DoubleRequest and PowerOfRequest: the earlier rules of the second
   *   header, which apply `* 2` or `NextPowerOf2` to the request itself.
   */
  datatype Growth = Linear | Double | Exponential | DoubleRequest | PowerOfRequest

  /** The capacity `reserve(request)` allocates when request > cap. */
  function Grow(g: Growth, cap: nat, request: nat): (r: nat)
    requires cap < SizeLimit && cap < request < HalfSize
    ensures request <= r < SizeLimit
    ensures (g == Double || g == DoubleRequest) && cap < HalfSize ==> r >= 2 * cap
    ensures g == Exponential && cap > 0 ==> r > cap
  {
    NextPowerOf2Grows(cap);
    NextPowerOf2Grows(request);
    match g
    case Linear => request
    case Double => Max(request, (2 * cap) % SizeLimit)
    case Exponential => Max(request, NextPowerOf2(cap))
    case DoubleRequest => 2 * request
    case PowerOfRequest => NextPowerOf2(request)
  }

  function Max(a: nat, b: nat): (r: nat)
    ensures r >= a && r >= b && (r == a || r == b)
  {
    if a > b then a else b
  }

  class Array<T(0)> {
    var buffer: array<T>
    var length: nat
    const growth: Growth

    predicate Valid()
      reads this
    {
      length <= buffer.Length < SizeLimit
    }

    function Capacity(): nat
      reads this
    {
      buffer.Length
    }

    /** The live elements. */
    function Contents(): seq<T>
      reads this, buffer
      requires Valid()
    {
      buffer[..length]
    }

    constructor (growth: Growth)
      ensures Valid() && this.growth == growth && Contents() == [] && Capacity() == 0
      ensures fresh(buffer)
    {
      this.growth := growth;
      buffer := new T[0];
      length := 0;
    }

    /**
     * `reserve(request)`: a no-op unless the request exceeds the capacity;
     * otherwise a fresh buffer of the capacity `Grow` picks, holding the
     * live elements. Slots past the length are left unspecified.
     */
    method Reserve(request: nat)
      requires Valid() && request < HalfSize
      modifies this
      ensures Valid() && length == old(length) && Contents() == old(Contents())
      ensures Capacity() == if request > old(Capacity()) then Grow(growth, old(Capacity()), request)
                            else old(Capacity())
      ensures Capacity() >= request
      ensures request > old(Capacity()) ==> fresh(buffer)
      ensures request <= old(Capacity()) ==> buffer == old(buffer)
    {
      if request > buffer.Length {
        var capacity := Grow(growth, buffer.Length, request);
        var grown := new T[capacity];
        var i := 0;
        while i < length
          invariant i <= length <= buffer.Length < capacity == grown.Length
          invariant length == old(length) && buffer == old(buffer) && grown[..i] == buffer[..i]
        {
          grown[i] := buffer[i];
          i := i + 1;
        }
        buffer := grown;
      }
    }

    /** The old header's `ReserveMore(more)`: `Reserve(capacity + more)`. */
    method ReserveMore(more: nat)
      requires Valid() && Capacity() + more < HalfSize
      modifies this
      ensures Valid() && length == old(length) && Contents() == old(Contents())
      ensures Capacity() >= old(Capacity()) + more
    {
      Reserve(buffer.Length + more);
    }

    /**
     * `resize(n)`: the length becomes n and the elements below the smaller
     * of the two lengths are kept.
     */
    method Resize(n: nat)
      requires Valid() && n < HalfSize
      modifies this
      ensures Valid() && length == n && Capacity() >= n
      ensures var m := if n < old(length) then n else old(length);
        Contents()[..m] == old(Contents())[..m]
      ensures n > old(Capacity()) ==> fresh(buffer)
      ensures n <= old(Capacity()) ==> buffer == old(buffer)
    {
      Reserve(n);
      length := n;
    }

    /** `append(val)`: returns the old length, where val now sits. */
    method Append(val: T) returns (idx: nat)
      requires Valid() && length + 1 < HalfSize
      modifies this, buffer
      ensures Valid() && idx == old(length) && Contents() == old(Contents()) + [val]
      ensures buffer == old(buffer) || fresh(buffer)
    {
      ghost var before := Contents();
      Resize(length + 1);
      buffer[length - 1] := val;
      idx := length - 1;
      assert Contents() == Contents()[..idx] + [val];
    }

    /** `operator[]` read: the index must be below the length. */
    method At(idx: nat) returns (v: T)
      requires Valid() && idx < length
      ensures v == Contents()[idx]
    {
      v := buffer[idx];
    }

    /** `operator[]` write. */
    method Set(idx: nat, v: T)
      requires Valid() && idx < length
      modifies buffer
      ensures Valid() && Contents() == old(Contents())[idx := v]
    {
      buffer[idx] := v;
    }

    /**
     * `copy(other)` as written: `resize(0)`, `reserve(other capacity)`,
     * `resize(other length)`, then element-wise assignment. When other is
     * this array, the first step has already set the length being copied
     * to 0, so self-assignment empties the array.
     */
    method Copy(other: Array<T>)
      requires Valid() && other.Valid() && other.Capacity() < HalfSize
      requires other != this ==> other.buffer != buffer
      modifies this, buffer
      ensures Valid()
      ensures other == this ==> Contents() == []
      ensures other != this ==> Contents() == old(other.Contents())
    {
      Resize(0);
      Reserve(other.buffer.Length);
      Resize(other.length);
      var i := 0;
      while i < length
        invariant Valid() && i <= length && length == other.length
        invariant buffer == old(buffer) || fresh(buffer)
        invariant other != this ==> other.buffer != buffer && other.buffer[..] == old(other.buffer[..])
        invariant buffer[..i] == other.buffer[..i]
        invariant other == this ==> length == 0
      {
        buffer[i] := other.buffer[i];
        i := i + 1;
      }
    }

    /** `copy` guarded against self-assignment: always an equal array. */
    method CopyChecked(other: Array<T>)
      requires Valid() && other.Valid() && other.Capacity() < HalfSize
      requires other != this ==> other.buffer != buffer
      modifies this, buffer
      ensures Valid() && Contents() == old(other.Contents())
    {
      if other != this {
        Copy(other);
      }
    }

    /**
     * The old header's `operator=`: `Resize(rhs length)` then a block copy
     * of the elements. Self-assignment keeps the contents.
     */
    method Assign(other: Array<T>)
      requires Valid() && other.Valid() && other.length < HalfSize
      requires other != this ==> other.buffer != buffer
      modifies this, buffer
      ensures Valid() && Contents() == old(other.Contents())
    {
      ghost var source := other.Contents();
      Resize(other.length);
      var i := 0;
      while i < length
        invariant Valid() && i <= length && length == |source|
        invariant buffer == old(buffer) || fresh(buffer)
        invariant other != this ==> other.buffer != buffer && other.buffer[..] == old(other.buffer[..])
        invariant buffer[..i] == source[..i]
        invariant other == this ==> buffer[..length] == source
      {
        buffer[i] := other.buffer[i];
        i := i + 1;
      }
    }
  }

  /**
   * The `hk` array test: appending i % 10 for i below 100 leaves element i
   * equal to i % 10.
   */
  method AppendExample() returns (values: seq<nat>)
    ensures |values| == 100 && forall i :: 0 <= i < 100 ==> values[i] == i % 10
  {
    var a := new Array<nat>(Double);
    var i := 0;
    while i < 100
      invariant a.Valid() && fresh(a) && fresh(a.buffer) && |a.Contents()| == i <= 100
      invariant forall j :: 0 <= j < i ==> a.Contents()[j] == j % 10
    {
      var _ := a.Append(i % 10);
      i := i + 1;
    }
    values := a.Contents();
  }

  /** A hash map slot: the key's FNV hash and the stored value. */
  datatype Entry<T> = Entry(hash: bv32, val: T)

  /** `IndexOf(hash)`: the first slot holding the hash, if any. */
  function Find<T>(entries: seq<Entry<T>>, h: bv32): (r: Option<nat>)
    ensures r.Some? ==> r.value < |entries| && entries[r.value].hash == h &&
                        forall j :: 0 <= j < r.value ==> entries[j].hash != h
    ensures r.None? ==> forall j :: 0 <= j < |entries| ==> entries[j].hash != h
    decreases |entries|
  {
    if |entries| == 0 then None
    else if entries[|entries| - 1].hash != h then
      Find(entries[..|entries| - 1], h)
    else
      match Find(entries[..|entries| - 1], h)
      case Some(i) => Some(i)
      case None => Some(|entries| - 1)
  }

  /** No two slots hold the same hash. */
  predicate DistinctHashes<T>(entries: seq<Entry<T>>)
  {
    forall i, j :: 0 <= i < j < |entries| ==> entries[i].hash != entries[j].hash
  }

  /**
   * `Get(key)` on the slots: the slot holding the key's hash, appending
   * one with the value-initialised `zero` when there is none.
   */
  function GetSpec<T>(entries: seq<Entry<T>>, h: bv32, zero: T): (seq<Entry<T>>, nat)
  {
    match Find(entries, h)
    case Some(i) => (entries, i)
    case None => (entries + [Entry(h, zero)], |entries|)
  }

  /**
   * After `Get`, the hash is present at the slot returned, the table grew
   * by at most one slot holding the new hash, the earlier slots are
   * unchanged, and a table without repeated hashes still has none.
   */
  lemma GetFinds<T>(entries: seq<Entry<T>>, h: bv32, zero: T)
    ensures var (e, i) := GetSpec(entries, h, zero);
      Find(e, h) == Some(i) && e[..|entries|] == entries &&
      (|e| == |entries| || (|e| == |entries| + 1 && e[|entries|] == Entry(h, zero))) &&
      (DistinctHashes(entries) ==> DistinctHashes(e))
  {
    var (e, i) := GetSpec(entries, h, zero);
    if Find(entries, h).None? {
      assert e[..|entries|] == entries;
      assert e[..|e| - 1] == entries;
    }
  }

  /** A second `Get` of the same hash changes nothing and returns the same slot. */
  lemma GetIdempotent<T>(entries: seq<Entry<T>>, h: bv32, zero: T)
    ensures var (e, i) := GetSpec(entries, h, zero);
      GetSpec(e, h, zero) == (e, i)
  {
    GetFinds(entries, h, zero);
  }

  /**
   * Keys whose hashes collide address the same slot: the map keys by hash
   * alone.
   */
  lemma CollidingKeysShareSlot<T>(entries: seq<Entry<T>>, k1: seq<u8>, k2: seq<u8>, zero: T)
    requires 0 in k1 && 0 in k2 && FnvString(k1) == FnvString(k2)
    ensures var (e, i) := GetSpec(entries, FnvString(k1), zero);
      GetSpec(e, FnvString(k2), zero) == (e, i)
  {
    GetIdempotent(entries, FnvString(k1), zero);
  }

  class HashMap<T(0)> {
    var entries: seq<Entry<T>>
    /** The value `T()` of a freshly inserted slot. */
    const zero: T

    constructor (zero: T)
      ensures entries == [] && this.zero == zero
    {
      entries := [];
      this.zero := zero;
    }

    /** `IndexOf(hash)`: a linear scan for the first matching slot. */
    method IndexOf(h: bv32) returns (r: Option<nat>)
      ensures r == Find(entries, h)
    {
      var i := 0;
      while i < |entries|
        invariant i <= |entries| && forall j :: 0 <= j < i ==> entries[j].hash != h
      {
        if entries[i].hash == h {
          FindFirst(entries, h, i);
          return Some(i);
        }
        i := i + 1;
      }
      return None;
    }

    /** `Has(key)`: whether a slot holds the key's hash. */
    method Has(key: seq<u8>) returns (b: bool)
      requires 0 in key
      ensures b <==> exists j :: 0 <= j < |entries| && entries[j].hash == FnvString(key)
    {
      var h := FnvBytes(key[..CLength(key)]);
      var r := IndexOf(h);
      b := r.Some?;
    }

    /**
     * `Get(key)`: the index of the slot whose reference `Get` returns;
     * writes through that reference are `SetAt`.
     */
    method Get(key: seq<u8>) returns (idx: nat)
      requires 0 in key
      modifies this
      ensures (entries, idx) == GetSpec(old(entries), FnvString(key), zero)
    {
      var h := FnvBytes(key[..CLength(key)]);
      var r := IndexOf(h);
      if r.None? {
        entries := entries + [Entry(h, zero)];
        idx := |entries| - 1;
      } else {
        idx := r.value;
      }
    }

    /** Assignment through the reference `Get` returned. */
    method SetAt(idx: nat, v: T)
      requires idx < |entries|
      modifies this
      ensures entries == old(entries)[idx := Entry(old(entries)[idx].hash, v)]
    {
      entries := entries[idx := Entry(entries[idx].hash, v)];
    }
  }

  /** The first slot whose hash matches is what `Find` returns. */
  lemma {:induction false} FindFirst<T>(entries: seq<Entry<T>>, h: bv32, i: nat)
    requires i < |entries| && entries[i].hash == h
    requires forall j :: 0 <= j < i ==> entries[j].hash != h
    ensures Find(entries, h) == Some(i)
  {
  }
}
