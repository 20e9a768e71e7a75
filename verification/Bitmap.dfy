/** The kernel's bitmap: bits packed in bytes, and the first-fit search that skips past every run
    that turned out too short. */
module Bitmap {

  const MAX_SSIZE: nat := 0x7FFF_FFFF
  const NPOS: int := -1

  /** 1 << k in a byte. */
  function Mask(k: nat): bv8
    requires k < 8
  {
    match k
    case 0 => 0x01
    case 1 => 0x02
    case 2 => 0x04
    case 3 => 0x08
    case 4 => 0x10
    case 5 => 0x20
    case 6 => 0x40
    case 7 => 0x80
  }

  /** Bit k of a byte. */
  predicate Bit(b: bv8, k: nat)
    requires k < 8
  {
    b & Mask(k) != 0
  }

  /** A byte with bit k written. */
  function WithBit(b: bv8, k: nat, value: bool): bv8
    requires k < 8
  {
    if value then b | Mask(k) else b & !Mask(k)
  }

  /** Writing a bit changes that bit and no other. */
  lemma WithBitWritesOneBit(b: bv8, k: nat, value: bool, j: nat)
    requires k < 8 && j < 8
    ensures Bit(WithBit(b, k, value), j) == if j == k then value else Bit(b, j)
  {
  }

  /** A run of `size` bits equal to v starts at s. */
  ghost predicate RunAt(bits: seq<bool>, s: nat, size: nat, v: bool) {
    s + size <= |bits| && forall i :: s <= i < s + size ==> bits[i] == v
  }

  /** r is the least start of a run of at least one bit whose indices are all in range of ssize_t,
      and -1 says that there is none. */
  ghost predicate IsFirstRun(bits: seq<bool>, size: nat, v: bool, r: int) {
    && (r != NPOS ==>
          && size >= 1 && 0 <= r && r + size - 1 <= MAX_SSIZE
          && RunAt(bits, r, size, v)
          && forall s: nat :: s < r ==> !RunAt(bits, s, size, v))
    && (r == NPOS ==>
          forall s: nat :: size >= 1 && RunAt(bits, s, size, v) ==> s + size - 1 > MAX_SSIZE)
  }

  /** The search result is determined by the bits. */
  lemma FirstRunIsUnique(bits: seq<bool>, size: nat, v: bool, r: int, r': int)
    requires IsFirstRun(bits, size, v, r) && IsFirstRun(bits, size, v, r')
    ensures r == r'
  {
    if r != NPOS && r' != NPOS {
      assert RunAt(bits, r, size, v) && RunAt(bits, r', size, v);
    }
  }

  /** bits with `size` of them from r on set. */
  function Filled(bits: seq<bool>, r: nat, size: nat): seq<bool> {
    seq(|bits|, i requires 0 <= i < |bits| => bits[i] || r <= i < r + size)
  }

  class Bits {
    const data: array<bv8>

    /** bitmap_init over a fresh buffer of byteSize bytes. */
    constructor (byteSize: nat)
      requires byteSize * 8 < 0x1_0000_0000
      ensures fresh(data) && data.Length == byteSize && Valid()
      ensures forall i :: 0 <= i < |Values()| ==> !Values()[i]
    {
      data := new bv8[byteSize](_ => 0);
    }

    /** The bit count fits size_t. */
    predicate Valid() {
      data.Length * 8 < 0x1_0000_0000
    }

    ghost function Values(): (r: seq<bool>)
      reads data
      ensures |r| == data.Length * 8
    {
      seq(data.Length * 8, i requires 0 <= i < data.Length * 8 reads data => Bit(data[i / 8], i % 8))
    }

    method Get(index: nat) returns (r: bool)
      requires index < data.Length * 8
      ensures r == Values()[index]
    {
      r := Bit(data[index / 8], index % 8);
    }

    method Set(index: nat, value: bool)
      requires index < data.Length * 8
      modifies data
      ensures Values() == old(Values())[index := value]
    {
      hide Bit, WithBit;
      ghost var was := data[..];
      data[index / 8] := WithBit(data[index / 8], index % 8, value);
      forall i | 0 <= i < data.Length * 8
        ensures Bit(data[i / 8], i % 8) == if i == index then value else Bit(was[i / 8], i % 8)
      {
        if i / 8 == index / 8 {
          WithBitWritesOneBit(was[index / 8], index % 8, value, i % 8);
        }
      }
    }

    /** bitmap_find. */
    method Find(size: nat, value: bool) returns (r: int)
      requires Valid()
      ensures IsFirstRun(Values(), size, value, r)
    {
      hide Bit;
      var total := data.Length * 8;
      var start := 0;
      while start < total
        invariant forall s: nat :: s < start && size >= 1 ==> !RunAt(Values(), s, size, value)
        decreases total - start
      {
        var end := start;
        var hit := if end < total then Bit(data[end / 8], end % 8) else !value;
        while end < total && hit == value
          invariant start <= end <= total && (size >= 1 ==> end - start < size)
          invariant forall i :: start <= i < end ==> Values()[i] == value
          invariant hit == if end < total then Values()[end] else !value
        {
          end := end + 1;
          if end - start == size {
            if end - 1 > MAX_SSIZE || start > MAX_SSIZE {
              assert RunAt(Values(), start, size, value);
              return NPOS;
            }
            return start;
          }
          hit := if end < total then Bit(data[end / 8], end % 8) else !value;
        }
        forall s: nat | start <= s <= end && size >= 1
          ensures !RunAt(Values(), s, size, value)
        {
          assert end < total ==> s <= end < s + size;
        }
        start := end + 1;
      }
      r := NPOS;
    }

    /** bitmap_alloc: find a clear run and set exactly its bits. */
    method Alloc(size: nat) returns (r: int)
      requires Valid()
      modifies data
      ensures IsFirstRun(old(Values()), size, false, r)
      ensures Values() == if r == NPOS then old(Values()) else Filled(old(Values()), r, size)
      ensures forall i :: 0 <= i < |Values()| ==>
                (Values()[i] <==> old(Values())[i] || (r != NPOS && r <= i < r + size))
    {
      r := Find(size, false);
      if r != NPOS {
        for i := 0 to size
          invariant |Values()| == |old(Values())|
          invariant Values() == Filled(old(Values()), r, i)
        {
          Set(r + i, true);
        }
      }
    }
  }
}
