/** The packed bit sequence of include/RDIBitmap.h.

    Bits live eight to a byte in an array that may hold spare bits past the last one.  The abstract
    value of a bitmap is a sequence of booleans, one per addressable bit. */
module Bitmaps {

  const UINT_RANGE: nat := 0x1_0000_0000

  /** The mask with only bit `k` set; `k == 8` is the value at which the scanning loops move to the
      next byte. */
  function Mask(k: nat): bv16
    requires k <= 8
  {
    if k == 0 then 1 else Mask(k - 1) << 1
  }

  lemma MaskTable(k: nat)
    requires k <= 8
    ensures Mask(k) == if k == 0 then 0x01 else if k == 1 then 0x02 else if k == 2 then 0x04
                       else if k == 3 then 0x08 else if k == 4 then 0x10 else if k == 5 then 0x20
                       else if k == 6 then 0x40 else if k == 7 then 0x80 else 0x100
  {
  }

  predicate Hit(b: bv8, mask: bv16) {
    (b as bv16) & mask != 0
  }

  predicate Bit(b: bv8, k: nat)
    requires k < 8
  {
    Hit(b, Mask(k))
  }

  lemma MaskDoubles(k: nat)
    requires k < 8
    ensures Mask(k) << 1 == Mask(k + 1)
    ensures Mask(k + 1) == 0x100 <==> k == 7
  {
    MaskTable(k + 1);
  }

  lemma NextDivMod(o: nat)
    ensures o % 8 == 7 ==> (o + 1) % 8 == 0 && (o + 1) / 8 == o / 8 + 1
    ensures o % 8 != 7 ==> (o + 1) % 8 == o % 8 + 1 && (o + 1) / 8 == o / 8
  {
  }

  /** One step of a scanning loop: the mask is shifted, and starts over in the next byte once it
      leaves the low eight bits. */
  function NextCell(mask: bv16, index: nat, ghost o: nat): (cell: (bv16, nat))
    requires mask == Mask(o % 8) && index == o / 8
    ensures cell == (Mask((o + 1) % 8), (o + 1) / 8)
  {
    var k := o % 8;
    assert Mask(k) << 1 == Mask(k + 1) && (Mask(k + 1) == 0x100 <==> k == 7) by {
      MaskDoubles(k);
    }
    NextDivMod(o);
    var shifted := mask << 1;
    if shifted == 0x100 then (1, index + 1) else (shifted, index)
  }

  function WithBit(b: bv8, k: nat): bv8
    requires k < 8
  {
    MaskTable(k);
    b | (Mask(k) as bv8)
  }

  function WithoutBit(b: bv8, k: nat): bv8
    requires k < 8
  {
    MaskTable(k);
    b & !(Mask(k) as bv8)
  }

  lemma BitAfterSet(b: bv8, k: nat, j: nat)
    requires k < 8 && j < 8
    ensures Bit(WithBit(b, k), j) <==> j == k || Bit(b, j)
  {
    MaskTable(k);
    MaskTable(j);
    var m, n := Mask(k), Mask(j);
    assert m & n == if j == k then m else 0;
  }

  lemma BitAfterClear(b: bv8, k: nat, j: nat)
    requires k < 8 && j < 8
    ensures Bit(WithoutBit(b, k), j) <==> j != k && Bit(b, j)
  {
    MaskTable(k);
    MaskTable(j);
    var m, n := Mask(k), Mask(j);
    assert m & n == if j == k then m else 0;
  }

  /** The unsigned test that guards both range operations: `offset + size - 1` wraps around. */
  predicate RangeGuard(offset: nat, size: nat, nbit: nat) {
    (offset + size - 1) % UINT_RANGE < nbit
  }

  /** The comment on the range operations promises that a range past the end alters nothing.  The
      guard keeps that promise exactly as long as the 32-bit sum does not wrap around. */
  lemma RangeGuardMeansInside(offset: nat, size: nat, nbit: nat)
    requires offset < UINT_RANGE && 0 < size <= UINT_RANGE && nbit < UINT_RANGE
    ensures (RangeGuard(offset, size, nbit) <==> offset + size <= nbit) <==> !WrapsInside(offset, size, nbit)
  {
  }

  /** The end of the range, taken modulo 2^32, falls on the bitmap although the range does not fit. */
  predicate WrapsInside(offset: nat, size: nat, nbit: nat) {
    UINT_RANGE < offset + size <= UINT_RANGE + nbit
  }

  /** A range of two bits from the last 32-bit offset on passes the guard of an eight-bit bitmap. */
  lemma WrappingRange()
    ensures WrapsInside(0xFFFF_FFFF, 2, 8) && RangeGuard(0xFFFF_FFFF, 2, 8)
  {
  }

  /** The first `n` flags are the first `n` packed bits. */
  ghost predicate Packs(bytes: seq<bv8>, flags: seq<bool>, n: nat)
    requires n <= |flags| && n <= 8 * |bytes|
  {
    n == 0 || (Packs(bytes, flags, n - 1) && flags[n - 1] == Bit(bytes[(n - 1) / 8], (n - 1) % 8))
  }

  lemma {:induction false} PacksAll(bytes: seq<bv8>, flags: seq<bool>, n: nat)
    requires n <= |flags| && n <= 8 * |bytes|
    ensures Packs(bytes, flags, n) <==> forall i | 0 <= i < n :: flags[i] == Bit(bytes[i / 8], i % 8)
  {
    if n > 0 {
      PacksAll(bytes, flags, n - 1);
    }
  }

  lemma {:induction false} PacksAt(bytes: seq<bv8>, flags: seq<bool>, n: nat, i: nat)
    requires i < n <= |flags| && n <= 8 * |bytes|
    requires Packs(bytes, flags, n)
    ensures flags[i] == Bit(bytes[i / 8], i % 8)
  {
    if i < n - 1 {
      PacksAt(bytes, flags, n - 1, i);
    }
  }

  /** How many of the first `n` flags are set. */
  function CountTrue(flags: seq<bool>, n: nat): nat
    requires n <= |flags|
  {
    if n == 0 then 0 else CountTrue(flags, n - 1) + if flags[n - 1] then 1 else 0
  }

  lemma {:induction false} CountTrueIsZero(flags: seq<bool>, n: nat)
    requires n <= |flags|
    ensures CountTrue(flags, n) == 0 <==> forall i | 0 <= i < n :: !flags[i]
  {
    if n > 0 {
      CountTrueIsZero(flags, n - 1);
    }
  }

  lemma {:induction false} CountTrueIsSize(flags: seq<bool>, n: nat)
    requires n <= |flags|
    ensures CountTrue(flags, n) == |set i: nat | i < n && flags[i]|
  {
    var now := set i: nat | i < n && flags[i];
    if n == 0 {
      assert now == {};
    } else {
      CountTrueIsSize(flags, n - 1);
      var before := set i: nat | i < n - 1 && flags[i];
      assert now == if flags[n - 1] then before + {n - 1} else before;
    }
  }

  lemma PacksUniform(bytes: seq<bv8>, byte: bv8, flags: seq<bool>, n: nat)
    requires n <= |flags| && n <= 8 * |bytes|
    requires byte == 0 || byte == 0xff
    requires forall i | 0 <= i < |bytes| :: bytes[i] == byte
    requires forall i | 0 <= i < n :: flags[i] == (byte == 0xff)
    ensures Packs(bytes, flags, n)
  {
    PacksAll(bytes, flags, n);
    forall i | 0 <= i < n
      ensures flags[i] == Bit(bytes[i / 8], i % 8)
    {
      MaskTable(i % 8);
    }
  }

  lemma {:induction false} PacksByPrefix(before: seq<bv8>, after: seq<bv8>, flags: seq<bool>, n: nat)
    requires n <= |flags| && n <= 8 * |before|
    requires before <= after
    requires Packs(before, flags, n)
    ensures Packs(after, flags, n)
  {
    if n > 0 {
      PacksByPrefix(before, after, flags, n - 1);
    }
  }

  lemma {:induction false} PacksOneChange(before: seq<bv8>, after: seq<bv8>, flags: seq<bool>, n: nat, i: nat,
                                          value: bool)
    requires i < |flags| && n <= |flags| <= 8 * |before|
    requires Packs(before, flags, n)
    requires after == before[i / 8 := if value then WithBit(before[i / 8], i % 8) else WithoutBit(before[i / 8], i % 8)]
    ensures Packs(after, flags[i := value], n)
  {
    if n > 0 {
      PacksOneChange(before, after, flags, n - 1, i, value);
      if (n - 1) / 8 == i / 8 {
        BitAfterSet(before[i / 8], i % 8, (n - 1) % 8);
        BitAfterClear(before[i / 8], i % 8, (n - 1) % 8);
      }
    }
  }

  /** What a range operation leaves behind: the range painted when the guard lets it through. */
  function Painted(flags: seq<bool>, offset: nat, size: nat, value: bool): (r: seq<bool>)
    ensures |r| == |flags|
  {
    seq(|flags|, i requires 0 <= i < |flags| =>
      if offset + size <= |flags| && offset <= i < offset + size then value else flags[i])
  }

  lemma PaintedOutside(flags: seq<bool>, offset: nat, size: nat, value: bool)
    ensures size == 0 || offset + size > |flags| ==> Painted(flags, offset, size, value) == flags
    ensures Painted(flags, offset, 0, value) == flags
  {
  }

  class Bitmap {
    var bits: array<bv8>
    var nbit: nat
    var size: nat
    ghost var flags: seq<bool>  // the abstract value, one flag per addressable bit

    ghost predicate Shaped()
      reads this
    {
      bits.Length == size && nbit < 8 * size && nbit < UINT_RANGE
    }

    ghost predicate Valid()
      reads this, bits
    {
      Shaped() && |flags| == nbit && Packs(bits[..], flags, nbit)
    }

    constructor (numBits: nat)
      requires numBits < UINT_RANGE
      ensures Valid() && fresh(bits)
      ensures nbit == numBits && flags == seq(numBits, i => false)
    {
      nbit, size := numBits, numBits / 8 + 1;
      bits := new bv8[numBits / 8 + 1];
      new;
      ClearAll();
    }

    /** Assignment keeps the larger buffer when the source fits in it. */
    method Assign(other: Bitmap)
      requires Valid() && other.Valid()
      modifies this, bits
      ensures Valid() && (bits == old(bits) || fresh(bits))
      ensures nbit == old(other.nbit) && flags == old(other.flags)
    {
      ghost var before, count := other.bits[..], other.nbit;
      if size < other.size {
        nbit, size := other.nbit, other.size;
        bits := new bv8[other.size];
      } else {
        nbit := other.nbit;
      }
      flags := other.flags;
      var i := 0;
      while i < other.size
        invariant 0 <= i <= other.size <= size == bits.Length && other.size == |before| == other.bits.Length
        invariant forall j | i <= j < |before| :: other.bits[j] == before[j]
        invariant forall j | 0 <= j < i :: bits[j] == before[j]
        modifies bits
      {
        bits[i] := other.bits[i];
        i := i + 1;
      }
      PacksByPrefix(before, bits[..], flags, count);
    }

    method SetAll()
      requires Shaped()
      modifies bits, `flags
      ensures Valid() && flags == seq(nbit, i => true)
    {
      for i := 0 to size
        invariant forall j | 0 <= j < i :: bits[j] == 0xff
      {
        bits[i] := 0xff;
      }
      flags := seq(nbit, i => true);
      PacksUniform(bits[..], 0xff, flags, nbit);
    }

    method ClearAll()
      requires Shaped()
      modifies bits, `flags
      ensures Valid() && flags == seq(nbit, i => false)
    {
      for i := 0 to size
        invariant forall j | 0 <= j < i :: bits[j] == 0
      {
        bits[i] := 0;
      }
      flags := seq(nbit, i => false);
      PacksUniform(bits[..], 0, flags, nbit);
    }

    method IsSet(offset: nat) returns (r: bool)
      requires Valid()
      ensures r <==> offset < nbit && flags[offset]
    {
      if offset < nbit {
        PacksAt(bits[..], flags, nbit, offset);
      }
      r := if offset >= nbit then false else Bit(bits[offset / 8], offset % 8);
    }

    method IsClear(offset: nat) returns (r: bool)
      requires Valid()
      ensures r <==> offset < nbit && !flags[offset]
    {
      if offset < nbit {
        PacksAt(bits[..], flags, nbit, offset);
      }
      r := if offset >= nbit then false else !Bit(bits[offset / 8], offset % 8);
    }

    method SetRange(offset: nat, count: nat)
      requires Valid()
      requires offset < UINT_RANGE && count < UINT_RANGE && (count > 0 ==> !WrapsInside(offset, count, nbit))
      modifies bits, `flags
      ensures Valid() && flags == Painted(old(flags), offset, count, true)
      ensures forall i | 0 <= i < nbit ::
                flags[i] == if offset <= i < offset + count <= nbit then true else old(flags)[i]
      ensures count == 1 && offset < nbit ==> flags == old(flags)[offset := true]
    {
      PaintedOutside(flags, offset, count, true);
      if count > 0 {
        RangeGuardMeansInside(offset, count, nbit);
      }
      if RangeGuard(offset, count, nbit) {
        var o: nat, s: nat := offset, count;
        while s > 0
          invariant o + s == offset + count && offset <= o
          invariant Valid() && (s > 0 ==> o + s <= nbit)
          invariant flags == Painted(old(flags), offset, o - offset, true)
        {
          ghost var before := bits[..];
          bits[o / 8] := WithBit(bits[o / 8], o % 8);
          PacksOneChange(before, bits[..], flags, nbit, o, true);
          flags := flags[o := true];
          o, s := o + 1, s - 1;
        }
      }
    }

    method ClearRange(offset: nat, count: nat)
      requires Valid()
      requires offset < UINT_RANGE && count < UINT_RANGE && (count > 0 ==> !WrapsInside(offset, count, nbit))
      modifies bits, `flags
      ensures Valid() && flags == Painted(old(flags), offset, count, false)
      ensures forall i | 0 <= i < nbit ::
                flags[i] == if offset <= i < offset + count <= nbit then false else old(flags)[i]
      ensures count == 1 && offset < nbit ==> flags == old(flags)[offset := false]
    {
      PaintedOutside(flags, offset, count, false);
      if count > 0 {
        RangeGuardMeansInside(offset, count, nbit);
      }
      if RangeGuard(offset, count, nbit) {
        var o: nat, s: nat := offset, count;
        while s > 0
          invariant o + s == offset + count && offset <= o
          invariant Valid() && (s > 0 ==> o + s <= nbit)
          invariant flags == Painted(old(flags), offset, o - offset, false)
        {
          ghost var before := bits[..];
          bits[o / 8] := WithoutBit(bits[o / 8], o % 8);
          PacksOneChange(before, bits[..], flags, nbit, o, false);
          flags := flags[o := false];
          o, s := o + 1, s - 1;
        }
      }
    }

    /** The scan for the first bit with the wanted value at or after `offset`; -1 when there is none. */
    method FirstSet(offset: nat) returns (r: int)
      requires Valid()
      ensures r == -1 ==> forall j | offset <= j < nbit :: !flags[j]
      ensures r != -1 ==> offset <= r < nbit && flags[r] && forall j | offset <= j < r :: !flags[j]
    {
      var o, mask, index := offset, Mask(offset % 8), offset / 8;
      while o < nbit
        invariant offset <= o && mask == Mask(o % 8) && index == o / 8
        invariant forall j | offset <= j < o && j < nbit :: !flags[j]
      {
        PacksAt(bits[..], flags, nbit, o);
        if Hit(bits[index], mask) {
          return o;
        }
        var cell := NextCell(mask, index, o);
        mask, index, o := cell.0, cell.1, o + 1;
      }
      return -1;
    }

    method FirstClear(offset: nat) returns (r: int)
      requires Valid()
      ensures r == -1 ==> forall j | offset <= j < nbit :: flags[j]
      ensures r != -1 ==> offset <= r < nbit && !flags[r] && forall j | offset <= j < r :: flags[j]
    {
      var o, mask, index := offset, Mask(offset % 8), offset / 8;
      while o < nbit
        invariant offset <= o && mask == Mask(o % 8) && index == o / 8
        invariant forall j | offset <= j < o && j < nbit :: flags[j]
      {
        PacksAt(bits[..], flags, nbit, o);
        if !Hit(bits[index], mask) {
          return o;
        }
        var cell := NextCell(mask, index, o);
        mask, index, o := cell.0, cell.1, o + 1;
      }
      return -1;
    }

    method NumSet() returns (nset: nat)
      requires Valid()
      ensures nset == CountTrue(flags, nbit) == |set i: nat | i < nbit && flags[i]|
    {
      CountTrueIsSize(flags, nbit);
      nset := 0;
      var mask, index, left := Mask(0), 0, nbit;
      ghost var o := 0;
      while left > 0
        invariant 0 <= left <= nbit && o == nbit - left
        invariant mask == Mask(o % 8) && index == o / 8
        invariant nset == CountTrue(flags, o)
      {
        PacksAt(bits[..], flags, nbit, o);
        nset := nset + if Hit(bits[index], mask) then 1 else 0;
        var cell := NextCell(mask, index, o);
        mask, index := cell.0, cell.1;
        left, o := left - 1, o + 1;
      }
    }
  }
}
