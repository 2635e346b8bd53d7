/** Statically sized bitmaps over a slice of a byte array (bitmap.c). */
module Bitmaps {

  type byte = bv8

  /** 1 << j within a byte. */
  function Mask(j: nat): byte
    requires j < 8
  {
    if j == 0 then 1 else if j == 1 then 2 else if j == 2 then 4 else if j == 3 then 8
    else if j == 4 then 16 else if j == 5 then 32 else if j == 6 then 64 else 128
  }

  predicate Bit(b: byte, j: nat)
    requires j < 8
  {
    b & Mask(j) != 0
  }

  /** b |= 1 << j. */
  function WithBit(b: byte, j: nat): byte
    requires j < 8
  {
    b | Mask(j)
  }

  /** b &= ~(1 << j). */
  function WithoutBit(b: byte, j: nat): byte
    requires j < 8
  {
    b & !Mask(j)
  }

  function ShiftedRight(b: byte, i: nat): byte
    requires i < 8
  {
    b >> i
  }

  lemma SetBit(b: byte, j: nat, k: nat)
    requires j < 8 && k < 8
    ensures Bit(WithBit(b, j), k) <==> Bit(b, k) || k == j
  {
  }

  lemma ClearBit(b: byte, j: nat, k: nat)
    requires j < 8 && k < 8
    ensures Bit(WithoutBit(b, j), k) <==> Bit(b, k) && k != j
  {
  }

  lemma ShiftBits(b: byte, i: nat)
    requires i < 8
    ensures ShiftedRight(b, i) & 1 == 0 <==> !Bit(b, i)
    ensures i == 0 ==> ShiftedRight(b, i) == b
  {
    if i == 0 {} else if i == 1 {} else if i == 2 {} else if i == 3 {}
    else if i == 4 {} else if i == 5 {} else if i == 6 {} else {}
  }

  lemma ShiftNext(b: byte, i: nat)
    requires i < 7
    ensures ShiftedRight(b, i) >> 1 == ShiftedRight(b, i + 1)
  {
    if i == 0 {} else if i == 1 {} else if i == 2 {} else if i == 3 {}
    else if i == 4 {} else if i == 5 {} else {}
  }

  lemma ZeroByte(b: byte)
    ensures b == 0 <==> forall j: nat :: j < 8 ==> !Bit(b, j)
  {
    if b != 0 {
      assert Bit(b, 0) || Bit(b, 1) || Bit(b, 2) || Bit(b, 3) || Bit(b, 4) || Bit(b, 5) || Bit(b, 6) || Bit(b, 7);
    }
  }

  lemma FullByte(b: byte)
    ensures b == 0xFF <==> forall j: nat :: j < 8 ==> Bit(b, j)
  {
    if b != 0xFF {
      assert !Bit(b, 0) || !Bit(b, 1) || !Bit(b, 2) || !Bit(b, 3) ||
             !Bit(b, 4) || !Bit(b, 5) || !Bit(b, 6) || !Bit(b, 7);
    }
  }

  /** A byte is determined by its bits. */
  lemma BitsDetermineByte(a: byte, b: byte)
    requires forall j: nat :: j < 8 ==> Bit(a, j) == Bit(b, j)
    ensures a == b
  {
    assert Bit(a, 0) == Bit(b, 0) && Bit(a, 1) == Bit(b, 1) && Bit(a, 2) == Bit(b, 2) && Bit(a, 3) == Bit(b, 3);
    assert Bit(a, 4) == Bit(b, 4) && Bit(a, 5) == Bit(b, 5) && Bit(a, 6) == Bit(b, 6) && Bit(a, 7) == Bit(b, 7);
  }

  /** lsb_set: the position of the lowest set bit of a nonzero byte. */
  method LsbSet(b: byte) returns (i: nat)
    requires b != 0
    ensures i < 8 && Bit(b, i)
    ensures forall j: nat :: j < i ==> !Bit(b, j)
  {
    hide Bit, ShiftedRight;
    ZeroByte(b);
    ghost var k: nat :| k < 8 && Bit(b, k);
    i := 0;
    var rest := b;
    ShiftBits(b, 0);
    while rest & 1 == 0
      invariant i <= k && rest == ShiftedRight(b, i)
      invariant rest & 1 == 0 <==> !Bit(b, i)
      invariant forall j: nat :: j < i ==> !Bit(b, j)
      decreases 8 - i
    {
      ShiftNext(b, i);
      ShiftBits(b, i + 1);
      i := i + 1;
      rest := rest >> 1;
    }
  }

  class Bitmap {
    const data: array<byte>
    const base: nat
    const maxExtent: nat

    /** The bytes of the slice: max_extent / 8 + 1. */
    function Bytes(): nat { maxExtent / 8 + 1 }

    predicate Valid() { base + Bytes() <= data.Length }

    /** Bit k of the slice. */
    predicate Has(k: nat)
      requires Valid() && k < 8 * Bytes()
      reads data
    {
      Bit(data[base + k / 8], k % 8)
    }

    /** bitmap_init: the slice becomes all zero, nothing else changes. */
    constructor (storage: array<byte>, base: nat, maxExtent: nat)
      requires base + maxExtent / 8 + 1 <= storage.Length
      modifies storage
      ensures Valid() && this.data == storage && this.base == base && this.maxExtent == maxExtent
      ensures forall j :: base <= j < base + Bytes() ==> storage[j] == 0
      ensures forall j :: 0 <= j < storage.Length && !(base <= j < base + Bytes()) ==> storage[j] == old(storage[j])
    {
      this.data, this.base, this.maxExtent := storage, base, maxExtent;
      new;
      forall j | base <= j < base + maxExtent / 8 + 1 {
        storage[j] := 0;
      }
    }

    /** bitmap_set. */
    method Set(idx: nat)
      requires Valid() && idx < 8 * Bytes()
      modifies data
      ensures forall k: nat :: k < 8 * Bytes() ==> (Has(k) <==> old(Has(k)) || k == idx)
      ensures forall j :: 0 <= j < data.Length && !(base <= j < base + Bytes()) ==> data[j] == old(data[j])
    {
      hide Bit, WithBit, WithoutBit;
      var was := data[base + idx / 8];
      data[base + idx / 8] := WithBit(was, idx % 8);
      forall k: nat | k < 8 * Bytes()
        ensures Has(k) <==> old(Has(k)) || k == idx
      {
        if k / 8 == idx / 8 { SetBit(was, idx % 8, k % 8); }
      }
    }

    /** bitmap_clear. */
    method Clear(idx: nat)
      requires Valid() && idx < 8 * Bytes()
      modifies data
      ensures forall k: nat :: k < 8 * Bytes() ==> (Has(k) <==> old(Has(k)) && k != idx)
      ensures forall j :: 0 <= j < data.Length && !(base <= j < base + Bytes()) ==> data[j] == old(data[j])
    {
      hide Bit, WithBit, WithoutBit;
      var was := data[base + idx / 8];
      data[base + idx / 8] := WithoutBit(was, idx % 8);
      forall k: nat | k < 8 * Bytes()
        ensures Has(k) <==> old(Has(k)) && k != idx
      {
        if k / 8 == idx / 8 { ClearBit(was, idx % 8, k % 8); }
      }
    }

    /** bitmap_isset. */
    method IsSet(idx: nat) returns (r: bool)
      requires Valid() && idx < 8 * Bytes()
      ensures r == Has(idx)
    {
      r := data[base + idx / 8] & Mask(idx % 8) != 0;
    }

    /** bitmap_first_set: the least set index, or -1 when no index up to max_extent is set. */
    method FirstSet() returns (idx: int)
      requires Valid()
      ensures -1 <= idx <= maxExtent
      ensures idx == -1 <==> forall k: nat :: k <= maxExtent ==> !Has(k)
      ensures idx >= 0 ==> Has(idx) && forall k: nat :: k < idx ==> !Has(k)
    {
      for i := 0 to maxExtent / 8 + 1
        invariant forall k: nat :: k < 8 * i ==> !Has(k)
      {
        ZeroByte(data[base + i]);
        if data[base + i] != 0 {
          var j := LsbSet(data[base + i]);
          idx := i * 8 + j;
          assert Has(idx) by { assert idx / 8 == i && idx % 8 == j; }
          forall k: nat | k < idx
            ensures !Has(k)
          {
            if k / 8 == i { assert k % 8 < j; }
          }
          if idx > maxExtent { idx := -1; }
          return;
        }
        forall k: nat | k < 8 * (i + 1)
          ensures !Has(k)
        {
          if k >= 8 * i { assert k / 8 == i; }
        }
      }
      idx := -1;
    }
  }
}
