/** A growable byte bitmap, and the set of bits it stands for. (controller/libxl.go, Bitmap) */
module Bitmap {

  /** 1 << k in a byte. */
  function Mask(k: int): bv8
    requires 0 <= k < 8
  {
    if k == 0 then 1 else if k == 1 then 2 else if k == 2 then 4 else if k == 3 then 8
    else if k == 4 then 16 else if k == 5 then 32 else if k == 6 then 64 else 128
  }

  predicate HasBit(b: bv8, k: int)
    requires 0 <= k < 8
  {
    b & Mask(k) != 0
  }

  lemma OrMask(b: bv8, j: int, k: int)
    requires 0 <= j < 8 && 0 <= k < 8
    ensures HasBit(b | Mask(j), k) <==> j == k || HasBit(b, k)
  {
  }

  lemma AndNotMask(b: bv8, j: int, k: int)
    requires 0 <= j < 8 && 0 <= k < 8
    ensures HasBit(b & !Mask(j), k) <==> j != k && HasBit(b, k)
  {
  }

  lemma AndByte(a: bv8, b: bv8, k: int)
    requires 0 <= k < 8
    ensures HasBit(a & b, k) <==> HasBit(a, k) && HasBit(b, k)
  {
  }

  lemma ZeroByte(b: bv8)
    ensures b == 0 <==> forall k :: 0 <= k < 8 ==> !HasBit(b, k)
  {
    if b != 0 {
      assert HasBit(b, 0) || HasBit(b, 1) || HasBit(b, 2) || HasBit(b, 3)
          || HasBit(b, 4) || HasBit(b, 5) || HasBit(b, 6) || HasBit(b, 7);
    }
  }

  // ------------------------------------------------------------ bytes as a set

  predicate Has(bytes: seq<bv8>, i: int) {
    0 <= i < 8 * |bytes| && HasBit(bytes[i / 8], i % 8)
  }

  function Bits(bytes: seq<bv8>): set<int> {
    set i | 0 <= i < 8 * |bytes| && Has(bytes, i)
  }

  /** The bit that is reached by number `bit`. Go divides towards zero but masks the two's
      complement, so the numbers -7 to -1 reach the bits 1 to 7; below that it panics. */
  function Slot(bit: int): (i: int)
    requires bit > -8
    ensures bit >= 0 ==> i == bit
    ensures i >= 0
  {
    if bit >= 0 then bit else bit + 8
  }

  function Slots(first: int, last: int): set<int>
    requires first > -8
  {
    set bit | first <= bit <= last :: Slot(bit)
  }

  lemma SlotsNext(first: int, i: int)
    requires -8 < first <= i
    ensures Slots(first, i) == Slots(first, i - 1) + {Slot(i)}
  {
  }

  lemma SlotsDone(first: int, i: int, last: int)
    requires first > -8 && (i == last || (i < first && last < first))
    ensures Slots(first, i) == Slots(first, last)
  {
  }

  /** Division as Go does it, towards zero. */
  function ByteOf(bit: int): int {
    if bit >= 0 then bit / 8 else -(-bit / 8)
  }

  lemma SlotPlace(bit: int)
    requires bit > -8
    ensures ByteOf(bit) == Slot(bit) / 8 && bit % 8 == Slot(bit) % 8
  {
  }

  /** make([]uint8, n) */
  function Zeros(n: nat): (r: seq<bv8>)
    ensures |r| == n && forall i :: 0 <= i < n ==> r[i] == 0
  {
    seq(n, _ => 0)
  }

  function Grown(bytes: seq<bv8>, len: nat): (r: seq<bv8>)
    ensures |r| == if len > |bytes| then len else |bytes|
  {
    if len > |bytes| then bytes + Zeros(len - |bytes|) else bytes
  }

  /** Bit 8 * i + k is worth 2^k in byte i. */
  lemma BitsInFigures(bytes: seq<bv8>, i: int)
    requires 0 <= i < |bytes|
    ensures bytes[i] as int ==
            (if 8 * i in Bits(bytes) then 1 else 0) + (if 8 * i + 1 in Bits(bytes) then 2 else 0) +
            (if 8 * i + 2 in Bits(bytes) then 4 else 0) + (if 8 * i + 3 in Bits(bytes) then 8 else 0) +
            (if 8 * i + 4 in Bits(bytes) then 16 else 0) + (if 8 * i + 5 in Bits(bytes) then 32 else 0) +
            (if 8 * i + 6 in Bits(bytes) then 64 else 0) + (if 8 * i + 7 in Bits(bytes) then 128 else 0)
  {
    ByteInFigures(bytes[i]);
    forall k | 0 <= k < 8 ensures 8 * i + k in Bits(bytes) <==> HasBit(bytes[i], k) {
      ByteHas(bytes, i, k);
    }
    assert 8 * i + 0 in Bits(bytes) <==> HasBit(bytes[i], 0);
  }

  lemma ByteInFigures(b: bv8)
    ensures b as int ==
            (if HasBit(b, 0) then 1 else 0) + (if HasBit(b, 1) then 2 else 0) +
            (if HasBit(b, 2) then 4 else 0) + (if HasBit(b, 3) then 8 else 0) +
            (if HasBit(b, 4) then 16 else 0) + (if HasBit(b, 5) then 32 else 0) +
            (if HasBit(b, 6) then 64 else 0) + (if HasBit(b, 7) then 128 else 0)
  {
    var parts: bv8 := (b & 1) + (b & 2) + (b & 4) + (b & 8) + (b & 16) + (b & 32) + (b & 64) + (b & 128);
    assert parts == b;
  }

  /** Growing a bitmap changes no bit. */
  lemma GrowthKeepsBits(bytes: seq<bv8>, len: nat)
    ensures Bits(Grown(bytes, len)) == Bits(bytes)
  {
    var r := Grown(bytes, len);
    ZeroByte(0);
    forall i | 0 <= i < 8 * |r| ensures Has(r, i) <==> Has(bytes, i) {
      assert r[i / 8] == if i / 8 < |bytes| then bytes[i / 8] else 0;
    }
  }

  lemma SetBits(bytes: seq<bv8>, i: int)
    requires 0 <= i < 8 * |bytes|
    ensures Bits(bytes[i / 8 := bytes[i / 8] | Mask(i % 8)]) == Bits(bytes) + {i}
  {
    var r := bytes[i / 8 := bytes[i / 8] | Mask(i % 8)];
    forall j | 0 <= j < 8 * |bytes| ensures Has(r, j) <==> j == i || Has(bytes, j) {
      OrMask(bytes[i / 8], i % 8, j % 8);
    }
  }

  lemma ClearBits(bytes: seq<bv8>, i: int)
    requires 0 <= i < 8 * |bytes|
    ensures Bits(bytes[i / 8 := bytes[i / 8] & !Mask(i % 8)]) == Bits(bytes) - {i}
  {
    var r := bytes[i / 8 := bytes[i / 8] & !Mask(i % 8)];
    forall j | 0 <= j < 8 * |bytes| ensures Has(r, j) <==> j != i && Has(bytes, j) {
      AndNotMask(bytes[i / 8], i % 8, j % 8);
    }
  }

  /** Bytewise conjunction up to the shorter length is intersection. */
  lemma AndBits(a: seq<bv8>, b: seq<bv8>, c: seq<bv8>, min: nat)
    requires min <= |a| && min <= |b| && (min == |a| || min == |b|) && min <= |c|
    requires forall i :: 0 <= i < min ==> c[i] == a[i] & b[i]
    requires forall i :: min <= i < |c| ==> c[i] == 0
    ensures Bits(c) == Bits(a) * Bits(b)
  {
    forall i | 0 <= i < 8 * |c| ensures Has(c, i) <==> Has(a, i) && Has(b, i) {
      ZeroByte(0);
      if i / 8 < min {
        AndByte(a[i / 8], b[i / 8], i % 8);
      }
    }
  }

  lemma ByteHas(bytes: seq<bv8>, i: int, k: int)
    requires 0 <= i < |bytes| && 0 <= k < 8
    ensures Has(bytes, 8 * i + k) <==> HasBit(bytes[i], k)
  {
    assert (8 * i + k) / 8 == i && (8 * i + k) % 8 == k;
  }

  lemma ZeroIfNoBits(bytes: seq<bv8>, i: int)
    requires Bits(bytes) == {} && 0 <= i < |bytes|
    ensures bytes[i] == 0
  {
    forall k | 0 <= k < 8 ensures !HasBit(bytes[i], k) {
      ByteHas(bytes, i, k);
      assert 8 * i + k !in Bits(bytes);
    }
    ZeroByte(bytes[i]);
  }

  lemma NoBitsIfZero(bytes: seq<bv8>)
    requires forall i :: 0 <= i < |bytes| ==> bytes[i] == 0
    ensures Bits(bytes) == {}
  {
    ZeroByte(0);
    forall j | 0 <= j < 8 * |bytes| ensures !Has(bytes, j) {
      assert bytes[j / 8] == 0;
    }
  }

  /** Bitmap.Test. */
  predicate TestIn(bytes: seq<bv8>, bit: int)
    requires bit > -8
    ensures TestIn(bytes, bit) <==> Slot(bit) in Bits(bytes)
  {
    SlotPlace(bit);
    if bit > |bytes| * 8 - 1 || bytes == [] then false else HasBit(bytes[ByteOf(bit)], bit % 8)
  }

  class Bitmap {
    var bitmap: seq<bv8>

    constructor ()
      ensures bitmap == []
    {
      bitmap := [];
    }

    function Max(): int
      reads this
    {
      |bitmap| * 8 - 1
    }

    /** Membership. */
    predicate Test(bit: int)
      requires bit > -8
      reads this
      ensures Test(bit) <==> Slot(bit) in Bits(bitmap)
    {
      TestIn(bitmap, bit)
    }

    /** Insertion, under any growth. */
    method Set(bit: int)
      requires bit > -8
      modifies this
      ensures Bits(bitmap) == old(Bits(bitmap)) + {Slot(bit)}
      ensures |bitmap| == if Slot(bit) / 8 < |old(bitmap)| then |old(bitmap)| else Slot(bit) / 8 + 1
    {
      SlotPlace(bit);
      var ibit := ByteOf(bit);
      GrowthKeepsBits(bitmap, ibit + 1);
      if ibit + 1 > |bitmap| {
        bitmap := bitmap + Zeros(ibit + 1 - |bitmap|);
      }
      SetBits(bitmap, Slot(bit));
      bitmap := bitmap[ibit := bitmap[ibit] | Mask(bit % 8)];
    }

    /** Union with an interval. */
    method SetRange(start: int, end: int)
      requires start > -8
      modifies this
      ensures Bits(bitmap) == old(Bits(bitmap)) + Slots(start, end)
    {
      var i := start;
      while i <= end
        invariant start <= i && (i <= end + 1 || i == start)
        invariant Bits(bitmap) == old(Bits(bitmap)) + Slots(start, i - 1)
      {
        Set(i);
        SlotsNext(start, i);
        i := i + 1;
      }
      SlotsDone(start, i - 1, end);
    }

    /** Removal. */
    method Clear(bit: int)
      requires bit > -8
      modifies this
      ensures Bits(bitmap) == old(Bits(bitmap)) - {Slot(bit)}
      ensures |bitmap| == |old(bitmap)|
    {
      SlotPlace(bit);
      if bit > Max() || bitmap == [] {
        return;
      }
      ClearBits(bitmap, Slot(bit));
      bitmap := bitmap[ByteOf(bit) := bitmap[ByteOf(bit)] & !Mask(bit % 8)];
    }

    /** Difference with an interval. */
    method ClearRange(start: int, end: int)
      requires start > -8
      modifies this
      ensures Bits(bitmap) == old(Bits(bitmap)) - Slots(start, end)
      ensures |bitmap| == |old(bitmap)|
    {
      var i := start;
      while i <= end
        invariant start <= i && (i <= end + 1 || i == start) && |bitmap| == |old(bitmap)|
        invariant Bits(bitmap) == old(Bits(bitmap)) - Slots(start, i - 1)
      {
        Clear(i);
        SlotsNext(start, i);
        i := i + 1;
      }
      SlotsDone(start, i - 1, end);
    }

    method IsEmpty() returns (empty: bool)
      ensures empty <==> Bits(bitmap) == {}
    {
      empty := EmptyBytes(bitmap);
    }

    /** Intersection, whatever the two lengths. */
    method And(b: Bitmap) returns (c: Bitmap)
      ensures fresh(c) && Bits(c.bitmap) == Bits(bitmap) * Bits(b.bitmap)
      ensures |c.bitmap| == if |bitmap| > |b.bitmap| then |bitmap| else |b.bitmap|
    {
      c := new Bitmap();
      c.bitmap := AndBytes(bitmap, b.bitmap);
    }
  }

  /** Emptiness of the set, not of the byte string. */
  method EmptyBytes(bytes: seq<bv8>) returns (empty: bool)
    ensures empty <==> Bits(bytes) == {}
  {
    for i := 0 to |bytes|
      invariant forall j :: 0 <= j < i ==> bytes[j] == 0
    {
      if bytes[i] != 0 {
        assert Bits(bytes) != {} by {
          if Bits(bytes) == {} {
            ZeroIfNoBits(bytes, i);
          }
        }
        return false;
      }
    }
    NoBitsIfZero(bytes);
    return true;
  }

  method AndBytes(a: seq<bv8>, b: seq<bv8>) returns (c: seq<bv8>)
    ensures Bits(c) == Bits(a) * Bits(b)
    ensures |c| == if |a| > |b| then |a| else |b|
  {
    var max, min;
    if |a| > |b| {
      max, min := |a|, |b|;
    } else {
      max, min := |b|, |a|;
    }
    c := Zeros(max);
    for i := 0 to min
      invariant |c| == max
      invariant forall j :: 0 <= j < i ==> c[j] == a[j] & b[j]
      invariant forall j :: i <= j < max ==> c[j] == 0
    {
      c := c[i := a[i] & b[i]];
    }
    AndBits(a, b, c, min);
  }

  /** For ordinary bit numbers the slots of a range are the range. */
  lemma SlotsOfRange(first: int, last: int)
    requires first >= 0
    ensures forall i :: i in Slots(first, last) <==> first <= i <= last
  {
    forall i ensures i in Slots(first, last) <==> first <= i <= last {
      if first <= i <= last {
        assert Slot(i) == i;
      }
    }
  }
}
