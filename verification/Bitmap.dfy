/**
 The bitmaps of `my_bitmap.h` as sets of bit numbers. A bitmap keeps its bits in 32-bit words that are
 reached byte by byte; the bits of the last word beyond the bitmap's size are padding.
 */
module Bitmap {

  /** The bit of a byte that stands for bit number k. */
  function One(k: nat): bv8
    requires k < 8
  {
    if k == 0 then 1 else if k == 1 then 2 else if k == 2 then 4 else if k == 3 then 8
    else if k == 4 then 16 else if k == 5 then 32 else if k == 6 then 64 else 128
  }

  lemma OneIsShifted(k: nat)
    requires k < 7
    ensures One(0) == 1 && One(k + 1) == One(k) << 1
  {
  }

  predicate Has(b: bv8, k: nat)
    requires k < 8
  {
    b & One(k) != 0
  }

  lemma OnesApart(k: nat, j: nat)
    requires k < 8 && j < 8
    ensures One(j) & (One(j) - 1) == 0 && One(j) != 0 && (One(k) & One(j) == if k == j then One(j) else 0)
  {
  }

  lemma MaskChanges(b: bv8, m: bv8, n: bv8)
    requires n & (n - 1) == 0 && n != 0
    ensures (b | m) & n != 0 <==> b & n != 0 || m & n != 0
    ensures (b ^ m) & n != 0 <==> (b & n != 0) != (m & n != 0)
    ensures (b & !m) & n != 0 <==> b & n != 0 && m & n == 0
  {
  }

  lemma MaskOne(b: bv8, m: bv8, n: bv8, same: bool)
    requires n & (n - 1) == 0 && n != 0 && m & n == if same then n else 0
    ensures (b | m) & n != 0 <==> b & n != 0 || same
    ensures (b ^ m) & n != 0 <==> (b & n != 0) != same
    ensures (b & !m) & n != 0 <==> b & n != 0 && !same
  {
  }

  lemma BitChanges(b: bv8, k: nat, j: nat)
    requires k < 8 && j < 8
    ensures Has(b | One(k), j) <==> Has(b, j) || j == k
    ensures Has(b ^ One(k), j) <==> Has(b, j) != (j == k)
    ensures Has(b & !One(k), j) <==> Has(b, j) && j != k
  {
    OnesApart(k, j);
    MaskOne(b, One(k), One(j), j == k);
  }

  lemma SameBits(b: bv8, c: bv8)
    requires forall k :: 0 <= k < 8 ==> (Has(b, k) <==> Has(c, k))
    ensures b == c
  {
    assert Has(b, 0) == Has(c, 0) && Has(b, 1) == Has(c, 1) && Has(b, 2) == Has(c, 2) && Has(b, 3) == Has(c, 3);
    assert Has(b, 4) == Has(c, 4) && Has(b, 5) == Has(c, 5) && Has(b, 6) == Has(c, 6) && Has(b, 7) == Has(c, 7);
  }

  /** Whether a bit of a buffer is set. */
  predicate IsSet(bytes: seq<bv8>, bit: nat)
    requires bit < 8 * |bytes|
  {
    Has(bytes[bit / 8], bit % 8)
  }

  /** The bits below n that are set. */
  ghost function Members(bytes: seq<bv8>, n: nat): set<nat>
    requires n <= 8 * |bytes|
  {
    set bit: nat | bit < n && IsSet(bytes, bit)
  }

  /** The mask of a last word has exactly the padding bits. */
  ghost predicate CoversPadding(mask: seq<bv8>, n: nat, words: nat) {
    && |mask| == 4 && 0 < n && words == (n + 31) / 32
    && forall k :: 0 <= k < 32 ==> (IsSet(mask, k) <==> n <= 32 * (words - 1) + k)
  }

  /** A buffer with the mask set in its last word. */
  function Masked(bytes: seq<bv8>, mask: seq<bv8>): (r: seq<bv8>)
    requires |mask| == 4 <= |bytes|
    ensures |r| == |bytes|
  {
    var last := |bytes| - 4;
    seq(|bytes|, i requires 0 <= i < |bytes| => if i < last then bytes[i] else Or(bytes[i], mask[i - last]))
  }

  function Or(b: bv8, mask: bv8): bv8 {
    b | mask
  }

  lemma OrHas(b: bv8, mask: bv8, k: nat)
    requires k < 8
    ensures Has(Or(b, mask), k) <==> Has(b, k) || Has(mask, k)
  {
    OnesApart(k, k);
    MaskChanges(b, mask, One(k));
  }

  /** The bytes of the last word, masked up to some byte of it. */
  function MaskedUpTo(bytes: seq<bv8>, mask: seq<bv8>, k: nat): (r: seq<bv8>)
    requires |mask| == 4 <= |bytes| && k <= 4
    ensures |r| == |bytes| && forall i :: |bytes| - 4 + k <= i < |bytes| ==> r[i] == bytes[i]
  {
    if k == 0 then bytes
    else
      var at := |bytes| - 4 + k - 1;
      MaskedUpTo(bytes, mask, k - 1)[at := Or(bytes[at], mask[k - 1])]
  }

  lemma {:induction false} MaskedUpToIs(bytes: seq<bv8>, mask: seq<bv8>, k: nat)
    requires |mask| == 4 <= |bytes| && k <= 4
    ensures forall i :: 0 <= i < |bytes| - 4 + k ==> MaskedUpTo(bytes, mask, k)[i] == Masked(bytes, mask)[i]
    ensures k == 4 ==> MaskedUpTo(bytes, mask, k) == Masked(bytes, mask)
  {
    if k > 0 {
      MaskedUpToIs(bytes, mask, k - 1);
    }
  }

  /** Bit numbers count on from one byte to the next. */
  lemma BitOfTail(bytes: seq<bv8>, last: nat, bit: nat)
    requires last <= |bytes| && 8 * last <= bit < 8 * |bytes|
    ensures bit / 8 >= last && (bit - 8 * last) / 8 == bit / 8 - last && (bit - 8 * last) % 8 == bit % 8
  {
  }

  lemma MaskedBit(bytes: seq<bv8>, mask: seq<bv8>, n: nat, bit: nat)
    requires CoversPadding(mask, n, |bytes| / 4) && |bytes| % 4 == 0 && bit < 8 * |bytes|
    ensures IsSet(Masked(bytes, mask), bit) <==> n <= bit || IsSet(bytes, bit)
  {
    var last := |bytes| - 4;
    if bit >= 8 * last {
      BitOfTail(bytes, last, bit);
      assert IsSet(mask, bit - 8 * last) <==> n <= bit;
      OrHas(bytes[bit / 8], mask[bit / 8 - last], bit % 8);
    }
  }

  /** With the padding set, two buffers are equal exactly when they hold the same set. */
  lemma MaskedEqualExactlyWhen(bytes: seq<bv8>, others: seq<bv8>, mask: seq<bv8>, n: nat)
    requires CoversPadding(mask, n, |bytes| / 4) && |bytes| % 4 == 0 && |others| == |bytes|
    ensures Masked(bytes, mask) == Masked(others, mask) <==> Members(bytes, n) == Members(others, n)
    ensures Members(Masked(bytes, mask), n) == Members(bytes, n)
  {
    var b, c := Masked(bytes, mask), Masked(others, mask);
    forall bit: nat | bit < n ensures IsSet(b, bit) == IsSet(bytes, bit) && IsSet(c, bit) == IsSet(others, bit) {
      MaskedBit(bytes, mask, n, bit);
      MaskedBit(others, mask, n, bit);
    }
    if b == c {
      assert forall bit :: bit in Members(bytes, n) <==> bit in Members(others, n);
    }
    if Members(bytes, n) == Members(others, n) {
      forall at | 0 <= at < |b| ensures b[at] == c[at] {
        forall k | 0 <= k < 8 ensures Has(b[at], k) <==> Has(c[at], k) {
          var bit := 8 * at + k;
          MaskedBit(bytes, mask, n, bit);
          MaskedBit(others, mask, n, bit);
          assert bit < n ==> (bit in Members(bytes, n) <==> bit in Members(others, n));
          assert IsSet(b, bit) == Has(b[at], k) && IsSet(c, bit) == Has(c[at], k);
        }
        SameBits(b[at], c[at]);
      }
    }
  }

  /** One bit of a buffer becomes `value`, and no other bit changes. */
  ghost predicate OnlyBit(was: seq<bv8>, now: seq<bv8>, bit: nat, value: bool)
    requires bit < 8 * |was| && |now| == |was|
  {
    forall other: nat :: other < 8 * |was| ==> IsSet(now, other) == if other == bit then value else IsSet(was, other)
  }

  lemma OneByteChanged(was: seq<bv8>, b: bv8, bit: nat, value: bool)
    requires bit < 8 * |was|
    requires forall j :: 0 <= j < 8 ==> Has(b, j) == if j == bit % 8 then value else Has(was[bit / 8], j)
    ensures OnlyBit(was, was[bit / 8 := b], bit, value)
  {
  }

  lemma OnlyMember(was: seq<bv8>, now: seq<bv8>, n: nat, bit: nat, value: bool)
    requires bit < n <= 8 * |was| && |now| == |was| && OnlyBit(was, now, bit, value)
    ensures Members(now, n) == if value then Members(was, n) + {bit} else Members(was, n) - {bit}
  {
  }

  class Map {
    const bytes: array<bv8>
    const bits: nat
    const lastWordMask: seq<bv8>

    constructor (bytes: array<bv8>, bits: nat, lastWordMask: seq<bv8>)
      requires CoversPadding(lastWordMask, bits, bytes.Length / 4) && bytes.Length % 4 == 0
      ensures Valid() && this.bytes == bytes && this.bits == bits
    {
      this.bytes, this.bits, this.lastWordMask := bytes, bits, lastWordMask;
    }

    ghost predicate Valid() {
      CoversPadding(lastWordMask, bits, bytes.Length / 4) && bytes.Length % 4 == 0
    }

    ghost function Set(): set<nat>
      requires Valid()
      reads bytes
    {
      Members(bytes[..], bits)
    }

    /** `bitmap_is_set` */
    predicate Contains(bit: nat)
      requires Valid() && bit < bits
      reads bytes
      ensures Contains(bit) <==> bit in Set()
    {
      bytes[bit / 8] & One(bit % 8) != 0
    }

    /** Writes one byte of the bitmap, of which bit number `bit` becomes `value`. */
    method Put(b: bv8, bit: nat, ghost value: bool)
      requires Valid() && bit < bits
      requires forall j :: 0 <= j < 8 ==> Has(b, j) == if j == bit % 8 then value else Has(bytes[bit / 8], j)
      modifies bytes
      ensures OnlyBit(old(bytes[..]), bytes[..], bit, value)
      ensures Set() == if value then old(Set()) + {bit} else old(Set()) - {bit}
    {
      ghost var was := bytes[..];
      bytes[bit / 8] := b;
      assert bytes[..] == was[bit / 8 := b];
      OneByteChanged(was, b, bit, value);
      OnlyMember(was, bytes[..], bits, bit, value);
    }

    /** `bitmap_set_bit` */
    method SetBit(bit: nat)
      requires Valid() && bit < bits
      modifies bytes
      ensures Set() == old(Set()) + {bit}
      ensures OnlyBit(old(bytes[..]), bytes[..], bit, true)
    {
      var b := bytes[bit / 8];
      forall j | 0 <= j < 8 { BitChanges(b, bit % 8, j); }
      Put(b | One(bit % 8), bit, true);
    }

    /** `bitmap_clear_bit` */
    method ClearBit(bit: nat)
      requires Valid() && bit < bits
      modifies bytes
      ensures Set() == old(Set()) - {bit}
      ensures OnlyBit(old(bytes[..]), bytes[..], bit, false)
    {
      var b := bytes[bit / 8];
      forall j | 0 <= j < 8 { BitChanges(b, bit % 8, j); }
      Put(b & !One(bit % 8), bit, false);
    }

    /** `bitmap_flip_bit` */
    method FlipBit(bit: nat)
      requires Valid() && bit < bits
      modifies bytes
      ensures Set() == if bit in old(Set()) then old(Set()) - {bit} else old(Set()) + {bit}
      ensures OnlyBit(old(bytes[..]), bytes[..], bit, bit !in old(Set()))
    {
      var b := bytes[bit / 8];
      forall j | 0 <= j < 8 { BitChanges(b, bit % 8, j); }
      Put(b ^ One(bit % 8), bit, bit !in Set());
    }

    /** Sets the padding bits of the last word. */
    method SetPadding()
      requires Valid()
      modifies bytes
      ensures bytes[..] == Masked(old(bytes[..]), lastWordMask)
    {
      ghost var was := bytes[..];
      PutMask(0, was);
      PutMask(1, was);
      PutMask(2, was);
      PutMask(3, was);
      MaskedUpToIs(was, lastWordMask, 4);
    }

    /** Sets the padding bits of one byte of the last word. */
    method PutMask(k: nat, ghost was: seq<bv8>)
      requires Valid() && k < 4 && |was| == bytes.Length && bytes[..] == MaskedUpTo(was, lastWordMask, k)
      modifies bytes
      ensures bytes[..] == MaskedUpTo(was, lastWordMask, k + 1)
    {
      var at := bytes.Length - 4 + k;
      bytes[at] := bytes[at] | lastWordMask[k];
    }
  }

  /** `bitmap_cmp`, for two bitmaps of one size, which may share their buffer. */
  method Compare(map1: Map, map2: Map) returns (same: bool)
    requires map1.Valid() && map2.Valid() && map1.bits == map2.bits
    modifies map1.bytes, map2.bytes
    ensures same <==> old(map1.Set()) == old(map2.Set())
    ensures map1.Set() == old(map1.Set()) && map2.Set() == old(map2.Set())
  {
    ghost var was1, was2 := map1.bytes[..], map2.bytes[..];
    map1.SetPadding();
    map2.SetPadding();
    same := map1.bytes[..] == map2.bytes[..];
    SameMask(map1.lastWordMask, map2.lastWordMask, map1.bits, map1.bytes.Length / 4);
    MaskedEqualExactlyWhen(was1, was2, map1.lastWordMask, map1.bits);
    MaskedEqualExactlyWhen(was2, was1, map1.lastWordMask, map1.bits);
    MaskedTwice(was1, map1.lastWordMask);
  }

  lemma SameMask(mask: seq<bv8>, other: seq<bv8>, n: nat, words: nat)
    requires CoversPadding(mask, n, words) && CoversPadding(other, n, words)
    ensures mask == other
  {
    forall at | 0 <= at < 4 ensures mask[at] == other[at] {
      forall k | 0 <= k < 8 ensures Has(mask[at], k) <==> Has(other[at], k) {
        assert IsSet(mask, 8 * at + k) <==> IsSet(other, 8 * at + k);
      }
      SameBits(mask[at], other[at]);
    }
  }

  lemma MaskedTwice(bytes: seq<bv8>, mask: seq<bv8>)
    requires |mask| == 4 <= |bytes|
    ensures Masked(Masked(bytes, mask), mask) == Masked(bytes, mask)
  {
  }
}
