/**
 The inline bit functions of `my_bit.h` on 32-bit words: the logarithm, the next power of two, the
 highest bit, and the reversal of a word through a table of reversed bytes.
 */
module Bits {

  // ---------- the logarithm, for words of any width ----------

  function Power(k: nat): (p: nat)
    ensures p > 0
  {
    if k == 0 then 1 else 2 * Power(k - 1)
  }

  function Log2(v: nat): nat {
    if v <= 1 then 0 else Log2(v / 2) + 1
  }

  lemma {:induction false} LogBounds(v: nat)
    requires v > 0
    ensures Power(Log2(v)) <= v < 2 * Power(Log2(v))
  {
    if v > 1 {
      LogBounds(v / 2);
    }
  }

  /** `my_bit_log2` */
  method BitLog2(v: nat) returns (bit: nat)
    ensures bit == Log2(v)
    ensures v > 0 ==> Power(bit) <= v < 2 * Power(bit)
  {
    bit := 0;
    var value := v;
    while value > 1
      invariant bit + Log2(value) == Log2(v)
    {
      value, bit := value / 2, bit + 1;
    }
    if v > 0 {
      LogBounds(v);
    }
  }

  lemma {:induction false} PowersGrow(j: nat, k: nat)
    requires j < k
    ensures 2 * Power(j) <= Power(k)
  {
    if j < k - 1 {
      PowersGrow(j, k - 1);
    }
  }

  ghost predicate IsLeastExponent(k: nat, v: nat) {
    v <= Power(k) && forall j :: 0 <= j < k ==> Power(j) < v
  }

  /**
   Its header comment asks for the least exponent that reaches the value: that is this one only for
   powers of two (and 0, which exponent 0 reaches); for every other value it is the next one.
   */
  lemma Log2MeetsItsComment(v: nat)
    ensures IsLeastExponent(Log2(v), v) <==> v == 0 || v == Power(Log2(v))
    ensures v > 0 && v != Power(Log2(v)) ==> IsLeastExponent(Log2(v) + 1, v)
  {
    var k := Log2(v);
    if v > 0 {
      LogBounds(v);
      forall j | 0 <= j < k ensures Power(j) < v {
        PowersGrow(j, k);
      }
    }
  }

  // ---------- words of 32 bits ----------

  /** The number that a word stands for. */
  function Value(v: bv32): nat
    decreases v
  {
    if v == 0 then 0 else 2 * Value(v >> 1) + if v & 1 == 1 then 1 else 0
  }

  predicate IsPower(p: bv32) {
    p != 0 && p & (p - 1) == 0
  }

  ghost predicate IsLeastPower(p: bv32, v: bv32) {
    IsPower(p) && v <= p && forall q: bv32 :: IsPower(q) && v <= q ==> p <= q
  }

  /** The power of two and all the bits below it. */
  function UpTo(p: bv32): bv32 {
    p | (p - 1)
  }

  /** The highest power of two in a word. */
  predicate IsHighest(p: bv32, v: bv32) {
    IsPower(p) && v & !(p - 1) == p
  }

  /** The word lies between its highest power of two and the next one. */
  lemma HighestBounds(p: bv32, v: bv32)
    requires IsHighest(p, v)
    ensures p <= v && v <= UpTo(p)
  {
  }

  /** Every bit below the highest one filled in. */
  function Smear(v: bv32): bv32 {
    var v := v | (v >> 1);
    var v := v | (v >> 2);
    var v := v | (v >> 4);
    var v := v | (v >> 8);
    v | (v >> 16)
  }

  lemma SmearFillsBelow(v: bv32, p: bv32)
    requires IsHighest(p, v)
    ensures Smear(v) == UpTo(p)
  {
  }

  lemma DoubledIsLeast(v: bv32, p: bv32)
    requires v < 0x8000_0000 && IsHighest(p, v)
    ensures IsLeastPower(p << 1, v + 1)
  {
  }

  lemma SmearIsNextPower(v: bv32, p: bv32)
    requires v < 0x8000_0000 && IsHighest(p, v)
    ensures Smear(v) + 1 == p << 1
  {
  }

  /** The highest power of two in a word is the top bit of the filled-in word. */
  function Top(v: bv32): bv32 {
    Smear(v) ^ (Smear(v) >> 1)
  }

  lemma TopIsHighest(v: bv32)
    requires v != 0
    ensures IsHighest(Top(v), v)
  {
  }

  lemma HalfOfHighest(v: bv32, p: bv32)
    requires v > 1 && IsHighest(p, v)
    ensures IsHighest(p >> 1, v >> 1) && UpTo(p >> 1) == p - 1 && p & 1 == 0 && p > 1
  {
  }

  lemma HighestOfOne(p: bv32)
    requires IsHighest(p, 1)
    ensures p == 1
  {
  }

  /** A word without its highest power of two. */
  predicate IsRest(r: bv32, v: bv32, p: bv32) {
    IsHighest(p, v) && r == v & (p - 1)
  }

  lemma HalfOfRest(v: bv32, p: bv32, r: bv32)
    requires v > 1 && IsRest(r, v, p)
    ensures IsRest(r >> 1, v >> 1, p >> 1) && r & 1 == v & 1 && p & 1 == 0
  {
  }

  lemma RestOfOne(v: bv32, p: bv32, r: bv32)
    requires v == 1 && IsRest(r, v, p)
    ensures Value(r) == Value(v) - Value(p)
  {
    assert p == 1 && r == 0;
  }

  lemma ValueStep(v: bv32)
    ensures Value(v) == 2 * Value(v >> 1) + if v & 1 == 1 then 1 else 0
  {
  }

  lemma ValueAtLeast(v: bv32)
    ensures Value(v) == 0 <==> v == 0
    ensures Value(v) <= 1 <==> v <= 1
    ensures Value(1) == 1
  {
    ValueStep(v);
    ValueStep(1);
    assert v == 0 || v == 1 || v >> 1 != 0;
  }

  /** The highest power of two in a word is two to its logarithm. */
  lemma {:induction false} ValueOfHighest(v: bv32, p: bv32)
    requires v != 0 && IsHighest(p, v)
    ensures Value(p) == Power(Log2(Value(v)))
    decreases v
  {
    ValueAtLeast(v);
    if v > 1 {
      HalfOfHighest(v, p);
      ValueOfHighest(v >> 1, p >> 1);
      ValueStep(v);
      ValueStep(p);
    } else {
      assert v == 1;
      HighestOfOne(p);
    }
  }

  /** It stands for that much less. */
  lemma {:induction false} ValueOfRest(v: bv32, p: bv32, r: bv32)
    requires v != 0 && IsRest(r, v, p)
    ensures Value(r) == Value(v) - Value(p)
    decreases v
  {
    if v > 1 {
      HalfOfRest(v, p, r);
      ValueOfRest(v >> 1, p >> 1, r >> 1);
      ValueStep(v);
      ValueStep(p);
      ValueStep(r);
    } else {
      RestOfOne(v, p, r);
    }
  }

  lemma ValueDoubles(p: bv32)
    requires p < 0x8000_0000
    ensures Value(p << 1) == 2 * Value(p)
  {
    assert (p << 1) >> 1 == p && (p << 1) & 1 == 0;
  }

  /** The five steps that both functions below take. */
  method FillBelow(v: bv32) returns (w: bv32)
    ensures w == Smear(v)
  {
    w := v;
    w := w | (w >> 1);
    w := w | (w >> 2);
    w := w | (w >> 4);
    w := w | (w >> 8);
    w := w | (w >> 16);
  }

  /** `my_round_up_to_next_power`: beyond the largest power of two, and for 0, there is none and the
      result is 0. */
  method RoundUpToNextPower(v: bv32) returns (r: bv32)
    ensures if 1 <= v <= 0x8000_0000 then IsLeastPower(r, v) else r == 0
    ensures 2 <= v <= 0x8000_0000 ==> Value(r) == Power(Log2(Value(v - 1)) + 1)
  {
    r := FillBelow(v - 1);
    r := r + 1;
    NextPowerOf(v);
    if 2 <= v <= 0x8000_0000 {
      NextPowerIsPower(v - 1);
    }
  }

  lemma NextPowerIsPower(u: bv32)
    requires u != 0 && u < 0x8000_0000
    ensures Value(Smear(u) + 1) == Power(Log2(Value(u)) + 1)
  {
    var p := Top(u);
    TopIsHighest(u);
    SmearIsNextPower(u, p);
    NotTop(u, p);
    ValueDoubles(p);
    ValueOfHighest(u, p);
  }

  lemma NotTop(v: bv32, p: bv32)
    requires v < 0x8000_0000 && IsHighest(p, v)
    ensures p < 0x8000_0000
  {
  }

  lemma NextPowerOf(v: bv32)
    ensures if 1 <= v <= 0x8000_0000 then IsLeastPower(Smear(v - 1) + 1, v) else Smear(v - 1) + 1 == 0
  {
    var u := v - 1;
    assert v == u + 1;
    if u != 0 {
      var p := Top(u);
      TopIsHighest(u);
      if v == 0 || v > 0x8000_0000 {
        TopBit(u, p);
        SmearFillsBelow(u, p);
      } else {
        DoubledIsLeast(u, p);
        SmearIsNextPower(u, p);
      }
    }
  }

  lemma TopBit(v: bv32, p: bv32)
    requires v >= 0x8000_0000 && IsHighest(p, v)
    ensures UpTo(p) + 1 == 0
  {
  }

  lemma ClearedByMask(v: bv32, p: bv32)
    requires IsHighest(p, v)
    ensures IsRest(v & Smear(v >> 1), v, p)
  {
    if v > 1 {
      HalfOfHighest(v, p);
      SmearFillsBelow(v >> 1, p >> 1);
    }
  }

  /** `my_clear_highest_bit`: the word without its highest power of two, and as a number that much less. */
  method ClearHighestBit(v: bv32) returns (r: bv32)
    ensures v == 0 ==> r == 0
    ensures v != 0 ==> IsRest(r, v, Top(v)) && Value(r) == Value(v) - Power(Log2(Value(v)))
  {
    var w := FillBelow(v >> 1);
    r := v & w;
    if v != 0 {
      HighestCleared(v);
    }
  }

  lemma HighestCleared(v: bv32)
    requires v != 0
    ensures IsRest(v & Smear(v >> 1), v, Top(v))
    ensures Value(v & Smear(v >> 1)) == Value(v) - Power(Log2(Value(v)))
  {
    TopIsHighest(v);
    ClearedByMask(v, Top(v));
    RestValue(v, Top(v), v & Smear(v >> 1));
  }

  lemma RestValue(v: bv32, p: bv32, r: bv32)
    requires v != 0 && IsRest(r, v, p)
    ensures Value(r) == Value(v) - Power(Log2(Value(v)))
  {
    ValueOfRest(v, p, r);
    ValueOfHighest(v, p);
  }

  // ---------- reversal ----------

  predicate Bit(x: bv32, k: bv5) {
    (x >> k) & 1 == 1
  }

  /** A byte with its bits in the opposite order. */
  ghost predicate IsReversed(b: bv8, r: bv8) {
    && (b & 1 != 0 <==> r & 128 != 0) && (b & 2 != 0 <==> r & 64 != 0)
    && (b & 4 != 0 <==> r & 32 != 0) && (b & 8 != 0 <==> r & 16 != 0)
    && (b & 16 != 0 <==> r & 8 != 0) && (b & 32 != 0 <==> r & 4 != 0)
    && (b & 64 != 0 <==> r & 2 != 0) && (b & 128 != 0 <==> r & 1 != 0)
  }

  function At(table: seq<bv8>, b: bv8): bv8
    requires |table| == 256
  {
    table[b as int]
  }

  /** The table that `my_reverse_bits` reads, `_my_bits_reverse_table`. */
  ghost predicate Reverses(table: seq<bv8>) {
    |table| == 256 && forall b: bv8 :: IsReversed(b, At(table, b))
  }

  function ByteOf(key: bv32, k: nat): bv8
    requires k < 4
  {
    if k == 0 then (key & 255) as bv8
    else if k == 1 then ((key >> 8) & 255) as bv8
    else if k == 2 then ((key >> 16) & 255) as bv8
    else (key >> 24) as bv8
  }

  function Join(high: bv8, b: bv8, c: bv8, low: bv8): bv32 {
    ((high as bv32) << 24) | ((b as bv32) << 16) | ((c as bv32) << 8) | (low as bv32)
  }

  /** `my_reverse_bits`: each byte is looked up and put in the place opposite its own. */
  function ReverseBits(table: seq<bv8>, key: bv32): bv32
    requires |table| == 256
  {
    Join(At(table, ByteOf(key, 0)), At(table, ByteOf(key, 1)), At(table, ByteOf(key, 2)),
         At(table, ByteOf(key, 3)))
  }

  ghost predicate Mirrors(r: bv32, key: bv32) {
    && IsReversed(ByteOf(key, 0), ByteOf(r, 3)) && IsReversed(ByteOf(key, 1), ByteOf(r, 2))
    && IsReversed(ByteOf(key, 2), ByteOf(r, 1)) && IsReversed(ByteOf(key, 3), ByteOf(r, 0))
  }

  lemma JoinParts(high: bv8, b: bv8, c: bv8, low: bv8)
    ensures var key := Join(high, b, c, low);
            ByteOf(key, 0) == low && ByteOf(key, 1) == c && ByteOf(key, 2) == b && ByteOf(key, 3) == high
  {
  }

  lemma ReverseBitsMirrors(table: seq<bv8>, key: bv32)
    requires Reverses(table)
    ensures Mirrors(ReverseBits(table, key), key)
  {
    JoinParts(At(table, ByteOf(key, 0)), At(table, ByteOf(key, 1)), At(table, ByteOf(key, 2)),
              At(table, ByteOf(key, 3)));
  }

  lemma MirroredBit(r: bv32, key: bv32, k: bv5)
    requires Mirrors(r, key)
    ensures Bit(r, k) <==> Bit(key, 31 - k)
  {
  }

  lemma ReverseBitsTwice(table: seq<bv8>, key: bv32)
    requires Reverses(table)
    ensures ReverseBits(table, ReverseBits(table, key)) == key
  {
  }
}
