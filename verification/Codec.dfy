/**
 The integer codecs of `myisampack.h` (high byte first) and of the portable branch of `my_global.h`
 (low byte first). Each width has its own macros in both headers; here each is proved to be one and
 the same base-256 notation, and the round trips and the order are proved of that notation.
 */
module Codec {
  import opened Bytes

  // ---------- the notation ----------

  function Power(n: nat): (p: nat)
    ensures p > 0
  {
    if n == 0 then 1 else 256 * Power(n - 1)
  }

  /** The n low digits of a number, high digit first. */
  function High(v: nat, n: nat): (digits: seq<byte>)
    ensures |digits| == n
  {
    if n == 0 then [] else High(v / 256, n - 1) + [v % 256]
  }

  /** The n low digits of a number, low digit first. */
  function Low(v: nat, n: nat): (digits: seq<byte>)
    ensures |digits| == n
  {
    if n == 0 then [] else [v % 256] + Low(v / 256, n - 1)
  }

  function HighValue(digits: seq<byte>): nat {
    if digits == [] then 0 else 256 * HighValue(digits[..|digits| - 1]) + digits[|digits| - 1]
  }

  function LowValue(digits: seq<byte>): nat {
    if digits == [] then 0 else digits[0] + 256 * LowValue(digits[1..])
  }

  function Reversed(digits: seq<byte>): (r: seq<byte>)
    ensures |r| == |digits| && forall k :: 0 <= k < |r| ==> r[k] == digits[|r| - 1 - k]
  {
    seq(|digits|, k requires 0 <= k < |digits| => digits[|digits| - 1 - k])
  }

  lemma {:induction false} HighRoundTrip(v: nat, n: nat)
    requires v < Power(n)
    ensures HighValue(High(v, n)) == v
  {
    if n > 0 {
      HighRoundTrip(v / 256, n - 1);
      assert High(v, n)[..n - 1] == High(v / 256, n - 1);
    }
  }

  lemma {:induction false} LowRoundTrip(v: nat, n: nat)
    requires v < Power(n)
    ensures LowValue(Low(v, n)) == v
  {
    if n > 0 {
      LowRoundTrip(v / 256, n - 1);
    }
  }

  lemma {:induction false} HighBounds(digits: seq<byte>)
    ensures HighValue(digits) < Power(|digits|)
  {
    if digits != [] {
      HighBounds(digits[..|digits| - 1]);
    }
  }

  lemma {:induction false} LowBounds(digits: seq<byte>)
    ensures LowValue(digits) < Power(|digits|)
  {
    if digits != [] {
      LowBounds(digits[1..]);
    }
  }

  /** Every row of bytes is the notation of its value. */
  lemma {:induction false} ValueRoundTrip(digits: seq<byte>)
    ensures High(HighValue(digits), |digits|) == digits
  {
    if digits != [] {
      ValueRoundTrip(digits[..|digits| - 1]);
    }
  }

  /** One notation is the other one backwards. */
  lemma {:induction false} LowIsReversed(v: nat, n: nat)
    ensures Low(v, n) == Reversed(High(v, n))
  {
    if n > 0 {
      LowIsReversed(v / 256, n - 1);
    }
  }

  // ---------- order ----------

  /** The order in which `memcmp` puts two rows of one length. */
  predicate Before(a: seq<byte>, b: seq<byte>)
    requires |a| == |b|
  {
    a != [] && (a[0] < b[0] || (a[0] == b[0] && Before(a[1..], b[1..])))
  }

  lemma {:induction false} HighFront(digits: seq<byte>)
    requires digits != []
    ensures HighValue(digits) == digits[0] * Power(|digits| - 1) + HighValue(digits[1..])
  {
    if |digits| > 1 {
      var front, rest := digits[..|digits| - 1], digits[1..];
      HighFront(front);
      assert front[1..] == rest[..|rest| - 1];
      FrontMoves(digits[0], Power(|digits| - 2), HighValue(front[1..]), digits[|digits| - 1]);
    }
  }

  lemma FrontMoves(d: nat, p: nat, x: nat, y: nat)
    ensures 256 * (d * p + x) + y == d * (256 * p) + (256 * x + y)
  {
  }

  lemma MoreDigits(d: nat, e: nat, p: nat)
    requires d < e
    ensures d * p + p <= e * p
  {
    assert e * p == (d + 1) * p + (e - d - 1) * p;
  }

  lemma DigitDecides(d: nat, e: nat, p: nat, x: nat, y: nat)
    requires x < p && y < p
    ensures d * p + x < e * p + y <==> d < e || (d == e && x < y)
  {
    if d < e {
      MoreDigits(d, e, p);
    } else if d > e {
      MoreDigits(e, d, p);
    }
  }

  /** The bytes of two numbers compare as the numbers do. */
  lemma {:induction false} BytesOrderLikeNumbers(a: seq<byte>, b: seq<byte>)
    requires |a| == |b|
    ensures Before(a, b) <==> HighValue(a) < HighValue(b)
  {
    if a != [] {
      BytesOrderLikeNumbers(a[1..], b[1..]);
      HighFront(a);
      HighFront(b);
      HighBounds(a[1..]);
      HighBounds(b[1..]);
      DigitDecides(a[0], b[0], Power(|a| - 1), HighValue(a[1..]), HighValue(b[1..]));
    }
  }

  // ---------- signed numbers ----------

  /** The two's complement of a number in n bytes. */
  function Complement(v: int, n: nat): nat
    requires 0 <= 2 * v + Power(n) && 2 * v < Power(n)
  {
    if v < 0 then v + Power(n) else v
  }

  function SignedValue(digits: seq<byte>): int
    requires digits != []
  {
    if digits[0] >= 128 then HighValue(digits) - Power(|digits|) else HighValue(digits)
  }

  lemma SignBit(digits: seq<byte>)
    requires digits != []
    ensures digits[0] >= 128 <==> 2 * HighValue(digits) >= Power(|digits|)
  {
  }

  lemma SignedRoundTrip(v: int, n: nat)
    requires n > 0 && 0 <= 2 * v + Power(n) && 2 * v < Power(n)
    ensures SignedValue(High(Complement(v, n), n)) == v
  {
    HighRoundTrip(Complement(v, n), n);
    SignBit(High(Complement(v, n), n));
  }

  /** Signed numbers are stored in an order of their own: it is theirs exactly when their signs agree. */
  lemma SignedOrderExactlyWhen(a: seq<byte>, b: seq<byte>)
    requires |a| == |b| && a != b && a != []
    ensures (Before(a, b) <==> SignedValue(a) < SignedValue(b)) <==> (a[0] < 128 <==> b[0] < 128)
  {
    BytesOrderLikeNumbers(a, b);
    SignBit(a);
    SignBit(b);
    HighBounds(a);
    HighBounds(b);
  }

  lemma {:induction false} ValueOfReversed(digits: seq<byte>)
    ensures HighValue(Reversed(digits)) == LowValue(digits)
  {
    if digits != [] {
      ValueOfReversed(digits[1..]);
      var r := Reversed(digits);
      assert r[..|r| - 1] == Reversed(digits[1..]);
    }
  }

  // ---------- loads ----------

  /** The value of the first n bytes of a buffer, high byte first. */
  function HighOf(a: seq<byte>, n: nat): (v: nat)
    requires n <= |a|
    decreases n
  {
    if n == 0 then 0 else 256 * HighOf(a, n - 1) + a[n - 1]
  }

  lemma {:induction false} HighOfIs(a: seq<byte>, n: nat)
    requires n <= |a|
    ensures HighOf(a, n) == HighValue(a[..n])
  {
    if n > 0 {
      HighOfIs(a, n - 1);
      assert a[..n][..n - 1] == a[..n - 1];
    }
  }

  /** The value of the bytes of a buffer from i up to n, low byte first. */
  function LowFrom(a: seq<byte>, i: nat, n: nat): (v: nat)
    requires i <= n <= |a|
    decreases n - i
  {
    if i == n then 0 else a[i] + 256 * LowFrom(a, i + 1, n)
  }

  lemma {:induction false} LowFromIs(a: seq<byte>, i: nat, n: nat)
    requires i <= n <= |a|
    ensures LowFrom(a, i, n) == LowValue(a[i..n])
    decreases n - i
  {
    if i < n {
      LowFromIs(a, i + 1, n);
      assert a[i..n][1..] == a[i + 1..n];
    }
  }

  /** A byte as a signed character. */
  function Char(b: byte): int {
    if b >= 128 then b - 256 else b
  }

  function Int32(x: nat): int
    requires x < 0x1_0000_0000
  {
    if x >= 0x8000_0000 then x - 0x1_0000_0000 else x
  }

  function Int64(x: nat): int
    requires x < 0x1_0000_0000_0000_0000
  {
    if x >= 0x8000_0000_0000_0000 then x - 0x1_0000_0000_0000_0000 else x
  }

  lemma SignedOf(a: seq<byte>, n: nat)
    requires 0 < n <= |a|
    ensures SignedValue(a[..n]) == HighOf(a, n) - (if a[0] >= 128 then Power(n) else 0)
    ensures SignedValue(Reversed(a[..n])) == LowFrom(a, 0, n) - (if a[n - 1] >= 128 then Power(n) else 0)
    ensures a[0] >= 128 <==> 2 * HighOf(a, n) >= Power(n)
    ensures a[n - 1] >= 128 <==> 2 * LowFrom(a, 0, n) >= Power(n)
  {
    HighOfIs(a, n);
    LowFromIs(a, 0, n);
    ValueOfReversed(a[..n]);
    SignBit(a[..n]);
    SignBit(Reversed(a[..n]));
  }

  // The unsigned loads of `myisampack.h`.

  function MiUint2Korr(a: seq<byte>): (v: nat)
    requires |a| >= 2
    ensures v == HighValue(a[..2])
  {
    HighOfIs(a, 2);
    a[1] + a[0] as int * 0x100
  }

  function MiUint3Korr(a: seq<byte>): (v: nat)
    requires |a| >= 3
    ensures v == HighValue(a[..3])
  {
    HighOfIs(a, 3);
    a[2] + a[1] as int * 0x100 + a[0] as int * 0x1_0000
  }

  function MiUint4Korr(a: seq<byte>): (v: nat)
    requires |a| >= 4
    ensures v == HighValue(a[..4])
  {
    HighOfIs(a, 4);
    a[3] + a[2] as int * 0x100 + a[1] as int * 0x1_0000 + a[0] as int * 0x100_0000
  }

  function MiUint5Korr(a: seq<byte>): (v: nat)
    requires |a| >= 5
    ensures v == HighValue(a[..5])
  {
    HighOfIs(a, 5);
    (a[4] + a[3] as int * 0x100 + a[2] as int * 0x1_0000 + a[1] as int * 0x100_0000)
    + a[0] as int * 0x1_0000_0000
  }

  function MiUint6Korr(a: seq<byte>): (v: nat)
    requires |a| >= 6
    ensures v == HighValue(a[..6])
  {
    HighOfIs(a, 6);
    (a[5] + a[4] as int * 0x100 + a[3] as int * 0x1_0000 + a[2] as int * 0x100_0000)
    + (a[1] + a[0] as int * 0x100) * 0x1_0000_0000
  }

  function MiUint7Korr(a: seq<byte>): (v: nat)
    requires |a| >= 7
    ensures v == HighValue(a[..7])
  {
    HighOfIs(a, 7);
    (a[6] + a[5] as int * 0x100 + a[4] as int * 0x1_0000 + a[3] as int * 0x100_0000)
    + (a[2] + a[1] as int * 0x100 + a[0] as int * 0x1_0000) * 0x1_0000_0000
  }

  function MiUint8Korr(a: seq<byte>): (v: nat)
    requires |a| >= 8
    ensures v == HighValue(a[..8])
  {
    HighOfIs(a, 8);
    (a[7] + a[6] as int * 0x100 + a[5] as int * 0x1_0000 + a[4] as int * 0x100_0000)
    + (a[3] + a[2] as int * 0x100 + a[1] as int * 0x1_0000 + a[0] as int * 0x100_0000) * 0x1_0000_0000
  }

  // Its signed loads.

  function MiSint2Korr(a: seq<byte>): (v: int)
    requires |a| >= 2
    ensures v == SignedValue(a[..2])
  {
    SignedOf(a, 2);
    a[1] + Char(a[0]) * 0x100
  }

  function MiSint3Korr(a: seq<byte>): (v: int)
    requires |a| >= 3
    ensures v == SignedValue(a[..3])
  {
    SignedOf(a, 3);
    if a[0] >= 128 then Int32(255 * 0x100_0000 + a[0] as int * 0x1_0000 + a[1] as int * 0x100 + a[2])
    else Int32(a[0] as int * 0x1_0000 + a[1] as int * 0x100 + a[2])
  }

  function MiSint4Korr(a: seq<byte>): (v: int)
    requires |a| >= 4
    ensures v == SignedValue(a[..4])
  {
    SignedOf(a, 4);
    a[3] + a[2] as int * 0x100 + a[1] as int * 0x1_0000 + Char(a[0]) * 0x100_0000
  }

  function MiSint8Korr(a: seq<byte>): (v: int)
    requires |a| >= 8
    ensures v == SignedValue(a[..8])
  {
    SignBit(a[..8]);
    HighBounds(a[..8]);
    Int64(MiUint8Korr(a))
  }

  // The loads of `my_global.h`.

  function Uint2Korr(a: seq<byte>): (v: nat)
    requires |a| >= 2
    ensures v == LowValue(a[..2])
  {
    LowFromIs(a, 0, 2);
    a[0] + a[1] as int * 0x100
  }

  function Uint3Korr(a: seq<byte>): (v: nat)
    requires |a| >= 3
    ensures v == LowValue(a[..3])
  {
    LowFromIs(a, 0, 3);
    a[0] + a[1] as int * 0x100 + a[2] as int * 0x1_0000
  }

  function Uint4Korr(a: seq<byte>): (v: nat)
    requires |a| >= 4
    ensures v == LowValue(a[..4])
  {
    LowFromIs(a, 0, 4);
    a[0] + a[1] as int * 0x100 + a[2] as int * 0x1_0000 + a[3] as int * 0x100_0000
  }

  function Uint5Korr(a: seq<byte>): (v: nat)
    requires |a| >= 5
    ensures v == LowValue(a[..5])
  {
    LowFromIs(a, 0, 5);
    (a[0] + a[1] as int * 0x100 + a[2] as int * 0x1_0000 + a[3] as int * 0x100_0000)
    + a[4] as int * 0x1_0000_0000
  }

  function Uint6Korr(a: seq<byte>): (v: nat)
    requires |a| >= 6
    ensures v == LowValue(a[..6])
  {
    LowFromIs(a, 0, 6);
    (a[0] + a[1] as int * 0x100 + a[2] as int * 0x1_0000 + a[3] as int * 0x100_0000)
    + a[4] as int * 0x1_0000_0000 + a[5] as int * 0x100_0000_0000
  }

  function Uint8Korr(a: seq<byte>): (v: nat)
    requires |a| >= 8
    ensures v == LowValue(a[..8])
  {
    LowFromIs(a, 0, 8);
    (a[0] + a[1] as int * 0x100 + a[2] as int * 0x1_0000 + a[3] as int * 0x100_0000)
    + (a[4] + a[5] as int * 0x100 + a[6] as int * 0x1_0000 + a[7] as int * 0x100_0000) * 0x1_0000_0000
  }

  function Sint2Korr(a: seq<byte>): (v: int)
    requires |a| >= 2
    ensures v == SignedValue(Reversed(a[..2]))
  {
    SignedOf(a, 2);
    a[0] + Char(a[1]) * 0x100
  }

  function Sint3Korr(a: seq<byte>): (v: int)
    requires |a| >= 3
    ensures v == SignedValue(Reversed(a[..3]))
  {
    SignedOf(a, 3);
    if a[2] >= 128 then Int32(255 * 0x100_0000 + a[2] as int * 0x1_0000 + a[1] as int * 0x100 + a[0])
    else Int32(a[2] as int * 0x1_0000 + a[1] as int * 0x100 + a[0])
  }

  function Sint4Korr(a: seq<byte>): (v: int)
    requires |a| >= 4
    ensures v == SignedValue(Reversed(a[..4]))
  {
    SignedOf(a, 4);
    a[0] + a[1] as int * 0x100 + a[2] as int * 0x1_0000 + Char(a[3]) * 0x100_0000
  }

  function Sint8Korr(a: seq<byte>): (v: int)
    requires |a| >= 8
    ensures v == SignedValue(Reversed(a[..8]))
  {
    ValueOfReversed(a[..8]);
    SignBit(Reversed(a[..8]));
    LowBounds(a[..8]);
    Int64(Uint8Korr(a))
  }

  // ---------- stores ----------

  /** Digit k of a number, counted from the low end. */
  function Digit(v: nat, k: nat): byte {
    if k == 0 then v % 256 else Digit(v / 256, k - 1)
  }

  lemma {:induction false} DigitsOf(v: nat, n: nat)
    ensures forall k :: 0 <= k < n ==> High(v, n)[n - 1 - k] == Digit(v, k)
    ensures forall k :: 0 <= k < n ==> Low(v, n)[k] == Digit(v, k)
  {
    if n > 0 {
      DigitsOf(v / 256, n - 1);
      forall k | 0 <= k < n ensures High(v, n)[n - 1 - k] == Digit(v, k) && Low(v, n)[k] == Digit(v, k) {
        if k > 0 {
          assert High(v / 256, n - 1)[n - 1 - 1 - (k - 1)] == Digit(v / 256, k - 1);
        }
      }
    }
  }

  /** A shift to the right, and the cut to a byte. */
  function Cut(v: nat, bits: nat): byte
    requires bits in {0, 8, 16, 24, 32, 40}
  {
    (if bits == 0 then v else if bits == 8 then v / 0x100 else if bits == 16 then v / 0x1_0000
     else if bits == 24 then v / 0x100_0000 else if bits == 32 then v / 0x1_0000_0000
     else v / 0x100_0000_0000) % 256
  }

  lemma Shifts(v: nat)
    ensures v / 256 / 256 == v / 0x1_0000
    ensures v / 256 / 256 / 256 == v / 0x100_0000
    ensures v / 256 / 256 / 256 / 256 == v / 0x1_0000_0000
    ensures v / 256 / 256 / 256 / 256 / 256 == v / 0x100_0000_0000
  {
  }

  lemma CutsAreDigits(v: nat)
    ensures Cut(v, 0) == Digit(v, 0) && Cut(v, 8) == Digit(v, 1) && Cut(v, 16) == Digit(v, 2)
    ensures Cut(v, 24) == Digit(v, 3) && Cut(v, 32) == Digit(v, 4) && Cut(v, 40) == Digit(v, 5)
  {
    CutNext(v);
    CutNext(v / 256);
    CutNext(v / 256 / 256);
    CutNext(v / 256 / 256 / 256);
    CutNext(v / 256 / 256 / 256 / 256);
  }

  lemma CutNext(v: nat)
    ensures Cut(v / 256, 0) == Cut(v, 8) && Cut(v / 256, 8) == Cut(v, 16) && Cut(v / 256, 16) == Cut(v, 24)
    ensures Cut(v / 256, 24) == Cut(v, 32) && Cut(v / 256, 32) == Cut(v, 40)
  {
    assert v / 256 / 0x100 == v / 0x1_0000;
    assert v / 256 / 0x1_0000 == v / 0x100_0000;
    assert v / 256 / 0x100_0000 == v / 0x1_0000_0000;
    assert v / 256 / 0x1_0000_0000 == v / 0x100_0000_0000;
  }

  lemma FourDigitsOn(v: nat, k: nat)
    ensures Digit(v / 0x1_0000_0000, k) == Digit(v, k + 4)
  {
    Shifts(v);
    assert Digit(v, k + 4) == Digit(v / 256, k + 3) == Digit(v / 256 / 256, k + 2);
    assert Digit(v / 256 / 256, k + 2) == Digit(v / 256 / 256 / 256, k + 1);
  }

  /** The low and the high half of a number of 64 bits, each held in 32 bits. */
  function LowWord(v: nat): nat {
    v % 0x1_0000_0000
  }

  function HighWord(v: nat): nat {
    v / 0x1_0000_0000 % 0x1_0000_0000
  }

  lemma Unique(v: nat, d: nat, q: nat, rest: nat)
    requires rest < d && v == q * d + rest
    ensures v % d == rest && v / d == q
  {
    if v / d < q {
      MoreDigits(v / d, q, d);
    } else if q < v / d {
      MoreDigits(q, v / d, d);
    }
  }

  /** Cutting a number off behind a digit, and then taking the digit away. */
  lemma CutOff(v: nat, m: nat)
    requires m > 0
    ensures v % (256 * m) % 256 == v % 256 && v % (256 * m) / 256 == v / 256 % m
  {
    var q, r, d := v / 256 / m, v / 256 % m, v % 256;
    assert v / 256 == q * m + r;
    FrontMoves(q, m, r, d);
    Unique(v, 256 * m, q, 256 * r + d);
  }

  lemma {:induction false} LowDigits(v: nat, n: nat, k: nat)
    requires k < n
    ensures Digit(v % Power(n), k) == Digit(v, k)
  {
    CutOff(v, Power(n - 1));
    if k > 0 {
      LowDigits(v / 256, n - 1, k - 1);
    }
  }

  lemma DigitOfWord(v: nat, k: nat)
    requires k < 8
    ensures Digit(v, k) == if k < 4 then Digit(LowWord(v), k) else Digit(HighWord(v), k - 4)
  {
    assert Power(4) == 0x1_0000_0000;
    if k < 4 {
      LowDigits(v, 4, k);
    } else {
      LowDigits(v / 0x1_0000_0000, 4, k - 4);
      FourDigitsOn(v, k - 4);
    }
  }

  lemma WordDigits(v: nat)
    ensures Cut(LowWord(v), 0) == Digit(v, 0) && Cut(LowWord(v), 8) == Digit(v, 1)
    ensures Cut(LowWord(v), 16) == Digit(v, 2) && Cut(LowWord(v), 24) == Digit(v, 3)
    ensures Cut(HighWord(v), 0) == Digit(v, 4) && Cut(HighWord(v), 8) == Digit(v, 5)
    ensures Cut(HighWord(v), 16) == Digit(v, 6) && Cut(HighWord(v), 24) == Digit(v, 7)
  {
    CutsAreDigits(LowWord(v));
    CutsAreDigits(HighWord(v));
    forall k | 0 <= k < 8
      ensures Digit(v, k) == if k < 4 then Digit(LowWord(v), k) else Digit(HighWord(v), k - 4)
    {
      DigitOfWord(v, k);
    }
  }

  lemma DigitAt(v: nat, n: nat, k: nat)
    requires k < n
    ensures High(v, n)[n - 1 - k] == Digit(v, k) && Low(v, n)[k] == Digit(v, k)
  {
    DigitsOf(v, n);
  }

  /** Eight digits are the four of each word. */
  lemma DigitsOfWords(v: nat)
    ensures High(v, 8) == High(HighWord(v), 4) + High(LowWord(v), 4)
    ensures Low(v, 8) == Low(LowWord(v), 4) + Low(HighWord(v), 4)
  {
    forall i | 0 <= i < 8
      ensures High(v, 8)[i] == (High(HighWord(v), 4) + High(LowWord(v), 4))[i]
    {
      var k := 7 - i;
      DigitOfWord(v, k);
      DigitAt(v, 8, k);
      DigitAt(if k < 4 then LowWord(v) else HighWord(v), 4, if k < 4 then k else k - 4);
    }
    forall k | 0 <= k < 8
      ensures Low(v, 8)[k] == (Low(LowWord(v), 4) + Low(HighWord(v), 4))[k]
    {
      DigitOfWord(v, k);
      DigitAt(v, 8, k);
      DigitAt(if k < 4 then LowWord(v) else HighWord(v), 4, if k < 4 then k else k - 4);
    }
  }

  /** The buffer with n bytes at t replaced. */
  ghost predicate Holds(now: seq<byte>, was: seq<byte>, t: nat, digits: seq<byte>) {
    && |now| == |was| && t + |digits| <= |was|
    && now[t..t + |digits|] == digits
    && forall i :: 0 <= i < |was| && !(t <= i < t + |digits|) ==> now[i] == was[i]
  }

  // The stores of `myisampack.h`.

  method MiInt2Store(a: array<byte>, t: nat, v: nat)
    requires t + 2 <= a.Length
    modifies a
    ensures Holds(a[..], old(a[..]), t, High(v, 2))
  {
    var low := LowWord(v);
    a[t + 1] := Cut(low, 0);
    a[t] := Cut(low, 8);
    WordDigits(v);
    DigitsOf(v, 2);
  }

  method MiInt3Store(a: array<byte>, t: nat, v: nat)
    requires t + 3 <= a.Length
    modifies a
    ensures Holds(a[..], old(a[..]), t, High(v, 3))
  {
    var low := LowWord(v);
    a[t + 2] := Cut(low, 0);
    a[t + 1] := Cut(low, 8);
    a[t] := Cut(low, 16);
    WordDigits(v);
    DigitsOf(v, 3);
  }

  method MiInt4Store(a: array<byte>, t: nat, v: nat)
    requires t + 4 <= a.Length
    modifies a
    ensures Holds(a[..], old(a[..]), t, High(v, 4))
  {
    var low := LowWord(v);
    a[t + 3] := Cut(low, 0);
    a[t + 2] := Cut(low, 8);
    a[t + 1] := Cut(low, 16);
    a[t] := Cut(low, 24);
    WordDigits(v);
    DigitsOf(v, 4);
  }

  method MiInt5Store(a: array<byte>, t: nat, v: nat)
    requires t + 5 <= a.Length
    modifies a
    ensures Holds(a[..], old(a[..]), t, High(v, 5))
  {
    var low, high := LowWord(v), HighWord(v);
    a[t + 4] := Cut(low, 0);
    a[t + 3] := Cut(low, 8);
    a[t + 2] := Cut(low, 16);
    a[t + 1] := Cut(low, 24);
    a[t] := Cut(high, 0);
    WordDigits(v);
    DigitsOf(v, 5);
  }

  method MiInt6Store(a: array<byte>, t: nat, v: nat)
    requires t + 6 <= a.Length
    modifies a
    ensures Holds(a[..], old(a[..]), t, High(v, 6))
  {
    var low, high := LowWord(v), HighWord(v);
    a[t + 5] := Cut(low, 0);
    a[t + 4] := Cut(low, 8);
    a[t + 3] := Cut(low, 16);
    a[t + 2] := Cut(low, 24);
    a[t + 1] := Cut(high, 0);
    a[t] := Cut(high, 8);
    WordDigits(v);
    DigitsOf(v, 6);
  }

  method MiInt7Store(a: array<byte>, t: nat, v: nat)
    requires t + 7 <= a.Length
    modifies a
    ensures Holds(a[..], old(a[..]), t, High(v, 7))
  {
    var low, high := LowWord(v), HighWord(v);
    a[t + 6] := Cut(low, 0);
    a[t + 5] := Cut(low, 8);
    a[t + 4] := Cut(low, 16);
    a[t + 3] := Cut(low, 24);
    a[t + 2] := Cut(high, 0);
    a[t + 1] := Cut(high, 8);
    a[t] := Cut(high, 16);
    WordDigits(v);
    DigitsOf(v, 7);
  }

  method MiInt8Store(a: array<byte>, t: nat, v: nat)
    requires t + 8 <= a.Length
    modifies a
    ensures Holds(a[..], old(a[..]), t, High(v, 8))
  {
    MiInt4Store(a, t, HighWord(v));
    MiInt4Store(a, t + 4, LowWord(v));
    DigitsOfWords(v);
  }

  // The stores of `my_global.h`.

  method Int2Store(a: array<byte>, t: nat, v: nat)
    requires t + 2 <= a.Length
    modifies a
    ensures Holds(a[..], old(a[..]), t, Low(v, 2))
  {
    var low := LowWord(v);
    a[t] := Cut(low, 0);
    a[t + 1] := Cut(low, 8);
    WordDigits(v);
    DigitsOf(v, 2);
  }

  method Int3Store(a: array<byte>, t: nat, v: nat)
    requires t + 3 <= a.Length
    modifies a
    ensures Holds(a[..], old(a[..]), t, Low(v, 3))
  {
    a[t] := Cut(v, 0);
    a[t + 1] := Cut(v, 8);
    a[t + 2] := Cut(v, 16);
    CutsAreDigits(v);
    DigitsOf(v, 3);
  }

  method Int4Store(a: array<byte>, t: nat, v: nat)
    requires t + 4 <= a.Length
    modifies a
    ensures Holds(a[..], old(a[..]), t, Low(v, 4))
  {
    a[t] := Cut(v, 0);
    a[t + 1] := Cut(v, 8);
    a[t + 2] := Cut(v, 16);
    a[t + 3] := Cut(v, 24);
    CutsAreDigits(v);
    DigitsOf(v, 4);
  }

  method Int5Store(a: array<byte>, t: nat, v: nat)
    requires t + 5 <= a.Length
    modifies a
    ensures Holds(a[..], old(a[..]), t, Low(v, 5))
  {
    a[t] := Cut(v, 0);
    a[t + 1] := Cut(v, 8);
    a[t + 2] := Cut(v, 16);
    a[t + 3] := Cut(v, 24);
    a[t + 4] := Cut(v, 32);
    CutsAreDigits(v);
    DigitsOf(v, 5);
  }

  method Int6Store(a: array<byte>, t: nat, v: nat)
    requires t + 6 <= a.Length
    modifies a
    ensures Holds(a[..], old(a[..]), t, Low(v, 6))
  {
    a[t] := Cut(v, 0);
    a[t + 1] := Cut(v, 8);
    a[t + 2] := Cut(v, 16);
    a[t + 3] := Cut(v, 24);
    a[t + 4] := Cut(v, 32);
    a[t + 5] := Cut(v, 40);
    CutsAreDigits(v);
    DigitsOf(v, 6);
  }

  method Int8Store(a: array<byte>, t: nat, v: nat)
    requires t + 8 <= a.Length
    modifies a
    ensures Holds(a[..], old(a[..]), t, Low(v, 8))
  {
    Int4Store(a, t, LowWord(v));
    Int4Store(a, t + 4, HighWord(v));
    DigitsOfWords(v);
  }

  // ---------- round trips ----------

  /** What the stores of either header leave, the loads of the same header and width read back. */
  lemma LoadsUndoStores(v: nat)
    ensures v < Power(2) ==> MiUint2Korr(High(v, 2)) == v && Uint2Korr(Low(v, 2)) == v
    ensures v < Power(3) ==> MiUint3Korr(High(v, 3)) == v && Uint3Korr(Low(v, 3)) == v
    ensures v < Power(4) ==> MiUint4Korr(High(v, 4)) == v && Uint4Korr(Low(v, 4)) == v
    ensures v < Power(5) ==> MiUint5Korr(High(v, 5)) == v && Uint5Korr(Low(v, 5)) == v
    ensures v < Power(6) ==> MiUint6Korr(High(v, 6)) == v && Uint6Korr(Low(v, 6)) == v
    ensures v < Power(7) ==> MiUint7Korr(High(v, 7)) == v
    ensures v < Power(8) ==> MiUint8Korr(High(v, 8)) == v && Uint8Korr(Low(v, 8)) == v
  {
    forall n: nat | 2 <= n <= 8 && v < Power(n)
      ensures HighValue(High(v, n)[..n]) == v && LowValue(Low(v, n)[..n]) == v
    {
      HighRoundTrip(v, n);
      LowRoundTrip(v, n);
      assert High(v, n)[..n] == High(v, n) && Low(v, n)[..n] == Low(v, n);
    }
  }

  lemma SignedNotations(v: int, n: nat)
    requires n > 0 && 0 <= 2 * v + Power(n) && 2 * v < Power(n)
    ensures SignedValue(High(Complement(v, n), n)[..n]) == v
    ensures SignedValue(Reversed(Low(Complement(v, n), n)[..n])) == v
  {
    var c := Complement(v, n);
    SignedRoundTrip(v, n);
    LowIsReversed(c, n);
    assert High(c, n)[..n] == High(c, n) && Low(c, n)[..n] == Low(c, n);
    assert Reversed(Low(c, n)) == High(c, n);
  }

  /** Storing a signed number and loading it with the sign restores it. */
  lemma SignedLoadsUndoStores(v: int, n: nat)
    requires n in {2, 3, 4, 8} && 0 <= 2 * v + Power(n) && 2 * v < Power(n)
    ensures n == 2 ==> MiSint2Korr(High(Complement(v, 2), 2)) == v && Sint2Korr(Low(Complement(v, 2), 2)) == v
    ensures n == 3 ==> MiSint3Korr(High(Complement(v, 3), 3)) == v && Sint3Korr(Low(Complement(v, 3), 3)) == v
    ensures n == 4 ==> MiSint4Korr(High(Complement(v, 4), 4)) == v && Sint4Korr(Low(Complement(v, 4), 4)) == v
    ensures n == 8 ==> MiSint8Korr(High(Complement(v, 8), 8)) == v && Sint8Korr(Low(Complement(v, 8), 8)) == v
  {
    SignedNotations(v, n);
  }
}
