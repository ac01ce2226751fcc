/**
 `skip_trailing_space` of m_string.h: a backward scan for the last byte that is not a space, which
 reads whole machine words where the buffer allows it. The buffer starts at machine address `ptr`;
 every memory access below is an index into the buffer, so none is outside it.
 */
module SkipSpace {
  import opened Bytes

  const SPACE: byte := 0x20

  /** The unsigned number that a word load makes of its bytes, the low byte first. */
  function Word(b: seq<byte>): nat {
    if b == [] then 0 else b[0] + 256 * Word(b[1..])
  }

  /** SPACE_INT: every byte of the word is a space. */
  function SpaceWord(size: nat): nat {
    if size == 0 then 0 else SPACE + 256 * SpaceWord(size - 1)
  }

  lemma SpaceWords()
    ensures SpaceWord(4) == 0x20202020 && SpaceWord(8) == 0x2020202020202020
  {
  }

  lemma SameDigits(x: byte, y: byte, p: nat, q: nat)
    ensures x + 256 * p == y + 256 * q <==> x == y && p == q
  {
  }

  /** One comparison of words tests all their bytes. */
  lemma {:induction false} WordOfSpaces(b: seq<byte>)
    ensures Word(b) == SpaceWord(|b|) <==> forall i :: 0 <= i < |b| ==> b[i] == SPACE
  {
    if b != [] {
      var rest := b[1..];
      WordOfSpaces(rest);
      SameDigits(b[0], SPACE, Word(rest), SpaceWord(|rest|));
      assert forall i :: 0 <= i < |rest| ==> rest[i] == b[i + 1];
      assert forall i :: 1 <= i < |b| ==> b[i] == rest[i - 1];
    }
  }

  /** What the byte-by-byte scan computes: the length without trailing spaces. */
  function TrimmedLength(s: seq<byte>): (n: nat)
    ensures n <= |s|
  {
    if s != [] && s[|s| - 1] == SPACE then TrimmedLength(s[..|s| - 1]) else |s|
  }

  lemma {:induction false} TrimmedLengthIs(s: seq<byte>, n: nat)
    requires n <= |s|
    ensures n == TrimmedLength(s)
       <==> (forall i :: n <= i < |s| ==> s[i] == SPACE) && (n == 0 || s[n - 1] != SPACE)
  {
    if s != [] && s[|s| - 1] == SPACE {
      var front := s[..|s| - 1];
      if n < |s| {
        TrimmedLengthIs(front, n);
        assert forall i :: 0 <= i < |front| ==> front[i] == s[i];
        assert (forall i :: n <= i < |s| ==> s[i] == SPACE) <==> (forall i :: n <= i < |front| ==> front[i] == SPACE);
      }
    }
  }

  /** The address of the k-th machine word. */
  function WordAddress(k: nat, size: nat): nat {
    if size == 4 then 4 * k else 8 * k
  }

  /** The number of the machine word an address lies in. */
  function WordNumber(a: nat, size: nat): (k: nat)
    requires size == 4 || size == 8
    ensures WordAddress(k, size) <= a < WordAddress(k, size) + size
  {
    if size == 4 then a / 4 else a / 8
  }

  /** The bytes from n on are spaces. */
  ghost predicate SpacesFrom(s: seq<byte>, n: int) {
    0 <= n <= |s| && forall i :: n <= i < |s| ==> s[i] == SPACE
  }

  lemma WordBefore(s: seq<byte>, n: nat, size: nat)
    requires size <= n && SpacesFrom(s, n)
    requires Word(s[n - size..n]) == SpaceWord(size)
    ensures SpacesFrom(s, n - size)
  {
  }

  /** The loop over whole words, back from the end of word k - 1 to the start of word `first`. */
  method SkipWords(s: seq<byte>, ptr: nat, size: nat, first: nat, ghost k: nat, from: nat) returns (end: nat)
    requires size == 4 || size == 8
    requires ptr <= WordAddress(first, size) && first <= k && from == WordAddress(k, size)
    requires SpacesFrom(s, from - ptr)
    ensures ptr <= end && SpacesFrom(s, end - ptr)
  {
    var start := WordAddress(first, size);
    end := from;
    ghost var i := k;
    while end > start && Word(s[end - size - ptr..end - ptr]) == SpaceWord(size)
      invariant first <= i && end == WordAddress(i, size) && SpacesFrom(s, end - ptr)
      decreases i
    {
      WordBefore(s, end - ptr, size);
      end, i := end - size, i - 1;
    }
  }

  method SkipTrailingSpace(s: seq<byte>, ptr: nat, wordSize: nat) returns (end: nat)
    requires wordSize == 4 || wordSize == 8
    ensures end == ptr + TrimmedLength(s)
  {
    end := ptr + |s|;
    if |s| > 20 {
      var last, first := WordNumber(end, wordSize), WordNumber(ptr + wordSize - 1, wordSize);
      var endWords, startWords := WordAddress(last, wordSize), WordAddress(first, wordSize);
      if endWords > ptr {
        while end > endWords && s[end - 1 - ptr] == SPACE
          invariant endWords <= end && SpacesFrom(s, end - ptr)
        {
          end := end - 1;
        }
        if s[end - 1 - ptr] == SPACE && startWords < endWords {
          end := SkipWords(s, ptr, wordSize, first, last, end);
        }
      }
    }
    while end > ptr && s[end - 1 - ptr] == SPACE
      invariant ptr <= end && SpacesFrom(s, end - ptr)
    {
      end := end - 1;
    }
    TrimmedLengthIs(s, end - ptr);
  }
}
