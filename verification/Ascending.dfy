/** Walking a finite set of numbers in ascending order, as the ordered maps of the source do. */
module Ascending {
  lemma Member<T>(s: set<T>) returns (x: T)
    requires s != {}
    ensures x in s
  {
    x :| x in s;
  }

  /** A walk in ascending order always has a next number. */
  lemma {:induction false} HasLeast(s: set<int>)
    requires s != {}
    ensures exists m :: m in s && forall k :: k in s ==> m <= k
    decreases |s|
  {
    var x := Member(s);
    var others := s - {x};
    assert forall k :: k in s ==> k == x || k in others;
    if others == {} {
      assert x in s && forall k :: k in s ==> x <= k;
    } else {
      HasLeast(others);
      var m: int :| m in others && forall k :: k in others ==> m <= k;
      var least := if x < m then x else m;
      assert least in s && forall k :: k in s ==> least <= k;
    }
  }

  ghost predicate IsAscending(ks: seq<nat>, s: set<nat>) {
    && |ks| == |s|
    && (forall k: nat :: k in ks <==> k in s)
    && (forall i, j :: 0 <= i < j < |ks| ==> ks[i] < ks[j])
  }

  lemma AddLeast(ks: seq<nat>, s: set<nat>, k: nat)
    requires k in s && IsAscending(ks, s - {k}) && forall j :: j in s ==> k <= j
    ensures IsAscending([k] + ks, s)
  {
    assert forall i :: 0 <= i < |ks| ==> ks[i] in ks;
  }

  method Least(s: set<nat>) returns (k: nat)
    requires s != {}
    ensures k in s && forall j :: j in s ==> k <= j
  {
    HasLeast(s);
    k :| k in s && forall j :: j in s ==> k <= j;
  }

  /** The keys of an ordered map, as its iterator meets them. */
  method AscendingKeys(s: set<nat>) returns (ks: seq<nat>)
    ensures IsAscending(ks, s)
  {
    if s == {} {
      ks := [];
    } else {
      var k := Least(s);
      ks := AscendingKeys(s - {k});
      AddLeast(ks, s, k);
      ks := [k] + ks;
    }
  }
}
