/**
 Inserting into a list that a relation sorts: the one step of every sort in this project.
 */
module Insertion {

  ghost predicate SortedBy<T>(s: seq<T>, r: (T, T) -> bool) {
    forall i, j :: 0 <= i < j < |s| ==> r(s[i], s[j])
  }

  function Inserted<T>(s: seq<T>, x: T, at: nat): seq<T>
    requires at <= |s|
  {
    s[..at] + [x] + s[at..]
  }

  lemma InsertedMembers<T>(s: seq<T>, x: T, at: nat)
    requires at <= |s|
    ensures multiset(Inserted(s, x, at)) == multiset(s) + multiset{x}
    ensures forall y :: y in Inserted(s, x, at) <==> y in s || y == x
  {
    assert s == s[..at] + s[at..];
  }

  /** A relation between all earlier and all later elements stays, if it holds between the
      new element and its surroundings. */
  lemma InsertKeepsSorted<T>(s: seq<T>, x: T, at: nat, r: (T, T) -> bool)
    requires at <= |s| && SortedBy(s, r)
    requires forall i :: 0 <= i < at ==> r(s[i], x)
    requires forall i :: at <= i < |s| ==> r(x, s[i])
    ensures SortedBy(Inserted(s, x, at), r)
  {
    var longer := Inserted(s, x, at);
    forall i, j | 0 <= i < j < |longer| ensures r(longer[i], longer[j]) {
      assert i != at ==> longer[i] == s[if i < at then i else i - 1];
      assert j != at ==> longer[j] == s[if j < at then j else j - 1];
    }
  }

  /** Goes from the end to the first element that may stand before `x`. */
  method Insert<T>(s: seq<T>, x: T, before: (T, T) -> bool) returns (longer: seq<T>, ghost at: nat)
    requires SortedBy(s, before)
    requires forall i :: 0 <= i < |s| ==> before(s[i], x) || before(x, s[i])
    requires forall i, j :: 0 <= i < j < |s| && before(s[i], s[j]) && before(s[j], x) ==> before(s[i], x)
    ensures at <= |s| && longer == Inserted(s, x, at)
    ensures SortedBy(longer, before) && multiset(longer) == multiset(s) + multiset{x}
  {
    var k := |s|;
    while k > 0 && !before(s[k - 1], x)
      invariant 0 <= k <= |s|
      invariant forall i :: k <= i < |s| ==> before(x, s[i])
    {
      k := k - 1;
    }
    InsertKeepsSorted(s, x, k, before);
    InsertedMembers(s, x, k);
    longer, at := s[..k] + [x] + s[k..], k;
  }
}
