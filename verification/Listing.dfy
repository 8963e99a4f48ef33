/** Listings of ids in ascending order: what `SELECT … ORDER BY id` returns. */
module Listing {
  import opened Basics
  import Sorting

  ghost predicate Ascending(l: seq<Id>) {
    forall i, j :: 0 <= i < j < |l| ==> l[i] < l[j]
  }

  /** l lists exactly the ids of s, in ascending order. */
  ghost predicate IsListing(l: seq<Id>, s: set<Id>) {
    Ascending(l) && forall x :: x in l <==> x in s
  }

  predicate IdLe(a: Id, b: Id) {
    a <= b
  }

  function Sort(l: seq<Id>): seq<Id> {
    Sorting.SortBy(l, IdLe)
  }

  /** Sorting distinct ids yields their listing. */
  lemma {:induction false} SortLists(l: seq<Id>)
    requires Sorting.Distinct(l)
    ensures Ascending(Sort(l))
    ensures forall x :: x in Sort(l) <==> x in l
  {
    Sorting.SortMembers(l, IdLe);
    Sorting.SortOrdered(l, IdLe);
    Sorting.SortDistinct(l, IdLe);
  }

  /** An ascending listing is determined by its elements. */
  lemma {:induction false} ListingUnique(a: seq<Id>, b: seq<Id>)
    requires Ascending(a) && Ascending(b)
    requires forall x :: x in a <==> x in b
    ensures a == b
  {
    assert forall i :: 0 <= i < |b| ==> b[i] in a;
    assert forall i :: 0 <= i < |a| ==> a[i] in b;
    if a != [] {
      assert a[0] == b[0];
      forall x
        ensures x in a[1..] <==> x in b[1..]
      {
        assert x in a[1..] <==> x in a && x != a[0];
        assert x in b[1..] <==> x in b && x != b[0];
      }
      ListingUnique(a[1..], b[1..]);
    }
  }

  ghost predicate IsLeast(m: Id, s: set<Id>) {
    m in s && forall x :: x in s ==> m <= x
  }

  lemma {:induction false} LeastExists(s: set<Id>)
    requires s != {}
    ensures exists m :: IsLeast(m, s)
  {
    var y :| y in s;
    if s == {y} {
      assert IsLeast(y, s);
    } else {
      LeastExists(s - {y});
      var r :| IsLeast(r, s - {y});
      var m := if r < y then r else y;
      assert forall x :: x in s ==> x == y || x in s - {y};
      assert IsLeast(m, s);
    }
  }

  /** The one listing of a set of ids. */
  ghost function ListingOf(s: set<Id>): (l: seq<Id>)
    ensures IsListing(l, s)
  {
    if s == {} then []
    else
      LeastExists(s);
      var m :| IsLeast(m, s);
      var r := ListingOf(s - {m});
      assert forall i :: 0 <= i < |r| ==> r[i] in r;
      [m] + r
  }

  /** The part of a listing after a cursor. */
  function Rest(l: seq<Id>, after: Option<Id>): seq<Id> {
    if l == [] || after == None || l[0] > after.value then l else Rest(l[1..], after)
  }

  lemma {:induction false} RestIsSuffix(l: seq<Id>, after: Option<Id>) returns (n: nat)
    requires Ascending(l)
    ensures n <= |l| && Rest(l, after) == l[n..]
    ensures forall i :: 0 <= i < |l| ==> (i >= n <==> (after == None || l[i] > after.value))
  {
    if l == [] || after == None || l[0] > after.value {
      n := 0;
    } else {
      var m := RestIsSuffix(l[1..], after);
      n := m + 1;
      assert forall i :: 0 < i < |l| ==> l[i] == l[1..][i - 1];
    }
  }

  lemma {:induction false} RestMembers(l: seq<Id>, after: Option<Id>)
    requires Ascending(l)
    ensures Ascending(Rest(l, after))
    ensures forall x :: x in Rest(l, after) <==> x in l && (after == None || x > after.value)
  {
    var n := RestIsSuffix(l, after);
    forall x | x in l && (after == None || x > after.value)
      ensures x in l[n..]
    {
      var i :| 0 <= i < |l| && l[i] == x;
      assert l[n..][i - n] == x;
    }
  }

  /** Resuming after the element before position n yields the listing from n on. */
  lemma {:induction false} RestAfter(l: seq<Id>, n: nat)
    requires Ascending(l) && 0 < n <= |l|
    ensures Rest(l, Some(l[n - 1])) == l[n..]
  {
    var m := RestIsSuffix(l, Some(l[n - 1]));
    assert !(l[n - 1] > l[n - 1]);
    assert n < |l| ==> l[n] > l[n - 1];
    assert m == n;
  }

  function Take(l: seq<Id>, n: nat): seq<Id> {
    if |l| <= n then l else l[..n]
  }

  function Drop(l: seq<Id>, n: nat): seq<Id> {
    if |l| <= n then [] else l[n..]
  }
}
