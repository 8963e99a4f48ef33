/** The library's stable sort by a comparison. */
module Sorting {

  function InsertBy<T>(x: T, l: seq<T>, le: (T, T) -> bool): seq<T> {
    if l == [] then [x] else if le(x, l[0]) then [x] + l else [l[0]] + InsertBy(x, l[1..], le)
  }

  function SortBy<T>(l: seq<T>, le: (T, T) -> bool): seq<T> {
    if l == [] then [] else InsertBy(l[0], SortBy(l[1..], le), le)
  }

  ghost predicate TotalOrder<T(!new)>(le: (T, T) -> bool) {
    && (forall x, y :: le(x, y) || le(y, x))
    && (forall x, y, z :: le(x, y) && le(y, z) ==> le(x, z))
  }

  ghost predicate Ordered<T>(l: seq<T>, le: (T, T) -> bool) {
    forall i, j :: 0 <= i < j < |l| ==> le(l[i], l[j])
  }

  lemma {:induction false} InsertPermutes<T>(x: T, l: seq<T>, le: (T, T) -> bool)
    ensures multiset(InsertBy(x, l, le)) == multiset{x} + multiset(l)
  {
    if l != [] && !le(x, l[0]) {
      InsertPermutes(x, l[1..], le);
      assert l == [l[0]] + l[1..];
    }
  }

  lemma {:induction false} SortPermutes<T>(l: seq<T>, le: (T, T) -> bool)
    ensures multiset(SortBy(l, le)) == multiset(l)
  {
    if l != [] {
      SortPermutes(l[1..], le);
      InsertPermutes(l[0], SortBy(l[1..], le), le);
      assert l == [l[0]] + l[1..];
    }
  }

  /** Sorting keeps the elements. */
  lemma {:induction false} SortMembers<T>(l: seq<T>, le: (T, T) -> bool)
    ensures |SortBy(l, le)| == |l|
    ensures forall x :: x in SortBy(l, le) <==> x in l
  {
    SortPermutes(l, le);
    assert |multiset(SortBy(l, le))| == |multiset(l)|;
    forall x
      ensures x in SortBy(l, le) <==> x in l
    {
      assert x in SortBy(l, le) <==> x in multiset(SortBy(l, le));
      assert x in l <==> x in multiset(l);
    }
  }

  lemma {:induction false} InsertMembers<T>(x: T, l: seq<T>, le: (T, T) -> bool)
    ensures forall y :: y in InsertBy(x, l, le) <==> y == x || y in l
  {
    InsertPermutes(x, l, le);
    forall y
      ensures y in InsertBy(x, l, le) <==> y == x || y in l
    {
      assert y in InsertBy(x, l, le) <==> y in multiset(InsertBy(x, l, le));
      assert y in l <==> y in multiset(l);
    }
  }

  lemma {:induction false} InsertOrdered<T(!new)>(x: T, l: seq<T>, le: (T, T) -> bool)
    requires TotalOrder(le) && Ordered(l, le)
    ensures Ordered(InsertBy(x, l, le), le)
  {
    if l == [] {
    } else if le(x, l[0]) {
      forall j | 0 <= j < |l|
        ensures le(x, l[j])
      {
        assert j == 0 || le(l[0], l[j]);
      }
    } else {
      InsertOrdered(x, l[1..], le);
      InsertMembers(x, l[1..], le);
      var t := InsertBy(x, l[1..], le);
      forall j | 0 <= j < |t|
        ensures le(l[0], t[j])
      {
        assert t[j] in t;
      }
    }
  }

  /** Sorting orders. */
  lemma {:induction false} SortOrdered<T(!new)>(l: seq<T>, le: (T, T) -> bool)
    requires TotalOrder(le)
    ensures Ordered(SortBy(l, le), le)
  {
    if l != [] {
      SortOrdered(l[1..], le);
      InsertOrdered(l[0], SortBy(l[1..], le), le);
    }
  }

  /** What is already in order stays as it is. */
  lemma {:induction false} SortOfOrdered<T>(l: seq<T>, le: (T, T) -> bool)
    requires Ordered(l, le)
    ensures SortBy(l, le) == l
  {
    if l != [] {
      SortOfOrdered(l[1..], le);
    }
  }

  predicate Distinct<T(==)>(l: seq<T>) {
    forall i, j :: 0 <= i < j < |l| ==> l[i] != l[j]
  }

  lemma {:induction false} OnceEach<T>(l: seq<T>)
    ensures Distinct(l) <==> forall x :: multiset(l)[x] <= 1
  {
    if l != [] {
      var t := l[1..];
      OnceEach(t);
      assert l == [l[0]] + t;
      assert multiset(l) == multiset{l[0]} + multiset(t);
      assert l[0] in t <==> multiset(t)[l[0]] >= 1;
      if Distinct(l) {
        assert Distinct(t);
        assert l[0] !in t;
      }
      if forall x :: multiset(l)[x] <= 1 {
        assert forall x :: multiset(t)[x] <= multiset(l)[x];
        assert multiset(l)[l[0]] == 1 + multiset(t)[l[0]];
      }
    }
  }

  lemma {:induction false} SortDistinct<T>(l: seq<T>, le: (T, T) -> bool)
    requires Distinct(l)
    ensures Distinct(SortBy(l, le))
  {
    SortPermutes(l, le);
    OnceEach(l);
    OnceEach(SortBy(l, le));
  }
}
