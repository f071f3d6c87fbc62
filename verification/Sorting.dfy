/** Sorting by a comparison, as the library sorts the modelled code calls it. */
module Sorting {
  import opened Sequences

  ghost predicate TotalPreorder<T(!new)>(leq: (T, T) -> bool) {
    && (forall x, y :: leq(x, y) || leq(y, x))
    && (forall x, y, z :: leq(x, y) && leq(y, z) ==> leq(x, z))
  }

  // No two different elements of s compare as equal.
  ghost predicate AntisymmetricOn<T>(leq: (T, T) -> bool, s: seq<T>) {
    forall x, y :: x in s && y in s && leq(x, y) && leq(y, x) ==> x == y
  }

  ghost predicate SortedBy<T>(leq: (T, T) -> bool, s: seq<T>) {
    forall i, j :: 0 <= i < j < |s| ==> leq(s[i], s[j])
  }

  function Insert<T(!new)>(leq: (T, T) -> bool, x: T, s: seq<T>): (r: seq<T>)
    ensures multiset(r) == multiset(s) + multiset{x}
  {
    if s == [] then [x]
    else if leq(x, s[0]) then [x] + s
    else
      assert s == [s[0]] + s[1..];
      [s[0]] + Insert(leq, x, s[1..])
  }

  function SortBy<T(!new)>(leq: (T, T) -> bool, s: seq<T>): (r: seq<T>)
    ensures SameElements(r, s)
  {
    if s == [] then []
    else
      assert s == [s[0]] + s[1..];
      Insert(leq, s[0], SortBy(leq, s[1..]))
  }

  lemma {:induction false} InsertSorts<T(!new)>(leq: (T, T) -> bool, x: T, s: seq<T>)
    requires TotalPreorder(leq) && SortedBy(leq, s)
    ensures SortedBy(leq, Insert(leq, x, s))
  {
    if s != [] && !leq(x, s[0]) {
      var t := Insert(leq, x, s[1..]);
      InsertSorts(leq, x, s[1..]);
      assert multiset(t) == multiset(s[1..]) + multiset{x};
      forall y | y in t ensures leq(s[0], y) {
        assert y in multiset(t);
        assert y == x || y in s[1..];
      }
    }
  }

  lemma {:induction false} SortBySorts<T(!new)>(leq: (T, T) -> bool, s: seq<T>)
    requires TotalPreorder(leq)
    ensures SortedBy(leq, SortBy(leq, s))
  {
    if s != [] {
      SortBySorts(leq, s[1..]);
      InsertSorts(leq, s[0], SortBy(leq, s[1..]));
    }
  }

  // A sorted arrangement is unique, so a sort forgets the order of its input.
  lemma {:induction false} SortedUnique<T>(leq: (T, T) -> bool, a: seq<T>, b: seq<T>)
    requires SortedBy(leq, a) && SortedBy(leq, b) && SameElements(a, b)
    requires AntisymmetricOn(leq, a)
    ensures a == b
  {
    SameElementsSize(a, b);
    if a != [] {
      SameHead(leq, a, b);
      SameTails(a, b);
      assert forall x :: x in a[1..] ==> x in a;
      SortedUnique(leq, a[1..], b[1..]);
      assert a == [a[0]] + a[1..] && b == [b[0]] + b[1..];
    }
  }

  lemma SameHead<T>(leq: (T, T) -> bool, a: seq<T>, b: seq<T>)
    requires SortedBy(leq, a) && SortedBy(leq, b) && SameElements(a, b)
    requires AntisymmetricOn(leq, a)
    requires a != [] && b != []
    ensures a[0] == b[0]
  {
    SameElementsSize(a, b);
    assert a[0] in b && b[0] in a;
    var i :| 0 <= i < |b| && b[i] == a[0];
    var j :| 0 <= j < |a| && a[j] == b[0];
    assert i == 0 || leq(b[0], a[0]);
    assert j == 0 || leq(a[0], b[0]);
  }

  lemma SameTails<T>(a: seq<T>, b: seq<T>)
    requires SameElements(a, b) && a != [] && b != [] && a[0] == b[0]
    ensures SameElements(a[1..], b[1..])
  {
    assert a == [a[0]] + a[1..] && b == [b[0]] + b[1..];
    assert multiset(a[1..]) == multiset(a) - multiset{a[0]};
    assert multiset(b[1..]) == multiset(b) - multiset{b[0]};
  }

  lemma SortForgetsOrder<T(!new)>(leq: (T, T) -> bool, a: seq<T>, b: seq<T>)
    requires TotalPreorder(leq) && SameElements(a, b) && AntisymmetricOn(leq, a)
    ensures SortBy(leq, a) == SortBy(leq, b)
  {
    SortBySorts(leq, a);
    SortBySorts(leq, b);
    SameElementsSize(SortBy(leq, a), a);
    SortedUnique(leq, SortBy(leq, a), SortBy(leq, b));
  }

  // sort.Slice is not stable: a caller learns that the result is some sorted arrangement.
  method SortSlice<T(!new)>(leq: (T, T) -> bool, s: seq<T>) returns (r: seq<T>)
    requires TotalPreorder(leq)
    ensures SortedBy(leq, r) && SameElements(r, s)
  {
    SortBySorts(leq, s);
    r := SortBy(leq, s);
  }
}
