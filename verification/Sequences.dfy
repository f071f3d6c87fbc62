/** Lists without repetition, and lists with the same elements. */
module Sequences {

  function Members<T(==)>(s: seq<T>): set<T> { set x | x in s }

  ghost predicate Distinct<T>(s: seq<T>) { forall i, j :: 0 <= i < j < |s| ==> s[i] != s[j] }

  ghost predicate SameElements<T>(a: seq<T>, b: seq<T>) { multiset(a) == multiset(b) }

  lemma SameElementsSize<T>(a: seq<T>, b: seq<T>)
    requires SameElements(a, b)
    ensures |a| == |b|
    ensures forall x :: x in a <==> x in b
  {
    assert |multiset(a)| == |a| && |multiset(b)| == |b|;
    forall x ensures x in a <==> x in b {
      assert x in a <==> x in multiset(a);
      assert x in b <==> x in multiset(b);
    }
  }

  lemma CountCons<T>(x: T, head: T, tail: seq<T>)
    ensures multiset([head] + tail)[x] == multiset(tail)[x] + (if head == x then 1 else 0)
  {
  }

  lemma CountSnoc<T>(x: T, front: seq<T>, last: T)
    ensures multiset(front + [last])[x] == multiset(front)[x] + (if last == x then 1 else 0)
  {
  }

  lemma FivePieces<T>(a: seq<T>, x: T, b: seq<T>, y: T, c: seq<T>)
    ensures multiset(a + [x] + b + [y] + c) == multiset(a) + multiset(b) + multiset(c) + multiset{x} + multiset{y}
  {
  }

  lemma SwapKeepsElements<T>(s: seq<T>, p: nat, q: nat)
    requires p < q < |s|
    ensures SameElements(s, s[p := s[q]][q := s[p]])
  {
    var a, b, c := s[..p], s[p + 1..q], s[q + 1..];
    SwapPieces(s, p, q);
    FivePieces(a, s[p], b, s[q], c);
    FivePieces(a, s[q], b, s[p], c);
  }

  lemma SwapPieces<T>(s: seq<T>, p: nat, q: nat)
    requires p < q < |s|
    ensures s == s[..p] + [s[p]] + s[p + 1..q] + [s[q]] + s[q + 1..]
    ensures s[p := s[q]][q := s[p]] == s[..p] + [s[q]] + s[p + 1..q] + [s[p]] + s[q + 1..]
  {
  }

  lemma ThreePieces<T>(a: seq<T>, x: T, b: seq<T>)
    ensures multiset(a + [x] + b) == multiset(a + b) + multiset{x}
  {
  }

  lemma Without<T>(a: seq<T>, b: seq<T>, k: nat)
    requires SameElements(a, b) && a != [] && k < |b| && b[k] == a[0]
    ensures SameElements(a[1..], b[..k] + b[k + 1..])
  {
    assert a == [] + [a[0]] + a[1..] && [] + a[1..] == a[1..];
    assert b == b[..k] + [b[k]] + b[k + 1..];
    ThreePieces([], a[0], a[1..]);
    ThreePieces(b[..k], b[k], b[k + 1..]);
    SameLess(multiset(a[1..]), multiset(b[..k] + b[k + 1..]), a[0]);
  }

  lemma SameLess<T>(a: multiset<T>, b: multiset<T>, x: T)
    requires a + multiset{x} == b + multiset{x}
    ensures a == b
  {
    assert a == a + multiset{x} - multiset{x} && b == b + multiset{x} - multiset{x};
  }

  lemma HeadPlace<T>(a: seq<T>, b: seq<T>) returns (k: nat)
    requires SameElements(a, b) && a != []
    ensures k < |b| && b[k] == a[0] && SameElements(a[1..], b[..k] + b[k + 1..])
  {
    SameElementsSize(a, b);
    assert a[0] in b;
    k :| 0 <= k < |b| && b[k] == a[0];
    Without(a, b, k);
  }

  lemma {:induction false} DistinctMultiplicity<T>(s: seq<T>, x: T)
    requires Distinct(s)
    ensures multiset(s)[x] == if x in s then 1 else 0
  {
    if s != [] {
      assert s == [s[0]] + s[1..];
      DistinctMultiplicity(s[1..], x);
    }
  }

  lemma DistinctSameElements<T>(a: seq<T>, b: seq<T>)
    requires Distinct(a) && Distinct(b) && (forall x :: x in a <==> x in b)
    ensures SameElements(a, b)
  {
    forall x ensures multiset(a)[x] == multiset(b)[x] {
      DistinctMultiplicity(a, x);
      DistinctMultiplicity(b, x);
    }
  }

  lemma DistinctAfterPermutation<T>(a: seq<T>, b: seq<T>)
    requires Distinct(a) && SameElements(a, b)
    ensures Distinct(b)
  {
    forall i, j | 0 <= i < j < |b| ensures b[i] != b[j] {
      if b[i] == b[j] {
        assert b == b[..i] + [b[i]] + b[i + 1..j] + [b[j]] + b[j + 1..];
        assert multiset(b)[b[i]] >= 2;
        DistinctMultiplicity(a, b[i]);
      }
    }
  }

  lemma {:induction false} SetOfDistinct<T>(s: seq<T>)
    requires Distinct(s)
    ensures |Members(s)| == |s|
  {
    if s == [] {
      assert Members(s) == {};
    } else {
      var last := |s| - 1;
      SetOfDistinct(s[..last]);
      assert s == s[..last] + [s[last]];
      assert Members(s) == Members(s[..last]) + {s[last]};
      assert s[last] !in s[..last];
    }
  }

  lemma SubsetSize<T>(a: set<T>, b: set<T>)
    requires a <= b
    ensures |a| <= |b|
  {
    assert b == a + (b - a);
    assert a !! (b - a);
  }

  ghost function Enumerate<T(!new)>(S: set<T>): (r: seq<T>)
    ensures Distinct(r) && |r| == |S|
    ensures forall x :: x in r <==> x in S
  {
    if S == {} then []
    else
      var x :| x in S;
      [x] + Enumerate(S - {x})
  }
}
