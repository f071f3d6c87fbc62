/** Latency percentiles of the command budget check, over the reals. */
module Percentile {
  import opened Sequences
  import opened Sorting

  // A float result; no samples give infinity.
  datatype Level = Finite(value: real) | Infinite

  predicate AtMost(a: real, b: real) { a <= b }

  function Ordered(samples: seq<real>): seq<real> { SortBy(AtMost, samples) }

  function Least(samples: seq<real>): (m: real)
    requires samples != []
    ensures m in samples && forall x :: x in samples ==> m <= x
  {
    if |samples| == 1 then samples[0]
    else
      var rest := Least(samples[1..]);
      assert samples == [samples[0]] + samples[1..];
      if samples[0] <= rest then samples[0] else rest
  }

  function Greatest(samples: seq<real>): (m: real)
    requires samples != []
    ensures m in samples && forall x :: x in samples ==> x <= m
  {
    if |samples| == 1 then samples[0]
    else
      var rest := Greatest(samples[1..]);
      assert samples == [samples[0]] + samples[1..];
      if rest <= samples[0] then samples[0] else rest
  }

  // Linear interpolation between the order statistics around a rank.
  function At(ordered: seq<real>, rank: real): real
    requires 0.0 <= rank <= (|ordered| - 1) as real
  {
    var lower := rank.Floor;
    var upper := if rank == lower as real then lower else lower + 1;
    if lower == upper then ordered[lower]
    else ordered[lower] + (ordered[upper] - ordered[lower]) * (rank - lower as real)
  }

  function Times(a: real, b: real): real { a * b }

  function Rank(n: nat, p: real): real { Times((n - 1) as real, p / 100.0) }

  lemma RankInRange(n: nat, p: real)
    requires n > 0 && 0.0 <= p <= 100.0
    ensures 0.0 <= Rank(n, p) <= (n - 1) as real
  {
    hide Times;
    TimesBetween((n - 1) as real, p / 100.0);
  }

  lemma TimesBetween(width: real, share: real)
    requires 0.0 <= width && 0.0 <= share <= 1.0
    ensures 0.0 <= Times(width, share) <= width
  {
    assert width * (1.0 - share) >= 0.0;
    assert width * (1.0 - share) == width - width * share;
  }

  lemma TimesMono(d: real, v: real, w: real)
    requires 0.0 <= d && v <= w
    ensures Times(d, v) <= Times(d, w)
  {
    MulMono(d, v, w);
  }

  lemma RankRises(n: nat, p: real, q: real)
    requires n > 0 && p <= q
    ensures Rank(n, p) <= Rank(n, q)
  {
    hide Times;
    TimesMono((n - 1) as real, p / 100.0, q / 100.0);
  }

  function PercentileMs(samples: seq<real>, p: real): Level {
    if samples == [] then Infinite
    else if p <= 0.0 then Finite(Least(samples))
    else if p >= 100.0 then Finite(Greatest(samples))
    else
      RankInRange(|samples|, p);
      SameElementsSize(Ordered(samples), samples);
      Finite(At(Ordered(samples), Rank(|samples|, p)))
  }

  // ----- interpolation -----

  lemma Between(a: real, b: real, w: real)
    requires a <= b && 0.0 <= w <= 1.0
    ensures a <= a + (b - a) * w <= b
  {
    var d := b - a;
    assert d * w >= 0.0 && d * (1.0 - w) >= 0.0;
    assert b - (a + (b - a) * w) == d * (1.0 - w);
  }

  lemma Mix(a: real, b: real, c: real, d: real, w: real)
    requires a <= c && b <= d && 0.0 <= w <= 1.0
    ensures a + (b - a) * w <= c + (d - c) * w
  {
    var x, y := c - a, d - b;
    assert w * y >= 0.0 && (1.0 - w) * x >= 0.0;
    assert c + (d - c) * w - (a + (b - a) * w) == (1.0 - w) * x + w * y;
  }

  lemma AtBetween(ordered: seq<real>, rank: real)
    requires SortedBy(AtMost, ordered) && 0.0 <= rank <= (|ordered| - 1) as real
    ensures var lower := rank.Floor;
            && ordered[lower] <= At(ordered, rank)
            && (lower + 1 < |ordered| ==> At(ordered, rank) <= ordered[lower + 1])
            && (rank == lower as real ==> At(ordered, rank) == ordered[lower])
  {
    var lower := rank.Floor;
    if rank != lower as real {
      assert AtMost(ordered[lower], ordered[lower + 1]);
      Between(ordered[lower], ordered[lower + 1], rank - lower as real);
    } else if lower + 1 < |ordered| {
      assert AtMost(ordered[lower], ordered[lower + 1]);
    }
  }

  lemma MulMono(d: real, v: real, w: real)
    requires 0.0 <= d && v <= w
    ensures d * v <= d * w
  {
    assert d * (w - v) >= 0.0;
    assert d * (w - v) == d * w - d * v;
  }

  lemma AtMonotone(ordered: seq<real>, r: real, s: real)
    requires SortedBy(AtMost, ordered) && 0.0 <= r <= s <= (|ordered| - 1) as real
    ensures At(ordered, r) <= At(ordered, s)
  {
    AtBetween(ordered, r);
    AtBetween(ordered, s);
    var i, j := r.Floor, s.Floor;
    if i < j {
      assert i + 1 == j || AtMost(ordered[i + 1], ordered[j]);
    } else if r != i as real {
      assert AtMost(ordered[i], ordered[i + 1]);
      Slide(ordered[i], ordered[i + 1], r - i as real, s - i as real);
    }
  }

  lemma Slide(a: real, b: real, v: real, w: real)
    requires a <= b && v <= w
    ensures a + (b - a) * v <= a + (b - a) * w
  {
    var d := b - a;
    MulMono(d, v, w);
    assert (b - a) * v == d * v && (b - a) * w == d * w;
  }

  // ----- the promises -----

  lemma OrderedFacts(samples: seq<real>)
    ensures SortedBy(AtMost, Ordered(samples)) && |Ordered(samples)| == |samples|
    ensures samples != [] ==> Ordered(samples)[0] == Least(samples)
    ensures samples != [] ==> Ordered(samples)[|samples| - 1] == Greatest(samples)
  {
    SortBySorts(AtMost, samples);
    var ordered := Ordered(samples);
    SameElementsSize(ordered, samples);
    if samples != [] {
      var last := |samples| - 1;
      assert ordered[0] in samples && ordered[last] in samples;
      var i :| 0 <= i < |ordered| && ordered[i] == Least(samples);
      var j :| 0 <= j < |ordered| && ordered[j] == Greatest(samples);
      assert i == 0 || AtMost(ordered[0], ordered[i]);
      assert j == last || AtMost(ordered[j], ordered[last]);
    }
  }

  // Between the smallest and the largest sample.
  lemma PercentileInRange(samples: seq<real>, p: real)
    requires samples != []
    ensures PercentileMs(samples, p).Finite?
    ensures Least(samples) <= PercentileMs(samples, p).value <= Greatest(samples)
  {
    hide Least, Greatest, Ordered, Rank;
    OrderedFacts(samples);
    if 0.0 < p < 100.0 {
      RankInRange(|samples|, p);
      var ordered, rank := Ordered(samples), Rank(|samples|, p);
      AtMonotone(ordered, 0.0, rank);
      AtMonotone(ordered, rank, (|samples| - 1) as real);
    }
  }

  // A higher percentile is never lower.
  lemma PercentileRisesWithP(samples: seq<real>, p: real, q: real)
    requires samples != [] && p <= q
    ensures PercentileMs(samples, p).value <= PercentileMs(samples, q).value
  {
    hide Least, Greatest, Ordered, Rank, At;
    if 0.0 < p && q < 100.0 {
      RankInRange(|samples|, p);
      RankInRange(|samples|, q);
      RankRises(|samples|, p, q);
      OrderedFacts(samples);
      AtMonotone(Ordered(samples), Rank(|samples|, p), Rank(|samples|, q));
    } else {
      PercentileInRange(samples, p);
      PercentileInRange(samples, q);
    }
  }

  lemma AtMostOrder(s: seq<real>)
    ensures TotalPreorder(AtMost) && AntisymmetricOn(AtMost, s)
  {
  }

  // The order in which the samples were taken does not matter.
  lemma PercentileForgetsOrder(a: seq<real>, b: seq<real>, p: real)
    requires SameElements(a, b)
    ensures PercentileMs(a, p) == PercentileMs(b, p)
  {
    hide Ordered, At, Rank;
    SameElementsSize(a, b);
    AtMostOrder(a);
    assert Ordered(a) == Ordered(b) by { SortForgetsOrder(AtMost, a, b); OrderedIs(a); OrderedIs(b); }
    if a != [] {
      assert Least(a) in b && Least(b) in a && Greatest(a) in b && Greatest(b) in a;
    }
  }

  lemma OrderedIs(samples: seq<real>)
    ensures Ordered(samples) == SortBy(AtMost, samples)
  {
  }

  lemma AtWhole(ordered: seq<real>, k: nat)
    requires k < |ordered|
    ensures At(ordered, k as real) == ordered[k]
  {
  }

  lemma AtHalf(ordered: seq<real>, k: nat)
    requires k + 1 < |ordered|
    ensures At(ordered, k as real + 0.5) == (ordered[k] + ordered[k + 1]) / 2.0
  {
    assert (k as real + 0.5).Floor == k;
  }

  // The 50th percentile is the median.
  lemma PercentileFiftyIsMedian(samples: seq<real>)
    requires samples != []
    ensures var s, n := Ordered(samples), |samples|;
            |s| == n &&
            PercentileMs(samples, 50.0) ==
            Finite(if n % 2 == 1 then s[n / 2] else (s[n / 2 - 1] + s[n / 2]) / 2.0)
  {
    hide Ordered;
    var n := |samples|;
    OrderedFacts(samples);
    HalfRank(n);
    hide Rank, At;
    if n % 2 == 1 {
      assert Rank(n, 50.0) == (n / 2) as real;
      AtWhole(Ordered(samples), n / 2);
    } else {
      assert Rank(n, 50.0) == (n / 2 - 1) as real + 0.5;
      AtHalf(Ordered(samples), n / 2 - 1);
    }
  }

  lemma HalfRank(n: nat)
    requires n > 0
    ensures Rank(n, 50.0) == (n - 1) as real * 0.5
  {
  }

  // ----- interpolation between neighbours -----

  lemma Weighted(a: real, b: real, w: real)
    ensures a + (b - a) * w == a * (1.0 - w) + b * w
  {
  }

  lemma RankIs(n: nat, p: real)
    ensures Rank(n, p) == (n as real - 1.0) * (p / 100.0)
  {
  }

  lemma FractionFloor(k: nat, w: real)
    requires 0.0 <= w < 1.0
    ensures (k as real + w).Floor == k
  {
  }

  // A percentile whose rank, among n samples numbered from 0, is k and a fraction w lies that
  // fraction of the way from the k-th smallest sample to the next.
  lemma PercentileInterpolates(samples: seq<real>, p: real, k: nat, w: real)
    requires 0.0 < p < 100.0 && 0.0 <= w < 1.0 && k < |samples|
    requires (|samples| as real - 1.0) * (p / 100.0) == k as real + w
    ensures w > 0.0 ==> k + 1 < |samples|
    ensures |Ordered(samples)| == |samples|
    ensures PercentileMs(samples, p) ==
            Finite(if w == 0.0 then Ordered(samples)[k]
                   else Ordered(samples)[k] * (1.0 - w) + Ordered(samples)[k + 1] * w)
  {
    hide Ordered, Rank, Least, Greatest, At;
    OrderedFacts(samples);
    RankInRange(|samples|, p);
    RankIs(|samples|, p);
    AtFraction(Ordered(samples), Rank(|samples|, p), k, w);
  }

  lemma AtFraction(ordered: seq<real>, rank: real, k: nat, w: real)
    requires 0.0 <= rank <= (|ordered| - 1) as real && rank == k as real + w && 0.0 <= w < 1.0
    ensures k < |ordered| && (w > 0.0 ==> k + 1 < |ordered|)
    ensures At(ordered, rank) == if w == 0.0 then ordered[k] else ordered[k] * (1.0 - w) + ordered[k + 1] * w
  {
    FractionFloor(k, w);
    assert rank.Floor == k;
    if w == 0.0 {
      assert rank == k as real;
    } else {
      assert rank != k as real && rank - k as real == w;
      assert At(ordered, rank) == ordered[k] + (ordered[k + 1] - ordered[k]) * w;
      Weighted(ordered[k], ordered[k + 1], w);
    }
  }

  // No samples have no finite percentile; below and above the scale stand the extreme samples.
  lemma PercentileEdges(samples: seq<real>, p: real)
    ensures PercentileMs([], p) == Infinite
    ensures samples != [] && p <= 0.0 ==>
              exists x :: x in samples && (forall y :: y in samples ==> x <= y) && PercentileMs(samples, p) == Finite(x)
    ensures samples != [] && p >= 100.0 ==>
              exists x :: x in samples && (forall y :: y in samples ==> y <= x) && PercentileMs(samples, p) == Finite(x)
  {
    hide Ordered, Rank;
    if samples != [] {
      assert Least(samples) in samples && Greatest(samples) in samples;
    }
  }

  // What the budget check asks of two samples.
  lemma NinetyFifthOfTwo()
    ensures PercentileMs([0.0, 100.0], 95.0) == Finite(95.0)
  {
    var s := [0.0, 100.0];
    assert Ordered(s) == s by { assert s[1..] == [100.0]; }
    PercentileInterpolates(s, 95.0, 0, 0.95);
  }

  // ----- slower samples, slower percentile -----

  ghost predicate Dominated(a: seq<real>, b: seq<real>) {
    |a| == |b| && forall i :: 0 <= i < |a| ==> a[i] <= b[i]
  }

  lemma {:induction false} InsertFirst(s: seq<real>)
    requires SortedBy(AtMost, s) && s != []
    ensures Insert(AtMost, s[0], s[1..]) == s
  {
    assert |s| > 1 ==> AtMost(s[0], s[1]);
    assert s == [s[0]] + s[1..];
  }

  lemma InsertSize(x: real, s: seq<real>)
    ensures |Insert(AtMost, x, s)| == |s| + 1
  {
    assert |multiset(Insert(AtMost, x, s))| == |multiset(s) + multiset{x}|;
  }

  lemma {:induction false} InsertDominates(x: real, s: seq<real>, y: real, t: seq<real>)
    requires x <= y && Dominated(s, t) && SortedBy(AtMost, s) && SortedBy(AtMost, t)
    ensures Dominated(Insert(AtMost, x, s), Insert(AtMost, y, t))
    decreases |s|
  {
    InsertSize(x, s);
    InsertSize(y, t);
    if s == [] {
      assert t == [];
      return;
    }
    hide Insert, SortedBy, Dominated;
    var rest := Insert(AtMost, x, s[1..]);
    var late := Insert(AtMost, y, t[1..]);
    InsertUnfolds(x, s);
    InsertUnfolds(y, t);
    Tails(s, t);
    if x <= s[0] && y > t[0] {
      InsertFirst(s);
      InsertDominates(s[0], s[1..], y, t[1..]);
      ConsDominates(x, s, t[0], late);
    } else if x > s[0] && y <= t[0] {
      InsertFirst(t);
      InsertDominates(x, s[1..], t[0], t[1..]);
      ConsDominates(s[0], rest, y, t);
    } else if x > s[0] {
      InsertDominates(x, s[1..], y, t[1..]);
      ConsDominates(s[0], rest, t[0], late);
    } else {
      ConsDominates(x, s, y, t);
    }
  }

  lemma InsertUnfolds(x: real, s: seq<real>)
    requires s != []
    ensures Insert(AtMost, x, s) == if x <= s[0] then [x] + s else [s[0]] + Insert(AtMost, x, s[1..])
  {
  }

  lemma Tails(s: seq<real>, t: seq<real>)
    requires Dominated(s, t) && SortedBy(AtMost, s) && SortedBy(AtMost, t) && s != []
    ensures t != [] && s[0] <= t[0]
    ensures Dominated(s[1..], t[1..]) && SortedBy(AtMost, s[1..]) && SortedBy(AtMost, t[1..])
  {
  }

  lemma ConsDominates(x: real, s: seq<real>, y: real, t: seq<real>)
    requires x <= y && Dominated(s, t)
    ensures Dominated([x] + s, [y] + t)
  {
  }

  // The k-th smallest of larger samples is larger.
  lemma {:induction false} OrderStatisticsDominate(a: seq<real>, b: seq<real>)
    requires Dominated(a, b)
    ensures Dominated(Ordered(a), Ordered(b))
  {
    if a != [] {
      OrderStatisticsDominate(a[1..], b[1..]);
      SortBySorts(AtMost, a[1..]);
      SortBySorts(AtMost, b[1..]);
      InsertDominates(a[0], Ordered(a[1..]), b[0], Ordered(b[1..]));
    }
  }

  lemma AtDominates(s: seq<real>, t: seq<real>, rank: real)
    requires Dominated(s, t) && 0.0 <= rank <= (|s| - 1) as real
    ensures At(s, rank) <= At(t, rank)
  {
    var i := rank.Floor;
    if rank != i as real {
      Mix(s[i], s[i + 1], t[i], t[i + 1], rank - i as real);
    }
  }

  // Replacing every sample by one at least as large, in any order, never lowers a percentile.
  lemma PercentileRisesWithSamples(a: seq<real>, b: seq<real>, slower: seq<real>, p: real)
    requires a != [] && Dominated(a, b) && SameElements(b, slower)
    ensures slower != [] && PercentileMs(a, p).value <= PercentileMs(slower, p).value
  {
    hide Least, Greatest, Ordered, At, Rank;
    SameElementsSize(b, slower);
    PercentileForgetsOrder(b, slower, p);
    OrderStatisticsDominate(a, b);
    OrderedFacts(a);
    OrderedFacts(b);
    if 0.0 < p < 100.0 {
      RankInRange(|a|, p);
      AtDominates(Ordered(a), Ordered(b), Rank(|a|, p));
    }
  }
}
