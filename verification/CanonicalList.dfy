/** Reason codes, violations, token paths and registry entries are all kept as one canonical
    list: trimmed, without blanks, without duplicates, sorted. */
module CanonicalList {
  import opened Sequences
  import opened Sorting
  import opened Strings

  // The strings that survive trimming.
  function Clean(values: seq<string>): set<string> {
    if values == [] then {} else Clean(values[..|values| - 1]) + Trimmed(values[|values| - 1])
  }

  function Trimmed(v: string): set<string> { if TrimSpace(v) == "" then {} else {TrimSpace(v)} }

  ghost predicate TrimsTo(values: seq<string>, x: string) {
    x != "" && exists v :: v in values && TrimSpace(v) == x
  }

  lemma {:induction false} CleanMember(values: seq<string>, x: string)
    ensures x in Clean(values) <==> TrimsTo(values, x)
  {
    if values != [] {
      var front, last := values[..|values| - 1], values[|values| - 1];
      CleanMember(front, x);
      assert values == front + [last];
      if TrimsTo(values, x) {
        var v :| v in values && TrimSpace(v) == x;
        assert v in front || v == last;
      }
    }
  }

  lemma CleanNothing()
    ensures Clean([]) == {}
  {
  }

  lemma CleanSnoc(values: seq<string>, v: string)
    ensures Clean(values + [v]) == Clean(values) + Trimmed(v)
  {
    assert (values + [v])[..|values|] == values;
  }

  lemma {:induction false} CleanConcat(a: seq<string>, b: seq<string>)
    ensures Clean(a + b) == Clean(a) + Clean(b)
  {
    if b == [] {
      assert a + b == a;
    } else {
      var front, last := b[..|b| - 1], b[|b| - 1];
      CleanConcat(a, front);
      assert (a + b)[..|a + b| - 1] == a + front;
    }
  }

  // r is the strictly increasing list of exactly the members of S.
  ghost predicate Lists(r: seq<string>, S: set<string>) {
    SortedBy(Leq, r) && Distinct(r) && (forall x :: x in r <==> x in S)
  }

  lemma LeqOrder(s: seq<string>)
    ensures TotalPreorder(Leq)
    ensures AntisymmetricOn(Leq, s)
  {
    forall x, y ensures (Leq(x, y) || Leq(y, x)) && (Leq(x, y) && Leq(y, x) ==> x == y) {
      LeqTotal(x, y);
    }
    forall x, y, z | Leq(x, y) && Leq(y, z) ensures Leq(x, z) { LeqTransitive(x, y, z); }
  }

  // A set has one strictly increasing list.
  lemma ListsUnique(a: seq<string>, b: seq<string>, S: set<string>)
    requires Lists(a, S) && Lists(b, S)
    ensures a == b
  {
    LeqOrder(a);
    DistinctSameElements(a, b);
    SortedUnique(Leq, a, b);
  }

  lemma SortLists(s: seq<string>, S: set<string>)
    requires Distinct(s) && (forall x :: x in s <==> x in S)
    ensures Lists(SortBy(Leq, s), S)
  {
    LeqOrder(s);
    SortBySorts(Leq, s);
    SameElementsSize(SortBy(Leq, s), s);
    DistinctAfterPermutation(s, SortBy(Leq, s));
  }

  lemma CanonExists(S: set<string>)
    ensures exists r :: Lists(r, S)
  {
    SortLists(Enumerate(S), S);
  }

  // The canonical list of a set.
  ghost function Canon(S: set<string>): seq<string> {
    CanonExists(S);
    var r :| Lists(r, S);
    r
  }

  lemma CanonLists(S: set<string>)
    ensures Lists(Canon(S), S)
  {
  }

  lemma CanonIs(r: seq<string>, S: set<string>)
    requires Lists(r, S)
    ensures r == Canon(S)
  {
    ListsUnique(r, Canon(S), S);
  }

  ghost predicate Tidy(S: set<string>) { forall x :: x in S ==> x != "" && TrimSpace(x) == x }

  lemma CleanIsTidy(values: seq<string>)
    ensures Tidy(Clean(values))
  {
    forall x | x in Clean(values) ensures x != "" && TrimSpace(x) == x {
      CleanMember(values, x);
      var v :| v in values && TrimSpace(v) == x;
      assert TrimmedBy(IsSpace, x);
    }
  }

  lemma CleanOfCanon(S: set<string>)
    requires Tidy(S)
    ensures Clean(Canon(S)) == S
  {
    forall x ensures x in Clean(Canon(S)) <==> x in S {
      CleanMember(Canon(S), x);
      if x in S {
        assert x in Canon(S) && TrimSpace(x) == x;
      }
    }
  }

  // What mergeUniqueSorted computes (MergeUniqueSorted below).
  ghost function Merged(current: seq<string>, extra: seq<string>): seq<string> {
    Canon(Clean(current) + Clean(extra))
  }

  lemma CleanOfMerged(current: seq<string>, extra: seq<string>)
    ensures Clean(Merged(current, extra)) == Clean(current) + Clean(extra)
  {
    CleanIsTidy(current);
    CleanIsTidy(extra);
    CleanOfCanon(Clean(current) + Clean(extra));
  }

  lemma MergedLeft(a: seq<string>, b: seq<string>, c: seq<string>)
    ensures Merged(Merged(a, b), c) == Canon(Clean(a) + Clean(b) + Clean(c))
  {
    CleanOfMerged(a, b);
  }

  lemma MergedRight(a: seq<string>, b: seq<string>, c: seq<string>)
    ensures Merged(a, Merged(b, c)) == Canon(Clean(a) + (Clean(b) + Clean(c)))
  {
    CleanOfMerged(b, c);
  }

  // The list is a canonical form of a set: merging is union.
  lemma MergedIsUnion(a: seq<string>, b: seq<string>, c: seq<string>)
    ensures Merged(a, b) == Merged(b, a)
    ensures Merged(Merged(a, b), c) == Merged(a, Merged(b, c))
    ensures Merged(Merged(a, b), b) == Merged(a, b)
  {
    UnionLaws(Clean(a), Clean(b), Clean(c));
    MergedLeft(a, b, c);
    MergedRight(a, b, c);
    MergedLeft(a, b, b);
  }

  lemma UnionLaws(A: set<string>, B: set<string>, C: set<string>)
    ensures A + B == B + A && A + B + C == A + (B + C) && A + B + B == A + B
  {
  }

  // Two inputs merge to the same list exactly when they have the same trimmed non-blank members.
  lemma MergedIsCanonical(a: seq<string>, b: seq<string>)
    ensures Merged([], a) == Merged([], b) <==> Clean(a) == Clean(b)
  {
    assert {} + Clean(a) == Clean(a) && {} + Clean(b) == Clean(b);
    CleanOfMerged([], a);
    CleanOfMerged([], b);
  }

  // State of the loops below after the given values: the seen set is what they clean to, and
  // the output lists it in some order.
  ghost predicate Gathered(out: seq<string>, seen: set<string>, values: seq<string>) {
    seen == Clean(values) && Distinct(out) && (forall x :: x in out <==> x in seen)
  }

  lemma GatherStep(out: seq<string>, seen: set<string>, values: seq<string>, i: nat)
    requires i < |values| && Gathered(out, seen, values[..i])
    ensures var t := TrimSpace(values[i]);
            if t == "" || t in seen then Gathered(out, seen, values[..i + 1])
            else Gathered(out + [t], seen + {t}, values[..i + 1])
  {
    assert values[..i + 1] == values[..i] + [values[i]];
    CleanSnoc(values[..i], values[i]);
  }

  lemma GatherDone(out: seq<string>, seen: set<string>, values: seq<string>)
    requires Gathered(out, seen, values)
    ensures SortBy(Leq, out) == Canon(Clean(values))
  {
    SortLists(out, seen);
    CanonIs(SortBy(Leq, out), seen);
  }

  method MergeUniqueSorted(current: seq<string>, extra: seq<string>) returns (out: seq<string>)
    ensures out == Merged(current, extra)
  {
    var merged := current + extra;
    var seen: set<string> := {};
    out := [];
    for i := 0 to |merged|
      invariant Gathered(out, seen, merged[..i])
    {
      GatherStep(out, seen, merged, i);
      var trimmed := TrimSpace(merged[i]);
      if trimmed == "" || trimmed in seen {
        continue;
      }
      seen := seen + {trimmed};
      out := out + [trimmed];
    }
    GatherDone(out, seen, merged) by { assert merged[..|merged|] == merged; }
    CleanConcat(current, extra);
    out := SortBy(Leq, out);
  }

  // The registry's own copy of the routine computes the same form.
  method UniqueSortedStrings(values: seq<string>) returns (out: seq<string>)
    ensures out == Merged([], values)
  {
    assert {} + Clean(values) == Clean(values);
    if |values| == 0 {
      CanonIs([], {});
      return [];
    }
    var seen: set<string> := {};
    out := [];
    for i := 0 to |values|
      invariant Gathered(out, seen, values[..i])
    {
      GatherStep(out, seen, values, i);
      var trimmed := TrimSpace(values[i]);
      if trimmed == "" || trimmed in seen {
        continue;
      }
      seen := seen + {trimmed};
      out := out + [trimmed];
    }
    GatherDone(out, seen, values) by { assert values[..|values|] == values; }
    out := SortBy(Leq, out);
  }
}
