/** The timeline of `gait run inspect`: results joined to intents by id, the first result of an
    id winning. */
module InspectJoin {
  import opened CanonicalList
  import opened Counting
  import opened Sequences
  import opened Sorting
  import opened Strings
  import opened Wrappers

  datatype Intent = Intent(intentId: string, toolName: string, createdAt: int, argsDigest: string)

  // A result record with the fields the timeline shows already taken from its payload.
  datatype Result = Result(intentId: string, status: string, resultDigest: string, verdict: string,
                           reasonCodes: seq<string>, violations: seq<string>)

  datatype Entry = Entry(index: nat, intentId: string, toolName: string, createdAt: int, argsDigest: string,
                         status: string, resultDigest: string, verdict: string,
                         reasonCodes: seq<string>, violations: seq<string>)

  // ----- the reference: a search through the results for every intent -----

  function FirstResult(results: seq<Result>, id: string): Option<Result> {
    if results == [] then None
    else if results[0].intentId == id then Some(results[0])
    else FirstResult(results[1..], id)
  }

  // It finds the first result recorded for the id.
  lemma {:induction false} FirstResultIs(results: seq<Result>, id: string, i: nat)
    requires i < |results| && results[i].intentId == id && forall j :: 0 <= j < i ==> results[j].intentId != id
    ensures FirstResult(results, id) == Some(results[i])
  {
    if i > 0 {
      FirstResultIs(results[1..], id, i - 1);
    }
  }

  lemma {:induction false} NoResultIs(results: seq<Result>, id: string)
    requires forall j :: 0 <= j < |results| ==> results[j].intentId != id
    ensures FirstResult(results, id) == None
  {
    if results != [] {
      NoResultIs(results[1..], id);
    }
  }

  // Line k of the timeline: the intent's own fields, numbered from one, and those of the first
  // result recorded for it, or blanks.
  lemma LineIs(intents: seq<Intent>, results: seq<Result>, k: nat, i: nat)
    requires k < |intents|
    ensures var line, id := EntryOf(k + 1, intents[k], FirstResult(results, intents[k].intentId)), intents[k].intentId;
            && line.index == k + 1 && line.intentId == id && line.toolName == intents[k].toolName
            && line.createdAt == intents[k].createdAt && line.argsDigest == intents[k].argsDigest
            && (i < |results| && results[i].intentId == id && (forall j :: 0 <= j < i ==> results[j].intentId != id) ==>
                  && line.status == results[i].status && line.resultDigest == results[i].resultDigest
                  && line.verdict == results[i].verdict && line.reasonCodes == results[i].reasonCodes
                  && line.violations == results[i].violations)
            && ((forall j :: 0 <= j < |results| ==> results[j].intentId != id) ==>
                  && line.status == line.resultDigest == line.verdict == ""
                  && line.reasonCodes == line.violations == [])
  {
    hide FirstResult;
    var id := intents[k].intentId;
    if i < |results| && results[i].intentId == id && (forall j :: 0 <= j < i ==> results[j].intentId != id) {
      FirstResultIs(results, id, i);
    }
    if forall j :: 0 <= j < |results| ==> results[j].intentId != id {
      NoResultIs(results, id);
    }
  }

  function EntryOf(index: nat, intent: Intent, result: Option<Result>): Entry {
    match result
    case None =>
      Entry(index, intent.intentId, intent.toolName, intent.createdAt, intent.argsDigest, "", "", "", [], [])
    case Some(r) =>
      Entry(index, intent.intentId, intent.toolName, intent.createdAt, intent.argsDigest,
            r.status, r.resultDigest, r.verdict, r.reasonCodes, r.violations)
  }

  function Ids(results: seq<Result>): set<string> { set r | r in results :: r.intentId }

  function IntentIds(intents: seq<Intent>): set<string> { set i | i in intents :: i.intentId }

  // The results no intent asked for, in recorded order.
  function Orphans(results: seq<Result>, known: set<string>): seq<Result> {
    if results == [] then []
    else
      var last := results[|results| - 1];
      Orphans(results[..|results| - 1], known) + (if last.intentId in known then [] else [last])
  }

  predicate ByIdThenDigest(a: Result, b: Result) {
    if a.intentId == b.intentId then Leq(a.resultDigest, b.resultDigest) else Leq(a.intentId, b.intentId)
  }

  lemma ByIdThenDigestOrder()
    ensures TotalPreorder(ByIdThenDigest)
  {
    forall a: Result, b: Result ensures ByIdThenDigest(a, b) || ByIdThenDigest(b, a) {
      LeqTotal(a.intentId, b.intentId);
      LeqTotal(a.resultDigest, b.resultDigest);
    }
    forall a: Result, b: Result, c: Result | ByIdThenDigest(a, b) && ByIdThenDigest(b, c)
      ensures ByIdThenDigest(a, c)
    {
      if a.intentId == c.intentId {
        LeqTotal(a.intentId, b.intentId);
        if a.intentId == b.intentId { LeqTransitive(a.resultDigest, b.resultDigest, c.resultDigest); }
      } else if a.intentId != b.intentId && b.intentId != c.intentId {
        LeqTransitive(a.intentId, b.intentId, c.intentId);
      }
    }
  }

  function ShownId(id: string): string { if TrimSpace(id) == "" then "(empty)" else TrimSpace(id) }

  // The results shown as n that repeat an id seen before.
  function Repeats(results: seq<Result>, n: string): set<nat> {
    set j: nat | j < |results| && ShownId(results[j].intentId) == n && results[j].intentId in Ids(results[..j])
  }

  // Ids are shown trimmed, and blank ones are given a name.
  lemma ShownIdIs(a: string, b: string)
    ensures TrimSpace(a) == "" ==> ShownId(a) == "(empty)"
    ensures TrimSpace(a) != "" ==> ShownId(a) == TrimSpace(a)
  {
  }

  // By id, and by digest under one id, in the order of the first difference.
  lemma ByIdThenDigestIs(a: Result, b: Result)
    ensures a.intentId != b.intentId ==>
              (ByIdThenDigest(a, b) <==>
                 a.intentId <= b.intentId || exists i: nat :: FirstDifference(a.intentId, b.intentId, i))
    ensures a.intentId == b.intentId ==>
              (ByIdThenDigest(a, b) <==>
                 || a.resultDigest <= b.resultDigest
                 || exists i: nat :: FirstDifference(a.resultDigest, b.resultDigest, i))
  {
    hide Leq, FirstDifference;
    LeqIff(a.intentId, b.intentId);
    LeqIff(a.resultDigest, b.resultDigest);
  }

  function WarningFor(n: string): string { "multiple result records for intent_id=" + n + " (kept first)" }

  lemma WarningText()
    ensures WarningFor("call_1") == "multiple result records for intent_id=call_1 (kept first)"
  {
  }

  // ----- the loops -----

  // The map built so far answers like the search.
  ghost predicate Answers(byIntent: map<string, Result>, results: seq<Result>) {
    forall id :: FirstResult(results, id) == if id in byIntent then Some(byIntent[id]) else None
  }

  lemma {:induction false} FirstResultSnoc(results: seq<Result>, r: Result, id: string)
    ensures FirstResult(results + [r], id) ==
            if FirstResult(results, id).Some? then FirstResult(results, id)
            else if r.intentId == id then Some(r) else None
    ensures FirstResult(results, id).Some? <==> id in Ids(results)
  {
    if results == [] {
      assert results + [r] == [r];
    } else {
      FirstResultSnoc(results[1..], r, id);
      assert (results + [r])[1..] == results[1..] + [r];
      assert results == [results[0]] + results[1..];
    }
  }

  // duplicates counts the repeats, and the results are the distinct ids and the repeats.
  ghost predicate CountsRepeats(duplicates: map<string, nat>, results: seq<Result>) {
    && (forall n :: CountOf(duplicates, n) == |Repeats(results, n)|)
    && (forall n :: n in duplicates ==> duplicates[n] > 0)
    && |results| == |Ids(results)| + Sum(duplicates)
  }

  lemma RepeatsSnoc(results: seq<Result>, r: Result, n: string)
    ensures |Repeats(results + [r], n)| ==
            |Repeats(results, n)| + (if ShownId(r.intentId) == n && r.intentId in Ids(results) then 1 else 0)
  {
    hide ShownId, Ids;
    var before, after := Repeats(results, n), Repeats(results + [r], n);
    assert forall j :: 0 <= j <= |results| ==> (results + [r])[..j] == results[..j];
    assert results[..|results|] == results;
    if ShownId(r.intentId) == n && r.intentId in Ids(results) {
      assert after == before + {|results|};
    } else {
      assert after == before;
    }
  }

  lemma IdsSnoc(results: seq<Result>, r: Result)
    ensures Ids(results + [r]) == Ids(results) + {r.intentId}
  {
  }

  lemma CountStep(duplicates: map<string, nat>, results: seq<Result>, r: Result)
    requires CountsRepeats(duplicates, results)
    ensures CountsRepeats(if r.intentId in Ids(results) then Increment(duplicates, ShownId(r.intentId)) else duplicates,
                          results + [r])
  {
    hide Repeats, Ids, ShownId, Sum;
    var now := if r.intentId in Ids(results) then Increment(duplicates, ShownId(r.intentId)) else duplicates;
    IncrementAddsOne(duplicates, ShownId(r.intentId));
    IdsSnoc(results, r);
    if r.intentId in Ids(results) {
      assert Ids(results) + {r.intentId} == Ids(results);
    } else {
      assert |Ids(results) + {r.intentId}| == |Ids(results)| + 1;
    }
    assert |results + [r]| == |Ids(results + [r])| + Sum(now);
    forall n ensures CountOf(now, n) == |Repeats(results + [r], n)| { RepeatsSnoc(results, r, n); }
  }

  method IndexResults(results: seq<Result>) returns (byIntent: map<string, Result>, duplicates: map<string, nat>)
    ensures Answers(byIntent, results)
    ensures CountsRepeats(duplicates, results)
  {
    hide Repeats, ShownId, Ids, CountsRepeats, FirstResult, Answers;
    byIntent, duplicates := map[], map[];
    NoResults();
    for i := 0 to |results|
      invariant Answers(byIntent, results[..i])
      invariant CountsRepeats(duplicates, results[..i])
    {
      var result := results[i];
      assert results[..i + 1] == results[..i] + [result];
      AnswerStep(byIntent, results[..i], result);
      CountStep(duplicates, results[..i], result);
      if result.intentId in byIntent {
        duplicates := Increment(duplicates, ShownId(result.intentId));
        continue;
      }
      byIntent := byIntent[result.intentId := result];
    }
    assert results[..|results|] == results;
  }

  lemma NoResults()
    ensures Answers(map[], []) && CountsRepeats(map[], [])
  {
    assert forall n :: Repeats([], n) == {};
    assert Ids([]) == {};
  }

  lemma AnswerStep(byIntent: map<string, Result>, results: seq<Result>, r: Result)
    requires Answers(byIntent, results)
    ensures r.intentId in byIntent <==> r.intentId in Ids(results)
    ensures Answers(if r.intentId in byIntent then byIntent else byIntent[r.intentId := r], results + [r])
  {
    hide FirstResult, Ids;
    var now := if r.intentId in byIntent then byIntent else byIntent[r.intentId := r];
    FirstResultSnoc(results, r, r.intentId);
    forall id ensures FirstResult(results + [r], id) == if id in now then Some(now[id]) else None {
      FirstResultSnoc(results, r, id);
    }
  }

  method JoinEntries(intents: seq<Intent>, byIntent: map<string, Result>, ghost results: seq<Result>)
    returns (entries: seq<Entry>, intentIds: set<string>)
    requires Answers(byIntent, results)
    ensures |entries| == |intents|
    ensures forall k :: 0 <= k < |intents| ==>
              entries[k] == EntryOf(k + 1, intents[k], FirstResult(results, intents[k].intentId))
    ensures intentIds == IntentIds(intents)
  {
    hide FirstResult;
    entries, intentIds := [], {};
    for i := 0 to |intents|
      invariant |entries| == i
      invariant forall k :: 0 <= k < i ==>
                  entries[k] == EntryOf(k + 1, intents[k], FirstResult(results, intents[k].intentId))
      invariant intentIds == IntentIds(intents[..i])
    {
      var intent := intents[i];
      assert intents[..i + 1] == intents[..i] + [intent];
      intentIds := intentIds + {intent.intentId};
      var entry := Entry(i + 1, intent.intentId, intent.toolName, intent.createdAt, intent.argsDigest,
                         "", "", "", [], []);
      if intent.intentId in byIntent {
        var r := byIntent[intent.intentId];
        entry := entry.(status := r.status, resultDigest := r.resultDigest, verdict := r.verdict,
                        reasonCodes := r.reasonCodes, violations := r.violations);
      }
      entries := entries + [entry];
    }
    assert intents[..|intents|] == intents;
  }

  method CollectUnmatched(results: seq<Result>, intentIds: set<string>) returns (unmatched: seq<Result>)
    ensures SortedBy(ByIdThenDigest, unmatched) && SameElements(unmatched, Orphans(results, intentIds))
  {
    unmatched := [];
    for i := 0 to |results|
      invariant unmatched == Orphans(results[..i], intentIds)
    {
      assert results[..i + 1][..i] == results[..i];
      if results[i].intentId in intentIds {
        continue;
      }
      unmatched := unmatched + [results[i]];
    }
    assert results[..|results|] == results;
    ByIdThenDigestOrder();
    unmatched := SortSlice(ByIdThenDigest, unmatched);
  }

  method Warnings(duplicates: map<string, nat>, keys: seq<string>) returns (warnings: seq<string>)
    requires Distinct(keys) && (forall k :: k in keys <==> k in duplicates.Keys)
    ensures var shown := Canon(duplicates.Keys);
            |warnings| == |shown| && forall i :: 0 <= i < |shown| ==> warnings[i] == WarningFor(shown[i])
  {
    hide WarningFor;
    SortLists(keys, duplicates.Keys);
    var sorted := SortBy(Leq, keys);
    CanonIs(sorted, duplicates.Keys);
    hide Canon;
    warnings := [];
    for i := 0 to |sorted|
      invariant |warnings| == i && forall k :: 0 <= k < i ==> warnings[k] == WarningFor(sorted[k])
    {
      warnings := warnings + [WarningFor(sorted[i])];
    }
  }

  // The join of runInspect.
  method InspectRun(intents: seq<Intent>, results: seq<Result>)
    returns (entries: seq<Entry>, unmatched: seq<Result>, warnings: seq<string>, ghost duplicates: map<string, nat>)
    ensures |entries| == |intents|
    ensures forall k :: 0 <= k < |intents| ==>
              entries[k] == EntryOf(k + 1, intents[k], FirstResult(results, intents[k].intentId))
    ensures SortedBy(ByIdThenDigest, unmatched)
    ensures SameElements(unmatched, Orphans(results, IntentIds(intents)))
    ensures CountsRepeats(duplicates, results)
    ensures var shown := Canon(duplicates.Keys);
            |warnings| == |shown| && forall i :: 0 <= i < |shown| ==> warnings[i] == WarningFor(shown[i])
  {
    hide FirstResult, CountsRepeats, Orphans, Canon;
    var byIntent, dups := IndexResults(results);
    var intentIds;
    entries, intentIds := JoinEntries(intents, byIntent, results);
    unmatched := CollectUnmatched(results, intentIds);
    var keys := KeyList(dups);
    warnings := Warnings(dups, keys);
    duplicates := dups;
  }

  // A shown id is warned about exactly when one of its raw ids came twice.
  lemma WarnedIffRepeated(duplicates: map<string, nat>, results: seq<Result>, n: string)
    requires CountsRepeats(duplicates, results)
    ensures n in duplicates <==>
              exists i, j :: 0 <= i < j < |results| && results[i].intentId == results[j].intentId
                             && ShownId(results[j].intentId) == n
  {
    hide ShownId, Sum;
    assert CountOf(duplicates, n) == |Repeats(results, n)|;
    if n in duplicates {
      var j :| j in Repeats(results, n);
      var r :| r in results[..j] && r.intentId == results[j].intentId;
      var i :| 0 <= i < j && results[..j][i] == r;
      assert results[i].intentId == results[j].intentId;
    }
    if i, j :| 0 <= i < j < |results| && results[i].intentId == results[j].intentId
               && ShownId(results[j].intentId) == n {
      assert results[..j][i] == results[i];
      assert j in Repeats(results, n);
    }
  }

  lemma OrphansSnoc(front: seq<Result>, last: Result, known: set<string>, r: Result)
    ensures multiset(Orphans(front + [last], known))[r] ==
            multiset(Orphans(front, known))[r] + (if last.intentId !in known && last == r then 1 else 0)
  {
    assert (front + [last])[..|front|] == front;
    if last.intentId in known {
      assert Orphans(front, known) + [] == Orphans(front, known);
    } else {
      CountSnoc(r, Orphans(front, known), last);
    }
  }

  // The unmatched results are the results of unknown ids, each as often as it was recorded.
  lemma {:induction false} OrphansAreTheUnknown(results: seq<Result>, known: set<string>, r: Result)
    ensures multiset(Orphans(results, known))[r] == if r.intentId in known then 0 else multiset(results)[r]
  {
    if results != [] {
      hide Orphans;
      var front, last := results[..|results| - 1], results[|results| - 1];
      OrphansAreTheUnknown(front, known, r);
      assert results == front + [last];
      OrphansSnoc(front, last, known, r);
      CountSnoc(r, front, last);
    }
  }
}
