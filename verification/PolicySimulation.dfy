/** Comparing a candidate policy with a baseline over fixture intents. */
module PolicySimulation {
  import opened CanonicalList
  import opened Counting
  import opened Sequences
  import opened Sorting
  import opened Strings

  datatype RunResult = RunResult(
    verdict: string, reasonCodes: seq<string>, violations: seq<string>, matchedRule: string)

  // One fixture under both policies, or the exit code of the step that failed.
  datatype Fixture = Failed(exit: int) | Runs(baseline: RunResult, candidate: RunResult)

  datatype Change = Change(fixture: nat, baselineVerdict: string, candidateVerdict: string)

  datatype VerdictCount = VerdictCount(verdict: string, count: nat)

  datatype Report =
    | Aborted(exit: int)
    | Report(total: nat, baselineVerdicts: seq<VerdictCount>, candidateVerdicts: seq<VerdictCount>,
             changed: seq<Change>, recommendation: string)

  predicate Differs(f: Fixture) { f.Runs? && f.baseline != f.candidate }

  function ChangeOf(fixtures: seq<Fixture>, i: nat): Change
    requires i < |fixtures| && fixtures[i].Runs?
  {
    Change(i, fixtures[i].baseline.verdict, fixtures[i].candidate.verdict)
  }

  ghost predicate AllRun(fixtures: seq<Fixture>) { forall i :: 0 <= i < |fixtures| ==> fixtures[i].Runs? }

  ghost predicate FirstFailure(fixtures: seq<Fixture>, i: nat) {
    i < |fixtures| && fixtures[i].Failed? && AllRun(fixtures[..i])
  }

  // The fixtures that differ, in order.
  function Changes(fixtures: seq<Fixture>): seq<Change>
    requires AllRun(fixtures)
  {
    if fixtures == [] then []
    else
      var last := |fixtures| - 1;
      Changes(fixtures[..last]) + (if Differs(fixtures[last]) then [ChangeOf(fixtures, last)] else [])
  }

  function BaselineOf(fixtures: seq<Fixture>, v: string): set<nat> {
    set i: nat | i < |fixtures| && fixtures[i].Runs? && fixtures[i].baseline.verdict == v
  }

  function CandidateOf(fixtures: seq<Fixture>, v: string): set<nat> {
    set i: nat | i < |fixtures| && fixtures[i].Runs? && fixtures[i].candidate.verdict == v
  }

  // counts is the histogram of the baseline (candidate) verdicts.
  ghost predicate CountsBaseline(counts: map<string, nat>, fixtures: seq<Fixture>) {
    && (forall v :: CountOf(counts, v) == |BaselineOf(fixtures, v)|)
    && Sum(counts) == |fixtures|
  }

  ghost predicate CountsCandidate(counts: map<string, nat>, fixtures: seq<Fixture>) {
    && (forall v :: CountOf(counts, v) == |CandidateOf(fixtures, v)|)
    && Sum(counts) == |fixtures|
  }

  lemma BaselineSnoc(fixtures: seq<Fixture>, f: Fixture, v: string)
    requires f.Runs?
    ensures |BaselineOf(fixtures + [f], v)| ==
            |BaselineOf(fixtures, v)| + (if f.baseline.verdict == v then 1 else 0)
  {
    var before, after := BaselineOf(fixtures, v), BaselineOf(fixtures + [f], v);
    assert forall i :: 0 <= i < |fixtures| ==> (fixtures + [f])[i] == fixtures[i];
    assert forall i :: i in before ==> i < |fixtures|;
    if f.baseline.verdict == v {
      assert after == before + {|fixtures|};
    } else {
      assert after == before;
    }
  }

  lemma CandidateSnoc(fixtures: seq<Fixture>, f: Fixture, v: string)
    requires f.Runs?
    ensures |CandidateOf(fixtures + [f], v)| ==
            |CandidateOf(fixtures, v)| + (if f.candidate.verdict == v then 1 else 0)
  {
    var before, after := CandidateOf(fixtures, v), CandidateOf(fixtures + [f], v);
    assert forall i :: 0 <= i < |fixtures| ==> (fixtures + [f])[i] == fixtures[i];
    assert forall i :: i in before ==> i < |fixtures|;
    if f.candidate.verdict == v {
      assert after == before + {|fixtures|};
    } else {
      assert after == before;
    }
  }

  lemma BaselineStep(counts: map<string, nat>, fixtures: seq<Fixture>, f: Fixture)
    requires CountsBaseline(counts, fixtures) && f.Runs?
    ensures CountsBaseline(Increment(counts, f.baseline.verdict), fixtures + [f])
  {
    hide BaselineOf, Sum;
    IncrementAddsOne(counts, f.baseline.verdict);
    forall v ensures CountOf(Increment(counts, f.baseline.verdict), v) == |BaselineOf(fixtures + [f], v)| {
      BaselineSnoc(fixtures, f, v);
    }
  }

  lemma CandidateStep(counts: map<string, nat>, fixtures: seq<Fixture>, f: Fixture)
    requires CountsCandidate(counts, fixtures) && f.Runs?
    ensures CountsCandidate(Increment(counts, f.candidate.verdict), fixtures + [f])
  {
    hide CandidateOf, Sum;
    IncrementAddsOne(counts, f.candidate.verdict);
    forall v ensures CountOf(Increment(counts, f.candidate.verdict), v) == |CandidateOf(fixtures + [f], v)| {
      CandidateSnoc(fixtures, f, v);
    }
  }

  // The histogram written out by verdict.
  ghost predicate Spells(out: seq<VerdictCount>, counts: map<string, nat>) {
    && |out| == |Canon(counts.Keys)|
    && forall i :: 0 <= i < |out| ==>
         out[i].verdict == Canon(counts.Keys)[i] && out[i].count == CountOf(counts, out[i].verdict)
  }

  function Total(out: seq<VerdictCount>): nat { if out == [] then 0 else out[0].count + Total(out[1..]) }

  method SortedVerdictCounts(counts: map<string, nat>) returns (out: seq<VerdictCount>)
    ensures Spells(out, counts)
  {
    hide Canon, Distinct, SortBy;
    var verdicts := KeyList(counts);
    SortLists(verdicts, counts.Keys);
    verdicts := SortBy(Leq, verdicts);
    CanonIs(verdicts, counts.Keys);
    assert forall v :: v in verdicts ==> v in counts;
    hide Lists, Leq;
    out := [];
    for i := 0 to |verdicts|
      invariant |out| == i
      invariant forall k :: 0 <= k < i ==> out[k].verdict == verdicts[k] && out[k].count == CountOf(counts, verdicts[k])
    {
      assert verdicts[i] in verdicts;
      out := out + [VerdictCount(verdicts[i], counts[verdicts[i]])];
    }
  }

  // A written histogram adds up to the sum of the counters.
  lemma SpelledTotal(out: seq<VerdictCount>, counts: map<string, nat>)
    requires Spells(out, counts)
    ensures Total(out) == Sum(counts)
  {
    var keys := Canon(counts.Keys);
    assert Lists(keys, counts.Keys);
    SumListedIsSum(keys, counts);
    TotalIsSumListed(out, keys, counts);
  }

  lemma {:induction false} TotalIsSumListed(out: seq<VerdictCount>, keys: seq<string>, counts: map<string, nat>)
    requires |out| == |keys| && (forall k :: k in keys ==> k in counts)
    requires forall i :: 0 <= i < |out| ==> out[i].verdict == keys[i] && out[i].count == CountOf(counts, keys[i])
    ensures Total(out) == SumListed(keys, counts)
  {
    if out != [] {
      TotalIsSumListed(out[1..], keys[1..], counts);
    }
  }

  predicate Relaxes(c: Change) { c.baselineVerdict != "allow" && c.candidateVerdict == "allow" }

  predicate Tightens(c: Change) { c.baselineVerdict != "block" && c.candidateVerdict == "block" }

  method RecommendSimulationStage(changed: seq<Change>) returns (stage: string)
    ensures stage in {"observe", "require_approval", "enforce"}
    ensures stage == "observe" <==> exists c :: c in changed && Relaxes(c)
    ensures stage == "enforce" <==> forall c :: c in changed ==> !Relaxes(c) && !Tightens(c)
  {
    if |changed| == 0 {
      return "enforce";
    }
    var hasRelaxation, hasBlockIncrease := false, false;
    for i := 0 to |changed|
      invariant hasRelaxation <==> exists k :: 0 <= k < i && Relaxes(changed[k])
      invariant hasBlockIncrease <==> exists k :: 0 <= k < i && Tightens(changed[k])
    {
      if changed[i].baselineVerdict != "allow" && changed[i].candidateVerdict == "allow" {
        hasRelaxation := true;
      }
      if changed[i].baselineVerdict != "block" && changed[i].candidateVerdict == "block" {
        hasBlockIncrease := true;
      }
    }
    assert (exists c :: c in changed && Relaxes(c)) <==> hasRelaxation;
    assert (exists c :: c in changed && Tightens(c)) <==> hasBlockIncrease;
    if hasRelaxation {
      return "observe";
    }
    if hasBlockIncrease {
      return "require_approval";
    }
    return "enforce";
  }

  // What the candidate policy does to the fixtures.
  ghost predicate AllowsNoMore(fixtures: seq<Fixture>) {
    CandidateOf(fixtures, "allow") <= BaselineOf(fixtures, "allow")
  }

  ghost predicate BlocksNoMore(fixtures: seq<Fixture>) {
    CandidateOf(fixtures, "block") <= BaselineOf(fixtures, "block")
  }

  lemma {:induction false} ChangesAreTheDifferences(fixtures: seq<Fixture>, c: Change)
    requires AllRun(fixtures)
    ensures c in Changes(fixtures) <==>
              c.fixture < |fixtures| && Differs(fixtures[c.fixture]) && c == ChangeOf(fixtures, c.fixture)
  {
    if fixtures != [] {
      ChangesAreTheDifferences(fixtures[..|fixtures| - 1], c);
    }
  }

  // Spelled out: a fixture on which any of the four results differs has an entry, with both verdicts.
  lemma ChangedIff(fixtures: seq<Fixture>, i: nat)
    requires AllRun(fixtures)
    ensures (exists c :: c in Changes(fixtures) && c.fixture == i) <==>
              && i < |fixtures|
              && var b, d := fixtures[i].baseline, fixtures[i].candidate;
                 || b.verdict != d.verdict || b.reasonCodes != d.reasonCodes
                 || b.violations != d.violations || b.matchedRule != d.matchedRule
    ensures forall c :: c in Changes(fixtures) ==>
              && c.fixture < |fixtures|
              && c.baselineVerdict == fixtures[c.fixture].baseline.verdict
              && c.candidateVerdict == fixtures[c.fixture].candidate.verdict
  {
    hide Changes;
    forall c
      ensures c in Changes(fixtures) <==>
                c.fixture < |fixtures| && Differs(fixtures[c.fixture]) && c == ChangeOf(fixtures, c.fixture)
    {
      ChangesAreTheDifferences(fixtures, c);
    }
    if i < |fixtures| && Differs(fixtures[i]) {
      assert ChangeOf(fixtures, i).fixture == i && ChangeOf(fixtures, i) in Changes(fixtures);
    }
  }

  // At most one entry per fixture, in the order of the fixtures.
  lemma {:induction false} ChangesRise(fixtures: seq<Fixture>)
    requires AllRun(fixtures)
    ensures var changes := Changes(fixtures);
            && (forall c :: c in changes ==> c.fixture < |fixtures|)
            && forall j, k :: 0 <= j < k < |changes| ==> changes[j].fixture < changes[k].fixture
  {
    if fixtures != [] {
      ChangesRise(fixtures[..|fixtures| - 1]);
    }
  }

  lemma NoMoreIff(fixtures: seq<Fixture>)
    requires AllRun(fixtures)
    ensures AllowsNoMore(fixtures) <==>
              forall i :: 0 <= i < |fixtures| && fixtures[i].candidate.verdict == "allow" ==>
                fixtures[i].baseline.verdict == "allow"
    ensures BlocksNoMore(fixtures) <==>
              forall i :: 0 <= i < |fixtures| && fixtures[i].candidate.verdict == "block" ==>
                fixtures[i].baseline.verdict == "block"
  {
    assert forall i: nat, v :: i in CandidateOf(fixtures, v) <==>
                               i < |fixtures| && fixtures[i].candidate.verdict == v;
  }

  // The recommendation, decided on the changed fixtures only, is right about all of them.
  lemma StageMeaning(fixtures: seq<Fixture>)
    requires AllRun(fixtures)
    ensures AllowsNoMore(fixtures) <==> !exists c :: c in Changes(fixtures) && Relaxes(c)
    ensures BlocksNoMore(fixtures) <==> !exists c :: c in Changes(fixtures) && Tightens(c)
  {
    forall c ensures c in Changes(fixtures) <==>
                     c.fixture < |fixtures| && Differs(fixtures[c.fixture]) && c == ChangeOf(fixtures, c.fixture) {
      ChangesAreTheDifferences(fixtures, c);
    }
    forall i: nat | i < |fixtures| && Differs(fixtures[i]) ensures ChangeOf(fixtures, i) in Changes(fixtures) {
      assert ChangeOf(fixtures, i).fixture == i;
    }
    if !AllowsNoMore(fixtures) {
      var i :| i in CandidateOf(fixtures, "allow") && i !in BaselineOf(fixtures, "allow");
      assert Differs(fixtures[i]) && Relaxes(ChangeOf(fixtures, i));
    }
    if !BlocksNoMore(fixtures) {
      var i :| i in CandidateOf(fixtures, "block") && i !in BaselineOf(fixtures, "block");
      assert Differs(fixtures[i]) && Tightens(ChangeOf(fixtures, i));
    }
    if c :| c in Changes(fixtures) && Relaxes(c) {
      assert c.fixture in CandidateOf(fixtures, "allow");
    }
    if c :| c in Changes(fixtures) && Tightens(c) {
      assert c.fixture in CandidateOf(fixtures, "block");
    }
  }

  // For every verdict the two histograms are at most the number of changed fixtures apart.
  lemma {:induction false} HistogramsAreClose(fixtures: seq<Fixture>, v: string)
    requires AllRun(fixtures)
    ensures |BaselineOf(fixtures, v)| <= |CandidateOf(fixtures, v)| + |Changes(fixtures)|
    ensures |CandidateOf(fixtures, v)| <= |BaselineOf(fixtures, v)| + |Changes(fixtures)|
  {
    hide BaselineOf, CandidateOf;
    if fixtures == [] {
      NothingIn(v);
    } else {
      var last := |fixtures| - 1;
      var front, f := fixtures[..last], fixtures[last];
      HistogramsAreClose(front, v);
      assert fixtures == front + [f];
      BaselineSnoc(front, f, v);
      CandidateSnoc(front, f, v);
    }
  }

  method RunPolicySimulate(fixtures: seq<Fixture>)
    returns (report: Report, ghost baseline: map<string, nat>, ghost candidate: map<string, nat>)
    ensures report.Aborted? <==> !AllRun(fixtures)
    ensures report.Aborted? ==> exists i: nat :: FirstFailure(fixtures, i) && report.exit == fixtures[i].exit
    ensures report.Report? ==>
              && report.total == |fixtures|
              && CountsBaseline(baseline, fixtures) && Spells(report.baselineVerdicts, baseline)
              && CountsCandidate(candidate, fixtures) && Spells(report.candidateVerdicts, candidate)
              && Total(report.baselineVerdicts) == Total(report.candidateVerdicts) == |fixtures|
              && report.changed == Changes(fixtures)
              && report.recommendation in {"observe", "require_approval", "enforce"}
              && (report.recommendation == "observe" <==> !AllowsNoMore(fixtures))
              && (report.recommendation == "enforce" <==> AllowsNoMore(fixtures) && BlocksNoMore(fixtures))
  {
    hide Canon, Spells, BaselineOf, CandidateOf, Total;
    var baselineCounts: map<string, nat> := map[];
    var candidateCounts: map<string, nat> := map[];
    var changed: seq<Change> := [];
    NoCounts();
    for i := 0 to |fixtures|
      invariant AllRun(fixtures[..i])
      invariant CountsBaseline(baselineCounts, fixtures[..i])
      invariant CountsCandidate(candidateCounts, fixtures[..i])
      invariant changed == Changes(fixtures[..i])
    {
      var fixture := fixtures[i];
      assert fixtures[..i + 1] == fixtures[..i] + [fixture];
      if fixture.Failed? {
        assert FirstFailure(fixtures, i);
        return Aborted(fixture.exit), map[], map[];
      }
      BaselineStep(baselineCounts, fixtures[..i], fixture);
      CandidateStep(candidateCounts, fixtures[..i], fixture);
      baselineCounts := Increment(baselineCounts, fixture.baseline.verdict);
      candidateCounts := Increment(candidateCounts, fixture.candidate.verdict);
      assert fixtures[..i + 1][..i] == fixtures[..i];
      if fixture.baseline.verdict != fixture.candidate.verdict
         || fixture.baseline.reasonCodes != fixture.candidate.reasonCodes
         || fixture.baseline.violations != fixture.candidate.violations
         || fixture.baseline.matchedRule != fixture.candidate.matchedRule
      {
        changed := changed + [Change(i, fixture.baseline.verdict, fixture.candidate.verdict)];
      }
    }
    assert fixtures[..|fixtures|] == fixtures;
    baseline, candidate := baselineCounts, candidateCounts;
    StageMeaning(fixtures);
    var recommendation := RecommendSimulationStage(changed);
    var baselineVerdicts := SortedVerdictCounts(baselineCounts);
    var candidateVerdicts := SortedVerdictCounts(candidateCounts);
    SpelledTotal(baselineVerdicts, baselineCounts);
    SpelledTotal(candidateVerdicts, candidateCounts);
    report := Report(|fixtures|, baselineVerdicts, candidateVerdicts, changed, recommendation);
  }

  lemma NoCounts()
    ensures CountsBaseline(map[], []) && CountsCandidate(map[], [])
  {
    forall v ensures BaselineOf([], v) == {} && CandidateOf([], v) == {} {
      NothingIn(v);
    }
  }

  lemma NothingIn(v: string)
    ensures BaselineOf([], v) == {} && CandidateOf([], v) == {}
  {
  }
}
