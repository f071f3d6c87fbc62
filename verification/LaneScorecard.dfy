/** Integration lane scorecard, over the reals; rounding is any monotone map. */
module LaneScorecard {
  import opened CanonicalList
  import opened Sequences
  import opened Sorting
  import opened Strings

  datatype Lane = Lane(id: string, name: string, setupMinutes: real, failureRate: real,
                       determinism: real, policyCorrectness: real, reach: real)

  // One value per metric: setup time, failure rate, determinism, policy correctness, reach.
  datatype Metrics = Metrics(setup: real, failure: real, determinism: real, policy: real, reach: real)

  // A lane as reported: its rounded metrics, their rounded scores, and the rounded weighted sum.
  datatype Scored = Scored(id: string, name: string, metrics: Metrics, normalized: Metrics, score: real)

  datatype Decision = Decision(selected: string, selectedScore: real, runnerUp: string, runnerUpScore: real,
                               confidence: real, level: string, thresholdMet: bool, expansionAllowed: bool)

  const MAX_SETUP_MINUTES := 30.0

  // What the input reader admits.
  predicate ValidLane(l: Lane) {
    && l.setupMinutes >= 0.0
    && 0.0 <= l.failureRate <= 1.0
    && 0.0 <= l.determinism <= 1.0
    && 0.0 <= l.policyCorrectness <= 1.0
    && 0.0 <= l.reach <= 1.0
  }

  predicate UniqueIds(lanes: seq<Lane>) { forall i, j :: 0 <= i < j < |lanes| ==> lanes[i].id != lanes[j].id }

  ghost predicate Monotone(round: real -> real) { forall x, y :: x <= y ==> round(x) <= round(y) }

  function Max(a: real, b: real): real { if a < b then b else a }

  function Min(a: real, b: real): real { if b < a then b else a }

  function SetupScore(minutes: real): real {
    if minutes <= 0.0 then 1.0 else Max(0.0, 1.0 - Min(minutes, MAX_SETUP_MINUTES) / MAX_SETUP_MINUTES)
  }

  function MetricScores(l: Lane): seq<real> {
    [SetupScore(l.setupMinutes), Max(0.0, 1.0 - l.failureRate), l.determinism, l.policyCorrectness, l.reach]
  }

  const WEIGHTS := [0.25, 0.25, 0.2, 0.2, 0.1]

  function Weighted(l: Lane): real {
    SetupScore(l.setupMinutes) * 0.25 + Max(0.0, 1.0 - l.failureRate) * 0.25
    + l.determinism * 0.2 + l.policyCorrectness * 0.2 + l.reach * 0.1
  }

  function RoundedMetrics(l: Lane, round: real -> real): Metrics {
    Metrics(round(l.setupMinutes), round(l.failureRate), round(l.determinism), round(l.policyCorrectness),
            round(l.reach))
  }

  function RoundedScores(l: Lane, round: real -> real): Metrics {
    Metrics(round(SetupScore(l.setupMinutes)), round(Max(0.0, 1.0 - l.failureRate)), round(l.determinism),
            round(l.policyCorrectness), round(l.reach))
  }

  function Item(l: Lane, round: real -> real): Scored {
    Scored(l.id, l.name, RoundedMetrics(l, round), RoundedScores(l, round), round(Weighted(l)))
  }

  method EvaluateLane(l: Lane, round: real -> real) returns (scored: Scored)
    ensures scored == Item(l, round)
  {
    var scores := MetricScores(l);
    var weighted := 0.0;
    for k := 0 to 5
      invariant weighted ==
        (if k > 0 then scores[0] * 0.25 else 0.0) + (if k > 1 then scores[1] * 0.25 else 0.0)
        + (if k > 2 then scores[2] * 0.2 else 0.0) + (if k > 3 then scores[3] * 0.2 else 0.0)
        + (if k > 4 then scores[4] * 0.1 else 0.0)
    {
      weighted := weighted + scores[k] * WEIGHTS[k];
    }
    var normalized := Metrics(round(scores[0]), round(scores[1]), round(scores[2]), round(scores[3]), round(scores[4]));
    scored := Scored(l.id, l.name, RoundedMetrics(l, round), normalized, round(weighted));
  }

  function Evaluated(lanes: seq<Lane>, round: real -> real): (items: seq<Scored>)
    ensures |items| == |lanes|
    ensures forall i :: 0 <= i < |lanes| ==> items[i] == Item(lanes[i], round)
  {
    seq(|lanes|, i requires 0 <= i < |lanes| => Item(lanes[i], round))
  }

  // Higher score first; equal scores by id.
  predicate Ahead(a: Scored, b: Scored) { a.score > b.score || (a.score == b.score && Leq(a.id, b.id)) }

  function Ranking(lanes: seq<Lane>, round: real -> real): seq<Scored> { SortBy(Ahead, Evaluated(lanes, round)) }

  method RankLanes(lanes: seq<Lane>, round: real -> real) returns (ranked: seq<Scored>)
    ensures ranked == Ranking(lanes, round)
  {
    var scored: seq<Scored> := [];
    for i := 0 to |lanes|
      invariant |scored| == i
      invariant forall k :: 0 <= k < i ==> scored[k] == Item(lanes[k], round)
    {
      var item := EvaluateLane(lanes[i], round);
      scored := scored + [item];
    }
    assert scored == Evaluated(lanes, round);
    ranked := SortBy(Ahead, scored);
  }

  method DecisionFor(scored: seq<Scored>, round: real -> real) returns (d: Decision)
    requires scored != [] && SortedBy(Ahead, scored)
    ensures d == DecisionOf(scored, round)
  {
    var selected := scored[0];
    var confidence := 1.0;
    var runnerUp, runnerUpScore := "", 0.0;
    if |scored| > 1 {
      assert Ahead(scored[0], scored[1]);
      runnerUp, runnerUpScore := scored[1].id, scored[1].score;
      confidence := Max(0.0, selected.score - scored[1].score);
    }
    var thresholdMet := selected.score >= 0.75;
    var level := "high";
    if confidence < 0.03 {
      level := "low";
    } else if confidence < 0.08 {
      level := "medium";
    }
    d := Decision(selected.id, selected.score, runnerUp, runnerUpScore, round(confidence), level,
                  thresholdMet, thresholdMet && confidence >= 0.03);
  }

  // How far the winner is ahead; a lone lane is ahead by one.
  function Lead(scored: seq<Scored>): real
    requires scored != []
  {
    if |scored| == 1 then 1.0 else scored[0].score - scored[1].score
  }

  function DecisionOf(scored: seq<Scored>, round: real -> real): Decision
    requires scored != []
  {
    var lead := Lead(scored);
    Decision(scored[0].id, scored[0].score,
             if |scored| == 1 then "" else scored[1].id, if |scored| == 1 then 0.0 else scored[1].score,
             round(lead), if lead < 0.03 then "low" else if lead < 0.08 then "medium" else "high",
             scored[0].score >= 0.75, scored[0].score >= 0.75 && lead >= 0.03)
  }

  // ----- scores -----

  // A valid lane scores between 0 and 1.
  lemma ScoreIsInUnit(l: Lane)
    requires ValidLane(l)
    ensures 0.0 <= Weighted(l) <= 1.0
  {
    assert 0.0 <= SetupScore(l.setupMinutes) <= 1.0;
  }

  // What each metric is worth: raising it alone moves the score by its weight.
  lemma MetricWeights(l: Lane, x: real)
    ensures Weighted(l.(policyCorrectness := x)) - Weighted(l) == 0.2 * (x - l.policyCorrectness)
    ensures Weighted(l.(determinism := x)) - Weighted(l) == 0.2 * (x - l.determinism)
    ensures Weighted(l.(reach := x)) - Weighted(l) == 0.1 * (x - l.reach)
    ensures x <= 1.0 && l.failureRate <= 1.0 ==>
              Weighted(l.(failureRate := x)) - Weighted(l) == 0.25 * (l.failureRate - x)
    ensures 0.0 <= x <= 30.0 && 0.0 <= l.setupMinutes <= 30.0 ==>
              Weighted(l.(setupMinutes := x)) - Weighted(l) == 0.25 * (l.setupMinutes - x) / 30.0
  {
    if 0.0 <= x <= 30.0 && 0.0 <= l.setupMinutes <= 30.0 {
      SetupScoreShape(x);
      SetupScoreShape(l.setupMinutes);
    }
  }

  // The scale is fixed at both ends.
  lemma PerfectAndWorstLane(l: Lane)
    ensures l == Lane(l.id, l.name, 0.0, 0.0, 1.0, 1.0, 1.0) ==> ValidLane(l) && Weighted(l) == 1.0
    ensures l == Lane(l.id, l.name, 30.0, 1.0, 0.0, 0.0, 0.0) ==> ValidLane(l) && Weighted(l) == 0.0
  {
  }

  // Exact numbers and numbers cut to a fixed unit are rounded monotonically.
  lemma RoundingIsMonotone()
    ensures Monotone(x => x) && Monotone(ToSixPlaces)
  {
    forall x: real, y: real | x <= y ensures ToSixPlaces(x) <= ToSixPlaces(y) {
      assert (x * 1000000.0 + 0.5).Floor <= (y * 1000000.0 + 0.5).Floor;
    }
  }

  function ToSixPlaces(x: real): real { (x * 1000000.0 + 0.5).Floor as real / 1000000.0 }

  // What a lane is reported with, for exact rounding: its own metrics, the part of each that
  // counts, and its score, which is the weighted sum of those parts.
  lemma ReportedItem(l: Lane)
    requires ValidLane(l) && l.setupMinutes <= 30.0
    ensures var item := Item(l, x => x);
            && item.id == l.id && item.name == l.name
            && item.metrics == Metrics(l.setupMinutes, l.failureRate, l.determinism, l.policyCorrectness, l.reach)
            && item.normalized.setup == 1.0 - l.setupMinutes / 30.0
            && item.normalized.failure == 1.0 - l.failureRate
            && item.normalized.determinism == l.determinism
            && item.normalized.policy == l.policyCorrectness
            && item.normalized.reach == l.reach
            && item.score == 0.25 * item.normalized.setup + 0.25 * item.normalized.failure
                             + 0.2 * item.normalized.determinism + 0.2 * item.normalized.policy
                             + 0.1 * item.normalized.reach
  {
    SetupScoreShape(l.setupMinutes);
  }

  // better improves every metric of the same lane, or leaves it as it is.
  predicate Improves(better: Lane, l: Lane) {
    && better.id == l.id
    && better.setupMinutes <= l.setupMinutes
    && better.failureRate <= l.failureRate
    && better.determinism >= l.determinism
    && better.policyCorrectness >= l.policyCorrectness
    && better.reach >= l.reach
  }

  lemma ImprovementRaisesScore(better: Lane, l: Lane)
    requires Improves(better, l)
    ensures Weighted(better) >= Weighted(l)
  {
    assert SetupScore(better.setupMinutes) >= SetupScore(l.setupMinutes);
  }

  // ----- ranking -----

  lemma AheadOrder(items: seq<Scored>)
    requires forall i, j :: 0 <= i < j < |items| ==> items[i].id != items[j].id
    ensures TotalPreorder(Ahead) && AntisymmetricOn(Ahead, items)
  {
    forall a: Scored, b: Scored ensures Ahead(a, b) || Ahead(b, a) { LeqTotal(a.id, b.id); }
    forall a: Scored, b: Scored, c: Scored | Ahead(a, b) && Ahead(b, c) ensures Ahead(a, c) {
      if a.score == c.score { LeqTransitive(a.id, b.id, c.id); }
    }
    forall a: Scored, b: Scored | a in items && b in items && Ahead(a, b) && Ahead(b, a) ensures a == b {
      LeqTotal(a.id, b.id);
    }
  }

  lemma UniqueAfterPermutation(a: seq<Lane>, b: seq<Lane>)
    requires UniqueIds(a) && SameElements(a, b)
    ensures UniqueIds(b)
  {
    SameElementsSize(a, b);
    DistinctAfterPermutation(a, b);
    forall i, j | 0 <= i < j < |b| ensures b[i].id != b[j].id {
      assert b[i] in a && b[j] in a;
    }
  }

  lemma EvaluatedSame(a: seq<Lane>, b: seq<Lane>, round: real -> real)
    requires UniqueIds(a) && SameElements(a, b)
    ensures SameElements(Evaluated(a, round), Evaluated(b, round))
  {
    hide Weighted;
    SameElementsSize(a, b);
    UniqueAfterPermutation(a, b);
    assert SameElements(b, a);
    EvaluatedWithin(a, b, round);
    EvaluatedWithin(b, a, round);
    DistinctSameElements(Evaluated(a, round), Evaluated(b, round));
  }

  lemma EvaluatedWithin(a: seq<Lane>, b: seq<Lane>, round: real -> real)
    requires forall l :: l in a ==> l in b
    ensures forall x :: x in Evaluated(a, round) ==> x in Evaluated(b, round)
  {
    hide Weighted;
    forall x | x in Evaluated(a, round) ensures x in Evaluated(b, round) {
      var i :| 0 <= i < |a| && Evaluated(a, round)[i] == x;
      assert a[i] in b;
      var j :| 0 <= j < |b| && b[j] == a[i];
      assert Evaluated(b, round)[j] == x;
    }
  }

  // The order in which the lanes are listed matters neither to the ranking nor to the decision.
  lemma RankingForgetsOrder(a: seq<Lane>, b: seq<Lane>, round: real -> real)
    requires UniqueIds(a) && SameElements(a, b)
    ensures Ranking(a, round) == Ranking(b, round)
    ensures a != [] ==>
              && Ranking(a, round) != [] && Ranking(b, round) != []
              && DecisionOf(Ranking(a, round), round) == DecisionOf(Ranking(b, round), round)
  {
    EvaluatedSame(a, b, round);
    AheadOrder(Evaluated(a, round));
    SortForgetsOrder(Ahead, Evaluated(a, round), Evaluated(b, round));
    SameElementsSize(Ranking(a, round), Evaluated(a, round));
  }

  // The items ranked before x.
  ghost function Before(items: seq<Scored>, x: Scored): set<Scored> { set y | y in items && y != x && Ahead(y, x) }

  lemma PositionIsCount(items: seq<Scored>, ranked: seq<Scored>, k: nat)
    requires forall i, j :: 0 <= i < j < |items| ==> items[i].id != items[j].id
    requires SortedBy(Ahead, ranked) && SameElements(ranked, items) && k < |ranked|
    ensures |Before(items, ranked[k])| == k
  {
    AheadOrder(items);
    SameElementsSize(ranked, items);
    DistinctAfterPermutation(items, ranked);
    var x := ranked[k];
    var front := ranked[..k];
    forall y | y in front ensures y in Before(items, x) {
      var i :| 0 <= i < k && ranked[i] == y;
      assert y in ranked;
    }
    forall y | y in Before(items, x) ensures y in front {
      assert y in ranked;
      var i :| 0 <= i < |ranked| && ranked[i] == y;
      assert i > k ==> Ahead(x, y);
      assert front[i] == y;
    }
    assert Before(items, x) == set y | y in front;
    SetOfDistinct(front);
  }

  // Improving any metric of one lane never moves it down the ranking.
  lemma ImprovementNeverHurts(lanes: seq<Lane>, i: nat, better: Lane, round: real -> real, before: nat, after: nat)
    requires Monotone(round) && UniqueIds(lanes) && i < |lanes| && Improves(better, lanes[i])
    requires before < |Ranking(lanes, round)| && Ranking(lanes, round)[before].id == better.id
    requires after < |Ranking(lanes[i := better], round)| && Ranking(lanes[i := better], round)[after].id == better.id
    ensures after <= before
  {
    hide Ahead, Weighted, Monotone, SortBy, Before;
    var now := lanes[i := better];
    var prior, later := Evaluated(lanes, round), Evaluated(now, round);
    AheadOrder(prior);
    SortBySorts(Ahead, prior);
    SortBySorts(Ahead, later);
    PositionIsCount(prior, Ranking(lanes, round), before);
    PositionIsCount(later, Ranking(now, round), after);
    RankedItem(lanes, round, i, before);
    RankedItem(now, round, i, after);
    assert later[i].score >= prior[i].score by {
      ImprovementRaisesScore(better, lanes[i]);
      RoundKeeps(round, Weighted(lanes[i]), Weighted(better));
    }
    FewerBefore(prior, later, i);
    SubsetSize(Before(later, later[i]), Before(prior, prior[i]));
  }

  lemma RoundKeeps(round: real -> real, x: real, y: real)
    requires Monotone(round) && x <= y
    ensures round(x) <= round(y)
  {
  }

  lemma FewerBefore(prior: seq<Scored>, later: seq<Scored>, i: nat)
    requires |prior| == |later| && i < |prior| && later == prior[i := later[i]]
    requires later[i].id == prior[i].id && later[i].score >= prior[i].score
    requires forall j, k :: 0 <= j < k < |prior| ==> prior[j].id != prior[k].id
    ensures Before(later, later[i]) <= Before(prior, prior[i])
  {
    forall z | z in Before(later, later[i]) ensures z in Before(prior, prior[i]) {
      var j :| 0 <= j < |later| && later[j] == z;
      assert prior[j] == z;
    }
  }

  lemma RankedItem(lanes: seq<Lane>, round: real -> real, i: nat, k: nat)
    requires UniqueIds(lanes) && i < |lanes| && k < |Ranking(lanes, round)|
    requires Ranking(lanes, round)[k].id == lanes[i].id
    ensures Ranking(lanes, round)[k] == Evaluated(lanes, round)[i]
  {
    var items := Evaluated(lanes, round);
    SameElementsSize(Ranking(lanes, round), items);
    assert Ranking(lanes, round)[k] in items;
    var j :| 0 <= j < |items| && items[j] == Ranking(lanes, round)[k];
    assert j == i;
  }

  // The selected lane has the best score, the lead is what separates it from every other lane,
  // and expansion takes a good score and a clear lead.
  lemma WinnerIsBest(lanes: seq<Lane>, i: nat, round: real -> real)
    requires UniqueIds(lanes) && i < |lanes|
    ensures var ranked := Ranking(lanes, round);
            && ranked != []
            && var d := DecisionOf(ranked, round);
               && d.selectedScore >= round(Weighted(lanes[i]))
               && (lanes[i].id != d.selected ==> d.selectedScore - round(Weighted(lanes[i])) >= Lead(ranked) >= 0.0)
               && (d.expansionAllowed <==> d.selectedScore >= 0.75 && d.level != "low")
  {
    hide Weighted, SortBy;
    var items, ranked := Evaluated(lanes, round), Ranking(lanes, round);
    AheadOrder(items);
    SortBySorts(Ahead, items);
    SameElementsSize(ranked, items);
    assert items[i] in ranked;
    var k :| 0 <= k < |ranked| && ranked[k] == items[i];
    assert k > 0 ==> Ahead(ranked[0], ranked[k]) && Ahead(ranked[0], ranked[1]);
    assert k > 1 ==> Ahead(ranked[1], ranked[k]);
  }

  // Some lane other than the winner is closer than the margin to it.
  ghost predicate Challenged(lanes: seq<Lane>, round: real -> real, d: Decision, margin: real) {
    exists i :: 0 <= i < |lanes| && lanes[i].id != d.selected && d.selectedScore - round(Weighted(lanes[i])) < margin
  }

  // The decision, in terms of the lanes: the winner is one of them, the confidence is low, medium
  // or high by how close the others come, and expansion takes a good score nobody comes close to.
  lemma DecisionMeaning(lanes: seq<Lane>, round: real -> real)
    requires UniqueIds(lanes) && lanes != []
    ensures var ranked := Ranking(lanes, round);
            && ranked != []
            && var d := DecisionOf(ranked, round);
               && (exists i :: 0 <= i < |lanes| && lanes[i].id == d.selected
                               && round(Weighted(lanes[i])) == d.selectedScore)
               && (d.level == "low" <==> Challenged(lanes, round, d, 0.03))
               && (d.level == "high" <==> !Challenged(lanes, round, d, 0.08))
               && d.level in {"low", "medium", "high"}
               && (d.thresholdMet <==> d.selectedScore >= 0.75)
               && (d.expansionAllowed <==> d.selectedScore >= 0.75 && !Challenged(lanes, round, d, 0.03))
               && (|lanes| == 1 ==> d.runnerUp == "" && d.runnerUpScore == 0.0 && d.confidence == round(1.0))
               && (|lanes| > 1 ==>
                     && d.confidence == round(d.selectedScore - d.runnerUpScore)
                     && exists i :: 0 <= i < |lanes| && lanes[i].id == d.runnerUp != d.selected
                                    && round(Weighted(lanes[i])) == d.runnerUpScore)
  {
    hide Weighted, SortBy;
    var items, ranked := Evaluated(lanes, round), Ranking(lanes, round);
    SameElementsSize(ranked, items);
    forall i | 0 <= i < |lanes|
      ensures var d := DecisionOf(ranked, round);
              lanes[i].id != d.selected ==> d.selectedScore - round(Weighted(lanes[i])) >= Lead(ranked) >= 0.0
    {
      WinnerIsBest(lanes, i, round);
    }
    var first := RankedLane(lanes, round, 0);
    if |ranked| > 1 {
      var second := RankedLane(lanes, round, 1);
      RankedApart(lanes, round);
      assert lanes[second].id != ranked[0].id;
    }
    hide Ranking, Evaluated;
    forall i | 0 <= i < |lanes| && |lanes| == 1 ensures lanes[i].id == ranked[0].id {
      assert i == 0 == first;
    }
  }

  lemma RankedLane(lanes: seq<Lane>, round: real -> real, k: nat) returns (i: nat)
    requires k < |Ranking(lanes, round)|
    ensures i < |lanes| && Ranking(lanes, round)[k] == Item(lanes[i], round)
  {
    hide Weighted, SortBy;
    var items, ranked := Evaluated(lanes, round), Ranking(lanes, round);
    SameElementsSize(ranked, items);
    assert ranked[k] in items;
    i :| 0 <= i < |items| && items[i] == ranked[k];
  }

  // In the ranking no id comes twice, and score and then id decide the order.
  lemma RankedApart(lanes: seq<Lane>, round: real -> real)
    requires UniqueIds(lanes)
    ensures var ranked := Ranking(lanes, round);
            forall i, j :: 0 <= i < j < |ranked| ==>
              && ranked[i].id != ranked[j].id
              && (ranked[i].score > ranked[j].score
                  || (ranked[i].score == ranked[j].score && Leq(ranked[i].id, ranked[j].id)))
  {
    hide Weighted, SortBy;
    var items, ranked := Evaluated(lanes, round), Ranking(lanes, round);
    AheadOrder(items);
    SortBySorts(Ahead, items);
    SameElementsSize(ranked, items);
    DistinctAfterPermutation(items, ranked);
    forall i, j | 0 <= i < j < |ranked| ensures ranked[i].id != ranked[j].id {
      assert ranked[i] in items && ranked[j] in items;
    }
  }

  // Setup time counts fully at zero, not at all from half an hour on, and proportionally between.
  lemma SetupScoreShape(minutes: real)
    requires minutes >= 0.0
    ensures SetupScore(minutes) == if minutes >= 30.0 then 0.0 else 1.0 - minutes / 30.0
    ensures SetupScore(minutes) == 1.0 <==> minutes == 0.0
  {
  }
}
