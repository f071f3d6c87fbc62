/** The gate together with the components that answer it: the rate limiter over a whole run of
    evaluations, and the delegation chain. */
module GateSafety {
  import opened CanonicalList
  import opened GateDecision
  import opened Sequences
  import opened Wrappers
  import GateStages
  import GateTheorems
  import RateLimiter
  import DelegationChain

  // The two limits an evaluation may ask: its tool's rate limit and its destructive budget.
  datatype Limit = Rate | Budget

  // One gate evaluation and the positions of its own calls among all calls on the shared store,
  // a state file with a path, whose lock nobody takes over while it is held.
  datatype Evaluation = Evaluation(request: Request, rateCall: nat, budgetCall: nat)

  predicate Asks(e: Evaluation, limit: Limit) {
    match limit
    case Rate => e.request.policy.rateRequests > 0
    case Budget => BudgetConsulted(e.request)
  }

  function RequestsOf(e: Evaluation, limit: Limit): int {
    match limit
    case Rate => e.request.policy.rateRequests
    case Budget => e.request.policy.budgetRequests
  }

  function CallOf(e: Evaluation, limit: Limit): nat {
    match limit
    case Rate => e.rateCall
    case Budget => e.budgetCall
  }

  function AnswerTo(e: Evaluation, limit: Limit): Answer<bool> {
    match limit
    case Rate => e.request.rate
    case Budget => e.request.budget
  }

  // The evaluation was given the limiter's answer to its own call.
  predicate AnsweredBy(e: Evaluation, limit: Limit, calls: seq<RateLimiter.Call>) {
    var at := CallOf(e, limit);
    && at < |calls|
    && calls[at].requests == RequestsOf(e, limit)
    && match RateLimiter.Decide(RateLimiter.Run(calls[..at]), calls[at])
       case Failed => AnswerTo(e, limit).Fail?
       case Decided(allowed, _, _, _, _, _) => AnswerTo(e, limit) == Got(allowed)
  }

  // Every evaluation made its own calls.
  ghost predicate Recorded(evaluations: seq<Evaluation>, calls: seq<RateLimiter.Call>) {
    && (forall i, limit :: 0 <= i < |evaluations| && Asks(evaluations[i], limit) ==>
          AnsweredBy(evaluations[i], limit, calls))
    && (forall i, j, limit :: 0 <= i < j < |evaluations|
                              && Asks(evaluations[i], limit) && Asks(evaluations[j], limit) ==>
          CallOf(evaluations[i], limit) != CallOf(evaluations[j], limit))
  }

  ghost predicate Allows(r: Request) { FirstFault(r).None? && ReportedVerdict(r, false) == "allow" }

  // The evaluations that asked the limit under a key and ended in allow.
  ghost function AllowedUnder(evaluations: seq<Evaluation>, limit: Limit, calls: seq<RateLimiter.Call>,
                              k: RateLimiter.Key): set<nat>
  {
    set i: nat | i < |evaluations| && Asks(evaluations[i], limit) && CallOf(evaluations[i], limit) < |calls|
                 && RateLimiter.KeyOf(calls[CallOf(evaluations[i], limit)]) == k && Allows(evaluations[i].request)
  }

  lemma AllowedWasAdmitted(e: Evaluation, limit: Limit, calls: seq<RateLimiter.Call>)
    requires Asks(e, limit) && AnsweredBy(e, limit, calls) && Allows(e.request)
    ensures RateLimiter.Admitted(calls, CallOf(e, limit))
  {
    hide FirstFault, ReportedVerdict, RateLimiter.Run, RateLimiter.KeyOf, RateLimiter.Malformed;
    GateTheorems.AllowIff(e.request);
    ClearedByLimits(e, limit);
  }

  lemma ClearedByLimits(e: Evaluation, limit: Limit)
    requires GateTheorems.Cleared(e.request) && Asks(e, limit)
    ensures AnswerTo(e, limit) == Got(true) && RequestsOf(e, limit) > 0
  {
    hide DelegationPaths, GateTheorems.Approved, Clean;
  }

  lemma {:induction false} ImageSize(s: set<nat>, evaluations: seq<Evaluation>, limit: Limit, t: set<nat>)
    requires forall i :: i in s ==> i < |evaluations| && CallOf(evaluations[i], limit) in t
    requires forall i, j :: i in s && j in s && i != j ==>
               CallOf(evaluations[i], limit) != CallOf(evaluations[j], limit)
    ensures |s| <= |t|
    decreases |s|
  {
    if s != {} {
      var i :| i in s;
      ImageSize(s - {i}, evaluations, limit, t - {CallOf(evaluations[i], limit)});
    }
  }

  // Whatever else the gate asks and decides, in any run of evaluations sharing one limiter, no
  // more are allowed under a key than the limiter admitted; so no more than the limit, unless the
  // order in which the calls were decided led the limiter to an excess.
  lemma AllowsStayWithinLimit(evaluations: seq<Evaluation>, limit: Limit, calls: seq<RateLimiter.Call>,
                              k: RateLimiter.Key, most: nat)
    requires Recorded(evaluations, calls)
    requires forall j :: 0 <= j < |calls| && RateLimiter.KeyOf(calls[j]) == k ==> calls[j].requests <= most
    ensures |AllowedUnder(evaluations, limit, calls, k)| <= |RateLimiter.AdmittedUnder(calls, k)|
    ensures (forall m :: !RateLimiter.Excess(calls, k, most, m)) ==>
              |AllowedUnder(evaluations, limit, calls, k)| <= most
    ensures RateLimiter.InBucketOrder(calls) ==> |AllowedUnder(evaluations, limit, calls, k)| <= most
  {
    hide Allows, AnsweredBy, Asks, CallOf, RateLimiter.KeyOf, RateLimiter.Admitted, RateLimiter.InBucketOrder,
      RateLimiter.Excess;
    var s, t := AllowedUnder(evaluations, limit, calls, k), RateLimiter.AdmittedUnder(calls, k);
    forall i | i in s ensures CallOf(evaluations[i], limit) in t {
      AllowedWasAdmitted(evaluations[i], limit, calls);
    }
    ImageSize(s, evaluations, limit, t);
    RateLimiter.LimitIsKept(calls, k, most);
    if RateLimiter.InBucketOrder(calls) {
      RateLimiter.BucketOrderKeepsLimit(calls, k, most);
    }
  }

  // The tokens at the paths a request names, in the order the gate reads them.
  ghost function TokensOf(r: Request, read: string -> DelegationChain.Token): seq<DelegationChain.Token> {
    var paths := Canon(DelegationPaths(r));
    seq(|paths|, i requires 0 <= i < |paths| => read(paths[i]))
  }

  // A required delegation passes exactly when different tokens among those named can be assigned
  // to its links.
  lemma DelegationNeedsAssignment(r: Request, d: DelegationChain.Proposed, read: string -> DelegationChain.Token)
    requires r.policy.requireDelegation && DelegationChain.WellFormed(d) && r.chain.Got?
    requires var links := DelegationChain.RequiredLinks(DelegationChain.Normal(d));
             r.chain.value.complete <==>
               DelegationChain.AllMatched(DelegationChain.Greedy(links, TokensOf(r, read), {}))
    ensures var links := DelegationChain.RequiredLinks(DelegationChain.Normal(d));
            DelegationDenied(r) <==> !exists f :: DelegationChain.Covers(f, links, TokensOf(r, read))
  {
    hide DelegationPaths, DelegationChain.Greedy, DelegationChain.Fits, Canon, DelegationChain.Normal;
    var links := DelegationChain.RequiredLinks(DelegationChain.Normal(d));
    DelegationChain.WellFormedIsNormalized(d);
    DelegationChain.GreedyIsOptimal(links, TokensOf(r, read));
    GateStages.MembersOfCanon(DelegationPaths(r));
    if DelegationPaths(r) == {} {
      assert TokensOf(r, read) == [];
      forall f ensures !DelegationChain.Covers(f, links, []) {
        DelegationChain.NoTokensNoCover(f, links);
      }
    }
  }
}
