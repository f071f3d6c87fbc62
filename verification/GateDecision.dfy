/** The decision pipeline of `gait gate eval`, from the policy outcome to the exit code:
    rate limit, destructive budget, delegation, approval quorum, broker credential, simulation.
    Whatever the pipeline asks of other components is an arbitrary answer in the Request. */
module GateDecision {
  import opened CanonicalList
  import opened Strings
  import opened Wrappers

  const EXIT_OK := 0
  const EXIT_POLICY_BLOCKED := 3
  const EXIT_APPROVAL_REQUIRED := 4
  const EXIT_INVALID_INPUT := 6

  // A call that may fail; the failure carries the exit code it is reported with.
  datatype Answer<+T> = Fail(exit: int) | Got(value: T)

  datatype Profile = Standard | OssProd

  datatype KeySource = NoKeySource | KeySource(load: Answer<()>)

  // What policy evaluation hands to the pipeline.
  datatype PolicyOutcome = PolicyOutcome(
    verdict: string,
    reasonCodes: seq<string>,
    violations: seq<string>,
    rateRequests: int,
    budgetRequests: int,
    requireDelegation: bool,
    minApprovals: int,
    requireDistinctApprovers: bool,
    requireBrokerCredential: bool)

  // Reading and validating one approval token.  An empty code stands for an error without one.
  datatype TokenAnswer = Unreadable(exit: int) | Rejected(code: string) | Accepted(approver: string)

  datatype ChainEntry = ChainEntry(valid: bool, errorCode: string)

  datatype ChainCheck = ChainCheck(complete: bool, entries: seq<ChainEntry>)

  // The findings of one matched rule about an issued credential.
  datatype ReceiptCheck = ReceiptCheck(reasons: seq<string>, violations: seq<string>)

  datatype IssueAnswer = Refused | Issued(checks: seq<ReceiptCheck>)

  datatype Request = Request(
    profile: Profile,
    policy: PolicyOutcome,
    rate: Answer<bool>,
    destructive: bool,
    budget: Answer<bool>,
    signingKey: Answer<()>,
    delegationKey: KeySource,
    delegationToken: string,
    delegationTokenChain: string,
    readDelegation: string -> Answer<()>,
    chain: Answer<ChainCheck>,
    approvalKey: KeySource,
    approvalToken: string,
    approvalTokenChain: string,
    approval: string -> TokenAnswer,
    brokerPresent: bool,
    targetBinding: Answer<()>,
    issue: IssueAnswer)

  datatype Report =
    | Aborted(exit: int)
    | Decided(verdict: string, reasonCodes: seq<string>, violations: seq<string>, exitCode: int,
              simulatedVerdict: string, simulatedReasonCodes: seq<string>, wouldHaveBlocked: bool)

  // ----- token paths -----

  // strings.Split(s, ",")
  function SplitCommas(s: string): seq<string>
    decreases |s|
  {
    var i := IndexOf(s, ',');
    if i == |s| then [s] else [s[..i]] + SplitCommas(s[i + 1..])
  }

  // The paths named by --x-token and --x-token-chain.
  function TokenPaths(primary: string, chainCsv: string): set<string> {
    Clean([primary]) + Clean(SplitCommas(chainCsv))
  }

  // The trimmed non-blank parts, in order and as often as they occur.
  function NonBlank(parts: seq<string>): seq<string> {
    if parts == [] then []
    else
      var last := TrimSpace(parts[|parts| - 1]);
      NonBlank(parts[..|parts| - 1]) + (if last == "" then [] else [last])
  }

  // Part by part, from left to right.
  lemma {:induction false} NonBlankJoins(a: seq<string>, b: seq<string>, p: string)
    ensures NonBlank(a + b) == NonBlank(a) + NonBlank(b)
    ensures NonBlank([p]) == if TrimSpace(p) == "" then [] else [TrimSpace(p)]
  {
    hide TrimSpace;
    if b == [] {
      assert a + b == a && NonBlank(a) + [] == NonBlank(a);
    } else {
      var front := b[..|b| - 1];
      assert (a + b)[..|a + b| - 1] == a + front;
      NonBlankJoins(a, front, p);
    }
    assert [p][..0] == [];
  }

  lemma {:induction false} CleanOfNonBlank(parts: seq<string>)
    ensures Clean(NonBlank(parts)) == Clean(parts)
  {
    if parts != [] {
      var front, last := parts[..|parts| - 1], TrimSpace(parts[|parts| - 1]);
      CleanOfNonBlank(front);
      if last == "" {
        assert NonBlank(front) + [] == NonBlank(front);
      } else {
        CleanSnoc(NonBlank(front), last);
      }
    }
  }

  function JoinCommas(parts: seq<string>): string
    requires parts != []
  {
    if |parts| == 1 then parts[0] else parts[0] + "," + JoinCommas(parts[1..])
  }

  lemma SplitStep(s: string, i: nat)
    requires i == IndexOf(s, ',') < |s|
    ensures SplitCommas(s) == [s[..i]] + SplitCommas(s[i + 1..])
  {
    hide IndexOf;
  }

  lemma CutAtComma(s: string, i: nat)
    requires i < |s| && s[i] == ','
    ensures s == s[..i] + "," + s[i + 1..]
  {
  }

  lemma JoinStep(head: string, rest: seq<string>)
    requires rest != []
    ensures JoinCommas([head] + rest) == head + "," + JoinCommas(rest)
  {
    assert ([head] + rest)[1..] == rest;
  }

  // Splitting takes a text apart at every comma and at nothing else.
  lemma {:induction false} SplitJoins(s: string)
    ensures SplitCommas(s) != [] && JoinCommas(SplitCommas(s)) == s
    ensures forall p :: p in SplitCommas(s) ==> ',' !in p
    decreases |s|
  {
    var i := IndexOf(s, ',');
    if i < |s| {
      hide SplitCommas, JoinCommas, IndexOf;
      SplitStep(s, i);
      CutAtComma(s, i);
      SplitJoins(s[i + 1..]);
      JoinStep(s[..i], SplitCommas(s[i + 1..]));
    } else {
      assert s[..i] == s;
    }
  }

  method ParseCsv(value: string) returns (values: seq<string>)
    ensures values == NonBlank(SplitCommas(value))
  {
    var parts := SplitCommas(value);
    values := [];
    for i := 0 to |parts|
      invariant values == NonBlank(parts[..i])
    {
      var trimmed := TrimSpace(parts[i]);
      assert parts[..i + 1][..i] == parts[..i];
      if trimmed == "" {
        continue;
      }
      values := values + [trimmed];
    }
    assert parts[..|parts|] == parts;
  }

  // A path is named by itself or as a part of the list.
  lemma NamedPathIff(r: Request, p: string)
    ensures p in DelegationPaths(r) <==>
              p != "" && (TrimSpace(r.delegationToken) == p
                          || exists part :: part in SplitCommas(r.delegationTokenChain) && TrimSpace(part) == p)
    ensures p in ApprovalPaths(r) <==>
              p != "" && (TrimSpace(r.approvalToken) == p
                          || exists part :: part in SplitCommas(r.approvalTokenChain) && TrimSpace(part) == p)
  {
    hide TrimSpace, SplitCommas, Clean;
    CleanMember([r.delegationToken], p);
    CleanMember([r.approvalToken], p);
    CleanMember(SplitCommas(r.delegationTokenChain), p);
    CleanMember(SplitCommas(r.approvalTokenChain), p);
    assert r.delegationToken in [r.delegationToken] && r.approvalToken in [r.approvalToken];
  }

  lemma PathsAreClean(primaryPath: string, chainCsv: string)
    ensures var primary := TrimSpace(primaryPath);
            Clean((if primary == "" then [] else [primary]) + NonBlank(SplitCommas(chainCsv))) ==
            TokenPaths(primaryPath, chainCsv)
  {
    hide TrimSpace, NonBlank, SplitCommas;
    var primary := TrimSpace(primaryPath);
    var paths := if primary == "" then [] else [primary];
    CleanConcat(paths, NonBlank(SplitCommas(chainCsv)));
    CleanOfNonBlank(SplitCommas(chainCsv));
    TrimmedOnce(primaryPath);
    CleanSnoc([], primaryPath);
    CleanSnoc([], primary);
    assert [] + [primaryPath] == [primaryPath] && [] + [primary] == [primary];
  }

  method GatherTokenPaths(primaryPath: string, chainCsv: string) returns (paths: seq<string>)
    ensures paths == Canon(TokenPaths(primaryPath, chainCsv))
  {
    hide TrimSpace, TokenPaths, NonBlank, SplitCommas, Canon, Clean;
    PathsAreClean(primaryPath, chainCsv);
    paths := [];
    if TrimSpace(primaryPath) != "" {
      paths := paths + [TrimSpace(primaryPath)];
    }
    assert paths == if TrimSpace(primaryPath) == "" then [] else [TrimSpace(primaryPath)];
    var listed := ParseCsv(chainCsv);
    paths := paths + listed;
    CleanNothing();
    assert {} + Clean(paths) == TokenPaths(primaryPath, chainCsv);
    paths := MergeUniqueSorted([], paths);
  }

  // ----- what the stages decide -----

  predicate RateRefused(r: Request) { r.policy.rateRequests > 0 && r.rate == Got(false) }

  predicate BudgetConsulted(r: Request) { r.policy.budgetRequests > 0 && r.destructive }

  predicate BudgetRefused(r: Request) { BudgetConsulted(r) && r.budget == Got(false) }

  function DelegationPaths(r: Request): set<string> {
    TokenPaths(r.delegationToken, r.delegationTokenChain)
  }

  predicate DelegationGranted(r: Request) {
    DelegationPaths(r) != {} && r.chain.Got? && r.chain.value.complete
  }

  predicate DelegationDenied(r: Request) { r.policy.requireDelegation && !DelegationGranted(r) }

  function ApprovalPaths(r: Request): set<string> {
    TokenPaths(r.approvalToken, r.approvalTokenChain)
  }

  function RequiredApprovals(r: Request): int {
    if r.policy.minApprovals <= 0 then 1 else r.policy.minApprovals
  }

  function AcceptedAmong(r: Request, paths: set<string>): set<string> {
    set p | p in paths && r.approval(p).Accepted?
  }

  function ApproversAmong(r: Request, paths: set<string>): set<string> {
    set p | p in paths && r.approval(p).Accepted? && r.approval(p).approver != "" :: r.approval(p).approver
  }

  predicate EnoughApprovals(r: Request) {
    |AcceptedAmong(r, ApprovalPaths(r))| >= RequiredApprovals(r)
  }

  predicate EnoughApprovers(r: Request) {
    r.policy.requireDistinctApprovers && RequiredApprovals(r) > 1 ==>
      |ApproversAmong(r, ApprovalPaths(r))| >= RequiredApprovals(r)
  }

  predicate QuorumMet(r: Request) { EnoughApprovals(r) && EnoughApprovers(r) }

  predicate Stopped(r: Request) { RateRefused(r) || BudgetRefused(r) || DelegationDenied(r) }

  predicate ApprovalConsulted(r: Request) {
    r.policy.verdict == "require_approval" && !Stopped(r)
  }

  function ReceiptReasons(checks: seq<ReceiptCheck>): set<string> {
    if checks == [] then {}
    else ReceiptReasons(checks[..|checks| - 1]) + Clean(checks[|checks| - 1].reasons)
  }

  function ReceiptViolations(checks: seq<ReceiptCheck>): set<string> {
    if checks == [] then {}
    else ReceiptViolations(checks[..|checks| - 1]) + Clean(checks[|checks| - 1].violations)
  }

  predicate BrokerGranted(r: Request) {
    r.brokerPresent && r.issue.Issued? && ReceiptReasons(r.issue.checks) == {}
  }

  function VerdictBeforeBroker(r: Request): string {
    if Stopped(r) then "block"
    else if ApprovalConsulted(r) && QuorumMet(r) then "allow"
    else r.policy.verdict
  }

  predicate BrokerConsulted(r: Request) {
    r.policy.requireBrokerCredential && VerdictBeforeBroker(r) == "allow"
  }

  predicate BrokerDenied(r: Request) { BrokerConsulted(r) && !BrokerGranted(r) }

  function FinalVerdict(r: Request): string {
    if BrokerDenied(r) then "block" else VerdictBeforeBroker(r)
  }

  // ----- the codes the stages add -----

  function LimitCodes(r: Request): set<string> {
    (if RateRefused(r) then {"rate_limit_exceeded"} else {})
    + (if BudgetRefused(r) then {"destructive_budget_exceeded"} else {})
  }

  function ChainCodes(entries: seq<ChainEntry>): set<string> {
    if entries == [] then {}
    else
      var last := entries[|entries| - 1];
      ChainCodes(entries[..|entries| - 1]) + (if last.valid then {} else Trimmed(last.errorCode))
  }

  function DelegationReasons(r: Request): set<string> {
    if !r.policy.requireDelegation then {}
    else if DelegationPaths(r) == {} then {"delegation_token_missing"}
    else if DelegationGranted(r) then {"delegation_granted"}
    else if r.chain.Got? then ChainCodes(r.chain.value.entries) + {"delegation_chain_insufficient"}
    else {}
  }

  function RejectionCode(code: string): string {
    if code == "" then "approval_token_invalid" else code
  }

  function RejectionCodes(r: Request, paths: set<string>): set<string> {
    set p, x | p in paths && r.approval(p).Rejected? && x in Trimmed(RejectionCode(r.approval(p).code)) :: x
  }

  function ApprovalReasons(r: Request): set<string> {
    if !ApprovalConsulted(r) then {}
    else if ApprovalPaths(r) == {} then {"approval_token_missing"}
    else
      RejectionCodes(r, ApprovalPaths(r))
      + (if EnoughApprovals(r) then {} else {"approval_chain_insufficient"})
      + (if EnoughApprovers(r) then {} else {"approval_distinct_approvers_required"})
      + (if QuorumMet(r) then {"approval_granted"} else {})
  }

  function BrokerReasons(r: Request): set<string> {
    if !BrokerConsulted(r) then {}
    else if !r.brokerPresent then {"broker_credential_required"}
    else if r.issue.Refused? then {"broker_credential_missing"}
    else if BrokerGranted(r) then {"broker_credential_present"}
    else ReceiptReasons(r.issue.checks)
  }

  function AddedReasons(r: Request): set<string> {
    LimitCodes(r) + DelegationReasons(r) + ApprovalReasons(r) + BrokerReasons(r)
  }

  function DelegationViolations(r: Request): set<string> {
    if DelegationDenied(r) then {"delegation_not_granted"} else {}
  }

  function ApprovalViolations(r: Request): set<string> {
    if ApprovalConsulted(r) && !QuorumMet(r) then {"approval_not_granted"} else {}
  }

  function BrokerViolations(r: Request): set<string> {
    if !BrokerDenied(r) then {}
    else if r.brokerPresent && r.issue.Issued? then ReceiptViolations(r.issue.checks)
    else {"broker_credential_missing"}
  }

  function AddedViolations(r: Request): set<string> {
    LimitCodes(r) + DelegationViolations(r) + ApprovalViolations(r) + BrokerViolations(r)
  }

  // A list untouched by the pipeline, or the canonical list of what it started with and got.
  ghost function Ledger(start: seq<string>, touched: bool, added: set<string>): seq<string> {
    if touched then Canon(Clean(start) + added) else start
  }

  predicate ViolationsTouched(r: Request) {
    Stopped(r) || (ApprovalConsulted(r) && !QuorumMet(r)) || BrokerDenied(r)
  }

  ghost function FinalReasons(r: Request): seq<string> {
    Ledger(r.policy.reasonCodes, AddedReasons(r) != {}, AddedReasons(r))
  }

  ghost function FinalViolations(r: Request): seq<string> {
    Ledger(r.policy.violations, ViolationsTouched(r), AddedViolations(r))
  }

  // ----- errors that end the run, in the order they are met -----

  function LimitFault(r: Request): Option<int> {
    if r.policy.rateRequests > 0 && r.rate.Fail? then Some(r.rate.exit)
    else if BudgetConsulted(r) && r.budget.Fail? then Some(r.budget.exit)
    else if r.signingKey.Fail? then Some(r.signingKey.exit)
    else None
  }

  function KeyFault(profile: Profile, key: KeySource): Option<int> {
    if key.NoKeySource? then (if profile == OssProd then Some(EXIT_INVALID_INPUT) else None)
    else if key.load.Fail? then Some(key.load.exit)
    else None
  }

  function FirstReadFault(paths: seq<string>, read: string -> Answer<()>): Option<int> {
    if paths == [] then None
    else if read(paths[0]).Fail? then Some(read(paths[0]).exit)
    else FirstReadFault(paths[1..], read)
  }

  // Delegations are checked with the approval key when they have no key of their own.
  function ChainKey(r: Request): KeySource {
    if r.delegationKey.KeySource? then r.delegationKey else r.approvalKey
  }

  ghost function DelegationFault(r: Request): Option<int> {
    if !r.policy.requireDelegation then None
    else if KeyFault(r.profile, ChainKey(r)).Some? then KeyFault(r.profile, ChainKey(r))
    else if DelegationPaths(r) == {} then None
    else if FirstReadFault(Canon(DelegationPaths(r)), r.readDelegation).Some?
    then FirstReadFault(Canon(DelegationPaths(r)), r.readDelegation)
    else if r.chain.Fail? then Some(r.chain.exit)
    else None
  }

  function FirstUnreadable(paths: seq<string>, approval: string -> TokenAnswer): Option<int> {
    if paths == [] then None
    else if approval(paths[0]).Unreadable? then Some(approval(paths[0]).exit)
    else FirstUnreadable(paths[1..], approval)
  }

  ghost function ApprovalFault(r: Request): Option<int> {
    if !ApprovalConsulted(r) then None
    else if KeyFault(r.profile, r.approvalKey).Some? then KeyFault(r.profile, r.approvalKey)
    else FirstUnreadable(Canon(ApprovalPaths(r)), r.approval)
  }

  function BrokerFault(r: Request): Option<int> {
    if BrokerConsulted(r) && r.brokerPresent && r.targetBinding.Fail? then Some(r.targetBinding.exit)
    else None
  }

  ghost function FirstFault(r: Request): Option<int> {
    if LimitFault(r).Some? then LimitFault(r)
    else if DelegationFault(r).Some? then DelegationFault(r)
    else if ApprovalFault(r).Some? then ApprovalFault(r)
    else BrokerFault(r)
  }

  // ----- the whole run -----

  // The exit code a verdict stands for.
  function ExitFor(verdict: string): int {
    var word := ToLower(TrimSpace(verdict));
    if word == "block" then EXIT_POLICY_BLOCKED
    else if word == "require_approval" then EXIT_APPROVAL_REQUIRED
    else EXIT_OK
  }

  predicate Enforceable(verdict: string) { verdict == "block" || verdict == "require_approval" }

  // The verdict and the exit code the caller sees.
  function ReportedVerdict(r: Request, simulate: bool): string {
    if simulate && Enforceable(FinalVerdict(r)) then "allow" else FinalVerdict(r)
  }

  function ReportedExit(r: Request, simulate: bool): int {
    if simulate && Enforceable(FinalVerdict(r)) then EXIT_OK else ExitFor(FinalVerdict(r))
  }

  ghost function Enforced(r: Request): Report {
    Decided(ReportedVerdict(r, false), FinalReasons(r), FinalViolations(r), ReportedExit(r, false), "", [], false)
  }

  function SimulationCodes(verdict: string): set<string> {
    {"simulate_mode_non_enforcing"} + (if Enforceable(verdict) then {"simulated_" + verdict} else {})
  }

  ghost function Simulated(r: Request): Report {
    var v := FinalVerdict(r);
    Decided(ReportedVerdict(r, true),
            Canon(Clean(FinalReasons(r)) + SimulationCodes(v)),
            if Enforceable(v) then [] else FinalViolations(r),
            ReportedExit(r, true),
            v, Canon(Clean(FinalReasons(r))), Enforceable(v))
  }

  ghost function Expected(r: Request, simulate: bool): Report {
    if r.profile == OssProd && simulate then Aborted(EXIT_INVALID_INPUT)
    else if FirstFault(r).Some? then Aborted(FirstFault(r).value)
    else if simulate then Simulated(r)
    else Enforced(r)
  }
}
