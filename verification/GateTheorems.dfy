/** What the gate promises, over every request and every answer of the components it asks. */
module GateTheorems {
  import opened CanonicalList
  import opened GateDecision
  import opened GateStages
  import opened Sequences
  import opened Strings
  import opened Wrappers

  // The verdicts a policy can produce.
  predicate PolicyVerdict(v: string) { v in {"allow", "block", "dry_run", "require_approval"} }

  predicate WithinLimits(r: Request) {
    && (r.policy.rateRequests > 0 ==> r.rate.Got? && r.rate.value)
    && (r.policy.budgetRequests > 0 && r.destructive ==> r.budget.Got? && r.budget.value)
  }

  predicate Delegated(r: Request) {
    r.policy.requireDelegation ==> DelegationPaths(r) != {} && r.chain.Got? && r.chain.value.complete
  }

  // At least one and at least MinApprovals valid tokens, from that many people if asked.
  predicate Approved(r: Request) {
    var needed := if r.policy.minApprovals > 1 then r.policy.minApprovals else 1;
    && |AcceptedPaths(r)| >= needed
    && (r.policy.requireDistinctApprovers && needed > 1 ==> |Approvers(r)| >= needed)
  }

  function AcceptedPaths(r: Request): set<string> { set p | p in ApprovalPaths(r) && r.approval(p).Accepted? }

  // The people named by the accepted tokens.
  function Approvers(r: Request): set<string> {
    set p | p in ApprovalPaths(r) && r.approval(p).Accepted? && r.approval(p).approver != "" :: r.approval(p).approver
  }

  predicate Permitted(r: Request) {
    r.policy.verdict == "allow" || (r.policy.verdict == "require_approval" && Approved(r))
  }

  predicate Credentialed(r: Request) {
    r.policy.requireBrokerCredential ==>
      r.brokerPresent && r.issue.Issued? && (forall c :: c in r.issue.checks ==> Clean(c.reasons) == {})
  }

  // Everything that has to hold for an action to go ahead.
  predicate Cleared(r: Request) { WithinLimits(r) && Delegated(r) && Permitted(r) && Credentialed(r) }

  // ----- when a run ends in an error -----

  // Under the strict profile a key has to be named, and a key that is named has to load.
  predicate KeyUsable(profile: Profile, key: KeySource) {
    (profile == OssProd ==> key.KeySource?) && (key.KeySource? ==> key.load.Got?)
  }

  // A delegation key that is not named is replaced by the approval key.
  predicate ChainKeyUsable(r: Request) {
    && (r.profile == OssProd ==> r.delegationKey.KeySource? || r.approvalKey.KeySource?)
    && (r.delegationKey.KeySource? ==> r.delegationKey.load.Got?)
    && (r.delegationKey.NoKeySource? && r.approvalKey.KeySource? ==> r.approvalKey.load.Got?)
  }

  predicate LimitsAnswered(r: Request) {
    && (r.policy.rateRequests > 0 ==> r.rate.Got?)
    && (r.policy.budgetRequests > 0 && r.destructive ==> r.budget.Got?)
    && r.signingKey.Got?
  }

  predicate DelegationAnswered(r: Request) {
    r.policy.requireDelegation ==>
      && ChainKeyUsable(r)
      && (DelegationPaths(r) != {} ==>
            (forall p :: p in DelegationPaths(r) ==> r.readDelegation(p).Got?) && r.chain.Got?)
  }

  predicate ApprovalAnswered(r: Request) {
    r.policy.verdict == "require_approval" && WithinLimits(r) && Delegated(r) ==>
      KeyUsable(r.profile, r.approvalKey) && forall p :: p in ApprovalPaths(r) ==> !r.approval(p).Unreadable?
  }

  predicate BrokerAnswered(r: Request) {
    WithinLimits(r) && Delegated(r) && Permitted(r) && r.policy.requireBrokerCredential && r.brokerPresent ==>
      r.targetBinding.Got?
  }

  lemma {:induction false} AllRead(paths: seq<string>, read: string -> Answer<()>)
    ensures FirstReadFault(paths, read).None? <==> forall p :: p in paths ==> read(p).Got?
  {
    if paths != [] {
      AllRead(paths[1..], read);
      assert paths == [paths[0]] + paths[1..];
    }
  }

  lemma {:induction false} AllTokensRead(paths: seq<string>, approval: string -> TokenAnswer)
    ensures FirstUnreadable(paths, approval).None? <==> forall p :: p in paths ==> !approval(p).Unreadable?
  {
    if paths != [] {
      AllTokensRead(paths[1..], approval);
      assert paths == [paths[0]] + paths[1..];
    }
  }

  lemma LimitFaultIff(r: Request)
    ensures LimitFault(r).None? <==> LimitsAnswered(r)
  {
  }

  lemma DelegationFaultIff(r: Request)
    ensures DelegationFault(r).None? <==> DelegationAnswered(r)
  {
    hide TokenPaths, Canon, FirstReadFault;
    var paths := Canon(DelegationPaths(r));
    CanonLists(DelegationPaths(r));
    AllRead(paths, r.readDelegation);
  }

  lemma StoppedIff(r: Request)
    requires LimitsAnswered(r)
    ensures Stopped(r) <==> !WithinLimits(r) || !Delegated(r)
  {
    hide TokenPaths;
  }

  lemma ApprovalFaultIff(r: Request)
    requires LimitsAnswered(r)
    ensures ApprovalFault(r).None? <==> ApprovalAnswered(r)
  {
    hide TokenPaths, Canon, FirstUnreadable, Stopped, WithinLimits, Delegated, LimitsAnswered;
    StoppedIff(r);
    CanonLists(ApprovalPaths(r));
    AllTokensRead(Canon(ApprovalPaths(r)), r.approval);
  }

  lemma QuorumIff(r: Request)
    ensures QuorumMet(r) <==> Approved(r)
  {
    hide TokenPaths;
  }

  lemma BrokerFaultIff(r: Request)
    requires LimitsAnswered(r)
    ensures BrokerFault(r).None? <==> BrokerAnswered(r)
  {
    hide TokenPaths, Stopped, WithinLimits, Delegated, Approved, QuorumMet, LimitsAnswered;
    StoppedIff(r);
    QuorumIff(r);
  }

  // A run is decided exactly when everything it comes to ask is answered.
  lemma DecidedIff(r: Request, simulate: bool)
    ensures Expected(r, simulate).Decided? <==>
              && !(r.profile == OssProd && simulate)
              && LimitsAnswered(r) && DelegationAnswered(r) && ApprovalAnswered(r) && BrokerAnswered(r)
    ensures r.profile == OssProd && simulate ==> Expected(r, simulate) == Aborted(6)
  {
    hide LimitFault, DelegationFault, ApprovalFault, BrokerFault, LimitsAnswered, DelegationAnswered, ApprovalAnswered,
      BrokerAnswered, FinalVerdict, FinalReasons, FinalViolations, Canon;
    LimitFaultIff(r);
    DelegationFaultIff(r);
    if LimitsAnswered(r) {
      ApprovalFaultIff(r);
      BrokerFaultIff(r);
    }
  }

  // Otherwise it ends with the exit code of the first thing that was not.
  lemma LimitExit(r: Request)
    requires !LimitsAnswered(r)
    ensures Expected(r, false) ==
            Aborted(if r.policy.rateRequests > 0 && r.rate.Fail? then r.rate.exit
                    else if r.policy.budgetRequests > 0 && r.destructive && r.budget.Fail? then r.budget.exit
                    else r.signingKey.exit)
  {
    hide DelegationFault, ApprovalFault, BrokerFault, FinalVerdict, FinalReasons, FinalViolations;
  }

  // Path i is the first, in sorted order, that cannot be read.
  ghost predicate StopsAt(paths: seq<string>, unreadable: string -> bool, i: nat) {
    i < |paths| && unreadable(paths[i]) && forall j :: 0 <= j < i ==> !unreadable(paths[j])
  }

  lemma {:induction false} ReadStopsAt(paths: seq<string>, read: string -> Answer<()>, i: nat)
    requires StopsAt(paths, p => read(p).Fail?, i)
    ensures FirstReadFault(paths, read) == Some(read(paths[i]).exit)
  {
    if i > 0 {
      assert !(p => read(p).Fail?)(paths[0]);
      assert StopsAt(paths[1..], p => read(p).Fail?, i - 1);
      ReadStopsAt(paths[1..], read, i - 1);
    }
  }

  lemma {:induction false} TokenStopsAt(paths: seq<string>, approval: string -> TokenAnswer, i: nat)
    requires StopsAt(paths, p => approval(p).Unreadable?, i)
    ensures FirstUnreadable(paths, approval) == Some(approval(paths[i]).exit)
  {
    if i > 0 {
      assert !(p => approval(p).Unreadable?)(paths[0]);
      assert StopsAt(paths[1..], p => approval(p).Unreadable?, i - 1);
      TokenStopsAt(paths[1..], approval, i - 1);
    }
  }

  lemma DelegationExit(r: Request, i: nat)
    requires LimitsAnswered(r) && r.policy.requireDelegation
    ensures r.profile == OssProd && r.delegationKey.NoKeySource? && r.approvalKey.NoKeySource? ==>
              Expected(r, false) == Aborted(6)
    ensures r.delegationKey.KeySource? && r.delegationKey.load.Fail? ==>
              Expected(r, false) == Aborted(r.delegationKey.load.exit)
    ensures r.delegationKey.NoKeySource? && r.approvalKey.KeySource? && r.approvalKey.load.Fail? ==>
              Expected(r, false) == Aborted(r.approvalKey.load.exit)
    ensures var paths := Canon(DelegationPaths(r));
            ChainKeyUsable(r) && StopsAt(paths, p => r.readDelegation(p).Fail?, i) ==>
              Expected(r, false) == Aborted(r.readDelegation(paths[i]).exit)
    ensures ChainKeyUsable(r) && DelegationPaths(r) != {} && r.chain.Fail?
            && (forall p :: p in DelegationPaths(r) ==> r.readDelegation(p).Got?) ==>
              Expected(r, false) == Aborted(r.chain.exit)
  {
    hide LimitFault, ApprovalFault, BrokerFault, FinalVerdict, FinalReasons, FinalViolations, Canon, TokenPaths,
      FirstReadFault, LimitsAnswered;
    LimitFaultIff(r);
    var paths := Canon(DelegationPaths(r));
    CanonLists(DelegationPaths(r));
    AllRead(paths, r.readDelegation);
    if StopsAt(paths, p => r.readDelegation(p).Fail?, i) {
      ReadStopsAt(paths, r.readDelegation, i);
      assert paths[i] in DelegationPaths(r);
    }
  }

  lemma ApprovalExit(r: Request, i: nat)
    requires LimitsAnswered(r) && DelegationAnswered(r)
    requires r.policy.verdict == "require_approval" && WithinLimits(r) && Delegated(r)
    ensures r.profile == OssProd && r.approvalKey.NoKeySource? ==> Expected(r, false) == Aborted(6)
    ensures r.approvalKey.KeySource? && r.approvalKey.load.Fail? ==>
              Expected(r, false) == Aborted(r.approvalKey.load.exit)
    ensures var paths := Canon(ApprovalPaths(r));
            KeyUsable(r.profile, r.approvalKey) && StopsAt(paths, p => r.approval(p).Unreadable?, i) ==>
              Expected(r, false) == Aborted(r.approval(paths[i]).exit)
  {
    hide LimitFault, DelegationFault, BrokerFault, FinalVerdict, FinalReasons, FinalViolations, Canon, TokenPaths,
      FirstUnreadable, LimitsAnswered, DelegationAnswered, Stopped, WithinLimits, Delegated;
    LimitFaultIff(r);
    DelegationFaultIff(r);
    StoppedIff(r);
    var paths := Canon(ApprovalPaths(r));
    if StopsAt(paths, p => r.approval(p).Unreadable?, i) {
      TokenStopsAt(paths, r.approval, i);
    }
  }

  lemma BrokerExit(r: Request)
    requires LimitsAnswered(r) && DelegationAnswered(r) && ApprovalAnswered(r) && !BrokerAnswered(r)
    ensures Expected(r, false) == Aborted(r.targetBinding.exit)
  {
    hide LimitFault, DelegationFault, ApprovalFault, FinalVerdict, FinalReasons, FinalViolations,
      LimitsAnswered, DelegationAnswered, ApprovalAnswered, WithinLimits, Delegated, Permitted, BrokerConsulted;
    LimitFaultIff(r);
    DelegationFaultIff(r);
    ApprovalFaultIff(r);
    BrokerFaultIff(r);
  }

  // ----- verdicts -----

  lemma {:induction false} NoReceiptReasons(checks: seq<ReceiptCheck>)
    ensures ReceiptReasons(checks) == {} <==> forall c :: c in checks ==> Clean(c.reasons) == {}
  {
    hide Clean;
    if checks != [] {
      var front, last := checks[..|checks| - 1], checks[|checks| - 1];
      NoReceiptReasons(front);
      assert checks == front + [last];
    }
  }

  // An enforcing run that ends without an error allows exactly the cleared requests.
  lemma AllowIff(r: Request)
    requires FirstFault(r).None?
    ensures ReportedVerdict(r, false) == "allow" <==> Cleared(r)
  {
    hide TokenPaths, Canon, FirstReadFault, FirstUnreadable, ReceiptReasons, Clean;
    if r.issue.Issued? {
      NoReceiptReasons(r.issue.checks);
    }
    assert QuorumMet(r) <==> Approved(r);
  }

  // It blocks exactly when the policy does, a limit or the delegation is missed, or only the
  // credential is; and asks for approval exactly when only the approvals are missing.
  lemma BlockIff(r: Request)
    requires FirstFault(r).None?
    ensures ReportedVerdict(r, false) == "block" <==>
              || r.policy.verdict == "block" || !WithinLimits(r) || !Delegated(r)
              || (Permitted(r) && !Credentialed(r))
    ensures ReportedVerdict(r, false) == "require_approval" <==>
              r.policy.verdict == "require_approval" && WithinLimits(r) && Delegated(r) && !Approved(r)
  {
    hide TokenPaths, Canon, FirstReadFault, FirstUnreadable, ReceiptReasons, Clean;
    if r.issue.Issued? {
      NoReceiptReasons(r.issue.checks);
    }
    assert QuorumMet(r) <==> Approved(r);
  }

  // Once a stage has blocked, no later stage reopens the request.
  lemma BlockAbsorbs(r: Request)
    requires DelegationFault(r).None?
    ensures AfterRate(r).verdict == "block" ==> AfterLimits(r).verdict == "block"
    ensures AfterLimits(r).verdict == "block" ==> AfterDelegation(r).verdict == "block"
    ensures AfterDelegation(r).verdict == "block" ==> AfterApproval(r).verdict == "block"
    ensures AfterApproval(r).verdict == "block" ==> FinalVerdict(r) == "block"
  {
    hide TokenPaths, Canon, FirstReadFault, Rejections, ChainErrors, ReceiptReasons, QuorumMet, EnoughApprovals,
      EnoughApprovers, DelegationFault;
    VerdictAfterDelegation(r);
    VerdictAfterApproval(r);
  }

  // The exit code says what the verdict says, whatever the stages did on the way.
  lemma ExitCodeFollowsVerdict(r: Request, simulate: bool)
    requires PolicyVerdict(r.policy.verdict)
    ensures var verdict, exit := ReportedVerdict(r, simulate), ReportedExit(r, simulate);
            && PolicyVerdict(verdict)
            && (exit == 0 <==> verdict == "allow" || verdict == "dry_run")
            && (exit == 3 <==> verdict == "block")
            && (exit == 4 <==> verdict == "require_approval")
  {
    hide ToLower, TrimSpace, Stopped, QuorumMet, BrokerDenied, ApprovalConsulted;
    KnownWords();
    assert PolicyVerdict(FinalVerdict(r));
  }

  // No reason given by the policy or by a stage is ever dropped from the report.
  lemma ReasonsAreKept(r: Request, simulate: bool)
    requires Expected(r, simulate).Decided?
    ensures Clean(r.policy.reasonCodes) + AddedReasons(r) <= Clean(Expected(r, simulate).reasonCodes)
    ensures !simulate ==>
              Clean(Expected(r, simulate).reasonCodes) == Clean(r.policy.reasonCodes) + AddedReasons(r)
  {
    hide AddedReasons, FinalVerdict, FinalViolations, DelegationFault, LimitFault, ApprovalFault,
      BrokerFault, ToLower, TrimSpace, Canon, Clean, SimulationCodes;
    FinalReasonsClean(r);
    if simulate {
      SimulatedReasonsClean(r);
    }
  }

  lemma FinalReasonsClean(r: Request)
    requires DelegationFault(r).None?
    ensures Clean(FinalReasons(r)) == Clean(r.policy.reasonCodes) + AddedReasons(r)
    ensures Tidy(Clean(FinalReasons(r)))
  {
    hide AddedReasons, AfterBroker, Canon, Clean, DelegationFault, Tidy;
    BrokerCarries(r);
    var s, start := AfterBroker(r), r.policy.reasonCodes;
    CleanIsTidy(FinalReasons(r));
    if s.reasonsTouched {
      CleanOfMerged(start, s.reasons);
    } else {
      assert Clean(start) + {} == Clean(start);
    }
  }

  lemma SimulatedReasonsClean(r: Request)
    requires DelegationFault(r).None?
    ensures var codes := SimulationCodes(FinalVerdict(r));
            Clean(Canon(Clean(FinalReasons(r)) + codes)) == Clean(FinalReasons(r)) + codes
  {
    hide FinalReasons, FinalVerdict, Canon, Clean, DelegationFault;
    var v := FinalVerdict(r);
    var codes := if Enforceable(v) then ["simulate_mode_non_enforcing", "simulated_" + v]
                 else ["simulate_mode_non_enforcing"];
    CleanWord("simulate_mode_non_enforcing");
    if Enforceable(v) {
      CleanWord("simulated_" + v);
      CleanConcat(["simulate_mode_non_enforcing"], ["simulated_" + v]);
      assert codes == ["simulate_mode_non_enforcing"] + ["simulated_" + v];
    }
    assert Clean(codes) == SimulationCodes(v);
    CleanIsTidy(FinalReasons(r));
    CleanIsTidy(codes);
    CleanOfCanon(Clean(FinalReasons(r)) + Clean(codes));
  }

  // ----- what the codes say -----

  predicate LimitSays(r: Request, c: string) {
    || (c == "rate_limit_exceeded" && r.policy.rateRequests > 0 && r.rate == Got(false))
    || (c == "destructive_budget_exceeded" && r.policy.budgetRequests > 0 && r.destructive && r.budget == Got(false))
  }

  ghost predicate DelegationSays(r: Request, c: string) {
    && r.policy.requireDelegation
    && if DelegationPaths(r) == {} then c == "delegation_token_missing"
       else if Delegated(r) then c == "delegation_granted"
       else
         || c == "delegation_chain_insufficient"
         || (c != "" && r.chain.Got?
             && exists e :: e in r.chain.value.entries && !e.valid && TrimSpace(e.errorCode) == c)
  }

  // A rejected token that gives no code counts as invalid.
  ghost predicate RejectionSays(r: Request, c: string) {
    c != "" && exists p ::
      && p in ApprovalPaths(r) && r.approval(p).Rejected?
      && TrimSpace(if r.approval(p).code == "" then "approval_token_invalid" else r.approval(p).code) == c
  }

  ghost predicate ApprovalSays(r: Request, c: string) {
    && r.policy.verdict == "require_approval" && WithinLimits(r) && Delegated(r)
    && if ApprovalPaths(r) == {} then c == "approval_token_missing"
       else
         var needed := if r.policy.minApprovals > 1 then r.policy.minApprovals else 1;
         || RejectionSays(r, c)
         || (c == "approval_chain_insufficient" && |AcceptedPaths(r)| < needed)
         || (c == "approval_distinct_approvers_required"
             && r.policy.requireDistinctApprovers && needed > 1 && |Approvers(r)| < needed)
         || (c == "approval_granted" && Approved(r))
  }

  ghost predicate BrokerSays(r: Request, c: string) {
    && r.policy.requireBrokerCredential && WithinLimits(r) && Delegated(r) && Permitted(r)
    && if !r.brokerPresent then c == "broker_credential_required"
       else if r.issue.Refused? then c == "broker_credential_missing"
       else if Credentialed(r) then c == "broker_credential_present"
       else exists check :: check in r.issue.checks && c in Clean(check.reasons)
  }

  lemma {:induction false} ChainCodeIff(entries: seq<ChainEntry>, c: string)
    ensures c in ChainCodes(entries) <==>
              c != "" && exists e :: e in entries && !e.valid && TrimSpace(e.errorCode) == c
  {
    hide TrimSpace;
    if entries != [] {
      var front, last := entries[..|entries| - 1], entries[|entries| - 1];
      ChainCodeIff(front, c);
      assert entries == front + [last];
    }
  }

  lemma {:induction false} ReceiptReasonIff(checks: seq<ReceiptCheck>, c: string)
    ensures c in ReceiptReasons(checks) <==> exists check :: check in checks && c in Clean(check.reasons)
    ensures c in ReceiptViolations(checks) <==> exists check :: check in checks && c in Clean(check.violations)
  {
    hide Clean;
    if checks != [] {
      var front, last := checks[..|checks| - 1], checks[|checks| - 1];
      ReceiptReasonIff(front, c);
      assert checks == front + [last];
    }
  }

  lemma DelegationReasonIff(r: Request, c: string)
    requires DelegationAnswered(r)
    ensures c in DelegationReasons(r) <==> DelegationSays(r, c)
  {
    hide TokenPaths, TrimSpace, ChainCodes;
    if r.chain.Got? {
      ChainCodeIff(r.chain.value.entries, c);
    }
  }

  lemma RejectionCodeIff(r: Request, c: string)
    ensures c in RejectionCodes(r, ApprovalPaths(r)) <==> RejectionSays(r, c)
  {
    hide TokenPaths, TrimSpace;
    if c in RejectionCodes(r, ApprovalPaths(r)) {
      var p :| p in ApprovalPaths(r) && r.approval(p).Rejected? && c in Trimmed(RejectionCode(r.approval(p).code));
      assert p in ApprovalPaths(r);
    }
    if RejectionSays(r, c) {
      var p :| p in ApprovalPaths(r) && r.approval(p).Rejected? && TrimSpace(RejectionCode(r.approval(p).code)) == c;
      assert c in Trimmed(RejectionCode(r.approval(p).code));
    }
  }

  lemma EnoughIff(r: Request)
    ensures var needed := if r.policy.minApprovals > 1 then r.policy.minApprovals else 1;
            && (EnoughApprovals(r) <==> |AcceptedPaths(r)| >= needed)
            && (EnoughApprovers(r) <==>
                  (r.policy.requireDistinctApprovers && needed > 1 ==> |Approvers(r)| >= needed))
  {
    hide TokenPaths;
  }

  lemma CountedReasons(r: Request, c: string)
    requires ApprovalConsulted(r) && ApprovalPaths(r) != {}
    ensures c in ApprovalReasons(r) <==>
              || c in RejectionCodes(r, ApprovalPaths(r))
              || (c == "approval_chain_insufficient" && !EnoughApprovals(r))
              || (c == "approval_distinct_approvers_required" && !EnoughApprovers(r))
              || (c == "approval_granted" && QuorumMet(r))
  {
    hide TokenPaths, TrimSpace, RejectionCodes, ApprovalPaths, ApprovalConsulted, EnoughApprovals, EnoughApprovers,
      QuorumMet;
  }

  lemma ApprovalReasonIff(r: Request, c: string)
    requires LimitsAnswered(r)
    ensures c in ApprovalReasons(r) <==> ApprovalSays(r, c)
  {
    hide TokenPaths, TrimSpace, RejectionCodes, RejectionSays, Stopped, WithinLimits, Delegated, LimitsAnswered,
      ApprovalPaths, EnoughApprovals, EnoughApprovers, QuorumMet, Approved, AcceptedPaths, Approvers;
    StoppedIff(r);
    QuorumIff(r);
    EnoughIff(r);
    RejectionCodeIff(r, c);
    if ApprovalConsulted(r) && ApprovalPaths(r) != {} {
      CountedReasons(r, c);
      hide ApprovalReasons;
    }
  }

  lemma BrokerReasonIff(r: Request, c: string)
    requires LimitsAnswered(r)
    ensures c in BrokerReasons(r) <==> BrokerSays(r, c)
    ensures BrokerDenied(r) <==> WithinLimits(r) && Delegated(r) && Permitted(r) && !Credentialed(r)
  {
    hide TokenPaths, Stopped, WithinLimits, Delegated, LimitsAnswered, QuorumMet, Approved, Clean, ReceiptReasons;
    StoppedIff(r);
    QuorumIff(r);
    if r.issue.Issued? {
      ReceiptReasonIff(r.issue.checks, c);
      NoReceiptReasons(r.issue.checks);
    }
  }

  lemma AddedReasonIff(r: Request, c: string)
    requires LimitsAnswered(r) && DelegationAnswered(r)
    ensures c in AddedReasons(r) <==>
              LimitSays(r, c) || DelegationSays(r, c) || ApprovalSays(r, c) || BrokerSays(r, c)
  {
    hide DelegationReasons, ApprovalReasons, BrokerReasons, DelegationSays, ApprovalSays, BrokerSays, LimitsAnswered,
      DelegationAnswered;
    DelegationReasonIff(r, c);
    ApprovalReasonIff(r, c);
    BrokerReasonIff(r, c);
  }

  ghost predicate ViolationSays(r: Request, c: string) {
    || LimitSays(r, c)
    || (c == "delegation_not_granted" && !Delegated(r))
    || (c == "approval_not_granted"
        && r.policy.verdict == "require_approval" && WithinLimits(r) && Delegated(r) && !Approved(r))
    || (WithinLimits(r) && Delegated(r) && Permitted(r) && !Credentialed(r)
        && if r.brokerPresent && r.issue.Issued?
           then exists check :: check in r.issue.checks && c in Clean(check.violations)
           else c == "broker_credential_missing")
  }

  lemma AddedViolationIff(r: Request, c: string)
    requires LimitsAnswered(r)
    ensures c in AddedViolations(r) <==> ViolationSays(r, c)
  {
    hide TokenPaths, Stopped, WithinLimits, LimitsAnswered, QuorumMet, Approved, Clean, ReceiptViolations,
      Credentialed, BrokerDenied, Permitted;
    StoppedIff(r);
    QuorumIff(r);
    BrokerReasonIff(r, c);
    if r.issue.Issued? {
      ReceiptReasonIff(r.issue.checks, c);
    }
    assert DelegationDenied(r) <==> !Delegated(r);
  }

  // The codes of an enforcing report are the policy's and what the four stages say; a run that is
  // neither blocked by a stage nor short of approvals leaves the violations as they are.
  lemma ReportSays(r: Request, c: string)
    requires Expected(r, false).Decided?
    ensures c in Clean(Expected(r, false).reasonCodes) <==>
              || c in Clean(r.policy.reasonCodes)
              || LimitSays(r, c) || DelegationSays(r, c) || ApprovalSays(r, c) || BrokerSays(r, c)
    ensures c in Clean(Expected(r, false).violations) <==> c in Clean(r.policy.violations) || ViolationSays(r, c)
    ensures WithinLimits(r) && Delegated(r) && (Permitted(r) ==> Credentialed(r))
            && (r.policy.verdict == "require_approval" ==> Approved(r)) ==>
              Expected(r, false).violations == r.policy.violations
  {
    hide AddedReasons, AddedViolations, LimitSays, DelegationSays, ApprovalSays, BrokerSays, LimitsAnswered, Stopped,
      DelegationAnswered, ApprovalAnswered, BrokerAnswered, ViolationSays, Clean, Canon, FinalVerdict, TokenPaths,
      WithinLimits, Delegated, Approved, QuorumMet, Credentialed, Permitted, BrokerDenied, FirstFault;
    DecidedIff(r, false);
    AddedReasonIff(r, c);
    AddedViolationIff(r, c);
    ReasonsAreKept(r, false);
    ViolationsAreKept(r);
    StoppedIff(r);
    QuorumIff(r);
    BrokerReasonIff(r, c);
  }

  lemma ViolationsAreKept(r: Request)
    requires Expected(r, false).Decided?
    ensures Clean(Expected(r, false).violations) == Clean(r.policy.violations) + AddedViolations(r)
  {
    hide AddedViolations, FinalVerdict, FinalReasons, DelegationFault, LimitFault, ApprovalFault,
      BrokerFault, ToLower, TrimSpace, Canon, Clean, AfterBroker, ViolationsTouched;
    DecidedHasNoFault(r);
    BrokerCarries(r);
    var s, start := AfterBroker(r), r.policy.violations;
    CleanNothing();
    if s.violationsTouched {
      CleanOfMerged(start, s.found);
    } else {
      NothingFound(r);
      assert Clean(start) + {} == Clean(start);
    }
  }

  lemma NothingFound(r: Request)
    requires !ViolationsTouched(r)
    ensures AddedViolations(r) == {}
  {
    hide TokenPaths, QuorumMet, ReceiptReasons, BrokerGranted;
  }

  lemma DecidedHasNoFault(r: Request)
    requires Expected(r, false).Decided?
    ensures DelegationFault(r).None?
  {
    hide DelegationFault, LimitFault, ApprovalFault, BrokerFault;
  }

  // What the theorems above call the reported verdict and exit is in the report; an enforcing run
  // reports nothing about a simulation.
  lemma DecidedReports(r: Request, simulate: bool)
    requires Expected(r, simulate).Decided?
    ensures var d := Expected(r, simulate);
            && d.verdict == ReportedVerdict(r, simulate) && d.exitCode == ReportedExit(r, simulate)
            && (!simulate ==> d.simulatedVerdict == "" && d.simulatedReasonCodes == [] && !d.wouldHaveBlocked)
  {
    hide ReportedVerdict, ReportedExit, FirstFault, FinalVerdict, FinalReasons, FinalViolations, Canon;
  }

  // A simulated run reports what the enforcing run would have done.
  lemma SimulationIsFaithful(r: Request)
    requires r.profile == Standard
    ensures var e, s := Expected(r, false), Expected(r, true);
            && (e.Aborted? || s.Aborted? ==> e == s)
            && (e.Decided? ==>
                  && s.simulatedVerdict == e.verdict
                  && s.simulatedReasonCodes == Merged([], e.reasonCodes)
                  && (s.wouldHaveBlocked <==> e.verdict in {"block", "require_approval"})
                  && s.violations == (if s.wouldHaveBlocked then [] else e.violations)
                  && (s.verdict == if s.wouldHaveBlocked then "allow" else e.verdict)
                  && Clean(s.reasonCodes) ==
                     Clean(e.reasonCodes) + {"simulate_mode_non_enforcing"}
                     + (if s.wouldHaveBlocked then {"simulated_" + e.verdict} else {}))
  {
    hide FinalVerdict, FinalReasons, FinalViolations, FirstFault, ToLower, TrimSpace, Canon, SimulationCodes;
    CleanNothing();
    assert {} + Clean(FinalReasons(r)) == Clean(FinalReasons(r));
    if Expected(r, false).Decided? {
      DecidedHasNoFault(r);
      SimulatedCodes(r);
    }
  }

  lemma SimulatedCodes(r: Request)
    requires DelegationFault(r).None?
    ensures var v := FinalVerdict(r);
            Clean(Canon(Clean(FinalReasons(r)) + SimulationCodes(v))) ==
            Clean(FinalReasons(r)) + {"simulate_mode_non_enforcing"}
            + (if v == "block" || v == "require_approval" then {"simulated_" + v} else {})
  {
    hide FinalReasons, FinalVerdict, Canon, Clean, DelegationFault;
    SimulatedReasonsClean(r);
  }

  // ... and for the verdicts a policy can produce it never fails the caller.
  lemma SimulationNeverEnforces(r: Request)
    requires PolicyVerdict(r.policy.verdict)
    ensures ReportedExit(r, true) == EXIT_OK
    ensures ReportedVerdict(r, true) in {"allow", "dry_run"}
  {
    hide ToLower, TrimSpace, QuorumMet, Stopped, BrokerDenied, ApprovalConsulted;
    KnownWords();
  }

  // The same request with other approval token arguments.
  function WithApprovals(r: Request, primary: string, chainCsv: string): Request {
    r.(approvalToken := primary, approvalTokenChain := chainCsv)
  }

  // Order and repetition of the approval tokens make no difference.
  lemma ApprovalsAreASet(r: Request, primary: string, chainCsv: string, simulate: bool)
    requires TokenPaths(primary, chainCsv) == ApprovalPaths(r)
    ensures Expected(WithApprovals(r, primary, chainCsv), simulate) == Expected(r, simulate)
  {
    hide FirstFault, FinalVerdict, AddedReasons, AddedViolations, ViolationsTouched, Canon, ToLower, TrimSpace, Clean,
      SimulationCodes, TokenPaths;
    var q := WithApprovals(r, primary, chainCsv);
    SameVerdicts(r, q);
    SameFaults(r, q);
    SameCodes(r, q);
  }

  lemma SameVerdicts(r: Request, q: Request)
    requires q == WithApprovals(r, q.approvalToken, q.approvalTokenChain)
    requires ApprovalPaths(q) == ApprovalPaths(r)
    ensures Stopped(q) == Stopped(r) && QuorumMet(q) == QuorumMet(r)
    ensures EnoughApprovals(q) == EnoughApprovals(r) && EnoughApprovers(q) == EnoughApprovers(r)
    ensures FinalVerdict(q) == FinalVerdict(r)
  {
    hide TokenPaths, AcceptedAmong, ApproversAmong, ReceiptReasons, Clean;
    SameApprovals(r, q);
    assert DelegationPaths(q) == DelegationPaths(r);
  }

  lemma SameFaults(r: Request, q: Request)
    requires q == WithApprovals(r, q.approvalToken, q.approvalTokenChain)
    requires ApprovalPaths(q) == ApprovalPaths(r)
    ensures FirstFault(q) == FirstFault(r)
  {
    hide TokenPaths, FirstReadFault, FirstUnreadable, Canon, Stopped, QuorumMet;
    SameVerdicts(r, q);
    assert DelegationPaths(q) == DelegationPaths(r);
    assert DelegationFault(q) == DelegationFault(r);
    assert ApprovalFault(q) == ApprovalFault(r);
    assert BrokerFault(q) == BrokerFault(r);
  }

  lemma SameCodes(r: Request, q: Request)
    requires q == WithApprovals(r, q.approvalToken, q.approvalTokenChain)
    requires ApprovalPaths(q) == ApprovalPaths(r)
    ensures AddedReasons(q) == AddedReasons(r) && AddedViolations(q) == AddedViolations(r)
    ensures ViolationsTouched(q) == ViolationsTouched(r)
  {
    hide DelegationPaths, Stopped, QuorumMet, DelegationReasons, DelegationViolations, ApprovalReasons,
      ApprovalViolations, LimitCodes, Clean, ReceiptReasons, ReceiptViolations;
    SameVerdicts(r, q);
    SameDelegationCodes(r, q);
    SameApprovalCodes(r, q);
    assert LimitCodes(q) == LimitCodes(r) by { SameLimitCodes(r, q); }
    assert BrokerReasons(q) == BrokerReasons(r);
    assert BrokerViolations(q) == BrokerViolations(r);
  }

  lemma SameLimitCodes(r: Request, q: Request)
    requires q == WithApprovals(r, q.approvalToken, q.approvalTokenChain)
    ensures LimitCodes(q) == LimitCodes(r)
  {
  }

  lemma SameDelegationCodes(r: Request, q: Request)
    requires q == WithApprovals(r, q.approvalToken, q.approvalTokenChain)
    ensures DelegationReasons(q) == DelegationReasons(r) && DelegationViolations(q) == DelegationViolations(r)
  {
    hide TokenPaths, ChainCodes;
    assert DelegationPaths(q) == DelegationPaths(r);
  }

  lemma SameApprovalCodes(r: Request, q: Request)
    requires q == WithApprovals(r, q.approvalToken, q.approvalTokenChain)
    requires ApprovalPaths(q) == ApprovalPaths(r)
    ensures ApprovalReasons(q) == ApprovalReasons(r) && ApprovalViolations(q) == ApprovalViolations(r)
  {
    hide TokenPaths, RejectionCodes, Stopped, QuorumMet, EnoughApprovals, EnoughApprovers;
    SameVerdicts(r, q);
    SameApprovals(r, q);
  }

  lemma SameApprovals(r: Request, q: Request)
    requires q == WithApprovals(r, q.approvalToken, q.approvalTokenChain)
    requires ApprovalPaths(q) == ApprovalPaths(r)
    ensures RejectionCodes(q, ApprovalPaths(q)) == RejectionCodes(r, ApprovalPaths(r))
    ensures AcceptedAmong(q, ApprovalPaths(q)) == AcceptedAmong(r, ApprovalPaths(r))
    ensures ApproversAmong(q, ApprovalPaths(q)) == ApproversAmong(r, ApprovalPaths(r))
  {
    hide TokenPaths, Trimmed;
  }

  // One more readable token, valid or not, never takes an allow back.
  lemma ExtraApprovalsAreHarmless(r: Request, primary: string, chainCsv: string)
    requires FirstFault(r).None? && FinalVerdict(r) == "allow"
    requires ApprovalPaths(r) <= TokenPaths(primary, chainCsv)
    requires forall p :: p in TokenPaths(primary, chainCsv) ==> !r.approval(p).Unreadable?
    ensures var q := WithApprovals(r, primary, chainCsv);
            FirstFault(q).None? && ReportedVerdict(q, false) == "allow"
  {
    hide TokenPaths, Canon, FirstReadFault, FirstUnreadable, ReceiptReasons, ToLower, TrimSpace, Clean,
      FinalReasons, FinalViolations, AcceptedAmong, ApproversAmong;
    var q := WithApprovals(r, primary, chainCsv);
    assert DelegationPaths(q) == DelegationPaths(r) && ApprovalPaths(q) == TokenPaths(primary, chainCsv);
    MembersOfCanon(ApprovalPaths(q));
    assert forall p :: p in Canon(ApprovalPaths(q)) ==> p in Members(Canon(ApprovalPaths(q)));
    AllReadable(q, Canon(ApprovalPaths(q)));
    MoreAccepted(r, q);
  }

  lemma {:induction false} AllReadable(q: Request, paths: seq<string>)
    requires forall p :: p in paths ==> !q.approval(p).Unreadable?
    ensures FirstUnreadable(paths, q.approval).None?
  {
    if paths != [] {
      AllReadable(q, paths[1..]);
    }
  }

  lemma MoreAccepted(r: Request, q: Request)
    requires q.approval == r.approval && ApprovalPaths(r) <= ApprovalPaths(q)
    ensures |AcceptedAmong(q, ApprovalPaths(q))| >= |AcceptedAmong(r, ApprovalPaths(r))|
    ensures |ApproversAmong(q, ApprovalPaths(q))| >= |ApproversAmong(r, ApprovalPaths(r))|
  {
    hide TokenPaths;
    SubsetSize(AcceptedAmong(r, ApprovalPaths(r)), AcceptedAmong(q, ApprovalPaths(q)));
    SubsetSize(ApproversAmong(r, ApprovalPaths(r)), ApproversAmong(q, ApprovalPaths(q)));
  }
}
