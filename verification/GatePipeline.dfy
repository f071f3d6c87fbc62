/** The pipeline as the program runs it: one object updated stage by stage. */
module GatePipeline {
  import opened CanonicalList
  import opened GateDecision
  import opened GateStages
  import opened Sequences
  import opened Strings
  import opened Wrappers

  class GateRun {
    var verdict: string
    var reasonCodes: seq<string>
    var violations: seq<string>
    var exitCode: int

    ghost predicate At(r: Request, s: Stage)
      reads this
    {
      && verdict == s.verdict && exitCode == s.exit
      && (!s.reasonsTouched ==> s.reasons == [])
      && (!s.violationsTouched ==> s.found == [])
      && reasonCodes == Listed(r.policy.reasonCodes, s.reasonsTouched, s.reasons)
      && violations == Listed(r.policy.violations, s.violationsTouched, s.found)
    }

    constructor (r: Request)
      ensures At(r, Start(r))
    {
      verdict := r.policy.verdict;
      reasonCodes := r.policy.reasonCodes;
      violations := r.policy.violations;
      exitCode := EXIT_OK;
    }

    method AddReasons(r: Request, ghost s: Stage, extra: seq<string>)
      requires At(r, s)
      modifies this`reasonCodes
      ensures At(r, Noted(s, extra))
    {
      ListedMerge(r.policy.reasonCodes, s.reasonsTouched, s.reasons, extra);
      reasonCodes := MergeUniqueSorted(reasonCodes, extra);
    }

    method AddViolations(r: Request, ghost s: Stage, extra: seq<string>)
      requires At(r, s)
      modifies this`violations
      ensures At(r, Flagged(s, extra))
    {
      ListedMerge(r.policy.violations, s.violationsTouched, s.found, extra);
      violations := MergeUniqueSorted(violations, extra);
    }

    method Block(r: Request, ghost s: Stage, reasons: seq<string>, found: seq<string>)
      requires At(r, s)
      modifies this
      ensures At(r, Denied(s, reasons, found))
    {
      verdict := "block";
      AddReasons(r, s.(verdict := "block"), reasons);
      AddViolations(r, Noted(s.(verdict := "block"), reasons), found);
    }

    // A denied delegation also sets the exit code.
    method Deny(r: Request, ghost s: Stage, reasons: seq<string>, found: seq<string>)
      requires At(r, s)
      modifies this
      ensures At(r, Denied(s, reasons, found).(exit := EXIT_POLICY_BLOCKED))
    {
      hide Listed, Denied;
      Block(r, s, reasons, found);
      exitCode := EXIT_POLICY_BLOCKED;
    }

    method ConsultRateLimit(r: Request) returns (fault: Option<int>)
      requires At(r, Start(r))
      modifies this
      ensures fault == if r.policy.rateRequests > 0 && r.rate.Fail? then Some(r.rate.exit) else None
      ensures fault.None? ==> At(r, AfterRate(r))
    {
      if r.policy.rateRequests > 0 {
        if r.rate.Fail? {
          return Some(r.rate.exit);
        }
        if !r.rate.value {
          Block(r, Start(r), ["rate_limit_exceeded"], ["rate_limit_exceeded"]);
        }
      }
      fault := None;
    }

    method ConsultBudget(r: Request) returns (fault: Option<int>)
      requires At(r, AfterRate(r))
      modifies this
      ensures fault == if BudgetConsulted(r) && r.budget.Fail? then Some(r.budget.exit) else None
      ensures fault.None? ==> At(r, AfterLimits(r))
    {
      if r.policy.budgetRequests > 0 && r.destructive {
        if r.budget.Fail? {
          return Some(r.budget.exit);
        }
        if !r.budget.value {
          Block(r, AfterRate(r), ["destructive_budget_exceeded"], ["destructive_budget_exceeded"]);
        }
      }
      fault := None;
    }

    method LoadKey(r: Request, key: KeySource) returns (fault: Option<int>)
      ensures fault == KeyFault(r.profile, key)
    {
      if r.profile == OssProd && key.NoKeySource? {
        return Some(EXIT_INVALID_INPUT);
      }
      if key.KeySource? && key.load.Fail? {
        return Some(key.load.exit);
      }
      fault := None;
    }

    method ReadDelegations(r: Request, paths: seq<string>) returns (fault: Option<int>)
      ensures fault == FirstReadFault(paths, r.readDelegation)
    {
      for i := 0 to |paths|
        invariant FirstReadFault(paths, r.readDelegation) == FirstReadFault(paths[i..], r.readDelegation)
      {
        if r.readDelegation(paths[i]).Fail? {
          return Some(r.readDelegation(paths[i]).exit);
        }
      }
      fault := None;
    }

    method NoteChainErrors(r: Request, ghost s: Stage, entries: seq<ChainEntry>)
      requires At(r, s)
      modifies this`reasonCodes
      ensures At(r, AfterTokens(s, ChainErrors(entries)))
    {
      hide Listed, TrimSpace;
      assert s.reasons + [] == s.reasons;
      for i := 0 to |entries|
        invariant At(r, AfterTokens(s, ChainErrors(entries[..i])))
      {
        var entry := entries[i];
        ghost var before := ChainErrors(entries[..i]);
        assert entries[..i + 1][..i] == entries[..i];
        assert before + [] == before;
        if !entry.valid && TrimSpace(entry.errorCode) != "" {
          AddReasons(r, AfterTokens(s, before), [entry.errorCode]);
          assert s.reasons + before + [entry.errorCode] == s.reasons + (before + [entry.errorCode]);
        }
      }
      assert entries[..|entries|] == entries;
    }

    method ConsultDelegation(r: Request) returns (fault: Option<int>)
      requires At(r, AfterLimits(r))
      modifies this
      ensures fault == DelegationFault(r)
      ensures fault.None? ==> At(r, AfterDelegation(r))
    {
      hide Merged, TokenPaths, FirstReadFault;
      var tokenPaths := GatherTokenPaths(r.delegationToken, r.delegationTokenChain);
      assert Lists(tokenPaths, DelegationPaths(r));
      if !r.policy.requireDelegation {
        return None;
      }
      var verifyKey := r.delegationKey;
      if verifyKey.NoKeySource? {
        verifyKey := r.approvalKey;
      }
      fault := LoadKey(r, verifyKey);
      if fault.Some? {
        return;
      }
      if |tokenPaths| == 0 {
        Deny(r, AfterLimits(r), ["delegation_token_missing"], ["delegation_not_granted"]);
        return None;
      }
      assert tokenPaths[0] in DelegationPaths(r);
      fault := ReadDelegations(r, tokenPaths);
      if fault.Some? {
        return;
      }
      if r.chain.Fail? {
        return Some(r.chain.exit);
      }
      SettleDelegation(r);
    }

    method SettleDelegation(r: Request)
      requires At(r, AfterLimits(r))
      requires r.policy.requireDelegation && DelegationPaths(r) != {} && r.chain.Got?
      modifies this
      ensures At(r, AfterDelegation(r))
    {
      ghost var s := AfterLimits(r);
      SettledStage(r);
      hide Merged, AfterLimits, AfterDelegation, DelegationPaths, ChainErrors, Listed, Denied, AfterTokens, Noted, At;
      if !r.chain.value.complete {
        var entries := r.chain.value.entries;
        NoteChainErrors(r, s, entries);
        Deny(r, AfterTokens(s, ChainErrors(entries)),
             ["delegation_chain_insufficient"], ["delegation_not_granted"]);
      } else {
        AddReasons(r, s, ["delegation_granted"]);
      }
    }

    // Reads and validates every token once.
    method CountApprovals(r: Request, ghost s: Stage, paths: seq<string>)
      returns (fault: Option<int>, validApprovals: nat, approvers: set<string>)
      requires At(r, s) && Distinct(paths)
      modifies this`reasonCodes
      ensures fault == FirstUnreadable(paths, r.approval)
      ensures fault.None? ==>
                && At(r, AfterTokens(s, Rejections(paths, r.approval)))
                && validApprovals == |AcceptedAmong(r, Members(paths))|
                && approvers == ApproversAmong(r, Members(paths))
    {
      hide Merged, TrimSpace, Distinct, Rejections, AfterTokens, AcceptedAmong, ApproversAmong, Members;
      NoTokens(s, r);
      assert paths[..0] == [];
      assert s.reasons + [] == s.reasons;
      validApprovals, approvers := 0, {};
      for i := 0 to |paths|
        invariant FirstUnreadable(paths, r.approval) == FirstUnreadable(paths[i..], r.approval)
        invariant At(r, AfterTokens(s, Rejections(paths[..i], r.approval)))
        invariant validApprovals == |AcceptedAmong(r, Members(paths[..i]))|
        invariant approvers == ApproversAmong(r, Members(paths[..i]))
      {
        ghost var before := Rejections(paths[..i], r.approval);
        RejectionsSnoc(s, r, paths, i);
        CountStep(r, paths, i);
        match r.approval(paths[i])
        case Unreadable(exit) =>
          return Some(exit), validApprovals, approvers;
        case Rejected(code) =>
          AddReasons(r, AfterTokens(s, before), [RejectionCode(code)]);
        case Accepted(approver) =>
          validApprovals := validApprovals + 1;
          if approver != "" {
            approvers := approvers + {approver};
          }
      }
      assert paths[..|paths|] == paths;
      fault := None;
    }

    method ConsultApproval(r: Request) returns (fault: Option<int>)
      requires At(r, AfterDelegation(r)) && DelegationFault(r).None?
      modifies this
      ensures fault == ApprovalFault(r)
      ensures fault.None? ==> At(r, AfterApproval(r))
    {
      hide Merged, TokenPaths, FirstUnreadable, Canon, DelegationFault, Rejections;
      var tokenPaths := GatherTokenPaths(r.approvalToken, r.approvalTokenChain);
      VerdictAfterDelegation(r);
      if verdict != "require_approval" {
        return None;
      }
      fault := LoadKey(r, r.approvalKey);
      if fault.Some? {
        return;
      }
      fault := SettleApproval(r, tokenPaths);
    }

    method SettleApproval(r: Request, tokenPaths: seq<string>) returns (fault: Option<int>)
      requires At(r, AfterDelegation(r)) && AfterDelegation(r).exit == EXIT_OK
      requires ApprovalConsulted(r) && tokenPaths == Canon(ApprovalPaths(r))
      modifies this
      ensures fault == FirstUnreadable(tokenPaths, r.approval)
      ensures fault.None? ==> At(r, AfterApproval(r))
    {
      hide Merged, TokenPaths, Rejections, AfterDelegation;
      ghost var s := AfterDelegation(r);
      MembersOfCanon(ApprovalPaths(r));
      if |tokenPaths| == 0 {
        AddReasons(r, s, ["approval_token_missing"]);
        AddViolations(r, Noted(s, ["approval_token_missing"]), ["approval_not_granted"]);
        exitCode := EXIT_APPROVAL_REQUIRED;
        return None;
      }
      var validApprovals, approvers;
      fault, validApprovals, approvers := CountApprovals(r, s, tokenPaths);
      if fault.Some? {
        return;
      }
      CloseCount(r, AfterTokens(s, Rejections(tokenPaths, r.approval)),
                 validApprovals >= RequiredApprovals(r),
                 !(r.policy.requireDistinctApprovers && RequiredApprovals(r) > 1 &&
                   |approvers| < RequiredApprovals(r)));
    }

    method CloseCount(r: Request, ghost s: Stage, approvals: bool, approvers: bool)
      requires At(r, s) && s.exit == EXIT_OK
      modifies this
      ensures At(r, AfterCount(s, approvals, approvers))
    {
      hide Merged;
      ghost var s1 := s;
      if !approvals {
        AddReasons(r, s1, ["approval_chain_insufficient"]);
        AddViolations(r, Noted(s1, ["approval_chain_insufficient"]), ["approval_not_granted"]);
        exitCode := EXIT_APPROVAL_REQUIRED;
        s1 := Flagged(Noted(s1, ["approval_chain_insufficient"]), ["approval_not_granted"])
              .(exit := EXIT_APPROVAL_REQUIRED);
      }
      if !approvers {
        AddReasons(r, s1, ["approval_distinct_approvers_required"]);
        AddViolations(r, Noted(s1, ["approval_distinct_approvers_required"]), ["approval_not_granted"]);
        exitCode := EXIT_APPROVAL_REQUIRED;
        s1 := Flagged(Noted(s1, ["approval_distinct_approvers_required"]), ["approval_not_granted"])
              .(exit := EXIT_APPROVAL_REQUIRED);
      }
      if exitCode == EXIT_OK {
        verdict := "allow";
        AddReasons(r, s1.(verdict := "allow"), ["approval_granted"]);
      }
    }

    method CheckReceipt(checks: seq<ReceiptCheck>) returns (reasons: seq<string>, found: seq<string>)
      ensures reasons == AllReasons(checks) && found == AllViolations(checks)
    {
      hide Merged;
      reasons, found := [], [];
      for i := 0 to |checks|
        invariant reasons == AllReasons(checks[..i]) && found == AllViolations(checks[..i])
      {
        assert checks[..i + 1][..i] == checks[..i];
        reasons := MergeUniqueSorted(reasons, checks[i].reasons);
        found := MergeUniqueSorted(found, checks[i].violations);
      }
      assert checks[..|checks|] == checks;
    }

    method ConsultBroker(r: Request) returns (fault: Option<int>)
      requires At(r, AfterApproval(r)) && AfterApproval(r).verdict == VerdictBeforeBroker(r)
      modifies this
      ensures fault == BrokerFault(r)
      ensures fault.None? ==> At(r, AfterBroker(r))
    {
      hide Merged, VerdictBeforeBroker, AfterApproval;
      ghost var s := AfterApproval(r);
      if !r.policy.requireBrokerCredential || verdict != "allow" {
        return None;
      }
      if !r.brokerPresent {
        Block(r, s, ["broker_credential_required"], ["broker_credential_missing"]);
        return None;
      }
      if r.targetBinding.Fail? {
        return Some(r.targetBinding.exit);
      }
      if r.issue.Refused? {
        Block(r, s, ["broker_credential_missing"], ["broker_credential_missing"]);
        return None;
      }
      var reasons, found := CheckReceipt(r.issue.checks);
      if |reasons| > 0 {
        Block(r, s, reasons, found);
      }
      if verdict == "allow" {
        AddReasons(r, s, ["broker_credential_present"]);
      }
      fault := None;
    }

    // Simulation rewrites the outcome instead of enforcing it; the exit code follows the verdict.
    method Finish(r: Request, simulate: bool) returns (report: Report)
      requires At(r, AfterBroker(r)) && DelegationFault(r).None?
      modifies this
      ensures report == if simulate then Simulated(r) else Enforced(r)
    {
      FinishedReport(r);
      hide AfterBroker, Merged, FinalVerdict, FinalReasons, FinalViolations, DelegationFault, TrimSpace, ToLower,
        Enforced, Simulated, SimulationCodes, Canon, Clean;
      VerdictAfterBroker(r);
      ListsAfterBroker(r);
      ExitAgrees(r);
      KnownWords();
      var simulatedVerdict := "";
      var simulatedReasonCodes: seq<string> := [];
      var wouldHaveBlocked := false;
      if simulate {
        simulatedVerdict := verdict;
        simulatedReasonCodes := MergeUniqueSorted([], reasonCodes);
        wouldHaveBlocked := verdict == "block" || verdict == "require_approval";
        SimulationMerges(verdict, reasonCodes);
        reasonCodes := MergeUniqueSorted(reasonCodes, ["simulate_mode_non_enforcing"]);
        if wouldHaveBlocked {
          verdict := "allow";
          violations := [];
          reasonCodes := MergeUniqueSorted(reasonCodes, ["simulated_" + simulatedVerdict]);
        }
        exitCode := EXIT_OK;
      }
      exitCode := ExitCodeForVerdict(verdict, exitCode);
      report := Decided(verdict, reasonCodes, violations, exitCode,
                        simulatedVerdict, simulatedReasonCodes, wouldHaveBlocked);
    }
  }

  // The delegation stage once the chain has been checked.
  lemma SettledStage(r: Request)
    requires r.policy.requireDelegation && DelegationPaths(r) != {} && r.chain.Got?
    ensures var s, entries := AfterLimits(r), r.chain.value.entries;
            AfterDelegation(r) ==
            if r.chain.value.complete then Noted(s, ["delegation_granted"])
            else Denied(AfterTokens(s, ChainErrors(entries)),
                        ["delegation_chain_insufficient"], ["delegation_not_granted"]).(exit := EXIT_POLICY_BLOCKED)
  {
    hide AfterLimits, ChainErrors, DelegationPaths;
    var s, codes := AfterLimits(r), ChainErrors(r.chain.value.entries);
    assert s.reasons + codes + ["delegation_chain_insufficient"]
        == s.reasons + (codes + ["delegation_chain_insufficient"]);
  }

  // What the three ways to finish report.
  lemma FinishedReport(r: Request)
    ensures var v := FinalVerdict(r);
            && Enforced(r) == Decided(v, FinalReasons(r), FinalViolations(r), ExitFor(v), "", [], false)
            && Simulated(r) ==
               Decided(if Enforceable(v) then "allow" else v,
                       Canon(Clean(FinalReasons(r)) + SimulationCodes(v)),
                       if Enforceable(v) then [] else FinalViolations(r),
                       if Enforceable(v) then EXIT_OK else ExitFor(v),
                       v, Canon(Clean(FinalReasons(r))), Enforceable(v))
  {
    hide FinalVerdict, FinalReasons, FinalViolations, ExitFor, Canon, Clean, SimulationCodes;
  }

  lemma SimulationMerges(verdict: string, reasonCodes: seq<string>)
    ensures Merged([], reasonCodes) == Canon(Clean(reasonCodes))
    ensures var marked := Merged(reasonCodes, ["simulate_mode_non_enforcing"]);
            (if Enforceable(verdict) then Merged(marked, ["simulated_" + verdict]) else marked)
            == Canon(Clean(reasonCodes) + SimulationCodes(verdict))
  {
    hide Canon;
    var codes := Clean(reasonCodes);
    assert Clean([]) + codes == codes;
    CleanWord("simulate_mode_non_enforcing");
    if Enforceable(verdict) {
      CleanWord("simulated_" + verdict);
      MergedLeft(reasonCodes, ["simulate_mode_non_enforcing"], ["simulated_" + verdict]);
      UnionLaws(codes, {"simulate_mode_non_enforcing"}, {"simulated_" + verdict});
    } else {
      assert SimulationCodes(verdict) == {"simulate_mode_non_enforcing"};
    }
  }

  // runGateEval from the profile check on, with policy evaluation already answered.
  method Evaluate(r: Request, simulate: bool) returns (report: Report)
    ensures report == Expected(r, simulate)
    ensures report.Decided? <==> !(r.profile == OssProd && simulate) && FirstFault(r).None?
    ensures report.Decided? ==>
              report.verdict == ReportedVerdict(r, simulate) && report.exitCode == ReportedExit(r, simulate)
  {
    hide AfterRate, AfterLimits, AfterDelegation, AfterApproval, AfterBroker, DelegationFault, ApprovalFault,
      Merged, VerdictBeforeBroker, FinalReasons, FinalViolations, ReportedVerdict, ReportedExit, Canon, Clean;
    if r.profile == OssProd && simulate {
      return Aborted(EXIT_INVALID_INPUT);
    }
    var run := new GateRun(r);
    var fault := run.ConsultRateLimit(r);
    if fault.Some? {
      return Aborted(fault.value);
    }
    fault := run.ConsultBudget(r);
    if fault.Some? {
      return Aborted(fault.value);
    }
    if r.signingKey.Fail? {
      return Aborted(r.signingKey.exit);
    }
    fault := run.ConsultDelegation(r);
    if fault.Some? {
      return Aborted(fault.value);
    }
    fault := run.ConsultApproval(r);
    if fault.Some? {
      return Aborted(fault.value);
    }
    VerdictAfterApproval(r);
    fault := run.ConsultBroker(r);
    if fault.Some? {
      return Aborted(fault.value);
    }
    report := run.Finish(r, simulate);
  }
}
