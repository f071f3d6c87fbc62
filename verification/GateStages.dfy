/** The same pipeline stage by stage, and the proof that the stages add up to the declared
    outcome. */
module GateStages {
  import opened CanonicalList
  import opened GateDecision
  import opened Sequences
  import opened Strings
  import opened Wrappers

  // The run between two stages: the verdict, the exit code, and what was merged into the lists.
  datatype Stage = Stage(verdict: string, exit: int,
                         reasonsTouched: bool, reasons: seq<string>,
                         violationsTouched: bool, found: seq<string>)

  // A list after merging in the given codes.
  ghost function Listed(start: seq<string>, touched: bool, codes: seq<string>): seq<string> {
    if touched then Merged(start, codes) else start
  }

  function Noted(s: Stage, reasons: seq<string>): Stage {
    s.(reasonsTouched := true, reasons := s.reasons + reasons)
  }

  function Flagged(s: Stage, found: seq<string>): Stage {
    s.(violationsTouched := true, found := s.found + found)
  }

  function Denied(s: Stage, reasons: seq<string>, found: seq<string>): Stage {
    Flagged(Noted(s.(verdict := "block"), reasons), found)
  }

  function Start(r: Request): Stage { Stage(r.policy.verdict, EXIT_OK, false, [], false, []) }

  function AfterRate(r: Request): Stage {
    if RateRefused(r) then Denied(Start(r), ["rate_limit_exceeded"], ["rate_limit_exceeded"]) else Start(r)
  }

  function AfterLimits(r: Request): Stage {
    if BudgetRefused(r)
    then Denied(AfterRate(r), ["destructive_budget_exceeded"], ["destructive_budget_exceeded"])
    else AfterRate(r)
  }

  function AfterDelegation(r: Request): Stage {
    var s := AfterLimits(r);
    if !r.policy.requireDelegation then s
    else if DelegationGranted(r) then Noted(s, ["delegation_granted"])
    else if DelegationPaths(r) == {} then
      Denied(s, ["delegation_token_missing"], ["delegation_not_granted"]).(exit := EXIT_POLICY_BLOCKED)
    else if r.chain.Got? then
      AfterChainErrors(s, r.chain.value.entries)
    else s
  }

  // The error codes an incomplete delegation chain reports.
  function ChainErrors(entries: seq<ChainEntry>): seq<string> {
    if entries == [] then []
    else
      var last := entries[|entries| - 1];
      ChainErrors(entries[..|entries| - 1])
      + (if !last.valid && TrimSpace(last.errorCode) != "" then [last.errorCode] else [])
  }

  function AfterChainErrors(s: Stage, entries: seq<ChainEntry>): Stage {
    Denied(s, ChainErrors(entries) + ["delegation_chain_insufficient"], ["delegation_not_granted"])
    .(exit := EXIT_POLICY_BLOCKED)
  }

  function Rejections(paths: seq<string>, approval: string -> TokenAnswer): seq<string> {
    if paths == [] then []
    else
      var last := approval(paths[|paths| - 1]);
      Rejections(paths[..|paths| - 1], approval)
      + (if last.Rejected? then [RejectionCode(last.code)] else [])
  }

  function AfterTokens(s: Stage, codes: seq<string>): Stage {
    s.(reasonsTouched := s.reasonsTouched || codes != [], reasons := s.reasons + codes)
  }

  // Closing the approval loop, given whether there were enough approvals and enough approvers.
  function AfterCount(s: Stage, approvals: bool, approvers: bool): Stage {
    var s := if approvals then s
             else Flagged(Noted(s, ["approval_chain_insufficient"]), ["approval_not_granted"])
                  .(exit := EXIT_APPROVAL_REQUIRED);
    var s := if approvers then s
             else Flagged(Noted(s, ["approval_distinct_approvers_required"]), ["approval_not_granted"])
                  .(exit := EXIT_APPROVAL_REQUIRED);
    if approvals && approvers then Noted(s, ["approval_granted"]).(verdict := "allow") else s
  }

  ghost function AfterApproval(r: Request): Stage {
    var s := AfterDelegation(r);
    if !ApprovalConsulted(r) then s
    else if ApprovalPaths(r) == {} then
      Flagged(Noted(s, ["approval_token_missing"]), ["approval_not_granted"]).(exit := EXIT_APPROVAL_REQUIRED)
    else
      AfterCount(AfterTokens(s, Rejections(Canon(ApprovalPaths(r)), r.approval)),
                 EnoughApprovals(r), EnoughApprovers(r))
  }

  ghost function AllReasons(checks: seq<ReceiptCheck>): seq<string> {
    if checks == [] then [] else Merged(AllReasons(checks[..|checks| - 1]), checks[|checks| - 1].reasons)
  }

  ghost function AllViolations(checks: seq<ReceiptCheck>): seq<string> {
    if checks == [] then [] else Merged(AllViolations(checks[..|checks| - 1]), checks[|checks| - 1].violations)
  }

  ghost function AfterBroker(r: Request): Stage {
    var s := AfterApproval(r);
    if !BrokerConsulted(r) then s
    else if !r.brokerPresent then Denied(s, ["broker_credential_required"], ["broker_credential_missing"])
    else if r.issue.Refused? then Denied(s, ["broker_credential_missing"], ["broker_credential_missing"])
    else if AllReasons(r.issue.checks) == [] then Noted(s, ["broker_credential_present"])
    else Denied(s, AllReasons(r.issue.checks), AllViolations(r.issue.checks))
  }

  lemma ListedMerge(start: seq<string>, touched: bool, codes: seq<string>, extra: seq<string>)
    requires !touched ==> codes == []
    ensures Merged(Listed(start, touched, codes), extra) == Listed(start, true, codes + extra)
  {
    if touched {
      MergedLeft(start, codes, extra);
      CleanConcat(codes, extra);
      UnionLaws(Clean(start), Clean(codes), Clean(extra));
    } else {
      assert codes + extra == extra;
    }
  }

  lemma MembersOfCanon(S: set<string>)
    ensures Members(Canon(S)) == S && Distinct(Canon(S))
    ensures Canon(S) == [] <==> S == {}
  {
    var c := Canon(S);
    assert Lists(c, S);
    assert c != [] ==> c[0] in S;
    assert Members(c) == S;
  }

  // One more path of the approval loop.
  lemma CountStep(r: Request, paths: seq<string>, i: nat)
    requires i < |paths| && Distinct(paths)
    ensures var before, after := Members(paths[..i]), Members(paths[..i + 1]);
            match r.approval(paths[i])
            case Accepted(approver) =>
              && |AcceptedAmong(r, after)| == |AcceptedAmong(r, before)| + 1
              && ApproversAmong(r, after) == ApproversAmong(r, before) + (if approver == "" then {} else {approver})
            case _ =>
              && AcceptedAmong(r, after) == AcceptedAmong(r, before)
              && ApproversAmong(r, after) == ApproversAmong(r, before)
  {
    var before := Members(paths[..i]);
    assert paths[i] !in before;
    assert Members(paths[..i + 1]) == before + {paths[i]} by {
      assert paths[..i + 1] == paths[..i] + [paths[i]];
    }
    AcceptedStep(r, before, paths[i]);
    ApproversStep(r, before, paths[i]);
  }

  lemma AcceptedStep(r: Request, before: set<string>, p: string)
    requires p !in before
    ensures AcceptedAmong(r, before + {p}) ==
            AcceptedAmong(r, before) + (if r.approval(p).Accepted? then {p} else {})
    ensures |AcceptedAmong(r, before + {p})| ==
            |AcceptedAmong(r, before)| + (if r.approval(p).Accepted? then 1 else 0)
  {
    var after := AcceptedAmong(r, before) + (if r.approval(p).Accepted? then {p} else {});
    assert AcceptedAmong(r, before + {p}) == after;
    assert p !in AcceptedAmong(r, before);
  }

  lemma ApproversStep(r: Request, before: set<string>, p: string)
    ensures ApproversAmong(r, before + {p}) ==
            ApproversAmong(r, before)
            + (if r.approval(p).Accepted? && r.approval(p).approver != "" then {r.approval(p).approver} else {})
  {
  }

  lemma VerdictAfterDelegation(r: Request)
    requires DelegationFault(r).None?
    ensures AfterDelegation(r).verdict == if Stopped(r) then "block" else r.policy.verdict
    ensures AfterDelegation(r).exit == if DelegationDenied(r) then EXIT_POLICY_BLOCKED else EXIT_OK
  {
    hide TokenPaths, FirstReadFault, Canon, ChainErrors;
  }

  lemma VerdictAfterApproval(r: Request)
    requires DelegationFault(r).None?
    ensures AfterApproval(r).verdict == VerdictBeforeBroker(r)
    ensures AfterApproval(r).exit == if DelegationDenied(r) then EXIT_POLICY_BLOCKED
                                     else if ApprovalConsulted(r) && !QuorumMet(r) then EXIT_APPROVAL_REQUIRED
                                     else EXIT_OK
  {
    hide TokenPaths, Canon, Rejections, DelegationFault, AfterDelegation;
    VerdictAfterDelegation(r);
    if ApprovalPaths(r) == {} {
      assert AcceptedAmong(r, ApprovalPaths(r)) == {};
    }
  }

  // gateEvalExitCodeForVerdict
  function ExitCodeForVerdict(verdict: string, current: int): int {
    var word := ToLower(TrimSpace(verdict));
    if word == "block" then EXIT_POLICY_BLOCKED
    else if word == "require_approval" && current == EXIT_OK then EXIT_APPROVAL_REQUIRED
    else current
  }

  // ----- the stages add up to the declared outcome -----

  lemma KnownWords()
    ensures forall w :: w in {"block", "require_approval", "allow", "dry_run"} ==> ToLower(TrimSpace(w)) == w
  {
    hide ToLower, TrimSpace;
    PlainWord("block");
    PlainWord("require_approval");
    OpenWords();
  }

  lemma OpenWords()
    ensures forall w :: w in {"allow", "dry_run"} ==> ToLower(TrimSpace(w)) == w
  {
    hide ToLower, TrimSpace;
    PlainWord("allow");
    PlainWord("dry_run");
  }

  lemma CleanWord(w: string)
    requires Word(w)
    ensures Clean([w]) == {w}
  {
    CleanSnoc([], w);
    assert [] + [w] == [w];
  }

  lemma {:induction false} ReceiptLists(checks: seq<ReceiptCheck>)
    ensures Clean(AllReasons(checks)) == ReceiptReasons(checks)
    ensures Clean(AllViolations(checks)) == ReceiptViolations(checks)
    ensures AllReasons(checks) == [] <==> ReceiptReasons(checks) == {}
  {
    hide Merged;
    if checks != [] {
      var front, last := checks[..|checks| - 1], checks[|checks| - 1];
      ReceiptLists(front);
      CleanOfMerged(AllReasons(front), last.reasons);
      CleanOfMerged(AllViolations(front), last.violations);
      MergedEmpty(AllReasons(front), last.reasons);
    }
  }

  lemma MergedEmpty(a: seq<string>, b: seq<string>)
    ensures Merged(a, b) == [] <==> Clean(a) + Clean(b) == {}
  {
    hide Clean, Canon;
    MembersOfCanon(Clean(a) + Clean(b));
  }

  lemma VerdictAfterBroker(r: Request)
    requires DelegationFault(r).None?
    ensures AfterBroker(r).verdict == FinalVerdict(r)
    ensures AfterBroker(r).exit == AfterApproval(r).exit
  {
    hide AfterApproval, VerdictBeforeBroker, AllReasons, AllViolations, ReceiptReasons, DelegationFault;
    VerdictAfterApproval(r);
    if r.issue.Issued? {
      ReceiptLists(r.issue.checks);
    }
  }

  // The exit code the stages leave behind never contradicts the final verdict.
  lemma ExitAgrees(r: Request)
    requires DelegationFault(r).None?
    ensures ExitCodeForVerdict(FinalVerdict(r), AfterBroker(r).exit) == ExitFor(FinalVerdict(r))
  {
    hide AfterApproval, AfterBroker, DelegationFault, QuorumMet, TokenPaths, BrokerGranted, ToLower, TrimSpace;
    VerdictAfterApproval(r);
    VerdictAfterBroker(r);
    KnownWords();
  }

  // The codes merged so far, as sets, and whether a list was touched at all.
  ghost predicate Carries(s: Stage, reasons: set<string>, found: set<string>) {
    && Clean(s.reasons) == reasons && (s.reasonsTouched <==> reasons != {})
    && Clean(s.found) == found
  }

  lemma NotedCarries(s: Stage, reasons: set<string>, found: set<string>, extra: seq<string>, codes: set<string>)
    requires Clean(s.reasons) == reasons && Clean(s.found) == found
    requires Clean(extra) == codes && codes != {}
    ensures Carries(Noted(s, extra), reasons + codes, found)
  {
    CleanConcat(s.reasons, extra);
  }

  lemma FlaggedCarries(s: Stage, reasons: set<string>, found: set<string>, extra: seq<string>, codes: set<string>)
    requires Carries(s, reasons, found) && Clean(extra) == codes
    ensures Carries(Flagged(s, extra), reasons, found + codes)
  {
    CleanConcat(s.found, extra);
  }

  lemma DeniedCarries(s: Stage, reasons: set<string>, found: set<string>,
                      extra: seq<string>, codes: set<string>, extraFound: seq<string>, codesFound: set<string>)
    requires Clean(s.reasons) == reasons && Clean(s.found) == found
    requires Clean(extra) == codes && codes != {} && Clean(extraFound) == codesFound
    ensures Carries(Denied(s, extra, extraFound), reasons + codes, found + codesFound)
    ensures Denied(s, extra, extraFound).violationsTouched
  {
    NotedCarries(s.(verdict := "block"), reasons, found, extra, codes);
    FlaggedCarries(Noted(s.(verdict := "block"), extra), reasons + codes, found, extraFound, codesFound);
  }

  lemma RateCarries(r: Request)
    ensures var codes := if RateRefused(r) then {"rate_limit_exceeded"} else {};
            Carries(AfterRate(r), codes, codes)
    ensures AfterRate(r).violationsTouched <==> RateRefused(r)
  {
    hide Denied, Clean;
    CleanWord("rate_limit_exceeded");
    CleanNothing();
    if RateRefused(r) {
      var code := ["rate_limit_exceeded"];
      DeniedCarries(Start(r), {}, {}, code, Clean(code), code, Clean(code));
      assert {} + Clean(code) == Clean(code);
    }
  }

  lemma LimitsCarry(r: Request)
    ensures Carries(AfterLimits(r), LimitCodes(r), LimitCodes(r))
    ensures AfterLimits(r).violationsTouched <==> RateRefused(r) || BudgetRefused(r)
  {
    hide Denied, Clean, AfterRate;
    CleanWord("destructive_budget_exceeded");
    RateCarries(r);
    var codes := if RateRefused(r) then {"rate_limit_exceeded"} else {};
    if BudgetRefused(r) {
      var code := ["destructive_budget_exceeded"];
      DeniedCarries(AfterRate(r), codes, codes, code, Clean(code), code, Clean(code));
    } else {
      assert codes + {} == codes;
    }
  }

  lemma {:induction false} ChainErrorsClean(entries: seq<ChainEntry>)
    ensures Clean(ChainErrors(entries)) == ChainCodes(entries)
  {
    hide TrimSpace;
    if entries != [] {
      var front, last := entries[..|entries| - 1], entries[|entries| - 1];
      ChainErrorsClean(front);
      CleanSnoc(ChainErrors(front), last.errorCode);
      assert ChainErrors(front) + [] == ChainErrors(front);
    }
  }

  lemma DelegationCarries(r: Request)
    requires DelegationFault(r).None?
    ensures Carries(AfterDelegation(r), LimitCodes(r) + DelegationReasons(r), LimitCodes(r) + DelegationViolations(r))
    ensures AfterDelegation(r).violationsTouched <==> Stopped(r)
  {
    hide Denied, Clean, AfterLimits, TokenPaths, FirstReadFault, Canon, LimitCodes, ChainErrors, ChainCodes;
    LimitsCarry(r);
    var s, codes := AfterLimits(r), LimitCodes(r);
    var denied := ["delegation_not_granted"];
    CleanWord("delegation_not_granted");
    if !r.policy.requireDelegation {
      assert codes + {} == codes;
    } else if DelegationGranted(r) {
      CleanWord("delegation_granted");
      NotedCarries(s, codes, codes, ["delegation_granted"], {"delegation_granted"});
      assert codes + {} == codes;
    } else if DelegationPaths(r) == {} {
      CleanWord("delegation_token_missing");
      DeniedCarries(s, codes, codes, ["delegation_token_missing"], {"delegation_token_missing"},
                    denied, {"delegation_not_granted"});
    } else {
      ChainCarries(r, s, codes);
    }
  }

  lemma ChainCarries(r: Request, s: Stage, codes: set<string>)
    requires r.chain.Got? && Carries(s, codes, codes)
    ensures Carries(AfterChainErrors(s, r.chain.value.entries),
                    codes + (ChainCodes(r.chain.value.entries) + {"delegation_chain_insufficient"}),
                    codes + {"delegation_not_granted"})
    ensures AfterChainErrors(s, r.chain.value.entries).violationsTouched
  {
    hide Clean, Denied, ChainErrors, ChainCodes;
    var entries := r.chain.value.entries;
    var insufficient := ["delegation_chain_insufficient"];
    CleanWord("delegation_not_granted");
    CleanWord("delegation_chain_insufficient");
    ChainErrorsClean(entries);
    CleanConcat(ChainErrors(entries), insufficient);
    DeniedCarries(s, codes, codes,
                  ChainErrors(entries) + insufficient, ChainCodes(entries) + {"delegation_chain_insufficient"},
                  ["delegation_not_granted"], {"delegation_not_granted"});
  }

  lemma {:induction false} RejectionsClean(r: Request, paths: seq<string>)
    ensures Clean(Rejections(paths, r.approval)) == RejectionCodes(r, Members(paths))
  {
    hide TrimSpace;
    if paths == [] {
      assert RejectionCodes(r, Members(paths)) == {};
    } else {
      var front, p := paths[..|paths| - 1], paths[|paths| - 1];
      RejectionsClean(r, front);
      assert Members(paths) == Members(front) + {p} by { assert paths == front + [p]; }
      RejectionStep(r, Members(front), p);
      if r.approval(p).Rejected? {
        CleanSnoc(Rejections(front, r.approval), RejectionCode(r.approval(p).code));
      } else {
        assert Rejections(front, r.approval) + [] == Rejections(front, r.approval);
      }
    }
  }

  lemma RejectionStep(r: Request, before: set<string>, p: string)
    ensures RejectionCodes(r, before + {p}) ==
            RejectionCodes(r, before)
            + (if r.approval(p).Rejected? then Trimmed(RejectionCode(r.approval(p).code)) else {})
  {
    hide Trimmed;
  }

  function ShortCodes(approvals: bool, approvers: bool): set<string> {
    (if approvals then {} else {"approval_chain_insufficient"})
    + (if approvers then {} else {"approval_distinct_approvers_required"})
    + (if approvals && approvers then {"approval_granted"} else {})
  }

  lemma CountCarries(s: Stage, reasons: set<string>, found: set<string>, approvals: bool, approvers: bool)
    requires Clean(s.reasons) == reasons && Clean(s.found) == found
    ensures var ok := approvals && approvers;
            Carries(AfterCount(s, approvals, approvers), reasons + ShortCodes(approvals, approvers),
                    found + (if ok then {} else {"approval_not_granted"}))
    ensures AfterCount(s, approvals, approvers).violationsTouched <==>
            s.violationsTouched || !(approvals && approvers)
  {
    hide Clean;
    CleanWord("approval_chain_insufficient");
    CleanWord("approval_distinct_approvers_required");
    CleanWord("approval_granted");
    CleanWord("approval_not_granted");
    var short, distinct, denied :=
      ["approval_chain_insufficient"], ["approval_distinct_approvers_required"], ["approval_not_granted"];
    CleanConcat(s.reasons, short);
    CleanConcat(s.reasons, distinct);
    CleanConcat(s.reasons + short, distinct);
    CleanConcat(s.reasons, ["approval_granted"]);
    CleanConcat(s.found, denied);
    CleanConcat(s.found + denied, denied);
  }

  lemma ApprovalCarries(r: Request)
    requires DelegationFault(r).None?
    ensures Carries(AfterApproval(r), LimitCodes(r) + DelegationReasons(r) + ApprovalReasons(r),
                    LimitCodes(r) + DelegationViolations(r) + ApprovalViolations(r))
    ensures AfterApproval(r).violationsTouched <==> Stopped(r) || (ApprovalConsulted(r) && !QuorumMet(r))
  {
    hide Clean, Canon, TokenPaths, AfterDelegation, DelegationFault, AfterCount, Rejections, DelegationReasons,
      DelegationViolations, LimitCodes, RejectionCodes, Stopped, EnoughApprovals, EnoughApprovers;
    DelegationCarries(r);
    var s := AfterDelegation(r);
    var reasons, found := LimitCodes(r) + DelegationReasons(r), LimitCodes(r) + DelegationViolations(r);
    if !ApprovalConsulted(r) {
      assert reasons + {} == reasons && found + {} == found;
    } else if ApprovalPaths(r) == {} {
      CleanWord("approval_token_missing");
      CleanWord("approval_not_granted");
      NoQuorumWithoutTokens(r);
      NotedCarries(s, reasons, found, ["approval_token_missing"], {"approval_token_missing"});
      FlaggedCarries(Noted(s, ["approval_token_missing"]), reasons + {"approval_token_missing"}, found,
                     ["approval_not_granted"], {"approval_not_granted"});
    } else {
      TokensCarry(r, s, reasons, found);
    }
  }

  lemma NoQuorumWithoutTokens(r: Request)
    requires ApprovalPaths(r) == {}
    ensures !QuorumMet(r)
  {
    hide TokenPaths;
    assert AcceptedAmong(r, ApprovalPaths(r)) == {};
  }

  lemma TokensCarry(r: Request, s: Stage, reasons: set<string>, found: set<string>)
    requires Carries(s, reasons, found) && ApprovalConsulted(r) && ApprovalPaths(r) != {}
    ensures var after := AfterCount(AfterTokens(s, Rejections(Canon(ApprovalPaths(r)), r.approval)),
                                    EnoughApprovals(r), EnoughApprovers(r));
            && Carries(after, reasons + ApprovalReasons(r), found + ApprovalViolations(r))
            && (after.violationsTouched <==> s.violationsTouched || !QuorumMet(r))
  {
    hide Clean, Canon, TokenPaths, AfterCount, Rejections, RejectionCodes, ApprovalConsulted,
      EnoughApprovals, EnoughApprovers;
    var paths := Canon(ApprovalPaths(r));
    var codes := Rejections(paths, r.approval);
    RejectionsClean(r, paths);
    MembersOfCanon(ApprovalPaths(r));
    CleanConcat(s.reasons, codes);
    CountCarries(AfterTokens(s, codes), reasons + RejectionCodes(r, ApprovalPaths(r)), found,
                 EnoughApprovals(r), EnoughApprovers(r));
    UnionLaws(reasons, RejectionCodes(r, ApprovalPaths(r)), ShortCodes(EnoughApprovals(r), EnoughApprovers(r)));
  }

  lemma BrokerCarries(r: Request)
    requires DelegationFault(r).None?
    ensures Carries(AfterBroker(r), AddedReasons(r), AddedViolations(r))
    ensures AfterBroker(r).violationsTouched <==> ViolationsTouched(r)
  {
    hide Clean, AfterApproval, DelegationFault, DelegationReasons, DelegationViolations, LimitCodes, ApprovalReasons,
      ApprovalViolations, Stopped, ApprovalConsulted, QuorumMet, VerdictBeforeBroker, ReceiptReasons,
      ReceiptViolations, AllReasons, AllViolations, Denied;
    ApprovalCarries(r);
    var s := AfterApproval(r);
    var reasons := LimitCodes(r) + DelegationReasons(r) + ApprovalReasons(r);
    var found := LimitCodes(r) + DelegationViolations(r) + ApprovalViolations(r);
    CleanWord("broker_credential_required");
    CleanWord("broker_credential_missing");
    CleanWord("broker_credential_present");
    if !BrokerConsulted(r) {
      assert reasons + {} == reasons && found + {} == found;
    } else if !r.brokerPresent {
      DeniedCarries(s, reasons, found, ["broker_credential_required"], {"broker_credential_required"},
                    ["broker_credential_missing"], {"broker_credential_missing"});
    } else if r.issue.Refused? {
      DeniedCarries(s, reasons, found, ["broker_credential_missing"], {"broker_credential_missing"},
                    ["broker_credential_missing"], {"broker_credential_missing"});
    } else {
      ReceiptLists(r.issue.checks);
      if AllReasons(r.issue.checks) == [] {
        NotedCarries(s, reasons, found, ["broker_credential_present"], {"broker_credential_present"});
        assert found + {} == found;
      } else {
        DeniedCarries(s, reasons, found, AllReasons(r.issue.checks), ReceiptReasons(r.issue.checks),
                      AllViolations(r.issue.checks), ReceiptViolations(r.issue.checks));
      }
    }
  }

  // After the last stage both lists are what the outcome declares.
  lemma ListsAfterBroker(r: Request)
    requires DelegationFault(r).None?
    ensures var s := AfterBroker(r);
            && Listed(r.policy.reasonCodes, s.reasonsTouched, s.reasons) == FinalReasons(r)
            && Listed(r.policy.violations, s.violationsTouched, s.found) == FinalViolations(r)
  {
    hide Clean, Canon, AfterBroker, AddedReasons, AddedViolations, ViolationsTouched, DelegationFault;
    BrokerCarries(r);
  }

  // The rejection codes of one more token.
  lemma RejectionsSnoc(s: Stage, r: Request, paths: seq<string>, i: nat)
    requires i < |paths|
    ensures var before, after := Rejections(paths[..i], r.approval), Rejections(paths[..i + 1], r.approval);
            if r.approval(paths[i]).Rejected?
            then AfterTokens(s, after) == Noted(AfterTokens(s, before), [RejectionCode(r.approval(paths[i]).code)])
            else AfterTokens(s, after) == AfterTokens(s, before)
  {
    var before := Rejections(paths[..i], r.approval);
    assert paths[..i + 1][..i] == paths[..i];
    assert before + [] == before;
    if r.approval(paths[i]).Rejected? {
      var code := RejectionCode(r.approval(paths[i]).code);
      assert s.reasons + before + [code] == s.reasons + (before + [code]);
    }
  }

  lemma NoTokens(s: Stage, r: Request)
    ensures forall paths: seq<string> :: paths == [] ==>
              && Rejections(paths, r.approval) == []
              && AcceptedAmong(r, Members(paths)) == {} && ApproversAmong(r, Members(paths)) == {}
    ensures AfterTokens(s, []) == s
  {
    assert s.reasons + [] == s.reasons;
  }
}
