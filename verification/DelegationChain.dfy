/** Matching delegation tokens to the links of a delegation chain, greedily and first come
    first served. */
module DelegationChain {
  import opened CanonicalList
  import opened Sequences
  import opened Sorting
  import opened Strings
  import opened Wrappers

  // A link of the chain; an empty delegator accepts any.
  datatype Link = Link(delegator: string, delegate: string)

  // A token with its identities trimmed, and the codes of the checks made before and after
  // the identities are compared ("" when they pass).
  datatype Token = Token(tokenId: string, delegator: string, delegate: string, formCode: string, claimCode: string)

  datatype Entry = Entry(tokenId: string, valid: bool, errorCode: string)

  datatype Delegation = Delegation(requester: string, chain: seq<Link>)

  // A delegation as it arrives; a time that is not set is None.
  datatype ProposedLink = ProposedLink(delegator: string, delegate: string, issued: Option<int>, expires: Option<int>)

  datatype Proposed = Proposed(requester: string, chain: seq<ProposedLink>, issued: Option<int>, expires: Option<int>)

  // What normalizeDelegation lets through.
  predicate Normalized(d: Delegation) {
    && d.requester != ""
    && (forall i :: 0 <= i < |d.chain| ==> d.chain[i].delegator != "" && d.chain[i].delegate != "")
    && (forall i :: 0 < i < |d.chain| ==> d.chain[i - 1].delegate == d.chain[i].delegator)
    && (d.chain != [] ==> d.chain[|d.chain| - 1].delegate == d.requester)
  }

  predicate InOrder(issued: Option<int>, expires: Option<int>) {
    issued.Some? && expires.Some? ==> issued.value < expires.value
  }

  function TrimmedLink(link: ProposedLink): Link { Link(TrimSpace(link.delegator), TrimSpace(link.delegate)) }

  function Normal(d: Proposed): Delegation {
    Delegation(TrimSpace(d.requester), seq(|d.chain|, i requires 0 <= i < |d.chain| => TrimmedLink(d.chain[i])))
  }

  // Link i names both sides, takes up from the link before it, and expires after it is issued.
  predicate GoodLink(d: Proposed, i: nat)
    requires i < |d.chain|
  {
    && TrimmedLink(d.chain[i]).delegator != "" && TrimmedLink(d.chain[i]).delegate != ""
    && (i > 0 ==> TrimmedLink(d.chain[i - 1]).delegate == TrimmedLink(d.chain[i]).delegator)
    && InOrder(d.chain[i].issued, d.chain[i].expires)
  }

  // A delegation without gaps, from link to link and to the requester.
  predicate WellFormed(d: Proposed) {
    && TrimSpace(d.requester) != ""
    && (forall i :: 0 <= i < |d.chain| ==> GoodLink(d, i))
    && InOrder(d.issued, d.expires)
    && (d.chain != [] ==> TrimmedLink(d.chain[|d.chain| - 1]).delegate == TrimSpace(d.requester))
  }

  lemma WellFormedIsNormalized(d: Proposed)
    ensures WellFormed(d) ==> Normalized(Normal(d)) && Specific(RequiredLinks(Normal(d)))
  {
    hide TrimSpace;
    if WellFormed(d) {
      var n := Normal(d);
      forall i | 0 <= i < |n.chain|
        ensures n.chain[i].delegator != "" && n.chain[i].delegate != ""
        ensures i > 0 ==> n.chain[i - 1].delegate == n.chain[i].delegator
      {
        assert GoodLink(d, i);
      }
    }
  }

  lemma NormalIs(d: Proposed)
    ensures var n := Normal(d);
            && n.requester == TrimSpace(d.requester) && |n.chain| == |d.chain|
            && forall i :: 0 <= i < |d.chain| ==>
                 && n.chain[i].delegator == TrimSpace(d.chain[i].delegator)
                 && n.chain[i].delegate == TrimSpace(d.chain[i].delegate)
  {
    hide TrimSpace;
  }

  // Let through are the delegations whose trimmed names run without a gap to the requester, and
  // whose times, where both are set, are not reversed or equal.
  lemma WellFormedIff(d: Proposed)
    ensures WellFormed(d) <==>
              && Normalized(Normal(d))
              && (forall x, y :: d.issued == Some(x) && d.expires == Some(y) ==> x < y)
              && (forall i, x, y :: 0 <= i < |d.chain| && d.chain[i].issued == Some(x) && d.chain[i].expires == Some(y)
                    ==> x < y)
  {
    hide TrimSpace;
    WellFormedIsNormalized(d);
    if WellFormed(d) {
      forall i, x, y | 0 <= i < |d.chain| && d.chain[i].issued == Some(x) && d.chain[i].expires == Some(y)
        ensures x < y
      {
        assert GoodLink(d, i);
      }
    } else if Normalized(Normal(d)) {
      NormalIs(d);
      if i :| 0 <= i < |d.chain| && !GoodLink(d, i) {
        assert i > 0 ==> Normal(d).chain[i - 1].delegate == Normal(d).chain[i].delegator;
        assert !InOrder(d.chain[i].issued, d.chain[i].expires);
        assert d.chain[i].issued == Some(d.chain[i].issued.value);
        assert d.chain[i].expires == Some(d.chain[i].expires.value);
      } else {
        assert d.chain != [] ==> Normal(d).chain[|d.chain| - 1].delegate == Normal(d).requester;
        assert !InOrder(d.issued, d.expires);
        assert d.issued == Some(d.issued.value) && d.expires == Some(d.expires.value);
      }
    }
  }

  method NormalizeDelegation(input: Proposed) returns (r: Option<Delegation>)
    ensures r == if WellFormed(input) then Some(Normal(input)) else None
    ensures r.Some? ==> Normalized(r.value)
  {
    hide TrimSpace, InOrder, TrimmedLink, Normalized;
    WellFormedIsNormalized(input);
    var requester := TrimSpace(input.requester);
    if requester == "" {
      return None;
    }
    var chain: seq<Link> := [];
    for i := 0 to |input.chain|
      invariant |chain| == i && forall k :: 0 <= k < i ==> chain[k] == TrimmedLink(input.chain[k])
      invariant forall k :: 0 <= k < i ==> GoodLink(input, k)
    {
      var link := TrimmedLink(input.chain[i]);
      if link.delegator == "" || link.delegate == "" {
        assert !GoodLink(input, i);
        return None;
      }
      if i > 0 && chain[i - 1].delegate != link.delegator {
        assert !GoodLink(input, i);
        return None;
      }
      if !InOrder(input.chain[i].issued, input.chain[i].expires) {
        assert !GoodLink(input, i);
        return None;
      }
      chain := chain + [link];
    }
    if !InOrder(input.issued, input.expires) {
      return None;
    }
    if |chain| > 0 && chain[|chain| - 1].delegate != requester {
      return None;
    }
    assert chain == Normal(input).chain;
    r := Some(Delegation(requester, chain));
  }

  function RequiredLinks(d: Delegation): seq<Link> { if d.chain == [] then [Link("", d.requester)] else d.chain }

  // ValidateDelegationToken: "" when the token is good for the link.
  function Validate(token: Token, link: Link): string {
    if token.formCode != "" then token.formCode
    else if link.delegator != "" && token.delegator != link.delegator then "delegation_token_delegator_mismatch"
    else if link.delegate != "" && token.delegate != link.delegate then "delegation_token_delegate_mismatch"
    else token.claimCode
  }

  predicate Fits(token: Token, link: Link) { Validate(token, link) == "" }

  // Either one link, or links that each name both sides.
  predicate Specific(links: seq<Link>) {
    |links| <= 1 || forall i :: 0 <= i < |links| ==> links[i].delegator != "" && links[i].delegate != ""
  }

  // ----- the greedy matching -----

  // The first token not used yet that fits.
  function FirstFit(tokens: seq<Token>, used: set<nat>, link: Link, from: nat): Option<nat>
    requires from <= |tokens|
    decreases |tokens| - from
  {
    if from == |tokens| then None
    else if from !in used && Fits(tokens[from], link) then Some(from)
    else FirstFit(tokens, used, link, from + 1)
  }

  function Use(used: set<nat>, pick: Option<nat>): set<nat> { if pick.Some? then used + {pick.value} else used }

  // Which token each link gets.
  function Greedy(links: seq<Link>, tokens: seq<Token>, used: set<nat>): (picks: seq<Option<nat>>)
    ensures |picks| == |links|
  {
    if links == [] then []
    else
      var pick := FirstFit(tokens, used, links[0], 0);
      [pick] + Greedy(links[1..], tokens, Use(used, pick))
  }

  predicate AllMatched(picks: seq<Option<nat>>) { forall i :: 0 <= i < |picks| ==> picks[i].Some? }

  // An assignment of different tokens to the links, each fitting its link.
  ghost predicate Covers(f: seq<nat>, links: seq<Link>, tokens: seq<Token>) {
    && |f| == |links|
    && (forall i :: 0 <= i < |f| ==> f[i] < |tokens| && Fits(tokens[f[i]], links[i]))
    && (forall i, j :: 0 <= i < j < |f| ==> f[i] != f[j])
  }

  lemma {:induction false} FirstFitFinds(tokens: seq<Token>, used: set<nat>, link: Link, from: nat)
    requires from <= |tokens|
    ensures var pick := FirstFit(tokens, used, link, from);
            && (pick.Some? ==> from <= pick.value < |tokens| && pick.value !in used && Fits(tokens[pick.value], link))
            && (pick.Some? ==> forall j :: from <= j < pick.value && j !in used ==> !Fits(tokens[j], link))
            && (pick.None? <==> forall j :: from <= j < |tokens| && j !in used ==> !Fits(tokens[j], link))
    decreases |tokens| - from
  {
    if from < |tokens| {
      FirstFitFinds(tokens, used, link, from + 1);
    }
  }

  // Why a token is not good for a link: what is wrong with it as such, then its delegator, then its
  // delegate, then what it claims.
  lemma ValidateIs(token: Token, link: Link)
    ensures token.formCode != "" ==> Validate(token, link) == token.formCode
    ensures token.formCode == "" && link.delegator !in {"", token.delegator} ==>
              Validate(token, link) == "delegation_token_delegator_mismatch"
    ensures token.formCode == "" && link.delegator in {"", token.delegator}
            && link.delegate !in {"", token.delegate} ==>
              Validate(token, link) == "delegation_token_delegate_mismatch"
    ensures token.formCode == "" && link.delegator in {"", token.delegator} && link.delegate in {"", token.delegate} ==>
              Validate(token, link) == token.claimCode
  {
  }

  // A delegation without a chain asks for one token made out to the requester, by whomever.
  lemma LoneLink(d: Delegation, token: Token)
    requires d.chain == [] && d.requester != ""
    ensures |RequiredLinks(d)| == 1
    ensures Fits(token, RequiredLinks(d)[0]) <==>
              token.formCode == "" && token.claimCode == "" && token.delegate == d.requester
  {
  }

  // A token that fits two specific links fits them because they are the same link.
  lemma FitsOneLink(token: Token, a: Link, b: Link)
    requires a.delegator != "" && a.delegate != "" && b.delegator != "" && b.delegate != ""
    requires Fits(token, a) && Fits(token, b)
    ensures a == b
  {
  }

  ghost predicate Avoids(f: seq<nat>, used: set<nat>) { forall i :: 0 <= i < |f| ==> f[i] !in used }

  // Where the greedy choice took the token another link was to have, that link takes the token
  // the first link was to have.
  ghost function Exchange(f: seq<nat>, pick: nat): seq<nat>
    requires f != []
  {
    seq(|f| - 1, i requires 0 <= i < |f| - 1 => if f[i + 1] == pick then f[0] else f[i + 1])
  }

  lemma ExchangeCovers(f: seq<nat>, links: seq<Link>, tokens: seq<Token>, used: set<nat>, pick: nat)
    requires Specific(links) && links != [] && Covers(f, links, tokens) && Avoids(f, used)
    requires pick < |tokens| && pick !in used && Fits(tokens[pick], links[0])
    ensures Covers(Exchange(f, pick), links[1..], tokens) && Avoids(Exchange(f, pick), used + {pick})
  {
    hide Fits;
    var g := Exchange(f, pick);
    forall i | 0 <= i < |g| ensures g[i] < |tokens| && Fits(tokens[g[i]], links[1..][i]) && g[i] !in used + {pick} {
      if f[i + 1] == pick {
        assert Fits(tokens[pick], links[i + 1]);
        FitsOneLink(tokens[pick], links[0], links[i + 1]);
      }
    }
  }

  // If any assignment exists the greedy one matches every link.
  lemma {:induction false} GreedyFindsCover(links: seq<Link>, tokens: seq<Token>, used: set<nat>, f: seq<nat>)
    requires Specific(links) && Covers(f, links, tokens) && Avoids(f, used)
    ensures AllMatched(Greedy(links, tokens, used))
  {
    hide Fits, Exchange;
    if links != [] {
      FirstFitFinds(tokens, used, links[0], 0);
      var pick := FirstFit(tokens, used, links[0], 0);
      assert Fits(tokens[f[0]], links[0]) && f[0] !in used;
      ExchangeCovers(f, links, tokens, used, pick.value);
      GreedyFindsCover(links[1..], tokens, used + {pick.value}, Exchange(f, pick.value));
    }
  }

  function Picked(picks: seq<Option<nat>>): seq<nat>
    requires AllMatched(picks)
  {
    seq(|picks|, i requires 0 <= i < |picks| => picks[i].value)
  }

  // Greedy never gives a token twice nor to a link it does not fit.
  lemma {:induction false} GreedyIsSound(links: seq<Link>, tokens: seq<Token>, used: set<nat>)
    ensures var picks := Greedy(links, tokens, used);
            && (forall i :: 0 <= i < |picks| && picks[i].Some? ==>
                  picks[i].value < |tokens| && picks[i].value !in used && Fits(tokens[picks[i].value], links[i]))
            && (forall i, j :: 0 <= i < j < |picks| && picks[i].Some? && picks[j].Some? ==>
                  picks[i].value != picks[j].value)
  {
    hide Fits;
    if links != [] {
      FirstFitFinds(tokens, used, links[0], 0);
      var pick := FirstFit(tokens, used, links[0], 0);
      GreedyIsSound(links[1..], tokens, Use(used, pick));
    }
  }

  // The greedy matching is complete exactly when a complete matching exists.
  lemma GreedyIsOptimal(links: seq<Link>, tokens: seq<Token>)
    requires Specific(links)
    ensures AllMatched(Greedy(links, tokens, {})) <==> exists f :: Covers(f, links, tokens)
  {
    hide Fits;
    GreedyIsSound(links, tokens, {});
    if AllMatched(Greedy(links, tokens, {})) {
      assert Covers(Picked(Greedy(links, tokens, {})), links, tokens);
    }
    if f :| Covers(f, links, tokens) {
      GreedyFindsCover(links, tokens, {}, f);
    }
  }

  lemma NoTokensNoCover(f: seq<nat>, links: seq<Link>)
    requires links != []
    ensures !Covers(f, links, [])
  {
    if |f| == |links| {
      assert f[0] >= 0;
    }
  }

  // It is the naming of both sides that makes the greedy choice safe: with a link open to any
  // delegator it can use up the one token a later link needs.
  lemma GreedyNeedsSpecificLinks(links: seq<Link>, tokens: seq<Token>)
    requires links == [Link("", "b"), Link("a", "b")]
    requires tokens == [Token("1", "a", "b", "", ""), Token("2", "c", "b", "", "")]
    ensures !AllMatched(Greedy(links, tokens, {})) && Covers([1, 0], links, tokens)
  {
    FirstFitFinds(tokens, {}, links[0], 0);
    assert FirstFit(tokens, {}, links[0], 0) == Some(0);
    FirstFitFinds(tokens, {0}, links[1], 0);
    assert FirstFit(tokens, {0}, links[1], 0) == None;
    assert links[1..] == [links[1]];
    var rest := Greedy(links[1..], tokens, {0});
    assert rest[0] == FirstFit(tokens, {0}, links[1], 0);
    assert Use({}, Some(0)) == {0};
    assert Greedy(links, tokens, {}) == [Some(0)] + rest;
    assert Greedy(links, tokens, {})[1].None?;
  }

  // Where each element of a list stands in another list with the same elements.
  ghost predicate Places(place: seq<nat>, a: seq<Token>, b: seq<Token>) {
    && |place| == |a|
    && (forall k :: 0 <= k < |a| ==> place[k] < |b| && b[place[k]] == a[k])
    && (forall j, k :: 0 <= j < k < |a| ==> place[j] != place[k])
  }

  lemma {:induction false} PlacesExist(a: seq<Token>, b: seq<Token>) returns (place: seq<nat>)
    requires SameElements(a, b)
    ensures Places(place, a, b)
    decreases |a|
  {
    hide Places, SameElements;
    SameElementsSize(a, b);
    if a == [] {
      place := [];
      assert Places(place, a, b) by { NoPlaces(b); }
    } else {
      var k := HeadPlace(a, b);
      var inner := PlacesExist(a[1..], b[..k] + b[k + 1..]);
      place := Shifted(inner, k);
      ShiftedPlaces(a, b, k, inner);
    }
  }

  lemma NoPlaces(b: seq<Token>)
    ensures Places([], [], b)
  {
  }

  ghost function Shifted(inner: seq<nat>, k: nat): seq<nat> {
    [k] + seq(|inner|, i requires 0 <= i < |inner| => if inner[i] < k then inner[i] else inner[i] + 1)
  }

  lemma ShiftedPlaces(a: seq<Token>, b: seq<Token>, k: nat, inner: seq<nat>)
    requires a != [] && k < |b| && b[k] == a[0]
    requires Places(inner, a[1..], b[..k] + b[k + 1..])
    ensures Places(Shifted(inner, k), a, b)
  {
    var place := Shifted(inner, k);
    forall i | 0 <= i < |a| ensures place[i] < |b| && b[place[i]] == a[i] {
      if i > 0 {
        assert a[i] == a[1..][i - 1];
      }
    }
  }

  lemma CoverMoves(f: seq<nat>, links: seq<Link>, a: seq<Token>, b: seq<Token>, place: seq<nat>)
    requires Covers(f, links, a) && Places(place, a, b)
    ensures exists g :: Covers(g, links, b)
  {
    hide Fits;
    var g := seq(|f|, i requires 0 <= i < |f| => place[f[i]]);
    forall i, j | 0 <= i < j < |g| ensures g[i] != g[j] {
      assert f[i] != f[j];
    }
    assert Covers(g, links, b);
  }

  // The order in which the tokens are presented does not decide whether a chain is complete.
  lemma CompletenessForgetsOrder(links: seq<Link>, a: seq<Token>, b: seq<Token>)
    requires Specific(links) && SameElements(a, b)
    ensures AllMatched(Greedy(links, a, {})) <==> AllMatched(Greedy(links, b, {}))
  {
    hide Covers, Greedy, AllMatched, Places;
    GreedyIsOptimal(links, a);
    GreedyIsOptimal(links, b);
    var there := PlacesExist(a, b);
    var back := PlacesExist(b, a);
    if f :| Covers(f, links, a) { CoverMoves(f, links, a, b, there); }
    if f :| Covers(f, links, b) { CoverMoves(f, links, b, a, back); }
  }

  // ----- the report -----

  function Matched(picks: seq<Option<nat>>): seq<nat> {
    if picks == [] then []
    else
      var last := picks[|picks| - 1];
      Matched(picks[..|picks| - 1]) + (if last.Some? then [last.value] else [])
  }

  lemma {:induction false} MatchedAll(picks: seq<Option<nat>>)
    ensures |Matched(picks)| <= |picks|
    ensures |Matched(picks)| == |picks| <==> AllMatched(picks)
    ensures forall j :: j in Matched(picks) <==> Some(j) in picks
  {
    if picks != [] {
      var front, last := picks[..|picks| - 1], picks[|picks| - 1];
      MatchedAll(front);
      assert picks == front + [last];
      assert AllMatched(picks) <==> AllMatched(front) && last.Some?;
    }
  }

  function LinkEntry(tokens: seq<Token>, pick: Option<nat>): Entry {
    if pick.Some? && pick.value < |tokens| then Entry(tokens[pick.value].tokenId, true, "")
    else Entry("", false, "delegation_token_missing")
  }

  // Why an unused token was no use: the verdict on it of the first link left over.
  function LeftoverCode(token: Token, links: seq<Link>, picks: seq<Option<nat>>): string
    requires |links| == |picks|
  {
    if links == [] then "delegation_token_chain_mismatch"
    else if picks[0].Some? then LeftoverCode(token, links[1..], picks[1..])
    else if Fits(token, links[0]) then "delegation_token_chain_mismatch"
    else Validate(token, links[0])
  }

  function Leftovers(tokens: seq<Token>, used: set<nat>, links: seq<Link>, picks: seq<Option<nat>>): seq<Entry>
    requires |links| == |picks|
  {
    if tokens == [] then []
    else
      var last := |tokens| - 1;
      Leftovers(tokens[..last], used, links, picks)
      + (if last in used then [] else [Entry(tokens[last].tokenId, false, LeftoverCode(tokens[last], links, picks))])
  }

  // The ids of the matched tokens that have one, in link order.
  function MatchedIds(tokens: seq<Token>, picks: seq<Option<nat>>): seq<string> {
    if picks == [] then []
    else
      var last := picks[|picks| - 1];
      MatchedIds(tokens, picks[..|picks| - 1])
      + (if last.Some? && last.value < |tokens| && tokens[last.value].tokenId != "" then [tokens[last.value].tokenId]
         else [])
  }

  lemma {:induction false} MatchedIdsNamed(tokens: seq<Token>, picks: seq<Option<nat>>, id: string)
    ensures id in MatchedIds(tokens, picks) <==>
              id != "" && exists j :: 0 <= j < |tokens| && tokens[j].tokenId == id && Some(j) in picks
  {
    if picks != [] {
      var front, last := picks[..|picks| - 1], picks[|picks| - 1];
      MatchedIdsNamed(tokens, front, id);
      assert picks == front + [last];
    }
  }

  // validTokenIds lists, canonically, the ids of the matched tokens.
  lemma ValidTokenIdsIff(tokens: seq<Token>, picks: seq<Option<nat>>, id: string)
    ensures id in Merged([], MatchedIds(tokens, picks)) <==>
              id != "" && exists j :: 0 <= j < |tokens| && TrimSpace(tokens[j].tokenId) == id && Some(j) in picks
  {
    hide TrimSpace;
    var ids := MatchedIds(tokens, picks);
    BlankIsTrimmed();
    CleanNothing();
    assert Clean([]) + Clean(ids) == Clean(ids);
    assert Lists(Merged([], ids), Clean(ids));
    CleanMember(ids, id);
    if TrimsTo(ids, id) {
      var v :| v in ids && TrimSpace(v) == id;
      MatchedIdsNamed(tokens, picks, v);
    }
    if j :| 0 <= j < |tokens| && TrimSpace(tokens[j].tokenId) == id && id != "" && Some(j) in picks {
      MatchedIdsNamed(tokens, picks, tokens[j].tokenId);
    }
  }

  // The links that got a token are the ones counted as valid.
  lemma {:induction false} MatchedSize(picks: seq<Option<nat>>)
    ensures |Matched(picks)| == |Served(picks)|
  {
    if picks == [] {
      assert Served(picks) == {};
    } else {
      var front, n := picks[..|picks| - 1], |picks| - 1;
      MatchedSize(front);
      assert Served(picks) == Served(front) + (if picks[n].Some? then {n} else {});
    }
  }

  function Served(picks: seq<Option<nat>>): set<nat> { set i: nat | i < |picks| && picks[i].Some? }

  // The entry of a link names its token, or says that there is none.
  lemma LinkEntryIs(links: seq<Link>, tokens: seq<Token>, i: nat)
    requires i < |links|
    ensures var pick := Greedy(links, tokens, {})[i];
            match pick
            case Some(j) => j < |tokens| && LinkEntry(tokens, pick) == Entry(tokens[j].tokenId, true, "")
            case None => LinkEntry(tokens, pick) == Entry("", false, "delegation_token_missing")
  {
    GreedyIsSound(links, tokens, {});
  }

  // A leftover token is reported with what keeps it from the first link without one, and as a
  // mismatch with the chain when every link has one.
  lemma LeftoverCodeIs(links: seq<Link>, tokens: seq<Token>, i: nat, j: nat)
    requires j < |tokens| && Some(j) !in Greedy(links, tokens, {})
    ensures var picks := Greedy(links, tokens, {});
            && (AllMatched(picks) ==> LeftoverCode(tokens[j], links, picks) == "delegation_token_chain_mismatch")
            && (i < |links| && picks[i].None? && (forall k :: 0 <= k < i ==> picks[k].Some?) ==>
                  && Validate(tokens[j], links[i]) != ""
                  && LeftoverCode(tokens[j], links, picks) == Validate(tokens[j], links[i]))
  {
    hide Validate, Greedy;
    var picks := Greedy(links, tokens, {});
    if AllMatched(picks) {
      AllMatchedCode(tokens[j], links, picks);
    }
    if i < |links| && picks[i].None? && (forall k :: 0 <= k < i ==> picks[k].Some?) {
      LeftoversDoNotFit(links, tokens, i, j);
      FirstOpenCode(tokens[j], links, picks, i);
    }
  }

  lemma {:induction false} AllMatchedCode(token: Token, links: seq<Link>, picks: seq<Option<nat>>)
    requires |links| == |picks| && AllMatched(picks)
    ensures LeftoverCode(token, links, picks) == "delegation_token_chain_mismatch"
  {
    if links != [] {
      AllMatchedCode(token, links[1..], picks[1..]);
    }
  }

  lemma {:induction false} FirstOpenCode(token: Token, links: seq<Link>, picks: seq<Option<nat>>, i: nat)
    requires i < |links| == |picks| && picks[i].None? && (forall k :: 0 <= k < i ==> picks[k].Some?)
    requires !Fits(token, links[i])
    ensures LeftoverCode(token, links, picks) == Validate(token, links[i])
  {
    hide Validate;
    if i > 0 {
      FirstOpenCode(token, links[1..], picks[1..], i - 1);
    }
  }

  // The leftovers are the tokens no link got, one entry each, in order.
  lemma {:induction false} LeftoversAre(tokens: seq<Token>, used: set<nat>, links: seq<Link>,
                                        picks: seq<Option<nat>>, j: nat)
    requires |links| == |picks| && j < |tokens|
    ensures var before := Leftovers(tokens[..j], used, links, picks);
            var after := Leftovers(tokens[..j + 1], used, links, picks);
            after == before + (if j in used then []
                               else [Entry(tokens[j].tokenId, false, LeftoverCode(tokens[j], links, picks))])
    ensures Leftovers([], used, links, picks) == []
  {
    hide LeftoverCode;
    assert tokens[..j + 1][..j] == tokens[..j];
  }

  datatype Report = Report(complete: bool, required: nat, valid: nat, validTokenIds: seq<string>, entries: seq<Entry>)

  method PickToken(tokens: seq<Token>, used: set<nat>, link: Link) returns (pick: Option<nat>)
    ensures pick == FirstFit(tokens, used, link, 0)
    ensures pick.Some? ==> pick.value < |tokens|
  {
    hide Fits;
    for index := 0 to |tokens|
      invariant FirstFit(tokens, used, link, 0) == FirstFit(tokens, used, link, index)
    {
      if index in used {
        continue;
      }
      if Fits(tokens[index], link) {
        return Some(index);
      }
    }
    pick := None;
  }

  method ExplainToken(token: Token, links: seq<Link>, picks: seq<Option<nat>>) returns (code: string)
    requires |links| == |picks|
    ensures code == LeftoverCode(token, links, picks)
  {
    code := "delegation_token_chain_mismatch";
    for i := 0 to |links|
      invariant LeftoverCode(token, links, picks) == LeftoverCode(token, links[i..], picks[i..])
      invariant code == "delegation_token_chain_mismatch"
    {
      assert links[i..][1..] == links[i + 1..] && picks[i..][1..] == picks[i + 1..];
      if picks[i].Some? {
        continue;
      }
      code := Validate(token, links[i]);
      if code == "" {
        code := "delegation_token_chain_mismatch";
      }
      return;
    }
  }

  lemma MatchedSnoc(picks: seq<Option<nat>>, pick: Option<nat>)
    ensures Matched(picks + [pick]) == Matched(picks) + (if pick.Some? then [pick.value] else [])
    ensures Members(Matched(picks + [pick])) == Use(Members(Matched(picks)), pick)
  {
    assert (picks + [pick])[..|picks|] == picks;
  }

  method MatchLinks(links: seq<Link>, tokens: seq<Token>)
    returns (picks: seq<Option<nat>>, used: set<nat>, valid: nat, ids: seq<string>, entries: seq<Entry>)
    ensures picks == Greedy(links, tokens, {})
    ensures ids == MatchedIds(tokens, picks)
    ensures used == Members(Matched(picks)) && valid == |Matched(picks)|
    ensures |entries| == |links| && forall k :: 0 <= k < |links| ==> entries[k] == LinkEntry(tokens, picks[k])
  {
    hide Fits, LinkEntry, FirstFit, Matched;
    used, picks, entries, ids, valid := {}, [], [], [], 0;
    assert Matched(picks) == [] by { MatchedAll(picks); }
    for i := 0 to |links|
      invariant |picks| == i && picks + Greedy(links[i..], tokens, used) == Greedy(links, tokens, {})
      invariant used == Members(Matched(picks)) && valid == |Matched(picks)|
      invariant ids == MatchedIds(tokens, picks)
      invariant |entries| == i && forall k :: 0 <= k < i ==> entries[k] == LinkEntry(tokens, picks[k])
    {
      var pick := PickToken(tokens, used, links[i]);
      GreedyStep(links, tokens, used, i);
      MatchedSnoc(picks, pick);
      assert (picks + [pick])[..|picks|] == picks;
      if pick.Some? {
        used := used + {pick.value};
        valid := valid + 1;
        if tokens[pick.value].tokenId != "" {
          ids := ids + [tokens[pick.value].tokenId];
        }
      }
      picks := picks + [pick];
      entries := entries + [LinkEntry(tokens, pick)];
    }
  }

  lemma GreedyStep(links: seq<Link>, tokens: seq<Token>, used: set<nat>, i: nat)
    requires i < |links|
    ensures var pick := FirstFit(tokens, used, links[i], 0);
            Greedy(links[i..], tokens, used) == [pick] + Greedy(links[i + 1..], tokens, Use(used, pick))
  {
    assert links[i..][1..] == links[i + 1..];
  }

  // The links one after the other, then the tokens that were left; None stands for an error.
  method ValidateDelegationChain(delegation: Option<Proposed>, tokens: seq<Token>)
    returns (report: Option<Report>, ghost picks: seq<Option<nat>>)
    ensures delegation.None? ==> report == Some(Report(false, 0, 0, [], []))
    ensures delegation.Some? ==> (report.Some? <==> WellFormed(delegation.value))
    ensures delegation.Some? && report.Some? ==>
              var links, r := RequiredLinks(Normal(delegation.value)), report.value;
              && picks == Greedy(links, tokens, {})
              && (r.complete <==> exists f :: Covers(f, links, tokens))
              && r.required == |links|
              && r.valid == |Matched(picks)|
              && r.validTokenIds == Merged([], MatchedIds(tokens, picks))
              && |r.entries| >= |links|
              && (forall k :: 0 <= k < |links| ==> r.entries[k] == LinkEntry(tokens, picks[k]))
              && r.entries[|links|..] == Leftovers(tokens, Members(Matched(picks)), links, picks)
  {
    hide Fits, Covers, LinkEntry, LeftoverCode, FirstFit, Greedy, Normal, WellFormed, Merged;
    picks := [];
    if delegation.None? {
      return Some(Report(false, 0, 0, [], [])), [];
    }
    var normalized := NormalizeDelegation(delegation.value);
    if normalized.None? {
      return None, [];
    }
    var links := RequiredLinks(normalized.value);
    var chosen, used, valid, ids, entries := MatchLinks(links, tokens);
    ids := MergeUniqueSorted([], ids);
    picks := chosen;
    MatchedAll(chosen);
    GreedyIsOptimal(links, tokens);
    var rest := ListLeftovers(tokens, used, links, chosen);
    report := Some(Report(valid == |links|, |links|, valid, ids, entries + rest));
  }

  method ListLeftovers(tokens: seq<Token>, used: set<nat>, links: seq<Link>, picks: seq<Option<nat>>)
    returns (entries: seq<Entry>)
    requires |links| == |picks|
    ensures entries == Leftovers(tokens, used, links, picks)
  {
    hide LeftoverCode;
    entries := [];
    for i := 0 to |tokens|
      invariant entries == Leftovers(tokens[..i], used, links, picks)
    {
      assert tokens[..i + 1][..i] == tokens[..i];
      if i in used {
        continue;
      }
      var code := ExplainToken(tokens[i], links, picks);
      entries := entries + [Entry(tokens[i].tokenId, false, code)];
    }
    assert tokens[..|tokens|] == tokens;
  }

  // An unused token never fits a link that was left without one.
  lemma LeftoversDoNotFit(links: seq<Link>, tokens: seq<Token>, i: nat, j: nat)
    requires i < |links| && Greedy(links, tokens, {})[i].None?
    requires j < |tokens| && Some(j) !in Greedy(links, tokens, {})
    ensures !Fits(tokens[j], links[i])
  {
    UnusedDoesNotFit(links, tokens, {}, i, j);
  }

  lemma {:induction false} UnusedDoesNotFit(links: seq<Link>, tokens: seq<Token>, used: set<nat>, i: nat, j: nat)
    requires i < |links| && Greedy(links, tokens, used)[i].None?
    requires j < |tokens| && j !in used && Some(j) !in Greedy(links, tokens, used)
    ensures !Fits(tokens[j], links[i])
  {
    hide Fits;
    FirstFitFinds(tokens, used, links[0], 0);
    var pick := FirstFit(tokens, used, links[0], 0);
    assert Greedy(links, tokens, used)[0] == pick;
    if i > 0 {
      UnusedDoesNotFit(links[1..], tokens, Use(used, pick), i - 1, j);
    }
  }

  // A token is good for a link exactly when all its own checks pass and every identity the link
  // names is the token's.
  lemma FitsIff(token: Token, link: Link)
    ensures Fits(token, link) <==>
              && token.formCode == "" && token.claimCode == ""
              && link.delegator in {"", token.delegator}
              && link.delegate in {"", token.delegate}
  {
  }
}
