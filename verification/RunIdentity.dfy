/** Run ids taken from outside, and the ticket footer that carries them. */
module RunIdentity {
  import opened Strings
  import opened Wrappers

  predicate IsIdChar(c: char) {
    'A' <= c <= 'Z' || 'a' <= c <= 'z' || '0' <= c <= '9' || c == '_' || c == '-'
  }

  predicate IsUnderscore(c: char) { c == '_' }

  function DropRun(s: string): (r: string)
    ensures |r| <= |s|
  {
    if s != "" && !IsIdChar(s[0]) then DropRun(s[1..]) else s
  }

  // Every maximal run of other characters becomes one underscore.
  function Sanitize(s: string): string
    decreases |s|
  {
    if s == "" then ""
    else if IsIdChar(s[0]) then [s[0]] + Sanitize(s[1..])
    else "_" + Sanitize(DropRun(s[1..]))
  }

  function NormalizeRunId(raw: string): string {
    var trimmed := TrimSpace(raw);
    if trimmed == "" then ""
    else
      var clean := TrimBy(IsUnderscore, Sanitize(trimmed));
      if clean == "" then ""
      else if HasPrefix(clean, "run_") then clean
      else "run_" + clean
  }

  // The ids the normaliser produces: run_, then id characters not ending in an underscore.
  predicate IsRunId(s: string) {
    HasPrefix(s, "run_") && AllOf(IsIdChar, s) && s[|s| - 1] != '_'
  }

  // A character that survives sanitising and trimming.
  predicate IsKept(c: char) { IsIdChar(c) && c != '_' }

  // ----- trimming and sanitising -----

  lemma {:induction false} TrimByKeeps(p: char -> bool, s: string, keep: char -> bool)
    ensures AllOf(keep, s) ==> AllOf(keep, TrimBy(p, s))
    ensures TrimBy(p, s) == "" <==> AllOf(p, s)
    decreases |s|
  {
    if s != "" {
      if p(s[0]) {
        TrimByKeeps(p, s[1..], keep);
        assert s == [s[0]] + s[1..];
        assert AllOf(p, s[1..]) ==> AllOf(p, s);
      } else if p(s[|s| - 1]) {
        TrimByKeeps(p, s[..|s| - 1], keep);
        assert s[..|s| - 1] != "" ==> s[..|s| - 1][0] == s[0];
      }
    }
  }

  lemma {:induction false} SanitizeGivesIdChars(s: string)
    ensures AllOf(IsIdChar, Sanitize(s))
    decreases |s|
  {
    if s != "" {
      if IsIdChar(s[0]) {
        SanitizeGivesIdChars(s[1..]);
      } else {
        SanitizeGivesIdChars(DropRun(s[1..]));
      }
    }
  }

  lemma {:induction false} SanitizeKeepsIds(s: string)
    requires AllOf(IsIdChar, s)
    ensures Sanitize(s) == s
  {
    if s != "" {
      SanitizeKeepsIds(s[1..]);
      assert s == [s[0]] + s[1..];
    }
  }

  predicate HasKept(s: string) { exists i :: 0 <= i < |s| && IsKept(s[i]) }

  lemma HasKeptCons(c: char, s: string)
    ensures HasKept([c] + s) <==> IsKept(c) || HasKept(s)
  {
    var t := [c] + s;
    assert t[0] == c;
    assert forall i :: 0 <= i < |s| ==> s[i] == t[i + 1];
  }

  lemma {:induction false} DropRunKeeps(s: string)
    ensures HasKept(DropRun(s)) <==> HasKept(s)
  {
    if s != "" && !IsIdChar(s[0]) {
      DropRunKeeps(s[1..]);
      HasKeptCons(s[0], s[1..]);
      assert s == [s[0]] + s[1..];
    }
  }

  lemma {:induction false} SanitizeKeeps(s: string)
    ensures HasKept(Sanitize(s)) <==> HasKept(s)
    decreases |s|
  {
    if s != "" {
      assert s == [s[0]] + s[1..];
      HasKeptCons(s[0], s[1..]);
      if IsIdChar(s[0]) {
        SanitizeKeeps(s[1..]);
        HasKeptCons(s[0], Sanitize(s[1..]));
      } else {
        DropRunKeeps(s[1..]);
        SanitizeKeeps(DropRun(s[1..]));
        HasKeptCons('_', Sanitize(DropRun(s[1..])));
      }
    }
  }

  lemma HasKeptSnoc(s: string, c: char)
    ensures HasKept(s + [c]) <==> HasKept(s) || IsKept(c)
  {
    hide IsKept;
    var t := s + [c];
    assert forall i :: 0 <= i < |s| ==> t[i] == s[i];
    if HasKept(s) {
      var i :| 0 <= i < |s| && IsKept(s[i]);
      assert IsKept(t[i]);
    }
    assert t[|s|] == c;
  }

  lemma SpaceIsNotKept(c: char)
    requires IsSpace(c)
    ensures !IsKept(c)
  {
  }

  lemma {:induction false} TrimSpaceKeeps(s: string)
    ensures HasKept(TrimBy(IsSpace, s)) <==> HasKept(s)
    decreases |s|
  {
    hide HasKept, IsSpace, IsKept;
    if s != "" {
      if IsSpace(s[0]) {
        assert s == [s[0]] + s[1..];
        HasKeptCons(s[0], s[1..]);
        SpaceIsNotKept(s[0]);
        TrimSpaceKeeps(s[1..]);
      } else if IsSpace(s[|s| - 1]) {
        assert s == s[..|s| - 1] + [s[|s| - 1]];
        HasKeptSnoc(s[..|s| - 1], s[|s| - 1]);
        SpaceIsNotKept(s[|s| - 1]);
        TrimSpaceKeeps(s[..|s| - 1]);
      }
    }
  }

  // ----- the normaliser -----

  lemma UnderscoresAreNotKept(s: string)
    requires AllOf(IsIdChar, s)
    ensures AllOf(IsUnderscore, s) <==> !HasKept(s)
  {
    if AllOf(IsUnderscore, s) {
      assert forall i :: 0 <= i < |s| ==> IsUnderscore(s[i]);
    } else {
      var i :| 0 <= i < |s| && !IsUnderscore(s[i]);
      assert IsKept(s[i]);
    }
  }

  // Either nothing or a well-formed id; nothing exactly when no letter, digit or dash is there.
  lemma NormalizeRunIdShape(raw: string)
    ensures NormalizeRunId(raw) == "" || IsRunId(NormalizeRunId(raw))
    ensures NormalizeRunId(raw) == "" <==> !HasKept(raw)
  {
    hide TrimBy, Sanitize;
    var trimmed := TrimSpace(raw);
    var sanitized := Sanitize(trimmed);
    var clean := TrimBy(IsUnderscore, sanitized);
    TrimSpaceKeeps(raw);
    SanitizeKeeps(trimmed);
    SanitizeGivesIdChars(trimmed);
    TrimByKeeps(IsUnderscore, sanitized, IsIdChar);
    UnderscoresAreNotKept(sanitized);
    hide AllOf, HasKept, IsRunId, IsKept, IsIdChar, HasPrefix, TrimmedBy, IsSpace;
    if clean != "" {
      CleanGivesRunId(clean);
    }
  }

  lemma CleanGivesRunId(clean: string)
    requires clean != "" && AllOf(IsIdChar, clean) && TrimmedBy(IsUnderscore, clean)
    ensures IsRunId(if HasPrefix(clean, "run_") then clean else "run_" + clean)
  {
    hide AllOf, IsIdChar;
    RunPrefix(clean);
  }

  lemma RunPrefix(clean: string)
    requires clean != "" && AllOf(IsIdChar, clean)
    ensures AllOf(IsIdChar, "run_" + clean) && HasPrefix("run_" + clean, "run_")
    ensures ("run_" + clean)[|"run_" + clean| - 1] == clean[|clean| - 1]
  {
    var s := "run_" + clean;
    assert forall i :: 0 <= i < 4 ==> IsIdChar("run_"[i]);
    assert forall i :: 4 <= i < |s| ==> s[i] == clean[i - 4];
  }

  // The fixed points are exactly the empty string and the well-formed ids ...
  lemma NormalizeRunIdFixes(s: string)
    ensures NormalizeRunId(s) == s <==> s == "" || IsRunId(s)
  {
    hide TrimBy, Sanitize;
    NormalizeRunIdShape(s);
    if IsRunId(s) {
      assert IsIdChar(s[0]) && IsIdChar(s[|s| - 1]);
      assert TrimmedBy(IsSpace, s);
      SanitizeKeepsIds(s);
      assert s[0] == "run_"[0];
      assert TrimmedBy(IsUnderscore, s);
    } else if s == "" {
      assert TrimmedBy(IsSpace, s);
    }
  }

  // ... so normalising twice changes nothing.
  lemma NormalizeRunIdIsIdempotent(raw: string)
    ensures NormalizeRunId(NormalizeRunId(raw)) == NormalizeRunId(raw)
  {
    hide NormalizeRunId, IsRunId;
    NormalizeRunIdShape(raw);
    NormalizeRunIdFixes(NormalizeRunId(raw));
  }

  // ----- what becomes of other characters -----

  lemma IdCharExamples()
    ensures IsId("AZaz09_-") && !IsId("")
    ensures forall c :: c in " .,:/\\\n\t+@" ==> !IsIdChar(c)
  {
  }

  // Cleaned text before the prefix is put on.
  function Cleaned(s: string): string { TrimBy(IsUnderscore, Sanitize(s)) }

  lemma {:induction false} TrimBySnoc(p: char -> bool, s: string, c: char)
    requires p(c)
    ensures TrimBy(p, s + [c]) == TrimBy(p, s)
    decreases |s|
  {
    var t := s + [c];
    if s != "" && p(s[0]) {
      assert t[1..] == s[1..] + [c];
      TrimBySnoc(p, s[1..], c);
    } else {
      assert t[..|t| - 1] == s;
    }
  }

  lemma DropRunIds(s: string)
    ensures s == "" || IsIdChar(s[0]) ==> DropRun(s) == s
    ensures s != "" && !IsIdChar(s[0]) ==> DropRun(s) == DropRun(s[1..])
  {
  }

  // A character that is not kept makes no difference at the front ...
  lemma FrontIsIgnored(c: char, s: string)
    requires !IsKept(c)
    ensures Cleaned([c] + s) == Cleaned(s)
  {
    var t := [c] + s;
    assert t[1..] == s;
    if IsIdChar(c) {
      UnderscoreInFront(Sanitize(s));
    } else {
      UnderscoreInFront(Sanitize(DropRun(s)));
      DropRunIds(s);
      if s != "" && !IsIdChar(s[0]) {
        UnderscoreInFront(Sanitize(DropRun(s[1..])));
      }
    }
  }

  lemma UnderscoreInFront(s: string)
    ensures TrimBy(IsUnderscore, "_" + s) == TrimBy(IsUnderscore, s)
  {
    assert ("_" + s)[1..] == s;
  }

  lemma {:induction false} DropRunSnoc(s: string, c: char)
    ensures DropRun(s + [c]) == if DropRun(s) == "" && !IsIdChar(c) then "" else DropRun(s) + [c]
  {
    if s == "" {
      assert s + [c] == [c];
      assert [c][1..] == "";
    } else {
      assert (s + [c])[1..] == s[1..] + [c];
      DropRunSnoc(s[1..], c);
    }
  }

  lemma SanitizeStep(c: char, s: string)
    ensures Sanitize([c] + s) == if IsIdChar(c) then [c] + Sanitize(s) else "_" + Sanitize(DropRun(s))
  {
    assert ([c] + s)[1..] == s;
  }

  function LastOut(s: string, c: char): string {
    if IsIdChar(c) then [c] else if s != "" && !IsIdChar(s[|s| - 1]) then "" else "_"
  }

  lemma {:induction false} SanitizeSnoc(s: string, c: char)
    ensures Sanitize(s + [c]) == Sanitize(s) + LastOut(s, c)
    decreases |s|
  {
    hide Sanitize, IsIdChar;
    SanitizeOne(c);
    if s == "" {
      assert s + [c] == [c];
    } else {
      var head, rest := s[0], s[1..];
      assert s == [head] + rest && s + [c] == [head] + (rest + [c]);
      SanitizeStep(head, rest);
      SanitizeStep(head, rest + [c]);
      if IsIdChar(head) {
        SanitizeSnoc(rest, c);
        AfterHead([head], Sanitize(rest), LastOut(rest, c));
      } else {
        DropRunSnoc(rest, c);
        DropRunLast(rest);
        var kept := DropRun(rest);
        if kept == "" {
          assert rest != "" ==> !IsIdChar(rest[|rest| - 1]);
          assert DropRun(rest + [c]) == if IsIdChar(c) then [c] else "";
        } else {
          SanitizeSnoc(kept, c);
          AfterHead("_", Sanitize(kept), LastOut(kept, c));
        }
      }
    }
  }

  lemma AfterHead(a: string, b: string, c: string)
    ensures a + (b + c) == a + b + c
  {
  }

  lemma SanitizeOne(c: char)
    ensures Sanitize("") == "" && Sanitize([c]) == if IsIdChar(c) then [c] else "_"
  {
    assert [c][1..] == "";
  }

  // Dropping a run at the front leaves the last character, unless all is dropped.
  lemma {:induction false} DropRunLast(s: string)
    ensures DropRun(s) == "" <==> forall i :: 0 <= i < |s| ==> !IsIdChar(s[i])
    ensures DropRun(s) != "" ==> s != "" && DropRun(s)[|DropRun(s)| - 1] == s[|s| - 1]
  {
    if s != "" && !IsIdChar(s[0]) {
      DropRunLast(s[1..]);
      assert s == [s[0]] + s[1..];
    }
  }

  // ... or at the back.
  lemma BackIsIgnored(s: string, c: char)
    requires !IsKept(c)
    ensures Cleaned(s + [c]) == Cleaned(s)
  {
    hide Sanitize;
    SanitizeSnoc(s, c);
    TrimBySnoc(IsUnderscore, Sanitize(s), '_');
    assert Sanitize(s) + "" == Sanitize(s) && "_" == ['_'];
  }

  lemma {:induction false} SpacesAreIgnored(s: string)
    ensures Cleaned(TrimBy(IsSpace, s)) == Cleaned(s)
    decreases |s|
  {
    hide Cleaned, IsSpace, IsKept;
    if s != "" {
      if IsSpace(s[0]) {
        SpaceIsNotKept(s[0]);
        assert s == [s[0]] + s[1..];
        FrontIsIgnored(s[0], s[1..]);
        SpacesAreIgnored(s[1..]);
      } else if IsSpace(s[|s| - 1]) {
        SpaceIsNotKept(s[|s| - 1]);
        assert s == s[..|s| - 1] + [s[|s| - 1]];
        BackIsIgnored(s[..|s| - 1], s[|s| - 1]);
        SpacesAreIgnored(s[..|s| - 1]);
      }
    }
  }

  function Prefixed(s: string): string { if s == "" || HasPrefix(s, "run_") then s else "run_" + s }

  lemma NormalizeIsCleaned(raw: string)
    ensures NormalizeRunId(raw) == Prefixed(Cleaned(raw))
  {
    hide Sanitize;
    SpacesAreIgnored(raw);
    NothingIsCleaned();
  }

  lemma NothingIsCleaned()
    ensures Cleaned("") == ""
  {
  }

  // Whatever is not a letter, digit or dash makes no difference at either end.
  lemma EndsDoNotMatter(raw: string, c: char)
    requires !IsKept(c)
    ensures NormalizeRunId([c] + raw) == NormalizeRunId(raw)
    ensures NormalizeRunId(raw + [c]) == NormalizeRunId(raw)
  {
    hide NormalizeRunId, Cleaned, IsKept;
    NormalizeIsCleaned(raw);
    NormalizeIsCleaned([c] + raw);
    NormalizeIsCleaned(raw + [c]);
    FrontIsIgnored(c, raw);
    BackIsIgnored(raw, c);
  }

  // Ids with gaps between them.
  function Woven(ids: seq<string>, gaps: seq<string>): string
    requires |ids| == |gaps| + 1
  {
    if gaps == [] then ids[0] else ids[0] + (gaps[0] + Woven(ids[1..], gaps[1..]))
  }

  function Underscored(ids: seq<string>): string
    requires ids != []
  {
    if |ids| == 1 then ids[0] else ids[0] + ("_" + Underscored(ids[1..]))
  }

  ghost predicate AllIds(ids: seq<string>) {
    forall i :: 0 <= i < |ids| ==> |ids[i]| > 0 && AllOf(IsIdChar, ids[i])
  }

  ghost predicate AllGaps(gaps: seq<string>) { forall i :: 0 <= i < |gaps| ==> IsGap(gaps[i]) }

  predicate IsGap(s: string) { s != "" && forall i :: 0 <= i < |s| ==> !IsIdChar(s[i]) }

  lemma {:induction false} SanitizeAfterId(a: string, rest: string)
    requires AllOf(IsIdChar, a)
    ensures Sanitize(a + rest) == a + Sanitize(rest)
  {
    if a == "" {
      assert a + rest == rest;
    } else {
      assert (a + rest)[1..] == a[1..] + rest;
      SanitizeAfterId(a[1..], rest);
      assert a == [a[0]] + a[1..];
    }
  }

  lemma {:induction false} DropGap(gap: string, rest: string)
    requires (forall i :: 0 <= i < |gap| ==> !IsIdChar(gap[i])) && rest != "" && IsIdChar(rest[0])
    ensures DropRun(gap + rest) == rest
  {
    if gap == "" {
      assert gap + rest == rest;
    } else {
      assert (gap + rest)[1..] == gap[1..] + rest;
      DropGap(gap[1..], rest);
    }
  }

  lemma SanitizeAfterGap(gap: string, rest: string)
    requires IsGap(gap) && rest != "" && IsIdChar(rest[0])
    ensures Sanitize(gap + rest) == "_" + Sanitize(rest)
  {
    assert (gap + rest)[1..] == gap[1..] + rest;
    DropGap(gap[1..], rest);
  }

  lemma {:induction false} SanitizeWoven(ids: seq<string>, gaps: seq<string>)
    requires |ids| == |gaps| + 1
    requires AllIds(ids) && AllGaps(gaps)
    ensures Sanitize(Woven(ids, gaps)) == Underscored(ids)
    ensures Woven(ids, gaps) != "" && Woven(ids, gaps)[0] == ids[0][0]
  {
    hide Sanitize;
    if gaps == [] {
      SanitizeKeepsIds(ids[0]);
    } else {
      var rest := Woven(ids[1..], gaps[1..]);
      SanitizeWoven(ids[1..], gaps[1..]);
      assert IsIdChar(rest[0]);
      SanitizeAfterId(ids[0], gaps[0] + rest);
      SanitizeAfterGap(gaps[0], rest);
    }
  }

  lemma JoinEnds(a: string, b: string)
    requires a != "" && b != ""
    ensures (a + ("_" + b))[0] == a[0] && (a + ("_" + b))[|a + ("_" + b)| - 1] == b[|b| - 1]
  {
  }

  lemma {:induction false} UnderscoredEnds(ids: seq<string>)
    requires ids != [] && AllIds(ids)
    ensures var s, last := Underscored(ids), ids[|ids| - 1];
            s != "" && s[0] == ids[0][0] && s[|s| - 1] == last[|last| - 1]
  {
    hide AllOf, IsIdChar;
    if |ids| > 1 {
      var rest := Underscored(ids[1..]);
      UnderscoredEnds(ids[1..]);
      JoinEnds(ids[0], rest);
    }
  }

  // Every run of other characters between ids becomes one underscore, however long it is.
  lemma PiecesAreJoined(ids: seq<string>, gaps: seq<string>)
    requires |ids| == |gaps| + 1
    requires AllIds(ids) && AllGaps(gaps)
    requires ids[0][0] != '_' && ids[|ids| - 1][|ids[|ids| - 1]| - 1] != '_'
    ensures NormalizeRunId(Woven(ids, gaps)) ==
            var joined := Underscored(ids); if "run_" <= joined then joined else "run_" + joined
  {
    hide NormalizeRunId, Sanitize, Woven, Underscored, IsGap;
    NormalizeIsCleaned(Woven(ids, gaps));
    SanitizeWoven(ids, gaps);
    UnderscoredEnds(ids);
    assert TrimmedBy(IsUnderscore, Underscored(ids));
  }

  // "a b" and "a, b" are one id, and "ab" is another.
  lemma GapExample()
    ensures NormalizeRunId("a b") == NormalizeRunId("a, b") == "run_a_b"
    ensures NormalizeRunId("ab") == "run_ab"
  {
    hide NormalizeRunId;
    assert Woven(["a", "b"], [" "]) == "a b" && Woven(["a", "b"], [", "]) == "a, b" && Woven(["ab"], []) == "ab";
    assert Underscored(["a", "b"]) == "a_b" && Underscored(["ab"]) == "ab";
    PiecesAreJoined(["a", "b"], [" "]);
    PiecesAreJoined(["a", "b"], [", "]);
    PiecesAreJoined(["ab"], []);
  }

  // ----- the ticket footer -----

  function Manifest(digest: string): string { " manifest=sha256:" + digest + " verify=\"gait verify " }

  // The footer with the three captured parts filled in.
  function Filled(id: string, digest: string, again: string): string {
    "GAIT run_id=" + (id + (Manifest(digest) + (again + "\"")))
  }

  function FormatTicketFooter(runId: string, manifestDigest: string): string {
    Filled(runId, manifestDigest, runId)
  }

  lemma FooterText(id: string, digest: string)
    ensures FormatTicketFooter(id, digest) ==
            "GAIT run_id=" + id + " manifest=sha256:" + digest + " verify=\"gait verify " + id + "\""
  {
  }

  predicate IsId(s: string) { s != "" && AllOf(IsIdChar, s) }

  // The value matches the footer pattern with these captures.
  ghost predicate Captures(value: string, id: string, digest: string, again: string) {
    IsId(id) && IsDigest(digest) && IsId(again) && value == Filled(id, digest, again)
  }

  // What FindStringSubmatch returns.
  ghost function Submatch(value: string): Option<(string, string, string)> {
    if exists id, digest, again :: Captures(value, id, digest, again) then
      var id, digest, again :| Captures(value, id, digest, again);
      Some((id, digest, again))
    else None
  }

  ghost predicate TicketFooterMatchesContract(value: string) {
    var matches := Submatch(value);
    matches.Some? && matches.value.0 == matches.value.2
  }

  // Two splits of a text after a run of id characters agree.
  lemma SplitIsUnique(a: string, rest: string, b: string, tail: string)
    requires AllOf(IsIdChar, a) && AllOf(IsIdChar, b) && rest != "" && tail != ""
    requires !IsIdChar(rest[0]) && !IsIdChar(tail[0])
    requires a + rest == b + tail
    ensures a == b && rest == tail
  {
    assert (a + rest)[|a|] == rest[0] && (b + tail)[|b|] == tail[0];
    assert forall i :: 0 <= i < |a| ==> (a + rest)[i] == a[i];
    assert forall i :: 0 <= i < |b| ==> (b + tail)[i] == b[i];
    assert a == (a + rest)[..|a|] && b == (b + tail)[..|b|];
    assert rest == (a + rest)[|a|..] && tail == (b + tail)[|b|..];
  }

  lemma PrefixCancels(p: string, a: string, b: string)
    requires p + a == p + b
    ensures a == b
  {
    assert a == (p + a)[|p|..] && b == (p + b)[|p|..];
  }

  // The pattern captures in one way only.
  lemma CapturesAreUnique(value: string, a: string, d: string, b: string, a': string, d': string, b': string)
    requires Captures(value, a, d, b) && Captures(value, a', d', b')
    ensures a == a' && d == d' && b == b'
  {
    var rest, rest' := Manifest(d) + (b + "\""), Manifest(d') + (b' + "\"");
    PrefixCancels("GAIT run_id=", a + rest, a' + rest');
    SplitIsUnique(a, rest, a', rest');
    assert rest[17..81] == d && rest'[17..81] == d';
    PrefixCancels(Manifest(d), b + "\"", b' + "\"");
    SplitIsUnique(b, "\"", b', "\"");
  }

  // Exactly the footers the formatter writes for an id and a digest meet the contract.
  lemma ContractIffFormatted(value: string)
    ensures TicketFooterMatchesContract(value) <==>
              exists id, digest :: IsId(id) && IsDigest(digest) && value == FormatTicketFooter(id, digest)
  {
    hide Filled, IsId, IsDigest;
    if id, digest :| IsId(id) && IsDigest(digest) && value == FormatTicketFooter(id, digest) {
      assert Captures(value, id, digest, id);
      var m := Submatch(value).value;
      CapturesAreUnique(value, id, digest, id, m.0, m.1, m.2);
    }
    if TicketFooterMatchesContract(value) {
      var m := Submatch(value).value;
      assert value == FormatTicketFooter(m.0, m.1);
    }
  }

  // Reading a footer back gives the id and the digest it was written with.
  lemma FooterRoundTrip(id: string, digest: string)
    requires IsId(id) && IsDigest(digest)
    ensures Submatch(FormatTicketFooter(id, digest)) == Some((id, digest, id))
  {
    hide Filled, IsId, IsDigest;
    var value := FormatTicketFooter(id, digest);
    assert Captures(value, id, digest, id);
    var m := Submatch(value).value;
    CapturesAreUnique(value, id, digest, id, m.0, m.1, m.2);
  }

  // Any run id that normalises to something can be put in a footer and read back.
  lemma NormalizedIdsFit(raw: string, digest: string)
    requires NormalizeRunId(raw) != "" && IsDigest(digest)
    ensures TicketFooterMatchesContract(FormatTicketFooter(NormalizeRunId(raw), digest))
  {
    hide NormalizeRunId, Submatch, FormatTicketFooter;
    NormalizeRunIdShape(raw);
    FooterRoundTrip(NormalizeRunId(raw), digest);
  }
}
