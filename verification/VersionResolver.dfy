/** Which version the CLI reports: a stamped one, a trusted build-info one, never a Go
    pseudo-version.  Version strings are ASCII. */
module VersionResolver {
  import opened Strings
  import opened Wrappers

  const LOCAL_DEV_VERSION := "0.0.0-dev"

  // ----- the three regular expressions -----

  predicate AllDigits(s: string) { s != "" && AllOf(IsDigit, s) }

  predicate IsLabelChar(c: char) {
    '0' <= c <= '9' || 'A' <= c <= 'Z' || 'a' <= c <= 'z' || c == '.' || c == '-'
  }

  predicate IsLabel(s: string) { s != "" && AllOf(IsLabelChar, s) }

  function StripV(s: string): string { if s != "" && s[0] == 'v' then s[1..] else s }

  // \d+\.\d+\.\d+
  predicate IsTriple(s: string) {
    exists i, j :: 0 <= i < j < |s| && s[i] == '.' && s[j] == '.'
      && AllDigits(s[..i]) && AllDigits(s[i + 1..j]) && AllDigits(s[j + 1..])
  }

  // ^v?\d+\.\d+\.\d+(?:-[0-9A-Za-z.-]+)?$
  predicate IsBase(s: string) {
    var t := StripV(s);
    IsTriple(t) || exists d :: 0 <= d < |t| && t[d] == '-' && IsTriple(t[..d]) && IsLabel(t[d + 1..])
  }

  // ... with an optional \+[0-9A-Za-z.-]+ behind it
  predicate IsSemverLike(s: string) {
    IsBase(s) || exists b :: 0 <= b < |s| && s[b] == '+' && IsBase(s[..b]) && IsLabel(s[b + 1..])
  }

  // ^[0-9a-f]{12,}$
  predicate IsRevision(s: string) { |s| >= 12 && AllOf(IsLowerHex, s) }

  // ----- pseudo-versions -----

  function CutBuild(s: string): string { s[..IndexOf(s, '+')] }

  predicate Separator(s: string) { s == "-0." || s == ".0." || s == "-" }

  // base, separator, timestamp, dash, revision
  ghost predicate SplitsAs(core: string, base: string, separator: string, timestamp: string, revision: string) {
    && core == base + separator + timestamp + "-" + revision
    && IsBase(base)
    && Separator(separator)
    && |timestamp| == 14 && AllDigits(timestamp)
    && IsRevision(revision)
  }

  ghost predicate PseudoForm(core: string) {
    exists base, separator, timestamp, revision :: SplitsAs(core, base, separator, timestamp, revision)
  }

  ghost predicate PseudoVersion(candidate: string) { PseudoForm(CutBuild(TrimSpace(candidate))) }

  // strings.LastIndexByte
  function LastIndexOf(s: string, c: char): (i: int)
    ensures -1 <= i < |s|
    ensures i >= 0 ==> s[i] == c
    ensures forall k :: i < k < |s| ==> s[k] != c
  {
    if s == "" then -1
    else if s[|s| - 1] == c then |s| - 1
    else LastIndexOf(s[..|s| - 1], c)
  }

  lemma RevisionStartsAfterLastDash(core: string, prefix: string, revision: string)
    requires core == prefix + "-" + revision && IsRevision(revision)
    ensures LastIndexOf(core, '-') == |prefix|
    ensures core[..|prefix|] == prefix && core[|prefix| + 1..] == revision
  {
    assert core[|prefix|] == '-';
    assert forall k :: |prefix| < k < |core| ==> core[k] == revision[k - |prefix| - 1];
    assert forall k :: 0 <= k < |revision| ==> IsLowerHex(revision[k]);
  }

  // One separator tried on the part before the last dash.
  predicate TrySeparator(prefix: string, separator: string) {
    var start := |prefix| - 14;
    && |separator| <= start
    && prefix[start - |separator|..start] == separator
    && AllDigits(prefix[start..])
    && IsBase(prefix[..start - |separator|])
  }

  lemma InThree(s: string, i: nat, j: nat)
    requires i <= j <= |s|
    ensures s == s[..i] + s[i..j] + s[j..]
  {
  }

  lemma TriedIsSplit(prefix: string, separator: string, revision: string)
    requires TrySeparator(prefix, separator) && Separator(separator) && IsRevision(revision)
    ensures PseudoForm(prefix + "-" + revision)
  {
    hide IsBase, IsRevision, AllDigits;
    var start := |prefix| - 14;
    var base := prefix[..start - |separator|];
    assert prefix == base + separator + prefix[start..] by { InThree(prefix, |base|, start); }
    hide Separator;
    assert SplitsAs(prefix + "-" + revision, base, separator, prefix[start..], revision);
  }

  lemma SplitIsTried(core: string, base: string, separator: string, timestamp: string, revision: string)
    requires SplitsAs(core, base, separator, timestamp, revision)
    ensures TrySeparator(base + separator + timestamp, separator)
    ensures LastIndexOf(core, '-') == |base + separator + timestamp| > 0
    ensures core[..|base + separator + timestamp|] == base + separator + timestamp
    ensures core[|base + separator + timestamp| + 1..] == revision
  {
    hide IsBase;
    var prefix := base + separator + timestamp;
    RevisionStartsAfterLastDash(core, prefix, revision);
    var start := |prefix| - 14;
    assert prefix[start..] == timestamp;
    assert prefix[start - |separator|..start] == separator;
    assert prefix[..start - |separator|] == base;
  }

  // The split a pseudo-version has is the one the last dash gives.
  lemma PseudoIffTried(core: string)
    ensures var i := LastIndexOf(core, '-');
            PseudoForm(core) <==>
              i > 0 && IsRevision(core[i + 1..])
              && (TrySeparator(core[..i], "-0.") || TrySeparator(core[..i], ".0.") || TrySeparator(core[..i], "-"))
  {
    hide IsBase, AllDigits, TrySeparator, IsRevision;
    var i := LastIndexOf(core, '-');
    if PseudoForm(core) {
      var b, s, t, r :| SplitsAs(core, b, s, t, r);
      SplitIsTried(core, b, s, t, r);
    }
    if i > 0 && IsRevision(core[i + 1..]) {
      assert core == core[..i] + "-" + core[i + 1..];
      if TrySeparator(core[..i], "-0.") { TriedIsSplit(core[..i], "-0.", core[i + 1..]); }
      if TrySeparator(core[..i], ".0.") { TriedIsSplit(core[..i], ".0.", core[i + 1..]); }
      if TrySeparator(core[..i], "-") { TriedIsSplit(core[..i], "-", core[i + 1..]); }
    }
  }

  method IsPseudoVersion(candidate: string) returns (pseudo: bool)
    ensures pseudo <==> PseudoVersion(candidate)
  {
    hide IsBase, AllDigits, TrimSpace, IsRevision, PseudoForm, CutBuild;
    var core := CutBuild(TrimSpace(candidate));
    PseudoIffTried(core);
    var lastDash := LastIndexOf(core, '-');
    if lastDash <= 0 || lastDash == |core| - 1 {
      NoRevision();
      assert lastDash == |core| - 1 ==> core[lastDash + 1..] == "";
      return false;
    }
    var revision := core[lastDash + 1..];
    if !IsRevision(revision) {
      return false;
    }
    pseudo := AnySeparator(core[..lastDash]);
  }

  lemma NoRevision()
    ensures !IsRevision("")
  {
  }

  // The loop over the separators.
  method AnySeparator(prefix: string) returns (found: bool)
    ensures found <==> TrySeparator(prefix, "-0.") || TrySeparator(prefix, ".0.") || TrySeparator(prefix, "-")
  {
    hide IsBase, AllDigits;
    var separators := ["-0.", ".0.", "-"];
    for i := 0 to 3
      invariant forall k :: 0 <= k < i ==> !TrySeparator(prefix, separators[k])
    {
      var separator := separators[i];
      var timestampStart := |prefix| - 14;
      if timestampStart <= |separator| - 1 {
        continue;
      }
      if prefix[timestampStart - |separator|..timestampStart] != separator {
        continue;
      }
      if !AllDigits(prefix[timestampStart..]) {
        continue;
      }
      if IsBase(prefix[..timestampStart - |separator|]) {
        assert TrySeparator(prefix, separator);
        return true;
      }
    }
    assert !TrySeparator(prefix, separators[0]) && !TrySeparator(prefix, separators[1])
        && !TrySeparator(prefix, separators[2]);
    return false;
  }

  // The three forms of the Go Modules Reference, section "Pseudo-versions": without an earlier
  // tag, after a pre-release, after a release.
  lemma GoPseudoFormsAreRecognised(triple: string, tag: string, timestamp: string, revision: string)
    requires IsTriple(triple) && IsLabel(tag) && |timestamp| == 14 && AllDigits(timestamp)
    requires |revision| == 12 && AllOf(IsLowerHex, revision)
    ensures PseudoForm("v" + triple + "-" + timestamp + "-" + revision)
    ensures PseudoForm("v" + triple + "-" + tag + ".0." + timestamp + "-" + revision)
    ensures PseudoForm("v" + triple + "-0." + timestamp + "-" + revision)
  {
    assert IsRevision(revision);
    hide IsTriple, AllDigits, IsLabel, IsRevision, AllOf, IsLowerHex, PseudoForm;
    var base, tagged := "v" + triple, "v" + triple + "-" + tag;
    assert StripV(base) == triple;
    TaggedIsBase(triple, tag);
    JoinedForm(base, "-", timestamp, revision);
    JoinedForm(base, "-0.", timestamp, revision);
    JoinedForm(tagged, ".0.", timestamp, revision);
    assert tagged + ".0." + timestamp == "v" + triple + "-" + tag + ".0." + timestamp;
  }

  lemma JoinedForm(base: string, separator: string, timestamp: string, revision: string)
    requires IsBase(base) && Separator(separator)
    requires |timestamp| == 14 && AllDigits(timestamp) && IsRevision(revision)
    ensures PseudoForm(base + separator + timestamp + "-" + revision)
  {
    hide IsBase, AllDigits, IsRevision;
    assert SplitsAs(base + separator + timestamp + "-" + revision, base, separator, timestamp, revision);
  }

  lemma TaggedIsBase(triple: string, tag: string)
    requires IsTriple(triple) && IsLabel(tag)
    ensures IsBase("v" + triple + "-" + tag)
  {
    hide IsTriple, IsLabel;
    var t := triple + "-" + tag;
    assert StripV("v" + triple + "-" + tag) == t;
    var d := |triple|;
    assert t[d] == '-' && t[..d] == triple && t[d + 1..] == tag;
  }

  // ----- trusted versions -----

  function NormalizeReleaseVersion(candidate: string): Option<string> {
    var trimmed := TrimSpace(candidate);
    if trimmed == LOCAL_DEV_VERSION then None
    else if !IsSemverLike(trimmed) then None
    else Some(StripV(trimmed))
  }

  function NormalizeExplicitVersion(candidate: string): string {
    var trimmed := TrimSpace(candidate);
    if trimmed == "" then ""
    else
      match NormalizeReleaseVersion(trimmed)
      case Some(normalized) => normalized
      case None => trimmed
  }

  // A stamp is trimmed, and loses its leading v exactly when it is a version.
  lemma NormalizeExplicitIs(candidate: string)
    ensures var t := TrimSpace(candidate);
            NormalizeExplicitVersion(candidate) == if IsSemverLike(t) && t != "" && t[0] == 'v' then t[1..] else t
  {
    hide IsSemverLike;
    TrimmedOnce(candidate);
  }

  // An optional part: nothing, or a mark and a label behind it.
  predicate OptionalLabel(mark: char, s: string) { s == "" || (s[0] == mark && IsLabel(s[1..])) }

  ghost predicate VersionParts(s: string, v: string, a: string, b: string, c: string, pre: string, build: string) {
    && s == v + (a + "." + b + "." + c) + pre + build
    && (v == "" || v == "v")
    && AllDigits(a) && AllDigits(b) && AllDigits(c)
    && OptionalLabel('-', pre) && OptionalLabel('+', build)
  }

  lemma TripleSlices(a: string, b: string, c: string)
    ensures var s, i, j := a + "." + b + "." + c, |a|, |a| + 1 + |b|;
            j < |s| && s[i] == '.' && s[j] == '.' && s[..i] == a && s[i + 1..j] == b && s[j + 1..] == c
  {
  }

  lemma TripleOfSlices(s: string, i: nat, j: nat)
    requires i < j < |s| && s[i] == '.' && s[j] == '.'
    ensures s == s[..i] + "." + s[i + 1..j] + "." + s[j + 1..]
  {
  }

  lemma JoinedIsTriple(a: string, b: string, c: string)
    requires AllDigits(a) && AllDigits(b) && AllDigits(c)
    ensures IsTriple(a + "." + b + "." + c)
  {
    hide AllDigits;
    TripleSlices(a, b, c);
    var s, i, j := a + "." + b + "." + c, |a|, |a| + 1 + |b|;
    assert i < j && s[..i] == a && s[i + 1..j] == b && s[j + 1..] == c;
  }

  lemma PartsOfTriple(s: string) returns (a: string, b: string, c: string)
    requires IsTriple(s)
    ensures AllDigits(a) && AllDigits(b) && AllDigits(c) && s == a + "." + b + "." + c
  {
    hide AllDigits;
    var i, j :| 0 <= i < j < |s| && s[i] == '.' && s[j] == '.'
      && AllDigits(s[..i]) && AllDigits(s[i + 1..j]) && AllDigits(s[j + 1..]);
    TripleOfSlices(s, i, j);
    a, b, c := s[..i], s[i + 1..j], s[j + 1..];
  }

  lemma DigitsAreSome(s: string)
    requires AllDigits(s)
    ensures s != "" && IsDigit(s[0])
  {
  }

  lemma LabelAfter(t: string, mark: char, tail: string)
    requires OptionalLabel(mark, tail) && tail != ""
    ensures (t + tail)[|t|] == mark && (t + tail)[..|t|] == t && (t + tail)[|t| + 1..] == tail[1..]
    ensures IsLabel(tail[1..])
  {
  }

  lemma BaseFromParts(v: string, t: string, pre: string)
    requires (v == "" || v == "v") && IsTriple(t) && OptionalLabel('-', pre)
    ensures IsBase(v + t + pre)
  {
    hide IsTriple, IsLabel;
    TripleStartsWithDigit(t);
    var s := v + t + pre;
    assert StripV(s) == t + pre by {
      assert v == "" ==> s == t + pre && s[0] == t[0];
      assert v == "v" ==> s[1..] == t + pre;
    }
    if pre == "" {
      assert t + pre == t;
    } else {
      LabelAfter(t, '-', pre);
    }
  }

  lemma PartsOfBase(s: string) returns (v: string, t: string, pre: string)
    requires IsBase(s)
    ensures (v == "" || v == "v") && IsTriple(t) && OptionalLabel('-', pre) && s == v + t + pre
  {
    hide IsTriple, IsLabel;
    var rest := StripV(s);
    v := if rest == s then "" else "v";
    assert s == v + rest;
    if IsTriple(rest) {
      t, pre := rest, "";
      assert v + t == v + t + pre;
    } else {
      var d :| 0 <= d < |rest| && rest[d] == '-' && IsTriple(rest[..d]) && IsLabel(rest[d + 1..]);
      t, pre := rest[..d], rest[d..];
      InTwo(v, rest, d);
      assert pre[1..] == rest[d + 1..];
    }
  }

  lemma InTwo(v: string, rest: string, d: nat)
    requires d <= |rest|
    ensures v + rest == v + rest[..d] + rest[d..]
  {
  }

  // The version pattern, read from left to right.
  lemma SemverLikeIff(s: string)
    ensures IsSemverLike(s) <==> exists v, a, b, c, pre, build :: VersionParts(s, v, a, b, c, pre, build)
  {
    hide IsTriple, IsBase, IsLabel, AllDigits;
    if IsSemverLike(s) {
      var core, build := s, "";
      if !IsBase(s) {
        var p :| 0 <= p < |s| && s[p] == '+' && IsBase(s[..p]) && IsLabel(s[p + 1..]);
        core, build := s[..p], s[p..];
        assert build[1..] == s[p + 1..];
      }
      assert s == core + build;
      var v, t, pre := PartsOfBase(core);
      var a, b, c := PartsOfTriple(t);
      assert VersionParts(s, v, a, b, c, pre, build);
    }
    if v, a, b, c, pre, build :| VersionParts(s, v, a, b, c, pre, build) {
      JoinedIsTriple(a, b, c);
      BaseFromParts(v, a + "." + b + "." + c, pre);
      var core := v + (a + "." + b + "." + c) + pre;
      if build == "" {
        assert s == core;
      } else {
        LabelAfter(core, '+', build);
      }
    }
  }

  lemma LabelExamples()
    ensures IsLabel("AZaz09.-") && !IsLabel("") && !IsLabel("a_b") && !IsLabel("a+b")
    ensures IsRevision("0123456789ab") && !IsRevision("0123456789a") && !IsRevision("0123456789ag")
  {
    assert !IsLabelChar("a_b"[1]) && !IsLabelChar("a+b"[1]) && !IsLowerHex("0123456789ag"[11]);
  }

  lemma TripleStartsWithDigit(s: string)
    requires IsTriple(s)
    ensures s != "" && IsDigit(s[0])
  {
    var i, j :| 0 <= i < j < |s| && s[i] == '.' && s[j] == '.'
      && AllDigits(s[..i]) && AllDigits(s[i + 1..j]) && AllDigits(s[j + 1..]);
    assert IsDigit(s[..i][0]);
  }

  lemma BaseStartsWithDigit(s: string)
    requires IsBase(s)
    ensures StripV(s) != "" && IsDigit(StripV(s)[0])
  {
    hide IsTriple;
    var t := StripV(s);
    if IsTriple(t) {
      TripleStartsWithDigit(t);
    } else {
      var d :| 0 <= d < |t| && t[d] == '-' && IsTriple(t[..d]) && IsLabel(t[d + 1..]);
      TripleStartsWithDigit(t[..d]);
    }
  }

  lemma SemverStartsWithDigit(s: string)
    requires IsSemverLike(s)
    ensures StripV(s) != "" && IsDigit(StripV(s)[0])
  {
    hide IsTriple;
    if IsBase(s) {
      BaseStartsWithDigit(s);
    } else {
      var b :| 0 <= b < |s| && s[b] == '+' && IsBase(s[..b]) && IsLabel(s[b + 1..]);
      BaseStartsWithDigit(s[..b]);
    }
  }

  lemma PrefixedIsBase(b: string)
    requires IsBase(b) && b != "" && IsDigit(b[0])
    ensures IsBase("v" + b)
  {
    hide IsTriple;
    assert StripV("v" + b) == b && StripV(b) == b;
  }

  lemma CutAfterV(t: string)
    ensures CutBuild("v" + t) == "v" + CutBuild(t)
  {
    var i := IndexOf(t, '+');
    assert ("v" + t)[1..] == t;
    assert IndexOf("v" + t, '+') == 1 + i;
    assert ("v" + t)[..1 + i] == "v" + t[..i];
  }

  lemma StrippedIsTrimmed(s: string)
    requires TrimmedBy(IsSpace, s) && StripV(s) != "" && IsDigit(StripV(s)[0])
    ensures TrimSpace(s) == s && TrimSpace(StripV(s)) == StripV(s)
  {
    assert TrimmedBy(IsSpace, StripV(s));
  }

  lemma SplitPrefixed(core: string, base: string, separator: string, timestamp: string, revision: string)
    requires SplitsAs(core, base, separator, timestamp, revision) && core != "" && IsDigit(core[0])
    ensures PseudoForm("v" + core)
  {
    hide IsRevision, AllDigits;
    BaseStartsWithDigit(base);
    assert base != "" && base[0] == core[0] by { BaseIsNotEmpty(base); }
    PrefixedIsBase(base);
    hide IsBase, Separator, IsSpace;
    Prepended(base, separator, timestamp, revision);
    assert SplitsAs("v" + core, "v" + base, separator, timestamp, revision);
  }

  lemma Prepended(a: string, b: string, c: string, d: string)
    ensures "v" + (a + b + c + "-" + d) == ("v" + a) + b + c + "-" + d
  {
  }

  lemma BaseIsNotEmpty(b: string)
    requires IsBase(b)
    ensures b != ""
  {
  }

  // Taking the "v" off does not make a version a pseudo-version.
  lemma StrippingKeepsRelease(s: string)
    requires TrimmedBy(IsSpace, s) && IsSemverLike(s) && PseudoVersion(StripV(s))
    ensures PseudoVersion(s)
  {
    hide IsBase, IsSemverLike, IsRevision, AllDigits, TrimBy, SplitsAs, CutBuild, IsDigit;
    SemverStartsWithDigit(s);
    var t := StripV(s);
    StrippedIsTrimmed(s);
    if t != s {
      assert s == "v" + t;
      CutAfterV(t);
      var b, p, ts, r :| SplitsAs(CutBuild(t), b, p, ts, r);
      assert CutBuild(t) != "" && IsDigit(CutBuild(t)[0]) by { CutStartsWithDigit(t, b, p, ts, r); }
      SplitPrefixed(CutBuild(t), b, p, ts, r);
    }
  }

  lemma CutStartsWithDigit(t: string, base: string, separator: string, timestamp: string, revision: string)
    requires SplitsAs(CutBuild(t), base, separator, timestamp, revision) && t != "" && IsDigit(t[0])
    ensures CutBuild(t) != "" && IsDigit(CutBuild(t)[0])
  {
    hide IsBase, IsRevision, AllDigits;
  }

  // info.Main.Version, if there is build information.
  method TrustedBuildInfoVersion(info: Option<string>) returns (version: string)
    ensures version != "" ==>
              && info.Some? && version == StripV(TrimSpace(info.value))
              && IsSemverLike(TrimSpace(info.value))
              && !PseudoVersion(info.value) && !PseudoVersion(version)
    ensures version == "" <==>
              || info.None?
              || !IsSemverLike(TrimSpace(info.value))
              || TrimSpace(info.value) == LOCAL_DEV_VERSION
              || Contains(TrimSpace(info.value), "+dirty")
              || PseudoVersion(info.value)
  {
    hide IsSemverLike, PseudoForm, Contains, TrimBy;
    if info.None? {
      return "";
    }
    var candidate := TrimSpace(info.value);
    assert TrimmedBy(IsSpace, candidate) && TrimSpace(candidate) == candidate;
    NotReleases();
    if candidate == "" || candidate == "(devel)" || Contains(candidate, "+dirty") {
      return "";
    }
    var pseudo := IsPseudoVersion(candidate);
    if !IsSemverLike(candidate) || pseudo {
      return "";
    }
    match NormalizeReleaseVersion(candidate)
    case None =>
      return "";
    case Some(normalized) =>
      SemverStartsWithDigit(candidate);
      if PseudoVersion(normalized) {
        StrippingKeepsRelease(candidate);
      }
      return normalized;
  }

  lemma NotReleases()
    ensures !IsSemverLike("") && !IsSemverLike("(devel)")
  {
    hide IsSemverLike;
    if IsSemverLike("") { SemverStartsWithDigit(""); }
    if IsSemverLike("(devel)") { SemverStartsWithDigit("(devel)"); }
  }

  // Build information names a release: no development default, no dirty tree, no pseudo-version.
  ghost predicate Trusted(info: Option<string>) {
    && info.Some?
    && IsSemverLike(TrimSpace(info.value)) && TrimSpace(info.value) != "0.0.0-dev"
    && !Contains(TrimSpace(info.value), "+dirty")
    && !PseudoVersion(info.value)
  }

  // A stamp wins unless it is the development default; then trusted build information; then
  // the stamp as it is.  Only a stamp can make the CLI report a pseudo-version.
  method ResolveCliVersion(stamped: string, info: Option<string>) returns (version: string)
    ensures version != ""
    ensures var stamp := NormalizeExplicitVersion(stamped);
            && (stamp != "" && stamp != LOCAL_DEV_VERSION ==> version == stamp)
            && (version != stamp && version != LOCAL_DEV_VERSION ==>
                  info.Some? && version == StripV(TrimSpace(info.value)))
            && (PseudoVersion(version) ==> version == stamp)
            && (stamp == "" || stamp == "0.0.0-dev" ==>
                  version == if Trusted(info) then StripV(TrimSpace(info.value)) else "0.0.0-dev")
  {
    hide NormalizeExplicitVersion, IsSemverLike, PseudoForm, Contains, TrimBy;
    var candidate := NormalizeExplicitVersion(stamped);
    if candidate != "" && candidate != LOCAL_DEV_VERSION {
      return candidate;
    }
    candidate := TrustedBuildInfoVersion(info);
    if candidate != "" {
      return candidate;
    }
    candidate := NormalizeExplicitVersion(stamped);
    if candidate != "" {
      return candidate;
    }
    DevIsNoPseudoVersion();
    return LOCAL_DEV_VERSION;
  }

  lemma DevIsNoPseudoVersion()
    ensures !PseudoVersion(LOCAL_DEV_VERSION)
  {
    hide IsBase;
    var dev := LOCAL_DEV_VERSION;
    assert TrimSpace(dev) == dev;
    assert |CutBuild(dev)| <= 9;
  }

  lemma StrippedIsSemver(s: string)
    requires IsSemverLike(s)
    ensures IsSemverLike(StripV(s))
  {
    hide IsSemverLike, AllDigits, OptionalLabel;
    SemverLikeIff(s);
    var v, a, b, c, pre, build :| VersionParts(s, v, a, b, c, pre, build);
    var rest := (a + "." + b + "." + c) + pre + build;
    DigitsAreSome(a);
    assert rest[0] == a[0];
    InThreePieces(v, a + "." + b + "." + c, pre, build);
    assert StripV(s) == rest;
    InThreePieces("", a + "." + b + "." + c, pre, build);
    assert VersionParts(rest, "", a, b, c, pre, build);
    SemverLikeIff(rest);
  }

  lemma InThreePieces(v: string, t: string, pre: string, build: string)
    ensures v + t + pre + build == v + (t + pre + build)
    ensures |v| == 1 ==> (v + (t + pre + build))[1..] == t + pre + build
    ensures v == "" ==> v + (t + pre + build) == t + pre + build
  {
  }

  // A normalised stamp stays as it is.
  lemma NormalizeExplicitIsIdempotent(candidate: string)
    ensures NormalizeExplicitVersion(NormalizeExplicitVersion(candidate)) == NormalizeExplicitVersion(candidate)
  {
    hide IsSemverLike, TrimBy;
    var trimmed := TrimSpace(candidate);
    var normal := NormalizeExplicitVersion(candidate);
    assert TrimmedBy(IsSpace, trimmed) && TrimSpace(trimmed) == trimmed;
    if IsSemverLike(trimmed) {
      SemverStartsWithDigit(trimmed);
      StrippedIsSemver(trimmed);
      assert StripV(StripV(trimmed)) == StripV(trimmed);
    }
    assert TrimmedBy(IsSpace, normal) && TrimSpace(normal) == normal;
  }
}
