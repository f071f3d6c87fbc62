/** The few string operations of the Go standard library that the modelled code relies on.
    A string is a sequence of code points; Go's byte-wise comparison of UTF-8 strings is the
    lexicographic order of their code points. */
module Strings {

  // unicode.IsSpace
  predicate IsSpace(c: char) {
    || '\t' <= c <= '\r' || c == ' ' || c == '\U{0085}' || c == '\U{00A0}' || c == '\U{1680}'
    || '\U{2000}' <= c <= '\U{200A}' || c == '\U{2028}' || c == '\U{2029}' || c == '\U{202F}'
    || c == '\U{205F}' || c == '\U{3000}'
  }

  predicate IsDigit(c: char) { '0' <= c <= '9' }

  predicate IsLowerHex(c: char) { '0' <= c <= '9' || 'a' <= c <= 'f' }

  predicate AllOf(p: char -> bool, s: string) { forall i :: 0 <= i < |s| ==> p(s[i]) }

  // SHA-256 in lower-case hex.
  predicate IsDigest(s: string) { |s| == 64 && AllOf(IsLowerHex, s) }

  predicate TrimmedBy(p: char -> bool, s: string) {
    s == "" || (!p(s[0]) && !p(s[|s| - 1]))
  }

  // strings.TrimFunc: drops the longest p-prefix and the longest p-suffix.
  function TrimBy(p: char -> bool, s: string): (r: string)
    ensures TrimmedBy(p, r)
    ensures TrimmedBy(p, s) ==> r == s
    decreases |s|
  {
    if s == "" then ""
    else if p(s[0]) then TrimBy(p, s[1..])
    else if p(s[|s| - 1]) then TrimBy(p, s[..|s| - 1])
    else s
  }

  function TrimSpace(s: string): string { TrimBy(IsSpace, s) }

  // What is left is the text between a p-prefix and a p-suffix.
  lemma {:induction false} TrimByIs(p: char -> bool, s: string) returns (front: string, back: string)
    ensures s == front + TrimBy(p, s) + back && AllOf(p, front) && AllOf(p, back)
    decreases |s|
  {
    front, back := "", "";
    if s == "" {
    } else if p(s[0]) {
      front, back := TrimByIs(p, s[1..]);
      assert s == [s[0]] + s[1..];
      front := [s[0]] + front;
    } else if p(s[|s| - 1]) {
      front, back := TrimByIs(p, s[..|s| - 1]);
      assert s == s[..|s| - 1] + [s[|s| - 1]];
      back := back + [s[|s| - 1]];
    }
  }

  lemma {:induction false} TrimAround(p: char -> bool, front: string, core: string, back: string)
    requires AllOf(p, front) && AllOf(p, back) && TrimmedBy(p, core)
    ensures TrimBy(p, front + core + back) == core
    decreases |front| + |back|
  {
    var s := front + core + back;
    if front != "" {
      assert s[1..] == front[1..] + core + back;
      TrimAround(p, front[1..], core, back);
    } else if back != "" {
      assert s[|s| - 1] == back[|back| - 1];
      if core == "" {
        assert s[1..] == "" + core + back[1..];
        TrimAround(p, "", core, back[1..]);
      } else {
        assert s[0] == core[0];
        assert s[..|s| - 1] == "" + core + back[..|back| - 1];
        TrimAround(p, "", core, back[..|back| - 1]);
      }
    }
  }

  // The one text t without white space at its ends that white space surrounds.
  lemma TrimSpaceIff(s: string, t: string)
    ensures TrimSpace(s) == t <==>
              && TrimmedBy(IsSpace, t)
              && exists front, back :: s == front + t + back && AllOf(IsSpace, front) && AllOf(IsSpace, back)
  {
    hide IsSpace, AllOf, TrimBy, TrimmedBy;
    var front, back := TrimByIs(IsSpace, s);
    if TrimmedBy(IsSpace, t) {
      if front, back :| s == front + t + back && AllOf(IsSpace, front) && AllOf(IsSpace, back) {
        TrimAround(IsSpace, front, t, back);
      }
    }
  }

  // strings.ToLower as far as equality with an ASCII word can tell: besides A-Z, only the
  // Kelvin sign and the dotted capital I have an ASCII lower case.
  function ToLowerChar(c: char): char {
    if 'A' <= c <= 'Z' then c - 'A' + 'a'
    else if c == '\U{212A}' then 'k'
    else if c == '\U{0130}' then 'i'
    else c
  }

  function ToLower(s: string): string { seq(|s|, i requires 0 <= i < |s| => ToLowerChar(s[i])) }

  lemma LowerAlphabet()
    ensures ToLower("ABCDEFGHIJKLMNOPQRSTUVWXYZ") == "abcdefghijklmnopqrstuvwxyz"
    ensures forall c :: !('A' <= c <= 'Z') && c < '\U{0080}' ==> ToLower([c]) == [c]
  {
  }

  // A word that trimming leaves alone, and one that lower-casing leaves alone too.
  predicate Word(w: string) { w != "" && TrimmedBy(IsSpace, w) }

  predicate LowerWord(w: string) { Word(w) && forall i :: 0 <= i < |w| ==> ToLowerChar(w[i]) == w[i] }

  lemma PlainWord(w: string)
    requires LowerWord(w)
    ensures TrimSpace(w) == w && ToLower(w) == w && ToLower(TrimSpace(w)) == w
  {
  }

  lemma TrimmedOnce(s: string)
    ensures TrimSpace(TrimSpace(s)) == TrimSpace(s)
  {
  }

  lemma BlankIsTrimmed()
    ensures TrimSpace("") == "" && ToLower(TrimSpace("")) == ""
  {
  }

  // Trimming and lower-casing once is enough.
  lemma NormalStays(s: string)
    ensures ToLower(TrimSpace(s)) != "" ==> LowerWord(ToLower(TrimSpace(s)))
    ensures ToLower(TrimSpace(ToLower(TrimSpace(s)))) == ToLower(TrimSpace(s))
  {
    var t := TrimSpace(s);
    assert t != "" ==> !IsSpace(ToLower(t)[0]) && !IsSpace(ToLower(t)[|t| - 1]);
  }

  predicate HasPrefix(s: string, prefix: string) { prefix <= s }

  predicate HasSuffix(s: string, suffix: string) {
    |suffix| <= |s| && s[|s| - |suffix|..] == suffix
  }

  predicate Contains(s: string, part: string) {
    part <= s || (s != "" && Contains(s[1..], part))
  }

  lemma {:induction false} ContainsAt(s: string, part: string, i: nat)
    requires i + |part| <= |s| && s[i..i + |part|] == part
    ensures Contains(s, part)
  {
    if i > 0 {
      assert s[1..][i - 1..i - 1 + |part|] == part;
      ContainsAt(s[1..], part, i - 1);
    }
  }

  lemma {:induction false} ContainsIff(s: string, part: string)
    ensures Contains(s, part) <==> exists a, b :: s == a + part + b
  {
    if Contains(s, part) {
      if part <= s {
        assert s == "" + part + s[|part|..];
      } else {
        ContainsIff(s[1..], part);
        var a, b :| s[1..] == a + part + b;
        assert s == ([s[0]] + a) + part + b;
      }
    }
    if a, b :| s == a + part + b {
      assert s[|a|..|a| + |part|] == part;
      ContainsAt(s, part, |a|);
    }
  }

  lemma SuffixIff(s: string, suffix: string)
    ensures HasSuffix(s, suffix) <==> exists a :: s == a + suffix
    ensures HasPrefix(s, suffix) <==> exists b :: s == suffix + b
  {
    if HasSuffix(s, suffix) {
      assert s == s[..|s| - |suffix|] + suffix;
    }
    if HasPrefix(s, suffix) {
      assert s == suffix + s[|suffix|..];
    }
  }

  // The index of the first occurrence of c, or |s|.
  function IndexOf(s: string, c: char): (i: nat)
    ensures i <= |s|
    ensures c !in s[..i]
    ensures i < |s| ==> s[i] == c
  {
    if s == "" || s[0] == c then 0 else 1 + IndexOf(s[1..], c)
  }

  // The order of sort.Strings.
  predicate Leq(a: string, b: string) {
    if a == "" then true
    else if b == "" then false
    else if a[0] == b[0] then Leq(a[1..], b[1..])
    else a[0] < b[0]
  }

  ghost predicate FirstDifference(a: string, b: string, i: nat) {
    i < |a| && i < |b| && a[..i] == b[..i] && a[i] < b[i]
  }

  lemma DifferenceBehind(a: string, b: string, i: nat)
    requires a != "" && b != "" && a[0] == b[0] && i > 0
    ensures FirstDifference(a, b, i) <==> FirstDifference(a[1..], b[1..], i - 1)
  {
    if i < |a| && i < |b| {
      assert a[..i][1..] == a[1..][..i - 1] && b[..i][1..] == b[1..][..i - 1];
      assert a[..i] == [a[0]] + a[..i][1..] && b[..i] == [b[0]] + b[..i][1..];
    }
  }

  // The first difference decides, and a prefix comes first.
  lemma {:induction false} LeqIff(a: string, b: string)
    ensures Leq(a, b) <==> a <= b || exists i: nat :: FirstDifference(a, b, i)
  {
    if a != "" && b != "" && a[0] == b[0] {
      LeqIff(a[1..], b[1..]);
      assert a <= b <==> a[1..] <= b[1..];
      if i: nat :| FirstDifference(a, b, i) {
        DifferenceBehind(a, b, i);
      }
      if i: nat :| FirstDifference(a[1..], b[1..], i) {
        DifferenceBehind(a, b, i + 1);
      }
    } else if a != "" && b != "" {
      assert a[..0] == b[..0];
      assert a[0] < b[0] <==> FirstDifference(a, b, 0);
    }
  }

  lemma {:induction false} LeqTotal(a: string, b: string)
    ensures Leq(a, b) || Leq(b, a)
    ensures Leq(a, b) && Leq(b, a) ==> a == b
  {
    if a != "" && b != "" && a[0] == b[0] {
      LeqTotal(a[1..], b[1..]);
      assert a == [a[0]] + a[1..] && b == [b[0]] + b[1..];
    }
  }

  lemma {:induction false} LeqTransitive(a: string, b: string, c: string)
    requires Leq(a, b) && Leq(b, c)
    ensures Leq(a, c)
  {
    if a != "" && c != "" && a[0] == b[0] == c[0] {
      LeqTransitive(a[1..], b[1..], c[1..]);
    }
  }
}
