/** Bracket checking of the docs site: a depth counter recognises the grammar
    S -> empty | other S | open S close S. */
module BalancedPairs {

  // A derivation of the grammar.
  datatype Tree = Empty | Other(c: char, rest: Tree) | Pair(inner: Tree, rest: Tree)

  function Yield(t: Tree, open: char, close: char): string {
    match t
    case Empty => ""
    case Other(c, rest) => [c] + Yield(rest, open, close)
    case Pair(inner, rest) => [open] + Yield(inner, open, close) + [close] + Yield(rest, open, close)
  }

  // No bracket is derived as an ordinary character.
  predicate Plain(t: Tree, open: char, close: char) {
    match t
    case Empty => true
    case Other(c, rest) => c != open && c != close && Plain(rest, open, close)
    case Pair(inner, rest) => Plain(inner, open, close) && Plain(rest, open, close)
  }

  ghost predicate Derives(text: string, open: char, close: char) {
    exists t :: Plain(t, open, close) && Yield(t, open, close) == text
  }

  // What the counter does on the rest of the text from a given depth.
  predicate Accepts(text: string, open: char, close: char, depth: nat) {
    if text == "" then depth == 0
    else if text[0] == open then Accepts(text[1..], open, close, depth + 1)
    else if text[0] == close then depth > 0 && Accepts(text[1..], open, close, depth - 1)
    else Accepts(text[1..], open, close, depth)
  }

  // A derived text leaves the counter where it was.
  lemma {:induction false} YieldIsNeutral(t: Tree, open: char, close: char, after: string, depth: nat)
    requires open != close && Plain(t, open, close)
    ensures Accepts(Yield(t, open, close) + after, open, close, depth) <==> Accepts(after, open, close, depth)
  {
    var text := Yield(t, open, close) + after;
    match t
    case Empty =>
      assert text == after;
    case Other(c, rest) =>
      assert text == [c] + (Yield(rest, open, close) + after);
      YieldIsNeutral(rest, open, close, after, depth);
    case Pair(inner, rest) =>
      var tail := Yield(rest, open, close) + after;
      assert text == [open] + (Yield(inner, open, close) + ([close] + tail));
      YieldIsNeutral(inner, open, close, [close] + tail, depth + 1);
      assert ([close] + tail)[1..] == tail;
      YieldIsNeutral(rest, open, close, after, depth);
  }

  // The text that closes the pending pairs one by one.
  function Joined(trees: seq<Tree>, open: char, close: char): string
    requires trees != []
  {
    if |trees| == 1 then Yield(trees[0], open, close)
    else Yield(trees[0], open, close) + [close] + Joined(trees[1..], open, close)
  }

  ghost predicate Parsed(trees: seq<Tree>, text: string, open: char, close: char, depth: nat) {
    && |trees| == depth + 1
    && (forall i :: 0 <= i < |trees| ==> Plain(trees[i], open, close))
    && Joined(trees, open, close) == text
  }

  // An accepted text at some depth is that many derived texts, each ending in a close, and one more.
  lemma {:induction false} AcceptedIsParsed(text: string, open: char, close: char, depth: nat)
    returns (trees: seq<Tree>)
    requires open != close && Accepts(text, open, close, depth)
    ensures Parsed(trees, text, open, close, depth)
  {
    if text == "" {
      trees := [Empty];
    } else {
      var c, tail := text[0], text[1..];
      assert text == [c] + tail;
      if c == open {
        var ts := AcceptedIsParsed(tail, open, close, depth + 1);
        trees := [Pair(ts[0], ts[1])] + ts[2..];
        OpenedPair(ts, open, close);
      } else if c == close {
        var ts := AcceptedIsParsed(tail, open, close, depth - 1);
        trees := [Empty] + ts;
        assert trees[1..] == ts;
      } else {
        var ts := AcceptedIsParsed(tail, open, close, depth);
        trees := [Other(c, ts[0])] + ts[1..];
        assert trees[1..] == ts[1..];
      }
    }
  }

  lemma OpenedPair(ts: seq<Tree>, open: char, close: char)
    requires |ts| >= 2
    ensures Joined([Pair(ts[0], ts[1])] + ts[2..], open, close) == [open] + Joined(ts, open, close)
  {
    var trees := [Pair(ts[0], ts[1])] + ts[2..];
    assert ts[1..][1..] == ts[2..] && trees[1..] == ts[2..];
    assert ts[1..][0] == ts[1];
  }

  // The counter accepts exactly the language of the grammar.
  lemma AcceptsIffDerives(text: string, open: char, close: char)
    requires open != close
    ensures Accepts(text, open, close, 0) <==> Derives(text, open, close)
  {
    if Accepts(text, open, close, 0) {
      var trees := AcceptedIsParsed(text, open, close, 0);
      assert Yield(trees[0], open, close) == text;
    }
    if Derives(text, open, close) {
      var t :| Plain(t, open, close) && Yield(t, open, close) == text;
      YieldIsNeutral(t, open, close, "", 0);
      assert text + "" == text;
    }
  }

  method HasBalancedPairs(text: string, openChar: char, closeChar: char) returns (balanced: bool)
    ensures openChar != closeChar ==> (balanced <==> Derives(text, openChar, closeChar))
    ensures openChar == closeChar ==> (balanced <==> openChar !in text)
  {
    if openChar != closeChar {
      AcceptsIffDerives(text, openChar, closeChar);
    }
    var depth: int := 0;
    for i := 0 to |text|
      invariant depth >= 0
      invariant Accepts(text, openChar, closeChar, 0) <==> Accepts(text[i..], openChar, closeChar, depth)
      invariant openChar == closeChar ==> (depth == 0 <==> openChar !in text[..i])
    {
      assert text[i..][1..] == text[i + 1..];
      assert text[..i + 1] == text[..i] + [text[i]];
      if text[i] == openChar {
        depth := depth + 1;
      } else if text[i] == closeChar {
        depth := depth - 1;
        if depth < 0 {
          return false;
        }
      }
    }
    assert text[..|text|] == text;
    balanced := depth == 0;
  }

  lemma Unfold(t: Tree, after: string, open: char, close: char)
    ensures var text := Yield(t, open, close) + after;
            match t
            case Empty => text == after
            case Other(c, rest) => text != "" && text[0] == c && text[1..] == Yield(rest, open, close) + after
            case Pair(inner, rest) =>
              && text != "" && text[0] == open
              && text[1..] == Yield(inner, open, close) + ([close] + (Yield(rest, open, close) + after))
  {
    match t
    case Empty =>
    case Other(c, rest) =>
      Shift([c], Yield(rest, open, close), after);
    case Pair(inner, rest) =>
      Regroup(open, Yield(inner, open, close), close, Yield(rest, open, close), after);
  }

  lemma Shift(head: string, middle: string, after: string)
    requires |head| == 1
    ensures (head + middle + after)[1..] == middle + after
  {
  }

  lemma Regroup(open: char, inner: string, close: char, rest: string, after: string)
    ensures ([open] + inner + [close] + rest + after)[1..] == inner + ([close] + (rest + after))
  {
    assert [open] + inner + [close] + rest + after == [open] + (inner + ([close] + (rest + after)));
  }

  // The grammar is unambiguous: a balanced text has one derivation.
  lemma {:induction false} DerivationIsUnique(t: Tree, u: Tree, a: string, b: string, open: char, close: char)
    requires open != close && Plain(t, open, close) && Plain(u, open, close)
    requires Yield(t, open, close) + a == Yield(u, open, close) + b
    requires (a == "" || a[0] == close) && (b == "" || b[0] == close)
    ensures t == u && a == b
  {
    hide Yield;
    Unfold(t, a, open, close);
    Unfold(u, b, open, close);
    if t.Other? && u.Other? {
      DerivationIsUnique(t.rest, u.rest, a, b, open, close);
    } else if t.Pair? && u.Pair? {
      var ta, ub := Yield(t.rest, open, close) + a, Yield(u.rest, open, close) + b;
      DerivationIsUnique(t.inner, u.inner, [close] + ta, [close] + ub, open, close);
      assert ([close] + ta)[1..] == ta && ([close] + ub)[1..] == ub;
      DerivationIsUnique(t.rest, u.rest, a, b, open, close);
    }
  }
}
