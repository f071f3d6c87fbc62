/** Reordering a command line so that a flag parser that stops at the first non-flag sees
    every flag.  Two parsers give the meaning: StopParse is Go's flag package, Interspersed is
    what the user meant. */
module FlagReorder {
  import opened Sequences
  import opened Strings

  predicate IsFlagToken(argument: string) { |argument| > 1 && HasPrefix(argument, "-") }

  // strings.TrimLeft(s, "-")
  function TrimDashes(s: string): string {
    if s != "" && s[0] == '-' then TrimDashes(s[1..]) else s
  }

  predicate FlagRequiresValue(argument: string, valueFlags: map<string, bool>) {
    if |valueFlags| == 0 then false
    else if argument in valueFlags then valueFlags[argument]
    else
      var name := TrimDashes(argument);
      name in valueFlags && valueFlags[name]
  }

  // A flag needs a value when the map says so of its full text, or, where the map is silent on
  // that, of the text without its dashes.
  lemma FlagRequiresValueIff(argument: string, valueFlags: map<string, bool>, dashes: string, name: string)
    requires argument == dashes + name && (forall i :: 0 <= i < |dashes| ==> dashes[i] == '-')
    requires name == "" || name[0] != '-'
    ensures FlagRequiresValue(argument, valueFlags) <==>
              || (argument in valueFlags && valueFlags[argument])
              || (argument !in valueFlags && name in valueFlags && valueFlags[name])
  {
    TrimDashesIs(dashes, name);
    if |valueFlags| == 0 {
      assert valueFlags == map[];
    }
  }

  lemma {:induction false} TrimDashesIs(dashes: string, name: string)
    requires (forall i :: 0 <= i < |dashes| ==> dashes[i] == '-') && (name == "" || name[0] != '-')
    ensures TrimDashes(dashes + name) == name
  {
    if dashes == "" {
      assert dashes + name == name;
    } else {
      assert (dashes + name)[1..] == dashes[1..] + name;
      TrimDashesIs(dashes[1..], name);
    }
  }

  // The flag at the head of the arguments takes its value from the next argument.
  predicate TakesNext(argument: string, valueFlags: map<string, bool>) {
    '=' !in argument && FlagRequiresValue(argument, valueFlags)
  }

  // How many arguments the flag at the head covers.
  function Width(arguments: seq<string>, valueFlags: map<string, bool>): (n: nat)
    requires arguments != []
    ensures 1 <= n <= |arguments|
  {
    if TakesNext(arguments[0], valueFlags) && |arguments| > 1 then 2 else 1
  }

  function Flags(arguments: seq<string>, valueFlags: map<string, bool>): seq<string> {
    if arguments == [] || arguments[0] == "--" then []
    else if !IsFlagToken(arguments[0]) then Flags(arguments[1..], valueFlags)
    else
      var n := Width(arguments, valueFlags);
      arguments[..n] + Flags(arguments[n..], valueFlags)
  }

  function Positionals(arguments: seq<string>, valueFlags: map<string, bool>): seq<string> {
    if arguments == [] then []
    else if arguments[0] == "--" then arguments[1..]
    else if !IsFlagToken(arguments[0]) then [arguments[0]] + Positionals(arguments[1..], valueFlags)
    else Positionals(arguments[Width(arguments, valueFlags)..], valueFlags)
  }

  function Reordered(arguments: seq<string>, valueFlags: map<string, bool>): seq<string> {
    Flags(arguments, valueFlags) + Positionals(arguments, valueFlags)
  }

  // One round of the loop below.
  lemma Peel(arguments: seq<string>, index: nat, vf: map<string, bool>)
    requires index < |arguments|
    ensures var rest, argument := arguments[index..], arguments[index];
            if argument == "--" then
              Flags(rest, vf) == [] && Positionals(rest, vf) == arguments[index + 1..]
            else if !IsFlagToken(argument) then
              && Flags(rest, vf) == Flags(arguments[index + 1..], vf)
              && Positionals(rest, vf) == [argument] + Positionals(arguments[index + 1..], vf)
            else
              var n := Width(rest, vf);
              && Flags(rest, vf) == arguments[index..index + n] + Flags(arguments[index + n..], vf)
              && Positionals(rest, vf) == Positionals(arguments[index + n..], vf)
  {
    hide IsFlagToken, TakesNext;
    var rest := arguments[index..];
    var n := Width(rest, vf);
    assert rest[1..] == arguments[index + 1..];
    assert rest[n..] == arguments[index + n..];
    assert rest[..n] == arguments[index..index + n];
  }

  method ReorderInterspersedFlags(arguments: seq<string>, valueFlags: map<string, bool>)
    returns (reordered: seq<string>)
    ensures reordered == Reordered(arguments, valueFlags)
  {
    hide Flags, Positionals, IsFlagToken, FlagRequiresValue, Reordered;
    if |arguments| == 0 {
      EmptyReordered(valueFlags);
      return arguments;
    }
    var flags, positionals: seq<string> := [], [];
    var index := 0;
    assert arguments[0..] == arguments;
    while index < |arguments|
      invariant 0 <= index <= |arguments|
      invariant Ahead(arguments, index, flags, positionals, valueFlags)
    {
      var argument := arguments[index];
      AheadStep(arguments, index, flags, positionals, valueFlags);
      if argument == "--" {
        return flags + (positionals + arguments[index + 1..]);
      }
      if !IsFlagToken(argument) {
        positionals := positionals + [argument];
        index := index + 1;
        continue;
      }
      flags := flags + [argument];
      if '=' in argument {
        index := index + 1;
        continue;
      }
      if !FlagRequiresValue(argument, valueFlags) {
        index := index + 1;
        continue;
      }
      if index + 1 >= |arguments| {
        index := index + 1;
        continue;
      }
      index := index + 1;
      flags := flags + [arguments[index]];
      index := index + 1;
    }
    AheadDone(arguments, flags, positionals, valueFlags);
    reordered := flags + positionals;
  }

  // What has been collected, with what the rest of the arguments still gives, is the result.
  ghost predicate Ahead(arguments: seq<string>, index: int, flags: seq<string>, positionals: seq<string>,
                        vf: map<string, bool>)
    requires 0 <= index <= |arguments|
  {
    && Flags(arguments, vf) == flags + Flags(arguments[index..], vf)
    && Positionals(arguments, vf) == positionals + Positionals(arguments[index..], vf)
  }

  lemma AheadStep(arguments: seq<string>, index: nat, flags: seq<string>, positionals: seq<string>,
                  vf: map<string, bool>)
    requires index < |arguments| && Ahead(arguments, index, flags, positionals, vf)
    ensures var argument := arguments[index];
            if argument == "--" then
              Reordered(arguments, vf) == flags + (positionals + arguments[index + 1..])
            else if !IsFlagToken(argument) then
              Ahead(arguments, index + 1, flags, positionals + [argument], vf)
            else if TakesNext(argument, vf) && index + 1 < |arguments| then
              Ahead(arguments, index + 2, flags + [argument] + [arguments[index + 1]], positionals, vf)
            else
              Ahead(arguments, index + 1, flags + [argument], positionals, vf)
  {
    hide Flags, Positionals, IsFlagToken, TakesNext;
    Peel(arguments, index, vf);
    assert arguments[index..][0] == arguments[index];
    assert arguments[index..index + 1] == [arguments[index]];
    if index + 1 < |arguments| {
      assert arguments[index..index + 2] == [arguments[index]] + [arguments[index + 1]];
    }
  }

  lemma AheadDone(arguments: seq<string>, flags: seq<string>, positionals: seq<string>, vf: map<string, bool>)
    requires Ahead(arguments, |arguments|, flags, positionals, vf)
    ensures Reordered(arguments, vf) == flags + positionals
  {
    assert arguments[|arguments|..] == [];
  }

  lemma EmptyReordered(vf: map<string, bool>)
    ensures Reordered([], vf) == []
  {
  }

  // ----- the result is a rearrangement -----

  datatype Role = FlagPart | Positional | Terminator

  // What becomes of each argument.
  function Roles(arguments: seq<string>, valueFlags: map<string, bool>): (roles: seq<Role>)
    ensures |roles| == |arguments|
  {
    if arguments == [] then []
    else if arguments[0] == "--" then [Terminator] + seq(|arguments| - 1, _ => Positional)
    else if !IsFlagToken(arguments[0]) then [Positional] + Roles(arguments[1..], valueFlags)
    else
      var n := Width(arguments, valueFlags);
      seq(n, _ => FlagPart) + Roles(arguments[n..], valueFlags)
  }

  predicate ReachesTerminator(arguments: seq<string>, valueFlags: map<string, bool>) {
    Terminator in Roles(arguments, valueFlags)
  }

  // The arguments that play the given role, in their original order.
  function Select(arguments: seq<string>, roles: seq<Role>, role: Role): seq<string>
    requires |arguments| == |roles|
  {
    if arguments == [] then []
    else (if roles[0] == role then [arguments[0]] else []) + Select(arguments[1..], roles[1..], role)
  }

  lemma {:induction false} SelectConcat(a: seq<string>, r: seq<Role>, b: seq<string>, t: seq<Role>, role: Role)
    requires |a| == |r| && |b| == |t|
    ensures Select(a + b, r + t, role) == Select(a, r, role) + Select(b, t, role)
  {
    if a == [] {
      assert a + b == b && r + t == t;
    } else {
      assert (a + b)[1..] == a[1..] + b && (r + t)[1..] == r[1..] + t;
      SelectConcat(a[1..], r[1..], b, t, role);
      var head := if r[0] == role then [a[0]] else [];
      Regrouped(head, Select(a[1..], r[1..], role), Select(b, t, role));
    }
  }

  lemma Regrouped(a: seq<string>, b: seq<string>, c: seq<string>)
    ensures a + (b + c) == a + b + c
  {
  }

  lemma {:induction false} SelectUniform(a: seq<string>, r: Role, role: Role)
    ensures Select(a, seq(|a|, _ => r), role) == if r == role then a else []
  {
    if a != [] {
      SelectUniform(a[1..], r, role);
      assert seq(|a|, _ => r)[1..] == seq(|a[1..]|, _ => r);
    }
  }

  function HeadRole(argument: string): Role {
    if argument == "--" then Terminator else if IsFlagToken(argument) then FlagPart else Positional
  }

  function HeadWidth(arguments: seq<string>, vf: map<string, bool>): (n: nat)
    requires arguments != []
    ensures 1 <= n <= |arguments|
  {
    if HeadRole(arguments[0]) == FlagPart then Width(arguments, vf) else 1
  }

  // What one round of the loop selects; after a terminator all are positionals.
  lemma SelectRound(arguments: seq<string>, vf: map<string, bool>, role: Role)
    requires arguments != []
    ensures var n := HeadWidth(arguments, vf);
            Select(arguments, Roles(arguments, vf), role) ==
            (if HeadRole(arguments[0]) == role then arguments[..n] else [])
            + if arguments[0] != "--" then Select(arguments[n..], Roles(arguments[n..], vf), role)
              else if role == Positional then arguments[1..] else []
  {
    hide Select, Width, IsFlagToken;
    var n, head := HeadWidth(arguments, vf), HeadRole(arguments[0]);
    var rest := arguments[n..];
    var tail := if arguments[0] == "--" then seq(|arguments| - 1, _ => Positional) else Roles(rest, vf);
    assert arguments == arguments[..n] + rest;
    assert Roles(arguments, vf) == seq(n, _ => head) + tail;
    hide Roles;
    SelectConcat(arguments[..n], seq(n, _ => head), rest, tail, role);
    SelectUniform(arguments[..n], head, role);
    if arguments[0] == "--" {
      SelectUniform(rest, Positional, role);
    }
  }

  lemma SelectNothing(roles: seq<Role>, role: Role)
    requires roles == []
    ensures Select([], roles, role) == []
  {
  }

  // What one round of the loop collects.
  lemma PartsRound(arguments: seq<string>, vf: map<string, bool>)
    requires arguments != []
    ensures var n, head := HeadWidth(arguments, vf), HeadRole(arguments[0]);
            if arguments[0] == "--" then Flags(arguments, vf) == [] && Positionals(arguments, vf) == arguments[1..]
            else
              && Flags(arguments, vf) == (if head == FlagPart then arguments[..n] else []) + Flags(arguments[n..], vf)
              && Positionals(arguments, vf) ==
                 (if head == Positional then arguments[..n] else []) + Positionals(arguments[n..], vf)
  {
    hide Width, IsFlagToken;
    var rest := arguments[HeadWidth(arguments, vf)..];
    assert [] + Flags(rest, vf) == Flags(rest, vf) && [] + Positionals(rest, vf) == Positionals(rest, vf);
  }

  lemma Dashes()
    ensures HeadRole("--") == Terminator
  {
  }

  lemma NoParts(vf: map<string, bool>)
    ensures Flags([], vf) == [] && Positionals([], vf) == []
  {
  }

  // Flags and positionals each keep their original order.
  lemma {:induction false} OrderIsKept(arguments: seq<string>, vf: map<string, bool>)
    ensures Select(arguments, Roles(arguments, vf), FlagPart) == Flags(arguments, vf)
    ensures Select(arguments, Roles(arguments, vf), Positional) == Positionals(arguments, vf)
  {
    hide Select, HeadWidth, HeadRole, Flags, Positionals;
    if arguments == [] {
      NoParts(vf);
      SelectNothing(Roles(arguments, vf), FlagPart);
      SelectNothing(Roles(arguments, vf), Positional);
    } else {
      hide Roles;
      PartsRound(arguments, vf);
      Dashes();
      SelectRound(arguments, vf, FlagPart);
      SelectRound(arguments, vf, Positional);
      if arguments[0] != "--" {
        OrderIsKept(arguments[HeadWidth(arguments, vf)..], vf);
      }
    }
  }

  lemma SelectStep(arguments: seq<string>, roles: seq<Role>, role: Role, x: string)
    requires |arguments| == |roles| > 0
    ensures multiset(Select(arguments, roles, role))[x] ==
            multiset(Select(arguments[1..], roles[1..], role))[x]
            + (if roles[0] == role && arguments[0] == x then 1 else 0)
  {
    var rest := Select(arguments[1..], roles[1..], role);
    if roles[0] == role {
      CountCons(x, arguments[0], rest);
    } else {
      assert [] + rest == rest;
    }
  }

  lemma {:induction false} SelectCounts(arguments: seq<string>, roles: seq<Role>, x: string)
    requires |arguments| == |roles|
    ensures multiset(arguments)[x] ==
            multiset(Select(arguments, roles, FlagPart))[x] + multiset(Select(arguments, roles, Positional))[x]
            + multiset(Select(arguments, roles, Terminator))[x]
  {
    if arguments != [] {
      assert arguments == [arguments[0]] + arguments[1..];
      CountCons(x, arguments[0], arguments[1..]);
      SelectStep(arguments, roles, FlagPart, x);
      SelectStep(arguments, roles, Positional, x);
      SelectStep(arguments, roles, Terminator, x);
      hide Select;
      SelectCounts(arguments[1..], roles[1..], x);
    }
  }

  lemma {:induction false} OneTerminator(arguments: seq<string>, vf: map<string, bool>)
    ensures Select(arguments, Roles(arguments, vf), Terminator) ==
            if ReachesTerminator(arguments, vf) then ["--"] else []
  {
    hide Select, Width, IsFlagToken;
    if arguments == [] {
      SelectNothing(Roles(arguments, vf), Terminator);
    } else {
      TerminatorIsLater(arguments, vf, HeadWidth(arguments, vf));
      hide Roles, ReachesTerminator;
      SelectRound(arguments, vf, Terminator);
      if arguments[0] == "--" {
        assert arguments[..1] == ["--"];
      } else {
        OneTerminator(arguments[HeadWidth(arguments, vf)..], vf);
      }
    }
  }

  // No argument is lost but the "--" that was reached.
  lemma OnlyDashesAreDropped(arguments: seq<string>, vf: map<string, bool>)
    ensures multiset(arguments) ==
            multiset(Flags(arguments, vf)) + multiset(Positionals(arguments, vf))
            + (if ReachesTerminator(arguments, vf) then multiset{"--"} else multiset{})
  {
    OrderIsKept(arguments, vf);
    OneTerminator(arguments, vf);
    forall x
      ensures multiset(arguments)[x] ==
              multiset(Flags(arguments, vf))[x] + multiset(Positionals(arguments, vf))[x]
              + (if ReachesTerminator(arguments, vf) then multiset{"--"} else multiset{})[x]
    {
      SelectCounts(arguments, Roles(arguments, vf), x);
    }
  }

  lemma TerminatorIsLater(arguments: seq<string>, vf: map<string, bool>, n: nat)
    requires arguments != [] && n == HeadWidth(arguments, vf)
    ensures ReachesTerminator(arguments, vf) <==> arguments[0] == "--" || ReachesTerminator(arguments[n..], vf)
  {
    hide Width, IsFlagToken;
    assert arguments[0] == "--" ==> Roles(arguments, vf)[0] == Terminator;
    var role := HeadRole(arguments[0]);
    assert arguments[0] != "--" ==> Roles(arguments, vf) == seq(n, _ => role) + Roles(arguments[n..], vf);
  }

  // Without a "--" there is nothing left to reorder.
  lemma {:induction false} ReorderIsIdempotent(arguments: seq<string>, vf: map<string, bool>)
    requires !ReachesTerminator(arguments, vf)
    ensures Reordered(Reordered(arguments, vf), vf) == Reordered(arguments, vf)
  {
    PlainPositionals(arguments, vf);
    FlagsStayInFront(arguments, vf, Positionals(arguments, vf));
  }

  predicate NoFlags(arguments: seq<string>) {
    forall i :: 0 <= i < |arguments| ==> !IsFlagToken(arguments[i])
  }

  lemma {:induction false} PlainPositionals(arguments: seq<string>, vf: map<string, bool>)
    requires !ReachesTerminator(arguments, vf)
    ensures NoFlags(Positionals(arguments, vf))
  {
    if arguments != [] {
      assert Roles(arguments, vf)[0] != Terminator;
      var n := if IsFlagToken(arguments[0]) then Width(arguments, vf) else 1;
      assert Roles(arguments, vf)[n..] == Roles(arguments[n..], vf);
      PlainPositionals(arguments[n..], vf);
    }
  }

  lemma {:induction false} NoFlagsMeansPositionals(arguments: seq<string>, vf: map<string, bool>)
    requires NoFlags(arguments)
    ensures Flags(arguments, vf) == [] && Positionals(arguments, vf) == arguments
  {
    if arguments != [] {
      assert IsFlagToken("--");
      NoFlagsMeansPositionals(arguments[1..], vf);
    }
  }

  lemma NoFlagsStay(arguments: seq<string>, vf: map<string, bool>)
    requires NoFlags(arguments)
    ensures Reordered(arguments, vf) == arguments
  {
    hide Flags, Positionals;
    NoFlagsMeansPositionals(arguments, vf);
    assert [] + arguments == arguments;
  }

  lemma FlagFirst(head: seq<string>, behind: seq<string>, vf: map<string, bool>)
    requires head != [] && head[0] != "--" && IsFlagToken(head[0]) && Width(head + behind, vf) == |head|
    ensures Reordered(head + behind, vf) == head + Reordered(behind, vf)
  {
    var line := head + behind;
    assert line[..|head|] == head && line[|head|..] == behind && line[0] == head[0];
    Regrouped(head, Flags(behind, vf), Positionals(behind, vf));
  }

  // A flag moves to the front, with the next argument when it needs a value and carries none.
  lemma FlagMoves(flag: string, rest: seq<string>, vf: map<string, bool>)
    requires |flag| >= 2 && flag[0] == '-' && flag != "--"
    ensures '=' in flag || !FlagRequiresValue(flag, vf) ==>
              Reordered([flag] + rest, vf) == [flag] + Reordered(rest, vf)
    ensures '=' !in flag && FlagRequiresValue(flag, vf) && rest != [] ==>
              Reordered([flag] + rest, vf) == [flag, rest[0]] + Reordered(rest[1..], vf)
  {
    hide Flags, Positionals, Reordered, FlagRequiresValue;
    if TakesNext(flag, vf) && rest != [] {
      assert [flag] + rest == [flag, rest[0]] + rest[1..];
      FlagFirst([flag, rest[0]], rest[1..], vf);
    } else {
      FlagFirst([flag], rest, vf);
    }
  }

  // Anything else, a lone dash too, stays behind the flags; what follows "--" is left as it is.
  lemma PositionalStays(argument: string, rest: seq<string>, vf: map<string, bool>)
    requires |argument| < 2 || argument[0] != '-'
    ensures Reordered([argument] + rest, vf) == Flags(rest, vf) + [argument] + Positionals(rest, vf)
    ensures Reordered(["--"] + rest, vf) == rest
  {
    var flags, positionals := Flags(rest, vf), Positionals(rest, vf);
    assert ([argument] + rest)[1..] == rest && (["--"] + rest)[1..] == rest;
    assert flags + ([argument] + positionals) == flags + [argument] + positionals;
    assert [] + rest == rest;
  }

  // The flag lacked its value and now takes the first positional.
  lemma LateValueStays(flag: string, tail: seq<string>, vf: map<string, bool>)
    requires flag != "--" && IsFlagToken(flag) && NoFlags(tail) && Width([flag] + tail, vf) == 2
    ensures Reordered([flag] + tail, vf) == [flag] + tail
  {
    hide Flags, Positionals, Reordered, IsFlagToken, Width;
    assert [flag] + tail == [flag, tail[0]] + tail[1..];
    FlagFirst([flag, tail[0]], tail[1..], vf);
    NoFlagsStay(tail[1..], vf);
  }

  lemma FlagsStep(arguments: seq<string>, vf: map<string, bool>)
    ensures arguments == [] || arguments[0] == "--" ==> Flags(arguments, vf) == []
    ensures arguments != [] && arguments[0] != "--" ==>
              Flags(arguments, vf) ==
              if IsFlagToken(arguments[0])
              then arguments[..Width(arguments, vf)] + Flags(arguments[Width(arguments, vf)..], vf)
              else Flags(arguments[1..], vf)
  {
    hide Width, IsFlagToken;
  }

  // What is put behind a flag changes what it covers only where its value was missing.
  lemma WidthInFront(arguments: seq<string>, line: seq<string>, vf: map<string, bool>)
    requires arguments != [] && arguments[0] != "--" && IsFlagToken(arguments[0])
    requires Width(arguments, vf) <= |line| && line != [] && line[0] == arguments[0]
    ensures Width(line, vf) == Width(arguments, vf)
            || (Width(arguments, vf) == |arguments| == 1 && Width(line, vf) == 2)
  {
    hide IsFlagToken;
  }

  // A second pass over flags followed by non-flags finds the flags where they are.
  lemma {:induction false} FlagsStayInFront(arguments: seq<string>, vf: map<string, bool>, tail: seq<string>)
    requires NoFlags(tail)
    ensures Reordered(Flags(arguments, vf) + tail, vf) == Flags(arguments, vf) + tail
  {
    hide Flags, Positionals, Reordered, IsFlagToken, NoFlags;
    FlagsStep(arguments, vf);
    if arguments == [] || arguments[0] == "--" {
      assert [] + tail == tail;
      NoFlagsStay(tail, vf);
    } else if !IsFlagToken(arguments[0]) {
      FlagsStayInFront(arguments[1..], vf, tail);
    } else {
      HeadStays(arguments, vf, tail);
      FlagsStayInFront(arguments[Width(arguments, vf)..], vf, tail);
    }
  }

  lemma HeadStays(arguments: seq<string>, vf: map<string, bool>, tail: seq<string>)
    requires NoFlags(tail) && arguments != [] && arguments[0] != "--" && IsFlagToken(arguments[0])
    ensures var line, behind := Flags(arguments, vf) + tail, Flags(arguments[Width(arguments, vf)..], vf) + tail;
            Reordered(behind, vf) == behind ==> Reordered(line, vf) == line
  {
    hide Flags, Positionals, Reordered, IsFlagToken, NoFlags;
    var n := Width(arguments, vf);
    var head, rest := arguments[..n], Flags(arguments[n..], vf);
    FlagsStep(arguments, vf);
    Regrouped(head, rest, tail);
    WidthInFront(arguments, head + (rest + tail), vf);
    hide Width;
    if Width(head + (rest + tail), vf) == n {
      FlagFirst(head, rest + tail, vf);
    } else {
      FlagsStep([], vf);
      assert arguments[n..] == [] && head + (rest + tail) == [arguments[0]] + tail;
      LateValueStays(arguments[0], tail, vf);
    }
  }
}
