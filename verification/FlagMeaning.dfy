/** Reordering preserves the meaning of a command line: the two parsers it sits between. */
module FlagMeaning {
  import opened Strings
  import opened FlagReorder

  // A switch needs no value; a valued flag takes the next argument.
  datatype FlagKind = Switch | Valued

  datatype FlagSet = FlagSet(kinds: map<string, FlagKind>, accepts: (string, string) -> bool)

  datatype ParseError =
    | BadSyntax(argument: string)
    | HelpRequested
    | Undefined(name: string)
    | MissingValue(name: string)
    | BadValue(name: string, value: string)

  datatype Stop = Rest(positionals: seq<string>) | Failure(error: ParseError)

  // The values set, in order, and how the parse ended.
  datatype Outcome = Outcome(bindings: seq<(string, string)>, stop: Stop)

  datatype FlagStep = Bind(name: string, value: string, width: nat) | Fail(error: ParseError)

  predicate FlagAhead(arguments: seq<string>) {
    arguments != [] && IsFlagToken(arguments[0]) && arguments[0] != "--"
  }

  function Name(argument: string): string
    requires IsFlagToken(argument)
  {
    if argument[1] == '-' then argument[2..] else argument[1..]
  }

  predicate WellFormed(argument: string)
    requires IsFlagToken(argument)
  {
    var name := Name(argument);
    name != "" && name[0] != '-' && name[0] != '='
  }

  // One flag of Go's flag package (FlagSet.parseOne).
  function ParseFlag(fs: FlagSet, arguments: seq<string>): (s: FlagStep)
    requires FlagAhead(arguments)
    ensures s.Bind? ==> 1 <= s.width <= |arguments| && s.width <= 2
  {
    var argument := arguments[0];
    if !WellFormed(argument) then Fail(BadSyntax(argument))
    else
      var text := Name(argument);
      var i := IndexOf(text, '=');
      var name := text[..i];
      if name !in fs.kinds then Fail(if name == "help" || name == "h" then HelpRequested else Undefined(name))
      else if i < |text| then Checked(fs, name, text[i + 1..], 1)
      else if fs.kinds[name].Switch? then Checked(fs, name, "true", 1)
      else if |arguments| == 1 then Fail(MissingValue(name))
      else Checked(fs, name, arguments[1], 2)
  }

  function Checked(fs: FlagSet, name: string, value: string, width: nat): FlagStep {
    if fs.accepts(name, value) then Bind(name, value, width) else Fail(BadValue(name, value))
  }

  function Bound(step: FlagStep, rest: Outcome): Outcome
    requires step.Bind?
  {
    Outcome([(step.name, step.value)] + rest.bindings, rest.stop)
  }

  // Go's flag package: stop at the first non-flag, or after "--".
  function StopParse(fs: FlagSet, arguments: seq<string>): Outcome {
    if arguments == [] || !IsFlagToken(arguments[0]) then Outcome([], Rest(arguments))
    else if arguments[0] == "--" then Outcome([], Rest(arguments[1..]))
    else
      var step := ParseFlag(fs, arguments);
      if step.Fail? then Outcome([], Failure(step.error))
      else Bound(step, StopParse(fs, arguments[step.width..]))
  }

  // What the user meant: flags anywhere before "--".
  function Interspersed(fs: FlagSet, arguments: seq<string>): Outcome {
    if arguments == [] then Outcome([], Rest([]))
    else if arguments[0] == "--" then Outcome([], Rest(arguments[1..]))
    else if !IsFlagToken(arguments[0]) then
      var rest := Interspersed(fs, arguments[1..]);
      if rest.stop.Failure? then rest
      else rest.(stop := Rest([arguments[0]] + rest.stop.positionals))
    else
      var step := ParseFlag(fs, arguments);
      if step.Fail? then Outcome([], Failure(step.error))
      else Bound(step, Interspersed(fs, arguments[step.width..]))
  }

  // The value-flag map lists exactly the valued flags, by bare name; flag names are names the
  // flag package admits.
  ghost predicate MapMatches(fs: FlagSet, vf: map<string, bool>) {
    && (forall n :: (n in vf && vf[n]) <==> (n in fs.kinds && fs.kinds[n].Valued?))
    && (forall n :: n in vf ==> !HasPrefix(n, "-"))
    && (forall n :: n in fs.kinds ==> !HasPrefix(n, "-") && '=' !in n)
  }

  // The last argument is a flag still waiting for its value.
  predicate LacksValue(arguments: seq<string>, vf: map<string, bool>) {
    if arguments == [] || arguments[0] == "--" then false
    else if !IsFlagToken(arguments[0]) then LacksValue(arguments[1..], vf)
    else if TakesNext(arguments[0], vf) && |arguments| == 1 then true
    else LacksValue(arguments[Width(arguments, vf)..], vf)
  }

  // What a caller can check: with positionals present, the first is no flag and no flag
  // waits for a value.
  predicate Safe(arguments: seq<string>, vf: map<string, bool>) {
    var positionals := Positionals(arguments, vf);
    positionals == [] || (!IsFlagToken(positionals[0]) && !LacksValue(arguments, vf))
  }

  // The flags are wrong whatever comes after them.
  predicate HasBadFlag(fs: FlagSet, arguments: seq<string>) {
    var stop := Interspersed(fs, arguments).stop;
    stop.Failure? && !stop.error.MissingValue?
  }

  predicate IsMissing(o: Outcome) { o.stop.Failure? && o.stop.error.MissingValue? }

  lemma NameIsTrimmed(argument: string)
    requires IsFlagToken(argument) && WellFormed(argument)
    ensures TrimDashes(argument) == Name(argument)
    ensures '=' in argument <==> '=' in Name(argument)
  {
    if argument[1] == '-' {
      assert argument == [argument[0], argument[1]] + Name(argument);
      assert argument[1..][1..] == argument[2..];
      assert TrimDashes(argument[2..]) == argument[2..];
    } else {
      assert argument == [argument[0]] + Name(argument);
      assert TrimDashes(argument[1..]) == argument[1..];
    }
  }

  // The reorderer and the parser agree on what a well-formed known flag covers.
  lemma WidthAgrees(fs: FlagSet, vf: map<string, bool>, arguments: seq<string>)
    requires MapMatches(fs, vf) && FlagAhead(arguments)
    ensures ParseFlag(fs, arguments).Bind? ==> ParseFlag(fs, arguments).width == Width(arguments, vf)
    ensures ParseFlag(fs, arguments).Fail? && ParseFlag(fs, arguments).error.MissingValue? ==>
              |arguments| == 1 && TakesNext(arguments[0], vf)
    ensures ParseFlag(fs, arguments).Bind? ==> !(TakesNext(arguments[0], vf) && |arguments| == 1)
  {
    var argument := arguments[0];
    if WellFormed(argument) {
      NameIsTrimmed(argument);
      var text := Name(argument);
      assert argument[0] == '-' && argument !in vf;
      assert IndexOf(text, '=') == |text| ==> text[..IndexOf(text, '=')] == text;
      assert IndexOf(text, '=') == |text| ==> '=' !in text;
      assert IndexOf(text, '=') < |text| ==> '=' in text;
      assert |vf| == 0 ==> vf == map[];
    }
  }

  // A parse of the flags followed by a parse of what comes after them.
  function Then(first: Outcome, second: Outcome): Outcome {
    if first.stop.Failure? then first else Outcome(first.bindings + second.bindings, second.stop)
  }

  // A flag parses alike in two lines that agree on it and on the value it takes.
  lemma SameStep(fs: FlagSet, vf: map<string, bool>, arguments: seq<string>, line: seq<string>)
    requires MapMatches(fs, vf) && FlagAhead(arguments) && line != [] && line[0] == arguments[0]
    requires Width(arguments, vf) == 2 ==> |line| > 1 && line[1] == arguments[1]
    requires ParseFlag(fs, arguments) != Fail(MissingValue(Name(arguments[0]))) || |line| == 1
    ensures ParseFlag(fs, line) == ParseFlag(fs, arguments)
  {
    WidthAgrees(fs, vf, arguments);
    WidthAgrees(fs, vf, line);
    var text := Name(arguments[0]);
    assert IndexOf(text, '=') == |text| ==> text[..IndexOf(text, '=')] == text;
    if WellFormed(arguments[0]) {
      NameIsTrimmed(arguments[0]);
      assert IndexOf(text, '=') == |text| <==> '=' !in text;
    }
  }

  // Parsing the collected flags and then any tail is parsing the original line's flags and
  // then the tail, unless the tail would be taken for a missing value.
  lemma {:induction false} FlagsThenTail(fs: FlagSet, vf: map<string, bool>, arguments: seq<string>, tail: seq<string>)
    requires MapMatches(fs, vf)
    requires IsMissing(Interspersed(fs, arguments)) ==> tail == []
    ensures StopParse(fs, Flags(arguments, vf) + tail) == Then(Interspersed(fs, arguments), StopParse(fs, tail))
    decreases |arguments|, 1
  {
    hide MapMatches, ParseFlag, StopParse;
    var flags := Flags(arguments, vf);
    if arguments == [] || arguments[0] == "--" {
      assert flags + tail == tail;
    } else if !IsFlagToken(arguments[0]) {
      FlagsThenTail(fs, vf, arguments[1..], tail);
    } else {
      FlagThenTail(fs, vf, arguments, tail);
    }
  }

  lemma StopStep(fs: FlagSet, line: seq<string>)
    requires FlagAhead(line)
    ensures var step := ParseFlag(fs, line);
            StopParse(fs, line) ==
            if step.Fail? then Outcome([], Failure(step.error))
            else Bound(step, StopParse(fs, line[step.width..]))
  {
    hide ParseFlag;
  }

  lemma InterspersedStep(fs: FlagSet, line: seq<string>)
    requires FlagAhead(line)
    ensures var step := ParseFlag(fs, line);
            Interspersed(fs, line) ==
            if step.Fail? then Outcome([], Failure(step.error))
            else Bound(step, Interspersed(fs, line[step.width..]))
  {
    hide ParseFlag;
  }

  // The reordered line begins with the flag at the head of the original and what it covers.
  lemma HeadOfLine(vf: map<string, bool>, arguments: seq<string>, tail: seq<string>)
    requires FlagAhead(arguments)
    ensures var n, line := Width(arguments, vf), Flags(arguments, vf) + tail;
            && |line| >= n
            && line[0] == arguments[0]
            && (n == 2 ==> line[1] == arguments[1])
            && line[n..] == Flags(arguments[n..], vf) + tail
            && (|arguments| == 1 ==> |line| == 1 + |tail|)
  {
    hide Width, IsFlagToken;
    NoParts(vf);
    var n := Width(arguments, vf);
    assert Flags(arguments, vf) + tail == arguments[..n] + (Flags(arguments[n..], vf) + tail);
  }

  lemma BoundThen(step: FlagStep, rest: Outcome, last: Outcome)
    requires step.Bind?
    ensures Then(Bound(step, rest), last) == Bound(step, Then(rest, last))
    ensures IsMissing(Bound(step, rest)) == IsMissing(rest)
  {
  }

  lemma FlagThenTail(fs: FlagSet, vf: map<string, bool>, arguments: seq<string>, tail: seq<string>)
    requires MapMatches(fs, vf) && FlagAhead(arguments)
    requires IsMissing(Interspersed(fs, arguments)) ==> tail == []
    ensures StopParse(fs, Flags(arguments, vf) + tail) == Then(Interspersed(fs, arguments), StopParse(fs, tail))
    decreases |arguments|, 0
  {
    hide MapMatches, ParseFlag, Width, StopParse, Interspersed, Flags, IsFlagToken, TakesNext;
    var n := Width(arguments, vf);
    var line := Flags(arguments, vf) + tail;
    HeadOfLine(vf, arguments, tail);
    WidthAgrees(fs, vf, arguments);
    StopStep(fs, line);
    InterspersedStep(fs, arguments);
    var step := ParseFlag(fs, arguments);
    if step.Fail? && step.error.MissingValue? {
      assert arguments[1..] == [];
      assert |line| == 1;
    }
    SameStep(fs, vf, arguments, line);
    if step.Bind? {
      BoundThen(step, Interspersed(fs, arguments[n..]), StopParse(fs, tail));
      hide Bound, Then, IsMissing, FlagAhead, Name;
      FlagsThenTail(fs, vf, arguments[n..], tail);
    }
  }

  // The collected positionals are the meant ones, and a value is missing only at the end.
  lemma {:induction false} PositionalsAgree(fs: FlagSet, vf: map<string, bool>, arguments: seq<string>)
    requires MapMatches(fs, vf)
    ensures Interspersed(fs, arguments).stop.Rest? ==>
              && Interspersed(fs, arguments).stop.positionals == Positionals(arguments, vf)
              && !LacksValue(arguments, vf)
    ensures IsMissing(Interspersed(fs, arguments)) ==> LacksValue(arguments, vf)
  {
    hide MapMatches, ParseFlag, TakesNext;
    if arguments != [] && arguments[0] != "--" {
      if IsFlagToken(arguments[0]) {
        WidthAgrees(fs, vf, arguments);
        PositionalsAgree(fs, vf, arguments[Width(arguments, vf)..]);
      } else {
        PositionalsAgree(fs, vf, arguments[1..]);
      }
    }
  }

  // A waiting flag swallows the first positional.
  lemma {:induction false} MissingValueIsStolen(fs: FlagSet, vf: map<string, bool>, arguments: seq<string>,
                                                tail: seq<string>)
    requires MapMatches(fs, vf) && IsMissing(Interspersed(fs, arguments)) && tail != []
    ensures StopParse(fs, Flags(arguments, vf) + tail) != Interspersed(fs, arguments)
    decreases |arguments|, 1
  {
    hide MapMatches, ParseFlag, TakesNext;
    if !IsFlagToken(arguments[0]) {
      MissingValueIsStolen(fs, vf, arguments[1..], tail);
    } else {
      StolenAtFlag(fs, vf, arguments, tail);
    }
  }

  lemma StolenAtFlag(fs: FlagSet, vf: map<string, bool>, arguments: seq<string>, tail: seq<string>)
    requires MapMatches(fs, vf) && FlagAhead(arguments)
    requires IsMissing(Interspersed(fs, arguments)) && tail != []
    ensures StopParse(fs, Flags(arguments, vf) + tail) != Interspersed(fs, arguments)
    decreases |arguments|, 0
  {
    hide MapMatches, Width, ParseFlag, StopParse, Interspersed, Flags;
    var n := Width(arguments, vf);
    var line := Flags(arguments, vf) + tail;
    HeadOfLine(vf, arguments, tail);
    WidthAgrees(fs, vf, arguments);
    StopStep(fs, line);
    InterspersedStep(fs, arguments);
    if ParseFlag(fs, arguments).Bind? {
      SameStep(fs, vf, arguments, line);
      MissingValueIsStolen(fs, vf, arguments[n..], tail);
      if StopParse(fs, line) == Interspersed(fs, arguments) {
        BoundIsInjective(ParseFlag(fs, line), StopParse(fs, line[n..]), Interspersed(fs, arguments[n..]));
      }
    } else {
      assert |line| > 1 by { assert |arguments| == 1; }
      NotMissing(fs, line);
    }
  }

  lemma BoundIsInjective(step: FlagStep, a: Outcome, b: Outcome)
    requires step.Bind? && Bound(step, a) == Bound(step, b)
    ensures a == b
  {
    assert Bound(step, a).bindings[1..] == a.bindings && Bound(step, b).bindings[1..] == b.bindings;
  }

  lemma NotMissing(fs: FlagSet, line: seq<string>)
    requires FlagAhead(line) && |line| > 1
    ensures ParseFlag(fs, line).Fail? ==> !ParseFlag(fs, line).error.MissingValue?
  {
  }

  lemma FlaglikePositionalIsParsed(fs: FlagSet, positionals: seq<string>)
    requires positionals != []
    ensures StopParse(fs, positionals) == Outcome([], Rest(positionals)) <==> !IsFlagToken(positionals[0])
  {
  }

  // The reordered line means what the original line meant exactly when it is safe to reorder,
  // or when the flags are wrong anyway.
  lemma ReorderPreservesMeaning(fs: FlagSet, vf: map<string, bool>, arguments: seq<string>)
    requires MapMatches(fs, vf)
    ensures StopParse(fs, Reordered(arguments, vf)) == Interspersed(fs, arguments) <==>
            Safe(arguments, vf) || HasBadFlag(fs, arguments)
  {
    hide MapMatches, Interspersed, LacksValue, Flags, Positionals;
    var positionals := Positionals(arguments, vf);
    var meant := Interspersed(fs, arguments);
    PositionalsAgree(fs, vf, arguments);
    if positionals == [] || !IsMissing(meant) {
      FlagsThenTail(fs, vf, arguments, positionals);
      if positionals != [] {
        FlaglikePositionalIsParsed(fs, positionals);
      }
    } else {
      MissingValueIsStolen(fs, vf, arguments, positionals);
    }
  }

  // Two lines whose meaning the reordering does change: a waiting flag takes a positional for
  // its value, and a positional after "--" is read as a flag.
  lemma ReorderCanChangeMeaning(fs: FlagSet, vf: map<string, bool>)
    requires vf == map["from" := true] && fs.kinds == map["from" := Valued, "json" := Switch]
    requires fs.accepts("from", "run_1") && fs.accepts("json", "true")
    ensures StopParse(fs, Reordered(["run_1", "--from"], vf)) != Interspersed(fs, ["run_1", "--from"])
    ensures StopParse(fs, Reordered(["--", "-json"], vf)) != Interspersed(fs, ["--", "-json"])
  {
    hide StopParse, Interspersed, Reordered;
    StolenExample(fs, vf);
    SwitchExample(fs, vf);
  }

  lemma StolenExample(fs: FlagSet, vf: map<string, bool>)
    requires vf == map["from" := true] && fs.kinds == map["from" := Valued, "json" := Switch]
    requires fs.accepts("from", "run_1")
    ensures Interspersed(fs, ["run_1", "--from"]) == Outcome([], Failure(MissingValue("from")))
    ensures StopParse(fs, Reordered(["run_1", "--from"], vf)) == Outcome([("from", "run_1")], Rest([]))
  {
    var flag := "--from";
    assert Name(flag) == "from";
    assert IndexOf("from", '=') == 4;
    assert "from"[..4] == "from";
    assert ["run_1", flag][1..] == [flag];
    NoParts(vf);
    assert [flag][1..] == [] && !TakesNext("run_1", vf);
    assert Flags([flag], vf) == [flag] && Positionals([flag], vf) == [];
    assert Reordered(["run_1", flag], vf) == [flag, "run_1"];
    assert ParseFlag(fs, [flag]) == Fail(MissingValue("from"));
    assert ParseFlag(fs, [flag, "run_1"]) == Bind("from", "run_1", 2);
    assert [flag, "run_1"][2..] == [];
  }

  lemma SwitchExample(fs: FlagSet, vf: map<string, bool>)
    requires fs.kinds == map["from" := Valued, "json" := Switch] && fs.accepts("json", "true")
    ensures Interspersed(fs, ["--", "-json"]) == Outcome([], Rest(["-json"]))
    ensures StopParse(fs, Reordered(["--", "-json"], vf)) == Outcome([("json", "true")], Rest([]))
  {
    var flag := "-json";
    assert Name(flag) == "json";
    assert IndexOf("json", '=') == 4;
    assert "json"[..4] == "json";
    assert Reordered(["--", flag], vf) == [flag];
    assert ParseFlag(fs, [flag]) == Bind("json", "true", 1);
    assert [flag][1..] == [];
  }
}
