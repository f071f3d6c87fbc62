/** Telemetry write counters shared by any number of threads.  Every call of
    recordTelemetryWriteOutcome is a thread of its own; a schedule interleaves their atomic
    steps.  The health file is written after the lock has been given back. */
module Telemetry {
  import opened Sequences
  import opened Strings
  import opened Wrappers

  datatype Stats = Stats(attempts: nat, success: nat, failed: nat)

  type Counters = map<string, Stats>

  datatype Call = Call(stream: string, ok: bool)

  // Where a call is: before the lock, the steps under it, and after it.
  datatype Phase =
    | Ready
    | Locked
    | Initialised
    | Loaded(stats: Stats)
    | Bumped(stats: Stats)
    | Stored
    | Copying(copy: Counters, todo: set<string>)
    | Released(snapshot: Counters)
    | Done

  // streams is None before the first call made the map.  The last three fields are the history:
  // who left the critical section, with what snapshot, and who wrote the file last.
  datatype State = State(
    holder: Option<nat>,
    streams: Option<Counters>,
    phases: seq<Phase>,
    file: Option<Counters>,
    released: seq<nat>,
    snapshots: seq<Counters>,
    writer: Option<nat>)

  datatype Action =
    | Acquire
    | Initialise
    | Load
    | Bump
    | Store
    | BeginCopy
    | CopyOne(key: string)
    | Release
    | Write(success: bool)

  datatype Step = Step(call: nat, action: Action)

  function StreamName(stream: string): string {
    var trimmed := TrimSpace(stream);
    if trimmed == "" then "unknown" else trimmed
  }

  // Blank streams are counted together, under a name of their own.
  lemma StreamNameIff(a: string, b: string)
    ensures TrimSpace(a) == "" ==> StreamName(a) == "unknown"
    ensures StreamName(a) == StreamName(b) <==>
              TrimSpace(a) == TrimSpace(b)
              || (TrimSpace(a) in {"", "unknown"} && TrimSpace(b) in {"", "unknown"})
  {
    hide TrimSpace;
  }

  function Get(counters: Counters, name: string): Stats {
    if name in counters then counters[name] else Stats(0, 0, 0)
  }

  function BumpStats(stats: Stats, ok: bool): Stats {
    Stats(stats.attempts + 1, stats.success + (if ok then 1 else 0), stats.failed + (if ok then 0 else 1))
  }

  function Map(s: State): Counters { if s.streams.Some? then s.streams.value else map[] }

  predicate Enabled(calls: seq<Call>, s: State, step: Step) {
    && step.call < |calls| == |s.phases|
    && var phase := s.phases[step.call];
       match step.action
       case Acquire => phase.Ready? && s.holder.None?
       case Initialise => phase.Locked?
       case Load => phase.Initialised? && s.streams.Some?
       case Bump => phase.Loaded?
       case Store => phase.Bumped? && s.streams.Some?
       case BeginCopy => phase.Stored? && s.streams.Some?
       case CopyOne(key) => phase.Copying? && key in phase.todo && key in Map(s)
       case Release => phase.Copying? && phase.todo == {}
       case Write(_) => phase.Released?
  }

  function Apply(calls: seq<Call>, s: State, step: Step): State
    requires Enabled(calls, s, step)
  {
    var c := step.call;
    var call := calls[c];
    var name := StreamName(call.stream);
    var phase := s.phases[c];
    match step.action
    case Acquire => s.(holder := Some(c), phases := s.phases[c := Locked])
    case Initialise => s.(streams := Some(Map(s)), phases := s.phases[c := Initialised])
    case Load => s.(phases := s.phases[c := Loaded(Get(s.streams.value, name))])
    case Bump => s.(phases := s.phases[c := Bumped(BumpStats(phase.stats, call.ok))])
    case Store => s.(streams := Some(s.streams.value[name := phase.stats]), phases := s.phases[c := Stored])
    case BeginCopy => s.(phases := s.phases[c := Copying(map[], s.streams.value.Keys)])
    case CopyOne(key) =>
      s.(phases := s.phases[c := Copying(phase.copy[key := Map(s)[key]], phase.todo - {key})])
    case Release =>
      s.(holder := None, phases := s.phases[c := Released(phase.copy)],
         released := s.released + [c], snapshots := s.snapshots + [phase.copy])
    case Write(success) =>
      if success then s.(file := Some(phase.snapshot), writer := Some(c), phases := s.phases[c := Done])
      else s.(phases := s.phases[c := Done])
  }

  function Start(calls: seq<Call>): State {
    State(None, None, seq(|calls|, _ => Ready), None, [], [], None)
  }

  // The state a schedule leads to, if every step of it is possible.
  function Run(calls: seq<Call>, schedule: seq<Step>): Option<State> {
    if schedule == [] then Some(Start(calls))
    else
      var before := Run(calls, schedule[..|schedule| - 1]);
      var step := schedule[|schedule| - 1];
      if before.Some? && Enabled(calls, before.value, step) then Some(Apply(calls, before.value, step)) else None
  }

  // ----- the reference: count the calls that have left the critical section -----

  predicate Of(calls: seq<Call>, order: seq<nat>) { forall i :: 0 <= i < |order| ==> order[i] < |calls| }

  // The counters after the given calls, one after the other.
  function Tally(calls: seq<Call>, order: seq<nat>): Counters
    requires Of(calls, order)
  {
    if order == [] then map[]
    else
      var before, call := Tally(calls, order[..|order| - 1]), calls[order[|order| - 1]];
      var name := StreamName(call.stream);
      before[name := BumpStats(Get(before, name), call.ok)]
  }

  predicate Under(phase: Phase) {
    phase.Locked? || phase.Initialised? || phase.Loaded? || phase.Bumped? || phase.Stored? || phase.Copying?
  }

  predicate After(phase: Phase) { phase.Released? || phase.Done? }

  ghost predicate Exclusive(s: State) {
    && (s.holder.Some? ==> s.holder.value < |s.phases|)
    && (forall c :: 0 <= c < |s.phases| ==> (Under(s.phases[c]) <==> s.holder == Some(c)))
  }

  // The history lists exactly the calls that are through, each once, with its snapshot.
  ghost predicate History(calls: seq<Call>, s: State) {
    && |s.phases| == |calls|
    && Of(calls, s.released)
    && |s.snapshots| == |s.released|
    && (forall i :: 0 <= i < |s.released| ==> After(s.phases[s.released[i]]))
    && (forall i, j :: 0 <= i < j < |s.released| ==> s.released[i] != s.released[j])
    && (forall c :: 0 <= c < |s.phases| && After(s.phases[c]) ==> c in s.released)
    && (forall i :: 0 <= i < |s.released| ==> s.snapshots[i] == Tally(calls, s.released[..i + 1]))
  }

  ghost predicate TakenBy(s: State, c: nat, snapshot: Counters) {
    exists i :: 0 <= i < |s.released| && i < |s.snapshots| && s.released[i] == c && s.snapshots[i] == snapshot
  }

  ghost predicate Outputs(s: State) {
    && (forall c :: 0 <= c < |s.phases| && s.phases[c].Released? ==> TakenBy(s, c, s.phases[c].snapshot))
    && (s.file.Some? <==> s.writer.Some?)
    && (s.file.Some? ==> TakenBy(s, s.writer.value, s.file.value))
  }

  // What the map holds, given how far the holder of the lock has got.
  ghost predicate MapIs(calls: seq<Call>, s: State)
  {
    Of(calls, s.released) && |s.phases| == |calls| &&
    var counted := Tally(calls, s.released);
    if s.holder.None? || s.holder.value >= |calls| then Map(s) == counted
    else
      var h := s.holder.value;
      var name := StreamName(calls[h].stream);
      var all := counted[name := BumpStats(Get(counted, name), calls[h].ok)];
      match s.phases[h]
      case Locked => Map(s) == counted
      case Initialised => s.streams == Some(counted)
      case Loaded(stats) => s.streams == Some(counted) && stats == Get(counted, name)
      case Bumped(stats) => s.streams == Some(counted) && stats == BumpStats(Get(counted, name), calls[h].ok)
      case Stored => s.streams == Some(all)
      case Copying(copy, todo) =>
        s.streams == Some(all) && todo <= all.Keys && copy == (map k | k in all && k !in todo :: all[k])
      case _ => true
  }

  ghost predicate Invariant(calls: seq<Call>, s: State) {
    && |s.phases| == |calls|
    && Exclusive(s)
    && History(calls, s)
    && Outputs(s)
    && MapIs(calls, s)
  }

  lemma TallySnoc(calls: seq<Call>, order: seq<nat>, c: nat)
    requires Of(calls, order) && c < |calls|
    ensures Of(calls, order + [c])
    ensures var name := StreamName(calls[c].stream);
            Tally(calls, order + [c]) ==
            Tally(calls, order)[name := BumpStats(Get(Tally(calls, order), name), calls[c].ok)]
  {
    assert (order + [c])[..|order|] == order;
  }

  lemma StepKeepsExclusive(calls: seq<Call>, s: State, step: Step)
    requires Invariant(calls, s) && Enabled(calls, s, step)
    ensures Exclusive(Apply(calls, s, step)) && |Apply(calls, s, step).phases| == |calls|
  {
    hide History, Outputs, MapIs, TrimSpace, Map, Get;
  }

  lemma StepKeepsHistory(calls: seq<Call>, s: State, step: Step)
    requires Invariant(calls, s) && Enabled(calls, s, step)
    ensures History(calls, Apply(calls, s, step))
  {
    hide Outputs, TrimSpace, Get, StreamName, Tally;
    if step.action.Release? {
      ReleaseKeepsHistory(calls, s, step);
    } else {
      hide MapIs, Exclusive;
    }
  }

  lemma ReleaseKeepsHistory(calls: seq<Call>, s: State, step: Step)
    requires Invariant(calls, s) && Enabled(calls, s, step) && step.action.Release?
    ensures History(calls, Apply(calls, s, step))
  {
    hide Outputs, TrimSpace, Get, StreamName, Tally;
    var t := Apply(calls, s, step);
    TallySnoc(calls, s.released, step.call);
    assert s.holder == Some(step.call);
    assert t.snapshots[|s.snapshots|] == s.streams.value;
    forall i | 0 <= i < |t.released| ensures t.snapshots[i] == Tally(calls, t.released[..i + 1]) {
      assert t.released[..i + 1] == if i < |s.released| then s.released[..i + 1] else s.released + [step.call];
    }
  }

  lemma TakenByStays(calls: seq<Call>, s: State, step: Step)
    requires Enabled(calls, s, step) && |s.snapshots| == |s.released|
    ensures var t := Apply(calls, s, step);
            && (forall c, snapshot :: TakenBy(s, c, snapshot) ==> TakenBy(t, c, snapshot))
            && (step.action.Release? ==> TakenBy(t, step.call, s.phases[step.call].copy))
  {
    hide TrimSpace, Get, StreamName, Map;
    var t := Apply(calls, s, step);
    forall c, snapshot | TakenBy(s, c, snapshot) ensures TakenBy(t, c, snapshot) {
      var i :| 0 <= i < |s.released| && i < |s.snapshots| && s.released[i] == c && s.snapshots[i] == snapshot;
      assert t.released[i] == c && t.snapshots[i] == snapshot;
    }
    if step.action.Release? {
      assert t.released[|s.released|] == step.call && t.snapshots[|s.released|] == s.phases[step.call].copy;
    }
  }

  lemma StepKeepsOutputs(calls: seq<Call>, s: State, step: Step)
    requires Enabled(calls, s, step) && |s.snapshots| == |s.released| && Outputs(s)
    ensures Outputs(Apply(calls, s, step))
  {
    hide TrimSpace, Get, StreamName, Map, TakenBy;
    TakenByStays(calls, s, step);
  }

  lemma StepKeepsMap(calls: seq<Call>, s: State, step: Step)
    requires Invariant(calls, s) && Enabled(calls, s, step)
    ensures MapIs(calls, Apply(calls, s, step))
  {
    hide Outputs, TrimSpace, StreamName, Tally, Get;
    assert Of(calls, Apply(calls, s, step).released);
    if step.action.Release? {
      TallySnoc(calls, s.released, step.call);
    }
  }

  lemma StepKeepsInvariant(calls: seq<Call>, s: State, step: Step)
    requires Invariant(calls, s) && Enabled(calls, s, step)
    ensures Invariant(calls, Apply(calls, s, step))
  {
    hide Exclusive, Outputs, MapIs, Apply;
    StepKeepsExclusive(calls, s, step);
    StepKeepsHistory(calls, s, step);
    StepKeepsOutputs(calls, s, step);
    StepKeepsMap(calls, s, step);
  }

  // The invariant holds after every schedule.
  lemma {:induction false} EveryRunIsSound(calls: seq<Call>, schedule: seq<Step>)
    requires Run(calls, schedule).Some?
    ensures Invariant(calls, Run(calls, schedule).value)
  {
    hide Apply, Enabled;
    if schedule != [] {
      var front := schedule[..|schedule| - 1];
      EveryRunIsSound(calls, front);
      StepKeepsInvariant(calls, Run(calls, front).value, schedule[|schedule| - 1]);
    }
  }

  // ----- what follows for every schedule -----

  // The calls of one stream among the given ones.
  function CallsOf(calls: seq<Call>, order: seq<nat>, name: string): set<nat>
    requires Of(calls, order)
  {
    set c | c in order && StreamName(calls[c].stream) == name
  }

  function OkCallsOf(calls: seq<Call>, order: seq<nat>, name: string): set<nat>
    requires Of(calls, order)
  {
    set c | c in order && StreamName(calls[c].stream) == name && calls[c].ok
  }

  lemma {:induction false} TallyCounts(calls: seq<Call>, order: seq<nat>, name: string)
    requires Of(calls, order) && Distinct(order)
    ensures var stats := Get(Tally(calls, order), name);
            && stats.attempts == |CallsOf(calls, order, name)|
            && stats.success == |OkCallsOf(calls, order, name)|
            && stats.attempts == stats.success + stats.failed
  {
    hide StreamName, CallsOf, OkCallsOf, Tally;
    if order == [] {
      NothingCounted(calls, name);
    } else {
      var front, c := order[..|order| - 1], order[|order| - 1];
      assert order == front + [c];
      assert c !in front by { assert forall i :: 0 <= i < |front| ==> front[i] == order[i]; }
      TallyCounts(calls, front, name);
      TallySnoc(calls, front, c);
      OneMoreCounted(calls, front, c, name);
    }
  }

  lemma NothingCounted(calls: seq<Call>, name: string)
    ensures Tally(calls, []) == map[] && CallsOf(calls, [], name) == {} && OkCallsOf(calls, [], name) == {}
  {
  }

  lemma OneMoreCounted(calls: seq<Call>, front: seq<nat>, c: nat, name: string)
    requires Of(calls, front + [c]) && Of(calls, front) && c < |calls| && c !in front
    ensures var mine := StreamName(calls[c].stream) == name;
            && |CallsOf(calls, front + [c], name)| == |CallsOf(calls, front, name)| + (if mine then 1 else 0)
            && |OkCallsOf(calls, front + [c], name)| ==
               |OkCallsOf(calls, front, name)| + (if mine && calls[c].ok then 1 else 0)
  {
    hide StreamName;
    CallsStep(calls, front, c, name);
    OkCallsStep(calls, front, c, name);
  }

  lemma CallsStep(calls: seq<Call>, front: seq<nat>, c: nat, name: string)
    requires Of(calls, front + [c]) && Of(calls, front) && c < |calls| && c !in front
    ensures |CallsOf(calls, front + [c], name)| ==
            |CallsOf(calls, front, name)| + (if StreamName(calls[c].stream) == name then 1 else 0)
  {
    hide StreamName;
    assert CallsOf(calls, front + [c], name) ==
           CallsOf(calls, front, name) + (if StreamName(calls[c].stream) == name then {c} else {});
  }

  lemma OkCallsStep(calls: seq<Call>, front: seq<nat>, c: nat, name: string)
    requires Of(calls, front + [c]) && Of(calls, front) && c < |calls| && c !in front
    ensures |OkCallsOf(calls, front + [c], name)| ==
            |OkCallsOf(calls, front, name)| + (if StreamName(calls[c].stream) == name && calls[c].ok then 1 else 0)
  {
    hide StreamName;
    assert OkCallsOf(calls, front + [c], name) ==
           OkCallsOf(calls, front, name) + (if StreamName(calls[c].stream) == name && calls[c].ok then {c} else {});
  }

  // The calls of a stream that have left the critical section.
  function ThroughOf(calls: seq<Call>, s: State, name: string): set<nat>
    requires |s.phases| == |calls|
  {
    set c: nat | c < |calls| && After(s.phases[c]) && StreamName(calls[c].stream) == name
  }

  // Whenever the lock is free every stream's counters add up and count exactly the calls of
  // that stream that are through, the failed ones as failed.
  lemma FreeLockCountsCalls(calls: seq<Call>, schedule: seq<Step>, name: string)
    requires Run(calls, schedule).Some? && Run(calls, schedule).value.holder.None?
    ensures var s := Run(calls, schedule).value;
            && |s.phases| == |calls|
            && var stats := Get(Map(s), name);
               && stats.attempts == stats.success + stats.failed
               && stats.attempts == |ThroughOf(calls, s, name)|
               && stats.success == |set c | c in ThroughOf(calls, s, name) && calls[c].ok|
  {
    hide Run, StreamName, Outputs, Tally, Get;
    EveryRunIsSound(calls, schedule);
    var s := Run(calls, schedule).value;
    TallyCounts(calls, s.released, name);
    assert CallsOf(calls, s.released, name) == ThroughOf(calls, s, name);
    assert OkCallsOf(calls, s.released, name) == set c | c in ThroughOf(calls, s, name) && calls[c].ok;
  }

  // Counters only ever grow.
  ghost predicate Below(a: Counters, b: Counters) {
    forall name :: name in a ==>
      && name in b
      && a[name].attempts <= b[name].attempts
      && a[name].success <= b[name].success
      && a[name].failed <= b[name].failed
  }

  lemma BelowTransitive(a: Counters, b: Counters, c: Counters)
    requires Below(a, b) && Below(b, c)
    ensures Below(a, c)
  {
  }

  lemma BelowGets(a: Counters, b: Counters, name: string)
    requires Below(a, b)
    ensures Get(a, name).attempts <= Get(b, name).attempts
  {
  }

  lemma TallyStep(calls: seq<Call>, front: seq<nat>, c: nat)
    requires Of(calls, front) && c < |calls|
    ensures Of(calls, front + [c])
    ensures Below(Tally(calls, front), Tally(calls, front + [c]))
    ensures var name := StreamName(calls[c].stream);
            Get(Tally(calls, front + [c]), name).attempts == Get(Tally(calls, front), name).attempts + 1
  {
    hide Tally, StreamName;
    TallySnoc(calls, front, c);
  }

  lemma {:induction false} TallyGrows(calls: seq<Call>, order: seq<nat>, i: nat)
    requires Of(calls, order) && i <= |order|
    ensures Below(Tally(calls, order[..i]), Tally(calls, order))
    ensures i < |order| ==>
              var name := StreamName(calls[order[|order| - 1]].stream);
              Get(Tally(calls, order[..i]), name).attempts < Get(Tally(calls, order), name).attempts
  {
    if i == |order| {
      assert order[..i] == order;
    } else {
      hide StreamName, Tally, Below, Get;
      var front, c := order[..|order| - 1], order[|order| - 1];
      assert order == front + [c] && front[..i] == order[..i];
      TallyGrows(calls, front, i);
      TallyStep(calls, front, c);
      BelowTransitive(Tally(calls, order[..i]), Tally(calls, front), Tally(calls, order));
      BelowGets(Tally(calls, order[..i]), Tally(calls, front), StreamName(calls[c].stream));
    }
  }

  // No schedule gets stuck: while some call is not done, some step is possible.
  lemma NeverStuck(calls: seq<Call>, schedule: seq<Step>) returns (step: Step)
    requires Run(calls, schedule).Some?
    requires exists c :: 0 <= c < |Run(calls, schedule).value.phases| && !Run(calls, schedule).value.phases[c].Done?
    ensures Run(calls, schedule + [step]).Some?
  {
    EveryRunIsSound(calls, schedule);
    var s := Run(calls, schedule).value;
    hide Run;
    step := PossibleStep(calls, s);
    RunOneMore(calls, schedule, step);
  }

  lemma PossibleStep(calls: seq<Call>, s: State) returns (step: Step)
    requires Invariant(calls, s) && exists c :: 0 <= c < |s.phases| && !s.phases[c].Done?
    ensures Enabled(calls, s, step)
  {
    hide Outputs, History, Tally, Get, StreamName;
    if s.holder.None? {
      var c :| 0 <= c < |s.phases| && !s.phases[c].Done?;
      assert !Under(s.phases[c]);
      step := if s.phases[c].Ready? then Step(c, Acquire) else Step(c, Write(true));
    } else {
      var h := s.holder.value;
      assert Under(s.phases[h]);
      match s.phases[h] {
        case Locked => step := Step(h, Initialise);
        case Initialised => step := Step(h, Load);
        case Loaded(_) => step := Step(h, Bump);
        case Bumped(_) => step := Step(h, Store);
        case Stored => step := Step(h, BeginCopy);
        case Copying(copy, todo) =>
          if todo == {} {
            step := Step(h, Release);
          } else {
            var key :| key in todo;
            step := Step(h, CopyOne(key));
          }
        case _ => step := Step(h, Acquire);
      }
    }
  }

  // In lock order the snapshots grow, and no two are the same.
  lemma SnapshotsGrow(calls: seq<Call>, schedule: seq<Step>, i: nat, j: nat)
    requires Run(calls, schedule).Some? && i < j < |Run(calls, schedule).value.snapshots|
    ensures var snapshots := Run(calls, schedule).value.snapshots;
            Below(snapshots[i], snapshots[j]) && snapshots[i] != snapshots[j]
  {
    hide Run, StreamName, Outputs, MapIs, Exclusive, Tally, Below;
    EveryRunIsSound(calls, schedule);
    var order := Run(calls, schedule).value.released;
    TallyGrows(calls, order[..j + 1], i + 1);
    assert order[..j + 1][..i + 1] == order[..i + 1];
  }

  // The health file, once written, is the snapshot some call took under the lock, complete and
  // consistent, although the writes happen outside the lock and in any order.
  lemma FileHoldsASnapshot(calls: seq<Call>, schedule: seq<Step>, name: string) returns (i: nat)
    requires Run(calls, schedule).Some? && Run(calls, schedule).value.file.Some?
    ensures var s := Run(calls, schedule).value;
            && i < |s.snapshots| == |s.released|
            && s.file.value == s.snapshots[i]
            && s.writer == Some(s.released[i])
            && Of(calls, s.released[..i + 1])
            && var stats := Get(s.file.value, name);
               && stats.attempts == stats.success + stats.failed
               && stats.attempts == |CallsOf(calls, s.released[..i + 1], name)|
  {
    hide Run, StreamName, MapIs, Exclusive, Tally, Get;
    EveryRunIsSound(calls, schedule);
    var s := Run(calls, schedule).value;
    i :| 0 <= i < |s.released| && i < |s.snapshots|
         && s.released[i] == s.writer.value && s.snapshots[i] == s.file.value;
    TallyCounts(calls, s.released[..i + 1], name);
  }

  // With the lock free the file is up to date exactly when its writer was the last to leave
  // the critical section.
  lemma FileIsCurrentIff(calls: seq<Call>, schedule: seq<Step>)
    requires Run(calls, schedule).Some? && Run(calls, schedule).value.holder.None?
    requires Run(calls, schedule).value.file.Some?
    ensures var s := Run(calls, schedule).value;
            s.released != [] &&
            (s.file.value == Map(s) <==> s.writer == Some(s.released[|s.released| - 1]))
  {
    hide Run, StreamName, Exclusive, Tally, Get;
    var i := FileHoldsASnapshot(calls, schedule, "");
    EveryRunIsSound(calls, schedule);
    var s := Run(calls, schedule).value;
    var last := |s.released| - 1;
    assert s.released[..last + 1] == s.released;
    if i < last {
      SnapshotsGrow(calls, schedule, i, last);
    }
  }

  // ----- a schedule that leaves an old snapshot in the file -----

  lemma RunOneMore(calls: seq<Call>, schedule: seq<Step>, step: Step)
    requires Run(calls, schedule).Some? && Enabled(calls, Run(calls, schedule).value, step)
    ensures Run(calls, schedule + [step]) == Some(Apply(calls, Run(calls, schedule).value, step))
  {
    hide Enabled, Apply;
    assert (schedule + [step])[..|schedule|] == schedule;
  }

  // One call going through the critical section without interruption, when its stream is the
  // only one.
  function Undisturbed(c: nat, name: string): seq<Step> {
    [Step(c, Acquire), Step(c, Initialise), Step(c, Load), Step(c, Bump), Step(c, Store),
     Step(c, BeginCopy), Step(c, CopyOne(name)), Step(c, Release)]
  }

  function Alone(calls: seq<Call>, s: State, c: nat): State
    requires c < |calls| == |s.phases|
  {
    var name := StreamName(calls[c].stream);
    var now := map[name := BumpStats(Get(Map(s), name), calls[c].ok)];
    s.(streams := Some(now), phases := s.phases[c := Released(now)],
       released := s.released + [c], snapshots := s.snapshots + [now])
  }

  lemma AloneRuns(calls: seq<Call>, schedule: seq<Step>, c: nat)
    requires Run(calls, schedule).Some? && c < |calls| == |Run(calls, schedule).value.phases|
    requires var s := Run(calls, schedule).value;
             s.holder.None? && s.phases[c].Ready? && Map(s).Keys <= {StreamName(calls[c].stream)}
    ensures Run(calls, schedule + Undisturbed(c, StreamName(calls[c].stream))) ==
            Some(Alone(calls, Run(calls, schedule).value, c))
  {
    hide Run, StreamName;
    var name := StreamName(calls[c].stream);
    var steps := Undisturbed(c, name);
    var s := Run(calls, schedule).value;
    Overwrite(s.phases, c);
    RunOneMore(calls, schedule, steps[0]);
    RunOneMore(calls, schedule + [steps[0]], steps[1]);
    assert schedule + [steps[0]] + [steps[1]] == schedule + steps[..2];
    RunOneMore(calls, schedule + steps[..2], steps[2]);
    assert schedule + steps[..2] + [steps[2]] == schedule + steps[..3];
    RunOneMore(calls, schedule + steps[..3], steps[3]);
    assert schedule + steps[..3] + [steps[3]] == schedule + steps[..4];
    SecondHalf(calls, schedule + steps[..4], c, s);
    assert schedule + steps[..4] + steps[4..] == schedule + steps;
  }

  lemma Overwrite(phases: seq<Phase>, c: nat)
    requires c < |phases|
    ensures forall x, y {:trigger phases[c := x][c := y]} :: phases[c := x][c := y] == phases[c := y]
  {
  }

  lemma SecondHalf(calls: seq<Call>, schedule: seq<Step>, c: nat, s: State)
    requires c < |calls| == |s.phases|
    requires Map(s).Keys <= {StreamName(calls[c].stream)} && s.holder.None?
    requires var name := StreamName(calls[c].stream);
             Run(calls, schedule) == Some(s.(
               holder := Some(c), streams := Some(Map(s)),
               phases := s.phases[c := Bumped(BumpStats(Get(Map(s), name), calls[c].ok))]))
    ensures Run(calls, schedule + Undisturbed(c, StreamName(calls[c].stream))[4..]) == Some(Alone(calls, s, c))
  {
    hide Run, StreamName, Get;
    var name := StreamName(calls[c].stream);
    var steps := Undisturbed(c, name)[4..];
    var stats := BumpStats(Get(Map(s), name), calls[c].ok);
    Overwrite(s.phases, c);
    assert Map(s)[name := stats] == map[name := stats];
    assert {name} - {name} == {};
    RunOneMore(calls, schedule, steps[0]);
    RunOneMore(calls, schedule + [steps[0]], steps[1]);
    assert schedule + [steps[0]] + [steps[1]] == schedule + steps[..2];
    RunOneMore(calls, schedule + steps[..2], steps[2]);
    assert schedule + steps[..2] + [steps[2]] == schedule + steps[..3];
    RunOneMore(calls, schedule + steps[..3], steps[3]);
    assert schedule + steps[..3] + [steps[3]] == schedule + steps;
  }

  // Two calls, both done and both written: the file still counts one.
  lemma FileCanLagBehind(calls: seq<Call>) returns (schedule: seq<Step>)
    requires calls == [Call("adoption", true), Call("adoption", true)]
    ensures Run(calls, schedule).Some?
    ensures var s := Run(calls, schedule).value;
            && s.phases == [Done, Done]
            && Map(s) == map["adoption" := Stats(2, 2, 0)]
            && s.file == Some(map["adoption" := Stats(1, 1, 0)])
  {
    hide Run;
    var name := "adoption";
    assert StreamName(name) == name;
    assert Run(calls, []) == Some(Start(calls)) by { RunNothing(calls); }
    AloneRuns(calls, [], 0);
    var first := [] + Undisturbed(0, name);
    AloneRuns(calls, first, 1);
    var both := first + Undisturbed(1, name);
    RunOneMore(calls, both, Step(1, Write(true)));
    RunOneMore(calls, both + [Step(1, Write(true))], Step(0, Write(true)));
    schedule := both + [Step(1, Write(true))] + [Step(0, Write(true))];
  }

  lemma RunNothing(calls: seq<Call>)
    ensures Run(calls, []) == Some(Start(calls))
  {
  }
}
