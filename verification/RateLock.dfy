/** The rate limiter used by several processes at once: a lock file guards reading and writing the
    state file, and a lock that looks stale is taken over. */
module RateLock {
  import opened Counting
  import opened RateLimiter
  import opened Sequences
  import opened Wrappers

  const STALE_AFTER := 15

  // How far a process has come with its one call.
  datatype Phase =
    | Idle
    | Waiting
    | Suspecting
    | Inside
    | Read(counters: Counters)
    | Leaving(decision: Decision)
    | Done(decision: Decision)
    | GaveUp
    | Crashed

  datatype Action = Begin | Create | Suspect | TakeOver | GiveUp | Load | Commit | Release | Crash

  datatype Step = Step(process: nat, action: Action) | Tick(seconds: nat)

  // lock is the creation time of the lock file.  log, the order in which calls were decided, and
  // intruded, whether a lock was removed while some process was inside, are history.
  datatype State = State(
    now: nat, lock: Option<nat>, file: Counters, phases: seq<Phase>, log: seq<nat>, intruded: bool)

  predicate Critical(phase: Phase) { phase.Inside? || phase.Read? || phase.Leaving? }

  predicate SomeoneInside(s: State) { exists p :: 0 <= p < |s.phases| && Critical(s.phases[p]) }

  // A call carries the time at which its process begins, before it asks for the lock.
  predicate Enabled(calls: seq<Call>, s: State, step: Step)
    requires |s.phases| == |calls|
  {
    match step
    case Tick(_) => true
    case Step(p, action) =>
      p < |s.phases| &&
      match action
      case Begin => s.phases[p].Idle? && calls[p].now == s.now
      case Create => s.phases[p].Waiting? && s.lock.None?
      case Suspect => s.phases[p].Waiting? && s.lock.Some? && s.now - s.lock.value > STALE_AFTER
      case TakeOver => s.phases[p].Suspecting?
      case GiveUp => s.phases[p].Waiting? && s.lock.Some?
      case Load => s.phases[p].Inside?
      case Commit => s.phases[p].Read?
      case Release => s.phases[p].Leaving?
      case Crash => Critical(s.phases[p])
  }

  // A lock of fifteen seconds is not suspected, an older one may be.
  lemma SuspectsAfterFifteen(calls: seq<Call>, s: State, p: nat)
    requires |s.phases| == |calls| && p < |calls| && s.phases[p].Waiting? && s.lock.Some?
    ensures Enabled(calls, s, Step(p, Suspect)) <==> s.now > s.lock.value + 15
  {
  }

  function Moved(s: State, p: nat, phase: Phase): State
    requires p < |s.phases|
  {
    s.(phases := s.phases[p := phase])
  }

  // Whoever removes the lock file removes the one that is there, if any.
  function Apply(calls: seq<Call>, s: State, step: Step): State
    requires |s.phases| == |calls| && Enabled(calls, s, step)
  {
    match step
    case Tick(seconds) => s.(now := s.now + seconds)
    case Step(p, action) =>
      match action
      case Begin => Moved(s, p, Waiting)
      case Create => Moved(s, p, Inside).(lock := Some(s.now))
      case Suspect => Moved(s, p, Suspecting)
      case TakeOver => Moved(s, p, Waiting).(lock := None, intruded := s.intruded || SomeoneInside(s))
      case GiveUp => Moved(s, p, GaveUp)
      case Load => Moved(s, p, Read(s.file))
      case Commit => Committed(calls, s, p)
      case Release => Moved(s, p, Done(s.phases[p].decision)).(lock := None)
      case Crash => Moved(s, p, Crashed)
  }

  function Committed(calls: seq<Call>, s: State, p: nat): State
    requires p < |s.phases| == |calls| && s.phases[p].Read?
  {
    var counters := s.phases[p].counters;
    Moved(s, p, Leaving(Decide(counters, calls[p])))
    .(file := if Admits(counters, calls[p]) then After(counters, calls[p]) else s.file, log := s.log + [p])
  }

  function Start(calls: seq<Call>): State {
    State(0, None, map[], seq(|calls|, i => Idle), [], false)
  }

  // The state after a schedule, if every step of it was possible.
  function Reach(calls: seq<Call>, schedule: seq<Step>): (s: Option<State>)
    ensures s.Some? ==> |s.value.phases| == |calls|
  {
    if schedule == [] then Some(Start(calls))
    else
      var last := |schedule| - 1;
      var before := Reach(calls, schedule[..last]);
      if before.Some? && Enabled(calls, before.value, schedule[last])
      then Some(Apply(calls, before.value, schedule[last]))
      else None
  }

  // ----- serial behaviour -----

  // The calls in the order in which they were decided.
  function Ordered(calls: seq<Call>, log: seq<nat>): (r: seq<Call>)
    requires forall i :: 0 <= i < |log| ==> log[i] < |calls|
    ensures |r| == |log|
  {
    seq(|log|, i requires 0 <= i < |log| => calls[log[i]])
  }

  ghost predicate Logged(calls: seq<Call>, s: State) {
    && |s.phases| == |calls|
    && Distinct(s.log)
    && (forall i :: 0 <= i < |s.log| ==> s.log[i] < |calls|)
    && (forall p :: p in s.log ==>
          p < |s.phases| && (s.phases[p].Leaving? || s.phases[p].Done? || s.phases[p].Crashed?))
  }

  ghost predicate AtMostOneInside(s: State) {
    forall p, q :: 0 <= p < |s.phases| && 0 <= q < |s.phases| && Critical(s.phases[p]) && Critical(s.phases[q]) ==>
      p == q
  }

  // At most one process is inside, and then the lock is there.
  ghost predicate Exclusive(s: State) { AtMostOneInside(s) && (SomeoneInside(s) ==> s.lock.Some?) }

  // What the limiter decides for entry i of the log when the entries are calls made one by one.
  ghost predicate DecidedAt(calls: seq<Call>, s: State, i: nat, decision: Decision)
    requires Logged(calls, s) && i < |s.log|
  {
    decision == Decide(Run(Ordered(calls, s.log[..i])), calls[s.log[i]])
  }

  ghost predicate DecidedInOrder(calls: seq<Call>, s: State, p: nat, decision: Decision)
    requires Logged(calls, s)
  {
    exists i: nat :: i < |s.log| && s.log[i] == p && DecidedAt(calls, s, i, decision)
  }

  // A process that has read the file still holds what is in it.
  ghost predicate Current(s: State) {
    forall p :: 0 <= p < |s.phases| && s.phases[p].Read? ==> s.phases[p].counters == s.file
  }

  // The state file and every decision are those of the calls made one by one in log order.
  ghost predicate Serial(calls: seq<Call>, s: State) {
    && Logged(calls, s)
    && Exclusive(s)
    && s.file == Run(Ordered(calls, s.log))
    && Current(s)
    && (forall p :: 0 <= p < |s.phases| && (s.phases[p].Leaving? || s.phases[p].Done?) ==>
          DecidedInOrder(calls, s, p, s.phases[p].decision))
  }

  lemma StepKeepsLog(calls: seq<Call>, s: State, step: Step)
    requires Logged(calls, s) && Enabled(calls, s, step)
    ensures Logged(calls, Apply(calls, s, step))
    ensures s.log <= Apply(calls, s, step).log
  {
    hide Run, Decide, Admits, After;
  }

  lemma StepKeepsOneInside(calls: seq<Call>, s: State, step: Step)
    requires |s.phases| == |calls| && Exclusive(s) && Enabled(calls, s, step)
    ensures AtMostOneInside(Apply(calls, s, step))
  {
    var t := Apply(calls, s, step);
    OthersStay(calls, s, step);
    hide Apply, Critical;
    forall p, q | 0 <= p < |t.phases| && 0 <= q < |t.phases| && Critical(t.phases[p]) && Critical(t.phases[q])
      ensures p == q
    {
      assert Critical(s.phases[p]) || step == Step(p, Create);
      assert Critical(s.phases[q]) || step == Step(q, Create);
    }
  }

  // Only by creating the lock does a process come inside.
  lemma OthersStay(calls: seq<Call>, s: State, step: Step)
    requires |s.phases| == |calls| && Enabled(calls, s, step)
    ensures var t := Apply(calls, s, step);
            && |t.phases| == |s.phases|
            && forall p :: 0 <= p < |t.phases| && Critical(t.phases[p]) ==>
                 Critical(s.phases[p]) || step == Step(p, Create)
  {
    hide Run, Decide, Admits, After;
  }

  lemma StepKeepsLocked(calls: seq<Call>, s: State, step: Step)
    requires |s.phases| == |calls| && Exclusive(s) && Enabled(calls, s, step) && !Apply(calls, s, step).intruded
    ensures SomeoneInside(Apply(calls, s, step)) ==> Apply(calls, s, step).lock.Some?
  {
    hide Run, Decide, Admits, After;
  }

  lemma DecisionStays(calls: seq<Call>, s: State, t: State, p: nat, decision: Decision)
    requires Logged(calls, s) && Logged(calls, t) && s.log <= t.log && DecidedInOrder(calls, s, p, decision)
    ensures DecidedInOrder(calls, t, p, decision)
  {
    hide Run, Decide, Logged;
    var i: nat :| i < |s.log| && s.log[i] == p && DecidedAt(calls, s, i, decision);
    assert t.log[..i] == s.log[..i] && t.log[i] == s.log[i];
    assert DecidedAt(calls, t, i, decision);
  }

  lemma CommitIsSerial(calls: seq<Call>, s: State, p: nat)
    requires Serial(calls, s) && p < |s.phases| && s.phases[p].Read?
    requires Logged(calls, Committed(calls, s, p))
    ensures var t := Committed(calls, s, p);
            t.file == Run(Ordered(calls, t.log)) && DecidedInOrder(calls, t, p, t.phases[p].decision)
  {
    hide Run, Decide, Admits;
    var t := Committed(calls, s, p);
    assert Ordered(calls, t.log) == Ordered(calls, s.log) + [calls[p]];
    RunSnoc(Ordered(calls, s.log), calls[p]);
    assert t.log[..|s.log|] == s.log;
    assert DecidedAt(calls, t, |s.log|, t.phases[p].decision);
  }

  lemma StepKeepsCurrent(calls: seq<Call>, s: State, step: Step)
    requires |s.phases| == |calls| && Exclusive(s) && Current(s) && Enabled(calls, s, step)
    ensures Current(Apply(calls, s, step))
    ensures !(step.Step? && step.action.Commit?) ==>
              Apply(calls, s, step).file == s.file && Apply(calls, s, step).log == s.log
  {
    hide Run, Decide, Admits, After;
  }

  // A decision is taken by a commit and kept from then on.
  lemma DecisionOrigin(calls: seq<Call>, s: State, step: Step, p: nat)
    requires |s.phases| == |calls| && Enabled(calls, s, step) && p < |calls| && step != Step(p, Commit)
    ensures var t := Apply(calls, s, step);
            && |t.phases| == |calls|
            && (t.phases[p].Leaving? || t.phases[p].Done? ==>
                  (s.phases[p].Leaving? || s.phases[p].Done?) && t.phases[p].decision == s.phases[p].decision)
  {
    hide Run, Decide, Admits, After;
  }

  lemma StepKeepsDecisions(calls: seq<Call>, s: State, step: Step)
    requires Serial(calls, s) && Enabled(calls, s, step) && Logged(calls, Apply(calls, s, step))
    ensures var t := Apply(calls, s, step);
            forall p :: 0 <= p < |t.phases| && (t.phases[p].Leaving? || t.phases[p].Done?) ==>
              DecidedInOrder(calls, t, p, t.phases[p].decision)
  {
    StepKeepsLog(calls, s, step);
    var t := Apply(calls, s, step);
    forall p | 0 <= p < |t.phases| && (t.phases[p].Leaving? || t.phases[p].Done?)
      ensures DecidedInOrder(calls, t, p, t.phases[p].decision)
    {
      if step == Step(p, Commit) {
        CommitDecides(calls, s, p);
      } else {
        hide Apply, DecidedInOrder, Enabled, Exclusive, Current;
        DecisionOrigin(calls, s, step, p);
        DecisionStays(calls, s, t, p, t.phases[p].decision);
      }
    }
  }

  lemma CommitDecides(calls: seq<Call>, s: State, p: nat)
    requires Serial(calls, s) && p < |calls| && Enabled(calls, s, Step(p, Commit))
    requires Logged(calls, Apply(calls, s, Step(p, Commit)))
    ensures var t := Apply(calls, s, Step(p, Commit)); DecidedInOrder(calls, t, p, t.phases[p].decision)
  {
    hide Committed, DecidedInOrder, Logged, Exclusive, Run;
    CommitIsSerial(calls, s, p);
  }

  lemma StepKeepsSerial(calls: seq<Call>, s: State, step: Step)
    requires Serial(calls, s) && Enabled(calls, s, step) && !Apply(calls, s, step).intruded
    ensures Serial(calls, Apply(calls, s, step))
  {
    hide Run, Decide, Admits, After, Ordered, DecidedInOrder, Exclusive, Current, Distinct;
    StepKeepsLog(calls, s, step);
    ExclusiveStays(calls, s, step);
    StepKeepsCurrent(calls, s, step);
    StepKeepsDecisions(calls, s, step);
    if step.Step? && step.action.Commit? {
      CommitIsSerial(calls, s, step.process);
    }
  }

  lemma ExclusiveStays(calls: seq<Call>, s: State, step: Step)
    requires |s.phases| == |calls| && Exclusive(s) && Enabled(calls, s, step) && !Apply(calls, s, step).intruded
    ensures Exclusive(Apply(calls, s, step))
  {
    hide Apply;
    StepKeepsOneInside(calls, s, step);
    StepKeepsLocked(calls, s, step);
  }

  // In every schedule without an intrusion the processes are served one by one.
  lemma {:induction false} QuietRunsAreSerial(calls: seq<Call>, schedule: seq<Step>)
    requires Reach(calls, schedule).Some? && !Reach(calls, schedule).value.intruded
    ensures Serial(calls, Reach(calls, schedule).value)
  {
    hide Serial, Apply, Enabled;
    if schedule == [] {
      StartIsSerial(calls);
    } else {
      var last := |schedule| - 1;
      var before := Reach(calls, schedule[..last]).value;
      IntrusionsStay(calls, before, schedule[last]);
      QuietRunsAreSerial(calls, schedule[..last]);
      StepKeepsSerial(calls, before, schedule[last]);
    }
  }

  lemma StartIsSerial(calls: seq<Call>)
    ensures Serial(calls, Start(calls))
  {
  }

  lemma IntrusionsStay(calls: seq<Call>, s: State, step: Step)
    requires |s.phases| == |calls| && Enabled(calls, s, step)
    ensures s.intruded ==> Apply(calls, s, step).intruded
  {
  }

  lemma IntrusionShows(calls: seq<Call>, s: State, step: Step)
    requires |s.phases| == |calls| && Enabled(calls, s, step) && !s.intruded && Apply(calls, s, step).intruded
    ensures !Exclusive(Apply(calls, s, step))
  {
    var q :| 0 <= q < |s.phases| && Critical(s.phases[q]);
    assert q != step.process;
    assert Critical(Apply(calls, s, step).phases[q]);
  }

  // In a schedule there is never a second process inside, nor one without the lock, exactly when
  // no lock is removed while some process is inside.
  lemma {:induction false} AlwaysExclusiveIff(calls: seq<Call>, schedule: seq<Step>)
    requires Reach(calls, schedule).Some?
    ensures !Reach(calls, schedule).value.intruded <==>
              forall n :: 0 <= n <= |schedule| ==>
                Reach(calls, schedule[..n]).Some? && Exclusive(Reach(calls, schedule[..n]).value)
  {
    hide Apply, Enabled, Exclusive;
    assert schedule[..|schedule|] == schedule;
    if schedule == [] {
      StartIsSerial(calls);
    } else {
      var front, step := schedule[..|schedule| - 1], schedule[|schedule| - 1];
      assert forall n :: 0 <= n <= |front| ==> schedule[..n] == front[..n];
      var before := Reach(calls, front).value;
      IntrusionsStay(calls, before, step);
      AlwaysExclusiveIff(calls, front);
      if !before.intruded {
        if Apply(calls, before, step).intruded {
          IntrusionShows(calls, before, step);
        } else {
          QuietRunsAreSerial(calls, schedule);
        }
      }
    }
  }

  // After such a removal the remover can enter, with the other still inside.
  lemma TakeOverIsHarmlessIff(calls: seq<Call>, s: State, p: nat)
    requires |s.phases| == |calls| && Exclusive(s) && Enabled(calls, s, Step(p, TakeOver))
    ensures var t := Apply(calls, s, Step(p, TakeOver));
            Enabled(calls, t, Step(p, Create))
            && (Exclusive(Apply(calls, t, Step(p, Create))) <==> !SomeoneInside(s))
  {
    var t := Apply(calls, s, Step(p, TakeOver));
    var u := Apply(calls, t, Step(p, Create));
    assert Critical(u.phases[p]);
    if q :| 0 <= q < |s.phases| && Critical(s.phases[q]) {
      assert q != p && Critical(u.phases[q]);
    } else {
      assert forall q :: 0 <= q < |u.phases| && q != p ==> u.phases[q] == s.phases[q];
    }
  }

  predicate Fresh(s: State) { s.lock.Some? ==> s.now - s.lock.value <= STALE_AFTER }

  // The lock file was never older than the limit while it was there.
  ghost predicate Prompt(calls: seq<Call>, schedule: seq<Step>) {
    forall n :: 0 <= n <= |schedule| && Reach(calls, schedule[..n]).Some? ==> Fresh(Reach(calls, schedule[..n]).value)
  }

  // Then nobody suspects it, so nobody intrudes.
  lemma {:induction false} PromptRunsAreQuiet(calls: seq<Call>, schedule: seq<Step>)
    requires Reach(calls, schedule).Some? && Prompt(calls, schedule)
    ensures var s := Reach(calls, schedule).value;
            !s.intruded && forall p :: 0 <= p < |s.phases| ==> !s.phases[p].Suspecting?
  {
    hide Apply, Enabled, Fresh;
    if schedule != [] {
      var front, last := schedule[..|schedule| - 1], schedule[|schedule| - 1];
      assert forall n :: 0 <= n <= |front| ==> schedule[..n] == front[..n];
      assert front[..|front|] == front;
      PromptRunsAreQuiet(calls, front);
      FreshStepIsQuiet(calls, Reach(calls, front).value, last);
    }
  }

  lemma FreshStepIsQuiet(calls: seq<Call>, s: State, step: Step)
    requires |s.phases| == |calls| && Enabled(calls, s, step) && Fresh(s) && !s.intruded
    requires forall p :: 0 <= p < |s.phases| ==> !s.phases[p].Suspecting?
    ensures var t := Apply(calls, s, step);
            !t.intruded && forall p :: 0 <= p < |t.phases| ==> !t.phases[p].Suspecting?
  {
    hide Run, Decide, Admits, After, SomeoneInside;
  }

  // No schedule gets stuck: a process that has begun and has not come to an end can go on, if
  // need be after a while.
  lemma NeverStuck(calls: seq<Call>, schedule: seq<Step>, p: nat) returns (wait: nat, action: Action)
    requires Reach(calls, schedule).Some? && p < |calls|
    requires var phase := Reach(calls, schedule).value.phases[p];
             !phase.Idle? && !phase.Done? && !phase.GaveUp? && !phase.Crashed?
    ensures Reach(calls, schedule + [Tick(wait)] + [Step(p, action)]).Some?
  {
    hide Reach, Run, Decide, Admits, After;
    var s := Reach(calls, schedule).value;
    wait := if s.lock.Some? && s.lock.value + 15 >= s.now then s.lock.value + 16 - s.now else 0;
    match s.phases[p] {
      case Waiting => action := if s.lock.None? then Create else Suspect;
      case Suspecting => action := TakeOver;
      case Inside => action := Load;
      case Read(_) => action := Commit;
      case _ => action := Release;
    }
    ReachOneMore(calls, schedule, Tick(wait));
    ReachOneMore(calls, schedule + [Tick(wait)], Step(p, action));
  }

  // ----- the limit across processes -----

  // The processes that were told their call under the key is allowed.
  ghost function AllowedProcesses(calls: seq<Call>, s: State, k: Key): set<nat> {
    set p: nat | p < |s.phases| && p < |calls| && s.phases[p].Done? && s.phases[p].decision.Decided?
                 && s.phases[p].decision.allowed && Counted(calls[p]) && KeyOf(calls[p]) == k
  }

  lemma AllowedIsAdmitted(calls: seq<Call>, s: State, k: Key, p: nat) returns (i: nat)
    requires Serial(calls, s) && p in AllowedProcesses(calls, s, k)
    ensures i < |s.log| && s.log[i] == p && i in AdmittedUnder(Ordered(calls, s.log), k)
  {
    hide Run, KeyOf, Counted;
    i :| i < |s.log| && s.log[i] == p && DecidedAt(calls, s, i, s.phases[p].decision);
    var order := Ordered(calls, s.log);
    assert Ordered(calls, s.log[..i]) == order[..i];
    CountedAllowed(Run(order[..i]), calls[p]);
    assert Admitted(order, i);
  }

  lemma CountedAllowed(counters: Counters, c: Call)
    requires Counted(c)
    ensures Decide(counters, c).Decided? && (Decide(counters, c).allowed <==> Admits(counters, c))
  {
    hide KeyOf, Malformed;
  }

  lemma {:induction false} DistinctEntries(log: seq<nat>, s: set<nat>, t: set<nat>)
    requires forall p :: p in s ==> exists i :: i in t && i < |log| && log[i] == p
    ensures |s| <= |t|
    decreases |s|
  {
    if s != {} {
      var p :| p in s;
      var i :| i in t && i < |log| && log[i] == p;
      forall q | q in s - {p} ensures exists j :: j in t - {i} && j < |log| && log[j] == q {
        var j :| j in t && j < |log| && log[j] == q;
        assert j in t - {i};
      }
      DistinctEntries(log, s - {p}, t - {i});
    }
  }

  lemma {:induction false} DistinctPlaces(log: seq<nat>, s: set<nat>, t: set<nat>)
    requires Distinct(log) && forall i :: i in t ==> i < |log| && log[i] in s
    ensures |t| <= |s|
    decreases |t|
  {
    if t != {} {
      var i :| i in t;
      DistinctPlaces(log, s - {log[i]}, t - {i});
    }
  }

  // Every decided process was told its decision: none crashed after deciding or is still leaving.
  ghost predicate Settled(s: State) { forall p :: p in s.log ==> p < |s.phases| && s.phases[p].Done? }

  // In a settled run the process of entry i was told what the limiter decides there.
  lemma SettledEntry(calls: seq<Call>, s: State, i: nat)
    requires Serial(calls, s) && Settled(s) && i < |s.log|
    ensures var p := s.log[i];
            p < |calls| == |s.phases| && s.phases[p].Done? && DecidedAt(calls, s, i, s.phases[p].decision)
  {
    hide DecidedAt, Run, Current, Exclusive;
    var p := s.log[i];
    assert p in s.log;
    assert DecidedInOrder(calls, s, p, s.phases[p].decision);
    var j: nat :| j < |s.log| && s.log[j] == p && DecidedAt(calls, s, j, s.phases[p].decision);
    assert j == i;
  }

  lemma AdmittedIsAllowed(calls: seq<Call>, s: State, k: Key, i: nat)
    requires Serial(calls, s) && Settled(s) && i in AdmittedUnder(Ordered(calls, s.log), k)
    ensures i < |s.log| && s.log[i] in AllowedProcesses(calls, s, k)
  {
    var order := Ordered(calls, s.log);
    UnderIsAdmitted(order, k, i);
    SettledEntry(calls, s, i);
    assert Ordered(calls, s.log[..i]) == order[..i];
    hide Run, KeyOf, Counted, Serial, Settled, Ordered, AdmittedUnder;
    CountedAllowed(Run(order[..i]), calls[s.log[i]]);
  }

  lemma AllowedAtMostAdmitted(calls: seq<Call>, s: State, k: Key)
    requires Serial(calls, s)
    ensures |AllowedProcesses(calls, s, k)| <= |AdmittedUnder(Ordered(calls, s.log), k)|
    ensures Settled(s) ==> |AllowedProcesses(calls, s, k)| == |AdmittedUnder(Ordered(calls, s.log), k)|
  {
    hide AllowedProcesses, AdmittedUnder, Settled;
    var allowed, admitted := AllowedProcesses(calls, s, k), AdmittedUnder(Ordered(calls, s.log), k);
    forall p | p in allowed ensures exists i :: i in admitted && i < |s.log| && s.log[i] == p {
      var i := AllowedIsAdmitted(calls, s, k, p);
    }
    DistinctEntries(s.log, allowed, admitted);
    if Settled(s) {
      forall i | i in admitted ensures i < |s.log| && s.log[i] in allowed {
        AdmittedIsAllowed(calls, s, k, i);
      }
      DistinctPlaces(s.log, allowed, admitted);
    }
  }

  // However the steps of the processes interleave, without an intrusion no more processes are
  // allowed under a key than the calls, taken in the order in which they are decided, admit; so the
  // limit is kept exactly when that order leads to no excess, as one in bucket order never does.
  lemma LimitHoldsAcrossProcesses(calls: seq<Call>, schedule: seq<Step>, k: Key, limit: nat)
    requires Reach(calls, schedule).Some? && !Reach(calls, schedule).value.intruded
    requires forall p :: 0 <= p < |calls| && KeyOf(calls[p]) == k ==> calls[p].requests <= limit
    ensures var s := Reach(calls, schedule).value;
            && Logged(calls, s)
            && var order, allowed := Ordered(calls, s.log), |AllowedProcesses(calls, s, k)|;
               && allowed <= |AdmittedUnder(order, k)|
               && (Settled(s) ==> allowed == |AdmittedUnder(order, k)|)
               && (Settled(s) ==> (allowed <= limit <==> !exists m :: Excess(order, k, limit, m)))
               && ((forall m :: !Excess(order, k, limit, m)) ==> allowed <= limit)
               && (InBucketOrder(order) ==> allowed <= limit)
  {
    hide Reach, KeyOf, Run, AdmittedUnder, InBucketOrder, AllowedProcesses, Settled, Excess;
    QuietRunsAreSerial(calls, schedule);
    var s := Reach(calls, schedule).value;
    var order := Ordered(calls, s.log);
    AllowedAtMostAdmitted(calls, s, k);
    LimitIsKept(order, k, limit);
    if InBucketOrder(order) {
      BucketOrderKeepsLimit(order, k, limit);
    }
  }

  // ----- waiting for the lock -----

  // Every decision falls into the bucket in which its call began.
  ghost predicate Timely(calls: seq<Call>, schedule: seq<Step>) {
    forall n :: 0 <= n < |schedule| && Reach(calls, schedule[..n]).Some? ==>
      match schedule[n]
      case Step(p, Commit) => p < |calls| ==> InOwnBucket(calls[p], Reach(calls, schedule[..n]).value.now)
      case _ => true
  }

  predicate InOwnBucket(c: Call, now: nat) { KeyOf(c).bucket == BucketStart(WindowOf(c), now) }

  lemma BucketRises(window: string, a: nat, b: nat)
    requires a <= b
    ensures BucketStart(window, a) <= BucketStart(window, b)
  {
  }

  // No logged call's bucket lies in the future.
  ghost predicate Past(calls: seq<Call>, s: State)
    requires Logged(calls, s)
  {
    forall i :: 0 <= i < |s.log| ==>
      KeyOf(calls[s.log[i]]).bucket <= BucketStart(WindowOf(calls[s.log[i]]), s.now)
  }

  lemma StepKeepsPast(calls: seq<Call>, s: State, step: Step)
    requires Logged(calls, s) && Enabled(calls, s, step) && Logged(calls, Apply(calls, s, step)) && Past(calls, s)
    requires step.Step? && step.action.Commit? ==> InOwnBucket(calls[step.process], s.now)
    ensures Past(calls, Apply(calls, s, step))
  {
    var t := Apply(calls, s, step);
    LogGrows(calls, s, step);
    hide Apply, Enabled, KeyOf, WindowOf, BucketStart, Logged;
    forall i | 0 <= i < |t.log|
      ensures KeyOf(calls[t.log[i]]).bucket <= BucketStart(WindowOf(calls[t.log[i]]), t.now)
    {
      BucketRises(WindowOf(calls[t.log[i]]), s.now, t.now);
    }
  }

  lemma StepKeepsOrder(calls: seq<Call>, s: State, step: Step)
    requires Logged(calls, s) && Enabled(calls, s, step) && Logged(calls, Apply(calls, s, step))
    requires Past(calls, s) && InBucketOrder(Ordered(calls, s.log))
    requires step.Step? && step.action.Commit? ==> InOwnBucket(calls[step.process], s.now)
    ensures InBucketOrder(Ordered(calls, Apply(calls, s, step).log))
  {
    LogGrows(calls, s, step);
    if step.Step? && step.action.Commit? {
      StepInRange(calls, s, step);
      CommitKeepsOrder(calls, s, step.process);
      hide Apply, InBucketOrder;
      assert Apply(calls, s, step).log == s.log + [step.process];
    }
  }

  lemma CommitKeepsOrder(calls: seq<Call>, s: State, p: nat)
    requires Logged(calls, s) && Past(calls, s) && InBucketOrder(Ordered(calls, s.log))
    requires p < |calls| && InOwnBucket(calls[p], s.now)
    ensures forall i :: 0 <= i < |s.log + [p]| ==> (s.log + [p])[i] < |calls|
    ensures InBucketOrder(Ordered(calls, s.log + [p]))
  {
    hide KeyOf, WindowOf, BucketStart, InBucketOrder;
    assert Ordered(calls, s.log + [p]) == Ordered(calls, s.log) + [calls[p]];
    OrderedSnoc(Ordered(calls, s.log), calls[p]);
  }

  lemma OrderedSnoc(front: seq<Call>, c: Call)
    requires InBucketOrder(front)
    requires forall i :: 0 <= i < |front| && WindowOf(front[i]) == WindowOf(c) ==>
               KeyOf(front[i]).bucket <= KeyOf(c).bucket
    ensures InBucketOrder(front + [c])
  {
    hide KeyOf, WindowOf, Counted;
    var more := front + [c];
    forall i, j | 0 <= i < j < |more| && Counted(more[i]) && Counted(more[j]) && WindowOf(more[i]) == WindowOf(more[j])
      ensures KeyOf(more[i]).bucket <= KeyOf(more[j]).bucket
    {
      assert more[i] == front[i];
      if j < |front| {
        assert more[j] == front[j];
      }
    }
  }

  lemma LogGrows(calls: seq<Call>, s: State, step: Step)
    requires |s.phases| == |calls| && Enabled(calls, s, step)
    ensures var t := Apply(calls, s, step);
            && s.now <= t.now
            && t.log == if step.Step? && step.action.Commit? then s.log + [step.process] else s.log
  {
    hide Run, Decide, Admits, After;
  }

  lemma {:induction false} TimelyRunsAreInOrder(calls: seq<Call>, schedule: seq<Step>)
    requires Reach(calls, schedule).Some? && Timely(calls, schedule)
    ensures var s := Reach(calls, schedule).value;
            Logged(calls, s) && Past(calls, s) && InBucketOrder(Ordered(calls, s.log))
  {
    hide Apply, Enabled, Logged, Past, InBucketOrder, InOwnBucket;
    if schedule == [] {
      StartIsInOrder(calls);
    } else {
      var front, step := schedule[..|schedule| - 1], schedule[|schedule| - 1];
      assert forall n :: 0 <= n <= |front| ==> schedule[..n] == front[..n];
      assert forall n :: 0 <= n < |front| ==> schedule[n] == front[n];
      assert front == schedule[..|front|];
      TimelyRunsAreInOrder(calls, front);
      var before := Reach(calls, front).value;
      StepKeepsLog(calls, before, step);
      assert step.Step? && step.action.Commit? ==> step.process < |calls| by { StepInRange(calls, before, step); }
      StepKeepsPast(calls, before, step);
      StepKeepsOrder(calls, before, step);
    }
  }

  lemma StepInRange(calls: seq<Call>, s: State, step: Step)
    requires |s.phases| == |calls| && Enabled(calls, s, step)
    ensures step.Step? ==> step.process < |calls|
  {
  }

  lemma StartIsInOrder(calls: seq<Call>)
    ensures var s := Start(calls); Logged(calls, s) && Past(calls, s) && InBucketOrder(Ordered(calls, s.log))
  {
  }

  // So the limit is kept when nobody intrudes and every call is decided in the bucket it began in.
  lemma TimelyRunsKeepLimit(calls: seq<Call>, schedule: seq<Step>, k: Key, limit: nat)
    requires Reach(calls, schedule).Some? && !Reach(calls, schedule).value.intruded && Timely(calls, schedule)
    requires forall p :: 0 <= p < |calls| && KeyOf(calls[p]) == k ==> calls[p].requests <= limit
    ensures |AllowedProcesses(calls, Reach(calls, schedule).value, k)| <= limit
  {
    hide Reach, KeyOf, AllowedProcesses, Timely, Past, InBucketOrder, Excess;
    TimelyRunsAreInOrder(calls, schedule);
    LimitHoldsAcrossProcesses(calls, schedule, k, limit);
  }

  // ----- schedules that break the limit -----

  lemma ReachSnoc(calls: seq<Call>, schedule: seq<Step>, step: Step)
    requires Reach(calls, schedule).Some? && Enabled(calls, Reach(calls, schedule).value, step)
    ensures Reach(calls, schedule + [step]) == Some(Apply(calls, Reach(calls, schedule).value, step))
  {
    hide Enabled, Apply;
    assert (schedule + [step])[..|schedule|] == schedule;
  }

  lemma PromptSnoc(calls: seq<Call>, schedule: seq<Step>, step: Step)
    requires Prompt(calls, schedule)
    requires Reach(calls, schedule + [step]).Some? && Fresh(Reach(calls, schedule + [step]).value)
    ensures Prompt(calls, schedule + [step])
  {
    hide Reach, Fresh;
    var more := schedule + [step];
    forall n | 0 <= n <= |more| && Reach(calls, more[..n]).Some? ensures Fresh(Reach(calls, more[..n]).value) {
      assert n <= |schedule| ==> more[..n] == schedule[..n];
      assert n > |schedule| ==> more[..n] == more;
    }
  }

  lemma ReachOneMore(calls: seq<Call>, schedule: seq<Step>, step: Step)
    requires Reach(calls, schedule).Some? && Enabled(calls, Reach(calls, schedule).value, step)
    ensures Reach(calls, schedule + [step]) == Some(Apply(calls, Reach(calls, schedule).value, step))
    ensures Prompt(calls, schedule) && Fresh(Apply(calls, Reach(calls, schedule).value, step)) ==>
              Prompt(calls, schedule + [step])
  {
    hide Enabled, Apply, Fresh, Reach, Prompt;
    ReachSnoc(calls, schedule, step);
    if Prompt(calls, schedule) && Fresh(Apply(calls, Reach(calls, schedule).value, step)) {
      PromptSnoc(calls, schedule, step);
    }
  }

  // The answer to a first call under a limit of one.
  function First(c: Call): Decision { Decided(true, 1, 1, 0, ScopeOf(c), ScopeKey(c)) }

  lemma FirstCall(counters: Counters, c: Call)
    requires Counted(c) && c.requests == 1 && CountOf(counters, KeyOf(c)) == 0
    ensures Decide(counters, c) == First(c) && Admits(counters, c)
  {
    hide KeyOf, Malformed, WindowOf, ScopeOf, ScopeKey;
  }

  function Finish(p: nat): seq<Step> { [Step(p, Commit), Step(p, Release)] }

  // A process that read no count under its key is allowed, whatever happened to the file since.
  lemma Finished(calls: seq<Call>, schedule: seq<Step>, counters: Counters, p: nat)
    requires p < |calls| && Counted(calls[p]) && calls[p].requests == 1 && CountOf(counters, KeyOf(calls[p])) == 0
    requires Reach(calls, schedule).Some? && Reach(calls, schedule).value.phases[p] == Read(counters)
    ensures var s := Reach(calls, schedule).value;
            Reach(calls, schedule + Finish(p)) ==
            Some(Moved(s, p, Done(First(calls[p])))
                 .(file := After(counters, calls[p]), lock := None, log := s.log + [p]))
    ensures Prompt(calls, schedule) && Fresh(Reach(calls, schedule).value) ==> Prompt(calls, schedule + Finish(p))
  {
    hide Reach, Decide, Admits, After, KeyOf, Counted, Prompt, First;
    var s := Reach(calls, schedule).value;
    var d := First(calls[p]);
    FirstCall(counters, calls[p]);
    ReachOneMore(calls, schedule, Step(p, Commit));
    ReachOneMore(calls, schedule + [Step(p, Commit)], Step(p, Release));
    assert schedule + [Step(p, Commit)] + [Step(p, Release)] == schedule + Finish(p);
    assert s.phases[p := Leaving(d)][p := Done(d)] == s.phases[p := Done(d)];
  }

  function Enter(p: nat): seq<Step> { [Step(p, Create), Step(p, Load)] }

  lemma Entered(calls: seq<Call>, schedule: seq<Step>, p: nat)
    requires Reach(calls, schedule).Some? && Enabled(calls, Reach(calls, schedule).value, Step(p, Create))
    ensures var s := Reach(calls, schedule).value;
            Reach(calls, schedule + Enter(p)) == Some(Moved(s, p, Read(s.file)).(lock := Some(s.now)))
    ensures Prompt(calls, schedule) ==> Prompt(calls, schedule + Enter(p))
  {
    hide Reach, Prompt;
    var s := Reach(calls, schedule).value;
    ReachOneMore(calls, schedule, Step(p, Create));
    ReachOneMore(calls, schedule + [Step(p, Create)], Step(p, Load));
    assert schedule + [Step(p, Create)] + [Step(p, Load)] == schedule + Enter(p);
    assert s.phases[p := Inside][p := Read(s.file)] == s.phases[p := Read(s.file)];
  }

  lemma ReachNothing(calls: seq<Call>)
    ensures Reach(calls, []) == Some(Start(calls)) && Prompt(calls, [])
  {
  }

  // Processes 0 to n - 1 begin one after the other.
  function BeginAll(n: nat): seq<Step> { if n == 0 then [] else BeginAll(n - 1) + [Step(n - 1, Begin)] }

  lemma {:induction false} AllBegan(calls: seq<Call>, c: Call, n: nat)
    requires n <= |calls| && c.now == 0 && forall i :: 0 <= i < |calls| ==> calls[i] == c
    ensures Reach(calls, BeginAll(n)) ==
            Some(Start(calls).(phases := seq(|calls|, i => if i < n then Waiting else Idle)))
  {
    hide Reach;
    if n == 0 {
      ReachNothing(calls);
      assert seq(|calls|, i => if i < n then Waiting else Idle) == seq(|calls|, i => Idle);
    } else {
      AllBegan(calls, c, n - 1);
      var s := Reach(calls, BeginAll(n - 1)).value;
      ReachOneMore(calls, BeginAll(n - 1), Step(n - 1, Begin));
      assert s.phases[n - 1 := Waiting] == seq(|calls|, i => if i < n then Waiting else Idle);
    }
  }

  // A holder that needs sixteen seconds: a second process takes its lock over, and a limit of one
  // allows both.
  lemma SlowHolderBreaksLimit(c: Call) returns (schedule: seq<Step>)
    requires Counted(c) && c.requests == 1 && c.now == 0
    ensures Reach([c, c], schedule).Some?
    ensures AllowedProcesses([c, c], Reach([c, c], schedule).value, KeyOf(c)) == {0, 1}
  {
    hide Reach, KeyOf, Counted, Prompt, After;
    var calls := [c, c];
    AllBegan(calls, c, 2);
    var a := BeginAll(2);
    Entered(calls, a, 0);
    a := a + Enter(0);
    ReachOneMore(calls, a, Tick(16));
    ReachOneMore(calls, a + [Tick(16)], Step(1, Suspect));
    ReachOneMore(calls, a + [Tick(16)] + [Step(1, Suspect)], Step(1, TakeOver));
    var b := a + [Tick(16)] + [Step(1, Suspect)] + [Step(1, TakeOver)];
    Entered(calls, b, 1);
    Finished(calls, b + Enter(1), map[], 1);
    Finished(calls, b + Enter(1) + Finish(1), map[], 0);
    schedule := b + Enter(1) + Finish(1) + Finish(0);
  }

  // No holder needs long, but one crashes: two processes suspect its lock, and the second removes
  // the lock that the first has just created.
  lemma TwoTakersBreakLimit(c: Call) returns (schedule: seq<Step>)
    requires Counted(c) && c.requests == 1 && c.now == 0
    ensures Reach([c, c, c], schedule).Some?
    ensures AllowedProcesses([c, c, c], Reach([c, c, c], schedule).value, KeyOf(c)) == {1, 2}
  {
    hide Reach, KeyOf, Counted, Prompt, After;
    var calls := [c, c, c];
    var e := TwoTakers(calls, c);
    Finished(calls, e, map[], 1);
    Finished(calls, e + Finish(1), map[], 2);
    schedule := e + Finish(1) + Finish(2);
  }

  lemma TwoTakers(calls: seq<Call>, c: Call) returns (schedule: seq<Step>)
    requires calls == [c, c, c] && c.now == 0
    ensures Reach(calls, schedule).Some?
    ensures var s := Reach(calls, schedule).value;
            s.phases == [Crashed, Read(map[]), Read(map[])] && s.file == map[]
  {
    hide Reach, Prompt;
    var a := CrashedAndSuspected(calls, c);
    ReachOneMore(calls, a, Step(1, TakeOver));
    var b := a + [Step(1, TakeOver)];
    Entered(calls, b, 1);
    ReachOneMore(calls, b + Enter(1), Step(2, TakeOver));
    var d := b + Enter(1) + [Step(2, TakeOver)];
    Entered(calls, d, 2);
    schedule := d + Enter(2);
  }

  lemma CrashedAndSuspected(calls: seq<Call>, c: Call) returns (schedule: seq<Step>)
    requires calls == [c, c, c] && c.now == 0
    ensures Reach(calls, schedule).Some?
    ensures var s := Reach(calls, schedule).value;
            s.phases == [Crashed, Suspecting, Suspecting] && s.file == map[]
  {
    hide Reach, Prompt;
    AllBegan(calls, c, 3);
    Entered(calls, BeginAll(3), 0);
    var a := BeginAll(3) + Enter(0);
    ReachOneMore(calls, a, Step(0, Crash));
    var b := a + [Step(0, Crash)];
    ReachOneMore(calls, b, Tick(16));
    ReachOneMore(calls, b + [Tick(16)], Step(1, Suspect));
    ReachOneMore(calls, b + [Tick(16)] + [Step(1, Suspect)], Step(2, Suspect));
    schedule := b + [Tick(16)] + [Step(1, Suspect)] + [Step(2, Suspect)];
  }

  // The clock never goes back, nobody is slow and nobody intrudes: a process that began a second
  // before the minute is served after one of the new minute, and its late decision makes the
  // limiter forget that one.
  lemma LateWaiterBreaksLimit(a: Call, b: Call) returns (schedule: seq<Step>)
    requires Counted(b) && b.requests == 1 && WindowOf(b) == "minute" && b.now == 60 && a == b.(now := 59)
    ensures var calls := [a, b, b];
            && Reach(calls, schedule).Some? && Prompt(calls, schedule) && !Reach(calls, schedule).value.intruded
            && AllowedProcesses(calls, Reach(calls, schedule).value, KeyOf(b)) == {1, 2}
  {
    hide Reach, KeyOf, Counted, Prompt, After;
    var calls := [a, b, b];
    TwoMinutes(a, b);
    var late := LateDecision(calls, a, b);
    Entered(calls, late, 2);
    Finished(calls, late + Enter(2), After(After(map[], b), a), 2);
    schedule := late + Enter(2) + Finish(2);
  }

  lemma LateDecision(calls: seq<Call>, a: Call, b: Call) returns (schedule: seq<Step>)
    requires calls == [a, b, b] && Counted(a) && Counted(b) && a.requests == b.requests == 1
    requires a.now == 59 && b.now == 60 && CountOf(After(map[], b), KeyOf(a)) == 0
    ensures Reach(calls, schedule).Some? && Prompt(calls, schedule)
    ensures var s := Reach(calls, schedule).value;
            && s.phases == [Done(First(a)), Done(First(b)), Waiting]
            && s.file == After(After(map[], b), a) && s.lock.None? && !s.intruded
  {
    hide Reach, KeyOf, Counted, Prompt, After, First;
    var start := MinuteTurns(calls, a, b);
    Entered(calls, start, 1);
    Finished(calls, start + Enter(1), map[], 1);
    var first := start + Enter(1) + Finish(1);
    Entered(calls, first, 0);
    Finished(calls, first + Enter(0), After(map[], b), 0);
    schedule := first + Enter(0) + Finish(0);
  }

  lemma TwoMinutes(a: Call, b: Call)
    requires Counted(b) && WindowOf(b) == "minute" && b.now == 60 && a == b.(now := 59)
    ensures Counted(a) && KeyOf(a) != KeyOf(b)
    ensures CountOf(After(map[], b), KeyOf(a)) == 0
    ensures CountOf(After(After(map[], b), a), KeyOf(b)) == 0
  {
    CountAfter(map[], b, KeyOf(a));
    CountAfter(After(map[], b), a, KeyOf(b));
  }

  lemma MinuteTurns(calls: seq<Call>, a: Call, b: Call) returns (schedule: seq<Step>)
    requires calls == [a, b, b] && a.now == 59 && b.now == 60
    ensures Reach(calls, schedule) == Some(State(60, None, map[], [Waiting, Waiting, Waiting], [], false))
    ensures Prompt(calls, schedule)
  {
    hide Reach, Prompt;
    ReachNothing(calls);
    ReachOneMore(calls, [], Tick(59));
    var s := [] + [Tick(59)];
    ReachOneMore(calls, s, Step(0, Begin));
    ReachOneMore(calls, s + [Step(0, Begin)], Tick(1));
    s := s + [Step(0, Begin)] + [Tick(1)];
    ReachOneMore(calls, s, Step(1, Begin));
    ReachOneMore(calls, s + [Step(1, Begin)], Step(2, Begin));
    schedule := s + [Step(1, Begin)] + [Step(2, Begin)];
    assert Reach(calls, schedule).value.phases == [Waiting, Waiting, Waiting];
  }
}
