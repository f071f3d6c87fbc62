/** The rate limiter behind the gate: counters per time bucket, pruned as time goes on. */
module RateLimiter {
  import opened Counting
  import opened Strings

  datatype Key = Key(window: string, scope: string, bucket: int, scopeKey: string)

  type Counters = map<Key, nat>

  // What normalisation of an intent comes to here; sound stands for its checks of everything else.
  datatype Intent = Intent(toolName: string, script: bool, identity: string, sound: bool)

  // Whether the lock is obtained and the state read, and whether the state can be written.
  datatype Disk = Works | Unreadable | Unwritable

  // One call: the policy's limit, the intent, the time in seconds and the state of the disk.
  datatype Call = Call(requests: int, scope: string, window: string, intent: Intent, now: nat, disk: Disk)

  datatype Decision = Failed | Decided(allowed: bool, limit: int, used: int, remaining: int, scope: string, key: string)

  function WindowOf(c: Call): string {
    var w := ToLower(TrimSpace(c.window));
    if w == "" then "minute" else w
  }

  function ScopeOf(c: Call): string {
    var s := ToLower(TrimSpace(c.scope));
    if s == "" then "tool_identity" else s
  }

  predicate KnownWindow(w: string) { w == "minute" || w == "hour" }

  predicate KnownScope(s: string) { s == "tool" || s == "identity" || s == "tool_identity" }

  function BucketStart(window: string, now: nat): int {
    var size := if window == "hour" then 3600 else 60;
    now - now % size
  }

  // A script is one tool, whatever name it was given.
  function ToolOf(intent: Intent): string {
    if intent.script then "script" else ToLower(TrimSpace(intent.toolName))
  }

  function IdentityOf(intent: Intent): string { TrimSpace(intent.identity) }

  predicate SoundIntent(intent: Intent) { intent.sound && ToolOf(intent) != "" && IdentityOf(intent) != "" }

  function Joined(tool: string, identity: string): string { tool + "|" + identity }

  function ScopeKey(c: Call): string {
    var s := ScopeOf(c);
    if s == "tool" then ToolOf(c.intent)
    else if s == "identity" then IdentityOf(c.intent)
    else Joined(ToolOf(c.intent), IdentityOf(c.intent))
  }

  function KeyOf(c: Call): Key {
    Key(WindowOf(c), ScopeOf(c), BucketStart(WindowOf(c), c.now), ScopeKey(c))
  }

  // pruneRateLimitCounters: other buckets of the same window are dropped.
  function Prune(counters: Counters, window: string, bucket: int): Counters {
    map k | k in counters && (k.window != window || k.bucket == bucket) :: counters[k]
  }

  predicate Unlimited(c: Call) { c.requests <= 0 }

  predicate Malformed(c: Call) { !SoundIntent(c.intent) || !KnownWindow(WindowOf(c)) || !KnownScope(ScopeOf(c)) }

  // The call is decided by the counter of its key.
  predicate Counted(c: Call) { !Unlimited(c) && !Malformed(c) && c.disk.Works? }

  // ----- one call on the counters -----

  const NO_LIMIT := Decided(true, 0, 0, 0, "", "")

  // The answer to a call that finds its key counted so often.
  function Answer(used: nat, c: Call): Decision {
    if used >= c.requests then Decided(false, c.requests, used, 0, ScopeOf(c), ScopeKey(c))
    else if c.disk.Unwritable? then Failed
    else Decided(true, c.requests, used + 1, c.requests - (used + 1), ScopeOf(c), ScopeKey(c))
  }

  // The decision, from what the stored counter of the call's own bucket says.
  function Decide(counters: Counters, c: Call): Decision {
    if Unlimited(c) then NO_LIMIT
    else if Malformed(c) || c.disk.Unreadable? then Failed
    else Answer(CountOf(counters, KeyOf(c)), c)
  }

  // What a caller can rely on: what is used and what remains add up to the limit, and a refusal
  // has used it all.
  lemma AnswerAddsUp(counters: Counters, c: Call)
    requires Decide(counters, c).Decided? && c.requests > 0
    ensures var d := Decide(counters, c);
            && d.limit == c.requests
            && (d.allowed ==> d.used == CountOf(counters, KeyOf(c)) + 1 && d.used + d.remaining == d.limit
                              && d.remaining >= 0 && CountOf(After(counters, c), KeyOf(c)) == d.used)
            && (!d.allowed ==> d.used == CountOf(counters, KeyOf(c)) >= d.limit && d.remaining == 0
                               && After(counters, c) == counters)
            && (d.scope == "tool" ==> d.key == ToolOf(c.intent))
            && (d.scope == "identity" ==> d.key == TrimSpace(c.intent.identity))
            && (d.scope == "tool_identity" ==> d.key == ToolOf(c.intent) + "|" + TrimSpace(c.intent.identity))
            && d.scope == KeyOf(c).scope
  {
    hide ToLower, TrimSpace, BucketStart, Prune;
  }

  // The calls that end in an error: one that is refused does not need to write.
  lemma FailsIff(counters: Counters, c: Call)
    ensures Decide(counters, c) == Failed <==>
              c.requests > 0
              && (Malformed(c) || c.disk.Unreadable?
                  || (CountOf(counters, KeyOf(c)) < c.requests && c.disk.Unwritable?))
    ensures c.requests <= 0 ==> Decide(counters, c) == Decided(true, 0, 0, 0, "", "") && After(counters, c) == counters
  {
    hide Malformed, KeyOf;
  }

  // The calls that are not turned away as malformed.
  lemma WellFormedIff(c: Call)
    ensures !Malformed(c) <==>
              && c.intent.sound && TrimSpace(c.intent.identity) != ""
              && (c.intent.script || ToLower(TrimSpace(c.intent.toolName)) != "")
              && ToLower(TrimSpace(c.window)) in {"", "minute", "hour"}
              && ToLower(TrimSpace(c.scope)) in {"", "tool", "identity", "tool_identity"}
  {
    hide ToLower, TrimSpace;
  }

  // What is left blank is counted per minute, and per tool and identity.
  lemma BlankMeansDefault(c: Call)
    ensures KeyOf(c.(window := "")) == KeyOf(c.(window := "minute"))
    ensures KeyOf(c.(scope := "")) == KeyOf(c.(scope := "tool_identity"))
    ensures ToolOf(c.intent.(script := true)) == "script"
    ensures !c.intent.script ==> ToolOf(c.intent) == ToLower(TrimSpace(c.intent.toolName))
  {
    BlankIsTrimmed();
    DefaultWords();
    hide ToLower, TrimSpace;
  }

  lemma DefaultWords()
    ensures ToLower(TrimSpace("minute")) == "minute" && ToLower(TrimSpace("tool_identity")) == "tool_identity"
  {
    hide ToLower, TrimSpace;
    PlainWord("minute");
    PlainWord("tool_identity");
  }

  predicate Admits(counters: Counters, c: Call) {
    Counted(c) && CountOf(counters, KeyOf(c)) < c.requests
  }

  function After(counters: Counters, c: Call): Counters {
    if Admits(counters, c)
    then Prune(counters, WindowOf(c), KeyOf(c).bucket)[KeyOf(c) := CountOf(counters, KeyOf(c)) + 1]
    else counters
  }

  // ----- whole runs -----

  // The counters after a run on one state file that starts with none.
  function Run(calls: seq<Call>): Counters {
    if calls == [] then map[] else After(Run(calls[..|calls| - 1]), calls[|calls| - 1])
  }

  // Call i of the run was counted and admitted.
  predicate Admitted(calls: seq<Call>, i: nat)
    requires i < |calls|
  {
    Admits(Run(calls[..i]), calls[i])
  }

  // The calls admitted under a key: the reference, which forgets nothing.
  function AdmittedUnder(calls: seq<Call>, k: Key): set<nat> {
    set i: nat | i < |calls| && Admitted(calls, i) && KeyOf(calls[i]) == k
  }

  // Call j was admitted in the key's window, but in another bucket.
  predicate Displaces(calls: seq<Call>, j: nat, k: Key)
    requires j < |calls|
  {
    Admitted(calls, j) && WindowOf(calls[j]) == k.window && KeyOf(calls[j]).bucket != k.bucket
  }

  // Some call was admitted under the key, and later one in another bucket of its window.
  ghost predicate Lost(calls: seq<Call>, k: Key) {
    exists i, j :: 0 <= i < j < |calls| && i in AdmittedUnder(calls, k) && Displaces(calls, j, k)
  }


  lemma AdmittedSnoc(calls: seq<Call>, c: Call, k: Key)
    ensures Run(calls + [c]) == After(Run(calls), c)
    ensures forall i :: 0 <= i < |calls| ==> Admitted(calls + [c], i) == Admitted(calls, i)
    ensures Admitted(calls + [c], |calls|) == Admits(Run(calls), c)
    ensures AdmittedUnder(calls + [c], k) ==
            AdmittedUnder(calls, k) + (if Admits(Run(calls), c) && KeyOf(c) == k then {|calls|} else {})
  {
    hide Admits, Run, KeyOf, After;
    var more := calls + [c];
    assert forall i :: 0 <= i <= |calls| ==> more[..i] == calls[..i];
    assert calls[..|calls|] == calls && more[..|calls|] == calls;
    assert forall i :: 0 <= i < |calls| ==> Admitted(more, i) == Admitted(calls, i);
    RunSnoc(calls, c);
  }

  lemma RunSnoc(calls: seq<Call>, c: Call)
    ensures Run(calls + [c]) == After(Run(calls), c)
  {
    hide After;
    assert (calls + [c])[..|calls|] == calls;
  }

  lemma LostSnoc(calls: seq<Call>, c: Call, k: Key)
    ensures Lost(calls + [c], k) <==>
              || Lost(calls, k)
              || (&& AdmittedUnder(calls, k) != {} && Admits(Run(calls), c)
                  && WindowOf(c) == k.window && KeyOf(c).bucket != k.bucket)
  {
    hide Admits, Run, KeyOf, WindowOf, Admitted, AdmittedUnder;
    var more := calls + [c];
    AdmittedSnoc(calls, c, k);
    assert forall i :: 0 <= i < |calls| ==> more[i] == calls[i];
    assert forall i :: i in AdmittedUnder(calls, k) ==> i < |calls| by { AdmittedUnderIsBounded(calls, k); }
    assert forall j :: 0 <= j < |calls| ==> (Displaces(more, j, k) <==> Displaces(calls, j, k));
    assert Displaces(more, |calls|, k) <==>
           Admits(Run(calls), c) && WindowOf(c) == k.window && KeyOf(c).bucket != k.bucket;
    if Lost(more, k) {
      var i, j :| 0 <= i < j < |more| && i in AdmittedUnder(more, k) && Displaces(more, j, k);
      assert i in AdmittedUnder(calls, k);
      if j < |calls| {
        assert Displaces(calls, j, k);
      }
    }
    if Lost(calls, k) {
      var i, j :| 0 <= i < j < |calls| && i in AdmittedUnder(calls, k) && Displaces(calls, j, k);
      assert i in AdmittedUnder(more, k) && Displaces(more, j, k);
    }
    if i :| i in AdmittedUnder(calls, k) {
      assert i in AdmittedUnder(more, k);
    }
  }

  lemma AdmittedUnderIsBounded(calls: seq<Call>, k: Key)
    ensures forall i :: i in AdmittedUnder(calls, k) ==> i < |calls|
  {
  }

  // The stored counter never exceeds the calls admitted under its key, and in every run, whatever
  // the clock does, it is exact precisely when no admission has pushed the key's bucket out.
  lemma {:induction false} CountersRemember(calls: seq<Call>, k: Key)
    ensures CountOf(Run(calls), k) <= |AdmittedUnder(calls, k)|
    ensures CountOf(Run(calls), k) == |AdmittedUnder(calls, k)| <==> !Lost(calls, k)
  {
    hide AdmittedUnder, Admits, KeyOf, Lost, Run, After, WindowOf;
    if calls == [] {
      NothingYet(k);
    } else {
      var front, c := calls[..|calls| - 1], calls[|calls| - 1];
      assert calls == front + [c];
      CountersRemember(front, k);
      AdmittedSnoc(front, c, k);
      LostSnoc(front, c, k);
      CountAfter(Run(front), c, k);
      AdmittedUnderIsBounded(front, k);
    }
  }

  lemma NothingYet(k: Key)
    ensures Run([]) == map[] && AdmittedUnder([], k) == {} && !Lost([], k)
  {
  }

  lemma CountAfter(counters: Counters, c: Call, k: Key)
    ensures CountOf(After(counters, c), k) ==
            if !Admits(counters, c) then CountOf(counters, k)
            else if KeyOf(c) == k then CountOf(counters, k) + 1
            else if WindowOf(c) == k.window && KeyOf(c).bucket != k.bucket then 0
            else CountOf(counters, k)
    ensures KeyOf(c) == k ==> WindowOf(c) == k.window && KeyOf(c).bucket == k.bucket
  {
    hide Admits, WindowOf, ScopeOf, ScopeKey, BucketStart;
  }

  ghost predicate DecidedFully(calls: seq<Call>, k: Key, c: Call) {
    Admits(Run(calls), c) <==> |AdmittedUnder(calls, k)| < c.requests
  }

  // After any run, the next call under a key is decided as by a limiter that forgets nothing,
  // whatever its limit, exactly when the key was not lost.
  lemma LimiterIsExact(calls: seq<Call>, k: Key)
    ensures !Lost(calls, k) <==> forall c :: Counted(c) && KeyOf(c) == k ==> DecidedFully(calls, k, c)
  {
    hide AdmittedUnder, KeyOf, Counted, Run;
    CountersRemember(calls, k);
    if Lost(calls, k) {
      var i :| 0 <= i < |calls| && i in AdmittedUnder(calls, k);
      UnderIsAdmitted(calls, k, i);
      var c := calls[i].(requests := |AdmittedUnder(calls, k)|);
      SameButLimit(calls[i], |AdmittedUnder(calls, k)|);
      assert !DecidedFully(calls, k, c);
    }
  }

  lemma UnderIsAdmitted(calls: seq<Call>, k: Key, i: nat)
    requires i in AdmittedUnder(calls, k)
    ensures i < |calls| && Admitted(calls, i) && Counted(calls[i]) && KeyOf(calls[i]) == k
    ensures |AdmittedUnder(calls, k)| > 0
  {
  }

  lemma SameButLimit(c: Call, limit: nat)
    requires Counted(c) && limit > 0
    ensures Counted(c.(requests := limit)) && KeyOf(c.(requests := limit)) == KeyOf(c)
  {
    hide ToLower, TrimSpace;
  }

  // Call m was admitted under the key although as many as the limit had been admitted before.
  ghost predicate Excess(calls: seq<Call>, k: Key, limit: nat, m: nat) {
    && m in AdmittedUnder(calls, k)
    && m < |calls|
    && Lost(calls[..m], k)
    && |AdmittedUnder(calls[..m], k)| >= limit
  }

  // A key is admitted more often than its limit exactly when that happened after it was lost.
  lemma {:induction false} LimitIsKept(calls: seq<Call>, k: Key, limit: nat)
    requires forall i :: 0 <= i < |calls| && KeyOf(calls[i]) == k ==> calls[i].requests <= limit
    ensures |AdmittedUnder(calls, k)| <= limit <==> !exists m :: Excess(calls, k, limit, m)
  {
    hide AdmittedUnder, KeyOf, Admits, Run, After, Lost, Counted;
    if calls == [] {
      NothingYet(k);
    } else {
      var last := |calls| - 1;
      var front, c := calls[..last], calls[last];
      assert calls == front + [c];
      assert forall i :: 0 <= i < |front| ==> front[i] == calls[i];
      LimitIsKept(front, k, limit);
      AdmittedSnoc(front, c, k);
      AdmittedUnderIsBounded(front, k);
      CountersRemember(front, k);
      if Admits(Run(front), c) && KeyOf(c) == k {
        AdmitsBelow(Run(front), c);
      }
      ExcessSnoc(front, c, k, limit);
    }
  }

  lemma AdmitsBelow(counters: Counters, c: Call)
    requires Admits(counters, c)
    ensures Counted(c) && CountOf(counters, KeyOf(c)) < c.requests
  {
  }

  lemma ExcessSnoc(front: seq<Call>, c: Call, k: Key, limit: nat)
    ensures (exists m :: Excess(front + [c], k, limit, m)) <==>
              || (exists m :: Excess(front, k, limit, m))
              || (Admits(Run(front), c) && KeyOf(c) == k && Lost(front, k) && |AdmittedUnder(front, k)| >= limit)
  {
    hide AdmittedUnder, KeyOf, Admits, Run, Lost;
    var calls := front + [c];
    AdmittedSnoc(front, c, k);
    AdmittedUnderIsBounded(front, k);
    assert calls[..|front|] == front;
    forall m: nat | m < |front| ensures Excess(calls, k, limit, m) <==> Excess(front, k, limit, m) {
      assert calls[..m] == front[..m];
    }
    if m: nat :| Excess(calls, k, limit, m) {
      assert m < |front| ==> Excess(front, k, limit, m);
    }
    if m: nat :| Excess(front, k, limit, m) {
      assert Excess(calls, k, limit, m);
    }
    if Admits(Run(front), c) && KeyOf(c) == k && Lost(front, k) && |AdmittedUnder(front, k)| >= limit {
      assert Excess(calls, k, limit, |front|);
    }
  }

  // ----- the order of the calls -----

  // No counted call comes after one of a later bucket of its window.
  ghost predicate InBucketOrder(calls: seq<Call>) {
    forall i, j :: 0 <= i < j < |calls| && Counted(calls[i]) && Counted(calls[j])
                   && WindowOf(calls[i]) == WindowOf(calls[j]) ==>
      KeyOf(calls[i]).bucket <= KeyOf(calls[j]).bucket
  }

  // Then a key is only ever lost when its bucket is over, so no call finds its own key lost.
  lemma BucketOrderLosesNothing(calls: seq<Call>, m: nat)
    requires InBucketOrder(calls) && m < |calls| && Counted(calls[m])
    ensures !Lost(calls[..m], KeyOf(calls[m]))
  {
    hide KeyOf, WindowOf, Counted, AdmittedUnder, Admitted;
    var front, k := calls[..m], KeyOf(calls[m]);
    if Lost(front, k) {
      var i, j :| 0 <= i < j < |front| && i in AdmittedUnder(front, k) && Displaces(front, j, k);
      UnderIsAdmitted(front, k, i);
      assert Counted(front[j]) by { AdmittedIsCounted(front, j); }
      assert front[i] == calls[i] && front[j] == calls[j];
      KeyWindow(calls[m]);
      assert WindowOf(calls[j]) == WindowOf(calls[m]);
      KeyWindow(calls[i]);
    }
  }

  lemma AdmittedIsCounted(calls: seq<Call>, i: nat)
    requires i < |calls| && Admitted(calls, i)
    ensures Counted(calls[i])
  {
  }

  lemma KeyWindow(c: Call)
    ensures KeyOf(c).window == WindowOf(c)
  {
  }

  lemma BucketOrderKeepsLimit(calls: seq<Call>, k: Key, limit: nat)
    requires InBucketOrder(calls)
    requires forall i :: 0 <= i < |calls| && KeyOf(calls[i]) == k ==> calls[i].requests <= limit
    ensures |AdmittedUnder(calls, k)| <= limit
  {
    hide AdmittedUnder, KeyOf, Lost, Counted, InBucketOrder;
    LimitIsKept(calls, k, limit);
    forall m ensures !Excess(calls, k, limit, m) {
      if Excess(calls, k, limit, m) {
        UnderIsAdmitted(calls, k, m);
        BucketOrderLosesNothing(calls, m);
      }
    }
  }

  // A clock that goes back a minute and returns: the key is lost, and the third call is admitted
  // although the limit of its bucket was reached.
  lemma BackwardClockForgets(c: Call, later: Call)
    requires c == Call(1, "tool", "minute", Intent("t", false, "u", true), 0, Works) && later == c.(now := 60)
    ensures Lost([c, later], KeyOf(c)) && !InBucketOrder([c, later, c])
    ensures |AdmittedUnder([c, later, c], KeyOf(c))| == 2 > c.requests
  {
    PlainCall(c);
    PlainCall(later);
    var calls := [c, later, c];
    assert calls[1] == later && calls[2] == c;
    ForgetfulRun(c, later);
    hide KeyOf, WindowOf, Counted;
    KeyWindow(c);
    KeyWindow(later);
    assert KeyOf(calls[1]).bucket > KeyOf(calls[2]).bucket;
  }

  lemma PlainCall(c: Call)
    requires c == Call(1, "tool", "minute", Intent("t", false, "u", true), c.now, Works)
    ensures Counted(c) && KeyOf(c) == Key("minute", "tool", c.now - c.now % 60, "t")
  {
    WordsStay();
  }

  lemma WordsStay()
    ensures ToLower(TrimSpace("tool")) == "tool" && ToLower(TrimSpace("minute")) == "minute"
    ensures ToLower(TrimSpace("t")) == "t" && TrimSpace("u") == "u"
  {
  }

  lemma ForgetfulRun(c: Call, later: Call)
    requires Counted(c) && Counted(later) && c.requests == later.requests == 1
    requires KeyOf(c) == Key("minute", "tool", 0, "t") && KeyOf(later) == Key("minute", "tool", 60, "t")
    ensures Lost([c, later], KeyOf(c))
    ensures |AdmittedUnder([c, later, c], KeyOf(c))| == 2
  {
    hide KeyOf, WindowOf, Counted, AdmittedUnder, Run, Lost, After;
    var k, q := KeyOf(c), KeyOf(later);
    KeyWindow(c);
    KeyWindow(later);
    NothingYet(k);
    AdmittedSnoc([], c, k);
    CountAfter(Run([]), c, k);
    CountAfter(Run([]), c, q);
    AdmittedSnoc([c], later, k);
    CountAfter(Run([c]), later, k);
    LostSnoc([c], later, k);
    AdmittedSnoc([c, later], c, k);
    assert [] + [c] == [c] && [c] + [later] == [c, later] && [c, later] + [c] == [c, later, c];
  }

  // Two times share a bucket exactly when they are in the same clock minute, or hour.
  lemma BucketsAreClockWindows(window: string, a: nat, b: nat)
    ensures var size := if window == "hour" then 3600 else 60;
            && (BucketStart(window, a) == BucketStart(window, b) <==> a / size == b / size)
            && BucketStart(window, a) % size == 0 && BucketStart(window, a) <= a < BucketStart(window, a) + size
  {
    if window == "hour" {
      WholeHours(a);
      WholeHours(b);
    } else {
      WholeMinutes(a);
      WholeMinutes(b);
    }
  }

  lemma WholeMinutes(t: nat)
    ensures t - t % 60 == 60 * (t / 60) && (t - t % 60) % 60 == 0
  {
  }

  lemma WholeHours(t: nat)
    ensures t - t % 3600 == 3600 * (t / 3600) && (t - t % 3600) % 3600 == 0
  {
  }
}
