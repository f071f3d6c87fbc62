/** Which calls the rate limiter counts together: tool and identity are joined by a bar that tool
    names may contain, as those of destructive budgets always do. */
module RateKeys {
  import opened RateLimiter
  import opened Strings

  predicate ShareKey(c: Call, d: Call) { Counted(c) && Counted(d) && KeyOf(c) == KeyOf(d) }

  // The second tool name goes on after the first with a bar, and the first identity supplies the rest.
  predicate Continues(a: string, x: string, b: string, y: string) {
    a + "|" <= b && x == b[|a| + 1..] + "|" + y
  }

  lemma JoinedEqualIff(a: string, x: string, b: string, y: string)
    ensures Joined(a, x) == Joined(b, y) <==>
              (a == b && x == y) || Continues(a, x, b, y) || Continues(b, y, a, x)
  {
    if |a| < |b| {
      ContinuesIff(a, x, b, y);
    } else if |b| < |a| {
      ContinuesIff(b, y, a, x);
    } else if Joined(a, x) == Joined(b, y) {
      assert a == Joined(a, x)[..|a|] && b == Joined(b, y)[..|b|];
      assert x == Joined(a, x)[|a| + 1..] && y == Joined(b, y)[|b| + 1..];
    }
  }

  lemma ContinuesIff(a: string, x: string, b: string, y: string)
    requires |a| < |b|
    ensures Joined(a, x) == Joined(b, y) <==> Continues(a, x, b, y)
  {
    if Joined(a, x) == Joined(b, y) {
      var s := Joined(a, x);
      assert a + "|" == s[..|a| + 1] && b == s[..|b|];
      assert a + "|" == b[..|a| + 1];
      assert x == s[|a| + 1..];
      assert s[|a| + 1..] == b[|a| + 1..] + "|" + y;
    }
    if Continues(a, x, b, y) {
      assert b == a + "|" + b[|a| + 1..];
      assert a + "|" + x == a + "|" + b[|a| + 1..] + ("|" + y);
    }
  }

  // Calls counted together agree on window and scope, and on tool, identity or, unless one tool
  // name continues the other past a bar, both.
  lemma KeysSeparateCallers(c: Call, d: Call)
    requires Counted(c) && KeyOf(c) == KeyOf(d)
    ensures WindowOf(c) == WindowOf(d) && ScopeOf(c) == ScopeOf(d)
    ensures BucketStart(WindowOf(c), c.now) == BucketStart(WindowOf(c), d.now)
    ensures ScopeOf(c) == "tool" ==> ToolOf(c.intent) == ToolOf(d.intent)
    ensures ScopeOf(c) == "identity" ==> IdentityOf(c.intent) == IdentityOf(d.intent)
    ensures ScopeOf(c) == "tool_identity" ==>
              var a, x, b, y := ToolOf(c.intent), IdentityOf(c.intent), ToolOf(d.intent), IdentityOf(d.intent);
              a == b && x == y <==> !Continues(a, x, b, y) && !Continues(b, y, a, x)
  {
    hide WindowOf, ScopeOf, BucketStart, ToolOf, IdentityOf, Joined;
    JoinedEqualIff(ToolOf(c.intent), IdentityOf(c.intent), ToolOf(d.intent), IdentityOf(d.intent));
  }

  // Where only the tool or only the identity counts, sharing it is enough.
  lemma SharedKeyIff(c: Call, d: Call)
    requires Counted(c) && Counted(d) && ScopeOf(c) == ScopeOf(d) && WindowOf(c) == WindowOf(d)
    requires BucketStart(WindowOf(c), c.now) == BucketStart(WindowOf(d), d.now)
    ensures ScopeOf(c) == "tool" ==> (ShareKey(c, d) <==> ToolOf(c.intent) == ToolOf(d.intent))
    ensures ScopeOf(c) == "identity" ==>
              (ShareKey(c, d) <==> TrimSpace(c.intent.identity) == TrimSpace(d.intent.identity))
  {
    hide ScopeOf, WindowOf, BucketStart, ToolOf, TrimSpace, Counted;
  }

  function WithIdentity(c: Call, identity: string): Call { c.(intent := c.intent.(identity := identity)) }

  // A tool name that goes on after a with a bar and, if anything, no space.
  predicate Extends(a: string, b: string) { a + "|" <= b && (|b| > |a| + 1 ==> !IsSpace(b[|a| + 1])) }

  lemma IdentityChanges(c: Call, x: string)
    requires Counted(c) && ScopeOf(c) == "tool_identity"
    ensures Counted(WithIdentity(c, x)) <==> TrimSpace(x) != ""
    ensures KeyOf(WithIdentity(c, x)) ==
            Key(WindowOf(c), "tool_identity", BucketStart(WindowOf(c), c.now), Joined(ToolOf(c.intent), TrimSpace(x)))
  {
    hide ToLower, TrimSpace, BucketStart;
  }

  lemma CollideAt(c: Call, d: Call, x: string, y: string)
    requires Counted(c) && Counted(d) && ScopeOf(c) == ScopeOf(d) == "tool_identity" && WindowOf(c) == WindowOf(d)
    requires BucketStart(WindowOf(c), c.now) == BucketStart(WindowOf(d), d.now)
    ensures ShareKey(WithIdentity(c, x), WithIdentity(d, y)) <==>
              && TrimSpace(x) != "" && TrimSpace(y) != ""
              && Joined(ToolOf(c.intent), TrimSpace(x)) == Joined(ToolOf(d.intent), TrimSpace(y))
  {
    hide ToolOf, ScopeOf, WindowOf, BucketStart, KeyOf, Counted, WithIdentity, TrimSpace, Joined;
    IdentityChanges(c, x);
    IdentityChanges(d, y);
  }

  // A trimmed identity that carries one tool on to the other shows that the name extends.
  lemma ContinuesExtends(a: string, x: string, b: string, y: string)
    requires Continues(a, x, b, y) && TrimmedBy(IsSpace, x)
    ensures Extends(a, b)
  {
    if |b| > |a| + 1 {
      assert x[0] == b[|a| + 1];
    }
  }

  lemma ExtendsContinues(a: string, b: string) returns (x: string)
    requires Extends(a, b)
    ensures TrimSpace(x) == x != "" && Continues(a, x, b, "u")
  {
    x := b[|a| + 1..] + "|" + "u";
    assert x[|x| - 1] == 'u' && (x[0] == '|' || x[0] == b[|a| + 1]);
  }

  lemma PlainIdentity()
    ensures TrimSpace("u") == "u"
  {
  }

  // Under the scope tool_identity two tools share a key for some identities exactly when they are
  // the same or one name extends the other.
  lemma ToolsCollideIff(c: Call, d: Call)
    requires Counted(c) && Counted(d) && ScopeOf(c) == ScopeOf(d) == "tool_identity" && WindowOf(c) == WindowOf(d)
    requires BucketStart(WindowOf(c), c.now) == BucketStart(WindowOf(d), d.now)
    ensures var a, b := ToolOf(c.intent), ToolOf(d.intent);
            (exists x, y :: ShareKey(WithIdentity(c, x), WithIdentity(d, y))) <==>
              a == b || Extends(a, b) || Extends(b, a)
  {
    hide ToolOf, ScopeOf, WindowOf, BucketStart, WithIdentity, ShareKey, Extends, Continues, Counted, Joined, IsSpace;
    var a, b := ToolOf(c.intent), ToolOf(d.intent);
    PlainIdentity();
    if x, y :| ShareKey(WithIdentity(c, x), WithIdentity(d, y)) {
      CollideAt(c, d, x, y);
      JoinedEqualIff(a, TrimSpace(x), b, TrimSpace(y));
      if Continues(a, TrimSpace(x), b, TrimSpace(y)) {
        ContinuesExtends(a, TrimSpace(x), b, TrimSpace(y));
      } else if Continues(b, TrimSpace(y), a, TrimSpace(x)) {
        ContinuesExtends(b, TrimSpace(y), a, TrimSpace(x));
      }
    }
    if a == b {
      CollideAt(c, d, "u", "u");
    } else if Extends(a, b) {
      var x := ExtendsContinues(a, b);
      JoinedEqualIff(a, x, b, "u");
      CollideAt(c, d, x, "u");
    } else if Extends(b, a) {
      var y := ExtendsContinues(b, a);
      JoinedEqualIff(a, "u", b, y);
      CollideAt(c, d, "u", y);
    }
  }

  // ----- destructive budgets -----

  const BUDGET := "destructive_budget"

  // The intent a destructive budget is counted with.
  function BudgetIntent(intent: Intent): Intent {
    intent.(toolName := BUDGET + "|" + TrimSpace(intent.toolName))
  }

  lemma BudgetWord()
    ensures LowerWord(BUDGET) && LowerWord(BUDGET + "|") && |BUDGET + "|"| == 19 && '|' !in BUDGET
  {
  }

  lemma BudgetTool(intent: Intent)
    requires !intent.script && ToolOf(intent) != ""
    ensures ToolOf(BudgetIntent(intent)) == BUDGET + "|" + ToolOf(intent)
  {
    var t, w := TrimSpace(intent.toolName), BUDGET + "|";
    BudgetWord();
    LowerOfJoin(w, t);
    assert TrimSpace(w + t) == w + t by { JoinIsTrimmed(w, t); }
    assert BUDGET + "|" + t == w + t;
    PlainWord(w);
  }

  lemma LowerOfJoin(w: string, t: string)
    ensures ToLower(w + t) == ToLower(w) + ToLower(t)
    ensures ToLower(t) == "" <==> t == ""
  {
  }

  lemma JoinIsTrimmed(w: string, t: string)
    requires Word(w) && Word(t)
    ensures TrimSpace(w + t) == w + t
  {
    assert (w + t)[0] == w[0] && (w + t)[|w + t| - 1] == t[|t| - 1];
  }

  // What one evaluation spends: its own two calls share a counter, given the same scope, window
  // and bucket, exactly when tools do not count or the intent is a script.
  lemma BudgetSharesOwnKeyIff(c: Call, b: Call)
    requires Counted(c) && b.intent == BudgetIntent(c.intent)
    requires ScopeOf(c) == ScopeOf(b) && WindowOf(c) == WindowOf(b)
    requires BucketStart(WindowOf(c), c.now) == BucketStart(WindowOf(b), b.now)
    ensures KeyOf(c) == KeyOf(b) <==> ScopeOf(c) == "identity" || c.intent.script
  {
    hide ScopeOf, WindowOf, BucketStart, TrimSpace, ToLower;
    if !c.intent.script {
      BudgetTool(c.intent);
      BudgetWord();
      assert |ToolOf(b.intent)| == 19 + |ToolOf(c.intent)|;
      assert IdentityOf(b.intent) == IdentityOf(c.intent);
    }
  }

  // So the very first destructive script under a limit of one and a budget of one is refused: its
  // rate-limit call has used up the counter its budget call asks.
  lemma FirstScriptIsRefused(c: Call, b: Call)
    requires c.intent.script && c.requests == b.requests == 1 && Counted(c)
    requires b == c.(intent := BudgetIntent(c.intent), requests := 1)
    ensures Decide(map[], c).Decided? && Decide(map[], c).allowed
    ensures Decide(After(map[], c), b) == Decided(false, 1, 1, 0, ScopeOf(c), ScopeKey(c))
  {
    hide ToLower, TrimSpace, BucketStart;
    BudgetSharesOwnKeyIff(c, b);
  }

  lemma BudgetBar(s: string)
    requires '|' !in s
    ensures var t := BUDGET + "|" + s;
            forall i :: 0 <= i < |t| ==> (t[i] == '|' <==> i == |BUDGET|)
  {
    BudgetWord();
    var t := BUDGET + "|" + s;
    assert forall i :: 0 <= i < |BUDGET| ==> t[i] == BUDGET[i];
    assert forall i :: |BUDGET| < i < |t| ==> t[i] == s[i - |BUDGET| - 1];
  }

  lemma ContinuesAtBar(a: string, x: string, b: string, y: string)
    requires Continues(a, x, b, y)
    ensures |a| < |b| && b[|a|] == '|' && a == b[..|a|]
  {
    assert b[|a|] == (a + "|")[|a|];
  }

  lemma TwoBudgets(s: string, x: string, t: string, y: string)
    requires '|' !in s && '|' !in t && Joined(BUDGET + "|" + s, x) == Joined(BUDGET + "|" + t, y)
    ensures s == t && x == y
  {
    hide Continues, Joined;
    var a, b := BUDGET + "|" + s, BUDGET + "|" + t;
    JoinedEqualIff(a, x, b, y);
    BudgetBar(s);
    BudgetBar(t);
    if Continues(a, x, b, y) {
      ContinuesAtBar(a, x, b, y);
    } else if Continues(b, y, a, x) {
      ContinuesAtBar(b, y, a, x);
    } else {
      assert s == a[|BUDGET| + 1..] && t == b[|BUDGET| + 1..];
    }
  }

  lemma BudgetAndTool(s: string, x: string, t: string, y: string)
    requires '|' !in s && '|' !in t && Joined(BUDGET + "|" + s, x) == Joined(t, y)
    ensures t == BUDGET
  {
    hide Continues, Joined;
    var a := BUDGET + "|" + s;
    BudgetBar(s);
    JoinedEqualIff(a, x, t, y);
    assert a[|BUDGET|] == '|';
    if Continues(t, y, a, x) {
      ContinuesAtBar(t, y, a, x);
      assert BUDGET == a[..|BUDGET|];
    } else if Continues(a, x, t, y) {
      ContinuesAtBar(a, x, t, y);
    }
  }

  // For tools without a bar, budgets of different tools do not meet, nor does a budget meet a rate
  // limit, but for that of a tool called destructive_budget.
  lemma BudgetsAreSeparate(b: Call, i: Intent, e: Call, j: Intent)
    requires ShareKey(b, e) && ScopeOf(b) != "identity" && b.intent == BudgetIntent(i) && !i.script
    requires '|' !in ToolOf(i) && '|' !in ToolOf(j) && ToolOf(i) != "" && ToolOf(j) != ""
    ensures e.intent == BudgetIntent(j) && !j.script ==> ToolOf(i) == ToolOf(j)
    ensures e.intent == j ==> ScopeOf(b) == "tool_identity" && ToolOf(j) == BUDGET
  {
    hide ScopeOf, WindowOf, BucketStart, ToolOf, IdentityOf, Joined, Continues;
    BudgetTool(i);
    BudgetBar(ToolOf(i));
    assert ToolOf(b.intent)[|BUDGET|] == '|';
    if e.intent == BudgetIntent(j) && !j.script {
      BudgetTool(j);
      if ScopeOf(b) == "tool_identity" {
        TwoBudgets(ToolOf(i), IdentityOf(b.intent), ToolOf(j), IdentityOf(e.intent));
      } else {
        assert ToolOf(i) == ToolOf(b.intent)[|BUDGET| + 1..] == ToolOf(j);
      }
    }
    if e.intent == j {
      if ScopeOf(b) == "tool_identity" {
        BudgetAndTool(ToolOf(i), IdentityOf(b.intent), ToolOf(j), IdentityOf(e.intent));
      }
    }
  }

  // That one meets it when its identity supplies the budget's tool.
  lemma BudgetMeetsTool(b: Call, i: Intent, e: Call)
    requires Counted(b) && Counted(e) && b.intent == BudgetIntent(i) && !i.script && ToolOf(i) != ""
    requires ScopeOf(b) == ScopeOf(e) == "tool_identity" && WindowOf(b) == WindowOf(e)
    requires BucketStart(WindowOf(b), b.now) == BucketStart(WindowOf(e), e.now)
    requires ToolOf(e.intent) == BUDGET
    ensures ShareKey(b, e) <==> IdentityOf(e.intent) == Joined(ToolOf(i), IdentityOf(i))
  {
    hide ScopeOf, WindowOf, BucketStart, ToolOf;
    BudgetTool(i);
    var x, y := Joined(ToolOf(i), IdentityOf(i)), IdentityOf(e.intent);
    assert Joined(BUDGET + "|" + ToolOf(i), IdentityOf(i)) == Joined(BUDGET, x);
    JoinedEqualIff(BUDGET, x, BUDGET, y);
  }

  // The budget of the tool rm for alice, and a tool called destructive_budget for rm|alice.
  lemma BudgetCollision(b: Call, e: Call)
    requires b == Call(1, "", "", BudgetIntent(Intent("rm", false, "alice", true)), 0, Works)
    requires e == Call(1, "", "", Intent("destructive_budget", false, "rm|alice", true), 0, Works)
    ensures ShareKey(b, e) && ToolOf(b.intent) != ToolOf(e.intent)
  {
    var i := Intent("rm", false, "alice", true);
    BudgetNames(i, e.intent);
    BudgetTool(i);
    DefaultCall(b);
    DefaultCall(e);
    hide ToolOf, IdentityOf, BudgetIntent;
    assert |ToolOf(b.intent)| > |BUDGET|;
    assert Counted(b) by { DefaultIsCounted(b); }
    assert Counted(e) by { DefaultIsCounted(e); }
    hide BucketStart, Counted, ShareKey, ScopeOf, WindowOf;
    BudgetMeetsTool(b, i, e);
  }

  lemma DefaultCall(c: Call)
    requires c == Call(1, "", "", c.intent, 0, Works)
    ensures ScopeOf(c) == "tool_identity" && WindowOf(c) == "minute"
  {
    hide ToLower;
    BlankIsTrimmed();
  }

  lemma DefaultIsCounted(c: Call)
    requires c == Call(1, "", "", c.intent, 0, Works) && SoundIntent(c.intent)
    ensures Counted(c)
  {
    hide ScopeOf, WindowOf, SoundIntent;
    DefaultCall(c);
  }

  lemma BudgetNames(i: Intent, j: Intent)
    requires i == Intent("rm", false, "alice", true) && j == Intent("destructive_budget", false, "rm|alice", true)
    ensures ToolOf(i) == "rm" && IdentityOf(i) == "alice" && ToolOf(j) == BUDGET && IdentityOf(j) == "rm|alice"
  {
    hide ToLower, TrimSpace;
    PlainWord("rm");
    PlainWord("alice");
    PlainWord("rm|alice");
    BudgetWord();
    PlainWord(BUDGET);
  }
}
