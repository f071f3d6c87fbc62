/** The state file of the rate limiter: counters under text keys, which every call loads, prunes
    and writes back. */
module RateStore {
  import opened CanonicalList
  import opened Counting
  import opened RateLimiter
  import opened Sequences
  import opened Sorting
  import opened Strings

  datatype Entry = Entry(key: string, count: int)

  datatype StateFile = Missing | Corrupt | Stored(entries: seq<Entry>)

  type TextCounters = map<string, nat>

  // ----- reading and writing the file -----

  // What loading keeps of an entry: nothing under a blank key or without a positive count.
  predicate Good(e: Entry, key: string) { TrimSpace(e.key) == key && key != "" && e.count > 0 }

  function Loaded(entries: seq<Entry>): TextCounters {
    if entries == [] then map[]
    else
      var e := entries[|entries| - 1];
      var before := Loaded(entries[..|entries| - 1]);
      if Good(e, TrimSpace(e.key)) then before[TrimSpace(e.key) := e.count] else before
  }

  // Entry i is the last good one for the key.
  ghost predicate LastGood(entries: seq<Entry>, key: string, i: nat) {
    && i < |entries|
    && key != "" && TrimSpace(entries[i].key) == key && entries[i].count > 0
    && forall j :: i < j < |entries| ==> TrimSpace(entries[j].key) != key || entries[j].count <= 0
  }

  // A key has the count of its last good entry, or none.
  lemma {:induction false} LoadedIff(entries: seq<Entry>, key: string)
    ensures key in Loaded(entries) <==> exists i: nat :: LastGood(entries, key, i)
    ensures forall i: nat :: LastGood(entries, key, i) ==>
              key in Loaded(entries) && Loaded(entries)[key] == entries[i].count
  {
    if entries != [] {
      var n := |entries| - 1;
      LoadedIff(entries[..n], key);
      forall i: nat
        ensures LastGood(entries, key, i) <==> if Good(entries[n], key) then i == n else LastGood(entries[..n], key, i)
      {
        LastGoodSnoc(entries, key, i);
      }
      hide LastGood, TrimSpace;
      if Good(entries[n], key) {
        assert LastGood(entries, key, n);
      }
    }
  }

  lemma LastGoodSnoc(entries: seq<Entry>, key: string, i: nat)
    requires entries != []
    ensures var n := |entries| - 1;
            LastGood(entries, key, i) <==> if Good(entries[n], key) then i == n else LastGood(entries[..n], key, i)
  {
    hide TrimSpace;
    var less := entries[..|entries| - 1];
    assert forall j :: 0 <= j < |less| ==> less[j] == entries[j];
  }

  // The counters worth writing.
  function Worth(counters: TextCounters): set<string> {
    set key | key in counters && TrimSpace(key) != "" && counters[key] > 0
  }

  // The file lists those in the order of their keys.
  ghost predicate Written(entries: seq<Entry>, counters: TextCounters) {
    var keys := Canon(Worth(counters));
    && |entries| == |keys|
    && forall i :: 0 <= i < |keys| ==> keys[i] in counters && entries[i] == Entry(keys[i], counters[keys[i]])
  }

  lemma WorthIsCounted(counters: TextCounters)
    ensures forall key :: key in Worth(counters) ==> key in counters
  {
  }

  // What survives writing and reading back.
  ghost predicate Storable(counters: TextCounters) {
    forall key :: key in counters ==> TrimSpace(key) == key && key != "" && counters[key] > 0
  }

  lemma WrittenEntry(entries: seq<Entry>, counters: TextCounters, i: nat)
    requires Written(entries, counters) && i < |entries|
    ensures var key := entries[i].key;
            && key in counters && TrimSpace(key) != "" && counters[key] > 0 && entries[i].count == counters[key]
    ensures forall j :: 0 <= j < |entries| && j != i ==> entries[j].key != entries[i].key
  {
    hide TrimSpace;
    var keys := Canon(Worth(counters));
    assert Lists(keys, Worth(counters));
    assert keys[i] in Worth(counters);
  }

  // The file holds an entry for each counter worth keeping and no other, in the order of the keys.
  lemma WrittenIff(entries: seq<Entry>, counters: TextCounters, e: Entry)
    requires Written(entries, counters)
    ensures e in entries <==>
              e.key in counters && TrimSpace(e.key) != "" && counters[e.key] > 0 && e.count == counters[e.key]
    ensures forall i, j :: 0 <= i < j < |entries| ==>
              entries[i].key != entries[j].key && Leq(entries[i].key, entries[j].key)
  {
    hide TrimSpace;
    var keys := Canon(Worth(counters));
    CanonLists(Worth(counters));
    if e in entries {
      var i :| 0 <= i < |entries| && entries[i] == e;
      WrittenEntry(entries, counters, i);
    }
    if e.key in Worth(counters) && e.count == counters[e.key] {
      var i := WrittenKey(entries, counters, e.key);
      assert entries[i] == e;
    }
  }

  lemma WrittenKey(entries: seq<Entry>, counters: TextCounters, key: string) returns (i: nat)
    requires Written(entries, counters) && key in Worth(counters)
    ensures i < |entries| && entries[i].key == key
  {
    hide TrimSpace, Worth;
    var keys := Canon(Worth(counters));
    assert Lists(keys, Worth(counters));
    i :| 0 <= i < |keys| && keys[i] == key;
  }

  // Reading back what was written gives the counters again exactly when every key is trimmed and
  // not blank and every count positive.
  lemma RoundTripIff(entries: seq<Entry>, counters: TextCounters)
    requires Written(entries, counters)
    ensures Loaded(entries) == counters <==> Storable(counters)
  {
    hide Written, Loaded, TrimSpace;
    if Loaded(entries) == counters {
      forall key | key in counters ensures TrimSpace(key) == key && key != "" && counters[key] > 0 {
        LoadedIff(entries, key);
        var i: nat :| LastGood(entries, key, i);
        TrimmedOnce(entries[i].key);
      }
    }
    if Storable(counters) {
      forall key ensures key in Loaded(entries) <==> key in counters
                 ensures key in counters ==> Loaded(entries)[key] == counters[key]
      {
        LoadedAgrees(entries, counters, key);
      }
    }
  }

  lemma LoadedAgrees(entries: seq<Entry>, counters: TextCounters, key: string)
    requires Written(entries, counters) && Storable(counters)
    ensures key in Loaded(entries) <==> key in counters
    ensures key in counters ==> Loaded(entries)[key] == counters[key]
  {
    hide Written, Loaded, TrimSpace;
    LoadedIff(entries, key);
    if key in counters {
      var i := WrittenKey(entries, counters, key);
      WrittenEntry(entries, counters, i);
      forall j | i < j < |entries| ensures !Good(entries[j], key) {
        WrittenEntry(entries, counters, j);
      }
      assert LastGood(entries, key, i);
    }
    if i: nat :| LastGood(entries, key, i) {
      WrittenEntry(entries, counters, i);
    }
  }

  // ----- text keys -----

  // strings.SplitN
  function SplitN(s: string, c: char, n: nat): seq<string>
    requires n > 0
  {
    var i := IndexOf(s, c);
    if n == 1 || i == |s| then [s] else [s[..i]] + SplitN(s[i + 1..], c, n - 1)
  }

  function TextKey(k: Key, stamp: int -> string): string {
    k.window + "|" + k.scope + "|" + stamp(k.bucket) + "|" + k.scopeKey
  }

  // The time format gives different texts for different buckets, none with a bar.
  ghost predicate Stamps(stamp: int -> string) {
    && (forall a, b :: stamp(a) == stamp(b) ==> a == b)
    && forall a :: '|' !in stamp(a)
  }

  // A key the limiter counts under.
  predicate SoundKey(k: Key) {
    KnownWindow(k.window) && KnownScope(k.scope) && TrimSpace(k.scopeKey) == k.scopeKey && k.scopeKey != ""
  }

  predicate Stays(text: string, window: string, bucket: string) {
    var parts := SplitN(text, '|', 4);
    |parts| == 4 && (parts[0] != window || parts[2] == bucket)
  }

  function Pruned(counters: TextCounters, window: string, bucket: string): TextCounters {
    map text | text in counters && Stays(text, window, bucket) :: counters[text]
  }

  lemma {:induction false} IndexAfter(a: string, c: char, rest: string)
    requires c !in a
    ensures IndexOf(a + [c] + rest, c) == |a|
  {
    if a != "" {
      IndexAfter(a[1..], c, rest);
      assert (a + [c] + rest)[1..] == a[1..] + [c] + rest;
    }
  }

  lemma SplitFirst(a: string, rest: string, n: nat)
    requires '|' !in a && n > 1
    ensures SplitN(a + "|" + rest, '|', n) == [a] + SplitN(rest, '|', n - 1)
  {
    var s := a + "|" + rest;
    IndexAfter(a, '|', rest);
    assert s[..|a|] == a && s[|a| + 1..] == rest;
  }

  lemma SplitTextKey(k: Key, stamp: int -> string)
    requires Stamps(stamp) && KnownWindow(k.window) && KnownScope(k.scope)
    ensures SplitN(TextKey(k, stamp), '|', 4) == [k.window, k.scope, stamp(k.bucket), k.scopeKey]
  {
    hide SplitN;
    NoBars();
    var c := stamp(k.bucket) + "|" + k.scopeKey;
    Regrouped(k.window, k.scope, stamp(k.bucket), k.scopeKey);
    SplitFirst(k.window, k.scope + "|" + c, 4);
    SplitFirst(k.scope, c, 3);
    SplitFirst(stamp(k.bucket), k.scopeKey, 2);
    SplitOnce(k.scopeKey);
  }

  lemma Regrouped(a: string, b: string, c: string, d: string)
    ensures a + "|" + b + "|" + c + "|" + d == a + "|" + (b + "|" + (c + "|" + d))
  {
  }

  lemma SplitOnce(s: string)
    ensures SplitN(s, '|', 1) == [s]
  {
  }

  lemma NoBars()
    ensures '|' !in "minute" && '|' !in "hour" && '|' !in "tool" && '|' !in "identity" && '|' !in "tool_identity"
  {
  }

  // Different keys have different texts.
  ghost predicate FourParts(text: string, a: string, b: string, c: string, d: string) {
    '|' !in a && '|' !in b && '|' !in c && text == a + "|" + b + "|" + c + "|" + d
  }

  lemma SplitFour(text: string, a: string, b: string, c: string, d: string)
    requires FourParts(text, a, b, c, d)
    ensures SplitN(text, '|', 4) == [a, b, c, d]
  {
    hide SplitN;
    Regrouped(a, b, c, d);
    SplitFirst(a, b + "|" + (c + "|" + d), 4);
    SplitFirst(b, c + "|" + d, 3);
    SplitFirst(c, d, 2);
    SplitOnce(d);
  }

  lemma CutFirst(s: string, n: nat) returns (head: string, tail: string)
    requires n > 1 && |SplitN(s, '|', n)| > 1
    ensures '|' !in head && s == head + "|" + tail
    ensures SplitN(s, '|', n) == [head] + SplitN(tail, '|', n - 1)
  {
    hide IndexOf;
    var i := IndexOf(s, '|');
    head, tail := s[..i], s[i + 1..];
  }

  lemma FourCuts(text: string) returns (a: string, b: string, c: string, d: string)
    requires |SplitN(text, '|', 4)| == 4
    ensures FourParts(text, a, b, c, d)
  {
    hide SplitN;
    var rest, tail;
    a, rest := CutFirst(text, 4);
    b, tail := CutFirst(rest, 3);
    c, d := CutFirst(tail, 2);
    Regrouped(a, b, c, d);
  }

  // Pruning keeps exactly the keys of four parts that belong to another window or to the bucket.
  lemma StaysIff(text: string, window: string, bucket: string)
    ensures Stays(text, window, bucket) <==>
              exists a, b, c, d :: FourParts(text, a, b, c, d) && (a != window || c == bucket)
  {
    hide SplitN, FourParts;
    if Stays(text, window, bucket) {
      var a, b, c, d := FourCuts(text);
      SplitFour(text, a, b, c, d);
      assert FourParts(text, a, b, c, d);
    }
    if a, b, c, d :| FourParts(text, a, b, c, d) && (a != window || c == bucket) {
      SplitFour(text, a, b, c, d);
    }
  }

  lemma TextKeysDiffer(j: Key, k: Key, stamp: int -> string)
    requires Stamps(stamp) && SoundKey(j) && SoundKey(k)
    ensures TextKey(j, stamp) == TextKey(k, stamp) <==> j == k
  {
    hide SplitN, TextKey, TrimSpace, KnownWindow, KnownScope;
    SplitTextKey(j, stamp);
    SplitTextKey(k, stamp);
    if TextKey(j, stamp) == TextKey(k, stamp) {
      var parts := SplitN(TextKey(j, stamp), '|', 4);
      assert parts[0] == j.window == k.window && parts[1] == j.scope == k.scope;
      assert parts[2] == stamp(j.bucket) == stamp(k.bucket) && parts[3] == j.scopeKey == k.scopeKey;
    }
  }

  lemma TextKeyIsTrimmed(k: Key, stamp: int -> string)
    requires SoundKey(k)
    ensures TrimSpace(TextKey(k, stamp)) == TextKey(k, stamp) && TextKey(k, stamp) != ""
  {
    var text := TextKey(k, stamp);
    assert text[0] == k.window[0] && text[|text| - 1] == k.scopeKey[|k.scopeKey| - 1];
    assert TrimmedBy(IsSpace, k.scopeKey);
    assert TrimmedBy(IsSpace, text);
  }

  // ----- the file holds the counters -----

  // The text counters are the given counters under their text keys.
  ghost predicate Spells(texts: TextCounters, counters: Counters, stamp: int -> string) {
    && (forall k :: k in counters ==>
          SoundKey(k) && counters[k] > 0
          && TextKey(k, stamp) in texts && texts[TextKey(k, stamp)] == counters[k])
    && (forall text :: text in texts ==> exists k :: k in counters && TextKey(k, stamp) == text)
  }

  lemma SpelledCount(texts: TextCounters, counters: Counters, k: Key, stamp: int -> string)
    requires Stamps(stamp) && Spells(texts, counters, stamp) && SoundKey(k)
    ensures CountOf(texts, TextKey(k, stamp)) == CountOf(counters, k)
  {
    hide TextKey, SoundKey, Stamps;
    if TextKey(k, stamp) in texts {
      var j :| j in counters && TextKey(j, stamp) == TextKey(k, stamp);
      TextKeysDiffer(j, k, stamp);
    }
  }

  lemma SpelledPrune(texts: TextCounters, counters: Counters, window: string, bucket: int, stamp: int -> string)
    requires Stamps(stamp) && Spells(texts, counters, stamp)
    ensures Spells(Pruned(texts, window, stamp(bucket)), Prune(counters, window, bucket), stamp)
  {
    hide TextKey, SplitN, TrimSpace, KnownWindow, KnownScope;
    forall k | k in counters
      ensures Stays(TextKey(k, stamp), window, stamp(bucket)) <==> k.window != window || k.bucket == bucket
    {
      SplitTextKey(k, stamp);
    }
    hide Stays, SoundKey;
    var t, m := Pruned(texts, window, stamp(bucket)), Prune(counters, window, bucket);
    forall text | text in t ensures exists k :: k in m && TextKey(k, stamp) == text {
      var k :| k in counters && TextKey(k, stamp) == text;
      assert k in m;
    }
  }

  lemma SpelledUpdate(texts: TextCounters, counters: Counters, k: Key, count: nat, stamp: int -> string)
    requires Stamps(stamp) && Spells(texts, counters, stamp) && SoundKey(k) && count > 0
    ensures Spells(texts[TextKey(k, stamp) := count], counters[k := count], stamp)
  {
    hide TextKey, SoundKey, Stamps;
    var t, m := texts[TextKey(k, stamp) := count], counters[k := count];
    forall j | j in m ensures TextKey(j, stamp) in t && t[TextKey(j, stamp)] == m[j] {
      assert SoundKey(j);
      TextKeysDiffer(j, k, stamp);
    }
    forall text | text in t ensures exists j :: j in m && TextKey(j, stamp) == text {
      if text != TextKey(k, stamp) {
        var j :| j in counters && TextKey(j, stamp) == text;
        assert j in m;
      } else {
        assert k in m;
      }
    }
  }

  lemma SpelledIsStorable(texts: TextCounters, counters: Counters, stamp: int -> string)
    requires Spells(texts, counters, stamp)
    ensures Storable(texts)
  {
    hide TextKey, SoundKey, TrimSpace;
    forall text | text in texts ensures TrimSpace(text) == text && text != "" && texts[text] > 0 {
      var k :| k in counters && TextKey(k, stamp) == text;
      TextKeyIsTrimmed(k, stamp);
    }
  }

  // A call on the text counters does what the call on the counters does.
  lemma SpelledCall(texts: TextCounters, counters: Counters, c: Call, stamp: int -> string)
    requires Stamps(stamp) && Spells(texts, counters, stamp) && !Malformed(c)
    ensures var k, count := KeyOf(c), CountOf(counters, KeyOf(c));
            var kept := Pruned(texts, WindowOf(c), stamp(k.bucket));
            && CountOf(kept, TextKey(k, stamp)) == count
            && Spells(kept[TextKey(k, stamp) := count + 1],
                      Prune(counters, WindowOf(c), k.bucket)[k := count + 1], stamp)
  {
    hide TextKey, SoundKey, Malformed, KeyOf, Stamps, Spells, Pruned;
    var k := KeyOf(c);
    CountedKeyIsSound(c);
    SpelledPrune(texts, counters, WindowOf(c), k.bucket, stamp);
    var kept, rest := Pruned(texts, WindowOf(c), stamp(k.bucket)), Prune(counters, WindowOf(c), k.bucket);
    SpelledCount(kept, rest, k, stamp);
    SpelledUpdate(kept, rest, k, CountOf(counters, k) + 1, stamp);
  }

  lemma SpelledFile(entries: seq<Entry>, texts: TextCounters, counters: Counters, stamp: int -> string)
    requires Written(entries, texts) && Spells(texts, counters, stamp)
    ensures Spells(Loaded(entries), counters, stamp)
  {
    hide Written, Loaded, Spells, Storable;
    SpelledIsStorable(texts, counters, stamp);
    RoundTripIff(entries, texts);
  }

  lemma DiskIsNoKey(c: Call)
    ensures ScopeOf(c.(disk := Works)) == ScopeOf(c) && ScopeKey(c.(disk := Works)) == ScopeKey(c)
  {
  }

  lemma NothingPruned(window: string, bucket: string)
    ensures Pruned(map[], window, bucket) == map[]
  {
  }

  lemma CountedKeyIsSound(c: Call)
    requires !Malformed(c)
    ensures SoundKey(KeyOf(c))
  {
    hide ToLower, BucketStart;
    var tool, identity := ToolOf(c.intent), IdentityOf(c.intent);
    ToolIsTrimmed(c.intent);
    TrimmedOnce(c.intent.identity);
    if ScopeOf(c) == "tool_identity" {
      JoinedIsTrimmed(tool, identity);
    }
  }

  lemma ToolIsTrimmed(intent: Intent)
    ensures TrimSpace(ToolOf(intent)) == ToolOf(intent)
  {
    hide ToLower, TrimSpace;
    PlainWord("script");
    NormalStays(intent.toolName);
    if ToolOf(intent) != "" {
      PlainWord(ToolOf(intent));
    } else {
      BlankIsTrimmed();
    }
  }

  lemma JoinedIsTrimmed(tool: string, identity: string)
    requires TrimSpace(tool) == tool != "" && TrimSpace(identity) == identity != ""
    ensures TrimSpace(Joined(tool, identity)) == Joined(tool, identity)
  {
    var s := Joined(tool, identity);
    assert TrimmedBy(IsSpace, tool) && TrimmedBy(IsSpace, identity);
    assert s[0] == tool[0] && s[|s| - 1] == identity[|identity| - 1];
  }

  // ----- one call -----

  class Store {
    const statePath: string
    const stamp: int -> string
    var file: StateFile

    constructor (statePath: string, stamp: int -> string, file: StateFile)
      ensures this.statePath == statePath && this.stamp == stamp && this.file == file
    {
      this.statePath, this.stamp, this.file := statePath, stamp, file;
    }

    // Without a path nothing is stored and no lock is taken.
    predicate Forgetful() { TrimSpace(statePath) == "" }

    predicate Readable(c: Call)
      reads this
    {
      Forgetful() || (!c.disk.Unreadable? && !file.Corrupt?)
    }

    // The counters a call finds.
    function Found(): TextCounters
      reads this
    {
      if !Forgetful() && file.Stored? then Loaded(file.entries) else map[]
    }

    // The file is what the limiter itself leaves when it has counted so.
    ghost predicate Holds(counters: Counters)
      reads this
    {
      !file.Corrupt? && Spells(if file.Stored? then Loaded(file.entries) else map[], counters, stamp)
    }

    method LoadCounters(c: Call) returns (ok: bool, counters: TextCounters)
      ensures ok <==> Readable(c)
      ensures ok ==> counters == Found()
    {
      counters := map[];
      if Forgetful() {
        return true, counters;
      }
      if c.disk.Unreadable? || file.Corrupt? {
        return false, counters;
      }
      ok := true;
      if file.Stored? {
        var entries := file.entries;
        for n := 0 to |entries|
          invariant counters == Loaded(entries[..n])
        {
          assert entries[..n + 1][..n] == entries[..n];
          var key, count := TrimSpace(entries[n].key), entries[n].count;
          if key == "" || count <= 0 {
            continue;
          }
          counters := counters[key := count];
        }
        assert entries[..|entries|] == entries;
      }
    }

    method PruneCounters(counters: TextCounters, window: string, now: nat) returns (kept: TextCounters)
      ensures kept == Pruned(counters, window, stamp(BucketStart(window, now)))
    {
      var keep := stamp(BucketStart(window, now));
      var keys := KeyList(counters);
      kept := counters;
      for n := 0 to |keys|
        invariant kept ==
          map text | text in counters && (text !in keys[..n] || Stays(text, window, keep)) :: counters[text]
      {
        assert keys[..n + 1] == keys[..n] + [keys[n]];
        if !Stays(keys[n], window, keep) {
          kept := kept - {keys[n]};
        }
      }
      assert keys[..|keys|] == keys;
    }

    method KeysToWrite(counters: TextCounters) returns (keys: seq<string>)
      ensures keys == Canon(Worth(counters))
    {
      hide TrimSpace, Canon;
      var all := KeyList(counters);
      keys := [];
      for n := 0 to |all|
        invariant Distinct(keys) && forall key :: key in keys <==> key in all[..n] && key in Worth(counters)
      {
        assert all[n] !in all[..n];
        assert all[..n + 1] == all[..n] + [all[n]];
        if TrimSpace(all[n]) == "" || counters[all[n]] <= 0 {
          continue;
        }
        keys := keys + [all[n]];
      }
      hide Worth;
      assert all[..|all|] == all;
      SortLists(keys, Worth(counters));
      keys := SortBy(Leq, keys);
      CanonIs(keys, Worth(counters));
    }

    method WriteCounters(c: Call, counters: TextCounters) returns (ok: bool)
      modifies this
      ensures ok <==> Forgetful() || c.disk.Works?
      ensures !ok || Forgetful() ==> file == old(file)
      ensures ok && !Forgetful() ==> file.Stored? && Written(file.entries, counters)
    {
      hide TrimSpace, Canon, Worth;
      if Forgetful() {
        return true;
      }
      var keys := KeysToWrite(counters);
      WorthIsCounted(counters);
      CanonLists(Worth(counters));
      var entries: seq<Entry> := [];
      for n := 0 to |keys|
        invariant |entries| == n
        invariant forall i :: 0 <= i < n ==> keys[i] in counters && entries[i] == Entry(keys[i], counters[keys[i]])
      {
        assert keys[n] in Worth(counters);
        entries := entries + [Entry(keys[n], counters[keys[n]])];
      }
      ok := c.disk.Works?;
      if ok {
        file := Stored(entries);
      }
    }

    // The call gets as far as counting.
    predicate Counts(c: Call)
      reads this
    {
      !Unlimited(c) && !Malformed(c) && Readable(c)
    }

    // The call as it runs: without a path the disk does not matter.
    function Seen(c: Call): Call { if Forgetful() then c.(disk := Works) else c }

    // counters is what has been counted so far, if the file comes from the limiter.
    method EnforceRateLimit(c: Call, ghost counters: Counters) returns (d: Decision)
      requires Stamps(stamp)
      modifies this
      ensures !old(Counts(c)) ==> d == (if Unlimited(c) then NO_LIMIT else Failed) && file == old(file)
      ensures old(Counts(c)) ==>
                var key, kept := TextKey(KeyOf(c), stamp), Pruned(old(Found()), WindowOf(c), stamp(KeyOf(c).bucket));
                && d == Answer(CountOf(kept, key), Seen(c))
                && if d.Decided? && d.allowed && !Forgetful()
                   then file.Stored? && Written(file.entries, kept[key := CountOf(kept, key) + 1])
                   else file == old(file)
      ensures c.requests <= 0 ==> d == Decided(true, 0, 0, 0, "", "") && file == old(file)
      ensures c.requests > 0 && Malformed(c) ==> d == Failed && file == old(file)
      ensures c.requests > 0 && TrimSpace(statePath) != "" && (old(file).Corrupt? || c.disk.Unreadable?) ==>
                d == Failed && file == old(file)
      ensures c.requests > 0 && TrimSpace(statePath) == "" && !Malformed(c) ==>
                d.Decided? && d.allowed && d.used == 1 && file == old(file)
      ensures !Forgetful() && old(Holds(counters)) ==> d == Decide(counters, c) && Holds(After(counters, c))
    {
      hide WindowOf, ScopeOf, ScopeKey, BucketStart, SoundIntent, TrimSpace, KnownWindow, KnownScope, Stamps, Loaded,
        Spells, Written, TextKey, SoundKey, Pruned, Prune;
      if c.requests <= 0 {
        return NO_LIMIT;
      }
      if !SoundIntent(c.intent) {
        return Failed;
      }
      var scope, window := ScopeOf(c), WindowOf(c);
      if !KnownWindow(window) {
        return Failed;
      }
      var bucket := BucketStart(window, c.now);
      if !KnownScope(scope) {
        return Failed;
      }
      var scopeKey := ScopeKey(c);
      var key := TextKey(Key(window, scope, bucket, scopeKey), stamp);
      var ok, loaded := LoadCounters(c);
      if !ok {
        return Failed;
      }
      ghost var held := !Forgetful() && Holds(counters);
      if held {
        SpelledCall(loaded, counters, c, stamp);
      }
      NothingPruned(window, stamp(bucket));
      DiskIsNoKey(c);
      loaded := PruneCounters(loaded, window, c.now);
      var used := CountOf(loaded, key);
      if used >= c.requests {
        return Decided(false, c.requests, used, 0, scope, scopeKey);
      }
      used := used + 1;
      loaded := loaded[key := used];
      ok := WriteCounters(c, loaded);
      if !ok {
        return Failed;
      }
      if held {
        SpelledFile(file.entries, loaded, After(counters, c), stamp);
      }
      d := Decided(true, c.requests, used, c.requests - used, scope, scopeKey);
    }
  }
}
