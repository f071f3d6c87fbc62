/** Retention sweep of one artifact class in one directory of `gait mcp serve`. */
module Retention {
  import opened CanonicalList
  import opened Sequences
  import opened Sorting
  import opened Strings

  datatype Entry = Entry(isDir: bool, modTime: int, infoFails: bool)

  datatype File = File(name: string, modTime: int)

  // os.Remove: gone (removed, or missing already) or refused.
  datatype Removal = Gone | Denied

  datatype Warning = Silent | Failure | Swept(byAge: nat, byCount: nat)

  datatype Limits = Limits(maxAge: int, maxCount: int)

  // mcpRetentionMatches
  predicate Matches(kind: string, fileName: string) {
    var lowered := ToLower(TrimSpace(fileName));
    match kind
    case "trace" => HasSuffix(lowered, ".json") && Contains(lowered, "trace")
    case "runpack" => HasSuffix(lowered, ".zip") && (HasPrefix(lowered, "runpack_") || Contains(lowered, "_cp_"))
    case "pack" => HasSuffix(lowered, ".zip") && HasPrefix(lowered, "pack_")
    case "session" => HasSuffix(lowered, ".json") || HasSuffix(lowered, ".jsonl") || HasSuffix(lowered, ".state")
    case _ => false
  }

  // The file patterns of the classes; letter case and blanks around the name do not matter.
  lemma MatchesIff(kind: string, fileName: string)
    ensures var name := ToLower(TrimSpace(fileName));
            && (Matches("trace", fileName) <==>
                  (exists a :: name == a + ".json") && (exists a, b :: name == a + "trace" + b))
            && (Matches("runpack", fileName) <==>
                  && (exists a :: name == a + ".zip")
                  && ((exists b :: name == "runpack_" + b) || (exists a, b :: name == a + "_cp_" + b)))
            && (Matches("pack", fileName) <==> (exists a :: name == a + ".zip") && (exists b :: name == "pack_" + b))
            && (Matches("session", fileName) <==>
                  || (exists a :: name == a + ".json")
                  || (exists a :: name == a + ".jsonl")
                  || (exists a :: name == a + ".state"))
    ensures kind !in {"trace", "runpack", "pack", "session"} ==> !Matches(kind, fileName)
  {
    hide HasSuffix, HasPrefix, Contains, ToLower, TrimSpace;
    var name := ToLower(TrimSpace(fileName));
    SuffixIff(name, ".json");
    SuffixIff(name, ".jsonl");
    SuffixIff(name, ".state");
    SuffixIff(name, ".zip");
    SuffixIff(name, "runpack_");
    SuffixIff(name, "pack_");
    ContainsIff(name, "trace");
    ContainsIff(name, "_cp_");
  }

  predicate Governed(kind: string, entries: map<string, Entry>, name: string) {
    name in entries && !entries[name].isDir && Matches(kind, name)
  }

  // Newest first; equal times by descending path.
  predicate NewerFirst(a: File, b: File) {
    a.modTime > b.modTime || (a.modTime == b.modTime && Leq(b.name, a.name))
  }

  lemma NewerFirstOrder(s: seq<File>)
    ensures TotalPreorder(NewerFirst)
    ensures AntisymmetricOn(NewerFirst, s)
  {
    forall x: File, y: File
      ensures (NewerFirst(x, y) || NewerFirst(y, x)) && (NewerFirst(x, y) && NewerFirst(y, x) ==> x == y)
    {
      LeqTotal(x.name, y.name);
    }
    forall x: File, y: File, z: File | NewerFirst(x, y) && NewerFirst(y, z) ensures NewerFirst(x, z) {
      if x.modTime == z.modTime { LeqTransitive(z.name, y.name, x.name); }
    }
  }

  // The files of the class, newest first.
  ghost predicate Newest(files: seq<File>, kind: string, entries: map<string, Entry>) {
    && SortedBy(NewerFirst, files)
    && Distinct(files)
    && (forall f :: f in files <==> Governed(kind, entries, f.name) && f.modTime == entries[f.name].modTime)
  }

  lemma NewestUnique(a: seq<File>, b: seq<File>, kind: string, entries: map<string, Entry>)
    requires Newest(a, kind, entries) && Newest(b, kind, entries)
    ensures a == b
  {
    NewerFirstOrder(a);
    DistinctSameElements(a, b);
    SortedUnique(NewerFirst, a, b);
  }

  // ----- what is kept -----

  predicate Expired(f: File, maxAge: int, now: int) { maxAge > 0 && now - f.modTime > maxAge }

  // How many of the newest files are young enough.
  function AgeCut(files: seq<File>, maxAge: int, now: int): (n: nat)
    ensures n <= |files|
  {
    if files == [] || Expired(files[0], maxAge, now) then 0 else 1 + AgeCut(files[1..], maxAge, now)
  }

  function CountCut(files: seq<File>, maxCount: int): (n: nat)
    ensures n <= |files|
  {
    if 0 < maxCount < |files| then maxCount else |files|
  }

  function Cut(files: seq<File>, limits: Limits, now: int): (n: nat)
    ensures n <= |files|
  {
    var byAge, byCount := AgeCut(files, limits.maxAge, now), CountCut(files, limits.maxCount);
    if byAge < byCount then byAge else byCount
  }

  function Names(files: seq<File>): set<string> { set f | f in files :: f.name }

  // What a sweep that meets no refusal leaves: everything but the tail behind the cut.
  ghost predicate SweptTo(before: map<string, Entry>, after: map<string, Entry>,
                          kind: string, limits: Limits, now: int) {
    exists files :: Newest(files, kind, before) && after == before - Names(files[Cut(files, limits, now)..])
  }

  // In newest-first order age splits the files cleanly.
  lemma {:induction false} AgeSplits(files: seq<File>, maxAge: int, now: int)
    requires SortedBy(NewerFirst, files)
    ensures forall i :: 0 <= i < |files| ==> (Expired(files[i], maxAge, now) <==> AgeCut(files, maxAge, now) <= i)
  {
    if files != [] && !Expired(files[0], maxAge, now) {
      AgeSplits(files[1..], maxAge, now);
      assert forall i :: 1 <= i < |files| ==> files[i] == files[1..][i - 1];
    } else if files != [] {
      assert forall i :: 0 < i < |files| ==> NewerFirst(files[0], files[i]);
    }
  }

  lemma DistinctNames(files: seq<File>, kind: string, entries: map<string, Entry>)
    requires Newest(files, kind, entries)
    ensures forall i, j :: 0 <= i < |files| && 0 <= j < |files| && files[i].name == files[j].name ==> i == j
  {
    forall i, j | 0 <= i < |files| && 0 <= j < |files| && files[i].name == files[j].name ensures i == j {
      assert files[i] in files && files[j] in files;
      assert files[i] == files[j];
    }
  }

  lemma OthersAreNotNamed(files: seq<File>, kind: string, entries: map<string, Entry>, cut: nat)
    requires Newest(files, kind, entries) && cut <= |files|
    ensures forall stop, n :: cut <= stop <= |files| && n in Names(files[cut..stop]) ==>
              n in entries && !entries[n].isDir && Matches(kind, n)
  {
    hide Matches;
    forall stop, n | cut <= stop <= |files| && n in Names(files[cut..stop])
      ensures Governed(kind, entries, n)
    {
      var f :| f in files[cut..stop] && f.name == n;
      assert f in files;
    }
  }

  // ----- the sweep -----

  // What the loop over the directory listing collects.
  ghost predicate Collected(files: seq<File>, kind: string, entries: map<string, Entry>, names: seq<string>) {
    && Distinct(files)
    && (forall f :: f in files <==>
          f.name in names && Governed(kind, entries, f.name) && f.modTime == entries[f.name].modTime)
  }

  lemma NothingCollected(kind: string, entries: map<string, Entry>)
    ensures Collected([], kind, entries, [])
  {
  }

  lemma NotYetListed(listing: seq<string>, i: nat)
    requires Distinct(listing) && i < |listing|
    ensures listing[i] !in listing[..i]
  {
  }

  lemma CollectStep(files: seq<File>, kind: string, entries: map<string, Entry>, names: seq<string>, name: string)
    requires Collected(files, kind, entries, names) && name !in names && name in entries
    ensures var more := if Governed(kind, entries, name) then files + [File(name, entries[name].modTime)] else files;
            Collected(more, kind, entries, names + [name])
  {
    hide Matches;
  }

  lemma SortCollected(files: seq<File>, kind: string, entries: map<string, Entry>, names: seq<string>)
    requires Collected(files, kind, entries, names) && (forall n :: n in names <==> n in entries)
    ensures Newest(SortBy(NewerFirst, files), kind, entries)
  {
    hide Matches;
    NewerFirstOrder(files);
    SortBySorts(NewerFirst, files);
    SameElementsSize(SortBy(NewerFirst, files), files);
    DistinctAfterPermutation(files, SortBy(NewerFirst, files));
  }

  class Directory {
    var entries: map<string, Entry>

    method Collect(kind: string, listing: seq<string>) returns (failed: bool, files: seq<File>)
      requires Distinct(listing) && (forall n :: n in listing <==> n in entries)
      ensures failed <==> exists n :: Governed(kind, entries, n) && entries[n].infoFails
      ensures !failed ==> Newest(files, kind, entries)
    {
      hide Matches, Collected, Newest;
      files := [];
      assert Collected([], kind, entries, []) by { NothingCollected(kind, entries); }
      for i := 0 to |listing|
        invariant Collected(files, kind, entries, listing[..i])
        invariant forall k :: 0 <= k < i && Governed(kind, entries, listing[k]) ==> !entries[listing[k]].infoFails
      {
        var name := listing[i];
        assert name in listing;
        NotYetListed(listing, i);
        CollectStep(files, kind, entries, listing[..i], name);
        assert listing[..i] + [name] == listing[..i + 1];
        if entries[name].isDir || !Matches(kind, name) {
          continue;
        }
        if entries[name].infoFails {
          assert Governed(kind, entries, name);
          return true, [];
        }
        files := files + [File(name, entries[name].modTime)];
      }
      assert listing[..|listing|] == listing;
      SortCollected(files, kind, entries, listing);
      failed, files := false, SortBy(NewerFirst, files);
    }

    // applyMCPServeRetentionClass.  The ghost result is the class's files, newest first; the
    // files from the cut on are removed up to the first one whose removal is refused.
    method ApplyRetentionClass(kind: string, dirGiven: bool, readable: bool, listing: seq<string>,
                               limits: Limits, now: int, removal: string -> Removal)
      returns (warning: Warning, ghost files: seq<File>, ghost stop: nat)
      requires Distinct(listing) && (forall n :: n in listing <==> n in entries)
      modifies this
      ensures !dirGiven || (limits.maxAge <= 0 && limits.maxCount <= 0) ==>
                warning == Silent && entries == old(entries)
      ensures forall n :: n in old(entries) && (old(entries)[n].isDir || !Matches(kind, n)) ==> n in entries
      ensures dirGiven && (limits.maxAge > 0 || limits.maxCount > 0) ==>
                if !readable || (exists n :: Governed(kind, old(entries), n) && old(entries)[n].infoFails)
                then warning == Failure && entries == old(entries)
                else
                  var cut := Cut(files, limits, now);
                  && Newest(files, kind, old(entries))
                  && cut <= stop <= |files|
                  && (forall i :: cut <= i < stop ==> removal(files[i].name) == Gone)
                  && (stop < |files| ==> removal(files[stop].name) == Denied)
                  && entries == old(entries) - Names(files[cut..stop])
                  && warning == (if stop < |files| then Failure
                                 else if cut == |files| then Silent
                                 else Swept(|files| - AgeCut(files, limits.maxAge, now),
                                            |files| - CountCut(files, limits.maxCount)))
    {
      files, stop := [], 0;
      if !dirGiven || (limits.maxAge <= 0 && limits.maxCount <= 0) {
        return Silent, [], 0;
      }
      if !readable {
        return Failure, [], 0;
      }
      var failed, found := Collect(kind, listing);
      if failed {
        return Failure, [], 0;
      }
      OthersAreNotNamed(found, kind, entries, Cut(found, limits, now));
      warning, stop := Remove(kind, found, limits, now, removal);
      files := found;
    }

    method Remove(kind: string, files: seq<File>, limits: Limits, now: int, removal: string -> Removal)
      returns (warning: Warning, ghost stop: nat)
      requires Newest(files, kind, entries)
      modifies this
      ensures var cut := Cut(files, limits, now);
              && cut <= stop <= |files|
              && (forall i :: cut <= i < stop ==> removal(files[i].name) == Gone)
              && (stop < |files| ==> removal(files[stop].name) == Denied)
              && entries == old(entries) - Names(files[cut..stop])
              && warning == (if stop < |files| then Failure
                             else if cut == |files| then Silent
                             else Swept(|files| - AgeCut(files, limits.maxAge, now),
                                        |files| - CountCut(files, limits.maxCount)))
    {
      hide Newest, NewerFirst, Matches, AgeCut, Cut, Names;
      ghost var byAge := AgeCut(files, limits.maxAge, now);
      ghost var byCount := CountCut(files, limits.maxCount);
      ghost var cut := Cut(files, limits, now);
      CutIsLower(files, limits, now);
      AgeSplits(files, limits.maxAge, now) by { NewestIsSorted(files, kind, entries); }
      DistinctNames(files, kind, entries);
      var keep := KeepSet(files, limits.maxCount);
      var removedByAge, removedByCount := 0, 0;
      NoNames();
      assert files[cut..cut] == [];
      assert entries - {} == entries;
      for i := 0 to |files|
        invariant entries == old(entries) - Names(files[cut..if i < cut then cut else i])
        invariant removedByAge == if i <= byAge then 0 else i - byAge
        invariant removedByCount == if i <= byCount then 0 else i - byCount
        invariant forall k :: cut <= k < i ==> removal(files[k].name) == Gone
      {
        var file := files[i];
        var ageExceeded := Expired(file, limits.maxAge, now);
        var countExceeded := limits.maxCount > 0;
        if countExceeded {
          countExceeded := file.name !in keep;
        }
        assert countExceeded <==> byCount <= i;
        if !ageExceeded && !countExceeded {
          continue;
        }
        if removal(file.name) == Denied {
          return Failure, i;
        }
        NamesStep(files, cut, i);
        MinusMinus(old(entries), Names(files[cut..i]), {file.name});
        entries := entries - {file.name};
        if ageExceeded {
          removedByAge := removedByAge + 1;
        }
        if countExceeded {
          removedByCount := removedByCount + 1;
        }
      }
      stop := |files|;
      if removedByAge == 0 && removedByCount == 0 {
        return Silent, stop;
      }
      warning := Swept(removedByAge, removedByCount);
    }
  }

  lemma NamesStep(files: seq<File>, lo: nat, hi: nat)
    requires lo <= hi < |files|
    ensures Names(files[lo..hi + 1]) == Names(files[lo..hi]) + {files[hi].name}
  {
    assert files[lo..hi + 1] == files[lo..hi] + [files[hi]];
  }

  lemma NoNames()
    ensures Names([]) == {}
  {
  }

  lemma MinusMinus(m: map<string, Entry>, a: set<string>, b: set<string>)
    ensures m - a - b == m - (a + b)
  {
  }

  lemma NewestIsSorted(files: seq<File>, kind: string, entries: map<string, Entry>)
    requires Newest(files, kind, entries)
    ensures SortedBy(NewerFirst, files)
  {
  }

  lemma CutIsLower(files: seq<File>, limits: Limits, now: int)
    ensures var byAge, byCount := AgeCut(files, limits.maxAge, now), CountCut(files, limits.maxCount);
            Cut(files, limits, now) == if byAge < byCount then byAge else byCount
  {
  }

  // The first maxCount paths.
  method KeepSet(files: seq<File>, maxCount: int) returns (keep: set<string>)
    requires forall i, j :: 0 <= i < |files| && 0 <= j < |files| && files[i].name == files[j].name ==> i == j
    ensures maxCount > 0 ==>
              forall i :: 0 <= i < |files| ==> (files[i].name in keep <==> i < CountCut(files, maxCount))
  {
    keep := {};
    if maxCount > 0 {
      var i := 0;
      while i < |files| && i < maxCount
        invariant 0 <= i <= |files| && i <= maxCount
        invariant forall k :: 0 <= k < |files| ==> (files[k].name in keep <==> k < i)
      {
        keep := keep + {files[i].name};
        i := i + 1;
      }
    }
  }

  // ----- what a whole sweep guarantees -----

  // The survivors of the class are a prefix of the newest-first order: exactly the files that
  // are young enough and, under a count limit, among the first maxCount.  Nothing else changes.
  lemma SurvivorsAreAPrefix(before: map<string, Entry>, files: seq<File>, kind: string, limits: Limits, now: int)
    requires Newest(files, kind, before)
    ensures var cut := Cut(files, limits, now);
            var after := before - Names(files[cut..]);
            && Newest(files[..cut], kind, after)
            && (limits.maxCount > 0 ==> cut <= limits.maxCount)
            && (forall i :: 0 <= i < |files| ==>
                  (files[i].name in after <==>
                   !Expired(files[i], limits.maxAge, now) && (limits.maxCount > 0 ==> i < limits.maxCount)))
            && (forall n :: n in before && !Governed(kind, before, n) ==> n in after && after[n] == before[n])
  {
    hide Matches, NewerFirst, Expired;
    var cut := Cut(files, limits, now);
    var after := before - Names(files[cut..]);
    AgeSplits(files, limits.maxAge, now);
    DistinctNames(files, kind, before);
    forall i | 0 <= i < |files| ensures files[i].name in after <==> i < cut {
      assert files[i] in files;
      if i >= cut {
        assert files[i] == files[cut..][i - cut];
      } else {
        assert forall f :: f in files[cut..] ==> f.name != files[i].name;
      }
    }
    PrefixIsNewest(before, files, kind, cut, after);
    forall n | n in before && !Governed(kind, before, n) ensures n in after {
      assert forall f :: f in files[cut..] ==> f in files;
    }
  }

  // Nothing younger goes while something older stays, and of two files of one age the one with the
  // later name stays; a file goes for its age alone when it is older than the limit.
  lemma OldestGoFirst(before: map<string, Entry>, files: seq<File>, kind: string, limits: Limits, now: int,
                      gone: File, kept: File)
    requires Newest(files, kind, before) && gone in files && kept in files
    requires var after := before - Names(files[Cut(files, limits, now)..]); gone.name !in after && kept.name in after
    ensures gone.modTime < kept.modTime || (gone.modTime == kept.modTime && Leq(gone.name, kept.name))
    ensures limits.maxAge > 0 ==> kept.modTime >= now - limits.maxAge
    ensures limits.maxCount <= 0 ==> limits.maxAge > 0 && gone.modTime < now - limits.maxAge
  {
    hide Matches, Leq;
    SurvivorsAreAPrefix(before, files, kind, limits, now);
    var i :| 0 <= i < |files| && files[i] == gone;
    var j :| 0 <= j < |files| && files[j] == kept;
    AgeSplits(files, limits.maxAge, now);
    assert j < i;
    assert NewerFirst(files[j], files[i]);
  }

  lemma PrefixIsNewest(before: map<string, Entry>, files: seq<File>, kind: string, cut: nat, after: map<string, Entry>)
    requires Newest(files, kind, before) && cut <= |files|
    requires after == before - Names(files[cut..])
    requires forall i :: 0 <= i < |files| ==> (files[i].name in after <==> i < cut)
    ensures Newest(files[..cut], kind, after)
  {
    hide Matches, NewerFirst;
    forall f | f in files[..cut] ensures Governed(kind, after, f.name) && f.modTime == after[f.name].modTime {
      var i :| 0 <= i < cut && files[i] == f;
      assert f in files;
    }
    forall f: File | Governed(kind, after, f.name) && f.modTime == after[f.name].modTime ensures f in files[..cut] {
      assert f in files;
      var i :| 0 <= i < |files| && files[i] == f;
      assert f == files[..cut][i];
    }
  }

  // The two counters overlap: the number of files removed is the larger of them.
  lemma RemovedIsTheLargerCount(before: map<string, Entry>, files: seq<File>, kind: string, limits: Limits, now: int)
    requires Newest(files, kind, before)
    ensures var byAge := |files| - AgeCut(files, limits.maxAge, now);
            var byCount := |files| - CountCut(files, limits.maxCount);
            |before| - |before - Names(files[Cut(files, limits, now)..])| == if byAge > byCount then byAge else byCount
  {
    hide Matches, NewerFirst;
    var tail := files[Cut(files, limits, now)..];
    DistinctNames(files, kind, before);
    forall f | f in tail ensures f.name in before { assert f in files; }
    NamesSize(tail);
    assert (before - Names(tail)).Keys == before.Keys - Names(tail);
    assert Names(tail) <= before.Keys;
    KeysSize(before.Keys, Names(tail));
  }

  lemma KeysSize(keys: set<string>, gone: set<string>)
    requires gone <= keys
    ensures |keys - gone| == |keys| - |gone|
  {
    assert keys == (keys - gone) + gone;
  }

  lemma {:induction false} NamesSize(files: seq<File>)
    requires forall i, j :: 0 <= i < |files| && 0 <= j < |files| && files[i].name == files[j].name ==> i == j
    ensures |Names(files)| == |files|
  {
    if files == [] {
      assert Names(files) == {};
    } else {
      var last := |files| - 1;
      NamesSize(files[..last]);
      NamesStep(files, 0, last);
      assert files[0..last] == files[..last] && files[0..last + 1] == files;
      assert files[last].name !in Names(files[..last]);
    }
  }

  lemma {:induction false} AgeCutOfPrefix(files: seq<File>, n: nat, maxAge: int, now: int)
    requires n <= |files|
    ensures AgeCut(files[..n], maxAge, now) ==
            if AgeCut(files, maxAge, now) < n then AgeCut(files, maxAge, now) else n
  {
    if n > 0 {
      assert files[..n][1..] == files[1..][..n - 1];
      AgeCutOfPrefix(files[1..], n - 1, maxAge, now);
    }
  }

  lemma {:induction false} AgeCutShrinks(files: seq<File>, maxAge: int, earlier: int, later: int)
    requires earlier <= later
    ensures AgeCut(files, maxAge, later) <= AgeCut(files, maxAge, earlier)
  {
    if files != [] {
      AgeCutShrinks(files[1..], maxAge, earlier, later);
    }
  }

  lemma SecondCut(files: seq<File>, limits: Limits, earlier: int, later: int)
    requires earlier <= later
    ensures Cut(files, limits, later) <= Cut(files, limits, earlier)
    ensures Cut(files[..Cut(files, limits, earlier)], limits, later) == Cut(files, limits, later)
  {
    AgeCutOfPrefix(files, Cut(files, limits, earlier), limits.maxAge, later);
    AgeCutShrinks(files, limits.maxAge, earlier, later);
  }

  lemma TwoTails(start: map<string, Entry>, files: seq<File>, first: nat, second: nat)
    requires second <= first <= |files|
    ensures start - Names(files[first..]) - Names(files[..first][second..]) == start - Names(files[second..])
  {
    assert files[second..] == files[..first][second..] + files[first..];
  }

  lemma SweptOnce(before: map<string, Entry>, after: map<string, Entry>, files: seq<File>,
                  kind: string, limits: Limits, now: int)
    requires Newest(files, kind, before) && SweptTo(before, after, kind, limits, now)
    ensures after == before - Names(files[Cut(files, limits, now)..])
  {
    hide Newest, Cut, Names;
    var other :| Newest(other, kind, before) && after == before - Names(other[Cut(other, limits, now)..]);
    NewestUnique(files, other, kind, before);
  }

  // Sweeping now and again later leaves what one sweep later leaves.
  lemma SweepsCompose(start: map<string, Entry>, middle: map<string, Entry>, end: map<string, Entry>,
                      direct: map<string, Entry>, kind: string, limits: Limits, earlier: int, later: int)
    requires earlier <= later
    requires SweptTo(start, middle, kind, limits, earlier)
    requires SweptTo(middle, end, kind, limits, later)
    requires SweptTo(start, direct, kind, limits, later)
    ensures end == direct
  {
    hide Newest, Names, Cut, Expired, Governed;
    var files :| Newest(files, kind, start) && middle == start - Names(files[Cut(files, limits, earlier)..]);
    var first, second := Cut(files, limits, earlier), Cut(files, limits, later);
    SurvivorsAreAPrefix(start, files, kind, limits, earlier);
    SecondCut(files, limits, earlier, later);
    SweptOnce(start, direct, files, kind, limits, later);
    SweptOnce(middle, end, files[..first], kind, limits, later);
    TwoTails(start, files, first, second);
  }

  // ----- classes that share a directory -----

  // The runpack class spares the packs beside it unless their names look like checkpoints.
  lemma RunpackSweepSparesPacks(name: string)
    requires Matches("pack", name)
    ensures Matches("runpack", name) <==> Contains(ToLower(TrimSpace(name)), "_cp_")
  {
    var lowered := ToLower(TrimSpace(name));
    assert "pack_"[0] == 'p' && "runpack_"[0] == 'r';
    assert lowered[0] == "pack_"[0];
  }

  // Such a name: the pack made of a run called a_cp_1 is swept with the runpacks.
  lemma RunpackSweepTakesPack(name: string)
    requires name == "pack_a_cp_1.zip"
    ensures Matches("pack", name) && Matches("runpack", name)
  {
    PlainWord(name);
    ContainsAt(name, "_cp_", 6);
    RunpackSweepSparesPacks(name);
  }

  // Every trace is also in the session class.
  lemma TracesAreSessionFiles(name: string)
    ensures Matches("trace", name) ==> Matches("session", name)
  {
  }
}
