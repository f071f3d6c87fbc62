/** Context drift between two runs' reference receipts.  The classifier works on slices that
    may share storage, and overwrites the retrieval times in place. */
module RefsDrift {
  import opened Sequences
  import opened Sorting
  import opened Strings
  import opened Wrappers

  // The zero time, 0001-01-01T00:00:00Z, in the same seconds.
  const ZERO_TIME := -62135596800

  // 1980-01-01T00:00:00Z in seconds since 1970.
  const EPOCH := 315532800

  datatype Receipt = Receipt(
    refId: string, sourceType: string, sourceLocator: string, queryDigest: string, contentDigest: string,
    retrievedAt: int, redactionMode: string, immutability: string, freshnessSlaSeconds: int,
    sensitivityLabel: string, retrievalParams: map<string, string>)

  datatype Header = Header(
    schemaId: string, schemaVersion: string, createdAt: int, producerVersion: string, runId: string,
    contextSetDigest: string, contextEvidenceMode: string, contextRefCount: int)

  // A Go slice: a window into an array that others may see too.
  datatype Slice = Slice(store: array<Receipt>, lo: nat, len: nat)

  datatype Refs = Refs(header: Header, receipts: Slice)

  // What the refs mean, apart from where they are stored.
  datatype RefsValue = RefsValue(header: Header, receipts: seq<Receipt>)

  datatype Digest = Digest(text: string) | Unreadable

  datatype Drift = NoDrift | RuntimeOnly | Semantic

  datatype Classified = Error | Classified(drift: Drift, changed: bool, runtimeOnly: bool)

  predicate InBounds(refs: Refs) { refs.receipts.lo + refs.receipts.len <= refs.receipts.store.Length }

  function Window(refs: Refs): seq<Receipt>
    requires InBounds(refs)
    reads refs.receipts.store
  {
    refs.receipts.store[refs.receipts.lo..refs.receipts.lo + refs.receipts.len]
  }

  function Value(refs: Refs): RefsValue
    requires InBounds(refs)
    reads refs.receipts.store
  {
    RefsValue(refs.header, Window(refs))
  }

  // ----- normalising refs -----

  function Lowered(s: string): string { ToLower(TrimSpace(s)) }

  // Evidence modes are best_effort, required or unset; set digests are SHA-256 or unset.
  predicate GoodHeader(h: Header) {
    && Lowered(h.contextEvidenceMode) in {"", "best_effort", "required"}
    && (Lowered(h.contextSetDigest) == "" || IsDigest(Lowered(h.contextSetDigest)))
    && h.contextRefCount >= 0
  }

  function NormalHeader(h: Header, receipts: nat): Header {
    h.(contextEvidenceMode := Lowered(h.contextEvidenceMode),
       contextSetDigest := Lowered(h.contextSetDigest),
       contextRefCount := if h.contextRefCount == 0 then receipts else h.contextRefCount)
  }

  function NormalReceipt(r: Receipt): Receipt {
    r.(queryDigest := Lowered(r.queryDigest),
       contentDigest := Lowered(r.contentDigest),
       immutability := if Lowered(r.immutability) == "" then "unknown" else Lowered(r.immutability),
       retrievedAt := if r.retrievedAt == ZERO_TIME then EPOCH else r.retrievedAt)
  }

  function NormalReceipts(receipts: seq<Receipt>): (r: seq<Receipt>)
    ensures |r| == |receipts|
  {
    seq(|receipts|, i requires 0 <= i < |receipts| => NormalReceipt(receipts[i]))
  }

  predicate ById(a: Receipt, b: Receipt) { Leq(a.refId, b.refId) }

  // Receipts with one id may end up in either order.
  ghost predicate NormalForm(v: RefsValue, n: RefsValue) {
    && n.header == NormalHeader(v.header, |v.receipts|)
    && SortedBy(ById, n.receipts)
    && SameElements(n.receipts, NormalReceipts(v.receipts))
  }

  // One storage turns into another when a window of it is normalised.
  ghost predicate Settles(before: seq<Receipt>, window: Slice, after: seq<Receipt>) {
    var lo, hi := window.lo, window.lo + window.len;
    && hi <= |before| == |after|
    && SortedBy(ById, after[lo..hi])
    && SameElements(after[lo..hi], NormalReceipts(before[lo..hi]))
    && forall k :: 0 <= k < |before| && !(lo <= k < hi) ==> after[k] == before[k]
  }

  lemma ByIdOrder()
    ensures TotalPreorder(ById)
  {
    forall x: Receipt, y: Receipt ensures ById(x, y) || ById(y, x) { LeqTotal(x.refId, y.refId); }
    forall x: Receipt, y: Receipt, z: Receipt | ById(x, y) && ById(y, z) ensures ById(x, z) {
      LeqTransitive(x.refId, y.refId, z.refId);
    }
  }

  method SortWindow(store: array<Receipt>, lo: nat, len: nat)
    requires lo + len <= store.Length
    modifies store
    ensures SortedBy(ById, store[lo..lo + len]) && SameElements(store[lo..lo + len], old(store[lo..lo + len]))
    ensures forall k :: 0 <= k < lo || lo + len <= k < store.Length ==> store[k] == old(store[k])
  {
    ByIdOrder();
    var sorted := SortSlice(ById, store[lo..lo + len]);
    SameElementsSize(sorted, store[lo..lo + len]);
    hide SortedBy, ById, SameElements;
    for i := 0 to len
      invariant forall k :: 0 <= k < i ==> store[lo + k] == sorted[k]
      invariant forall k :: 0 <= k < lo || lo + len <= k < store.Length ==> store[k] == old(store[k])
    {
      store[lo + i] := sorted[i];
    }
    assert store[lo..lo + len] == sorted;
  }

  method NormalizeWindow(store: array<Receipt>, lo: nat, len: nat)
    requires lo + len <= store.Length
    modifies store
    ensures SortedBy(ById, store[lo..lo + len])
    ensures SameElements(store[lo..lo + len], NormalReceipts(old(store[lo..lo + len])))
    ensures forall k :: 0 <= k < lo || lo + len <= k < store.Length ==> store[k] == old(store[k])
  {
    hide NormalReceipt, SortedBy, ById;
    for i := 0 to len
      invariant forall k :: 0 <= k < store.Length ==>
                  store[k] == if lo <= k < lo + i then NormalReceipt(old(store[k])) else old(store[k])
    {
      store[lo + i] := NormalReceipt(store[lo + i]);
    }
    assert store[lo..lo + len] == NormalReceipts(old(store[lo..lo + len]));
    SortWindow(store, lo, len);
  }

  method NormalizeRefs(refs: Refs) returns (output: Option<Refs>)
    requires InBounds(refs)
    modifies refs.receipts.store
    ensures output.Some? <==> GoodHeader(refs.header)
    ensures output.None? ==> refs.receipts.store[..] == old(refs.receipts.store[..])
    ensures output.Some? ==>
              && output.value == refs.(header := NormalHeader(refs.header, refs.receipts.len))
              && Settles(old(refs.receipts.store[..]), refs.receipts, refs.receipts.store[..])
  {
    hide Lowered, IsDigest, NormalReceipts, SortedBy, SameElements, ById;
    var mode := Lowered(refs.header.contextEvidenceMode);
    if mode !in {"", "best_effort", "required"} {
      return None;
    }
    var digest := Lowered(refs.header.contextSetDigest);
    if digest != "" && !IsDigest(digest) {
      return None;
    }
    if refs.header.contextRefCount < 0 {
      return None;
    }
    var store, lo, len := refs.receipts.store, refs.receipts.lo, refs.receipts.len;
    ghost var before := store[..];
    assert before[lo..lo + len] == store[lo..lo + len];
    NormalizeWindow(store, lo, len);
    assert store[..][lo..lo + len] == store[lo..lo + len];
    var count := refs.header.contextRefCount;
    if count == 0 && len > 0 {
      count := len;
    }
    output := Some(refs.(header := refs.header.(
      contextEvidenceMode := mode, contextSetDigest := digest, contextRefCount := count)));
  }

  lemma NormalReceiptStays(r: Receipt)
    ensures NormalReceipt(NormalReceipt(r)) == NormalReceipt(r)
    ensures NormalReceipt(Timeless(NormalReceipt(r))) == Timeless(NormalReceipt(r))
  {
    hide ToLower, TrimSpace;
    NormalStays(r.queryDigest);
    NormalStays(r.contentDigest);
    NormalStays(r.immutability);
    UnknownStays();
  }

  // Two receipts are normalised to one exactly when they agree on everything, but for letter case
  // and blanks in the digests and the immutability, for a blank immutability meaning unknown, and
  // for an unset time meaning 1980.
  lemma NormalReceiptIff(a: Receipt, b: Receipt)
    ensures NormalReceipt(a) == NormalReceipt(b) <==>
              && a.refId == b.refId && a.sourceType == b.sourceType && a.sourceLocator == b.sourceLocator
              && ToLower(TrimSpace(a.queryDigest)) == ToLower(TrimSpace(b.queryDigest))
              && ToLower(TrimSpace(a.contentDigest)) == ToLower(TrimSpace(b.contentDigest))
              && (ToLower(TrimSpace(a.immutability)) == ToLower(TrimSpace(b.immutability))
                  || {ToLower(TrimSpace(a.immutability)), ToLower(TrimSpace(b.immutability))} == {"", "unknown"})
              && (a.retrievedAt == b.retrievedAt
                  || {a.retrievedAt, b.retrievedAt} == {Seconds(1, 0), Seconds(1980, 0)})
              && a.redactionMode == b.redactionMode && a.freshnessSlaSeconds == b.freshnessSlaSeconds
              && a.sensitivityLabel == b.sensitivityLabel && a.retrievalParams == b.retrievalParams
  {
    hide ToLower, TrimSpace;
    TwoYears();
    var x, y := ToLower(TrimSpace(a.immutability)), ToLower(TrimSpace(b.immutability));
    PairIs(x, y, "", "unknown");
    PairIs(a.retrievedAt, b.retrievedAt, Seconds(1, 0), Seconds(1980, 0));
    hide Seconds;
  }

  lemma PairIs<T>(a: T, b: T, x: T, y: T)
    requires x != y
    ensures {a, b} == {x, y} <==> (a == x && b == y) || (a == y && b == x)
  {
    if {a, b} == {x, y} {
      assert a in {x, y} && b in {x, y} && x in {a, b} && y in {a, b};
    }
  }

  // Seconds from 1970 to a day of a year of the Gregorian calendar.
  function Seconds(year: int, day: int): int
    requires year > 0
  {
    var y := year - 1;
    86400 * (365 * y + y / 4 - y / 100 + y / 400 + day - 719162)
  }

  lemma TwoYears()
    ensures Seconds(1970, 0) == 0 && Seconds(1980, 0) == EPOCH && Seconds(1, 0) == ZERO_TIME
  {
  }

  // A receipt is left alone exactly when it is normalised already.
  lemma NormalReceiptFixes(r: Receipt)
    ensures NormalReceipt(r) == r <==>
              && ToLower(TrimSpace(r.queryDigest)) == r.queryDigest
              && ToLower(TrimSpace(r.contentDigest)) == r.contentDigest
              && ToLower(TrimSpace(r.immutability)) == r.immutability != ""
              && r.retrievedAt != Seconds(1, 0)
  {
    hide ToLower, TrimSpace;
    UnknownStays();
    TwoYears();
    hide Seconds;
  }

  // The header: mode and set digest are lowered, and a count that was not given is filled in.
  lemma NormalHeaderIs(h: Header, receipts: nat)
    ensures var n := NormalHeader(h, receipts);
            && n.contextEvidenceMode == ToLower(TrimSpace(h.contextEvidenceMode))
            && n.contextSetDigest == ToLower(TrimSpace(h.contextSetDigest))
            && (h.contextRefCount == 0 ==> n.contextRefCount == receipts)
            && (h.contextRefCount != 0 ==> n.contextRefCount == h.contextRefCount)
            && n.(contextEvidenceMode := h.contextEvidenceMode, contextSetDigest := h.contextSetDigest,
                  contextRefCount := h.contextRefCount) == h
  {
  }

  const EITHER_HEX: string := "0123456789abcdefABCDEF"

  lemma EitherHex(c: char)
    ensures IsLowerHex(ToLowerChar(c)) <==> c in EITHER_HEX
  {
  }

  lemma LoweredDigestIff(s: string)
    ensures IsDigest(ToLower(s)) <==> |s| == 64 && forall c :: c in s ==> c in EITHER_HEX
    ensures ToLower(s) == "" <==> s == ""
  {
    hide IsLowerHex, ToLowerChar;
    forall i | 0 <= i < |s|
      ensures IsLowerHex(ToLower(s)[i]) <==> s[i] in EITHER_HEX
    {
      EitherHex(s[i]);
    }
    hide EITHER_HEX;
    assert (forall c :: c in s ==> c in EITHER_HEX) <==> forall i :: 0 <= i < |s| ==> s[i] in EITHER_HEX;
  }

  // The modes in any spelling, and 64 hexadecimal digits of either case.
  lemma GoodHeaderIff(h: Header)
    ensures GoodHeader(h) <==>
              && (|| TrimSpace(h.contextEvidenceMode) == ""
                  || ToLower(TrimSpace(h.contextEvidenceMode)) == "best_effort"
                  || ToLower(TrimSpace(h.contextEvidenceMode)) == "required")
              && (var digest := TrimSpace(h.contextSetDigest);
                  digest == "" || (|digest| == 64 && forall c :: c in digest ==> c in EITHER_HEX))
              && h.contextRefCount >= 0
  {
    hide TrimBy, ToLower, IsDigest;
    LoweredDigestIff(TrimSpace(h.contextSetDigest));
    LoweredDigestIff(TrimSpace(h.contextEvidenceMode));
  }

  // A good header stays good, and is normal after the first time.
  lemma NormalHeaderStays(h: Header, receipts: nat)
    requires GoodHeader(h)
    ensures var n := NormalHeader(h, receipts); GoodHeader(n) && NormalHeader(n, receipts) == n
  {
    hide ToLower, TrimSpace, IsDigest;
    NormalStays(h.contextEvidenceMode);
    NormalStays(h.contextSetDigest);
  }

  lemma UnknownStays()
    ensures Lowered("unknown") == "unknown"
  {
    hide ToLower, TrimSpace;
    PlainWord("unknown");
  }

  // What is sorted and normal already is left alone, but for the order under one id.
  lemma NormalReceiptsStay(receipts: seq<Receipt>, n: seq<Receipt>)
    requires SameElements(n, NormalReceipts(receipts))
    ensures NormalReceipts(n) == n && NormalReceipts(AllTimeless(n)) == AllTimeless(n)
  {
    hide NormalReceipt, Timeless;
    SameElementsSize(n, NormalReceipts(receipts));
    forall i | 0 <= i < |n|
      ensures NormalReceipt(n[i]) == n[i] && NormalReceipt(Timeless(n[i])) == Timeless(n[i])
    {
      assert n[i] in NormalReceipts(receipts);
      var j :| 0 <= j < |receipts| && NormalReceipts(receipts)[j] == n[i];
      NormalReceiptStays(receipts[j]);
    }
  }

  ghost predicate OneFormOnly(v: RefsValue) {
    forall m, n :: NormalForm(v, m) && NormalForm(v, n) ==> m == n
  }

  // Two normal receipts are told apart by their ids.
  ghost predicate IdsDecide(v: RefsValue) { AntisymmetricOn(ById, NormalReceipts(v.receipts)) }

  lemma SameOrder(a: Receipt, b: Receipt)
    ensures ById(a, b) && ById(b, a) <==> a.refId == b.refId
  {
    LeqTotal(a.refId, b.refId);
    LeqTotal(a.refId, a.refId);
  }

  // The unstable sort decides nothing exactly when receipts with one id are equal once normalised.
  lemma NormalFormIsUniqueIff(v: RefsValue)
    ensures OneFormOnly(v) <==> IdsDecide(v)
  {
    hide ById, NormalReceipts, NormalHeader, SortedBy;
    if IdsDecide(v) {
      forall m, n | NormalForm(v, m) && NormalForm(v, n) ensures m == n {
        SameElementsSize(m.receipts, NormalReceipts(v.receipts));
        SortedUnique(ById, m.receipts, n.receipts);
      }
    } else {
      var a, b :| a in NormalReceipts(v.receipts) && b in NormalReceipts(v.receipts)
                  && ById(a, b) && ById(b, a) && a != b;
      TwoForms(v, a, b);
    }
  }

  lemma TwoForms(v: RefsValue, a: Receipt, b: Receipt)
    requires a in NormalReceipts(v.receipts) && b in NormalReceipts(v.receipts)
    requires ById(a, b) && ById(b, a) && a != b
    ensures !OneFormOnly(v)
  {
    hide ById, NormalReceipts, SortedBy, SameElements, OneFormOnly;
    ByIdOrder();
    var sorted := SortBy(ById, NormalReceipts(v.receipts));
    SortBySorts(ById, NormalReceipts(v.receipts));
    SameElementsSize(sorted, NormalReceipts(v.receipts));
    var i :| 0 <= i < |sorted| && sorted[i] == a;
    var j :| 0 <= j < |sorted| && sorted[j] == b;
    SwappedForms(v, sorted, if i < j then i else j, if i < j then j else i);
  }

  lemma SwappedForms(v: RefsValue, s: seq<Receipt>, p: nat, q: nat)
    requires SortedBy(ById, s) && SameElements(s, NormalReceipts(v.receipts))
    requires p < q < |s| && ById(s[q], s[p]) && s[p] != s[q]
    ensures !OneFormOnly(v)
  {
    hide ById, NormalReceipts, NormalHeader, SortedBy, SameElements, NormalForm;
    var swapped := s[p := s[q]][q := s[p]];
    SwapEqualIds(s, p, q);
    SwapIsForm(v, s, swapped);
    assert swapped[p] != s[p];
  }

  lemma SwapIsForm(v: RefsValue, a: seq<Receipt>, b: seq<Receipt>)
    requires SortedBy(ById, a) && SameElements(a, NormalReceipts(v.receipts))
    requires SortedBy(ById, b) && SameElements(a, b)
    ensures NormalForm(v, RefsValue(NormalHeader(v.header, |v.receipts|), a))
    ensures NormalForm(v, RefsValue(NormalHeader(v.header, |v.receipts|), b))
  {
    hide NormalReceipts, SortedBy, NormalHeader;
  }

  lemma SwapEqualIds(s: seq<Receipt>, p: nat, q: nat)
    requires p < q < |s| && SortedBy(ById, s) && ById(s[q], s[p])
    ensures var t := s[p := s[q]][q := s[p]]; SortedBy(ById, t) && SameElements(s, t)
  {
    hide Leq, SameElements;
    var t := s[p := s[q]][q := s[p]];
    assert ById(s[p], s[q]);
    SameOrder(s[p], s[q]);
    assert forall i :: 0 <= i < |s| ==> t[i].refId == s[i].refId;
    forall i, j | 0 <= i < j < |t| ensures ById(t[i], t[j]) {
      assert ById(s[i], s[j]);
    }
    SwapKeepsElements(s, p, q);
  }

  lemma NormalReceiptsSplit(s: seq<Receipt>, k: nat)
    requires k < |s|
    ensures NormalReceipts(s) == NormalReceipts(s[..k]) + [NormalReceipt(s[k])] + NormalReceipts(s[k + 1..])
    ensures NormalReceipts(s[..k] + s[k + 1..]) == NormalReceipts(s[..k]) + NormalReceipts(s[k + 1..])
  {
    hide NormalReceipt;
  }

  lemma NormalCount(s: seq<Receipt>, k: nat)
    requires k < |s|
    ensures multiset(NormalReceipts(s)) ==
            multiset(NormalReceipts(s[..k] + s[k + 1..])) + multiset{NormalReceipt(s[k])}
  {
    hide NormalReceipts, NormalReceipt;
    NormalReceiptsSplit(s, k);
    ThreePieces(NormalReceipts(s[..k]), NormalReceipt(s[k]), NormalReceipts(s[k + 1..]));
  }

  lemma {:induction false} NormalReceiptsForgetOrder(a: seq<Receipt>, b: seq<Receipt>)
    requires SameElements(a, b)
    ensures SameElements(NormalReceipts(a), NormalReceipts(b))
    decreases |a|
  {
    hide NormalReceipts, NormalReceipt;
    SameElementsSize(a, b);
    if a != [] {
      var k := HeadPlace(a, b);
      NormalReceiptsForgetOrder(a[1..], b[..k] + b[k + 1..]);
      assert a[..0] + a[1..] == a[1..];
      NormalCount(a, 0);
      NormalCount(b, k);
    }
  }

  // The order in which a side lists its receipts does not decide what its normal forms are.
  lemma NormalFormForgetsOrder(v: RefsValue, w: RefsValue, n: RefsValue)
    requires v.header == w.header && SameElements(v.receipts, w.receipts)
    ensures NormalForm(v, n) <==> NormalForm(w, n)
  {
    hide NormalReceipts, NormalHeader, SortedBy;
    SameElementsSize(v.receipts, w.receipts);
    NormalReceiptsForgetOrder(v.receipts, w.receipts);
  }

  // ----- overwriting the times -----

  function Timeless(r: Receipt): Receipt { r.(retrievedAt := EPOCH) }

  function AllTimeless(receipts: seq<Receipt>): (r: seq<Receipt>)
    ensures |r| == |receipts|
  {
    seq(|receipts|, i requires 0 <= i < |receipts| => Timeless(receipts[i]))
  }

  // Everything but the retrieval times and the digest over them.
  function Runtime(v: RefsValue): RefsValue {
    RefsValue(v.header.(contextSetDigest := ""), AllTimeless(v.receipts))
  }

  // Index k of the store lies in the window.
  predicate Covers(refs: Refs, store: array<Receipt>, k: nat) {
    refs.receipts.store == store && refs.receipts.lo <= k < refs.receipts.lo + refs.receipts.len
  }

  method RuntimeComparableRefs(refs: Refs) returns (comparable: Refs)
    requires InBounds(refs)
    modifies refs.receipts.store
    ensures comparable == refs.(header := refs.header.(contextSetDigest := ""))
    ensures forall k :: 0 <= k < refs.receipts.store.Length ==>
              refs.receipts.store[k] ==
              if Covers(refs, refs.receipts.store, k) then old(Timeless(refs.receipts.store[k]))
              else old(refs.receipts.store[k])
  {
    comparable := refs.(header := refs.header.(contextSetDigest := ""));
    var store, lo := comparable.receipts.store, comparable.receipts.lo;
    for i := 0 to comparable.receipts.len
      invariant forall k :: 0 <= k < store.Length ==>
                  store[k] == if lo <= k < lo + i then old(Timeless(store[k])) else old(store[k])
    {
      store[lo + i] := store[lo + i].(retrievedAt := EPOCH);
    }
  }

  predicate SameHeaders(l: RefsValue, r: RefsValue) {
    && l.header.contextEvidenceMode == r.header.contextEvidenceMode
    && l.header.contextRefCount == r.header.contextRefCount
  }

  // The classification by digests of values.
  function Classify(l: RefsValue, r: RefsValue, digest: RefsValue -> Digest): Classified {
    if digest(l).Unreadable? || digest(r).Unreadable? then Error
    else if digest(l) == digest(r) && l.header.contextSetDigest == r.header.contextSetDigest && SameHeaders(l, r)
    then Classified(NoDrift, false, false)
    else ClassifyRuntime(l, r, digest)
  }

  function ClassifyRuntime(l: RefsValue, r: RefsValue, digest: RefsValue -> Digest): Classified {
    if digest(Runtime(l)).Unreadable? || digest(Runtime(r)).Unreadable? then Error
    else if digest(Runtime(l)) == digest(Runtime(r)) && SameHeaders(l, r)
    then Classified(RuntimeOnly, true, true)
    else Classified(Semantic, true, false)
  }

  // The classification of normalised refs.  Overwriting one side's storage never disturbs the
  // other side's classification, even where the two windows overlap.
  method ClassifyNormalized(left: Refs, right: Refs, digest: RefsValue -> Digest) returns (c: Classified)
    requires InBounds(left) && InBounds(right)
    modifies left.receipts.store, right.receipts.store
    ensures c == Classify(old(Value(left)), old(Value(right)), digest)
    ensures c.Classified? && c.drift == NoDrift ==> Value(left) == old(Value(left)) && Value(right) == old(Value(right))
    ensures c.Classified? && c.drift != NoDrift ==>
              Window(left) == AllTimeless(old(Window(left))) && Window(right) == AllTimeless(old(Window(right)))
  {
    hide ClassifyRuntime, AllTimeless;
    var leftFull := digest(Value(left));
    if leftFull.Unreadable? {
      return Error;
    }
    var rightFull := digest(Value(right));
    if rightFull.Unreadable? {
      return Error;
    }
    if leftFull == rightFull
       && left.header.contextSetDigest == right.header.contextSetDigest
       && left.header.contextEvidenceMode == right.header.contextEvidenceMode
       && left.header.contextRefCount == right.header.contextRefCount
    {
      return Classified(NoDrift, false, false);
    }
    c := CompareRuntime(left, right, digest);
  }

  // The second half: both sides are overwritten before either is digested again.
  method CompareRuntime(left: Refs, right: Refs, digest: RefsValue -> Digest) returns (c: Classified)
    requires InBounds(left) && InBounds(right)
    modifies left.receipts.store, right.receipts.store
    ensures Window(left) == AllTimeless(old(Window(left))) && Window(right) == AllTimeless(old(Window(right)))
    ensures c == ClassifyRuntime(old(Value(left)), old(Value(right)), digest)
    ensures c.Classified? ==> c.drift != NoDrift
  {
    var leftComparable := RuntimeComparableRefs(left);
    var rightComparable := RuntimeComparableRefs(right);
    forall k | 0 <= k < left.receipts.len
      ensures Window(left)[k] == Timeless(old(Window(left)[k]))
    {
      assert Covers(left, left.receipts.store, left.receipts.lo + k);
    }
    forall k | 0 <= k < right.receipts.len
      ensures Window(right)[k] == Timeless(old(Window(right)[k]))
    {
      assert Covers(right, right.receipts.store, right.receipts.lo + k);
    }
    assert Window(left) == AllTimeless(old(Window(left)));
    assert Window(right) == AllTimeless(old(Window(right)));
    hide AllTimeless, InBounds;
    var leftRuntime := digest(Value(leftComparable));
    if leftRuntime.Unreadable? {
      return Error;
    }
    var rightRuntime := digest(Value(rightComparable));
    if rightRuntime.Unreadable? {
      return Error;
    }
    if leftRuntime == rightRuntime
       && left.header.contextEvidenceMode == right.header.contextEvidenceMode
       && left.header.contextRefCount == right.header.contextRefCount
    {
      return Classified(RuntimeOnly, true, true);
    }
    return Classified(Semantic, true, false);
  }

  predicate SameWindow(left: Refs, right: Refs) { left.receipts == right.receipts }

  predicate Apart(left: Refs, right: Refs) {
    || left.receipts.store != right.receipts.store
    || left.receipts.lo + left.receipts.len <= right.receipts.lo
    || right.receipts.lo + right.receipts.len <= left.receipts.lo
  }

  // Normalising one side gives a normal form of it, and leaves a side apart from it as it is.
  method NormalizeBeside(refs: Refs, ghost other: Refs) returns (output: Option<Refs>)
    requires InBounds(refs) && InBounds(other)
    modifies refs.receipts.store
    ensures output.Some? <==> GoodHeader(refs.header)
    ensures output.Some? ==>
              && output.value == refs.(header := NormalHeader(refs.header, refs.receipts.len))
              && Settles(old(refs.receipts.store[..]), refs.receipts, refs.receipts.store[..])
              && NormalForm(old(Value(refs)), Value(output.value))
    ensures Apart(refs, other) ==> Window(other) == old(Window(other))
  {
    hide GoodHeader, NormalHeader, SortedBy, NormalReceipts, SameElements;
    var store, lo, len := refs.receipts.store, refs.receipts.lo, refs.receipts.len;
    assert store[..][lo..lo + len] == Window(refs);
    output := NormalizeRefs(refs);
    assert store[..][lo..lo + len] == Window(refs);
    if Apart(refs, other) {
      assert forall k :: other.receipts.lo <= k < other.receipts.lo + other.receipts.len ==>
                other.receipts.store[k] == old(other.receipts.store[k]);
    }
  }

  // middle is the left side's storage between the two.
  method NormalizeBoth(left: Refs, right: Refs)
    returns (l: Option<Refs>, r: Option<Refs>, ghost middle: seq<Receipt>)
    requires InBounds(left) && InBounds(right)
    modifies left.receipts.store, right.receipts.store
    ensures l.Some? && r.Some? <==> GoodHeader(left.header) && GoodHeader(right.header)
    ensures l.Some? && r.Some? ==>
              && l.value == left.(header := NormalHeader(left.header, left.receipts.len))
              && r.value == right.(header := NormalHeader(right.header, right.receipts.len))
    ensures l.Some? && r.Some? && left.receipts.store == right.receipts.store ==>
              && Settles(old(left.receipts.store[..]), left.receipts, middle)
              && Settles(middle, right.receipts, left.receipts.store[..])
    ensures l.Some? && r.Some? && (Apart(left, right) || SameWindow(left, right)) ==>
              NormalForm(old(Value(left)), Value(l.value)) && NormalForm(old(Value(right)), Value(r.value))
  {
    hide NormalForm, GoodHeader, Apart, Settles, NormalHeader;
    ApartEitherWay(left, right);
    r, middle := None, [];
    l := NormalizeBeside(left, right);
    if l.None? {
      return;
    }
    middle := left.receipts.store[..];
    ghost var window := Window(left);
    r := NormalizeBeside(right, left);
    if r.Some? && SameWindow(left, right) {
      NormalTwice(old(Value(left)), l.value.header, window, old(Value(right)), Value(r.value));
    }
  }

  lemma ApartEitherWay(left: Refs, right: Refs)
    ensures Apart(left, right) == Apart(right, left)
  {
  }

  // The classification is that of the values l and r.  These are normal forms of the two sides,
  // where the sides share all of their storage or none; where they share any, l and r are the two
  // windows of after, to which normalising left and then right turns the storage.
  method ClassifyRefsDrift(left: Refs, right: Refs, digest: RefsValue -> Digest)
    returns (c: Classified, ghost l: RefsValue, ghost r: RefsValue,
             ghost middle: seq<Receipt>, ghost after: seq<Receipt>)
    requires InBounds(left) && InBounds(right)
    modifies left.receipts.store, right.receipts.store
    ensures !GoodHeader(left.header) || !GoodHeader(right.header) ==> c == Error
    ensures GoodHeader(left.header) && GoodHeader(right.header) ==>
              && c == Classify(l, r, digest)
              && l.header == NormalHeader(left.header, left.receipts.len)
              && r.header == NormalHeader(right.header, right.receipts.len)
    ensures GoodHeader(left.header) && GoodHeader(right.header) && left.receipts.store == right.receipts.store ==>
              && Settles(old(left.receipts.store[..]), left.receipts, middle)
              && Settles(middle, right.receipts, after)
              && l.receipts == after[left.receipts.lo..left.receipts.lo + left.receipts.len]
              && r.receipts == after[right.receipts.lo..right.receipts.lo + right.receipts.len]
    ensures GoodHeader(left.header) && GoodHeader(right.header) && (Apart(left, right) || SameWindow(left, right)) ==>
              NormalForm(old(Value(left)), l) && NormalForm(old(Value(right)), r)
    ensures c.Classified? && c.drift == NoDrift ==> Window(left) == l.receipts && Window(right) == r.receipts
    ensures c.Classified? && c.drift != NoDrift ==>
              Window(left) == AllTimeless(l.receipts) && Window(right) == AllTimeless(r.receipts)
  {
    hide NormalForm, Classify, AllTimeless, GoodHeader, Apart, SameWindow, Settles, NormalHeader;
    l, r, after := Value(left), Value(right), [];
    var leftNorm, rightNorm;
    leftNorm, rightNorm, middle := NormalizeBoth(left, right);
    if leftNorm.None? || rightNorm.None? {
      c := Error;
      return;
    }
    l, r, after := Value(leftNorm.value), Value(rightNorm.value), left.receipts.store[..];
    assert after[left.receipts.lo..left.receipts.lo + left.receipts.len] == Window(left);
    if left.receipts.store == right.receipts.store {
      assert after[right.receipts.lo..right.receipts.lo + right.receipts.len] == Window(right);
    }
    c := ClassifyNormalized(leftNorm.value, rightNorm.value, digest);
  }

  // Normalising one window for both sides gives a normal form of either.
  lemma NormalTwice(v: RefsValue, header: Header, middle: seq<Receipt>, w: RefsValue, n: RefsValue)
    requires v.receipts == w.receipts
    requires NormalForm(v, RefsValue(header, middle)) && NormalForm(w.(receipts := middle), n)
    ensures NormalForm(v, RefsValue(header, n.receipts)) && NormalForm(w, n)
  {
    hide NormalHeader, NormalReceipts;
    NormalReceiptsStay(v.receipts, middle);
    SameElementsSize(middle, NormalReceipts(v.receipts));
  }

  // ----- what the classes mean -----

  // Different refs never share a digest.
  ghost predicate Injective(digest: RefsValue -> Digest) {
    forall a, b :: digest(a).Digest? && digest(a) == digest(b) ==> a == b
  }

  ghost predicate Total(digest: RefsValue -> Digest) { forall a :: digest(a).Digest? }

  // The two values differ in nothing but retrieval times and the digest over them.
  ghost predicate SameButTimes(l: RefsValue, r: RefsValue) {
    && l.header.(contextSetDigest := r.header.contextSetDigest) == r.header
    && |l.receipts| == |r.receipts|
    && forall i :: 0 <= i < |l.receipts| ==> l.receipts[i].(retrievedAt := r.receipts[i].retrievedAt) == r.receipts[i]
  }

  lemma RuntimeIsSameButTimes(l: RefsValue, r: RefsValue)
    ensures Runtime(l) == Runtime(r) <==> SameButTimes(l, r)
  {
    if Runtime(l) == Runtime(r) {
      assert Runtime(l).header == Runtime(r).header;
      assert |l.receipts| == |Runtime(l).receipts| == |r.receipts|;
      forall i | 0 <= i < |l.receipts|
        ensures l.receipts[i].(retrievedAt := r.receipts[i].retrievedAt) == r.receipts[i]
      {
        assert Runtime(l).receipts[i] == Runtime(r).receipts[i];
      }
    }
    if SameButTimes(l, r) {
      forall i | 0 <= i < |l.receipts| ensures Timeless(l.receipts[i]) == Timeless(r.receipts[i]) {
        assert l.receipts[i].(retrievedAt := r.receipts[i].retrievedAt) == r.receipts[i];
      }
      assert AllTimeless(l.receipts) == AllTimeless(r.receipts);
    }
  }

  // Digests decide exactly: equal, equal but for times, or neither.
  lemma DriftIsExact(l: RefsValue, r: RefsValue, digest: RefsValue -> Digest)
    requires Injective(digest) && Classify(l, r, digest).Classified?
    ensures Classify(l, r, digest) ==
            if l == r then Classified(NoDrift, false, false)
            else if SameButTimes(l, r) then Classified(RuntimeOnly, true, true)
            else Classified(Semantic, true, false)
  {
    hide Runtime;
    RuntimeIsSameButTimes(l, r);
    assert digest(Runtime(l)) == digest(Runtime(r)) ==> Runtime(l) == Runtime(r);
  }

  // Whatever the digest: sides that differ in mode or count drift semantically, and sides that
  // differ in the set digest drift, even if their digests agree; a digest that fails is an error
  // only where it is asked for.
  lemma HeadersAreCompared(l: RefsValue, r: RefsValue, digest: RefsValue -> Digest)
    ensures var c, g, h := Classify(l, r, digest), l.header, r.header;
            && (c.Classified? && g.contextEvidenceMode != h.contextEvidenceMode ==> c.drift == Semantic)
            && (c.Classified? && g.contextRefCount != h.contextRefCount ==> c.drift == Semantic)
            && (c.Classified? && g.contextSetDigest != h.contextSetDigest ==> c.drift != NoDrift)
            && (digest(l).Unreadable? || digest(r).Unreadable? ==> c == Error)
            && (c == Error && digest(l).Digest? && digest(r).Digest? ==>
                  && (digest(l) != digest(r) || g.contextSetDigest != h.contextSetDigest
                      || g.contextEvidenceMode != h.contextEvidenceMode || g.contextRefCount != h.contextRefCount)
                  && (digest(Runtime(l)).Unreadable? || digest(Runtime(r)).Unreadable?))
  {
    hide Runtime;
  }

  // So two sides with the same header and the same receipts never drift exactly when ids decide;
  // otherwise the same receipts in another order can be reported as drift.
  lemma SameReceiptsDriftIff(v: RefsValue, digest: RefsValue -> Digest)
    requires Injective(digest) && Total(digest)
    ensures IdsDecide(v) <==>
              forall m, n :: NormalForm(v, m) && NormalForm(v, n) ==> Classify(m, n, digest).drift == NoDrift
  {
    hide NormalForm, IdsDecide, SameButTimes;
    NormalFormIsUniqueIff(v);
    forall m, n ensures Classify(m, n, digest).Classified? && (Classify(m, n, digest).drift == NoDrift <==> m == n) {
      TotalClassifies(m, n, digest);
      DriftIsExact(m, n, digest);
    }
  }

  // Two places under one id: listed in one order and in the other, they drift.
  lemma SharedIdExample(v: RefsValue, a: Receipt, b: Receipt, digest: RefsValue -> Digest)
    returns (m: RefsValue, n: RefsValue)
    requires Injective(digest) && Total(digest)
    requires a == Receipt("ref_1", "doc", "a", "", "", 1, "", "unknown", 0, "", map[])
    requires b == a.(sourceLocator := "b") && v.receipts == [a, b]
    ensures NormalForm(v, m) && m.receipts == [a, b] && NormalForm(v, n) && n.receipts == [b, a]
    ensures Classify(m, n, digest) == Classified(Semantic, true, false)
  {
    hide Classify, NormalHeader, NormalForm, SameButTimes;
    var header := NormalHeader(v.header, 2);
    m, n := RefsValue(header, [a, b]), RefsValue(header, [b, a]);
    PlainReceipts(a, b);
    TwoOrders(v, a, b);
    TotalClassifies(m, n, digest);
    DriftIsExact(m, n, digest);
    LocatorsDiffer(m, n);
  }

  lemma TwoOrders(v: RefsValue, a: Receipt, b: Receipt)
    requires v.receipts == [a, b] == NormalReceipts([a, b]) && a.refId == b.refId
    ensures NormalForm(v, RefsValue(NormalHeader(v.header, 2), [a, b]))
    ensures NormalForm(v, RefsValue(NormalHeader(v.header, 2), [b, a]))
  {
    hide NormalHeader, NormalReceipts, ById;
    SameOrder(a, b);
    assert multiset([b, a]) == multiset([a, b]);
  }

  lemma LocatorsDiffer(m: RefsValue, n: RefsValue)
    requires |m.receipts| > 0 && |n.receipts| > 0 && m.receipts[0].sourceLocator != n.receipts[0].sourceLocator
    ensures m != n && !SameButTimes(m, n)
  {
    assert m.receipts[0].(retrievedAt := n.receipts[0].retrievedAt).sourceLocator == m.receipts[0].sourceLocator;
  }

  lemma PlainReceipts(a: Receipt, b: Receipt)
    requires a == Receipt("ref_1", "doc", "a", "", "", 1, "", "unknown", 0, "", map[])
    requires b == a.(sourceLocator := "b")
    ensures NormalReceipts([a, b]) == [a, b]
  {
    hide ToLower, TrimSpace;
    UnknownStays();
    BlankIsTrimmed();
  }

  ghost predicate Tolerated(l: RefsValue, r: RefsValue, digest: RefsValue -> Digest) {
    Classify(l, r, digest).Classified? && Classify(l, r, digest).drift != Semantic
  }

  // The classification is symmetric; "no drift" and "at most runtime drift" are equivalences,
  // the second containing the first.
  lemma DriftIsEquivalence(a: RefsValue, b: RefsValue, c: RefsValue, digest: RefsValue -> Digest)
    requires Injective(digest) && Total(digest)
    ensures Classify(a, b, digest) == Classify(b, a, digest)
    ensures Classify(a, a, digest) == Classified(NoDrift, false, false)
    ensures Classify(a, b, digest).drift == NoDrift && Classify(b, c, digest).drift == NoDrift ==>
              Classify(a, c, digest).drift == NoDrift
    ensures Tolerated(a, b, digest) && Tolerated(b, c, digest) ==> Tolerated(a, c, digest)
  {
    hide SameButTimes, Runtime;
    DriftIsExact(a, b, digest);
    DriftIsExact(b, a, digest);
    DriftIsExact(a, a, digest);
    DriftIsExact(b, c, digest);
    DriftIsExact(a, c, digest);
    RuntimeIsSameButTimes(a, b);
    RuntimeIsSameButTimes(b, a);
    RuntimeIsSameButTimes(b, c);
    RuntimeIsSameButTimes(a, c);
  }

  // ----- calling twice -----

  // What a call leaves in the storage of a side.
  function Left(v: RefsValue, c: Classified): RefsValue {
    if c.Classified? && c.drift != NoDrift then v.(receipts := AllTimeless(v.receipts)) else v
  }

  // The price of working in place: a second call on what the first one left answers the same
  // unless the two sides differ in nothing but retrieval times; then it reports no drift.
  lemma SecondCallForgets(l: RefsValue, r: RefsValue, digest: RefsValue -> Digest)
    requires Injective(digest) && Total(digest)
    ensures var first := Classify(l, r, digest);
            var second := Classify(Left(l, first), Left(r, first), digest);
            var onlyTimes := l != r && SameButTimes(l, r) && l.header.contextSetDigest == r.header.contextSetDigest;
            && (second == first <==> !onlyTimes)
            && (onlyTimes ==> first.drift == RuntimeOnly && second.drift == NoDrift)
  {
    hide SameButTimes, Runtime, Classify, AllTimeless;
    TotalClassifies(l, r, digest);
    DriftIsExact(l, r, digest);
    var first := Classify(l, r, digest);
    var l', r' := Left(l, first), Left(r, first);
    TotalClassifies(l', r', digest);
    DriftIsExact(l', r', digest);
    if first.drift != NoDrift {
      RuntimeIsSameButTimes(l, r);
      RuntimeIsSameButTimes(l', r');
      TimelessOnce(l);
      TimelessOnce(r);
      LeftEqualIff(l, r);
    }
  }

  lemma TotalClassifies(l: RefsValue, r: RefsValue, digest: RefsValue -> Digest)
    requires Total(digest)
    ensures Classify(l, r, digest).Classified?
  {
    hide Runtime;
  }

  lemma TimelessOnce(v: RefsValue)
    ensures Runtime(v.(receipts := AllTimeless(v.receipts))) == Runtime(v)
  {
    assert AllTimeless(AllTimeless(v.receipts)) == AllTimeless(v.receipts);
  }

  lemma LeftEqualIff(l: RefsValue, r: RefsValue)
    ensures l.(receipts := AllTimeless(l.receipts)) == r.(receipts := AllTimeless(r.receipts)) <==>
              Runtime(l) == Runtime(r) && l.header.contextSetDigest == r.header.contextSetDigest
  {
    hide AllTimeless;
    if Runtime(l) == Runtime(r) {
      assert Runtime(l).header == Runtime(r).header && Runtime(l).receipts == Runtime(r).receipts;
    }
  }

  // The second call meets exactly that storage: what a call left of a normal form has no other
  // normal form, given ids that tell the receipts apart.
  lemma StorageStaysNormal(v: RefsValue, n: RefsValue, c: Classified, m: RefsValue)
    requires NormalForm(v, n) && Distinct(Ids(n.receipts))
    requires NormalForm(v.(receipts := Left(n, c).receipts), m)
    ensures m == Left(n, c)
  {
    hide NormalHeader, NormalReceipts, AllTimeless, SortedBy;
    NormalReceiptsStay(v.receipts, n.receipts);
    var left := Left(n, c).receipts;
    SameElementsSize(n.receipts, NormalReceipts(v.receipts));
    LeftIsSorted(n.receipts);
    SortedUnique(ById, left, m.receipts);
  }

  function Ids(receipts: seq<Receipt>): seq<string> {
    seq(|receipts|, i requires 0 <= i < |receipts| => receipts[i].refId)
  }

  lemma LeftIsSorted(s: seq<Receipt>)
    requires SortedBy(ById, s) && Distinct(Ids(s))
    ensures AntisymmetricOn(ById, s)
    ensures SortedBy(ById, AllTimeless(s)) && AntisymmetricOn(ById, AllTimeless(s))
  {
    hide Leq;
    IdsAntisymmetric(s);
    assert Ids(AllTimeless(s)) == Ids(s);
    IdsAntisymmetric(AllTimeless(s));
  }

  lemma IdsAntisymmetric(s: seq<Receipt>)
    requires Distinct(Ids(s))
    ensures AntisymmetricOn(ById, s)
  {
    hide ById;
    forall x, y | x in s && y in s && ById(x, y) && ById(y, x) ensures x == y {
      var i :| 0 <= i < |s| && s[i] == x;
      var j :| 0 <= j < |s| && s[j] == y;
      SameOrder(x, y);
      assert Ids(s)[i] == Ids(s)[j];
    }
  }

  // Two one-receipt refs that were retrieved a second apart.
  lemma SecondCallExample(l: RefsValue, r: RefsValue, digest: RefsValue -> Digest)
    requires Injective(digest) && Total(digest)
    requires l.receipts == [Receipt("ref_1", "doc", "a", "", "", 1, "", "unknown", 0, "", map[])]
    requires r == l.(receipts := [l.receipts[0].(retrievedAt := 2)])
    ensures Classify(l, r, digest) == Classified(RuntimeOnly, true, true)
    ensures Classify(Left(l, Classify(l, r, digest)), Left(r, Classify(l, r, digest)), digest) ==
            Classified(NoDrift, false, false)
  {
    hide Runtime, Classify, AllTimeless;
    assert SameButTimes(l, r) && l != r by { assert l.receipts[0].retrievedAt != r.receipts[0].retrievedAt; }
    TotalClassifies(l, r, digest);
    DriftIsExact(l, r, digest);
    SecondCallForgets(l, r, digest);
    var first := Classify(l, r, digest);
    TotalClassifies(Left(l, first), Left(r, first), digest);
    DriftIsExact(Left(l, first), Left(r, first), digest);
  }
}
