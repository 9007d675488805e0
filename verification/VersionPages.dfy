/** Pages of the version listing (src/storage/db/actor.rs:861-887): a cursor names a key only, so the next
    page goes on where the last one ended exactly if that one ended between two keys. */
module VersionPages {
  import opened Results
  import opened ByteStrings
  import opened Sequences
  import opened Manifests
  import opened Scans
  import opened Listing
  import opened Pagination
  import opened VersionListing

  function KeyOf(e: VersionEntry): Bytes {
    e.manifest.key.key
  }

  predicate ProperGroups(groups: map<Bytes, seq<Manifest>>) {
    forall k :: k in groups ==> forall m :: m in groups[k] ==> m.key.key == k
  }

  lemma BlockKeys(groups: map<Bytes, seq<Manifest>>, k: Bytes, i: nat)
    requires ProperGroups(groups) && k in groups && i < |NewestFirst(groups[k])|
    ensures KeyOf(Flagged(NewestFirst(groups[k]), true)[i]) == k
  {
    var ms := NewestFirst(groups[k]);
    SortedMembers(groups[k], ms[i]);
    assert ms[i] in ms;
  }

  lemma AtBlock(block: seq<VersionEntry>, rest: seq<VersionEntry>)
    ensures (block + rest)[|block|..] == rest
  {
  }

  lemma BehindBlock(block: seq<VersionEntry>, rest: seq<VersionEntry>, n: nat)
    requires |block| < n < |block + rest|
    ensures (block + rest)[n - 1] == rest[n - |block| - 1] && (block + rest)[n] == rest[n - |block|]
    ensures (block + rest)[n..] == rest[n - |block|..]
  {
  }

  /** The entries of one key. */
  function Block(groups: map<Bytes, seq<Manifest>>, k: Bytes): seq<VersionEntry>
    requires k in groups
  {
    Flagged(NewestFirst(groups[k]), true)
  }

  predicate AllOfKey(entries: seq<VersionEntry>, k: Bytes) {
    forall i :: 0 <= i < |entries| ==> KeyOf(entries[i]) == k
  }

  lemma BlockIsOfKey(groups: map<Bytes, seq<Manifest>>, k: Bytes)
    requires ProperGroups(groups) && k in groups
    ensures AllOfKey(Block(groups, k), k)
  {
    forall i | 0 <= i < |Block(groups, k)|
      ensures KeyOf(Block(groups, k)[i]) == k
    {
      BlockKeys(groups, k, i);
    }
  }

  /** The key changes before the `n`-th entry. */
  predicate KeyChanges(entries: seq<VersionEntry>, n: nat) {
    0 < n < |entries| && KeyOf(entries[n - 1]) != KeyOf(entries[n])
  }

  /** The key changes where the first block ends, or within the rest. */
  lemma KeyChangesWhere(block: seq<VersionEntry>, rest: seq<VersionEntry>, k: Bytes, n: nat)
    requires AllOfKey(block, k) && KeyChanges(block + rest, n)
    ensures |block| <= n
    ensures |block| == n ==> KeyOf((block + rest)[n - 1]) == k && (block + rest)[n..] == rest
    ensures |block| < n ==>
              && KeyChanges(rest, n - |block|) && KeyOf(rest[n - |block| - 1]) == KeyOf((block + rest)[n - 1])
              && (block + rest)[n..] == rest[n - |block|..]
  {
    if n == |block| {
      AtBlock(block, rest);
    } else if n > |block| {
      BehindBlock(block, rest, n);
    }
  }

  lemma EntriesSplit(groups: map<Bytes, seq<Manifest>>, ks: seq<Bytes>)
    requires ks != [] && forall k :: k in ks ==> k in groups
    ensures ks[0] in groups && Entries(groups, ks) == Block(groups, ks[0]) + Entries(groups, ks[1..])
  {
    assert ks[0] in ks;
  }

  /** Where the key changes, the entries that follow are those of the later keys. */
  lemma {:induction false} TailAtBoundary(groups: map<Bytes, seq<Manifest>>, ks: seq<Bytes>, all: seq<VersionEntry>,
        n: nat) returns (j: nat)
    requires ProperGroups(groups) && (forall k :: k in ks ==> k in groups) && all == Entries(groups, ks)
    requires KeyChanges(all, n)
    ensures j < |ks| && ks[j] == KeyOf(all[n - 1]) && all[n..] == Entries(groups, ks[j + 1..])
    decreases |ks|
  {
    EntriesSplit(groups, ks);
    var block, rest := Block(groups, ks[0]), Entries(groups, ks[1..]);
    BlockIsOfKey(groups, ks[0]);
    KeyChangesWhere(block, rest, ks[0], n);
    if n == |block| {
      j := 0;
    } else {
      var later := TailAtBoundary(groups, ks[1..], rest, n - |block|);
      j := later + 1;
      assert ks[1..][later + 1..] == ks[j + 1..];
    }
  }

  lemma AscendingUnique(a: seq<Bytes>, b: seq<Bytes>)
    requires Ascending(a) && Ascending(b) && forall k :: k in a <==> k in b
    ensures a == b
  {
    var less := (x: Bytes, y: Bytes) => Less(x, y);
    forall x, y | less(x, y)
      ensures !less(y, x)
    {
      LessTotal(x, y);
    }
    IncreasingUnique(a, b, less);
  }

  lemma KeysBehind(ks: seq<Bytes>, j: nat, k: Bytes)
    requires Ascending(ks) && j < |ks|
    ensures Ascending(ks[j + 1..])
    ensures k in ks[j + 1..] <==> k in ks && Less(ks[j], k)
  {
    if k in ks && Less(ks[j], k) {
      var i :| 0 <= i < |ks| && ks[i] == k;
      LessTotal(k, ks[j]);
      LessIrreflexive(k);
      assert i > j;
      assert ks[j + 1..][i - j - 1] == k;
    }
  }

  lemma {:induction false} EntriesSame(a: map<Bytes, seq<Manifest>>, b: map<Bytes, seq<Manifest>>, ks: seq<Bytes>)
    requires forall k :: k in ks ==> k in a && k in b && a[k] == b[k]
    ensures Entries(a, ks) == Entries(b, ks)
  {
    if ks != [] {
      assert ks[0] in ks;
      EntriesSame(a, b, ks[1..]);
    }
  }

  function ResumedAfter(req: ListRequest, key: Bytes): ListRequest {
    req.(cursor := Some(AfterKey(key)))
  }

  /** Resuming after a key in scope finds the groups of the greater keys, unchanged. */
  lemma GroupsResume(o: Objects, req: ListRequest, from: Manifest, key: Bytes)
    requires WellFormed(o) && ProperRequest(req) && Resumable(req) && from in Matching(o, req)
    ensures Resumable(ResumedAfter(req, from.key.key))
    ensures var groups, later := GroupByKey(Matching(o, req)), GroupByKey(Matching(o, ResumedAfter(req, from.key.key)));
      && (key in later <==> key in groups && Less(from.key.key, key))
      && (key in later ==> later[key] == groups[key])
  {
    var next := ResumedAfter(req, from.key.key);
    MatchingMembers(o, req, from);
    PrefixLeq(req.prefix, from.key.key);
    MatchingMembers(o, next, from);
    var ms, later := Matching(o, req), Matching(o, next);
    OfKeyMembers(ms, key);
    OfKeyMembers(later, key);
    GroupByKeySpec(ms, key);
    GroupByKeySpec(later, key);
    forall m: Manifest | m.key.key == key
      ensures m in later <==> m in ms && Less(from.key.key, key)
    {
      MatchingMembers(o, req, m);
      MatchingMembers(o, next, m);
      if req.prefix <= key && Less(from.key.key, key) {
        ScopeGrows(req, from.key.key, key);
      }
    }
    if Less(from.key.key, key) {
      RowOrderUnique(OfKey(later, key), OfKey(ms, key));
    }
    EmptyOrNot(OfKey(ms, key));
    EmptyOrNot(OfKey(later, key));
  }

  lemma EmptyOrNot(ms: seq<Manifest>)
    ensures ms == [] || exists m :: m in ms
  {
    if ms != [] {
      assert ms[0] in ms;
    }
  }

  /** The listing resumed after the `j`-th key is that of the keys behind it. */
  lemma ResumedEntries(o: Objects, req: ListRequest, from: Manifest, j: nat)
    requires WellFormed(o) && ProperRequest(req) && Resumable(req) && from in Matching(o, req)
    requires var ks := Sorted(GroupByKey(Matching(o, req)).Keys); j < |ks| && ks[j] == from.key.key
    ensures var groups := GroupByKey(Matching(o, req));
      var ks := Sorted(groups.Keys);
      && (forall k :: k in ks[j + 1..] ==> k in groups)
      && AllEntries(o, ResumedAfter(req, from.key.key)) == Entries(groups, ks[j + 1..])
  {
    var groups, later := GroupByKey(Matching(o, req)), GroupByKey(Matching(o, ResumedAfter(req, from.key.key)));
    var ks, ks' := Sorted(groups.Keys), Sorted(later.Keys);
    SortedSpec(groups.Keys);
    SortedSpec(later.Keys);
    forall k
      ensures k in ks' <==> k in ks[j + 1..]
      ensures k in ks' ==> k in groups && later[k] == groups[k]
    {
      GroupsResume(o, req, from, k);
      KeysBehind(ks, j, k);
    }
    KeysBehind(ks, j, []);
    AscendingUnique(ks', ks[j + 1..]);
    EntriesSame(later, groups, ks');
  }

  lemma EntryIsMatching(o: Objects, req: ListRequest, e: VersionEntry)
    requires WellFormed(o) && ProperRequest(req) && Resumable(req) && e in AllEntries(o, req)
    ensures e.manifest in Matching(o, req)
  {
    VersionsAreExact(o, req, e.manifest, e.isLatest);
    MatchingMembers(o, req, e.manifest);
  }

  lemma ContinuesBetweenKeys(o: Objects, req: ListRequest, n: nat)
    requires WellFormed(o) && ProperRequest(req) && Resumable(req) && 1 <= n < |AllEntries(o, req)|
    requires KeyOf(AllEntries(o, req)[n - 1]) != KeyOf(AllEntries(o, req)[n])
    ensures AllEntries(o, ResumedAfter(req, KeyOf(AllEntries(o, req)[n - 1]))) == AllEntries(o, req)[n..]
  {
    var last := AllEntries(o, req)[n - 1];
    assert last in AllEntries(o, req);
    EntryIsMatching(o, req, last);
    var groups := GroupByKey(Matching(o, req));
    SortedSpec(groups.Keys);
    GroupByKeyKeys(Matching(o, req));
    var j := TailAtBoundary(groups, Sorted(groups.Keys), AllEntries(o, req), n);
    ResumedEntries(o, req, last.manifest, j);
  }

  /** A resumed listing never goes back to the key it resumes after. */
  lemma ResumedSkipsKey(o: Objects, req: ListRequest, key: Bytes, e: VersionEntry)
    requires WellFormed(o) && ProperRequest(req) && Resumable(ResumedAfter(req, key))
    requires e in AllEntries(o, ResumedAfter(req, key))
    ensures KeyOf(e) != key
  {
    VersionsAreExact(o, ResumedAfter(req, key), e.manifest, e.isLatest);
    LessIrreflexive(key);
  }

  lemma TruncatedPage(all: seq<VersionEntry>, n: nat)
    requires 1 <= n < |all|
    ensures VersionPageOf(all, n).nextCursor == Some(AfterKey(KeyOf(all[n - 1])))
  {
  }

  /** A truncated page of `n` entries hands out the key of its last entry as cursor, and what is listed
      from there on is exactly the remaining entries if and only if that entry is the last of its key. */
  lemma NextVersionPageContinuesIff(o: Objects, req: ListRequest, n: nat)
    requires WellFormed(o) && ProperRequest(req) && Resumable(req) && 1 <= n < |AllEntries(o, req)|
    ensures VersionPageOf(AllEntries(o, req), n).nextCursor == Some(AfterKey(KeyOf(AllEntries(o, req)[n - 1])))
    ensures var all := AllEntries(o, req);
      var next := ResumedAfter(req, KeyOf(all[n - 1]));
      Resumable(next) && (AllEntries(o, next) == all[n..] <==> KeyOf(all[n - 1]) != KeyOf(all[n]))
  {
    var last, first := AllEntries(o, req)[n - 1], AllEntries(o, req)[n];
    assert last in AllEntries(o, req);
    TruncatedPage(AllEntries(o, req), n);
    EntryIsMatching(o, req, last);
    GroupsResume(o, req, last.manifest, []);
    if KeyOf(last) != KeyOf(first) {
      ContinuesBetweenKeys(o, req, n);
    } else if first in AllEntries(o, ResumedAfter(req, KeyOf(last))) {
      ResumedSkipsKey(o, req, KeyOf(last), first);
    }
  }

  // ---- losing a version ----

  lemma TwoMembers<T>(s: seq<T>, x: T, y: T)
    requires x in s && y in s && x != y
    ensures |s| >= 2
  {
    var i :| 0 <= i < |s| && s[i] == x;
    var j :| 0 <= j < |s| && s[j] == y;
    assert i != j;
  }

  lemma EntryOf(o: Objects, req: ListRequest, m: Manifest) returns (e: VersionEntry)
    requires WellFormed(o) && ProperRequest(req) && Resumable(req)
    requires Has(o, m) && m.key.bucket == req.bucket && m.state == Committed && req.prefix <= m.key.key
    requires InScope(req, m.key.key)
    ensures e in AllEntries(o, req) && e.manifest == m
  {
    VersionsAreExact(o, req, m, true);
    VersionsAreExact(o, req, m, false);
    e := VersionEntry(m, Current(o, req.bucket, m.key.key) == Some(m));
    CurrentIff(o, req.bucket, m.key.key, m);
  }

  lemma NothingAfterOnlyKey(o: Objects, req: ListRequest, key: Bytes)
    requires WellFormed(o) && ProperRequest(req) && Resumable(req) && Resumable(ResumedAfter(req, key))
    requires req.cursor == None
    requires forall e :: e in AllEntries(o, req) ==> KeyOf(e) == key
    ensures AllEntries(o, ResumedAfter(req, key)) == []
  {
    var next := ResumedAfter(req, key);
    if AllEntries(o, next) != [] {
      var e := AllEntries(o, next)[0];
      assert e in AllEntries(o, next);
      ResumedSkipsKey(o, req, key, e);
      VersionsAreExact(o, next, e.manifest, e.isLatest);
      PrefixLeq(req.prefix, KeyOf(e));
      VersionsAreExact(o, req, e.manifest, e.isLatest);
      assert false;
    }
  }

  /** The entry is neither on the first page nor on the next one, which is the last. */
  ghost predicate LosesVersion(o: Objects, req: ListRequest, e: VersionEntry) {
    var page := VersionPageOf(AllEntries(o, req), req.limit);
    && WellFormed(o) && ProperRequest(req) && Resumable(req) && req.limit >= 1
    && e in AllEntries(o, req) && e !in page.entries
    && page.nextCursor.Some? && AllEntries(o, req.(cursor := page.nextCursor)) == []
  }

  /** A page of one entry of a key with several versions, where there is no other key. */
  lemma FirstPageLoses(o: Objects, req: ListRequest, key: Bytes, e: VersionEntry)
    requires WellFormed(o) && ProperRequest(req) && Resumable(req) && req.cursor == None && req.limit == 1
    requires forall x :: x in AllEntries(o, req) ==> KeyOf(x) == key
    requires e in AllEntries(o, req) && |AllEntries(o, req)| >= 2 && AllEntries(o, req)[0] != e
    ensures LosesVersion(o, req, e)
  {
    var all := AllEntries(o, req);
    assert all[0] in all;
    NextVersionPageContinuesIff(o, req, 1);
    NothingAfterOnlyKey(o, req, key);
    TruncatedPage(all, 1);
    assert VersionPageOf(all, 1).entries == [all[0]];
  }
}
