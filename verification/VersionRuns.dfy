/** Following the pages of the version listing to the end (src/storage/db/actor.rs:861-887): the order of the
    entries, and when the pages together are the whole listing. */
module VersionRuns {
  import opened Results
  import opened ByteStrings
  import opened Manifests
  import opened Scans
  import opened Listing
  import opened Pagination
  import opened VersionListing
  import opened VersionPages

  // ---- order ----

  /** Keys ascend, and the versions of one key come newest first. */
  predicate InOrder(entries: seq<VersionEntry>) {
    forall i, j :: 0 <= i < j < |entries| ==>
      || Less(KeyOf(entries[i]), KeyOf(entries[j]))
      || (KeyOf(entries[i]) == KeyOf(entries[j])
          && entries[i].manifest.lastModified >= entries[j].manifest.lastModified)
  }

  lemma BlockInOrder(groups: map<Bytes, seq<Manifest>>, k: Bytes)
    requires ProperGroups(groups) && k in groups
    ensures InOrder(Block(groups, k))
  {
    NewestFirstSpec(groups[k]);
    BlockIsOfKey(groups, k);
  }

  lemma ConcatInOrder(a: seq<VersionEntry>, b: seq<VersionEntry>)
    requires InOrder(a) && InOrder(b)
    requires forall x, y :: x in a && y in b ==> Less(KeyOf(x), KeyOf(y))
    ensures InOrder(a + b)
  {
    forall i, j | 0 <= i < |a| <= j < |a + b|
      ensures Less(KeyOf((a + b)[i]), KeyOf((a + b)[j]))
    {
      assert a[i] in a && b[j - |a|] in b;
    }
  }

  lemma EntryKeys(groups: map<Bytes, seq<Manifest>>, ks: seq<Bytes>, e: VersionEntry)
    requires ProperGroups(groups) && forall k :: k in ks ==> k in groups
    requires e in Entries(groups, ks)
    ensures KeyOf(e) in ks
  {
    EntriesMembers(groups, ks, e);
    var k :| k in ks && e in Flagged(NewestFirst(groups[k]), true);
    BlockIsOfKey(groups, k);
    var i :| 0 <= i < |Block(groups, k)| && Block(groups, k)[i] == e;
  }

  lemma BlockBelowRest(groups: map<Bytes, seq<Manifest>>, ks: seq<Bytes>, x: VersionEntry, y: VersionEntry)
    requires ProperGroups(groups) && Ascending(ks) && ks != [] && forall k :: k in ks ==> k in groups
    requires ks[0] in groups && x in Block(groups, ks[0]) && y in Entries(groups, ks[1..])
    ensures Less(KeyOf(x), KeyOf(y))
  {
    BlockIsOfKey(groups, ks[0]);
    var i :| 0 <= i < |Block(groups, ks[0])| && Block(groups, ks[0])[i] == x;
    EntryKeys(groups, ks[1..], y);
    var j :| 0 <= j < |ks[1..]| && ks[1..][j] == KeyOf(y);
    assert ks[j + 1] == KeyOf(y);
  }

  lemma {:induction false} EntriesInOrder(groups: map<Bytes, seq<Manifest>>, ks: seq<Bytes>)
    requires ProperGroups(groups) && Ascending(ks) && forall k :: k in ks ==> k in groups
    ensures InOrder(Entries(groups, ks))
  {
    if ks != [] {
      EntriesSplit(groups, ks);
      EntriesInOrder(groups, ks[1..]);
      BlockInOrder(groups, ks[0]);
      forall x, y | x in Block(groups, ks[0]) && y in Entries(groups, ks[1..])
        ensures Less(KeyOf(x), KeyOf(y))
      {
        BlockBelowRest(groups, ks, x, y);
      }
      ConcatInOrder(Block(groups, ks[0]), Entries(groups, ks[1..]));
    }
  }

  /** Versions are listed key by key in ascending order, and newest first within a key. */
  lemma VersionsInOrder(o: Objects, req: ListRequest)
    ensures InOrder(AllEntries(o, req))
  {
    var groups := GroupByKey(Matching(o, req));
    SortedSpec(groups.Keys);
    GroupByKeyKeys(Matching(o, req));
    EntriesInOrder(groups, Sorted(groups.Keys));
  }

  // ---- where a cursor leads ----

  /** The end of the key that the `n`-th entry belongs to. */
  lemma {:induction false} KeyEnd(all: seq<VersionEntry>, n: nat) returns (r: nat)
    requires 1 <= n <= |all|
    ensures n <= r <= |all| && KeyOf(all[r - 1]) == KeyOf(all[n - 1])
    ensures r < |all| ==> KeyOf(all[r - 1]) != KeyOf(all[r])
    ensures r == n <==> n == |all| || KeyOf(all[n - 1]) != KeyOf(all[n])
    decreases |all| - n
  {
    r := n;
    if n < |all| && KeyOf(all[n - 1]) == KeyOf(all[n]) {
      r := KeyEnd(all, n + 1);
    }
  }

  /** An entry under a key that is listed, and greater than the key of the last entry: there is none. */
  predicate BeyondLast(all: seq<VersionEntry>, last: VersionEntry, e: VersionEntry) {
    Less(KeyOf(last), KeyOf(e)) && exists i :: 0 <= i < |all| && KeyOf(all[i]) == KeyOf(e)
  }

  lemma NoneBeyondLast(all: seq<VersionEntry>, last: VersionEntry, e: VersionEntry)
    requires InOrder(all) && all != [] && last == all[|all| - 1]
    ensures !BeyondLast(all, last, e)
  {
    if BeyondLast(all, last, e) {
      var i :| 0 <= i < |all| && KeyOf(all[i]) == KeyOf(e);
      LessTotal(KeyOf(all[i]), KeyOf(last));
      LessIrreflexive(KeyOf(last));
      assert false;
    }
  }

  lemma CursorIsResumable(o: Objects, req: ListRequest, last: VersionEntry)
    requires WellFormed(o) && ProperRequest(req) && Resumable(req) && last in AllEntries(o, req)
    ensures Resumable(ResumedAfter(req, KeyOf(last)))
  {
    EntryIsMatching(o, req, last);
    GroupsResume(o, req, last.manifest, []);
  }

  /** What is listed behind a cursor is listed without it, under a greater key. */
  lemma BehindLast(o: Objects, req: ListRequest, last: VersionEntry, e: VersionEntry)
    requires WellFormed(o) && ProperRequest(req) && Resumable(req) && last in AllEntries(o, req)
    requires e in AllEntries(o, ResumedAfter(req, KeyOf(last)))
    ensures BeyondLast(AllEntries(o, req), last, e)
  {
    var next := ResumedAfter(req, KeyOf(last));
    CursorIsResumable(o, req, last);
    VersionsAreExact(o, next, e.manifest, e.isLatest);
    VersionsAreExact(o, req, last.manifest, last.isLatest);
    ScopeGrows(req, KeyOf(last), KeyOf(e));
    VersionsAreExact(o, req, e.manifest, e.isLatest);
    var i :| 0 <= i < |AllEntries(o, req)| && AllEntries(o, req)[i] == e;
  }

  lemma NothingBehindLast(o: Objects, req: ListRequest, all: seq<VersionEntry>, last: VersionEntry)
    requires WellFormed(o) && ProperRequest(req) && Resumable(req) && all == AllEntries(o, req)
    requires last in all && last == all[|all| - 1]
    ensures AllEntries(o, ResumedAfter(req, KeyOf(last))) == []
  {
    VersionsInOrder(o, req);
    var rest := AllEntries(o, ResumedAfter(req, KeyOf(last)));
    if rest != [] {
      assert rest[0] in rest;
      BehindLast(o, req, last, rest[0]);
      NoneBeyondLast(all, last, rest[0]);
      assert false;
    }
  }

  lemma ContinuesAt(o: Objects, req: ListRequest, all: seq<VersionEntry>, r: nat, key: Bytes)
    requires WellFormed(o) && ProperRequest(req) && Resumable(req) && all == AllEntries(o, req) && 1 <= r < |all|
    requires key == KeyOf(all[r - 1]) && key != KeyOf(all[r])
    ensures AllEntries(o, ResumedAfter(req, key)) == all[r..]
  {
    ContinuesBetweenKeys(o, req, r);
  }

  lemma ResumesAt(o: Objects, req: ListRequest, all: seq<VersionEntry>, r: nat, key: Bytes)
    requires WellFormed(o) && ProperRequest(req) && Resumable(req) && all == AllEntries(o, req) && 1 <= r <= |all|
    requires key == KeyOf(all[r - 1]) && (r < |all| ==> key != KeyOf(all[r]))
    ensures AllEntries(o, ResumedAfter(req, key)) == all[r..]
  {
    if r < |all| {
      ContinuesAt(o, req, all, r, key);
    } else {
      NothingBehindLast(o, req, all, all[r - 1]);
    }
  }

  /** Where the listing goes on behind the key of the `n`-th entry: not before the end of a page of `n` entries,
      and there exactly if that is between two keys. */
  lemma ResumesAtKeyEnd(o: Objects, req: ListRequest, all: seq<VersionEntry>, n: nat, key: Bytes) returns (r: nat)
    requires WellFormed(o) && ProperRequest(req) && Resumable(req) && all == AllEntries(o, req) && 1 <= n <= |all|
    requires key == KeyOf(all[n - 1])
    ensures Resumable(ResumedAfter(req, key))
    ensures n <= r <= |all| && AllEntries(o, ResumedAfter(req, key)) == all[r..]
    ensures r == n <==> n == |all| || key != KeyOf(all[n])
  {
    CursorIsResumable(o, req, all[n - 1]);
    r := KeyEnd(all, n);
    ResumesAt(o, req, all, r, key);
  }

  /** A page holds as many entries as fit, in order, and says that it is truncated exactly if some are left. */
  lemma VersionPageHolds(o: Objects, req: ListRequest)
    ensures var all, page := AllEntries(o, req), VersionPageOf(AllEntries(o, req), req.limit);
      && page.entries <= all && |page.entries| <= req.limit
      && (|page.entries| < req.limit ==> page.entries == all)
      && (page.truncated <==> |page.entries| < |all|)
  {
  }

  // ---- all pages ----

  function NextRequest(o: Objects, req: ListRequest): ListRequest {
    req.(cursor := VersionPageOf(AllEntries(o, req), req.limit).nextCursor)
  }

  lemma NextPage(o: Objects, req: ListRequest, all: seq<VersionEntry>, next: ListRequest) returns (r: nat)
    requires WellFormed(o) && ProperRequest(req) && Resumable(req) && req.limit >= 1
    requires all == AllEntries(o, req) && |all| > req.limit && next == NextRequest(o, req)
    ensures Resumable(next) && req.limit <= r <= |all| && AllEntries(o, next) == all[r..]
    ensures r == req.limit <==> KeyChanges(all, req.limit)
  {
    assert next == ResumedAfter(req, KeyOf(all[req.limit - 1]));
    r := ResumesAtKeyEnd(o, req, all, req.limit, KeyOf(all[req.limit - 1]));
  }

  lemma NextIsShorter(o: Objects, req: ListRequest)
    requires WellFormed(o) && ProperRequest(req) && Resumable(req) && req.limit >= 1
    requires |AllEntries(o, req)| > req.limit
    ensures Resumable(NextRequest(o, req)) && |AllEntries(o, NextRequest(o, req))| < |AllEntries(o, req)|
  {
    var r := NextPage(o, req, AllEntries(o, req), NextRequest(o, req));
  }

  /** All entries a client collects by following the cursors until there is none. */
  ghost function FollowVersions(o: Objects, req: ListRequest): seq<VersionEntry>
    requires WellFormed(o) && ProperRequest(req) && Resumable(req) && req.limit >= 1
    decreases |AllEntries(o, req)|
  {
    var page := VersionPageOf(AllEntries(o, req), req.limit);
    if page.nextCursor.None? then page.entries
    else
      NextIsShorter(o, req);
      page.entries + FollowVersions(o, NextRequest(o, req))
  }

  /** Every page but the last ends with the last version of its key. */
  ghost predicate PagesEndBetweenKeys(o: Objects, req: ListRequest)
    requires WellFormed(o) && ProperRequest(req) && Resumable(req) && req.limit >= 1
    decreases |AllEntries(o, req)|
  {
    var all := AllEntries(o, req);
    if |all| <= req.limit then true
    else
      NextIsShorter(o, req);
      KeyChanges(all, req.limit) && PagesEndBetweenKeys(o, NextRequest(o, req))
  }

  lemma FollowStep(o: Objects, req: ListRequest, all: seq<VersionEntry>, next: ListRequest)
    requires WellFormed(o) && ProperRequest(req) && Resumable(req) && req.limit >= 1
    requires all == AllEntries(o, req) && |all| > req.limit && next == NextRequest(o, req) && Resumable(next)
    ensures FollowVersions(o, req) == all[..req.limit] + FollowVersions(o, next)
  {
  }

  lemma PagesStep(o: Objects, req: ListRequest, all: seq<VersionEntry>, next: ListRequest)
    requires WellFormed(o) && ProperRequest(req) && Resumable(req) && req.limit >= 1
    requires all == AllEntries(o, req) && |all| > req.limit && next == NextRequest(o, req) && Resumable(next)
    ensures PagesEndBetweenKeys(o, req) <==>
              KeyChanges(all, req.limit) && PagesEndBetweenKeys(o, next)
  {
  }

  lemma {:induction false} FollowedAtMost(o: Objects, req: ListRequest)
    requires WellFormed(o) && ProperRequest(req) && Resumable(req) && req.limit >= 1
    ensures |FollowVersions(o, req)| <= |AllEntries(o, req)|
    decreases |AllEntries(o, req)|
  {
    var all, next := AllEntries(o, req), NextRequest(o, req);
    if |all| > req.limit {
      var r := NextPage(o, req, all, next);
      FollowStep(o, req, all, next);
      FollowedAtMost(o, next);
    }
  }

  /** A page of `n` entries and what follows from position `r` on are everything exactly if no entry lies
      between them. */
  lemma JoinedIff(all: seq<VersionEntry>, n: nat, r: nat, rest: seq<VersionEntry>)
    requires n <= r <= |all| && |rest| <= |all| - r
    ensures all[..n] + rest == all <==> r == n && rest == all[r..]
  {
    if all[..n] + rest == all {
      assert |all[..n] + rest| == n + |rest|;
      assert (all[..n] + rest)[n..] == rest;
    }
    assert all[..n] + all[n..] == all;
  }

  /** The pages, put together, are the whole version listing if and only if every page but the last ends with
      the last version of its key. */
  lemma {:induction false} VersionPagesAreLosslessIff(o: Objects, req: ListRequest)
    requires WellFormed(o) && ProperRequest(req) && Resumable(req) && req.limit >= 1
    ensures FollowVersions(o, req) == AllEntries(o, req) <==> PagesEndBetweenKeys(o, req)
    decreases |AllEntries(o, req)|
  {
    var all, next := AllEntries(o, req), NextRequest(o, req);
    if |all| > req.limit {
      var r := NextPage(o, req, all, next);
      FollowStep(o, req, all, next);
      PagesStep(o, req, all, next);
      FollowedAtMost(o, next);
      VersionPagesAreLosslessIff(o, next);
      JoinedIff(all, req.limit, r, FollowVersions(o, next));
    }
  }
}
