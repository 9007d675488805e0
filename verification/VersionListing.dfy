/** Listing all versions (src/storage/db/actor.rs:820-888): which entries there are and which one
    of them is flagged as the latest. */
module VersionListing {
  import opened Results
  import opened ByteStrings
  import opened Manifests
  import opened Scans
  import opened Listing
  import opened Pagination

  datatype VersionEntry = VersionEntry(manifest: Manifest, isLatest: bool)

  datatype VersionPage = VersionPage(entries: seq<VersionEntry>, truncated: bool, nextCursor: Option<ListCursor>)

  /** The entries of one key, the first of them flagged unless some were emitted before. */
  function Flagged(ms: seq<Manifest>, first: bool): (r: seq<VersionEntry>)
    ensures |r| == |ms| && forall i :: 0 <= i < |ms| ==> r[i] == VersionEntry(ms[i], first && i == 0)
  {
    if ms == [] then [] else [VersionEntry(ms[0], first)] + Flagged(ms[1..], false)
  }

  /** The entries of all groups, key by key, newest version first. */
  function Entries(groups: map<Bytes, seq<Manifest>>, ks: seq<Bytes>): seq<VersionEntry>
    requires forall k :: k in ks ==> k in groups
  {
    if ks == [] then [] else Flagged(NewestFirst(groups[ks[0]]), true) + Entries(groups, ks[1..])
  }

  /** The entries of one key from a position on, followed by others. */
  function FlaggedFrom(ms: seq<Manifest>, i: nat, tail: seq<VersionEntry>): seq<VersionEntry>
    requires i <= |ms|
  {
    Flagged(ms[i..], i == 0) + tail
  }

  lemma FlaggedStep(ms: seq<Manifest>, i: nat, tail: seq<VersionEntry>)
    requires i < |ms|
    ensures FlaggedFrom(ms, i, tail) == [VersionEntry(ms[i], i == 0)] + FlaggedFrom(ms, i + 1, tail)
  {
    assert ms[i..][1..] == ms[i + 1..];
  }

  lemma FlaggedEnd(ms: seq<Manifest>, tail: seq<VersionEntry>)
    ensures FlaggedFrom(ms, |ms|, tail) == tail
  {
  }

  lemma EntriesStep(groups: map<Bytes, seq<Manifest>>, ks: seq<Bytes>, i: nat)
    requires (forall k :: k in ks ==> k in groups) && i < |ks|
    ensures Entries(groups, ks[i..]) == FlaggedFrom(NewestFirst(groups[ks[i]]), 0, Entries(groups, ks[i + 1..]))
  {
    assert ks[i..][1..] == ks[i + 1..];
    assert NewestFirst(groups[ks[i]])[0..] == NewestFirst(groups[ks[i]]);
  }

  /** All entries from the request's cursor on, without a page limit. */
  function AllEntries(o: Objects, req: ListRequest): seq<VersionEntry> {
    var groups := GroupByKey(Matching(o, req));
    SortedSpec(groups.Keys);
    Entries(groups, Sorted(groups.Keys))
  }

  function VersionPageOf(entries: seq<VersionEntry>, limit: nat): VersionPage {
    if |entries| <= limit then VersionPage(entries, false, None)
    else
      var next := if limit == 0 then None else Some(AfterKey(entries[limit - 1].manifest.key.key));
      VersionPage(entries[..limit], true, next)
  }

  lemma {:induction false} EntriesMembers(groups: map<Bytes, seq<Manifest>>, ks: seq<Bytes>, e: VersionEntry)
    requires forall k :: k in ks ==> k in groups
    ensures e in Entries(groups, ks) <==> exists k :: k in ks && e in Flagged(NewestFirst(groups[k]), true)
  {
    if ks != [] {
      EntriesMembers(groups, ks[1..], e);
      assert ks == [ks[0]] + ks[1..];
    }
  }

  lemma {:induction false} GroupByKeyKeys(ms: seq<Manifest>)
    ensures forall k :: k in GroupByKey(ms) ==>
              GroupByKey(ms)[k] != [] && forall m :: m in GroupByKey(ms)[k] ==> m in ms && m.key.key == k
  {
    if ms != [] {
      GroupByKeyKeys(ms[..|ms| - 1]);
      assert ms == ms[..|ms| - 1] + [ms[|ms| - 1]];
    }
  }

  /** Same rows sorted: nothing is added or lost. */
  lemma SortedMembers(ms: seq<Manifest>, m: Manifest)
    ensures m in NewestFirst(ms) <==> m in ms
  {
    NewestFirstSpec(ms);
    assert m in NewestFirst(ms) <==> m in multiset(NewestFirst(ms));
  }

  /** Sorting a group of distinct rows keeps them distinct, so the head occurs once. */
  lemma HeadOccursOnce(ms: seq<Manifest>, i: int)
    requires RowOrder(ms) && 0 < i < |NewestFirst(ms)|
    ensures NewestFirst(ms)[i] != NewestFirst(ms)[0]
  {
    NewestFirstSpec(ms);
    var s := NewestFirst(ms);
    MultiplicityAtMostOne(ms, s[0]);
    if s[i] == s[0] {
      OccursTwice(s, 0, i);
      assert false;
    }
  }

  lemma OccursTwice(s: seq<Manifest>, i: int, j: int)
    requires 0 <= i < j < |s| && s[i] == s[j]
    ensures multiset(s)[s[i]] >= 2
  {
    assert s == s[..i] + [s[i]] + s[i + 1..j] + [s[j]] + s[j + 1..];
  }

  lemma {:induction false} MultiplicityAtMostOne(ms: seq<Manifest>, m: Manifest)
    requires RowOrder(ms)
    ensures multiset(ms)[m] <= 1
  {
    if ms != [] {
      MultiplicityAtMostOne(ms[1..], m);
      assert ms == [ms[0]] + ms[1..];
      TailMembers(ms, ms[0]);
      assert m == ms[0] ==> m !in multiset(ms[1..]);
    }
  }

  lemma MatchingSeesWholeKey(o: Objects, req: ListRequest, key: Bytes)
    requires WellFormed(o) && ProperRequest(req) && Resumable(req) && req.prefix <= key && InScope(req, key)
    ensures SeesWholeKey(o, Matching(o, req), req.bucket, key)
    ensures forall m :: m in Matching(o, req) ==> m.state == Committed
  {
    forall m
      ensures m in Matching(o, req)
         <==> Has(o, m) && m.key.bucket == req.bucket && m.state == Committed
              && req.prefix <= m.key.key && InScope(req, m.key.key)
      ensures RowOrder(Matching(o, req))
    {
      MatchingMembers(o, req, m);
    }
    MatchingMembers(o, req, PlainObject([], []));
  }

  /** Every committed version in scope is listed, whatever its kind, and nothing else; the flag marks
      exactly the current version of its key. */
  lemma VersionsAreExact(o: Objects, req: ListRequest, m: Manifest, isLatest: bool)
    requires WellFormed(o) && ProperRequest(req) && Resumable(req)
    ensures VersionEntry(m, isLatest) in AllEntries(o, req)
       <==> Has(o, m) && m.key.bucket == req.bucket && m.state == Committed
            && req.prefix <= m.key.key && InScope(req, m.key.key)
            && (isLatest <==> IsCurrent(o, req.bucket, m.key.key, m))
  {
    var ms := Matching(o, req);
    var groups := GroupByKey(ms);
    var key := m.key.key;
    var e := VersionEntry(m, isLatest);
    SortedSpec(groups.Keys);
    EntriesMembers(groups, Sorted(groups.Keys), e);
    GroupByKeyKeys(ms);
    MatchingMembers(o, req, m);
    OfKeyMembers(ms, key);
    GroupByKeySpec(ms, key);
    if m in ms {
      OneGroup(o, req, m, isLatest);
    }
    if k :| k in Sorted(groups.Keys) && e in Flagged(NewestFirst(groups[k]), true) {
      var i :| 0 <= i < |NewestFirst(groups[k])| && NewestFirst(groups[k])[i] == m;
      SortedMembers(groups[k], m);
      assert m in ms && k == key;
    }
  }

  /** Within a sorted group, exactly the head is flagged. */
  lemma FlaggedIffHead(group: seq<Manifest>, m: Manifest, isLatest: bool)
    requires RowOrder(group) && m in group
    ensures var s := NewestFirst(group);
      s != [] && (VersionEntry(m, isLatest) in Flagged(s, true) <==> (isLatest <==> m == s[0]))
  {
    var s := NewestFirst(group);
    SortedMembers(group, m);
    var i :| 0 <= i < |s| && s[i] == m;
    assert Flagged(s, true)[i] == VersionEntry(m, i == 0);
    forall j | 0 < j < |s|
      ensures s[j] != s[0]
    {
      HeadOccursOnce(group, j);
    }
  }

  /** Within the group of its key, a version is flagged exactly if it is current. */
  lemma OneGroup(o: Objects, req: ListRequest, m: Manifest, isLatest: bool)
    requires WellFormed(o) && ProperRequest(req) && Resumable(req) && m in Matching(o, req)
    ensures m.key.key in GroupByKey(Matching(o, req))
    ensures VersionEntry(m, isLatest) in Flagged(NewestFirst(GroupByKey(Matching(o, req))[m.key.key]), true)
       <==> (isLatest <==> IsCurrent(o, req.bucket, m.key.key, m))
  {
    var ms := Matching(o, req);
    var key := m.key.key;
    MatchingMembers(o, req, m);
    OfKeyMembers(ms, key);
    GroupByKeySpec(ms, key);
    FlaggedIffHead(GroupByKey(ms)[key], m, isLatest);
    assert IsCurrent(o, req.bucket, key, m) <==> m == NewestFirst(GroupByKey(ms)[key])[0] by {
      MatchingSeesWholeKey(o, req, key);
      CurrentVersionsAgree(o, ms, ms, req.bucket, key);
      CurrentIff(o, req.bucket, key, m);
    }
  }
}
