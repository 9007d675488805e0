/** The metadata actor (src/storage/db/actor.rs): one object owning the three tables. A write works
    on copies and assigns them back when it commits; returning early drops them. */
module MetaStore {
  import opened Results
  import opened ByteStrings
  import opened Manifests
  import opened KeyOrder
  import opened Refcounts
  import opened Transactions
  import opened Scans
  import opened Listing
  import opened VersionListing

  function SortedHashes(parts: Parts): (ks: seq<Hash>)
    ensures forall h :: h in ks ==> h in parts
  {
    SortedSpec(parts.Keys);
    Sorted(parts.Keys)
  }

  /** The live rows without references, in the given order. */
  function Orphans(parts: Parts, ks: seq<Hash>): seq<Hash>
    requires forall h :: h in ks ==> h in parts
  {
    if ks == [] then []
    else
      assert ks[0] in ks;
      var rest := Orphans(parts, ks[1..]);
      if parts[ks[0]].refcount == 0 && parts[ks[0]].state == Live then [ks[0]] + rest else rest
  }

  lemma {:induction false} OrphansMembers(parts: Parts, ks: seq<Hash>)
    requires Ascending(ks) && forall h :: h in ks ==> h in parts
    ensures forall h :: h in Orphans(parts, ks) <==> h in ks && parts[h].refcount == 0 && parts[h].state == Live
    ensures NoDuplicates(Orphans(parts, ks))
  {
    if ks != [] {
      assert ks[0] in ks && forall h :: h in ks[1..] ==> h in ks;
      OrphansMembers(parts, ks[1..]);
      LessIrreflexive(ks[0]);
      assert ks == [ks[0]] + ks[1..];
    }
  }

  /** A well-formed table keeps under a key's encoding the manifest with this key. */
  lemma RowUnderKey(o: Objects, key: ManifestKey)
    ensures WellFormed(o) && ProperKey(key) && Encode(key) in o ==>
              Has(o, o[Encode(key)]) && o[Encode(key)].key == key
  {
    if WellFormed(o) && ProperKey(key) && Encode(key) in o {
      EncodeIsInjective(o[Encode(key)].key, key);
    }
  }

  lemma OrphansStep(parts: Parts, ks: seq<Hash>, i: nat, out: seq<Hash>)
    requires (forall h :: h in ks ==> h in parts) && i < |ks|
    ensures ks[i] in parts
    ensures out + Orphans(parts, ks[i..])
         == (if parts[ks[i]].refcount == 0 && parts[ks[i]].state == Live then out + [ks[i]] else out)
            + Orphans(parts, ks[i + 1..])
  {
    assert ks[i] in ks && ks[i..][1..] == ks[i + 1..];
  }

  /** One more row of a lookup. */
  lemma LookupStep(rows: seq<Manifest>, i: nat, bucket: Bytes, key: Bytes)
    requires i < |rows|
    ensures var m := rows[i];
      var best := Newest(CommittedOnly(OfVersions(rows[..i], bucket, key)));
      Newest(CommittedOnly(OfVersions(rows[..i + 1], bucket, key)))
      == if m.state == Committed && m.key.bucket == bucket && m.key.key == key
            && (best.None? || m.lastModified > best.value.lastModified) then Some(m) else best
  {
    var m, before := rows[i], OfVersions(rows[..i], bucket, key);
    assert rows[..i + 1] == rows[..i] + [m];
    OfVersionsSnoc(rows[..i], m, bucket, key);
    if m.key.bucket == bucket && m.key.key == key {
      NewestSnoc(before, m);
    } else {
      assert before + [] == before;
    }
  }

  lemma NewestSnoc(rows: seq<Manifest>, m: Manifest)
    ensures var best := Newest(CommittedOnly(rows));
      Newest(CommittedOnly(rows + [m]))
      == if m.state == Committed && (best.None? || m.lastModified > best.value.lastModified) then Some(m) else best
  {
    FilterSnoc(rows, m, IsCommitted);
    var seen := CommittedOnly(rows);
    assert m.state == Committed ==> (seen + [m])[..|seen|] == seen;
    assert m.state != Committed ==> seen + [] == seen;
  }

  lemma CutHere<T>(a: seq<T>, x: T, b: seq<T>)
    ensures |a + ([x] + b)| > |a| && (a + ([x] + b))[..|a|] == a
  {
  }

  lemma VersionPageFull(entries: seq<VersionEntry>, next: VersionEntry, rest: seq<VersionEntry>)
    ensures VersionPageOf(entries + ([next] + rest), |entries|)
         == VersionPage(entries, true,
              if entries == [] then None else Some(AfterKey(entries[|entries| - 1].manifest.key.key)))
  {
    CutHere(entries, next, rest);
  }

  lemma ConcatOne<T>(a: seq<T>, x: T, b: seq<T>)
    ensures a + ([x] + b) == a + [x] + b
  {
  }

  class Store {
    var buckets: Buckets
    var objects: Objects
    var parts: Parts

    function Tables(): Tables
      reads this
    {
      Transactions.Tables(objects, parts)
    }

    constructor ()
      ensures buckets == map[] && objects == map[] && parts == map[]
    {
      buckets, objects, parts := map[], map[], map[];
    }

    // ---- buckets ----

    method CreateBucket(name: Bytes, config: BucketConfig) returns (r: Result<(), MetaError>)
      modifies this`buckets
      ensures r == if name in old(buckets) then Failure(BucketExists) else Success(())
      ensures buckets == if name in old(buckets) then old(buckets) else old(buckets)[name := config]
    {
      if name in buckets {
        return Failure(BucketExists);
      }
      buckets := buckets[name := config];
      r := Success(());
    }

    /** A bucket goes away exactly when it exists and no row, of any state, lies in its range. */
    method DeleteBucket(name: Bytes) returns (r: Result<(), MetaError>)
      modifies this`buckets
      ensures r == if name !in old(buckets) then Failure(BucketNotFound)
                   else if BucketRangeRows(objects, name) != [] then Failure(BucketNotEmpty)
                   else Success(())
      ensures buckets == if r.Success? then old(buckets) - {name} else old(buckets)
    {
      if name !in buckets {
        return Failure(BucketNotFound);
      }
      var rows := Rows(objects, BucketStart(name), BucketEnd(name));
      if rows != [] {
        return Failure(BucketNotEmpty);
      }
      buckets := buckets - {name};
      r := Success(());
    }

    /** The three metadata-only bucket updates (versioning, object lock, lifecycle) have this form. */
    method UpdateBucket(name: Bytes, config: BucketConfig -> BucketConfig) returns (r: Result<(), MetaError>)
      modifies this`buckets
      ensures r == if name in old(buckets) then Success(()) else Failure(BucketNotFound)
      ensures buckets == if name in old(buckets) then old(buckets)[name := config(old(buckets)[name])] else old(buckets)
    {
      if name !in buckets {
        return Failure(BucketNotFound);
      }
      buckets := buckets[name := config(buckets[name])];
      r := Success(());
    }

    // ---- manifests ----

    method PutManifest(m: Manifest, now: Time) returns (r: Result<seq<Hash>, MetaError>)
      modifies this`objects, this`parts
      ensures var o := Transactions.PutManifest(old(Tables()), m, now);
        Tables() == After(old(Tables()), o) && r == Reply(o)
    {
      var k := Encode(m.key);
      var ps := parts;
      var i := 0;
      while i < |m.parts|
        invariant 0 <= i <= |m.parts|
        invariant IncrementAll(parts, m.parts, now) == IncrementAll(ps, m.parts[i..], now)
      {
        assert m.parts[i..][1..] == m.parts[i + 1..];
        match Increment(ps, m.parts[i], now) {
          case Failure(e) => return Failure(e);
          case Success(next) => ps := next;
        }
        i := i + 1;
      }
      var freed := [];
      if k in objects {
        freed, ps := Release(ps, objects[k].parts);
      }
      objects, parts := objects[k := m], ps;
      r := Success(freed);
    }

    /** Drop every reference of a manifest, collecting what becomes free. */
    static method Release(before: Parts, refs: seq<PartRef>) returns (freed: seq<Hash>, ps: Parts)
      ensures ps == DecrementAll(before, refs).0 && freed == DecrementAll(before, refs).1
    {
      ps, freed := before, [];
      var i := 0;
      assert refs[0..] == refs;
      while i < |refs|
        invariant 0 <= i <= |refs|
        invariant DecrementAll(before, refs).0 == DecrementAll(ps, refs[i..]).0
        invariant DecrementAll(before, refs).1 == freed + DecrementAll(ps, refs[i..]).1
      {
        assert refs[i..][1..] == refs[i + 1..];
        var (next, gone) := Decrement(ps, refs[i].hash);
        ps := next;
        if gone.Some? {
          freed := freed + [gone.value];
        }
        i := i + 1;
      }
    }

    /** Finds the row stored under the key: in a well-formed table, the only manifest with this key. */
    method GetManifest(key: ManifestKey) returns (r: Option<Manifest>)
      ensures r == if Encode(key) in objects then Some(objects[Encode(key)]) else None
      ensures WellFormed(objects) && ProperKey(key) ==>
                && (r.Some? ==> Has(objects, r.value) && r.value.key == key)
                && (forall m :: Has(objects, m) && m.key == key ==> r == Some(m))
    {
      RowUnderKey(objects, key);
      r := if Encode(key) in objects then Some(objects[Encode(key)]) else None;
    }

    method DeleteManifest(key: ManifestKey) returns (r: Result<seq<Hash>, MetaError>)
      modifies this`objects, this`parts
      ensures var o := Transactions.DeleteManifest(old(Tables()), key);
        Tables() == After(old(Tables()), o) && r == Reply(o)
    {
      var k := Encode(key);
      if k !in objects {
        return Failure(ManifestNotFound);
      }
      var freed, ps := Release(parts, objects[k].parts);
      objects, parts := objects - {k}, ps;
      r := Success(freed);
    }

    method UpdateState(key: ManifestKey, state: ManifestState, now: Time) returns (r: Result<seq<Hash>, MetaError>)
      modifies this`objects
      ensures var o := Transactions.UpdateState(old(Tables()), key, state, now);
        Tables() == After(old(Tables()), o) && r == Reply(o)
    {
      var k := Encode(key);
      if k !in objects {
        return Failure(ManifestNotFound);
      }
      objects := objects[k := objects[k].(state := state, lastModified := now)];
      r := Success([]);
    }

    method UpdateLock(key: ManifestKey, lock: Option<ObjectLock>) returns (r: Result<seq<Hash>, MetaError>)
      modifies this`objects
      ensures var o := Transactions.UpdateLock(old(Tables()), key, lock);
        Tables() == After(old(Tables()), o) && r == Reply(o)
    {
      var k := Encode(key);
      if k !in objects {
        return Failure(ManifestNotFound);
      }
      objects := objects[k := objects[k].(objectLock := lock)];
      r := Success([]);
    }

    method AppendPart(key: ManifestKey, part: PartRef, now: Time) returns (r: Result<seq<Hash>, MetaError>)
      modifies this`objects, this`parts
      ensures var o := Transactions.AppendPart(old(Tables()), key, part, now);
        Tables() == After(old(Tables()), o) && r == Reply(o)
    {
      var k := Encode(key);
      if k !in objects {
        return Failure(ManifestNotFound);
      }
      var m, ps, freed: seq<Hash> := objects[k], parts, [];
      var kept := m.parts;
      var position := Position(m.parts, part.partNumber);
      if position.Some? {
        var oldHash := m.parts[position.value].hash;
        var (next, gone) := Decrement(ps, oldHash);
        ps := next;
        if oldHash != part.hash && gone.Some? {
          freed := [gone.value];
        }
        kept := m.parts[..position.value] + m.parts[position.value + 1..];
      }
      match Increment(ps, part, now) {
        case Failure(e) => return Failure(e);
        case Success(next) => ps := next;
      }
      var refs := SortByNumber(kept + [part]);
      objects, parts := objects[k := m.(parts := refs, size := TotalSize(refs), lastModified := now)], ps;
      r := Success(freed);
    }

    method CompleteMultipart(inProgressKey: ManifestKey, committed: Manifest, now: Time)
      returns (r: Result<seq<Hash>, MetaError>)
      modifies this`objects, this`parts
      ensures var o := Transactions.CompleteMultipart(old(Tables()), inProgressKey, committed, now);
        Tables() == After(old(Tables()), o) && r == Reply(o)
    {
      var k, c := Encode(inProgressKey), Encode(committed.key);
      if k !in objects {
        return Failure(ManifestNotFound);
      }
      if objects[k].state != InProgress {
        return Failure(UploadNotInProgress);
      }
      var dropped := objects[k].parts;
      if c in objects {
        dropped := dropped + objects[c].parts;
      }
      assert dropped == Dropped(objects, k, c);
      var _, ps := Release(parts, dropped);
      ghost var lowered := ps;
      var i := 0;
      while i < |committed.parts|
        invariant 0 <= i <= |committed.parts|
        invariant IncrementAll(lowered, committed.parts, now) == IncrementAll(ps, committed.parts[i..], now)
      {
        assert committed.parts[i..][1..] == committed.parts[i + 1..];
        match Increment(ps, committed.parts[i], now) {
          case Failure(e) => return Failure(e);
          case Success(next) => ps := next;
        }
        i := i + 1;
      }
      var freed := CollectFree(ps, dropped, Hashes(committed.parts));
      objects, parts := objects[c := committed] - {k}, ps;
      r := Success(freed);
    }

    /** Unreferenced candidates, each once. */
    static method CollectFree(ps: Parts, refs: seq<PartRef>, used: set<Hash>) returns (freed: seq<Hash>)
      ensures freed == Collect(ps, refs, used, {})
    {
      freed := [];
      var considered: set<Hash> := {};
      var i := 0;
      assert refs[0..] == refs;
      while i < |refs|
        invariant 0 <= i <= |refs|
        invariant Collect(ps, refs, used, {}) == freed + Collect(ps, refs[i..], used, considered)
      {
        var h := refs[i].hash;
        assert refs[i..][1..] == refs[i + 1..];
        if h !in considered && h !in used && h in ps && ps[h].refcount == 0 {
          freed := freed + [h];
        }
        considered := considered + {h};
        i := i + 1;
      }
    }

    // ---- parts ----

    method MarkGcPending(h: Hash) returns (r: Result<bool, MetaError>)
      modifies this`parts
      ensures var o := MarkPending(old(parts), h);
        && parts == (if o.Success? then o.value.0 else old(parts))
        && r == if o.Success? then Success(o.value.1) else Failure(PartNotFound)
    {
      if h !in parts {
        return Failure(PartNotFound);
      }
      if parts[h].refcount != 0 {
        return Success(false);
      }
      parts := parts[h := parts[h].(state := GcPending)];
      r := Success(true);
    }

    method RemovePart(h: Hash)
      modifies this`parts
      ensures parts == old(parts) - {h}
    {
      parts := parts - {h};
    }

    method ListOrphanParts() returns (out: seq<Hash>)
      ensures out == Orphans(parts, SortedHashes(parts))
    {
      var ks := SortedHashes(parts);
      out := [];
      for i := 0 to |ks|
        invariant Orphans(parts, ks) == out + Orphans(parts, ks[i..])
      {
        OrphansStep(parts, ks, i, out);
        var e := parts[ks[i]];
        if e.refcount == 0 && e.state == Live {
          out := out + [ks[i]];
        }
      }
    }

    // ---- scans ----

    /** The program's own checks make this right even for names with NUL. */
    method GetLatestVersion(bucket: Bytes, key: Bytes) returns (latest: Option<Manifest>)
      ensures latest == Current(objects, bucket, key)
    {
      var rows := Rows(objects, KeyStart(bucket, key), KeyEnd(bucket, key));
      latest := None;
      var i := 0;
      while i < |rows|
        invariant 0 <= i <= |rows|
        invariant latest == Newest(CommittedOnly(OfVersions(rows[..i], bucket, key)))
      {
        var m := rows[i];
        LookupStep(rows, i, bucket, key);
        i := i + 1;
        if m.state != Committed {
          continue;
        }
        if m.key.bucket != bucket || m.key.key != key {
          continue;
        }
        if latest.None? || m.lastModified > latest.value.lastModified {
          latest := Some(m);
        }
      }
      assert rows[..i] == rows;
    }

    method ListAllManifestsInBucket(bucket: Bytes) returns (out: seq<Manifest>)
      ensures out == BucketRows(objects, bucket)
    {
      var rows := Rows(objects, BucketStart(bucket), BucketEnd(bucket));
      out := [];
      for i := 0 to |rows|
        invariant out == OfBucket(rows[..i], bucket)
      {
        assert rows[..i + 1] == rows[..i] + [rows[i]];
        OfBucketSnoc(rows[..i], rows[i], bucket);
        if rows[i].key.bucket != bucket {
          continue;
        }
        out := out + [rows[i]];
      }
      assert rows[..|rows|] == rows;
    }

    method ComputeScanStart(req: ListRequest) returns (start: Bytes)
      ensures start == ScanStart(req)
    {
      match req.cursor {
        case None => start := PrefixStart(req.bucket, req.prefix);
        case Some(AfterKey(k)) => start := AfterKeyStart(req.bucket, k);
        case Some(AfterPrefix(p)) => start := ComputeAfterPrefix(req.bucket, p);
      }
    }

    method ListObjects(req: ListRequest) returns (page: Page)
      ensures page == ListPage(objects, req)
    {
      var start := ComputeScanStart(req);
      var rows := Rows(objects, start, BucketEnd(req.bucket));
      var latest: map<Bytes, Manifest> := map[];
      ghost var matched: seq<Manifest> := [];
      var i := 0;
      while i < |rows|
        invariant 0 <= i <= |rows|
        invariant TakeMatching(rows, req.prefix) == matched + TakeMatching(rows[i..], req.prefix)
        invariant latest == LatestByKey(matched)
      {
        var m := rows[i];
        assert rows[i..][1..] == rows[i + 1..];
        if m.state == Committed {
          if !(req.prefix <= m.key.key) {
            break;
          }
          assert (matched + [m])[..|matched|] == matched;
          matched := matched + [m];
          if m.key.key !in latest || m.lastModified > latest[m.key.key].lastModified {
            latest := latest[m.key.key := m];
          }
        }
        i := i + 1;
      }
      assert matched == Matching(objects, req);
      page := Paginate(latest, req);
    }

    /** The second half of a listing: walk the winners in key order. */
    method Paginate(latest: map<Bytes, Manifest>, req: ListRequest) returns (page: Page)
      requires latest == LatestByKey(Matching(objects, req))
      ensures page == ListPage(objects, req)
    {
      LiveFromBasics(objects, req);
      LatestByKeyMembers(Matching(objects, req));
      InKeyOrderSpec(latest);
      TakeMatchingUnder(Rows(objects, ScanStart(req), BucketEnd(req.bucket)), req.prefix);
      assert InKeyOrder(latest)[0..] == InKeyOrder(latest);
      page := RollUpPage(InKeyOrder(latest), req.prefix, req.delimiter, req.limit);
    }

    static method RollUpPage(winners: seq<Manifest>, prefix: Bytes, delimiter: Option<Bytes>, limit: nat)
      returns (page: Page)
      requires UserKeyOrder(winners) && AllUnder(winners, prefix)
      ensures page == PageOf(ItemsFrom(winners, 0, None, prefix, delimiter), limit)
    {
      var items: seq<ListItem> := [];
      var skip: Option<Bytes> := None;
      RolledStart(winners, prefix, delimiter);
      for i := 0 to |winners|
        invariant |items| <= limit
        invariant RolledTo(winners, i, skip, prefix, delimiter, items)
      {
        var m := winners[i];
        if m.kind != Object {
          RolledOver(winners, i, skip, prefix, delimiter, items);
          continue;
        }
        if skip.Some? && skip.value <= m.key.key {
          RolledOver(winners, i, skip, prefix, delimiter, items);
          continue;
        }
        RolledOn(winners, i, skip, prefix, delimiter, items);
        var item := ItemFor(m, prefix, delimiter);
        if |items| >= limit {
          page := Page(items, true, if items == [] then None else Some(CursorOf(items[|items| - 1])));
          return;
        }
        items := items + [item];
        skip := SkipFor(item);
      }
      RolledUp(winners, skip, prefix, delimiter, items);
      page := Page(items, false, None);
    }

    method ListObjectVersions(req: ListRequest) returns (page: VersionPage)
      ensures page == VersionPageOf(AllEntries(objects, req), req.limit)
    {
      var start := ComputeScanStart(req);
      var rows := Rows(objects, start, BucketEnd(req.bucket));
      var byKey: map<Bytes, seq<Manifest>> := map[];
      ghost var matched: seq<Manifest> := [];
      var i := 0;
      while i < |rows|
        invariant 0 <= i <= |rows|
        invariant TakeMatching(rows, req.prefix) == matched + TakeMatching(rows[i..], req.prefix)
        invariant byKey == GroupByKey(matched)
      {
        var m := rows[i];
        assert rows[i..][1..] == rows[i + 1..];
        if m.state == Committed {
          if !(req.prefix <= m.key.key) {
            break;
          }
          assert (matched + [m])[..|matched|] == matched;
          matched := matched + [m];
          var group := if m.key.key in byKey then byKey[m.key.key] else [];
          byKey := byKey[m.key.key := group + [m]];
        }
        i := i + 1;
      }
      assert matched == Matching(objects, req);
      SortedSpec(byKey.Keys);
      page := VersionsPage(byKey, Sorted(byKey.Keys), req.limit);
    }

    static method VersionsPage(byKey: map<Bytes, seq<Manifest>>, ks: seq<Bytes>, limit: nat) returns (page: VersionPage)
      requires forall k :: k in ks ==> k in byKey
      ensures page == VersionPageOf(Entries(byKey, ks), limit)
    {
      ghost var all := Entries(byKey, ks);
      var entries: seq<VersionEntry> := [];
      assert ks[0..] == ks;
      for i := 0 to |ks|
        invariant |entries| <= limit
        invariant all == entries + Entries(byKey, ks[i..])
      {
        var versions := NewestFirst(byKey[ks[i]]);
        EntriesStep(byKey, ks, i);
        var full;
        entries, full := KeyVersions(entries, versions, limit, Entries(byKey, ks[i + 1..]));
        if full {
          page := VersionPage(entries, true,
            if entries == [] then None else Some(AfterKey(entries[|entries| - 1].manifest.key.key)));
          return;
        }
      }
      assert entries + [] == entries;
      page := VersionPage(entries, false, None);
    }

    /** The versions of one key, as far as they fit on the page; `tail` is what comes after them. */
    static method KeyVersions(before: seq<VersionEntry>, versions: seq<Manifest>, limit: nat,
          ghost tail: seq<VersionEntry>)
      returns (entries: seq<VersionEntry>, full: bool)
      requires |before| <= limit
      ensures var all := before + FlaggedFrom(versions, 0, tail);
        && (!full ==> |entries| <= limit && all == entries + tail)
        && (full ==> VersionPageOf(all, limit)
                     == VersionPage(entries, true, if entries == [] then None
                                                   else Some(AfterKey(entries[|entries| - 1].manifest.key.key))))
    {
      entries, full := before, false;
      for idx := 0 to |versions|
        invariant |entries| <= limit && !full
        invariant before + FlaggedFrom(versions, 0, tail) == entries + FlaggedFrom(versions, idx, tail)
      {
        var entry := VersionEntry(versions[idx], idx == 0);
        FlaggedStep(versions, idx, tail);
        if |entries| >= limit {
          VersionPageFull(entries, entry, FlaggedFrom(versions, idx + 1, tail));
          return entries, true;
        }
        ConcatOne(entries, entry, FlaggedFrom(versions, idx + 1, tail));
        entries := entries + [entry];
      }
      FlaggedEnd(versions, tail);
    }
  }
}
