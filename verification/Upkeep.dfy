/** Sweeps and backups of a healthy server (src/s3/maintenance.rs:28-33, src/admin.rs:57-107). */
module Upkeep {
  import opened Results
  import opened ByteStrings
  import opened Manifests
  import opened KeyOrder
  import opened Refcounts
  import opened Transactions
  import opened Scans
  import opened Lifecycle
  import opened SweepSafety
  import opened SweepRules
  import opened Collection
  import opened Handlers
  import opened Invariants

  /** The hashes that some manifest refers to. */
  ghost predicate Referenced(s: Site, h: Hash) {
    References(s.tables.objects, h) > 0
  }

  /** The state between the two halves of a sweep. */
  function AfterLifecycle(s: Site, env: Env): Site {
    s.(tables := SweepLifecycle(s.tables, s.buckets, Clock(env.now, env.markerIds)).tables)
  }

  function PlanOf(s: Site, env: Env): Plan {
    Plan(s.tables, s.buckets, Clock(env.now, env.markerIds))
  }

  lemma PlanIsProper(s: Site, env: Env)
    requires Healthy(s) && FreshIds(s, env)
    ensures PlanOf(s, env).Proper()
  {
    var p := PlanOf(s, env);
    forall m | Has(s.tables.objects, m) && p.VersioningOf(m) == Enabled
      ensures p.Slot(m) !in s.tables.objects
    {
      if p.Slot(m) in s.tables.objects {
        var n := s.tables.objects[p.Slot(m)];
        assert Has(s.tables.objects, n) && RowOk(s, n) && RowOk(s, m);
        EncodeIsInjective(n.key, p.MarkerFor(m).key);
      }
    }
    forall m | Has(s.tables.objects, m) && m.key.versionId == NULL_VERSION
      ensures m.state == Committed
    {
      assert RowOk(s, m);
    }
  }

  /** On a healthy server a sweep leaves exactly the rows that the rules ask for, and counts the
      verdicts, whatever the versioning of the buckets. */
  lemma SweepFollowsRules(s: Site, env: Env)
    requires Healthy(s) && FreshIds(s, env)
    ensures var (st, report) := Maintain(s, env);
      var counted := PlanOf(s, env).ReportOn(s.tables.objects.Keys);
      Ruled(PlanOf(s, env), st.site.tables.objects) && report == counted.(gcPartsRemoved := report.gcPartsRemoved)
  {
    PlanIsProper(s, env);
    SweepRefinesRules(PlanOf(s, env));
  }

  lemma AfterLifecycleIsHealthy(s: Site, env: Env)
    requires Healthy(s)
    ensures Healthy(AfterLifecycle(s, env))
    ensures forall h :: Pending(AfterLifecycle(s, env).tables.parts, h) ==> Pending(s.tables.parts, h)
    ensures SweepLifecycle(s.tables, s.buckets, Clock(env.now, env.markerIds)).failed.None?
  {
    var c := Clock(env.now, env.markerIds);
    SweepNeverFails(s.tables, s.buckets, c);
    SweepLifecycleKeeps(s.tables, s.buckets, c);
    var s1 := AfterLifecycle(s, env);
    forall m | Has(s1.tables.objects, m)
      ensures RowOk(s1, m)
    {
      if Has(s.tables.objects, m) {
        assert RowOk(s, m);
      } else {
        assert IsMarkerIn(m, s.buckets, c);
      }
    }
  }

  /** A sweep always succeeds. Afterwards no live row without references is left, not even of parts
      that the lifecycle half freed; parts that are still referenced keep row and file; and the report
      counts exactly the collected orphans. */
  lemma SweepIsCompleteAndSafe(s: Site, env: Env)
    requires Healthy(s)
    ensures var (st, report) := Maintain(s, env);
      var orphans := OrphanSet(AfterLifecycle(s, env).tables.parts);
      && st.reply.Success? && Healthy(st.site)
      && OrphanSet(st.site.tables.parts) == {}
      && (forall h :: Referenced(st.site, h) ==>
           && h in st.site.tables.parts && h in AfterLifecycle(s, env).tables.parts
           && st.site.tables.parts[h] == AfterLifecycle(s, env).tables.parts[h]
           && h in st.site.files && h in s.files && st.site.files[h] == s.files[h])
      && report.gcPartsRemoved == |orphans - env.stuck|
  {
    var s1 := AfterLifecycle(s, env);
    AfterLifecycleIsHealthy(s, env);
    MaintainKeepsHealth(s, env);
    SweepGcExactly(s1.Storage(), env.stuck);
    var s2 := Maintain(s, env).0.site;
    forall h | Referenced(s2, h)
      ensures h in s1.tables.parts && h in s2.tables.parts && s2.tables.parts[h] == s1.tables.parts[h]
      ensures h in s2.files && h in s.files && s2.files[h] == s.files[h]
    {
      assert Sound(s1.tables, h);
      ReferencedHasFile(s2, h);
      assert SweptAt(s1.Storage(), s2.Storage(), env.stuck, h);
    }
  }

  lemma ReferencedHasFile(s: Site, h: Hash)
    requires Healthy(s) && Referenced(s, h)
    ensures h in s.files
  {
    ReferencedIff(s.tables.objects, h);
    var k :| k in s.tables.objects && Count(s.tables.objects[k].parts, h) > 0;
    var m := s.tables.objects[k];
    assert Has(s.tables.objects, m) && RowOk(s, m);
    CountPositive(m.parts, h);
    var i :| 0 <= i < |m.parts| && m.parts[i].hash == h;
    assert Backed(s.digests, s.files, m.parts[i]);
  }

  /** If nothing was pending before and every file can be unlinked, the part table afterwards has rows
      for exactly the referenced parts. */
  lemma SweepLeavesReferencedParts(s: Site, env: Env)
    requires Healthy(s) && env.stuck == {} && forall h :: !Pending(s.tables.parts, h)
    ensures var s' := Maintain(s, env).0.site;
      forall h :: h in s'.tables.parts <==> Referenced(s', h)
  {
    var s1, s2 := AfterLifecycle(s, env), Maintain(s, env).0.site;
    SweepIsCompleteAndSafe(s, env);
    AfterLifecycleIsHealthy(s, env);
    SweepGcExactly(s1.Storage(), env.stuck);
    forall h
      ensures h in s2.tables.parts <==> Referenced(s2, h)
    {
      assert SweptAt(s1.Storage(), s2.Storage(), env.stuck, h);
      assert Sound(s2.tables, h) && Sound(s1.tables, h);
      assert !Pending(s1.tables.parts, h);
    }
  }

  // ---- backup ----

  /** The hashes in the part lists of some rows. */
  function HashesOf(o: Objects, ks: set<Bytes>): set<Hash> {
    set k, i | k in ks && k in o && 0 <= i < |o[k].parts| :: o[k].parts[i].hash
  }

  function HashesIn(ms: seq<Manifest>): set<Hash> {
    set i, j | 0 <= i < |ms| && 0 <= j < |ms[i].parts| :: ms[i].parts[j].hash
  }

  function BackedUpRows(s: Site): set<Bytes> {
    set k | k in s.tables.objects && s.tables.objects[k].key.bucket in s.buckets
  }

  /** The parts that a backup copies: those of all manifests in all buckets. */
  function BackupSet(s: Site): set<Hash> {
    HashesOf(s.tables.objects, BackedUpRows(s))
  }

  lemma BucketCounted(o: Objects, name: Bytes)
    requires WellFormed(o) && NulFree(name)
    ensures |BucketRows(o, name)| == |RowsOf(o, [name])|
  {
    var ks := RangeKeys(o, BucketStart(name), BucketEnd(name));
    SortedSpec(ks);
    BucketRowsSpec(o, name);
    forall k | k in o
      ensures k in ks <==> k in RowsOf(o, [name])
    {
      BucketRange(name, o[k].key);
    }
    assert ks == RowsOf(o, [name]);
  }

  lemma BucketHashes(o: Objects, name: Bytes)
    requires WellFormed(o) && NulFree(name)
    ensures HashesIn(BucketRows(o, name)) == HashesOf(o, RowsOf(o, [name]))
  {
    var ms, ks := BucketRows(o, name), RowsOf(o, [name]);
    BucketRowsSpec(o, name);
    forall m | m in ms
      ensures Encode(m.key) in ks && o[Encode(m.key)] == m
    {
    }
    forall k | k in ks
      ensures o[k] in ms
    {
      assert Has(o, o[k]);
    }
    SameHashes(o, ms, ks);
  }

  lemma SameHashes(o: Objects, ms: seq<Manifest>, ks: set<Bytes>)
    requires forall m :: m in ms ==> Encode(m.key) in ks && Encode(m.key) in o && o[Encode(m.key)] == m
    requires forall k :: k in ks ==> k in o && o[k] in ms
    ensures HashesIn(ms) == HashesOf(o, ks)
  {
    forall h | h in HashesIn(ms)
      ensures h in HashesOf(o, ks)
    {
      var i, j :| 0 <= i < |ms| && 0 <= j < |ms[i].parts| && ms[i].parts[j].hash == h;
      assert ms[i] in ms;
    }
    forall h | h in HashesOf(o, ks)
      ensures h in HashesIn(ms)
    {
      var k, j :| k in ks && k in o && 0 <= j < |o[k].parts| && o[k].parts[j].hash == h;
      var i :| 0 <= i < |ms| && ms[i] == o[k];
    }
  }

  /** One more bucket of a backup. */
  lemma NextBucket(o: Objects, names: seq<Bytes>, i: nat)
    requires WellFormed(o) && i < |names| && NulFree(names[i]) && Ascending(names)
    ensures var done, next := RowsOf(o, names[..i]), RowsOf(o, names[..i + 1]);
      && |next| == |done| + |BucketRows(o, names[i])|
      && HashesOf(o, next) == HashesOf(o, done) + HashesIn(BucketRows(o, names[i]))
  {
    var done, rows := RowsOf(o, names[..i]), RowsOf(o, [names[i]]);
    BucketCounted(o, names[i]);
    BucketHashes(o, names[i]);
    LessIrreflexive(names[i]);
    assert names[..i + 1] == names[..i] + [names[i]];
    assert RowsOf(o, names[..i + 1]) == done + rows;
    assert done !! rows;
    assert HashesOf(o, done + rows) == HashesOf(o, done) + HashesOf(o, rows);
  }

  /** A backup of a healthy server misses nothing: it visits every manifest, copies exactly the parts whose
      reference count is positive, and all of their files are there. */
  lemma BackupIsExact(s: Site)
    requires Healthy(s)
    ensures BackedUpRows(s) == s.tables.objects.Keys
    ensures forall h :: h in BackupSet(s) <==> Stored(s.tables.parts, h) > 0
    ensures BackupSet(s) <= s.files.Keys
  {
    forall k | k in s.tables.objects
      ensures k in BackedUpRows(s)
    {
      assert Has(s.tables.objects, s.tables.objects[k]) && RowOk(s, s.tables.objects[k]);
    }
    forall h
      ensures h in BackupSet(s) <==> Referenced(s, h)
      ensures Referenced(s, h) ==> h in s.files
      ensures Referenced(s, h) <==> Stored(s.tables.parts, h) > 0
    {
      assert Sound(s.tables, h);
      BackedUpIff(s, h);
      if Referenced(s, h) {
        ReferencedHasFile(s, h);
      }
    }
  }

  lemma BackedUpIff(s: Site, h: Hash)
    requires Healthy(s)
    ensures h in BackupSet(s) <==> Referenced(s, h)
  {
    var o := s.tables.objects;
    ReferencedIff(o, h);
    forall k | k in o
      ensures o[k].key.bucket in s.buckets
      ensures Count(o[k].parts, h) > 0 <==> exists i :: 0 <= i < |o[k].parts| && o[k].parts[i].hash == h
    {
      assert Has(o, o[k]) && RowOk(s, o[k]);
      CountPositive(o[k].parts, h);
    }
  }
}
