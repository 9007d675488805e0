/** What every lifecycle sweep keeps, whatever the versioning of the buckets and even if it fails half
    way: consistency, well-formed rows, no new rows except delete markers, and locked versions. */
module SweepSafety {
  import opened Results
  import opened ByteStrings
  import opened Manifests
  import opened KeyOrder
  import opened Refcounts
  import opened Transactions
  import opened Scans
  import opened Lifecycle

  /** A delete marker in the "null" slot or under a generated id. */
  ghost predicate IsMarkerIn(m: Manifest, buckets: Buckets, c: Clock) {
    && m.state == Committed && m.kind == Tombstone && m.parts == [] && m.size == 0 && m.objectLock == None
    && m.key.bucket in buckets && ProperKey(m.key)
    && (m.key.versionId == NULL_VERSION || exists k :: c.newId(k) == m.key.versionId)
  }

  ghost predicate Keeps(t: Tables, after: Tables, buckets: Buckets, c: Clock) {
    && WellFormed(after.objects) && (Consistent(t) ==> Consistent(after))
    && (forall m :: Has(after.objects, m) ==> Has(t.objects, m) || IsMarkerIn(m, buckets, c))
    && after.parts.Keys == t.parts.Keys && (forall h :: Pending(after.parts, h) <==> Pending(t.parts, h))
  }

  /** Storing a manifest without parts conserves references. */
  lemma PutWithoutParts(t: Tables, m: Manifest, now: Time)
    requires m.parts == []
    ensures PutManifest(t, m, now).Success?
    ensures PutManifest(t, m, now).value.tables.objects == t.objects[Encode(m.key) := m]
    ensures Consistent(t) ==> Consistent(PutManifest(t, m, now).value.tables)
  {
    if Consistent(t) {
      forall h
        ensures PutFits(t, m, h)
      {
        assert Sound(t, h);
      }
      PutConserves(t, m, now);
    }
  }

  predicate ProperJob(j: Job, buckets: Buckets) {
    ProperKey(j.manifest.key) && j.manifest.key.bucket in buckets
  }

  /** Dropping references removes no row and hands nothing to the collector. */
  lemma DropKeepsRows(parts: Parts, refs: seq<PartRef>)
    ensures DecrementAll(parts, refs).0.Keys == parts.Keys
    ensures forall h :: Pending(DecrementAll(parts, refs).0, h) <==> Pending(parts, h)
  {
    forall h
      ensures h in DecrementAll(parts, refs).0 <==> h in parts
      ensures Pending(DecrementAll(parts, refs).0, h) <==> Pending(parts, h)
    {
      DecrementAllAt(parts, refs, h);
    }
  }

  lemma MarkerKeeps(t: Tables, m: Manifest, buckets: Buckets, c: Clock)
    requires WellFormed(t.objects) && IsMarkerIn(m, buckets, c)
    ensures PutManifest(t, m, c.now).Success? && Keeps(t, PutManifest(t, m, c.now).value.tables, buckets, c)
  {
    PutWithoutParts(t, m, c.now);
    if Encode(m.key) in t.objects {
      DropKeepsRows(t.parts, t.objects[Encode(m.key)].parts);
    }
  }

  lemma DeleteKeeps(t: Tables, key: ManifestKey, buckets: Buckets, c: Clock)
    requires WellFormed(t.objects) && Encode(key) in t.objects
    ensures Keeps(t, DeleteManifest(t, key).value.tables, buckets, c)
  {
    DropKeepsRows(t.parts, t.objects[Encode(key)].parts);
    if Consistent(t) {
      DeleteConserves(t, key);
    }
  }

  lemma TreatKeeps(s: Sweep, j: Job, cfg: BucketConfig, c: Clock, buckets: Buckets)
    requires WellFormed(s.tables.objects) && ProperJob(j, buckets)
    ensures Keeps(s.tables, Treat(s, j, cfg, c).tables, buckets, c)
  {
    var v := Judge(j.manifest, j.current, Active(cfg.lifecycleRules), c.now);
    if v == ExpireCurrent && cfg.versioning != Off {
      MarkerKeeps(s.tables, Marker(j.manifest, MarkerId(j.manifest, cfg.versioning, c), c.now), buckets, c);
    } else if v != Keep && Encode(j.manifest.key) in s.tables.objects {
      DeleteKeeps(s.tables, j.manifest.key, buckets, c);
    }
  }

  lemma {:induction false} TreatAllKeeps(s: Sweep, jobs: seq<Job>, cfg: BucketConfig, c: Clock, buckets: Buckets)
    requires WellFormed(s.tables.objects) && forall j :: j in jobs ==> ProperJob(j, buckets)
    ensures Keeps(s.tables, TreatAll(s, jobs, cfg, c).tables, buckets, c)
    decreases |jobs|
  {
    if jobs != [] {
      assert jobs[0] in jobs;
      TreatKeeps(s, jobs[0], cfg, c, buckets);
      TreatAllKeeps(Treat(s, jobs[0], cfg, c), jobs[1..], cfg, c, buckets);
    }
  }

  lemma SweepBucketKeeps(s: Sweep, name: Bytes, buckets: Buckets, c: Clock)
    requires WellFormed(s.tables.objects) && name in buckets && NulFree(name)
    ensures Keeps(s.tables, SweepBucket(s, name, buckets[name], c).tables, buckets, c)
  {
    BucketJobsCover(s.tables.objects, name);
    var jobs := BucketJobs(s.tables.objects, name);
    forall j | j in jobs
      ensures ProperJob(j, buckets)
    {
      assert Has(s.tables.objects, j.manifest);
    }
    TreatAllKeeps(s, jobs, buckets[name], c, buckets);
  }

  lemma {:induction false} SweepBucketsKeeps(s: Sweep, names: seq<Bytes>, buckets: Buckets, c: Clock)
    requires WellFormed(s.tables.objects) && forall b :: b in names ==> b in buckets && NulFree(b)
    ensures Keeps(s.tables, SweepBuckets(s, names, buckets, c).tables, buckets, c)
    decreases |names|
  {
    if names != [] {
      assert names[0] in names;
      SweepBucketKeeps(s, names[0], buckets, c);
      SweepBucketsKeeps(SweepBucket(s, names[0], buckets[names[0]], c), names[1..], buckets, c);
    }
  }

  /** A sweep conserves references and adds nothing but delete markers in existing buckets. */
  lemma SweepLifecycleKeeps(t: Tables, buckets: Buckets, c: Clock)
    requires WellFormed(t.objects) && forall b :: b in buckets ==> NulFree(b)
    ensures Keeps(t, SweepLifecycle(t, buckets, c).tables, buckets, c)
  {
    SortedSpec(buckets.Keys);
    SweepBucketsKeeps(Sweep(t, Report(0, 0, 0, 0), None), Sorted(buckets.Keys), buckets, c);
  }

  // ---- versions and uploads that stay ----

  /** A row that the rules keep, whether or not it is the current version, and whose slot no marker takes. */
  ghost predicate Untouchable(m: Manifest, buckets: Buckets, c: Clock) {
    && ProperKey(m.key) && m.key.versionId != NULL_VERSION && (forall k :: c.newId(k) != m.key.versionId)
    && (m.key.bucket in buckets ==>
         forall current :: Judge(m, current, Active(buckets[m.key.bucket].lifecycleRules), c.now) == Keep)
  }

  /** The job is about another row, or about this one under the configuration of its bucket. */
  predicate AboutRow(j: Job, cfg: BucketConfig, buckets: Buckets, m: Manifest) {
    j.manifest.key == m.key ==> j.manifest == m && m.key.bucket in buckets && cfg == buckets[m.key.bucket]
  }

  lemma TreatSpares(s: Sweep, j: Job, cfg: BucketConfig, c: Clock, buckets: Buckets, m: Manifest)
    requires WellFormed(s.tables.objects) && Has(s.tables.objects, m) && Untouchable(m, buckets, c)
    requires ProperKey(j.manifest.key) && AboutRow(j, cfg, buckets, m)
    ensures Has(Treat(s, j, cfg, c).tables.objects, m)
  {
    var v := Judge(j.manifest, j.current, Active(cfg.lifecycleRules), c.now);
    if v == ExpireCurrent && cfg.versioning != Off {
      var mark := Marker(j.manifest, MarkerId(j.manifest, cfg.versioning, c), c.now);
      PutWithoutParts(s.tables, mark, c.now);
      if Encode(mark.key) == Encode(m.key) {
        EncodeIsInjective(mark.key, m.key);
      }
    } else if Encode(j.manifest.key) == Encode(m.key) {
      EncodeIsInjective(j.manifest.key, m.key);
    }
  }

  lemma {:induction false} TreatAllSpares(s: Sweep, jobs: seq<Job>, cfg: BucketConfig, c: Clock,
        buckets: Buckets, m: Manifest)
    requires WellFormed(s.tables.objects) && Has(s.tables.objects, m) && Untouchable(m, buckets, c)
    requires forall j :: j in jobs ==> ProperJob(j, buckets) && AboutRow(j, cfg, buckets, m)
    ensures Has(TreatAll(s, jobs, cfg, c).tables.objects, m)
    decreases |jobs|
  {
    if jobs != [] {
      assert jobs[0] in jobs;
      TreatKeeps(s, jobs[0], cfg, c, buckets);
      TreatSpares(s, jobs[0], cfg, c, buckets, m);
      TreatAllSpares(Treat(s, jobs[0], cfg, c), jobs[1..], cfg, c, buckets, m);
    }
  }

  lemma {:induction false} SweepBucketsSpare(s: Sweep, names: seq<Bytes>, buckets: Buckets, c: Clock, m: Manifest)
    requires WellFormed(s.tables.objects) && forall b :: b in names ==> b in buckets && NulFree(b)
    requires Has(s.tables.objects, m) && Untouchable(m, buckets, c)
    ensures Has(SweepBuckets(s, names, buckets, c).tables.objects, m)
    decreases |names|
  {
    if names != [] {
      var name := names[0];
      assert name in names;
      SweepBucketKeeps(s, name, buckets, c);
      BucketJobsCover(s.tables.objects, name);
      forall j | j in BucketJobs(s.tables.objects, name)
        ensures ProperJob(j, buckets) && AboutRow(j, buckets[name], buckets, m)
      {
        assert Has(s.tables.objects, j.manifest);
      }
      TreatAllSpares(s, BucketJobs(s.tables.objects, name), buckets[name], c, buckets, m);
      SweepBucketsSpare(SweepBucket(s, name, buckets[name], c), names[1..], buckets, c, m);
    }
  }

  lemma SweepSpares(t: Tables, buckets: Buckets, c: Clock, m: Manifest)
    requires WellFormed(t.objects) && forall b :: b in buckets ==> NulFree(b)
    requires Has(t.objects, m) && Untouchable(m, buckets, c)
    ensures Has(SweepLifecycle(t, buckets, c).tables.objects, m)
  {
    SortedSpec(buckets.Keys);
    SweepBucketsSpare(Sweep(t, Report(0, 0, 0, 0), None), Sorted(buckets.Keys), buckets, c, m);
  }

  /** No sweep removes or changes a locked version outside the "null" slot. */
  lemma SweepSparesLocked(t: Tables, buckets: Buckets, c: Clock, m: Manifest)
    requires WellFormed(t.objects) && forall b :: b in buckets ==> NulFree(b)
    requires Has(t.objects, m) && m.state == Committed && m.Locked(c.now)
    requires m.key.versionId != NULL_VERSION && forall k :: c.newId(k) != m.key.versionId
    ensures Has(SweepLifecycle(t, buckets, c).tables.objects, m)
  {
    SweepSpares(t, buckets, c, m);
  }

  /** Nor an upload that no rule aborts. */
  lemma SweepSparesUpload(t: Tables, buckets: Buckets, c: Clock, m: Manifest)
    requires WellFormed(t.objects) && forall b :: b in buckets ==> NulFree(b)
    requires Has(t.objects, m) && m.state == InProgress
    requires m.key.bucket in buckets ==> !AbortDue(Active(buckets[m.key.bucket].lifecycleRules), m, c.now)
    requires m.key.versionId != NULL_VERSION && forall k :: c.newId(k) != m.key.versionId
    ensures Has(SweepLifecycle(t, buckets, c).tables.objects, m)
  {
    SweepSpares(t, buckets, c, m);
  }

  // ---- no sweep fails ----

  /** Different jobs about rows of one table have different keys. */
  ghost predicate Targets(jobs: seq<Job>, o: Objects) {
    && (forall j :: j in jobs ==> Encode(j.manifest.key) in o)
    && (forall i, k :: 0 <= i < k < |jobs| ==> Encode(jobs[i].manifest.key) != Encode(jobs[k].manifest.key))
  }

  lemma TargetsStay(s: Sweep, jobs: seq<Job>, cfg: BucketConfig, c: Clock)
    requires s.failed.None? && jobs != [] && Targets(jobs, s.tables.objects)
    ensures Treat(s, jobs[0], cfg, c).failed.None? && Targets(jobs[1..], Treat(s, jobs[0], cfg, c).tables.objects)
  {
    var j := jobs[0];
    assert j in jobs;
    var v := Judge(j.manifest, j.current, Active(cfg.lifecycleRules), c.now);
    if v == ExpireCurrent && cfg.versioning != Off {
      PutWithoutParts(s.tables, Marker(j.manifest, MarkerId(j.manifest, cfg.versioning, c), c.now), c.now);
    }
    forall i | 0 <= i < |jobs[1..]|
      ensures Encode(jobs[1..][i].manifest.key) in Treat(s, j, cfg, c).tables.objects
    {
      assert jobs[1..][i] == jobs[i + 1] && jobs[i + 1] in jobs;
    }
  }

  lemma {:induction false} TreatAllSucceeds(s: Sweep, jobs: seq<Job>, cfg: BucketConfig, c: Clock)
    requires s.failed.None? && Targets(jobs, s.tables.objects)
    ensures TreatAll(s, jobs, cfg, c).failed.None?
    decreases |jobs|
  {
    if jobs != [] {
      TargetsStay(s, jobs, cfg, c);
      TreatAllSucceeds(Treat(s, jobs[0], cfg, c), jobs[1..], cfg, c);
    }
  }

  lemma {:induction false} SweepBucketsSucceed(s: Sweep, names: seq<Bytes>, buckets: Buckets, c: Clock)
    requires s.failed.None? && WellFormed(s.tables.objects) && forall b :: b in names ==> b in buckets && NulFree(b)
    ensures SweepBuckets(s, names, buckets, c).failed.None?
    decreases |names|
  {
    if names != [] {
      var name, o := names[0], s.tables.objects;
      assert name in names;
      SweepBucketKeeps(s, name, buckets, c);
      BucketJobsCover(o, name);
      var jobs := BucketJobs(o, name);
      forall i, k | 0 <= i < k < |jobs|
        ensures Encode(jobs[i].manifest.key) != Encode(jobs[k].manifest.key)
      {
        assert jobs[i] in jobs && jobs[k] in jobs;
      }
      TreatAllSucceeds(s, jobs, buckets[name], c);
      SweepBucketsSucceed(SweepBucket(s, name, buckets[name], c), names[1..], buckets, c);
    }
  }

  /** No lifecycle sweep fails, whatever the versioning of the buckets: every row it deletes is there. */
  lemma SweepNeverFails(t: Tables, buckets: Buckets, c: Clock)
    requires WellFormed(t.objects) && forall b :: b in buckets ==> NulFree(b)
    ensures SweepLifecycle(t, buckets, c).failed.None?
  {
    SortedSpec(buckets.Keys);
    SweepBucketsSucceed(Sweep(t, Report(0, 0, 0, 0), None), Sorted(buckets.Keys), buckets, c);
  }
}
