/** The lifecycle sweep (src/s3/maintenance.rs:55-230): what one pass over the buckets does to the
    tables, and that this is what the rules say. */
module Lifecycle {
  import opened Results
  import opened ByteStrings
  import opened Manifests
  import opened Transactions
  import opened Scans
  import opened VersionListing

  // ---- what the rules say about one manifest ----

  datatype Verdict = Keep | Abort | ExpireCurrent | ExpireNoncurrent

  predicate Matches(r: LifecycleRule, m: Manifest) {
    r.filterPrefix.None? || r.filterPrefix.value <= m.key.key
  }

  predicate Due(days: Option<u32>, m: Manifest, now: Time) {
    days.Some? && now - m.createdAt >= days.value * DAY
  }

  function Active(rules: seq<LifecycleRule>): seq<LifecycleRule> {
    if rules == [] then [] else (if rules[0].enabled then [rules[0]] else []) + Active(rules[1..])
  }

  predicate AbortDue(rules: seq<LifecycleRule>, m: Manifest, now: Time) {
    exists i :: 0 <= i < |rules| && Matches(rules[i], m) && Due(rules[i].abortDays, m, now)
  }

  predicate ExpirationDue(rules: seq<LifecycleRule>, m: Manifest, now: Time) {
    exists i :: 0 <= i < |rules| && Matches(rules[i], m) && Due(rules[i].expirationDays, m, now)
  }

  predicate NoncurrentDue(rules: seq<LifecycleRule>, m: Manifest, now: Time) {
    exists i :: 0 <= i < |rules| && Matches(rules[i], m) && Due(rules[i].noncurrentDays, m, now)
  }

  /** Some rule decides; a lock on a committed version comes first, and aborted uploads always go. */
  function Judge(m: Manifest, current: bool, rules: seq<LifecycleRule>, now: Time): Verdict {
    match m.state
    case InProgress => if AbortDue(rules, m, now) then Abort else Keep
    case Aborted => Abort
    case Committed =>
      if m.Locked(now) then Keep
      else if current && m.kind == Object && ExpirationDue(rules, m, now) then ExpireCurrent
      else if !current && NoncurrentDue(rules, m, now) then ExpireNoncurrent
      else Keep
  }

  // ---- what the sweep does ----

  datatype Report = Report(expiredCurrent: nat, expiredNoncurrent: nat, abortedMultipart: nat, gcPartsRemoved: nat)

  function Noted(r: Report, v: Verdict): Report {
    match v
    case Keep => r
    case Abort => r.(abortedMultipart := r.abortedMultipart + 1)
    case ExpireCurrent => r.(expiredCurrent := r.expiredCurrent + 1)
    case ExpireNoncurrent => r.(expiredNoncurrent := r.expiredNoncurrent + 1)
  }

  /** A sweep under way. An error stops it; what was done before stays done. */
  datatype Sweep = Sweep(tables: Tables, report: Report, failed: Option<MetaError>)

  function DeleteMarker(bucket: Bytes, key: Bytes, id: Bytes, now: Time): Manifest {
    Manifest(ManifestKey(bucket, key, id), Committed, Tombstone, [], 0, [], None, now, now)
  }

  /** Delete marker for the key of an expired version. */
  function Marker(m: Manifest, id: Bytes, now: Time): Manifest {
    DeleteMarker(m.key.bucket, m.key.key, id, now)
  }

  /** The inputs that stay the same during a sweep. `newId` stands for the generated version ids. */
  datatype Clock = Clock(now: Time, newId: ManifestKey -> Bytes)

  function MarkerId(m: Manifest, versioning: VersioningState, c: Clock): Bytes {
    if versioning == Enabled then c.newId(m.key) else NULL_VERSION
  }

  function Expire(t: Tables, m: Manifest, versioning: VersioningState, c: Clock): Outcome {
    if versioning == Off then DeleteManifest(t, m.key)
    else PutManifest(t, Marker(m, MarkerId(m, versioning, c), c.now), c.now)
  }

  function Transaction(t: Tables, m: Manifest, v: Verdict, versioning: VersioningState, c: Clock): Outcome {
    match v
    case Keep => Success(Change(t, []))
    case Abort => DeleteManifest(t, m.key)
    case ExpireNoncurrent => DeleteManifest(t, m.key)
    case ExpireCurrent => Expire(t, m, versioning, c)
  }

  /** A manifest of the snapshot and whether it was the current version of its key. */
  datatype Job = Job(manifest: Manifest, current: bool)

  function Treat(s: Sweep, j: Job, cfg: BucketConfig, c: Clock): Sweep {
    if s.failed.Some? then s
    else
      var v := Judge(j.manifest, j.current, Active(cfg.lifecycleRules), c.now);
      match Transaction(s.tables, j.manifest, v, cfg.versioning, c)
      case Failure(e) => s.(failed := Some(e))
      case Success(change) => Sweep(change.tables, Noted(s.report, v), None)
  }

  function TreatAll(s: Sweep, jobs: seq<Job>, cfg: BucketConfig, c: Clock): Sweep
    decreases |jobs|
  {
    if jobs == [] then s else TreatAll(Treat(s, jobs[0], cfg, c), jobs[1..], cfg, c)
  }

  /** The jobs of one key: the current version is recognised by its id. */
  function JobsOf(versions: seq<Manifest>, currentId: Option<Bytes>): (r: seq<Job>)
    ensures |r| == |versions|
    ensures forall i :: 0 <= i < |versions| ==>
              r[i] == Job(versions[i], currentId == Some(versions[i].key.versionId))
  {
    if versions == [] then []
    else [Job(versions[0], currentId == Some(versions[0].key.versionId))] + JobsOf(versions[1..], currentId)
  }

  function CurrentId(versions: seq<Manifest>): Option<Bytes> {
    match FirstCommitted(versions)
    case None => None
    case Some(m) => Some(m.key.versionId)
  }

  /** Key by key, newest version first. */
  function Worklist(groups: map<Bytes, seq<Manifest>>, ks: seq<Bytes>): seq<Job>
    requires forall k :: k in ks ==> k in groups
  {
    if ks == [] then []
    else
      var versions := NewestFirst(groups[ks[0]]);
      JobsOf(versions, CurrentId(versions)) + Worklist(groups, ks[1..])
  }

  function BucketJobs(o: Objects, name: Bytes): seq<Job> {
    var groups := GroupByKey(BucketRows(o, name));
    SortedSpec(groups.Keys);
    Worklist(groups, Sorted(groups.Keys))
  }

  /** Buckets without an enabled rule are skipped. */
  function SweepBucket(s: Sweep, name: Bytes, cfg: BucketConfig, c: Clock): Sweep {
    if Active(cfg.lifecycleRules) == [] then s
    else TreatAll(s, BucketJobs(s.tables.objects, name), cfg, c)
  }

  function SweepBuckets(s: Sweep, names: seq<Bytes>, buckets: Buckets, c: Clock): Sweep
    requires forall b :: b in names ==> b in buckets
    decreases |names|
  {
    if names == [] then s
    else
      assert names[0] in names;
      SweepBuckets(SweepBucket(s, names[0], buckets[names[0]], c), names[1..], buckets, c)
  }

  function SweepLifecycle(t: Tables, buckets: Buckets, c: Clock): Sweep {
    SortedSpec(buckets.Keys);
    SweepBuckets(Sweep(t, Report(0, 0, 0, 0), None), Sorted(buckets.Keys), buckets, c)
  }

  lemma {:induction false} TreatAllConcat(s: Sweep, a: seq<Job>, b: seq<Job>, cfg: BucketConfig, c: Clock)
    ensures TreatAll(s, a + b, cfg, c) == TreatAll(TreatAll(s, a, cfg, c), b, cfg, c)
    decreases |a|
  {
    if a == [] {
      assert a + b == b;
    } else {
      assert (a + b)[1..] == a[1..] + b;
      TreatAllConcat(Treat(s, a[0], cfg, c), a[1..], b, cfg, c);
    }
  }

  lemma {:induction false} FailedStays(s: Sweep, jobs: seq<Job>, cfg: BucketConfig, c: Clock)
    requires s.failed.Some?
    ensures TreatAll(s, jobs, cfg, c) == s
    decreases |jobs|
  {
    if jobs != [] {
      FailedStays(s, jobs[1..], cfg, c);
    }
  }

  lemma {:induction false} FailedStaysThroughout(s: Sweep, names: seq<Bytes>, buckets: Buckets, c: Clock)
    requires s.failed.Some? && forall b :: b in names ==> b in buckets
    ensures SweepBuckets(s, names, buckets, c) == s
    decreases |names|
  {
    if names != [] {
      assert names[0] in names;
      if Active(buckets[names[0]].lifecycleRules) != [] {
        FailedStays(s, BucketJobs(s.tables.objects, names[0]), buckets[names[0]], c);
      }
      FailedStaysThroughout(s, names[1..], buckets, c);
    }
  }

  // ---- the work list covers the bucket ----

  /** Every job is a different manifest. */
  predicate DistinctJobs(jobs: seq<Job>) {
    forall i, j :: 0 <= i < j < |jobs| ==> jobs[i].manifest != jobs[j].manifest
  }

  /** The jobs of one key are its rows, each once, the current one flagged. */
  lemma KeyJobs(o: Objects, rows: seq<Manifest>, bucket: Bytes, key: Bytes)
    requires WellFormed(o) && NulFree(bucket) && NulFree(key)
    requires RowOrder(rows) && forall m :: m in rows <==> Has(o, m) && m.key.bucket == bucket
    requires key in GroupByKey(rows)
    ensures var versions := NewestFirst(GroupByKey(rows)[key]);
      var jobs := JobsOf(versions, CurrentId(versions));
      && DistinctJobs(jobs)
      && (forall j :: j in jobs <==>
           && Has(o, j.manifest) && j.manifest.key.bucket == bucket && j.manifest.key.key == key
           && (j.current <==> Current(o, bucket, key) == Some(j.manifest)))
  {
    var group := OfKey(rows, key);
    GroupByKeySpec(rows, key);
    OfKeyMembers(rows, key);
    var versions := NewestFirst(group);
    var jobs := JobsOf(versions, CurrentId(versions));
    SweepFindsCurrent(o, rows, bucket, key);
    NewestFirstSpec(group);
    forall i, j | 0 <= i < j < |jobs|
      ensures jobs[i].manifest != jobs[j].manifest
    {
      MultiplicityAtMostOne(group, versions[i]);
      if versions[i] == versions[j] {
        OccursTwice(versions, i, j);
        assert false;
      }
    }
    forall m
      ensures m in versions <==> Has(o, m) && m.key.bucket == bucket && m.key.key == key
      ensures m in versions ==> (CurrentId(versions) == Some(m.key.versionId) <==> Current(o, bucket, key) == Some(m))
    {
      SortedMembers(group, m);
      if Current(o, bucket, key).Some? {
        CurrentIff(o, bucket, key, Current(o, bucket, key).value);
      }
    }
    forall j
      ensures j in jobs
         <==> && Has(o, j.manifest) && j.manifest.key.bucket == bucket && j.manifest.key.key == key
              && (j.current <==> Current(o, bucket, key) == Some(j.manifest))
    {
      if j.manifest in versions {
        var i :| 0 <= i < |versions| && versions[i] == j.manifest;
        assert jobs[i] == Job(versions[i], CurrentId(versions) == Some(versions[i].key.versionId));
        assert jobs[i] in jobs;
      }
    }
  }

  /** Before the current version of a key come none but uncommitted rows of that key. */
  predicate CurrentFirst(jobs: seq<Job>) {
    forall i, j :: 0 <= i < j < |jobs| && jobs[j].current && jobs[i].manifest.key.key == jobs[j].manifest.key.key ==>
      jobs[i].manifest.state != Committed
  }

  lemma {:induction false} FirstCommittedAt(ms: seq<Manifest>, j: nat)
    requires j < |ms| && FirstCommitted(ms) == Some(ms[j])
    requires forall i :: 0 <= i < j ==> ms[i] != ms[j]
    ensures forall i :: 0 <= i < j ==> ms[i].state != Committed
  {
    if j > 0 {
      FirstCommittedAt(ms[1..], j - 1);
      assert forall i :: 0 < i < j ==> ms[i] == ms[1..][i - 1];
    }
  }

  lemma KeyJobsOrder(o: Objects, rows: seq<Manifest>, bucket: Bytes, key: Bytes)
    requires WellFormed(o) && NulFree(bucket) && NulFree(key)
    requires RowOrder(rows) && forall m :: m in rows <==> Has(o, m) && m.key.bucket == bucket
    requires key in GroupByKey(rows)
    ensures var versions := NewestFirst(GroupByKey(rows)[key]); CurrentFirst(JobsOf(versions, CurrentId(versions)))
  {
    var versions := NewestFirst(GroupByKey(rows)[key]);
    var jobs := JobsOf(versions, CurrentId(versions));
    KeyJobs(o, rows, bucket, key);
    SweepFindsCurrent(o, rows, bucket, key);
    forall j | 0 <= j < |jobs| && jobs[j].current
      ensures FirstCommitted(versions) == Some(versions[j])
    {
      assert jobs[j] in jobs;
    }
    NoneCommittedBefore(versions, jobs);
  }

  lemma NoneCommittedBefore(versions: seq<Manifest>, jobs: seq<Job>)
    requires jobs == JobsOf(versions, CurrentId(versions)) && DistinctJobs(jobs)
    requires forall j :: 0 <= j < |jobs| && jobs[j].current ==> FirstCommitted(versions) == Some(versions[j])
    ensures CurrentFirst(jobs)
  {
    forall i, j | 0 <= i < j < |jobs| && jobs[j].current
      ensures jobs[i].manifest.state != Committed
    {
      assert forall h :: 0 <= h < j ==> jobs[h].manifest != jobs[j].manifest;
      FirstCommittedAt(versions, j);
    }
  }

  lemma {:induction false} WorklistCovers(o: Objects, rows: seq<Manifest>, bucket: Bytes, ks: seq<Bytes>)
    requires WellFormed(o) && NulFree(bucket)
    requires RowOrder(rows) && forall m :: m in rows <==> Has(o, m) && m.key.bucket == bucket
    requires forall k :: k in ks ==> k in GroupByKey(rows)
    requires Ascending(ks)
    ensures var jobs := Worklist(GroupByKey(rows), ks);
      && DistinctJobs(jobs) && CurrentFirst(jobs)
      && (forall j :: j in jobs <==>
           && Has(o, j.manifest) && j.manifest.key.bucket == bucket && j.manifest.key.key in ks
           && (j.current <==> Current(o, bucket, j.manifest.key.key) == Some(j.manifest)))
  {
    if ks != [] {
      var k := ks[0];
      assert ks == [k] + ks[1..] && k in ks;
      GroupByKeyKeys(rows);
      assert GroupByKey(rows)[k][0] in rows;
      WorklistCovers(o, rows, bucket, ks[1..]);
      KeyJobs(o, rows, bucket, k);
      KeyJobsOrder(o, rows, bucket, k);
      assert k !in ks[1..] by {
        LessIrreflexive(k);
      }
      var versions := NewestFirst(GroupByKey(rows)[k]);
      DistinctConcat(JobsOf(versions, CurrentId(versions)), Worklist(GroupByKey(rows), ks[1..]), k);
    }
  }

  lemma DistinctConcat(a: seq<Job>, b: seq<Job>, key: Bytes)
    requires DistinctJobs(a) && DistinctJobs(b) && CurrentFirst(a) && CurrentFirst(b)
    requires forall j :: j in a ==> j.manifest.key.key == key
    requires forall j :: j in b ==> j.manifest.key.key != key
    ensures DistinctJobs(a + b) && CurrentFirst(a + b)
  {
    forall i, j | 0 <= i < j < |a + b|
      ensures (a + b)[i].manifest != (a + b)[j].manifest
      ensures i < |a| <= j ==> (a + b)[i].manifest.key.key != (a + b)[j].manifest.key.key
    {
      if i < |a| <= j {
        assert a[i] in a && b[j - |a|] in b;
      }
    }
  }

  /** A bucket's jobs are exactly its rows, each once, with the current versions flagged. */
  lemma BucketJobsCover(o: Objects, bucket: Bytes)
    requires WellFormed(o) && NulFree(bucket)
    ensures DistinctJobs(BucketJobs(o, bucket)) && CurrentFirst(BucketJobs(o, bucket))
    ensures forall j :: j in BucketJobs(o, bucket) <==>
              && Has(o, j.manifest) && j.manifest.key.bucket == bucket
              && (j.current <==> Current(o, bucket, j.manifest.key.key) == Some(j.manifest))
  {
    var rows := BucketRows(o, bucket);
    BucketRowsSpec(o, bucket);
    var groups := GroupByKey(rows);
    SortedSpec(groups.Keys);
    WorklistCovers(o, rows, bucket, Sorted(groups.Keys));
    forall m | m in rows
      ensures m.key.key in groups
    {
      GroupByKeySpec(rows, m.key.key);
      OfKeyMembers(rows, m.key.key);
    }
  }

  /** The rows of a list of buckets. */
  function RowsOf(o: Objects, names: seq<Bytes>): set<Bytes> {
    set k | k in o && o[k].key.bucket in names
  }
}
