/** What holds in every state that a server reaches by handling requests one after the other. */
module Invariants {
  import opened Results
  import opened ByteStrings
  import opened Manifests
  import opened KeyOrder
  import opened Refcounts
  import opened Transactions
  import opened Scans
  import opened Lifecycle
  import opened SweepSafety
  import opened PartStore
  import opened Collection
  import opened Handlers
  import opened Uploads

  // ---- the invariant ----

  /** The part file exists and holds what the reference says. */
  predicate Backed(d: Digests, files: Files, p: PartRef) {
    p.hash in files && |files[p.hash]| == p.size && d.md5(files[p.hash]) == p.md5
  }

  /** A manifest lies in an existing bucket, its parts ascend, its size is their sum, and all of them
      can be read. What sits in the "null" slot is committed. */
  predicate RowOk(s: Site, m: Manifest) {
    && ProperKey(m.key) && m.key.bucket in s.buckets
    && PartsAscend(m.parts) && m.size == TotalSize(m.parts)
    && (forall i :: 0 <= i < |m.parts| ==> Backed(s.digests, s.files, m.parts[i]))
    && (m.key.versionId == NULL_VERSION ==> m.state == Committed)
  }

  ghost predicate RowsOk(s: Site) {
    && WellFormed(s.tables.objects) && (forall b :: b in s.buckets ==> NulFree(b))
    && (forall m :: Has(s.tables.objects, m) ==> RowOk(s, m))
  }

  predicate Addressed(s: Site) {
    NamedByContent(s.digests.contentHash, s.files)
  }

  /** Every row is in order, references are conserved, and files are named by their content. */
  ghost predicate Healthy(s: Site) {
    RowsOk(s) && Consistent(s.tables) && Addressed(s)
  }

  // ---- what is asked of requests ----

  predicate ProperCall(c: Call) {
    match c
    case CallPut(bucket, key, _, _, _) => NulFree(bucket) && NulFree(key)
    case CallDelete(bucket, key, _) => NulFree(bucket) && NulFree(key)
    case CallCopy(bucket, key, source, _) =>
      NulFree(bucket) && NulFree(key) && NulFree(source.bucket) && NulFree(source.key)
    case CallCreateUpload(bucket, key, _) => NulFree(bucket) && NulFree(key)
    case CallUploadPart(target, _, _) => ProperKey(target)
    case CallComplete(target, _) => ProperKey(target)
    case CallAbort(target) => ProperKey(target)
    case CallRetention(bucket, key, _, _) => NulFree(bucket) && NulFree(key)
    case CallLegalHold(bucket, key, _, _) => NulFree(bucket) && NulFree(key)
    case CallCreateBucket(bucket, _) => NulFree(bucket)
    case CallDeleteBucket(bucket) => NulFree(bucket)
    case CallConfigure(bucket, _) => NulFree(bucket)
    case CallSweep => true
  }

  /** The references that a request adds. */
  function Taken(s: Site, c: Call): seq<PartRef> {
    match c
    case CallPut(_, _, body, _, _) => [PartOf(s, 1, body)]
    case CallCopy(_, _, source, _) =>
      (match FindObject(s, source.bucket, source.key, source.versionId) case None => [] case Some(m) => m.parts)
    case CallUploadPart(_, number, body) => [PartOf(s, number, body)]
    case CallComplete(target, requested) =>
      (match UploadAt(s, target)
       case None => []
       case Some(m) => if Select(m.parts, requested).Some? then Select(m.parts, requested).value else [])
    case _ => []
  }

  /** The 32-bit counters can hold the references there are and those that are added. */
  ghost predicate RequestFits(s: Site, c: Call) {
    forall h :: References(s.tables.objects, h) + Count(Taken(s, c), h) <= MAX_COUNT
  }

  /** Different contents have different hashes. */
  ghost predicate CollisionFree(d: Digests) {
    forall x, y :: d.contentHash(x) == d.contentHash(y) ==> x == y
  }

  /** Generated ids are new. */
  ghost predicate FreshIds(s: Site, env: Env) {
    && env.newId != NULL_VERSION
    && (forall m :: Has(s.tables.objects, m) ==> m.key.versionId != env.newId)
    && (forall m, k :: Has(s.tables.objects, m) ==> m.key.versionId != env.markerIds(k))
  }

  ghost predicate Admissible(s: Site, r: Request) {
    ProperCall(r.call) && RequestFits(s, r.call) && FreshIds(s, r.env)
  }

  ghost predicate AllAdmissible(s: Site, requests: seq<Request>)
    decreases |requests|
  {
    requests == [] ||
    (Admissible(s, requests[0]) && AllAdmissible(Handle(s, requests[0].call, requests[0].env).site, requests[1..]))
  }

  // ---- collection and commits keep it ----

  lemma PartIsReferenced(s: Site, m: Manifest, i: int)
    requires Consistent(s.tables) && Has(s.tables.objects, m) && 0 <= i < |m.parts|
    ensures !Collectable(s.tables.parts, m.parts[i].hash)
  {
    var h := m.parts[i].hash;
    assert Sound(s.tables, h);
    ReferencedIff(s.tables.objects, h);
    CountPositive(m.parts, h);
  }

  /** Collecting unreferenced parts, in whatever way, touches nothing that matters. */
  lemma CollectionKeepsHealth(s: Site, after: Storage)
    requires Healthy(s)
    requires forall h :: !Collectable(s.tables.parts, h) ==>
               && (h in after.parts <==> h in s.tables.parts)
               && (h in after.parts ==> after.parts[h] == s.tables.parts[h])
               && (h in s.files ==> h in after.files)
    requires forall h :: Stored(after.parts, h) == Stored(s.tables.parts, h)
    requires forall h :: h in after.files ==> h in s.files && after.files[h] == s.files[h]
    ensures Healthy(s.WithStorage(after))
  {
    var s' := s.WithStorage(after);
    forall h
      ensures Sound(s'.tables, h)
    {
      assert Sound(s.tables, h);
    }
    forall m | Has(s'.tables.objects, m)
      ensures RowOk(s', m)
    {
      assert RowOk(s, m);
      forall i | 0 <= i < |m.parts|
        ensures Backed(s'.digests, s'.files, m.parts[i])
      {
        assert Backed(s.digests, s.files, m.parts[i]);
        PartIsReferenced(s, m, i);
      }
    }
  }

  lemma CollectFreedKeepsHealth(s: Site, freed: seq<Hash>, stuck: set<Hash>)
    requires Healthy(s)
    ensures Healthy(s.WithStorage(CollectFreed(s.Storage(), freed, stuck)))
  {
    var after := CollectFreed(s.Storage(), freed, stuck);
    forall h
      ensures !Collectable(s.tables.parts, h) ==>
                && (h in after.parts <==> h in s.tables.parts)
                && (h in after.parts ==> after.parts[h] == s.tables.parts[h])
                && (h in s.files ==> h in after.files)
      ensures Stored(after.parts, h) == Stored(s.tables.parts, h)
      ensures h in after.files ==> h in s.files && after.files[h] == s.files[h]
    {
      CollectFreedAt(s.Storage(), freed, stuck, h);
    }
    CollectionKeepsHealth(s, after);
  }

  lemma SweepGcKeepsHealth(s: Site, stuck: set<Hash>)
    requires Healthy(s)
    ensures Healthy(s.WithStorage(SweepGc(s.Storage(), stuck).0))
  {
    var after := SweepGc(s.Storage(), stuck).0;
    forall h
      ensures !Collectable(s.tables.parts, h) ==>
                && (h in after.parts <==> h in s.tables.parts)
                && (h in after.parts ==> after.parts[h] == s.tables.parts[h])
                && (h in s.files ==> h in after.files)
      ensures Stored(after.parts, h) == Stored(s.tables.parts, h)
      ensures h in after.files ==> h in s.files && after.files[h] == s.files[h]
    {
      SweepGcAt(s.Storage(), stuck, h);
    }
    CollectionKeepsHealth(s, after);
  }

  lemma CommitKeepsHealth(s: Site, o: Outcome, stuck: set<Hash>)
    requires Healthy(s)
    requires o.Success? ==> Healthy(s.(tables := o.value.tables))
    ensures Healthy(Commit(s, o, stuck).site)
  {
    if o.Success? {
      CollectFreedKeepsHealth(s.(tables := o.value.tables), o.value.freed, stuck);
    }
  }

  // ---- each kind of transaction keeps it ----

  lemma PutKeepsHealth(s: Site, m: Manifest, now: Time)
    requires Healthy(s) && RowOk(s, m) && forall h :: PutFits(s.tables, m, h)
    ensures var o := PutManifest(s.tables, m, now); o.Success? ==> Healthy(s.(tables := o.value.tables))
  {
    var o := PutManifest(s.tables, m, now);
    if o.Success? {
      var s' := s.(tables := o.value.tables);
      PutConserves(s.tables, m, now);
      forall x | Has(s'.tables.objects, x)
        ensures RowOk(s', x)
      {
        assert x == m || Has(s.tables.objects, x);
        assert RowOk(s, x);
      }
    }
  }

  lemma DeleteKeepsHealth(s: Site, key: ManifestKey)
    requires Healthy(s)
    ensures var o := DeleteManifest(s.tables, key); o.Success? ==> Healthy(s.(tables := o.value.tables))
  {
    var o := DeleteManifest(s.tables, key);
    if o.Success? {
      var s' := s.(tables := o.value.tables);
      DeleteConserves(s.tables, key);
      forall x | Has(s'.tables.objects, x)
        ensures RowOk(s', x)
      {
        assert Has(s.tables.objects, x) && RowOk(s, x);
      }
    }
  }

  lemma AppendedRowOk(s: Site, m: Manifest, p: PartRef, now: Time)
    requires RowOk(s, m) && Backed(s.digests, s.files, p)
    ensures RowOk(s, WithPart(m, p, now))
  {
    AppendKeepsOrder(m, p, now);
    var after := WithPart(m, p, now);
    forall i | 0 <= i < |after.parts|
      ensures Backed(s.digests, s.files, after.parts[i])
    {
      assert after.parts[i] in after.parts;
      if after.parts[i] != p {
        var j :| 0 <= j < |m.parts| && m.parts[j] == after.parts[i];
        assert Backed(s.digests, s.files, m.parts[j]);
      }
    }
  }

  lemma AppendKeepsHealth(s: Site, key: ManifestKey, p: PartRef, now: Time)
    requires Healthy(s) && ProperKey(key) && Backed(s.digests, s.files, p)
    requires References(s.tables.objects, p.hash) < MAX_COUNT
    ensures var o := AppendPart(s.tables, key, p, now); o.Success? ==> Healthy(s.(tables := o.value.tables))
  {
    var o := AppendPart(s.tables, key, p, now);
    if o.Success? {
      var s', k := s.(tables := o.value.tables), Encode(key);
      var m := s.tables.objects[k];
      AppendReferences(s.tables.objects, k, p, now, p.hash);
      AppendConserves(s.tables, key, p, now);
      assert Has(s.tables.objects, m);
      AppendedRowOk(s, m, p, now);
      forall x | Has(s'.tables.objects, x)
        ensures RowOk(s', x)
      {
        assert x == WithPart(m, p, now) || Has(s.tables.objects, x);
        assert RowOk(s, x);
      }
    }
  }

  lemma CompletedRowOk(s: Site, upload: Manifest, requested: seq<RequestedPart>, now: Time)
    requires RowOk(s, upload) && InOrder(requested) && Select(upload.parts, requested).Some?
    ensures RowOk(s, Completed(upload, upload.key, Select(upload.parts, requested).value, now))
  {
    SelectExactly(upload.parts, requested);
    var selected := Select(upload.parts, requested).value;
    forall i | 0 <= i < |selected|
      ensures Backed(s.digests, s.files, selected[i])
    {
      var j :| 0 <= j < |upload.parts| && upload.parts[j] == selected[i];
      assert Backed(s.digests, s.files, upload.parts[j]);
    }
  }

  lemma CompleteKeepsHealth(s: Site, key: ManifestKey, m: Manifest, now: Time)
    requires Healthy(s) && RowOk(s, m) && Encode(key) != Encode(m.key)
    requires forall h :: References(s.tables.objects, h) + Count(m.parts, h) <= MAX_COUNT
    ensures var o := CompleteMultipart(s.tables, key, m, now); o.Success? ==> Healthy(s.(tables := o.value.tables))
  {
    var o := CompleteMultipart(s.tables, key, m, now);
    if o.Success? {
      var s' := s.(tables := o.value.tables);
      forall h
        ensures ReferencesFit(s'.tables.objects, h)
      {
        CompleteReferences(s.tables.objects, Encode(key), Encode(m.key), m, h);
      }
      CompleteConserves(s.tables, key, m, now);
      forall x | Has(s'.tables.objects, x)
        ensures RowOk(s', x)
      {
        assert x == m || Has(s.tables.objects, x);
        assert RowOk(s, x);
      }
    }
  }

  lemma LockUpdateKeepsHealth(s: Site, key: ManifestKey, lock: Option<ObjectLock>)
    requires Healthy(s)
    ensures var o := UpdateLock(s.tables, key, lock); o.Success? ==> Healthy(s.(tables := o.value.tables))
  {
    var k := Encode(key);
    if k in s.tables.objects {
      var m := s.tables.objects[k];
      var m' := m.(objectLock := lock);
      var s' := s.(tables := s.tables.(objects := s.tables.objects[k := m']));
      MetadataUpdateConserves(s.tables, k, m');
      assert Has(s.tables.objects, m);
      forall x | Has(s'.tables.objects, x)
        ensures RowOk(s', x)
      {
        assert x == m' || Has(s.tables.objects, x);
        assert RowOk(s, if x == m' then m else x);
      }
    }
  }

  // ---- each handler keeps it ----

  lemma WrittenKeepsHealth(s: Site, body: Bytes, number: u32)
    requires Healthy(s) && CollisionFree(s.digests)
    ensures Healthy(Written(s, body)) && Backed(s.digests, Written(s, body).files, PartOf(s, number, body))
  {
    var s' := Written(s, body);
    forall m | Has(s'.tables.objects, m)
      ensures RowOk(s', m)
    {
      assert RowOk(s, m);
      assert forall i :: 0 <= i < |m.parts| ==> Backed(s.digests, s.files, m.parts[i]);
    }
  }

  lemma NoPartsFit(s: Site, m: Manifest)
    requires Consistent(s.tables) && m.parts == []
    ensures forall h :: PutFits(s.tables, m, h)
  {
    forall h
      ensures PutFits(s.tables, m, h)
    {
      assert Sound(s.tables, h);
    }
  }

  lemma PutObjectKeepsHealth(s: Site, bucket: Bytes, key: Bytes, body: Bytes, attributes: Bytes,
        lock: Option<ObjectLock>, env: Env)
    requires Healthy(s) && CollisionFree(s.digests)
    requires ProperCall(CallPut(bucket, key, body, attributes, lock))
        && RequestFits(s, CallPut(bucket, key, body, attributes, lock))
    ensures Healthy(PutObject(s, bucket, key, body, attributes, lock, env).site)
  {
    if bucket in s.buckets {
      WrittenKeepsHealth(s, body, 1);
      var s1, m := Written(s, body), NewObject(s, bucket, key, body, attributes, lock, env);
      assert m.parts[1..] == [];
      assert RowOk(s1, m);
      forall h
        ensures PutFits(s1.tables, m, h)
      {
        assert References(s.tables.objects, h) + Count([PartOf(s, 1, body)], h) <= MAX_COUNT;
      }
      PutKeepsHealth(s1, m, env.now);
      CommitKeepsHealth(s1, PutManifest(s.tables, m, env.now), env.stuck);
    }
  }

  lemma DeleteVersionKeepsHealth(s: Site, key: ManifestKey, env: Env)
    requires Healthy(s)
    ensures Healthy(DeleteSpecificVersion(s, key, env).site)
  {
    DeleteKeepsHealth(s, key);
    CommitKeepsHealth(s, DeleteManifest(s.tables, key), env.stuck);
  }

  lemma PutEmptyKeepsHealth(s: Site, m: Manifest, env: Env)
    requires Healthy(s) && m.parts == [] && RowOk(s, m)
    ensures Healthy(Commit(s, PutManifest(s.tables, m, env.now), env.stuck).site)
  {
    NoPartsFit(s, m);
    PutKeepsHealth(s, m, env.now);
    CommitKeepsHealth(s, PutManifest(s.tables, m, env.now), env.stuck);
  }

  lemma DeleteObjectKeepsHealth(s: Site, bucket: Bytes, key: Bytes, versionId: Option<Bytes>, env: Env)
    requires Healthy(s) && NulFree(bucket) && NulFree(key)
    ensures Healthy(DeleteObject(s, bucket, key, versionId, env).site)
  {
    if bucket in s.buckets {
      var versioning := s.buckets[bucket].versioning;
      if versionId.Some? {
        DeleteVersionKeepsHealth(s, ManifestKey(bucket, key, versionId.value), env);
      } else if versioning == Off {
        DeleteVersionKeepsHealth(s, ManifestKey(bucket, key, NULL_VERSION), env);
      } else {
        PutEmptyKeepsHealth(s, DeleteMarker(bucket, key, NextVersionId(versioning, env.newId), env.now), env);
      }
    }
  }

  lemma ResolvedIsRow(s: Site, bucket: Bytes, key: Bytes, versionId: Option<Bytes>)
    requires WellFormed(s.tables.objects) && NulFree(bucket) && NulFree(key)
    ensures var r := FindObject(s, bucket, key, versionId);
      r.Some? ==> Has(s.tables.objects, r.value) && r.value.state == Committed && r.value.kind == Object
                  && r.value.key.bucket == bucket && r.value.key.key == key
  {
    var r := FindObject(s, bucket, key, versionId);
    if r.Some? {
      match versionId
      case None => CurrentIff(s.tables.objects, bucket, key, r.value);
      case Some(id) => EncodeIsInjective(r.value.key, ManifestKey(bucket, key, id));
    }
  }

  lemma CopyKeepsHealth(s: Site, bucket: Bytes, key: Bytes, source: Source, attributes: Option<Bytes>, env: Env)
    requires Healthy(s)
    requires ProperCall(CallCopy(bucket, key, source, attributes))
    requires RequestFits(s, CallCopy(bucket, key, source, attributes))
    ensures Healthy(CopyObject(s, bucket, key, source, attributes, env).site)
  {
    var r := FindObject(s, source.bucket, source.key, source.versionId);
    if bucket in s.buckets && r.Some? {
      ResolvedIsRow(s, source.bucket, source.key, source.versionId);
      assert RowOk(s, r.value);
      var m := CopyOf(s, bucket, key, r.value, attributes, env);
      assert RowOk(s, m);
      assert forall h :: PutFits(s.tables, m, h);
      PutKeepsHealth(s, m, env.now);
      CommitKeepsHealth(s, PutManifest(s.tables, m, env.now), env.stuck);
    }
  }

  lemma UploadPartKeepsHealth(s: Site, key: ManifestKey, number: u32, body: Bytes, env: Env)
    requires Healthy(s) && CollisionFree(s.digests)
    requires ProperKey(key) && RequestFits(s, CallUploadPart(key, number, body))
    ensures Healthy(UploadPart(s, key, number, body, env).site)
  {
    WrittenKeepsHealth(s, body, number);
    var s1, p := Written(s, body), PartOf(s, number, body);
    assert [p][1..] == [];
    assert References(s.tables.objects, p.hash) + Count([p], p.hash) <= MAX_COUNT;
    AppendKeepsHealth(s1, key, p, env.now);
    CommitKeepsHealth(s1, AppendPart(s.tables, key, p, env.now), env.stuck);
  }

  lemma CompleteUploadKeepsHealth(s: Site, key: ManifestKey, requested: seq<RequestedPart>, env: Env)
    requires Healthy(s) && ProperKey(key) && RequestFits(s, CallComplete(key, requested))
    ensures Healthy(CompleteUpload(s, key, requested, env).site)
  {
    var upload := UploadAt(s, key);
    if InOrder(requested) && upload.Some? && Select(upload.value.parts, requested).Some? {
      assert Has(s.tables.objects, upload.value) && RowOk(s, upload.value);
      EncodeIsInjective(upload.value.key, key);
      var selected := Select(upload.value.parts, requested).value;
      var m := Completed(upload.value, key, selected, env.now);
      CompletedRowOk(s, upload.value, requested, env.now);
      EncodeIsInjective(m.key, key);
      CompleteKeepsHealth(s, key, m, env.now);
      CommitKeepsHealth(s, CompleteMultipart(s.tables, key, m, env.now), env.stuck);
    }
  }

  lemma LockHandlersKeepHealth(s: Site, bucket: Bytes, key: Bytes, versionId: Option<Bytes>, retainUntil: Time,
        on: bool, env: Env)
    requires Healthy(s)
    ensures Healthy(PutRetention(s, bucket, key, versionId, retainUntil, env).site)
    ensures Healthy(PutLegalHold(s, bucket, key, versionId, on, env).site)
  {
    var r := FindObject(s, bucket, key, versionId);
    if r.Some? {
      var m := r.value;
      var retained := RetainedLock(m, retainUntil);
      var held := HeldLock(m, on);
      LockUpdateKeepsHealth(s, m.key, Some(retained));
      LockUpdateKeepsHealth(s, m.key, Some(held));
      CommitKeepsHealth(s, UpdateLock(s.tables, m.key, Some(retained)), {});
      CommitKeepsHealth(s, UpdateLock(s.tables, m.key, Some(held)), {});
    }
  }

  /** More or fewer buckets are fine as long as every row keeps its own. */
  lemma BucketsKeepHealth(s: Site, buckets: Buckets)
    requires Healthy(s) && (forall b :: b in buckets ==> NulFree(b))
    requires forall m :: Has(s.tables.objects, m) ==> m.key.bucket in buckets
    ensures Healthy(s.(buckets := buckets))
  {
    var s' := s.(buckets := buckets);
    forall m | Has(s'.tables.objects, m)
      ensures RowOk(s', m)
    {
      assert RowOk(s, m);
    }
  }

  /** A bucket can be deleted exactly if it exists and no manifest of any state lies in it. */
  lemma DeleteBucketSucceedsIff(s: Site, name: Bytes)
    requires WellFormed(s.tables.objects) && NulFree(name)
    ensures DeleteBucket(s, name).reply.Success?
       <==> name in s.buckets && !exists m :: Has(s.tables.objects, m) && m.key.bucket == name
  {
    BucketRangeSpec(s.tables.objects, name);
    var rows := BucketRangeRows(s.tables.objects, name);
    if rows != [] {
      assert rows[0] in rows;
    }
  }

  lemma BucketHandlersKeepHealth(s: Site, name: Bytes, lockEnabled: bool, change: BucketConfig -> BucketConfig)
    requires Healthy(s) && NulFree(name)
    ensures Healthy(CreateBucket(s, name, lockEnabled).site)
    ensures Healthy(DeleteBucket(s, name).site)
    ensures Healthy(Configure(s, name, change).site)
  {
    forall m | Has(s.tables.objects, m)
      ensures m.key.bucket in s.buckets
    {
      assert RowOk(s, m);
    }
    BucketsKeepHealth(s, CreateBucket(s, name, lockEnabled).site.buckets);
    DeleteBucketSucceedsIff(s, name);
    BucketsKeepHealth(s, DeleteBucket(s, name).site.buckets);
    BucketsKeepHealth(s, Configure(s, name, change).site.buckets);
  }

  lemma MaintainKeepsHealth(s: Site, env: Env)
    requires Healthy(s)
    ensures Healthy(Maintain(s, env).0.site)
  {
    var c := Clock(env.now, env.markerIds);
    var swept := SweepLifecycle(s.tables, s.buckets, c);
    SweepLifecycleKeeps(s.tables, s.buckets, c);
    var s1 := s.(tables := swept.tables);
    forall m | Has(s1.tables.objects, m)
      ensures RowOk(s1, m)
    {
      if Has(s.tables.objects, m) {
        assert RowOk(s, m);
      } else {
        assert IsMarkerIn(m, s.buckets, c);
      }
    }
    SweepGcKeepsHealth(s1, env.stuck);
  }

  /** Every handler keeps the server healthy. */
  lemma HandlersKeepHealth(s: Site, c: Call, env: Env)
    requires Healthy(s) && CollisionFree(s.digests) && Admissible(s, Request(c, env))
    ensures Healthy(Handle(s, c, env).site)
  {
    match c
    case CallPut(bucket, key, body, attributes, lock) =>
      PutObjectKeepsHealth(s, bucket, key, body, attributes, lock, env);
    case CallDelete(bucket, key, versionId) => DeleteObjectKeepsHealth(s, bucket, key, versionId, env);
    case CallCopy(bucket, key, source, newAttributes) => CopyKeepsHealth(s, bucket, key, source, newAttributes, env);
    case CallCreateUpload(bucket, key, attributes) =>
      if bucket in s.buckets {
        PutEmptyKeepsHealth(s, NewUpload(bucket, key, attributes, env), env);
      }
    case CallUploadPart(target, number, body) => UploadPartKeepsHealth(s, target, number, body, env);
    case CallComplete(target, requested) => CompleteUploadKeepsHealth(s, target, requested, env);
    case CallAbort(target) =>
      DeleteKeepsHealth(s, target);
      CommitKeepsHealth(s, DeleteManifest(s.tables, target), env.stuck);
    case CallRetention(bucket, key, versionId, retainUntil) =>
        LockHandlersKeepHealth(s, bucket, key, versionId, retainUntil, false, env);
    case CallLegalHold(bucket, key, versionId, on) => LockHandlersKeepHealth(s, bucket, key, versionId, 0, on, env);
    case CallCreateBucket(name, lockEnabled) => BucketHandlersKeepHealth(s, name, lockEnabled, x => x);
    case CallDeleteBucket(name) => BucketHandlersKeepHealth(s, name, false, x => x);
    case CallConfigure(name, change) => BucketHandlersKeepHealth(s, name, false, change);
    case CallSweep => MaintainKeepsHealth(s, env);
  }

  lemma HandlersKeepDigests(s: Site, c: Call, env: Env)
    ensures Handle(s, c, env).site.digests == s.digests
  {
  }

  lemma {:induction false} ServeKeepsDigests(s: Site, requests: seq<Request>)
    ensures Serve(s, requests).digests == s.digests
    decreases |requests|
  {
    if requests != [] {
      HandlersKeepDigests(s, requests[0].call, requests[0].env);
      ServeKeepsDigests(Handle(s, requests[0].call, requests[0].env).site, requests[1..]);
    }
  }

  /** In every run of handlers every manifest lies in an existing bucket, references are conserved, part
      lists ascend, and every referenced part can be read back with its size and digest. */
  lemma {:induction false} RunsKeepHealth(s: Site, requests: seq<Request>)
    requires Healthy(s) && CollisionFree(s.digests) && AllAdmissible(s, requests)
    ensures Healthy(Serve(s, requests))
    decreases |requests|
  {
    if requests != [] {
      var r := requests[0];
      HandlersKeepHealth(s, r.call, r.env);
      HandlersKeepDigests(s, r.call, r.env);
      RunsKeepHealth(Handle(s, r.call, r.env).site, requests[1..]);
    }
  }

  lemma EmptyIsHealthy(d: Digests)
    ensures Healthy(Site(d, map[], Tables(map[], map[]), map[]))
  {
    var s := Site(d, map[], Tables(map[], map[]), map[]);
    assert forall h :: Sound(s.tables, h);
  }
}
