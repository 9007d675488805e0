/** Object lock over whole runs (src/s3/object.rs:381-404, src/s3/lock.rs:138-167 and 231-240,
    src/s3/maintenance.rs:146-152): what requests can do to a committed version outside the "null" slot. */
module LockSafety {
  import opened Results
  import opened ByteStrings
  import opened Manifests
  import opened KeyOrder
  import opened Transactions
  import opened Scans
  import opened Lifecycle
  import opened SweepSafety
  import opened Handlers
  import opened Invariants

  /** The retention lasts at least until `until`. */
  predicate RetainedUntil(m: Manifest, until: Time) {
    && m.objectLock.Some? && m.objectLock.value.retention.Some?
    && m.objectLock.value.retention.value.retainUntil >= until
  }

  predicate OnHold(m: Manifest) {
    m.objectLock.Some? && m.objectLock.value.legalHold
  }

  /** The request lifts the legal hold of this version, by its id or as the current version. */
  predicate LiftsHold(c: Call, key: ManifestKey) {
    && c.CallLegalHold? && !c.on && c.bucket == key.bucket && c.key == key.key
    && (c.versionId.None? || c.versionId.value == key.versionId)
  }

  /** What one request may make of a version that stays. */
  ghost predicate Continues(m: Manifest, after: Manifest, c: Call) {
    && after.key == m.key && after.state == m.state && after.kind == m.kind && after.createdAt == m.createdAt
    && (forall until :: RetainedUntil(m, until) ==> RetainedUntil(after, until))
    && (OnHold(m) && !LiftsHold(c, m.key) ==> OnHold(after))
    && (!(c.CallUploadPart? && c.target == m.key) ==>
         after.parts == m.parts && after.size == m.size && after.lastModified == m.lastModified)
  }

  /** A committed version outside the "null" slot. */
  ghost predicate IsVersion(s: Site, m: Manifest) {
    Has(s.tables.objects, m) && m.state == Committed && m.key.versionId != NULL_VERSION
  }

  /** The version survives unless it is unlocked, and it survives as itself. */
  ghost predicate Survives(o: Objects, m: Manifest, c: Call, now: Time) {
    var k := Encode(m.key);
    && (m.Locked(now) ==> k in o)
    && (k in o ==> Continues(m, o[k], c))
  }

  lemma CommitObjects(s: Site, o: Outcome, stuck: set<Hash>)
    ensures Commit(s, o, stuck).site.tables.objects == After(s.tables, o).objects
  {
  }

  lemma OtherRowWritten(s: Site, m: Manifest, n: Manifest, c: Call, env: Env)
    requires RowsOk(s) && IsVersion(s, m) && ProperKey(n.key) && n.key != m.key
    ensures Survives(After(s.tables, PutManifest(s.tables, n, env.now)).objects, m, c, env.now)
  {
    EncodeIsInjective(n.key, m.key);
  }

  lemma IdIsNew(s: Site, m: Manifest, versioning: VersioningState, env: Env)
    requires IsVersion(s, m) && FreshIds(s, env)
    ensures NextVersionId(versioning, env.newId) != m.key.versionId
  {
  }

  lemma DeleteSurvives(s: Site, m: Manifest, key: ManifestKey, c: Call, env: Env)
    requires RowsOk(s) && IsVersion(s, m) && ProperKey(key)
    ensures Survives(DeleteSpecificVersion(s, key, env).site.tables.objects, m, c, env.now)
  {
    EncodeIsInjective(key, m.key);
    CommitObjects(s, DeleteManifest(s.tables, key), env.stuck);
  }

  lemma UploadRowIsOther(s: Site, m: Manifest, key: ManifestKey)
    requires RowsOk(s) && IsVersion(s, m) && ProperKey(key) && UploadAt(s, key).Some?
    ensures Encode(key) != Encode(m.key)
  {
  }

  lemma AbortSurvives(s: Site, m: Manifest, key: ManifestKey, c: Call, env: Env)
    requires RowsOk(s) && IsVersion(s, m) && ProperKey(key)
    ensures Survives(AbortUpload(s, key, env).site.tables.objects, m, c, env.now)
  {
    if UploadAt(s, key).Some? {
      UploadRowIsOther(s, m, key);
      CommitObjects(s, DeleteManifest(s.tables, key), env.stuck);
    }
  }

  lemma CompleteSurvives(s: Site, m: Manifest, key: ManifestKey, requested: seq<RequestedPart>, c: Call, env: Env)
    requires RowsOk(s) && IsVersion(s, m) && ProperKey(key)
    ensures Survives(CompleteUpload(s, key, requested, env).site.tables.objects, m, c, env.now)
  {
    var upload := UploadAt(s, key);
    if upload.Some? && Select(upload.value.parts, requested).Some? {
      UploadRowIsOther(s, m, key);
      var n := Completed(upload.value, key, Select(upload.value.parts, requested).value, env.now);
      EncodeIsInjective(n.key, m.key);
      CommitObjects(s, CompleteMultipart(s.tables, key, n, env.now), env.stuck);
    }
  }

  lemma UploadPartSurvives(s: Site, m: Manifest, key: ManifestKey, number: u32, body: Bytes, env: Env)
    requires RowsOk(s) && IsVersion(s, m) && ProperKey(key)
    ensures Survives(UploadPart(s, key, number, body, env).site.tables.objects, m, CallUploadPart(key, number, body),
                     env.now)
  {
    EncodeIsInjective(key, m.key);
    var s1 := Written(s, body);
    CommitObjects(s1, AppendPart(s.tables, key, PartOf(s, number, body), env.now), env.stuck);
  }

  /** A lock update on the version itself, or on another row. */
  lemma LockUpdateSurvives(s: Site, m: Manifest, n: Manifest, lock: ObjectLock, c: Call, now: Time)
    requires RowsOk(s) && IsVersion(s, m) && Has(s.tables.objects, n)
    requires n == m ==>
               && (forall until :: RetainedUntil(m, until) ==>
                     lock.retention.Some? && lock.retention.value.retainUntil >= until)
               && (OnHold(m) && !LiftsHold(c, m.key) ==> lock.legalHold)
    ensures Survives(After(s.tables, UpdateLock(s.tables, n.key, Some(lock))).objects, m, c, now)
  {
    EncodeIsInjective(n.key, m.key);
  }

  lemma RetentionSurvives(s: Site, m: Manifest, bucket: Bytes, key: Bytes, versionId: Option<Bytes>,
        until: Time, c: Call, env: Env)
    requires RowsOk(s) && IsVersion(s, m) && NulFree(bucket) && NulFree(key)
    ensures Survives(PutRetention(s, bucket, key, versionId, until, env).site.tables.objects, m, c, env.now)
  {
    var r := FindObject(s, bucket, key, versionId);
    if r.Some? && !Shortens(r.value, until) {
      ResolvedIsRow(s, bucket, key, versionId);
      var n := r.value;
      var lock := RetainedLock(n, until);
      LockUpdateSurvives(s, m, n, lock, c, env.now);
      CommitObjects(s, UpdateLock(s.tables, n.key, Some(lock)), {});
    }
  }

  lemma LegalHoldSurvives(s: Site, m: Manifest, bucket: Bytes, key: Bytes, versionId: Option<Bytes>, on: bool, env: Env)
    requires RowsOk(s) && IsVersion(s, m) && NulFree(bucket) && NulFree(key)
    ensures Survives(PutLegalHold(s, bucket, key, versionId, on, env).site.tables.objects, m,
                     CallLegalHold(bucket, key, versionId, on), env.now)
  {
    var r := FindObject(s, bucket, key, versionId);
    if r.Some? {
      ResolvedIsRow(s, bucket, key, versionId);
      var n := r.value;
      var lock := HeldLock(n, on);
      if versionId.Some? {
        EncodeIsInjective(n.key, ManifestKey(bucket, key, versionId.value));
      }
      LockUpdateSurvives(s, m, n, lock, CallLegalHold(bucket, key, versionId, on), env.now);
      CommitObjects(s, UpdateLock(s.tables, n.key, Some(lock)), {});
    }
  }

  lemma MarkerIsOther(s: Site, m: Manifest, n: Manifest, env: Env)
    requires IsVersion(s, m) && FreshIds(s, env) && IsMarkerIn(n, s.buckets, Clock(env.now, env.markerIds))
    ensures n.key != m.key
  {
  }

  lemma MaintainSurvives(s: Site, m: Manifest, env: Env)
    requires RowsOk(s) && IsVersion(s, m) && FreshIds(s, env)
    ensures Survives(Maintain(s, env).0.site.tables.objects, m, CallSweep, env.now)
  {
    var c := Clock(env.now, env.markerIds);
    var o := SweepLifecycle(s.tables, s.buckets, c).tables.objects;
    assert RowOk(s, m);
    SweepLifecycleKeeps(s.tables, s.buckets, c);
    if m.Locked(env.now) {
      SweepSparesLocked(s.tables, s.buckets, c, m);
    }
    var k := Encode(m.key);
    if k in o {
      assert Has(o, o[k]);
      EncodeIsInjective(o[k].key, m.key);
      if IsMarkerIn(o[k], s.buckets, c) {
        MarkerIsOther(s, m, o[k], env);
      }
    }
  }

  lemma CopySurvives(s: Site, m: Manifest, bucket: Bytes, key: Bytes, source: Source,
        attributes: Option<Bytes>, c: Call, env: Env)
    requires RowsOk(s) && IsVersion(s, m) && NulFree(bucket) && NulFree(key) && FreshIds(s, env)
    ensures Survives(CopyObject(s, bucket, key, source, attributes, env).site.tables.objects, m, c, env.now)
  {
    var r := FindObject(s, source.bucket, source.key, source.versionId);
    if bucket in s.buckets && r.Some? {
      IdIsNew(s, m, s.buckets[bucket].versioning, env);
      var n := CopyOf(s, bucket, key, r.value, attributes, env);
      OtherRowWritten(s, m, n, c, env);
      CommitObjects(s, PutManifest(s.tables, n, env.now), env.stuck);
    }
  }

  lemma PutObjectSurvives(s: Site, m: Manifest, bucket: Bytes, key: Bytes, body: Bytes, attributes: Bytes,
        lock: Option<ObjectLock>, c: Call, env: Env)
    requires RowsOk(s) && IsVersion(s, m) && NulFree(bucket) && NulFree(key) && FreshIds(s, env)
    ensures Survives(PutObject(s, bucket, key, body, attributes, lock, env).site.tables.objects, m, c, env.now)
  {
    if bucket in s.buckets {
      IdIsNew(s, m, s.buckets[bucket].versioning, env);
      var n := NewObject(s, bucket, key, body, attributes, lock, env);
      OtherRowWritten(s, m, n, c, env);
      CommitObjects(Written(s, body), PutManifest(s.tables, n, env.now), env.stuck);
    }
  }

  lemma DeleteObjectSurvives(s: Site, m: Manifest, bucket: Bytes, key: Bytes, versionId: Option<Bytes>,
        c: Call, env: Env)
    requires RowsOk(s) && IsVersion(s, m) && NulFree(bucket) && NulFree(key) && FreshIds(s, env)
    ensures Survives(DeleteObject(s, bucket, key, versionId, env).site.tables.objects, m, c, env.now)
  {
    if bucket in s.buckets {
      var versioning := s.buckets[bucket].versioning;
      if versionId.Some? {
        DeleteSurvives(s, m, ManifestKey(bucket, key, versionId.value), c, env);
      } else if versioning == Off {
        DeleteSurvives(s, m, ManifestKey(bucket, key, NULL_VERSION), c, env);
      } else {
        IdIsNew(s, m, versioning, env);
        var n := DeleteMarker(bucket, key, NextVersionId(versioning, env.newId), env.now);
        OtherRowWritten(s, m, n, c, env);
        CommitObjects(s, PutManifest(s.tables, n, env.now), env.stuck);
      }
    }
  }

  /** One request of any kind: a locked version stays; a version that stays keeps its identity, its
      retention never gets shorter, its hold is lifted by legal-hold requests only, and its content
      changes by part uploads that name it only. */
  lemma VersionsSurvive(s: Site, m: Manifest, c: Call, env: Env)
    requires RowsOk(s) && IsVersion(s, m) && ProperCall(c) && FreshIds(s, env)
    ensures Survives(Handle(s, c, env).site.tables.objects, m, c, env.now)
  {
    match c
    case CallPut(bucket, key, body, attributes, lock) =>
      PutObjectSurvives(s, m, bucket, key, body, attributes, lock, c, env);
    case CallDelete(bucket, key, versionId) => DeleteObjectSurvives(s, m, bucket, key, versionId, c, env);
    case CallCopy(bucket, key, source, newAttributes) => CopySurvives(s, m, bucket, key, source, newAttributes, c, env);
    case CallCreateUpload(bucket, key, attributes) =>
      if bucket in s.buckets {
        var n := NewUpload(bucket, key, attributes, env);
        OtherRowWritten(s, m, n, c, env);
        CommitObjects(s, PutManifest(s.tables, n, env.now), env.stuck);
      }
    case CallUploadPart(target, number, body) => UploadPartSurvives(s, m, target, number, body, env);
    case CallComplete(target, requested) => CompleteSurvives(s, m, target, requested, c, env);
    case CallAbort(target) => AbortSurvives(s, m, target, c, env);
    case CallRetention(bucket, key, versionId, until) => RetentionSurvives(s, m, bucket, key, versionId, until, c, env);
    case CallLegalHold(bucket, key, versionId, on) => LegalHoldSurvives(s, m, bucket, key, versionId, on, env);
    case CallCreateBucket(_, _) =>
    case CallDeleteBucket(_) =>
    case CallConfigure(_, _) =>
    case CallSweep => MaintainSurvives(s, m, env);
  }

  // ---- whole runs ----

  /** The version under this key is there, committed, and retained until the given time or later. */
  ghost predicate RetainedThere(s: Site, key: ManifestKey, until: Time) {
    Encode(key) in s.tables.objects
    && var m := s.tables.objects[Encode(key)]; m.key == key && m.state == Committed && RetainedUntil(m, until)
  }

  /** Until the retention ends, no run of requests removes a retained version, and none shortens its
      retention. */
  lemma {:induction false} RetentionHoldsOverRuns(s: Site, requests: seq<Request>, key: ManifestKey, until: Time)
    requires Healthy(s) && CollisionFree(s.digests) && AllAdmissible(s, requests)
    requires key.versionId != NULL_VERSION && RetainedThere(s, key, until)
    requires forall i :: 0 <= i < |requests| ==> requests[i].env.now < until
    ensures RetainedThere(Serve(s, requests), key, until)
    decreases |requests|
  {
    if requests != [] {
      var r, m := requests[0], s.tables.objects[Encode(key)];
      assert IsVersion(s, m) && m.Locked(r.env.now);
      VersionsSurvive(s, m, r.call, r.env);
      HandlersKeepHealth(s, r.call, r.env);
      HandlersKeepDigests(s, r.call, r.env);
      assert RetainedUntil(m, until);
      RetentionHoldsOverRuns(Handle(s, r.call, r.env).site, requests[1..], key, until);
    }
  }

  ghost predicate HeldThere(s: Site, key: ManifestKey) {
    Encode(key) in s.tables.objects
    && var m := s.tables.objects[Encode(key)]; m.key == key && m.state == Committed && OnHold(m)
  }

  /** As long as no request lifts it, a legal hold keeps a version for ever. */
  lemma {:induction false} LegalHoldHoldsOverRuns(s: Site, requests: seq<Request>, key: ManifestKey)
    requires Healthy(s) && CollisionFree(s.digests) && AllAdmissible(s, requests)
    requires key.versionId != NULL_VERSION && HeldThere(s, key)
    requires forall i :: 0 <= i < |requests| ==> !LiftsHold(requests[i].call, key)
    ensures HeldThere(Serve(s, requests), key)
    decreases |requests|
  {
    if requests != [] {
      var r, m := requests[0], s.tables.objects[Encode(key)];
      assert IsVersion(s, m) && m.Locked(r.env.now);
      VersionsSurvive(s, m, r.call, r.env);
      HandlersKeepHealth(s, r.call, r.env);
      HandlersKeepDigests(s, r.call, r.env);
      LegalHoldHoldsOverRuns(Handle(s, r.call, r.env).site, requests[1..], key);
    }
  }
}
