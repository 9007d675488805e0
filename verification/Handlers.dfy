/** The S3 request handlers (src/s3/object.rs, copy.rs, multipart.rs, lock.rs, bucket.rs,
    maintenance.rs) as functions from one state of the whole server to the next. */
module Handlers {
  import opened Results
  import opened ByteStrings
  import opened Manifests
  import opened Transactions
  import opened Scans
  import opened Lifecycle
  import opened Collection

  /** BLAKE3 and MD5. */
  datatype Digests = Digests(contentHash: Bytes -> Hash, md5: Bytes -> Bytes)

  datatype Site = Site(digests: Digests, buckets: Buckets, tables: Tables, files: Files) {
    function Storage(): Storage {
      Collection.Storage(tables.parts, files)
    }

    function WithStorage(s: Storage): Site {
      this.(tables := tables.(parts := s.parts), files := s.files)
    }
  }

  /** What a request gets from outside: the time, a generated version or upload id, the ids that a sweep
      generates, and the files that cannot be unlinked at the moment. */
  datatype Env = Env(now: Time, newId: Bytes, markerIds: ManifestKey -> Bytes, stuck: set<Hash>)

  datatype HandlerError =
    | NoSuchBucket
    | NoSuchKey
    | NoSuchUpload
    | AccessForbidden
    | InvalidArgument
    | InvalidRequest
    | SourceUnreadable
    | Internal(error: MetaError)

  datatype Step = Step(site: Site, reply: Result<(), HandlerError>)

  /** Commit a transaction and collect what it freed. */
  function Commit(s: Site, o: Outcome, stuck: set<Hash>): Step {
    match o
    case Failure(e) => Step(s, Failure(Internal(e)))
    case Success(c) =>
      var storage := CollectFreed(Collection.Storage(c.tables.parts, s.files), c.freed, stuck);
      Step(s.(tables := c.tables).WithStorage(storage),
           Success(()))
  }

  function NextVersionId(versioning: VersioningState, newId: Bytes): Bytes {
    if versioning == Enabled then newId else NULL_VERSION
  }

  function DefaultLock(cfg: Option<ObjectLockConfig>, now: Time): Option<ObjectLock> {
    if cfg.None? || !cfg.value.enabled || cfg.value.defaultRetention.None? then None
    else
      match cfg.value.defaultRetention.value
      case DefaultRetention(Some(days), _) => Some(ObjectLock(Some(Retention(now + days * DAY)), false))
      case DefaultRetention(None, Some(years)) => Some(ObjectLock(Some(Retention(now + years * 365 * DAY)), false))
      case DefaultRetention(None, None) => None
  }

  /** A part file is written unless there is one with this name. */
  function Written(s: Site, body: Bytes): Site {
    var h := s.digests.contentHash(body);
    s.(files := if h in s.files then s.files else s.files[h := body])
  }

  function PartOf(s: Site, number: u32, body: Bytes): PartRef {
    PartRef(number, s.digests.contentHash(body), s.digests.md5(body), |body|)
  }

  function NewObject(s: Site, bucket: Bytes, key: Bytes, body: Bytes, attributes: Bytes,
        lock: Option<ObjectLock>, env: Env): Manifest
    requires bucket in s.buckets
  {
    var cfg := s.buckets[bucket];
    Manifest(ManifestKey(bucket, key, NextVersionId(cfg.versioning, env.newId)), Committed, Object,
             [PartOf(s, 1, body)], |body|, attributes,
             if lock.Some? then lock else DefaultLock(cfg.objectLock, env.now), env.now, env.now)
  }

  function PutObject(s: Site, bucket: Bytes, key: Bytes, body: Bytes, attributes: Bytes,
        lock: Option<ObjectLock>, env: Env): Step {
    if bucket !in s.buckets then Step(s, Failure(NoSuchBucket))
    else
      var m := NewObject(s, bucket, key, body, attributes, lock, env);
      Commit(Written(s, body), PutManifest(s.tables, m, env.now), env.stuck)
  }

  /** A delete whose target is already gone succeeds. */
  function Forgiving(st: Step): Step {
    if st.reply == Failure(Internal(ManifestNotFound)) then st.(reply := Success(())) else st
  }

  function DeleteSpecificVersion(s: Site, key: ManifestKey, env: Env): Step {
    var k := Encode(key);
    if k in s.tables.objects && s.tables.objects[k].Locked(env.now) then Step(s, Failure(AccessForbidden))
    else Forgiving(Commit(s, DeleteManifest(s.tables, key), env.stuck))
  }

  function DeleteObject(s: Site, bucket: Bytes, key: Bytes, versionId: Option<Bytes>, env: Env): Step {
    if bucket !in s.buckets then Step(s, Failure(NoSuchBucket))
    else if versionId.Some? then DeleteSpecificVersion(s, ManifestKey(bucket, key, versionId.value), env)
    else
      var versioning := s.buckets[bucket].versioning;
      var target := ManifestKey(bucket, key, NULL_VERSION);
      if versioning == Off then DeleteSpecificVersion(s, target, env)
      else
        var m := DeleteMarker(bucket, key, NextVersionId(versioning, env.newId), env.now);
        Commit(s, PutManifest(s.tables, m, env.now), env.stuck)
  }

  /** The committed manifest that a request refers to: a given version, or the current one. */
  function FindCommitted(s: Site, bucket: Bytes, key: Bytes, versionId: Option<Bytes>): Option<Manifest> {
    var found :=
      match versionId
      case Some(id) =>
        var k := Encode(ManifestKey(bucket, key, id));
        if k in s.tables.objects then Some(s.tables.objects[k]) else None
      case None => Current(s.tables.objects, bucket, key);
    if found.Some? && found.value.state == Committed then found else None
  }

  /** The same for requests that want an object and take a delete marker for nothing. */
  function FindObject(s: Site, bucket: Bytes, key: Bytes, versionId: Option<Bytes>): Option<Manifest> {
    var found := FindCommitted(s, bucket, key, versionId);
    if found.Some? && found.value.kind == Object then found else None
  }

  /** What a read finds: like an object, but a delete marker named by its version is told apart. */
  function FindReadable(s: Site, bucket: Bytes, key: Bytes, versionId: Option<Bytes>): Result<Manifest, HandlerError> {
    var found := FindCommitted(s, bucket, key, versionId);
    if bucket !in s.buckets then Failure(NoSuchBucket)
    else if found.None? then Failure(NoSuchKey)
    else if found.value.kind == Tombstone then Failure(if versionId.None? then NoSuchKey else InvalidRequest)
    else Success(found.value)
  }

  datatype Source = Source(bucket: Bytes, key: Bytes, versionId: Option<Bytes>)

  /** `attributes` replaces those of the source, if given. The lock is not inherited. */
  function CopyOf(s: Site, bucket: Bytes, key: Bytes, from: Manifest, attributes: Option<Bytes>, env: Env): Manifest
    requires bucket in s.buckets
  {
    Manifest(ManifestKey(bucket, key, NextVersionId(s.buckets[bucket].versioning, env.newId)), Committed, Object,
             from.parts, from.size, if attributes.Some? then attributes.value else from.attributes,
             None, env.now, env.now)
  }

  function CopyObject(s: Site, bucket: Bytes, key: Bytes, source: Source, attributes: Option<Bytes>, env: Env): Step {
    if bucket !in s.buckets then Step(s, Failure(NoSuchBucket))
    else
      match FindObject(s, source.bucket, source.key, source.versionId)
      case None => Step(s, Failure(NoSuchKey))
      case Some(from) =>
        Commit(s, PutManifest(s.tables, CopyOf(s, bucket, key, from, attributes, env), env.now), env.stuck)
  }

  // ---- multipart uploads ----

  function NewUpload(bucket: Bytes, key: Bytes, attributes: Bytes, env: Env): Manifest {
    Manifest(ManifestKey(bucket, key, env.newId), InProgress, Object, [], 0, attributes, None, env.now, env.now)
  }

  function CreateUpload(s: Site, bucket: Bytes, key: Bytes, attributes: Bytes, env: Env): Step {
    if bucket !in s.buckets then Step(s, Failure(NoSuchBucket))
    else
      Commit(s, PutManifest(s.tables, NewUpload(bucket, key, attributes, env), env.now), env.stuck)
  }

  function AsUpload(st: Step): Step {
    if st.reply == Failure(Internal(ManifestNotFound)) then st.(reply := Failure(NoSuchUpload)) else st
  }

  /** Also the second half of a part copy, whose body is read from another object. */
  function UploadPart(s: Site, key: ManifestKey, number: u32, body: Bytes, env: Env): Step {
    if number == 0 || number > 10_000 then Step(s, Failure(InvalidArgument))
    else AsUpload(Commit(Written(s, body), AppendPart(s.tables, key, PartOf(s, number, body), env.now), env.stuck))
  }

  /** A part named in a completion request; entity tags are compared as the digests they spell. */
  datatype RequestedPart = RequestedPart(partNumber: u32, etag: Bytes)

  predicate InOrder(requested: seq<RequestedPart>) {
    && (forall i :: 0 <= i < |requested| ==> requested[i].partNumber > 0)
    && (forall i, j :: 0 <= i < j < |requested| ==> requested[i].partNumber < requested[j].partNumber)
  }

  /** The uploaded part that a requested one stands for. */
  function Chosen(parts: seq<PartRef>, r: RequestedPart): Option<PartRef> {
    match Position(parts, r.partNumber)
    case None => None
    case Some(i) => if parts[i].md5 == r.etag then Some(parts[i]) else None
  }

  function Select(parts: seq<PartRef>, requested: seq<RequestedPart>): Option<seq<PartRef>> {
    if requested == [] then Some([])
    else
      var first := Chosen(parts, requested[0]);
      var rest := Select(parts, requested[1..]);
      if first.Some? && rest.Some? then Some([first.value] + rest.value) else None
  }

  /** Put what was selected first in front, unless the rest could not be selected. */
  function Onto(selected: seq<PartRef>, rest: Option<seq<PartRef>>): Option<seq<PartRef>> {
    if rest.Some? then Some(selected + rest.value) else None
  }

  lemma OntoNothing(rest: Option<seq<PartRef>>)
    ensures Onto([], rest) == rest
  {
    if rest.Some? {
      assert [] + rest.value == rest.value;
    }
  }

  function UploadAt(s: Site, key: ManifestKey): Option<Manifest> {
    var k := Encode(key);
    if k in s.tables.objects && s.tables.objects[k].state == InProgress then Some(s.tables.objects[k]) else None
  }

  function Completed(upload: Manifest, key: ManifestKey, selected: seq<PartRef>, now: Time): Manifest {
    Manifest(ManifestKey(key.bucket, key.key, NULL_VERSION), Committed, Object, selected, TotalSize(selected),
             upload.attributes, upload.objectLock, upload.createdAt, now)
  }

  function CompleteUpload(s: Site, key: ManifestKey, requested: seq<RequestedPart>, env: Env): Step {
    if requested == [] || !InOrder(requested) then Step(s, Failure(InvalidArgument))
    else
      match UploadAt(s, key)
      case None => Step(s, Failure(NoSuchUpload))
      case Some(upload) =>
        match Select(upload.parts, requested)
        case None => Step(s, Failure(InvalidArgument))
        case Some(selected) =>
          Commit(s, CompleteMultipart(s.tables, key, Completed(upload, key, selected, env.now), env.now), env.stuck)
  }

  function AbortUpload(s: Site, key: ManifestKey, env: Env): Step {
    if UploadAt(s, key).None? then Step(s, Failure(NoSuchUpload))
    else Commit(s, DeleteManifest(s.tables, key), env.stuck)
  }

  // ---- locks ----

  /** The manifest's lock with another retention, or another hold. */
  function RetainedLock(m: Manifest, retainUntil: Time): ObjectLock {
    ObjectLock(Some(Retention(retainUntil)), m.objectLock.Some? && m.objectLock.value.legalHold)
  }

  function HeldLock(m: Manifest, on: bool): ObjectLock {
    ObjectLock(if m.objectLock.Some? then m.objectLock.value.retention else None, on)
  }

  predicate Shortens(m: Manifest, retainUntil: Time) {
    && m.objectLock.Some? && m.objectLock.value.retention.Some?
    && retainUntil < m.objectLock.value.retention.value.retainUntil
  }

  function PutRetention(s: Site, bucket: Bytes, key: Bytes, versionId: Option<Bytes>, retainUntil: Time,
        env: Env): Step {
    match FindObject(s, bucket, key, versionId)
    case None => Step(s, Failure(NoSuchKey))
    case Some(m) =>
      if Shortens(m, retainUntil) then Step(s, Failure(AccessForbidden))
      else
        Commit(s, UpdateLock(s.tables, m.key, Some(RetainedLock(m, retainUntil))), {})
  }

  function PutLegalHold(s: Site, bucket: Bytes, key: Bytes, versionId: Option<Bytes>, on: bool, env: Env): Step {
    match FindObject(s, bucket, key, versionId)
    case None => Step(s, Failure(NoSuchKey))
    case Some(m) =>
      Commit(s, UpdateLock(s.tables, m.key, Some(HeldLock(m, on))), {})
  }

  // ---- buckets ----

  function CreateBucket(s: Site, name: Bytes, lockEnabled: bool): Step {
    if name in s.buckets then Step(s, Failure(Internal(BucketExists)))
    else
      var cfg := BucketConfig(if lockEnabled then Enabled else Off,
                              if lockEnabled then Some(ObjectLockConfig(true, None)) else None, []);
      Step(s.(buckets := s.buckets[name := cfg]), Success(()))
  }

  function DeleteBucket(s: Site, name: Bytes): Step {
    if name !in s.buckets then Step(s, Failure(NoSuchBucket))
    else if BucketRangeRows(s.tables.objects, name) != [] then Step(s, Failure(Internal(BucketNotEmpty)))
    else Step(s.(buckets := s.buckets - {name}), Success(()))
  }

  /** Versioning, lock and lifecycle settings. */
  function Configure(s: Site, name: Bytes, change: BucketConfig -> BucketConfig): Step {
    if name !in s.buckets then Step(s, Failure(NoSuchBucket))
    else Step(s.(buckets := s.buckets[name := change(s.buckets[name])]), Success(()))
  }

  // ---- maintenance ----

  /** The lifecycle pass and then the collection of orphans; an error in the first skips the second. */
  function Maintain(s: Site, env: Env): (Step, Report) {
    var swept := SweepLifecycle(s.tables, s.buckets, Clock(env.now, env.markerIds));
    if swept.failed.Some? then
      (Step(s.(tables := swept.tables), Failure(Internal(swept.failed.value))), Report(0, 0, 0, 0))
    else
      var (storage, removed) := SweepGc(Collection.Storage(swept.tables.parts, s.files), env.stuck);
      (Step(s.(tables := swept.tables).WithStorage(storage), Success(())), swept.report.(gcPartsRemoved := removed))
  }

  // ---- any request ----

  datatype Call =
    | CallPut(bucket: Bytes, key: Bytes, body: Bytes, attributes: Bytes, lock: Option<ObjectLock>)
    | CallDelete(bucket: Bytes, key: Bytes, versionId: Option<Bytes>)
    | CallCopy(bucket: Bytes, key: Bytes, source: Source, newAttributes: Option<Bytes>)
    | CallCreateUpload(bucket: Bytes, key: Bytes, attributes: Bytes)
    | CallUploadPart(target: ManifestKey, number: u32, body: Bytes)
    | CallComplete(target: ManifestKey, requested: seq<RequestedPart>)
    | CallAbort(target: ManifestKey)
    | CallRetention(bucket: Bytes, key: Bytes, versionId: Option<Bytes>, retainUntil: Time)
    | CallLegalHold(bucket: Bytes, key: Bytes, versionId: Option<Bytes>, on: bool)
    | CallCreateBucket(bucket: Bytes, lockEnabled: bool)
    | CallDeleteBucket(bucket: Bytes)
    | CallConfigure(bucket: Bytes, change: BucketConfig -> BucketConfig)
    | CallSweep

  function Handle(s: Site, c: Call, env: Env): Step {
    match c
    case CallPut(bucket, key, body, attributes, lock) => PutObject(s, bucket, key, body, attributes, lock, env)
    case CallDelete(bucket, key, versionId) => DeleteObject(s, bucket, key, versionId, env)
    case CallCopy(bucket, key, source, newAttributes) => CopyObject(s, bucket, key, source, newAttributes, env)
    case CallCreateUpload(bucket, key, attributes) => CreateUpload(s, bucket, key, attributes, env)
    case CallUploadPart(target, number, body) => UploadPart(s, target, number, body, env)
    case CallComplete(target, requested) => CompleteUpload(s, target, requested, env)
    case CallAbort(target) => AbortUpload(s, target, env)
    case CallRetention(bucket, key, versionId, retainUntil) => PutRetention(s, bucket, key, versionId, retainUntil, env)
    case CallLegalHold(bucket, key, versionId, on) => PutLegalHold(s, bucket, key, versionId, on, env)
    case CallCreateBucket(name, lockEnabled) => CreateBucket(s, name, lockEnabled)
    case CallDeleteBucket(name) => DeleteBucket(s, name)
    case CallConfigure(name, change) => Configure(s, name, change)
    case CallSweep => Maintain(s, env).0
  }

  datatype Request = Request(call: Call, env: Env)

  /** Handlers one after the other. */
  function Serve(s: Site, requests: seq<Request>): Site
    decreases |requests|
  {
    if requests == [] then s
    else Serve(Handle(s, requests[0].call, requests[0].env).site, requests[1..])
  }
}
