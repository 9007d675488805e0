/** What each request on objects and locks does, in terms of the tables before and after and of the reply
    alone (src/s3/object.rs, src/s3/copy.rs, src/s3/lock.rs). */
module Effects {
  import opened Results
  import opened ByteStrings
  import opened Manifests
  import opened KeyOrder
  import opened Refcounts
  import opened Transactions
  import opened Scans
  import opened Reads
  import opened RangeText
  import opened Handlers
  import opened Uploads
  import opened Invariants
  import opened Content
  import opened Expiry

  // ---- which manifest a request refers to ----

  /** The committed manifest that a bucket, a key and possibly a version id name: the row with that id, or
      the current version. */
  ghost predicate Named(o: Objects, bucket: Bytes, key: Bytes, versionId: Option<Bytes>, m: Manifest) {
    match versionId
    case Some(id) => Has(o, m) && m.key == ManifestKey(bucket, key, id) && m.state == Committed
    case None => IsCurrent(o, bucket, key, m)
  }

  lemma CommittedIff(s: Site, bucket: Bytes, key: Bytes, versionId: Option<Bytes>, m: Manifest)
    requires WellFormed(s.tables.objects) && NulFree(bucket) && NulFree(key)
    ensures FindCommitted(s, bucket, key, versionId) == Some(m) <==> Named(s.tables.objects, bucket, key, versionId, m)
  {
    match versionId
    case None => CurrentIff(s.tables.objects, bucket, key, m);
    case Some(id) =>
      var k := Encode(ManifestKey(bucket, key, id));
      if k in s.tables.objects {
        EncodeIsInjective(s.tables.objects[k].key, ManifestKey(bucket, key, id));
      }
  }

  ghost predicate NamedObject(o: Objects, bucket: Bytes, key: Bytes, versionId: Option<Bytes>, m: Manifest) {
    Named(o, bucket, key, versionId, m) && m.kind == Object
  }

  /** Copies and lock requests refer to an object. */
  lemma ObjectFoundIff(s: Site, bucket: Bytes, key: Bytes, versionId: Option<Bytes>, m: Manifest)
    requires WellFormed(s.tables.objects) && NulFree(bucket) && NulFree(key)
    ensures FindObject(s, bucket, key, versionId) == Some(m)
       <==> NamedObject(s.tables.objects, bucket, key, versionId, m)
  {
    CommittedIff(s, bucket, key, versionId, m);
  }

  /** So does a GET, which needs the bucket too. */
  lemma ReadableIff(s: Site, bucket: Bytes, key: Bytes, versionId: Option<Bytes>, m: Manifest)
    requires WellFormed(s.tables.objects) && NulFree(bucket) && NulFree(key)
    ensures FindReadable(s, bucket, key, versionId) == Success(m)
       <==> bucket in s.buckets && NamedObject(s.tables.objects, bucket, key, versionId, m)
  {
    CommittedIff(s, bucket, key, versionId, m);
  }

  /** Why a GET finds nothing: there is no such bucket; a version id names a delete marker; or there is no such
      version, or no current one that is an object. */
  lemma UnreadableIff(s: Site, bucket: Bytes, key: Bytes, versionId: Option<Bytes>)
    requires WellFormed(s.tables.objects) && NulFree(bucket) && NulFree(key)
    ensures var r, o := FindReadable(s, bucket, key, versionId), s.tables.objects;
      && (r == Failure(NoSuchBucket) <==> bucket !in s.buckets)
      && (r == Failure(InvalidRequest) <==>
           && bucket in s.buckets && versionId.Some?
           && exists m :: Named(o, bucket, key, versionId, m) && m.kind == Tombstone)
      && (r == Failure(NoSuchKey) <==>
           && bucket in s.buckets
           && forall m :: Named(o, bucket, key, versionId, m) ==> m.kind == Tombstone && versionId.None?)
  {
    forall m
      ensures FindCommitted(s, bucket, key, versionId) == Some(m)
         <==> Named(s.tables.objects, bucket, key, versionId, m)
    {
      CommittedIff(s, bucket, key, versionId, m);
    }
    var found := FindCommitted(s, bucket, key, versionId);
    if found.Some? {
      assert Named(s.tables.objects, bucket, key, versionId, found.value);
    }
  }

  // ---- GET ----

  /** The bytes from `a` to `b`, which are those that the range denotes. */
  ghost predicate Sliced(content: Bytes, spec: RangeSpec, a: nat, b: nat, body: Bytes) {
    && a <= b < |content| && body == content[a..b + 1]
    && forall i: nat :: a <= i <= b <==> Denotes(spec, |content|, i)
  }

  /** The bytes that a range denotes, or everything if it denotes nothing. */
  ghost predicate Answers(content: Bytes, spec: RangeSpec, body: Bytes) {
    || (body == content && forall i: nat :: !Denotes(spec, |content|, i))
    || exists a, b :: Sliced(content, spec, a, b, body)
  }

  lemma NamedIsRow(s: Site, bucket: Bytes, key: Bytes, versionId: Option<Bytes>, m: Manifest)
    requires Healthy(s) && Named(s.tables.objects, bucket, key, versionId, m)
    ensures Has(s.tables.objects, m) && RowOk(s, m) && m.key.bucket == bucket && bucket in s.buckets
  {
    assert Has(s.tables.objects, m) && RowOk(s, m);
  }

  /** A GET returns the content of the version it names, or of the current one. */
  lemma GetReads(s: Site, bucket: Bytes, key: Bytes, versionId: Option<Bytes>, m: Manifest)
    requires Healthy(s) && NulFree(bucket) && NulFree(key)
    requires NamedObject(s.tables.objects, bucket, key, versionId, m)
    ensures AllPresent(s.files, m.parts)
    ensures GetReply(s, bucket, key, versionId, None) == Success(Assemble(s.files, m.parts))
  {
    NamedIsRow(s, bucket, key, versionId, m);
    ReadableIff(s, bucket, key, versionId, m);
    RowsAreReadable(s, m);
  }

  lemma CutAnswers(content: Bytes, value: Bytes, spec: RangeSpec)
    requires Spells(value, spec)
    ensures var r := ParseRangeHeader(Some(value), |content|);
      r.Success? && Answers(content, spec, Cut(content, r.value))
  {
    RangeHeaderMeans(value, spec, |content|);
    var bounds := ParseRangeHeader(Some(value), |content|).value;
    if bounds.Some? {
      var (a, b) := bounds.value;
      ClipIsSlice(content, a, b + 1);
      assert Sliced(content, spec, a, b, Cut(content, bounds));
    }
  }

  /** With a `Range` header that spells a range it returns the bytes that the range denotes. */
  lemma GetReadsRange(s: Site, bucket: Bytes, key: Bytes, versionId: Option<Bytes>, m: Manifest,
        value: Bytes, spec: RangeSpec)
    requires Healthy(s) && NulFree(bucket) && NulFree(key) && Spells(value, spec)
    requires NamedObject(s.tables.objects, bucket, key, versionId, m)
    ensures AllPresent(s.files, m.parts)
    ensures var r := GetReply(s, bucket, key, versionId, Some(value));
      r.Success? && Answers(Assemble(s.files, m.parts), spec, r.value)
  {
    NamedIsRow(s, bucket, key, versionId, m);
    ReadableIff(s, bucket, key, versionId, m);
    RowsAreReadable(s, m);
    CutAnswers(Assemble(s.files, m.parts), value, spec);
  }

  /** With any other it is refused. */
  lemma GetRefusesRange(s: Site, bucket: Bytes, key: Bytes, versionId: Option<Bytes>, m: Manifest, value: Bytes)
    requires Healthy(s) && NulFree(bucket) && NulFree(key) && forall spec :: !Spells(value, spec)
    requires NamedObject(s.tables.objects, bucket, key, versionId, m)
    ensures GetReply(s, bucket, key, versionId, Some(value)) == Failure(InvalidArgument)
  {
    NamedIsRow(s, bucket, key, versionId, m);
    ReadableIff(s, bucket, key, versionId, m);
    RangeHeaderRefusedIff(Some(value), m.size);
  }

  // ---- PUT ----

  /** The key that a bucket gives a new version: a new id where versioning is on, and "null" elsewhere. */
  function NewKey(s: Site, bucket: Bytes, key: Bytes, env: Env): ManifestKey
    requires bucket in s.buckets
  {
    if s.buckets[bucket].versioning == Enabled then ManifestKey(bucket, key, env.newId)
    else ManifestKey(bucket, key, [110, 117, 108, 108])
  }

  /** Retention by the bucket's default, for so many days of 86 400 seconds or years of 365 days; no hold. */
  ghost predicate LockedByDefault(cfg: Option<ObjectLockConfig>, now: Time, lock: Option<ObjectLock>) {
    if cfg.Some? && cfg.value.enabled && cfg.value.defaultRetention.Some?
       && (cfg.value.defaultRetention.value.days.Some? || cfg.value.defaultRetention.value.years.Some?) then
      var d := cfg.value.defaultRetention.value;
      && lock.Some? && !lock.value.legalHold && lock.value.retention.Some?
      && lock.value.retention.value.retainUntil
         == now + (if d.days.Some? then d.days.value else d.years.value * 365) * 86_400_000_000_000
    else lock == None
  }

  /** A put succeeds exactly if its bucket exists and its content is not being collected; otherwise it leaves
      the tables alone. */
  lemma PutRepliesIff(s: Site, bucket: Bytes, key: Bytes, body: Bytes, attributes: Bytes,
        lock: Option<ObjectLock>, env: Env)
    ensures var st, h := PutObject(s, bucket, key, body, attributes, lock, env), s.digests.contentHash(body);
      && (st.reply == Failure(NoSuchBucket) <==> bucket !in s.buckets)
      && (st.reply == Failure(Internal(PartIsGcPending(h))) <==> bucket in s.buckets && Pending(s.tables.parts, h))
      && (st.reply.Success? <==> bucket in s.buckets && !Pending(s.tables.parts, h))
      && (st.reply.Failure? ==> st.site.tables == s.tables)
  {
    var p := PartOf(s, 1, body);
    assert [p][1..] == [];
    assert IncrementAll(s.tables.parts, [p], env.now).Failure? <==> Pending(s.tables.parts, p.hash);
  }

  /** A successful put writes one row: an object of one part, made now, with the lock it was given or else the
      bucket's default. */
  lemma PutStoresRow(s: Site, bucket: Bytes, key: Bytes, body: Bytes, attributes: Bytes,
        lock: Option<ObjectLock>, env: Env)
    requires PutObject(s, bucket, key, body, attributes, lock, env).reply.Success?
    ensures bucket in s.buckets
    ensures var o', k := PutObject(s, bucket, key, body, attributes, lock, env).site.tables.objects,
                         NewKey(s, bucket, key, env);
      && Encode(k) in o' && o' == s.tables.objects[Encode(k) := o'[Encode(k)]]
      && var m := o'[Encode(k)];
      && m.key == k && m.state == Committed && m.kind == Object && m.attributes == attributes
      && m.parts == [PartRef(1, s.digests.contentHash(body), s.digests.md5(body), |body|)] && m.size == |body|
      && m.createdAt == env.now && m.lastModified == env.now
      && (if lock.Some? then m.objectLock == lock
          else LockedByDefault(s.buckets[bucket].objectLock, env.now, m.objectLock))
  {
    PutStores(s, bucket, key, body, attributes, lock, env);
  }

  /** A GET of the new version returns what was put. */
  lemma PutThenGet(s: Site, bucket: Bytes, key: Bytes, body: Bytes, attributes: Bytes,
        lock: Option<ObjectLock>, env: Env)
    requires Healthy(s) && CollisionFree(s.digests)
    requires Admissible(s, Request(CallPut(bucket, key, body, attributes, lock), env))
    requires PutObject(s, bucket, key, body, attributes, lock, env).reply.Success?
    ensures bucket in s.buckets
    ensures var s', id := PutObject(s, bucket, key, body, attributes, lock, env).site,
                          NewKey(s, bucket, key, env).versionId;
      GetReply(s', bucket, key, Some(id), None) == Success(body)
  {
    var s' := PutObject(s, bucket, key, body, attributes, lock, env).site;
    PutStoresRow(s, bucket, key, body, attributes, lock, env);
    PutReadsBack(s, bucket, key, body, attributes, lock, env);
    PutObjectKeepsHealth(s, bucket, key, body, attributes, lock, env);
    var k := NewKey(s, bucket, key, env);
    GetReads(s', bucket, key, Some(k.versionId), s'.tables.objects[Encode(k)]);
  }

  /** Without a version id a GET refers to the new version exactly if every other committed version is older,
      or equally old with a greater id. */
  lemma PutIsCurrent(s: Site, bucket: Bytes, key: Bytes, body: Bytes, attributes: Bytes,
        lock: Option<ObjectLock>, env: Env)
    requires Healthy(s) && NulFree(bucket) && NulFree(key)
    requires PutObject(s, bucket, key, body, attributes, lock, env).reply.Success?
    ensures bucket in s.buckets
    ensures var s', k := PutObject(s, bucket, key, body, attributes, lock, env).site,
                         Encode(NewKey(s, bucket, key, env));
      && k in s'.tables.objects
      && (Named(s'.tables.objects, bucket, key, None, s'.tables.objects[k])
          <==> NewestOf(s.tables.objects, s'.tables.objects[k]))
  {
    PutStoresRow(s, bucket, key, body, attributes, lock, env);
    var o' := PutObject(s, bucket, key, body, attributes, lock, env).site.tables.objects;
    WrittenMeans(s.tables.objects, o'[Encode(NewKey(s, bucket, key, env))]);
  }

  lemma WrittenMeans(o: Objects, m: Manifest)
    requires WellFormed(o) && ProperKey(m.key) && m.state == Committed
    ensures WellFormed(o[Encode(m.key) := m])
    ensures IsCurrent(o[Encode(m.key) := m], m.key.bucket, m.key.key, m) <==> NewestOf(o, m)
  {
    WrittenIsCurrentIff(o, m);
    CurrentIff(o[Encode(m.key) := m], m.key.bucket, m.key.key, m);
  }

  // ---- DELETE ----

  /** A delete of a version is refused exactly if the version is held, or retained beyond now; otherwise it
      removes that row, if there is one, and no other. */
  lemma DeleteVersionIff(s: Site, bucket: Bytes, key: Bytes, id: Bytes, env: Env)
    ensures var st, k := DeleteObject(s, bucket, key, Some(id), env), Encode(ManifestKey(bucket, key, id));
      && (st.reply == Failure(NoSuchBucket) <==> bucket !in s.buckets)
      && (st.reply == Failure(AccessForbidden) <==>
           bucket in s.buckets && k in s.tables.objects && !Free(s.tables.objects[k], env.now))
      && (st.reply.Success? <==>
           bucket in s.buckets && (k in s.tables.objects ==> Free(s.tables.objects[k], env.now)))
      && (st.reply.Failure? ==> st.site == s)
      && (st.reply.Success? ==> st.site.tables.objects == s.tables.objects - {k})
  {
    var k := Encode(ManifestKey(bucket, key, id));
    if k in s.tables.objects {
      assert s.tables.objects[k].Locked(env.now) <==> !Free(s.tables.objects[k], env.now);
    }
  }

  /** Without a version id and with versioning off, the version "null" is deleted. */
  lemma DeleteUnversioned(s: Site, bucket: Bytes, key: Bytes, env: Env)
    requires bucket in s.buckets && s.buckets[bucket].versioning == Off
    ensures DeleteObject(s, bucket, key, None, env) == DeleteObject(s, bucket, key, Some([110, 117, 108, 108]), env)
  {
  }

  /** With versioning on or suspended it succeeds and puts a delete marker, whatever is locked. */
  lemma DeleteMarks(s: Site, bucket: Bytes, key: Bytes, env: Env)
    requires bucket in s.buckets && s.buckets[bucket].versioning != Off
    ensures var st, k := DeleteObject(s, bucket, key, None, env), NewKey(s, bucket, key, env);
      && st.reply.Success?
      && st.site.tables.objects
         == s.tables.objects[Encode(k) := Manifest(k, Committed, Tombstone, [], 0, [], None, env.now, env.now)]
  {
  }

  /** Then a GET of the marker is invalid, and a GET without version id finds nothing if the marker is the newest
      version. */
  lemma DeleteThenGet(s: Site, bucket: Bytes, key: Bytes, env: Env, range: Option<Bytes>)
    requires Healthy(s) && NulFree(bucket) && NulFree(key)
    requires bucket in s.buckets && s.buckets[bucket].versioning != Off
    ensures var s', k := DeleteObject(s, bucket, key, None, env).site, NewKey(s, bucket, key, env);
      && Encode(k) in s'.tables.objects
      && GetReply(s', bucket, key, Some(k.versionId), range) == Failure(InvalidRequest)
      && (NewestOf(s.tables.objects, s'.tables.objects[Encode(k)]) ==>
            GetReply(s', bucket, key, None, range) == Failure(NoSuchKey))
  {
    var s', k := DeleteObject(s, bucket, key, None, env).site, NewKey(s, bucket, key, env);
    DeleteMarks(s, bucket, key, env);
    var mark := s'.tables.objects[Encode(k)];
    WrittenMeans(s.tables.objects, mark);
    assert Named(s'.tables.objects, bucket, key, Some(k.versionId), mark);
    UnreadableIff(s', bucket, key, Some(k.versionId));
    CommittedIff(s', bucket, key, None, mark);
  }

  // ---- COPY ----

  /** A copy succeeds exactly if its bucket exists and its source is a committed object. */
  lemma CopyRepliesIff(s: Site, bucket: Bytes, key: Bytes, source: Source, attributes: Option<Bytes>, env: Env)
    requires Healthy(s) && NulFree(source.bucket) && NulFree(source.key)
    ensures var st := CopyObject(s, bucket, key, source, attributes, env);
      && (st.reply == Failure(NoSuchBucket) <==> bucket !in s.buckets)
      && (st.reply.Success? <==>
           bucket in s.buckets && exists from :: IsSource(s, source, from))
      && (st.reply == Failure(NoSuchKey) <==>
           bucket in s.buckets && forall from :: !IsSource(s, source, from))
      && (st.reply.Failure? ==> st.site == s)
  {
    var found := FindObject(s, source.bucket, source.key, source.versionId);
    forall from
      ensures found == Some(from) <==> IsSource(s, source, from)
    {
      ObjectFoundIff(s, source.bucket, source.key, source.versionId, from);
    }
    if found.Some? {
      assert IsSource(s, source, found.value);
      if bucket in s.buckets {
        CopyIsNotRefused(s, found.value, CopyOf(s, bucket, key, found.value, attributes, env), env.now);
      }
    }
  }

  ghost predicate IsSource(s: Site, source: Source, from: Manifest) {
    NamedObject(s.tables.objects, source.bucket, source.key, source.versionId, from)
  }

  lemma CopyIsNotRefused(s: Site, from: Manifest, m: Manifest, now: Time)
    requires Healthy(s) && Has(s.tables.objects, from) && m.parts == from.parts
    ensures PutManifest(s.tables, m, now).Success?
  {
    PutRefusedIff(s.tables, m, now);
    forall i | 0 <= i < |m.parts|
      ensures !Pending(s.tables.parts, m.parts[i].hash)
    {
      UploadHoldsItsParts(s.tables, Encode(from.key), m.parts[i]);
    }
  }

  /** It writes one row: an object made now, of the parts of its source, with the source's attributes unless
      others are given, and without a lock. */
  lemma CopyStoresRow(s: Site, bucket: Bytes, key: Bytes, source: Source, attributes: Option<Bytes>, env: Env,
        from: Manifest)
    requires Healthy(s) && NulFree(source.bucket) && NulFree(source.key)
    requires bucket in s.buckets && IsSource(s, source, from)
    ensures var o', k := CopyObject(s, bucket, key, source, attributes, env).site.tables.objects,
                         NewKey(s, bucket, key, env);
      && Encode(k) in o' && o' == s.tables.objects[Encode(k) := o'[Encode(k)]]
      && var m := o'[Encode(k)];
      && m.key == k && m.state == Committed && m.kind == Object
      && m.parts == from.parts && m.size == from.size
      && m.attributes == (if attributes.Some? then attributes.value else from.attributes)
      && m.objectLock == None && m.createdAt == env.now && m.lastModified == env.now
  {
    ObjectFoundIff(s, source.bucket, source.key, source.versionId, from);
    CopyIsNotRefused(s, from, CopyOf(s, bucket, key, from, attributes, env), env.now);
  }

  /** Two objects with the same parts answer alike. */
  lemma SamePartsGet(s: Site, source: Source, from: Manifest, later: Site, target: Source, m: Manifest,
        range: Option<Bytes>)
    requires Healthy(s) && Healthy(later) && later.digests == s.digests && CollisionFree(s.digests)
    requires NulFree(source.bucket) && NulFree(source.key) && IsSource(s, source, from)
    requires NulFree(target.bucket) && NulFree(target.key) && IsSource(later, target, m)
    requires m.parts == from.parts && m.size == from.size
    ensures GetReply(later, target.bucket, target.key, target.versionId, range)
         == GetReply(s, source.bucket, source.key, source.versionId, range)
  {
    NamedIsRow(s, source.bucket, source.key, source.versionId, from);
    NamedIsRow(later, target.bucket, target.key, target.versionId, m);
    ReadableIff(s, source.bucket, source.key, source.versionId, from);
    ReadableIff(later, target.bucket, target.key, target.versionId, m);
    RowsAreReadable(s, from);
    RowsAreReadable(later, m);
    ContentIsStable(s, later, from.parts);
  }

  /** A GET of the copy answers what a GET of its source answered before, whatever range it asks for. */
  lemma CopyThenGet(s: Site, bucket: Bytes, key: Bytes, source: Source, attributes: Option<Bytes>, env: Env,
        from: Manifest, range: Option<Bytes>)
    requires Healthy(s) && CollisionFree(s.digests) && bucket in s.buckets && IsSource(s, source, from)
    requires Admissible(s, Request(CallCopy(bucket, key, source, attributes), env))
    ensures var s', id := CopyObject(s, bucket, key, source, attributes, env).site,
                          NewKey(s, bucket, key, env).versionId;
      GetReply(s', bucket, key, Some(id), range)
      == GetReply(s, source.bucket, source.key, source.versionId, range)
  {
    var s', k := CopyObject(s, bucket, key, source, attributes, env).site, NewKey(s, bucket, key, env);
    CopyStoresRow(s, bucket, key, source, attributes, env, from);
    CopyKeepsHealth(s, bucket, key, source, attributes, env);
    HandlersKeepDigests(s, CallCopy(bucket, key, source, attributes), env);
    SamePartsGet(s, source, from, s', Source(bucket, key, Some(k.versionId)), s'.tables.objects[Encode(k)], range);
  }

  /** And without a version id exactly if the copy is the newest version of its key. */
  lemma CopyIsCurrent(s: Site, bucket: Bytes, key: Bytes, source: Source, attributes: Option<Bytes>, env: Env,
        from: Manifest)
    requires Healthy(s) && NulFree(source.bucket) && NulFree(source.key) && NulFree(key)
    requires bucket in s.buckets && IsSource(s, source, from)
    ensures var o', k := CopyObject(s, bucket, key, source, attributes, env).site.tables.objects,
                         Encode(NewKey(s, bucket, key, env));
      && k in o' && (Named(o', bucket, key, None, o'[k]) <==> NewestOf(s.tables.objects, o'[k]))
  {
    CopyStoresRow(s, bucket, key, source, attributes, env, from);
    var o' := CopyObject(s, bucket, key, source, attributes, env).site.tables.objects;
    WrittenMeans(s.tables.objects, o'[Encode(NewKey(s, bucket, key, env))]);
  }

  // ---- locks ----

  /** The version is retained beyond the time. */
  ghost predicate RetainedLonger(m: Manifest, until: Time) {
    && m.objectLock.Some? && m.objectLock.value.retention.Some?
    && m.objectLock.value.retention.value.retainUntil > until
  }

  predicate Held(m: Manifest) {
    m.objectLock.Some? && m.objectLock.value.legalHold
  }

  /** A retention request is refused if there is no such object, or if it would shorten its retention. */
  lemma RetentionRepliesIff(s: Site, bucket: Bytes, key: Bytes, versionId: Option<Bytes>, until: Time, env: Env)
    requires WellFormed(s.tables.objects) && NulFree(bucket) && NulFree(key)
    ensures var st, o := PutRetention(s, bucket, key, versionId, until, env), s.tables.objects;
      && (st.reply == Failure(NoSuchKey) <==> forall m :: !NamedObject(o, bucket, key, versionId, m))
      && (st.reply == Failure(AccessForbidden) <==>
           exists m :: NamedObject(o, bucket, key, versionId, m) && RetainedLonger(m, until))
      && (st.reply.Success? <==>
           exists m :: NamedObject(o, bucket, key, versionId, m) && !RetainedLonger(m, until))
      && (st.reply.Failure? ==> st.site == s)
  {
    var found := FindObject(s, bucket, key, versionId);
    forall m
      ensures found == Some(m) <==> NamedObject(s.tables.objects, bucket, key, versionId, m)
    {
      ObjectFoundIff(s, bucket, key, versionId, m);
    }
    if found.Some? {
      assert NamedObject(s.tables.objects, bucket, key, versionId, found.value);
    }
  }

  /** Otherwise it sets the retention of that version and changes nothing else. */
  lemma RetentionStoresRow(s: Site, bucket: Bytes, key: Bytes, versionId: Option<Bytes>, until: Time, env: Env,
        m: Manifest)
    requires WellFormed(s.tables.objects) && NulFree(bucket) && NulFree(key)
    requires NamedObject(s.tables.objects, bucket, key, versionId, m) && !RetainedLonger(m, until)
    ensures var o' := PutRetention(s, bucket, key, versionId, until, env).site.tables.objects;
      && Encode(m.key) in o' && o' == s.tables.objects[Encode(m.key) := o'[Encode(m.key)]]
      && var m' := o'[Encode(m.key)];
      && m' == m.(objectLock := m'.objectLock)
      && m'.objectLock.Some? && m'.objectLock.value.retention == Some(Retention(until)) && (Held(m') <==> Held(m))
  {
    ObjectFoundIff(s, bucket, key, versionId, m);
  }

  /** From then on a delete of the version is refused exactly if it is held, or the retention has not ended. */
  lemma RetentionThenDelete(s: Site, bucket: Bytes, key: Bytes, versionId: Option<Bytes>, until: Time, env: Env,
        m: Manifest, later: Env)
    requires Healthy(s) && NulFree(bucket) && NulFree(key)
    requires NamedObject(s.tables.objects, bucket, key, versionId, m) && !RetainedLonger(m, until)
    ensures var s' := PutRetention(s, bucket, key, versionId, until, env).site;
      DeleteObject(s', bucket, key, Some(m.key.versionId), later).reply == Failure(AccessForbidden)
      <==> Held(m) || until > later.now
  {
    var s' := PutRetention(s, bucket, key, versionId, until, env).site;
    RetentionStoresRow(s, bucket, key, versionId, until, env, m);
    NamedIsRow(s, bucket, key, versionId, m);
    DeleteVersionIff(s', bucket, key, m.key.versionId, later);
    assert m.key == ManifestKey(bucket, key, m.key.versionId);
  }

  /** A legal-hold request succeeds exactly if there is such an object. */
  lemma LegalHoldRepliesIff(s: Site, bucket: Bytes, key: Bytes, versionId: Option<Bytes>, on: bool, env: Env)
    requires WellFormed(s.tables.objects) && NulFree(bucket) && NulFree(key)
    ensures var st, o := PutLegalHold(s, bucket, key, versionId, on, env), s.tables.objects;
      && (st.reply == Failure(NoSuchKey) <==> forall m :: !NamedObject(o, bucket, key, versionId, m))
      && (st.reply.Success? <==> exists m :: NamedObject(o, bucket, key, versionId, m))
      && (st.reply.Failure? ==> st.site == s)
  {
    var found := FindObject(s, bucket, key, versionId);
    forall m
      ensures found == Some(m) <==> NamedObject(s.tables.objects, bucket, key, versionId, m)
    {
      ObjectFoundIff(s, bucket, key, versionId, m);
    }
    if found.Some? {
      assert NamedObject(s.tables.objects, bucket, key, versionId, found.value);
    }
  }

  /** It puts or lifts the hold of that version and changes nothing else. */
  lemma LegalHoldStoresRow(s: Site, bucket: Bytes, key: Bytes, versionId: Option<Bytes>, on: bool, env: Env,
        m: Manifest)
    requires WellFormed(s.tables.objects) && NulFree(bucket) && NulFree(key)
    requires NamedObject(s.tables.objects, bucket, key, versionId, m)
    ensures var o' := PutLegalHold(s, bucket, key, versionId, on, env).site.tables.objects;
      && Encode(m.key) in o' && o' == s.tables.objects[Encode(m.key) := o'[Encode(m.key)]]
      && var m' := o'[Encode(m.key)];
      && m' == m.(objectLock := m'.objectLock) && (Held(m') <==> on)
      && m'.objectLock.Some?
      && m'.objectLock.value.retention == if m.objectLock.Some? then m.objectLock.value.retention else None
  {
    ObjectFoundIff(s, bucket, key, versionId, m);
  }

  /** With the hold on, a delete of the version is refused at any time; with the hold off, exactly as long as
      the version is retained. */
  lemma LegalHoldThenDelete(s: Site, bucket: Bytes, key: Bytes, versionId: Option<Bytes>, on: bool, env: Env,
        m: Manifest, later: Env)
    requires Healthy(s) && NulFree(bucket) && NulFree(key)
    requires NamedObject(s.tables.objects, bucket, key, versionId, m)
    ensures var s' := PutLegalHold(s, bucket, key, versionId, on, env).site;
      DeleteObject(s', bucket, key, Some(m.key.versionId), later).reply == Failure(AccessForbidden)
      <==> on || RetainedLonger(m, later.now)
  {
    var s' := PutLegalHold(s, bucket, key, versionId, on, env).site;
    LegalHoldStoresRow(s, bucket, key, versionId, on, env, m);
    NamedIsRow(s, bucket, key, versionId, m);
    DeleteVersionIff(s', bucket, key, m.key.versionId, later);
    assert m.key == ManifestKey(bucket, key, m.key.versionId);
  }

  // ---- buckets ----

  /** Creating a bucket: refused if it exists; otherwise it is empty of rules, and versioned and lockable if the
      request asks for locks, neither if not. */
  lemma CreateBucketIs(s: Site, name: Bytes, lockEnabled: bool)
    ensures var st := CreateBucket(s, name, lockEnabled);
      && (st.reply.Success? <==> name !in s.buckets)
      && (st.reply.Failure? ==> st == Step(s, Failure(Internal(BucketExists))))
      && (st.reply.Success? ==>
            && st.site == s.(buckets := st.site.buckets) && name in st.site.buckets
            && st.site.buckets == s.buckets[name := st.site.buckets[name]]
            && var cfg := st.site.buckets[name];
            && cfg.lifecycleRules == []
            && (lockEnabled ==> cfg.versioning == Enabled && cfg.objectLock == Some(ObjectLockConfig(true, None)))
            && (!lockEnabled ==> cfg.versioning == Off && cfg.objectLock == None))
  {
  }

  /** Deleting a bucket: it goes exactly if it exists and no row of any state lies in it. */
  lemma DeleteBucketIs(s: Site, name: Bytes)
    requires WellFormed(s.tables.objects) && NulFree(name)
    ensures var st := DeleteBucket(s, name);
      && (st.reply == Failure(NoSuchBucket) <==> name !in s.buckets)
      && (st.reply == Failure(Internal(BucketNotEmpty)) <==>
           name in s.buckets && exists m :: Has(s.tables.objects, m) && m.key.bucket == name)
      && (st.reply.Success? <==>
           name in s.buckets && forall m :: Has(s.tables.objects, m) ==> m.key.bucket != name)
      && st.site == if st.reply.Success? then s.(buckets := s.buckets - {name}) else s
  {
    DeleteBucketSucceedsIff(s, name);
  }
}
