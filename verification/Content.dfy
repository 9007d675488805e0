/** What clients read back: the bytes of an object in every reachable state. */
module Content {
  import opened Results
  import opened ByteStrings
  import opened Manifests
  import opened KeyOrder
  import opened Scans
  import opened Reads
  import opened Collection
  import opened Handlers
  import opened Uploads
  import opened Invariants

  /** Every manifest can be read in full: all parts are there, with the sizes they should have. */
  lemma RowsAreReadable(s: Site, m: Manifest)
    requires Healthy(s) && Has(s.tables.objects, m)
    ensures AllPresent(s.files, m.parts) && SizesRecorded(s.files, m.parts)
    ensures |Assemble(s.files, m.parts)| == m.size
  {
    assert RowOk(s, m);
    forall i | 0 <= i < |m.parts|
      ensures m.parts[i].hash in s.files && |s.files[m.parts[i].hash]| == m.parts[i].size
    {
      assert Backed(s.digests, s.files, m.parts[i]);
    }
  }

  /** The content behind a list of parts is the same in all states that have the files. */
  lemma {:induction false} ContentIsStable(s: Site, later: Site, refs: seq<PartRef>)
    requires Addressed(s) && Addressed(later) && s.digests == later.digests && CollisionFree(s.digests)
    requires AllPresent(s.files, refs) && AllPresent(later.files, refs)
    ensures Assemble(s.files, refs) == Assemble(later.files, refs)
  {
    if refs != [] {
      ContentIsStable(s, later, refs[1..]);
      assert refs[0].hash in s.files && refs[0].hash in later.files;
      assert s.digests.contentHash(s.files[refs[0].hash]) == s.digests.contentHash(later.files[refs[0].hash]);
    }
  }

  // ---- reading what was written ----

  /** The request committed its manifest. */
  lemma PutStores(s: Site, bucket: Bytes, key: Bytes, body: Bytes, attributes: Bytes, lock: Option<ObjectLock>,
        env: Env)
    requires PutObject(s, bucket, key, body, attributes, lock, env).reply.Success?
    ensures bucket in s.buckets
    ensures var m := NewObject(s, bucket, key, body, attributes, lock, env);
      PutObject(s, bucket, key, body, attributes, lock, env).site.tables.objects == s.tables.objects[Encode(m.key) := m]
  {
  }

  /** A stored object reads back as the body that was put, under its own version id. */
  lemma PutReadsBack(s: Site, bucket: Bytes, key: Bytes, body: Bytes, attributes: Bytes,
        lock: Option<ObjectLock>, env: Env)
    requires Healthy(s) && CollisionFree(s.digests)
    requires Admissible(s, Request(CallPut(bucket, key, body, attributes, lock), env))
    requires PutObject(s, bucket, key, body, attributes, lock, env).reply.Success?
    ensures var s' := PutObject(s, bucket, key, body, attributes, lock, env).site;
      var id := NextVersionId(s.buckets[bucket].versioning, env.newId);
      var found := FindObject(s', bucket, key, Some(id));
      && found == Some(NewObject(s, bucket, key, body, attributes, lock, env))
      && AllPresent(s'.files, found.value.parts) && Assemble(s'.files, found.value.parts) == body
  {
    var m := NewObject(s, bucket, key, body, attributes, lock, env);
    var s' := PutObject(s, bucket, key, body, attributes, lock, env).site;
    PutStores(s, bucket, key, body, attributes, lock, env);
    PutObjectKeepsHealth(s, bucket, key, body, attributes, lock, env);
    assert Has(s'.tables.objects, m);
    RowsAreReadable(s', m);
    OnePart(s', m.parts[0], body);
  }

  lemma OnePart(s: Site, p: PartRef, body: Bytes)
    requires Addressed(s) && CollisionFree(s.digests) && p.hash in s.files && p.hash == s.digests.contentHash(body)
    ensures AllPresent(s.files, [p]) && Assemble(s.files, [p]) == body
  {
    assert s.digests.contentHash(s.files[p.hash]) == s.digests.contentHash(body);
    assert [p][1..] == [];
    assert body + [] == body;
  }

  /** Every other committed version of the key is older than the given one, or equally old with a
      greater version id. */
  ghost predicate NewestOf(o: Objects, m: Manifest) {
    forall n :: Has(o, n) && n.key.bucket == m.key.bucket && n.key.key == m.key.key && n.state == Committed
                && n.key.versionId != m.key.versionId ==>
      n.lastModified < m.lastModified || (n.lastModified == m.lastModified && Less(m.key.versionId, n.key.versionId))
  }

  lemma WrittenIsCurrentIff(o: Objects, m: Manifest)
    requires WellFormed(o) && ProperKey(m.key) && m.state == Committed
    ensures Current(o[Encode(m.key) := m], m.key.bucket, m.key.key) == Some(m) <==> NewestOf(o, m)
  {
    var o' := o[Encode(m.key) := m];
    CurrentIff(o', m.key.bucket, m.key.key, m);
    forall n: Manifest | n.key.bucket == m.key.bucket && n.key.key == m.key.key && n.key.versionId != m.key.versionId
      ensures Has(o', n) <==> Has(o, n)
      ensures Leq(m.key.versionId, n.key.versionId) <==> Less(m.key.versionId, n.key.versionId)
    {
      EncodeTellsVersionsApart(m.key, n.key);
      LessTotal(m.key.versionId, n.key.versionId);
    }
    LessIrreflexive(m.key.versionId);
  }

  /** The new object is also what a read without version id finds, exactly if it is the newest. */
  lemma PutIsCurrentIff(s: Site, bucket: Bytes, key: Bytes, body: Bytes, attributes: Bytes,
        lock: Option<ObjectLock>, env: Env)
    requires Healthy(s) && NulFree(bucket) && NulFree(key)
    requires PutObject(s, bucket, key, body, attributes, lock, env).reply.Success?
    ensures var m := NewObject(s, bucket, key, body, attributes, lock, env);
      FindObject(PutObject(s, bucket, key, body, attributes, lock, env).site, bucket, key, None) == Some(m)
      <==> NewestOf(s.tables.objects, m)
  {
    PutStores(s, bucket, key, body, attributes, lock, env);
    WrittenIsCurrentIff(s.tables.objects, NewObject(s, bucket, key, body, attributes, lock, env));
    FindsCurrent(PutObject(s, bucket, key, body, attributes, lock, env).site, bucket, key,
                 NewObject(s, bucket, key, body, attributes, lock, env));
  }

  lemma FindsCurrent(s: Site, bucket: Bytes, key: Bytes, m: Manifest)
    requires m.state == Committed && m.kind == Object
    ensures FindObject(s, bucket, key, None) == Some(m) <==> Current(s.tables.objects, bucket, key) == Some(m)
  {
  }

  /** Which bodies a sequence of parts was uploaded from. */
  ghost predicate UploadedFrom(s: Site, p: PartRef, body: Bytes) {
    p.hash == s.digests.contentHash(body)
  }

  function Joined(bodies: seq<Bytes>): Bytes {
    if bodies == [] then [] else bodies[0] + Joined(bodies[1..])
  }

  lemma {:induction false} PartsJoin(s: Site, refs: seq<PartRef>, bodies: seq<Bytes>)
    requires Addressed(s) && CollisionFree(s.digests) && AllPresent(s.files, refs)
    requires |refs| == |bodies| && forall i :: 0 <= i < |refs| ==> UploadedFrom(s, refs[i], bodies[i])
    ensures Assemble(s.files, refs) == Joined(bodies)
  {
    if refs != [] {
      assert UploadedFrom(s, refs[0], bodies[0]) && refs[0].hash in s.files;
      assert s.digests.contentHash(s.files[refs[0].hash]) == s.digests.contentHash(bodies[0]);
      forall i | 0 <= i < |refs[1..]|
        ensures UploadedFrom(s, refs[1..][i], bodies[1..][i])
      {
        assert UploadedFrom(s, refs[i + 1], bodies[i + 1]);
      }
      PartsJoin(s, refs[1..], bodies[1..]);
    }
  }

  lemma CompletedParts(s: Site, key: ManifestKey, requested: seq<RequestedPart>, env: Env)
    requires Healthy(s) && ProperKey(key) && CompleteUpload(s, key, requested, env).reply.Success?
    ensures var o', c := CompleteUpload(s, key, requested, env).site.tables.objects,
        Encode(ManifestKey(key.bucket, key.key, NULL_VERSION));
      && c in o' && |o'[c].parts| == |requested|
      && (forall i :: 0 <= i < |requested| ==>
           o'[c].parts[i] in UploadAt(s, key).value.parts && Stands(o'[c].parts[i], requested[i]))
  {
    var upload := UploadAt(s, key).value;
    assert Has(s.tables.objects, upload) && RowOk(s, upload);
    EncodeIsInjective(upload.key, key);
    CompletionIsExact(s, key, requested, env);
  }

  /** Every part of the upload that a requested part may stand for was uploaded from the given body. */
  ghost predicate BodiesOf(s: Site, key: ManifestKey, requested: seq<RequestedPart>, bodies: seq<Bytes>) {
    && UploadAt(s, key).Some? && |bodies| == |requested|
    && (forall p, i :: p in UploadAt(s, key).value.parts && 0 <= i < |requested| && Stands(p, requested[i]) ==>
         UploadedFrom(s, p, bodies[i]))
  }

  /** A completed object reads as the bodies of the requested parts, put together in the order of their
      numbers. */
  lemma CompletionReadsBack(s: Site, key: ManifestKey, requested: seq<RequestedPart>, bodies: seq<Bytes>, env: Env)
    requires Healthy(s) && CollisionFree(s.digests)
    requires Admissible(s, Request(CallComplete(key, requested), env))
    requires CompleteUpload(s, key, requested, env).reply.Success? && BodiesOf(s, key, requested, bodies)
    ensures var s' := CompleteUpload(s, key, requested, env).site;
      var c := Encode(ManifestKey(key.bucket, key.key, NULL_VERSION));
      && c in s'.tables.objects && AllPresent(s'.files, s'.tables.objects[c].parts)
      && Assemble(s'.files, s'.tables.objects[c].parts) == Joined(bodies)
  {
    CompletedParts(s, key, requested, env);
    CompleteUploadKeepsHealth(s, key, requested, env);
    HandlersKeepDigests(s, CallComplete(key, requested), env);
    var s' := CompleteUpload(s, key, requested, env).site;
    var c := Encode(ManifestKey(key.bucket, key.key, NULL_VERSION));
    JoinedAt(s', c, UploadAt(s, key).value.parts, requested, bodies);
  }

  lemma JoinedAt(s: Site, c: Bytes, uploaded: seq<PartRef>, requested: seq<RequestedPart>, bodies: seq<Bytes>)
    requires Healthy(s) && CollisionFree(s.digests) && c in s.tables.objects
    requires |s.tables.objects[c].parts| == |requested| == |bodies|
    requires forall i :: 0 <= i < |requested| ==>
               s.tables.objects[c].parts[i] in uploaded && Stands(s.tables.objects[c].parts[i], requested[i])
    requires forall p, i :: p in uploaded && 0 <= i < |requested| && Stands(p, requested[i]) ==>
              UploadedFrom(s, p, bodies[i])
    ensures AllPresent(s.files, s.tables.objects[c].parts) && Assemble(s.files, s.tables.objects[c].parts)
         == Joined(bodies)
  {
    RowAtItsKey(s, c);
    RowsAreReadable(s, s.tables.objects[c]);
    PartsJoin(s, s.tables.objects[c].parts, bodies);
  }

  lemma RowAtItsKey(s: Site, k: Bytes)
    requires WellFormed(s.tables.objects) && k in s.tables.objects
    ensures Has(s.tables.objects, s.tables.objects[k])
  {
  }

  // ---- GET ----

  /** What a GET answers: the content, or the part of it that the `Range` header asks for. */
  function GetReply(s: Site, bucket: Bytes, key: Bytes, versionId: Option<Bytes>, range: Option<Bytes>)
    : Result<Bytes, HandlerError>
  {
    match FindReadable(s, bucket, key, versionId)
    case Failure(e) => Failure(e)
    case Success(m) =>
      match ParseRangeHeader(range, m.size)
      case Failure(_) => Failure(InvalidArgument)
      case Success(bounds) =>
        if !AllPresent(s.files, m.parts) then Failure(SourceUnreadable)
        else Success(Cut(Assemble(s.files, m.parts), bounds))
  }

  // ---- copying parts ----

  /** The range of the source that a part copy takes: all of it, or what the header says. */
  function CopyBounds(m: Manifest, range: Option<Bytes>): (r: Result<(nat, nat), RangeError>)
    ensures r.Success? ==> r.value.0 <= r.value.1 < m.size
  {
    match range
    case Some(value) => ParseCopyRange(value, m.size)
    case None => if m.size == 0 then Failure(BadRange) else Success((0, m.size - 1))
  }

  /** What the part-wise loop reads. Manifests whose first part is empty it cannot read. */
  function PartwiseBytes(files: Files, m: Manifest, start: nat, end: nat): Result<Bytes, HandlerError>
    requires AllPresent(files, m.parts) && start <= end
  {
    if m.parts == [] || m.parts[0].size == 0 then Failure(SourceUnreadable)
    else Success(Clip(Assemble(files, m.parts), start, end + 1))
  }

  /** The bytes that a part copy takes from its source, or why there are none. */
  function CopiedBytes(s: Site, source: Source, range: Option<Bytes>): Result<Bytes, HandlerError> {
    match FindObject(s, source.bucket, source.key, source.versionId)
    case None => Failure(NoSuchKey)
    case Some(m) =>
      match CopyBounds(m, range)
      case Failure(_) => Failure(InvalidArgument)
      case Success((a, b)) =>
        if !AllPresent(s.files, m.parts) then Failure(SourceUnreadable) else PartwiseBytes(s.files, m, a, b)
  }
}
