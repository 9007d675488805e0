/** What each request on multipart uploads does, in terms of the tables before and after and of the reply alone
    (src/s3/multipart.rs, src/s3/copy.rs:173-227). */
module UploadEffects {
  import opened Results
  import opened ByteStrings
  import opened Manifests
  import opened KeyOrder
  import opened Refcounts
  import opened Transactions
  import opened Scans
  import opened Reads
  import opened RangeText
  import opened Handlers
  import opened Uploads
  import opened Invariants
  import opened Content
  import opened Effects

  /** Starting an upload succeeds exactly if its bucket exists. It writes one row, under the new id: an upload
      in progress without parts. */
  lemma CreateUploadIs(s: Site, bucket: Bytes, key: Bytes, attributes: Bytes, env: Env)
    ensures var st := CreateUpload(s, bucket, key, attributes, env);
      && (st.reply.Success? <==> bucket in s.buckets)
      && (st.reply.Failure? ==> st == Step(s, Failure(NoSuchBucket)))
      && (st.reply.Success? ==>
           var k := ManifestKey(bucket, key, env.newId);
           st.site.tables.objects == s.tables.objects[Encode(k) :=
             Manifest(k, InProgress, Object, [], 0, attributes, None, env.now, env.now)])
  {
  }

  /** A part upload is refused for its number, for a missing upload, or for a part that is being collected. */
  lemma UploadPartRepliesIff(s: Site, key: ManifestKey, number: u32, body: Bytes, env: Env)
    ensures var st, h := UploadPart(s, key, number, body, env), s.digests.contentHash(body);
      && (st.reply == Failure(InvalidArgument) <==> !(1 <= number <= 10_000))
      && (st.reply == Failure(NoSuchUpload) <==> 1 <= number <= 10_000 && Encode(key) !in s.tables.objects)
      && (st.reply == Failure(Internal(PartIsGcPending(h))) <==>
           1 <= number <= 10_000 && Encode(key) in s.tables.objects && Pending(s.tables.parts, h))
      && (st.reply.Success? <==>
           1 <= number <= 10_000 && Encode(key) in s.tables.objects && !Pending(s.tables.parts, h))
      && (st.reply.Failure? ==> st.site.tables == s.tables)
  {
  }

  /** Otherwise the part takes the place of the one with its number, in the named row and no other. */
  lemma UploadPartStoresRow(s: Site, key: ManifestKey, number: u32, body: Bytes, env: Env)
    requires Healthy(s) && ProperKey(key) && UploadPart(s, key, number, body, env).reply.Success?
    ensures Encode(key) in s.tables.objects
    ensures var o, o', k := s.tables.objects, UploadPart(s, key, number, body, env).site.tables.objects, Encode(key);
      && k in o' && o' == o[k := o'[k]]
      && var m, m' := o[k], o'[k];
      && m' == m.(parts := m'.parts, size := m'.size, lastModified := env.now)
      && PartsAscend(m'.parts) && m'.size == TotalSize(m'.parts)
      && forall q :: q in m'.parts <==>
           || q == PartRef(number, s.digests.contentHash(body), s.digests.md5(body), |body|)
           || (q in m.parts && q.partNumber != number)
  {
    UploadPartRepliesIff(s, key, number, body, env);
    var p := PartOf(s, number, body);
    var m := s.tables.objects[Encode(key)];
    assert Has(s.tables.objects, m) && RowOk(s, m);
    EncodeIsInjective(m.key, key);
    AppendedRow(s.tables, key, p, env.now);
    AppendReplacesPart(s.tables, key, p, env.now, m);
  }

  // ---- part copies ----

  /** A part copy without a range takes the whole content of its source; an empty source is refused, and one
      whose first part is empty cannot be read. */
  lemma WholeSourceIsCopied(s: Site, source: Source, from: Manifest)
    requires Healthy(s) && NulFree(source.bucket) && NulFree(source.key) && IsSource(s, source, from)
    ensures AllPresent(s.files, from.parts)
    ensures CopiedBytes(s, source, None)
         == if from.size == 0 then Failure(InvalidArgument)
            else if from.parts[0].size == 0 then Failure(SourceUnreadable)
            else Success(Assemble(s.files, from.parts))
  {
    ObjectFoundIff(s, source.bucket, source.key, source.versionId, from);
    NamedIsRow(s, source.bucket, source.key, source.versionId, from);
    RowsAreReadable(s, from);
    if from.size > 0 {
      var content := Assemble(s.files, from.parts);
      ClipIsSlice(content, 0, |content|);
      assert content[0..|content|] == content;
    }
  }

  /** With a range "bytes=a-b" within the source it takes the bytes from `a` to `b`. */
  lemma SourceRangeIsCopied(s: Site, source: Source, from: Manifest, value: Bytes, a: nat, b: nat)
    requires Healthy(s) && NulFree(source.bucket) && NulFree(source.key) && IsSource(s, source, from)
    requires Spells(value, FromTo(a, b)) && a <= b < from.size && from.parts[0].size > 0
    ensures AllPresent(s.files, from.parts) && |Assemble(s.files, from.parts)| == from.size
    ensures CopiedBytes(s, source, Some(value)) == Success(Assemble(s.files, from.parts)[a..b + 1])
  {
    ObjectFoundIff(s, source.bucket, source.key, source.versionId, from);
    NamedIsRow(s, source.bucket, source.key, source.versionId, from);
    RowsAreReadable(s, from);
    CopyRangeMeans(value, from.size, a, b);
    ClipIsSlice(Assemble(s.files, from.parts), a, b + 1);
  }

  /** Any other range is refused. */
  lemma SourceRangeIsRefused(s: Site, source: Source, from: Manifest, value: Bytes)
    requires Healthy(s) && NulFree(source.bucket) && NulFree(source.key) && IsSource(s, source, from)
    requires forall a: nat, b: nat :: Spells(value, FromTo(a, b)) ==> !(a <= b < from.size)
    ensures CopiedBytes(s, source, Some(value)) == Failure(InvalidArgument)
  {
    ObjectFoundIff(s, source.bucket, source.key, source.versionId, from);
    var bounds := ParseCopyRange(value, from.size);
    if bounds.Success? {
      CopyRangeMeans(value, from.size, bounds.value.0, bounds.value.1);
    }
  }

  // ---- completing and aborting ----

  /** The request names at least one part, in strictly ascending order from 1 on. */
  predicate Ordered(requested: seq<RequestedPart>) {
    && requested != [] && requested[0].partNumber >= 1
    && forall i, j :: 0 <= i < j < |requested| ==> requested[i].partNumber < requested[j].partNumber
  }

  /** There is an upload in progress under the key. */
  predicate Uploading(o: Objects, key: ManifestKey) {
    Encode(key) in o && o[Encode(key)].state == InProgress
  }

  /** One of the parts has this number and this digest. */
  predicate Covered(parts: seq<PartRef>, r: RequestedPart) {
    exists j :: 0 <= j < |parts| && parts[j].partNumber == r.partNumber && parts[j].md5 == r.etag
  }

  predicate Covers(parts: seq<PartRef>, requested: seq<RequestedPart>) {
    forall i :: 0 <= i < |requested| ==> Covered(parts, requested[i])
  }

  lemma CoveredMeans(parts: seq<PartRef>, r: RequestedPart)
    ensures Covered(parts, r) <==> Provided(parts, r)
  {
    if Covered(parts, r) {
      var j :| 0 <= j < |parts| && parts[j].partNumber == r.partNumber && parts[j].md5 == r.etag;
      assert parts[j] in parts && Stands(parts[j], r);
    }
  }

  lemma CoversMeans(upload: Manifest, requested: seq<RequestedPart>)
    ensures Covers(upload.parts, requested) <==> AllUploaded(upload, requested)
  {
    forall i | 0 <= i < |requested|
      ensures Covered(upload.parts, requested[i]) <==> Provided(upload.parts, requested[i])
    {
      CoveredMeans(upload.parts, requested[i]);
    }
  }

  /** A completion succeeds exactly if it is in order, its upload is in progress, and every part was uploaded. */
  lemma CompletionRepliesIff(s: Site, key: ManifestKey, requested: seq<RequestedPart>, env: Env)
    requires Healthy(s)
    ensures var st, o := CompleteUpload(s, key, requested, env), s.tables.objects;
      && (st.reply == Failure(NoSuchUpload) <==> Ordered(requested) && !Uploading(o, key))
      && (st.reply == Failure(InvalidArgument) <==>
           !Ordered(requested) || (Uploading(o, key) && !Covers(o[Encode(key)].parts, requested)))
      && (st.reply.Success? <==>
           Ordered(requested) && Uploading(o, key) && Covers(o[Encode(key)].parts, requested))
      && (st.reply.Failure? ==> st.site == s)
  {
    assert Ordered(requested) <==> requested != [] && InOrder(requested);
    var upload := UploadAt(s, key);
    if upload.Some? {
      assert Has(s.tables.objects, upload.value) && RowOk(s, upload.value);
      CoversMeans(upload.value, requested);
      SelectExactly(upload.value.parts, requested);
    }
    CompletionSucceedsIff(s, key, requested, env);
  }

  /** The upload's row gives way to a committed object under the id "null", of exactly the requested parts, with
      the attributes, the lock and the creation time of the upload. */
  lemma CompletionStoresRow(s: Site, key: ManifestKey, requested: seq<RequestedPart>, env: Env)
    requires Healthy(s) && ProperKey(key) && CompleteUpload(s, key, requested, env).reply.Success?
    ensures Encode(key) in s.tables.objects
    ensures var o, o' := s.tables.objects, CompleteUpload(s, key, requested, env).site.tables.objects;
      var k := ManifestKey(key.bucket, key.key, [110, 117, 108, 108]);
      && Encode(k) in o' && o' == (o - {Encode(key)})[Encode(k) := o'[Encode(k)]]
      && var upload, m := o[Encode(key)], o'[Encode(k)];
      && m.key == k && m.state == Committed && m.kind == Object
      && m.attributes == upload.attributes && m.objectLock == upload.objectLock
      && m.createdAt == upload.createdAt && m.lastModified == env.now && m.size == TotalSize(m.parts)
      && |m.parts| == |requested|
      && forall i :: 0 <= i < |requested| ==>
           && m.parts[i] in upload.parts
           && m.parts[i].partNumber == requested[i].partNumber && m.parts[i].md5 == requested[i].etag
  {
    var upload := UploadAt(s, key).value;
    assert Has(s.tables.objects, upload) && RowOk(s, upload);
    EncodeIsInjective(upload.key, key);
    CompletionIsExact(s, key, requested, env);
  }

  /** And a GET of that object returns the bodies of the requested parts, one after the other. */
  lemma CompletionThenGet(s: Site, key: ManifestKey, requested: seq<RequestedPart>, bodies: seq<Bytes>, env: Env)
    requires Healthy(s) && CollisionFree(s.digests)
    requires Admissible(s, Request(CallComplete(key, requested), env))
    requires CompleteUpload(s, key, requested, env).reply.Success? && BodiesOf(s, key, requested, bodies)
    ensures GetReply(CompleteUpload(s, key, requested, env).site, key.bucket, key.key, Some([110, 117, 108, 108]), None)
         == Success(Joined(bodies))
  {
    var s' := CompleteUpload(s, key, requested, env).site;
    var k := ManifestKey(key.bucket, key.key, [110, 117, 108, 108]);
    CompletionStoresRow(s, key, requested, env);
    CompletionReadsBack(s, key, requested, bodies, env);
    CompleteUploadKeepsHealth(s, key, requested, env);
    GetReads(s', key.bucket, key.key, Some(k.versionId), s'.tables.objects[Encode(k)]);
  }

  /** An abort succeeds exactly for an upload in progress, and removes its row and no other. */
  lemma AbortIs(s: Site, key: ManifestKey, env: Env)
    ensures var st := AbortUpload(s, key, env);
      && (st.reply.Success? <==> Uploading(s.tables.objects, key))
      && (st.reply.Failure? ==> st == Step(s, Failure(NoSuchUpload)))
      && (st.reply.Success? ==> st.site.tables.objects == s.tables.objects - {Encode(key)})
  {
  }
}
