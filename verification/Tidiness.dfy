/** What handlers leave behind over whole runs: the rows of unreferenced parts, files without a row, and
    parts whose collection failed (src/s3/object.rs:446-461, src/s3/maintenance.rs:237-258,
    src/storage/db/actor.rs:1035-1047 and 1108-1113). */
module Tidiness {
  import opened Results
  import opened ByteStrings
  import opened Manifests
  import opened KeyOrder
  import opened Refcounts
  import opened Transactions
  import opened GcProtocol
  import opened Scans
  import opened Lifecycle
  import opened SweepSafety
  import opened Collection
  import opened Handlers
  import opened Invariants
  import opened Overwrites
  import opened Upkeep

  // ---- every request but a sweep is one transaction and its collection ----

  /** The state after the request has stored its body. */
  function WrittenFor(s: Site, c: Call): Site {
    match c
    case CallPut(bucket, _, body, _, _) => if bucket in s.buckets then Written(s, body) else s
    case CallUploadPart(_, number, body) => if 0 < number <= 10_000 then Written(s, body) else s
    case _ => s
  }

  function DeleteTransaction(s: Site, bucket: Bytes, key: Bytes, versionId: Option<Bytes>, env: Env): Outcome {
    var nothing: Outcome := Success(Change(s.tables, []));
    if bucket !in s.buckets then nothing
    else
      var versioning := s.buckets[bucket].versioning;
      if versionId.Some? || versioning == Off then
        var target := ManifestKey(bucket, key, if versionId.Some? then versionId.value else NULL_VERSION);
        var k := Encode(target);
        if k in s.tables.objects && s.tables.objects[k].Locked(env.now) then nothing
        else DeleteManifest(s.tables, target)
      else PutManifest(s.tables, DeleteMarker(bucket, key, NextVersionId(versioning, env.newId), env.now), env.now)
  }

  function CompleteTransaction(s: Site, key: ManifestKey, requested: seq<RequestedPart>, env: Env): Outcome {
    var nothing: Outcome := Success(Change(s.tables, []));
    var upload := UploadAt(s, key);
    if requested == [] || !InOrder(requested) || upload.None? then nothing
    else
      match Select(upload.value.parts, requested)
      case None => nothing
      case Some(selected) => CompleteMultipart(s.tables, key, Completed(upload.value, key, selected, env.now), env.now)
  }

  /** The transaction that the request asks for; a request that is refused before asks for none. */
  function TransactionOf(s: Site, c: Call, env: Env): Outcome {
    var nothing: Outcome := Success(Change(s.tables, []));
    match c
    case CallPut(bucket, key, body, attributes, lock) =>
      if bucket !in s.buckets then nothing
      else PutManifest(s.tables, NewObject(s, bucket, key, body, attributes, lock, env), env.now)
    case CallDelete(bucket, key, versionId) => DeleteTransaction(s, bucket, key, versionId, env)
    case CallCopy(bucket, key, source, newAttributes) =>
      var from := FindObject(s, source.bucket, source.key, source.versionId);
      if bucket in s.buckets && from.Some?
      then PutManifest(s.tables, CopyOf(s, bucket, key, from.value, newAttributes, env), env.now) else nothing
    case CallCreateUpload(bucket, key, attributes) =>
      if bucket in s.buckets then PutManifest(s.tables, NewUpload(bucket, key, attributes, env), env.now) else nothing
    case CallUploadPart(target, number, body) =>
      if 0 < number <= 10_000 then AppendPart(s.tables, target, PartOf(s, number, body), env.now) else nothing
    case CallComplete(target, requested) => CompleteTransaction(s, target, requested, env)
    case CallAbort(target) => if UploadAt(s, target).Some? then DeleteManifest(s.tables, target) else nothing
    case CallRetention(bucket, key, versionId, until) =>
      (match FindObject(s, bucket, key, versionId)
       case None => nothing
       case Some(m) =>
         if Shortens(m, until) then nothing else UpdateLock(s.tables, m.key, Some(RetainedLock(m, until))))
    case CallLegalHold(bucket, key, versionId, on) =>
      (match FindObject(s, bucket, key, versionId)
       case None => nothing
       case Some(m) => UpdateLock(s.tables, m.key, Some(HeldLock(m, on))))
    case _ => nothing
  }

  /** The tables and files that a transaction and its collection leave. */
  predicate SameStorage(s: Site, t: Site) {
    s.tables == t.tables && s.files == t.files
  }

  lemma HandleIsTransaction(s: Site, c: Call, env: Env)
    requires !c.CallSweep?
    ensures SameStorage(Handle(s, c, env).site, Commit(WrittenFor(s, c), TransactionOf(s, c, env), env.stuck).site)
  {
  }

  // ---- what each transaction does to the rows of parts ----

  /** References are conserved, the freed parts are exactly those that lost their last reference, new rows
      are referenced, no row goes, and nothing is handed to the collector or taken from it. */
  ghost predicate Conserving(t: Tables, o: Outcome) {
    o.Success? ==>
      var after := o.value.tables;
      && Consistent(after) && FreedExactly(t.objects, after.objects, o.value.freed)
      && (forall h :: h in t.parts ==> h in after.parts)
      && (forall h :: h in after.parts ==> h in t.parts || References(after.objects, h) > 0)
      && (forall h :: Pending(after.parts, h) <==> Pending(t.parts, h))
  }

  lemma NothingConserves(t: Tables)
    requires Consistent(t)
    ensures Conserving(t, Success(Change(t, [])))
  {
  }

  lemma PutRows(t: Tables, m: Manifest, now: Time, h: Hash)
    requires Consistent(t) && PutManifest(t, m, now).Success?
    ensures h in PutManifest(t, m, now).value.tables.parts <==> h in t.parts || Count(m.parts, h) > 0
    ensures References(PutManifest(t, m, now).value.tables.objects, h) >= Count(m.parts, h)
  {
    assert Sound(t, h);
    PutAt(t, m, now, h);
    IncrementAllAt(t.parts, m.parts, now, h);
    if Encode(m.key) in t.objects {
      DecrementAllAt(IncrementAll(t.parts, m.parts, now).value, t.objects[Encode(m.key)].parts, h);
    }
  }

  lemma PutConserving(t: Tables, m: Manifest, now: Time)
    requires Consistent(t) && forall h :: PutFits(t, m, h)
    ensures Conserving(t, PutManifest(t, m, now))
  {
    var o := PutManifest(t, m, now);
    if o.Success? {
      PutConserves(t, m, now);
      PutFreesExactly(t, m, now);
      forall h
        ensures h in t.parts ==> h in o.value.tables.parts
        ensures h in o.value.tables.parts ==> h in t.parts || References(o.value.tables.objects, h) > 0
        ensures Pending(o.value.tables.parts, h) <==> Pending(t.parts, h)
      {
        PutRows(t, m, now, h);
        PutKeepsMarks(t, m, now, h);
      }
    }
  }

  lemma DeleteConserving(t: Tables, key: ManifestKey)
    requires Consistent(t)
    ensures Conserving(t, DeleteManifest(t, key))
  {
    if DeleteManifest(t, key).Success? {
      DeleteConserves(t, key);
      DropKeepsRows(t.parts, t.objects[Encode(key)].parts);
    }
  }

  lemma AppendRows(t: Tables, key: ManifestKey, p: PartRef, now: Time, h: Hash)
    requires AppendPart(t, key, p, now).Success?
    ensures h in AppendPart(t, key, p, now).value.tables.parts <==> h in t.parts || h == p.hash
    ensures References(AppendPart(t, key, p, now).value.tables.objects, p.hash) > 0
  {
    AppendReferences(t.objects, Encode(key), p, now, p.hash);
  }

  lemma AppendConserving(t: Tables, key: ManifestKey, p: PartRef, now: Time)
    requires Consistent(t) && References(t.objects, p.hash) < MAX_COUNT
    ensures Conserving(t, AppendPart(t, key, p, now))
  {
    var o := AppendPart(t, key, p, now);
    if o.Success? {
      AppendReferences(t.objects, Encode(key), p, now, p.hash);
      AppendConserves(t, key, p, now);
      forall h
        ensures h in t.parts ==> h in o.value.tables.parts
        ensures h in o.value.tables.parts ==> h in t.parts || References(o.value.tables.objects, h) > 0
        ensures Pending(o.value.tables.parts, h) <==> Pending(t.parts, h)
      {
        AppendRows(t, key, p, now, h);
        AppendTakes(t, key, p, now, h);
      }
    }
  }

  lemma CompleteRows(t: Tables, key: ManifestKey, m: Manifest, now: Time, h: Hash)
    requires Consistent(t) && Encode(key) != Encode(m.key) && CompleteMultipart(t, key, m, now).Success?
    ensures var after := CompleteMultipart(t, key, m, now).value.tables;
      && (h in t.parts ==> h in after.parts)
      && (h in after.parts ==> h in t.parts || References(after.objects, h) > 0)
      && (Pending(after.parts, h) <==> Pending(t.parts, h))
      && References(after.objects, h) <= References(t.objects, h) + Count(m.parts, h)
  {
    var dropped := Dropped(t.objects, Encode(key), Encode(m.key));
    assert Sound(t, h);
    CompleteReferences(t.objects, Encode(key), Encode(m.key), m, h);
    ExchangeAt(t.parts, dropped, m.parts, now, h);
    DecrementAllAt(t.parts, dropped, h);
    IncrementAllAt(DecrementAll(t.parts, dropped).0, m.parts, now, h);
  }

  lemma CompleteConserving(t: Tables, key: ManifestKey, m: Manifest, now: Time)
    requires Consistent(t) && Encode(key) != Encode(m.key)
    requires forall h :: References(t.objects, h) + Count(m.parts, h) <= MAX_COUNT
    ensures Conserving(t, CompleteMultipart(t, key, m, now))
  {
    var o := CompleteMultipart(t, key, m, now);
    if o.Success? {
      forall h
        ensures h in t.parts ==> h in o.value.tables.parts
        ensures h in o.value.tables.parts ==> h in t.parts || References(o.value.tables.objects, h) > 0
        ensures Pending(o.value.tables.parts, h) <==> Pending(t.parts, h)
        ensures ReferencesFit(o.value.tables.objects, h)
      {
        CompleteRows(t, key, m, now, h);
      }
      CompleteConserves(t, key, m, now);
    }
  }

  lemma LockConserving(t: Tables, key: ManifestKey, lock: Option<ObjectLock>)
    requires Consistent(t)
    ensures Conserving(t, UpdateLock(t, key, lock))
  {
    var k := Encode(key);
    if k in t.objects {
      var m := t.objects[k].(objectLock := lock);
      MetadataUpdateConserves(t, k, m);
      forall h
        ensures References(t.objects[k := m], h) == References(t.objects, h)
      {
        ReferencesWrite(t.objects, k, m, h);
      }
    }
  }

  // ---- of each request ----

  lemma PutCallConserving(s: Site, c: Call, env: Env)
    requires Healthy(s) && RequestFits(s, c) && c.CallPut?
    ensures Conserving(s.tables, TransactionOf(s, c, env))
  {
    NothingConserves(s.tables);
    if c.bucket in s.buckets {
      var m := NewObject(s, c.bucket, c.key, c.body, c.attributes, c.lock, env);
      forall h
        ensures PutFits(s.tables, m, h)
      {
        assert References(s.tables.objects, h) + Count(Taken(s, c), h) <= MAX_COUNT;
      }
      PutConserving(s.tables, m, env.now);
    }
  }

  lemma CopyCallConserving(s: Site, c: Call, env: Env)
    requires Healthy(s) && RequestFits(s, c) && c.CallCopy?
    ensures Conserving(s.tables, TransactionOf(s, c, env))
  {
    NothingConserves(s.tables);
    var from := FindObject(s, c.source.bucket, c.source.key, c.source.versionId);
    if c.bucket in s.buckets && from.Some? {
      var m := CopyOf(s, c.bucket, c.key, from.value, c.newAttributes, env);
      assert forall h :: PutFits(s.tables, m, h);
      PutConserving(s.tables, m, env.now);
    }
  }

  lemma PutEmptyConserving(s: Site, m: Manifest, env: Env)
    requires Healthy(s) && m.parts == []
    ensures Conserving(s.tables, PutManifest(s.tables, m, env.now))
  {
    NoPartsFit(s, m);
    PutConserving(s.tables, m, env.now);
  }

  lemma DeleteCallConserving(s: Site, bucket: Bytes, key: Bytes, versionId: Option<Bytes>, env: Env)
    requires Healthy(s)
    ensures Conserving(s.tables, DeleteTransaction(s, bucket, key, versionId, env))
  {
    NothingConserves(s.tables);
    DeleteConserving(s.tables, ManifestKey(bucket, key, if versionId.Some? then versionId.value else NULL_VERSION));
    if bucket in s.buckets {
      PutEmptyConserving(s, DeleteMarker(bucket, key, NextVersionId(s.buckets[bucket].versioning, env.newId), env.now),
                         env);
    }
  }

  lemma UploadCallConserving(s: Site, key: ManifestKey, number: u32, body: Bytes, env: Env)
    requires Healthy(s) && RequestFits(s, CallUploadPart(key, number, body))
    ensures Conserving(s.tables, TransactionOf(s, CallUploadPart(key, number, body), env))
  {
    var p := PartOf(s, number, body);
    NothingConserves(s.tables);
    assert [p][1..] == [];
    assert References(s.tables.objects, p.hash) + Count([p], p.hash) <= MAX_COUNT;
    AppendConserving(s.tables, key, p, env.now);
  }

  lemma CompleteCallConserving(s: Site, key: ManifestKey, requested: seq<RequestedPart>, env: Env)
    requires Healthy(s) && ProperKey(key) && RequestFits(s, CallComplete(key, requested))
    ensures Conserving(s.tables, CompleteTransaction(s, key, requested, env))
  {
    NothingConserves(s.tables);
    var upload := UploadAt(s, key);
    if upload.Some? && Select(upload.value.parts, requested).Some? {
      var m := Completed(upload.value, key, Select(upload.value.parts, requested).value, env.now);
      assert Has(s.tables.objects, upload.value) && RowOk(s, upload.value);
      EncodeIsInjective(upload.value.key, key);
      EncodeIsInjective(m.key, key);
      CompleteConserving(s.tables, key, m, env.now);
    }
  }

  lemma LockCallsConserving(s: Site, c: Call, env: Env)
    requires Healthy(s) && (c.CallRetention? || c.CallLegalHold?)
    ensures Conserving(s.tables, TransactionOf(s, c, env))
  {
    NothingConserves(s.tables);
    var found := FindObject(s, c.bucket, c.key, c.versionId);
    if found.Some? {
      forall lock
        ensures Conserving(s.tables, UpdateLock(s.tables, found.value.key, Some(lock)))
      {
        LockConserving(s.tables, found.value.key, Some(lock));
      }
    }
  }

  lemma RequestsConserve(s: Site, c: Call, env: Env)
    requires Healthy(s) && ProperCall(c) && RequestFits(s, c)
    ensures Conserving(s.tables, TransactionOf(s, c, env))
  {
    NothingConserves(s.tables);
    match c
    case CallPut(_, _, _, _, _) => PutCallConserving(s, c, env);
    case CallDelete(bucket, key, versionId) => DeleteCallConserving(s, bucket, key, versionId, env);
    case CallCopy(_, _, _, _) => CopyCallConserving(s, c, env);
    case CallCreateUpload(bucket, key, attributes) =>
      PutEmptyConserving(s, NewUpload(bucket, key, attributes, env), env);
    case CallUploadPart(target, number, body) => UploadCallConserving(s, target, number, body, env);
    case CallComplete(target, requested) => CompleteCallConserving(s, target, requested, env);
    case CallAbort(target) => DeleteConserving(s.tables, target);
    case CallRetention(_, _, _, _) => LockCallsConserving(s, c, env);
    case CallLegalHold(_, _, _, _) => LockCallsConserving(s, c, env);
    case CallCreateBucket(_, _) =>
    case CallDeleteBucket(_) =>
    case CallConfigure(_, _) =>
    case CallSweep =>
  }

  // ---- rows of parts ----

  /** The part table has a row for exactly the parts that some manifest refers to. */
  ghost predicate RowsTidy(s: Site) {
    forall h :: h in s.tables.parts <==> Referenced(s, h)
  }

  /** A part in the collector's hands has no reference, so in a tidy table there is none. */
  lemma TidyHasNothingPending(s: Site)
    requires Healthy(s) && RowsTidy(s)
    ensures forall h :: !Pending(s.tables.parts, h)
  {
    forall h
      ensures !Pending(s.tables.parts, h)
    {
      assert Sound(s.tables, h);
    }
  }

  lemma CommitAt(s: Site, o: Outcome, stuck: set<Hash>, h: Hash)
    requires Consistent(s.tables) && Conserving(s.tables, o) && o.Success?
    ensures var after := Commit(s, o, stuck).site;
      var gone := Loses(s.tables.objects, o.value.tables.objects, h);
      && after.tables.objects == o.value.tables.objects
      && (h in after.tables.parts <==> h in o.value.tables.parts && !gone)
      && (h in after.tables.parts ==> after.tables.parts[h] == o.value.tables.parts[h])
      && (h in after.files <==> h in s.files && !(gone && h !in stuck))
  {
    CollectFreedAt(Collection.Storage(o.value.tables.parts, s.files), o.value.freed, stuck, h);
    assert Sound(s.tables, h) && Sound(o.value.tables, h);
    if Loses(s.tables.objects, o.value.tables.objects, h) {
      assert h in o.value.freed;
      LastReferenceHasRow(s, o, h);
    }
  }

  /** What loses its last reference still has its row. */
  lemma LastReferenceHasRow(s: Site, o: Outcome, h: Hash)
    requires Consistent(s.tables) && Conserving(s.tables, o) && o.Success? && h in o.value.freed
    ensures h !in o.value.tables.parts || Collectable(o.value.tables.parts, h)
  {
    assert Sound(o.value.tables, h);
  }

  lemma CommitKeepsRowsTidy(s: Site, o: Outcome, stuck: set<Hash>)
    requires Healthy(s) && RowsTidy(s) && Conserving(s.tables, o)
    ensures RowsTidy(Commit(s, o, stuck).site)
  {
    if o.Success? {
      var after := Commit(s, o, stuck).site;
      forall h
        ensures h in after.tables.parts <==> Referenced(after, h)
      {
        CommitAt(s, o, stuck, h);
        assert Sound(o.value.tables, h);
      }
    }
  }

  lemma WrittenForKeepsHealth(s: Site, c: Call)
    requires Healthy(s) && CollisionFree(s.digests)
    ensures Healthy(WrittenFor(s, c)) && WrittenFor(s, c).tables == s.tables
  {
    match c
    case CallPut(_, _, body, _, _) => WrittenKeepsHealth(s, body, 1);
    case CallUploadPart(_, _, body) => WrittenKeepsHealth(s, body, 1);
    case _ =>
  }

  /** A sweep that unlinks what it collects leaves the rows tidy. */
  lemma SweepKeepsRowsTidy(s: Site, env: Env)
    requires Healthy(s) && RowsTidy(s) && env.stuck == {}
    ensures RowsTidy(Maintain(s, env).0.site)
  {
    TidyHasNothingPending(s);
    SweepLeavesReferencedParts(s, env);
  }

  lemma HandlersKeepRowsTidy(s: Site, c: Call, env: Env)
    requires Healthy(s) && CollisionFree(s.digests) && Admissible(s, Request(c, env)) && RowsTidy(s)
    requires c.CallSweep? ==> env.stuck == {}
    ensures RowsTidy(Handle(s, c, env).site)
  {
    if c.CallSweep? {
      SweepKeepsRowsTidy(s, env);
    } else {
      WrittenForKeepsHealth(s, c);
      RequestsConserve(s, c, env);
      HandleIsTransaction(s, c, env);
      CommitKeepsRowsTidy(WrittenFor(s, c), TransactionOf(s, c, env), env.stuck);
    }
  }

  /** Sweeps can unlink what they collect. */
  predicate SweepsUnlink(requests: seq<Request>) {
    forall i :: 0 <= i < |requests| && requests[i].call.CallSweep? ==> requests[i].env.stuck == {}
  }

  /** Over every run whose sweeps can unlink, the part table has a row for exactly the referenced parts, and
      nothing is ever left in the collector's hands. */
  lemma {:induction false} RunsKeepRowsTidy(s: Site, requests: seq<Request>)
    requires Healthy(s) && CollisionFree(s.digests) && AllAdmissible(s, requests) && RowsTidy(s)
    requires SweepsUnlink(requests)
    ensures RowsTidy(Serve(s, requests)) && forall h :: !Pending(Serve(s, requests).tables.parts, h)
    decreases |requests|
  {
    if requests == [] {
      TidyHasNothingPending(s);
    } else {
      var r := requests[0];
      HandlersKeepRowsTidy(s, r.call, r.env);
      HandlersKeepHealth(s, r.call, r.env);
      HandlersKeepDigests(s, r.call, r.env);
      RunsKeepRowsTidy(Handle(s, r.call, r.env).site, requests[1..]);
    }
  }

  /** So nothing is refused for being collected: a put succeeds exactly if its bucket exists, and a part
      upload exactly if its number is valid and its manifest exists. */
  lemma TidyRefusesNothing(s: Site, c: Call, env: Env)
    requires Healthy(s) && RowsTidy(s)
    ensures c.CallPut? ==> (Handle(s, c, env).reply.Success? <==> c.bucket in s.buckets)
    ensures c.CallUploadPart? ==>
              (Handle(s, c, env).reply.Success? <==> 0 < c.number <= 10_000 && Encode(c.target) in s.tables.objects)
  {
    TidyHasNothingPending(s);
    if c.CallPut? && c.bucket in s.buckets {
      PutRefusedIff(s.tables, NewObject(s, c.bucket, c.key, c.body, c.attributes, c.lock, env), env.now);
    } else if c.CallUploadPart? {
      UploadSucceedsIff(s, c.target, c.number, c.body, env);
    }
  }

  // ---- files ----

  /** There is a file for exactly the parts that some manifest refers to. */
  ghost predicate FilesTidy(s: Site) {
    forall h :: h in s.files <==> Referenced(s, h)
  }

  /** The request stores a part for a manifest that does not exist, and nothing else refers to the part. */
  ghost predicate Leaks(s: Site, c: Call) {
    && c.CallUploadPart? && 0 < c.number <= 10_000 && Encode(c.target) !in s.tables.objects
    && !Referenced(s, s.digests.contentHash(c.body))
  }

  /** The part that a request stores in vain or for its own manifest. */
  lemma FilesAfterCommit(s: Site, c: Call, env: Env, h: Hash)
    requires Healthy(s) && CollisionFree(s.digests) && Admissible(s, Request(c, env)) && RowsTidy(s) && FilesTidy(s)
    requires !c.CallSweep? && env.stuck == {} && TransactionOf(s, c, env).Success?
    requires h in WrittenFor(s, c).files ==>
              h in s.files || References(TransactionOf(s, c, env).value.tables.objects, h) > 0
    ensures h in Handle(s, c, env).site.files <==> Referenced(Handle(s, c, env).site, h)
  {
    var s1, o := WrittenFor(s, c), TransactionOf(s, c, env);
    WrittenForKeepsHealth(s, c);
    RequestsConserve(s, c, env);
    HandleIsTransaction(s, c, env);
    HandlersKeepHealth(s, c, env);
    CommitAt(s1, o, env.stuck, h);
    if Referenced(Handle(s, c, env).site, h) {
      ReferencedHasFile(Handle(s, c, env).site, h);
    }
  }

  /** The body of an accepted put or part upload is referenced afterwards. */
  lemma StoredBodyIsReferenced(s: Site, c: Call, env: Env, h: Hash)
    requires Healthy(s) && RequestFits(s, c) && ProperCall(c)
    requires !c.CallSweep? && TransactionOf(s, c, env).Success? && h in WrittenFor(s, c).files && h !in s.files
    ensures References(TransactionOf(s, c, env).value.tables.objects, h) > 0
  {
    if c.CallPut? {
      var m := NewObject(s, c.bucket, c.key, c.body, c.attributes, c.lock, env);
      PutRows(s.tables, m, env.now, h);
      assert m.parts[1..] == [];
    } else {
      AppendRows(s.tables, c.target, PartOf(s, c.number, c.body), env.now, h);
    }
  }

  lemma UnleakingSucceeds(s: Site, c: Call, env: Env)
    requires Healthy(s) && RowsTidy(s) && !c.CallSweep? && (c.CallPut? || c.CallUploadPart?)
    requires TransactionOf(s, c, env).Failure?
    ensures c.CallUploadPart? && 0 < c.number <= 10_000 && Encode(c.target) !in s.tables.objects
  {
    TidyHasNothingPending(s);
    if c.CallPut? {
      PutRefusedIff(s.tables, NewObject(s, c.bucket, c.key, c.body, c.attributes, c.lock, env), env.now);
    } else {
      UploadSucceedsIff(s, c.target, c.number, c.body, env);
    }
  }

  lemma FailedKeepsFilesTidyIff(s: Site, c: Call, env: Env)
    requires Healthy(s) && CollisionFree(s.digests) && RowsTidy(s) && FilesTidy(s)
    requires !c.CallSweep? && TransactionOf(s, c, env).Failure?
    ensures FilesTidy(Handle(s, c, env).site) <==> !Leaks(s, c)
  {
    var s' := Handle(s, c, env).site;
    HandleIsTransaction(s, c, env);
    if c.CallPut? || c.CallUploadPart? {
      UnleakingSucceeds(s, c, env);
      var h := s.digests.contentHash(c.body);
      assert h in s'.files;
      forall g
        ensures g != h ==> (g in s'.files <==> g in s.files)
        ensures Referenced(s', g) <==> Referenced(s, g)
      {
      }
    }
  }

  lemma SweepKeepsFilesTidy(s: Site, env: Env)
    requires Healthy(s) && RowsTidy(s) && FilesTidy(s) && env.stuck == {}
    ensures FilesTidy(Maintain(s, env).0.site)
  {
    forall h
      ensures h in Maintain(s, env).0.site.files <==> Referenced(Maintain(s, env).0.site, h)
    {
      SweptFile(s, env, h);
    }
  }

  lemma SweptFile(s: Site, env: Env, h: Hash)
    requires Healthy(s) && RowsTidy(s) && FilesTidy(s) && env.stuck == {}
    ensures h in Maintain(s, env).0.site.files <==> Referenced(Maintain(s, env).0.site, h)
  {
    var s1 := AfterLifecycle(s, env);
    AfterLifecycleIsHealthy(s, env);
    SweepLifecycleKeeps(s.tables, s.buckets, Clock(env.now, env.markerIds));
    TidyHasNothingPending(s);
    OrphanIff(s1, h);
    SweepGcAt(s1.Storage(), env.stuck, h);
    assert Referenced(s, h) <==> h in s1.tables.parts;
  }

  /** Where nothing is pending, the orphans are the rows without references. */
  lemma OrphanIff(s: Site, h: Hash)
    requires Consistent(s.tables) && !Pending(s.tables.parts, h)
    ensures h in OrphanSet(s.tables.parts) <==> h in s.tables.parts && References(s.tables.objects, h) == 0
    ensures References(s.tables.objects, h) > 0 ==> h in s.tables.parts
  {
    assert Sound(s.tables, h);
  }

  /** With tidy rows and files and successful unlinks, a request leaves a file for exactly the referenced
      parts if and only if it is no part upload to a missing manifest with content that nothing refers to. */
  lemma HandlersKeepFilesTidyIff(s: Site, c: Call, env: Env)
    requires Healthy(s) && CollisionFree(s.digests) && Admissible(s, Request(c, env)) && RowsTidy(s) && FilesTidy(s)
    requires env.stuck == {}
    ensures FilesTidy(Handle(s, c, env).site) <==> !Leaks(s, c)
  {
    if c.CallSweep? {
      SweepKeepsFilesTidy(s, env);
    } else if TransactionOf(s, c, env).Failure? {
      FailedKeepsFilesTidyIff(s, c, env);
    } else {
      forall h
        ensures h in Handle(s, c, env).site.files <==> Referenced(Handle(s, c, env).site, h)
      {
        if h in WrittenFor(s, c).files && h !in s.files {
          StoredBodyIsReferenced(s, c, env, h);
        }
        FilesAfterCommit(s, c, env, h);
      }
    }
  }

  /** No request of the run leaks. */
  ghost predicate NothingLeaks(s: Site, requests: seq<Request>)
    decreases |requests|
  {
    requests == [] ||
    (!Leaks(s, requests[0].call) && NothingLeaks(Handle(s, requests[0].call, requests[0].env).site, requests[1..]))
  }

  /** Over every run in which unlinking succeeds and nothing leaks, there is a file for exactly the
      referenced parts. */
  lemma {:induction false} RunsKeepFilesTidy(s: Site, requests: seq<Request>)
    requires Healthy(s) && CollisionFree(s.digests) && AllAdmissible(s, requests) && RowsTidy(s) && FilesTidy(s)
    requires NothingLeaks(s, requests) && forall i :: 0 <= i < |requests| ==> requests[i].env.stuck == {}
    ensures FilesTidy(Serve(s, requests))
    decreases |requests|
  {
    if requests != [] {
      var r := requests[0];
      HandlersKeepRowsTidy(s, r.call, r.env);
      HandlersKeepFilesTidyIff(s, r.call, r.env);
      HandlersKeepHealth(s, r.call, r.env);
      HandlersKeepDigests(s, r.call, r.env);
      RunsKeepFilesTidy(Handle(s, r.call, r.env).site, requests[1..]);
    }
  }

  lemma EmptyIsTidy(d: Digests)
    ensures var s := Site(d, map[], Tables(map[], map[]), map[]); RowsTidy(s) && FilesTidy(s)
  {
  }

  // ---- failed collections ----

  /** An orphan whose file cannot be unlinked is in the collector's hands after the sweep. */
  lemma StuckOrphanIsPending(s: Site, env: Env, h: Hash)
    requires Healthy(s) && h in OrphanSet(AfterLifecycle(s, env).tables.parts) && h in env.stuck
    ensures Pending(Maintain(s, env).0.site.tables.parts, h)
  {
    AfterLifecycleIsHealthy(s, env);
    SweepGcAt(AfterLifecycle(s, env).Storage(), env.stuck, h);
  }

  lemma CommitKeepsPending(s: Site, o: Outcome, stuck: set<Hash>, h: Hash)
    requires Consistent(s.tables) && Conserving(s.tables, o) && Pending(s.tables.parts, h)
    ensures Pending(Commit(s, o, stuck).site.tables.parts, h)
  {
    assert Sound(s.tables, h);
    if o.Success? {
      CommitAt(s, o, stuck, h);
    }
  }

  lemma SweepKeepsPending(s: Site, env: Env, h: Hash)
    requires Healthy(s) && Pending(s.tables.parts, h)
    ensures Pending(Maintain(s, env).0.site.tables.parts, h)
  {
    AfterLifecycleIsHealthy(s, env);
    SweepLifecycleKeeps(s.tables, s.buckets, Clock(env.now, env.markerIds));
    SweepGcAt(AfterLifecycle(s, env).Storage(), env.stuck, h);
  }

  lemma HandlersKeepPending(s: Site, c: Call, env: Env, h: Hash)
    requires Healthy(s) && CollisionFree(s.digests) && Admissible(s, Request(c, env)) && Pending(s.tables.parts, h)
    ensures Pending(Handle(s, c, env).site.tables.parts, h)
  {
    if c.CallSweep? {
      SweepKeepsPending(s, env, h);
    } else {
      WrittenForKeepsHealth(s, c);
      RequestsConserve(s, c, env);
      HandleIsTransaction(s, c, env);
      CommitKeepsPending(WrittenFor(s, c), TransactionOf(s, c, env), env.stuck, h);
    }
  }

  /** Once in the collector's hands, a part stays there over every run: no handler ever takes it back. */
  lemma {:induction false} PendingForEver(s: Site, requests: seq<Request>, h: Hash)
    requires Healthy(s) && CollisionFree(s.digests) && AllAdmissible(s, requests) && Pending(s.tables.parts, h)
    ensures Pending(Serve(s, requests).tables.parts, h)
    decreases |requests|
  {
    if requests != [] {
      var r := requests[0];
      HandlersKeepPending(s, r.call, r.env, h);
      HandlersKeepHealth(s, r.call, r.env);
      HandlersKeepDigests(s, r.call, r.env);
      PendingForEver(Handle(s, r.call, r.env).site, requests[1..], h);
    }
  }

  /** And every put and part upload of its content is refused from then on. */
  lemma PendingContentIsRefused(s: Site, requests: seq<Request>, c: Call, env: Env, h: Hash)
    requires Healthy(s) && CollisionFree(s.digests) && AllAdmissible(s, requests) && Pending(s.tables.parts, h)
    requires (c.CallPut? || c.CallUploadPart?) && s.digests.contentHash(c.body) == h
    ensures Handle(Serve(s, requests), c, env).reply.Failure?
  {
    var s' := Serve(s, requests);
    PendingForEver(s, requests, h);
    ServeKeepsDigests(s, requests);
    if c.CallPut? && c.bucket in s'.buckets {
      var m := NewObject(s', c.bucket, c.key, c.body, c.attributes, c.lock, env);
      assert m.parts[0].hash == h;
      PutRefusedIff(s'.tables, m, env.now);
    }
  }
}
