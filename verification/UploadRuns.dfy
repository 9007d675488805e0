/** Multipart uploads over whole runs (src/s3/multipart.rs:28-207): what an upload holds after any
    sequence of requests, and what its completion reads as. */
module UploadRuns {
  import opened Results
  import opened ByteStrings
  import opened Manifests
  import opened KeyOrder
  import opened Transactions
  import opened Scans
  import opened Reads
  import opened Lifecycle
  import opened SweepSafety
  import opened Handlers
  import opened Uploads
  import opened Invariants
  import opened LockSafety
  import opened Content

  ghost predicate IsUpload(s: Site, m: Manifest) {
    Has(s.tables.objects, m) && m.state == InProgress
  }

  /** The request does not complete, abort, delete or expire the upload. */
  predicate LeavesUpload(s: Site, r: Request, m: Manifest) {
    match r.call
    case CallComplete(target, _) => target != m.key
    case CallAbort(target) => target != m.key
    case CallDelete(bucket, key, versionId) => versionId.None? || ManifestKey(bucket, key, versionId.value) != m.key
    case CallSweep =>
      m.key.bucket in s.buckets ==> !AbortDue(Active(s.buckets[m.key.bucket].lifecycleRules), m, r.env.now)
    case _ => true
  }

  /** A successful part upload to the key. */
  predicate Extends(s: Site, r: Request, key: ManifestKey) {
    r.call.CallUploadPart? && r.call.target == key && Handle(s, r.call, r.env).reply.Success?
  }

  /** The upload after the request. */
  function NextUpload(s: Site, r: Request, m: Manifest): Manifest {
    if Extends(s, r, m.key) then WithPart(m, PartOf(s, r.call.number, r.call.body), r.env.now) else m
  }

  ghost predicate Becomes(o: Objects, m: Manifest, after: Manifest) {
    Encode(m.key) in o && o[Encode(m.key)] == after
  }

  // ---- one request ----

  lemma OtherPut(s: Site, m: Manifest, n: Manifest, now: Time)
    requires RowsOk(s) && IsUpload(s, m) && ProperKey(n.key) && n.key != m.key
    ensures Becomes(After(s.tables, PutManifest(s.tables, n, now)).objects, m, m)
  {
    assert RowOk(s, m);
    EncodeIsInjective(n.key, m.key);
  }

  lemma UploadIdIsOther(s: Site, m: Manifest, versioning: VersioningState, env: Env)
    requires RowsOk(s) && IsUpload(s, m) && FreshIds(s, env)
    ensures NextVersionId(versioning, env.newId) != m.key.versionId && m.key.versionId != NULL_VERSION
  {
    assert RowOk(s, m);
  }

  lemma PutKeepsUpload(s: Site, m: Manifest, r: Request)
    requires RowsOk(s) && IsUpload(s, m) && ProperCall(r.call) && FreshIds(s, r.env) && r.call.CallPut?
    ensures Becomes(Handle(s, r.call, r.env).site.tables.objects, m, m)
  {
    var c, env := r.call, r.env;
    if c.bucket in s.buckets {
      var n := NewObject(s, c.bucket, c.key, c.body, c.attributes, c.lock, env);
      UploadIdIsOther(s, m, s.buckets[c.bucket].versioning, env);
      OtherPut(s, m, n, env.now);
      CommitObjects(Written(s, c.body), PutManifest(s.tables, n, env.now), env.stuck);
    }
  }

  lemma CopyKeepsUpload(s: Site, m: Manifest, r: Request)
    requires RowsOk(s) && IsUpload(s, m) && ProperCall(r.call) && FreshIds(s, r.env) && r.call.CallCopy?
    ensures Becomes(Handle(s, r.call, r.env).site.tables.objects, m, m)
  {
    var c, env := r.call, r.env;
    var from := FindObject(s, c.source.bucket, c.source.key, c.source.versionId);
    if c.bucket in s.buckets && from.Some? {
      UploadIdIsOther(s, m, s.buckets[c.bucket].versioning, env);
      var n := CopyOf(s, c.bucket, c.key, from.value, c.newAttributes, env);
      OtherPut(s, m, n, env.now);
      CommitObjects(s, PutManifest(s.tables, n, env.now), env.stuck);
    }
  }

  lemma DeleteVersionKeepsUpload(s: Site, m: Manifest, key: ManifestKey, env: Env)
    requires RowsOk(s) && IsUpload(s, m) && ProperKey(key) && key != m.key
    ensures Becomes(DeleteSpecificVersion(s, key, env).site.tables.objects, m, m)
  {
    assert RowOk(s, m);
    EncodeIsInjective(key, m.key);
    CommitObjects(s, DeleteManifest(s.tables, key), env.stuck);
  }

  lemma DeleteKeepsUpload(s: Site, m: Manifest, r: Request)
    requires RowsOk(s) && IsUpload(s, m) && ProperCall(r.call) && FreshIds(s, r.env)
    requires r.call.CallDelete? && LeavesUpload(s, r, m)
    ensures Becomes(Handle(s, r.call, r.env).site.tables.objects, m, m)
  {
    var c, env := r.call, r.env;
    if c.bucket in s.buckets {
      var versioning := s.buckets[c.bucket].versioning;
      UploadIdIsOther(s, m, versioning, env);
      if c.versionId.Some? {
        DeleteVersionKeepsUpload(s, m, ManifestKey(c.bucket, c.key, c.versionId.value), env);
      } else if versioning == Off {
        DeleteVersionKeepsUpload(s, m, ManifestKey(c.bucket, c.key, NULL_VERSION), env);
      } else {
        var n := DeleteMarker(c.bucket, c.key, NextVersionId(versioning, env.newId), env.now);
        OtherPut(s, m, n, env.now);
        CommitObjects(s, PutManifest(s.tables, n, env.now), env.stuck);
      }
    }
  }

  lemma CreateKeepsUpload(s: Site, m: Manifest, r: Request)
    requires RowsOk(s) && IsUpload(s, m) && ProperCall(r.call) && FreshIds(s, r.env) && r.call.CallCreateUpload?
    ensures Becomes(Handle(s, r.call, r.env).site.tables.objects, m, m)
  {
    var c, env := r.call, r.env;
    if c.bucket in s.buckets {
      var n := NewUpload(c.bucket, c.key, c.attributes, env);
      OtherPut(s, m, n, env.now);
      CommitObjects(s, PutManifest(s.tables, n, env.now), env.stuck);
    }
  }

  lemma UploadPartExtends(s: Site, m: Manifest, r: Request)
    requires RowsOk(s) && IsUpload(s, m) && ProperCall(r.call) && r.call.CallUploadPart?
    ensures Becomes(Handle(s, r.call, r.env).site.tables.objects, m, NextUpload(s, r, m))
  {
    var c, env := r.call, r.env;
    assert RowOk(s, m);
    EncodeIsInjective(c.target, m.key);
    CommitObjects(Written(s, c.body), AppendPart(s.tables, c.target, PartOf(s, c.number, c.body), env.now), env.stuck);
  }

  lemma CompleteKeepsUpload(s: Site, m: Manifest, r: Request)
    requires RowsOk(s) && IsUpload(s, m) && ProperCall(r.call) && r.call.CallComplete? && LeavesUpload(s, r, m)
    ensures Becomes(Handle(s, r.call, r.env).site.tables.objects, m, m)
  {
    var c, env := r.call, r.env;
    assert RowOk(s, m);
    EncodeIsInjective(c.target, m.key);
    var other := UploadAt(s, c.target);
    if other.Some? && Select(other.value.parts, c.requested).Some? {
      var n := Completed(other.value, c.target, Select(other.value.parts, c.requested).value, env.now);
      OtherCompletion(s, m, c.target, n, env);
    }
  }

  lemma OtherCompletion(s: Site, m: Manifest, key: ManifestKey, n: Manifest, env: Env)
    requires RowsOk(s) && IsUpload(s, m) && Encode(key) != Encode(m.key) && ProperKey(n.key)
    requires n.key.versionId == NULL_VERSION
    ensures Becomes(Commit(s, CompleteMultipart(s.tables, key, n, env.now), env.stuck).site.tables.objects, m, m)
  {
    assert RowOk(s, m);
    EncodeIsInjective(n.key, m.key);
    CommitObjects(s, CompleteMultipart(s.tables, key, n, env.now), env.stuck);
  }

  lemma AbortKeepsUpload(s: Site, m: Manifest, r: Request)
    requires RowsOk(s) && IsUpload(s, m) && ProperCall(r.call) && r.call.CallAbort? && LeavesUpload(s, r, m)
    ensures Becomes(Handle(s, r.call, r.env).site.tables.objects, m, m)
  {
    assert RowOk(s, m);
    EncodeIsInjective(r.call.target, m.key);
    CommitObjects(s, DeleteManifest(s.tables, r.call.target), r.env.stuck);
  }

  /** Locks are put on committed versions only. */
  lemma LocksKeepUpload(s: Site, m: Manifest, r: Request)
    requires RowsOk(s) && IsUpload(s, m) && ProperCall(r.call) && (r.call.CallRetention? || r.call.CallLegalHold?)
    ensures Becomes(Handle(s, r.call, r.env).site.tables.objects, m, m)
  {
    var c := r.call;
    var found := FindObject(s, c.bucket, c.key, c.versionId);
    assert RowOk(s, m);
    if found.Some? {
      ResolvedIsRow(s, c.bucket, c.key, c.versionId);
      assert Encode(found.value.key) != Encode(m.key);
      forall lock
        ensures Becomes(Commit(s, UpdateLock(s.tables, found.value.key, Some(lock)), {}).site.tables.objects, m, m)
      {
        CommitObjects(s, UpdateLock(s.tables, found.value.key, Some(lock)), {});
      }
    }
  }

  lemma SweepKeepsUpload(s: Site, m: Manifest, r: Request)
    requires RowsOk(s) && IsUpload(s, m) && FreshIds(s, r.env) && r.call.CallSweep? && LeavesUpload(s, r, m)
    ensures Becomes(Handle(s, r.call, r.env).site.tables.objects, m, m)
  {
    assert RowOk(s, m);
    SweepSparesUpload(s.tables, s.buckets, Clock(r.env.now, r.env.markerIds), m);
  }

  /** An upload goes through any request that leaves it, gaining just the parts uploaded to it. */
  lemma UploadStep(s: Site, m: Manifest, r: Request)
    requires RowsOk(s) && IsUpload(s, m) && ProperCall(r.call) && FreshIds(s, r.env) && LeavesUpload(s, r, m)
    ensures Becomes(Handle(s, r.call, r.env).site.tables.objects, m, NextUpload(s, r, m))
  {
    match r.call
    case CallPut(_, _, _, _, _) => PutKeepsUpload(s, m, r);
    case CallDelete(_, _, _) => DeleteKeepsUpload(s, m, r);
    case CallCopy(_, _, _, _) => CopyKeepsUpload(s, m, r);
    case CallCreateUpload(_, _, _) => CreateKeepsUpload(s, m, r);
    case CallUploadPart(_, _, _) => UploadPartExtends(s, m, r);
    case CallComplete(_, _) => CompleteKeepsUpload(s, m, r);
    case CallAbort(_) => AbortKeepsUpload(s, m, r);
    case CallRetention(_, _, _, _) => LocksKeepUpload(s, m, r);
    case CallLegalHold(_, _, _, _) => LocksKeepUpload(s, m, r);
    case CallCreateBucket(_, _) =>
    case CallDeleteBucket(_) =>
    case CallConfigure(_, _) =>
    case CallSweep => SweepKeepsUpload(s, m, r);
  }

  // ---- whole runs ----

  /** What the run uploads to the key successfully, in order. */
  function UploadLog(s: Site, requests: seq<Request>, key: ManifestKey): seq<Upload>
    decreases |requests|
  {
    if requests == [] then []
    else
      var r := requests[0];
      (if Extends(s, r, key) then [Upload(PartOf(s, r.call.number, r.call.body), r.env.now)] else [])
      + UploadLog(Handle(s, r.call, r.env).site, requests[1..], key)
  }

  /** No request of the run completes, aborts, deletes or expires the upload. */
  ghost predicate LeavesUploadAlong(s: Site, requests: seq<Request>, m: Manifest)
    decreases |requests|
  {
    requests == [] ||
    (LeavesUpload(s, requests[0], m)
     && LeavesUploadAlong(Handle(s, requests[0].call, requests[0].env).site, requests[1..],
                          NextUpload(s, requests[0], m)))
  }

  lemma {:induction false} AfterUploadsConcat(m: Manifest, a: seq<Upload>, b: seq<Upload>)
    ensures AfterUploads(m, a + b) == AfterUploads(AfterUploads(m, a), b)
    decreases |b|
  {
    if b == [] {
      assert a + b == a;
    } else {
      var front, last := b[..|b| - 1], b[|b| - 1];
      assert (a + b)[..|a + b| - 1] == a + front && (a + b)[|a + b| - 1] == last;
      AfterUploadsConcat(m, a, front);
    }
  }

  lemma LogOfOne(m: Manifest, u: Upload)
    ensures AfterUploads(m, [u]) == WithPart(m, u.part, u.at)
  {
    assert [u][..0] == [];
  }

  /** After any run that leaves it, an upload is what the uploads of the run make of it. */
  lemma {:induction false} UploadRun(s: Site, requests: seq<Request>, m: Manifest)
    requires Healthy(s) && CollisionFree(s.digests) && AllAdmissible(s, requests)
    requires IsUpload(s, m) && LeavesUploadAlong(s, requests, m)
    ensures Becomes(Serve(s, requests).tables.objects, m, AfterUploads(m, UploadLog(s, requests, m.key)))
    decreases |requests|
  {
    if requests != [] {
      var r := requests[0];
      var next, m' := Handle(s, r.call, r.env).site, NextUpload(s, r, m);
      UploadStep(s, m, r);
      HandlersKeepHealth(s, r.call, r.env);
      HandlersKeepDigests(s, r.call, r.env);
      RowAtItsKey(next, Encode(m.key));
      UploadRun(next, requests[1..], m');
      var rest := UploadLog(next, requests[1..], m.key);
      if Extends(s, r, m.key) {
        var u := Upload(PartOf(s, r.call.number, r.call.body), r.env.now);
        AfterUploadsConcat(m, [u], rest);
        LogOfOne(m, u);
      } else {
        assert [] + rest == rest;
      }
    }
  }

  /** A fresh upload holds, after any run that leaves it, per number the part uploaded last, in strictly
      ascending order, and its size is their sum. */
  lemma FreshUploadHoldsLastParts(s: Site, requests: seq<Request>, m: Manifest)
    requires Healthy(s) && CollisionFree(s.digests) && AllAdmissible(s, requests)
    requires IsUpload(s, m) && m.parts == [] && LeavesUploadAlong(s, requests, m)
    ensures var s', k := Serve(s, requests), Encode(m.key);
      && k in s'.tables.objects && s'.tables.objects[k].state == InProgress
      && PartsAscend(s'.tables.objects[k].parts) && s'.tables.objects[k].size == TotalSize(s'.tables.objects[k].parts)
      && (forall p :: p in s'.tables.objects[k].parts <==> UploadedLast(UploadLog(s, requests, m.key), p))
  {
    assert RowOk(s, m);
    UploadRun(s, requests, m);
    LastUploadWins(m, UploadLog(s, requests, m.key));
    UploadsKeepState(m, UploadLog(s, requests, m.key));
  }

  lemma {:induction false} UploadsKeepState(m: Manifest, uploads: seq<Upload>)
    ensures AfterUploads(m, uploads).state == m.state && AfterUploads(m, uploads).key == m.key
  {
    if uploads != [] {
      UploadsKeepState(m, uploads[..|uploads| - 1]);
    }
  }

  // ---- what a completion reads as ----

  /** The bodies that the run uploads to the key successfully, with their numbers. */
  datatype Sent = Sent(number: u32, body: Bytes)

  function SentLog(s: Site, requests: seq<Request>, key: ManifestKey): seq<Sent>
    decreases |requests|
  {
    if requests == [] then []
    else
      var r := requests[0];
      (if Extends(s, r, key) then [Sent(r.call.number, r.call.body)] else [])
      + SentLog(Handle(s, r.call, r.env).site, requests[1..], key)
  }

  /** The body sent last under a number. */
  function LastBody(sent: seq<Sent>, number: u32): Option<Bytes> {
    if sent == [] then None
    else
      var last := sent[|sent| - 1];
      if last.number == number then Some(last.body) else LastBody(sent[..|sent| - 1], number)
  }

  predicate SameUploads(d: Digests, uploads: seq<Upload>, sent: seq<Sent>) {
    && |uploads| == |sent|
    && (forall i :: 0 <= i < |sent| ==>
         uploads[i].part.partNumber == sent[i].number && uploads[i].part.hash == d.contentHash(sent[i].body))
  }

  lemma {:induction false} LogsAgree(s: Site, requests: seq<Request>, key: ManifestKey)
    ensures SameUploads(s.digests, UploadLog(s, requests, key), SentLog(s, requests, key))
    decreases |requests|
  {
    if requests != [] {
      var r := requests[0];
      HandlersKeepDigests(s, r.call, r.env);
      LogsAgree(Handle(s, r.call, r.env).site, requests[1..], key);
    }
  }

  /** The part uploaded last under a number comes from the body sent last under it. */
  lemma {:induction false} LastPartFromLastBody(d: Digests, uploads: seq<Upload>, sent: seq<Sent>, p: PartRef)
    requires SameUploads(d, uploads, sent) && UploadedLast(uploads, p)
    ensures LastBody(sent, p.partNumber).Some? && p.hash == d.contentHash(LastBody(sent, p.partNumber).value)
    decreases |sent|
  {
    var n := |uploads| - 1;
    UploadedLastSplit(uploads, p);
    if p.partNumber != sent[n].number {
      LastPartFromLastBody(d, uploads[..n], sent[..n], p);
    } else if p != uploads[n].part {
      assert false;
    }
  }

  /** The bodies sent last under the requested numbers. */
  function RequestedBodies(sent: seq<Sent>, requested: seq<RequestedPart>): (bodies: seq<Bytes>)
    requires forall i :: 0 <= i < |requested| ==> LastBody(sent, requested[i].partNumber).Some?
    ensures |bodies| == |requested|
    ensures forall i :: 0 <= i < |requested| ==> bodies[i] == LastBody(sent, requested[i].partNumber).value
  {
    seq(|requested|, i requires 0 <= i < |requested| => LastBody(sent, requested[i].partNumber).value)
  }

  lemma PartsFromBodies(s: Site, m: Manifest, uploads: seq<Upload>, sent: seq<Sent>, requested: seq<RequestedPart>)
    requires SameUploads(s.digests, uploads, sent) && forall p :: p in m.parts ==> UploadedLast(uploads, p)
    requires UploadAt(s, m.key) == Some(m) && AllUploaded(m, requested)
    ensures forall i :: 0 <= i < |requested| ==> LastBody(sent, requested[i].partNumber).Some?
    ensures BodiesOf(s, m.key, requested, RequestedBodies(sent, requested))
  {
    forall i | 0 <= i < |requested|
      ensures LastBody(sent, requested[i].partNumber).Some?
    {
      assert Provided(m.parts, requested[i]);
      var p :| p in m.parts && Stands(p, requested[i]);
      LastPartFromLastBody(s.digests, uploads, sent, p);
    }
    forall p, i | p in m.parts && 0 <= i < |requested| && Stands(p, requested[i])
      ensures UploadedFrom(s, p, RequestedBodies(sent, requested)[i])
    {
      LastPartFromLastBody(s.digests, uploads, sent, p);
    }
  }

  /** From the start of an upload, through any requests that leave it, to its completion: the completed
      object reads as the bodies sent last under the requested numbers, put together in their order. */
  lemma UploadReadsBack(s: Site, requests: seq<Request>, m: Manifest, requested: seq<RequestedPart>, env: Env)
    requires Healthy(s) && CollisionFree(s.digests) && AllAdmissible(s, requests)
    requires IsUpload(s, m) && m.parts == [] && LeavesUploadAlong(s, requests, m)
    requires Admissible(Serve(s, requests), Request(CallComplete(m.key, requested), env))
    requires CompleteUpload(Serve(s, requests), m.key, requested, env).reply.Success?
    ensures var sent := SentLog(s, requests, m.key);
      var s', c := CompleteUpload(Serve(s, requests), m.key, requested, env).site,
          Encode(ManifestKey(m.key.bucket, m.key.key, NULL_VERSION));
      && (forall i :: 0 <= i < |requested| ==> LastBody(sent, requested[i].partNumber).Some?)
      && c in s'.tables.objects && AllPresent(s'.files, s'.tables.objects[c].parts)
      && Assemble(s'.files, s'.tables.objects[c].parts) == Joined(RequestedBodies(sent, requested))
  {
    var s1 := Serve(s, requests);
    var uploads, sent := UploadLog(s, requests, m.key), SentLog(s, requests, m.key);
    FreshUploadHoldsLastParts(s, requests, m);
    RunsKeepHealth(s, requests);
    ServeKeepsDigests(s, requests);
    LogsAgree(s, requests, m.key);
    var upload := s1.tables.objects[Encode(m.key)];
    UploadRun(s, requests, m);
    UploadsKeepState(m, uploads);
    CompletionSucceedsIff(s1, m.key, requested, env);
    PartsFromBodies(s1, upload, uploads, sent, requested);
    CompletionReadsBack(s1, m.key, requested, RequestedBodies(sent, requested), env);
  }
}
