/** The server: request handlers working on the metadata actor and the part files. Every method is
    proved against the function of the same name in the modules Handlers, Lifecycle and Collection. */
module Server {
  import opened Results
  import opened ByteStrings
  import opened Manifests
  import opened Transactions
  import opened Scans
  import opened Reads
  import L = Lifecycle
  import C = Collection
  import H = Handlers
  import I = Invariants
  import opened Content
  import opened Upkeep
  import opened MetaStore
  import opened PartStore

  class Server {
    const store: Store
    const disk: Disk

    constructor (contentHash: Bytes -> Hash, md5: Bytes -> Bytes)
      ensures fresh(store) && fresh(disk)
      ensures State() == H.Site(H.Digests(contentHash, md5), map[], Transactions.Tables(map[], map[]), map[])
    {
      store := new Store();
      disk := new Disk(contentHash, md5);
    }

    function State(): H.Site
      reads store, disk
    {
      H.Site(H.Digests(disk.contentHash, disk.md5), store.buckets, store.Tables(), disk.files)
    }

    // ---- collection ----

    method GcFreedParts(freed: seq<Hash>, stuck: set<Hash>)
      modifies store`parts, disk`files
      ensures State() == old(State()).WithStorage(C.CollectFreed(old(State()).Storage(), freed, stuck))
    {
      var i := 0;
      assert freed[0..] == freed;
      while i < |freed|
        invariant 0 <= i <= |freed|
        invariant C.CollectFreed(old(State()).Storage(), freed, stuck)
             == C.CollectFreed(State().Storage(), freed[i..], stuck)
        invariant State() == old(State()).WithStorage(State().Storage())
      {
        var h := freed[i];
        assert freed[i..][1..] == freed[i + 1..];
        var marked := store.MarkGcPending(h);
        if marked == Success(true) {
          var _ := disk.Delete(h, stuck);
          store.RemovePart(h);
        }
        i := i + 1;
      }
    }

    method SweepGc(stuck: set<Hash>) returns (removed: nat)
      modifies store`parts, disk`files
      ensures var (storage, n) := C.SweepGc(old(State()).Storage(), stuck);
        State() == old(State()).WithStorage(storage) && removed == n
    {
      var orphans := store.ListOrphanParts();
      removed := 0;
      var i := 0;
      assert orphans[0..] == orphans;
      while i < |orphans|
        invariant 0 <= i <= |orphans|
        invariant C.SweepParts(old(State()).Storage(), orphans, stuck).0
             == C.SweepParts(State().Storage(), orphans[i..], stuck).0
        invariant C.SweepParts(old(State()).Storage(), orphans, stuck).1
            == removed + C.SweepParts(State().Storage(), orphans[i..], stuck).1
        invariant State() == old(State()).WithStorage(State().Storage())
      {
        var h := orphans[i];
        assert orphans[i..][1..] == orphans[i + 1..];
        i := i + 1;
        var marked := store.MarkGcPending(h);
        if marked == Success(true) {
          var ok := disk.Delete(h, stuck);
          if !ok {
            continue;
          }
          store.RemovePart(h);
          removed := removed + 1;
        }
      }
    }

    /** The end of every writing request: hand over what the transaction freed. */
    method Finish(committed: Result<seq<Hash>, MetaError>, stuck: set<Hash>) returns (reply: Result<(), H.HandlerError>)
      modifies store`parts, disk`files
      ensures committed.Failure? ==> State() == old(State()) && reply == Failure(H.Internal(committed.error))
      ensures committed.Success? ==>
                && State() == old(State()).WithStorage(C.CollectFreed(old(State()).Storage(), committed.value, stuck))
                && reply == Success(())
    {
      match committed
      case Failure(e) =>
        return Failure(H.Internal(e));
      case Success(freed) =>
        GcFreedParts(freed, stuck);
        reply := Success(());
    }

    // ---- objects ----

    /** Store a request body as a part. */
    method WriteBody(number: u32, body: Bytes) returns (part: PartRef)
      modifies disk`files
      ensures State() == H.Written(old(State()), body) && part == H.PartOf(old(State()), number, body)
    {
      var reader := new Reader(body);
      var hash, digest, size := disk.WriteStream(reader);
      part := PartRef(number, hash, digest, size);
    }

    method PutObject(bucket: Bytes, key: Bytes, body: Bytes, attributes: Bytes, lock: Option<ObjectLock>, env: H.Env)
      returns (reply: Result<(), H.HandlerError>)
      modifies store`objects, store`parts, disk`files
      ensures H.Step(State(), reply) == H.PutObject(old(State()), bucket, key, body, attributes, lock, env)
    {
      if bucket !in store.buckets {
        return Failure(H.NoSuchBucket);
      }
      var cfg := store.buckets[bucket];
      var part := WriteBody(1, body);
      var id := H.NextVersionId(cfg.versioning, env.newId);
      var objectLock := if lock.Some? then lock else H.DefaultLock(cfg.objectLock, env.now);
      var m := Manifest(ManifestKey(bucket, key, id), Committed, Object, [part], part.size, attributes,
          objectLock, env.now, env.now);
      var committed := store.PutManifest(m, env.now);
      reply := Finish(committed, env.stuck);
    }

    method DeleteSpecificVersion(key: ManifestKey, env: H.Env) returns (reply: Result<(), H.HandlerError>)
      modifies store`objects, store`parts, disk`files
      ensures H.Step(State(), reply) == H.DeleteSpecificVersion(old(State()), key, env)
    {
      var found := store.GetManifest(key);
      if found.Some? && found.value.Locked(env.now) {
        return Failure(H.AccessForbidden);
      }
      var committed := store.DeleteManifest(key);
      if committed == Failure(ManifestNotFound) {
        return Success(());
      }
      reply := Finish(committed, env.stuck);
    }

    method DeleteObject(bucket: Bytes, key: Bytes, versionId: Option<Bytes>, env: H.Env)
      returns (reply: Result<(), H.HandlerError>)
      modifies store`objects, store`parts, disk`files
      ensures H.Step(State(), reply) == H.DeleteObject(old(State()), bucket, key, versionId, env)
    {
      if bucket !in store.buckets {
        return Failure(H.NoSuchBucket);
      }
      if versionId.Some? {
        reply := DeleteSpecificVersion(ManifestKey(bucket, key, versionId.value), env);
        return;
      }
      match store.buckets[bucket].versioning
      case Off =>
        reply := DeleteSpecificVersion(ManifestKey(bucket, key, NULL_VERSION), env);
      case _ =>
        var id := H.NextVersionId(store.buckets[bucket].versioning, env.newId);
        var committed := store.PutManifest(L.DeleteMarker(bucket, key, id, env.now), env.now);
        reply := Finish(committed, env.stuck);
    }

    method FindManifest(bucket: Bytes, key: Bytes, versionId: Option<Bytes>) returns (found: Option<Manifest>)
      ensures found == H.FindCommitted(State(), bucket, key, versionId)
    {
      if versionId.Some? {
        found := store.GetManifest(ManifestKey(bucket, key, versionId.value));
      } else {
        found := store.GetLatestVersion(bucket, key);
      }
      if found.Some? && found.value.state != Committed {
        found := None;
      }
    }

    method ResolveSource(bucket: Bytes, key: Bytes, versionId: Option<Bytes>) returns (found: Option<Manifest>)
      ensures found == H.FindObject(State(), bucket, key, versionId)
    {
      found := FindManifest(bucket, key, versionId);
      if found.Some? && found.value.kind != Object {
        found := None;
      }
    }

    method CopyObject(bucket: Bytes, key: Bytes, source: H.Source, attributes: Option<Bytes>, env: H.Env)
      returns (reply: Result<(), H.HandlerError>)
      modifies store`objects, store`parts, disk`files
      ensures H.Step(State(), reply) == H.CopyObject(old(State()), bucket, key, source, attributes, env)
    {
      if bucket !in store.buckets {
        return Failure(H.NoSuchBucket);
      }
      var found := ResolveSource(source.bucket, source.key, source.versionId);
      if found.None? {
        return Failure(H.NoSuchKey);
      }
      var from := found.value;
      var id := H.NextVersionId(store.buckets[bucket].versioning, env.newId);
      var m := Manifest(ManifestKey(bucket, key, id), Committed, Object, from.parts, from.size,
                        if attributes.Some? then attributes.value else from.attributes, None, env.now, env.now);
      var committed := store.PutManifest(m, env.now);
      reply := Finish(committed, env.stuck);
    }

    /** GET for the given or the current version, with an optional `Range` header. On a healthy server
        reading never fails: the body is the content or the part of it that the header denotes. */
    method GetObject(bucket: Bytes, key: Bytes, versionId: Option<Bytes>, range: Option<Bytes>)
      returns (r: Result<Bytes, H.HandlerError>)
      requires I.Healthy(State()) && NulFree(bucket) && NulFree(key)
      ensures r == GetReply(State(), bucket, key, versionId, range) && r != Failure(H.SourceUnreadable)
    {
      if bucket !in store.buckets {
        return Failure(H.NoSuchBucket);
      }
      var found := FindManifest(bucket, key, versionId);
      if found.None? {
        return Failure(H.NoSuchKey);
      }
      var m := found.value;
      if m.kind == Tombstone {
        return Failure(if versionId.None? then H.NoSuchKey else H.InvalidRequest);
      }
      I.ResolvedIsRow(State(), bucket, key, versionId);
      Readable(m);
      var bounds := ParseRangeHeader(range, m.size);
      if bounds.Failure? {
        return Failure(H.InvalidArgument);
      }
      var body := GetBody(disk.files, m, bounds.value);
      r := Success(body.value);
    }

    lemma Readable(m: Manifest)
      requires I.Healthy(State()) && Has(store.objects, m)
      ensures AllPresent(disk.files, m.parts) && SizesRecorded(disk.files, m.parts)
      ensures m.size == TotalSize(m.parts) == |Assemble(disk.files, m.parts)|
    {
      RowsAreReadable(State(), m);
      assert I.RowOk(State(), m);
    }

    // ---- multipart uploads ----

    method CreateUpload(bucket: Bytes, key: Bytes, attributes: Bytes, env: H.Env)
      returns (reply: Result<(), H.HandlerError>)
      modifies store`objects, store`parts, disk`files
      ensures H.Step(State(), reply) == H.CreateUpload(old(State()), bucket, key, attributes, env)
    {
      if bucket !in store.buckets {
        return Failure(H.NoSuchBucket);
      }
      var m := Manifest(ManifestKey(bucket, key, env.newId),
                        InProgress, Object, [], 0, attributes, None, env.now, env.now);
      var committed := store.PutManifest(m, env.now);
      reply := Finish(committed, env.stuck);
    }

    method UploadPart(key: ManifestKey, number: u32, body: Bytes, env: H.Env)
      returns (reply: Result<(), H.HandlerError>)
      modifies store`objects, store`parts, disk`files
      ensures H.Step(State(), reply) == H.UploadPart(old(State()), key, number, body, env)
    {
      if number == 0 || number > 10_000 {
        return Failure(H.InvalidArgument);
      }
      var part := WriteBody(number, body);
      var committed := store.AppendPart(key, part, env.now);
      if committed == Failure(ManifestNotFound) {
        return Failure(H.NoSuchUpload);
      }
      reply := Finish(committed, env.stuck);
    }

    /** The bytes that a part copy takes from its source, or why there are none. */
    method ReadCopySource(source: H.Source, range: Option<Bytes>) returns (r: Result<Bytes, H.HandlerError>)
      requires I.Healthy(State()) && NulFree(source.bucket) && NulFree(source.key)
      ensures r == CopiedBytes(State(), source, range)
    {
      var found := ResolveSource(source.bucket, source.key, source.versionId);
      if found.None? {
        return Failure(H.NoSuchKey);
      }
      var m := found.value;
      I.ResolvedIsRow(State(), source.bucket, source.key, source.versionId);
      Readable(m);
      var bounds := CopyBounds(m, range);
      if bounds.Failure? {
        return Failure(H.InvalidArgument);
      }
      r := ReadPayload(m, bounds.value.0, bounds.value.1);
    }

    method ReadPayload(m: Manifest, start: nat, end: nat) returns (r: Result<Bytes, H.HandlerError>)
      requires m.size == TotalSize(m.parts) && start <= end < m.size
      requires AllPresent(disk.files, m.parts) && SizesRecorded(disk.files, m.parts)
      ensures r == PartwiseBytes(disk.files, m, start, end)
    {
      var payload := ReadSourceRange(disk.files, m, start, end);
      match payload
      case Failure(_) =>
        r := Failure(H.SourceUnreadable);
      case Success(bytes) =>
        ClipIsSlice(Assemble(disk.files, m.parts), start, end + 1);
        r := Success(bytes);
    }

    /** A part copy is a part upload whose body is read from another object. */
    method UploadPartCopy(key: ManifestKey, number: u32, source: H.Source, range: Option<Bytes>, env: H.Env)
      returns (reply: Result<(), H.HandlerError>)
      requires I.Healthy(State()) && NulFree(source.bucket) && NulFree(source.key)
      modifies store`objects, store`parts, disk`files
      ensures if number == 0 || number > 10_000
              then State() == old(State()) && reply == Failure(H.InvalidArgument)
              else match CopiedBytes(old(State()), source, range)
                   case Failure(e) => State() == old(State()) && reply == Failure(e)
                   case Success(bytes) => H.Step(State(), reply) == H.UploadPart(old(State()), key, number, bytes, env)
    {
      if number == 0 || number > 10_000 {
        return Failure(H.InvalidArgument);
      }
      var payload := ReadCopySource(source, range);
      if payload.Failure? {
        return Failure(payload.error);
      }
      reply := UploadPart(key, number, payload.value, env);
    }

    /** The part numbers must ascend from 1 on. */
    method CheckOrder(requested: seq<H.RequestedPart>) returns (ok: bool)
      ensures ok <==> H.InOrder(requested)
    {
      var lastN: u32 := 0;
      for i := 0 to |requested|
        invariant H.InOrder(requested[..i])
        invariant lastN == if i == 0 then 0 else requested[i - 1].partNumber
      {
        if requested[i].partNumber <= lastN {
          assert i > 0 ==> requested[i - 1].partNumber >= requested[i].partNumber;
          return false;
        }
        assert requested[..i + 1] == requested[..i] + [requested[i]];
        lastN := requested[i].partNumber;
      }
      assert requested[..|requested|] == requested;
      ok := true;
    }

    method SelectParts(parts: seq<PartRef>, requested: seq<H.RequestedPart>) returns (r: Option<seq<PartRef>>)
      ensures r == H.Select(parts, requested)
    {
      var selected: seq<PartRef> := [];
      assert requested[0..] == requested;
      H.OntoNothing(H.Select(parts, requested));
      for i := 0 to |requested|
        invariant H.Select(parts, requested) == H.Onto(selected, H.Select(parts, requested[i..]))
      {
        ghost var rest := H.Select(parts, requested[i + 1..]);
        assert requested[i..][1..] == requested[i + 1..];
        var position := Position(parts, requested[i].partNumber);
        if position.None? {
          return None;
        }
        var stored := parts[position.value];
        if stored.md5 != requested[i].etag {
          return None;
        }
        if rest.Some? {
          ConcatOne(selected, stored, rest.value);
        }
        selected := selected + [stored];
      }
      assert selected + [] == selected;
      r := Some(selected);
    }

    method GetUpload(key: ManifestKey) returns (r: Option<Manifest>)
      ensures r == H.UploadAt(State(), key)
    {
      r := store.GetManifest(key);
      if r.Some? && r.value.state != InProgress {
        r := None;
      }
    }

    method CompleteUpload(key: ManifestKey, requested: seq<H.RequestedPart>, env: H.Env)
      returns (reply: Result<(), H.HandlerError>)
      modifies store`objects, store`parts, disk`files
      ensures H.Step(State(), reply) == H.CompleteUpload(old(State()), key, requested, env)
    {
      var ordered := CheckOrder(requested);
      if requested == [] || !ordered {
        return Failure(H.InvalidArgument);
      }
      var upload := GetUpload(key);
      if upload.None? {
        return Failure(H.NoSuchUpload);
      }
      var selected := SelectParts(upload.value.parts, requested);
      if selected.None? {
        return Failure(H.InvalidArgument);
      }
      var committed := store.CompleteMultipart(key, H.Completed(upload.value, key, selected.value, env.now), env.now);
      reply := Finish(committed, env.stuck);
    }

    method AbortUpload(key: ManifestKey, env: H.Env) returns (reply: Result<(), H.HandlerError>)
      modifies store`objects, store`parts, disk`files
      ensures H.Step(State(), reply) == H.AbortUpload(old(State()), key, env)
    {
      var upload := GetUpload(key);
      if upload.None? {
        return Failure(H.NoSuchUpload);
      }
      var committed := store.DeleteManifest(key);
      reply := Finish(committed, env.stuck);
    }

    // ---- locks ----

    method PutRetention(bucket: Bytes, key: Bytes, versionId: Option<Bytes>, retainUntil: Time, env: H.Env)
      returns (reply: Result<(), H.HandlerError>)
      modifies store`objects, store`parts, disk`files
      ensures H.Step(State(), reply) == H.PutRetention(old(State()), bucket, key, versionId, retainUntil, env)
    {
      var found := ResolveSource(bucket, key, versionId);
      if found.None? {
        return Failure(H.NoSuchKey);
      }
      var m := found.value;
      if H.Shortens(m, retainUntil) {
        return Failure(H.AccessForbidden);
      }
      var lock := ObjectLock(Some(Retention(retainUntil)), m.objectLock.Some? && m.objectLock.value.legalHold);
      var committed := store.UpdateLock(m.key, Some(lock));
      reply := Finish(committed, {});
    }

    method PutLegalHold(bucket: Bytes, key: Bytes, versionId: Option<Bytes>, on: bool, env: H.Env)
      returns (reply: Result<(), H.HandlerError>)
      modifies store`objects, store`parts, disk`files
      ensures H.Step(State(), reply) == H.PutLegalHold(old(State()), bucket, key, versionId, on, env)
    {
      var found := ResolveSource(bucket, key, versionId);
      if found.None? {
        return Failure(H.NoSuchKey);
      }
      var m := found.value;
      var lock := ObjectLock(if m.objectLock.Some? then m.objectLock.value.retention else None, on);
      var committed := store.UpdateLock(m.key, Some(lock));
      reply := Finish(committed, {});
    }

    // ---- maintenance ----

    /** Judge one manifest by the first rule that applies and carry the verdict out. */
    method EvaluateManifest(m: Manifest, isCurrent: bool, rules: seq<LifecycleRule>, cfg: BucketConfig,
          c: L.Clock, before: L.Report)
      returns (report: L.Report, failed: Option<MetaError>)
      requires rules == L.Active(cfg.lifecycleRules)
      modifies store`objects, store`parts
      ensures L.Sweep(store.Tables(), report, failed)
           == L.Treat(L.Sweep(old(store.Tables()), before, None), L.Job(m, isCurrent), cfg, c)
    {
      report, failed := before, None;
      match m.state
      case InProgress =>
        for i := 0 to |rules|
          invariant forall j :: 0 <= j < i ==> !(L.Matches(rules[j], m) && L.Due(rules[j].abortDays, m, c.now))
        {
          if !L.Matches(rules[i], m) {
            continue;
          }
          if L.Due(rules[i].abortDays, m, c.now) {
            assert L.AbortDue(rules, m, c.now);
            report, failed := CarryOut(m, L.Abort, cfg, c, before);
            return;
          }
        }
      case Committed =>
        if m.Locked(c.now) {
          return;
        }
        for i := 0 to |rules|
          invariant forall j :: 0 <= j < i ==>
                      !(isCurrent && m.kind == Object && L.Matches(rules[j], m)
                        && L.Due(rules[j].expirationDays, m, c.now))
          invariant forall j :: 0 <= j < i ==>
                      !(!isCurrent && L.Matches(rules[j], m) && L.Due(rules[j].noncurrentDays, m, c.now))
        {
          if !L.Matches(rules[i], m) {
            continue;
          }
          if isCurrent && m.kind == Object && L.Due(rules[i].expirationDays, m, c.now) {
            assert L.ExpirationDue(rules, m, c.now);
            report, failed := CarryOut(m, L.ExpireCurrent, cfg, c, before);
            return;
          }
          if !isCurrent && L.Due(rules[i].noncurrentDays, m, c.now) {
            assert L.NoncurrentDue(rules, m, c.now);
            report, failed := CarryOut(m, L.ExpireNoncurrent, cfg, c, before);
            return;
          }
        }
      case Aborted =>
        report, failed := CarryOut(m, L.Abort, cfg, c, before);
    }

    method CarryOut(m: Manifest, v: L.Verdict, cfg: BucketConfig, c: L.Clock, before: L.Report)
      returns (report: L.Report, failed: Option<MetaError>)
      requires v != L.Keep
      modifies store`objects, store`parts
      ensures var o := L.Transaction(old(store.Tables()), m, v, cfg.versioning, c);
        && store.Tables() == After(old(store.Tables()), o)
        && report == (if o.Success? then L.Noted(before, v) else before)
        && failed == if o.Success? then None else Some(o.error)
    {
      var done: Result<seq<Hash>, MetaError>;
      if v == L.ExpireCurrent && cfg.versioning != Off {
        done := store.PutManifest(L.Marker(m, L.MarkerId(m, cfg.versioning, c), c.now), c.now);
      } else {
        done := store.DeleteManifest(m.key);
      }
      match done
      case Failure(e) =>
        return before, Some(e);
      case Success(_) =>
        report, failed := L.Noted(before, v), None;
    }

    /** All versions of one key. */
    method SweepKey(versions: seq<Manifest>, rules: seq<LifecycleRule>, cfg: BucketConfig, c: L.Clock, before: L.Report)
      returns (report: L.Report, failed: Option<MetaError>)
      requires rules == L.Active(cfg.lifecycleRules)
      modifies store`objects, store`parts
      ensures L.Sweep(store.Tables(), report, failed)
           == L.TreatAll(L.Sweep(old(store.Tables()), before, None), L.JobsOf(versions, L.CurrentId(versions)), cfg, c)
    {
      report, failed := before, None;
      var currentId := L.CurrentId(versions);
      ghost var jobs := L.JobsOf(versions, currentId);
      assert jobs[0..] == jobs;
      for i := 0 to |versions|
        invariant failed == None
        invariant L.TreatAll(L.Sweep(old(store.Tables()), before, None), jobs, cfg, c)
               == L.TreatAll(L.Sweep(store.Tables(), report, None), jobs[i..], cfg, c)
      {
        assert jobs[i..][1..] == jobs[i + 1..];
        report, failed :=
          EvaluateManifest(versions[i], currentId == Some(versions[i].key.versionId), rules, cfg, c, report);
        if failed.Some? {
          L.FailedStays(L.Sweep(store.Tables(), report, failed), jobs[i + 1..], cfg, c);
          return;
        }
      }
    }

    method GroupByKeys(manifests: seq<Manifest>) returns (byKey: map<Bytes, seq<Manifest>>)
      ensures byKey == GroupByKey(manifests)
    {
      byKey := map[];
      for i := 0 to |manifests|
        invariant byKey == GroupByKey(manifests[..i])
      {
        var m := manifests[i];
        assert manifests[..i + 1][..i] == manifests[..i];
        byKey := byKey[m.key.key := (if m.key.key in byKey then byKey[m.key.key] else []) + [m]];
      }
      assert manifests[..|manifests|] == manifests;
    }

    method SweepBucket(name: Bytes, cfg: BucketConfig, c: L.Clock, before: L.Report)
      returns (report: L.Report, failed: Option<MetaError>)
      modifies store`objects, store`parts
      ensures L.Sweep(store.Tables(), report, failed)
           == L.SweepBucket(L.Sweep(old(store.Tables()), before, None), name, cfg, c)
    {
      report, failed := before, None;
      var rules := L.Active(cfg.lifecycleRules);
      if rules == [] {
        return;
      }
      var manifests := store.ListAllManifestsInBucket(name);
      var byKey := GroupByKeys(manifests);
      SortedSpec(byKey.Keys);
      var ks := Sorted(byKey.Keys);
      ghost var s0 := L.Sweep(store.Tables(), before, None);
      assert ks[0..] == ks;
      for i := 0 to |ks|
        invariant failed == None
        invariant L.TreatAll(s0, L.Worklist(byKey, ks), cfg, c)
               == L.TreatAll(L.Sweep(store.Tables(), report, None), L.Worklist(byKey, ks[i..]), cfg, c)
      {
        assert ks[i..][1..] == ks[i + 1..] && ks[i] in ks;
        var versions := NewestFirst(byKey[ks[i]]);
        ghost var s := L.Sweep(store.Tables(), report, None);
        L.TreatAllConcat(s, L.JobsOf(versions, L.CurrentId(versions)), L.Worklist(byKey, ks[i + 1..]), cfg, c);
        report, failed := SweepKey(versions, rules, cfg, c, report);
        if failed.Some? {
          L.FailedStays(L.Sweep(store.Tables(), report, failed), L.Worklist(byKey, ks[i + 1..]), cfg, c);
          return;
        }
      }
    }

    /** Every bucket in name order. */
    method SweepLifecycle(c: L.Clock) returns (report: L.Report, failed: Option<MetaError>)
      modifies store`objects, store`parts
      ensures L.Sweep(store.Tables(), report, failed) == L.SweepLifecycle(old(store.Tables()), store.buckets, c)
    {
      report, failed := L.Report(0, 0, 0, 0), None;
      SortedSpec(store.buckets.Keys);
      var names := Sorted(store.buckets.Keys);
      ghost var s0 := L.Sweep(store.Tables(), report, None);
      assert names[0..] == names;
      for i := 0 to |names|
        invariant failed == None
        invariant L.SweepBuckets(s0, names, store.buckets, c)
               == L.SweepBuckets(L.Sweep(store.Tables(), report, None), names[i..], store.buckets, c)
      {
        assert names[i..][1..] == names[i + 1..] && names[i] in names;
        report, failed := SweepBucket(names[i], store.buckets[names[i]], c, report);
        if failed.Some? {
          L.FailedStaysThroughout(L.Sweep(store.Tables(), report, failed), names[i + 1..], store.buckets, c);
          return;
        }
      }
    }

    method Maintain(env: H.Env) returns (reply: Result<(), H.HandlerError>, report: L.Report)
      modifies store`objects, store`parts, disk`files
      ensures (H.Step(State(), reply), report) == H.Maintain(old(State()), env)
    {
      var swept, failed := SweepLifecycle(L.Clock(env.now, env.markerIds));
      if failed.Some? {
        return Failure(H.Internal(failed.value)), L.Report(0, 0, 0, 0);
      }
      var removed := SweepGc(env.stuck);
      reply, report := Success(()), swept.(gcPartsRemoved := removed);
    }

    /** Copy the part files of all manifests in all buckets (src/admin.rs:57-107). */
    method Backup() returns (manifests: nat, copied: C.Files, missing: set<Hash>)
      requires WellFormed(store.objects) && forall b :: b in store.buckets ==> NulFree(b)
      ensures manifests == |BackedUpRows(State())|
      ensures missing == BackupSet(State()) - disk.files.Keys
      ensures copied.Keys == BackupSet(State()) - missing && forall h :: h in copied ==> copied[h] == disk.files[h]
    {
      var referenced;
      manifests, referenced := ReferencedHashes();
      copied, missing := CopyFiles(referenced);
    }

    /** The hashes that the manifests of all buckets name, bucket by bucket. */
    method ReferencedHashes() returns (manifests: nat, referenced: set<Hash>)
      requires WellFormed(store.objects) && forall b :: b in store.buckets ==> NulFree(b)
      ensures manifests == |BackedUpRows(State())| && referenced == BackupSet(State())
    {
      SortedSpec(store.buckets.Keys);
      var names := Sorted(store.buckets.Keys);
      referenced := {};
      manifests := 0;
      for i := 0 to |names|
        invariant manifests == |L.RowsOf(store.objects, names[..i])|
        invariant referenced == HashesOf(store.objects, L.RowsOf(store.objects, names[..i]))
      {
        assert names[i] in names;
        var ms := store.ListAllManifestsInBucket(names[i]);
        var hashes := CollectHashes(ms);
        NextBucket(store.objects, names, i);
        manifests, referenced := manifests + |ms|, referenced + hashes;
      }
      assert names[..|names|] == names;
      assert L.RowsOf(store.objects, names) == BackedUpRows(State());
    }

    method CopyFiles(hashes: set<Hash>) returns (copied: C.Files, missing: set<Hash>)
      ensures missing == hashes - disk.files.Keys
      ensures copied.Keys == hashes - missing && forall h :: h in copied ==> copied[h] == disk.files[h]
    {
      copied, missing := map h | h in hashes && h in disk.files :: disk.files[h], hashes - disk.files.Keys;
    }

    static method CollectHashes(ms: seq<Manifest>) returns (hashes: set<Hash>)
      ensures hashes == HashesIn(ms)
    {
      hashes := {};
      for i := 0 to |ms|
        invariant hashes == HashesIn(ms[..i])
      {
        var refs := ms[i].parts;
        ghost var before := hashes;
        for j := 0 to |refs|
          invariant hashes == before + set k | 0 <= k < j :: refs[k].hash
        {
          hashes := hashes + {refs[j].hash};
        }
        assert ms[..i + 1] == ms[..i] + [ms[i]];
        assert HashesIn(ms[..i + 1]) == HashesIn(ms[..i]) + set k | 0 <= k < |refs| :: refs[k].hash;
      }
      assert ms[..|ms|] == ms;
    }
  }
}
