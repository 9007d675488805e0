/** The events of the collection protocol that each handler goes through, and that they are disciplined:
    handlers commit only what they acquired, and while they run one after the other their collection
    passes meet both hypotheses about the collector. */
module GcRefinement {
  import opened Results
  import opened ByteStrings
  import opened Manifests
  import opened KeyOrder
  import opened Refcounts
  import opened Transactions
  import opened GcProtocol
  import opened GcSafety
  import opened Scans
  import opened MetaStore
  import opened Lifecycle
  import opened SweepSafety
  import opened Collection
  import opened Handlers
  import opened Uploads
  import opened Invariants

  function WorldWith(t: Tables, files: set<Hash>): World {
    World(t, files, map[], map[])
  }

  /** Between two requests nobody holds anything and no collector is at work. */
  function WorldOf(s: Site): World {
    WorldWith(s.tables, s.files.Keys)
  }

  /** The events are disciplined and lead from one world to the other. */
  ghost predicate Leads(w: World, es: seq<Event>, v: World) {
    Disciplined(w, es) && Run(w, es) == v
  }

  ghost predicate Allowed(w: World, e: Event) {
    Acquired(w, e) && CountersFit(w, e) && OneTaskPerPart(w, e) && NoRemovalUnderHolder(w, e)
  }

  lemma LeadsNowhere(w: World)
    ensures Leads(w, [], w)
  {
  }

  lemma LeadsOn(u: World, a: seq<Event>, v: World, b: seq<Event>, w: World)
    requires Leads(u, a, v) && Leads(v, b, w)
    ensures Leads(u, a + b, w)
  {
    FollowsConcat(u, a, b, true, true);
  }

  lemma OneEvent(w: World, e: Event)
    requires Allowed(w, e)
    ensures Leads(w, [e], Exec(w, e))
  {
    FollowsStep(w, e, [], true, true);
    assert [e] + [] == [e];
  }

  lemma TwoEvents(w: World, e: Event, f: Event)
    requires Allowed(w, e) && Allowed(Exec(w, e), f)
    ensures Leads(w, [e, f], Exec(Exec(w, e), f))
  {
    OneEvent(w, e);
    OneEvent(Exec(w, e), f);
    LeadsOn(w, [e], Exec(w, e), [f], Exec(Exec(w, e), f));
    assert [e] + [f] == [e, f];
  }

  lemma ThreeEvents(w: World, e: Event, f: Event, g: Event)
    requires Allowed(w, e) && Allowed(Exec(w, e), f) && Allowed(Exec(Exec(w, e), f), g)
    ensures Leads(w, [e, f, g], Exec(Exec(Exec(w, e), f), g))
  {
    var v := Exec(Exec(w, e), f);
    TwoEvents(w, e, f);
    OneEvent(v, g);
    LeadsOn(w, [e, f], v, [g], Exec(v, g));
    assert [e, f] + [g] == [e, f, g];
  }

  // ---- the events of a collection ----

  /** The inline pass asks for every freed part; a marked one is unlinked, or not, and its row removed. */
  function CollectOneEvents(s: Storage, h: Hash, stuck: set<Hash>): seq<Event> {
    if Collectable(s.parts, h) then [Mark(0, h), if h in stuck then UnlinkFails(0) else Unlink(0), Remove(0)]
    else [Mark(0, h)]
  }

  function CollectEvents(s: Storage, freed: seq<Hash>, stuck: set<Hash>): seq<Event>
    decreases |freed|
  {
    if freed == [] then []
    else CollectOneEvents(s, freed[0], stuck) + CollectEvents(CollectOne(s, freed[0], stuck), freed[1..], stuck)
  }

  /** The sweep gives a part up when unlinking fails. */
  function SweepOneEvents(s: Storage, h: Hash, stuck: set<Hash>): seq<Event> {
    if Collectable(s.parts, h) && h in stuck then [Mark(0, h), UnlinkFails(0), GiveUp(0)]
    else CollectOneEvents(s, h, stuck)
  }

  function SweepEvents(s: Storage, hs: seq<Hash>, stuck: set<Hash>): seq<Event>
    decreases |hs|
  {
    if hs == [] then []
    else SweepOneEvents(s, hs[0], stuck) + SweepEvents(SweepOne(s, hs[0], stuck).0, hs[1..], stuck)
  }

  /** The world of an object table, a part table and part files. */
  function WorldOfStorage(o: Objects, s: Storage): World {
    WorldWith(Tables(o, s.parts), s.files.Keys)
  }

  lemma MarkedWorld(o: Objects, s: Storage, h: Hash)
    requires Collectable(s.parts, h)
    ensures var e := Mark(0, h);
      && Allowed(WorldOfStorage(o, s), e)
      && Exec(WorldOfStorage(o, s), e)
         == World(Tables(o, s.parts[h := s.parts[h].(state := GcPending)]), s.files.Keys,
                   map[], map[0 := Task(h, false)])
  {
  }

  lemma RemovedWorld(o: Objects, parts: Parts, files: set<Hash>, h: Hash)
    ensures var w := World(Tables(o, parts), files, map[], map[0 := Task(h, true)]);
      && Allowed(w, Remove(0)) && Exec(w, Remove(0)) == WorldWith(Tables(o, parts - {h}), files)
      && Allowed(w, GiveUp(0)) && Exec(w, GiveUp(0)) == WorldWith(Tables(o, parts), files)
  {
    assert map[0 := Task(h, true)] - {0} == map[];
  }

  lemma UnlinkedWorld(o: Objects, parts: Parts, files: set<Hash>, h: Hash, fails: bool)
    ensures var w := World(Tables(o, parts), files, map[], map[0 := Task(h, false)]);
      var e := if fails then UnlinkFails(0) else Unlink(0);
      && Allowed(w, e)
      && Exec(w, e) == World(Tables(o, parts), if fails then files else files - {h}, map[], map[0 := Task(h, true)])
  {
    assert map[0 := Task(h, false)][0 := Task(h, true)] == map[0 := Task(h, true)];
  }

  lemma CollectOneLeads(o: Objects, s: Storage, h: Hash, stuck: set<Hash>)
    ensures Leads(WorldOfStorage(o, s), CollectOneEvents(s, h, stuck), WorldOfStorage(o, CollectOne(s, h, stuck)))
  {
    var w := WorldOfStorage(o, s);
    if Collectable(s.parts, h) {
      var pending := s.parts[h := s.parts[h].(state := GcPending)];
      var unlink := if h in stuck then UnlinkFails(0) else Unlink(0);
      MarkedWorld(o, s, h);
      UnlinkedWorld(o, pending, s.files.Keys, h, h in stuck);
      RemovedWorld(o, pending, if h in stuck then s.files.Keys else s.files.Keys - {h}, h);
      ThreeEvents(w, Mark(0, h), unlink, Remove(0));
      assert (s.files - {h}).Keys == s.files.Keys - {h};
    } else {
      assert Exec(w, Mark(0, h)) == w;
      OneEvent(w, Mark(0, h));
    }
  }

  lemma {:induction false} CollectLeads(o: Objects, s: Storage, freed: seq<Hash>, stuck: set<Hash>)
    ensures Leads(WorldOfStorage(o, s), CollectEvents(s, freed, stuck),
                  WorldOfStorage(o, CollectFreed(s, freed, stuck)))
    decreases |freed|
  {
    if freed == [] {
      LeadsNowhere(WorldOfStorage(o, s));
    } else {
      var next := CollectOne(s, freed[0], stuck);
      CollectOneLeads(o, s, freed[0], stuck);
      CollectLeads(o, next, freed[1..], stuck);
      LeadsOn(WorldOfStorage(o, s), CollectOneEvents(s, freed[0], stuck), WorldOfStorage(o, next),
              CollectEvents(next, freed[1..], stuck), WorldOfStorage(o, CollectFreed(next, freed[1..], stuck)));
    }
  }

  lemma SweepOneLeads(o: Objects, s: Storage, h: Hash, stuck: set<Hash>)
    ensures Leads(WorldOfStorage(o, s), SweepOneEvents(s, h, stuck), WorldOfStorage(o, SweepOne(s, h, stuck).0))
  {
    if Collectable(s.parts, h) && h in stuck {
      var pending := s.parts[h := s.parts[h].(state := GcPending)];
      MarkedWorld(o, s, h);
      UnlinkedWorld(o, pending, s.files.Keys, h, true);
      RemovedWorld(o, pending, s.files.Keys, h);
      ThreeEvents(WorldOfStorage(o, s), Mark(0, h), UnlinkFails(0), GiveUp(0));
    } else {
      CollectOneLeads(o, s, h, stuck);
    }
  }

  lemma {:induction false} SweepLeads(o: Objects, s: Storage, hs: seq<Hash>, stuck: set<Hash>)
    ensures Leads(WorldOfStorage(o, s), SweepEvents(s, hs, stuck), WorldOfStorage(o, SweepParts(s, hs, stuck).0))
    decreases |hs|
  {
    if hs == [] {
      LeadsNowhere(WorldOfStorage(o, s));
    } else {
      var next := SweepOne(s, hs[0], stuck).0;
      SweepOneLeads(o, s, hs[0], stuck);
      SweepLeads(o, next, hs[1..], stuck);
      LeadsOn(WorldOfStorage(o, s), SweepOneEvents(s, hs[0], stuck), WorldOfStorage(o, next),
              SweepEvents(next, hs[1..], stuck), WorldOfStorage(o, SweepParts(next, hs[1..], stuck).0));
    }
  }

  // ---- the events of a lifecycle pass ----

  function TreatEvents(s: Sweep, j: Job, cfg: BucketConfig, c: Clock): seq<Event> {
    var v := Judge(j.manifest, j.current, Active(cfg.lifecycleRules), c.now);
    if s.failed.Some? || v == Keep then []
    else if v == ExpireCurrent && cfg.versioning != Off then
      [Put(0, Marker(j.manifest, MarkerId(j.manifest, cfg.versioning, c), c.now), c.now)]
    else [Delete(j.manifest.key)]
  }

  function TreatAllEvents(s: Sweep, jobs: seq<Job>, cfg: BucketConfig, c: Clock): seq<Event>
    decreases |jobs|
  {
    if jobs == [] then []
    else TreatEvents(s, jobs[0], cfg, c) + TreatAllEvents(Treat(s, jobs[0], cfg, c), jobs[1..], cfg, c)
  }

  function SweepBucketEvents(s: Sweep, name: Bytes, cfg: BucketConfig, c: Clock): seq<Event> {
    if Active(cfg.lifecycleRules) == [] then [] else TreatAllEvents(s, BucketJobs(s.tables.objects, name), cfg, c)
  }

  function SweepBucketsEvents(s: Sweep, names: seq<Bytes>, buckets: Buckets, c: Clock): seq<Event>
    requires forall b :: b in names ==> b in buckets
    decreases |names|
  {
    if names == [] then []
    else
      assert names[0] in names;
      SweepBucketEvents(s, names[0], buckets[names[0]], c)
      + SweepBucketsEvents(SweepBucket(s, names[0], buckets[names[0]], c), names[1..], buckets, c)
  }

  function LifecycleEvents(t: Tables, buckets: Buckets, c: Clock): seq<Event> {
    SortedSpec(buckets.Keys);
    SweepBucketsEvents(Sweep(t, Report(0, 0, 0, 0), None), Sorted(buckets.Keys), buckets, c)
  }

  lemma MarkerPutAllowed(t: Tables, mark: Manifest, now: Time, files: set<Hash>)
    requires Consistent(t) && mark.parts == []
    ensures Allowed(WorldWith(t, files), Put(0, mark, now))
    ensures Exec(WorldWith(t, files), Put(0, mark, now)) == WorldWith(After(t, PutManifest(t, mark, now)), files)
  {
    forall h
      ensures PutFits(t, mark, h)
    {
      assert Sound(t, h);
    }
    ReleasedHolder(map[], {});
  }

  lemma TreatLeads(s: Sweep, j: Job, cfg: BucketConfig, c: Clock, files: set<Hash>)
    requires Consistent(s.tables)
    ensures Leads(WorldWith(s.tables, files), TreatEvents(s, j, cfg, c), WorldWith(Treat(s, j, cfg, c).tables, files))
  {
    var v := Judge(j.manifest, j.current, Active(cfg.lifecycleRules), c.now);
    var w := WorldWith(s.tables, files);
    if s.failed.Some? || v == Keep {
      LeadsNowhere(w);
    } else if v == ExpireCurrent && cfg.versioning != Off {
      var mark := Marker(j.manifest, MarkerId(j.manifest, cfg.versioning, c), c.now);
      PutWithoutParts(s.tables, mark, c.now);
      MarkerPutAllowed(s.tables, mark, c.now, files);
      OneEvent(w, Put(0, mark, c.now));
    } else {
      OneEvent(w, Delete(j.manifest.key));
    }
  }

  lemma {:induction false} TreatAllLeads(s: Sweep, jobs: seq<Job>, cfg: BucketConfig, c: Clock,
        buckets: Buckets, files: set<Hash>)
    requires Consistent(s.tables) && WellFormed(s.tables.objects) && forall j :: j in jobs ==> ProperJob(j, buckets)
    ensures Leads(WorldWith(s.tables, files), TreatAllEvents(s, jobs, cfg, c),
                  WorldWith(TreatAll(s, jobs, cfg, c).tables, files))
    decreases |jobs|
  {
    if jobs == [] {
      LeadsNowhere(WorldWith(s.tables, files));
    } else {
      assert jobs[0] in jobs;
      var next := Treat(s, jobs[0], cfg, c);
      TreatLeads(s, jobs[0], cfg, c, files);
      TreatKeeps(s, jobs[0], cfg, c, buckets);
      TreatAllLeads(next, jobs[1..], cfg, c, buckets, files);
      LeadsOn(WorldWith(s.tables, files), TreatEvents(s, jobs[0], cfg, c), WorldWith(next.tables, files),
              TreatAllEvents(next, jobs[1..], cfg, c), WorldWith(TreatAll(next, jobs[1..], cfg, c).tables, files));
    }
  }

  lemma SweepBucketLeads(s: Sweep, name: Bytes, buckets: Buckets, c: Clock, files: set<Hash>)
    requires Consistent(s.tables) && WellFormed(s.tables.objects) && name in buckets && NulFree(name)
    ensures Leads(WorldWith(s.tables, files), SweepBucketEvents(s, name, buckets[name], c),
                  WorldWith(SweepBucket(s, name, buckets[name], c).tables, files))
  {
    LeadsNowhere(WorldWith(s.tables, files));
    BucketJobsCover(s.tables.objects, name);
    var jobs := BucketJobs(s.tables.objects, name);
    forall j | j in jobs
      ensures ProperJob(j, buckets)
    {
      assert Has(s.tables.objects, j.manifest);
    }
    TreatAllLeads(s, jobs, buckets[name], c, buckets, files);
  }

  lemma {:induction false} SweepBucketsLead(s: Sweep, names: seq<Bytes>, buckets: Buckets, c: Clock, files: set<Hash>)
    requires Consistent(s.tables) && WellFormed(s.tables.objects)
    requires forall b :: b in names ==> b in buckets && NulFree(b)
    ensures Leads(WorldWith(s.tables, files), SweepBucketsEvents(s, names, buckets, c),
                  WorldWith(SweepBuckets(s, names, buckets, c).tables, files))
    decreases |names|
  {
    if names == [] {
      LeadsNowhere(WorldWith(s.tables, files));
    } else {
      var name := names[0];
      assert name in names;
      var next := SweepBucket(s, name, buckets[name], c);
      SweepBucketLeads(s, name, buckets, c, files);
      SweepBucketKeeps(s, name, buckets, c);
      SweepBucketsLead(next, names[1..], buckets, c, files);
      LeadsOn(WorldWith(s.tables, files), SweepBucketEvents(s, name, buckets[name], c), WorldWith(next.tables, files),
              SweepBucketsEvents(next, names[1..], buckets, c),
              WorldWith(SweepBuckets(next, names[1..], buckets, c).tables, files));
    }
  }

  lemma LifecycleLeads(t: Tables, buckets: Buckets, c: Clock, files: set<Hash>)
    requires Consistent(t) && WellFormed(t.objects) && forall b :: b in buckets ==> NulFree(b)
    ensures Leads(WorldWith(t, files), LifecycleEvents(t, buckets, c),
                  WorldWith(SweepLifecycle(t, buckets, c).tables, files))
  {
    SortedSpec(buckets.Keys);
    SweepBucketsLead(Sweep(t, Report(0, 0, 0, 0), None), Sorted(buckets.Keys), buckets, c, files);
  }

  // ---- the events of a handler ----

  /** What a committed transaction is followed by. */
  function CommitEvents(s: Site, o: Outcome, stuck: set<Hash>): seq<Event> {
    match o
    case Failure(_) => []
    case Success(c) => CollectEvents(Collection.Storage(c.tables.parts, s.files), c.freed, stuck)
  }

  /** A put of the written body, of parts read from another manifest, or of no parts at all. */
  function PutEvents(s: Site, body: Bytes, m: Manifest, env: Env): seq<Event> {
    [WriteFile(0, s.digests.contentHash(body)), Put(0, m, env.now)]
    + CommitEvents(Written(s, body), PutManifest(s.tables, m, env.now), env.stuck)
  }

  function CopyEvents(s: Site, from: ManifestKey, m: Manifest, env: Env): seq<Event> {
    [ReadManifest(0, from), Put(0, m, env.now)] + CommitEvents(s, PutManifest(s.tables, m, env.now), env.stuck)
  }

  function PutEmptyEvents(s: Site, m: Manifest, env: Env): seq<Event> {
    [Put(0, m, env.now)] + CommitEvents(s, PutManifest(s.tables, m, env.now), env.stuck)
  }

  function DeleteEvents(s: Site, key: ManifestKey, env: Env): seq<Event> {
    [Delete(key)] + CommitEvents(s, DeleteManifest(s.tables, key), env.stuck)
  }

  /** A locked version is not touched. */
  function DeleteVersionEvents(s: Site, key: ManifestKey, env: Env): seq<Event> {
    var k := Encode(key);
    if k in s.tables.objects && s.tables.objects[k].Locked(env.now) then [] else DeleteEvents(s, key, env)
  }

  function DeleteObjectEvents(s: Site, bucket: Bytes, key: Bytes, versionId: Option<Bytes>, env: Env): seq<Event> {
    if bucket !in s.buckets then []
    else if versionId.Some? then DeleteVersionEvents(s, ManifestKey(bucket, key, versionId.value), env)
    else
      var versioning := s.buckets[bucket].versioning;
      if versioning == Off then DeleteVersionEvents(s, ManifestKey(bucket, key, NULL_VERSION), env)
      else PutEmptyEvents(s, DeleteMarker(bucket, key, NextVersionId(versioning, env.newId), env.now), env)
  }

  function CopyObjectEvents(s: Site, bucket: Bytes, key: Bytes, source: Source, attributes: Option<Bytes>,
        env: Env): seq<Event> {
    var from := FindObject(s, source.bucket, source.key, source.versionId);
    if bucket !in s.buckets || from.None? then []
    else CopyEvents(s, from.value.key, CopyOf(s, bucket, key, from.value, attributes, env), env)
  }

  function UploadPartEvents(s: Site, key: ManifestKey, number: u32, body: Bytes, env: Env): seq<Event> {
    if number == 0 || number > 10_000 then []
    else
      var p := PartOf(s, number, body);
      [WriteFile(0, p.hash), Append(0, key, p, env.now)]
      + CommitEvents(Written(s, body), AppendPart(s.tables, key, p, env.now), env.stuck)
  }

  /** A completion whose parts do not fit the upload abandons what it read. */
  function CompleteEvents(s: Site, key: ManifestKey, requested: seq<RequestedPart>, env: Env): seq<Event> {
    var upload := UploadAt(s, key);
    if requested == [] || !InOrder(requested) || upload.None? then []
    else
      match Select(upload.value.parts, requested)
      case None => [ReadManifest(0, key), Abandon(0)]
      case Some(selected) =>
        var m := Completed(upload.value, key, selected, env.now);
        [ReadManifest(0, key), Complete(0, key, m, env.now)]
        + CommitEvents(s, CompleteMultipart(s.tables, key, m, env.now), env.stuck)
  }

  function RetentionEvents(s: Site, bucket: Bytes, key: Bytes, versionId: Option<Bytes>, until: Time): seq<Event> {
    match FindObject(s, bucket, key, versionId)
    case None => []
    case Some(m) => if Shortens(m, until) then [] else [SetLock(m.key, Some(RetainedLock(m, until)))]
  }

  function LegalHoldEvents(s: Site, bucket: Bytes, key: Bytes, versionId: Option<Bytes>, on: bool): seq<Event> {
    match FindObject(s, bucket, key, versionId)
    case None => []
    case Some(m) => [SetLock(m.key, Some(HeldLock(m, on)))]
  }

  function MaintainEvents(s: Site, env: Env): seq<Event> {
    var c := Clock(env.now, env.markerIds);
    var swept := SweepLifecycle(s.tables, s.buckets, c);
    LifecycleEvents(s.tables, s.buckets, c)
    + (if swept.failed.Some? then []
       else
         var storage := Collection.Storage(swept.tables.parts, s.files);
         SweepEvents(storage, Orphans(storage.parts, SortedHashes(storage.parts)), env.stuck))
  }

  /** The events that a request goes through, in order. */
  function EventsOf(s: Site, c: Call, env: Env): seq<Event> {
    match c
    case CallPut(bucket, key, body, attributes, lock) =>
      if bucket in s.buckets then PutEvents(s, body, NewObject(s, bucket, key, body, attributes, lock, env), env)
      else []
    case CallDelete(bucket, key, versionId) => DeleteObjectEvents(s, bucket, key, versionId, env)
    case CallCopy(bucket, key, source, newAttributes) => CopyObjectEvents(s, bucket, key, source, newAttributes, env)
    case CallCreateUpload(bucket, key, attributes) =>
      if bucket in s.buckets then PutEmptyEvents(s, NewUpload(bucket, key, attributes, env), env) else []
    case CallUploadPart(target, number, body) => UploadPartEvents(s, target, number, body, env)
    case CallComplete(target, requested) => CompleteEvents(s, target, requested, env)
    case CallAbort(target) => if UploadAt(s, target).Some? then DeleteEvents(s, target, env) else []
    case CallRetention(bucket, key, versionId, until) => RetentionEvents(s, bucket, key, versionId, until)
    case CallLegalHold(bucket, key, versionId, on) => LegalHoldEvents(s, bucket, key, versionId, on)
    case CallCreateBucket(_, _) => []
    case CallDeleteBucket(_) => []
    case CallConfigure(_, _) => []
    case CallSweep => MaintainEvents(s, env)
  }

  // ---- they are disciplined and do what the handler does ----

  /** The state right after a transaction, before anything is collected. */
  function Committed(s: Site, o: Outcome): Site {
    s.(tables := After(s.tables, o))
  }

  lemma CommitLeads(w: World, es: seq<Event>, s: Site, o: Outcome, stuck: set<Hash>)
    requires Leads(w, es, WorldOf(Committed(s, o)))
    ensures Leads(w, es + CommitEvents(s, o, stuck), WorldOf(Commit(s, o, stuck).site))
  {
    if o.Success? {
      var t := o.value.tables;
      CollectLeads(t.objects, Collection.Storage(t.parts, s.files), o.value.freed, stuck);
      assert Tables(t.objects, t.parts) == t;
      LeadsOn(w, es, WorldOf(Committed(s, o)), CommitEvents(s, o, stuck), WorldOf(Commit(s, o, stuck).site));
    } else {
      assert es + [] == es;
    }
  }

  lemma WriteWorld(s: Site, body: Bytes)
    ensures var h := s.digests.contentHash(body);
      && Allowed(WorldOf(s), WriteFile(0, h))
      && Exec(WorldOf(s), WriteFile(0, h)) == World(s.tables, Written(s, body).files.Keys, map[0 := {h}], map[])
  {
    var h := s.digests.contentHash(body);
    var none: set<Hash> := {};
    assert Held(WorldOf(s), 0) + {h} == none + {h} == {h};
    assert Written(s, body).files.Keys == s.files.Keys + {h};
  }

  lemma ReleasedHolder(holders: map<nat, set<Hash>>, hs: set<Hash>)
    requires holders == map[0 := hs] || holders == map[]
    ensures holders - {0} == map[]
  {
  }

  lemma PutLeads(s: Site, body: Bytes, m: Manifest, env: Env)
    requires |m.parts| == 1 && m.parts[0].hash == s.digests.contentHash(body) && forall h :: PutFits(s.tables, m, h)
    ensures Leads(WorldOf(s), PutEvents(s, body, m, env),
                  WorldOf(Commit(Written(s, body), PutManifest(s.tables, m, env.now), env.stuck).site))
  {
    var h := s.digests.contentHash(body);
    WriteWorld(s, body);
    var w := World(s.tables, Written(s, body).files.Keys, map[0 := {h}], map[]);
    assert Hashes(m.parts) <= {h};
    ReleasedHolder(w.holders, {h});
    TwoEvents(WorldOf(s), WriteFile(0, h), Put(0, m, env.now));
    CommitLeads(WorldOf(s), [WriteFile(0, h), Put(0, m, env.now)],
                Written(s, body), PutManifest(s.tables, m, env.now), env.stuck);
  }

  lemma PutEmptyLeads(s: Site, m: Manifest, env: Env)
    requires Consistent(s.tables) && m.parts == []
    ensures Leads(WorldOf(s), PutEmptyEvents(s, m, env),
                  WorldOf(Commit(s, PutManifest(s.tables, m, env.now), env.stuck).site))
  {
    MarkerPutAllowed(s.tables, m, env.now, s.files.Keys);
    OneEvent(WorldOf(s), Put(0, m, env.now));
    CommitLeads(WorldOf(s), [Put(0, m, env.now)], s, PutManifest(s.tables, m, env.now), env.stuck);
  }

  lemma ReadWorld(s: Site, key: ManifestKey)
    requires Encode(key) in s.tables.objects
    ensures var hs := Hashes(s.tables.objects[Encode(key)].parts);
      && Allowed(WorldOf(s), ReadManifest(0, key))
      && Exec(WorldOf(s), ReadManifest(0, key)) == World(s.tables, s.files.Keys, map[0 := hs], map[])
  {
    var hs := Hashes(s.tables.objects[Encode(key)].parts);
    var none: set<Hash> := {};
    assert Held(WorldOf(s), 0) + hs == none + hs == hs;
  }

  lemma CopyLeads(s: Site, from: ManifestKey, m: Manifest, env: Env)
    requires Encode(from) in s.tables.objects && m.parts == s.tables.objects[Encode(from)].parts
    requires forall h :: PutFits(s.tables, m, h)
    ensures Leads(WorldOf(s), CopyEvents(s, from, m, env),
                  WorldOf(Commit(s, PutManifest(s.tables, m, env.now), env.stuck).site))
  {
    var hs := Hashes(m.parts);
    ReadWorld(s, from);
    ReleasedHolder(map[0 := hs], hs);
    TwoEvents(WorldOf(s), ReadManifest(0, from), Put(0, m, env.now));
    CommitLeads(WorldOf(s), [ReadManifest(0, from), Put(0, m, env.now)],
                s, PutManifest(s.tables, m, env.now), env.stuck);
  }

  lemma DeleteLeads(s: Site, key: ManifestKey, env: Env)
    ensures Leads(WorldOf(s), DeleteEvents(s, key, env),
                  WorldOf(Commit(s, DeleteManifest(s.tables, key), env.stuck).site))
  {
    OneEvent(WorldOf(s), Delete(key));
    CommitLeads(WorldOf(s), [Delete(key)], s, DeleteManifest(s.tables, key), env.stuck);
  }

  lemma LockLeads(s: Site, key: ManifestKey, lock: Option<ObjectLock>)
    ensures Leads(WorldOf(s), [SetLock(key, lock)], WorldOf(Commit(s, UpdateLock(s.tables, key, lock), {}).site))
  {
    OneEvent(WorldOf(s), SetLock(key, lock));
    CommitLeads(WorldOf(s), [SetLock(key, lock)], s, UpdateLock(s.tables, key, lock), {});
    assert [SetLock(key, lock)] + [] == [SetLock(key, lock)];
  }

  lemma AppendFits(t: Tables, key: ManifestKey, p: PartRef, now: Time)
    requires References(t.objects, p.hash) < MAX_COUNT
    ensures ReferencesFit(After(t, AppendPart(t, key, p, now)).objects, p.hash)
  {
    if AppendPart(t, key, p, now).Success? {
      AppendReferences(t.objects, Encode(key), p, now, p.hash);
    }
  }

  lemma AppendLeads(s: Site, key: ManifestKey, p: PartRef, body: Bytes, now: Time)
    requires p.hash == s.digests.contentHash(body) && References(s.tables.objects, p.hash) < MAX_COUNT
    ensures Leads(WorldOf(s), [WriteFile(0, p.hash), Append(0, key, p, now)],
                  WorldOf(Committed(Written(s, body), AppendPart(s.tables, key, p, now))))
  {
    WriteWorld(s, body);
    AppendFits(s.tables, key, p, now);
    ReleasedHolder(map[0 := {p.hash}], {p.hash});
    TwoEvents(WorldOf(s), WriteFile(0, p.hash), Append(0, key, p, now));
  }

  lemma CompleteFits(t: Tables, key: ManifestKey, m: Manifest, now: Time, h: Hash)
    requires Encode(key) != Encode(m.key) && References(t.objects, h) + Count(m.parts, h) <= MAX_COUNT
    ensures ReferencesFit(After(t, CompleteMultipart(t, key, m, now)).objects, h)
  {
    if CompleteMultipart(t, key, m, now).Success? {
      CompleteReferences(t.objects, Encode(key), Encode(m.key), m, h);
    }
  }

  lemma CompleteLeads(s: Site, key: ManifestKey, m: Manifest, now: Time)
    requires Encode(key) in s.tables.objects && Encode(key) != Encode(m.key)
    requires forall i :: 0 <= i < |m.parts| ==> m.parts[i] in s.tables.objects[Encode(key)].parts
    requires forall h :: References(s.tables.objects, h) + Count(m.parts, h) <= MAX_COUNT
    ensures Leads(WorldOf(s), [ReadManifest(0, key), Complete(0, key, m, now)],
                  WorldOf(Committed(s, CompleteMultipart(s.tables, key, m, now))))
  {
    var refs := s.tables.objects[Encode(key)].parts;
    ReadWorld(s, key);
    forall h
      ensures ReferencesFit(After(s.tables, CompleteMultipart(s.tables, key, m, now)).objects, h)
    {
      CompleteFits(s.tables, key, m, now, h);
    }
    assert Hashes(m.parts) <= Hashes(refs);
    ReleasedHolder(map[0 := Hashes(refs)], Hashes(refs));
    TwoEvents(WorldOf(s), ReadManifest(0, key), Complete(0, key, m, now));
  }

  lemma AbandonLeads(s: Site, key: ManifestKey)
    requires Encode(key) in s.tables.objects
    ensures Leads(WorldOf(s), [ReadManifest(0, key), Abandon(0)], WorldOf(s))
  {
    var hs := Hashes(s.tables.objects[Encode(key)].parts);
    ReadWorld(s, key);
    ReleasedHolder(map[0 := hs], hs);
    TwoEvents(WorldOf(s), ReadManifest(0, key), Abandon(0));
  }

  // ---- handler by handler ----

  lemma PutObjectLeads(s: Site, c: Call, env: Env)
    requires Healthy(s) && c.CallPut? && RequestFits(s, c)
    ensures Leads(WorldOf(s), EventsOf(s, c, env), WorldOf(Handle(s, c, env).site))
  {
    LeadsNowhere(WorldOf(s));
    if c.bucket in s.buckets {
      var m := NewObject(s, c.bucket, c.key, c.body, c.attributes, c.lock, env);
      forall h
        ensures PutFits(s.tables, m, h)
      {
        assert References(s.tables.objects, h) + Count(Taken(s, c), h) <= MAX_COUNT;
      }
      PutLeads(s, c.body, m, env);
    }
  }

  lemma DeleteVersionLeads(s: Site, key: ManifestKey, env: Env)
    ensures Leads(WorldOf(s), DeleteVersionEvents(s, key, env), WorldOf(DeleteSpecificVersion(s, key, env).site))
  {
    LeadsNowhere(WorldOf(s));
    DeleteLeads(s, key, env);
  }

  lemma DeleteObjectLeads(s: Site, bucket: Bytes, key: Bytes, versionId: Option<Bytes>, env: Env)
    requires Healthy(s)
    ensures Leads(WorldOf(s), DeleteObjectEvents(s, bucket, key, versionId, env),
                  WorldOf(DeleteObject(s, bucket, key, versionId, env).site))
  {
    LeadsNowhere(WorldOf(s));
    if bucket in s.buckets {
      var versioning := s.buckets[bucket].versioning;
      if versionId.Some? {
        DeleteVersionLeads(s, ManifestKey(bucket, key, versionId.value), env);
      } else if versioning == Off {
        DeleteVersionLeads(s, ManifestKey(bucket, key, NULL_VERSION), env);
      } else {
        PutEmptyLeads(s, DeleteMarker(bucket, key, NextVersionId(versioning, env.newId), env.now), env);
      }
    }
  }

  lemma CopyObjectLeads(s: Site, c: Call, env: Env)
    requires Healthy(s) && c.CallCopy? && ProperCall(c) && RequestFits(s, c)
    ensures Leads(WorldOf(s), EventsOf(s, c, env), WorldOf(Handle(s, c, env).site))
  {
    LeadsNowhere(WorldOf(s));
    var r := FindObject(s, c.source.bucket, c.source.key, c.source.versionId);
    if c.bucket in s.buckets && r.Some? {
      ResolvedIsRow(s, c.source.bucket, c.source.key, c.source.versionId);
      var m := CopyOf(s, c.bucket, c.key, r.value, c.newAttributes, env);
      assert forall h :: PutFits(s.tables, m, h);
      CopyLeads(s, r.value.key, m, env);
    }
  }

  lemma UploadPartLeads(s: Site, key: ManifestKey, number: u32, body: Bytes, env: Env)
    requires RequestFits(s, CallUploadPart(key, number, body))
    ensures Leads(WorldOf(s), UploadPartEvents(s, key, number, body, env),
                  WorldOf(UploadPart(s, key, number, body, env).site))
  {
    LeadsNowhere(WorldOf(s));
    if 0 < number <= 10_000 {
      var p := PartOf(s, number, body);
      assert [p][1..] == [];
      assert References(s.tables.objects, p.hash) + Count([p], p.hash) <= MAX_COUNT;
      AppendLeads(s, key, p, body, env.now);
      CommitLeads(WorldOf(s), [WriteFile(0, p.hash), Append(0, key, p, env.now)], Written(s, body),
                  AppendPart(s.tables, key, p, env.now), env.stuck);
    }
  }

  lemma CompleteUploadLeads(s: Site, key: ManifestKey, requested: seq<RequestedPart>, env: Env)
    requires Healthy(s) && ProperKey(key) && RequestFits(s, CallComplete(key, requested))
    ensures Leads(WorldOf(s), CompleteEvents(s, key, requested, env),
                  WorldOf(CompleteUpload(s, key, requested, env).site))
  {
    LeadsNowhere(WorldOf(s));
    var upload := UploadAt(s, key);
    if requested != [] && InOrder(requested) && upload.Some? {
      var selected := Select(upload.value.parts, requested);
      if selected.Some? {
        SelectedLeads(s, key, requested, selected.value, env);
      } else {
        AbandonLeads(s, key);
      }
    }
  }

  lemma SelectedLeads(s: Site, key: ManifestKey, requested: seq<RequestedPart>, selected: seq<PartRef>, env: Env)
    requires Healthy(s) && ProperKey(key) && RequestFits(s, CallComplete(key, requested))
    requires UploadAt(s, key).Some? && Select(UploadAt(s, key).value.parts, requested) == Some(selected)
    ensures var m := Completed(UploadAt(s, key).value, key, selected, env.now);
      var o := CompleteMultipart(s.tables, key, m, env.now);
      Leads(WorldOf(s), [ReadManifest(0, key), Complete(0, key, m, env.now)] + CommitEvents(s, o, env.stuck),
            WorldOf(Commit(s, o, env.stuck).site))
  {
    var upload := UploadAt(s, key).value;
    var m := Completed(upload, key, selected, env.now);
    assert Has(s.tables.objects, upload) && RowOk(s, upload);
    EncodeIsInjective(upload.key, key);
    EncodeIsInjective(m.key, key);
    SelectExactly(upload.parts, requested);
    CompleteLeads(s, key, m, env.now);
    CommitLeads(WorldOf(s), [ReadManifest(0, key), Complete(0, key, m, env.now)], s,
                CompleteMultipart(s.tables, key, m, env.now), env.stuck);
  }

  lemma RetentionLeads(s: Site, bucket: Bytes, key: Bytes, versionId: Option<Bytes>, until: Time, env: Env)
    ensures Leads(WorldOf(s), RetentionEvents(s, bucket, key, versionId, until),
                  WorldOf(PutRetention(s, bucket, key, versionId, until, env).site))
  {
    LeadsNowhere(WorldOf(s));
    var r := FindObject(s, bucket, key, versionId);
    if r.Some? {
      LockLeads(s, r.value.key, Some(RetainedLock(r.value, until)));
    }
  }

  lemma LegalHoldLeads(s: Site, bucket: Bytes, key: Bytes, versionId: Option<Bytes>, on: bool, env: Env)
    ensures Leads(WorldOf(s), LegalHoldEvents(s, bucket, key, versionId, on),
                  WorldOf(PutLegalHold(s, bucket, key, versionId, on, env).site))
  {
    LeadsNowhere(WorldOf(s));
    var r := FindObject(s, bucket, key, versionId);
    if r.Some? {
      LockLeads(s, r.value.key, Some(HeldLock(r.value, on)));
    }
  }

  lemma MaintainLeads(s: Site, env: Env)
    requires Healthy(s)
    ensures Leads(WorldOf(s), MaintainEvents(s, env), WorldOf(Maintain(s, env).0.site))
  {
    var c := Clock(env.now, env.markerIds);
    var swept := SweepLifecycle(s.tables, s.buckets, c);
    var first := LifecycleEvents(s.tables, s.buckets, c);
    LifecycleLeads(s.tables, s.buckets, c, s.files.Keys);
    if swept.failed.None? {
      var storage := Collection.Storage(swept.tables.parts, s.files);
      var hs := Orphans(storage.parts, SortedHashes(storage.parts));
      SweepLeads(swept.tables.objects, storage, hs, env.stuck);
      assert Tables(swept.tables.objects, swept.tables.parts) == swept.tables;
      LeadsOn(WorldOf(s), first, WorldWith(swept.tables, s.files.Keys), SweepEvents(storage, hs, env.stuck),
              WorldOf(Maintain(s, env).0.site));
    } else {
      assert first + [] == first;
    }
  }

  /** On a healthy server the events of every handler are disciplined, and they lead to the tables and files
      that the handler leaves, with nothing held and no collector at work. */
  lemma HandlersAreDisciplined(s: Site, c: Call, env: Env)
    requires Healthy(s) && Admissible(s, Request(c, env))
    ensures Disciplined(WorldOf(s), EventsOf(s, c, env))
    ensures Run(WorldOf(s), EventsOf(s, c, env)) == WorldOf(Handle(s, c, env).site)
  {
    LeadsNowhere(WorldOf(s));
    match c
    case CallPut(_, _, _, _, _) => PutObjectLeads(s, c, env);
    case CallDelete(bucket, key, versionId) => DeleteObjectLeads(s, bucket, key, versionId, env);
    case CallCopy(_, _, _, _) => CopyObjectLeads(s, c, env);
    case CallCreateUpload(bucket, key, attributes) => PutEmptyLeads(s, NewUpload(bucket, key, attributes, env), env);
    case CallUploadPart(target, number, body) => UploadPartLeads(s, target, number, body, env);
    case CallComplete(target, requested) => CompleteUploadLeads(s, target, requested, env);
    case CallAbort(target) => DeleteLeads(s, target, env);
    case CallRetention(bucket, key, versionId, until) => RetentionLeads(s, bucket, key, versionId, until, env);
    case CallLegalHold(bucket, key, versionId, on) => LegalHoldLeads(s, bucket, key, versionId, on, env);
    case CallCreateBucket(_, _) =>
    case CallDeleteBucket(_) =>
    case CallConfigure(_, _) =>
    case CallSweep => MaintainLeads(s, env);
  }

  // ---- whole runs ----

  /** The events of requests handled one after the other. */
  function EventsOfRun(s: Site, requests: seq<Request>): seq<Event>
    decreases |requests|
  {
    if requests == [] then []
    else
      var r := requests[0];
      EventsOf(s, r.call, r.env) + EventsOfRun(Handle(s, r.call, r.env).site, requests[1..])
  }

  /** So are the events of every run of handlers: whoever runs them one after the other keeps both hypotheses
      about the collector. */
  lemma {:induction false} RunsAreDisciplined(s: Site, requests: seq<Request>)
    requires Healthy(s) && CollisionFree(s.digests) && AllAdmissible(s, requests)
    ensures Disciplined(WorldOf(s), EventsOfRun(s, requests))
    ensures Run(WorldOf(s), EventsOfRun(s, requests)) == WorldOf(Serve(s, requests))
    decreases |requests|
  {
    if requests != [] {
      var r := requests[0];
      var next := Handle(s, r.call, r.env).site;
      HandlersAreDisciplined(s, r.call, r.env);
      HandlersKeepHealth(s, r.call, r.env);
      HandlersKeepDigests(s, r.call, r.env);
      RunsAreDisciplined(next, requests[1..]);
      LeadsOn(WorldOf(s), EventsOf(s, r.call, r.env), WorldOf(next),
              EventsOfRun(next, requests[1..]), WorldOf(Serve(s, requests)));
    }
  }
}
