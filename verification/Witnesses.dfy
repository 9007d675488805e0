/** Inputs on the failing side of the exact conditions: states that admissible requests reach from the
    empty server, and on which the program does less than its interface suggests. */
module Witnesses {
  import opened Results
  import opened ByteStrings
  import opened Manifests
  import opened KeyOrder
  import opened Refcounts
  import opened Transactions
  import opened Scans
  import opened Listing
  import opened VersionListing
  import opened VersionPages
  import opened Lifecycle
  import opened SweepRules
  import opened SweepSafety
  import opened Handlers
  import opened Uploads
  import opened Invariants
  import opened LockSafety
  import opened Content
  import opened Overwrites
  import opened Upkeep
  import opened Tidiness

  const BUCKET: Bytes := [98]

  const KEY: Bytes := [107]

  /** Digests without collisions: every text is its own digest. */
  const PLAIN: Digests := Digests(x => x, x => x)

  const START: Site := Site(PLAIN, map[], Tables(map[], map[]), map[])

  // ---- reachable states ----

  /** Admissible requests lead from the empty server to this state. */
  ghost predicate Reached(s: Site) {
    exists requests :: AllAdmissible(START, requests) && s == Serve(START, requests)
  }

  lemma {:induction false} ServeSnoc(s: Site, requests: seq<Request>, r: Request)
    ensures Serve(s, requests + [r]) == Handle(Serve(s, requests), r.call, r.env).site
    ensures AllAdmissible(s, requests + [r]) <==> AllAdmissible(s, requests) && Admissible(Serve(s, requests), r)
    decreases |requests|
  {
    if requests == [] {
      assert requests + [r] == [r] && [r][1..] == [];
    } else {
      assert (requests + [r])[1..] == requests[1..] + [r];
      ServeSnoc(Handle(s, requests[0].call, requests[0].env).site, requests[1..], r);
    }
  }

  lemma ReachedStep(s: Site, r: Request)
    requires Reached(s) && Admissible(s, r)
    ensures Reached(Handle(s, r.call, r.env).site)
  {
    var requests :| AllAdmissible(START, requests) && s == Serve(START, requests);
    ServeSnoc(START, requests, r);
  }

  lemma PlainIsCollisionFree()
    ensures CollisionFree(PLAIN)
  {
    forall x, y | PLAIN.contentHash(x) == PLAIN.contentHash(y)
      ensures x == y
    {
    }
  }

  lemma ReachedFacts(s: Site)
    requires Reached(s)
    ensures Healthy(s) && s.digests == PLAIN && CollisionFree(s.digests)
  {
    var requests :| AllAdmissible(START, requests) && s == Serve(START, requests);
    EmptyIsHealthy(PLAIN);
    PlainIsCollisionFree();
    RunsKeepHealth(START, requests);
    ServeKeepsDigests(START, requests);
  }

  lemma StartIsReached()
    ensures Reached(START)
  {
    assert AllAdmissible(START, []) && START == Serve(START, []);
  }

  // ---- small states ----

  function At(now: Time, id: byte): Env {
    Env(now, [id], _ => [0, id], {})
  }

  ghost predicate Bounded(o: Objects, n: nat) {
    forall h :: References(o, h) <= n
  }

  /** A reached state with tidy rows, the bucket, the given manifests, and at most `n` references to a part. */
  ghost predicate Holds(s: Site, o: Objects, n: nat) {
    && Reached(s) && RowsTidy(s) && s.tables.objects == o && BUCKET in s.buckets
    && Bounded(o, n)
  }

  /** The id of the request is new. */
  ghost predicate NewId(o: Objects, id: byte) {
    id != 110 && id != 0 && forall m :: Has(o, m) ==> m.key.versionId != [id] && m.key.versionId != [0, id]
  }

  lemma SmallIsAdmissible(s: Site, o: Objects, n: nat, c: Call, now: Time, id: byte)
    requires Holds(s, o, n) && n < 10 && ProperCall(c) && NewId(o, id)
    requires forall h :: Count(Taken(s, c), h) <= 10
    ensures Admissible(s, Request(c, At(now, id)))
  {
    forall h
      ensures References(s.tables.objects, h) + Count(Taken(s, c), h) <= MAX_COUNT
    {
      assert References(o, h) <= n;
    }
  }

  /** The state after an admissible request is reached and tidy as well. */
  lemma Next(s: Site, c: Call, now: Time, id: byte) returns (after: Site)
    requires Reached(s) && RowsTidy(s) && Admissible(s, Request(c, At(now, id)))
    ensures after == Handle(s, c, At(now, id)).site && Reached(after) && RowsTidy(after)
  {
    after := Handle(s, c, At(now, id)).site;
    ReachedFacts(s);
    ReachedStep(s, Request(c, At(now, id)));
    HandlersKeepRowsTidy(s, c, At(now, id));
  }

  lemma CountOne(p: PartRef, h: Hash)
    ensures Count([p], h) <= 1
  {
    assert [p][1..] == [];
  }

  lemma {:induction false} CountAtMost(refs: seq<PartRef>, h: Hash)
    ensures Count(refs, h) <= |refs|
  {
    if refs != [] {
      CountAtMost(refs[1..], h);
    }
  }

  /** An empty bucket in which versioning is on. */
  lemma EmptyBucket() returns (s: Site)
    ensures Holds(s, map[], 0) && s.buckets[BUCKET] == BucketConfig(Enabled, Some(ObjectLockConfig(true, None)), [])
  {
    var c := CallCreateBucket(BUCKET, true);
    StartIsReached();
    EmptyIsTidy(PLAIN);
    assert Admissible(START, Request(c, At(0, 1)));
    s := Next(START, c, 0, 1);
  }

  lemma Configured(s: Site, o: Objects, n: nat, cfg: BucketConfig) returns (after: Site)
    requires Holds(s, o, n) && n < 10 && NewId(o, 1)
    ensures Holds(after, o, n) && after.buckets == s.buckets[BUCKET := cfg]
  {
    var c := CallConfigure(BUCKET, _ => cfg);
    SmallIsAdmissible(s, o, n, c, 0, 1);
    after := Next(s, c, 0, 1);
  }

  lemma OneMoreRow(o: Objects, m: Manifest, n: nat)
    requires Bounded(o, n) && |m.parts| <= 1 && Encode(m.key) !in o
    ensures Bounded(o[Encode(m.key) := m], n + 1)
  {
    var after := o[Encode(m.key) := m];
    forall h
      ensures References(after, h) <= n + 1
    {
      ReferencesWrite(o, Encode(m.key), m, h);
      CountAtMost(m.parts, h);
    }
  }

  /** One more version of the key. */
  lemma PutNext(s: Site, o: Objects, n: nat, body: Bytes, lock: Option<ObjectLock>, now: Time, id: byte)
    returns (after: Site, m: Manifest)
    requires Holds(s, o, n) && n < 10 && NewId(o, id)
    requires Encode(NewObject(s, BUCKET, KEY, body, [], lock, At(now, id)).key) !in o
    ensures m == NewObject(s, BUCKET, KEY, body, [], lock, At(now, id))
    ensures Holds(after, o[Encode(m.key) := m], n + 1) && after.buckets == s.buckets
  {
    var c := CallPut(BUCKET, KEY, body, [], lock);
    m := NewObject(s, BUCKET, KEY, body, [], lock, At(now, id));
    forall h
      ensures Count(Taken(s, c), h) <= 10
    {
      CountOne(PartOf(s, 1, body), h);
    }
    SmallIsAdmissible(s, o, n, c, now, id);
    after := Next(s, c, now, id);
    ReachedFacts(s);
    TidyRefusesNothing(s, c, At(now, id));
    PutStores(s, BUCKET, KEY, body, [], lock, At(now, id));
    OneMoreRow(o, m, n);
  }

  // ---- content of a retained version ----

  const UNTIL: Time := 100

  const RETAINED: Option<ObjectLock> := Some(ObjectLock(Some(Retention(UNTIL)), false))

  lemma UploadIsHarmful(s: Site, m: Manifest, body: Bytes, env: Env)
    requires Healthy(s) && CollisionFree(s.digests) && Has(s.tables.objects, m) && ProperKey(m.key)
    requires RequestFits(s, CallUploadPart(m.key, 2, body)) && !Pending(s.tables.parts, s.digests.contentHash(body))
    requires |m.parts| == 1 && m.parts[0].partNumber == 1 && body != []
    ensures ContentAt(UploadPart(s, m.key, 2, body, env).site, m.key) != ContentAt(s, m.key)
  {
    HealthyContent(s, m.key);
    assert m.parts[1..] == [];
    assert BytesAt(s.files, m.parts, 2) == [];
    assert !UploadRefused(s, 2, body);
    UploadPartKeepsContentIff(s, m.key, 2, body, env);
  }

  /** The part upload changes the content of a version that is retained. */
  ghost predicate ChangesRetained(s: Site, r: Request, key: ManifestKey, until: Time) {
    && Reached(s) && Admissible(s, r)
    && key.versionId != NULL_VERSION && RetainedThere(s, key, until) && r.env.now < until
    && r.call.CallUploadPart? && r.call.target == key
    && ContentAt(UploadPart(s, key, r.call.number, r.call.body, r.env).site, key) != ContentAt(s, key)
  }

  lemma SecondPartChanges(s: Site, m: Manifest, r: Request, until: Time)
    requires Reached(s) && RowsTidy(s) && Admissible(s, r) && Has(s.tables.objects, m)
    requires m.key.versionId != NULL_VERSION && RetainedThere(s, m.key, until) && r.env.now < until
    requires |m.parts| == 1 && m.parts[0].partNumber == 1
    requires r.call.CallUploadPart? && r.call.target == m.key && r.call.number == 2 && r.call.body != []
    ensures ChangesRetained(s, r, m.key, until)
  {
    ReachedFacts(s);
    TidyHasNothingPending(s);
    UploadIsHarmful(s, m, r.call.body, r.env);
  }

  /** A part upload that names a retained version can change its content. */
  lemma RetainedContentCanChange()
    ensures exists s, r, key, until :: ChangesRetained(s, r, key, until)
  {
    var s0 := EmptyBucket();
    var s, m := PutNext(s0, map[], 0, [1], RETAINED, 5, 65);
    var c := CallUploadPart(m.key, 2, [2]);
    forall h
      ensures Count(Taken(s, c), h) <= 10
    {
      CountOne(PartOf(s, 2, [2]), h);
    }
    SmallIsAdmissible(s, map[Encode(m.key) := m], 1, c, 6, 66);
    SecondPartChanges(s, m, Request(c, At(6, 66)), UNTIL);
  }

  // ---- a put with an old clock ----

  /** The request puts an object successfully, and a read without version id then finds another one. */
  ghost predicate PutsStale(s: Site, c: Call, env: Env) {
    && Reached(s) && Admissible(s, Request(c, env)) && c.CallPut? && c.bucket in s.buckets
    && Handle(s, c, env).reply.Success?
    && FindObject(Handle(s, c, env).site, c.bucket, c.key, None)
       != Some(NewObject(s, c.bucket, c.key, c.body, c.attributes, c.lock, env))
  }

  lemma OlderIsStale(s: Site, c: Call, env: Env, n: Manifest)
    requires Reached(s) && RowsTidy(s) && Admissible(s, Request(c, env)) && c.CallPut? && c.bucket in s.buckets
    requires Has(s.tables.objects, n) && n.key.bucket == c.bucket && n.key.key == c.key && n.state == Committed
    requires n.lastModified > env.now && n.key.versionId != NextVersionId(s.buckets[c.bucket].versioning, env.newId)
    ensures PutsStale(s, c, env)
  {
    ReachedFacts(s);
    TidyRefusesNothing(s, c, env);
    PutIsCurrentIff(s, c.bucket, c.key, c.body, c.attributes, c.lock, env);
    assert !NewestOf(s.tables.objects, NewObject(s, c.bucket, c.key, c.body, c.attributes, c.lock, env));
  }

  lemma PutCanBeStale()
    ensures exists s, c, env :: PutsStale(s, c, env)
  {
    var s0 := EmptyBucket();
    var s, m := PutNext(s0, map[], 0, [1], None, 5, 65);
    var c := CallPut(BUCKET, KEY, [2], [], None);
    forall h
      ensures Count(Taken(s, c), h) <= 10
    {
      CountOne(PartOf(s, 1, [2]), h);
    }
    SmallIsAdmissible(s, map[Encode(m.key) := m], 1, c, 3, 66);
    OlderIsStale(s, c, At(3, 66), m);
  }

  // ---- a version that no page lists ----

  const ONE_PER_PAGE: ListRequest := ListRequest(BUCKET, [], None, None, 1)

  lemma OnlyKey(s: Site)
    requires Reached(s) && forall m :: Has(s.tables.objects, m) ==> m.key.key == KEY
    ensures WellFormed(s.tables.objects) && ProperRequest(ONE_PER_PAGE) && Resumable(ONE_PER_PAGE)
    ensures forall e :: e in AllEntries(s.tables.objects, ONE_PER_PAGE) ==> KeyOf(e) == KEY
  {
    ReachedFacts(s);
    forall e | e in AllEntries(s.tables.objects, ONE_PER_PAGE)
      ensures KeyOf(e) == KEY
    {
      VersionsAreExact(s.tables.objects, ONE_PER_PAGE, e.manifest, e.isLatest);
    }
  }

  lemma TwoVersionsLose(s: Site, m1: Manifest, m2: Manifest) returns (lost: VersionEntry)
    requires Reached(s) && (forall m :: Has(s.tables.objects, m) ==> m.key.key == KEY)
    requires Has(s.tables.objects, m1) && Has(s.tables.objects, m2) && m1 != m2
    requires m1.key.bucket == m2.key.bucket == BUCKET && m1.state == m2.state == Committed
    ensures LosesVersion(s.tables.objects, ONE_PER_PAGE, lost)
  {
    var o := s.tables.objects;
    OnlyKey(s);
    var e1 := EntryOf(o, ONE_PER_PAGE, m1);
    var e2 := EntryOf(o, ONE_PER_PAGE, m2);
    TwoMembers(AllEntries(o, ONE_PER_PAGE), e1, e2);
    lost := if AllEntries(o, ONE_PER_PAGE)[0] == e1 then e2 else e1;
    FirstPageLoses(o, ONE_PER_PAGE, KEY, lost);
  }

  lemma TwoRows(m1: Manifest, m2: Manifest)
    requires m1.key == ManifestKey(BUCKET, KEY, [65]) && m2.key == ManifestKey(BUCKET, KEY, [66])
    ensures Encode(m1.key) != Encode(m2.key)
    ensures var o := map[Encode(m1.key) := m1, Encode(m2.key) := m2];
      Has(o, m1) && Has(o, m2) && forall m :: Has(o, m) ==> m == m1 || m == m2
  {
    EncodeTellsVersionsApart(m1.key, m2.key);
  }

  /** Two versions of one key and pages of one entry: one of them is on no page. */
  lemma VersionListingCanLoseVersions()
    ensures exists s: Site, req, e :: Reached(s) && LosesVersion(s.tables.objects, req, e)
  {
    var s0 := EmptyBucket();
    var s1, m1 := PutNext(s0, map[], 0, [1], None, 5, 65);
    TwoRows(m1, NewObject(s1, BUCKET, KEY, [2], [], None, At(6, 66)));
    var s, m2 := PutNext(s1, map[Encode(m1.key) := m1], 1, [2], None, 6, 66);
    assert s.tables.objects == map[Encode(m1.key) := m1, Encode(m2.key) := m2];
    var lost := TwoVersionsLose(s, m1, m2);
  }

  // ---- an expiry that is undone ----

  /** Everything expires at once. */
  const RULE: LifecycleRule := LifecycleRule(true, None, Some(0), Some(0), Some(0))

  lemma RuleVerdicts(p: Plan, m: Manifest)
    requires m.key.bucket in p.buckets && p.buckets[m.key.bucket].lifecycleRules == [RULE]
    requires m.kind == Object && !m.Locked(p.clock.now) && m.createdAt <= p.clock.now
    ensures m.state == Committed ==>
              p.VerdictOn(m) == if p.CurrentOf(m) == Some(m) then ExpireCurrent else ExpireNoncurrent
    ensures m.state == InProgress ==> p.VerdictOn(m) == Abort
  {
    assert [RULE][1..] == [];
    assert Active([RULE]) == [RULE];
    assert Matches([RULE][0], m) && Due([RULE][0].expirationDays, m, p.clock.now);
    assert Due([RULE][0].noncurrentDays, m, p.clock.now) && Due([RULE][0].abortDays, m, p.clock.now);
  }

  lemma NewerIsCurrent(o: Objects, newer: Manifest, older: Manifest)
    requires WellFormed(o) && Has(o, newer) && Has(o, older) && (forall m :: Has(o, m) ==> m == newer || m == older)
    requires newer.key.bucket == older.key.bucket && newer.key.key == older.key.key
    requires newer.state == Committed && older.lastModified < newer.lastModified
    ensures Current(o, newer.key.bucket, newer.key.key) == Some(newer)
  {
    LessIrreflexive(newer.key.versionId);
    CurrentIff(o, newer.key.bucket, newer.key.key, newer);
  }

  /** In a suspended bucket, with an older version in the "null" slot. */
  lemma NullVersionUndoes(s: Site, env: Env, newer: Manifest, older: Manifest)
    requires Reached(s) && FreshIds(s, env) && BUCKET in s.buckets
    requires s.buckets[BUCKET].versioning == Suspended && s.buckets[BUCKET].lifecycleRules == [RULE]
    requires Has(s.tables.objects, newer) && Has(s.tables.objects, older)
    requires forall m :: Has(s.tables.objects, m) ==> m == newer || m == older
    requires newer.key.bucket == older.key.bucket == BUCKET && newer.key.key == older.key.key == KEY
    requires older.key.versionId == NULL_VERSION && older.lastModified < newer.lastModified
    requires newer.kind == older.kind == Object && newer.state == older.state == Committed
    requires newer.objectLock == older.objectLock == None && newer.createdAt <= env.now && older.createdAt <= env.now
    ensures StaysCurrent(PlanOf(s, env), newer)
  {
    var p := PlanOf(s, env);
    ReachedFacts(s);
    PlanIsProper(s, env);
    NewerIsCurrent(s.tables.objects, newer, older);
    RuleVerdicts(p, newer);
    RuleVerdicts(p, older);
    assert p.Slot(newer) == Encode(older.key);
    UndoneBySweep(p, newer);
  }

  lemma NullAndNewer(older: Manifest, newer: Manifest)
    requires older.key == ManifestKey(BUCKET, KEY, NULL_VERSION) && newer.key == ManifestKey(BUCKET, KEY, [65])
    ensures Encode(older.key) != Encode(newer.key)
    ensures var o := map[Encode(older.key) := older, Encode(newer.key) := newer];
      Has(o, older) && Has(o, newer) && forall m :: Has(o, m) ==> m == newer || m == older
  {
    EncodeTellsVersionsApart(older.key, newer.key);
  }

  /** A version put while versioning was suspended, a newer one put while it was on, and a sweep while it
      is suspended again: the sweep counts the newer one as expired, and it is current nevertheless. */
  lemma ExpiryCanBeUndone()
    ensures exists s, env, e :: Reached(s) && StaysCurrent(PlanOf(s, env), e)
  {
    var s1, older := NullVersion();
    var s2, newer := NewerVersion(s1, older);
    NullAndNewer(older, newer);
    var s := Configured(s2, map[Encode(older.key) := older, Encode(newer.key) := newer], 2,
                        BucketConfig(Suspended, None, [RULE]));
    NullVersionUndoes(s, At(10, 66), newer, older);
  }

  /** An object as a put at the given time stores it, under the given version. */
  predicate PutAtTime(m: Manifest, id: Bytes, now: Time) {
    && m.key == ManifestKey(BUCKET, KEY, id) && m.state == Committed && m.kind == Object && m.objectLock == None
    && m.createdAt == m.lastModified == now
  }

  lemma NullVersion() returns (s: Site, older: Manifest)
    ensures PutAtTime(older, NULL_VERSION, 4) && Holds(s, map[Encode(older.key) := older], 1)
  {
    var s0 := EmptyBucket();
    var s1 := Configured(s0, map[], 0, BucketConfig(Suspended, None, []));
    s, older := PutNext(s1, map[], 0, [1], None, 4, 64);
  }

  lemma NewerVersion(s: Site, older: Manifest) returns (after: Site, newer: Manifest)
    requires PutAtTime(older, NULL_VERSION, 4) && Holds(s, map[Encode(older.key) := older], 1)
    ensures PutAtTime(newer, [65], 5) && Holds(after, map[Encode(older.key) := older, Encode(newer.key) := newer], 2)
  {
    var o := map[Encode(older.key) := older];
    var s1 := Configured(s, o, 1, BucketConfig(Enabled, None, []));
    NullAndNewer(older, NewObject(s1, BUCKET, KEY, [2], [], None, At(5, 65)));
    after, newer := PutNext(s1, o, 1, [2], None, 5, 65);
    assert o[Encode(newer.key) := newer] == map[Encode(older.key) := older, Encode(newer.key) := newer];
  }

  // ---- an object whose first part is empty ----

  /** The only manifest is an upload, with at most `n` references to each part. */
  ghost predicate HoldsUpload(s: Site, m: Manifest, n: nat) {
    && Holds(s, map[Encode(m.key) := m], n) && m.key == ManifestKey(BUCKET, KEY, [65]) && m.state == InProgress
    && m.kind == Object && m.objectLock == None && m.createdAt == 5 && PartsAscend(m.parts)
  }

  lemma StartUpload() returns (s: Site, m: Manifest)
    ensures HoldsUpload(s, m, 0) && m.parts == []
  {
    var s0 := EmptyBucket();
    var c := CallCreateUpload(BUCKET, KEY, []);
    m := NewUpload(BUCKET, KEY, [], At(5, 65));
    SmallIsAdmissible(s0, map[], 0, c, 5, 65);
    s := Next(s0, c, 5, 65);
    PutWithoutParts(s0.tables, m, 5);
    SmallRow(m, 0);
  }

  lemma SingleRow(m: Manifest, h: Hash)
    ensures References(map[Encode(m.key) := m], h) == Count(m.parts, h)
  {
    var none: Objects := map[];
    ReferencesWrite(none, Encode(m.key), m, h);
    assert none[Encode(m.key) := m] == map[Encode(m.key) := m];
  }

  lemma SmallRow(m: Manifest, n: nat)
    requires forall h :: Count(m.parts, h) <= n
    ensures Bounded(map[Encode(m.key) := m], n)
  {
    var o := map[Encode(m.key) := m];
    forall h
      ensures References(o, h) <= n
    {
      SingleRow(m, h);
    }
  }

  lemma SendPart(s: Site, m: Manifest, n: nat, number: u32, body: Bytes) returns (s': Site, m': Manifest)
    requires HoldsUpload(s, m, n) && n < 9 && 1 <= number <= 10_000
    ensures HoldsUpload(s', m', n + 1)
    ensures forall q :: q in m'.parts <==>
      q == PartRef(number, body, body, |body|) || (q in m.parts && q.partNumber != number)
  {
    var p := PartRef(number, body, body, |body|);
    SendIsAdmissible(s, m, n, number, body);
    s' := Next(s, CallUploadPart(m.key, number, body), 6, 66);
    m' := WithPart(m, p, 6);
    SentRow(s, m, n, number, body, At(6, 66));
    AppendKeepsOrder(m, p, 6);
    SentIsSmall(m, n, p, 6);
  }

  lemma SendIsAdmissible(s: Site, m: Manifest, n: nat, number: u32, body: Bytes)
    requires HoldsUpload(s, m, n) && n < 9
    ensures Admissible(s, Request(CallUploadPart(m.key, number, body), At(6, 66)))
  {
    forall h
      ensures Count(Taken(s, CallUploadPart(m.key, number, body)), h) <= 10
    {
      CountOne(PartOf(s, number, body), h);
    }
    SmallIsAdmissible(s, map[Encode(m.key) := m], n, CallUploadPart(m.key, number, body), 6, 66);
  }

  lemma SentIsSmall(m: Manifest, n: nat, p: PartRef, now: Time)
    requires Bounded(map[Encode(m.key) := m], n)
    ensures Bounded(map[Encode(m.key) := WithPart(m, p, now)], n + 1)
  {
    var o, m' := map[Encode(m.key) := m], WithPart(m, p, now);
    forall h
      ensures Count(m'.parts, h) <= n + 1
    {
      SingleRow(m, h);
      assert References(o, h) <= n;
      WithPartCount(m, p, now, h);
    }
    SmallRow(m', n + 1);
  }

  lemma SentRow(s: Site, m: Manifest, n: nat, number: u32, body: Bytes, env: Env)
    requires HoldsUpload(s, m, n) && 1 <= number <= 10_000
    ensures var after := Handle(s, CallUploadPart(m.key, number, body), env).site;
      && after.tables.objects == map[Encode(m.key) := WithPart(m, PartRef(number, body, body, |body|), env.now)]
      && after.buckets == s.buckets
  {
    ReachedFacts(s);
    TidyHasNothingPending(s);
    UploadSucceedsIff(s, m.key, number, body, env);
    AppendedRow(s.tables, m.key, PartOf(s, number, body), env.now);
  }

  const BOTH: seq<RequestedPart> := [RequestedPart(1, []), RequestedPart(2, [2])]

  /** The completed object of an upload with an empty part 1 and a part 2 of one byte. */
  lemma CompleteBoth(s: Site, m: Manifest) returns (after: Site, obj: Manifest)
    requires HoldsUpload(s, m, 2)
    requires forall q :: q in m.parts <==> q == PartRef(1, [], [], 0) || q == PartRef(2, [2], [2], 1)
    ensures Reached(after) && FindObject(after, BUCKET, KEY, Some(NULL_VERSION)) == Some(obj)
    ensures |obj.parts| == 2 && obj.parts[0].size == 0 && obj.parts[1].size == 1 && obj.size == 1
  {
    BothTaken(s, m);
    SmallIsAdmissible(s, map[Encode(m.key) := m], 2, CallComplete(m.key, BOTH), 7, 67);
    after := Next(s, CallComplete(m.key, BOTH), 7, 67);
    obj := CompletedBoth(s, m, At(7, 67));
  }

  lemma CompletedBoth(s: Site, m: Manifest, env: Env) returns (obj: Manifest)
    requires HoldsUpload(s, m, 2)
    requires forall q :: q in m.parts <==> q == PartRef(1, [], [], 0) || q == PartRef(2, [2], [2], 1)
    ensures FindObject(CompleteUpload(s, m.key, BOTH, env).site, BUCKET, KEY, Some(NULL_VERSION)) == Some(obj)
    ensures |obj.parts| == 2 && obj.parts[0].size == 0 && obj.parts[1].size == 1 && obj.size == 1
  {
    ReachedFacts(s);
    BothProvided(m);
    CompletionSucceedsIff(s, m.key, BOTH, env);
    CompletionIsExact(s, m.key, BOTH, env);
    obj := CompleteUpload(s, m.key, BOTH, env).site.tables.objects[Encode(ManifestKey(BUCKET, KEY, NULL_VERSION))];
    BothSizes(m, obj.parts);
  }

  lemma BothProvided(m: Manifest)
    requires forall q :: q in m.parts <==> q == PartRef(1, [], [], 0) || q == PartRef(2, [2], [2], 1)
    ensures InOrder(BOTH) && AllUploaded(m, BOTH)
  {
    assert Stands(PartRef(1, [], [], 0), BOTH[0]) && Stands(PartRef(2, [2], [2], 1), BOTH[1]);
    assert Provided(m.parts, BOTH[0]) && Provided(m.parts, BOTH[1]);
  }

  lemma BothTaken(s: Site, m: Manifest)
    requires UploadAt(s, m.key) == Some(m) && PartsAscend(m.parts)
    ensures forall h :: Count(Taken(s, CallComplete(m.key, BOTH)), h) <= 10
  {
    SelectExactly(m.parts, BOTH);
    forall h
      ensures Count(Taken(s, CallComplete(m.key, BOTH)), h) <= 10
    {
      CountAtMost(Taken(s, CallComplete(m.key, BOTH)), h);
    }
  }

  lemma BothSizes(m: Manifest, refs: seq<PartRef>)
    requires forall q :: q in m.parts <==> q == PartRef(1, [], [], 0) || q == PartRef(2, [2], [2], 1)
    requires |refs| == 2 && forall i :: 0 <= i < 2 ==> refs[i] in m.parts && Stands(refs[i], BOTH[i])
    ensures refs[0].size == 0 && refs[1].size == 1 && TotalSize(refs) == 1
  {
    assert refs[1..][1..] == [];
    assert TotalSize(refs[1..]) == refs[1].size + TotalSize([]);
  }

  /** A whole object that is there and not empty cannot be copied as a part. */
  ghost predicate CannotBeCopied(s: Site, source: Source) {
    var m := FindObject(s, source.bucket, source.key, source.versionId);
    && Reached(s) && m.Some? && m.value.size > 0 && CopyBounds(m.value, None).Success?
    && CopiedBytes(s, source, None) == Failure(SourceUnreadable)
  }

  /** Uploading an empty part 1 and completing leads to an object on which the part-wise read underflows. */
  lemma EmptyFirstPartIsReachable()
    ensures exists s, source :: CannotBeCopied(s, source)
  {
    var s0, m0 := StartUpload();
    var s1, m1 := SendPart(s0, m0, 0, 1, []);
    var s2, m2 := SendPart(s1, m1, 1, 2, [2]);
    var s, obj := CompleteBoth(s2, m2);
    assert CannotBeCopied(s, Source(BUCKET, KEY, Some(NULL_VERSION)));
  }

  // ---- a file that nothing collects ----

  /** A part upload without its upload leaves a file that nothing refers to. */
  lemma FilesCanLeak()
    ensures exists s, r: Request ::
              Reached(s) && Admissible(s, r) && r.env.stuck == {}
              && FilesTidy(s) && !FilesTidy(Handle(s, r.call, r.env).site)
  {
    var c, env := CallUploadPart(ManifestKey(BUCKET, KEY, [65]), 1, [1]), At(0, 1);
    StartIsReached();
    ReachedFacts(START);
    EmptyIsTidy(PLAIN);
    forall h
      ensures References(START.tables.objects, h) + Count(Taken(START, c), h) <= MAX_COUNT
    {
      CountOne(PartOf(START, 1, [1]), h);
    }
    assert Admissible(START, Request(c, env));
    HandlersKeepFilesTidyIff(START, c, env);
  }

  // ---- a part that stays in the collector's hands ----

  lemma AbortedPartIsPending(s: Site, m: Manifest, h: Hash, env: Env)
    requires HoldsUpload(s, m, 1) && (exists i :: 0 <= i < |m.parts| && m.parts[i].hash == h)
    requires s.buckets[BUCKET].lifecycleRules == [RULE] && FreshIds(s, env) && env.now >= 5 && h in env.stuck
    ensures Pending(Maintain(s, env).0.site.tables.parts, h)
  {
    var p, s1 := PlanOf(s, env), AfterLifecycle(s, env);
    ReachedFacts(s);
    RuleVerdicts(p, m);
    AfterLifecycleIsHealthy(s, env);
    PlanIsProper(s, env);
    NothingStays(p, m);
    SweepLifecycleKeeps(s.tables, s.buckets, Clock(env.now, env.markerIds));
    TidyHasNothingPending(s);
    CountPositive(m.parts, h);
    SingleRow(m, h);
    OrphanIff(s1, h);
    StuckOrphanIsPending(s, env, h);
  }

  /** If the only manifest is an upload that the rules abort, the sweep leaves none. */
  lemma NothingStays(p: Plan, m: Manifest)
    requires p.Proper() && p.tables.objects == map[Encode(m.key) := m] && m.state == InProgress
    requires p.VerdictOn(m) == Abort
    ensures AfterSweep(p) == map[]
  {
    var after := AfterSweep(p);
    SweepRefinesRules(p);
    forall n
      ensures !InTheEnd(p, n)
    {
      NotInTheEnd(p, m, n);
    }
    assert forall k :: k in after ==> Has(after, after[k]);
  }

  lemma NotInTheEnd(p: Plan, m: Manifest, n: Manifest)
    requires p.Proper() && p.tables.objects == map[Encode(m.key) := m] && m.state == InProgress
    requires p.VerdictOn(m) == Abort
    ensures !InTheEnd(p, n)
  {
    CurrentIsRow(p.tables.objects, n.key.bucket, n.key.key);
  }

  /** A sweep that cannot unlink one file makes its content unwritable: from then on, over every run, puts and
      part uploads of it are refused. */
  ghost predicate RefusesForEver(s: Site, h: Hash) {
    forall requests, c: Call, env ::
      AllAdmissible(s, requests) && (c.CallPut? || c.CallUploadPart?) && s.digests.contentHash(c.body) == h ==>
        Handle(Serve(s, requests), c, env).reply.Failure?
  }

  lemma ContentCanBecomeUnwritable()
    ensures exists s, h :: Reached(s) && RefusesForEver(s, h)
  {
    var s0, m0 := StartUpload();
    var s1, m := SendPart(s0, m0, 0, 1, [1]);
    var o := map[Encode(m.key) := m];
    var s2 := Configured(s1, o, 1, BucketConfig(Enabled, None, [RULE]));
    var env := Env(7, [66], _ => [0, 66], {[1]});
    assert PartRef(1, [1], [1], 1) in m.parts;
    AbortedPartIsPending(s2, m, [1], env);
    ReachedStep(s2, Request(CallSweep, env));
    var s := Handle(s2, CallSweep, env).site;
    PendingIsRefusedForEver(s, [1]);
  }

  lemma PendingIsRefusedForEver(s: Site, h: Hash)
    requires Reached(s) && Pending(s.tables.parts, h)
    ensures RefusesForEver(s, h)
  {
    ReachedFacts(s);
    forall requests, c: Call, env |
        AllAdmissible(s, requests) && (c.CallPut? || c.CallUploadPart?) && s.digests.contentHash(c.body) == h
      ensures Handle(Serve(s, requests), c, env).reply.Failure?
    {
      PendingContentIsRefused(s, requests, c, env, h);
    }
  }
}
