/** What a sweep does to the object table, in terms of the lifecycle rules and the table before alone
    (src/s3/maintenance.rs:55-230). */
module Expiry {
  import opened Results
  import opened ByteStrings
  import opened Manifests
  import opened KeyOrder
  import opened Scans
  import opened Lifecycle
  import opened SweepRules
  import opened Handlers
  import opened Invariants
  import opened Upkeep

  // ---- what the rules ask for ----

  /** The rule is enabled and covers the key, and the given number of days, of 86 400 seconds each, has
      passed since the manifest was created. */
  predicate Ripe(r: LifecycleRule, m: Manifest, days: Option<u32>, now: Time) {
    && r.enabled && (r.filterPrefix.Some? ==> r.filterPrefix.value <= m.key.key)
    && days.Some? && m.createdAt + days.value * 86_400_000_000_000 <= now
  }

  /** Neither held nor retained at this time. */
  predicate Free(m: Manifest, now: Time) {
    m.objectLock.Some? ==>
      && !m.objectLock.value.legalHold
      && (m.objectLock.value.retention.Some? ==> m.objectLock.value.retention.value.retainUntil <= now)
  }

  function RulesFor(s: Site, m: Manifest): seq<LifecycleRule> {
    if m.key.bucket in s.buckets then s.buckets[m.key.bucket].lifecycleRules else []
  }

  /** A current object whose time is over. */
  ghost predicate Expired(s: Site, now: Time, m: Manifest) {
    && IsCurrent(s.tables.objects, m.key.bucket, m.key.key, m) && m.kind == Object && Free(m, now)
    && exists r :: r in RulesFor(s, m) && Ripe(r, m, r.expirationDays, now)
  }

  /** A version or delete marker that is not current any more and whose time is over. */
  ghost predicate Superseded(s: Site, now: Time, m: Manifest) {
    && m.state == Committed && !IsCurrent(s.tables.objects, m.key.bucket, m.key.key, m) && Free(m, now)
    && exists r :: r in RulesFor(s, m) && Ripe(r, m, r.noncurrentDays, now)
  }

  /** An upload that was not completed in time, or an aborted one in a bucket with an enabled rule. */
  ghost predicate Abandoned(s: Site, now: Time, m: Manifest) {
    || (m.state == InProgress && exists r :: r in RulesFor(s, m) && Ripe(r, m, r.abortDays, now))
    || (m.state == Aborted && exists r :: r in RulesFor(s, m) && r.enabled)
  }

  // ---- that is how the program judges ----

  lemma {:induction false} ActiveMembers(rules: seq<LifecycleRule>)
    ensures forall r :: r in Active(rules) <==> r in rules && r.enabled
  {
    if rules != [] {
      ActiveMembers(rules[1..]);
      assert rules == [rules[0]] + rules[1..];
    }
  }

  lemma AnyDue(rules: seq<LifecycleRule>, m: Manifest, now: Time)
    ensures ExpirationDue(Active(rules), m, now) <==> exists r :: r in rules && Ripe(r, m, r.expirationDays, now)
    ensures NoncurrentDue(Active(rules), m, now) <==> exists r :: r in rules && Ripe(r, m, r.noncurrentDays, now)
    ensures AbortDue(Active(rules), m, now) <==> exists r :: r in rules && Ripe(r, m, r.abortDays, now)
  {
    ActiveMembers(rules);
    var active := Active(rules);
    forall i | 0 <= i < |active|
      ensures active[i] in rules && active[i].enabled
    {
      assert active[i] in active;
    }
    forall r | r in rules && r.enabled
      ensures exists i :: 0 <= i < |active| && active[i] == r
    {
    }
  }

  lemma AnyEnabled(rules: seq<LifecycleRule>)
    ensures Active(rules) != [] <==> exists r :: r in rules && r.enabled
  {
    ActiveMembers(rules);
    if Active(rules) != [] {
      assert Active(rules)[0] in Active(rules);
    }
  }

  lemma JudgeMeans(m: Manifest, current: bool, rules: seq<LifecycleRule>, now: Time)
    ensures var v := if Active(rules) == [] then Keep else Judge(m, current, Active(rules), now);
      && (v == ExpireCurrent <==>
           && m.state == Committed && current && m.kind == Object && Free(m, now)
           && exists r :: r in rules && Ripe(r, m, r.expirationDays, now))
      && (v == ExpireNoncurrent <==>
           && m.state == Committed && !current && Free(m, now)
           && exists r :: r in rules && Ripe(r, m, r.noncurrentDays, now))
      && (v == Verdict.Abort <==>
           || (m.state == InProgress && exists r :: r in rules && Ripe(r, m, r.abortDays, now))
           || (m.state == Aborted && exists r :: r in rules && r.enabled))
  {
    AnyDue(rules, m, now);
    AnyEnabled(rules);
    assert m.Locked(now) <==> !Free(m, now);
  }

  lemma VerdictMeans(s: Site, env: Env, m: Manifest)
    requires Healthy(s) && Has(s.tables.objects, m)
    ensures PlanOf(s, env).VerdictOn(m) == ExpireCurrent <==> Expired(s, env.now, m)
    ensures PlanOf(s, env).VerdictOn(m) == ExpireNoncurrent <==> Superseded(s, env.now, m)
    ensures PlanOf(s, env).VerdictOn(m) == Verdict.Abort <==> Abandoned(s, env.now, m)
  {
    assert RowOk(s, m);
    CurrentIff(s.tables.objects, m.key.bucket, m.key.key, m);
    JudgeMeans(m, PlanOf(s, env).CurrentOf(m) == Some(m), RulesFor(s, m), env.now);
  }

  // ---- the table after the sweep ----

  function AfterMaintain(s: Site, env: Env): Objects {
    Maintain(s, env).0.site.tables.objects
  }

  function VersioningOf(s: Site, m: Manifest): VersioningState {
    if m.key.bucket in s.buckets then s.buckets[m.key.bucket].versioning else Off
  }

  /** The delete marker that hides an expired version, under a new id or, if versioning is suspended, under
      the id "null". */
  function MarkerOf(s: Site, env: Env, e: Manifest): Manifest {
    var id := if VersioningOf(s, e) == Enabled then env.markerIds(e.key) else [110, 117, 108, 108];
    Manifest(ManifestKey(e.key.bucket, e.key.key, id), Committed, Tombstone, [], 0, [], None, env.now, env.now)
  }

  /** Gone after the sweep, whatever the versioning. */
  ghost predicate Removed(s: Site, now: Time, m: Manifest) {
    Superseded(s, now, m) || Abandoned(s, now, m)
  }

  lemma GoesMeans(s: Site, env: Env, m: Manifest)
    requires Healthy(s) && Has(s.tables.objects, m)
    ensures PlanOf(s, env).Goes(m) <==>
              Removed(s, env.now, m) || (Expired(s, env.now, m) && VersioningOf(s, m) == Off)
    ensures PlanOf(s, env).Hides(m) <==> Expired(s, env.now, m) && VersioningOf(s, m) != Off
    ensures PlanOf(s, env).Hides(m) ==> PlanOf(s, env).MarkerFor(m) == MarkerOf(s, env, m)
  {
    VerdictMeans(s, env, m);
  }

  /** The key has an expired current version, which hides behind a marker. */
  lemma KeyHidesMeans(s: Site, env: Env, n: Manifest, e: Manifest)
    requires Healthy(s) && VersioningOf(s, n) != Off && e.key.bucket == n.key.bucket && e.key.key == n.key.key
    ensures KeyHides(PlanOf(s, env), n) && PlanOf(s, env).CurrentOf(n) == Some(e) <==> Expired(s, env.now, e)
  {
    CurrentIsRow(s.tables.objects, n.key.bucket, n.key.key);
    if Has(s.tables.objects, e) {
      assert RowOk(s, e);
      CurrentIff(s.tables.objects, e.key.bucket, e.key.key, e);
      GoesMeans(s, env, e);
    }
  }

  lemma NothingHides(s: Site, env: Env, n: Manifest)
    requires Healthy(s) && VersioningOf(s, n) == Off
    ensures !KeyHides(PlanOf(s, env), n)
  {
    CurrentIsRow(s.tables.objects, n.key.bucket, n.key.key);
  }

  /** With versioning off, a sweep leaves exactly the rows that are neither expired nor superseded nor
      abandoned. */
  lemma SweepOfUnversioned(s: Site, env: Env, n: Manifest)
    requires Healthy(s) && FreshIds(s, env) && VersioningOf(s, n) == Off
    ensures Has(AfterMaintain(s, env), n) <==>
              Has(s.tables.objects, n) && !Expired(s, env.now, n) && !Removed(s, env.now, n)
  {
    SweepFollowsRules(s, env);
    PlanIsProper(s, env);
    MarkersDoNotCollide(PlanOf(s, env), n);
    NothingHides(s, env, n);
    if Has(s.tables.objects, n) {
      GoesMeans(s, env, n);
    }
  }

  /** With versioning on it leaves expired versions too, and adds a delete marker for each. */
  lemma SweepOfVersioned(s: Site, env: Env, n: Manifest)
    requires Healthy(s) && FreshIds(s, env) && VersioningOf(s, n) == Enabled
    ensures Has(AfterMaintain(s, env), n) <==>
              || (Has(s.tables.objects, n) && !Removed(s, env.now, n))
              || (exists e :: Expired(s, env.now, e) && n == MarkerOf(s, env, e))
  {
    var p := PlanOf(s, env);
    SweepFollowsRules(s, env);
    PlanIsProper(s, env);
    MarkersDoNotCollide(p, n);
    if Has(s.tables.objects, n) {
      GoesMeans(s, env, n);
    }
    MarkerRowMeans(s, env, n);
  }

  /** A row is the marker of its key exactly if an expired version has this marker. */
  lemma MarkerRowMeans(s: Site, env: Env, n: Manifest)
    requires Healthy(s) && VersioningOf(s, n) != Off
    ensures KeyHides(PlanOf(s, env), n) && n == PlanOf(s, env).MarkerFor(PlanOf(s, env).CurrentOf(n).value)
       <==> exists e :: Expired(s, env.now, e) && n == MarkerOf(s, env, e)
  {
    var p := PlanOf(s, env);
    CurrentIsRow(s.tables.objects, n.key.bucket, n.key.key);
    if KeyHides(p, n) {
      var e := p.CurrentOf(n).value;
      KeyHidesMeans(s, env, n, e);
      GoesMeans(s, env, e);
    }
    forall e | Expired(s, env.now, e) && n == MarkerOf(s, env, e)
      ensures KeyHides(p, n) && n == p.MarkerFor(p.CurrentOf(n).value)
    {
      KeyHidesMeans(s, env, n, e);
      GoesMeans(s, env, e);
    }
  }

  lemma SlotMeans(s: Site, env: Env, n: Manifest, e: Manifest)
    requires Healthy(s) && Expired(s, env.now, e) && VersioningOf(s, e) != Off && ProperKey(n.key)
    ensures PlanOf(s, env).Slot(e) == Encode(n.key) <==> MarkerOf(s, env, e).key == n.key
  {
    GoesMeans(s, env, e);
    assert RowOk(s, e);
    EncodeIsInjective(MarkerOf(s, env, e).key, n.key);
  }

  lemma MarkerGoesMeans(s: Site, env: Env, e: Manifest)
    requires Healthy(s) && Expired(s, env.now, e) && VersioningOf(s, e) != Off
    ensures MarkerGoes(PlanOf(s, env), e) <==>
              exists x :: Has(s.tables.objects, x) && x.key == MarkerOf(s, env, e).key && Removed(s, env.now, x)
  {
    var p, o := PlanOf(s, env), s.tables.objects;
    GoesMeans(s, env, e);
    assert p.Slot(e) == Encode(MarkerOf(s, env, e).key);
    if p.Slot(e) in o {
      var x := o[p.Slot(e)];
      assert Has(o, x) && RowOk(s, x);
      SlotMeans(s, env, x, e);
      GoesMeans(s, env, x);
    }
  }

  /** A marker takes the place of the row. */
  ghost predicate Overlaid(s: Site, env: Env, n: Manifest) {
    exists e :: Expired(s, env.now, e) && MarkerOf(s, env, e).key == n.key
  }

  /** The row is the marker of an expired version, and stays: no superseded row had its id before. */
  ghost predicate Marks(s: Site, env: Env, n: Manifest) {
    && (exists e :: Expired(s, env.now, e) && n == MarkerOf(s, env, e))
    && (forall x :: Has(s.tables.objects, x) && x.key == n.key ==> !Removed(s, env.now, x))
  }

  lemma OverlaidMeans(s: Site, env: Env, n: Manifest)
    requires Healthy(s) && Has(s.tables.objects, n) && VersioningOf(s, n) != Off
    ensures Overlaid(s, env, n) <==>
              KeyHides(PlanOf(s, env), n) && PlanOf(s, env).Slot(PlanOf(s, env).CurrentOf(n).value) == Encode(n.key)
  {
    var p := PlanOf(s, env);
    assert RowOk(s, n);
    CurrentIsRow(s.tables.objects, n.key.bucket, n.key.key);
    if KeyHides(p, n) {
      var e := p.CurrentOf(n).value;
      KeyHidesMeans(s, env, n, e);
      SlotMeans(s, env, n, e);
    }
    forall e | Expired(s, env.now, e) && MarkerOf(s, env, e).key == n.key
      ensures KeyHides(p, n) && p.Slot(p.CurrentOf(n).value) == Encode(n.key)
    {
      KeyHidesMeans(s, env, n, e);
      SlotMeans(s, env, n, e);
    }
  }

  lemma MarksMeans(s: Site, env: Env, n: Manifest)
    requires Healthy(s) && VersioningOf(s, n) != Off
    ensures Marks(s, env, n) <==>
              && KeyHides(PlanOf(s, env), n) && n == PlanOf(s, env).MarkerFor(PlanOf(s, env).CurrentOf(n).value)
              && !MarkerGoes(PlanOf(s, env), PlanOf(s, env).CurrentOf(n).value)
  {
    var p := PlanOf(s, env);
    MarkerRowMeans(s, env, n);
    forall e | Expired(s, env.now, e) && n == MarkerOf(s, env, e)
      ensures p.CurrentOf(n) == Some(e)
      ensures MarkerGoes(p, e) <==> exists x :: Has(s.tables.objects, x) && x.key == n.key && Removed(s, env.now, x)
    {
      KeyHidesMeans(s, env, n, e);
      MarkerGoesMeans(s, env, e);
    }
  }

  /** With suspended versioning the marker takes the place of the row with the id "null", and goes again in
      the same sweep if that row was to be removed. */
  lemma SweepOfSuspended(s: Site, env: Env, n: Manifest)
    requires Healthy(s) && FreshIds(s, env) && VersioningOf(s, n) == Suspended
    ensures Has(AfterMaintain(s, env), n) <==>
              || (Has(s.tables.objects, n) && !Removed(s, env.now, n) && !Overlaid(s, env, n))
              || Marks(s, env, n)
  {
    SweepFollowsRules(s, env);
    MarksMeans(s, env, n);
    if Has(s.tables.objects, n) {
      OverlaidMeans(s, env, n);
      GoesMeans(s, env, n);
    }
  }

  ghost function ExpiredRows(s: Site, now: Time): set<Bytes> {
    set k | k in s.tables.objects && Expired(s, now, s.tables.objects[k])
  }

  ghost function SupersededRows(s: Site, now: Time): set<Bytes> {
    set k | k in s.tables.objects && Superseded(s, now, s.tables.objects[k])
  }

  ghost function AbandonedRows(s: Site, now: Time): set<Bytes> {
    set k | k in s.tables.objects && Abandoned(s, now, s.tables.objects[k])
  }

  lemma VerdictAtKey(s: Site, env: Env, k: Bytes)
    requires Healthy(s) && k in s.tables.objects
    ensures PlanOf(s, env).VerdictOn(s.tables.objects[k]) == ExpireCurrent <==> k in ExpiredRows(s, env.now)
    ensures PlanOf(s, env).VerdictOn(s.tables.objects[k]) == ExpireNoncurrent <==> k in SupersededRows(s, env.now)
    ensures PlanOf(s, env).VerdictOn(s.tables.objects[k]) == Verdict.Abort <==> k in AbandonedRows(s, env.now)
  {
    assert Has(s.tables.objects, s.tables.objects[k]);
    VerdictMeans(s, env, s.tables.objects[k]);
  }

  lemma ReceivingMeans(s: Site, env: Env)
    requires Healthy(s)
    ensures PlanOf(s, env).Receiving(s.tables.objects.Keys, ExpireCurrent) == ExpiredRows(s, env.now)
    ensures PlanOf(s, env).Receiving(s.tables.objects.Keys, ExpireNoncurrent) == SupersededRows(s, env.now)
    ensures PlanOf(s, env).Receiving(s.tables.objects.Keys, Verdict.Abort) == AbandonedRows(s, env.now)
  {
    forall k | k in s.tables.objects
      ensures PlanOf(s, env).VerdictOn(s.tables.objects[k]) == ExpireCurrent <==> k in ExpiredRows(s, env.now)
      ensures PlanOf(s, env).VerdictOn(s.tables.objects[k]) == ExpireNoncurrent <==> k in SupersededRows(s, env.now)
      ensures PlanOf(s, env).VerdictOn(s.tables.objects[k]) == Verdict.Abort <==> k in AbandonedRows(s, env.now)
    {
      VerdictAtKey(s, env, k);
    }
  }

  /** And the report counts the rows of each kind. */
  lemma SweepCounts(s: Site, env: Env)
    requires Healthy(s) && FreshIds(s, env)
    ensures var report := Maintain(s, env).1;
      && report.expiredCurrent == |ExpiredRows(s, env.now)|
      && report.expiredNoncurrent == |SupersededRows(s, env.now)|
      && report.abortedMultipart == |AbandonedRows(s, env.now)|
  {
    SweepFollowsRules(s, env);
    ReceivingMeans(s, env);
  }
}
