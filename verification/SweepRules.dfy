/** The lifecycle sweep refines its rules (src/s3/maintenance.rs:55-230), whatever the versioning of the
    buckets: exactly which rows there are afterwards, and what is counted. */
module SweepRules {
  import opened Results
  import opened ByteStrings
  import opened Manifests
  import opened KeyOrder
  import opened Transactions
  import opened Scans
  import opened Lifecycle

  /** The current version of a key is a committed row of that key. */
  lemma CurrentIsRow(o: Objects, bucket: Bytes, key: Bytes)
    requires WellFormed(o)
    ensures var c := Current(o, bucket, key);
      c.Some? ==>
        Has(o, c.value) && c.value.key.bucket == bucket && c.value.key.key == key && c.value.state == Committed
  {
    var rows := Rows(o, KeyStart(bucket, key), KeyEnd(bucket, key));
    RowsSpec(o, KeyStart(bucket, key), KeyEnd(bucket, key));
    FilterMembers(rows, (m: Manifest) => m.key.bucket == bucket && m.key.key == key);
    FilterMembers(VersionRows(o, bucket, key), IsCommitted);
    var ms := CommittedOnly(VersionRows(o, bucket, key));
    if ms != [] {
      NewestWins(ms);
      var i :| Wins(ms, i) && Newest(ms) == Some(ms[i]);
      assert ms[i] in ms;
    }
  }

  /** The state at the beginning of a sweep. */
  datatype Plan = Plan(tables: Tables, buckets: Buckets, clock: Clock) {
    function CurrentOf(m: Manifest): Option<Manifest> {
      Current(tables.objects, m.key.bucket, m.key.key)
    }

    function VersioningOf(m: Manifest): VersioningState {
      if m.key.bucket in buckets then buckets[m.key.bucket].versioning else Off
    }

    function VerdictOn(m: Manifest): Verdict {
      if m.key.bucket !in buckets then Keep
      else
        var rules := Active(buckets[m.key.bucket].lifecycleRules);
        if rules == [] then Keep else Judge(m, CurrentOf(m) == Some(m), rules, clock.now)
    }

    /** The manifest is deleted. */
    predicate Goes(m: Manifest) {
      match VerdictOn(m)
      case Keep => false
      case Abort => true
      case ExpireNoncurrent => true
      case ExpireCurrent => VersioningOf(m) == Off
    }

    /** The current version expires by way of a delete marker. */
    predicate Hides(m: Manifest) {
      VerdictOn(m) == ExpireCurrent && VersioningOf(m) != Off
    }

    function MarkerFor(m: Manifest): Manifest {
      Marker(m, MarkerId(m, VersioningOf(m), clock), clock.now)
    }

    /** Where the marker is stored: under a new id, or in the "null" slot of a suspended bucket. */
    function Slot(m: Manifest): Bytes {
      Encode(MarkerFor(m).key)
    }

    /** New ids are new, and what sits in the "null" slot of a suspended bucket is committed. */
    ghost predicate Proper() {
      && WellFormed(tables.objects) && (forall b :: b in buckets ==> NulFree(b))
      && (forall m :: Has(tables.objects, m) && VersioningOf(m) == Enabled ==> Slot(m) !in tables.objects)
      && (forall m :: Has(tables.objects, m) && VersioningOf(m) == Suspended && m.key.versionId == NULL_VERSION ==>
           m.state == Committed)
    }

    // ---- once the rows under `done` have been treated ----

    /** The manifest's key has got its marker. */
    predicate Hidden(done: set<Bytes>, m: Manifest) {
      var c := CurrentOf(m);
      c.Some? && Hides(c.value) && Encode(c.value.key) in done
    }

    /** The marker took the slot of this manifest. */
    predicate Replaced(done: set<Bytes>, m: Manifest) {
      Hidden(done, m) && Slot(CurrentOf(m).value) == Encode(m.key)
    }

    /** The marker was deleted again, in place of the row that had its slot before. */
    predicate Collapses(done: set<Bytes>, c: Manifest) {
      var k := Slot(c);
      k in done && k in tables.objects && tables.objects[k] != c && Goes(tables.objects[k])
    }

    predicate Expected(done: set<Bytes>, m: Manifest) {
      || (Has(tables.objects, m) && !(Encode(m.key) in done && Goes(m)) && !Replaced(done, m))
      || (Hidden(done, m) && m == MarkerFor(CurrentOf(m).value) && !Collapses(done, CurrentOf(m).value))
    }

    function Receiving(done: set<Bytes>, v: Verdict): set<Bytes> {
      set k | k in done && k in tables.objects && VerdictOn(tables.objects[k]) == v
    }

    function ReportOn(done: set<Bytes>): Report {
      Report(|Receiving(done, ExpireCurrent)|, |Receiving(done, ExpireNoncurrent)|, |Receiving(done, Abort)|, 0)
    }
  }

  ghost predicate Refines(p: Plan, done: set<Bytes>, s: Sweep) {
    && s.failed.None? && WellFormed(s.tables.objects)
    && (forall m :: Has(s.tables.objects, m) <==> p.Expected(done, m))
    && s.report == p.ReportOn(done)
  }

  // ---- one row ----

  lemma ReceivingStep(p: Plan, done: set<Bytes>, e: Manifest, v: Verdict)
    requires Has(p.tables.objects, e) && Encode(e.key) !in done
    ensures |p.Receiving(done + {Encode(e.key)}, v)| == |p.Receiving(done, v)| + if p.VerdictOn(e) == v then 1 else 0
  {
    var k := Encode(e.key);
    assert p.Receiving(done + {k}, v) == p.Receiving(done, v) + if p.VerdictOn(e) == v then {k} else {};
  }

  lemma ReportStep(p: Plan, done: set<Bytes>, e: Manifest)
    requires Has(p.tables.objects, e) && Encode(e.key) !in done
    ensures p.ReportOn(done + {Encode(e.key)}) == Noted(p.ReportOn(done), p.VerdictOn(e))
  {
    ReceivingStep(p, done, e, ExpireCurrent);
    ReceivingStep(p, done, e, ExpireNoncurrent);
    ReceivingStep(p, done, e, Abort);
  }

  /** A row that hides nothing gives no key its marker. */
  lemma HiddenStays(p: Plan, done: set<Bytes>, e: Manifest, m: Manifest)
    requires WellFormed(p.tables.objects) && Has(p.tables.objects, e) && !p.Hides(e)
    ensures p.Hidden(done + {Encode(e.key)}, m) == p.Hidden(done, m)
  {
    CurrentIsRow(p.tables.objects, m.key.bucket, m.key.key);
  }

  lemma DeleteStepAt(p: Plan, done: set<Bytes>, e: Manifest, m: Manifest)
    requires WellFormed(p.tables.objects) && Has(p.tables.objects, e) && p.Goes(e)
    ensures p.Expected(done + {Encode(e.key)}, m) <==> p.Expected(done, m) && Encode(m.key) != Encode(e.key)
  {
    HiddenStays(p, done, e, m);
    assert Has(p.tables.objects, m) && Encode(m.key) == Encode(e.key) ==> m == e;
    if p.Hidden(done, m) {
      CollapsesWith(p, done, e, p.CurrentOf(m).value);
    }
  }

  /** Deleting a row makes the marker collapse that had taken its slot, and no other. */
  lemma CollapsesWith(p: Plan, done: set<Bytes>, e: Manifest, c: Manifest)
    requires Has(p.tables.objects, e) && p.Goes(e) && p.Hides(c)
    ensures p.Collapses(done + {Encode(e.key)}, c) <==> p.Collapses(done, c) || p.Slot(c) == Encode(e.key)
  {
  }

  /** The row to be deleted, or the marker that took its slot, is there. */
  lemma DeleteFinds(p: Plan, done: set<Bytes>, o: Objects, e: Manifest)
    requires p.Proper() && WellFormed(o) && forall m :: Has(o, m) <==> p.Expected(done, m)
    requires Has(p.tables.objects, e) && p.Goes(e) && Encode(e.key) !in done
    ensures Encode(e.key) in o
  {
    CurrentIsRow(p.tables.objects, e.key.bucket, e.key.key);
    if p.Replaced(done, e) {
      assert p.Expected(done, p.MarkerFor(p.CurrentOf(e).value));
    } else {
      assert p.Expected(done, e);
    }
  }

  lemma DeleteStep(p: Plan, done: set<Bytes>, o: Objects, e: Manifest)
    requires p.Proper() && WellFormed(o) && forall m :: Has(o, m) <==> p.Expected(done, m)
    requires Has(p.tables.objects, e) && p.Goes(e) && Encode(e.key) !in done
    ensures Encode(e.key) in o && WellFormed(o - {Encode(e.key)})
    ensures forall m :: Has(o - {Encode(e.key)}, m) <==> p.Expected(done + {Encode(e.key)}, m)
  {
    DeleteFinds(p, done, o, e);
    RowDeleted(o, Encode(e.key));
    forall m
      ensures Has(o - {Encode(e.key)}, m) <==> p.Expected(done + {Encode(e.key)}, m)
    {
      DeleteStepAt(p, done, e, m);
    }
  }

  lemma RowDeleted(o: Objects, k: Bytes)
    requires WellFormed(o)
    ensures WellFormed(o - {k}) && forall m :: Has(o - {k}, m) <==> Has(o, m) && Encode(m.key) != k
  {
  }

  lemma HidesIsCurrent(p: Plan, e: Manifest)
    requires p.Hides(e)
    ensures p.CurrentOf(e) == Some(e)
  {
  }

  /** A row in the marker's slot belongs to the marker's key. */
  lemma SlotOfKey(p: Plan, e: Manifest, m: Manifest)
    requires p.Proper() && Has(p.tables.objects, e) && p.Hides(e) && ProperKey(m.key) && Encode(m.key) == p.Slot(e)
    ensures m.key == p.MarkerFor(e).key && p.CurrentOf(m) == Some(e)
  {
    EncodeIsInjective(m.key, p.MarkerFor(e).key);
    HidesIsCurrent(p, e);
  }

  lemma MarkerStepSameKey(p: Plan, done: set<Bytes>, e: Manifest, m: Manifest)
    requires Has(p.tables.objects, e) && p.Hides(e) && Encode(e.key) !in done && !p.Collapses(done, e)
    requires p.CurrentOf(m) == Some(e)
    ensures p.Expected(done + {Encode(e.key)}, m)
       <==> m == p.MarkerFor(e) || (p.Expected(done, m) && Encode(m.key) != p.Slot(e))
  {
    assert !p.Collapses(done + {Encode(e.key)}, e);
    HiddenNow(p, done, e, m);
    assert Has(p.tables.objects, m) && Encode(m.key) == Encode(e.key) ==> m == e;
  }

  lemma HiddenNow(p: Plan, done: set<Bytes>, e: Manifest, m: Manifest)
    requires p.Hides(e) && Encode(e.key) !in done && p.CurrentOf(m) == Some(e)
    ensures !p.Hidden(done, m) && p.Hidden(done + {Encode(e.key)}, m) && !p.Goes(e)
  {
  }

  lemma MarkerStepOtherKey(p: Plan, done: set<Bytes>, e: Manifest, m: Manifest)
    requires p.Proper() && Has(p.tables.objects, e) && p.Hides(e) && Encode(e.key) !in done
    requires p.CurrentOf(m) != Some(e)
    ensures p.Expected(done + {Encode(e.key)}, m) <==> p.Expected(done, m)
  {
    OtherKeyHidden(p, done, e, m);
    assert Has(p.tables.objects, m) && Encode(m.key) == Encode(e.key) ==> m == e && p.CurrentOf(m) == Some(e);
    if p.Hidden(done, m) {
      var c := p.CurrentOf(m).value;
      assert p.Collapses(done + {Encode(e.key)}, c) == p.Collapses(done, c);
    }
  }

  lemma OtherKeyHidden(p: Plan, done: set<Bytes>, e: Manifest, m: Manifest)
    requires p.Proper() && Has(p.tables.objects, e) && p.Hides(e) && p.CurrentOf(m) != Some(e)
    ensures p.Hidden(done + {Encode(e.key)}, m) == p.Hidden(done, m)
    ensures p.CurrentOf(e) == Some(e)
  {
    CurrentIsRow(p.tables.objects, m.key.bucket, m.key.key);
    HidesIsCurrent(p, e);
  }

  lemma MarkerStepAt(p: Plan, done: set<Bytes>, e: Manifest, m: Manifest)
    requires p.Proper() && Has(p.tables.objects, e) && p.Hides(e) && Encode(e.key) !in done && !p.Collapses(done, e)
    requires p.Expected(done, m) || p.Expected(done + {Encode(e.key)}, m) || m == p.MarkerFor(e)
    ensures p.Expected(done + {Encode(e.key)}, m)
       <==> m == p.MarkerFor(e) || (p.Expected(done, m) && Encode(m.key) != p.Slot(e))
  {
    CurrentIsRow(p.tables.objects, m.key.bucket, m.key.key);
    HidesIsCurrent(p, e);
    if p.CurrentOf(m) == Some(e) {
      MarkerStepSameKey(p, done, e, m);
    } else {
      MarkerStepOtherKey(p, done, e, m);
      if Encode(m.key) == p.Slot(e) {
        SlotOfKey(p, e, m);
      }
    }
  }

  lemma MarkerStep(p: Plan, done: set<Bytes>, o: Objects, e: Manifest)
    requires p.Proper() && WellFormed(o) && forall m :: Has(o, m) <==> p.Expected(done, m)
    requires Has(p.tables.objects, e) && p.Hides(e) && Encode(e.key) !in done && !p.Collapses(done, e)
    ensures WellFormed(o[p.Slot(e) := p.MarkerFor(e)])
    ensures forall m :: Has(o[p.Slot(e) := p.MarkerFor(e)], m) <==> p.Expected(done + {Encode(e.key)}, m)
  {
    var after := o[p.Slot(e) := p.MarkerFor(e)];
    forall m
      ensures Has(after, m) <==> p.Expected(done + {Encode(e.key)}, m)
    {
      assert Has(after, m) <==> m == p.MarkerFor(e) || (Has(o, m) && Encode(m.key) != p.Slot(e));
      if p.Expected(done, m) || p.Expected(done + {Encode(e.key)}, m) || m == p.MarkerFor(e) {
        MarkerStepAt(p, done, e, m);
      }
    }
  }

  lemma UnchangedStep(p: Plan, done: set<Bytes>, e: Manifest, m: Manifest)
    requires p.Proper() && Has(p.tables.objects, e) && !p.Goes(e) && !p.Hides(e)
    ensures p.Expected(done + {Encode(e.key)}, m) <==> p.Expected(done, m)
  {
    HiddenStays(p, done, e, m);
  }

  // ---- one bucket ----

  /** A job about a row that has not been treated yet, nor the row whose slot its marker takes. */
  ghost predicate Ready(p: Plan, bucket: Bytes, done: set<Bytes>, j: Job) {
    && Has(p.tables.objects, j.manifest) && Encode(j.manifest.key) !in done && j.manifest.key.bucket == bucket
    && (j.current <==> p.CurrentOf(j.manifest) == Some(j.manifest))
    && (p.Hides(j.manifest) ==> !p.Collapses(done, j.manifest))
  }

  lemma TreatRefines(p: Plan, done: set<Bytes>, s: Sweep, j: Job, bucket: Bytes)
    requires p.Proper() && Refines(p, done, s) && Ready(p, bucket, done, j)
    requires bucket in p.buckets && Active(p.buckets[bucket].lifecycleRules) != []
    ensures Refines(p, done + {Encode(j.manifest.key)}, Treat(s, j, p.buckets[bucket], p.clock))
  {
    var m := j.manifest;
    ReportStep(p, done, m);
    if p.Goes(m) {
      DeleteStep(p, done, s.tables.objects, m);
    } else if p.Hides(m) {
      MarkerStep(p, done, s.tables.objects, m);
    } else {
      forall x
        ensures p.Expected(done + {Encode(m.key)}, x) <==> p.Expected(done, x)
      {
        UnchangedStep(p, done, m, x);
      }
    }
  }

  function JobKeys(jobs: seq<Job>): set<Bytes> {
    set j | j in jobs :: Encode(j.manifest.key)
  }

  /** A marker is written before the row whose slot it takes is looked at. */
  predicate MarkersInTime(p: Plan, jobs: seq<Job>) {
    forall i, j :: 0 <= i < j < |jobs| && p.Hides(jobs[j].manifest) && p.Goes(jobs[i].manifest) ==>
      Encode(jobs[i].manifest.key) != p.Slot(jobs[j].manifest)
  }

  lemma JobsInTime(p: Plan, bucket: Bytes, jobs: seq<Job>, done: set<Bytes>)
    requires p.Proper() && CurrentFirst(jobs) && forall j :: j in jobs ==> Ready(p, bucket, done, j)
    ensures MarkersInTime(p, jobs)
  {
    forall i, j | 0 <= i < j < |jobs| && p.Hides(jobs[j].manifest) && p.Goes(jobs[i].manifest)
      ensures Encode(jobs[i].manifest.key) != p.Slot(jobs[j].manifest)
    {
      assert jobs[i] in jobs && jobs[j] in jobs;
      assert Ready(p, bucket, done, jobs[i]) && Ready(p, bucket, done, jobs[j]);
      HidesIsCurrent(p, jobs[j].manifest);
      if Encode(jobs[i].manifest.key) == p.Slot(jobs[j].manifest) {
        SlotOfKey(p, jobs[j].manifest, jobs[i].manifest);
      }
    }
  }

  lemma ReadyAfter(p: Plan, bucket: Bytes, done: set<Bytes>, first: Job, j: Job)
    requires p.Proper() && Ready(p, bucket, done, first) && Ready(p, bucket, done, j) && first.manifest != j.manifest
    requires p.Hides(j.manifest) && p.Goes(first.manifest) ==> Encode(first.manifest.key) != p.Slot(j.manifest)
    ensures Ready(p, bucket, done + {Encode(first.manifest.key)}, j)
  {
  }

  lemma StillReady(p: Plan, bucket: Bytes, done: set<Bytes>, jobs: seq<Job>)
    requires p.Proper() && jobs != [] && DistinctJobs(jobs) && MarkersInTime(p, jobs)
    requires forall j :: j in jobs ==> Ready(p, bucket, done, j)
    ensures DistinctJobs(jobs[1..]) && MarkersInTime(p, jobs[1..])
    ensures forall j :: j in jobs[1..] ==> Ready(p, bucket, done + {Encode(jobs[0].manifest.key)}, j)
  {
    forall i | 0 <= i < |jobs[1..]|
      ensures Ready(p, bucket, done + {Encode(jobs[0].manifest.key)}, jobs[1..][i])
    {
      assert jobs[1..][i] == jobs[i + 1] && jobs[i + 1] in jobs && jobs[0] in jobs;
      ReadyAfter(p, bucket, done, jobs[0], jobs[i + 1]);
    }
  }

  lemma JobKeysStep(done: set<Bytes>, jobs: seq<Job>)
    requires jobs != []
    ensures done + JobKeys(jobs) == done + {Encode(jobs[0].manifest.key)} + JobKeys(jobs[1..])
  {
    assert jobs == [jobs[0]] + jobs[1..];
    assert JobKeys(jobs) == {Encode(jobs[0].manifest.key)} + JobKeys(jobs[1..]);
  }

  lemma {:induction false} TreatAllRefines(p: Plan, done: set<Bytes>, s: Sweep, jobs: seq<Job>, bucket: Bytes)
    requires p.Proper() && Refines(p, done, s) && DistinctJobs(jobs) && MarkersInTime(p, jobs)
    requires bucket in p.buckets && Active(p.buckets[bucket].lifecycleRules) != []
    requires forall j :: j in jobs ==> Ready(p, bucket, done, j)
    ensures Refines(p, done + JobKeys(jobs), TreatAll(s, jobs, p.buckets[bucket], p.clock))
    decreases |jobs|
  {
    if jobs == [] {
      assert done + JobKeys(jobs) == done;
    } else {
      assert jobs[0] in jobs;
      TreatRefines(p, done, s, jobs[0], bucket);
      StillReady(p, bucket, done, jobs);
      JobKeysStep(done, jobs);
      var next := Treat(s, jobs[0], p.buckets[bucket], p.clock);
      TreatAllRefines(p, done + {Encode(jobs[0].manifest.key)}, next, jobs[1..], bucket);
    }
  }

  lemma SweepBucketRefines(p: Plan, done: set<Bytes>, s: Sweep, name: Bytes)
    requires p.Proper() && Refines(p, done, s) && name in p.buckets
    requires done !! RowsOf(p.tables.objects, [name])
    ensures Refines(p, done + RowsOf(p.tables.objects, [name]), SweepBucket(s, name, p.buckets[name], p.clock))
  {
    if Active(p.buckets[name].lifecycleRules) == [] {
      NothingToDo(p, done, s, RowsOf(p.tables.objects, [name]));
    } else {
      SameBucketRows(p, done, s, name);
      AllReady(p, done, name);
      TreatAllRefines(p, done, s, BucketJobs(p.tables.objects, name), name);
    }
  }

  /** Nothing collapses before the bucket has been looked at. */
  lemma NotCollapsedYet(p: Plan, done: set<Bytes>, name: Bytes, e: Manifest)
    requires p.Proper() && done !! RowsOf(p.tables.objects, [name])
    requires Has(p.tables.objects, e) && p.Hides(e) && e.key.bucket == name
    ensures !p.Collapses(done, e)
  {
    if p.Slot(e) in p.tables.objects {
      var n := p.tables.objects[p.Slot(e)];
      SlotOfKey(p, e, n);
      assert p.Slot(e) in RowsOf(p.tables.objects, [name]);
    }
  }

  lemma AllReady(p: Plan, done: set<Bytes>, name: Bytes)
    requires p.Proper() && name in p.buckets && done !! RowsOf(p.tables.objects, [name])
    ensures var jobs := BucketJobs(p.tables.objects, name);
      && DistinctJobs(jobs) && JobKeys(jobs) == RowsOf(p.tables.objects, [name]) && MarkersInTime(p, jobs)
      && forall j :: j in jobs ==> Ready(p, name, done, j)
  {
    var o, rows := p.tables.objects, RowsOf(p.tables.objects, [name]);
    BucketJobsCover(o, name);
    var jobs := BucketJobs(o, name);
    forall j | j in jobs
      ensures Encode(j.manifest.key) in rows && Ready(p, name, done, j)
    {
      assert Has(o, j.manifest);
      if p.Hides(j.manifest) {
        NotCollapsedYet(p, done, name, j.manifest);
      }
    }
    JobsInTime(p, name, jobs, done);
    forall k | k in rows
      ensures k in JobKeys(jobs)
    {
      assert Job(o[k], Current(o, name, o[k].key.key) == Some(o[k])) in jobs;
    }
  }

  lemma UntouchedAt(p: Plan, done: set<Bytes>, name: Bytes, m: Manifest)
    requires p.Proper() && done !! RowsOf(p.tables.objects, [name]) && m.key.bucket == name
    ensures p.Expected(done, m) <==> Has(p.tables.objects, m)
  {
    CurrentIsRow(p.tables.objects, m.key.bucket, m.key.key);
    assert !p.Hidden(done, m);
  }

  /** The sweep reads a bucket as it was at the beginning: earlier buckets left it alone. */
  lemma SameBucketRows(p: Plan, done: set<Bytes>, s: Sweep, name: Bytes)
    requires p.Proper() && Refines(p, done, s) && name in p.buckets
    requires done !! RowsOf(p.tables.objects, [name])
    ensures BucketJobs(s.tables.objects, name) == BucketJobs(p.tables.objects, name)
  {
    var o, o' := p.tables.objects, s.tables.objects;
    BucketRowsSpec(o, name);
    BucketRowsSpec(o', name);
    forall m
      ensures m in BucketRows(o', name) <==> m in BucketRows(o, name)
    {
      if m.key.bucket == name {
        UntouchedAt(p, done, name, m);
      }
    }
    RowOrderUnique(BucketRows(o', name), BucketRows(o, name));
  }

  // ---- all buckets ----

  lemma NothingToDoAt(p: Plan, done: set<Bytes>, more: set<Bytes>, m: Manifest)
    requires WellFormed(p.tables.objects)
    requires forall k :: k in more ==> k in p.tables.objects && p.VerdictOn(p.tables.objects[k]) == Keep
    ensures p.Expected(done + more, m) <==> p.Expected(done, m)
  {
    CurrentIsRow(p.tables.objects, m.key.bucket, m.key.key);
    assert forall e :: Has(p.tables.objects, e) && Encode(e.key) in more ==> !p.Goes(e) && !p.Hides(e);
    assert p.Hidden(done + more, m) == p.Hidden(done, m);
  }

  /** Rows that are kept need no treatment. */
  lemma NothingToDo(p: Plan, done: set<Bytes>, s: Sweep, more: set<Bytes>)
    requires p.Proper() && Refines(p, done, s)
    requires forall k :: k in more ==> k in p.tables.objects && p.VerdictOn(p.tables.objects[k]) == Keep
    ensures Refines(p, done + more, s)
  {
    forall m
      ensures p.Expected(done + more, m) <==> p.Expected(done, m)
    {
      NothingToDoAt(p, done, more, m);
    }
    SameReport(p, done, more);
  }

  lemma SameReport(p: Plan, done: set<Bytes>, more: set<Bytes>)
    requires forall k :: k in more ==> k in p.tables.objects && p.VerdictOn(p.tables.objects[k]) == Keep
    ensures p.ReportOn(done + more) == p.ReportOn(done)
  {
    forall v: Verdict | v != Keep
      ensures p.Receiving(done + more, v) == p.Receiving(done, v)
    {
    }
  }

  lemma {:induction false} SweepBucketsRefines(p: Plan, done: set<Bytes>, s: Sweep, names: seq<Bytes>)
    requires p.Proper() && Refines(p, done, s) && Ascending(names)
    requires forall b :: b in names ==> b in p.buckets
    requires done !! RowsOf(p.tables.objects, names)
    ensures Refines(p, done + RowsOf(p.tables.objects, names), SweepBuckets(s, names, p.buckets, p.clock))
    decreases |names|
  {
    var o := p.tables.objects;
    if names == [] {
      assert done + RowsOf(o, names) == done;
    } else {
      assert names == [names[0]] + names[1..] && names[0] in names;
      LessIrreflexive(names[0]);
      assert RowsOf(o, names) == RowsOf(o, [names[0]]) + RowsOf(o, names[1..]);
      SweepBucketRefines(p, done, s, names[0]);
      var done' := done + RowsOf(o, [names[0]]);
      SweepBucketsRefines(p, done', SweepBucket(s, names[0], p.buckets[names[0]], p.clock), names[1..]);
      assert done' + RowsOf(o, names[1..]) == done + RowsOf(o, names);
    }
  }

  lemma RefinesAtStart(p: Plan)
    requires p.Proper()
    ensures Refines(p, {}, Sweep(p.tables, Report(0, 0, 0, 0), None))
  {
    assert forall v :: p.Receiving({}, v) == {};
    forall m
      ensures p.Expected({}, m) <==> Has(p.tables.objects, m)
    {
    }
  }

  lemma OutsideIsKept(p: Plan, names: seq<Bytes>, others: set<Bytes>)
    requires others <= p.tables.objects.Keys && others !! RowsOf(p.tables.objects, names)
    requires forall b :: b in p.buckets ==> b in names
    ensures forall k :: k in others ==> k in p.tables.objects && p.VerdictOn(p.tables.objects[k]) == Keep
  {
    forall k | k in others
      ensures p.tables.objects[k].key.bucket !in p.buckets
    {
      assert k !in RowsOf(p.tables.objects, names);
    }
  }

  /** Rows outside all buckets are kept. */
  lemma SweepFinish(p: Plan, names: seq<Bytes>, s: Sweep)
    requires p.Proper() && Refines(p, {} + RowsOf(p.tables.objects, names), s)
    requires forall b :: b in p.buckets ==> b in names
    ensures Refines(p, p.tables.objects.Keys, s)
  {
    var rows := {} + RowsOf(p.tables.objects, names);
    var others := p.tables.objects.Keys - rows;
    assert rows + others == p.tables.objects.Keys;
    OutsideIsKept(p, names, others);
    NothingToDo(p, rows, s, others);
  }

  lemma SweepTreatsEveryRow(p: Plan)
    requires p.Proper()
    ensures Refines(p, p.tables.objects.Keys, SweepLifecycle(p.tables, p.buckets, p.clock))
  {
    SortedSpec(p.buckets.Keys);
    var names := Sorted(p.buckets.Keys);
    var s0 := Sweep(p.tables, Report(0, 0, 0, 0), None);
    RefinesAtStart(p);
    SweepBucketsRefines(p, {}, s0, names);
    SweepFinish(p, names, SweepBuckets(s0, names, p.buckets, p.clock));
  }

  // ---- the result ----

  /** The current version of the key hides behind a marker, and which one that is. */
  predicate KeyHides(p: Plan, m: Manifest) {
    p.CurrentOf(m).Some? && p.Hides(p.CurrentOf(m).value)
  }

  /** A row in the marker's slot other than the hidden version itself is to be deleted. That happens to
      the marker, which has taken the slot by then. */
  predicate MarkerGoes(p: Plan, c: Manifest) {
    var k := p.Slot(c);
    k in p.tables.objects && p.tables.objects[k] != c && p.Goes(p.tables.objects[k])
  }

  /** What the rules ask of the object table: the rows that go are gone, and so are those whose slot a
      marker takes; each hidden version has its marker unless that goes too; every other row is there. */
  predicate InTheEnd(p: Plan, m: Manifest) {
    || (Has(p.tables.objects, m) && !p.Goes(m) && !(KeyHides(p, m) && p.Slot(p.CurrentOf(m).value) == Encode(m.key)))
    || (KeyHides(p, m) && m == p.MarkerFor(p.CurrentOf(m).value) && !MarkerGoes(p, p.CurrentOf(m).value))
  }

  ghost predicate Ruled(p: Plan, after: Objects) {
    WellFormed(after) && forall m :: Has(after, m) <==> InTheEnd(p, m)
  }

  lemma ExpectedInTheEnd(p: Plan, m: Manifest)
    requires p.Proper()
    ensures p.Expected(p.tables.objects.Keys, m) <==> InTheEnd(p, m)
  {
    CurrentIsRow(p.tables.objects, m.key.bucket, m.key.key);
    assert p.Hidden(p.tables.objects.Keys, m) == KeyHides(p, m);
  }

  /** The object table after the sweep. */
  function AfterSweep(p: Plan): Objects {
    SweepLifecycle(p.tables, p.buckets, p.clock).tables.objects
  }

  /** The lifecycle sweep never fails, does what the rules say, and its counters count the verdicts. */
  lemma SweepRefinesRules(p: Plan)
    requires p.Proper()
    ensures var s := SweepLifecycle(p.tables, p.buckets, p.clock);
      && s.failed.None? && Ruled(p, s.tables.objects)
      && s.report == p.ReportOn(p.tables.objects.Keys)
  {
    SweepTreatsEveryRow(p);
    forall m
      ensures p.Expected(p.tables.objects.Keys, m) <==> InTheEnd(p, m)
    {
      ExpectedInTheEnd(p, m);
    }
  }

  /** Unless versioning is suspended, no marker takes the slot of a row, and none goes again: the table
      is the table before without the rows that go, plus one marker per hidden version. */
  lemma MarkersDoNotCollide(p: Plan, m: Manifest)
    requires p.Proper() && p.VersioningOf(m) != Suspended
    ensures InTheEnd(p, m) <==>
         || (Has(p.tables.objects, m) && !p.Goes(m))
         || (KeyHides(p, m) && m == p.MarkerFor(p.CurrentOf(m).value))
  {
    CurrentIsRow(p.tables.objects, m.key.bucket, m.key.key);
    if KeyHides(p, m) {
      assert Has(p.tables.objects, p.CurrentOf(m).value);
    }
  }

  lemma MarkerInTheEnd(p: Plan, e: Manifest)
    requires p.Hides(e)
    ensures InTheEnd(p, p.MarkerFor(e)) <==> !MarkerGoes(p, e)
  {
    HidesIsCurrent(p, e);
    assert p.CurrentOf(p.MarkerFor(e)) == p.CurrentOf(e);
  }

  /** With suspended versioning too, the marker of an expired version is there after the sweep exactly
      unless another row of the "null" slot is to be deleted in the same sweep. */
  lemma MarkerStaysIff(p: Plan, e: Manifest)
    requires p.Proper() && p.Hides(e)
    ensures Has(AfterSweep(p), p.MarkerFor(e)) <==> !MarkerGoes(p, e)
  {
    SweepRefinesRules(p);
    MarkerInTheEnd(p, e);
  }

  /** The rows of one key after the sweep: survivors, and the marker of its current version. */
  lemma RowsOfKeyAfter(p: Plan, o: Objects, n: Manifest)
    requires Ruled(p, o) && Has(o, n)
    ensures Has(p.tables.objects, n) || (KeyHides(p, n) && n == p.MarkerFor(p.CurrentOf(n).value))
  {
  }

  /** Every committed version of the key that stays is older than the marker, or equally old with a
      greater id. */
  ghost predicate MarkerIsNewest(p: Plan, after: Objects, e: Manifest) {
    var mark := p.MarkerFor(e);
    forall n ::
      Has(after, n) && n.key.bucket == e.key.bucket && n.key.key == e.key.key && n.state == Committed && n != mark ==>
      n.lastModified < p.clock.now || (n.lastModified == p.clock.now && Less(mark.key.versionId, n.key.versionId))
  }

  /** The delete marker of an expired key, if it stays, is the key's current version afterwards exactly
      if it is the newest. */
  lemma MarkerIsCurrentIff(p: Plan, e: Manifest)
    requires p.Proper() && p.Hides(e) && !MarkerGoes(p, e)
    ensures Current(AfterSweep(p), e.key.bucket, e.key.key) == Some(p.MarkerFor(e))
       <==> MarkerIsNewest(p, AfterSweep(p), e)
  {
    SweepRefinesRules(p);
    RuledMarkerIsCurrentIff(p, AfterSweep(p), e);
  }

  lemma RuledMarkerIsCurrentIff(p: Plan, o: Objects, e: Manifest)
    requires Ruled(p, o) && p.Hides(e) && !MarkerGoes(p, e)
    ensures Current(o, e.key.bucket, e.key.key) == Some(p.MarkerFor(e)) <==> MarkerIsNewest(p, o, e)
  {
    var mark := p.MarkerFor(e);
    MarkerInTheEnd(p, e);
    CurrentIff(o, e.key.bucket, e.key.key, mark);
    forall n | Has(o, n) && n.key.bucket == e.key.bucket && n.key.key == e.key.key && n != mark
      ensures Leq(mark.key.versionId, n.key.versionId) <==> Less(mark.key.versionId, n.key.versionId)
    {
      EncodeIsInjective(n.key, mark.key);
      LessTotal(mark.key.versionId, n.key.versionId);
    }
    LessIrreflexive(mark.key.versionId);
  }

  /** If the marker goes, the expiry is undone: the version is still current after the sweep. */
  lemma ExpiryUndone(p: Plan, e: Manifest)
    requires p.Proper() && Has(p.tables.objects, e) && p.Hides(e) && MarkerGoes(p, e)
    ensures Current(AfterSweep(p), e.key.bucket, e.key.key) == Some(e)
  {
    SweepRefinesRules(p);
    RuledExpiryUndone(p, AfterSweep(p), e);
  }

  lemma RuledExpiryUndone(p: Plan, o: Objects, e: Manifest)
    requires p.Proper() && Ruled(p, o) && Has(p.tables.objects, e) && p.Hides(e) && MarkerGoes(p, e)
    ensures Current(o, e.key.bucket, e.key.key) == Some(e)
  {
    HidesIsCurrent(p, e);
    CurrentIff(p.tables.objects, e.key.bucket, e.key.key, e);
    assert InTheEnd(p, e);
    forall n | Has(o, n) && n.key.bucket == e.key.bucket && n.key.key == e.key.key
      ensures Has(p.tables.objects, n)
    {
      assert InTheEnd(p, n) && p.CurrentOf(n) == Some(e);
    }
    CurrentIff(o, e.key.bucket, e.key.key, e);
  }

  /** The sweep counts the version as expired, and it is current nevertheless. */
  ghost predicate StaysCurrent(p: Plan, e: Manifest) {
    && p.Proper() && Has(p.tables.objects, e) && p.VerdictOn(e) == ExpireCurrent
    && Current(AfterSweep(p), e.key.bucket, e.key.key) == Some(e)
  }

  lemma UndoneBySweep(p: Plan, e: Manifest)
    requires p.Proper() && Has(p.tables.objects, e) && p.Hides(e) && MarkerGoes(p, e)
    ensures StaysCurrent(p, e)
  {
    ExpiryUndone(p, e);
  }

  /** Every other key keeps its current version: what goes is never current. */
  lemma OtherKeysKeepTheirCurrent(p: Plan, o: Objects, bucket: Bytes, key: Bytes)
    requires WellFormed(p.tables.objects) && Ruled(p, o) && NulFree(bucket) && NulFree(key)
    requires var c := Current(p.tables.objects, bucket, key); c.Some? ==> p.VerdictOn(c.value) != ExpireCurrent
    ensures Current(o, bucket, key) == Current(p.tables.objects, bucket, key)
  {
    var c := Current(p.tables.objects, bucket, key);
    forall n | Has(o, n) && n.key.bucket == bucket && n.key.key == key
      ensures Has(p.tables.objects, n)
    {
      RowsOfKeyAfter(p, o, n);
    }
    if c.Some? {
      CurrentIff(p.tables.objects, bucket, key, c.value);
      assert !p.Goes(c.value);
      CurrentIff(o, bucket, key, c.value);
    } else {
      NothingCurrentIff(p.tables.objects, bucket, key);
      NothingCurrentIff(o, bucket, key);
    }
  }
}
