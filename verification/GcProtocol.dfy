/** Collection of unreferenced parts racing with writers, copiers and upload completions
    (src/storage/db/actor.rs:495-527, src/storage/parts.rs:93-140, src/s3/object.rs:446-461,
    src/s3/copy.rs:88-140, src/s3/multipart.rs:146-207, src/s3/maintenance.rs:237-258).

    A world is the two tables, the set of part files, what every running request has acquired but
    not yet committed, and the running collector tasks. Every event is one atomic action. */
module GcProtocol {
  import opened Results
  import opened Manifests
  import opened Refcounts
  import opened Transactions

  /** A collector task works on one part: mark, unlink the file, remove the row. */
  datatype Task = Task(hash: Hash, unlinked: bool)

  datatype World = World(tables: Tables, files: set<Hash>, holders: map<nat, set<Hash>>, tasks: map<nat, Task>)

  datatype Event =
    | WriteFile(client: nat, h: Hash)                                // write_stream: rename or deduplicate
    | ReadManifest(client: nat, key: ManifestKey)                    // copy source or upload to complete
    | Put(client: nat, m: Manifest, now: Time)
    | Append(client: nat, key: ManifestKey, part: PartRef, now: Time)
    | Complete(client: nat, key: ManifestKey, m: Manifest, now: Time)
    | Delete(key: ManifestKey)
    | SetState(key: ManifestKey, state: ManifestState, now: Time)
    | SetLock(key: ManifestKey, lock: Option<ObjectLock>)
    | Abandon(client: nat)                                           // request dropped, or server crash
    | Mark(worker: nat, h: Hash)
    | Unlink(worker: nat)
    | UnlinkFails(worker: nat)                                       // the inline collector goes on regardless
    | Remove(worker: nat)
    | GiveUp(worker: nat)                                            // the sweep skips the part, or a crash

  const EMPTY: World := World(Tables(map[], map[]), {}, map[], map[])

  function Held(w: World, client: nat): set<Hash> {
    if client in w.holders then w.holders[client] else {}
  }

  function Exec(w: World, e: Event): World {
    match e
    case WriteFile(c, h) => w.(files := w.files + {h}, holders := w.holders[c := Held(w, c) + {h}])
    case ReadManifest(c, key) =>
      var k := Encode(key);
      if k in w.tables.objects
      then w.(holders := w.holders[c := Held(w, c) + Hashes(w.tables.objects[k].parts)])
      else w
    case Put(c, m, now) => w.(tables := After(w.tables, PutManifest(w.tables, m, now)), holders := w.holders - {c})
    case Append(c, key, part, now) =>
      w.(tables := After(w.tables, AppendPart(w.tables, key, part, now)), holders := w.holders - {c})
    case Complete(c, key, m, now) =>
      w.(tables := After(w.tables, CompleteMultipart(w.tables, key, m, now)), holders := w.holders - {c})
    case Delete(key) => w.(tables := After(w.tables, DeleteManifest(w.tables, key)))
    case SetState(key, s, now) => w.(tables := After(w.tables, UpdateState(w.tables, key, s, now)))
    case SetLock(key, lock) => w.(tables := After(w.tables, UpdateLock(w.tables, key, lock)))
    case Abandon(c) => w.(holders := w.holders - {c})
    case Mark(g, h) =>
      var r := MarkPending(w.tables.parts, h);
      if r.Success? && r.value.1
      then w.(tables := w.tables.(parts := r.value.0), tasks := w.tasks[g := Task(h, false)])
      else w
    case Unlink(g) =>
      if g in w.tasks && !w.tasks[g].unlinked
      then w.(files := w.files - {w.tasks[g].hash}, tasks := w.tasks[g := w.tasks[g].(unlinked := true)])
      else w
    case UnlinkFails(g) =>
      if g in w.tasks && !w.tasks[g].unlinked
      then w.(tasks := w.tasks[g := w.tasks[g].(unlinked := true)])
      else w
    case Remove(g) =>
      if g in w.tasks && w.tasks[g].unlinked
      then w.(tables := w.tables.(parts := w.tables.parts - {w.tasks[g].hash}), tasks := w.tasks - {g})
      else w
    case GiveUp(g) => w.(tasks := w.tasks - {g})
  }

  function Run(w: World, es: seq<Event>): World
    decreases |es|
  {
    if es == [] then w else Run(Exec(w, es[0]), es[1..])
  }

  // ---- what the protocol relies on ----

  /** Requests commit only references to parts they wrote or read, and the key of a completed object
      differs from the key of its upload. */
  predicate Acquired(w: World, e: Event) {
    match e
    case Put(c, m, _) => Hashes(m.parts) <= Held(w, c)
    case Append(c, _, part, _) => part.hash in Held(w, c)
    case Complete(c, key, m, _) => Hashes(m.parts) <= Held(w, c) && Encode(key) != Encode(m.key)
    case _ => true
  }

  /** No counter overflows. */
  ghost predicate CountersFit(w: World, e: Event) {
    match e
    case Put(_, m, _) => forall h :: PutFits(w.tables, m, h)
    case Append(_, _, part, _) => ReferencesFit(Exec(w, e).tables.objects, part.hash)
    case Complete(_, _, _, _) => forall h :: ReferencesFit(Exec(w, e).tables.objects, h)
    case _ => true
  }

  /** At most one collector task per part, and no worker runs two tasks. */
  predicate OneTaskPerPart(w: World, e: Event) {
    e.Mark? ==> e.worker !in w.tasks && forall g :: g in w.tasks ==> w.tasks[g].hash != e.h
  }

  /** No row is removed between a request's acquiring the part and its commit. */
  predicate NoRemovalUnderHolder(w: World, e: Event) {
    e.Remove? && e.worker in w.tasks ==> forall c :: c in w.holders ==> w.tasks[e.worker].hash !in w.holders[c]
  }

  /** Every step of a run is acquired and fits the counters; the two hypotheses about the collector
      can be switched off. */
  ghost predicate Follows(w: World, es: seq<Event>, oneTask: bool, noRemoval: bool)
    decreases |es|
  {
    es == []
    || (&& Acquired(w, es[0]) && CountersFit(w, es[0])
        && (oneTask ==> OneTaskPerPart(w, es[0]))
        && (noRemoval ==> NoRemovalUnderHolder(w, es[0]))
        && Follows(Exec(w, es[0]), es[1..], oneTask, noRemoval))
  }

  ghost predicate Disciplined(w: World, es: seq<Event>) {
    Follows(w, es, true, true)
  }

  // ---- the invariant ----

  /** Every part that any manifest refers to has its file. */
  predicate AllPartsOnDisk(w: World) {
    forall k, i :: k in w.tables.objects && 0 <= i < |w.tables.objects[k].parts| ==>
      w.tables.objects[k].parts[i].hash in w.files
  }

  ghost predicate OnDisk(w: World, h: Hash) {
    References(w.tables.objects, h) > 0 ==> h in w.files
  }

  /** What a request has acquired either still has its file or is in the collector's hands, so that
      the commit will be refused. */
  predicate HoldersCovered(w: World) {
    forall c, h :: c in w.holders && h in w.holders[c] ==> h in w.files || Pending(w.tables.parts, h)
  }

  predicate TasksPending(w: World) {
    && (forall g :: g in w.tasks ==> Pending(w.tables.parts, w.tasks[g].hash))
    && (forall g, f :: g in w.tasks && f in w.tasks && g != f ==> w.tasks[g].hash != w.tasks[f].hash)
  }

  ghost predicate Safe(w: World) {
    && Consistent(w.tables)
    && (forall h :: OnDisk(w, h))
    && HoldersCovered(w)
    && TasksPending(w)
  }

  // ---- transactions and the collector's marks ----

  lemma PutKeepsMarks(t: Tables, m: Manifest, now: Time, h: Hash)
    ensures var o := PutManifest(t, m, now);
      Pending(After(t, o).parts, h) <==> Pending(t.parts, h)
  {
    if PutManifest(t, m, now).Success? {
      IncrementAllAt(t.parts, m.parts, now, h);
      var k := Encode(m.key);
      if k in t.objects {
        DecrementAllAt(IncrementAll(t.parts, m.parts, now).value, t.objects[k].parts, h);
      }
    }
  }

  lemma DeleteKeepsMarks(t: Tables, key: ManifestKey, h: Hash)
    ensures Pending(After(t, DeleteManifest(t, key)).parts, h) <==> Pending(t.parts, h)
  {
    if Encode(key) in t.objects {
      DecrementAllAt(t.parts, t.objects[Encode(key)].parts, h);
    }
  }

  lemma CompleteKeepsMarks(t: Tables, key: ManifestKey, m: Manifest, now: Time, h: Hash)
    ensures Pending(After(t, CompleteMultipart(t, key, m, now)).parts, h) <==> Pending(t.parts, h)
  {
    if CompleteMultipart(t, key, m, now).Success? {
      var dropped := Dropped(t.objects, Encode(key), Encode(m.key));
      DecrementAllAt(t.parts, dropped, h);
      IncrementAllAt(DecrementAll(t.parts, dropped).0, m.parts, now, h);
    }
  }

  /** A request that commits new references keeps the invariant when all it names was acquired. */
  lemma CommitKeepsSafe(w: World, e: Event, w': World, refs: seq<PartRef>)
    requires Safe(w)
    requires e.Put? || e.Append? || e.Complete?
    requires w' == w.(tables := w'.tables, holders := w.holders - {e.client})
    requires Consistent(w'.tables)
    requires forall h :: Pending(w'.tables.parts, h) <==> Pending(w.tables.parts, h)
    requires Hashes(refs) <= Held(w, e.client)
    requires forall h :: References(w'.tables.objects, h) > 0 ==>
                References(w.tables.objects, h) > 0 || (Count(refs, h) > 0 && !Pending(w.tables.parts, h))
    ensures Safe(w')
  {
    forall h
      ensures OnDisk(w', h)
    {
      assert OnDisk(w, h);
      if References(w'.tables.objects, h) > 0 && References(w.tables.objects, h) == 0 {
        CountPositive(refs, h);
        assert h in Hashes(refs);
      }
    }
  }

  lemma PutKeepsSafe(w: World, e: Event)
    requires Safe(w) && e.Put? && Acquired(w, e) && CountersFit(w, e)
    ensures Safe(Exec(w, e))
  {
    var t, m := w.tables, e.m;
    var o := PutManifest(t, m, e.now);
    forall h
      ensures Pending(After(t, o).parts, h) <==> Pending(t.parts, h)
      ensures o.Success? && References(After(t, o).objects, h) > 0 ==>
                References(t.objects, h) > 0 || (Count(m.parts, h) > 0 && !Pending(t.parts, h))
    {
      PutKeepsMarks(t, m, e.now, h);
      assert Sound(t, h);
      if o.Success? {
        PutAt(t, m, e.now, h);
        PutRefusedIff(t, m, e.now);
        CountPositive(m.parts, h);
      }
    }
    if o.Success? {
      PutConserves(t, m, e.now);
    }
    CommitKeepsSafe(w, e, Exec(w, e), m.parts);
  }

  lemma AppendTakes(t: Tables, key: ManifestKey, part: PartRef, now: Time, h: Hash)
    requires Consistent(t)
    ensures var o := AppendPart(t, key, part, now);
      && (Pending(After(t, o).parts, h) <==> Pending(t.parts, h))
      && (o.Success? && References(After(t, o).objects, h) > 0 ==>
           References(t.objects, h) > 0 || (Count([part], h) > 0 && !Pending(t.parts, h)))
  {
    assert Sound(t, h);
    if AppendPart(t, key, part, now).Success? {
      AppendAt(t, key, part, now, h);
    }
  }

  lemma AppendKeepsSafe(w: World, e: Event)
    requires Safe(w) && e.Append? && Acquired(w, e) && CountersFit(w, e)
    ensures Safe(Exec(w, e))
  {
    var t := w.tables;
    var o := AppendPart(t, e.key, e.part, e.now);
    forall h
      ensures Pending(After(t, o).parts, h) <==> Pending(t.parts, h)
      ensures o.Success? && References(After(t, o).objects, h) > 0 ==>
                References(t.objects, h) > 0 || (Count([e.part], h) > 0 && !Pending(t.parts, h))
    {
      AppendTakes(t, e.key, e.part, e.now, h);
    }
    if o.Success? {
      AppendConserves(t, e.key, e.part, e.now);
    }
    CommitKeepsSafe(w, e, Exec(w, e), [e.part]);
  }

  lemma CompleteKeepsSafe(w: World, e: Event)
    requires Safe(w) && e.Complete? && Acquired(w, e) && CountersFit(w, e)
    ensures Safe(Exec(w, e))
  {
    var t, m := w.tables, e.m;
    var o := CompleteMultipart(t, e.key, m, e.now);
    forall h
      ensures Pending(After(t, o).parts, h) <==> Pending(t.parts, h)
      ensures o.Success? && References(After(t, o).objects, h) > 0 ==>
                References(t.objects, h) > 0 || (Count(m.parts, h) > 0 && !Pending(t.parts, h))
    {
      CompleteKeepsMarks(t, e.key, m, e.now, h);
      assert Sound(t, h);
      if o.Success? {
        var dropped := Dropped(t.objects, Encode(e.key), Encode(m.key));
        CompleteReferences(t.objects, Encode(e.key), Encode(m.key), m, h);
        ExchangeAt(t.parts, dropped, m.parts, e.now, h);
      }
    }
    if o.Success? {
      CompleteConserves(t, e.key, m, e.now);
    }
    CommitKeepsSafe(w, e, Exec(w, e), m.parts);
  }

  lemma DeleteKeepsSafe(w: World, e: Event)
    requires Safe(w) && e.Delete?
    ensures Safe(Exec(w, e))
  {
    var t := w.tables;
    var w' := Exec(w, e);
    if Encode(e.key) in t.objects {
      DeleteConserves(t, e.key);
    }
    forall h
      ensures OnDisk(w', h)
      ensures Pending(w'.tables.parts, h) <==> Pending(t.parts, h)
    {
      DeleteKeepsMarks(t, e.key, h);
      assert OnDisk(w, h) && Sound(t, h);
      if Encode(e.key) in t.objects {
        DeleteAt(t, e.key, h);
      }
    }
  }

  lemma UpdateKeepsSafe(w: World, e: Event)
    requires Safe(w) && (e.SetState? || e.SetLock?)
    ensures Safe(Exec(w, e))
  {
    var k := Encode(e.key);
    var w' := Exec(w, e);
    if k in w.tables.objects {
      MetadataUpdateConserves(w.tables, k, w'.tables.objects[k]);
      assert w'.tables == w.tables.(objects := w.tables.objects[k := w'.tables.objects[k]]);
      forall h
        ensures OnDisk(w', h)
      {
        assert OnDisk(w, h);
        ReferencesWrite(w.tables.objects, k, w'.tables.objects[k], h);
      }
    }
  }

  lemma AcquireKeepsSafe(w: World, e: Event)
    requires Safe(w) && (e.WriteFile? || e.ReadManifest? || e.Abandon?)
    ensures Safe(Exec(w, e))
  {
    var w' := Exec(w, e);
    forall h
      ensures OnDisk(w', h)
      ensures (e.ReadManifest? && Encode(e.key) in w.tables.objects
               && h in Hashes(w.tables.objects[Encode(e.key)].parts)) ==> h in w.files
    {
      assert OnDisk(w, h);
      if e.ReadManifest? && Encode(e.key) in w.tables.objects {
        var refs := w.tables.objects[Encode(e.key)].parts;
        CountPositive(refs, h);
        ReferencesRemove(w.tables.objects, Encode(e.key), h);
      }
    }
  }

  lemma MarkKeepsSafe(w: World, e: Event)
    requires Safe(w) && e.Mark? && OneTaskPerPart(w, e)
    ensures Safe(Exec(w, e))
  {
    var w' := Exec(w, e);
    if e.h in w.tables.parts {
      MarkConserves(w.tables, e.h);
    }
    forall h
      ensures OnDisk(w', h)
    {
      assert OnDisk(w, h);
    }
  }

  lemma UnlinkKeepsSafe(w: World, e: Event)
    requires Safe(w) && (e.Unlink? || e.UnlinkFails? || e.GiveUp?)
    ensures Safe(Exec(w, e))
  {
    var w' := Exec(w, e);
    forall h
      ensures OnDisk(w', h)
    {
      assert OnDisk(w, h) && Sound(w.tables, h);
    }
  }

  lemma RemoveKeepsSafe(w: World, e: Event)
    requires Safe(w) && e.Remove? && NoRemovalUnderHolder(w, e)
    ensures Safe(Exec(w, e))
  {
    var w' := Exec(w, e);
    if e.worker in w.tasks {
      assert Sound(w.tables, w.tasks[e.worker].hash);
      RemoveConservesIff(w.tables, w.tasks[e.worker].hash);
    }
    forall h
      ensures OnDisk(w', h)
    {
      assert OnDisk(w, h);
    }
  }
}
