/** Lock requests and deletes at the same time (src/s3/lock.rs:138-167 and 231-240, src/s3/object.rs:388-405).
    Each of these handlers reads a manifest in one message to the metadata actor and writes in another, so
    what it decided on may be out of date when it writes. */
module LockRaces {
  import opened Results
  import opened Manifests
  import opened KeyOrder
  import opened Transactions
  import opened Handlers
  import opened LockSafety

  /** What a handler has read and what it is about to write. */
  datatype Intent =
    | Retain(seen: Manifest, until: Time)
    | Hold(seen: Manifest, on: bool)
    | Remove(key: ManifestKey, found: Option<Manifest>, now: Time)

  datatype World = World(tables: Tables, intents: map<nat, Intent>)

  datatype Event =
    | ReadToRetain(client: nat, key: ManifestKey, until: Time)
    | ReadToHold(client: nat, key: ManifestKey, on: bool)
    | ReadToRemove(client: nat, key: ManifestKey, now: Time)
    | Write(client: nat)

  function Row(w: World, key: ManifestKey): Option<Manifest> {
    if Encode(key) in w.tables.objects then Some(w.tables.objects[Encode(key)]) else None
  }

  /** Lock requests are for committed objects. */
  function Lockable(w: World, key: ManifestKey): Option<Manifest> {
    var r := Row(w, key);
    if r.Some? && r.value.state == Committed && r.value.kind == Object then r else None
  }

  /** The transaction that an intent ends in, unless what was read forbids it. */
  function Written(t: Tables, i: Intent): Tables {
    match i
    case Retain(seen, until) =>
      if Shortens(seen, until) then t else After(t, UpdateLock(t, seen.key, Some(RetainedLock(seen, until))))
    case Hold(seen, on) => After(t, UpdateLock(t, seen.key, Some(HeldLock(seen, on))))
    case Remove(key, found, now) =>
      if found.Some? && found.value.Locked(now) then t else After(t, DeleteManifest(t, key))
  }

  function Exec(w: World, e: Event): World {
    match e
    case ReadToRetain(c, key, until) =>
      (match Lockable(w, key) case None => w case Some(m) => w.(intents := w.intents[c := Retain(m, until)]))
    case ReadToHold(c, key, on) =>
      (match Lockable(w, key) case None => w case Some(m) => w.(intents := w.intents[c := Hold(m, on)]))
    case ReadToRemove(c, key, now) => w.(intents := w.intents[c := Remove(key, Row(w, key), now)])
    case Write(c) =>
      if c in w.intents then World(Written(w.tables, w.intents[c]), w.intents - {c}) else w
  }

  function Run(w: World, es: seq<Event>): World
    decreases |es|
  {
    if es == [] then w else Run(Exec(w, es[0]), es[1..])
  }

  // ---- single writes ----

  /** The write takes away retention that the version had. */
  ghost predicate LosesRetention(before: Option<Manifest>, after: Option<Manifest>) {
    && before.Some? && after.Some?
    && exists until :: RetainedUntil(before.value, until) && !RetainedUntil(after.value, until)
  }

  /** A retention request that was accepted shortens the retention exactly if the check it made on what it
      read would refuse it on what is there when it writes. */
  lemma RetentionIsLostIff(w: World, c: nat, seen: Manifest, until: Time)
    requires c in w.intents && w.intents[c] == Retain(seen, until) && Row(w, seen.key).Some?
    ensures LosesRetention(Row(w, seen.key), Row(Exec(w, Write(c)), seen.key))
       <==> !Shortens(seen, until) && Shortens(Row(w, seen.key).value, until)
  {
    var before := Row(w, seen.key).value;
    if !Shortens(seen, until) && Shortens(before, until) {
      assert RetainedUntil(before, before.objectLock.value.retention.value.retainUntil);
    }
  }

  /** A legal-hold request changes the retention exactly if the retention was changed in between. */
  lemma HoldKeepsRetentionIff(w: World, c: nat, seen: Manifest, on: bool)
    requires c in w.intents && w.intents[c] == Hold(seen, on) && Row(w, seen.key).Some?
    ensures var before, after := Row(w, seen.key).value, Row(Exec(w, Write(c)), seen.key);
      && after.Some?
      && (RetentionOf(after.value) == RetentionOf(before) <==> RetentionOf(seen) == RetentionOf(before))
  {
  }

  function RetentionOf(m: Manifest): Option<Retention> {
    if m.objectLock.Some? then m.objectLock.value.retention else None
  }

  /** A delete removes a version that is locked at its time exactly if it was not locked when it looked. */
  lemma LockedIsRemovedIff(w: World, c: nat, key: ManifestKey, found: Option<Manifest>, now: Time)
    requires c in w.intents && w.intents[c] == Remove(key, found, now)
    requires Row(w, key).Some? && Row(w, key).value.Locked(now)
    ensures Row(Exec(w, Write(c)), key).None? <==> !(found.Some? && found.value.Locked(now))
  {
  }

  // ---- whole runs ----

  function KeyOf(i: Intent): ManifestKey {
    match i
    case Retain(seen, _) => seen.key
    case Hold(seen, _) => seen.key
    case Remove(key, _, _) => key
  }

  function SeenLock(i: Intent): Option<ObjectLock> {
    match i
    case Retain(seen, _) => seen.objectLock
    case Hold(seen, _) => seen.objectLock
    case Remove(_, found, _) => if found.Some? then found.value.objectLock else None
  }

  /** Nobody changed the lock between the client's read and its write. */
  predicate UpToDate(w: World, e: Event) {
    e.Write? && e.client in w.intents ==>
      var r := Row(w, KeyOf(w.intents[e.client]));
      r.Some? ==> r.value.objectLock == SeenLock(w.intents[e.client])
  }

  ghost predicate AllUpToDate(w: World, es: seq<Event>)
    decreases |es|
  {
    es == [] || (UpToDate(w, es[0]) && AllUpToDate(Exec(w, es[0]), es[1..]))
  }

  /** The delete looks at the lock before the given time. */
  predicate LooksBefore(i: Intent, until: Time) {
    i.Remove? ==> i.now < until
  }

  predicate DeletesBefore(w: World, es: seq<Event>, until: Time) {
    && (forall c :: c in w.intents ==> LooksBefore(w.intents[c], until))
    && (forall i :: 0 <= i < |es| && es[i].ReadToRemove? ==> es[i].now < until)
  }

  predicate ProperIntents(w: World, es: seq<Event>) {
    && (forall c :: c in w.intents ==> ProperKey(KeyOf(w.intents[c])))
    && (forall i :: 0 <= i < |es| && es[i].ReadToRemove? ==> ProperKey(es[i].key))
  }

  ghost predicate StillRetained(w: World, key: ManifestKey, until: Time) {
    var r := Row(w, key);
    r.Some? && RetainedUntil(r.value, until)
  }

  lemma WriteKeepsRetention(w: World, c: nat, key: ManifestKey, until: Time)
    requires WellFormed(w.tables.objects) && ProperKey(key) && StillRetained(w, key, until)
    requires c in w.intents && ProperKey(KeyOf(w.intents[c])) && LooksBefore(w.intents[c], until)
    requires UpToDate(w, Write(c))
    ensures WellFormed(Exec(w, Write(c)).tables.objects) && StillRetained(Exec(w, Write(c)), key, until)
  {
    EncodeIsInjective(KeyOf(w.intents[c]), key);
  }

  lemma ReadKeepsProper(w: World, e: Event, rest: seq<Event>, until: Time)
    requires WellFormed(w.tables.objects) && ProperIntents(w, [e] + rest) && DeletesBefore(w, [e] + rest, until)
    ensures ProperIntents(Exec(w, e), rest) && DeletesBefore(Exec(w, e), rest, until)
  {
    assert ([e] + rest)[0] == e;
    assert forall i :: 0 <= i < |rest| ==> ([e] + rest)[i + 1] == rest[i];
  }

  /** Over every interleaving of lock requests and deletes in which no lock changes between a client's read
      and its write, and deletes look before the retention ends, a retained version stays, and its retention
      never gets shorter. */
  lemma {:induction false} RetentionHoldsOverRaces(w: World, es: seq<Event>, key: ManifestKey, until: Time)
    requires WellFormed(w.tables.objects) && ProperKey(key) && StillRetained(w, key, until)
    requires AllUpToDate(w, es) && DeletesBefore(w, es, until) && ProperIntents(w, es)
    ensures StillRetained(Run(w, es), key, until)
    decreases |es|
  {
    if es != [] {
      assert es == [es[0]] + es[1..];
      if es[0].Write? && es[0].client in w.intents {
        WriteKeepsRetention(w, es[0].client, key, until);
      }
      ReadKeepsProper(w, es[0], es[1..], until);
      RetentionHoldsOverRaces(Exec(w, es[0]), es[1..], key, until);
    }
  }

  // ---- the condition is needed ----

  const VERSION: ManifestKey := ManifestKey([98], [107], [65])

  function Stored(lock: Option<ObjectLock>): Manifest {
    Manifest(VERSION, Committed, Object, [PartRef(1, [1], [1], 1)], 1, [], lock, 0, 0)
  }

  function Holding(lock: Option<ObjectLock>): World {
    World(Tables(map[Encode(VERSION) := Stored(lock)], map[[1] := PartEntry(1, 1, Live, 0)]), map[])
  }

  function Until(t: Time): Option<ObjectLock> {
    Some(ObjectLock(Some(Retention(t)), false))
  }

  lemma LockWritten(lock: Option<ObjectLock>, after: Option<ObjectLock>)
    ensures After(Holding(lock).tables, UpdateLock(Holding(lock).tables, VERSION, after)) == Holding(after).tables
  {
    assert Holding(lock).tables.objects[Encode(VERSION) := Stored(after)] == Holding(after).tables.objects;
  }

  /** Two extensions of a retention until 10, to 20 and to 100: written in the other order than read, the
      later one loses, and the version is retained until 20 only. */
  lemma RetentionCanBeLost()
    ensures var es := [ReadToRetain(0, VERSION, 20), ReadToRetain(1, VERSION, 100), Write(1), Write(0)];
      && StillRetained(Run(Holding(Until(10)), es[..3]), VERSION, 100)
      && !StillRetained(Run(Holding(Until(10)), es), VERSION, 100)
  {
    var w0 := Holding(Until(10));
    var first, second := Retain(Stored(Until(10)), 20), Retain(Stored(Until(10)), 100);
    var w1 := Exec(w0, ReadToRetain(0, VERSION, 20));
    var w2 := Exec(w1, ReadToRetain(1, VERSION, 100));
    assert w1.intents == map[0 := first];
    assert w2.intents == map[0 := first, 1 := second];
    LockWritten(Until(10), Until(100));
    var w3 := Exec(w2, Write(1));
    assert w3.tables == Holding(Until(100)).tables && w3.intents[0] == first;
    LockWritten(Until(100), Until(20));
    var w4 := Exec(w3, Write(0));
    assert w4.tables == Holding(Until(20)).tables;
    assert Row(w3, VERSION) == Some(Stored(Until(100))) && Row(w4, VERSION) == Some(Stored(Until(20)));
    FourEvents(w0, ReadToRetain(0, VERSION, 20), ReadToRetain(1, VERSION, 100), Write(1), Write(0));
  }

  lemma NextEvent(w: World, e: Event, rest: seq<Event>)
    ensures Run(w, [e] + rest) == Run(Exec(w, e), rest)
  {
    assert ([e] + rest)[1..] == rest;
  }

  lemma ThreeEvents(w: World, a: Event, b: Event, c: Event)
    ensures Run(w, [a, b, c]) == Exec(Exec(Exec(w, a), b), c)
  {
    NextEvent(w, a, [b, c]);
    NextEvent(Exec(w, a), b, [c]);
    NextEvent(Exec(Exec(w, a), b), c, []);
    assert [a] + [b, c] == [a, b, c] && [b] + [c] == [b, c] && [c] + [] == [c];
  }

  lemma FourEvents(w: World, a: Event, b: Event, c: Event, d: Event)
    ensures Run(w, [a, b, c, d][..3]) == Exec(Exec(Exec(w, a), b), c)
    ensures Run(w, [a, b, c, d]) == Exec(Exec(Exec(Exec(w, a), b), c), d)
  {
    assert [a, b, c, d][..3] == [a, b, c];
    ThreeEvents(w, a, b, c);
    NextEvent(w, a, [b, c, d]);
    ThreeEvents(Exec(w, a), b, c, d);
    assert [a] + [b, c, d] == [a, b, c, d];
  }

  /** A delete that looked before a retention was written removes the retained version. */
  lemma RetainedCanBeRemoved()
    ensures var es := [ReadToRemove(0, VERSION, 5), ReadToRetain(1, VERSION, 100), Write(1), Write(0)];
      && StillRetained(Run(Holding(None), es[..3]), VERSION, 100)
      && Row(Run(Holding(None), es), VERSION).None?
  {
    var w0 := Holding(None);
    var delete, retain := Remove(VERSION, Some(Stored(None)), 5), Retain(Stored(None), 100);
    var w1 := Exec(w0, ReadToRemove(0, VERSION, 5));
    var w2 := Exec(w1, ReadToRetain(1, VERSION, 100));
    assert w1.intents == map[0 := delete];
    assert w2.intents == map[0 := delete, 1 := retain];
    LockWritten(None, Until(100));
    var w3 := Exec(w2, Write(1));
    assert w3.tables == Holding(Until(100)).tables && w3.intents[0] == delete;
    assert Row(w3, VERSION) == Some(Stored(Until(100)));
    FourEvents(w0, ReadToRemove(0, VERSION, 5), ReadToRetain(1, VERSION, 100), Write(1), Write(0));
  }
}
