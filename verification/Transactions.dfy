/** What each write transaction of the metadata actor does to the two tables
    (src/storage/db/actor.rs), and that every one of them conserves references. */
module Transactions {
  import opened Results
  import opened ByteStrings
  import opened Manifests
  import opened Refcounts

  datatype Tables = Tables(objects: Objects, parts: Parts)

  /** The committed tables and the parts handed back for collection. */
  datatype Change = Change(tables: Tables, freed: seq<Hash>)

  type Outcome = Result<Change, MetaError>

  /** The tables after a transaction; a refused one leaves them alone. */
  function After(t: Tables, o: Outcome): Tables {
    if o.Success? then o.value.tables else t
  }

  /** What the caller is told. */
  function Reply(o: Outcome): Result<seq<Hash>, MetaError> {
    match o
    case Success(c) => Success(c.freed)
    case Failure(e) => Failure(e)
  }

  // ---- the transactions ----

  function PutManifest(t: Tables, m: Manifest, now: Time): Outcome {
    var k := Encode(m.key);
    match IncrementAll(t.parts, m.parts, now)
    case Failure(e) => Failure(e)
    case Success(raised) =>
      var (parts, freed) := if k in t.objects then DecrementAll(raised, t.objects[k].parts) else (raised, []);
      Success(Change(Tables(t.objects[k := m], parts), freed))
  }

  function DeleteManifest(t: Tables, key: ManifestKey): Outcome {
    var k := Encode(key);
    if k !in t.objects then Failure(ManifestNotFound)
    else
      var (parts, freed) := DecrementAll(t.parts, t.objects[k].parts);
      Success(Change(Tables(t.objects - {k}, parts), freed))
  }

  function UpdateState(t: Tables, key: ManifestKey, s: ManifestState, now: Time): Outcome {
    var k := Encode(key);
    if k !in t.objects then Failure(ManifestNotFound)
    else Success(Change(t.(objects := t.objects[k := t.objects[k].(state := s, lastModified := now)]), []))
  }

  function UpdateLock(t: Tables, key: ManifestKey, lock: Option<ObjectLock>): Outcome {
    var k := Encode(key);
    if k !in t.objects then Failure(ManifestNotFound)
    else Success(Change(t.(objects := t.objects[k := t.objects[k].(objectLock := lock)]), []))
  }

  /** Index of the first part with the given number. */
  function Position(refs: seq<PartRef>, number: u32): Option<nat>
    ensures Position(refs, number).Some? ==>
              && Position(refs, number).value < |refs|
              && refs[Position(refs, number).value].partNumber == number
  {
    if refs == [] then None
    else if refs[0].partNumber == number then Some(0)
    else
      match Position(refs[1..], number)
      case None => None
      case Some(i) => Some(i + 1)
  }

  function InsertByNumber(p: PartRef, refs: seq<PartRef>): seq<PartRef> {
    if refs == [] || p.partNumber <= refs[0].partNumber then [p] + refs
    else [refs[0]] + InsertByNumber(p, refs[1..])
  }

  /** Stable sort by part number. */
  function SortByNumber(refs: seq<PartRef>): seq<PartRef> {
    if refs == [] then [] else InsertByNumber(refs[0], SortByNumber(refs[1..]))
  }

  function TotalSize(refs: seq<PartRef>): nat {
    if refs == [] then 0 else refs[0].size + TotalSize(refs[1..])
  }

  /** The part list with any part of this number taken out. */
  function Without(refs: seq<PartRef>, number: u32): seq<PartRef> {
    match Position(refs, number)
    case None => refs
    case Some(i) => refs[..i] + refs[i + 1..]
  }

  function WithPart(m: Manifest, part: PartRef, now: Time): Manifest {
    var refs := SortByNumber(Without(m.parts, part.partNumber) + [part]);
    m.(parts := refs, size := TotalSize(refs), lastModified := now)
  }

  function AppendPart(t: Tables, key: ManifestKey, part: PartRef, now: Time): Outcome {
    var k := Encode(key);
    if k !in t.objects then Failure(ManifestNotFound)
    else
      var m := t.objects[k];
      var replaced := Position(m.parts, part.partNumber);
      var (lowered, gone) :=
        if replaced.Some? then Decrement(t.parts, m.parts[replaced.value].hash) else (t.parts, None);
      var freed :=
        if gone.Some? && gone.value != part.hash then [gone.value] else [];
      match Increment(lowered, part, now)
      case Failure(e) => Failure(e)
      case Success(parts) => Success(Change(Tables(t.objects[k := WithPart(m, part, now)], parts), freed))
  }

  function Hashes(refs: seq<PartRef>): set<Hash> {
    set i | 0 <= i < |refs| :: refs[i].hash
  }

  /** The unreferenced parts among `refs`, each once, leaving out what was already considered and
      what the new manifest uses. */
  function Collect(parts: Parts, refs: seq<PartRef>, used: set<Hash>, considered: set<Hash>): seq<Hash> {
    if refs == [] then []
    else
      var h := refs[0].hash;
      var rest := Collect(parts, refs[1..], used, considered + {h});
      if h in considered || h in used || h !in parts || parts[h].refcount != 0 then rest else [h] + rest
  }

  function CompleteMultipart(t: Tables, inProgressKey: ManifestKey, committed: Manifest, now: Time): Outcome {
    var k, c := Encode(inProgressKey), Encode(committed.key);
    if k !in t.objects then Failure(ManifestNotFound)
    else if t.objects[k].state != InProgress then Failure(UploadNotInProgress)
    else
      var dropped := Dropped(t.objects, k, c);
      match IncrementAll(DecrementAll(t.parts, dropped).0, committed.parts, now)
      case Failure(e) => Failure(e)
      case Success(parts) =>
        Success(Change(Tables(t.objects[c := committed] - {k}, parts),
                       Collect(parts, dropped, Hashes(committed.parts), {})))
  }

  /** Hand an unreferenced part to the collector; the flag says whether it was handed over. */
  function MarkPending(parts: Parts, h: Hash): Result<(Parts, bool), MetaError> {
    if h !in parts then Failure(PartNotFound)
    else if parts[h].refcount != 0 then Success((parts, false))
    else Success((parts[h := parts[h].(state := GcPending)], true))
  }

  // ---- conservation ----

  /** The stored count of a part equals the number of references the manifests hold, and a part
      handed to the collector has none. */
  ghost predicate Sound(t: Tables, h: Hash) {
    Stored(t.parts, h) == References(t.objects, h) && (Pending(t.parts, h) ==> References(t.objects, h) == 0)
  }

  ghost predicate Consistent(t: Tables) {
    forall h :: Sound(t, h)
  }

  /** The part loses its last reference between the two object tables. */
  ghost predicate Loses(before: Objects, after: Objects, h: Hash) {
    References(before, h) > 0 && References(after, h) == 0
  }

  /** `freed` lists, once each, exactly the parts whose last reference the change took away. */
  ghost predicate FreedExactly(before: Objects, after: Objects, freed: seq<Hash>) {
    NoDuplicates(freed) && forall h :: h in freed <==> Loses(before, after, h)
  }

  /** A put is refused exactly when the manifest names a part in the collector's hands. */
  lemma PutRefusedIff(t: Tables, m: Manifest, now: Time)
    ensures PutManifest(t, m, now).Failure? <==> exists i :: 0 <= i < |m.parts| && Pending(t.parts, m.parts[i].hash)
  {
    IncrementAllRefusal(t.parts, m.parts, now);
  }

  /** The 32-bit counter can hold the old and the new references to a part together: a put takes
      the new references before it drops the old ones. */
  ghost predicate PutFits(t: Tables, m: Manifest, h: Hash) {
    References(t.objects, h) + Count(m.parts, h) <= MAX_COUNT
  }

  lemma PutAt(t: Tables, m: Manifest, now: Time, h: Hash)
    requires Sound(t, h) && PutManifest(t, m, now).Success?
    ensures var after := PutManifest(t, m, now).value.tables;
      && Stored(IncrementAll(t.parts, m.parts, now).value, h) == Capped(References(t.objects, h) + Count(m.parts, h))
      && HeldAt(t.objects, Encode(m.key), h) <= References(t.objects, h)
      && References(after.objects, h)
           == References(t.objects, h) + Count(m.parts, h) - HeldAt(t.objects, Encode(m.key), h)
      && (Sound(after, h) <==> PutFits(t, m, h))
  {
    var k := Encode(m.key);
    ReferencesWrite(t.objects, k, m, h);
    ReferencesRemove(t.objects, k, h);
    IncrementAllAt(t.parts, m.parts, now, h);
    IncrementAllRefusal(t.parts, m.parts, now);
    CountPositive(m.parts, h);
    if k in t.objects {
      DecrementAllAt(IncrementAll(t.parts, m.parts, now).value, t.objects[k].parts, h);
    }
  }

  /** A put (new or replacing) conserves references exactly when the counters can hold the old and
      the new references together. */
  lemma PutConserves(t: Tables, m: Manifest, now: Time)
    requires Consistent(t) && PutManifest(t, m, now).Success?
    ensures Consistent(PutManifest(t, m, now).value.tables) <==> forall h :: PutFits(t, m, h)
  {
    var after := PutManifest(t, m, now).value.tables;
    forall h
      ensures Sound(after, h) <==> PutFits(t, m, h)
    {
      PutAt(t, m, now, h);
    }
  }

  /** A conserving put frees exactly what lost its last reference. */
  lemma PutFreesExactly(t: Tables, m: Manifest, now: Time)
    requires Consistent(t) && PutManifest(t, m, now).Success? && forall h :: PutFits(t, m, h)
    ensures var c := PutManifest(t, m, now).value; FreedExactly(t.objects, c.tables.objects, c.freed)
  {
    var c := PutManifest(t, m, now).value;
    var k := Encode(m.key);
    var raised := IncrementAll(t.parts, m.parts, now).value;
    if k in t.objects {
      forall h
        ensures Count(t.objects[k].parts, h) <= Stored(raised, h)
      {
        PutAt(t, m, now, h);
      }
      DecrementAllReports(raised, t.objects[k].parts);
    }
    forall h
      ensures h in c.freed <==> Loses(t.objects, c.tables.objects, h)
    {
      assert PutFits(t, m, h) && Sound(t, h);
      PutAt(t, m, now, h);
    }
  }

  lemma DeleteAt(t: Tables, key: ManifestKey, h: Hash)
    requires Sound(t, h) && DeleteManifest(t, key).Success?
    ensures var after := DeleteManifest(t, key).value.tables;
      var held := Count(t.objects[Encode(key)].parts, h);
      && held <= References(t.objects, h)
      && References(after.objects, h) == References(t.objects, h) - held
      && Sound(after, h)
  {
    var k := Encode(key);
    ReferencesRemove(t.objects, k, h);
    DecrementAllAt(t.parts, t.objects[k].parts, h);
  }

  /** A delete always conserves references and frees exactly what lost its last one. */
  lemma DeleteConserves(t: Tables, key: ManifestKey)
    requires Consistent(t) && DeleteManifest(t, key).Success?
    ensures var c := DeleteManifest(t, key).value;
      Consistent(c.tables) && FreedExactly(t.objects, c.tables.objects, c.freed)
  {
    var c := DeleteManifest(t, key).value;
    var refs := t.objects[Encode(key)].parts;
    forall h
      ensures Sound(c.tables, h) && Count(refs, h) <= Stored(t.parts, h)
    {
      assert Sound(t, h);
      DeleteAt(t, key, h);
    }
    DecrementAllReports(t.parts, refs);
    forall h
      ensures h in c.freed <==> Loses(t.objects, c.tables.objects, h)
    {
      assert Sound(t, h) && Sound(c.tables, h);
      DeleteAt(t, key, h);
    }
  }

  // ---- appending a part ----

  lemma {:induction false} InsertByNumberCount(p: PartRef, refs: seq<PartRef>, h: Hash)
    ensures Count(InsertByNumber(p, refs), h) == Count([p] + refs, h)
  {
    assert ([p] + refs)[1..] == refs;
    if refs != [] && p.partNumber > refs[0].partNumber {
      InsertByNumberCount(p, refs[1..], h);
      assert ([p] + refs[1..])[1..] == refs[1..];
      assert InsertByNumber(p, refs)[1..] == InsertByNumber(p, refs[1..]);
    }
  }

  lemma {:induction false} SortByNumberCount(refs: seq<PartRef>, h: Hash)
    ensures Count(SortByNumber(refs), h) == Count(refs, h)
  {
    if refs != [] {
      SortByNumberCount(refs[1..], h);
      InsertByNumberCount(refs[0], SortByNumber(refs[1..]), h);
      assert ([refs[0]] + SortByNumber(refs[1..]))[1..] == SortByNumber(refs[1..]);
    }
  }

  /** Is this part the one that an append with the given number replaces? 1 or 0. */
  function Replaced(m: Manifest, number: u32, h: Hash): nat {
    var r := Position(m.parts, number);
    if r.Some? && m.parts[r.value].hash == h then 1 else 0
  }

  /** The appended part list holds the old references, minus the replaced one, plus the new one. */
  lemma WithPartCount(m: Manifest, part: PartRef, now: Time, h: Hash)
    ensures Count(WithPart(m, part, now).parts, h)
         == Count(m.parts, h) + (if part.hash == h then 1 else 0) - Replaced(m, part.partNumber, h)
  {
    var r := Position(m.parts, part.partNumber);
    var kept := Without(m.parts, part.partNumber);
    SortByNumberCount(kept + [part], h);
    CountConcat(kept, [part], h);
    if r.Some? {
      var i := r.value;
      assert m.parts == m.parts[..i] + m.parts[i..];
      CountConcat(m.parts[..i], m.parts[i..], h);
      CountConcat(m.parts[..i], m.parts[i + 1..], h);
      assert m.parts[i..][1..] == m.parts[i + 1..];
    }
  }

  ghost predicate ReferencesFit(o: Objects, h: Hash) {
    References(o, h) <= MAX_COUNT
  }

  lemma AppendReferences(o: Objects, k: Bytes, part: PartRef, now: Time, h: Hash)
    requires k in o
    ensures Replaced(o[k], part.partNumber, h) <= References(o, h)
    ensures References(o[k := WithPart(o[k], part, now)], h)
         == References(o, h) - Replaced(o[k], part.partNumber, h) + if part.hash == h then 1 else 0
  {
    ReferencesRemove(o, k, h);
    ReferencesWrite(o, k, WithPart(o[k], part, now), h);
    WithPartCount(o[k], part, now, h);
    CountPositive(o[k].parts, h);
  }

  lemma AppendAt(t: Tables, key: ManifestKey, part: PartRef, now: Time, h: Hash)
    requires Sound(t, h) && AppendPart(t, key, part, now).Success?
    ensures var c := AppendPart(t, key, part, now).value;
      && (h != part.hash ==> References(c.tables.objects, h) <= References(t.objects, h))
      && (Sound(c.tables, h) <==> ReferencesFit(c.tables.objects, h))
      && (h in c.freed <==> Loses(t.objects, c.tables.objects, h))
  {
    AppendReferences(t.objects, Encode(key), part, now, h);
  }

  /** Appending or replacing a part conserves references exactly when the appended part's references
      still fit its counter. Replacing a part by identical bytes frees nothing. */
  lemma AppendConserves(t: Tables, key: ManifestKey, part: PartRef, now: Time)
    requires Consistent(t) && AppendPart(t, key, part, now).Success?
    ensures var c := AppendPart(t, key, part, now).value;
      && (Consistent(c.tables) <==> ReferencesFit(c.tables.objects, part.hash))
      && FreedExactly(t.objects, c.tables.objects, c.freed)
  {
    var c := AppendPart(t, key, part, now).value;
    forall h
      ensures Sound(c.tables, h) <==> ReferencesFit(c.tables.objects, h)
      ensures h != part.hash ==> Sound(c.tables, h)
      ensures h in c.freed <==> Loses(t.objects, c.tables.objects, h)
    {
      assert Sound(t, h);
      AppendAt(t, key, part, now, h);
    }
    assert Consistent(c.tables) ==> Sound(c.tables, part.hash);
  }

  // ---- completing an upload ----

  lemma {:induction false} CollectExactly(parts: Parts, refs: seq<PartRef>, used: set<Hash>, considered: set<Hash>)
    ensures var s := Collect(parts, refs, used, considered);
      && NoDuplicates(s)
      && (forall h :: h in s <==>
           Count(refs, h) > 0 && h !in considered && h !in used && h in parts && parts[h].refcount == 0)
  {
    if refs != [] {
      CollectExactly(parts, refs[1..], used, considered + {refs[0].hash});
    }
  }

  /** What the two manifests that a completion removes refer to. */
  function Dropped(o: Objects, k: Bytes, c: Bytes): seq<PartRef>
    requires k in o
  {
    o[k].parts + if c in o then o[c].parts else []
  }

  lemma CompleteReferences(o: Objects, k: Bytes, c: Bytes, m: Manifest, h: Hash)
    requires k in o && k != c
    ensures Count(Dropped(o, k, c), h) <= References(o, h)
    ensures References(o[c := m] - {k}, h) == References(o, h) - Count(Dropped(o, k, c), h) + Count(m.parts, h)
  {
    CountConcat(o[k].parts, if c in o then o[c].parts else [], h);
    ReferencesRemove(o, k, h);
    ReferencesRemove(o - {k}, c, h);
    ReferencesWrite(o - {k}, c, m, h);
    assert o[c := m] - {k} == (o - {k})[c := m];
  }

  /** Dropping one list of references and taking another, seen at one part. */
  lemma ExchangeAt(parts: Parts, dropped: seq<PartRef>, taken: seq<PartRef>, now: Time, h: Hash)
    requires IncrementAll(DecrementAll(parts, dropped).0, taken, now).Success?
    requires Count(dropped, h) <= Stored(parts, h)
    ensures var after := IncrementAll(DecrementAll(parts, dropped).0, taken, now).value;
      && Stored(after, h) == Capped(Stored(parts, h) - Count(dropped, h) + Count(taken, h))
      && (Pending(after, h) <==> Pending(parts, h))
      && (Pending(after, h) ==> Count(taken, h) == 0)
      && (h in parts ==> h in after)
  {
    var lowered := DecrementAll(parts, dropped).0;
    DecrementAllAt(parts, dropped, h);
    IncrementAllAt(lowered, taken, now, h);
    IncrementAllRefusal(lowered, taken, now);
    CountPositive(taken, h);
  }

  lemma CompleteAt(t: Tables, key: ManifestKey, m: Manifest, now: Time, h: Hash)
    requires Encode(key) != Encode(m.key)
    requires Sound(t, h) && CompleteMultipart(t, key, m, now).Success?
    ensures var after := CompleteMultipart(t, key, m, now).value.tables;
      Sound(after, h) <==> ReferencesFit(after.objects, h)
  {
    CompleteReferences(t.objects, Encode(key), Encode(m.key), m, h);
    ExchangeAt(t.parts, Dropped(t.objects, Encode(key), Encode(m.key)), m.parts, now, h);
  }

  lemma CompleteFreesAt(t: Tables, key: ManifestKey, m: Manifest, now: Time, h: Hash)
    requires Encode(key) != Encode(m.key)
    requires Sound(t, h) && CompleteMultipart(t, key, m, now).Success?
    ensures var c := CompleteMultipart(t, key, m, now).value;
      h in c.freed <==> Loses(t.objects, c.tables.objects, h)
  {
    var dropped := Dropped(t.objects, Encode(key), Encode(m.key));
    CompleteReferences(t.objects, Encode(key), Encode(m.key), m, h);
    ExchangeAt(t.parts, dropped, m.parts, now, h);
    CountPositive(m.parts, h);
    CollectExactly(CompleteMultipart(t, key, m, now).value.tables.parts, dropped, Hashes(m.parts), {});
  }

  /** Completing an upload under a different key conserves references exactly when the new numbers
      fit the counters, and it frees exactly what lost its last reference. */
  lemma CompleteConserves(t: Tables, key: ManifestKey, m: Manifest, now: Time)
    requires Encode(key) != Encode(m.key)
    requires Consistent(t) && CompleteMultipart(t, key, m, now).Success?
    ensures var c := CompleteMultipart(t, key, m, now).value;
      && (Consistent(c.tables) <==> forall h :: ReferencesFit(c.tables.objects, h))
      && FreedExactly(t.objects, c.tables.objects, c.freed)
  {
    var c := CompleteMultipart(t, key, m, now).value;
    forall h
      ensures Sound(c.tables, h) <==> ReferencesFit(c.tables.objects, h)
      ensures h in c.freed <==> Loses(t.objects, c.tables.objects, h)
    {
      assert Sound(t, h);
      CompleteAt(t, key, m, now, h);
      CompleteFreesAt(t, key, m, now, h);
    }
    CollectExactly(c.tables.parts, Dropped(t.objects, Encode(key), Encode(m.key)), Hashes(m.parts), {});
  }

  /** With equal keys the transaction stores the completed object and removes it again. */
  lemma CompleteSameKeyLosesObject(t: Tables, m: Manifest, now: Time)
    requires CompleteMultipart(t, m.key, m, now).Success?
    ensures Encode(m.key) in t.objects
    ensures CompleteMultipart(t, m.key, m, now).value.tables.objects == t.objects - {Encode(m.key)}
  {
    var k := Encode(m.key);
    assert t.objects[k := m] - {k} == t.objects - {k};
  }

  // ---- the collector's own transactions ----

  lemma MarkConserves(t: Tables, h: Hash)
    requires Consistent(t) && MarkPending(t.parts, h).Success?
    ensures Consistent(t.(parts := MarkPending(t.parts, h).value.0))
    ensures MarkPending(t.parts, h).value.1 <==> References(t.objects, h) == 0
  {
    assert Sound(t, h);
    var after := t.(parts := MarkPending(t.parts, h).value.0);
    forall g
      ensures Sound(after, g)
    {
      assert Sound(t, g);
    }
  }

  /** Removing a row is unconditional, and right exactly when nothing refers to the part. */
  lemma RemoveConservesIff(t: Tables, h: Hash)
    requires Consistent(t)
    ensures Consistent(t.(parts := t.parts - {h})) <==> References(t.objects, h) == 0
  {
    var after := t.(parts := t.parts - {h});
    if References(t.objects, h) == 0 {
      forall g
        ensures Sound(after, g)
      {
        assert Sound(t, g);
      }
    }
    assert Consistent(after) ==> Sound(after, h);
  }

  /** Rewriting a row without touching its parts, as state and lock updates do, conserves. */
  lemma MetadataUpdateConserves(t: Tables, k: Bytes, m: Manifest)
    requires Consistent(t) && k in t.objects && t.objects[k].parts == m.parts
    ensures Consistent(t.(objects := t.objects[k := m]))
  {
    var after := t.(objects := t.objects[k := m]);
    forall h
      ensures Sound(after, h)
    {
      assert Sound(t, h);
      ReferencesWrite(t.objects, k, m, h);
    }
  }
}
