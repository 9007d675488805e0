/** Collecting unreferenced parts when no one else is at work: the inline pass after a request
    (src/s3/object.rs:446-461) and the sweep over all orphans (src/s3/maintenance.rs:237-258). */
module Collection {
  import opened ByteStrings
  import opened Manifests
  import opened Refcounts
  import opened Transactions
  import opened Scans
  import opened MetaStore

  type Files = map<Hash, Bytes>

  datatype Storage = Storage(parts: Parts, files: Files)

  /** May the part go? The recheck of `mark_part_gc_pending`. */
  predicate Collectable(parts: Parts, h: Hash) {
    h in parts && parts[h].refcount == 0
  }

  /** Mark, unlink, remove the row. Unlinking the files in `stuck` fails; the row goes nevertheless. */
  function CollectOne(s: Storage, h: Hash, stuck: set<Hash>): Storage {
    match MarkPending(s.parts, h)
    case Failure(_) => s
    case Success((parts, marked)) =>
      if marked then Storage(parts - {h}, if h in stuck then s.files else s.files - {h}) else s.(parts := parts)
  }

  function CollectFreed(s: Storage, freed: seq<Hash>, stuck: set<Hash>): Storage
    decreases |freed|
  {
    if freed == [] then s else CollectFreed(CollectOne(s, freed[0], stuck), freed[1..], stuck)
  }

  /** The sweep keeps the marked row when unlinking fails, and counts the rows it removes. */
  function SweepOne(s: Storage, h: Hash, stuck: set<Hash>): (Storage, nat) {
    match MarkPending(s.parts, h)
    case Failure(_) => (s, 0)
    case Success((parts, marked)) =>
      if !marked then (s.(parts := parts), 0)
      else if h in stuck then (s.(parts := parts), 0)
      else (Storage(parts - {h}, s.files - {h}), 1)
  }

  function SweepParts(s: Storage, hs: seq<Hash>, stuck: set<Hash>): (Storage, nat)
    decreases |hs|
  {
    if hs == [] then (s, 0)
    else
      var (next, n) := SweepOne(s, hs[0], stuck);
      var (last, rest) := SweepParts(next, hs[1..], stuck);
      (last, n + rest)
  }

  function SweepGc(s: Storage, stuck: set<Hash>): (Storage, nat) {
    SweepParts(s, Orphans(s.parts, SortedHashes(s.parts)), stuck)
  }

  /** The inline pass seen at one part: it loses its row exactly if it was offered and unreferenced, and
      then its file too unless unlinking fails. */
  lemma {:induction false} CollectFreedAt(s: Storage, freed: seq<Hash>, stuck: set<Hash>, g: Hash)
    ensures var after := CollectFreed(s, freed, stuck);
      var gone := g in freed && Collectable(s.parts, g);
      && (g in after.parts <==> g in s.parts && !gone)
      && (g in after.parts ==> after.parts[g] == s.parts[g])
      && (g in after.files <==> g in s.files && !(gone && g !in stuck))
      && (g in after.files ==> after.files[g] == s.files[g])
    decreases |freed|
  {
    if freed != [] {
      CollectFreedAt(CollectOne(s, freed[0], stuck), freed[1..], stuck, g);
      assert freed == [freed[0]] + freed[1..];
    }
  }

  lemma {:induction false} SweepPartsAt(s: Storage, hs: seq<Hash>, stuck: set<Hash>, g: Hash)
    ensures var after := SweepParts(s, hs, stuck).0;
      var due := g in hs && Collectable(s.parts, g);
      && (g in after.parts <==> g in s.parts && !(due && g !in stuck))
      && (g in after.parts ==> after.parts[g] == if due then s.parts[g].(state := GcPending) else s.parts[g])
      && (g in after.files <==> g in s.files && !(due && g !in stuck))
      && (g in after.files ==> after.files[g] == s.files[g])
    decreases |hs|
  {
    if hs != [] {
      SweepPartsAt(SweepOne(s, hs[0], stuck).0, hs[1..], stuck, g);
      assert hs == [hs[0]] + hs[1..];
    }
  }

  lemma DueStep(hs: seq<Hash>, stuck: set<Hash>)
    requires hs != [] && hs[0] !in hs[1..]
    ensures |set h | h in hs && h !in stuck| == |set h | h in hs[1..] && h !in stuck| + if hs[0] in stuck then 0 else 1
  {
    var rest := set h | h in hs[1..] && h !in stuck;
    assert hs == [hs[0]] + hs[1..];
    assert (set h | h in hs && h !in stuck) == rest + if hs[0] in stuck then {} else {hs[0]};
  }

  lemma {:induction false} SweepPartsCount(s: Storage, hs: seq<Hash>, stuck: set<Hash>)
    requires NoDuplicates(hs) && forall h :: h in hs ==> Collectable(s.parts, h)
    ensures SweepParts(s, hs, stuck).1 == |set h | h in hs && h !in stuck|
    decreases |hs|
  {
    if hs == [] {
      assert (set h | h in hs && h !in stuck) == {};
    } else {
      assert hs == [hs[0]] + hs[1..] && hs[0] in hs;
      assert hs[0] !in hs[1..];
      var next := SweepOne(s, hs[0], stuck).0;
      forall h | h in hs[1..]
        ensures Collectable(next.parts, h)
      {
        assert h in hs;
      }
      SweepPartsCount(next, hs[1..], stuck);
      DueStep(hs, stuck);
    }
  }

  /** The live rows without references. */
  function OrphanSet(parts: Parts): set<Hash> {
    set h | h in parts && parts[h].refcount == 0 && parts[h].state == Live
  }

  lemma OrphansExactly(parts: Parts)
    ensures var hs := Orphans(parts, SortedHashes(parts));
      NoDuplicates(hs) && forall h :: h in hs <==> h in OrphanSet(parts)
  {
    SortedSpec(parts.Keys);
    OrphansMembers(parts, SortedHashes(parts));
  }

  /** At one part: an orphan is gone together with its file if that could be unlinked, and waits as
      pending otherwise; everything else is untouched. */
  predicate SweptAt(s: Storage, after: Storage, stuck: set<Hash>, h: Hash) {
    var orphan := h in OrphanSet(s.parts);
    && (h in after.parts <==> h in s.parts && !(orphan && h !in stuck))
    && (h in after.parts ==> after.parts[h] == if orphan then s.parts[h].(state := GcPending) else s.parts[h])
    && (h in after.files <==> h in s.files && !(orphan && h !in stuck))
    && (h in after.files ==> after.files[h] == s.files[h])
  }

  lemma SweepGcAt(s: Storage, stuck: set<Hash>, h: Hash)
    ensures SweptAt(s, SweepGc(s, stuck).0, stuck, h)
  {
    OrphansExactly(s.parts);
    SweepPartsAt(s, Orphans(s.parts, SortedHashes(s.parts)), stuck, h);
  }

  lemma SweepGcCount(s: Storage, stuck: set<Hash>)
    ensures SweepGc(s, stuck).1 == |OrphanSet(s.parts) - stuck|
  {
    var hs := Orphans(s.parts, SortedHashes(s.parts));
    OrphansExactly(s.parts);
    SweepPartsCount(s, hs, stuck);
    assert (set h | h in hs && h !in stuck) == OrphanSet(s.parts) - stuck;
  }

  /** The sweep over orphans is complete and safe: no live row without references is left, each part is
      treated as it should be, and the count says how many went. */
  lemma SweepGcExactly(s: Storage, stuck: set<Hash>)
    ensures var (after, removed) := SweepGc(s, stuck);
      && OrphanSet(after.parts) == {}
      && (forall h :: SweptAt(s, after, stuck, h))
      && removed == |OrphanSet(s.parts) - stuck|
  {
    var after := SweepGc(s, stuck).0;
    SweepGcCount(s, stuck);
    forall h
      ensures SweptAt(s, after, stuck, h) && h !in OrphanSet(after.parts)
    {
      SweepGcAt(s, stuck, h);
    }
  }
}
