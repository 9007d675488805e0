/** Both hypotheses about the collector are needed: for each of them, a run that only breaks this one
    loses the file of a committed object. */
module GcWitnesses {
  import opened Results
  import opened Manifests
  import opened Refcounts
  import opened Transactions
  import opened GcProtocol
  import opened GcSafety

  const PART: PartRef := PartRef(1, [7], [9], 1)

  const OBJECT: Manifest :=
    Manifest(ManifestKey([98], [107], NULL_VERSION), Committed, Object, [PART], 1, [], None, 0, 0)

  const LIVE: Parts := map[[7] := PartEntry(0, 1, Live, 0)]

  const PENDING: Parts := map[[7] := PartEntry(0, 1, GcPending, 0)]

  /** An object was written and deleted: its part has no reference left but still has its file. */
  const ORPHANED: World := World(Tables(map[], LIVE), {[7]}, map[], map[])

  /** A client without acquisitions writes the part. */
  lemma FirstWrite(w: World, c: nat)
    requires c !in w.holders
    ensures Exec(w, WriteFile(c, [7])) == w.(files := w.files + {[7]}, holders := w.holders[c := {[7]}])
  {
    var none: set<Hash> := {};
    assert Held(w, c) + {[7]} == none + {[7]} == {[7]};
  }

  /** A client that holds the part commits the object into a world without objects. */
  lemma FirstPut(w: World, c: nat)
    requires w.tables == Tables(map[], map[]) && [7] in Held(w, c)
    ensures Acquired(w, Put(c, OBJECT, 0)) && CountersFit(w, Put(c, OBJECT, 0))
    ensures Exec(w, Put(c, OBJECT, 0))
         == w.(tables := Tables(map[Encode(OBJECT.key) := OBJECT], map[[7] := PartEntry(1, 1, Live, 0)]),
               holders := w.holders - {c})
  {
    assert [PART][1..] == [];
    assert IncrementAll(w.tables.parts, [PART], 0) == Increment(w.tables.parts, PART, 0);
    assert forall h :: Count([PART], h) <= 1;
    assert Hashes([PART]) <= {[7]};
  }

  lemma OrphanedIsReachable(oneTask: bool, noRemoval: bool)
    ensures exists es :: Follows(EMPTY, es, oneTask, noRemoval) && Run(EMPTY, es) == ORPHANED
  {
    var e1, e2, e3 := WriteFile(0, [7]), Put(0, OBJECT, 0), Delete(OBJECT.key);
    FirstWrite(EMPTY, 0);
    assert EMPTY.files + {[7]} == {[7]};
    var w1 := Exec(EMPTY, e1);
    FirstPut(w1, 0);
    var w2 := Exec(w1, e2);
    DeleteWitness(w2.tables);
    assert Exec(w2, e3) == ORPHANED;
    FollowsStep(w2, e3, [], oneTask, noRemoval);
    FollowsStep(w1, e2, [e3], oneTask, noRemoval);
    FollowsStep(EMPTY, e1, [e2, e3], oneTask, noRemoval);
  }

  lemma DeleteWitness(t: Tables)
    requires t == Tables(map[Encode(OBJECT.key) := OBJECT], map[[7] := PartEntry(1, 1, Live, 0)])
    ensures After(t, DeleteManifest(t, OBJECT.key)) == Tables(map[], LIVE)
  {
    assert [PART][1..] == [];
    assert t.parts[[7] := PartEntry(0, 1, Live, 0)] == LIVE;
    assert Decrement(t.parts, [7]) == (LIVE, Some([7]));
    assert DecrementAll(LIVE, []) == (LIVE, []);
    assert DecrementAll(t.parts, [PART]).0 == LIVE;
    assert t.objects - {Encode(OBJECT.key)} == map[];
  }

  const TWO_TASKS: World :=
    World(Tables(map[], PENDING), {[7]}, map[], map[1 := Task([7], false), 2 := Task([7], false)])

  lemma TwoTasksIsReachable()
    ensures Follows(ORPHANED, [Mark(1, [7]), Mark(2, [7])], false, true)
    ensures Run(ORPHANED, [Mark(1, [7]), Mark(2, [7])]) == TWO_TASKS
  {
    var w1 := World(Tables(map[], PENDING), {[7]}, map[], map[1 := Task([7], false)]);
    assert LIVE[[7] := PartEntry(0, 1, GcPending, 0)] == PENDING == PENDING[[7] := PartEntry(0, 1, GcPending, 0)];
    assert Exec(ORPHANED, Mark(1, [7])) == w1;
    assert Exec(w1, Mark(2, [7])) == TWO_TASKS;
    FollowsStep(w1, Mark(2, [7]), [], false, true);
    FollowsStep(ORPHANED, Mark(1, [7]), [Mark(2, [7])], false, true);
  }

  lemma TwoTasksLoseAFile()
    ensures var es := [Unlink(1), Remove(1), WriteFile(3, [7]), Put(3, OBJECT, 0), Unlink(2)];
      Follows(TWO_TASKS, es, false, true) && !AllPartsOnDisk(Run(TWO_TASKS, es))
  {
    var w1 := Exec(TWO_TASKS, Unlink(1));
    var w2 := Exec(w1, Remove(1));
    assert w2.tables == Tables(map[], map[]) && w2.tasks[2] == Task([7], false);
    FirstWrite(w2, 3);
    var w3 := Exec(w2, WriteFile(3, [7]));
    FirstPut(w3, 3);
    var w4 := Exec(w3, Put(3, OBJECT, 0));
    var w5 := Exec(w4, Unlink(2));
    assert w5.tables.objects[Encode(OBJECT.key)].parts[0].hash == [7] && [7] !in w5.files;
    FollowsStep(w4, Unlink(2), [], false, true);
    FollowsStep(w3, Put(3, OBJECT, 0), [Unlink(2)], false, true);
    FollowsStep(w2, WriteFile(3, [7]), [Put(3, OBJECT, 0), Unlink(2)], false, true);
    FollowsStep(w1, Remove(1), [WriteFile(3, [7]), Put(3, OBJECT, 0), Unlink(2)], false, true);
    FollowsStep(TWO_TASKS, Unlink(1), [Remove(1), WriteFile(3, [7]), Put(3, OBJECT, 0), Unlink(2)], false, true);
  }

  /** Two tasks on one part: the second unlinks the file of an object written after the first had
      finished, although no row was removed under a holder. */
  lemma OneTaskPerPartIsNeeded()
    ensures exists es :: Follows(EMPTY, es, false, true) && !AllPartsOnDisk(Run(EMPTY, es))
  {
    OrphanedIsReachable(false, true);
    var a :| Follows(EMPTY, a, false, true) && Run(EMPTY, a) == ORPHANED;
    TwoTasksIsReachable();
    TwoTasksLoseAFile();
    var b := [Mark(1, [7]), Mark(2, [7])];
    var c := [Unlink(1), Remove(1), WriteFile(3, [7]), Put(3, OBJECT, 0), Unlink(2)];
    FollowsConcat(ORPHANED, b, c, false, true);
    FollowsConcat(EMPTY, a, b + c, false, true);
  }

  lemma DeduplicatedWriteLosesItsFile()
    ensures var es := [WriteFile(1, [7]), Mark(2, [7]), Unlink(2), Remove(2), Put(1, OBJECT, 0)];
      Follows(ORPHANED, es, true, false) && !AllPartsOnDisk(Run(ORPHANED, es))
  {
    FirstWrite(ORPHANED, 1);
    var w1 := Exec(ORPHANED, WriteFile(1, [7]));
    assert w1.files == {[7]};
    var w2 := Exec(w1, Mark(2, [7]));
    var w3 := Exec(w2, Unlink(2));
    var w4 := Exec(w3, Remove(2));
    assert w4.tables == Tables(map[], map[]);
    FirstPut(w4, 1);
    var w5 := Exec(w4, Put(1, OBJECT, 0));
    assert w5.tables.objects[Encode(OBJECT.key)].parts[0].hash == [7] && [7] !in w5.files;
    FollowsStep(w4, Put(1, OBJECT, 0), [], true, false);
    FollowsStep(w3, Remove(2), [Put(1, OBJECT, 0)], true, false);
    FollowsStep(w2, Unlink(2), [Remove(2), Put(1, OBJECT, 0)], true, false);
    FollowsStep(w1, Mark(2, [7]), [Unlink(2), Remove(2), Put(1, OBJECT, 0)], true, false);
    FollowsStep(ORPHANED, WriteFile(1, [7]), [Mark(2, [7]), Unlink(2), Remove(2), Put(1, OBJECT, 0)], true, false);
  }

  /** One task only: a writer deduplicates against the file, the whole cycle runs, and the commit
      then creates a row for a part without file. */
  lemma NoRemovalUnderHolderIsNeeded()
    ensures exists es :: Follows(EMPTY, es, true, false) && !AllPartsOnDisk(Run(EMPTY, es))
  {
    OrphanedIsReachable(true, false);
    var a :| Follows(EMPTY, a, true, false) && Run(EMPTY, a) == ORPHANED;
    DeduplicatedWriteLosesItsFile();
    FollowsConcat(EMPTY, a, [WriteFile(1, [7]), Mark(2, [7]), Unlink(2), Remove(2), Put(1, OBJECT, 0)], true, false);
  }
}
