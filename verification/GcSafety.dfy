/** Race safety of part collection over whole runs. */
module GcSafety {
  import opened Manifests
  import opened Refcounts
  import opened Transactions
  import opened GcProtocol

  lemma StepKeepsSafe(w: World, e: Event)
    requires Safe(w) && Acquired(w, e) && CountersFit(w, e) && OneTaskPerPart(w, e) && NoRemovalUnderHolder(w, e)
    ensures Safe(Exec(w, e))
  {
    match e
    case Put(_, _, _) => PutKeepsSafe(w, e);
    case Append(_, _, _, _) => AppendKeepsSafe(w, e);
    case Complete(_, _, _, _) => CompleteKeepsSafe(w, e);
    case Delete(_) => DeleteKeepsSafe(w, e);
    case SetState(_, _, _) => UpdateKeepsSafe(w, e);
    case SetLock(_, _) => UpdateKeepsSafe(w, e);
    case Mark(_, _) => MarkKeepsSafe(w, e);
    case Unlink(_) => UnlinkKeepsSafe(w, e);
    case UnlinkFails(_) => UnlinkKeepsSafe(w, e);
    case Remove(_) => RemoveKeepsSafe(w, e);
    case GiveUp(_) => UnlinkKeepsSafe(w, e);
    case WriteFile(_, _) => AcquireKeepsSafe(w, e);
    case ReadManifest(_, _) => AcquireKeepsSafe(w, e);
    case Abandon(_) => AcquireKeepsSafe(w, e);
  }

  lemma {:induction false} RunKeepsSafe(w: World, es: seq<Event>)
    requires Safe(w) && Disciplined(w, es)
    ensures Safe(Run(w, es))
    decreases |es|
  {
    if es != [] {
      StepKeepsSafe(w, es[0]);
      RunKeepsSafe(Exec(w, es[0]), es[1..]);
    }
  }

  lemma SafePartsOnDisk(w: World)
    requires Safe(w)
    ensures AllPartsOnDisk(w)
  {
    forall k, i | k in w.tables.objects && 0 <= i < |w.tables.objects[k].parts|
      ensures w.tables.objects[k].parts[i].hash in w.files
    {
      var h := w.tables.objects[k].parts[i].hash;
      CountPositive(w.tables.objects[k].parts, h);
      ReferencesRemove(w.tables.objects, k, h);
      assert OnDisk(w, h);
    }
  }

  /** Over every disciplined interleaving, of any length: no manifest ever refers to a part whose
      file is gone, and every stored count is the true number of references. */
  lemma RaceSafety(es: seq<Event>)
    requires Disciplined(EMPTY, es)
    ensures AllPartsOnDisk(Run(EMPTY, es)) && Consistent(Run(EMPTY, es).tables)
  {
    RunKeepsSafe(EMPTY, es);
    SafePartsOnDisk(Run(EMPTY, es));
  }

  /** While a task works on a part, no request can commit a reference to it. */
  lemma CommitMeetingTaskIsRefused(w: World, g: nat, m: Manifest, now: Time)
    requires Safe(w) && g in w.tasks && w.tasks[g].hash in Hashes(m.parts)
    ensures PutManifest(w.tables, m, now).Failure?
  {
    PutRefusedIff(w.tables, m, now);
  }

  // ---- putting runs together ----

  lemma FollowsStep(w: World, e: Event, es: seq<Event>, oneTask: bool, noRemoval: bool)
    requires Acquired(w, e) && CountersFit(w, e)
    requires oneTask ==> OneTaskPerPart(w, e)
    requires noRemoval ==> NoRemovalUnderHolder(w, e)
    requires Follows(Exec(w, e), es, oneTask, noRemoval)
    ensures Follows(w, [e] + es, oneTask, noRemoval) && Run(w, [e] + es) == Run(Exec(w, e), es)
  {
    assert ([e] + es)[1..] == es;
  }

  lemma {:induction false} FollowsConcat(w: World, a: seq<Event>, b: seq<Event>, oneTask: bool, noRemoval: bool)
    requires Follows(w, a, oneTask, noRemoval) && Follows(Run(w, a), b, oneTask, noRemoval)
    ensures Follows(w, a + b, oneTask, noRemoval) && Run(w, a + b) == Run(Run(w, a), b)
    decreases |a|
  {
    if a == [] {
      assert a + b == b;
    } else {
      assert (a + b)[1..] == a[1..] + b;
      FollowsConcat(Exec(w, a[0]), a[1..], b, oneTask, noRemoval);
    }
  }
}
