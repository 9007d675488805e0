/** Reference counting of content-addressed parts (src/storage/db/actor.rs:1098-1149): the two
    counter updates, what a whole list of them does, and the number of references that the
    manifests really hold. */
module Refcounts {
  import opened Results
  import opened ByteStrings
  import opened Manifests

  /** Largest value of the 32-bit counter. */
  const MAX_COUNT: u32 := 0xFFFF_FFFF

  /** The stored count; a missing row counts as zero. */
  function Stored(parts: Parts, h: Hash): u32 {
    if h in parts then parts[h].refcount else 0
  }

  // ---- one counter update ----

  /** Take one reference. A part handed to the collector is refused; the counter saturates. */
  function Increment(parts: Parts, p: PartRef, now: Time): Result<Parts, MetaError> {
    if p.hash in parts then
      var e := parts[p.hash];
      if e.state == GcPending then Failure(PartIsGcPending(p.hash))
      else Success(parts[p.hash := e.(refcount := if e.refcount < MAX_COUNT then e.refcount + 1 else e.refcount)])
    else
      Success(parts[p.hash := PartEntry(1, p.size, Live, now)])
  }

  /** Drop one reference and report the part if nothing refers to it any more. */
  function Decrement(parts: Parts, h: Hash): (Parts, Option<Hash>) {
    if h !in parts then (parts, None)
    else
      var e := parts[h];
      var n := if e.refcount > 0 then e.refcount - 1 else 0;
      (parts[h := e.(refcount := n)], if n == 0 then Some(h) else None)
  }

  // ---- lists of updates, front to back ----

  function IncrementAll(parts: Parts, refs: seq<PartRef>, now: Time): Result<Parts, MetaError>
    decreases |refs|
  {
    if refs == [] then Success(parts)
    else
      match Increment(parts, refs[0], now)
      case Failure(e) => Failure(e)
      case Success(next) => IncrementAll(next, refs[1..], now)
  }

  /** Final table and the reported parts, in order. */
  function DecrementAll(parts: Parts, refs: seq<PartRef>): (Parts, seq<Hash>) {
    if refs == [] then (parts, [])
    else
      var (next, gone) := Decrement(parts, refs[0].hash);
      var (last, rest) := DecrementAll(next, refs[1..]);
      (last, if gone.Some? then [gone.value] + rest else rest)
  }

  /** How often a part occurs in a list of references. */
  function Count(refs: seq<PartRef>, h: Hash): nat {
    if refs == [] then 0 else Count(refs[1..], h) + if refs[0].hash == h then 1 else 0
  }

  lemma {:induction false} CountConcat(a: seq<PartRef>, b: seq<PartRef>, h: Hash)
    ensures Count(a + b, h) == Count(a, h) + Count(b, h)
  {
    if a == [] {
      assert a + b == b;
    } else {
      assert (a + b)[1..] == a[1..] + b;
      CountConcat(a[1..], b, h);
    }
  }

  lemma {:induction false} CountPositive(refs: seq<PartRef>, h: Hash)
    ensures Count(refs, h) > 0 <==> exists i :: 0 <= i < |refs| && refs[i].hash == h
  {
    if refs != [] {
      CountPositive(refs[1..], h);
      if Count(refs[1..], h) > 0 {
        var i :| 0 <= i < |refs[1..]| && refs[1..][i].hash == h;
        assert refs[i + 1].hash == h;
      }
      if i :| 0 <= i < |refs| && refs[i].hash == h {
        assert i > 0 ==> refs[1..][i - 1].hash == h;
      }
    }
  }

  function Capped(n: nat): nat {
    if n < MAX_COUNT then n else MAX_COUNT
  }

  predicate Pending(parts: Parts, h: Hash) {
    h in parts && parts[h].state == GcPending
  }

  /** Taking a list of references is refused exactly when the list names a part that has been
      handed to the collector. */
  lemma {:induction false} IncrementAllRefusal(parts: Parts, refs: seq<PartRef>, now: Time)
    ensures IncrementAll(parts, refs, now).Failure?
       <==> exists i :: 0 <= i < |refs| && Pending(parts, refs[i].hash)
    decreases |refs|
  {
    if refs != [] {
      var r := Increment(parts, refs[0], now);
      if r.Success? {
        assert forall h :: Pending(r.value, h) <==> Pending(parts, h);
        IncrementAllRefusal(r.value, refs[1..], now);
        assert forall i :: 0 < i < |refs| ==> refs[i] == refs[1..][i - 1];
        if i :| 0 <= i < |refs[1..]| && Pending(r.value, refs[1..][i].hash) {
          assert Pending(parts, refs[i + 1].hash);
        }
        if i :| 0 <= i < |refs| && Pending(parts, refs[i].hash) {
          assert i > 0 && Pending(r.value, refs[1..][i - 1].hash);
        }
      }
    }
  }

  /** Effect of a list of increments on one part: its count grows by the number of occurrences, up
      to the saturation point; only named parts get new rows, and those are live. */
  lemma {:induction false} IncrementAllAt(parts: Parts, refs: seq<PartRef>, now: Time, h: Hash)
    requires IncrementAll(parts, refs, now).Success?
    ensures var after := IncrementAll(parts, refs, now).value;
      && Stored(after, h) == Capped(Stored(parts, h) + Count(refs, h))
      && (h in after <==> h in parts || Count(refs, h) > 0)
      && (h in after && h !in parts ==> after[h].state == Live)
      && (h in parts ==> after[h] == parts[h].(refcount := after[h].refcount))
    decreases |refs|
  {
    if refs != [] {
      IncrementAllAt(Increment(parts, refs[0], now).value, refs[1..], now, h);
    }
  }

  /** Effect of a list of decrements on one part: its count drops by the number of occurrences,
      never below zero; nothing else about a row changes. */
  lemma {:induction false} DecrementAllAt(parts: Parts, refs: seq<PartRef>, h: Hash)
    ensures var after := DecrementAll(parts, refs).0;
      && Stored(after, h) ==
           (if Stored(parts, h) < Count(refs, h) then 0 else Stored(parts, h) - Count(refs, h))
      && (h in after <==> h in parts)
      && (h in parts ==> after[h] == parts[h].(refcount := after[h].refcount))
    decreases |refs|
  {
    if refs != [] {
      DecrementAllAt(Decrement(parts, refs[0].hash).0, refs[1..], h);
    }
  }

  predicate NoDuplicates<T(==)>(s: seq<T>) {
    forall i, j :: 0 <= i < j < |s| ==> s[i] != s[j]
  }

  /** When every reference being dropped was counted, each part is reported at most once, and it
      is reported exactly when its count has reached zero. */
  lemma {:induction false} DecrementAllReports(parts: Parts, refs: seq<PartRef>)
    requires forall h :: Count(refs, h) <= Stored(parts, h)
    ensures var (after, gone) := DecrementAll(parts, refs);
      && NoDuplicates(gone)
      && (forall h :: h in gone <==> Count(refs, h) > 0 && Stored(after, h) == 0)
    decreases |refs|
  {
    if refs != [] {
      var h0 := refs[0].hash;
      var (next, first) := Decrement(parts, h0);
      assert Count(refs, h0) >= 1;
      forall h
        ensures Count(refs[1..], h) <= Stored(next, h)
      {
        assert Count(refs, h) <= Stored(parts, h);
      }
      DecrementAllReports(next, refs[1..]);
      DecrementAllAt(next, refs[1..], h0);
      var rest := DecrementAll(next, refs[1..]).1;
      assert first.Some? ==> Stored(next, h0) == 0 && Count(refs[1..], h0) == 0 && h0 !in rest;
      assert DecrementAll(parts, refs).1 == if first.Some? then [h0] + rest else rest;
    }
  }

  // ---- the references that manifests hold ----

  ghost function AnyRow(o: Objects): (k: Bytes)
    requires o != map[]
    ensures k in o
  {
    var k :| k in o; k
  }

  /** Number of references to a part over all manifests of a table, whatever their state. */
  ghost function References(o: Objects, h: Hash): nat {
    if o == map[] then 0
    else Count(o[AnyRow(o)].parts, h) + References(o - {AnyRow(o)}, h)
  }

  function HeldAt(o: Objects, k: Bytes, h: Hash): nat {
    if k in o then Count(o[k].parts, h) else 0
  }

  /** Removing one row takes away exactly that row's references. */
  lemma {:induction false} ReferencesRemove(o: Objects, k: Bytes, h: Hash)
    ensures References(o, h) == HeldAt(o, k, h) + References(o - {k}, h)
    decreases o.Keys
  {
    if k !in o {
      assert o - {k} == o;
    } else {
      var c := AnyRow(o);
      if c != k {
        ReferencesRemove(o - {c}, k, h);
        ReferencesRemove(o - {k}, c, h);
        assert o - {c} - {k} == o - {k} - {c};
      }
    }
  }

  /** Writing a row swaps the old row's references for the new one's. */
  lemma ReferencesWrite(o: Objects, k: Bytes, m: Manifest, h: Hash)
    ensures References(o[k := m], h) + HeldAt(o, k, h) == References(o, h) + Count(m.parts, h)
  {
    ReferencesRemove(o, k, h);
    ReferencesRemove(o[k := m], k, h);
    assert o[k := m] - {k} == o - {k};
  }

  /** A part is referenced exactly when some manifest lists it. */
  lemma {:induction false} ReferencedIff(o: Objects, h: Hash)
    ensures References(o, h) > 0 <==> exists k :: k in o && Count(o[k].parts, h) > 0
    decreases o.Keys
  {
    if o != map[] {
      var c := AnyRow(o);
      ReferencedIff(o - {c}, h);
      assert forall k :: k in o - {c} ==> (o - {c})[k] == o[k];
      if k :| k in o && Count(o[k].parts, h) > 0 {
        assert k == c || k in o - {c};
      }
    }
  }
}
