/** Ordered range scans over the object table, and the "current version" of a key, which the
    program computes in four different ways (src/storage/db/actor.rs, src/s3/maintenance.rs). */
module Scans {
  import opened Results
  import opened ByteStrings
  import opened Sequences
  import opened Manifests
  import opened KeyOrder

  // ---- keys in order ----

  predicate IsLeast(k: Bytes, s: set<Bytes>) {
    k in s && forall x :: x in s ==> Leq(k, x)
  }

  lemma {:induction false} LeastExists(s: set<Bytes>)
    requires s != {}
    ensures exists k :: IsLeast(k, s)
  {
    var x :| x in s;
    if s == {x} {
      LessIrreflexive(x);
      assert IsLeast(x, s);
    } else {
      LeastExists(s - {x});
      var y :| IsLeast(y, s - {x});
      LessTotal(x, y);
      LessIrreflexive(x);
      if Less(x, y) {
        forall z | z in s
          ensures Leq(x, z)
        {
          if z != x {
            LessLeqTransitive(x, y, z);
            LessTotal(x, z);
          }
        }
        assert IsLeast(x, s);
      } else {
        assert IsLeast(y, s);
      }
    }
  }

  lemma LeastUnique(a: Bytes, b: Bytes, s: set<Bytes>)
    requires IsLeast(a, s) && IsLeast(b, s)
    ensures a == b
  {
    LessTotal(a, b);
  }

  function Least(s: set<Bytes>): (k: Bytes)
    requires s != {}
    ensures IsLeast(k, s)
  {
    LeastExists(s);
    assert forall a, b | IsLeast(a, s) && IsLeast(b, s) :: a == b by {
      forall a, b | IsLeast(a, s) && IsLeast(b, s)
        ensures a == b
      {
        LeastUnique(a, b, s);
      }
    }
    var k :| k in s && IsLeast(k, s);
    k
  }

  function Sorted(s: set<Bytes>): seq<Bytes> {
    if s == {} then [] else [Least(s)] + Sorted(s - {Least(s)})
  }

  predicate Ascending(ks: seq<Bytes>) {
    forall i, j :: 0 <= i < j < |ks| ==> Less(ks[i], ks[j])
  }

  lemma {:induction false} SortedSpec(s: set<Bytes>)
    ensures Ascending(Sorted(s)) && |Sorted(s)| == |s|
    ensures forall k :: k in Sorted(s) <==> k in s
  {
    if s != {} {
      var k := Least(s);
      SortedSpec(s - {k});
      forall x | x in s - {k}
        ensures Less(k, x)
      {
        LessTotal(k, x);
      }
    }
  }

  // ---- rows ----

  predicate Has(o: Objects, m: Manifest) {
    Encode(m.key) in o && o[Encode(m.key)] == m
  }

  predicate InRange(lo: Bytes, hi: Bytes, k: Bytes) {
    Leq(lo, k) && Less(k, hi)
  }

  function RangeKeys(o: Objects, lo: Bytes, hi: Bytes): (s: set<Bytes>)
    ensures forall k :: k in s ==> k in o
  {
    set k | k in o && InRange(lo, hi, k)
  }

  function ValuesAt(o: Objects, ks: seq<Bytes>): (ms: seq<Manifest>)
    requires forall k :: k in ks ==> k in o
    ensures |ms| == |ks| && forall i :: 0 <= i < |ks| ==> ms[i] == o[ks[i]]
  {
    if ks == [] then [] else [o[ks[0]]] + ValuesAt(o, ks[1..])
  }

  /** The rows with `lo <= key < hi`, in key order: what a table range iterates over. */
  function Rows(o: Objects, lo: Bytes, hi: Bytes): seq<Manifest> {
    SortedSpec(RangeKeys(o, lo, hi));
    ValuesAt(o, Sorted(RangeKeys(o, lo, hi)))
  }

  predicate RowOrder(ms: seq<Manifest>) {
    forall i, j :: 0 <= i < j < |ms| ==> Less(Encode(ms[i].key), Encode(ms[j].key))
  }

  lemma RowAt(o: Objects, lo: Bytes, hi: Bytes, i: int)
    requires WellFormed(o) && 0 <= i < |Rows(o, lo, hi)|
    ensures var ks, m := Sorted(RangeKeys(o, lo, hi)), Rows(o, lo, hi)[i];
      |ks| == |Rows(o, lo, hi)| && Encode(m.key) == ks[i] && Has(o, m) && InRange(lo, hi, ks[i])
  {
    SortedSpec(RangeKeys(o, lo, hi));
    assert Sorted(RangeKeys(o, lo, hi))[i] in RangeKeys(o, lo, hi);
  }

  lemma RowsContain(o: Objects, lo: Bytes, hi: Bytes, m: Manifest)
    requires Has(o, m) && InRange(lo, hi, Encode(m.key))
    ensures m in Rows(o, lo, hi)
  {
    var s := RangeKeys(o, lo, hi);
    SortedSpec(s);
    assert Encode(m.key) in Sorted(s);
    var i :| 0 <= i < |Sorted(s)| && Sorted(s)[i] == Encode(m.key);
    assert Rows(o, lo, hi)[i] == m;
  }

  lemma RowsSpec(o: Objects, lo: Bytes, hi: Bytes)
    requires WellFormed(o)
    ensures RowOrder(Rows(o, lo, hi))
    ensures forall m :: m in Rows(o, lo, hi) <==> Has(o, m) && InRange(lo, hi, Encode(m.key))
  {
    var ms := Rows(o, lo, hi);
    forall i, j | 0 <= i < j < |ms|
      ensures Less(Encode(ms[i].key), Encode(ms[j].key))
    {
      SortedSpec(RangeKeys(o, lo, hi));
      RowAt(o, lo, hi, i);
      RowAt(o, lo, hi, j);
    }
    forall m
      ensures m in ms <==> Has(o, m) && InRange(lo, hi, Encode(m.key))
    {
      if m in ms {
        var i :| 0 <= i < |ms| && ms[i] == m;
        RowAt(o, lo, hi, i);
      } else if Has(o, m) && InRange(lo, hi, Encode(m.key)) {
        RowsContain(o, lo, hi, m);
      }
    }
  }

  /** The order of the rows, as an order on manifests. */
  ghost function RowLess(): (Manifest, Manifest) -> bool {
    (x: Manifest, y: Manifest) => Less(Encode(x.key), Encode(y.key))
  }

  lemma RowLessAsymmetric()
    ensures Asymmetric(RowLess())
  {
    forall x: Manifest, y: Manifest | RowLess()(x, y)
      ensures !RowLess()(y, x)
    {
      LessTotal(Encode(x.key), Encode(y.key));
    }
  }

  /** Two lists of rows in key order with the same elements are the same list. */
  lemma RowOrderUnique(a: seq<Manifest>, b: seq<Manifest>)
    requires RowOrder(a) && RowOrder(b)
    requires forall m :: m in a <==> m in b
    ensures a == b
  {
    RowLessAsymmetric();
    IncreasingUnique(a, b, RowLess());
  }

  lemma FirstIsLeast(a: seq<Manifest>, m: Manifest)
    requires RowOrder(a) && m in a
    ensures m == a[0] || Less(Encode(a[0].key), Encode(m.key))
  {
  }

  lemma TailMembers(a: seq<Manifest>, m: Manifest)
    requires RowOrder(a) && a != []
    ensures m in a[1..] <==> m in a && m != a[0]
  {
    RowLessAsymmetric();
    LaterMembers(a, RowLess(), m);
  }

  // ---- selections ----

  function Filter(ms: seq<Manifest>, p: Manifest -> bool): (r: seq<Manifest>)
    ensures |r| <= |ms|
  {
    if ms == [] then []
    else if p(ms[0]) then [ms[0]] + Filter(ms[1..], p)
    else Filter(ms[1..], p)
  }

  lemma {:induction false} FilterConcat(a: seq<Manifest>, b: seq<Manifest>, p: Manifest -> bool)
    ensures Filter(a + b, p) == Filter(a, p) + Filter(b, p)
  {
    if a == [] {
      assert a + b == b;
    } else {
      assert (a + b)[1..] == a[1..] + b;
      FilterConcat(a[1..], b, p);
    }
  }

  lemma FilterSnoc(a: seq<Manifest>, m: Manifest, p: Manifest -> bool)
    ensures Filter(a + [m], p) == Filter(a, p) + if p(m) then [m] else []
  {
    FilterConcat(a, [m], p);
  }

  lemma {:induction false} FilterMembers(ms: seq<Manifest>, p: Manifest -> bool)
    ensures forall m :: m in Filter(ms, p) <==> m in ms && p(m)
    ensures RowOrder(ms) ==> RowOrder(Filter(ms, p))
  {
    if ms != [] {
      FilterMembers(ms[1..], p);
      assert ms == [ms[0]] + ms[1..];
      if RowOrder(ms) && p(ms[0]) {
        forall m | m in Filter(ms[1..], p)
          ensures Less(Encode(ms[0].key), Encode(m.key))
        {
          var i :| 0 <= i < |ms[1..]| && ms[1..][i] == m;
          assert ms[i + 1] == m;
        }
      }
    }
  }

  lemma {:induction false} FilterSame(ms: seq<Manifest>, p: Manifest -> bool, q: Manifest -> bool)
    requires forall m :: m in ms ==> p(m) == q(m)
    ensures Filter(ms, p) == Filter(ms, q)
  {
    if ms != [] {
      assert ms[0] in ms;
      FilterSame(ms[1..], p, q);
    }
  }

  lemma {:induction false} FilterAll(ms: seq<Manifest>, p: Manifest -> bool)
    requires forall m :: m in ms ==> p(m)
    ensures Filter(ms, p) == ms
  {
    if ms != [] {
      assert ms[0] in ms;
      FilterAll(ms[1..], p);
    }
  }

  predicate IsCommitted(m: Manifest) {
    m.state == Committed
  }

  function CommittedOnly(ms: seq<Manifest>): seq<Manifest> {
    Filter(ms, IsCommitted)
  }

  /** The rows of one user key. */
  function OfKey(ms: seq<Manifest>, key: Bytes): seq<Manifest> {
    Filter(ms, (m: Manifest) => m.key.key == key)
  }

  /** What lies in a bucket's range of the table. */
  function BucketRangeRows(o: Objects, bucket: Bytes): seq<Manifest> {
    Rows(o, BucketStart(bucket), BucketEnd(bucket))
  }

  function OfBucket(ms: seq<Manifest>, bucket: Bytes): seq<Manifest> {
    Filter(ms, (m: Manifest) => m.key.bucket == bucket)
  }

  function BucketRows(o: Objects, bucket: Bytes): seq<Manifest> {
    OfBucket(BucketRangeRows(o, bucket), bucket)
  }

  function OfVersions(ms: seq<Manifest>, bucket: Bytes, key: Bytes): seq<Manifest> {
    Filter(ms, (m: Manifest) => m.key.bucket == bucket && m.key.key == key)
  }

  function VersionRows(o: Objects, bucket: Bytes, key: Bytes): seq<Manifest> {
    OfVersions(Rows(o, KeyStart(bucket, key), KeyEnd(bucket, key)), bucket, key)
  }

  lemma OfBucketSnoc(ms: seq<Manifest>, m: Manifest, bucket: Bytes)
    ensures OfBucket(ms + [m], bucket) == OfBucket(ms, bucket) + if m.key.bucket == bucket then [m] else []
  {
    FilterSnoc(ms, m, (x: Manifest) => x.key.bucket == bucket);
  }

  lemma OfVersionsSnoc(ms: seq<Manifest>, m: Manifest, bucket: Bytes, key: Bytes)
    ensures OfVersions(ms + [m], bucket, key)
         == OfVersions(ms, bucket, key) + if m.key.bucket == bucket && m.key.key == key then [m] else []
  {
    FilterSnoc(ms, m, (x: Manifest) => x.key.bucket == bucket && x.key.key == key);
  }

  /** For proper keys the range holds the bucket's rows and nothing else. */
  lemma BucketRangeSpec(o: Objects, bucket: Bytes)
    requires WellFormed(o) && NulFree(bucket)
    ensures RowOrder(BucketRangeRows(o, bucket))
    ensures forall m :: m in BucketRangeRows(o, bucket) <==> Has(o, m) && m.key.bucket == bucket
  {
    RowsSpec(o, BucketStart(bucket), BucketEnd(bucket));
    forall m | Has(o, m)
      ensures InRange(BucketStart(bucket), BucketEnd(bucket), Encode(m.key)) <==> m.key.bucket == bucket
    {
      BucketRange(bucket, m.key);
    }
  }

  lemma BucketRowsSpec(o: Objects, bucket: Bytes)
    requires WellFormed(o) && NulFree(bucket)
    ensures BucketRows(o, bucket) == BucketRangeRows(o, bucket)
    ensures RowOrder(BucketRows(o, bucket))
    ensures forall m :: m in BucketRows(o, bucket) <==> Has(o, m) && m.key.bucket == bucket
  {
    BucketRangeSpec(o, bucket);
    FilterAll(BucketRangeRows(o, bucket), (m: Manifest) => m.key.bucket == bucket);
  }

  lemma VersionRowsSpec(o: Objects, bucket: Bytes, key: Bytes)
    requires WellFormed(o) && NulFree(bucket) && NulFree(key)
    ensures RowOrder(VersionRows(o, bucket, key))
    ensures forall m :: m in VersionRows(o, bucket, key) <==> Has(o, m) && m.key.bucket == bucket && m.key.key == key
  {
    var rows := Rows(o, KeyStart(bucket, key), KeyEnd(bucket, key));
    RowsSpec(o, KeyStart(bucket, key), KeyEnd(bucket, key));
    FilterMembers(rows, (m: Manifest) => m.key.bucket == bucket && m.key.key == key);
    forall m | Has(o, m)
      ensures InRange(KeyStart(bucket, key), KeyEnd(bucket, key), Encode(m.key))
         <==> m.key.bucket == bucket && m.key.key == key
    {
      KeyRange(bucket, key, m.key);
    }
  }

  // ---- the newest of a list: the first one with the greatest time ----

  function Newest(ms: seq<Manifest>): Option<Manifest> {
    if ms == [] then None
    else
      var best := Newest(ms[..|ms| - 1]);
      var m := ms[|ms| - 1];
      if best.None? || m.lastModified > best.value.lastModified then Some(m) else best
  }

  /** Position `i` beats everything before it and is beaten by nothing after it. */
  predicate Wins(ms: seq<Manifest>, i: int) {
    && 0 <= i < |ms|
    && (forall j :: 0 <= j < i ==> ms[j].lastModified < ms[i].lastModified)
    && (forall j :: i < j < |ms| ==> ms[j].lastModified <= ms[i].lastModified)
  }

  lemma {:induction false} NewestWins(ms: seq<Manifest>)
    requires ms != []
    ensures exists i :: Wins(ms, i) && Newest(ms) == Some(ms[i])
  {
    var front := ms[..|ms| - 1];
    if front == [] {
      assert Newest(front) == None;
      assert Wins(ms, 0) && Newest(ms) == Some(ms[0]);
    } else {
      NewestWins(front);
      var i :| Wins(front, i) && Newest(front) == Some(front[i]);
      assert forall j :: 0 <= j < |front| ==> ms[j] == front[j] && front[j].lastModified <= front[i].lastModified;
      if ms[|ms| - 1].lastModified > front[i].lastModified {
        assert Wins(ms, |ms| - 1);
      } else {
        assert Wins(ms, i);
      }
    }
  }

  /** The same winner, looking at the list from its front. */
  lemma {:induction false} NewestFromFront(ms: seq<Manifest>)
    requires |ms| > 1
    ensures var rest := Newest(ms[1..]);
      rest.Some? && Newest(ms) == if rest.value.lastModified > ms[0].lastModified then rest else Some(ms[0])
  {
    var front := ms[..|ms| - 1];
    if |ms| == 2 {
      assert front == [ms[0]] && ms[1..] == [ms[1]] && front[..0] == [] == ms[1..][..0];
    } else {
      NewestFromFront(front);
      assert front[1..] == ms[1..][..|ms| - 2];
    }
  }

  // ---- stable sort, newest first ----

  function InsertByTime(m: Manifest, ms: seq<Manifest>): seq<Manifest> {
    if ms == [] || ms[0].lastModified <= m.lastModified then [m] + ms
    else [ms[0]] + InsertByTime(m, ms[1..])
  }

  /** `sort_by` on descending `last_modified`. */
  function NewestFirst(ms: seq<Manifest>): seq<Manifest> {
    if ms == [] then [] else InsertByTime(ms[0], NewestFirst(ms[1..]))
  }

  predicate Descending(ms: seq<Manifest>) {
    forall i, j :: 0 <= i < j < |ms| ==> ms[j].lastModified <= ms[i].lastModified
  }

  lemma {:induction false} InsertByTimePermutes(m: Manifest, ms: seq<Manifest>)
    ensures multiset(InsertByTime(m, ms)) == multiset([m] + ms)
  {
    if ms != [] && ms[0].lastModified > m.lastModified {
      InsertByTimePermutes(m, ms[1..]);
      assert ms == [ms[0]] + ms[1..];
    }
  }

  lemma {:induction false} InsertByTimeDescends(m: Manifest, ms: seq<Manifest>)
    requires Descending(ms)
    ensures Descending(InsertByTime(m, ms))
  {
    if ms != [] && ms[0].lastModified > m.lastModified {
      InsertByTimeDescends(m, ms[1..]);
      InsertByTimeMembers(m, ms[1..]);
    }
  }

  lemma {:induction false} InsertByTimeMembers(m: Manifest, ms: seq<Manifest>)
    ensures forall i :: 0 <= i < |InsertByTime(m, ms)| ==> InsertByTime(m, ms)[i] == m || InsertByTime(m, ms)[i] in ms
  {
    if ms != [] && ms[0].lastModified > m.lastModified {
      InsertByTimeMembers(m, ms[1..]);
    }
  }

  lemma {:induction false} NewestFirstSpec(ms: seq<Manifest>)
    ensures Descending(NewestFirst(ms)) && multiset(NewestFirst(ms)) == multiset(ms)
  {
    if ms != [] {
      NewestFirstSpec(ms[1..]);
      InsertByTimePermutes(ms[0], NewestFirst(ms[1..]));
      InsertByTimeDescends(ms[0], NewestFirst(ms[1..]));
      assert ms == [ms[0]] + ms[1..];
    }
  }

  lemma {:induction false} InsertThenFilter(m: Manifest, ms: seq<Manifest>, p: Manifest -> bool)
    requires Descending(ms)
    ensures Filter(InsertByTime(m, ms), p) == if p(m) then InsertByTime(m, Filter(ms, p)) else Filter(ms, p)
  {
    if ms == [] || ms[0].lastModified <= m.lastModified {
      assert ([m] + ms)[1..] == ms;
      FilterMembers(ms, p);
      assert Filter(ms, p) != [] ==> Filter(ms, p)[0] in Filter(ms, p);
    } else {
      InsertThenFilter(m, ms[1..], p);
      assert ([ms[0]] + InsertByTime(m, ms[1..]))[1..] == InsertByTime(m, ms[1..]);
      assert ([ms[0]] + Filter(ms[1..], p))[1..] == Filter(ms[1..], p);
    }
  }

  /** Sorting and selecting commute: in particular equal times keep their order, so the sort is
      stable, and the sort does not care about rows that are selected away later. */
  lemma {:induction false} SortThenFilter(ms: seq<Manifest>, p: Manifest -> bool)
    ensures Filter(NewestFirst(ms), p) == NewestFirst(Filter(ms, p))
  {
    if ms != [] {
      SortThenFilter(ms[1..], p);
      NewestFirstSpec(ms[1..]);
      InsertThenFilter(ms[0], NewestFirst(ms[1..]), p);
      if p(ms[0]) {
        assert ([ms[0]] + Filter(ms[1..], p))[1..] == Filter(ms[1..], p);
      }
    }
  }

  /** The first element of the sorted list is the newest of the list. */
  lemma {:induction false} SortedHeadIsNewest(ms: seq<Manifest>)
    requires ms != []
    ensures NewestFirst(ms) != [] && Newest(ms) == Some(NewestFirst(ms)[0])
  {
    if |ms| == 1 {
      assert ms[..0] == [] == ms[1..];
    } else {
      SortedHeadIsNewest(ms[1..]);
      NewestFromFront(ms);
    }
  }

  // ---- the current version of a key ----

  /** What a lookup without version id finds: the newest committed version, or none. */
  function Current(o: Objects, bucket: Bytes, key: Bytes): Option<Manifest> {
    Newest(CommittedOnly(VersionRows(o, bucket, key)))
  }

  /** Reference definition on the plain table: committed, and no committed version of the same key is
      newer, nor equally new under a smaller version id. */
  ghost predicate IsCurrent(o: Objects, bucket: Bytes, key: Bytes, m: Manifest) {
    && Has(o, m) && m.key.bucket == bucket && m.key.key == key && m.state == Committed
    && (forall n :: Has(o, n) && n.key.bucket == bucket && n.key.key == key && n.state == Committed ==>
         n.lastModified < m.lastModified
         || (n.lastModified == m.lastModified && Leq(m.key.versionId, n.key.versionId)))
  }

  lemma CommittedVersions(o: Objects, bucket: Bytes, key: Bytes)
    requires WellFormed(o) && NulFree(bucket) && NulFree(key)
    ensures RowOrder(CommittedOnly(VersionRows(o, bucket, key)))
    ensures forall m :: m in CommittedOnly(VersionRows(o, bucket, key)) <==>
              Has(o, m) && m.key.bucket == bucket && m.key.key == key && m.state == Committed
  {
    VersionRowsSpec(o, bucket, key);
    FilterMembers(VersionRows(o, bucket, key), IsCommitted);
  }

  /** The lookup finds exactly the current version in the sense of the reference definition. */
  lemma CurrentIff(o: Objects, bucket: Bytes, key: Bytes, m: Manifest)
    requires WellFormed(o) && NulFree(bucket) && NulFree(key)
    ensures Current(o, bucket, key) == Some(m) <==> IsCurrent(o, bucket, key, m)
  {
    var ms := CommittedOnly(VersionRows(o, bucket, key));
    CommittedVersions(o, bucket, key);
    if ms != [] {
      NewestWins(ms);
      var i :| Wins(ms, i) && Newest(ms) == Some(ms[i]);
      WinnerIsCurrent(o, bucket, key, ms, i);
      if IsCurrent(o, bucket, key, m) {
        assert m in ms && ms[i] in ms;
        EncodeIsOrderEmbedding(m.key, ms[i].key);
        LessTotal(m.key.versionId, ms[i].key.versionId);
      }
    }
  }

  lemma WinnerIsCurrent(o: Objects, bucket: Bytes, key: Bytes, ms: seq<Manifest>, i: int)
    requires WellFormed(o) && RowOrder(ms) && Wins(ms, i)
    requires forall m :: m in ms <==> Has(o, m) && m.key.bucket == bucket && m.key.key == key && m.state == Committed
    ensures IsCurrent(o, bucket, key, ms[i])
  {
    assert ms[i] in ms;
    LessIrreflexive(bucket);
    LessIrreflexive(key);
    forall n | n in ms
      ensures n.lastModified < ms[i].lastModified
           || (n.lastModified == ms[i].lastModified && Leq(ms[i].key.versionId, n.key.versionId))
    {
      var j :| 0 <= j < |ms| && ms[j] == n;
      if j > i {
        EncodeIsOrderEmbedding(ms[i].key, n.key);
        LessTotal(ms[i].key.versionId, n.key.versionId);
      } else if j == i {
        LessIrreflexive(n.key.versionId);
      }
    }
  }

  lemma NothingCurrentIff(o: Objects, bucket: Bytes, key: Bytes)
    requires WellFormed(o) && NulFree(bucket) && NulFree(key)
    ensures Current(o, bucket, key).None?
       <==> !exists m :: Has(o, m) && m.key.bucket == bucket && m.key.key == key && m.state == Committed
  {
    CommittedVersions(o, bucket, key);
    var ms := CommittedOnly(VersionRows(o, bucket, key));
    if ms != [] {
      NewestWins(ms);
      assert ms[0] in ms;
    }
  }

  // ---- the other three computations ----

  /** Winner per user key, as the object listing keeps it. */
  function LatestByKey(ms: seq<Manifest>): map<Bytes, Manifest> {
    if ms == [] then map[]
    else
      var best := LatestByKey(ms[..|ms| - 1]);
      var m := ms[|ms| - 1];
      if m.key.key in best && !(m.lastModified > best[m.key.key].lastModified) then best else best[m.key.key := m]
  }

  /** All rows per user key, as the version listing and the lifecycle sweep keep them. */
  function GroupByKey(ms: seq<Manifest>): map<Bytes, seq<Manifest>> {
    if ms == [] then map[]
    else
      var groups := GroupByKey(ms[..|ms| - 1]);
      var m := ms[|ms| - 1];
      groups[m.key.key := (if m.key.key in groups then groups[m.key.key] else []) + [m]]
  }

  lemma {:induction false} LatestByKeySpec(ms: seq<Manifest>, key: Bytes)
    ensures key in LatestByKey(ms) <==> OfKey(ms, key) != []
    ensures key in LatestByKey(ms) ==> Newest(OfKey(ms, key)) == Some(LatestByKey(ms)[key])
  {
    if ms != [] {
      var front, m := ms[..|ms| - 1], ms[|ms| - 1];
      LatestByKeySpec(front, key);
      assert ms == front + [m];
      OfKeySnoc(front, m, key);
      if m.key.key == key {
        var all := OfKey(front, key) + [m];
        assert OfKey(ms, key) == all && all[..|all| - 1] == OfKey(front, key);
      } else {
        assert OfKey(ms, key) == OfKey(front, key);
      }
    }
  }

  lemma OfKeySnoc(ms: seq<Manifest>, m: Manifest, key: Bytes)
    ensures OfKey(ms + [m], key) == OfKey(ms, key) + if m.key.key == key then [m] else []
  {
    FilterSnoc(ms, m, (x: Manifest) => x.key.key == key);
  }

  lemma {:induction false} GroupByKeySpec(ms: seq<Manifest>, key: Bytes)
    ensures key in GroupByKey(ms) <==> OfKey(ms, key) != []
    ensures key in GroupByKey(ms) ==> GroupByKey(ms)[key] == OfKey(ms, key)
  {
    if ms != [] {
      var front, m := ms[..|ms| - 1], ms[|ms| - 1];
      GroupByKeySpec(front, key);
      assert ms == front + [m];
      OfKeySnoc(front, m, key);
    }
  }

  /** The id that the lifecycle sweep takes for current: the first committed entry of the sorted list. */
  function FirstCommitted(ms: seq<Manifest>): Option<Manifest> {
    if ms == [] then None
    else if ms[0].state == Committed then Some(ms[0])
    else FirstCommitted(ms[1..])
  }

  lemma {:induction false} FirstCommittedIsHead(ms: seq<Manifest>)
    ensures FirstCommitted(ms) == if CommittedOnly(ms) == [] then None else Some(CommittedOnly(ms)[0])
  {
    if ms != [] {
      FirstCommittedIsHead(ms[1..]);
    }
  }

  /** A scan sees every version of `key` if it covers exactly that key's rows among its own. */
  ghost predicate SeesWholeKey(o: Objects, ms: seq<Manifest>, bucket: Bytes, key: Bytes) {
    && RowOrder(ms)
    && (forall m :: m in ms && m.key.key == key ==> Has(o, m) && m.key.bucket == bucket)
    && (forall m :: Has(o, m) && m.key.bucket == bucket && m.key.key == key && m.state == Committed ==> m in ms)
  }

  lemma OfKeyMembers(ms: seq<Manifest>, key: Bytes)
    ensures forall m :: m in OfKey(ms, key) <==> m in ms && m.key.key == key
    ensures RowOrder(ms) ==> RowOrder(OfKey(ms, key))
  {
    FilterMembers(ms, (m: Manifest) => m.key.key == key);
  }

  lemma CommittedOfKey(o: Objects, ms: seq<Manifest>, bucket: Bytes, key: Bytes)
    requires WellFormed(o) && NulFree(bucket) && NulFree(key) && SeesWholeKey(o, ms, bucket, key)
    ensures CommittedOnly(OfKey(ms, key)) == CommittedOnly(VersionRows(o, bucket, key))
  {
    OfKeyMembers(ms, key);
    FilterMembers(OfKey(ms, key), IsCommitted);
    CommittedVersions(o, bucket, key);
    RowOrderUnique(CommittedOnly(OfKey(ms, key)), CommittedOnly(VersionRows(o, bucket, key)));
  }

  /** All four computations pick the same manifest for a key, equal times included: the lookup, the
      per-key winner of a committed scan, index 0 of the sorted committed group, and the first
      committed entry of the sorted group that still holds uploads and aborted rows. */
  lemma CurrentVersionsAgree(o: Objects, committed: seq<Manifest>, all: seq<Manifest>, bucket: Bytes, key: Bytes)
    requires WellFormed(o) && NulFree(bucket) && NulFree(key)
    requires SeesWholeKey(o, committed, bucket, key) && SeesWholeKey(o, all, bucket, key)
    requires forall m :: m in committed ==> m.state == Committed
    ensures var c := Current(o, bucket, key);
      && (if key in LatestByKey(committed) then c == Some(LatestByKey(committed)[key]) else c == None)
      && (if key in GroupByKey(committed)
          then var sorted := NewestFirst(GroupByKey(committed)[key]); sorted != [] && c == Some(sorted[0])
          else c == None)
      && (if key in GroupByKey(all) then c == FirstCommitted(NewestFirst(GroupByKey(all)[key])) else c == None)
  {
    var rows := CommittedOnly(VersionRows(o, bucket, key));
    OfKeyMembers(committed, key);
    CommittedOfKey(o, committed, bucket, key);
    FilterAll(OfKey(committed, key), IsCommitted);
    LatestByKeySpec(committed, key);
    GroupByKeySpec(committed, key);
    if rows != [] {
      SortedHeadIsNewest(rows);
    }
    SweepFindsCurrent(o, all, bucket, key);
  }

  lemma SweepFindsCurrent(o: Objects, all: seq<Manifest>, bucket: Bytes, key: Bytes)
    requires WellFormed(o) && NulFree(bucket) && NulFree(key) && SeesWholeKey(o, all, bucket, key)
    ensures key in GroupByKey(all) ==> FirstCommitted(NewestFirst(GroupByKey(all)[key])) == Current(o, bucket, key)
    ensures key !in GroupByKey(all) ==> Current(o, bucket, key) == None
  {
    var rows := CommittedOnly(VersionRows(o, bucket, key));
    var group := OfKey(all, key);
    CommittedOfKey(o, all, bucket, key);
    GroupByKeySpec(all, key);
    FirstCommittedIsHead(NewestFirst(group));
    SortThenFilter(group, IsCommitted);
    if rows != [] {
      SortedHeadIsNewest(rows);
    }
  }
}
