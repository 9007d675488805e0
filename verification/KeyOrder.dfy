/** The composite key encoding is an order embedding, and the scan bounds built from it
    select exactly the intended rows (src/storage/manifest.rs, src/storage/db/actor.rs). */
module KeyOrder {
  import opened ByteStrings
  import opened Manifests

  /** Lexicographic order on (bucket, key, version). */
  predicate KeyLess(a: ManifestKey, b: ManifestKey) {
    Less(a.bucket, b.bucket)
    || (a.bucket == b.bucket
        && (Less(a.key, b.key) || (a.key == b.key && Less(a.versionId, b.versionId))))
  }

  // ---- one NUL separator ----

  lemma {:induction false} SeparatorOrder(a: Bytes, b: Bytes, x: Bytes, y: Bytes)
    requires NulFree(a) && NulFree(b)
    ensures Less(a + [0] + x, b + [0] + y) <==> Less(a, b) || (a == b && Less(x, y))
  {
    var l, r := a + [0] + x, b + [0] + y;
    if a == [] && b == [] {
      assert l[1..] == x && r[1..] == y;
    } else if a != [] && b != [] {
      assert l[1..] == a[1..] + [0] + x && r[1..] == b[1..] + [0] + y;
      SeparatorOrder(a[1..], b[1..], x, y);
      assert a == [a[0]] + a[1..] && b == [b[0]] + b[1..];
    }
  }

  lemma {:induction false} SeparatorInjective(a: Bytes, b: Bytes, x: Bytes, y: Bytes)
    requires NulFree(a) && NulFree(b)
    ensures a + [0] + x == b + [0] + y <==> a == b && x == y
  {
    SeparatorOrder(a, b, x, y);
    SeparatorOrder(b, a, y, x);
    LessTotal(a, b);
    LessTotal(x, y);
    LessIrreflexive(a + [0] + x);
  }

  /** `b` followed by 1 is the first string above every `b NUL ...`. */
  lemma {:induction false} SeparatorUpperBound(a: Bytes, x: Bytes, b: Bytes)
    requires NulFree(a) && NulFree(b)
    ensures Less(a + [0] + x, b + [1]) <==> Less(a, b) || a == b
  {
    var l, r := a + [0] + x, b + [1];
    if a == [] {
      if b == [] {
        assert l[0] == 0 && r[0] == 1;
      }
    } else if b == [] {
      assert r[1..] == [];
    } else {
      assert l[1..] == a[1..] + [0] + x && r[1..] == b[1..] + [1];
      SeparatorUpperBound(a[1..], x, b[1..]);
      assert a == [a[0]] + a[1..] && b == [b[0]] + b[1..];
    }
  }

  /** Against a bound without NUL, only the part of a row before its separator counts. */
  lemma {:induction false} SeparatorPointBound(a: Bytes, x: Bytes, p: Bytes)
    requires NulFree(a) && NulFree(p)
    ensures Less(a + [0] + x, p) <==> Less(a, p)
  {
    if a != [] && p != [] {
      assert (a + [0] + x)[1..] == a[1..] + [0] + x;
      SeparatorPointBound(a[1..], x, p[1..]);
    }
  }

  // ---- composite keys ----

  lemma Nested(k: ManifestKey)
    ensures Encode(k) == k.bucket + [0] + (k.key + [0] + k.versionId)
  {
    assert Encode(k) == k.bucket + [0] + (k.key + [0] + k.versionId);
  }

  lemma EncodeIsOrderEmbedding(a: ManifestKey, b: ManifestKey)
    requires ProperKey(a) && ProperKey(b)
    ensures Less(Encode(a), Encode(b)) <==> KeyLess(a, b)
  {
    Nested(a);
    Nested(b);
    SeparatorOrder(a.bucket, b.bucket, a.key + [0] + a.versionId, b.key + [0] + b.versionId);
    SeparatorOrder(a.key, b.key, a.versionId, b.versionId);
  }

  lemma EncodeIsInjective(a: ManifestKey, b: ManifestKey)
    requires ProperKey(a) && ProperKey(b)
    ensures Encode(a) == Encode(b) <==> a == b
  {
    Nested(a);
    Nested(b);
    SeparatorInjective(a.bucket, b.bucket, a.key + [0] + a.versionId, b.key + [0] + b.versionId);
    SeparatorInjective(a.key, b.key, a.versionId, b.versionId);
  }

  lemma EncodeTellsVersionsApart(a: ManifestKey, b: ManifestKey)
    requires a.bucket == b.bucket && a.key == b.key && a.versionId != b.versionId
    ensures Encode(a) != Encode(b)
  {
    var p := a.bucket + [0] + a.key + [0];
    assert Encode(a) == p + a.versionId && Encode(b) == p + b.versionId;
    assert Encode(a)[|p|..] == a.versionId && Encode(b)[|p|..] == b.versionId;
  }

  /** Without the restriction to NUL-free keys two different objects share one row. */
  lemma NulInKeyCollides()
    ensures exists a, b :: a != b && Encode(a) == Encode(b)
  {
    var a := ManifestKey([98], [107, 0, 120], NULL_VERSION);
    var b := ManifestKey([98], [107], [120, 0] + NULL_VERSION);
    assert Encode(a) == Encode(b);
  }

  // ---- scan bounds ----

  function BucketStart(bucket: Bytes): Bytes {
    bucket + [0]
  }

  function BucketEnd(bucket: Bytes): Bytes {
    bucket + [1]
  }

  function KeyStart(bucket: Bytes, key: Bytes): Bytes {
    bucket + [0] + key + [0]
  }

  function KeyEnd(bucket: Bytes, key: Bytes): Bytes {
    bucket + [0] + key + [1]
  }

  /** Start of a first page. */
  function PrefixStart(bucket: Bytes, prefix: Bytes): Bytes {
    bucket + [0] + prefix
  }

  /** Start of the page after `key`; the same string as `KeyEnd`. */
  function AfterKeyStart(bucket: Bytes, key: Bytes): Bytes {
    KeyEnd(bucket, key)
  }

  predicate HasSuccessor(prefix: Bytes) {
    exists i :: 0 <= i < |prefix| && prefix[i] < 255
  }

  /** The prefix with its last byte below 255 raised by one and everything behind it dropped. */
  function Bump(prefix: Bytes): Bytes
    requires HasSuccessor(prefix)
  {
    var n := |prefix| - 1;
    if prefix[n] < 255 then prefix[..n] + [prefix[n] + 1] else Bump(prefix[..n])
  }

  /** Start of the page after everything that begins with `prefix`. */
  function AfterPrefixStart(bucket: Bytes, prefix: Bytes): Bytes {
    if prefix == [] then bucket + [0, 1]
    else if HasSuccessor(prefix) then bucket + [0] + Bump(prefix)
    else bucket + [0] + prefix + [1]
  }

  /** The bound is found by walking the prefix backwards. */
  method ComputeAfterPrefix(bucket: Bytes, prefix: Bytes) returns (v: Bytes)
    ensures v == AfterPrefixStart(bucket, prefix)
  {
    v := bucket + [0];
    if prefix == [] {
      v := v + [1];
      assert v == bucket + [0, 1];
      return;
    }
    assert prefix[..|prefix|] == prefix;
    for i := |prefix| downto 0
      invariant forall j :: i <= j < |prefix| ==> prefix[j] == 255
      invariant HasSuccessor(prefix) ==> HasSuccessor(prefix[..i]) && Bump(prefix[..i]) == Bump(prefix)
      invariant v == bucket + [0]
    {
      assert prefix[..i + 1][..i] == prefix[..i];
      if prefix[i] < 255 {
        assert HasSuccessor(prefix);
        v := v + prefix[..i] + [prefix[i] + 1];
        assert v == bucket + [0] + Bump(prefix);
        return;
      }
      if HasSuccessor(prefix) {
        assert prefix[..i + 1][i] == 255;
        var j :| 0 <= j < |prefix[..i + 1]| && prefix[..i + 1][j] < 255;
        assert prefix[..i][j] < 255;
      }
    }
    v := v + prefix + [1];
  }

  /** The rows between the two bucket bounds are the bucket's rows. */
  lemma BucketRange(bucket: Bytes, k: ManifestKey)
    requires NulFree(bucket) && ProperKey(k)
    ensures Leq(BucketStart(bucket), Encode(k)) && Less(Encode(k), BucketEnd(bucket)) <==> k.bucket == bucket
  {
    Nested(k);
    var tail := k.key + [0] + k.versionId;
    assert bucket + [0] == bucket + [0] + [];
    SeparatorOrder(k.bucket, bucket, tail, []);
    SeparatorUpperBound(k.bucket, tail, bucket);
    LessTotal(k.bucket, bucket);
  }

  /** The rows between the two key bounds are the versions of that key. */
  lemma KeyRange(bucket: Bytes, key: Bytes, k: ManifestKey)
    requires NulFree(bucket) && NulFree(key) && ProperKey(k)
    ensures Leq(KeyStart(bucket, key), Encode(k)) && Less(Encode(k), KeyEnd(bucket, key))
       <==> k.bucket == bucket && k.key == key
  {
    Nested(k);
    assert KeyStart(bucket, key) == bucket + [0] + (key + [0] + []);
    assert KeyEnd(bucket, key) == bucket + [0] + (key + [1]);
    SeparatorOrder(k.bucket, bucket, k.key + [0] + k.versionId, key + [0] + []);
    SeparatorOrder(k.bucket, bucket, k.key + [0] + k.versionId, key + [1]);
    SeparatorOrder(k.key, key, k.versionId, []);
    SeparatorUpperBound(k.key, k.versionId, key);
    LessTotal(k.bucket, bucket);
    LessTotal(k.key, key);
  }

  /** Which of the bucket's rows lie at or above a bound `bucket NUL p`. */
  lemma RowsFrom(bucket: Bytes, p: Bytes, k: ManifestKey)
    requires k.bucket == bucket
    ensures Leq(bucket + [0] + p, Encode(k)) <==> Leq(p, k.key + [0] + k.versionId)
  {
    Nested(k);
    LessUnderPrefix(bucket + [0], k.key + [0] + k.versionId, p);
  }

  /** A first page starts at the first key not below the prefix. */
  lemma PrefixStartSelects(bucket: Bytes, prefix: Bytes, k: ManifestKey)
    requires NulFree(prefix) && ProperKey(k) && k.bucket == bucket
    ensures Leq(PrefixStart(bucket, prefix), Encode(k)) <==> Leq(prefix, k.key)
  {
    RowsFrom(bucket, prefix, k);
    SeparatorPointBound(k.key, k.versionId, prefix);
  }

  /** A page after a key starts with the first greater key, whatever the versions are. */
  lemma AfterKeyStartSelects(bucket: Bytes, key: Bytes, k: ManifestKey)
    requires NulFree(key) && ProperKey(k) && k.bucket == bucket
    ensures Leq(AfterKeyStart(bucket, key), Encode(k)) <==> Less(key, k.key)
  {
    assert AfterKeyStart(bucket, key) == bucket + [0] + (key + [1]);
    RowsFrom(bucket, key + [1], k);
    SeparatorUpperBound(k.key, k.versionId, key);
    LessTotal(key, k.key);
  }

  lemma {:induction false} BumpSeparates(p: Bytes, key: Bytes)
    requires HasSuccessor(p)
    ensures Less(key, Bump(p)) <==> Less(key, p) || p <= key
    ensures NulFree(p) ==> NulFree(Bump(p))
  {
    var n := |p| - 1;
    var front := p[..n];
    assert p == front + [p[n]];
    if p[n] < 255 {
      LastByteBump(front, p[n], key);
    } else {
      assert HasSuccessor(front) by {
        var i :| 0 <= i < |p| && p[i] < 255;
        assert front[i] < 255;
      }
      BumpSeparates(front, key);
      LastByteFull(front, key);
    }
  }

  lemma {:induction false} LastByteBump(front: Bytes, c: byte, key: Bytes)
    requires c < 255
    ensures Less(key, front + [c + 1]) <==> Less(key, front + [c]) || front + [c] <= key
  {
    var lo, hi := front + [c], front + [c + 1];
    if key != [] {
      if front == [] {
        assert lo[1..] == [] && hi[1..] == [];
        assert lo <= key <==> key[0] == c;
      } else {
        assert lo[1..] == front[1..] + [c] && hi[1..] == front[1..] + [c + 1];
        LastByteBump(front[1..], c, key[1..]);
        assert lo <= key <==> lo[0] == key[0] && lo[1..] <= key[1..];
      }
    }
  }

  lemma {:induction false} LastByteFull(front: Bytes, key: Bytes)
    ensures Less(key, front) || front <= key <==> Less(key, front + [255]) || front + [255] <= key
  {
    var full := front + [255];
    if key != [] {
      if front == [] {
        assert full[1..] == [];
        assert full <= key <==> key[0] == 255;
      } else {
        assert full[1..] == front[1..] + [255];
        LastByteFull(front[1..], key[1..]);
        assert full <= key <==> full[0] == key[0] && full[1..] <= key[1..];
        assert front <= key <==> front[0] == key[0] && front[1..] <= key[1..];
      }
    }
  }

  /** The keys behind a common prefix: greater than it and not covered by it. */
  predicate BeyondPrefix(prefix: Bytes, key: Bytes) {
    Less(prefix, key) && !(prefix <= key)
  }

  lemma AfterPrefixStartSelects(bucket: Bytes, prefix: Bytes, k: ManifestKey)
    requires NulFree(prefix) && HasSuccessor(prefix) && ProperKey(k) && k.bucket == bucket
    ensures Leq(AfterPrefixStart(bucket, prefix), Encode(k)) <==> BeyondPrefix(prefix, k.key)
  {
    RowsFrom(bucket, Bump(prefix), k);
    BumpSeparates(prefix, k.key);
    SeparatorPointBound(k.key, k.versionId, Bump(prefix));
    LessTotal(prefix, k.key);
  }

  /** The bound jumps past a prefix in every table exactly when the prefix has a byte below 255;
      for UTF-8 text that is every non-empty prefix. */
  lemma AfterPrefixStartExact(bucket: Bytes, prefix: Bytes)
    requires NulFree(bucket) && NulFree(prefix)
    ensures (forall k :: ProperKey(k) && k.bucket == bucket ==>
              (Leq(AfterPrefixStart(bucket, prefix), Encode(k)) <==> BeyondPrefix(prefix, k.key)))
       <==> HasSuccessor(prefix)
  {
    if HasSuccessor(prefix) {
      forall k | ProperKey(k) && k.bucket == bucket
        ensures Leq(AfterPrefixStart(bucket, prefix), Encode(k)) <==> BeyondPrefix(prefix, k.key)
      {
        AfterPrefixStartSelects(bucket, prefix, k);
      }
    } else {
      var k := ManifestKey(bucket, prefix + [2], []);
      assert prefix <= k.key && !BeyondPrefix(prefix, k.key);
      assert AfterPrefixStart(bucket, prefix) == bucket + [0] + (prefix + [1]);
      RowsFrom(bucket, prefix + [1], k);
      assert k.key + [0] + k.versionId == prefix + [2, 0];
      LessUnderPrefix(prefix, [2, 0], [1]);
    }
  }
}
