/** The delimiter roll-up is sound and complete, and following the cursors of the pages yields the
    unlimited listing without loss or duplicates. */
module Pagination {
  import opened Results
  import opened ByteStrings
  import opened Manifests
  import opened KeyOrder
  import opened Scans
  import opened Listing

  // ---- first occurrences ----

  predicate OccursAt(hay: Bytes, needle: Bytes, i: int) {
    0 <= i && i + |needle| <= |hay| && hay[i..i + |needle|] == needle
  }

  lemma OccursAtStart(hay: Bytes, needle: Bytes)
    ensures OccursAt(hay, needle, 0) <==> needle <= hay
  {
    assert |needle| <= |hay| ==> hay[0..|needle|] == hay[..|needle|];
  }

  lemma SliceBehindHead(s: Bytes, i: int, n: nat)
    requires 0 < i && i + n <= |s|
    ensures s[1..][i - 1..i - 1 + n] == s[i..i + n]
  {
  }

  lemma OccursBehindHead(hay: Bytes, needle: Bytes, i: int)
    requires hay != [] && 0 < i
    ensures OccursAt(hay, needle, i) <==> OccursAt(hay[1..], needle, i - 1)
  {
    if i + |needle| <= |hay| {
      SliceBehindHead(hay, i, |needle|);
    }
  }

  /** `Find` returns the least position of the needle, or nothing if it does not occur. */
  lemma {:induction false} FindIsFirst(hay: Bytes, needle: Bytes)
    ensures var r := Find(hay, needle);
      && (r.None? ==> forall i :: !OccursAt(hay, needle, i))
      && (r.Some? ==> OccursAt(hay, needle, r.value) && forall i :: 0 <= i < r.value ==> !OccursAt(hay, needle, i))
    decreases |hay|
  {
    if !(needle <= hay) {
      OccursAtStart(hay, needle);
      if hay != [] {
        FindIsFirst(hay[1..], needle);
        forall i | 0 < i
          ensures OccursAt(hay, needle, i) <==> OccursAt(hay[1..], needle, i - 1)
        {
          OccursBehindHead(hay, needle, i);
        }
      }
    }
  }

  /** An occurrence that ends within a common prefix of two strings occurs in both. */
  lemma OccursInShared(a: Bytes, b: Bytes, needle: Bytes, i: int, n: int)
    requires 0 <= n <= |a| && n <= |b| && a[..n] == b[..n] && i + |needle| <= n
    ensures OccursAt(a, needle, i) <==> OccursAt(b, needle, i)
  {
    if 0 <= i {
      assert a[i..i + |needle|] == a[..n][i..i + |needle|];
      assert b[i..i + |needle|] == b[..n][i..i + |needle|];
    }
  }

  /** A key covered by another key's common prefix is represented by that same common prefix. */
  lemma CoveredSameItem(m: Manifest, n: Manifest, prefix: Bytes, delimiter: Option<Bytes>)
    requires prefix <= m.key.key && prefix <= n.key.key
    requires ItemFor(m, prefix, delimiter).CommonPrefix? && ItemFor(m, prefix, delimiter).prefix <= n.key.key
    ensures ItemFor(n, prefix, delimiter) == ItemFor(m, prefix, delimiter)
  {
    var d := delimiter.value;
    var a, b := m.key.key[|prefix|..], n.key.key[|prefix|..];
    var pos := Find(a, d).value;
    var end := pos + |d|;
    var p := ItemFor(m, prefix, delimiter).prefix;
    assert p == m.key.key[..|prefix| + end] && p == n.key.key[..|prefix| + end];
    assert a[..end] == p[|prefix|..] && b[..end] == p[|prefix|..];
    FindIsFirst(a, d);
    FindIsFirst(b, d);
    OccursInShared(a, b, d, pos, end);
    var other := Find(b, d).value;
    assert other <= pos;
    OccursInShared(a, b, d, other, end);
  }

  // ---- the text under which an item is listed ----

  function TextOf(item: ListItem): Bytes {
    match item
    case ObjectItem(m) => m.key.key
    case CommonPrefix(p) => p
  }

  lemma ItemTextBelowKey(m: Manifest, prefix: Bytes, delimiter: Option<Bytes>)
    requires prefix <= m.key.key
    ensures var t := TextOf(ItemFor(m, prefix, delimiter)); t <= m.key.key && Leq(t, m.key.key) && prefix <= t
    ensures !Past(ItemFor(m, prefix, delimiter), m.key.key)
  {
    PrefixLeq(TextOf(ItemFor(m, prefix, delimiter)), m.key.key);
    LessIrreflexive(m.key.key);
  }

  /** The item of a key behind another item has a greater text. */
  lemma ItemsGrow(m: Manifest, n: Manifest, prefix: Bytes, delimiter: Option<Bytes>)
    requires prefix <= m.key.key && prefix <= n.key.key
    requires Past(ItemFor(m, prefix, delimiter), n.key.key)
    ensures Less(TextOf(ItemFor(m, prefix, delimiter)), TextOf(ItemFor(n, prefix, delimiter)))
  {
    var g, h := ItemFor(m, prefix, delimiter), ItemFor(n, prefix, delimiter);
    var t, u := TextOf(g), TextOf(h);
    ItemTextBelowKey(m, prefix, delimiter);
    ItemTextBelowKey(n, prefix, delimiter);
    LessTotal(t, u);
    if h.CommonPrefix? && Leq(u, t) {
      LessTotal(t, n.key.key);
      PrefixBlock(u, t, n.key.key);
      assert u <= m.key.key;
      CoveredSameItem(n, m, prefix, delimiter);
      assert false;
    }
  }

  /** Being behind a later item implies being behind the earlier one. */
  lemma PastGrows(m: Manifest, n: Manifest, prefix: Bytes, delimiter: Option<Bytes>, key: Bytes)
    requires prefix <= m.key.key && prefix <= n.key.key
    requires Past(ItemFor(m, prefix, delimiter), n.key.key)
    requires Past(ItemFor(n, prefix, delimiter), key)
    ensures Past(ItemFor(m, prefix, delimiter), key)
  {
    var g, h := ItemFor(m, prefix, delimiter), ItemFor(n, prefix, delimiter);
    var t, u := TextOf(g), TextOf(h);
    ItemsGrow(m, n, prefix, delimiter);
    ItemTextBelowKey(n, prefix, delimiter);
    LessTransitive(t, u, key);
    if g.CommonPrefix? && t <= key {
      LessTotal(t, u);
      LessTotal(u, key);
      PrefixBlock(t, u, key);
      assert false;
    }
  }

  // ---- soundness and completeness of the roll-up ----

  lemma {:induction false} RollUpSound(ms: seq<Manifest>, prefix: Bytes, delimiter: Option<Bytes>)
    requires AllUnder(ms, prefix)
    ensures forall item :: item in RollUp(ms, prefix, delimiter) ==>
              exists m :: m in ms && item == ItemFor(m, prefix, delimiter)
    decreases |ms|
  {
    if ms != [] {
      assert ms[0] in ms;
      var g := ItemFor(ms[0], prefix, delimiter);
      BehindMembers(ms[1..], g);
      RollUpSound(Behind(ms[1..], g), prefix, delimiter);
    }
  }

  /** Every key is represented: it is listed itself or covered by its common prefix. */
  lemma {:induction false} RollUpComplete(ms: seq<Manifest>, prefix: Bytes, delimiter: Option<Bytes>, m: Manifest)
    requires AllUnder(ms, prefix) && UserKeyOrder(ms) && m in ms
    ensures ItemFor(m, prefix, delimiter) in RollUp(ms, prefix, delimiter)
    decreases |ms|
  {
    assert ms[0] in ms;
    var g := ItemFor(ms[0], prefix, delimiter);
    BehindMembers(ms[1..], g);
    if m != ms[0] {
      var i :| 0 <= i < |ms| && ms[i] == m;
      assert ms[1..][i - 1] == m;
      if Past(g, m.key.key) {
        FilterKeepsUserKeyOrder(ms[1..], (x: Manifest) => Past(g, x.key.key));
        RollUpComplete(Behind(ms[1..], g), prefix, delimiter, m);
      } else {
        ItemTextBelowKey(ms[0], prefix, delimiter);
        LeqLessTransitive(TextOf(g), ms[0].key.key, m.key.key);
        CoveredSameItem(ms[0], m, prefix, delimiter);
      }
    }
  }

  /** Items come in strictly increasing order of their text, so none occurs twice. */
  lemma {:induction false} RollUpAscending(ms: seq<Manifest>, prefix: Bytes, delimiter: Option<Bytes>)
    requires AllUnder(ms, prefix)
    ensures forall i, j :: 0 <= i < j < |RollUp(ms, prefix, delimiter)| ==>
              Less(TextOf(RollUp(ms, prefix, delimiter)[i]), TextOf(RollUp(ms, prefix, delimiter)[j]))
    decreases |ms|
  {
    if ms != [] {
      assert ms[0] in ms;
      var g := ItemFor(ms[0], prefix, delimiter);
      var rest := Behind(ms[1..], g);
      BehindMembers(ms[1..], g);
      RollUpAscending(rest, prefix, delimiter);
      RollUpSound(rest, prefix, delimiter);
      forall item | item in RollUp(rest, prefix, delimiter)
        ensures Less(TextOf(g), TextOf(item))
      {
        var n :| n in rest && item == ItemFor(n, prefix, delimiter);
        ItemsGrow(ms[0], n, prefix, delimiter);
      }
    }
  }

  lemma RollUpHead(ms: seq<Manifest>, prefix: Bytes, delimiter: Option<Bytes>)
    requires AllUnder(ms, prefix) && ms != []
    ensures prefix <= ms[0].key.key
    ensures var g := ItemFor(ms[0], prefix, delimiter);
      && Behind(ms, g) == Behind(ms[1..], g)
      && AllUnder(Behind(ms[1..], g), prefix)
      && RollUp(ms, prefix, delimiter) == [g] + RollUp(Behind(ms[1..], g), prefix, delimiter)
  {
    assert ms[0] in ms;
    var g := ItemFor(ms[0], prefix, delimiter);
    BehindMembers(ms[1..], g);
    ItemTextBelowKey(ms[0], prefix, delimiter);
  }

  /** Dropping what is not behind an earlier item first makes no difference. */
  lemma BehindTwice(ms: seq<Manifest>, m: Manifest, n: Manifest, prefix: Bytes, delimiter: Option<Bytes>)
    requires UserKeyOrder(ms) && ms != [] && m == ms[0]
    requires prefix <= m.key.key && prefix <= n.key.key && Past(ItemFor(m, prefix, delimiter), n.key.key)
    ensures var g, h := ItemFor(m, prefix, delimiter), ItemFor(n, prefix, delimiter);
      Behind(Behind(ms[1..], g), h) == Behind(ms, h)
  {
    var g, h := ItemFor(m, prefix, delimiter), ItemFor(n, prefix, delimiter);
    ItemTextBelowKey(m, prefix, delimiter);
    if Past(h, m.key.key) {
      PastGrows(m, n, prefix, delimiter, m.key.key);
      assert false;
    }
    forall x: Manifest | Past(h, x.key.key)
      ensures Past(g, x.key.key)
    {
      PastGrows(m, n, prefix, delimiter, x.key.key);
    }
    FilterTwice(ms[1..], (x: Manifest) => Past(g, x.key.key), (x: Manifest) => Past(h, x.key.key));
  }

  lemma BehindLaterItem(ms: seq<Manifest>, prefix: Bytes, delimiter: Option<Bytes>, item: ListItem)
    requires AllUnder(ms, prefix) && UserKeyOrder(ms) && ms != [] && prefix <= ms[0].key.key
    requires var rest := Behind(ms[1..], ItemFor(ms[0], prefix, delimiter));
      AllUnder(rest, prefix) && item in RollUp(rest, prefix, delimiter)
    ensures Behind(Behind(ms[1..], ItemFor(ms[0], prefix, delimiter)), item) == Behind(ms, item)
  {
    var rest := Behind(ms[1..], ItemFor(ms[0], prefix, delimiter));
    RollUpSound(rest, prefix, delimiter);
    var n :| n in rest && item == ItemFor(n, prefix, delimiter);
    BehindMembers(ms[1..], ItemFor(ms[0], prefix, delimiter));
    BehindTwice(ms, ms[0], n, prefix, delimiter);
  }

  /** What follows an item of the listing is the listing of the keys behind that item. */
  lemma {:induction false} RollUpResumes(ms: seq<Manifest>, prefix: Bytes, delimiter: Option<Bytes>, j: int)
    requires AllUnder(ms, prefix) && UserKeyOrder(ms) && 0 <= j < |RollUp(ms, prefix, delimiter)|
    ensures var item := RollUp(ms, prefix, delimiter)[j];
      AllUnder(Behind(ms, item), prefix)
      && RollUp(ms, prefix, delimiter)[j + 1..] == RollUp(Behind(ms, item), prefix, delimiter)
    decreases |ms|
  {
    RollUpHead(ms, prefix, delimiter);
    var g := ItemFor(ms[0], prefix, delimiter);
    var rest := Behind(ms[1..], g);
    var tail := RollUp(rest, prefix, delimiter);
    if j == 0 {
      assert ([g] + tail)[1..] == tail;
    } else {
      var item := tail[j - 1];
      assert ([g] + tail)[j] == item && ([g] + tail)[j + 1..] == tail[j..];
      BehindLaterItem(ms, prefix, delimiter, item);
      assert UserKeyOrder(rest) by {
        FilterKeepsUserKeyOrder(ms[1..], (x: Manifest) => Past(g, x.key.key));
      }
      RollUpResumes(rest, prefix, delimiter, j - 1);
    }
  }

  lemma {:induction false} FilterTwice(ms: seq<Manifest>, p: Manifest -> bool, q: Manifest -> bool)
    requires forall m :: q(m) ==> p(m)
    ensures Filter(Filter(ms, p), q) == Filter(ms, q)
  {
    if ms != [] {
      FilterTwice(ms[1..], p, q);
      if p(ms[0]) {
        assert ([ms[0]] + Filter(ms[1..], p))[1..] == Filter(ms[1..], p);
      }
    }
  }

  // ---- what a page draws from ----

  /** The scan runs over exactly the bucket's rows in the requested scope. */
  lemma ScanSelects(req: ListRequest, k: ManifestKey)
    requires ProperRequest(req) && ProperKey(k)
    requires req.cursor.Some? && req.cursor.value.AfterKey? ==> NulFree(req.cursor.value.key)
    requires req.cursor.Some? && req.cursor.value.AfterPrefix? ==>
               NulFree(req.cursor.value.prefix) && HasSuccessor(req.cursor.value.prefix)
    ensures InRange(ScanStart(req), BucketEnd(req.bucket), Encode(k)) <==> k.bucket == req.bucket && InScope(req, k.key)
  {
    BucketRange(req.bucket, k);
    if k.bucket == req.bucket {
      match req.cursor
      case None => PrefixStartSelects(req.bucket, req.prefix, k);
      case Some(AfterKey(c)) => AfterKeyStartSelects(req.bucket, c, k);
      case Some(AfterPrefix(p)) => AfterPrefixStartSelects(req.bucket, p, k);
    } else if Leq(ScanStart(req), Encode(k)) {
      PrefixLeq(BucketStart(req.bucket), ScanStart(req));
      LessTotal(ScanStart(req), Encode(k));
      if Less(Encode(k), BucketStart(req.bucket)) {
        LessLeqTransitive(Encode(k), BucketStart(req.bucket), ScanStart(req));
        assert false;
      }
    }
  }

  /** Nothing is lost by stopping at the first committed row outside the prefix, if the scan starts
      at or behind the prefix. */
  lemma {:induction false} TakeMatchingComplete(ms: seq<Manifest>, prefix: Bytes, m: Manifest)
    requires forall x :: x in ms ==> Leq(prefix, x.key.key)
    requires forall i, j :: 0 <= i < j < |ms| ==> Leq(ms[i].key.key, ms[j].key.key)
    requires m in ms && m.state == Committed && prefix <= m.key.key
    ensures m in TakeMatching(ms, prefix)
  {
    assert ms[0] in ms;
    if m != ms[0] {
      var i :| 0 <= i < |ms| && ms[i] == m;
      assert ms[1..][i - 1] == m;
      if !(prefix <= ms[0].key.key) {
        PrefixBlock(prefix, ms[0].key.key, m.key.key);
      }
      TakeMatchingComplete(ms[1..], prefix, m);
    }
  }

  /** Within one bucket, row order means non-decreasing user keys. */
  lemma RowOrderUserKeys(ms: seq<Manifest>, bucket: Bytes)
    requires RowOrder(ms) && forall m :: m in ms ==> m.key.bucket == bucket && ProperKey(m.key)
    ensures forall i, j :: 0 <= i < j < |ms| ==> Leq(ms[i].key.key, ms[j].key.key)
  {
    LessIrreflexive(bucket);
    forall i, j | 0 <= i < j < |ms|
      ensures Leq(ms[i].key.key, ms[j].key.key)
    {
      assert ms[i] in ms && ms[j] in ms;
      EncodeIsOrderEmbedding(ms[i].key, ms[j].key);
      LessTotal(ms[i].key.key, ms[j].key.key);
    }
  }

  lemma MatchingMembers(o: Objects, req: ListRequest, m: Manifest)
    requires WellFormed(o) && ProperRequest(req) && Resumable(req)
    ensures RowOrder(Matching(o, req))
    ensures m in Matching(o, req)
       <==> Has(o, m) && m.key.bucket == req.bucket && m.state == Committed
            && req.prefix <= m.key.key && InScope(req, m.key.key)
  {
    var ms := Rows(o, ScanStart(req), BucketEnd(req.bucket));
    RowsSpec(o, ScanStart(req), BucketEnd(req.bucket));
    TakeMatchingUnder(ms, req.prefix);
    forall x | x in ms
      ensures x.key.bucket == req.bucket && ProperKey(x.key) && Leq(req.prefix, x.key.key)
    {
      ScanSelects(req, x.key);
      ScopeBehindPrefix(req, x.key.key);
    }
    if Has(o, m) {
      ScanSelects(req, m.key);
      if m in ms && m.state == Committed && req.prefix <= m.key.key {
        RowOrderUserKeys(ms, req.bucket);
        TakeMatchingComplete(ms, req.prefix, m);
      }
    }
  }

  /** Appending the byte 1 gives the next string without NUL. */
  lemma {:induction false} NextNulFree(k: Bytes, key: Bytes)
    requires NulFree(key) && Less(k, key)
    ensures Leq(k + [1], key)
  {
    LessTotal(k + [1], key);
    if k == [] {
      assert ([1] + key)[0] == 1;
    } else if k[0] == key[0] {
      assert (k + [1])[1..] == k[1..] + [1];
      NextNulFree(k[1..], key[1..]);
    }
  }

  lemma ScopeBehindPrefix(req: ListRequest, key: Bytes)
    requires Resumable(req) && InScope(req, key) && NulFree(key)
    ensures Leq(req.prefix, key)
  {
    LessTotal(req.prefix, key);
    match req.cursor
    case None =>
    case Some(AfterKey(k)) =>
      if Leq(req.prefix, k) {
        LeqLessTransitive(req.prefix, k, key);
      } else {
        NextNulFree(k, key);
      }
    case Some(AfterPrefix(p)) => LeqLessTransitive(req.prefix, p, key);
  }

  /** A page draws from exactly the keys in scope under the prefix whose current version, by the
      reference definition, is an object. */
  lemma LiveMembers(o: Objects, req: ListRequest, m: Manifest)
    requires WellFormed(o) && ProperRequest(req) && Resumable(req)
    ensures m in LiveFrom(o, req)
       <==> IsCurrent(o, req.bucket, m.key.key, m) && m.kind == Object
            && req.prefix <= m.key.key && InScope(req, m.key.key)
  {
    var ms := Matching(o, req);
    var key := m.key.key;
    LiveFromBasics(o, req);
    LatestByKeyMembers(ms);
    MatchingMembers(o, req, m);
    if Has(o, m) && m.key.bucket == req.bucket && req.prefix <= key && InScope(req, key) {
      forall x
        ensures x in ms <==> Has(o, x) && x.key.bucket == req.bucket && x.state == Committed
                             && req.prefix <= x.key.key && InScope(req, x.key.key)
      {
        MatchingMembers(o, req, x);
      }
      assert SeesWholeKey(o, ms, req.bucket, key);
      OfKeyMembers(ms, key);
      CommittedOfKey(o, ms, req.bucket, key);
      FilterAll(OfKey(ms, key), IsCommitted);
      LatestByKeySpec(ms, key);
      CurrentIff(o, req.bucket, key, m);
    }
  }

  /** The unlimited listing, stated on the table alone: an item occurs exactly when it stands for
      some key under the prefix whose current version is an object. */
  lemma ListingIsExact(o: Objects, req: ListRequest, item: ListItem)
    requires WellFormed(o) && ProperRequest(req) && req.cursor == None
    ensures item in Items(o, req)
       <==> exists m: Manifest :: && IsCurrent(o, req.bucket, m.key.key, m) && m.kind == Object
                                  && req.prefix <= m.key.key && item == ItemFor(m, req.prefix, req.delimiter)
  {
    var ms := LiveFrom(o, req);
    LiveFromBasics(o, req);
    if item in Items(o, req) {
      RollUpSound(ms, req.prefix, req.delimiter);
      var m :| m in ms && item == ItemFor(m, req.prefix, req.delimiter);
      LiveMembers(o, req, m);
    }
    forall m: Manifest | IsCurrent(o, req.bucket, m.key.key, m) && m.kind == Object && req.prefix <= m.key.key
      ensures ItemFor(m, req.prefix, req.delimiter) in Items(o, req)
    {
      LiveMembers(o, req, m);
      PrefixLeq(req.prefix, m.key.key);
      RollUpComplete(ms, req.prefix, req.delimiter, m);
    }
  }

  /** Position of the first occurrence of the delimiter in the key that starts behind the prefix or later. */
  ghost predicate FirstBehind(key: Bytes, prefix: Bytes, d: Bytes, i: int) {
    |prefix| <= i && OccursAt(key, d, i) && forall j :: |prefix| <= j < i ==> !OccursAt(key, d, j)
  }

  /** The key cut behind that occurrence. */
  ghost predicate CutBehind(key: Bytes, prefix: Bytes, d: Bytes, p: Bytes) {
    exists i :: FirstBehind(key, prefix, d, i) && p == key[..i + |d|]
  }

  /** `rest` is the key behind the prefix of length `n`. */
  ghost predicate Shifted(key: Bytes, rest: Bytes, d: Bytes, n: nat) {
    && (forall i :: 0 <= i && OccursAt(rest, d, i) ==> OccursAt(key, d, n + i))
    && (forall j :: n <= j && OccursAt(key, d, j) ==> OccursAt(rest, d, j - n))
  }

  lemma SliceOfRest(s: Bytes, n: int, i: int, k: int)
    requires 0 <= n && 0 <= i <= k && n + k <= |s|
    ensures s[n..][i..k] == s[n + i..n + k]
  {
  }

  lemma RestIsShifted(key: Bytes, d: Bytes, n: nat)
    requires n <= |key|
    ensures Shifted(key, key[n..], d, n)
  {
    forall i | 0 <= i && OccursAt(key[n..], d, i)
      ensures OccursAt(key, d, n + i)
    {
      SliceOfRest(key, n, i, i + |d|);
    }
    forall j | n <= j && OccursAt(key, d, j)
      ensures OccursAt(key[n..], d, j - n)
    {
      SliceOfRest(key, n, j - n, j - n + |d|);
    }
  }

  lemma FindBehind(key: Bytes, prefix: Bytes, d: Bytes, i: int)
    requires prefix <= key
    ensures FirstBehind(key, prefix, d, i) <==>
              Find(key[|prefix|..], d).Some? && i == |prefix| + Find(key[|prefix|..], d).value
  {
    RestIsShifted(key, d, |prefix|);
    FindIsFirst(key[|prefix|..], d);
    ShiftedFirst(key, key[|prefix|..], prefix, d, i);
  }

  lemma ShiftedFirst(key: Bytes, rest: Bytes, prefix: Bytes, d: Bytes, i: int)
    requires Shifted(key, rest, d, |prefix|)
    requires Find(rest, d).None? ==> forall j :: !OccursAt(rest, d, j)
    requires Find(rest, d).Some? ==>
               && OccursAt(rest, d, Find(rest, d).value)
               && forall j :: 0 <= j < Find(rest, d).value ==> !OccursAt(rest, d, j)
    ensures FirstBehind(key, prefix, d, i) <==> Find(rest, d).Some? && i == |prefix| + Find(rest, d).value
  {
    if FirstBehind(key, prefix, d, i) {
      assert OccursAt(rest, d, i - |prefix|);
      assert OccursAt(key, d, |prefix| + Find(rest, d).value);
    }
  }

  /** The delimiter does not occur behind the prefix. */
  ghost predicate NoneBehind(key: Bytes, prefix: Bytes, d: Bytes) {
    forall i :: |prefix| <= i ==> !OccursAt(key, d, i)
  }

  /** A key stands for itself exactly if no delimiter follows the prefix. */
  lemma ListedItselfIff(m: Manifest, prefix: Bytes, delimiter: Option<Bytes>)
    requires prefix <= m.key.key
    ensures ItemFor(m, prefix, delimiter) == ObjectItem(m) <==>
              (delimiter.Some? ==> NoneBehind(m.key.key, prefix, delimiter.value))
  {
    if delimiter.Some? {
      var rest := m.key.key[|prefix|..];
      RestIsShifted(m.key.key, delimiter.value, |prefix|);
      FindIsFirst(rest, delimiter.value);
      if Find(rest, delimiter.value).Some? {
        assert OccursAt(m.key.key, delimiter.value, |prefix| + Find(rest, delimiter.value).value);
      }
    }
  }

  /** And for a common prefix exactly if that is the key cut behind the first such delimiter. */
  lemma RolledUpIff(m: Manifest, prefix: Bytes, delimiter: Option<Bytes>, p: Bytes)
    requires prefix <= m.key.key
    ensures ItemFor(m, prefix, delimiter) == CommonPrefix(p) <==>
              delimiter.Some? && CutBehind(m.key.key, prefix, delimiter.value, p)
  {
    if delimiter.Some? {
      var key, d := m.key.key, delimiter.value;
      if Find(key[|prefix|..], d).Some? {
        FindBehind(key, prefix, d, |prefix| + Find(key[|prefix|..], d).value);
      }
      forall i | FirstBehind(key, prefix, d, i)
        ensures Find(key[|prefix|..], d) == Some(i - |prefix|)
      {
        FindBehind(key, prefix, d, i);
      }
    }
  }

  /** The current version of the key is an object under the prefix. */
  ghost predicate Listable(o: Objects, req: ListRequest, m: Manifest) {
    IsCurrent(o, req.bucket, m.key.key, m) && m.kind == Object && req.prefix <= m.key.key
  }

  /** An object is listed itself exactly if it is current, lies under the prefix, and no delimiter follows the
      prefix in its key. */
  lemma ObjectListedIff(o: Objects, req: ListRequest, m: Manifest)
    requires WellFormed(o) && ProperRequest(req) && req.cursor == None
    ensures ObjectItem(m) in Items(o, req) <==>
              Listable(o, req, m) && (req.delimiter.Some? ==> NoneBehind(m.key.key, req.prefix, req.delimiter.value))
  {
    ListingIsExact(o, req, ObjectItem(m));
    if req.prefix <= m.key.key {
      ListedItselfIff(m, req.prefix, req.delimiter);
    }
  }

  /** A common prefix is listed exactly if it is the key of some current object under the prefix, cut behind
      the first delimiter that follows the prefix. */
  lemma CommonPrefixListedIff(o: Objects, req: ListRequest, p: Bytes)
    requires WellFormed(o) && ProperRequest(req) && req.cursor == None
    ensures CommonPrefix(p) in Items(o, req) <==>
              && req.delimiter.Some?
              && exists m :: Listable(o, req, m) && CutBehind(m.key.key, req.prefix, req.delimiter.value, p)
  {
    ListingIsExact(o, req, CommonPrefix(p));
    forall m | Listable(o, req, m)
      ensures ItemFor(m, req.prefix, req.delimiter) == CommonPrefix(p) <==>
                req.delimiter.Some? && CutBehind(m.key.key, req.prefix, req.delimiter.value, p)
    {
      RolledUpIff(m, req.prefix, req.delimiter, p);
    }
  }

  // ---- following the cursors ----

  /** A key behind the item of another key is greater than that key. */
  lemma PastItemPastKey(n: Manifest, prefix: Bytes, delimiter: Option<Bytes>, key: Bytes)
    requires prefix <= n.key.key && Past(ItemFor(n, prefix, delimiter), key)
    ensures Less(n.key.key, key)
  {
    var item := ItemFor(n, prefix, delimiter);
    if item.CommonPrefix? {
      LessTotal(item.prefix, key);
      LessTotal(n.key.key, key);
      if Leq(key, n.key.key) {
        PrefixBlock(item.prefix, key, n.key.key);
        assert false;
      }
    }
  }

  /** A key greater than one in scope is in scope, if both start with the prefix. */
  lemma ScopeGrows(req: ListRequest, a: Bytes, b: Bytes)
    requires InScope(req, a) && Less(a, b) && req.prefix <= b
    ensures InScope(req, b)
  {
    PrefixLeq(req.prefix, b);
    match req.cursor
    case None =>
    case Some(AfterKey(k)) => LessTransitive(k, a, b);
    case Some(AfterPrefix(p)) =>
      LessTransitive(p, a, b);
      if p <= b {
        LessTotal(p, a);
        LessTotal(a, b);
        PrefixBlock(p, a, b);
        assert false;
      }
  }

  /** Resuming at the cursor of an item of one page draws from exactly what lies behind that item. */
  lemma ResumeDraws(o: Objects, req: ListRequest, n: Manifest)
    requires WellFormed(o) && ProperRequest(req) && Resumable(req) && n in LiveFrom(o, req)
    requires req.prefix <= n.key.key
    ensures var item := ItemFor(n, req.prefix, req.delimiter);
      var next := req.(cursor := Some(CursorOf(item)));
      Resumable(next) && LiveFrom(o, next) == Behind(LiveFrom(o, req), item)
  {
    var item := ItemFor(n, req.prefix, req.delimiter);
    var next := req.(cursor := Some(CursorOf(item)));
    LiveMembers(o, req, n);
    ItemIsResumable(req, n);
    ItemTextBelowKey(n, req.prefix, req.delimiter);
    BehindMembers(LiveFrom(o, req), item);
    forall m
      ensures m in LiveFrom(o, next) <==> m in Behind(LiveFrom(o, req), item)
    {
      LiveMembers(o, req, m);
      LiveMembers(o, next, m);
      if req.prefix <= m.key.key && Past(item, m.key.key) {
        PastItemPastKey(n, req.prefix, req.delimiter, m.key.key);
        ScopeGrows(req, n.key.key, m.key.key);
      }
    }
    LiveRowOrder(o, req);
    LiveRowOrder(o, next);
    FilterMembers(LiveFrom(o, req), (m: Manifest) => Past(item, m.key.key));
    RowOrderUnique(LiveFrom(o, next), Behind(LiveFrom(o, req), item));
  }

  /** The common prefix of a key is NUL-free and ends with the delimiter, so the scan can jump past it. */
  lemma ItemIsResumable(req: ListRequest, n: Manifest)
    requires ProperRequest(req) && NulFree(n.key.key) && req.prefix <= n.key.key
    ensures Resumable(req.(cursor := Some(CursorOf(ItemFor(n, req.prefix, req.delimiter)))))
  {
    var item := ItemFor(n, req.prefix, req.delimiter);
    ItemTextBelowKey(n, req.prefix, req.delimiter);
    PrefixLeq(req.prefix, TextOf(item));
    if item.CommonPrefix? {
      var d := req.delimiter.value;
      var pos := Find(n.key.key[|req.prefix|..], d).value;
      var i :| 0 <= i < |d| && d[i] < 255;
      assert n.key.key[|req.prefix|..][pos..pos + |d|][i] == d[i];
      assert item.prefix[|req.prefix| + pos + i] == d[i];
    }
  }

  lemma LiveRowOrder(o: Objects, req: ListRequest)
    requires WellFormed(o) && ProperRequest(req) && Resumable(req)
    ensures RowOrder(LiveFrom(o, req))
  {
    var ms := LiveFrom(o, req);
    LiveFromBasics(o, req);
    forall i, j | 0 <= i < j < |ms|
      ensures Less(Encode(ms[i].key), Encode(ms[j].key))
    {
      assert ms[i] in ms && ms[j] in ms;
      LiveMembers(o, req, ms[i]);
      LiveMembers(o, req, ms[j]);
      EncodeIsOrderEmbedding(ms[i].key, ms[j].key);
    }
  }

  /** Resuming at the cursor of an item lists what follows that item. */
  lemma ItemsResume(o: Objects, req: ListRequest, n: nat, cursor: Option<ListCursor>)
    requires WellFormed(o) && ProperRequest(req) && Resumable(req) && 1 <= n <= |Items(o, req)|
    requires cursor == Some(CursorOf(Items(o, req)[n - 1]))
    ensures Resumable(req.(cursor := cursor)) && Items(o, req.(cursor := cursor)) == Items(o, req)[n..]
  {
    LiveFromBasics(o, req);
    var m := OriginOf(o, req, Items(o, req)[n - 1]);
    ResumeDraws(o, req, m);
    RollUpResumes(LiveFrom(o, req), req.prefix, req.delimiter, n - 1);
  }

  lemma TruncatedItems(items: seq<ListItem>, n: nat)
    requires n >= 1 && PageOf(items, n).nextCursor.Some?
    ensures n < |items| && PageOf(items, n).nextCursor == Some(CursorOf(items[n - 1]))
  {
  }

  /** The page behind a truncated page continues the listing where that page ended. */
  lemma NextPageContinues(o: Objects, req: ListRequest)
    requires WellFormed(o) && ProperRequest(req) && Resumable(req) && req.limit >= 1
    requires ListPage(o, req).nextCursor.Some?
    ensures var next := req.(cursor := ListPage(o, req).nextCursor);
      Resumable(next) && |Items(o, req)| > req.limit && Items(o, next) == Items(o, req)[req.limit..]
  {
    TruncatedItems(Items(o, req), req.limit);
    ItemsResume(o, req, req.limit, ListPage(o, req).nextCursor);
  }

  /** A page says that it is truncated exactly if its cursor leads to further items. */
  lemma TruncatedIff(o: Objects, req: ListRequest)
    requires WellFormed(o) && ProperRequest(req) && Resumable(req) && req.limit >= 1
    ensures var page := ListPage(o, req);
      page.truncated <==> page.nextCursor.Some? && Items(o, req.(cursor := page.nextCursor)) != []
  {
    if ListPage(o, req).nextCursor.Some? {
      NextPageContinues(o, req);
    }
  }

  /** A key that an item stands for. */
  lemma OriginOf(o: Objects, req: ListRequest, item: ListItem) returns (n: Manifest)
    requires item in Items(o, req)
    ensures n in LiveFrom(o, req) && req.prefix <= n.key.key && item == ItemFor(n, req.prefix, req.delimiter)
  {
    LiveFromBasics(o, req);
    RollUpSound(LiveFrom(o, req), req.prefix, req.delimiter);
    n :| n in LiveFrom(o, req) && item == ItemFor(n, req.prefix, req.delimiter);
  }

  /** All items a client collects by following `next_cursor` until there is none. */
  ghost function Follow(o: Objects, req: ListRequest): seq<ListItem>
    requires WellFormed(o) && ProperRequest(req) && Resumable(req) && req.limit >= 1
    decreases |Items(o, req)|
  {
    var page := ListPage(o, req);
    if page.nextCursor.None? then page.items
    else
      NextPageContinues(o, req);
      page.items + Follow(o, req.(cursor := page.nextCursor))
  }

  /** Pagination is lossless: the pages, put together, are the unlimited listing, for every table,
      prefix, delimiter and page size. */
  lemma {:induction false} PaginationIsLossless(o: Objects, req: ListRequest)
    requires WellFormed(o) && ProperRequest(req) && Resumable(req) && req.limit >= 1
    ensures Follow(o, req) == Items(o, req)
    decreases |Items(o, req)|
  {
    var all := Items(o, req);
    if |all| > req.limit {
      var next := req.(cursor := ListPage(o, req).nextCursor);
      NextPageContinues(o, req);
      PaginationIsLossless(o, next);
      Rejoin(all, req.limit);
    }
  }

  lemma Rejoin(all: seq<ListItem>, n: nat)
    requires n <= |all|
    ensures all[..n] + all[n..] == all
  {
  }

  /** Nothing is listed twice, over all pages together. */
  lemma PaginationHasNoDuplicates(o: Objects, req: ListRequest)
    requires WellFormed(o) && ProperRequest(req) && Resumable(req) && req.limit >= 1
    ensures var all := Follow(o, req);
      forall i, j :: 0 <= i < j < |all| ==> Less(TextOf(all[i]), TextOf(all[j]))
  {
    PaginationIsLossless(o, req);
    LiveFromBasics(o, req);
    RollUpAscending(LiveFrom(o, req), req.prefix, req.delimiter);
  }

  // ---- a client's own start-after ----

  /** The listing after `k` draws from exactly the keys greater than `k`. */
  ghost predicate DrawsAll(o: Objects, req: ListRequest) {
    forall m :: m in LiveFrom(o, req)
       <==> IsCurrent(o, req.bucket, m.key.key, m) && m.kind == Object
            && req.prefix <= m.key.key && InScope(req, m.key.key)
  }

  lemma {:induction false} StopsAtForeignRow(ms: seq<Manifest>, prefix: Bytes, a: Manifest, c: Manifest)
    requires RowOrder(ms) && a in ms && c in ms && Less(Encode(a.key), Encode(c.key))
    requires a.state == Committed && !(prefix <= a.key.key)
    ensures c !in TakeMatching(ms, prefix)
  {
    FirstIsLeast(ms, a);
    LessTotal(Encode(ms[0].key), Encode(c.key));
    LessTotal(Encode(a.key), Encode(c.key));
    assert c != ms[0];
    if ms[0].state == Committed && prefix <= ms[0].key.key {
      TailMembers(ms, a);
      TailMembers(ms, c);
      StopsAtForeignRow(ms[1..], prefix, a, c);
    } else if ms[0].state != Committed {
      TailMembers(ms, a);
      TailMembers(ms, c);
      StopsAtForeignRow(ms[1..], prefix, a, c);
    }
  }

  /** An object of no bytes, as a put stores it: one part, and equal times. */
  function PlainObject(bucket: Bytes, key: Bytes): Manifest {
    Manifest(ManifestKey(bucket, key, NULL_VERSION), Committed, Object, [PartRef(1, [0], [0], 0)], 0, [], None, 0, 0)
  }

  function Two(a: Manifest, c: Manifest): Objects {
    map[Encode(a.key) := a, Encode(c.key) := c]
  }

  lemma TwoSpec(bucket: Bytes, x: Bytes, y: Bytes)
    requires NulFree(bucket) && NulFree(x) && NulFree(y) && x != y
    ensures var a, c := PlainObject(bucket, x), PlainObject(bucket, y);
      WellFormed(Two(a, c)) && Has(Two(a, c), a) && IsCurrent(Two(a, c), bucket, y, c)
  {
    var a, c := PlainObject(bucket, x), PlainObject(bucket, y);
    EncodeIsInjective(a.key, c.key);
    LessIrreflexive(NULL_VERSION);
  }

  /** A table on which `start-after k` yields nothing although an object under the prefix follows. */
  lemma StartAfterWitness(req: ListRequest, k: Bytes)
    requires ProperRequest(req) && NulFree(k) && req.cursor == Some(AfterKey(k))
    requires Less(k, req.prefix) && req.prefix != k + [1]
    ensures exists o :: WellFormed(o) && !DrawsAll(o, req)
  {
    var a, c := PlainObject(req.bucket, k + [1]), PlainObject(req.bucket, req.prefix);
    var o := Two(a, c);
    TwoSpec(req.bucket, k + [1], req.prefix);
    NextNulFree(k, req.prefix);
    LessTotal(k + [1], req.prefix);
    LessUnderPrefix(k, [], [1]);
    assert k + [] == k;
    if req.prefix <= k + [1] {
      PrefixLeq(req.prefix, k + [1]);
      assert false;
    }
    assert c !in Matching(o, req) by {
      RowsSpec(o, ScanStart(req), BucketEnd(req.bucket));
      ScanSelects(req, a.key);
      ScanSelects(req, c.key);
      EncodeIsOrderEmbedding(a.key, c.key);
      StopsAtForeignRow(Rows(o, ScanStart(req), BucketEnd(req.bucket)), req.prefix, a, c);
    }
    assert c !in LiveFrom(o, req) by {
      LiveFromBasics(o, req);
      LatestByKeyMembers(Matching(o, req));
    }
  }

  /** A client's `start-after` lists everything behind it, on every table, exactly when no key fits
      between it and the prefix; otherwise the scan can stop at a row that precedes the prefix. */
  lemma StartAfterExact(req: ListRequest, k: Bytes)
    requires ProperRequest(req) && NulFree(k) && req.cursor == Some(AfterKey(k))
    ensures (forall o :: WellFormed(o) ==> DrawsAll(o, req)) <==> Leq(req.prefix, k) || req.prefix == k + [1]
  {
    if Leq(req.prefix, k) || req.prefix == k + [1] {
      forall o, m | WellFormed(o)
        ensures m in LiveFrom(o, req)
           <==> IsCurrent(o, req.bucket, m.key.key, m) && m.kind == Object
                && req.prefix <= m.key.key && InScope(req, m.key.key)
      {
        LiveMembers(o, req, m);
      }
    } else {
      LessTotal(req.prefix, k);
      StartAfterWitness(req, k);
    }
  }
}
