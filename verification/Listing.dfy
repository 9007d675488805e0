/** Listing with prefix, delimiter and pages (src/storage/db/actor.rs:529-655): what one page
    contains, the roll-up into common prefixes, and following the cursors to the end. */
module Listing {
  import opened Results
  import opened ByteStrings
  import opened Manifests
  import opened KeyOrder
  import opened Scans

  datatype ListCursor = AfterKey(key: Bytes) | AfterPrefix(prefix: Bytes)

  datatype ListRequest = ListRequest(bucket: Bytes, prefix: Bytes, delimiter: Option<Bytes>,
                                     cursor: Option<ListCursor>, limit: nat)

  datatype ListItem = ObjectItem(manifest: Manifest) | CommonPrefix(prefix: Bytes)

  datatype Page = Page(items: seq<ListItem>, truncated: bool, nextCursor: Option<ListCursor>)

  // ---- one page, as the program computes it ----

  /** First position at which `needle` occurs. */
  function Find(hay: Bytes, needle: Bytes): (r: Option<nat>)
    ensures r.Some? ==> r.value + |needle| <= |hay| && hay[r.value..r.value + |needle|] == needle
    decreases |hay|
  {
    if needle <= hay then
      assert hay[0..|needle|] == needle;
      Some(0)
    else if hay == [] then None
    else
      match Find(hay[1..], needle)
      case None => None
      case Some(i) =>
        assert hay[i + 1..i + 1 + |needle|] == hay[1..][i..i + |needle|];
        Some(i + 1)
  }

  function ScanStart(req: ListRequest): Bytes {
    match req.cursor
    case None => PrefixStart(req.bucket, req.prefix)
    case Some(AfterKey(k)) => AfterKeyStart(req.bucket, k)
    case Some(AfterPrefix(p)) => AfterPrefixStart(req.bucket, p)
  }

  /** The committed rows before the first committed row outside the prefix. */
  function TakeMatching(ms: seq<Manifest>, prefix: Bytes): seq<Manifest> {
    if ms == [] then []
    else if ms[0].state != Committed then TakeMatching(ms[1..], prefix)
    else if !(prefix <= ms[0].key.key) then []
    else [ms[0]] + TakeMatching(ms[1..], prefix)
  }

  function Matching(o: Objects, req: ListRequest): seq<Manifest> {
    TakeMatching(Rows(o, ScanStart(req), BucketEnd(req.bucket)), req.prefix)
  }

  predicate IsObject(m: Manifest) {
    m.kind == Object
  }

  /** The winners in key order. */
  function InKeyOrder(latest: map<Bytes, Manifest>): seq<Manifest> {
    SortedSpec(latest.Keys);
    ValuesAt(latest, Sorted(latest.Keys))
  }

  /** What a page draws from: the winners of the scanned keys, without delete markers. */
  function LiveFrom(o: Objects, req: ListRequest): seq<Manifest> {
    Filter(InKeyOrder(LatestByKey(Matching(o, req))), IsObject)
  }

  /** The item that stands for a key: the key itself, or everything up to and including the first
      delimiter behind the requested prefix. */
  function ItemFor(m: Manifest, prefix: Bytes, delimiter: Option<Bytes>): ListItem
    requires prefix <= m.key.key
  {
    if delimiter.None? then ObjectItem(m)
    else
      match Find(m.key.key[|prefix|..], delimiter.value)
      case None => ObjectItem(m)
      case Some(pos) => CommonPrefix(m.key.key[..|prefix| + pos + |delimiter.value|])
  }

  /** Keys that lie behind an item. */
  predicate Past(item: ListItem, key: Bytes) {
    match item
    case ObjectItem(m) => Less(m.key.key, key)
    case CommonPrefix(p) => BeyondPrefix(p, key)
  }

  function Behind(ms: seq<Manifest>, item: ListItem): (r: seq<Manifest>)
    ensures |r| <= |ms|
  {
    Filter(ms, (m: Manifest) => Past(item, m.key.key))
  }

  predicate AllUnder(ms: seq<Manifest>, prefix: Bytes) {
    forall m :: m in ms ==> prefix <= m.key.key
  }

  lemma BehindMembers(ms: seq<Manifest>, item: ListItem)
    ensures forall m :: m in Behind(ms, item) <==> m in ms && Past(item, m.key.key)
    ensures forall p :: AllUnder(ms, p) ==> AllUnder(Behind(ms, item), p)
  {
    FilterMembers(ms, (m: Manifest) => Past(item, m.key.key));
  }

  /** The whole listing of a list of keys: the item of the first key, then the listing of the keys
      behind that item. */
  function RollUp(ms: seq<Manifest>, prefix: Bytes, delimiter: Option<Bytes>): seq<ListItem>
    requires AllUnder(ms, prefix)
    decreases |ms|
  {
    if ms == [] then []
    else
      assert ms[0] in ms;
      var item := ItemFor(ms[0], prefix, delimiter);
      BehindMembers(ms[1..], item);
      [item] + RollUp(Behind(ms[1..], item), prefix, delimiter)
  }

  function CursorOf(item: ListItem): ListCursor {
    match item
    case ObjectItem(m) => AfterKey(m.key.key)
    case CommonPrefix(p) => AfterPrefix(p)
  }

  /** The first `limit` items, whether there are more, and where to go on. */
  function PageOf(items: seq<ListItem>, limit: nat): Page {
    if |items| <= limit then Page(items, false, None)
    else Page(items[..limit], true, if limit == 0 then None else Some(CursorOf(items[limit - 1])))
  }

  /** The handlers drop an empty delimiter (src/s3/listing.rs:45); text has no byte 255. */
  predicate ProperRequest(req: ListRequest) {
    && NulFree(req.bucket) && NulFree(req.prefix)
    && (req.delimiter.Some? ==> HasSuccessor(req.delimiter.value))
  }

  /** No key lies between the cursor and the prefix. Every cursor handed out by a page is like this. */
  predicate Resumable(req: ListRequest) {
    match req.cursor
    case None => true
    case Some(AfterKey(k)) => NulFree(k) && (Leq(req.prefix, k) || req.prefix == k + [1])
    case Some(AfterPrefix(p)) => NulFree(p) && HasSuccessor(p) && Leq(req.prefix, p)
  }

  /** The keys a request asks for. */
  predicate InScope(req: ListRequest, key: Bytes) {
    match req.cursor
    case None => Leq(req.prefix, key)
    case Some(AfterKey(k)) => Less(k, key)
    case Some(AfterPrefix(p)) => BeyondPrefix(p, key)
  }

  /** All items from the cursor on, without a page limit. */
  function Items(o: Objects, req: ListRequest): seq<ListItem> {
    LiveFromBasics(o, req);
    RollUp(LiveFrom(o, req), req.prefix, req.delimiter)
  }

  lemma {:induction false} TakeMatchingMembers(ms: seq<Manifest>, prefix: Bytes)
    ensures forall m :: m in TakeMatching(ms, prefix) ==> m in ms && m.state == Committed && prefix <= m.key.key
  {
    if ms != [] {
      TakeMatchingMembers(ms[1..], prefix);
      assert ms == [ms[0]] + ms[1..];
    }
  }

  lemma {:induction false} TakeMatchingUnder(ms: seq<Manifest>, prefix: Bytes)
    ensures forall m :: m in TakeMatching(ms, prefix) ==> m in ms && m.state == Committed && prefix <= m.key.key
    ensures RowOrder(ms) ==> RowOrder(TakeMatching(ms, prefix))
  {
    TakeMatchingMembers(ms, prefix);
    if ms != [] && RowOrder(ms) {
      TakeMatchingUnder(ms[1..], prefix);
      forall m | m in TakeMatching(ms[1..], prefix)
        ensures Less(Encode(ms[0].key), Encode(m.key))
      {
        var i :| 0 <= i < |ms[1..]| && ms[1..][i] == m;
        assert ms[i + 1] == m;
      }
    }
  }

  lemma {:induction false} LatestByKeyMembers(ms: seq<Manifest>)
    ensures forall k :: k in LatestByKey(ms) ==> LatestByKey(ms)[k] in ms && LatestByKey(ms)[k].key.key == k
  {
    if ms != [] {
      LatestByKeyMembers(ms[..|ms| - 1]);
      assert ms == ms[..|ms| - 1] + [ms[|ms| - 1]];
    }
  }

  predicate UserKeyOrder(ms: seq<Manifest>) {
    forall i, j :: 0 <= i < j < |ms| ==> Less(ms[i].key.key, ms[j].key.key)
  }

  lemma InKeyOrderSpec(latest: map<Bytes, Manifest>)
    requires forall k :: k in latest ==> latest[k].key.key == k
    ensures UserKeyOrder(InKeyOrder(latest))
    ensures forall m: Manifest :: m in InKeyOrder(latest) <==> m.key.key in latest && latest[m.key.key] == m
  {
    var ks := Sorted(latest.Keys);
    SortedSpec(latest.Keys);
    var ms := InKeyOrder(latest);
    forall i | 0 <= i < |ms|
      ensures ms[i].key.key == ks[i] && ks[i] in latest && ms[i] == latest[ks[i]]
    {
      assert ks[i] in ks;
    }
    forall m: Manifest | m.key.key in latest && latest[m.key.key] == m
      ensures m in ms
    {
      WinnerListed(latest, m.key.key);
    }
  }

  lemma WinnerListed(latest: map<Bytes, Manifest>, key: Bytes)
    requires key in latest
    ensures latest[key] in InKeyOrder(latest)
  {
    var ks := Sorted(latest.Keys);
    SortedSpec(latest.Keys);
    assert key in ks;
    var i :| 0 <= i < |ks| && ks[i] == key;
    assert InKeyOrder(latest)[i] == latest[key];
  }

  lemma {:induction false} FilterKeepsUserKeyOrder(ms: seq<Manifest>, p: Manifest -> bool)
    requires UserKeyOrder(ms)
    ensures UserKeyOrder(Filter(ms, p))
  {
    if ms != [] {
      FilterKeepsUserKeyOrder(ms[1..], p);
      FilterMembers(ms[1..], p);
      forall m | m in Filter(ms[1..], p)
        ensures Less(ms[0].key.key, m.key.key)
      {
        var i :| 0 <= i < |ms[1..]| && ms[1..][i] == m;
        assert ms[i + 1] == m;
      }
    }
  }

  lemma LiveFromBasics(o: Objects, req: ListRequest)
    ensures UserKeyOrder(LiveFrom(o, req)) && AllUnder(LiveFrom(o, req), req.prefix)
    ensures forall m :: m in LiveFrom(o, req) <==>
              m.kind == Object && m.key.key in LatestByKey(Matching(o, req))
              && LatestByKey(Matching(o, req))[m.key.key] == m
  {
    var ms := Matching(o, req);
    LatestByKeyMembers(ms);
    TakeMatchingUnder(Rows(o, ScanStart(req), BucketEnd(req.bucket)), req.prefix);
    InKeyOrderSpec(LatestByKey(ms));
    FilterKeepsUserKeyOrder(InKeyOrder(LatestByKey(ms)), IsObject);
    FilterMembers(InKeyOrder(LatestByKey(ms)), IsObject);
  }

  /** One page of the program. */
  function ListPage(o: Objects, req: ListRequest): Page {
    PageOf(Items(o, req), req.limit)
  }

  // ---- the roll-up as a single pass ----

  /** What is left to list when keys under the last common prefix are being skipped. */
  function Unskipped(ms: seq<Manifest>, skip: Option<Bytes>): seq<Manifest> {
    if skip.None? then Filter(ms, IsObject)
    else Filter(Filter(ms, IsObject), (m: Manifest) => !(skip.value <= m.key.key))
  }

  function SkipFor(item: ListItem): Option<Bytes> {
    match item
    case ObjectItem(_) => None
    case CommonPrefix(p) => Some(p)
  }

  lemma UnskippedMembers(ms: seq<Manifest>, skip: Option<Bytes>)
    ensures forall m :: m in Unskipped(ms, skip) <==>
      m in ms && m.kind == Object && (skip.None? || !(skip.value <= m.key.key))
    ensures forall p :: AllUnder(ms, p) ==> AllUnder(Unskipped(ms, skip), p)
  {
    FilterMembers(ms, IsObject);
    if skip.Some? {
      FilterMembers(Filter(ms, IsObject), (m: Manifest) => !(skip.value <= m.key.key));
    }
  }

  /** Delete markers and keys under the skipped prefix contribute nothing. */
  lemma PassOver(ms: seq<Manifest>, skip: Option<Bytes>)
    requires ms != [] && (ms[0].kind != Object || (skip.Some? && skip.value <= ms[0].key.key))
    ensures Unskipped(ms, skip) == Unskipped(ms[1..], skip)
  {
    if ms[0].kind == Object {
      assert ([ms[0]] + Filter(ms[1..], IsObject))[1..] == Filter(ms[1..], IsObject);
    }
  }

  /** Once a key lies outside the skipped prefix, so do all later ones. */
  lemma StopSkipping(ms: seq<Manifest>, p: Bytes)
    requires UserKeyOrder(ms) && ms != [] && Leq(p, ms[0].key.key) && !(p <= ms[0].key.key)
    ensures Unskipped(ms, Some(p)) == Unskipped(ms, None)
  {
    forall i | 0 <= i < |ms|
      ensures !(p <= ms[i].key.key)
    {
      LessTotal(ms[0].key.key, ms[i].key.key);
      LessIrreflexive(ms[0].key.key);
      if p <= ms[i].key.key {
        PrefixBlock(p, ms[0].key.key, ms[i].key.key);
        assert false;
      }
    }
    FilterMembers(ms, IsObject);
    FilterAll(Filter(ms, IsObject), (m: Manifest) => !(p <= m.key.key));
  }

  /** A later key lies behind the item unless the item's common prefix covers it. */
  lemma PastUnlessCovered(first: Manifest, item: ListItem, key: Bytes)
    requires Less(first.key.key, key)
    requires item == ObjectItem(first) || (item.CommonPrefix? && item.prefix <= first.key.key)
    ensures Past(item, key) == (match item case ObjectItem(_) => true case CommonPrefix(p) => !(p <= key))
  {
    if item.CommonPrefix? {
      PrefixLeq(item.prefix, first.key.key);
      LeqLessTransitive(item.prefix, first.key.key, key);
    }
  }

  lemma LaterObjects(ms: seq<Manifest>, m: Manifest)
    requires UserKeyOrder(ms) && ms != [] && m in Filter(ms[1..], IsObject)
    ensures Less(ms[0].key.key, m.key.key)
  {
    FilterMembers(ms[1..], IsObject);
    var i :| 0 <= i < |ms[1..]| && ms[1..][i] == m;
    assert ms[i + 1] == m;
  }

  /** Listing an object, or the common prefix that stands for it and switches skipping on. */
  lemma Emit(ms: seq<Manifest>, prefix: Bytes, delimiter: Option<Bytes>)
    requires UserKeyOrder(ms) && AllUnder(ms, prefix) && ms != [] && ms[0].kind == Object
    ensures prefix <= ms[0].key.key && AllUnder(Unskipped(ms, None), prefix)
    ensures var item := ItemFor(ms[0], prefix, delimiter);
      && AllUnder(Unskipped(ms[1..], SkipFor(item)), prefix)
      && RollUp(Unskipped(ms, None), prefix, delimiter)
         == [item] + RollUp(Unskipped(ms[1..], SkipFor(item)), prefix, delimiter)
  {
    assert ms[0] in ms;
    var item := ItemFor(ms[0], prefix, delimiter);
    var rest := Filter(ms[1..], IsObject);
    UnskippedMembers(ms, None);
    UnskippedMembers(ms[1..], SkipFor(item));
    assert ([ms[0]] + rest)[1..] == rest;
    forall m | m in rest
      ensures Past(item, m.key.key) == (match item case ObjectItem(_) => true case CommonPrefix(p) => !(p <= m.key.key))
    {
      LaterObjects(ms, m);
      PastUnlessCovered(ms[0], item, m.key.key);
    }
    match item
    case ObjectItem(_) => FilterAll(rest, (m: Manifest) => Past(item, m.key.key));
    case CommonPrefix(p) =>
      FilterSame(rest, (m: Manifest) => Past(item, m.key.key), (m: Manifest) => !(p <= m.key.key));
  }

  /** The items still to come when position `i` of the winners is reached. */
  function ItemsFrom(winners: seq<Manifest>, i: nat, skip: Option<Bytes>, prefix: Bytes,
        delimiter: Option<Bytes>): seq<ListItem>
    requires AllUnder(winners, prefix) && i <= |winners|
  {
    UnskippedMembers(winners[i..], skip);
    RollUp(Unskipped(winners[i..], skip), prefix, delimiter)
  }

  predicate SkipIsBehind(winners: seq<Manifest>, i: nat, skip: Option<Bytes>) {
    skip.Some? ==> forall j :: i <= j < |winners| ==> Leq(skip.value, winners[j].key.key)
  }

  lemma PassOverAt(winners: seq<Manifest>, i: nat, skip: Option<Bytes>, prefix: Bytes, delimiter: Option<Bytes>)
    requires AllUnder(winners, prefix) && i < |winners|
    requires winners[i].kind != Object || (skip.Some? && skip.value <= winners[i].key.key)
    ensures ItemsFrom(winners, i, skip, prefix, delimiter) == ItemsFrom(winners, i + 1, skip, prefix, delimiter)
  {
    assert winners[i..][1..] == winners[i + 1..];
    PassOver(winners[i..], skip);
  }

  lemma StopSkippingAt(winners: seq<Manifest>, i: nat, p: Bytes, prefix: Bytes, delimiter: Option<Bytes>)
    requires AllUnder(winners, prefix) && UserKeyOrder(winners) && i < |winners|
    requires Leq(p, winners[i].key.key) && !(p <= winners[i].key.key)
    ensures ItemsFrom(winners, i, Some(p), prefix, delimiter) == ItemsFrom(winners, i, None, prefix, delimiter)
  {
    StopSkipping(winners[i..], p);
  }

  lemma EmitAt(winners: seq<Manifest>, i: nat, prefix: Bytes, delimiter: Option<Bytes>)
    requires AllUnder(winners, prefix) && UserKeyOrder(winners) && i < |winners| && winners[i].kind == Object
    ensures prefix <= winners[i].key.key
    ensures var item := ItemFor(winners[i], prefix, delimiter);
      && ItemsFrom(winners, i, None, prefix, delimiter)
         == [item] + ItemsFrom(winners, i + 1, SkipFor(item), prefix, delimiter)
      && SkipIsBehind(winners, i + 1, SkipFor(item))
  {
    assert winners[i] in winners;
    var item := ItemFor(winners[i], prefix, delimiter);
    assert winners[i..][1..] == winners[i + 1..];
    Emit(winners[i..], prefix, delimiter);
    if item.CommonPrefix? {
      LaterKeysBehind(winners, i, item.prefix);
    }
  }

  lemma LaterKeysBehind(winners: seq<Manifest>, i: nat, p: Bytes)
    requires UserKeyOrder(winners) && i < |winners| && p <= winners[i].key.key
    ensures SkipIsBehind(winners, i + 1, Some(p))
  {
    PrefixLeq(p, winners[i].key.key);
    forall j | i + 1 <= j < |winners|
      ensures Leq(p, winners[j].key.key)
    {
      LeqLessTransitive(p, winners[i].key.key, winners[j].key.key);
      LessTotal(p, winners[j].key.key);
    }
  }

  /** An object that is not being skipped is listed, itself or by its common prefix. */
  lemma ListAt(winners: seq<Manifest>, i: nat, skip: Option<Bytes>, prefix: Bytes, delimiter: Option<Bytes>)
    requires AllUnder(winners, prefix) && UserKeyOrder(winners) && i < |winners| && winners[i].kind == Object
    requires SkipIsBehind(winners, i, skip) && !(skip.Some? && skip.value <= winners[i].key.key)
    ensures prefix <= winners[i].key.key
    ensures var item := ItemFor(winners[i], prefix, delimiter);
      && ItemsFrom(winners, i, skip, prefix, delimiter)
         == [item] + ItemsFrom(winners, i + 1, SkipFor(item), prefix, delimiter)
      && SkipIsBehind(winners, i + 1, SkipFor(item))
  {
    if skip.Some? {
      StopSkippingAt(winners, i, skip.value, prefix, delimiter);
    }
    EmitAt(winners, i, prefix, delimiter);
  }

  /** The items listed so far and those still to come make up the whole roll-up. */
  ghost predicate RolledTo(winners: seq<Manifest>, i: nat, skip: Option<Bytes>, prefix: Bytes,
        delimiter: Option<Bytes>, items: seq<ListItem>) {
    && UserKeyOrder(winners) && AllUnder(winners, prefix) && i <= |winners| && SkipIsBehind(winners, i, skip)
    && ItemsFrom(winners, 0, None, prefix, delimiter) == items + ItemsFrom(winners, i, skip, prefix, delimiter)
  }

  lemma RolledStart(winners: seq<Manifest>, prefix: Bytes, delimiter: Option<Bytes>)
    requires UserKeyOrder(winners) && AllUnder(winners, prefix)
    ensures RolledTo(winners, 0, None, prefix, delimiter, [])
  {
  }

  lemma RolledOver(winners: seq<Manifest>, i: nat, skip: Option<Bytes>, prefix: Bytes,
        delimiter: Option<Bytes>, items: seq<ListItem>)
    requires RolledTo(winners, i, skip, prefix, delimiter, items) && i < |winners|
    requires winners[i].kind != Object || (skip.Some? && skip.value <= winners[i].key.key)
    ensures RolledTo(winners, i + 1, skip, prefix, delimiter, items)
  {
    PassOverAt(winners, i, skip, prefix, delimiter);
  }

  /** One more item, which also is the one that a full page leaves to the next. */
  lemma RolledOn(winners: seq<Manifest>, i: nat, skip: Option<Bytes>, prefix: Bytes, delimiter: Option<Bytes>,
        items: seq<ListItem>)
    requires RolledTo(winners, i, skip, prefix, delimiter, items) && i < |winners|
    requires winners[i].kind == Object && !(skip.Some? && skip.value <= winners[i].key.key)
    ensures prefix <= winners[i].key.key
    ensures var item := ItemFor(winners[i], prefix, delimiter);
      RolledTo(winners, i + 1, SkipFor(item), prefix, delimiter, items + [item])
    ensures PageOf(ItemsFrom(winners, 0, None, prefix, delimiter), |items|)
         == Page(items, true, if items == [] then None else Some(CursorOf(items[|items| - 1])))
  {
    ListAt(winners, i, skip, prefix, delimiter);
    var item := ItemFor(winners[i], prefix, delimiter);
    var rest := ItemsFrom(winners, i + 1, SkipFor(item), prefix, delimiter);
    assert items + ([item] + rest) == items + [item] + rest;
    assert (items + ([item] + rest))[..|items|] == items;
  }

  lemma RolledUp(winners: seq<Manifest>, skip: Option<Bytes>, prefix: Bytes, delimiter: Option<Bytes>,
        items: seq<ListItem>)
    requires RolledTo(winners, |winners|, skip, prefix, delimiter, items)
    ensures ItemsFrom(winners, 0, None, prefix, delimiter) == items
  {
    assert winners[|winners|..] == [];
    assert items + [] == items;
  }
}
