/** Multipart uploads from the first part to the completed object (src/s3/multipart.rs:125-207,
    src/storage/db/actor.rs:437-485 and 661-749). */
module Uploads {
  import opened Results
  import opened ByteStrings
  import opened Manifests
  import opened KeyOrder
  import opened Refcounts
  import opened Transactions
  import opened Scans
  import opened Handlers

  predicate PartsAscend(refs: seq<PartRef>) {
    forall i, j :: 0 <= i < j < |refs| ==> refs[i].partNumber < refs[j].partNumber
  }

  lemma {:induction false} InsertByNumberMembers(p: PartRef, refs: seq<PartRef>)
    ensures forall q :: q in InsertByNumber(p, refs) <==> q == p || q in refs
  {
    if refs != [] {
      InsertByNumberMembers(p, refs[1..]);
      assert refs == [refs[0]] + refs[1..];
    }
  }

  lemma {:induction false} InsertByNumberSpec(p: PartRef, refs: seq<PartRef>)
    requires PartsAscend(refs) && forall q :: q in refs ==> q.partNumber != p.partNumber
    ensures PartsAscend(InsertByNumber(p, refs))
    ensures forall q :: q in InsertByNumber(p, refs) <==> q == p || q in refs
  {
    InsertByNumberMembers(p, refs);
    if refs != [] && p.partNumber > refs[0].partNumber {
      var rest := InsertByNumber(p, refs[1..]);
      InsertByNumberSpec(p, refs[1..]);
      assert forall q :: q in rest ==> refs[0].partNumber < q.partNumber;
      assert InsertByNumber(p, refs) == [refs[0]] + rest;
    }
  }

  lemma {:induction false} SortByNumberSpec(refs: seq<PartRef>)
    requires forall i, j :: 0 <= i < j < |refs| ==> refs[i].partNumber != refs[j].partNumber
    ensures PartsAscend(SortByNumber(refs))
    ensures forall q :: q in SortByNumber(refs) <==> q in refs
  {
    if refs != [] {
      assert refs == [refs[0]] + refs[1..];
      SortByNumberSpec(refs[1..]);
      forall q | q in SortByNumber(refs[1..])
        ensures q.partNumber != refs[0].partNumber
      {
        var i :| 0 <= i < |refs[1..]| && refs[1..][i] == q;
        assert refs[i + 1] == q;
      }
      InsertByNumberSpec(refs[0], SortByNumber(refs[1..]));
    }
  }

  lemma CutAt(refs: seq<PartRef>, i: nat)
    requires PartsAscend(refs) && i < |refs|
    ensures PartsAscend(refs[..i] + refs[i + 1..])
    ensures forall q :: q in refs[..i] + refs[i + 1..] <==> q in refs && q.partNumber != refs[i].partNumber
  {
    assert refs == refs[..i] + [refs[i]] + refs[i + 1..];
    forall q | q in refs[..i]
      ensures q.partNumber < refs[i].partNumber
    {
    }
    forall q | q in refs[i + 1..]
      ensures q.partNumber > refs[i].partNumber
    {
    }
  }

  lemma WithoutSpec(refs: seq<PartRef>, number: u32)
    requires PartsAscend(refs)
    ensures PartsAscend(Without(refs, number))
    ensures forall q :: q in Without(refs, number) <==> q in refs && q.partNumber != number
  {
    PositionFinds(refs, number);
    if Position(refs, number).Some? {
      CutAt(refs, Position(refs, number).value);
    }
  }

  lemma {:induction false} PositionFinds(refs: seq<PartRef>, number: u32)
    ensures Position(refs, number).None? <==> forall q :: q in refs ==> q.partNumber != number
  {
    if refs != [] {
      assert refs == [refs[0]] + refs[1..] && refs[0] in refs;
      PositionFinds(refs[1..], number);
    }
  }

  /** An append keeps the part numbers strictly ascending and the size right; the new part takes the
      place of the one with its number, every other part stays. */
  lemma AppendKeepsOrder(m: Manifest, p: PartRef, now: Time)
    requires PartsAscend(m.parts)
    ensures var after := WithPart(m, p, now);
      && PartsAscend(after.parts) && after.size == TotalSize(after.parts)
      && (forall q :: q in after.parts <==> q == p || (q in m.parts && q.partNumber != p.partNumber))
  {
    var kept := Without(m.parts, p.partNumber);
    WithoutSpec(m.parts, p.partNumber);
    forall i, j | 0 <= i < j < |kept + [p]|
      ensures (kept + [p])[i].partNumber != (kept + [p])[j].partNumber
    {
      assert kept[i] in kept;
    }
    SortByNumberSpec(kept + [p]);
  }

  // ---- a whole sequence of uploads ----

  datatype Upload = Upload(part: PartRef, at: Time)

  function AfterUploads(m: Manifest, uploads: seq<Upload>): Manifest {
    if uploads == [] then m
    else WithPart(AfterUploads(m, uploads[..|uploads| - 1]), uploads[|uploads| - 1].part, uploads[|uploads| - 1].at)
  }

  /** The part was uploaded, and its number was not used again. */
  predicate UploadedLast(uploads: seq<Upload>, p: PartRef) {
    exists i :: 0 <= i < |uploads| && uploads[i].part == p
                && forall j :: i < j < |uploads| ==> uploads[j].part.partNumber != p.partNumber
  }

  lemma UploadedLastSnoc(front: seq<Upload>, u: Upload, p: PartRef)
    ensures UploadedLast(front + [u], p)
       <==> p == u.part || (UploadedLast(front, p) && p.partNumber != u.part.partNumber)
  {
    var all := front + [u];
    if UploadedLast(front, p) && p.partNumber != u.part.partNumber {
      var i :| 0 <= i < |front| && front[i].part == p
               && forall j :: i < j < |front| ==> front[j].part.partNumber != p.partNumber;
      assert all[i].part == p && forall j :: i < j < |all| ==> all[j].part.partNumber != p.partNumber;
    }
    if p == u.part {
      assert all[|front|].part == p;
    }
    if UploadedLast(all, p) && p != u.part {
      var i :| 0 <= i < |all| && all[i].part == p
               && forall j :: i < j < |all| ==> all[j].part.partNumber != p.partNumber;
      assert all[|front|] == u && front[i].part == p;
      assert forall j :: i < j < |front| ==> front[j] == all[j];
    }
  }

  lemma UploadedLastSplit(uploads: seq<Upload>, p: PartRef)
    requires uploads != []
    ensures var front, u := uploads[..|uploads| - 1], uploads[|uploads| - 1];
      UploadedLast(uploads, p) <==> p == u.part || (UploadedLast(front, p) && p.partNumber != u.part.partNumber)
  {
    assert uploads == uploads[..|uploads| - 1] + [uploads[|uploads| - 1]];
    UploadedLastSnoc(uploads[..|uploads| - 1], uploads[|uploads| - 1], p);
  }

  /** After any uploads and re-uploads, the manifest holds for each number the part uploaded last under
      it, in strictly ascending order, and its size is the sum of the parts. */
  lemma {:induction false} LastUploadWins(m: Manifest, uploads: seq<Upload>)
    requires m.parts == [] && m.size == 0
    ensures var after := AfterUploads(m, uploads);
      && PartsAscend(after.parts) && after.size == TotalSize(after.parts)
      && (forall p :: p in after.parts <==> UploadedLast(uploads, p))
  {
    if uploads != [] {
      var front, u := uploads[..|uploads| - 1], uploads[|uploads| - 1];
      LastUploadWins(m, front);
      AppendKeepsOrder(AfterUploads(m, front), u.part, u.at);
      var after := AfterUploads(m, uploads);
      assert after == WithPart(AfterUploads(m, front), u.part, u.at);
      forall p
        ensures p in after.parts <==> UploadedLast(uploads, p)
      {
        UploadedLastSplit(uploads, p);
      }
    }
  }

  lemma AppendedRow(t: Tables, key: ManifestKey, p: PartRef, now: Time)
    requires AppendPart(t, key, p, now).Success?
    ensures Encode(key) in t.objects
    ensures AppendPart(t, key, p, now).value.tables.objects
         == t.objects[Encode(key) := WithPart(t.objects[Encode(key)], p, now)]
  {
  }

  /** In a well-formed table an append changes the one manifest with the named key and no other: the new
      part takes the place of the one with its number, and every other part stays. */
  lemma AppendReplacesPart(t: Tables, key: ManifestKey, p: PartRef, now: Time, m: Manifest)
    requires WellFormed(t.objects) && ProperKey(key) && AppendPart(t, key, p, now).Success?
    requires Has(t.objects, m) && PartsAscend(m.parts)
    ensures var o := AppendPart(t, key, p, now).value.tables.objects;
      && WellFormed(o) && o.Keys == t.objects.Keys
      && (m.key != key ==> Has(o, m))
      && (m.key == key ==>
           var after := o[Encode(key)];
           && after.key == key && after.state == m.state && after.objectLock == m.objectLock
           && PartsAscend(after.parts) && after.size == TotalSize(after.parts)
           && forall q :: q in after.parts <==> q == p || (q in m.parts && q.partNumber != p.partNumber))
  {
    AppendedRow(t, key, p, now);
    EncodeIsInjective(m.key, key);
    if m.key == key {
      AppendKeepsOrder(m, p, now);
    }
    EncodeIsInjective(t.objects[Encode(key)].key, key);
  }

  // ---- completion ----

  predicate Stands(p: PartRef, r: RequestedPart) {
    p.partNumber == r.partNumber && p.md5 == r.etag
  }

  lemma {:induction false} ChosenIff(parts: seq<PartRef>, r: RequestedPart, p: PartRef)
    requires PartsAscend(parts)
    ensures Chosen(parts, r) == Some(p) <==> p in parts && Stands(p, r)
  {
    PositionFinds(parts, r.partNumber);
    if p in parts && p.partNumber == r.partNumber {
      var i :| 0 <= i < |parts| && parts[i] == p;
      var j := Position(parts, r.partNumber).value;
      assert i < j || j < i || i == j;
    }
  }

  /** Some uploaded part answers to the request. */
  predicate Provided(parts: seq<PartRef>, r: RequestedPart) {
    exists p :: p in parts && Stands(p, r)
  }

  lemma ChosenProvided(parts: seq<PartRef>, r: RequestedPart)
    requires PartsAscend(parts)
    ensures Chosen(parts, r).Some? <==> Provided(parts, r)
    ensures Chosen(parts, r).Some? ==> Chosen(parts, r).value in parts && Stands(Chosen(parts, r).value, r)
  {
    if Chosen(parts, r).Some? {
      ChosenIff(parts, r, Chosen(parts, r).value);
    }
    forall p | p in parts && Stands(p, r)
      ensures Chosen(parts, r) == Some(p)
    {
      ChosenIff(parts, r, p);
    }
  }

  /** Selection succeeds exactly if every requested part was uploaded with the same digest, and then
      picks exactly those, in the requested order. */
  lemma {:induction false} SelectExactly(parts: seq<PartRef>, requested: seq<RequestedPart>)
    requires PartsAscend(parts)
    ensures Select(parts, requested).Some? <==> forall i :: 0 <= i < |requested| ==> Provided(parts, requested[i])
    ensures Select(parts, requested).Some? ==>
              var selected := Select(parts, requested).value;
              && |selected| == |requested|
              && (forall i :: 0 <= i < |selected| ==> selected[i] in parts && Stands(selected[i], requested[i]))
  {
    if requested != [] {
      SelectExactly(parts, requested[1..]);
      assert requested == [requested[0]] + requested[1..];
      ChosenProvided(parts, requested[0]);
      assert forall i :: 0 < i < |requested| ==> requested[i] == requested[1..][i - 1];
      assert forall i :: 0 <= i < |requested[1..]| ==> requested[1..][i] == requested[i + 1];
    }
  }

  /** In a consistent table no part of an upload is in the collector's hands. */
  lemma UploadHoldsItsParts(t: Tables, k: Bytes, p: PartRef)
    requires Consistent(t) && k in t.objects && p in t.objects[k].parts
    ensures !Pending(t.parts, p.hash)
  {
    assert Sound(t, p.hash);
    ReferencedIff(t.objects, p.hash);
    CountPositive(t.objects[k].parts, p.hash);
  }

  lemma CompletionIsNotRefused(t: Tables, key: ManifestKey, m: Manifest, now: Time)
    requires Consistent(t) && Encode(key) in t.objects && t.objects[Encode(key)].state == InProgress
    requires forall i :: 0 <= i < |m.parts| ==> m.parts[i] in t.objects[Encode(key)].parts
    ensures CompleteMultipart(t, key, m, now).Success?
  {
    var dropped := Dropped(t.objects, Encode(key), Encode(m.key));
    var lowered := DecrementAll(t.parts, dropped).0;
    IncrementAllRefusal(lowered, m.parts, now);
    forall i | 0 <= i < |m.parts|
      ensures !Pending(lowered, m.parts[i].hash)
    {
      DecrementAllAt(t.parts, dropped, m.parts[i].hash);
      UploadHoldsItsParts(t, Encode(key), m.parts[i]);
    }
  }

  ghost predicate AllUploaded(upload: Manifest, requested: seq<RequestedPart>) {
    forall i :: 0 <= i < |requested| ==> Provided(upload.parts, requested[i])
  }

  /** A completion succeeds exactly if it names at least one part, in ascending order from 1 on, the
      upload is in progress, and every named part was uploaded with that digest. */
  lemma CompletionSucceedsIff(s: Site, key: ManifestKey, requested: seq<RequestedPart>, env: Env)
    requires Consistent(s.tables)
    requires UploadAt(s, key).Some? ==> PartsAscend(UploadAt(s, key).value.parts)
    ensures CompleteUpload(s, key, requested, env).reply.Success?
       <==> requested != [] && InOrder(requested) && UploadAt(s, key).Some?
            && AllUploaded(UploadAt(s, key).value, requested)
  {
    var upload := UploadAt(s, key);
    if upload.Some? {
      SelectExactly(upload.value.parts, requested);
      var selected := Select(upload.value.parts, requested);
      if selected.Some? {
        CompletionIsNotRefused(s.tables, key, Completed(upload.value, key, selected.value, env.now), env.now);
      }
    }
  }

  /** A successful completion replaces the upload's row by an object at the "null" version, made of
      exactly the requested parts in strictly ascending order; no other row changes. */
  lemma CompletionIsExact(s: Site, key: ManifestKey, requested: seq<RequestedPart>, env: Env)
    requires UploadAt(s, key).Some? ==> PartsAscend(UploadAt(s, key).value.parts)
    requires CompleteUpload(s, key, requested, env).reply.Success? && key.versionId != NULL_VERSION && ProperKey(key)
    ensures var o, o' := s.tables.objects, CompleteUpload(s, key, requested, env).site.tables.objects;
      var c := Encode(ManifestKey(key.bucket, key.key, NULL_VERSION));
      && o'.Keys == o.Keys - {Encode(key)} + {c}
      && (forall k :: k in o' && k != c ==> o'[k] == o[k])
      && o'[c].state == Committed && o'[c].kind == Object
      && |o'[c].parts| == |requested|
      && (forall i :: 0 <= i < |requested| ==>
            o'[c].parts[i] in o[Encode(key)].parts && Stands(o'[c].parts[i], requested[i]))
      && PartsAscend(o'[c].parts) && o'[c].size == TotalSize(o'[c].parts)
  {
    var upload := UploadAt(s, key).value;
    SelectExactly(upload.parts, requested);
    var m := Completed(upload, key, Select(upload.parts, requested).value, env.now);
    if Encode(key) == Encode(m.key) {
      EncodeIsInjective(key, m.key);
    }
    assert CompleteUpload(s, key, requested, env).site.tables.objects
         == s.tables.objects[Encode(m.key) := m] - {Encode(key)};
  }
}
