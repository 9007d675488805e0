/** Part uploads that name a committed version (src/storage/db/actor.rs:449-478): nothing asks whether the
    manifest is still in progress. When they change the content, and what follows for retained versions. */
module Overwrites {
  import opened Results
  import opened ByteStrings
  import opened Sequences
  import opened Manifests
  import opened Refcounts
  import opened Transactions
  import opened Scans
  import opened Reads
  import opened Collection
  import opened Handlers
  import opened Uploads
  import opened Invariants
  import opened LockSafety
  import opened Content

  // ---- the part list after an append ----

  lemma AscendingPartsUnique(a: seq<PartRef>, b: seq<PartRef>)
    requires PartsAscend(a) && PartsAscend(b) && forall p :: p in a <==> p in b
    ensures a == b
  {
    IncreasingUnique(a, b, (x: PartRef, y: PartRef) => x.partNumber < y.partNumber);
  }

  /** How many parts come before the given number. */
  function Before(refs: seq<PartRef>, number: u32): (n: nat)
    ensures n <= |refs|
  {
    if refs == [] || refs[0].partNumber >= number then 0 else 1 + Before(refs[1..], number)
  }

  lemma {:induction false} BeforeSplits(refs: seq<PartRef>, number: u32)
    requires PartsAscend(refs)
    ensures forall i :: 0 <= i < Before(refs, number) ==> refs[i].partNumber < number
    ensures forall i :: Before(refs, number) <= i < |refs| ==> refs[i].partNumber >= number
  {
    if refs != [] && refs[0].partNumber < number {
      BeforeSplits(refs[1..], number);
      assert forall i :: 0 < i < |refs| ==> refs[i] == refs[1..][i - 1];
    }
  }

  /** The parts before a number, the one that has it, and those behind it. */
  function Front(refs: seq<PartRef>, number: u32): seq<PartRef> {
    refs[..Before(refs, number)]
  }

  function Middle(refs: seq<PartRef>, number: u32): seq<PartRef> {
    var n := Before(refs, number);
    if n < |refs| && refs[n].partNumber == number then [refs[n]] else []
  }

  function Back(refs: seq<PartRef>, number: u32): seq<PartRef> {
    refs[Before(refs, number) + |Middle(refs, number)|..]
  }

  lemma ThreeParts(refs: seq<PartRef>, number: u32)
    requires PartsAscend(refs)
    ensures refs == Front(refs, number) + Middle(refs, number) + Back(refs, number)
    ensures forall p :: p in Front(refs, number) ==> p.partNumber < number
    ensures forall p :: p in Middle(refs, number) ==> p.partNumber == number
    ensures forall p :: p in Back(refs, number) ==> p.partNumber > number
  {
    BeforeSplits(refs, number);
    var n := Before(refs, number);
    if n < |refs| && refs[n].partNumber == number {
      assert refs == refs[..n] + [refs[n]] + refs[n + 1..];
      BehindAscends(refs, n);
    } else {
      assert refs == refs[..n] + [] + refs[n..];
      if n < |refs| {
        BehindAscends(refs, n);
        assert refs[n..] == [refs[n]] + refs[n + 1..];
      }
    }
  }

  lemma BehindAscends(refs: seq<PartRef>, n: nat)
    requires PartsAscend(refs) && n < |refs|
    ensures forall p :: p in refs[n + 1..] ==> p.partNumber > refs[n].partNumber
  {
  }

  lemma AscendAround(front: seq<PartRef>, p: PartRef, back: seq<PartRef>)
    requires PartsAscend(front) && PartsAscend(back)
    requires forall q :: q in front ==> q.partNumber < p.partNumber
    requires forall q :: q in back ==> q.partNumber > p.partNumber
    ensures PartsAscend(front + [p] + back)
  {
    var all := front + [p] + back;
    forall i, j | 0 <= i < j < |all|
      ensures all[i].partNumber < all[j].partNumber
    {
      assert i < |front| ==> all[i] == front[i] && front[i] in front;
      assert j > |front| ==> all[j] == back[j - |front| - 1] && back[j - |front| - 1] in back;
      assert j < |front| ==> all[j] == front[j];
      assert i > |front| ==> all[i] == back[i - |front| - 1];
    }
  }

  /** An append puts the new part between those before and those behind it. */
  lemma WithPartBetween(m: Manifest, p: PartRef, now: Time)
    requires PartsAscend(m.parts)
    ensures WithPart(m, p, now).parts == Front(m.parts, p.partNumber) + [p] + Back(m.parts, p.partNumber)
  {
    var front, middle, back := Front(m.parts, p.partNumber), Middle(m.parts, p.partNumber), Back(m.parts, p.partNumber);
    ThreeParts(m.parts, p.partNumber);
    AppendKeepsOrder(m, p, now);
    AscendAround(front, p, back);
    forall q
      ensures q in front + [p] + back <==> q in WithPart(m, p, now).parts
    {
      assert q in m.parts <==> q in front || q in middle || q in back;
    }
    AscendingPartsUnique(WithPart(m, p, now).parts, front + [p] + back);
  }

  // ---- the content after an append ----

  lemma {:induction false} AssembleConcat(files: Files, a: seq<PartRef>, b: seq<PartRef>)
    requires AllPresent(files, a) && AllPresent(files, b)
    ensures AllPresent(files, a + b) && Assemble(files, a + b) == Assemble(files, a) + Assemble(files, b)
  {
    if a == [] {
      assert a + b == b;
    } else {
      assert (a + b)[1..] == a[1..] + b && (a + b)[0] == a[0];
      assert a[0].hash in files;
      assert forall i :: 0 <= i < |a[1..]| ==> a[1..][i] == a[i + 1];
      AssembleConcat(files, a[1..], b);
      PresentCons(files, a[0], a[1..] + b);
      assert [a[0]] + (a[1..] + b) == a + b;
    }
  }

  lemma PresentCons(files: Files, p: PartRef, refs: seq<PartRef>)
    requires p.hash in files && AllPresent(files, refs)
    ensures AllPresent(files, [p] + refs) && Assemble(files, [p] + refs) == files[p.hash] + Assemble(files, refs)
  {
    assert ([p] + refs)[1..] == refs;
  }

  lemma PresentParts(files: Files, a: seq<PartRef>, b: seq<PartRef>)
    requires AllPresent(files, a + b)
    ensures AllPresent(files, a) && AllPresent(files, b)
  {
    assert forall i :: 0 <= i < |a| ==> (a + b)[i] == a[i];
    assert forall i :: 0 <= i < |b| ==> (a + b)[|a| + i] == b[i];
  }

  lemma Cancel(a: Bytes, x: Bytes, y: Bytes, c: Bytes)
    ensures a + x + c == a + y + c <==> x == y
  {
    if a + x + c == a + y + c {
      assert |x| == |y|;
      assert x == (a + x + c)[|a|..|a| + |x|] == (a + y + c)[|a|..|a| + |y|] == y;
    }
  }

  lemma ThreeContents(files: Files, a: seq<PartRef>, x: seq<PartRef>, c: seq<PartRef>)
    requires AllPresent(files, a) && AllPresent(files, x) && AllPresent(files, c)
    ensures AllPresent(files, a + x + c)
    ensures Assemble(files, a + x + c) == Assemble(files, a) + Assemble(files, x) + Assemble(files, c)
  {
    AssembleConcat(files, a, x);
    AssembleConcat(files, a + x, c);
  }

  /** The bytes that a part number stands for so far: those of its part, or none. */
  function BytesAt(files: Files, refs: seq<PartRef>, number: u32): Bytes
    requires AllPresent(files, refs)
  {
    match Position(refs, number)
    case None => []
    case Some(i) => files[refs[i].hash]
  }

  lemma AscendNoLater(refs: seq<PartRef>, n: int, i: int)
    requires PartsAscend(refs) && 0 <= n < |refs| && 0 <= i < |refs|
    ensures refs[n].partNumber >= refs[i].partNumber ==> i <= n
  {
  }

  lemma MiddleContent(files: Files, refs: seq<PartRef>, number: u32)
    requires PartsAscend(refs) && AllPresent(files, refs)
    ensures AllPresent(files, Middle(refs, number)) && Assemble(files, Middle(refs, number))
         == BytesAt(files, refs, number)
  {
    BeforeSplits(refs, number);
    PositionFinds(refs, number);
    var n := Before(refs, number);
    if Position(refs, number).Some? {
      var i := Position(refs, number).value;
      AscendNoLater(refs, n, i);
      assert i == n && Middle(refs, number) == [refs[n]] && [refs[n]][1..] == [];
      assert files[refs[n].hash] + [] == files[refs[n].hash];
    } else if n < |refs| {
      assert refs[n] in refs;
    }
  }

  lemma SwapContents(files: Files, a: seq<PartRef>, x: seq<PartRef>, y: seq<PartRef>, c: seq<PartRef>)
    requires AllPresent(files, a + x + c) && AllPresent(files, y)
    ensures AllPresent(files, a + y + c) && AllPresent(files, x)
    ensures Assemble(files, a + y + c) == Assemble(files, a + x + c) <==> Assemble(files, y) == Assemble(files, x)
  {
    PresentParts(files, a + x, c);
    PresentParts(files, a, x);
    ThreeContents(files, a, x, c);
    ThreeContents(files, a, y, c);
    Cancel(Assemble(files, a), Assemble(files, y), Assemble(files, x), Assemble(files, c));
  }

  lemma OneContent(files: Files, p: PartRef)
    requires p.hash in files
    ensures AllPresent(files, [p]) && Assemble(files, [p]) == files[p.hash]
  {
    assert [p][1..] == [];
    assert files[p.hash] + [] == files[p.hash];
  }

  /** Exchanging one part keeps the content exactly if the bytes are those that were there. */
  lemma SwapKeepsContentIff(files: Files, m: Manifest, p: PartRef, now: Time)
    requires PartsAscend(m.parts) && AllPresent(files, m.parts) && p.hash in files
    ensures AllPresent(files, WithPart(m, p, now).parts)
    ensures Assemble(files, WithPart(m, p, now).parts) == Assemble(files, m.parts)
       <==> files[p.hash] == BytesAt(files, m.parts, p.partNumber)
  {
    var n := p.partNumber;
    ThreeParts(m.parts, n);
    WithPartBetween(m, p, now);
    OneContent(files, p);
    SwapContents(files, Front(m.parts, n), Middle(m.parts, n), [p], Back(m.parts, n));
    MiddleContent(files, m.parts, n);
  }

  // ---- part uploads ----

  /** What refuses a part upload to an existing manifest: its number, or a part that is being collected. */
  predicate UploadRefused(s: Site, number: u32, body: Bytes) {
    number == 0 || number > 10_000 || Pending(s.tables.parts, s.digests.contentHash(body))
  }

  lemma UploadSucceedsIff(s: Site, key: ManifestKey, number: u32, body: Bytes, env: Env)
    ensures UploadPart(s, key, number, body, env).reply.Success?
       <==> Encode(key) in s.tables.objects && !UploadRefused(s, number, body)
  {
  }

  /** The content of the version under a key, if there is one and all its parts are there. */
  function ContentAt(s: Site, key: ManifestKey): Option<Bytes> {
    var k := Encode(key);
    if k in s.tables.objects && AllPresent(s.files, s.tables.objects[k].parts)
    then Some(Assemble(s.files, s.tables.objects[k].parts))
    else None
  }

  /** The upload is refused, or brings the bytes that its number stands for already. */
  predicate Harmless(s: Site, key: ManifestKey, number: u32, body: Bytes)
    requires Encode(key) in s.tables.objects && AllPresent(s.files, s.tables.objects[Encode(key)].parts)
  {
    UploadRefused(s, number, body) || BytesAt(s.files, s.tables.objects[Encode(key)].parts, number) == body
  }

  lemma HealthyContent(s: Site, key: ManifestKey)
    requires Healthy(s) && Encode(key) in s.tables.objects
    ensures var m := s.tables.objects[Encode(key)];
      && Has(s.tables.objects, m) && PartsAscend(m.parts)
      && AllPresent(s.files, m.parts) && ContentAt(s, key) == Some(Assemble(s.files, m.parts))
  {
    var m := s.tables.objects[Encode(key)];
    assert Has(s.tables.objects, m) && RowOk(s, m);
    RowsAreReadable(s, m);
  }

  lemma RefusedUploadKeepsContent(s: Site, key: ManifestKey, number: u32, body: Bytes, env: Env)
    requires Healthy(s) && CollisionFree(s.digests) && Encode(key) in s.tables.objects && UploadRefused(s, number, body)
    ensures ContentAt(UploadPart(s, key, number, body, env).site, key) == ContentAt(s, key)
  {
    var s' := UploadPart(s, key, number, body, env).site;
    HealthyContent(s, key);
    UploadSucceedsIff(s, key, number, body, env);
    WrittenKeepsHealth(s, body, number);
    HealthyContent(Written(s, body), key);
    ContentIsStable(s, Written(s, body), s.tables.objects[Encode(key)].parts);
  }

  lemma WrittenContent(s: Site, body: Bytes)
    requires Healthy(s) && CollisionFree(s.digests)
    ensures var h := s.digests.contentHash(body); h in Written(s, body).files && Written(s, body).files[h] == body
  {
    var s1, h := Written(s, body), s.digests.contentHash(body);
    WrittenKeepsHealth(s, body, 1);
    assert s.digests.contentHash(s1.files[h]) == s.digests.contentHash(body);
  }

  lemma AcceptedUploadContent(s: Site, key: ManifestKey, number: u32, body: Bytes, env: Env)
    requires Healthy(s) && CollisionFree(s.digests) && ProperKey(key)
    requires RequestFits(s, CallUploadPart(key, number, body))
    requires Encode(key) in s.tables.objects && !UploadRefused(s, number, body)
    ensures var m' := WithPart(s.tables.objects[Encode(key)], PartOf(s, number, body), env.now);
      && AllPresent(Written(s, body).files, m'.parts)
      && ContentAt(UploadPart(s, key, number, body, env).site, key) == Some(Assemble(Written(s, body).files, m'.parts))
  {
    var s1, s' := Written(s, body), UploadPart(s, key, number, body, env).site;
    var m, p := s.tables.objects[Encode(key)], PartOf(s, number, body);
    UploadSucceedsIff(s, key, number, body, env);
    UploadPartKeepsHealth(s, key, number, body, env);
    AppendedRow(s.tables, key, p, env.now);
    assert s'.tables.objects[Encode(key)] == WithPart(m, p, env.now);
    HealthyContent(s', key);
    WrittenKeepsHealth(s, body, number);
    HealthyContent(s1, key);
    SwapKeepsContentIff(s1.files, m, p, env.now);
    HandlersKeepDigests(s, CallUploadPart(key, number, body), env);
    ContentIsStable(s', s1, WithPart(m, p, env.now).parts);
  }

  /** A part upload to an existing manifest, of whatever state, keeps the content exactly if it is refused
      or brings the bytes that its number stands for already: those of the part with this number, or none
      if there is no such part. */
  lemma UploadPartKeepsContentIff(s: Site, key: ManifestKey, number: u32, body: Bytes, env: Env)
    requires Healthy(s) && CollisionFree(s.digests) && ProperKey(key)
    requires RequestFits(s, CallUploadPart(key, number, body))
    requires Encode(key) in s.tables.objects && AllPresent(s.files, s.tables.objects[Encode(key)].parts)
    ensures ContentAt(UploadPart(s, key, number, body, env).site, key) == ContentAt(s, key)
       <==> Harmless(s, key, number, body)
  {
    if UploadRefused(s, number, body) {
      RefusedUploadKeepsContent(s, key, number, body, env);
    } else {
      var s1 := Written(s, body);
      var m, p := s.tables.objects[Encode(key)], PartOf(s, number, body);
      AcceptedUploadContent(s, key, number, body, env);
      WrittenContent(s, body);
      WrittenKeepsHealth(s, body, number);
      HealthyContent(s, key);
      HealthyContent(s1, key);
      SwapKeepsContentIff(s1.files, m, p, env.now);
      ContentIsStable(s, s1, m.parts);
      SameBytesAt(s, s1, m.parts, number);
    }
  }

  lemma SameBytesAt(s: Site, later: Site, refs: seq<PartRef>, number: u32)
    requires Addressed(s) && Addressed(later) && s.digests == later.digests && CollisionFree(s.digests)
    requires AllPresent(s.files, refs) && AllPresent(later.files, refs)
    ensures BytesAt(s.files, refs, number) == BytesAt(later.files, refs, number)
  {
    var at := Position(refs, number);
    if at.Some? {
      var h := refs[at.value].hash;
      assert s.digests.contentHash(s.files[h]) == h == later.digests.contentHash(later.files[h]);
    }
  }

  // ---- whole runs ----

  /** Every part upload of the run that names the key is harmless when it comes. */
  ghost predicate HarmlessRun(s: Site, requests: seq<Request>, key: ManifestKey)
    decreases |requests|
  {
    requests == [] ||
    (var r := requests[0];
     && (r.call.CallUploadPart? && r.call.target == key ==>
          ContentAt(s, key).Some? && Harmless(s, key, r.call.number, r.call.body))
     && HarmlessRun(Handle(s, r.call, r.env).site, requests[1..], key))
  }

  lemma RetainedStep(s: Site, r: Request, key: ManifestKey, until: Time)
    requires Healthy(s) && CollisionFree(s.digests) && Admissible(s, r)
    requires key.versionId != NULL_VERSION && RetainedThere(s, key, until) && r.env.now < until
    ensures var s' := Handle(s, r.call, r.env).site;
      && Healthy(s') && s'.digests == s.digests && RetainedThere(s', key, until)
      && (!(r.call.CallUploadPart? && r.call.target == key) ==>
           s'.tables.objects[Encode(key)].parts == s.tables.objects[Encode(key)].parts)
  {
    var m := s.tables.objects[Encode(key)];
    HealthyContent(s, key);
    assert IsVersion(s, m) && m.Locked(r.env.now);
    VersionsSurvive(s, m, r.call, r.env);
    HandlersKeepHealth(s, r.call, r.env);
    HandlersKeepDigests(s, r.call, r.env);
    assert RetainedUntil(m, until);
  }

  lemma RetainedContentStep(s: Site, r: Request, key: ManifestKey, until: Time)
    requires Healthy(s) && CollisionFree(s.digests) && Admissible(s, r)
    requires key.versionId != NULL_VERSION && RetainedThere(s, key, until) && r.env.now < until
    requires HarmlessRun(s, [r], key)
    ensures ContentAt(Handle(s, r.call, r.env).site, key) == ContentAt(s, key)
  {
    var s' := Handle(s, r.call, r.env).site;
    HealthyContent(s, key);
    if r.call.CallUploadPart? && r.call.target == key {
      UploadPartKeepsContentIff(s, key, r.call.number, r.call.body, r.env);
    } else {
      RetainedStep(s, r, key, until);
      HealthyContent(s', key);
      ContentIsStable(s, s', s.tables.objects[Encode(key)].parts);
    }
  }

  /** A version retained throughout a run keeps its content byte for byte, if every part upload that names
      it is refused or brings the bytes that are there. */
  lemma {:induction false} RetainedContentStays(s: Site, requests: seq<Request>, key: ManifestKey, until: Time)
    requires Healthy(s) && CollisionFree(s.digests) && AllAdmissible(s, requests)
    requires key.versionId != NULL_VERSION && RetainedThere(s, key, until) && HarmlessRun(s, requests, key)
    requires forall i :: 0 <= i < |requests| ==> requests[i].env.now < until
    ensures ContentAt(s, key).Some? && ContentAt(Serve(s, requests), key) == ContentAt(s, key)
    decreases |requests|
  {
    HealthyContent(s, key);
    if requests != [] {
      var r := requests[0];
      assert [r][1..] == [];
      RetainedContentStep(s, r, key, until);
      RetainedStep(s, r, key, until);
      RetainedContentStays(Handle(s, r.call, r.env).site, requests[1..], key, until);
    }
  }
}
