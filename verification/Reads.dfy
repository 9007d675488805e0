/** Byte ranges: parsing them, and reading them from objects made of several parts
    (src/s3/object.rs:203-245 and 508-570, src/s3/copy.rs:267-330). */
module Reads {
  import opened Results
  import opened ByteStrings
  import opened Manifests
  import opened Transactions

  datatype ReadError = PartMissing | Underflow

  predicate AllPresent(files: map<Hash, Bytes>, refs: seq<PartRef>) {
    forall i :: 0 <= i < |refs| ==> refs[i].hash in files
  }

  /** Every stored file has the size its references record. */
  predicate SizesRecorded(files: map<Hash, Bytes>, refs: seq<PartRef>) {
    forall i :: 0 <= i < |refs| && refs[i].hash in files ==> |files[refs[i].hash]| == refs[i].size
  }

  /** The content of a list of parts, put together. */
  function Assemble(files: map<Hash, Bytes>, refs: seq<PartRef>): (content: Bytes)
    requires AllPresent(files, refs)
    ensures SizesRecorded(files, refs) ==> |content| == TotalSize(refs)
  {
    if refs == [] then []
    else
      assert refs[0].hash in files;
      files[refs[0].hash] + Assemble(files, refs[1..])
  }

  /** The bytes of `s` at positions `lo` to `hi - 1`, as far as there are any. */
  function Clip(s: Bytes, lo: nat, hi: nat): Bytes
    requires lo <= hi
  {
    if |s| <= lo then [] else if |s| <= hi then s[lo..] else s[lo..hi]
  }

  lemma ClipIsSlice(s: Bytes, lo: nat, hi: nat)
    requires lo <= hi <= |s|
    ensures Clip(s, lo, hi) == s[lo..hi]
  {
  }

  /** The whole content, or the part of it between two bounds. */
  function Cut(content: Bytes, bounds: Option<(nat, nat)>): Bytes
    requires bounds.Some? ==> bounds.value.0 <= bounds.value.1
  {
    match bounds
    case None => content
    case Some((a, b)) => Clip(content, a, b + 1)
  }

  function Minus(a: nat, b: nat): nat {
    if a < b then 0 else a - b
  }

  lemma ClipConcat(s: Bytes, t: Bytes, lo: nat, hi: nat)
    requires lo <= hi
    ensures Clip(s + t, lo, hi) == Clip(s, lo, hi) + Clip(t, Minus(lo, |s|), Minus(hi, |s|))
  {
  }

  /** The piece that the program cuts out of a part lying at `offset`. */
  function Piece(part: Bytes, offset: nat, start: nat, end: nat): Bytes
    requires start <= end && offset + |part| > 0
  {
    var partEnd := offset + |part| - 1;
    if partEnd < start || offset > end then []
    else part[(if offset < start then start - offset else 0)..(if partEnd > end then end - offset + 1 else |part|)]
  }

  lemma PieceIsClip(part: Bytes, offset: nat, start: nat, end: nat)
    requires start <= end && offset + |part| > 0
    ensures Piece(part, offset, start, end) == Clip(part, Minus(start, offset), Minus(end + 1, offset))
  {
  }

  /** Adding a part to what was read so far. */
  lemma NextPiece(seen: Bytes, part: Bytes, start: nat, end: nat)
    requires start <= end && |seen| + |part| > 0
    ensures Clip(seen + part, start, end + 1) == Clip(seen, start, end + 1) + Piece(part, |seen|, start, end)
  {
    ClipConcat(seen, part, start, end + 1);
    PieceIsClip(part, |seen|, start, end);
  }

  /** The part at position `i` is opened when bytes `start` to `end` are read. */
  predicate Opened(refs: seq<PartRef>, i: int, start: nat, end: nat) {
    0 <= i < |refs| && var offset := TotalSize(refs[..i]); start < offset + refs[i].size && offset <= end
  }

  lemma {:induction false} TotalSizeConcat(a: seq<PartRef>, b: seq<PartRef>)
    ensures TotalSize(a + b) == TotalSize(a) + TotalSize(b)
  {
    if a == [] {
      assert a + b == b;
    } else {
      assert (a + b)[1..] == a[1..] + b;
      TotalSizeConcat(a[1..], b);
    }
  }

  lemma TotalSizeNext(refs: seq<PartRef>, i: nat)
    requires i < |refs|
    ensures TotalSize(refs[..i + 1]) == TotalSize(refs[..i]) + refs[i].size
  {
    assert refs[..i + 1] == refs[..i] + [refs[i]];
    assert [refs[i]][1..] == [];
    TotalSizeConcat(refs[..i], [refs[i]]);
  }

  /** The loop has come to part `i` at offset `cursor`, and all files it opened were there. */
  ghost predicate Reached(files: map<Hash, Bytes>, refs: seq<PartRef>, i: nat, cursor: nat, start: nat, end: nat) {
    && i <= |refs| && cursor == TotalSize(refs[..i])
    && (forall j :: j < i && Opened(refs, j, start, end) ==> refs[j].hash in files)
  }

  lemma ReachedNext(files: map<Hash, Bytes>, refs: seq<PartRef>, i: nat, cursor: nat, start: nat, end: nat)
    requires Reached(files, refs, i, cursor, start, end) && i < |refs|
    ensures Opened(refs, i, start, end) <==> start < cursor + refs[i].size && cursor <= end
    ensures Opened(refs, i, start, end) ==> refs[i].hash in files ==>
              Reached(files, refs, i + 1, cursor + refs[i].size, start, end)
    ensures !Opened(refs, i, start, end) ==> Reached(files, refs, i + 1, cursor + refs[i].size, start, end)
  {
    TotalSizeNext(refs, i);
  }

  /** Where the part-wise loop stands before part `i`, if no file is missing: `seen` is the content of
      the parts before it, and `out` what the range takes from that. */
  ghost predicate StandsAt(files: map<Hash, Bytes>, refs: seq<PartRef>, i: nat, seen: Bytes, cursor: nat,
        out: Bytes, start: nat, end: nat)
    requires start <= end && i <= |refs|
  {
    AllPresent(files, refs) ==>
      && Assemble(files, refs) == seen + Assemble(files, refs[i..])
      && |seen| == cursor && out == Clip(seen, start, end + 1)
  }

  lemma LoopStep(files: map<Hash, Bytes>, refs: seq<PartRef>, i: nat, seen: Bytes, cursor: nat, out: Bytes,
        start: nat, end: nat)
    requires start <= end && i < |refs| && StandsAt(files, refs, i, seen, cursor, out, start, end)
    requires AllPresent(files, refs) && SizesRecorded(files, refs) && cursor + refs[i].size > 0
    ensures var part := files[refs[i].hash];
      && |part| == refs[i].size
      && (cursor + |part| - 1 < start || cursor > end ==>
           StandsAt(files, refs, i + 1, seen + part, cursor + |part|, out, start, end))
      && (!(cursor + |part| - 1 < start || cursor > end) ==>
           var from := if cursor < start then start - cursor else 0;
           var to := if cursor + |part| - 1 > end then end - cursor + 1 else |part|;
           StandsAt(files, refs, i + 1, seen + part, cursor + |part|, out + part[from..to], start, end))
  {
    AssembleStep(files, refs, i, seen);
    NextPiece(seen, files[refs[i].hash], start, end);
    assert out + [] == out;
  }

  /** Reading the parts one by one. The arithmetic is the program's: an empty part at the very start
      makes `cursor + size - 1` underflow; any other empty part is harmless. */
  method ReadSourceRange(files: map<Hash, Bytes>, m: Manifest, start: nat, end: nat)
    returns (r: Result<Bytes, ReadError>)
    requires m.size == TotalSize(m.parts) && start <= end < m.size
    requires SizesRecorded(files, m.parts)
    ensures m.parts != [] && (m.parts[0].size == 0 <==> r == Failure(Underflow))
    ensures m.parts[0].size > 0 ==>
              (r == Failure(PartMissing) <==> exists i :: Opened(m.parts, i, start, end) && m.parts[i].hash !in files)
    ensures AllPresent(files, m.parts) && m.parts[0].size > 0 ==> r == Success(Assemble(files, m.parts)[start..end + 1])
  {
    var out: Bytes := [];
    var cursor: nat := 0;
    var i := 0;
    ghost var seen: Bytes := [];
    assert m.parts[0..] == m.parts;
    while i < |m.parts|
      invariant 0 <= i <= |m.parts|
      invariant Reached(files, m.parts, i, cursor, start, end)
      invariant if i == 0 then cursor == 0 else cursor > 0 && m.parts[0].size > 0
      invariant StandsAt(files, m.parts, i, seen, cursor, out, start, end)
    {
      var p := m.parts[i];
      var partStart := cursor;
      ReachedNext(files, m.parts, i, cursor, start, end);
      if cursor + p.size == 0 {
        return Failure(Underflow);
      }
      if AllPresent(files, m.parts) {
        LoopStep(files, m.parts, i, seen, cursor, out, start, end);
        seen := seen + files[p.hash];
      }
      var partEnd := cursor + p.size - 1;
      cursor := cursor + p.size;
      i := i + 1;
      if partEnd < start || partStart > end {
        continue;
      }
      var localStart := if partStart < start then start - partStart else 0;
      var localEnd := if partEnd > end then end - partStart + 1 else p.size;
      if p.hash !in files {
        return Failure(PartMissing);
      }
      out := out + files[p.hash][localStart..localEnd];
    }
    EndOfLoop(files, m, seen, cursor, out, start, end);
    r := Success(out);
  }

  lemma EndOfLoop(files: map<Hash, Bytes>, m: Manifest, seen: Bytes, cursor: nat, out: Bytes, start: nat, end: nat)
    requires m.size == TotalSize(m.parts) && start <= end < m.size && SizesRecorded(files, m.parts)
    requires StandsAt(files, m.parts, |m.parts|, seen, cursor, out, start, end)
    ensures m.parts != []
    ensures AllPresent(files, m.parts) ==> out == Assemble(files, m.parts)[start..end + 1]
  {
    if AllPresent(files, m.parts) {
      assert Assemble(files, []) == [];
      assert seen == Assemble(files, m.parts);
    }
  }

  lemma AssembleStep(files: map<Hash, Bytes>, refs: seq<PartRef>, i: nat, seen: Bytes)
    requires AllPresent(files, refs) && i < |refs|
    ensures seen + Assemble(files, refs[i..]) == seen + files[refs[i].hash] + Assemble(files, refs[i + 1..])
  {
    assert refs[i..][1..] == refs[i + 1..];
  }

  /** A GET assembles the whole object and then slices; its Content-Length is `end - start + 1`, or
      the size when there is no range. */
  method GetBody(files: map<Hash, Bytes>, m: Manifest, range: Option<(nat, nat)>) returns (r: Result<Bytes, ReadError>)
    requires m.size == TotalSize(m.parts) && SizesRecorded(files, m.parts)
    requires range.Some? ==> range.value.0 <= range.value.1 < m.size
    ensures r.Success? <==> AllPresent(files, m.parts)
    ensures r.Success? ==> r.value == Cut(Assemble(files, m.parts), range)
    ensures r.Success? ==> |r.value| == if range.Some? then range.value.1 - range.value.0 + 1 else m.size
  {
    var buf: Bytes := [];
    var i := 0;
    assert m.parts[0..] == m.parts;
    while i < |m.parts|
      invariant 0 <= i <= |m.parts|
      invariant forall j :: 0 <= j < i ==> m.parts[j].hash in files
      invariant AllPresent(files, m.parts) ==> Assemble(files, m.parts) == buf + Assemble(files, m.parts[i..])
    {
      if m.parts[i].hash !in files {
        return Failure(PartMissing);
      }
      if AllPresent(files, m.parts) {
        AssembleStep(files, m.parts, i, buf);
      }
      buf := buf + files[m.parts[i].hash];
      i := i + 1;
    }
    assert buf == Assemble(files, m.parts) by {
      assert Assemble(files, m.parts[i..]) == [];
    }
    if range.Some? {
      ClipIsSlice(buf, range.value.0, range.value.1 + 1);
      return Success(buf[range.value.0..range.value.1 + 1]);
    }
    r := Success(buf);
  }

  // ---- range headers ----

  datatype RangeSpec = FromTo(first: nat, last: nat) | From(first: nat) | Suffix(length: nat)

  datatype RangeError = BadRange

  const U64_MAX: nat := 0xFFFF_FFFF_FFFF_FFFF

  predicate IsDigit(b: byte) {
    48 <= b <= 57
  }

  function DecimalValue(s: Bytes): nat
    requires forall i :: 0 <= i < |s| ==> IsDigit(s[i])
  {
    if s == [] then 0
    else
      assert IsDigit(s[|s| - 1]);
      10 * DecimalValue(s[..|s| - 1]) + (s[|s| - 1] as int - 48)
  }

  function Digits(s: Bytes): Bytes {
    if s != [] && s[0] == 43 then s[1..] else s
  }

  /** `u64::parse`: an optional plus sign, at least one digit, at most 64 bits. */
  function ParseU64(s: Bytes): Option<nat> {
    var digits := Digits(s);
    if digits != [] && (forall i :: 0 <= i < |digits| ==> IsDigit(digits[i])) && DecimalValue(digits) <= U64_MAX
    then Some(DecimalValue(digits))
    else None
  }

  function IndexOf(s: Bytes, b: byte): (r: Option<nat>)
    ensures r.Some? ==> r.value < |s| && s[r.value] == b && b !in s[..r.value]
    ensures r.None? ==> b !in s
  {
    if s == [] then None
    else if s[0] == b then Some(0)
    else
      match IndexOf(s[1..], b)
      case None => None
      case Some(i) =>
        assert s[..i + 1] == [s[0]] + s[1..][..i];
        Some(i + 1)
  }

  /** "bytes=" */
  const UNIT: Bytes := [98, 121, 116, 101, 115, 61]

  const MINUS: byte := 45

  const COMMA: byte := 44

  /** The grammar that `Range` accepts: one range with at least one bound. */
  function ParseSpec(value: Bytes): Result<RangeSpec, RangeError> {
    if !(UNIT <= value) then Failure(BadRange)
    else
      var spec := value[|UNIT|..];
      if COMMA in spec then Failure(BadRange)
      else
        match IndexOf(spec, MINUS)
        case None => Failure(BadRange)
        case Some(i) =>
          var a, b := spec[..i], spec[i + 1..];
          if a == [] && b == [] then Failure(BadRange)
          else if a == [] then
            match ParseU64(b)
            case None => Failure(BadRange)
            case Some(n) => Success(Suffix(n))
          else
            match ParseU64(a)
            case None => Failure(BadRange)
            case Some(first) =>
              if b == [] then Success(From(first))
              else
                match ParseU64(b)
                case None => Failure(BadRange)
                case Some(last) => Success(FromTo(first, last))
  }

  /** The program's arithmetic on an accepted range; no result means the whole object is served. */
  function Resolve(spec: RangeSpec, size: nat): Option<(nat, nat)> {
    var lastIndex := if size == 0 then 0 else size - 1;
    if spec.Suffix? && (spec.length == 0 || size == 0) then None
    else
      var (start, end) :=
        match spec
        case FromTo(s, e) => (s, if e < lastIndex then e else lastIndex)
        case From(s) => (s, lastIndex)
        case Suffix(n) => (if size < n then 0 else size - n, lastIndex);
      if size == 0 || start > lastIndex || start > end then None else Some((start, end))
  }

  function ParseRangeHeader(value: Option<Bytes>, size: nat): (r: Result<Option<(nat, nat)>, RangeError>)
    ensures r.Success? && r.value.Some? ==> r.value.value.0 <= r.value.value.1 < size
  {
    if value.None? then Success(None)
    else
      match ParseSpec(value.value)
      case Failure(e) => Failure(e)
      case Success(spec) => Success(Resolve(spec, size))
  }

  /** The positions that a range denotes in a representation of `size` bytes (section 14.1.2 of
      RFC 9110). */
  predicate Denotes(spec: RangeSpec, size: nat, i: nat) {
    i < size
    && match spec
       case FromTo(a, b) => a <= i <= b
       case From(a) => a <= i
       case Suffix(n) => size <= i + n
  }

  /** An accepted header yields in-bounds positions that are exactly those it denotes, and no range
      exactly when there is no header or it denotes nothing. */
  lemma RangeHeaderExact(value: Option<Bytes>, size: nat)
    requires ParseRangeHeader(value, size).Success?
    ensures var r := ParseRangeHeader(value, size).value;
      && (r.Some? ==> r.value.0 <= r.value.1 < size
                      && forall i: nat :: r.value.0 <= i <= r.value.1 <==>
                           Denotes(ParseSpec(value.value).value, size, i))
      && (r.None? <==> value.None? || forall i: nat :: !Denotes(ParseSpec(value.value).value, size, i))
  {
    if value.Some? {
      var spec := ParseSpec(value.value).value;
      var r := Resolve(spec, size);
      if r.Some? {
        assert Denotes(spec, size, r.value.0);
      }
    }
  }

  /** Copy ranges need both bounds and must lie within the source. */
  function ParseCopyRange(value: Bytes, size: nat): Result<(nat, nat), RangeError> {
    if !(UNIT <= value) then Failure(BadRange)
    else
      var spec := value[|UNIT|..];
      match IndexOf(spec, MINUS)
      case None => Failure(BadRange)
      case Some(i) =>
        var a, b := spec[..i], spec[i + 1..];
        if a == [] || b == [] then Failure(BadRange)
        else
          var s, e := ParseU64(a), ParseU64(b);
          if s.None? || e.None? then Failure(BadRange)
          else if size == 0 then Failure(BadRange)
          else if s.value > e.value || e.value >= size then Failure(BadRange)
          else Success((s.value, e.value))
  }

  lemma CommaIsNoNumber(s: Bytes)
    requires COMMA in s
    ensures ParseU64(s) == None
  {
    var k :| 0 <= k < |s| && s[k] == COMMA;
    var digits := Digits(s);
    var j := if s[0] == 43 then k - 1 else k;
    assert digits[j] == COMMA && !IsDigit(digits[j]);
  }

  lemma NoCommaAround(spec: Bytes, i: nat)
    requires i < |spec| && spec[i] == MINUS && ParseU64(spec[..i]).Some? && ParseU64(spec[i + 1..]).Some?
    ensures COMMA !in spec
  {
    assert spec == spec[..i] + [MINUS] + spec[i + 1..];
    if COMMA in spec[..i] {
      CommaIsNoNumber(spec[..i]);
    }
    if COMMA in spec[i + 1..] {
      CommaIsNoNumber(spec[i + 1..]);
    }
  }

  lemma NoCommaInCopyRange(value: Bytes, size: nat)
    requires ParseCopyRange(value, size).Success?
    ensures UNIT <= value && COMMA !in value[|UNIT|..]
  {
    NoCommaAround(value[|UNIT|..], IndexOf(value[|UNIT|..], MINUS).value);
  }

  /** A copy range is accepted exactly when a `Range` header would read it as a pair of bounds that
      lies within the source. */
  lemma CopyRangeAcceptedIff(value: Bytes, size: nat, a: nat, b: nat)
    ensures ParseCopyRange(value, size) == Success((a, b))
       <==> ParseSpec(value) == Success(FromTo(a, b)) && a <= b < size
  {
    if ParseCopyRange(value, size).Success? {
      NoCommaInCopyRange(value, size);
    }
    if UNIT <= value && COMMA !in value[|UNIT|..] {
      var spec := value[|UNIT|..];
      var at := IndexOf(spec, MINUS);
      if at.Some? && at.value > 0 && at.value + 1 < |spec| {
        var first, last := ParseU64(spec[..at.value]), ParseU64(spec[at.value + 1..]);
        if first.Some? && last.Some? {
          assert ParseSpec(value) == Success(FromTo(first.value, last.value));
        }
      }
    }
  }

  /** Both headers then select the same bytes. */
  lemma CopyRangeAgreesWithRange(value: Bytes, size: nat)
    requires ParseCopyRange(value, size).Success?
    ensures ParseRangeHeader(Some(value), size) == Success(Some(ParseCopyRange(value, size).value))
  {
    var (a, b) := ParseCopyRange(value, size).value;
    CopyRangeAcceptedIff(value, size, a, b);
  }
}
