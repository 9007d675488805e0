/** Percent encoding of listing results and the two decoding loops (src/s3/listing.rs:268-306 and
    377-388, src/s3/copy.rs:389-416, src/s3/dispatch.rs:260-287), on bytes. */
module PercentCodec {
  import opened Results
  import opened ByteStrings

  const PERCENT: byte := 37

  const PLUS: byte := 43

  const SPACE: byte := 32

  /** Letters, digits, and `-` `_` `.` `~` (section 2.3 of RFC 3986). */
  predicate Unreserved(b: byte) {
    48 <= b <= 57 || 65 <= b <= 90 || 97 <= b <= 122 || b == 45 || b == 95 || b == 46 || b == 126
  }

  function HexDigit(n: byte): (b: byte)
    requires n < 16
    ensures HexNibble(b) == Some(n) && Unreserved(b)
  {
    if n < 10 then 48 + n else 55 + n
  }

  function HexNibble(b: byte): (r: Option<byte>)
    ensures r.Some? ==> r.value < 16
  {
    if 48 <= b <= 57 then Some(b - 48)
    else if 97 <= b <= 102 then Some(b - 87)
    else if 65 <= b <= 70 then Some(b - 55)
    else None
  }

  function Escape(b: byte): Bytes {
    [PERCENT, HexDigit(b / 16), HexDigit(b % 16)]
  }

  function Encoded(s: Bytes): Bytes {
    if s == [] then []
    else (if Unreserved(s[0]) then [s[0]] else Escape(s[0])) + Encoded(s[1..])
  }

  /** The byte denoted by an escape at the front, if there is a complete one. */
  function Escaped(s: Bytes): Option<byte> {
    if |s| >= 3 && s[0] == PERCENT && HexNibble(s[1]).Some? && HexNibble(s[2]).Some?
    then Some(16 * HexNibble(s[1]).value + HexNibble(s[2]).value)
    else None
  }

  /** Anything that is no complete escape stands for itself, except that `+` may mean a space. */
  function Decoded(s: Bytes, plusIsSpace: bool): Bytes {
    if s == [] then []
    else if Escaped(s).Some? then [Escaped(s).value] + Decoded(s[3..], plusIsSpace)
    else [if plusIsSpace && s[0] == PLUS then SPACE else s[0]] + Decoded(s[1..], plusIsSpace)
  }

  method UrlPercentEncode(s: Bytes) returns (out: Bytes)
    ensures out == Encoded(s)
  {
    out := [];
    assert s[0..] == s;
    for i := 0 to |s|
      invariant Encoded(s) == out + Encoded(s[i..])
    {
      var b := s[i];
      EncodeStep(s, i, out);
      if Unreserved(b) {
        out := out + [b];
      } else {
        out := out + Escape(b);
      }
    }
  }

  lemma EncodeStep(s: Bytes, i: nat, out: Bytes)
    requires i < |s|
    ensures out + Encoded(s[i..]) == out + (if Unreserved(s[i]) then [s[i]] else Escape(s[i])) + Encoded(s[i + 1..])
  {
    assert s[i..][1..] == s[i + 1..];
  }

  /** The decoder of listing queries. `lossy` is what makes valid text of any bytes. */
  method UrlPercentDecode(s: Bytes, lossy: Bytes -> Bytes) returns (text: Bytes)
    ensures text == lossy(Decoded(s, true))
  {
    var out: Bytes := [];
    var i := 0;
    DecodingStarts(s, true);
    while i < |s|
      invariant 0 <= i <= |s|
      invariant DecodedUpTo(s, i, true, out)
    {
      var b := s[i];
      if b == PLUS {
        PlainStep(s, i, true, out);
        out := out + [SPACE];
        i := i + 1;
      } else if b == PERCENT && i + 2 < |s| {
        var hi, lo := HexNibble(s[i + 1]), HexNibble(s[i + 2]);
        if hi.Some? && lo.Some? {
          EscapeStep(s, i, true, out);
          out := out + [16 * hi.value + lo.value];
          i := i + 3;
        } else {
          PlainStep(s, i, true, out);
          out := out + [b];
          i := i + 1;
        }
      } else {
        PlainStep(s, i, true, out);
        out := out + [b];
        i := i + 1;
      }
    }
    DecodingEnds(s, true, out);
    text := lossy(out);
  }

  /** The decoder of copy sources and of the other query values. */
  method PercentDecode(s: Bytes, lossy: Bytes -> Bytes) returns (text: Bytes)
    ensures text == lossy(Decoded(s, false))
  {
    var out: Bytes := [];
    var i := 0;
    DecodingStarts(s, false);
    while i < |s|
      invariant 0 <= i <= |s|
      invariant DecodedUpTo(s, i, false, out)
    {
      if s[i] == PERCENT && i + 2 < |s| {
        var hi, lo := HexNibble(s[i + 1]), HexNibble(s[i + 2]);
        if hi.Some? && lo.Some? {
          EscapeStep(s, i, false, out);
          out := out + [16 * hi.value + lo.value];
          i := i + 3;
          continue;
        }
      }
      PlainStep(s, i, false, out);
      out := out + [s[i]];
      i := i + 1;
    }
    DecodingEnds(s, false, out);
    text := lossy(out);
  }

  /** A decoding loop at position `i` has produced `out`. */
  ghost predicate DecodedUpTo(s: Bytes, i: nat, plusIsSpace: bool, out: Bytes) {
    i <= |s| && Decoded(s, plusIsSpace) == out + Decoded(s[i..], plusIsSpace)
  }

  lemma DecodingStarts(s: Bytes, plusIsSpace: bool)
    ensures DecodedUpTo(s, 0, plusIsSpace, [])
  {
    assert s[0..] == s;
  }

  lemma DecodingEnds(s: Bytes, plusIsSpace: bool, out: Bytes)
    requires DecodedUpTo(s, |s|, plusIsSpace, out)
    ensures out == Decoded(s, plusIsSpace)
  {
  }

  /** A complete escape at position `i`. */
  predicate EscapeAt(s: Bytes, i: nat) {
    i + 2 < |s| && s[i] == PERCENT && HexNibble(s[i + 1]).Some? && HexNibble(s[i + 2]).Some?
  }

  lemma EscapedAt(s: Bytes, i: nat)
    requires i < |s|
    ensures Escaped(s[i..]).Some? <==> EscapeAt(s, i)
  {
  }

  /** One turn of a decoding loop, at an escape. */
  lemma EscapeStep(s: Bytes, i: nat, plusIsSpace: bool, out: Bytes)
    requires EscapeAt(s, i) && DecodedUpTo(s, i, plusIsSpace, out)
    ensures DecodedUpTo(s, i + 3, plusIsSpace, out + [16 * HexNibble(s[i + 1]).value + HexNibble(s[i + 2]).value])
  {
    EscapedAt(s, i);
    assert s[i..][3..] == s[i + 3..];
  }

  /** And at any other byte. */
  lemma PlainStep(s: Bytes, i: nat, plusIsSpace: bool, out: Bytes)
    requires i < |s| && !EscapeAt(s, i) && DecodedUpTo(s, i, plusIsSpace, out)
    ensures DecodedUpTo(s, i + 1, plusIsSpace, out + [if plusIsSpace && s[i] == PLUS then SPACE else s[i]])
  {
    EscapedAt(s, i);
    assert s[i..][1..] == s[i + 1..];
    var x: byte := if plusIsSpace && s[i] == PLUS then SPACE else s[i];
    assert out + ([x] + Decoded(s[i + 1..], plusIsSpace)) == out + [x] + Decoded(s[i + 1..], plusIsSpace);
  }

  lemma EscapeDenotes(b: byte, rest: Bytes)
    ensures Escaped(Escape(b) + rest) == Some(b)
  {
  }

  /** Both decoders invert the encoder, on every byte string. */
  lemma {:induction false} DecodeInvertsEncode(s: Bytes, plusIsSpace: bool)
    ensures Decoded(Encoded(s), plusIsSpace) == s
  {
    if s != [] {
      DecodeInvertsEncode(s[1..], plusIsSpace);
      var rest := Encoded(s[1..]);
      if Unreserved(s[0]) {
        assert ([s[0]] + rest)[1..] == rest;
        assert Decoded([s[0]] + rest, plusIsSpace) == [s[0]] + Decoded(rest, plusIsSpace);
      } else {
        EscapeDenotes(s[0], rest);
        assert (Escape(s[0]) + rest)[3..] == rest;
      }
    }
  }

  // ---- byte by byte ----

  lemma {:induction false} EncodedConcat(s: Bytes, t: Bytes)
    ensures Encoded(s + t) == Encoded(s) + Encoded(t)
  {
    if s == [] {
      assert s + t == t;
    } else {
      assert (s + t)[1..] == s[1..] + t;
      EncodedConcat(s[1..], t);
    }
  }

  /** Letters, digits, and the four marks. */
  predicate Plain(c: char) {
    'a' <= c <= 'z' || 'A' <= c <= 'Z' || '0' <= c <= '9' || c in "-._~"
  }

  /** A byte stands for itself exactly if it is a letter, a digit or one of `-._~`; any other is written as a
      percent sign and two upper-case hexadecimal digits. */
  lemma EncodedByteIs(b: byte)
    ensures Encoded([b]) == [b] <==> Plain(b as char)
    ensures !Plain(b as char) ==>
              Encoded([b]) == [37, "0123456789ABCDEF"[b / 16] as int, "0123456789ABCDEF"[b % 16] as int]
  {
    assert [b][1..] == [];
  }

  /** The hexadecimal digit of this value, in upper or lower case. */
  predicate IsHex(c: char, n: byte) {
    n < 16 && (c == "0123456789ABCDEF"[n] || c == "0123456789abcdef"[n])
  }

  ghost predicate NoHex(c: char) {
    forall n :: !IsHex(c, n)
  }

  lemma HexMeans(b: byte, n: byte)
    ensures HexNibble(b) == Some(n) <==> IsHex(b as char, n)
  {
  }

  /** Behind a percent sign, two hexadecimal digits of either case stand for a byte. */
  lemma EscapeIsDecoded(h: byte, l: byte, hi: byte, lo: byte, rest: Bytes, plusIsSpace: bool)
    requires IsHex(h as char, hi) && IsHex(l as char, lo)
    ensures Decoded([37, h, l] + rest, plusIsSpace) == [16 * hi + lo] + Decoded(rest, plusIsSpace)
  {
    HexMeans(h, hi);
    HexMeans(l, lo);
    assert ([37, h, l] + rest)[3..] == rest;
  }

  /** Everything else stands for itself, but for the plus sign in listing queries. */
  lemma OtherIsDecoded(b: byte, rest: Bytes, plusIsSpace: bool)
    requires b == 37 ==> |rest| < 2 || NoHex(rest[0] as char) || NoHex(rest[1] as char)
    ensures Decoded([b] + rest, plusIsSpace)
         == [if plusIsSpace && b == '+' as int then ' ' as int else b] + Decoded(rest, plusIsSpace)
  {
    var s := [b] + rest;
    assert s[1..] == rest;
    if Escaped(s).Some? {
      HexMeans(rest[0], HexNibble(rest[0]).value);
      HexMeans(rest[1], HexNibble(rest[1]).value);
      assert false;
    }
  }

  /** So both decoders give back every text, on which `lossy` changes nothing. */
  lemma TextComesBack(s: Bytes, plusIsSpace: bool, lossy: Bytes -> Bytes)
    requires lossy(s) == s
    ensures lossy(Decoded(Encoded(s), plusIsSpace)) == s
  {
    DecodeInvertsEncode(s, plusIsSpace);
  }

  /** Encoding uses nothing but unreserved characters and complete escapes, so it can be told apart
      from every other text: two byte strings never share an encoding. */
  lemma EncodeIsInjective(s: Bytes, t: Bytes)
    requires Encoded(s) == Encoded(t)
    ensures s == t
  {
    DecodeInvertsEncode(s, false);
    DecodeInvertsEncode(t, false);
  }

  /** The two decoders agree on exactly the texts without a plus sign. */
  lemma {:induction false} DecodersAgreeIff(s: Bytes)
    ensures |Decoded(s, true)| == |Decoded(s, false)|
    ensures Decoded(s, true) == Decoded(s, false) <==> PLUS !in s
  {
    if s != [] {
      if Escaped(s).Some? {
        DecodersAgreeIff(s[3..]);
        assert s == s[..3] + s[3..];
        assert PLUS !in s[..3];
        SameHead([Escaped(s).value], Decoded(s[3..], true), Decoded(s[3..], false));
      } else {
        DecodersAgreeIff(s[1..]);
        assert s == [s[0]] + s[1..];
        if s[0] == PLUS {
          assert Decoded(s, true)[0] != Decoded(s, false)[0];
        } else {
          SameHead([s[0]], Decoded(s[1..], true), Decoded(s[1..], false));
        }
      }
    }
  }

  lemma SameHead(head: Bytes, a: Bytes, b: Bytes)
    ensures head + a == head + b <==> a == b
  {
    if head + a == head + b {
      assert a == (head + a)[|head|..] == (head + b)[|head|..] == b;
    }
  }
}
