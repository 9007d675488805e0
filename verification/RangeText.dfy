/** Which header text stands for which range, and what a header makes of an object
    (src/s3/object.rs:508-570, src/s3/copy.rs:307-330). */
module RangeText {
  import opened Results
  import opened ByteStrings
  import opened Reads

  function Decimal(n: nat): Bytes {
    if n < 10 then [48 + n] else Decimal(n / 10) + [48 + n % 10]
  }

  function Zeros(k: nat): Bytes {
    if k == 0 then [] else Zeros(k - 1) + [48]
  }

  /** The decimal form of the number, possibly behind zeros. */
  ghost predicate Digitwise(t: Bytes, n: nat) {
    exists k: nat :: t == Zeros(k) + Decimal(n)
  }

  /** The same with an optional plus sign, for numbers of 64 bits. */
  ghost predicate Numeral(t: Bytes, n: nat) {
    n <= 18_446_744_073_709_551_615 && (Digitwise(t, n) || (t != [] && t[0] == 43 && Digitwise(t[1..], n)))
  }

  predicate AllDigits(t: Bytes) {
    forall i :: 0 <= i < |t| ==> IsDigit(t[i])
  }

  lemma LastDigit(t: Bytes, d: byte)
    requires AllDigits(t) && d < 10
    ensures AllDigits(t + [48 + d]) && DecimalValue(t + [48 + d]) == 10 * DecimalValue(t) + d
  {
    assert (t + [48 + d])[..|t|] == t;
  }

  /** Reading the decimal form of a number gives the number. */
  lemma {:induction false} DecimalReadsBack(n: nat)
    ensures Decimal(n) != [] && AllDigits(Decimal(n)) && DecimalValue(Decimal(n)) == n
  {
    if n < 10 {
      LastDigit([], n);
      assert [] + [48 + n] == [48 + n];
    } else {
      DecimalReadsBack(n / 10);
      LastDigit(Decimal(n / 10), n % 10);
    }
  }

  lemma {:induction false} ZerosAreZero(k: nat)
    ensures AllDigits(Zeros(k)) && DecimalValue(Zeros(k)) == 0
  {
    if k > 0 {
      ZerosAreZero(k - 1);
      LastDigit(Zeros(k - 1), 0);
    }
  }

  lemma {:induction false} ZerosInFront(k: nat, t: Bytes)
    requires AllDigits(t)
    ensures AllDigits(Zeros(k) + t) && DecimalValue(Zeros(k) + t) == DecimalValue(t)
    decreases |t|
  {
    ZerosAreZero(k);
    if t == [] {
      assert Zeros(k) + t == Zeros(k);
    } else {
      var front, d := t[..|t| - 1], t[|t| - 1] - 48;
      ZerosInFront(k, front);
      LastDigit(front, d);
      LastDigit(Zeros(k) + front, d);
      assert t == front + [48 + d] && Zeros(k) + t == Zeros(k) + front + [48 + d];
    }
  }

  lemma OneDigit(d: byte)
    requires d < 10
    ensures Digitwise([48 + d], d)
  {
    assert [48 + d] == Zeros(0) + Decimal(d);
  }

  /** One more digit behind a decimal form. */
  lemma NextDigit(front: Bytes, n: nat, d: byte)
    requires Digitwise(front, n) && d < 10
    ensures Digitwise(front + [48 + d], 10 * n + d)
  {
    var k: nat :| front == Zeros(k) + Decimal(n);
    if n == 0 {
      assert front + [48 + d] == Zeros(k + 1) + Decimal(d);
    } else {
      assert (10 * n + d) / 10 == n && (10 * n + d) % 10 == d;
      assert front + [48 + d] == Zeros(k) + Decimal(10 * n + d);
    }
  }

  /** Digits are the decimal form of their value, behind zeros. */
  lemma {:induction false} DigitsAreDecimal(t: Bytes)
    requires AllDigits(t) && t != []
    ensures Digitwise(t, DecimalValue(t))
    decreases |t|
  {
    var front, d := t[..|t| - 1], t[|t| - 1] - 48;
    LastDigit(front, d);
    assert t == front + [48 + d];
    if front == [] {
      OneDigit(d);
    } else {
      DigitsAreDecimal(front);
      NextDigit(front, DecimalValue(front), d);
    }
  }

  lemma DigitwiseIff(t: Bytes, n: nat)
    ensures Digitwise(t, n) <==> t != [] && AllDigits(t) && DecimalValue(t) == n
  {
    DecimalReadsBack(n);
    forall k: nat | t == Zeros(k) + Decimal(n)
      ensures t != [] && AllDigits(t) && DecimalValue(t) == n
    {
      ZerosInFront(k, Decimal(n));
    }
    if t != [] && AllDigits(t) {
      DigitsAreDecimal(t);
    }
  }

  lemma NumeralIff(t: Bytes, n: nat)
    ensures ParseU64(t) == Some(n) <==> Numeral(t, n)
  {
    DigitwiseIff(t, n);
    if t != [] {
      DigitwiseIff(t[1..], n);
    }
  }

  /** "bytes=" and what follows. */
  function Header(spec: Bytes): Bytes {
    [98, 121, 116, 101, 115, 61] + spec
  }

  /** The header text "bytes=a-b", "bytes=a-" or "bytes=-n" with numerals for the bounds. */
  ghost predicate Spells(value: Bytes, spec: RangeSpec) {
    match spec
    case FromTo(a, b) => exists t, u :: Numeral(t, a) && Numeral(u, b) && value == Header(t + [45] + u)
    case From(a) => exists t :: Numeral(t, a) && value == Header(t + [45])
    case Suffix(n) => exists u :: Numeral(u, n) && value == Header([45] + u)
  }

  lemma NumeralHasNo(t: Bytes, b: byte)
    requires ParseU64(t).Some? && !IsDigit(b) && b != 43
    ensures b !in t && t != []
  {
    var digits := Digits(t);
    forall i | 0 <= i < |t|
      ensures t[i] != b
    {
      if i >= |t| - |digits| {
        assert t[i] == digits[i - (|t| - |digits|)];
      }
    }
  }

  lemma {:induction false} IndexOfFirst(t: Bytes, b: byte, u: Bytes)
    requires b !in t
    ensures IndexOf(t + [b] + u, b) == Some(|t|)
  {
    var s := t + [b] + u;
    if t == [] {
      assert s[0] == b;
    } else {
      assert s[0] == t[0] && s[1..] == t[1..] + [b] + u;
      IndexOfFirst(t[1..], b, u);
    }
  }

  /** A header with these two texts around its first minus sign. */
  lemma SplitAtMinus(t: Bytes, u: Bytes)
    requires MINUS !in t
    ensures var spec := t + [MINUS] + u;
      && UNIT <= Header(spec) && Header(spec)[|UNIT|..] == spec
      && IndexOf(spec, MINUS) == Some(|t|) && spec[..|t|] == t && spec[|t| + 1..] == u
  {
    IndexOfFirst(t, MINUS, u);
  }

  lemma HeaderSplits(value: Bytes) returns (t: Bytes, u: Bytes)
    requires UNIT <= value && MINUS in value[|UNIT|..]
    ensures value == Header(t + [MINUS] + u) && MINUS !in t
  {
    var spec := value[|UNIT|..];
    var i := IndexOf(spec, MINUS).value;
    t, u := spec[..i], spec[i + 1..];
    assert spec == t + [MINUS] + u;
    assert value == UNIT + spec;
  }

  /** What is parsed behind the unit. */
  lemma ParsedParts(t: Bytes, u: Bytes)
    requires MINUS !in t
    ensures ParseSpec(Header(t + [MINUS] + u)) ==
            if COMMA in t + [MINUS] + u || (t == [] && u == []) then Failure(BadRange)
            else if t == [] then
              if ParseU64(u).Some? then Success(Suffix(ParseU64(u).value)) else Failure(BadRange)
            else if ParseU64(t).None? || (u != [] && ParseU64(u).None?) then Failure(BadRange)
            else if u == [] then Success(From(ParseU64(t).value))
            else Success(FromTo(ParseU64(t).value, ParseU64(u).value))
  {
    SplitAtMinus(t, u);
  }

  lemma ParsesAsSpelled(value: Bytes, spec: RangeSpec)
    requires Spells(value, spec)
    ensures ParseSpec(value) == Success(spec)
  {
    match spec
    case FromTo(a, b) =>
      var t, u :| Numeral(t, a) && Numeral(u, b) && value == Header(t + [45] + u);
      NumeralsParse(t, a);
      NumeralsParse(u, b);
      ParsedParts(t, u);
    case From(a) =>
      var t :| Numeral(t, a) && value == Header(t + [45]);
      NumeralsParse(t, a);
      assert t + [45] + [] == t + [45];
      ParsedParts(t, []);
    case Suffix(n) =>
      var u :| Numeral(u, n) && value == Header([45] + u);
      NumeralsParse(u, n);
      assert [] + [45] + u == [45] + u;
      ParsedParts([], u);
  }

  lemma NumeralsParse(t: Bytes, n: nat)
    requires Numeral(t, n)
    ensures ParseU64(t) == Some(n) && MINUS !in t && COMMA !in t && t != []
  {
    NumeralIff(t, n);
    NumeralHasNo(t, MINUS);
    NumeralHasNo(t, COMMA);
  }

  lemma SpelledAsParsed(value: Bytes, spec: RangeSpec)
    requires ParseSpec(value) == Success(spec)
    ensures Spells(value, spec)
  {
    var t, u := HeaderSplits(value);
    ParsedParts(t, u);
    match spec
    case FromTo(a, b) =>
      NumeralIff(t, a);
      NumeralIff(u, b);
    case From(a) =>
      NumeralIff(t, a);
      assert t + [45] + [] == t + [45];
    case Suffix(n) =>
      NumeralIff(u, n);
      assert [] + [45] + u == [45] + u;
  }

  /** The parser reads a header as a range exactly if the header spells that range. */
  lemma ParsesIff(value: Bytes, spec: RangeSpec)
    ensures ParseSpec(value) == Success(spec) <==> Spells(value, spec)
  {
    if ParseSpec(value) == Success(spec) {
      SpelledAsParsed(value, spec);
    }
    if Spells(value, spec) {
      ParsesAsSpelled(value, spec);
    }
  }

  /** A header is refused exactly if it spells no range. */
  lemma RangeHeaderRefusedIff(value: Option<Bytes>, size: nat)
    ensures ParseRangeHeader(value, size).Failure? <==> value.Some? && forall spec :: !Spells(value.value, spec)
  {
    if value.Some? {
      forall spec
        ensures ParseSpec(value.value) == Success(spec) <==> Spells(value.value, spec)
      {
        ParsesIff(value.value, spec);
      }
    }
  }

  /** Otherwise it yields in-bounds positions that are exactly those that the spelled range denotes, and no
      range exactly if it denotes nothing. */
  lemma RangeHeaderMeans(value: Bytes, spec: RangeSpec, size: nat)
    requires Spells(value, spec)
    ensures ParseRangeHeader(Some(value), size).Success?
    ensures var r := ParseRangeHeader(Some(value), size).value;
      && (r.Some? ==> r.value.0 <= r.value.1 < size
                      && forall i: nat :: r.value.0 <= i <= r.value.1 <==> Denotes(spec, size, i))
      && (r.None? <==> forall i: nat :: !Denotes(spec, size, i))
  {
    ParsesIff(value, spec);
    RangeHeaderExact(Some(value), size);
  }

  /** A copy range is accepted exactly if it spells a pair of bounds within the source. */
  lemma CopyRangeMeans(value: Bytes, size: nat, a: nat, b: nat)
    ensures ParseCopyRange(value, size) == Success((a, b)) <==> Spells(value, FromTo(a, b)) && a <= b < size
  {
    ParsesIff(value, FromTo(a, b));
    CopyRangeAcceptedIff(value, size, a, b);
  }
}
