/** Byte strings and their lexicographic order, which is the order of a redb table's keys
    and of Rust's `str`. Every Rust string is modelled by its UTF-8 bytes. */
module ByteStrings {
  type byte = b: int | 0 <= b < 256

  type Bytes = seq<byte>

  /** Strict lexicographic order. */
  predicate Less(a: Bytes, b: Bytes) {
    b != [] && (a == [] || a[0] < b[0] || (a[0] == b[0] && Less(a[1..], b[1..])))
  }

  predicate Leq(a: Bytes, b: Bytes) {
    !Less(b, a)
  }

  predicate NulFree(s: Bytes) {
    forall i :: 0 <= i < |s| ==> s[i] != 0
  }

  lemma LessIrreflexive(a: Bytes)
    ensures !Less(a, a)
  {
  }

  lemma LessTransitive(a: Bytes, b: Bytes, c: Bytes)
    requires Less(a, b) && Less(b, c)
    ensures Less(a, c)
  {
  }

  lemma LessTotal(a: Bytes, b: Bytes)
    ensures Less(a, b) || a == b || Less(b, a)
    ensures !(Less(a, b) && Less(b, a))
  {
    if a != [] && b != [] && a[0] == b[0] {
      LessTotal(a[1..], b[1..]);
      assert a == [a[0]] + a[1..] && b == [b[0]] + b[1..];
    }
  }

  lemma LeqLessTransitive(a: Bytes, b: Bytes, c: Bytes)
    requires Leq(a, b) && Less(b, c)
    ensures Less(a, c)
  {
    LessTotal(a, b);
    if Less(a, b) {
      LessTransitive(a, b, c);
    }
  }

  lemma LessLeqTransitive(a: Bytes, b: Bytes, c: Bytes)
    requires Less(a, b) && Leq(b, c)
    ensures Less(a, c)
  {
    LessTotal(b, c);
    if Less(b, c) {
      LessTransitive(a, b, c);
    }
  }

  /** A common prefix does not influence the order. */
  lemma {:induction false} LessUnderPrefix(p: Bytes, a: Bytes, b: Bytes)
    ensures Less(p + a, p + b) <==> Less(a, b)
  {
    if p == [] {
      assert p + a == a && p + b == b;
    } else {
      assert (p + a)[1..] == p[1..] + a && (p + b)[1..] == p[1..] + b;
      LessUnderPrefix(p[1..], a, b);
    }
  }

  /** The strings that start with `p` form one contiguous block beginning at `p` itself. */
  lemma {:induction false} PrefixBlock(p: Bytes, a: Bytes, b: Bytes)
    requires Leq(p, a) && Leq(a, b) && p <= b
    ensures p <= a
  {
    if p != [] {
      assert a[0] == p[0] == b[0];
      PrefixBlock(p[1..], a[1..], b[1..]);
      assert p == [p[0]] + p[1..] && a == [a[0]] + a[1..];
    }
  }

  /** A string is never greater than its own extensions. */
  lemma {:induction false} PrefixLeq(p: Bytes, a: Bytes)
    requires p <= a
    ensures Leq(p, a)
  {
    if p != [] {
      PrefixLeq(p[1..], a[1..]);
    }
  }
}
