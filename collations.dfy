/** The collation `Khmer_100_CI_AI` that the catalogue queries name, and the
    default collation of the other text columns, are not visible to this
    model. A collation is therefore a parameter, given by its sort key as
    collations are implemented: two strings are equal under it when their keys
    are equal, and they are ordered as their keys are, code point by code
    point. A case- and accent-insensitive collation maps a string and its
    case or accent variants to the same key. */
module Collations {
  import opened JsText
  import opened Sorting

  type Collation = string -> string

  /** `a COLLATE c = b` */
  predicate Equal(c: Collation, a: string, b: string) {
    c(a) == c(b)
  }

  /** `value COLLATE c LIKE N'%' + pattern + N'%'` */
  predicate Like(c: Collation, value: string, pattern: string) {
    Contains(c(value), c(pattern))
  }

  function CompareChars(a: char, b: char): int {
    if a < b then -1 else if a == b then 0 else 1
  }

  /** Lexicographic comparison of two strings by code point, a proper prefix
      coming first. */
  function CompareStrings(a: string, b: string): (r: int)
    ensures -1 <= r <= 1
    ensures r == 0 <==> a == b
  {
    if a == [] || b == [] then
      (if a == b then 0 else if a == [] then -1 else 1)
    else if a[0] != b[0] then CompareChars(a[0], b[0])
    else
      var r := CompareStrings(a[1..], b[1..]);
      assert a == [a[0]] + a[1..] && b == [b[0]] + b[1..];
      r
  }

  lemma {:induction false} CompareStringsAntisymmetric(a: string, b: string)
    ensures CompareStrings(a, b) == -CompareStrings(b, a)
  {
    if a != [] && b != [] && a[0] == b[0] {
      CompareStringsAntisymmetric(a[1..], b[1..]);
    }
  }

  lemma {:induction false} CompareStringsTransitive(a: string, b: string, c: string)
    requires CompareStrings(a, b) <= 0 && CompareStrings(b, c) <= 0
    ensures CompareStrings(a, c) <= 0
  {
    if a != [] && b != [] && c != [] && a[0] == b[0] && b[0] == c[0] {
      CompareStringsTransitive(a[1..], b[1..], c[1..]);
    }
  }

  /** Lexicographic order on strings is a three-way comparison. */
  lemma StringsIsComparator()
    ensures IsComparator(CompareStrings)
  {
    forall a, b ensures CompareStrings(a, b) == -CompareStrings(b, a) {
      CompareStringsAntisymmetric(a, b);
    }
    forall a, b, c | CompareStrings(a, b) <= 0 && CompareStrings(b, c) <= 0
      ensures CompareStrings(a, c) <= 0
    {
      CompareStringsTransitive(a, b, c);
    }
  }

  /** `ORDER BY value COLLATE c` */
  function CompareUnder(c: Collation): (string, string) -> int {
    (a, b) => CompareStrings(c(a), c(b))
  }

  /** Ordering under a collation is a three-way comparison whose ties are
      exactly the strings equal under that collation. */
  lemma CompareUnderIsComparator(c: Collation)
    ensures IsComparator(CompareUnder(c))
    ensures forall a, b :: CompareUnder(c)(a, b) == 0 <==> Equal(c, a, b)
  {
    var cmp := CompareUnder(c);
    forall a, b ensures cmp(a, b) == -cmp(b, a) {
      CompareStringsAntisymmetric(c(a), c(b));
    }
    forall a, b, d | cmp(a, b) <= 0 && cmp(b, d) <= 0 ensures cmp(a, d) <= 0 {
      CompareStringsTransitive(c(a), c(b), c(d));
    }
  }
}
