/** `ORDER BY`: orderings built from three-way comparisons, and a sort that
    produces a sequence ordered by them. The order of rows that tie on every
    sort key is left open by SQL; the sort here keeps them in scan order. */
module Sorting {
  import opened Common
  import opened Tables

  /** A three-way comparison: its sign flips when the arguments are swapped
      and "not after" is transitive. */
  ghost predicate IsComparator<T(!new)>(cmp: (T, T) -> int) {
    && (forall a, b :: cmp(a, b) == -cmp(b, a))
    && (forall a, b, c :: cmp(a, b) <= 0 && cmp(b, c) <= 0 ==> cmp(a, c) <= 0)
  }

  ghost predicate TotalPreorder<T(!new)>(le: (T, T) -> bool) {
    && (forall a, b :: le(a, b) || le(b, a))
    && (forall a, b, c :: le(a, b) && le(b, c) ==> le(a, c))
  }

  ghost predicate Sorted<T>(s: seq<T>, le: (T, T) -> bool) {
    forall i, j | 0 <= i < j < |s| :: le(s[i], s[j])
  }

  /** Every element of `x` comes before, or ties with, every element of `y`. */
  ghost predicate AllBefore<T>(x: seq<T>, y: seq<T>, le: (T, T) -> bool) {
    forall i, j | 0 <= i < |x| && 0 <= j < |y| :: le(x[i], y[j])
  }

  /** `ORDER BY key DESC` reverses a comparison. */
  function Reverse<T>(cmp: (T, T) -> int): (T, T) -> int {
    (a, b) => -cmp(a, b)
  }

  lemma ReverseIsComparator<T(!new)>(cmp: (T, T) -> int)
    requires IsComparator(cmp)
    ensures IsComparator(Reverse(cmp))
  {
    forall a, b, c | Reverse(cmp)(a, b) <= 0 && Reverse(cmp)(b, c) <= 0
      ensures Reverse(cmp)(a, c) <= 0
    {
      assert cmp(c, b) <= 0 && cmp(b, a) <= 0;
    }
  }

  /** How SQL Server compares a nullable column: NULL comes before every value. */
  function CompareNullable<T>(cmp: (T, T) -> int): (Option<T>, Option<T>) -> int {
    (a: Option<T>, b: Option<T>) =>
      match (a, b)
      case (None, None) => 0
      case (None, Some(_)) => -1
      case (Some(_), None) => 1
      case (Some(x), Some(y)) => cmp(x, y)
  }

  lemma NullableIsComparator<T(!new)>(cmp: (T, T) -> int)
    requires IsComparator(cmp)
    ensures IsComparator(CompareNullable(cmp))
  {
    var n := CompareNullable(cmp);
    forall a, b ensures n(a, b) == -n(b, a) {
      if a.Some? && b.Some? {
        assert n(a, b) == cmp(a.value, b.value) && n(b, a) == cmp(b.value, a.value);
      }
    }
    forall a, b, c | n(a, b) <= 0 && n(b, c) <= 0 ensures n(a, c) <= 0 {
      if a.Some? && b.Some? && c.Some? {
        assert n(a, b) == cmp(a.value, b.value) && n(b, c) == cmp(b.value, c.value);
        assert n(a, c) == cmp(a.value, c.value);
      }
    }
  }

  function CompareReals(a: real, b: real): int {
    if a < b then -1 else if a == b then 0 else 1
  }

  lemma RealsIsComparator()
    ensures IsComparator(CompareReals)
  {
  }

  /** Comparing values by a projection of them, as `ORDER BY column` compares rows. */
  function On<T, U>(cmp: (U, U) -> int, f: T -> U): (T, T) -> int {
    (a, b) => cmp(f(a), f(b))
  }

  lemma OnIsComparator<T(!new), U(!new)>(cmp: (U, U) -> int, f: T -> U)
    requires IsComparator(cmp)
    ensures IsComparator(On(cmp, f))
  {
    forall a, b, c | On(cmp, f)(a, b) <= 0 && On(cmp, f)(b, c) <= 0 ensures On(cmp, f)(a, c) <= 0 {
      assert cmp(f(a), f(b)) <= 0 && cmp(f(b), f(c)) <= 0;
    }
  }

  /** `ORDER BY primary, secondary`: the first comparison decides, and rows
      it does not separate are ordered by `tie`. */
  function ThenBy<T>(cmp: (T, T) -> int, tie: (T, T) -> bool): (T, T) -> bool {
    (a, b) => cmp(a, b) < 0 || (cmp(a, b) == 0 && tie(a, b))
  }

  lemma ThenByIsTotalPreorder<T(!new)>(cmp: (T, T) -> int, tie: (T, T) -> bool)
    requires IsComparator(cmp)
    requires TotalPreorder(tie)
    ensures TotalPreorder(ThenBy(cmp, tie))
  {
    var le := ThenBy(cmp, tie);
    forall a, b ensures le(a, b) || le(b, a) {
      assert cmp(a, b) == -cmp(b, a);
    }
    forall a, b, c | le(a, b) && le(b, c) ensures le(a, c) {
      assert cmp(a, b) <= 0 && cmp(b, c) <= 0;
      assert cmp(a, c) <= 0;
      if cmp(a, c) == 0 {
        // a and c tie, so b ties with both of them
        assert cmp(c, a) <= 0;
        assert cmp(b, c) <= 0 && cmp(c, a) <= 0 ==> cmp(b, a) <= 0;
        assert cmp(c, a) <= 0 && cmp(a, b) <= 0 ==> cmp(c, b) <= 0;
        assert tie(a, b) && tie(b, c);
      }
    }
  }

  /** `x` placed into `s` before the first element it may precede. */
  function Insert<T>(x: T, s: seq<T>, le: (T, T) -> bool): seq<T> {
    if s == [] then [x]
    else if le(x, s[0]) then [x] + s
    else [s[0]] + Insert(x, s[1..], le)
  }

  lemma {:induction false} InsertPermutes<T>(x: T, s: seq<T>, le: (T, T) -> bool)
    ensures multiset(Insert(x, s, le)) == multiset(s) + multiset{x}
  {
    if s != [] && !le(x, s[0]) {
      InsertPermutes(x, s[1..], le);
      assert s == [s[0]] + s[1..];
    }
  }

  /** Inserting into an ordered sequence keeps it ordered. */
  lemma {:induction false} InsertSorted<T(!new)>(x: T, s: seq<T>, le: (T, T) -> bool)
    requires TotalPreorder(le)
    requires Sorted(s, le)
    ensures Sorted(Insert(x, s, le), le)
  {
    if s == [] {
    } else if le(x, s[0]) {
      var r := [x] + s;
      forall i, j | 0 <= i < j < |r| ensures le(r[i], r[j]) {
        if i > 0 { assert r[i] == s[i - 1]; }
        assert r[j] == s[j - 1];
      }
    } else {
      var rest := Insert(x, s[1..], le);
      InsertSorted(x, s[1..], le);
      InsertPermutes(x, s[1..], le);
      var r := [s[0]] + rest;
      forall i, j | 0 <= i < j < |r| ensures le(r[i], r[j]) {
        assert r[j] == rest[j - 1];
        if i == 0 {
          assert rest[j - 1] in multiset(rest);
          if rest[j - 1] != x {
            assert rest[j - 1] in s[1..];
          }
        } else {
          assert r[i] == rest[i - 1];
        }
      }
    }
  }

  /** A sorted permutation of `s`: the result of `ORDER BY`. */
  function InsertionSort<T(!new)>(s: seq<T>, le: (T, T) -> bool): (r: seq<T>)
    requires TotalPreorder(le)
    ensures Sorted(r, le)
    ensures multiset(r) == multiset(s)
  {
    if s == [] then []
    else
      var sorted := InsertionSort(s[1..], le);
      InsertSorted(s[0], sorted, le);
      InsertPermutes(s[0], sorted, le);
      assert s == [s[0]] + s[1..];
      Insert(s[0], sorted, le)
  }

  /** A window of an ordered sequence is ordered. */
  lemma SliceSorted<T>(s: seq<T>, offset: nat, limit: nat, le: (T, T) -> bool)
    requires Sorted(s, le)
    ensures Sorted(Slice(s, offset, limit), le)
  {
    var w := Slice(s, offset, limit);
    forall i, j | 0 <= i < j < |w| ensures le(w[i], w[j]) {
      assert w[i] == s[offset + i] && w[j] == s[offset + j];
    }
  }

  /** Of two windows of an ordered sequence, the earlier one comes first. */
  lemma SlicesInOrder<T>(s: seq<T>, first: nat, second: nat, limit: nat, le: (T, T) -> bool)
    requires Sorted(s, le)
    requires first + limit <= second
    ensures AllBefore(Slice(s, first, limit), Slice(s, second, limit), le)
  {
    var w1, w2 := Slice(s, first, limit), Slice(s, second, limit);
    forall i, j | 0 <= i < |w1| && 0 <= j < |w2| ensures le(w1[i], w2[j]) {
      assert w1[i] == s[first + i] && w2[j] == s[second + j];
    }
  }
}
