/** The relational semantics the handlers' SQL statements are read with. A
    table is the sequence of its rows in scan order; rows are appended with
    the next value of an identity column, so their ids ascend. `WHERE` is
    `Filter`, `COUNT(*)` is the length of a filter, a single-row `SELECT` is
    `Find`, `UPDATE ... WHERE` is `Replace` and `OFFSET m ROWS FETCH NEXT n
    ROWS ONLY` is `Slice`. */
module Tables {
  import opened Common

  /** The ids of the rows strictly ascend in scan order, so no id occurs twice. */
  ghost predicate Ascending<T>(s: seq<T>, id: T -> int) {
    forall i, j | 0 <= i < j < |s| :: id(s[i]) < id(s[j])
  }

  /** Every id in the table is below `next`, the next identity value. */
  ghost predicate Below<T>(s: seq<T>, id: T -> int, next: int) {
    forall i | 0 <= i < |s| :: id(s[i]) < next
  }

  /** The rows satisfying `p`, in scan order. */
  function Filter<T>(s: seq<T>, p: T -> bool): (r: seq<T>)
    ensures |r| <= |s|
    ensures forall x | x in r :: x in s && p(x)
    ensures forall x | x in s && p(x) :: x in r
    ensures |r| == |s| <==> forall x | x in s :: p(x)
  {
    if s == [] then []
    else
      var rest := Filter(s[1..], p);
      assert forall x | x in s :: x == s[0] || x in s[1..];
      if p(s[0]) then [s[0]] + rest else rest
  }

  /** Each row satisfying `p` is kept as many times as it occurs, and no
      other row is kept: `COUNT(*)` over the filter counts the matching rows
      exactly. */
  lemma {:induction false} FilterMultiplicity<T>(s: seq<T>, p: T -> bool)
    ensures forall x :: multiset(Filter(s, p))[x] == if p(x) then multiset(s)[x] else 0
  {
    if s != [] {
      FilterMultiplicity(s[1..], p);
      assert s == [s[0]] + s[1..];
      assert multiset(s) == multiset{s[0]} + multiset(s[1..]);
      if p(s[0]) {
        assert multiset(Filter(s, p)) == multiset{s[0]} + multiset(Filter(s[1..], p));
      } else {
        assert Filter(s, p) == Filter(s[1..], p);
      }
    }
  }

  /** Filtering keeps rows in their order, so it keeps the ids ascending. */
  lemma {:induction false} FilterAscending<T>(s: seq<T>, p: T -> bool, id: T -> int)
    requires Ascending(s, id)
    ensures Ascending(Filter(s, p), id)
  {
    if s != [] {
      FilterAscending(s[1..], p, id);
      var rest := Filter(s[1..], p);
      if p(s[0]) {
        var r := [s[0]] + rest;
        forall i, j | 0 <= i < j < |r| ensures id(r[i]) < id(r[j]) {
          if i == 0 {
            assert r[j] in s[1..];
          } else {
            assert r[i] == rest[i - 1] && r[j] == rest[j - 1];
          }
        }
      }
    }
  }

  /** Filtering keeps every id below the next identity value. */
  lemma FilterBelow<T>(s: seq<T>, p: T -> bool, id: T -> int, next: int)
    requires Below(s, id, next)
    ensures Below(Filter(s, p), id, next)
  {
    var r := Filter(s, p);
    forall i | 0 <= i < |r| ensures id(r[i]) < next {
      assert r[i] in s;
    }
  }

  /** The first row satisfying `p`, the row a query's `recordset[0]` is. */
  function Find<T>(s: seq<T>, p: T -> bool): (r: Option<T>)
    ensures r.None? <==> forall x | x in s :: !p(x)
    ensures r.Some? ==> r.value in s && p(r.value)
  {
    if s == [] then None
    else if p(s[0]) then Some(s[0])
    else
      assert forall x | x in s :: x == s[0] || x in s[1..];
      Find(s[1..], p)
  }

  /** A filter that keeps every row is the identity. */
  lemma {:induction false} FilterAll<T>(s: seq<T>, p: T -> bool)
    requires forall x | x in s :: p(x)
    ensures Filter(s, p) == s
  {
    if s != [] {
      FilterAll(s[1..], p);
      assert s == [s[0]] + s[1..];
    }
  }

  /** `UPDATE ... SET ... WHERE p`: the rows satisfying `p` become `f` of
      themselves, all other rows stay as they are. */
  function Replace<T>(s: seq<T>, p: T -> bool, f: T -> T): (r: seq<T>)
    ensures |r| == |s|
    ensures forall i | 0 <= i < |s| :: r[i] == (if p(s[i]) then f(s[i]) else s[i])
  {
    seq(|s|, i requires 0 <= i < |s| => if p(s[i]) then f(s[i]) else s[i])
  }

  function Min(a: int, b: int): int { if a <= b then a else b }

  /** `OFFSET offset ROWS FETCH NEXT limit ROWS ONLY`: the rows at positions
      `offset` to `offset + limit - 1`, as many of them as exist. */
  function Slice<T>(s: seq<T>, offset: nat, limit: nat): (r: seq<T>)
    ensures |r| == if offset >= |s| then 0 else Min(limit, |s| - offset)
    ensures forall k | 0 <= k < |r| :: r[k] == s[offset + k]
  {
    if offset >= |s| then [] else s[offset..offset + Min(limit, |s| - offset)]
  }
}
