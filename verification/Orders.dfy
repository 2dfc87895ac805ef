/** Strict orders, and what Go's `sort` and SQL's `SELECT DISTINCT ... ORDER BY` compute over them. */
module Orders {

  ghost predicate Strict<K(!new)>(lt: (K, K) -> bool) {
    && (forall a :: !lt(a, a))
    && (forall a, b, c :: lt(a, b) && lt(b, c) ==> lt(a, c))
  }

  ghost predicate StrictTotal<K(!new)>(lt: (K, K) -> bool) {
    && Strict(lt)
    && (forall a, b :: a == b || lt(a, b) || lt(b, a))
  }

  ghost predicate Increasing<K>(lt: (K, K) -> bool, s: seq<K>) {
    forall i, j :: 0 <= i < j < |s| ==> lt(s[i], s[j])
  }

  /** Any two entries of `s` are ordered one way or the other. */
  ghost predicate Separated<K>(lt: (K, K) -> bool, s: seq<K>) {
    forall i, j :: 0 <= i < j < |s| ==> lt(s[i], s[j]) || lt(s[j], s[i])
  }

  ghost predicate Distinct<K>(s: seq<K>) {
    forall i, j :: 0 <= i < j < |s| ==> s[i] != s[j]
  }

  function Take<T>(s: seq<T>, n: int): seq<T> {
    if n <= 0 then [] else if n >= |s| then s else s[..n]
  }

  /** The first `n` entries, all of them when there are no more. */
  lemma TakeIsPrefix<T>(s: seq<T>, n: int)
    ensures Take(s, n) <= s
    ensures |Take(s, n)| == if n <= 0 then 0 else if n < |s| then n else |s|
  {
  }

  /** Stable insertion of `x` before the first entry it is below. */
  function Insert<K>(lt: (K, K) -> bool, x: K, s: seq<K>): seq<K> {
    if s == [] then [x]
    else if lt(s[0], x) then [s[0]] + Insert(lt, x, s[1..])
    else [x] + s
  }

  function Sort<K>(lt: (K, K) -> bool, s: seq<K>): seq<K> {
    if s == [] then [] else Insert(lt, s[0], Sort(lt, s[1..]))
  }

  function InsertDistinct<K(==)>(lt: (K, K) -> bool, x: K, s: seq<K>): seq<K> {
    if s == [] then [x]
    else if s[0] == x then s
    else if lt(s[0], x) then [s[0]] + InsertDistinct(lt, x, s[1..])
    else [x] + s
  }

  /** `SELECT DISTINCT ... ORDER BY`: each entry once, ascending. */
  function SortDistinct<K(==)>(lt: (K, K) -> bool, s: seq<K>): seq<K> {
    if s == [] then [] else InsertDistinct(lt, s[0], SortDistinct(lt, s[1..]))
  }

  lemma {:induction false} InsertElements<K>(lt: (K, K) -> bool, x: K, s: seq<K>)
    ensures multiset(Insert(lt, x, s)) == multiset{x} + multiset(s)
    ensures |Insert(lt, x, s)| == |s| + 1
    ensures forall y :: y in Insert(lt, x, s) <==> y == x || y in s
  {
    if s != [] {
      InsertElements(lt, x, s[1..]);
      assert s == [s[0]] + s[1..];
    }
  }

  lemma {:induction false} SortElements<K>(lt: (K, K) -> bool, s: seq<K>)
    ensures multiset(Sort(lt, s)) == multiset(s)
    ensures |Sort(lt, s)| == |s|
    ensures forall y :: y in Sort(lt, s) <==> y in s
  {
    if s != [] {
      SortElements(lt, s[1..]);
      InsertElements(lt, s[0], Sort(lt, s[1..]));
      assert s == [s[0]] + s[1..];
    }
  }

  lemma {:induction false} InsertIncreasing<K(!new)>(lt: (K, K) -> bool, x: K, s: seq<K>)
    requires Strict(lt) && Increasing(lt, s)
    requires forall y :: y in s ==> lt(x, y) || lt(y, x)
    ensures Increasing(lt, Insert(lt, x, s))
  {
    if s != [] {
      if lt(s[0], x) {
        assert forall y :: y in s[1..] ==> y in s;
        InsertIncreasing(lt, x, s[1..]);
        InsertElements(lt, x, s[1..]);
        var rest := Insert(lt, x, s[1..]);
        forall j | 0 <= j < |rest| ensures lt(s[0], rest[j]) {
          assert rest[j] in rest;
          if rest[j] != x {
            assert rest[j] in s[1..];
          }
        }
      } else {
        assert lt(x, s[0]);
        forall j | 0 <= j < |s| ensures lt(x, s[j]) {
          if j > 0 { assert lt(s[0], s[j]); }
        }
      }
    }
  }

  lemma {:induction false} SortIncreasing<K(!new)>(lt: (K, K) -> bool, s: seq<K>)
    requires Strict(lt) && Separated(lt, s)
    ensures Increasing(lt, Sort(lt, s))
  {
    if s != [] {
      SortIncreasing(lt, s[1..]);
      SortElements(lt, s[1..]);
      forall y | y in Sort(lt, s[1..]) ensures lt(s[0], y) || lt(y, s[0]) {
        var j :| 0 <= j < |s[1..]| && s[1..][j] == y;
        assert s[j + 1] == y;
      }
      InsertIncreasing(lt, s[0], Sort(lt, s[1..]));
    }
  }

  lemma {:induction false} InsertDistinctIncreasing<K(!new)>(lt: (K, K) -> bool, x: K, s: seq<K>)
    requires StrictTotal(lt) && Increasing(lt, s)
    ensures Increasing(lt, InsertDistinct(lt, x, s))
    ensures forall y :: y in InsertDistinct(lt, x, s) <==> y == x || y in s
  {
    if s != [] && s[0] != x {
      if lt(s[0], x) {
        InsertDistinctIncreasing(lt, x, s[1..]);
        assert s == [s[0]] + s[1..];
        var rest := InsertDistinct(lt, x, s[1..]);
        forall j | 0 <= j < |rest| ensures lt(s[0], rest[j]) {
          assert rest[j] in rest;
          if rest[j] != x {
            assert rest[j] in s[1..];
          }
        }
      } else {
        assert lt(x, s[0]);
        forall j | 0 <= j < |s| ensures lt(x, s[j]) {
          if j > 0 { assert lt(s[0], s[j]); }
        }
      }
    }
  }

  lemma {:induction false} SortDistinctIncreasing<K(!new)>(lt: (K, K) -> bool, s: seq<K>)
    requires StrictTotal(lt)
    ensures Increasing(lt, SortDistinct(lt, s))
    ensures forall y :: y in SortDistinct(lt, s) <==> y in s
  {
    if s != [] {
      SortDistinctIncreasing(lt, s[1..]);
      InsertDistinctIncreasing(lt, s[0], SortDistinct(lt, s[1..]));
      assert s == [s[0]] + s[1..];
    }
  }

  lemma IncreasingDistinct<K(!new)>(lt: (K, K) -> bool, s: seq<K>)
    requires Strict(lt) && Increasing(lt, s)
    ensures Distinct(s)
  {
    forall i, j | 0 <= i < j < |s| ensures s[i] != s[j] {
      assert lt(s[i], s[j]);
    }
  }

  /** The head of an increasing sequence is below everything else in it. */
  lemma HeadLeast<K(!new)>(lt: (K, K) -> bool, s: seq<K>, y: K)
    requires Strict(lt) && Increasing(lt, s) && y in s
    ensures y == s[0] || lt(s[0], y)
  {
    var k :| 0 <= k < |s| && s[k] == y;
    if k > 0 { assert lt(s[0], s[k]); }
  }

  /** An increasing sequence is determined by the set of its entries. */
  lemma {:induction false} IncreasingUnique<K(!new)>(lt: (K, K) -> bool, s: seq<K>, t: seq<K>)
    requires Strict(lt) && Increasing(lt, s) && Increasing(lt, t)
    requires forall y :: y in s <==> y in t
    ensures s == t
  {
    assert t != [] ==> t[0] in t;
    if s != [] {
      assert s[0] in t;
      assert t[0] in s;
      HeadLeast(lt, s, t[0]);
      HeadLeast(lt, t, s[0]);
      assert s[0] == t[0];
      forall y ensures y in s[1..] <==> y in t[1..] {
        TailMembership(lt, s, y);
        TailMembership(lt, t, y);
      }
      IncreasingUnique(lt, s[1..], t[1..]);
      assert s == [s[0]] + s[1..];
      assert t == [t[0]] + t[1..];
    }
  }

  lemma TailMembership<K(!new)>(lt: (K, K) -> bool, s: seq<K>, y: K)
    requires Strict(lt) && Increasing(lt, s) && s != []
    ensures y in s[1..] <==> y in s && y != s[0]
  {
    if y in s[1..] {
      var j :| 0 <= j < |s[1..]| && s[1..][j] == y;
      assert s[j + 1] == y;
      assert lt(s[0], y);
    }
    if y in s && y != s[0] {
      var j :| 0 <= j < |s| && s[j] == y;
      assert s[1..][j - 1] == y;
    }
  }

  lemma SeparatedWhenDistinct<K(!new)>(lt: (K, K) -> bool, s: seq<K>)
    requires StrictTotal(lt) && Distinct(s)
    ensures Separated(lt, s)
  {
    forall i, j | 0 <= i < j < |s| ensures lt(s[i], s[j]) || lt(s[j], s[i]) {
      assert s[i] != s[j];
    }
  }

  /** A strict weak order: what is neither above nor below is a tie, and ties are transitive. */
  ghost predicate WeakOrder<K(!new)>(lt: (K, K) -> bool) {
    Strict(lt) && forall a, b, c :: lt(a, c) ==> lt(a, b) || lt(b, c)
  }

  /** No entry is below an earlier one. */
  ghost predicate Ordered<K>(lt: (K, K) -> bool, s: seq<K>) {
    forall i, j :: 0 <= i < j < |s| ==> !lt(s[j], s[i])
  }

  lemma {:induction false} InsertOrdered<K(!new)>(lt: (K, K) -> bool, x: K, s: seq<K>)
    requires WeakOrder(lt) && Ordered(lt, s)
    ensures Ordered(lt, Insert(lt, x, s))
  {
    if s != [] && lt(s[0], x) {
      InsertOrdered(lt, x, s[1..]);
      InsertElements(lt, x, s[1..]);
      var rest := Insert(lt, x, s[1..]);
      forall j | 0 <= j < |rest| ensures !lt(rest[j], s[0]) {
        assert rest[j] in rest;
        if rest[j] != x {
          var k :| 0 <= k < |s[1..]| && s[1..][k] == rest[j];
          assert s[k + 1] == rest[j];
        }
      }
    } else if s != [] {
      var head := s[0];
      forall j | 0 <= j < |s| ensures !lt(s[j], x) {
        var y := s[j];
        assert lt(y, x) ==> lt(y, head) || lt(head, x);
      }
    }
  }

  lemma {:induction false} SortOrdered<K(!new)>(lt: (K, K) -> bool, s: seq<K>)
    requires WeakOrder(lt)
    ensures Ordered(lt, Sort(lt, s))
  {
    if s != [] {
      SortOrdered(lt, s[1..]);
      InsertOrdered(lt, s[0], Sort(lt, s[1..]));
    }
  }

  function Filter<K>(keep: K -> bool, s: seq<K>): seq<K> {
    if s == [] then [] else (if keep(s[0]) then [s[0]] else []) + Filter(keep, s[1..])
  }

  lemma FilterCons<K>(keep: K -> bool, x: K, s: seq<K>)
    ensures Filter(keep, [x] + s) == (if keep(x) then [x] else []) + Filter(keep, s)
  {
    assert ([x] + s)[1..] == s;
  }

  lemma {:induction false} InsertStable<K(!new)>(lt: (K, K) -> bool, tied: K -> bool, x: K, s: seq<K>)
    requires forall a, b :: tied(a) && tied(b) ==> !lt(a, b)
    ensures Filter(tied, Insert(lt, x, s)) == Filter(tied, [x] + s)
  {
    FilterCons(tied, x, s);
    if s != [] && lt(s[0], x) {
      InsertStable(lt, tied, x, s[1..]);
      FilterCons(tied, s[0], Insert(lt, x, s[1..]));
      FilterCons(tied, x, s[1..]);
    }
  }

  /** Sorting is stable: entries that tie with one another keep the order they were given in. */
  lemma {:induction false} SortStable<K(!new)>(lt: (K, K) -> bool, tied: K -> bool, s: seq<K>)
    requires forall a, b :: tied(a) && tied(b) ==> !lt(a, b)
    ensures Filter(tied, Sort(lt, s)) == Filter(tied, s)
  {
    if s != [] {
      SortStable(lt, tied, s[1..]);
      InsertStable(lt, tied, s[0], Sort(lt, s[1..]));
      FilterCons(tied, s[0], Sort(lt, s[1..]));
    }
  }
}
