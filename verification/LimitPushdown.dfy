/** Merging the first `limit` peers of every region gives the same capped answer as merging all of them. */
module LimitPushdown {
  import opened Orders
  import opened Text

  function Flatten(regions: seq<string>, peersOf: string -> seq<string>): seq<string> {
    if regions == [] then [] else peersOf(regions[0]) + Flatten(regions[1..], peersOf)
  }

  /** All peers of the shown regions, each once, by ascending id. */
  function Union(regions: seq<string>, peersOf: string -> seq<string>): seq<string> {
    SortDistinct(Less, Flatten(regions, peersOf))
  }

  /** The shown regions that hold `id`, in the order they are shown. */
  function RegionsHolding(regions: seq<string>, peersOf: string -> seq<string>, id: string): seq<string> {
    if regions == [] then []
    else if id in peersOf(regions[0]) then [regions[0]] + RegionsHolding(regions[1..], peersOf, id)
    else RegionsHolding(regions[1..], peersOf, id)
  }

  /** A region's query with LIMIT pushed into it. */
  function Limited(peersOf: string -> seq<string>, limit: int): string -> seq<string> {
    (r: string) => Take(peersOf(r), limit)
  }

  /** `id` is a peer in one of the regions. */
  ghost predicate InSome(regions: seq<string>, peersOf: string -> seq<string>, id: string) {
    exists k :: 0 <= k < |regions| && id in peersOf(regions[k])
  }

  lemma {:induction false} FlattenMembers(regions: seq<string>, peersOf: string -> seq<string>, id: string)
    ensures id in Flatten(regions, peersOf) <==> InSome(regions, peersOf, id)
  {
    if regions != [] {
      FlattenMembers(regions[1..], peersOf, id);
      if InSome(regions[1..], peersOf, id) {
        var k :| 0 <= k < |regions[1..]| && id in peersOf(regions[1..][k]);
        assert id in peersOf(regions[k + 1]);
      }
      if InSome(regions, peersOf, id) && id !in peersOf(regions[0]) {
        var k :| 0 <= k < |regions| && id in peersOf(regions[k]);
        assert id in peersOf(regions[1..][k - 1]);
      }
    }
  }

  lemma UnionContract(regions: seq<string>, peersOf: string -> seq<string>)
    ensures Increasing(Less, Union(regions, peersOf))
    ensures forall id :: id in Union(regions, peersOf) <==> InSome(regions, peersOf, id)
  {
    LessStrictTotal();
    SortDistinctIncreasing(Less, Flatten(regions, peersOf));
    forall id ensures id in Union(regions, peersOf) <==> InSome(regions, peersOf, id) {
      FlattenMembers(regions, peersOf, id);
    }
  }

  /** Positions in an increasing sequence follow the order of its entries. */
  lemma PlacesFollowOrder(s: seq<string>, j: nat, k: nat)
    requires Increasing(Less, s) && j < |s| && k < |s| && Less(s[j], s[k])
    ensures j < k
  {
    if k < j {
      LessTransitive(s[k], s[j], s[k]);
    }
    LessIrreflexive(s[k]);
  }

  /** An entry is no further along in an increasing sequence than in a larger one. */
  lemma {:induction false} RankInSubset(small: seq<string>, large: seq<string>, j: int, k: int)
    requires Increasing(Less, small) && Increasing(Less, large)
    requires forall x :: x in small ==> x in large
    requires 0 <= j < |small| && 0 <= k < |large| && small[j] == large[k]
    ensures j <= k
    decreases j
  {
    if j > 0 {
      assert small[j - 1] in small && small[j - 1] in large;
      var k' :| 0 <= k' < |large| && large[k'] == small[j - 1];
      RankInSubset(small, large, j - 1, k');
      PlacesFollowOrder(large, k', k);
    }
  }

  lemma SubsetNoLonger(small: seq<string>, large: seq<string>)
    requires Increasing(Less, small) && Increasing(Less, large)
    requires forall x :: x in small ==> x in large
    ensures |small| <= |large|
  {
    if |small| > 0 {
      assert small[|small| - 1] in small;
      var k :| 0 <= k < |large| && large[k] == small[|small| - 1];
      RankInSubset(small, large, |small| - 1, k);
    }
  }

  lemma SamePlace(small: seq<string>, large: seq<string>, top: seq<string>, i: int)
    requires Increasing(Less, small) && Increasing(Less, large) && top <= large
    requires forall x :: x in small ==> x in large
    requires forall x :: x in top ==> x in small
    requires 0 <= i < |top|
    ensures i < |small| && small[i] == top[i]
  {
    assert top[i] in top && Increasing(Less, top);
    var j :| 0 <= j < |small| && small[j] == top[i];
    RankInSubset(small, large, j, i);
    RankInSubset(top, small, i, j);
  }

  /** Dropping entries beyond the first `n` of a larger sequence cannot disturb those first `n`. */
  lemma TakeAgrees(small: seq<string>, large: seq<string>, n: nat)
    requires Increasing(Less, small) && Increasing(Less, large)
    requires forall x :: x in small ==> x in large
    requires forall x :: x in Take(large, n) ==> x in small
    ensures Take(small, n) == Take(large, n)
    ensures |small| >= n <==> |large| >= n
  {
    var top := Take(large, n);
    SubsetNoLonger(small, large);
    SubsetNoLonger(top, small);
    forall i | 0 <= i < |top| ensures i < |small| && small[i] == top[i] {
      SamePlace(small, large, top, i);
    }
  }

  /** The first `limit` of the union are within the first `limit` of every region that holds them. */
  lemma TopWithinRegion(regions: seq<string>, peersOf: string -> seq<string>, limit: nat, id: string, r: string)
    requires forall x :: x in regions ==> Increasing(Less, peersOf(x))
    requires r in regions && id in peersOf(r) && id in Take(Union(regions, peersOf), limit)
    ensures id in Take(peersOf(r), limit)
  {
    UnionContract(regions, peersOf);
    var union := Union(regions, peersOf);
    var k :| 0 <= k < |Take(union, limit)| && Take(union, limit)[k] == id;
    var j :| 0 <= j < |peersOf(r)| && peersOf(r)[j] == id;
    forall x | x in peersOf(r) ensures x in union {
      var m :| 0 <= m < |regions| && regions[m] == r;
      assert x in peersOf(regions[m]);
      assert InSome(regions, peersOf, x);
    }
    RankInSubset(peersOf(r), union, j, k);
    assert Take(peersOf(r), limit)[j] == id;
  }

  lemma {:induction false} SameRegionsHolding(regions: seq<string>, p: string -> seq<string>, q: string -> seq<string>,
                                              id: string)
    requires forall r :: r in regions ==> (id in p(r) <==> id in q(r))
    ensures RegionsHolding(regions, p, id) == RegionsHolding(regions, q, id)
  {
    if regions != [] {
      assert regions[0] in regions;
      SameRegionsHolding(regions[1..], p, q, id);
    }
  }

  /**
   * Limit pushdown. With room for `limit - 1` peers beside the focus, limiting every region's query to
   * `limit` rows leaves unchanged which peers are shown, every region each shown peer belongs to, and
   * whether some peer had to be left out.
   */
  lemma PushdownPreservesAnswer(regions: seq<string>, peersOf: string -> seq<string>, limit: nat)
    requires limit >= 1
    requires forall r :: r in regions ==> Increasing(Less, peersOf(r))
    ensures Take(Union(regions, Limited(peersOf, limit)), limit - 1) == Take(Union(regions, peersOf), limit - 1)
    ensures |Union(regions, Limited(peersOf, limit))| > limit - 1 <==> |Union(regions, peersOf)| > limit - 1
    ensures forall id :: id in Take(Union(regions, peersOf), limit - 1) ==>
      RegionsHolding(regions, Limited(peersOf, limit), id) == RegionsHolding(regions, peersOf, id)
  {
    var q := Limited(peersOf, limit);
    var full, part := Union(regions, peersOf), Union(regions, q);
    UnionContract(regions, peersOf);
    UnionContract(regions, q);
    forall id | id in part ensures id in full {
      assert InSome(regions, q, id);
      var k :| 0 <= k < |regions| && id in q(regions[k]);
      assert id in peersOf(regions[k]);
      assert InSome(regions, peersOf, id);
    }
    forall id | id in Take(full, limit) ensures id in part {
      assert id in full && InSome(regions, peersOf, id);
      var k :| 0 <= k < |regions| && id in peersOf(regions[k]);
      TopWithinRegion(regions, peersOf, limit, id, regions[k]);
      assert id in q(regions[k]);
      assert InSome(regions, q, id);
    }
    TakeAgrees(part, full, limit);
    assert Take(part, limit - 1) == Take(Take(part, limit), limit - 1);
    assert Take(full, limit - 1) == Take(Take(full, limit), limit - 1);
    forall id | id in Take(full, limit - 1)
      ensures RegionsHolding(regions, q, id) == RegionsHolding(regions, peersOf, id)
    {
      assert id in Take(full, limit);
      forall r | r in regions ensures id in q(r) <==> id in peersOf(r) {
        if id in peersOf(r) { TopWithinRegion(regions, peersOf, limit, id, r); }
      }
      SameRegionsHolding(regions, q, peersOf, id);
    }
  }

  /** The pushed limit is tight: one row less per query hides that a crowded region was cut. */
  lemma LimitIsTight(region: string, peersOf: string -> seq<string>, limit: nat)
    requires limit >= 1 && Increasing(Less, peersOf(region)) && |peersOf(region)| >= limit
    ensures |Union([region], peersOf)| > limit - 1
    ensures !(|Union([region], Limited(peersOf, limit - 1))| > limit - 1)
  {
    UnionOfOne(region, peersOf);
    UnionOfOne(region, Limited(peersOf, limit - 1));
  }

  lemma UnionOfOne(region: string, peersOf: string -> seq<string>)
    requires Increasing(Less, peersOf(region))
    ensures Union([region], peersOf) == peersOf(region)
  {
    LessStrictTotal();
    UnionContract([region], peersOf);
    forall id ensures id in Union([region], peersOf) <==> id in peersOf(region) {
      if id in peersOf(region) { assert id in peersOf([region][0]); }
    }
    IncreasingUnique(Less, Union([region], peersOf), peersOf(region));
  }

  lemma {:induction false} RegionsHoldingMembers(regions: seq<string>, peersOf: string -> seq<string>, id: string)
    ensures forall r :: r in RegionsHolding(regions, peersOf, id) <==> r in regions && id in peersOf(r)
  {
    if regions != [] {
      RegionsHoldingMembers(regions[1..], peersOf, id);
      assert forall r :: r in regions <==> r == regions[0] || r in regions[1..];
    }
  }

  lemma {:induction false} RegionsHoldingIncreasing(lt: (string, string) -> bool, regions: seq<string>,
                                                    peersOf: string -> seq<string>, id: string)
    requires Increasing(lt, regions)
    ensures Increasing(lt, RegionsHolding(regions, peersOf, id))
  {
    if regions != [] {
      var rest := RegionsHolding(regions[1..], peersOf, id);
      RegionsHoldingIncreasing(lt, regions[1..], peersOf, id);
      RegionsHoldingMembers(regions[1..], peersOf, id);
      forall j | 0 <= j < |rest| ensures lt(regions[0], rest[j]) {
        assert rest[j] in rest && rest[j] in regions[1..];
      }
    }
  }
}
