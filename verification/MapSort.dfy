/** What a well-formed projection is, and what the final sort does for it. */
module MapSort {
  import opened Orders
  import opened Text
  import opened MapTables
  import opened MapProjection

  ghost predicate DistinctRegions(s: seq<Region>) { forall i, j :: 0 <= i < j < |s| ==> s[i].id != s[j].id }
  ghost predicate DistinctNodes(s: seq<Node>) { forall i, j :: 0 <= i < j < |s| ==> s[i].id != s[j].id }
  ghost predicate DistinctEdges(s: seq<Edge>) { forall i, j :: 0 <= i < j < |s| ==> s[i].id != s[j].id }

  ghost predicate HasNode(nodes: seq<Node>, id: string) { exists k :: 0 <= k < |nodes| && nodes[k].id == id }
  ghost predicate HasRegion(regions: seq<Region>, id: string) { exists k :: 0 <= k < |regions| && regions[k].id == id }

  /** The count is exact and within its limit, and a total says whether something was cut. */
  ghost predicate Honest(m: Metric, n: int) {
    && m.returned == n <= m.limit
    && (m.total.Some? ==> n <= m.total.value && (m.truncated <==> n < m.total.value))
  }

  ghost predicate Anchored(n: Node, regions: seq<Region>) {
    && Distinct(n.regionIds)
    && (forall r :: r in n.regionIds ==> HasRegion(regions, r))
    && (n.primaryRegionId.Some? <==> n.regionIds != [])
    && (n.primaryRegionId.Some? ==> n.primaryRegionId.value in n.regionIds)
  }

  ghost predicate Referential(p: Projection) {
    && (forall e :: e in p.edges ==> HasNode(p.nodes, e.from) && HasNode(p.nodes, e.to))
    && (forall n :: n in p.nodes ==> Anchored(n, p.regions))
  }

  /** Well formed up to the order of the lists. */
  ghost predicate Coherent(p: Projection) {
    && DistinctRegions(p.regions) && DistinctNodes(p.nodes) && DistinctEdges(p.edges)
    && Honest(p.regionMetric, |p.regions|) && Honest(p.nodeMetric, |p.nodes|) && Honest(p.edgeMetric, |p.edges|)
    && Referential(p)
  }

  /** What a client may rely on: strictly ordered ids, honest counts, no dangling reference. */
  ghost predicate WellFormed(p: Projection) {
    && Increasing(RegionLess, p.regions) && Increasing(NodeLess, p.nodes) && Increasing(EdgeLess, p.edges)
    && Honest(p.regionMetric, |p.regions|) && Honest(p.nodeMetric, |p.nodes|) && Honest(p.edgeMetric, |p.edges|)
    && Referential(p)
  }

  lemma RecordOrdersStrict()
    ensures Strict(RegionLess) && Strict(NodeLess) && Strict(EdgeLess)
  {
    LessStrictTotal();
  }

  lemma ReferentialUpToOrder(p: Projection, q: Projection)
    requires Referential(p)
    requires forall r :: r in p.regions <==> r in q.regions
    requires forall n :: n in p.nodes <==> n in q.nodes
    requires forall e :: e in p.edges <==> e in q.edges
    ensures Referential(q)
  {
    forall id | HasNode(p.nodes, id) ensures HasNode(q.nodes, id) {
      var k :| 0 <= k < |p.nodes| && p.nodes[k].id == id;
      assert p.nodes[k] in q.nodes;
    }
    forall id | HasRegion(p.regions, id) ensures HasRegion(q.regions, id) {
      var k :| 0 <= k < |p.regions| && p.regions[k].id == id;
      assert p.regions[k] in q.regions;
    }
  }

  lemma SortOrdersRegions(s: seq<Region>)
    requires DistinctRegions(s)
    ensures Increasing(RegionLess, Sort(RegionLess, s))
  {
    RecordOrdersStrict();
    forall i, j | 0 <= i < j < |s| ensures RegionLess(s[i], s[j]) || RegionLess(s[j], s[i]) {
      LessConnected(s[i].id, s[j].id);
    }
    SortIncreasing(RegionLess, s);
  }

  lemma SortOrdersNodes(s: seq<Node>)
    requires DistinctNodes(s)
    ensures Increasing(NodeLess, Sort(NodeLess, s))
  {
    RecordOrdersStrict();
    forall i, j | 0 <= i < j < |s| ensures NodeLess(s[i], s[j]) || NodeLess(s[j], s[i]) {
      LessConnected(s[i].id, s[j].id);
    }
    SortIncreasing(NodeLess, s);
  }

  lemma SortOrdersEdges(s: seq<Edge>)
    requires DistinctEdges(s)
    ensures Increasing(EdgeLess, Sort(EdgeLess, s))
  {
    RecordOrdersStrict();
    forall i, j | 0 <= i < j < |s| ensures EdgeLess(s[i], s[j]) || EdgeLess(s[j], s[i]) {
      LessConnected(s[i].id, s[j].id);
    }
    SortIncreasing(EdgeLess, s);
  }

  /** Sorting a coherent projection makes it well formed. */
  lemma SortedWellFormed(p: Projection)
    requires Coherent(p)
    ensures WellFormed(SortMapProjection(p))
  {
    SortOrdersRegions(p.regions);
    SortOrdersNodes(p.nodes);
    SortOrdersEdges(p.edges);
    SortElements(RegionLess, p.regions);
    SortElements(NodeLess, p.nodes);
    SortElements(EdgeLess, p.edges);
    ReferentialUpToOrder(p, SortMapProjection(p));
  }

  /** Sorting cannot repair repeated ids. */
  lemma SortKeepsRepeats(p: Projection)
    requires WellFormed(SortMapProjection(p))
    ensures Coherent(p)
  {
    var q := SortMapProjection(p);
    SortElements(RegionLess, p.regions);
    SortElements(NodeLess, p.nodes);
    SortElements(EdgeLess, p.edges);
    ReferentialUpToOrder(q, p);
    SortedDistinctNodes(p.nodes);
    SortedDistinctRegions(p.regions);
    SortedDistinctEdges(p.edges);
  }

  lemma SortedDistinctNodes(s: seq<Node>)
    requires Increasing(NodeLess, Sort(NodeLess, s))
    ensures DistinctNodes(s)
  {
    RecordOrdersStrict();
    forall i, j | 0 <= i < j < |s| ensures s[i].id != s[j].id {
      SortedRepeats(NodeLess, s, i, j);
      LessIrreflexive(s[i].id);
    }
  }

  lemma SortedDistinctRegions(s: seq<Region>)
    requires Increasing(RegionLess, Sort(RegionLess, s))
    ensures DistinctRegions(s)
  {
    RecordOrdersStrict();
    forall i, j | 0 <= i < j < |s| ensures s[i].id != s[j].id {
      SortedRepeats(RegionLess, s, i, j);
      LessIrreflexive(s[i].id);
    }
  }

  lemma SortedDistinctEdges(s: seq<Edge>)
    requires Increasing(EdgeLess, Sort(EdgeLess, s))
    ensures DistinctEdges(s)
  {
    RecordOrdersStrict();
    forall i, j | 0 <= i < j < |s| ensures s[i].id != s[j].id {
      SortedRepeats(EdgeLess, s, i, j);
      LessIrreflexive(s[i].id);
    }
  }

  lemma SortedRepeats<T(!new)>(lt: (T, T) -> bool, s: seq<T>, i: int, j: int)
    requires Strict(lt) && Increasing(lt, Sort(lt, s)) && 0 <= i < j < |s|
    ensures lt(s[i], s[j]) || lt(s[j], s[i])
  {
    SortElements(lt, s);
    var r := Sort(lt, s);
    assert s[i] in r && s[j] in r;
    var a :| 0 <= a < |r| && r[a] == s[i];
    var b :| 0 <= b < |r| && r[b] == s[j];
    if a == b {
      RepeatedCount(s, i, j);
      assert multiset(r)[r[a]] >= 2;
      OnceInIncreasing(lt, r, a);
    }
  }

  lemma OnceInIncreasing<T(!new)>(lt: (T, T) -> bool, r: seq<T>, a: int)
    requires Strict(lt) && Increasing(lt, r) && 0 <= a < |r|
    ensures multiset(r)[r[a]] == 1
  {
    assert r == r[..a] + [r[a]] + r[a + 1..];
    assert multiset(r) == multiset(r[..a]) + multiset{r[a]} + multiset(r[a + 1..]);
    assert forall k :: 0 <= k < a ==> lt(r[k], r[a]);
    assert forall k :: a < k < |r| ==> lt(r[a], r[k]);
    assert r[a] !in r[..a] && r[a] !in r[a + 1..];
  }
}
