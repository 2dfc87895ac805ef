/**
 * The map handler as it runs: limited queries, hash maps walked in arbitrary order, response fields filled
 * in loops, one sort at the end. Each method is proved equal to the branch it computes in MapProjection.
 */
module MapHandler {
  import opened Orders
  import opened Text
  import opened MapTables
  import opened LimitPushdown
  import opened MapProjection

  /** Go's `range` over a map: its keys in an order the program does not control. */
  method MapKeys(keys: set<string>) returns (out: seq<string>)
    ensures Distinct(out)
    ensures forall k :: k in out <==> k in keys
  {
    out := [];
    var left := keys;
    while left != {}
      invariant left <= keys
      invariant forall k :: k in out <==> k in keys && k !in left
      invariant Distinct(out)
    {
      var k :| k in left;
      left := left - {k};
      out := out + [k];
    }
  }

  lemma PrefixNext<T>(s: seq<T>, i: nat)
    requires i < |s|
    ensures s[..i + 1] == s[..i] + [s[i]]
  {
  }

  lemma WholePrefix<T>(s: seq<T>)
    ensures s[..|s|] == s
  {
  }

  /** Collecting the keys of a map and sorting them gives the one increasing list of those keys. */
  lemma SortedKeys(lt: (string, string) -> bool, walked: seq<string>, expected: seq<string>)
    requires StrictTotal(lt) && Distinct(walked) && Increasing(lt, expected)
    requires forall k :: k in walked <==> k in expected
    ensures Sort(lt, walked) == expected
  {
    SeparatedWhenDistinct(lt, walked);
    SortIncreasing(lt, walked);
    SortElements(lt, walked);
    IncreasingUnique(lt, Sort(lt, walked), expected);
  }

  method DeriveL3SubnetIDs(ips: seq<string>, subnetOf: string -> Option<string>) returns (out: seq<string>)
    ensures out == SubnetIds(ips, subnetOf)
  {
    var seen: set<string> := {};
    for i := 0 to |ips|
      invariant forall p :: p in seen <==> exists k :: 0 <= k < i && subnetOf(ips[k]) == Some(p)
    {
      var derived := subnetOf(ips[i]);
      if derived == None { continue; }
      seen := seen + {derived.value};
    }
    out := MapKeys(seen);
    LessStrictTotal();
    SelectMembers(ips, subnetOf);
    SortDistinctIncreasing(Less, Select(ips, subnetOf));
    SortedKeys(Less, out, SubnetIds(ips, subnetOf));
    out := Sort(Less, out);
  }

  /** The positive VLAN ids, each once. */
  method PositiveVlans(pvids: seq<int>) returns (vlanSorted: seq<int>)
    requires Increasing(IntLess, pvids)
    ensures vlanSorted == Select(pvids, KeepPositive)
  {
    var vlanSeen: set<int> := {};
    vlanSorted := [];
    for i := 0 to |pvids|
      invariant forall v :: v in vlanSeen <==> v in vlanSorted
      invariant vlanSorted == Select(pvids[..i], KeepPositive)
    {
      assert pvids[..i + 1] == pvids[..i] + [pvids[i]];
      SelectAppend(pvids[..i], pvids[i], KeepPositive);
      if pvids[i] <= 0 { continue; }
      SelectMembers(pvids[..i], KeepPositive);
      assert pvids[i] !in vlanSeen;
      if pvids[i] in vlanSeen { continue; }
      vlanSeen := vlanSeen + {pvids[i]};
      vlanSorted := vlanSorted + [pvids[i]];
    }
    assert pvids[..|pvids|] == pvids;
  }

  /** Sorting what already ascends changes nothing. */
  lemma SortIncreasingInts(s: seq<int>)
    requires Increasing(IntLess, s)
    ensures Sort(IntLess, s) == s
  {
    IntLessStrictTotal();
    IncreasingDistinct(IntLess, s);
    SeparatedWhenDistinct(IntLess, s);
    SortIncreasing(IntLess, s);
    SortElements(IntLess, s);
    IncreasingUnique(IntLess, Sort(IntLess, s), s);
  }

  /** Positive VLAN ids, each once, ascending, as strings. */
  method VlanRegions(pvids: seq<int>) returns (out: seq<string>)
    requires Increasing(IntLess, pvids)
    ensures out == VlanIds(pvids)
  {
    var vlanSorted := PositiveVlans(pvids);
    KeepPositiveIncreasing(pvids);
    SortIncreasingInts(vlanSorted);
    vlanSorted := Sort(IntLess, vlanSorted);
    out := [];
    for i := 0 to |vlanSorted|
      invariant out == Map(Itoa, vlanSorted[..i])
    {
      assert vlanSorted[..i + 1] == vlanSorted[..i] + [vlanSorted[i]];
      MapAppend(Itoa, vlanSorted[..i], vlanSorted[i]);
      out := out + [Itoa(vlanSorted[i])];
    }
    assert vlanSorted[..|vlanSorted|] == vlanSorted;
    PositiveVlanNames(pvids);
  }

  function KeepPositive(v: int): Option<int> { if v > 0 then Some(v) else None }

  lemma {:induction false} SelectAppend<T, U>(rows: seq<T>, row: T, f: T -> Option<U>)
    ensures Select(rows + [row], f) == Select(rows, f) + (if f(row).Some? then [f(row).value] else [])
  {
    if rows == [] {
      assert [row][1..] == [];
    } else {
      assert (rows + [row])[1..] == rows[1..] + [row];
      SelectAppend(rows[1..], row, f);
    }
  }

  lemma {:induction false} MapAppend<T, U>(f: T -> U, s: seq<T>, x: T)
    ensures Map(f, s + [x]) == Map(f, s) + [f(x)]
  {
    assert Map(f, s + [x])[|s|] == f(x);
    assert Map(f, s + [x])[..|s|] == Map(f, s);
  }

  lemma {:induction false} KeepPositiveIncreasing(pvids: seq<int>)
    requires Increasing(IntLess, pvids)
    ensures Increasing(IntLess, Select(pvids, KeepPositive))
  {
    if pvids != [] {
      KeepPositiveIncreasing(pvids[1..]);
      SelectMembers(pvids[1..], KeepPositive);
      var rest := Select(pvids[1..], KeepPositive);
      forall j | 0 <= j < |rest| ensures IntLess(pvids[0], rest[j]) {
        assert rest[j] in rest;
        var k :| 0 <= k < |pvids[1..]| && KeepPositive(pvids[1..][k]) == Some(rest[j]);
        assert IntLess(pvids[0], pvids[k + 1]);
      }
    }
  }

  lemma {:induction false} PositiveVlanNames(pvids: seq<int>)
    ensures Map(Itoa, Select(pvids, KeepPositive)) == VlanIds(pvids)
  {
    if pvids != [] { PositiveVlanNames(pvids[1..]); }
  }

  /** The collected map lists exactly the limited peers of the walked regions, each with all of them. */
  ghost predicate Collected(regionsOf: map<string, set<string>>, walked: seq<string>, q: string -> seq<string>) {
    PeersCollected(regionsOf, walked, q) && RegionsCollected(regionsOf, walked, q)
  }

  ghost predicate PeersCollected(regionsOf: map<string, set<string>>, walked: seq<string>, q: string -> seq<string>) {
    forall id :: id in regionsOf <==> InSome(walked, q, id)
  }

  ghost predicate RegionsCollected(regionsOf: map<string, set<string>>, walked: seq<string>, q: string -> seq<string>) {
    forall id, r :: id in regionsOf ==> (r in regionsOf[id] <==> r in walked && id in q(r))
  }

  /** One region's peers merged in: the keys of the map, and their region sets. */
  ghost predicate PeersMerged(before: map<string, set<string>>, after: map<string, set<string>>, peers: seq<string>) {
    forall id :: id in after <==> id in before || id in peers
  }

  ghost predicate RegionsMerged(before: map<string, set<string>>, after: map<string, set<string>>, region: string,
                                peers: seq<string>) {
    forall id, r :: id in after ==>
      (r in after[id] <==> (id in before && r in before[id]) || (r == region && id in peers))
  }

  ghost predicate Labelled(names: map<string, Option<string>>, regionsOf: map<string, set<string>>, t: Tables) {
    && names.Keys == regionsOf.Keys
    && forall id :: id in names ==> names[id] == DisplayName(t, id)
  }

  /** Adds one region's peers to the collected regions and names. */
  method MergePeers(before: map<string, set<string>>, seen: map<string, Option<string>>, region: string,
                    peers: seq<string>, t: Tables)
    returns (after: map<string, set<string>>, names: map<string, Option<string>>)
    requires Labelled(seen, before, t)
    ensures Labelled(names, after, t)
    ensures PeersMerged(before, after, peers) && RegionsMerged(before, after, region, peers)
  {
    after, names := before, seen;
    for j := 0 to |peers|
      invariant Labelled(names, after, t)
      invariant PeersMerged(before, after, peers[..j]) && RegionsMerged(before, after, region, peers[..j])
    {
      var id := peers[j];
      PrefixNext(peers, j);
      var regions := if id in after then after[id] else {};
      after := after[id := regions + {region}];
      if id !in names {
        names := names[id := DisplayName(t, id)];
      }
    }
    WholePrefix(peers);
  }

  /** One limited peer query per region, merged into region sets and first-seen display names. */
  method CollectPeers(t: Tables, fails: Query -> bool, peersOf: string -> seq<string>, shown: seq<string>, nodeLimit: nat)
    returns (failed: bool, regionsOf: map<string, set<string>>, names: map<string, Option<string>>)
    ensures failed <==> exists k :: 0 <= k < |shown| && fails(ListPeers(shown[k]))
    ensures !failed ==> Collected(regionsOf, shown, Limited(peersOf, nodeLimit))
    ensures !failed ==> Labelled(names, regionsOf, t)
  {
    ghost var q := Limited(peersOf, nodeLimit);
    regionsOf, names, failed := map[], map[], false;
    NothingCollected(shown, q);
    for i := 0 to |shown|
      invariant forall k :: 0 <= k < i ==> !fails(ListPeers(shown[k]))
      invariant Collected(regionsOf, shown[..i], q)
      invariant Labelled(names, regionsOf, t)
    {
      if fails(ListPeers(shown[i])) { return true, regionsOf, names; }
      var peers := Take(peersOf(shown[i]), nodeLimit);
      ghost var before := regionsOf;
      regionsOf, names := MergePeers(regionsOf, names, shown[i], peers, t);
      CollectedNext(before, regionsOf, shown, i, q);
    }
    WholePrefix(shown);
  }

  lemma NothingCollected(shown: seq<string>, q: string -> seq<string>)
    ensures Collected(map[], shown[..0], q)
  {
  }

  lemma CollectedNext(before: map<string, set<string>>, after: map<string, set<string>>, shown: seq<string>, i: nat,
                      q: string -> seq<string>)
    requires i < |shown| && Collected(before, shown[..i], q)
    requires PeersMerged(before, after, q(shown[i])) && RegionsMerged(before, after, shown[i], q(shown[i]))
    ensures Collected(after, shown[..i + 1], q)
  {
    PeersNext(before, after, shown, i, q);
    RegionsNext(before, after, shown, i, q);
  }

  lemma InSomeNext(shown: seq<string>, i: nat, q: string -> seq<string>, id: string)
    requires i < |shown|
    ensures InSome(shown[..i + 1], q, id) <==> InSome(shown[..i], q, id) || id in q(shown[i])
  {
    if InSome(shown[..i], q, id) {
      var k :| 0 <= k < i && id in q(shown[..i][k]);
      assert id in q(shown[..i + 1][k]);
    }
    if id in q(shown[i]) { assert id in q(shown[..i + 1][i]); }
    if InSome(shown[..i + 1], q, id) {
      var k :| 0 <= k < i + 1 && id in q(shown[..i + 1][k]);
      if k < i { assert id in q(shown[..i][k]); }
    }
  }

  lemma PeersNext(before: map<string, set<string>>, after: map<string, set<string>>, shown: seq<string>, i: nat,
                  q: string -> seq<string>)
    requires i < |shown| && PeersCollected(before, shown[..i], q) && PeersMerged(before, after, q(shown[i]))
    ensures PeersCollected(after, shown[..i + 1], q)
  {
    forall id ensures id in after <==> InSome(shown[..i + 1], q, id) { InSomeNext(shown, i, q, id); }
  }

  lemma RegionsNext(before: map<string, set<string>>, after: map<string, set<string>>, shown: seq<string>, i: nat,
                    q: string -> seq<string>)
    requires i < |shown| && Collected(before, shown[..i], q) && RegionsMerged(before, after, shown[i], q(shown[i]))
    ensures RegionsCollected(after, shown[..i + 1], q)
  {
    PrefixNext(shown, i);
    forall id, r | id in after ensures r in after[id] <==> r in shown[..i + 1] && id in q(r) {
      if r in shown[..i] && id in q(r) {
        var k :| 0 <= k < i && shown[..i][k] == r;
        assert InSome(shown[..i], q, id);
      }
    }
  }

  /** VLAN ids compare as numbers; anything else comes after them, as text. */
  function VlanLess(a: string, b: string): bool {
    match (Atoi(a), Atoi(b))
    case (Some(x), Some(y)) => x < y || (x == y && Less(a, b))
    case (Some(_), None) => true
    case (None, Some(_)) => false
    case (None, None) => Less(a, b)
  }

  lemma VlanLessStrictTotal()
    ensures StrictTotal(VlanLess)
  {
    forall a ensures !VlanLess(a, a) { LessIrreflexive(a); }
    forall a, b, c | VlanLess(a, b) && VlanLess(b, c) ensures VlanLess(a, c) {
      if Less(a, b) && Less(b, c) { LessTransitive(a, b, c); }
    }
    forall a, b ensures a == b || VlanLess(a, b) || VlanLess(b, a) { LessConnected(a, b); }
  }

  /** The comparator a layer sorts region ids with. */
  function RegionIdLess(layer: string): (string, string) -> bool { if layer == "l3" then Less else VlanLess }

  lemma RegionIdLessStrictTotal(layer: string)
    ensures StrictTotal(RegionIdLess(layer))
  {
    LessStrictTotal();
    VlanLessStrictTotal();
  }

  lemma VlanLessOfInts(x: int, y: int)
    requires 0 < x < y <= MAX_INT64
    ensures VlanLess(Itoa(x), Itoa(y))
  {
    AtoiItoa(x);
    AtoiItoa(y);
  }

  lemma {:induction false} VlanIdsOrdered(pvids: seq<int>)
    requires Increasing(IntLess, pvids) && forall k :: 0 <= k < |pvids| ==> pvids[k] <= MAX_INT64
    ensures Increasing(VlanLess, VlanIds(pvids))
  {
    if pvids != [] {
      VlanIdsOrdered(pvids[1..]);
      SelectMembers(pvids[1..], PositiveVlan);
      var rest := VlanIds(pvids[1..]);
      if pvids[0] > 0 {
        forall j | 0 <= j < |rest| ensures VlanLess(Itoa(pvids[0]), rest[j]) {
          assert rest[j] in rest;
          var k :| 0 <= k < |pvids[1..]| && PositiveVlan(pvids[1..][k]) == Some(rest[j]);
          assert IntLess(pvids[0], pvids[k + 1]);
          VlanLessOfInts(pvids[0], pvids[k + 1]);
        }
      }
    }
  }

  method BuildRegionList(layer: string, shown: seq<string>) returns (regions: seq<Region>)
    ensures regions == RegionList(layer, shown)
  {
    regions := [];
    for i := 0 to |shown|
      invariant regions == RegionList(layer, shown[..i])
    {
      assert shown[..i + 1] == shown[..i] + [shown[i]];
      MapAppend(x => MapRegion(layer, x), shown[..i], shown[i]);
      regions := regions + [MapRegion(layer, shown[i])];
    }
    assert shown[..|shown|] == shown;
  }

  /** The limited queries still know every region of a peer that is shown. */
  ghost predicate Complete(regionsOf: map<string, set<string>>, shown: seq<string>, peersOf: string -> seq<string>, id: string) {
    && id in regionsOf
    && forall r :: r in regionsOf[id] <==> r in RegionsHolding(shown, peersOf, id)
  }

  method BuildPeerNode(t: Tables, layer: string, shown: seq<string>, ghost peersOf: string -> seq<string>, id: string,
                       regionSet: set<string>, name: Option<string>) returns (node: Node)
    requires Increasing(RegionIdLess(layer), shown) && name == DisplayName(t, id)
    requires forall r :: r in regionSet <==> r in RegionsHolding(shown, peersOf, id)
    ensures node == PeerNode(t, shown, peersOf, id)
  {
    var regionIds := MapKeys(regionSet);
    RegionIdLessStrictTotal(layer);
    RegionsHoldingIncreasing(RegionIdLess(layer), shown, peersOf, id);
    SortedKeys(RegionIdLess(layer), regionIds, RegionsHolding(shown, peersOf, id));
    regionIds := Sort(RegionIdLess(layer), regionIds);
    var primary := if |regionIds| > 0 then Some(regionIds[0]) else None;
    node := Node(id, "device", name, primary, regionIds);
  }

  method BuildPeerNodes(t: Tables, layer: string, shown: seq<string>, ghost peersOf: string -> seq<string>,
                        included: seq<string>, regionsOf: map<string, set<string>>, names: map<string, Option<string>>)
    returns (nodes: seq<Node>)
    requires Increasing(RegionIdLess(layer), shown) && Labelled(names, regionsOf, t)
    requires forall k :: 0 <= k < |included| ==> Complete(regionsOf, shown, peersOf, included[k])
    ensures nodes == PeerNodes(t, shown, peersOf, included)
  {
    ghost var expected := PeerNodes(t, shown, peersOf, included);
    nodes := [];
    for i := 0 to |included|
      invariant nodes == expected[..i]
    {
      var id := included[i];
      assert Complete(regionsOf, shown, peersOf, included[i]);
      var node := BuildPeerNode(t, layer, shown, peersOf, id, regionsOf[id], names[id]);
      PeerNodesAt(t, shown, peersOf, included, i);
      PrefixNext(expected, i);
      nodes := nodes + [node];
    }
    WholePrefix(expected);
  }

  lemma PeerNodesAt(t: Tables, shown: seq<string>, peersOf: string -> seq<string>, included: seq<string>, i: nat)
    requires i < |included|
    ensures |PeerNodes(t, shown, peersOf, included)| == |included|
    ensures PeerNodes(t, shown, peersOf, included)[i] == PeerNode(t, shown, peersOf, included[i])
  {
  }

  method BuildPeerEdges(layer: string, focusId: string, included: seq<string>, lim: Limits) returns (edges: seq<Edge>)
    ensures edges == PeerEdges(layer, focusId, included, lim)
  {
    edges := [];
    if layer == "l3" {
      var edgePeerIds := if |included| > lim.edges then included[..lim.edges] else included;
      ghost var expected := PeerEdges(layer, focusId, included, lim);
      assert edgePeerIds == Take(included, lim.edges);
      for i := 0 to |edgePeerIds|
        invariant edges == expected[..i]
      {
        assert expected[i] == PeerEdge(focusId, edgePeerIds[i]);
        PrefixNext(expected, i);
        edges := edges + [PeerEdge(focusId, edgePeerIds[i])];
      }
    }
  }

  /** What was collected from limited queries agrees with the unlimited ones on everything shown. */
  lemma {:induction false} CollectedSuffices(shown: seq<string>, peersOf: string -> seq<string>, lim: Limits,
                          regionsOf: map<string, set<string>>, peerIds: seq<string>)
    requires lim.nodes >= 1 && Distinct(peerIds) && forall id :: id in peerIds <==> id in regionsOf
    requires forall r :: r in shown ==> Increasing(Less, peersOf(r))
    requires Collected(regionsOf, shown, Limited(peersOf, lim.nodes))
    ensures Take(Sort(Less, peerIds), lim.nodes - 1) == IncludedPeers(shown, peersOf, lim)
    ensures |peerIds| > lim.nodes - 1 <==> |Union(shown, peersOf)| > lim.nodes - 1
  {
    var q := Limited(peersOf, lim.nodes);
    PushdownPreservesAnswer(shown, peersOf, lim.nodes);
    UnionContract(shown, q);
    SortedKeysLess(peerIds, Union(shown, q));
    SortElements(Less, peerIds);
  }

  lemma AllIncludedComplete(shown: seq<string>, peersOf: string -> seq<string>, lim: Limits,
                            regionsOf: map<string, set<string>>, included: seq<string>)
    requires lim.nodes >= 1 && included == IncludedPeers(shown, peersOf, lim)
    requires forall r :: r in shown ==> Increasing(Less, peersOf(r))
    requires Collected(regionsOf, shown, Limited(peersOf, lim.nodes))
    ensures forall k :: 0 <= k < |included| ==> Complete(regionsOf, shown, peersOf, included[k])
  {
    forall k | 0 <= k < |included| ensures Complete(regionsOf, shown, peersOf, included[k]) {
      IncludedComplete(shown, peersOf, lim, regionsOf, included[k]);
    }
  }

  lemma {:induction false} IncludedComplete(shown: seq<string>, peersOf: string -> seq<string>, lim: Limits,
                         regionsOf: map<string, set<string>>, id: string)
    requires lim.nodes >= 1 && id in IncludedPeers(shown, peersOf, lim)
    requires forall r :: r in shown ==> Increasing(Less, peersOf(r))
    requires Collected(regionsOf, shown, Limited(peersOf, lim.nodes))
    ensures Complete(regionsOf, shown, peersOf, id)
  {
    IncludedHeld(shown, peersOf, lim, id);
    CollectedComplete(regionsOf, shown, peersOf, Limited(peersOf, lim.nodes), id);
  }

  /** A shown peer is returned by some limited query, and by just those of its regions. */
  lemma {:induction false} IncludedHeld(shown: seq<string>, peersOf: string -> seq<string>, lim: Limits, id: string)
    requires lim.nodes >= 1 && id in IncludedPeers(shown, peersOf, lim)
    requires forall r :: r in shown ==> Increasing(Less, peersOf(r))
    ensures var q := Limited(peersOf, lim.nodes);
      InSome(shown, q, id) && RegionsHolding(shown, q, id) == RegionsHolding(shown, peersOf, id)
  {
    var q := Limited(peersOf, lim.nodes);
    PushdownPreservesAnswer(shown, peersOf, lim.nodes);
    UnionContract(shown, q);
    assert id in Union(shown, q);
  }

  lemma {:induction false} CollectedComplete(regionsOf: map<string, set<string>>, shown: seq<string>, peersOf: string -> seq<string>,
                          q: string -> seq<string>, id: string)
    requires Collected(regionsOf, shown, q) && InSome(shown, q, id)
    requires RegionsHolding(shown, q, id) == RegionsHolding(shown, peersOf, id)
    ensures Complete(regionsOf, shown, peersOf, id)
  {
    RegionsHoldingMembers(shown, q, id);
  }

  lemma SortedKeysLess(walked: seq<string>, expected: seq<string>)
    requires Distinct(walked) && Increasing(Less, expected)
    requires forall k :: k in walked <==> k in expected
    ensures Sort(Less, walked) == expected
  {
    LessStrictTotal();
    SortedKeys(Less, walked, expected);
  }

  /** Builds an L3 or L2 device projection from limited queries; the answer is the unlimited one. */
  method BuildDeviceFocus(w: World, layer: string, focus: Focus, all: seq<string>, lim: Limits)
    returns (r: Result<Projection, ApiError>)
    requires Increasing(RegionIdLess(layer), all) && lim.nodes >= 1
    ensures r == RespondDeviceRegions(w, layer, focus, all, lim)
  {
    var shown := Take(all, lim.regions);
    var peersOf := PeersOf(w, layer, focus.id);
    forall x | x in shown ensures Increasing(Less, peersOf(x)) { PeersOfContract(w, layer, focus.id, x); }
    var failed, regionsOf, names := CollectPeers(w.tables, w.fails, peersOf, shown, lim.nodes);
    if failed { return Err(DbError); }
    var p := BuildFromCollected(w.tables, layer, focus, all, peersOf, lim, regionsOf, names);
    return Ok(p);
  }

  /** The collected peers, sorted and cut to the nodes left beside the focus. */
  method IncludePeers(shown: seq<string>, ghost peersOf: string -> seq<string>, lim: Limits,
                      regionsOf: map<string, set<string>>)
    returns (included: seq<string>, nodesTruncated: bool)
    requires lim.nodes >= 1 && forall r :: r in shown ==> Increasing(Less, peersOf(r))
    requires Collected(regionsOf, shown, Limited(peersOf, lim.nodes))
    ensures included == IncludedPeers(shown, peersOf, lim)
    ensures nodesTruncated <==> |Union(shown, peersOf)| > lim.nodes - 1
  {
    var peerIds := MapKeys(regionsOf.Keys);
    CollectedSuffices(shown, peersOf, lim, regionsOf, peerIds);
    SortElements(Less, peerIds);
    peerIds := Sort(Less, peerIds);
    nodesTruncated := |peerIds| > lim.nodes - 1;
    included := if nodesTruncated then peerIds[..lim.nodes - 1] else peerIds;
  }

  /** The peers shown, each with its complete regions and its name. */
  method BuildPeers(t: Tables, layer: string, shown: seq<string>, ghost peersOf: string -> seq<string>, lim: Limits,
                    regionsOf: map<string, set<string>>, names: map<string, Option<string>>)
    returns (included: seq<string>, nodesTruncated: bool, nodes: seq<Node>)
    requires Increasing(RegionIdLess(layer), shown) && lim.nodes >= 1
    requires forall r :: r in shown ==> Increasing(Less, peersOf(r))
    requires Collected(regionsOf, shown, Limited(peersOf, lim.nodes)) && Labelled(names, regionsOf, t)
    ensures included == IncludedPeers(shown, peersOf, lim) && nodes == PeerNodes(t, shown, peersOf, included)
    ensures nodesTruncated <==> |Union(shown, peersOf)| > lim.nodes - 1
  {
    included, nodesTruncated := IncludePeers(shown, peersOf, lim, regionsOf);
    AllIncludedComplete(shown, peersOf, lim, regionsOf, included);
    nodes := BuildPeerNodes(t, layer, shown, peersOf, included, regionsOf, names);
  }

  /** The metrics a device projection reports for its parts. */
  function DeviceMetrics(layer: string, all: seq<string>, lim: Limits, shown: nat, nodes: nat, nodesTruncated: bool,
                         included: nat, edges: nat): (Metric, Metric, Metric)
  {
    (Metric(shown, lim.regions, |all| > shown, Some(|all|)),
     Metric(nodes, lim.nodes, nodesTruncated, if nodesTruncated then None else Some(nodes)),
     if layer == "l3" then Metric(edges, lim.edges, included > lim.edges, Some(included))
     else Metric(0, lim.edges, false, None))
  }

  /** A device projection, part by part. */
  lemma DeviceFocusParts(t: Tables, layer: string, focus: Focus, all: seq<string>, peersOf: string -> seq<string>, lim: Limits)
    ensures var shown := Take(all, lim.regions); var included := IncludedPeers(shown, peersOf, lim);
      var nodes := [DeviceNode(t, focus.id, shown)] + PeerNodes(t, shown, peersOf, included);
      var edges := PeerEdges(layer, focus.id, included, lim);
      var m := DeviceMetrics(layer, all, lim, |shown|, |nodes|, |Union(shown, peersOf)| > lim.nodes - 1, |included|, |edges|);
      DeviceFocusOver(t, layer, focus, all, peersOf, lim)
        == Projection(layer, Some(focus), RegionList(layer, shown), nodes, edges, m.0, m.1, m.2)
  {
  }

  method BuildFromCollected(t: Tables, layer: string, focus: Focus, all: seq<string>, ghost peersOf: string -> seq<string>,
                            lim: Limits, regionsOf: map<string, set<string>>, names: map<string, Option<string>>)
    returns (p: Projection)
    requires Increasing(RegionIdLess(layer), all) && lim.nodes >= 1
    requires forall r :: r in Take(all, lim.regions) ==> Increasing(Less, peersOf(r))
    requires Collected(regionsOf, Take(all, lim.regions), Limited(peersOf, lim.nodes)) && Labelled(names, regionsOf, t)
    ensures p == DeviceFocusOver(t, layer, focus, all, peersOf, lim)
  {
    var shown := Take(all, lim.regions);
    var included, nodesTruncated, peerNodes := BuildPeers(t, layer, shown, peersOf, lim, regionsOf, names);
    var regions := BuildRegionList(layer, shown);
    var nodes := [DeviceNode(t, focus.id, shown)] + peerNodes;
    var edges := BuildPeerEdges(layer, focus.id, included, lim);
    var metrics := DeviceMetrics(layer, all, lim, |regions|, |nodes|, nodesTruncated, |included|, |edges|);
    DeviceFocusParts(t, layer, focus, all, peersOf, lim);
    p := Projection(layer, Some(focus), regions, nodes, edges, metrics.0, metrics.1, metrics.2);
  }

  /** Reads one row more than fits, to learn whether more exist. */
  method BuildRegionFocus(w: World, layer: string, depth: int, focus: Focus, all: seq<string>, lim: Limits)
    returns (r: Result<Projection, ApiError>)
    ensures r == RespondRegion(w, layer, depth, focus, all, lim)
  {
    var resp := RegionOnly(layer, focus, lim);
    if depth > 0 {
      if w.fails(ListMembers) { return Err(DbError); }
      var members := Take(all, lim.nodes + 1);
      var nodesTruncated := |members| > lim.nodes;
      var included := if nodesTruncated then members[..lim.nodes] else members;
      assert included == Take(all, lim.nodes);
      var nodes: seq<Node> := [];
      for i := 0 to |included|
        invariant nodes == MemberNodes(w.tables, focus.id, included[..i])
      {
        assert included[..i + 1] == included[..i] + [included[i]];
        MapAppend(m => MemberNode(w.tables, focus.id, m), included[..i], included[i]);
        nodes := nodes + [MemberNode(w.tables, focus.id, included[i])];
      }
      assert included[..|included|] == included;
      resp := resp.(nodes := nodes,
                    nodeMetric := Metric(|nodes|, lim.nodes, nodesTruncated, if nodesTruncated then None else Some(|nodes|)));
    }
    return Ok(resp);
  }

  function PeerIdOf(l: LinkPeer): string { l.peer }

  lemma LinkPeerIds(links: seq<LinkPeer>)
    requires PeersIncrease(links)
    ensures Increasing(Less, Map(PeerIdOf, links))
  {
    var ids := Map(PeerIdOf, links);
    forall i, j | 0 <= i < j < |ids| ensures Less(ids[i], ids[j]) {
      assert ids[i] == links[i].peer && ids[j] == links[j].peer;
    }
  }

  /** Neighbour ids and names, in the order of the links. */
  method NeighbourIds(t: Tables, included: seq<LinkPeer>)
    returns (peerIds: seq<string>, peerNames: map<string, Option<string>>)
    ensures peerIds == Map(PeerIdOf, included)
    ensures forall k :: 0 <= k < |included| ==> included[k].peer in peerNames
    ensures forall id :: id in peerNames ==> peerNames[id] == DisplayName(t, id)
  {
    peerIds, peerNames := [], map[];
    for i := 0 to |included|
      invariant peerIds == Map(PeerIdOf, included[..i])
      invariant forall k :: 0 <= k < i ==> included[k].peer in peerNames
      invariant forall id :: id in peerNames ==> peerNames[id] == DisplayName(t, id)
    {
      assert included[..i + 1] == included[..i] + [included[i]];
      MapAppend(PeerIdOf, included[..i], included[i]);
      peerIds := peerIds + [included[i].peer];
      if included[i].peer !in peerNames {
        peerNames := peerNames[included[i].peer := DisplayName(t, included[i].peer)];
      }
    }
    assert included[..|included|] == included;
  }

  /** Links arrive by ascending peer, so sorting their peers changes nothing. */
  lemma NeighbourIdsSorted(included: seq<LinkPeer>)
    requires PeersIncrease(included)
    ensures Sort(Less, Map(PeerIdOf, included)) == Map(PeerIdOf, included)
  {
    var ids := Map(PeerIdOf, included);
    LinkPeerIds(included);
    IncreasingIds(ids);
    SortedKeysLess(ids, ids);
  }

  method BuildNeighbourNodes(t: Tables, included: seq<LinkPeer>) returns (nodes: seq<Node>)
    requires PeersIncrease(included)
    ensures nodes == NeighbourNodes(t, included)
  {
    var peerIds, peerNames := NeighbourIds(t, included);
    NeighbourIdsSorted(included);
    peerIds := Sort(Less, peerIds);
    ghost var expected := NeighbourNodes(t, included);
    nodes := [];
    for i := 0 to |peerIds|
      invariant nodes == expected[..i]
    {
      assert peerIds[i] == included[i].peer;
      var node := Node(peerIds[i], "device", peerNames[peerIds[i]], None, []);
      assert expected[i] == node;
      nodes := nodes + [node];
    }
  }

  method BuildLinkEdges(focusId: string, included: seq<LinkPeer>) returns (edges: seq<Edge>)
    ensures edges == LinkEdges(focusId, included)
  {
    edges := [];
    ghost var expected := LinkEdges(focusId, included);
    for i := 0 to |included|
      invariant edges == expected[..i]
    {
      assert expected[i] == LinkEdge(focusId, included[i]);
      PrefixNext(expected, i);
      edges := edges + [LinkEdge(focusId, included[i])];
    }
  }

  /** Limited links in, one node and one edge per neighbour out. */
  method BuildPhysical(w: World, focus: Focus, lim: Limits) returns (r: Projection)
    requires lim.nodes >= 1
    ensures r == PhysicalFocus(w, focus, LinkPeers(w.tables, focus.id), lim)
  {
    var maxPeers := MaxLinkPeers(lim);
    var all := LinkPeers(w.tables, focus.id);
    LinkPeersContract(w.tables, focus.id);
    var links := Take(all, maxPeers + 1);
    var linksTruncated := |links| > maxPeers;
    var included := if linksTruncated then links[..maxPeers] else links;
    assert included == Take(all, maxPeers);
    var neighbours := BuildNeighbourNodes(w.tables, included);
    var nodes := [DeviceNode(w.tables, focus.id, [])] + neighbours;
    var edges := BuildLinkEdges(focus.id, included);
    r := EmptyMapProjection("physical", Some(focus), lim)
      .(nodes := nodes, edges := edges,
        nodeMetric := Metric(|nodes|, lim.nodes, linksTruncated, if linksTruncated then None else Some(|nodes|)),
        edgeMetric := Metric(|edges|, lim.edges, linksTruncated, if linksTruncated then None else Some(|edges|)));
  }

  method BuildServiceNodes(host: string, included: seq<ServiceRow>) returns (nodes: seq<Node>)
    ensures nodes == ServiceNodes(host, included)
  {
    nodes := [];
    ghost var expected := ServiceNodes(host, included);
    for i := 0 to |included|
      invariant nodes == expected[..i]
    {
      ServiceNodesAt(host, included, i);
      PrefixNext(expected, i);
      nodes := nodes + [ServiceNode(host, included[i])];
    }
    WholePrefix(expected);
  }

  lemma ServiceNodesAt(host: string, included: seq<ServiceRow>, i: nat)
    requires i < |included|
    ensures |ServiceNodes(host, included)| == |included| && ServiceNodes(host, included)[i] == ServiceNode(host, included[i])
  {
  }

  method BuildServices(w: World, focus: Focus, host: string, known: Option<string>, lim: Limits)
    returns (r: Result<Projection, ApiError>)
    ensures r == RespondServices(w, focus, host, known, lim)
  {
    var resp := EmptyMapProjection("services", Some(focus), lim);
    if TrimSpace(host) != "" {
      var hostName := HostLabel(w, host, known);
      if hostName.Err? { return Err(hostName.error); }
      var caption := if NonBlank(hostName.value).Some? then NonBlank(hostName.value).value else host;
      resp := resp.(regions := [Region(host, "device", caption)],
                    regionMetric := Metric(1, lim.regions, false, Some(1)));
      if w.fails(ListServices) { return Err(DbError); }
      var rows := Take(ServicesOf(w.tables, host), lim.nodes + 1);
      var nodesTruncated := |rows| > lim.nodes;
      var included := if nodesTruncated then rows[..lim.nodes] else rows;
      assert included == Take(ServicesOf(w.tables, host), lim.nodes);
      var nodes := BuildServiceNodes(host, included);
      resp := resp.(nodes := nodes,
                    nodeMetric := Metric(|nodes|, lim.nodes, nodesTruncated, if nodesTruncated then None else Some(|nodes|)));
    }
    return Ok(resp);
  }

  method BuildDevice(w: World, layer: string, depth: int, d: Device, lim: Limits) returns (r: Result<Projection, ApiError>)
    requires Vlans32(w.tables) && lim.nodes >= 1
    ensures r == RespondDevice(w, layer, depth, d, lim)
  {
    var focus := Focus("device", d.id);
    if layer == "l3" && depth > 0 {
      if w.fails(ListIPs) { return Err(DbError); }
      var all := DeriveL3SubnetIDs(DeviceIPs(w.tables, d.id), w.subnetOf);
      SubnetIdsIncreasing(DeviceIPs(w.tables, d.id), w.subnetOf);
      r := BuildDeviceFocus(w, layer, focus, all, lim);
    } else if layer == "l2" && depth > 0 {
      if w.fails(ListPVIDs) { return Err(DbError); }
      DevicePVIDsMembers(w.tables, d.id);
      var all := VlanRegions(DevicePVIDs(w.tables, d.id));
      DevicePVIDsInRange(w.tables, d.id);
      VlanIdsOrdered(DevicePVIDs(w.tables, d.id));
      r := BuildDeviceFocus(w, layer, focus, all, lim);
    } else if layer == "physical" && depth > 0 {
      if w.fails(ListLinkPeers) { return Err(DbError); }
      var p := BuildPhysical(w, focus, lim);
      return Ok(p);
    } else if layer == "services" && depth > 0 {
      r := BuildServices(w, focus, d.id, d.displayName, lim);
    } else {
      return Ok(FocusAlone(w, layer, focus, lim));
    }
  }

  lemma DevicePVIDsInRange(t: Tables, device: string)
    requires Vlans32(t)
    ensures forall k :: 0 <= k < |DevicePVIDs(t, device)| ==> DevicePVIDs(t, device)[k] <= MAX_INT64
  {
    DevicePVIDsMembers(t, device);
    forall k | 0 <= k < |DevicePVIDs(t, device)| ensures DevicePVIDs(t, device)[k] <= MAX_INT64 {
      assert DevicePVIDs(t, device)[k] in DevicePVIDs(t, device);
    }
  }

  method BuildFocus(w: World, layer: string, depth: int, focusType: string, idRaw: string, lim: Limits)
    returns (r: Result<Projection, ApiError>)
    requires Vlans32(w.tables) && lim.nodes >= 1
    ensures r == RespondFocus(w, layer, depth, focusType, idRaw, lim)
  {
    match focusType {
      case "device" =>
        var d := LookupDevice(w, GetDevice, idRaw);
        if d.Err? { return Err(d.error); }
        r := BuildDevice(w, layer, depth, d.value, lim);
      case "subnet" =>
        var cidr := w.canonicalCidr(idRaw);
        if cidr == None { return Err(InvalidId); }
        var focus := Focus(focusType, cidr.value);
        if layer != "l3" { return Ok(EmptyMapProjection(layer, Some(focus), lim)); }
        r := BuildRegionFocus(w, layer, depth, focus, DevicesInCIDR(w.tables, w.within, cidr.value), lim);
      case "vlan" =>
        var v := Atoi(idRaw);
        if v == None || v.value <= 0 || v.value > 4094 { return Err(InvalidId); }
        var focus := Focus(focusType, Itoa(v.value));
        if layer != "l2" { return Ok(EmptyMapProjection(layer, Some(focus), lim)); }
        AtoiItoa(v.value);
        r := BuildRegionFocus(w, layer, depth, focus, DevicesInVLAN(w.tables, Atoi(focus.id).value), lim);
      case _ =>
        if focusType != "service" || layer != "services" {
          return Ok(EmptyMapProjection(layer, Some(Focus(focusType, idRaw)), lim));
        }
        var s := LookupService(w, idRaw);
        if s.Err? { return Err(s.error); }
        var focus := Focus(focusType, s.value.id);
        if depth <= 0 { return Ok(EmptyMapProjection(layer, Some(focus), lim)); }
        r := BuildServices(w, focus, s.value.deviceId, None, lim);
    }
  }

  /** The whole request: parse, build from limited queries, sort. Equal to the unlimited specification. */
  method HandleGetMapProjection(w: World, req: Request) returns (r: Result<Projection, ApiError>)
    requires Vlans32(w.tables)
    ensures r == Respond(w, req)
  {
    var layer := ToLower(TrimSpace(req.layer));
    if !IsValidMapLayer(layer) { return Err(InvalidLayer); }
    var depth := ParseMapDepth(req.depth);
    if depth.Err? { return Err(InvalidDepth); }
    var limitHint := ParseLimit(req.limit, MAP_MAX_NODES, MAP_MAX_LIMIT);
    if limitHint.Err? { return Err(InvalidLimit); }
    var lim := MapLimits(limitHint.value);
    var focusTypeRaw, focusIdRaw := TrimSpace(req.focusType), TrimSpace(req.focusId);
    if focusTypeRaw == "" && focusIdRaw == "" {
      return Ok(SortMapProjection(EmptyMapProjection(layer, None, lim)));
    }
    if focusTypeRaw == "" || focusIdRaw == "" { return Err(FocusPairIncomplete); }
    var focusType := ToLower(focusTypeRaw);
    if !IsValidMapFocusType(focusType) { return Err(InvalidFocusType); }
    var p := BuildFocus(w, layer, depth.value, focusType, focusIdRaw, lim);
    if p.Err? { return Err(p.error); }
    return Ok(SortMapProjection(p.value));
  }
}
