/** What a map response shows, said of the stored rows: which devices and regions, where, and what was left out. */
module MapAnswer {
  import opened Orders
  import opened Text
  import opened MapTables
  import opened LimitPushdown
  import opened MapProjection
  import opened MapFacts

  ghost predicate NodeIn(nodes: seq<Node>, id: string) { exists n :: n in nodes && n.id == id }

  ghost predicate RegionIn(regions: seq<Region>, id: string) { exists r :: r in regions && r.id == id }

  /** Some region shown holds the device. */
  ghost predicate InShown(regions: seq<Region>, holds: (string, string) -> bool, id: string) {
    exists r :: r in regions && holds(r.id, id)
  }

  /** Held by a region shown, but not drawn. */
  ghost predicate LeftOut(p: Projection, focus: string, holds: (string, string) -> bool, id: string) {
    id != focus && InShown(p.regions, holds, id) && !NodeIn(p.nodes, id)
  }

  ghost predicate PeersBefore(nodes: seq<Node>, focus: string, id: string) {
    forall n :: n in nodes && n.id != focus ==> Less(n.id, id)
  }

  /**
   * Beside the focus exactly the devices that the regions shown hold are drawn; when that is too many, a full answer of
   * those with the least ids, and it says so.
   */
  ghost predicate PeersDrawn(p: Projection, focus: string, holds: (string, string) -> bool) {
    && (forall n :: n in p.nodes && n.id != focus ==> InShown(p.regions, holds, n.id))
    && (forall id :: LeftOut(p, focus, holds, id) ==>
          p.nodeMetric.truncated && |p.nodes| == p.nodeMetric.limit && PeersBefore(p.nodes, focus, id))
    && (p.nodeMetric.truncated ==> exists id :: LeftOut(p, focus, holds, id))
  }

  /** Each peer is put in exactly the regions shown that hold it, and the focus in all of them. */
  ghost predicate Placed(p: Projection, focus: string, holds: (string, string) -> bool) {
    && NodeIn(p.nodes, focus)
    && forall n, r :: n in p.nodes ==> (r in n.regionIds <==> RegionIn(p.regions, r) && (n.id == focus || holds(r, n.id)))
  }

  /** A device with its display name; its first region is its primary one. */
  ghost predicate DeviceDrawn(t: Tables, n: Node) {
    && n.kind == "device"
    && (forall k :: DeviceAt(t, k, n.id) ==> n.caption == t.devices[k].displayName)
    && n.primaryRegionId == if n.regionIds == [] then None else Some(n.regionIds[0])
  }

  ghost predicate DevicesDrawn(t: Tables, p: Projection) { forall n :: n in p.nodes ==> DeviceDrawn(t, n) }

  ghost predicate EdgeTo(p: Projection, id: string) { exists e :: e in p.edges && e.to == id }

  /** An edge joins the focus to each peer drawn; when that is too many, a full answer of edges to the least. */
  ghost predicate PeersJoined(p: Projection, focus: string) {
    && (forall e :: e in p.edges ==> e.kind == "peer" && e.from == focus && e.to != focus && NodeIn(p.nodes, e.to))
    && (forall n :: n in p.nodes && n.id != focus && !EdgeTo(p, n.id) ==>
          p.edgeMetric.truncated && |p.edges| == p.edgeMetric.limit && forall e :: e in p.edges ==> Less(e.to, n.id))
    && (p.edgeMetric.truncated ==> exists n :: n in p.nodes && n.id != focus && !EdgeTo(p, n.id))
  }

  // Sorting the answer changes none of this

  ghost predicate SameAnswer(p: Projection, q: Projection) {
    && (forall n :: n in p.nodes <==> n in q.nodes) && (forall r :: r in p.regions <==> r in q.regions)
    && (forall e :: e in p.edges <==> e in q.edges)
    && |p.nodes| == |q.nodes| && |p.regions| == |q.regions| && |p.edges| == |q.edges|
    && p.nodeMetric == q.nodeMetric && p.regionMetric == q.regionMetric && p.edgeMetric == q.edgeMetric
  }

  lemma {:induction false} SortedSame(q: Projection)
    ensures SameAnswer(SortMapProjection(q), q)
  {
    SortElements(RegionLess, q.regions);
    SortElements(NodeLess, q.nodes);
    SortElements(EdgeLess, q.edges);
  }

  lemma {:induction false} PeersDrawnSame(p: Projection, q: Projection, focus: string, holds: (string, string) -> bool)
    requires SameAnswer(p, q) && PeersDrawn(q, focus, holds)
    ensures PeersDrawn(p, focus, holds)
  {
    forall id ensures LeftOut(p, focus, holds, id) <==> LeftOut(q, focus, holds, id) { }
  }

  lemma {:induction false} PlacedSame(p: Projection, q: Projection, focus: string, holds: (string, string) -> bool)
    requires SameAnswer(p, q) && Placed(q, focus, holds)
    ensures Placed(p, focus, holds)
  {
    forall r ensures RegionIn(p.regions, r) <==> RegionIn(q.regions, r) { }
  }

  lemma {:induction false} PeersJoinedSame(p: Projection, q: Projection, focus: string)
    requires SameAnswer(p, q) && PeersJoined(q, focus)
    ensures PeersJoined(p, focus)
  {
    forall id ensures EdgeTo(p, id) <==> EdgeTo(q, id) { }
    forall id ensures NodeIn(p.nodes, id) <==> NodeIn(q.nodes, id) { }
  }

  // Cutting an ascending list

  /** What `Take` leaves out comes after what it keeps, and it keeps as many as it may. */
  lemma {:induction false} TakeLeast(s: seq<string>, n: int, x: string)
    requires Increasing(Less, s) && n >= 0 && x in s && x !in Take(s, n)
    ensures |s| > n && |Take(s, n)| == n && forall y :: y in Take(s, n) ==> Less(y, x)
  {
    assert forall i :: 0 <= i < |Take(s, n)| ==> Take(s, n)[i] == s[i];
  }

  lemma {:induction false} TakeCuts(s: seq<string>, n: nat)
    requires Increasing(Less, s) && |s| > n
    ensures s[n] in s && s[n] !in Take(s, n)
  {
    LessIrreflexive(s[n]);
    forall k | 0 <= k < n ensures s[k] != s[n] { assert Less(s[k], s[n]); }
  }

  // A device with its peers

  /** The peer lists say which devices a region holds. */
  ghost predicate ListsHolders(shown: seq<string>, peersOf: string -> seq<string>, focus: string,
                               holds: (string, string) -> bool) {
    forall r, id :: r in shown ==> (id in peersOf(r) <==> holds(r, id) && id != focus)
  }

  lemma {:induction false} RegionListIn(layer: string, shown: seq<string>, r: string)
    ensures RegionIn(RegionList(layer, shown), r) <==> r in shown
  {
    var regions := RegionList(layer, shown);
    if r in shown {
      var k :| 0 <= k < |shown| && shown[k] == r;
      assert regions[k] in regions && regions[k].id == r;
    }
    if x :| x in regions && x.id == r {
      var k :| 0 <= k < |regions| && regions[k] == x;
      assert shown[k] == r;
    }
  }

  lemma {:induction false} HeldIffListed(layer: string, shown: seq<string>, peersOf: string -> seq<string>, focus: string,
                                         holds: (string, string) -> bool, id: string)
    requires ListsHolders(shown, peersOf, focus, holds) && id != focus
    ensures InShown(RegionList(layer, shown), holds, id) <==> id in Union(shown, peersOf)
  {
    UnionContract(shown, peersOf);
    var regions := RegionList(layer, shown);
    if x :| x in regions && holds(x.id, id) {
      assert RegionIn(regions, x.id);
      RegionListIn(layer, shown, x.id);
      var k :| 0 <= k < |shown| && shown[k] == x.id;
      assert id in peersOf(shown[k]);
    }
    if InSome(shown, peersOf, id) {
      var k :| 0 <= k < |shown| && id in peersOf(shown[k]);
      assert shown[k] in shown;
      RegionListIn(layer, shown, shown[k]);
      var x :| x in regions && x.id == shown[k];
    }
  }

  lemma {:induction false} DrawnNode(t: Tables, focus: string, shown: seq<string>, peersOf: string -> seq<string>,
                                     included: seq<string>, n: Node)
    ensures n in [DeviceNode(t, focus, shown)] + PeerNodes(t, shown, peersOf, included) <==>
      n == DeviceNode(t, focus, shown) || exists k :: 0 <= k < |included| && n == PeerNode(t, shown, peersOf, included[k])
  {
    var peers := PeerNodes(t, shown, peersOf, included);
    if n in peers {
      var k :| 0 <= k < |peers| && peers[k] == n;
      assert n == PeerNode(t, shown, peersOf, included[k]);
    }
    if k :| 0 <= k < |included| && n == PeerNode(t, shown, peersOf, included[k]) { assert peers[k] == n; }
  }

  /** The drawn ids are the focus and the included peers. */
  lemma {:induction false} DrawnIds(t: Tables, focus: string, shown: seq<string>, peersOf: string -> seq<string>,
                                    included: seq<string>, id: string)
    ensures NodeIn([DeviceNode(t, focus, shown)] + PeerNodes(t, shown, peersOf, included), id) <==> id == focus || id in included
  {
    var nodes := [DeviceNode(t, focus, shown)] + PeerNodes(t, shown, peersOf, included);
    if n :| n in nodes && n.id == id { DrawnNode(t, focus, shown, peersOf, included, n); }
    if id == focus { assert nodes[0] in nodes; }
    if id in included {
      var k :| 0 <= k < |included| && included[k] == id;
      DrawnNode(t, focus, shown, peersOf, included, PeerNode(t, shown, peersOf, id));
    }
  }

  /** An answer that draws the focus and the first of an ascending list of the devices held. */
  lemma {:induction false} FirstDrawn(p: Projection, focus: string, holds: (string, string) -> bool, held: seq<string>, n: nat)
    requires Increasing(Less, held) && focus !in held
    requires forall id :: NodeIn(p.nodes, id) <==> id == focus || id in Take(held, n)
    requires forall id :: id != focus ==> (InShown(p.regions, holds, id) <==> id in held)
    requires |p.nodes| == |Take(held, n)| + 1 && p.nodeMetric.limit == n + 1
    requires p.nodeMetric.truncated <==> |held| > n
    ensures PeersDrawn(p, focus, holds)
  {
    forall x | x in p.nodes ensures x.id == focus || x.id in Take(held, n) { assert NodeIn(p.nodes, x.id); }
    assert forall i :: 0 <= i < |Take(held, n)| ==> Take(held, n)[i] == held[i];
    forall id | LeftOut(p, focus, holds, id)
      ensures p.nodeMetric.truncated && |p.nodes| == p.nodeMetric.limit && PeersBefore(p.nodes, focus, id)
    {
      TakeLeast(held, n, id);
    }
    if p.nodeMetric.truncated {
      TakeCuts(held, n);
      assert LeftOut(p, focus, holds, held[n]);
    }
  }

  lemma {:induction false} FocusDrawsPeers(t: Tables, layer: string, focus: Focus, all: seq<string>,
                                           peersOf: string -> seq<string>, lim: Limits, holds: (string, string) -> bool)
    requires lim.nodes >= 1 && ListsHolders(Take(all, lim.regions), peersOf, focus.id, holds)
    ensures PeersDrawn(DeviceFocusOver(t, layer, focus, all, peersOf, lim), focus.id, holds)
  {
    var p, shown := DeviceFocusOver(t, layer, focus, all, peersOf, lim), Take(all, lim.regions);
    var included := IncludedPeers(shown, peersOf, lim);
    UnionContract(shown, peersOf);
    FocusNotListed(shown, peersOf, focus.id, holds);
    forall id ensures NodeIn(p.nodes, id) <==> id == focus.id || id in included {
      DrawnIds(t, focus.id, shown, peersOf, included, id);
    }
    forall id | id != focus.id ensures InShown(p.regions, holds, id) <==> id in Union(shown, peersOf) {
      HeldIffListed(layer, shown, peersOf, focus.id, holds, id);
    }
    FirstDrawn(p, focus.id, holds, Union(shown, peersOf), lim.nodes - 1);
  }

  lemma {:induction false} FocusNotListed(shown: seq<string>, peersOf: string -> seq<string>, focus: string,
                                          holds: (string, string) -> bool)
    requires ListsHolders(shown, peersOf, focus, holds)
    ensures focus !in Union(shown, peersOf)
  {
    UnionContract(shown, peersOf);
    forall k | 0 <= k < |shown| ensures focus !in peersOf(shown[k]) { assert shown[k] in shown; }
  }

  lemma {:induction false} FocusPlaces(t: Tables, layer: string, focus: Focus, all: seq<string>,
                                       peersOf: string -> seq<string>, lim: Limits, holds: (string, string) -> bool)
    requires lim.nodes >= 1 && ListsHolders(Take(all, lim.regions), peersOf, focus.id, holds)
    ensures Placed(DeviceFocusOver(t, layer, focus, all, peersOf, lim), focus.id, holds)
    ensures DevicesDrawn(t, DeviceFocusOver(t, layer, focus, all, peersOf, lim))
  {
    var p, shown := DeviceFocusOver(t, layer, focus, all, peersOf, lim), Take(all, lim.regions);
    var included := IncludedPeers(shown, peersOf, lim);
    DrawnIds(t, focus.id, shown, peersOf, included, focus.id);
    forall n | n in p.nodes
      ensures DeviceDrawn(t, n)
      ensures forall r :: r in n.regionIds <==> RegionIn(p.regions, r) && (n.id == focus.id || holds(r, n.id))
    {
      DrawnNode(t, focus.id, shown, peersOf, included, n);
      DeviceFound(t, n.id);
      forall r ensures r in n.regionIds <==> RegionIn(p.regions, r) && (n.id == focus.id || holds(r, n.id)) {
        RegionListIn(layer, shown, r);
        RegionsHoldingMembers(shown, peersOf, n.id);
        FocusNotListed(shown, peersOf, focus.id, holds);
      }
    }
  }

  // Edges

  lemma {:induction false} EdgeMade(focus: string, peers: seq<string>, e: Edge)
    ensures e in Map(p => PeerEdge(focus, p), peers) <==> exists k :: 0 <= k < |peers| && e == PeerEdge(focus, peers[k])
  {
    var edges := Map(p => PeerEdge(focus, p), peers);
    if e in edges {
      var k :| 0 <= k < |edges| && edges[k] == e;
      assert e == PeerEdge(focus, peers[k]);
    }
    if k :| 0 <= k < |peers| && e == PeerEdge(focus, peers[k]) { assert edges[k] == e; }
  }

  /** An answer that joins the focus to the first of its peers. */
  lemma {:induction false} FirstJoined(p: Projection, focus: string, peers: seq<string>, n: nat)
    requires Increasing(Less, peers) && focus !in peers
    requires forall id :: NodeIn(p.nodes, id) <==> id == focus || id in peers
    requires forall e :: e in p.edges ==> e.kind == "peer" && e.from == focus && e.to in Take(peers, n)
    requires forall id :: id in Take(peers, n) ==> EdgeTo(p, id)
    requires |p.edges| == |Take(peers, n)| && p.edgeMetric.limit == n && (p.edgeMetric.truncated <==> |peers| > n)
    ensures PeersJoined(p, focus)
  {
    assert forall i :: 0 <= i < |Take(peers, n)| ==> Take(peers, n)[i] == peers[i];
    forall x | x in p.nodes ensures x.id == focus || x.id in peers { assert NodeIn(p.nodes, x.id); }
    forall x | x in p.nodes && x.id != focus && !EdgeTo(p, x.id)
      ensures p.edgeMetric.truncated && |p.edges| == p.edgeMetric.limit && forall e :: e in p.edges ==> Less(e.to, x.id)
    {
      TakeLeast(peers, n, x.id);
    }
    if p.edgeMetric.truncated {
      TakeCuts(peers, n);
      assert NodeIn(p.nodes, peers[n]);
      var x :| x in p.nodes && x.id == peers[n];
      assert x.id != focus && !EdgeTo(p, x.id);
    }
  }

  lemma {:induction false} FocusJoinsPeers(t: Tables, focus: Focus, all: seq<string>, peersOf: string -> seq<string>,
                                           lim: Limits, holds: (string, string) -> bool)
    requires lim.nodes >= 1 && ListsHolders(Take(all, lim.regions), peersOf, focus.id, holds)
    ensures PeersJoined(DeviceFocusOver(t, "l3", focus, all, peersOf, lim), focus.id)
    ensures DeviceFocusOver(t, "l2", focus, all, peersOf, lim).edges == []
  {
    var p, shown := DeviceFocusOver(t, "l3", focus, all, peersOf, lim), Take(all, lim.regions);
    var included := IncludedPeers(shown, peersOf, lim);
    UnionContract(shown, peersOf);
    FocusNotListed(shown, peersOf, focus.id, holds);
    assert forall i :: 0 <= i < |included| ==> included[i] == Union(shown, peersOf)[i];
    forall id ensures NodeIn(p.nodes, id) <==> id == focus.id || id in included {
      DrawnIds(t, focus.id, shown, peersOf, included, id);
    }
    EdgesOfPeers(focus.id, included, lim);
    FirstJoined(p, focus.id, included, lim.edges);
  }

  lemma {:induction false} EdgesOfPeers(focus: string, included: seq<string>, lim: Limits)
    ensures var edges := PeerEdges("l3", focus, included, lim);
      && |edges| == |Take(included, lim.edges)|
      && (forall e :: e in edges ==> e.kind == "peer" && e.from == focus && e.to in Take(included, lim.edges))
      && (forall id :: id in Take(included, lim.edges) ==> exists e :: e in edges && e.to == id)
  {
    var kept, edges := Take(included, lim.edges), PeerEdges("l3", focus, included, lim);
    forall e | e in edges ensures e.kind == "peer" && e.from == focus && e.to in kept { EdgeMade(focus, kept, e); }
    forall id | id in kept ensures exists e :: e in edges && e.to == id {
      var k :| 0 <= k < |kept| && kept[k] == id;
      EdgeMade(focus, kept, PeerEdge(focus, id));
    }
  }
}
