/** Physical projections: coherent exactly when the focused device is not drawn as its own neighbour. */
module MapPhysical {
  import opened Orders
  import opened Text
  import opened MapTables
  import opened MapProjection
  import opened MapSort
  import opened SelfLinks

  /** Over the stored rows: the device is linked to itself, and few enough of its neighbours have smaller ids. */
  ghost predicate DrawnTwice(t: Tables, device: string, lim: Limits) {
    SelfLinked(t, device) && |SmallerNeighbours(t, device)| < MaxLinkPeers(lim)
  }

  lemma LinkEdgeIdInjective(focusId: string, x: LinkPeer, y: LinkPeer)
    ensures LinkEdge(focusId, x).id == LinkEdge(focusId, y).id <==> x.linkId == y.linkId
  {
    assert LinkEdge(focusId, x).id[5..] == x.linkId;
    assert LinkEdge(focusId, y).id[5..] == y.linkId;
  }

  lemma NeighbourNodesContract(t: Tables, links: seq<LinkPeer>)
    ensures |NeighbourNodes(t, links)| == |links|
    ensures forall k :: 0 <= k < |links| ==>
      NeighbourNodes(t, links)[k].id == links[k].peer && NeighbourNodes(t, links)[k].regionIds == []
      && NeighbourNodes(t, links)[k].primaryRegionId.None?
  {
    var nodes := NeighbourNodes(t, links);
    forall k | 0 <= k < |links|
      ensures nodes[k].id == links[k].peer && nodes[k].regionIds == [] && nodes[k].primaryRegionId.None?
    {
      assert nodes[k] == DeviceNode(t, links[k].peer, []);
    }
  }

  ghost predicate DistinctLinks(s: seq<LinkPeer>) { forall i, j :: 0 <= i < j < |s| ==> s[i].linkId != s[j].linkId }

  /** The focus first, then a node for each neighbour. */
  ghost predicate NodesOf(focusId: string, shown: seq<LinkPeer>, nodes: seq<Node>) {
    && |nodes| == |shown| + 1 && nodes[0].id == focusId
    && forall k :: 0 <= k < |shown| ==> nodes[k + 1].id == shown[k].peer
  }

  lemma LinkEdgesDistinct(focusId: string, shown: seq<LinkPeer>)
    requires DistinctLinks(shown)
    ensures DistinctEdges(LinkEdges(focusId, shown))
  {
    var edges := LinkEdges(focusId, shown);
    forall i, j | 0 <= i < j < |edges| ensures edges[i].id != edges[j].id {
      LinkEdgeIdInjective(focusId, shown[i], shown[j]);
    }
  }

  lemma LinkEdgesClosed(focusId: string, shown: seq<LinkPeer>, nodes: seq<Node>)
    requires NodesOf(focusId, shown, nodes)
    ensures forall e :: e in LinkEdges(focusId, shown) ==> HasNode(nodes, e.from) && HasNode(nodes, e.to)
  {
    var edges := LinkEdges(focusId, shown);
    forall e | e in edges ensures HasNode(nodes, e.from) && HasNode(nodes, e.to) {
      var k :| 0 <= k < |edges| && edges[k] == e;
      assert nodes[k + 1].id == e.to;
    }
  }

  lemma NodesDistinctIff(focusId: string, shown: seq<LinkPeer>, nodes: seq<Node>)
    requires PeersIncrease(shown) && NodesOf(focusId, shown, nodes)
    ensures DistinctNodes(nodes) <==> !PeerAmong(shown, focusId)
  {
    if PeerAmong(shown, focusId) {
      var k :| 0 <= k < |shown| && shown[k].peer == focusId;
      assert nodes[0].id == nodes[k + 1].id;
    } else {
      forall i, j | 0 <= i < j < |nodes| ensures nodes[i].id != nodes[j].id {
        assert nodes[j].id == shown[j - 1].peer;
        if i > 0 {
          assert Less(shown[i - 1].peer, shown[j - 1].peer);
          LessIrreflexive(shown[i - 1].peer);
        }
      }
    }
  }

  lemma NodesAnchored(t: Tables, focusId: string, shown: seq<LinkPeer>)
    ensures forall n :: n in [DeviceNode(t, focusId, [])] + NeighbourNodes(t, shown) ==> Anchored(n, [])
  {
    NeighbourNodesContract(t, shown);
    forall n | n in NeighbourNodes(t, shown) ensures Anchored(n, []) {
      var k :| 0 <= k < |shown| && NeighbourNodes(t, shown)[k] == n;
      assert n.regionIds == [];
    }
  }

  /** What is drawn, and that it is counted honestly. */
  lemma PhysicalParts(w: World, focus: Focus, links: seq<LinkPeer>, lim: Limits)
    requires lim.nodes >= 1
    ensures var p, shown := PhysicalFocus(w, focus, links, lim), Take(links, MaxLinkPeers(lim));
      && p.nodes == [DeviceNode(w.tables, focus.id, [])] + NeighbourNodes(w.tables, shown)
      && p.edges == LinkEdges(focus.id, shown) && p.regions == []
      && Honest(p.regionMetric, |p.regions|) && Honest(p.nodeMetric, |p.nodes|) && Honest(p.edgeMetric, |p.edges|)
  {
  }

  lemma TakeKeepsOrder(links: seq<LinkPeer>, n: int)
    requires PeersIncrease(links) && DistinctLinks(links)
    ensures PeersIncrease(Take(links, n)) && DistinctLinks(Take(links, n))
  {
  }

  lemma DrawnNodesOf(t: Tables, focusId: string, shown: seq<LinkPeer>)
    ensures NodesOf(focusId, shown, [DeviceNode(t, focusId, [])] + NeighbourNodes(t, shown))
  {
    NeighbourNodesContract(t, shown);
  }

  /** A projection drawn from neighbours refers only to what it holds. */
  lemma DrawnReferential(t: Tables, focusId: string, shown: seq<LinkPeer>, p: Projection)
    requires p.nodes == [DeviceNode(t, focusId, [])] + NeighbourNodes(t, shown)
    requires p.edges == LinkEdges(focusId, shown) && p.regions == []
    ensures Referential(p)
  {
    DrawnNodesOf(t, focusId, shown);
    LinkEdgesClosed(focusId, shown, p.nodes);
    NodesAnchored(t, focusId, shown);
  }

  /** Whatever distinct neighbours are drawn, coherence fails exactly when the focus is one of them. */
  lemma DrawnCoherentIff(w: World, focus: Focus, links: seq<LinkPeer>, lim: Limits)
    requires PeersIncrease(links) && DistinctLinks(links) && lim.nodes >= 1
    ensures Coherent(PhysicalFocus(w, focus, links, lim)) <==> !PeerAmong(Take(links, MaxLinkPeers(lim)), focus.id)
  {
    PhysicalParts(w, focus, links, lim);
    TakeKeepsOrder(links, MaxLinkPeers(lim));
    DrawnIff(w.tables, focus.id, Take(links, MaxLinkPeers(lim)), PhysicalFocus(w, focus, links, lim));
  }

  lemma DrawnIff(t: Tables, focusId: string, shown: seq<LinkPeer>, p: Projection)
    requires PeersIncrease(shown) && DistinctLinks(shown)
    requires p.nodes == [DeviceNode(t, focusId, [])] + NeighbourNodes(t, shown)
    requires p.edges == LinkEdges(focusId, shown) && p.regions == []
    requires Honest(p.regionMetric, |p.regions|) && Honest(p.nodeMetric, |p.nodes|) && Honest(p.edgeMetric, |p.edges|)
    ensures Coherent(p) <==> !PeerAmong(shown, focusId)
  {
    DrawnReferential(t, focusId, shown, p);
    DrawnNodesOf(t, focusId, shown);
    LinkEdgesDistinct(focusId, shown);
    NodesDistinctIff(focusId, shown, p.nodes);
  }

  /**
   * A physical projection is coherent unless the device is linked to itself and fewer of its neighbours than are
   * drawn have smaller ids.
   */
  lemma PhysicalCoherentIff(w: World, focus: Focus, lim: Limits)
    requires Keyed(w.tables) && lim.nodes >= 1
    ensures Coherent(PhysicalFocus(w, focus, LinkPeers(w.tables, focus.id), lim)) <==> !DrawnTwice(w.tables, focus.id, lim)
  {
    LinkPeersContract(w.tables, focus.id);
    LinkPeersDistinctLinks(w.tables, focus.id);
    DrawnCoherentIff(w, focus, LinkPeers(w.tables, focus.id), lim);
    SelfListedIff(w.tables, focus.id, MaxLinkPeers(lim));
  }
}
