/** The other answers of the map endpoint in terms of the stored rows, and how its parameters are read. */
module MapBranches {
  import opened Orders
  import opened Text
  import opened Params
  import opened MapTables
  import opened MapProjection
  import opened MapFacts
  import opened MapAnswer
  import opened MapLayers
  import opened SelfLinks

  // A subnet or a VLAN with its devices

  /** Exactly the devices the region holds, each in it; when that is too many, a full answer of the least ids. */
  ghost predicate MembersDrawn(t: Tables, p: Projection, region: string, holds: (string, string) -> bool) {
    && (forall n :: n in p.nodes ==> holds(region, n.id) && DeviceDrawn(t, n) && n.regionIds == [region])
    && (forall id :: holds(region, id) && !NodeIn(p.nodes, id) ==>
          p.nodeMetric.truncated && |p.nodes| == p.nodeMetric.limit && forall n :: n in p.nodes ==> Less(n.id, id))
    && (p.nodeMetric.truncated ==> exists id :: holds(region, id) && !NodeIn(p.nodes, id))
  }

  lemma {:induction false} MemberMade(t: Tables, region: string, members: seq<string>, n: Node)
    ensures n in MemberNodes(t, region, members) <==>
      exists k :: 0 <= k < |members| && n == MemberNode(t, region, members[k])
  {
    var nodes := MemberNodes(t, region, members);
    if k :| 0 <= k < |nodes| && nodes[k] == n { assert n == MemberNode(t, region, members[k]); }
    if k :| 0 <= k < |members| && n == MemberNode(t, region, members[k]) { assert nodes[k] == n; }
  }

  lemma {:induction false} MemberIds(t: Tables, region: string, members: seq<string>, id: string)
    ensures NodeIn(MemberNodes(t, region, members), id) <==> id in members
  {
    if n :| n in MemberNodes(t, region, members) && n.id == id { MemberMade(t, region, members, n); }
    if id in members {
      var k :| 0 <= k < |members| && members[k] == id;
      MemberMade(t, region, members, MemberNode(t, region, id));
    }
  }

  lemma {:induction false} RegionDraws(w: World, layer: string, focus: Focus, members: seq<string>, lim: Limits,
                                       holds: (string, string) -> bool)
    requires Increasing(Less, members) && forall id :: id in members <==> holds(focus.id, id)
    ensures MembersDrawn(w.tables, RegionFocus(w, layer, focus, members, lim), focus.id, holds)
  {
    var p, shown := RegionFocus(w, layer, focus, members, lim), Take(members, lim.nodes);
    assert forall i :: 0 <= i < |shown| ==> shown[i] == members[i];
    forall id ensures NodeIn(p.nodes, id) <==> id in shown { MemberIds(w.tables, focus.id, shown, id); }
    forall n | n in p.nodes
      ensures n.id in shown && holds(focus.id, n.id) && DeviceDrawn(w.tables, n) && n.regionIds == [focus.id]
    {
      MemberMade(w.tables, focus.id, shown, n);
      DeviceFound(w.tables, n.id);
    }
    forall id | holds(focus.id, id) && !NodeIn(p.nodes, id)
      ensures p.nodeMetric.truncated && |p.nodes| == p.nodeMetric.limit && forall n :: n in p.nodes ==> Less(n.id, id)
    {
      TakeLeast(members, lim.nodes, id);
    }
    if p.nodeMetric.truncated {
      TakeCuts(members, lim.nodes);
      assert holds(focus.id, members[lim.nodes]) && !NodeIn(p.nodes, members[lim.nodes]);
    }
  }

  lemma {:induction false} MembersDrawnSame(t: Tables, p: Projection, q: Projection, region: string,
                                            holds: (string, string) -> bool)
    requires SameAnswer(p, q) && MembersDrawn(t, q, region, holds)
    ensures MembersDrawn(t, p, region, holds)
  {
    forall id ensures NodeIn(p.nodes, id) <==> NodeIn(q.nodes, id) { }
  }

  /** A region alone, sorted. */
  lemma {:induction false} OneRegion(p: Projection)
    requires |p.regions| == 1 && p.edges == []
    ensures SortMapProjection(p).regions == p.regions && SortMapProjection(p).edges == []
  {
    assert p.regions == [p.regions[0]] && p.regions[1..] == [];
    assert Sort(RegionLess, p.regions[1..]) == [];
  }

  /** What holds of a region with its members, sorted. */
  lemma {:induction false} RegionAnswer(w: World, layer: string, focus: Focus, members: seq<string>, lim: Limits,
                                        holds: (string, string) -> bool)
    requires Increasing(Less, members) && forall id :: id in members <==> holds(focus.id, id)
    ensures var p := SortMapProjection(RegionFocus(w, layer, focus, members, lim));
      && p.focus == Some(focus) && p.regions == [MapRegion(layer, focus.id)] && p.edges == []
      && MembersDrawn(w.tables, p, focus.id, holds)
  {
    var q := RegionFocus(w, layer, focus, members, lim);
    RegionDraws(w, layer, focus, members, lim, holds);
    SortedSame(q);
    OneRegion(q);
    MembersDrawnSame(w.tables, SortMapProjection(q), q, focus.id, holds);
  }

  /** The layer 3 view of a subnet: the existing devices that own an address inside it. */
  lemma {:induction false} SubnetAnswer(w: World, req: Request, idRaw: string)
    requires Asks(req, "l3", "subnet", idRaw) && Respond(w, req).Ok?
    ensures w.canonicalCidr(idRaw).Some?
    ensures var cidr, p := w.canonicalCidr(idRaw).value, Respond(w, req).value;
      && p.focus == Some(Focus("subnet", cidr)) && p.regions == [Region(cidr, "subnet", cidr)] && p.edges == []
      && MembersDrawn(w.tables, p, cidr, InSubnet(w))
  {
    Asked(w, req, "l3", "subnet", idRaw);
    var cidr := w.canonicalCidr(idRaw).value;
    var members := DevicesInCIDR(w.tables, w.within, cidr);
    DevicesInCIDRMembers(w.tables, w.within, cidr);
    forall id ensures id in members <==> InSubnet(w)(cidr, id) { CIDRMembersMean(w, cidr, id); }
    RegionAnswer(w, "l3", Focus("subnet", cidr), members, LimitsOf(req), InSubnet(w));
  }

  /** The layer 2 view of a VLAN: the existing devices with a port in it. */
  lemma {:induction false} VlanAnswer(w: World, req: Request, idRaw: string)
    requires Asks(req, "l2", "vlan", idRaw) && Respond(w, req).Ok?
    ensures Atoi(idRaw).Some? && 1 <= Atoi(idRaw).value <= 4094
    ensures var v, p := Itoa(Atoi(idRaw).value), Respond(w, req).value;
      && p.focus == Some(Focus("vlan", v)) && p.regions == [Region(v, "vlan", "VLAN " + v)] && p.edges == []
      && MembersDrawn(w.tables, p, v, InVlan(w.tables))
  {
    Asked(w, req, "l2", "vlan", idRaw);
    var v := Atoi(idRaw).value;
    var members := DevicesInVLAN(w.tables, v);
    DevicesInVLANMembers(w.tables, v);
    forall id ensures id in members <==> InVlan(w.tables)(Itoa(v), id) {
      VLANMembersMean(w.tables, v, id);
      OneNumber(w.tables, v, id);
    }
    RegionAnswer(w, "l2", Focus("vlan", Itoa(v)), members, LimitsOf(req), InVlan(w.tables));
  }

  // The physical neighbours of a device

  ghost predicate Neighbour(t: Tables, id: string, other: string) { IsDevice(t, other) && Linked(t, id, other) }

  /** Link `m` is the least of those that join the two. */
  ghost predicate LeastLink(t: Tables, id: string, other: string, m: int) {
    && 0 <= m < |t.links| && Joins(t.links[m], id, other)
    && forall k :: 0 <= k < |t.links| && Joins(t.links[k], id, other) ==> k == m || Less(t.links[m].id, t.links[k].id)
  }

  /** An edge for each neighbour, through its least link; when that is too many, a full answer of the least neighbours. */
  ghost predicate NeighboursJoined(t: Tables, p: Projection, id: string) {
    && (forall e :: e in p.edges ==>
          && e.kind == "link" && e.from == id && Neighbour(t, id, e.to)
          && exists m :: LeastLink(t, id, e.to, m) && e.id == "link:" + t.links[m].id)
    && (forall x :: Neighbour(t, id, x) && !EdgeTo(p, x) ==>
          && p.nodeMetric.truncated && p.edgeMetric.truncated
          && (|p.edges| == p.edgeMetric.limit || |p.edges| == p.nodeMetric.limit - 1)
          && forall e :: e in p.edges ==> Less(e.to, x))
    && (p.edgeMetric.truncated ==> exists x :: Neighbour(t, id, x) && !EdgeTo(p, x))
    && p.nodeMetric.truncated == p.edgeMetric.truncated
  }

  /** The focus and the far ends of the edges, each a device without a region. */
  ghost predicate EndsDrawn(t: Tables, p: Projection, id: string) {
    && NodeIn(p.nodes, id) && (forall e :: e in p.edges ==> NodeIn(p.nodes, e.to))
    && (forall n :: n in p.nodes ==> (n.id == id || EdgeTo(p, n.id)) && DeviceDrawn(t, n) && n.regionIds == [])
  }

  lemma {:induction false} LinkPeerIn(t: Tables, id: string, x: LinkPeer)
    requires x in LinkPeers(t, id) && Keyed(t)
    ensures Neighbour(t, id, x.peer)
    ensures exists m :: LeastLink(t, id, x.peer, m) && x.linkId == t.links[m].id
  {
    LinkPeersContract(t, id);
    LinksWithPeersMembers(t, id);
    DeviceFound(t, x.peer);
    var m :| 0 <= m < |t.links| && PeerOf(t, id, t.links[m]) == Some(x);
    assert Joins(t.links[m], id, x.peer);
    forall k | 0 <= k < |t.links| && Joins(t.links[k], id, x.peer)
      ensures k == m || Less(t.links[m].id, t.links[k].id)
    {
      var y := LinkPeer(t.links[k].id, x.peer);
      assert PeerOf(t, id, t.links[k]) == Some(y);
      assert y in LinksWithPeers(t, id);
      var j :| 0 <= j < |LinksWithPeers(t, id)| && LinksWithPeers(t, id)[j] == y;
    }
    assert LeastLink(t, id, x.peer, m);
  }

  lemma {:induction false} NeighbourListed(t: Tables, id: string, x: string)
    ensures Neighbour(t, id, x) <==> PeerAmong(LinkPeers(t, id), x)
  {
    NeighboursExact(t, id, x);
    DeviceFound(t, x);
  }

  lemma {:induction false} LinkEdgeMade(id: string, links: seq<LinkPeer>, e: Edge)
    ensures e in LinkEdges(id, links) <==> exists k :: 0 <= k < |links| && e == LinkEdge(id, links[k])
  {
    var edges := LinkEdges(id, links);
    if k :| 0 <= k < |edges| && edges[k] == e { assert e == LinkEdge(id, links[k]); }
    if k :| 0 <= k < |links| && e == LinkEdge(id, links[k]) { assert edges[k] == e; }
  }

  lemma {:induction false} EdgeToIff(id: string, links: seq<LinkPeer>, x: string)
    ensures (exists e :: e in LinkEdges(id, links) && e.to == x) <==> PeerAmong(links, x)
  {
    if e :| e in LinkEdges(id, links) && e.to == x {
      LinkEdgeMade(id, links, e);
      var k :| 0 <= k < |links| && e == LinkEdge(id, links[k]);
      assert links[k].peer == x;
    }
    if k :| 0 <= k < |links| && links[k].peer == x { LinkEdgeMade(id, links, LinkEdge(id, links[k])); }
  }

  /** Neighbours cut from an ascending list. */
  lemma {:induction false} NeighboursCut(all: seq<LinkPeer>, n: nat, x: string)
    requires PeersIncrease(all) && PeerAmong(all, x) && !PeerAmong(Take(all, n), x)
    ensures |all| > n && forall k :: 0 <= k < n ==> Less(all[k].peer, x)
  {
    assert forall i :: 0 <= i < |Take(all, n)| ==> Take(all, n)[i] == all[i];
    var k :| 0 <= k < |all| && all[k].peer == x;
  }

  lemma {:induction false} PhysicalJoins(w: World, focus: Focus, lim: Limits)
    requires Keyed(w.tables) && lim.nodes >= 1
    ensures NeighboursJoined(w.tables, PhysicalFocus(w, focus, LinkPeers(w.tables, focus.id), lim), focus.id)
  {
    var t, id, all := w.tables, focus.id, LinkPeers(w.tables, focus.id);
    var p, n := PhysicalFocus(w, focus, all, lim), MaxLinkPeers(lim);
    var shown := Take(all, n);
    LinkPeersContract(t, id);
    assert forall i :: 0 <= i < |shown| ==> shown[i] == all[i];
    forall e | e in p.edges
      ensures e.kind == "link" && e.from == id && Neighbour(t, id, e.to)
      ensures exists m :: LeastLink(t, id, e.to, m) && e.id == "link:" + t.links[m].id
    {
      LinkEdgeMade(id, shown, e);
      var k :| 0 <= k < |shown| && e == LinkEdge(id, shown[k]);
      assert all[k] in all;
      LinkPeerIn(t, id, all[k]);
    }
    forall x ensures EdgeTo(p, x) <==> PeerAmong(shown, x) { EdgeToIff(id, shown, x); }
    forall x | Neighbour(t, id, x) && !EdgeTo(p, x)
      ensures p.nodeMetric.truncated && p.edgeMetric.truncated
      ensures |p.edges| == p.edgeMetric.limit || |p.edges| == p.nodeMetric.limit - 1
      ensures forall e :: e in p.edges ==> Less(e.to, x)
    {
      NeighbourListed(t, id, x);
      NeighboursCut(all, n, x);
      forall e | e in p.edges ensures Less(e.to, x) { LinkEdgeMade(id, shown, e); }
    }
    if p.edgeMetric.truncated { CutNeighbour(t, id, n, shown, p); }
  }

  lemma {:induction false} CutNeighbour(t: Tables, id: string, n: nat, shown: seq<LinkPeer>, p: Projection)
    requires |LinkPeers(t, id)| > n && shown == Take(LinkPeers(t, id), n)
    requires forall x :: EdgeTo(p, x) <==> PeerAmong(shown, x)
    ensures exists x :: Neighbour(t, id, x) && !EdgeTo(p, x)
  {
    var all := LinkPeers(t, id);
    var x := all[n].peer;
    LinkPeersContract(t, id);
    LessIrreflexive(x);
    NeighbourListed(t, id, x);
    assert PeerAmong(all, x);
    forall k | 0 <= k < n ensures all[k].peer != x { assert Less(all[k].peer, all[n].peer); }
    assert !PeerAmong(shown, x);
  }

  lemma {:induction false} PhysicalEnds(w: World, focus: Focus, links: seq<LinkPeer>, lim: Limits)
    ensures EndsDrawn(w.tables, PhysicalFocus(w, focus, links, lim), focus.id)
  {
    var t, id := w.tables, focus.id;
    var p, shown := PhysicalFocus(w, focus, links, lim), Take(links, MaxLinkPeers(lim));
    var far := NeighbourNodes(t, shown);
    assert p.nodes[0] in p.nodes && p.nodes[0].id == id;
    forall x ensures EdgeTo(p, x) <==> PeerAmong(shown, x) { EdgeToIff(id, shown, x); }
    forall e | e in p.edges ensures NodeIn(p.nodes, e.to) {
      LinkEdgeMade(id, shown, e);
      var k :| 0 <= k < |shown| && e == LinkEdge(id, shown[k]);
      assert far[k] in far && far[k].id == e.to && far[k] in p.nodes;
    }
    forall n | n in p.nodes ensures (n.id == id || EdgeTo(p, n.id)) && DeviceDrawn(t, n) && n.regionIds == [] {
      DeviceFound(t, n.id);
      if n in far {
        var k :| 0 <= k < |far| && far[k] == n;
        assert shown[k].peer == n.id;
      }
    }
  }

  lemma {:induction false} PhysicalSame(t: Tables, p: Projection, q: Projection, id: string)
    requires SameAnswer(p, q) && NeighboursJoined(t, q, id) && EndsDrawn(t, q, id)
    ensures NeighboursJoined(t, p, id) && EndsDrawn(t, p, id)
  {
    forall x ensures EdgeTo(p, x) <==> EdgeTo(q, x) { }
    forall x ensures NodeIn(p.nodes, x) <==> NodeIn(q.nodes, x) { }
  }

  /** The physical view of a device: it and its neighbours, each joined to it through the least of their links. */
  lemma {:induction false} PhysicalAnswer(w: World, req: Request, idRaw: string)
    requires Asks(req, "physical", "device", idRaw) && Respond(w, req).Ok? && Keyed(w.tables)
    ensures w.canonicalUuid(idRaw).Some?
    ensures var id, p := w.canonicalUuid(idRaw).value, Respond(w, req).value;
      && p.focus == Some(Focus("device", id)) && p.regions == []
      && NeighboursJoined(w.tables, p, id) && EndsDrawn(w.tables, p, id)
  {
    Asked(w, req, "physical", "device", idRaw);
    LookedUp(w, GetDevice, idRaw);
    var d, lim := LookupDevice(w, GetDevice, idRaw).value, LimitsOf(req);
    var q := PhysicalFocus(w, Focus("device", d.id), LinkPeers(w.tables, d.id), lim);
    assert RespondDevice(w, "physical", ParseMapDepth(req.depth).value, d, lim) == Ok(q);
    PhysicalJoins(w, Focus("device", d.id), lim);
    PhysicalEnds(w, Focus("device", d.id), LinkPeers(w.tables, d.id), lim);
    SortedSame(q);
    PhysicalSame(w.tables, SortMapProjection(q), q, d.id);
  }
}
