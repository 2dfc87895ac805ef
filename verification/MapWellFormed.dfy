/** Every branch of the map endpoint gives a well-formed projection, with the one exception stated. */
module MapWellFormed {
  import opened Orders
  import opened Text
  import opened MapTables
  import opened LimitPushdown
  import opened MapProjection
  import opened MapSort
  import opened SelfLinks
  import opened MapPhysical

  lemma EmptyCoherent(layer: string, focus: Option<Focus>, lim: Limits)
    ensures Coherent(EmptyMapProjection(layer, focus, lim))
  {
  }

  /** Peer edges of distinct peers have distinct ids. */
  lemma PeerEdgeIdInjective(focusId: string, a: string, b: string)
    ensures PeerEdge(focusId, a).id == PeerEdge(focusId, b).id <==> a == b
  {
    var prefix := "peer:" + focusId + ":";
    assert PeerEdge(focusId, a).id[|prefix|..] == a;
    assert PeerEdge(focusId, b).id[|prefix|..] == b;
  }

  ghost predicate SameAddresses(a: seq<string>, b: seq<string>) { forall ip :: ip in a <==> ip in b }

  ghost predicate SubnetOfSome(ips: seq<string>, subnetOf: string -> Option<string>, id: string) {
    exists k :: 0 <= k < |ips| && subnetOf(ips[k]) == Some(id)
  }

  /** The derived subnets are exactly those of the addresses. */
  lemma SubnetIdsMembers(ips: seq<string>, subnetOf: string -> Option<string>, id: string)
    ensures id in SubnetIds(ips, subnetOf) <==> SubnetOfSome(ips, subnetOf, id)
  {
    LessStrictTotal();
    SortDistinctIncreasing(Less, Select(ips, subnetOf));
    SelectMembers(ips, subnetOf);
  }

  /** Order and repetition of the addresses do not matter. */
  lemma SubnetIdsSameAddresses(a: seq<string>, b: seq<string>, subnetOf: string -> Option<string>)
    requires SameAddresses(a, b)
    ensures SubnetIds(a, subnetOf) == SubnetIds(b, subnetOf)
  {
    LessStrictTotal();
    SubnetIdsIncreasing(a, subnetOf);
    SubnetIdsIncreasing(b, subnetOf);
    forall id ensures id in SubnetIds(a, subnetOf) <==> id in SubnetIds(b, subnetOf) {
      SubnetIdsMembers(a, subnetOf, id);
      SubnetIdsMembers(b, subnetOf, id);
      if SubnetOfSome(a, subnetOf, id) {
        var k :| 0 <= k < |a| && subnetOf(a[k]) == Some(id);
        assert a[k] in b;
      }
      if SubnetOfSome(b, subnetOf, id) {
        var k :| 0 <= k < |b| && subnetOf(b[k]) == Some(id);
        assert b[k] in a;
      }
    }
    IncreasingUnique(Less, SubnetIds(a, subnetOf), SubnetIds(b, subnetOf));
  }

  lemma {:induction false} VlanIdsDistinct(pvids: seq<int>)
    requires Increasing(IntLess, pvids)
    ensures Distinct(VlanIds(pvids))
  {
    if pvids != [] {
      VlanIdsDistinct(pvids[1..]);
      SelectMembers(pvids[1..], PositiveVlan);
      if pvids[0] > 0 {
        forall r | r in VlanIds(pvids[1..]) ensures r != Itoa(pvids[0]) {
          var k :| 0 <= k < |pvids[1..]| && PositiveVlan(pvids[1..][k]) == Some(r);
          assert IntLess(pvids[0], pvids[k + 1]);
          DecimalInjective(pvids[0], pvids[k + 1]);
        }
      }
    }
  }

  lemma {:induction false} RegionsHoldingDistinct(regions: seq<string>, peersOf: string -> seq<string>, id: string)
    requires Distinct(regions)
    ensures Distinct(RegionsHolding(regions, peersOf, id))
  {
    if regions != [] {
      var rest := RegionsHolding(regions[1..], peersOf, id);
      RegionsHoldingDistinct(regions[1..], peersOf, id);
      RegionsHoldingMembers(regions[1..], peersOf, id);
      forall j | 0 <= j < |rest| ensures rest[j] != regions[0] {
        assert rest[j] in rest;
        var k :| 0 <= k < |regions[1..]| && regions[1..][k] == rest[j];
        assert regions[k + 1] == rest[j];
      }
    }
  }

  /** Peer queries leave out the focused device. */
  ghost predicate Excludes(shown: seq<string>, peersOf: string -> seq<string>, focusId: string) {
    forall k :: 0 <= k < |shown| ==> focusId !in peersOf(shown[k])
  }

  lemma IncludedPeersContract(shown: seq<string>, peersOf: string -> seq<string>, focusId: string, lim: Limits)
    requires Excludes(shown, peersOf, focusId)
    ensures Increasing(Less, IncludedPeers(shown, peersOf, lim))
    ensures focusId !in IncludedPeers(shown, peersOf, lim)
  {
    UnionContract(shown, peersOf);
    assert !InSome(shown, peersOf, focusId);
  }

  lemma RegionListHas(layer: string, shown: seq<string>, r: string)
    requires r in shown
    ensures HasRegion(RegionList(layer, shown), r)
  {
    var k :| 0 <= k < |shown| && shown[k] == r;
    assert RegionList(layer, shown)[k].id == r;
  }

  /** A device drawn in some of the shown regions refers only to returned regions. */
  lemma DeviceNodeAnchored(t: Tables, layer: string, shown: seq<string>, id: string, regionIds: seq<string>)
    requires Distinct(regionIds) && forall r :: r in regionIds ==> r in shown
    ensures Anchored(DeviceNode(t, id, regionIds), RegionList(layer, shown))
  {
    forall r | r in regionIds ensures HasRegion(RegionList(layer, shown), r) {
      RegionListHas(layer, shown, r);
    }
  }

  lemma PeerNodesAnchored(t: Tables, layer: string, shown: seq<string>, peersOf: string -> seq<string>, included: seq<string>)
    requires Distinct(shown)
    ensures forall n :: n in PeerNodes(t, shown, peersOf, included) ==> Anchored(n, RegionList(layer, shown))
  {
    var nodes := PeerNodes(t, shown, peersOf, included);
    forall n | n in nodes ensures Anchored(n, RegionList(layer, shown)) {
      var k :| 0 <= k < |nodes| && nodes[k] == n;
      assert n == PeerNode(t, shown, peersOf, included[k]);
      RegionsHoldingDistinct(shown, peersOf, included[k]);
      RegionsHoldingMembers(shown, peersOf, included[k]);
      DeviceNodeAnchored(t, layer, shown, included[k], RegionsHolding(shown, peersOf, included[k]));
    }
  }

  lemma HeadFirstDistinct(head: Node, rest: seq<Node>, ids: seq<string>)
    requires |ids| == |rest| && (forall k :: 0 <= k < |rest| ==> rest[k].id == ids[k])
    requires Increasing(Less, ids) && head.id !in ids
    ensures DistinctNodes([head] + rest)
  {
    IncreasingIds(ids);
    var all := [head] + rest;
    forall i, j | 0 <= i < j < |all| ensures all[i].id != all[j].id {
      assert all[j].id == ids[j - 1] && ids[j - 1] in ids;
      if i > 0 { assert all[i].id == ids[i - 1]; }
    }
  }

  lemma PeerNodeIds(t: Tables, shown: seq<string>, peersOf: string -> seq<string>, included: seq<string>)
    ensures var nodes := PeerNodes(t, shown, peersOf, included);
      |nodes| == |included| && forall k :: 0 <= k < |nodes| ==> nodes[k].id == included[k]
  {
    var nodes := PeerNodes(t, shown, peersOf, included);
    forall k | 0 <= k < |nodes| ensures nodes[k].id == included[k] {
      assert nodes[k] == PeerNode(t, shown, peersOf, included[k]);
    }
  }

  lemma DeviceFocusNodes(t: Tables, layer: string, focus: Focus, all: seq<string>, peersOf: string -> seq<string>, lim: Limits)
    requires Distinct(all) && Excludes(Take(all, lim.regions), peersOf, focus.id)
    ensures var p := DeviceFocusOver(t, layer, focus, all, peersOf, lim);
      DistinctNodes(p.nodes) && (forall n :: n in p.nodes ==> Anchored(n, p.regions))
  {
    var shown := Take(all, lim.regions);
    var included := IncludedPeers(shown, peersOf, lim);
    IncludedPeersContract(shown, peersOf, focus.id, lim);
    PeerNodeIds(t, shown, peersOf, included);
    HeadFirstDistinct(DeviceNode(t, focus.id, shown), PeerNodes(t, shown, peersOf, included), included);
    PeerNodesAnchored(t, layer, shown, peersOf, included);
    DeviceNodeAnchored(t, layer, shown, focus.id, shown);
  }

  lemma PeerEdgesContract(layer: string, focusId: string, included: seq<string>, lim: Limits, nodes: seq<Node>)
    requires Increasing(Less, included)
    requires |nodes| == |included| + 1 && nodes[0].id == focusId
    requires forall k :: 0 <= k < |included| ==> nodes[k + 1].id == included[k]
    ensures DistinctEdges(PeerEdges(layer, focusId, included, lim))
    ensures forall e :: e in PeerEdges(layer, focusId, included, lim) ==> HasNode(nodes, e.from) && HasNode(nodes, e.to)
  {
    IncreasingIds(included);
    var edges := PeerEdges(layer, focusId, included, lim);
    forall i, j | 0 <= i < j < |edges| ensures edges[i].id != edges[j].id {
      PeerEdgeIdInjective(focusId, included[i], included[j]);
    }
    forall e | e in edges ensures HasNode(nodes, e.from) && HasNode(nodes, e.to) {
      var k :| 0 <= k < |edges| && edges[k] == e;
      assert nodes[k + 1].id == e.to;
    }
  }

  lemma DeviceFocusEdges(t: Tables, layer: string, focus: Focus, all: seq<string>, peersOf: string -> seq<string>, lim: Limits)
    requires Excludes(Take(all, lim.regions), peersOf, focus.id)
    ensures var p := DeviceFocusOver(t, layer, focus, all, peersOf, lim);
      DistinctEdges(p.edges) && forall e :: e in p.edges ==> HasNode(p.nodes, e.from) && HasNode(p.nodes, e.to)
  {
    var shown := Take(all, lim.regions);
    var p := DeviceFocusOver(t, layer, focus, all, peersOf, lim);
    var included := IncludedPeers(shown, peersOf, lim);
    IncludedPeersContract(shown, peersOf, focus.id, lim);
    PeerNodeIds(t, shown, peersOf, included);
    PeerEdgesContract(layer, focus.id, included, lim, p.nodes);
  }

  lemma RegionListDistinct(layer: string, shown: seq<string>)
    requires Distinct(shown)
    ensures DistinctRegions(RegionList(layer, shown))
  {
    var regions := RegionList(layer, shown);
    forall i, j | 0 <= i < j < |regions| ensures regions[i].id != regions[j].id {
      assert regions[i].id == shown[i] && regions[j].id == shown[j];
    }
  }

  lemma DeviceFocusCounts(t: Tables, layer: string, focus: Focus, all: seq<string>, peersOf: string -> seq<string>, lim: Limits)
    requires lim.nodes >= 1
    ensures var p := DeviceFocusOver(t, layer, focus, all, peersOf, lim);
      Honest(p.regionMetric, |p.regions|) && Honest(p.nodeMetric, |p.nodes|) && Honest(p.edgeMetric, |p.edges|)
  {
  }

  lemma DeviceFocusCoherent(w: World, layer: string, focus: Focus, all: seq<string>, lim: Limits)
    requires Distinct(all) && lim.nodes >= 1
    ensures Coherent(DeviceFocus(w, layer, focus, all, lim))
  {
    var peersOf := PeersOf(w, layer, focus.id);
    var shown := Take(all, lim.regions);
    forall k | 0 <= k < |shown| ensures focus.id !in peersOf(shown[k]) {
      PeersOfContract(w, layer, focus.id, shown[k]);
    }
    DeviceFocusNodes(w.tables, layer, focus, all, peersOf, lim);
    DeviceFocusEdges(w.tables, layer, focus, all, peersOf, lim);
    DeviceFocusCounts(w.tables, layer, focus, all, peersOf, lim);
    RegionListDistinct(layer, shown);
  }

  lemma RegionFocusCoherent(w: World, layer: string, focus: Focus, members: seq<string>, lim: Limits)
    requires Increasing(Less, members) && lim.regions >= 1
    ensures Coherent(RegionFocus(w, layer, focus, members, lim))
    ensures Coherent(RegionOnly(layer, focus, lim))
  {
    var p := RegionFocus(w, layer, focus, members, lim);
    IncreasingIds(members);
    assert p.regions[0].id == focus.id;
    assert HasRegion(p.regions, focus.id);
    forall i, j | 0 <= i < j < |p.nodes| ensures p.nodes[i].id != p.nodes[j].id {
      assert p.nodes[i].id == members[i] && p.nodes[j].id == members[j];
    }
  }

  lemma ServiceNodesContract(host: string, services: seq<ServiceRow>, regions: seq<Region>)
    requires forall i, j :: 0 <= i < j < |services| ==> services[i].id != services[j].id
    requires HasRegion(regions, host)
    ensures DistinctNodes(ServiceNodes(host, services))
    ensures forall n :: n in ServiceNodes(host, services) ==> Anchored(n, regions)
  {
    var nodes := ServiceNodes(host, services);
    forall i, j | 0 <= i < j < |nodes| ensures nodes[i].id != nodes[j].id {
      assert nodes[i] == ServiceNode(host, services[i]) && nodes[j] == ServiceNode(host, services[j]);
    }
    forall n | n in nodes ensures Anchored(n, regions) {
      var k :| 0 <= k < |nodes| && nodes[k] == n;
      assert n == ServiceNode(host, services[k]);
    }
  }

  lemma ServicesFocusCoherent(w: World, focus: Focus, host: string, caption: Option<string>, lim: Limits)
    requires Keyed(w.tables) && lim.regions >= 1
    ensures Coherent(ServicesFocus(focus, host, caption, ServicesOf(w.tables, host), lim))
  {
    var services := ServicesOf(w.tables, host);
    var p := ServicesFocus(focus, host, caption, services, lim);
    ServicesOfContract(w.tables, host);
    assert p.regions[0].id == host;
    ServiceNodesContract(host, Take(services, lim.nodes), p.regions);
  }

  /** The one way a successful answer can be malformed: a physical view drawing a self-linked device twice. */
  ghost predicate SelfNeighbour(w: World, layer: string, depth: int, focusType: string, idRaw: string, lim: Limits) {
    && layer == "physical" && depth > 0 && focusType == "device"
    && LookupDevice(w, GetDevice, idRaw).Ok?
    && DrawnTwice(w.tables, LookupDevice(w, GetDevice, idRaw).value.id, lim)
  }

  lemma RespondDeviceRegionsCoherent(w: World, layer: string, focus: Focus, all: seq<string>, lim: Limits)
    requires Distinct(all) && lim.nodes >= 1
    requires RespondDeviceRegions(w, layer, focus, all, lim).Ok?
    ensures Coherent(RespondDeviceRegions(w, layer, focus, all, lim).value)
  {
    DeviceFocusCoherent(w, layer, focus, all, lim);
  }

  lemma RespondDeviceCoherent(w: World, layer: string, depth: int, d: Device, lim: Limits)
    requires Keyed(w.tables) && lim.nodes >= 1 && lim.regions >= 1
    requires RespondDevice(w, layer, depth, d, lim).Ok?
    ensures Coherent(RespondDevice(w, layer, depth, d, lim).value)
      <==> !(layer == "physical" && depth > 0 && DrawnTwice(w.tables, d.id, lim))
  {
    var focus := Focus("device", d.id);
    if layer == "l3" && depth > 0 {
      var all := SubnetIds(DeviceIPs(w.tables, d.id), w.subnetOf);
      SubnetIdsIncreasing(DeviceIPs(w.tables, d.id), w.subnetOf);
      IncreasingIds(all);
      RespondDeviceRegionsCoherent(w, layer, focus, all, lim);
    } else if layer == "l2" && depth > 0 {
      DevicePVIDsMembers(w.tables, d.id);
      VlanIdsDistinct(DevicePVIDs(w.tables, d.id));
      RespondDeviceRegionsCoherent(w, layer, focus, VlanIds(DevicePVIDs(w.tables, d.id)), lim);
    } else if layer == "physical" && depth > 0 {
      PhysicalCoherentIff(w, focus, lim);
    } else if layer == "services" && depth > 0 {
      RespondServicesCoherent(w, focus, d.id, d.displayName, lim);
    } else {
      assert Coherent(FocusAlone(w, layer, focus, lim));
    }
  }

  lemma RespondServicesCoherent(w: World, focus: Focus, host: string, caption: Option<string>, lim: Limits)
    requires Keyed(w.tables) && lim.regions >= 1
    requires RespondServices(w, focus, host, caption, lim).Ok?
    ensures Coherent(RespondServices(w, focus, host, caption, lim).value)
  {
    if TrimSpace(host) == "" {
      EmptyCoherent("services", Some(focus), lim);
    } else {
      ServicesFocusCoherent(w, focus, host, HostLabel(w, host, caption).value, lim);
    }
  }

  lemma RespondFocusCoherent(w: World, layer: string, depth: int, focusType: string, idRaw: string, lim: Limits)
    requires Keyed(w.tables) && lim.nodes >= 1 && lim.regions >= 1
    requires RespondFocus(w, layer, depth, focusType, idRaw, lim).Ok?
    ensures Coherent(RespondFocus(w, layer, depth, focusType, idRaw, lim).value)
      <==> !SelfNeighbour(w, layer, depth, focusType, idRaw, lim)
  {
    if focusType == "device" {
      RespondDeviceCoherent(w, layer, depth, LookupDevice(w, GetDevice, idRaw).value, lim);
    } else if focusType == "subnet" {
      var cidr := w.canonicalCidr(idRaw).value;
      EmptyCoherent(layer, Some(Focus(focusType, cidr)), lim);
      DevicesInCIDRMembers(w.tables, w.within, cidr);
      RegionFocusCoherent(w, layer, Focus(focusType, cidr), DevicesInCIDR(w.tables, w.within, cidr), lim);
    } else if focusType == "vlan" {
      var v := Atoi(idRaw).value;
      EmptyCoherent(layer, Some(Focus(focusType, Itoa(v))), lim);
      DevicesInVLANMembers(w.tables, v);
      RegionFocusCoherent(w, layer, Focus(focusType, Itoa(v)), DevicesInVLAN(w.tables, v), lim);
    } else if focusType == "service" && layer == "services" {
      var s := LookupService(w, idRaw).value;
      EmptyCoherent(layer, Some(Focus(focusType, s.id)), lim);
      if depth > 0 { RespondServicesCoherent(w, Focus(focusType, s.id), s.deviceId, None, lim); }
    } else {
      EmptyCoherent(layer, Some(Focus(focusType, idRaw)), lim);
    }
  }

  /**
   * Every successful response of every branch is well formed, except exactly when a physical view is asked of a
   * device with a stored link to itself and fewer of its neighbours than are drawn have smaller ids.
   */
  lemma ProjectionWellFormed(w: World, req: Request)
    requires Keyed(w.tables) && Respond(w, req).Ok?
    ensures var layer := ToLower(TrimSpace(req.layer));
      WellFormed(Respond(w, req).value) <==>
        !SelfNeighbour(w, layer, ParseMapDepth(req.depth).value, ToLower(TrimSpace(req.focusType)),
                       TrimSpace(req.focusId), MapLimits(ParseLimit(req.limit, MAP_MAX_NODES, MAP_MAX_LIMIT).value))
  {
    var layer := ToLower(TrimSpace(req.layer));
    var depth := ParseMapDepth(req.depth).value;
    var lim := MapLimits(ParseLimit(req.limit, MAP_MAX_NODES, MAP_MAX_LIMIT).value);
    var typeRaw, idRaw := TrimSpace(req.focusType), TrimSpace(req.focusId);
    if typeRaw == "" {
      EmptyCoherent(layer, None, lim);
      SortedWellFormed(EmptyMapProjection(layer, None, lim));
    } else {
      var p := RespondFocus(w, layer, depth, ToLower(typeRaw), idRaw, lim).value;
      RespondFocusCoherent(w, layer, depth, ToLower(typeRaw), idRaw, lim);
      if Coherent(p) {
        SortedWellFormed(p);
      } else if WellFormed(SortMapProjection(p)) {
        SortKeepsRepeats(p);
      }
    }
  }

  /** Without a stored link from a device to itself, which discovery never writes, every response is well formed. */
  lemma WithoutSelfLinks(w: World, req: Request)
    requires forall m :: 0 <= m < |w.tables.links| ==> w.tables.links[m].a != w.tables.links[m].b
    requires Keyed(w.tables) && Respond(w, req).Ok?
    ensures WellFormed(Respond(w, req).value)
  {
    ProjectionWellFormed(w, req);
  }

  // One device, linked to itself

  function Nowhere(ip: string, cidr: string): bool { false }
  function Unknown(text: string): Option<string> { None }
  function Same(text: string): Option<string> { Some(text) }
  function NoFailure(query: Query): bool { false }

  function LoneDevice(): World {
    World(Tables([Device("d", None)], [], [], [], [LinkRow("l", "d", "d")], []),
          Nowhere, Unknown, Unknown, Same, NoFailure)
  }

  function PhysicalOfLoneDevice(): Request { Request("physical", "", "", "device", "d") }

  lemma PhysicalRead()
    ensures ToLower(TrimSpace("physical")) == "physical"
  {
    TrimSpaceFixed("physical");
    assert ToLower("cal") == "cal";
    assert ToLower("sical") == "sical";
  }

  lemma DeviceRead()
    ensures TrimSpace("device") == "device" && ToLower("device") == "device"
  {
    TrimSpaceFixed("device");
    assert ToLower("ice") == "ice";
  }

  lemma LoneRequestRead()
    ensures ToLower(TrimSpace("physical")) == "physical" && ToLower(TrimSpace("device")) == "device"
    ensures TrimSpace("device") == "device" && TrimSpace("d") == "d" && TrimSpace("") == ""
  {
    PhysicalRead();
    DeviceRead();
    TrimSpaceFixed("d");
  }

  lemma LoneDeviceSelfLinked()
    ensures DrawnTwice(LoneDevice().tables, "d", MapLimits(MAP_MAX_NODES))
  {
    var t := LoneDevice().tables;
    assert t.links[0].a == "d" && t.links[0].b == "d";
    LessIrreflexive("d");
    assert SmallerNeighbours(t, "d") == {};
  }

  /** Asked for the physical view of a device drawn twice, with default depth and limit, the answer is malformed. */
  lemma MalformedAnswer(w: World, req: Request)
    requires Keyed(w.tables) && !w.fails(ListLinkPeers)
    requires ToLower(TrimSpace(req.layer)) == "physical" && ParseMapDepth(req.depth) == Ok(1)
    requires ParseLimit(req.limit, MAP_MAX_NODES, MAP_MAX_LIMIT) == Ok(MAP_MAX_NODES)
    requires TrimSpace(req.focusType) != "" && ToLower(TrimSpace(req.focusType)) == "device" && TrimSpace(req.focusId) != ""
    requires LookupDevice(w, GetDevice, TrimSpace(req.focusId)).Ok?
    requires DrawnTwice(w.tables, LookupDevice(w, GetDevice, TrimSpace(req.focusId)).value.id, MapLimits(MAP_MAX_NODES))
    ensures Respond(w, req).Ok? && !WellFormed(Respond(w, req).value)
  {
    var d := LookupDevice(w, GetDevice, TrimSpace(req.focusId)).value;
    assert RespondDevice(w, "physical", 1, d, MapLimits(MAP_MAX_NODES)).Ok?;
    assert RespondFocus(w, "physical", 1, "device", TrimSpace(req.focusId), MapLimits(MAP_MAX_NODES)).Ok?;
    ProjectionWellFormed(w, req);
  }

  lemma LoneDeviceFound()
    ensures LookupDevice(LoneDevice(), GetDevice, "d") == Ok(Device("d", None))
    ensures Keyed(LoneDevice().tables) && !LoneDevice().fails(ListLinkPeers)
  {
  }

  lemma NoParametersGiven()
    ensures ParseMapDepth("") == Ok(1) && ParseLimit("", MAP_MAX_NODES, MAP_MAX_LIMIT) == Ok(MAP_MAX_NODES)
  {
  }

  /** A response that draws its one device twice. */
  lemma LoneDeviceDrawnTwice()
    ensures Keyed(LoneDevice().tables) && Respond(LoneDevice(), PhysicalOfLoneDevice()).Ok?
    ensures !WellFormed(Respond(LoneDevice(), PhysicalOfLoneDevice()).value)
  {
    LoneRequestRead();
    LoneDeviceFound();
    NoParametersGiven();
    LoneDeviceSelfLinked();
    MalformedAnswer(LoneDevice(), PhysicalOfLoneDevice());
  }
}
