/** The answers of the map endpoint, layer by layer, in terms of the stored rows. */
module MapLayers {
  import opened Orders
  import opened Text
  import opened MapTables
  import opened LimitPushdown
  import opened MapProjection
  import opened MapFacts
  import opened MapAnswer
  import opened MapHandler

  /** The request names this layer and focus and does not ask for depth 0. */
  ghost predicate Asks(req: Request, layer: string, focusType: string, focusId: string) {
    && ToLower(TrimSpace(req.layer)) == layer && ToLower(TrimSpace(req.focusType)) == focusType
    && TrimSpace(req.focusType) != "" && TrimSpace(req.focusId) == focusId && focusId != ""
    && (ParseMapDepth(req.depth).Ok? ==> ParseMapDepth(req.depth).value > 0)
  }

  ghost function LimitsOf(req: Request): Limits
    requires ParseLimit(req.limit, MAP_MAX_NODES, MAP_MAX_LIMIT).Ok?
  {
    MapLimits(ParseLimit(req.limit, MAP_MAX_NODES, MAP_MAX_LIMIT).value)
  }

  lemma {:induction false} Asked(w: World, req: Request, layer: string, focusType: string, focusId: string)
    requires Asks(req, layer, focusType, focusId) && Respond(w, req).Ok?
    ensures ParseMapDepth(req.depth).Ok? && ParseLimit(req.limit, MAP_MAX_NODES, MAP_MAX_LIMIT).Ok?
    ensures LimitsOf(req).nodes >= 1 && LimitsOf(req).regions >= 1
    ensures var r := RespondFocus(w, layer, ParseMapDepth(req.depth).value, focusType, focusId, LimitsOf(req));
      r.Ok? && Respond(w, req).value == SortMapProjection(r.value)
  {
  }

  lemma {:induction false} FoundHasId(devices: seq<Device>, id: string)
    ensures FindDevice(devices, id).Some? ==> FindDevice(devices, id).value.id == id
  {
    if devices != [] && devices[0].id != id { FoundHasId(devices[1..], id); }
  }

  lemma {:induction false} LookedUp(w: World, query: Query, idRaw: string)
    requires LookupDevice(w, query, idRaw).Ok?
    ensures w.canonicalUuid(idRaw) == Some(LookupDevice(w, query, idRaw).value.id)
    ensures IsDevice(w.tables, LookupDevice(w, query, idRaw).value.id)
  {
    var id := w.canonicalUuid(idRaw).value;
    FoundHasId(w.tables.devices, id);
    DeviceFound(w.tables, id);
  }

  // A device on layer 3

  /** A subnet derived from an address bound to the device. */
  ghost predicate Derives(w: World, id: string, subnet: string) {
    exists k :: 0 <= k < |w.tables.ips| && BoundTo(w.tables, w.tables.ips[k], id)
                && w.subnetOf(w.tables.ips[k].ip) == Some(subnet)
  }

  /** The subnets of the device's addresses, or as many of the least as fit. */
  ghost predicate SubnetsShown(w: World, p: Projection, id: string) {
    && (forall r :: r in p.regions ==> r.kind == "subnet" && r.caption == r.id && Derives(w, id, r.id))
    && (forall s :: Derives(w, id, s) && !RegionIn(p.regions, s) ==>
          p.regionMetric.truncated && |p.regions| == p.regionMetric.limit && forall r :: r in p.regions ==> Less(r.id, s))
    && (p.regionMetric.truncated ==> exists s :: Derives(w, id, s) && !RegionIn(p.regions, s))
  }

  /** An existing device owns an address inside the subnet. */
  ghost function InSubnet(w: World): (string, string) -> bool { (cidr: string, id: string) => OwnsInside(w, cidr, id) }

  lemma {:induction false} SubnetsDerived(w: World, id: string, s: string)
    ensures s in SubnetIds(DeviceIPs(w.tables, id), w.subnetOf) <==> Derives(w, id, s)
  {
    var ips := DeviceIPs(w.tables, id);
    LessStrictTotal();
    SortDistinctIncreasing(Less, Select(ips, w.subnetOf));
    SelectMembers(ips, w.subnetOf);
    if k :| 0 <= k < |ips| && w.subnetOf(ips[k]) == Some(s) {
      assert ips[k] in ips;
      AddressesMean(w.tables, id, ips[k]);
    }
    if k :| 0 <= k < |w.tables.ips| && BoundTo(w.tables, w.tables.ips[k], id) && w.subnetOf(w.tables.ips[k].ip) == Some(s) {
      AddressesMean(w.tables, id, w.tables.ips[k].ip);
      var j :| 0 <= j < |ips| && ips[j] == w.tables.ips[k].ip;
    }
  }

  lemma {:induction false} RegionMade(layer: string, shown: seq<string>, r: Region)
    ensures r in RegionList(layer, shown) <==> exists k :: 0 <= k < |shown| && r == MapRegion(layer, shown[k])
  {
    var regions := RegionList(layer, shown);
    if k :| 0 <= k < |regions| && regions[k] == r { assert r == MapRegion(layer, shown[k]); }
    if k :| 0 <= k < |shown| && r == MapRegion(layer, shown[k]) { assert regions[k] == r; }
  }

  lemma {:induction false} DeviceShowsSubnets(w: World, focus: Focus, lim: Limits)
    ensures SubnetsShown(w, DeviceFocus(w, "l3", focus, SubnetIds(DeviceIPs(w.tables, focus.id), w.subnetOf), lim), focus.id)
  {
    var all := SubnetIds(DeviceIPs(w.tables, focus.id), w.subnetOf);
    var p, shown := DeviceFocus(w, "l3", focus, all, lim), Take(all, lim.regions);
    SubnetIdsIncreasing(DeviceIPs(w.tables, focus.id), w.subnetOf);
    assert forall i :: 0 <= i < |shown| ==> shown[i] == all[i];
    forall s ensures s in all <==> Derives(w, focus.id, s) { SubnetsDerived(w, focus.id, s); }
    forall r | r in p.regions
      ensures r.kind == "subnet" && r.caption == r.id && Derives(w, focus.id, r.id) && r.id in shown
    {
      RegionMade("l3", shown, r);
    }
    forall s ensures RegionIn(p.regions, s) <==> s in shown { RegionListIn("l3", shown, s); }
    forall s | Derives(w, focus.id, s) && !RegionIn(p.regions, s)
      ensures p.regionMetric.truncated && |p.regions| == p.regionMetric.limit && forall r :: r in p.regions ==> Less(r.id, s)
    {
      TakeLeast(all, lim.regions, s);
    }
    if p.regionMetric.truncated {
      TakeCuts(all, lim.regions);
      assert Derives(w, focus.id, all[lim.regions]) && !RegionIn(p.regions, all[lim.regions]);
    }
  }

  lemma {:induction false} SubnetsShownSame(w: World, p: Projection, q: Projection, id: string)
    requires SameAnswer(p, q) && SubnetsShown(w, q, id)
    ensures SubnetsShown(w, p, id)
  {
    forall s ensures RegionIn(p.regions, s) <==> RegionIn(q.regions, s) { }
  }

  lemma {:induction false} SubnetsListHolders(w: World, focus: string, shown: seq<string>)
    ensures ListsHolders(shown, PeersOf(w, "l3", focus), focus, InSubnet(w))
  {
    forall r, id | r in shown ensures id in PeersOf(w, "l3", focus)(r) <==> InSubnet(w)(r, id) && id != focus {
      SubnetPeersMean(w, focus, r, id);
    }
  }

  /**
   * The layer 3 view of a device: the subnets of its addresses; beside it exactly the existing devices that own an address
   * inside one of those, each in just those subnets, and joined to it; cut only to the least ids.
   */
  lemma {:induction false} L3DeviceAnswer(w: World, req: Request, idRaw: string)
    requires Asks(req, "l3", "device", idRaw) && Respond(w, req).Ok?
    ensures w.canonicalUuid(idRaw).Some?
    ensures var id, p := w.canonicalUuid(idRaw).value, Respond(w, req).value;
      && p.layer == "l3" && p.focus == Some(Focus("device", id)) && IsDevice(w.tables, id)
      && SubnetsShown(w, p, id) && PeersDrawn(p, id, InSubnet(w)) && Placed(p, id, InSubnet(w))
      && DevicesDrawn(w.tables, p) && PeersJoined(p, id)
  {
    Asked(w, req, "l3", "device", idRaw);
    LookedUp(w, GetDevice, idRaw);
    var d, lim := LookupDevice(w, GetDevice, idRaw).value, LimitsOf(req);
    var focus := Focus("device", d.id);
    var all := SubnetIds(DeviceIPs(w.tables, d.id), w.subnetOf);
    var q := DeviceFocus(w, "l3", focus, all, lim);
    assert RespondDevice(w, "l3", ParseMapDepth(req.depth).value, d, lim) == Ok(q);
    SubnetsListHolders(w, d.id, Take(all, lim.regions));
    DeviceAnswer(w, "l3", focus, all, lim, InSubnet(w));
    DeviceShowsSubnets(w, focus, lim);
    SortedSame(q);
    SubnetsShownSame(w, SortMapProjection(q), q, d.id);
  }

  /** What holds of a device view on either layer, sorted. */
  lemma {:induction false} DeviceAnswer(w: World, layer: string, focus: Focus, all: seq<string>, lim: Limits,
                                        holds: (string, string) -> bool)
    requires (layer == "l3" || layer == "l2") && lim.nodes >= 1
    requires ListsHolders(Take(all, lim.regions), PeersOf(w, layer, focus.id), focus.id, holds)
    ensures var p := SortMapProjection(DeviceFocus(w, layer, focus, all, lim));
      && p.layer == layer && p.focus == Some(focus)
      && PeersDrawn(p, focus.id, holds) && Placed(p, focus.id, holds) && DevicesDrawn(w.tables, p)
      && (if layer == "l3" then PeersJoined(p, focus.id) else p.edges == [])
  {
    var q := DeviceFocus(w, layer, focus, all, lim);
    FocusDrawsPeers(w.tables, layer, focus, all, PeersOf(w, layer, focus.id), lim, holds);
    FocusPlaces(w.tables, layer, focus, all, PeersOf(w, layer, focus.id), lim, holds);
    FocusJoinsPeers(w.tables, focus, all, PeersOf(w, layer, focus.id), lim, holds);
    SortedSame(q);
    PeersDrawnSame(SortMapProjection(q), q, focus.id, holds);
    PlacedSame(SortMapProjection(q), q, focus.id, holds);
    if layer == "l3" { PeersJoinedSame(SortMapProjection(q), q, focus.id); }
  }

  // A device on layer 2

  /** The VLANs of the device's ports, or as many of the least numbers as fit. */
  ghost predicate VlansShown(t: Tables, p: Projection, id: string) {
    && (forall r :: r in p.regions ==> exists v :: v > 0 && HasPort(t, v, id) && r == Region(Itoa(v), "vlan", "VLAN " + Itoa(v)))
    && (forall v :: v > 0 && HasPort(t, v, id) && !RegionIn(p.regions, Itoa(v)) ==>
          p.regionMetric.truncated && |p.regions| == p.regionMetric.limit
          && forall u :: u > 0 && RegionIn(p.regions, Itoa(u)) ==> u < v)
    && (p.regionMetric.truncated ==> exists v :: v > 0 && HasPort(t, v, id) && !RegionIn(p.regions, Itoa(v)))
  }

  /** An existing device has a port with the VLAN of this number as its PVID. */
  ghost predicate OnVlanText(t: Tables, region: string, id: string) {
    exists v :: v > 0 && region == Itoa(v) && OnVlan(t, v, id)
  }

  ghost function InVlan(t: Tables): (string, string) -> bool { (region: string, id: string) => OnVlanText(t, region, id) }

  /** The positive numbers of an ascending list. */
  ghost predicate PositiveOf(positive: seq<int>, pvids: seq<int>) {
    && Increasing(IntLess, positive) && (forall v :: v in positive <==> v in pvids && v > 0)
    && VlanIds(pvids) == Map(Itoa, positive)
  }

  lemma {:induction false} PositivePart(pvids: seq<int>) returns (positive: seq<int>)
    requires Increasing(IntLess, pvids)
    ensures PositiveOf(positive, pvids)
  {
    positive := Select(pvids, KeepPositive);
    KeepPositiveIncreasing(pvids);
    PositiveVlanNames(pvids);
    SelectMembers(pvids, KeepPositive);
    forall v ensures v in positive <==> v in pvids && v > 0 {
      if k :| 0 <= k < |pvids| && KeepPositive(pvids[k]) == Some(v) { assert pvids[k] in pvids; }
      if v in pvids && v > 0 {
        var k :| 0 <= k < |pvids| && pvids[k] == v;
        assert KeepPositive(pvids[k]) == Some(v);
      }
    }
  }

  lemma {:induction false} SameNumber(u: int, v: int)
    requires u > 0 && v > 0
    ensures Itoa(u) == Itoa(v) <==> u == v
  {
    DecimalInjective(u, v);
  }

  lemma {:induction false} ShownNumber(positive: seq<int>, n: int, v: int)
    requires v > 0 && (forall u :: u in positive ==> u > 0)
    ensures Itoa(v) in Take(Map(Itoa, positive), n) <==> v in Take(positive, n)
  {
    var texts := Map(Itoa, positive);
    if v in Take(positive, n) {
      var k :| 0 <= k < |Take(positive, n)| && Take(positive, n)[k] == v;
      assert Take(texts, n)[k] == Itoa(v);
    }
    if Itoa(v) in Take(texts, n) {
      var k :| 0 <= k < |Take(texts, n)| && Take(texts, n)[k] == Itoa(v);
      assert texts[k] == Itoa(positive[k]) && positive[k] in positive;
      SameNumber(positive[k], v);
      assert Take(positive, n)[k] == v;
    }
  }

  lemma {:induction false} DeviceShowsVlans(w: World, focus: Focus, lim: Limits)
    ensures VlansShown(w.tables, DeviceFocus(w, "l2", focus, VlanIds(DevicePVIDs(w.tables, focus.id)), lim), focus.id)
  {
    var t, pvids := w.tables, DevicePVIDs(w.tables, focus.id);
    DevicePVIDsMembers(t, focus.id);
    var positive := PositivePart(pvids);
    var all := VlanIds(pvids);
    var p, shown := DeviceFocus(w, "l2", focus, all, lim), Take(all, lim.regions);
    forall v ensures v in pvids <==> HasPort(t, v, focus.id) { PVIDsMean(t, focus.id, v); }
    forall v | v > 0 ensures RegionIn(p.regions, Itoa(v)) <==> v in Take(positive, lim.regions) {
      RegionListIn("l2", shown, Itoa(v));
      ShownNumber(positive, lim.regions, v);
    }
    VlanRegionsAre(t, p, shown, positive, focus.id, lim.regions);
    forall v | v > 0 && HasPort(t, v, focus.id) && !RegionIn(p.regions, Itoa(v))
      ensures p.regionMetric.truncated && |p.regions| == p.regionMetric.limit
      ensures forall u :: u > 0 && RegionIn(p.regions, Itoa(u)) ==> u < v
    {
      TakeLeastInts(positive, lim.regions, v);
    }
    if p.regionMetric.truncated {
      TakeCutsInts(positive, lim.regions);
      var v := positive[lim.regions];
      assert v > 0 && HasPort(t, v, focus.id) && !RegionIn(p.regions, Itoa(v));
    }
  }

  lemma {:induction false} VlanRegionsAre(t: Tables, p: Projection, shown: seq<string>, positive: seq<int>, id: string, n: nat)
    requires p.regions == RegionList("l2", shown) && shown == Take(Map(Itoa, positive), n)
    requires forall v :: v in positive ==> v > 0 && HasPort(t, v, id)
    ensures forall r :: r in p.regions ==>
      exists v :: v > 0 && HasPort(t, v, id) && r == Region(Itoa(v), "vlan", "VLAN " + Itoa(v))
  {
    forall r | r in p.regions
      ensures exists v :: v > 0 && HasPort(t, v, id) && r == Region(Itoa(v), "vlan", "VLAN " + Itoa(v))
    {
      RegionMade("l2", shown, r);
      var k :| 0 <= k < |shown| && r == MapRegion("l2", shown[k]);
      assert shown[k] == Itoa(positive[k]) && positive[k] in positive;
    }
  }

  lemma {:induction false} TakeLeastInts(s: seq<int>, n: nat, x: int)
    requires Increasing(IntLess, s) && x in s && x !in Take(s, n)
    ensures |s| > n && |Take(s, n)| == n && forall y :: y in Take(s, n) ==> y < x
  {
    assert forall i :: 0 <= i < |Take(s, n)| ==> Take(s, n)[i] == s[i];
    var k :| 0 <= k < |s| && s[k] == x;
    forall y | y in Take(s, n) ensures y < x {
      var j :| 0 <= j < |Take(s, n)| && Take(s, n)[j] == y;
      assert j < k ==> IntLess(s[j], s[k]);
    }
  }

  lemma {:induction false} TakeCutsInts(s: seq<int>, n: nat)
    requires Increasing(IntLess, s) && |s| > n
    ensures s[n] in s && s[n] !in Take(s, n)
  {
    forall k | 0 <= k < n ensures s[k] != s[n] { assert IntLess(s[k], s[n]); }
  }

  lemma {:induction false} VlansShownSame(t: Tables, p: Projection, q: Projection, id: string)
    requires SameAnswer(p, q) && VlansShown(t, q, id)
    ensures VlansShown(t, p, id)
  {
    forall s ensures RegionIn(p.regions, s) <==> RegionIn(q.regions, s) { }
  }

  lemma {:induction false} VlansListHolders(w: World, focus: string, positive: seq<int>, n: nat)
    requires forall v :: v in positive ==> 0 < v <= MAX_INT64
    ensures ListsHolders(Take(Map(Itoa, positive), n), PeersOf(w, "l2", focus), focus, InVlan(w.tables))
  {
    var shown := Take(Map(Itoa, positive), n);
    forall r, id | r in shown ensures id in PeersOf(w, "l2", focus)(r) <==> InVlan(w.tables)(r, id) && id != focus {
      var k :| 0 <= k < |shown| && shown[k] == r;
      var v := positive[k];
      assert r == Itoa(v) && v in positive;
      VlanPeersMean(w, focus, v, id);
      OneNumber(w.tables, v, id);
    }
  }

  lemma {:induction false} OneNumber(t: Tables, v: int, id: string)
    requires v > 0
    ensures OnVlanText(t, Itoa(v), id) <==> OnVlan(t, v, id)
  {
    if u :| u > 0 && Itoa(v) == Itoa(u) && OnVlan(t, u, id) { SameNumber(u, v); }
  }

  /**
   * The layer 2 view of a device: the VLANs of its ports; beside it exactly the existing devices with a port in one of
   * those, each in just those VLANs; no edges; cut only to the least ids and numbers.
   */
  lemma {:induction false} L2DeviceAnswer(w: World, req: Request, idRaw: string)
    requires Asks(req, "l2", "device", idRaw) && Respond(w, req).Ok? && Vlans32(w.tables)
    ensures w.canonicalUuid(idRaw).Some?
    ensures var id, p := w.canonicalUuid(idRaw).value, Respond(w, req).value;
      && p.layer == "l2" && p.focus == Some(Focus("device", id)) && IsDevice(w.tables, id)
      && VlansShown(w.tables, p, id) && PeersDrawn(p, id, InVlan(w.tables)) && Placed(p, id, InVlan(w.tables))
      && DevicesDrawn(w.tables, p) && p.edges == []
  {
    Asked(w, req, "l2", "device", idRaw);
    LookedUp(w, GetDevice, idRaw);
    var d, lim := LookupDevice(w, GetDevice, idRaw).value, LimitsOf(req);
    var focus, pvids := Focus("device", d.id), DevicePVIDs(w.tables, d.id);
    var q := DeviceFocus(w, "l2", focus, VlanIds(pvids), lim);
    assert RespondDevice(w, "l2", ParseMapDepth(req.depth).value, d, lim) == Ok(q);
    DevicePVIDsMembers(w.tables, d.id);
    var positive := PositivePart(pvids);
    forall v | v in positive ensures 0 < v <= MAX_INT64 { PVIDsMean(w.tables, d.id, v); }
    VlansListHolders(w, d.id, positive, lim.regions);
    DeviceAnswer(w, "l2", focus, VlanIds(pvids), lim, InVlan(w.tables));
    DeviceShowsVlans(w, focus, lim);
    SortedSame(q);
    VlansShownSame(w.tables, SortMapProjection(q), q, d.id);
  }
}
