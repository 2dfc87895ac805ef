/**
 * The network map endpoint. `Respond` says what a request must return in terms of the complete, unlimited
 * query results; MapHandler builds the response from limited queries and hash maps and is proved against it.
 */
module MapProjection {
  import opened Orders
  import opened Text
  import opened MapTables
  import opened LimitPushdown
  import opened Params

  const MAP_MAX_REGIONS := 8
  const MAP_MAX_NODES := 120
  const MAP_MAX_EDGES := 80
  const MAP_MAX_LIMIT := 500

  datatype Metric = Metric(returned: int, limit: int, truncated: bool, total: Option<int>)
  datatype Region = Region(id: string, kind: string, caption: string)
  datatype Node = Node(id: string, kind: string, caption: Option<string>,
                       primaryRegionId: Option<string>, regionIds: seq<string>)
  datatype Edge = Edge(id: string, kind: string, from: string, to: string)
  datatype Focus = Focus(kind: string, id: string)
  datatype Projection = Projection(layer: string, focus: Option<Focus>,
                                   regions: seq<Region>, nodes: seq<Node>, edges: seq<Edge>,
                                   regionMetric: Metric, nodeMetric: Metric, edgeMetric: Metric)
  datatype Limits = Limits(regions: nat, nodes: nat, edges: nat)

  datatype Request = Request(layer: string, depth: string, limit: string, focusType: string, focusId: string)
  datatype ApiError = InvalidLayer | InvalidDepth | InvalidLimit | FocusPairIncomplete | InvalidFocusType
                    | InvalidId | NotFound | DbError

  datatype Query = GetDevice | ListIPs | ListPVIDs | ListPeers(region: string) | ListMembers | ListLinkPeers
                 | GetService | ListServices | GetHostDevice

  /** The database and the address library as the handler sees them; `fails` marks the queries that error. */
  datatype World = World(tables: Tables,
                         within: (string, string) -> bool,
                         subnetOf: string -> Option<string>,
                         canonicalCidr: string -> Option<string>,
                         canonicalUuid: string -> Option<string>,
                         fails: Query -> bool)

  predicate IsValidMapLayer(layer: string) {
    layer in ["physical", "l2", "l3", "services", "security"]
  }

  predicate IsValidMapFocusType(focusType: string) {
    focusType in ["device", "subnet", "vlan", "zone", "service"]
  }

  function ParseMapDepth(value: string): Result<int, ApiError> {
    var v := TrimSpace(value);
    if v == "" then Ok(1)
    else match Atoi(v)
      case None => Err(InvalidDepth)
      case Some(d) => if d < 0 then Err(InvalidDepth) else if d > 3 then Ok(3) else Ok(d)
  }

  function ParseLimit(value: string, defaultVal: int, max: int): Result<int, ApiError> {
    match ParseLimitParam(value, defaultVal, max)
    case None => Err(InvalidLimit)
    case Some(n) => Ok(n)
  }

  function Min(a: int, b: int): int { if a < b then a else b }

  function MapLimits(hint: int): Limits
    requires hint >= 1
  {
    Limits(Min(MAP_MAX_REGIONS, hint), Min(MAP_MAX_NODES, hint), Min(MAP_MAX_EDGES, hint))
  }

  function EmptyMapProjection(layer: string, focus: Option<Focus>, lim: Limits): Projection {
    Projection(layer, focus, [], [], [],
               Metric(0, lim.regions, false, None), Metric(0, lim.nodes, false, None), Metric(0, lim.edges, false, None))
  }

  function RegionLess(a: Region, b: Region): bool { Less(a.id, b.id) }
  function NodeLess(a: Node, b: Node): bool { Less(a.id, b.id) }
  function EdgeLess(a: Edge, b: Edge): bool { Less(a.id, b.id) }

  function SortMapProjection(p: Projection): Projection {
    p.(regions := Sort(RegionLess, p.regions), nodes := Sort(NodeLess, p.nodes), edges := Sort(EdgeLess, p.edges))
  }

  // What each branch returns, before the final sort

  function SubnetIds(ips: seq<string>, subnetOf: string -> Option<string>): seq<string> {
    SortDistinct(Less, Select(ips, subnetOf))
  }

  function PositiveVlan(v: int): Option<string> { if v > 0 then Some(Itoa(v)) else None }

  function VlanIds(pvids: seq<int>): seq<string> { Select(pvids, PositiveVlan) }

  /** A region's complete peer list: the meaning of the peer query without LIMIT. */
  function PeersOf(w: World, layer: string, focusId: string): string -> seq<string> {
    (region: string) =>
      if layer == "l3" then PeersInCIDR(w.tables, w.within, region, focusId)
      else match Atoi(region)
        case None => []
        case Some(vlan) => PeersInVLAN(w.tables, vlan, focusId)
  }

  function MapRegion(layer: string, id: string): Region {
    if layer == "l3" then Region(id, "subnet", id) else Region(id, "vlan", "VLAN " + id)
  }

  function DeviceNode(t: Tables, id: string, regions: seq<string>): Node {
    Node(id, "device", DisplayName(t, id), if regions == [] then None else Some(regions[0]), regions)
  }

  function PeerNode(t: Tables, shown: seq<string>, peersOf: string -> seq<string>, id: string): Node {
    DeviceNode(t, id, RegionsHolding(shown, peersOf, id))
  }

  function PeerEdge(focusId: string, peer: string): Edge {
    Edge("peer:" + focusId + ":" + peer, "peer", focusId, peer)
  }

  function Map<T, U>(f: T -> U, s: seq<T>): (r: seq<U>)
    ensures |r| == |s| && forall i :: 0 <= i < |s| ==> r[i] == f(s[i])
  {
    if s == [] then [] else [f(s[0])] + Map(f, s[1..])
  }

  /** The peers shown beside the focus: the first of the complete union that fit. */
  function IncludedPeers(shown: seq<string>, peersOf: string -> seq<string>, lim: Limits): seq<string> {
    Take(Union(shown, peersOf), lim.nodes - 1)
  }

  function PeerNodes(t: Tables, shown: seq<string>, peersOf: string -> seq<string>, included: seq<string>): seq<Node> {
    Map(p => PeerNode(t, shown, peersOf, p), included)
  }

  function RegionList(layer: string, shown: seq<string>): seq<Region> { Map(r => MapRegion(layer, r), shown) }

  function PeerEdges(layer: string, focusId: string, included: seq<string>, lim: Limits): seq<Edge> {
    if layer == "l3" then Map(p => PeerEdge(focusId, p), Take(included, lim.edges)) else []
  }

  /** L3 and L2 around a device, from the complete peer lists of the shown regions. */
  function DeviceFocus(w: World, layer: string, focus: Focus, all: seq<string>, lim: Limits): Projection {
    DeviceFocusOver(w.tables, layer, focus, all, PeersOf(w, layer, focus.id), lim)
  }

  function DeviceFocusOver(t: Tables, layer: string, focus: Focus, all: seq<string>, peersOf: string -> seq<string>,
                           lim: Limits): Projection {
    var shown := Take(all, lim.regions);
    var included := IncludedPeers(shown, peersOf, lim);
    var truncated := |Union(shown, peersOf)| > lim.nodes - 1;
    var nodes := [DeviceNode(t, focus.id, shown)] + PeerNodes(t, shown, peersOf, included);
    var edges := PeerEdges(layer, focus.id, included, lim);
    Projection(layer, Some(focus), RegionList(layer, shown), nodes, edges,
               Metric(|shown|, lim.regions, |all| > |shown|, Some(|all|)),
               Metric(|nodes|, lim.nodes, truncated, if truncated then None else Some(|nodes|)),
               if layer == "l3" then Metric(|edges|, lim.edges, |included| > lim.edges, Some(|included|))
               else Metric(0, lim.edges, false, None))
  }

  function MemberNode(t: Tables, region: string, id: string): Node {
    Node(id, "device", DisplayName(t, id), Some(region), [region])
  }

  function MemberNodes(t: Tables, region: string, members: seq<string>): seq<Node> {
    Map(m => MemberNode(t, region, m), members)
  }

  function RegionOnly(layer: string, focus: Focus, lim: Limits): Projection {
    EmptyMapProjection(layer, Some(focus), lim)
      .(regions := [MapRegion(layer, focus.id)], regionMetric := Metric(1, lim.regions, false, Some(1)))
  }

  /** A subnet or VLAN with the devices in it. */
  function RegionFocus(w: World, layer: string, focus: Focus, members: seq<string>, lim: Limits): Projection {
    var included := Take(members, lim.nodes);
    var truncated := |members| > lim.nodes;
    RegionOnly(layer, focus, lim)
      .(nodes := MemberNodes(w.tables, focus.id, included),
        nodeMetric := Metric(|included|, lim.nodes, truncated, if truncated then None else Some(|included|)))
  }

  function LinkEdge(focusId: string, l: LinkPeer): Edge { Edge("link:" + l.linkId, "link", focusId, l.peer) }

  function LinkEdges(focusId: string, links: seq<LinkPeer>): seq<Edge> { Map(l => LinkEdge(focusId, l), links) }

  function NeighbourNodes(t: Tables, links: seq<LinkPeer>): seq<Node> {
    Map((l: LinkPeer) => DeviceNode(t, l.peer, []), links)
  }

  function MaxLinkPeers(lim: Limits): int { Min(lim.edges, if lim.nodes < 1 then 0 else lim.nodes - 1) }

  /** A device with its physical neighbours. */
  function PhysicalFocus(w: World, focus: Focus, links: seq<LinkPeer>, lim: Limits): Projection {
    var included := Take(links, MaxLinkPeers(lim));
    var truncated := |links| > MaxLinkPeers(lim);
    var nodes := [DeviceNode(w.tables, focus.id, [])] + NeighbourNodes(w.tables, included);
    EmptyMapProjection("physical", Some(focus), lim)
      .(nodes := nodes, edges := LinkEdges(focus.id, included),
        nodeMetric := Metric(|nodes|, lim.nodes, truncated, if truncated then None else Some(|nodes|)),
        edgeMetric := Metric(|included|, lim.edges, truncated, if truncated then None else Some(|included|)))
  }

  function NonBlank(s: Option<string>): Option<string> {
    if s.Some? && TrimSpace(s.value) != "" then Some(TrimSpace(s.value)) else None
  }

  function FormatServiceLabel(protocol: Option<string>, port: Option<int>, name: Option<string>): string {
    var proto := NonBlank(protocol);
    var hasPort := port.Some? && port.value > 0;
    var first :=
      if proto.Some? && hasPort then ToLower(proto.value) + "/" + Itoa(port.value)
      else if hasPort then Itoa(port.value)
      else if proto.Some? then ToLower(proto.value)
      else "";
    var last := match NonBlank(name) case Some(n) => n case None => "";
    if first == "" then last else if last == "" then first else first + " " + last
  }

  function ServiceNode(host: string, s: ServiceRow): Node {
    var caption := FormatServiceLabel(s.protocol, s.port, s.name);
    Node(s.id, "service", if TrimSpace(caption) == "" then None else Some(caption), Some(host), [host])
  }

  function ServiceNodes(host: string, services: seq<ServiceRow>): seq<Node> { Map(s => ServiceNode(host, s), services) }

  /** A host device as the one region, with its services. */
  function ServicesFocus(focus: Focus, host: string, hostLabel: Option<string>, services: seq<ServiceRow>,
                         lim: Limits): Projection {
    var included := Take(services, lim.nodes);
    var truncated := |services| > lim.nodes;
    var caption := match NonBlank(hostLabel) case Some(l) => l case None => host;
    EmptyMapProjection("services", Some(focus), lim)
      .(regions := [Region(host, "device", caption)], regionMetric := Metric(1, lim.regions, false, Some(1)),
        nodes := ServiceNodes(host, included),
        nodeMetric := Metric(|included|, lim.nodes, truncated, if truncated then None else Some(|included|)))
  }

  function FocusAlone(w: World, layer: string, focus: Focus, lim: Limits): Projection {
    EmptyMapProjection(layer, Some(focus), lim)
      .(nodes := [DeviceNode(w.tables, focus.id, [])], nodeMetric := Metric(1, lim.nodes, false, None))
  }

  // The response

  function LookupDevice(w: World, query: Query, id: string): Result<Device, ApiError> {
    if w.fails(query) then Err(DbError)
    else match w.canonicalUuid(id)
      case None => Err(InvalidId)
      case Some(uuid) =>
        match FindDevice(w.tables.devices, uuid)
        case None => Err(NotFound)
        case Some(d) => Ok(d)
  }

  function LookupService(w: World, id: string): Result<ServiceRow, ApiError> {
    if w.fails(GetService) then Err(DbError)
    else match w.canonicalUuid(id)
      case None => Err(InvalidId)
      case Some(uuid) =>
        match FindService(w.tables.services, uuid)
        case None => Err(NotFound)
        case Some(s) => Ok(s)
  }

  ghost predicate SomePeerQueryFails(w: World, shown: seq<string>) {
    exists k :: 0 <= k < |shown| && w.fails(ListPeers(shown[k]))
  }

  ghost function RespondDeviceRegions(w: World, layer: string, focus: Focus, all: seq<string>, lim: Limits)
    : Result<Projection, ApiError>
  {
    if SomePeerQueryFails(w, Take(all, lim.regions)) then Err(DbError)
    else Ok(DeviceFocus(w, layer, focus, all, lim))
  }

  ghost function RespondDevice(w: World, layer: string, depth: int, d: Device, lim: Limits): Result<Projection, ApiError> {
    var focus := Focus("device", d.id);
    if layer == "l3" && depth > 0 then
      if w.fails(ListIPs) then Err(DbError)
      else RespondDeviceRegions(w, layer, focus, SubnetIds(DeviceIPs(w.tables, d.id), w.subnetOf), lim)
    else if layer == "l2" && depth > 0 then
      if w.fails(ListPVIDs) then Err(DbError)
      else RespondDeviceRegions(w, layer, focus, VlanIds(DevicePVIDs(w.tables, d.id)), lim)
    else if layer == "physical" && depth > 0 then
      if w.fails(ListLinkPeers) then Err(DbError)
      else Ok(PhysicalFocus(w, focus, LinkPeers(w.tables, d.id), lim))
    else if layer == "services" && depth > 0 then RespondServices(w, focus, d.id, d.displayName, lim)
    else Ok(FocusAlone(w, layer, focus, lim))
  }

  /** A host without a known caption is looked up once more before its services are listed. */
  function RespondServices(w: World, focus: Focus, host: string, hostLabel: Option<string>, lim: Limits)
    : Result<Projection, ApiError>
  {
    if TrimSpace(host) == "" then Ok(EmptyMapProjection("services", Some(focus), lim))
    else
      var caption :- HostLabel(w, host, hostLabel);
      if w.fails(ListServices) then Err(DbError)
      else Ok(ServicesFocus(focus, host, caption, ServicesOf(w.tables, host), lim))
  }

  function HostLabel(w: World, host: string, known: Option<string>): Result<Option<string>, ApiError> {
    if known.Some? then Ok(known)
    else if w.fails(GetHostDevice) then Err(DbError)
    else match FindDevice(w.tables.devices, host)
      case None => Err(NotFound)
      case Some(d) => Ok(d.displayName)
  }

  function RespondRegion(w: World, layer: string, depth: int, focus: Focus, members: seq<string>, lim: Limits)
    : Result<Projection, ApiError>
  {
    if depth <= 0 then Ok(RegionOnly(layer, focus, lim))
    else if w.fails(ListMembers) then Err(DbError)
    else Ok(RegionFocus(w, layer, focus, members, lim))
  }

  ghost function RespondFocus(w: World, layer: string, depth: int, focusType: string, idRaw: string, lim: Limits)
    : Result<Projection, ApiError>
  {
    if focusType == "device" then
      var d :- LookupDevice(w, GetDevice, idRaw);
      RespondDevice(w, layer, depth, d, lim)
    else if focusType == "subnet" then
      match w.canonicalCidr(idRaw)
      case None => Err(InvalidId)
      case Some(cidr) =>
        var focus := Focus(focusType, cidr);
        if layer == "l3" then RespondRegion(w, layer, depth, focus, DevicesInCIDR(w.tables, w.within, cidr), lim)
        else Ok(EmptyMapProjection(layer, Some(focus), lim))
    else if focusType == "vlan" then
      match Atoi(idRaw)
      case None => Err(InvalidId)
      case Some(v) =>
        if v <= 0 || v > 4094 then Err(InvalidId)
        else
          var focus := Focus(focusType, Itoa(v));
          if layer == "l2" then RespondRegion(w, layer, depth, focus, DevicesInVLAN(w.tables, v), lim)
          else Ok(EmptyMapProjection(layer, Some(focus), lim))
    else if focusType == "service" && layer == "services" then
      var s :- LookupService(w, idRaw);
      var focus := Focus(focusType, s.id);
      if depth > 0 then RespondServices(w, focus, s.deviceId, None, lim)
      else Ok(EmptyMapProjection(layer, Some(focus), lim))
    else Ok(EmptyMapProjection(layer, Some(Focus(focusType, idRaw)), lim))
  }

  /** The response to every request, with the final sort. */
  ghost function Respond(w: World, req: Request): Result<Projection, ApiError> {
    var layer := ToLower(TrimSpace(req.layer));
    if !IsValidMapLayer(layer) then Err(InvalidLayer)
    else
      var depth :- ParseMapDepth(req.depth);
      var hint :- ParseLimit(req.limit, MAP_MAX_NODES, MAP_MAX_LIMIT);
      var typeRaw, idRaw := TrimSpace(req.focusType), TrimSpace(req.focusId);
      if typeRaw == "" && idRaw == "" then Ok(SortMapProjection(EmptyMapProjection(layer, None, MapLimits(hint))))
      else if typeRaw == "" || idRaw == "" then Err(FocusPairIncomplete)
      else if !IsValidMapFocusType(ToLower(typeRaw)) then Err(InvalidFocusType)
      else
        var p :- RespondFocus(w, layer, depth, ToLower(typeRaw), idRaw, MapLimits(hint));
        Ok(SortMapProjection(p))
  }

  // Orders of what the branches list

  lemma PeersOfContract(w: World, layer: string, focusId: string, region: string)
    ensures Increasing(Less, PeersOf(w, layer, focusId)(region))
    ensures focusId !in PeersOf(w, layer, focusId)(region)
  {
    if layer == "l3" {
      PeersInCIDRMembers(w.tables, w.within, region, focusId);
    } else if Atoi(region).Some? {
      PeersInVLANMembers(w.tables, Atoi(region).value, focusId);
    }
  }

  lemma SubnetIdsIncreasing(ips: seq<string>, subnetOf: string -> Option<string>)
    ensures Increasing(Less, SubnetIds(ips, subnetOf))
  {
    LessStrictTotal();
    SortDistinctIncreasing(Less, Select(ips, subnetOf));
  }

  lemma IncreasingIds(s: seq<string>)
    requires Increasing(Less, s)
    ensures Distinct(s)
  {
    LessStrictTotal();
    IncreasingDistinct(Less, s);
  }
}
