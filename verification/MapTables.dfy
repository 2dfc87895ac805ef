/** The tables behind the network map, and what its SELECT statements mean over them. */
module MapTables {
  import opened Orders
  import opened Text

  datatype Device = Device(id: string, displayName: Option<string>)
  datatype Interface = Interface(id: string, deviceId: string)
  datatype IpRow = IpRow(deviceId: Option<string>, interfaceId: Option<string>, ip: string)
  datatype VlanRow = VlanRow(interfaceId: string, vlanId: int, role: string)
  datatype LinkRow = LinkRow(id: string, a: string, b: string)
  datatype ServiceRow = ServiceRow(id: string, deviceId: string, protocol: Option<string>,
                                   port: Option<int>, name: Option<string>, observedAt: int)

  datatype Tables = Tables(devices: seq<Device>, interfaces: seq<Interface>, ips: seq<IpRow>,
                           vlans: seq<VlanRow>, links: seq<LinkRow>, services: seq<ServiceRow>)

  /** The primary keys the map depends on. */
  ghost predicate Keyed(t: Tables) {
    && (forall i, j :: 0 <= i < j < |t.links| ==> t.links[i].id != t.links[j].id)
    && (forall i, j :: 0 <= i < j < |t.services| ==> t.services[i].id != t.services[j].id)
  }

  /** interface_vlans.vlan_id is a 32-bit column. */
  ghost predicate Vlans32(t: Tables) {
    forall k :: 0 <= k < |t.vlans| ==> -0x8000_0000 <= t.vlans[k].vlanId < 0x8000_0000
  }

  /** The rows `f` keeps, projected: a WHERE with a select list. */
  function Select<T, U>(rows: seq<T>, f: T -> Option<U>): seq<U> {
    if rows == [] then []
    else
      var rest := Select(rows[1..], f);
      match f(rows[0])
      case None => rest
      case Some(u) => [u] + rest
  }

  lemma {:induction false} SelectMembers<T, U>(rows: seq<T>, f: T -> Option<U>)
    ensures forall u :: u in Select(rows, f) <==> exists k :: 0 <= k < |rows| && f(rows[k]) == Some(u)
  {
    if rows != [] {
      var rest := rows[1..];
      SelectMembers(rest, f);
      forall u ensures u in Select(rows, f) <==> exists k :: 0 <= k < |rows| && f(rows[k]) == Some(u) {
        if u in Select(rest, f) {
          var k :| 0 <= k < |rest| && f(rest[k]) == Some(u);
          assert f(rows[k + 1]) == Some(u);
        }
        if k :| 0 <= k < |rows| && f(rows[k]) == Some(u) {
          if k > 0 { assert f(rest[k - 1]) == Some(u); }
        }
      }
    }
  }

  /** Row `id` of `devices`, the meaning of GetDevice and of JOIN devices. */
  function FindDevice(devices: seq<Device>, id: string): Option<Device> {
    if devices == [] then None
    else if devices[0].id == id then Some(devices[0])
    else FindDevice(devices[1..], id)
  }

  function InterfaceOwner(interfaces: seq<Interface>, id: string): Option<string> {
    if interfaces == [] then None
    else if interfaces[0].id == id then Some(interfaces[0].deviceId)
    else InterfaceOwner(interfaces[1..], id)
  }

  function DisplayName(t: Tables, id: string): Option<string> {
    match FindDevice(t.devices, id)
    case None => None
    case Some(d) => d.displayName
  }

  /** COALESCE(ia.device_id, i.device_id) after the LEFT JOIN on interfaces. */
  function IpOwner(t: Tables, row: IpRow): Option<string> {
    if row.deviceId.Some? then row.deviceId
    else if row.interfaceId.Some? then InterfaceOwner(t.interfaces, row.interfaceId.value)
    else None
  }

  function ExistingDevice(t: Tables, id: Option<string>): Option<string> {
    if id.Some? && FindDevice(t.devices, id.value).Some? then id else None
  }

  function Excluding(id: Option<string>, exclude: string): Option<string> {
    if id == Some(exclude) then None else id
  }

  /** ListDevicesInCIDR before its LIMIT; `within(ip, cidr)` is the meaning of `ip << cidr`. */
  function DevicesInCIDR(t: Tables, within: (string, string) -> bool, cidr: string): seq<string> {
    SortDistinct(Less, Select(t.ips, (row: IpRow) =>
      if within(row.ip, cidr) then ExistingDevice(t, IpOwner(t, row)) else None))
  }

  /** ListDevicePeersInCIDR before its LIMIT. */
  function PeersInCIDR(t: Tables, within: (string, string) -> bool, cidr: string, exclude: string): seq<string> {
    SortDistinct(Less, Select(t.ips, (row: IpRow) =>
      if within(row.ip, cidr) then Excluding(ExistingDevice(t, IpOwner(t, row)), exclude) else None))
  }

  function PvidOwner(t: Tables, row: VlanRow, vlan: int): Option<string> {
    if row.role == "pvid" && row.vlanId == vlan then ExistingDevice(t, InterfaceOwner(t.interfaces, row.interfaceId))
    else None
  }

  /** ListDevicesInVLAN before its LIMIT. */
  function DevicesInVLAN(t: Tables, vlan: int): seq<string> {
    SortDistinct(Less, Select(t.vlans, (row: VlanRow) => PvidOwner(t, row, vlan)))
  }

  /** ListDevicePeersInVLAN before its LIMIT. */
  function PeersInVLAN(t: Tables, vlan: int, exclude: string): seq<string> {
    SortDistinct(Less, Select(t.vlans, (row: VlanRow) => Excluding(PvidOwner(t, row, vlan), exclude)))
  }

  /** ListDeviceIPs: addresses bound to the device itself or to one of its interfaces. */
  function DeviceIPs(t: Tables, device: string): seq<string> {
    Select(t.ips, (row: IpRow) =>
      if row.deviceId == Some(device)
         || (row.interfaceId.Some? && InterfaceOwner(t.interfaces, row.interfaceId.value) == Some(device))
      then Some(row.ip) else None)
  }

  function IntLess(a: int, b: int): bool { a < b }

  /** ListDevicePVIDs. */
  function DevicePVIDs(t: Tables, device: string): seq<int> {
    SortDistinct(IntLess, Select(t.vlans, (row: VlanRow) =>
      if row.role == "pvid" && InterfaceOwner(t.interfaces, row.interfaceId) == Some(device)
      then Some(row.vlanId) else None))
  }

  datatype LinkPeer = LinkPeer(linkId: string, peer: string)

  function PeerOf(t: Tables, device: string, l: LinkRow): Option<LinkPeer> {
    if l.a != device && l.b != device then None
    else
      var peer := if l.a == device then l.b else l.a;
      if FindDevice(t.devices, peer).Some? then Some(LinkPeer(l.id, peer)) else None
  }

  function LinkPeerLess(x: LinkPeer, y: LinkPeer): bool {
    Less(x.peer, y.peer) || (x.peer == y.peer && Less(x.linkId, y.linkId))
  }

  /** DISTINCT ON (peer): drops a row whose peer is the one before it. */
  function FirstPerPeer(s: seq<LinkPeer>, prev: Option<string>): seq<LinkPeer> {
    if s == [] then []
    else if Some(s[0].peer) == prev then FirstPerPeer(s[1..], prev)
    else [s[0]] + FirstPerPeer(s[1..], Some(s[0].peer))
  }

  function LinksWithPeers(t: Tables, device: string): seq<LinkPeer> {
    Select(t.links, (l: LinkRow) => PeerOf(t, device, l))
  }

  /** ListDeviceLinkPeers before its LIMIT. */
  function LinkPeers(t: Tables, device: string): seq<LinkPeer> {
    FirstPerPeer(SortDistinct(LinkPeerLess, LinksWithPeers(t, device)), None)
  }

  predicate NullsLast<T(==)>(lt: (T, T) -> bool, a: Option<T>, b: Option<T>) {
    a.Some? && (b.None? || lt(a.value, b.value))
  }

  /** observed_at DESC, protocol, port, name ASC NULLS LAST, id ASC. */
  function ServiceLess(a: ServiceRow, b: ServiceRow): bool {
    if a.observedAt != b.observedAt then a.observedAt > b.observedAt
    else if a.protocol != b.protocol then NullsLast(Less, a.protocol, b.protocol)
    else LessFromPort(a, b)
  }

  function LessFromPort(a: ServiceRow, b: ServiceRow): bool {
    if a.port != b.port then NullsLast(IntLess, a.port, b.port) else LessFromName(a, b)
  }

  function LessFromName(a: ServiceRow, b: ServiceRow): bool {
    if a.name != b.name then NullsLast(Less, a.name, b.name) else Less(a.id, b.id)
  }

  function HostedBy(services: seq<ServiceRow>, device: string): seq<ServiceRow> {
    if services == [] then []
    else if services[0].deviceId == device then [services[0]] + HostedBy(services[1..], device)
    else HostedBy(services[1..], device)
  }

  /** ListServicesForDevice before its LIMIT. */
  function ServicesOf(t: Tables, device: string): seq<ServiceRow> {
    Sort(ServiceLess, HostedBy(t.services, device))
  }

  function FindService(services: seq<ServiceRow>, id: string): Option<ServiceRow> {
    if services == [] then None
    else if services[0].id == id then Some(services[0])
    else FindService(services[1..], id)
  }

  /** A device is a member of a CIDR exactly when it owns an address strictly inside, and it is listed once. */
  lemma DevicesInCIDRMembers(t: Tables, within: (string, string) -> bool, cidr: string)
    ensures Increasing(Less, DevicesInCIDR(t, within, cidr))
    ensures forall d :: d in DevicesInCIDR(t, within, cidr) <==>
      exists k :: 0 <= k < |t.ips| && within(t.ips[k].ip, cidr) && IpOwner(t, t.ips[k]) == Some(d)
                  && FindDevice(t.devices, d).Some?
  {
    LessStrictTotal();
    var f := (row: IpRow) => if within(row.ip, cidr) then ExistingDevice(t, IpOwner(t, row)) else None;
    SelectMembers(t.ips, f);
    SortDistinctIncreasing(Less, Select(t.ips, f));
    assert DevicesInCIDR(t, within, cidr) == SortDistinct(Less, Select(t.ips, f));
    forall d ensures d in Select(t.ips, f) <==>
      exists k :: 0 <= k < |t.ips| && within(t.ips[k].ip, cidr) && IpOwner(t, t.ips[k]) == Some(d)
                  && FindDevice(t.devices, d).Some?
    {
      if k :| 0 <= k < |t.ips| && within(t.ips[k].ip, cidr) && IpOwner(t, t.ips[k]) == Some(d)
              && FindDevice(t.devices, d).Some? {
        assert f(t.ips[k]) == Some(d);
      }
    }
  }

  /** The peer query is the member query without the focused device. */
  lemma PeersInCIDRMembers(t: Tables, within: (string, string) -> bool, cidr: string, focus: string)
    ensures Increasing(Less, PeersInCIDR(t, within, cidr, focus))
    ensures forall d :: d in PeersInCIDR(t, within, cidr, focus) <==>
      d in DevicesInCIDR(t, within, cidr) && d != focus
  {
    LessStrictTotal();
    DevicesInCIDRMembers(t, within, cidr);
    var f := (row: IpRow) =>
      if within(row.ip, cidr) then Excluding(ExistingDevice(t, IpOwner(t, row)), focus) else None;
    SelectMembers(t.ips, f);
    SortDistinctIncreasing(Less, Select(t.ips, f));
    assert PeersInCIDR(t, within, cidr, focus) == SortDistinct(Less, Select(t.ips, f));
    forall d ensures d in Select(t.ips, f) <==> d in DevicesInCIDR(t, within, cidr) && d != focus {
      if d in DevicesInCIDR(t, within, cidr) && d != focus {
        var k :| 0 <= k < |t.ips| && within(t.ips[k].ip, cidr) && IpOwner(t, t.ips[k]) == Some(d)
                 && FindDevice(t.devices, d).Some?;
        assert f(t.ips[k]) == Some(d);
      }
    }
  }

  lemma DevicesInVLANMembers(t: Tables, vlan: int)
    ensures Increasing(Less, DevicesInVLAN(t, vlan))
    ensures forall d :: d in DevicesInVLAN(t, vlan) <==>
      exists k :: 0 <= k < |t.vlans| && PvidOwner(t, t.vlans[k], vlan) == Some(d)
  {
    LessStrictTotal();
    var f := (row: VlanRow) => PvidOwner(t, row, vlan);
    SelectMembers(t.vlans, f);
    SortDistinctIncreasing(Less, Select(t.vlans, f));
    assert DevicesInVLAN(t, vlan) == SortDistinct(Less, Select(t.vlans, f));
    forall d ensures d in Select(t.vlans, f) <==>
      exists k :: 0 <= k < |t.vlans| && PvidOwner(t, t.vlans[k], vlan) == Some(d)
    {
      if k :| 0 <= k < |t.vlans| && PvidOwner(t, t.vlans[k], vlan) == Some(d) {
        assert f(t.vlans[k]) == Some(d);
      }
    }
  }

  lemma PeersInVLANMembers(t: Tables, vlan: int, focus: string)
    ensures Increasing(Less, PeersInVLAN(t, vlan, focus))
    ensures forall d :: d in PeersInVLAN(t, vlan, focus) <==> d in DevicesInVLAN(t, vlan) && d != focus
  {
    LessStrictTotal();
    DevicesInVLANMembers(t, vlan);
    var f := (row: VlanRow) => Excluding(PvidOwner(t, row, vlan), focus);
    SelectMembers(t.vlans, f);
    SortDistinctIncreasing(Less, Select(t.vlans, f));
    assert PeersInVLAN(t, vlan, focus) == SortDistinct(Less, Select(t.vlans, f));
    forall d ensures d in Select(t.vlans, f) <==> d in DevicesInVLAN(t, vlan) && d != focus {
      if d in DevicesInVLAN(t, vlan) && d != focus {
        var k :| 0 <= k < |t.vlans| && PvidOwner(t, t.vlans[k], vlan) == Some(d);
        assert f(t.vlans[k]) == Some(d);
      }
    }
  }

  lemma IntLessStrictTotal()
    ensures StrictTotal(IntLess)
  {
  }

  /** A device's PVIDs are those of its interfaces' rows with that role, once each and ascending. */
  lemma DevicePVIDsMembers(t: Tables, device: string)
    ensures Increasing(IntLess, DevicePVIDs(t, device))
    ensures forall v :: v in DevicePVIDs(t, device) <==> exists k :: 0 <= k < |t.vlans| && PvidOf(t, t.vlans[k], device, v)
  {
    IntLessStrictTotal();
    var f := (row: VlanRow) =>
      if row.role == "pvid" && InterfaceOwner(t.interfaces, row.interfaceId) == Some(device)
      then Some(row.vlanId) else None;
    SelectMembers(t.vlans, f);
    SortDistinctIncreasing(IntLess, Select(t.vlans, f));
    assert DevicePVIDs(t, device) == SortDistinct(IntLess, Select(t.vlans, f));
    forall v ensures v in Select(t.vlans, f) <==> exists k :: 0 <= k < |t.vlans| && PvidOf(t, t.vlans[k], device, v) {
      if k :| 0 <= k < |t.vlans| && PvidOf(t, t.vlans[k], device, v) {
        assert f(t.vlans[k]) == Some(v);
      }
    }
  }

  predicate PvidOf(t: Tables, row: VlanRow, device: string, vlan: int) {
    row.role == "pvid" && row.vlanId == vlan && InterfaceOwner(t.interfaces, row.interfaceId) == Some(device)
  }

  lemma LinkPeerLessStrictTotal()
    ensures StrictTotal(LinkPeerLess)
  {
    LessStrictTotal();
  }

  ghost predicate PeersIncrease(s: seq<LinkPeer>) {
    forall i, j :: 0 <= i < j < |s| ==> Less(s[i].peer, s[j].peer)
  }

  ghost predicate HasPeer(s: seq<LinkPeer>, peer: string) {
    exists k :: 0 <= k < |s| && s[k].peer == peer
  }

  /** `x` is the least row of its peer in `s`. */
  ghost predicate LeastOfPeer(x: LinkPeer, s: seq<LinkPeer>) {
    && x in s
    && forall k :: 0 <= k < |s| && s[k].peer == x.peer ==> s[k] == x || Less(x.linkId, s[k].linkId)
  }

  /** No entry of `s` has a peer below `prev`. */
  ghost predicate FromPeer(s: seq<LinkPeer>, prev: Option<string>) {
    prev.Some? ==> forall k :: 0 <= k < |s| ==> s[k].peer == prev.value || Less(prev.value, s[k].peer)
  }

  lemma TailFromPeer(s: seq<LinkPeer>)
    requires Increasing(LinkPeerLess, s) && s != []
    ensures FromPeer(s[1..], Some(s[0].peer))
    ensures forall k :: 0 < k < |s| && s[k].peer == s[0].peer ==> Less(s[0].linkId, s[k].linkId)
  {
    LessIrreflexive(s[0].peer);
    forall k | 0 < k < |s| ensures LinkPeerLess(s[0], s[k]) { }
  }

  /** DISTINCT ON keeps each peer once, in order. */
  lemma {:induction false} FirstPerPeerIncreases(s: seq<LinkPeer>, prev: Option<string>)
    requires Increasing(LinkPeerLess, s) && FromPeer(s, prev)
    ensures PeersIncrease(FirstPerPeer(s, prev))
    ensures prev.Some? ==> forall k :: 0 <= k < |FirstPerPeer(s, prev)| ==> Less(prev.value, FirstPerPeer(s, prev)[k].peer)
  {
    if s != [] {
      TailFromPeer(s);
      var rest := FirstPerPeer(s[1..], Some(s[0].peer));
      FirstPerPeerIncreases(s[1..], Some(s[0].peer));
      if prev.Some? && s[0].peer != prev.value {
        forall k | 0 <= k < |rest| ensures Less(prev.value, rest[k].peer) {
          LessTransitive(prev.value, s[0].peer, rest[k].peer);
        }
      }
    }
  }

  /** DISTINCT ON loses no peer. */
  lemma {:induction false} FirstPerPeerCovers(s: seq<LinkPeer>, prev: Option<string>, x: LinkPeer)
    requires x in s
    ensures Some(x.peer) == prev || HasPeer(FirstPerPeer(s, prev), x.peer)
  {
    var r := FirstPerPeer(s, prev);
    if x == s[0] {
      if Some(x.peer) != prev { assert r[0].peer == x.peer; }
    } else {
      var prev' := Some(s[0].peer);
      FirstPerPeerCovers(s[1..], prev', x);
      var rest := FirstPerPeer(s[1..], prev');
      if Some(s[0].peer) != prev {
        assert r == [s[0]] + rest;
        if x.peer == s[0].peer {
          assert r[0].peer == x.peer;
        } else {
          var m :| 0 <= m < |rest| && rest[m].peer == x.peer;
          assert r[m + 1].peer == x.peer;
        }
      }
    }
  }

  /** DISTINCT ON keeps the least row of each peer. */
  lemma {:induction false} FirstPerPeerLeast(s: seq<LinkPeer>, prev: Option<string>, x: LinkPeer)
    requires Increasing(LinkPeerLess, s) && FromPeer(s, prev) && x in FirstPerPeer(s, prev)
    ensures LeastOfPeer(x, s)
  {
    TailFromPeer(s);
    var rest := FirstPerPeer(s[1..], Some(s[0].peer));
    if x in rest {
      FirstPerPeerLeast(s[1..], Some(s[0].peer), x);
      FirstPerPeerIncreases(s[1..], Some(s[0].peer));
      LeastOfTail(s, x);
    }
  }

  /** The least row of a peer above the head's is still least once the head is added. */
  lemma LeastOfTail(s: seq<LinkPeer>, x: LinkPeer)
    requires s != [] && LeastOfPeer(x, s[1..]) && Less(s[0].peer, x.peer)
    ensures LeastOfPeer(x, s)
  {
    LessIrreflexive(x.peer);
    forall k | 0 <= k < |s| && s[k].peer == x.peer ensures s[k] == x || Less(x.linkId, s[k].linkId) {
      assert k > 0 && s[1..][k - 1] == s[k];
    }
  }

  lemma LinksWithPeersMembers(t: Tables, device: string)
    ensures forall x :: x in LinksWithPeers(t, device) <==>
      exists k :: 0 <= k < |t.links| && PeerOf(t, device, t.links[k]) == Some(x)
  {
    var f := (l: LinkRow) => PeerOf(t, device, l);
    SelectMembers(t.links, f);
    forall x ensures x in LinksWithPeers(t, device) <==>
      exists k :: 0 <= k < |t.links| && PeerOf(t, device, t.links[k]) == Some(x)
    {
      if k :| 0 <= k < |t.links| && PeerOf(t, device, t.links[k]) == Some(x) {
        assert f(t.links[k]) == Some(x);
      }
    }
  }

  /** Each neighbour of a device is returned once, by ascending id, through its least link. */
  lemma LinkPeersContract(t: Tables, device: string)
    ensures PeersIncrease(LinkPeers(t, device))
    ensures forall x :: x in LinkPeers(t, device) ==> LeastOfPeer(x, LinksWithPeers(t, device))
    ensures forall x :: x in LinksWithPeers(t, device) ==> HasPeer(LinkPeers(t, device), x.peer)
  {
    var ordered := OrderedLinks(t, device);
    FirstPerPeerIncreases(ordered, None);
    forall x | x in FirstPerPeer(ordered, None) ensures LeastOfPeer(x, LinksWithPeers(t, device)) {
      FirstPerPeerLeast(ordered, None, x);
      forall k | 0 <= k < |LinksWithPeers(t, device)| && LinksWithPeers(t, device)[k].peer == x.peer
        ensures LinksWithPeers(t, device)[k] == x || Less(x.linkId, LinksWithPeers(t, device)[k].linkId)
      {
        assert LinksWithPeers(t, device)[k] in ordered;
      }
    }
    forall x | x in LinksWithPeers(t, device) ensures HasPeer(LinkPeers(t, device), x.peer) {
      FirstPerPeerCovers(ordered, None, x);
    }
  }

  lemma OrderedLinks(t: Tables, device: string) returns (ordered: seq<LinkPeer>)
    ensures Increasing(LinkPeerLess, ordered)
    ensures forall x :: x in ordered <==> x in LinksWithPeers(t, device)
    ensures LinkPeers(t, device) == FirstPerPeer(ordered, None)
  {
    LinkPeerLessStrictTotal();
    ordered := SortDistinct(LinkPeerLess, LinksWithPeers(t, device));
    SortDistinctIncreasing(LinkPeerLess, LinksWithPeers(t, device));
  }

  /** Two neighbours are never reached through the same link. */
  lemma LinkPeersDistinctLinks(t: Tables, device: string)
    requires Keyed(t)
    ensures forall i, j :: 0 <= i < j < |LinkPeers(t, device)| ==>
      LinkPeers(t, device)[i].linkId != LinkPeers(t, device)[j].linkId
  {
    LinkPeersContract(t, device);
    LinksWithPeersMembers(t, device);
    var s := LinkPeers(t, device);
    forall i, j | 0 <= i < j < |s| ensures s[i].linkId != s[j].linkId {
      assert s[i] in s && s[j] in s;
      var k :| 0 <= k < |t.links| && PeerOf(t, device, t.links[k]) == Some(s[i]);
      var m :| 0 <= m < |t.links| && PeerOf(t, device, t.links[m]) == Some(s[j]);
      assert Less(s[i].peer, s[j].peer);
      LessIrreflexive(s[i].peer);
      assert k != m;
    }
  }

  lemma {:induction false} SelectDistinct(rows: seq<ServiceRow>, device: string)
    requires forall i, j :: 0 <= i < j < |rows| ==> rows[i].id != rows[j].id
    ensures forall i, j :: 0 <= i < j < |HostedBy(rows, device)| ==>
      HostedBy(rows, device)[i].id != HostedBy(rows, device)[j].id
  {
    HostedByMembers(rows, device);
    if rows != [] {
      HostedByMembers(rows[1..], device);
      SelectDistinct(rows[1..], device);
      var rest := HostedBy(rows[1..], device);
      forall j | 0 <= j < |rest| ensures rest[j].id != rows[0].id {
        assert rest[j] in rest;
        var k :| 0 <= k < |rows[1..]| && rows[1..][k] == rest[j];
        assert rows[k + 1] == rest[j];
      }
    }
  }

  lemma MultisetDistinct(s: seq<ServiceRow>, r: seq<ServiceRow>)
    requires multiset(s) == multiset(r)
    requires forall i, j :: 0 <= i < j < |s| ==> s[i].id != s[j].id
    ensures forall i, j :: 0 <= i < j < |r| ==> r[i].id != r[j].id
  {
    forall i, j | 0 <= i < j < |r| ensures r[i].id != r[j].id {
      if r[i].id == r[j].id {
        assert r[i] in multiset(r) && r[j] in multiset(r);
        assert r[i] in s && r[j] in s;
        var a :| 0 <= a < |s| && s[a] == r[i];
        var b :| 0 <= b < |s| && s[b] == r[j];
        assert a == b;
        assert r[i] == r[j];
        RepeatedCount(r, i, j);
        DistinctCount(s, a);
      }
    }
  }

  lemma RepeatedCount<T>(r: seq<T>, i: int, j: int)
    requires 0 <= i < j < |r| && r[i] == r[j]
    ensures multiset(r)[r[i]] >= 2
  {
    assert r == r[..j] + [r[j]] + r[j + 1..];
    assert r[i] == r[..j][i] && r[i] in r[..j];
    assert multiset(r) == multiset(r[..j]) + multiset{r[j]} + multiset(r[j + 1..]);
  }

  lemma DistinctCount(s: seq<ServiceRow>, a: int)
    requires 0 <= a < |s| && forall i, j :: 0 <= i < j < |s| ==> s[i].id != s[j].id
    ensures multiset(s)[s[a]] == 1
  {
    assert s == s[..a] + [s[a]] + s[a + 1..];
    assert multiset(s) == multiset(s[..a]) + multiset{s[a]} + multiset(s[a + 1..]);
    assert s[a] !in s[..a];
    assert s[a] !in s[a + 1..];
  }

  lemma {:induction false} HostedByMembers(rows: seq<ServiceRow>, device: string)
    ensures forall s :: s in HostedBy(rows, device) <==> s in rows && s.deviceId == device
  {
    if rows != [] {
      HostedByMembers(rows[1..], device);
      assert rows == [rows[0]] + rows[1..];
    }
  }

  lemma LessFromNameTransitive(a: ServiceRow, b: ServiceRow, c: ServiceRow)
    requires LessFromName(a, b) && LessFromName(b, c)
    ensures LessFromName(a, c)
  {
    if a.name.Some? && b.name.Some? && c.name.Some? {
      if a.name != b.name && b.name != c.name {
        LessTransitive(a.name.value, b.name.value, c.name.value);
        LessIrreflexive(a.name.value);
      }
    }
    if a.name == b.name == c.name { LessTransitive(a.id, b.id, c.id); }
  }

  lemma LessFromPortTransitive(a: ServiceRow, b: ServiceRow, c: ServiceRow)
    requires LessFromPort(a, b) && LessFromPort(b, c)
    ensures LessFromPort(a, c)
  {
    if a.port == b.port == c.port { LessFromNameTransitive(a, b, c); }
  }

  lemma ServiceLessTransitive(a: ServiceRow, b: ServiceRow, c: ServiceRow)
    requires ServiceLess(a, b) && ServiceLess(b, c)
    ensures ServiceLess(a, c)
  {
    if a.observedAt == b.observedAt == c.observedAt {
      if a.protocol.Some? && b.protocol.Some? && c.protocol.Some? && a.protocol != b.protocol && b.protocol != c.protocol {
        LessTransitive(a.protocol.value, b.protocol.value, c.protocol.value);
        LessIrreflexive(a.protocol.value);
      }
      if a.protocol == b.protocol == c.protocol { LessFromPortTransitive(a, b, c); }
    }
  }

  lemma ServiceLessConnected(a: ServiceRow, b: ServiceRow)
    ensures a.id != b.id ==> ServiceLess(a, b) || ServiceLess(b, a)
    ensures !ServiceLess(a, a)
  {
    LessConnected(a.id, b.id);
    LessIrreflexive(a.id);
    if a.protocol.Some? && b.protocol.Some? { LessConnected(a.protocol.value, b.protocol.value); }
    if a.name.Some? && b.name.Some? { LessConnected(a.name.value, b.name.value); }
  }

  lemma ServiceLessStrict()
    ensures Strict(ServiceLess)
  {
    forall a ensures !ServiceLess(a, a) { ServiceLessConnected(a, a); }
    forall a, b, c | ServiceLess(a, b) && ServiceLess(b, c) ensures ServiceLess(a, c) { ServiceLessTransitive(a, b, c); }
  }

  /** The services of a device are exactly its rows, once each, in the stated order. */
  lemma ServicesOfContract(t: Tables, device: string)
    requires Keyed(t)
    ensures Increasing(ServiceLess, ServicesOf(t, device))
    ensures forall s :: s in ServicesOf(t, device) <==> s in t.services && s.deviceId == device
    ensures forall i, j :: 0 <= i < j < |ServicesOf(t, device)| ==>
      ServicesOf(t, device)[i].id != ServicesOf(t, device)[j].id
  {
    var hosted := HostedBy(t.services, device);
    SelectDistinct(t.services, device);
    HostedByMembers(t.services, device);
    SortElements(ServiceLess, hosted);
    MultisetDistinct(hosted, ServicesOf(t, device));
    ServiceLessStrict();
    forall i, j | 0 <= i < j < |hosted| ensures ServiceLess(hosted[i], hosted[j]) || ServiceLess(hosted[j], hosted[i]) {
      ServiceLessConnected(hosted[i], hosted[j]);
    }
    SortIncreasing(ServiceLess, hosted);
  }
}
