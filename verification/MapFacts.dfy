/** Who owns which address and which VLAN port, said of the stored rows; and what the map's queries mean in these terms. */
module MapFacts {
  import opened Orders
  import opened Text
  import opened MapTables
  import opened LimitPushdown
  import opened MapProjection

  /** Row `k` is the device `id`: the first with that key. */
  ghost predicate DeviceAt(t: Tables, k: int, id: string) {
    0 <= k < |t.devices| && t.devices[k].id == id && forall j :: 0 <= j < k ==> t.devices[j].id != id
  }

  ghost predicate IsDevice(t: Tables, id: string) { exists k :: DeviceAt(t, k, id) }

  /** Interface `i` belongs to device `id`. */
  ghost predicate InterfaceOf(t: Tables, i: string, id: string) {
    exists k :: 0 <= k < |t.interfaces| && t.interfaces[k].id == i && t.interfaces[k].deviceId == id
      && forall j :: 0 <= j < k ==> t.interfaces[j].id != i
  }

  /** The address row is bound to the device itself, or to one of its interfaces. */
  ghost predicate BoundTo(t: Tables, row: IpRow, id: string) {
    row.deviceId == Some(id) || (row.interfaceId.Some? && InterfaceOf(t, row.interfaceId.value, id))
  }

  /** The address row belongs to the device: a device on the row counts before one behind an interface. */
  ghost predicate BelongsTo(t: Tables, row: IpRow, id: string) {
    if row.deviceId.Some? then row.deviceId.value == id
    else row.interfaceId.Some? && InterfaceOf(t, row.interfaceId.value, id)
  }

  /** An existing device that owns an address inside the range. */
  ghost predicate OwnsInside(w: World, cidr: string, id: string) {
    && IsDevice(w.tables, id)
    && exists k :: 0 <= k < |w.tables.ips| && w.within(w.tables.ips[k].ip, cidr) && BelongsTo(w.tables, w.tables.ips[k], id)
  }

  /** A port of the device has this VLAN as its PVID. */
  ghost predicate HasPort(t: Tables, vlan: int, id: string) {
    exists k :: 0 <= k < |t.vlans| && t.vlans[k].role == "pvid" && t.vlans[k].vlanId == vlan
      && InterfaceOf(t, t.vlans[k].interfaceId, id)
  }

  ghost predicate OnVlan(t: Tables, vlan: int, id: string) { IsDevice(t, id) && HasPort(t, vlan, id) }

  // Lookups

  lemma {:induction false} FirstDevice(devices: seq<Device>, id: string)
    ensures FindDevice(devices, id).None? ==> forall k :: 0 <= k < |devices| ==> devices[k].id != id
    ensures FindDevice(devices, id).Some? ==> exists k ::
      && 0 <= k < |devices| && devices[k] == FindDevice(devices, id).value && devices[k].id == id
      && forall j :: 0 <= j < k ==> devices[j].id != id
  {
    if devices != [] && devices[0].id != id {
      FirstDevice(devices[1..], id);
      if FindDevice(devices, id).Some? {
        var k :| 0 <= k < |devices[1..]| && devices[1..][k] == FindDevice(devices, id).value
                 && devices[1..][k].id == id && forall j :: 0 <= j < k ==> devices[1..][j].id != id;
        assert devices[k + 1] == FindDevice(devices, id).value;
        forall j | 0 <= j < k + 1 ensures devices[j].id != id { assert j > 0 ==> devices[1..][j - 1] == devices[j]; }
      } else {
        forall k | 0 <= k < |devices| ensures devices[k].id != id { assert k > 0 ==> devices[1..][k - 1] == devices[k]; }
      }
    }
  }

  lemma {:induction false} DeviceFound(t: Tables, id: string)
    ensures FindDevice(t.devices, id).Some? <==> IsDevice(t, id)
    ensures forall k :: DeviceAt(t, k, id) ==> FindDevice(t.devices, id) == Some(t.devices[k])
  {
    FirstDevice(t.devices, id);
    if FindDevice(t.devices, id).Some? {
      var k :| 0 <= k < |t.devices| && t.devices[k] == FindDevice(t.devices, id).value && t.devices[k].id == id
               && forall j :: 0 <= j < k ==> t.devices[j].id != id;
      assert DeviceAt(t, k, id);
    }
  }

  lemma {:induction false} FirstInterface(interfaces: seq<Interface>, i: string)
    ensures InterfaceOwner(interfaces, i).None? ==> forall k :: 0 <= k < |interfaces| ==> interfaces[k].id != i
    ensures InterfaceOwner(interfaces, i).Some? ==> exists k ::
      && 0 <= k < |interfaces| && interfaces[k].deviceId == InterfaceOwner(interfaces, i).value && interfaces[k].id == i
      && forall j :: 0 <= j < k ==> interfaces[j].id != i
  {
    if interfaces != [] && interfaces[0].id != i {
      var rest := interfaces[1..];
      FirstInterface(rest, i);
      if InterfaceOwner(interfaces, i).Some? {
        var k :| 0 <= k < |rest| && rest[k].deviceId == InterfaceOwner(interfaces, i).value && rest[k].id == i
                 && forall j :: 0 <= j < k ==> rest[j].id != i;
        assert interfaces[k + 1] == rest[k];
        forall j | 0 <= j < k + 1 ensures interfaces[j].id != i { assert j > 0 ==> rest[j - 1] == interfaces[j]; }
      } else {
        forall k | 0 <= k < |interfaces| ensures interfaces[k].id != i { assert k > 0 ==> rest[k - 1] == interfaces[k]; }
      }
    }
  }

  lemma {:induction false} OwnerOfInterface(t: Tables, i: string, id: string)
    ensures InterfaceOwner(t.interfaces, i) == Some(id) <==> InterfaceOf(t, i, id)
  {
    FirstInterface(t.interfaces, i);
  }

  lemma {:induction false} OwnerOfAddress(t: Tables, row: IpRow, id: string)
    ensures IpOwner(t, row) == Some(id) <==> BelongsTo(t, row, id)
  {
    if row.deviceId.None? && row.interfaceId.Some? { OwnerOfInterface(t, row.interfaceId.value, id); }
  }

  // The queries

  lemma {:induction false} CIDRMembersMean(w: World, cidr: string, id: string)
    ensures id in DevicesInCIDR(w.tables, w.within, cidr) <==> OwnsInside(w, cidr, id)
  {
    var t := w.tables;
    DevicesInCIDRMembers(t, w.within, cidr);
    DeviceFound(t, id);
    forall k | 0 <= k < |t.ips| ensures IpOwner(t, t.ips[k]) == Some(id) <==> BelongsTo(t, t.ips[k], id) {
      OwnerOfAddress(t, t.ips[k], id);
    }
  }

  lemma {:induction false} VLANMembersMean(t: Tables, vlan: int, id: string)
    ensures id in DevicesInVLAN(t, vlan) <==> OnVlan(t, vlan, id)
  {
    DevicesInVLANMembers(t, vlan);
    DeviceFound(t, id);
    forall k | 0 <= k < |t.vlans|
      ensures InterfaceOwner(t.interfaces, t.vlans[k].interfaceId) == Some(id) <==> InterfaceOf(t, t.vlans[k].interfaceId, id)
    {
      OwnerOfInterface(t, t.vlans[k].interfaceId, id);
    }
  }

  lemma {:induction false} PVIDsMean(t: Tables, device: string, v: int)
    ensures v in DevicePVIDs(t, device) <==> HasPort(t, v, device)
  {
    DevicePVIDsMembers(t, device);
    forall k | 0 <= k < |t.vlans|
      ensures PvidOf(t, t.vlans[k], device, v) <==>
        t.vlans[k].role == "pvid" && t.vlans[k].vlanId == v && InterfaceOf(t, t.vlans[k].interfaceId, device)
    {
      OwnerOfInterface(t, t.vlans[k].interfaceId, device);
    }
  }

  /** A device's addresses are those of the rows bound to it or to its interfaces. */
  lemma {:induction false} AddressesMean(t: Tables, device: string, ip: string)
    ensures ip in DeviceIPs(t, device) <==> exists k :: 0 <= k < |t.ips| && t.ips[k].ip == ip && BoundTo(t, t.ips[k], device)
  {
    var f := (row: IpRow) =>
      if row.deviceId == Some(device)
         || (row.interfaceId.Some? && InterfaceOwner(t.interfaces, row.interfaceId.value) == Some(device))
      then Some(row.ip) else None;
    SelectMembers(t.ips, f);
    assert DeviceIPs(t, device) == Select(t.ips, f);
    forall k | 0 <= k < |t.ips| ensures f(t.ips[k]) == Some(ip) <==> t.ips[k].ip == ip && BoundTo(t, t.ips[k], device) {
      if t.ips[k].interfaceId.Some? { OwnerOfInterface(t, t.ips[k].interfaceId.value, device); }
    }
    if k :| 0 <= k < |t.ips| && t.ips[k].ip == ip && BoundTo(t, t.ips[k], device) { assert f(t.ips[k]) == Some(ip); }
  }

  /** The peers of a subnet and of a VLAN, the focused device left out. */
  lemma {:induction false} SubnetPeersMean(w: World, focus: string, cidr: string, id: string)
    ensures id in PeersOf(w, "l3", focus)(cidr) <==> OwnsInside(w, cidr, id) && id != focus
  {
    PeersInCIDRMembers(w.tables, w.within, cidr, focus);
    CIDRMembersMean(w, cidr, id);
  }

  lemma {:induction false} VlanPeersMean(w: World, focus: string, v: int, id: string)
    requires -MAX_INT64 - 1 <= v <= MAX_INT64
    ensures id in PeersOf(w, "l2", focus)(Itoa(v)) <==> OnVlan(w.tables, v, id) && id != focus
  {
    AtoiItoa(v);
    PeersInVLANMembers(w.tables, v, focus);
    VLANMembersMean(w.tables, v, id);
  }
}
