/** When the neighbours of a device, cut to a limit, hold the device itself: said over the stored rows. */
module SelfLinks {
  import opened Orders
  import opened Text
  import opened MapTables

  predicate Joins(l: LinkRow, a: string, b: string) { (l.a == a && l.b == b) || (l.a == b && l.b == a) }

  ghost predicate Linked(t: Tables, a: string, b: string) {
    exists m :: 0 <= m < |t.links| && Joins(t.links[m], a, b)
  }

  /** Device `id` exists and some stored link joins it to itself. */
  ghost predicate SelfLinked(t: Tables, id: string) {
    FindDevice(t.devices, id).Some? && exists m :: 0 <= m < |t.links| && t.links[m].a == id && t.links[m].b == id
  }

  /** The existing devices linked to `id` whose own id is smaller. */
  ghost function SmallerNeighbours(t: Tables, id: string): set<string> {
    set k | 0 <= k < |t.devices| && Less(t.devices[k].id, id) && Linked(t, id, t.devices[k].id) :: t.devices[k].id
  }

  predicate PeerAmong(s: seq<LinkPeer>, peer: string) { exists k :: 0 <= k < |s| && s[k].peer == peer }

  lemma {:induction false} FoundDevice(devices: seq<Device>, id: string)
    ensures FindDevice(devices, id).Some? <==> exists k :: 0 <= k < |devices| && devices[k].id == id
  {
    if devices != [] {
      FoundDevice(devices[1..], id);
      if k :| 0 <= k < |devices| && devices[k].id == id {
        assert k > 0 ==> devices[1..][k - 1].id == id;
      }
    }
  }

  /** The neighbours the query lists are exactly the existing devices linked to the device. */
  lemma NeighboursExact(t: Tables, device: string, peer: string)
    ensures PeerAmong(LinkPeers(t, device), peer) <==> FindDevice(t.devices, peer).Some? && Linked(t, device, peer)
  {
    LinkPeersContract(t, device);
    LinksWithPeersMembers(t, device);
    var all := LinkPeers(t, device);
    if k :| 0 <= k < |all| && all[k].peer == peer {
      assert all[k] in all && all[k] in LinksWithPeers(t, device);
      var m :| 0 <= m < |t.links| && PeerOf(t, device, t.links[m]) == Some(all[k]);
      assert Joins(t.links[m], device, peer);
    }
    if m :| FindDevice(t.devices, peer).Some? && 0 <= m < |t.links| && Joins(t.links[m], device, peer) {
      assert PeerOf(t, device, t.links[m]) == Some(LinkPeer(t.links[m].id, peer));
      assert HasPeer(all, peer);
    }
  }

  ghost function FirstPeers(s: seq<LinkPeer>, n: int): set<string>
    requires n <= |s|
  {
    set k | 0 <= k < n :: s[k].peer
  }

  lemma {:induction false} FirstPeersCount(s: seq<LinkPeer>, n: nat)
    requires PeersIncrease(s) && n <= |s|
    ensures |FirstPeers(s, n)| == n
  {
    if n > 0 {
      var last := s[n - 1].peer;
      FirstPeersCount(s, n - 1);
      LessIrreflexive(last);
      assert last !in FirstPeers(s, n - 1);
      forall p ensures p in FirstPeers(s, n) <==> p in FirstPeers(s, n - 1) || p == last {
        if k :| 0 <= k < n && s[k].peer == p { assert k < n - 1 ==> p in FirstPeers(s, n - 1); }
      }
      assert FirstPeers(s, n) == FirstPeers(s, n - 1) + {last};
    }
  }

  /** Neighbours are listed by ascending id: before a listed one stand exactly the smaller ones. */
  lemma SmallerComeFirst(t: Tables, device: string, k: nat)
    requires k < |LinkPeers(t, device)| && LinkPeers(t, device)[k].peer == device
    ensures |SmallerNeighbours(t, device)| == k
  {
    var all := LinkPeers(t, device);
    LinkPeersContract(t, device);
    FirstPeersCount(all, k);
    forall p ensures p in SmallerNeighbours(t, device) <==> p in FirstPeers(all, k) {
      NeighboursExact(t, device, p);
      FoundDevice(t.devices, p);
      LessIrreflexive(device);
      if p in SmallerNeighbours(t, device) {
        var j :| 0 <= j < |all| && all[j].peer == p;
        if k < j { LessTransitive(device, p, device); }
      }
    }
    assert SmallerNeighbours(t, device) == FirstPeers(all, k);
  }

  /** The first `limit` neighbours hold the device exactly when it is linked to itself and few enough are smaller. */
  lemma SelfListedIff(t: Tables, device: string, limit: nat)
    ensures PeerAmong(Take(LinkPeers(t, device), limit), device)
      <==> SelfLinked(t, device) && |SmallerNeighbours(t, device)| < limit
  {
    var all := LinkPeers(t, device);
    NeighboursExact(t, device, device);
    if k :| 0 <= k < |all| && all[k].peer == device {
      SmallerComeFirst(t, device, k);
      if k < limit { assert Take(all, limit)[k].peer == device; }
      if j :| 0 <= j < |Take(all, limit)| && Take(all, limit)[j].peer == device {
        SmallerComeFirst(t, device, j);
      }
    } else {
      assert forall j :: 0 <= j < |Take(all, limit)| ==> Take(all, limit)[j] == all[j];
    }
  }
}
