/** The services view in terms of the stored rows, and how service rows are ordered and captioned. */
module MapServices {
  import opened Orders
  import opened Text
  import opened MapTables
  import opened MapProjection
  import opened MapFacts
  import opened MapAnswer
  import opened MapLayers
  import opened MapBranches

  /** The first column in which two rows differ decides: newer first, then texts and numbers ascending, NULLs last. */
  lemma {:induction false} ServiceOrder(a: ServiceRow, b: ServiceRow)
    ensures a.observedAt != b.observedAt ==> (ServiceLess(a, b) <==> b.observedAt < a.observedAt)
    ensures a.observedAt == b.observedAt && a.protocol != b.protocol ==>
      (ServiceLess(a, b) <==> b.protocol.None? || (a.protocol.Some? && Less(a.protocol.value, b.protocol.value)))
    ensures a.observedAt == b.observedAt && a.protocol == b.protocol && a.port != b.port ==>
      (ServiceLess(a, b) <==> b.port.None? || (a.port.Some? && a.port.value < b.port.value))
    ensures a.observedAt == b.observedAt && a.protocol == b.protocol && a.port == b.port && a.name != b.name ==>
      (ServiceLess(a, b) <==> b.name.None? || (a.name.Some? && Less(a.name.value, b.name.value)))
    ensures a.observedAt == b.observedAt && a.protocol == b.protocol && a.port == b.port && a.name == b.name ==>
      (ServiceLess(a, b) <==> Less(a.id, b.id))
  {
  }

  predicate Blank(s: Option<string>) { s.None? || TrimSpace(s.value) == "" }

  predicate NoPort(p: Option<int>) { p.None? || p.value <= 0 }

  /** Protocol and port joined by a slash, then the name; whatever is missing is left out with its separator. */
  lemma {:induction false} ServiceCaptions(protocol: Option<string>, port: Option<int>, name: Option<string>)
    ensures var text := FormatServiceLabel(protocol, port, name);
      && (Blank(name) ==>
            && (Blank(protocol) && NoPort(port) ==> text == "")
            && (Blank(protocol) && !NoPort(port) ==> text == Itoa(port.value))
            && (!Blank(protocol) && NoPort(port) ==> text == ToLower(TrimSpace(protocol.value)))
            && (!Blank(protocol) && !NoPort(port) ==> text == ToLower(TrimSpace(protocol.value)) + "/" + Itoa(port.value)))
      && (!Blank(name) ==>
            && (Blank(protocol) && NoPort(port) ==> text == TrimSpace(name.value))
            && (!(Blank(protocol) && NoPort(port)) ==>
                  text == FormatServiceLabel(protocol, port, None) + " " + TrimSpace(name.value)))
  {
  }

  /** Row `k` is a service of the host. */
  predicate ServiceAt(t: Tables, k: int, host: string) { 0 <= k < |t.services| && t.services[k].deviceId == host }

  ghost predicate ServiceDrawn(t: Tables, host: string, n: Node) {
    exists k :: ServiceAt(t, k, host)
      && n.id == t.services[k].id && n.kind == "service" && n.primaryRegionId == Some(host) && n.regionIds == [host]
      && n.caption == NonEmpty(FormatServiceLabel(t.services[k].protocol, t.services[k].port, t.services[k].name))
  }

  function NonEmpty(s: string): Option<string> { if TrimSpace(s) == "" then None else Some(s) }

  /** Exactly the host's services; when they are too many, a full answer of the first in the query's order. */
  ghost predicate ServicesDrawn(t: Tables, p: Projection, host: string) {
    && (forall n :: n in p.nodes ==> ServiceDrawn(t, host, n))
    && (forall k :: ServiceAt(t, k, host) && !NodeIn(p.nodes, t.services[k].id) ==>
          && p.nodeMetric.truncated && |p.nodes| == p.nodeMetric.limit
          && forall j :: ServiceAt(t, j, host) && NodeIn(p.nodes, t.services[j].id) ==>
            ServiceLess(t.services[j], t.services[k]))
    && (p.nodeMetric.truncated ==> exists k :: ServiceAt(t, k, host) && !NodeIn(p.nodes, t.services[k].id))
  }

  lemma {:induction false} ServiceMade(host: string, services: seq<ServiceRow>, n: Node)
    ensures n in ServiceNodes(host, services) <==> exists k :: 0 <= k < |services| && n == ServiceNode(host, services[k])
  {
    var nodes := ServiceNodes(host, services);
    if k :| 0 <= k < |nodes| && nodes[k] == n { assert n == ServiceNode(host, services[k]); }
    if k :| 0 <= k < |services| && n == ServiceNode(host, services[k]) { assert nodes[k] == n; }
  }

  lemma {:induction false} ServiceIds(host: string, services: seq<ServiceRow>, id: string)
    ensures NodeIn(ServiceNodes(host, services), id) <==> exists k :: 0 <= k < |services| && services[k].id == id
  {
    if n :| n in ServiceNodes(host, services) && n.id == id { ServiceMade(host, services, n); }
    if k :| 0 <= k < |services| && services[k].id == id { ServiceMade(host, services, ServiceNode(host, services[k])); }
  }

  ghost predicate DistinctIds(s: seq<ServiceRow>) { forall i, j :: 0 <= i < j < |s| ==> s[i].id != s[j].id }

  lemma {:induction false} OnePlace(s: seq<ServiceRow>, i: nat, j: nat)
    requires DistinctIds(s) && i < |s| && j < |s| && s[i].id == s[j].id
    ensures i == j
  {
  }

  /** Which entries of a list are drawn when it is cut. */
  lemma {:induction false} CutDraws(host: string, all: seq<ServiceRow>, n: nat, i: nat)
    requires DistinctIds(all) && i < |all|
    ensures NodeIn(ServiceNodes(host, Take(all, n)), all[i].id) <==> i < n
  {
    var shown := Take(all, n);
    ServiceIds(host, shown, all[i].id);
    assert forall j :: 0 <= j < |shown| ==> shown[j] == all[j];
    if i < n { assert shown[i].id == all[i].id; }
    if j :| 0 <= j < |shown| && shown[j].id == all[i].id { OnePlace(all, j, i); }
  }

  /** A row of the host stands somewhere in the query's answer, and is drawn exactly when that is within the limit. */
  lemma {:induction false} ServicePlace(t: Tables, host: string, n: nat, k: int) returns (i: nat)
    requires Keyed(t) && ServiceAt(t, k, host)
    ensures i < |ServicesOf(t, host)| && ServicesOf(t, host)[i] == t.services[k]
    ensures NodeIn(ServiceNodes(host, Take(ServicesOf(t, host), n)), t.services[k].id) <==> i < n
  {
    var all := ServicesOf(t, host);
    ServicesOfContract(t, host);
    assert t.services[k] in all;
    i :| 0 <= i < |all| && all[i] == t.services[k];
    CutDraws(host, all, n, i);
  }

  lemma {:induction false} ServicesDraw(t: Tables, focus: Focus, host: string, caption: Option<string>, lim: Limits)
    requires Keyed(t)
    ensures ServicesDrawn(t, ServicesFocus(focus, host, caption, ServicesOf(t, host), lim), host)
  {
    var all := ServicesOf(t, host);
    var p, shown := ServicesFocus(focus, host, caption, all, lim), Take(all, lim.nodes);
    ServicesOfContract(t, host);
    forall n | n in p.nodes ensures ServiceDrawn(t, host, n) { DrawnService(t, host, shown, n); }
    forall k | ServiceAt(t, k, host) && !NodeIn(p.nodes, t.services[k].id)
      ensures p.nodeMetric.truncated && |p.nodes| == p.nodeMetric.limit
      ensures forall j :: ServiceAt(t, j, host) && NodeIn(p.nodes, t.services[j].id) ==> ServiceLess(t.services[j], t.services[k])
    {
      var i := ServicePlace(t, host, lim.nodes, k);
      forall j | ServiceAt(t, j, host) && NodeIn(p.nodes, t.services[j].id) ensures ServiceLess(t.services[j], t.services[k]) {
        var h := ServicePlace(t, host, lim.nodes, j);
        assert ServiceLess(all[h], all[i]);
      }
    }
    if p.nodeMetric.truncated { CutService(t, host, lim.nodes); }
  }

  lemma {:induction false} DrawnService(t: Tables, host: string, shown: seq<ServiceRow>, n: Node)
    requires Keyed(t) && (forall s :: s in shown ==> s in ServicesOf(t, host)) && n in ServiceNodes(host, shown)
    ensures ServiceDrawn(t, host, n)
  {
    ServiceMade(host, shown, n);
    var i :| 0 <= i < |shown| && n == ServiceNode(host, shown[i]);
    ServicesOfContract(t, host);
    assert shown[i] in shown && shown[i] in t.services;
    var k :| 0 <= k < |t.services| && t.services[k] == shown[i];
    assert ServiceAt(t, k, host);
  }

  lemma {:induction false} CutService(t: Tables, host: string, n: nat)
    requires Keyed(t) && |ServicesOf(t, host)| > n
    ensures exists k :: ServiceAt(t, k, host) && !NodeIn(ServiceNodes(host, Take(ServicesOf(t, host), n)), t.services[k].id)
  {
    var all := ServicesOf(t, host);
    ServicesOfContract(t, host);
    assert all[n] in all && all[n] in t.services;
    var k :| 0 <= k < |t.services| && t.services[k] == all[n];
    var i := ServicePlace(t, host, n, k);
    OnePlace(all, i, n);
  }

  lemma {:induction false} ServicesSame(t: Tables, p: Projection, q: Projection, host: string)
    requires SameAnswer(p, q) && ServicesDrawn(t, q, host)
    ensures ServicesDrawn(t, p, host)
  {
    forall id ensures NodeIn(p.nodes, id) <==> NodeIn(q.nodes, id) { }
  }

  /** The host as the one region, under its name without outer blanks, or its id when it has none. */
  ghost predicate HostShown(p: Projection, host: string, name: Option<string>) {
    p.edges == [] && p.regions == [Region(host, "device", if Blank(name) then host else TrimSpace(name.value))]
  }

  lemma {:induction false} HostAnswer(w: World, focus: Focus, host: string, known: Option<string>, lim: Limits)
    requires Keyed(w.tables) && TrimSpace(host) != "" && RespondServices(w, focus, host, known, lim).Ok?
    requires known.Some? ==>
      IsDevice(w.tables, host) && forall k :: DeviceAt(w.tables, k, host) ==> w.tables.devices[k].displayName == known
    ensures IsDevice(w.tables, host)
    ensures var p := SortMapProjection(RespondServices(w, focus, host, known, lim).value);
      && p.focus == Some(focus) && ServicesDrawn(w.tables, p, host)
      && forall k :: DeviceAt(w.tables, k, host) ==> HostShown(p, host, w.tables.devices[k].displayName)
  {
    var q := RespondServices(w, focus, host, known, lim).value;
    var caption := HostLabel(w, host, known).value;
    DeviceFound(w.tables, host);
    ServicesDraw(w.tables, focus, host, caption, lim);
    SortedSame(q);
    OneRegion(q);
    ServicesSame(w.tables, SortMapProjection(q), q, host);
  }

  /** The services view of a device: its service rows, with itself as the region. */
  lemma {:induction false} DeviceServicesAnswer(w: World, req: Request, idRaw: string)
    requires Asks(req, "services", "device", idRaw) && Respond(w, req).Ok? && Keyed(w.tables)
    ensures w.canonicalUuid(idRaw).Some?
    ensures var id, p := w.canonicalUuid(idRaw).value, Respond(w, req).value;
      IsDevice(w.tables, id) && p.focus == Some(Focus("device", id)) && (TrimSpace(id) != "" ==>
        ServicesDrawn(w.tables, p, id)
        && forall k :: DeviceAt(w.tables, k, id) ==> HostShown(p, id, w.tables.devices[k].displayName))
  {
    Asked(w, req, "services", "device", idRaw);
    LookedUp(w, GetDevice, idRaw);
    var d, lim := LookupDevice(w, GetDevice, idRaw).value, LimitsOf(req);
    DeviceFound(w.tables, d.id);
    assert RespondDevice(w, "services", ParseMapDepth(req.depth).value, d, lim)
        == RespondServices(w, Focus("device", d.id), d.id, d.displayName, lim);
    if TrimSpace(d.id) != "" { HostAnswer(w, Focus("device", d.id), d.id, d.displayName, lim); }
  }

  /** Row `k` is the service `id`: the first with that key. */
  ghost predicate ServiceRowAt(t: Tables, k: int, id: string) {
    0 <= k < |t.services| && t.services[k].id == id && forall j :: 0 <= j < k ==> t.services[j].id != id
  }

  lemma {:induction false} ServiceFound(services: seq<ServiceRow>, id: string)
    ensures FindService(services, id).Some? ==> exists k ::
      && 0 <= k < |services| && services[k] == FindService(services, id).value && services[k].id == id
      && forall j :: 0 <= j < k ==> services[j].id != id
  {
    if services != [] && services[0].id != id {
      var rest := services[1..];
      ServiceFound(rest, id);
      if FindService(services, id).Some? {
        var k :| 0 <= k < |rest| && rest[k] == FindService(services, id).value && rest[k].id == id
                 && forall j :: 0 <= j < k ==> rest[j].id != id;
        assert services[k + 1] == rest[k];
        forall j | 0 <= j < k + 1 ensures services[j].id != id { assert j > 0 ==> rest[j - 1] == services[j]; }
      }
    }
  }

  /** The services view of a service: the rows of the device it runs on. */
  lemma {:induction false} ServiceAnswer(w: World, req: Request, idRaw: string)
    requires Asks(req, "services", "service", idRaw) && Respond(w, req).Ok? && Keyed(w.tables)
    ensures w.canonicalUuid(idRaw).Some?
    ensures var id, p := w.canonicalUuid(idRaw).value, Respond(w, req).value;
      exists k :: ServiceRowAt(w.tables, k, id) && p.focus == Some(Focus("service", id))
        && var host := w.tables.services[k].deviceId;
           TrimSpace(host) != "" ==>
             ServicesDrawn(w.tables, p, host)
             && forall d :: DeviceAt(w.tables, d, host) ==> HostShown(p, host, w.tables.devices[d].displayName)
  {
    Asked(w, req, "services", "service", idRaw);
    var s, lim := LookupService(w, idRaw).value, LimitsOf(req);
    ServiceFound(w.tables.services, w.canonicalUuid(idRaw).value);
    var k :| 0 <= k < |w.tables.services| && w.tables.services[k] == s && ServiceRowAt(w.tables, k, s.id);
    if TrimSpace(s.deviceId) != "" { HostAnswer(w, Focus("service", s.id), s.deviceId, None, lim); }
  }
}
