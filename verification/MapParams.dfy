/** How the parameters of a map request are read, and the limits and lookups that follow from them. */
module MapParams {
  import opened Text
  import opened Params
  import opened MapTables
  import opened MapProjection
  import opened MapFacts
  import opened MapLayers

  function Least(a: int, b: int): int { if b < a then b else a }

  /** Every number is written as itself in decimal. */
  lemma {:induction false} DecimalDigits(n: nat)
    ensures Itoa(n) == if n < 10 then [(n + '0' as int) as char] else Itoa(n / 10) + [(n % 10 + '0' as int) as char]
    ensures n > 0 ==> Itoa(0 - n) == "-" + Itoa(n)
  {
  }

  /** A page size as text: the default when absent, refused when not positive, cut at the maximum. */
  lemma {:induction false} LimitRead(n: int, defaultVal: int, max: int)
    requires -MAX_INT64 - 1 <= n <= MAX_INT64
    ensures ParseLimitParam("", defaultVal, max) == Some(defaultVal)
    ensures ParseLimitParam(Itoa(n), defaultVal, max) == if n <= 0 then None else Some(Least(n, max))
  {
    AtoiItoa(n);
  }

  /** Text that is no number is refused. */
  lemma {:induction false} LimitRefused(value: string, defaultVal: int, max: int)
    requires value != "" && Atoi(value).None?
    ensures ParseLimitParam(value, defaultVal, max).None?
  {
  }

  /** Text is a number only when it is digits after at most one sign. */
  lemma {:induction false} NumbersAreDigits(s: string)
    requires Atoi(s).Some?
    ensures exists d :: d != "" && AllDigits(d) && (s == d || s == "-" + d || s == "+" + d)
  {
    var d := if s[0] == '-' || s[0] == '+' then s[1..] else s;
    assert s == d || s == "-" + d || s == "+" + d;
  }

  /** Depth as text: 1 when absent, refused when negative, at most 3. */
  lemma {:induction false} DepthRead(value: string, n: int)
    requires -MAX_INT64 - 1 <= n <= MAX_INT64
    ensures TrimSpace(value) == "" ==> ParseMapDepth(value) == Ok(1)
    ensures TrimSpace(value) == Itoa(n) ==> ParseMapDepth(value) == if n < 0 then Err(InvalidDepth) else Ok(Least(n, 3))
  {
    AtoiItoa(n);
  }

  /** What a request may show: at most 8 regions, 120 nodes and 80 edges, and no more of each than asked for. */
  lemma {:induction false} LimitsRead(req: Request, n: int)
    requires 1 <= n <= MAX_INT64
    ensures req.limit == "" ==> LimitOf(req, 120)
    ensures req.limit == Itoa(n) ==> LimitOf(req, Least(n, 500))
  {
    LimitRead(n, MAP_MAX_NODES, MAP_MAX_LIMIT);
  }

  ghost predicate LimitOf(req: Request, n: int) {
    && ParseLimit(req.limit, MAP_MAX_NODES, MAP_MAX_LIMIT).Ok?
    && LimitsOf(req).regions == Least(8, n) && LimitsOf(req).nodes == Least(120, n) && LimitsOf(req).edges == Least(80, n)
  }

  /** Every answer states those limits, whatever it shows. */
  lemma {:induction false} AnswerLimits(w: World, req: Request)
    requires Respond(w, req).Ok?
    ensures ParseLimit(req.limit, MAP_MAX_NODES, MAP_MAX_LIMIT).Ok?
    ensures WithinLimits(Respond(w, req).value, LimitsOf(req))
  {
    if TrimSpace(req.focusType) != "" {
      FocusLimits(w, ToLower(TrimSpace(req.layer)), ParseMapDepth(req.depth).value, ToLower(TrimSpace(req.focusType)),
                  TrimSpace(req.focusId), LimitsOf(req));
    }
  }

  ghost predicate WithinLimits(p: Projection, lim: Limits) {
    p.regionMetric.limit == lim.regions && p.nodeMetric.limit == lim.nodes && p.edgeMetric.limit == lim.edges
  }

  lemma {:induction false} FocusLimits(w: World, layer: string, depth: int, focusType: string, idRaw: string, lim: Limits)
    requires RespondFocus(w, layer, depth, focusType, idRaw, lim).Ok?
    ensures WithinLimits(RespondFocus(w, layer, depth, focusType, idRaw, lim).value, lim)
  {
  }

  /** What is never cut is never called cut: regions but of a device on layers 2 and 3, edges but of a device, no depth. */
  ghost predicate CutOnlyWhere(p: Projection, layer: string, depth: int, focusType: string) {
    && (p.regionMetric.truncated ==> focusType == "device" && (layer == "l3" || layer == "l2") && depth > 0)
    && (p.edgeMetric.truncated ==> focusType == "device" && (layer == "l3" || layer == "physical") && depth > 0)
    && (p.nodeMetric.truncated ==> p.nodes != [] && depth > 0 && layer != "security")
  }

  lemma {:induction false} CutsAreReal(w: World, layer: string, depth: int, focusType: string, idRaw: string, lim: Limits)
    requires RespondFocus(w, layer, depth, focusType, idRaw, lim).Ok? && lim.nodes >= 1
    ensures CutOnlyWhere(RespondFocus(w, layer, depth, focusType, idRaw, lim).value, layer, depth, focusType)
  {
    if focusType == "device" { DeviceCuts(w, layer, depth, LookupDevice(w, GetDevice, idRaw).value, lim); }
  }

  lemma {:induction false} DeviceCuts(w: World, layer: string, depth: int, d: Device, lim: Limits)
    requires RespondDevice(w, layer, depth, d, lim).Ok? && lim.nodes >= 1
    ensures CutOnlyWhere(RespondDevice(w, layer, depth, d, lim).value, layer, depth, "device")
  {
  }

  /** A device is found exactly when the query works, the id is a UUID, and a row has it; each failure has its error. */
  lemma {:induction false} DeviceLookup(w: World, query: Query, idRaw: string)
    ensures var r := LookupDevice(w, query, idRaw);
      && (w.fails(query) ==> r == Err(DbError))
      && (!w.fails(query) && w.canonicalUuid(idRaw).None? ==> r == Err(InvalidId))
      && (!w.fails(query) && w.canonicalUuid(idRaw).Some? ==>
            var id := w.canonicalUuid(idRaw).value;
            && (!IsDevice(w.tables, id) ==> r == Err(NotFound))
            && forall k :: DeviceAt(w.tables, k, id) ==> r == Ok(w.tables.devices[k]))
  {
    if w.canonicalUuid(idRaw).Some? { DeviceFound(w.tables, w.canonicalUuid(idRaw).value); }
  }

  /** The host of services: its known name, or that of its row; a failing query and a missing row are errors. */
  lemma {:induction false} HostLookup(w: World, host: string, known: Option<string>)
    ensures var r := HostLabel(w, host, known);
      && (known.Some? ==> r == Ok(known))
      && (known.None? && w.fails(GetHostDevice) ==> r == Err(DbError))
      && (known.None? && !w.fails(GetHostDevice) && !IsDevice(w.tables, host) ==> r == Err(NotFound))
      && (known.None? && !w.fails(GetHostDevice) ==>
            forall k :: DeviceAt(w.tables, k, host) ==> r == Ok(w.tables.devices[k].displayName))
  {
    DeviceFound(w.tables, host);
  }

  /** A service is found likewise. */
  lemma {:induction false} ServiceLookup(w: World, idRaw: string)
    ensures var r := LookupService(w, idRaw);
      && (w.fails(GetService) ==> r == Err(DbError))
      && (!w.fails(GetService) && w.canonicalUuid(idRaw).None? ==> r == Err(InvalidId))
      && (!w.fails(GetService) && w.canonicalUuid(idRaw).Some? ==>
            (r.Ok? ==> exists k :: 0 <= k < |w.tables.services| && w.tables.services[k] == r.value
                                   && r.value.id == w.canonicalUuid(idRaw).value)
            && (r.Err? ==> r.error == NotFound && forall k :: 0 <= k < |w.tables.services| ==>
                  w.tables.services[k].id != w.canonicalUuid(idRaw).value))
  {
    if w.canonicalUuid(idRaw).Some? { ServiceSearch(w.tables.services, w.canonicalUuid(idRaw).value); }
  }

  lemma {:induction false} ServiceSearch(services: seq<ServiceRow>, id: string)
    ensures FindService(services, id).None? ==> forall k :: 0 <= k < |services| ==> services[k].id != id
    ensures FindService(services, id).Some? ==>
      FindService(services, id).value in services && FindService(services, id).value.id == id
  {
    if services != [] && services[0].id != id {
      ServiceSearch(services[1..], id);
      assert forall k :: 0 < k < |services| ==> services[1..][k - 1] == services[k];
    }
  }

  /** Each layer is served, in any case and with blanks around it, and nothing else is. */
  lemma {:induction false} LayersServed(w: World, req: Request)
    requires TrimSpace(req.focusType) == "" && TrimSpace(req.focusId) == ""
    requires ParseMapDepth(req.depth).Ok? && ParseLimit(req.limit, MAP_MAX_NODES, MAP_MAX_LIMIT).Ok?
    ensures var layer := ToLower(TrimSpace(req.layer));
      (Respond(w, req).Ok? <==>
        layer == "physical" || layer == "l2" || layer == "l3" || layer == "services" || layer == "security")
      && (Respond(w, req).Err? ==> Respond(w, req).error == InvalidLayer)
  {
  }

  lemma {:induction false} FocusTypeNotRefused(w: World, layer: string, depth: int, kind: string, idRaw: string, lim: Limits)
    ensures RespondFocus(w, layer, depth, kind, idRaw, lim) != Err(InvalidFocusType)
  {
    if kind == "device" {
      var d := LookupDevice(w, GetDevice, idRaw);
      if d.Ok? { assert RespondDevice(w, layer, depth, d.value, lim) != Err(InvalidFocusType); }
    }
  }

  /** Likewise the five types of focus: with an id, any other is refused as such, and none of these is. */
  lemma {:induction false} FocusTypesServed(w: World, req: Request)
    requires TrimSpace(req.focusType) != "" && TrimSpace(req.focusId) != "" && IsValidMapLayer(ToLower(TrimSpace(req.layer)))
    requires ParseMapDepth(req.depth).Ok? && ParseLimit(req.limit, MAP_MAX_NODES, MAP_MAX_LIMIT).Ok?
    ensures var kind := ToLower(TrimSpace(req.focusType));
      Respond(w, req) == Err(InvalidFocusType) <==>
        !(kind == "device" || kind == "subnet" || kind == "vlan" || kind == "zone" || kind == "service")
  {
    FocusTypeNotRefused(w, ToLower(TrimSpace(req.layer)), ParseMapDepth(req.depth).value, ToLower(TrimSpace(req.focusType)),
                        TrimSpace(req.focusId), LimitsOf(req));
  }

  /** A device view without depth, or on the security layer, is the device alone. */
  lemma {:induction false} DeviceAlone(w: World, layer: string, depth: int, d: Device, lim: Limits)
    requires depth <= 0 || layer == "security"
    ensures var r := RespondDevice(w, layer, depth, d, lim);
      && r.Ok? && r.value.regions == [] && r.value.edges == [] && |r.value.nodes| == 1
      && r.value.nodes[0].id == d.id && r.value.nodes[0].kind == "device" && r.value.nodes[0].regionIds == []
      && r.value.nodes[0].caption == DisplayName(w.tables, d.id) && r.value.focus == Some(Focus("device", d.id))
  {
    assert "security"[1] == 'e' && "services"[2] == 'r' && "security"[2] == 'c';
  }

  /** Layers on which the view of a device lists something. */
  predicate Listing(layer: string) { layer == "l3" || layer == "l2" || layer == "physical" }

  /**
   * Which totals an answer gives: of regions, where there is one or they were listed; of nodes and edges, where they were
   * listed and nothing is cut, and on layer 3 of edges even then.
   */
  ghost predicate TotalsGiven(p: Projection, layer: string, depth: int, focusType: string) {
    var listed := focusType == "device" && depth > 0;
    && (p.regionMetric.total.Some? <==> p.regions != [] || (listed && (layer == "l3" || layer == "l2")))
    && (p.nodeMetric.total.Some? <==>
          depth > 0 && !p.nodeMetric.truncated && (p.regions != [] || (listed && Listing(layer))))
    && (p.edgeMetric.total.Some? <==>
          listed && (layer == "l3" || (layer == "physical" && !p.edgeMetric.truncated)))
  }

  lemma {:induction false} AnswerTotals(w: World, layer: string, depth: int, focusType: string, idRaw: string, lim: Limits)
    requires RespondFocus(w, layer, depth, focusType, idRaw, lim).Ok?
    ensures TotalsGiven(RespondFocus(w, layer, depth, focusType, idRaw, lim).value, layer, depth, focusType)
  {
    if focusType == "device" { DeviceTotals(w, layer, depth, LookupDevice(w, GetDevice, idRaw).value, lim); }
  }

  lemma {:induction false} DeviceTotals(w: World, layer: string, depth: int, d: Device, lim: Limits)
    requires RespondDevice(w, layer, depth, d, lim).Ok?
    ensures TotalsGiven(RespondDevice(w, layer, depth, d, lim).value, layer, depth, "device")
  {
  }

  /** The layer that shows what a focus of this type holds. */
  ghost predicate OwnLayer(layer: string, focusType: string) {
    || (focusType == "subnet" && layer == "l3") || (focusType == "vlan" && layer == "l2")
    || (focusType == "service" && layer == "services")
  }

  ghost predicate Bare(p: Projection) { p.nodes == [] && p.edges == [] }

  /** On any other layer the answer names the focus and shows nothing; a subnet or VLAN must still be one. */
  lemma {:induction false} OtherLayers(w: World, layer: string, depth: int, focusType: string, idRaw: string, lim: Limits)
    requires focusType != "device" && !OwnLayer(layer, focusType)
    ensures var r := RespondFocus(w, layer, depth, focusType, idRaw, lim);
      && (r.Ok? ==> Bare(r.value) && r.value.regions == [] && r.value.layer == layer && r.value.focus.Some?
                    && r.value.focus.value.kind == focusType)
      && (r.Err? <==> (focusType == "subnet" && w.canonicalCidr(idRaw).None?)
                      || (focusType == "vlan" && !(Atoi(idRaw).Some? && 1 <= Atoi(idRaw).value <= 4094)))
      && (focusType != "subnet" && focusType != "vlan" ==> r.Ok? && r.value.focus.value.id == idRaw)
      && (r.Ok? && focusType == "subnet" ==> Some(r.value.focus.value.id) == w.canonicalCidr(idRaw))
      && (r.Ok? && focusType == "vlan" ==> r.value.focus.value.id == Itoa(Atoi(idRaw).value))
  {
  }

  /** Without depth a subnet or a VLAN is shown alone, and a service not at all, and no member is asked for. */
  lemma {:induction false} WithoutDepth(w: World, layer: string, depth: int, focusType: string, idRaw: string, lim: Limits)
    requires depth <= 0 && OwnLayer(layer, focusType) && RespondFocus(w, layer, depth, focusType, idRaw, lim).Ok?
    ensures var p := RespondFocus(w, layer, depth, focusType, idRaw, lim).value;
      && Bare(p) && p.layer == layer && p.focus.Some? && p.focus.value.kind == focusType
      && (focusType == "service" ==> p.regions == [] && LookupService(w, idRaw).Ok?
                                     && p.focus.value.id == LookupService(w, idRaw).value.id)
      && (focusType == "subnet" ==> p.regions == [Region(p.focus.value.id, "subnet", p.focus.value.id)])
      && (focusType == "vlan" ==> p.regions == [Region(p.focus.value.id, "vlan", "VLAN " + p.focus.value.id)])
  {
  }

  /** A host without a name to look for is answered with nothing. */
  lemma {:induction false} BlankHost(w: World, focus: Focus, host: string, hostLabel: Option<string>, lim: Limits)
    requires TrimSpace(host) == ""
    ensures var r := RespondServices(w, focus, host, hostLabel, lim);
      r.Ok? && Bare(r.value) && r.value.regions == [] && r.value.focus == Some(focus) && r.value.layer == "services"
  {
  }
}
