/** Undirected links: canonical endpoints, the key of a link, and the links table. */
module Links {
  import opened Orders
  import opened Text

  datatype End = End(device: string, interface: Option<string>)

  /** One neighbour seen from device `local`. */
  datatype Observation = Observation(source: string, local: End, remote: End)

  datatype Link = Link(a: End, b: End)

  function RawInterface(e: End): string { if e.interface.Some? then e.interface.value else "" }

  /** canonicalizeLinkEndpoints. */
  function Canonical(a: End, b: End): Link {
    if Less(a.device, b.device) then Link(a, b)
    else if Less(b.device, a.device) then Link(b, a)
    else if !Less(RawInterface(b), RawInterface(a)) then Link(a, b)
    else Link(b, a)
  }

  /** An interface as it appears in a key. */
  function InterfaceKey(e: End): string {
    if e.interface.Some? && TrimSpace(e.interface.value) != "" then TrimSpace(e.interface.value) else "-"
  }

  /** makeLinkKey. */
  function LinkKey(source: string, l: Link): string {
    TrimSpace(source) + ":" + l.a.device + ":" + InterfaceKey(l.a) + ":" + l.b.device + ":" + InterfaceKey(l.b)
  }

  function KeyOf(o: Observation): string { LinkKey(o.source, Canonical(o.local, o.remote)) }

  function Reversed(o: Observation): Observation { o.(local := o.remote, remote := o.local) }

  /** The end with the smaller device comes first; of one device, the end with the smaller interface, a missing one least. */
  lemma CanonicalOrder(a: End, b: End)
    ensures var l := Canonical(a, b);
      && (l == Link(a, b) || l == Link(b, a)) && !Less(l.b.device, l.a.device)
      && (l.a.device == l.b.device ==> !Less(RawInterface(l.b), RawInterface(l.a)))
      && (a.interface.None? ==> RawInterface(a) == "") && (a.interface.Some? ==> RawInterface(a) == a.interface.value)
  {
    LessNotBoth(a.device, b.device);
    LessNotBoth(RawInterface(a), RawInterface(b));
    LessIrreflexive(a.device);
  }

  lemma CanonicalSymmetric(a: End, b: End)
    requires a.device != b.device
    ensures Canonical(a, b) == Canonical(b, a)
  {
    LessConnected(a.device, b.device);
    LessNotBoth(a.device, b.device);
  }

  lemma LessNotBoth(a: string, b: string)
    ensures !(Less(a, b) && Less(b, a))
  {
    if Less(a, b) && Less(b, a) {
      LessTransitive(a, b, a);
      LessIrreflexive(a);
    }
  }

  /** Either end of a link reports the same key, for all field values. */
  lemma KeySymmetric(o: Observation)
    ensures KeyOf(o) == KeyOf(Reversed(o))
  {
    if o.local.device != o.remote.device {
      CanonicalSymmetric(o.local, o.remote);
    } else {
      LessIrreflexive(o.local.device);
      var x, y := RawInterface(o.local), RawInterface(o.remote);
      LessNotBoth(x, y);
      LessConnected(x, y);
    }
  }

  predicate ColonFree(s: string) { ':' !in s }

  /** Fields with no colon; the source without outer blanks. */
  predicate Splittable(o: Observation) {
    && ColonFree(TrimSpace(o.source)) && ColonFree(o.local.device) && ColonFree(o.remote.device)
    && ColonFree(InterfaceKey(o.local)) && ColonFree(InterfaceKey(o.remote))
  }

  /** The part of a key from the second end on, from the first interface on, and from the first device on. */
  function KeyTail3(l: Link): string { l.b.device + [':'] + InterfaceKey(l.b) }
  function KeyTail2(l: Link): string { InterfaceKey(l.a) + [':'] + KeyTail3(l) }
  function KeyTail1(l: Link): string { l.a.device + [':'] + KeyTail2(l) }

  lemma KeyShape(source: string, l: Link)
    ensures LinkKey(source, l) == TrimSpace(source) + [':'] + KeyTail1(l)
  {
    var s, a, i, b, j := TrimSpace(source), l.a.device, InterfaceKey(l.a), l.b.device, InterfaceKey(l.b);
    assert s + ":" + a + ":" + i + ":" + b + ":" + j == s + [':'] + (a + [':'] + (i + [':'] + (b + [':'] + j)));
  }

  /** Equal keys mean equal parts. */
  lemma KeyParts(s: string, l: Link, t: string, m: Link)
    requires ColonFree(TrimSpace(s)) && ColonFree(l.a.device) && ColonFree(InterfaceKey(l.a)) && ColonFree(l.b.device)
    requires ColonFree(TrimSpace(t)) && ColonFree(m.a.device) && ColonFree(InterfaceKey(m.a)) && ColonFree(m.b.device)
    ensures LinkKey(s, l) == LinkKey(t, m) <==>
      && TrimSpace(s) == TrimSpace(t) && l.a.device == m.a.device && l.b.device == m.b.device
      && InterfaceKey(l.a) == InterfaceKey(m.a) && InterfaceKey(l.b) == InterfaceKey(m.b)
  {
    KeyShape(s, l);
    KeyShape(t, m);
    JoinInjective(TrimSpace(s), TrimSpace(t), ':', KeyTail1(l), KeyTail1(m));
    JoinInjective(l.a.device, m.a.device, ':', KeyTail2(l), KeyTail2(m));
    JoinInjective(InterfaceKey(l.a), InterfaceKey(m.a), ':', KeyTail3(l), KeyTail3(m));
    JoinInjective(l.b.device, m.b.device, ':', InterfaceKey(l.b), InterfaceKey(m.b));
  }

  /** An interface field that a key shows as it is. */
  predicate PlainInterface(e: End) {
    e.interface.Some? ==>
      Trimmed(e.interface.value) && e.interface.value != "" && e.interface.value != "-" && ColonFree(e.interface.value)
  }

  /** What discovery writes: identifiers and interface names that are trimmed, not empty, and hold no colon. */
  predicate Plain(o: Observation) {
    && Trimmed(o.source) && ColonFree(o.source) && ColonFree(o.local.device) && ColonFree(o.remote.device)
    && PlainInterface(o.local) && PlainInterface(o.remote)
  }

  /** The same source saw the same two ends, from whichever side. */
  predicate SameLink(o: Observation, p: Observation) {
    o.source == p.source && Canonical(o.local, o.remote) == Canonical(p.local, p.remote)
  }

  lemma InterfaceKeyPlain(e: End)
    requires PlainInterface(e)
    ensures ColonFree(InterfaceKey(e))
    ensures InterfaceKey(e) == if e.interface.Some? then e.interface.value else "-"
  {
    if e.interface.Some? { TrimSpaceFixed(e.interface.value); }
  }

  /** For plain fields a key identifies its link: equal keys exactly for the same source and canonical endpoints. */
  lemma KeyIdentifiesLink(o: Observation, p: Observation)
    requires Plain(o) && Plain(p)
    ensures KeyOf(o) == KeyOf(p) <==> SameLink(o, p)
  {
    TrimSpaceFixed(o.source);
    TrimSpaceFixed(p.source);
    InterfaceKeyPlain(o.local);
    InterfaceKeyPlain(o.remote);
    InterfaceKeyPlain(p.local);
    InterfaceKeyPlain(p.remote);
    KeyParts(o.source, Canonical(o.local, o.remote), p.source, Canonical(p.local, p.remote));
  }

  /** The exact condition for colon-free fields: sources agree up to blanks, devices, and the interfaces as shown. */
  lemma KeysCollideIff(o: Observation, p: Observation)
    requires Splittable(o) && Splittable(p)
    ensures var l, m := Canonical(o.local, o.remote), Canonical(p.local, p.remote);
      KeyOf(o) == KeyOf(p) <==>
        && TrimSpace(o.source) == TrimSpace(p.source) && l.a.device == m.a.device && l.b.device == m.b.device
        && InterfaceKey(l.a) == InterfaceKey(m.a) && InterfaceKey(l.b) == InterfaceKey(m.b)
  {
    KeyParts(o.source, Canonical(o.local, o.remote), p.source, Canonical(p.local, p.remote));
  }

  lemma DashIsNoInterface()
    ensures var o := Observation("lldp", End("a", Some("-")), End("b", None));
      KeyOf(o) == KeyOf(o.(local := End("a", None)))
  {
    TrimSpaceFixed("-");
    assert Less("a", "b");
  }

  lemma ColonMoves()
    ensures LinkKey("lldp", Link(End("a", Some("p:q")), End("b", None)))
         == LinkKey("lldp", Link(End("a:p", Some("q")), End("b", None)))
  {
    TrimSpaceFixed("p:q");
    TrimSpaceFixed("q");
    var l, m := Link(End("a", Some("p:q")), End("b", None)), Link(End("a:p", Some("q")), End("b", None));
    KeyShape("lldp", l);
    KeyShape("lldp", m);
    assert KeyTail3(l) == KeyTail3(m);
    assert KeyTail1(l) == ("a" + ":" + "p:q") + [':'] + KeyTail3(l);
    assert KeyTail1(m) == ("a:p" + ":" + "q") + [':'] + KeyTail3(l);
    assert "a" + ":" + "p:q" == "a:p" + ":" + "q";
  }

  /** An interface named "-" is taken for no interface, and a colon can move between fields. */
  lemma KeysThatCollide()
    ensures var o := Observation("lldp", End("a", Some("-")), End("b", None));
      KeyOf(o) == KeyOf(o.(local := End("a", None)))
    ensures LinkKey("lldp", Link(End("a", Some("p:q")), End("b", None)))
         == LinkKey("lldp", Link(End("a:p", Some("q")), End("b", None)))
  {
    DashIsNoInterface();
    ColonMoves();
  }

  predicate IsHex(c: char) { '0' <= c <= '9' || 'a' <= c <= 'f' || 'A' <= c <= 'F' }

  /** The text form of the ids that devices and interfaces have. */
  predicate UuidShaped(s: string) {
    |s| == 36 && forall i :: 0 <= i < |s| ==> if i in {8, 13, 18, 23} then s[i] == '-' else IsHex(s[i])
  }

  predicate UuidEnd(e: End) { UuidShaped(e.device) && (e.interface.Some? ==> UuidShaped(e.interface.value)) }

  /** What discovery observes: neighbours by LLDP or CDP, between devices and interfaces named by their ids. */
  predicate Discovered(o: Observation) { o.source in ["lldp", "cdp"] && UuidEnd(o.local) && UuidEnd(o.remote) }

  lemma {:induction false} UuidIsPlain(s: string)
    requires UuidShaped(s)
    ensures Trimmed(s) && ColonFree(s) && s != "" && s != "-"
  {
    assert IsHex(s[0]) && IsHex(s[35]);
    forall i | 0 <= i < |s| ensures s[i] != ':' { assert s[i] == '-' || IsHex(s[i]); }
  }

  lemma {:induction false} DiscoveredIsPlain(o: Observation)
    requires Discovered(o)
    ensures Plain(o)
  {
    UuidIsPlain(o.local.device);
    UuidIsPlain(o.remote.device);
    if o.local.interface.Some? { UuidIsPlain(o.local.interface.value); }
    if o.remote.interface.Some? { UuidIsPlain(o.remote.interface.value); }
  }

  /** Nothing discovery passes to the key function collides: equal keys exactly for the same link. */
  lemma {:induction false} DiscoveredKeysNeverCollide(o: Observation, p: Observation)
    requires Discovered(o) && Discovered(p)
    ensures KeyOf(o) == KeyOf(p) <==> SameLink(o, p)
  {
    DiscoveredIsPlain(o);
    DiscoveredIsPlain(p);
    KeyIdentifiesLink(o, p);
  }

  // The table

  datatype LinkRow = LinkRow(source: string, link: Link)

  /** UpsertLink on the endpoints as discovery computes them. */
  function Seen(rows: map<string, LinkRow>, o: Observation): map<string, LinkRow> {
    rows[KeyOf(o) := LinkRow(o.source, Canonical(o.local, o.remote))]
  }

  function AllSeen(obs: seq<Observation>): map<string, LinkRow> {
    if obs == [] then map[] else Seen(AllSeen(obs[..|obs| - 1]), obs[|obs| - 1])
  }

  /**
   * A neighbour a poll reports: the far end as resolved, with no device when that failed, whether its name did not
   * rule it out, and whether its upsert succeeds.
   */
  datatype Neighbour = Neighbour(source: string, localInterface: Option<string>, remote: End, nameFits: bool, stored: bool)

  predicate Kept(device: string, n: Neighbour) {
    n.remote.device != "" && n.remote.device != device && n.nameFits && n.stored
  }

  function ObservationOf(device: string, n: Neighbour): Observation {
    Observation(n.source, End(device, n.localInterface), n.remote)
  }

  /** The observations that reach the table. */
  function Stored(device: string, ns: seq<Neighbour>): seq<Observation> {
    if ns == [] then []
    else
      var rest, last := Stored(device, ns[..|ns| - 1]), ns[|ns| - 1];
      if Kept(device, last) then rest + [ObservationOf(device, last)] else rest
  }

  class LinkTable {
    /** links is unique on its key. */
    var rows: map<string, LinkRow>
    /** Every observation stored so far. */
    ghost var history: seq<Observation>

    ghost predicate Valid()
      reads this
    {
      rows == AllSeen(history) && NoneReflexive(history)
    }

    constructor ()
      ensures Valid() && history == []
    {
      rows := map[];
      history := [];
    }

    /** UpsertLink, after canonicalizeLinkEndpoints and makeLinkKey. */
    method Upsert(o: Observation)
      requires Valid() && o.local.device != o.remote.device
      modifies this
      ensures Valid() && history == old(history) + [o] && rows == Seen(old(rows), o)
    {
      var l := Canonical(o.local, o.remote);
      rows := rows[LinkKey(o.source, l) := LinkRow(o.source, l)];
      history := history + [o];
      assert history[..|history| - 1] == old(history);
    }

    /** The loop over the neighbours of one polled device: rows and count are those of the observations stored. */
    method RecordNeighbours(device: string, neighbours: seq<Neighbour>) returns (written: nat)
      requires Valid()
      modifies this
      ensures Valid()
      ensures history == old(history) + Stored(device, neighbours) && rows == AllSeen(history)
      ensures written == |Stored(device, neighbours)|
    {
      written := 0;
      ghost var stored: seq<Observation> := [];
      for i := 0 to |neighbours|
        invariant Valid() && history == old(history) + stored
        invariant stored == Stored(device, neighbours[..i]) && written == |stored|
      {
        var n := neighbours[i];
        StoredNext(device, neighbours, i);
        if n.remote.device == "" || n.remote.device == device { continue; }
        if !n.nameFits { continue; }
        if !n.stored { continue; }
        Upsert(ObservationOf(device, n));
        stored := stored + [ObservationOf(device, n)];
        written := written + 1;
      }
      assert neighbours[..|neighbours|] == neighbours;
    }
  }

  lemma StoredNext(device: string, ns: seq<Neighbour>, i: nat)
    requires i < |ns|
    ensures Stored(device, ns[..i + 1])
         == if Kept(device, ns[i]) then Stored(device, ns[..i]) + [ObservationOf(device, ns[i])] else Stored(device, ns[..i])
  {
    assert ns[..i + 1][..i] == ns[..i];
  }

  /** Neighbour `n`, polled on `device`, is the observation `o`: seen at the local interface it names. */
  predicate SeenOn(device: string, n: Neighbour, o: Observation) {
    && o.source == n.source && o.local.device == device && o.local.interface == n.localInterface && o.remote == n.remote
  }

  /**
   * What is stored: each neighbour that is resolved to another device, whose name fits and whose upsert succeeds, as
   * seen on the polled device; nothing else.
   */
  lemma {:induction false} StoredExactly(device: string, ns: seq<Neighbour>, o: Observation)
    ensures o in Stored(device, ns) <==>
      exists n :: n in ns && SeenOn(device, n, o) && n.remote.device != "" && n.remote.device != device && n.nameFits && n.stored
  {
    if ns != [] {
      var rest, last := ns[..|ns| - 1], ns[|ns| - 1];
      StoredExactly(device, rest, o);
      assert forall n :: n in ns <==> n in rest || n == last;
    }
  }

  ghost predicate NoneReflexive(obs: seq<Observation>) {
    forall i :: 0 <= i < |obs| ==> obs[i].local.device != obs[i].remote.device
  }

  /** Observations of two devices never leave a row that joins a device to itself. */
  lemma {:induction false} NoSelfLinkStored(obs: seq<Observation>)
    requires NoneReflexive(obs)
    ensures forall key :: key in AllSeen(obs) ==> AllSeen(obs)[key].link.a.device != AllSeen(obs)[key].link.b.device
  {
    if obs != [] { NoSelfLinkStored(obs[..|obs| - 1]); }
  }

  /** There is a row under a key exactly when some observation has that key. */
  lemma {:induction false} RowsHaveKeys(obs: seq<Observation>, key: string)
    ensures key in AllSeen(obs) <==> exists o :: o in obs && KeyOf(o) == key
  {
    if obs != [] {
      RowsHaveKeys(obs[..|obs| - 1], key);
      assert obs == obs[..|obs| - 1] + [obs[|obs| - 1]];
    }
  }

  /** Each row holds the link whose key it is under. */
  lemma {:induction false} RowShowsLink(obs: seq<Observation>, o: Observation)
    requires forall x :: x in obs ==> Plain(x)
    requires o in obs
    ensures KeyOf(o) in AllSeen(obs) && AllSeen(obs)[KeyOf(o)] == LinkRow(o.source, Canonical(o.local, o.remote))
  {
    var rest, last := obs[..|obs| - 1], obs[|obs| - 1];
    KeyIdentifiesLink(o, last);
    if KeyOf(o) != KeyOf(last) {
      assert obs == rest + [last];
      RowShowsLink(rest, o);
    }
  }

  /**
   * However often and from whichever ends links are observed, two observations share a row exactly when they are of the
   * same link, and the row shows that link.
   */
  lemma {:induction false} OneRowPerLink(obs: seq<Observation>, o: Observation, p: Observation)
    requires forall x :: x in obs ==> Plain(x)
    requires o in obs && p in obs
    ensures KeyOf(o) in AllSeen(obs) && AllSeen(obs)[KeyOf(o)] == LinkRow(o.source, Canonical(o.local, o.remote))
    ensures KeyOf(o) == KeyOf(p) <==> SameLink(o, p)
    ensures o.local.device != o.remote.device ==> SameLink(o, Reversed(o))
  {
    RowShowsLink(obs, o);
    KeyIdentifiesLink(o, p);
    if o.local.device != o.remote.device { CanonicalSymmetric(o.local, o.remote); }
  }

  function LinkOf(o: Observation): LinkRow { LinkRow(o.source, Canonical(o.local, o.remote)) }

  /** The distinct links observed. */
  function LinksOf(obs: seq<Observation>): set<LinkRow> {
    if obs == [] then {} else LinksOf(obs[..|obs| - 1]) + {LinkOf(obs[|obs| - 1])}
  }

  lemma {:induction false} LinksOfMembers(obs: seq<Observation>, r: LinkRow)
    ensures r in LinksOf(obs) <==> exists o :: o in obs && LinkOf(o) == r
  {
    if obs != [] {
      LinksOfMembers(obs[..|obs| - 1], r);
      assert obs == obs[..|obs| - 1] + [obs[|obs| - 1]];
    }
  }

  predicate AllPlain(obs: seq<Observation>) { forall o :: o in obs ==> Plain(o) }

  lemma AllPlainPrefix(obs: seq<Observation>)
    requires AllPlain(obs) && obs != []
    ensures AllPlain(obs[..|obs| - 1]) && Plain(obs[|obs| - 1])
  {
    assert forall o :: o in obs[..|obs| - 1] ==> o in obs;
  }

  lemma NewRowForNewLink(rest: seq<Observation>, last: Observation)
    requires Plain(last) && AllPlain(rest)
    ensures KeyOf(last) in AllSeen(rest) <==> LinkOf(last) in LinksOf(rest)
  {
    RowsHaveKeys(rest, KeyOf(last));
    LinksOfMembers(rest, LinkOf(last));
    forall o | o in rest ensures KeyOf(o) == KeyOf(last) <==> LinkOf(o) == LinkOf(last) { KeyIdentifiesLink(o, last); }
  }

  lemma GrowTogether(keys: set<string>, links: set<LinkRow>, key: string, row: LinkRow)
    requires |keys| == |links| && (key in keys <==> row in links)
    ensures |keys + {key}| == |links + {row}|
  {
    if key in keys {
      assert keys + {key} == keys && links + {row} == links;
    }
  }

  lemma RowsNext(obs: seq<Observation>)
    requires obs != []
    ensures AllSeen(obs).Keys == AllSeen(obs[..|obs| - 1]).Keys + {KeyOf(obs[|obs| - 1])}
  {
  }

  /** There are as many rows as distinct links. */
  lemma {:induction false} RowCount(obs: seq<Observation>)
    requires AllPlain(obs)
    ensures |AllSeen(obs).Keys| == |LinksOf(obs)|
  {
    if obs != [] {
      var rest, last := obs[..|obs| - 1], obs[|obs| - 1];
      AllPlainPrefix(obs);
      RowCount(rest);
      NewRowForNewLink(rest, last);
      RowsNext(obs);
      GrowTogether(AllSeen(rest).Keys, LinksOf(rest), KeyOf(last), LinkOf(last));
    }
  }
}
