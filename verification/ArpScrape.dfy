/** Resolving ARP entries to devices: the loop of scrapeARP over the device, MAC and IP tables. */
module ArpScrape {
  import opened Orders
  import opened Text
  import opened Inet

  type Mac = nat

  datatype Entry = Entry(ip: Addr, mac: Mac)

  /** A row of mac_addresses or ip_addresses; rows that belong to an interface have no device. */
  datatype Row<K> = Row(device: Option<nat>, key: K)

  /** Devices are numbered in creation order; rows are kept in creation order. */
  datatype Db = Db(devices: nat, macs: seq<Row<Mac>>, ips: seq<Row<Addr>>)

  datatype Target = Target(device: nat, ip: Addr)

  datatype Counts = Counts(arpEntries: nat, devicesSeen: nat, devicesCreated: nat, targets: seq<Target>)

  datatype ReadError = NotExist | Unreadable

  /** A row of mac_observations or ip_observations. */
  datatype Noted<K> = Noted(run: string, device: nat, key: K)

  /** FindDeviceIDByMAC and FindDeviceIDByIP: the device of the oldest row that has one. */
  function Find<K(==)>(rows: seq<Row<K>>, key: K): Option<nat> {
    if rows == [] then None
    else if rows[0].key == key && rows[0].device.Some? then rows[0].device
    else Find(rows[1..], key)
  }

  /** UpsertDeviceMAC and UpsertDeviceIP: one row per device and key. */
  function Upsert<K(==)>(rows: seq<Row<K>>, device: nat, key: K): seq<Row<K>> {
    if Row(Some(device), key) in rows then rows else rows + [Row(Some(device), key)]
  }

  /** The device an entry belongs to: by MAC, else by IP, else a new one. */
  function Resolve(db: Db, e: Entry): nat {
    if Find(db.macs, e.mac).Some? then Find(db.macs, e.mac).value
    else if Find(db.ips, e.ip).Some? then Find(db.ips, e.ip).value
    else db.devices
  }

  predicate Known(db: Db, e: Entry) { Find(db.macs, e.mac).Some? || Find(db.ips, e.ip).Some? }

  function ScrapeOne(db: Db, e: Entry): Db {
    var d := Resolve(db, e);
    Db(if Known(db, e) then db.devices else db.devices + 1, Upsert(db.macs, d, e.mac), Upsert(db.ips, d, e.ip))
  }

  /** The tables after the entries were scraped in order. */
  function Scrape(db: Db, es: seq<Entry>): Db {
    if es == [] then db else ScrapeOne(Scrape(db, es[..|es| - 1]), es[|es| - 1])
  }

  /** The device the `k`th entry resolves to. */
  function DeviceOf(db: Db, es: seq<Entry>, k: nat): nat
    requires k < |es|
  {
    Resolve(Scrape(db, es[..k]), es[k])
  }

  function TargetOf(db: Db, es: seq<Entry>, k: nat): Target
    requires k < |es|
  {
    Target(DeviceOf(db, es, k), es[k].ip)
  }

  /** Each device and address pair once, at its first occurrence. */
  function Targets(db: Db, es: seq<Entry>): seq<Target> {
    if es == [] then []
    else
      var rest := Targets(db, es[..|es| - 1]);
      var t := TargetOf(db, es, |es| - 1);
      if t in rest then rest else rest + [t]
  }

  function InScope(es: seq<Entry>, scope: Option<ParsedPrefix>): seq<Entry> {
    if es == [] then []
    else
      var rest := InScope(es[..|es| - 1], scope);
      var e := es[|es| - 1];
      if scope.Some? && !Inet.Contains(scope.value, e.ip) then rest else rest + [e]
  }

  /** The observations of a run with an id: the device each entry resolved to, under its MAC and its address. */
  function MacsNoted(db: Db, es: seq<Entry>, run: string): set<Noted<Mac>> {
    if es == [] || run == "" then {}
    else MacsNoted(db, es[..|es| - 1], run) + {Noted(run, DeviceOf(db, es, |es| - 1), es[|es| - 1].mac)}
  }

  function IpsNoted(db: Db, es: seq<Entry>, run: string): set<Noted<Addr>> {
    if es == [] || run == "" then {}
    else IpsNoted(db, es[..|es| - 1], run) + {Noted(run, DeviceOf(db, es, |es| - 1), es[|es| - 1].ip)}
  }

  /** Rows only name devices that exist. */
  predicate WellFormed(db: Db) {
    && (forall r :: r in db.macs && r.device.Some? ==> r.device.value < db.devices)
    && (forall r :: r in db.ips && r.device.Some? ==> r.device.value < db.devices)
  }

  // Looking rows up

  lemma {:induction false} FindMember<K>(rows: seq<Row<K>>, key: K)
    ensures Find(rows, key).Some? ==> Row(Find(rows, key), key) in rows
    ensures Find(rows, key).None? ==> forall r :: r in rows && r.key == key ==> r.device.None?
  {
    if rows != [] {
      FindMember(rows[1..], key);
      assert rows == [rows[0]] + rows[1..];
    }
  }

  lemma {:induction false} FindAppend<K>(rows: seq<Row<K>>, more: seq<Row<K>>, key: K)
    ensures Find(rows + more, key) == if Find(rows, key).Some? then Find(rows, key) else Find(more, key)
  {
    if rows == [] {
      assert rows + more == more;
    } else {
      assert (rows + more)[1..] == rows[1..] + more;
      FindAppend(rows[1..], more, key);
    }
  }

  /** An upsert never changes who a key already belongs to, and gives an unowned key to its device. */
  lemma FindUpsert<K>(rows: seq<Row<K>>, d: nat, key: K, other: K)
    ensures Find(Upsert(rows, d, key), other) ==
      if Find(rows, other).Some? then Find(rows, other) else if other == key then Some(d) else None
  {
    FindMember(rows, other);
    FindAppend(rows, [Row(Some(d), key)], other);
  }

  // One entry

  lemma ScrapeOneKeeps(db: Db, e: Entry)
    requires WellFormed(db)
    ensures WellFormed(ScrapeOne(db, e)) && db.devices <= ScrapeOne(db, e).devices
    ensures Resolve(db, e) < ScrapeOne(db, e).devices
    ensures db.macs <= ScrapeOne(db, e).macs && db.ips <= ScrapeOne(db, e).ips
    ensures Row(Some(Resolve(db, e)), e.mac) in ScrapeOne(db, e).macs
    ensures Row(Some(Resolve(db, e)), e.ip) in ScrapeOne(db, e).ips
    ensures Find(ScrapeOne(db, e).macs, e.mac) == Some(Resolve(db, e))
    ensures forall m :: Find(db.macs, m).Some? ==> Find(ScrapeOne(db, e).macs, m) == Find(db.macs, m)
  {
    var d := Resolve(db, e);
    FindMember(db.macs, e.mac);
    FindMember(db.ips, e.ip);
    FindUpsert(db.macs, d, e.mac, e.mac);
    forall m | Find(db.macs, m).Some? ensures Find(ScrapeOne(db, e).macs, m) == Find(db.macs, m) {
      FindUpsert(db.macs, d, e.mac, m);
    }
  }

  /** An entry whose MAC and rows are on record changes nothing. */
  lemma ScrapeOneFixed(db: Db, e: Entry, d: nat)
    requires Find(db.macs, e.mac) == Some(d) && Row(Some(d), e.mac) in db.macs && Row(Some(d), e.ip) in db.ips
    ensures ScrapeOne(db, e) == db && Resolve(db, e) == d
  {
  }

  // Whole tables

  lemma {:induction false} ScrapeKeeps(db: Db, es: seq<Entry>)
    requires WellFormed(db)
    ensures WellFormed(Scrape(db, es)) && db.devices <= Scrape(db, es).devices
    ensures db.macs <= Scrape(db, es).macs && db.ips <= Scrape(db, es).ips
    ensures forall m :: Find(db.macs, m).Some? ==> Find(Scrape(db, es).macs, m) == Find(db.macs, m)
  {
    if es != [] {
      ScrapeKeeps(db, es[..|es| - 1]);
      ScrapeOneKeeps(Scrape(db, es[..|es| - 1]), es[|es| - 1]);
    }
  }

  lemma {:induction false} ScrapeAppend(db: Db, a: seq<Entry>, b: seq<Entry>)
    ensures Scrape(db, a + b) == Scrape(Scrape(db, a), b)
  {
    if b == [] {
      assert a + b == a;
    } else {
      ScrapeAppend(db, a, b[..|b| - 1]);
      assert (a + b)[..|a + b| - 1] == a + b[..|b| - 1];
    }
  }

  /** Device `d` is on record for both addresses of an entry. */
  predicate Recorded(db: Db, d: nat, e: Entry) {
    && Find(db.macs, e.mac) == Some(d) && d < db.devices
    && Row(Some(d), e.mac) in db.macs && Row(Some(d), e.ip) in db.ips
  }

  lemma RecordedStays(db: Db, es: seq<Entry>, d: nat, e: Entry)
    requires WellFormed(db) && Recorded(db, d, e)
    ensures Recorded(Scrape(db, es), d, e)
  {
    ScrapeKeeps(db, es);
  }

  lemma ScrapeUpTo(db: Db, es: seq<Entry>, k: nat)
    requires k < |es|
    ensures Scrape(db, es) == Scrape(ScrapeOne(Scrape(db, es[..k]), es[k]), es[k + 1..])
  {
    var first := es[..k + 1];
    assert first[..k] == es[..k] && first[k] == es[k];
    assert Scrape(db, first) == ScrapeOne(Scrape(db, es[..k]), es[k]);
    ScrapeAppend(db, first, es[k + 1..]);
    assert first + es[k + 1..] == es;
  }

  /** What an entry resolved to is on record when the scrape ends. */
  lemma {:induction false} OnRecord(db: Db, es: seq<Entry>, k: nat)
    requires WellFormed(db) && k < |es|
    ensures Recorded(Scrape(db, es), DeviceOf(db, es, k), es[k])
  {
    ScrapeKeeps(db, es[..k]);
    ScrapeOneKeeps(Scrape(db, es[..k]), es[k]);
    RecordedStays(ScrapeOne(Scrape(db, es[..k]), es[k]), es[k + 1..], DeviceOf(db, es, k), es[k]);
    ScrapeUpTo(db, es, k);
  }

  /** Entries that share a MAC belong to one device, wherever they stand in the table. */
  lemma SameMacSameDevice(db: Db, es: seq<Entry>, j: nat, k: nat)
    requires WellFormed(db) && j < |es| && k < |es| && es[j].mac == es[k].mac
    ensures DeviceOf(db, es, j) == DeviceOf(db, es, k)
  {
    OnRecord(db, es, j);
    OnRecord(db, es, k);
  }

  /** Scraping entries that are all on record changes nothing. */
  lemma {:induction false} RescrapeRecorded(db: Db, es: seq<Entry>, devices: seq<nat>)
    requires |devices| == |es| && forall k :: 0 <= k < |es| ==> Recorded(db, devices[k], es[k])
    ensures Scrape(db, es) == db
  {
    if es != [] {
      var n := |es| - 1;
      RescrapeRecorded(db, es[..n], devices[..n]);
      ScrapeOneFixed(db, es[n], devices[n]);
    }
  }

  lemma {:induction false} RescrapePrefix(db: Db, es: seq<Entry>, n: nat)
    requires WellFormed(db) && n <= |es|
    ensures Scrape(Scrape(db, es), es[..n]) == Scrape(db, es)
  {
    var devices := seq(n, k requires 0 <= k < n => DeviceOf(db, es, k));
    forall k | 0 <= k < n ensures Recorded(Scrape(db, es), devices[k], es[..n][k]) { OnRecord(db, es, k); }
    RescrapeRecorded(Scrape(db, es), es[..n], devices);
  }

  /**
   * Scraping the same table again changes no device and no row, and every entry resolves to the device it resolved to
   * the first time.
   */
  lemma {:induction false} RescrapeChangesNothing(db: Db, es: seq<Entry>, k: nat)
    requires WellFormed(db) && k < |es|
    ensures Scrape(Scrape(db, es), es) == Scrape(db, es)
    ensures DeviceOf(Scrape(db, es), es, k) == DeviceOf(db, es, k)
  {
    RescrapePrefix(db, es, |es|);
    assert es[..|es|] == es;
    RescrapePrefix(db, es, k);
    OnRecord(db, es, k);
  }

  /** Resolving also settles on later scrapes of other tables: a MAC never moves to another device. */
  lemma {:induction false} MacNeverMoves(db: Db, es: seq<Entry>, later: seq<Entry>, k: nat, n: nat)
    requires WellFormed(db) && k < |es| && n < |later| && es[k].mac == later[n].mac
    ensures DeviceOf(Scrape(db, es), later, n) == DeviceOf(db, es, k)
  {
    OnRecord(db, es, k);
    ScrapeKeeps(db, es);
    ScrapeKeeps(Scrape(db, es), later[..n]);
  }

  /** An entry whose MAC is unknown makes a new device exactly when its address is unknown too. */
  lemma SameIpNewMac(db: Db, es: seq<Entry>, k: nat)
    requires WellFormed(db) && k < |es| && Find(Scrape(db, es[..k]).macs, es[k].mac).None?
    ensures DeviceOf(db, es, k) == Scrape(db, es[..k]).devices <==> Find(Scrape(db, es[..k]).ips, es[k].ip).None?
  {
    ScrapeKeeps(db, es[..k]);
    FindMember(Scrape(db, es[..k]).ips, es[k].ip);
  }

  ghost predicate Hit(db: Db, es: seq<Entry>, t: Target) {
    exists k :: 0 <= k < |es| && TargetOf(db, es, k) == t
  }

  lemma HitNext(db: Db, es: seq<Entry>, t: Target)
    requires es != []
    ensures Hit(db, es, t) <==> Hit(db, es[..|es| - 1], t) || t == TargetOf(db, es, |es| - 1)
  {
    var rest := es[..|es| - 1];
    forall k | 0 <= k < |rest| ensures TargetOf(db, es, k) == TargetOf(db, rest, k) {
      assert rest[..k] == es[..k];
    }
    if Hit(db, rest, t) {
      var k :| 0 <= k < |rest| && TargetOf(db, rest, k) == t;
      assert TargetOf(db, es, k) == t;
    }
  }

  /** The targets are distinct, and exactly the device and address pairs of the entries. */
  lemma {:induction false} TargetsExact(db: Db, es: seq<Entry>, t: Target)
    ensures Distinct(Targets(db, es))
    ensures t in Targets(db, es) <==> Hit(db, es, t)
  {
    if es != [] {
      TargetsExact(db, es[..|es| - 1], t);
      HitNext(db, es, t);
    }
  }

  /** The addresses a run notes are its targets. */
  lemma {:induction false} NotedAreTargets(db: Db, es: seq<Entry>, run: string, d: nat, ip: Addr)
    requires run != ""
    ensures Noted(run, d, ip) in IpsNoted(db, es, run) <==> Target(d, ip) in Targets(db, es)
  {
    if es != [] { NotedAreTargets(db, es[..|es| - 1], run, d, ip); }
  }

  // The loop

  /** What a run noted, under MACs and addresses. */
  datatype Notes = Notes(macs: set<Noted<Mac>>, ips: set<Noted<Addr>>)

  /** The notes after the entries `es`. */
  ghost predicate NotesGrow(notes: Notes, before: Notes, start: Db, es: seq<Entry>, run: string) {
    notes == Notes(before.macs + MacsNoted(start, es, run), before.ips + IpsNoted(start, es, run))
  }

  /** Where the loop stands after the entries `es`. */
  ghost predicate Progress(db: Db, start: Db, es: seq<Entry>, counts: Counts, seen: set<Target>) {
    && db == Scrape(start, es) && counts.targets == Targets(start, es)
    && counts.devicesSeen == counts.arpEntries == |es|
    && (forall t :: t in seen <==> t in counts.targets)
  }

  /** What one more entry does to everything the loop builds. */
  lemma OneMoreEntry(start: Db, es: seq<Entry>, e: Entry, run: string)
    ensures Scrape(start, es + [e]) == ScrapeOne(Scrape(start, es), e)
    ensures var d := Resolve(Scrape(start, es), e); var t, rest := Target(d, e.ip), Targets(start, es);
      && Targets(start, es + [e]) == (if t in rest then rest else rest + [t])
      && MacsNoted(start, es + [e], run) == MacsNoted(start, es, run) + (if run == "" then {} else {Noted(run, d, e.mac)})
      && IpsNoted(start, es + [e], run) == IpsNoted(start, es, run) + (if run == "" then {} else {Noted(run, d, e.ip)})
  {
    assert (es + [e])[..|es|] == es;
  }

  lemma OneMoreInScope(entries: seq<Entry>, scope: Option<ParsedPrefix>, i: nat)
    requires i < |entries|
    ensures InScope(entries[..i + 1], scope) ==
      if scope.Some? && !Inet.Contains(scope.value, entries[i].ip) then InScope(entries[..i], scope)
      else InScope(entries[..i], scope) + [entries[i]]
  {
    assert entries[..i + 1][..i] == entries[..i];
  }

  class Inventory {
    var devices: nat
    var macs: seq<Row<Mac>>
    var ips: seq<Row<Addr>>
    var macNotes: set<Noted<Mac>>
    var ipNotes: set<Noted<Addr>>

    constructor ()
      ensures Contents() == Db(0, [], []) && macNotes == {} && ipNotes == {}
    {
      devices, macs, ips, macNotes, ipNotes := 0, [], [], {}, {};
    }

    function Contents(): Db
      reads this
    {
      Db(devices, macs, ips)
    }

    /** CreateDevice. */
    method CreateDevice() returns (id: nat)
      modifies `devices
      ensures id == old(devices) && devices == old(devices) + 1
    {
      id := devices;
      devices := devices + 1;
    }

    /** The lookups by MAC and by address, and a new device when both find none: up to three statements. */
    method FindOrCreate(e: Entry, faultAt: Option<nat>) returns (device: nat, created: bool, ok: bool)
      modifies `devices
      ensures ok ==> device == Resolve(old(Contents()), e) && (created <==> !Known(old(Contents()), e))
      ensures devices == old(devices) + if created then 1 else 0
      ensures !ok ==> !created && faultAt.Some?
    {
      device, created, ok := 0, false, false;
      if faultAt == Some(0) { return; }
      var found := Find(macs, e.mac);
      if found.None? {
        if faultAt == Some(1) { return; }
        found := Find(ips, e.ip);
      }
      if found.None? {
        if faultAt == Some(2) { return; }
        device := CreateDevice();
        created := true;
      } else {
        device := found.value;
      }
      ok := true;
    }

    /** The writes for an entry that was resolved: two upserts, and two observations when the run has an id. */
    method Write(e: Entry, device: nat, run: string, faultAt: Option<nat>) returns (ok: bool)
      modifies `macs, `ips, `macNotes, `ipNotes
      ensures ok ==> macs == Upsert(old(macs), device, e.mac) && ips == Upsert(old(ips), device, e.ip)
      ensures ok ==> macNotes == old(macNotes) + if run == "" then {} else {Noted(run, device, e.mac)}
      ensures ok ==> ipNotes == old(ipNotes) + if run == "" then {} else {Noted(run, device, e.ip)}
      ensures old(macs) <= macs && old(ips) <= ips && old(macNotes) <= macNotes && old(ipNotes) <= ipNotes
      ensures !ok ==> faultAt.Some?
    {
      ok := false;
      if faultAt == Some(3) { return; }
      macs := Upsert(macs, device, e.mac);
      if faultAt == Some(4) { return; }
      ips := Upsert(ips, device, e.ip);
      if run != "" {
        if faultAt == Some(5) { return; }
        macNotes := macNotes + {Noted(run, device, e.mac)};
        if faultAt == Some(6) { return; }
        ipNotes := ipNotes + {Noted(run, device, e.ip)};
      }
      ok := true;
    }

    /** One pass of the loop body; the `faultAt`th of its up to seven statements fails and is not applied. */
    method Observe(e: Entry, run: string, faultAt: Option<nat>) returns (device: nat, created: bool, ok: bool)
      modifies this
      ensures ok ==> Contents() == ScrapeOne(old(Contents()), e) && device == Resolve(old(Contents()), e)
      ensures ok ==> (created <==> !Known(old(Contents()), e))
      ensures devices == old(devices) + if created then 1 else 0
      ensures ok ==> macNotes == old(macNotes) + if run == "" then {} else {Noted(run, device, e.mac)}
      ensures ok ==> ipNotes == old(ipNotes) + if run == "" then {} else {Noted(run, device, e.ip)}
      ensures old(macs) <= macs && old(ips) <= ips && old(macNotes) <= macNotes && old(ipNotes) <= ipNotes
      ensures faultAt.None? ==> ok
    {
      device, created, ok := FindOrCreate(e, faultAt);
      if !ok { return; }
      ok := Write(e, device, run, faultAt);
    }

    /** An entry in scope: observed, counted, and made a target if its device and address are new together. */
    method TakeEntry(ghost start: Db, ghost before: Notes, ghost es: seq<Entry>, e: Entry, run: string, faultAt: Option<nat>,
                     counts: Counts, seen: set<Target>)
      returns (counts': Counts, seen': set<Target>, ok: bool)
      requires Progress(Contents(), start, es, counts, seen) && NotesGrow(Notes(macNotes, ipNotes), before, start, es, run)
      modifies this
      ensures ok ==> Progress(Contents(), start, es + [e], counts', seen')
      ensures ok ==> NotesGrow(Notes(macNotes, ipNotes), before, start, es + [e], run)
      ensures devices - old(devices) == counts'.devicesCreated - counts.devicesCreated
      ensures old(macs) <= macs && old(ips) <= ips && old(macNotes) <= macNotes && old(ipNotes) <= ipNotes
      ensures faultAt.None? ==> ok
    {
      OneMoreEntry(start, es, e, run);
      counts', seen' := counts.(arpEntries := counts.arpEntries + 1), seen;
      var device, created, done := Observe(e, run, faultAt);
      if created { counts' := counts'.(devicesCreated := counts'.devicesCreated + 1); }
      if !done { return counts', seen', false; }
      counts' := counts'.(devicesSeen := counts'.devicesSeen + 1);
      var t := Target(device, e.ip);
      if t !in seen {
        seen' := seen + {t};
        counts' := counts'.(targets := counts'.targets + [t]);
      }
      ok := true;
    }

    /** The loop over parsed entries; `faults` maps the position of an entry to the statement that fails for it. */
    method ScrapeEntries(entries: seq<Entry>, scope: Option<ParsedPrefix>, run: string, faults: map<nat, nat>)
      returns (counts: Counts, ok: bool)
      modifies this
      ensures ok ==>
        var start, es := old(Contents()), InScope(entries, scope);
        && Contents() == Scrape(start, es) && counts.targets == Targets(start, es)
        && counts.devicesSeen == counts.arpEntries == |es|
        && macNotes == old(macNotes) + MacsNoted(start, es, run) && ipNotes == old(ipNotes) + IpsNoted(start, es, run)
      ensures devices == old(devices) + counts.devicesCreated
      ensures old(macs) <= macs && old(ips) <= ips && old(macNotes) <= macNotes && old(ipNotes) <= ipNotes
      ensures faults == map[] ==> ok
    {
      counts, ok := Counts(0, 0, 0, []), true;
      var seen: set<Target> := {};
      ghost var start, before, es: seq<Entry> := Contents(), Notes(macNotes, ipNotes), [];
      for i := 0 to |entries|
        invariant es == InScope(entries[..i], scope) && Progress(Contents(), start, es, counts, seen)
        invariant NotesGrow(Notes(macNotes, ipNotes), before, start, es, run)
        invariant devices == old(devices) + counts.devicesCreated
        invariant old(macs) <= macs && old(ips) <= ips && old(macNotes) <= macNotes && old(ipNotes) <= ipNotes
        invariant ok
      {
        var e := entries[i];
        OneMoreInScope(entries, scope, i);
        if scope.Some? && !Inet.Contains(scope.value, e.ip) { continue; }
        counts, seen, ok := TakeEntry(start, before, es, e, run, if i in faults then Some(faults[i]) else None, counts, seen);
        if !ok { return; }
        es := es + [e];
      }
      assert entries[..|entries|] == entries;
    }

    /** scrapeARP: a table that does not exist is empty, and one that cannot be read or parsed is an error. */
    method ScrapeARP(table: Result<seq<Entry>, ReadError>, scope: Option<ParsedPrefix>, run: string, faults: map<nat, nat>)
      returns (counts: Counts, ok: bool)
      modifies this
      ensures ok ==>
        var start, es := old(Contents()), if table.Ok? then InScope(table.value, scope) else [];
        && Contents() == Scrape(start, es) && counts.targets == Targets(start, es)
        && counts.devicesSeen == counts.arpEntries == |es|
        && macNotes == old(macNotes) + MacsNoted(start, es, run) && ipNotes == old(ipNotes) + IpsNoted(start, es, run)
      ensures devices == old(devices) + counts.devicesCreated
      ensures old(macs) <= macs && old(ips) <= ips && old(macNotes) <= macNotes && old(ipNotes) <= ipNotes
      ensures faults == map[] ==> (ok <==> table.Ok? || table.error == NotExist)
    {
      if table.Err? { return Counts(0, 0, 0, []), table.error == NotExist; }
      counts, ok := ScrapeEntries(table.value, scope, run, faults);
    }
  }
}
