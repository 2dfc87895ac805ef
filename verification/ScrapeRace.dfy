/**
 * Any number of workers scraping at once: the lookups and writes for an entry are separate statements, and what one
 * worker writes between another's lookup and its write splits a MAC over several devices.
 */
module ScrapeRace {
  import opened Text
  import opened Inet
  import opened ArpScrape

  /** Where a worker stands in the loop body; `missed` says that its lookup found no device for the MAC. */
  datatype Phase =
    | Ready
    | MacMissed(e: Entry)
    | NoneFound(e: Entry)
    | Resolved(e: Entry, device: nat, missed: bool)
    | MacWritten(e: Entry, device: nat)

  datatype State = State(db: Db, workers: seq<Phase>)

  datatype Step =
    | LookUpMac(worker: nat, entry: Entry)
    | LookUpIp(worker: nat)
    | Create(worker: nat)
    | WriteMac(worker: nat)
    | WriteIp(worker: nat)
    | Fail(worker: nat)

  const EMPTY := Db(0, [], [])

  function Init(n: nat): State { State(EMPTY, seq(n, _ => Ready)) }

  /** A worker in phase `p` can take the step. */
  predicate Fits(p: Phase, step: Step) {
    match step
    case LookUpMac(_, _) => p == Ready
    case LookUpIp(_) => p.MacMissed?
    case Create(_) => p.NoneFound?
    case WriteMac(_) => p.Resolved?
    case WriteIp(_) => p.MacWritten?
    case Fail(_) => true
  }

  predicate Enabled(s: State, step: Step) { step.worker < |s.workers| && Fits(s.workers[step.worker], step) }

  /** The next phase of the worker that takes the step. */
  function Moved(db: Db, p: Phase, step: Step): Phase
    requires Fits(p, step)
  {
    match step
    case LookUpMac(_, e) =>
      var found := Find(db.macs, e.mac);
      if found.Some? then Resolved(e, found.value, false) else MacMissed(e)
    case LookUpIp(_) =>
      var found := Find(db.ips, p.e.ip);
      if found.Some? then Resolved(p.e, found.value, true) else NoneFound(p.e)
    case Create(_) => Resolved(p.e, db.devices, true)
    case WriteMac(_) => MacWritten(p.e, p.device)
    case WriteIp(_) => Ready
    case Fail(_) => Ready
  }

  function Apply(s: State, step: Step): State
    requires Enabled(s, step)
  {
    var p := s.workers[step.worker];
    var db := match step
      case Create(_) => s.db.(devices := s.db.devices + 1)
      case WriteMac(_) => s.db.(macs := Upsert(s.db.macs, p.device, p.e.mac))
      case WriteIp(_) => s.db.(ips := Upsert(s.db.ips, p.device, p.e.ip))
      case _ => s.db;
    State(db, s.workers[step.worker := Moved(s.db, p, step)])
  }

  ghost predicate Next(s: State, t: State) { exists step :: Enabled(s, step) && t == Apply(s, step) }

  ghost predicate Execution(n: nat, states: seq<State>) {
    && |states| >= 1 && states[0] == Init(n)
    && forall k :: 0 < k < |states| ==> Next(states[k - 1], states[k])
  }

  /** A fault writes nothing and ends the entry: the worker next looks up a MAC, and nothing else. */
  lemma {:induction false} FaultEndsEntry(s: State, fault: Step, next: Step)
    requires Enabled(s, fault) && fault.Fail? && next.worker == fault.worker && Enabled(Apply(s, fault), next)
    ensures Apply(s, fault).db == s.db && (next.LookUpMac? || next.Fail?)
    ensures forall w :: 0 <= w < |s.workers| && w != fault.worker ==> Apply(s, fault).workers[w] == s.workers[w]
  {
  }

  // Later lookups resolve to the first device written

  lemma {:induction false} StepKeepsOwner(s: State, step: Step, mac: Mac)
    requires Enabled(s, step) && Find(s.db.macs, mac).Some?
    ensures Find(Apply(s, step).db.macs, mac) == Find(s.db.macs, mac)
  {
    if step.WriteMac? {
      var p := s.workers[step.worker];
      FindUpsert(s.db.macs, p.device, p.e.mac, mac);
    }
  }

  /** Under any interleaving the device a MAC is looked up to never changes once there is one. */
  lemma {:induction false} OwnerNeverMoves(n: nat, states: seq<State>, j: nat, k: nat, mac: Mac)
    requires Execution(n, states) && j <= k < |states| && Find(states[j].db.macs, mac).Some?
    ensures Find(states[k].db.macs, mac) == Find(states[j].db.macs, mac)
    decreases k
  {
    if j < k {
      OwnerNeverMoves(n, states, j, k - 1, mac);
      assert Next(states[k - 1], states[k]);
      var step :| Enabled(states[k - 1], step) && states[k] == Apply(states[k - 1], step);
      StepKeepsOwner(states[k - 1], step, mac);
    }
  }

  /** A worker whose lookup found a device still holds the MAC's owner. */
  ghost predicate HitsAreOwners(s: State) {
    forall w :: 0 <= w < |s.workers| && s.workers[w].Resolved? && !s.workers[w].missed ==>
      Find(s.db.macs, s.workers[w].e.mac) == Some(s.workers[w].device)
  }

  lemma {:induction false} StepKeepsHits(s: State, step: Step)
    requires Enabled(s, step) && HitsAreOwners(s)
    ensures HitsAreOwners(Apply(s, step))
  {
    var t := Apply(s, step);
    forall w | 0 <= w < |t.workers| && t.workers[w].Resolved? && !t.workers[w].missed
      ensures Find(t.db.macs, t.workers[w].e.mac) == Some(t.workers[w].device)
    {
      if w != step.worker { StepKeepsOwner(s, step, s.workers[w].e.mac); }
    }
  }

  // How many devices one MAC can get

  /** The devices with a row for the MAC. */
  ghost function Owners(rows: seq<Row<Mac>>, mac: Mac): set<nat> {
    set i | 0 <= i < |rows| && rows[i].key == mac && rows[i].device.Some? :: rows[i].device.value
  }

  predicate MissedIt(p: Phase, mac: Mac) {
    p != Ready && p.e.mac == mac && (p.MacMissed? || p.NoneFound? || (p.Resolved? && p.missed))
  }

  /** The workers that looked the MAC up in vain and have not written it yet. */
  ghost function Pending(s: State, mac: Mac): set<nat> { set w | 0 <= w < |s.workers| && MissedIt(s.workers[w], mac) }

  lemma {:induction false} OwnersIffFound(rows: seq<Row<Mac>>, mac: Mac)
    ensures Find(rows, mac).None? <==> Owners(rows, mac) == {}
    ensures Find(rows, mac).Some? ==> Find(rows, mac).value in Owners(rows, mac)
  {
    FindMember(rows, mac);
    if Find(rows, mac).Some? {
      var i :| 0 <= i < |rows| && rows[i] == Row(Find(rows, mac), mac);
      assert rows[i].device.value in Owners(rows, mac);
    } else {
      forall d ensures d !in Owners(rows, mac) {
        if i :| 0 <= i < |rows| && rows[i].key == mac && rows[i].device == Some(d) { assert rows[i] in rows; }
      }
    }
  }

  lemma {:induction false} OwnersUpsert(rows: seq<Row<Mac>>, device: nat, key: Mac, mac: Mac)
    ensures Owners(Upsert(rows, device, key), mac) == Owners(rows, mac) + if key == mac then {device} else {}
  {
    var after, x := Upsert(rows, device, key), Row(Some(device), key);
    if x in rows {
      var i :| 0 <= i < |rows| && rows[i] == x;
      assert key == mac ==> device in Owners(rows, mac);
    } else {
      forall d ensures d in Owners(after, mac) <==> d in Owners(rows, mac) || (key == mac && d == device) {
        if i :| 0 <= i < |rows| && rows[i].key == mac && rows[i].device == Some(d) { assert after[i] == rows[i]; }
        assert after[|rows|] == x;
      }
    }
  }

  ghost predicate Bounded(s: State, mac: Mac) {
    Owners(s.db.macs, mac) == {} || |Owners(s.db.macs, mac)| + |Pending(s, mac)| <= |s.workers|
  }

  lemma {:induction false} PendingFew(s: State, mac: Mac)
    ensures |Pending(s, mac)| <= |s.workers|
  {
    IndexCount(|s.workers|);
    SubsetSize(Pending(s, mac), Indices(|s.workers|));
  }

  ghost function Indices(n: nat): set<nat> { if n == 0 then {} else Indices(n - 1) + {n - 1} }

  lemma {:induction false} IndexCount(n: nat)
    ensures |Indices(n)| == n && forall w: nat :: w in Indices(n) <==> w < n
  {
    if n > 0 { IndexCount(n - 1); }
  }

  lemma {:induction false} SubsetSize<T>(a: set<T>, b: set<T>)
    requires a <= b
    ensures |a| <= |b|
  {
    assert b == a + (b - a);
  }

  /** A step other than a lookup that misses leaves nobody new pending. */
  lemma {:induction false} PendingMoves(s: State, step: Step, mac: Mac)
    requires Enabled(s, step)
    ensures var t, w := Apply(s, step), step.worker;
      Pending(t, mac) == Pending(s, mac) - {w} + if MissedIt(t.workers[w], mac) then {w} else {}
  {
    var t := Apply(s, step);
    forall w ensures w in Pending(t, mac) <==>
      (w in Pending(s, mac) && w != step.worker) || (w == step.worker && MissedIt(t.workers[w], mac))
    {
    }
  }

  /** A write by a worker that missed. */
  lemma {:induction false} MissedWriteKeepsBound(s: State, step: Step, mac: Mac)
    requires Enabled(s, step) && step.WriteMac? && Bounded(s, mac) && MissedIt(s.workers[step.worker], mac)
    ensures Bounded(Apply(s, step), mac)
  {
    var p, t := s.workers[step.worker], Apply(s, step);
    OwnersUpsert(s.db.macs, p.device, p.e.mac, mac);
    PendingMoves(s, step, mac);
    PendingFew(s, mac);
    assert step.worker in Pending(s, mac);
    assert |Owners(t.db.macs, mac)| <= |Owners(s.db.macs, mac)| + 1;
  }

  /** A write of another MAC, or of a device found under this one, changes nothing for it. */
  lemma {:induction false} OtherWriteKeepsOwners(s: State, step: Step, mac: Mac)
    requires Enabled(s, step) && step.WriteMac? && HitsAreOwners(s) && !MissedIt(s.workers[step.worker], mac)
    ensures Owners(Apply(s, step).db.macs, mac) == Owners(s.db.macs, mac)
  {
    var p := s.workers[step.worker];
    OwnersUpsert(s.db.macs, p.device, p.e.mac, mac);
    if p.e.mac == mac {
      OwnersIffFound(s.db.macs, mac);
      assert Owners(s.db.macs, mac) + {p.device} == Owners(s.db.macs, mac);
    }
  }

  lemma {:induction false} OtherWriteKeepsPending(s: State, step: Step, mac: Mac)
    requires Enabled(s, step) && step.WriteMac? && !MissedIt(s.workers[step.worker], mac)
    ensures Pending(Apply(s, step), mac) == Pending(s, mac)
  {
    PendingMoves(s, step, mac);
  }

  lemma {:induction false} StepKeepsBound(s: State, step: Step, mac: Mac)
    requires Enabled(s, step) && Bounded(s, mac) && HitsAreOwners(s)
    ensures Bounded(Apply(s, step), mac)
  {
    if step.WriteMac? {
      if MissedIt(s.workers[step.worker], mac) {
        MissedWriteKeepsBound(s, step, mac);
      } else {
        OtherWriteKeepsOwners(s, step, mac);
        OtherWriteKeepsPending(s, step, mac);
      }
    } else {
      PendingMoves(s, step, mac);
      OwnersIffFound(s.db.macs, mac);
      if Owners(s.db.macs, mac) != {} {
        assert Pending(Apply(s, step), mac) <= Pending(s, mac);
        SubsetSize(Pending(Apply(s, step), mac), Pending(s, mac));
      }
    }
  }

  lemma {:induction false} RaceInv(n: nat, states: seq<State>, k: nat, mac: Mac)
    requires Execution(n, states) && k < |states|
    ensures |states[k].workers| == n && HitsAreOwners(states[k]) && Bounded(states[k], mac)
  {
    if k > 0 {
      RaceInv(n, states, k - 1, mac);
      assert Next(states[k - 1], states[k]);
      var step :| Enabled(states[k - 1], step) && states[k] == Apply(states[k - 1], step);
      StepKeepsHits(states[k - 1], step);
      StepKeepsBound(states[k - 1], step, mac);
    }
  }

  /** From empty tables, `n` workers never give one MAC to more than `n` devices. */
  lemma {:induction false} AtMostOneDevicePerWorker(n: nat, states: seq<State>, k: nat, mac: Mac)
    requires Execution(n, states) && k < |states|
    ensures |Owners(states[k].db.macs, mac)| <= n
  {
    RaceInv(n, states, k, mac);
  }

  /**
   * What a write leaves: the MAC belongs to the writer's device exactly when it had no owner or that one. Otherwise the
   * writer had looked the MAC up in vain, before the owner's write, and the MAC now has rows of two devices.
   */
  lemma {:induction false} WriteSplitsIff(n: nat, states: seq<State>, k: nat, step: Step)
    requires Execution(n, states) && k < |states| && Enabled(states[k], step) && step.WriteMac?
    ensures var p, before, after := states[k].workers[step.worker], states[k].db.macs, Apply(states[k], step).db.macs;
      var owner := Find(before, p.e.mac);
      && (Find(after, p.e.mac) == Some(p.device) <==> owner.None? || owner == Some(p.device))
      && (Find(after, p.e.mac) != Some(p.device) ==>
            p.missed && owner.Some? && {owner.value, p.device} <= Owners(after, p.e.mac))
  {
    var p, macs := states[k].workers[step.worker], states[k].db.macs;
    RaceInv(n, states, k, p.e.mac);
    FindUpsert(macs, p.device, p.e.mac, p.e.mac);
    OwnersIffFound(macs, p.e.mac);
    OwnersUpsert(macs, p.device, p.e.mac, p.e.mac);
  }

  // A lone worker scrapes as the sequential model does

  ghost predicate NextWithoutFault(s: State, t: State) {
    exists step :: Enabled(s, step) && !step.Fail? && t == Apply(s, step)
  }

  /** One worker, no statement failing. */
  ghost predicate LoneExecution(states: seq<State>) {
    && |states| >= 1 && states[0] == Init(1)
    && forall k :: 0 < k < |states| ==> NextWithoutFault(states[k - 1], states[k])
  }

  /** The worker has scraped up to `base`, and is at phase `p` of its next entry. */
  ghost predicate Between(base: Db, db: Db, p: Phase) {
    match p
    case Ready => db == base
    case MacMissed(e) => db == base && Find(base.macs, e.mac).None?
    case NoneFound(e) => db == base && !Known(base, e)
    case Resolved(e, d, _) => d == Resolve(base, e) && db == base.(devices := ScrapeOne(base, e).devices)
    case MacWritten(e, d) => d == Resolve(base, e) && db == ScrapeOne(base, e).(ips := base.ips)
  }

  ghost predicate ScrapedTo(s: State, es: seq<Entry>) {
    |s.workers| == 1 && Between(Scrape(EMPTY, es), s.db, s.workers[0])
  }

  /** Within an entry; the MAC's write is a case of its own. */
  lemma {:induction false} LoneStatement(base: Db, s: State, step: Step)
    requires |s.workers| == 1 && Between(base, s.db, s.workers[0]) && Enabled(s, step)
    requires step.LookUpMac? || step.LookUpIp? || step.Create?
    ensures Between(base, Apply(s, step).db, Apply(s, step).workers[0])
  {
  }

  lemma {:induction false} LoneWriteMac(base: Db, s: State, step: Step)
    requires |s.workers| == 1 && Between(base, s.db, s.workers[0]) && Enabled(s, step) && step.WriteMac?
    ensures Between(base, Apply(s, step).db, Apply(s, step).workers[0])
  {
  }

  lemma {:induction false} LoneWriteIp(base: Db, s: State, step: Step)
    requires |s.workers| == 1 && Between(base, s.db, s.workers[0]) && Enabled(s, step) && step.WriteIp?
    ensures Between(ScrapeOne(base, s.workers[0].e), Apply(s, step).db, Apply(s, step).workers[0])
  {
  }

  lemma {:induction false} LoneStep(s: State, step: Step, es: seq<Entry>) returns (es': seq<Entry>)
    requires ScrapedTo(s, es) && Enabled(s, step) && !step.Fail?
    ensures ScrapedTo(Apply(s, step), es')
  {
    var base := Scrape(EMPTY, es);
    es' := es;
    if step.WriteIp? {
      es' := es + [s.workers[0].e];
      assert es'[..|es|] == es && Scrape(EMPTY, es') == ScrapeOne(base, s.workers[0].e);
      LoneWriteIp(base, s, step);
    } else if step.WriteMac? {
      LoneWriteMac(base, s, step);
    } else {
      LoneStatement(base, s, step);
    }
  }

  /** Whatever entries a lone worker scrapes, between two of them the tables are those of scraping them in order. */
  lemma {:induction false} LoneWorkerScrapes(states: seq<State>, k: nat)
    requires LoneExecution(states) && k < |states|
    ensures exists es :: ScrapedTo(states[k], es)
    ensures states[k].workers == [Ready] ==> exists es :: states[k].db == Scrape(EMPTY, es)
  {
    var es: seq<Entry> := [];
    if k == 0 {
      assert ScrapedTo(states[0], []);
    } else {
      LoneWorkerScrapes(states, k - 1);
      es :| ScrapedTo(states[k - 1], es);
      assert NextWithoutFault(states[k - 1], states[k]);
      var step :| Enabled(states[k - 1], step) && !step.Fail? && states[k] == Apply(states[k - 1], step);
      es := LoneStep(states[k - 1], step, es);
    }
    assert ScrapedTo(states[k], es);
  }

  // Two workers, one MAC

  const ENTRY := Entry(Addr(V4, 0x0A00_0001), 17)

  function Steps(): seq<Step> {
    [LookUpMac(0, ENTRY), LookUpMac(1, ENTRY), LookUpIp(0), LookUpIp(1), Create(0), Create(1), WriteMac(0), WriteMac(1)]
  }

  function Stored(device: nat): Row<Mac> { Row(Some(device), ENTRY.mac) }

  function Trace(): seq<State> {
    var e := ENTRY;
    [State(EMPTY, [Ready, Ready]),
     State(EMPTY, [MacMissed(e), Ready]),
     State(EMPTY, [MacMissed(e), MacMissed(e)]),
     State(EMPTY, [NoneFound(e), MacMissed(e)]),
     State(EMPTY, [NoneFound(e), NoneFound(e)]),
     State(Db(1, [], []), [Resolved(e, 0, true), NoneFound(e)]),
     State(Db(2, [], []), [Resolved(e, 0, true), Resolved(e, 1, true)]),
     State(Db(2, [Stored(0)], []), [MacWritten(e, 0), Resolved(e, 1, true)]),
     State(Db(2, [Stored(0), Stored(1)], []), [MacWritten(e, 0), MacWritten(e, 1)])]
  }

  /** Both workers miss the MAC of one entry, both create a device, and both rows are stored. */
  lemma {:induction false} TwoDevicesOneMac()
    ensures Execution(2, Trace()) && |Owners(Trace()[8].db.macs, ENTRY.mac)| == 2 && Find(Trace()[8].db.macs, ENTRY.mac) == Some(0)
  {
    var t := Trace();
    assert Init(2).workers == [Ready, Ready];
    forall k | 0 < k < |t| ensures Next(t[k - 1], t[k]) {
      assert Enabled(t[k - 1], Steps()[k - 1]) && t[k] == Apply(t[k - 1], Steps()[k - 1]);
    }
    assert t[8].db.macs[0].device == Some(0) && t[8].db.macs[1].device == Some(1);
    assert Owners(t[8].db.macs, ENTRY.mac) == {0, 1};
  }
}
