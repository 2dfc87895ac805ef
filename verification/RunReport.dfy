/** What a completed run's row shows, key by key: the scrape's counts, the sweep, and the budgets in force. */
module RunReport {
  import opened Text
  import opened Inet
  import opened DiscoveryRuns
  import opened ScanConfig
  import opened WorkerRun
  import Arp = ArpScrape

  predicate Shows(stats: Stats, key: string, value: Stat) { Lookup(stats, key) == Some(value) }

  /** How many targets a scope counts for, and how many addresses its sweep tries. */
  function ScopeCount(s: Scope): nat {
    match s
    case ScopePrefix(p) => if p.addr.family == V4 then Span(p) else 1
    case _ => 0
  }

  function SweepCount(s: Scope): nat {
    match s
    case ScopePrefix(p) => if p.addr.family == V4 then Span(p) else 0
    case _ => 0
  }

  /** The counts of the ARP scrape. */
  predicate ShowsScrape(stats: Stats, found: ScrapeCounts) {
    && Shows(stats, "arp_entries", Num(found.entries))
    && Shows(stats, "devices_seen", Num(found.devicesSeen))
    && Shows(stats, "devices_created", Num(found.devicesCreated))
  }

  /** The sweep: what was tried, that no more answered, and how devices were looked for. */
  predicate ShowsSweep(stats: Stats, scope: Scope, answered: nat) {
    && Shows(stats, "ping_attempted", Num(SweepCount(scope)))
    && Shows(stats, "ping_succeeded", Num(if answered < SweepCount(scope) then answered else SweepCount(scope)))
    && Shows(stats, "ping_available", Flag(scope.ScopePrefix?))
    && Shows(stats, "method", Str(if scope.ScopePrefix? then "arp+icmp" else "arp"))
  }

  /** The scope and the budgets the run worked under. */
  predicate ShowsBudgets(stats: Stats, scope: Scope, c: Config) {
    && Shows(stats, "scope_targets", Num(ScopeCount(scope)))
    && Shows(stats, "max_targets", Num(c.maxTargets))
    && Shows(stats, "runtime_budget_ms", Num(c.maxRuntime))
    && Shows(stats, "scope", if scope == NoScope then Null else ScopeText(scope))
    && (scope.ScopePrefix? && (scope.prefix.addr.family == V4 || c.maxTargets >= 1) ==> ScopeCount(scope) <= c.maxTargets)
  }

  /** What enrichment and port scan reported, or what was stored before when they reported nothing. */
  predicate ShowsExtras(stats: Stats, before: Stats, env: Env) {
    && Lookup(stats, "enrichment") == (if env.enrichment.Some? then env.enrichment else Lookup(before, "enrichment"))
    && Lookup(stats, "port_scan") == (if env.portScan.Some? then env.portScan else Lookup(before, "port_scan"))
  }

  /** A failed row carries the message of what went wrong: what broke the run off, or why it could not be marked done. */
  lemma FailureText(c: Config, delay: int, row: Run, env: Env)
    requires row.status == Running && SettledRow(c, delay, row, env).status == Failed
    ensures var ending := EndingOf(c, delay, row, env);
      SettledRow(c, delay, row, env).lastError == if ending.Broken? then Some(ending.msg) else env.finishError
  {
  }

  /** What a refused scope is told. */
  lemma ScopeErrors(p: ParsedPrefix, maxTargets: int)
    ensures ScopeErrorText(p, maxTargets, NotSingleV6) == "ipv6 scope must be a single IP (/128) for now"
    ensures ScopeErrorText(p, maxTargets, TooLarge)
      == "scope too large (" + (if p.bits <= 1 then "/" + Itoa(p.bits) else Itoa(Span(p)) + " targets")
         + "); max targets is " + Itoa(maxTargets)
  {
    if p.bits <= 1 {
      assert "scope too large (/" == "scope too large (" + "/";
      assert "scope too large (/" + Itoa(p.bits) + "); max targets is "
          == "scope too large (" + ("/" + Itoa(p.bits)) + "); max targets is ";
    } else {
      assert " targets); max targets is " == " targets" + "); max targets is ";
      assert "scope too large (" + Itoa(Span(p)) + " targets); max targets is "
          == "scope too large (" + (Itoa(Span(p)) + " targets") + "); max targets is ";
    }
  }

  // Reading single keys of the stats

  /** Two keys that differ in length or in their `i`th character. */
  lemma Apart(a: string, b: string, i: nat)
    requires |a| != |b| || (i < |a| && a[i] != b[i])
    ensures a != b
  {
  }

  lemma ScrapeKeys(r: Report)
    ensures ShowsScrape(DoneStats(r), r.found)
  {
    Apart("arp_entries", "devices_seen", 0);
    assert |"arp_entries"| == 11 && |"devices_seen"| == 12 && |"devices_created"| == 15;
    assert |"enrichment"| == 10 && |"port_scan"| == 9 && |"tags"| == 4;
  }

  lemma SweepKeys(r: Report)
    ensures var stats := DoneStats(r);
      && Shows(stats, "ping_attempted", Num(if r.attempted.Some? then r.attempted.value else 0))
      && Shows(stats, "ping_succeeded", Num(r.succeeded)) && Shows(stats, "ping_available", Flag(r.attempted.Some?))
      && Shows(stats, "method", Str(if r.attempted.Some? then "arp+icmp" else "arp"))
  {
    assert |"ping_attempted"| == 14 && |"ping_succeeded"| == 14 && |"ping_available"| == 14 && |"method"| == 6;
    assert "ping_available"[6] == 'v' && "ping_attempted"[6] == 't' && "ping_succeeded"[6] == 'u';
    assert |"scope_targets"| == 13 && |"max_targets"| == 11 && |"runtime_budget_ms"| == 17;
    assert |"arp_entries"| == 11 && |"devices_seen"| == 12 && |"devices_created"| == 15;
    assert |"enrichment"| == 10 && |"port_scan"| == 9 && |"tags"| == 4;
  }

  lemma ScopeKey(r: Report)
    ensures Shows(DoneStats(r), "scope", ScopeStat(r.scope))
  {
    assert |"scope"| == 5 && |"method"| == 6 && |"scope_targets"| == 13 && |"max_targets"| == 11;
    assert |"runtime_budget_ms"| == 17 && |"ping_available"| == 14 && |"ping_attempted"| == 14;
    assert |"ping_succeeded"| == 14 && |"arp_entries"| == 11 && |"devices_seen"| == 12 && |"devices_created"| == 15;
    assert |"enrichment"| == 10 && |"port_scan"| == 9 && |"tags"| == 4;
  }

  lemma BudgetKeys(r: Report)
    ensures var stats := DoneStats(r);
      && Shows(stats, "scope_targets", Num(r.scopeTargets)) && Shows(stats, "max_targets", Num(r.maxTargets))
      && Shows(stats, "runtime_budget_ms", Num(r.runtimeBudget))
  {
    assert |"scope_targets"| == 13 && |"max_targets"| == 11 && |"runtime_budget_ms"| == 17;
    assert |"arp_entries"| == 11 && "arp_entries"[0] == 'a' && "max_targets"[0] == 'm';
    assert |"ping_attempted"| == 14 && |"ping_succeeded"| == 14 && |"ping_available"| == 14;
    assert |"devices_seen"| == 12 && |"devices_created"| == 15;
    assert |"enrichment"| == 10 && |"port_scan"| == 9 && |"tags"| == 4;
  }

  lemma ExtraKeys(r: Report)
    ensures Lookup(DoneStats(r), "enrichment") == r.enrichment && Lookup(DoneStats(r), "port_scan") == r.portScan
  {
    assert |"enrichment"| == 10 && |"port_scan"| == 9 && |"tags"| == 4 && |"stage"| == 5 && |"preset"| == 6;
    assert |"scope"| == 5 && |"method"| == 6 && |"scope_targets"| == 13 && |"max_targets"| == 11;
    assert |"runtime_budget_ms"| == 17 && |"ping_available"| == 14 && |"ping_attempted"| == 14;
    assert |"ping_succeeded"| == 14 && |"arp_entries"| == 11 && |"devices_seen"| == 12 && |"devices_created"| == 15;
  }

  /** What a run that completes reports, from its row, the configuration in force and the world's answers. */
  lemma ReportContents(c: Config, delay: int, row: Run, env: Env)
    requires EndingOf(c, delay, row, env).Done?
    ensures var r := EndingOf(c, delay, row, env).report;
      && env.scrape == Ok(r.found) && r.scope == row.scope && !row.scope.BadScope?
      && r.scopeTargets == ScopeCount(row.scope) && r.maxTargets == c.maxTargets && r.runtimeBudget == c.maxRuntime
      && (row.scope == NoScope ==> r.attempted == None)
      && (row.scope.ScopePrefix? ==> r.attempted == Some(SweepCount(row.scope)))
      && r.succeeded == (if env.pingSucceeded < SweepCount(row.scope) then env.pingSucceeded else SweepCount(row.scope))
      && r.enrichment == env.enrichment && r.portScan == env.portScan
      && (row.scope.ScopePrefix? && (row.scope.prefix.addr.family == V4 || c.maxTargets >= 1) ==>
            ScopeCount(row.scope) <= c.maxTargets)
  {
  }

  /** Merging into the row keeps what a completed run reports, but for the stage. */
  lemma MergedKey(row: Run, stats: Stats, now: nat, key: string)
    requires key != "stage"
    ensures Lookup(FinishedRun(row, stats, now).stats, key) == if key in stats then Lookup(stats, key) else Lookup(row.stats, key)
  {
  }

  lemma NoneIsStage()
    ensures "stage" !in {"arp_entries", "devices_seen", "devices_created", "ping_attempted", "ping_succeeded",
                         "ping_available", "method", "scope_targets", "max_targets", "runtime_budget_ms", "scope",
                         "enrichment", "port_scan"}
  {
    assert |"stage"| == 5 && "stage"[1] == 't' && |"scope"| == 5 && "scope"[1] == 'c';
    assert |"arp_entries"| == 11 && |"devices_seen"| == 12 && |"devices_created"| == 15 && |"ping_attempted"| == 14;
    assert |"ping_succeeded"| == 14 && |"ping_available"| == 14 && |"method"| == 6 && |"scope_targets"| == 13;
    assert |"max_targets"| == 11 && |"runtime_budget_ms"| == 17 && |"enrichment"| == 10 && |"port_scan"| == 9;
  }

  ghost predicate Reported(c: Config, row: Run, env: Env, stats: Stats) {
    && env.scrape.Ok? && ShowsScrape(stats, env.scrape.value) && ShowsSweep(stats, row.scope, env.pingSucceeded)
    && ShowsBudgets(stats, row.scope, c) && ShowsExtras(stats, row.stats, env)
  }

  /** The row of a run that succeeded shows the scrape's counts, the sweep of its scope, and the budgets it ran under. */
  lemma SucceededReports(c: Config, delay: int, row: Run, env: Env)
    requires row.status == Running && SettledRow(c, delay, row, env).status == Succeeded
    ensures Reported(c, row, env, SettledRow(c, delay, row, env).stats)
  {
    assert EndingOf(c, delay, row, env).Done?;
    ReportContents(c, delay, row, env);
    var report := EndingOf(c, delay, row, env).report;
    ScrapeKeys(report);
    SweepKeys(report);
    BudgetKeys(report);
    ScopeKey(report);
    ExtraKeys(report);
    MergedReport(c, row, env, report);
  }

  lemma MergedKeys(row: Run, stats: Stats, now: nat)
    ensures forall key, value :: key != "stage" && Shows(stats, key, value) ==>
      Shows(FinishedRun(row, stats, now).stats, key, value)
  {
    forall key, value | key != "stage" && Shows(stats, key, value)
      ensures Shows(FinishedRun(row, stats, now).stats, key, value)
    {
      MergedKey(row, stats, now, key);
    }
  }

  lemma MergedReport(c: Config, row: Run, env: Env, r: Report)
    requires env.scrape == Ok(r.found) && ShowsScrape(DoneStats(r), r.found)
    requires ShowsSweep(DoneStats(r), row.scope, env.pingSucceeded) && ShowsBudgets(DoneStats(r), row.scope, c)
    requires Lookup(DoneStats(r), "enrichment") == env.enrichment && Lookup(DoneStats(r), "port_scan") == env.portScan
    ensures Reported(c, row, env, FinishedRun(row, DoneStats(r), env.now).stats)
  {
    NoneIsStage();
    MergedKeys(row, DoneStats(r), env.now);
    MergedKey(row, DoneStats(r), env.now, "enrichment");
    MergedKey(row, DoneStats(r), env.now, "port_scan");
  }

  function ScopeOf(row: Run): Option<ParsedPrefix> {
    if row.scope.ScopePrefix? then Some(row.scope.prefix) else None
  }

  /** The counts of a scrape that saw `seen` entries, in the row of a run that succeeds. */
  ghost predicate CountsShown(r: Run, seen: nat, created: int) {
    r.status == Succeeded ==>
      && Shows(r.stats, "arp_entries", Num(seen)) && Shows(r.stats, "devices_seen", Num(seen))
      && Shows(r.stats, "devices_created", Num(created))
  }

  lemma ScrapeCountsShown(c: Config, delay: int, row: Run, env: Env, seen: nat, created: nat)
    requires row.status == Running && (env.scrape.Ok? ==> env.scrape.value == ScrapeCounts(seen, seen, created))
    ensures CountsShown(SettledRow(c, delay, row, env), seen, created)
  {
    if SettledRow(c, delay, row, env).status == Succeeded { SucceededReports(c, delay, row, env); }
  }

  ghost function Seen(table: Result<seq<Arp.Entry>, Arp.ReadError>, scope: Option<ParsedPrefix>): nat {
    if table.Ok? then |Arp.InScope(table.value, scope)| else 0
  }

  /** What scrapeARP tells the run. */
  method ScrapeForRun(inv: Arp.Inventory, table: Result<seq<Arp.Entry>, Arp.ReadError>, scope: Option<ParsedPrefix>,
                      run: string, faults: map<nat, nat>) returns (scrape: Result<ScrapeCounts, string>)
    modifies inv
    ensures scrape.Ok? ==>
      && scrape.value.entries == scrape.value.devicesSeen == Seen(table, scope)
      && scrape.value.devicesCreated == inv.devices - old(inv.devices)
  {
    var counts, ok := inv.ScrapeARP(table, scope, run, faults);
    if !ok { return Err("scrape failed"); }
    return Ok(ScrapeCounts(counts.arpEntries, counts.devicesSeen, counts.devicesCreated));
  }

  /**
   * The scrape of a claimed run and the row it leaves: of a run that succeeds, devices_created is how many devices the
   * inventory gained, and arp_entries and devices_seen are both the number of table entries in scope.
   */
  method ScrapeAndSettle(inv: Arp.Inventory, table: Result<seq<Arp.Entry>, Arp.ReadError>, faults: map<nat, nat>, c: Config,
                         delay: int, row: Run, world: Env)
    returns (settled: Run)
    requires row.status == Running
    modifies inv
    ensures CountsShown(settled, Seen(table, ScopeOf(row)), inv.devices - old(inv.devices))
  {
    var scrape := ScrapeForRun(inv, table, ScopeOf(row), row.id, faults);
    var env := world.(scrape := scrape);
    if scrape.Ok? {
      ScrapeCountsShown(c, delay, row, env, scrape.value.entries, scrape.value.devicesCreated);
    } else {
      ScrapeCountsShown(c, delay, row, env, 0, 0);
    }
    settled := SettledRow(c, delay, row, env);
  }
}
