/** One worker's loop: claim a run, rewrite the configuration for it, execute it, settle it, restore. */
module WorkerRun {
  import opened Text
  import opened Inet
  import opened DiscoveryRuns
  import opened ScanConfig
  import P = RunProtocol

  datatype ScrapeCounts = ScrapeCounts(entries: nat, devicesSeen: nat, devicesCreated: nat)

  /** What the outside world answers during one run. Texts are error messages. */
  datatype Env = Env(
    claimError: bool, cancelledInDelay: Option<string>, pingAvailable: bool, pingError: string,
    cancelPingAfter: Option<nat>, pingSucceeded: nat, scrape: Result<ScrapeCounts, string>,
    enrichment: Option<Stat>, portScan: Option<Stat>, finishError: Option<string>, failError: bool, now: nat,
    beforeClaim: seq<P.Step>, duringClaim: seq<P.Step>, duringRun: seq<P.Step>)

  /** What a completed run reports; `attempted` is None when there was no scope to sweep. */
  datatype Report = Report(
    preset: Preset, tags: Option<seq<string>>, scope: Scope, scopeTargets: int, maxTargets: int, runtimeBudget: int,
    attempted: Option<nat>, succeeded: nat, found: ScrapeCounts, enrichment: Option<Stat>, portScan: Option<Stat>)

  /** How executing a claimed run ends, before its row is updated. */
  datatype Ending = Done(report: Report) | Broken(msg: string, stats: Stats)

  datatype Claim = Claim(index: nat, row: Run)

  function Lookup(stats: Stats, key: string): Option<Stat> { if key in stats then Some(stats[key]) else None }

  function PresetOf(row: Run): Preset { CanonicalPreset(Lookup(row.stats, "preset")) }

  /** The tags the run names; a nil slice counts as empty. */
  function TagsOf(row: Run): seq<string> {
    var tags := CanonicalTags(Lookup(row.stats, "tags"));
    if tags.Some? then tags.value else []
  }

  function ConfigFor(c: Config, row: Run): Config { RunConfig(c, PresetOf(row), TagsOf(row)) }

  function ScopeStat(s: Scope): Stat { if s == NoScope then Null else ScopeText(s) }

  function TagStat(tags: Option<seq<string>>): Stat { if tags.Some? then Strs(tags.value) else Null }

  function ScopeErrorText(p: Prefix, maxTargets: int, e: SweepError): string
    requires ValidPrefix(p)
  {
    if e == NotSingleV6 then "ipv6 scope must be a single IP (/128) for now"
    else if 32 - p.bits >= 31 then "scope too large (/" + Itoa(p.bits) + "); max targets is " + Itoa(maxTargets)
    else "scope too large (" + Itoa(Span(p)) + " targets); max targets is " + Itoa(maxTargets)
  }

  /** The stats failRun writes: the caller's scope and tags, and the budgets in force. */
  function FailStats(c: Config, row: Run, tags: Option<seq<string>>): Stats {
    map["scope" := ScopeStat(row.scope), "tags" := TagStat(tags), "stage" := Str("failed"),
        "max_targets" := Num(c.maxTargets), "runtime_budget_ms" := Num(c.maxRuntime),
        "ping_timeout_ms" := Num(c.pingTimeout), "ping_workers" := Num(c.pingWorkers)]
  }

  /** The stats of a run that completed. */
  function DoneStats(r: Report): Stats {
    var attempted := if r.attempted.Some? then r.attempted.value else 0;
    var base: Stats := map[
      "stage" := Str("completed"), "preset" := Str(PresetText(r.preset)), "scope" := ScopeStat(r.scope),
      "method" := Str(if r.attempted.Some? then "arp+icmp" else "arp"), "scope_targets" := Num(r.scopeTargets),
      "max_targets" := Num(r.maxTargets), "runtime_budget_ms" := Num(r.runtimeBudget),
      "ping_available" := Flag(r.attempted.Some?), "ping_attempted" := Num(attempted),
      "ping_succeeded" := Num(r.succeeded), "arp_entries" := Num(r.found.entries),
      "devices_seen" := Num(r.found.devicesSeen), "devices_created" := Num(r.found.devicesCreated)];
    var enriched := if r.enrichment.Some? then base["enrichment" := r.enrichment.value] else base;
    var scanned := if r.portScan.Some? then enriched["port_scan" := r.portScan.value] else enriched;
    if r.tags.Some? && |r.tags.value| > 0 then scanned["tags" := Strs(r.tags.value)] else scanned
  }

  function ReportOf(c: Config, row: Run, scopeTargets: int, attempted: Option<nat>, env: Env): Report
    requires env.scrape.Ok?
  {
    var sent := if attempted.Some? then attempted.value else 0;
    Report(PresetOf(row), CanonicalTags(Lookup(row.stats, "tags")), row.scope, scopeTargets, c.maxTargets, c.maxRuntime,
           attempted, if env.pingSucceeded > sent then sent else env.pingSucceeded, env.scrape.value,
           env.enrichment, env.portScan)
  }

  /** How a claimed run ends under configuration `c`. */
  function EndingOf(c: Config, delay: int, row: Run, env: Env): Ending {
    var tags := CanonicalTags(Lookup(row.stats, "tags"));
    var broken := FailStats(c, row, tags);
    if delay > 0 && env.cancelledInDelay.Some? then Broken(env.cancelledInDelay.value, broken)
    else
      match row.scope
      case BadScope(_) => Broken("invalid discovery scope", broken)
      case NoScope =>
        if env.scrape.Err? then Broken(env.scrape.error, broken)
        else Done(ReportOf(c, row, 0, None, env))
      case ScopePrefix(p) =>
        var count := CountScopeTargets(p, c.maxTargets);
        if count.Err? then Broken(ScopeErrorText(p, c.maxTargets, count.error), broken)
        else if SweepFault(p, c.maxTargets, env.pingAvailable, env.cancelPingAfter).Some? then Broken(env.pingError, broken)
        else if env.scrape.Err? then Broken(env.scrape.error, broken)
        else Done(ReportOf(c, row, count.value, Some(|SweepOf(p)|), env))
  }

  /** A run that completes had no scope, or one within the target budget in force, swept as announced unless it is IPv6. */
  lemma CompletedWithinBudget(c: Config, delay: int, row: Run, env: Env)
    requires EndingOf(c, delay, row, env).Done?
    ensures var r := EndingOf(c, delay, row, env).report;
      && r.maxTargets == c.maxTargets && !row.scope.BadScope? && (row.scope == NoScope <==> r.attempted.None?)
      && (r.attempted.Some? ==> r.succeeded <= r.attempted.value && r.scopeTargets > 0)
      && (r.attempted.Some? ==> (r.attempted.value == r.scopeTargets <==> row.scope.prefix.addr.family == V4))
      && (row.scope.ScopePrefix? && row.scope.prefix.addr.family == V4 ==>
            r.scopeTargets == Span(row.scope.prefix) <= c.maxTargets)
  {
  }

  // The runs table as the worker sees it

  predicate ByOthers(step: P.Step, me: nat) { step.Enqueue? || step.worker != me }

  /** The worker's slot, and the row it holds, are untouched by everyone else's steps. */
  ghost predicate MineKept(s: P.State, t: P.State, me: nat) {
    && |t.workers| == |s.workers| && |s.rows| <= |t.rows|
    && (me < |s.workers| ==> t.workers[me] == s.workers[me])
    && forall i :: 0 <= i < |s.rows| && me < |s.workers| && P.Holds(s.workers[me], i) ==>
      t.rows[i] == s.rows[i] && (i in t.abandoned <==> i in s.abandoned)
  }

  lemma OthersLeaveMine(s: P.State, step: P.Step, me: nat)
    requires P.Inv(s) && P.Enabled(s, step) && ByOthers(step, me)
    ensures MineKept(s, P.Apply(s, step), me)
  {
    if !step.Enqueue? && me < |s.workers| && s.workers[me] != P.Idle && s.workers[step.worker] != P.Idle {
      HeldApart(s, me, step.worker);
    }
  }

  lemma HeldApart(s: P.State, v: nat, w: nat)
    requires P.Exclusive(s) && v < |s.workers| && w < |s.workers| && v != w
    requires s.workers[v] != P.Idle && s.workers[w] != P.Idle
    ensures s.workers[v].run != s.workers[w].run
  {
    var a, b := if v < w then v else w, if v < w then w else v;
    assert s.workers[a].run != s.workers[b].run;
  }

  lemma ExecutionExtends(n: nat, states: seq<P.State>, step: P.Step)
    requires P.Execution(n, states) && P.Enabled(states[|states| - 1], step)
    ensures P.Execution(n, states + [P.Apply(states[|states| - 1], step)])
  {
    var s, t := states[|states| - 1], P.Apply(states[|states| - 1], step);
    var longer := states + [t];
    assert P.Next(s, t);
    forall k | 0 < k < |longer| ensures P.Next(longer[k - 1], longer[k]) {
      if k < |states| { assert P.Next(states[k - 1], states[k]); }
    }
  }

  /** The shared table; `trace` is the execution that led to its present state. */
  class RunTable {
    const n: nat
    var state: P.State
    ghost var trace: seq<P.State>

    ghost predicate Valid()
      reads this
    {
      P.Execution(n, trace) && state == trace[|trace| - 1] && |state.workers| == n
    }

    constructor (workers: nat)
      ensures Valid() && n == workers && state == P.Init(workers)
    {
      n := workers;
      state := P.Init(workers);
      trace := [P.Init(workers)];
    }

    method Take(step: P.Step)
      requires Valid() && P.Enabled(state, step)
      modifies this
      ensures Valid() && state == P.Apply(old(state), step) && old(trace) < trace
    {
      ExecutionExtends(n, trace, step);
      state := P.Apply(state, step);
      trace := trace + [state];
    }

    /** Other workers and the API get their turn: of the offered steps, those that are possible happen. */
    method Interfere(me: nat, steps: seq<P.Step>)
      requires Valid()
      modifies this
      ensures Valid() && MineKept(old(state), state, me) && old(trace) <= trace
    {
      for k := 0 to |steps|
        invariant Valid() && MineKept(old(state), state, me) && old(trace) <= trace
      {
        if P.Enabled(state, steps[k]) && ByOthers(steps[k], me) {
          P.ExecutionInv(n, trace, |trace| - 1);
          OthersLeaveMine(state, steps[k], me);
          Take(steps[k]);
        }
      }
    }

    /** The row the claim statement's inner SELECT picks. */
    method PickOldest() returns (pick: Option<nat>)
      requires Valid()
      ensures pick.Some? ==> OldestQueued(state.rows, P.LockedRows(state.workers), pick.value)
      ensures pick.None? ==> NoneQueued(state.rows, P.LockedRows(state.workers))
    {
      P.ExecutionInv(n, trace, |trace| - 1);
      var locked := P.LockedRows(state.workers);
      for i := 0 to |state.rows|
        invariant forall j :: 0 <= j < i && state.rows[j].status == Queued ==> j in locked
      {
        if state.rows[i].status == Queued && i !in locked { return Some(i); }
      }
      return None;
    }
  }

  ghost predicate OldestAt(trace: seq<P.State>, k: int, i: int) {
    0 <= k < |trace| && OldestQueued(trace[k].rows, P.LockedRows(trace[k].workers), i)
  }

  /** At some point from the `from`th state on, row `i` was the oldest queued row not locked by another claim. */
  ghost predicate WasOldest(trace: seq<P.State>, from: nat, i: int) {
    exists k :: from - 1 <= k && OldestAt(trace, k, i)
  }

  lemma OldestStays(earlier: seq<P.State>, later: seq<P.State>, from: nat, i: int)
    requires earlier <= later && WasOldest(earlier, from, i)
    ensures WasOldest(later, from, i)
  {
    var k :| from - 1 <= k && OldestAt(earlier, k, i);
    assert OldestAt(later, k, i);
  }

  // One run

  method FailStatsOf(w: Worker, row: Run, tags: Option<seq<string>>) returns (stats: Stats)
    ensures stats == FailStats(w.Current(), row, tags)
  {
    stats := map["scope" := ScopeStat(row.scope), "tags" := TagStat(tags)];
    stats := stats["stage" := Str("failed")]["max_targets" := Num(w.maxTargets)];
    stats := stats["runtime_budget_ms" := Num(w.maxRuntime)]["ping_timeout_ms" := Num(w.pingTimeout)];
    stats := stats["ping_workers" := Num(w.pingWorkers)];
  }

  /** The part of runOnce between the configuration rewrite and the row update. */
  method Execute(w: Worker, row: Run, tags: Option<seq<string>>, env: Env) returns (ending: Ending)
    requires tags == CanonicalTags(Lookup(row.stats, "tags"))
    ensures ending == EndingOf(w.Current(), w.runDelay, row, env)
  {
    var broken := FailStatsOf(w, row, tags);
    if w.runDelay > 0 && env.cancelledInDelay.Some? { return Broken(env.cancelledInDelay.value, broken); }
    if row.scope.BadScope? { return Broken("invalid discovery scope", broken); }
    var scopeTargets := 0;
    var attempted: Option<nat> := None;
    if row.scope.ScopePrefix? {
      var count := CountScopeTargets(row.scope.prefix, w.maxTargets);
      if count.Err? { return Broken(ScopeErrorText(row.scope.prefix, w.maxTargets, count.error), broken); }
      scopeTargets := count.value;
      var sent, err := SweepAddresses(row.scope.prefix, w.maxTargets, env.pingAvailable, env.cancelPingAfter);
      if err.Some? { return Broken(env.pingError, broken); }
      attempted := Some(|sent|);
    }
    if env.scrape.Err? { return Broken(env.scrape.error, broken); }
    return Done(ReportOf(w.Current(), row, scopeTargets, attempted, env));
  }

  /** The row runOnce leaves behind for a run it claimed. */
  function SettledRow(c: Config, delay: int, row: Run, env: Env): Run {
    var ending := EndingOf(c, delay, row, env);
    if ending.Done? && env.finishError.None? then FinishedRun(row, DoneStats(ending.report), env.now)
    else if env.failError then row
    else if ending.Done? then
      FailedRun(row, env.finishError.value, FailStats(c, row, CanonicalTags(Lookup(row.stats, "tags"))), env.now)
    else FailedRun(row, ending.msg, ending.stats, env.now)
  }

  /** Whether runOnce reports an error for a claimed run. */
  predicate Fails(c: Config, delay: int, row: Run, env: Env) {
    EndingOf(c, delay, row, env).Broken? || env.finishError.Some?
  }

  /**
   * A claimed run never stays running unless the failure update itself errored; otherwise it succeeds exactly when
   * nothing failed, with an error text exactly when it failed, and it keeps its identity, scope and preset.
   */
  lemma SettledStatus(c: Config, delay: int, row: Run, env: Env)
    requires Coherent(row) && row.status == Running
    ensures var r := SettledRow(c, delay, row, env);
      && Coherent(r) && r.id == row.id && r.scope == row.scope && r.startedAt == row.startedAt
      && (r.status == Running <==> Fails(c, delay, row, env) && env.failError)
      && (r.status == Succeeded <==> !Fails(c, delay, row, env))
      && (r.status == Failed <==> Fails(c, delay, row, env) && !env.failError)
      && (Terminal(r.status) ==> r.completedAt == Some(env.now))
  {
    var ending := EndingOf(c, delay, row, env);
    if ending.Done? { RowEffectsCoherent(row, "", DoneStats(ending.report), env.now); }
    if ending.Broken? { RowEffectsCoherent(row, ending.msg, ending.stats, env.now); }
  }

  /** Updates the row for how the run ended; `failed` is whether runOnce reports an error. */
  method Settle(w: Worker, table: RunTable, me: nat, claim: Claim, tags: Option<seq<string>>, ending: Ending, env: Env)
    returns (failed: bool)
    requires table.Valid() && me < table.n && table.state.workers[me] == P.Executing(claim.index)
    requires claim.index < |table.state.rows| && table.state.rows[claim.index] == claim.row
    requires claim.row.status == Running && claim.index !in table.state.abandoned
    requires tags == CanonicalTags(Lookup(claim.row.stats, "tags"))
    requires ending == EndingOf(w.Current(), w.runDelay, claim.row, env)
    modifies table
    ensures table.Valid() && table.state.workers[me] == P.Idle && old(table.trace) < table.trace
    ensures claim.index < |table.state.rows|
    ensures table.state.rows[claim.index] == SettledRow(w.Current(), w.runDelay, claim.row, env)
    ensures failed <==> Fails(w.Current(), w.runDelay, claim.row, env)
    ensures claim.index in table.state.abandoned <==> failed && env.failError
  {
    if ending.Done? && env.finishError.None? {
      table.Take(P.Finish(me, DoneStats(ending.report), env.now));
      return false;
    }
    table.Take(P.GiveUp(me));
    if env.failError {
      table.Take(P.Abandon(me));
    } else if ending.Done? {
      var stats := FailStatsOf(w, claim.row, tags);
      table.Take(P.Fail(me, env.finishError.value, stats, env.now));
    } else {
      table.Take(P.Fail(me, ending.msg, ending.stats, env.now));
    }
    return true;
  }

  /** ClaimNextDiscoveryRun: locks the oldest run this worker can have and marks it running. */
  method ClaimNext(table: RunTable, me: nat, env: Env) returns (claim: Option<Claim>)
    requires table.Valid() && me < table.n && table.state.workers[me] == P.Idle
    modifies table
    ensures table.Valid() && old(table.trace) <= table.trace
    ensures claim.None? ==> table.state.workers[me] == P.Idle
    ensures claim.Some? ==>
      && !env.claimError && table.state.workers[me] == P.Executing(claim.value.index)
      && claim.value.index < |table.state.rows| && table.state.rows[claim.value.index] == claim.value.row
      && claim.value.row.status == Running && claim.value.index !in table.state.abandoned
      && WasOldest(table.trace, |old(table.trace)|, claim.value.index)
  {
    table.Interfere(me, env.beforeClaim);
    var pick := table.PickOldest();
    if pick.None? {
      table.Take(P.FoundNone(me));
      return None;
    }
    ghost var at := |table.trace| - 1;
    table.Take(P.Lock(me, pick.value));
    table.Interfere(me, env.duringClaim);
    if env.claimError {
      table.Take(P.Abort(me));
      return None;
    }
    table.Take(P.Commit(me));
    assert OldestAt(table.trace, at, pick.value);
    P.ExecutionInv(table.n, table.trace, |table.trace| - 1);
    assert P.WorkerAgrees(table.state, table.state.workers[me]);
    return Some(Claim(pick.value, table.state.rows[pick.value]));
  }

  /** Executes a claimed run under the rewritten configuration `c` while others work on, and settles it. */
  method Conduct(w: Worker, table: RunTable, me: nat, claim: Claim, tags: Option<seq<string>>, env: Env, ghost c: Config)
    returns (failed: bool)
    requires table.Valid() && me < table.n && table.state.workers[me] == P.Executing(claim.index)
    requires claim.index < |table.state.rows| && table.state.rows[claim.index] == claim.row
    requires claim.row.status == Running && claim.index !in table.state.abandoned
    requires tags == CanonicalTags(Lookup(claim.row.stats, "tags")) && c == w.Current()
    modifies table
    ensures table.Valid() && table.state.workers[me] == P.Idle && old(table.trace) <= table.trace
    ensures claim.index < |table.state.rows|
    ensures table.state.rows[claim.index] == SettledRow(c, w.runDelay, claim.row, env)
    ensures failed == Fails(c, w.runDelay, claim.row, env)
  {
    var ending := Execute(w, claim.row, tags, env);
    table.Interfere(me, env.duringRun);
    assert P.Holds(table.state.workers[me], claim.index);
    failed := Settle(w, table, me, claim, tags, ending, env);
  }

  /** The two configuration rewrites at the start of a run. */
  method Rewrite(w: Worker, row: Run) returns (tags: Option<seq<string>>, preset: PresetSnapshot, flags: TagSnapshot)
    modifies w
    ensures tags == CanonicalTags(Lookup(row.stats, "tags"))
    ensures w.Current() == ConfigFor(old(w.Current()), row)
    ensures preset == SavePreset(old(w.Current()))
    ensures flags == SaveTags(PresetConfig(old(w.Current()), PresetOf(row)), TagsOf(row))
  {
    preset := w.ApplyScanPreset(PresetOf(row));
    tags := CanonicalizeScanTags(Lookup(row.stats, "tags"));
    flags := w.ApplyScanTags(if tags.Some? then tags.value else []);
  }

  /** The deferred restores, last deferred first. */
  method Restore(w: Worker, preset: PresetSnapshot, flags: TagSnapshot)
    modifies w
    ensures w.Current() == LoadPreset(LoadTags(old(w.Current()), flags), preset)
  {
    w.RestoreTags(flags);
    w.RestorePreset(preset);
  }

  /**
   * runOnce. Whatever happens outside, the configuration afterwards is the one before, the claimed run was the oldest
   * this worker could have, and its row ends finished or failed unless the failure update itself errored.
   */
  method RunOnce(w: Worker, table: RunTable, me: nat, env: Env)
    returns (processed: bool, failed: bool, claim: Option<Claim>)
    requires table.Valid() && me < table.n && table.state.workers[me] == P.Idle
    modifies w, table
    ensures w.Current() == old(w.Current())
    ensures table.Valid() && table.state.workers[me] == P.Idle && old(table.trace) <= table.trace
    ensures processed <==> claim.Some?
    ensures claim.Some? ==> claim.value.index < |table.state.rows|
    ensures claim.Some? ==>
      (table.state.rows[claim.value.index]
       == SettledRow(ConfigFor(old(w.Current()), claim.value.row), w.runDelay, claim.value.row, env))
    ensures claim.Some? ==>
      claim.value.row.status == Running && WasOldest(table.trace, |old(table.trace)|, claim.value.index)
    ensures claim.Some? ==>
      failed == Fails(ConfigFor(old(w.Current()), claim.value.row), w.runDelay, claim.value.row, env)
    ensures claim.None? ==> (failed <==> env.claimError)
  {
    claim := ClaimNext(table, me, env);
    if claim.None? { return false, env.claimError, None; }
    var row := claim.value.row;
    ghost var before, claimedBy := w.Current(), table.trace;
    var tags, preset, flags := Rewrite(w, row);
    failed := Conduct(w, table, me, claim.value, tags, env, ConfigFor(before, row));
    Restore(w, preset, flags);
    UndoRestores(before, PresetOf(row), TagsOf(row));
    OldestStays(claimedBy, table.trace, |old(table.trace)|, claim.value.index);
    return true, failed, claim;
  }

  /** The polling loop of Run between two timer ticks: runs until the queue is empty or a run fails. */
  method Drain(w: Worker, table: RunTable, me: nat, envs: seq<Env>, failures: nat, interval: int)
    returns (failuresNow: nat, wait: int)
    requires table.Valid() && me < table.n && table.state.workers[me] == P.Idle
    modifies w, table
    ensures w.Current() == old(w.Current())
    ensures table.Valid() && table.state.workers[me] == P.Idle && old(table.trace) <= table.trace
    ensures failuresNow <= failures + 1 && wait == Backoff(interval, failuresNow)
  {
    failuresNow := failures;
    for k := 0 to |envs|
      invariant w.Current() == old(w.Current())
      invariant table.Valid() && table.state.workers[me] == P.Idle && old(table.trace) <= table.trace
      invariant failuresNow <= failures
    {
      var processed, failed, claim := RunOnce(w, table, me, envs[k]);
      if failed {
        failuresNow := failuresNow + 1;
        break;
      }
      failuresNow := 0;
      if !processed { break; }
    }
    wait := Backoff(interval, failuresNow);
  }
}
