/** The discovery_runs table: its rows and the statements that change them. */
module DiscoveryRuns {
  import opened Text
  import opened Inet

  datatype Status = Queued | Running | Succeeded | Failed

  /** JSON values kept in the stats column. */
  datatype Stat = Null | Str(s: string) | Num(n: int) | Flag(b: bool) | List(items: seq<Stat>) | ScopeText(scope: Scope)

  function Strs(ss: seq<string>): Stat { List(seq(|ss|, i requires 0 <= i < |ss| => Str(ss[i]))) }

  /** The scope column, as parseDiscoveryScope reads it. */
  datatype Scope = NoScope | BadScope(raw: string) | ScopePrefix(prefix: ParsedPrefix)

  type Stats = map<string, Stat>

  datatype Run = Run(id: string, status: Status, scope: Scope, stats: Stats, startedAt: nat,
                     completedAt: Option<nat>, lastError: Option<string>)

  function StageOf(s: Status): string {
    match s
    case Queued => "queued"
    case Running => "running"
    case Succeeded => "completed"
    case Failed => "failed"
  }

  predicate Terminal(s: Status) { s == Succeeded || s == Failed }

  /** The stage in stats follows the status; completion and error fields are set exactly when they mean something. */
  predicate Coherent(r: Run) {
    && "stage" in r.stats && r.stats["stage"] == Str(StageOf(r.status))
    && (r.completedAt.Some? <==> Terminal(r.status))
    && (r.lastError.Some? <==> r.status == Failed)
  }

  /** InsertDiscoveryRun as handleDiscoveryRun calls it. */
  function EnqueuedRun(id: string, scope: Scope, preset: string, tags: seq<string>, now: nat): Run {
    var stats := map["stage" := Str("queued"), "preset" := Str(preset)];
    Run(id, Queued, scope, if |tags| > 0 then stats["tags" := Strs(tags)] else stats, now, None, None)
  }

  /** The row effect of ClaimNextDiscoveryRun. */
  function ClaimedRun(r: Run): Run {
    r.(status := Running, stats := r.stats + map["stage" := Str("running")], completedAt := None, lastError := None)
  }

  /** The row effect of UpdateDiscoveryRun; stats are merged key by key. */
  function UpdatedRun(r: Run, status: Status, stats: Stats, completedAt: Option<nat>, lastError: Option<string>): Run {
    r.(status := status, stats := r.stats + stats, completedAt := completedAt, lastError := lastError)
  }

  function FinishedRun(r: Run, stats: Stats, now: nat): Run {
    UpdatedRun(r, Succeeded, stats["stage" := Str("completed")], Some(now), None)
  }

  function FailedRun(r: Run, msg: string, stats: Stats, now: nat): Run {
    UpdatedRun(r, Failed, stats["stage" := Str("failed")], Some(now), Some(msg))
  }

  lemma RowEffectsCoherent(r: Run, msg: string, stats: Stats, now: nat)
    ensures Coherent(ClaimedRun(r)) && Coherent(FinishedRun(r, stats, now)) && Coherent(FailedRun(r, msg, stats, now))
  {
  }

  /** Rows are kept in creation order. */
  predicate InOrder(rows: seq<Run>) {
    && (forall i, j :: 0 <= i < j < |rows| ==> rows[i].startedAt < rows[j].startedAt)
    && (forall i, j :: 0 <= i < j < |rows| ==> rows[i].id != rows[j].id)
  }

  /** Row `i` is the oldest queued row outside `locked`: what SKIP LOCKED ... ORDER BY started_at LIMIT 1 picks. */
  predicate OldestQueued(rows: seq<Run>, locked: set<nat>, i: int) {
    && 0 <= i < |rows| && rows[i].status == Queued && i !in locked
    && forall j :: 0 <= j < |rows| && rows[j].status == Queued && j !in locked ==> rows[i].startedAt <= rows[j].startedAt
  }

  predicate NoneQueued(rows: seq<Run>, locked: set<nat>) {
    forall j :: 0 <= j < |rows| ==> rows[j].status == Queued ==> j in locked
  }
}
