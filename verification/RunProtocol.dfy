/**
 * Any number of workers over one runs table. A claim locks the oldest queued row that no other claim holds,
 * then commits or aborts; a claimed run is finished, or failed, by the worker that claimed it.
 */
module RunProtocol {
  import opened Text
  import opened DiscoveryRuns

  datatype Worker = Idle | Locking(run: nat) | Executing(run: nat) | Failing(run: nat)

  /** `claims` records committed claims in order; `abandoned` the runs whose failure update itself errored. */
  datatype State = State(rows: seq<Run>, workers: seq<Worker>, claims: seq<nat>, abandoned: set<nat>)

  datatype Step =
    | Enqueue(id: string, scope: Scope, preset: string, tags: seq<string>, now: nat)
    | Lock(worker: nat, row: nat)
    | FoundNone(worker: nat)
    | Commit(worker: nat)
    | Abort(worker: nat)
    | Finish(worker: nat, stats: Stats, now: nat)
    | GiveUp(worker: nat)
    | Fail(worker: nat, msg: string, stats: Stats, now: nat)
    | Abandon(worker: nat)

  predicate Holds(w: Worker, i: nat) { w != Idle && w.run == i }

  function LockedRows(workers: seq<Worker>): set<nat> {
    set k | 0 <= k < |workers| && workers[k].Locking? :: workers[k].run
  }

  function Init(n: nat): State { State([], seq(n, _ => Idle), [], {}) }

  predicate Enabled(s: State, step: Step) {
    match step
    case Enqueue(id, scope, preset, tags, now) =>
      && (forall i :: 0 <= i < |s.rows| ==> s.rows[i].startedAt < now && s.rows[i].id != id)
    case Lock(w, i) => w < |s.workers| && s.workers[w] == Idle && OldestQueued(s.rows, LockedRows(s.workers), i)
    case FoundNone(w) => w < |s.workers| && s.workers[w] == Idle && NoneQueued(s.rows, LockedRows(s.workers))
    case Commit(w) => w < |s.workers| && s.workers[w].Locking? && s.workers[w].run < |s.rows|
    case Abort(w) => w < |s.workers| && s.workers[w].Locking?
    case Finish(w, _, _) => w < |s.workers| && s.workers[w].Executing? && s.workers[w].run < |s.rows|
    case GiveUp(w) => w < |s.workers| && s.workers[w].Executing?
    case Fail(w, _, _, _) => w < |s.workers| && s.workers[w].Failing? && s.workers[w].run < |s.rows|
    case Abandon(w) => w < |s.workers| && s.workers[w].Failing?
  }

  function Apply(s: State, step: Step): State
    requires Enabled(s, step)
  {
    match step
    case Enqueue(id, scope, preset, tags, now) => s.(rows := s.rows + [EnqueuedRun(id, scope, preset, tags, now)])
    case Lock(w, i) => s.(workers := s.workers[w := Locking(i)])
    case FoundNone(w) => s
    case Commit(w) =>
      var i := s.workers[w].run;
      s.(rows := s.rows[i := ClaimedRun(s.rows[i])], workers := s.workers[w := Executing(i)], claims := s.claims + [i])
    case Abort(w) => s.(workers := s.workers[w := Idle])
    case Finish(w, stats, now) =>
      var i := s.workers[w].run;
      s.(rows := s.rows[i := FinishedRun(s.rows[i], stats, now)], workers := s.workers[w := Idle])
    case GiveUp(w) => s.(workers := s.workers[w := Failing(s.workers[w].run)])
    case Fail(w, msg, stats, now) =>
      var i := s.workers[w].run;
      s.(rows := s.rows[i := FailedRun(s.rows[i], msg, stats, now)], workers := s.workers[w := Idle])
    case Abandon(w) => s.(workers := s.workers[w := Idle], abandoned := s.abandoned + {s.workers[w].run})
  }

  ghost predicate Next(s: State, t: State) { exists step :: Enabled(s, step) && t == Apply(s, step) }

  /** A run of the system: from the empty table, one step at a time, in any interleaving. */
  ghost predicate Execution(n: nat, states: seq<State>) {
    && |states| >= 1 && states[0] == Init(n)
    && forall k :: 0 < k < |states| ==> Next(states[k - 1], states[k])
  }

  // The invariant

  ghost predicate WorkerAgrees(s: State, w: Worker) {
    match w
    case Idle => true
    case Locking(i) => i < |s.rows| && s.rows[i].status == Queued
    case Executing(i) => i < |s.rows| && s.rows[i].status == Running && i !in s.abandoned
    case Failing(i) => i < |s.rows| && s.rows[i].status == Running && i !in s.abandoned
  }

  ghost predicate Exclusive(s: State) {
    forall a, b :: 0 <= a < b < |s.workers| && s.workers[a] != Idle && s.workers[b] != Idle ==>
      s.workers[a].run != s.workers[b].run
  }

  ghost predicate HeldBySome(s: State, i: nat) { exists k :: 0 <= k < |s.workers| && Holds(s.workers[k], i) }

  /** Each run is claimed at most once, and exactly the runs that left the queue were claimed. */
  ghost predicate ClaimsExact(s: State) {
    && (forall a, b :: 0 <= a < b < |s.claims| ==> s.claims[a] != s.claims[b])
    && (forall a :: 0 <= a < |s.claims| ==> s.claims[a] < |s.rows|)
    && (forall i :: 0 <= i < |s.rows| ==> (s.rows[i].status != Queued <==> i in s.claims))
  }

  /** A run still running is in a worker's hands, unless marking it failed itself failed. */
  ghost predicate NoneForgotten(s: State) {
    forall i :: 0 <= i < |s.rows| && s.rows[i].status == Running ==> HeldBySome(s, i) || i in s.abandoned
  }

  ghost predicate RowsCoherent(s: State) { forall i :: 0 <= i < |s.rows| ==> Coherent(s.rows[i]) }

  ghost predicate Inv(s: State) {
    && InOrder(s.rows) && RowsCoherent(s)
    && (forall k :: 0 <= k < |s.workers| ==> WorkerAgrees(s, s.workers[k]))
    && Exclusive(s) && ClaimsExact(s) && NoneForgotten(s)
    && (forall i :: i in s.abandoned ==> i < |s.rows| && s.rows[i].status == Running)
  }

  lemma InitInv(n: nat)
    ensures Inv(Init(n))
  {
  }

  lemma HeldAfter(s: State, t: State, w: nat)
    requires w < |s.workers| == |t.workers| && forall k :: 0 <= k < |s.workers| && k != w ==> t.workers[k] == s.workers[k]
    ensures forall i :: HeldBySome(s, i) && !Holds(s.workers[w], i) ==> HeldBySome(t, i)
  {
    forall i | HeldBySome(s, i) && !Holds(s.workers[w], i) ensures HeldBySome(t, i) {
      var k :| 0 <= k < |s.workers| && Holds(s.workers[k], i);
      assert Holds(t.workers[k], i);
    }
  }

  lemma EnqueueKeepsInv(s: State, step: Step)
    requires Inv(s) && step.Enqueue? && Enabled(s, step)
    ensures Inv(Apply(s, step))
  {
    var t := Apply(s, step);
    forall i | 0 <= i < |t.rows| && t.rows[i].status == Running ensures HeldBySome(t, i) || i in t.abandoned {
      assert s.rows[i].status == Running;
      if HeldBySome(s, i) {
        var k :| 0 <= k < |s.workers| && Holds(s.workers[k], i);
        assert Holds(t.workers[k], i);
      }
    }
  }

  /** A row that was not locked is taken by nobody else. */
  lemma LockKeepsExclusive(s: State, step: Step)
    requires Inv(s) && step.Lock? && Enabled(s, step)
    ensures Exclusive(Apply(s, step))
  {
    forall k | 0 <= k < |s.workers| && k != step.worker && s.workers[k] != Idle ensures s.workers[k].run != step.row {
      if s.workers[k].Locking? { assert s.workers[k].run in LockedRows(s.workers); }
    }
  }

  lemma LockForgetsNone(s: State, step: Step)
    requires Inv(s) && (step.Lock? || step.Abort? || step.GiveUp?) && Enabled(s, step)
    ensures NoneForgotten(Apply(s, step))
  {
    var t := Apply(s, step);
    var w := step.worker;
    HeldAfter(s, t, w);
    forall i | 0 <= i < |t.rows| && t.rows[i].status == Running ensures HeldBySome(t, i) || i in t.abandoned {
      if Holds(s.workers[w], i) { assert Holds(t.workers[w], i); }
    }
  }

  lemma LockKeepsInv(s: State, step: Step)
    requires Inv(s) && (step.Lock? || step.Abort? || step.GiveUp?) && Enabled(s, step)
    ensures Inv(Apply(s, step))
  {
    LockForgetsNone(s, step);
    if step.Lock? { LockKeepsExclusive(s, step); }
  }

  lemma CommitKeepsClaims(s: State, step: Step)
    requires ClaimsExact(s) && step.Commit? && Enabled(s, step)
    requires s.rows[s.workers[step.worker].run].status == Queued
    ensures ClaimsExact(Apply(s, step))
  {
    var t := Apply(s, step);
    var i := s.workers[step.worker].run;
    assert i !in s.claims;
    forall j | 0 <= j < |t.rows| ensures t.rows[j].status != Queued <==> j in t.claims {
      assert j in t.claims <==> j in s.claims || j == i;
    }
  }

  lemma CommitKeepsWorkers(s: State, step: Step)
    requires Exclusive(s) && step.Commit? && Enabled(s, step)
    requires forall k :: 0 <= k < |s.workers| ==> WorkerAgrees(s, s.workers[k])
    requires forall i :: i in s.abandoned ==> i < |s.rows| && s.rows[i].status == Running
    ensures Exclusive(Apply(s, step))
    ensures forall k :: 0 <= k < |s.workers| ==> WorkerAgrees(Apply(s, step), Apply(s, step).workers[k])
  {
    var t := Apply(s, step);
    var w, i := step.worker, s.workers[step.worker].run;
    assert WorkerAgrees(s, s.workers[w]);
    forall k | 0 <= k < |t.workers| ensures WorkerAgrees(t, t.workers[k]) {
      if k != w {
        assert WorkerAgrees(s, s.workers[k]);
        if s.workers[k] != Idle { assert s.workers[k].run != i; }
      }
    }
  }

  lemma CommitForgetsNone(s: State, step: Step)
    requires NoneForgotten(s) && step.Commit? && Enabled(s, step)
    ensures NoneForgotten(Apply(s, step))
  {
    var t := Apply(s, step);
    var w, i := step.worker, s.workers[step.worker].run;
    HeldAfter(s, t, w);
    assert Holds(t.workers[w], i);
  }

  lemma CommitKeepsRows(s: State, step: Step)
    requires InOrder(s.rows) && RowsCoherent(s) && step.Commit? && Enabled(s, step)
    ensures InOrder(Apply(s, step).rows) && RowsCoherent(Apply(s, step))
  {
    RowEffectsCoherent(s.rows[s.workers[step.worker].run], "", map[], 0);
  }

  lemma CommitKeepsInv(s: State, step: Step)
    requires Inv(s) && step.Commit? && Enabled(s, step)
    ensures Inv(Apply(s, step))
  {
    assert WorkerAgrees(s, s.workers[step.worker]);
    CommitKeepsRows(s, step);
    CommitKeepsClaims(s, step);
    CommitKeepsWorkers(s, step);
    CommitForgetsNone(s, step);
  }

  predicate Ends(step: Step) { step.Finish? || step.Fail? }

  /** A finished or failed run leaves the workers that hold other runs in agreement with their rows. */
  lemma EndKeepsWorkers(s: State, step: Step)
    requires Exclusive(s) && Ends(step) && Enabled(s, step)
    requires forall k :: 0 <= k < |s.workers| ==> WorkerAgrees(s, s.workers[k])
    ensures Exclusive(Apply(s, step))
    ensures forall k :: 0 <= k < |s.workers| ==> WorkerAgrees(Apply(s, step), Apply(s, step).workers[k])
  {
    var t := Apply(s, step);
    var w, i := step.worker, s.workers[step.worker].run;
    forall k | 0 <= k < |t.workers| ensures WorkerAgrees(t, t.workers[k]) {
      if k != w {
        assert WorkerAgrees(s, s.workers[k]);
        if s.workers[k] != Idle { assert s.workers[k].run != i; }
      }
    }
  }

  lemma EndForgetsNone(s: State, step: Step)
    requires NoneForgotten(s) && Ends(step) && Enabled(s, step)
    ensures NoneForgotten(Apply(s, step))
  {
    HeldAfter(s, Apply(s, step), step.worker);
  }

  lemma EndKeepsClaims(s: State, step: Step)
    requires ClaimsExact(s) && Ends(step) && Enabled(s, step) && s.rows[s.workers[step.worker].run].status == Running
    ensures ClaimsExact(Apply(s, step))
  {
    assert s.workers[step.worker].run in s.claims;
  }

  lemma EndKeepsRows(s: State, step: Step)
    requires InOrder(s.rows) && RowsCoherent(s) && Ends(step) && Enabled(s, step)
    ensures InOrder(Apply(s, step).rows) && RowsCoherent(Apply(s, step))
  {
    var i := s.workers[step.worker].run;
    RowEffectsCoherent(s.rows[i], if step.Fail? then step.msg else "", step.stats, step.now);
  }

  lemma EndKeepsInv(s: State, step: Step)
    requires Inv(s) && Ends(step) && Enabled(s, step)
    ensures Inv(Apply(s, step))
  {
    assert WorkerAgrees(s, s.workers[step.worker]);
    EndKeepsRows(s, step);
    EndKeepsClaims(s, step);
    EndKeepsWorkers(s, step);
    EndForgetsNone(s, step);
  }

  lemma AbandonKeepsInv(s: State, step: Step)
    requires Inv(s) && step.Abandon? && Enabled(s, step)
    ensures Inv(Apply(s, step))
  {
    var t := Apply(s, step);
    var w, i := step.worker, s.workers[step.worker].run;
    HeldAfter(s, t, w);
    forall k | 0 <= k < |t.workers| ensures WorkerAgrees(t, t.workers[k]) {
      if k != w && s.workers[k] != Idle { assert s.workers[k].run != i; }
    }
  }

  lemma StepKeepsInv(s: State, step: Step)
    requires Inv(s) && Enabled(s, step)
    ensures Inv(Apply(s, step))
  {
    match step
    case Enqueue(_, _, _, _, _) => EnqueueKeepsInv(s, step);
    case Lock(_, _) => LockKeepsInv(s, step);
    case FoundNone(_) =>
    case Commit(_) => CommitKeepsInv(s, step);
    case Abort(_) => LockKeepsInv(s, step);
    case Finish(_, _, _) => EndKeepsInv(s, step);
    case GiveUp(_) => LockKeepsInv(s, step);
    case Fail(_, _, _, _) => EndKeepsInv(s, step);
    case Abandon(_) => AbandonKeepsInv(s, step);
  }

  // When a worker finds nothing

  /** A worker leaves the queue alone only when every queued run is being claimed by somebody. */
  lemma IdleOnlyWhenLocked(s: State, step: Step, i: nat)
    requires Enabled(s, step) && step.FoundNone? && i < |s.rows| && s.rows[i].status == Queued
    ensures exists k :: 0 <= k < |s.workers| && s.workers[k] == Locking(i)
  {
    assert i in LockedRows(s.workers);
    var k :| 0 <= k < |s.workers| && s.workers[k].Locking? && s.workers[k].run == i;
  }

  lemma CreatedInOrder(rows: seq<Run>, i: nat, j: nat)
    requires InOrder(rows) && i < |rows| && j < |rows|
    ensures rows[i].startedAt <= rows[j].startedAt ==> i <= j
  {
  }

  /** Of the queued runs that nobody is claiming, the one created first is taken. */
  lemma OldestIsTaken(s: State, step: Step, i: nat)
    requires Inv(s) && Enabled(s, step) && step.Lock? && i < |s.rows| && s.rows[i].status == Queued
    requires forall k :: 0 <= k < |s.workers| ==> s.workers[k] != Locking(i)
    ensures s.rows[step.row].status == Queued && step.row <= i
  {
    forall k | 0 <= k < |s.workers| ensures !(s.workers[k].Locking? && s.workers[k].run == i) {
      assert s.workers[k] != Locking(i);
    }
    CreatedInOrder(s.rows, step.row, i);
  }

  // Whole executions

  /** Every state of every execution satisfies the invariant, for any number of workers. */
  lemma {:induction false} ExecutionInv(n: nat, states: seq<State>, k: int)
    requires Execution(n, states) && 0 <= k < |states|
    ensures Inv(states[k])
  {
    if k == 0 {
      InitInv(n);
    } else {
      ExecutionInv(n, states, k - 1);
      assert Next(states[k - 1], states[k]);
      var step :| Enabled(states[k - 1], step) && states[k] == Apply(states[k - 1], step);
      StepKeepsInv(states[k - 1], step);
    }
  }

  /** No run is ever claimed twice, and a run nobody holds is queued, finished or abandoned. */
  lemma ClaimedAtMostOnce(n: nat, states: seq<State>, k: int, i: int)
    requires Execution(n, states) && 0 <= k < |states| && 0 <= i < |states[k].rows|
    ensures forall a, b :: 0 <= a < b < |states[k].claims| ==> states[k].claims[a] != states[k].claims[b]
    ensures Coherent(states[k].rows[i])
    ensures states[k].rows[i].status == Running && !HeldBySome(states[k], i) ==> i in states[k].abandoned
    ensures i in states[k].abandoned ==> states[k].rows[i].status == Running
  {
    ExecutionInv(n, states, k);
  }

  /** How far along a run is. */
  function Rank(s: Status): nat {
    match s
    case Queued => 0
    case Running => 1
    case Succeeded => 2
    case Failed => 2
  }

  /** One step moves a row at most one stage on, keeps what was requested, and freezes finished rows. */
  ghost predicate RowAdvances(r: Run, r': Run) {
    && r'.id == r.id && r'.scope == r.scope && r'.startedAt == r.startedAt
    && Rank(r.status) <= Rank(r'.status) <= Rank(r.status) + 1
    && (Terminal(r.status) ==> r' == r)
    && (r.status == r'.status ==> r' == r)
  }

  lemma StepAdvancesRows(s: State, step: Step, i: int)
    requires Inv(s) && Enabled(s, step) && 0 <= i < |s.rows|
    ensures |s.rows| <= |Apply(s, step).rows| && RowAdvances(s.rows[i], Apply(s, step).rows[i])
  {
    if (step.Commit? || step.Finish? || step.Fail?) && i == s.workers[step.worker].run {
      assert WorkerAgrees(s, s.workers[step.worker]);
    }
  }

  lemma AdvanceInExecution(n: nat, states: seq<State>, k: int, i: int)
    requires Execution(n, states) && 0 < k < |states| && 0 <= i < |states[k - 1].rows|
    ensures |states[k - 1].rows| <= |states[k].rows| && RowAdvances(states[k - 1].rows[i], states[k].rows[i])
  {
    ExecutionInv(n, states, k - 1);
    assert Next(states[k - 1], states[k]);
    var step :| Enabled(states[k - 1], step) && states[k] == Apply(states[k - 1], step);
    StepAdvancesRows(states[k - 1], step, i);
  }

  /** Over a whole execution a row's status only moves forward, and a finished row never changes again. */
  lemma {:induction false} StatusOnlyForward(n: nat, states: seq<State>, j: int, k: int, i: int)
    requires Execution(n, states) && 0 <= j <= k < |states| && 0 <= i < |states[j].rows|
    ensures i < |states[k].rows|
    ensures Rank(states[j].rows[i].status) <= Rank(states[k].rows[i].status)
    ensures Terminal(states[j].rows[i].status) ==> states[k].rows[i] == states[j].rows[i]
    ensures states[k].rows[i].id == states[j].rows[i].id && states[k].rows[i].scope == states[j].rows[i].scope
    decreases k
  {
    if j < k {
      StatusOnlyForward(n, states, j, k - 1, i);
      AdvanceInExecution(n, states, k, i);
    }
  }
}
