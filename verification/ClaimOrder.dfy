/**
 * The order in which runs are claimed. Runs are numbered in creation order; a claim commits out of that order only
 * because, when its row was locked, another worker held the lock of the older one.
 */
module ClaimOrder {
  import opened DiscoveryRuns
  import opened RunProtocol

  /** The step from `s` to `t` locks row `j` while another worker is claiming row `i`. */
  ghost predicate LocksPast(s: State, t: State, j: nat, i: nat) {
    exists w, v :: 0 <= w < |s.workers| == |t.workers| && 0 <= v < |s.workers| && v != w
      && s.workers[w] == Idle && t.workers[w] == Locking(j) && s.workers[v] == Locking(i)
  }

  /** Somewhere before state `k` row `j` was locked while another worker was claiming row `i`. */
  ghost predicate Passed(states: seq<State>, k: int, j: nat, i: nat) {
    exists m :: 0 <= m < k < |states| && LocksPastAt(states, m, j, i)
  }

  ghost predicate LocksPastAt(states: seq<State>, m: int, j: nat, i: nat) {
    0 <= m && m + 1 < |states| && LocksPast(states[m], states[m + 1], j, i)
  }

  /** Every older run still queued was passed over by the locks held, and by the claims made. */
  ghost predicate LocksExplained(states: seq<State>, k: int)
    requires 0 <= k < |states|
  {
    forall w, i: nat :: 0 <= w < |states[k].workers| && HeldPast(states[k], w, i) ==>
      Passed(states, k, states[k].workers[w].run, i)
  }

  ghost predicate QueueExplained(states: seq<State>, k: int)
    requires 0 <= k < |states|
  {
    forall a, i: nat :: 0 <= a < |states[k].claims| && StillQueued(states[k], i) && i < states[k].claims[a] ==>
      Passed(states, k, states[k].claims[a], i)
  }

  ghost predicate StillQueued(s: State, i: nat) { i < |s.rows| && s.rows[i].status == Queued }

  /** Worker `w` is claiming a younger run than the queued `i`. */
  ghost predicate HeldPast(s: State, w: nat, i: nat)
    requires w < |s.workers|
  {
    s.workers[w].Locking? && StillQueued(s, i) && i < s.workers[w].run
  }

  /** A younger run listed before an older one had passed it. */
  ghost predicate ClaimsExplained(states: seq<State>, k: int)
    requires 0 <= k < |states|
  {
    forall a, b :: 0 <= a < b < |states[k].claims| && states[k].claims[b] < states[k].claims[a] ==>
      Passed(states, k, states[k].claims[a], states[k].claims[b])
  }

  ghost predicate Explained(states: seq<State>, k: int)
    requires 0 <= k < |states|
  {
    LocksExplained(states, k) && QueueExplained(states, k) && ClaimsExplained(states, k)
  }

  lemma PassedStays(states: seq<State>, k: int, l: int, j: nat, i: nat)
    requires Passed(states, k, j, i) && k <= l < |states|
    ensures Passed(states, l, j, i)
  {
    var m :| 0 <= m < k < |states| && LocksPastAt(states, m, j, i);
    assert LocksPastAt(states, m, j, i);
  }

  /** An older run that is queued when a row is locked is itself locked, by another worker. */
  lemma OlderIsLocked(s: State, step: Step, i: nat)
    requires Inv(s) && step.Lock? && Enabled(s, step)
    requires StillQueued(s, i) && i < step.row
    ensures LocksPast(s, Apply(s, step), step.row, i)
  {
    assert s.rows[i].startedAt < s.rows[step.row].startedAt;
    assert i in LockedRows(s.workers);
    var v :| 0 <= v < |s.workers| && s.workers[v].Locking? && s.workers[v].run == i;
    assert v != step.worker && s.workers[v] == Locking(i);
    assert Apply(s, step).workers[step.worker] == Locking(step.row);
  }

  /** A row queued after a step was queued before it, unless the step created it behind all others. */
  lemma QueuedBefore(s: State, step: Step, i: nat)
    requires Inv(s) && Enabled(s, step) && StillQueued(Apply(s, step), i)
    ensures StillQueued(s, i) || (step.Enqueue? && i == |s.rows|)
  {
    if i < |s.rows| { StepAdvancesRows(s, step, i); }
  }

  lemma LocksStayExplained(states: seq<State>, k: int, step: Step)
    requires 0 <= k && k + 1 < |states| && Inv(states[k]) && LocksExplained(states, k)
    requires Enabled(states[k], step) && states[k + 1] == Apply(states[k], step)
    ensures LocksExplained(states, k + 1)
  {
    var s, t := states[k], states[k + 1];
    forall w, i: nat | 0 <= w < |t.workers| && HeldPast(t, w, i)
      ensures Passed(states, k + 1, t.workers[w].run, i)
    {
      QueuedBefore(s, step, i);
      if step.Lock? && w == step.worker {
        OlderIsLocked(s, step, i);
        assert LocksPastAt(states, k, step.row, i);
      } else {
        assert s.workers[w] == t.workers[w] && WorkerAgrees(s, s.workers[w]);
        assert HeldPast(s, w, i);
        PassedStays(states, k, k + 1, t.workers[w].run, i);
      }
    }
  }

  lemma QueueStaysExplained(states: seq<State>, k: int, step: Step)
    requires 0 <= k && k + 1 < |states| && Inv(states[k]) && LocksExplained(states, k) && QueueExplained(states, k)
    requires Enabled(states[k], step) && states[k + 1] == Apply(states[k], step)
    ensures QueueExplained(states, k + 1)
  {
    var s, t := states[k], states[k + 1];
    forall a, i: nat | 0 <= a < |t.claims| && StillQueued(t, i) && i < t.claims[a]
      ensures Passed(states, k + 1, t.claims[a], i)
    {
      QueuedBefore(s, step, i);
      if a < |s.claims| {
        assert s.claims[a] == t.claims[a] && s.claims[a] < |s.rows|;
        PassedStays(states, k, k + 1, t.claims[a], i);
      } else {
        assert step.Commit? && s.workers[step.worker].Locking? && t.claims[a] == s.workers[step.worker].run;
        PassedStays(states, k, k + 1, t.claims[a], i);
      }
    }
  }

  lemma ClaimsStayExplained(states: seq<State>, k: int, step: Step)
    requires 0 <= k && k + 1 < |states| && Inv(states[k]) && QueueExplained(states, k) && ClaimsExplained(states, k)
    requires Enabled(states[k], step) && states[k + 1] == Apply(states[k], step)
    ensures ClaimsExplained(states, k + 1)
  {
    var s, t := states[k], states[k + 1];
    forall a, b | 0 <= a < b < |t.claims| && t.claims[b] < t.claims[a]
      ensures Passed(states, k + 1, t.claims[a], t.claims[b])
    {
      assert s.claims[a] == t.claims[a];
      if b == |s.claims| {
        assert step.Commit? && WorkerAgrees(s, s.workers[step.worker]);
        assert StillQueued(s, t.claims[b]);
      } else {
        assert s.claims[b] == t.claims[b];
      }
      PassedStays(states, k, k + 1, t.claims[a], t.claims[b]);
    }
  }

  lemma StepExplained(states: seq<State>, k: int, step: Step)
    requires 0 <= k && k + 1 < |states| && Inv(states[k]) && Explained(states, k)
    requires Enabled(states[k], step) && states[k + 1] == Apply(states[k], step)
    ensures Explained(states, k + 1)
  {
    LocksStayExplained(states, k, step);
    QueueStaysExplained(states, k, step);
    ClaimsStayExplained(states, k, step);
  }

  lemma StartExplained(n: nat, states: seq<State>)
    requires |states| >= 1 && states[0] == Init(n)
    ensures Explained(states, 0)
  {
  }

  lemma {:induction false} OrderExplained(n: nat, states: seq<State>, k: int)
    requires Execution(n, states) && 0 <= k < |states|
    ensures Explained(states, k)
  {
    if k == 0 {
      StartExplained(n, states);
    } else {
      OrderExplained(n, states, k - 1);
      ExecutionInv(n, states, k - 1);
      assert Next(states[k - 1], states[k]);
      var step :| Enabled(states[k - 1], step) && states[k] == Apply(states[k - 1], step);
      StepExplained(states, k - 1, step);
    }
  }

  /**
   * For any number of workers: when a younger run is claimed before an older one, then in some earlier state another
   * worker was claiming the older one at the moment the younger one was locked.
   */
  lemma OutOfOrderWasLocked(n: nat, states: seq<State>, k: int, a: int, b: int)
    requires Execution(n, states) && 0 <= k < |states|
    requires 0 <= a < b < |states[k].claims| && states[k].claims[b] < states[k].claims[a]
    ensures Passed(states, k, states[k].claims[a], states[k].claims[b])
  {
    OrderExplained(n, states, k);
  }

  lemma {:induction false} WorkersStay(n: nat, states: seq<State>, k: int)
    requires Execution(n, states) && 0 <= k < |states|
    ensures |states[k].workers| == n
  {
    if k > 0 {
      WorkersStay(n, states, k - 1);
      assert Next(states[k - 1], states[k]);
    }
  }

  /** A single worker claims in creation order, over every execution. */
  lemma LoneWorkerClaimsInOrder(states: seq<State>, k: int)
    requires Execution(1, states) && 0 <= k < |states|
    ensures forall a, b :: 0 <= a < b < |states[k].claims| ==> states[k].claims[a] < states[k].claims[b]
  {
    ExecutionInv(1, states, k);
    forall a, b | 0 <= a < b < |states[k].claims| ensures states[k].claims[a] < states[k].claims[b] {
      if states[k].claims[b] < states[k].claims[a] {
        OutOfOrderWasLocked(1, states, k, a, b);
        var m :| 0 <= m < k && LocksPastAt(states, m, states[k].claims[a], states[k].claims[b]);
        WorkersStay(1, states, m);
      }
    }
  }
}
