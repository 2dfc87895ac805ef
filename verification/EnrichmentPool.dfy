/**
 * The enrichment pool: a producer feeds targets over an unbuffered channel to any number of workers that share two
 * once-per-device sets. Polls, lookups and the context's end are steps of one state machine.
 */
module EnrichmentPool {
  import opened Orders
  import opened Text

  type Device = nat

  /** What one call of runEnrichment is given: its targets, enrichMaxTargets, and the kinds of work enabled. */
  datatype Job = Job(given: seq<Device>, maxTargets: int, snmp: bool, names: bool)

  /** The targets worked on: the first ones up to the cap, all of them when there is none. */
  function Targets(j: Job): (r: seq<Device>)
    ensures r <= j.given
    ensures |r| == if 0 < j.maxTargets < |j.given| then j.maxTargets else |j.given|
  {
    if j.maxTargets > 0 && |j.given| > j.maxTargets then j.given[..j.maxTargets] else j.given
  }

  /** Device `d` is given at a place the cap does not cut off. */
  ghost predicate Considered(j: Job, d: Device) {
    exists i :: 0 <= i < |j.given| && j.given[i] == d && (j.maxTargets > 0 ==> i < j.maxTargets)
  }

  lemma ConsideredIff(j: Job, d: Device)
    ensures d in Targets(j) <==> Considered(j, d)
  {
    if d in Targets(j) {
      var i :| 0 <= i < |Targets(j)| && Targets(j)[i] == d;
      assert j.given[i] == d;
    }
    if i :| 0 <= i < |j.given| && j.given[i] == d && (j.maxTargets > 0 ==> i < j.maxTargets) {
      assert Targets(j)[i] == d;
    }
  }

  datatype Phase =
    | Waiting
    | Got(dev: Device)
    | Cleared(dev: Device)
    | Claimed(dev: Device)
    | Looking(dev: Device, thenPoll: bool)
    | Polling(dev: Device)
    | Tail(dev: Device)
    | Exited

  datatype State = State(next: nat, closed: bool, cancelled: bool, workers: seq<Phase>,
                         snmpAttempted: set<Device>, nameAttempted: set<Device>,
                         polls: seq<Device>, lookups: seq<Device>)

  /** How a poll and the walks after it end. */
  datatype Outcome = Complete | CutShort | Interrupted

  datatype Step =
    | Cancel
    | CloseAtEnd
    | CloseCancelled
    | Send(worker: nat)
    | Exit(worker: nat)
    | Drop(worker: nat)
    | Check(worker: nat)
    | Start(worker: nat)
    | ClaimName(worker: nat)
    | Look(worker: nat)
    | Poll(worker: nat, outcome: Outcome)
    | Finish(worker: nat)

  function Init(n: nat): State { State(0, false, false, seq(n, _ => Waiting), {}, {}, [], []) }

  predicate Enabled(j: Job, s: State, step: Step) {
    match step
    case Cancel => !s.cancelled
    case CloseAtEnd => !s.closed && s.next == |Targets(j)|
    case CloseCancelled => !s.closed && s.cancelled && s.next < |Targets(j)|
    case Send(w) => w < |s.workers| && s.workers[w] == Waiting && !s.closed && s.next < |Targets(j)|
    case Exit(w) => w < |s.workers| && s.workers[w] == Waiting && s.closed
    case Drop(w) => w < |s.workers| && s.workers[w].Got? && s.cancelled
    case Check(w) => w < |s.workers| && s.workers[w].Got? && !s.cancelled
    case Start(w) => w < |s.workers| && s.workers[w].Cleared?
    case ClaimName(w) => w < |s.workers| && s.workers[w].Claimed?
    case Look(w) => w < |s.workers| && s.workers[w].Looking?
    case Poll(w, o) => w < |s.workers| && s.workers[w].Polling? && (o == Interrupted ==> s.cancelled)
    case Finish(w) => w < |s.workers| && s.workers[w].Tail?
  }

  function Move(s: State, w: nat, p: Phase): State
    requires w < |s.workers|
  {
    s.(workers := s.workers[w := p])
  }

  function Apply(j: Job, s: State, step: Step): State
    requires Enabled(j, s, step)
  {
    match step
    case Cancel => s.(cancelled := true)
    case CloseAtEnd => s.(closed := true)
    case CloseCancelled => s.(closed := true)
    case Send(w) => Move(s, w, Got(Targets(j)[s.next])).(next := s.next + 1)
    case Exit(w) => Move(s, w, Exited)
    case Drop(w) => Move(s, w, Exited)
    case Check(w) => Move(s, w, Cleared(s.workers[w].dev))
    case Start(w) =>
      var d := s.workers[w].dev;
      if !j.snmp then Move(s, w, if j.names then Tail(d) else Waiting)
      else if d in s.snmpAttempted then Move(s, w, Waiting)
      else Move(s, w, Claimed(d)).(snmpAttempted := s.snmpAttempted + {d})
    case ClaimName(w) =>
      var d := s.workers[w].dev;
      if !j.names || d in s.nameAttempted then Move(s, w, Polling(d))
      else Move(s, w, Looking(d, true)).(nameAttempted := s.nameAttempted + {d})
    case Look(w) =>
      var d := s.workers[w].dev;
      Move(s, w, if s.workers[w].thenPoll then Polling(d) else Waiting).(lookups := s.lookups + [d])
    case Poll(w, o) =>
      var d := s.workers[w].dev;
      Move(s, w, if o == Complete then Tail(d) else if o == CutShort then Waiting else Exited).(polls := s.polls + [d])
    case Finish(w) =>
      var d := s.workers[w].dev;
      if !j.names || d in s.nameAttempted then Move(s, w, Waiting)
      else Move(s, w, Looking(d, false)).(nameAttempted := s.nameAttempted + {d})
  }

  ghost predicate Next(j: Job, s: State, t: State) { exists step :: Enabled(j, s, step) && t == Apply(j, s, step) }

  ghost predicate Execution(j: Job, n: nat, states: seq<State>) {
    && n >= 1 && |states| >= 1 && states[0] == Init(n)
    && forall k :: 0 < k < |states| ==> Next(j, states[k - 1], states[k])
  }

  predicate Finished(s: State) { s.closed && forall k :: 0 <= k < |s.workers| ==> s.workers[k] == Exited }

  // One LoadOrStore set, the log of what it guards, and what is under way between the two

  ghost predicate Under(flights: seq<Option<Device>>, d: Device) { Some(d) in flights }

  ghost predicate Guarded(attempted: set<Device>, log: seq<Device>, flights: seq<Option<Device>>) {
    && Distinct(log)
    && (forall a, b :: 0 <= a < b < |flights| && flights[a].Some? ==> flights[a] != flights[b])
    && (forall d :: d in log ==> d in attempted && !Under(flights, d))
    && (forall d :: Under(flights, d) ==> d in attempted)
    && (forall d :: d in attempted ==> d in log || Under(flights, d))
  }

  lemma GuardClaim(attempted: set<Device>, log: seq<Device>, flights: seq<Option<Device>>, w: nat, d: Device)
    requires Guarded(attempted, log, flights) && w < |flights| && flights[w] == None && d !in attempted
    ensures Guarded(attempted + {d}, log, flights[w := Some(d)])
  {
    var after := flights[w := Some(d)];
    forall e ensures Under(after, e) <==> Under(flights, e) || e == d {
      if Under(flights, e) {
        var k :| 0 <= k < |flights| && flights[k] == Some(e);
        assert after[k] == Some(e);
      }
      assert after[w] == Some(d);
    }
    assert !Under(flights, d);
  }

  lemma GuardDone(attempted: set<Device>, log: seq<Device>, flights: seq<Option<Device>>, w: nat, d: Device)
    requires Guarded(attempted, log, flights) && w < |flights| && flights[w] == Some(d)
    ensures Guarded(attempted, log + [d], flights[w := None])
  {
    var after := flights[w := None];
    assert Under(flights, d);
    forall e ensures Under(after, e) <==> Under(flights, e) && e != d {
      if Under(flights, e) && e != d {
        var k :| 0 <= k < |flights| && flights[k] == Some(e);
        assert after[k] == Some(e);
      }
      if Under(after, e) {
        var k :| 0 <= k < |after| && after[k] == Some(e);
        assert k != w && flights[k] == Some(e);
        assert flights[if k < w then k else w] != flights[if k < w then w else k];
      }
    }
  }

  predicate InHand(p: Phase) { p != Waiting && p != Exited }

  function SnmpFlight(p: Phase): Option<Device> {
    if p.Claimed? || p.Polling? || (p.Looking? && p.thenPoll) then Some(p.dev) else None
  }

  function NameFlight(p: Phase): Option<Device> { if p.Looking? then Some(p.dev) else None }

  function SnmpFlights(ws: seq<Phase>): (r: seq<Option<Device>>)
    ensures |r| == |ws| && forall k :: 0 <= k < |ws| ==> r[k] == SnmpFlight(ws[k])
  {
    seq(|ws|, k requires 0 <= k < |ws| => SnmpFlight(ws[k]))
  }

  function NameFlights(ws: seq<Phase>): (r: seq<Option<Device>>)
    ensures |r| == |ws| && forall k :: 0 <= k < |ws| ==> r[k] == NameFlight(ws[k])
  {
    seq(|ws|, k requires 0 <= k < |ws| => NameFlight(ws[k]))
  }

  lemma FlightsMove(ws: seq<Phase>, w: nat, p: Phase)
    requires w < |ws|
    ensures SnmpFlights(ws[w := p]) == SnmpFlights(ws)[w := SnmpFlight(p)]
    ensures NameFlights(ws[w := p]) == NameFlights(ws)[w := NameFlight(p)]
    ensures SnmpFlight(p) == SnmpFlight(ws[w]) ==> SnmpFlights(ws[w := p]) == SnmpFlights(ws)
    ensures NameFlight(p) == NameFlight(ws[w]) ==> NameFlights(ws[w := p]) == NameFlights(ws)
  {
  }

  ghost predicate SnmpOnce(s: State) { Guarded(s.snmpAttempted, s.polls, SnmpFlights(s.workers)) }

  ghost predicate NamesOnce(s: State) { Guarded(s.nameAttempted, s.lookups, NameFlights(s.workers)) }

  predicate OfWorker(step: Step) { !step.Cancel? && !step.CloseAtEnd? && !step.CloseCancelled? }

  /** A worker's step changes no other worker's phase, and takes at most the next target. */
  lemma OneMoves(j: Job, s: State, step: Step)
    requires Enabled(j, s, step) && OfWorker(step)
    ensures var t := Apply(j, s, step);
      && step.worker < |s.workers| == |t.workers| && t.workers == s.workers[step.worker := t.workers[step.worker]]
      && t.closed == s.closed && t.cancelled == s.cancelled && t.next == (if step.Send? then s.next + 1 else s.next)
  {
  }

  /** What a step does to the polls: it claims one, makes the one claimed, or leaves them alone. */
  lemma PollEffect(j: Job, s: State, step: Step)
    requires Enabled(j, s, step) && OfWorker(step)
    ensures var t := Apply(j, s, step); var p, q := s.workers[step.worker], t.workers[step.worker];
      || (SnmpFlight(p) == None && InHand(p) && SnmpFlight(q) == Some(p.dev) && p.dev !in s.snmpAttempted
          && t.snmpAttempted == s.snmpAttempted + {p.dev} && t.polls == s.polls)
      || (InHand(p) && SnmpFlight(p) == Some(p.dev) && SnmpFlight(q) == None
          && t.snmpAttempted == s.snmpAttempted && t.polls == s.polls + [p.dev])
      || (SnmpFlight(q) == SnmpFlight(p) && t.snmpAttempted == s.snmpAttempted && t.polls == s.polls)
  {
  }

  /** The same for the lookups. */
  lemma LookupEffect(j: Job, s: State, step: Step)
    requires Enabled(j, s, step) && OfWorker(step)
    ensures var t := Apply(j, s, step); var p, q := s.workers[step.worker], t.workers[step.worker];
      || (NameFlight(p) == None && InHand(p) && NameFlight(q) == Some(p.dev) && p.dev !in s.nameAttempted
          && t.nameAttempted == s.nameAttempted + {p.dev} && t.lookups == s.lookups)
      || (InHand(p) && NameFlight(p) == Some(p.dev) && NameFlight(q) == None
          && t.nameAttempted == s.nameAttempted && t.lookups == s.lookups + [p.dev])
      || (NameFlight(q) == NameFlight(p) && t.nameAttempted == s.nameAttempted && t.lookups == s.lookups)
  {
  }

  lemma StepKeepsSnmpOnce(j: Job, s: State, step: Step)
    requires SnmpOnce(s) && Enabled(j, s, step)
    ensures SnmpOnce(Apply(j, s, step))
  {
    if OfWorker(step) {
      var t, w := Apply(j, s, step), step.worker;
      OneMoves(j, s, step);
      PollEffect(j, s, step);
      FlightsMove(s.workers, w, t.workers[w]);
      if t.snmpAttempted != s.snmpAttempted {
        GuardClaim(s.snmpAttempted, s.polls, SnmpFlights(s.workers), w, s.workers[w].dev);
      } else if t.polls != s.polls {
        GuardDone(s.snmpAttempted, s.polls, SnmpFlights(s.workers), w, s.workers[w].dev);
      }
    }
  }

  lemma StepKeepsNamesOnce(j: Job, s: State, step: Step)
    requires NamesOnce(s) && Enabled(j, s, step)
    ensures NamesOnce(Apply(j, s, step))
  {
    if OfWorker(step) {
      var t, w := Apply(j, s, step), step.worker;
      OneMoves(j, s, step);
      LookupEffect(j, s, step);
      FlightsMove(s.workers, w, t.workers[w]);
      if t.nameAttempted != s.nameAttempted {
        GuardClaim(s.nameAttempted, s.lookups, NameFlights(s.workers), w, s.workers[w].dev);
      } else if t.lookups != s.lookups {
        GuardDone(s.nameAttempted, s.lookups, NameFlights(s.workers), w, s.workers[w].dev);
      }
    }
  }

  // Coverage: what was sent is not lost

  ghost predicate At(ws: seq<Phase>, p: Phase) { p in ws }

  /** Device `d`, once sent, has been claimed for what is enabled or is still in a worker's hands before its claim. */
  ghost predicate Covered(j: Job, s: State, d: Device) {
    || At(s.workers, Got(d)) || At(s.workers, Cleared(d))
    || ((j.snmp ==> d in s.snmpAttempted)
        && (j.names && !j.snmp ==> d in s.nameAttempted || At(s.workers, Tail(d))))
  }

  ghost predicate NamedAfterSnmp(j: Job, s: State) {
    j.names && j.snmp ==> forall d :: d in s.snmpAttempted ==> d in s.nameAttempted || At(s.workers, Claimed(d))
  }

  ghost predicate SentCovered(j: Job, s: State) {
    s.next <= |Targets(j)| && (!s.cancelled ==> forall i :: 0 <= i < s.next ==> Covered(j, s, Targets(j)[i]))
  }

  /** A worker works on a target, does enabled kinds of work only, and leaves only when told. */
  predicate PhaseProper(j: Job, mayLeave: bool, p: Phase) {
    && (InHand(p) ==> p.dev in Targets(j)) && (SnmpFlight(p).Some? ==> j.snmp) && (p.Looking? ==> j.names)
    && (p == Exited ==> mayLeave)
  }

  ghost predicate Proper(j: Job, s: State) {
    && (forall k :: 0 <= k < |s.workers| ==> PhaseProper(j, s.cancelled || s.closed, s.workers[k]))
    && (forall d :: d in s.snmpAttempted ==> j.snmp && d in Targets(j))
    && (forall d :: d in s.nameAttempted ==> j.names && d in Targets(j))
    && (!s.cancelled && s.closed ==> s.next == |Targets(j)|)
  }

  ghost predicate Inv(j: Job, s: State) {
    SnmpOnce(s) && NamesOnce(s) && NamedAfterSnmp(j, s) && SentCovered(j, s) && Proper(j, s) && |s.workers| >= 1
  }

  lemma InitInv(j: Job, n: nat)
    requires n >= 1
    ensures Inv(j, Init(n))
  {
    var s := Init(n);
    assert forall k :: 0 <= k < n ==> SnmpFlights(s.workers)[k] == None && NameFlights(s.workers)[k] == None;
  }

  lemma AtMoves(ws: seq<Phase>, w: nat, p: Phase, q: Phase)
    requires w < |ws|
    ensures At(ws, q) && ws[w] != q ==> At(ws[w := p], q)
    ensures At(ws[w := p], p)
  {
    if At(ws, q) && ws[w] != q {
      var k :| 0 <= k < |ws| && ws[k] == q;
      assert ws[w := p][k] == q;
    }
    assert ws[w := p][w] == p;
  }

  lemma StepKeepsNamed(j: Job, s: State, step: Step)
    requires NamedAfterSnmp(j, s) && Enabled(j, s, step)
    ensures NamedAfterSnmp(j, Apply(j, s, step))
  {
    var t := Apply(j, s, step);
    if OfWorker(step) {
      forall d | d in t.snmpAttempted && d !in t.nameAttempted && j.names && j.snmp ensures At(t.workers, Claimed(d)) {
        AtMoves(s.workers, step.worker, t.workers[step.worker], Claimed(d));
      }
    }
  }

  lemma StepKeepsCovered(j: Job, s: State, step: Step, d: Device)
    requires Covered(j, s, d) && Enabled(j, s, step) && !Apply(j, s, step).cancelled
    ensures Covered(j, Apply(j, s, step), d)
  {
    var t := Apply(j, s, step);
    if OfWorker(step) {
      AtMoves(s.workers, step.worker, t.workers[step.worker], Got(d));
      AtMoves(s.workers, step.worker, t.workers[step.worker], Cleared(d));
      AtMoves(s.workers, step.worker, t.workers[step.worker], Tail(d));
    }
  }

  lemma StepKeepsSent(j: Job, s: State, step: Step)
    requires SentCovered(j, s) && Enabled(j, s, step)
    ensures SentCovered(j, Apply(j, s, step))
  {
    var t := Apply(j, s, step);
    if !t.cancelled {
      forall i | 0 <= i < t.next ensures Covered(j, t, Targets(j)[i]) {
        if i < s.next {
          StepKeepsCovered(j, s, step, Targets(j)[i]);
        } else {
          AtMoves(s.workers, step.worker, t.workers[step.worker], Waiting);
        }
      }
    }
  }

  lemma PhaseStaysProper(j: Job, s: State, step: Step)
    requires Enabled(j, s, step) && OfWorker(step) && s.next <= |Targets(j)|
    requires PhaseProper(j, s.cancelled || s.closed, s.workers[step.worker])
    ensures var t := Apply(j, s, step); PhaseProper(j, t.cancelled || t.closed, t.workers[step.worker])
  {
  }

  /** Only a device the worker holds, and only for enabled work, is marked. */
  lemma MarksProper(j: Job, s: State, step: Step)
    requires Enabled(j, s, step) && OfWorker(step)
    ensures var t, p := Apply(j, s, step), s.workers[step.worker];
      && (forall d :: d in t.snmpAttempted && d !in s.snmpAttempted ==> InHand(p) && d == p.dev && j.snmp)
      && (forall d :: d in t.nameAttempted && d !in s.nameAttempted ==> InHand(p) && d == p.dev && j.names)
  {
  }

  lemma StepKeepsProper(j: Job, s: State, step: Step)
    requires Proper(j, s) && s.next <= |Targets(j)| && Enabled(j, s, step)
    ensures Proper(j, Apply(j, s, step))
  {
    var t := Apply(j, s, step);
    if OfWorker(step) {
      var w := step.worker;
      assert PhaseProper(j, s.cancelled || s.closed, s.workers[w]);
      OneMoves(j, s, step);
      PhaseStaysProper(j, s, step);
      MarksProper(j, s, step);
      forall k | 0 <= k < |t.workers| ensures PhaseProper(j, t.cancelled || t.closed, t.workers[k]) {
        assert k != w ==> t.workers[k] == s.workers[k];
      }
    }
  }

  lemma StepKeepsInv(j: Job, s: State, step: Step)
    requires Inv(j, s) && Enabled(j, s, step)
    ensures Inv(j, Apply(j, s, step))
  {
    StepKeepsSnmpOnce(j, s, step);
    StepKeepsNamesOnce(j, s, step);
    StepKeepsNamed(j, s, step);
    StepKeepsSent(j, s, step);
    StepKeepsProper(j, s, step);
  }

  lemma {:induction false} ExecutionInv(j: Job, n: nat, states: seq<State>, k: int)
    requires Execution(j, n, states) && 0 <= k < |states|
    ensures Inv(j, states[k])
  {
    if k == 0 {
      InitInv(j, n);
    } else {
      ExecutionInv(j, n, states, k - 1);
      assert Next(j, states[k - 1], states[k]);
      var step :| Enabled(j, states[k - 1], step) && states[k] == Apply(j, states[k - 1], step);
      StepKeepsInv(j, states[k - 1], step);
    }
  }

  // The theorems

  /** Under every interleaving, cancelled or not, no device is polled twice or looked up twice, and only targets are. */
  lemma AtMostOnce(j: Job, n: nat, states: seq<State>, k: int)
    requires Execution(j, n, states) && 0 <= k < |states|
    ensures Distinct(states[k].polls) && Distinct(states[k].lookups)
    ensures forall d :: d in states[k].polls ==> Considered(j, d) && j.snmp
    ensures forall d :: d in states[k].lookups ==> Considered(j, d) && j.names
  {
    ExecutionInv(j, n, states, k);
    forall d ensures d in Targets(j) <==> Considered(j, d) { ConsideredIff(j, d); }
  }

  lemma NothingUnderWay(s: State)
    requires Finished(s)
    ensures forall d :: !Under(SnmpFlights(s.workers), d) && !Under(NameFlights(s.workers), d)
    ensures forall p :: p != Exited ==> !At(s.workers, p)
  {
  }

  /** A pool that ends without being cancelled did each enabled kind of work exactly once for every target within the cap. */
  lemma ExactlyOnce(j: Job, n: nat, states: seq<State>, k: int, d: Device)
    requires Execution(j, n, states) && 0 <= k < |states|
    requires Finished(states[k]) && !states[k].cancelled
    ensures d in states[k].polls <==> j.snmp && Considered(j, d)
    ensures d in states[k].lookups <==> j.names && Considered(j, d)
    ensures Distinct(states[k].polls) && Distinct(states[k].lookups)
  {
    ExecutionInv(j, n, states, k);
    AtMostOnce(j, n, states, k);
    NothingUnderWay(states[k]);
    ConsideredIff(j, d);
    if d in Targets(j) {
      var i :| 0 <= i < |Targets(j)| && Targets(j)[i] == d;
      assert Covered(j, states[k], Targets(j)[i]);
    }
  }

  // Names come first

  /** With both kinds of work enabled: nothing is named before its poll is claimed, and nothing polled before it is named. */
  ghost predicate NamesFirst(j: Job, s: State) {
    j.snmp && j.names ==>
      && (forall d :: d in s.nameAttempted ==> d in s.snmpAttempted && !At(s.workers, Claimed(d)))
      && (forall d :: At(s.workers, Polling(d)) || At(s.workers, Tail(d)) || d in s.polls ==> d in s.lookups)
      && (forall d :: !At(s.workers, Looking(d, false)))
  }

  /** A phase found after a step was there before it, or is the one the worker moved to. */
  lemma {:induction false} AtAfter(j: Job, s: State, step: Step, p: Phase)
    requires Enabled(j, s, step) && OfWorker(step)
    ensures var t := Apply(j, s, step); At(t.workers, p) ==> At(s.workers, p) || t.workers[step.worker] == p
  {
    OneMoves(j, s, step);
    var t := Apply(j, s, step);
    if k :| 0 <= k < |t.workers| && t.workers[k] == p { assert k != step.worker ==> s.workers[k] == p; }
  }

  /** Two workers never hold one device before its poll. */
  lemma {:induction false} ClaimedOnce(s: State, v: nat, w: nat, d: Device)
    requires SnmpOnce(s) && v < |s.workers| && w < |s.workers| && v != w
    requires SnmpFlight(s.workers[v]) == Some(d)
    ensures SnmpFlight(s.workers[w]) != Some(d)
  {
    var flights := SnmpFlights(s.workers);
    assert flights[if v < w then v else w] != flights[if v < w then w else v];
  }

  lemma {:induction false} NamedNotClaimed(j: Job, s: State, step: Step, d: Device)
    requires Inv(j, s) && NamesFirst(j, s) && Enabled(j, s, step) && OfWorker(step) && j.snmp && j.names
    requires d in Apply(j, s, step).nameAttempted
    ensures d in Apply(j, s, step).snmpAttempted && !At(Apply(j, s, step).workers, Claimed(d))
  {
    var t := Apply(j, s, step);
    AtAfter(j, s, step, Claimed(d));
    OneMoves(j, s, step);
    assert At(s.workers, s.workers[step.worker]);
    if d !in s.nameAttempted && step.ClaimName? {
      forall k | 0 <= k < |t.workers| ensures t.workers[k] != Claimed(d) {
        if k != step.worker { ClaimedOnce(s, step.worker, k, d); }
      }
      assert Under(SnmpFlights(s.workers), d) by { assert SnmpFlights(s.workers)[step.worker] == Some(d); }
    }
  }

  /** How a worker comes to poll, to finish, and to have polled, when names are looked up too. */
  lemma {:induction false} TowardsPoll(j: Job, s: State, step: Step, d: Device)
    requires Enabled(j, s, step) && OfWorker(step) && j.snmp && j.names
    ensures var t := Apply(j, s, step); var p, q := s.workers[step.worker], t.workers[step.worker];
      && (q == Polling(d) ==> (p == Claimed(d) && d in s.nameAttempted) || (p == Looking(d, true) && d in t.lookups))
      && (q == Tail(d) ==> p == Polling(d)) && (d in t.polls && d !in s.polls ==> p == Polling(d))
      && (d in s.lookups ==> d in t.lookups)
  {
  }

  lemma {:induction false} PolledIsNamed(j: Job, s: State, step: Step, d: Device)
    requires Inv(j, s) && NamesFirst(j, s) && Enabled(j, s, step) && OfWorker(step) && j.snmp && j.names
    ensures var t := Apply(j, s, step);
      At(t.workers, Polling(d)) || At(t.workers, Tail(d)) || d in t.polls ==> d in t.lookups
  {
    TowardsPoll(j, s, step, d);
    AtAfter(j, s, step, Polling(d));
    AtAfter(j, s, step, Tail(d));
    assert At(s.workers, s.workers[step.worker]);
  }

  lemma {:induction false} StepKeepsNamesFirst(j: Job, s: State, step: Step)
    requires Inv(j, s) && NamesFirst(j, s) && Enabled(j, s, step)
    ensures NamesFirst(j, Apply(j, s, step))
  {
    var t := Apply(j, s, step);
    if OfWorker(step) && j.snmp && j.names {
      forall d | d in t.nameAttempted ensures d in t.snmpAttempted && !At(t.workers, Claimed(d)) {
        NamedNotClaimed(j, s, step, d);
      }
      forall d | At(t.workers, Polling(d)) || At(t.workers, Tail(d)) || d in t.polls ensures d in t.lookups {
        PolledIsNamed(j, s, step, d);
      }
      forall d ensures !At(t.workers, Looking(d, false)) {
        AtAfter(j, s, step, Looking(d, false));
        assert At(s.workers, s.workers[step.worker]);
      }
    }
  }

  lemma {:induction false} NamesFirstInv(j: Job, n: nat, states: seq<State>, k: int)
    requires Execution(j, n, states) && 0 <= k < |states|
    ensures NamesFirst(j, states[k])
  {
    if k > 0 {
      NamesFirstInv(j, n, states, k - 1);
      ExecutionInv(j, n, states, k - 1);
      assert Next(j, states[k - 1], states[k]);
      var step :| Enabled(j, states[k - 1], step) && states[k] == Apply(j, states[k - 1], step);
      StepKeepsNamesFirst(j, states[k - 1], step);
    }
  }

  /** With names and SNMP enabled no device is polled before its names were looked up, under any interleaving. */
  lemma NamedBeforePolled(j: Job, n: nat, states: seq<State>, k: int, d: Device)
    requires Execution(j, n, states) && 0 <= k < |states| && j.snmp && j.names
    ensures d in states[k].polls ==> d in states[k].lookups
  {
    NamesFirstInv(j, n, states, k);
  }

  // Every run ends, and none gets stuck before it

  function Weight(p: Phase): nat {
    match p
    case Waiting => 1
    case Got(_) => 8
    case Cleared(_) => 7
    case Claimed(_) => 6
    case Looking(_, thenPoll) => if thenPoll then 5 else 2
    case Polling(_) => 4
    case Tail(_) => 3
    case Exited => 0
  }

  function TotalWeight(ws: seq<Phase>): nat { if ws == [] then 0 else Weight(ws[0]) + TotalWeight(ws[1..]) }

  lemma {:induction false} TotalMoves(ws: seq<Phase>, w: nat, p: Phase)
    requires w < |ws|
    ensures TotalWeight(ws[w := p]) == TotalWeight(ws) - Weight(ws[w]) + Weight(p)
  {
    if w == 0 {
      assert ws[w := p][1..] == ws[1..];
    } else {
      TotalMoves(ws[1..], w - 1, p);
      assert ws[w := p][1..] == ws[1..][w - 1 := p];
    }
  }

  /** What is left to do. */
  function Left(j: Job, s: State): int {
    (|Targets(j)| - s.next) * 9 + TotalWeight(s.workers) + (if s.closed then 0 else 1) + (if s.cancelled then 0 else 1)
  }

  /** A worker's step makes its phase lighter; a send does so by taking a target. */
  lemma PhaseLighter(j: Job, s: State, step: Step)
    requires Enabled(j, s, step) && OfWorker(step)
    ensures Weight(Apply(j, s, step).workers[step.worker]) < Weight(s.workers[step.worker]) + (if step.Send? then 9 else 0)
  {
  }

  /** Every step, of any worker or of the producer, leaves strictly less to do. */
  lemma StepMakesProgress(j: Job, s: State, step: Step)
    requires s.next <= |Targets(j)| && Enabled(j, s, step)
    ensures 0 <= Left(j, Apply(j, s, step)) < Left(j, s)
  {
    if OfWorker(step) {
      OneMoves(j, s, step);
      PhaseLighter(j, s, step);
      TotalMoves(s.workers, step.worker, Apply(j, s, step).workers[step.worker]);
    }
  }

  /** No execution is longer than the initial amount of work allows. */
  lemma {:induction false} ExecutionsEnd(j: Job, n: nat, states: seq<State>)
    requires Execution(j, n, states)
    ensures Left(j, states[|states| - 1]) >= 0
    ensures |states| - 1 <= Left(j, Init(n)) - Left(j, states[|states| - 1])
    decreases |states|
  {
    if |states| > 1 {
      var rest := states[..|states| - 1];
      forall k | 0 < k < |rest| ensures Next(j, rest[k - 1], rest[k]) {
        assert Next(j, states[k - 1], states[k]);
      }
      ExecutionsEnd(j, n, rest);
      ExecutionInv(j, n, states, |states| - 2);
      assert Next(j, states[|states| - 2], states[|states| - 1]);
      var step :| Enabled(j, rest[|rest| - 1], step) && states[|states| - 1] == Apply(j, rest[|rest| - 1], step);
      StepMakesProgress(j, rest[|rest| - 1], step);
    }
  }

  function StepOf(s: State, w: nat): Step
    requires w < |s.workers| && s.workers[w] != Exited
  {
    match s.workers[w]
    case Waiting => if s.closed then Exit(w) else Send(w)
    case Got(_) => if s.cancelled then Drop(w) else Check(w)
    case Cleared(_) => Start(w)
    case Claimed(_) => ClaimName(w)
    case Looking(_, _) => Look(w)
    case Polling(_) => Poll(w, CutShort)
    case Tail(_) => Finish(w)
  }

  /** Until the pool has finished, somebody other than the canceller can move: no deadlock on the channel. */
  lemma NeverStuck(j: Job, n: nat, states: seq<State>, k: int)
    requires Execution(j, n, states) && 0 <= k < |states| && !Finished(states[k])
    ensures exists step :: Enabled(j, states[k], step) && step != Cancel
  {
    var s := states[k];
    ExecutionInv(j, n, states, k);
    if w :| 0 <= w < |s.workers| && InHand(s.workers[w]) {
      assert Enabled(j, s, StepOf(s, w));
    } else if s.closed {
      var w :| 0 <= w < |s.workers| && s.workers[w] != Exited;
      assert Enabled(j, s, StepOf(s, w));
    } else if s.next == |Targets(j)| {
      assert Enabled(j, s, CloseAtEnd);
    } else if s.cancelled {
      assert Enabled(j, s, CloseCancelled);
    } else {
      assert s.workers[0] == Waiting;
      assert Enabled(j, s, Send(0));
    }
  }
}
