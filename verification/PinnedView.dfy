/** The live map view: a pinned or following projection, kept up to date by an effect that reruns until it settles. */
module PinnedView {
  import opened Text

  /** A fingerprint is never the empty string. */
  type Fingerprint = s: string | s != "" witness "{}"

  /** A projection object: its identity, which dependency lists compare, and its fingerprint. */
  datatype Projection = Projection(id: nat, fingerprint: Fingerprint)

  datatype State = State(pinned: bool, applied: Option<Projection>, pending: Option<Projection>, latest: Option<Projection>)

  /** The effect's dependency list. */
  datatype Deps = Deps(latest: Option<Projection>, pinned: bool, applied: Option<Projection>)

  datatype Event = Refresh(latest: Option<Projection>) | SetPinned(pinned: bool) | ApplyPending

  function DepsOf(s: State): Deps { Deps(s.latest, s.pinned, s.applied) }

  predicate SamePrint(a: Option<Projection>, b: Option<Projection>) {
    a.Some? && b.Some? && a.value.fingerprint == b.value.fingerprint
  }

  /** One run of the effect. */
  function Effect(s: State): State {
    if s.latest.None? then s
    else if s.applied.None? then s.(applied := s.latest)
    else if SamePrint(s.latest, s.applied) then s.(pending := None)
    else if s.pinned then s.(pending := s.latest)
    else s.(applied := s.latest, pending := None)
  }

  /** Where the effect ends up. */
  function Converged(s: State): State {
    if s.latest.None? then s
    else if s.applied.Some? && !SamePrint(s.latest, s.applied) && s.pinned then s.(pending := s.latest)
    else if SamePrint(s.latest, s.applied) then s.(pending := None)
    else s.(applied := s.latest, pending := None)
  }

  /** The state updates of an event, before the effect runs. */
  function Handled(s: State, e: Event): State {
    match e
    case Refresh(latest) => s.(latest := latest)
    case SetPinned(pinned) =>
      if !pinned && s.pending.Some? then s.(pinned := pinned, applied := s.pending, pending := None)
      else s.(pinned := pinned)
    case ApplyPending => if s.pending.Some? then s.(applied := s.pending, pending := None) else s
  }

  function Step(s: State, e: Event): State { Converged(Handled(s, e)) }

  function Initial(initial: Option<Projection>): State { Converged(State(true, initial, None, initial)) }

  function After(s: State, events: seq<Event>): State {
    if events == [] then s else Step(After(s, events[..|events| - 1]), events[|events| - 1])
  }

  /** What holds whenever the view is at rest. */
  predicate AtRest(s: State) {
    && (!s.pinned ==> s.pending.None?)
    && (s.pending.Some? ==> s.applied.Some?)
    && Effect(s) == s
  }

  predicate HasPendingUpdates(s: State) {
    s.pending.Some? && s.latest.Some? && s.applied.Some? && !SamePrint(s.latest, s.applied)
  }

  lemma StepAtRest(s: State, e: Event)
    requires AtRest(s)
    ensures AtRest(Step(s, e))
  {
  }

  lemma {:induction false} AfterAtRest(initial: Option<Projection>, events: seq<Event>)
    ensures AtRest(After(Initial(initial), events))
  {
    if events != [] {
      AfterAtRest(initial, events[..|events| - 1]);
      StepAtRest(After(Initial(initial), events[..|events| - 1]), events[|events| - 1]);
    }
  }

  /**
   * At rest with a latest projection: it is pending exactly when the view is pinned and shows something else, nothing else
   * is ever pending, and an unpinned view shows it.
   */
  lemma {:induction false} RestMeans(initial: Option<Projection>, events: seq<Event>)
    ensures var s := After(Initial(initial), events);
      s.latest.Some? ==>
        && s.applied.Some?
        && (s.pending == s.latest <==> s.pinned && !SamePrint(s.applied, s.latest))
        && (s.pending.Some? ==> s.pending == s.latest)
        && (!s.pinned ==> SamePrint(s.applied, s.latest))
        && (HasPendingUpdates(s) <==> s.pending.Some?)
  {
    AfterAtRest(initial, events);
  }

  /** Without a latest projection a pending one can be left over, unannounced but still applied on request. */
  lemma StalePending(shown: Projection, other: Projection)
    requires shown.fingerprint != other.fingerprint
    ensures var s := After(Initial(Some(shown)), [Refresh(Some(other)), Refresh(None)]);
      s.pending == Some(other) && !HasPendingUpdates(s) && Step(s, ApplyPending).applied == Some(other)
  {
    var events := [Refresh(Some(other)), Refresh(None)];
    var s0 := Initial(Some(shown));
    assert events[..1] == [Refresh(Some(other))] && events[..1][..0] == [];
    assert After(s0, events[..1]) == Step(s0, Refresh(Some(other)));
    assert After(s0, events) == Step(Step(s0, Refresh(Some(other))), Refresh(None));
  }

  /** A pending projection is the latest one exactly when there is a latest one. */
  lemma {:induction false} PendingIsLatestIff(initial: Option<Projection>, events: seq<Event>)
    requires After(Initial(initial), events).pending.Some?
    ensures var s := After(Initial(initial), events);
      s.pending == s.latest <==> s.latest.Some?
  {
    AfterAtRest(initial, events);
  }

  predicate Passive(e: Event) { e.Refresh? || e == SetPinned(true) }

  /** However many projections arrive, a pinned view keeps showing what it shows until someone applies or unpins. */
  lemma {:induction false} PinnedShowsTheSame(s: State, events: seq<Event>)
    requires AtRest(s) && s.pinned && s.applied.Some?
    requires forall e :: e in events ==> Passive(e)
    ensures After(s, events).applied == s.applied && After(s, events).pinned && AtRest(After(s, events))
  {
    if events != [] {
      assert forall e :: e in events[..|events| - 1] ==> e in events;
      PinnedShowsTheSame(s, events[..|events| - 1]);
      assert Passive(events[|events| - 1]);
      StepAtRest(After(s, events[..|events| - 1]), events[|events| - 1]);
    }
  }

  /** Applying or unpinning catches up with the latest projection and leaves nothing pending. */
  lemma CatchUp(s: State, e: Event)
    requires AtRest(s) && s.latest.Some? && (e == ApplyPending || e == SetPinned(false))
    ensures SamePrint(Step(s, e).applied, s.latest) && Step(s, e).pending.None?
  {
  }

  /** The order of two refreshes only matters through the last one. */
  lemma LastRefreshWins(s: State, first: Option<Projection>, last: Option<Projection>)
    requires AtRest(s) && s.pinned && s.applied.Some? && last.Some?
    ensures Step(Step(s, Refresh(first)), Refresh(last)) == Step(s, Refresh(last))
  {
  }

  /** The provider's state variables, the last dependency list its effect saw, and the handlers that change them. */
  class Provider {
    var pinned: bool
    var appliedProjection: Option<Projection>
    var pendingProjection: Option<Projection>
    var latestProjection: Option<Projection>
    var seenDeps: Option<Deps>

    function Contents(): State
      reads this
    {
      State(pinned, appliedProjection, pendingProjection, latestProjection)
    }

    /** The effect has seen the present dependencies, and has nothing more to do. */
    ghost predicate Valid()
      reads this
    {
      AtRest(Contents()) && seenDeps == Some(DepsOf(Contents()))
    }

    constructor (initial: Option<Projection>)
      ensures Valid() && Contents() == Initial(initial)
    {
      pinned, appliedProjection, pendingProjection, latestProjection := true, initial, None, initial;
      seenDeps := None;
      new;
      var runs := RunEffects();
    }

    method RunEffect()
      modifies this
      ensures Contents() == Effect(old(Contents())) && seenDeps == old(seenDeps)
    {
      if latestProjection.None? { return; }
      if appliedProjection.None? {
        appliedProjection := latestProjection;
        return;
      }
      if latestProjection.value.fingerprint == appliedProjection.value.fingerprint {
        pendingProjection := None;
        return;
      }
      if pinned {
        pendingProjection := latestProjection;
        return;
      }
      appliedProjection := latestProjection;
      pendingProjection := None;
    }

    /** The effect runs while its dependencies differ from those it last saw: at most twice. */
    method RunEffects() returns (runs: nat)
      requires seenDeps == Some(DepsOf(Contents())) ==> Converged(Contents()) == Contents()
      modifies this
      ensures Contents() == Converged(old(Contents())) && seenDeps == Some(DepsOf(Contents()))
      ensures runs <= 2
    {
      runs := 0;
      ghost var start := Contents();
      while seenDeps != Some(DepsOf(Contents()))
        invariant runs <= 2
        invariant runs == 0 ==> Contents() == start
        invariant runs > 0 ==> Converged(Contents()) == Converged(start)
        invariant runs == 1 ==> Contents() == Effect(start) && seenDeps == Some(DepsOf(start))
        invariant seenDeps == Some(DepsOf(Contents())) ==> Contents() == Converged(start)
        invariant runs == 2 ==> seenDeps == Some(DepsOf(Contents()))
        decreases 2 - runs
      {
        seenDeps := Some(DepsOf(Contents()));
        RunEffect();
        runs := runs + 1;
      }
    }

    /** A fetched projection, or none for a new layer or focus. */
    method Receive(latest: Option<Projection>)
      requires Valid()
      modifies this
      ensures Valid() && Contents() == Step(old(Contents()), Refresh(latest))
    {
      latestProjection := latest;
      var runs := RunEffects();
    }

    method ApplyPendingUpdates()
      requires Valid()
      modifies this
      ensures Valid() && Contents() == Step(old(Contents()), ApplyPending)
    {
      if pendingProjection.Some? {
        appliedProjection := pendingProjection;
        pendingProjection := None;
      }
      var runs := RunEffects();
    }

    method SetPinnedWithSemantics(nextPinned: bool)
      requires Valid()
      modifies this
      ensures Valid() && Contents() == Step(old(Contents()), SetPinned(nextPinned))
    {
      pinned := nextPinned;
      if !nextPinned && pendingProjection.Some? {
        appliedProjection := pendingProjection;
        pendingProjection := None;
      }
      var runs := RunEffects();
    }
  }
}
