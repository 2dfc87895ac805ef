/**
 * Runs that share devices: one run's deletes of automatic tags interleave with another's upserts. Each run clears its
 * devices first and upserts afterwards.
 */
module TagRuns {
  import opened Tags

  /** One statement of a run on device_tags. */
  datatype Act = Clear(run: nat, device: nat) | Put(run: nat, up: Upsert)

  function Cleared(rows: Rows, device: nat): Rows {
    map k | k in rows && !(k.device == device && k.source == Auto) :: rows[k]
  }

  function Perform(rows: Rows, a: Act): Rows {
    match a
    case Clear(_, device) => Cleared(rows, device)
    case Put(_, up) => Upserted(rows, Key(up.device, up.tag, Auto), up.confidence)
  }

  function AfterActs(rows: Rows, acts: seq<Act>): Rows {
    if acts == [] then rows else Perform(AfterActs(rows, acts[..|acts| - 1]), acts[|acts| - 1])
  }

  predicate Clears(a: Act, device: nat) { a.Clear? && a.device == device }

  ghost predicate EverCleared(acts: seq<Act>, device: nat) { exists i :: 0 <= i < |acts| && Clears(acts[i], device) }

  /** No statement after the `j`th clears the device. */
  ghost predicate NotClearedSince(acts: seq<Act>, device: nat, j: int) {
    forall i :: 0 <= i < |acts| && j < i ==> !Clears(acts[i], device)
  }

  /** The upserts for a device after its last clear. */
  function PutsSince(acts: seq<Act>, device: nat): seq<Upsert> {
    if acts == [] then []
    else
      var rest := PutsSince(acts[..|acts| - 1], device);
      match acts[|acts| - 1]
      case Clear(_, d) => if d == device then [] else rest
      case Put(_, up) => if up.device == device then rest + [up] else rest
  }

  ghost predicate PutAt(acts: seq<Act>, j: int, up: Upsert) { 0 <= j < |acts| && acts[j].Put? && acts[j].up == up }

  lemma {:induction false} PutsSinceMembers(acts: seq<Act>, device: nat, up: Upsert)
    ensures up in PutsSince(acts, device) <==>
      up.device == device && exists j :: PutAt(acts, j, up) && NotClearedSince(acts, device, j)
  {
    if acts != [] {
      var n := |acts| - 1;
      var rest := acts[..n];
      PutsSinceMembers(rest, device, up);
      if j :| PutAt(acts, j, up) && NotClearedSince(acts, device, j) {
        if j < n { assert PutAt(rest, j, up) && NotClearedSince(rest, device, j); }
      }
      if j :| PutAt(rest, j, up) && NotClearedSince(rest, device, j) {
        if !Clears(acts[n], device) { assert PutAt(acts, j, up) && NotClearedSince(acts, device, j); }
      }
      if acts[n] == Put(acts[n].run, up) { assert PutAt(acts, n, up) && NotClearedSince(acts, device, n); }
    }
  }

  /** What a device's rows start from: its rows without the automatic ones, once it was cleared. */
  ghost function Base(rows: Rows, acts: seq<Act>, device: nat): Rows {
    if EverCleared(acts, device) then Cleared(rows, device) else rows
  }

  lemma {:induction false} BaseNext(rows: Rows, acts: seq<Act>, device: nat)
    requires acts != []
    ensures var rest, last := acts[..|acts| - 1], acts[|acts| - 1];
      Base(rows, acts, device) == if Clears(last, device) then Cleared(rows, device) else Base(rows, rest, device)
  {
    var rest, last := acts[..|acts| - 1], acts[|acts| - 1];
    if Clears(last, device) { assert EverCleared(acts, device); }
    if i :| 0 <= i < |acts| && Clears(acts[i], device) {
      if i < |rest| { assert Clears(rest[i], device); }
    }
    if i :| 0 <= i < |rest| && Clears(rest[i], device) { assert Clears(acts[i], device); }
  }

  ghost predicate SameAt(a: Rows, b: Rows, k: Key) { (k in a <==> k in b) && (k in a ==> a[k] == b[k]) }

  lemma {:induction false} AfterSnoc(rows: Rows, ops: seq<Upsert>, up: Upsert)
    ensures After(rows, ops + [up]) == Upserted(After(rows, ops), Key(up.device, up.tag, Auto), up.confidence)
  {
    assert (ops + [up])[..|ops|] == ops;
  }

  /** A device's rows are as if only the upserts after its last clear had been made. */
  lemma {:induction false} OnlyLastPutsShow(rows: Rows, acts: seq<Act>, k: Key)
    ensures SameAt(AfterActs(rows, acts), After(Base(rows, acts, k.device), PutsSince(acts, k.device)), k)
  {
    if acts != [] {
      var rest, last := acts[..|acts| - 1], acts[|acts| - 1];
      OnlyLastPutsShow(rows, rest, k);
      BaseNext(rows, acts, k.device);
      if last.Put? {
        AfterSnoc(Base(rows, rest, k.device), PutsSince(rest, k.device), last.up);
      } else if last.device == k.device {
        ManualStays(rows, rest, k);
      }
    }
  }

  /** Manual rows are never touched. */
  lemma {:induction false} ManualStays(rows: Rows, acts: seq<Act>, k: Key)
    ensures k.source == Manual ==> SameAt(AfterActs(rows, acts), rows, k)
  {
    if acts != [] { ManualStays(rows, acts[..|acts| - 1], k); }
  }

  /**
   * Whatever runs interleave, after a clear of the device each of its automatic confidences is the highest upserted since
   * its last clear, and there is one exactly for the tags upserted since; manual rows are as before.
   */
  lemma {:induction false} SurvivesLastClear(rows: Rows, acts: seq<Act>, device: nat, tag: string)
    requires EverCleared(acts, device)
    ensures var k, all, since := Key(device, tag, Auto), AfterActs(rows, acts), PutsSince(acts, device);
      && (k in all <==> exists up :: up in since && up.tag == tag)
      && (k in all ==> exists up :: up in since && up.tag == tag && up.confidence == all[k])
      && (forall up :: up in since && up.tag == tag ==> k in all && up.confidence <= all[k])
    ensures SameAt(AfterActs(rows, acts), rows, Key(device, tag, Manual))
  {
    var k, since := Key(device, tag, Auto), PutsSince(acts, device);
    OnlyLastPutsShow(rows, acts, k);
    AfterIsHighest(Cleared(rows, device), since, k);
    ManualStays(rows, acts, Key(device, tag, Manual));
    forall up | up in since ensures up.device == device { PutsSinceMembers(acts, device, up); }
  }

  // Several runs, each delivering what it suggests

  /** A run upserts nothing before it has cleared all its devices. */
  ghost predicate ProgramOrder(acts: seq<Act>) {
    forall i, j :: 0 <= i < j < |acts| && acts[i].Put? && acts[j].Clear? ==> acts[i].run != acts[j].run
  }

  /** Run `run` makes this upsert. */
  ghost predicate Makes(acts: seq<Act>, run: nat, up: Upsert) {
    exists j :: PutAt(acts, j, up) && acts[j].run == run
  }

  ghost predicate Wanted(batches: seq<Batch>, up: Upsert) { exists b :: b in batches && Offered(b, up) }

  /** The upserts of each run are those its merged batches ask for. */
  ghost predicate RunsDeliver(acts: seq<Act>, batches: nat -> seq<Batch>) {
    forall run, up :: Makes(acts, run, up) <==> Wanted(batches(run), up)
  }

  ghost predicate LastClearBy(acts: seq<Act>, device: nat, run: nat) {
    exists i :: 0 <= i < |acts| && acts[i] == Clear(run, device) && NotClearedSince(acts, device, i)
  }

  /** Everything the last run to clear a device suggests for it comes after that clear. */
  lemma {:induction false} LastClearerKeepsAll(acts: seq<Act>, device: nat, run: nat, j: int, up: Upsert)
    requires ProgramOrder(acts) && LastClearBy(acts, device, run)
    requires PutAt(acts, j, up) && acts[j].run == run && up.device == device
    ensures up in PutsSince(acts, device)
  {
    var i :| 0 <= i < |acts| && acts[i] == Clear(run, device) && NotClearedSince(acts, device, i);
    assert i < j;
    assert NotClearedSince(acts, device, j);
    PutsSinceMembers(acts, device, up);
  }

  /** The confidence of an automatic tag, 0 when there is none. */
  ghost function Confidence(rows: Rows, device: nat, tag: string): int {
    if Key(device, tag, Auto) in rows then rows[Key(device, tag, Auto)] else 0
  }

  /** A run's best suggestion for a tag. */
  ghost function RunBest(batches: nat -> seq<Batch>, run: nat, device: nat, tag: string): nat {
    Best(Suggested(batches(run), device), tag)
  }

  lemma {:induction false} BestIsMade(acts: seq<Act>, batches: nat -> seq<Batch>, run: nat, device: nat, tag: string)
    requires RunsDeliver(acts, batches) && RunBest(batches, run, device, tag) > 0
    ensures Makes(acts, run, Upsert(device, tag, RunBest(batches, run, device, tag)))
  {
    BestIsWanted(batches(run), device, tag);
  }

  lemma {:induction false} BestIsWanted(batches: seq<Batch>, device: nat, tag: string)
    requires Best(Suggested(batches, device), tag) > 0
    ensures Wanted(batches, Upsert(device, tag, Best(Suggested(batches, device), tag)))
  {
    var top := Best(Suggested(batches, device), tag);
    BestIsOffered(batches, device, tag);
    var b :| b in batches && b.device == device && Best(Flat(b.groups), tag) == top;
    assert Offered(b, Upsert(device, tag, top));
  }

  lemma {:induction false} PutIsBelowBest(acts: seq<Act>, batches: nat -> seq<Batch>, j: int, up: Upsert)
    requires RunsDeliver(acts, batches) && PutAt(acts, j, up)
    ensures 0 < up.confidence <= RunBest(batches, acts[j].run, up.device, up.tag)
  {
    var run := acts[j].run;
    assert Makes(acts, run, up);
    WantedIsBelow(batches(run), up);
  }

  lemma {:induction false} WantedIsBelow(batches: seq<Batch>, up: Upsert)
    requires Wanted(batches, up)
    ensures 0 < up.confidence <= Best(Suggested(batches, up.device), up.tag)
  {
    BestIsOffered(batches, up.device, up.tag);
    var b :| b in batches && Offered(b, up);
  }

  /** Only `run` upserts for the device after its last clear. */
  ghost predicate AloneSince(acts: seq<Act>, device: nat, run: nat) {
    forall j :: 0 <= j < |acts| && acts[j].Put? && acts[j].up.device == device && NotClearedSince(acts, device, j) ==>
      acts[j].run == run
  }

  /** Where a device's confidence comes from: an upsert of some run after the last clear. */
  lemma {:induction false} ConfidenceIsPut(rows: Rows, acts: seq<Act>, batches: nat -> seq<Batch>, device: nat, tag: string)
    returns (j: int)
    requires RunsDeliver(acts, batches) && EverCleared(acts, device)
    requires Key(device, tag, Auto) in AfterActs(rows, acts)
    ensures PutAt(acts, j, Upsert(device, tag, Confidence(AfterActs(rows, acts), device, tag)))
    ensures NotClearedSince(acts, device, j)
    ensures 0 < Confidence(AfterActs(rows, acts), device, tag) <= RunBest(batches, acts[j].run, device, tag)
  {
    SurvivesLastClear(rows, acts, device, tag);
    var up :| up in PutsSince(acts, device) && up.tag == tag
              && up.confidence == AfterActs(rows, acts)[Key(device, tag, Auto)];
    PutsSinceMembers(acts, device, up);
    j :| PutAt(acts, j, up) && NotClearedSince(acts, device, j);
    PutIsBelowBest(acts, batches, j, up);
  }

  lemma {:induction false} AtLeastLastClearer(rows: Rows, acts: seq<Act>, batches: nat -> seq<Batch>, device: nat, run: nat,
                                              tag: string)
    requires ProgramOrder(acts) && RunsDeliver(acts, batches) && LastClearBy(acts, device, run)
    ensures Confidence(AfterActs(rows, acts), device, tag) >= RunBest(batches, run, device, tag)
  {
    var all, top := AfterActs(rows, acts), RunBest(batches, run, device, tag);
    assert EverCleared(acts, device);
    if top > 0 {
      BestIsMade(acts, batches, run, device, tag);
      var up := Upsert(device, tag, top);
      var j :| PutAt(acts, j, up) && acts[j].run == run;
      LastClearerKeepsAll(acts, device, run, j, up);
      SurvivesLastClear(rows, acts, device, tag);
    } else if Key(device, tag, Auto) in all {
      var j := ConfidenceIsPut(rows, acts, batches, device, tag);
    }
  }

  /**
   * For any number of interleaved runs: a device ends with no less than the last run to clear it suggests, and with no
   * more than some run suggests; when nobody else upserts for it after that clear, with exactly what that run suggests.
   */
  lemma {:induction false} LastClearerDecides(rows: Rows, acts: seq<Act>, batches: nat -> seq<Batch>, device: nat, run: nat,
                                              tag: string)
    requires ProgramOrder(acts) && RunsDeliver(acts, batches) && LastClearBy(acts, device, run)
    ensures Confidence(AfterActs(rows, acts), device, tag) >= RunBest(batches, run, device, tag)
    ensures exists other :: Confidence(AfterActs(rows, acts), device, tag) <= RunBest(batches, other, device, tag)
    ensures AloneSince(acts, device, run) ==>
      Confidence(AfterActs(rows, acts), device, tag) == RunBest(batches, run, device, tag)
  {
    AtLeastLastClearer(rows, acts, batches, device, run, tag);
    assert EverCleared(acts, device);
    if Key(device, tag, Auto) in AfterActs(rows, acts) {
      var j := ConfidenceIsPut(rows, acts, batches, device, tag);
    } else {
      assert Confidence(AfterActs(rows, acts), device, tag) <= RunBest(batches, run, device, tag);
    }
  }

  /** A run's suggestion upserted before another run clears the device is gone, though nobody withdrew it. */
  lemma {:induction false} ClearedByAnother()
    ensures var acts := [Clear(1, 7), Put(1, Upsert(7, "router", 80)), Clear(2, 7)];
      ProgramOrder(acts) && AfterActs(map[], acts) == map[] && LastClearBy(acts, 7, 2)
  {
    var acts := [Clear(1, 7), Put(1, Upsert(7, "router", 80)), Clear(2, 7)];
    var none: Rows := map[];
    assert acts[..2][..1] == [acts[0]] && [acts[0]][..0] == [];
    assert AfterActs(none, [acts[0]]) == none;
    assert acts[2] == Clear(2, 7);
    assert AfterActs(none, acts[..2]) == map[Key(7, "router", Auto) := 80];
  }
}
