/** The worker's configuration, and the presets and tags that rewrite it for the length of one run. */
module ScanConfig {
  import opened Orders
  import opened Text
  import opened DiscoveryRuns
  import Inet

  /** Durations are in milliseconds. */
  datatype Config = Config(
    maxRuntime: int, maxTargets: int, pingTimeout: int, pingWorkers: int, enrichMaxTargets: int, enrichWorkers: int,
    portScanWorkers: int, portScanTimeout: int, portScanMaxTargets: int,
    nameResolutionEnabled: bool, snmpEnabled: bool, topologyLLDPEnabled: bool, topologyCDPEnabled: bool,
    portScanEnabled: bool)

  /** What applyScanPreset saves: everything but the name resolution flag. */
  datatype PresetSnapshot = PresetSnapshot(
    maxRuntime: int, maxTargets: int, pingTimeout: int, pingWorkers: int, enrichMaxTargets: int, enrichWorkers: int,
    portScanWorkers: int, portScanTimeout: int, portScanMaxTargets: int,
    snmpEnabled: bool, topologyLLDPEnabled: bool, topologyCDPEnabled: bool, portScanEnabled: bool)

  /** What applyScanTags saves; nothing is saved when there are no tags. */
  datatype TagSnapshot =
    | Nothing
    | TagSnapshot(nameResolutionEnabled: bool, snmpEnabled: bool, topologyLLDPEnabled: bool,
                  topologyCDPEnabled: bool, portScanEnabled: bool)

  datatype Preset = Fast | Normal | Deep

  const SCAN_TAGS := ["ports", "snmp", "topology", "names"]

  /** minInt and minDuration: the smaller, where a number that is not positive means "unset". */
  function MinSet(a: int, b: int): int { if a <= 0 then b else if b <= 0 then a else if a < b then a else b }

  /** maxInt and maxDuration. */
  function MaxSet(a: int, b: int): int { if a <= 0 then b else if b <= 0 then a else if a > b then a else b }

  function PresetText(p: Preset): string { if p == Fast then "fast" else if p == Deep then "deep" else "normal" }

  /** canonicalizeScanPreset: anything but the two special names is a normal scan. */
  function CanonicalPreset(value: Option<Stat>): Preset {
    match value
    case Some(Str(v)) =>
      var s := ToLower(TrimSpace(v));
      if s == "fast" then Fast else if s == "deep" then Deep else Normal
    case _ => Normal
  }

  /** The configuration a run with this preset works under. */
  function PresetConfig(c: Config, preset: Preset): Config {
    if preset == Fast then
      c.(maxRuntime := MinSet(c.maxRuntime, 15000), maxTargets := MinSet(c.maxTargets, 256),
         pingTimeout := MinSet(c.pingTimeout, 400), pingWorkers := MinSet(c.pingWorkers, 16),
         enrichMaxTargets := MinSet(c.enrichMaxTargets, 32), enrichWorkers := MinSet(c.enrichWorkers, 4),
         snmpEnabled := false, topologyLLDPEnabled := false, topologyCDPEnabled := false, portScanEnabled := false)
    else if preset == Deep then
      c.(maxRuntime := MaxSet(c.maxRuntime, 120000), maxTargets := MaxSet(c.maxTargets, 4096),
         pingTimeout := MaxSet(c.pingTimeout, 1500), pingWorkers := MaxSet(c.pingWorkers, 32),
         enrichMaxTargets := MaxSet(c.enrichMaxTargets, 256), enrichWorkers := MaxSet(c.enrichWorkers, 16),
         portScanWorkers := MaxSet(c.portScanWorkers, 8), portScanTimeout := MaxSet(c.portScanTimeout, 5000),
         portScanMaxTargets := MaxSet(c.portScanMaxTargets, 64),
         snmpEnabled := true, topologyLLDPEnabled := true, topologyCDPEnabled := true, portScanEnabled := true)
    else c
  }

  /** Tags only switch features on. */
  function TagConfig(c: Config, tags: seq<string>): Config {
    c.(nameResolutionEnabled := c.nameResolutionEnabled || "names" in tags,
       snmpEnabled := c.snmpEnabled || "snmp" in tags || "topology" in tags,
       topologyLLDPEnabled := c.topologyLLDPEnabled || "topology" in tags,
       topologyCDPEnabled := c.topologyCDPEnabled || "topology" in tags,
       portScanEnabled := c.portScanEnabled || "ports" in tags)
  }

  function SavePreset(c: Config): PresetSnapshot {
    PresetSnapshot(c.maxRuntime, c.maxTargets, c.pingTimeout, c.pingWorkers, c.enrichMaxTargets, c.enrichWorkers,
                   c.portScanWorkers, c.portScanTimeout, c.portScanMaxTargets,
                   c.snmpEnabled, c.topologyLLDPEnabled, c.topologyCDPEnabled, c.portScanEnabled)
  }

  function LoadPreset(c: Config, p: PresetSnapshot): Config {
    Config(p.maxRuntime, p.maxTargets, p.pingTimeout, p.pingWorkers, p.enrichMaxTargets, p.enrichWorkers,
           p.portScanWorkers, p.portScanTimeout, p.portScanMaxTargets,
           c.nameResolutionEnabled, p.snmpEnabled, p.topologyLLDPEnabled, p.topologyCDPEnabled, p.portScanEnabled)
  }

  function SaveTags(c: Config, tags: seq<string>): TagSnapshot {
    if |tags| == 0 then Nothing
    else
      TagSnapshot(c.nameResolutionEnabled, c.snmpEnabled, c.topologyLLDPEnabled, c.topologyCDPEnabled, c.portScanEnabled)
  }

  function LoadTags(c: Config, t: TagSnapshot): Config {
    if t.Nothing? then c
    else
      c.(nameResolutionEnabled := t.nameResolutionEnabled, snmpEnabled := t.snmpEnabled,
         topologyLLDPEnabled := t.topologyLLDPEnabled, topologyCDPEnabled := t.topologyCDPEnabled,
         portScanEnabled := t.portScanEnabled)
  }

  /** The configuration while a run executes. */
  function RunConfig(c: Config, preset: Preset, tags: seq<string>): Config { TagConfig(PresetConfig(c, preset), tags) }

  /** Undoing the tags and then the preset, as the deferred calls do, gives back the configuration before the run. */
  lemma UndoRestores(c: Config, preset: Preset, tags: seq<string>)
    ensures var p := PresetConfig(c, preset);
      LoadPreset(LoadTags(TagConfig(p, tags), SaveTags(p, tags)), SavePreset(c)) == c
  {
  }

  predicate SameFlags(a: Config, b: Config) {
    && a.snmpEnabled == b.snmpEnabled && a.portScanEnabled == b.portScanEnabled
    && a.topologyLLDPEnabled == b.topologyLLDPEnabled && a.topologyCDPEnabled == b.topologyCDPEnabled
  }

  /** In the other order the preset's flags would leak, exactly when there are tags and the preset flips a flag. */
  lemma WrongOrderLeaksIff(c: Config, preset: Preset, tags: seq<string>)
    ensures var p := PresetConfig(c, preset);
      LoadTags(LoadPreset(TagConfig(p, tags), SavePreset(c)), SaveTags(p, tags)) == c
      <==> |tags| == 0 || SameFlags(c, p)
  {
  }

  function OrDefault(v: int, default: int): int { if v <= 0 then default else v }

  /** Every budget is positive, as the constructor arranges. */
  predicate Positive(c: Config) {
    && c.maxRuntime > 0 && c.maxTargets > 0 && c.pingTimeout > 0 && c.pingWorkers > 0 && c.enrichMaxTargets > 0
    && c.enrichWorkers > 0 && c.portScanWorkers > 0 && c.portScanTimeout > 0 && c.portScanMaxTargets > 0
  }

  /** What New makes of its options. */
  function WithDefaults(o: Config): Config {
    Config(OrDefault(o.maxRuntime, 30000), OrDefault(o.maxTargets, 1024), OrDefault(o.pingTimeout, 800),
           OrDefault(o.pingWorkers, 16), OrDefault(o.enrichMaxTargets, 64), OrDefault(o.enrichWorkers, 8),
           OrDefault(o.portScanWorkers, 4), OrDefault(o.portScanTimeout, 3000), OrDefault(o.portScanMaxTargets, 24),
           o.nameResolutionEnabled, o.snmpEnabled, o.topologyLLDPEnabled, o.topologyCDPEnabled, o.portScanEnabled)
  }

  /** A new worker has positive budgets, under every preset and any tags; positive options are kept. */
  lemma DefaultsPositive(opts: Config, preset: Preset, tags: seq<string>)
    ensures Positive(RunConfig(WithDefaults(opts), preset, tags))
    ensures Positive(opts) ==> WithDefaults(opts) == opts
  {
    PresetBudgets(WithDefaults(opts), tags);
  }

  /** `a` spends at most what `b` does on every budget that `b` sets. */
  predicate Within(a: Config, b: Config) {
    && (b.maxRuntime > 0 ==> a.maxRuntime <= b.maxRuntime) && (b.maxTargets > 0 ==> a.maxTargets <= b.maxTargets)
    && (b.pingTimeout > 0 ==> a.pingTimeout <= b.pingTimeout) && (b.pingWorkers > 0 ==> a.pingWorkers <= b.pingWorkers)
    && (b.enrichMaxTargets > 0 ==> a.enrichMaxTargets <= b.enrichMaxTargets)
    && (b.enrichWorkers > 0 ==> a.enrichWorkers <= b.enrichWorkers)
    && (b.portScanWorkers > 0 ==> a.portScanWorkers <= b.portScanWorkers)
    && (b.portScanTimeout > 0 ==> a.portScanTimeout <= b.portScanTimeout)
    && (b.portScanMaxTargets > 0 ==> a.portScanMaxTargets <= b.portScanMaxTargets)
  }

  /** A fast run stays within the configured budgets, a deep run never goes below them; tags change no budget. */
  lemma PresetBudgets(c: Config, tags: seq<string>)
    ensures Within(RunConfig(c, Fast, tags), c) && Within(c, RunConfig(c, Deep, tags))
    ensures Positive(c) ==> Positive(RunConfig(c, Fast, tags)) && Positive(RunConfig(c, Deep, tags))
  {
  }

  /** The smaller of a configured budget and a cap, or the cap when none is configured. */
  predicate CutTo(v: int, configured: int, cap: int) {
    (v == cap || v == configured) && v <= cap && (configured > 0 ==> v <= configured) && (configured <= 0 ==> v == cap)
  }

  /** The larger of a configured budget and a floor. */
  predicate RaisedTo(v: int, configured: int, floor: int) {
    (v == floor || v == configured) && v >= floor && v >= configured
  }

  /** What each preset makes of each budget; times are milliseconds. */
  lemma FastBudgets(c: Config, tags: seq<string>)
    ensures var r := RunConfig(c, Fast, tags);
      && CutTo(r.maxRuntime, c.maxRuntime, 15000) && CutTo(r.maxTargets, c.maxTargets, 256)
      && CutTo(r.pingTimeout, c.pingTimeout, 400) && CutTo(r.pingWorkers, c.pingWorkers, 16)
      && CutTo(r.enrichMaxTargets, c.enrichMaxTargets, 32) && CutTo(r.enrichWorkers, c.enrichWorkers, 4)
      && r.portScanWorkers == c.portScanWorkers && r.portScanTimeout == c.portScanTimeout
      && r.portScanMaxTargets == c.portScanMaxTargets
  {
  }

  lemma DeepBudgets(c: Config, tags: seq<string>)
    ensures var r := RunConfig(c, Deep, tags);
      && RaisedTo(r.maxRuntime, c.maxRuntime, 120000) && RaisedTo(r.maxTargets, c.maxTargets, 4096)
      && RaisedTo(r.pingTimeout, c.pingTimeout, 1500) && RaisedTo(r.pingWorkers, c.pingWorkers, 32)
      && RaisedTo(r.enrichMaxTargets, c.enrichMaxTargets, 256) && RaisedTo(r.enrichWorkers, c.enrichWorkers, 16)
      && RaisedTo(r.portScanWorkers, c.portScanWorkers, 8) && RaisedTo(r.portScanTimeout, c.portScanTimeout, 5000)
      && RaisedTo(r.portScanMaxTargets, c.portScanMaxTargets, 64)
      && r.snmpEnabled && r.topologyLLDPEnabled && r.topologyCDPEnabled && r.portScanEnabled
      && (r.nameResolutionEnabled <==> c.nameResolutionEnabled || "names" in tags)
  {
  }

  /** A normal run keeps every budget and only adds the features its tags ask for. */
  lemma NormalRun(c: Config, tags: seq<string>)
    ensures var r := RunConfig(c, Normal, tags);
      && SameBudgets(r, c)
      && (r.snmpEnabled <==> c.snmpEnabled || "snmp" in tags || "topology" in tags)
      && (r.topologyLLDPEnabled <==> c.topologyLLDPEnabled || "topology" in tags)
      && (r.topologyCDPEnabled <==> c.topologyCDPEnabled || "topology" in tags)
      && (r.portScanEnabled <==> c.portScanEnabled || "ports" in tags)
      && (r.nameResolutionEnabled <==> c.nameResolutionEnabled || "names" in tags)
  {
  }

  predicate SameBudgets(a: Config, b: Config) {
    && a.maxRuntime == b.maxRuntime && a.maxTargets == b.maxTargets && a.pingTimeout == b.pingTimeout
    && a.pingWorkers == b.pingWorkers && a.enrichMaxTargets == b.enrichMaxTargets && a.enrichWorkers == b.enrichWorkers
    && a.portScanWorkers == b.portScanWorkers && a.portScanTimeout == b.portScanTimeout
    && a.portScanMaxTargets == b.portScanMaxTargets
  }

  /** A budget that is set is kept; one that is not gets the default. */
  predicate KeptOr(v: int, option: int, default: int) { (option > 0 ==> v == option) && (option <= 0 ==> v == default) }

  lemma DefaultValues(o: Config)
    ensures var c := WithDefaults(o);
      && KeptOr(c.maxRuntime, o.maxRuntime, 30000) && KeptOr(c.maxTargets, o.maxTargets, 1024)
      && KeptOr(c.pingTimeout, o.pingTimeout, 800) && KeptOr(c.pingWorkers, o.pingWorkers, 16)
      && KeptOr(c.enrichMaxTargets, o.enrichMaxTargets, 64) && KeptOr(c.enrichWorkers, o.enrichWorkers, 8)
      && KeptOr(c.portScanWorkers, o.portScanWorkers, 4) && KeptOr(c.portScanTimeout, o.portScanTimeout, 3000)
      && KeptOr(c.portScanMaxTargets, o.portScanMaxTargets, 24)
      && c.nameResolutionEnabled == o.nameResolutionEnabled && SameFlags(c, o)
  {
  }

  /** Under the fast preset a feature other than name resolution runs exactly when a tag asks for it. */
  lemma FastFeatures(c: Config, tags: seq<string>)
    ensures var r := RunConfig(c, Fast, tags);
      && (r.snmpEnabled <==> "snmp" in tags || "topology" in tags)
      && (r.topologyLLDPEnabled <==> "topology" in tags) && (r.topologyCDPEnabled <==> "topology" in tags)
      && (r.portScanEnabled <==> "ports" in tags)
      && (r.nameResolutionEnabled <==> c.nameResolutionEnabled || "names" in tags)
  {
  }

  // Tags as stored with the run

  /** The strings canonicalizeScanTags looks at: none at all for other JSON values. */
  function RawTags(value: Option<Stat>): Option<seq<string>> {
    match value
    case Some(List(items)) => Some(Strings(items))
    case Some(Str(s)) => Some([s])
    case _ => None
  }

  function Strings(items: seq<Stat>): seq<string> {
    if items == [] then []
    else (if items[0].Str? then [items[0].s] else []) + Strings(items[1..])
  }

  function Canonical(entry: string): string { ToLower(TrimSpace(entry)) }

  /** The tag an entry names, if it is known. */
  function KnownTag(entry: string): seq<string> { if Canonical(entry) in SCAN_TAGS then [Canonical(entry)] else [] }

  function Gather(f: string -> seq<string>, s: seq<string>): seq<string> {
    if s == [] then [] else Gather(f, s[..|s| - 1]) + f(s[|s| - 1])
  }

  lemma {:induction false} GatherNext(f: string -> seq<string>, s: seq<string>, i: nat)
    requires i < |s|
    ensures Gather(f, s[..i + 1]) == Gather(f, s[..i]) + f(s[i])
  {
    assert s[..i + 1][..i] == s[..i];
  }

  lemma {:induction false} GatherThemselves(f: string -> seq<string>, s: seq<string>)
    requires EachItself(f, s)
    ensures Gather(f, s) == s
  {
    if s != [] {
      var rest, last := s[..|s| - 1], s[|s| - 1];
      assert EachItself(f, rest) by { assert forall x :: x in rest ==> x in s; }
      GatherThemselves(f, rest);
      InitAndLast(s);
      assert f(last) == [last];
    }
  }

  ghost predicate EachItself(f: string -> seq<string>, s: seq<string>) { forall x :: x in s ==> f(x) == [x] }

  lemma {:induction false} InitAndLast(s: seq<string>)
    requires s != []
    ensures s == s[..|s| - 1] + [s[|s| - 1]]
  {
  }

  function KnownTags(raw: seq<string>): seq<string> { Gather(KnownTag, raw) }

  /** What canonicalizeScanTags returns; None is its nil slice. */
  function CanonicalTags(value: Option<Stat>): Option<seq<string>> {
    var raw := RawTags(value);
    if raw.None? then None else Some(SortDistinct(Less, KnownTags(raw.value)))
  }

  /** The tags a scan can name. */
  lemma ScanTags(t: string)
    ensures t in SCAN_TAGS <==> t == "ports" || t == "snmp" || t == "topology" || t == "names"
  {
  }

  lemma {:induction false} KnownTagsMembers(raw: seq<string>, t: string)
    ensures t in KnownTags(raw) <==> t in SCAN_TAGS && exists e :: e in raw && Canonical(e) == t
  {
    if raw != [] {
      KnownTagsMembers(raw[..|raw| - 1], t);
      assert raw == raw[..|raw| - 1] + [raw[|raw| - 1]];
    }
  }

  /** Exactly the known tags that some entry names up to case and blanks, each once, ascending. */
  lemma CanonicalTagsMeaning(value: Option<Stat>, t: string)
    requires CanonicalTags(value).Some?
    ensures RawTags(value).Some? && Increasing(Less, CanonicalTags(value).value)
    ensures t in CanonicalTags(value).value <==>
      t in SCAN_TAGS && exists e :: e in RawTags(value).value && Canonical(e) == t
  {
    LessStrictTotal();
    SortDistinctIncreasing(Less, KnownTags(RawTags(value).value));
    KnownTagsMembers(RawTags(value).value, t);
  }

  /** Stored tags are a list or one string, which counts as a list of it; other values are no tags. */
  lemma {:induction false} StoredTagForms(value: Stat)
    ensures CanonicalTags(None).None? && (CanonicalTags(Some(value)).Some? <==> value.List? || value.Str?)
    ensures value.Str? ==> CanonicalTags(Some(value)) == CanonicalTags(Some(List([value])))
  {
    OneString(value);
  }

  lemma {:induction false} OneString(value: Stat)
    ensures value.Str? ==> Strings([value]) == [value.s]
  {
    assert [value][1..] == [] && Strings([]) == [];
    assert value.Str? ==> Strings([value]) == [value.s] + [];
  }

  /** Entries of the list that are no strings do not matter. */
  lemma {:induction false} OtherEntries(items: seq<Stat>, x: Stat)
    requires !x.Str?
    ensures CanonicalTags(Some(List(items + [x]))) == CanonicalTags(Some(List(items)))
  {
    StringsAppend(items, x);
    assert RawTags(Some(List(items + [x]))) == RawTags(Some(List(items)));
  }

  lemma {:induction false} StringsAppend(items: seq<Stat>, x: Stat)
    ensures x.Str? ==> Strings(items + [x]) == Strings(items) + [x.s]
    ensures !x.Str? ==> Strings(items + [x]) == Strings(items)
  {
    var all := items + [x];
    if items == [] {
      assert all[0] == x && all[1..] == [];
    } else {
      StringsAppend(items[1..], x);
      assert all[0] == items[0] && all[1..] == items[1..] + [x];
    }
  }

  /** Only which known tags are named matters: order, case, blanks and repeats do not. */
  lemma CanonicalTagsSameNames(a: Option<Stat>, b: Option<Stat>)
    requires CanonicalTags(a).Some? && CanonicalTags(b).Some?
    requires forall t :: t in KnownTags(RawTags(a).value) <==> t in KnownTags(RawTags(b).value)
    ensures CanonicalTags(a) == CanonicalTags(b)
  {
    LessStrictTotal();
    SortDistinctIncreasing(Less, KnownTags(RawTags(a).value));
    SortDistinctIncreasing(Less, KnownTags(RawTags(b).value));
    IncreasingUnique(Less, CanonicalTags(a).value, CanonicalTags(b).value);
  }

  lemma {:induction false} KnownTagsNext(raw: seq<string>, i: nat)
    requires i < |raw|
    ensures KnownTags(raw[..i + 1]) == KnownTags(raw[..i]) + KnownTag(raw[i])
  {
    GatherNext(KnownTag, raw, i);
  }

  lemma SortedOnce(out: seq<string>, all: seq<string>)
    requires Distinct(out) && forall t :: t in out <==> t in all
    ensures Sort(Less, out) == SortDistinct(Less, all)
  {
    LessStrictTotal();
    SeparatedWhenDistinct(Less, out);
    SortIncreasing(Less, out);
    SortElements(Less, out);
    SortDistinctIncreasing(Less, all);
    IncreasingUnique(Less, Sort(Less, out), SortDistinct(Less, all));
  }

  method CanonicalizeScanTags(value: Option<Stat>) returns (tags: Option<seq<string>>)
    ensures tags == CanonicalTags(value)
  {
    var maybe := RawTags(value);
    if maybe.None? { return None; }
    var raw := maybe.value;
    var out: seq<string>, seen: set<string> := [], {};
    for i := 0 to |raw|
      invariant forall t :: t in seen <==> t in out
      invariant forall t :: t in out <==> t in KnownTags(raw[..i])
      invariant Distinct(out)
    {
      var s := Canonical(raw[i]);
      KnownTagsNext(raw, i);
      if s != "" && s in SCAN_TAGS && s !in seen {
        seen := seen + {s};
        out := out + [s];
      }
    }
    assert raw[..|raw|] == raw;
    SortedOnce(out, KnownTags(raw));
    return Some(Sort(Less, out));
  }

  /** backoffDuration, in milliseconds. */
  function Backoff(base: int, failures: int): int {
    var b := if base <= 0 then 400 else base;
    if failures <= 0 then b
    else
      var d := b * Inet.Pow2(if failures > 6 then 6 else failures);
      if d > 10000 then 10000 else d
  }

  /** The wait doubles with each failure from the interval, or 400 ms without one, up to six times and to ten seconds. */
  lemma BackoffDoubles(base: int, failures: int)
    ensures failures <= 0 ==> Backoff(base, failures) == if base <= 0 then 400 else base
    ensures failures == 1 && 0 < base <= 5000 ==> Backoff(base, failures) == 2 * base
    ensures failures >= 1 ==> Backoff(base, failures) <= 10000
    ensures failures >= 6 ==> Backoff(base, failures) == Backoff(base, 6)
    ensures 1 <= failures < 6 && Backoff(base, failures) < 10000 ==>
      Backoff(base, failures + 1) == if 2 * Backoff(base, failures) > 10000 then 10000 else 2 * Backoff(base, failures)
  {
    var b := if base <= 0 then 400 else base;
    assert Inet.Pow2(1) == 2;
    if 1 <= failures < 6 {
      assert Inet.Pow2(failures + 1) == 2 * Inet.Pow2(failures);
      assert b * (2 * Inet.Pow2(failures)) == 2 * (b * Inet.Pow2(failures));
    }
  }

  lemma MulMonotone(b: nat, p: nat, q: nat)
    requires p <= q
    ensures b * p <= b * q
  {
    var d := q - p;
    assert b * q == b * p + b * d;
    assert b * d >= 0;
  }

  lemma Scaled(b: nat, f: nat, g: nat)
    requires f <= g
    ensures b <= b * Inet.Pow2(f) <= b * Inet.Pow2(g)
  {
    Inet.Pow2Monotone(f, g);
    MulMonotone(b, Inet.Pow2(f), Inet.Pow2(g));
    MulMonotone(b, 1, Inet.Pow2(f));
  }

  lemma BackoffGrows(base: int, m: int, n: int)
    requires m <= n && base <= 10000
    ensures Backoff(base, m) <= Backoff(base, n)
  {
    var b := if base <= 0 then 400 else base;
    if n > 0 {
      var g: nat := if n > 6 then 6 else n;
      if m > 0 {
        Scaled(b, if m > 6 then 6 else m, g);
      } else {
        Scaled(b, 0, g);
      }
    }
  }

  /** Failures never shorten the wait, exactly when the poll interval is at most the ten second cap. */
  lemma BackoffGrowsIff(base: int)
    ensures (forall m, n :: m <= n ==> Backoff(base, m) <= Backoff(base, n)) <==> base <= 10000
  {
    if base > 10000 {
      assert Backoff(base, 0) > Backoff(base, 1) by {
        assert Backoff(base, 0) == base;
        assert Backoff(base, 1) <= 10000;
      }
    } else {
      forall m, n | m <= n ensures Backoff(base, m) <= Backoff(base, n) { BackoffGrows(base, m, n); }
    }
  }

  /** The fields of the worker that presets and tags rewrite. */
  class Worker {
    var maxRuntime: int
    var maxTargets: int
    var pingTimeout: int
    var pingWorkers: int
    var enrichMaxTargets: int
    var enrichWorkers: int
    var portScanWorkers: int
    var portScanTimeout: int
    var portScanMaxTargets: int
    var nameResolutionEnabled: bool
    var snmpEnabled: bool
    var topologyLLDPEnabled: bool
    var topologyCDPEnabled: bool
    var portScanEnabled: bool
    const runDelay: int

    /** New: a budget that is not positive gets its default. */
    constructor (opts: Config, delay: int)
      ensures Current() == WithDefaults(opts) && runDelay == (if delay < 0 then 0 else delay)
    {
      maxRuntime := OrDefault(opts.maxRuntime, 30000);
      maxTargets := OrDefault(opts.maxTargets, 1024);
      pingTimeout := OrDefault(opts.pingTimeout, 800);
      pingWorkers := OrDefault(opts.pingWorkers, 16);
      enrichMaxTargets := OrDefault(opts.enrichMaxTargets, 64);
      enrichWorkers := OrDefault(opts.enrichWorkers, 8);
      portScanWorkers := OrDefault(opts.portScanWorkers, 4);
      portScanTimeout := OrDefault(opts.portScanTimeout, 3000);
      portScanMaxTargets := OrDefault(opts.portScanMaxTargets, 24);
      nameResolutionEnabled := opts.nameResolutionEnabled;
      snmpEnabled := opts.snmpEnabled;
      topologyLLDPEnabled := opts.topologyLLDPEnabled;
      topologyCDPEnabled := opts.topologyCDPEnabled;
      portScanEnabled := opts.portScanEnabled;
      runDelay := if delay < 0 then 0 else delay;
    }

    function Current(): Config
      reads this
    {
      Config(maxRuntime, maxTargets, pingTimeout, pingWorkers, enrichMaxTargets, enrichWorkers,
             portScanWorkers, portScanTimeout, portScanMaxTargets,
             nameResolutionEnabled, snmpEnabled, topologyLLDPEnabled, topologyCDPEnabled, portScanEnabled)
    }

    method UseFast()
      modifies this
      ensures maxRuntime == MinSet(old(maxRuntime), 15000) && maxTargets == MinSet(old(maxTargets), 256)
      ensures pingTimeout == MinSet(old(pingTimeout), 400) && pingWorkers == MinSet(old(pingWorkers), 16)
      ensures enrichMaxTargets == MinSet(old(enrichMaxTargets), 32) && enrichWorkers == MinSet(old(enrichWorkers), 4)
      ensures !snmpEnabled && !topologyLLDPEnabled && !topologyCDPEnabled && !portScanEnabled
      ensures unchanged(`portScanWorkers, `portScanTimeout, `portScanMaxTargets, `nameResolutionEnabled)
    {
      maxRuntime := MinSet(maxRuntime, 15000);
      maxTargets := MinSet(maxTargets, 256);
      pingTimeout := MinSet(pingTimeout, 400);
      pingWorkers := MinSet(pingWorkers, 16);
      enrichMaxTargets := MinSet(enrichMaxTargets, 32);
      enrichWorkers := MinSet(enrichWorkers, 4);
      snmpEnabled := false;
      topologyLLDPEnabled := false;
      topologyCDPEnabled := false;
      portScanEnabled := false;
    }

    method UseDeep()
      modifies this
      ensures maxRuntime == MaxSet(old(maxRuntime), 120000) && maxTargets == MaxSet(old(maxTargets), 4096)
      ensures pingTimeout == MaxSet(old(pingTimeout), 1500) && pingWorkers == MaxSet(old(pingWorkers), 32)
      ensures enrichMaxTargets == MaxSet(old(enrichMaxTargets), 256) && enrichWorkers == MaxSet(old(enrichWorkers), 16)
      ensures snmpEnabled && topologyLLDPEnabled && topologyCDPEnabled && portScanEnabled
      ensures portScanWorkers == MaxSet(old(portScanWorkers), 8) && portScanTimeout == MaxSet(old(portScanTimeout), 5000)
      ensures portScanMaxTargets == MaxSet(old(portScanMaxTargets), 64) && unchanged(`nameResolutionEnabled)
    {
      DeepBudgets();
      snmpEnabled := true;
      topologyLLDPEnabled := true;
      topologyCDPEnabled := true;
      portScanEnabled := true;
      DeepPortScan();
    }

    method DeepBudgets()
      modifies `maxRuntime, `maxTargets, `pingTimeout, `pingWorkers, `enrichMaxTargets, `enrichWorkers
      ensures maxRuntime == MaxSet(old(maxRuntime), 120000) && maxTargets == MaxSet(old(maxTargets), 4096)
      ensures pingTimeout == MaxSet(old(pingTimeout), 1500) && pingWorkers == MaxSet(old(pingWorkers), 32)
      ensures enrichMaxTargets == MaxSet(old(enrichMaxTargets), 256) && enrichWorkers == MaxSet(old(enrichWorkers), 16)
    {
      maxRuntime := MaxSet(maxRuntime, 120000);
      maxTargets := MaxSet(maxTargets, 4096);
      pingTimeout := MaxSet(pingTimeout, 1500);
      pingWorkers := MaxSet(pingWorkers, 32);
      enrichMaxTargets := MaxSet(enrichMaxTargets, 256);
      enrichWorkers := MaxSet(enrichWorkers, 16);
    }

    method DeepPortScan()
      modifies `portScanWorkers, `portScanTimeout, `portScanMaxTargets
      ensures portScanWorkers == MaxSet(old(portScanWorkers), 8) && portScanTimeout == MaxSet(old(portScanTimeout), 5000)
      ensures portScanMaxTargets == MaxSet(old(portScanMaxTargets), 64)
    {
      portScanWorkers := MaxSet(portScanWorkers, 8);
      portScanTimeout := MaxSet(portScanTimeout, 5000);
      portScanMaxTargets := MaxSet(portScanMaxTargets, 64);
    }

    /** applyScanPreset, its switch in two helpers. */
    method ApplyScanPreset(preset: Preset) returns (saved: PresetSnapshot)
      modifies this
      ensures Current() == PresetConfig(old(Current()), preset)
      ensures saved == SavePreset(old(Current()))
    {
      saved := PresetSnapshot(maxRuntime, maxTargets, pingTimeout, pingWorkers, enrichMaxTargets, enrichWorkers,
                              portScanWorkers, portScanTimeout, portScanMaxTargets,
                              snmpEnabled, topologyLLDPEnabled, topologyCDPEnabled, portScanEnabled);
      match preset {
        case Fast => UseFast();
        case Deep => UseDeep();
        case Normal =>
      }
    }

    method RestorePreset(saved: PresetSnapshot)
      modifies this
      ensures saved == PresetSnapshot(
        maxRuntime, maxTargets, pingTimeout, pingWorkers, enrichMaxTargets, enrichWorkers,
        portScanWorkers, portScanTimeout, portScanMaxTargets,
        snmpEnabled, topologyLLDPEnabled, topologyCDPEnabled, portScanEnabled)
      ensures nameResolutionEnabled == old(nameResolutionEnabled)
    {
      RestoreBudgets(saved);
      snmpEnabled := saved.snmpEnabled;
      topologyLLDPEnabled := saved.topologyLLDPEnabled;
      topologyCDPEnabled := saved.topologyCDPEnabled;
      portScanEnabled := saved.portScanEnabled;
      portScanWorkers := saved.portScanWorkers;
      portScanTimeout := saved.portScanTimeout;
      portScanMaxTargets := saved.portScanMaxTargets;
    }

    method RestoreBudgets(saved: PresetSnapshot)
      modifies `maxRuntime, `maxTargets, `pingTimeout, `pingWorkers, `enrichMaxTargets, `enrichWorkers
      ensures maxRuntime == saved.maxRuntime && maxTargets == saved.maxTargets
      ensures pingTimeout == saved.pingTimeout && pingWorkers == saved.pingWorkers
      ensures enrichMaxTargets == saved.enrichMaxTargets && enrichWorkers == saved.enrichWorkers
    {
      maxRuntime := saved.maxRuntime;
      maxTargets := saved.maxTargets;
      pingTimeout := saved.pingTimeout;
      pingWorkers := saved.pingWorkers;
      enrichMaxTargets := saved.enrichMaxTargets;
      enrichWorkers := saved.enrichWorkers;
    }

    /** One iteration of the tag loop. */
    method SwitchOn(tag: string)
      modifies `nameResolutionEnabled, `snmpEnabled, `topologyLLDPEnabled, `topologyCDPEnabled, `portScanEnabled
      ensures portScanEnabled == (old(portScanEnabled) || tag == "ports")
      ensures snmpEnabled == (old(snmpEnabled) || tag == "snmp" || tag == "topology")
      ensures topologyLLDPEnabled == (old(topologyLLDPEnabled) || tag == "topology")
      ensures topologyCDPEnabled == (old(topologyCDPEnabled) || tag == "topology")
      ensures nameResolutionEnabled == (old(nameResolutionEnabled) || tag == "names")
    {
      if tag == "ports" {
        portScanEnabled := true;
      } else if tag == "snmp" {
        snmpEnabled := true;
      } else if tag == "topology" {
        snmpEnabled := true;
        topologyLLDPEnabled := true;
        topologyCDPEnabled := true;
      } else if tag == "names" {
        nameResolutionEnabled := true;
      }
    }

    method ApplyScanTags(tags: seq<string>) returns (saved: TagSnapshot)
      modifies `nameResolutionEnabled, `snmpEnabled, `topologyLLDPEnabled, `topologyCDPEnabled, `portScanEnabled
      ensures Current() == TagConfig(old(Current()), tags)
      ensures saved == SaveTags(old(Current()), tags)
    {
      if |tags| == 0 { return Nothing; }
      saved := TagSnapshot(nameResolutionEnabled, snmpEnabled, topologyLLDPEnabled, topologyCDPEnabled, portScanEnabled);
      for i := 0 to |tags|
        invariant portScanEnabled == (old(portScanEnabled) || "ports" in tags[..i])
        invariant snmpEnabled == (old(snmpEnabled) || "snmp" in tags[..i] || "topology" in tags[..i])
        invariant topologyLLDPEnabled == (old(topologyLLDPEnabled) || "topology" in tags[..i])
        invariant topologyCDPEnabled == (old(topologyCDPEnabled) || "topology" in tags[..i])
        invariant nameResolutionEnabled == (old(nameResolutionEnabled) || "names" in tags[..i])
      {
        assert tags[..i + 1] == tags[..i] + [tags[i]];
        SwitchOn(tags[i]);
      }
      assert tags[..|tags|] == tags;
    }

    method RestoreTags(saved: TagSnapshot)
      modifies this
      ensures Current() == LoadTags(old(Current()), saved)
    {
      if saved.TagSnapshot? {
        nameResolutionEnabled := saved.nameResolutionEnabled;
        snmpEnabled := saved.snmpEnabled;
        topologyLLDPEnabled := saved.topologyLLDPEnabled;
        topologyCDPEnabled := saved.topologyCDPEnabled;
        portScanEnabled := saved.portScanEnabled;
      }
    }
  }
}
