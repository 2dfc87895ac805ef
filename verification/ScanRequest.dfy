/** What the API accepts as a scan request, and how the worker reads it back from the run row. */
module ScanRequest {
  import opened Orders
  import opened Text
  import opened DiscoveryRuns
  import opened ScanConfig
  import opened WorkerRun

  datatype RequestError = BadPreset | TooManyTags | UnknownTag

  /** validateScanPreset: absent or blank means normal. */
  function ValidateScanPreset(preset: Option<string>): Result<Preset, RequestError> {
    var s := if preset.Some? then ToLower(TrimSpace(preset.value)) else "";
    if s == "" || s == "normal" then Ok(Normal)
    else if s == "fast" then Ok(Fast)
    else if s == "deep" then Ok(Deep)
    else Err(BadPreset)
  }

  /** A preset the API accepts is the one the worker would read; one it refuses the worker would take for normal. */
  lemma AcceptedPresetIsRead(preset: string)
    ensures match ValidateScanPreset(Some(preset))
      case Ok(p) => CanonicalPreset(Some(Str(preset))) == p && CanonicalPreset(Some(Str(PresetText(p)))) == p
      case Err(_) => CanonicalPreset(Some(Str(preset))) == Normal
  {
    assert "normal" != "fast" && "normal" != "deep" && "" != "fast" && "" != "deep" && "fast" != "deep" by {
      assert |"normal"| == 6 && |"fast"| == 4 && |"deep"| == 4 && "fast"[0] != "deep"[0];
    }
    if ValidateScanPreset(Some(preset)).Ok? { PresetReadsBack(ValidateScanPreset(Some(preset)).value); }
  }

  /** Some entry of `tags` is `t` up to case and outer blanks. */
  predicate Asks(tags: seq<string>, t: string) { exists i :: 0 <= i < |tags| && Canonical(tags[i]) == t }

  lemma AsksNext(tags: seq<string>, i: nat, t: string)
    requires i < |tags|
    ensures Asks(tags[..i + 1], t) <==> Asks(tags[..i], t) || Canonical(tags[i]) == t
  {
    var longer := tags[..i + 1];
    assert forall k :: 0 <= k < i ==> longer[k] == tags[..i][k];
    assert longer[i] == tags[i];
  }

  /** normalizeScanTags: canonical, not blank, each once, in order of first mention. */
  method NormalizeScanTags(tags: seq<string>) returns (out: seq<string>)
    ensures Distinct(out) && forall t :: t in out <==> t != "" && Asks(tags, t)
  {
    var seen: set<string> := {};
    out := [];
    for i := 0 to |tags|
      invariant Distinct(out)
      invariant forall t :: t in seen <==> t in out
      invariant forall t :: t in out <==> t != "" && Asks(tags[..i], t)
    {
      forall t ensures Asks(tags[..i + 1], t) <==> Asks(tags[..i], t) || Canonical(tags[i]) == t { AsksNext(tags, i, t); }
      var s := Canonical(tags[i]);
      if s == "" { continue; }
      if s in seen { continue; }
      seen := seen + {s};
      out := out + [s];
    }
    assert tags[..|tags|] == tags;
  }

  /** Only known tags, or blanks that do not count. */
  predicate AllKnown(tags: seq<string>) {
    forall i :: 0 <= i < |tags| ==> Canonical(tags[i]) == "" || Canonical(tags[i]) in SCAN_TAGS
  }

  lemma {:induction false} DistinctSize(s: seq<string>)
    requires Distinct(s)
    ensures |set t | t in s| == |s|
  {
    if s != [] {
      var rest, last := s[..|s| - 1], s[|s| - 1];
      DistinctSize(rest);
      assert (set t | t in s) == (set t | t in rest) + {last};
    }
  }

  /** There are too few known tags for a list of distinct ones to be too long. */
  lemma KnownTagsFew(s: seq<string>)
    requires Distinct(s) && forall t :: t in s ==> t in SCAN_TAGS
    ensures |s| <= 4
  {
    DistinctSize(s);
    var all := {SCAN_TAGS[0], SCAN_TAGS[1], SCAN_TAGS[2], SCAN_TAGS[3]};
    var mine := set t | t in s;
    assert mine <= all;
    assert |all| == |mine| + |all - mine|;
  }

  /** Sorting distinct entries leaves them distinct and the same. */
  lemma SortedTags(s: seq<string>)
    requires Distinct(s)
    ensures Increasing(Less, Sort(Less, s)) && forall t :: t in Sort(Less, s) <==> t in s
  {
    LessStrictTotal();
    SeparatedWhenDistinct(Less, s);
    SortIncreasing(Less, s);
    SortElements(Less, s);
  }

  /** validateScanTags; None stands for no tags at all. */
  method ValidateScanTags(tags: seq<string>) returns (r: Result<Option<seq<string>>, RequestError>)
    ensures r.Ok? <==> AllKnown(tags)
    ensures r.Ok? && r.value.None? ==> forall t :: Asks(tags, t) ==> t == ""
    ensures r.Ok? && r.value.Some? ==>
      r.value.value != [] && Increasing(Less, r.value.value)
      && forall t :: t in r.value.value <==> t in SCAN_TAGS && Asks(tags, t)
  {
    var normalized := NormalizeScanTags(tags);
    KnownWhenListed(tags, normalized);
    if |normalized| == 0 { return Ok(None); }
    if AllKnown(tags) { KnownTagsFew(normalized); }
    if |normalized| > 8 { return Err(TooManyTags); }
    for i := 0 to |normalized|
      invariant forall k :: 0 <= k < i ==> normalized[k] in SCAN_TAGS
    {
      if normalized[i] !in SCAN_TAGS { return Err(UnknownTag); }
    }
    SortedTags(normalized);
    SortElements(Less, normalized);
    return Ok(Some(Sort(Less, normalized)));
  }

  lemma KnownWhenListed(tags: seq<string>, normalized: seq<string>)
    requires forall t :: t in normalized <==> t != "" && Asks(tags, t)
    ensures AllKnown(tags) <==> forall t :: t in normalized ==> t in SCAN_TAGS
  {
    if forall t :: t in normalized ==> t in SCAN_TAGS {
      forall i | 0 <= i < |tags| ensures Canonical(tags[i]) == "" || Canonical(tags[i]) in SCAN_TAGS {
        assert Asks(tags, Canonical(tags[i]));
      }
    }
  }

  // Reading the request back

  predicate LowerWord(t: string) { t != "" && forall i :: 0 <= i < |t| ==> 'a' <= t[i] <= 'z' }

  lemma LowerWordIsCanonical(t: string)
    requires LowerWord(t)
    ensures Canonical(t) == t
  {
    TrimSpaceFixed(t);
    assert ToLower(t) == t;
  }

  lemma KnownTagIsCanonical(t: string)
    requires t in SCAN_TAGS
    ensures Canonical(t) == t
  {
    assert LowerWord("ports") && LowerWord("snmp") && LowerWord("topology") && LowerWord("names");
    LowerWordIsCanonical(t);
  }

  lemma {:induction false} StringsOfStrs(ss: seq<string>)
    ensures Strings(Strs(ss).items) == ss
  {
    if ss != [] {
      StringsOfStrs(ss[1..]);
      assert Strs(ss).items[1..] == Strs(ss[1..]).items;
    }
  }

  lemma {:induction false} KnownTagIsItself(t: string)
    requires t in SCAN_TAGS
    ensures KnownTag(t) == [t]
  {
    KnownTagIsCanonical(t);
  }

  lemma {:induction false} KnownTagsOfKnown(ss: seq<string>)
    requires forall t :: t in ss ==> t in SCAN_TAGS
    ensures KnownTags(ss) == ss
  {
    forall t | t in ss ensures KnownTag(t) == [t] { KnownTagIsItself(t); }
    GatherThemselves(KnownTag, ss);
  }

  /** Tags the API stored come back unchanged when the worker canonicalizes the JSON it reads. */
  lemma {:induction false} StoredTagsReadBack(tags: seq<string>)
    requires Increasing(Less, tags) && forall t :: t in tags ==> t in SCAN_TAGS
    ensures CanonicalTags(Some(Strs(tags))) == Some(tags)
  {
    KnownTagsOfKnown(tags);
    SortedAlready(tags);
    RawTagsOfStrs(tags);
  }

  lemma {:induction false} RawTagsOfStrs(tags: seq<string>)
    ensures RawTags(Some(Strs(tags))) == Some(tags)
  {
    StringsOfStrs(tags);
  }

  lemma {:induction false} SortedAlready(tags: seq<string>)
    requires Increasing(Less, tags)
    ensures SortDistinct(Less, tags) == tags
  {
    LessStrictTotal();
    SortDistinctIncreasing(Less, tags);
    IncreasingUnique(Less, SortDistinct(Less, tags), tags);
  }

  lemma PresetReadsBack(p: Preset)
    ensures CanonicalPreset(Some(Str(PresetText(p)))) == p
  {
    assert LowerWord("fast") && LowerWord("normal") && LowerWord("deep");
    LowerWordIsCanonical(PresetText(p));
  }

  /** The worker that claims a run executes it with exactly the preset and tags the API accepted for it. */
  lemma RequestReachesWorker(id: string, scope: Scope, preset: Preset, tags: Option<seq<string>>, now: nat)
    requires tags.Some? ==> tags.value != [] && Increasing(Less, tags.value) && forall t :: t in tags.value ==> t in SCAN_TAGS
    ensures var row := ClaimedRun(EnqueuedRun(id, scope, PresetText(preset), if tags.Some? then tags.value else [], now));
      PresetOf(row) == preset && TagsOf(row) == (if tags.Some? then tags.value else []) && row.scope == scope
  {
    PresetReadsBack(preset);
    if tags.Some? { StoredTagsReadBack(tags.value); }
    StatsSurvive(id, scope, PresetText(preset), if tags.Some? then tags.value else [], now);
  }

  /** Claiming a run leaves the preset and the tags that were stored with it. */
  lemma StatsSurvive(id: string, scope: Scope, preset: string, tags: seq<string>, now: nat)
    ensures var stats := ClaimedRun(EnqueuedRun(id, scope, preset, tags, now)).stats;
      && Lookup(stats, "preset") == Some(Str(preset))
      && Lookup(stats, "tags") == if tags == [] then None else Some(Strs(tags))
  {
    KeysDiffer();
  }

  lemma KeysDiffer()
    ensures "stage" != "preset" && "stage" != "tags" && "preset" != "tags"
  {
    assert |"stage"| == 5 && |"preset"| == 6 && |"tags"| == 4;
  }

  lemma KnownWhenCanonical(value: Option<Stat>)
    requires CanonicalTags(value).Some?
    ensures Increasing(Less, CanonicalTags(value).value) && forall t :: t in CanonicalTags(value).value ==> t in SCAN_TAGS
  {
    CanonicalTagsMeaning(value, "");
    forall t | t in CanonicalTags(value).value ensures t in SCAN_TAGS { CanonicalTagsMeaning(value, t); }
  }

  /** The tags a run canonicalized are read back from what it stores, or from what was stored when it stores none. */
  lemma TagStatReadsBack(value: Option<Stat>)
    ensures var tags := CanonicalTags(value);
      (tags.Some? ==> CanonicalTags(Some(TagStat(tags))) == tags) && (tags.None? ==> CanonicalTags(Some(TagStat(tags))).None?)
  {
    if CanonicalTags(value).Some? {
      KnownWhenCanonical(value);
      StoredTagsReadBack(CanonicalTags(value).value);
    }
  }

  /** A failed run's stats: the budgets in force, the tags it read, and the preset that was there. */
  lemma FailedStats(c: Config, row: Run, msg: string, now: nat)
    ensures var stats := FailedRun(row, msg, FailStats(c, row, CanonicalTags(Lookup(row.stats, "tags"))), now).stats;
      && Lookup(stats, "preset") == Lookup(row.stats, "preset")
      && Lookup(stats, "tags") == Some(TagStat(CanonicalTags(Lookup(row.stats, "tags"))))
      && Lookup(stats, "max_targets") == Some(Num(c.maxTargets)) && Lookup(stats, "ping_workers") == Some(Num(c.pingWorkers))
      && Lookup(stats, "runtime_budget_ms") == Some(Num(c.maxRuntime))
  {
    FailKeysDiffer();
  }

  lemma FailKeysDiffer()
    ensures "preset" !in {"scope", "tags", "stage", "max_targets", "runtime_budget_ms", "ping_timeout_ms", "ping_workers"}
    ensures "tags" !in {"stage", "max_targets", "runtime_budget_ms", "ping_timeout_ms", "ping_workers"}
    ensures "max_targets" !in {"stage", "runtime_budget_ms", "ping_timeout_ms", "ping_workers"}
    ensures "runtime_budget_ms" !in {"stage", "ping_timeout_ms", "ping_workers"}
    ensures "ping_workers" != "stage" && "ping_workers" != "ping_timeout_ms"
  {
    assert |"preset"| == 6 && |"scope"| == 5 && |"tags"| == 4 && |"stage"| == 5 && |"max_targets"| == 11;
    assert |"runtime_budget_ms"| == 17 && |"ping_timeout_ms"| == 15 && |"ping_workers"| == 12;
  }

  /** A completed run's stats: the preset it ran under, and its tags when it had any. */
  lemma DoneStatsNames(report: Report)
    ensures var stats := DoneStats(report);
      && Lookup(stats, "preset") == Some(Str(PresetText(report.preset)))
      && Lookup(stats, "tags") == if report.tags.Some? && report.tags.value != [] then Some(Strs(report.tags.value)) else None
  {
    assert |"enrichment"| == 10 && |"port_scan"| == 9 && |"preset"| == 6 && |"tags"| == 4;
  }

  /** What an ending carries: the preset and tags the run read, or failure stats. */
  lemma EndingCarries(c: Config, delay: int, row: Run, env: Env)
    ensures var ending, tags := EndingOf(c, delay, row, env), CanonicalTags(Lookup(row.stats, "tags"));
      && (ending.Done? ==> ending.report.preset == PresetOf(row) && ending.report.tags == tags)
      && (ending.Broken? ==> ending.stats == FailStats(c, row, tags))
  {
  }

  /** The row still names the preset and tags the run read, and a failure shows the budgets in force. */
  ghost predicate ReadsBack(c: Config, row: Run, r: Run) {
    && PresetOf(r) == PresetOf(row) && TagsOf(r) == TagsOf(row) && r.scope == row.scope
    && (r.status == Failed ==>
          && Lookup(r.stats, "max_targets") == Some(Num(c.maxTargets))
          && Lookup(r.stats, "runtime_budget_ms") == Some(Num(c.maxRuntime))
          && Lookup(r.stats, "ping_workers") == Some(Num(c.pingWorkers)))
  }

  lemma FailedReadsBack(c: Config, row: Run, msg: string, now: nat)
    ensures ReadsBack(c, row, FailedRun(row, msg, FailStats(c, row, CanonicalTags(Lookup(row.stats, "tags"))), now))
  {
    FailedStats(c, row, msg, now);
    TagStatReadsBack(Lookup(row.stats, "tags"));
  }

  lemma FinishedReadsBack(c: Config, row: Run, report: Report, now: nat)
    requires report.preset == PresetOf(row) && report.tags == CanonicalTags(Lookup(row.stats, "tags"))
    ensures ReadsBack(c, row, FinishedRun(row, DoneStats(report), now))
  {
    DoneStatsNames(report);
    PresetReadsBack(report.preset);
    TagStatReadsBack(Lookup(row.stats, "tags"));
    FinishedStats(row, DoneStats(report), now);
  }

  lemma FinishedStats(row: Run, stats: Stats, now: nat)
    ensures var after := FinishedRun(row, stats, now).stats;
      && ("preset" in stats ==> Lookup(after, "preset") == Lookup(stats, "preset"))
      && Lookup(after, "tags") == if "tags" in stats then Lookup(stats, "tags") else Lookup(row.stats, "tags")
  {
    KeysDiffer();
  }

  /**
   * However a claimed run ends, its row still names the preset, tags and scope it ran under, and a failure records the
   * budgets in force.
   */
  lemma SettledRunReadsBack(c: Config, delay: int, row: Run, env: Env)
    requires row.status == Running
    ensures ReadsBack(c, row, SettledRow(c, delay, row, env))
  {
    var ending := EndingOf(c, delay, row, env);
    EndingCarries(c, delay, row, env);
    if ending.Done? && env.finishError.None? {
      FinishedReadsBack(c, row, ending.report, env.now);
    } else if !env.failError {
      FailedReadsBack(c, row, if ending.Done? then env.finishError.value else ending.msg, env.now);
    }
  }
}
