/** Automatic device tags: merging suggestions, and the device_tags table they are written to. */
module Tags {
  import opened Orders
  import opened Text

  /** Evidence is left out: neither confidences nor tags depend on it. */
  datatype Suggestion = Suggestion(tag: string, confidence: int)

  const ALL_TAGS := ["router", "switch", "access_point", "firewall", "printer", "server", "workstation", "nas",
                     "camera", "vm_host", "iot"]

  function NormalizeTag(tag: string): string { ToLower(TrimSpace(tag)) }

  predicate IsValidTag(tag: string) { NormalizeTag(tag) in ALL_TAGS }

  /** The tags there are. */
  lemma KnownTags(tag: string)
    ensures IsValidTag(tag) <==>
      (NormalizeTag(tag) in {"router", "switch", "access_point", "firewall", "printer", "server", "workstation", "nas",
                             "camera", "vm_host", "iot"})
  {
  }

  lemma {:induction false} NormalizeTagIdempotent(tag: string)
    ensures NormalizeTag(NormalizeTag(tag)) == NormalizeTag(tag)
  {
    TrimSpaceTrimmed(tag);
    ToLowerTrimmed(TrimSpace(tag));
    TrimSpaceFixed(NormalizeTag(tag));
    ToLowerTwice(TrimSpace(tag));
  }

  /** What a suggestion says for `tag`: nothing unless the tag is known and the confidence positive. */
  function Vote(s: Suggestion, tag: string): nat {
    if NormalizeTag(s.tag) == tag && tag in ALL_TAGS && s.confidence > 0 then s.confidence else 0
  }

  /** The highest vote for `tag`, 0 when there is none. */
  function Best(all: seq<Suggestion>, tag: string): nat {
    if all == [] then 0
    else
      var v, rest := Vote(all[|all| - 1], tag), Best(all[..|all| - 1], tag);
      if v > rest then v else rest
  }

  lemma {:induction false} BestIsMax(all: seq<Suggestion>, tag: string)
    ensures forall s :: s in all ==> Vote(s, tag) <= Best(all, tag)
    ensures Best(all, tag) > 0 ==> exists s :: s in all && Vote(s, tag) == Best(all, tag)
  {
    if all != [] {
      BestIsMax(all[..|all| - 1], tag);
      assert all == all[..|all| - 1] + [all[|all| - 1]];
    }
  }

  /** Order and repetition of suggestions do not matter. */
  lemma BestOfSameSuggestions(a: seq<Suggestion>, b: seq<Suggestion>, tag: string)
    requires forall s :: s in a <==> s in b
    ensures Best(a, tag) == Best(b, tag)
  {
    BestIsMax(a, tag);
    BestIsMax(b, tag);
  }

  function Flat(groups: seq<seq<Suggestion>>): seq<Suggestion> {
    if groups == [] then [] else Flat(groups[..|groups| - 1]) + groups[|groups| - 1]
  }

  // MergeSuggestions

  /** The order of the result: confidence falling, then tag rising. */
  predicate Before(a: Suggestion, b: Suggestion) {
    a.confidence > b.confidence || (a.confidence == b.confidence && Less(a.tag, b.tag))
  }

  /** Stronger suggestions first, and of one confidence the smaller tag. */
  lemma MergedOrder(out: seq<Suggestion>, i: nat, j: nat)
    requires Increasing(Before, out) && i < j < |out|
    ensures out[j].confidence <= out[i].confidence
    ensures out[j].confidence == out[i].confidence ==> Less(out[i].tag, out[j].tag)
  {
    assert Before(out[i], out[j]);
  }

  lemma BeforeStrict()
    ensures StrictTotal(Before)
  {
    forall a ensures !Before(a, a) { LessIrreflexive(a.tag); }
    forall a, b, c | Before(a, b) && Before(b, c) ensures Before(a, c) {
      if Less(a.tag, b.tag) && Less(b.tag, c.tag) { LessTransitive(a.tag, b.tag, c.tag); }
    }
    forall a, b ensures a == b || Before(a, b) || Before(b, a) { LessConnected(a.tag, b.tag); }
  }

  /** Every known tag with a positive suggestion, once, with the highest confidence suggested for it, in order. */
  ghost predicate Merged(all: seq<Suggestion>, out: seq<Suggestion>) {
    && Increasing(Before, out)
    && forall s :: s in out <==> s.confidence > 0 && s.confidence == Best(all, s.tag)
  }

  /** The result is fixed by the suggestions, whatever order the map is walked in. */
  lemma MergedUnique(all: seq<Suggestion>, a: seq<Suggestion>, b: seq<Suggestion>)
    requires Merged(all, a) && Merged(all, b)
    ensures a == b
  {
    BeforeStrict();
    IncreasingUnique(Before, a, b);
  }

  /** The map of MergeSuggestions after some suggestions. */
  ghost predicate Tallied(all: seq<Suggestion>, byTag: map<string, int>) {
    forall tag :: (tag in byTag <==> Best(all, tag) > 0) && (tag in byTag ==> byTag[tag] == Best(all, tag))
  }

  lemma TallyNext(all: seq<Suggestion>, byTag: map<string, int>, s: Suggestion)
    requires Tallied(all, byTag)
    ensures Tallied(all + [s], Tally(byTag, s))
  {
    NormalizeTagIdempotent(s.tag);
    assert (all + [s])[..|all|] == all;
  }

  /** What one pass of the inner loop makes of the map. */
  function Tally(byTag: map<string, int>, s: Suggestion): map<string, int> {
    var tag := NormalizeTag(s.tag);
    if !IsValidTag(tag) || s.confidence <= 0 then byTag
    else if tag !in byTag || s.confidence > byTag[tag] then byTag[tag := s.confidence]
    else byTag
  }

  /** The inner loop. */
  method MergeGroup(before: map<string, int>, group: seq<Suggestion>, ghost all: seq<Suggestion>)
    returns (byTag: map<string, int>)
    requires Tallied(all, before)
    ensures Tallied(all + group, byTag)
  {
    byTag := before;
    assert all + group[..0] == all;
    for k := 0 to |group|
      invariant Tallied(all + group[..k], byTag)
    {
      TallyNext(all + group[..k], byTag, group[k]);
      assert all + group[..k] + [group[k]] == all + group[..k + 1];
      var s := group[k];
      var tag := NormalizeTag(s.tag);
      if !IsValidTag(tag) { continue; }
      if s.confidence <= 0 { continue; }
      if tag !in byTag || s.confidence > byTag[tag] { byTag := byTag[tag := s.confidence]; }
    }
    assert group[..|group|] == group;
  }

  method MergeSuggestions(groups: seq<seq<Suggestion>>) returns (out: seq<Suggestion>)
    ensures Merged(Flat(groups), out)
  {
    var byTag: map<string, int> := map[];
    for i := 0 to |groups|
      invariant Tallied(Flat(groups[..i]), byTag)
    {
      assert groups[..i + 1][..i] == groups[..i];
      byTag := MergeGroup(byTag, groups[i], Flat(groups[..i]));
    }
    assert groups[..|groups|] == groups;
    out := Collect(byTag);
    BeforeStrict();
    SeparatedWhenDistinct(Before, out);
    SortIncreasing(Before, out);
    SortElements(Before, out);
    out := Sort(Before, out);
  }

  /** Appending a map's entries in whatever order the map yields them. */
  method Collect(byTag: map<string, int>) returns (out: seq<Suggestion>)
    ensures Distinct(out)
    ensures forall s :: s in out <==> s.tag in byTag && s.confidence == byTag[s.tag]
  {
    out := [];
    var left := byTag.Keys;
    while left != {}
      invariant left <= byTag.Keys
      invariant forall s :: s in out <==> s.tag in byTag && s.tag !in left && s.confidence == byTag[s.tag]
      invariant Distinct(out)
    {
      var tag :| tag in left;
      left := left - {tag};
      out := out + [Suggestion(tag, byTag[tag])];
    }
  }

  // The table

  datatype Source = Auto | Manual

  /** device_tags is unique on these three columns; its rows are a map to confidences. */
  datatype Key = Key(device: nat, tag: string, source: Source)

  type Rows = map<Key, int>

  /** One UpsertDeviceTag for an automatic tag. */
  datatype Upsert = Upsert(device: nat, tag: string, confidence: int)

  function Upserted(rows: Rows, k: Key, confidence: int): Rows {
    rows[k := if k in rows && rows[k] > confidence then rows[k] else confidence]
  }

  function After(rows: Rows, ops: seq<Upsert>): Rows {
    if ops == [] then rows
    else
      var op := ops[|ops| - 1];
      Upserted(After(rows, ops[..|ops| - 1]), Key(op.device, op.tag, Auto), op.confidence)
  }

  /** A key's value is the highest confidence it had or was given; only automatic keys change. */
  lemma {:induction false} AfterIsHighest(rows: Rows, ops: seq<Upsert>, k: Key)
    ensures k.source == Manual ==> (k in After(rows, ops) <==> k in rows)
    ensures k.source == Auto ==>
      (k in After(rows, ops) <==> k in rows || exists op :: op in ops && op.device == k.device && op.tag == k.tag)
    ensures k in rows ==> k in After(rows, ops) && rows[k] <= After(rows, ops)[k]
    ensures k in rows && k.source == Manual ==> After(rows, ops)[k] == rows[k]
    ensures forall op :: op in ops && Key(op.device, op.tag, Auto) == k ==>
      k in After(rows, ops) && op.confidence <= After(rows, ops)[k]
    ensures k in After(rows, ops) ==>
      (k in rows && After(rows, ops)[k] == rows[k])
      || exists op :: op in ops && Key(op.device, op.tag, Auto) == k && op.confidence == After(rows, ops)[k]
  {
    if ops != [] {
      AfterIsHighest(rows, ops[..|ops| - 1], k);
      assert ops == ops[..|ops| - 1] + [ops[|ops| - 1]];
    }
  }

  /** The suggestions one worker merges and writes for one device. */
  datatype Batch = Batch(device: nat, groups: seq<seq<Suggestion>>)

  /** Everything suggested for a device, over all batches. */
  function Suggested(batches: seq<Batch>, device: nat): seq<Suggestion> {
    if batches == [] then []
    else
      Suggested(batches[..|batches| - 1], device)
      + if batches[|batches| - 1].device == device then Flat(batches[|batches| - 1].groups) else []
  }

  ghost predicate Offered(b: Batch, op: Upsert) {
    op.device == b.device && op.confidence > 0 && op.confidence == Best(Flat(b.groups), op.tag)
  }

  /** `ops` interleaves, in any order, the rows that the merged batches ask for. */
  ghost predicate Delivers(ops: seq<Upsert>, batches: seq<Batch>) {
    forall op :: op in ops <==> exists b :: b in batches && Offered(b, op)
  }

  lemma {:induction false} SuggestedMembers(batches: seq<Batch>, device: nat, s: Suggestion)
    ensures s in Suggested(batches, device) <==>
      exists b :: b in batches && b.device == device && s in Flat(b.groups)
  {
    if batches != [] {
      SuggestedMembers(batches[..|batches| - 1], device, s);
      assert batches == batches[..|batches| - 1] + [batches[|batches| - 1]];
    }
  }

  /** No batch offers more than the best suggestion overall, and some batch offers exactly that. */
  lemma BestIsOffered(batches: seq<Batch>, device: nat, tag: string)
    ensures forall b :: b in batches && b.device == device ==> Best(Flat(b.groups), tag) <= Best(Suggested(batches, device), tag)
    ensures Best(Suggested(batches, device), tag) > 0 ==> exists b ::
      b in batches && b.device == device && Best(Flat(b.groups), tag) == Best(Suggested(batches, device), tag)
  {
    var all := Suggested(batches, device);
    BestIsMax(all, tag);
    forall b | b in batches && b.device == device ensures Best(Flat(b.groups), tag) <= Best(all, tag) {
      BestIsMax(Flat(b.groups), tag);
      if Best(Flat(b.groups), tag) > 0 {
        var s :| s in Flat(b.groups) && Vote(s, tag) == Best(Flat(b.groups), tag);
        SuggestedMembers(batches, device, s);
      }
    }
    if Best(all, tag) > 0 {
      var s :| s in all && Vote(s, tag) == Best(all, tag);
      SuggestedMembers(batches, device, s);
      var b :| b in batches && b.device == device && s in Flat(b.groups);
      BestIsMax(Flat(b.groups), tag);
    }
  }

  ghost predicate NoAuto(rows: Rows, device: nat) {
    forall k :: k in rows && k.device == device ==> k.source != Auto
  }

  /** A positive best suggestion is upserted as it is. */
  lemma BestIsDelivered(ops: seq<Upsert>, batches: seq<Batch>, device: nat, tag: string)
    requires Delivers(ops, batches) && Best(Suggested(batches, device), tag) > 0
    ensures Upsert(device, tag, Best(Suggested(batches, device), tag)) in ops
  {
    var top := Best(Suggested(batches, device), tag);
    BestIsOffered(batches, device, tag);
    var b :| b in batches && b.device == device && Best(Flat(b.groups), tag) == top;
    assert Offered(b, Upsert(device, tag, top));
  }

  /** Nothing above the best suggestion is upserted. */
  lemma DeliveredIsBelow(ops: seq<Upsert>, batches: seq<Batch>, op: Upsert)
    requires Delivers(ops, batches) && op in ops
    ensures 0 < op.confidence <= Best(Suggested(batches, op.device), op.tag)
  {
    BestIsOffered(batches, op.device, op.tag);
    var b :| b in batches && Offered(b, op);
  }

  /**
   * After the per-run delete, however the suggestions are batched and however the batches' upserts interleave, each
   * automatic confidence of a device is the highest valid positive suggestion for it; manual rows are as before.
   */
  lemma ConfidencesConverge(rows: Rows, ops: seq<Upsert>, batches: seq<Batch>, device: nat, tag: string)
    requires NoAuto(rows, device) && Delivers(ops, batches)
    ensures var k, top := Key(device, tag, Auto), Best(Suggested(batches, device), tag);
      (k in After(rows, ops) <==> top > 0) && (k in After(rows, ops) ==> After(rows, ops)[k] == top)
    ensures var m := Key(device, tag, Manual);
      (m in After(rows, ops) <==> m in rows) && (m in rows ==> After(rows, ops)[m] == rows[m])
  {
    var k, top := Key(device, tag, Auto), Best(Suggested(batches, device), tag);
    AfterIsHighest(rows, ops, k);
    AfterIsHighest(rows, ops, Key(device, tag, Manual));
    if top > 0 { BestIsDelivered(ops, batches, device, tag); }
    if k in After(rows, ops) {
      var op :| op in ops && Key(op.device, op.tag, Auto) == k && op.confidence == After(rows, ops)[k];
      DeliveredIsBelow(ops, batches, op);
    }
  }

  /** Two runs that gather the same suggestions end with the same automatic tags. */
  lemma SameSuggestionsSameTags(rows: Rows, ops: seq<Upsert>, batches: seq<Batch>, ops': seq<Upsert>,
                                batches': seq<Batch>, device: nat, tag: string)
    requires NoAuto(rows, device) && Delivers(ops, batches) && Delivers(ops', batches')
    requires forall s :: s in Suggested(batches, device) <==> s in Suggested(batches', device)
    ensures var k := Key(device, tag, Auto);
      && (k in After(rows, ops) <==> k in After(rows, ops'))
      && (k in After(rows, ops) ==> After(rows, ops)[k] == After(rows, ops')[k])
  {
    ConfidencesConverge(rows, ops, batches, device, tag);
    ConfidencesConverge(rows, ops', batches', device, tag);
    BestOfSameSuggestions(Suggested(batches, device), Suggested(batches', device), tag);
  }

  class TagTable {
    var rows: Rows

    constructor ()
      ensures rows == map[]
    {
      rows := map[];
    }

    /** DeleteDeviceTagsBySource. */
    method DeleteBySource(device: nat, source: Source)
      modifies this
      ensures rows == map k | k in old(rows) && !(k.device == device && k.source == source) :: old(rows)[k]
    {
      rows := map k | k in rows && !(k.device == device && k.source == source) :: rows[k];
    }

    /** The loop of runOnce that clears the automatic tags of every device of the run. */
    method ClearAuto(targets: seq<nat>)
      modifies this
      ensures rows == map k | k in old(rows) && !(k.source == Auto && k.device in targets) :: old(rows)[k]
      ensures forall d :: d in targets ==> NoAuto(rows, d)
    {
      var seen: set<nat> := {};
      for i := 0 to |targets|
        invariant forall d :: d in seen <==> d in targets[..i]
        invariant rows == map k | k in old(rows) && !(k.source == Auto && k.device in targets[..i]) :: old(rows)[k]
      {
        assert targets[..i + 1] == targets[..i] + [targets[i]];
        if targets[i] in seen { continue; }
        seen := seen + {targets[i]};
        DeleteBySource(targets[i], Auto);
      }
      assert targets[..|targets|] == targets;
    }

    /** The upsert loop for one device's merged suggestions. */
    method UpsertSuggestions(device: nat, suggestions: seq<Suggestion>) returns (ghost ops: seq<Upsert>)
      modifies this
      ensures rows == After(old(rows), ops)
      ensures forall op :: op in ops <==> op.device == device && Suggestion(op.tag, op.confidence) in suggestions
    {
      ops := [];
      for i := 0 to |suggestions|
        invariant rows == After(old(rows), ops)
        invariant forall op ::
          op in ops <==> op.device == device && Suggestion(op.tag, op.confidence) in suggestions[..i]
      {
        var s := suggestions[i];
        ghost var before := ops;
        rows := Upserted(rows, Key(device, s.tag, Auto), s.confidence);
        ops := ops + [Upsert(device, s.tag, s.confidence)];
        assert ops[..|ops| - 1] == before;
        assert suggestions[..i + 1] == suggestions[..i] + [s];
      }
      assert suggestions[..|suggestions|] == suggestions;
    }
  }

  // Suggestions from open ports

  /** The ports that suggest each tag: any of the first list, together with any of the second unless it is empty. */
  function SuggestFromOpenPorts(open: seq<int>): seq<Suggestion> {
    (if 9100 in open || 515 in open || 631 in open then [Suggestion("printer", 85)] else [])
    + (if 554 in open || 8554 in open then [Suggestion("camera", 82)] else [])
    + (if 53 in open && (67 in open || 68 in open) then [Suggestion("router", 80)] else [])
    + (if 2049 in open || 3260 in open then [Suggestion("nas", 78)] else [])
  }

  /** Which open ports suggest which tag, and how strongly; nothing else is suggested. */
  lemma PortsOfTags(open: seq<int>, s: Suggestion)
    ensures s in SuggestFromOpenPorts(open) <==>
      || (s.tag == "printer" && s.confidence == 85 && exists p :: p in open && p in {515, 631, 9100})
      || (s.tag == "camera" && s.confidence == 82 && exists p :: p in open && p in {554, 8554})
      || (s.tag == "router" && s.confidence == 80 && 53 in open && exists p :: p in open && p in {67, 68})
      || (s.tag == "nas" && s.confidence == 78 && exists p :: p in open && p in {2049, 3260})
  {
  }

  /** Finding more ports open never loses a suggestion, and the order in which they are found does not matter. */
  lemma OpenPortsMonotone(open: seq<int>, more: seq<int>, s: Suggestion)
    requires forall p :: p in open ==> p in more
    ensures s in SuggestFromOpenPorts(open) ==> s in SuggestFromOpenPorts(more)
    ensures (forall p :: p in more ==> p in open) ==> SuggestFromOpenPorts(open) == SuggestFromOpenPorts(more)
    ensures Best(SuggestFromOpenPorts(open), s.tag) <= Best(SuggestFromOpenPorts(more), s.tag)
  {
    forall v | v in SuggestFromOpenPorts(open) ensures v in SuggestFromOpenPorts(more) {
    }
    BestIsMax(SuggestFromOpenPorts(open), s.tag);
    BestIsMax(SuggestFromOpenPorts(more), s.tag);
  }

  // Tokens of a name

  predicate TokenChar(c: char) { 'a' <= c <= 'z' || '0' <= c <= '9' }

  /** Small letters and digits. */
  lemma TokenChars(c: char)
    ensures TokenChar(c) <==> 97 <= c as int <= 122 || 48 <= c as int <= 57
  {
  }

  predicate Word(s: string) { s != [] && forall i :: 0 <= i < |s| ==> TokenChar(s[i]) }

  /** How many token characters `s` ends with. */
  function TailLen(s: string): (n: nat)
    ensures n <= |s| && forall i :: |s| - n <= i < |s| ==> TokenChar(s[i])
    ensures n < |s| ==> !TokenChar(s[|s| - n - 1])
  {
    if s == [] || !TokenChar(s[|s| - 1]) then 0 else 1 + TailLen(s[..|s| - 1])
  }

  /** Ending a word; an empty buffer holds none. */
  function Flush(out: seq<string>, buf: string): seq<string> { if buf == [] then out else out + [buf] }

  /** The maximal runs of token characters, in order. */
  function Tokens(s: string): seq<string>
    decreases |s|
  {
    if s == [] then []
    else if !TokenChar(s[|s| - 1]) then Tokens(s[..|s| - 1])
    else
      var n := TailLen(s);
      Tokens(s[..|s| - n]) + [s[|s| - n..]]
  }

  /** The text from `k` on is an unfinished word, in the buffer; the words before it are out. */
  ghost predicate Scanned(s: string, out: seq<string>, buf: string, k: int) {
    k == |s| - TailLen(s) && buf == s[k..] && out == Tokens(s[..k])
  }

  lemma {:induction false} FlushTail(s: string, k: int)
    requires k == |s| - TailLen(s)
    ensures Tokens(s) == Flush(Tokens(s[..k]), s[k..])
  {
    if k == |s| { assert s[..k] == s; }
  }

  lemma TailNext(s: string, c: char)
    ensures TailLen(s + [c]) == if TokenChar(c) then TailLen(s) + 1 else 0
    ensures !TokenChar(c) ==> Tokens(s + [c]) == Tokens(s)
  {
    assert (s + [c])[..|s|] == s;
  }

  lemma SplitLonger(s: string, c: char, k: nat)
    requires k <= |s|
    ensures (s + [c])[..k] == s[..k] && (s + [c])[k..] == s[k..] + [c]
  {
  }

  lemma ScanWord(s: string, out: seq<string>, buf: string, k: int, c: char)
    requires Scanned(s, out, buf, k) && TokenChar(c)
    ensures Scanned(s + [c], out, buf + [c], k)
  {
    TailNext(s, c);
    SplitLonger(s, c, k);
  }

  lemma ScanBreak(s: string, out: seq<string>, buf: string, k: int, c: char)
    requires Scanned(s, out, buf, k) && !TokenChar(c)
    ensures Scanned(s + [c], Flush(out, buf), [], |s| + 1)
  {
    TailNext(s, c);
    FlushTail(s, k);
    assert (s + [c])[..|s| + 1] == s + [c];
  }

  lemma PrefixNext(s: string, i: nat)
    requires i < |s|
    ensures s[..i + 1] == s[..i] + [s[i]]
  {
  }

  method Tokenize(value: string) returns (out: seq<string>)
    ensures out == Tokens(value)
  {
    var buf: string := [];
    out := [];
    ghost var k := 0;
    for i := 0 to |value|
      invariant Scanned(value[..i], out, buf, k)
    {
      PrefixNext(value, i);
      if TokenChar(value[i]) {
        ScanWord(value[..i], out, buf, k, value[i]);
        buf := buf + [value[i]];
      } else {
        ScanBreak(value[..i], out, buf, k, value[i]);
        out := Flush(out, buf);
        buf := [];
        k := i + 1;
      }
    }
    assert value[..|value|] == value;
    FlushTail(value, k);
    out := Flush(out, buf);
  }

  lemma {:induction false} TailOfWord(w: string)
    requires Word(w)
    ensures TailLen(w) == |w| && Tokens(w) == [w]
  {
    if |w| > 1 { TailOfWord(w[..|w| - 1]); }
    assert w[..0] == [] && w[0..] == w;
  }

  lemma {:induction false} TailAfterSeparator(a: string, sep: char, b: string)
    requires !TokenChar(sep)
    ensures TailLen(a + [sep] + b) == TailLen(b)
  {
    if b == [] {
      assert a + [sep] + b == a + [sep];
    } else {
      assert (a + [sep] + b)[..|a| + |b|] == a + [sep] + b[..|b| - 1];
      TailAfterSeparator(a, sep, b[..|b| - 1]);
    }
  }

  /** A string that ends in a word: the tokens before the word, then the word. */
  lemma {:induction false} LastWord(s: string, u: string, w: string)
    requires s == u + w && w != [] && TailLen(s) == |w|
    ensures Tokens(s) == Tokens(u) + [w]
  {
    assert s[..|s| - |w|] == u && s[|s| - |w|..] == w;
  }

  lemma {:induction false} SplitAtSuffix(p: string, b: string, n: nat)
    requires n <= |b|
    ensures b == b[..|b| - n] + b[|b| - n..] && p + b == (p + b[..|b| - n]) + b[|b| - n..]
  {
  }

  /** A separator splits: with TailOfWord this determines the tokens of every string. */
  lemma {:induction false} TokensSplit(a: string, sep: char, b: string)
    requires !TokenChar(sep)
    ensures Tokens(a + [sep] + b) == Tokens(a) + Tokens(b)
    decreases |b|
  {
    if b == [] {
      assert a + [sep] + b == a + [sep];
      TailNext(a, sep);
    } else if !TokenChar(b[|b| - 1]) {
      assert a + [sep] + b == a + [sep] + b[..|b| - 1] + [b[|b| - 1]] && b == b[..|b| - 1] + [b[|b| - 1]];
      TailNext(a + [sep] + b[..|b| - 1], b[|b| - 1]);
      TailNext(b[..|b| - 1], b[|b| - 1]);
      TokensSplit(a, sep, b[..|b| - 1]);
    } else {
      var v, w := b[..|b| - TailLen(b)], b[|b| - TailLen(b)..];
      TailAfterSeparator(a, sep, b);
      SplitAtSuffix(a + [sep], b, TailLen(b));
      LastWord(a + [sep] + b, a + [sep] + v, w);
      LastWord(b, v, w);
      TokensSplit(a, sep, v);
    }
  }
}
