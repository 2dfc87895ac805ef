/** Candidate names of a device: normalizing, scoring, choosing a display name and ordering for display. */
module Naming {
  import opened Orders
  import opened Text

  datatype Candidate = Candidate(name: string, source: string)

  datatype Normalized = Normalized(stored: string, display: string, score: int, ok: bool)

  const MIN_SCORE := 70

  predicate HasBlank(s: string) { ' ' in s || '\t' in s }

  predicate LabelChar(c: char) {
    'a' <= c <= 'z' || 'A' <= c <= 'Z' || '0' <= c <= '9' || c == '-' || c == '_'
  }

  predicate LooksHostnameLabel(s: string) { s != "" && forall i :: 0 <= i < |s| ==> LabelChar(s[i]) }

  /** Letters of either case, digits, the hyphen and the underscore. */
  lemma LabelChars(c: char)
    ensures LabelChar(c) <==>
      65 <= c as int <= 90 || 97 <= c as int <= 122 || 48 <= c as int <= 57 || c as int == 45 || c as int == 95
  {
  }

  predicate LooksGarbage(s: string) {
    || s == "" || Contains(s, "in-addr.arpa") || Contains(s, "ip6.arpa")
    || s in ["workgroup", "mshome", "__msbrowse__", "localdomain", "localhost"]
  }

  function BaseScore(source: string): int {
    match source
    case "dhcp" => 95
    case "reverse_dns" => 90
    case "snmp" => 88
    case "lldp" => 86
    case "cdp" => 86
    case "mdns" => 80
    case "netbios" => 78
    case "manual" => 70
    case _ => 50
  }

  function ScoreCandidate(source: string, stored: string, display: string): int {
    var normalized := ToLower(stored);
    if LooksGarbage(normalized) then -1
    else
      BaseScore(source)
      - (if |display| < 2 then 50 else 0)
      - (if HasBlank(display) then 25 else 0)
      - (if !LooksHostnameLabel(display) then 20 else 0)
      - (if HasSuffix(normalized, ".local") || HasSuffix(normalized, ".localdomain") then 5 else 0)
  }

  /** The label before the first dot, when the name is dotted, has no blanks and does not start with a dot. */
  function DisplayOf(stored: string): string {
    var dot := IndexOf(stored, '.');
    if dot < |stored| && !HasBlank(stored) && dot > 0 then stored[..dot] else stored
  }

  function WithoutDot(s: string): string { if HasSuffix(s, ".") then s[..|s| - 1] else s }

  /** NormalizeCandidate. */
  function NormalizeCandidate(c: Candidate): Normalized {
    var source, name := ToLower(TrimSpace(c.source)), WithoutDot(TrimSpace(c.name));
    if name == "" then Normalized("", "", 0, false)
    else
      var stored := if source == "reverse_dns" || source == "mdns" then ToLower(name) else name;
      var display := DisplayOf(stored);
      var score := ScoreCandidate(source, stored, display);
      Normalized(stored, display, score, score >= 0)
  }

  /** betterCandidate. */
  predicate Better(a: Normalized, b: Normalized) {
    if a.score != b.score then a.score > b.score
    else if |a.display| != |b.display| then |a.display| < |b.display|
    else if a.display != b.display then Less(a.display, b.display)
    else Less(a.stored, b.stored)
  }

  /** Good enough to become a display name unasked. */
  predicate Eligible(n: Normalized) { n.ok && n.score >= MIN_SCORE }

  /** A candidate with what it normalizes to. */
  datatype Scored = Scored(orig: Candidate, n: Normalized)

  function Paired(f: Candidate -> Normalized, cands: seq<Candidate>): (list: seq<Scored>)
    ensures |list| == |cands|
  {
    if cands == [] then []
    else
      var last := cands[|cands| - 1];
      Paired(f, cands[..|cands| - 1]) + [Scored(last, f(last))]
  }

  function ScoredList(cands: seq<Candidate>): seq<Scored> { Paired(NormalizeCandidate, cands) }

  function Originals(list: seq<Scored>): (cands: seq<Candidate>)
    ensures |cands| == |list| && forall i :: 0 <= i < |list| ==> cands[i] == list[i].orig
  {
    if list == [] then [] else Originals(list[..|list| - 1]) + [list[|list| - 1].orig]
  }

  function NormalsOf(list: seq<Scored>): (ns: seq<Normalized>)
    ensures |ns| == |list| && forall i :: 0 <= i < |list| ==> ns[i] == list[i].n
  {
    if list == [] then [] else NormalsOf(list[..|list| - 1]) + [list[|list| - 1].n]
  }

  function Normals(cands: seq<Candidate>): seq<Normalized> { NormalsOf(ScoredList(cands)) }

  lemma NormalsNext(list: seq<Scored>, s: Scored)
    ensures NormalsOf(list + [s]) == NormalsOf(list) + [s.n]
  {
  }

  lemma PairedNext(f: Candidate -> Normalized, cands: seq<Candidate>, i: nat)
    requires i < |cands|
    ensures Paired(f, cands[..i + 1]) == Paired(f, cands[..i]) + [Scored(cands[i], f(cands[i]))]
    ensures NormalsOf(Paired(f, cands[..i + 1])) == NormalsOf(Paired(f, cands[..i])) + [f(cands[i])]
  {
    assert cands[..i + 1][..i] == cands[..i];
    NormalsNext(Paired(f, cands[..i]), Scored(cands[i], f(cands[i])));
  }

  lemma {:induction false} PairedAt(f: Candidate -> Normalized, cands: seq<Candidate>, i: nat)
    requires i < |cands|
    ensures Paired(f, cands)[i] == Scored(cands[i], f(cands[i]))
  {
    if i < |cands| - 1 { PairedAt(f, cands[..|cands| - 1], i); }
  }

  /** The list that is sorted holds the very candidates, in their order. */
  lemma {:induction false} PairedOriginals(f: Candidate -> Normalized, cands: seq<Candidate>)
    ensures Originals(Paired(f, cands)) == cands
  {
    forall i | 0 <= i < |cands| ensures Originals(Paired(f, cands))[i] == cands[i] { PairedAt(f, cands, i); }
  }

  /**
   * What can become a display name: at least two characters, no blanks, from a known source; and a plain hostname label
   * unless DHCP or reverse DNS vouches for it.
   */
  lemma EligibleNames(c: Candidate)
    requires Eligible(NormalizeCandidate(c))
    ensures var display, source := NormalizeCandidate(c).display, ToLower(TrimSpace(c.source));
      && |display| >= 2 && !HasBlank(display)
      && source in ["dhcp", "reverse_dns", "snmp", "lldp", "cdp", "mdns", "netbios", "manual"]
      && (LooksHostnameLabel(display) || source in ["dhcp", "reverse_dns"])
  {
    var source := ToLower(TrimSpace(c.source));
    BaseScoreBounds(source);
    SourcesKnown(source);
    BlankIsNoLabel(NormalizeCandidate(c).display);
  }

  lemma SourcesKnown(source: string)
    ensures BaseScore(source) >= MIN_SCORE <==>
      source in ["dhcp", "reverse_dns", "snmp", "lldp", "cdp", "mdns", "netbios", "manual"]
    ensures BaseScore(source) >= 90 <==> source in ["dhcp", "reverse_dns"]
  {
  }

  lemma BlankIsNoLabel(s: string)
    ensures HasBlank(s) ==> !LooksHostnameLabel(s)
  {
    if HasBlank(s) {
      var i :| 0 <= i < |s| && (s[i] == ' ' || s[i] == '\t');
      assert !LabelChar(s[i]);
    }
  }

  lemma BaseScoreBounds(source: string)
    ensures 50 <= BaseScore(source) <= 95
  {
  }

  // The order of candidates

  /** Better is a strict weak order, and a tie means the same score, display name and stored name. */
  lemma BetterIsStrictWeak(a: Normalized, b: Normalized, c: Normalized)
    ensures !Better(a, a) && !(Better(a, b) && Better(b, a))
    ensures Better(a, b) && Better(b, c) ==> Better(a, c)
    ensures Better(a, c) ==> Better(a, b) || Better(b, c)
    ensures !Better(a, b) && !Better(b, a) <==> a.score == b.score && a.display == b.display && a.stored == b.stored
  {
    BetterAsymmetric(a, a);
    BetterAsymmetric(a, b);
    BetterConnected(a, b);
    if Better(a, b) && Better(b, c) { BetterTransitive(a, b, c); }
    if Better(a, c) && !Better(a, b) {
      if Better(b, a) { BetterTransitive(b, a, c); }
    }
  }

  lemma BetterAsymmetric(a: Normalized, b: Normalized)
    ensures !(Better(a, b) && Better(b, a))
  {
    LessIrreflexive(a.display);
    LessIrreflexive(a.stored);
    if Less(a.display, b.display) && Less(b.display, a.display) { LessTransitive(a.display, b.display, a.display); }
    if Less(a.stored, b.stored) && Less(b.stored, a.stored) { LessTransitive(a.stored, b.stored, a.stored); }
  }

  lemma BetterTransitive(a: Normalized, b: Normalized, c: Normalized)
    requires Better(a, b) && Better(b, c)
    ensures Better(a, c)
  {
    if Less(a.display, b.display) && Less(b.display, c.display) {
      LessTransitive(a.display, b.display, c.display);
      LessIrreflexive(a.display);
    }
    if Less(a.stored, b.stored) && Less(b.stored, c.stored) { LessTransitive(a.stored, b.stored, c.stored); }
    BetterAsymmetric(a, b);
  }

  lemma BetterConnected(a: Normalized, b: Normalized)
    ensures Better(a, b) || Better(b, a) || (a.score == b.score && a.display == b.display && a.stored == b.stored)
  {
    LessConnected(a.display, b.display);
    LessConnected(a.stored, b.stored);
  }

  // Choosing a display name

  /** A name that survives normalizing starts with something other than a blank, and so does its display name. */
  lemma DisplayNotBlank(c: Candidate)
    requires NormalizeCandidate(c).ok
    ensures TrimSpace(NormalizeCandidate(c).display) != ""
  {
    TrimSpaceTrimmed(c.name);
    var n := NormalizeCandidate(c);
    assert n.display != "" && !IsSpace(n.display[0]);
    TrimRightEnds(n.display);
    TrimRightKeepsHead(n.display);
  }

  lemma {:induction false} TrimRightKeepsHead(s: string)
    requires s != "" && !IsSpace(s[0])
    ensures TrimRight(s) != ""
  {
    if IsSpace(s[|s| - 1]) { TrimRightKeepsHead(s[..|s| - 1]); }
  }

  /** `n` is an eligible candidate that no eligible candidate beats. */
  ghost predicate Unbeaten(ns: seq<Normalized>, n: Normalized) {
    n in ns && Eligible(n) && forall e :: e in ns && Eligible(e) ==> !Better(e, n)
  }

  /** The display name of an unbeaten candidate, or none when no candidate is eligible. */
  ghost predicate Chosen(ns: seq<Normalized>, r: Option<string>) {
    && (r.None? <==> forall n :: n in ns ==> !Eligible(n))
    && (r.Some? ==> exists n :: Unbeaten(ns, n) && n.display == r.value)
  }

  lemma StillUnbeaten(seen: seq<Normalized>, next: Normalized, best: Normalized)
    requires Unbeaten(seen, best)
    ensures Eligible(next) && Better(next, best) ==> Unbeaten(seen + [next], next)
    ensures !(Eligible(next) && Better(next, best)) ==> Unbeaten(seen + [next], best)
  {
    BetterAsymmetric(next, next);
    if Eligible(next) && Better(next, best) {
      forall e | e in seen && Eligible(e) ensures !Better(e, next) {
        if Better(e, next) { BetterTransitive(e, next, best); }
      }
    }
  }

  method ChooseBestDisplayName(cands: seq<Candidate>) returns (r: Option<string>)
    ensures Chosen(Normals(cands), r)
  {
    var best := Normalized("", "", -1_000_000, false);
    ghost var found := false;
    for i := 0 to |cands|
      invariant !found ==> best.score == -1_000_000 && forall n :: n in Normals(cands[..i]) ==> !Eligible(n)
      invariant found ==> Unbeaten(Normals(cands[..i]), best) && TrimSpace(best.display) != ""
    {
      var next := NormalizeCandidate(cands[i]);
      PairedNext(NormalizeCandidate, cands, i);
      if found { StillUnbeaten(Normals(cands[..i]), next, best); }
      if !next.ok { continue; }
      if next.score < MIN_SCORE { continue; }
      if Better(next, best) {
        DisplayNotBlank(cands[i]);
        BetterAsymmetric(next, next);
        best, found := next, true;
      }
    }
    assert cands[..|cands|] == cands;
    if best.score < MIN_SCORE || TrimSpace(best.display) == "" { return None; }
    assert Unbeaten(Normals(cands), best);
    return Some(best.display);
  }

  /** All unbeaten candidates have the same display name. */
  lemma UnbeatenShareDisplay(a: seq<Normalized>, b: seq<Normalized>, m: Normalized, n: Normalized)
    requires Unbeaten(a, m) && Unbeaten(b, n) && m in b && n in a
    ensures m.display == n.display
  {
    BetterConnected(m, n);
  }

  /** The choice depends only on which candidates there are, not on their order or repetition. */
  lemma ChoiceIgnoresOrder(a: seq<Normalized>, b: seq<Normalized>, r: Option<string>, s: Option<string>)
    requires Chosen(a, r) && Chosen(b, s) && forall n :: n in a <==> n in b
    ensures r == s
  {
    if r.Some? && s.Some? {
      var m :| Unbeaten(a, m) && m.display == r.value;
      var n :| Unbeaten(b, n) && n.display == s.value;
      UnbeatenShareDisplay(a, b, m, n);
    }
  }

  lemma UnbeatenBefore(ns: seq<Normalized>, extra: Normalized, n: Normalized)
    requires Unbeaten(ns + [extra], n) && n != extra
    ensures Unbeaten(ns, n)
  {
    assert forall e :: e in ns ==> e in ns + [extra];
  }

  /** A further candidate either takes the choice or leaves it as it was. */
  lemma MoreCandidates(ns: seq<Normalized>, extra: Normalized, r: Option<string>, s: Option<string>)
    requires Chosen(ns, r) && Chosen(ns + [extra], s)
    ensures s == r || s == Some(extra.display)
  {
    if r.Some? {
      var m :| Unbeaten(ns, m) && m.display == r.value;
      assert m in ns + [extra];
      var n :| Unbeaten(ns + [extra], n) && n.display == s.value;
      if n != extra {
        UnbeatenBefore(ns, extra, n);
        UnbeatenShareDisplay(ns, ns, m, n);
      }
    } else if s.Some? {
      var n :| Unbeaten(ns + [extra], n) && n.display == s.value;
      if n != extra { UnbeatenBefore(ns, extra, n); }
    }
  }

  // Ordering for display

  predicate KeyBefore(x: Normalized, y: Normalized) {
    if x.ok != y.ok then x.ok
    else if x.score != y.score then x.score > y.score
    else if x.display != y.display then Less(x.display, y.display)
    else Less(x.stored, y.stored)
  }

  lemma KeyBeforeTransitive(x: Normalized, y: Normalized, z: Normalized)
    requires KeyBefore(x, y) && KeyBefore(y, z)
    ensures KeyBefore(x, z)
  {
    if Less(x.display, y.display) && Less(y.display, z.display) {
      LessTransitive(x.display, y.display, z.display);
      LessIrreflexive(x.display);
    }
    if Less(x.stored, y.stored) && Less(y.stored, z.stored) { LessTransitive(x.stored, y.stored, z.stored); }
  }

  lemma KeyBeforeConnected(x: Normalized, y: Normalized)
    ensures x == y || KeyBefore(x, y) || KeyBefore(y, x)
  {
    LessConnected(x.display, y.display);
    LessConnected(x.stored, y.stored);
  }

  /** The comparison of SortCandidatesForDisplay. */
  predicate ShownBefore(a: Scored, b: Scored) { KeyBefore(a.n, b.n) }

  lemma ShownBeforeWeakOrder()
    ensures WeakOrder(ShownBefore)
  {
    forall a: Scored ensures !ShownBefore(a, a) { LessIrreflexive(a.n.stored); }
    forall a: Scored, b: Scored, c: Scored | ShownBefore(a, b) && ShownBefore(b, c) ensures ShownBefore(a, c) {
      KeyBeforeTransitive(a.n, b.n, c.n);
    }
    forall a: Scored, b: Scored, c: Scored | ShownBefore(a, c) ensures ShownBefore(a, b) || ShownBefore(b, c) {
      KeyBeforeConnected(a.n, b.n);
      if ShownBefore(b, a) { KeyBeforeTransitive(b.n, a.n, c.n); }
    }
  }

  function Listed(list: seq<Scored>): seq<Scored> { Sort(ShownBefore, list) }

  method ScoreAll(cands: seq<Candidate>) returns (scoredList: seq<Scored>)
    ensures scoredList == ScoredList(cands)
  {
    scoredList := [];
    for i := 0 to |cands|
      invariant scoredList == ScoredList(cands[..i])
    {
      PairedNext(NormalizeCandidate, cands, i);
      scoredList := scoredList + [Scored(cands[i], NormalizeCandidate(cands[i]))];
    }
    assert cands[..|cands|] == cands;
  }

  method TakeOriginals(scoredList: seq<Scored>) returns (out: seq<Candidate>)
    ensures out == Originals(scoredList)
  {
    out := [];
    for i := 0 to |scoredList|
      invariant out == Originals(scoredList[..i])
    {
      assert scoredList[..i + 1][..i] == scoredList[..i];
      out := out + [scoredList[i].orig];
    }
    assert scoredList[..|scoredList|] == scoredList;
  }

  method SortCandidatesForDisplay(cands: seq<Candidate>) returns (out: seq<Candidate>)
    ensures out == Originals(Listed(ScoredList(cands)))
  {
    var scoredList := ScoreAll(cands);
    scoredList := Sort(ShownBefore, scoredList);
    out := TakeOriginals(scoredList);
  }

  /** The listing loses and invents no candidate, and no candidate comes after one it should precede. */
  lemma ListingOrdered(list: seq<Scored>)
    ensures multiset(Listed(list)) == multiset(list) && Ordered(ShownBefore, Listed(list))
  {
    ShownBeforeWeakOrder();
    SortOrdered(ShownBefore, list);
    SortElements(ShownBefore, list);
  }

  function TiedWith(n: Normalized): Scored -> bool { (s: Scored) => s.n == n }

  /** Candidates that normalize alike stay in the order they were recorded in. */
  lemma ListingStable(list: seq<Scored>, n: Normalized)
    ensures Filter(TiedWith(n), Listed(list)) == Filter(TiedWith(n), list)
  {
    LessIrreflexive(n.stored);
    SortStable(ShownBefore, TiedWith(n), list);
  }

  /** The listing and the automatic choice agree on quality: the first candidate listed scores what the chosen one does. */
  lemma ChosenScoresLikeFirst(list: seq<Scored>, n: Normalized)
    requires Unbeaten(NormalsOf(list), n)
    ensures Listed(list) != [] && Eligible(Listed(list)[0].n) && Listed(list)[0].n.score == n.score
  {
    ListingOrdered(list);
    SortElements(ShownBefore, list);
    var listed := Listed(list);
    var i :| 0 <= i < |list| && NormalsOf(list)[i] == n;
    assert list[i] in listed;
    var k :| 0 <= k < |listed| && listed[k] == list[i];
    assert listed[0] in list;
    var h :| 0 <= h < |list| && list[h] == listed[0];
    assert NormalsOf(list)[h] == listed[0].n && listed[0].n in NormalsOf(list);
    assert k == 0 || !ShownBefore(listed[k], listed[0]);
    assert Eligible(listed[0].n) ==> !Better(listed[0].n, n);
  }
}
