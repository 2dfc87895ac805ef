/** What names display as and which one is chosen, said of the names and sources themselves. */
module NameChoice {
  import opened Orders
  import opened Text
  import opened Naming

  /** The source of a candidate, as it is compared. */
  function SourceOf(c: Candidate): string { ToLower(TrimSpace(c.source)) }

  /** Reverse DNS and mDNS names are kept in lower case. */
  function Cased(c: Candidate, text: string): string {
    if SourceOf(c) in ["reverse_dns", "mdns"] then ToLower(text) else text
  }

  predicate NoSpace(s: string) { forall i :: 0 <= i < |s| ==> !IsSpace(s[i]) }

  // What a name displays as

  lemma {:induction false} CasedChars(c: Candidate, s: string)
    ensures |Cased(c, s)| == |s|
    ensures '.' in Cased(c, s) <==> '.' in s
    ensures NoSpace(s) ==> !HasBlank(Cased(c, s))
    ensures LooksHostnameLabel(s) ==> LooksHostnameLabel(Cased(c, s))
  {
    var t := Cased(c, s);
    assert forall i :: 0 <= i < |s| ==> t[i] == s[i] || t[i] == LowerChar(s[i]);
    if '.' in s {
      var i :| 0 <= i < |s| && s[i] == '.';
      assert t[i] == '.';
    }
  }

  lemma {:induction false} CasedParts(c: Candidate, a: string, b: string)
    ensures Cased(c, a + "." + b) == Cased(c, a) + "." + Cased(c, b)
  {
    var whole, parts := ToLower(a + "." + b), ToLower(a) + "." + ToLower(b);
    forall i | 0 <= i < |whole| ensures whole[i] == parts[i] {
      if i == |a| { assert (a + "." + b)[i] == '.'; }
    }
    assert whole == parts;
  }

  lemma {:induction false} LabelHasNoDot(host: string)
    requires LooksHostnameLabel(host)
    ensures '.' !in host && NoSpace(host)
  {
    forall i | 0 <= i < |host| ensures host[i] != '.' && !IsSpace(host[i]) { assert LabelChar(host[i]); }
  }

  /** A name with no dot displays as itself. */
  lemma {:induction false} UndottedDisplay(c: Candidate)
    requires TrimSpace(c.name) != "" && '.' !in TrimSpace(c.name)
    ensures NormalizeCandidate(c).display == Cased(c, TrimSpace(c.name)) == NormalizeCandidate(c).stored
  {
    var name := TrimSpace(c.name);
    assert name[|name| - 1] != '.';
    CasedChars(c, name);
  }

  /** A label, a dot and any rest without blanks display as the label, whether or not a final dot follows. */
  lemma {:induction false} DottedDisplay(c: Candidate, host: string, rest: string)
    requires LooksHostnameLabel(host) && rest != "" && NoSpace(rest) && rest[|rest| - 1] != '.'
    requires TrimSpace(c.name) == host + "." + rest || TrimSpace(c.name) == host + "." + rest + "."
    ensures NormalizeCandidate(c).display == Cased(c, host)
    ensures NormalizeCandidate(c).stored == Cased(c, host + "." + rest)
  {
    var name, full := TrimSpace(c.name), host + "." + rest;
    assert WithoutDot(name) == full by {
      assert full[|full| - 1] == rest[|rest| - 1];
      assert (full + ".")[..|full|] == full;
    }
    LabelHasNoDot(host);
    CasedParts(c, host, rest);
    CasedChars(c, host);
    CasedChars(c, rest);
    DotAfterLabel(Cased(c, host), Cased(c, rest));
  }

  /** A label with nothing but a final dot displays as the label. */
  lemma {:induction false} FinalDotDropped(c: Candidate, host: string)
    requires LooksHostnameLabel(host) && TrimSpace(c.name) == host + "."
    ensures NormalizeCandidate(c).display == Cased(c, host) == NormalizeCandidate(c).stored
  {
    assert (host + ".")[..|host|] == host;
    LabelHasNoDot(host);
    CasedChars(c, host);
  }

  lemma {:induction false} DotAfterLabel(host: string, rest: string)
    requires LooksHostnameLabel(host) && !HasBlank(rest)
    ensures DisplayOf(host + "." + rest) == host
  {
    LabelHasNoDot(host);
    IndexOfJoin(host, '.', rest);
    var s := host + ['.'] + rest;
    assert s == host + "." + rest;
    forall i | 0 <= i < |s| ensures s[i] != ' ' && s[i] != '\t' {
      if i > |host| { assert rest[i - |host| - 1] in rest; }
    }
    assert s[..|host|] == host;
  }

  // Which name is chosen

  /** The sources that can name a device unasked, best first; LLDP and CDP rank alike. */
  function RankOf(source: string): nat {
    if source == "dhcp" then 0
    else if source == "reverse_dns" then 1
    else if source == "snmp" then 2
    else if source == "lldp" || source == "cdp" then 3
    else if source == "mdns" then 4
    else if source == "netbios" then 5
    else if source == "manual" then 6
    else 7
  }

  /** A placeholder no device should be called. */
  predicate Placeholder(s: string) { ToLower(s) in ["workgroup", "mshome", "__msbrowse__", "localdomain", "localhost"] }

  predicate ReverseZone(s: string) { Contains(ToLower(s), "in-addr.arpa") || Contains(ToLower(s), "ip6.arpa") }

  predicate EndsLocal(s: string) { HasSuffix(ToLower(s), ".local") || HasSuffix(ToLower(s), ".localdomain") }

  /** The name is `full`, perhaps with blanks around it and a final dot. */
  predicate Spelled(c: Candidate, full: string) { TrimSpace(c.name) == full || TrimSpace(c.name) == full + "." }

  /** The name is `host` in some domain, that of a real zone. */
  ghost predicate InDomain(c: Candidate, host: string, rest: string) {
    && rest != "" && NoSpace(rest) && rest[|rest| - 1] != '.' && Spelled(c, host + "." + rest)
    && !ReverseZone(host + "." + rest)
  }

  /** A clean name for `host`: the label alone, which is no placeholder, or the label in a domain that is not local. */
  ghost predicate NamedAs(c: Candidate, host: string) {
    && LooksHostnameLabel(host) && |host| >= 2
    && ((TrimSpace(c.name) == host && !Placeholder(host))
        || exists rest :: InDomain(c, host, rest) && !EndsLocal(host + "." + rest))
  }

  lemma {:induction false} ContainsDot(s: string, sub: string)
    requires Contains(s, sub) && '.' in sub
    ensures '.' in s
  {
    if sub <= s {
      var i :| 0 <= i < |sub| && sub[i] == '.';
      assert s[i] == '.';
    } else {
      ContainsDot(s[1..], sub);
      assert s == [s[0]] + s[1..];
    }
  }

  lemma {:induction false} SuffixDot(s: string, suffix: string)
    requires HasSuffix(s, suffix) && '.' in suffix
    ensures '.' in s
  {
    var i :| 0 <= i < |suffix| && suffix[i] == '.';
    assert s[|s| - |suffix|..][i] == '.';
  }

  lemma {:induction false} UndottedIsLocalToNone(s: string)
    requires '.' !in s
    ensures !HasSuffix(s, ".local") && !HasSuffix(s, ".localdomain")
    ensures !Contains(s, "in-addr.arpa") && !Contains(s, "ip6.arpa")
  {
    assert ".local"[0] == '.' && ".localdomain"[0] == '.' && "in-addr.arpa"[7] == '.' && "ip6.arpa"[3] == '.';
    if HasSuffix(s, ".local") { SuffixDot(s, ".local"); }
    if HasSuffix(s, ".localdomain") { SuffixDot(s, ".localdomain"); }
    if Contains(s, "in-addr.arpa") { ContainsDot(s, "in-addr.arpa"); }
    if Contains(s, "ip6.arpa") { ContainsDot(s, "ip6.arpa"); }
  }

  /** A clean label scores what its source is worth. */
  lemma {:induction false} LabelScore(c: Candidate)
    requires LooksHostnameLabel(TrimSpace(c.name)) && |TrimSpace(c.name)| >= 2 && !Placeholder(TrimSpace(c.name))
    ensures NormalizeCandidate(c).score == BaseScore(SourceOf(c)) && NormalizeCandidate(c).ok
    ensures NormalizeCandidate(c).display == Cased(c, TrimSpace(c.name))
  {
    var name := TrimSpace(c.name);
    LabelHasNoDot(name);
    UndottedDisplay(c);
    CasedChars(c, name);
    ToLowerTwice(name);
    UndottedIsLocalToNone(ToLower(name));
    LowerUndotted(name);
    BaseScoreBounds(SourceOf(c));
  }

  lemma {:induction false} LabelBlank(host: string)
    requires LooksHostnameLabel(host)
    ensures !HasBlank(host)
  {
    BlankIsNoLabel(host);
  }

  /** The score of a dotted name that displays as a label. */
  lemma {:induction false} DottedScore(source: string, stored: string, display: string)
    requires LooksHostnameLabel(display) && |display| >= 2 && '.' in ToLower(stored) && !ReverseZone(stored)
    ensures ScoreCandidate(source, stored, display) == BaseScore(source) - (if EndsLocal(stored) then 5 else 0)
  {
    LabelBlank(display);
    NoPlaceholderHasDot(ToLower(stored));
  }

  /** The score comes from the source and the two names. */
  lemma {:induction false} ScoreOf(c: Candidate)
    requires WithoutDot(TrimSpace(c.name)) != ""
    ensures var n := NormalizeCandidate(c);
      n.score == ScoreCandidate(SourceOf(c), n.stored, n.display) && (n.ok <==> n.score >= 0)
  {
  }

  lemma {:induction false} CasedLower(c: Candidate, s: string)
    ensures ToLower(Cased(c, s)) == ToLower(s)
  {
    ToLowerTwice(s);
  }

  lemma {:induction false} SpelledNotEmpty(c: Candidate, host: string, rest: string)
    requires host != "" && rest != "" && rest[|rest| - 1] != '.' && Spelled(c, host + "." + rest)
    ensures WithoutDot(TrimSpace(c.name)) != ""
  {
  }

  /** So does a label in a domain, but for what a local domain costs. */
  lemma {:induction false} DomainScore(c: Candidate, host: string, rest: string)
    requires LooksHostnameLabel(host) && |host| >= 2 && InDomain(c, host, rest)
    ensures NormalizeCandidate(c).score == BaseScore(SourceOf(c)) - (if EndsLocal(host + "." + rest) then 5 else 0)
    ensures NormalizeCandidate(c).ok && NormalizeCandidate(c).display == Cased(c, host)
  {
    var full := host + "." + rest;
    DottedDisplay(c, host, rest);
    SpelledNotEmpty(c, host, rest);
    ScoreOf(c);
    CasedChars(c, host);
    CasedLower(c, full);
    assert full[|host|] == '.';
    LowerUndotted(full);
    DottedScore(SourceOf(c), Cased(c, full), Cased(c, host));
    BaseScoreBounds(SourceOf(c));
  }

  lemma NoPlaceholderHasDot(s: string)
    requires '.' in s
    ensures s !in ["workgroup", "mshome", "__msbrowse__", "localdomain", "localhost"] && s != ""
  {
  }

  lemma {:induction false} NamedScore(c: Candidate, host: string)
    requires NamedAs(c, host)
    ensures NormalizeCandidate(c).score == BaseScore(SourceOf(c)) && NormalizeCandidate(c).ok
    ensures NormalizeCandidate(c).display == Cased(c, host)
  {
    if TrimSpace(c.name) == host && !Placeholder(host) {
      LabelScore(c);
    } else {
      var rest :| InDomain(c, host, rest) && !EndsLocal(host + "." + rest);
      DomainScore(c, host, rest);
    }
  }

  lemma {:induction false} LowerUndotted(s: string)
    ensures '.' in ToLower(s) <==> '.' in s
  {
    if '.' in s {
      var i :| 0 <= i < |s| && s[i] == '.';
      assert ToLower(s)[i] == '.';
    }
  }

  lemma RankDecides(a: string, b: string)
    ensures RankOf(a) < RankOf(b) <==> BaseScore(a) > BaseScore(b)
    ensures RankOf(a) < 7 <==> BaseScore(a) >= MIN_SCORE
  {
  }

  /**
   * A display name that is no plain label costs a source as much as it is above the least one that is known: only DHCP
   * and reverse DNS can afford it, and reverse DNS then just reaches what a manual label has.
   */
  lemma OddNames(source: string, stored: string, display: string)
    requires !LooksGarbage(ToLower(stored)) && !EndsLocal(stored) && |display| >= 2 && !HasBlank(display)
    requires !LooksHostnameLabel(display)
    ensures ScoreCandidate(source, stored, display) >= MIN_SCORE <==> source == "dhcp" || source == "reverse_dns"
    ensures source == "reverse_dns" ==> ScoreCandidate(source, stored, display) == BaseScore("manual")
  {
  }

  /** Better source; from sources of one rank the shorter name; of one length the smaller. */
  predicate Preferred(c: Candidate, x: string, d: Candidate, y: string) {
    || RankOf(SourceOf(c)) < RankOf(SourceOf(d))
    || (RankOf(SourceOf(c)) == RankOf(SourceOf(d)) && (|x| < |y| || (|x| == |y| && Less(x, y))))
  }

  lemma {:induction false} PreferredIsBetter(c: Candidate, x: string, d: Candidate, y: string)
    requires NamedAs(c, x) && NamedAs(d, y)
    ensures Preferred(c, Cased(c, x), d, Cased(d, y)) ==> Better(NormalizeCandidate(c), NormalizeCandidate(d))
  {
    NamedScore(c, x);
    NamedScore(d, y);
    RankDecides(SourceOf(c), SourceOf(d));
    RankDecides(SourceOf(d), SourceOf(c));
    LessIrreflexive(Cased(c, x));
  }

  /** Candidate `i` names the device: its source is known and no candidate with a known source is preferred to it. */
  ghost predicate Names(cands: seq<Candidate>, hosts: seq<string>, i: nat)
    requires |hosts| == |cands|
  {
    && i < |cands| && RankOf(SourceOf(cands[i])) < 7
    && forall j :: 0 <= j < |cands| && RankOf(SourceOf(cands[j])) < 7 ==>
      !Preferred(cands[j], Cased(cands[j], hosts[j]), cands[i], Cased(cands[i], hosts[i]))
  }

  /**
   * Among clean names one is chosen exactly when some source is known, and the device is called by the host label of the
   * preferred one: DHCP, then reverse DNS, SNMP, LLDP or CDP, mDNS, NetBIOS, a manual entry, and from one rank the
   * shortest.
   */
  lemma {:induction false} BestSourceShortest(cands: seq<Candidate>, hosts: seq<string>, r: Option<string>)
    requires |hosts| == |cands| && (forall i :: 0 <= i < |cands| ==> NamedAs(cands[i], hosts[i]))
    requires Chosen(Normals(cands), r)
    ensures r.Some? <==> exists i :: 0 <= i < |cands| && RankOf(SourceOf(cands[i])) < 7
    ensures r.Some? ==> exists i: nat :: Names(cands, hosts, i) && r.value == Cased(cands[i], hosts[i])
  {
    var ns := Normals(cands);
    forall i | 0 <= i < |cands|
      ensures NormalizeCandidate(cands[i]) in ns
      ensures Eligible(NormalizeCandidate(cands[i])) <==> RankOf(SourceOf(cands[i])) < 7
    {
      NormalOf(cands, NormalizeCandidate(cands[i]));
      NamedScore(cands[i], hosts[i]);
      RankDecides(SourceOf(cands[i]), SourceOf(cands[i]));
    }
    if r.Some? {
      var n :| Unbeaten(ns, n) && n.display == r.value;
      NormalOf(cands, n);
      var c :| c in cands && NormalizeCandidate(c) == n;
      var i: nat :| i < |cands| && cands[i] == c;
      NamedScore(c, hosts[i]);
      forall j | 0 <= j < |cands| && RankOf(SourceOf(cands[j])) < 7
        ensures !Preferred(cands[j], Cased(cands[j], hosts[j]), c, Cased(c, hosts[i]))
      {
        PreferredIsBetter(cands[j], hosts[j], c, hosts[i]);
      }
      assert Names(cands, hosts, i);
    }
  }

  /** A name in a local domain loses to any clean name from the same source. */
  lemma {:induction false} LocalNameLoses(c: Candidate, host: string, rest: string, d: Candidate, other: string)
    requires LooksHostnameLabel(host) && |host| >= 2 && InDomain(c, host, rest) && EndsLocal(host + "." + rest)
    requires NamedAs(d, other) && SourceOf(c) == SourceOf(d)
    ensures Better(NormalizeCandidate(d), NormalizeCandidate(c))
  {
    DomainScore(c, host, rest);
    NamedScore(d, other);
  }

  /** Placeholders and names from reverse zones are never candidates. */
  lemma {:induction false} GarbageIsRefused(c: Candidate)
    requires Placeholder(TrimSpace(c.name)) || (ReverseZone(TrimSpace(c.name)) && !HasSuffix(TrimSpace(c.name), "."))
    ensures !NormalizeCandidate(c).ok
  {
    var name := TrimSpace(c.name);
    if Placeholder(name) { PlaceholderEnds(name); }
    CasedLower(c, name);
    if name != "" { ScoreOf(c); }
  }

  lemma PlaceholderEnds(s: string)
    requires Placeholder(s)
    ensures !HasSuffix(s, ".")
  {
    var t := ToLower(s);
    assert t[|t| - 1] != '.';
    assert s[|s| - 1..] == [s[|s| - 1]];
  }

  lemma {:induction false} NormalOf(cands: seq<Candidate>, n: Normalized)
    ensures n in Normals(cands) <==> exists c :: c in cands && NormalizeCandidate(c) == n
  {
    var list := ScoredList(cands);
    if n in Normals(cands) {
      var i :| 0 <= i < |list| && NormalsOf(list)[i] == n;
      PairedAt(NormalizeCandidate, cands, i);
      assert cands[i] in cands;
    }
    if c :| c in cands && NormalizeCandidate(c) == n {
      var i :| 0 <= i < |cands| && cands[i] == c;
      PairedAt(NormalizeCandidate, cands, i);
      assert NormalsOf(list)[i] == n;
    }
  }

  /** The listing by quality: known sources in their order, and names from one rank alphabetically. */
  lemma {:induction false} ListedBySource(list: seq<Scored>, i: nat, j: nat, x: string, y: string)
    requires (forall s :: s in list ==> s.n == NormalizeCandidate(s.orig)) && i < j < |Listed(list)|
    requires NamedAs(Listed(list)[i].orig, x) && NamedAs(Listed(list)[j].orig, y)
    ensures var c, d := Listed(list)[i].orig, Listed(list)[j].orig;
      && RankOf(SourceOf(c)) <= RankOf(SourceOf(d))
      && (RankOf(SourceOf(c)) == RankOf(SourceOf(d)) ==> !Less(Cased(d, y), Cased(c, x)))
  {
    var a, b := Listed(list)[i], Listed(list)[j];
    ListingOrdered(list);
    SortElements(ShownBefore, list);
    assert a in Listed(list) && b in Listed(list) && !ShownBefore(b, a);
    NamedScore(a.orig, x);
    NamedScore(b.orig, y);
    RankDecides(SourceOf(a.orig), SourceOf(b.orig));
    RankDecides(SourceOf(b.orig), SourceOf(a.orig));
    LessIrreflexive(Cased(a.orig, x));
  }

  /** Names that were refused are listed last. */
  lemma {:induction false} RefusedLast(list: seq<Scored>, i: nat, j: nat)
    requires i < j < |Listed(list)| && Listed(list)[j].n.ok
    ensures Listed(list)[i].n.ok
  {
    ListingOrdered(list);
    assert !ShownBefore(Listed(list)[j], Listed(list)[i]);
  }
}
