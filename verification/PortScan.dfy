/** Which targets of a run the port scan visits. */
module PortScan {
  import opened Orders
  import opened Text
  import Inet
  import opened ArpScrape

  /** allowedByAllowlist. */
  predicate Allowed(ip: Inet.Addr, allowlist: seq<Inet.ParsedPrefix>) {
    exists i :: 0 <= i < |allowlist| && Inet.Contains(allowlist[i], ip)
  }

  /** Target `k` is allowed, and the first allowed one of its device. */
  predicate Visits(targets: seq<Target>, allowlist: seq<Inet.ParsedPrefix>, k: nat)
    requires k < |targets|
  {
    && Allowed(targets[k].ip, allowlist)
    && forall j :: 0 <= j < k && targets[j].device == targets[k].device ==> !Allowed(targets[j].ip, allowlist)
  }

  /** Without a cap: for every device with an allowed address its first one, in order. */
  function Candidates(targets: seq<Target>, allowlist: seq<Inet.ParsedPrefix>): seq<Target> {
    if targets == [] then []
    else
      var n := |targets| - 1;
      Candidates(targets[..n], allowlist) + if Visits(targets, allowlist, n) then [targets[n]] else []
  }

  lemma VisitsPrefix(targets: seq<Target>, allowlist: seq<Inet.ParsedPrefix>, n: nat, k: nat)
    requires k < n <= |targets|
    ensures Visits(targets[..n], allowlist, k) <==> Visits(targets, allowlist, k)
  {
    assert forall j :: 0 <= j < n ==> targets[..n][j] == targets[j];
  }

  /** A target is a candidate exactly when it is one of the list's first allowed targets of a device. */
  lemma {:induction false} CandidatesExact(targets: seq<Target>, allowlist: seq<Inet.ParsedPrefix>, t: Target)
    ensures t in Candidates(targets, allowlist) <==>
      exists k :: 0 <= k < |targets| && targets[k] == t && Visits(targets, allowlist, k)
  {
    if targets != [] {
      var n := |targets| - 1;
      CandidatesExact(targets[..n], allowlist, t);
      forall k | 0 <= k < n ensures Visits(targets[..n], allowlist, k) <==> Visits(targets, allowlist, k) {
        VisitsPrefix(targets, allowlist, n, k);
      }
      assert forall k :: 0 <= k < n ==> targets[..n][k] == targets[k];
    }
  }

  ghost predicate HasDevice(s: seq<Target>, device: nat) { exists i :: 0 <= i < |s| && s[i].device == device }

  /** The last target is a candidate exactly when it is allowed and its device is not there yet. */
  lemma {:induction false} NewDeviceIff(targets: seq<Target>, allowlist: seq<Inet.ParsedPrefix>)
    requires targets != []
    ensures var n := |targets| - 1;
      Visits(targets, allowlist, n) <==>
        Allowed(targets[n].ip, allowlist) && !HasDevice(Candidates(targets[..n], allowlist), targets[n].device)
  {
    var n := |targets| - 1;
    DeviceCandidateIff(targets[..n], allowlist, targets[n].device);
    assert forall j :: 0 <= j < n ==> targets[..n][j] == targets[j];
  }

  /** A device is scanned, cap aside, exactly when one of its addresses is allowed. */
  lemma {:induction false} DeviceCandidateIff(targets: seq<Target>, allowlist: seq<Inet.ParsedPrefix>, device: nat)
    ensures HasDevice(Candidates(targets, allowlist), device) <==>
      exists j :: 0 <= j < |targets| && targets[j].device == device && Allowed(targets[j].ip, allowlist)
  {
    if targets != [] {
      var n := |targets| - 1;
      var rest, all := Candidates(targets[..n], allowlist), Candidates(targets, allowlist);
      DeviceCandidateIff(targets[..n], allowlist, device);
      assert forall j :: 0 <= j < n ==> targets[..n][j] == targets[j];
      assert forall i :: 0 <= i < |rest| ==> all[i] == rest[i];
      if Visits(targets, allowlist, n) { assert all[|rest|] == targets[n]; }
      if HasDevice(rest, device) {
        var i :| 0 <= i < |rest| && rest[i].device == device;
        assert all[i].device == device;
      }
    }
  }

  /** No device is scanned twice. */
  lemma {:induction false} CandidateDevicesDistinct(targets: seq<Target>, allowlist: seq<Inet.ParsedPrefix>)
    ensures forall j, k :: 0 <= j < k < |Candidates(targets, allowlist)| ==>
      Candidates(targets, allowlist)[j].device != Candidates(targets, allowlist)[k].device
  {
    if targets != [] {
      CandidateDevicesDistinct(targets[..|targets| - 1], allowlist);
      NewDeviceIff(targets, allowlist);
    }
  }

  method IsAllowed(ip: Inet.Addr, allowlist: seq<Inet.ParsedPrefix>) returns (r: bool)
    ensures r == Allowed(ip, allowlist)
  {
    for i := 0 to |allowlist|
      invariant forall j :: 0 <= j < i ==> !Inet.Contains(allowlist[j], ip)
    {
      if Inet.Contains(allowlist[i], ip) { return true; }
    }
    return false;
  }

  /** The target selection loop of runPortScan. */
  method SelectTargets(targets: seq<Target>, allowlist: seq<Inet.ParsedPrefix>, maxTargets: int)
    returns (scan: seq<Target>)
    ensures scan == if maxTargets > 0 then Take(Candidates(targets, allowlist), maxTargets) else Candidates(targets, allowlist)
  {
    var seen: set<nat> := {};
    scan := [];
    for i := 0 to |targets|
      invariant scan == Candidates(targets[..i], allowlist)
      invariant forall d :: d in seen <==> HasDevice(scan, d)
      invariant maxTargets > 0 ==> |scan| < maxTargets
    {
      var t := targets[i];
      assert targets[..i + 1][..i] == targets[..i];
      NewDeviceIff(targets[..i + 1], allowlist);
      if t.device in seen { continue; }
      var allowed := IsAllowed(t.ip, allowlist);
      if !allowed { continue; }
      seen := seen + {t.device};
      ghost var before := scan;
      scan := scan + [t];
      HasDeviceNext(before, t);
      if maxTargets > 0 && |scan| >= maxTargets {
        CandidatesGrow(targets, allowlist, i + 1);
        return;
      }
    }
    assert targets[..|targets|] == targets;
  }

  lemma HasDeviceNext(s: seq<Target>, t: Target)
    ensures forall d :: HasDevice(s + [t], d) <==> HasDevice(s, d) || d == t.device
  {
    forall d ensures HasDevice(s + [t], d) <==> HasDevice(s, d) || d == t.device {
      if HasDevice(s, d) {
        var i :| 0 <= i < |s| && s[i].device == d;
        assert (s + [t])[i].device == d;
      }
      assert (s + [t])[|s|] == t;
    }
  }

  /** More targets only append candidates. */
  lemma {:induction false} CandidatesGrow(targets: seq<Target>, allowlist: seq<Inet.ParsedPrefix>, n: nat)
    requires n <= |targets|
    ensures Candidates(targets[..n], allowlist) <= Candidates(targets, allowlist)
  {
    if n == |targets| {
      assert targets[..n] == targets;
    } else {
      var m := |targets| - 1;
      CandidatesGrow(targets[..m], allowlist, n);
      assert targets[..m][..n] == targets[..n];
    }
  }
}
