/** IP addresses and prefixes as Go's netip package defines them, the IPv4 sweep and the derived subnets. */
module Inet {
  import opened Text

  datatype Family = V4 | V6
  datatype Addr = Addr(family: Family, value: nat)
  datatype Prefix = Prefix(addr: Addr, bits: int)

  function BitLen(f: Family): nat { if f == V4 then 32 else 128 }

  function Pow2(n: nat): (p: nat)
    ensures p >= 1
  {
    if n == 0 then 1 else 2 * Pow2(n - 1)
  }

  predicate ValidAddr(a: Addr) { a.value < Pow2(BitLen(a.family)) }

  /** What ParsePrefix accepts. */
  predicate ValidPrefix(p: Prefix) { ValidAddr(p.addr) && 0 <= p.bits <= BitLen(p.addr.family) }

  type ParsedPrefix = p: Prefix | ValidPrefix(p) witness Prefix(Addr(V4, 0), 0)

  /** How many addresses a prefix holds. */
  function Span(p: Prefix): (s: nat)
    requires ValidPrefix(p)
    ensures s >= 1
  {
    Pow2(BitLen(p.addr.family) - p.bits)
  }

  /** Where the block of `span` numbers around `x` starts, counting blocks from 0: its low bits cleared. */
  function BlockStart(x: nat, span: nat): (b: nat)
    requires span >= 1
    ensures b <= x < b + span
  {
    if x < span then 0 else span + BlockStart(x - span, span)
  }

  /** Prefix.Masked: host bits cleared. */
  function Masked(p: Prefix): Prefix
    requires ValidPrefix(p)
  {
    p.(addr := Addr(p.addr.family, BlockStart(p.addr.value, Span(p))))
  }

  /** Prefix.Contains: the bits above the host part agree. */
  predicate Contains(p: Prefix, a: Addr)
    requires ValidPrefix(p)
  {
    a.family == p.addr.family && ValidAddr(a) && BlockStart(a.value, Span(p)) == BlockStart(p.addr.value, Span(p))
  }

  /** Addr.Next: none after the last address of the family. */
  function Next(a: Addr): Option<Addr> {
    if a.value + 1 < Pow2(BitLen(a.family)) then Some(a.(value := a.value + 1)) else None
  }

  /** The next address is an address, one further on; only the last has none. */
  lemma NextIsValid(a: Addr)
    requires ValidAddr(a)
    ensures Next(a).Some? ==> ValidAddr(Next(a).value) && Next(a).value == Addr(a.family, a.value + 1)
    ensures Next(a).None? <==> a.value == Pow2(BitLen(a.family)) - 1
  {
  }

  lemma {:induction false} Pow2Adds(m: nat, n: nat)
    ensures Pow2(m + n) == Pow2(m) * Pow2(n)
  {
    if m > 0 {
      Pow2Adds(m - 1, n);
      assert Pow2(m + n) == 2 * Pow2(m + n - 1);
      assert 2 * (Pow2(m - 1) * Pow2(n)) == (2 * Pow2(m - 1)) * Pow2(n);
    }
  }

  lemma {:induction false} Pow2Monotone(m: nat, n: nat)
    requires m <= n
    ensures Pow2(m) <= Pow2(n)
  {
    if m < n { Pow2Monotone(m, n - 1); }
  }

  lemma MulGap(a: nat, b: nat, span: nat)
    requires a < b
    ensures a * span + span <= b * span
  {
    var d := b - a - 1;
    assert b * span == (a + 1 + d) * span == a * span + span + d * span;
    assert d * span >= 0;
  }

  /** Starts of blocks are the multiples of `span`. */
  lemma {:induction false} StartIsMultiple(x: nat, span: nat) returns (q: nat)
    requires span >= 1
    ensures BlockStart(x, span) == q * span
  {
    if x < span {
      q := 0;
    } else {
      var d := StartIsMultiple(x - span, span);
      q := d + 1;
      assert q * span == d * span + span;
    }
  }

  /** What is cleared is the remainder. */
  lemma ClearedRemainder(x: nat, span: nat)
    requires span >= 1
    ensures BlockStart(x, span) == x - x % span
  {
    var q := StartIsMultiple(x, span);
    if x / span < q { MulGap(x / span, q, span); }
    if q < x / span { MulGap(q, x / span, span); }
  }

  /** A number belongs to the block that starts at a multiple of `span` exactly when it lies in its range. */
  lemma SameBlock(x: nat, q: nat, span: nat)
    requires span >= 1
    ensures BlockStart(x, span) == q * span <==> q * span <= x < q * span + span
  {
    var d := StartIsMultiple(x, span);
    if d < q { MulGap(d, q, span); }
    if q < d { MulGap(q, d, span); }
  }

  lemma BlockFits(x: nat, span: nat, blocks: nat)
    requires span >= 1 && x < blocks * span
    ensures BlockStart(x, span) + span <= blocks * span
  {
    var d := StartIsMultiple(x, span);
    if d < blocks {
      MulGap(d, blocks, span);
    } else if blocks < d {
      MulGap(blocks, d, span);
    }
  }

  lemma SpanDivides(p: Prefix)
    requires ValidPrefix(p)
    ensures Pow2(BitLen(p.addr.family)) == Pow2(p.bits) * Span(p)
  {
    Pow2Adds(p.bits, BitLen(p.addr.family) - p.bits);
  }

  lemma MaskedValid(p: Prefix)
    requires ValidPrefix(p)
    ensures ValidPrefix(Masked(p)) && Masked(Masked(p)) == Masked(p)
    ensures Masked(p).addr.value + Span(p) <= Pow2(BitLen(p.addr.family))
  {
    SpanDivides(p);
    BlockFits(p.addr.value, Span(p), Pow2(p.bits));
    var q := StartIsMultiple(p.addr.value, Span(p));
    SameBlock(Masked(p).addr.value, q, Span(p));
  }

  lemma InBlock(x: nat, a: nat, span: nat)
    requires span >= 1
    ensures BlockStart(a, span) == BlockStart(x, span) <==> BlockStart(x, span) <= a < BlockStart(x, span) + span
    ensures BlockStart(BlockStart(x, span), span) == BlockStart(x, span)
  {
    var q := StartIsMultiple(x, span);
    SameBlock(a, q, span);
    SameBlock(BlockStart(x, span), q, span);
  }

  /** A prefix holds exactly the block of `Span` addresses that starts at its masked address. */
  lemma ContainsIsBlock(p: Prefix, a: Addr)
    requires ValidPrefix(p)
    ensures ValidPrefix(Masked(p)) && Masked(p).addr.value + Span(p) <= Pow2(BitLen(p.addr.family))
    ensures Contains(p, a) <==>
      a.family == p.addr.family && Masked(p).addr.value <= a.value < Masked(p).addr.value + Span(p)
    ensures Contains(Masked(p), a) <==> Contains(p, a)
  {
    MaskedValid(p);
    ContainsInBlock(p, a);
    MaskedContains(p, a);
  }

  lemma ContainsInBlock(p: Prefix, a: Addr)
    requires ValidPrefix(p) && Masked(p).addr.value + Span(p) <= Pow2(BitLen(p.addr.family))
    ensures Contains(p, a) <==>
      a.family == p.addr.family && Masked(p).addr.value <= a.value < Masked(p).addr.value + Span(p)
  {
    InBlock(p.addr.value, a.value, Span(p));
  }

  lemma MaskedContains(p: Prefix, a: Addr)
    requires ValidPrefix(p) && ValidPrefix(Masked(p))
    ensures Contains(Masked(p), a) <==> Contains(p, a)
  {
    MaskedStart(p);
  }

  lemma MaskedStart(p: Prefix)
    requires ValidPrefix(p) && ValidPrefix(Masked(p))
    ensures Masked(p).addr.family == p.addr.family && Span(Masked(p)) == Span(p)
    ensures BlockStart(Masked(p).addr.value, Span(p)) == BlockStart(p.addr.value, Span(p))
  {
    InBlock(p.addr.value, p.addr.value, Span(p));
  }

  // The ping sweep

  datatype SweepError = TooLarge | NotSingleV6 | PingUnavailable | Canceled

  /** countScopeTargets. */
  function CountScopeTargets(scope: Prefix, maxTargets: int): Result<int, SweepError>
    requires ValidPrefix(scope)
  {
    if scope.addr.family == V4 then
      var hostBits := 32 - scope.bits;
      if hostBits >= 31 then Err(TooLarge)
      else if Pow2(hostBits) > maxTargets then Err(TooLarge)
      else Ok(Pow2(hostBits))
    else if scope.bits < 128 then Err(NotSingleV6)
    else Ok(1)
  }

  /** The addresses a completed IPv4 sweep sends. */
  function SweepOf(scope: Prefix): seq<Addr>
    requires ValidPrefix(scope)
  {
    if scope.addr.family == V4 then seq(Span(scope), (i: nat) => Addr(V4, Masked(scope).addr.value + i)) else []
  }

  /** Why a sweep stops early, if it does. */
  function SweepFault(scope: Prefix, maxTargets: int, pingAvailable: bool, cancelAfter: Option<nat>): Option<SweepError>
    requires ValidPrefix(scope)
  {
    if !pingAvailable then Some(PingUnavailable)
    else if CountScopeTargets(scope, maxTargets).Err? then Some(CountScopeTargets(scope, maxTargets).error)
    else if cancelAfter.Some? && cancelAfter.value < |SweepOf(scope)| then Some(Canceled)
    else None
  }

  /** The `i`th address from the start of a scope. */
  function SweepAt(scope: Prefix, i: nat): Addr
    requires ValidPrefix(scope)
  {
    Addr(V4, Masked(scope).addr.value + i)
  }

  /** After sending `sent` the loop stands at the next address, if there is one. */
  ghost predicate SentSoFar(scope: Prefix, sent: seq<Addr>, ip: Option<Addr>)
    requires ValidPrefix(scope)
  {
    && |sent| <= Span(scope) && (forall i :: 0 <= i < |sent| ==> sent[i] == SweepAt(scope, i))
    && (ip.Some? ==> ip.value == SweepAt(scope, |sent|))
    && (ip.None? ==> |sent| == Span(scope))
  }

  lemma SweepStarts(scope: Prefix)
    requires ValidPrefix(scope) && scope.addr.family == V4
    ensures SentSoFar(scope, [], Some(Masked(scope).addr)) && ValidPrefix(Masked(scope))
  {
    ContainsIsBlock(scope, Masked(scope).addr);
  }

  /** The address the loop stands at lies in the scope exactly while fewer than the scope's size came before. */
  lemma SweepEnds(scope: Prefix, sent: seq<Addr>, ip: Addr)
    requires ValidPrefix(scope) && scope.addr.family == V4 && SentSoFar(scope, sent, Some(ip))
    ensures ValidPrefix(Masked(scope)) && (Contains(Masked(scope), ip) <==> |sent| < Span(scope))
  {
    ContainsIsBlock(scope, ip);
  }

  lemma SweepNext(scope: Prefix, sent: seq<Addr>, ip: Addr)
    requires ValidPrefix(scope) && scope.addr.family == V4 && SentSoFar(scope, sent, Some(ip)) && |sent| < Span(scope)
    ensures SentSoFar(scope, sent + [ip], Next(ip))
  {
    ContainsIsBlock(scope, ip);
  }

  lemma SentIsPrefix(scope: Prefix, sent: seq<Addr>, ip: Option<Addr>)
    requires ValidPrefix(scope) && scope.addr.family == V4 && SentSoFar(scope, sent, ip)
    ensures sent <= SweepOf(scope) && (|sent| == Span(scope) ==> sent == SweepOf(scope))
  {
  }

  /** The address loop of pingSweep; the context is found done once `cancelAfter` addresses were sent. */
  method SendAll(scope: Prefix, cancelAfter: Option<nat>) returns (sent: seq<Addr>, canceled: bool)
    requires ValidPrefix(scope) && scope.addr.family == V4
    ensures canceled <==> cancelAfter.Some? && cancelAfter.value < Span(scope)
    ensures !canceled ==> sent == SweepOf(scope)
    ensures canceled ==> cancelAfter == Some(|sent|) && sent <= SweepOf(scope)
  {
    sent := [];
    var net := Masked(scope);
    SweepStarts(scope);
    var ip := Some(net.addr);
    while ip.Some? && Contains(net, ip.value)
      invariant SentSoFar(scope, sent, ip)
      invariant cancelAfter.Some? ==> |sent| <= cancelAfter.value
      decreases Span(scope) - |sent|
    {
      SweepEnds(scope, sent, ip.value);
      if cancelAfter.Some? && cancelAfter.value == |sent| {
        SentIsPrefix(scope, sent, ip);
        return sent, true;
      }
      SweepNext(scope, sent, ip.value);
      sent := sent + [ip.value];
      ip := Next(ip.value);
    }
    if ip.Some? { SweepEnds(scope, sent, ip.value); }
    SentIsPrefix(scope, sent, ip);
    canceled := false;
  }

  /** pingSweep, but for the pings themselves. */
  method SweepAddresses(scope: Prefix, maxTargets: int, pingAvailable: bool, cancelAfter: Option<nat>)
    returns (sent: seq<Addr>, err: Option<SweepError>)
    requires ValidPrefix(scope)
    ensures err == SweepFault(scope, maxTargets, pingAvailable, cancelAfter)
    ensures err.None? ==> sent == SweepOf(scope)
    ensures err == Some(Canceled) ==> cancelAfter == Some(|sent|) && sent <= SweepOf(scope)
    ensures err.Some? && err != Some(Canceled) ==> sent == []
  {
    sent, err := [], None;
    if !pingAvailable { return [], Some(PingUnavailable); }
    var count := CountScopeTargets(scope, maxTargets);
    if count.Err? { return [], Some(count.error); }
    if scope.addr.family == V4 {
      var canceled;
      sent, canceled := SendAll(scope, cancelAfter);
      if canceled { err := Some(Canceled); }
    }
  }

  /** An accepted IPv4 scope is swept exactly: each contained address once, ascending, nothing else, within the cap. */
  lemma SweepExact(scope: Prefix, maxTargets: int)
    requires ValidPrefix(scope) && scope.addr.family == V4 && CountScopeTargets(scope, maxTargets).Ok?
    ensures |SweepOf(scope)| == CountScopeTargets(scope, maxTargets).value <= maxTargets
    ensures forall a :: a in SweepOf(scope) <==> Contains(scope, a)
    ensures forall i, j :: 0 <= i < j < |SweepOf(scope)| ==> SweepOf(scope)[i].value < SweepOf(scope)[j].value
  {
    forall a ensures a in SweepOf(scope) <==> Contains(scope, a) {
      ContainsIsBlock(scope, a);
      if Contains(scope, a) {
        assert SweepOf(scope)[a.value - Masked(scope).addr.value] == a;
      }
    }
  }

  /** The announced target count is what a sweep sends, exactly for IPv4: a lone IPv6 target is counted but never sent. */
  lemma SweepCountHonestIff(scope: Prefix, maxTargets: int)
    requires ValidPrefix(scope) && CountScopeTargets(scope, maxTargets).Ok?
    ensures |SweepOf(scope)| == CountScopeTargets(scope, maxTargets).value <==> scope.addr.family == V4
  {
  }

  /** An accepted scope that is counted as one target and sweeps nothing: a single IPv6 address. */
  lemma CountedButNotSwept()
    ensures var scope := Prefix(Addr(V6, 0), 128);
      ValidPrefix(scope) && CountScopeTargets(scope, 1) == Ok(1) && SweepOf(scope) == []
  {
  }

  /** Which scopes are accepted: IPv4 ones of /2 or longer by their size, and single IPv6 addresses. */
  lemma AcceptedIff(scope: Prefix, maxTargets: int)
    requires ValidPrefix(scope)
    ensures scope.addr.family == V4 ==> (CountScopeTargets(scope, maxTargets).Ok? <==> scope.bits >= 2 && Span(scope) <= maxTargets)
    ensures scope.addr.family == V6 ==> (CountScopeTargets(scope, maxTargets).Ok? <==> scope.bits == 128)
    ensures CountScopeTargets(scope, maxTargets).Err? ==>
      CountScopeTargets(scope, maxTargets).error == if scope.addr.family == V4 then TooLarge else NotSingleV6
  {
  }

  // Subnets derived from device addresses

  predicate IsUnspecified(a: Addr) { a.value == 0 }

  predicate Is4In6(a: Addr) { a.family == V6 && a.value / 0x1_0000_0000 == 0xFFFF }

  function Unmap(a: Addr): Addr { if Is4In6(a) then Addr(V4, a.value % 0x1_0000_0000) else a }

  predicate IsLoopback(a: Addr) {
    var u := Unmap(a);
    if u.family == V4 then u.value / 0x100_0000 == 127 else u.value == 1
  }

  predicate IsMulticast(a: Addr) {
    var u := Unmap(a);
    if u.family == V4 then u.value / 0x1000_0000 == 0xE else u.value / 0x1_000000_000000_000000_000000_000000 == 0xFF
  }

  predicate IsLinkLocalUnicast(a: Addr) {
    var u := Unmap(a);
    if u.family == V4 then u.value / 0x1_0000 == 169 * 256 + 254 else u.value / 0x40_0000_0000_0000_0000_0000_0000_0000 == 0x3FA
  }

  predicate Routable(a: Addr) {
    !IsUnspecified(a) && !IsLoopback(a) && !IsMulticast(a) && !IsLinkLocalUnicast(a)
  }

  /** deriveL3SubnetID on a parsed address; a bare address carries its full bit length. */
  function DeriveSubnet(p: Prefix): Option<Prefix>
    requires ValidPrefix(p)
  {
    if !Routable(p.addr) then None
    else
      var width := BitLen(p.addr.family);
      var defaultBits := if p.addr.family == V4 then 24 else 64;
      Some(Masked(p.(bits := if p.bits <= 0 || p.bits >= width then defaultBits else p.bits)))
  }

  /** Every accepted address lies in its derived subnet, whose host bits are zero and whose length is proper. */
  lemma DerivedContains(p: Prefix)
    requires ValidPrefix(p) && DeriveSubnet(p).Some?
    ensures var s := DeriveSubnet(p).value;
      && ValidPrefix(s) && Contains(s, p.addr) && Masked(s) == s && 0 < s.bits < BitLen(s.addr.family)
  {
    var width := BitLen(p.addr.family);
    var q := p.(bits := if p.bits <= 0 || p.bits >= width then (if p.addr.family == V4 then 24 else 64) else p.bits);
    MaskedValid(q);
    ContainsIsBlock(q, p.addr);
  }

  /** A mask shorter than the address is kept; a host mask, or none, stands for /24 or /64. */
  lemma DerivedLength(p: Prefix)
    requires ValidPrefix(p) && DeriveSubnet(p).Some?
    ensures var s := DeriveSubnet(p).value;
      && s.addr.family == p.addr.family
      && (0 < p.bits < BitLen(p.addr.family) ==> s.bits == p.bits)
      && (p.bits <= 0 || p.bits >= BitLen(p.addr.family) ==> s.bits == if p.addr.family == V4 then 24 else 64)
  {
  }

  /** The first and second of the four numbers of an IPv4 address. */
  function Octet(a: Addr, i: nat): nat
    requires i < 2
  {
    if i == 0 then a.value / 0x100_0000 else a.value / 0x1_0000 % 256
  }

  /** No subnet is derived from 0.0.0.0, and none from loopback, multicast and link-local IPv4 addresses. */
  lemma UnroutableV4(p: Prefix)
    requires ValidPrefix(p) && p.addr.family == V4 && p.addr.value < 0x1_0000_0000
    ensures DeriveSubnet(p).None? <==>
      || p.addr.value == 0 || Octet(p.addr, 0) == 127 || 224 <= Octet(p.addr, 0) < 240
      || (Octet(p.addr, 0) == 169 && Octet(p.addr, 1) == 254)
  {
  }

  /**
   * None is derived from :: and ::1, from ff00::/8 and from fe80::/10; nor from an IPv4 address written as IPv6 that is
   * loopback, multicast or link-local.
   */
  lemma UnroutableV6(p: Prefix)
    requires ValidPrefix(p) && p.addr.family == V6
    ensures var v := p.addr.value; var mapped := v / 0x1_0000_0000 == 0xFFFF;
      DeriveSubnet(p).None? <==>
        || v == 0 || v == 1
        || v / 0x100_0000_0000_0000_0000_0000_0000_0000 == 0xFF
        || v / 0x40_0000_0000_0000_0000_0000_0000_0000 == 0x3FA
        || (mapped && (Octet(p.addr, 0) % 256 == 127 || 224 <= Octet(p.addr, 0) % 256 < 240
                       || (Octet(p.addr, 0) % 256 == 169 && Octet(p.addr, 1) == 254)))
  {
    MappedOctets(p.addr.value);
  }

  lemma MappedOctets(v: nat)
    ensures v / 0x1_0000_0000 == 0xFFFF ==>
      && v % 0x1_0000_0000 / 0x100_0000 == v / 0x100_0000 % 256
      && v % 0x1_0000_0000 / 0x1_0000 == v / 0x100_0000 % 256 * 256 + v / 0x1_0000 % 256
  {
    if v / 0x1_0000_0000 == 0xFFFF {
      var low := v % 0x1_0000_0000;
      FourOctets(low, low / 0x100_0000, low / 0x1_0000 % 256, low % 0x1_0000);
      assert v == 0xFFFF * 0x1_0000_0000 + low;
    }
  }

  /** The numbers of an address, alone and after the prefix of a mapped one. */
  lemma FourOctets(low: nat, a: nat, b: nat, rest: nat)
    requires low < 0x1_0000_0000 && a == low / 0x100_0000 && b == low / 0x1_0000 % 256 && rest == low % 0x1_0000
    ensures low / 0x1_0000 == a * 256 + b
    ensures (0xFFFF * 0x1_0000_0000 + low) / 0x100_0000 == 0xFFFF * 256 + a
    ensures (0xFFFF * 0x1_0000_0000 + low) / 0x1_0000 == (0xFFFF * 256 + a) * 256 + b
    ensures a < 256
  {
    assert low == (a * 256 + b) * 0x1_0000 + rest;
  }

  /** A subnet without host bits starts where the block of any of its addresses does. */
  lemma ContainedStart(s: Prefix, a: Addr)
    requires ValidPrefix(s) && Masked(s) == s && Contains(s, a)
    ensures s.addr == Addr(a.family, BlockStart(a.value, Span(s)))
  {
    assert s.addr.value == BlockStart(s.addr.value, Span(s));
  }

  lemma MaskedDisjoint(s: Prefix, t: Prefix, a: Addr)
    requires ValidPrefix(s) && ValidPrefix(t) && s.bits == t.bits
    requires Masked(s) == s && Masked(t) == t && Contains(s, a) && Contains(t, a)
    ensures s == t
  {
    ContainedStart(s, a);
    ContainedStart(t, a);
    assert Span(s) == Span(t);
  }

  /** Subnets of one length never overlap: sharing an address makes them the same. */
  lemma DerivedPartition(p: Prefix, q: Prefix, s: Prefix, t: Prefix, a: Addr)
    requires ValidPrefix(p) && ValidPrefix(q) && DeriveSubnet(p) == Some(s) && DeriveSubnet(q) == Some(t)
    requires ValidPrefix(s) && ValidPrefix(t) && s.bits == t.bits
    requires Contains(s, a) && Contains(t, a)
    ensures s == t
  {
    DerivedContains(p);
    DerivedContains(q);
    MaskedDisjoint(s, t, a);
  }

  /** Two IPv4 addresses without a mask share a region exactly when their first 24 bits agree. */
  lemma HostMaskRegions(a: Addr, b: Addr)
    requires a.family == V4 && b.family == V4 && ValidAddr(a) && ValidAddr(b) && Routable(a) && Routable(b)
    ensures DeriveSubnet(Prefix(a, 32)) == DeriveSubnet(Prefix(b, 32)) <==> a.value / 256 == b.value / 256
  {
    assert Pow2(8) == 256 by { assert Pow2(4) == 16; }
    ClearedRemainder(a.value, 256);
    ClearedRemainder(b.value, 256);
  }
}
