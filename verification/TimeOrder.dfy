/** What "newest first" means: timestamps compared by the instant they name, and pages ordered by it. */
module TimeOrder {
  import opened Orders
  import opened Text
  import opened Cursor
  import opened PageWalk

  /** Days from the start of year 0 to the start of a year, and from there to the start of a month. */
  function DaysBeforeYear(year: nat): nat {
    if year == 0 then 0 else DaysBeforeYear(year - 1) + if IsLeap(year - 1) then 366 else 365
  }

  function DaysBeforeMonth(year: nat, month: nat): nat {
    if month <= 1 then 0 else DaysBeforeMonth(year, month - 1) + DaysIn(month - 1, year)
  }

  function DayNumber(t: Time): int { DaysBeforeYear(t.year) + DaysBeforeMonth(t.year, t.month) + t.day - 1 }

  function SecondOfDay(t: Time): nat { (t.hour * 60 + t.minute) * 60 + t.second }

  /** Nanoseconds since the start of year 0. */
  function Instant(t: Time): int { (DayNumber(t) * 86400 + SecondOfDay(t)) * 1_000_000_000 + t.nano }

  /** The Gregorian rule: one leap day every four years, none every hundred, one every four hundred. */
  lemma {:induction false} GregorianYears(year: nat)
    ensures DaysBeforeYear(year) == 365 * year + (year + 3) / 4 - (year + 99) / 100 + (year + 399) / 400
  {
    if year > 0 {
      GregorianYears(year - 1);
      FourCount(year - 1);
      HundredCount(year - 1);
      FourHundredCount(year - 1);
      CenturiesAreFourfold(year - 1);
    }
  }

  // How the three counts grow from one year to the next

  lemma FourCount(y: nat)
    ensures (y + 4) / 4 - (y + 3) / 4 == (if y % 4 == 0 then 1 else 0)
  {
    var q, r := y / 4, y % 4;
    assert y == 4 * q + r && 0 <= r < 4;
    assert (y + 4) / 4 == q + 1;
    if r == 0 {
      assert 4 * q <= y + 3 < 4 * (q + 1);
    } else {
      assert 4 * (q + 1) <= y + 3 < 4 * (q + 2);
    }
  }

  lemma HundredCount(y: nat)
    ensures (y + 100) / 100 - (y + 99) / 100 == (if y % 100 == 0 then 1 else 0)
  {
    var q, r := y / 100, y % 100;
    assert y == 100 * q + r && 0 <= r < 100;
    assert (y + 100) / 100 == q + 1;
    if r == 0 {
      assert 100 * q <= y + 99 < 100 * (q + 1);
    } else {
      assert 100 * (q + 1) <= y + 99 < 100 * (q + 2);
    }
  }

  lemma FourHundredCount(y: nat)
    ensures (y + 400) / 400 - (y + 399) / 400 == (if y % 400 == 0 then 1 else 0)
  {
    var q, r := y / 400, y % 400;
    assert y == 400 * q + r && 0 <= r < 400;
    assert (y + 400) / 400 == q + 1;
    if r == 0 {
      assert 400 * q <= y + 399 < 400 * (q + 1);
    } else {
      assert 400 * (q + 1) <= y + 399 < 400 * (q + 2);
    }
  }

  lemma CenturiesAreFourfold(y: nat)
    ensures y % 400 == 0 ==> y % 100 == 0
    ensures y % 100 == 0 ==> y % 4 == 0
  {
    assert y == 400 * (y / 400) + y % 400 && y == 100 * (y / 100) + y % 100;
    if y % 400 == 0 { assert y == 100 * (4 * (y / 400)); }
    if y % 100 == 0 { assert y == 4 * (25 * (y / 100)); }
  }

  /** The twelve months of a year. */
  lemma MonthLengths(year: nat)
    ensures DaysIn(1, year) == 31 && DaysIn(2, year) == (if IsLeap(year) then 29 else 28) && DaysIn(3, year) == 31
    ensures DaysIn(4, year) == 30 && DaysIn(5, year) == 31 && DaysIn(6, year) == 30 && DaysIn(7, year) == 31
    ensures DaysIn(8, year) == 31 && DaysIn(9, year) == 30 && DaysIn(10, year) == 31 && DaysIn(11, year) == 30
    ensures DaysIn(12, year) == 31
  {
  }

  lemma MonthsMakeYear(year: nat)
    ensures DaysBeforeMonth(year, 13) == if IsLeap(year) then 366 else 365
  {
    assert DaysBeforeMonth(year, 2) == 31;
    assert DaysBeforeMonth(year, 3) == 31 + DaysIn(2, year);
    assert DaysBeforeMonth(year, 4) == DaysBeforeMonth(year, 3) + 31;
    assert DaysBeforeMonth(year, 5) == DaysBeforeMonth(year, 4) + 30;
    assert DaysBeforeMonth(year, 6) == DaysBeforeMonth(year, 5) + 31;
    assert DaysBeforeMonth(year, 7) == DaysBeforeMonth(year, 6) + 30;
    assert DaysBeforeMonth(year, 8) == DaysBeforeMonth(year, 7) + 31;
    assert DaysBeforeMonth(year, 9) == DaysBeforeMonth(year, 8) + 31;
    assert DaysBeforeMonth(year, 10) == DaysBeforeMonth(year, 9) + 30;
    assert DaysBeforeMonth(year, 11) == DaysBeforeMonth(year, 10) + 31;
    assert DaysBeforeMonth(year, 12) == DaysBeforeMonth(year, 11) + 30;
  }

  lemma {:induction false} MonthsPass(year: nat, m: nat, n: nat)
    requires 1 <= m < n
    ensures DaysBeforeMonth(year, m) + DaysIn(m, year) <= DaysBeforeMonth(year, n)
  {
    if m + 1 < n { MonthsPass(year, m, n - 1); }
  }

  lemma {:induction false} YearsPass(y: nat, z: nat)
    requires y < z
    ensures DaysBeforeYear(y) + (if IsLeap(y) then 366 else 365) <= DaysBeforeYear(z)
  {
    if y + 1 < z { YearsPass(y, z - 1); }
  }

  /** An earlier date has a smaller day number. */
  lemma DaysPass(a: Time, b: Time)
    requires ValidTime(a) && ValidTime(b)
    requires a.year < b.year || (a.year == b.year && (a.month < b.month || (a.month == b.month && a.day < b.day)))
    ensures DayNumber(a) < DayNumber(b)
  {
    if a.year < b.year {
      MonthsPass(a.year, a.month, 13);
      MonthsMakeYear(a.year);
      YearsPass(a.year, b.year);
    } else if a.month < b.month {
      MonthsPass(a.year, a.month, b.month);
    }
  }

  /** Comparing times compares year, month, day, hour, minute, second and nanosecond in turn. */
  lemma TimeLessInTurn(a: Time, b: Time)
    ensures TimeLess(a, b) <==>
      || a.year < b.year || (a.year == b.year && (
      || a.month < b.month || (a.month == b.month && (
      || a.day < b.day || (a.day == b.day && (
      || a.hour < b.hour || (a.hour == b.hour && (
      || a.minute < b.minute || (a.minute == b.minute && (
      || a.second < b.second || (a.second == b.second && a.nano < b.nano)))))))))))
  {
    var r, s := TimeRank(a), TimeRank(b);
    RankLessAt(r, s, 6);
    RankLessAt(r, s, 5);
    RankLessAt(r, s, 4);
    RankLessAt(r, s, 3);
    RankLessAt(r, s, 2);
    RankLessAt(r, s, 1);
    RankLessAt(r, s, 0);
    assert !RankLess(r[7..], s[7..]);
  }

  lemma RankLessAt(r: seq<nat>, s: seq<nat>, i: nat)
    requires |r| == |s| && i < |r|
    ensures RankLess(r[i..], s[i..]) <==> r[i] < s[i] || (r[i] == s[i] && RankLess(r[i + 1..], s[i + 1..]))
    ensures r[0..] == r && s[0..] == s
  {
    assert r[i..][1..] == r[i + 1..] && s[i..][1..] == s[i + 1..];
  }

  lemma EarlierInstant(a: Time, b: Time)
    requires ValidTime(a) && ValidTime(b) && TimeLess(a, b)
    ensures Instant(a) < Instant(b)
  {
    TimeLessInTurn(a, b);
    if a.year == b.year && a.month == b.month && a.day == b.day {
      assert SecondOfDay(a) < SecondOfDay(b) || (SecondOfDay(a) == SecondOfDay(b) && a.nano < b.nano);
    } else {
      DaysPass(a, b);
      assert SecondOfDay(a) < 86400;
    }
  }

  /** For valid times: before in the list order exactly when earlier in time, and the same only when equal. */
  lemma TimeLessIffEarlier(a: Time, b: Time)
    requires ValidTime(a) && ValidTime(b)
    ensures TimeLess(a, b) <==> Instant(a) < Instant(b)
    ensures a == b <==> Instant(a) == Instant(b)
  {
    TimeLessStrictTotal();
    if TimeLess(a, b) { EarlierInstant(a, b); }
    if TimeLess(b, a) { EarlierInstant(b, a); }
  }

  // Pages

  /**
   * What a page must hold: rows of the table older than the bound, newest first, and when one of those is left out, a
   * full page of newer ones.
   */
  ghost predicate NewestPage<K(!new), V(!new)>(older: (K, K) -> bool, table: seq<Row<K, V>>, bound: Option<K>, limit: int,
                                               p: Page<K, V>) {
    && (forall i, j :: 0 <= i < j < |p.rows| ==> older(p.rows[j].key, p.rows[i].key))
    && |p.rows| <= limit
    && (forall x :: x in p.rows ==> x in table && (bound.Some? ==> older(x.key, bound.value)))
    && (forall x :: x in table && (bound.Some? ==> older(x.key, bound.value)) && x !in p.rows ==>
          p.cursor.Some? && |p.rows| == limit && NewerAll(older, p.rows, x))
    && (p.cursor.Some? ==> exists x :: x in table && x !in p.rows && (bound.Some? ==> older(x.key, bound.value)))
  }

  ghost predicate NewerAll<K, V>(older: (K, K) -> bool, rows: seq<Row<K, V>>, x: Row<K, V>) {
    forall i :: 0 <= i < |rows| ==> older(x.key, rows[i].key)
  }

  /** The two orders agree on the keys met. */
  ghost predicate Agree<K(!new)>(lt: (K, K) -> bool, older: (K, K) -> bool, valid: K -> bool) {
    forall a, b :: valid(a) && valid(b) ==> (lt(a, b) <==> older(a, b))
  }

  lemma {:induction false} FetchNewest<K(!new), V(!new)>(lt: (K, K) -> bool, codec: Codec<K>, table: seq<Row<K, V>>,
                                                         bound: Option<K>, limit: int)
    requires StrictTotal(lt) && DistinctKeys(table) && limit >= 1
    ensures NewestPage(lt, table, bound, limit, Fetch(lt, codec, table, bound, limit))
  {
    var p := Fetch(lt, codec, table, bound, limit);
    FetchCovers(lt, codec, table, bound, limit);
    FetchSize(lt, codec, table, bound, limit);
    forall x | x in table && Before(lt, x.key, bound) && x !in p.rows
      ensures p.cursor.Some? && |p.rows| == limit && NewerAll(lt, p.rows, x)
    {
      var last := p.rows[limit - 1];
      assert lt(x.key, last.key);
      forall i | 0 <= i < |p.rows| ensures lt(x.key, p.rows[i].key) {
        assert i < limit - 1 ==> lt(last.key, p.rows[i].key);
      }
    }
  }

  /** A page is no longer than asked for, and hands out a cursor only when a further row is below the bound. */
  lemma {:induction false} FetchSize<K(!new), V(!new)>(lt: (K, K) -> bool, codec: Codec<K>, table: seq<Row<K, V>>,
                                                       bound: Option<K>, limit: int)
    requires StrictTotal(lt) && DistinctKeys(table) && limit >= 1
    ensures var p := Fetch(lt, codec, table, bound, limit);
      && |p.rows| <= limit
      && (p.cursor.Some? ==> exists x :: x in table && Before(lt, x.key, bound) && x !in p.rows)
  {
    var p := Fetch(lt, codec, table, bound, limit);
    var ordered, n := FetchShape(lt, codec, table, bound, limit);
    FetchCovers(lt, codec, table, bound, limit);
    OrderedContract(lt, table);
    var rows := Below(lt, PageWalk.Ordered(lt, table), bound);
    if |rows| > limit {
      var x := rows[limit];
      BelowContract(lt, PageWalk.Ordered(lt, table), bound);
      assert x in rows;
      forall i | 0 <= i < limit ensures p.rows[i] != x { assert lt(rows[limit].key, rows[i].key); }
    }
  }

  lemma {:induction false} BelowContract<K(!new), V(!new)>(lt: (K, K) -> bool, rows: seq<Row<K, V>>, bound: Option<K>)
    requires StrictTotal(lt) && Descending(lt, rows)
    ensures Descending(lt, Below(lt, rows, bound))
    ensures forall x :: x in Below(lt, rows, bound) ==> x in rows && Before(lt, x.key, bound)
  {
    var n := BelowIsSuffix(lt, rows, bound);
    forall x | x in Below(lt, rows, bound) ensures x in rows && Before(lt, x.key, bound) {
      var k :| 0 <= k < |rows[n..]| && rows[n..][k] == x;
      assert rows[n + k] == x;
    }
  }

  lemma {:induction false} NewestAgrees<K(!new), V(!new)>(lt: (K, K) -> bool, older: (K, K) -> bool, valid: K -> bool,
                                                          table: seq<Row<K, V>>, bound: Option<K>, limit: int, p: Page<K, V>)
    requires Agree(lt, older, valid) && ValidKeys(valid, table) && (bound.Some? ==> valid(bound.value))
    requires NewestPage(lt, table, bound, limit, p)
    ensures NewestPage(older, table, bound, limit, p)
  {
    forall x | x in table ensures valid(x.key) {
      var k :| 0 <= k < |table| && table[k] == x;
      assert valid(table[k].key);
    }
    forall i | 0 <= i < |p.rows| ensures valid(p.rows[i].key) { assert p.rows[i] in p.rows; }
    forall x | x in table && (bound.Some? ==> older(x.key, bound.value)) && x !in p.rows
      ensures p.cursor.Some? && |p.rows| == limit && NewerAll(older, p.rows, x)
    {
      assert NewerAll(lt, p.rows, x);
    }
    if p.cursor.Some? {
      var x :| x in table && x !in p.rows && (bound.Some? ==> lt(x.key, bound.value));
      assert x in table && x !in p.rows && (bound.Some? ==> older(x.key, bound.value));
    }
  }

  /** Older in time, and at the same instant the smaller id. */
  function OlderText(a: TextKey, b: TextKey): bool {
    Instant(a.at) < Instant(b.at) || (Instant(a.at) == Instant(b.at) && Less(a.id, b.id))
  }

  function OlderLog(a: LogKey, b: LogKey): bool {
    Instant(a.at) < Instant(b.at) || (Instant(a.at) == Instant(b.at) && a.id < b.id)
  }

  function DatedText(k: TextKey): bool { ValidTime(k.at) }
  function DatedLog(k: LogKey): bool { ValidTime(k.at) }

  lemma KeysAgree()
    ensures Agree(TextKeyLess, OlderText, DatedText) && Agree(LogKeyLess, OlderLog, DatedLog)
  {
    forall a: TextKey, b: TextKey | DatedText(a) && DatedText(b) ensures TextKeyLess(a, b) <==> OlderText(a, b) {
      TimeLessIffEarlier(a.at, b.at);
    }
    forall a: LogKey, b: LogKey | DatedLog(a) && DatedLog(b) ensures LogKeyLess(a, b) <==> OlderLog(a, b) {
      TimeLessIffEarlier(a.at, b.at);
    }
  }

  /** What a decoded cursor names is a valid time, so every bound a list handler filters by is one. */
  lemma DecodedIsDated(cursor: string)
    ensures DecodeTextKey(cursor).Some? ==> DatedText(DecodeTextKey(cursor).value)
    ensures DecodeLogKey(cursor).Some? ==> DatedLog(DecodeLogKey(cursor).value)
  {
  }

  /** Pages of runs, devices and history are newest first by the instant, then by falling id, and skip nothing. */
  lemma {:induction false} TextPagesNewestFirst<V(!new)>(table: seq<Row<TextKey, V>>, bound: Option<TextKey>, limit: int)
    requires DistinctKeys(table) && ValidKeys(DatedText, table) && (bound.Some? ==> DatedText(bound.value)) && limit >= 1
    ensures NewestPage(OlderText, table, bound, limit, Fetch(TextKeyLess, TEXT_CODEC, table, bound, limit))
  {
    TextKeysPageable();
    KeysAgree();
    FetchNewest(TextKeyLess, TEXT_CODEC, table, bound, limit);
    NewestAgrees(TextKeyLess, OlderText, DatedText, table, bound, limit,
                 Fetch(TextKeyLess, TEXT_CODEC, table, bound, limit));
  }

  /** Pages of run logs likewise, with ids as numbers. */
  lemma {:induction false} LogPagesNewestFirst<V(!new)>(table: seq<Row<LogKey, V>>, bound: Option<LogKey>, limit: int)
    requires DistinctKeys(table) && ValidKeys(DatedLog, table) && (bound.Some? ==> DatedLog(bound.value)) && limit >= 1
    ensures NewestPage(OlderLog, table, bound, limit, Fetch(LogKeyLess, LOG_CODEC, table, bound, limit))
  {
    LogKeysPageable();
    KeysAgree();
    FetchNewest(LogKeyLess, LOG_CODEC, table, bound, limit);
    NewestAgrees(LogKeyLess, OlderLog, DatedLog, table, bound, limit, Fetch(LogKeyLess, LOG_CODEC, table, bound, limit));
  }
}
