/**
 * Keyset pagination: a list handler asks its query for one row more than a page, cuts the page, and hands out
 * a cursor to the last row kept. A client follows cursors while other clients insert rows.
 */
module PageWalk {
  import opened Orders
  import opened Text
  import opened Params
  import opened Cursor

  datatype Row<K, V> = Row(key: K, value: V)
  datatype Page<K, V> = Page(rows: seq<Row<K, V>>, cursor: Option<string>)
  datatype Codec<!K> = Codec(encode: K -> string, decode: string -> Option<K>)

  ghost predicate DistinctKeys<K, V>(table: seq<Row<K, V>>) {
    forall i, j :: 0 <= i < j < |table| ==> table[i].key != table[j].key
  }

  ghost predicate HasKey<K, V>(table: seq<Row<K, V>>, k: K) {
    exists i :: 0 <= i < |table| && table[i].key == k
  }

  ghost predicate Descending<K, V>(lt: (K, K) -> bool, rows: seq<Row<K, V>>) {
    forall i, j :: 0 <= i < j < |rows| ==> lt(rows[j].key, rows[i].key)
  }

  // The query

  function InsertRow<K, V>(lt: (K, K) -> bool, r: Row<K, V>, s: seq<Row<K, V>>): seq<Row<K, V>> {
    if s == [] then [r]
    else if lt(r.key, s[0].key) then [s[0]] + InsertRow(lt, r, s[1..])
    else [r] + s
  }

  /** ORDER BY key DESC. */
  function Ordered<K, V>(lt: (K, K) -> bool, table: seq<Row<K, V>>): seq<Row<K, V>> {
    if table == [] then [] else InsertRow(lt, table[0], Ordered(lt, table[1..]))
  }

  predicate Before<K>(lt: (K, K) -> bool, k: K, bound: Option<K>) { bound.None? || lt(k, bound.value) }

  /** WHERE the cursor is absent or the key is below it. */
  function Below<K, V>(lt: (K, K) -> bool, rows: seq<Row<K, V>>, bound: Option<K>): seq<Row<K, V>> {
    if rows == [] then []
    else if Before(lt, rows[0].key, bound) then [rows[0]] + Below(lt, rows[1..], bound)
    else Below(lt, rows[1..], bound)
  }

  /** The list query: filter, newest first, limit. */
  function List<K, V>(lt: (K, K) -> bool, table: seq<Row<K, V>>, bound: Option<K>, limit: int): seq<Row<K, V>> {
    Take(Below(lt, Ordered(lt, table), bound), limit)
  }

  /** One page: everything at or below the bound if it fits, else the first `limit` rows and a cursor. */
  function Fetch<K, V>(lt: (K, K) -> bool, codec: Codec<K>, table: seq<Row<K, V>>, bound: Option<K>, limit: int): Page<K, V>
    requires limit >= 1
  {
    var rows := Below(lt, Ordered(lt, table), bound);
    if |rows| > limit then Page(rows[..limit], Some(codec.encode(rows[limit - 1].key))) else Page(rows, None)
  }

  /** One row more than the page tells whether to cut. */
  lemma ProbeIsFetch<K, V>(lt: (K, K) -> bool, codec: Codec<K>, table: seq<Row<K, V>>, bound: Option<K>, limit: int)
    requires limit >= 1
    ensures var rows := List(lt, table, bound, limit + 1);
      Fetch(lt, codec, table, bound, limit)
        == if |rows| > limit then Page(rows[..limit], Some(codec.encode(rows[limit - 1].key))) else Page(rows, None)
  {
  }

  datatype ListError = InvalidLimit | InvalidCursor

  /** The handlers: parse the limit, decode the cursor, probe one row beyond the page, cut, answer. */
  method HandleList<K, V>(lt: (K, K) -> bool, codec: Codec<K>, table: seq<Row<K, V>>, limitParam: string, cursorParam: string,
                          defaultLimit: int, maxLimit: int) returns (r: Result<Page<K, V>, ListError>)
    requires 1 <= defaultLimit <= maxLimit
    ensures r.Ok? <==> ParseLimitParam(limitParam, defaultLimit, maxLimit).Some?
                       && (cursorParam == "" || codec.decode(cursorParam).Some?)
    ensures r.Ok? ==>
      r.value == Fetch(lt, codec, table, if cursorParam == "" then None else codec.decode(cursorParam),
                       ParseLimitParam(limitParam, defaultLimit, maxLimit).value)
    ensures r.Err? ==>
      r.error == (if ParseLimitParam(limitParam, defaultLimit, maxLimit).None? then InvalidLimit else InvalidCursor)
  {
    var parsed := ParseLimitParam(limitParam, defaultLimit, maxLimit);
    if parsed == None { return Err(InvalidLimit); }
    var limit := parsed.value;
    var bound: Option<K> := None;
    if cursorParam != "" {
      bound := codec.decode(cursorParam);
      if bound.None? { return Err(InvalidCursor); }
    }
    var rows := List(lt, table, bound, limit + 1);
    ProbeIsFetch(lt, codec, table, bound, limit);
    var cursorOut: Option<string> := None;
    if |rows| > limit {
      cursorOut := Some(codec.encode(rows[limit - 1].key));
      rows := rows[..limit];
    }
    var resp: seq<Row<K, V>> := [];
    for i := 0 to |rows|
      invariant resp == rows[..i]
    {
      resp := resp + [rows[i]];
    }
    assert resp == rows;
    return Ok(Page(resp, cursorOut));
  }

  // What one page contains

  lemma {:induction false} InsertRowContract<K(!new), V(!new)>(lt: (K, K) -> bool, r: Row<K, V>, s: seq<Row<K, V>>)
    requires StrictTotal(lt) && Descending(lt, s) && !HasKey(s, r.key)
    ensures Descending(lt, InsertRow(lt, r, s))
    ensures |InsertRow(lt, r, s)| == |s| + 1
    ensures forall x :: x in InsertRow(lt, r, s) <==> x == r || x in s
  {
    if s != [] {
      assert s[0].key != r.key;
      assert s == [s[0]] + s[1..];
      if lt(r.key, s[0].key) {
        forall i | 0 <= i < |s[1..]| ensures s[1..][i].key != r.key { assert s[i + 1].key != r.key; }
        InsertRowContract(lt, r, s[1..]);
        var rest := InsertRow(lt, r, s[1..]);
        forall j | 0 <= j < |rest| ensures lt(rest[j].key, s[0].key) {
          var x: Row<K, V> := rest[j];
          assert x in rest;
          if x != r {
            assert x in s[1..];
            var k :| 0 <= k < |s[1..]| && s[1..][k] == x;
            assert s[k + 1] == x;
          }
        }
      } else {
        forall j | 0 <= j < |s| ensures lt(s[j].key, r.key) {
          if j > 0 { assert lt(s[j].key, s[0].key); }
        }
      }
    }
  }

  lemma {:induction false} OrderedContract<K(!new), V(!new)>(lt: (K, K) -> bool, table: seq<Row<K, V>>)
    requires StrictTotal(lt) && DistinctKeys(table)
    ensures Descending(lt, Ordered(lt, table))
    ensures |Ordered(lt, table)| == |table|
    ensures forall x :: x in Ordered(lt, table) <==> x in table
  {
    if table != [] {
      var rest := Ordered(lt, table[1..]);
      OrderedContract(lt, table[1..]);
      forall i | 0 <= i < |rest| ensures rest[i].key != table[0].key {
        var x: Row<K, V> := rest[i];
        assert x in rest && x in table[1..];
        var k :| 0 <= k < |table[1..]| && table[1..][k] == x;
        assert table[k + 1] == x;
      }
      InsertRowContract(lt, table[0], rest);
      assert table == [table[0]] + table[1..];
    }
  }

  /** On a descending list the rows below a bound are a suffix. */
  lemma {:induction false} BelowIsSuffix<K(!new), V(!new)>(lt: (K, K) -> bool, rows: seq<Row<K, V>>, bound: Option<K>)
    returns (n: nat)
    requires StrictTotal(lt) && Descending(lt, rows)
    ensures n <= |rows| && Below(lt, rows, bound) == rows[n..]
    ensures forall i :: 0 <= i < n ==> !Before(lt, rows[i].key, bound)
    ensures forall i :: n <= i < |rows| ==> Before(lt, rows[i].key, bound)
  {
    if rows == [] {
      n := 0;
    } else if Before(lt, rows[0].key, bound) {
      var m := BelowIsSuffix(lt, rows[1..], bound);
      n := 0;
      forall i | 0 <= i < |rows| ensures Before(lt, rows[i].key, bound) {
        if i > 0 { assert lt(rows[i].key, rows[0].key); }
      }
      assert m == 0;
      assert rows == [rows[0]] + rows[1..];
    } else {
      var m := BelowIsSuffix(lt, rows[1..], bound);
      n := m + 1;
      assert rows[1..][m..] == rows[n..];
      forall i | 0 <= i < n ensures !Before(lt, rows[i].key, bound) {
        if i > 0 { assert rows[1..][i - 1] == rows[i]; }
      }
      forall i | n <= i < |rows| ensures Before(lt, rows[i].key, bound) {
        assert rows[1..][i - 1] == rows[i];
      }
    }
  }

  /** Nothing between the bound and the end of the page is skipped; without a cursor, nothing is left. */
  ghost predicate PageCovers<K(!new), V(!new)>(lt: (K, K) -> bool, codec: Codec<K>, table: seq<Row<K, V>>,
                                               bound: Option<K>, limit: int, p: Page<K, V>) {
    && Descending(lt, p.rows)
    && (forall x :: x in p.rows ==> x in table && Before(lt, x.key, bound))
    && (p.cursor.None? ==> forall x :: x in table && Before(lt, x.key, bound) ==> x in p.rows)
    && (p.cursor.Some? ==>
          && |p.rows| == limit >= 1
          && p.cursor.value == codec.encode(p.rows[limit - 1].key)
          && forall x :: x in table && Before(lt, x.key, bound) && !lt(x.key, p.rows[limit - 1].key) ==> x in p.rows)
  }

  lemma FetchShape<K(!new), V(!new)>(lt: (K, K) -> bool, codec: Codec<K>, table: seq<Row<K, V>>, bound: Option<K>, limit: int)
    returns (ordered: seq<Row<K, V>>, n: nat)
    requires StrictTotal(lt) && DistinctKeys(table) && limit >= 1
    ensures Descending(lt, ordered) && n <= |ordered| && forall x :: x in ordered <==> x in table
    ensures forall i :: 0 <= i < n ==> !Before(lt, ordered[i].key, bound)
    ensures forall i :: n <= i < |ordered| ==> Before(lt, ordered[i].key, bound)
    ensures var p := Fetch(lt, codec, table, bound, limit);
      && n + |p.rows| <= |ordered| && p.rows == ordered[n..][..|p.rows|]
      && (p.cursor.None? ==> n + |p.rows| == |ordered|)
      && (p.cursor.Some? ==> |p.rows| == limit && p.cursor.value == codec.encode(p.rows[limit - 1].key))
  {
    OrderedContract(lt, table);
    ordered := Ordered(lt, table);
    n := BelowIsSuffix(lt, ordered, bound);
  }

  lemma FetchCovers<K(!new), V(!new)>(lt: (K, K) -> bool, codec: Codec<K>, table: seq<Row<K, V>>, bound: Option<K>, limit: int)
    requires StrictTotal(lt) && DistinctKeys(table) && limit >= 1
    ensures PageCovers(lt, codec, table, bound, limit, Fetch(lt, codec, table, bound, limit))
  {
    var p := Fetch(lt, codec, table, bound, limit);
    var ordered, n := FetchShape(lt, codec, table, bound, limit);
    forall i | 0 <= i < |p.rows| ensures p.rows[i] == ordered[n + i] { }
    forall x | x in p.rows ensures x in table && Before(lt, x.key, bound) {
      var i :| 0 <= i < |p.rows| && p.rows[i] == x;
      assert ordered[n + i] in ordered;
    }
    forall x | x in table && Before(lt, x.key, bound) && (p.cursor.Some? ==> !lt(x.key, p.rows[limit - 1].key))
      ensures x in p.rows
    {
      InPage(lt, ordered, n, |p.rows|, x, bound);
    }
  }

  /** A row that is below the bound but not below the last row of the page is on the page. */
  lemma InPage<K(!new), V(!new)>(lt: (K, K) -> bool, ordered: seq<Row<K, V>>, n: nat, size: nat, x: Row<K, V>, bound: Option<K>)
    requires StrictTotal(lt) && Descending(lt, ordered) && n + size <= |ordered| && x in ordered && Before(lt, x.key, bound)
    requires forall i :: 0 <= i < n ==> !Before(lt, ordered[i].key, bound)
    requires n + size < |ordered| ==> size > 0 && !lt(x.key, ordered[n + size - 1].key)
    ensures x in ordered[n..][..size]
  {
    var i :| 0 <= i < |ordered| && ordered[i] == x;
    assert n <= i < n + size;
    assert ordered[n..][..size][i - n] == x;
  }

  // Following cursors

  /** Every key of the earlier table is still there in the later one. */
  ghost predicate Grows<K(!new), V(!new)>(earlier: seq<Row<K, V>>, later: seq<Row<K, V>>) {
    forall k :: HasKey(earlier, k) ==> HasKey(later, k)
  }

  /** Cursors of stored keys decode back to the key. */
  ghost predicate Faithful<K(!new)>(codec: Codec<K>, valid: K -> bool) {
    forall k :: valid(k) ==> codec.decode(codec.encode(k)) == Some(k)
  }

  ghost predicate ValidKeys<K, V>(valid: K -> bool, table: seq<Row<K, V>>) {
    forall i :: 0 <= i < |table| ==> valid(table[i].key)
  }

  /** What every table met along a walk satisfies: primary keys, encodable keys. Rows may come, go and move. */
  ghost predicate Encodable<K(!new), V(!new)>(valid: K -> bool, tables: seq<seq<Row<K, V>>>) {
    forall i :: 0 <= i < |tables| ==> DistinctKeys(tables[i]) && ValidKeys(valid, tables[i])
  }

  /** Tables to which rows are only added. */
  ghost predicate Snapshots<K(!new), V(!new)>(valid: K -> bool, tables: seq<seq<Row<K, V>>>) {
    Encodable(valid, tables) && forall i, j :: 0 <= i <= j < |tables| ==> Grows(tables[i], tables[j])
  }

  /** Key `k` is there each time a page is fetched. */
  ghost predicate Persists<K(!new), V(!new)>(tables: seq<seq<Row<K, V>>>, k: K) {
    forall i :: 0 <= i < |tables| ==> HasKey(tables[i], k)
  }

  /** Some table met along the way holds `k`. */
  ghost predicate Met<K(!new), V(!new)>(tables: seq<seq<Row<K, V>>>, k: K) {
    exists i :: 0 <= i < |tables| && HasKey(tables[i], k)
  }

  /** Page `i` was fetched from `tables[i]` with the cursor of page `i - 1`. */
  ghost predicate Walk<K, V>(lt: (K, K) -> bool, codec: Codec<K>, limit: int, tables: seq<seq<Row<K, V>>>,
                             pages: seq<Page<K, V>>) {
    && |pages| == |tables| >= 1 && limit >= 1
    && pages[0] == Fetch(lt, codec, tables[0], None, limit)
    && forall i :: 0 < i < |pages| ==> Follows(lt, codec, limit, tables[i], pages[i - 1], pages[i])
  }

  ghost predicate Follows<K, V>(lt: (K, K) -> bool, codec: Codec<K>, limit: int, table: seq<Row<K, V>>,
                                prev: Page<K, V>, next: Page<K, V>)
    requires limit >= 1
  {
    && prev.cursor.Some?
    && codec.decode(prev.cursor.value).Some?
    && next == Fetch(lt, codec, table, codec.decode(prev.cursor.value), limit)
  }

  function AllRows<K, V>(pages: seq<Page<K, V>>): seq<Row<K, V>> {
    if pages == [] then [] else AllRows(pages[..|pages| - 1]) + pages[|pages| - 1].rows
  }

  ghost function Last<T>(s: seq<T>): T
    requires s != []
  {
    s[|s| - 1]
  }

  /** The bound a page was fetched with. */
  ghost function BoundOf<K, V>(pages: seq<Page<K, V>>, i: int): Option<K>
    requires 0 <= i < |pages| && forall j :: 0 <= j < i ==> pages[j].rows != []
  {
    if i == 0 then None else Some(Last(pages[i - 1].rows).key)
  }

  /** What the page before handed over. */
  function Resumes<K, V>(codec: Codec<K>, pages: seq<Page<K, V>>, i: int): Option<K>
    requires 0 <= i < |pages|
  {
    if i == 0 || pages[i - 1].cursor.None? then None else codec.decode(pages[i - 1].cursor.value)
  }

  /** Every page covers what its table holds below the key it resumes from. */
  lemma PageOfWalk<K(!new), V(!new)>(lt: (K, K) -> bool, codec: Codec<K>, valid: K -> bool, limit: int,
                               tables: seq<seq<Row<K, V>>>, pages: seq<Page<K, V>>, i: int)
    requires StrictTotal(lt) && Faithful(codec, valid) && Encodable(valid, tables) && Walk(lt, codec, limit, tables, pages)
    requires 0 <= i < |pages|
    ensures PageCovers(lt, codec, tables[i], Resumes(codec, pages, i), limit, pages[i])
    ensures i > 0 ==> pages[i - 1].cursor.Some?
  {
    if i > 0 { assert Follows(lt, codec, limit, tables[i], pages[i - 1], pages[i]); }
    FetchCovers(lt, codec, tables[i], Resumes(codec, pages, i), limit);
  }

  /** A full page ends with a row of the table, whose key has a cursor. */
  lemma LastRowValid<K(!new), V(!new)>(lt: (K, K) -> bool, codec: Codec<K>, valid: K -> bool, table: seq<Row<K, V>>,
                                       bound: Option<K>, limit: int, p: Page<K, V>)
    requires PageCovers(lt, codec, table, bound, limit, p) && p.cursor.Some? && ValidKeys(valid, table)
    ensures valid(p.rows[limit - 1].key)
  {
    var last := p.rows[limit - 1];
    assert last in p.rows && last in table;
    var m :| 0 <= m < |table| && table[m] == last;
    assert valid(table[m].key);
  }

  /** A page that is not the last is full, and the next one resumes from the key of its last row. */
  lemma PageHandsOver<K(!new), V(!new)>(lt: (K, K) -> bool, codec: Codec<K>, valid: K -> bool, limit: int,
                                  tables: seq<seq<Row<K, V>>>, pages: seq<Page<K, V>>, i: int)
    requires StrictTotal(lt) && Faithful(codec, valid) && Encodable(valid, tables) && Walk(lt, codec, limit, tables, pages)
    requires 0 < i < |pages|
    ensures |pages[i - 1].rows| == limit >= 1
    ensures Resumes(codec, pages, i) == Some(Last(pages[i - 1].rows).key)
  {
    FollowedPage(lt, codec, valid, limit, tables, pages, i);
    var prev := pages[i - 1];
    var last := Last(prev.rows).key;
    assert prev.cursor == Some(codec.encode(last)) && codec.decode(codec.encode(last)) == Some(last);
  }

  /** A page another follows is full and hands out the cursor of its last row. */
  lemma FollowedPage<K(!new), V(!new)>(lt: (K, K) -> bool, codec: Codec<K>, valid: K -> bool, limit: int,
                                 tables: seq<seq<Row<K, V>>>, pages: seq<Page<K, V>>, i: int)
    requires StrictTotal(lt) && Faithful(codec, valid) && Encodable(valid, tables) && Walk(lt, codec, limit, tables, pages)
    requires 0 < i < |pages|
    ensures var prev := pages[i - 1];
      && |prev.rows| == limit >= 1 && prev.cursor == Some(codec.encode(Last(prev.rows).key)) && valid(Last(prev.rows).key)
  {
    PageOfWalk(lt, codec, valid, limit, tables, pages, i);
    PageOfWalk(lt, codec, valid, limit, tables, pages, i - 1);
    LastRowValid(lt, codec, valid, tables[i - 1], Resumes(codec, pages, i - 1), limit, pages[i - 1]);
  }

  lemma WalkPage<K(!new), V(!new)>(lt: (K, K) -> bool, codec: Codec<K>, valid: K -> bool, limit: int,
                             tables: seq<seq<Row<K, V>>>, pages: seq<Page<K, V>>, i: int)
    requires StrictTotal(lt) && Faithful(codec, valid) && Encodable(valid, tables) && Walk(lt, codec, limit, tables, pages)
    requires 0 <= i < |pages|
    ensures forall j :: 0 <= j < i ==> |pages[j].rows| == limit
    ensures PageCovers(lt, codec, tables[i], BoundOf(pages, i), limit, pages[i])
  {
    forall j | 0 <= j < i ensures |pages[j].rows| == limit {
      PageHandsOver(lt, codec, valid, limit, tables, pages, j + 1);
    }
    PageOfWalk(lt, codec, valid, limit, tables, pages, i);
    if i > 0 { PageHandsOver(lt, codec, valid, limit, tables, pages, i); }
  }

  // A client that passes back each cursor it is handed

  /** The empty string, which asks for the first page, is no cursor. */
  ghost predicate EmptyIsNoCursor<K>(codec: Codec<K>) { codec.decode("").None? }

  /** A cursor that is handed out is not empty, and is accepted when it comes back. */
  lemma HandedOut<K(!new), V(!new)>(lt: (K, K) -> bool, codec: Codec<K>, valid: K -> bool, table: seq<Row<K, V>>,
                                    bound: Option<K>, limit: int)
    requires StrictTotal(lt) && Faithful(codec, valid) && EmptyIsNoCursor(codec)
    requires DistinctKeys(table) && ValidKeys(valid, table) && limit >= 1
    ensures var p := Fetch(lt, codec, table, bound, limit);
      p.cursor.Some? ==> p.cursor.value != "" && codec.decode(p.cursor.value).Some?
  {
    var p := Fetch(lt, codec, table, bound, limit);
    FetchCovers(lt, codec, table, bound, limit);
    if p.cursor.Some? { LastRowValid(lt, codec, valid, table, bound, limit, p); }
  }

  lemma WalkNext<K(!new), V(!new)>(lt: (K, K) -> bool, codec: Codec<K>, limit: int, tables: seq<seq<Row<K, V>>>,
                                   pages: seq<Page<K, V>>, p: Page<K, V>)
    requires 1 <= |pages| < |tables| && Walk(lt, codec, limit, tables[..|pages|], pages)
    requires Follows(lt, codec, limit, tables[|pages|], Last(pages), p)
    ensures Walk(lt, codec, limit, tables[..|pages| + 1], pages + [p])
  {
    var more, met := pages + [p], tables[..|pages| + 1];
    forall i | 0 < i < |more| ensures Follows(lt, codec, limit, met[i], more[i - 1], more[i]) {
      if i < |pages| { assert Follows(lt, codec, limit, tables[..|pages|][i], pages[i - 1], pages[i]); }
    }
  }

  /**
   * Requests chained through the cursor text, the i-th meeting `tables[i]`: none is refused but for its limit, and
   * the pages form a walk, which ends when no cursor comes back. Then every key there throughout came back, once.
   */
  method FollowCursors<K(!new), V(!new)>(lt: (K, K) -> bool, codec: Codec<K>, ghost valid: K -> bool,
                                         tables: seq<seq<Row<K, V>>>, limitParam: string, defaultLimit: int, maxLimit: int)
    returns (r: Result<seq<Page<K, V>>, ListError>)
    requires StrictTotal(lt) && Faithful(codec, valid) && EmptyIsNoCursor(codec) && Encodable(valid, tables)
    requires 1 <= defaultLimit <= maxLimit && tables != []
    ensures r.Ok? <==> ParseLimitParam(limitParam, defaultLimit, maxLimit).Some?
    ensures r.Err? ==> r.error == InvalidLimit
    ensures r.Ok? ==>
      && 1 <= |r.value| <= |tables|
      && Walk(lt, codec, ParseLimitParam(limitParam, defaultLimit, maxLimit).value, tables[..|r.value|], r.value)
      && (|r.value| < |tables| ==> Last(r.value).cursor.None?)
    ensures r.Ok? && Last(r.value).cursor.None? ==>
      DistinctKeys(AllRows(r.value)) && forall k :: Persists(tables[..|r.value|], k) ==> HasKey(AllRows(r.value), k)
  {
    var first := HandleList(lt, codec, tables[0], limitParam, "", defaultLimit, maxLimit);
    if first.Err? { return Err(first.error); }
    ghost var limit := ParseLimitParam(limitParam, defaultLimit, maxLimit).value;
    var pages, page := [first.value], first.value;
    HandedOut(lt, codec, valid, tables[0], None, limit);
    while |pages| < |tables| && page.cursor.Some?
      invariant 1 <= |pages| <= |tables| && page == Last(pages)
      invariant Walk(lt, codec, limit, tables[..|pages|], pages)
      invariant page.cursor.Some? ==> page.cursor.value != "" && codec.decode(page.cursor.value).Some?
    {
      var cursor := page.cursor.value;
      var next := HandleList(lt, codec, tables[|pages|], limitParam, cursor, defaultLimit, maxLimit);
      HandedOut(lt, codec, valid, tables[|pages|], codec.decode(cursor), limit);
      WalkNext(lt, codec, limit, tables, pages, next.value);
      page := next.value;
      pages := pages + [page];
    }
    if page.cursor.None? { StableKeysOnce(lt, codec, valid, limit, tables[..|pages|], pages); }
    return Ok(pages);
  }

  /** A page fetched below the last row returned so far continues the descent. */
  lemma DescentContinues<K(!new), V(!new)>(lt: (K, K) -> bool, earlier: seq<Row<K, V>>, rows: seq<Row<K, V>>)
    requires StrictTotal(lt) && Descending(lt, earlier) && Descending(lt, rows) && earlier != []
    requires forall j :: 0 <= j < |rows| ==> lt(rows[j].key, Last(earlier).key)
    ensures Descending(lt, earlier + rows)
  {
    var all := earlier + rows;
    forall i, j | 0 <= i < j < |all| ensures lt(all[j].key, all[i].key) {
      if i < |earlier| <= j {
        assert lt(rows[j - |earlier|].key, Last(earlier).key);
        if i < |earlier| - 1 { assert lt(earlier[|earlier| - 1].key, earlier[i].key); }
      }
    }
  }

  lemma PageLength<K(!new), V(!new)>(lt: (K, K) -> bool, codec: Codec<K>, valid: K -> bool, limit: int,
                                     tables: seq<seq<Row<K, V>>>, pages: seq<Page<K, V>>, i: int)
    requires StrictTotal(lt) && Faithful(codec, valid) && Encodable(valid, tables) && Walk(lt, codec, limit, tables, pages)
    requires 0 <= i < |pages| - 1
    ensures |pages[i].rows| == limit
  {
    WalkPage(lt, codec, valid, limit, tables, pages, i + 1);
  }

  lemma AllRowsNext<K, V>(pages: seq<Page<K, V>>, n: int)
    requires 1 <= n <= |pages|
    ensures AllRows(pages[..n]) == AllRows(pages[..n - 1]) + pages[n - 1].rows
  {
    assert pages[..n][..n - 1] == pages[..n - 1];
  }

  lemma OneMore(n: int, limit: int)
    ensures (n - 1) * limit + limit == n * limit
  {
  }

  /** Every page but the last is full, and the next bound is the last row returned. */
  lemma {:induction false} WalkSizes<K(!new), V(!new)>(lt: (K, K) -> bool, codec: Codec<K>, valid: K -> bool, limit: int,
                                                 tables: seq<seq<Row<K, V>>>, pages: seq<Page<K, V>>, n: int)
    requires StrictTotal(lt) && Faithful(codec, valid) && Encodable(valid, tables) && Walk(lt, codec, limit, tables, pages)
    requires 1 <= n < |pages|
    ensures |AllRows(pages[..n])| == n * limit && |pages[n - 1].rows| == limit
    ensures AllRows(pages[..n]) != [] && Last(AllRows(pages[..n])) == Last(pages[n - 1].rows)
    decreases n
  {
    AllRowsNext(pages, n);
    PageLength(lt, codec, valid, limit, tables, pages, n - 1);
    if n > 1 {
      WalkSizes(lt, codec, valid, limit, tables, pages, n - 1);
      OneMore(n, limit);
    }
  }

  /** Everything returned so far is strictly descending. */
  lemma {:induction false} WalkDescends<K(!new), V(!new)>(lt: (K, K) -> bool, codec: Codec<K>, valid: K -> bool, limit: int,
                                                    tables: seq<seq<Row<K, V>>>, pages: seq<Page<K, V>>, n: int)
    requires StrictTotal(lt) && Faithful(codec, valid) && Encodable(valid, tables) && Walk(lt, codec, limit, tables, pages)
    requires 1 <= n <= |pages|
    ensures Descending(lt, AllRows(pages[..n]))
    decreases n
  {
    assert pages[..n][..n - 1] == pages[..n - 1];
    var rows := pages[n - 1].rows;
    var earlier := AllRows(pages[..n - 1]);
    assert AllRows(pages[..n]) == earlier + rows;
    WalkPage(lt, codec, valid, limit, tables, pages, n - 1);
    if n > 1 {
      WalkDescends(lt, codec, valid, limit, tables, pages, n - 1);
      WalkSizes(lt, codec, valid, limit, tables, pages, n - 1);
      forall j | 0 <= j < |rows| ensures lt(rows[j].key, Last(earlier).key) {
        assert rows[j] in rows && Before(lt, rows[j].key, BoundOf(pages, n - 1));
      }
      DescentContinues(lt, earlier, rows);
    } else {
      assert earlier + rows == rows;
    }
  }

  /** No row is returned twice, on any walk, whatever is inserted between its pages. */
  lemma NoRowTwice<K(!new), V(!new)>(lt: (K, K) -> bool, codec: Codec<K>, valid: K -> bool, limit: int,
                               tables: seq<seq<Row<K, V>>>, pages: seq<Page<K, V>>)
    requires StrictTotal(lt) && Faithful(codec, valid) && Encodable(valid, tables) && Walk(lt, codec, limit, tables, pages)
    ensures Descending(lt, AllRows(pages)) && DistinctKeys(AllRows(pages))
  {
    assert pages[..|pages|] == pages;
    WalkDescends(lt, codec, valid, limit, tables, pages, |pages|);
    var rows := AllRows(pages);
    forall i, j | 0 <= i < j < |rows| ensures rows[i].key != rows[j].key {
      assert lt(rows[j].key, rows[i].key);
    }
  }

  lemma HasKeyConcat<K(!new), V(!new)>(a: seq<Row<K, V>>, b: seq<Row<K, V>>, k: K)
    requires HasKey(a, k) || HasKey(b, k)
    ensures HasKey(a + b, k)
  {
    if HasKey(a, k) {
      var i :| 0 <= i < |a| && a[i].key == k;
      assert (a + b)[i].key == k;
    } else {
      var i :| 0 <= i < |b| && b[i].key == k;
      assert (a + b)[|a| + i].key == k;
    }
  }

  /** A page returns every key of its table that is below its bound and not below its last row. */
  lemma PageReturns<K(!new), V(!new)>(lt: (K, K) -> bool, codec: Codec<K>, table: seq<Row<K, V>>,
                                      bound: Option<K>, limit: int, p: Page<K, V>, k: K)
    requires PageCovers(lt, codec, table, bound, limit, p) && HasKey(table, k)
    requires Before(lt, k, bound) && (p.cursor.Some? ==> p.rows != [] && !lt(k, Last(p.rows).key))
    ensures HasKey(p.rows, k)
  {
    var m :| 0 <= m < |table| && table[m].key == k;
    assert table[m] in table && table[m] in p.rows;
    var i :| 0 <= i < |p.rows| && p.rows[i] == table[m];
  }

  /** Keys there throughout that are at or above the last row returned have all been returned. */
  lemma {:induction false} NothingSkipped<K(!new), V(!new)>(lt: (K, K) -> bool, codec: Codec<K>, valid: K -> bool, limit: int,
                                                      tables: seq<seq<Row<K, V>>>, pages: seq<Page<K, V>>, n: int, k: K)
    requires StrictTotal(lt) && Faithful(codec, valid) && Encodable(valid, tables) && Walk(lt, codec, limit, tables, pages)
    requires 1 <= n <= |pages| && Persists(tables, k)
    requires pages[n - 1].cursor.Some? ==> pages[n - 1].rows != [] && !lt(k, Last(pages[n - 1].rows).key)
    ensures HasKey(AllRows(pages[..n]), k)
    decreases n
  {
    assert pages[..n][..n - 1] == pages[..n - 1];
    WalkPage(lt, codec, valid, limit, tables, pages, n - 1);
    var bound := BoundOf(pages, n - 1);
    if n > 1 { assert Follows(lt, codec, limit, tables[n - 1], pages[n - 2], pages[n - 1]); }
    if Before(lt, k, bound) {
      PageReturns(lt, codec, tables[n - 1], bound, limit, pages[n - 1], k);
    } else {
      NothingSkipped(lt, codec, valid, limit, tables, pages, n - 1, k);
    }
    HasKeyConcat(AllRows(pages[..n - 1]), pages[n - 1].rows, k);
  }

  /**
   * Whatever is inserted, deleted or moved to another key while it runs, a finished walk returns each key that was there
   * at every fetch, returns no key twice, and returns only keys that some table held.
   */
  lemma {:induction false} StableKeysOnce<K(!new), V(!new)>(lt: (K, K) -> bool, codec: Codec<K>, valid: K -> bool, limit: int,
                                      tables: seq<seq<Row<K, V>>>, pages: seq<Page<K, V>>)
    requires StrictTotal(lt) && Faithful(codec, valid) && Encodable(valid, tables) && Walk(lt, codec, limit, tables, pages)
    requires pages[|pages| - 1].cursor.None?
    ensures DistinctKeys(AllRows(pages))
    ensures forall k :: Persists(tables, k) ==> HasKey(AllRows(pages), k)
    ensures forall k :: HasKey(AllRows(pages), k) ==> Met(tables, k)
  {
    NoRowTwice(lt, codec, valid, limit, tables, pages);
    assert pages[..|pages|] == pages;
    forall k | Persists(tables, k) ensures HasKey(AllRows(pages), k) {
      NothingSkipped(lt, codec, valid, limit, tables, pages, |pages|, k);
    }
    forall k | HasKey(AllRows(pages), k) ensures Met(tables, k) {
      ReturnedWasStored(lt, codec, valid, limit, tables, pages, |pages|, k);
    }
  }

  /**
   * A finished walk returns every row that was there when it began exactly once, whatever was inserted
   * while it ran, and returns nothing that no table held.
   */
  lemma {:induction false} FinishedWalkExact<K(!new), V(!new)>(lt: (K, K) -> bool, codec: Codec<K>, valid: K -> bool, limit: int,
                                      tables: seq<seq<Row<K, V>>>, pages: seq<Page<K, V>>)
    requires StrictTotal(lt) && Faithful(codec, valid) && Snapshots(valid, tables) && Walk(lt, codec, limit, tables, pages)
    requires pages[|pages| - 1].cursor.None?
    ensures DistinctKeys(AllRows(pages))
    ensures forall k :: HasKey(tables[0], k) ==> HasKey(AllRows(pages), k)
    ensures forall k :: HasKey(AllRows(pages), k) ==> HasKey(tables[|tables| - 1], k)
  {
    StableKeysOnce(lt, codec, valid, limit, tables, pages);
    forall k | HasKey(tables[0], k) ensures HasKey(AllRows(pages), k) {
      assert forall i :: 0 <= i < |tables| ==> Grows(tables[0], tables[i]);
      assert Persists(tables, k);
    }
    forall k | HasKey(AllRows(pages), k) ensures HasKey(tables[|tables| - 1], k) {
      MetLasts(valid, tables, k);
    }
  }

  lemma MetLasts<K(!new), V(!new)>(valid: K -> bool, tables: seq<seq<Row<K, V>>>, k: K)
    requires Snapshots(valid, tables) && Met(tables, k)
    ensures HasKey(tables[|tables| - 1], k)
  {
    var i :| 0 <= i < |tables| && HasKey(tables[i], k);
    assert Grows(tables[i], tables[|tables| - 1]);
  }

  lemma {:induction false} ReturnedWasStored<K(!new), V(!new)>(lt: (K, K) -> bool, codec: Codec<K>, valid: K -> bool, limit: int,
                                                         tables: seq<seq<Row<K, V>>>, pages: seq<Page<K, V>>, n: int, k: K)
    requires StrictTotal(lt) && Faithful(codec, valid) && Encodable(valid, tables) && Walk(lt, codec, limit, tables, pages)
    requires 1 <= n <= |pages| && HasKey(AllRows(pages[..n]), k)
    ensures Met(tables, k)
    decreases n
  {
    assert pages[..n][..n - 1] == pages[..n - 1];
    var all, rows := AllRows(pages[..n]), pages[n - 1].rows;
    var i :| 0 <= i < |all| && all[i].key == k;
    if i >= |all| - |rows| {
      WalkPage(lt, codec, valid, limit, tables, pages, n - 1);
      var r := rows[i - (|all| - |rows|)];
      assert r in rows && r in tables[n - 1];
      var m :| 0 <= m < |tables[n - 1]| && tables[n - 1][m] == r;
      assert HasKey(tables[n - 1], k);
    } else {
      assert AllRows(pages[..n - 1])[i].key == k;
      ReturnedWasStored(lt, codec, valid, limit, tables, pages, n - 1, k);
    }
  }

  // Walks end

  ghost function Keys<K, V>(rows: seq<Row<K, V>>): set<K> { set i | 0 <= i < |rows| :: rows[i].key }

  lemma KeysAppend<K(!new), V(!new)>(init: seq<Row<K, V>>, last: Row<K, V>)
    ensures Keys(init + [last]) == Keys(init) + {last.key}
  {
    var rows := init + [last];
    forall k | k in Keys(init) ensures k in Keys(rows) {
      var i :| 0 <= i < |init| && init[i].key == k;
      assert rows[i].key == k;
    }
    assert rows[|init|].key == last.key;
    forall k | k in Keys(rows) ensures k in Keys(init) + {last.key} {
      var i :| 0 <= i < |rows| && rows[i].key == k;
      if i < |init| { assert init[i].key == k; }
    }
  }

  lemma {:induction false} KeyCount<K(!new), V(!new)>(rows: seq<Row<K, V>>)
    requires DistinctKeys(rows)
    ensures |Keys(rows)| == |rows|
  {
    if rows != [] {
      var init, last := rows[..|rows| - 1], rows[|rows| - 1];
      KeyCount(init);
      KeysAppend(init, last);
      assert rows == init + [last];
      forall i | 0 <= i < |init| ensures init[i].key != last.key {
        assert rows[i].key != rows[|rows| - 1].key;
      }
    }
  }

  lemma SubsetCount<T>(a: set<T>, b: set<T>)
    requires a <= b
    ensures |a| <= |b|
  {
    assert |b| == |a| + |b - a| by { assert b == a + (b - a); }
  }

  /** A walk over tables that never hold more than `N` rows has at most `N / limit + 1` pages. */
  lemma WalkEnds<K(!new), V(!new)>(lt: (K, K) -> bool, codec: Codec<K>, valid: K -> bool, limit: int,
                             tables: seq<seq<Row<K, V>>>, pages: seq<Page<K, V>>)
    requires StrictTotal(lt) && Faithful(codec, valid) && Snapshots(valid, tables) && Walk(lt, codec, limit, tables, pages)
    ensures (|pages| - 1) * limit <= |tables[|tables| - 1]|
  {
    var n := |pages| - 1;
    if n > 0 {
      var early, table := AllRows(pages[..n]), tables[|tables| - 1];
      WalkDescends(lt, codec, valid, limit, tables, pages, n);
      WalkSizes(lt, codec, valid, limit, tables, pages, n);
      forall i, j | 0 <= i < j < |early| ensures early[i].key != early[j].key { assert lt(early[j].key, early[i].key); }
      KeyCount(early);
      KeyCount(table);
      forall k | k in Keys(early) ensures k in Keys(table) {
        ReturnedWasStored(lt, codec, valid, limit, tables, pages, n, k);
        MetLasts(valid, tables, k);
      }
      SubsetCount(Keys(early), Keys(table));
    }
  }

  /** On a table that does not change, a finished walk is the ordered table, page after page. */
  lemma {:induction false} FixedTableWalk<K(!new), V(!new)>(lt: (K, K) -> bool, codec: Codec<K>, valid: K -> bool, limit: int,
                                   table: seq<Row<K, V>>, tables: seq<seq<Row<K, V>>>, pages: seq<Page<K, V>>)
    requires StrictTotal(lt) && Faithful(codec, valid) && DistinctKeys(table) && ValidKeys(valid, table)
    requires (forall i :: 0 <= i < |tables| ==> tables[i] == table) && Walk(lt, codec, limit, tables, pages)
    requires pages[|pages| - 1].cursor.None?
    ensures AllRows(pages) == Ordered(lt, table)
  {
    FinishedWalkExact(lt, codec, valid, limit, tables, pages);
    NoRowTwice(lt, codec, valid, limit, tables, pages);
    OrderedContract(lt, table);
    var all, ordered := AllRows(pages), Ordered(lt, table);
    assert pages[..|pages|] == pages;
    forall x ensures x in all <==> x in ordered {
      if x in all {
        RowsFromTable(lt, codec, valid, limit, table, tables, pages, |pages|, x);
      }
      if x in ordered {
        var i :| 0 <= i < |table| && table[i] == x;
        assert HasKey(tables[0], x.key);
        var j :| 0 <= j < |all| && all[j].key == x.key;
        assert all[j] in all;
        RowsFromTable(lt, codec, valid, limit, table, tables, pages, |pages|, all[j]);
        var m :| 0 <= m < |table| && table[m] == all[j];
        assert m == i;
      }
    }
    DescendingUnique(lt, all, ordered);
  }

  lemma {:induction false} RowsFromTable<K(!new), V(!new)>(lt: (K, K) -> bool, codec: Codec<K>, valid: K -> bool, limit: int,
                                                     table: seq<Row<K, V>>, tables: seq<seq<Row<K, V>>>,
                                                     pages: seq<Page<K, V>>, n: int, x: Row<K, V>)
    requires StrictTotal(lt) && Faithful(codec, valid) && Encodable(valid, tables) && Walk(lt, codec, limit, tables, pages)
    requires (forall i :: 0 <= i < |tables| ==> tables[i] == table)
    requires 1 <= n <= |pages| && x in AllRows(pages[..n])
    ensures x in table
    decreases n
  {
    assert pages[..n][..n - 1] == pages[..n - 1];
    if x in pages[n - 1].rows {
      WalkPage(lt, codec, valid, limit, tables, pages, n - 1);
    } else {
      RowsFromTable(lt, codec, valid, limit, table, tables, pages, n - 1, x);
    }
  }

  lemma {:induction false} DescendingUnique<K(!new), V(!new)>(lt: (K, K) -> bool, s: seq<Row<K, V>>, t: seq<Row<K, V>>)
    requires StrictTotal(lt) && Descending(lt, s) && Descending(lt, t)
    requires forall x :: x in s <==> x in t
    ensures s == t
  {
    var newer := (a: Row<K, V>, b: Row<K, V>) => lt(b.key, a.key);
    forall a: Row<K, V> ensures !newer(a, a) { var k: K := a.key; assert !lt(k, k); }
    forall a: Row<K, V>, b: Row<K, V>, c: Row<K, V> | newer(a, b) && newer(b, c) ensures newer(a, c) {
      var i: K, j: K, k: K := a.key, b.key, c.key;
      assert lt(k, j) && lt(j, i);
    }
    assert Increasing(newer, s) && Increasing(newer, t);
    IncreasingUnique(newer, s, t);
  }

  // The two kinds of key the handlers page by

  function TimeRank(t: Time): seq<nat> { [t.year, t.month, t.day, t.hour, t.minute, t.second, t.nano] }

  predicate RankLess(a: seq<nat>, b: seq<nat>) {
    b != [] && (a == [] || a[0] < b[0] || (a[0] == b[0] && RankLess(a[1..], b[1..])))
  }

  predicate TimeLess(a: Time, b: Time) { RankLess(TimeRank(a), TimeRank(b)) }

  lemma {:induction false} RankLessTransitive(a: seq<nat>, b: seq<nat>, c: seq<nat>)
    requires RankLess(a, b) && RankLess(b, c)
    ensures RankLess(a, c)
  {
    if a != [] && a[0] == b[0] == c[0] { RankLessTransitive(a[1..], b[1..], c[1..]); }
  }

  lemma {:induction false} RankLessTotal(a: seq<nat>, b: seq<nat>)
    ensures !RankLess(a, a)
    ensures a == b || RankLess(a, b) || RankLess(b, a)
  {
    if a != [] {
      RankLessTotal(a[1..], if b == [] then [] else b[1..]);
      assert a == [a[0]] + a[1..];
      if b != [] { assert b == [b[0]] + b[1..]; }
    }
  }

  lemma TimeLessStrictTotal()
    ensures StrictTotal(TimeLess)
  {
    forall a ensures !TimeLess(a, a) { RankLessTotal(TimeRank(a), TimeRank(a)); }
    forall a, b, c | TimeLess(a, b) && TimeLess(b, c) ensures TimeLess(a, c) {
      RankLessTransitive(TimeRank(a), TimeRank(b), TimeRank(c));
    }
    forall a, b ensures a == b || TimeLess(a, b) || TimeLess(b, a) {
      RankLessTotal(TimeRank(a), TimeRank(b));
      SameRankSameTime(a, b);
    }
  }

  lemma SameRankSameTime(a: Time, b: Time)
    ensures TimeRank(a) == TimeRank(b) ==> a == b
  {
    var r, s := TimeRank(a), TimeRank(b);
    if r == s {
      assert r[0] == s[0] && r[1] == s[1] && r[2] == s[2] && r[3] == s[3] && r[4] == s[4] && r[5] == s[5] && r[6] == s[6];
    }
  }

  /** Runs, devices and history events: timestamp, then id as text. */
  datatype TextKey = TextKey(at: Time, id: string)
  /** Run logs: timestamp, then a 64-bit sequence number. */
  datatype LogKey = LogKey(at: Time, id: int)

  function TextKeyLess(a: TextKey, b: TextKey): bool { TimeLess(a.at, b.at) || (a.at == b.at && Less(a.id, b.id)) }
  function LogKeyLess(a: LogKey, b: LogKey): bool { TimeLess(a.at, b.at) || (a.at == b.at && a.id < b.id) }

  function ValidTextKey(k: TextKey): bool { ValidTime(k.at) && IsBytes(k.id) }
  function ValidLogKey(k: LogKey): bool { ValidTime(k.at) && -MAX_INT64 - 1 <= k.id <= MAX_INT64 }

  function EncodeTextKey(k: TextKey): string { if IsBytes(k.id) then EncodeCursor(k.at, k.id) else "" }

  function DecodeTextKey(s: string): Option<TextKey> {
    match DecodeCursor(s)
    case None => None
    case Some(pair) => Some(TextKey(pair.0, pair.1))
  }

  function EncodeLogKey(k: LogKey): string { if IsBytes(Itoa(k.id)) then EncodeCursor(k.at, Itoa(k.id)) else "" }

  function DecodeLogKey(s: string): Option<LogKey> {
    match DecodeCursor(s)
    case None => None
    case Some(pair) =>
      match Atoi(pair.1)
      case None => None
      case Some(n) => Some(LogKey(pair.0, n))
  }

  const TEXT_CODEC := Codec(EncodeTextKey, DecodeTextKey)
  const LOG_CODEC := Codec(EncodeLogKey, DecodeLogKey)

  lemma TextKeysPageable()
    ensures StrictTotal(TextKeyLess) && Faithful(TEXT_CODEC, ValidTextKey) && EmptyIsNoCursor(TEXT_CODEC)
  {
    TimeLessStrictTotal();
    LessStrictTotal();
    forall k | ValidTextKey(k) ensures TEXT_CODEC.decode(TEXT_CODEC.encode(k)) == Some(k) {
      CursorRoundTrip(k.at, k.id);
    }
  }

  lemma LogKeysPageable()
    ensures StrictTotal(LogKeyLess) && Faithful(LOG_CODEC, ValidLogKey) && EmptyIsNoCursor(LOG_CODEC)
  {
    TimeLessStrictTotal();
    forall k | ValidLogKey(k) ensures LOG_CODEC.decode(LOG_CODEC.encode(k)) == Some(k) {
      AtoiItoa(k.id);
      assert AllDigits(Decimal(if k.id < 0 then -k.id else k.id));
      CursorRoundTrip(k.at, Itoa(k.id));
    }
  }

  /**
   * Discovery runs, created-order devices and history, through real cursor strings: every key there throughout comes
   * back once; when rows are only added, that is every row of the first table.
   */
  lemma TextKeyWalkExact<V(!new)>(limit: int, tables: seq<seq<Row<TextKey, V>>>, pages: seq<Page<TextKey, V>>)
    requires Encodable(ValidTextKey, tables) && Walk(TextKeyLess, TEXT_CODEC, limit, tables, pages)
    requires pages[|pages| - 1].cursor.None?
    ensures DistinctKeys(AllRows(pages))
    ensures forall k :: Persists(tables, k) ==> HasKey(AllRows(pages), k)
    ensures Snapshots(ValidTextKey, tables) ==> forall k :: HasKey(tables[0], k) ==> HasKey(AllRows(pages), k)
  {
    TextKeysPageable();
    StableKeysOnce(TextKeyLess, TEXT_CODEC, ValidTextKey, limit, tables, pages);
    if Snapshots(ValidTextKey, tables) {
      FinishedWalkExact(TextKeyLess, TEXT_CODEC, ValidTextKey, limit, tables, pages);
    }
  }

  /** The same for run logs. */
  lemma {:induction false} LogKeyWalkExact<V(!new)>(limit: int, tables: seq<seq<Row<LogKey, V>>>, pages: seq<Page<LogKey, V>>)
    requires Encodable(ValidLogKey, tables) && Walk(LogKeyLess, LOG_CODEC, limit, tables, pages)
    requires pages[|pages| - 1].cursor.None?
    ensures DistinctKeys(AllRows(pages))
    ensures forall k :: Persists(tables, k) ==> HasKey(AllRows(pages), k)
    ensures Snapshots(ValidLogKey, tables) ==> forall k :: HasKey(tables[0], k) ==> HasKey(AllRows(pages), k)
  {
    LogKeysPageable();
    StableKeysOnce(LogKeyLess, LOG_CODEC, ValidLogKey, limit, tables, pages);
    if Snapshots(ValidLogKey, tables) {
      FinishedWalkExact(LogKeyLess, LOG_CODEC, ValidLogKey, limit, tables, pages);
    }
  }
}
