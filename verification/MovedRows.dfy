/**
 * A row that is re-stamped while a client walks the pages: its timestamp, and so its key, is updated in place. The walk
 * returns it, once, exactly when it never overtakes the cursor.
 */
module MovedRows {
  import opened Orders
  import opened Text
  import opened Cursor
  import opened PageWalk

  /** `held[i]` is how the one row that satisfies `isIt` stands in `tables[i]`; its key never falls. */
  ghost predicate Tracked<K(!new), V(!new)>(lt: (K, K) -> bool, tables: seq<seq<Row<K, V>>>, held: seq<Row<K, V>>,
                                            isIt: Row<K, V> -> bool) {
    && |held| == |tables|
    && (forall i :: 0 <= i < |tables| ==> OnlyRow(tables[i], held[i], isIt))
    && (forall i, j :: 0 <= i <= j < |held| ==> !lt(held[j].key, held[i].key))
  }

  ghost predicate OnlyRow<K(!new), V(!new)>(table: seq<Row<K, V>>, row: Row<K, V>, isIt: Row<K, V> -> bool) {
    row in table && isIt(row) && forall r :: r in table && isIt(r) ==> r == row
  }

  /** Still below the cursor page `i` hands out, the row is at it or above when the next page is fetched. */
  ghost predicate Overtakes<K(!new), V(!new)>(lt: (K, K) -> bool, pages: seq<Page<K, V>>, held: seq<Row<K, V>>, i: int)
    requires |pages| == |held|
  {
    && 0 <= i < |pages| - 1 && pages[i].rows != []
    && lt(held[i].key, Last(pages[i].rows).key) && !lt(held[i + 1].key, Last(pages[i].rows).key)
  }

  ghost predicate Returned<K(!new), V(!new)>(pages: seq<Page<K, V>>, isIt: Row<K, V> -> bool) {
    exists r :: r in AllRows(pages) && isIt(r)
  }

  ghost predicate AtMostOne<K(!new), V(!new)>(rows: seq<Row<K, V>>, isIt: Row<K, V> -> bool) {
    forall a, b :: 0 <= a < |rows| && 0 <= b < |rows| && isIt(rows[a]) && isIt(rows[b]) ==> a == b
  }

  /** Page `i` holds the row. */
  ghost predicate OnPage<K(!new), V(!new)>(pages: seq<Page<K, V>>, held: seq<Row<K, V>>, i: int)
    requires |pages| == |held|
  {
    0 <= i < |pages| && held[i] in pages[i].rows
  }

  /** A page holds a row of its table exactly when its key is below the bound and not below the cursor handed out. */
  lemma {:induction false} CoveredIff<K(!new), V(!new)>(lt: (K, K) -> bool, codec: Codec<K>, table: seq<Row<K, V>>,
                                                        bound: Option<K>, limit: int, p: Page<K, V>, x: Row<K, V>)
    requires StrictTotal(lt) && PageCovers(lt, codec, table, bound, limit, p) && x in table
    ensures p.cursor.Some? ==> p.rows != []
    ensures x in p.rows <==> Before(lt, x.key, bound) && (p.cursor.Some? ==> !lt(x.key, Last(p.rows).key))
  {
    if x in p.rows && p.cursor.Some? {
      var k :| 0 <= k < |p.rows| && p.rows[k] == x;
      assert k < |p.rows| - 1 ==> lt(Last(p.rows).key, x.key);
    }
  }

  /** Every page but the last hands out a cursor. */
  lemma {:induction false} InnerPages<K(!new), V(!new)>(lt: (K, K) -> bool, codec: Codec<K>, valid: K -> bool, limit: int,
                                     tables: seq<seq<Row<K, V>>>, pages: seq<Page<K, V>>)
    requires StrictTotal(lt) && Faithful(codec, valid) && Encodable(valid, tables)
    requires Walk(lt, codec, limit, tables, pages)
    ensures forall j :: 0 <= j < |pages| - 1 ==> pages[j].rows != [] && pages[j].cursor.Some?
  {
    forall j | 0 <= j < |pages| - 1 ensures pages[j].rows != [] && pages[j].cursor.Some? {
      FollowedPage(lt, codec, valid, limit, tables, pages, j + 1);
    }
  }

  lemma {:induction false} OnPageIff<K(!new), V(!new)>(lt: (K, K) -> bool, codec: Codec<K>, valid: K -> bool, limit: int,
                                    tables: seq<seq<Row<K, V>>>, pages: seq<Page<K, V>>, held: seq<Row<K, V>>,
                                    isIt: Row<K, V> -> bool, i: nat)
    requires StrictTotal(lt) && Faithful(codec, valid) && Encodable(valid, tables)
    requires Walk(lt, codec, limit, tables, pages)
    requires Tracked(lt, tables, held, isIt) && i < |pages| && pages[|pages| - 1].cursor.None?
    ensures forall j :: 0 <= j < |pages| - 1 ==> pages[j].rows != []
    ensures OnPage(pages, held, i) <==>
      && (i > 0 ==> lt(held[i].key, Last(pages[i - 1].rows).key))
      && (i < |pages| - 1 ==> !lt(held[i].key, Last(pages[i].rows).key))
  {
    InnerPages(lt, codec, valid, limit, tables, pages);
    WalkPage(lt, codec, valid, limit, tables, pages, i);
    assert OnlyRow(tables[i], held[i], isIt);
    CoveredIff(lt, codec, tables[i], BoundOf(pages, i), limit, pages[i], held[i]);
  }

  /** The cursors handed out descend. */
  lemma {:induction false} CursorsDescend<K(!new), V(!new)>(lt: (K, K) -> bool, codec: Codec<K>, valid: K -> bool, limit: int,
                                         tables: seq<seq<Row<K, V>>>, pages: seq<Page<K, V>>, i: nat, j: nat)
    requires StrictTotal(lt) && Faithful(codec, valid) && Encodable(valid, tables)
    requires Walk(lt, codec, limit, tables, pages)
    requires i <= j < |pages| - 1
    ensures pages[i].rows != [] && pages[j].rows != [] && !lt(Last(pages[i].rows).key, Last(pages[j].rows).key)
    decreases j
  {
    InnerPages(lt, codec, valid, limit, tables, pages);
    if i < j {
      CursorsDescend(lt, codec, valid, limit, tables, pages, i, j - 1);
      WalkPage(lt, codec, valid, limit, tables, pages, j);
      var last := Last(pages[j].rows);
      assert last in pages[j].rows && lt(last.key, Last(pages[j - 1].rows).key);
    }
  }

  /** While the row has neither come back nor overtaken the cursor it is still ahead of the walk. */
  lemma {:induction false} StillAhead<K(!new), V(!new)>(lt: (K, K) -> bool, codec: Codec<K>, valid: K -> bool, limit: int,
                                     tables: seq<seq<Row<K, V>>>, pages: seq<Page<K, V>>, held: seq<Row<K, V>>,
                                     isIt: Row<K, V> -> bool, i: nat)
    requires StrictTotal(lt) && Faithful(codec, valid) && Encodable(valid, tables)
    requires Walk(lt, codec, limit, tables, pages)
    requires Tracked(lt, tables, held, isIt) && i < |pages| && pages[|pages| - 1].cursor.None?
    requires forall j :: 0 <= j < i ==> !OnPage(pages, held, j) && !Overtakes(lt, pages, held, j)
    ensures i > 0 ==> pages[i - 1].rows != [] && lt(held[i].key, Last(pages[i - 1].rows).key)
  {
    if i > 0 {
      StillAhead(lt, codec, valid, limit, tables, pages, held, isIt, i - 1);
      OnPageIff(lt, codec, valid, limit, tables, pages, held, isIt, i - 1);
      assert !Overtakes(lt, pages, held, i - 1);
    }
  }

  /** Before the page that holds it, the row is below every cursor. */
  lemma {:induction false} AheadBefore<K(!new), V(!new)>(lt: (K, K) -> bool, codec: Codec<K>, valid: K -> bool, limit: int,
                                        tables: seq<seq<Row<K, V>>>, pages: seq<Page<K, V>>, held: seq<Row<K, V>>,
                                        isIt: Row<K, V> -> bool, i: nat, j: nat)
    requires StrictTotal(lt) && Faithful(codec, valid) && Encodable(valid, tables)
    requires Walk(lt, codec, limit, tables, pages)
    requires Tracked(lt, tables, held, isIt) && j < |pages| && pages[|pages| - 1].cursor.None?
    requires OnPage(pages, held, i) && j < i
    ensures !Overtakes(lt, pages, held, j)
    ensures OnPage(pages, held, j) ==> i == j
  {
    OnPageIff(lt, codec, valid, limit, tables, pages, held, isIt, i);
    OnPageIff(lt, codec, valid, limit, tables, pages, held, isIt, j);
    CursorsDescend(lt, codec, valid, limit, tables, pages, j, i - 1);
    BelowAll(lt, held[i].key, Last(pages[i - 1].rows).key, Last(pages[j].rows).key, held[j + 1].key);
    BelowAll(lt, held[i].key, Last(pages[i - 1].rows).key, Last(pages[j].rows).key, held[j].key);
  }

  /** After it, the row is at or above every cursor. */
  lemma {:induction false} BehindAfter<K(!new), V(!new)>(lt: (K, K) -> bool, codec: Codec<K>, valid: K -> bool, limit: int,
                                        tables: seq<seq<Row<K, V>>>, pages: seq<Page<K, V>>, held: seq<Row<K, V>>,
                                        isIt: Row<K, V> -> bool, i: nat, j: nat)
    requires StrictTotal(lt) && Faithful(codec, valid) && Encodable(valid, tables)
    requires Walk(lt, codec, limit, tables, pages)
    requires Tracked(lt, tables, held, isIt) && j < |pages| && pages[|pages| - 1].cursor.None?
    requires OnPage(pages, held, i) && i < j
    ensures !Overtakes(lt, pages, held, j)
    ensures OnPage(pages, held, j) ==> i == j
  {
    OnPageIff(lt, codec, valid, limit, tables, pages, held, isIt, i);
    OnPageIff(lt, codec, valid, limit, tables, pages, held, isIt, j);
    CursorsDescend(lt, codec, valid, limit, tables, pages, i, j - 1);
    NotBelow(lt, held[j].key, held[i].key, Last(pages[i].rows).key, Last(pages[j - 1].rows).key);
    if j < |pages| - 1 {
      CursorsDescend(lt, codec, valid, limit, tables, pages, i, j);
      NotBelow(lt, held[j].key, held[i].key, Last(pages[i].rows).key, Last(pages[j].rows).key);
    }
  }

  /** A row that some page holds overtakes no cursor, and no other page holds it. */
  lemma {:induction false} OnPageSettles<K(!new), V(!new)>(lt: (K, K) -> bool, codec: Codec<K>, valid: K -> bool, limit: int,
                                        tables: seq<seq<Row<K, V>>>, pages: seq<Page<K, V>>, held: seq<Row<K, V>>,
                                        isIt: Row<K, V> -> bool, i: nat, j: nat)
    requires StrictTotal(lt) && Faithful(codec, valid) && Encodable(valid, tables)
    requires Walk(lt, codec, limit, tables, pages)
    requires Tracked(lt, tables, held, isIt) && j < |pages| && pages[|pages| - 1].cursor.None?
    requires OnPage(pages, held, i)
    ensures !Overtakes(lt, pages, held, j)
    ensures OnPage(pages, held, j) ==> i == j
  {
    if j < i {
      AheadBefore(lt, codec, valid, limit, tables, pages, held, isIt, i, j);
    } else if i < j {
      BehindAfter(lt, codec, valid, limit, tables, pages, held, isIt, i, j);
    } else {
      OnPageIff(lt, codec, valid, limit, tables, pages, held, isIt, i);
    }
  }

  /** A key no higher than one below a cursor is below every higher cursor. */
  lemma {:induction false} BelowAll<K(!new)>(lt: (K, K) -> bool, x: K, c: K, higher: K, y: K)
    requires StrictTotal(lt) && lt(x, c) && !lt(higher, c) && !lt(x, y)
    ensures lt(y, higher)
  {
    assert y == x || lt(y, x);
    assert c == higher || lt(c, higher);
  }

  /** A key no lower than one at or above a cursor is at or above every lower cursor. */
  lemma {:induction false} NotBelow<K(!new)>(lt: (K, K) -> bool, y: K, x: K, c: K, lower: K)
    requires StrictTotal(lt) && !lt(y, x) && !lt(x, c) && !lt(c, lower)
    ensures !lt(y, lower)
  {
    assert y == x || lt(x, y);
    assert x == c || lt(c, x);
  }

  /** What came back came on some page. */
  lemma {:induction false} RowOfPage<K(!new), V(!new)>(pages: seq<Page<K, V>>, r: Row<K, V>)
    ensures r in AllRows(pages) <==> exists i :: 0 <= i < |pages| && r in pages[i].rows
  {
    if pages != [] {
      var n := |pages| - 1;
      RowOfPage(pages[..n], r);
      if i :| 0 <= i < |pages| && r in pages[i].rows {
        if i < n { assert r in pages[..n][i].rows; }
      }
    }
  }

  lemma {:induction false} ReturnedIffOnPage<K(!new), V(!new)>(lt: (K, K) -> bool, codec: Codec<K>, valid: K -> bool, limit: int,
                                            tables: seq<seq<Row<K, V>>>, pages: seq<Page<K, V>>, held: seq<Row<K, V>>,
                                            isIt: Row<K, V> -> bool)
    requires StrictTotal(lt) && Faithful(codec, valid) && Encodable(valid, tables)
    requires Walk(lt, codec, limit, tables, pages)
    requires Tracked(lt, tables, held, isIt)
    ensures Returned(pages, isIt) <==> exists i :: OnPage(pages, held, i)
    ensures forall r :: r in AllRows(pages) && isIt(r) ==> exists i :: OnPage(pages, held, i) && r == held[i]
  {
    forall r | r in AllRows(pages) && isIt(r) ensures exists i :: OnPage(pages, held, i) && r == held[i] {
      RowOfPage(pages, r);
      var i :| 0 <= i < |pages| && r in pages[i].rows;
      PageOfWalk(lt, codec, valid, limit, tables, pages, i);
      assert r in tables[i] && OnlyRow(tables[i], held[i], isIt);
      assert OnPage(pages, held, i);
    }
    if i :| OnPage(pages, held, i) {
      RowOfPage(pages, held[i]);
      assert OnlyRow(tables[i], held[i], isIt);
    }
  }

  /**
   * A finished walk returns a row that was there throughout exactly when it never overtook the cursor: it is lost when,
   * still to come, it is re-stamped to the cursor handed out or above before the next fetch. It never comes back twice.
   */
  lemma {:induction false} ReturnedUnlessOvertaken<K(!new), V(!new)>(
      lt: (K, K) -> bool, codec: Codec<K>, valid: K -> bool, limit: int, tables: seq<seq<Row<K, V>>>,
      pages: seq<Page<K, V>>, held: seq<Row<K, V>>, isIt: Row<K, V> -> bool)
    requires StrictTotal(lt) && Faithful(codec, valid) && Encodable(valid, tables)
    requires Walk(lt, codec, limit, tables, pages)
    requires Tracked(lt, tables, held, isIt) && pages[|pages| - 1].cursor.None?
    ensures Returned(pages, isIt) <==> forall i :: !Overtakes(lt, pages, held, i)
    ensures AtMostOne(AllRows(pages), isIt)
  {
    ReturnedIffOnPage(lt, codec, valid, limit, tables, pages, held, isIt);
    if i :| OnPage(pages, held, i) {
      forall j ensures !Overtakes(lt, pages, held, j) {
        if 0 <= j < |pages| { OnPageSettles(lt, codec, valid, limit, tables, pages, held, isIt, i, j); }
      }
    } else {
      var n := |pages| - 1;
      if forall j :: !Overtakes(lt, pages, held, j) {
        assert forall j :: 0 <= j < n ==> !OnPage(pages, held, j);
        StillAhead(lt, codec, valid, limit, tables, pages, held, isIt, n);
        OnPageIff(lt, codec, valid, limit, tables, pages, held, isIt, n);
      }
    }
    NeverTwice(lt, codec, valid, limit, tables, pages, held, isIt);
  }

  lemma {:induction false} NeverTwice<K(!new), V(!new)>(lt: (K, K) -> bool, codec: Codec<K>, valid: K -> bool, limit: int,
                                     tables: seq<seq<Row<K, V>>>, pages: seq<Page<K, V>>, held: seq<Row<K, V>>,
                                     isIt: Row<K, V> -> bool)
    requires StrictTotal(lt) && Faithful(codec, valid) && Encodable(valid, tables)
    requires Walk(lt, codec, limit, tables, pages)
    requires Tracked(lt, tables, held, isIt) && pages[|pages| - 1].cursor.None?
    ensures AtMostOne(AllRows(pages), isIt)
  {
    var all := AllRows(pages);
    ReturnedIffOnPage(lt, codec, valid, limit, tables, pages, held, isIt);
    NoRowTwice(lt, codec, valid, limit, tables, pages);
    forall a, b | 0 <= a < |all| && 0 <= b < |all| && isIt(all[a]) && isIt(all[b]) ensures a == b {
      assert all[a] in all && all[b] in all;
      var i :| OnPage(pages, held, i) && all[a] == held[i];
      var j :| OnPage(pages, held, j) && all[b] == held[j];
      OnPageSettles(lt, codec, valid, limit, tables, pages, held, isIt, i, j);
      assert all[a].key == all[b].key;
    }
  }

  // Device history

  /** The events with this id. */
  function IsEvent<V>(id: string): Row<TextKey, V> -> bool { (r: Row<TextKey, V>) => r.key.id == id }

  /** Event `id` of a device's history is in every table, once, and its timestamp never goes back. */
  ghost predicate Stamped<V(!new)>(tables: seq<seq<Row<TextKey, V>>>, held: seq<Row<TextKey, V>>, id: string) {
    && |held| == |tables|
    && (forall i :: 0 <= i < |tables| ==> OnlyRow(tables[i], held[i], IsEvent(id)))
    && (forall i, j :: 0 <= i <= j < |held| ==> !TimeLess(held[j].key.at, held[i].key.at))
  }

  lemma {:induction false} StampedTracked<V(!new)>(tables: seq<seq<Row<TextKey, V>>>, held: seq<Row<TextKey, V>>, id: string)
    requires Stamped(tables, held, id)
    ensures Tracked(TextKeyLess, tables, held, IsEvent(id))
  {
    forall i, j | 0 <= i <= j < |held| ensures !TextKeyLess(held[j].key, held[i].key) {
      assert OnlyRow(tables[i], held[i], IsEvent(id)) && OnlyRow(tables[j], held[j], IsEvent(id));
      LessIrreflexive(id);
    }
  }

  /**
   * A finished walk over a device's history, through real cursor strings, returns an event exactly when it was never
   * re-stamped past the cursor while still to come, and then once.
   */
  lemma {:induction false} EventReturnedIff<V(!new)>(limit: int, tables: seq<seq<Row<TextKey, V>>>, pages: seq<Page<TextKey, V>>,
                                  held: seq<Row<TextKey, V>>, id: string)
    requires Encodable(ValidTextKey, tables) && Walk(TextKeyLess, TEXT_CODEC, limit, tables, pages)
    requires Stamped(tables, held, id) && pages[|pages| - 1].cursor.None?
    ensures (exists r :: r in AllRows(pages) && r.key.id == id) <==> forall i :: !Overtakes(TextKeyLess, pages, held, i)
    ensures AtMostOne(AllRows(pages), IsEvent(id))
  {
    TextKeysPageable();
    StampedTracked(tables, held, id);
    ReturnedUnlessOvertaken(TextKeyLess, TEXT_CODEC, ValidTextKey, limit, tables, pages, held, IsEvent(id));
    assert forall r: Row<TextKey, V> :: IsEvent(id)(r) <==> r.key.id == id;
    assert Returned(pages, IsEvent(id)) <==> exists r :: r in AllRows(pages) && r.key.id == id;
  }

  // An event that is lost

  /** Two rows, newest first, from a table that lists them in either order. */
  lemma {:induction false} TwoRows<K(!new), V(!new)>(lt: (K, K) -> bool, codec: Codec<K>, x: Row<K, V>, y: Row<K, V>)
    requires StrictTotal(lt) && lt(x.key, y.key)
    ensures PageWalk.Ordered(lt, [x, y]) == [y, x] && PageWalk.Ordered(lt, [y, x]) == [y, x]
    ensures Fetch(lt, codec, [x, y], None, 1) == Page([y], Some(codec.encode(y.key)))
    ensures Fetch(lt, codec, [y, x], Some(x.key), 1) == Page([], None)
  {
    assert [x, y][1..] == [y] && [y, x][1..] == [x] && [x][1..] == [] && [y][1..] == [];
    var none: seq<Row<K, V>> := [];
    assert PageWalk.Ordered(lt, none) == none;
    assert PageWalk.Ordered(lt, [x]) == [x] && PageWalk.Ordered(lt, [y]) == [y];
    BelowTwo(lt, y, x, None);
    BelowTwo(lt, y, x, Some(x.key));
  }

  lemma {:induction false} BelowTwo<K(!new), V(!new)>(lt: (K, K) -> bool, y: Row<K, V>, x: Row<K, V>, bound: Option<K>)
    ensures Below(lt, [y, x], bound)
         == (if Before(lt, y.key, bound) then [y] else []) + (if Before(lt, x.key, bound) then [x] else [])
  {
    assert [y, x][1..] == [x] && [x][1..] == [];
    var none: seq<Row<K, V>> := [];
    assert Below(lt, none, bound) == none;
    assert Below(lt, [x], bound) == if Before(lt, x.key, bound) then [x] else [];
  }

  lemma {:induction false} OneRowPage<K(!new), V(!new)>(y: Row<K, V>, cursor: string)
    ensures AllRows([Page([y], Some(cursor)), Page([], None)]) == [y]
  {
    var pages := [Page([y], Some(cursor)), Page([], None)];
    assert pages[..1] == [pages[0]] && [pages[0]][..0] == [];
    assert AllRows([pages[0]]) == [y];
  }

  /** A walk of pages of one row: `y` comes back, then `x` is moved above the cursor, then nothing is left. */
  lemma {:induction false} OvertakenWalk<K(!new), V(!new)>(lt: (K, K) -> bool, codec: Codec<K>,
                                                           x: Row<K, V>, y: Row<K, V>, moved: Row<K, V>)
    requires StrictTotal(lt) && codec.decode(codec.encode(y.key)) == Some(y.key)
    requires lt(x.key, y.key) && lt(y.key, moved.key)
    ensures var tables, pages := [[x, y], [moved, y]], [Page([y], Some(codec.encode(y.key))), Page([], None)];
      Walk(lt, codec, 1, tables, pages)
  {
    var tables, pages := [[x, y], [moved, y]], [Page([y], Some(codec.encode(y.key))), Page([], None)];
    TwoRows(lt, codec, x, y);
    TwoRows(lt, codec, y, moved);
    assert Follows(lt, codec, 1, tables[1], pages[0], pages[1]);
  }

  /** The row that moved is lost: it overtook the only cursor handed out. */
  lemma {:induction false} OvertakenIsLost<K(!new), V(!new)>(lt: (K, K) -> bool, codec: Codec<K>, valid: K -> bool,
                                                             x: Row<K, V>, y: Row<K, V>, moved: Row<K, V>)
    requires StrictTotal(lt) && Faithful(codec, valid) && valid(x.key) && valid(y.key) && valid(moved.key)
    requires lt(x.key, y.key) && lt(y.key, moved.key)
    ensures var tables, pages := [[x, y], [moved, y]], [Page([y], Some(codec.encode(y.key))), Page([], None)];
      && Encodable(valid, tables) && Walk(lt, codec, 1, tables, pages)
      && Overtakes(lt, pages, [x, moved], 0) && AllRows(pages) == [y]
  {
    OvertakenWalk(lt, codec, x, y, moved);
    OneRowPage(y, codec.encode(y.key));
    assert !lt(moved.key, y.key);
  }

  lemma {:induction false} LaterIsAbove(a: TextKey, b: TextKey)
    requires TimeLess(a.at, b.at)
    ensures TextKeyLess(a, b)
  {
  }

  /** Between its two pages of one row a walk's table went from `[x, y]` to `[moved, y]`: it is finished, and lost `x`. */
  ghost predicate Loses<V(!new)>(x: Row<TextKey, V>, y: Row<TextKey, V>, moved: Row<TextKey, V>) {
    var tables, pages := [[x, y], [moved, y]], [Page([y], Some(TEXT_CODEC.encode(y.key))), Page([], None)];
    && Encodable(ValidTextKey, tables) && Walk(TextKeyLess, TEXT_CODEC, 1, tables, pages) && pages[1].cursor.None?
    && Stamped(tables, [x, moved], x.key.id) && Overtakes(TextKeyLess, pages, [x, moved], 0)
    && AllRows(pages) == [y] && y.key.id != x.key.id
  }

  /** So it does with whatever event is re-stamped past the one that ends the first page. */
  lemma {:induction false} RestampedIsLost<V(!new)>(x: Row<TextKey, V>, y: Row<TextKey, V>, moved: Row<TextKey, V>)
    requires ValidTextKey(x.key) && ValidTextKey(y.key) && ValidTextKey(moved.key)
    requires x.key.id == moved.key.id != y.key.id && TimeLess(x.key.at, y.key.at) && TimeLess(y.key.at, moved.key.at)
    ensures Loses(x, y, moved)
  {
    TextKeysPageable();
    RestampedStamped(x, y, moved);
    LaterIsAbove(x.key, y.key);
    LaterIsAbove(y.key, moved.key);
    OvertakenIsLost(TextKeyLess, TEXT_CODEC, ValidTextKey, x, y, moved);
  }

  lemma {:induction false} RestampedStamped<V(!new)>(x: Row<TextKey, V>, y: Row<TextKey, V>, moved: Row<TextKey, V>)
    requires x.key.id == moved.key.id != y.key.id && TimeLess(x.key.at, y.key.at) && TimeLess(y.key.at, moved.key.at)
    ensures Stamped([[x, y], [moved, y]], [x, moved], x.key.id)
  {
    TimeLessStrictTotal();
  }

  function Day(day: nat): Time { Time(2025, 1, day, 0, 0, 0, 0) }

  /** The display name event of a device before and after a rename, and its SNMP event in between. */
  const EARLY := Row(TextKey(Day(1), "device_display_name:d"), "router")
  const RENAMED := Row(TextKey(Day(3), "device_display_name:d"), "gateway")
  const SNMP := Row(TextKey(Day(2), "snmp:d"), "sysname")

  lemma {:induction false} DaysOrdered()
    ensures TimeLess(Day(1), Day(2)) && TimeLess(Day(2), Day(3))
    ensures ValidTime(Day(1)) && ValidTime(Day(2)) && ValidTime(Day(3))
  {
  }

  lemma {:induction false} EventIds()
    ensures "device_display_name:d" != "snmp:d" && IsBytes("device_display_name:d") && IsBytes("snmp:d")
  {
    assert |"device_display_name:d"| != |"snmp:d"|;
  }

  /**
   * A device is renamed after the first page of one row was fetched: its display name event is in both tables, and a
   * finished walk returns it under neither timestamp.
   */
  lemma {:induction false} EventMissed()
    ensures Loses(EARLY, SNMP, RENAMED) && EARLY.key.id == "device_display_name:d"
  {
    DaysOrdered();
    EventIds();
    RestampedIsLost(EARLY, SNMP, RENAMED);
  }
}
