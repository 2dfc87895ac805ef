/** The canonical printer behind change detection in the live view, and the fingerprint built on it. */
module Serializer {
  import opened Orders
  import opened Text

  /** What a projection is made of. Numbers are integers; an object keeps its fields in insertion order. */
  datatype Json =
    | Null
    | Undefined
    | Bool(b: bool)
    | Number(n: int)
    | String(s: string)
    | Array(items: seq<Json>)
    | Object(fields: seq<Field>)
  datatype Field = Field(key: string, value: Json)

  /** Objects have no key twice, at any depth. */
  ghost predicate WellFormed(v: Json) {
    match v
    case Array(items) => forall i :: 0 <= i < |items| ==> WellFormed(items[i])
    case Object(fields) =>
      && (forall i, j :: 0 <= i < j < |fields| ==> fields[i].key != fields[j].key)
      && forall i :: 0 <= i < |fields| ==> WellFormed(fields[i].value)
    case _ => true
  }

  ghost predicate HasKey(fields: seq<Field>, key: string) { exists i :: 0 <= i < |fields| && fields[i].key == key }

  /** Equal up to the order of keys, at every depth. */
  ghost predicate Equiv(v: Json, w: Json) {
    match v
    case Array(items) =>
      w.Array? && |items| == |w.items| && forall i :: 0 <= i < |items| ==> Equiv(items[i], w.items[i])
    case Object(fields) =>
      && w.Object? && |fields| == |w.fields|
      && (forall i :: 0 <= i < |fields| ==> HasKey(w.fields, fields[i].key))
      && forall i, j :: 0 <= i < |fields| && 0 <= j < |w.fields| && fields[i].key == w.fields[j].key ==>
        Equiv(fields[i].value, w.fields[j].value)
    case _ => v == w
  }

  // Printing

  function HexDigit(d: nat): char
    requires d < 16
  {
    if d < 10 then DigitChar(d) else (d - 10 + 'a' as int) as char
  }

  function EscapeChar(c: char): string {
    if c == '"' then ['\\', '"']
    else if c == '\\' then ['\\', '\\']
    else if c as int == 8 then ['\\', 'b']
    else if c as int == 12 then ['\\', 'f']
    else if c == '\n' then ['\\', 'n']
    else if c == '\r' then ['\\', 'r']
    else if c == '\t' then ['\\', 't']
    else if c as int < 32 then ['\\', 'u', '0', '0', HexDigit(c as int / 16), HexDigit(c as int % 16)]
    else [c]
  }

  function Escape(s: string): string { if s == [] then [] else EscapeChar(s[0]) + Escape(s[1..]) }

  /** JSON.stringify on a string. */
  function Quote(s: string): string { ['"'] + Escape(s) + ['"'] }

  function Size(v: Json): nat {
    match v
    case Array(items) => 1 + SizeItems(items)
    case Object(fields) => 1 + SizeFields(fields)
    case _ => 0
  }

  function SizeItems(items: seq<Json>): nat { if items == [] then 0 else 1 + Size(items[0]) + SizeItems(items[1..]) }

  function SizeFields(fields: seq<Field>): nat {
    if fields == [] then 0 else 1 + Size(fields[0].value) + SizeFields(fields[1..])
  }

  /** Fields compared by their keys with the collation `lt`. */
  function ByKey(lt: (string, string) -> bool): (Field, Field) -> bool { (f: Field, g: Field) => lt(f.key, g.key) }

  function Sorted(lt: (string, string) -> bool, fields: seq<Field>): (r: seq<Field>)
    ensures |r| == |fields| && SizeFields(r) == SizeFields(fields)
    ensures forall f :: f in r <==> f in fields
  {
    SortElements(ByKey(lt), fields);
    SortKeepsSize(lt, fields);
    Sort(ByKey(lt), fields)
  }

  /** stableStringify, for a collation `lt`. */
  function Show(lt: (string, string) -> bool, v: Json): string
    decreases Size(v), 0
  {
    match v
    case Null => "null"
    case Undefined => "undefined"
    case Bool(b) => if b then "true" else "false"
    case Number(n) => Itoa(n)
    case String(s) => Quote(s)
    case Array(items) => ['['] + ShowItems(lt, items) + [']']
    case Object(fields) => ['{'] + ShowFields(lt, Sorted(lt, fields)) + ['}']
  }

  function ShowItems(lt: (string, string) -> bool, items: seq<Json>): string
    decreases SizeItems(items), 1
  {
    if items == [] then []
    else if |items| == 1 then Show(lt, items[0])
    else Show(lt, items[0]) + [','] + ShowItems(lt, items[1..])
  }

  function ShowField(lt: (string, string) -> bool, f: Field): string
    decreases Size(f.value), 1
  {
    Quote(f.key) + [':'] + Show(lt, f.value)
  }

  function ShowFields(lt: (string, string) -> bool, fields: seq<Field>): string
    decreases SizeFields(fields), 1
  {
    if fields == [] then []
    else if |fields| == 1 then ShowField(lt, fields[0])
    else ShowField(lt, fields[0]) + [','] + ShowFields(lt, fields[1..])
  }

  lemma {:induction false} InsertKeepsSize(lt: (string, string) -> bool, f: Field, fields: seq<Field>)
    ensures SizeFields(Insert(ByKey(lt), f, fields)) == 1 + Size(f.value) + SizeFields(fields)
  {
    if fields != [] && lt(fields[0].key, f.key) {
      InsertKeepsSize(lt, f, fields[1..]);
      assert Insert(ByKey(lt), f, fields)[1..] == Insert(ByKey(lt), f, fields[1..]);
    } else {
      assert ([f] + fields)[1..] == fields;
    }
  }

  lemma {:induction false} SortKeepsSize(lt: (string, string) -> bool, fields: seq<Field>)
    ensures SizeFields(Sort(ByKey(lt), fields)) == SizeFields(fields)
  {
    if fields != [] {
      SortKeepsSize(lt, fields[1..]);
      InsertKeepsSize(lt, fields[0], Sort(ByKey(lt), fields[1..]));
    }
  }

  // Reading a printed value back: where one ends is decided by the text

  /** The text after a value: nothing, or one of the characters that end a value. */
  predicate Stop(x: string) { x == [] || x[0] == ',' || x[0] == ']' || x[0] == '}' }

  lemma EscapeCharPrefixFree(c: char, d: char, x: string, y: string)
    requires EscapeChar(c) + x == EscapeChar(d) + y
    ensures c == d && x == y
  {
    var l, r := EscapeChar(c) + x, EscapeChar(d) + y;
    assert l[0] == EscapeChar(c)[0] && r[0] == EscapeChar(d)[0];
    if l[0] == '\\' {
      assert l[1] == EscapeChar(c)[1] && r[1] == EscapeChar(d)[1];
      if l[1] == 'u' {
        assert l[4] == EscapeChar(c)[4] && r[4] == EscapeChar(d)[4];
        assert l[5] == EscapeChar(c)[5] && r[5] == EscapeChar(d)[5];
      }
    }
    assert c == d;
    assert x == l[|EscapeChar(c)|..] && y == r[|EscapeChar(d)|..];
  }

  lemma Regroup(a: string, c: char, b: string, x: string)
    ensures a + [c] + b + x == a + ([c] + (b + x))
  {
  }

  lemma FirstOfJoin(a: string, x: string)
    requires a != []
    ensures (a + x)[0] == a[0]
  {
  }

  lemma RegroupEnd(a: string, b: string, c: char, x: string)
    ensures a + b + [c] + x == a + (b + [c] + x)
  {
  }

  lemma EscapeCharStart(c: char)
    ensures EscapeChar(c) != [] && EscapeChar(c)[0] != '"'
  {
  }

  lemma EscapeStart(s: string, x: string)
    ensures (Escape(s) + ['"'] + x)[0] == '"' <==> s == []
    ensures s == [] ==> Escape(s) + ['"'] + x == ['"'] + x
    ensures s != [] ==> Escape(s) + ['"'] + x == EscapeChar(s[0]) + (Escape(s[1..]) + ['"'] + x)
  {
    if s == [] {
      assert Escape(s) + ['"'] + x == ['"'] + x;
    } else {
      var first, rest := EscapeChar(s[0]), Escape(s[1..]);
      RegroupEnd(first, rest, '"', x);
      EscapeCharStart(s[0]);
      FirstOfJoin(first, rest + ['"'] + x);
    }
  }

  lemma {:induction false} EscapeEnds(s: string, t: string, x: string, y: string)
    requires Escape(s) + ['"'] + x == Escape(t) + ['"'] + y
    ensures s == t && x == y
  {
    EscapeStart(s, x);
    EscapeStart(t, y);
    if s == [] {
      SameStart(['"'], x, y);
    } else {
      var x', y' := Escape(s[1..]) + ['"'] + x, Escape(t[1..]) + ['"'] + y;
      EscapeCharPrefixFree(s[0], t[0], x', y');
      EscapeEnds(s[1..], t[1..], x, y);
      assert s == [s[0]] + s[1..] && t == [t[0]] + t[1..];
    }
  }

  lemma QuoteEnds(s: string, t: string, x: string, y: string)
    requires Quote(s) + x == Quote(t) + y
    ensures s == t && x == y
  {
    assert (Quote(s) + x)[1..] == Escape(s) + ['"'] + x;
    assert (Quote(t) + y)[1..] == Escape(t) + ['"'] + y;
    EscapeEnds(s, t, x, y);
  }

  // The text of a string is a JSON string, by section 7 of RFC 8259

  function HexValue(c: char): Option<nat> {
    if '0' <= c <= '9' then Some(c as int - '0' as int)
    else if 'a' <= c <= 'f' then Some(c as int - 'a' as int + 10)
    else None
  }

  /** What a backslash and this character stand for. */
  function EscapeMeans(c: char): Option<char> {
    match c
    case '"' => Some('"')
    case '\\' => Some('\\')
    case '/' => Some('/')
    case 'b' => Some(8 as char)
    case 'f' => Some(12 as char)
    case 'n' => Some(10 as char)
    case 'r' => Some(13 as char)
    case 't' => Some(9 as char)
    case _ => None
  }

  /** The character that the text starts with, plain or escaped, and the text after it. */
  function ReadChar(t: string): (r: Option<(char, string)>)
    requires t != []
    ensures r.Some? ==> |r.value.1| < |t|
  {
    if t[0] == '"' || (t[0] as int) < 32 then None
    else if t[0] != '\\' then Some((t[0], t[1..]))
    else if |t| < 2 then None
    else if t[1] != 'u' then
      match EscapeMeans(t[1]) case Some(c) => Some((c, t[2..])) case None => None
    else if |t| < 6 || t[2] != '0' || t[3] != '0' then None
    else
      match (HexValue(t[4]), HexValue(t[5]))
      case (Some(h), Some(l)) => Some(((h * 16 + l) as char, t[6..]))
      case _ => None
  }

  function Unescape(t: string): Option<string>
    decreases |t|
  {
    if t == [] then Some("")
    else match ReadChar(t)
      case None => None
      case Some(first) =>
        match Unescape(first.1) case None => None case Some(rest) => Some([first.0] + rest)
  }

  lemma ReadEscaped(c: char, x: string)
    ensures EscapeChar(c) + x != [] && ReadChar(EscapeChar(c) + x) == Some((c, x))
  {
    var t := EscapeChar(c) + x;
    assert t[0] == EscapeChar(c)[0] && t[|EscapeChar(c)|..] == x;
    if t[0] == '\\' { assert t[1] == EscapeChar(c)[1]; }
  }

  /** A JSON reader gets back the string that was printed. */
  lemma {:induction false} EscapeRoundTrip(s: string)
    ensures Unescape(Escape(s)) == Some(s)
  {
    if s != [] {
      ReadEscaped(s[0], Escape(s[1..]));
      EscapeRoundTrip(s[1..]);
      assert [s[0]] + s[1..] == s;
    }
  }

  lemma DigitsNotShorter(d: string, e: string, x: string, y: string)
    requires AllDigits(e) && Stop(x) && d + x == e + y
    ensures |d| >= |e|
  {
    var s := d + x;
    assert forall i :: 0 <= i < |e| ==> s[i] == e[i] && IsDigit(s[i]);
    assert |d| < |s| ==> s[|d|] == x[0];
  }

  lemma DigitsEnd(d: string, e: string, x: string, y: string)
    requires AllDigits(d) && AllDigits(e) && Stop(x) && Stop(y) && d + x == e + y
    ensures d == e && x == y
  {
    DigitsNotShorter(d, e, x, y);
    DigitsNotShorter(e, d, y, x);
    assert d == (d + x)[..|d|] && e == (e + y)[..|e|];
    SameStart(d, x, y);
  }

  lemma ItoaShape(n: int, x: string)
    ensures n >= 0 ==> Itoa(n) + x == Decimal(n) + x && (Itoa(n) + x)[0] != '-'
    ensures n < 0 ==> Itoa(n) + x == ['-'] + (Decimal(-n) + x)
  {
    if n >= 0 { assert IsDigit(Decimal(n)[0]); }
  }

  lemma NumberEnds(m: int, n: int, x: string, y: string)
    requires Stop(x) && Stop(y) && Itoa(m) + x == Itoa(n) + y
    ensures m == n && x == y
  {
    ItoaShape(m, x);
    ItoaShape(n, y);
    var a: nat, b: nat := if m < 0 then -m else m, if n < 0 then -n else n;
    if m < 0 { SameStart(['-'], Decimal(a) + x, Decimal(b) + y); }
    DigitsEnd(Decimal(a), Decimal(b), x, y);
    DecimalInjective(a, b);
  }

  /** The first character of a printed value tells its kind. */
  function Kind(v: Json): nat {
    match v
    case Null => 0
    case Undefined => 1
    case Bool(b) => if b then 2 else 3
    case Number(_) => 4
    case String(_) => 5
    case Array(_) => 6
    case Object(_) => 7
  }

  function KindOf(c: char): nat {
    if c == 'n' then 0 else if c == 'u' then 1 else if c == 't' then 2 else if c == 'f' then 3
    else if c == '"' then 5 else if c == '[' then 6 else if c == '{' then 7
    else if c == '-' || IsDigit(c) then 4 else 8
  }

  lemma FirstTells(lt: (string, string) -> bool, v: Json)
    ensures Show(lt, v) != [] && KindOf(Show(lt, v)[0]) == Kind(v) && !Stop(Show(lt, v))
  {
    if v.Number? {
      assert IsDigit(Decimal(if v.n < 0 then -v.n else v.n)[0]);
    }
  }

  lemma SameKind(lt: (string, string) -> bool, v: Json, w: Json, x: string, y: string)
    requires Show(lt, v) + x == Show(lt, w) + y
    ensures Kind(v) == Kind(w)
  {
    FirstTells(lt, v);
    FirstTells(lt, w);
    assert (Show(lt, v) + x)[0] == Show(lt, v)[0] && (Show(lt, w) + y)[0] == Show(lt, w)[0];
  }

  lemma SameStart(a: string, x: string, y: string)
    requires a + x == a + y
    ensures x == y
  {
    assert x == (a + x)[|a|..] && y == (a + y)[|a|..];
  }

  /** The text of an array or object after its opening bracket, with what follows it. */
  function ItemsText(lt: (string, string) -> bool, a: seq<Json>, x: string): string { ShowItems(lt, a) + ([']'] + x) }

  function FieldsText(lt: (string, string) -> bool, f: seq<Field>, x: string): string { ShowFields(lt, f) + (['}'] + x) }

  /** The text after the first entry. */
  function ItemsRest(lt: (string, string) -> bool, a: seq<Json>, x: string): string
    requires a != []
  {
    if |a| == 1 then [']'] + x else [','] + ItemsText(lt, a[1..], x)
  }

  function FieldsRest(lt: (string, string) -> bool, f: seq<Field>, x: string): string
    requires f != []
  {
    if |f| == 1 then ['}'] + x else [','] + FieldsText(lt, f[1..], x)
  }

  lemma ItemsSplit(lt: (string, string) -> bool, a: seq<Json>, x: string)
    ensures (ItemsText(lt, a, x)[0] == ']' <==> a == []) && (a == [] ==> ItemsText(lt, a, x) == [']'] + x)
    ensures a != [] ==> ItemsText(lt, a, x) == Show(lt, a[0]) + ItemsRest(lt, a, x)
  {
    if a != [] {
      var first := Show(lt, a[0]);
      if |a| > 1 { Regroup(first, ',', ShowItems(lt, a[1..]), [']'] + x); }
      FirstTells(lt, a[0]);
      FirstOfJoin(first, ItemsRest(lt, a, x));
    }
  }

  lemma FieldsSplit(lt: (string, string) -> bool, f: seq<Field>, x: string)
    ensures (FieldsText(lt, f, x)[0] == '}' <==> f == []) && (f == [] ==> FieldsText(lt, f, x) == ['}'] + x)
    ensures f != [] ==> FieldsText(lt, f, x) == ShowField(lt, f[0]) + FieldsRest(lt, f, x)
  {
    if f != [] {
      var first := ShowField(lt, f[0]);
      if |f| > 1 { Regroup(first, ',', ShowFields(lt, f[1..]), ['}'] + x); }
      assert first[0] == '"';
      FirstOfJoin(first, FieldsRest(lt, f, x));
    }
  }

  lemma CompoundText(lt: (string, string) -> bool, v: Json, x: string)
    ensures v.Array? ==> Show(lt, v) + x == ['['] + ItemsText(lt, v.items, x)
    ensures v.Object? ==> Show(lt, v) + x == ['{'] + FieldsText(lt, Sorted(lt, v.fields), x)
  {
  }

  /** Two printed values followed by a stop are the same text only if the values are equal up to key order. */
  lemma {:induction false} ValueEnds(lt: (string, string) -> bool, v: Json, w: Json, x: string, y: string)
    requires WellFormed(v) && WellFormed(w) && Stop(x) && Stop(y) && Show(lt, v) + x == Show(lt, w) + y
    ensures Equiv(v, w) && x == y
    decreases Size(v), 0
  {
    SameKind(lt, v, w, x, y);
    if v.Array? {
      CompoundText(lt, v, x);
      CompoundText(lt, w, y);
      SameStart(['['], ItemsText(lt, v.items, x), ItemsText(lt, w.items, y));
      ItemsEnd(lt, v.items, w.items, x, y);
    } else if v.Object? {
      ObjectEnds(lt, v, w, x, y);
    } else {
      ScalarEnds(lt, v, w, x, y);
    }
  }

  lemma ScalarEnds(lt: (string, string) -> bool, v: Json, w: Json, x: string, y: string)
    requires Stop(x) && Stop(y) && Show(lt, v) + x == Show(lt, w) + y
    requires Kind(v) == Kind(w) && !v.Array? && !v.Object?
    ensures v == w && x == y
  {
    match v
    case Number(n) => NumberEnds(n, w.n, x, y);
    case String(s) => QuoteEnds(s, w.s, x, y);
    case _ => SameStart(Show(lt, v), x, y);
  }

  lemma {:induction false} ItemsEnd(lt: (string, string) -> bool, a: seq<Json>, b: seq<Json>, x: string, y: string)
    requires forall i :: 0 <= i < |a| ==> WellFormed(a[i])
    requires forall i :: 0 <= i < |b| ==> WellFormed(b[i])
    requires ItemsText(lt, a, x) == ItemsText(lt, b, y)
    ensures |a| == |b| && x == y && forall i :: 0 <= i < |a| ==> Equiv(a[i], b[i])
    decreases SizeItems(a), 1
  {
    ItemsSplit(lt, a, x);
    ItemsSplit(lt, b, y);
    if a == [] {
      SameStart([']'], x, y);
    } else {
      ValueEnds(lt, a[0], b[0], ItemsRest(lt, a, x), ItemsRest(lt, b, y));
      assert ItemsRest(lt, a, x)[0] == ItemsRest(lt, b, y)[0];
      if |a| > 1 {
        SameStart([','], ItemsText(lt, a[1..], x), ItemsText(lt, b[1..], y));
        ItemsEnd(lt, a[1..], b[1..], x, y);
        assert forall i :: 0 < i < |a| ==> a[i] == a[1..][i - 1] && b[i] == b[1..][i - 1];
      } else {
        SameStart([']'], x, y);
      }
    }
  }

  /** Field by field, the keys agree and the values are equal up to key order. */
  ghost predicate Pairwise(f: seq<Field>, g: seq<Field>) {
    |f| == |g| && forall i :: 0 <= i < |f| ==> f[i].key == g[i].key && Equiv(f[i].value, g[i].value)
  }

  lemma PairwiseCons(f: seq<Field>, g: seq<Field>)
    requires f != [] && g != [] && f[0].key == g[0].key && Equiv(f[0].value, g[0].value) && Pairwise(f[1..], g[1..])
    ensures Pairwise(f, g)
  {
    forall i | 0 < i < |f| ensures f[i].key == g[i].key && Equiv(f[i].value, g[i].value) {
      assert f[i] == f[1..][i - 1] && g[i] == g[1..][i - 1];
    }
  }

  lemma {:induction false} FieldsEnd(lt: (string, string) -> bool, f: seq<Field>, g: seq<Field>, x: string, y: string)
    requires forall i :: 0 <= i < |f| ==> WellFormed(f[i].value)
    requires forall i :: 0 <= i < |g| ==> WellFormed(g[i].value)
    requires FieldsText(lt, f, x) == FieldsText(lt, g, y)
    ensures Pairwise(f, g) && x == y
    decreases SizeFields(f), 1
  {
    FieldsSplit(lt, f, x);
    FieldsSplit(lt, g, y);
    if f == [] {
      SameStart(['}'], x, y);
    } else {
      FieldEnds(lt, f[0], g[0], FieldsRest(lt, f, x), FieldsRest(lt, g, y));
      assert FieldsRest(lt, f, x)[0] == FieldsRest(lt, g, y)[0];
      if |f| > 1 {
        SameStart([','], FieldsText(lt, f[1..], x), FieldsText(lt, g[1..], y));
        FieldsEnd(lt, f[1..], g[1..], x, y);
      } else {
        SameStart(['}'], x, y);
      }
      PairwiseCons(f, g);
    }
  }

  lemma {:induction false} FieldEnds(lt: (string, string) -> bool, f: Field, g: Field, x: string, y: string)
    requires WellFormed(f.value) && WellFormed(g.value) && Stop(x) && Stop(y)
    requires ShowField(lt, f) + x == ShowField(lt, g) + y
    ensures f.key == g.key && Equiv(f.value, g.value) && x == y
    decreases Size(f.value), 1
  {
    var p, q := [':'] + (Show(lt, f.value) + x), [':'] + (Show(lt, g.value) + y);
    Regroup(Quote(f.key), ':', Show(lt, f.value), x);
    Regroup(Quote(g.key), ':', Show(lt, g.value), y);
    QuoteEnds(f.key, g.key, p, q);
    SameStart([':'], Show(lt, f.value) + x, Show(lt, g.value) + y);
    ValueEnds(lt, f.value, g.value, x, y);
  }

  lemma {:induction false} ObjectEnds(lt: (string, string) -> bool, v: Json, w: Json, x: string, y: string)
    requires WellFormed(v) && WellFormed(w) && v.Object? && w.Object? && Show(lt, v) + x == Show(lt, w) + y
    ensures Equiv(v, w) && x == y
    decreases SizeFields(v.fields), 2
  {
    CompoundText(lt, v, x);
    CompoundText(lt, w, y);
    var s, t := Sorted(lt, v.fields), Sorted(lt, w.fields);
    SameStart(['{'], FieldsText(lt, s, x), FieldsText(lt, t, y));
    forall i | 0 <= i < |s| ensures WellFormed(s[i].value) { assert s[i] in v.fields; }
    forall i | 0 <= i < |t| ensures WellFormed(t[i].value) { assert t[i] in w.fields; }
    FieldsEnd(lt, s, t, x, y);
    SortedEquiv(lt, v.fields, w.fields);
  }

  predicate DistinctKeys(f: seq<Field>) { forall i, j :: 0 <= i < j < |f| ==> f[i].key != f[j].key }

  /** What sorted field lists have in common, the unsorted ones have. */
  lemma SortedEquiv(lt: (string, string) -> bool, f: seq<Field>, g: seq<Field>)
    requires DistinctKeys(f) && DistinctKeys(g) && Pairwise(Sorted(lt, f), Sorted(lt, g))
    ensures Equiv(Object(f), Object(g))
  {
    var s, t := Sorted(lt, f), Sorted(lt, g);
    forall i | 0 <= i < |f| ensures HasKey(g, f[i].key) {
      assert f[i] in s;
      var a :| 0 <= a < |s| && s[a] == f[i];
      assert t[a] in g;
    }
    forall i, j | 0 <= i < |f| && 0 <= j < |g| && f[i].key == g[j].key ensures Equiv(f[i].value, g[j].value) {
      assert f[i] in s;
      var a :| 0 <= a < |s| && s[a] == f[i];
      assert t[a] in g;
      var b :| 0 <= b < |g| && g[b] == t[a];
      assert b == j;
    }
  }

  /** The printer is injective, whatever the collation does: equal texts mean equal trees up to key order. */
  lemma ShowInjective(lt: (string, string) -> bool, v: Json, w: Json)
    requires WellFormed(v) && WellFormed(w) && Show(lt, v) == Show(lt, w)
    ensures Equiv(v, w)
  {
    assert Show(lt, v) + [] == Show(lt, w) + [];
    ValueEnds(lt, v, w, [], []);
  }

  // Blindness to key order

  function Keys(f: seq<Field>): (r: seq<string>)
    ensures |r| == |f| && forall i :: 0 <= i < |f| ==> r[i] == f[i].key
  {
    if f == [] then [] else [f[0].key] + Keys(f[1..])
  }

  lemma ByKeyStrict(lt: (string, string) -> bool)
    requires Strict(lt)
    ensures Strict(ByKey(lt))
  {
    var cmp := ByKey(lt);
    forall f ensures !cmp(f, f) { assert !lt(f.key, f.key); }
    forall f, g, h | cmp(f, g) && cmp(g, h) ensures cmp(f, h) { assert lt(f.key, g.key) && lt(g.key, h.key); }
  }

  lemma SortedHasKeys(lt: (string, string) -> bool, f: seq<Field>, k: string)
    ensures k in Keys(Sorted(lt, f)) <==> HasKey(f, k)
  {
    var s := Sorted(lt, f);
    if HasKey(f, k) {
      var i :| 0 <= i < |f| && f[i].key == k;
      assert f[i] in s;
      var a :| 0 <= a < |s| && s[a] == f[i];
      assert Keys(s)[a] == k;
    }
    if k in Keys(s) {
      var a :| 0 <= a < |s| && Keys(s)[a] == k;
      assert s[a] in f;
    }
  }

  lemma SortedKeysIncreasing(lt: (string, string) -> bool, f: seq<Field>)
    requires StrictTotal(lt) && DistinctKeys(f)
    ensures Increasing(lt, Keys(Sorted(lt, f)))
    ensures forall k :: k in Keys(Sorted(lt, f)) <==> HasKey(f, k)
  {
    var cmp := ByKey(lt);
    ByKeyStrict(lt);
    assert Separated(cmp, f) by {
      forall i, j | 0 <= i < j < |f| ensures cmp(f[i], f[j]) || cmp(f[j], f[i]) { assert f[i].key != f[j].key; }
    }
    SortIncreasing(cmp, f);
    forall k ensures k in Keys(Sorted(lt, f)) <==> HasKey(f, k) { SortedHasKeys(lt, f, k); }
  }

  /** Under a total collation, objects that are equal up to key order have the same sorted keys. */
  lemma EquivSortsAlike(lt: (string, string) -> bool, f: seq<Field>, g: seq<Field>)
    requires StrictTotal(lt) && DistinctKeys(f) && DistinctKeys(g) && Equiv(Object(f), Object(g))
    ensures Pairwise(Sorted(lt, f), Sorted(lt, g))
  {
    var s, t := Sorted(lt, f), Sorted(lt, g);
    SortedKeysIncreasing(lt, f);
    SortedKeysIncreasing(lt, g);
    EquivSameKeys(f, g);
    IncreasingUnique(lt, Keys(s), Keys(t));
    forall i | 0 <= i < |s| ensures s[i].key == t[i].key && Equiv(s[i].value, t[i].value) {
      assert Keys(s)[i] == Keys(t)[i];
      assert s[i] in f && t[i] in g;
      var a :| 0 <= a < |f| && f[a] == s[i];
      var b :| 0 <= b < |g| && g[b] == t[i];
    }
  }

  /** Same number of distinct keys, one set inside the other: the same keys. */
  lemma EquivSameKeys(f: seq<Field>, g: seq<Field>)
    requires DistinctKeys(f) && DistinctKeys(g) && |f| == |g|
    requires forall i :: 0 <= i < |f| ==> HasKey(g, f[i].key)
    ensures forall k :: HasKey(f, k) <==> HasKey(g, k)
  {
    var fs, gs := KeySet(f), KeySet(g);
    CountKeys(f);
    CountKeys(g);
    assert fs <= gs;
    SubsetSameSize(fs, gs);
    forall k ensures HasKey(f, k) <==> HasKey(g, k) {
      assert HasKey(f, k) <==> k in fs;
      assert HasKey(g, k) <==> k in gs;
    }
  }

  function KeySet(f: seq<Field>): set<string> { set i | 0 <= i < |f| :: f[i].key }

  lemma KeySetNext(init: seq<Field>, last: Field)
    ensures KeySet(init + [last]) == KeySet(init) + {last.key}
  {
    var f := init + [last];
    forall k | k in KeySet(f) ensures k in KeySet(init) + {last.key} {
      var i :| 0 <= i < |f| && f[i].key == k;
      if i < |init| { assert init[i].key == k; }
    }
    forall k | k in KeySet(init) ensures k in KeySet(f) {
      var i :| 0 <= i < |init| && init[i].key == k;
      assert f[i].key == k;
    }
    assert f[|init|].key == last.key;
  }

  lemma {:induction false} CountKeys(f: seq<Field>)
    requires DistinctKeys(f)
    ensures |KeySet(f)| == |f|
  {
    if f != [] {
      var n := |f| - 1;
      CountKeys(f[..n]);
      KeySetNext(f[..n], f[n]);
      assert f == f[..n] + [f[n]];
    }
  }

  lemma SubsetSameSize<T>(a: set<T>, b: set<T>)
    requires a <= b && |a| == |b|
    ensures a == b
  {
    assert |b - a| == |b| - |a|;
  }

  /** Under a total collation the printer does not see key order. */
  lemma {:induction false} ShowOrderBlind(lt: (string, string) -> bool, v: Json, w: Json)
    requires StrictTotal(lt) && WellFormed(v) && WellFormed(w) && Equiv(v, w)
    ensures Show(lt, v) == Show(lt, w)
    decreases Size(v), 0
  {
    if v.Array? {
      ItemsOrderBlind(lt, v.items, w.items);
    } else if v.Object? {
      EquivSortsAlike(lt, v.fields, w.fields);
      var s, t := Sorted(lt, v.fields), Sorted(lt, w.fields);
      forall i | 0 <= i < |s| ensures WellFormed(s[i].value) { assert s[i] in v.fields; }
      forall i | 0 <= i < |t| ensures WellFormed(t[i].value) { assert t[i] in w.fields; }
      FieldsOrderBlind(lt, s, t);
    }
  }

  lemma {:induction false} ItemsOrderBlind(lt: (string, string) -> bool, a: seq<Json>, b: seq<Json>)
    requires StrictTotal(lt) && |a| == |b|
    requires forall i :: 0 <= i < |a| ==> WellFormed(a[i]) && WellFormed(b[i]) && Equiv(a[i], b[i])
    ensures ShowItems(lt, a) == ShowItems(lt, b)
    decreases SizeItems(a), 1
  {
    if a != [] {
      ShowOrderBlind(lt, a[0], b[0]);
      ItemsOrderBlind(lt, a[1..], b[1..]);
    }
  }

  lemma {:induction false} FieldsOrderBlind(lt: (string, string) -> bool, f: seq<Field>, g: seq<Field>)
    requires StrictTotal(lt) && Pairwise(f, g)
    requires forall i :: 0 <= i < |f| ==> WellFormed(f[i].value) && WellFormed(g[i].value)
    ensures ShowFields(lt, f) == ShowFields(lt, g)
    decreases SizeFields(f), 1
  {
    if f != [] {
      ShowOrderBlind(lt, f[0].value, g[0].value);
      FieldsOrderBlind(lt, f[1..], g[1..]);
    }
  }

  /** With a total collation: equal texts exactly for trees that are equal up to key order. */
  lemma ShowIff(lt: (string, string) -> bool, v: Json, w: Json)
    requires StrictTotal(lt) && WellFormed(v) && WellFormed(w)
    ensures Show(lt, v) == Show(lt, w) <==> Equiv(v, w)
  {
    if Equiv(v, w) { ShowOrderBlind(lt, v, w); }
    if Show(lt, v) == Show(lt, w) { ShowInjective(lt, v, w); }
  }

  // When the collation ties distinct keys, as locale comparison may

  function Pair(a: string, b: string): Json { Object([Field(a, Null), Field(b, Null)]) }

  ghost predicate OrderBlind(lt: (string, string) -> bool) {
    forall v, w :: WellFormed(v) && WellFormed(w) && Equiv(v, w) ==> Show(lt, v) == Show(lt, w)
  }

  lemma TieShowsOrder(lt: (string, string) -> bool, a: string, b: string)
    requires a != b && !lt(a, b) && !lt(b, a)
    ensures WellFormed(Pair(a, b)) && WellFormed(Pair(b, a)) && Equiv(Pair(a, b), Pair(b, a))
    ensures Show(lt, Pair(a, b)) != Show(lt, Pair(b, a))
  {
    var f, g := [Field(a, Null), Field(b, Null)], [Field(b, Null), Field(a, Null)];
    assert HasKey(g, a) && HasKey(g, b) by { assert g[1].key == a && g[0].key == b; }
    PairStays(lt, Field(a, Null), Field(b, Null));
    PairStays(lt, Field(b, Null), Field(a, Null));
    CompoundText(lt, Pair(a, b), []);
    CompoundText(lt, Pair(b, a), []);
    if Show(lt, Pair(a, b)) == Show(lt, Pair(b, a)) {
      SameStart(['{'], FieldsText(lt, f, []), FieldsText(lt, g, []));
      FieldsEnd(lt, f, g, [], []);
    }
  }

  lemma PairStays(lt: (string, string) -> bool, f: Field, g: Field)
    requires !lt(g.key, f.key)
    ensures Sorted(lt, [f, g]) == [f, g]
  {
    assert [f, g][1..] == [g] && [g][1..] == [];
    assert Sort(ByKey(lt), [g]) == [g];
  }

  /** The printer is blind to key order exactly when the collation never ties two distinct keys. */
  lemma OrderBlindIff(lt: (string, string) -> bool)
    requires Strict(lt)
    ensures OrderBlind(lt) <==> StrictTotal(lt)
  {
    if StrictTotal(lt) {
      forall v, w | WellFormed(v) && WellFormed(w) && Equiv(v, w) ensures Show(lt, v) == Show(lt, w) {
        ShowOrderBlind(lt, v, w);
      }
    } else {
      var a, b :| a != b && !lt(a, b) && !lt(b, a);
      TieShowsOrder(lt, a, b);
    }
  }

  // The fingerprint of a projection

  datatype Projection = Projection(layer: Json, focus: Json, guidance: Json, regions: Json, nodes: Json, edges: Json,
                                   inspector: Json, truncation: Json)

  function Parts(p: Projection): seq<Field> {
    [Field("layer", p.layer), Field("focus", p.focus), Field("guidance", p.guidance), Field("regions", p.regions),
     Field("nodes", p.nodes), Field("edges", p.edges), Field("inspector", p.inspector),
     Field("truncation", p.truncation)]
  }

  function Fingerprint(lt: (string, string) -> bool, p: Projection): string { Show(lt, Object(Parts(p))) }

  ghost predicate FieldsWellFormed(p: Projection) {
    && WellFormed(p.layer) && WellFormed(p.focus) && WellFormed(p.guidance) && WellFormed(p.regions)
    && WellFormed(p.nodes) && WellFormed(p.edges) && WellFormed(p.inspector) && WellFormed(p.truncation)
  }

  /** Every one of the eight fields is equal up to key order. */
  ghost predicate SameProjection(p: Projection, q: Projection) {
    && Equiv(p.layer, q.layer) && Equiv(p.focus, q.focus) && Equiv(p.guidance, q.guidance)
    && Equiv(p.regions, q.regions) && Equiv(p.nodes, q.nodes) && Equiv(p.edges, q.edges)
    && Equiv(p.inspector, q.inspector) && Equiv(p.truncation, q.truncation)
  }

  /** Field by field, the parts that are printed are the fields of the record. */
  lemma PartsAreFields(p: Projection, q: Projection)
    ensures |Parts(p)| == |Parts(q)| && forall i :: 0 <= i < |Parts(p)| ==> Parts(p)[i].key == Parts(q)[i].key
    ensures FieldsWellFormed(p) ==> forall i :: 0 <= i < |Parts(p)| ==> WellFormed(Parts(p)[i].value)
    ensures (forall i :: 0 <= i < |Parts(p)| ==> Equiv(Parts(p)[i].value, Parts(q)[i].value)) <==> SameProjection(p, q)
  {
    var f, g := Parts(p), Parts(q);
    if forall i :: 0 <= i < |f| ==> Equiv(f[i].value, g[i].value) {
      assert Equiv(f[0].value, g[0].value) && Equiv(f[1].value, g[1].value) && Equiv(f[2].value, g[2].value);
      assert Equiv(f[3].value, g[3].value) && Equiv(f[4].value, g[4].value) && Equiv(f[5].value, g[5].value);
      assert Equiv(f[6].value, g[6].value) && Equiv(f[7].value, g[7].value);
    }
  }

  lemma PartKeysDistinct(p: Projection)
    ensures DistinctKeys(Parts(p))
  {
    assert "layer"[0] == 'l' && "focus"[0] == 'f' && "nodes"[0] == 'n' && "edges"[0] == 'e';
    assert |"layer"| == |"focus"| == |"nodes"| == |"edges"| == 5;
    assert |"guidance"| == 8 && |"regions"| == 7 && |"inspector"| == 9 && |"truncation"| == 10;
  }

  /** A fingerprint is never empty, so testing it for truth never hides a projection. */
  lemma FingerprintNotEmpty(lt: (string, string) -> bool, p: Projection)
    ensures Fingerprint(lt, p) != ""
  {
    FirstTells(lt, Object(Parts(p)));
  }

  lemma SameKeysEquivIff(f: seq<Field>, g: seq<Field>)
    requires |f| == |g| && DistinctKeys(f) && DistinctKeys(g) && forall i :: 0 <= i < |f| ==> f[i].key == g[i].key
    ensures Equiv(Object(f), Object(g)) <==> forall i :: 0 <= i < |f| ==> Equiv(f[i].value, g[i].value)
  {
    forall i | 0 <= i < |f| ensures HasKey(g, f[i].key) { assert g[i].key == f[i].key; }
  }

  /**
   * Two projections have one fingerprint exactly when layer, focus, guidance, regions, nodes, edges, inspector and
   * truncation are each equal up to key order; none is "".
   */
  lemma FingerprintIff(lt: (string, string) -> bool, p: Projection, q: Projection)
    requires StrictTotal(lt) && FieldsWellFormed(p) && FieldsWellFormed(q)
    ensures Fingerprint(lt, p) == Fingerprint(lt, q) <==> SameProjection(p, q)
    ensures Fingerprint(lt, p) != ""
  {
    FingerprintNotEmpty(lt, p);
    PartKeysDistinct(p);
    PartKeysDistinct(q);
    PartsAreFields(p, q);
    PartsAreFields(q, p);
    SameKeysEquivIff(Parts(p), Parts(q));
    ShowIff(lt, Object(Parts(p)), Object(Parts(q)));
  }
}
