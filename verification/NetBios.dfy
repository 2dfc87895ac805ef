/** The NetBIOS name encoding, the node status request, and the parser of node status responses. */
module NetBios {
  import opened Orders
  import opened Text

  type Byte = x: nat | x < 256
  type Bytes = seq<Byte>

  datatype ParseError =
    | TooShort | TransactionMismatch | NoAnswers | NameOverflow | TruncatedPointer | HeaderTruncated
    | DataTruncated | NotNbstat | EmptyPayload | PayloadTooShort

  // Name encoding

  predicate Ascii(s: string) { forall i :: 0 <= i < |s| ==> s[i] as int < 128 }

  function ToUpper(s: string): (r: string)
    ensures |r| == |s| && forall i :: 0 <= i < |s| ==> r[i] == UpperChar(s[i])
  {
    if s == [] then [] else [UpperChar(s[0])] + ToUpper(s[1..])
  }

  function Spaces(n: nat): (r: string)
    ensures |r| == n && forall i :: 0 <= i < n ==> r[i] == ' '
  {
    seq(n, _ => ' ')
  }

  /** The 16 characters that are encoded: upper case, at most 15 of the name, spaces after them. */
  function PaddedName(name: string): (r: string)
    ensures |r| == 16
  {
    var kept := Take(ToUpper(name), 15);
    kept + Spaces(16 - |kept|)
  }

  /** The two letters of a half-byte pair. */
  function HighLetter(c: char): Byte requires c as int < 256 { 65 + c as int / 16 }

  function LowLetter(c: char): Byte requires c as int < 256 { 65 + c as int % 16 }

  predicate Letters(e: Bytes) { |e| == 32 && forall i :: 0 <= i < 32 ==> 65 <= e[i] < 81 }

  /** The first-level decoding of section 14.1 of RFC 1001: two letters A to P make one byte. */
  function DecodeName(e: Bytes): (s: string)
    requires Letters(e)
    ensures |s| == 16 && forall i :: 0 <= i < 16 ==> s[i] == ((e[2 * i] - 65) * 16 + (e[2 * i + 1] - 65)) as char
  {
    seq(16, i requires 0 <= i < 16 => ((e[2 * i] - 65) * 16 + (e[2 * i + 1] - 65)) as char)
  }

  ghost predicate Encodes(e: Bytes, padded: string) {
    && |e| == 32 && |padded| == 16 && Ascii(padded)
    && forall k :: 0 <= k < 16 ==> e[2 * k] == HighLetter(padded[k]) && e[2 * k + 1] == LowLetter(padded[k])
  }

  /** Character by character: the name in upper case up to its end or the 15th character, then spaces. */
  lemma PaddedChars(name: string, i: nat)
    requires i < 16
    ensures PaddedName(name)[i] == if i < |name| && i < 15 then UpperChar(name[i]) else ' '
  {
  }

  lemma PaddedAscii(name: string)
    requires Ascii(name)
    ensures Ascii(PaddedName(name))
  {
  }

  method EncodeNetBIOSName(name: string) returns (encoded: array<Byte>)
    requires Ascii(name)
    ensures fresh(encoded) && Encodes(encoded[..], PaddedName(name))
  {
    var padded := ToUpper(name);
    if |padded| > 15 { padded := padded[..15]; }
    padded := padded + Spaces(16 - |padded|);
    PaddedAscii(name);
    encoded := WriteLetters(padded);
  }

  /** The loop of the encoder. */
  method WriteLetters(padded: string) returns (encoded: array<Byte>)
    requires |padded| == 16 && Ascii(padded)
    ensures fresh(encoded) && Encodes(encoded[..], padded)
  {
    encoded := new Byte[32];
    for i := 0 to 16
      invariant forall k :: 0 <= k < i ==>
        encoded[2 * k] == HighLetter(padded[k]) && encoded[2 * k + 1] == LowLetter(padded[k])
    {
      encoded[2 * i] := HighLetter(padded[i]);
      encoded[2 * i + 1] := LowLetter(padded[i]);
    }
  }

  /** Decoding an encoded name gives the upper-cased, cut and padded name. */
  lemma NameRoundTrip(e: Bytes, name: string)
    requires Encodes(e, PaddedName(name))
    ensures Letters(e) && DecodeName(e) == PaddedName(name)
  {
    var padded := PaddedName(name);
    forall i | 0 <= i < 32 ensures 65 <= e[i] < 81 {
      var k := i / 2;
      assert padded[k] as int < 128;
      assert e[2 * k] == HighLetter(padded[k]) && e[2 * k + 1] == LowLetter(padded[k]);
      assert i == 2 * k || i == 2 * k + 1;
    }
  }

  /** Names encode alike exactly when they agree, up to case and trailing spaces, in their first 15 characters. */
  lemma EncodesAlikeIff(e: Bytes, a: string, b: string)
    requires Encodes(e, PaddedName(a))
    ensures Encodes(e, PaddedName(b)) <==> PaddedName(a) == PaddedName(b)
  {
    NameRoundTrip(e, a);
    if Encodes(e, PaddedName(b)) { NameRoundTrip(e, b); }
  }

  // Domain names

  /** skipDomainName, as where it ends. */
  function SkipName(msg: Bytes, offset: nat): (r: Result<nat, ParseError>)
    ensures r.Ok? ==> offset < r.value <= |msg|
    decreases |msg| - offset
  {
    if offset >= |msg| then Err(NameOverflow)
    else
      var length := msg[offset];
      if length == 0 then Ok(offset + 1)
      else if length >= 192 then if offset + 1 >= |msg| then Err(TruncatedPointer) else Ok(offset + 2)
      else if offset + 1 + length > |msg| then Err(NameOverflow)
      else SkipName(msg, offset + 1 + length)
  }

  method SkipDomainName(msg: Bytes, start: nat) returns (r: Result<nat, ParseError>)
    ensures r == SkipName(msg, start)
  {
    var offset := start;
    while offset < |msg|
      invariant SkipName(msg, start) == SkipName(msg, offset)
      decreases |msg| - offset
    {
      var length := msg[offset];
      offset := offset + 1;
      if length == 0 { return Ok(offset); }
      if length >= 192 {
        if offset >= |msg| { return Err(TruncatedPointer); }
        offset := offset + 1;
        return Ok(offset);
      }
      offset := offset + length;
      if offset > |msg| { return Err(NameOverflow); }
    }
    return Err(NameOverflow);
  }

  /** A name as labels that end at the root or at a pointer to elsewhere in the message. */
  datatype DomainName = DomainName(labels: seq<Bytes>, pointer: Option<nat>)

  predicate Encodable(d: DomainName) {
    && (forall i :: 0 <= i < |d.labels| ==> 1 <= |d.labels[i]| <= 63)
    && (d.pointer.Some? ==> d.pointer.value < 0x4000)
  }

  function NameBytes(d: DomainName): Bytes
    requires Encodable(d)
    decreases |d.labels|
  {
    if d.labels == [] then
      if d.pointer.None? then [0] else [192 + d.pointer.value / 256, d.pointer.value % 256]
    else
      [|d.labels[0]|] + d.labels[0] + NameBytes(d.(labels := d.labels[1..]))
  }

  /** Skipping an encoded name stops right after it, wherever it stands. */
  lemma {:induction false} SkipEncoded(before: Bytes, d: DomainName, after: Bytes)
    requires Encodable(d)
    ensures SkipName(before + NameBytes(d) + after, |before|) == Ok(|before| + |NameBytes(d)|)
    decreases |d.labels|
  {
    var msg := before + NameBytes(d) + after;
    assert msg[|before|] == NameBytes(d)[0];
    if d.labels != [] {
      var head, rest := d.labels[0], d.(labels := d.labels[1..]);
      var further := before + [|head|] + head;
      SkipEncoded(further, rest, after);
      assert msg == further + NameBytes(rest) + after;
    }
  }

  // Responses

  /** A row of the name table: the trimmed name, its suffix and whether it is a group name. */
  datatype Row = Row(raw: string, suffix: Byte, group: bool)

  function Chars(b: Bytes): (s: string)
    ensures |s| == |b| && forall i :: 0 <= i < |b| ==> s[i] == b[i] as char
  {
    seq(|b|, i requires 0 <= i < |b| => b[i] as char)
  }

  /** Row `i` of the table at the start of `payload`. */
  function RowAt(payload: Bytes, i: nat): Row
    requires 18 * i + 18 <= |payload|
  {
    var p := 18 * i;
    Row(TrimSpace(Chars(payload[p..p + 15])), payload[p + 15], payload[p + 16] >= 128)
  }

  function Rows(payload: Bytes, n: nat): (r: seq<Row>)
    requires 18 * n <= |payload|
    ensures |r| == n && forall i :: 0 <= i < n ==> r[i] == RowAt(payload, i)
  {
    if n == 0 then [] else Rows(payload, n - 1) + [RowAt(payload, n - 1)]
  }

  /** Row `i` is the first with its name, whatever its case. */
  predicate First(rows: seq<Row>, i: nat)
    requires i < |rows|
  {
    rows[i].raw != "" && forall j :: 0 <= j < i ==> ToLower(rows[j].raw) != ToLower(rows[i].raw)
  }

  /** Row `i` is a unique name with this suffix, and the first row with its name. */
  predicate Keeps(rows: seq<Row>, suffix: Byte, i: nat)
    requires i < |rows|
  {
    First(rows, i) && !rows[i].group && rows[i].suffix == suffix
  }

  /** The rows whose names are kept for a suffix. */
  function KeptRows(rows: seq<Row>, suffix: Byte): (at: seq<nat>)
    ensures forall k :: 0 <= k < |at| ==> at[k] < |rows|
  {
    if rows == [] then []
    else
      var n := |rows| - 1;
      KeptRows(rows[..n], suffix) + if Keeps(rows, suffix, n) then [n] else []
  }

  function Kept(rows: seq<Row>, suffix: Byte): (r: seq<string>)
  {
    if rows == [] then []
    else
      var n := |rows| - 1;
      Kept(rows[..n], suffix) + if Keeps(rows, suffix, n) then [rows[n].raw] else []
  }

  /** File server names first, then workstation names. */
  function DeviceNames(rows: seq<Row>): seq<string> { Kept(rows, 0x20) + Kept(rows, 0x00) }

  function U16(b: Bytes, i: nat): nat
    requires i + 2 <= |b|
  {
    b[i] as int * 256 + b[i + 1] as int
  }

  /** Where the answer starts after its owner name, once the header is accepted. */
  function AnswerStart(resp: Bytes, txID: nat): (r: Result<nat, ParseError>)
    ensures r.Ok? ==> r.value <= |resp|
  {
    if |resp| < 12 then Err(TooShort)
    else if U16(resp, 0) != txID then Err(TransactionMismatch)
    else if U16(resp, 6) == 0 then Err(NoAnswers)
    else
      var question := SkipName(resp, 12);
      if question.Err? then question else SkipName(resp, question.value + 4)
  }

  /** The names in the data of an NBSTAT answer: a count, the rows, and statistics. */
  function DataNames(data: Bytes): Result<seq<string>, ParseError> {
    if |data| < 1 then Err(EmptyPayload)
    else if 1 + data[0] as int * 18 + 6 > |data| then Err(PayloadTooShort)
    else Ok(DeviceNames(Rows(data[1..], data[0])))
  }

  /** The data of the answer that starts at `answer`. */
  function AnswerData(resp: Bytes, answer: nat): Result<Bytes, ParseError> {
    if answer + 10 > |resp| then Err(HeaderTruncated)
    else
      var length, data := U16(resp, answer + 8), answer + 10;
      if data + length > |resp| then Err(DataTruncated)
      else if U16(resp, answer) != 0x21 then Err(NotNbstat)
      else Ok(resp[data..data + length])
  }

  function AnswerNames(resp: Bytes, answer: nat): Result<seq<string>, ParseError> {
    var data := AnswerData(resp, answer);
    if data.Err? then Err(data.error) else DataNames(data.value)
  }

  /** parseNetBIOSNodeStatusResponse, as a value. */
  function Parsed(resp: Bytes, txID: nat): Result<seq<string>, ParseError> {
    var answer := AnswerStart(resp, txID);
    if answer.Err? then Err(answer.error) else AnswerNames(resp, answer.value)
  }

  /** Reading one row at the cursor. */
  method ReadRow(payload: Bytes, i: nat, pos: nat) returns (row: Row)
    requires pos == 18 * i && pos + 18 <= |payload|
    ensures row == RowAt(payload, i)
  {
    var raw := TrimSpace(Chars(payload[pos..pos + 15]));
    var suffix := payload[pos + 15];
    var group := payload[pos + 16] >= 128;
    row := Row(raw, suffix, group);
  }

  ghost predicate SeenNames(rows: seq<Row>, i: nat, seen: set<string>)
    requires i <= |rows|
  {
    forall s :: s in seen <==> s != "" && exists j :: 0 <= j < i && ToLower(rows[j].raw) == s
  }

  lemma FirstIffUnseen(rows: seq<Row>, i: nat, seen: set<string>)
    requires i < |rows| && SeenNames(rows, i, seen)
    ensures First(rows[..i + 1], i) <==> rows[i].raw != "" && ToLower(rows[i].raw) !in seen
    ensures SeenNames(rows, i + 1, if rows[i].raw == "" then seen else seen + {ToLower(rows[i].raw)})
  {
    var prefix := rows[..i + 1];
    assert forall j :: 0 <= j <= i ==> prefix[j] == rows[j];
    assert ToLower(rows[i].raw) == "" <==> rows[i].raw == "";
  }

  /** What one more row adds. */
  lemma KeptNext(rows: seq<Row>, suffix: Byte, i: nat, seen: set<string>)
    requires i < |rows| && SeenNames(rows, i, seen)
    ensures Kept(rows[..i + 1], suffix) == Kept(rows[..i], suffix)
      + if rows[i].raw != "" && ToLower(rows[i].raw) !in seen && !rows[i].group && rows[i].suffix == suffix
        then [rows[i].raw] else []
  {
    FirstIffUnseen(rows, i, seen);
    assert rows[..i + 1][..i] == rows[..i];
  }

  /** The rest of the loop body, on the row just read. */
  method TakeRow(ghost rows: seq<Row>, ghost i: nat, row: Row, preferred: seq<string>, fallback: seq<string>,
                 seen: set<string>)
    returns (preferred': seq<string>, fallback': seq<string>, seen': set<string>)
    requires i < |rows| && rows[i] == row && SeenNames(rows, i, seen)
    requires preferred == Kept(rows[..i], 0x20) && fallback == Kept(rows[..i], 0x00)
    ensures preferred' == Kept(rows[..i + 1], 0x20) && fallback' == Kept(rows[..i + 1], 0x00)
    ensures SeenNames(rows, i + 1, seen')
  {
    preferred', fallback', seen' := preferred, fallback, seen;
    KeptNext(rows, 0x20, i, seen);
    KeptNext(rows, 0x00, i, seen);
    FirstIffUnseen(rows, i, seen);
    if row.raw == "" { return; }
    var normalized := ToLower(row.raw);
    seen' := seen + {normalized};
    if normalized in seen { return; }
    if row.group { return; }
    if row.suffix == 0x20 {
      preferred' := preferred + [row.raw];
    } else if row.suffix == 0x00 {
      fallback' := fallback + [row.raw];
    }
  }

  /** The names loop over the table at the start of `payload`. */
  method CollectNames(payload: Bytes, numNames: nat) returns (names: seq<string>)
    requires 18 * numNames <= |payload|
    ensures names == DeviceNames(Rows(payload, numNames))
  {
    var preferred: seq<string>, fallback: seq<string>, seen: set<string> := [], [], {};
    var pos := 0;
    ghost var rows := Rows(payload, numNames);
    for i := 0 to numNames
      invariant pos == 18 * i && SeenNames(rows, i, seen)
      invariant preferred == Kept(rows[..i], 0x20) && fallback == Kept(rows[..i], 0x00)
    {
      if pos + 18 > |payload| { break; }
      var row := ReadRow(payload, i, pos);
      pos := pos + 18;
      preferred, fallback, seen := TakeRow(rows, i, row, preferred, fallback, seen);
    }
    assert rows[..numNames] == rows;
    names := preferred + fallback;
  }

  /** The header and the two names in front of the answer. */
  method FindAnswer(resp: Bytes, expectedTxID: nat) returns (r: Result<nat, ParseError>)
    ensures r == AnswerStart(resp, expectedTxID)
  {
    if |resp| < 12 { return Err(TooShort); }
    if U16(resp, 0) != expectedTxID { return Err(TransactionMismatch); }
    var answerCount := U16(resp, 6);
    if answerCount == 0 { return Err(NoAnswers); }
    var offset: nat := 12;
    r := SkipDomainName(resp, offset);
    if r.Err? { return; }
    offset := r.value + 4;
    r := SkipDomainName(resp, offset);
  }

  /** The data of the answer. */
  method ReadData(data: Bytes) returns (r: Result<seq<string>, ParseError>)
    ensures r == DataNames(data)
  {
    if |data| < 1 { return Err(EmptyPayload); }
    var numNames: nat := data[0];
    var payload := data[1..];
    if 1 + numNames * 18 + 6 > |data| { return Err(PayloadTooShort); }
    var names := CollectNames(payload, numNames);
    return Ok(names);
  }

  /** The answer's fields and its data. */
  method ReadAnswer(resp: Bytes, answer: nat) returns (r: Result<seq<string>, ParseError>)
    ensures r == AnswerNames(resp, answer)
  {
    var offset := answer;
    if offset + 10 > |resp| { return Err(HeaderTruncated); }
    var rtype := U16(resp, offset);
    offset := offset + 2;
    offset := offset + 2;
    offset := offset + 4;
    var rdLen := U16(resp, offset);
    offset := offset + 2;
    if offset + rdLen > |resp| { return Err(DataTruncated); }
    if rtype != 0x21 { return Err(NotNbstat); }
    assert AnswerData(resp, answer) == Ok(resp[offset..offset + rdLen]);
    r := ReadData(resp[offset..offset + rdLen]);
  }

  /** parseNetBIOSNodeStatusResponse; every index is within the buffer, on every input. */
  method ParseNodeStatusResponse(resp: Bytes, expectedTxID: nat) returns (r: Result<seq<string>, ParseError>)
    ensures r == Parsed(resp, expectedTxID)
  {
    var answer := FindAnswer(resp, expectedTxID);
    if answer.Err? { return Err(answer.error); }
    r := ReadAnswer(resp, answer.value);
  }

  // Which names come back

  ghost predicate FirstIs(rows: seq<Row>, i: int, name: string) {
    0 <= i < |rows| && First(rows, i) && ToLower(rows[i].raw) == name
  }

  predicate Usable(r: Row) { !r.group && (r.suffix == 0x20 || r.suffix == 0x00) }

  lemma KeepsPrefix(rows: seq<Row>, n: nat, suffix: Byte, i: nat)
    requires i < n <= |rows|
    ensures Keeps(rows[..n], suffix, i) <==> Keeps(rows, suffix, i)
  {
    assert forall j :: 0 <= j < n ==> rows[..n][j] == rows[j];
  }

  /** The kept rows, ascending, are exactly those that qualify, and their names are what is kept. */
  lemma {:induction false} KeptRowsExact(rows: seq<Row>, suffix: Byte)
    ensures |KeptRows(rows, suffix)| == |Kept(rows, suffix)|
    ensures forall k :: 0 <= k < |Kept(rows, suffix)| ==>
      Keeps(rows, suffix, KeptRows(rows, suffix)[k]) && Kept(rows, suffix)[k] == rows[KeptRows(rows, suffix)[k]].raw
    ensures forall j, k :: 0 <= j < k < |KeptRows(rows, suffix)| ==> KeptRows(rows, suffix)[j] < KeptRows(rows, suffix)[k]
    ensures forall i :: 0 <= i < |rows| ==> (Keeps(rows, suffix, i) <==> i in KeptRows(rows, suffix))
  {
    if rows != [] {
      var n := |rows| - 1;
      KeptRowsExact(rows[..n], suffix);
      forall i | 0 <= i < n ensures Keeps(rows[..n], suffix, i) <==> Keeps(rows, suffix, i) {
        KeepsPrefix(rows, n, suffix, i);
      }
    }
  }

  /**
   * A name comes back exactly when its first occurrence in the table is a unique name with one of the two suffixes: a
   * group name or another service listed earlier under the same name hides it.
   */
  lemma ReturnedIff(rows: seq<Row>, name: string)
    ensures (exists s :: s in DeviceNames(rows) && ToLower(s) == name)
      <==> (exists i :: FirstIs(rows, i, name) && Usable(rows[i]))
  {
    if s :| s in DeviceNames(rows) && ToLower(s) == name {
      var i := KeptRow(rows, if s in Kept(rows, 0x20) then 0x20 else 0x00, s);
      assert FirstIs(rows, i, name) && Usable(rows[i]);
    }
    if i :| FirstIs(rows, i, name) && Usable(rows[i]) {
      KeptName(rows, rows[i].suffix, i);
      assert rows[i].raw in DeviceNames(rows);
    }
  }

  /** The row a kept name comes from. */
  lemma KeptRow(rows: seq<Row>, suffix: Byte, s: string) returns (i: nat)
    requires s in Kept(rows, suffix)
    ensures i < |rows| && Keeps(rows, suffix, i) && rows[i].raw == s
  {
    KeptRowsExact(rows, suffix);
    var k :| 0 <= k < |Kept(rows, suffix)| && Kept(rows, suffix)[k] == s;
    i := KeptRows(rows, suffix)[k];
  }

  lemma KeptName(rows: seq<Row>, suffix: Byte, i: nat)
    requires i < |rows| && Keeps(rows, suffix, i)
    ensures rows[i].raw in Kept(rows, suffix)
  {
    KeptRowsExact(rows, suffix);
    var k :| 0 <= k < |KeptRows(rows, suffix)| && KeptRows(rows, suffix)[k] == i;
    assert Kept(rows, suffix)[k] == rows[i].raw;
  }

  /** A group name listed first hides the usable unique name after it: nothing comes back. */
  lemma HiddenByGroup()
    ensures var rows := [Row("n", 0x00, true), Row("n", 0x20, false)];
      Usable(rows[1]) && DeviceNames(rows) == []
  {
    var rows := [Row("n", 0x00, true), Row("n", 0x20, false)];
    assert ToLower(rows[0].raw) == ToLower(rows[1].raw);
    if DeviceNames(rows) != [] {
      var s := DeviceNames(rows)[0];
      assert s in DeviceNames(rows);
      ReturnedIff(rows, ToLower(s));
      var i :| FirstIs(rows, i, ToLower(s)) && Usable(rows[i]);
      assert false;
    }
  }

  lemma FirstsDiffer(rows: seq<Row>, i: nat, j: nat)
    requires i < |rows| && j < |rows| && i != j && First(rows, i) && First(rows, j)
    ensures ToLower(rows[i].raw) != ToLower(rows[j].raw)
  {
  }

  /** The row a returned name comes from. */
  function OriginOf(rows: seq<Row>, k: nat): nat
    requires k < |KeptRows(rows, 0x20)| + |KeptRows(rows, 0x00)|
  {
    if k < |KeptRows(rows, 0x20)| then KeptRows(rows, 0x20)[k] else KeptRows(rows, 0x00)[k - |KeptRows(rows, 0x20)|]
  }

  lemma KeptAt(rows: seq<Row>, suffix: Byte, k: nat)
    requires k < |Kept(rows, suffix)|
    ensures |KeptRows(rows, suffix)| == |Kept(rows, suffix)|
    ensures var i := KeptRows(rows, suffix)[k];
      i < |rows| && First(rows, i) && Kept(rows, suffix)[k] == rows[i].raw && rows[i].suffix == suffix
  {
    KeptRowsExact(rows, suffix);
  }

  lemma KeptCounts(rows: seq<Row>)
    ensures |KeptRows(rows, 0x20)| == |Kept(rows, 0x20)| && |KeptRows(rows, 0x00)| == |Kept(rows, 0x00)|
  {
    KeptRowsExact(rows, 0x20);
    KeptRowsExact(rows, 0x00);
  }

  lemma {:induction false} OriginOfName(rows: seq<Row>, k: nat)
    requires k < |DeviceNames(rows)|
    ensures |DeviceNames(rows)| == |KeptRows(rows, 0x20)| + |KeptRows(rows, 0x00)|
    ensures OriginOf(rows, k) < |rows| && First(rows, OriginOf(rows, k))
    ensures DeviceNames(rows)[k] == rows[OriginOf(rows, k)].raw
    ensures rows[OriginOf(rows, k)].suffix == if k < |KeptRows(rows, 0x20)| then 0x20 else 0x00
  {
    KeptCounts(rows);
    var n := |Kept(rows, 0x20)|;
    if k < n { KeptAt(rows, 0x20, k); } else { KeptAt(rows, 0x00, k - n); }
  }

  lemma OriginsDiffer(rows: seq<Row>, j: nat, k: nat)
    requires j < k < |DeviceNames(rows)|
    ensures |DeviceNames(rows)| == |KeptRows(rows, 0x20)| + |KeptRows(rows, 0x00)|
    ensures OriginOf(rows, j) != OriginOf(rows, k)
  {
    OriginOfName(rows, j);
    OriginOfName(rows, k);
    KeptRowsExact(rows, 0x20);
    KeptRowsExact(rows, 0x00);
  }

  /** No two of the names agree up to case, and file server names come first. */
  lemma {:induction false} NamesDistinct(rows: seq<Row>, j: nat, k: nat)
    requires j < k < |DeviceNames(rows)|
    ensures ToLower(DeviceNames(rows)[j]) != ToLower(DeviceNames(rows)[k])
    ensures |DeviceNames(rows)| == |KeptRows(rows, 0x20)| + |KeptRows(rows, 0x00)|
    ensures rows[OriginOf(rows, k)].suffix == 0x20 ==> rows[OriginOf(rows, j)].suffix == 0x20
  {
    OriginOfName(rows, j);
    OriginOfName(rows, k);
    OriginsDiffer(rows, j, k);
    FirstsDiffer(rows, OriginOf(rows, j), OriginOf(rows, k));
  }

  // Messages laid out by the standard, with the question the parser always skips

  /** A node name of at most 15 characters without outer blanks. */
  datatype Node = Node(name: string, suffix: Byte, flags: nat)

  predicate GoodNode(n: Node) {
    |n.name| <= 15 && Trimmed(n.name) && n.flags < 0x10000 && forall i :: 0 <= i < |n.name| ==> n.name[i] as int < 256
  }

  function NodeBytes(n: Node): (r: Bytes)
    requires GoodNode(n)
    ensures |r| == 18
  {
    var padded := n.name + Spaces(15 - |n.name|);
    seq(15, i requires 0 <= i < 15 => padded[i] as int as nat) + [n.suffix, n.flags / 256, n.flags % 256]
  }

  predicate GoodNodes(nodes: seq<Node>) { |nodes| < 256 && forall i :: 0 <= i < |nodes| ==> GoodNode(nodes[i]) }

  function TableBytes(nodes: seq<Node>): (r: Bytes)
    requires forall i :: 0 <= i < |nodes| ==> GoodNode(nodes[i])
    ensures |r| == 18 * |nodes|
  {
    if nodes == [] then [] else TableBytes(nodes[..|nodes| - 1]) + NodeBytes(nodes[|nodes| - 1])
  }

  function RowOf(n: Node): Row { Row(n.name, n.suffix, n.flags >= 0x8000) }

  function RowsOf(nodes: seq<Node>): seq<Row> {
    if nodes == [] then [] else RowsOf(nodes[..|nodes| - 1]) + [RowOf(nodes[|nodes| - 1])]
  }

  lemma {:induction false} TrimRightPadded(name: string, k: nat)
    requires name == "" || !IsSpace(name[|name| - 1])
    ensures TrimRight(name + Spaces(k)) == name
  {
    if k == 0 {
      assert name + Spaces(0) == name;
    } else {
      var s := name + Spaces(k);
      assert s[..|s| - 1] == name + Spaces(k - 1);
      TrimRightPadded(name, k - 1);
    }
  }

  lemma {:induction false} TrimLeftSpaces(k: nat)
    ensures TrimLeft(Spaces(k)) == ""
  {
    if k > 0 {
      assert Spaces(k)[1..] == Spaces(k - 1);
      TrimLeftSpaces(k - 1);
    }
  }

  lemma TrimPadded(name: string, k: nat)
    requires Trimmed(name)
    ensures TrimSpace(name + Spaces(k)) == name
  {
    if name == "" {
      assert name + Spaces(k) == Spaces(k);
      TrimLeftSpaces(k);
    } else {
      TrimRightPadded(name, k);
    }
  }

  lemma NodeReads(n: Node)
    requires GoodNode(n)
    ensures RowAt(NodeBytes(n), 0) == RowOf(n)
  {
    var padded := n.name + Spaces(15 - |n.name|);
    assert Chars(NodeBytes(n)[0..15]) == padded;
    TrimPadded(n.name, 15 - |n.name|);
  }

  /** A row only depends on its own 18 bytes. */
  lemma RowElsewhere(before: Bytes, row: Bytes, after: Bytes, i: nat)
    requires |before| == 18 * i && |row| == 18
    ensures RowAt(before + row + after, i) == RowAt(row, 0)
  {
    var all, p := before + row + after, 18 * i;
    assert all[p..p + 15] == row[0..15];
  }

  lemma Regroup(a: Bytes, b: Bytes, c: Bytes)
    ensures a + b + c == a + (b + c)
  {
  }

  lemma {:induction false} TableRows(nodes: seq<Node>, after: Bytes)
    requires forall i :: 0 <= i < |nodes| ==> GoodNode(nodes[i])
    ensures Rows(TableBytes(nodes) + after, |nodes|) == RowsOf(nodes)
  {
    if nodes != [] {
      var n, rest := |nodes| - 1, nodes[..|nodes| - 1];
      var table, last := TableBytes(rest), NodeBytes(nodes[n]);
      TableRows(rest, last + after);
      RowElsewhere(table, last, after, n);
      NodeReads(nodes[n]);
      Regroup(table, last, after);
      assert Rows(table + (last + after), n) == RowsOf(rest);
      assert TableBytes(nodes) + after == table + last + after;
    }
  }

  /**
   * A node status message: its header, one question with type and class, then one NBSTAT answer whose data is the name
   * table and at least six bytes of statistics.
   */
  datatype Message = Message(txID: nat, flags: Bytes, counts: Bytes, question: DomainName, questionTail: Bytes,
                             owner: DomainName, classAndTtl: Bytes, nodes: seq<Node>, statistics: Bytes)

  predicate GoodMessage(m: Message) {
    && m.txID < 0x10000 && |m.flags| == 4 && |m.counts| == 6 && U16(m.counts, 0) > 0 && |m.questionTail| == 4
    && Encodable(m.question) && Encodable(m.owner) && |m.classAndTtl| == 6 && GoodNodes(m.nodes)
    && |m.statistics| >= 6 && 1 + 18 * |m.nodes| + |m.statistics| < 0x10000
  }

  /** The answer after its owner name. */
  function AnswerBytes(m: Message): Bytes
    requires GoodMessage(m)
  {
    var length := 1 + 18 * |m.nodes| + |m.statistics|;
    [0, 0x21] + m.classAndTtl + [length / 256, length % 256] + [|m.nodes|] + TableBytes(m.nodes) + m.statistics
  }

  function HeaderBytes(m: Message): (r: Bytes)
    requires GoodMessage(m)
    ensures |r| == 12
  {
    [m.txID / 256, m.txID % 256] + m.flags + m.counts
  }

  function MessageBytes(m: Message): Bytes
    requires GoodMessage(m)
  {
    HeaderBytes(m) + NameBytes(m.question) + m.questionTail + NameBytes(m.owner) + AnswerBytes(m)
  }

  /** Where the answer's fields start. */
  function AnswerAt(m: Message): nat
    requires GoodMessage(m)
  {
    16 + |NameBytes(m.question)| + |NameBytes(m.owner)|
  }

  lemma SplitsAt(before: Bytes, after: Bytes)
    ensures (before + after)[|before|..] == after && |before + after| == |before| + |after|
  {
  }

  /** The parts of a message grouped around its first name. */
  lemma PartsRegroup(h: Bytes, q: Bytes, t: Bytes, o: Bytes, a: Bytes)
    ensures h + q + t + o + a == h + q + (t + o + a)
  {
    Regroup(h + q, t, o);
    Regroup(h + q, t + o, a);
  }

  lemma QuestionSkips(m: Message)
    requires GoodMessage(m)
    ensures SkipName(MessageBytes(m), 12) == Ok(12 + |NameBytes(m.question)|)
  {
    var h, q, t, o, a := HeaderBytes(m), NameBytes(m.question), m.questionTail, NameBytes(m.owner), AnswerBytes(m);
    PartsRegroup(h, q, t, o, a);
    SkipEncoded(h, m.question, t + o + a);
  }

  lemma OwnerSkips(m: Message)
    requires GoodMessage(m)
    ensures SkipName(MessageBytes(m), 16 + |NameBytes(m.question)|) == Ok(AnswerAt(m))
  {
    SkipEncoded(HeaderBytes(m) + NameBytes(m.question) + m.questionTail, m.owner, AnswerBytes(m));
  }

  lemma AnswerFollows(m: Message)
    requires GoodMessage(m)
    ensures AnswerAt(m) <= |MessageBytes(m)| && MessageBytes(m)[AnswerAt(m)..] == AnswerBytes(m)
  {
    SplitsAt(HeaderBytes(m) + NameBytes(m.question) + m.questionTail + NameBytes(m.owner), AnswerBytes(m));
  }

  /** Both names of a message are skipped exactly, and the rest is the answer. */
  lemma MessageSkips(m: Message)
    requires GoodMessage(m)
    ensures var b, q := MessageBytes(m), 12 + |NameBytes(m.question)|;
      SkipName(b, 12) == Ok(q) && SkipName(b, q + 4) == Ok(AnswerAt(m))
    ensures AnswerAt(m) <= |MessageBytes(m)| && MessageBytes(m)[AnswerAt(m)..] == AnswerBytes(m)
  {
    QuestionSkips(m);
    OwnerSkips(m);
    AnswerFollows(m);
  }

  lemma HeaderReads(m: Message)
    requires GoodMessage(m)
    ensures |MessageBytes(m)| >= 12 && U16(MessageBytes(m), 0) == m.txID && U16(MessageBytes(m), 6) == U16(m.counts, 0)
  {
    var b, h := MessageBytes(m), HeaderBytes(m);
    assert b[0] == h[0] && b[1] == h[1] && b[6] == h[6] && b[7] == h[7];
  }

  lemma AnswerReads(m: Message)
    requires GoodMessage(m)
    ensures var a, length := AnswerBytes(m), 1 + 18 * |m.nodes| + |m.statistics|;
      && |a| == 10 + length && U16(a, 0) == 0x21 && U16(a, 8) == length && a[10] == |m.nodes|
      && a[11..] == TableBytes(m.nodes) + m.statistics
  {
  }

  lemma SuffixReads(b: Bytes, at: nat, a: Bytes, i: nat)
    requires at <= |b| && b[at..] == a && i + 2 <= |a|
    ensures at + i + 2 <= |b| && U16(b, at + i) == U16(a, i) && b[at + i] == a[i]
  {
    assert b[at + i] == b[at..][i] && b[at + i + 1] == b[at..][i + 1];
  }

  lemma SuffixSlice(b: Bytes, at: nat, a: Bytes, i: nat, end: nat)
    requires at <= |b| && b[at..] == a && i <= |a| && end == at + |a|
    ensures end == |b| && b[at + i..end] == a[i..]
  {
  }

  /** The data of an answer whose fields are known. */
  lemma FieldsData(b: Bytes, answer: nat, length: nat, data: Bytes)
    requires answer + 10 + length == |b| && U16(b, answer) == 0x21 && U16(b, answer + 8) == length
    requires b[answer + 10..answer + 10 + length] == data
    ensures AnswerData(b, answer) == Ok(data)
  {
  }

  /** What the parser needs to know of an answer `a`. */
  lemma AnswerShape(b: Bytes, answer: nat, a: Bytes, length: nat)
    requires answer <= |b| && b[answer..] == a && |a| == 10 + length
    requires U16(a, 0) == 0x21 && U16(a, 8) == length
    ensures AnswerNames(b, answer) == DataNames(a[10..])
  {
    SuffixReads(b, answer, a, 0);
    SuffixReads(b, answer, a, 8);
    SuffixSlice(b, answer, a, 10, answer + 10 + length);
    FieldsData(b, answer, length, a[10..]);
  }

  lemma DataParses(m: Message)
    requires GoodMessage(m)
    ensures DataNames(AnswerBytes(m)[10..]) == Ok(DeviceNames(RowsOf(m.nodes)))
  {
    AnswerReads(m);
    TableRows(m.nodes, m.statistics);
    assert AnswerBytes(m)[10..][1..] == AnswerBytes(m)[11..];
  }

  lemma AnswerParses(m: Message, b: Bytes, answer: nat)
    requires GoodMessage(m) && answer <= |b| && b[answer..] == AnswerBytes(m)
    ensures AnswerNames(b, answer) == Ok(DeviceNames(RowsOf(m.nodes)))
  {
    AnswerReads(m);
    DataParses(m);
    AnswerShape(b, answer, AnswerBytes(m), 1 + 18 * |m.nodes| + |m.statistics|);
  }

  lemma Combined(b: Bytes, txID: nat, answer: nat, names: seq<string>)
    requires AnswerStart(b, txID) == Ok(answer) && AnswerNames(b, answer) == Ok(names)
    ensures Parsed(b, txID) == Ok(names)
  {
  }

  lemma StartFound(b: Bytes, txID: nat, question: nat, answer: nat)
    requires |b| >= 12 && U16(b, 0) == txID && U16(b, 6) > 0
    requires SkipName(b, 12) == Ok(question) && SkipName(b, question + 4) == Ok(answer)
    ensures AnswerStart(b, txID) == Ok(answer)
  {
  }

  lemma AnswerFound(m: Message)
    requires GoodMessage(m)
    ensures AnswerStart(MessageBytes(m), m.txID) == Ok(AnswerAt(m))
  {
    var q := 12 + |NameBytes(m.question)|;
    MessageSkips(m);
    HeaderReads(m);
    StartFound(MessageBytes(m), m.txID, q, AnswerAt(m));
  }

  lemma AnswerHasNames(m: Message)
    requires GoodMessage(m)
    ensures AnswerNames(MessageBytes(m), AnswerAt(m)) == Ok(DeviceNames(RowsOf(m.nodes)))
  {
    MessageSkips(m);
    AnswerParses(m, MessageBytes(m), AnswerAt(m));
  }

  /** The parser reads back exactly the device names of any message laid out this way. */
  lemma {:induction false} ParsesLaidOutMessage(m: Message)
    requires GoodMessage(m)
    ensures Parsed(MessageBytes(m), m.txID) == Ok(DeviceNames(RowsOf(m.nodes)))
  {
    AnswerFound(m);
    AnswerHasNames(m);
    Combined(MessageBytes(m), m.txID, AnswerAt(m), DeviceNames(RowsOf(m.nodes)));
  }
}
