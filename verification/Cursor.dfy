/** The opaque page cursor: base64url over `<RFC 3339 timestamp>|<id>`. */
module Cursor {
  import opened Orders
  import opened Text

  // Unpadded base64url (section 5 of RFC 4648)

  function EncodeSextet(v: nat): char
    requires v < 64
  {
    if v < 26 then (v + 'A' as int) as char
    else if v < 52 then (v - 26 + 'a' as int) as char
    else if v < 62 then (v - 52 + '0' as int) as char
    else if v == 62 then '-' else '_'
  }

  function DecodeSextet(c: char): Option<nat> {
    if 'A' <= c <= 'Z' then Some(c as int - 'A' as int)
    else if 'a' <= c <= 'z' then Some(c as int - 'a' as int + 26)
    else if '0' <= c <= '9' then Some(c as int - '0' as int + 52)
    else if c == '-' then Some(62)
    else if c == '_' then Some(63)
    else None
  }

  predicate IsBytes(s: string) { forall i :: 0 <= i < |s| ==> s[i] as int < 256 }

  function EncodeGroup(a: nat, b: nat, c: nat): string
    requires a < 256 && b < 256 && c < 256
  {
    [EncodeSextet(a / 4), EncodeSextet(a % 4 * 16 + b / 16), EncodeSextet(b % 16 * 4 + c / 64), EncodeSextet(c % 64)]
  }

  function Base64Encode(s: string): string
    requires IsBytes(s)
  {
    if |s| == 0 then ""
    else
      var a := s[0] as int;
      if |s| == 1 then [EncodeSextet(a / 4), EncodeSextet(a % 4 * 16)]
      else
        var b := s[1] as int;
        if |s| == 2 then [EncodeSextet(a / 4), EncodeSextet(a % 4 * 16 + b / 16), EncodeSextet(b % 16 * 4)]
        else
          var c := s[2] as int;
          EncodeGroup(a, b, c) + Base64Encode(s[3..])
  }

  function DecodeGroups(t: string): Option<string> {
    if |t| == 0 then Some("")
    else if |t| == 1 then None
    else
      var p, q := DecodeSextet(t[0]), DecodeSextet(t[1]);
      if p.None? || q.None? then None
      else
        var first := (p.value * 4 + q.value / 16) as char;
        if |t| == 2 then Some([first])
        else
          var r := DecodeSextet(t[2]);
          if r.None? then None
          else
            var second := (q.value % 16 * 16 + r.value / 4) as char;
            if |t| == 3 then Some([first, second])
            else
              var s := DecodeSextet(t[3]);
              if s.None? then None
              else
                match DecodeGroups(t[4..])
                case None => None
                case Some(rest) => Some([first, second, (r.value % 4 * 64 + s.value) as char] + rest)
  }

  function StripLineBreaks(t: string): string {
    if t == [] then []
    else if t[0] == '\r' || t[0] == '\n' then StripLineBreaks(t[1..])
    else [t[0]] + StripLineBreaks(t[1..])
  }

  /** Go's decoder skips line breaks wherever they stand. */
  /** Line breaks are dropped wherever they stand, and nothing else is. */
  lemma {:induction false} LineBreaksDropped(a: string, c: char, b: string)
    ensures StripLineBreaks(a + [c] + b) == StripLineBreaks(a) + (if c == '\r' || c == '\n' then [] else [c]) + StripLineBreaks(b)
  {
    if a == [] {
      assert ([c] + b)[1..] == b && a + [c] + b == [c] + b;
    } else {
      assert (a + [c] + b)[1..] == a[1..] + [c] + b;
      LineBreaksDropped(a[1..], c, b);
    }
  }

  function Base64Decode(t: string): Option<string> { DecodeGroups(StripLineBreaks(t)) }

  lemma SextetRoundTrip(v: nat)
    requires v < 64
    ensures DecodeSextet(EncodeSextet(v)) == Some(v)
  {
  }

  /** The encoder only emits letters of its alphabet. */
  lemma {:induction false} EncodedSextets(s: string)
    requires IsBytes(s)
    ensures forall i :: 0 <= i < |Base64Encode(s)| ==> DecodeSextet(Base64Encode(s)[i]).Some?
  {
    if |s| >= 3 { EncodedSextets(s[3..]); }
  }

  lemma {:induction false} NoLineBreaks(t: string)
    requires forall i :: 0 <= i < |t| ==> DecodeSextet(t[i]).Some?
    ensures StripLineBreaks(t) == t
  {
    if t != [] { NoLineBreaks(t[1..]); }
  }

  /** The four sextets of three bytes carry all their bits. */
  lemma SextetBits(a: nat, b: nat, c: nat)
    requires a < 256 && b < 256 && c < 256
    ensures a / 4 * 4 + (a % 4 * 16 + b / 16) / 16 == a
    ensures (a % 4 * 16 + b / 16) % 16 * 16 + (b % 16 * 4 + c / 64) / 4 == b
    ensures (b % 16 * 4 + c / 64) % 4 * 64 + c % 64 == c
  {
  }

  lemma FirstGroup(a: nat, b: nat, c: nat, rest: string)
    requires a < 256 && b < 256 && c < 256
    ensures DecodeGroups(EncodeGroup(a, b, c) + rest)
      == match DecodeGroups(rest)
         case None => None
         case Some(r) => Some([a as char, b as char, c as char] + r)
  {
    SextetRoundTrip(a / 4);
    SextetRoundTrip(a % 4 * 16 + b / 16);
    SextetRoundTrip(b % 16 * 4 + c / 64);
    SextetRoundTrip(c % 64);
    SextetBits(a, b, c);
    assert (EncodeGroup(a, b, c) + rest)[4..] == rest;
  }

  /** The group of the first three bytes, from the prefix they form. */
  lemma EncodeLong(s: string)
    requires IsBytes(s) && |s| >= 3
    ensures var head, tail := s[..3], s[3..];
      Base64Encode(s) == EncodeGroup(head[0] as int, head[1] as int, head[2] as int) + Base64Encode(tail)
  {
    var head, tail := s[..3], s[3..];
    assert head[0] == s[0] && head[1] == s[1] && head[2] == s[2];
    var a, b, c := s[0] as int, s[1] as int, s[2] as int;
    assert Base64Encode(s) == EncodeGroup(a, b, c) + Base64Encode(tail);
  }

  lemma EncodeShort(s: string)
    requires IsBytes(s) && 1 <= |s| <= 2
    ensures |s| == 1 ==> Base64Encode(s) == [EncodeSextet(s[0] as int / 4), EncodeSextet(s[0] as int % 4 * 16)]
    ensures |s| == 2 ==>
      var a, b := s[0] as int, s[1] as int;
      Base64Encode(s) == [EncodeSextet(a / 4), EncodeSextet(a % 4 * 16 + b / 16), EncodeSextet(b % 16 * 4)]
  {
  }

  ghost predicate RoundTrips(s: string)
    requires IsBytes(s)
  {
    DecodeGroups(Base64Encode(s)) == Some(s)
  }

  lemma GroupThen(a: nat, b: nat, c: nat, rest: string, s: string)
    requires a < 256 && b < 256 && c < 256 && DecodeGroups(rest) == Some(s)
    ensures DecodeGroups(EncodeGroup(a, b, c) + rest) == Some([a as char, b as char, c as char] + s)
  {
    FirstGroup(a, b, c, rest);
  }

  lemma FirstThree(s: string)
    requires |s| >= 3
    ensures s == [s[0], s[1], s[2]] + s[3..]
  {
  }

  lemma LongRoundTrip(s: string)
    requires IsBytes(s) && |s| >= 3 && RoundTrips(s[3..])
    ensures RoundTrips(s)
  {
    FirstThree(s);
    EncodeLong(s);
    GroupThen(s[0] as int, s[1] as int, s[2] as int, Base64Encode(s[3..]), s[3..]);
  }

  lemma {:induction false} GroupsRoundTrip(s: string)
    requires IsBytes(s)
    ensures RoundTrips(s)
  {
    if |s| >= 3 {
      GroupsRoundTrip(s[3..]);
      LongRoundTrip(s);
    } else if |s| == 2 {
      EncodeShort(s);
      ShortGroups(s[0] as int, s[1] as int);
      assert s == [s[0], s[1]];
    } else if |s| == 1 {
      EncodeShort(s);
      ShortGroups(s[0] as int, 0);
      assert s == [s[0]];
    }
  }

  lemma ShortGroups(a: nat, b: nat)
    requires a < 256 && b < 256
    ensures DecodeGroups([EncodeSextet(a / 4), EncodeSextet(a % 4 * 16)]) == Some([a as char])
    ensures DecodeGroups([EncodeSextet(a / 4), EncodeSextet(a % 4 * 16 + b / 16), EncodeSextet(b % 16 * 4)])
      == Some([a as char, b as char])
  {
    SextetRoundTrip(a / 4);
    SextetRoundTrip(a % 4 * 16);
    SextetRoundTrip(a % 4 * 16 + b / 16);
    SextetRoundTrip(b % 16 * 4);
    SextetBits(a, b, 0);
  }

  // UTC timestamps (section 5.6 of RFC 3339), fraction without trailing zeros

  datatype Time = Time(year: nat, month: nat, day: nat, hour: nat, minute: nat, second: nat, nano: nat)

  predicate IsLeap(y: nat) { y % 4 == 0 && (y % 100 != 0 || y % 400 == 0) }

  function DaysIn(month: nat, year: nat): nat {
    if month == 2 then (if IsLeap(year) then 29 else 28)
    else if month in {4, 6, 9, 11} then 30 else 31
  }

  predicate ValidTime(t: Time) {
    && t.year <= 9999 && 1 <= t.month <= 12 && 1 <= t.day <= DaysIn(t.month, t.year)
    && t.hour < 24 && t.minute < 60 && t.second < 60 && t.nano < 1_000_000_000
  }

  function Pow10(n: nat): nat { if n == 0 then 1 else 10 * Pow10(n - 1) }

  function Pad(n: nat, width: nat): (s: string)
    ensures |s| == width && AllDigits(s)
  {
    if width == 0 then "" else Pad(n / 10, width - 1) + [DigitChar(n % 10)]
  }

  function DropZeros(s: string): (r: string)
    ensures r <= s
    ensures |r| > 0 ==> r[|r| - 1] != '0'
  {
    if s != [] && s[|s| - 1] == '0' then DropZeros(s[..|s| - 1]) else s
  }

  function FormatFraction(nano: nat): string {
    if nano == 0 then "" else "." + DropZeros(Pad(nano, 9))
  }

  /** Format(time.RFC3339Nano) of a UTC time. */
  function FormatTime(t: Time): string {
    Pad(t.year, 4) + "-" + Pad(t.month, 2) + "-" + Pad(t.day, 2) + "T"
    + Pad(t.hour, 2) + ":" + Pad(t.minute, 2) + ":" + Pad(t.second, 2) + FormatFraction(t.nano) + "Z"
  }

  function ParseDigits(s: string): Option<nat> { if AllDigits(s) then Some(DigitsValue(s)) else None }

  /** What follows the seconds: an optional fraction, read to nine digits, then Z. */
  function ParseFraction(s: string): Option<nat> {
    if s == "Z" then Some(0)
    else if |s| < 3 || s[|s| - 1] != 'Z' || (s[0] != '.' && s[0] != ',') then None
    else
      var digits := s[1..|s| - 1];
      if !AllDigits(digits) then None
      else
        var kept := Take(digits, 9);
        Some(DigitsValue(kept) * Pow10(9 - |kept|))
  }

  function ParseTime(s: string): Option<Time> {
    if |s| < 20 || s[4] != '-' || s[7] != '-' || s[10] != 'T' || s[13] != ':' || s[16] != ':' then None
    else
      match (ParseDigits(s[0..4]), ParseDigits(s[5..7]), ParseDigits(s[8..10]), ParseDigits(s[11..13]),
             ParseDigits(s[14..16]), ParseDigits(s[17..19]), ParseFraction(s[19..]))
      case (Some(y), Some(mo), Some(d), Some(h), Some(mi), Some(se), Some(n)) =>
        var t := Time(y, mo, d, h, mi, se, n);
        if ValidTime(t) then Some(t) else None
      case _ => None
  }

  /** A fraction follows a point or a comma and counts to nine digits: missing ones are zeros, further ones are dropped. */
  lemma {:induction false} FractionRead(mark: char, digits: string)
    requires (mark == '.' || mark == ',') && digits != "" && AllDigits(digits)
    ensures ParseFraction([mark] + digits + "Z") == Some(DigitsValue(Take(digits + "000000000", 9)))
  {
    var s, kept, n := [mark] + digits + "Z", Take(digits, 9), if |digits| > 9 then 0 else 9 - |digits|;
    assert s[1..|s| - 1] == digits && s[0] == mark && s[|s| - 1] == 'Z';
    assert Take(digits + "000000000", 9) == kept + Zeros(n);
    ZerosValue(kept, n);
  }

  function Zeros(n: nat): (s: string)
    ensures |s| == n && AllDigits(s) && forall i :: 0 <= i < n ==> s[i] == '0'
  {
    if n == 0 then "" else Zeros(n - 1) + ['0']
  }

  lemma {:induction false} ZerosValue(s: string, n: nat)
    requires AllDigits(s)
    ensures AllDigits(s + Zeros(n)) && DigitsValue(s + Zeros(n)) == DigitsValue(s) * Pow10(n)
  {
    if n == 0 {
      assert s + Zeros(0) == s;
    } else {
      ZerosValue(s, n - 1);
      var longer := s + Zeros(n);
      assert longer[..|longer| - 1] == s + Zeros(n - 1);
      TimesTen(DigitsValue(s), Pow10(n - 1));
    }
  }

  lemma {:induction false} PadValue(n: nat, width: nat)
    requires n < Pow10(width)
    ensures DigitsValue(Pad(n, width)) == n
  {
    if width > 0 {
      PadValue(n / 10, width - 1);
      var s := Pad(n, width);
      assert s[..|s| - 1] == Pad(n / 10, width - 1);
    }
  }

  lemma TimesTen(v: nat, p: nat)
    ensures v * p * 10 == v * (10 * p)
  {
  }

  lemma {:induction false} DropZerosShorter(s: string)
    ensures |DropZeros(s)| <= |s|
    ensures AllDigits(s) ==> AllDigits(DropZeros(s))
  {
    if s != [] && s[|s| - 1] == '0' { DropZerosShorter(s[..|s| - 1]); }
  }

  lemma {:induction false} DropZerosValue(s: string)
    requires AllDigits(s)
    ensures |DropZeros(s)| <= |s| && AllDigits(DropZeros(s))
    ensures DigitsValue(s) == DigitsValue(DropZeros(s)) * Pow10(|s| - |DropZeros(s)|)
  {
    DropZerosShorter(s);
    if s != [] && s[|s| - 1] == '0' {
      var t := s[..|s| - 1];
      DropZerosShorter(t);
      DropZerosValue(t);
      TimesTen(DigitsValue(DropZeros(s)), Pow10(|t| - |DropZeros(s)|));
    }
  }

  lemma FractionRoundTrip(nano: nat)
    requires nano < 1_000_000_000
    ensures ParseFraction(FormatFraction(nano) + "Z") == Some(nano)
  {
    if nano > 0 {
      var full := Pad(nano, 9);
      var digits := DropZeros(full);
      assert Pow10(9) == 1_000_000_000 by {
        assert Pow10(3) == 1000;
        assert Pow10(6) == 1_000_000;
      }
      PadValue(nano, 9);
      DropZerosValue(full);
      var s := FormatFraction(nano) + "Z";
      assert s == "." + digits + "Z";
      assert s[1..|s| - 1] == digits;
      assert Take(digits, 9) == digits;
    }
  }

  lemma Between(p: string, x: string, r: string)
    ensures (p + x + r)[|p|..|p| + |x|] == x
  {
  }

  lemma TimeSlices(y: string, mo: string, d: string, h: string, mi: string, se: string, f: string)
    requires |y| == 4 && |mo| == |d| == |h| == |mi| == |se| == 2
    ensures var s := y + "-" + mo + "-" + d + "T" + h + ":" + mi + ":" + se + f;
      && |s| == 19 + |f|
      && s[4] == '-' && s[7] == '-' && s[10] == 'T' && s[13] == ':' && s[16] == ':'
      && s[0..4] == y && s[5..7] == mo && s[8..10] == d && s[11..13] == h && s[14..16] == mi && s[17..19] == se
      && s[19..] == f
  {
    var p1 := y + "-";
    var p2 := p1 + mo + "-";
    var p3 := p2 + d + "T";
    var p4 := p3 + h + ":";
    var p5 := p4 + mi + ":";
    var s := p5 + se + f;
    Between("", y, s[4..]);
    assert s == "" + y + s[4..];
    Between(p1, mo, s[7..]);
    assert s == p1 + mo + s[7..];
    Between(p2, d, s[10..]);
    assert s == p2 + d + s[10..];
    Between(p3, h, s[13..]);
    assert s == p3 + h + s[13..];
    Between(p4, mi, s[16..]);
    assert s == p4 + mi + s[16..];
    Between(p5, se, f);
  }

  lemma FieldsRoundTrip(t: Time)
    requires ValidTime(t)
    ensures DigitsValue(Pad(t.year, 4)) == t.year && DigitsValue(Pad(t.month, 2)) == t.month
    ensures DigitsValue(Pad(t.day, 2)) == t.day && DigitsValue(Pad(t.hour, 2)) == t.hour
    ensures DigitsValue(Pad(t.minute, 2)) == t.minute && DigitsValue(Pad(t.second, 2)) == t.second
  {
    assert Pow10(2) == 100 && Pow10(4) == 10000 by { assert Pow10(1) == 10; assert Pow10(3) == 1000; }
    PadValue(t.year, 4);
    PadValue(t.month, 2);
    PadValue(t.day, 2);
    PadValue(t.hour, 2);
    PadValue(t.minute, 2);
    PadValue(t.second, 2);
  }

  lemma TimeRoundTrip(t: Time)
    requires ValidTime(t)
    ensures ParseTime(FormatTime(t)) == Some(t)
  {
    FieldsRoundTrip(t);
    FractionRoundTrip(t.nano);
    var tail := FormatFraction(t.nano) + "Z";
    TimeSlices(Pad(t.year, 4), Pad(t.month, 2), Pad(t.day, 2), Pad(t.hour, 2), Pad(t.minute, 2), Pad(t.second, 2), tail);
    assert FormatTime(t) == Pad(t.year, 4) + "-" + Pad(t.month, 2) + "-" + Pad(t.day, 2) + "T"
      + Pad(t.hour, 2) + ":" + Pad(t.minute, 2) + ":" + Pad(t.second, 2) + tail;
  }

  predicate TimeChar(c: char) { IsDigit(c) || c == '-' || c == ':' || c == 'T' || c == '.' || c == 'Z' }

  lemma FormatTimeChars(t: Time)
    ensures forall i :: 0 <= i < |FormatTime(t)| ==> TimeChar(FormatTime(t)[i])
  {
    var f := FormatFraction(t.nano);
    forall i | 0 <= i < |f| ensures TimeChar(f[i]) {
      if i > 0 { assert f[i] == DropZeros(Pad(t.nano, 9))[i - 1] == Pad(t.nano, 9)[i - 1]; }
    }
  }

  // The cursor

  function CursorPayload(t: Time, id: string): (p: string)
    requires IsBytes(id)
    ensures IsBytes(p)
  {
    FormatTimeChars(t);
    FormatTime(t) + "|" + id
  }

  function EncodeCursor(t: Time, id: string): string
    requires IsBytes(id)
  {
    Base64Encode(CursorPayload(t, id))
  }

  function DecodeCursor(value: string): Option<(Time, string)> {
    match Base64Decode(value)
    case None => None
    case Some(payload) =>
      var bar := IndexOf(payload, '|');
      if bar == |payload| then None
      else match ParseTime(payload[..bar])
        case None => None
        case Some(t) => Some((t, payload[bar + 1..]))
  }

  /** The text in a cursor: the timestamp, a bar, and the id. */
  lemma {:induction false} CursorText(t: Time, id: string)
    requires IsBytes(id)
    ensures Base64Decode(EncodeCursor(t, id)) == Some(FormatTime(t) + "|" + id)
  {
    var payload := CursorPayload(t, id);
    GroupsRoundTrip(payload);
    EncodedSextets(payload);
    NoLineBreaks(Base64Encode(payload));
  }

  /** Decoding an encoded cursor gives back the same instant and id, whatever bytes the id contains. */
  lemma {:induction false} CursorRoundTrip(t: Time, id: string)
    requires ValidTime(t) && IsBytes(id)
    ensures DecodeCursor(EncodeCursor(t, id)) == Some((t, id))
  {
    var payload := CursorPayload(t, id);
    CursorText(t, id);
    FormatTimeChars(t);
    IndexOfJoin(FormatTime(t), '|', id);
    assert payload[..|FormatTime(t)|] == FormatTime(t);
    assert payload[|FormatTime(t)| + 1..] == id;
    TimeRoundTrip(t);
  }

  // Known texts

  /** Test vectors of section 10 of RFC 4648, and the two letters that differ in the URL alphabet. */
  lemma KnownEncodings()
    ensures Base64Encode("") == "" && Base64Encode("f") == "Zg" && Base64Encode("fo") == "Zm8"
    ensures Base64Encode("foo") == "Zm9v" && EncodeSextet(62) == '-' && EncodeSextet(63) == '_'
  {
    assert "foo"[3..] == "";
  }

  /** Where the fields of a timestamp stand, each with all its digits, and what separates them. */
  lemma {:induction false} FieldPlaces(t: Time)
    requires ValidTime(t)
    ensures var s := FormatTime(t);
      && |s| >= 20 && s[4] == '-' && s[7] == '-' && s[10] == 'T' && s[13] == ':' && s[16] == ':' && s[|s| - 1] == 'Z'
      && Reads(s[0..4], t.year) && Reads(s[5..7], t.month) && Reads(s[8..10], t.day)
      && Reads(s[11..13], t.hour) && Reads(s[14..16], t.minute) && Reads(s[17..19], t.second)
  {
    FieldsRoundTrip(t);
    var tail := FormatFraction(t.nano) + "Z";
    TimeSlices(Pad(t.year, 4), Pad(t.month, 2), Pad(t.day, 2), Pad(t.hour, 2), Pad(t.minute, 2), Pad(t.second, 2), tail);
    assert FormatTime(t) == Pad(t.year, 4) + "-" + Pad(t.month, 2) + "-" + Pad(t.day, 2) + "T"
      + Pad(t.hour, 2) + ":" + Pad(t.minute, 2) + ":" + Pad(t.second, 2) + tail;
  }

  predicate Reads(s: string, n: nat) { AllDigits(s) && DigitsValue(s) == n }
}
