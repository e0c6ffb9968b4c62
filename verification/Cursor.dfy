/** The opaque page cursor: base64 (section 4 of RFC 4648) of the UTF-8 text `<timestamp>|<id>`, with the timestamp in
  * the form of section 5.6 of RFC 3339 that `Date.toISOString` writes. Decoding is modelled for encoder output: every
  * other text is a bad request.
  */
module Cursor {
  import opened Prelude

  // ----- decimal fields of fixed width

  function Pow10(w: nat): nat {
    if w == 0 then 1 else 10 * Pow10(w - 1)
  }

  predicate IsDigit(c: char) {
    '0' <= c <= '9'
  }

  function Pad(n: nat, w: nat): (s: string)
    ensures |s| == w
    ensures forall c :: c in s ==> IsDigit(c)
  {
    if w == 0 then "" else Pad(n / 10, w - 1) + ['0' + (n % 10) as char]
  }

  function ParseDigits(s: string): Option<nat> {
    if |s| == 0 then Some(0)
    else
      var c := s[|s| - 1];
      var init := ParseDigits(s[..|s| - 1]);
      if init.None? || !IsDigit(c) then None else Some(10 * init.value + (c - '0') as int)
  }

  lemma {:induction false} PadParses(n: nat, w: nat)
    requires n < Pow10(w)
    ensures ParseDigits(Pad(n, w)) == Some(n)
  {
    if w > 0 {
      PadParses(n / 10, w - 1);
      assert Pad(n, w)[..w - 1] == Pad(n / 10, w - 1);
    }
  }

  // ----- the calendar

  const MS_PER_DAY := 86400000

  /** The number of the first day of a year, counted from 1970-01-01. */
  function DayFromYear(y: int): int {
    365 * (y - 1970) + (y - 1969) / 4 - (y - 1901) / 100 + (y - 1601) / 400
  }

  predicate Leap(y: int) {
    y % 4 == 0 && (y % 100 != 0 || y % 400 == 0)
  }

  function YearLength(y: int): nat {
    if Leap(y) then 366 else 365
  }

  lemma Quotient4(a: int)
    ensures a / 4 == (a - 1) / 4 + if a % 4 == 0 then 1 else 0
  {
  }

  lemma Quotient100(a: int)
    ensures a / 100 == (a - 1) / 100 + if a % 100 == 0 then 1 else 0
  {
  }

  lemma Quotient400(a: int)
    ensures a / 400 == (a - 1) / 400 + if a % 400 == 0 then 1 else 0
  {
  }

  lemma Shift4(y: int)
    ensures (y - 1968) % 4 == y % 4
  {
  }

  lemma Shift100(y: int)
    ensures (y - 1900) % 100 == y % 100
  {
  }

  lemma Shift400(y: int)
    ensures (y - 1600) % 400 == y % 400
  {
  }

  lemma CenturyOf400(y: int)
    requires y % 400 == 0
    ensures y % 100 == 0
  {
    var k := 4 * (y / 400);
    assert y == 100 * k;
  }

  lemma FourthOf100(y: int)
    requires y % 100 == 0
    ensures y % 4 == 0
  {
    var k := 25 * (y / 100);
    assert y == 4 * k;
  }

  lemma NextYear(y: int)
    ensures DayFromYear(y + 1) == DayFromYear(y) + YearLength(y)
  {
    Quotient4(y - 1968);
    Quotient100(y - 1900);
    Quotient400(y - 1600);
    Shift4(y);
    Shift100(y);
    Shift400(y);
    if y % 400 == 0 {
      CenturyOf400(y);
    }
    if y % 100 == 0 {
      FourthOf100(y);
    }
  }

  predicate InFourDigitYears(day: int) {
    DayFromYear(0) <= day < DayFromYear(10000)
  }

  /** The year of a day, searched upwards from `from`. */
  function YearOf(day: int, from: nat): (y: nat)
    requires from < 10000 && DayFromYear(from) <= day < DayFromYear(10000)
    ensures y < 10000 && DayFromYear(y) <= day < DayFromYear(y) + YearLength(y)
    decreases 10000 - from
  {
    NextYear(from);
    if day < DayFromYear(from + 1) then from else YearOf(day, from + 1)
  }

  /** Days of the year before month `m`, counting months from zero. */
  function MonthStart(leap: bool, m: nat): nat
    requires m <= 12
  {
    [0, 31, 59, 90, 120, 151, 181, 212, 243, 273, 304, 334, 365][m] + if leap && m >= 2 then 1 else 0
  }

  function MonthOf(leap: bool, dayInYear: nat, from: nat): (m: nat)
    requires from < 12 && MonthStart(leap, from) <= dayInYear < MonthStart(leap, 12)
    ensures m < 12 && MonthStart(leap, m) <= dayInYear < MonthStart(leap, m + 1)
    decreases 12 - from
  {
    if dayInYear < MonthStart(leap, from + 1) then from else MonthOf(leap, dayInYear, from + 1)
  }

  // ----- timestamps

  datatype Fields = Fields(year: nat, month: nat, day: nat, hour: nat, minute: nat, second: nat, milli: nat)

  predicate ValidFields(f: Fields) {
    && f.year < 10000 && 1 <= f.month <= 12
    && 1 <= f.day <= MonthStart(Leap(f.year), f.month) - MonthStart(Leap(f.year), f.month - 1)
    && f.hour < 24 && f.minute < 60 && f.second < 60 && f.milli < 1000
  }

  predicate InRange(t: Time) {
    InFourDigitYears(t / MS_PER_DAY)
  }

  /** The fields of a millisecond of a day of a year. */
  function YearFields(y: nat, dayInYear: int, ms: nat): Fields
    requires 0 <= dayInYear < MonthStart(Leap(y), 12)
  {
    var m := MonthOf(Leap(y), dayInYear, 0);
    Fields(y, m + 1, dayInYear - MonthStart(Leap(y), m) + 1,
           ms / 3600000, ms / 60000 % 60, ms / 1000 % 60, ms % 1000)
  }

  function FieldsOf(day: int, ms: nat): Fields
    requires InFourDigitYears(day)
  {
    var y := YearOf(day, 0);
    YearFields(y, day - DayFromYear(y), ms)
  }

  function ToFields(t: Time): Fields
    requires InRange(t)
  {
    FieldsOf(t / MS_PER_DAY, t % MS_PER_DAY)
  }

  function FromFields(f: Fields): Time
    requires ValidFields(f)
  {
    (DayFromYear(f.year) + MonthStart(Leap(f.year), f.month - 1) + f.day - 1) * MS_PER_DAY
    + f.hour * 3600000 + f.minute * 60000 + f.second * 1000 + f.milli
  }

  lemma FieldsRoundTrip(t: Time)
    requires InRange(t)
    ensures ValidFields(ToFields(t)) && FromFields(ToFields(t)) == t
  {
    var day, ms := t / MS_PER_DAY, t % MS_PER_DAY;
    var f := ToFields(t);
    assert DayFromYear(f.year) + MonthStart(Leap(f.year), f.month - 1) + f.day - 1 == day;
    ClockRoundTrip(ms);
    assert t == day * MS_PER_DAY + ms;
  }

  lemma ClockRoundTrip(ms: nat)
    requires ms < MS_PER_DAY
    ensures ms / 3600000 < 24
    ensures ms / 3600000 * 3600000 + ms / 60000 % 60 * 60000 + ms / 1000 % 60 * 1000 + ms % 1000 == ms
  {
    var s := ms / 1000;
    assert ms / 60000 == s / 60;
    assert ms / 3600000 == s / 60 / 60;
  }

  function DateText(f: Fields): (s: string)
    ensures |s| == 10
  {
    Pad(f.year, 4) + "-" + Pad(f.month, 2) + "-" + Pad(f.day, 2)
  }

  function ClockText(f: Fields): (s: string)
    ensures |s| == 12
  {
    Pad(f.hour, 2) + ":" + Pad(f.minute, 2) + ":" + Pad(f.second, 2) + "." + Pad(f.milli, 3)
  }

  function ToISOString(t: Time): string
    requires InRange(t)
  {
    DateText(ToFields(t)) + "T" + ClockText(ToFields(t)) + "Z"
  }

  function ParseDate(s: string): Option<(nat, nat, nat)>
    requires |s| == 10
  {
    var y, m, d := ParseDigits(s[..4]), ParseDigits(s[5..7]), ParseDigits(s[8..]);
    if y.None? || m.None? || d.None? || s[4] != '-' || s[7] != '-' then None
    else Some((y.value, m.value, d.value))
  }

  function ParseClock(s: string): Option<(nat, nat, nat, nat)>
    requires |s| == 12
  {
    var h, m, sec, ms := ParseDigits(s[..2]), ParseDigits(s[3..5]), ParseDigits(s[6..8]), ParseDigits(s[9..]);
    if h.None? || m.None? || sec.None? || ms.None? || s[2] != ':' || s[5] != ':' || s[8] != '.' then None
    else Some((h.value, m.value, sec.value, ms.value))
  }

  function ParseTimestamp(s: string): Option<Time> {
    if |s| != 24 || s[10] != 'T' || s[23] != 'Z' then None
    else
      var date, clock := ParseDate(s[..10]), ParseClock(s[11..23]);
      if date.None? || clock.None? then None
      else
        var f := Fields(date.value.0, date.value.1, date.value.2,
                        clock.value.0, clock.value.1, clock.value.2, clock.value.3);
        if ValidFields(f) then Some(FromFields(f)) else None
  }

  lemma FieldParses(n: nat, w: nat)
    requires w == 2 || w == 3 || w == 4
    requires n < if w == 2 then 100 else if w == 3 then 1000 else 10000
    ensures ParseDigits(Pad(n, w)) == Some(n)
  {
    assert Pow10(1) == 10;
    assert Pow10(2) == 100;
    assert Pow10(3) == 1000;
    assert Pow10(4) == 10000;
    PadParses(n, w);
  }

  lemma DateParses(f: Fields)
    requires ValidFields(f)
    ensures ParseDate(DateText(f)) == Some((f.year, f.month, f.day))
  {
    var s := DateText(f);
    FieldParses(f.year, 4);
    FieldParses(f.month, 2);
    FieldParses(f.day, 2);
    assert s[..4] == Pad(f.year, 4);
    assert s[5..7] == Pad(f.month, 2);
    assert s[8..] == Pad(f.day, 2);
  }

  lemma ClockParses(f: Fields)
    requires ValidFields(f)
    ensures ParseClock(ClockText(f)) == Some((f.hour, f.minute, f.second, f.milli))
  {
    var s := ClockText(f);
    FieldParses(f.hour, 2);
    FieldParses(f.minute, 2);
    FieldParses(f.second, 2);
    FieldParses(f.milli, 3);
    assert s[..2] == Pad(f.hour, 2);
    assert s[3..5] == Pad(f.minute, 2);
    assert s[6..8] == Pad(f.second, 2);
    assert s[9..] == Pad(f.milli, 3);
  }

  lemma TimestampRoundTrip(t: Time)
    requires InRange(t)
    ensures ParseTimestamp(ToISOString(t)) == Some(t)
  {
    var f := ToFields(t);
    FieldsRoundTrip(t);
    DateParses(f);
    ClockParses(f);
    assert ToISOString(t)[..10] == DateText(f);
    assert ToISOString(t)[11..23] == ClockText(f);
  }

  // ----- base64

  type Byte = b: int | 0 <= b < 256

  function Sextet(v: int): char
    requires 0 <= v < 64
  {
    if v < 26 then 'A' + v as char
    else if v < 52 then 'a' + (v - 26) as char
    else if v < 62 then '0' + (v - 52) as char
    else if v == 62 then '+'
    else '/'
  }

  function Unsextet(c: char): Option<int> {
    if 'A' <= c <= 'Z' then Some((c - 'A') as int)
    else if 'a' <= c <= 'z' then Some((c - 'a') as int + 26)
    else if '0' <= c <= '9' then Some((c - '0') as int + 52)
    else if c == '+' then Some(62)
    else if c == '/' then Some(63)
    else None
  }

  lemma SextetRoundTrip(v: int)
    requires 0 <= v < 64
    ensures Unsextet(Sextet(v)) == Some(v) && Sextet(v) != '='
  {
  }

  /** The four characters of three bytes. */
  function Quad(x: Byte, y: Byte, z: Byte): (s: string)
    ensures |s| == 4
  {
    [Sextet(x / 4), Sextet(x % 4 * 16 + y / 16), Sextet(y % 16 * 4 + z / 64), Sextet(z % 64)]
  }

  /** The three bytes of four sextets. */
  function Unquad(a: int, b: int, c: int, d: int): (bs: seq<Byte>)
    ensures |bs| == 3
  {
    [(a * 4 + b / 16) % 256, (b * 16 + c / 4) % 256, (c * 64 + d) % 256]
  }

  /** A last group of one or two bytes is padded with zero bits and '='. */
  function Base64(bs: seq<Byte>): string {
    if |bs| == 0 then ""
    else if |bs| == 1 then Quad(bs[0], 0, 0)[..2] + "=="
    else if |bs| == 2 then Quad(bs[0], bs[1], 0)[..3] + "="
    else Quad(bs[0], bs[1], bs[2]) + Base64(bs[3..])
  }

  function Unsextets(s: string): Option<seq<Byte>>
    requires |s| == 4
  {
    var a, b, c, d := Unsextet(s[0]), Unsextet(s[1]), Unsextet(s[2]), Unsextet(s[3]);
    if a.None? || b.None? || c.None? || d.None? then None else Some(Unquad(a.value, b.value, c.value, d.value))
  }

  function Unbase64(s: string): Option<seq<Byte>> {
    if |s| == 0 then Some([])
    else if |s| < 4 then None
    else if |s| == 4 && s[2..] == "==" then
      var bs := Unsextets(s[..2] + "AA");
      if bs.None? then None else Some(bs.value[..1])
    else if |s| == 4 && s[3] == '=' then
      var bs := Unsextets(s[..3] + "A");
      if bs.None? then None else Some(bs.value[..2])
    else
      var bs, rest := Unsextets(s[..4]), Unbase64(s[4..]);
      if bs.None? || rest.None? then None else Some(bs.value + rest.value)
  }

  lemma FirstByte(b: int, m: int)
    requires 0 <= b < 256 && 0 <= m < 16
    ensures (b / 4 * 4 + (b % 4 * 16 + m) / 16) % 256 == b
  {
    assert (b % 4 * 16 + m) / 16 == b % 4;
  }

  lemma HighBits(v: int, m: int)
    requires 0 <= v && 0 <= m < 4
    ensures (v * 4 + m) / 4 == v
  {
  }

  lemma LowByte(hi: int, b: int)
    requires 0 <= hi && 0 <= b < 256
    ensures (hi * 256 + b) % 256 == b
  {
  }

  lemma SecondByte(hi: int, b: int, m: int)
    requires 0 <= hi < 4 && 0 <= b < 256 && 0 <= m < 4
    ensures ((hi * 16 + b / 16) * 16 + (b % 16 * 4 + m) / 4) % 256 == b
  {
    HighBits(b % 16, m);
    assert (hi * 16 + b / 16) * 16 + b % 16 == hi * 256 + b;
    LowByte(hi, b);
  }

  lemma ThirdByte(hi: int, b: int)
    requires 0 <= hi < 16 && 0 <= b < 256
    ensures ((hi * 4 + b / 64) * 64 + b % 64) % 256 == b
  {
    assert (hi * 4 + b / 64) * 64 + b % 64 == hi * 256 + b;
    LowByte(hi, b);
  }

  lemma QuadRoundTrip(x: Byte, y: Byte, z: Byte)
    ensures Unsextets(Quad(x, y, z)) == Some([x, y, z])
    ensures Quad(x, y, z)[2] != '=' && Quad(x, y, z)[3] != '='
    ensures z == 0 ==> Quad(x, y, z)[3] == 'A'
    ensures y == z == 0 ==> Quad(x, y, z)[2] == 'A'
  {
    SextetRoundTrip(x / 4);
    SextetRoundTrip(x % 4 * 16 + y / 16);
    SextetRoundTrip(y % 16 * 4 + z / 64);
    SextetRoundTrip(z % 64);
    FirstByte(x, y / 16);
    SecondByte(x % 4, y, z / 64);
    ThirdByte(y % 16, z);
  }

  lemma OneByte(x: Byte)
    ensures Unbase64(Base64([x])) == Some([x])
  {
    QuadRoundTrip(x, 0, 0);
    assert Base64([x])[..2] + "AA" == Quad(x, 0, 0);
    assert [x, 0, 0][..1] == [x];
  }

  lemma TwoBytes(x: Byte, y: Byte)
    ensures Unbase64(Base64([x, y])) == Some([x, y])
  {
    QuadRoundTrip(x, y, 0);
    assert Base64([x, y])[..3] + "A" == Quad(x, y, 0);
    assert [x, y, 0][..2] == [x, y];
  }

  /** Four characters without padding decode on their own. */
  lemma QuadThenRest(q: string, rest: string)
    requires |q| == 4 && q[2] != '=' && q[3] != '='
    ensures Unbase64(q + rest) ==
      if Unsextets(q).None? || Unbase64(rest).None? then None
      else Some(Unsextets(q).value + Unbase64(rest).value)
  {
    var s := q + rest;
    assert s[..4] == q && s[4..] == rest;
    assert s[2] == q[2] && s[3] == q[3];
  }

  lemma {:induction false} Base64RoundTrip(bs: seq<Byte>)
    ensures Unbase64(Base64(bs)) == Some(bs)
  {
    if |bs| == 1 {
      OneByte(bs[0]);
      assert bs == [bs[0]];
    } else if |bs| == 2 {
      TwoBytes(bs[0], bs[1]);
      assert bs == [bs[0], bs[1]];
    } else if |bs| > 2 {
      QuadRoundTrip(bs[0], bs[1], bs[2]);
      Base64RoundTrip(bs[3..]);
      QuadThenRest(Quad(bs[0], bs[1], bs[2]), Base64(bs[3..]));
      assert [bs[0], bs[1], bs[2]] + bs[3..] == bs;
    }
  }

  // ----- UTF-8, for ASCII text

  predicate Ascii(s: string) {
    forall i :: 0 <= i < |s| ==> s[i] as int < 128
  }

  function Utf8(s: string): seq<Byte>
    requires Ascii(s)
  {
    seq<Byte>(|s|, i requires 0 <= i < |s| => s[i] as int)
  }

  function FromUtf8(bs: seq<Byte>): Option<string> {
    if exists b :: b in bs && b >= 128 then None
    else Some(seq(|bs|, i requires 0 <= i < |bs| => (bs[i] % 128) as char))
  }

  lemma Utf8RoundTrip(s: string)
    requires Ascii(s)
    ensures FromUtf8(Utf8(s)) == Some(s)
  {
    assert FromUtf8(Utf8(s)).Some? ==> FromUtf8(Utf8(s)).value == s;
  }

  // ----- the cursor

  function Split(s: string): (parts: seq<string>)
    ensures |parts| > 0
  {
    if |s| == 0 then [""]
    else
      var rest := Split(s[1..]);
      if s[0] == '|' then [""] + rest else [[s[0]] + rest[0]] + rest[1..]
  }

  lemma {:induction false} SplitPlain(s: string)
    requires '|' !in s
    ensures Split(s) == [s]
  {
    if |s| > 0 {
      SplitPlain(s[1..]);
      assert [s[0]] + s[1..] == s;
    }
  }

  lemma {:induction false} SplitPair(a: string, b: string)
    requires '|' !in a && '|' !in b
    ensures Split(a + "|" + b) == [a, b]
  {
    var s := a + "|" + b;
    if |a| == 0 {
      assert s[1..] == b;
      SplitPlain(b);
    } else {
      assert s[1..] == a[1..] + "|" + b;
      SplitPair(a[1..], b);
      assert [a[0]] + a[1..] == a;
    }
  }

  predicate Encodable(createdAt: Time, id: string) {
    InRange(createdAt) && |id| > 0 && Ascii(id) && '|' !in id
  }

  predicate Plain(s: string) {
    forall i :: 0 <= i < |s| ==> s[i] as int < 128 && s[i] != '|'
  }

  lemma PlainParts(f: Fields)
    ensures Plain(DateText(f)) && Plain(ClockText(f))
  {
    PlainPad(f.year, 4);
    PlainPad(f.month, 2);
    PlainPad(f.day, 2);
    PlainPad(f.hour, 2);
    PlainPad(f.minute, 2);
    PlainPad(f.second, 2);
    PlainPad(f.milli, 3);
  }

  lemma PlainPad(n: nat, w: nat)
    ensures Plain(Pad(n, w))
  {
    forall i | 0 <= i < w
      ensures Pad(n, w)[i] as int < 128 && Pad(n, w)[i] != '|'
    {
      assert Pad(n, w)[i] in Pad(n, w);
    }
  }

  lemma TimestampPlain(t: Time)
    requires InRange(t)
    ensures Ascii(ToISOString(t)) && '|' !in ToISOString(t) && |ToISOString(t)| == 24
  {
    var d, c := DateText(ToFields(t)), ClockText(ToFields(t));
    PlainParts(ToFields(t));
    PlainJoin(d, "T");
    PlainJoin(d + "T", c);
    PlainJoin(d + "T" + c, "Z");
  }

  lemma PlainJoin(a: string, b: string)
    requires Plain(a) && Plain(b)
    ensures Plain(a + b)
  {
  }

  function CursorText(createdAt: Time, id: string): string
    requires Encodable(createdAt, id)
  {
    ToISOString(createdAt) + "|" + id
  }

  function EncodeCursor(createdAt: Time, id: string): string
    requires Encodable(createdAt, id)
  {
    TimestampPlain(createdAt);
    Base64(Utf8(CursorText(createdAt, id)))
  }

  function ParseCursorText(text: string): Result<(Time, string)> {
    var parts := Split(text);
    if |parts| != 2 || |parts[0]| == 0 || |parts[1]| == 0 then Err(BadRequest)
    else
      var createdAt := ParseTimestamp(parts[0]);
      if createdAt.None? then Err(BadRequest) else Ok((createdAt.value, parts[1]))
  }

  function DecodeCursor(cursor: string): Result<(Time, string)> {
    var bytes := Unbase64(cursor);
    var text := if bytes.None? then None else FromUtf8(bytes.value);
    if text.None? then Err(BadRequest) else ParseCursorText(text.value)
  }

  lemma PairParses(stamp: string, id: string, t: Time)
    requires '|' !in stamp && '|' !in id && |stamp| > 0 && |id| > 0
    requires ParseTimestamp(stamp) == Some(t)
    ensures ParseCursorText(stamp + "|" + id) == Ok((t, id))
  {
    SplitPair(stamp, id);
  }

  lemma TextDecodes(text: string, position: (Time, string))
    requires Ascii(text) && text != "" && ParseCursorText(text) == Ok(position)
    ensures DecodeCursor(Base64(Utf8(text))) == Ok(position) && Base64(Utf8(text)) != ""
  {
    Base64RoundTrip(Utf8(text));
    Utf8RoundTrip(text);
  }

  lemma PairDecodes(stamp: string, id: string, t: Time)
    requires Ascii(stamp) && Ascii(id) && '|' !in stamp && '|' !in id && |stamp| > 0 && |id| > 0
    requires ParseTimestamp(stamp) == Some(t)
    ensures DecodeCursor(Base64(Utf8(stamp + "|" + id))) == Ok((t, id))
    ensures Base64(Utf8(stamp + "|" + id)) != ""
  {
    PairParses(stamp, id, t);
    TextDecodes(stamp + "|" + id, (t, id));
  }

  /** The cursor of a row gives back the row's position, and is not the empty text that means "no cursor". */
  lemma CursorRoundTrip(createdAt: Time, id: string)
    requires Encodable(createdAt, id)
    ensures DecodeCursor(EncodeCursor(createdAt, id)) == Ok((createdAt, id))
    ensures EncodeCursor(createdAt, id) != ""
  {
    TimestampPlain(createdAt);
    TimestampRoundTrip(createdAt);
    PairDecodes(ToISOString(createdAt), id, createdAt);
  }
}
