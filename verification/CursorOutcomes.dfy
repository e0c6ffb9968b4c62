/** The texts of the cursor against independent descriptions: base64 by its alphabet and 24-bit groups (section 4 of
  * RFC 4648), dates by counting days from the epoch, and the layout of the timestamp (section 5.6 of RFC 3339).
  */
module CursorOutcomes {
  import opened Prelude
  import opened Cursor

  // ----- base64

  /** The alphabet: A to Z, a to z, 0 to 9, then '+' and '/'. */
  lemma AlphabetIs(v: int)
    requires 0 <= v < 64
    ensures Sextet(0) == 'A' && Sextet(25) == 'Z' && Sextet(26) == 'a' && Sextet(51) == 'z'
    ensures Sextet(52) == '0' && Sextet(61) == '9' && Sextet(62) == '+' && Sextet(63) == '/'
    ensures v !in {25, 51, 61, 62, 63} ==> Sextet(v + 1) as int == Sextet(v) as int + 1
  {
  }

  /** The 24 bits of a group of three bytes; missing bytes are zero. */
  ghost function GroupBits(bs: seq<Byte>, k: nat): int {
    At(bs, 3 * k) * 65536 + At(bs, 3 * k + 1) * 256 + At(bs, 3 * k + 2)
  }

  ghost function At(bs: seq<Byte>, i: nat): int {
    if i < |bs| then bs[i] else 0
  }

  /** Four six-bit numbers with the same 24 bits, as characters; '=' stands for one that carries no byte. */
  ghost predicate Spells(text: string, bits: int, bytes: nat, a: int, b: int, c: int, d: int) {
    && 0 <= a < 64 && 0 <= b < 64 && 0 <= c < 64 && 0 <= d < 64
    && a * 262144 + b * 4096 + c * 64 + d == bits
    && |text| == 4 && text[0] == Sextet(a) && text[1] == Sextet(b)
    && text[2] == (if bytes >= 2 then Sextet(c) else '=')
    && text[3] == (if bytes >= 3 then Sextet(d) else '=')
  }

  lemma QuadSpells(x: Byte, y: Byte, z: Byte) returns (a: int, b: int, c: int, d: int)
    ensures Spells(Quad(x, y, z), x * 65536 + y * 256 + z, 3, a, b, c, d)
    ensures z == 0 ==> d == 0
    ensures y == 0 && z == 0 ==> c == 0
  {
    a, b, c, d := x / 4, x % 4 * 16 + y / 16, y % 16 * 4 + z / 64, z % 64;
  }

  lemma Thirds(n: nat)
    requires n >= 3
    ensures (n + 2) / 3 == (n - 3 + 2) / 3 + 1
  {
  }

  lemma {:induction false} Base64Length(bs: seq<Byte>)
    ensures |Base64(bs)| == (|bs| + 2) / 3 * 4
  {
    if |bs| >= 3 {
      Base64Length(bs[3..]);
      Thirds(|bs|);
    }
  }

  lemma FirstGroup(bs: seq<Byte>) returns (a: int, b: int, c: int, d: int)
    requires |bs| > 0
    ensures |Base64(bs)| >= 4 && Spells(Base64(bs)[..4], GroupBits(bs, 0), |bs|, a, b, c, d)
  {
    a, b, c, d := QuadSpells(bs[0], At(bs, 1), At(bs, 2));
    if |bs| >= 3 {
      assert Base64(bs)[..4] == Quad(bs[0], bs[1], bs[2]);
    }
  }

  lemma LaterSlice(first: string, rest: string, k: nat)
    requires |first| == 4 && k > 0 && 4 * k <= |rest|
    ensures (first + rest)[4 * k..4 * k + 4] == rest[4 * (k - 1)..4 * (k - 1) + 4]
  {
  }

  lemma LaterBits(bs: seq<Byte>, k: nat)
    requires |bs| > 3 && k > 0
    ensures GroupBits(bs, k) == GroupBits(bs[3..], k - 1)
  {
  }

  /** The encoding has four characters for every group of three bytes, begun or full, and they spell its 24 bits. */
  lemma {:induction false} Base64Is(bs: seq<Byte>, k: nat) returns (a: int, b: int, c: int, d: int)
    requires 3 * k < |bs|
    ensures |Base64(bs)| == (|bs| + 2) / 3 * 4 && 4 * k + 4 <= |Base64(bs)|
    ensures Spells(Base64(bs)[4 * k..4 * k + 4], GroupBits(bs, k), |bs| - 3 * k, a, b, c, d)
  {
    Base64Length(bs);
    if k == 0 {
      a, b, c, d := FirstGroup(bs);
    } else {
      a, b, c, d := Base64Is(bs[3..], k - 1);
      LaterBits(bs, k);
      LaterSlice(Quad(bs[0], bs[1], bs[2]), Base64(bs[3..]), k);
    }
  }

  // ----- the calendar

  /** Every fourth year is a leap year, but of the full centuries only every fourth. */
  function DaysInMonth(year: int, month: int): nat {
    if month == 2 then (if year % 400 == 0 || (year % 4 == 0 && year % 100 != 0) then 29 else 28)
    else if month in {4, 6, 9, 11} then 30
    else 31
  }

  /** The date after a date. */
  function NextDate(f: Fields): Fields {
    if f.day < DaysInMonth(f.year, f.month) then f.(day := f.day + 1)
    else if f.month < 12 then f.(month := f.month + 1, day := 1)
    else f.(year := f.year + 1, month := 1, day := 1)
  }

  lemma MonthLength(year: nat, month: nat)
    requires 1 <= month <= 12
    ensures DaysInMonth(year, month) == MonthStart(Leap(year), month) - MonthStart(Leap(year), month - 1)
  {
  }

  lemma {:induction false} YearsGrow(a: int, b: int)
    requires a <= b
    ensures DayFromYear(a) <= DayFromYear(b)
    decreases b - a
  {
    if a < b {
      NextYear(a);
      YearsGrow(a + 1, b);
    }
  }

  lemma YearsApart(y: nat, z: nat)
    requires y < z < 10000
    ensures DayFromYear(y) + YearLength(y) <= DayFromYear(z)
  {
    NextYear(y);
    YearsGrow(y + 1, z);
  }

  lemma YearIsUnique(day: int, y: nat)
    requires InFourDigitYears(day) && y < 10000 && DayFromYear(y) <= day < DayFromYear(y) + YearLength(y)
    ensures YearOf(day, 0) == y
  {
    var z := YearOf(day, 0);
    if y < z {
      YearsApart(y, z);
    } else if z < y {
      YearsApart(z, y);
    }
  }

  lemma MonthsGrow(leap: bool, a: nat, b: nat)
    requires a <= b <= 12
    ensures MonthStart(leap, a) <= MonthStart(leap, b)
  {
  }

  lemma MonthIsUnique(leap: bool, dayInYear: nat, m: nat)
    requires m < 12 && MonthStart(leap, m) <= dayInYear < MonthStart(leap, m + 1)
    requires dayInYear < MonthStart(leap, 12)
    ensures MonthOf(leap, dayInYear, 0) == m
  {
    var n := MonthOf(leap, dayInYear, 0);
    if m < n {
      MonthsGrow(leap, m + 1, n);
    } else if n < m {
      MonthsGrow(leap, n + 1, m);
    }
  }

  lemma YearInRange(f: Fields)
    requires ValidFields(f)
    ensures var day := DayFromYear(f.year) + MonthStart(Leap(f.year), f.month - 1) + f.day - 1;
      InFourDigitYears(day) && YearOf(day, 0) == f.year
  {
    var day := DayFromYear(f.year) + MonthStart(Leap(f.year), f.month - 1) + f.day - 1;
    assert DayFromYear(f.year) <= day < DayFromYear(f.year) + YearLength(f.year) by {
      assert MonthStart(Leap(f.year), f.month) <= MonthStart(Leap(f.year), 12) == YearLength(f.year);
    }
    YearsGrow(0, f.year);
    NextYear(f.year);
    YearsGrow(f.year + 1, 10000);
    YearIsUnique(day, f.year);
  }

  /** The clock of a time of day. */
  lemma ClockIs(h: nat, m: nat, s: nat, ms: nat)
    requires h < 24 && m < 60 && s < 60 && ms < 1000
    ensures var t := h * 3600000 + m * 60000 + s * 1000 + ms;
      0 <= t < MS_PER_DAY && t / 3600000 == h && t / 60000 % 60 == m && t / 1000 % 60 == s && t % 1000 == ms
  {
    var t := h * 3600000 + m * 60000 + s * 1000 + ms;
    assert t / 1000 == h * 3600 + m * 60 + s;
    assert t / 60000 == h * 60 + m;
  }

  lemma SplitDay(day: int, ms: nat)
    requires ms < MS_PER_DAY
    ensures (day * MS_PER_DAY + ms) / MS_PER_DAY == day && (day * MS_PER_DAY + ms) % MS_PER_DAY == ms
  {
  }

  ghost function DayOf(f: Fields): int
    requires ValidFields(f)
  {
    DayFromYear(f.year) + MonthStart(Leap(f.year), f.month - 1) + f.day - 1
  }

  ghost function ClockOf(f: Fields): nat {
    f.hour * 3600000 + f.minute * 60000 + f.second * 1000 + f.milli
  }

  lemma FromFieldsIs(f: Fields)
    requires ValidFields(f)
    ensures ClockOf(f) < MS_PER_DAY && FromFields(f) == DayOf(f) * MS_PER_DAY + ClockOf(f)
    ensures FromFields(f) / MS_PER_DAY == DayOf(f) && FromFields(f) % MS_PER_DAY == ClockOf(f)
  {
    ClockIs(f.hour, f.minute, f.second, f.milli);
    SplitDay(DayOf(f), ClockOf(f));
  }

  ghost function DayInYear(f: Fields): int
    requires ValidFields(f)
  {
    MonthStart(Leap(f.year), f.month - 1) + f.day - 1
  }

  lemma MonthPart(f: Fields)
    requires ValidFields(f)
    ensures 0 <= DayInYear(f) < MonthStart(Leap(f.year), 12)
    ensures MonthOf(Leap(f.year), DayInYear(f), 0) == f.month - 1
  {
    MonthsGrow(Leap(f.year), f.month, 12);
    MonthIsUnique(Leap(f.year), DayInYear(f), f.month - 1);
  }

  lemma DatePart(f: Fields, day: int)
    requires ValidFields(f) && day == DayOf(f)
    ensures InFourDigitYears(day) && YearOf(day, 0) == f.year && day - DayFromYear(f.year) == DayInYear(f)
  {
    YearInRange(f);
  }

  ghost predicate HasClock(f: Fields, ms: nat) {
    ms / 3600000 == f.hour && ms / 60000 % 60 == f.minute && ms / 1000 % 60 == f.second && ms % 1000 == f.milli
  }

  lemma ClockPart(f: Fields, ms: nat)
    requires ValidFields(f) && ms == ClockOf(f)
    ensures HasClock(f, ms)
  {
    ClockIs(f.hour, f.minute, f.second, f.milli);
  }

  lemma YearFieldsIs(f: Fields, ms: nat)
    requires ValidFields(f) && HasClock(f, ms)
    ensures 0 <= DayInYear(f) < MonthStart(Leap(f.year), 12) && YearFields(f.year, DayInYear(f), ms) == f
  {
    MonthPart(f);
  }

  lemma FieldsOfYear(day: int, y: nat, dayInYear: int, ms: nat)
    requires InFourDigitYears(day) && YearOf(day, 0) == y && day - DayFromYear(y) == dayInYear
    requires 0 <= dayInYear < MonthStart(Leap(y), 12)
    ensures FieldsOf(day, ms) == YearFields(y, dayInYear, ms)
  {
  }

  /** Fields and times are one to one: the fields of a time are the only ones with that time. */
  lemma FieldsAreUnique(f: Fields, t: Time)
    requires ValidFields(f) && t == FromFields(f)
    ensures InRange(t) && ToFields(t) == f
  {
    FromFieldsIs(f);
    DatePart(f, t / MS_PER_DAY);
    ClockPart(f, t % MS_PER_DAY);
    YearFieldsIs(f, t % MS_PER_DAY);
    FieldsOfYear(t / MS_PER_DAY, f.year, DayInYear(f), t % MS_PER_DAY);
  }

  /** Time zero is midnight of the first of January 1970. */
  lemma Epoch()
    ensures InRange(0) && ToFields(0) == Fields(1970, 1, 1, 0, 0, 0, 0)
  {
    FieldsAreUnique(Fields(1970, 1, 1, 0, 0, 0, 0), 0);
  }

  lemma NextDateIs(f: Fields)
    requires ValidFields(f) && NextDate(f).year < 10000
    ensures ValidFields(NextDate(f)) && DayOf(NextDate(f)) == DayOf(f) + 1 && ClockOf(NextDate(f)) == ClockOf(f)
  {
    MonthLength(f.year, f.month);
    NextYear(f.year);
    if f.day == DaysInMonth(f.year, f.month) && f.month < 12 {
      MonthLength(f.year, f.month + 1);
    }
  }

  lemma LastDate(f: Fields)
    requires ValidFields(f) && NextDate(f).year >= 10000
    ensures DayOf(f) == DayFromYear(10000) - 1
  {
    MonthLength(f.year, f.month);
    NextYear(f.year);
  }

  lemma NotAfterLast(f: Fields, t: Time)
    requires ValidFields(f) && t == FromFields(f) && InRange(t + MS_PER_DAY)
    ensures NextDate(f).year < 10000
  {
    FromFieldsIs(f);
    SplitDay(DayOf(f) + 1, ClockOf(f));
    assert DayOf(f) + 1 < DayFromYear(10000);
    if NextDate(f).year >= 10000 {
      LastDate(f);
    }
  }

  lemma NextTime(f: Fields, t: Time)
    requires ValidFields(f) && t == FromFields(f) && NextDate(f).year < 10000
    ensures ValidFields(NextDate(f)) && t + MS_PER_DAY == FromFields(NextDate(f))
  {
    NextDateIs(f);
    FromFieldsIs(f);
    FromFieldsIs(NextDate(f));
  }

  /** A day later is the next date of the calendar, at the same time of day. With the epoch this fixes the date of every
    * time.
    */
  lemma DayLater(t: Time)
    requires InRange(t) && InRange(t + MS_PER_DAY)
    ensures ToFields(t + MS_PER_DAY) == NextDate(ToFields(t))
  {
    var f := ToFields(t);
    FieldsRoundTrip(t);
    NotAfterLast(f, t);
    NextTime(f, t);
    FieldsAreUnique(NextDate(f), t + MS_PER_DAY);
  }

  /** Within a day the clock counts milliseconds. */
  lemma ClockCounts(t: Time)
    requires InRange(t)
    ensures var f := ToFields(t);
      f.hour < 24 && f.minute < 60 && f.second < 60 && f.milli < 1000 && ClockOf(f) == t % MS_PER_DAY
  {
    FieldsRoundTrip(t);
    FromFieldsIs(ToFields(t));
  }

  // ----- the layout

  /** The decimal digit of a number at a place, counted from the end. */
  ghost function Digit(n: nat, place: nat): nat {
    if place == 0 then n % 10 else Digit(n / 10, place - 1)
  }

  lemma {:induction false} PadDigit(n: nat, w: nat, place: nat)
    requires place < w
    ensures Pad(n, w)[w - 1 - place] as int - '0' as int == Digit(n, place)
  {
    if place > 0 {
      PadDigit(n / 10, w - 1, place - 1);
    }
  }

  lemma DateLayout(f: Fields, s: string)
    requires s == DateText(f)
    ensures |s| == 10 && s[4] == s[7] == '-'
    ensures s[..4] == Pad(f.year, 4) && s[5..7] == Pad(f.month, 2) && s[8..10] == Pad(f.day, 2)
  {
  }

  lemma ClockLayout(f: Fields, s: string)
    requires s == ClockText(f)
    ensures |s| == 12 && s[2] == s[5] == ':' && s[8] == '.'
    ensures s[..2] == Pad(f.hour, 2) && s[3..5] == Pad(f.minute, 2) && s[6..8] == Pad(f.second, 2)
    ensures s[9..12] == Pad(f.milli, 3)
  {
  }

  lemma JoinLayout(date: string, clock: string, s: string)
    requires |date| == 10 && |clock| == 12 && s == date + "T" + clock + "Z"
    ensures |s| == 24 && s[10] == 'T' && s[23] == 'Z' && s[..10] == date && s[11..23] == clock
  {
  }

  /** Date, 'T', time of day, and 'Z' for UTC. */
  lemma TimestampLayout(t: Time)
    requires InRange(t)
    ensures var s := ToISOString(t);
      && |s| == 24 && s[10] == 'T' && s[23] == 'Z'
      && s[..10] == DateText(ToFields(t)) && s[11..23] == ClockText(ToFields(t))
  {
    JoinLayout(DateText(ToFields(t)), ClockText(ToFields(t)), ToISOString(t));
  }

  /** The bytes behind a cursor are the characters of timestamp, bar and id. */
  lemma CursorBytes(createdAt: Time, id: string)
    requires Encodable(createdAt, id)
    ensures var text := ToISOString(createdAt) + "|" + id;
      && Unbase64(EncodeCursor(createdAt, id)).Some?
      && var bs := Unbase64(EncodeCursor(createdAt, id)).value;
         |bs| == |text| && forall i :: 0 <= i < |text| ==> bs[i] == text[i] as int
  {
    TimestampPlain(createdAt);
    Base64RoundTrip(Utf8(CursorText(createdAt, id)));
  }

  // ----- rejection

  /** One bar, with something on both sides, the first of which is a timestamp. */
  ghost predicate WellFormed(text: string, stamp: string, id: string) {
    text == stamp + "|" + id && '|' !in stamp && '|' !in id && |stamp| > 0 && |id| > 0 && ParseTimestamp(stamp).Some?
  }

  lemma {:induction false} OnePart(s: string)
    requires |Split(s)| == 1
    ensures '|' !in s && Split(s)[0] == s
  {
    if |s| > 0 {
      OnePart(s[1..]);
      assert s == [s[0]] + s[1..];
    }
  }

  lemma {:induction false} TwoParts(s: string)
    requires |Split(s)| == 2
    ensures var parts := Split(s); s == parts[0] + "|" + parts[1] && '|' !in parts[0] && '|' !in parts[1]
  {
    assert s == [s[0]] + s[1..];
    if s[0] == '|' {
      OnePart(s[1..]);
    } else {
      TwoParts(s[1..]);
    }
  }

  /** Exactly the well-formed texts are accepted, with their parts; every other text is a bad request. */
  lemma AcceptedTexts(text: string)
    ensures ParseCursorText(text).Ok? <==> exists stamp, id :: WellFormed(text, stamp, id)
    ensures forall stamp, id | WellFormed(text, stamp, id) ::
      ParseCursorText(text) == Ok((ParseTimestamp(stamp).value, id))
    ensures ParseCursorText(text).Err? ==> ParseCursorText(text).error == BadRequest
  {
    if ParseCursorText(text).Ok? {
      TwoParts(text);
      assert WellFormed(text, Split(text)[0], Split(text)[1]);
    }
    forall stamp, id | WellFormed(text, stamp, id)
      ensures ParseCursorText(text) == Ok((ParseTimestamp(stamp).value, id))
    {
      PairParses(stamp, id, ParseTimestamp(stamp).value);
    }
  }
}
