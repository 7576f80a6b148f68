/**
 * The part of `datetime.strptime` the Naver parsers use: the directives
 * `%Y`, `%m`, `%d`, `%p`, `%I` and `%M`, each the regular expression CPython
 * compiles for it, tried alternative by alternative, and the rule that the
 * whole string must be consumed. Every field here is followed by a literal
 * that no field can start with (a separator or the end), so the first
 * alternative that matches is the one the backtracking regex settles on.
 * Digits are ASCII.
 */
module Strptime {
  import opened Wrappers
  import opened Text
  import Dates

  /** A field's value and how many characters it took. */
  datatype Field = Field(value: nat, width: nat)

  predicate DigitAt(s: string, i: int) { 0 <= i < |s| && IsAsciiDigit(s[i]) }

  function DigitAtValue(s: string, i: int): nat
    requires DigitAt(s, i)
  {
    DigitValue(s[i])
  }

  /** `%Y`: exactly four digits. */
  function Year(s: string): (r: Option<Field>)
    ensures r.Some? ==> r.value.width == 4 && r.value.value < 10000
  {
    if DigitAt(s, 0) && DigitAt(s, 1) && DigitAt(s, 2) && DigitAt(s, 3) then
      Some(Field(DigitAtValue(s, 0) * 1000 + DigitAtValue(s, 1) * 100 + DigitAtValue(s, 2) * 10 + DigitAtValue(s, 3), 4))
    else None
  }

  /** `%m` and `%I`: `1[0-2]|0[1-9]|[1-9]`. */
  function OneToTwelve(s: string): (r: Option<Field>)
    ensures r.Some? ==> 1 <= r.value.value <= 12 && 1 <= r.value.width <= 2
  {
    if |s| >= 2 && s[0] == '1' && '0' <= s[1] <= '2' then Some(Field(10 + DigitValue(s[1]), 2))
    else if |s| >= 2 && s[0] == '0' && '1' <= s[1] <= '9' then Some(Field(DigitValue(s[1]), 2))
    else if |s| >= 1 && '1' <= s[0] <= '9' then Some(Field(DigitValue(s[0]), 1))
    else None
  }

  /** `%d`: `3[01]|[12]\d|0[1-9]|[1-9]| [1-9]`. */
  function Day(s: string): (r: Option<Field>)
    ensures r.Some? ==> 1 <= r.value.value <= 31 && 1 <= r.value.width <= 2
  {
    if |s| >= 2 && s[0] == '3' && '0' <= s[1] <= '1' then Some(Field(30 + DigitValue(s[1]), 2))
    else if |s| >= 2 && '1' <= s[0] <= '2' && IsAsciiDigit(s[1]) then Some(Field(DigitValue(s[0]) * 10 + DigitValue(s[1]), 2))
    else if |s| >= 2 && s[0] == '0' && '1' <= s[1] <= '9' then Some(Field(DigitValue(s[1]), 2))
    else if |s| >= 1 && '1' <= s[0] <= '9' then Some(Field(DigitValue(s[0]), 1))
    else if |s| >= 2 && s[0] == ' ' && '1' <= s[1] <= '9' then Some(Field(DigitValue(s[1]), 2))
    else None
  }

  /** `%M`: `[0-5]\d|\d`. */
  function Minute(s: string): (r: Option<Field>)
    ensures r.Some? ==> r.value.value <= 59 && 1 <= r.value.width <= 2
  {
    if |s| >= 2 && '0' <= s[0] <= '5' && IsAsciiDigit(s[1]) then Some(Field(DigitValue(s[0]) * 10 + DigitValue(s[1]), 2))
    else if |s| >= 1 && IsAsciiDigit(s[0]) then Some(Field(DigitValue(s[0]), 1))
    else None
  }

  /** `%p` in the C locale, case-insensitive: `am` (0) or `pm` (1). */
  function AmPm(s: string): (r: Option<Field>)
    ensures r.Some? ==> r.value.value <= 1 && r.value.width == 2
  {
    if |s| >= 2 && Lower(s[..2]) == "am" then Some(Field(0, 2))
    else if |s| >= 2 && Lower(s[..2]) == "pm" then Some(Field(1, 2))
    else None
  }

  /** The calendar date and the wall-clock hour and minute a format yields. */
  datatype Parsed = Parsed(year: nat, month: nat, day: nat, hour: nat, minute: nat)

  /** `s[i]` is the literal `c`. */
  predicate LitAt(s: string, i: int, c: char) { 0 <= i < |s| && s[i] == c }

  /** `%Y<sep>%m<sep>%d`, ending at `end`, or None. */
  function YmdAt(s: string, sep: char): Option<(Parsed, nat)>
  {
    match Year(s)
    case None => None
    case Some(y) =>
      if !LitAt(s, 4, sep) then None
      else match OneToTwelve(s[5..])
        case None => None
        case Some(m) =>
          var i := 5 + m.width;
          if !LitAt(s, i, sep) then None
          else match Day(s[i + 1..])
            case None => None
            case Some(d) => Some((Parsed(y.value, m.value, d.value, 0, 0), i + 1 + d.width))
  }

  /** `strptime(s, "%Y-%m-%d")` before the calendar check. */
  function DashYmd(s: string): Option<Parsed> {
    match YmdAt(s, '-')
    case None => None
    case Some(r) => if r.1 == |s| then Some(r.0) else None
  }

  /** `strptime(s, "%Y.%m.%d.")` before the calendar check. */
  function DotYmd(s: string): Option<Parsed> {
    match YmdAt(s, '.')
    case None => None
    case Some(r) => if LitAt(s, r.1, '.') && r.1 + 1 == |s| then Some(r.0) else None
  }

  /** The length of the run of whitespace at the start of `s` (`\s+` when positive). */
  function SpaceRun(s: string): nat { RunLength(s, IsSpace) }

  /** `strptime(s, "%Y.%m.%d. %p %I:%M")` before the calendar check. */
  function DotYmdAmPmHm(s: string): Option<Parsed> {
    match YmdAt(s, '.')
    case None => None
    case Some(r) =>
      match TimeTail(s[r.1..])
      case None => None
      case Some(hm) => Some(Parsed(r.0.year, r.0.month, r.0.day, hm.0, hm.1))
  }

  /** `. %p %I:%M` to the end: the literal dot, `\s+`, the meridiem, `\s+`, the clock. */
  function TimeTail(t: string): Option<(nat, nat)> {
    if !LitAt(t, 0, '.') then None
    else
      var w := SpaceRun(t[1..]);
      if w == 0 then None else MeridiemClock(t[1 + w..])
  }

  /** `%p %I:%M` to the end, as a 24-hour time. */
  function MeridiemClock(u: string): Option<(nat, nat)> {
    match AmPm(u)
    case None => None
    case Some(p) =>
      var w := SpaceRun(u[2..]);
      if w == 0 then None else Clock(u[2 + w..], p.value)
  }

  /** `%I:%M` to the end, with the meridiem `pm` already read. */
  function Clock(v: string, pm: nat): Option<(nat, nat)> {
    match OneToTwelve(v)
    case None => None
    case Some(h) =>
      if !LitAt(v, h.width, ':') then None
      else match Minute(v[h.width + 1..])
        case None => None
        case Some(mi) =>
          if h.width + 1 + mi.width != |v| then None
          else Some((Hour24(h.value, pm), mi.value))
  }

  /** `%I` with `%p`: 12 AM is hour 0, PM adds 12 except to 12. */
  function Hour24(h12: nat, pm: nat): (h: nat)
    requires 1 <= h12 <= 12
    ensures h < 24
    ensures pm == 0 ==> h == h12 % 12
    ensures pm != 0 ==> h == h12 % 12 + 12
  {
    if pm == 0 then (if h12 == 12 then 0 else h12)
    else (if h12 == 12 then 12 else h12 + 12)
  }

  /** The parsed wall time as a KST timestamp, if it is a real date (else `ValueError`). */
  function KstOf(p: Parsed): Option<int> {
    if Dates.ValidDate(p.year, p.month, p.day) && p.hour < 24 && p.minute < 60
    then Some(Dates.KstTimestamp(p.year, p.month, p.day, p.hour, p.minute, 0))
    else None
  }

  // ---- renderings that parse back ----

  /** A number below 100 as two digits. */
  function Pad2(n: nat): (s: string)
    requires n < 100
    ensures |s| == 2 && IsAsciiDigit(s[0]) && IsAsciiDigit(s[1])
  {
    [DigitChar(n / 10), DigitChar(n % 10)]
  }

  /** A number below 10000 as four digits. */
  function Pad4(n: nat): (s: string)
    requires n < 10000
    ensures |s| == 4
  {
    Pad2(n / 100) + Pad2(n % 100)
  }

  lemma DigitRoundTrip(d: nat)
    requires d < 10
    ensures DigitValue(DigitChar(d)) == d
  {
  }

  lemma YearOfPad4(y: nat, rest: string)
    requires y < 10000
    ensures Year(Pad4(y) + rest) == Some(Field(y, 4))
  {
    var s := Pad4(y) + rest;
    DigitRoundTrip(y / 100 / 10);
    DigitRoundTrip(y / 100 % 10);
    DigitRoundTrip(y % 100 / 10);
    DigitRoundTrip(y % 100 % 10);
    assert s[0] == DigitChar(y / 100 / 10) && s[1] == DigitChar(y / 100 % 10);
    assert s[2] == DigitChar(y % 100 / 10) && s[3] == DigitChar(y % 100 % 10);
  }

  lemma MonthOfPad2(m: nat, rest: string)
    requires 1 <= m <= 12
    ensures OneToTwelve(Pad2(m) + rest) == Some(Field(m, 2))
  {
    DigitRoundTrip(m / 10);
    DigitRoundTrip(m % 10);
  }

  lemma DayOfPad2(d: nat, rest: string)
    requires 1 <= d <= 31
    ensures Day(Pad2(d) + rest) == Some(Field(d, 2))
  {
    DigitRoundTrip(d / 10);
    DigitRoundTrip(d % 10);
  }

  /** The rendering `YYYY<sep>MM<sep>DD` of a date. */
  function YmdText(y: nat, m: nat, d: nat, sep: char): string
    requires y < 10000 && 1 <= m <= 12 && 1 <= d <= 31
  {
    Pad4(y) + [sep] + Pad2(m) + [sep] + Pad2(d)
  }

  lemma {:induction false} YmdAtText(y: nat, m: nat, d: nat, sep: char, rest: string)
    requires y < 10000 && 1 <= m <= 12 && 1 <= d <= 31
    ensures YmdAt(YmdText(y, m, d, sep) + rest, sep) == Some((Parsed(y, m, d, 0, 0), 10))
  {
    var s := YmdText(y, m, d, sep) + rest;
    YearOfPad4(y, [sep] + Pad2(m) + [sep] + Pad2(d) + rest);
    assert s == Pad4(y) + ([sep] + Pad2(m) + [sep] + Pad2(d) + rest);
    assert s[4] == sep;
    assert s[5..] == Pad2(m) + ([sep] + Pad2(d) + rest);
    MonthOfPad2(m, [sep] + Pad2(d) + rest);
    assert s[7] == sep;
    assert s[8..] == Pad2(d) + rest;
    DayOfPad2(d, rest);
  }

  /** `strptime` reads back a date written `YYYY-MM-DD`. */
  lemma DashYmdText(y: nat, m: nat, d: nat)
    requires y < 10000 && 1 <= m <= 12 && 1 <= d <= 31
    ensures DashYmd(YmdText(y, m, d, '-')) == Some(Parsed(y, m, d, 0, 0))
  {
    YmdAtText(y, m, d, '-', "");
    assert YmdText(y, m, d, '-') + "" == YmdText(y, m, d, '-');
  }

  /** `strptime` reads back a date written `YYYY.MM.DD.`. */
  lemma DotYmdText(y: nat, m: nat, d: nat)
    requires y < 10000 && 1 <= m <= 12 && 1 <= d <= 31
    ensures DotYmd(YmdText(y, m, d, '.') + ".") == Some(Parsed(y, m, d, 0, 0))
  {
    YmdAtText(y, m, d, '.', ".");
  }

  /** The rendering `YYYY.MM.DD. AM hh:mm` (or `PM`) of a wall-clock time. */
  function DotAmPmText(y: nat, m: nat, d: nat, pm: bool, h12: nat, mi: nat): string
    requires y < 10000 && 1 <= m <= 12 && 1 <= d <= 31 && 1 <= h12 <= 12 && mi < 60
  {
    YmdText(y, m, d, '.') + (". " + ((if pm then "PM" else "AM") + " " + (Pad2(h12) + ":" + Pad2(mi))))
  }

  lemma MinuteOfPad2(mi: nat)
    requires mi < 60
    ensures Minute(Pad2(mi)) == Some(Field(mi, 2))
  {
    DigitRoundTrip(mi / 10);
    DigitRoundTrip(mi % 10);
  }

  lemma SpaceRunOne(x: string)
    requires x != [] && !IsSpace(x[0])
    ensures SpaceRun(" " + x) == 1
  {
    assert (" " + x)[1..] == x;
  }

  lemma ClockText(pm: nat, h12: nat, mi: nat)
    requires 1 <= h12 <= 12 && mi < 60
    ensures Clock(Pad2(h12) + ":" + Pad2(mi), pm) == Some((Hour24(h12, pm), mi))
  {
    var v := Pad2(h12) + ":" + Pad2(mi);
    MonthOfPad2(h12, ":" + Pad2(mi));
    assert v == Pad2(h12) + (":" + Pad2(mi));
    assert v[3..] == Pad2(mi);
    MinuteOfPad2(mi);
  }

  lemma AmPmOf(pm: bool, rest: string)
    ensures AmPm((if pm then "PM" else "AM") + rest) == Some(Field(if pm then 1 else 0, 2))
  {
    var u := (if pm then "PM" else "AM") + rest;
    var l := Lower(u[..2]);
    assert l[0] == LowerChar(u[0]) && l[1] == LowerChar(u[1]);
    if pm {
      assert l == "pm";
    } else {
      assert l == "am";
    }
  }

  lemma MeridiemText(pm: bool, c: string)
    requires c != [] && !IsSpace(c[0])
    ensures MeridiemClock((if pm then "PM" else "AM") + " " + c) == Clock(c, if pm then 1 else 0)
  {
    var u := (if pm then "PM" else "AM") + " " + c;
    assert u == (if pm then "PM" else "AM") + (" " + c);
    AmPmOf(pm, " " + c);
    assert u[2..] == " " + c;
    SpaceRunOne(c);
    assert u[3..] == c;
  }


  /** `strptime` reads back a time written `YYYY.MM.DD. AM hh:mm`, on the 24-hour clock. */
  lemma TimeTailOf(u: string)
    requires u != [] && !IsSpace(u[0])
    ensures TimeTail(". " + u) == MeridiemClock(u)
  {
    assert (". " + u)[1..] == " " + u;
    SpaceRunOne(u);
    assert (". " + u)[2..] == u;
  }

  lemma {:induction false} DotAmPmTextParses(y: nat, m: nat, d: nat, pm: bool, h12: nat, mi: nat)
    requires y < 10000 && 1 <= m <= 12 && 1 <= d <= 31 && 1 <= h12 <= 12 && mi < 60
    ensures DotYmdAmPmHm(DotAmPmText(y, m, d, pm, h12, mi))
      == Some(Parsed(y, m, d, Hour24(h12, if pm then 1 else 0), mi))
  {
    var u := (if pm then "PM" else "AM") + " " + (Pad2(h12) + ":" + Pad2(mi));
    var ymd := YmdText(y, m, d, '.');
    var s := DotAmPmText(y, m, d, pm, h12, mi);
    assert |ymd| == 10;
    assert s == ymd + (". " + u);
    YmdAtText(y, m, d, '.', ". " + u);
    assert s[10..] == ". " + u;
    AmPmTailText(pm, h12, mi);
    DotParsesFrom(s, Parsed(y, m, d, 0, 0), (Hour24(h12, if pm then 1 else 0), mi));
  }

  /** The part after the date: the dot, the meridiem and the clock. */
  lemma AmPmTailText(pm: bool, h12: nat, mi: nat)
    requires 1 <= h12 <= 12 && mi < 60
    ensures TimeTail(". " + ((if pm then "PM" else "AM") + " " + (Pad2(h12) + ":" + Pad2(mi))))
      == Some((Hour24(h12, if pm then 1 else 0), mi))
  {
    var c := Pad2(h12) + ":" + Pad2(mi);
    var u := (if pm then "PM" else "AM") + " " + c;
    TimeTailOf(u);
    MeridiemText(pm, c);
    ClockText(if pm then 1 else 0, h12, mi);
  }

  lemma DotParsesFrom(s: string, p: Parsed, hm: (nat, nat))
    requires YmdAt(s, '.') == Some((p, 10)) && 10 <= |s| && TimeTail(s[10..]) == Some(hm)
    ensures DotYmdAmPmHm(s) == Some(Parsed(p.year, p.month, p.day, hm.0, hm.1))
  {
  }



  /** A two-digit day followed by more digits leaves data unconverted. */
  lemma DashYmdRejectsTrailing()
    ensures DashYmd("2024-05-031") == None
  {
    var s := "2024-05-031";
    assert s == YmdText(2024, 5, 3, '-') + "1" by {
      assert Pad2(20) == "20" && Pad2(24) == "24" && Pad2(5) == "05" && Pad2(3) == "03";
    }
    YmdAtText(2024, 5, 3, '-', "1");
  }
}
