/**
 * `parse_relative_time` of the Naver source: the publication label Naver
 * shows ("5분 전", "3시간 전", "2일 전", "어제", "2024.05.03.") read as an
 * instant, with `now` injected. Instants are KST-aware datetimes in the
 * source and epoch seconds here; `isoformat` is left out. Every failure of
 * the source, `ValueError` from `int` or `strptime` and `OverflowError` from
 * the date arithmetic alike, is caught and yields `now`.
 */
module NaverTime {
  import opened Wrappers
  import opened Text
  import Dates
  import Strptime

  const MinutesAgo: string := "\U{BD84} \U{C804}"
  const HoursAgo: string := "\U{C2DC}\U{AC04} \U{C804}"
  const DaysAgo: string := "\U{C77C} \U{C804}"
  const Yesterday: string := "\U{C5B4}\U{C81C}"

  /** `now - delta`, or `now` when the result leaves the datetime range (`OverflowError`). */
  function Shift(now: int, delta: int): (r: int)
    ensures Dates.KstInRange(now - delta) ==> r == now - delta
    ensures !Dates.KstInRange(now - delta) ==> r == now
  {
    if Dates.KstInRange(now - delta) then now - delta else now
  }

  /** `int(text.replace(marker, "").strip())` times `unit` seconds before `now`. */
  function Ago(text: string, marker: string, unit: int, now: int): int
    requires |marker| > 0
  {
    match ParseInt(Replace(text, marker, ""))
    case None => now
    case Some(n) => Shift(now, n * unit)
  }

  predicate IsDashOrSpace(c: char) { c == '-' || c == ' ' }

  /** `text.replace(".", "-").strip("- ")`. */
  function DashDate(text: string): string {
    StripBy(Replace(text, ".", "-"), IsDashOrSpace)
  }

  /** Local midnight of the date `strptime(…, "%Y-%m-%d")` reads, or `now` when it raises. */
  function CalendarDate(text: string, now: int): int {
    match Strptime.DashYmd(DashDate(text))
    case None => now
    case Some(p) =>
      if Dates.ValidDate(p.year, p.month, p.day) then Dates.KstTimestamp(p.year, p.month, p.day, 0, 0, 0)
      else now
  }

  /** `parse_relative_time(text)` with `datetime.now(KST)` given as `now`. */
  function ParseRelativeTime(text: string, now: int): int {
    if text == [] then now
    else if Contains(text, MinutesAgo) then Ago(text, MinutesAgo, Dates.SecondsPerMinute, now)
    else if Contains(text, HoursAgo) then Ago(text, HoursAgo, Dates.SecondsPerHour, now)
    else if Contains(text, DaysAgo) then Ago(text, DaysAgo, Dates.SecondsPerDay, now)
    else if Contains(text, Yesterday) then Shift(now, Dates.SecondsPerDay)
    else if Contains(text, ".") && |text| >= 8 then CalendarDate(text, now)
    else now
  }

  // ---- string facts ----

  /** A string lacking one character of `sub` cannot contain `sub`. */
  lemma NotContainsChar(s: string, sub: string, c: char)
    requires c in sub && c !in s
    ensures !Contains(s, sub)
  {
  }

  /** `sub` occurs at the end of `a + sub`. */
  lemma ContainsSuffix(a: string, sub: string)
    ensures Contains(a + sub, sub)
  {
    assert OccursAt(a + sub, sub, |a|);
  }

  /** Removing a marker that only occurs at the end. */
  lemma ReplaceTrailing(a: string, pat: string)
    requires |pat| > 0 && pat[0] !in a
    ensures Replace(a + pat, pat, "") == a
  {
    assert a + pat == a + (pat + "");
    ReplaceSkip(a, pat + "", pat, "");
    ReplaceFront("", pat, "");
  }

  lemma ReplaceOne(c: char, d: char, rep: string)
    ensures Replace([c], [d], rep) == if c == d then rep else [c]
  {
    assert [c][..1] == [c];
    assert [c][1..] == [];
  }

  /** A count followed by a unit label holds no character that is neither a digit nor in the label. */
  lemma CountLacks(n: nat, unit: string, c: char)
    requires !IsAsciiDigit(c) && c !in unit
    ensures c !in NatToString(n) + unit
  {
  }

  // ---- what the parser yields ----

  /** Empty text yields `now`. */
  lemma EmptyIsNow(now: int)
    ensures ParseRelativeTime("", now) == now
  {
  }

  /** "N분 전" yields N minutes before `now`. */
  lemma MinutesAgoText(n: nat, now: int)
    requires Dates.KstInRange(now - 60 * n)
    ensures ParseRelativeTime(NatToString(n) + MinutesAgo, now) == now - 60 * n
  {
    var d := NatToString(n);
    ContainsSuffix(d, MinutesAgo);
    ReplaceTrailing(d, MinutesAgo);
    ParseIntToString(n);
  }

  /** "N시간 전" yields N hours before `now`. */
  lemma HoursAgoText(n: nat, now: int)
    requires Dates.KstInRange(now - 3600 * n)
    ensures ParseRelativeTime(NatToString(n) + HoursAgo, now) == now - 3600 * n
  {
    var d := NatToString(n);
    var t := d + HoursAgo;
    CountLacks(n, HoursAgo, '\U{BD84}');
    NotContainsChar(t, MinutesAgo, '\U{BD84}');
    ContainsSuffix(d, HoursAgo);
    ReplaceTrailing(d, HoursAgo);
    ParseIntToString(n);
  }

  /** "N일 전" yields N days before `now`. */
  lemma DaysAgoText(n: nat, now: int)
    requires Dates.KstInRange(now - 86400 * n)
    ensures ParseRelativeTime(NatToString(n) + DaysAgo, now) == now - 86400 * n
  {
    var d := NatToString(n);
    var t := d + DaysAgo;
    CountLacks(n, DaysAgo, '\U{BD84}');
    CountLacks(n, DaysAgo, '\U{C2DC}');
    NotContainsChar(t, MinutesAgo, '\U{BD84}');
    NotContainsChar(t, HoursAgo, '\U{C2DC}');
    ContainsSuffix(d, DaysAgo);
    ReplaceTrailing(d, DaysAgo);
    ParseIntToString(n);
  }

  /** A relative label whose count is not an integer yields `now`. */
  lemma BadCountIsNow(text: string, now: int)
    requires Contains(text, MinutesAgo)
    requires ParseInt(Replace(text, MinutesAgo, "")) == None
    ensures ParseRelativeTime(text, now) == now
  {
  }

  /** A label that is none of the relative units but mentions "어제" is one day before `now`. */
  lemma YesterdayText(text: string, now: int)
    requires Contains(text, Yesterday)
    requires !Contains(text, MinutesAgo) && !Contains(text, HoursAgo) && !Contains(text, DaysAgo)
    requires Dates.KstInRange(now - 86400)
    ensures ParseRelativeTime(text, now) == now - 86400
  {
  }

  /** "어제" on its own is one day before `now`. */
  lemma YesterdayAlone(now: int)
    requires Dates.KstInRange(now - 86400)
    ensures ParseRelativeTime(Yesterday, now) == now - 86400
  {
    ContainsSuffix("", Yesterday);
    assert "" + Yesterday == Yesterday;
    NotContainsChar(Yesterday, MinutesAgo, '\U{C804}');
    NotContainsChar(Yesterday, HoursAgo, '\U{C804}');
    NotContainsChar(Yesterday, DaysAgo, '\U{C804}');
  }

  lemma DotsToDashes(y: nat, m: nat, d: nat)
    requires y < 10000 && 1 <= m <= 12 && 1 <= d <= 31
    ensures Replace(Strptime.YmdText(y, m, d, '.') + ".", ".", "-") == Strptime.YmdText(y, m, d, '-') + "-"
  {
    var py, pm, pd := Strptime.Pad4(y), Strptime.Pad2(m), Strptime.Pad2(d);
    assert Strptime.Pad4(y) == Strptime.Pad2(y / 100) + Strptime.Pad2(y % 100);
    assert '.' !in py;
    assert '.' !in pm && '.' !in pd;
    ReplaceAbsent(py, ".", "-");
    ReplaceAbsent(pm, ".", "-");
    ReplaceAbsent(pd, ".", "-");
    ReplaceOne('.', '.', "-");
    ReplaceCharAppend(py + "." + pm + "." + pd, ".", '.', "-");
    ReplaceCharAppend(py + "." + pm + ".", pd, '.', "-");
    ReplaceCharAppend(py + "." + pm, ".", '.', "-");
    ReplaceCharAppend(py + ".", pm, '.', "-");
    ReplaceCharAppend(py, ".", '.', "-");
  }

  /** A label made of digits and dots holds none of the relative markers. */
  lemma DigitsAndDotsOnly(t: string)
    requires forall c :: c in t ==> c == '.' || IsAsciiDigit(c)
    ensures !Contains(t, MinutesAgo) && !Contains(t, HoursAgo) && !Contains(t, DaysAgo)
    ensures !Contains(t, Yesterday)
  {
    NotContainsChar(t, MinutesAgo, '\U{C804}');
    NotContainsChar(t, HoursAgo, '\U{C804}');
    NotContainsChar(t, DaysAgo, '\U{C804}');
    NotContainsChar(t, Yesterday, '\U{C5B4}');
  }

  /** The dotted rendering turns into the dashed one, without the trailing dash. */
  lemma DashDateText(y: nat, m: nat, d: nat)
    requires y < 10000 && 1 <= m <= 12 && 1 <= d <= 31
    ensures DashDate(Strptime.YmdText(y, m, d, '.') + ".") == Strptime.YmdText(y, m, d, '-')
  {
    var dash := Strptime.YmdText(y, m, d, '-');
    DotsToDashes(y, m, d);
    var r := dash + "-";
    assert !IsDashOrSpace(r[0]);
    LStripByFixed(r, IsDashOrSpace);
    assert r[..|r| - 1] == dash;
    assert !IsDashOrSpace(dash[|dash| - 1]);
    assert TailRunLength(r[..|r| - 1], IsDashOrSpace) == 0;
  }

  /** A date label "YYYY.MM.DD." yields that date's local midnight in KST. */
  lemma {:induction false} CalendarDateText(y: nat, m: nat, d: nat, now: int)
    requires 1 <= y < 10000 && Dates.ValidDate(y, m, d)
    ensures ParseRelativeTime(Strptime.YmdText(y, m, d, '.') + ".", now) == Dates.KstTimestamp(y, m, d, 0, 0, 0)
  {
    var t := Strptime.YmdText(y, m, d, '.') + ".";
    assert forall c :: c in t ==> c == '.' || IsAsciiDigit(c) by {
      assert Strptime.Pad4(y) == Strptime.Pad2(y / 100) + Strptime.Pad2(y % 100);
    }
    DigitsAndDotsOnly(t);
    ContainsSuffix(Strptime.YmdText(y, m, d, '.'), ".");
    DashDateText(y, m, d);
    Strptime.DashYmdText(y, m, d);
  }

  /** Text that is not empty and matches no rule yields `now`. */
  lemma UnmatchedIsNow(text: string, now: int)
    requires !Contains(text, MinutesAgo) && !Contains(text, HoursAgo) && !Contains(text, DaysAgo)
    requires !Contains(text, Yesterday)
    requires !Contains(text, ".") || |text| < 8
    ensures ParseRelativeTime(text, now) == now
  {
  }

  /** A dated label that is not a real date (the 30th of February, year 0) yields `now`. */
  lemma InvalidDateIsNow(text: string, now: int)
    requires !Contains(text, MinutesAgo) && !Contains(text, HoursAgo) && !Contains(text, DaysAgo)
    requires !Contains(text, Yesterday)
    requires match Strptime.DashYmd(DashDate(text))
      case None => true
      case Some(p) => !Dates.ValidDate(p.year, p.month, p.day)
    ensures ParseRelativeTime(text, now) == now
  {
  }

  /**
   * Whatever the text, the result is `now`, an instant in range shifted by
   * the label's amount, or local midnight of a real date: the function never fails.
   */
  lemma ResultInRange(text: string, now: int)
    requires Dates.KstInRange(now)
    ensures var r := ParseRelativeTime(text, now);
      Dates.KstInRange(r)
      || exists y, m, d | Dates.ValidDate(y, m, d) :: r == Dates.KstTimestamp(y, m, d, 0, 0, 0)
  {
    var r := ParseRelativeTime(text, now);
    if !Dates.KstInRange(r) {
      assert !(text == [] || Contains(text, MinutesAgo) || Contains(text, HoursAgo)
               || Contains(text, DaysAgo) || Contains(text, Yesterday));
      var p := Strptime.DashYmd(DashDate(text)).value;
      assert r == Dates.KstTimestamp(p.year, p.month, p.day, 0, 0, 0);
    }
  }
}
