/**
 * The selection logic of the older Tesla news fetcher: the keyword
 * predicates, the summary cut, the reader of Naver's time labels,
 * deduplication, the autonomy-first ordering, the one-Naver-item rule, the
 * recency filter, and the loop that widens the recency window until enough
 * items remain. Feeds arrive as lists (fetching them is not modelled),
 * instants are epoch seconds, `datetime.fromisoformat` is the parameter
 * `iso`, and `datetime.now(KST)` is the parameter `now`.
 */
module TeslaNews {
  import opened Wrappers
  import opened Text
  import Ordered
  import StableSort
  import Dates
  import Strptime
  import NaverTime
  import NewsText

  datatype NewsItem = NewsItem(source: string, title: string, summary: string, url: string, publishedAt: string)

  /** At most this many items are published. */
  const MaxItems: nat := 10
  /** The window stops widening once this many items remain. */
  const MinItems: nat := 5
  /** Hours added to the recency window each time it widens. */
  const WindowStep: nat := 12
  const SecondsPerHour: int := 3600
  /** The single character `summarise` appends after a cut. */
  const Ellipsis: string := "\U{2026}"

  const AutonomyKeywords: seq<string> := [
    "autonomous driving", "autonomous vehicle", "autopilot", "full self-driving",
    "full self driving", "fsd", "self-driving", "self driving", "robotaxi", "robotaxis",
    "driverless", "tesla drive pilot", "로보택시", "자율주행", "자율 주행", "자율주행차",
    "자율주행 기능", "자율 운전", "자율운전", "오토파일럿", "완전자율주행", "완전 자율주행",
    "주행 보조", "주행보조", "운전자 보조", "운전자보조", "adas"]

  const StockKeywords: seq<string> := [
    "stock", "stocks", "share price", "shares", "주가", "증시", "주식", "목표가",
    "target price", "valuation", "earnings", "실적", "수익", "주주", "dividend",
    "analyst", "downgrade", "업종"]

  // ---- keyword predicates ----

  /** `contains_any`: some keyword, exactly as written, occurs in the lower-cased text. */
  predicate ContainsAny(text: string, keywords: seq<string>) {
    exists i | 0 <= i < |keywords| :: Contains(Lower(text), keywords[i])
  }

  predicate IsStockRelated(text: string) { ContainsAny(text, StockKeywords) }
  predicate IsAutonomyRelated(text: string) { ContainsAny(text, AutonomyKeywords) }

  /** Whatever occurs in lower-cased text is itself lower case. */
  lemma FoundIsLower(text: string, k: string)
    requires Contains(Lower(text), k)
    ensures Lower(k) == k
  {
    var l := Lower(text);
    var i :| 0 <= i <= |l| - |k| && OccursAt(l, k, i);
    forall j | 0 <= j < |k| ensures Lower(k)[j] == k[j] {
      assert k[j] == l[i + j] == LowerChar(text[i + j]);
    }
  }

  /**
   * A match is always a match ignoring case on both sides; the converse
   * holds when every keyword is written in lower case.
   */
  lemma ContainsAnyCaseless(text: string, keywords: seq<string>)
    ensures ContainsAny(text, keywords) ==> NewsText.ContainsAny(text, keywords)
    ensures (forall i :: 0 <= i < |keywords| ==> Lower(keywords[i]) == keywords[i]) ==>
      (ContainsAny(text, keywords) <==> NewsText.ContainsAny(text, keywords))
    ensures keywords == [] ==> !ContainsAny(text, keywords)
  {
    if ContainsAny(text, keywords) {
      var i :| 0 <= i < |keywords| && Contains(Lower(text), keywords[i]);
      FoundIsLower(text, keywords[i]);
    }
  }

  /** Since only the text is lower-cased, a keyword holding an ASCII capital never matches. */
  lemma CapitalKeywordNeverMatches(text: string, keyword: string, j: nat)
    requires j < |keyword| && IsAsciiUpper(keyword[j])
    ensures !ContainsAny(text, [keyword])
  {
    if ContainsAny(text, [keyword]) {
      FoundIsLower(text, keyword);
    }
  }

  /** Capitals in the text do not matter: "Tesla FSD" is about autonomy. */
  lemma MixedCaseTextMatches()
    ensures IsAutonomyRelated("Tesla FSD")
  {
    var l := Lower("Tesla FSD");
    assert l == "tesla fsd";
    assert AutonomyKeywords[5] == "fsd";
    assert OccursAt(l, "fsd", 6);
  }

  /** `_combine_text(a, b)`: the stripped parts that are not empty, joined by a space. */
  function CombineText(a: string, b: string): string {
    var x, y := Strip(a), Strip(b);
    if x == "" then y else if y == "" then x else x + " " + y
  }

  function Combined(item: NewsItem): string { CombineText(item.title, item.summary) }

  predicate IsStockItem(item: NewsItem) { IsStockRelated(Combined(item)) }
  predicate NotStockItem(item: NewsItem) { !IsStockItem(item) }
  predicate IsAutonomyItem(item: NewsItem) { IsAutonomyRelated(Combined(item)) }
  predicate NotAutonomyItem(item: NewsItem) { !IsAutonomyItem(item) }

  // ---- summarise ----

  /** `summarise(text, limit)`: the whitespace-normalised text, cut with a one-character ellipsis. */
  function Summarise(text: string, limit: int): string {
    NewsText.Cut(NormalizeWs(text), limit, Ellipsis)
  }

  /**
   * Short text is the normalised text itself; long text is a prefix of it
   * followed by the ellipsis, and the result never exceeds a positive limit.
   */
  lemma SummariseSpec(text: string, limit: int)
    ensures var c, r := NormalizeWs(text), Summarise(text, limit);
      && (|c| <= limit ==> r == c)
      && (|c| > limit ==> EndsWith(r, Ellipsis) && StartsWith(c, r[..|r| - 1]))
      && (limit >= 1 ==> |r| <= limit)
  {
    NewsText.CutSpec(NormalizeWs(text), limit, Ellipsis);
  }

  // ---- parse_naver_time ----

  /** The exception `parse_naver_time` lets escape: date arithmetic leaving the datetime range. */
  datatype Raised = OverflowError

  const Morning: string := "\U{C624}\U{C804}"
  const Afternoon: string := "\U{C624}\U{D6C4}"

  /** `reference - delta` seconds, which raises when it leaves the datetime range. */
  function Before(reference: int, delta: int): Result<Option<int>, Raised> {
    if Dates.KstInRange(reference - delta) then Ok(Some(reference - delta)) else Err(OverflowError)
  }

  /** `int(text.replace(marker, "").strip())` units before the reference; a bad count is None. */
  function Relative(text: string, marker: string, unit: int, reference: int): Result<Option<int>, Raised>
    requires |marker| > 0
  {
    match ParseInt(Replace(text, marker, ""))
    case None => Ok(None)
    case Some(n) => Before(reference, n * unit)
  }

  /** The label with the Korean meridiem words turned into "AM" and "PM", stripped. */
  function Meridiem(text: string): string {
    Strip(Replace(Replace(text, Morning, "AM"), Afternoon, "PM"))
  }

  /** `strptime` with a format, then `KST.localize`; a `ValueError` is None. */
  function Localized(p: Option<Strptime.Parsed>): Option<int> {
    match p
    case None => None
    case Some(q) => Strptime.KstOf(q)
  }

  /** The two formats tried in order: "%Y.%m.%d." and "%Y.%m.%d. %p %I:%M". */
  function Calendar(text: string): Option<int> {
    var n := Meridiem(text);
    var first := Localized(Strptime.DotYmd(n));
    if first.Some? then first else Localized(Strptime.DotYmdAmPmHm(n))
  }

  /**
   * `parse_naver_time(text, reference)`: None for empty or unreadable text,
   * the relative labels counted back from the reference, exactly "어제" as
   * the day before to the minute, then the two dotted date formats.
   */
  function ParseNaverTime(text: string, reference: int): Result<Option<int>, Raised> {
    if text == "" then Ok(None) else ParseLabel(Strip(text), reference)
  }

  /** The stripped label: the three relative units in order, then the absolute forms. */
  function ParseLabel(t: string, reference: int): Result<Option<int>, Raised> {
    if Contains(t, NaverTime.MinutesAgo) then Relative(t, NaverTime.MinutesAgo, Dates.SecondsPerMinute, reference)
    else if Contains(t, NaverTime.HoursAgo) then Relative(t, NaverTime.HoursAgo, Dates.SecondsPerHour, reference)
    else if Contains(t, NaverTime.DaysAgo) then Relative(t, NaverTime.DaysAgo, Dates.SecondsPerDay, reference)
    else Absolute(t, reference)
  }

  /** Exactly "어제", else a dotted date. */
  function Absolute(t: string, reference: int): Result<Option<int>, Raised> {
    if t == NaverTime.Yesterday then
      (if Dates.KstInRange(reference - Dates.SecondsPerDay)
       then Ok(Some(Dates.FloorMinute(reference - Dates.SecondsPerDay)))
       else Err(OverflowError))
    else Ok(Calendar(t))
  }

  /** Text that is already stripped goes straight to the label rules. */
  lemma StrippedLabel(text: string, reference: int)
    requires text != "" && Strip(text) == text
    ensures ParseNaverTime(text, reference) == ParseLabel(text, reference)
  {
  }

  /** Only the date arithmetic of a relative label or of "어제" can raise. */
  lemma ParseNaverTimeRaises(text: string, reference: int)
    requires ParseNaverTime(text, reference).Err?
    ensures var t := Strip(text);
      || Contains(t, NaverTime.MinutesAgo) || Contains(t, NaverTime.HoursAgo)
      || Contains(t, NaverTime.DaysAgo) || t == NaverTime.Yesterday
  {
  }

  /** Empty text is None. */
  lemma EmptyLabelIsNone(reference: int)
    ensures ParseNaverTime("", reference) == Ok(None)
  {
  }

  /** A label of digits and a unit has no surrounding whitespace. */
  lemma CountLabelStripped(n: nat, unit: string)
    requires unit != [] && !IsSpace(unit[|unit| - 1])
    ensures Strip(NatToString(n) + unit) == NatToString(n) + unit
  {
    var t := NatToString(n) + unit;
    var d := NatToString(n);
    assert d[0] in d;
    assert t[0] == d[0];
    assert t[|t| - 1] == unit[|unit| - 1];
    LStripByFixed(t, IsSpace);
    RStripByFixed(t, IsSpace);
  }

  /** A count followed by its marker is read as that many units before the reference. */
  lemma CountRelative(n: nat, marker: string, unit: int, reference: int)
    requires marker != [] && !IsAsciiDigit(marker[0])
    ensures Relative(NatToString(n) + marker, marker, unit, reference) == Before(reference, n * unit)
  {
    var d := NatToString(n);
    NaverTime.CountLacks(n, [], marker[0]);
    assert d + [] == d;
    NaverTime.ReplaceTrailing(d, marker);
    ParseIntToString(n);
  }

  /** "N분 전" is N minutes before the reference. */
  lemma MinutesLabel(n: nat, reference: int)
    requires Dates.KstInRange(reference - n * Dates.SecondsPerMinute)
    ensures ParseNaverTime(NatToString(n) + NaverTime.MinutesAgo, reference) == Ok(Some(reference - n * Dates.SecondsPerMinute))
  {
    var t := NatToString(n) + NaverTime.MinutesAgo;
    calc {
      ParseNaverTime(t, reference);
    == { CountLabelStripped(n, NaverTime.MinutesAgo); StrippedLabel(t, reference); }
      ParseLabel(t, reference);
    == { NaverTime.ContainsSuffix(NatToString(n), NaverTime.MinutesAgo); }
      Relative(t, NaverTime.MinutesAgo, Dates.SecondsPerMinute, reference);
    == { CountRelative(n, NaverTime.MinutesAgo, Dates.SecondsPerMinute, reference); }
      Before(reference, n * Dates.SecondsPerMinute);
    }
  }

  /** "N시간 전" is N hours before the reference. */
  lemma HoursLabel(n: nat, reference: int)
    requires Dates.KstInRange(reference - n * Dates.SecondsPerHour)
    ensures ParseNaverTime(NatToString(n) + NaverTime.HoursAgo, reference) == Ok(Some(reference - n * Dates.SecondsPerHour))
  {
    var t := NatToString(n) + NaverTime.HoursAgo;
    calc {
      ParseNaverTime(t, reference);
    == { CountLabelStripped(n, NaverTime.HoursAgo); StrippedLabel(t, reference); }
      ParseLabel(t, reference);
    == { NaverTime.CountLacks(n, NaverTime.HoursAgo, '\U{BD84}');
         NaverTime.NotContainsChar(t, NaverTime.MinutesAgo, '\U{BD84}');
         NaverTime.ContainsSuffix(NatToString(n), NaverTime.HoursAgo); }
      Relative(t, NaverTime.HoursAgo, Dates.SecondsPerHour, reference);
    == { CountRelative(n, NaverTime.HoursAgo, Dates.SecondsPerHour, reference); }
      Before(reference, n * Dates.SecondsPerHour);
    }
  }

  /** "N일 전" is N days before the reference. */
  lemma DaysLabel(n: nat, reference: int)
    requires Dates.KstInRange(reference - n * Dates.SecondsPerDay)
    ensures ParseNaverTime(NatToString(n) + NaverTime.DaysAgo, reference) == Ok(Some(reference - n * Dates.SecondsPerDay))
  {
    var t := NatToString(n) + NaverTime.DaysAgo;
    calc {
      ParseNaverTime(t, reference);
    == { CountLabelStripped(n, NaverTime.DaysAgo); StrippedLabel(t, reference); }
      ParseLabel(t, reference);
    == { NaverTime.CountLacks(n, NaverTime.DaysAgo, '\U{BD84}');
         NaverTime.CountLacks(n, NaverTime.DaysAgo, '\U{C2DC}');
         NaverTime.NotContainsChar(t, NaverTime.MinutesAgo, '\U{BD84}');
         NaverTime.NotContainsChar(t, NaverTime.HoursAgo, '\U{C2DC}');
         NaverTime.ContainsSuffix(NatToString(n), NaverTime.DaysAgo); }
      Relative(t, NaverTime.DaysAgo, Dates.SecondsPerDay, reference);
    == { CountRelative(n, NaverTime.DaysAgo, Dates.SecondsPerDay, reference); }
      Before(reference, n * Dates.SecondsPerDay);
    }
  }

  /** "어제" is the day before the reference with the seconds dropped. */
  lemma YesterdayLabel(reference: int)
    requires Dates.KstInRange(reference - 86400)
    ensures ParseNaverTime(NaverTime.Yesterday, reference) == Ok(Some(Dates.FloorMinute(reference - 86400)))
  {
    var t := NaverTime.Yesterday;
    LStripByFixed(t, IsSpace);
    RStripByFixed(t, IsSpace);
    NaverTime.NotContainsChar(t, NaverTime.MinutesAgo, '\U{C804}');
    NaverTime.NotContainsChar(t, NaverTime.HoursAgo, '\U{C804}');
    NaverTime.NotContainsChar(t, NaverTime.DaysAgo, '\U{C804}');
  }

  /** Only the exact word counts: "어제 밤" ("last night") is not read as a time. */
  lemma YesterdayPhraseIsNone(reference: int)
    ensures ParseNaverTime(NaverTime.Yesterday + " \U{BC24}", reference) == Ok(None)
  {
    var t := NaverTime.Yesterday + " \U{BC24}";
    calc {
      ParseNaverTime(t, reference);
    == { assert t == "\U{C5B4}\U{C81C} \U{BC24}";
         LStripByFixed(t, IsSpace);
         RStripByFixed(t, IsSpace);
         StrippedLabel(t, reference); }
      ParseLabel(t, reference);
    == { NaverTime.NotContainsChar(t, NaverTime.MinutesAgo, '\U{C804}');
         NaverTime.NotContainsChar(t, NaverTime.HoursAgo, '\U{C804}');
         NaverTime.NotContainsChar(t, NaverTime.DaysAgo, '\U{C804}'); }
      Absolute(t, reference);
    ==
      Ok(Calendar(t));
    == { ReplaceAbsent(t, Morning, "AM");
         ReplaceAbsent(t, Afternoon, "PM");
         assert Meridiem(t) == t;
         assert !Strptime.DigitAt(t, 0); }
      Ok(None);
    }
  }

  /** Characters of a rendered date, clock or meridiem. */
  predicate DateChar(c: char) {
    IsAsciiDigit(c) || c == '.' || c == ' ' || c == ':' || c == 'A' || c == 'P' || c == 'M'
  }

  lemma YmdChars(y: nat, m: nat, d: nat)
    requires y < 10000 && 1 <= m <= 12 && 1 <= d <= 31
    ensures forall c :: c in Strptime.YmdText(y, m, d, '.') ==> c == '.' || IsAsciiDigit(c)
  {
    assert Strptime.Pad4(y) == Strptime.Pad2(y / 100) + Strptime.Pad2(y % 100);
  }

  /** A dotted label "YYYY.MM.DD." is that date's midnight in KST. */
  lemma DottedDateLabel(y: nat, m: nat, d: nat, reference: int)
    requires 1 <= y < 10000 && Dates.ValidDate(y, m, d)
    ensures ParseNaverTime(Strptime.YmdText(y, m, d, '.') + ".", reference)
      == Ok(Some(Dates.KstTimestamp(y, m, d, 0, 0, 0)))
  {
    var ymd := Strptime.YmdText(y, m, d, '.');
    var t := ymd + ".";
    YmdChars(y, m, d);
    assert forall c :: c in t ==> c == '.' || IsAsciiDigit(c);
    NaverTime.DigitsAndDotsOnly(t);
    assert t[0] == ymd[0] && t[|t| - 1] == '.';
    LStripByFixed(t, IsSpace);
    RStripByFixed(t, IsSpace);
    assert t != NaverTime.Yesterday by {
      assert t[0] in t;
    }
    ReplaceAbsent(t, Morning, "AM");
    ReplaceAbsent(t, Afternoon, "PM");
    Strptime.DotYmdText(y, m, d);
  }

  /** An afternoon label "YYYY.MM.DD. 오후 hh:mm" is that time on the 24-hour clock, in KST. */
  lemma {:induction false} AfternoonLabel(y: nat, m: nat, d: nat, h12: nat, mi: nat, reference: int)
    requires 1 <= y < 10000 && Dates.ValidDate(y, m, d) && 1 <= h12 <= 12 && mi < 60
    ensures var clock := Strptime.Pad2(h12) + ":" + Strptime.Pad2(mi);
      ParseNaverTime(Strptime.YmdText(y, m, d, '.') + ". " + Afternoon + " " + clock, reference)
      == Ok(Some(Dates.KstTimestamp(y, m, d, Strptime.Hour24(h12, 1), mi, 0)))
  {
    var clock := Strptime.Pad2(h12) + ":" + Strptime.Pad2(mi);
    var a := Strptime.YmdText(y, m, d, '.') + ". ";
    var t := a + Afternoon + " " + clock;
    var n := Strptime.DotAmPmText(y, m, d, true, h12, mi);
    calc {
      ParseNaverTime(t, reference);
    == { YmdChars(y, m, d); AfternoonLabelText(a, clock, t); StrippedLabel(t, reference); }
      ParseLabel(t, reference);
    == { YmdChars(y, m, d); AfternoonLabelText(a, clock, t); }
      Ok(Calendar(t));
    == { YmdChars(y, m, d); AfternoonMeridiem(a, clock); AfternoonStripped(y, m, d, h12, mi);
         DotAmPmNotDate(y, m, d, h12, mi); }
      Ok(Localized(Strptime.DotYmdAmPmHm(n)));
    == { Strptime.DotAmPmTextParses(y, m, d, true, h12, mi); }
      Ok(Localized(Some(Strptime.Parsed(y, m, d, Strptime.Hour24(h12, 1), mi))));
    }
  }

  /** The rendered afternoon time has no surrounding whitespace. */
  lemma AfternoonStripped(y: nat, m: nat, d: nat, h12: nat, mi: nat)
    requires y < 10000 && 1 <= m <= 12 && 1 <= d <= 31 && 1 <= h12 <= 12 && mi < 60
    ensures var clock := Strptime.Pad2(h12) + ":" + Strptime.Pad2(mi);
      var n := Strptime.DotAmPmText(y, m, d, true, h12, mi);
      n == Strptime.YmdText(y, m, d, '.') + ". " + "PM " + clock && Strip(n) == n
  {
    var clock := Strptime.Pad2(h12) + ":" + Strptime.Pad2(mi);
    var ymd := Strptime.YmdText(y, m, d, '.');
    var n := Strptime.DotAmPmText(y, m, d, true, h12, mi);
    calc {
      n;
      ymd + (". " + ("PM" + " " + clock));
      ymd + ". " + "PM " + clock;
    }
    YmdChars(y, m, d);
    assert ymd[0] in ymd;
    assert clock[4] == Strptime.Pad2(mi)[1];
    StripDated(n, ymd, clock);
  }

  /** A date followed by a clock is not the bare "%Y.%m.%d." form. */
  lemma DotAmPmNotDate(y: nat, m: nat, d: nat, h12: nat, mi: nat)
    requires y < 10000 && 1 <= m <= 12 && 1 <= d <= 31 && 1 <= h12 <= 12 && mi < 60
    ensures Strptime.DotYmd(Strptime.DotAmPmText(y, m, d, true, h12, mi)) == None
  {
    var clock := Strptime.Pad2(h12) + ":" + Strptime.Pad2(mi);
    Strptime.YmdAtText(y, m, d, '.', ". PM " + clock);
    assert Strptime.DotAmPmText(y, m, d, true, h12, mi) == Strptime.YmdText(y, m, d, '.') + ". PM " + clock;
  }

  /** The afternoon label holds no relative marker and is not "어제". */
  lemma AfternoonLabelText(a: string, clock: string, t: string)
    requires forall c :: c in a + clock ==> DateChar(c)
    requires |clock| == 5 && IsAsciiDigit(clock[4])
    requires a != [] && IsAsciiDigit(a[0])
    requires t == a + Afternoon + " " + clock
    ensures Strip(t) == t
    ensures !Contains(t, NaverTime.MinutesAgo) && !Contains(t, NaverTime.HoursAgo) && !Contains(t, NaverTime.DaysAgo)
    ensures t != NaverTime.Yesterday
  {
    assert t[0] == a[0] && t[|t| - 1] == clock[4];
    LStripByFixed(t, IsSpace);
    RStripByFixed(t, IsSpace);
    assert forall c :: c in t ==> DateChar(c) || c in Afternoon;
    NaverTime.NotContainsChar(t, NaverTime.MinutesAgo, '\U{C804}');
    NaverTime.NotContainsChar(t, NaverTime.HoursAgo, '\U{C804}');
    NaverTime.NotContainsChar(t, NaverTime.DaysAgo, '\U{C804}');
  }

  /** "오후" becomes "PM" and nothing else changes. */
  lemma AfternoonMeridiem(a: string, clock: string)
    requires forall c :: c in a + clock ==> DateChar(c)
    ensures Replace(Replace(a + Afternoon + " " + clock, Morning, "AM"), Afternoon, "PM") == a + "PM " + clock
  {
    var rest := Afternoon + " " + clock;
    assert a + Afternoon + " " + clock == a + rest;
    assert Morning[0] !in a && Afternoon[0] !in a by {
      forall c | c in a ensures DateChar(c) {
        assert c in a + clock;
      }
    }
    ReplaceSkip(a, rest, Morning, "AM");
    var tail := [Afternoon[1]] + " " + clock;
    assert rest == [Afternoon[0]] + tail;
    assert rest[1] == '\U{D6C4}' != Morning[1];
    assert rest[..2] != Morning;
    assert Replace(rest, Morning, "AM") == [rest[0]] + Replace(rest[1..], Morning, "AM");
    assert rest[1..] == tail;
    assert Morning[0] !in tail by {
      forall c | c in clock ensures DateChar(c) {
        assert c in a + clock;
      }
    }
    ReplaceAbsent(tail, Morning, "AM");
    assert Replace(a + rest, Morning, "AM") == a + rest;
    ReplaceSkip(a, rest, Afternoon, "PM");
    assert rest == Afternoon + (" " + clock);
    ReplaceFront(" " + clock, Afternoon, "PM");
    assert Afternoon[0] !in " " + clock;
    ReplaceAbsent(" " + clock, Afternoon, "PM");
  }

  /** A rendered date and clock has no surrounding whitespace. */
  lemma StripDated(n: string, ymd: string, clock: string)
    requires ymd != [] && IsAsciiDigit(ymd[0]) && |clock| == 5 && IsAsciiDigit(clock[4])
    requires n == ymd + ". PM " + clock
    ensures Strip(n) == n
  {
    assert n[0] == ymd[0] && n[|n| - 1] == clock[4];
    LStripByFixed(n, IsSpace);
    RStripByFixed(n, IsSpace);
  }

  // ---- deduplicate ----

  /** `item.url or item.title`. */
  function Key(item: NewsItem): (k: string)
    ensures item.url != "" ==> k == item.url
    ensures item.url == "" ==> k == item.title
  {
    if item.url != "" then item.url else item.title
  }

  predicate HasKey(item: NewsItem) { Key(item) != "" }

  /** The items `deduplicate` keeps: the first item of each non-empty key. */
  function Deduplicated(items: seq<NewsItem>): seq<NewsItem> {
    Ordered.FirstPerKey(Ordered.Filter(items, HasKey), Key)
  }

  /** One more item of the dictionary loop. */
  lemma DeduplicateStep(items: seq<NewsItem>, i: nat, unique: seq<NewsItem>, seen: set<string>)
    requires i < |items|
    requires unique == Deduplicated(items[..i])
    requires seen == Ordered.Keys(Ordered.Filter(items[..i], HasKey), Key)
    ensures Deduplicated(items[..i + 1])
      == if HasKey(items[i]) && Key(items[i]) !in seen then unique + [items[i]] else unique
    ensures Ordered.Keys(Ordered.Filter(items[..i + 1], HasKey), Key)
      == if HasKey(items[i]) then seen + {Key(items[i])} else seen
  {
    var xs, x := items[..i], items[i];
    assert items[..i + 1] == xs + [x];
    assert (xs + [x])[..|xs + [x]| - 1] == xs;
    if HasKey(x) {
      assert Ordered.Filter(xs + [x], HasKey) == Ordered.Filter(xs, HasKey) + [x];
      Ordered.FirstPerKeyStep(Ordered.Filter(xs, HasKey), x, Key, unique, seen);
    } else {
      assert Ordered.Filter(xs + [x], HasKey) == Ordered.Filter(xs, HasKey) + [];
      assert Ordered.Filter(xs, HasKey) + [] == Ordered.Filter(xs, HasKey);
    }
  }

  /** `deduplicate`: an insertion-ordered dictionary filled with each keyed item whose key is new. */
  method Deduplicate(items: seq<NewsItem>) returns (unique: seq<NewsItem>)
    ensures unique == Deduplicated(items)
  {
    unique := [];
    var seen: set<string> := {};
    for i := 0 to |items|
      invariant unique == Deduplicated(items[..i])
      invariant seen == Ordered.Keys(Ordered.Filter(items[..i], HasKey), Key)
    {
      DeduplicateStep(items, i, unique, seen);
      var key := Key(items[i]);
      if key != "" && key !in seen {
        unique := unique + [items[i]];
        seen := seen + {key};
      }
    }
    assert items[..|items|] == items;
  }

  /**
   * Deduplication keeps keyed items only, one per key, in input order, and
   * loses no key: every non-empty key of the input is the key of a kept item.
   */
  lemma DeduplicatedSpec(items: seq<NewsItem>)
    ensures var u := Deduplicated(items);
      && (forall x :: x in u ==> x in items && HasKey(x))
      && Ordered.DistinctKeys(u, Key)
      && Ordered.IsSubseq(u, items)
      && (forall x :: x in items && HasKey(x) ==> Key(x) in Ordered.Keys(u, Key))
  {
    var f := Ordered.Filter(items, HasKey);
    var u := Deduplicated(items);
    Ordered.FirstPerKeyDistinct(f, Key);
    Ordered.FirstPerKeySubseq(f, Key);
    Ordered.SubseqMembers(u, f);
    Ordered.FilterSubseq(items, HasKey);
    SubseqTransitive(u, f, items);
    Ordered.FirstPerKeyKeys(f, Key);
    forall x | x in items && HasKey(x) ensures Key(x) in Ordered.Keys(u, Key) {
      Ordered.FilterComplete(items, HasKey, x);
      var i :| 0 <= i < |f| && f[i] == x;
    }
  }

  /** Deleting from a list obtained by deleting is deleting. */
  lemma {:induction false} SubseqTransitive<T>(a: seq<T>, b: seq<T>, c: seq<T>)
    requires Ordered.IsSubseq(a, b) && Ordered.IsSubseq(b, c)
    ensures Ordered.IsSubseq(a, c)
    decreases |c|
  {
    if c == [] {
    } else {
      var cp := c[..|c| - 1];
      var z := c[|c| - 1];
      if b != [] && b[|b| - 1] == z && Ordered.IsSubseq(b[..|b| - 1], cp) {
        var bp := b[..|b| - 1];
        if a != [] && a[|a| - 1] == z && Ordered.IsSubseq(a[..|a| - 1], bp) {
          SubseqTransitive(a[..|a| - 1], bp, cp);
        } else {
          assert Ordered.IsSubseq(a, bp);
          SubseqTransitive(a, bp, cp);
        }
      } else {
        SubseqTransitive(a, b, cp);
      }
    }
  }

  // ---- prioritize_autonomy ----

  /** The non-stock items, autonomy items first, each group in input order. */
  function Prioritized(items: seq<NewsItem>): seq<NewsItem> {
    var kept := Ordered.Filter(items, NotStockItem);
    Ordered.Filter(kept, IsAutonomyItem) + Ordered.Filter(kept, NotAutonomyItem)
  }

  /**
   * `prioritize_autonomy`: one pass keeps the non-stock items and collects
   * the autonomy ones; the rest are the kept items not among those collected.
   */
  method PrioritizeAutonomy(items: seq<NewsItem>) returns (r: seq<NewsItem>)
    ensures r == Prioritized(items)
  {
    r := Ordered.KeepFrontFirst(items, NotStockItem, IsAutonomyItem, NotAutonomyItem);
  }

  /**
   * The prioritised list rearranges exactly the non-stock items, holds no
   * stock item, and no autonomy item follows an item that is not one.
   */
  lemma PrioritizedSpec(items: seq<NewsItem>)
    ensures var r := Prioritized(items);
      && multiset(r) == multiset(Ordered.Filter(items, NotStockItem))
      && (forall x :: x in r ==> NotStockItem(x))
      && (forall i, j :: 0 <= i < j < |r| && IsAutonomyItem(r[j]) ==> IsAutonomyItem(r[i]))
  {
    var kept := Ordered.Filter(items, NotStockItem);
    var a, b := Ordered.Filter(kept, IsAutonomyItem), Ordered.Filter(kept, NotAutonomyItem);
    var r := a + b;
    Ordered.FilterSplit(kept, IsAutonomyItem, NotAutonomyItem);
    forall i, j | 0 <= i < j < |r| && IsAutonomyItem(r[j]) ensures IsAutonomyItem(r[i]) {
      assert r[i] == a[i] && r[i] in a;
    }
  }

  // ---- ensure_naver_presence ----

  predicate MentionsNaver(item: NewsItem) { Contains(item.source, "Naver") }

  predicate HasNaver(items: seq<NewsItem>) {
    exists i | 0 <= i < |items| :: MentionsNaver(items[i])
  }

  /** A candidate `ensure_naver_presence` accepts: not about stocks, and about autonomy. */
  predicate Qualifies(item: NewsItem) { NotStockItem(item) && IsAutonomyItem(item) }

  /** The list `ensure_naver_presence` returns. */
  function WithNaver(items: seq<NewsItem>, candidates: seq<NewsItem>): seq<NewsItem> {
    if HasNaver(items) then items
    else
      var i := Ordered.FirstIndex(candidates, Qualifies);
      if i == |candidates| then items
      else (if |items| >= MaxItems then items[..|items| - 1] else items) + [candidates[i]]
  }

  /**
   * `ensure_naver_presence`: unchanged when some item is from Naver or no
   * candidate qualifies; otherwise the first qualifying candidate is
   * appended, after dropping the last item of a full list.
   */
  method EnsureNaverPresence(items: seq<NewsItem>, candidates: seq<NewsItem>) returns (r: seq<NewsItem>)
    ensures r == WithNaver(items, candidates)
  {
    for i := 0 to |items|
      invariant forall k :: 0 <= k < i ==> !MentionsNaver(items[k])
    {
      if MentionsNaver(items[i]) {
        return items;
      }
    }
    var j := Ordered.FindFirst(candidates, Qualifies);
    if j == |candidates| {
      return items;
    }
    var updated := items;
    if |updated| >= MaxItems {
      updated := updated[..|updated| - 1];
    }
    updated := updated + [candidates[j]];
    return updated;
  }

  /**
   * The rule keeps the list or replaces its tail by one qualifying
   * candidate; it never grows a list of at most `MaxItems` past that bound,
   * and when the candidates are from Naver and one qualifies, the result
   * has a Naver item.
   */
  lemma WithNaverSpec(items: seq<NewsItem>, candidates: seq<NewsItem>)
    ensures var r := WithNaver(items, candidates);
      && (r == items || (r != [] && Qualifies(r[|r| - 1]) && r[|r| - 1] in candidates
                         && r[..|r| - 1] == items[..|r| - 1]))
      && (|items| <= MaxItems ==> |r| <= MaxItems)
      && (HasNaver(items) ==> r == items)
    ensures (forall c :: c in candidates ==> MentionsNaver(c)) && (exists c :: c in candidates && Qualifies(c)) ==>
      HasNaver(WithNaver(items, candidates))
  {
    var r := WithNaver(items, candidates);
    var i := Ordered.FirstIndex(candidates, Qualifies);
    if !HasNaver(items) && i < |candidates| {
      var c := candidates[i];
      assert r[|r| - 1] == c;
      if (forall c :: c in candidates ==> MentionsNaver(c)) {
        assert MentionsNaver(r[|r| - 1]);
      }
    }
  }

  // ---- the recency filter ----

  /** `get_item_datetime`: the parsed `published_at`, or `now` when it does not parse. */
  function ItemTime(item: NewsItem, now: int, iso: string -> Option<int>): int {
    iso(item.publishedAt).GetOr(now)
  }

  /** Published at or after `now - hours`. */
  predicate Within(item: NewsItem, hours: int, now: int, iso: string -> Option<int>) {
    ItemTime(item, now, iso) >= now - hours * SecondsPerHour
  }

  /** `filter_recent_items(items, hours)`. */
  function FilterRecent(items: seq<NewsItem>, hours: int, now: int, iso: string -> Option<int>): seq<NewsItem> {
    Ordered.Filter(items, (item: NewsItem) => Within(item, hours, now, iso))
  }

  /**
   * An item is kept exactly when it is published at or after the cutoff,
   * the boundary included, and an item whose date does not parse is kept
   * for any window that is not negative.
   */
  lemma FilterRecentSpec(items: seq<NewsItem>, hours: int, now: int, iso: string -> Option<int>, x: NewsItem)
    ensures x in FilterRecent(items, hours, now, iso) <==>
      x in items && ItemTime(x, now, iso) >= now - hours * SecondsPerHour
    ensures x in items && iso(x.publishedAt).None? && hours >= 0 ==> x in FilterRecent(items, hours, now, iso)
    ensures x in items && iso(x.publishedAt) == Some(now - hours * SecondsPerHour) ==> x in FilterRecent(items, hours, now, iso)
  {
    if x in items && Within(x, hours, now, iso) {
      Ordered.FilterComplete(items, (item: NewsItem) => Within(item, hours, now, iso), x);
    }
  }

  // ---- the widening window of collect_news ----

  /** `set(filter(None, exclude_keys or []))`. */
  function ExcludedSet(excludeKeys: seq<string>): set<string> {
    set k | k in excludeKeys && k != ""
  }

  predicate NotExcluded(item: NewsItem, excluded: set<string>) { Key(item) !in excluded }

  /** `pick_naver_candidates`: the Naver items inside the window, or all of them when none is. */
  function NaverCandidates(naverItems: seq<NewsItem>, hours: int, now: int, iso: string -> Option<int>): seq<NewsItem> {
    var scoped := FilterRecent(naverItems, hours, now, iso);
    if scoped != [] then scoped else naverItems
  }

  /** The items inside the window, or all of them when none is. */
  function Scoped(prioritized: seq<NewsItem>, hours: int, now: int, iso: string -> Option<int>): seq<NewsItem> {
    var scoped := FilterRecent(prioritized, hours, now, iso);
    if scoped != [] then scoped else prioritized
  }

  /** What one pass of the loop would return for a window of `hours`. */
  function Attempt(prioritized: seq<NewsItem>, naverItems: seq<NewsItem>, excluded: set<string>,
                   hours: int, now: int, iso: string -> Option<int>): seq<NewsItem>
  {
    var ensured := WithNaver(Scoped(prioritized, hours, now, iso), NaverCandidates(naverItems, hours, now, iso));
    PyPrefix(Ordered.Filter(ensured, (item: NewsItem) => NotExcluded(item, excluded)), MaxItems)
  }

  /** Where the loop stops: enough items, or the window at its widest. */
  predicate Done(trimmed: seq<NewsItem>, hours: int, cap: int) {
    |trimmed| >= MinItems || hours >= cap
  }

  /** The loop from a window of `hours`: the result and the window it stopped at. */
  function Widen(prioritized: seq<NewsItem>, naverItems: seq<NewsItem>, excluded: set<string>,
                 hours: int, cap: int, now: int, iso: string -> Option<int>): (seq<NewsItem>, int)
    decreases cap - hours
  {
    var trimmed := Attempt(prioritized, naverItems, excluded, hours, now, iso);
    if Done(trimmed, hours, cap) then (trimmed, hours)
    else Widen(prioritized, naverItems, excluded, if hours + WindowStep < cap then hours + WindowStep else cap, cap, now, iso)
  }

  /** Every attempt returns at most `MaxItems` items and none with an excluded key. */
  lemma AttemptSpec(prioritized: seq<NewsItem>, naverItems: seq<NewsItem>, excluded: set<string>,
                    hours: int, now: int, iso: string -> Option<int>)
    ensures var a := Attempt(prioritized, naverItems, excluded, hours, now, iso);
      |a| <= MaxItems && forall x :: x in a ==> Key(x) !in excluded
  {
    var ensured := WithNaver(Scoped(prioritized, hours, now, iso), NaverCandidates(naverItems, hours, now, iso));
    var f := Ordered.Filter(ensured, (item: NewsItem) => NotExcluded(item, excluded));
    var a := PyPrefix(f, MaxItems);
    forall x | x in a ensures Key(x) !in excluded {
      var i :| 0 <= i < |a| && a[i] == x;
      assert f[i] == x;
      assert x in f;
    }
  }

  /**
   * The loop stops at a window between its start and the cap, with at
   * least `MinItems` items unless the window reached the cap; the result
   * has at most `MaxItems` items and no excluded key.
   */
  lemma {:induction false} WidenSpec(prioritized: seq<NewsItem>, naverItems: seq<NewsItem>, excluded: set<string>,
                                     hours: int, cap: int, now: int, iso: string -> Option<int>)
    requires hours <= cap
    ensures var (r, h) := Widen(prioritized, naverItems, excluded, hours, cap, now, iso);
      && hours <= h <= cap
      && (|r| >= MinItems || h == cap)
      && r == Attempt(prioritized, naverItems, excluded, h, now, iso)
      && |r| <= MaxItems && (forall x :: x in r ==> Key(x) !in excluded)
    decreases cap - hours
  {
    var trimmed := Attempt(prioritized, naverItems, excluded, hours, now, iso);
    if Done(trimmed, hours, cap) {
      AttemptSpec(prioritized, naverItems, excluded, hours, now, iso);
    } else {
      var next := if hours + WindowStep < cap then hours + WindowStep else cap;
      WidenSpec(prioritized, naverItems, excluded, next, cap, now, iso);
    }
  }

  /** `max(1, initial_hours)`. */
  function StartWindow(initialHours: int): int { if initialHours > 1 then initialHours else 1 }

  /** `max(current_hours, max_hours)`. */
  function CapWindow(initialHours: int, maxHours: int): int {
    var start := StartWindow(initialHours);
    if start > maxHours then start else maxHours
  }

  /** The `while True` loop of `collect_news`, which widens the window by 12 hours up to the cap. */
  method WidenWindow(prioritized: seq<NewsItem>, naverItems: seq<NewsItem>, excludeKeys: seq<string>,
                     initialHours: int, maxHours: int, now: int, iso: string -> Option<int>)
    returns (trimmed: seq<NewsItem>, hours: int)
    ensures (trimmed, hours) == Widen(prioritized, naverItems, ExcludedSet(excludeKeys),
                                      StartWindow(initialHours), CapWindow(initialHours, maxHours), now, iso)
  {
    var excluded := ExcludedSet(excludeKeys);
    var current := if initialHours > 1 then initialHours else 1;
    var cap := if current > maxHours then current else maxHours;
    while true
      invariant current <= cap
      invariant Widen(prioritized, naverItems, excluded, current, cap, now, iso)
        == Widen(prioritized, naverItems, excluded, StartWindow(initialHours), CapWindow(initialHours, maxHours), now, iso)
      decreases cap - current
    {
      var scoped := FilterRecent(prioritized, current, now, iso);
      if scoped == [] {
        scoped := prioritized;
      }
      var naverCandidates := NaverCandidates(naverItems, current, now, iso);
      var ensured := EnsureNaverPresence(scoped, naverCandidates);
      var filtered := Ordered.Filter(ensured, (item: NewsItem) => NotExcluded(item, excluded));
      trimmed := PyPrefix(filtered, MaxItems);
      if |trimmed| >= MinItems || current >= cap {
        return trimmed, current;
      }
      current := if current + WindowStep < cap then current + WindowStep else cap;
    }
  }

  // ---- collect_news after the fetches ----

  /** Newest first; items compare by `get_item_datetime`. */
  function NewestFirst(now: int, iso: string -> Option<int>): (NewsItem, NewsItem) -> bool {
    StableSort.DescendingBy((item: NewsItem) => ItemTime(item, now, iso))
  }

  /**
   * `collect_news` from the fetched lists on: deduplicate, sort newest
   * first, put autonomy first, then widen the window. The result has at
   * most `MaxItems` items and none with a non-empty key among `excludeKeys`.
   */
  method SelectNews(collected: seq<NewsItem>, naverItems: seq<NewsItem>, excludeKeys: seq<string>,
                    initialHours: int, maxHours: int, now: int, iso: string -> Option<int>)
    returns (items: seq<NewsItem>)
    ensures |items| <= MaxItems
    ensures forall x :: x in items ==> Key(x) == "" || Key(x) !in excludeKeys
    ensures var prioritized := Prioritized(StableSort.Sort(Deduplicated(collected), NewestFirst(now, iso)));
      items == Widen(prioritized, naverItems, ExcludedSet(excludeKeys),
                     StartWindow(initialHours), CapWindow(initialHours, maxHours), now, iso).0
  {
    var deduped := Deduplicate(collected);
    var sorted := StableSort.Sort(deduped, NewestFirst(now, iso));
    var prioritized := PrioritizeAutonomy(sorted);
    var hours;
    items, hours := WidenWindow(prioritized, naverItems, excludeKeys, initialHours, maxHours, now, iso);
    WidenSpec(prioritized, naverItems, ExcludedSet(excludeKeys),
              StartWindow(initialHours), CapWindow(initialHours, maxHours), now, iso);
  }
}
