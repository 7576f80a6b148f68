/**
 * The state logic of the world clock page: the GMT offset label, the city
 * table and its lookups, the selected city and the active marker, the
 * language cycle, and the night shading of the city markers. The page's
 * DOM is reduced to the state of each city marker; what the Intl API
 * computes (the zone offset, the local hour) is given as a parameter.
 */
module Timer {
  import opened Wrappers
  import opened Text

  // ---- formatOffsetLabel ----

  /** JavaScript's `Math.round`: halves round up. */
  function Round(x: real): (n: int)
    ensures n as real - 0.5 <= x < n as real + 0.5
  {
    (x + 0.5).Floor
  }

  /** `String(n).padStart(2, "0")` for a natural number. */
  function Pad2(n: nat): (s: string)
    ensures |s| >= 2 && AllDigits(s)
  {
    var d := NatToString(n);
    if |d| >= 2 then d else "0" + d
  }

  /** `formatOffsetLabel(offsetMinutes)`: "GMT", the sign, the hours, ":" and the minutes. */
  function FormatOffsetLabel(offsetMinutes: real): (lbl: string)
    ensures StartsWith(lbl, "GMT") && 9 <= |lbl|
    ensures lbl[3] == (if Round(offsetMinutes) >= 0 then '+' else '-')
  {
    var total := Round(offsetMinutes);
    var sign := if total >= 0 then "+" else "-";
    var absolute: nat := if total >= 0 then total else -total;
    "GMT" + sign + Pad2(absolute / 60) + ":" + Pad2(absolute % 60)
  }

  /** Reads a label of the shape `GMT±H…H:MM` back as signed minutes. */
  function LabelMinutes(lbl: string): Option<int> {
    if |lbl| < 9 || lbl[..3] != "GMT" || (lbl[3] != '+' && lbl[3] != '-') then None
    else
      var body := lbl[4..];
      var hh := body[..|body| - 3];
      var mm := body[|body| - 2..];
      if body[|body| - 3] != ':' || !AllDigits(hh) || !AllDigits(mm) then None
      else
        var v := DigitsValue(hh) * 60 + DigitsValue(mm);
        Some(if lbl[3] == '-' then -v else v)
  }

  /** A leading zero does not change the value of a digit string. */
  lemma {:induction false} LeadingZero(s: string)
    requires AllDigits(s)
    ensures AllDigits("0" + s) && DigitsValue("0" + s) == DigitsValue(s)
    decreases |s|
  {
    var z := "0" + s;
    if s != [] {
      assert z[..|z| - 1] == "0" + s[..|s| - 1];
      assert s[|s| - 1] in s;
      LeadingZero(s[..|s| - 1]);
    }
  }

  lemma Pad2Value(n: nat)
    ensures DigitsValue(Pad2(n)) == n
  {
    DigitsOfNat(n);
    if |NatToString(n)| < 2 {
      LeadingZero(NatToString(n));
    }
  }

  /** The minutes field is two digits below 60. */
  lemma Pad2Minutes(n: nat)
    requires n < 60
    ensures |Pad2(n)| == 2
  {
    if n >= 10 {
      assert NatToString(n) == NatToString(n / 10) + [DigitChar(n % 10)];
    }
  }

  /**
   * The label carries the rounded offset exactly: its minutes field is two
   * digits below 60, its hours field is the whole hours of the absolute
   * offset, and reading it back gives the rounded offset.
   */
  lemma FormatOffsetLabelSpec(offsetMinutes: real)
    ensures var lbl := FormatOffsetLabel(offsetMinutes);
      var total := Round(offsetMinutes);
      var absolute := if total >= 0 then total else -total;
      && lbl[|lbl| - 3] == ':'
      && DigitsValue(lbl[|lbl| - 2..]) == absolute % 60 < 60
      && DigitsValue(lbl[4..|lbl| - 3]) == absolute / 60
      && LabelMinutes(lbl) == Some(total)
  {
    var total := Round(offsetMinutes);
    var absolute: nat := if total >= 0 then total else -total;
    var hh := Pad2(absolute / 60);
    var mm := Pad2(absolute % 60);
    var sign := if total >= 0 then "+" else "-";
    var lbl := FormatOffsetLabel(offsetMinutes);
    Pad2Minutes(absolute % 60);
    assert lbl == "GMT" + sign + hh + ":" + mm;
    var body := lbl[4..];
    assert body == hh + ":" + mm;
    assert body[..|body| - 3] == hh;
    assert body[|body| - 2..] == mm;
    assert lbl[|lbl| - 2..] == mm;
    assert lbl[4..|lbl| - 3] == hh;
    Pad2Value(absolute / 60);
    Pad2Value(absolute % 60);
  }

  /** The two examples: nine hours east, three and a half hours west. */
  lemma OffsetLabelExamples()
    ensures FormatOffsetLabel(540.0) == "GMT+09:00"
    ensures FormatOffsetLabel(-210.0) == "GMT-03:30"
  {
    assert Round(540.0) == 540;
    assert Round(-210.0) == -210;
    assert NatToString(9) == "9";
    assert NatToString(0) == "0";
    assert NatToString(3) == "3";
    assert NatToString(30) == NatToString(3) + [DigitChar(0)];
  }

  // ---- the city table ----

  /** The locales the language toggle cycles through, in order. */
  const Languages: seq<string> := ["ko-KR", "en-US", "ja-JP"]
  const FallbackLocale: string := "en-US"

  datatype City = City(id: string, abbr: string, timeZone: string, names: map<string, string>)

  function Names(ko: string, en: string, ja: string): map<string, string> {
    map["ko-KR" := ko, "en-US" := en, "ja-JP" := ja]
  }

  const Cities: seq<City> := [
    City("seoul", "SEL", "Asia/Seoul", Names("\U{c11c}\U{c6b8}", "Seoul", "\U{30bd}\U{30a6}\U{30eb}")),
    City("tokyo", "TYO", "Asia/Tokyo", Names("\U{b3c4}\U{cfc4}", "Tokyo", "\U{6771}\U{4eac}")),
    City("sydney", "SYD", "Australia/Sydney", Names("\U{c2dc}\U{b4dc}\U{b2c8}", "Sydney", "\U{30b7}\U{30c9}\U{30cb}\U{30fc}")),
    City("dubai", "DXB", "Asia/Dubai", Names("\U{b450}\U{bc14}\U{c774}", "Dubai", "\U{30c9}\U{30d0}\U{30a4}")),
    City("mumbai", "BOM", "Asia/Kolkata", Names("\U{bb44}\U{bc14}\U{c774}", "Mumbai", "\U{30e0}\U{30f3}\U{30d0}\U{30a4}")),
    City("london", "LON", "Europe/London", Names("\U{B7F0}\U{B358}", "London", "\U{30ed}\U{30f3}\U{30c9}\U{30f3}")),
    City("paris", "PAR", "Europe/Paris", Names("\U{D30C}\U{B9AC}", "Paris", "\U{30d1}\U{30ea}")),
    City("newyork", "NYC", "America/New_York", Names("\U{B274}\U{C695}", "New York", "\U{30cb}\U{30e5}\U{30fc}\U{30e8}\U{30fc}\U{30af}")),
    City("losangeles", "LAX", "America/Los_Angeles", Names("\U{B85C}\U{C2A4}\U{C564}\U{C824}\U{B808}\U{C2A4}", "Los Angeles", "\U{30ed}\U{30b5}\U{30f3}\U{30bc}\U{30eb}\U{30b9}")),
    City("santiago", "SCL", "America/Santiago", Names("\U{C0B0}\U{D2F0}\U{C544}\U{ACE0}", "Santiago", "\U{30b5}\U{30f3}\U{30c6}\U{30a3}\U{30a2}\U{30b4}"))
  ]

  /** `cities.find((city) => city.id === cityId)`. */
  function GetCity(cities: seq<City>, cityId: string): (r: Option<City>)
    ensures r.Some? ==> r.value in cities && r.value.id == cityId
    ensures r.None? <==> forall k :: 0 <= k < |cities| ==> cities[k].id != cityId
  {
    if cities == [] then None
    else if cities[0].id == cityId then Some(cities[0])
    else GetCity(cities[1..], cityId)
  }

  /** `find` returns the first city carrying the id. */
  lemma {:induction false} GetCityFirst(cities: seq<City>, cityId: string, k: nat)
    requires k < |cities| && cities[k].id == cityId
    requires forall j :: 0 <= j < k ==> cities[j].id != cityId
    ensures GetCity(cities, cityId) == Some(cities[k])
  {
    if k > 0 {
      GetCityFirst(cities[1..], cityId, k - 1);
    }
  }

  /**
   * `city.names[locale] || city.names["en-US"]`: the locale's name unless it
   * is missing or empty, then the English one (`undefined` when that is
   * missing too).
   */
  function GetCityName(city: City, locale: string): (r: Option<string>)
    ensures locale in city.names && city.names[locale] != "" ==> r == Some(city.names[locale])
    ensures (locale !in city.names || city.names[locale] == "") ==>
      r == (if FallbackLocale in city.names then Some(city.names[FallbackLocale]) else None)
  {
    if locale in city.names && city.names[locale] != "" then Some(city.names[locale])
    else if FallbackLocale in city.names then Some(city.names[FallbackLocale])
    else None
  }

  /** Every city of the table has a name in every language of the toggle. */
  lemma CityNamesComplete(k: nat, l: nat)
    requires k < |Cities| && l < |Languages|
    ensures GetCityName(Cities[k], Languages[l]).Some?
    ensures GetCityName(Cities[k], Languages[l]).value != ""
  {
  }

  // ---- night shading ----

  /**
   * `Number.isFinite(hour) ? hour < 6 || hour >= 18 : false`, with a hour
   * that did not read as a number given as None.
   */
  predicate IsNight(hour: Option<int>) {
    hour.Some? && (hour.value < 6 || hour.value >= 18)
  }

  /** Daytime is the twelve hours from 6 to 17; an unreadable hour counts as day. */
  lemma IsNightSpec(hour: Option<int>)
    ensures !IsNight(hour) <==> hour.None? || 6 <= hour.value < 18
  {
  }

  // ---- the page state ----

  /** What the page shows on one city marker. */
  datatype Marker = Marker(cityId: string, timeZone: string, active: bool, ariaSelected: string,
                           night: bool, title: string)

  /** A marker after a city is selected: active and aria-selected exactly when it is that city's. */
  function Marked(m: Marker, cityId: string): Marker {
    m.(active := m.cityId == cityId, ariaSelected := BoolText(m.cityId == cityId))
  }

  /** `String(isActive)`. */
  function BoolText(b: bool): string { if b then "true" else "false" }

  /** The marker as `buildCityButtons` creates it. */
  function NewMarker(city: City, locale: string): Marker {
    Marker(city.id, city.timeZone, false, "false", false, GetCityName(city, locale).GetOr(""))
  }

  function MarkerIds(markers: seq<Marker>): seq<string> {
    seq(|markers|, k requires 0 <= k < |markers| => markers[k].cityId)
  }

  class Clock {
    var cities: seq<City>
    var currentLocaleIndex: nat
    var currentCityId: string
    /** `cityButtons`, one marker per city, in insertion order. */
    var markers: seq<Marker>
    /** The `aria-activedescendant` attribute of the city list. */
    var activeDescendant: Option<string>

    ghost predicate Valid()
      reads this
    {
      currentLocaleIndex < |Languages| && |markers| == |cities|
      && forall k :: 0 <= k < |markers| ==> markers[k].cityId == cities[k].id
    }

    /** The module's initial values followed by `buildCityButtons()`. */
    constructor(cities: seq<City>)
      ensures Valid()
      ensures this.cities == cities && currentLocaleIndex == 0 && currentCityId == "seoul"
      ensures activeDescendant == None
      ensures markers == seq(|cities|, k requires 0 <= k < |cities| => NewMarker(cities[k], Languages[0]))
    {
      this.cities := cities;
      currentLocaleIndex := 0;
      currentCityId := "seoul";
      activeDescendant := None;
      var built: seq<Marker> := [];
      var i := 0;
      while i < |cities|
        invariant 0 <= i <= |cities|
        invariant built == seq(i, k requires 0 <= k < i => NewMarker(cities[k], Languages[0]))
      {
        built := built + [NewMarker(cities[i], Languages[0])];
        i := i + 1;
      }
      markers := built;
    }

    /** The language of the page. */
    function Locale(): string
      reads this
      requires Valid()
    {
      Languages[currentLocaleIndex]
    }

    /**
     * `selectCity(cityId)`: an unknown id changes nothing; a known one
     * becomes the current city and its marker the only active one.
     */
    method SelectCity(cityId: string)
      requires Valid()
      modifies this
      ensures Valid() && cities == old(cities) && currentLocaleIndex == old(currentLocaleIndex)
      ensures GetCity(cities, cityId).None? ==>
        currentCityId == old(currentCityId) && markers == old(markers) && activeDescendant == old(activeDescendant)
      ensures GetCity(cities, cityId).Some? ==> currentCityId == cityId
      ensures GetCity(cities, cityId).Some? ==> (|markers| == |old(markers)|
        && forall k :: 0 <= k < |markers| ==> markers[k] == Marked(old(markers[k]), cityId))
      ensures GetCity(cities, cityId).Some? ==> activeDescendant == Some("city-" + cityId)
    {
      if GetCity(cities, cityId).None? {
        return;
      }
      currentCityId := cityId;
      var ms, desc := markers, activeDescendant;
      var k := 0;
      while k < |ms|
        invariant 0 <= k <= |ms| == |markers|
        invariant forall j :: 0 <= j < k ==> ms[j] == Marked(markers[j], cityId)
        invariant forall j :: k <= j < |ms| ==> ms[j] == markers[j]
        invariant (exists j :: 0 <= j < k && markers[j].cityId == cityId) ==> desc == Some("city-" + cityId)
      {
        var m := ms[k];
        var isActive := m.cityId == cityId;
        ms := ms[k := m.(active := isActive, ariaSelected := BoolText(isActive))];
        if isActive {
          desc := Some("city-" + m.cityId);
        }
        k := k + 1;
      }
      // the city is known, so its marker was met
      var c := GetCity(cities, cityId).value;
      var j :| 0 <= j < |cities| && cities[j] == c;
      assert markers[j].cityId == cityId;
      markers, activeDescendant := ms, desc;
    }

    /** The click handler of the language toggle: the next language, cyclically. */
    method ToggleLanguage()
      requires Valid()
      modifies this`currentLocaleIndex
      ensures Valid()
      ensures currentLocaleIndex == (old(currentLocaleIndex) + 1) % |Languages|
    {
      currentLocaleIndex := (currentLocaleIndex + 1) % |Languages|;
    }

    /**
     * `updateCityDayStates(now)`: each marker's night flag from its city's
     * local hour, and its title in the current language.
     */
    method UpdateCityDayStates(localHour: string -> Option<int>)
      requires Valid()
      modifies this`markers
      ensures Valid() && |markers| == |old(markers)|
      ensures forall k :: 0 <= k < |markers| ==>
        markers[k] == old(markers[k]).(night := IsNight(localHour(cities[k].timeZone)),
                                       title := GetCityName(cities[k], Locale()).GetOr(""))
    {
      var k := 0;
      while k < |markers|
        invariant 0 <= k <= |markers| == |old(markers)|
        invariant Valid()
        invariant forall j :: 0 <= j < k ==>
          markers[j] == old(markers[j]).(night := IsNight(localHour(cities[j].timeZone)),
                                         title := GetCityName(cities[j], Locale()).GetOr(""))
        invariant forall j :: k <= j < |markers| ==> markers[j] == old(markers[j])
      {
        var city := cities[k];
        markers := markers[k := markers[k].(night := IsNight(localHour(city.timeZone)),
                                            title := GetCityName(city, Locale()).GetOr(""))];
        k := k + 1;
      }
    }
  }

  /** Three presses of the toggle bring the page back to its language. */
  lemma ToggleCycle(i: nat)
    requires i < |Languages|
    ensures ((((i + 1) % |Languages|) + 1) % |Languages| + 1) % |Languages| == i
  {
  }
}
