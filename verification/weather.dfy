/**
 * The forecast-selection logic behind a reminder's weather label: the WMO
 * weather-code table, rounding a `HH:MM` time to the hour, and picking the
 * hourly code for a reminder's moment, by exact key or else by the nearest
 * hour. The geocoder and forecast requests are inputs, and so is the
 * conversion of a date-time string to an instant.
 */
module Weather {
  import opened Wrappers
  import Text
  import opened Numbers

  // ---------------------------------------------------------------------
  // wmoToText

  /**
   * The codes of WMO code table 4677 that Open-Meteo reports, with their
   * labels, entry by entry; `None` for a code outside the table.
   */
  function WmoTable(code: int): Option<string> {
    match code
    case 0 => Some("Clear")
    case 1 => Some("Clouds")
    case 2 => Some("Clouds")
    case 3 => Some("Clouds")
    case 45 => Some("Fog")
    case 48 => Some("Fog")
    case 51 => Some("Drizzle")
    case 53 => Some("Drizzle")
    case 55 => Some("Drizzle")
    case 56 => Some("Drizzle")
    case 57 => Some("Drizzle")
    case 61 => Some("Rain")
    case 63 => Some("Rain")
    case 65 => Some("Rain")
    case 66 => Some("Rain")
    case 67 => Some("Rain")
    case 71 => Some("Snow")
    case 73 => Some("Snow")
    case 75 => Some("Snow")
    case 77 => Some("Snow")
    case 80 => Some("Rain showers")
    case 81 => Some("Rain showers")
    case 82 => Some("Rain showers")
    case 85 => Some("Snow showers")
    case 86 => Some("Snow showers")
    case 95 => Some("Thunderstorm")
    case 96 => Some("Thunderstorm")
    case 99 => Some("Thunderstorm")
    case _ => None
  }

  /** The ten labels a code can be given. */
  const Labels: set<string> := {
    "Clear", "Clouds", "Fog", "Drizzle", "Rain", "Snow",
    "Rain showers", "Snow showers", "Thunderstorm", "Unknown"}

  /**
   * `wmoToText`: a chain of membership tests over code lists, first match
   * wins, `"Unknown"` for every code outside the table.
   */
  function WmoToText(code: int): (name: string)
    ensures name in Labels
    ensures WmoTable(code).Some? <==> name != "Unknown"
    ensures WmoTable(code).Some? ==> name == WmoTable(code).value
  {
    if code in [0] then "Clear"
    else if code in [1, 2, 3] then "Clouds"
    else if code in [45, 48] then "Fog"
    else if code in [51, 53, 55, 56, 57] then "Drizzle"
    else if code in [61, 63, 65, 66, 67] then "Rain"
    else if code in [71, 73, 75, 77] then "Snow"
    else if code in [80, 81, 82] then "Rain showers"
    else if code in [85, 86] then "Snow showers"
    else if code in [95, 96, 99] then "Thunderstorm"
    else "Unknown"
  }

  /** `wmoToText` of a series entry: a `null` or missing entry matches no list. */
  function CodeLabel(code: Option<int>): (name: string)
    ensures name in Labels
    ensures code.None? ==> name == "Unknown"
  {
    match code
    case Some(c) => WmoToText(c)
    case None => "Unknown"
  }

  /** Every label but `"Unknown"` is given to some code, and only to codes of the table. */
  lemma WmoLabelsCovered(name: string)
    requires name in Labels && name != "Unknown"
    ensures exists code :: WmoTable(code) == Some(name) && WmoToText(code) == name
  {
    var witnesses := map[
      "Clear" := 0, "Clouds" := 1, "Fog" := 45, "Drizzle" := 51, "Rain" := 61,
      "Snow" := 71, "Rain showers" := 80, "Snow showers" := 85, "Thunderstorm" := 95];
    assert WmoToText(witnesses[name]) == name;
  }

  // ---------------------------------------------------------------------
  // roundToNearestHour

  /** The text up to the first `:`, the first field of `split(":")`. */
  function BeforeColon(s: string): (r: string)
    ensures r <= s && ':' !in r
    ensures |r| < |s| ==> s[|r|] == ':'
  {
    if |s| == 0 || s[0] == ':' then [] else [s[0]] + BeforeColon(s[1..])
  }

  /** The first two fields of `s.split(":")`; the second is missing when `s` has no `:`. */
  function HourMinuteFields(s: string): (f: (string, Option<string>))
    ensures ':' in s <==> f.1.Some?
    ensures f.0 <= s
    ensures f.1.Some? ==> |f.0| < |s| && s[|f.0|] == ':' && f.1.value <= s[|f.0| + 1..]
    ensures ':' !in f.0 && (f.1.Some? ==> ':' !in f.1.value)
    ensures f.1.None? ==> f.0 == s
    ensures f.1.Some? ==> var rest := s[|f.0| + 1..];
      |f.1.value| < |rest| ==> rest[|f.1.value|] == ':'
  {
    var h := BeforeColon(s);
    if |h| == |s| then
      assert h == s;
      (h, None)
    else
      var rest := s[|h| + 1..];
      var m := BeforeColon(rest);
      (h, Some(m))
  }

  /** `mStr || "0"`: a missing or empty minutes field reads as `"0"`. */
  function MinutesText(field: Option<string>): (t: string)
    ensures |t| > 0
    ensures field.Some? && field.value != "" ==> t == field.value
    ensures field.None? || field.value == "" ==> t == "0"
  {
    if field.Some? && field.value != "" then field.value else "0"
  }

  /**
   * `if (m >= 30) h = (h + 1) % 24`, `None` standing for `NaN`: a `NaN`
   * hour stays `NaN`, and `NaN` minutes compare false.
   */
  function Advance(h: Option<int>, m: Option<int>): (r: Option<int>)
    ensures r.None? <==> h.None?
    ensures h.Some? && !(m.Some? && m.value >= 30) ==> r == h
    ensures h.Some? && m.Some? && m.value >= 30 && h.value >= -1 ==> r == Some((h.value + 1) % 24)
    ensures h.Some? && m.Some? && m.value >= 30 ==> -24 < r.value < 24
    ensures h.Some? && m.Some? && m.value >= 30 && h.value < -1 ==>
      r.value <= 0 && (h.value + 1 - r.value) % 24 == 0
    ensures h.Some? && m.Some? && m.value >= 30 ==> r.value == h.value + 1 - 24 * TruncDiv(h.value + 1, 24)
  {
    match h
    case None => None
    case Some(v) => if m.Some? && m.value >= 30 then Some(JsRem(v + 1, 24)) else h
  }

  /** The hour `roundToNearestHour` arrives at. */
  function RoundedHour(hhmm: string): Option<int> {
    var f := HourMinuteFields(hhmm);
    Advance(ParseInt(f.0), ParseInt(MinutesText(f.1)))
  }

  /** `String(h).padStart(2, "0")`, with `String(NaN)` being `"NaN"`. */
  function HourText(h: Option<int>): (s: string)
    ensures |s| >= 2 && ':' !in s
  {
    match h
    case None => "NaN"
    case Some(v) =>
      var s := PadStart2(IntToString(v));
      assert ':' !in s by {
        if v < 0 {
          assert s[1..] == NatToString(-v);
        }
      }
      s
  }

  /** `roundToNearestHour`: the rounded hour followed by `":00"`. */
  function RoundToNearestHour(hhmm: string): (r: string)
    ensures |r| >= 5 && r[|r| - 3..] == ":00"
    ensures ':' !in r[..|r| - 3]
  {
    HourText(RoundedHour(hhmm)) + ":00"
  }

  /** `BeforeColon` stops at the first colon after a colon-free prefix. */
  lemma {:induction false} NoColonPrefix(a: string, b: string)
    requires ':' !in a && |b| > 0 && b[0] == ':'
    ensures BeforeColon(a + b) == a
    decreases |a|
  {
    if |a| > 0 {
      NoColonPrefix(a[1..], b);
      assert (a + b)[1..] == a[1..] + b;
    }
  }

  /** `BeforeColon` keeps a colon-free string whole. */
  lemma {:induction false} NoColon(a: string)
    requires ':' !in a
    ensures BeforeColon(a) == a
    decreases |a|
  {
    if |a| > 0 {
      NoColon(a[1..]);
    }
  }

  /** Splitting `a:b` with colon-free `a` and `b` gives back `a` and `b`. */
  lemma FieldsOfHourMinute(a: string, b: string)
    requires ':' !in a && ':' !in b
    ensures HourMinuteFields(a + ":" + b) == (a, Some(b))
  {
    var s := a + ":" + b;
    assert s == a + (":" + b);
    NoColonPrefix(a, ":" + b);
    assert s[|a| + 1..] == b;
    NoColon(b);
  }

  /** `HourText` reads back through `parseInt`, including `NaN`. */
  lemma ParseHourText(h: Option<int>)
    ensures ParseInt(HourText(h)) == h
  {
    match h
    case None => ParseNaN();
    case Some(v) =>
      if 0 <= v < 10 {
        PadStart2OfIntToString(v);
        ParseIntOfTwoDigits(v);
      } else {
        LongIntToString(v);
        ParseIntOfIntToString(v);
      }
  }

  /** `parseInt("NaN")` is `NaN`. */
  lemma ParseNaN()
    ensures ParseInt("NaN").None?
  {
    assert !Text.IsWhitespace('N') && !IsDigit('N');
    ParseIntOfNonNumeric("NaN");
  }

  /** Outside 0..9 `String(v)` already has two characters, so padding keeps it. */
  lemma LongIntToString(v: int)
    requires !(0 <= v < 10)
    ensures PadStart2(IntToString(v)) == IntToString(v)
  {
    if v >= 10 {
      assert |NatToString(v)| == |NatToString(v / 10)| + 1;
    } else {
      assert |IntToString(v)| == 1 + |NatToString(-v)|;
    }
  }

  /** The rounding step on a clock hour. */
  lemma AdvanceClockHour(h: nat, m: Option<int>)
    requires h < 24
    ensures Advance(Some(h), m) == Some(if m.Some? && m.value >= 30 then (h + 1) % 24 else h)
  {
  }

  /** `roundToNearestHour` in terms of its two parsed fields. */
  lemma RoundOfFields(s: string)
    ensures var f := HourMinuteFields(s);
      RoundToNearestHour(s) == HourText(Advance(ParseInt(f.0), ParseInt(MinutesText(f.1)))) + ":00"
  {
  }

  /** `parseInt("0")` is 0, the value missing minutes take. */
  lemma ParseZero()
    ensures ParseInt("0") == Some(0)
  {
    assert IntToString(0) == "0";
    ParseIntOfIntToString(0);
  }

  /**
   * Whatever the text, an hour field that parses to a clock hour comes out
   * as a two-digit clock hour: the same one, or the next one modulo 24 when
   * the minutes parse to 30 or more.
   */
  lemma RoundKeepsClockHour(s: string, h: nat)
    requires ParseInt(HourMinuteFields(s).0) == Some(h) && h < 24
    ensures var m := ParseInt(MinutesText(HourMinuteFields(s).1));
      RoundToNearestHour(s) == TwoDigits(if m.Some? && m.value >= 30 then (h + 1) % 24 else h) + ":00"
  {
    var m := ParseInt(MinutesText(HourMinuteFields(s).1));
    RoundOfFields(s);
    AdvanceClockHour(h, m);
    ClockHourText(if m.Some? && m.value >= 30 then (h + 1) % 24 else h);
  }

  /** A clock hour is written with two digits. */
  lemma ClockHourText(v: int)
    requires 0 <= v < 24
    ensures HourText(Some(v)) == TwoDigits(v)
  {
    PadStart2OfIntToString(v);
  }

  /**
   * On a well-formed `HH:MM` time the result is the two-digit hour followed
   * by `":00"`: `h` below the half hour, `h + 1` modulo 24 from it on.
   */
  lemma RoundWellFormed(h: nat, m: nat)
    requires h < 24 && m < 60
    ensures RoundToNearestHour(TwoDigits(h) + ":" + TwoDigits(m))
      == TwoDigits(if m < 30 then h else (h + 1) % 24) + ":00"
  {
    WellFormedFields(h, m);
    RoundKeepsClockHour(TwoDigits(h) + ":" + TwoDigits(m), h);
  }

  /** The fields of a well-formed `HH:MM` time parse to its hour and minutes. */
  lemma WellFormedFields(h: nat, m: nat)
    requires h < 24 && m < 60
    ensures var f := HourMinuteFields(TwoDigits(h) + ":" + TwoDigits(m));
      ParseInt(f.0) == Some(h) && ParseInt(MinutesText(f.1)) == Some(m)
  {
    var hh := TwoDigits(h);
    var mm := TwoDigits(m);
    FieldsOfHourMinute(hh, mm);
    assert MinutesText(Some(mm)) == mm;
    ParseIntOfTwoDigits(h);
    ParseIntOfTwoDigits(m);
  }

  /** `23:30` rounds up past midnight to `00:00`. */
  lemma RoundWrapsAtMidnight()
    ensures RoundToNearestHour("23:30") == "00:00"
  {
    assert (23 + 1) % 24 == 0;
    RoundWellFormed(23, 30);
    HalfPastElevenText();
  }

  /**
   * The literals `"23:30"` and `"00:00"` spelled as the two-digit pieces the
   * rounding works on, so that the wrap-around lemma can name them.
   */
  lemma HalfPastElevenText()
    ensures TwoDigits(23) + ":" + TwoDigits(30) == "23:30"
    ensures TwoDigits(0) + ":00" == "00:00"
  {
  }

  /** Without a minutes field the minutes count as zero and the hour is kept. */
  lemma RoundMissingMinutes(s: string)
    requires ':' !in s
    ensures RoundToNearestHour(s) == HourText(ParseInt(s)) + ":00"
  {
    NoColon(s);
    assert HourMinuteFields(s) == (s, None);
    RoundOfFields(s);
    ParseZero();
  }

  /** An empty minutes field (`"7:"`) also counts as zero minutes. */
  lemma RoundEmptyMinutes(s: string)
    requires ':' !in s
    ensures RoundToNearestHour(s + ":") == HourText(ParseInt(s)) + ":00"
  {
    FieldsOfHourMinute(s, "");
    assert s + ":" + "" == s + ":";
    RoundOfFields(s + ":");
    ParseZero();
  }

  /** Rounding an already rounded time changes nothing, whatever the input was. */
  lemma RoundIdempotent(s: string)
    ensures RoundToNearestHour(RoundToNearestHour(s)) == RoundToNearestHour(s)
  {
    RoundOfRounded(RoundedHour(s));
  }

  /** A rounded time, `HH:00` or `NaN:00`, rounds to itself. */
  lemma RoundOfRounded(h: Option<int>)
    ensures RoundToNearestHour(HourText(h) + ":00") == HourText(h) + ":00"
  {
    var t := HourText(h);
    ParseHourText(h);
    RoundOfHourText(t, h);
    ZeroMinutesText(t);
  }

  /** `":00"` appended whole is the colon and the minutes field `"00"` appended in turn. */
  lemma ZeroMinutesText(t: string)
    ensures t + ":00" == t + ":" + "00"
  {
  }

  /** A colon-free hour text followed by zero minutes rounds to the hour it parses to. */
  lemma RoundOfHourText(t: string, h: Option<int>)
    requires ':' !in t && ParseInt(t) == h
    ensures RoundToNearestHour(t + ":" + "00") == HourText(h) + ":00"
  {
    ParseDoubleZero();
    RoundOfEarlyMinutes(t, "00", h);
  }

  /** Minutes that parse below 30 keep the hour. */
  lemma RoundOfEarlyMinutes(t: string, b: string, h: Option<int>)
    requires ':' !in t && ':' !in b && b != "" && ParseInt(t) == h
    requires ParseInt(b).Some? && ParseInt(b).value < 30
    ensures RoundToNearestHour(t + ":" + b) == HourText(h) + ":00"
  {
    FieldsOfHourMinute(t, b);
    RoundOfFields(t + ":" + b);
  }

  /** `parseInt("00")` is 0, the minutes of a rounded time. */
  lemma ParseDoubleZero()
    ensures ParseInt("00") == Some(0)
  {
    ParseIntOfTwoDigits(0);
    assert TwoDigits(0) == "00";
  }

  // ---------------------------------------------------------------------
  // The selection inside getWeatherSummary

  /** A geocoder hit; only its presence matters once the request is made. */
  datatype GeoHit = GeoHit(name: string, latitude: real, longitude: real)

  /**
   * The hourly series of a forecast response; a missing `hourly` object
   * gives two empty series. A `null` code is `None`.
   */
  datatype Forecast = Forecast(times: seq<string>, codes: seq<Option<int>>)

  /** `${dateISO.slice(0, 10)}T${roundToNearestHour(time)}`: the key looked up in `times`. */
  function TargetKey(dateISO: string, time: string): (k: string)
    ensures var head := Text.Slice(dateISO, 10) + "T";
      |k| >= |head| + 5 && k[..|head|] == head && k[|k| - 3..] == ":00"
  {
    var head := Text.Slice(dateISO, 10) + "T";
    var rounded := RoundToNearestHour(time);
    var k := HourKey(dateISO, rounded);
    assert k == head + rounded;
    assert k[..|head|] == head;
    assert k[|k| - 3..] == rounded[|rounded| - 3..];
    k
  }

  /** The day part of `dateISO`, a `T`, and the rounded time. */
  function HourKey(dateISO: string, rounded: string): string
  {
    Text.Slice(dateISO, 10) + "T" + rounded
  }

  /** For a full date and a well-formed time the key is `YYYY-MM-DDTHH:00`. */
  lemma TargetKeyWellFormed(dateISO: string, h: nat, m: nat)
    requires |dateISO| >= 10 && h < 24 && m < 60
    ensures TargetKey(dateISO, TwoDigits(h) + ":" + TwoDigits(m))
      == dateISO[..10] + "T" + TwoDigits(if m < 30 then h else (h + 1) % 24) + ":00"
    ensures |TargetKey(dateISO, TwoDigits(h) + ":" + TwoDigits(m))| == 16
  {
    RoundWellFormed(h, m);
    HourKeyOfFullHour(dateISO, TwoDigits(if m < 30 then h else (h + 1) % 24));
  }

  /** A full date and a two-character hour give the 16-character key `YYYY-MM-DDTHH:00`. */
  lemma HourKeyOfFullHour(dateISO: string, hh: string)
    requires |dateISO| >= 10 && |hh| == 2
    ensures HourKey(dateISO, hh + ":00") == dateISO[..10] + "T" + hh + ":00"
    ensures |HourKey(dateISO, hh + ":00")| == 16
  {
    var head := Text.Slice(dateISO, 10) + "T";
    assert head == dateISO[..10] + "T";
    AppendAssoc(head, hh, ":00");
  }

  /** Regrouping a three-piece key, the step from `HourKey`'s shape to `head + hh + ":00"`. */
  lemma AppendAssoc(a: string, b: string, c: string)
    ensures a + (b + c) == a + b + c
  {
  }

  /** `times.indexOf(key)`: the first position holding `key`, or -1. */
  function IndexOf(times: seq<string>, key: string): (i: int)
    ensures -1 <= i < |times|
    ensures i >= 0 ==> times[i] == key && forall j :: 0 <= j < i ==> times[j] != key
    ensures i < 0 <==> key !in times
  {
    if |times| == 0 then -1
    else if times[0] == key then 0
    else
      var i := IndexOf(times[1..], key);
      if i < 0 then -1 else i + 1
  }

  /** `codes[i]`: `None` for a `null` entry or a position past the end. */
  function CodeAt(codes: seq<Option<int>>, i: int): (c: Option<int>)
    ensures 0 <= i < |codes| ==> c == codes[i]
    ensures !(0 <= i < |codes|) ==> c.None?
  {
    if 0 <= i < |codes| then codes[i] else None
  }

  /** `Math.abs(a - b)` of two instants; `None` (`NaN`) when either is an invalid date. */
  function Distance(a: Option<int>, b: Option<int>): (d: Option<nat>)
    ensures d.Some? <==> a.Some? && b.Some?
    ensures d.Some? ==> d.value == a.value - b.value || d.value == b.value - a.value
  {
    if a.Some? && b.Some? then
      Some(if a.value >= b.value then a.value - b.value else b.value - a.value)
    else None
  }

  /**
   * The distance of every hour of the series from the target moment, using
   * `instant` for `+new Date(text)`.
   */
  function Distances(times: seq<string>, instant: string -> Option<int>, target: string): (ds: seq<Option<nat>>)
    ensures |ds| == |times|
    ensures forall i :: 0 <= i < |times| ==> ds[i] == Distance(instant(times[i]), instant(target))
  {
    seq(|times|, i requires 0 <= i < |times| => Distance(instant(times[i]), instant(target)))
  }

  /** `bestDiff`, which starts at `Infinity`. */
  datatype Bound = Infinity | Finite(n: nat)

  predicate Below(d: nat, b: Bound) {
    b.Infinity? || d < b.n
  }

  /**
   * The `forEach` from position `i` on, with `best` and `bestDiff` as left by
   * the earlier positions: a `NaN` distance never compares below.
   */
  function Scan(diffs: seq<Option<nat>>, i: nat, best: nat, bestDiff: Bound): (r: nat)
    requires i <= |diffs|
    ensures r == best || (i <= r < |diffs| && diffs[r].Some?)
    decreases |diffs| - i
  {
    if i == |diffs| then best
    else if diffs[i].Some? && Below(diffs[i].value, bestDiff) then
      Scan(diffs, i + 1, i, Finite(diffs[i].value))
    else Scan(diffs, i + 1, best, bestDiff)
  }

  /** The index the nearest-hour fallback picks. */
  function Nearest(diffs: seq<Option<nat>>): (b: nat)
    ensures IsFirstNearest(diffs, b)
  {
    ScanFindsFirstNearest(diffs, 0, 0, Infinity);
    Scan(diffs, 0, 0, Infinity)
  }

  /** Some hour of the series has a valid distance. */
  predicate AnyDistance(diffs: seq<Option<nat>>) {
    exists j :: 0 <= j < |diffs| && diffs[j].Some?
  }

  /**
   * `b` is the first position of least distance: in range, no farther than
   * any position, strictly nearer than every earlier one; position 0 when
   * no distance is valid.
   */
  predicate IsFirstNearest(diffs: seq<Option<nat>>, b: nat) {
    && (|diffs| > 0 ==> b < |diffs|)
    && (AnyDistance(diffs) ==>
          && b < |diffs| && diffs[b].Some?
          && (forall j :: 0 <= j < |diffs| && diffs[j].Some? ==> diffs[b].value <= diffs[j].value)
          && (forall j :: 0 <= j < b && diffs[j].Some? ==> diffs[b].value < diffs[j].value))
    && (!AnyDistance(diffs) ==> b == 0)
  }

  /** What the scan has established about the positions before `i`. */
  predicate ScanState(diffs: seq<Option<nat>>, i: nat, best: nat, bestDiff: Bound)
    requires i <= |diffs|
  {
    && (bestDiff.Infinity? ==> best == 0 && forall j :: 0 <= j < i ==> diffs[j].None?)
    && (bestDiff.Finite? ==>
          && best < i && diffs[best] == Some(bestDiff.n)
          && (forall j :: 0 <= j < i && diffs[j].Some? ==> bestDiff.n <= diffs[j].value)
          && (forall j :: 0 <= j < best && diffs[j].Some? ==> bestDiff.n < diffs[j].value))
  }

  lemma {:induction false} ScanFindsFirstNearest(diffs: seq<Option<nat>>, i: nat, best: nat, bestDiff: Bound)
    requires i <= |diffs| && ScanState(diffs, i, best, bestDiff)
    ensures IsFirstNearest(diffs, Scan(diffs, i, best, bestDiff))
    decreases |diffs| - i
  {
    if i == |diffs| {
      if bestDiff.Infinity? {
        assert !AnyDistance(diffs);
      }
    } else if diffs[i].Some? && Below(diffs[i].value, bestDiff) {
      ScanFindsFirstNearest(diffs, i + 1, i, Finite(diffs[i].value));
    } else {
      ScanFindsFirstNearest(diffs, i + 1, best, bestDiff);
    }
  }

  /**
   * The fallback picks the first position of least distance, and that
   * position is the only one with this property.
   */
  lemma NearestIsFirstNearest(diffs: seq<Option<nat>>)
    ensures IsFirstNearest(diffs, Nearest(diffs))
    ensures forall b :: IsFirstNearest(diffs, b) ==> b == Nearest(diffs)
  {
    ScanFindsFirstNearest(diffs, 0, 0, Infinity);
    forall b | IsFirstNearest(diffs, b) ensures b == Nearest(diffs) {
      FirstNearestUnique(diffs, b, Nearest(diffs));
    }
  }

  lemma FirstNearestUnique(diffs: seq<Option<nat>>, b1: nat, b2: nat)
    requires IsFirstNearest(diffs, b1) && IsFirstNearest(diffs, b2)
    ensures b1 == b2
  {

  }

  /**
   * The nearest-hour fallback: the label of the code at the first hour of
   * least distance from `target`.
   */
  function NearestLabel(f: Forecast, instant: string -> Option<int>, target: string): (name: string)
    ensures name in Labels
    ensures exists b: nat :: IsFirstNearest(Distances(f.times, instant, target), b)
                        && name == CodeLabel(CodeAt(f.codes, b))
  {
    var diffs := Distances(f.times, instant, target);
    NearestIsFirstNearest(diffs);
    CodeLabel(CodeAt(f.codes, Nearest(diffs)))
  }

  /**
   * The selection over a forecast's series: the code at the first exact
   * occurrence of `key` when it is there and not `null`; otherwise the
   * nearest hour's code when both series are non-empty; otherwise `None`.
   */
  function Select(f: Forecast, instant: string -> Option<int>, key: string): (r: Option<string>)
    ensures r.Some? ==> r.value in Labels
    ensures var exact := CodeAt(f.codes, IndexOf(f.times, key));
      && (key in f.times && exact.Some? ==> r == Some(WmoToText(exact.value)))
      && (!(key in f.times && exact.Some?) ==>
            && (r.None? <==> |f.times| == 0 || |f.codes| == 0)
            && (r.Some? ==> exists b: nat :: IsFirstNearest(Distances(f.times, instant, key + ":00"), b)
                                      && r.value == CodeLabel(CodeAt(f.codes, b))))
  {
    var idx := IndexOf(f.times, key);
    if idx >= 0 && CodeAt(f.codes, idx).Some? then Some(WmoToText(CodeAt(f.codes, idx).value))
    else if |f.times| > 0 && |f.codes| > 0 then Some(NearestLabel(f, instant, key + ":00"))
    else None
  }

  /**
   * The label of a reminder's moment, once geocoding and the forecast request
   * are done: `None` for a missing hit or a failed request (the `catch`),
   * otherwise the selection over the series at the reminder's target key.
   */
  function WeatherSummary(geo: Option<GeoHit>, forecast: Option<Forecast>,
                          instant: string -> Option<int>, dateISO: string, time: string): (r: Option<string>)
    ensures r.Some? ==> r.value in Labels
    ensures geo.None? || forecast.None? ==> r.None?
    ensures geo.Some? && forecast.Some? ==> r == Select(forecast.value, instant, TargetKey(dateISO, time))
  {
    match (geo, forecast)
    case (Some(_), Some(f)) => Select(f, instant, TargetKey(dateISO, time))
    case _ => None
  }

  /**
   * What `getWeatherSummary` reaches outside the program: the geocoder, the
   * forecast request for a hit's coordinates and a `YYYY-MM-DD` day, and
   * `+new Date(text)`. A failed request or a response that does not parse
   * is `None`, as the `catch` turns it into `null`.
   */
  datatype Services = Services(
    geocode: string -> Option<GeoHit>,
    forecast: (GeoHit, string) -> Option<Forecast>,
    instant: string -> Option<int>)

  /**
   * `getWeatherSummary(city, dateISO, time)`: geocode the city, request the
   * forecast of its day at the hit, then select the label for the rounded
   * hour. Nothing is requested after a geocoder miss.
   */
  function GetWeatherSummary(svc: Services, city: string, dateISO: string, time: string): (r: Option<string>)
    ensures r.Some? ==> r.value in Labels
    ensures svc.geocode(city).None? ==> r.None?
    ensures svc.geocode(city).Some? && svc.forecast(svc.geocode(city).value, Text.Slice(dateISO, 10)).None?
      ==> r.None?
    ensures svc.geocode(city).Some? && svc.forecast(svc.geocode(city).value, Text.Slice(dateISO, 10)).Some?
      ==> r == Select(svc.forecast(svc.geocode(city).value, Text.Slice(dateISO, 10)).value,
                      svc.instant, TargetKey(dateISO, time))
  {
    var geo := svc.geocode(city);
    var forecast := if geo.Some? then svc.forecast(geo.value, Text.Slice(dateISO, 10)) else None;
    WeatherSummary(geo, forecast, svc.instant, dateISO, time)
  }
}
