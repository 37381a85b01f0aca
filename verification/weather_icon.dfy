/**
 * `wxIcon`: the icon shown next to a reminder's weather label, chosen by
 * the first keyword the lower-cased label contains.
 */
module WeatherIcon {
  import opened Wrappers
  import opened Text
  import Weather

  /** ☀️ ☁️ 🌦️ 🌧️ 🌨️ 🌫️ ⛈️ and the fallback 🌡️. */
  datatype Icon = Sun | Cloud | SunRain | Rain | Snow | Fog | Storm | Thermometer

  /** The keyword tests in the order they are made, with the icon each one gives. */
  const Rules: seq<(string, Icon)> := [
    ("clear", Sun), ("cloud", Cloud), ("drizzle", SunRain), ("rain showers", SunRain),
    ("rain", Rain), ("snow showers", Snow), ("snow", Snow), ("fog", Fog), ("thunder", Storm)]

  /** `summary?.toLowerCase() || ""`. */
  function Lowered(summary: Option<string>): string {
    match summary
    case Some(s) => ToLower(s)
    case None => ""
  }

  /** Rule `k` is the first whose keyword occurs in `s`. */
  predicate FirstRule(s: string, k: int) {
    && 0 <= k < |Rules|
    && Contains(s, Rules[k].0)
    && forall j :: 0 <= j < k ==> !Contains(s, Rules[j].0)
  }

  /**
   * The keyword chain of `wxIcon` on an already lower-cased summary: the
   * icon of the first rule whose keyword `s` contains, the thermometer when
   * none does.
   */
  function IconOf(s: string): (icon: Icon)
    ensures icon == Thermometer <==> forall j :: 0 <= j < |Rules| ==> !Contains(s, Rules[j].0)
    ensures icon != Thermometer ==> exists k :: FirstRule(s, k) && icon == Rules[k].1
  {
    if Contains(s, "clear") then assert FirstRule(s, 0); Sun
    else if Contains(s, "cloud") then assert FirstRule(s, 1); Cloud
    else if Contains(s, "drizzle") then assert FirstRule(s, 2); SunRain
    else if Contains(s, "rain showers") then assert FirstRule(s, 3); SunRain
    else if Contains(s, "rain") then assert FirstRule(s, 4); Rain
    else if Contains(s, "snow showers") then assert FirstRule(s, 5); Snow
    else if Contains(s, "snow") then assert FirstRule(s, 6); Snow
    else if Contains(s, "fog") then assert FirstRule(s, 7); Fog
    else if Contains(s, "thunder") then assert FirstRule(s, 8); Storm
    else Thermometer
  }

  /** `wxIcon`: the keyword chain applied to the lower-cased summary. */
  function WxIcon(summary: Option<string>): (icon: Icon)
    ensures summary.None? ==> icon == Thermometer
    ensures icon != Thermometer ==> summary.Some? && exists k :: FirstRule(ToLower(summary.value), k) && icon == Rules[k].1
    ensures summary.Some? ==> forall k :: FirstRule(ToLower(summary.value), k) ==> icon == Rules[k].1
    ensures icon == Thermometer <==> forall j :: 0 <= j < |Rules| ==> !Contains(Lowered(summary), Rules[j].0)
  {
    assert summary.None? ==> forall j :: 0 <= j < |Rules| ==> !Contains(Lowered(summary), Rules[j].0);
    IconOf(Lowered(summary))
  }

  /** A missing or empty summary shows the thermometer. */
  lemma NoSummaryIsThermometer(summary: Option<string>)
    requires summary.None? || summary.value == ""
    ensures WxIcon(summary) == Thermometer
  {
    var s := Lowered(summary);
    assert s == "";
    forall j | 0 <= j < |Rules| ensures !Contains(s, Rules[j].0) {
      assert |Rules[j].0| > 0;
    }
  }

  /** The icon each weather label is meant to show. */
  function LabelIcon(name: string): Icon {
    match name
    case "Clear" => Sun
    case "Clouds" => Cloud
    case "Fog" => Fog
    case "Drizzle" => SunRain
    case "Rain" => Rain
    case "Snow" => Snow
    case "Rain showers" => SunRain
    case "Snow showers" => Snow
    case "Thunderstorm" => Storm
    case _ => Thermometer
  }

  /** Keyword `j` holds the character `missing[j]`, which `s` lacks, for every `j < k`. */
  predicate MissesEarlierKeywords(s: string, k: nat, missing: string) {
    && k <= |Rules| && |missing| == k
    && forall j :: 0 <= j < k ==> missing[j] in Rules[j].0 && missing[j] !in s
  }

  /** The chain picks rule `k` when `k` is the first rule whose keyword occurs. */
  lemma IconOfFirstRule(s: string, k: int)
    requires FirstRule(s, k)
    ensures IconOf(s) == Rules[k].1
  {
    if IconOf(s) != Thermometer {
      var k' :| FirstRule(s, k') && IconOf(s) == Rules[k'].1;
      assert k' == k;
    }
  }

  /** Rule `k` fires when `s` contains its keyword and lacks a character of each earlier one. */
  lemma IconByMissingCharacters(s: string, k: nat, missing: string)
    requires MissesEarlierKeywords(s, k, missing)
    ensures k < |Rules| && Contains(s, Rules[k].0) ==> IconOf(s) == Rules[k].1
    ensures k == |Rules| ==> IconOf(s) == Thermometer
  {
    forall j | 0 <= j < k ensures !Contains(s, Rules[j].0) {
      AbsentChar(s, Rules[j].0, missing[j]);
    }
    if k < |Rules| && Contains(s, Rules[k].0) {
      IconOfFirstRule(s, k);
    }
  }


  lemma ClearIcon()
    ensures WxIcon(Some("Clear")) == Sun
  {
    assert ToLower("Clear") == "clear";
    ClearKeywords();
  }

  lemma ClearKeywords()
    ensures IconOf("clear") == Sun
  {
    assert IsPrefix(Rules[0].0, "clear");
    IconByMissingCharacters("clear", 0, "");
  }

  lemma CloudsIcon()
    ensures WxIcon(Some("Clouds")) == Cloud
  {
    assert ToLower("Clouds") == "clouds";
    CloudsKeywords();
  }

  lemma CloudsKeywords()
    ensures IconOf("clouds") == Cloud
  {
    assert IsPrefix(Rules[1].0, "clouds");
    IconByMissingCharacters("clouds", 1, "e");
  }

  lemma DrizzleIcon()
    ensures WxIcon(Some("Drizzle")) == SunRain
  {
    assert ToLower("Drizzle") == "drizzle";
    DrizzleKeywords();
  }

  lemma DrizzleKeywords()
    ensures IconOf("drizzle") == SunRain
  {
    assert IsPrefix(Rules[2].0, "drizzle");
    IconByMissingCharacters("drizzle", 2, "cc");
  }

  lemma FogIcon()
    ensures WxIcon(Some("Fog")) == Fog
  {
    assert ToLower("Fog") == "fog";
    FogKeywords();
  }

  lemma FogKeywords()
    ensures IconOf("fog") == Fog
  {
    assert IsPrefix(Rules[7].0, "fog");
    IconByMissingCharacters("fog", 7, "ccdaass");
  }

  lemma RainIcon()
    ensures WxIcon(Some("Rain")) == Rain
  {
    assert ToLower("Rain") == "rain";
    RainKeywords();
  }

  lemma RainKeywords()
    ensures IconOf("rain") == Rain
  {
    assert IsPrefix(Rules[4].0, "rain");
    IconByMissingCharacters("rain", 4, "ccds");
  }

  lemma SnowIcon()
    ensures WxIcon(Some("Snow")) == Snow
  {
    assert ToLower("Snow") == "snow";
    SnowKeywords();
  }

  lemma SnowKeywords()
    ensures IconOf("snow") == Snow
  {
    assert IsPrefix(Rules[6].0, "snow");
    IconByMissingCharacters("snow", 6, "ccdaah");
  }

  lemma RainShowersIcon()
    ensures WxIcon(Some("Rain showers")) == SunRain
  {
    assert ToLower("Rain showers") == "rain showers";
    RainShowersKeywords();
  }

  lemma RainShowersKeywords()
    ensures IconOf("rain showers") == SunRain
  {
    assert IsPrefix(Rules[3].0, "rain showers");
    IconByMissingCharacters("rain showers", 3, "ccd");
  }

  lemma SnowShowersIcon()
    ensures WxIcon(Some("Snow showers")) == Snow
  {
    assert ToLower("Snow showers") == "snow showers";
    SnowShowersKeywords();
  }

  lemma SnowShowersKeywords()
    ensures IconOf("snow showers") == Snow
  {
    assert IsPrefix(Rules[5].0, "snow showers");
    IconByMissingCharacters("snow showers", 5, "ccdaa");
  }

  lemma ThunderstormIcon()
    ensures WxIcon(Some("Thunderstorm")) == Storm
  {
    assert ToLower("Thunderstorm") == "thunderstorm";
    ThunderstormKeywords();
  }

  lemma ThunderstormKeywords()
    ensures IconOf("thunderstorm") == Storm
  {
    assert IsPrefix(Rules[8].0, "thunderstorm");
    IconByMissingCharacters("thunderstorm", 8, "cczaawwf");
  }

  lemma UnknownIcon()
    ensures WxIcon(Some("Unknown")) == Thermometer
  {
    assert ToLower("Unknown") == "unknown";
    UnknownKeywords();
  }

  lemma UnknownKeywords()
    ensures IconOf("unknown") == Thermometer
  {
    IconByMissingCharacters("unknown", 9, "ccdaassft");
  }

  /**
   * Each of the ten labels shows the icon meant for it: the thermometer
   * exactly for `"Unknown"`, and the showers icons although the showers
   * labels also contain "rain" and "snow".
   */
  lemma LabelIcons(name: string)
    requires name in Weather.Labels
    ensures WxIcon(Some(name)) == LabelIcon(name)
    ensures WxIcon(Some(name)) == Thermometer <==> name == "Unknown"
  {
    match name
    case "Clear" => ClearIcon();
    case "Clouds" => CloudsIcon();
    case "Fog" => FogIcon();
    case "Drizzle" => DrizzleIcon();
    case "Rain" => RainIcon();
    case "Snow" => SnowIcon();
    case "Rain showers" => RainShowersIcon();
    case "Snow showers" => SnowShowersIcon();
    case "Thunderstorm" => ThunderstormIcon();
    case "Unknown" => UnknownIcon();
  }

  /** The label `wmoToText` gives any code shows its intended icon. */
  lemma CodeIcon(code: int)
    ensures WxIcon(Some(Weather.WmoToText(code))) == LabelIcon(Weather.WmoToText(code))
    ensures WxIcon(Some(Weather.WmoToText(code))) == Thermometer <==> Weather.WmoToText(code) == "Unknown"
  {
    LabelIcons(Weather.WmoToText(code));
  }
}
