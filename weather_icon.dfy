/** `get_weather_emoji`: the icon a forecast card shows for a weather description. */
module WeatherIcon {
  import opened Wrappers
  import opened Text

  /** The eight icons the classifier can return. */
  datatype Icon =
    | Unknown       // no description
    | Clear         // "cerah"
    | Cloudy        // "berawan"
    | Overcast      // "mendung"
    | HeavyRain     // "hujan" with "lebat"
    | Showers       // "hujan" without "lebat"
    | Thunderstorm  // "badai" or "petir"
    | Fair          // none of the keywords

  /** The emoji each icon is drawn as (base code point, then U+FE0F for emoji style). */
  function Glyph(icon: Icon): (g: string)
  {
    match icon
    case Unknown => "\U{2753}"
    case Clear => "\U{2600}\U{FE0F}"
    case Cloudy => "\U{2601}\U{FE0F}"
    case Overcast => "\U{1F32B}\U{FE0F}"
    case HeavyRain => "\U{1F327}\U{FE0F}"
    case Showers => "\U{1F326}\U{FE0F}"
    case Thunderstorm => "\U{26C8}\U{FE0F}"
    case Fair => "\U{1F324}\U{FE0F}"
  }

  /** Different icons are drawn differently, so the icon can be read back from the card. */
  lemma GlyphInjective(a: Icon, b: Icon)
    ensures Glyph(a) == Glyph(b) ==> a == b
  {
  }

  /**
   * `get_weather_emoji(desc)`: missing or empty text gives Unknown; otherwise the first
   * keyword found in the lower-cased text decides, in the order cerah, berawan, mendung,
   * hujan (refined by lebat), badai or petir; no keyword gives Fair.
   */
  function WeatherEmoji(desc: Option<string>): (icon: Icon)
    ensures icon == Unknown <==> desc == None || desc == Some("")
  {
    if desc.None? || desc.value == "" then Unknown
    else
      var lower := Lower(desc.value);
      if Contains("cerah", lower) then Clear
      else if Contains("berawan", lower) then Cloudy
      else if Contains("mendung", lower) then Overcast
      else if Contains("hujan", lower) then (if Contains("lebat", lower) then HeavyRain else Showers)
      else if Contains("badai", lower) || Contains("petir", lower) then Thunderstorm
      else Fair
  }

  // ---------------------------------------------------------------- the precedence table

  /** A rule fires when every one of its keywords occurs in the text. */
  datatype Rule = Rule(keywords: seq<string>, icon: Icon)

  predicate Fires(rule: Rule, text: string)
  {
    AllOccur(rule.keywords, text)
  }

  predicate AllOccur(keywords: seq<string>, text: string)
  {
    keywords == [] || (Contains(keywords[0], text) && AllOccur(keywords[1..], text))
  }

  /** The classifier's precedence, highest first, as a table. */
  const Rules: seq<Rule> := [
    Rule(["cerah"], Clear),
    Rule(["berawan"], Cloudy),
    Rule(["mendung"], Overcast),
    Rule(["hujan", "lebat"], HeavyRain),
    Rule(["hujan"], Showers),
    Rule(["badai"], Thunderstorm),
    Rule(["petir"], Thunderstorm)
  ]

  /** The icon of the first rule that fires, or `otherwise`. */
  function FirstMatch(rules: seq<Rule>, text: string, otherwise: Icon): (icon: Icon)
  {
    if rules == [] then otherwise
    else if Fires(rules[0], text) then rules[0].icon
    else FirstMatch(rules[1..], text, otherwise)
  }

  /** One step of the first-match scan. */
  lemma FirstMatchStep(rule: Rule, rest: seq<Rule>, text: string, otherwise: Icon)
    ensures FirstMatch([rule] + rest, text, otherwise)
         == if Fires(rule, text) then rule.icon else FirstMatch(rest, text, otherwise)
  {
    assert ([rule] + rest)[1..] == rest;
  }

  lemma FiresOne(k: string, icon: Icon, text: string)
    ensures Fires(Rule([k], icon), text) == Contains(k, text)
  {
    assert [k][1..] == [];
    assert AllOccur([], text);
    assert AllOccur([k], text) == Contains(k, text);
  }

  lemma FiresTwo(k1: string, k2: string, icon: Icon, text: string)
    ensures Fires(Rule([k1, k2], icon), text) == (Contains(k1, text) && Contains(k2, text))
  {
    assert [k1, k2][1..] == [k2] && [k2][1..] == [];
    assert AllOccur([], text);
    assert AllOccur([k2], text) == Contains(k2, text);
    assert AllOccur([k1, k2], text) == (Contains(k1, text) && AllOccur([k2], text));
  }

  /** The if/elif chain is exactly the first-match reading of the precedence table. */
  lemma {:induction false} WeatherEmojiFollowsRules(desc: string)
    requires desc != ""
    ensures WeatherEmoji(Some(desc)) == FirstMatch(Rules, Lower(desc), Fair)
  {
    var t := Lower(desc);
    var r6 := [Rule(["petir"], Thunderstorm)];
    var r5 := [Rule(["badai"], Thunderstorm)] + r6;
    var r4 := [Rule(["hujan"], Showers)] + r5;
    var r3 := [Rule(["hujan", "lebat"], HeavyRain)] + r4;
    var r2 := [Rule(["mendung"], Overcast)] + r3;
    var r1 := [Rule(["berawan"], Cloudy)] + r2;
    assert Rules == [Rule(["cerah"], Clear)] + r1;
    FirstMatchStep(Rule(["cerah"], Clear), r1, t, Fair);
    FirstMatchStep(Rule(["berawan"], Cloudy), r2, t, Fair);
    FirstMatchStep(Rule(["mendung"], Overcast), r3, t, Fair);
    FirstMatchStep(Rule(["hujan", "lebat"], HeavyRain), r4, t, Fair);
    FirstMatchStep(Rule(["hujan"], Showers), r5, t, Fair);
    FirstMatchStep(Rule(["badai"], Thunderstorm), r6, t, Fair);
    FirstMatchStep(Rule(["petir"], Thunderstorm), [], t, Fair);
    assert r6 == r6 + [];
    FiresOne("cerah", Clear, t);
    FiresOne("berawan", Cloudy, t);
    FiresOne("mendung", Overcast, t);
    FiresTwo("hujan", "lebat", HeavyRain, t);
    FiresOne("hujan", Showers, t);
    FiresOne("badai", Thunderstorm, t);
    FiresOne("petir", Thunderstorm, t);
  }

  /** The classifier ignores case: lower-casing the description first changes nothing. */
  lemma WeatherEmojiIgnoresCase(desc: string)
    ensures WeatherEmoji(Some(Lower(desc))) == WeatherEmoji(Some(desc))
  {
    LowerIdempotent(desc);
    LowerEmpty(desc);
  }

  /**
   * "Hujan Petir" (rain with thunder), in any capitalisation (any text whose lower-case
   * form is "hujan petir"), gets the showers icon and not the thunderstorm one: "hujan"
   * is tested before "petir".
   */
  lemma {:induction false} RainBeforeThunder(desc: string)
    requires Lower(desc) == "hujan petir"
    ensures WeatherEmoji(Some(desc)) == Showers
  {
    HujanPetirHas(Lower(desc));
    HujanPetirLacks(Lower(desc));
    RainIntensity(desc);
  }

  /** The keywords "hujan petir" holds: "hujan" and "petir". */
  lemma HujanPetirHas(t: string)
    requires t == "hujan petir"
    ensures Contains("hujan", t) && Contains("petir", t)
  {
    assert t[..5] == "hujan";
    assert OccursAt("petir", t, 6);
    ContainsIff("petir", t);
  }

  /** The keywords "hujan petir" lacks: each has a letter the text does not. */
  lemma HujanPetirLacks(t: string)
    requires t == "hujan petir"
    ensures !Contains("cerah", t) && !Contains("berawan", t) && !Contains("mendung", t)
    ensures !Contains("lebat", t)
  {
    assert 'c' !in t && 'b' !in t && 'm' !in t && 'l' !in t;
    MissingCharNotContained("cerah", t, 'c');
    MissingCharNotContained("berawan", t, 'b');
    MissingCharNotContained("mendung", t, 'm');
    MissingCharNotContained("lebat", t, 'l');
  }

  /** A rain description that no earlier keyword matches is heavy rain exactly when it says "lebat". */
  lemma RainIntensity(desc: string)
    requires Contains("hujan", Lower(desc))
    requires !Contains("cerah", Lower(desc)) && !Contains("berawan", Lower(desc)) && !Contains("mendung", Lower(desc))
    ensures WeatherEmoji(Some(desc)) == (if Contains("lebat", Lower(desc)) then HeavyRain else Showers)
  {
    LowerEmpty(desc);
  }
}
