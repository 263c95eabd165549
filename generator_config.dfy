/**
 * The configuration of `DefaultCommentGenerator` as a value: the stored
 * properties, the two flags and the date-format pattern, how one call of
 * `addConfigurationProperties` changes them, and the date text that
 * `getDateString` derives from them and from the clock.
 */
module GeneratorConfig {
  import opened Wrappers

  /** Key of `PropertyRegistry.COMMENT_GENERATOR_SUPPRESS_DATE`. */
  const SuppressDateKey: string := "suppressDate"

  /** Key of `PropertyRegistry.COMMENT_GENERATOR_SUPPRESS_ALL_COMMENTS`. */
  const SuppressAllCommentsKey: string := "suppressAllComments"

  /** Key of `PropertyRegistry.COMMENT_GENERATOR_DATE_FORMAT`. */
  const DateFormatKey: string := "dateFormat"

  /** `Properties.getProperty`: the value for the key, or `null`. */
  function GetProperty(properties: map<string, string>, key: string): Option<string> {
    if key in properties then Some(properties[key]) else None
  }

  function LowerAscii(c: char): char {
    if 'A' <= c <= 'Z' then (c as int + 32) as char else c
  }

  predicate EqualsIgnoreCase(a: string, b: string) {
    |a| == |b| && forall i :: 0 <= i < |a| ==> LowerAscii(a[i]) == LowerAscii(b[i])
  }

  /** `StringUtility.isTrue`: the value is `"true"` in any letter case; `null` is false. */
  predicate IsTrue(value: Option<string>) {
    value.Some? && EqualsIgnoreCase(value.value, "true")
  }

  /** `StringUtility.stringHasValue`: not `null` and not empty. */
  predicate StringHasValue(value: Option<string>) {
    value.Some? && |value.value| > 0
  }

  /** The generator's fields; `dateFormat` holds the pattern of the `SimpleDateFormat`, if one was built. */
  datatype Settings = Settings(
    properties: map<string, string>,
    suppressDate: bool,
    suppressAllComments: bool,
    dateFormat: Option<string>)

  /** A new generator: no properties, both flags off, no date format. */
  const Initial: Settings := Settings(map[], false, false, None)

  /**
   * One call of `addConfigurationProperties`: the argument is merged into the
   * stored properties, later values winning; both flags are read from the
   * argument alone; the date format changes only to a pattern with content.
   */
  function Merge(current: Settings, properties: map<string, string>): (r: Settings)
    ensures r.properties.Keys == current.properties.Keys + properties.Keys
    ensures forall k :: k in properties ==> r.properties[k] == properties[k]
    ensures forall k :: k in current.properties && k !in properties ==> r.properties[k] == current.properties[k]
    ensures r.suppressDate <==> SuppressDateKey in properties && EqualsIgnoreCase(properties[SuppressDateKey], "true")
    ensures r.suppressAllComments <==>
      SuppressAllCommentsKey in properties && EqualsIgnoreCase(properties[SuppressAllCommentsKey], "true")
    ensures DateFormatKey in properties && properties[DateFormatKey] != "" ==> r.dateFormat == Some(properties[DateFormatKey])
    ensures !(DateFormatKey in properties && properties[DateFormatKey] != "") ==> r.dateFormat == current.dateFormat
  {
    var dateFormatString := GetProperty(properties, DateFormatKey);
    Settings(
      current.properties + properties,
      IsTrue(GetProperty(properties, SuppressDateKey)),
      IsTrue(GetProperty(properties, SuppressAllCommentsKey)),
      if StringHasValue(dateFormatString) then dateFormatString else current.dateFormat)
  }

  /** `isTrue(null)` is false, so a flag whose key is missing is switched off. */
  lemma {:induction false} MissingKeyResetsFlags(current: Settings, properties: map<string, string>)
    ensures SuppressDateKey !in properties ==> !Merge(current, properties).suppressDate
    ensures SuppressAllCommentsKey !in properties ==> !Merge(current, properties).suppressAllComments
  {
  }

  /** The flags depend on the latest argument only, never on what earlier calls stored. */
  lemma {:induction false} FlagsIgnoreStoredProperties(a: Settings, b: Settings, properties: map<string, string>)
    ensures Merge(a, properties).suppressDate == Merge(b, properties).suppressDate
    ensures Merge(a, properties).suppressAllComments == Merge(b, properties).suppressAllComments
  {
  }

  /** A date format survives later calls that carry no pattern with content. */
  lemma {:induction false} DateFormatSurvives(current: Settings, first: map<string, string>, second: map<string, string>)
    requires DateFormatKey in first && first[DateFormatKey] != ""
    requires DateFormatKey !in second || second[DateFormatKey] == ""
    ensures Merge(Merge(current, first), second).dateFormat == Some(first[DateFormatKey])
  {
  }

  /** Setting `suppressDate` to true and then to false leaves it false, and the store holds the later value. */
  lemma LastWriteWins()
    ensures var s := Merge(Merge(Initial, map[SuppressDateKey := "true"]), map[SuppressDateKey := "false"]);
      !s.suppressDate && s.properties[SuppressDateKey] == "false"
  {
  }

  /**
   * The reading of `new Date()`: its `toString` rendering, and what a
   * `SimpleDateFormat` with a given pattern renders it as.
   */
  datatype Clock = Clock(dateToString: string, format: string -> string)

  /**
   * `getDateString`: no date when dates are suppressed, else the configured
   * pattern's rendering of the clock, else the default rendering.
   */
  function DateText(settings: Settings, now: Clock): (r: Option<string>)
    ensures r.None? <==> settings.suppressDate
    ensures r.Some? && settings.dateFormat.Some? ==> r.value == now.format(settings.dateFormat.value)
    ensures r.Some? && settings.dateFormat.None? ==> r.value == now.dateToString
  {
    if settings.suppressDate then None
    else if settings.dateFormat.Some? then Some(now.format(settings.dateFormat.value))
    else Some(now.dateToString)
  }
}
