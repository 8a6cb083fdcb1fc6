// The `roast_browser_history` tool handler: its argument defaults, the choice
// of privacy preset, and the guard that stops an empty history from reaching
// the roast generator.
module Server {
  import opened Wrappers
  import opened BrowserHistory
  import opened HistoryExtraction
  import opened PrivacyFilter
  import opened Subsequences

  /** `Partial<PrivacySettings>`: a field that is None is absent. */
  datatype PartialSettings = PartialSettings(
    excludeSensitiveSites: Option<bool>,
    excludeWorkSites: Option<bool>,
    excludePersonalSites: Option<bool>,
    maxHistoryAge: Option<int>,
    allowNightTimeAnalysis: Option<bool>)

  /** `{ ...base, ...custom }` */
  function Spread(base: PrivacySettings, custom: PartialSettings): PrivacySettings {
    PrivacySettings(
      custom.excludeSensitiveSites.GetOr(base.excludeSensitiveSites),
      custom.excludeWorkSites.GetOr(base.excludeWorkSites),
      custom.excludePersonalSites.GetOr(base.excludePersonalSites),
      custom.maxHistoryAge.GetOr(base.maxHistoryAge),
      custom.allowNightTimeAnalysis.GetOr(base.allowNightTimeAnalysis))
  }

  /** `getPrivacySettings` */
  function GetPrivacySettings(level: string, customSettings: PartialSettings): PrivacySettings {
    if level == "paranoid" then ParanoidPrivacySettings
    else if level == "custom" then Spread(DefaultPrivacySettings, customSettings)
    else DefaultPrivacySettings
  }

  /** "paranoid" ignores the supplied fields; "custom" takes every supplied
      field and the default for the rest; any other level is the default. */
  lemma GetPrivacySettingsMeaning(level: string, customSettings: PartialSettings)
    ensures level == "paranoid" ==> GetPrivacySettings(level, customSettings) == ParanoidPrivacySettings
    ensures level != "paranoid" && level != "custom" ==>
              GetPrivacySettings(level, customSettings) == DefaultPrivacySettings
    ensures level == "custom" && customSettings == PartialSettings(None, None, None, None, None) ==>
              GetPrivacySettings(level, customSettings) == DefaultPrivacySettings
    ensures level == "custom" ==>
              var s := GetPrivacySettings(level, customSettings);
              (customSettings.excludeSensitiveSites.Some? ==> s.excludeSensitiveSites == customSettings.excludeSensitiveSites.value) &&
              (customSettings.excludeWorkSites.Some? ==> s.excludeWorkSites == customSettings.excludeWorkSites.value) &&
              (customSettings.excludePersonalSites.Some? ==> s.excludePersonalSites == customSettings.excludePersonalSites.value) &&
              (customSettings.maxHistoryAge.Some? ==> s.maxHistoryAge == customSettings.maxHistoryAge.value) &&
              (customSettings.allowNightTimeAnalysis.Some? ==> s.allowNightTimeAnalysis == customSettings.allowNightTimeAnalysis.value)
    ensures level != "paranoid" ==>
              var s := GetPrivacySettings(level, customSettings);
              (customSettings.excludeSensitiveSites.None? ==> s.excludeSensitiveSites) &&
              (customSettings.excludeWorkSites.None? ==> !s.excludeWorkSites) &&
              (customSettings.excludePersonalSites.None? ==> !s.excludePersonalSites) &&
              (customSettings.maxHistoryAge.None? ==> s.maxHistoryAge == 7) &&
              (customSettings.allowNightTimeAnalysis.None? ==> s.allowNightTimeAnalysis)
  {
  }

  /** The tool's arguments; a field that is None was not given. */
  datatype RoastArgs = RoastArgs(
    days: Option<int>,
    severity: Option<string>,
    includeChrome: Option<bool>,
    includeSafari: Option<bool>,
    privacyLevel: Option<string>,
    excludeSensitive: Option<bool>,
    excludeWork: Option<bool>)

  /** The reply: the "nothing to roast" text (which quotes `days`), or the
      history handed to the roast generator with the severity and level. */
  datatype RoastResponse =
    | NothingToRoast(days: int)
    | Roasted(history: seq<Entry>, severity: string, privacyLevel: string)

  /** The settings passed as `customSettings` by the handler. */
  function HandlerCustomSettings(args: RoastArgs): PartialSettings {
    PartialSettings(Some(args.excludeSensitive.GetOr(true)), Some(args.excludeWork.GetOr(false)),
                    Some(false), Some(args.days.GetOr(7)), Some(true))
  }

  function HandlerSettings(args: RoastArgs): PrivacySettings {
    GetPrivacySettings(args.privacyLevel.GetOr("default"), HandlerCustomSettings(args))
  }

  function HandlerOptions(args: RoastArgs): ExtractionOptions {
    ExtractionOptions(args.days.GetOr(7), args.includeChrome.GetOr(true), args.includeSafari.GetOr(true))
  }

  /** The history after extraction, filtering and sanitizing. */
  function RoastInput(args: RoastArgs, cutoffFor: int -> int, safari: ReadOutcome<SafariRow>,
                      probe: string -> ReadOutcome<ChromeRow>, parse: UrlParser,
                      now: int, hourOf: int -> Hour): seq<Entry>
  {
    var extracted := Extracted(HandlerOptions(args), cutoffFor(args.days.GetOr(7)), safari, probe, parse);
    SanitizeHistory(FilterHistory(extracted, HandlerSettings(args), now, hourOf), parse)
  }

  function Response(args: RoastArgs, cutoffFor: int -> int, safari: ReadOutcome<SafariRow>,
                    probe: string -> ReadOutcome<ChromeRow>, parse: UrlParser,
                    now: int, hourOf: int -> Hour): RoastResponse
  {
    var history := RoastInput(args, cutoffFor, safari, probe, parse, now, hourOf);
    if |history| == 0 then NothingToRoast(args.days.GetOr(7))
    else Roasted(history, args.severity.GetOr("medium"), args.privacyLevel.GetOr("default"))
  }

  /** `handleRoastHistory` */
  method HandleRoastHistory(args: RoastArgs, cutoffFor: int -> int, safari: ReadOutcome<SafariRow>,
                            probe: string -> ReadOutcome<ChromeRow>, parse: UrlParser,
                            now: int, hourOf: int -> Hour)
    returns (response: RoastResponse)
    ensures response == Response(args, cutoffFor, safari, probe, parse, now, hourOf)
  {
    var days := args.days.GetOr(7);
    var severity := args.severity.GetOr("medium");
    var includeChrome := args.includeChrome.GetOr(true);
    var includeSafari := args.includeSafari.GetOr(true);
    var privacyLevel := args.privacyLevel.GetOr("default");
    var excludeSensitive := args.excludeSensitive.GetOr(true);
    var excludeWork := args.excludeWork.GetOr(false);

    var history := ExtractHistory(ExtractionOptions(days, includeChrome, includeSafari), cutoffFor, safari, probe, parse);
    var privacySettings := GetPrivacySettings(privacyLevel,
      PartialSettings(Some(excludeSensitive), Some(excludeWork), Some(false), Some(days), Some(true)));
    history := FilterHistory(history, privacySettings, now, hourOf);
    history := SanitizeHistory(history, parse);

    if |history| == 0 {
      response := NothingToRoast(days);
      return;
    }
    response := Roasted(history, severity, privacyLevel);
  }

  /** The generator is reached only with a non-empty history, and it sees the
      sanitized form of every extracted entry the settings keep, in order, and
      nothing else. */
  lemma RoastGuard(args: RoastArgs, cutoffFor: int -> int, safari: ReadOutcome<SafariRow>,
                   probe: string -> ReadOutcome<ChromeRow>, parse: UrlParser, now: int, hourOf: int -> Hour)
    ensures var r := Response(args, cutoffFor, safari, probe, parse, now, hourOf);
            r.Roasted? <==> exists e :: e in Extracted(HandlerOptions(args), cutoffFor(args.days.GetOr(7)), safari, probe, parse) &&
                                        Keep(e, HandlerSettings(args), now, hourOf)
    ensures var r := Response(args, cutoffFor, safari, probe, parse, now, hourOf);
            r.Roasted? ==>
              |r.history| > 0 &&
              forall i :: 0 <= i < |r.history| ==>
                exists e :: e in Extracted(HandlerOptions(args), cutoffFor(args.days.GetOr(7)), safari, probe, parse) &&
                            Keep(e, HandlerSettings(args), now, hourOf) && r.history[i] == SanitizeEntry(e, parse)
    ensures var r := Response(args, cutoffFor, safari, probe, parse, now, hourOf);
            r.NothingToRoast? ==> r.days == args.days.GetOr(7)
  {
    var extracted := Extracted(HandlerOptions(args), cutoffFor(args.days.GetOr(7)), safari, probe, parse);
    PipelineFacts(extracted, HandlerSettings(args), now, hourOf, parse);
  }

  /** What filtering then sanitizing keeps of any history. */
  lemma PipelineFacts(extracted: seq<Entry>, settings: PrivacySettings, now: int, hourOf: int -> Hour, parse: UrlParser)
    ensures var out := SanitizeHistory(FilterHistory(extracted, settings, now, hourOf), parse);
            |out| > 0 <==> exists e :: e in extracted && Keep(e, settings, now, hourOf)
    ensures var out := SanitizeHistory(FilterHistory(extracted, settings, now, hourOf), parse);
            forall i :: 0 <= i < |out| ==>
              exists e :: e in extracted && Keep(e, settings, now, hourOf) && out[i] == SanitizeEntry(e, parse)
  {
    var kept := FilterHistory(extracted, settings, now, hourOf);
    FilterHistoryMeaning(extracted, settings, now, hourOf);
    SanitizeHistoryPointwise(kept, parse);
    if exists e :: e in extracted && Keep(e, settings, now, hourOf) {
      var e :| e in extracted && Keep(e, settings, now, hourOf);
      assert e in kept;
    }
    forall i | 0 <= i < |kept|
      ensures exists e :: e in extracted && Keep(e, settings, now, hourOf) &&
                          SanitizeHistory(kept, parse)[i] == SanitizeEntry(e, parse)
    {
      assert kept[i] in kept;
    }
    if |kept| > 0 {
      assert kept[0] in kept;
    }
  }

  /** Unless the level is "custom", `exclude_sensitive` and `exclude_work` do
      not change the reply: both presets ignore them. */
  lemma ExcludeFlagsOnlyForCustom(args: RoastArgs, excludeSensitive: Option<bool>, excludeWork: Option<bool>,
                                  cutoffFor: int -> int, safari: ReadOutcome<SafariRow>,
                                  probe: string -> ReadOutcome<ChromeRow>, parse: UrlParser,
                                  now: int, hourOf: int -> Hour)
    requires args.privacyLevel != Some("custom")
    ensures Response(args, cutoffFor, safari, probe, parse, now, hourOf)
         == Response(args.(excludeSensitive := excludeSensitive, excludeWork := excludeWork),
                     cutoffFor, safari, probe, parse, now, hourOf)
  {
    var other := args.(excludeSensitive := excludeSensitive, excludeWork := excludeWork);
    assert HandlerSettings(args) == HandlerSettings(other);
    assert HandlerOptions(args) == HandlerOptions(other);
  }

  /** With the default or paranoid level, or with "custom" and
      `exclude_sensitive` left on, no roasted visit is to a sensitive domain or
      a subdomain of one. */
  lemma NoSensitiveVisitRoasted(args: RoastArgs, cutoffFor: int -> int, safari: ReadOutcome<SafariRow>,
                                probe: string -> ReadOutcome<ChromeRow>, parse: UrlParser,
                                now: int, hourOf: int -> Hour)
    requires args.privacyLevel != Some("custom") || args.excludeSensitive != Some(false)
    ensures forall e :: e in RoastInput(args, cutoffFor, safari, probe, parse, now, hourOf) ==>
              !IsSensitiveDomain(e.domain)
  {
    var extracted := Extracted(HandlerOptions(args), cutoffFor(args.days.GetOr(7)), safari, probe, parse);
    var settings := HandlerSettings(args);
    var kept := FilterHistory(extracted, settings, now, hourOf);
    assert settings.excludeSensitiveSites;
    FilterHistoryMeaning(extracted, settings, now, hourOf);
    SanitizeHistoryPointwise(kept, parse);
    forall e | e in RoastInput(args, cutoffFor, safari, probe, parse, now, hourOf)
      ensures !IsSensitiveDomain(e.domain)
    {
      var i :| 0 <= i < |kept| && SanitizeHistory(kept, parse)[i] == e;
      assert kept[i] in kept;
      KeptEntryProperties(kept[i], settings, now, hourOf);
    }
  }
}
