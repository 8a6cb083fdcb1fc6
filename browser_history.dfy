// History extraction: the two browser-database families, their clocks, the
// row-to-entry mapping, and the merge (concatenate, sort newest first,
// de-duplicate on url and millisecond time). Opening the SQLite files is not
// modelled: each database is given by what reading it yields.
module BrowserHistory {
  import opened Wrappers
  import opened Text
  import StableSort
  import opened Subsequences

  /** The parts of a parsed URL that the core reads. */
  datatype UrlParts = UrlParts(protocol: string, hostname: string, pathname: string)

  /** The WHATWG `new URL(...)` constructor: None where it throws. */
  type UrlParser = string -> Option<UrlParts>

  /** BrowserHistoryEntry; `visitTime` is the Date's millisecond time value. */
  datatype Entry = Entry(
    url: string,
    title: string,
    visitTime: int,
    visitCount: int,
    browser: string,
    domain: string,
    isOrganic: Option<bool>,
    transitionType: Option<string>)

  /** HistoryExtractionOptions */
  datatype ExtractionOptions = ExtractionOptions(days: int, includeChrome: bool, includeSafari: bool)

  /** What reading one history database yields: no file at the path, a failure
      that the source catches (a locked or malformed database), or the rows of
      its joined visit tables in the order SQLite returns them. */
  datatype ReadOutcome<R> = Missing | Failed | Rows(rows: seq<R>)

  /** One row of Safari's history_visits joined with history_items. */
  datatype SafariRow = SafariRow(
    url: string,
    title: Option<string>,
    visitTime: real,          // seconds since 2001-01-01T00:00:00Z (a REAL column)
    loadSuccessful: int,
    origin: Option<int>,
    visitCount: Option<int>)

  /** One row of a Chromium urls table joined with visits. */
  datatype ChromeRow = ChromeRow(
    url: string,
    title: Option<string>,
    visitTime: int,           // microseconds since 1601-01-01T00:00:00Z
    visitCount: Option<int>,
    transition: int,
    fromVisit: Option<int>)

  // ---------------------------------------------------------------------------
  // Clocks

  /** `new Date("2001-01-01T00:00:00Z").getTime()` */
  const SafariEpoch: int := 978307200000
  /** `new Date("1601-01-01T00:00:00Z").getTime()` */
  const ChromeEpoch: int := -11644473600000

  /** The time value of `new Date(x)`: x truncated toward zero. */
  function TruncateReal(x: real): (r: int)
    ensures x >= 0.0 ==> r as real <= x < r as real + 1.0
    ensures x < 0.0 ==> r as real - 1.0 < x <= r as real
  {
    if x >= 0.0 then x.Floor else -((-x).Floor)
  }

  /** The time value of `new Date(n / 1000)` for an integer n: n / 1000
      truncated toward zero. */
  function TruncateThousandths(n: int): (r: int)
    ensures n >= 0 ==> r * 1000 <= n < r * 1000 + 1000
    ensures n < 0 ==> r * 1000 - 1000 < n <= r * 1000
  {
    if n >= 0 then n / 1000 else -((-n) / 1000)
  }

  /** `new Date(safariEpoch + visit_time * 1000)` */
  function SafariToMillis(seconds: real): int {
    TruncateReal(SafariEpoch as real + seconds * 1000.0)
  }

  /** `(cutoffTimestamp - safariEpoch) / 1000` */
  function SafariCutoff(cutoff: int): real {
    (cutoff - SafariEpoch) as real / 1000.0
  }

  /** `new Date(chromeEpoch + visit_time / 1000)` */
  function ChromeToMillis(micros: int): int {
    TruncateThousandths(ChromeEpoch * 1000 + micros)
  }

  /** `(cutoffTimestamp - chromeEpoch) * 1000` */
  function ChromeCutoff(cutoff: int): int {
    (cutoff - ChromeEpoch) * 1000
  }

  /** Converting a cutoff to Safari's clock and back is exact. */
  lemma SafariCutoffRoundTrip(cutoff: int)
    ensures SafariToMillis(SafariCutoff(cutoff)) == cutoff
  {
    assert SafariEpoch as real + SafariCutoff(cutoff) * 1000.0 == cutoff as real;
  }

  /** Converting a cutoff to Chromium's clock and back is exact. */
  lemma ChromeCutoffRoundTrip(cutoff: int)
    ensures ChromeToMillis(ChromeCutoff(cutoff)) == cutoff
  {
    assert ChromeEpoch * 1000 + ChromeCutoff(cutoff) == cutoff * 1000;
  }

  /** A Safari time strictly after the native cutoff never maps before the
      cutoff, and one that maps strictly after the cutoff passes the query. */
  lemma SafariCutoffBounds(seconds: real, cutoff: int)
    ensures seconds > SafariCutoff(cutoff) ==> SafariToMillis(seconds) >= cutoff
    ensures SafariToMillis(seconds) > cutoff ==> seconds > SafariCutoff(cutoff)
  {
    var x := SafariEpoch as real + seconds * 1000.0;
    assert seconds > SafariCutoff(cutoff) <==> x > cutoff as real;
  }

  /** The same two bounds for Chromium's clock. */
  lemma ChromeCutoffBounds(micros: int, cutoff: int)
    ensures micros > ChromeCutoff(cutoff) ==> ChromeToMillis(micros) >= cutoff
    ensures ChromeToMillis(micros) > cutoff ==> micros > ChromeCutoff(cutoff)
  {
    var n := ChromeEpoch * 1000 + micros;
    assert micros > ChromeCutoff(cutoff) <==> n > cutoff * 1000;
  }

  /** The query's strict comparison still admits a visit in the cutoff's own
      millisecond: one microsecond after the native cutoff. */
  lemma ChromeCutoffMillisecondAdmitted(cutoff: int)
    requires cutoff >= 0
    ensures ChromeToMillis(ChromeCutoff(cutoff) + 1) == cutoff
  {
    assert ChromeEpoch * 1000 + ChromeCutoff(cutoff) + 1 == cutoff * 1000 + 1;
  }

  // ---------------------------------------------------------------------------
  // Row classification

  /** `extractDomain`: the URL's hostname, or "unknown" where parsing fails. */
  function ExtractDomain(parse: UrlParser, url: string): (d: string)
    ensures parse(url).None? ==> d == "unknown"
    ensures parse(url).Some? ==> d == parse(url).value.hostname
  {
    match parse(url)
    case Some(parts) => parts.hostname
    case None => "unknown"
  }

  /** `classifyOrganicBrowsing`: Safari origins 0 and 1 are organic. */
  function ClassifyOrganicBrowsing(origin: Option<int>): (organic: bool)
    ensures organic <==> origin.Some? && origin.value in {0, 1}
  {
    if origin == Some(0) then true
    else if origin == Some(1) then true
    else false
  }

  /** `classifyOrganicChromeBrowsing`: everything but typed (1) and
      auto-bookmark (2) is organic; the from-visit is not consulted. */
  function ClassifyOrganicChromeBrowsing(transition: int, fromVisit: Option<int>): (organic: bool)
    ensures !organic <==> transition in {1, 2}
  {
    if transition == 0 then true
    else if transition == 1 then false
    else if transition == 2 then false
    else if transition == 7 then true
    else true
  }

  const TransitionNames: seq<string> := [
    "link", "typed", "auto_bookmark", "auto_subframe", "manual_subframe",
    "generated", "auto_toplevel", "form_submit", "reload"]

  /** `getChromeTransitionType`: the label of a raw transition value. */
  function GetChromeTransitionType(transition: int): (name: string)
    ensures 0 <= transition < 9 ==> name == TransitionNames[transition]
    ensures !(0 <= transition < 9) ==> name == "unknown"
  {
    if 0 <= transition < |TransitionNames| then TransitionNames[transition] else "unknown"
  }

  /** The nine labels are distinct and differ from "unknown", so a label
      determines its code. */
  lemma TransitionLabelsDistinct(t1: int, t2: int)
    ensures GetChromeTransitionType(t1) != "unknown" <==> 0 <= t1 <= 8
    ensures 0 <= t1 <= 8 && 0 <= t2 <= 8 && t1 != t2
         ==> GetChromeTransitionType(t1) != GetChromeTransitionType(t2)
  {
  }

  /** A Chromium visit is non-organic exactly when it is labelled typed or
      auto_bookmark. */
  lemma OrganicUnlessTypedOrBookmark(transition: int, fromVisit: Option<int>)
    ensures !ClassifyOrganicChromeBrowsing(transition, fromVisit)
       <==> GetChromeTransitionType(transition) in {"typed", "auto_bookmark"}
  {
    TransitionLabelsDistinct(transition, 1);
    TransitionLabelsDistinct(transition, 2);
  }

  /** `row.visit_count || 1` */
  function VisitCountOrOne(count: Option<int>): (n: int)
    ensures n != 0
    ensures count.Some? && count.value != 0 ==> n == count.value
    ensures count.None? || count.value == 0 ==> n == 1
  {
    match count
    case Some(c) => if c != 0 then c else 1
    case None => 1
  }

  // ---------------------------------------------------------------------------
  // Safari

  /** `WHERE hv.visit_time > ? AND hv.load_successful = 1` */
  predicate SafariSelected(row: SafariRow, cutoff: int) {
    row.visitTime > SafariCutoff(cutoff) && row.loadSuccessful == 1
  }

  function SafariEntry(row: SafariRow, parse: UrlParser): Entry {
    Entry(row.url, row.title.GetOr(""), SafariToMillis(row.visitTime),
          VisitCountOrOne(row.visitCount), "Safari", ExtractDomain(parse, row.url),
          Some(ClassifyOrganicBrowsing(row.origin)), None)
  }

  /** `extractSafariHistory` on a readable database. */
  function SafariHistory(rows: seq<SafariRow>, cutoff: int, parse: UrlParser): (r: seq<Entry>)
    ensures |r| <= |rows|
  {
    if rows == [] then []
    else (if SafariSelected(rows[0], cutoff) then [SafariEntry(rows[0], parse)] else [])
         + SafariHistory(rows[1..], cutoff, parse)
  }

  /** Exactly the selected rows become entries, and none is before the cutoff. */
  lemma {:induction false} SafariHistoryMembers(rows: seq<SafariRow>, cutoff: int, parse: UrlParser)
    ensures forall e :: e in SafariHistory(rows, cutoff, parse) <==>
              exists row :: row in rows && SafariSelected(row, cutoff) && e == SafariEntry(row, parse)
    ensures forall e :: e in SafariHistory(rows, cutoff, parse) ==>
              e.visitTime >= cutoff && e.browser == "Safari"
  {
    if rows != [] {
      SafariHistoryMembers(rows[1..], cutoff, parse);
      SafariCutoffBounds(rows[0].visitTime, cutoff);
      assert rows == [rows[0]] + rows[1..];
    }
  }

  // ---------------------------------------------------------------------------
  // Chromium-family browsers

  const AppSupport: string := "Library/Application Support/"
  const Profile: string := "/Default/History"

  /** The macOS profile paths tried, in order, relative to the home directory. */
  const ChromePaths: seq<string> := [
    AppSupport + "Google/Chrome" + Profile,
    AppSupport + "Google/Chrome Beta" + Profile,
    AppSupport + "Google/Chrome Canary" + Profile,
    AppSupport + "Arc/User Data" + Profile,
    AppSupport + "BraveSoftware/Brave-Browser" + Profile]

  /** `getBrowserNameFromPath`: the first name whose marker the path contains. */
  function GetBrowserNameFromPath(path: string): string {
    if Contains(path, "Chrome Beta") then "Chrome Beta"
    else if Contains(path, "Chrome Canary") then "Chrome Canary"
    else if Contains(path, "Chrome") then "Chrome"
    else if Contains(path, "Arc") then "Arc"
    else if Contains(path, "Brave") then "Brave"
    else "Chrome-based"
  }

  /** `WHERE v.visit_time > ?` */
  predicate ChromeSelected(row: ChromeRow, cutoff: int) {
    row.visitTime > ChromeCutoff(cutoff)
  }

  function ChromeEntry(row: ChromeRow, browser: string, parse: UrlParser): Entry {
    Entry(row.url, row.title.GetOr(""), ChromeToMillis(row.visitTime),
          VisitCountOrOne(row.visitCount), browser, ExtractDomain(parse, row.url),
          Some(ClassifyOrganicChromeBrowsing(row.transition, row.fromVisit)),
          Some(GetChromeTransitionType(row.transition)))
  }

  /** `extractChromeHistoryFromPath` on a readable database. */
  function ChromeHistoryFromPath(rows: seq<ChromeRow>, cutoff: int, browser: string, parse: UrlParser): (r: seq<Entry>)
    ensures |r| <= |rows|
  {
    if rows == [] then []
    else (if ChromeSelected(rows[0], cutoff) then [ChromeEntry(rows[0], browser, parse)] else [])
         + ChromeHistoryFromPath(rows[1..], cutoff, browser, parse)
  }

  lemma {:induction false} ChromeHistoryMembers(rows: seq<ChromeRow>, cutoff: int, browser: string, parse: UrlParser)
    ensures forall e :: e in ChromeHistoryFromPath(rows, cutoff, browser, parse) <==>
              exists row :: row in rows && ChromeSelected(row, cutoff) && e == ChromeEntry(row, browser, parse)
    ensures forall e :: e in ChromeHistoryFromPath(rows, cutoff, browser, parse) ==>
              e.visitTime >= cutoff && e.browser == browser
  {
    if rows != [] {
      ChromeHistoryMembers(rows[1..], cutoff, browser, parse);
      ChromeCutoffBounds(rows[0].visitTime, cutoff);
      assert rows == [rows[0]] + rows[1..];
    }
  }

  /** What one profile path contributes: nothing when it is missing or fails. */
  function PathContribution(path: string, cutoff: int, probe: string -> ReadOutcome<ChromeRow>, parse: UrlParser): seq<Entry> {
    match probe(path)
    case Rows(rows) => ChromeHistoryFromPath(rows, cutoff, GetBrowserNameFromPath(path), parse)
    case _ => []
  }

  /** The contributions of `paths`, in order. */
  function ChromeHistoryOf(paths: seq<string>, cutoff: int, probe: string -> ReadOutcome<ChromeRow>, parse: UrlParser): seq<Entry>
    decreases |paths|
  {
    if paths == [] then []
    else ChromeHistoryOf(paths[..|paths| - 1], cutoff, probe, parse)
         + PathContribution(paths[|paths| - 1], cutoff, probe, parse)
  }

  /** `extractChromeHistory`: each profile path that exists is read; a
      failure is caught and the loop goes on with the next path. */
  method ExtractChromeHistory(cutoff: int, probe: string -> ReadOutcome<ChromeRow>, parse: UrlParser)
    returns (allHistory: seq<Entry>)
    ensures allHistory == ChromeHistoryOf(ChromePaths, cutoff, probe, parse)
  {
    allHistory := [];
    for i := 0 to |ChromePaths|
      invariant allHistory == ChromeHistoryOf(ChromePaths[..i], cutoff, probe, parse)
    {
      var relativePath := ChromePaths[i];
      match probe(relativePath) {
        case Rows(rows) =>
          var browserName := GetBrowserNameFromPath(relativePath);
          allHistory := allHistory + ChromeHistoryFromPath(rows, cutoff, browserName, parse);
        case Missing =>
        case Failed =>
      }
      assert ChromePaths[..i + 1][..i] == ChromePaths[..i];
    }
    assert ChromePaths[..|ChromePaths|] == ChromePaths;
  }

  /** A path whose database reads contributes all its selected rows, whatever
      the other paths yield. */
  lemma {:induction false} ChromePathIsolated(paths: seq<string>, k: int, cutoff: int,
                                              probe: string -> ReadOutcome<ChromeRow>, parse: UrlParser)
    requires 0 <= k < |paths|
    ensures forall e :: e in PathContribution(paths[k], cutoff, probe, parse) ==>
              e in ChromeHistoryOf(paths, cutoff, probe, parse)
    decreases |paths|
  {
    var front := paths[..|paths| - 1];
    if k < |paths| - 1 {
      assert front[k] == paths[k];
      ChromePathIsolated(front, k, cutoff, probe, parse);
    }
  }

  /** Every Chromium entry is recent and named after the path it came from. */
  lemma {:induction false} ChromeHistoryOfMembers(paths: seq<string>, cutoff: int,
                                                  probe: string -> ReadOutcome<ChromeRow>, parse: UrlParser)
    ensures forall e :: e in ChromeHistoryOf(paths, cutoff, probe, parse) ==>
              e.visitTime >= cutoff &&
              exists p :: p in paths && e.browser == GetBrowserNameFromPath(p)
    decreases |paths|
  {
    if paths != [] {
      var front, last := paths[..|paths| - 1], paths[|paths| - 1];
      ChromeHistoryOfMembers(front, cutoff, probe, parse);
      assert forall p :: p in front ==> p in paths;
      match probe(last) {
        case Rows(rows) =>
          ChromeHistoryMembers(rows, cutoff, GetBrowserNameFromPath(last), parse);
        case Missing =>
        case Failed =>
      }
    }
  }

  /** The shared prefix and suffix of the table paths lack the characters and
      pairs that the negative name checks rely on. */
  lemma PathPartsFacts()
    ensures 'B' !in AppSupport && 'B' !in Profile
    ensures 'C' !in AppSupport && 'C' !in Profile
    ensures NoPair(AppSupport, ' ', 'C') && NoPair(Profile, ' ', 'C')
    ensures NoPair(AppSupport, 'A', 'r') && NoPair(Profile, 'A', 'r')
  {
    var lib, app, sup := "Library/", "Application ", "Support/";
    assert AppSupport == lib + app + sup;
    LibraryPiece();
    ApplicationPiece();
    SupportPiece();
    ProfilePiece();
    NoPairConcat(lib, app, ' ', 'C');
    NoPairConcat(lib + app, sup, ' ', 'C');
    NoPairConcat(lib, app, 'A', 'r');
    NoPairConcat(lib + app, sup, 'A', 'r');
  }

  /** The pieces of the shared prefix and suffix, one at a time. */
  lemma LibraryPiece()
    ensures 'B' !in "Library/" && 'C' !in "Library/"
    ensures NoPair("Library/", ' ', 'C') && NoPair("Library/", 'A', 'r')
  {
  }

  lemma ApplicationPiece()
    ensures 'B' !in "Application " && 'C' !in "Application "
    ensures NoPair("Application ", ' ', 'C') && NoPair("Application ", 'A', 'r')
  {
  }

  lemma SupportPiece()
    ensures 'B' !in "Support/" && 'C' !in "Support/"
    ensures NoPair("Support/", ' ', 'C') && NoPair("Support/", 'A', 'r')
  {
  }

  lemma ProfilePiece()
    ensures 'B' !in Profile && 'C' !in Profile
    ensures NoPair(Profile, ' ', 'C') && NoPair(Profile, 'A', 'r')
  {
  }

  lemma ChromePathName()
    ensures GetBrowserNameFromPath(ChromePaths[0]) == "Chrome"
  {
    PathPartsFacts();
    var m := "Google/Chrome";
    assert 'B' !in m && NoPair(m, ' ', 'C');
    assert ChromePaths[0] == AppSupport + m + Profile;
    NotContainsByChar(ChromePaths[0], "Chrome Beta", 7);
    NoPairConcat(AppSupport, m, ' ', 'C');
    NoPairConcat(AppSupport + m, Profile, ' ', 'C');
    NotContainsByPair(ChromePaths[0], "Chrome Canary", 6);
    assert OccursAt(m, "Chrome", 7);
    ContainsInfix(AppSupport, m, Profile, "Chrome");
  }

  lemma ChromeBetaPathName()
    ensures GetBrowserNameFromPath(ChromePaths[1]) == "Chrome Beta"
  {
    var m := "Google/Chrome Beta";
    assert ChromePaths[1] == AppSupport + m + Profile;
    assert OccursAt(m, "Chrome Beta", 7);
    ContainsInfix(AppSupport, m, Profile, "Chrome Beta");
  }

  lemma ChromeCanaryPathName()
    ensures GetBrowserNameFromPath(ChromePaths[2]) == "Chrome Canary"
  {
    PathPartsFacts();
    var m := "Google/Chrome Canary";
    assert 'B' !in m;
    assert ChromePaths[2] == AppSupport + m + Profile;
    NotContainsByChar(ChromePaths[2], "Chrome Beta", 7);
    assert OccursAt(m, "Chrome Canary", 7);
    ContainsInfix(AppSupport, m, Profile, "Chrome Canary");
  }

  lemma ArcPathName()
    ensures GetBrowserNameFromPath(ChromePaths[3]) == "Arc"
  {
    PathPartsFacts();
    var m := "Arc/User Data";
    assert 'C' !in m;
    assert ChromePaths[3] == AppSupport + m + Profile;
    NotContainsByChar(ChromePaths[3], "Chrome Beta", 0);
    NotContainsByChar(ChromePaths[3], "Chrome Canary", 0);
    NotContainsByChar(ChromePaths[3], "Chrome", 0);
    assert OccursAt(m, "Arc", 0);
    ContainsInfix(AppSupport, m, Profile, "Arc");
  }

  lemma BravePathName()
    ensures GetBrowserNameFromPath(ChromePaths[4]) == "Brave"
  {
    PathPartsFacts();
    var b1, b2 := "BraveSoftware/", "Brave-Browser";
    var m := b1 + b2;
    assert 'C' !in b1 && 'C' !in b2;
    assert NoPair(b1, 'A', 'r') && NoPair(b2, 'A', 'r');
    NoPairConcat(b1, b2, 'A', 'r');
    assert ChromePaths[4] == AppSupport + m + Profile;
    NotContainsByChar(ChromePaths[4], "Chrome Beta", 0);
    NotContainsByChar(ChromePaths[4], "Chrome Canary", 0);
    NotContainsByChar(ChromePaths[4], "Chrome", 0);
    NoPairConcat(AppSupport, m, 'A', 'r');
    NoPairConcat(AppSupport + m, Profile, 'A', 'r');
    NotContainsByPair(ChromePaths[4], "Arc", 0);
    assert OccursAt(m, "Brave", 0);
    ContainsInfix(AppSupport, m, Profile, "Brave");
  }

  /** The five table paths get five distinct browser names. */
  lemma BrowserNamesOfTable()
    ensures forall i, j :: 0 <= i < j < |ChromePaths| ==>
              GetBrowserNameFromPath(ChromePaths[i]) != GetBrowserNameFromPath(ChromePaths[j])
  {
    ChromePathName();
    ChromeBetaPathName();
    ChromeCanaryPathName();
    ArcPathName();
    BravePathName();
  }
}
