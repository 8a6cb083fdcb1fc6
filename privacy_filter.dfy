// The privacy layer: which visits may be analysed at all (age, the three
// domain categories, the night-time hours) and how a kept visit is scrubbed
// before it leaves the process (URL cut to its first two path segments, title
// run through the redaction patterns).
module PrivacyFilter {
  import opened Wrappers
  import opened Text
  import opened BrowserHistory
  import opened Subsequences
  import TitleRedaction

  /** PrivacySettings */
  datatype PrivacySettings = PrivacySettings(
    excludeSensitiveSites: bool,
    excludeWorkSites: bool,
    excludePersonalSites: bool,
    maxHistoryAge: int,          // days
    allowNightTimeAnalysis: bool)

  /** An hour of the local day, as `Date.prototype.getHours` returns it. */
  type Hour = h: int | 0 <= h < 24

  const MillisPerDay: int := 1000 * 60 * 60 * 24

  // ---------------------------------------------------------------------------
  // Domain categories

  const SensitiveDomains: seq<string> := [
    "webmd.com", "mayoclinic.org", "healthline.com", "drugs.com",
    "chase.com", "bankofamerica.com", "wellsfargo.com", "paypal.com",
    "mint.com", "creditkarma.com", "irs.gov", "turbotax.com",
    "legalzoom.com", "avvo.com", "findlaw.com",
    "tinder.com", "bumble.com", "match.com", "eharmony.com",
    "okcupid.com", "hinge.com", "pof.com",
    "onlyfans.com", "pornhub.com", "xvideos.com", "xnxx.com",
    "betterhelp.com", "talkspace.com", "psychologytoday.com",
    "indeed.com", "linkedin.com", "glassdoor.com", "monster.com"]

  const WorkDomains: seq<string> := [
    "slack.com", "teams.microsoft.com", "zoom.us", "webex.com",
    "salesforce.com", "workday.com", "bamboohr.com", "adp.com",
    "office.com", "sharepoint.com", "confluence.atlassian.com",
    "jira.atlassian.com", "github.com", "gitlab.com", "bitbucket.org"]

  /** "icloud.com" is listed three times, as in the source. */
  const PersonalDomains: seq<string> := [
    "gmail.com", "outlook.com", "yahoo.com", "icloud.com",
    "drive.google.com", "dropbox.com", "onedrive.com", "icloud.com",
    "photos.google.com", "icloud.com", "flickr.com"]

  /** `domain === root || domain.endsWith('.' + root)` */
  predicate MatchesRoot(domain: string, root: string) {
    domain == root || EndsWith(domain, "." + root)
  }

  /** `roots.some(...)`: the domain is a root of the list or a subdomain of one. */
  predicate InCategory(domain: string, roots: seq<string>) {
    exists root | root in roots :: MatchesRoot(domain, root)
  }

  predicate IsSensitiveDomain(domain: string) { InCategory(domain, SensitiveDomains) }
  predicate IsWorkDomain(domain: string) { InCategory(domain, WorkDomains) }
  predicate IsPersonalDomain(domain: string) { InCategory(domain, PersonalDomains) }

  /** A root matches exactly its own name and the names ending in a dot
      followed by it; a longer name that merely ends with the root's letters
      does not match. */
  lemma MatchesRootMeaning(domain: string, root: string)
    ensures MatchesRoot(domain, root) <==>
              domain == root ||
              (|domain| > |root| && domain[|domain| - |root| - 1] == '.' &&
               domain[|domain| - |root|..] == root)
  {
    EndsWithDotRoot(domain, root);
  }

  /** Subdomains of a listed root are in the category; a bare look-alike is not. */
  lemma SubdomainMatching()
    ensures IsSensitiveDomain("www.webmd.com")
    ensures !MatchesRoot("notwebmd.com", "webmd.com")
  {
    var d, r := "www.webmd.com", "webmd.com";
    assert d == "www." + r;
    MatchesRootMeaning(d, r);
    assert d[|d| - |r|..] == r;
    assert MatchesRoot(d, r) && r in SensitiveDomains;
    MatchesRootMeaning("notwebmd.com", r);
  }

  // ---------------------------------------------------------------------------
  // filterHistory

  /** `(Date.now() - visitTime) / 86400000 > maxHistoryAge` */
  predicate TooOld(now: int, visitTime: int, maxHistoryAge: int) {
    (now - visitTime) as real / MillisPerDay as real > maxHistoryAge as real
  }

  /** The age test compares whole milliseconds: a visit is too old exactly
      when more than maxHistoryAge days of milliseconds have passed. */
  lemma TooOldExact(now: int, visitTime: int, maxHistoryAge: int)
    ensures TooOld(now, visitTime, maxHistoryAge) <==> now - visitTime > maxHistoryAge * MillisPerDay
  {
    var x := (now - visitTime) as real;
    var d := MillisPerDay as real;
    assert x / d * d == x;
    assert (maxHistoryAge * MillisPerDay) as real == maxHistoryAge as real * d;
    if x / d > maxHistoryAge as real {
      assert x / d * d > maxHistoryAge as real * d;
    }
    if x > maxHistoryAge as real * d {
      assert x / d * d > maxHistoryAge as real * d;
    }
  }

  /** `hour >= 23 || hour < 6` */
  predicate IsNightHour(h: Hour) {
    h >= 23 || h < 6
  }

  /** The predicate handed to `history.filter`. The wall clock is `now`; the
      local-time hour of a millisecond time value is `hourOf`. */
  predicate Keep(e: Entry, settings: PrivacySettings, now: int, hourOf: int -> Hour) {
    if TooOld(now, e.visitTime, settings.maxHistoryAge) then false
    else if settings.excludeSensitiveSites && IsSensitiveDomain(e.domain) then false
    else if settings.excludeWorkSites && IsWorkDomain(e.domain) then false
    else if settings.excludePersonalSites && IsPersonalDomain(e.domain) then false
    else if !settings.allowNightTimeAnalysis && IsNightHour(hourOf(e.visitTime)) then false
    else true
  }

  /** `filterHistory` */
  function FilterHistory(history: seq<Entry>, settings: PrivacySettings, now: int, hourOf: int -> Hour): (r: seq<Entry>)
    ensures |r| <= |history|
  {
    if history == [] then []
    else (if Keep(history[0], settings, now, hourOf) then [history[0]] else [])
         + FilterHistory(history[1..], settings, now, hourOf)
  }

  /** The filter keeps exactly the entries that pass, in their order. */
  lemma {:induction false} FilterHistoryMeaning(history: seq<Entry>, settings: PrivacySettings, now: int, hourOf: int -> Hour)
    ensures IsSubseq(FilterHistory(history, settings, now, hourOf), history)
    ensures forall e :: e in FilterHistory(history, settings, now, hourOf) <==>
              e in history && Keep(e, settings, now, hourOf)
  {
    if history != [] {
      var rest := FilterHistory(history[1..], settings, now, hourOf);
      FilterHistoryMeaning(history[1..], settings, now, hourOf);
      assert history == [history[0]] + history[1..];
      if Keep(history[0], settings, now, hourOf) {
        assert FilterHistory(history, settings, now, hourOf) == [history[0]] + rest;
        SubseqKeep(history[0], rest, history[1..]);
      } else {
        assert FilterHistory(history, settings, now, hourOf) == rest;
        SubseqSkip(history[0], rest, history[1..]);
      }
    }
  }

  /** A kept entry is within the age window, outside every excluded category
      and, unless night-time analysis is allowed, from hours 6 to 22. */
  lemma KeptEntryProperties(e: Entry, settings: PrivacySettings, now: int, hourOf: int -> Hour)
    requires Keep(e, settings, now, hourOf)
    ensures now - e.visitTime <= settings.maxHistoryAge * MillisPerDay
    ensures settings.excludeSensitiveSites ==> forall r :: r in SensitiveDomains ==> !MatchesRoot(e.domain, r)
    ensures settings.excludeWorkSites ==> forall r :: r in WorkDomains ==> !MatchesRoot(e.domain, r)
    ensures settings.excludePersonalSites ==> forall r :: r in PersonalDomains ==> !MatchesRoot(e.domain, r)
    ensures !settings.allowNightTimeAnalysis ==> 6 <= hourOf(e.visitTime) <= 22
  {
    TooOldExact(now, e.visitTime, settings.maxHistoryAge);
  }

  /** s1 excludes at least whatever s2 excludes. */
  predicate AtLeastAsStrict(s1: PrivacySettings, s2: PrivacySettings) {
    (s2.excludeSensitiveSites ==> s1.excludeSensitiveSites) &&
    (s2.excludeWorkSites ==> s1.excludeWorkSites) &&
    (s2.excludePersonalSites ==> s1.excludePersonalSites) &&
    s1.maxHistoryAge <= s2.maxHistoryAge &&
    (!s2.allowNightTimeAnalysis ==> !s1.allowNightTimeAnalysis)
  }

  lemma StricterKeep(e: Entry, s1: PrivacySettings, s2: PrivacySettings, now: int, hourOf: int -> Hour)
    requires AtLeastAsStrict(s1, s2) && Keep(e, s1, now, hourOf)
    ensures Keep(e, s2, now, hourOf)
  {
    TooOldExact(now, e.visitTime, s1.maxHistoryAge);
    TooOldExact(now, e.visitTime, s2.maxHistoryAge);
    assert s1.maxHistoryAge * MillisPerDay <= s2.maxHistoryAge * MillisPerDay;
  }

  /** Filtering with stricter settings is filtering the less strict result
      again, so it keeps a subsequence of it. */
  lemma {:induction false} StricterFilter(history: seq<Entry>, s1: PrivacySettings, s2: PrivacySettings,
                                          now: int, hourOf: int -> Hour)
    requires AtLeastAsStrict(s1, s2)
    ensures FilterHistory(history, s1, now, hourOf)
         == FilterHistory(FilterHistory(history, s2, now, hourOf), s1, now, hourOf)
    ensures IsSubseq(FilterHistory(history, s1, now, hourOf), FilterHistory(history, s2, now, hourOf))
  {
    if history != [] {
      var e := history[0];
      StricterFilter(history[1..], s1, s2, now, hourOf);
      var inner := FilterHistory(history[1..], s2, now, hourOf);
      var outer := FilterHistory(history[1..], s1, now, hourOf);
      if Keep(e, s1, now, hourOf) {
        StricterKeep(e, s1, s2, now, hourOf);
      }
      if Keep(e, s2, now, hourOf) {
        assert FilterHistory(history, s2, now, hourOf) == [e] + inner;
        assert ([e] + inner)[0] == e && ([e] + inner)[1..] == inner;
        if Keep(e, s1, now, hourOf) {
          assert FilterHistory(history, s1, now, hourOf) == [e] + outer;
          assert FilterHistory([e] + inner, s1, now, hourOf) == [e] + FilterHistory(inner, s1, now, hourOf);
          SubseqKeep(e, outer, inner);
        } else {
          assert FilterHistory(history, s1, now, hourOf) == outer;
          assert FilterHistory([e] + inner, s1, now, hourOf) == FilterHistory(inner, s1, now, hourOf);
          SubseqSkip(e, outer, inner);
        }
      } else {
        assert FilterHistory(history, s2, now, hourOf) == inner;
        assert FilterHistory(history, s1, now, hourOf) == outer;
      }
    }
  }

  /** Filtering twice with the same settings changes nothing more. */
  lemma FilterIdempotent(history: seq<Entry>, settings: PrivacySettings, now: int, hourOf: int -> Hour)
    ensures FilterHistory(FilterHistory(history, settings, now, hourOf), settings, now, hourOf)
         == FilterHistory(history, settings, now, hourOf)
  {
    StricterFilter(history, settings, settings, now, hourOf);
  }

  // ---------------------------------------------------------------------------
  // Presets

  /** `getDefaultPrivacySettings` */
  const DefaultPrivacySettings: PrivacySettings := PrivacySettings(true, false, false, 7, true)

  /** `getParanoidPrivacySettings` */
  const ParanoidPrivacySettings: PrivacySettings := PrivacySettings(true, true, true, 3, false)

  /** The paranoid preset keeps a subsequence of what the default keeps, and
      only day-time visits of the last three days outside all three categories. */
  lemma ParanoidWithinDefault(history: seq<Entry>, now: int, hourOf: int -> Hour)
    ensures IsSubseq(FilterHistory(history, ParanoidPrivacySettings, now, hourOf),
                     FilterHistory(history, DefaultPrivacySettings, now, hourOf))
    ensures forall e :: e in FilterHistory(history, ParanoidPrivacySettings, now, hourOf) ==>
              now - e.visitTime <= 3 * MillisPerDay && 6 <= hourOf(e.visitTime) <= 22 &&
              !IsSensitiveDomain(e.domain) && !IsWorkDomain(e.domain) && !IsPersonalDomain(e.domain)
  {
    StricterFilter(history, ParanoidPrivacySettings, DefaultPrivacySettings, now, hourOf);
    FilterHistoryMeaning(history, ParanoidPrivacySettings, now, hourOf);
    forall e | e in FilterHistory(history, ParanoidPrivacySettings, now, hourOf)
      ensures now - e.visitTime <= 3 * MillisPerDay
    {
      KeptEntryProperties(e, ParanoidPrivacySettings, now, hourOf);
    }
  }

  // ---------------------------------------------------------------------------
  // sanitizeUrl

  /** `s.split('/')` */
  function Split(s: string): (parts: seq<string>)
    ensures |parts| >= 1
  {
    if s == [] then [""]
    else
      var rest := Split(s[1..]);
      if s[0] == '/' then [""] + rest else [[s[0]] + rest[0]] + rest[1..]
  }

  /** `parts.join('/')` */
  function Join(parts: seq<string>): string {
    if parts == [] then ""
    else if |parts| == 1 then parts[0]
    else parts[0] + "/" + Join(parts[1..])
  }

  /** The text of s before its (k+1)-th slash. */
  function BeforeSlash(s: string, k: nat): string {
    if s == [] then []
    else if s[0] == '/' then (if k == 0 then [] else "/" + BeforeSlash(s[1..], k - 1))
    else [s[0]] + BeforeSlash(s[1..], k)
  }

  function SlashCount(s: string): nat {
    if s == [] then 0 else (if s[0] == '/' then 1 else 0) + SlashCount(s[1..])
  }

  lemma JoinCons(c: char, x: string, rest: seq<string>)
    ensures Join([[c] + x] + rest) == [c] + Join([x] + rest)
  {
    if rest != [] {
      assert ([[c] + x] + rest)[1..] == rest && ([x] + rest)[1..] == rest;
    }
  }

  /** Joining the split pieces gives the string back. */
  lemma {:induction false} JoinSplit(s: string)
    ensures Join(Split(s)) == s
  {
    if s != [] {
      var rest := Split(s[1..]);
      JoinSplit(s[1..]);
      assert s == [s[0]] + s[1..];
      if s[0] == '/' {
        assert ([""] + rest)[1..] == rest;
      } else {
        JoinCons(s[0], rest[0], rest[1..]);
        assert [rest[0]] + rest[1..] == rest;
      }
    }
  }

  /** The first k+1 pieces, joined, are the text before the (k+1)-th slash. */
  lemma {:induction false} JoinTakeSplit(s: string, k: nat)
    ensures Join(Take(Split(s), k + 1)) == BeforeSlash(s, k)
  {
    if s != [] {
      var rest := Split(s[1..]);
      assert s[1..] == s[1..];
      if s[0] == '/' {
        if k > 0 {
          JoinTakeSplit(s[1..], k - 1);
          assert Take([""] + rest, k + 1) == [""] + Take(rest, k);
          assert Take(rest, k) != [];
        }
      } else {
        JoinTakeSplit(s[1..], k);
        var t := Take(rest, k + 1);
        assert Take([[s[0]] + rest[0]] + rest[1..], k + 1) == [[s[0]] + t[0]] + t[1..];
        JoinCons(s[0], t[0], t[1..]);
        assert [t[0]] + t[1..] == t;
      }
    }
  }

  /** The text before the (k+1)-th slash is a prefix with at most k slashes;
      it is all of s when s has at most k slashes, and otherwise it stops
      right at the (k+1)-th one. */
  lemma {:induction false} BeforeSlashMeaning(s: string, k: nat)
    ensures |BeforeSlash(s, k)| <= |s| && BeforeSlash(s, k) == s[..|BeforeSlash(s, k)|]
    ensures SlashCount(BeforeSlash(s, k)) == if SlashCount(s) <= k then SlashCount(s) else k
    ensures SlashCount(s) <= k ==> BeforeSlash(s, k) == s
    ensures SlashCount(s) > k ==> |BeforeSlash(s, k)| < |s| && s[|BeforeSlash(s, k)|] == '/'
  {
    if s != [] {
      var b := BeforeSlash(s, k);
      if s[0] == '/' {
        if k > 0 {
          BeforeSlashMeaning(s[1..], k - 1);
          assert b == "/" + BeforeSlash(s[1..], k - 1);
          assert b[1..] == BeforeSlash(s[1..], k - 1);
        }
      } else {
        BeforeSlashMeaning(s[1..], k);
        assert b == [s[0]] + BeforeSlash(s[1..], k);
        assert b[1..] == BeforeSlash(s[1..], k);
      }
      assert s == [s[0]] + s[1..];
    }
  }

  /** `sanitizeUrl`: protocol, "//", host, and the path up to its third '/';
      query and fragment are dropped. */
  function SanitizeUrl(url: string, parse: UrlParser): string {
    if url == "" then ""
    else match parse(url)
      case None => "[sanitized-url]"
      case Some(u) => u.protocol + "//" + u.hostname + Join(Take(Split(u.pathname), 3))
  }

  /** A parsed URL keeps its protocol and host; of the path it keeps the text
      before the third slash, so "/a/b/c?q" becomes "/a/b". */
  lemma SanitizeUrlMeaning(url: string, parse: UrlParser)
    requires url != "" && parse(url).Some?
    ensures var u := parse(url).value;
            var kept := BeforeSlash(u.pathname, 2);
            SanitizeUrl(url, parse) == u.protocol + "//" + u.hostname + kept &&
            |kept| <= |u.pathname| && kept == u.pathname[..|kept|] && SlashCount(kept) <= 2 &&
            (SlashCount(u.pathname) <= 2 ==> kept == u.pathname)
  {
    JoinTakeSplit(parse(url).value.pathname, 2);
    BeforeSlashMeaning(parse(url).value.pathname, 2);
  }

  // ---------------------------------------------------------------------------
  // sanitizeHistoryForRoasting

  function SanitizeEntry(e: Entry, parse: UrlParser): Entry {
    e.(url := SanitizeUrl(e.url, parse), title := TitleRedaction.RedactTitle(e.title))
  }

  /** `sanitizeHistoryForRoasting` */
  function SanitizeHistory(history: seq<Entry>, parse: UrlParser): (r: seq<Entry>)
    ensures |r| == |history|
  {
    if history == [] then [] else [SanitizeEntry(history[0], parse)] + SanitizeHistory(history[1..], parse)
  }

  /** Position by position, only the url and the title change. */
  lemma {:induction false} SanitizeHistoryPointwise(history: seq<Entry>, parse: UrlParser)
    ensures forall i :: 0 <= i < |history| ==>
              SanitizeHistory(history, parse)[i]
              == history[i].(url := SanitizeUrl(history[i].url, parse),
                             title := TitleRedaction.RedactTitle(history[i].title))
  {
    if history != [] {
      SanitizeHistoryPointwise(history[1..], parse);
      forall i | 0 < i < |history|
        ensures SanitizeHistory(history, parse)[i] == SanitizeEntry(history[i], parse)
      {
        assert SanitizeHistory(history, parse)[i] == SanitizeHistory(history[1..], parse)[i - 1];
      }
    }
  }

  /** Sanitizing does not change what the filter looks at, so the two steps
      may run in either order. */
  lemma {:induction false} FilterSanitizeCommute(history: seq<Entry>, settings: PrivacySettings,
                                                 now: int, hourOf: int -> Hour, parse: UrlParser)
    ensures FilterHistory(SanitizeHistory(history, parse), settings, now, hourOf)
         == SanitizeHistory(FilterHistory(history, settings, now, hourOf), parse)
  {
    if history != [] {
      FilterSanitizeCommute(history[1..], settings, now, hourOf, parse);
      var e := history[0];
      assert Keep(SanitizeEntry(e, parse), settings, now, hourOf) == Keep(e, settings, now, hourOf);
      var kept := FilterHistory(history[1..], settings, now, hourOf);
      var clean := SanitizeHistory(history[1..], parse);
      assert SanitizeHistory(history, parse) == [SanitizeEntry(e, parse)] + clean;
      assert ([SanitizeEntry(e, parse)] + clean)[0] == SanitizeEntry(e, parse);
      assert ([SanitizeEntry(e, parse)] + clean)[1..] == clean;
      if Keep(e, settings, now, hourOf) {
        assert FilterHistory(history, settings, now, hourOf) == [e] + kept;
        assert ([e] + kept)[0] == e && ([e] + kept)[1..] == kept;
      } else {
        assert FilterHistory(history, settings, now, hourOf) == kept;
      }
    }
  }
}
