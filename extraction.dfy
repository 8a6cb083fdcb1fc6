// `extractHistory` and `deduplicateHistory`: the per-source results are
// concatenated (Safari first), sorted newest first, and de-duplicated on the
// url and the visit millisecond, the first occurrence winning.
module HistoryExtraction {
  import opened Wrappers
  import opened BrowserHistory
  import StableSort
  import opened Subsequences

  /** The de-duplication key `${url}:${visitTime.toISOString()}`; the ISO
      string names the millisecond uniquely, so the pair is the key. */
  datatype Key = Key(url: string, millis: int)

  function KeyOf(e: Entry): Key {
    Key(e.url, e.visitTime)
  }

  function TimeOf(e: Entry): int {
    e.visitTime
  }

  /** The keys occurring in `s`. */
  ghost function KeySet(s: seq<Entry>): set<Key> {
    set e | e in s :: KeyOf(e)
  }

  /** No two positions of `s` share a key. */
  ghost predicate UniqueKeys(s: seq<Entry>) {
    forall i, j :: 0 <= i < j < |s| ==> KeyOf(s[i]) != KeyOf(s[j])
  }

  /** The first element of `s` with key `k`. */
  function FirstWithKey(s: seq<Entry>, k: Key): Option<Entry> {
    if s == [] then None
    else if KeyOf(s[0]) == k then Some(s[0])
    else FirstWithKey(s[1..], k)
  }

  /** De-duplication of `s` once the keys in `seen` have already been taken. */
  function DedupFrom(s: seq<Entry>, seen: set<Key>): (r: seq<Entry>)
    ensures |r| <= |s|
  {
    if s == [] then []
    else if KeyOf(s[0]) in seen then DedupFrom(s[1..], seen)
    else [s[0]] + DedupFrom(s[1..], seen + {KeyOf(s[0])})
  }

  function Dedup(s: seq<Entry>): seq<Entry> {
    DedupFrom(s, {})
  }

  /** `deduplicateHistory`: a Map from key to the first entry with it, read
      back in insertion order. */
  method DeduplicateHistory(history: seq<Entry>) returns (result: seq<Entry>)
    ensures result == Dedup(history)
  {
    var seen: map<Key, Entry> := map[];
    var inserted: seq<Entry> := [];   // seen.values(), in insertion order
    assert history[0..] == history && seen.Keys == {};
    for i := 0 to |history|
      invariant inserted + DedupFrom(history[i..], seen.Keys) == Dedup(history)
    {
      var entry := history[i];
      var key := KeyOf(entry);
      if key !in seen {
        DedupStepNew(history, i, inserted, seen.Keys);
        assert seen[key := entry].Keys == seen.Keys + {key};
        seen := seen[key := entry];
        inserted := inserted + [entry];
      } else {
        DedupFromStep(history, i, seen.Keys);
      }
    }
    assert inserted + DedupFrom(history[|history|..], seen.Keys) == inserted;
    result := inserted;
  }

  /** One step of the loop above that inserts a new key. */
  lemma DedupStepNew(s: seq<Entry>, i: int, inserted: seq<Entry>, seen: set<Key>)
    requires 0 <= i < |s| && KeyOf(s[i]) !in seen
    ensures inserted + DedupFrom(s[i..], seen)
         == (inserted + [s[i]]) + DedupFrom(s[i + 1..], seen + {KeyOf(s[i])})
  {
    DedupFromStep(s, i, seen);
    var rest := DedupFrom(s[i + 1..], seen + {KeyOf(s[i])});
    assert (inserted + [s[i]]) + rest == inserted + ([s[i]] + rest);
  }

  lemma DedupFromStep(s: seq<Entry>, i: int, seen: set<Key>)
    requires 0 <= i < |s|
    ensures KeyOf(s[i]) in seen ==> DedupFrom(s[i..], seen) == DedupFrom(s[i + 1..], seen)
    ensures KeyOf(s[i]) !in seen ==>
              DedupFrom(s[i..], seen) == [s[i]] + DedupFrom(s[i + 1..], seen + {KeyOf(s[i])})
  {
    assert s[i..][0] == s[i] && s[i..][1..] == s[i + 1..];
  }

  lemma {:induction false} DedupFromProperties(s: seq<Entry>, seen: set<Key>)
    ensures IsSubseq(DedupFrom(s, seen), s)
    ensures UniqueKeys(DedupFrom(s, seen))
    ensures KeySet(DedupFrom(s, seen)) == KeySet(s) - seen
    ensures forall e :: e in DedupFrom(s, seen) ==>
              KeyOf(e) !in seen && FirstWithKey(s, KeyOf(e)) == Some(e)
  {
    if s != [] {
      var k := KeyOf(s[0]);
      assert s == [s[0]] + s[1..];
      assert KeySet(s) == {k} + KeySet(s[1..]);
      if k in seen {
        DedupFromProperties(s[1..], seen);
        SubseqSkip(s[0], DedupFrom(s[1..], seen), s[1..]);
      } else {
        var rest := DedupFrom(s[1..], seen + {k});
        DedupFromProperties(s[1..], seen + {k});
        SubseqKeep(s[0], rest, s[1..]);
        assert KeySet([s[0]] + rest) == {k} + KeySet(rest);
        forall i, j | 0 <= i < j < |[s[0]] + rest|
          ensures KeyOf(([s[0]] + rest)[i]) != KeyOf(([s[0]] + rest)[j])
        {
          if i == 0 {
            assert ([s[0]] + rest)[j] == rest[j - 1];
            assert rest[j - 1] in rest;
          } else {
            assert ([s[0]] + rest)[i] == rest[i - 1] && ([s[0]] + rest)[j] == rest[j - 1];
          }
        }
      }
    }
  }

  /** De-duplication keeps the order, keeps one entry for every key, and the
      entry kept is the first one with that key. */
  lemma DedupProperties(s: seq<Entry>)
    ensures IsSubseq(Dedup(s), s)
    ensures UniqueKeys(Dedup(s))
    ensures KeySet(Dedup(s)) == KeySet(s)
    ensures forall e :: e in Dedup(s) ==> FirstWithKey(s, KeyOf(e)) == Some(e)
  {
    DedupFromProperties(s, {});
  }

  lemma {:induction false} DedupFromUnique(s: seq<Entry>, seen: set<Key>)
    requires UniqueKeys(s) && KeySet(s) !! seen
    ensures DedupFrom(s, seen) == s
  {
    if s != [] {
      assert KeyOf(s[0]) in KeySet(s);
      assert KeySet(s[1..]) <= KeySet(s) - {KeyOf(s[0])} by {
        forall e | e in s[1..] ensures KeyOf(e) in KeySet(s) && KeyOf(e) != KeyOf(s[0]) {
          var j :| 0 <= j < |s[1..]| && s[1..][j] == e;
          assert s[j + 1] == e;
        }
      }
      DedupFromUnique(s[1..], seen + {KeyOf(s[0])});
    }
  }

  /** A sequence without repeated keys is its own de-duplication; in
      particular de-duplication is idempotent. */
  lemma DedupIdempotent(s: seq<Entry>)
    ensures UniqueKeys(s) ==> Dedup(s) == s
    ensures Dedup(Dedup(s)) == Dedup(s)
  {
    if UniqueKeys(s) {
      DedupFromUnique(s, {});
    }
    DedupProperties(s);
    DedupFromUnique(Dedup(s), {});
  }

  // ---------------------------------------------------------------------------
  // Merge

  /** What the Safari database contributes. */
  function SafariPart(safari: ReadOutcome<SafariRow>, cutoff: int, parse: UrlParser): seq<Entry> {
    match safari
    case Rows(rows) => SafariHistory(rows, cutoff, parse)
    case _ => []
  }

  /** `allHistory` before sorting: the enabled sources, Safari first. */
  function Collected(options: ExtractionOptions, cutoff: int, safari: ReadOutcome<SafariRow>,
                     probe: string -> ReadOutcome<ChromeRow>, parse: UrlParser): seq<Entry>
  {
    (if options.includeSafari then SafariPart(safari, cutoff, parse) else [])
    + (if options.includeChrome then ChromeHistoryOf(ChromePaths, cutoff, probe, parse) else [])
  }

  /** The result of `extractHistory` for a given cutoff. */
  function Extracted(options: ExtractionOptions, cutoff: int, safari: ReadOutcome<SafariRow>,
                     probe: string -> ReadOutcome<ChromeRow>, parse: UrlParser): seq<Entry>
  {
    Dedup(StableSort.SortDesc(Collected(options, cutoff, safari, probe, parse), TimeOf))
  }

  /** `extractHistory`. The wall clock and the local-calendar day arithmetic
      of `setDate` are the parameter `cutoffFor`, from a number of days to
      the cutoff's millisecond time value. */
  method ExtractHistory(options: ExtractionOptions, cutoffFor: int -> int,
                        safari: ReadOutcome<SafariRow>,
                        probe: string -> ReadOutcome<ChromeRow>, parse: UrlParser)
    returns (history: seq<Entry>)
    ensures history == Extracted(options, cutoffFor(options.days), safari, probe, parse)
  {
    var cutoffTimestamp := cutoffFor(options.days);
    var safariHistory: seq<Entry> := [];
    var chromeHistory: seq<Entry> := [];
    if options.includeSafari {
      safariHistory := SafariPart(safari, cutoffTimestamp, parse);
    }
    if options.includeChrome {
      chromeHistory := ExtractChromeHistory(cutoffTimestamp, probe, parse);
    }
    var allHistory := safariHistory + chromeHistory;
    var sortedHistory := StableSort.SortDesc(allHistory, TimeOf);
    history := DeduplicateHistory(sortedHistory);
  }

  lemma SortKeepsMembers(s: seq<Entry>)
    ensures forall e :: e in StableSort.SortDesc(s, TimeOf) <==> e in s
    ensures KeySet(StableSort.SortDesc(s, TimeOf)) == KeySet(s)
  {
    StableSort.SortDescPermutes(s, TimeOf);
    assert forall e :: e in StableSort.SortDesc(s, TimeOf) <==> e in multiset(s);
  }

  /** Every extracted entry was collected, and every collected key survives. */
  lemma ExtractedMembers(options: ExtractionOptions, cutoff: int, safari: ReadOutcome<SafariRow>,
                         probe: string -> ReadOutcome<ChromeRow>, parse: UrlParser)
    ensures forall e :: e in Extracted(options, cutoff, safari, probe, parse) ==>
              e in Collected(options, cutoff, safari, probe, parse)
    ensures KeySet(Extracted(options, cutoff, safari, probe, parse))
         == KeySet(Collected(options, cutoff, safari, probe, parse))
  {
    var all := Collected(options, cutoff, safari, probe, parse);
    var sorted := StableSort.SortDesc(all, TimeOf);
    SortKeepsMembers(all);
    DedupProperties(sorted);
    SubseqMembers(Dedup(sorted), sorted);
  }

  /** The result is newest first and has no two entries with the same key. */
  lemma ExtractedOrderedAndUnique(options: ExtractionOptions, cutoff: int, safari: ReadOutcome<SafariRow>,
                                  probe: string -> ReadOutcome<ChromeRow>, parse: UrlParser)
    ensures StableSort.NonIncreasing(Extracted(options, cutoff, safari, probe, parse), TimeOf)
    ensures UniqueKeys(Extracted(options, cutoff, safari, probe, parse))
  {
    var sorted := StableSort.SortDesc(Collected(options, cutoff, safari, probe, parse), TimeOf);
    StableSort.SortDescOrdered(Collected(options, cutoff, safari, probe, parse), TimeOf);
    DedupProperties(sorted);
    SubseqOrdered(Dedup(sorted), sorted, TimeOf);
  }

  /** Every collected entry, and so every extracted one, is from the lookback
      window and from an enabled source; Chromium entries carry one of the
      five table names. */
  lemma CollectedRecentAndEnabled(options: ExtractionOptions, cutoff: int, safari: ReadOutcome<SafariRow>,
                                  probe: string -> ReadOutcome<ChromeRow>, parse: UrlParser)
    ensures forall e :: e in Collected(options, cutoff, safari, probe, parse) ==>
              e.visitTime >= cutoff
    ensures forall e :: e in Collected(options, cutoff, safari, probe, parse) ==>
              (e.browser == "Safari" ==> options.includeSafari) &&
              (e.browser != "Safari" ==>
                 options.includeChrome && e.browser in {"Chrome", "Chrome Beta", "Chrome Canary", "Arc", "Brave"})
  {
    match safari {
      case Rows(rows) => SafariHistoryMembers(rows, cutoff, parse);
      case Missing =>
      case Failed =>
    }
    ChromeHistoryOfMembers(ChromePaths, cutoff, probe, parse);
    ChromePathName();
    ChromeBetaPathName();
    ChromeCanaryPathName();
    ArcPathName();
    BravePathName();
    forall p | p in ChromePaths
      ensures GetBrowserNameFromPath(p) in {"Chrome", "Chrome Beta", "Chrome Canary", "Arc", "Brave"}
    {
    }
  }

  lemma ExtractedRecentAndEnabled(options: ExtractionOptions, cutoff: int, safari: ReadOutcome<SafariRow>,
                                  probe: string -> ReadOutcome<ChromeRow>, parse: UrlParser)
    ensures forall e :: e in Extracted(options, cutoff, safari, probe, parse) ==>
              e.visitTime >= cutoff &&
              (e.browser == "Safari" ==> options.includeSafari) &&
              (e.browser != "Safari" ==> options.includeChrome)
  {
    ExtractedMembers(options, cutoff, safari, probe, parse);
    CollectedRecentAndEnabled(options, cutoff, safari, probe, parse);
  }

  lemma {:induction false} FirstWithKeyAtTime(s: seq<Entry>, k: Key)
    ensures FirstWithKey(StableSort.WithKey(s, TimeOf, k.millis), k) == FirstWithKey(s, k)
  {
    if s != [] {
      FirstWithKeyAtTime(s[1..], k);
      var kept := if TimeOf(s[0]) == k.millis then [s[0]] else [];
      var rest := StableSort.WithKey(s[1..], TimeOf, k.millis);
      if kept != [] {
        assert (kept + rest)[0] == s[0] && (kept + rest)[1..] == rest;
      } else {
        assert kept + rest == rest;
      }
    }
  }

  /** Of several collected entries with the same url and millisecond, the one
      collected first is the one kept. */
  lemma ExtractedFirstWins(options: ExtractionOptions, cutoff: int, safari: ReadOutcome<SafariRow>,
                           probe: string -> ReadOutcome<ChromeRow>, parse: UrlParser)
    ensures forall e :: e in Extracted(options, cutoff, safari, probe, parse) ==>
              FirstWithKey(Collected(options, cutoff, safari, probe, parse), KeyOf(e)) == Some(e)
  {
    var all := Collected(options, cutoff, safari, probe, parse);
    var sorted := StableSort.SortDesc(all, TimeOf);
    DedupProperties(sorted);
    forall e | e in Dedup(sorted)
      ensures FirstWithKey(all, KeyOf(e)) == Some(e)
    {
      var k := KeyOf(e);
      StableSort.SortDescStable(all, TimeOf, k.millis);
      FirstWithKeyAtTime(all, k);
      FirstWithKeyAtTime(sorted, k);
    }
  }

  /** A readable source that is enabled always contributes its visits, whatever
      the other sources yield. */
  lemma ExtractedIncludesReadableSources(options: ExtractionOptions, cutoff: int,
                                         safari: ReadOutcome<SafariRow>,
                                         probe: string -> ReadOutcome<ChromeRow>, parse: UrlParser)
    ensures options.includeSafari ==>
              KeySet(SafariPart(safari, cutoff, parse))
              <= KeySet(Extracted(options, cutoff, safari, probe, parse))
    ensures options.includeChrome ==>
              forall i :: 0 <= i < |ChromePaths| ==>
                KeySet(PathContribution(ChromePaths[i], cutoff, probe, parse))
                <= KeySet(Extracted(options, cutoff, safari, probe, parse))
  {
    ExtractedMembers(options, cutoff, safari, probe, parse);
    var all := Collected(options, cutoff, safari, probe, parse);
    if options.includeChrome {
      forall i | 0 <= i < |ChromePaths|
        ensures KeySet(PathContribution(ChromePaths[i], cutoff, probe, parse)) <= KeySet(all)
      {
        ChromePathIsolated(ChromePaths, i, cutoff, probe, parse);
      }
    }
  }
}
