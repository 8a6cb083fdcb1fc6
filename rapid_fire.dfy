// `detectRapidFireBrowsing`: visit times grouped by domain (in order of first
// visit), each group sorted ascending, and the longest streak of visits whose
// successive gaps are all under an hour.
module RapidFire {
  import opened BrowserHistory
  import opened DomainCounts
  import opened Subsequences
  import StableSort

  const HourInMs: int := 60 * 60 * 1000

  // ---------------------------------------------------------------------------
  // Grouping: `domainTimestamps`, an insertion-ordered map of time lists
  // ---------------------------------------------------------------------------

  datatype Groups = Groups(order: seq<string>, times: map<string, seq<int>>)

  /** The groups after the first |history| visits were pushed. */
  function Group(history: seq<Entry>): Groups
    decreases |history|
  {
    if history == [] then Groups([], map[])
    else
      var g := Group(history[..|history| - 1]);
      var e := history[|history| - 1];
      if e.domain in g.times then g.(times := g.times[e.domain := g.times[e.domain] + [e.visitTime]])
      else Groups(g.order + [e.domain], g.times[e.domain := [e.visitTime]])
  }

  /** The visit times of domain d, in history order. */
  function TimesOf(history: seq<Entry>, d: string): (r: seq<int>)
    ensures |r| <= |history|
    decreases |history|
  {
    if history == [] then []
    else
      var e := history[|history| - 1];
      TimesOf(history[..|history| - 1], d) + (if e.domain == d then [e.visitTime] else [])
  }

  /** The grouping loop of `detectRapidFireBrowsing` */
  method GroupByDomain(history: seq<Entry>) returns (domainTimestamps: Groups)
    ensures domainTimestamps == Group(history)
  {
    domainTimestamps := Groups([], map[]);
    for i := 0 to |history|
      invariant domainTimestamps == Group(history[..i])
    {
      var entry := history[i];
      ghost var before := domainTimestamps;
      if entry.domain !in domainTimestamps.times {
        domainTimestamps := Groups(domainTimestamps.order + [entry.domain],
                                   domainTimestamps.times[entry.domain := []]);
      }
      domainTimestamps := domainTimestamps.(times := domainTimestamps.times[entry.domain :=
                                            domainTimestamps.times[entry.domain] + [entry.visitTime]]);
      assert history[..i + 1][..i] == history[..i];
      if entry.domain !in before.times {
        assert [] + [entry.visitTime] == [entry.visitTime];
        assert domainTimestamps.times == before.times[entry.domain := [entry.visitTime]];
      }
    }
    assert history[..|history|] == history;
  }

  /** The groups are keyed in the same first-visit order as the visit counts,
      and each group holds exactly the times of its domain's visits. */
  lemma {:induction false} GroupCorrect(history: seq<Entry>)
    ensures Group(history).order == Tally(history).order
    ensures forall d :: d in Group(history).times <==> d in Group(history).order
    ensures forall d :: d in Group(history).times ==> Group(history).times[d] == TimesOf(history, d)
    ensures forall d :: |TimesOf(history, d)| == Visits(history, d)
    decreases |history|
  {
    if history == [] {
      assert DomainsOf(history) == [];
    } else {
      var front := history[..|history| - 1];
      GroupCorrect(front);
      TallyCounts(front);
      VisitsSnoc(history);
    }
  }

  // ---------------------------------------------------------------------------
  // The streak scan over one sorted group
  // ---------------------------------------------------------------------------

  /** (consecutiveCount, maxConsecutive) after the scan has reached the end of ts. */
  function Scan(ts: seq<int>): (r: (int, int))
    decreases |ts|
  {
    if |ts| <= 1 then (1, 1)
    else
      var p := Scan(ts[..|ts| - 1]);
      if ts[|ts| - 1] - ts[|ts| - 2] < HourInMs then
        (p.0 + 1, if p.1 >= p.0 + 1 then p.1 else p.0 + 1)
      else (1, p.1)
  }

  function MaxStreak(ts: seq<int>): int {
    Scan(ts).1
  }

  /** The scan loop of `detectRapidFireBrowsing` */
  method MaxConsecutive(timestamps: seq<int>) returns (maxConsecutive: int)
    ensures maxConsecutive == MaxStreak(timestamps)
  {
    var consecutiveCount := 1;
    maxConsecutive := 1;
    var i := 1;
    while i < |timestamps|
      invariant 1 <= i
      invariant i <= |timestamps| || |timestamps| == 0
      invariant (consecutiveCount, maxConsecutive) == Scan(Take(timestamps, i))
    {
      var timeDiff := timestamps[i] - timestamps[i - 1];
      assert Take(timestamps, i + 1)[..i] == Take(timestamps, i);
      if timeDiff < HourInMs {
        consecutiveCount := consecutiveCount + 1;
        maxConsecutive := if maxConsecutive >= consecutiveCount then maxConsecutive else consecutiveCount;
      } else {
        consecutiveCount := 1;
      }
      i := i + 1;
    }
  }

  /** Visits i..j (inclusive) follow each other at gaps under an hour. */
  ghost predicate Close(ts: seq<int>, i: int, j: int)
    requires 0 <= i <= j < |ts|
  {
    forall k :: i < k <= j ==> ts[k] - ts[k - 1] < HourInMs
  }

  /** A run of m >= 1 close visits starts at i. */
  ghost predicate RunAt(ts: seq<int>, i: int, m: int) {
    0 <= i && 1 <= m && i + m <= |ts| && Close(ts, i, i + m - 1)
  }

  /** The visits from i to the last one are close. */
  ghost predicate CloseToEnd(ts: seq<int>, i: int) {
    0 <= i < |ts| && Close(ts, i, |ts| - 1)
  }

  lemma CloseOfPrefix(ts: seq<int>, n: int, i: int, j: int)
    requires 0 <= i <= j < n <= |ts|
    ensures Close(ts[..n], i, j) <==> Close(ts, i, j)
  {
    assert forall k :: i < k <= j ==> ts[..n][k] == ts[k];
  }

  /** consecutiveCount is the length of the longest close run that ends at
      the last visit. */
  lemma {:induction false} ScanCurrent(ts: seq<int>)
    requires |ts| >= 1
    ensures 1 <= Scan(ts).0 <= |ts|
    ensures Close(ts, |ts| - Scan(ts).0, |ts| - 1)
    ensures forall i :: CloseToEnd(ts, i) ==> |ts| - i <= Scan(ts).0
    decreases |ts|
  {
    if |ts| > 1 {
      var n := |ts|;
      var p := ts[..n - 1];
      ScanCurrent(p);
      var c := Scan(p).0;
      if ts[n - 1] - ts[n - 2] < HourInMs {
        CloseOfPrefix(ts, n - 1, n - 1 - c, n - 2);
        assert Close(ts, n - 1 - c, n - 1);
        forall i | CloseToEnd(ts, i) ensures n - i <= c + 1 {
          if i < n - 1 {
            CloseOfPrefix(ts, n - 1, i, n - 2);
            assert CloseToEnd(p, i);
          }
        }
      } else {
        assert Close(ts, n - 1, n - 1);
        forall i | 0 <= i < n - 1 ensures !CloseToEnd(ts, i) {
          assert ts[n - 1] - ts[n - 2] >= HourInMs;
        }
      }
    }
  }

  /** maxConsecutive is at least consecutiveCount, and some close run has
      that length. */
  lemma {:induction false} ScanBestRun(ts: seq<int>)
    requires |ts| >= 1
    ensures Scan(ts).0 <= Scan(ts).1 <= |ts|
    ensures exists i :: RunAt(ts, i, Scan(ts).1)
    decreases |ts|
  {
    ScanCurrent(ts);
    if |ts| == 1 {
      assert RunAt(ts, 0, 1);
    } else {
      var n := |ts|;
      var p := ts[..n - 1];
      ScanBestRun(p);
      var m := Scan(p).1;
      if ts[n - 1] - ts[n - 2] < HourInMs && m < Scan(p).0 + 1 {
        assert Scan(ts).1 == Scan(ts).0;
        assert RunAt(ts, n - Scan(ts).0, Scan(ts).0);
      } else {
        assert Scan(ts).1 == m;
        var w :| RunAt(p, w, m);
        CloseOfPrefix(ts, n - 1, w, w + m - 1);
        assert RunAt(ts, w, m);
      }
    }
  }

  /** No close run is longer than maxConsecutive. */
  lemma {:induction false} ScanBestLongest(ts: seq<int>)
    requires |ts| >= 1
    ensures forall i, j :: 0 <= i <= j < |ts| && Close(ts, i, j) ==> j - i + 1 <= Scan(ts).1
    decreases |ts|
  {
    ScanCurrent(ts);
    if |ts| > 1 {
      var n := |ts|;
      var p := ts[..n - 1];
      ScanBestLongest(p);
      ScanBestRun(p);
      forall i, j | 0 <= i <= j < n && Close(ts, i, j) ensures j - i + 1 <= Scan(ts).1 {
        if j < n - 1 {
          CloseOfPrefix(ts, n - 1, i, j);
        } else {
          assert CloseToEnd(ts, i);
        }
      }
    }
  }

  /** The scan finds the longest streak: some run of MaxStreak(ts) visits has
      every gap under an hour, no longer run has, and an empty or one-visit
      list scores 1. */
  lemma MaxStreakIsLongestRun(ts: seq<int>)
    ensures 1 <= MaxStreak(ts) <= if |ts| <= 1 then 1 else |ts|
    ensures |ts| >= 1 ==> exists i :: RunAt(ts, i, MaxStreak(ts))
    ensures forall i, j :: 0 <= i <= j < |ts| && Close(ts, i, j) ==> j - i + 1 <= MaxStreak(ts)
  {
    if |ts| >= 1 {
      ScanBestRun(ts);
      ScanBestLongest(ts);
    }
  }

  /** When every gap is under an hour the streak is the whole list. */
  lemma AllCloseStreak(ts: seq<int>)
    requires |ts| >= 1
    requires forall k :: 0 < k < |ts| ==> ts[k] - ts[k - 1] < HourInMs
    ensures MaxStreak(ts) == |ts|
  {
    ScanBestRun(ts);
    ScanBestLongest(ts);
    assert Close(ts, 0, |ts| - 1);
  }

  /** Visits at 0, 10, 20, 70, 75, 80, 85 and 90 minutes: the 50-minute gap
      is under an hour too, so the streak is all eight visits. */
  lemma BurstExample()
    ensures MaxStreak([0, 600000, 1200000, 4200000, 4500000, 4800000, 5100000, 5400000]) == 8
  {
    AllCloseStreak([0, 600000, 1200000, 4200000, 4500000, 4800000, 5100000, 5400000]);
  }

  /** A gap of exactly one hour breaks the streak; 59 minutes does not. */
  lemma HourGapResets()
    ensures MaxStreak([0, 3600000]) == 1
    ensures MaxStreak([0, 3540000]) == 2
  {
    assert [0, 3600000][..1] == [0];
    assert [0, 3540000][..1] == [0];
  }

  // ---------------------------------------------------------------------------
  // `detectRapidFireBrowsing`
  // ---------------------------------------------------------------------------

  /** The streak of domain d in a history. */
  function StreakOf(history: seq<Entry>, d: string): int {
    MaxStreak(StableSort.SortAscending(TimesOf(history, d)))
  }

  /** The qualifying domains among `keys`, with their streaks, in key order. */
  function Qualify(keys: seq<string>, g: Groups, threshold: int): seq<DomainCount>
    decreases |keys|
  {
    if keys == [] then []
    else
      var front := Qualify(keys[..|keys| - 1], g, threshold);
      var d := keys[|keys| - 1];
      if d in g.times && MaxStreak(StableSort.SortAscending(g.times[d])) >= threshold
      then front + [DomainCount(d, MaxStreak(StableSort.SortAscending(g.times[d])))]
      else front
  }

  function RapidFireDomains(history: seq<Entry>, threshold: int): seq<DomainCount> {
    var g := Group(history);
    Qualify(g.order, g, threshold)
  }

  /** `detectRapidFireBrowsing` */
  method DetectRapidFireBrowsing(history: seq<Entry>, threshold: int) returns (rapidFire: seq<DomainCount>)
    ensures rapidFire == RapidFireDomains(history, threshold)
  {
    var domainTimestamps := GroupByDomain(history);
    GroupOrderKeyed(history);
    rapidFire := [];
    var order := domainTimestamps.order;
    for k := 0 to |order|
      invariant rapidFire == Qualify(order[..k], domainTimestamps, threshold)
    {
      var domain := order[k];
      var timestamps := StableSort.SortAscending(domainTimestamps.times[domain]);
      var maxConsecutive := MaxConsecutive(timestamps);
      QualifyStep(order, k, domainTimestamps, threshold);
      if maxConsecutive >= threshold {
        rapidFire := rapidFire + [DomainCount(domain, maxConsecutive)];
      }
    }
    assert order[..|order|] == order;
  }

  lemma GroupOrderKeyed(history: seq<Entry>)
    ensures forall d :: d in Group(history).order ==> d in Group(history).times
  {
    GroupCorrect(history);
  }

  lemma QualifyStep(keys: seq<string>, k: int, g: Groups, threshold: int)
    requires 0 <= k < |keys| && keys[k] in g.times
    ensures Qualify(keys[..k + 1], g, threshold)
         == Qualify(keys[..k], g, threshold) +
            (if MaxStreak(StableSort.SortAscending(g.times[keys[k]])) >= threshold
             then [DomainCount(keys[k], MaxStreak(StableSort.SortAscending(g.times[keys[k]])))] else [])
  {
    assert keys[..k + 1][..k] == keys[..k];
  }

  function NamesOf(s: seq<DomainCount>): (r: seq<string>)
    ensures |r| == |s|
    ensures forall i :: 0 <= i < |s| ==> r[i] == s[i].domain
  {
    seq(|s|, i requires 0 <= i < |s| => s[i].domain)
  }

  lemma QualifyFacts(keys: seq<string>, g: Groups, threshold: int, t: CountTable)
    requires forall d :: d in keys ==> d in g.times
    requires forall d :: d in g.times ==> 1 <= MaxStreak(StableSort.SortAscending(g.times[d])) <= Get(t, d)
    ensures IsSubseq(NamesOf(Qualify(keys, g, threshold)), keys)
    ensures forall x :: x in Qualify(keys, g, threshold) <==>
              x.domain in keys && x.count == MaxStreak(StableSort.SortAscending(g.times[x.domain])) &&
              x.count >= threshold
    ensures 0 <= SumCounts(Qualify(keys, g, threshold)) <= SumOver(keys, t)
  {
    QualifyNames(keys, g, threshold);
    QualifyMembers(keys, g, threshold);
    QualifySum(keys, g, threshold, t);
  }

  lemma {:induction false} QualifyNames(keys: seq<string>, g: Groups, threshold: int)
    ensures IsSubseq(NamesOf(Qualify(keys, g, threshold)), keys)
    decreases |keys|
  {
    if keys != [] {
      var front := keys[..|keys| - 1];
      var d := keys[|keys| - 1];
      var q := Qualify(front, g, threshold);
      QualifyNames(front, g, threshold);
      assert keys == front + [d];
      if d in g.times && MaxStreak(StableSort.SortAscending(g.times[d])) >= threshold {
        var x := DomainCount(d, MaxStreak(StableSort.SortAscending(g.times[d])));
        assert NamesOf(q + [x]) == NamesOf(q) + [d];
        SubseqSnoc(NamesOf(q), front, d);
      } else {
        SubseqAppend(NamesOf(q), front, d);
      }
    }
  }

  lemma {:induction false} QualifyMembers(keys: seq<string>, g: Groups, threshold: int)
    requires forall d :: d in keys ==> d in g.times
    ensures forall x :: x in Qualify(keys, g, threshold) <==>
              x.domain in keys && x.count == MaxStreak(StableSort.SortAscending(g.times[x.domain])) &&
              x.count >= threshold
    decreases |keys|
  {
    if keys != [] {
      var front := keys[..|keys| - 1];
      var d := keys[|keys| - 1];
      assert keys == front + [d];
      assert forall x :: x in keys <==> x in front || x == d;
      QualifyMembers(front, g, threshold);
    }
  }

  lemma {:induction false} QualifySum(keys: seq<string>, g: Groups, threshold: int, t: CountTable)
    requires forall d :: d in keys ==> d in g.times
    requires forall d :: d in g.times ==> 1 <= MaxStreak(StableSort.SortAscending(g.times[d])) <= Get(t, d)
    ensures 0 <= SumCounts(Qualify(keys, g, threshold)) <= SumOver(keys, t)
    decreases |keys|
  {
    if keys != [] {
      var front := keys[..|keys| - 1];
      var d := keys[|keys| - 1];
      var q := Qualify(front, g, threshold);
      assert keys == front + [d];
      QualifySum(front, g, threshold, t);
      if d in g.times && MaxStreak(StableSort.SortAscending(g.times[d])) >= threshold {
        SumCountsSnoc(q, DomainCount(d, MaxStreak(StableSort.SortAscending(g.times[d]))));
      }
    }
  }

  /** A domain's streak is at least 1 and at most its number of visits. */
  lemma StreakBounds(history: seq<Entry>, d: string)
    ensures 1 <= StreakOf(history, d)
    ensures Visits(history, d) >= 1 ==> StreakOf(history, d) <= Visits(history, d)
  {
    GroupCorrect(history);
    var ts := TimesOf(history, d);
    StableSort.SortAscendingOrdered(ts);
    assert |StableSort.SortAscending(ts)| == |multiset(StableSort.SortAscending(ts))| == |ts|;
    MaxStreakIsLongestRun(StableSort.SortAscending(ts));
  }

  /** The result lists exactly the visited domains whose streak reaches the
      threshold, each with its streak, in first-visit order; the streaks add up
      to at most the number of visits. */
  lemma RapidFireCorrect(history: seq<Entry>, threshold: int)
    ensures forall x :: x in RapidFireDomains(history, threshold) <==>
              x.domain in DomainsOf(history) && x.count == StreakOf(history, x.domain) && x.count >= threshold
    ensures IsSubseq(NamesOf(RapidFireDomains(history, threshold)), Tally(history).order)
    ensures 0 <= SumCounts(RapidFireDomains(history, threshold)) <= |history|
  {
    GroupCorrect(history);
    TallyCorrect(history);
    var g := Group(history);
    var t := Tally(history);
    forall d | d in g.times ensures 1 <= MaxStreak(StableSort.SortAscending(g.times[d])) <= Get(t, d) {
      StreakBounds(history, d);
      assert d in DomainsOf(history);
      assert Visits(history, d) >= 1;
    }
    QualifyFacts(g.order, g, threshold, t);
  }
}
