// `RoastGenerator.analyzePatterns` and the detectors it calls: the structured
// analysis a roast is written from (the roast text itself is not modelled).
module RoastGenerator {
  import opened BrowserHistory
  import opened DomainCounts
  import opened Categories
  import opened TimePatterns
  import opened RapidFire
  import opened Subsequences
  import PrivacyFilter
  import StableSort

  /** The number numerator / denominator as JavaScript computes it; with a
      zero denominator it is NaN (0 / 0) or Infinity (positive / 0). */
  datatype Fraction = Fraction(numerator: int, denominator: nat)

  /** `x > k` for the number x that f stands for (NaN compares false). */
  predicate Above(f: Fraction, k: int) {
    if f.denominator == 0 then f.numerator > 0 else f.numerator > k * f.denominator
  }

  /** `(count / totalVisits) * 100` */
  function Percentage(count: int, total: nat): Fraction {
    Fraction(100 * count, total)
  }

  datatype BrowsingPattern = BrowsingPattern(kind: string, count: int, percentage: Fraction, examples: seq<string>)
  datatype TopDomain = TopDomain(domain: string, count: int, percentage: Fraction)
  datatype Factor = Factor(factor: string, severity: int, description: string)
  datatype Productivity = Productivity(productiveVisits: int, procrastinationVisits: int, productivityScore: Fraction)
  datatype BrowsingAnalysis = BrowsingAnalysis(
    totalVisits: int,
    uniqueDomains: int,
    topDomains: seq<TopDomain>,
    timePatterns: TimeCounts,
    patterns: seq<BrowsingPattern>,
    embarrassingFactors: seq<Factor>,
    productivity: Productivity)

  // ---------------------------------------------------------------------------
  // Top domains
  // ---------------------------------------------------------------------------

  /** The ten most visited domains with their share of all visits. */
  function TopDomains(domainCounts: CountTable, total: nat): (r: seq<TopDomain>)
    ensures |r| == |Ranked(domainCounts, 10)|
  {
    var ranked := Ranked(domainCounts, 10);
    seq(|ranked|, i requires 0 <= i < |ranked| =>
      TopDomain(ranked[i].domain, ranked[i].count, Percentage(ranked[i].count, total)))
  }

  /** An entry of the ranking is a visited domain with its number of visits. */
  lemma RankedVisits(history: seq<Entry>, n: nat)
    ensures forall x :: x in Ranked(Tally(history), n) ==>
              x.domain in DomainsOf(history) && x.count == Visits(history, x.domain)
  {
    var t := Tally(history);
    TallyCorrect(history);
    RankedOrdered(t, n);
    forall x | x in Ranked(t, n) ensures x.domain in DomainsOf(history) && x.count == Visits(history, x.domain) {
      var k :| 0 <= k < |Entries(t)| && Entries(t)[k] == x;
      assert t.order[k] in t.order;
    }
  }

  /** A visited domain outside the ranking was visited no more often than any
      domain inside it. */
  lemma RankedOutranks(history: seq<Entry>, n: nat, d: string, y: DomainCount)
    requires d in DomainsOf(history) && y in Ranked(Tally(history), n)
    requires forall x :: x in Ranked(Tally(history), n) ==> x.domain != d
    ensures Visits(history, d) <= y.count
  {
    var t := Tally(history);
    TallyCorrect(history);
    RankedIsTop(t, n);
    var k :| 0 <= k < |t.order| && t.order[k] == d;
    var x := Entries(t)[k];
    assert x in Entries(t);
  }

  /** At most ten entries, by non-increasing count, each a visited domain with
      its visit count and share; no domain left out was visited more often
      than one kept. */
  lemma TopDomainsProperties(history: seq<Entry>)
    ensures var top := TopDomains(Tally(history), |history|);
            |top| == if |Tally(history).order| < 10 then |Tally(history).order| else 10
    ensures var top := TopDomains(Tally(history), |history|);
            forall i, j :: 0 <= i < j < |top| ==> top[i].count >= top[j].count
    ensures var top := TopDomains(Tally(history), |history|);
            forall i :: 0 <= i < |top| ==>
              top[i].domain in DomainsOf(history) && top[i].count == Visits(history, top[i].domain) &&
              top[i].percentage == Percentage(top[i].count, |history|)
    ensures var top := TopDomains(Tally(history), |history|);
            forall i, d :: 0 <= i < |top| && d in DomainsOf(history) && d !in NamesOfTop(top) ==>
              Visits(history, d) <= top[i].count
  {
    TopDomainsRanked(history);
    TopDomainsOutrank(history);
  }

  lemma TopDomainsRanked(history: seq<Entry>)
    ensures var top := TopDomains(Tally(history), |history|);
            |top| == if |Tally(history).order| < 10 then |Tally(history).order| else 10
    ensures var top := TopDomains(Tally(history), |history|);
            forall i, j :: 0 <= i < j < |top| ==> top[i].count >= top[j].count
    ensures var top := TopDomains(Tally(history), |history|);
            forall i :: 0 <= i < |top| ==>
              top[i].domain in DomainsOf(history) && top[i].count == Visits(history, top[i].domain) &&
              top[i].percentage == Percentage(top[i].count, |history|)
  {
    var ranked := Ranked(Tally(history), 10);
    RankedOrdered(Tally(history), 10);
    RankedVisits(history, 10);
    assert forall i :: 0 <= i < |ranked| ==> ranked[i] in ranked;
  }

  lemma TopDomainsOutrank(history: seq<Entry>)
    ensures var top := TopDomains(Tally(history), |history|);
            forall i, d :: 0 <= i < |top| && d in DomainsOf(history) && d !in NamesOfTop(top) ==>
              Visits(history, d) <= top[i].count
  {
    var ranked := Ranked(Tally(history), 10);
    var top := TopDomains(Tally(history), |history|);
    forall i, d | 0 <= i < |top| && d in DomainsOf(history) && d !in NamesOfTop(top)
      ensures Visits(history, d) <= top[i].count
    {
      forall x | x in ranked ensures x.domain != d {
        var j :| 0 <= j < |ranked| && ranked[j] == x;
        assert NamesOfTop(top)[j] == x.domain;
      }
      RankedOutranks(history, 10, d, ranked[i]);
    }
  }

  function NamesOfTop(top: seq<TopDomain>): (r: seq<string>)
    ensures |r| == |top|
    ensures forall i :: 0 <= i < |top| ==> r[i] == top[i].domain
  {
    seq(|top|, i requires 0 <= i < |top| => top[i].domain)
  }

  // ---------------------------------------------------------------------------
  // The five category detectors
  // ---------------------------------------------------------------------------

  /** One pattern of the given type when a listed domain was visited, else none. */
  function CategoryPattern(kind: string, domainCounts: CountTable, total: nat, category: seq<string>): seq<BrowsingPattern> {
    var visits := CategoryTotal(domainCounts, category);
    if visits.count > 0 then [BrowsingPattern(kind, visits.count, Percentage(visits.count, total), visits.examples)]
    else []
  }

  function AnalyzeSocialMediaUsage(history: seq<Entry>, domainCounts: CountTable): seq<BrowsingPattern> {
    CategoryPattern("social_media_addiction", domainCounts, |history|, SocialMedia)
  }

  function AnalyzeProcrastination(history: seq<Entry>, domainCounts: CountTable): seq<BrowsingPattern> {
    CategoryPattern("procrastination", domainCounts, |history|, Procrastination)
  }

  function AnalyzeShoppingHabits(history: seq<Entry>, domainCounts: CountTable): seq<BrowsingPattern> {
    CategoryPattern("shopping", domainCounts, |history|, Shopping)
  }

  function AnalyzeBingePatterns(history: seq<Entry>, domainCounts: CountTable): seq<BrowsingPattern> {
    CategoryPattern("binge_watching", domainCounts, |history|, BingeWorthy)
  }

  function AnalyzeDeveloperProcrastination(history: seq<Entry>, domainCounts: CountTable): seq<BrowsingPattern> {
    CategoryPattern("developer_procrastination", domainCounts, |history|, DeveloperProcrastination)
  }

  /** A detector reports exactly when some listed domain was visited; its
      count is then the number of visits to listed domains, and its examples
      are the first (at most three) listed domains that were visited. */
  lemma CategoryPatternProperties(history: seq<Entry>, kind: string, category: seq<string>)
    requires Distinct(category)
    ensures var ps := CategoryPattern(kind, Tally(history), |history|, category);
            |ps| <= 1 && (|ps| == 1 <==> VisitsIn(history, category) > 0)
    ensures var ps := CategoryPattern(kind, Tally(history), |history|, category);
            |ps| == 1 ==>
              ps[0].kind == kind && ps[0].count == VisitsIn(history, category) &&
              0 < ps[0].count <= |history| &&
              ps[0].percentage == Percentage(ps[0].count, |history|) &&
              1 <= |ps[0].examples| <= 3 &&
              forall d :: d in ps[0].examples ==> d in category && Visits(history, d) > 0
  {
    var acc := Accumulate(Tally(history), category);
    CategoryTotalProperties(history, category);
    assert forall d :: d in Take(acc.examples, 3) ==> d in acc.examples;
  }

  /** The five detectors read the tables they are named for. */
  lemma DetectorsCountVisits(history: seq<Entry>)
    ensures var t := Tally(history);
            |AnalyzeSocialMediaUsage(history, t)| == (if VisitsIn(history, SocialMedia) > 0 then 1 else 0) &&
            |AnalyzeProcrastination(history, t)| == (if VisitsIn(history, Procrastination) > 0 then 1 else 0) &&
            |AnalyzeShoppingHabits(history, t)| == (if VisitsIn(history, Shopping) > 0 then 1 else 0) &&
            |AnalyzeBingePatterns(history, t)| == (if VisitsIn(history, BingeWorthy) > 0 then 1 else 0) &&
            |AnalyzeDeveloperProcrastination(history, t)| ==
              (if VisitsIn(history, DeveloperProcrastination) > 0 then 1 else 0)
  {
    TablesDistinct();
    CategoryPatternProperties(history, "social_media_addiction", SocialMedia);
    CategoryPatternProperties(history, "procrastination", Procrastination);
    CategoryPatternProperties(history, "shopping", Shopping);
    CategoryPatternProperties(history, "binge_watching", BingeWorthy);
    CategoryPatternProperties(history, "developer_procrastination", DeveloperProcrastination);
  }

  // ---------------------------------------------------------------------------
  // `analyzeDigitalAddictionPatterns`
  // ---------------------------------------------------------------------------

  const RapidFireThreshold: int := 5

  function ObsessionOf(x: DomainCount, total: nat): BrowsingPattern {
    BrowsingPattern("digital_obsession", x.count, Percentage(x.count, total), [x.domain])
  }

  /** A pattern for each of the given domains holding more than 40% of visits. */
  function Obsessions(top: seq<DomainCount>, total: nat): seq<BrowsingPattern> {
    if top == [] then []
    else (if Above(Percentage(top[0].count, total), 40) then [ObsessionOf(top[0], total)] else [])
         + Obsessions(top[1..], total)
  }

  /** One pattern summing the streaks of the rapid-fire domains, if any. */
  function CompulsivePattern(history: seq<Entry>): seq<BrowsingPattern> {
    var rapidFire := RapidFireDomains(history, RapidFireThreshold);
    if |rapidFire| > 0 then
      [BrowsingPattern("compulsive_refreshing", SumCounts(rapidFire),
                       Percentage(SumCounts(rapidFire), |history|), NamesOf(rapidFire))]
    else []
  }

  function AnalyzeDigitalAddictionPatterns(history: seq<Entry>, domainCounts: CountTable): seq<BrowsingPattern> {
    Obsessions(Ranked(domainCounts, 3), |history|) + CompulsivePattern(history)
  }

  lemma {:induction false} ObsessionsMembers(top: seq<DomainCount>, total: nat)
    requires total > 0
    ensures forall x :: x in top ==> (ObsessionOf(x, total) in Obsessions(top, total) <==> 100 * x.count > 40 * total)
    ensures forall p :: p in Obsessions(top, total) ==>
              exists x :: x in top && p == ObsessionOf(x, total) && 100 * x.count > 40 * total
  {
    if top != [] {
      var rest := Obsessions(top[1..], total);
      ObsessionsMembers(top[1..], total);
      assert forall x :: x in top <==> x == top[0] || x in top[1..];
      if 100 * top[0].count > 40 * total {
        assert Obsessions(top, total) == [ObsessionOf(top[0], total)] + rest;
      } else {
        assert Obsessions(top, total) == rest;
      }
    }
  }

  lemma MulSucc(a: int, n: int)
    ensures a * (n + 1) == a + a * n
  {
  }

  lemma {:induction false} ObsessionsSum(top: seq<DomainCount>, total: nat)
    requires total > 0
    requires forall x :: x in top ==> x.count >= 0
    ensures 100 * SumCounts(top) >= (40 * total + 1) * |Obsessions(top, total)|
  {
    if top != [] {
      var rest := Obsessions(top[1..], total);
      assert forall x :: x in top[1..] ==> x in top;
      ObsessionsSum(top[1..], total);
      if 100 * top[0].count > 40 * total {
        assert Obsessions(top, total) == [ObsessionOf(top[0], total)] + rest;
        MulSucc(40 * total + 1, |rest|);
      } else {
        assert Obsessions(top, total) == rest;
      }
    }
  }

  /** Digital obsession: never more than two patterns, since each stands
      for more than 40% of the visits. */
  lemma ObsessionBound(history: seq<Entry>)
    ensures |Obsessions(Ranked(Tally(history), 3), |history|)| <= 2
  {
    var t := Tally(history);
    var top := Ranked(t, 3);
    if |history| == 0 {
      assert t == CountTable([], map[]);
      assert Entries(t) == [];
      assert top == [];
    } else {
      RankedVisits(history, 3);
      assert forall x :: x in top ==> x.count >= 0;
      ObsessionsSum(top, |history|);
      RankedSumBound(history, 3);
      AtMostTwo(|history|, |Obsessions(top, |history|)|, SumCounts(top));
    }
  }

  lemma AtMostTwo(total: nat, n: nat, sum: int)
    requires 100 * sum >= (40 * total + 1) * n && sum <= total
    ensures n <= 2
  {
    if n >= 3 {
      MulMonotone(40 * total + 1, 3, n);
    }
  }

  lemma MulMonotone(a: nat, m: nat, n: nat)
    requires m <= n
    ensures a * m <= a * n
  {
  }

  /** Digital obsession: a pattern for exactly those domains of the top three
      that hold more than 40% of the visits, each with its visit count. */
  lemma ObsessionMembers(history: seq<Entry>)
    requires |history| > 0
    ensures forall x :: x in Ranked(Tally(history), 3) ==>
              (ObsessionOf(x, |history|) in Obsessions(Ranked(Tally(history), 3), |history|) <==>
               100 * x.count > 40 * |history|)
    ensures forall p :: p in Obsessions(Ranked(Tally(history), 3), |history|) ==>
              p.kind == "digital_obsession" && |p.examples| == 1 &&
              DomainCount(p.examples[0], p.count) in Ranked(Tally(history), 3) &&
              p.count == Visits(history, p.examples[0]) && 100 * p.count > 40 * |history|
  {
    var top := Ranked(Tally(history), 3);
    RankedVisits(history, 3);
    ObsessionsMembers(top, |history|);
  }

  lemma {:induction false} SumCountsAtLeast(s: seq<DomainCount>, k: int)
    requires forall x :: x in s ==> x.count >= k
    ensures SumCounts(s) >= k * |s|
  {
    if s != [] {
      assert forall x :: x in s[1..] ==> x in s;
      SumCountsAtLeast(s[1..], k);
      assert s[0] in s;
      MulSucc(k, |s| - 1);
      assert SumCounts(s) == s[0].count + SumCounts(s[1..]);
    }
  }

  /** Compulsive refreshing: reported exactly when some visited domain has a
      streak of at least five visits under an hour apart; its examples are
      those domains and its count, the sum of their streaks, is at least five
      per domain and at most the number of visits. */
  lemma CompulsiveProperties(history: seq<Entry>)
    ensures var ps := CompulsivePattern(history);
            |ps| <= 1 &&
            (|ps| == 1 <==> exists d :: d in DomainsOf(history) && StreakOf(history, d) >= RapidFireThreshold)
    ensures var ps := CompulsivePattern(history);
            |ps| == 1 ==>
              ps[0].kind == "compulsive_refreshing" &&
              RapidFireThreshold * |ps[0].examples| <= ps[0].count <= |history| &&
              ps[0].percentage == Percentage(ps[0].count, |history|) &&
              forall d :: d in ps[0].examples <==> d in DomainsOf(history) && StreakOf(history, d) >= RapidFireThreshold
  {
    var r := RapidFireDomains(history, RapidFireThreshold);
    RapidFireCorrect(history, RapidFireThreshold);
    if exists d :: d in DomainsOf(history) && StreakOf(history, d) >= RapidFireThreshold {
      var d :| d in DomainsOf(history) && StreakOf(history, d) >= RapidFireThreshold;
      assert DomainCount(d, StreakOf(history, d)) in r;
    }
    if |r| > 0 {
      assert r[0] in r;
      SumCountsAtLeast(r, RapidFireThreshold);
      forall d ensures d in NamesOf(r) <==> d in DomainsOf(history) && StreakOf(history, d) >= RapidFireThreshold {
        if d in NamesOf(r) {
          var i :| 0 <= i < |r| && NamesOf(r)[i] == d;
          assert r[i] in r;
        }
        if d in DomainsOf(history) && StreakOf(history, d) >= RapidFireThreshold {
          var x := DomainCount(d, StreakOf(history, d));
          assert x in r;
          var i :| 0 <= i < |r| && r[i] == x;
          assert NamesOf(r)[i] == d;
        }
      }
    }
  }

  // ---------------------------------------------------------------------------
  // `calculateEmbarrassingFactors` and `calculateProductivity`
  // ---------------------------------------------------------------------------

  const LateNightFactor := Factor("late_night_browsing", 8,
    "Your 3 AM browsing sessions are more consistent than your sleep schedule.")
  const SocialMediaFactor := Factor("social_media_addiction", 9,
    "Your social media usage suggests you might need a digital detox... or an intervention.")
  const ShoppingFactor := Factor("shopping_addiction", 7,
    "Your browser history reads like a shopping spree receipt.")

  function CalculateEmbarrassingFactors(history: seq<Entry>, domainCounts: CountTable, timePatterns: TimeCounts): seq<Factor> {
    var totalVisits := |history|;
    var socialMediaCount := CategoryTotal(domainCounts, SocialMedia).count;
    var shoppingCount := CategoryTotal(domainCounts, Shopping).count;
    Factors(timePatterns.lateNightVisits as real > totalVisits as real * 0.2,
            socialMediaCount as real > totalVisits as real * 0.3,
            shoppingCount as real > totalVisits as real * 0.2)
  }

  /** The factors raised by the three tests, in the order they are tested. */
  function Factors(lateNight: bool, socialMedia: bool, shopping: bool): seq<Factor> {
    (if lateNight then [LateNightFactor] else [])
    + (if socialMedia then [SocialMediaFactor] else [])
    + (if shopping then [ShoppingFactor] else [])
  }

  /** The three thresholds, as comparisons of whole numbers. */
  lemma ThresholdsExact(x: int, total: int)
    ensures x as real > total as real * 0.2 <==> 5 * x > total
    ensures x as real > total as real * 0.3 <==> 10 * x > 3 * total
  {
  }

  /** The three tests of `calculateEmbarrassingFactors`, as whole-number
      comparisons of the counts it reads. */
  lemma FactorsExact(history: seq<Entry>, domainCounts: CountTable, timePatterns: TimeCounts)
    ensures CalculateEmbarrassingFactors(history, domainCounts, timePatterns)
         == Factors(5 * timePatterns.lateNightVisits > |history|,
                    10 * CategoryTotal(domainCounts, SocialMedia).count > 3 * |history|,
                    5 * CategoryTotal(domainCounts, Shopping).count > |history|)
  {
    ThresholdsExact(timePatterns.lateNightVisits, |history|);
    ThresholdsExact(CategoryTotal(domainCounts, SocialMedia).count, |history|);
    ThresholdsExact(CategoryTotal(domainCounts, Shopping).count, |history|);
  }

  /** Late-night browsing (severity 8) when more than a fifth of the visits fall
      at 23:00–05:59, social-media addiction (9) when more than 30% of them are
      to listed social sites, shopping addiction (7) when more than a fifth are
      to listed shops; in that order. */
  lemma EmbarrassingFactorsMeaning(history: seq<Entry>, hourOf: int -> PrivacyFilter.Hour)
    ensures CalculateEmbarrassingFactors(history, Tally(history), TimeBuckets(history, hourOf))
         == Factors(5 * multiset(BucketsOf(history, hourOf))[LateNight] > |history|,
                    10 * VisitsIn(history, SocialMedia) > 3 * |history|,
                    5 * VisitsIn(history, Shopping) > |history|)
  {
    FactorsExact(history, Tally(history), TimeBuckets(history, hourOf));
    TimeBucketsCount(history, hourOf);
    FactorCounts(history);
  }

  /** The social-media and shopping counts are visits to those tables. */
  lemma FactorCounts(history: seq<Entry>)
    ensures CategoryTotal(Tally(history), SocialMedia).count == VisitsIn(history, SocialMedia)
    ensures CategoryTotal(Tally(history), Shopping).count == VisitsIn(history, Shopping)
  {
    TablesDistinct();
    CategoryCountIsVisits(history, SocialMedia);
    CategoryCountIsVisits(history, Shopping);
  }

  function CalculateProductivity(history: seq<Entry>, domainCounts: CountTable): Productivity {
    var procrastinationVisits := CategoryTotal(domainCounts, ProductivityKillers).count;
    var productiveVisits := |history| - procrastinationVisits;
    Productivity(productiveVisits, procrastinationVisits, Fraction(productiveVisits, |history|))
  }

  /** Every visit is either productive or to a listed productivity killer; the
      score is the productive share, between 0 and 1, and NaN (a zero
      denominator) when there are no visits. */
  lemma ProductivityProperties(history: seq<Entry>)
    ensures var p := CalculateProductivity(history, Tally(history));
            p.procrastinationVisits == VisitsIn(history, ProductivityKillers) &&
            p.productiveVisits + p.procrastinationVisits == |history| &&
            0 <= p.procrastinationVisits && 0 <= p.productiveVisits &&
            p.productivityScore.denominator == |history| &&
            0 <= p.productivityScore.numerator <= p.productivityScore.denominator &&
            (|history| == 0 ==> !Above(p.productivityScore, -1))
  {
    TablesDistinct();
    CategoryTotalProperties(history, ProductivityKillers);
  }

  // ---------------------------------------------------------------------------
  // `analyzePatterns`
  // ---------------------------------------------------------------------------

  function Patterns(history: seq<Entry>, domainCounts: CountTable): seq<BrowsingPattern> {
    AnalyzeSocialMediaUsage(history, domainCounts) + AnalyzeProcrastination(history, domainCounts) +
    AnalyzeShoppingHabits(history, domainCounts) + AnalyzeBingePatterns(history, domainCounts) +
    AnalyzeDeveloperProcrastination(history, domainCounts) + AnalyzeDigitalAddictionPatterns(history, domainCounts)
  }

  function Analysis(history: seq<Entry>, hourOf: int -> PrivacyFilter.Hour): BrowsingAnalysis {
    var domainCounts := Tally(history);
    var timePatterns := TimeBuckets(history, hourOf);
    BrowsingAnalysis(
      |history|,
      |domainCounts.order|,
      TopDomains(domainCounts, |history|),
      timePatterns,
      Patterns(history, domainCounts),
      CalculateEmbarrassingFactors(history, domainCounts, timePatterns),
      CalculateProductivity(history, domainCounts))
  }

  /** `analyzePatterns` */
  method AnalyzePatterns(history: seq<Entry>, hourOf: int -> PrivacyFilter.Hour) returns (analysis: BrowsingAnalysis)
    ensures analysis == Analysis(history, hourOf)
  {
    var totalVisits := |history|;
    var domainCounts := CountDomains(history);
    var topDomains := TopDomains(domainCounts, totalVisits);
    var timePatterns := AnalyzeTimePatterns(history, hourOf);
    var patterns := Patterns(history, domainCounts);
    var embarrassingFactors := CalculateEmbarrassingFactors(history, domainCounts, timePatterns);
    var productivity := CalculateProductivity(history, domainCounts);
    analysis := BrowsingAnalysis(totalVisits, |domainCounts.order|, topDomains, timePatterns,
                                 patterns, embarrassingFactors, productivity);
  }

  /** The totals of an analysis: every visit counted once, the number of
      distinct domains, every visit in one time bucket, and at most eight
      patterns (five categories, two obsessions, one rapid-fire). */
  lemma AnalysisTotals(history: seq<Entry>, hourOf: int -> PrivacyFilter.Hour)
    ensures var a := Analysis(history, hourOf);
            a.totalVisits == |history| &&
            a.uniqueDomains == |set e | e in history :: e.domain| &&
            a.timePatterns.morningVisits + a.timePatterns.afternoonVisits +
              a.timePatterns.eveningVisits + a.timePatterns.lateNightVisits == |history| &&
            |a.patterns| <= 8 &&
            (|history| == 0 ==> a.patterns == [] && a.topDomains == [])
  {
    UniqueDomainsCount(history);
    TimeBucketsCount(history, hourOf);
    PatternsAtMostEight(history);
    if |history| == 0 {
      EmptyAnalysis(history);
    }
  }

  lemma PatternsAtMostEight(history: seq<Entry>)
    ensures |Patterns(history, Tally(history))| <= 8
  {
    DetectorsCountVisits(history);
    ObsessionBound(history);
    CompulsiveProperties(history);
  }

  lemma EmptyAnalysis(history: seq<Entry>)
    requires history == []
    ensures Patterns(history, Tally(history)) == [] && TopDomains(Tally(history), 0) == []
  {
    DetectorsCountVisits(history);
    EmptyRanking(history);
    assert RapidFireDomains(history, RapidFireThreshold) == [];
  }

  lemma EmptyRanking(history: seq<Entry>)
    requires history == []
    ensures Ranked(Tally(history), 3) == [] && Ranked(Tally(history), 10) == []
  {
    var t := Tally(history);
    TallyCorrect(history);
    RankedOrdered(t, 10);
    RankedOrdered(t, 3);
    assert t.order == [];
  }
}
