// `analyzeTimePatterns`: a four-bucket histogram of the local hour of each visit.
module TimePatterns {
  import opened BrowserHistory
  import opened PrivacyFilter

  datatype TimeOfDay = Morning | Afternoon | Evening | LateNight

  /** The bucket of a local hour: 6–11, 12–17, 18–22, and the rest. */
  function BucketOf(hour: Hour): TimeOfDay {
    if hour >= 6 && hour < 12 then Morning
    else if hour >= 12 && hour < 18 then Afternoon
    else if hour >= 18 && hour < 23 then Evening
    else LateNight
  }

  /** The late-night bucket holds exactly the hours that the privacy filter
      treats as night. */
  lemma LateNightIsNight(hour: Hour)
    ensures BucketOf(hour) == LateNight <==> IsNightHour(hour)
  {
  }

  datatype TimeCounts = TimeCounts(morningVisits: nat, afternoonVisits: nat, eveningVisits: nat, lateNightVisits: nat)

  function Tick(c: TimeCounts, b: TimeOfDay): TimeCounts {
    match b
    case Morning => c.(morningVisits := c.morningVisits + 1)
    case Afternoon => c.(afternoonVisits := c.afternoonVisits + 1)
    case Evening => c.(eveningVisits := c.eveningVisits + 1)
    case LateNight => c.(lateNightVisits := c.lateNightVisits + 1)
  }

  /** The histogram of a history; the local hour of a time value is `hourOf`. */
  function TimeBuckets(history: seq<Entry>, hourOf: int -> Hour): TimeCounts
    decreases |history|
  {
    if history == [] then TimeCounts(0, 0, 0, 0)
    else Tick(TimeBuckets(history[..|history| - 1], hourOf), BucketOf(hourOf(history[|history| - 1].visitTime)))
  }

  /** `analyzeTimePatterns` */
  method AnalyzeTimePatterns(history: seq<Entry>, hourOf: int -> Hour) returns (patterns: TimeCounts)
    ensures patterns == TimeBuckets(history, hourOf)
  {
    patterns := TimeCounts(0, 0, 0, 0);
    for i := 0 to |history|
      invariant patterns == TimeBuckets(history[..i], hourOf)
    {
      var hour := hourOf(history[i].visitTime);
      if hour >= 6 && hour < 12 {
        patterns := patterns.(morningVisits := patterns.morningVisits + 1);
      } else if hour >= 12 && hour < 18 {
        patterns := patterns.(afternoonVisits := patterns.afternoonVisits + 1);
      } else if hour >= 18 && hour < 23 {
        patterns := patterns.(eveningVisits := patterns.eveningVisits + 1);
      } else {
        patterns := patterns.(lateNightVisits := patterns.lateNightVisits + 1);
      }
      assert history[..i + 1][..i] == history[..i];
    }
    assert history[..|history|] == history;
  }

  /** The bucket of every visit, in order. */
  function BucketsOf(history: seq<Entry>, hourOf: int -> Hour): (r: seq<TimeOfDay>)
    ensures |r| == |history|
  {
    seq(|history|, i requires 0 <= i < |history| => BucketOf(hourOf(history[i].visitTime)))
  }

  /** Each bucket counts the visits whose hour falls in it, and every visit is
      in exactly one bucket, so the four counts add up to the number of visits. */
  lemma {:induction false} TimeBucketsCount(history: seq<Entry>, hourOf: int -> Hour)
    ensures TimeBuckets(history, hourOf).morningVisits == multiset(BucketsOf(history, hourOf))[Morning]
    ensures TimeBuckets(history, hourOf).afternoonVisits == multiset(BucketsOf(history, hourOf))[Afternoon]
    ensures TimeBuckets(history, hourOf).eveningVisits == multiset(BucketsOf(history, hourOf))[Evening]
    ensures TimeBuckets(history, hourOf).lateNightVisits == multiset(BucketsOf(history, hourOf))[LateNight]
    ensures var c := TimeBuckets(history, hourOf);
            c.morningVisits + c.afternoonVisits + c.eveningVisits + c.lateNightVisits == |history|
    decreases |history|
  {
    if history != [] {
      var front := history[..|history| - 1];
      var b := BucketOf(hourOf(history[|history| - 1].visitTime));
      TimeBucketsCount(front, hourOf);
      BucketsSnoc(history, hourOf);
      var m, m' := multiset(BucketsOf(front, hourOf)), multiset(BucketsOf(history, hourOf));
      var c, c' := TimeBuckets(front, hourOf), TimeBuckets(history, hourOf);
      assert c' == Tick(c, b);
      match b {
        case Morning => assert m'[Morning] == m[Morning] + 1 && m'[Afternoon] == m[Afternoon] && m'[Evening] == m[Evening] && m'[LateNight] == m[LateNight];
        case Afternoon => assert m'[Morning] == m[Morning] && m'[Afternoon] == m[Afternoon] + 1 && m'[Evening] == m[Evening] && m'[LateNight] == m[LateNight];
        case Evening => assert m'[Morning] == m[Morning] && m'[Afternoon] == m[Afternoon] && m'[Evening] == m[Evening] + 1 && m'[LateNight] == m[LateNight];
        case LateNight => assert m'[Morning] == m[Morning] && m'[Afternoon] == m[Afternoon] && m'[Evening] == m[Evening] && m'[LateNight] == m[LateNight] + 1;
      }
    }
  }

  lemma BucketsSnoc(history: seq<Entry>, hourOf: int -> Hour)
    requires history != []
    ensures multiset(BucketsOf(history, hourOf))
         == multiset(BucketsOf(history[..|history| - 1], hourOf)) + multiset{BucketOf(hourOf(history[|history| - 1].visitTime))}
  {
    assert BucketsOf(history, hourOf)
        == BucketsOf(history[..|history| - 1], hourOf) + [BucketOf(hourOf(history[|history| - 1].visitTime))];
  }
}
