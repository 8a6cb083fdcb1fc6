// The visit count per domain that `analyzePatterns` builds first, and the
// ranking of its entries that both the top-10 table and the obsession
// detector use.
module DomainCounts {
  import opened BrowserHistory
  import StableSort
  import opened Subsequences

  /** The insertion-ordered `Map<string, number>`: its keys in insertion order,
      and the value stored under each. */
  datatype CountTable = CountTable(order: seq<string>, counts: map<string, int>)

  /** The keys are listed once each, in `order`. */
  ghost predicate Valid(t: CountTable) {
    (forall i, j :: 0 <= i < j < |t.order| ==> t.order[i] != t.order[j]) &&
    (forall d :: d in t.counts <==> d in t.order)
  }

  /** `domainCounts.get(d) || 0` */
  function Get(t: CountTable, d: string): int {
    if d in t.counts then t.counts[d] else 0
  }

  /** `domainCounts.set(d, v)`: a new key goes to the end of the order. */
  function Set(t: CountTable, d: string, v: int): CountTable {
    if d in t.counts then t.(counts := t.counts[d := v])
    else CountTable(t.order + [d], t.counts[d := v])
  }

  /** The table after the first n entries of the history were counted. */
  function Tally(history: seq<Entry>): CountTable
    decreases |history|
  {
    if history == [] then CountTable([], map[])
    else
      var t := Tally(history[..|history| - 1]);
      var d := history[|history| - 1].domain;
      Set(t, d, Get(t, d) + 1)
  }

  /** The counting `forEach` of `analyzePatterns`. */
  method CountDomains(history: seq<Entry>) returns (domainCounts: CountTable)
    ensures domainCounts == Tally(history)
  {
    domainCounts := CountTable([], map[]);
    for i := 0 to |history|
      invariant domainCounts == Tally(history[..i])
    {
      var entry := history[i];
      var count := Get(domainCounts, entry.domain);
      domainCounts := Set(domainCounts, entry.domain, count + 1);
      assert history[..i + 1][..i] == history[..i];
    }
    assert history[..|history|] == history;
  }

  /** The domains of the entries, in order. */
  function DomainsOf(history: seq<Entry>): (r: seq<string>)
    ensures |r| == |history|
    ensures forall i :: 0 <= i < |history| ==> r[i] == history[i].domain
  {
    seq(|history|, i requires 0 <= i < |history| => history[i].domain)
  }

  /** The number of entries with domain d. */
  function Visits(history: seq<Entry>, d: string): nat {
    multiset(DomainsOf(history))[d]
  }

  /** Sum of the stored values over the keys in `keys`. */
  function SumOver(keys: seq<string>, t: CountTable): int {
    if keys == [] then 0 else SumOver(keys[..|keys| - 1], t) + Get(t, keys[|keys| - 1])
  }

  /** `totalVisits` is the sum of the counts. */
  function Total(t: CountTable): int {
    SumOver(t.order, t)
  }

  lemma DomainsOfSnoc(history: seq<Entry>)
    requires history != []
    ensures DomainsOf(history) == DomainsOf(history[..|history| - 1]) + [history[|history| - 1].domain]
  {
  }

  lemma {:induction false} SumOverUpdate(keys: seq<string>, t: CountTable, d: string, v: int)
    requires forall i, j :: 0 <= i < j < |keys| ==> keys[i] != keys[j]
    ensures d !in keys ==> SumOver(keys, t.(counts := t.counts[d := v])) == SumOver(keys, t)
    ensures d in keys && d in t.counts ==>
              SumOver(keys, t.(counts := t.counts[d := v])) == SumOver(keys, t) - t.counts[d] + v
    decreases |keys|
  {
    if keys != [] {
      var front := keys[..|keys| - 1];
      SumOverUpdate(front, t, d, v);
      assert forall x :: x in front ==> x in keys;
      if d == keys[|keys| - 1] {
        assert d !in front by {
          forall i | 0 <= i < |front| ensures front[i] != d {
            assert front[i] == keys[i];
          }
        }
      }
    }
  }

  lemma {:induction false} SumOverSameCounts(keys: seq<string>, t: CountTable, u: CountTable)
    requires t.counts == u.counts
    ensures SumOver(keys, t) == SumOver(keys, u)
    decreases |keys|
  {
    if keys != [] {
      SumOverSameCounts(keys[..|keys| - 1], t, u);
    }
  }

  /** One counting step keeps the keys distinct and listed in the order. */
  lemma SetKeepsValid(t: CountTable, d: string, v: int)
    requires Valid(t)
    ensures Valid(Set(t, d, v))
    ensures forall x :: x in Set(t, d, v).order <==> x in t.order || x == d
  {
    var u := Set(t, d, v);
    if d !in t.counts {
      forall i, j | 0 <= i < j < |u.order| ensures u.order[i] != u.order[j] {
        if j == |u.order| - 1 {
          assert u.order[i] == t.order[i];
        } else {
          assert u.order[i] == t.order[i] && u.order[j] == t.order[j];
        }
      }
    }
  }

  lemma SetGet(t: CountTable, d: string, v: int)
    ensures forall x :: Get(Set(t, d, v), x) == if x == d then v else Get(t, x)
  {
  }

  lemma VisitsSnoc(history: seq<Entry>)
    requires history != []
    ensures forall x :: Visits(history, x)
              == Visits(history[..|history| - 1], x) + (if x == history[|history| - 1].domain then 1 else 0)
    ensures forall x :: x in DomainsOf(history) <==>
              x in DomainsOf(history[..|history| - 1]) || x == history[|history| - 1].domain
  {
    DomainsOfSnoc(history);
  }

  /** The table counts the domains: each stored value is the number of
      entries with that domain, and the keys are the domains seen, each once. */
  lemma {:induction false} TallyCounts(history: seq<Entry>)
    ensures Valid(Tally(history))
    ensures forall d :: Get(Tally(history), d) == Visits(history, d)
    ensures forall d :: d in Tally(history).order <==> d in DomainsOf(history)
    decreases |history|
  {
    if history != [] {
      var front := history[..|history| - 1];
      var t := Tally(front);
      var d := history[|history| - 1].domain;
      assert Tally(history) == Set(t, d, Get(t, d) + 1);
      TallyCounts(front);
      VisitsSnoc(history);
      SetGet(t, d, Get(t, d) + 1);
      SetKeepsValid(t, d, Get(t, d) + 1);
    }
  }

  /** The counts add up to the number of entries. */
  lemma {:induction false} TallyTotal(history: seq<Entry>)
    ensures Total(Tally(history)) == |history|
    decreases |history|
  {
    if history != [] {
      var front := history[..|history| - 1];
      var t := Tally(front);
      var d := history[|history| - 1].domain;
      var u := Set(t, d, Get(t, d) + 1);
      assert Tally(history) == u;
      TallyTotal(front);
      TallyCounts(front);
      SumOverUpdate(t.order, t, d, Get(t, d) + 1);
      SumOverSameCounts(t.order, t.(counts := t.counts[d := Get(t, d) + 1]), u);
      if d !in t.counts {
        assert u.order[..|u.order| - 1] == t.order;
      }
    }
  }

  lemma TallyCorrect(history: seq<Entry>)
    ensures Valid(Tally(history))
    ensures forall d :: Get(Tally(history), d) == Visits(history, d)
    ensures forall d :: d in Tally(history).order <==> d in DomainsOf(history)
    ensures Total(Tally(history)) == |history|
  {
    TallyCounts(history);
    TallyTotal(history);
  }

  lemma {:induction false} DistinctCardinality(s: seq<string>)
    requires forall i, j :: 0 <= i < j < |s| ==> s[i] != s[j]
    ensures |set x | x in s| == |s|
    decreases |s|
  {
    if s != [] {
      var front := s[..|s| - 1];
      DistinctCardinality(front);
      assert (set x | x in s) == (set x | x in front) + {s[|s| - 1]};
      assert s[|s| - 1] !in front by {
        forall i | 0 <= i < |front| ensures front[i] != s[|s| - 1] {
          assert front[i] == s[i];
        }
      }
    }
  }

  /** `uniqueDomains` (`domainCounts.size`) is the number of distinct domains. */
  lemma UniqueDomainsCount(history: seq<Entry>)
    ensures |Tally(history).order| == |set e | e in history :: e.domain|
  {
    TallyCorrect(history);
    var order := Tally(history).order;
    DistinctCardinality(order);
    forall x ensures x in order <==> x in (set e | e in history :: e.domain) {
      if x in (set e | e in history :: e.domain) {
        var e :| e in history && e.domain == x;
        var i :| 0 <= i < |history| && history[i] == e;
        assert DomainsOf(history)[i] == x;
      }
    }
    assert (set x | x in order) == (set e | e in history :: e.domain);
  }

  // ---------------------------------------------------------------------------
  // Ranking

  datatype DomainCount = DomainCount(domain: string, count: int)

  function CountOf(e: DomainCount): int { e.count }

  /** `Array.from(domainCounts.entries())` */
  function EntriesOf(keys: seq<string>, t: CountTable): (r: seq<DomainCount>)
    ensures |r| == |keys|
    ensures forall i :: 0 <= i < |keys| ==> r[i] == DomainCount(keys[i], Get(t, keys[i]))
  {
    seq(|keys|, i requires 0 <= i < |keys| => DomainCount(keys[i], Get(t, keys[i])))
  }

  function Entries(t: CountTable): seq<DomainCount> {
    EntriesOf(t.order, t)
  }

  /** `.sort((a, b) => b[1] - a[1]).slice(0, n)` */
  function Ranked(t: CountTable, n: nat): seq<DomainCount> {
    Take(StableSort.SortDesc(Entries(t), CountOf), n)
  }

  lemma {:induction false} WithKeyPrefix<T>(a: seq<T>, b: seq<T>, key: T -> int, k: int)
    requires a <= b
    ensures StableSort.WithKey(a, key, k) <= StableSort.WithKey(b, key, k)
  {
    if a != [] {
      assert a[1..] <= b[1..];
      WithKeyPrefix(a[1..], b[1..], key, k);
    }
  }

  lemma SortedMembers(t: CountTable)
    ensures forall x :: x in StableSort.SortDesc(Entries(t), CountOf) <==> x in Entries(t)
  {
    StableSort.SortDescPermutes(Entries(t), CountOf);
    assert forall x :: x in StableSort.SortDesc(Entries(t), CountOf) <==> x in multiset(Entries(t));
  }

  /** The first n of the ranking: at most n of the table's entries, by
      non-increasing count. */
  lemma RankedOrdered(t: CountTable, n: nat)
    ensures |Ranked(t, n)| == if n < |t.order| then n else |t.order|
    ensures StableSort.NonIncreasing(Ranked(t, n), CountOf)
    ensures forall x :: x in Ranked(t, n) ==> x in Entries(t)
  {
    var sorted := StableSort.SortDesc(Entries(t), CountOf);
    var r := Ranked(t, n);
    StableSort.SortDescOrdered(Entries(t), CountOf);
    SortedMembers(t);
    assert forall k :: 0 <= k < |r| ==> r[k] == sorted[k];
    assert forall x :: x in r ==> x in sorted;
  }

  /** No entry left out of the first n outranks one kept. */
  lemma RankedIsTop(t: CountTable, n: nat)
    ensures forall x, y :: x in Entries(t) && x !in Ranked(t, n) && y in Ranked(t, n) ==> y.count >= x.count
  {
    var sorted := StableSort.SortDesc(Entries(t), CountOf);
    var r := Ranked(t, n);
    StableSort.SortDescOrdered(Entries(t), CountOf);
    SortedMembers(t);
    forall x, y | x in Entries(t) && x !in r && y in r ensures y.count >= x.count {
      assert x in sorted;
      var i :| 0 <= i < |sorted| && sorted[i] == x;
      var j :| 0 <= j < |r| && r[j] == y;
      assert forall k :: 0 <= k < |r| ==> r[k] == sorted[k];
      assert |r| <= i;
      assert CountOf(sorted[j]) >= CountOf(sorted[i]);
    }
  }

  /** Entries of equal count keep the table's first-seen order. */
  lemma RankedTiesStable(t: CountTable, n: nat)
    ensures forall c :: StableSort.WithKey(Ranked(t, n), CountOf, c) <= StableSort.WithKey(Entries(t), CountOf, c)
  {
    var sorted := StableSort.SortDesc(Entries(t), CountOf);
    forall c ensures StableSort.WithKey(Ranked(t, n), CountOf, c) <= StableSort.WithKey(Entries(t), CountOf, c) {
      StableSort.SortDescStable(Entries(t), CountOf, c);
      WithKeyPrefix(Ranked(t, n), sorted, CountOf, c);
    }
  }

  /** Sum of the counts of a list of entries. */
  function SumCounts(s: seq<DomainCount>): int {
    if s == [] then 0 else s[0].count + SumCounts(s[1..])
  }

  lemma {:induction false} SumCountsInsert(x: DomainCount, s: seq<DomainCount>)
    ensures SumCounts(StableSort.Insert(x, s, CountOf)) == x.count + SumCounts(s)
  {
    if s != [] && CountOf(x) < CountOf(s[0]) {
      SumCountsInsert(x, s[1..]);
    }
  }

  lemma {:induction false} SumCountsSort(s: seq<DomainCount>)
    ensures SumCounts(StableSort.SortDesc(s, CountOf)) == SumCounts(s)
  {
    if s != [] {
      SumCountsSort(s[1..]);
      SumCountsInsert(s[0], StableSort.SortDesc(s[1..], CountOf));
    }
  }

  lemma {:induction false} SumCountsTake(s: seq<DomainCount>, n: nat)
    requires forall x :: x in s ==> x.count >= 0
    ensures SumCounts(Take(s, n)) <= SumCounts(s)
  {
    if n < |s| && n > 0 {
      assert Take(s, n)[1..] == Take(s[1..], n - 1);
      SumCountsTake(s[1..], n - 1);
    } else if n < |s| {
      SumCountsNonNegative(s);
    }
  }

  lemma {:induction false} SumCountsNonNegative(s: seq<DomainCount>)
    requires forall x :: x in s ==> x.count >= 0
    ensures SumCounts(s) >= 0
  {
    if s != [] {
      SumCountsNonNegative(s[1..]);
    }
  }

  lemma {:induction false} SumCountsEntries(keys: seq<string>, t: CountTable)
    ensures SumCounts(EntriesOf(keys, t)) == SumOver(keys, t)
    decreases |keys|
  {
    if keys != [] {
      var front := keys[..|keys| - 1];
      SumCountsEntries(front, t);
      SumCountsSnoc(EntriesOf(front, t), DomainCount(keys[|keys| - 1], Get(t, keys[|keys| - 1])));
      assert EntriesOf(keys, t) == EntriesOf(front, t) + [DomainCount(keys[|keys| - 1], Get(t, keys[|keys| - 1]))];
    }
  }

  lemma {:induction false} SumCountsSnoc(s: seq<DomainCount>, x: DomainCount)
    ensures SumCounts(s + [x]) == SumCounts(s) + x.count
  {
    if s != [] {
      assert (s + [x])[1..] == s[1..] + [x];
      SumCountsSnoc(s[1..], x);
    }
  }

  /** The counts of any leading part of the ranking add up to at most the
      number of visits. */
  lemma RankedSumBound(history: seq<Entry>, n: nat)
    ensures SumCounts(Ranked(Tally(history), n)) <= |history|
  {
    var t := Tally(history);
    TallyCorrect(history);
    SumCountsEntries(t.order, t);
    SumCountsSort(Entries(t));
    SortedMembers(t);
    var sorted := StableSort.SortDesc(Entries(t), CountOf);
    SumCountsTake(sorted, n);
  }
}
