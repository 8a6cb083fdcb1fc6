// The category tables (`embarrassingDomains`) and `countDomainsByCategory`,
// which looks each listed domain up in the visit counts by exact key.
module Categories {
  import opened BrowserHistory
  import opened DomainCounts
  import opened Subsequences

  const SocialMedia: seq<string> := [
    "facebook.com", "instagram.com", "twitter.com", "tiktok.com", "snapchat.com",
    "linkedin.com", "reddit.com", "pinterest.com", "tumblr.com", "discord.com"]

  const Procrastination: seq<string> := [
    "youtube.com", "reddit.com", "9gag.com", "buzzfeed.com", "imgur.com",
    "netflix.com", "twitch.tv", "memes.com", "boredpanda.com", "distractify.com"]

  const Shopping: seq<string> := [
    "amazon.com", "ebay.com", "etsy.com", "alibaba.com", "wish.com",
    "aliexpress.com", "shopify.com", "target.com", "walmart.com", "shein.com"]

  /** Listed in the tables; no detector reads it. */
  const WeirdContent: seq<string> := [
    "wikihow.com", "stackoverflow.com", "quora.com", "yahoo.answers.com"]

  const ProductivityKillers: seq<string> := [
    "youtube.com", "reddit.com", "facebook.com", "instagram.com", "twitter.com",
    "netflix.com", "twitch.tv", "tiktok.com"]

  const BingeWorthy: seq<string> := [
    "netflix.com", "hulu.com", "disney.com", "amazon.com", "youtube.com",
    "twitch.tv", "crunchyroll.com", "funimation.com"]

  const DeveloperProcrastination: seq<string> := [
    "stackoverflow.com", "github.com", "hackernews.com", "dev.to", "medium.com",
    "reddit.com", "producthunt.com"]

  ghost predicate Distinct(s: seq<string>) {
    forall i, j :: 0 <= i < j < |s| ==> s[i] != s[j]
  }

  /** `{ count, examples }` as `countDomainsByCategory` returns it. */
  datatype CategoryCount = CategoryCount(count: int, examples: seq<string>)

  /** The running `count` and the untruncated `examples` after the loop has
      looked at every domain of `category`. */
  function Accumulate(t: CountTable, category: seq<string>): CategoryCount
    decreases |category|
  {
    if category == [] then CategoryCount(0, [])
    else
      var acc := Accumulate(t, category[..|category| - 1]);
      var domain := category[|category| - 1];
      var domainCount := Get(t, domain);
      if domainCount > 0 then CategoryCount(acc.count + domainCount, acc.examples + [domain]) else acc
  }

  /** The result: the examples cut to the first three. */
  function CategoryTotal(t: CountTable, category: seq<string>): CategoryCount {
    var acc := Accumulate(t, category);
    CategoryCount(acc.count, Take(acc.examples, 3))
  }

  /** `countDomainsByCategory` */
  method CountDomainsByCategory(domainCounts: CountTable, categoryDomains: seq<string>) returns (result: CategoryCount)
    ensures result == CategoryTotal(domainCounts, categoryDomains)
  {
    var count := 0;
    var examples: seq<string> := [];
    for i := 0 to |categoryDomains|
      invariant CategoryCount(count, examples) == Accumulate(domainCounts, categoryDomains[..i])
    {
      var domain := categoryDomains[i];
      var domainCount := Get(domainCounts, domain);
      if domainCount > 0 {
        count := count + domainCount;
        examples := examples + [domain];
      }
      assert categoryDomains[..i + 1][..i] == categoryDomains[..i];
    }
    assert categoryDomains[..|categoryDomains|] == categoryDomains;
    result := CategoryCount(count, Take(examples, 3));
  }

  /** Visits whose domain is, letter for letter, one of the category's. */
  function VisitsIn(history: seq<Entry>, category: seq<string>): (n: nat)
    ensures n <= |history|
    decreases |history|
  {
    if history == [] then 0
    else VisitsIn(history[..|history| - 1], category) + (if history[|history| - 1].domain in category then 1 else 0)
  }

  /** The examples are the listed domains with a positive count, in list
      order; the count is positive exactly when there is an example. */
  lemma {:induction false} AccumulateExamples(t: CountTable, category: seq<string>)
    requires forall d :: Get(t, d) >= 0
    ensures IsSubseq(Accumulate(t, category).examples, category)
    ensures forall d :: d in Accumulate(t, category).examples <==> d in category && Get(t, d) > 0
    ensures Accumulate(t, category).count >= 0
    ensures Accumulate(t, category).count > 0 <==> Accumulate(t, category).examples != []
    decreases |category|
  {
    if category != [] {
      var front := category[..|category| - 1];
      var domain := category[|category| - 1];
      var acc := Accumulate(t, front);
      AccumulateExamples(t, front);
      assert category == front + [domain];
      assert forall d :: d in category <==> d in front || d == domain;
      if Get(t, domain) > 0 {
        SubseqSnoc(acc.examples, front, domain);
      } else {
        SubseqAppend(acc.examples, front, domain);
      }
    }
  }

  lemma {:induction false} VisitsInSplit(history: seq<Entry>, front: seq<string>, d: string)
    requires d !in front
    ensures VisitsIn(history, front + [d]) == VisitsIn(history, front) + Visits(history, d)
    decreases |history|
  {
    if history != [] {
      VisitsInSplit(history[..|history| - 1], front, d);
      VisitsSnoc(history);
    } else {
      assert DomainsOf(history) == [];
    }
  }

  /** With the visit counts of a history, the category count is the number of
      visits whose domain is listed: exact lookup, so a subdomain of a listed
      domain does not count. */
  lemma {:induction false} CategoryCountIsVisits(history: seq<Entry>, category: seq<string>)
    requires Distinct(category)
    ensures Accumulate(Tally(history), category).count == VisitsIn(history, category)
    decreases |category|
  {
    TallyCorrect(history);
    if category == [] {
      VisitsInNone(history);
    } else {
      var front := category[..|category| - 1];
      var d := category[|category| - 1];
      DistinctFront(category);
      CategoryCountIsVisits(history, front);
      VisitsInSplit(history, front, d);
      assert front + [d] == category;
    }
  }

  lemma DistinctFront(category: seq<string>)
    requires Distinct(category) && category != []
    ensures Distinct(category[..|category| - 1])
    ensures category[|category| - 1] !in category[..|category| - 1]
  {
    var front := category[..|category| - 1];
    forall i | 0 <= i < |front| ensures front[i] != category[|category| - 1] {
      assert front[i] == category[i];
    }
  }

  lemma {:induction false} VisitsInNone(history: seq<Entry>)
    ensures VisitsIn(history, []) == 0
    decreases |history|
  {
    if history != [] {
      VisitsInNone(history[..|history| - 1]);
    }
  }

  /** The category result for a history: count at most the number of visits,
      examples the first three listed domains that were visited. */
  lemma CategoryTotalProperties(history: seq<Entry>, category: seq<string>)
    requires Distinct(category)
    ensures 0 <= CategoryTotal(Tally(history), category).count <= |history|
    ensures CategoryTotal(Tally(history), category).count == VisitsIn(history, category)
    ensures CategoryTotal(Tally(history), category).examples
         == Take(Accumulate(Tally(history), category).examples, 3)
    ensures forall d :: d in Accumulate(Tally(history), category).examples <==> d in category && Visits(history, d) > 0
    ensures CategoryTotal(Tally(history), category).count > 0 <==> CategoryTotal(Tally(history), category).examples != []
  {
    TallyCorrect(history);
    AccumulateExamples(Tally(history), category);
    CategoryCountIsVisits(history, category);
  }

  /** No table lists a domain twice. */
  lemma TablesDistinct()
    ensures Distinct(SocialMedia) && Distinct(Procrastination) && Distinct(Shopping)
    ensures Distinct(WeirdContent) && Distinct(ProductivityKillers)
    ensures Distinct(BingeWorthy) && Distinct(DeveloperProcrastination)
  {
    CategoryTablesDistinct();
    OtherTablesDistinct();
  }

  lemma CategoryTablesDistinct()
    ensures Distinct(SocialMedia) && Distinct(Procrastination) && Distinct(Shopping)
  {
  }

  lemma OtherTablesDistinct()
    ensures Distinct(WeirdContent) && Distinct(ProductivityKillers)
    ensures Distinct(BingeWorthy) && Distinct(DeveloperProcrastination)
  {
  }
}
