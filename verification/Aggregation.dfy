/** Folding the results of a batch, in whatever order they arrive, into one response. */
module Aggregation {
  import opened Tallies
  import opened Ranking
  import opened Sums

  datatype DomainResult =
    | Success(domain: string, totalAdvertisers: int, advertisers: seq<Advertiser>, cached: bool)
    | Failure(domain: string, error: string)

  datatype Summary = Summary(total: int, succeeded: int, failed: int)

  datatype Response = Response(results: seq<DomainResult>, summary: Summary, advertisers: seq<Advertiser>, totalAdvertisers: int)

  /** The aggregator's variables. */
  datatype Progress = Progress(results: seq<DomainResult>, counts: map<string, int>, summary: Summary)

  function Merge(counts: map<string, int>, advertisers: seq<Advertiser>): map<string, int>
    decreases |advertisers|
  {
    if advertisers == [] then counts
    else Merge(Add(counts, advertisers[0].domain, advertisers[0].count), advertisers[1..])
  }

  function Initial(total: int): Progress {
    Progress([], map[], Summary(total, 0, 0))
  }

  function Absorb(p: Progress, r: DomainResult): Progress {
    match r
    case Success(_, _, advertisers, _) =>
      Progress(p.results + [r], Merge(p.counts, advertisers), p.summary.(succeeded := p.summary.succeeded + 1))
    case Failure(_, _) =>
      p.(results := p.results + [r], summary := p.summary.(failed := p.summary.failed + 1))
  }

  function AbsorbAll(total: int, arrivals: seq<DomainResult>): Progress {
    if arrivals == [] then Initial(total)
    else Absorb(AbsorbAll(total, arrivals[..|arrivals| - 1]), arrivals[|arrivals| - 1])
  }

  ghost function Conclude(p: Progress): Response {
    Response(p.results, p.summary, RankingOf(p.counts), Total(p.counts))
  }

  /** Receives until the channel is closed, then ranks. */
  method AggregateResults(arrivals: seq<DomainResult>, totalDomains: int) returns (response: Response)
    ensures response == Conclude(AbsorbAll(totalDomains, arrivals))
  {
    var results: seq<DomainResult> := [];
    var advertiserCounts: map<string, int> := map[];
    var succeeded, failed := 0, 0;
    for i := 0 to |arrivals|
      invariant Progress(results, advertiserCounts, Summary(totalDomains, succeeded, failed)) == AbsorbAll(totalDomains, arrivals[..i])
    {
      var result := arrivals[i];
      assert arrivals[..i + 1][..i] == arrivals[..i];
      results := results + [result];
      if result.Success? {
        succeeded := succeeded + 1;
        var advertisers := result.advertisers;
        ghost var before := advertiserCounts;
        for k := 0 to |advertisers|
          invariant Merge(advertiserCounts, advertisers[k..]) == Merge(before, advertisers)
        {
          assert advertisers[k..][1..] == advertisers[k + 1..];
          var domain := advertisers[k].domain;
          advertiserCounts := advertiserCounts[domain :=
            (if domain in advertiserCounts then advertiserCounts[domain] else 0) + advertisers[k].count];
        }
      } else {
        failed := failed + 1;
      }
    }
    assert arrivals[..|arrivals|] == arrivals;
    var advertisers, totalCount := Rank(advertiserCounts);
    return Response(results, Summary(totalDomains, succeeded, failed), advertisers, totalCount);
  }

  // ---- What the counts mean ----

  function CountIn(domain: string): Advertiser -> int {
    (a: Advertiser) => if a.domain == domain then a.count else 0
  }

  /** What a result contributes to an advertiser's count. */
  function Contribution(domain: string): DomainResult -> int {
    (r: DomainResult) => if r.Success? then Sum(r.advertisers, CountIn(domain)) else 0
  }

  predicate Mentions(r: DomainResult, domain: string) {
    r.Success? && exists a :: a in r.advertisers && a.domain == domain
  }

  function Successes(): DomainResult -> int {
    (r: DomainResult) => if r.Success? then 1 else 0
  }

  function Failures(): DomainResult -> int {
    (r: DomainResult) => if r.Success? then 0 else 1
  }

  function ListedTotal(): DomainResult -> int {
    (r: DomainResult) => if r.Success? then SumCounts(r.advertisers) else 0
  }

  function ClaimedTotal(): DomainResult -> int {
    (r: DomainResult) => if r.Success? then r.totalAdvertisers else 0
  }

  lemma {:induction false} MergeMeans(counts: map<string, int>, advertisers: seq<Advertiser>, domain: string)
    ensures CountOf(Merge(counts, advertisers), domain) == CountOf(counts, domain) + Sum(advertisers, CountIn(domain))
    ensures domain in Merge(counts, advertisers) <==> domain in counts || exists a :: a in advertisers && a.domain == domain
    ensures Total(Merge(counts, advertisers)) == Total(counts) + SumCounts(advertisers)
    decreases |advertisers|
  {
    if advertisers != [] {
      var a := advertisers[0];
      TotalAdd(counts, a.domain, a.count);
      MergeMeans(Add(counts, a.domain, a.count), advertisers[1..], domain);
      assert advertisers == [a] + advertisers[1..];
    }
  }

  predicate MentionedIn(arrivals: seq<DomainResult>, domain: string) {
    exists r :: r in arrivals && Mentions(r, domain)
  }

  lemma {:induction false} CountedIffMentioned(total: int, arrivals: seq<DomainResult>, domain: string)
    ensures domain in AbsorbAll(total, arrivals).counts <==> MentionedIn(arrivals, domain)
  {
    if arrivals != [] {
      var n := |arrivals| - 1;
      var r := arrivals[n];
      CountedIffMentioned(total, arrivals[..n], domain);
      assert arrivals == arrivals[..n] + [r];
      assert MentionedIn(arrivals, domain) <==> MentionedIn(arrivals[..n], domain) || Mentions(r, domain) by {
        assert forall q :: q in arrivals <==> q in arrivals[..n] || q == r;
      }
      if r.Success? {
        MergeMeans(AbsorbAll(total, arrivals[..n]).counts, r.advertisers, domain);
      }
    }
  }

  lemma AbsorbAllSnoc(total: int, prior: seq<DomainResult>, r: DomainResult)
    ensures AbsorbAll(total, prior + [r]) == Absorb(AbsorbAll(total, prior), r)
  {
    assert (prior + [r])[..|prior|] == prior;
  }

  lemma {:induction false} SummaryMeans(total: int, arrivals: seq<DomainResult>)
    ensures AbsorbAll(total, arrivals).results == arrivals
    ensures AbsorbAll(total, arrivals).summary == Summary(total, Sum(arrivals, Successes()), Sum(arrivals, Failures()))
  {
    if arrivals != [] {
      var prior, r := arrivals[..|arrivals| - 1], arrivals[|arrivals| - 1];
      assert arrivals == prior + [r];
      SummaryMeans(total, prior);
      AbsorbAllSnoc(total, prior, r);
      SumSnoc(prior, r, Successes());
      SumSnoc(prior, r, Failures());
    }
  }

  lemma {:induction false} CountsMean(total: int, arrivals: seq<DomainResult>, domain: string)
    ensures CountOf(AbsorbAll(total, arrivals).counts, domain) == Sum(arrivals, Contribution(domain))
    ensures Total(AbsorbAll(total, arrivals).counts) == Sum(arrivals, ListedTotal())
  {
    if arrivals != [] {
      var prior, r := arrivals[..|arrivals| - 1], arrivals[|arrivals| - 1];
      assert arrivals == prior + [r];
      CountsMean(total, prior, domain);
      AbsorbAllSnoc(total, prior, r);
      SumSnoc(prior, r, Contribution(domain));
      SumSnoc(prior, r, ListedTotal());
      if r.Success? {
        MergeMeans(AbsorbAll(total, prior).counts, r.advertisers, domain);
      }
    }
  }

  /** After any arrivals: each count is the sum of that advertiser's counts over the successful results,
      an advertiser is listed if one of them mentions it, the summary counts the results of either kind,
      and the total is the sum of what they list. */
  lemma AbsorbAllMeans(total: int, arrivals: seq<DomainResult>, domain: string)
    ensures var p := AbsorbAll(total, arrivals);
      && p.results == arrivals
      && p.summary == Summary(total, Sum(arrivals, Successes()), Sum(arrivals, Failures()))
      && CountOf(p.counts, domain) == Sum(arrivals, Contribution(domain))
      && (domain in p.counts <==> MentionedIn(arrivals, domain))
      && Total(p.counts) == Sum(arrivals, ListedTotal())
  {
    SummaryMeans(total, arrivals);
    CountsMean(total, arrivals, domain);
    CountedIffMentioned(total, arrivals, domain);
  }

  /** What a list of advertisers says about results: it lists exactly those mentioned, in order, each once
      and with the sum of its counts over the successful results. */
  ghost predicate Adds(advertisers: seq<Advertiser>, results: seq<DomainResult>) {
    && MostFrequentFirst(advertisers)
    && (forall a :: a in advertisers ==> a.count == Sum(results, Contribution(a.domain)))
    && (forall a :: a in advertisers ==> MentionedIn(results, a.domain))
    && (forall d :: MentionedIn(results, d) ==> Advertiser(d, Sum(results, Contribution(d))) in advertisers)
  }

  lemma RankingAdds(total: int, arrivals: seq<DomainResult>)
    ensures Adds(RankingOf(AbsorbAll(total, arrivals).counts), arrivals)
  {
    var counts := AbsorbAll(total, arrivals).counts;
    forall d
      ensures CountOf(counts, d) == Sum(arrivals, Contribution(d))
      ensures d in counts <==> MentionedIn(arrivals, d)
    {
      CountsMean(total, arrivals, d);
      CountedIffMentioned(total, arrivals, d);
    }
    RankingSays(RankingOf(counts), counts, arrivals);
  }

  lemma RankingSays(ranking: seq<Advertiser>, counts: map<string, int>, arrivals: seq<DomainResult>)
    requires IsRankingOf(ranking, counts) && MostFrequentFirst(ranking)
    requires forall d :: CountOf(counts, d) == Sum(arrivals, Contribution(d))
    requires forall d :: d in counts <==> MentionedIn(arrivals, d)
    ensures Adds(ranking, arrivals)
  {
    forall d | MentionedIn(arrivals, d)
      ensures Advertiser(d, Sum(arrivals, Contribution(d))) in ranking
    {
      assert counts[d] == CountOf(counts, d);
    }
    forall a | a in ranking
      ensures a.count == Sum(arrivals, Contribution(a.domain)) && MentionedIn(arrivals, a.domain)
    {
      assert counts[a.domain] == CountOf(counts, a.domain);
    }
  }

  // ---- The order of arrival does not matter ----

  lemma CountsIgnoreOrder(total: int, a: seq<DomainResult>, b: seq<DomainResult>)
    requires multiset(a) == multiset(b)
    ensures AbsorbAll(total, a).counts == AbsorbAll(total, b).counts
  {
    var m, n := AbsorbAll(total, a).counts, AbsorbAll(total, b).counts;
    assert forall r :: r in a <==> r in multiset(a);
    assert forall r :: r in b <==> r in multiset(b);
    forall d
      ensures (d in m <==> d in n) && CountOf(m, d) == CountOf(n, d)
    {
      AbsorbAllMeans(total, a, d);
      AbsorbAllMeans(total, b, d);
      SumPermutation(a, b, Contribution(d));
    }
    assert m.Keys == n.Keys;
    forall d | d in m
      ensures m[d] == n[d]
    {
      assert CountOf(m, d) == CountOf(n, d);
    }
  }

  /** Summary, advertisers and total are the same for every order of arrival; the results are the same up
      to that order. */
  lemma ArrivalOrderIsIrrelevant(total: int, a: seq<DomainResult>, b: seq<DomainResult>)
    requires multiset(a) == multiset(b)
    ensures var x, y := Conclude(AbsorbAll(total, a)), Conclude(AbsorbAll(total, b));
      && x.summary == y.summary && x.advertisers == y.advertisers && x.totalAdvertisers == y.totalAdvertisers
      && multiset(x.results) == multiset(y.results)
  {
    AbsorbAllMeans(total, a, "");
    AbsorbAllMeans(total, b, "");
    SumPermutation(a, b, Successes());
    SumPermutation(a, b, Failures());
    CountsIgnoreOrder(total, a, b);
  }

  /** The positions of the results that succeeded. */
  function SucceededAt(results: seq<DomainResult>): set<nat> {
    set i: nat | i < |results| && results[i].Success?
  }

  lemma SucceededSnoc(prior: seq<DomainResult>, r: DomainResult)
    ensures |SucceededAt(prior + [r])| == |SucceededAt(prior)| + if r.Success? then 1 else 0
  {
    var all := prior + [r];
    assert forall i: nat :: i < |prior| ==> all[i] == prior[i];
    if r.Success? {
      assert SucceededAt(all) == SucceededAt(prior) + {|prior|};
    } else {
      assert SucceededAt(all) == SucceededAt(prior);
    }
  }

  /** The summary counts as succeeded the results that did, and the others as failed. */
  lemma {:induction false} SummaryCounts(arrivals: seq<DomainResult>)
    ensures Sum(arrivals, Successes()) == |SucceededAt(arrivals)|
    ensures Sum(arrivals, Failures()) == |arrivals| - |SucceededAt(arrivals)|
  {
    if arrivals == [] {
      assert SucceededAt(arrivals) == {};
    } else {
      var prior, r := arrivals[..|arrivals| - 1], arrivals[|arrivals| - 1];
      assert arrivals == prior + [r];
      SummaryCounts(prior);
      SucceededSnoc(prior, r);
      SumSnoc(prior, r, Successes());
      SumSnoc(prior, r, Failures());
    }
  }

  // ---- Conservation ----

  /** A result whose total is that of the advertisers it lists. */
  predicate Consistent(r: DomainResult) {
    r.Success? ==> r.totalAdvertisers == SumCounts(r.advertisers)
  }

  lemma {:induction false} SummaryAddsUp(arrivals: seq<DomainResult>)
    ensures Sum(arrivals, Successes()) + Sum(arrivals, Failures()) == |arrivals|
    ensures Sum(arrivals, Successes()) >= 0 && Sum(arrivals, Failures()) >= 0
  {
    if arrivals != [] {
      SummaryAddsUp(arrivals[1..]);
    }
  }

  lemma {:induction false} ClaimsAddUp(arrivals: seq<DomainResult>)
    requires forall r :: r in arrivals ==> Consistent(r)
    ensures Sum(arrivals, ClaimedTotal()) == Sum(arrivals, ListedTotal())
  {
    if arrivals != [] {
      assert arrivals[0] in arrivals;
      ClaimsAddUp(arrivals[1..]);
    }
  }

  /** Nothing is lost or counted twice: successes and failures make up the results, and the batch total is
      the sum of the totals the successful results claim and of the counts it lists itself. */
  lemma BatchConserves(total: int, arrivals: seq<DomainResult>)
    requires forall r :: r in arrivals ==> Consistent(r)
    ensures var x := Conclude(AbsorbAll(total, arrivals));
      && x.summary.succeeded + x.summary.failed == |x.results| == |arrivals|
      && x.totalAdvertisers == Sum(arrivals, ClaimedTotal()) == SumCounts(x.advertisers)
  {
    AbsorbAllMeans(total, arrivals, "");
    SummaryAddsUp(arrivals);
    ClaimsAddUp(arrivals);
  }

  /** The shortcut for an empty request answers what the aggregator would. */
  lemma EmptyBatch()
    ensures Conclude(AbsorbAll(0, [])) == Response([], Summary(0, 0, 0), [], 0)
  {
    assert IsRankingOf([], map[]);
    RankingUnique([], RankingOf(map[]), map[]);
  }
}
