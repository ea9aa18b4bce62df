/** Analysing one domain through the cache: a hit hands out the shared cached object and marks it, a miss
    fetches, parses, builds and stores a new one. */
module Analysis {
  import opened Tallies
  import opened Ranking
  import opened Text
  import AdsTxt
  import Aggregation
  import Cache

  class DomainAnalysis {
    var domain: string
    var totalAdvertisers: int
    var advertisers: seq<Advertiser>
    var cached: bool

    constructor (domain: string, totalAdvertisers: int, advertisers: seq<Advertiser>)
      ensures Content() == Report(domain, totalAdvertisers, advertisers) && !cached
      ensures this.domain == domain && this.totalAdvertisers == totalAdvertisers && this.advertisers == advertisers
    {
      this.domain, this.totalAdvertisers, this.advertisers := domain, totalAdvertisers, advertisers;
      cached := false;
    }

    /** Everything but the mark. */
    function Content(): Report
      reads this`domain, this`totalAdvertisers, this`advertisers
    {
      Report(domain, totalAdvertisers, advertisers)
    }
  }

  datatype Report = Report(domain: string, totalAdvertisers: int, advertisers: seq<Advertiser>)

  /** What an analysis of these entries reports. */
  ghost function Built(domain: string, entries: seq<AdsTxt.Entry>): Report {
    Report(domain, Total(AdsTxt.Counts(entries)), RankingOf(AdsTxt.Counts(entries)))
  }

  /** What a report on these entries has to say: the domain asked for; each advertiser of the entries once,
      with the number of its entries, most frequent first and then by name; and as the total, the number of
      entries. */
  ghost predicate Reports(r: Report, domain: string, entries: seq<AdsTxt.Entry>) {
    && r.domain == domain
    && r.totalAdvertisers == |entries| == SumCounts(r.advertisers)
    && MostFrequentFirst(r.advertisers)
    && (forall a :: a in r.advertisers ==> a.count == |AdsTxt.OccurrencesOf(a.domain, entries)| >= 1)
    && (forall e :: e in entries ==> exists a :: a in r.advertisers && a.domain == e.exchangeDomain)
  }

  lemma BuiltMeans(domain: string, entries: seq<AdsTxt.Entry>)
    ensures Reports(Built(domain, entries), domain, entries)
    ensures IsRankingOf(Built(domain, entries).advertisers, AdsTxt.Counts(entries))
  {
    AdsTxt.CountsTotal(entries);
    var r, counts := Built(domain, entries), AdsTxt.Counts(entries);
    forall a | a in r.advertisers
      ensures a.count == |AdsTxt.OccurrencesOf(a.domain, entries)| >= 1
    {
      AdsTxt.CountsAreOccurrences(entries, a.domain);
    }
    forall i | 0 <= i < |entries|
      ensures exists a :: a in r.advertisers && a.domain == entries[i].exchangeDomain
    {
      var d := entries[i].exchangeDomain;
      assert AdsTxt.Domains(entries)[i] == d;
      AdsTxt.CountsMeans(entries, d);
      assert Advertiser(d, counts[d]) in r.advertisers;
    }
  }

  datatype Fetched = Content(text: string) | FetchError(cause: string)

  datatype Outcome = Analyzed(analysis: DomainAnalysis) | Failed(error: string)

  function ErrorText(domain: string, message: string, cause: string): string {
    "domain " + domain + ": " + message + ": " + cause
  }

  function CauseOf(reason: AdsTxt.Reason): string {
    "invalid ads.txt format: " +
    match reason
    case EmptyContent => "empty content"
    case _ => "no valid entries found"
  }

  /** What fetching and parsing come to. */
  datatype Reading = Entries(entries: seq<AdsTxt.Entry>) | Unreadable(error: string)

  function Read(domain: string, fetched: Fetched): Reading {
    match fetched
    case FetchError(cause) => Unreadable(ErrorText(domain, "failed to fetch ads.txt", cause))
    case Content(text) =>
      match AdsTxt.Parsed(text)
      case Error(reason) => Unreadable(ErrorText(domain, "failed to parse ads.txt", CauseOf(reason)))
      case Ok(entries) => Entries(entries)
  }

  /** The message of a failure, in full. */
  function Message(domain: string, fetched: Fetched): string {
    match fetched
    case FetchError(cause) => "domain " + domain + ": " + "failed to fetch ads.txt" + ": " + cause
    case Content(text) =>
      "domain " + domain + ": " + "failed to parse ads.txt" + ": "
      + ("invalid ads.txt format: " + if text == "" then "empty content" else "no valid entries found")
  }

  lemma ErrorIsMessage(domain: string, fetched: Fetched)
    requires fetched.Content? ==> AdsTxt.Parsed(fetched.text).Error?
    ensures Read(domain, fetched) == Unreadable(Message(domain, fetched))
  {
    if fetched.Content? {
      AdsTxt.ParsedOkIff(fetched.text, Split(fetched.text, '\n'));
    }
  }

  /** Reading succeeds exactly if something was fetched and a line of it fits, and then gives entries that are
      all in order; an error names the domain, the stage that failed and the cause. */
  lemma ReadMeans(domain: string, fetched: Fetched)
    ensures Read(domain, fetched).Entries? <==> fetched.Content? && AdsTxt.SomeLineFits(Split(fetched.text, '\n'))
    ensures Read(domain, fetched).Entries? ==>
      && Read(domain, fetched).entries == AdsTxt.EntriesOf(fetched.text) != []
      && forall e :: e in Read(domain, fetched).entries ==> AdsTxt.EntryOk(e)
    ensures Read(domain, fetched).Unreadable? ==> Read(domain, fetched).error == Message(domain, fetched)
  {
    if fetched.Content? {
      AdsTxt.ParsedOkIff(fetched.text, Split(fetched.text, '\n'));
      AdsTxt.ParsedEntriesOk(Split(fetched.text, '\n'));
    }
    if fetched.Content? ==> AdsTxt.Parsed(fetched.text).Error? {
      ErrorIsMessage(domain, fetched);
    }
  }

  method FetchAndParse(domain: string, fetched: Fetched) returns (reading: Reading)
    ensures reading == Read(domain, fetched)
    ensures reading.Entries? <==> fetched.Content? && AdsTxt.SomeLineFits(Split(fetched.text, '\n'))
    ensures reading.Entries? ==> forall e :: e in reading.entries ==> AdsTxt.EntryOk(e)
    ensures reading.Unreadable? ==> reading.error == Message(domain, fetched)
  {
    ReadMeans(domain, fetched);
    if fetched.FetchError? {
      return Unreadable(ErrorText(domain, "failed to fetch ads.txt", fetched.cause));
    }
    var parsed := AdsTxt.Parse(fetched.text);
    if parsed.Error? {
      return Unreadable(ErrorText(domain, "failed to parse ads.txt", CauseOf(parsed.reason)));
    }
    return Entries(parsed.value);
  }

  function Key(domain: string): string {
    "domain:" + domain
  }

  lemma KeyInjective(a: string, b: string)
    requires Key(a) == Key(b)
    ensures a == b
  {
    assert Key(a)[7..] == a && Key(b)[7..] == b;
  }

  /** Where an analysis came from, and what it was built to say. */
  datatype Origin = Origin(domain: string, text: string, at: int, report: Report)

  class DomainCache {
    const cache: Cache.MemoryCache<DomainAnalysis>
    const ttl: int

    constructor (cache: Cache.MemoryCache<DomainAnalysis>, ttl: int)
      ensures this.cache == cache && this.ttl == ttl
    {
      this.cache, this.ttl := cache, ttl;
    }

    method Get(domain: string, now: int) returns (found: Cache.Option<DomainAnalysis>)
      requires cache.Valid()
      ensures found == Cache.Find(cache.data, Key(domain), now) == Cache.Find(cache.data, "domain:" + domain, now)
    {
      found := cache.Get(Key(domain), now);
    }

    /** A time to live of zero stands for the default. */
    method Set(domain: string, analysis: DomainAnalysis, ttl: int, now: int) returns (ok: bool)
      requires cache.Valid()
      modifies cache
      ensures cache.Valid()
      ensures var effective := if ttl == 0 then this.ttl else ttl;
        && (ok <==> effective > 0)
        && cache.data == Cache.Apply(old(cache.data), Cache.Set("domain:" + domain, analysis, effective, now))
    {
      var cacheTTL := ttl;
      if cacheTTL == 0 {
        cacheTTL := this.ttl;
      }
      ok := cache.Set(Key(domain), analysis, cacheTTL, now);
    }

    method Delete(domain: string, ghost now: int)
      requires cache.Valid()
      modifies cache
      ensures cache.Valid() && cache.data == old(cache.data) - {"domain:" + domain}
    {
      cache.Delete(Key(domain), now);
    }
  }

  /** What an analysis was built to say is what its text says. */
  ghost predicate Faithful(o: Origin) {
    var reading := Read(o.domain, Content(o.text));
    reading.Entries? && o.report == Built(o.domain, reading.entries)
  }

  ghost predicate AllFaithful(origins: set<Origin>) {
    forall o {:trigger Faithful(o)} :: o in origins ==> Faithful(o)
  }

  /** Where an analysis of these entries comes from. */
  ghost function OriginOf(domain: string, text: string, entries: seq<AdsTxt.Entry>, at: int): Origin {
    Origin(domain, text, at, Built(domain, entries))
  }

  lemma ReadIsFaithful(domain: string, text: string, entries: seq<AdsTxt.Entry>, at: int, others: set<Origin>)
    requires AllFaithful(others) && Read(domain, Content(text)) == Entries(entries)
    ensures AllFaithful(others + {OriginOf(domain, text, entries, at)})
  {
  }

  lemma FaithfulNames(origins: set<Origin>, o: Origin)
    requires AllFaithful(origins) && o in origins
    ensures o.report.domain == o.domain
  {
    assert Faithful(o);
  }

  /** Whatever was built reports the entries of the text it came from. */
  lemma FaithfulReports(origins: set<Origin>, o: Origin)
    requires AllFaithful(origins) && o in origins
    ensures Read(o.domain, Content(o.text)).Entries?
    ensures Reports(o.report, o.domain, AdsTxt.EntriesOf(o.text))
  {
    assert Faithful(o);
    ReadMeans(o.domain, Content(o.text));
    BuiltMeans(o.domain, AdsTxt.EntriesOf(o.text));
  }

  lemma ReadingReports(domain: string, fetched: Fetched)
    ensures Read(domain, fetched).Entries? ==>
      Reports(Built(domain, Read(domain, fetched).entries), domain, Read(domain, fetched).entries)
  {
    if Read(domain, fetched).Entries? {
      BuiltMeans(domain, Read(domain, fetched).entries);
    }
  }

  lemma AddingKeepsFaithful(origins: map<DomainAnalysis, Origin>, a: DomainAnalysis, o: Origin)
    requires AllFaithful(origins.Values + {o})
    ensures AllFaithful(origins[a := o].Values)
  {
  }

  /** A cached analysis was built for the domain of its key and expires the time to live after it was stored. */
  ghost predicate CachedOk(origins: map<DomainAnalysis, Origin>, ttl: int, key: string, e: Cache.Entry<DomainAnalysis>) {
    && e.value in origins && key == Key(origins[e.value].domain)
    && ttl > 0 && e.expiresAt == origins[e.value].at + ttl
  }

  ghost predicate AllCachedOk(origins: map<DomainAnalysis, Origin>, ttl: int, data: Cache.Store<DomainAnalysis>) {
    forall key :: key in data ==> CachedOk(origins, ttl, key, data[key])
  }

  /** Whatever a look-up finds for a domain was built for it, no longer than the time to live ago. */
  lemma FoundIsFresh(origins: map<DomainAnalysis, Origin>, ttl: int, data: Cache.Store<DomainAnalysis>,
                     domain: string, now: int, a: DomainAnalysis)
    requires AllCachedOk(origins, ttl, data) && Cache.Find(data, Key(domain), now) == Cache.Some(a)
    ensures a in origins && origins[a].domain == domain && now <= origins[a].at + ttl
  {
    assert CachedOk(origins, ttl, Key(domain), data[Key(domain)]);
    KeyInjective(origins[a].domain, domain);
  }

  lemma StoringKeepsCachedOk(origins: map<DomainAnalysis, Origin>, ttl: int, data: Cache.Store<DomainAnalysis>,
                             a: DomainAnalysis)
    requires AllCachedOk(origins, ttl, data) && a in origins
    ensures AllCachedOk(origins, ttl, Cache.Apply(data, Cache.Set(Key(origins[a].domain), a, ttl, origins[a].at)))
  {
  }

  /** Clean-up passes and deletions in between do no harm. */
  lemma RemovingKeepsCachedOk(origins: map<DomainAnalysis, Origin>, ttl: int, data: Cache.Store<DomainAnalysis>,
                              op: Cache.Op<DomainAnalysis>)
    requires AllCachedOk(origins, ttl, data) && !op.Set?
    ensures AllCachedOk(origins, ttl, Cache.Apply(data, op))
  {
    var after := Cache.Apply(data, op);
    forall key | key in after
      ensures CachedOk(origins, ttl, key, after[key])
    {
      assert after[key] == data[key];
    }
  }

  class Service {
    const domainCache: DomainCache
    ghost var origins: map<DomainAnalysis, Origin>  // every analysis built so far

    /** Every analysis built still says what it was built to say, as its text does; and whatever is cached
        under a key was built for that key's domain, and expires the time to live after it was stored. */
    ghost predicate Valid()
      reads this, domainCache.cache, origins.Keys
    {
      && domainCache.cache.Valid()
      && (forall a :: a in origins ==> a.Content() == origins[a].report)
      && AllFaithful(origins.Values)
      && AllCachedOk(origins, domainCache.ttl, domainCache.cache.data)
    }

    constructor (domainCache: DomainCache)
      requires domainCache.cache.Valid() && domainCache.cache.data == map[]
      ensures Valid() && this.domainCache == domainCache && origins == map[]
    {
      this.domainCache := domainCache;
      origins := map[];
    }

    method BuildAnalysis(domain: string, entries: seq<AdsTxt.Entry>) returns (analysis: DomainAnalysis)
      ensures fresh(analysis) && analysis.Content() == Built(domain, entries) && !analysis.cached
      ensures analysis.domain == domain && analysis.totalAdvertisers == |entries|
    {
      BuiltMeans(domain, entries);
      var counts := AdsTxt.CountAdvertisers(entries);
      var advertisers, totalCount := Rank(counts);
      analysis := new DomainAnalysis(domain, totalCount, advertisers);
    }

    /** Since the old state, analyses kept their content, and only the one returned may have been marked. */
    twostate predicate OnlyMarks(new r: Outcome)
      reads this, origins.Keys
    {
      forall a :: a in old(origins) ==>
        && a in origins && origins[a] == old(origins[a])
        && a.domain == old(a.domain) && a.totalAdvertisers == old(a.totalAdvertisers) && a.advertisers == old(a.advertisers)
        && (old(a.cached) ==> a.cached)
        && (a.cached == old(a.cached) || r == Analyzed(a))
    }

    /** A new unmarked analysis has been built and, if the time to live allows, stored. */
    twostate predicate Stored(o: Origin, new a: DomainAnalysis)
      reads this, domainCache.cache, a
    {
      && fresh(a) && !a.cached && a.Content() == o.report
      && origins == old(origins)[a := o]
      && domainCache.cache.data ==
        Cache.Apply(old(domainCache.cache.data), Cache.Set(Key(o.domain), a, domainCache.ttl, o.at))
    }

    twostate predicate NothingStored()
      reads this, domainCache.cache
    {
      origins == old(origins) && domainCache.cache.data == old(domainCache.cache.data)
    }

    /** What a miss comes to. */
    twostate predicate Missed(domain: string, fetched: Fetched, at: int, new r: Outcome)
      reads this, domainCache.cache, if r.Analyzed? then {r.analysis} else {}
    {
      match Read(domain, fetched)
      case Entries(entries) => r.Analyzed? && Stored(OriginOf(domain, fetched.text, entries, at), r.analysis)
      case Unreadable(error) => r == Failed(error) && NothingStored()
    }

    /** What a hit comes to: the cached object, built for this domain no longer than the time to live ago. */
    twostate predicate Hit(domain: string, now: int, a: DomainAnalysis)
      reads this, domainCache.cache, a
    {
      && NothingStored() && a.cached
      && a in origins && origins[a].domain == domain && now <= origins[a].at + domainCache.ttl
    }

    method AnalyzeHit(domain: string, now: int, a: DomainAnalysis)
      requires Valid() && Cache.Find(domainCache.cache.data, Key(domain), now) == Cache.Some(a)
      modifies a`cached
      ensures Valid() && Hit(domain, now, a) && OnlyMarks(Analyzed(a))
    {
      FoundIsFresh(origins, domainCache.ttl, domainCache.cache.data, domain, now, a);
      Mark(a);
    }

    method Mark(a: DomainAnalysis)
      requires Valid() && a in origins
      modifies a`cached
      ensures Valid() && a.cached && OnlyMarks(Analyzed(a))
    {
      a.cached := true;
    }

    /** A miss that could be read. */
    method BuildAndStore(domain: string, entries: seq<AdsTxt.Entry>, at: int, ghost o: Origin)
      returns (a: DomainAnalysis)
      requires Valid() && o.domain == domain && o.at == at && o.report == Built(domain, entries)
      requires AllFaithful(origins.Values + {o})
      modifies this, domainCache.cache
      ensures Valid() && Stored(o, a) && OnlyMarks(Analyzed(a))
    {
      a := BuildAnalysis(domain, entries);
      Store(domain, a, at, o);
    }

    method AnalyzeMiss(domain: string, fetched: Fetched, at: int) returns (r: Outcome)
      requires Valid()
      modifies this, domainCache.cache
      ensures Valid() && Missed(domain, fetched, at, r) && OnlyMarks(r)
    {
      var reading := FetchAndParse(domain, fetched);
      if reading.Unreadable? {
        return Failed(reading.error);
      }
      ghost var o := OriginOf(domain, fetched.text, reading.entries, at);
      ReadIsFaithful(domain, fetched.text, reading.entries, at, origins.Values);
      var analysis := BuildAndStore(domain, reading.entries, at, o);
      return Analyzed(analysis);
    }

    method Store(domain: string, a: DomainAnalysis, at: int, ghost o: Origin)
      requires Valid() && o.domain == domain && o.at == at && a.Content() == o.report && a !in origins
      requires AllFaithful(origins.Values + {o})
      modifies this, domainCache.cache
      ensures Valid() && origins == old(origins)[a := o]
      ensures domainCache.cache.data ==
        Cache.Apply(old(domainCache.cache.data), Cache.Set(Key(domain), a, domainCache.ttl, at))
    {
      StoringKeepsCachedOk(origins[a := o], domainCache.ttl, domainCache.cache.data, a);
      AddingKeepsFaithful(origins, a, o);
      origins := origins[a := o];
      var ok := domainCache.Set(domain, a, 0, at);
    }

    /** The cache-aside flow. The clock is read at the look-up and again when storing.
        A hit returns the cached object and sets its mark; nothing else changes. A miss that cannot fetch or
        parse changes nothing. Otherwise a new unmarked object is built, stored if the time to live allows,
        and returned. No analysis ever changes but in its mark, and a mark once set stays. */
    method AnalyzeDomain(domain: string, lookedUpAt: int, fetched: Fetched, storedAt: int) returns (r: Outcome)
      requires Valid()
      modifies this, domainCache.cache, origins.Keys`cached
      ensures Valid() && OnlyMarks(r)
      ensures match old(Cache.Find(domainCache.cache.data, Key(domain), lookedUpAt))
        case Some(a) => r == Analyzed(a) && Hit(domain, lookedUpAt, a)
        case None => Missed(domain, fetched, storedAt, r)
      ensures forall a :: a in old(origins) ==>
        (a.cached <==> old(a.cached) || old(Cache.Find(domainCache.cache.data, Key(domain), lookedUpAt)) == Cache.Some(a))
      ensures r.Analyzed? ==> r.analysis.domain == domain && r.analysis in origins && origins[r.analysis].domain == domain
    {
      var found := domainCache.Get(domain, lookedUpAt);
      if found.Some? {
        AnalyzeHit(domain, lookedUpAt, found.value);
        FaithfulNames(origins.Values, origins[found.value]);
        return Analyzed(found.value);
      }
      r := AnalyzeMiss(domain, fetched, storedAt);
      if r.Analyzed? {
        FaithfulNames(origins.Values, origins[r.analysis]);
      }
    }

    /** Two requests for a domain. If the first misses, can read the file and stores what it built, and the
        second comes while that lives, both return the same object: unmarked when the first returned it,
        marked from the second on, for the first caller too. */
    method AnalyzeTwice(domain: string, firstAt: int, fetched: Fetched, storedAt: int,
                        secondAt: int, refetched: Fetched, restoredAt: int)
      returns (first: Outcome, markedAtFirst: bool, second: Outcome)
      requires Valid()
      modifies this, domainCache.cache, origins.Keys`cached
      ensures Valid()
      ensures
        && old(Cache.Find(domainCache.cache.data, Key(domain), firstAt)) == Cache.None
        && Read(domain, fetched).Entries?
        && domainCache.ttl > 0 && secondAt <= storedAt + domainCache.ttl ==>
          first.Analyzed? && fresh(first.analysis) && second == first && !markedAtFirst && first.analysis.cached
    {
      first := AnalyzeDomain(domain, firstAt, fetched, storedAt);
      markedAtFirst := first.Analyzed? && first.analysis.cached;
      ghost var found := Cache.Find(domainCache.cache.data, Key(domain), secondAt);
      second := AnalyzeDomain(domain, secondAt, refetched, restoredAt);
      assert found.Some? ==> second == Analyzed(found.value) && found.value.cached;
    }

    /** A clean-up pass on the cache between requests. */
    method CleanUp(now: int)
      requires Valid()
      modifies domainCache.cache
      ensures Valid() && origins == old(origins)
      ensures domainCache.cache.data == Cache.Apply(old(domainCache.cache.data), Cache.Cleanup(now))
    {
      RemovingKeepsCachedOk(origins, domainCache.ttl, domainCache.cache.data, Cache.Cleanup(now));
      domainCache.cache.CleanupExpired(now);
    }

    /** A deletion from the domain cache between requests. */
    method Forget(domain: string, ghost now: int)
      requires Valid()
      modifies domainCache.cache
      ensures Valid() && origins == old(origins)
      ensures domainCache.cache.data == old(domainCache.cache.data) - {Key(domain)}
    {
      RemovingKeepsCachedOk(origins, domainCache.ttl, domainCache.cache.data, Cache.Delete(Key(domain), now));
      domainCache.Delete(domain, now);
    }

    /** A batch worker's part: the outcome becomes a result, which is consistent in itself. */
    method AnalyzeForBatch(domain: string, lookedUpAt: int, fetched: Fetched, storedAt: int)
      returns (result: Aggregation.DomainResult)
      requires Valid()
      modifies this, domainCache.cache, origins.Keys`cached
      ensures Valid() && Aggregation.Consistent(result)
      ensures match old(Cache.Find(domainCache.cache.data, Key(domain), lookedUpAt))
        case Some(a) =>
          && result.Success? && result.domain == domain && result.cached
          && result.totalAdvertisers == a.totalAdvertisers && result.advertisers == a.advertisers
        case None =>
          match Read(domain, fetched)
          case Entries(entries) =>
            && result.Success? && result.domain == domain && !result.cached
            && Reports(Report(domain, result.totalAdvertisers, result.advertisers), domain, entries)
          case Unreadable(_) => result == Aggregation.Failure(domain, Message(domain, fetched))
    {
      var r := AnalyzeDomain(domain, lookedUpAt, fetched, storedAt);
      ReadMeans(domain, fetched);
      ReadingReports(domain, fetched);
      match r
      case Failed(error) =>
        result := Aggregation.Failure(domain, error);
      case Analyzed(a) =>
        FaithfulIsConsistent(origins.Values, origins[a]);
        result := Aggregation.Success(domain, a.totalAdvertisers, a.advertisers, a.cached);
    }
  }

  lemma FaithfulIsConsistent(origins: set<Origin>, o: Origin)
    requires AllFaithful(origins) && o in origins
    ensures o.report.totalAdvertisers == SumCounts(o.report.advertisers)
  {
    assert Faithful(o);
    BuiltMeans(o.domain, Read(o.domain, Content(o.text)).entries);
  }
}
