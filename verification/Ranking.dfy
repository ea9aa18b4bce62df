/** Turning counts into a list, most frequent first and equal counts by name: the list is determined by
    the counts, whatever order a map is walked in and whatever algorithm sorts. */
module Ranking {
  import opened Tallies

  datatype Advertiser = Advertiser(domain: string, count: int)

  // ---- Comparing names ----

  /** Byte by byte; a proper prefix comes first. */
  predicate Less(a: string, b: string) {
    b != "" && (a == "" || a[0] < b[0] || (a[0] == b[0] && Less(a[1..], b[1..])))
  }

  lemma {:induction false} LessTransitive(a: string, b: string, c: string)
    requires Less(a, b) && Less(b, c)
    ensures Less(a, c)
  {
    if a != "" && a[0] == b[0] == c[0] {
      LessTransitive(a[1..], b[1..], c[1..]);
    }
  }

  lemma {:induction false} LessTotal(a: string, b: string)
    ensures Less(a, b) || Less(b, a) || a == b
    ensures !(Less(a, b) && Less(b, a)) && !(Less(a, b) && a == b)
  {
    if a != "" && b != "" {
      if a[0] == b[0] {
        LessTotal(a[1..], b[1..]);
        assert a == [a[0]] + a[1..] && b == [b[0]] + b[1..];
      }
    }
  }

  /** Where two names first differ, the first has the smaller character; or it is a proper prefix. */
  ghost predicate Precedes(a: string, b: string) {
    exists k :: 0 <= k <= |a| && k < |b| && DiffersAt(a, b, k)
  }

  ghost predicate DiffersAt(a: string, b: string, k: nat)
    requires k <= |a| && k < |b|
  {
    (forall i :: 0 <= i < k ==> a[i] == b[i]) && (k == |a| || a[k] < b[k])
  }

  lemma {:induction false} LessMeans(a: string, b: string)
    ensures Less(a, b) <==> Precedes(a, b)
  {
    if a != "" && b != "" && a[0] == b[0] {
      LessMeans(a[1..], b[1..]);
      if Precedes(a[1..], b[1..]) {
        var k :| 0 <= k <= |a[1..]| && k < |b[1..]| && DiffersAt(a[1..], b[1..], k);
        assert forall i :: 1 <= i < k + 1 ==> a[i] == a[1..][i - 1] && b[i] == b[1..][i - 1];
        assert DiffersAt(a, b, k + 1);
      }
      if Precedes(a, b) {
        var k :| 0 <= k <= |a| && k < |b| && DiffersAt(a, b, k);
        assert k > 0;
        assert DiffersAt(a[1..], b[1..], k - 1);
      }
    } else if Less(a, b) {
      assert DiffersAt(a, b, 0);
    }
  }

  // ---- Comparing advertisers ----

  /** The comparison handed to the sort. */
  predicate Before(a: Advertiser, b: Advertiser) {
    if a.count == b.count then Less(a.domain, b.domain) else a.count > b.count
  }

  lemma BeforeTransitive(a: Advertiser, b: Advertiser, c: Advertiser)
    requires Before(a, b) && Before(b, c)
    ensures Before(a, c)
  {
    if a.count == b.count == c.count {
      LessTransitive(a.domain, b.domain, c.domain);
    }
  }

  lemma BeforeTotal(a: Advertiser, b: Advertiser)
    ensures Before(a, b) || Before(b, a) || a == b
    ensures !(Before(a, b) && Before(b, a)) && !(Before(a, b) && a == b)
  {
    LessTotal(a.domain, b.domain);
  }

  // ---- Sorted lists ----

  /** What a sort promises, stable or not: nothing stands after something it comes before. */
  ghost predicate Sorted(s: seq<Advertiser>) {
    forall i, j :: 0 <= i < j < |s| ==> !Before(s[j], s[i])
  }

  function Insert(a: Advertiser, s: seq<Advertiser>): seq<Advertiser> {
    if s == [] || Before(a, s[0]) then [a] + s else [s[0]] + Insert(a, s[1..])
  }

  function Sort(s: seq<Advertiser>): seq<Advertiser> {
    if s == [] then [] else Insert(s[0], Sort(s[1..]))
  }

  lemma {:induction false} InsertKeeps(a: Advertiser, s: seq<Advertiser>)
    ensures multiset(Insert(a, s)) == multiset(s) + multiset{a}
  {
    if s != [] {
      assert s == [s[0]] + s[1..];
      if !Before(a, s[0]) {
        InsertKeeps(a, s[1..]);
      }
    }
  }

  lemma {:induction false} InsertSorts(a: Advertiser, s: seq<Advertiser>)
    requires Sorted(s)
    ensures Sorted(Insert(a, s))
  {
    if s != [] {
      var r := Insert(a, s);
      if Before(a, s[0]) {
        forall j | 0 <= j < |s|
          ensures !Before(s[j], a)
        {
          BeforeTotal(a, s[j]);
          if Before(s[j], a) {
            BeforeTransitive(s[j], a, s[0]);
          }
          BeforeTotal(s[j], s[0]);
        }
      } else {
        assert Sorted(s[1..]);
        InsertSorts(a, s[1..]);
        InsertKeeps(a, s[1..]);
        forall j | 1 <= j < |r|
          ensures !Before(r[j], s[0])
        {
          assert r[j] in multiset(Insert(a, s[1..]));
          assert r[j] == a || r[j] in multiset(s[1..]);
        }
      }
    }
  }

  lemma {:induction false} SortSorts(s: seq<Advertiser>)
    ensures Sorted(Sort(s)) && multiset(Sort(s)) == multiset(s)
  {
    if s != [] {
      SortSorts(s[1..]);
      InsertSorts(s[0], Sort(s[1..]));
      InsertKeeps(s[0], Sort(s[1..]));
      assert s == [s[0]] + s[1..];
    }
  }

  lemma SameFirst(a: seq<Advertiser>, b: seq<Advertiser>)
    requires Sorted(a) && Sorted(b) && multiset(a) == multiset(b) && a != [] && b != []
    ensures a[0] == b[0]
  {
    assert a[0] in multiset(b) && b[0] in multiset(a);
    var j :| 0 <= j < |b| && b[j] == a[0];
    var i :| 0 <= i < |a| && a[i] == b[0];
    BeforeTotal(a[0], b[0]);
  }

  /** A sorted list is determined by its elements: every sort gives the same result. */
  lemma {:induction false} SortedUnique(a: seq<Advertiser>, b: seq<Advertiser>)
    requires Sorted(a) && Sorted(b) && multiset(a) == multiset(b)
    ensures a == b
  {
    assert |multiset(a)| == |a| && |multiset(b)| == |b|;
    if a != [] {
      SameFirst(a, b);
      assert a == [a[0]] + a[1..] && b == [b[0]] + b[1..];
      assert multiset(a[1..]) == multiset(a) - multiset{a[0]} == multiset(b[1..]);
      SortedUnique(a[1..], b[1..]);
    }
  }

  // ---- The list of a map ----

  /** One item per name, holding its count, and strictly in order. */
  ghost predicate IsRankingOf(s: seq<Advertiser>, m: map<string, int>) {
    && (forall i, j :: 0 <= i < j < |s| ==> Before(s[i], s[j]))
    && (forall a :: a in s ==> a.domain in m && a.count == m[a.domain])
    && (forall d :: d in m ==> Advertiser(d, m[d]) in s)
  }

  /** Larger counts come first, and equal counts by name. */
  ghost predicate MostFrequentFirst(s: seq<Advertiser>) {
    forall i, j :: 0 <= i < j < |s| ==>
      s[i].count > s[j].count || (s[i].count == s[j].count && Precedes(s[i].domain, s[j].domain))
  }

  lemma RankingOrder(s: seq<Advertiser>, m: map<string, int>)
    requires IsRankingOf(s, m)
    ensures MostFrequentFirst(s)
  {
    forall i, j | 0 <= i < j < |s|
      ensures s[i].count > s[j].count || (s[i].count == s[j].count && Precedes(s[i].domain, s[j].domain))
    {
      assert Before(s[i], s[j]);
      LessMeans(s[i].domain, s[j].domain);
    }
  }

  /** One item per name, in any order. */
  ghost predicate Lists(s: seq<Advertiser>, m: map<string, int>) {
    && (forall i, j :: 0 <= i < j < |s| ==> s[i].domain != s[j].domain)
    && (forall a :: a in s ==> a.domain in m && a.count == m[a.domain])
    && (forall d :: d in m ==> Advertiser(d, m[d]) in s)
  }

  lemma {:induction false} DistinctPermutation(s: seq<Advertiser>, t: seq<Advertiser>)
    requires multiset(s) == multiset(t)
    requires forall i, j :: 0 <= i < j < |s| ==> s[i].domain != s[j].domain
    ensures forall i, j :: 0 <= i < j < |t| ==> t[i] != t[j]
  {
    forall i, j | 0 <= i < j < |t|
      ensures t[i] != t[j]
    {
      if t[i] == t[j] {
        OccursTwice(t, i, j);
        OccursOnce(s, t[i]);
      }
    }
  }

  lemma OccursTwice(t: seq<Advertiser>, i: nat, j: nat)
    requires i < j < |t| && t[i] == t[j]
    ensures multiset(t)[t[i]] >= 2
  {
    assert t == t[..i] + [t[i]] + t[i + 1..j] + [t[j]] + t[j + 1..];
  }

  lemma {:induction false} OccursOnce(s: seq<Advertiser>, a: Advertiser)
    requires forall i, j :: 0 <= i < j < |s| ==> s[i].domain != s[j].domain
    ensures multiset(s)[a] <= 1
  {
    if s != [] {
      assert s == [s[0]] + s[1..];
      OccursOnce(s[1..], a);
      if a == s[0] {
        assert a !in s[1..];
      }
    }
  }

  /** Sorting any listing of a map ranks it. */
  lemma SortedListingRanks(listing: seq<Advertiser>, sorted: seq<Advertiser>, m: map<string, int>)
    requires Lists(listing, m) && Sorted(sorted) && multiset(sorted) == multiset(listing)
    ensures IsRankingOf(sorted, m)
  {
    DistinctPermutation(listing, sorted);
    forall i, j | 0 <= i < j < |sorted|
      ensures Before(sorted[i], sorted[j])
    {
      BeforeTotal(sorted[i], sorted[j]);
    }
    forall a | a in sorted
      ensures a in listing
    {
      assert a in multiset(sorted);
    }
    forall d | d in m
      ensures Advertiser(d, m[d]) in sorted
    {
      assert Advertiser(d, m[d]) in multiset(listing);
    }
  }

  lemma RankingIsSorted(s: seq<Advertiser>, m: map<string, int>)
    requires IsRankingOf(s, m)
    ensures Sorted(s) && forall i, j :: 0 <= i < j < |s| ==> s[i].domain != s[j].domain
  {
    forall i, j | 0 <= i < j < |s|
      ensures !Before(s[j], s[i]) && s[i].domain != s[j].domain
    {
      BeforeTotal(s[i], s[j]);
      assert s[i] in s && s[j] in s;
    }
  }

  lemma {:induction false} DistinctSameElements(s: seq<Advertiser>, t: seq<Advertiser>)
    requires forall i, j :: 0 <= i < j < |s| ==> s[i].domain != s[j].domain
    requires forall i, j :: 0 <= i < j < |t| ==> t[i].domain != t[j].domain
    requires forall a :: a in s <==> a in t
    ensures multiset(s) == multiset(t)
  {
    forall a
      ensures multiset(s)[a] == multiset(t)[a]
    {
      OccursOnce(s, a);
      OccursOnce(t, a);
      assert a in multiset(s) <==> a in s;
      assert a in multiset(t) <==> a in t;
    }
  }

  /** A map has one ranking only. */
  lemma RankingUnique(s: seq<Advertiser>, t: seq<Advertiser>, m: map<string, int>)
    requires IsRankingOf(s, m) && IsRankingOf(t, m)
    ensures s == t
  {
    RankingIsSorted(s, m);
    RankingIsSorted(t, m);
    forall a
      ensures a in s <==> a in t
    {
      if a in s { assert a == Advertiser(a.domain, m[a.domain]); }
      if a in t { assert a == Advertiser(a.domain, m[a.domain]); }
    }
    DistinctSameElements(s, t);
    SortedUnique(s, t);
  }

  function SumCounts(s: seq<Advertiser>): int {
    if s == [] then 0 else s[0].count + SumCounts(s[1..])
  }

  /** The counts of a ranking add up to the map's total. */
  lemma {:induction false} ListingTotals(s: seq<Advertiser>, m: map<string, int>)
    requires Lists(s, m)
    ensures SumCounts(s) == Total(m)
  {
    if s == [] {
      assert m == map[];
    } else {
      var d := s[0].domain;
      assert s[0] in s;
      TotalWithout(m, d);
      forall e | e in m - {d}
        ensures Advertiser(e, (m - {d})[e]) in s[1..]
      {
        assert Advertiser(e, m[e]) in s;
      }
      ListingTotals(s[1..], m - {d});
    }
  }

  lemma ListsExtend(s: seq<Advertiser>, m: map<string, int>, domain: string, count: int)
    requires Lists(s, m) && domain !in m
    ensures Lists(s + [Advertiser(domain, count)], m[domain := count])
  {
    var t, n := s + [Advertiser(domain, count)], m[domain := count];
    forall i, j | 0 <= i < j < |t|
      ensures t[i].domain != t[j].domain
    {
      assert t[i] in s;
    }
    forall d | d in n
      ensures Advertiser(d, n[d]) in t
    {
      if d == domain {
        assert t[|s|] == Advertiser(domain, count);
      } else {
        assert Advertiser(d, m[d]) in s;
      }
    }
  }

  ghost function Listing(m: map<string, int>): (s: seq<Advertiser>)
    ensures Lists(s, m)
    decreases m.Keys
  {
    if m == map[] then []
    else
      var domain :| domain in m;
      ListsExtend(Listing(m - {domain}), m - {domain}, domain, m[domain]);
      assert (m - {domain})[domain := m[domain]] == m;
      Listing(m - {domain}) + [Advertiser(domain, m[domain])]
  }

  /** The ranking of a map. */
  ghost function RankingOf(m: map<string, int>): (s: seq<Advertiser>)
    ensures IsRankingOf(s, m) && SumCounts(s) == Total(m) && MostFrequentFirst(s)
  {
    var s := Sort(Listing(m));
    SortSorts(Listing(m));
    SortedListingRanks(Listing(m), s, m);
    RankingIsSorted(s, m);
    ListingTotals(s, m);
    RankingOrder(s, m);
    s
  }

  /** Walks a map in some order, adding up as it goes. */
  method ListAll(counts: map<string, int>) returns (listing: seq<Advertiser>, totalCount: int)
    ensures Lists(listing, counts) && totalCount == Total(counts)
  {
    listing, totalCount := [], 0;
    var todo := counts;
    ghost var done: map<string, int> := map[];
    while todo != map[]
      invariant todo.Keys !! done.Keys && done + todo == counts
      invariant Lists(listing, done)
      invariant totalCount + Total(todo) == Total(counts)
      decreases todo.Keys
    {
      var domain :| domain in todo;
      TotalWithout(todo, domain);
      ListsExtend(listing, done, domain, counts[domain]);
      listing := listing + [Advertiser(domain, counts[domain])];
      totalCount := totalCount + counts[domain];
      done := done[domain := counts[domain]];
      todo := todo - {domain};
    }
  }

  /** Then sorts. */
  method Rank(counts: map<string, int>) returns (advertisers: seq<Advertiser>, totalCount: int)
    ensures IsRankingOf(advertisers, counts) && advertisers == RankingOf(counts) && MostFrequentFirst(advertisers)
    ensures totalCount == Total(counts)
  {
    var listing;
    listing, totalCount := ListAll(counts);
    advertisers := Sort(listing);
    SortSorts(listing);
    SortedListingRanks(listing, advertisers, counts);
    RankingUnique(advertisers, RankingOf(counts), counts);
  }
}
