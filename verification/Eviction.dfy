/** When deleting idle client buckets cannot be noticed. The sweep goes by a bucket's last refill,
    and a deleted bucket comes back full; both limiters below answer the same calls, one of them
    ignoring every sweep. A call reads the clock up to three times, and the answer depends on whether
    the readings may differ. */
module Eviction {
  import opened Credits
  import opened Buckets
  import opened Limiters

  datatype Event = Call(ip: string, at: Readings) | Sweep(now: int)

  function Max(a: int, b: int): int {
    if a < b then b else a
  }

  function Began(event: Event): int {
    if event.Call? then event.at.global else event.now
  }

  function Ended(event: Event): int {
    if event.Call? then event.at.client else event.now
  }

  /** The clock never runs back, within a call or between events. */
  predicate Timely(start: int, events: seq<Event>)
    decreases |events|
  {
    events == [] ||
    (&& start <= Began(events[0])
     && (events[0].Call? ==> events[0].at.global <= events[0].at.create <= events[0].at.client)
     && Timely(Ended(events[0]), events[1..]))
  }

  /** All readings of a call agree. */
  predicate AtOnce(event: Event) {
    event.Call? ==> event.at == AllAt(event.at.client)
  }

  predicate AllAtOnce(events: seq<Event>) {
    forall i :: 0 <= i < |events| ==> AtOnce(events[i])
  }

  function After(l: Limiter, event: Event, evicting: bool): Limiter {
    match event
    case Call(ip, at) => Allow(l, ip, at).limiter
    case Sweep(now) => if evicting then Swept(l, now) else l
  }

  function AfterAll(l: Limiter, events: seq<Event>, evicting: bool): Limiter
    decreases |events|
  {
    if events == [] then l else AfterAll(After(l, events[0], evicting), events[1..], evicting)
  }

  /** The answers to the calls among the events, in order. */
  function Answers(l: Limiter, events: seq<Event>, evicting: bool): seq<bool>
    decreases |events|
  {
    if events == [] then []
    else
      (if events[0].Call? then [Allow(l, events[0].ip, events[0].at).allowed] else [])
      + Answers(After(l, events[0], evicting), events[1..], evicting)
  }

  ghost predicate Alike(ipCapacity: int, ipRate: int, start: int, events: seq<Event>) {
    forall globalCapacity, globalRate ::
      var l := NewLimiter(globalCapacity, globalRate, ipCapacity, ipRate, start);
      Answers(l, events, true) == Answers(l, events, false)
  }

  /** No run of calls and sweeps tells the evicting limiter from the keeping one. */
  ghost predicate Invisible(ipCapacity: int, ipRate: int) {
    forall start, events :: Timely(start, events) ==> Alike(ipCapacity, ipRate, start, events)
  }

  /** No run does in which each call reads the same time throughout. */
  ghost predicate InvisibleAtOnce(ipCapacity: int, ipRate: int) {
    forall start, events :: Timely(start, events) && AllAtOnce(events) ==> Alike(ipCapacity, ipRate, start, events)
  }

  /** What an idle bucket is sure to have earned when it is deleted. */
  function IdleCredit(ipRate: int): int {
    Max(0, Credit(ipRate, IDLE_LIMIT + 1))
  }

  /** A capacity is covered exactly if thirty minutes and a nanosecond are worth that many tokens. */
  lemma IdleCreditIff(ipCapacity: int, ipRate: int)
    ensures ipCapacity <= IdleCredit(ipRate)
       <==> ipCapacity <= 0 || ipCapacity * 1_000_000_000 <= 1_800_000_000_001 * ipRate
  {
    if ipRate >= 0 {
      CreditIsFloor(ipRate, IDLE_LIMIT + 1);
    } else {
      CreditSign(ipRate, IDLE_LIMIT + 1);
    }
  }

  // ---- Enough credit: a bisimulation ----

  /** A bucket earning a token every nanosecond is refilled whenever time has passed at all. */
  lemma FastAlwaysEarns(rate: int, elapsed: int)
    requires rate >= NANOS && elapsed >= 1
    ensures Credit(rate, elapsed) >= 1
  {
    AmountSplits(rate, 1, elapsed - 1);
    assert (elapsed - 1) * rate >= 0;
  }

  lemma StaleIsLikeNew(b: Bucket, swept: int, create: int, client: int)
    requires InRange(b) && b.last < swept - IDLE_LIMIT && swept <= create <= client
    requires 1 <= b.capacity <= IdleCredit(b.rate) && (create == client || b.rate >= NANOS)
    ensures Take(b, client) == Take(NewBucket(b.capacity, b.rate, create), client)
  {
    CreditSign(b.rate, IDLE_LIMIT + 1);
    CreditMonotone(b.rate, IDLE_LIMIT + 1, client - b.last);
    if create == client {
      assert Credit(b.rate, 0) == 0;
    } else {
      FastAlwaysEarns(b.rate, client - create);
    }
  }

  lemma PoorNeverGrants(b: Bucket, now: int)
    requires InRange(b) && b.capacity <= 0
    ensures !Take(b, now).granted
  {
  }

  /** The evicting limiter `e` and the keeping one `k` at time `now`. */
  ghost predicate Twins(e: Limiter, k: Limiter, now: int) {
    && WellFormed(e) && WellFormed(k)
    && e.global == k.global && e.ipCapacity == k.ipCapacity && e.ipRate == k.ipRate
    && (k.ipCapacity >= 1 ==>
      && (forall ip :: ip in e.ips ==> ip in k.ips && e.ips[ip] == k.ips[ip])
      && (forall ip :: ip in k.ips && ip !in e.ips ==> k.ips[ip].last < now - IDLE_LIMIT))
  }

  /** The condition under which the two cannot be told apart by an event. */
  predicate Harmless(ipCapacity: int, ipRate: int, event: Event) {
    ipCapacity <= 0 || (ipCapacity <= IdleCredit(ipRate) && (ipRate >= NANOS || AtOnce(event)))
  }

  lemma TwinsStep(e: Limiter, k: Limiter, now: int, event: Event)
    requires Twins(e, k, now) && Timely(now, [event]) && Harmless(k.ipCapacity, k.ipRate, event)
    ensures Twins(After(e, event, true), After(k, event, false), Ended(event))
    ensures event.Call? ==> Allow(e, event.ip, event.at).allowed == Allow(k, event.ip, event.at).allowed
  {
    match event
    case Call(ip, at) =>
      AllowKeeps(e, ip, at);
      AllowKeeps(k, ip, at);
      if k.ipCapacity < 1 {
        PoorNeverGrants(ClientBucket(e, ip, at.create), at.client);
        PoorNeverGrants(ClientBucket(k, ip, at.create), at.client);
      } else if ip in k.ips && ip !in e.ips {
        StaleIsLikeNew(k.ips[ip], now, at.create, at.client);
      }
    case Sweep(t) =>
  }

  lemma {:induction false} TwinsAnswerAlike(e: Limiter, k: Limiter, now: int, events: seq<Event>)
    requires Twins(e, k, now) && Timely(now, events)
    requires forall i :: 0 <= i < |events| ==> Harmless(k.ipCapacity, k.ipRate, events[i])
    ensures Answers(e, events, true) == Answers(k, events, false)
    decreases |events|
  {
    if events != [] {
      assert [events[0]][1..] == [];
      TwinsStep(e, k, now, events[0]);
      TwinsAnswerAlike(After(e, events[0], true), After(k, events[0], false), Ended(events[0]), events[1..]);
    }
  }

  lemma HarmlessIsAlike(ipCapacity: int, ipRate: int, start: int, events: seq<Event>)
    requires Timely(start, events)
    requires forall i :: 0 <= i < |events| ==> Harmless(ipCapacity, ipRate, events[i])
    ensures Alike(ipCapacity, ipRate, start, events)
  {
    forall globalCapacity, globalRate
      ensures var l := NewLimiter(globalCapacity, globalRate, ipCapacity, ipRate, start);
        Answers(l, events, true) == Answers(l, events, false)
    {
      var l := NewLimiter(globalCapacity, globalRate, ipCapacity, ipRate, start);
      NewLimiterWellFormed(globalCapacity, globalRate, ipCapacity, ipRate, start);
      TwinsAnswerAlike(l, l, start, events);
    }
  }

  // ---- Too little credit: a run that tells them apart ----

  function Burst(ip: string, now: int, n: nat): seq<Event> {
    if n == 0 then [] else [Call(ip, AllAt(now))] + Burst(ip, now, n - 1)
  }

  function Granted(answers: seq<bool>): nat {
    if answers == [] then 0 else (if answers[0] then 1 else 0) + Granted(answers[1..])
  }

  lemma {:induction false} GrantedConcat(a: seq<bool>, b: seq<bool>)
    ensures Granted(a + b) == Granted(a) + Granted(b)
  {
    if a == [] {
      assert a + b == b;
    } else {
      assert (a + b)[1..] == a[1..] + b;
      GrantedConcat(a[1..], b);
    }
  }

  lemma {:induction false} AnswersConcat(l: Limiter, first: seq<Event>, second: seq<Event>, evicting: bool)
    ensures Answers(l, first + second, evicting)
         == Answers(l, first, evicting) + Answers(AfterAll(l, first, evicting), second, evicting)
    decreases |first|
  {
    if first == [] {
      assert first + second == second;
    } else {
      assert (first + second)[0] == first[0] && (first + second)[1..] == first[1..] + second;
      AnswersConcat(After(l, first[0], evicting), first[1..], second, evicting);
      assert Answers(l, first, evicting)
          == (if first[0].Call? then [Allow(l, first[0].ip, first[0].at).allowed] else [])
             + Answers(After(l, first[0], evicting), first[1..], evicting);
    }
  }

  lemma {:induction false} TimelyConcat(start: int, first: seq<Event>, second: seq<Event>, middle: int)
    requires Timely(start, first) && Timely(middle, second) && start <= middle
    requires forall i :: 0 <= i < |first| ==> Ended(first[i]) <= middle
    ensures Timely(start, first + second)
    decreases |first|
  {
    if first == [] {
      assert first + second == second;
    } else {
      assert (first + second)[0] == first[0] && (first + second)[1..] == first[1..] + second;
      TimelyConcat(Ended(first[0]), first[1..], second, middle);
    }
  }

  lemma {:induction false} BurstTimely(ip: string, now: int, n: nat)
    ensures Timely(now, Burst(ip, now, n)) && AllAtOnce(Burst(ip, now, n))
    ensures forall i :: 0 <= i < |Burst(ip, now, n)| ==> Ended(Burst(ip, now, n)[i]) == now
  {
    if n > 0 {
      BurstTimely(ip, now, n - 1);
      assert Burst(ip, now, n)[1..] == Burst(ip, now, n - 1);
    }
  }

  lemma BurstStarts(l: Limiter, ip: string, now: int, n: nat, evicting: bool)
    requires n >= 1
    ensures var a := Allow(l, ip, AllAt(now));
      && AfterAll(l, Burst(ip, now, n), evicting) == AfterAll(a.limiter, Burst(ip, now, n - 1), evicting)
      && Granted(Answers(l, Burst(ip, now, n), evicting))
           == (if a.allowed then 1 else 0) + Granted(Answers(a.limiter, Burst(ip, now, n - 1), evicting))
  {
    var a := Allow(l, ip, AllAt(now));
    assert Burst(ip, now, n)[0] == Call(ip, AllAt(now)) && Burst(ip, now, n)[1..] == Burst(ip, now, n - 1);
    var rest := Answers(a.limiter, Burst(ip, now, n - 1), evicting);
    assert Answers(l, Burst(ip, now, n), evicting) == [a.allowed] + rest;
    assert ([a.allowed] + rest)[1..] == rest;
  }

  /** A bucket that has been asked for `n` tokens at one moment, and had them. */
  function Spent(b: Bucket, now: int, n: nat): Bucket {
    if n == 0 then b else Refilled(b, now).(tokens := Refilled(b, now).tokens - n)
  }

  lemma SpendOne(b: Bucket, now: int, n: nat)
    requires n >= 1 && Refilled(b, now).tokens >= n
    ensures Take(b, now) == Taken(Spent(b, now, 1), true)
    ensures Refilled(Spent(b, now, 1), now) == Spent(b, now, 1)
    ensures Spent(Spent(b, now, 1), now, n - 1) == Spent(b, now, n)
  {
    assert Credit(b.rate, 0) == 0;
  }

  /** A burst is served in full while both buckets, once refilled, have tokens. */
  lemma {:induction false} BurstServed(l: Limiter, ip: string, now: int, n: nat, evicting: bool)
    requires n >= 1 && Refilled(l.global, now).tokens >= n && Refilled(ClientBucket(l, ip, now), now).tokens >= n
    ensures AfterAll(l, Burst(ip, now, n), evicting)
         == l.(global := Spent(l.global, now, n), ips := l.ips[ip := Spent(ClientBucket(l, ip, now), now, n)])
    ensures Granted(Answers(l, Burst(ip, now, n), evicting)) == n
    decreases n
  {
    var b := ClientBucket(l, ip, now);
    SpendOne(l.global, now, n);
    SpendOne(b, now, n);
    var next := l.(global := Spent(l.global, now, 1), ips := l.ips[ip := Spent(b, now, 1)]);
    assert Allow(l, ip, AllAt(now)) == Answer(next, true);
    BurstStarts(l, ip, now, n, evicting);
    if n > 1 {
      BurstServed(next, ip, now, n - 1, evicting);
      assert next.ips[ip := Spent(b, now, n)] == l.ips[ip := Spent(b, now, n)];
    }
  }

  /** A burst at one moment gets no more than the bucket holds once refilled. */
  lemma {:induction false} BurstBounded(l: Limiter, ip: string, now: int, n: nat, most: nat, evicting: bool)
    requires ip in l.ips && Refilled(l.ips[ip], now).tokens <= most
    ensures Granted(Answers(l, Burst(ip, now, n), evicting)) <= most
    decreases n
  {
    if n > 0 {
      var b := l.ips[ip];
      var a := Allow(l, ip, AllAt(now));
      assert Credit(b.rate, 0) == 0;
      BurstStarts(l, ip, now, n, evicting);
      BurstBounded(a.limiter, ip, now, n - 1, if a.allowed then most - 1 else most, evicting);
    }
  }

  /** Empty a bucket, sweep just after the idle limit, and ask again for everything it can hold. */
  function Probe(n: nat): seq<Event> {
    Burst("client", 0, n) + ([Sweep(IDLE_LIMIT + 1)] + Burst("client", IDLE_LIMIT + 1, n))
  }

  lemma ProbeTimely(n: nat)
    ensures Timely(0, Probe(n)) && AllAtOnce(Probe(n))
  {
    var later := IDLE_LIMIT + 1;
    BurstTimely("client", 0, n);
    BurstTimely("client", later, n);
    TimelyConcat(0, [Sweep(later)], Burst("client", later, n), later);
    TimelyConcat(0, Burst("client", 0, n), [Sweep(later)] + Burst("client", later, n), 0);
  }

  function Drained(n: nat, ipRate: int): Limiter {
    Limiter(Bucket(2 * n, n, 0, 0), map["client" := Bucket(n, 0, ipRate, 0)], n, ipRate)
  }

  lemma ProbeDrains(n: nat, ipRate: int, evicting: bool)
    requires n >= 1
    ensures Granted(Answers(NewLimiter(2 * n, 0, n, ipRate, 0), Probe(n), evicting))
         == n + Granted(Answers(After(Drained(n, ipRate), Sweep(IDLE_LIMIT + 1), evicting),
                                Burst("client", IDLE_LIMIT + 1, n), evicting))
  {
    var l := NewLimiter(2 * n, 0, n, ipRate, 0);
    var sweep, again := [Sweep(IDLE_LIMIT + 1)], Burst("client", IDLE_LIMIT + 1, n);
    assert Credit(ipRate, 0) == 0;
    BurstServed(l, "client", 0, n, evicting);
    AnswersConcat(l, Burst("client", 0, n), sweep + again, evicting);
    assert AfterAll(l, Burst("client", 0, n), evicting) == Drained(n, ipRate);
    AnswersConcat(Drained(n, ipRate), sweep, again, evicting);
    GrantedConcat(Answers(l, Burst("client", 0, n), evicting), Answers(Drained(n, ipRate), sweep + again, evicting));
    var swept := After(Drained(n, ipRate), sweep[0], evicting);
    assert sweep[1..] == [];
    assert Answers(Drained(n, ipRate), sweep + again, evicting) == Answers(swept, again, evicting);
  }

  lemma EvictionShows(ipCapacity: int, ipRate: int)
    requires ipCapacity > IdleCredit(ipRate)
    ensures !InvisibleAtOnce(ipCapacity, ipRate)
  {
    var n, later := ipCapacity, IDLE_LIMIT + 1;
    assert Credit(ipRate, 0) == 0;
    ProbeTimely(n);
    ProbeDrains(n, ipRate, true);
    ProbeDrains(n, ipRate, false);
    BurstServed(Swept(Drained(n, ipRate), later), "client", later, n, true);
    BurstBounded(Drained(n, ipRate), "client", later, n, IdleCredit(ipRate), false);
    var l := NewLimiter(2 * n, 0, ipCapacity, ipRate, 0);
    assert Answers(l, Probe(n), true) != Answers(l, Probe(n), false);
    assert !Alike(ipCapacity, ipRate, 0, Probe(n));
  }

  /** As long as each call reads one time, deleting idle buckets is invisible exactly when a bucket idle
      past the limit is sure to be full again (or can never grant anything). */
  lemma InvisibleAtOnceIff(ipCapacity: int, ipRate: int)
    ensures InvisibleAtOnce(ipCapacity, ipRate)
       <==> ipCapacity <= 0 || ipCapacity * 1_000_000_000 <= 1_800_000_000_001 * ipRate
  {
    IdleCreditIff(ipCapacity, ipRate);
    if ipCapacity <= IdleCredit(ipRate) {
      forall start, events | Timely(start, events) && AllAtOnce(events)
        ensures Alike(ipCapacity, ipRate, start, events)
      {
        HarmlessIsAlike(ipCapacity, ipRate, start, events);
      }
    } else {
      EvictionShows(ipCapacity, ipRate);
    }
  }

  // ---- A clock that moves between the readings of a call ----

  const LATER := IDLE_LIMIT + 1

  /** A first request, a sweep once its bucket is stale, and a call whose bucket, if it is made anew, is
      made a nanosecond before it is asked. */
  function Prelude(): seq<Event> {
    [Call("client", AllAt(0)), Sweep(LATER), Call("client", Readings(LATER, LATER, LATER + 1))]
  }

  /** Then calls for everything left, and one more after `wait`. */
  function Skew(n: nat, wait: nat): seq<Event>
    requires n >= 1
  {
    (Prelude() + Burst("client", LATER + 1, n - 1)) + [Call("client", AllAt(LATER + wait))]
  }

  /** The least time that earns a token. */
  function Earning(rate: int): nat
    requires rate >= 1
  {
    (NANOS + rate - 1) / rate
  }

  lemma EarningEarns(rate: int)
    requires 1 <= rate < NANOS
    ensures Earning(rate) >= 2 && Credit(rate, Earning(rate)) >= 1 && Credit(rate, Earning(rate) - 1) == 0
  {
    var w := Earning(rate);
    assert NANOS <= w * rate < NANOS + rate;
    AmountSplits(rate, w - 1, 1);
    assert w * rate == (w - 1) * rate + 1 * rate;
    assert (w - 1) * rate >= 0;
  }

  lemma SkewTimely(n: nat, wait: nat)
    requires n >= 1 && wait >= 1
    ensures Timely(0, Skew(n, wait))
  {
    var burst, last := Burst("client", LATER + 1, n - 1), [Call("client", AllAt(LATER + wait))];
    BurstTimely("client", LATER + 1, n - 1);
    assert Prelude()[1..] == [Sweep(LATER), Prelude()[2]] && Prelude()[1..][1..] == [Prelude()[2]];
    assert [Prelude()[2]][1..] == [] && last[1..] == [];
    TimelyConcat(0, Prelude(), burst, LATER + 1);
    var sofar := Prelude() + burst;
    forall i | 0 <= i < |sofar|
      ensures Ended(sofar[i]) <= LATER + 1
    {
      if i >= |Prelude()| {
        assert sofar[i] == burst[i - |Prelude()|];
      }
    }
    TimelyConcat(0, sofar, last, LATER + 1);
  }

  lemma {:induction false} AfterAllConcat(l: Limiter, first: seq<Event>, second: seq<Event>, evicting: bool)
    ensures AfterAll(l, first + second, evicting) == AfterAll(AfterAll(l, first, evicting), second, evicting)
    decreases |first|
  {
    if first == [] {
      assert first + second == second;
    } else {
      assert (first + second)[0] == first[0] && (first + second)[1..] == first[1..] + second;
      AfterAllConcat(After(l, first[0], evicting), first[1..], second, evicting);
    }
  }

  lemma AfterThree(l: Limiter, a: Event, b: Event, c: Event, evicting: bool)
    ensures AfterAll(l, [a, b, c], evicting) == After(After(After(l, a, evicting), b, evicting), c, evicting)
  {
    assert [a, b, c][1..] == [b, c] && [b, c][1..] == [c] && [c][1..] == [];
    var x := After(l, a, evicting);
    var y := After(x, b, evicting);
    assert AfterAll(x, [b, c], evicting) == AfterAll(y, [c], evicting);
    assert AfterAll(y, [c], evicting) == AfterAll(After(y, c, evicting), [], evicting);
  }

  /** One client's bucket, filled by `tokens` at `last`, under `global`. */
  function Lone(n: nat, ipRate: int, global: Bucket, tokens: int, last: int): Limiter {
    Limiter(global, map["client" := Bucket(n, tokens, ipRate, last)], n, ipRate)
  }

  /** The global tier after the two calls of the prelude. */
  function Opened(globalCapacity: int, globalRate: int): Bucket {
    Spent(Spent(NewBucket(globalCapacity, globalRate, 0), 0, 1), LATER, 1)
  }

  /** A global tier that never stands in the way. */
  predicate Generous(globalCapacity: int, globalRate: int, n: nat, wait: nat)
    requires n >= 1
  {
    var early := Opened(globalCapacity, globalRate);
    && globalCapacity >= 1
    && Refilled(Spent(NewBucket(globalCapacity, globalRate, 0), 0, 1), LATER).tokens >= 1
    && Refilled(early, LATER + 1).tokens >= n - 1
    && Refilled(Spent(early, LATER + 1, n - 1), LATER + wait).tokens >= 1
  }

  /** The two limiters agree after the prelude, but for a nanosecond on the client's clock. */
  lemma AfterPrelude(globalCapacity: int, globalRate: int, n: nat, ipRate: int, evicting: bool)
    requires 1 <= n <= IdleCredit(ipRate) && 1 <= ipRate < NANOS
    requires Generous(globalCapacity, globalRate, n, Earning(ipRate))
    ensures AfterAll(NewLimiter(globalCapacity, globalRate, n, ipRate, 0), Prelude(), evicting)
         == Lone(n, ipRate, Opened(globalCapacity, globalRate), n - 1, if evicting then LATER else LATER + 1)
  {
    var l := NewLimiter(globalCapacity, globalRate, n, ipRate, 0);
    var once := Spent(l.global, 0, 1);
    AfterThree(l, Prelude()[0], Prelude()[1], Prelude()[2], evicting);
    assert Credit(ipRate, 0) == 0 && Credit(globalRate, 0) == 0;
    SpendOne(l.global, 0, 1);
    SpendOne(once, LATER, 1);
    assert After(l, Prelude()[0], evicting) == Lone(n, ipRate, once, n - 1, 0);
    if evicting {
      assert Swept(Lone(n, ipRate, once, n - 1, 0), LATER).ips == map[];
      assert Credit(ipRate, 1) == 0;
    } else {
      CreditMonotone(ipRate, LATER, LATER + 1);
      assert Take(Bucket(n, n - 1, ipRate, 0), LATER + 1) == Taken(Bucket(n, n - 1, ipRate, LATER + 1), true);
    }
  }

  lemma LoneBurst(global: Bucket, n: nat, ipRate: int, last: int, evicting: bool)
    requires n >= 1 && 1 <= ipRate < NANOS && last <= LATER + 1 <= last + 1
    requires Refilled(global, LATER + 1).tokens >= n - 1
    ensures AfterAll(Lone(n, ipRate, global, n - 1, last), Burst("client", LATER + 1, n - 1), evicting)
         == Lone(n, ipRate, Spent(global, LATER + 1, n - 1), 0, last)
  {
    var l := Lone(n, ipRate, global, n - 1, last);
    assert Credit(ipRate, 0) == 0 && Credit(ipRate, 1) == 0;
    if n > 1 {
      BurstServed(l, "client", LATER + 1, n - 1, evicting);
      assert l.ips["client" := Bucket(n, 0, ipRate, last)] == map["client" := Bucket(n, 0, ipRate, last)];
    }
  }

  lemma AfterSkew(globalCapacity: int, globalRate: int, n: nat, ipRate: int, evicting: bool)
    requires 1 <= n <= IdleCredit(ipRate) && 1 <= ipRate < NANOS
    requires Generous(globalCapacity, globalRate, n, Earning(ipRate))
    ensures AfterAll(NewLimiter(globalCapacity, globalRate, n, ipRate, 0),
                     Prelude() + Burst("client", LATER + 1, n - 1), evicting)
         == Lone(n, ipRate, Spent(Opened(globalCapacity, globalRate), LATER + 1, n - 1), 0,
                 if evicting then LATER else LATER + 1)
  {
    AfterPrelude(globalCapacity, globalRate, n, ipRate, evicting);
    AfterAllConcat(NewLimiter(globalCapacity, globalRate, n, ipRate, 0), Prelude(),
                   Burst("client", LATER + 1, n - 1), evicting);
    LoneBurst(Opened(globalCapacity, globalRate), n, ipRate, if evicting then LATER else LATER + 1, evicting);
  }

  lemma LastAnswer(global: Bucket, n: nat, ipRate: int, evicting: bool)
    requires n >= 1 && 1 <= ipRate < NANOS && Refilled(global, LATER + Earning(ipRate)).tokens >= 1
    ensures var l := Lone(n, ipRate, global, 0, if evicting then LATER else LATER + 1);
      Answers(l, [Call("client", AllAt(LATER + Earning(ipRate)))], evicting) == [evicting]
  {
    var last := if evicting then LATER else LATER + 1;
    var l, now := Lone(n, ipRate, global, 0, last), LATER + Earning(ipRate);
    EarningEarns(ipRate);
    assert now - last == if evicting then Earning(ipRate) else Earning(ipRate) - 1;
    assert Allow(l, "client", AllAt(now)).allowed == evicting;
    assert [Call("client", AllAt(now))][1..] == [];
  }

  /** At fewer than a token a nanosecond, a client whose bucket was deleted is granted a token it would not
      have got yet. */
  lemma SkewShows(globalCapacity: int, globalRate: int, n: nat, ipRate: int)
    requires 1 <= n <= IdleCredit(ipRate) && 1 <= ipRate < NANOS
    requires Generous(globalCapacity, globalRate, n, Earning(ipRate))
    ensures Timely(0, Skew(n, Earning(ipRate)))
    ensures var l := NewLimiter(globalCapacity, globalRate, n, ipRate, 0);
      Answers(l, Skew(n, Earning(ipRate)), true) != Answers(l, Skew(n, Earning(ipRate)), false)
  {
    var wait := Earning(ipRate);
    EarningEarns(ipRate);
    SkewTimely(n, wait);
    var l := NewLimiter(globalCapacity, globalRate, n, ipRate, 0);
    var sofar, last := Prelude() + Burst("client", LATER + 1, n - 1), [Call("client", AllAt(LATER + wait))];
    AnswersConcat(l, sofar, last, true);
    AnswersConcat(l, sofar, last, false);
    AfterSkew(globalCapacity, globalRate, n, ipRate, true);
    AfterSkew(globalCapacity, globalRate, n, ipRate, false);
    var global := Spent(Opened(globalCapacity, globalRate), LATER + 1, n - 1);
    LastAnswer(global, n, ipRate, true);
    LastAnswer(global, n, ipRate, false);
    DifferInLast(Answers(l, sofar, true), true, Answers(l, sofar, false), false);
  }

  /** Whatever the capacity, as long as idle time fills it: under a large enough global tier this shows. */
  lemma SecondReadingShowsEviction(ipCapacity: int, ipRate: int)
    requires 1 <= ipCapacity <= IdleCredit(ipRate) && ipRate < NANOS
    ensures !Invisible(ipCapacity, ipRate)
  {
    CreditSign(ipRate, IDLE_LIMIT + 1);
    var n, wait := ipCapacity, Earning(ipRate);
    assert Credit(0, 0) == Credit(0, LATER) == Credit(0, LATER + 1) == Credit(0, LATER + wait) == 0;
    assert Generous(n + 2, 0, n, wait);
    SkewShows(n + 2, 0, n, ipRate);
    assert !Alike(ipCapacity, ipRate, 0, Skew(n, wait));
  }

  lemma DifferInLast(a: seq<bool>, x: bool, b: seq<bool>, y: bool)
    requires x != y
    ensures a + [x] != b + [y]
  {
    assert (a + [x])[|a|] == x && (b + [y])[|b|] == y;
  }

  /** Deleting idle buckets is invisible to every run of calls and sweeps exactly when buckets never grant
      anything, or fill up while idle and earn a token every nanosecond. */
  lemma InvisibleIff(ipCapacity: int, ipRate: int)
    ensures Invisible(ipCapacity, ipRate) <==>
      || ipCapacity <= 0
      || (ipRate >= 1_000_000_000 && ipCapacity * 1_000_000_000 <= 1_800_000_000_001 * ipRate)
  {
    IdleCreditIff(ipCapacity, ipRate);
    if ipCapacity <= 0 || (ipRate >= NANOS && ipCapacity <= IdleCredit(ipRate)) {
      forall start, events | Timely(start, events)
        ensures Alike(ipCapacity, ipRate, start, events)
      {
        HarmlessIsAlike(ipCapacity, ipRate, start, events);
      }
    } else if ipCapacity > IdleCredit(ipRate) {
      EvictionShows(ipCapacity, ipRate);
      var start, events :| Timely(start, events) && AllAtOnce(events) && !Alike(ipCapacity, ipRate, start, events);
    } else {
      SecondReadingShowsEviction(ipCapacity, ipRate);
    }
  }

  // ---- As configured ----

  /** The service gives both tiers a capacity of one second's worth. */
  function Configured(globalRate: int, ipRate: int, start: int): Limiter {
    NewLimiter(globalRate, globalRate, ipRate, ipRate, start)
  }

  ghost predicate ConfiguredInvisible(globalRate: int, ipRate: int) {
    forall start, events :: Timely(start, events) ==>
      Answers(Configured(globalRate, ipRate, start), events, true)
        == Answers(Configured(globalRate, ipRate, start), events, false)
  }

  lemma CreditGrowsWithRate(low: nat, high: nat, elapsed: nat)
    requires low <= high
    ensures Credit(low, elapsed) <= Credit(high, elapsed)
  {
    AmountSplits(elapsed, low, high - low);
    assert (high - low) * elapsed >= 0;
    assert elapsed * low == low * elapsed && elapsed * high == high * elapsed;
    assert low + (high - low) == high;
    CreditIsFloor(low, elapsed);
    CreditIsFloor(high, elapsed);
  }

  /** A token or more a second for as long as a bucket may idle is more than one second's worth. */
  lemma IdleFills(rate: int)
    requires rate >= 1
    ensures rate <= IdleCredit(rate)
  {
    assert (IDLE_LIMIT + 1) * rate == (1800 * rate) * NANOS + rate;
  }

  /** After the prelude such a global tier is one token short of full, and has its token a second at least as
      soon as the client. */
  lemma ConfiguredIsGenerous(globalRate: int, ipRate: int)
    requires 1 <= ipRate <= globalRate && ipRate < NANOS
    ensures Generous(globalRate, globalRate, ipRate, Earning(ipRate))
  {
    var g, wait := globalRate, Earning(ipRate);
    IdleFills(g);
    assert Credit(g, 0) == 0;
    assert Spent(NewBucket(g, g, 0), 0, 1) == Bucket(g, g - 1, g, 0);
    assert Refilled(Bucket(g, g - 1, g, 0), LATER) == Bucket(g, g, g, LATER);
    assert Opened(g, g) == Bucket(g, g - 1, g, LATER);
    CreditIsFloor(g, 1);
    EarningEarns(ipRate);
    CreditGrowsWithRate(ipRate, g, wait);
    if ipRate > 1 && Credit(g, 1) > 0 {
      CreditMonotone(g, 0, wait - 1);
    }
  }

  lemma ConfiguredShows(globalRate: int, ipRate: int)
    requires 1 <= ipRate <= globalRate && ipRate < NANOS
    ensures !ConfiguredInvisible(globalRate, ipRate)
  {
    IdleFills(ipRate);
    ConfiguredIsGenerous(globalRate, ipRate);
    SkewShows(globalRate, globalRate, ipRate, ipRate);
    assert Timely(0, Skew(ipRate, Earning(ipRate)));
  }

  /** A global tier without room for a token refuses every call. */
  lemma {:induction false} PoorAnswersAlike(e: Limiter, k: Limiter, events: seq<Event>)
    requires InRange(e.global) && e.global.capacity <= 0 && InRange(k.global) && k.global.capacity <= 0
    ensures Answers(e, events, true) == Answers(k, events, false)
    decreases |events|
  {
    if events != [] {
      if events[0].Call? {
        PoorNeverGrants(e.global, events[0].at.global);
        PoorNeverGrants(k.global, events[0].at.global);
        RangeKept(e.global, events[0].at.global);
        RangeKept(k.global, events[0].at.global);
      }
      PoorAnswersAlike(After(e, events[0], true), After(k, events[0], false), events[1..]);
    }
  }

  /** For the limiters the service builds, but for a global rate below the client's: eviction is invisible
      exactly when clients get nothing, or a token every nanosecond. */
  lemma ConfiguredInvisibleIff(globalRate: int, ipRate: int)
    requires !(1 <= globalRate < ipRate < 1_000_000_000)
    ensures ConfiguredInvisible(globalRate, ipRate) <==> globalRate <= 0 || ipRate <= 0 || ipRate >= 1_000_000_000
  {
    if globalRate >= 1 && 1 <= ipRate < NANOS {
      ConfiguredShows(globalRate, ipRate);
    } else {
      forall start, events | Timely(start, events)
        ensures Answers(Configured(globalRate, ipRate, start), events, true)
             == Answers(Configured(globalRate, ipRate, start), events, false)
      {
        if globalRate <= 0 {
          PoorAnswersAlike(Configured(globalRate, ipRate, start), Configured(globalRate, ipRate, start), events);
        } else {
          SafeRate(ipRate, start, events);
          assert Alike(ipRate, ipRate, start, events);
        }
      }
    }
  }

  lemma SafeRate(ipRate: int, start: int, events: seq<Event>)
    requires ipRate <= 0 || ipRate >= NANOS
    requires Timely(start, events)
    ensures Alike(ipRate, ipRate, start, events)
  {
    InvisibleIff(ipRate, ipRate);
    if ipRate >= 1 {
      IdleFills(ipRate);
    }
  }

  /** While each call reads one time, any per-IP capacity of up to half an hour's worth is safe, and so is the
      service's, one second's worth, under every global tier; with separate readings that is so only at rates
      of zero and less, or a token a nanosecond and more. */
  lemma EvictionAsConfigured(ipCapacity: int, ipRate: int)
    requires ipCapacity <= 1800 * Max(0, ipRate)
    ensures InvisibleAtOnce(ipCapacity, ipRate) && InvisibleAtOnce(ipRate, ipRate)
    ensures Invisible(ipRate, ipRate) <==> ipRate <= 0 || ipRate >= 1_000_000_000
  {
    InvisibleAtOnceIff(ipCapacity, ipRate);
    InvisibleAtOnceIff(ipRate, ipRate);
    InvisibleIff(ipRate, ipRate);
  }
}
