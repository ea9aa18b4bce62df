/** The two-tier limiter as a value: one call, one sweep of idle client buckets, and repeated polling. */
module Limiters {
  import opened Credits
  import opened Buckets

  const IDLE_LIMIT := 1800 * NANOS  // 30 minutes
  const TICK := NANOS / 10          // 100 milliseconds

  datatype Limiter = Limiter(global: Bucket, ips: map<string, Bucket>, ipCapacity: int, ipRate: int)

  /** The clock readings of one call: global tier, creation of a client bucket, client tier. */
  datatype Readings = Readings(global: int, create: int, client: int)

  function AllAt(now: int): Readings {
    Readings(now, now, now)
  }

  function NewLimiter(globalCapacity: int, globalRate: int, ipCapacity: int, ipRate: int, now: int): Limiter {
    Limiter(NewBucket(globalCapacity, globalRate, now), map[], ipCapacity, ipRate)
  }

  function ClientBucket(l: Limiter, ip: string, now: int): Bucket {
    if ip in l.ips then l.ips[ip] else NewBucket(l.ipCapacity, l.ipRate, now)
  }

  datatype Answer = Answer(limiter: Limiter, allowed: bool)

  /** Global tier first; then the client's bucket, made on first sight; a refusal there returns the global token. */
  function Allow(l: Limiter, ip: string, at: Readings): Answer {
    var g := Take(l.global, at.global);
    if !g.granted then Answer(l.(global := g.bucket), false)
    else
      var c := Take(ClientBucket(l, ip, at.create), at.client);
      Answer(l.(global := if c.granted then g.bucket else Returned(g.bucket), ips := l.ips[ip := c.bucket]), c.granted)
  }

  /** Drops the client buckets whose last refill lies more than the idle limit back. */
  function Swept(l: Limiter, now: int): Limiter {
    l.(ips := map ip | ip in l.ips && !(l.ips[ip].last < now - IDLE_LIMIT) :: l.ips[ip])
  }

  /** A sweep keeps exactly the client buckets last refilled within the past thirty minutes. */
  lemma SweptMeans(l: Limiter, ip: string, now: int)
    ensures ip in Swept(l, now).ips <==> ip in l.ips && now - l.ips[ip].last <= 1_800_000_000_000
    ensures ip in Swept(l, now).ips ==> Swept(l, now).ips[ip] == l.ips[ip]
    ensures Swept(l, now) == l.(ips := Swept(l, now).ips)
  {
  }

  ghost predicate WellFormed(l: Limiter) {
    && InRange(l.global)
    && forall ip :: ip in l.ips ==> InRange(l.ips[ip]) && l.ips[ip].capacity == l.ipCapacity && l.ips[ip].rate == l.ipRate
  }

  lemma NewLimiterWellFormed(globalCapacity: int, globalRate: int, ipCapacity: int, ipRate: int, now: int)
    ensures WellFormed(NewLimiter(globalCapacity, globalRate, ipCapacity, ipRate, now))
  {
  }

  /** What a call may and may not touch: every bucket stays in range, other clients' buckets are
      untouched, and a refused call costs the global tier nothing but its refill. */
  lemma AllowKeeps(l: Limiter, ip: string, at: Readings)
    requires WellFormed(l)
    ensures var a := Allow(l, ip, at);
      && WellFormed(a.limiter)
      && a.limiter.ips - {ip} == l.ips - {ip}
      && (!a.allowed ==> a.limiter.global == Refilled(l.global, at.global))
      && (a.allowed ==> a.limiter.global.tokens == Refilled(l.global, at.global).tokens - 1)
      && (a.allowed <==> Take(l.global, at.global).granted && Take(ClientBucket(l, ip, at.create), at.client).granted)
      && (!Take(l.global, at.global).granted ==> a.limiter.ips == l.ips)
      && (Take(l.global, at.global).granted ==>
        && ip in a.limiter.ips
        && a.limiter.ips[ip].tokens
             == Refilled(ClientBucket(l, ip, at.create), at.client).tokens - (if a.allowed then 1 else 0)
        && a.limiter.ips[ip].last == Refilled(ClientBucket(l, ip, at.create), at.client).last)
  {
    RangeKept(l.global, at.global);
    RangeKept(Take(l.global, at.global).bucket, at.global);
    RangeKept(ClientBucket(l, ip, at.create), at.client);
    if Take(l.global, at.global).granted {
      ReturnUndoesTake(l.global, at.global);
    }
  }

  // ---- Polling ----

  /** The limiter after the first `polls` of the polls `at`, all by `ip`, and nobody else calling. */
  function Polled(l: Limiter, ip: string, at: seq<Readings>, polls: nat): Limiter
    requires polls <= |at|
  {
    if polls == 0 then l else Allow(Polled(l, ip, at, polls - 1), ip, at[polls - 1]).limiter
  }

  /** Whether poll number `k` (counting from 1) is allowed. */
  predicate PollAllowed(l: Limiter, ip: string, at: seq<Readings>, k: nat)
    requires 1 <= k <= |at|
  {
    Allow(Polled(l, ip, at, k - 1), ip, at[k - 1]).allowed
  }

  /** Polls 1 to `polls` are all refused. */
  predicate AllRefused(l: Limiter, ip: string, at: seq<Readings>, polls: nat)
    requires polls <= |at|
  {
    polls == 0 || (AllRefused(l, ip, at, polls - 1) && !PollAllowed(l, ip, at, polls))
  }

  lemma {:induction false} FewerRefused(l: Limiter, ip: string, at: seq<Readings>, polls: nat, fewer: nat)
    requires polls <= |at| && AllRefused(l, ip, at, polls) && fewer <= polls
    ensures AllRefused(l, ip, at, fewer)
  {
    if fewer < polls {
      FewerRefused(l, ip, at, polls - 1, fewer);
    }
  }

  /** Poll number `k` reads the clock no earlier than `k` ticks after `start`; how much later is open. */
  predicate OnTicks(at: seq<Readings>, start: int) {
    forall k :: 0 <= k < |at| ==> start + (k + 1) * TICK <= at[k].global <= at[k].create <= at[k].client
  }

  /** A bucket that has a token already, or has been earning one since `start`. */
  predicate Prompt(b: Bucket, start: int) {
    InRange(b) && b.capacity >= 1 && b.rate >= 1 && (b.tokens >= 1 || b.last <= start)
  }

  lemma RefusalKeepsPrompt(b: Bucket, start: int, now: int)
    requires Prompt(b, start)
    ensures Take(b, now).granted ==> Prompt(Refilled(b, now), start)
    ensures !Take(b, now).granted ==> Take(b, now).bucket == b
  {
  }

  lemma PromptGrants(b: Bucket, start: int, k: nat, now: int)
    requires Prompt(b, start) && k * b.rate >= 10 && now >= start + k * TICK
    ensures Take(b, now).granted
  {
    if b.tokens < 1 {
      AmountSplits(b.rate, k * TICK, now - b.last - k * TICK);
      assert (now - b.last - k * TICK) * b.rate >= 0;
      assert k * TICK * b.rate == (k * b.rate) * TICK;
      assert (k * b.rate) * TICK >= 10 * TICK;
    }
  }

  ghost predicate PromptFor(l: Limiter, ip: string, start: int) {
    && WellFormed(l) && Prompt(l.global, start)
    && l.ipCapacity >= 1 && l.ipRate >= 1
    && (ip in l.ips ==> Prompt(l.ips[ip], start))
  }

  lemma PollKeepsPrompt(l: Limiter, ip: string, start: int, at: Readings)
    requires PromptFor(l, ip, start) && !Allow(l, ip, at).allowed
    ensures PromptFor(Allow(l, ip, at).limiter, ip, start)
  {
    AllowKeeps(l, ip, at);
    RefusalKeepsPrompt(l.global, start, at.global);
    if ip in l.ips {
      RefusalKeepsPrompt(l.ips[ip], start, at.client);
    }
  }

  lemma {:induction false} RefusedPollsKeepPrompt(l: Limiter, ip: string, start: int, at: seq<Readings>, polls: nat)
    requires PromptFor(l, ip, start) && polls <= |at|
    requires AllRefused(l, ip, at, polls)
    ensures var p := Polled(l, ip, at, polls);
      PromptFor(p, ip, start) && p.global.rate == l.global.rate && p.ipRate == l.ipRate
  {
    if polls > 0 {
      RefusedPollsKeepPrompt(l, ip, start, at, polls - 1);
      assert !PollAllowed(l, ip, at, polls);
      PollKeepsPrompt(Polled(l, ip, at, polls - 1), ip, start, at[polls - 1]);
    }
  }

  /** No starvation: with room for a token and a positive rate in both tiers, an uncontested caller is
      let through by the first tick at which each tier has had time to earn one token, whatever both
      held before and however late the polls read the clock. A refused poll never costs it anything:
      refills that earn nothing do not move the clock, and the global token comes back. */
  lemma WaitIsPrompt(l: Limiter, ip: string, start: int, at: seq<Readings>, k: nat)
    requires PromptFor(l, ip, start) && OnTicks(at, start)
    requires 1 <= k <= |at| && k * l.global.rate >= 10 && k * l.ipRate >= 10
    ensures !AllRefused(l, ip, at, k)
  {
    if AllRefused(l, ip, at, k - 1) {
      RefusedPollsKeepPrompt(l, ip, start, at, k - 1);
      var p := Polled(l, ip, at, k - 1);
      PromptGrants(p.global, start, k, at[k - 1].global);
      if ip in p.ips {
        PromptGrants(p.ips[ip], start, k, at[k - 1].client);
      }
      assert PollAllowed(l, ip, at, k);
    }
  }

  /** What waiting comes to when the context lasts for the polls `at`: the first poll that is allowed ends it. */
  predicate WaitOutcome(l: Limiter, ip: string, at: seq<Readings>, served: bool, polls: nat) {
    polls <= |at| &&
    if served then 1 <= polls && PollAllowed(l, ip, at, polls) && AllRefused(l, ip, at, polls - 1)
    else polls == |at| && AllRefused(l, ip, at, polls)
  }

  lemma OnTicksIff(at: seq<Readings>, start: int)
    ensures OnTicks(at, start) <==> forall k :: 0 <= k < |at| ==>
      start + (k + 1) * 100_000_000 <= at[k].global <= at[k].create <= at[k].client
  {
  }

  /** Ten ticks of a hundred milliseconds suffice for every admissible configuration. */
  lemma WaitWithinTenPolls(l: Limiter, ip: string, start: int, at: seq<Readings>, served: bool, polls: nat)
    requires PromptFor(l, ip, start) && WaitOutcome(l, ip, at, served, polls)
    requires forall k :: 0 <= k < |at| ==>
      start + (k + 1) * 100_000_000 <= at[k].global <= at[k].create <= at[k].client
    requires |at| >= 10
    ensures served && polls <= 10
  {
    OnTicksIff(at, start);
    var refused := if served then polls - 1 else polls;
    if refused >= 10 {
      FewerRefused(l, ip, at, refused, 10);
      WaitIsPrompt(l, ip, start, at, 10);
    }
  }

  /** Polls exactly on the ticks after `start`. */
  function ExactTicks(start: int, n: nat): seq<Readings> {
    seq(n, k requires 0 <= k < n => AllAt(start + (k + 1) * TICK))
  }

  lemma ExactTicksOnTicks(start: int, n: nat)
    ensures OnTicks(ExactTicks(start, n), start)
  {
  }

  /** An empty global bucket earning one token a second. */
  const EMPTY := Limiter(Bucket(1, 0, 1, 0), map[], 1, 1)

  lemma EmptyRefuses(j: nat)
    requires j < 10
    ensures Allow(EMPTY, "client", AllAt(j * TICK)) == Answer(EMPTY, false)
  {
    assert Credit(1, j * TICK) == 0;
  }

  /** And some need all ten, polled exactly on the ticks. */
  lemma {:induction false} TenPollsCanBeNeeded(j: nat)
    requires 1 <= j < 10
    ensures var at := ExactTicks(0, 10);
      && PromptFor(EMPTY, "client", 0) && OnTicks(at, 0)
      && Polled(EMPTY, "client", at, j) == EMPTY && !PollAllowed(EMPTY, "client", at, j)
  {
    if j > 1 {
      TenPollsCanBeNeeded(j - 1);
    }
    assert ExactTicks(0, 10)[j - 1] == AllAt(j * TICK);
    EmptyRefuses(j);
    ExactTicksOnTicks(0, 10);
  }
}
