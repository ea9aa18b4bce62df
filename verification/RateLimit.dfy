/** The limiter as objects updated in place, one call at a time. Clock readings are arguments. */
module RateLimit {
  import opened Credits
  import opened Buckets
  import Limiters

  class TokenBucket {
    const capacity: int
    var tokens: int
    const refillRate: int
    var lastRefill: int

    ghost function View(): Bucket
      reads this
    {
      Bucket(capacity, tokens, refillRate, lastRefill)
    }

    constructor (capacity: int, refillRate: int, now: int)
      ensures View() == NewBucket(capacity, refillRate, now)
      ensures this.capacity == tokens == capacity && this.refillRate == refillRate && lastRefill == now
    {
      this.capacity, this.refillRate := capacity, refillRate;
      tokens := capacity;
      lastRefill := now;
    }

    method Refill(now: int)
      modifies this
      ensures View() == Refilled(old(View()), now)
    {
      var elapsed := now - lastRefill;
      var tokensToAdd := Credit(refillRate, elapsed);
      if tokensToAdd > 0 {
        tokens := Min(capacity, tokens + tokensToAdd);
        lastRefill := now;
      }
    }

    method Allow(now: int) returns (allowed: bool)
      modifies this
      ensures Taken(View(), allowed) == Take(old(View()), now)
    {
      Refill(now);
      if tokens > 0 {
        tokens := tokens - 1;
        return true;
      }
      return false;
    }

    method Return()
      modifies this
      ensures View() == Returned(old(View()))
    {
      if tokens < capacity {
        tokens := tokens + 1;
      }
    }
  }

  class TwoTierRateLimiter {
    const globalBucket: TokenBucket
    var ipBuckets: map<string, TokenBucket>
    const perIPCapacity: int
    const perIPRate: int
    ghost var Clients: map<string, Bucket>  // what the client buckets hold
    ghost var Owner: map<TokenBucket, string>  // whom each client bucket was made for

    /** No bucket serves two clients, or a client and the global tier. */
    ghost predicate Valid()
      reads this, Owner.Keys
    {
      && globalBucket !in Owner
      && Clients.Keys == ipBuckets.Keys
      && forall ip :: ip in ipBuckets ==>
        ipBuckets[ip] in Owner && Owner[ipBuckets[ip]] == ip && ipBuckets[ip].View() == Clients[ip]
    }

    ghost function View(): Limiters.Limiter
      reads this, globalBucket
    {
      Limiters.Limiter(globalBucket.View(), Clients, perIPCapacity, perIPRate)
    }

    constructor (globalCapacity: int, globalRate: int, perIPCapacity: int, perIPRate: int, now: int)
      ensures Valid() && fresh(globalBucket) && Owner == map[]
      ensures View() == Limiters.NewLimiter(globalCapacity, globalRate, perIPCapacity, perIPRate, now)
      ensures globalBucket.capacity == globalBucket.tokens == globalCapacity && globalBucket.refillRate == globalRate
      ensures this.perIPCapacity == perIPCapacity && this.perIPRate == perIPRate && ipBuckets == map[]
    {
      globalBucket := new TokenBucket(globalCapacity, globalRate, now);
      ipBuckets, Clients, Owner := map[], map[], map[];
      this.perIPCapacity, this.perIPRate := perIPCapacity, perIPRate;
    }

    method GetOrCreateIPBucket(clientIP: string, now: int) returns (bucket: TokenBucket)
      requires Valid()
      modifies this
      ensures Valid() && fresh(Owner.Keys - old(Owner.Keys)) && clientIP in ipBuckets && ipBuckets[clientIP] == bucket
      ensures bucket.View() == Limiters.ClientBucket(old(View()), clientIP, now)
      ensures Clients == old(Clients)[clientIP := bucket.View()]
      ensures if clientIP in old(ipBuckets) then ipBuckets == old(ipBuckets)
              else fresh(bucket) && ipBuckets == old(ipBuckets)[clientIP := bucket]
    {
      if clientIP in ipBuckets {
        return ipBuckets[clientIP];
      }
      bucket := new TokenBucket(perIPCapacity, perIPRate, now);
      ipBuckets := ipBuckets[clientIP := bucket];
      Clients := Clients[clientIP := bucket.View()];
      Owner := Owner[bucket := clientIP];
    }

    /** The client's bucket is asked; in the heap no other bucket changes. */
    method Ask(clientIP: string, bucket: TokenBucket, now: int) returns (allowed: bool)
      requires Valid() && clientIP in ipBuckets && ipBuckets[clientIP] == bucket
      modifies this`Clients, bucket
      ensures Valid()
      ensures var t := Take(old(bucket.View()), now);
        allowed == t.granted && Clients == old(Clients)[clientIP := t.bucket]
    {
      assert forall ip :: ip in ipBuckets && ip != clientIP ==> ipBuckets[ip] != bucket;
      allowed := bucket.Allow(now);
      Clients := Clients[clientIP := bucket.View()];
    }

    /** The client tier of one call: the client's bucket serves it, the global bucket is not involved. */
    method AllowClient(clientIP: string, create: int, now: int) returns (allowed: bool)
      requires Valid()
      modifies this, Owner.Keys
      ensures Valid() && fresh(Owner.Keys - old(Owner.Keys))
      ensures var t := Take(Limiters.ClientBucket(old(View()), clientIP, create), now);
        allowed == t.granted && Clients == old(Clients)[clientIP := t.bucket]
    {
      var ipBucket := GetOrCreateIPBucket(clientIP, create);
      allowed := Ask(clientIP, ipBucket, now);
      assert old(Clients)[clientIP := Limiters.ClientBucket(old(View()), clientIP, create)][clientIP := Clients[clientIP]]
          == old(Clients)[clientIP := Clients[clientIP]];
    }

    method Allow(clientIP: string, at: Limiters.Readings) returns (allowed: bool)
      requires Valid()
      modifies this, globalBucket, Owner.Keys
      ensures Valid() && fresh(Owner.Keys - old(Owner.Keys))
      ensures Limiters.Answer(View(), allowed) == Limiters.Allow(old(View()), clientIP, at)
    {
      var granted := globalBucket.Allow(at.global);
      if !granted {
        return false;
      }
      allowed := AllowClient(clientIP, at.create, at.client);
      if !allowed {
        globalBucket.Return();
      }
    }

    /** Polls until let through. The context, or the choice between it and the ticker, leaves time for the
        polls `at`. */
    method Wait(clientIP: string, at: seq<Limiters.Readings>) returns (served: bool, polls: nat)
      requires Valid()
      modifies this, globalBucket, Owner.Keys
      ensures Valid() && fresh(Owner.Keys - old(Owner.Keys))
      ensures Limiters.WaitOutcome(old(View()), clientIP, at, served, polls)
      ensures View() == Limiters.Polled(old(View()), clientIP, at, polls)
    {
      ghost var before := View();
      polls, served := 0, false;
      while !served && polls < |at|
        invariant polls <= |at| && Valid() && fresh(Owner.Keys - old(Owner.Keys))
        invariant View() == Limiters.Polled(before, clientIP, at, polls)
        invariant served ==> polls >= 1 && Limiters.PollAllowed(before, clientIP, at, polls)
        invariant Limiters.AllRefused(before, clientIP, at, if served then polls - 1 else polls)
        decreases !served, |at| - polls
      {
        polls := polls + 1;
        served := Allow(clientIP, at[polls - 1]);
      }
    }

    /** Visits every client bucket and deletes those last refilled before the cutoff. */
    method DropStale(cutoff: int)
      modifies this`ipBuckets
      ensures forall ip :: ip in ipBuckets <==> ip in old(ipBuckets) && !(old(ipBuckets)[ip].lastRefill < cutoff)
      ensures forall ip :: ip in ipBuckets ==> ipBuckets[ip] == old(ipBuckets)[ip]
    {
      var keys := ipBuckets.Keys;
      while keys != {}
        invariant keys <= old(ipBuckets).Keys
        invariant forall ip :: ip in ipBuckets ==> ip in old(ipBuckets) && ipBuckets[ip] == old(ipBuckets)[ip]
        invariant forall ip :: ip in old(ipBuckets) ==>
          (ip in ipBuckets <==> ip in keys || !(old(ipBuckets)[ip].lastRefill < cutoff))
        decreases keys
      {
        var key :| key in keys;
        keys := keys - {key};
        var lastActivity := ipBuckets[key].lastRefill;
        if lastActivity < cutoff {
          ipBuckets := ipBuckets - {key};
        }
      }
    }

    /** One pass of the cleanup routine. */
    method CleanupIPBuckets(now: int)
      requires Valid()
      modifies this
      ensures Valid() && Owner == old(Owner)
      ensures View() == Limiters.Swept(old(View()), now)
      ensures forall ip :: ip in ipBuckets <==>
        ip in old(ipBuckets) && now - old(ipBuckets)[ip].lastRefill <= 1_800_000_000_000
      ensures forall ip :: ip in ipBuckets ==> ipBuckets[ip] == old(ipBuckets)[ip]
    {
      DropStale(now - Limiters.IDLE_LIMIT);
      Clients := map ip | ip in ipBuckets :: Clients[ip];
    }
  }
}
