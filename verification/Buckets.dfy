/** One token bucket, as a value: what refilling, taking a token and returning one do,
    and how many tokens any stretch of its life can hand out. */
module Buckets {
  import opened Credits

  datatype Bucket = Bucket(capacity: int, tokens: int, rate: int, last: int)

  function NewBucket(capacity: int, rate: int, now: int): Bucket {
    Bucket(capacity, capacity, rate, now)
  }

  function Min(a: int, b: int): int {
    if a < b then a else b
  }

  /** A refill that earns no whole token leaves the bucket alone, its clock included. */
  function Refilled(b: Bucket, now: int): Bucket {
    var credit := Credit(b.rate, now - b.last);
    if credit > 0 then b.(tokens := Min(b.capacity, b.tokens + credit), last := now) else b
  }

  /** What a call leaves behind. */
  datatype Taken = Taken(bucket: Bucket, granted: bool)

  function Take(b: Bucket, now: int): Taken {
    var filled := Refilled(b, now);
    if filled.tokens > 0 then Taken(filled.(tokens := filled.tokens - 1), true) else Taken(filled, false)
  }

  function Returned(b: Bucket): Bucket {
    if b.tokens < b.capacity then b.(tokens := b.tokens + 1) else b
  }

  /** Between empty and full; a bucket of negative capacity stays exactly full. */
  predicate InRange(b: Bucket) {
    b.tokens <= b.capacity && (0 <= b.tokens || b.tokens == b.capacity)
  }

  lemma RangeKept(b: Bucket, now: int)
    requires InRange(b)
    ensures InRange(Refilled(b, now)) && InRange(Take(b, now).bucket) && InRange(Returned(b))
  {
  }

  /** What a refill does, by the whole tokens the time is worth: nothing for none, else it adds them, as far
      as there is room, and moves the clock. */
  lemma RefillMeans(b: Bucket, now: int, earned: nat)
    requires b.rate >= 0 && b.last <= now && b.tokens <= b.capacity
    requires earned * 1_000_000_000 <= (now - b.last) * b.rate < (earned + 1) * 1_000_000_000
    ensures Refilled(b, now).capacity == b.capacity && Refilled(b, now).rate == b.rate
    ensures earned == 0 ==> Refilled(b, now) == b
    ensures earned > 0 ==> Refilled(b, now).last == now
    ensures earned > 0 && b.tokens + earned <= b.capacity ==> Refilled(b, now).tokens == b.tokens + earned
    ensures b.tokens + earned >= b.capacity ==> Refilled(b, now).tokens == b.capacity
  {
    CreditIff(b.rate, now - b.last, earned);
  }

  /** Time worth less than a token leaves the bucket alone, and so does a clock that has run back. */
  lemma RefillNeedsAToken(b: Bucket, now: int)
    requires (now - b.last) * b.rate < 1_000_000_000
    ensures Refilled(b, now) == b
  {
  }

  /** A returned token goes back if there is room for it, and a full bucket stays full. */
  lemma ReturnMeans(b: Bucket)
    requires b.tokens <= b.capacity
    ensures Returned(b).capacity == b.capacity && Returned(b).rate == b.rate && Returned(b).last == b.last
    ensures b.tokens == b.capacity ==> Returned(b) == b
    ensures b.tokens < b.capacity ==> Returned(b).tokens == b.tokens + 1
  {
  }

  /** Returning the token just taken undoes the call, up to the refill it performed. */
  lemma ReturnUndoesTake(b: Bucket, now: int)
    requires InRange(b) && Take(b, now).granted
    ensures Returned(Take(b, now).bucket) == Refilled(b, now)
  {
  }

  /** The clock is never wound back, and moves only when a token is earned. */
  lemma TakeMovesClock(b: Bucket, now: int)
    requires b.last <= now
    ensures b.last <= Take(b, now).bucket.last <= now
    ensures Take(b, now).bucket.last != b.last ==> Credit(b.rate, now - b.last) > 0
  {
  }

  // ---- A window of a bucket's life ----

  /** Whether time up to `open` has earned more than the bucket can hold. */
  predicate Overflows(b0: Bucket, open: int) {
    b0.tokens + Credit(b0.rate, open - b0.last) > b0.capacity
  }

  /** Where counting starts for a window opening at `open` on bucket `b0`: at its last refill, fractions
      earned so far included, or at the opening if the bucket is due to be full by then. */
  function Origin(b0: Bucket, open: int): int {
    if Overflows(b0, open) then open else b0.last
  }

  function Stock(b0: Bucket, open: int): int {
    if Overflows(b0, open) then b0.capacity else b0.tokens
  }

  /** The account of a window: `b0` is the bucket when the window opens with `held` tokens out,
      `b` the bucket now, and `net` the tokens out now plus those spent inside the window.
      Either the bucket was refilled since the origin and everything is covered by the stock, tokens
      held and credit; or no refill has happened yet and nothing new has been taken. */
  ghost predicate Account(b0: Bucket, open: int, held: int, b: Bucket, net: int) {
    var origin := Origin(b0, open);
    && b0.last <= open && b0.capacity >= 0 && b0.rate >= 0 && InRange(b0)
    && b.capacity == b0.capacity && b.rate == b0.rate && InRange(b)
    && (b.last >= origin ==> b.tokens + net <= Stock(b0, open) + held + Credit(b.rate, b.last - origin))
    && (b.last < origin ==> b.last == b0.last && net <= held)
  }

  lemma AccountOpens(b: Bucket, open: int, held: int)
    requires InRange(b) && b.last <= open && b.capacity >= 0 && b.rate >= 0
    ensures Account(b, open, held, b, held)
  {
    if b.last >= Origin(b, open) {
      CreditIsFloor(b.rate, b.last - Origin(b, open));
    }
  }

  lemma AccountTake(b0: Bucket, open: int, held: int, b: Bucket, net: int, now: int)
    requires Account(b0, open, held, b, net) && open <= now && b.last <= now
    ensures var t := Take(b, now);
      Account(b0, open, held, t.bucket, net + if t.granted then 1 else 0)
  {
    var origin := Origin(b0, open);
    if b.last >= origin {
      CreditIsFloor(b.rate, now - b.last);
      CreditSplits(b.rate, b.last - origin, now - b.last);
    } else {
      FirstRefillEarns(b, open, now);
      CreditIsFloor(b.rate, now - open);
    }
  }

  /** A bucket due to be full when the window opens is refilled by the first call in it. */
  lemma FirstRefillEarns(b: Bucket, open: int, now: int)
    requires b.last <= open <= now && b.rate >= 0 && Credit(b.rate, open - b.last) > 0
    ensures Credit(b.rate, now - b.last) > 0
  {
    CreditMonotone(b.rate, open - b.last, now - b.last);
  }

  lemma AccountReturn(b0: Bucket, open: int, held: int, b: Bucket, net: int)
    requires Account(b0, open, held, b, net)
    ensures Account(b0, open, held, Returned(b), net - 1)
  {
  }

  /** Stock and credit since the origin: what the bucket holds once refilled at the opening, and the
      window's worth rounded up, or exactly its worth if the bucket had just been refilled. */
  lemma CreditSinceOrigin(b0: Bucket, open: int, now: int)
    requires b0.last <= open <= now && b0.rate >= 0 && InRange(b0)
    ensures b0.last <= Origin(b0, open) <= open
    ensures Stock(b0, open) + Credit(b0.rate, now - Origin(b0, open))
         <= Refilled(b0, open).tokens + CeilingCredit(b0.rate, now - open)
    ensures b0.last == open ==>
      Stock(b0, open) == Refilled(b0, open).tokens == b0.tokens && Origin(b0, open) == open
  {
    var head := open - b0.last;
    CreditIsFloor(b0.rate, head);
    CreditIsFloor(b0.rate, now - open);
    CreditAfter(b0.rate, head, now - open);
    assert head + (now - open) == now - b0.last;
    CreditIsCovered(b0.rate, now - open);
  }

  /** Reading the account: what was spent in the window is covered. */
  lemma AccountBounds(b0: Bucket, open: int, held: nat, b: Bucket, net: int, now: int)
    requires Account(b0, open, held, b, net) && open <= now && b.last <= now
    ensures net <= Refilled(b0, open).tokens + held + CeilingCredit(b0.rate, now - open)
    ensures b0.last == open ==> net <= b0.tokens + held + Credit(b0.rate, now - open)
    ensures Refilled(b0, open).tokens <= b0.capacity
  {
    CreditSinceOrigin(b0, open, now);
    CeilingMonotone(b0.rate, 0, now - open);
    RangeKept(b0, open);
    if b.last >= Origin(b0, open) {
      CreditMonotone(b0.rate, b.last - Origin(b0, open), now - Origin(b0, open));
    }
  }

  // ---- Histories of calls on one bucket ----

  predicate Sorted(times: seq<int>) {
    forall i, j :: 0 <= i < j < |times| ==> times[i] <= times[j]
  }

  /** Calls granted at a moment within [from, to], when the bucket serves calls at `times` in turn. */
  function GrantedWithin(b: Bucket, times: seq<int>, from: int, to: int): nat
    decreases |times|
  {
    if times == [] then 0
    else
      var t := Take(b, times[0]);
      (if t.granted && from <= times[0] <= to then 1 else 0) + GrantedWithin(t.bucket, times[1..], from, to)
  }

  lemma {:induction false} GrantedInOpenWindow(b0: Bucket, from: int, to: int, b: Bucket, times: seq<int>, sofar: nat)
    requires Account(b0, from, 0, b, sofar)
    requires from <= to && b.last <= to
    requires Sorted(times) && (times != [] ==> from <= times[0] && b.last <= times[0])
    ensures sofar + GrantedWithin(b, times, from, to) <= b0.capacity + CeilingCredit(b0.rate, to - from)
    decreases |times|
  {
    if times == [] {
      AccountBounds(b0, from, 0, b, sofar, to);
    } else if times[0] > to {
      NoneGrantedAfter(b, times, from, to);
      AccountBounds(b0, from, 0, b, sofar, to);
    } else {
      var t := Take(b, times[0]);
      AccountTake(b0, from, 0, b, sofar, times[0]);
      TakeMovesClock(b, times[0]);
      GrantedInOpenWindow(b0, from, to, t.bucket, times[1..], sofar + if t.granted then 1 else 0);
    }
  }

  lemma {:induction false} NoneGrantedAfter(b: Bucket, times: seq<int>, from: int, to: int)
    requires forall i :: 0 <= i < |times| ==> times[i] > to
    ensures GrantedWithin(b, times, from, to) == 0
    decreases |times|
  {
    if times != [] {
      NoneGrantedAfter(Take(b, times[0]).bucket, times[1..], from, to);
    }
  }

  /** When the first call falls inside the window. Should the last refill do so too, counting starts
      there: the calls all come later, and the window is shorter. */
  lemma GrantedFromFirstCall(b: Bucket, times: seq<int>, from: int, to: int)
    requires InRange(b) && b.capacity >= 0 && b.rate >= 0
    requires Sorted(times) && times != [] && b.last <= times[0] && from <= times[0] <= to
    ensures GrantedWithin(b, times, from, to) <= b.capacity + CeilingCredit(b.rate, to - from)
  {
    var open := if b.last <= from then from else b.last;
    AccountOpens(b, open, 0);
    GrantedInOpenWindow(b, open, to, b, times, 0);
    SameFromLater(b, times, from, open, to);
    CeilingMonotone(b.rate, to - open, to - from);
  }

  /** Sliding window: however long the bucket's history, a window of any length placed anywhere in it
      grants at most the capacity plus the window's worth of tokens, rounded up. */
  lemma {:induction false} SlidingWindow(b: Bucket, times: seq<int>, from: int, to: int)
    requires InRange(b) && b.capacity >= 0 && b.rate >= 0
    requires Sorted(times) && (times != [] ==> b.last <= times[0]) && from <= to
    ensures GrantedWithin(b, times, from, to) <= b.capacity + CeilingCredit(b.rate, to - from)
    decreases |times|
  {
    CeilingMonotone(b.rate, 0, to - from);
    if times != [] {
      if times[0] < from {
        RangeKept(b, times[0]);
        TakeMovesClock(b, times[0]);
        SlidingWindow(Take(b, times[0]).bucket, times[1..], from, to);
      } else if times[0] > to {
        NoneGrantedAfter(b, times, from, to);
      } else {
        GrantedFromFirstCall(b, times, from, to);
      }
    }
  }

  lemma {:induction false} SameFromLater(b: Bucket, times: seq<int>, early: int, late: int, to: int)
    requires early <= late && forall i :: 0 <= i < |times| ==> late <= times[i]
    ensures GrantedWithin(b, times, early, to) == GrantedWithin(b, times, late, to)
    decreases |times|
  {
    if times != [] {
      SameFromLater(Take(b, times[0]).bucket, times[1..], early, late, to);
    }
  }

  /** The rounding up is needed: one nanosecond can hold two grants of a bucket holding one. */
  lemma SlidingWindowIsTight()
    ensures var b := NewBucket(1, 1, 0);
      GrantedWithin(b, [NANOS - 1, NANOS], NANOS - 1, NANOS) == 2 == b.capacity + CeilingCredit(b.rate, 1)
  {
    var b := NewBucket(1, 1, 0);
    var times := [NANOS - 1, NANOS];
    assert times[1..] == [NANOS];
    assert Credit(1, NANOS - 1) == 0 && Credit(1, NANOS) == 1;
    var t := Take(b, NANOS - 1);
    assert t == Taken(Bucket(1, 0, 1, 0), true);
    assert Take(t.bucket, NANOS) == Taken(Bucket(1, 0, 1, NANOS), true);
    assert GrantedWithin(t.bucket, [NANOS], NANOS - 1, NANOS) == 1;
  }

  // ---- Refilling alone ----

  /** Total credit of refilling at each of `times`, how many of the refills earned something,
      and the clock they leave, were the bucket too large to fill up. */
  datatype Earned = Earned(credit: int, earning: nat, last: int)

  function Refills(rate: int, last: int, times: seq<int>): Earned
    decreases |times|
  {
    if times == [] then Earned(0, 0, last)
    else
      var credit := Credit(rate, times[0] - last);
      if credit > 0 then
        var rest := Refills(rate, times[0], times[1..]);
        Earned(credit + rest.credit, 1 + rest.earning, rest.last)
      else Refills(rate, last, times[1..])
  }

  /** However a span is cut up, the refills earn at most what one refill over the span earns, and
      fall short of the exact worth of the time they consumed by less than one token each. */
  lemma {:induction false} RefillsNeverOvershoot(rate: nat, last: int, times: seq<int>, end: int)
    requires Sorted([last] + times + [end])
    ensures var e := Refills(rate, last, times);
      && last <= e.last <= end
      && 0 <= e.credit <= Credit(rate, e.last - last) <= Credit(rate, end - last)
      && (e.last - last) * rate - e.earning * (NANOS - 1) <= e.credit * NANOS <= (e.last - last) * rate
    decreases |times|
  {
    var all := [last] + times + [end];
    assert all[0] == last && all[|times| + 1] == end;
    var e := Refills(rate, last, times);
    if times != [] {
      assert all[1] == times[0];
      var credit := Credit(rate, times[0] - last);
      CreditIsFloor(rate, times[0] - last);
      var origin := if credit > 0 then times[0] else last;
      assert Sorted([origin] + times[1..] + [end]) by {
        var some := [origin] + times[1..] + [end];
        assert forall i :: 1 <= i < |some| ==> some[i] == all[i + 1];
      }
      RefillsNeverOvershoot(rate, origin, times[1..], end);
      var rest := Refills(rate, origin, times[1..]);
      if credit > 0 {
        AmountSplits(rate, times[0] - last, rest.last - times[0]);
        assert (times[0] - last) + (rest.last - times[0]) == rest.last - last;
        CreditSplits(rate, times[0] - last, rest.last - times[0]);
      }
    }
    CreditMonotone(rate, e.last - last, end - last);
    CreditIsFloor(rate, e.last - last);
  }

  /** A bucket that never fills up gains exactly those credits. */
  function RefilledAt(b: Bucket, times: seq<int>): Bucket
    decreases |times|
  {
    if times == [] then b else RefilledAt(Refilled(b, times[0]), times[1..])
  }

  lemma {:induction false} RefillsWithoutCapping(b: Bucket, times: seq<int>)
    requires b.tokens + Refills(b.rate, b.last, times).credit <= b.capacity
    ensures var e := Refills(b.rate, b.last, times);
      RefilledAt(b, times) == b.(tokens := b.tokens + e.credit, last := e.last)
    decreases |times|
  {
    if times != [] {
      CreditsAddUp(b.rate, Refilled(b, times[0]).last, times[1..]);
      RefillsWithoutCapping(Refilled(b, times[0]), times[1..]);
    }
  }

  lemma {:induction false} CreditsAddUp(rate: int, last: int, times: seq<int>)
    ensures Refills(rate, last, times).credit >= 0
    decreases |times|
  {
    if times != [] {
      CreditsAddUp(rate, if Credit(rate, times[0] - last) > 0 then times[0] else last, times[1..]);
    }
  }
}
