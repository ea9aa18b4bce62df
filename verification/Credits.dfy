/** How many whole tokens a stretch of time is worth.
    Time is counted in nanoseconds. The limiter multiplies elapsed seconds by the rate and
    converts the product to an integer, dropping the fraction; here the product is exact. */
module Credits {

  const NANOS := 1_000_000_000

  /** Integer conversion rounds toward zero, also for a negative product. */
  function TowardZero(amount: int): int {
    if amount >= 0 then amount / NANOS else -(-amount / NANOS)
  }

  function Credit(rate: int, elapsed: int): int {
    TowardZero(elapsed * rate)
  }

  /** The credit, rounded up. */
  function CeilingCredit(rate: int, elapsed: int): int {
    (elapsed * rate + (NANOS - 1)) / NANOS
  }

  /** A positive credit needs time to have moved forward at a positive rate, or both to be negative. */
  lemma CreditSign(rate: int, elapsed: int)
    ensures elapsed * rate <= 0 ==> Credit(rate, elapsed) <= 0
    ensures rate >= 0 && elapsed <= 0 ==> Credit(rate, elapsed) <= 0
    ensures rate <= 0 && elapsed >= 0 ==> Credit(rate, elapsed) <= 0
    ensures rate >= 0 && elapsed >= 0 ==> Credit(rate, elapsed) >= 0
  {
    if rate >= 0 && elapsed <= 0 {
      assert elapsed * rate <= 0;
    }
    if rate <= 0 && elapsed >= 0 {
      assert elapsed * rate <= 0;
    }
    if rate >= 0 && elapsed >= 0 {
      assert elapsed * rate >= 0;
    }
  }

  /** The credit is the floor of the exact amount: tokens a second, time in nanoseconds. */
  lemma CreditIsFloor(rate: nat, elapsed: nat)
    ensures 0 <= Credit(rate, elapsed)
    ensures Credit(rate, elapsed) * NANOS <= elapsed * rate < (Credit(rate, elapsed) + 1) * NANOS
    ensures NANOS == 1_000_000_000
  {
    assert elapsed * rate >= 0;
  }

  /** A whole number of tokens is the credit exactly if that many, and not one more, are worth the time. */
  lemma CreditIff(rate: nat, elapsed: nat, tokens: nat)
    ensures Credit(rate, elapsed) == tokens
       <==> tokens * 1_000_000_000 <= elapsed * rate < (tokens + 1) * 1_000_000_000
  {
    CreditIsFloor(rate, elapsed);
  }

  /** Should the clock run back, the conversion rounds up. */
  lemma CreditBackwards(rate: nat, elapsed: int)
    requires elapsed >= 0
    ensures Credit(rate, 0 - elapsed) == 0 - Credit(rate, elapsed)
  {
    assert elapsed * rate >= 0 && (0 - elapsed) * rate == 0 - elapsed * rate;
  }

  /** The least number of tokens worth at least the time. */
  lemma CeilingIsLeast(rate: nat, elapsed: nat)
    ensures (CeilingCredit(rate, elapsed) - 1) * 1_000_000_000 < elapsed * rate
         <= CeilingCredit(rate, elapsed) * 1_000_000_000
  {
    assert elapsed * rate >= 0;
  }

  lemma AmountSplits(rate: int, a: int, b: int)
    ensures (a + b) * rate == a * rate + b * rate
  {
  }

  /** Crediting two parts of a span separately never gives more than crediting the span at once,
      and loses at most one token. */
  lemma CreditSplits(rate: nat, a: nat, b: nat)
    ensures Credit(rate, a) + Credit(rate, b) <= Credit(rate, a + b) <= Credit(rate, a) + Credit(rate, b) + 1
  {
    AmountSplits(rate, a, b);
    CreditIsFloor(rate, a);
    CreditIsFloor(rate, b);
    CreditIsFloor(rate, a + b);
  }

  lemma CreditMonotone(rate: nat, a: nat, b: nat)
    requires a <= b
    ensures Credit(rate, a) <= Credit(rate, b)
  {
    CreditSplits(rate, a, b - a);
    CreditIsFloor(rate, b - a);
  }

  lemma CeilingMonotone(rate: nat, a: nat, b: nat)
    requires a <= b
    ensures 0 <= CeilingCredit(rate, a) <= CeilingCredit(rate, b)
  {
    AmountSplits(rate, a, b - a);
    assert a * rate >= 0 && (b - a) * rate >= 0;
  }

  lemma CreditIsCovered(rate: nat, elapsed: nat)
    ensures Credit(rate, elapsed) <= CeilingCredit(rate, elapsed)
  {
    CreditIsFloor(rate, elapsed);
  }

  /** After a head start, a span lifts the credit by at most its ceiling. */
  lemma CreditAfter(rate: nat, head: nat, elapsed: nat)
    ensures Credit(rate, head + elapsed) <= Credit(rate, head) + CeilingCredit(rate, elapsed)
  {
    AmountSplits(rate, head, elapsed);
    CreditIsFloor(rate, head);
    CreditIsFloor(rate, head + elapsed);
    assert elapsed * rate >= 0;
  }
}
