/** The token bucket of pkg/ircclient/ratelimiter.go, in real arithmetic with time as a parameter. */
module RateLimiting {

  datatype Bucket = Bucket(tokens: real, last: real)

  /**
   * What does not change about a limiter: bucket size and tokens per second, and what the platform makes of an infinite
   * number of nanoseconds when it converts it to a duration.
   */
  datatype Limits = Limits(burst: real, rate: real, infinite: real)

  /** The tokens that accrue over a stretch of time. */
  function Earned(rate: real, time: real): real {
    time * rate
  }

  function Refilled(l: Limits, b: Bucket, now: real): Bucket {
    var tokens := b.tokens + Earned(l.rate, now - b.last);
    Bucket(if tokens > l.burst then l.burst else tokens, now)
  }

  predicate Grants(l: Limits, b: Bucket, now: real) {
    Refilled(l, b, now).tokens >= 1.0
  }

  /** One attempt, by Allow or by a round of Wait: refill, then take a token if there is one. */
  function Attempted(l: Limits, b: Bucket, now: real): Bucket {
    var r := Refilled(l, b, now);
    if r.tokens >= 1.0 then r.(tokens := r.tokens - 1.0) else r
  }

  predicate InRange(l: Limits, b: Bucket) {
    0.0 <= b.tokens <= l.burst
  }

  class RateLimiter {
    const limits: Limits
    var tokens: real
    var lastRefill: real

    ghost function Contents(): Bucket
      reads this
    {
      Bucket(tokens, lastRefill)
    }

    constructor (rate: real, burst: int, infinite: real, now: real)
      ensures limits == Limits(burst as real, rate, infinite) && Contents() == Bucket(burst as real, now)
    {
      limits := Limits(burst as real, rate, infinite);
      tokens, lastRefill := burst as real, now;
    }

    method Refill(now: real)
      modifies this
      ensures Contents() == Refilled(limits, old(Contents()), now)
      ensures Contents() == Bucket(Level(limits, old(Contents()), now), now)
    {
      FirstRefill(limits, Contents(), now);
      hide Level, Earned;
      var elapsed := now - lastRefill;
      tokens := tokens + Earned(limits.rate, elapsed);
      if tokens > limits.burst {
        tokens := limits.burst;
      }
      lastRefill := now;
    }

    method Allow(now: real) returns (ok: bool)
      modifies this
      ensures Contents() == Attempted(limits, old(Contents()), now)
      ensures ok <==> Grants(limits, old(Contents()), now)
    {
      Refill(now);
      if tokens >= 1.0 {
        tokens := tokens - 1.0;
        return true;
      }
      return false;
    }

    /**
     * Wait, called at time start. After the k-th failure the caller sleeps for the computed time and late[k] longer;
     * the context is cancelled during the sleep after the last of these.
     * The attempts Wait makes are attempts like those of Allow, of which only the last can be granted.
     */
    method Wait(start: real, late: seq<real>) returns (granted: bool, ghost times: seq<real>)
      modifies this
      ensures times != [] && times[0] == start
      ensures Contents() == BucketAfter(limits, old(Contents()), times)
      ensures GrantCount(limits, old(Contents()), times, 0) == if granted then 1 else 0
      ensures Paced(limits, old(Contents()), times, late)
      ensures !granted ==> |times| == |late| + 1
      ensures limits.burst >= 1.0 && limits.rate > 0.0 && late != [] && late[0] >= 0.0 ==> granted && |times| <= 2
    {
      hide *;
      ghost var prompt := limits.burst >= 1.0 && limits.rate > 0.0 && late != [] && late[0] >= 0.0;
      ghost var b0 := Contents();
      NoAttempts(limits, b0);
      var now, retries := start, 0;
      times := [];
      while true
        invariant retries == |times| <= |late|
        invariant if times == [] then now == start else times[0] == start
        invariant Paced(limits, b0, times, late)
        invariant times != [] ==> now == NextAttempt(limits, Contents(), times[retries - 1], late[retries - 1])
        invariant Contents() == BucketAfter(limits, b0, times)
        invariant GrantCount(limits, b0, times, 0) == 0
        invariant prompt ==> times == [] || (|times| == 1 && Grants(limits, Contents(), now))
        decreases |late| - retries
      {
        ghost var before := Contents();
        AnAttempt(limits, b0, times, now);
        RefillOrTake(limits, before, now);
        PacedNext(limits, b0, times, late, now);
        times := times + [now];
        Refill(now);
        ContentsAre();
        if tokens >= 1.0 {
          tokens := tokens - 1.0;
          ContentsAre();
          return true, times;
        }
        var deficit := 1.0 - tokens;
        var waitDur := SleepTime(limits, deficit);
        if retries == |late| {
          return false, times;
        }
        if prompt {
          SleepSuffices(limits, Contents(), late[retries]);
        }
        NextAttemptIs(limits, Contents(), lastRefill, late[retries]);
        now := lastRefill + waitDur + late[retries];
        retries := retries + 1;
      }
    }

    lemma ContentsAre()
      ensures Contents() == Bucket(tokens, lastRefill)
    {
    }
  }

  /** The time until the next token arrives; without a rate the quotient is infinite. */
  function SleepTime(l: Limits, deficit: real): real {
    if l.rate == 0.0 then l.infinite else deficit / l.rate
  }

  /** When a failed attempt is followed by the next: after the computed sleep, or some time later. */
  function NextAttempt(l: Limits, b: Bucket, last: real, late: real): real {
    last + SleepTime(l, 1.0 - b.tokens) + late
  }

  lemma NextAttemptIs(l: Limits, b: Bucket, last: real, late: real)
    ensures NextAttempt(l, b, last, late) == last + SleepTime(l, 1.0 - b.tokens) + late
  {
  }

  /** Each attempt but the first comes when the bucket left by those before it says. */
  predicate Paced(l: Limits, b: Bucket, times: seq<real>, late: seq<real>) {
    && |times| <= |late| + 1
    && forall k :: 0 < k < |times| ==> times[k] == NextAttempt(l, BucketAfter(l, b, times[..k]), times[k - 1], late[k - 1])
  }

  lemma PacedNext(l: Limits, b: Bucket, times: seq<real>, late: seq<real>, now: real)
    requires Paced(l, b, times, late) && |times| <= |late|
    requires times != [] ==> now == NextAttempt(l, BucketAfter(l, b, times), times[|times| - 1], late[|times| - 1])
    ensures Paced(l, b, times + [now], late)
  {
    hide NextAttempt, BucketAfter;
    var more := times + [now];
    forall k | 0 < k < |more| ensures more[k] == NextAttempt(l, BucketAfter(l, b, more[..k]), more[k - 1], late[k - 1]) {
      assert more[..k] == times[..k];
      assert times[..|times|] == times;
    }
  }

  lemma NoAttempts(l: Limits, b: Bucket)
    ensures BucketAfter(l, b, []) == b && GrantCount(l, b, [], 0) == 0
    ensures forall late :: Paced(l, b, [], late)
  {
  }

  lemma AnAttempt(l: Limits, b: Bucket, times: seq<real>, now: real)
    ensures BucketAfter(l, b, times + [now]) == Attempted(l, BucketAfter(l, b, times), now)
    ensures GrantCount(l, b, times + [now], 0)
      == GrantCount(l, b, times, 0) + if Grants(l, BucketAfter(l, b, times), now) then 1 else 0
  {
    assert (times + [now])[..|times|] == times;
  }

  lemma RefillOrTake(l: Limits, b: Bucket, now: real)
    ensures Grants(l, b, now) <==> Refilled(l, b, now).tokens >= 1.0
    ensures Refilled(l, b, now).last == now
    ensures var r := Refilled(l, b, now); Attempted(l, b, now) == if Grants(l, b, now) then r.(tokens := r.tokens - 1.0) else r
  {
  }

  lemma EarnedMonotone(rate: real, a: real, b: real)
    requires a <= b && rate >= 0.0
    ensures Earned(rate, a) <= Earned(rate, b)
  {
    assert (b - a) * rate >= 0.0;
  }

  lemma EarnedZero(rate: real)
    ensures Earned(rate, 0.0) == 0.0
  {
  }

  lemma EarnedSum(rate: real, a: real, b: real)
    ensures Earned(rate, a + b) == Earned(rate, a) + Earned(rate, b)
  {
  }

  lemma SleepEarns(l: Limits, deficit: real)
    requires l.rate != 0.0
    ensures Earned(l.rate, SleepTime(l, deficit)) == deficit
  {
  }

  /** After the computed sleep, or later, the next attempt of a lone waiter succeeds. */
  lemma SleepSuffices(l: Limits, b: Bucket, late: real)
    requires l.burst >= 1.0 && l.rate > 0.0 && b.tokens < 1.0 && late >= 0.0
    ensures Grants(l, b, b.last + SleepTime(l, 1.0 - b.tokens) + late)
  {
    hide Earned, SleepTime;
    var w := SleepTime(l, 1.0 - b.tokens);
    SleepEarns(l, 1.0 - b.tokens);
    EarnedMonotone(l.rate, w, w + late);
    assert b.last + w + late - b.last == w + late;
  }

  /** With a positive rate, the first retry of a lone waiter succeeds exactly when the bucket can hold a token at all. */
  lemma RetrySucceedsIffBurst(l: Limits, b: Bucket)
    requires l.rate > 0.0 && b.tokens < 1.0
    ensures Grants(l, b, b.last + SleepTime(l, 1.0 - b.tokens)) <==> l.burst >= 1.0
  {
    hide Earned, SleepTime;
    if l.burst >= 1.0 {
      SleepSuffices(l, b, 0.0);
      assert b.last + SleepTime(l, 1.0 - b.tokens) + 0.0 == b.last + SleepTime(l, 1.0 - b.tokens);
    }
  }

  /** Without a rate no later attempt succeeds, however long a waiter sleeps. */
  lemma NothingWithoutRate(l: Limits, b: Bucket, now: real)
    requires l.rate == 0.0 && b.tokens < 1.0
    ensures !Grants(l, b, now) && Attempted(l, b, now).tokens < 1.0
  {
  }

  // ---------- any number of callers ----------

  predicate NonDecreasing(times: seq<real>) {
    forall i, j :: 0 <= i <= j < |times| ==> times[i] <= times[j]
  }

  /** The bucket after attempts at the given times, by whatever callers. */
  function BucketAfter(l: Limits, b: Bucket, times: seq<real>): Bucket {
    if times == [] then b else Attempted(l, BucketAfter(l, b, times[..|times| - 1]), times[|times| - 1])
  }

  /** How many of the attempts from index lo on were granted. */
  function GrantCount(l: Limits, b: Bucket, times: seq<real>, lo: nat): nat {
    if |times| <= lo then 0
    else
      var front := times[..|times| - 1];
      GrantCount(l, b, front, lo) + (if Grants(l, BucketAfter(l, b, front), times[|times| - 1]) then 1 else 0)
  }

  /** The token count stays between zero and the burst. */
  lemma {:induction false} TokensInRange(l: Limits, b: Bucket, times: seq<real>)
    requires l.burst >= 0.0 && l.rate >= 0.0 && InRange(l, b)
    requires NonDecreasing(times) && (times != [] ==> b.last <= times[0])
    ensures InRange(l, BucketAfter(l, b, times))
    ensures BucketAfter(l, b, times).last == if times == [] then b.last else times[|times| - 1]
  {
    if times != [] {
      var front := times[..|times| - 1];
      TokensInRange(l, b, front);
      var c, now := BucketAfter(l, b, front), times[|times| - 1];
      assert c.last <= now;
      hide Earned;
      EarnedZero(l.rate);
      EarnedMonotone(l.rate, 0.0, now - c.last);
    }
  }

  /** One attempt: what it takes and leaves is bounded by what was there and accrued, and by the bucket size. */
  lemma AttemptBounded(l: Limits, b: Bucket, now: real)
    ensures var taken := if Grants(l, b, now) then 1.0 else 0.0;
      && taken + Attempted(l, b, now).tokens <= l.burst
      && taken + Attempted(l, b, now).tokens <= b.tokens + Earned(l.rate, now - b.last)
  {
    hide Earned;
  }

  /** Grants since index lo, plus what is left, never exceed a full bucket plus the refill since that moment. */
  lemma {:induction false} GrantsBounded(l: Limits, b: Bucket, times: seq<real>, lo: nat)
    requires l.burst >= 0.0 && l.rate >= 0.0 && InRange(l, b)
    requires NonDecreasing(times) && (times != [] ==> b.last <= times[0])
    requires lo < |times|
    ensures GrantCount(l, b, times, lo) as real + BucketAfter(l, b, times).tokens
      <= l.burst + Earned(l.rate, times[|times| - 1] - times[lo])
  {
    hide Earned, InRange;
    var front, now := times[..|times| - 1], times[|times| - 1];
    TokensInRange(l, b, front);
    TokensInRange(l, b, times);
    var c := BucketAfter(l, b, front);
    if lo == |times| - 1 {
      EarnedZero(l.rate);
      assert times[lo] == now;
      AttemptBounded(l, c, now);
      assert |front| <= lo;
    } else {
      GrantsBounded(l, b, front, lo);
      var prior := times[|times| - 2];
      assert c.last == prior;
      assert now - times[lo] == (prior - times[lo]) + (now - prior);
      EarnedSum(l.rate, prior - times[lo], now - prior);
      AttemptBounded(l, c, now);
    }
  }

  /** In any interval from s to t, however many callers take part, at most burst + (t - s) * rate attempts are granted. */
  lemma RateIsLimited(l: Limits, b: Bucket, times: seq<real>, lo: nat, hi: nat, s: real, t: real)
    requires l.burst >= 0.0 && l.rate >= 0.0 && InRange(l, b)
    requires NonDecreasing(times) && (times != [] ==> b.last <= times[0])
    requires lo < hi <= |times| && s <= times[lo] && times[hi - 1] <= t
    ensures GrantCount(l, b, times[..hi], lo) as real <= l.burst + Accrued(t - s, l.rate)
  {
    hide Earned, Accrued, GrantCount;
    AccruedIsEarned(t - s, l.rate);
    GrantsBounded(l, b, times[..hi], lo);
    TokensInRange(l, b, times[..hi]);
    EarnedMonotone(l.rate, times[hi - 1] - times[lo], t - s);
  }

  // ---------- the burst can be used ----------

  /** The same moment n times. */
  function Moments(n: nat, now: real): seq<real> {
    seq(n, _ => now)
  }

  /** Time multiplied by rate. */
  function Accrued(time: real, rate: real): real {
    time * rate
  }

  function Capped(x: real, cap: real): real {
    if x > cap then cap else x
  }

  lemma AccruedIsEarned(time: real, rate: real)
    ensures Accrued(time, rate) == Earned(rate, time)
  {
  }

  /** What a bucket holds at a moment: what was left and has accrued since, but no more than the burst. */
  function Level(l: Limits, b: Bucket, now: real): real {
    Capped(b.tokens + Accrued(now - b.last, l.rate), l.burst)
  }

  /** How many whole tokens the first n attempts at a moment can take. */
  function Whole(level: real, n: nat): nat
    requires level >= 0.0
  {
    if n <= level.Floor then n else level.Floor
  }

  lemma LevelInRange(l: Limits, b: Bucket, now: real)
    requires l.burst >= 0.0 && l.rate >= 0.0 && InRange(l, b) && b.last <= now
    ensures 0.0 <= Level(l, b, now) <= l.burst
  {
    hide Accrued, Earned;
    EarnedZero(l.rate);
    EarnedMonotone(l.rate, 0.0, now - b.last);
    AccruedIsEarned(now - b.last, l.rate);
  }

  lemma FirstRefill(l: Limits, b: Bucket, now: real)
    ensures Refilled(l, b, now) == Bucket(Level(l, b, now), now)
  {
    hide Accrued, Earned;
    AccruedIsEarned(now - b.last, l.rate);
  }

  lemma RefilledAtOnce(l: Limits, b: Bucket)
    requires b.tokens <= l.burst
    ensures Refilled(l, b, b.last) == b
  {
    EarnedZero(l.rate);
  }

  lemma MomentsGrow(n: nat, now: real)
    ensures Moments(0, now) == [] && Moments(n + 1, now) == Moments(n, now) + [now]
  {
  }

  /** One more attempt at the moment takes one more whole token, if there is one. */
  lemma OneMoreAttempt(l: Limits, level: real, n: nat, now: real)
    requires 0.0 <= level <= l.burst
    ensures var b := Bucket(level - Whole(level, n) as real, now);
      && (Grants(l, b, now) <==> n < level.Floor)
      && Attempted(l, b, now) == Bucket(level - Whole(level, n + 1) as real, now)
  {
    var b := Bucket(level - Whole(level, n) as real, now);
    RefilledAtOnce(l, b);
    hide Refilled;
  }

  /**
   * Exactly how much a limiter grants at once: of n attempts at one moment as many succeed as there are whole tokens, that is
   * what was left and has accrued since, capped at the burst.
   */
  lemma {:induction false} GrantsAtOnce(l: Limits, b: Bucket, n: nat, now: real)
    requires l.burst >= 0.0 && l.rate >= 0.0 && InRange(l, b) && b.last <= now
    ensures 0.0 <= Level(l, b, now) <= l.burst
    ensures GrantCount(l, b, Moments(n, now), 0) == Whole(Level(l, b, now), n)
    ensures n > 0 ==> BucketAfter(l, b, Moments(n, now)) == Bucket(Level(l, b, now) - Whole(Level(l, b, now), n) as real, now)
  {
    var level := Level(l, b, now);
    LevelInRange(l, b, now);
    hide Level, Moments, Grants, Attempted, Refilled;
    NoAttempts(l, b);
    MomentsGrow(0, now);
    if n > 0 {
      GrantsAtOnce(l, b, n - 1, now);
      MomentsGrow(n - 1, now);
      AnAttempt(l, b, Moments(n - 1, now), now);
      OneMoreAttempt(l, level, n - 1, now);
      if n == 1 {
        FirstRefill(l, b, now);
        SameRefill(l, b, Bucket(level, now), now);
      }
    }
  }

  /** An attempt only depends on what the refill gives. */
  lemma SameRefill(l: Limits, b: Bucket, c: Bucket, now: real)
    requires Refilled(l, b, now) == c && c.tokens <= l.burst && c.last == now
    ensures (Grants(l, b, now) <==> Grants(l, c, now)) && Attempted(l, b, now) == Attempted(l, c, now)
  {
    RefilledAtOnce(l, c);
    hide Refilled;
  }

  /** After enough idle time a whole burst is granted in a row, and no more: the limit of RateIsLimited is reached. */
  lemma BurstAfterIdling(l: Limits, b: Bucket, n: nat, now: real)
    requires l.burst >= 0.0 && l.rate > 0.0 && InRange(l, b) && b.last + l.burst / l.rate <= now
    ensures GrantCount(l, b, Moments(n, now), 0) == if n <= l.burst.Floor then n else l.burst.Floor
  {
    hide GrantCount, Moments, Level;
    FullAfterIdling(l, b, now);
    GrantsAtOnce(l, b, n, now);
  }

  lemma FullAfterIdling(l: Limits, b: Bucket, now: real)
    requires l.burst >= 0.0 && l.rate > 0.0 && InRange(l, b) && b.last + l.burst / l.rate <= now
    ensures Level(l, b, now) == l.burst && b.last <= now
  {
    IdlingFills(l.rate, l.burst, now - b.last);
    hide Accrued;
  }

  lemma IdlingFills(rate: real, burst: real, time: real)
    requires rate > 0.0 && burst >= 0.0 && burst / rate <= time
    ensures Accrued(time, rate) >= burst && time >= 0.0
  {
    assert burst == burst / rate * rate;
    assert (time - burst / rate) * rate >= 0.0;
  }
}
