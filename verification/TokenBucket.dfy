/** Rate limiting by token buckets, one per key, on a clock that may also jump backwards. Seconds are reals. */
module TokenBucket {

  datatype Bucket = Bucket(tokens: real, lastRefill: real)

  datatype Answer = Answer(bucket: Bucket, ok: bool)

  function Refilled(rps: int, burst: int, b: Bucket, now: real): Bucket {
    var elapsed := now - b.lastRefill;
    if elapsed > 0.0 then
      var t := b.tokens + elapsed * rps as real;
      Bucket(if t > burst as real then burst as real else t, now)
    else b
  }

  function Take(rps: int, burst: int, b: Bucket, now: real): Answer {
    var r := Refilled(rps, burst, b, now);
    if r.tokens < 1.0 then Answer(r, false) else Answer(r.(tokens := r.tokens - 1.0), true)
  }

  /** How long a denied caller is told to wait: until a token is there, but at least a second. */
  function Wait(rps: int, a: Answer): real
    requires rps > 0
  {
    var w := (1.0 - a.bucket.tokens) / rps as real;
    if a.ok then 0.0 else if w < 1.0 then 1.0 else w
  }

  ghost predicate Sound(burst: int, b: Bucket) { 0.0 <= b.tokens <= burst as real }

  lemma Product(x: real, y: real)
    requires x >= 0.0 && y >= 0.0
    ensures x * y >= 0.0
  {}

  lemma Split(a: real, b: real, c: real, r: real)
    ensures (b - a) * r + (c - b) * r == (c - a) * r
  {}

  // ---- What a stretch of calls gets ----

  /** The bucket after a run of calls, and how many were admitted. */
  function Calls(rps: int, burst: int, b: Bucket, clocks: seq<real>): (Bucket, nat)
    requires rps > 0
  {
    if clocks == [] then (b, 0)
    else
      var (mid, n) := Calls(rps, burst, b, clocks[..|clocks| - 1]);
      var a := Take(rps, burst, mid, clocks[|clocks| - 1]);
      (a.bucket, n + if a.ok then 1 else 0)
  }

  function Latest(start: real, clocks: seq<real>): real {
    if clocks == [] then start
    else
      var m, t := Latest(start, clocks[..|clocks| - 1]), clocks[|clocks| - 1];
      if t > m then t else m
  }

  lemma NoGain(elapsed: real, rate: real)
    requires elapsed <= 0.0 && rate > 0.0
    ensures elapsed * rate <= 0.0
  {
    Product(-elapsed, rate);
  }

  lemma RefillGain(rps: int, burst: int, b: Bucket, now: real)
    requires rps > 0 && burst >= 1 && Sound(burst, b) && now > b.lastRefill
    ensures var gain := (now - b.lastRefill) * rps as real;
            && gain >= 0.0
            && Refilled(rps, burst, b, now)
                 == Bucket(if b.tokens + gain > burst as real then burst as real else b.tokens + gain, now)
  {
    Product(now - b.lastRefill, rps as real);
  }

  lemma TakeBound(rps: int, burst: int, b: Bucket, now: real)
    requires rps > 0 && burst >= 1 && Sound(burst, b)
    ensures var a := Take(rps, burst, b, now);
            && Sound(burst, a.bucket)
            && a.bucket.lastRefill == (if now > b.lastRefill then now else b.lastRefill)
            && (if a.ok then 1.0 else 0.0) + a.bucket.tokens
                 <= b.tokens + (a.bucket.lastRefill - b.lastRefill) * rps as real
  {
    if now > b.lastRefill {
      RefillGain(rps, burst, b, now);
    }
  }

  /** Within the budget: n admissions, tokens left, and what the clock's advance has paid for. */
  ghost predicate Within(rps: int, b: Bucket, after: Bucket, n: nat) {
    n as real + after.tokens <= b.tokens + Paid(rps, after.lastRefill - b.lastRefill)
  }

  /** What a clock's advance pays for. */
  function Paid(rps: int, advance: real): real { advance * rps as real }

  lemma WithinStep(rps: int, burst: int, b: Bucket, mid: Bucket, n: nat, now: real)
    requires rps > 0 && burst >= 1 && Sound(burst, mid) && Within(rps, b, mid, n)
    ensures var a := Take(rps, burst, mid, now); Within(rps, b, a.bucket, n + if a.ok then 1 else 0)
  {
    TakeBound(rps, burst, mid, now);
    Split(b.lastRefill, mid.lastRefill, Take(rps, burst, mid, now).bucket.lastRefill, rps as real);
  }

  /** Over any stretch of calls, whatever the clocks, no more are admitted than the tokens at hand at its start
      plus those that the advance of the latest clock pays for. */
  lemma {:induction false} StretchBound(rps: int, burst: int, b: Bucket, clocks: seq<real>)
    requires rps > 0 && burst >= 1 && Sound(burst, b)
    ensures var (after, n) := Calls(rps, burst, b, clocks);
            Sound(burst, after) && after.lastRefill == Latest(b.lastRefill, clocks) && Within(rps, b, after, n)
  {
    if clocks != [] {
      StretchBound(rps, burst, b, clocks[..|clocks| - 1]);
      var (mid, n) := Calls(rps, burst, b, clocks[..|clocks| - 1]);
      TakeBound(rps, burst, mid, clocks[|clocks| - 1]);
      WithinStep(rps, burst, b, mid, n, clocks[|clocks| - 1]);
    }
  }

  /** Main bound: from its creation on, a bucket admits at most burst + rps * (latest clock - creation). */
  lemma LifetimeBound(rps: int, burst: int, created: real, clocks: seq<real>)
    requires rps > 0 && burst >= 1
    ensures Calls(rps, burst, Bucket(burst as real, created), clocks).1 as real
              <= burst as real + Paid(rps, Latest(created, clocks) - created)
  {
    var b := Bucket(burst as real, created);
    StretchBound(rps, burst, b, clocks);
    Spent(rps, b, Calls(rps, burst, b, clocks), Latest(created, clocks));
  }

  lemma Spent(rps: int, b: Bucket, end: (Bucket, nat), latest: real)
    requires Within(rps, b, end.0, end.1) && end.0.tokens >= 0.0 && end.0.lastRefill == latest
    ensures end.1 as real <= b.tokens + Paid(rps, latest - b.lastRefill)
  {}

  // ---- And what it is sure of ----

  /** A refill that would take the bucket past its burst. */
  predicate Overflows(rps: int, burst: int, b: Bucket, now: real) {
    now > b.lastRefill && b.tokens + Paid(rps, now - b.lastRefill) > burst as real
  }

  /** No token is lost: a call takes one when it is admitted and none when not, and what the clock's advance
      pays for comes in, up to the burst. */
  lemma TakeConserves(rps: int, burst: int, b: Bucket, now: real)
    requires rps > 0 && burst >= 1 && Sound(burst, b)
    ensures var a := Take(rps, burst, b, now);
      var spent := if a.ok then 1.0 else 0.0;
      if Overflows(rps, burst, b, now) then a.bucket.tokens + spent == burst as real
      else a.bucket.tokens + spent == b.tokens + Paid(rps, a.bucket.lastRefill - b.lastRefill)
  {
    if now > b.lastRefill {
      RefillGain(rps, burst, b, now);
    }
  }

  /** From a full bucket as many calls as its burst are admitted at once, and no more. */
  lemma {:induction false} BurstAtOnce(rps: int, burst: int, t: real, clocks: seq<real>)
    requires rps > 0 && burst >= 1 && forall k :: 0 <= k < |clocks| ==> clocks[k] == t
    ensures Calls(rps, burst, Bucket(burst as real, t), clocks).1 == if |clocks| <= burst then |clocks| else burst
    ensures Calls(rps, burst, Bucket(burst as real, t), clocks).0
         == Bucket((if |clocks| <= burst then burst - |clocks| else 0) as real, t)
  {
    if clocks != [] {
      BurstAtOnce(rps, burst, t, clocks[..|clocks| - 1]);
    }
  }

  /** Some call of the stretch finds the bucket overflowing. */
  predicate EverOverflows(rps: int, burst: int, b: Bucket, clocks: seq<real>)
    requires rps > 0
  {
    clocks != [] &&
    var (before, t) := (clocks[..|clocks| - 1], clocks[|clocks| - 1]);
    EverOverflows(rps, burst, b, before) || Overflows(rps, burst, Calls(rps, burst, b, before).0, t)
  }

  /** Over a stretch in which the bucket never overflows, all that was there and all that came in is admitted or
      still there: the bound of StretchBound is reached. */
  lemma {:induction false} StretchExact(rps: int, burst: int, b: Bucket, clocks: seq<real>)
    requires rps > 0 && burst >= 1 && Sound(burst, b) && !EverOverflows(rps, burst, b, clocks)
    ensures var (after, n) := Calls(rps, burst, b, clocks);
      n as real + after.tokens == b.tokens + Paid(rps, after.lastRefill - b.lastRefill)
  {
    if clocks != [] {
      var (before, t) := (clocks[..|clocks| - 1], clocks[|clocks| - 1]);
      StretchExact(rps, burst, b, before);
      StretchBound(rps, burst, b, before);
      var mid := Calls(rps, burst, b, before).0;
      TakeConserves(rps, burst, mid, t);
      PaidTwice(rps, b.lastRefill, mid.lastRefill, Take(rps, burst, mid, t).bucket.lastRefill);
    } else {
      PaidTwice(rps, b.lastRefill, b.lastRefill, b.lastRefill);
    }
  }

  lemma PaidTwice(rps: int, a: real, b: real, c: real)
    ensures Paid(rps, b - a) + Paid(rps, c - b) == Paid(rps, c - a)
  {
    Split(a, b, c, rps as real);
  }

  // ---- Waiting as told ----

  lemma WaitPays(need: real, wait: real, rps: real)
    requires rps > 0.0 && wait >= need / rps
    ensures wait * rps >= need
  {
    assert need == (need / rps) * rps;
    Product(wait - need / rps, rps);
  }

  /** A caller denied at a clock not before the last refill is admitted when it alone waits as told. */
  lemma RetryIsAdmitted(rps: int, burst: int, b: Bucket, now: real, later: real)
    requires rps > 0 && burst >= 1 && Sound(burst, b) && b.lastRefill <= now
    requires !Take(rps, burst, b, now).ok && later >= now + Wait(rps, Take(rps, burst, b, now))
    ensures Take(rps, burst, Take(rps, burst, b, now).bucket, later).ok
  {
    var a := Take(rps, burst, b, now);
    TakeBound(rps, burst, b, now);
    assert a.bucket.lastRefill == now;
    WaitPays(1.0 - a.bucket.tokens, later - now, rps as real);
  }

  /** The told wait suffices exactly when the caller's clock was not behind the last refill, or was so little
      behind that by the end of the wait the missing part of a token has come in all the same. */
  lemma RetryExactly(rps: int, burst: int, b: Bucket, now: real, later: real)
    requires rps > 0 && burst >= 1 && Sound(burst, b)
    requires !Take(rps, burst, b, now).ok && later >= now + Wait(rps, Take(rps, burst, b, now))
    ensures Take(rps, burst, Take(rps, burst, b, now).bucket, later).ok <==>
            (b.lastRefill <= now || (later - b.lastRefill) * rps as real >= 1.0 - b.tokens)
  {
    if b.lastRefill <= now {
      RetryIsAdmitted(rps, burst, b, now, later);
    } else {
      AdmittedExactly(rps, burst, b, later);
    }
  }

  /** As the rate is a whole number, the told wait is a second whenever a call is denied, and none otherwise. */
  lemma WaitIsASecond(rps: int, burst: int, b: Bucket, now: real)
    requires rps > 0 && burst >= 1 && Sound(burst, b)
    ensures var a := Take(rps, burst, b, now); Wait(rps, a) == if a.ok then 0.0 else 1.0
  {
    var a := Take(rps, burst, b, now);
    TakeBound(rps, burst, b, now);
    if !a.ok {
      QuotientIsSmall(1.0 - a.bucket.tokens, rps);
    }
  }

  lemma QuotientIsSmall(need: real, rps: int)
    requires rps > 0 && 0.0 <= need <= 1.0
    ensures need / rps as real <= 1.0
  {
    var q := need / rps as real;
    assert need == q * rps as real && q >= 0.0;
    Product(q, rps as real - 1.0);
    assert q * (rps as real - 1.0) == q * rps as real - q;
  }

  /** With a clock behind the last refill the told wait may be too short. */
  lemma EarlyClockFails(b: Bucket)
    requires b == Bucket(0.0, 10.0)
    ensures !Take(1, 1, b, 0.0).ok && Wait(1, Take(1, 1, b, 0.0)) == 1.0
    ensures !Take(1, 1, Take(1, 1, b, 0.0).bucket, 1.0).ok
  {}

  /** Whatever the clock, the retry succeeds exactly when it comes late enough after the last refill. */
  lemma AdmittedExactly(rps: int, burst: int, b: Bucket, now: real)
    requires rps > 0 && burst >= 1 && Sound(burst, b)
    ensures Take(rps, burst, b, now).ok <==>
              (b.tokens >= 1.0 || (now - b.lastRefill) * rps as real >= 1.0 - b.tokens)
  {
    var elapsed := now - b.lastRefill;
    var gain := elapsed * rps as real;
    if elapsed > 0.0 {
      RefillGain(rps, burst, b, now);
    } else {
      NoGain(elapsed, rps as real);
      assert Refilled(rps, burst, b, now) == b;
    }
  }

  /** Call k comes at least one period after the call before it. */
  predicate Paced(rps: int, last: real, clocks: seq<real>, k: nat)
    requires k < |clocks|
  {
    Paid(rps, clocks[k] - (if k == 0 then last else clocks[k - 1])) >= 1.0
  }

  ghost predicate Steady(rps: int, last: real, clocks: seq<real>) {
    forall k :: 0 <= k < |clocks| ==> Paced(rps, last, clocks, k)
  }

  lemma PacedCallPasses(rps: int, burst: int, b: Bucket, last: real, t: real)
    requires rps > 0 && burst >= 1 && Sound(burst, b) && b.lastRefill == last && Paid(rps, t - last) >= 1.0
    ensures Take(rps, burst, b, t).ok && Take(rps, burst, b, t).bucket.lastRefill == t
  {
    LaterThan(t - last, rps as real);
    AdmittedExactly(rps, burst, b, t);
  }

  /** Callers who keep to the rate are never denied. */
  lemma {:induction false} SteadyCallersPass(rps: int, burst: int, b: Bucket, clocks: seq<real>)
    requires rps > 0 && burst >= 1 && Sound(burst, b) && Steady(rps, b.lastRefill, clocks)
    ensures Calls(rps, burst, b, clocks).1 == |clocks|
    ensures clocks != [] ==> Calls(rps, burst, b, clocks).0.lastRefill == clocks[|clocks| - 1]
  {
    if clocks != [] {
      var before, t := clocks[..|clocks| - 1], clocks[|clocks| - 1];
      forall k | 0 <= k < |before|
        ensures Paced(rps, b.lastRefill, before, k)
      {
        assert Paced(rps, b.lastRefill, clocks, k);
      }
      assert Paced(rps, b.lastRefill, clocks, |clocks| - 1);
      SteadyCallersPass(rps, burst, b, before);
      StretchBound(rps, burst, b, before);
      var mid := Calls(rps, burst, b, before).0;
      PacedCallPasses(rps, burst, mid, if |clocks| == 1 then b.lastRefill else clocks[|clocks| - 2], t);
    }
  }

  lemma LaterThan(elapsed: real, rps: real)
    requires rps > 0.0 && elapsed * rps >= 1.0
    ensures elapsed > 0.0
  {
    if elapsed <= 0.0 {
      Product(-elapsed, rps);
    }
  }

  // ---- The limiter ----

  class RateLimiter {
    const rps: int
    const burst: int
    var buckets: map<string, Bucket>

    ghost predicate Valid()
      reads this
    {
      burst >= 1 && forall key <- buckets :: Sound(burst, buckets[key])
    }

    constructor (rps: int, burst: int)
      ensures Valid() && buckets == map[] && this.rps == rps && this.burst == if burst <= 0 then 1 else burst
    {
      this.rps := rps;
      this.burst := if burst <= 0 then 1 else burst;
      buckets := map[];
    }

    ghost function BucketOf(key: string, now: real): Bucket
      reads this
    {
      if key in buckets then buckets[key] else Bucket(burst as real, now)
    }

    /** One call touches its own key's bucket and no other; a limiter without a rate admits everything. */
    method Allow(key: string, now: real) returns (ok: bool, wait: real)
      requires Valid()
      modifies this
      ensures Valid()
      ensures rps <= 0 ==> ok && wait == 0.0 && buckets == old(buckets)
      ensures rps > 0 ==>
        var a := Take(rps, burst, old(BucketOf(key, now)), now);
        buckets == old(buckets)[key := a.bucket] && ok == a.ok && wait == Wait(rps, a)
      ensures !ok ==> wait >= 1.0
      ensures rps > 0 && key !in old(buckets) ==> ok && buckets[key] == Bucket(burst as real - 1.0, now)
    {
      if rps <= 0 {
        return true, 0.0;
      }
      if key !in buckets {
        buckets := buckets[key := Bucket(burst as real, now)];
      }
      TakeBound(rps, burst, buckets[key], now);
      var b;
      b, ok, wait := Spend(buckets[key], now);
      buckets := buckets[key := b];
    }

    method Spend(before: Bucket, now: real) returns (b: Bucket, ok: bool, wait: real)
      requires rps > 0
      ensures Answer(b, ok) == Take(rps, burst, before, now) && wait == Wait(rps, Answer(b, ok))
    {
      b := before;
      var elapsed := now - b.lastRefill;
      if elapsed > 0.0 {
        b := b.(tokens := b.tokens + elapsed * rps as real);
        if b.tokens > burst as real {
          b := b.(tokens := burst as real);
        }
        b := b.(lastRefill := now);
      }
      if b.tokens < 1.0 {
        var need := 1.0 - b.tokens;
        wait := need / rps as real;
        if wait < 1.0 {
          wait := 1.0;
        }
        ok := false;
      } else {
        b := b.(tokens := b.tokens - 1.0);
        ok, wait := true, 0.0;
      }
    }
  }
}
