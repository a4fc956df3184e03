/** Sliding-window counters: sixty one-minute buckets reused round the clock, against the full event log. */
module Ring {
  import opened Counting

  const BUCKETS := 60
  const BUCKET_MS := 60000
  const TYPES := 10

  /** An event in its minute; kind says what is counted about it. */
  datatype Event = Event(slot: nat, kind: int)

  /** The bucket of a minute. */
  function Home(slot: nat): (i: nat)
    ensures i < BUCKETS
  {
    slot % BUCKETS
  }

  /** The newest minute among the first n events. */
  function Newest(log: seq<Event>, n: nat): nat
    requires n <= |log|
  {
    if n == 0 then 0
    else
      var m := Newest(log, n - 1);
      if log[n - 1].slot > m then log[n - 1].slot else m
  }

  /** The events bucket i still counts after the first n events of the log: those of the minute that took
      the bucket over last. */
  function Kept(log: seq<Event>, n: nat, i: nat): seq<Event>
    requires n <= |log|
  {
    if n == 0 then []
    else
      var e, r := log[n - 1], Kept(log, n - 1, i);
      if Home(e.slot) != i then r
      else if r != [] && r[0].slot == e.slot then r + [e]
      else [e]
  }

  /** Every event comes less than sixty minutes behind the newest before it. */
  ghost predicate Timely(log: seq<Event>) {
    forall k :: 0 <= k < |log| ==> OnTime(log, k)
  }

  predicate OnTime(log: seq<Event>, k: nat)
    requires k < |log|
  {
    log[k].slot + BUCKETS > Newest(log, k)
  }

  lemma {:induction false} NewestBounds(log: seq<Event>, n: nat, k: nat)
    requires k < n <= |log|
    ensures log[k].slot <= Newest(log, n)
  {
    if k < n - 1 {
      NewestBounds(log, n - 1, k);
    }
  }

  /** The last event of bucket i: a used bucket holds that event's minute; an unused one never had an event. */
  lemma {:induction false} LastOfBucket(log: seq<Event>, n: nat, i: nat) returns (k: nat)
    requires n <= |log|
    ensures Kept(log, n, i) == [] ==> forall j :: 0 <= j < n ==> Home(log[j].slot) != i
    ensures Kept(log, n, i) != [] ==>
      && k < n && Home(log[k].slot) == i && log[k].slot == Kept(log, n, i)[0].slot
      && forall j :: k < j < n ==> Home(log[j].slot) != i
  {
    k := 0;
    if n > 0 {
      k := LastOfBucket(log, n - 1, i);
      if Home(log[n - 1].slot) == i {
        k := n - 1;
      }
    }
  }

  function Any(e: Event): bool { true }

  lemma OneCount(e: Event, p: Event -> bool)
    ensures Count([e], p) == if p(e) then 1 else 0
  {
    assert [e][..0] == [];
  }

  /** Different minutes of one bucket lie sixty or more apart. */
  lemma SameBucket(a: nat, b: nat)
    requires Home(a) == Home(b)
    ensures a == b || a >= b + BUCKETS || b >= a + BUCKETS
  {}

  // ---- Windows ----

  function WindowSlots(w: int): int { if w < 1 then 1 else if w > BUCKETS then BUCKETS else w }

  predicate InWindow(now: nat, w: int, slot: nat) { slot <= now && now - slot < WindowSlots(w) }

  function Within(now: nat, w: int, p: Event -> bool): Event -> bool {
    (e: Event) => InWindow(now, w, e.slot) && p(e)
  }

  /** What bucket i contributes to a window after n events: all its events when its minute lies inside. */
  ghost function ContributionAt(log: seq<Event>, n: nat, now: nat, w: int, p: Event -> bool, i: nat): nat
    requires n <= |log|
  {
    var r := Kept(log, n, i);
    if r != [] && InWindow(now, w, r[0].slot) then Count(r, p) else 0
  }

  ghost function Contribution(log: seq<Event>, now: nat, w: int, p: Event -> bool, i: nat): nat {
    ContributionAt(log, |log|, now, w, p, i)
  }

  /** The sum of the first k buckets' contributions. */
  ghost function Contributions(log: seq<Event>, now: nat, w: int, p: Event -> bool, k: nat): nat {
    if k == 0 then 0
    else Contributions(log, now, w, p, k - 1) + Contribution(log, now, w, p, k - 1)
  }

  function InBuckets(k: nat, p: Event -> bool): Event -> bool {
    (e: Event) => Home(e.slot) < k && p(e)
  }

  function InBucket(i: nat, p: Event -> bool): Event -> bool {
    (e: Event) => Home(e.slot) == i && p(e)
  }

  lemma {:induction false} CountSplits(log: seq<Event>, k: nat, p: Event -> bool)
    ensures Count(log, InBuckets(k + 1, p)) == Count(log, InBuckets(k, p)) + Count(log, InBucket(k, p))
  {
    if |log| > 0 {
      CountSplits(log[..|log| - 1], k, p);
    }
  }

  lemma {:induction false} CountSame<T>(s: seq<T>, p: T -> bool, q: T -> bool)
    requires forall x :: x in s ==> p(x) == q(x)
    ensures Count(s, p) == Count(s, q)
  {
    CountMonotone(s, p, q);
    CountMonotone(s, q, p);
  }

  lemma InsideMeans(e: Event, now: nat, w: int, p: Event -> bool, i: nat)
    ensures InBucket(i, Within(now, w, p))(e) == (Home(e.slot) == i && InWindow(now, w, e.slot) && p(e))
  {
    assert Within(now, w, p)(e) == (InWindow(now, w, e.slot) && p(e));
  }

  // ---- Exactly when the window is exact ----

  /** Event j, one the window should count, has lost its bucket to event k of another minute. */
  predicate Displaced(log: seq<Event>, now: nat, w: int, p: Event -> bool, j: nat, k: nat)
    requires j < k < |log|
  {
    && InWindow(now, w, log[j].slot) && p(log[j])
    && Home(log[j].slot) == Home(log[k].slot) && log[j].slot != log[k].slot
  }

  /** Some event of bucket i has been displaced within the first n events. */
  ghost predicate LostIn(log: seq<Event>, n: nat, now: nat, w: int, p: Event -> bool, i: nat)
    requires n <= |log|
  {
    exists j, k :: 0 <= j < k < n && Home(log[j].slot) == i && Displaced(log, now, w, p, j, k)
  }

  ghost predicate Lost(log: seq<Event>, now: nat, w: int, p: Event -> bool) {
    exists j, k :: 0 <= j < k < |log| && Displaced(log, now, w, p, j, k)
  }

  /** How many of the first n events the window should count in bucket i. */
  ghost function Due(log: seq<Event>, n: nat, now: nat, w: int, p: Event -> bool, i: nat): nat
    requires n <= |log|
  {
    Count(log[..n], InBucket(i, Within(now, w, p)))
  }

  lemma DueNext(log: seq<Event>, n: nat, now: nat, w: int, p: Event -> bool, i: nat)
    requires n < |log|
    ensures Due(log, n + 1, now, w, p, i) == Due(log, n, now, w, p, i)
      + if Home(log[n].slot) == i && InWindow(now, w, log[n].slot) && p(log[n]) then 1 else 0
  {
    assert log[..n + 1] == log[..n] + [log[n]];
    CountAppend(log[..n], log[n], InBucket(i, Within(now, w, p)));
    InsideMeans(log[n], now, w, p, i);
  }

  /** An event due in bucket i, if any is. */
  lemma DueWitness(log: seq<Event>, n: nat, now: nat, w: int, p: Event -> bool, i: nat) returns (j: nat)
    requires n <= |log|
    ensures if Due(log, n, now, w, p, i) > 0
      then j < n && Home(log[j].slot) == i && InWindow(now, w, log[j].slot) && p(log[j])
      else forall k :: 0 <= k < n && Home(log[k].slot) == i && InWindow(now, w, log[k].slot) ==> !p(log[k])
  {
    j := 0;
    var inside := InBucket(i, Within(now, w, p));
    if Due(log, n, now, w, p, i) > 0 {
      j := CountWitness(log[..n], inside);
      InsideMeans(log[j], now, w, p, i);
    } else {
      forall k | 0 <= k < n && Home(log[k].slot) == i && InWindow(now, w, log[k].slot)
        ensures !p(log[k])
      {
        InsideMeans(log[k], now, w, p, i);
        if p(log[k]) {
          CountPositive(log[..n], k, inside);
        }
      }
    }
  }

  /** An event of another minute empties the bucket: it loses what was due, and only then something is lost. */
  lemma TakenOver(log: seq<Event>, n: nat, now: nat, w: int, p: Event -> bool, i: nat)
    requires n < |log| && Home(log[n].slot) == i
    requires Kept(log, n, i) == [] || Kept(log, n, i)[0].slot != log[n].slot
    ensures LostIn(log, n + 1, now, w, p, i) <==> Due(log, n, now, w, p, i) > 0
  {
    var last := LastOfBucket(log, n, i);
    var j := DueWitness(log, n, now, w, p, i);
    if Due(log, n, now, w, p, i) > 0 {
      var k := if log[j].slot != log[n].slot then n else last;
      assert Displaced(log, now, w, p, j, k);
    }
  }

  /** An event of the bucket's own minute loses nothing. */
  lemma Continued(log: seq<Event>, n: nat, now: nat, w: int, p: Event -> bool, i: nat)
    requires n < |log|
    requires Home(log[n].slot) == i ==> Kept(log, n, i) != [] && Kept(log, n, i)[0].slot == log[n].slot
    ensures LostIn(log, n + 1, now, w, p, i) <==> LostIn(log, n, now, w, p, i)
  {
    if LostIn(log, n + 1, now, w, p, i) {
      var last := LastOfBucket(log, n, i);
      var j, k :| 0 <= j < k < n + 1 && Home(log[j].slot) == i && Displaced(log, now, w, p, j, k);
      assert Displaced(log, now, w, p, j, if k == n then last else k);
    }
    if LostIn(log, n, now, w, p, i) {
      var j, k :| 0 <= j < k < n && Home(log[j].slot) == i && Displaced(log, now, w, p, j, k);
      assert j < k < n + 1;
    }
  }

  lemma ContributionNext(log: seq<Event>, n: nat, now: nat, w: int, p: Event -> bool, i: nat)
    requires n < |log|
    ensures var e, r := log[n], Kept(log, n, i);
            var one := if Home(e.slot) == i && InWindow(now, w, e.slot) && p(e) then 1 else 0;
            ContributionAt(log, n + 1, now, w, p, i)
              == one + if Home(e.slot) != i || (r != [] && r[0].slot == e.slot)
                       then ContributionAt(log, n, now, w, p, i) else 0
  {
    OneCount(log[n], p);
    CountAppend(Kept(log, n, i), log[n], p);
  }

  ghost predicate ExactIn(log: seq<Event>, n: nat, now: nat, w: int, p: Event -> bool, i: nat)
    requires n <= |log|
  {
    && ContributionAt(log, n, now, w, p, i) <= Due(log, n, now, w, p, i)
    && (ContributionAt(log, n, now, w, p, i) == Due(log, n, now, w, p, i) <==> !LostIn(log, n, now, w, p, i))
  }

  /** A bucket never counts too much, and counts what is due exactly when nothing due was displaced. */
  lemma {:induction false} BucketExactly(log: seq<Event>, n: nat, now: nat, w: int, p: Event -> bool, i: nat)
    requires n <= |log|
    ensures ExactIn(log, n, now, w, p, i)
  {
    if n == 0 {
      assert log[..0] == [];
    } else {
      BucketExactly(log, n - 1, now, w, p, i);
      BucketNext(log, n - 1, now, w, p, i);
    }
  }

  lemma BucketNext(log: seq<Event>, n: nat, now: nat, w: int, p: Event -> bool, i: nat)
    requires n < |log| && ExactIn(log, n, now, w, p, i)
    ensures ExactIn(log, n + 1, now, w, p, i)
  {
    var e, r := log[n], Kept(log, n, i);
    DueNext(log, n, now, w, p, i);
    ContributionNext(log, n, now, w, p, i);
    if Home(e.slot) != i || (r != [] && r[0].slot == e.slot) {
      Continued(log, n, now, w, p, i);
    } else {
      TakenOver(log, n, now, w, p, i);
    }
  }

  /** Some displaced event lies in one of the first k buckets. */
  ghost predicate LostBelow(log: seq<Event>, now: nat, w: int, p: Event -> bool, k: nat) {
    k > 0 && (LostBelow(log, now, w, p, k - 1) || LostIn(log, |log|, now, w, p, k - 1))
  }

  lemma {:induction false} LostBelowMeans(log: seq<Event>, now: nat, w: int, p: Event -> bool, k: nat)
    ensures LostBelow(log, now, w, p, k) <==>
            exists i :: 0 <= i < k && LostIn(log, |log|, now, w, p, i)
  {
    if k > 0 {
      LostBelowMeans(log, now, w, p, k - 1);
    }
  }

  lemma {:induction false} BucketsExactly(log: seq<Event>, now: nat, w: int, p: Event -> bool, k: nat)
    ensures var (c, d) := (Contributions(log, now, w, p, k), Count(log, InBuckets(k, Within(now, w, p))));
            c <= d && (c == d <==> !LostBelow(log, now, w, p, k))
  {
    if k == 0 {
      CountNone(log, InBuckets(0, Within(now, w, p)));
    } else {
      BucketsExactly(log, now, w, p, k - 1);
      BucketExactly(log, |log|, now, w, p, k - 1);
      WholeLog(log, now, w, p, k - 1);
    }
  }

  lemma WholeLog(log: seq<Event>, now: nat, w: int, p: Event -> bool, k: nat)
    ensures Count(log, InBuckets(k + 1, Within(now, w, p)))
         == Count(log, InBuckets(k, Within(now, w, p))) + Due(log, |log|, now, w, p, k)
  {
    CountSplits(log, k, Within(now, w, p));
    assert log[..|log|] == log;
  }

  /** Main result, for every log, clock and window: the buckets never add up to more than the log's events in
      the window, and to all of them exactly when none of those has been displaced. */
  lemma WindowExactly(log: seq<Event>, now: nat, w: int, p: Event -> bool)
    ensures Contributions(log, now, w, p, BUCKETS) <= Count(log, Within(now, w, p))
    ensures Contributions(log, now, w, p, BUCKETS) == Count(log, Within(now, w, p)) <==> !Lost(log, now, w, p)
  {
    BucketsExactly(log, now, w, p, BUCKETS);
    CountSame(log, InBuckets(BUCKETS, Within(now, w, p)), Within(now, w, p));
    LostBelowMeans(log, now, w, p, BUCKETS);
    if Lost(log, now, w, p) {
      var j, k :| 0 <= j < k < |log| && Displaced(log, now, w, p, j, k);
      assert LostIn(log, |log|, now, w, p, Home(log[j].slot));
    }
  }

  /** A timely log with a current clock loses nothing in any window: minutes of one bucket lie an hour apart. */
  lemma TimelyLosesNothing(log: seq<Event>, now: nat, w: int, p: Event -> bool)
    requires Timely(log) && Newest(log, |log|) <= now
    ensures !Lost(log, now, w, p)
  {
    forall j, k | 0 <= j < k < |log|
      ensures !Displaced(log, now, w, p, j, k)
    {
      assert OnTime(log, k);
      NewestBounds(log, k, j);
      NewestBounds(log, |log|, k);
      if Home(log[j].slot) == Home(log[k].slot) {
        SameBucket(log[j].slot, log[k].slot);
      }
    }
  }

  lemma WindowExact(log: seq<Event>, now: nat, w: int, p: Event -> bool)
    requires Timely(log) && Newest(log, |log|) <= now
    ensures Contributions(log, now, w, p, BUCKETS) == Count(log, Within(now, w, p))
  {
    WindowExactly(log, now, w, p);
    TimelyLosesNothing(log, now, w, p);
  }

  /** An event exactly sixty minutes late displaces a live one. */
  lemma LateEventLoses(log: seq<Event>)
    requires log == [Event(100, 0), Event(40, 0)]
    ensures Contributions(log, 100, 1, Any, BUCKETS) == 0 && Count(log, Within(100, 1, Any)) == 1
  {
    var seen := Within(100, 1, Any);
    assert InWindow(100, 1, log[0].slot) && !InWindow(100, 1, log[1].slot);
    assert Any(log[0]) && seen(log[0]) && !seen(log[1]);
    assert log == [log[0]] + [log[1]];
    CountAppend([log[0]], log[1], seen);
    OneCount(log[0], seen);
    forall i: nat
      ensures Contribution(log, 100, 1, Any, i) == 0
    {
      assert Kept(log, 0, i) == [];
      assert Kept(log, 1, i) == if i == 40 then [log[0]] else [];
      assert Kept(log, 2, i) == if i == 40 then [log[1]] else [];
    }
    NothingContributes(log, 100, 1, Any, BUCKETS);
  }

  lemma {:induction false} NothingContributes(log: seq<Event>, now: nat, w: int, p: Event -> bool, k: nat)
    requires forall i: nat :: Contribution(log, now, w, p, i) == 0
    ensures Contributions(log, now, w, p, k) == 0
  {
    if k > 0 {
      NothingContributes(log, now, w, p, k - 1);
    }
  }

  // ---- In plain minutes ----

  /** No event comes an hour or more behind an earlier one, and none is ahead of the clock. */
  ghost predicate Punctual(log: seq<Event>, now: nat) {
    && (forall j, k :: 0 <= j < k < |log| ==> log[j].slot < log[k].slot + 60)
    && (forall k :: 0 <= k < |log| ==> log[k].slot <= now)
  }

  lemma {:induction false} NewestIsOne(log: seq<Event>, n: nat) returns (j: nat)
    requires n <= |log|
    ensures Newest(log, n) == 0 || (j < n && log[j].slot == Newest(log, n))
  {
    j := 0;
    if n > 0 {
      j := NewestIsOne(log, n - 1);
      if log[n - 1].slot > Newest(log, n - 1) {
        j := n - 1;
      }
    }
  }

  lemma PunctualIsTimely(log: seq<Event>, now: nat)
    requires Punctual(log, now)
    ensures Timely(log) && Newest(log, |log|) <= now
  {
    forall k | 0 <= k < |log|
      ensures OnTime(log, k)
    {
      var j := NewestIsOne(log, k);
    }
    var j := NewestIsOne(log, |log|);
  }

  /** A window of w minutes covers that many, but at least one and at most sixty. */
  predicate Covers(w: int, n: int) {
    (1 <= w <= 60 && n == w) || (w < 1 && n == 1) || (w > 60 && n == 60)
  }

  /** Main result in plain terms: with punctual events the buckets count exactly those of the last n minutes,
      at being their places in the log. */
  lemma LastMinutes(log: seq<Event>, now: nat, w: int, n: int, p: Event -> bool) returns (at: set<nat>)
    requires Punctual(log, now) && Covers(w, n)
    ensures forall k: nat :: k in at <==> k < |log| && now - n < log[k].slot <= now && p(log[k])
    ensures Contributions(log, now, w, p, BUCKETS) == |at|
  {
    at := set k: nat | k < |log| && now - n < log[k].slot <= now && p(log[k]);
    PunctualIsTimely(log, now);
    WindowExact(log, now, w, p);
    forall k | 0 <= k < |log|
      ensures k in at <==> Within(now, w, p)(log[k])
    {}
    CountIsCard(log, Within(now, w, p), at);
  }
}
