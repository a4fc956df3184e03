/** The two sliding-window counters built on the ring: request metrics and blocked events by type. */
module Counters {
  import opened Counting
  import opened Ring

  function IsError(e: Event): bool { e.kind >= 400 }

  function OfType(t: int): Event -> bool { (e: Event) => e.kind == t }

  /** Minute zero stands for "never used" in the event counter, so its events stay unseen. */
  function Started(p: Event -> bool): Event -> bool { (e: Event) => e.slot != 0 && p(e) }

  // ---- Request metrics ----

  datatype Bucket = Unused | Used(slot: nat, count: nat, errors: nat)

  ghost function Summary(r: seq<Event>): Bucket {
    if r == [] then Unused else Used(r[0].slot, Count(r, Any), Count(r, IsError))
  }

  /** One more event of the same minute adds to the bucket; one of another minute replaces it. */
  lemma KeptAfter(log: seq<Event>, e: Event, i: nat)
    ensures Kept(log + [e], |log| + 1, i) ==
            var r := Kept(log, |log|, i);
            if Home(e.slot) != i then r else if r != [] && r[0].slot == e.slot then r + [e] else [e]
  {
    KeptPrefix(log, e, |log|, i);
  }

  lemma {:induction false} KeptPrefix(log: seq<Event>, e: Event, n: nat, i: nat)
    requires n <= |log|
    ensures Kept(log + [e], n, i) == Kept(log, n, i)
  {
    if n > 0 {
      KeptPrefix(log, e, n - 1, i);
    }
  }

  lemma SummaryMore(r: seq<Event>, e: Event)
    ensures var own := if r != [] && r[0].slot == e.slot then Summary(r) else Used(e.slot, 0, 0);
            Summary(if r != [] && r[0].slot == e.slot then r + [e] else [e])
              == Used(e.slot, own.count + 1, own.errors + if e.kind >= 400 then 1 else 0)
  {
    CountAppend(r, e, Any);
    CountAppend(r, e, IsError);
    OneCount(e, Any);
    OneCount(e, IsError);
  }

  class Metrics {
    const buckets: array<Bucket>
    ghost var log: seq<Event>

    ghost predicate Valid()
      reads this, buckets
    {
      buckets.Length == BUCKETS &&
      forall i: nat | i < BUCKETS :: buckets[i] == Summary(Kept(log, |log|, i))
    }

    constructor ()
      ensures Valid() && fresh(buckets) && log == []
    {
      buckets := new Bucket[BUCKETS](_ => Unused);
      log := [];
    }

    method Add(nowMs: nat, code: int)
      requires Valid()
      modifies this`log, buckets
      ensures Valid() && log == old(log) + [Event(nowMs / 60000, code)]
    {
      var slot := nowMs / BUCKET_MS;
      ghost var e := Event(slot, code);
      var i := slot % BUCKETS;
      var b := buckets[i];
      if b.Unused? || b.slot != slot {
        b := Used(slot, 0, 0);
      }
      b := b.(count := b.count + 1);
      if code >= 400 {
        b := b.(errors := b.errors + 1);
      }
      SummaryMore(Kept(log, |log|, i), e);
      buckets[i] := b;
      log := log + [e];
      forall k: nat | k < BUCKETS
        ensures buckets[k] == Summary(Kept(log, |log|, k))
      {
        KeptAfter(old(log), e, k);
      }
    }

    /** The window's totals are the log's exactly when none of the events to count has been displaced; so
        whenever no event came an hour late and the clock is current. */
    method Snapshot(nowMs: nat, windowMs: int) returns (total: nat, errs: nat)
      requires Valid()
      ensures total == Contributions(log, nowMs / 60000, windowMs / 60000, Any, BUCKETS)
      ensures errs == Contributions(log, nowMs / 60000, windowMs / 60000, IsError, BUCKETS)
      ensures total == Count(log, Within(nowMs / BUCKET_MS, windowMs / BUCKET_MS, Any)) <==>
              !Lost(log, nowMs / BUCKET_MS, windowMs / BUCKET_MS, Any)
      ensures errs == Count(log, Within(nowMs / BUCKET_MS, windowMs / BUCKET_MS, IsError)) <==>
              !Lost(log, nowMs / BUCKET_MS, windowMs / BUCKET_MS, IsError)
      ensures Timely(log) && Newest(log, |log|) <= nowMs / BUCKET_MS ==>
                && total == Count(log, Within(nowMs / BUCKET_MS, windowMs / BUCKET_MS, Any))
                && errs == Count(log, Within(nowMs / BUCKET_MS, windowMs / BUCKET_MS, IsError))
    {
      var now, w := nowMs / BUCKET_MS, windowMs / BUCKET_MS;
      var winSlots := w;
      if winSlots < 1 {
        winSlots := 1;
      }
      if winSlots > BUCKETS {
        winSlots := BUCKETS;
      }
      total, errs := 0, 0;
      var i := 0;
      while i < buckets.Length
        invariant i <= BUCKETS && winSlots == WindowSlots(w)
        invariant total == Contributions(log, now, w, Any, i)
        invariant errs == Contributions(log, now, w, IsError, i)
      {
        var b := buckets[i];
        if b.Used? && b.slot <= now && now - b.slot < winSlots {
          total := total + b.count;
          errs := errs + b.errors;
        }
        i := i + 1;
      }
      WindowExactly(log, now, w, Any);
      WindowExactly(log, now, w, IsError);
      if Timely(log) && Newest(log, |log|) <= now {
        WindowExact(log, now, w, Any);
        WindowExact(log, now, w, IsError);
      }
    }
  }

  // ---- Blocked events by type ----

  datatype TypeBucket = TypeBucket(slot: nat, total: nat, counts: seq<nat>)

  ghost predicate Holds(b: TypeBucket, r: seq<Event>) {
    && b.slot == (if r == [] then 0 else r[0].slot)
    && b.total == Count(r, Any)
    && |b.counts| == TYPES
    && (forall t | 0 < t <= TYPES :: b.counts[t - 1] == Count(r, OfType(t)))
  }

  lemma {:induction false} KeptOneMinute(log: seq<Event>, n: nat, i: nat)
    requires n <= |log|
    ensures forall e | e in Kept(log, n, i) :: e.slot == Kept(log, n, i)[0].slot
  {
    if n > 0 {
      KeptOneMinute(log, n - 1, i);
    }
  }

  lemma ContributionStarted(log: seq<Event>, now: nat, w: int, p: Event -> bool, i: nat)
    ensures Contribution(log, now, w, Started(p), i) ==
            var r := Kept(log, |log|, i);
            if r != [] && r[0].slot != 0 && InWindow(now, w, r[0].slot) then Count(r, p) else 0
  {
    var r := Kept(log, |log|, i);
    KeptOneMinute(log, |log|, i);
    if r != [] && r[0].slot != 0 {
      CountSame(r, Started(p), p);
    } else {
      CountNone(r, Started(p));
    }
  }

  function CountOf(byType: map<int, nat>, t: int): nat { if t in byType then byType[t] else 0 }

  /** A bucket after one event of minute slot: taken over when it held another minute, then counted up. */
  function Bumped(b: TypeBucket, slot: nat, blockType: int): TypeBucket
    requires |b.counts| == TYPES
  {
    var own := if b.slot == slot then b else TypeBucket(slot, 0, seq(TYPES, _ => 0));
    TypeBucket(slot, own.total + 1,
      if 1 <= blockType <= TYPES then own.counts[blockType - 1 := own.counts[blockType - 1] + 1] else own.counts)
  }

  lemma HoldsMore(b: TypeBucket, r: seq<Event>, e: Event)
    requires Holds(b, r)
    ensures Holds(Bumped(b, e.slot, e.kind), if r != [] && r[0].slot == e.slot then r + [e] else [e])
  {
    CountAppend(r, e, Any);
    OneCount(e, Any);
    forall t | 0 < t <= TYPES
      ensures Count([e], OfType(t)) == if e.kind == t then 1 else 0
      ensures Count(r + [e], OfType(t)) == Count(r, OfType(t)) + if e.kind == t then 1 else 0
    {
      OneCount(e, OfType(t));
      CountAppend(r, e, OfType(t));
    }
  }

  /** What the first k buckets report for type t. */
  ghost function Tally(log: seq<Event>, now: nat, w: int, t: int, k: nat): nat {
    Contributions(log, now, w, Started(OfType(t)), k)
  }

  /** Each reported number is the log's exactly when none of the events it counts has been displaced. */
  lemma TalliesExactly(log: seq<Event>, now: nat, w: int)
    ensures Contributions(log, now, w, Started(Any), BUCKETS) == Count(log, Within(now, w, Started(Any))) <==>
            !Lost(log, now, w, Started(Any))
    ensures forall t :: Tally(log, now, w, t, BUCKETS) == Count(log, Within(now, w, Started(OfType(t)))) <==>
                        !Lost(log, now, w, Started(OfType(t)))
    ensures Timely(log) && Newest(log, |log|) <= now ==>
              && !Lost(log, now, w, Started(Any))
              && forall t :: !Lost(log, now, w, Started(OfType(t)))
  {
    WindowExactly(log, now, w, Started(Any));
    forall t
      ensures Tally(log, now, w, t, BUCKETS) == Count(log, Within(now, w, Started(OfType(t)))) <==>
              !Lost(log, now, w, Started(OfType(t)))
      ensures Timely(log) && Newest(log, |log|) <= now ==> !Lost(log, now, w, Started(OfType(t)))
    {
      WindowExactly(log, now, w, Started(OfType(t)));
      if Timely(log) && Newest(log, |log|) <= now {
        TimelyLosesNothing(log, now, w, Started(OfType(t)));
      }
    }
    if Timely(log) && Newest(log, |log|) <= now {
      TimelyLosesNothing(log, now, w, Started(Any));
    }
  }

  /** What a bucket adds to the totals. */
  lemma BucketCounts(log: seq<Event>, now: nat, w: int, i: nat, b: TypeBucket)
    requires Holds(b, Kept(log, |log|, i))
    ensures var inside := b.slot != 0 && b.slot <= now && now - b.slot < WindowSlots(w) && b.total != 0;
      && Contributions(log, now, w, Started(Any), i + 1)
         == Contributions(log, now, w, Started(Any), i) + (if inside then b.total else 0)
      && forall t | 0 < t <= TYPES :: Tally(log, now, w, t, i + 1)
           == Tally(log, now, w, t, i) + if inside then b.counts[t - 1] else 0
  {
    var r := Kept(log, |log|, i);
    assert r != [] ==> Any(r[|r| - 1]) && b.total > 0;
    ContributionStarted(log, now, w, Any, i);
    forall t | 0 < t <= TYPES
      ensures Contribution(log, now, w, Started(OfType(t)), i)
           == if b.slot != 0 && InWindow(now, w, b.slot) then b.counts[t - 1] else 0
    {
      ContributionStarted(log, now, w, OfType(t), i);
    }
  }

  /** The counts by type are those of the first n buckets, and only types with events are present. */
  ghost predicate Tallied(byType: map<int, nat>, log: seq<Event>, now: nat, w: int, n: nat) {
    && (forall t :: CountOf(byType, t) == if 0 < t <= TYPES then Tally(log, now, w, t, n) else 0)
    && forall t <- byType :: byType[t] > 0
  }

  class EventCounter {
    const buckets: array<TypeBucket>
    ghost var log: seq<Event>

    ghost predicate Valid()
      reads this, buckets
    {
      buckets.Length == BUCKETS &&
      forall i: nat | i < BUCKETS :: Holds(buckets[i], Kept(log, |log|, i))
    }

    constructor ()
      ensures Valid() && fresh(buckets) && log == []
    {
      buckets := new TypeBucket[BUCKETS](_ => TypeBucket(0, 0, seq(TYPES, _ => 0)));
      log := [];
    }

    /** A type outside 1..10 is counted in the total alone. */
    method Add(blockType: int, nowMs: nat)
      requires Valid()
      modifies this`log, buckets
      ensures Valid() && log == old(log) + [Event(nowMs / 60000, blockType)]
    {
      var slot := nowMs / BUCKET_MS;
      ghost var e := Event(slot, blockType);
      var i := slot % BUCKETS;
      assert Holds(buckets[i], Kept(log, |log|, i));
      var b := buckets[i];
      if b.slot != slot {
        b := TypeBucket(slot, 0, seq(TYPES, _ => 0));
      }
      b := b.(total := b.total + 1);
      if 1 <= blockType <= TYPES {
        b := b.(counts := b.counts[blockType - 1 := b.counts[blockType - 1] + 1]);
      }
      HoldsMore(buckets[i], Kept(log, |log|, i), e);
      assert b == Bumped(buckets[i], slot, blockType);
      buckets[i] := b;
      log := log + [e];
      forall k: nat | k < BUCKETS
        ensures Holds(buckets[k], Kept(log, |log|, k))
      {
        KeptAfter(old(log), e, k);
      }
    }

    /** Totals by type over the window, each exactly the log's when none of its events has been displaced. */
    method Snapshot(nowMs: nat, windowMs: int) returns (total: nat, byType: map<int, nat>)
      requires Valid()
      ensures total == Contributions(log, nowMs / 60000, windowMs / 60000, Started(Any), BUCKETS)
      ensures forall t :: CountOf(byType, t) ==
                if 1 <= t <= 10 then Tally(log, nowMs / 60000, windowMs / 60000, t, BUCKETS) else 0
      ensures forall t <- byType :: byType[t] > 0
      ensures total == Count(log, Within(nowMs / BUCKET_MS, windowMs / BUCKET_MS, Started(Any))) <==>
              !Lost(log, nowMs / BUCKET_MS, windowMs / BUCKET_MS, Started(Any))
      ensures forall t | 0 < t <= TYPES ::
                CountOf(byType, t) == Count(log, Within(nowMs / BUCKET_MS, windowMs / BUCKET_MS, Started(OfType(t)))) <==>
                !Lost(log, nowMs / BUCKET_MS, windowMs / BUCKET_MS, Started(OfType(t)))
      ensures Timely(log) && Newest(log, |log|) <= nowMs / BUCKET_MS ==>
                && total == Count(log, Within(nowMs / BUCKET_MS, windowMs / BUCKET_MS, Started(Any)))
                && forall t | 0 < t <= TYPES :: CountOf(byType, t)
                     == Count(log, Within(nowMs / BUCKET_MS, windowMs / BUCKET_MS, Started(OfType(t))))
    {
      var now, w := nowMs / BUCKET_MS, windowMs / BUCKET_MS;
      var winSlots := w;
      if winSlots < 1 {
        winSlots := 1;
      }
      if winSlots > BUCKETS {
        winSlots := BUCKETS;
      }
      total, byType := Gather(now, w, winSlots);
      TalliesExactly(log, now, w);
    }

    /** Adds up the buckets inside the window. */
    method Gather(now: nat, ghost w: int, winSlots: int) returns (total: nat, byType: map<int, nat>)
      requires Valid() && winSlots == WindowSlots(w)
      ensures total == Contributions(log, now, w, Started(Any), BUCKETS)
      ensures Tallied(byType, log, now, w, BUCKETS)
    {
      total, byType := 0, map[];
      var i := 0;
      while i < buckets.Length
        invariant i <= BUCKETS
        invariant total == Contributions(log, now, w, Started(Any), i)
        invariant Tallied(byType, log, now, w, i)
      {
        var b := buckets[i];
        assert Holds(b, Kept(log, |log|, i));
        BucketCounts(log, now, w, i, b);
        if b.slot != 0 && b.slot <= now && now - b.slot < winSlots && b.total != 0 {
          total := total + b.total;
          byType := AddCounts(byType, b.counts);
        }
        i := i + 1;
      }
    }

    static method AddCounts(before: map<int, nat>, counts: seq<nat>) returns (byType: map<int, nat>)
      requires |counts| == TYPES
      requires forall t <- before :: before[t] > 0
      ensures forall t :: CountOf(byType, t) ==
                CountOf(before, t) + if 0 < t <= TYPES then counts[t - 1] else 0
      ensures forall t <- byType :: byType[t] > 0
    {
      byType := before;
      var j := 0;
      while j < |counts|
        invariant j <= |counts|
        invariant forall t :: CountOf(byType, t) ==
                    CountOf(before, t) + if 0 < t <= j then counts[t - 1] else 0
        invariant forall t <- byType :: byType[t] > 0
      {
        if counts[j] > 0 {
          byType := byType[j + 1 := CountOf(byType, j + 1) + counts[j]];
        }
        j := j + 1;
      }
    }
  }

  // ---- The numbers in plain terms ----

  /** With punctual events the metrics are the requests of the last n minutes, and those answered with 400 or
      above; requests and errors are their places in the log. */
  lemma MetricsMean(log: seq<Event>, now: nat, w: int, n: int) returns (requests: set<nat>, errors: set<nat>)
    requires Punctual(log, now) && Covers(w, n)
    ensures forall k: nat :: k in requests <==> k < |log| && now - n < log[k].slot <= now
    ensures forall k: nat :: k in errors <==> k < |log| && now - n < log[k].slot <= now && log[k].kind >= 400
    ensures Contributions(log, now, w, Any, BUCKETS) == |requests|
    ensures Contributions(log, now, w, IsError, BUCKETS) == |errors|
  {
    requests := LastMinutes(log, now, w, n, Any);
    errors := LastMinutes(log, now, w, n, IsError);
    forall k: nat | k < |log|
      ensures Any(log[k]) && (IsError(log[k]) <==> log[k].kind >= 400)
    {}
  }

  /** And the event counter's numbers are the events of the last n minutes, minute zero excepted, in all and by
      type. */
  lemma EventsMean(log: seq<Event>, now: nat, w: int, n: int, t: int) returns (all: set<nat>, typed: set<nat>)
    requires Punctual(log, now) && Covers(w, n)
    ensures forall k: nat :: k in all <==> k < |log| && now - n < log[k].slot <= now && log[k].slot != 0
    ensures forall k: nat :: k in typed <==> k < |log| && k in all && log[k].kind == t
    ensures Contributions(log, now, w, Started(Any), BUCKETS) == |all|
    ensures Tally(log, now, w, t, BUCKETS) == |typed|
  {
    all := LastMinutes(log, now, w, n, Started(Any));
    typed := LastMinutes(log, now, w, n, Started(OfType(t)));
    forall k: nat | k < |log|
      ensures Started(Any)(log[k]) <==> log[k].slot != 0
      ensures Started(OfType(t))(log[k]) <==> log[k].slot != 0 && log[k].kind == t
    {
      assert OfType(t)(log[k]) <==> log[k].kind == t;
      assert Any(log[k]);
    }
  }
}
