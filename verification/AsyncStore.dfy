/** The asynchronous log store: writers queue records, one worker writes them in batches to the current
    backend, which may be replaced at any time. One step per lock section, atomic or channel operation;
    a backend takes a batch whole or not at all. */
module AsyncStore {

  const CAPACITY := 4096
  const RETRIES := 1

  datatype Worker =
    | Idle
    | Woken                                                          // has received the wake-up signal
    | Writing(batch: seq<int>, store: nat, tries: nat, flushing: bool)
    | Syncing                                                        // flushing the backend, then acknowledges
    | Exited

  /** The store with its history: what was offered, what was accepted, the records the worker is done with,
      and what reached which backend. refusals and signals count writers past the lock that still have to
      count their refusal or send their wake-up. */
  datatype State = State(
    store: nat, pending: seq<int>, wake: bool, closed: bool, stopped: bool, drop: nat, fails: nat,
    worker: Worker, refusals: nat, signals: nat,
    offered: nat, accepted: seq<int>, passed: seq<int>, written: seq<(nat, int)>)

  function Init(store: nat): State {
    State(store, [], false, false, false, 0, 0, Idle, 0, 0, 0, [], [], [])
  }

  datatype Action =
    | Offer(record: int) | CountRefusal | Signal        // Write
    | Replace(store: nat)
    | FlushAgain                                        // Flush, when it finds the store closed
    | Stop                                              // Close, once Flush has returned
    | Wake | Take | BeginFlush | WriteOk | WriteFails | Sync | Exit

  function Hand(s: State): seq<int> { if s.worker.Writing? then s.worker.batch else [] }

  predicate Enabled(s: State, a: Action) {
    match a
    case Offer(_) => true
    case CountRefusal => s.refusals > 0
    case Signal => s.signals > 0
    case Replace(_) => true
    case FlushAgain => s.closed
    case Stop => s.closed
    case Wake => s.worker.Idle? && s.wake
    case Take => s.worker.Woken?
    case BeginFlush => s.worker.Idle?
    case WriteOk => s.worker.Writing?
    case WriteFails => s.worker.Writing?
    case Sync => s.worker.Syncing?
    case Exit => s.worker.Idle? && s.stopped
  }

  function Tagged(store: nat, batch: seq<int>): (r: seq<(nat, int)>)
    ensures |r| == |batch|
  {
    seq(|batch|, i requires 0 <= i < |batch| => (store, batch[i]))
  }

  function Records(written: seq<(nat, int)>): (r: seq<int>)
    ensures |r| == |written|
  {
    seq(|written|, i requires 0 <= i < |written| => written[i].1)
  }

  /** The worker after a batch is written or given up. */
  function AfterBatch(w: Worker): Worker
    requires w.Writing?
  {
    if w.flushing then Syncing else Idle
  }

  function Apply(s: State, a: Action): State
    requires Enabled(s, a)
  {
    match a
    case Offer(record) =>
      if s.closed || |s.pending| >= CAPACITY then s.(refusals := s.refusals + 1, offered := s.offered + 1)
      else s.(pending := s.pending + [record], signals := s.signals + 1,
              offered := s.offered + 1, accepted := s.accepted + [record])
    case CountRefusal => s.(refusals := s.refusals - 1, drop := s.drop + 1)
    case Signal => s.(signals := s.signals - 1, wake := true)
    case Replace(store) => s.(store := store)
    case FlushAgain => s
    case Stop => s.(stopped := true)
    case Wake => s.(worker := Woken, wake := false)
    case Take =>
      if s.pending == [] then s.(worker := Idle)
      else s.(worker := Writing(s.pending, s.store, 0, false), pending := [])
    case BeginFlush =>
      s.(worker := if s.pending == [] then Syncing else Writing(s.pending, s.store, 0, true),
         pending := [], closed := true)
    case WriteOk =>
      s.(worker := AfterBatch(s.worker), fails := 0, passed := s.passed + s.worker.batch,
         written := s.written + Tagged(s.worker.store, s.worker.batch))
    case WriteFails =>
      if s.worker.tries < RETRIES then s.(worker := s.worker.(tries := s.worker.tries + 1))
      else s.(worker := AfterBatch(s.worker), fails := s.fails + 1, drop := s.drop + |s.worker.batch|,
              passed := s.passed + s.worker.batch)
    case Sync => s.(worker := Idle)
    case Exit => s.(worker := Exited)
  }

  ghost predicate Runs(s: State, log: seq<Action>, t: State)
    decreases |log|
  {
    if log == [] then s == t
    else Enabled(s, log[0]) && Runs(Apply(s, log[0]), log[1..], t)
  }

  // ---- Order ----

  /** a is b with some elements left out. */
  predicate Subsequence(a: seq<int>, b: seq<int>) {
    if b == [] then a == []
    else
      var b' := b[..|b| - 1];
      || Subsequence(a, b')
      || (a != [] && a[|a| - 1] == b[|b| - 1] && Subsequence(a[..|a| - 1], b'))
  }

  lemma {:induction false} SubsequenceSkip(a: seq<int>, b: seq<int>, c: seq<int>)
    requires Subsequence(a, b)
    ensures Subsequence(a, b + c)
  {
    if c == [] {
      assert b + c == b;
    } else {
      SubsequenceSkip(a, b, c[..|c| - 1]);
      assert (b + c)[..|b + c| - 1] == b + c[..|c| - 1];
    }
  }

  lemma {:induction false} SubsequenceBoth(a: seq<int>, b: seq<int>, c: seq<int>)
    requires Subsequence(a, b)
    ensures Subsequence(a + c, b + c)
  {
    if c == [] {
      assert b + c == b && a + c == a;
    } else {
      SubsequenceBoth(a, b, c[..|c| - 1]);
      assert (b + c)[..|b + c| - 1] == b + c[..|c| - 1];
      assert (a + c)[..|a + c| - 1] == a + c[..|c| - 1];
    }
  }

  /** What Subsequence means: an increasing choice of positions. */
  lemma {:induction false} SubsequenceMeans(a: seq<int>, b: seq<int>) returns (at: seq<nat>)
    requires Subsequence(a, b)
    ensures |at| == |a|
    ensures forall i :: 0 <= i < |a| ==> at[i] < |b| && a[i] == b[at[i]]
    ensures forall i, j :: 0 <= i < j < |a| ==> at[i] < at[j]
  {
    if b == [] {
      at := [];
    } else if Subsequence(a, b[..|b| - 1]) {
      at := SubsequenceMeans(a, b[..|b| - 1]);
    } else {
      var init := SubsequenceMeans(a[..|a| - 1], b[..|b| - 1]);
      at := init + [|b| - 1];
    }
  }

  // ---- What every step keeps ----

  ghost predicate Shape(s: State) {
    && |s.pending| <= CAPACITY
    && (s.closed ==> s.pending == [])
    && (s.stopped ==> s.closed)
    && (s.worker.Exited? ==> s.stopped)
    && (s.worker.Writing? ==> s.worker.tries <= RETRIES && s.worker.batch != [] && s.worker.flushing == s.closed)
  }

  /** Every record offered was written, was counted as dropped, waits in the queue, is in the worker's hand,
      or is a refusal about to be counted. */
  ghost predicate Balanced(s: State) {
    s.offered == |s.written| + s.drop + |s.pending| + |Hand(s)| + s.refusals
  }

  ghost predicate InOrder(s: State) {
    && s.accepted == s.passed + Hand(s) + s.pending
    && Subsequence(Records(s.written), s.passed)
  }

  /** A record in the queue has a wake-up on its way or already with the worker. */
  ghost predicate Heard(s: State) {
    s.pending != [] ==> s.wake || s.signals > 0 || s.worker.Woken?
  }

  ghost predicate Inv(s: State) { Shape(s) && Balanced(s) && InOrder(s) && Heard(s) }

  lemma WriteInOrder(s: State)
    requires InOrder(s) && Enabled(s, WriteOk)
    ensures InOrder(Apply(s, WriteOk))
  {
    var added := Tagged(s.worker.store, s.worker.batch);
    assert Records(s.written + added) == Records(s.written) + s.worker.batch;
    SubsequenceBoth(Records(s.written), s.passed, s.worker.batch);
  }

  lemma LossInOrder(s: State)
    requires InOrder(s) && Enabled(s, WriteFails)
    ensures InOrder(Apply(s, WriteFails))
  {
    SubsequenceSkip(Records(s.written), s.passed, s.worker.batch);
  }

  lemma InOrderStep(s: State, a: Action)
    requires Shape(s) && InOrder(s) && Enabled(s, a)
    ensures InOrder(Apply(s, a))
  {
    if a.WriteOk? {
      WriteInOrder(s);
    } else if a.WriteFails? {
      LossInOrder(s);
    } else {
      var t := Apply(s, a);
      assert t.written == s.written && t.passed == s.passed;
    }
  }

  lemma BooksStep(s: State, a: Action)
    requires Shape(s) && Balanced(s) && Enabled(s, a)
    ensures Balanced(Apply(s, a))
  {}

  lemma HeardStep(s: State, a: Action)
    requires Shape(s) && Heard(s) && Enabled(s, a)
    ensures Heard(Apply(s, a))
  {}

  lemma ShapeStep(s: State, a: Action)
    requires Shape(s) && Enabled(s, a)
    ensures Shape(Apply(s, a))
  {}

  lemma StepInv(s: State, a: Action)
    requires Inv(s) && Enabled(s, a)
    ensures Inv(Apply(s, a))
  {
    ShapeStep(s, a);
    BooksStep(s, a);
    HeardStep(s, a);
    InOrderStep(s, a);
  }

  lemma {:induction false} RunInv(s: State, log: seq<Action>, t: State)
    requires Inv(s) && Runs(s, log, t)
    ensures Inv(t)
    decreases |log|
  {
    if log != [] {
      StepInv(s, log[0]);
      RunInv(Apply(s, log[0]), log[1..], t);
    }
  }

  /** A record offered is accepted, at the queue's end, exactly when the store is open and fewer than 4096 wait. */
  lemma OfferedExactly(s: State, record: int)
    requires Enabled(s, Offer(record))
    ensures var t := Apply(s, Offer(record));
      if !s.closed && |s.pending| < 4096
      then (t.accepted, t.pending, t.refusals) == (s.accepted + [record], s.pending + [record], s.refusals)
      else (t.accepted, t.pending, t.refusals) == (s.accepted, s.pending, s.refusals + 1)
  {}

  function TakenBy(s: State, a: Action): seq<int> {
    if a.Offer? && !s.closed && |s.pending| < 4096 then [a.record] else []
  }

  /** The offers of a run that find the store open and room in the queue, in their order. */
  ghost function Welcome(s: State, log: seq<Action>): seq<int>
    decreases |log|
  {
    if log == [] || !Enabled(s, log[0]) then []
    else TakenBy(s, log[0]) + Welcome(Apply(s, log[0]), log[1..])
  }

  lemma AcceptedStep(s: State, a: Action)
    requires Enabled(s, a)
    ensures Apply(s, a).accepted == s.accepted + TakenBy(s, a)
  {}

  /** Exactly those are accepted. */
  lemma {:induction false} AcceptedAreWelcome(s: State, log: seq<Action>, t: State)
    requires Runs(s, log, t)
    ensures t.accepted == s.accepted + Welcome(s, log)
    decreases |log|
  {
    if log == [] {
      assert s.accepted + [] == s.accepted;
    } else {
      AcceptedStep(s, log[0]);
      AcceptedAreWelcome(Apply(s, log[0]), log[1..], t);
      var (one, more) := (TakenBy(s, log[0]), Welcome(Apply(s, log[0]), log[1..]));
      assert s.accepted + one + more == s.accepted + (one + more);
    }
  }

  /** Main result: the books balance and order is kept in every state the store can reach. */
  lemma ReachableInv(store: nat, log: seq<Action>, t: State)
    requires Runs(Init(store), log, t)
    ensures Balanced(t) && |t.pending| <= CAPACITY && Subsequence(Records(t.written), t.accepted)
  {
    RunInv(Init(store), log, t);
    SubsequenceSkip(Records(t.written), t.passed, Hand(t) + t.pending);
    assert t.passed + Hand(t) + t.pending == t.passed + (Hand(t) + t.pending);
  }

  /** Every accepted record has been written or given up, every offered one written, counted or about to be. */
  ghost predicate AllAccounted(s: State) {
    s.accepted == s.passed && s.offered == |s.written| + s.drop + s.refusals
  }

  /** Once closed nothing more is accepted, and as soon as the worker's hand is empty every accepted record
      has been written or given up and every offered one written or counted, but for refusals under way. */
  lemma {:induction false} AfterFlush(s: State, log: seq<Action>, t: State)
    requires Inv(s) && s.closed && Runs(s, log, t)
    ensures t.closed && t.accepted == s.accepted && t.pending == []
    ensures Hand(t) == [] ==> AllAccounted(t)
    decreases |log|
  {
    if log != [] {
      StepInv(s, log[0]);
      AfterFlush(Apply(s, log[0]), log[1..], t);
    }
  }

  /** A Flush or Close that finds the store closed returns at once. It may rely on every accepted record being
      written or counted exactly when the flush that closed the store is not writing its batch any more. */
  lemma FlushedExactly(store: nat, log: seq<Action>, s: State)
    requires Runs(Init(store), log, s) && Enabled(s, FlushAgain)
    ensures AllAccounted(s) <==> !s.worker.Writing?
  {
    RunInv(Init(store), log, s);
    if s.worker.Writing? {
      assert |s.passed + Hand(s) + s.pending| > |s.passed|;
    }
  }

  /** It may return early: Close gets as far as closing the backend with a record still in the worker's hand. */
  lemma SecondFlushReturnsEarly(store: nat, record: int) returns (log: seq<Action>, s: State)
    ensures Runs(Init(store), log, s) && log == [Offer(record), Signal, BeginFlush, FlushAgain, Stop]
    ensures s.stopped && Hand(s) == [record] && s.accepted == [record] && s.written == [] && !AllAccounted(s)
  {
    log := [Offer(record), Signal, BeginFlush, FlushAgain, Stop];
    var a := Init(store);
    var b := Apply(a, Offer(record));
    var c := Apply(b, Signal);
    var d := Apply(c, BeginFlush);
    s := Apply(d, Stop);
    OneStep(d, Stop);
    assert log[4..] == [Stop] && log[3..][1..] == log[4..];
    assert Runs(d, log[3..], s);
    assert log[2..][1..] == log[3..] && log[1..][1..] == log[2..];
    assert Runs(c, log[2..], s);
  }

  // ---- No record waits for ever ----

  function Work(s: State): nat {
    (if s.pending == [] then 0 else 10) +
    match s.worker
    case Writing(_, _, _, _) => 4
    case Syncing => 3
    case Idle => if s.wake then 1 else 2
    case Woken => 0
    case Exited => 0
  }

  /** Without further offers, the worker alone (and writers finishing their wake-up) can empty the queue. */
  lemma {:induction false} CanDrain(s: State) returns (log: seq<Action>, t: State)
    requires Inv(s)
    ensures Runs(s, log, t) && t.pending == [] && Hand(t) == [] && t.accepted == s.accepted
    ensures forall a :: a in log ==> !a.Offer? && !a.BeginFlush? && !a.WriteFails?
    decreases Work(s)
  {
    if s.pending == [] && Hand(s) == [] && !s.worker.Writing? {
      log, t := [], s;
    } else {
      var a := match s.worker
        case Writing(_, _, _, _) => WriteOk
        case Syncing => Sync
        case Woken => Take
        case _ => if s.wake then Wake else Signal;
      StepInv(s, a);
      var rest;
      rest, t := CanDrain(Apply(s, a));
      log := [a] + rest;
      assert log[1..] == rest;
    }
  }

  // ---- The store's methods, each run by itself ----

  lemma OneStep(s: State, a: Action)
    requires Enabled(s, a)
    ensures Runs(s, [a], Apply(s, a))
  {
    assert [a][1..] == [];
  }

  lemma {:induction false} Then(s: State, log: seq<Action>, t: State, a: Action)
    requires Runs(s, log, t) && Enabled(t, a)
    ensures Runs(s, log + [a], Apply(t, a))
    decreases |log|
  {
    if log == [] {
      OneStep(t, a);
      assert log + [a] == [a];
    } else {
      Then(Apply(s, log[0]), log[1..], t, a);
      assert (log + [a])[1..] == log[1..] + [a];
    }
  }

  /** The state after a batch's tries: taken at the first or second, or given up. */
  function Attempted(s: State, attempts: seq<bool>): State
    requires |attempts| == RETRIES + 1 && s.worker.Writing? && s.worker.tries == 0
  {
    if attempts[0] then Apply(s, WriteOk)
    else Apply(Apply(s, WriteFails), if attempts[1] then WriteOk else WriteFails)
  }

  lemma AttemptedInv(s: State, attempts: seq<bool>)
    requires |attempts| == RETRIES + 1 && s.worker.Writing? && s.worker.tries == 0 && Inv(s)
    ensures Inv(Attempted(s, attempts))
  {
    if attempts[0] {
      StepInv(s, WriteOk);
    } else {
      StepInv(s, WriteFails);
      StepInv(Apply(s, WriteFails), if attempts[1] then WriteOk else WriteFails);
    }
  }

  /** A batch is written whole and once, or not at all and then counted whole. */
  lemma AttemptedMeans(s: State, attempts: seq<bool>)
    requires |attempts| == RETRIES + 1 && s.worker.Writing? && s.worker.tries == 0
    ensures var (t, batch) := (Attempted(s, attempts), s.worker.batch);
      && t.worker == AfterBatch(s.worker) && t.passed == s.passed + batch
      && (t.store, t.pending, t.wake, t.closed, t.offered, t.accepted, t.refusals)
         == (s.store, s.pending, s.wake, s.closed, s.offered, s.accepted, s.refusals)
      && (if attempts[0] || attempts[1] then
            t.written == s.written + Tagged(s.worker.store, batch) && t.drop == s.drop && t.fails == 0
          else t.written == s.written && t.drop == s.drop + |batch| && t.fails == s.fails + 1)
  {}

  class AsyncStoreState {
    var store: nat
    var pending: seq<int>
    var wake: bool
    var closed: bool
    var drop: nat
    var fails: nat
    ghost var history: State

    /** The fields are those of a reachable state; history adds where the worker stands and what was. */
    ghost predicate Valid()
      reads this
    {
      && Inv(history)
      && (store, pending, wake, closed, drop, fails)
         == (history.store, history.pending, history.wake, history.closed, history.drop, history.fails)
    }

    constructor (store: nat)
      ensures Valid() && history == Init(store)
    {
      this.store, pending, wake, closed, drop, fails := store, [], false, false, 0, 0;
      history := Init(store);
    }

    /** Queue the record and wake the worker, or count it as dropped when closed or full. */
    method Write(record: int) returns (ghost log: seq<Action>)
      requires Valid()
      modifies this
      ensures Valid() && Runs(old(history), log, history)
      ensures log == [Offer(record), if old(closed) || |old(pending)| >= CAPACITY then CountRefusal else Signal]
    {
      ghost var h := history;
      StepInv(h, Offer(record));
      OneStep(h, Offer(record));
      history := Apply(h, Offer(record));
      ghost var last := if closed || |pending| >= CAPACITY then CountRefusal else Signal;
      Then(h, [Offer(record)], history, last);
      StepInv(history, last);
      history := Apply(history, last);
      log := [Offer(record)] + [last];
      if closed {
        drop := drop + 1;
        return;
      }
      if |pending| >= CAPACITY {
        drop := drop + 1;
        return;
      }
      pending := pending + [record];
      if !wake {
        wake := true;
      }
    }

    /** Exchange the backend; queued records go to the new one. */
    method SwitchTo(s: nat) returns (before: nat)
      requires Valid()
      modifies this
      ensures Valid() && before == old(store) && history == Apply(old(history), Replace(s))
    {
      StepInv(history, Replace(s));
      before := store;
      store := s;
      history := Apply(history, Replace(s));
    }

    /** Try a batch, again once if it fails, and give it up then; attempts says which tries the backend takes. */
    method WriteBatchWithRetry(batch: seq<int>, attempts: seq<bool>) returns (ok: bool)
      requires Valid() && |attempts| == RETRIES + 1
      requires history.worker.Writing? && history.worker.batch == batch && history.worker.tries == 0
      modifies this
      ensures Valid() && history == Attempted(old(history), attempts)
      ensures ok == (attempts[0] || attempts[1])
    {
      AttemptedInv(history, attempts);
      ghost var end := Attempted(history, attempts);
      var i := 0;
      while i <= RETRIES
        invariant 0 <= i <= RETRIES + 1 && forall k :: 0 <= k < i ==> !attempts[k]
      {
        if attempts[i] {
          fails := 0;
          history := end;
          return true;
        }
        i := i + 1;
      }
      fails := fails + 1;
      drop := drop + |batch|;
      history := end;
      ok := false;
    }

    /** The worker's turn after a wake-up: take all that waits, and write it to the backend of that moment. */
    method WritePending(attempts: seq<bool>)
      requires Valid() && |attempts| == RETRIES + 1 && history.worker.Woken?
      modifies this
      ensures Valid() && pending == [] && history.worker.Idle?
      ensures history.passed == old(history).passed + old(pending)
      ensures old(pending) == [] || attempts[0] || attempts[1] ==>
        history.written == old(history).written + Tagged(old(store), old(pending)) && drop == old(drop)
      ensures old(pending) != [] && !attempts[0] && !attempts[1] ==>
        history.written == old(history).written && drop == old(drop) + |old(pending)| && fails == old(fails) + 1
    {
      StepInv(history, Take);
      history := Apply(history, Take);
      if pending == [] {
        return;
      }
      var batch := pending;
      pending := [];
      AttemptedMeans(history, attempts);
      var ok := WriteBatchWithRetry(batch, attempts);
    }

    /** A flush: nothing is accepted from here on, and all that waited is written or given up; then the backend
        is flushed, and the answer is an error when either failed. */
    method FlushAll(attempts: seq<bool>, synced: bool) returns (ok: bool)
      requires Valid() && |attempts| == RETRIES + 1 && history.worker.Idle?
      modifies this
      ensures Valid() && closed && pending == [] && history.worker.Idle?
      ensures ok == ((old(pending) == [] || attempts[0] || attempts[1]) && synced)
      ensures history.written == old(history).written
                + if attempts[0] || attempts[1] then Tagged(old(store), old(pending)) else []
      ensures history.accepted == history.passed == old(history).accepted
      ensures history.offered == |history.written| + drop + history.refusals
    {
      StepInv(history, BeginFlush);
      history := Apply(history, BeginFlush);
      var batch := pending;
      pending, closed := [], true;
      ok := true;
      if |batch| > 0 {
        AttemptedMeans(history, attempts);
        ok := WriteBatchWithRetry(batch, attempts);
      }
      ok := ok && synced;
      StepInv(history, Sync);
      history := Apply(history, Sync);
    }
  }
}
