/** The mutex of the pool is always given back: whatever its holder is in the middle of, steps of its own, of
    the workers and of submitters already at the queue bring it to the end. */
module PoolProgress {
  import opened Counting
  import opened WorkPool
  import PoolCount
  import PoolFlow

  /** A start with at least one worker, on a machine with at least one processor. */
  predicate Sane(cfg: Config) { cfg.initial >= 1 && cfg.cpus >= 1 }

  predicate Changing(m: Admin) {
    m.Starting? || m.Reserved? || m.Raised? || m.Swapped? || m.Draining? || m.Forwarding?
  }

  /** Queues hold something; a started pool that is not stopped aims at one worker at least; and the phases of
      the mutex holder go with what has been stored. */
  ghost predicate Base(s: Pool) {
    && (forall c :: 0 <= c < |s.channels| ==> s.channels[c].capacity > 0)
    && (s.started && !s.stopped && !s.admin.StartClaimed? ==> s.target >= 1)
    && (Changing(s.admin) || s.admin.StartClaimed? ==> s.started && !s.stopped)
    && (s.admin.Starting? ==> s.admin.owed > 0)
    && (s.admin.StopWaiting? ==> s.quitClosed && s.target == 0)
  }

  lemma AdminBase(cfg: Config, s: Pool, m: AdminStep)
    requires Sane(cfg) && PoolCount.Phases(s) && Base(s) && AdminEnabled(s, m)
    ensures Base(ApplyAdmin(cfg, s, m))
  {}

  /** Where nothing but the queue's content changes. */
  lemma SameBase(s: Pool, t: Pool)
    requires Base(s) && |t.channels| == |s.channels|
    requires forall c :: 0 <= c < |s.channels| ==> t.channels[c].capacity == s.channels[c].capacity
    requires (t.started, t.stopped, t.quitClosed, t.target, t.admin)
          == (s.started, s.stopped, s.quitClosed, s.target, s.admin)
    ensures Base(t)
  {}

  lemma StepBase(cfg: Config, s: Pool, a: Action)
    requires Sane(cfg) && PoolCount.Phases(s) && Base(s) && Enabled(s, a)
    ensures Base(Apply(cfg, s, a))
  {
    match a {
      case Manage(m) =>
        AdminBase(cfg, s, m);
      case Call(i, c) =>
        PoolCount.CallFrame(s, i, c);
        SameBase(s, ApplyCall(s, i, c));
      case Work(w, k) =>
        WorkerKeeps(s, w, k);
        SameBase(s, ApplyWork(s, w, k));
      case _ =>
        SameBase(s, Apply(cfg, s, a));
    }
  }

  lemma {:induction false} RunBase(cfg: Config, s: Pool, acts: seq<Action>, t: Pool)
    requires Sane(cfg) && PoolCount.Inv(s) && Base(s) && Runs(cfg, s, acts, t)
    ensures Base(t)
    decreases |acts|
  {
    if acts != [] {
      StepBase(cfg, s, acts[0]);
      PoolCount.StepInv(cfg, s, acts[0]);
      RunBase(cfg, Apply(cfg, s, acts[0]), acts[1..], t);
    }
  }

  lemma ReachableBase(cfg: Config, s: Pool)
    requires Sane(cfg) && Reachable(cfg, s)
    ensures Base(s) && PoolCount.Inv(s) && PoolFlow.Inv(s)
  {
    var size: nat, acts :| size > 0 && Runs(cfg, Init(size), acts, s);
    PoolCount.InitInv(size);
    RunBase(cfg, Init(size), acts, s);
    PoolCount.ReachableInv(cfg, s);
    PoolFlow.ReachableInv(cfg, s);
  }

  lemma ReachableOn(cfg: Config, s: Pool, acts: seq<Action>, t: Pool)
    requires Reachable(cfg, s) && Runs(cfg, s, acts, t)
    ensures Reachable(cfg, t)
  {
    var size: nat, start :| size > 0 && Runs(cfg, Init(size), start, s);
    PoolCount.RunsConcat(cfg, Init(size), start, s, acts, t);
  }

  // ---- Schedules ----

  /** Nobody calls in: only what is under way goes on. */
  predicate GoesOn(a: Action) {
    match a
    case Manage(m) => !m.StartCall? && !m.Resize? && !m.Requeue? && !m.StopCall? && !m.StopAgain?
    case Submit(_) => false
    case Call(_, c) => c.SecondCheck? || c.TrySend?
    case Work(_, _) => true
    case RunRemaining => false
  }

  ghost predicate Leads(cfg: Config, s: Pool, acts: seq<Action>, t: Pool) {
    Runs(cfg, s, acts, t) && forall k :: 0 <= k < |acts| ==> GoesOn(acts[k])
  }

  lemma Nothing(cfg: Config, s: Pool)
    ensures Leads(cfg, s, [], s)
  {}

  lemma First(cfg: Config, s: Pool, a: Action, acts: seq<Action>, t: Pool)
    requires Enabled(s, a) && GoesOn(a) && Leads(cfg, Apply(cfg, s, a), acts, t)
    ensures Leads(cfg, s, [a] + acts, t)
  {
    assert ([a] + acts)[1..] == acts;
  }

  lemma Joined(cfg: Config, s: Pool, a: seq<Action>, t: Pool, b: seq<Action>, u: Pool)
    requires Leads(cfg, s, a, t) && Leads(cfg, t, b, u)
    ensures Leads(cfg, s, a + b, u)
  {
    PoolCount.RunsConcat(cfg, s, a, t, b, u);
  }

  lemma StepReachable(cfg: Config, s: Pool, a: Action)
    requires Reachable(cfg, s) && Enabled(s, a)
    ensures Reachable(cfg, Apply(cfg, s, a))
  {
    assert [a][1..] == [];
    ReachableOn(cfg, s, [a], Apply(cfg, s, a));
  }

  // ---- Starting workers ----

  function StartLeft(m: Admin): nat {
    match m
    case StartClaimed => 1
    case Raised(_, _) => 1
    case Starting(owed) => 2 * owed
    case Reserved(owed) => 2 * owed + 1
    case _ => 0
  }

  /** Started workers are counted and launched one by one. */
  lemma {:induction false} LaunchAll(cfg: Config, s: Pool) returns (acts: seq<Action>, t: Pool)
    requires s.current < |s.channels| && (s.admin.Starting? || s.admin.Reserved?)
    requires s.admin.Starting? ==> s.admin.owed > 0
    ensures Leads(cfg, s, acts, t) && t.admin.Free?
    decreases StartLeft(s.admin)
  {
    var a := Manage(if s.admin.Starting? then Reserve else Launch);
    var u := Apply(cfg, s, a);
    if u.admin.Free? {
      Nothing(cfg, u);
      acts, t := [], u;
    } else {
      acts, t := LaunchAll(cfg, u);
    }
    First(cfg, s, a, acts, t);
    acts := [a] + acts;
  }

  lemma StartEnds(cfg: Config, s: Pool) returns (acts: seq<Action>, t: Pool)
    requires s.current < |s.channels| && (s.admin.StartClaimed? || s.admin.Raised?)
    ensures Leads(cfg, s, acts, t) && t.admin.Free?
  {
    var a := Manage(if s.admin.Raised? then ReadActive else StoreInitial);
    var u := Apply(cfg, s, a);
    if u.admin.Free? {
      Nothing(cfg, u);
      acts, t := [], u;
    } else {
      acts, t := LaunchAll(cfg, u);
    }
    First(cfg, s, a, acts, t);
    acts := [a] + acts;
  }

  // ---- Making room in a full queue ----

  /** How far a counted worker is from taking a task out of the current queue when no worker needs to go. */
  function Distance(s: Pool, pc: Worker): nat {
    match pc
    case Waiting(q) => if q == s.current then 1 else 6
    case Pick => 2
    case Returning => 3
    case LoadedActive(a) => if a <= s.target then 3 else 7
    case Deducted(_) => 4
    case Top => 5
    case Swapping(a) => if a == s.active then 5 else 6
    case Holding(_) => 6
    case _ => 0
  }

  /** The worker will not retire: no more are counted than wanted, and it will take back what it deducted. */
  predicate WillServe(s: Pool, w: nat)
    requires w < |s.workers|
  {
    var pc := s.workers[w];
    && !pc.Quitting? && !pc.Leaving? && !pc.Gone?
    && (if pc.Deducted? then pc.a - 1 < s.target
        else pc.Returning? || pc.Pick? || pc == Waiting(s.current) || s.active <= s.target)
  }

  predicate Forwardable(s: Pool) {
    s.current < |s.channels| && s.admin.Forwarding? && s.channels[s.current].buf != []
  }

  function NextStep(s: Pool, pc: Worker): WorkerStep {
    match pc
    case Waiting(q) => if q == s.current then Receive else Wake
    case Pick => ReadQueue
    case Returning => AddBack
    case LoadedActive(_) => LoadTarget
    case Deducted(_) => Recheck
    case Top => LoadActive
    case Swapping(_) => Swap
    case _ => Execute
  }

  /** The queue holds one task less, and the mutex holder is where it was. */
  ghost predicate Taken(s: Pool, t: Pool) {
    && t.admin == s.admin && t.current == s.current < |t.channels| == |s.channels|
    && |t.channels[t.current].buf| < |s.channels[s.current].buf|
    && t.channels[t.current].capacity == s.channels[s.current].capacity
  }

  /** The worker's next step leaves the queue alone and takes it nearer to serving. */
  ghost predicate ComesNearer(s: Pool, w: nat)
    requires s.current < |s.channels| && w < |s.workers|
  {
    && WorkEnabled(s, w, NextStep(s, s.workers[w]))
    && var u := ApplyWork(s, w, NextStep(s, s.workers[w]));
      && (u.channels, u.admin, u.current) == (s.channels, s.admin, s.current)
      && w < |u.workers| && WillServe(u, w) && Distance(u, u.workers[w]) < Distance(s, s.workers[w])
  }

  /** Positions between the loop top and the queue. */
  predicate Deciding(pc: Worker) { pc.Top? || pc.LoadedActive? || pc.Swapping? || pc.Deducted? || pc.Returning? }

  lemma ServeDeciding(s: Pool, w: nat)
    requires Forwardable(s) && w < |s.workers| && WillServe(s, w) && Deciding(s.workers[w])
    ensures ComesNearer(s, w)
  {}

  lemma ServeAtQueue(s: Pool, w: nat)
    requires Forwardable(s) && w < |s.workers| && WillServe(s, w) && !Deciding(s.workers[w])
    requires !NextStep(s, s.workers[w]).Receive?
    ensures ComesNearer(s, w)
  {}

  lemma ServeStep(s: Pool, w: nat)
    requires Forwardable(s) && w < |s.workers| && WillServe(s, w) && !NextStep(s, s.workers[w]).Receive?
    ensures ComesNearer(s, w)
  {
    if Deciding(s.workers[w]) {
      ServeDeciding(s, w);
    } else {
      ServeAtQueue(s, w);
    }
  }

  lemma {:induction false} Serve(cfg: Config, s: Pool, w: nat) returns (acts: seq<Action>, t: Pool)
    requires Forwardable(s) && w < |s.workers| && WillServe(s, w)
    ensures Leads(cfg, s, acts, t) && Taken(s, t)
    decreases Distance(s, s.workers[w])
  {
    var k := NextStep(s, s.workers[w]);
    var a := Work(w, k);
    var u := Apply(cfg, s, a);
    if k.Receive? {
      Nothing(cfg, u);
      acts, t := [], u;
    } else {
      ServeStep(s, w);
      acts, t := Serve(cfg, u, w);
    }
    First(cfg, s, a, acts, t);
    acts := [a] + acts;
  }

  /** Workers' steps leave the mutex holder and the queue's shape, and never fill the queue. */
  predicate NotFuller(s: Pool, t: Pool) {
    && t.admin == s.admin && t.current == s.current < |t.channels| == |s.channels|
    && (t.started, t.stopped, t.quitClosed, t.target) == (s.started, s.stopped, s.quitClosed, s.target)
    && |t.channels[t.current].buf| <= |s.channels[s.current].buf|
    && forall c :: 0 <= c < |s.channels| ==> t.channels[c].capacity == s.channels[c].capacity
  }

  lemma {:induction false} WorkersKeep(cfg: Config, s: Pool, acts: seq<Action>, t: Pool)
    requires s.current < |s.channels| && Runs(cfg, s, acts, t) && PoolCount.WorkersOnly(acts)
    ensures NotFuller(s, t) && Leads(cfg, s, acts, t)
    decreases |acts|
  {
    if acts == [] {
      Nothing(cfg, s);
    } else {
      var u := Apply(cfg, s, acts[0]);
      WorkerKeeps(s, acts[0].w, acts[0].k);
      assert forall k :: 0 <= k < |acts[1..]| ==> acts[1..][k] == acts[k + 1];
      WorkersKeep(cfg, u, acts[1..], t);
      First(cfg, s, acts[0], acts[1..], t);
      assert [acts[0]] + acts[1..] == acts;
    }
  }

  lemma WorkerKeeps(s: Pool, w: nat, k: WorkerStep)
    requires s.current < |s.channels| && WorkEnabled(s, w, k)
    ensures NotFuller(s, ApplyWork(s, w, k))
  {}

  /** However full the new queue is, the workers can make room in it: once settled, one serves. */
  lemma MakeRoom(cfg: Config, s: Pool) returns (acts: seq<Action>, t: Pool)
    requires Sane(cfg) && Reachable(cfg, s) && Forwardable(s)
    ensures Leads(cfg, s, acts, t) && Taken(s, t)
  {
    ReachableBase(cfg, s);
    var first, u := PoolCount.CanSettle(cfg, s);
    WorkersKeep(cfg, s, first, u);
    if |u.channels[u.current].buf| < |s.channels[s.current].buf| {
      acts, t := first, u;
    } else {
      ReachableOn(cfg, s, first, u);
      ReachableBase(cfg, u);
      var w := CountWitness(u.workers, PoolCount.Counted);
      assert u.workers[w].Quitting? ==> u.quitClosed;
      var rest;
      rest, t := Serve(cfg, u, w);
      Joined(cfg, s, first, u, rest, t);
      acts := first + rest;
    }
  }

  // ---- A queue change ----

  lemma {:induction false} ForwardAll(cfg: Config, s: Pool) returns (acts: seq<Action>, t: Pool)
    requires Sane(cfg) && Reachable(cfg, s) && s.admin.Forwarding?
    ensures Leads(cfg, s, acts, t) && t.admin.Free?
    decreases |s.admin.rest|
  {
    ReachableBase(cfg, s);
    var ch := s.channels[s.current];
    if s.admin.rest == [] {
      var u := Apply(cfg, s, Manage(ForwardEnd));
      Nothing(cfg, u);
      First(cfg, s, Manage(ForwardEnd), [], u);
      acts, t := [Manage(ForwardEnd)] + [], u;
    } else {
      var room, u;
      if |ch.buf| < ch.capacity {
        Nothing(cfg, s);
        room, u := [], s;
      } else {
        room, u := FullEnough(cfg, s);
      }
      ReachableOn(cfg, s, room, u);
      StepReachable(cfg, u, Manage(ForwardOne));
      var rest;
      rest, t := ForwardAll(cfg, Apply(cfg, u, Manage(ForwardOne)));
      First(cfg, u, Manage(ForwardOne), rest, t);
      Joined(cfg, s, room, u, [Manage(ForwardOne)] + rest, t);
      acts := room + ([Manage(ForwardOne)] + rest);
    }
  }

  /** A queue at its capacity or beyond, until there is room. */
  lemma {:induction false} FullEnough(cfg: Config, s: Pool) returns (acts: seq<Action>, t: Pool)
    requires Sane(cfg) && Reachable(cfg, s) && s.admin.Forwarding? && s.current < |s.channels|
    requires |s.channels[s.current].buf| >= s.channels[s.current].capacity > 0
    ensures Leads(cfg, s, acts, t) && t.admin == s.admin && t.current == s.current < |t.channels|
    ensures |t.channels[t.current].buf| < t.channels[t.current].capacity
    decreases |s.channels[s.current].buf|
  {
    var first, u := MakeRoom(cfg, s);
    ReachableOn(cfg, s, first, u);
    if |u.channels[u.current].buf| < u.channels[u.current].capacity {
      acts, t := first, u;
    } else {
      var rest;
      rest, t := FullEnough(cfg, u);
      Joined(cfg, s, first, u, rest, t);
      acts := first + rest;
    }
  }

  lemma {:induction false} DrainAll(cfg: Config, s: Pool) returns (acts: seq<Action>, t: Pool)
    requires Reachable(cfg, s) && s.admin.Draining?
    requires s.current < |s.channels| && s.admin.retired < |s.channels|
    ensures Leads(cfg, s, acts, t) && t.admin.Forwarding? && Reachable(cfg, t)
    decreases |s.channels[s.admin.retired].buf|
  {
    var a := Manage(if s.channels[s.admin.retired].buf == [] then DrainEnd else DrainOne);
    var u := Apply(cfg, s, a);
    StepReachable(cfg, s, a);
    if u.admin.Forwarding? {
      Nothing(cfg, u);
      acts, t := [], u;
    } else {
      acts, t := DrainAll(cfg, u);
    }
    First(cfg, s, a, acts, t);
    acts := [a] + acts;
  }

  lemma QueueChangeEnds(cfg: Config, s: Pool) returns (acts: seq<Action>, t: Pool)
    requires Sane(cfg) && Reachable(cfg, s) && (s.admin.Swapped? || s.admin.Draining? || s.admin.Forwarding?)
    ensures Leads(cfg, s, acts, t) && t.admin.Free?
  {
    ReachableBase(cfg, s);
    if s.admin.Forwarding? {
      acts, t := ForwardAll(cfg, s);
    } else if s.admin.Draining? {
      var a, u := DrainAll(cfg, s);
      var b;
      b, t := ForwardAll(cfg, u);
      Joined(cfg, s, a, u, b, t);
      acts := a + b;
    } else {
      var u := Apply(cfg, s, Manage(CloseOld));
      StepReachable(cfg, s, Manage(CloseOld));
      var a, v := DrainAll(cfg, u);
      var b;
      b, t := ForwardAll(cfg, v);
      Joined(cfg, u, a, v, b, t);
      First(cfg, s, Manage(CloseOld), a + b, t);
      acts := [Manage(CloseOld)] + (a + b);
    }
  }

  // ---- Stopping ----

  /** How far a worker is from its end once quit is closed and nobody is wanted any more. */
  function ToEnd(s: Pool, pc: Worker): nat {
    match pc
    case Gone => 0
    case Leaving => 1
    case Quitting => 2
    case Waiting(_) => 3
    case Pick => 4
    case Returning => 5
    case Deducted(_) => 6
    case Swapping(a) => if a == s.active then 7 else 11
    case LoadedActive(a) => if a == s.active then 8 else 12
    case Top => 10
    case Holding(_) => 11
  }

  function LastStep(pc: Worker): WorkerStep {
    match pc
    case Leaving => WaitGroupDone
    case Quitting => Decrement
    case Waiting(_) => SeeQuit
    case Pick => ReadQueue
    case Returning => AddBack
    case Deducted(_) => Recheck
    case Swapping(_) => Swap
    case LoadedActive(_) => LoadTarget
    case Top => LoadActive
    case _ => Execute
  }

  predicate Emptying(s: Pool) {
    s.current < |s.channels| && s.admin.StopWaiting? && s.quitClosed && s.target == 0 && s.stopped
  }

  /** Worker w alone goes to its end; the others stay where they are. */
  lemma {:induction false} WorkerEnds(cfg: Config, s: Pool, w: nat) returns (acts: seq<Action>, t: Pool)
    requires Emptying(s) && w < |s.workers|
    ensures Leads(cfg, s, acts, t) && Emptying(t) && t.submitters == s.submitters
    ensures t.workers == s.workers[w := Gone]
    decreases ToEnd(s, s.workers[w])
  {
    if s.workers[w].Gone? {
      Nothing(cfg, s);
      acts, t := [], s;
    } else {
      var a := Work(w, LastStep(s.workers[w]));
      var u := Apply(cfg, s, a);
      assert u.workers == s.workers[w := u.workers[w]];
      acts, t := WorkerEnds(cfg, u, w);
      First(cfg, s, a, acts, t);
      acts := [a] + acts;
    }
  }

  predicate Remains(pc: Worker) { !pc.Gone? }

  lemma {:induction false} AllWorkersEnd(cfg: Config, s: Pool) returns (acts: seq<Action>, t: Pool)
    requires Emptying(s)
    ensures Leads(cfg, s, acts, t) && Emptying(t) && t.submitters == s.submitters
    ensures forall w :: 0 <= w < |t.workers| ==> t.workers[w].Gone?
    decreases Count(s.workers, Remains)
  {
    if Count(s.workers, Remains) == 0 {
      forall w | 0 <= w < |s.workers|
        ensures s.workers[w].Gone?
      {
        if Remains(s.workers[w]) {
          CountPositive(s.workers, w, Remains);
        }
      }
      Nothing(cfg, s);
      acts, t := [], s;
    } else {
      var w := CountWitness(s.workers, Remains);
      var a, u := WorkerEnds(cfg, s, w);
      CountUpdate(s.workers, w, Gone, Remains);
      var b;
      b, t := AllWorkersEnd(cfg, u);
      Joined(cfg, s, a, u, b, t);
      acts := a + b;
    }
  }

  /** Submitters at the queue leave it: one that still has to look finds the pool stopped, one that has looked
      sends or finds the queue full. */
  lemma {:induction false} ReadersLeave(cfg: Config, s: Pool) returns (acts: seq<Action>, t: Pool)
    requires Emptying(s)
    ensures Leads(cfg, s, acts, t) && Emptying(t) && t.workers == s.workers && NoReaders(t)
    decreases Count(s.submitters, ReadsQueue)
  {
    if Count(s.submitters, ReadsQueue) == 0 {
      forall i | 0 <= i < |s.submitters|
        ensures !ReadsQueue(s.submitters[i])
      {
        if ReadsQueue(s.submitters[i]) {
          CountPositive(s.submitters, i, ReadsQueue);
        }
      }
      Nothing(cfg, s);
      acts, t := [], s;
    } else {
      var i := CountWitness(s.submitters, ReadsQueue);
      var a := Call(i, if s.submitters[i].pc.Locked? then SecondCheck else TrySend);
      var u := Apply(cfg, s, a);
      CountUpdate(s.submitters, i, u.submitters[i], ReadsQueue);
      assert u.submitters == s.submitters[i := u.submitters[i]];
      acts, t := ReadersLeave(cfg, u);
      First(cfg, s, a, acts, t);
      acts := [a] + acts;
    }
  }

  lemma {:induction false} CollectAll(cfg: Config, s: Pool) returns (acts: seq<Action>, t: Pool)
    requires s.current < |s.channels| && s.admin.Collecting?
    ensures Leads(cfg, s, acts, t) && t.admin.Free?
    decreases |s.channels[s.current].buf|
  {
    var a := Manage(if s.channels[s.current].buf == [] then CollectEnd else CollectOne);
    var u := Apply(cfg, s, a);
    if u.admin.Free? {
      Nothing(cfg, u);
      acts, t := [], u;
    } else {
      acts, t := CollectAll(cfg, u);
    }
    First(cfg, s, a, acts, t);
    acts := [a] + acts;
  }

  /** The queue is locked, closed and emptied once workers and readers are out of the way. */
  lemma QueueTaken(cfg: Config, s: Pool) returns (acts: seq<Action>, t: Pool)
    requires s.current < |s.channels| && (s.admin.StopLocked? || s.admin.Collecting?)
    ensures Leads(cfg, s, acts, t) && t.admin.Free?
  {
    if s.admin.Collecting? {
      acts, t := CollectAll(cfg, s);
    } else {
      var u := Apply(cfg, s, Manage(CloseQueue));
      acts, t := CollectAll(cfg, u);
      First(cfg, s, Manage(CloseQueue), acts, t);
      acts := [Manage(CloseQueue)] + acts;
    }
  }

  lemma WaitingEnds(cfg: Config, s: Pool) returns (acts: seq<Action>, t: Pool)
    requires Emptying(s)
    ensures Leads(cfg, s, acts, t) && t.admin.Free?
  {
    var a, u := AllWorkersEnd(cfg, s);
    var b, v := ReadersLeave(cfg, u);
    var c;
    c, t := QueueTaken(cfg, Apply(cfg, v, Manage(LockQueue)));
    First(cfg, v, Manage(LockQueue), c, t);
    Joined(cfg, u, b, v, [Manage(LockQueue)] + c, t);
    acts := b + ([Manage(LockQueue)] + c);
    Joined(cfg, s, a, u, acts, t);
    acts := a + acts;
  }

  lemma StopEnds(cfg: Config, s: Pool) returns (acts: seq<Action>, t: Pool)
    requires PoolCount.Phases(s) && Base(s) && PoolCount.InStop(s)
    ensures Leads(cfg, s, acts, t) && t.admin.Free?
    decreases if s.admin.StopClaimed? then 2 else if s.admin.StopZeroed? then 1 else 0
  {
    if s.admin.StopWaiting? {
      acts, t := WaitingEnds(cfg, s);
    } else if s.admin.StopClaimed? || s.admin.StopZeroed? {
      var a := Manage(if s.admin.StopClaimed? then StoreZero else CloseQuit);
      var u := Apply(cfg, s, a);
      acts, t := StopEnds(cfg, u);
      First(cfg, s, a, acts, t);
      acts := [a] + acts;
    } else {
      acts, t := QueueTaken(cfg, s);
    }
  }

  /** Main result: from every reachable state in which the mutex is held, it can be given back without anybody
      calling in. No resize, queue change or stop can strand it. */
  lemma MutexIsGivenBack(cfg: Config, s: Pool) returns (acts: seq<Action>, t: Pool)
    requires Sane(cfg) && Reachable(cfg, s) && !s.admin.Free?
    ensures Leads(cfg, s, acts, t) && t.admin.Free?
  {
    ReachableBase(cfg, s);
    if PoolCount.InStop(s) {
      acts, t := StopEnds(cfg, s);
    } else if s.admin.Swapped? || s.admin.Draining? || s.admin.Forwarding? {
      acts, t := QueueChangeEnds(cfg, s);
    } else if s.admin.Starting? || s.admin.Reserved? {
      acts, t := LaunchAll(cfg, s);
    } else {
      acts, t := StartEnds(cfg, s);
    }
  }
}
