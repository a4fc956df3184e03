/** Where every accepted task is: in exactly one place at every moment, executed exactly once when Stop
    returns, with no send on a closed channel and no channel closed twice on the way. */
module PoolFlow {
  import opened Counting
  import opened WorkPool
  import PoolCount

  /** The first Stop has taken all tasks out and released its locks. */
  predicate Collected(s: Pool) { s.stopped && s.admin.Free? }

  /** The first Stop has returned. */
  predicate StopReturned(s: Pool) { Collected(s) && s.remaining == [] }

  // How often a task occurs in each kind of place.

  function Granted(task: nat): Submitter -> nat {
    (sub: Submitter) => if sub.pc.Accepted? && sub.id == task then 1 else 0
  }

  function Buffered(task: nat): Channel -> nat { (ch: Channel) => multiset(ch.buf)[task] }

  function InHand(task: nat): Worker -> nat {
    (pc: Worker) => if pc.Holding? && pc.task == task then 1 else 0
  }

  function InTransit(m: Admin, task: nat): nat {
    match m
    case Draining(_, got) => multiset(got)[task]
    case Forwarding(rest) => multiset(rest)[task]
    case Collecting(got) => multiset(got)[task]
    case _ => 0
  }

  ghost function Acceptances(s: Pool, task: nat): nat { Sum(s.submitters, Granted(task)) }

  /** Over all queues, all workers' hands, the list the mutex holder carries, Stop's remaining list
      and the executed tasks. */
  ghost function Occurrences(s: Pool, task: nat): nat {
    Sum(s.channels, Buffered(task)) + Sum(s.workers, InHand(task)) + InTransit(s.admin, task)
    + multiset(s.remaining)[task] + multiset(s.executed)[task]
  }

  ghost predicate Balanced(s: Pool, task: nat) { Acceptances(s, task) == Occurrences(s, task) }

  /** Queues: the current one is open until Stop closes it; every other is empty and closed,
      save the one being retired. */
  predicate Queues(s: Pool) {
    && s.current < |s.channels|
    && (s.channels[s.current].closed <==> s.admin.Collecting? || Collected(s))
    && (Collected(s) ==> s.channels[s.current].buf == [])
    && (s.admin.Swapped? || s.admin.Draining? ==>
          s.admin.retired < |s.channels| && s.admin.retired != s.current)
    && (forall c :: 0 <= c < |s.channels| && c != s.current ==>
          if s.admin.Swapped? && s.admin.retired == c then !s.channels[c].closed
          else s.channels[c].closed && (s.channels[c].buf != [] ==> s.admin.Draining? && s.admin.retired == c))
  }

  /** Only a Stop that has collected leaves tasks to execute. */
  predicate Unclaimed(s: Pool) { s.remaining != [] ==> Collected(s) }

  /** Stop's later phases are reached with every worker gone and nobody about to send. */
  predicate Parties(s: Pool) {
    && (forall i :: 0 <= i < |s.submitters| ==> s.submitters[i].id == i)
    && (forall i :: 0 <= i < |s.submitters| ==>
          s.submitters[i].kind.Blocking? && s.submitters[i].pc.Refused? ==> s.stopped)
    && (forall w :: 0 <= w < |s.workers| && s.workers[w].Waiting? ==> s.workers[w].queue < |s.channels|)
    && (s.admin.StopLocked? || s.admin.Collecting? || Collected(s) ==>
          && (forall w :: 0 <= w < |s.workers| ==> s.workers[w].Gone?)
          && (forall i :: 0 <= i < |s.submitters| ==> !s.submitters[i].pc.Cleared?))
    && Unclaimed(s)
  }

  ghost predicate Inv(s: Pool) {
    Queues(s) && Parties(s) && forall task :: 0 <= task ==> Balanced(s, task)
  }

  lemma InitInv(size: nat)
    ensures Inv(Init(size))
  {
    forall task: nat
      ensures Balanced(Init(size), task)
    {
      SumZero(Init(size).channels, Buffered(task));
    }
  }

  lemma PopMoves(s: Pool, c: nat, task: nat)
    requires c < |s.channels| && s.channels[c].buf != []
    ensures Sum(Pop(s, c).channels, Buffered(task)) + (if s.channels[c].buf[0] == task then 1 else 0)
         == Sum(s.channels, Buffered(task))
  {
    var buf := s.channels[c].buf;
    assert buf == [buf[0]] + buf[1..];
    SumUpdate(s.channels, c, s.channels[c].(buf := buf[1..]), Buffered(task));
  }

  lemma PushMoves(s: Pool, c: nat, x: nat, task: nat)
    requires c < |s.channels|
    ensures Sum(Push(s, c, x).channels, Buffered(task))
         == Sum(s.channels, Buffered(task)) + (if x == task then 1 else 0)
  {
    SumUpdate(s.channels, c, s.channels[c].(buf := s.channels[c].buf + [x]), Buffered(task));
  }

  lemma CloseMoves(s: Pool, c: nat, task: nat)
    requires c < |s.channels|
    ensures Sum(Close(s, c).channels, Buffered(task)) == Sum(s.channels, Buffered(task))
  {
    SumUpdate(s.channels, c, s.channels[c].(closed := true), Buffered(task));
  }

  lemma StartQueues(cfg: Config, s: Pool, m: AdminStep)
    requires Starts(m) && PoolCount.Phases(s) && Queues(s) && Parties(s) && AdminEnabled(s, m)
    ensures Queues(ApplyAdmin(cfg, s, m))
  {}

  lemma RequeueQueues(cfg: Config, s: Pool, m: AdminStep)
    requires Requeues(m) && PoolCount.Phases(s) && Queues(s) && Parties(s) && AdminEnabled(s, m)
    ensures Queues(ApplyAdmin(cfg, s, m))
  {}

  lemma StopQueues(cfg: Config, s: Pool, m: AdminStep)
    requires Stops(m) && PoolCount.Phases(s) && Queues(s) && Parties(s) && AdminEnabled(s, m)
    ensures Queues(ApplyAdmin(cfg, s, m))
  {}

  lemma StartParties(cfg: Config, s: Pool, m: AdminStep)
    requires Starts(m) && PoolCount.Phases(s) && Queues(s) && Parties(s) && AdminEnabled(s, m)
    ensures Parties(ApplyAdmin(cfg, s, m))
  {}

  lemma RequeueParties(cfg: Config, s: Pool, m: AdminStep)
    requires Requeues(m) && PoolCount.Phases(s) && Queues(s) && Parties(s) && AdminEnabled(s, m)
    ensures Parties(ApplyAdmin(cfg, s, m))
  {}

  lemma StopParties(cfg: Config, s: Pool, m: AdminStep)
    requires Stops(m) && PoolCount.Phases(s) && Queues(s) && Parties(s) && AdminEnabled(s, m)
    ensures Parties(ApplyAdmin(cfg, s, m))
  {}

  lemma AdminShape(cfg: Config, s: Pool, m: AdminStep)
    requires PoolCount.Phases(s) && Queues(s) && Parties(s) && AdminEnabled(s, m)
    ensures Queues(ApplyAdmin(cfg, s, m)) && Parties(ApplyAdmin(cfg, s, m))
  {
    if Starts(m) {
      StartQueues(cfg, s, m);
      StartParties(cfg, s, m);
    } else if Requeues(m) {
      RequeueQueues(cfg, s, m);
      RequeueParties(cfg, s, m);
    } else {
      StopQueues(cfg, s, m);
      StopParties(cfg, s, m);
    }
  }

  lemma CallShape(s: Pool, i: nat, c: CallStep)
    requires PoolCount.Phases(s) && Queues(s) && Parties(s) && CallEnabled(s, i, c)
    ensures Queues(ApplyCall(s, i, c)) && Parties(ApplyCall(s, i, c))
  {
    if c.TrySend? {
      SendShape(s, i);
    } else {
      var pc := ApplyCall(s, i, c).submitters[i].pc;
      assert ApplyCall(s, i, c) == SetSubmitter(s, i, pc);
      LookShape(s, i, c, pc);
    }
  }

  lemma SendShape(s: Pool, i: nat)
    requires PoolCount.Phases(s) && Queues(s) && Parties(s) && CallEnabled(s, i, TrySend)
    ensures Queues(ApplyCall(s, i, TrySend)) && Parties(ApplyCall(s, i, TrySend))
  {}

  lemma LookShape(s: Pool, i: nat, c: CallStep, pc: SubmitPc)
    requires PoolCount.Phases(s) && Queues(s) && Parties(s) && CallEnabled(s, i, c) && !c.TrySend?
    requires ApplyCall(s, i, c) == SetSubmitter(s, i, pc)
    ensures Queues(SetSubmitter(s, i, pc)) && Parties(SetSubmitter(s, i, pc))
  {}

  lemma WorkShape(s: Pool, w: nat, k: WorkerStep)
    requires PoolCount.Phases(s) && Queues(s) && Parties(s) && WorkEnabled(s, w, k)
    ensures Queues(ApplyWork(s, w, k)) && Parties(ApplyWork(s, w, k))
  {
    if Retires(k) {
      RetireShape(s, w, k);
    } else {
      RunShape(s, w, k);
    }
  }

  lemma RetireShape(s: Pool, w: nat, k: WorkerStep)
    requires PoolCount.Phases(s) && Queues(s) && Parties(s) && WorkEnabled(s, w, k) && Retires(k)
    ensures Queues(ApplyWork(s, w, k)) && Parties(ApplyWork(s, w, k))
  {}

  lemma RunShape(s: Pool, w: nat, k: WorkerStep)
    requires PoolCount.Phases(s) && Queues(s) && Parties(s) && WorkEnabled(s, w, k) && !Retires(k)
    ensures Queues(ApplyWork(s, w, k)) && Parties(ApplyWork(s, w, k))
  {}

  predicate Carries(m: AdminStep) { m.DrainOne? || m.CollectOne? || m.ForwardOne? }

  /** The task that a carrying step moves between a queue and the mutex holder's list. */
  function Carried(s: Pool, m: AdminStep): nat
    requires s.current < |s.channels| && AdminEnabled(s, m) && Carries(m)
  {
    match m
    case DrainOne => s.channels[s.admin.retired].buf[0]
    case CollectOne => s.channels[s.current].buf[0]
    case ForwardOne => s.admin.rest[0]
  }

  lemma ListGrows(cfg: Config, s: Pool, m: AdminStep, task: nat)
    requires s.current < |s.channels| && AdminEnabled(s, m) && (m.DrainOne? || m.CollectOne?)
    ensures InTransit(ApplyAdmin(cfg, s, m).admin, task)
         == InTransit(s.admin, task) + if Carried(s, m) == task then 1 else 0
  {}

  lemma ListShrinks(cfg: Config, s: Pool, task: nat)
    requires s.current < |s.channels| && AdminEnabled(s, ForwardOne)
    ensures InTransit(ApplyAdmin(cfg, s, ForwardOne).admin, task)
         == InTransit(s.admin, task) - if Carried(s, ForwardOne) == task then 1 else 0
  {
    assert s.admin.rest == [s.admin.rest[0]] + s.admin.rest[1..];
  }

  lemma CarryQueue(cfg: Config, s: Pool, m: AdminStep, task: nat)
    requires s.current < |s.channels| && AdminEnabled(s, m) && Carries(m)
    ensures var one := if Carried(s, m) == task then 1 else 0;
      Sum(ApplyAdmin(cfg, s, m).channels, Buffered(task))
      == Sum(s.channels, Buffered(task)) + (if m.ForwardOne? then one else -one)
  {
    match m {
      case DrainOne => PopMoves(s, s.admin.retired, task);
      case CollectOne => PopMoves(s, s.current, task);
      case ForwardOne => PushMoves(s, s.current, s.admin.rest[0], task);
    }
  }

  lemma CarryConserves(cfg: Config, s: Pool, m: AdminStep, task: nat)
    requires s.current < |s.channels| && Balanced(s, task) && AdminEnabled(s, m) && Carries(m)
    ensures Balanced(ApplyAdmin(cfg, s, m), task)
  {
    if m.ForwardOne? {
      ListShrinks(cfg, s, task);
    } else {
      ListGrows(cfg, s, m, task);
    }
    CarryQueue(cfg, s, m, task);
  }

  lemma GrowConserves(cfg: Config, s: Pool, m: AdminStep, task: nat)
    requires s.current < |s.channels| && Balanced(s, task) && AdminEnabled(s, m) && (m.Launch? || m.Requeue?)
    ensures Balanced(ApplyAdmin(cfg, s, m), task)
  {
    if m.Launch? {
      SumAppend(s.workers, Top, InHand(task));
    } else {
      SumAppend(s.channels, Channel([], m.size, false), Buffered(task));
    }
  }

  /** The steps that change queues, workers or lists without carrying a task. */
  lemma ReshapeConserves(cfg: Config, s: Pool, m: AdminStep, task: nat)
    requires s.current < |s.channels| && Unclaimed(s) && Balanced(s, task) && AdminEnabled(s, m)
    requires m.Launch? || m.Requeue? || m.CloseOld? || m.CloseQueue? || m.DrainEnd? || m.CollectEnd?
    ensures Balanced(ApplyAdmin(cfg, s, m), task)
  {
    match m {
      case Launch => GrowConserves(cfg, s, m, task);
      case Requeue(_) => GrowConserves(cfg, s, m, task);
      case CloseOld => CloseMoves(s, s.admin.retired, task);
      case CloseQueue => CloseMoves(s, s.current, task);
      case _ => HandOver(cfg, s, m, task);
    }
  }

  /** The list of a drained or collected queue is handed over whole. */
  lemma HandOver(cfg: Config, s: Pool, m: AdminStep, task: nat)
    requires s.current < |s.channels| && Unclaimed(s) && Balanced(s, task) && AdminEnabled(s, m)
    requires m.DrainEnd? || m.CollectEnd?
    ensures Balanced(ApplyAdmin(cfg, s, m), task)
  {}

  lemma AdminConserves(cfg: Config, s: Pool, m: AdminStep, task: nat)
    requires s.current < |s.channels| && Unclaimed(s) && Balanced(s, task) && AdminEnabled(s, m)
    ensures Balanced(ApplyAdmin(cfg, s, m), task)
  {
    if Carries(m) {
      CarryConserves(cfg, s, m, task);
    } else if m.Launch? || m.Requeue? || m.CloseOld? || m.CloseQueue? || m.DrainEnd? || m.CollectEnd? {
      ReshapeConserves(cfg, s, m, task);
    } else {
      StoreFrame(cfg, s, m);
    }
  }

  /** The steps that only store a flag, a target or a position. */
  lemma StoreFrame(cfg: Config, s: Pool, m: AdminStep)
    requires s.current < |s.channels| && AdminEnabled(s, m) && !Carries(m)
    requires !m.Launch? && !m.Requeue? && !m.CloseOld? && !m.CloseQueue? && !m.DrainEnd? && !m.CollectEnd?
    ensures var t := ApplyAdmin(cfg, s, m);
      && (t.channels, t.workers, t.submitters, t.remaining, t.executed)
         == (s.channels, s.workers, s.submitters, s.remaining, s.executed)
      && forall task: nat :: InTransit(t.admin, task) == InTransit(s.admin, task)
  {}

  lemma AcceptConserves(s: Pool, i: nat, task: nat)
    requires s.current < |s.channels| && Balanced(s, task) && CallEnabled(s, i, TrySend)
    requires |s.channels[s.current].buf| < s.channels[s.current].capacity
    ensures Balanced(ApplyCall(s, i, TrySend), task)
  {
    var sub := s.submitters[i].(pc := Accepted);
    SumUpdate(s.submitters, i, sub, Granted(task));
    PushMoves(s, s.current, sub.id, task);
    assert ApplyCall(s, i, TrySend) == Push(s, s.current, sub.id).(submitters := s.submitters[i := sub]);
  }

  lemma CallConserves(s: Pool, i: nat, c: CallStep, task: nat)
    requires s.current < |s.channels| && Balanced(s, task) && CallEnabled(s, i, c)
    ensures Balanced(ApplyCall(s, i, c), task)
  {
    var t := ApplyCall(s, i, c);
    if t.submitters[i].pc.Accepted? {
      AcceptConserves(s, i, task);
    } else {
      SumUpdate(s.submitters, i, t.submitters[i], Granted(task));
      assert t == s.(submitters := s.submitters[i := t.submitters[i]]);
    }
  }

  lemma ReceiveConserves(s: Pool, w: nat, task: nat)
    requires Balanced(s, task) && WorkEnabled(s, w, Receive)
    ensures Balanced(ApplyWork(s, w, Receive), task)
  {
    var q := s.workers[w].queue;
    var holding := Holding(s.channels[q].buf[0]);
    SumUpdate(s.workers, w, holding, InHand(task));
    PopMoves(s, q, task);
    assert ApplyWork(s, w, Receive) == Pop(s, q).(workers := s.workers[w := holding]);
  }

  /** A worker's step that neither takes up nor finishes a task. */
  lemma IdleConserves(s: Pool, w: nat, pc: Worker, active: int, task: nat)
    requires Balanced(s, task) && w < |s.workers| && !s.workers[w].Holding? && !pc.Holding?
    ensures Balanced(s.(workers := s.workers[w := pc], active := active), task)
  {
    SumUpdate(s.workers, w, pc, InHand(task));
  }

  lemma IdleFrame(s: Pool, w: nat, k: WorkerStep)
    requires WorkEnabled(s, w, k) && !k.Receive? && !k.Execute?
    ensures var t := ApplyWork(s, w, k);
      && t == s.(workers := s.workers[w := t.workers[w]], active := t.active)
      && !s.workers[w].Holding? && !t.workers[w].Holding?
  {}

  lemma ExecuteConserves(s: Pool, w: nat, task: nat)
    requires Balanced(s, task) && WorkEnabled(s, w, Execute)
    ensures Balanced(ApplyWork(s, w, Execute), task)
  {
    SumUpdate(s.workers, w, Top, InHand(task));
  }

  lemma WorkConserves(s: Pool, w: nat, k: WorkerStep, task: nat)
    requires s.current < |s.channels| && Balanced(s, task) && WorkEnabled(s, w, k)
    ensures Balanced(ApplyWork(s, w, k), task)
  {
    if k.Receive? {
      ReceiveConserves(s, w, task);
    } else if k.Execute? {
      ExecuteConserves(s, w, task);
    } else {
      IdleFrame(s, w, k);
      IdleConserves(s, w, ApplyWork(s, w, k).workers[w], ApplyWork(s, w, k).active, task);
    }
  }

  /** Whatever the step, a task's occurrences go on matching its acceptances. */
  lemma StepConserves(cfg: Config, s: Pool, a: Action, task: nat)
    requires Queues(s) && Parties(s) && Balanced(s, task) && Enabled(s, a)
    ensures Balanced(Apply(cfg, s, a), task)
  {
    match a {
      case Manage(m) => AdminConserves(cfg, s, m, task);
      case Call(i, c) => CallConserves(s, i, c, task);
      case Work(w, k) => WorkConserves(s, w, k, task);
      case Submit(kind) => SubmitConserves(cfg, s, kind, task);
      case RunRemaining => RemainingConserves(cfg, s, task);
    }
  }

  lemma SubmitConserves(cfg: Config, s: Pool, kind: SubmitKind, task: nat)
    requires Balanced(s, task) && Enabled(s, Submit(kind))
    ensures Balanced(Apply(cfg, s, Submit(kind)), task)
  {
    SumAppend(s.submitters, Submitter(|s.submitters|, kind, Calling), Granted(task));
  }

  lemma RemainingConserves(cfg: Config, s: Pool, task: nat)
    requires Balanced(s, task) && Enabled(s, RunRemaining)
    ensures Balanced(Apply(cfg, s, RunRemaining), task)
  {
    assert s.remaining == [s.remaining[0]] + s.remaining[1..];
  }

  lemma StepShape(cfg: Config, s: Pool, a: Action)
    requires PoolCount.Phases(s) && Queues(s) && Parties(s) && Enabled(s, a)
    ensures Queues(Apply(cfg, s, a)) && Parties(Apply(cfg, s, a))
  {
    match a {
      case Manage(m) => AdminShape(cfg, s, m);
      case Call(i, c) => CallShape(s, i, c);
      case Work(w, k) => WorkShape(s, w, k);
      case Submit(kind) =>
      case RunRemaining =>
    }
  }

  lemma StepInv(cfg: Config, s: Pool, a: Action)
    requires PoolCount.Phases(s) && Inv(s) && Enabled(s, a)
    ensures Inv(Apply(cfg, s, a))
  {
    StepShape(cfg, s, a);
    forall task: nat
      ensures Balanced(Apply(cfg, s, a), task)
    {
      StepConserves(cfg, s, a, task);
    }
  }

  lemma {:induction false} RunInv(cfg: Config, s: Pool, acts: seq<Action>, t: Pool)
    requires PoolCount.Inv(s) && Inv(s) && Runs(cfg, s, acts, t)
    ensures PoolCount.Inv(t) && Inv(t)
    decreases |acts|
  {
    if |acts| > 0 {
      PoolCount.StepInv(cfg, s, acts[0]);
      StepInv(cfg, s, acts[0]);
      RunInv(cfg, Apply(cfg, s, acts[0]), acts[1..], t);
    }
  }

  lemma ReachableInv(cfg: Config, s: Pool)
    requires Reachable(cfg, s)
    ensures PoolCount.Inv(s) && Inv(s)
  {
    var size: nat, acts :| size > 0 && Runs(cfg, Init(size), acts, s);
    InitInv(size);
    PoolCount.InitInv(size);
    RunInv(cfg, Init(size), acts, s);
  }

  /** Task ids are call ids, so each counts once exactly when its call succeeded. */
  lemma {:induction false} GrantedOnce(subs: seq<Submitter>, task: nat)
    requires forall i :: 0 <= i < |subs| ==> subs[i].id == i
    ensures Sum(subs, Granted(task)) == if task < |subs| && subs[task].pc.Accepted? then 1 else 0
  {
    if |subs| > 0 {
      GrantedOnce(subs[..|subs| - 1], task);
    }
  }

  predicate WasAccepted(s: Pool, task: nat) {
    task < |s.submitters| && s.submitters[task].pc.Accepted?
  }

  /** At every moment of every run, an accepted task occurs exactly once - in one queue slot, one
      worker's hand, the drain or forward list, the remaining list, or the executed list - and a task
      that was not accepted occurs nowhere. */
  lemma OnePlace(cfg: Config, s: Pool, task: nat)
    requires Reachable(cfg, s)
    ensures Occurrences(s, task) == if WasAccepted(s, task) then 1 else 0
  {
    ReachableInv(cfg, s);
    assert Balanced(s, task);
    GrantedOnce(s.submitters, task);
  }

  /** When Stop has returned, every accepted task has been executed exactly once, and nothing else has. */
  lemma ExecutedExactlyOnce(cfg: Config, s: Pool, task: nat)
    requires Reachable(cfg, s) && StopReturned(s)
    ensures multiset(s.executed)[task] == if WasAccepted(s, task) then 1 else 0
  {
    ReachableInv(cfg, s);
    OnePlace(cfg, s, task);
    SumZero(s.channels, Buffered(task));
    SumZero(s.workers, InHand(task));
  }

  /** The operations on channels that would panic in Go. */
  predicate Panics(s: Pool, a: Action)
    requires Enabled(s, a)
  {
    match a
    case Call(i, TrySend) => s.channels[s.current].closed
    case Manage(ForwardOne) => s.channels[s.current].closed
    case Manage(CloseOld) => s.channels[s.admin.retired].closed
    case Manage(CloseQueue) => s.channels[s.current].closed
    case Manage(CloseQuit) => s.quitClosed
    case _ => false
  }

  /** No reachable step sends on a closed channel or closes one twice. */
  lemma NoPanic(cfg: Config, s: Pool, a: Action)
    requires Reachable(cfg, s) && Enabled(s, a)
    ensures !Panics(s, a)
  {
    ReachableInv(cfg, s);
  }

  /** A blocking Submit is only ever refused because the pool was stopped. */
  lemma BlockingRefusedOnlyByStop(cfg: Config, s: Pool, i: nat)
    requires Reachable(cfg, s) && i < |s.submitters|
    requires s.submitters[i].kind.Blocking? && s.submitters[i].pc.Refused?
    ensures s.stopped
  {
    ReachableInv(cfg, s);
  }
}
