/** The pool's queues: what comes out is what went in, in order; none holds more than its capacity; and what the
    submit calls answer. */
module PoolQueue {
  import opened Options
  import opened WorkPool
  import PoolCount
  import PoolFlow

  /** The current queue has no room. */
  predicate Full(s: Pool) {
    s.current < |s.channels| && |s.channels[s.current].buf| >= s.channels[s.current].capacity
  }

  // ---- First in, first out ----

  /** Where tasks wait: a queue, the list carried from the old queue to the new, the list Stop leaves over. */
  datatype Place = Queue(c: nat) | Carry | Left

  function Waiting(s: Pool, p: Place): seq<nat> {
    match p
    case Queue(c) => if c < |s.channels| then s.channels[c].buf else []
    case Carry => if s.admin.Draining? then s.admin.got else if s.admin.Forwarding? then s.admin.rest else []
    case Left => if s.admin.Collecting? then s.admin.got else s.remaining
  }

  function Last(tasks: seq<nat>): seq<nat> { if tasks == [] then [] else tasks[|tasks| - 1..] }

  function First(tasks: seq<nat>): seq<nat> { if tasks == [] then [] else tasks[..1] }

  /** The task that a step from s to t puts into a place: into a queue that of an accepted call or the next one
      carried over, into a list what has been taken out of a queue. */
  function Put(s: Pool, a: Action, t: Pool, p: Place): seq<nat> {
    match a
    case Call(i, TrySend) =>
      if p == Queue(s.current) && i < |s.submitters| && i < |t.submitters| && t.submitters[i].pc.Accepted?
      then [s.submitters[i].id] else []
    case Manage(ForwardOne) => if p == Queue(s.current) then First(Waiting(s, Carry)) else []
    case Manage(DrainOne) => if p == Carry && s.admin.Draining? then First(Waiting(s, Queue(s.admin.retired))) else []
    case Manage(CollectOne) => if p == Left then First(Waiting(s, Queue(s.current))) else []
    case _ => []
  }

  /** The task that a step takes out of a place: it is then in the worker's hand, last in the list or queue it
      has been moved to, or the last one executed. */
  function Got(s: Pool, a: Action, t: Pool, p: Place): seq<nat> {
    match a
    case Work(w, Receive) =>
      if w < |s.workers| && s.workers[w].Waiting? && p == Queue(s.workers[w].queue)
         && w < |t.workers| && t.workers[w].Holding?
      then [t.workers[w].task] else []
    case Manage(DrainOne) =>
      if s.admin.Draining? && p == Queue(s.admin.retired) then Last(Waiting(t, Carry)) else []
    case Manage(CollectOne) => if p == Queue(s.current) then Last(Waiting(t, Left)) else []
    case Manage(ForwardOne) => if p == Carry then Last(Waiting(t, Queue(t.current))) else []
    case RunRemaining => if p == Left then Last(t.executed) else []
    case _ => []
  }

  ghost function Puts(cfg: Config, s: Pool, acts: seq<Action>, p: Place): seq<nat>
    decreases |acts|
  {
    if acts == [] || !Enabled(s, acts[0]) then []
    else
      var t := Apply(cfg, s, acts[0]);
      Put(s, acts[0], t, p) + Puts(cfg, t, acts[1..], p)
  }

  ghost function Gots(cfg: Config, s: Pool, acts: seq<Action>, p: Place): seq<nat>
    decreases |acts|
  {
    if acts == [] || !Enabled(s, acts[0]) then []
    else
      var t := Apply(cfg, s, acts[0]);
      Got(s, acts[0], t, p) + Gots(cfg, t, acts[1..], p)
  }

  ghost predicate InOrder(s: Pool, a: Action, t: Pool, p: Place) {
    Waiting(s, p) + Put(s, a, t, p) == Got(s, a, t, p) + Waiting(t, p)
  }

  /** Nothing moves. */
  lemma Still(s: Pool, a: Action, t: Pool, p: Place)
    requires Waiting(t, p) == Waiting(s, p) && Put(s, a, t, p) == [] && Got(s, a, t, p) == []
    ensures InOrder(s, a, t, p)
  {
    assert Waiting(s, p) + [] == Waiting(s, p) == [] + Waiting(s, p);
  }

  lemma CallOrder(s: Pool, i: nat, k: CallStep, p: Place)
    requires s.current < |s.channels| && CallEnabled(s, i, k)
    ensures InOrder(s, Call(i, k), ApplyCall(s, i, k), p)
  {
    if !k.TrySend? || p != Queue(s.current) || Full(s) {
      Still(s, Call(i, k), ApplyCall(s, i, k), p);
    }
  }

  lemma WorkOrder(s: Pool, w: nat, k: WorkerStep, p: Place)
    requires s.current < |s.channels| && WorkEnabled(s, w, k)
    ensures InOrder(s, Work(w, k), ApplyWork(s, w, k), p)
  {
    if !k.Receive? || p != Queue(s.workers[w].queue) {
      Still(s, Work(w, k), ApplyWork(s, w, k), p);
    } else {
      HeadOut(Waiting(s, p));
    }
  }

  lemma HeadOut(tasks: seq<nat>)
    requires tasks != []
    ensures tasks + [] == [tasks[0]] + tasks[1..] && First(tasks) == [tasks[0]]
  {}

  lemma ManageQueue(cfg: Config, s: Pool, m: AdminStep, c: nat)
    requires s.current < |s.channels| && AdminEnabled(s, m)
    ensures InOrder(s, Manage(m), ApplyAdmin(cfg, s, m), Queue(c))
  {
    if m.ForwardOne? && c == s.current {
      HeadOut(s.admin.rest);
    } else if (m.DrainOne? && c == s.admin.retired) || (m.CollectOne? && c == s.current) {
      HeadOut(s.channels[c].buf);
    } else {
      Still(s, Manage(m), ApplyAdmin(cfg, s, m), Queue(c));
    }
  }

  lemma ManageCarry(cfg: Config, s: Pool, m: AdminStep)
    requires s.current < |s.channels| && AdminEnabled(s, m)
    ensures InOrder(s, Manage(m), ApplyAdmin(cfg, s, m), Carry)
  {}

  lemma ManageLeft(cfg: Config, s: Pool, m: AdminStep)
    requires s.current < |s.channels| && AdminEnabled(s, m) && PoolFlow.Unclaimed(s)
    ensures InOrder(s, Manage(m), ApplyAdmin(cfg, s, m), Left)
  {}

  lemma StepOrder(cfg: Config, s: Pool, a: Action, p: Place)
    requires Enabled(s, a) && PoolFlow.Unclaimed(s)
    ensures InOrder(s, a, Apply(cfg, s, a), p)
  {
    match a {
      case Manage(m) =>
        match p {
          case Queue(c) => ManageQueue(cfg, s, m, c);
          case Carry => ManageCarry(cfg, s, m);
          case Left => ManageLeft(cfg, s, m);
        }
      case Call(i, k) => CallOrder(s, i, k, p);
      case Work(w, k) => WorkOrder(s, w, k, p);
      case _ =>
    }
  }

  lemma Chain(b: seq<nat>, p: seq<nat>, g: seq<nat>, m: seq<nat>, ps: seq<nat>, gs: seq<nat>, e: seq<nat>)
    requires b + p == g + m && m + ps == gs + e
    ensures b + (p + ps) == g + gs + e
  {
    assert b + (p + ps) == b + p + ps;
    assert g + m + ps == g + (m + ps);
  }

  lemma {:induction false} RunOrder(cfg: Config, s: Pool, acts: seq<Action>, t: Pool, p: Place)
    requires PoolCount.Inv(s) && PoolFlow.Inv(s) && Runs(cfg, s, acts, t)
    ensures Waiting(s, p) + Puts(cfg, s, acts, p) == Gots(cfg, s, acts, p) + Waiting(t, p)
    decreases |acts|
  {
    if acts != [] {
      var u := Apply(cfg, s, acts[0]);
      StepOrder(cfg, s, acts[0], p);
      PoolCount.StepInv(cfg, s, acts[0]);
      PoolFlow.StepInv(cfg, s, acts[0]);
      RunOrder(cfg, u, acts[1..], t, p);
      Chain(Waiting(s, p), Put(s, acts[0], u, p), Got(s, acts[0], u, p), Waiting(u, p),
        Puts(cfg, u, acts[1..], p), Gots(cfg, u, acts[1..], p), Waiting(t, p));
    }
  }

  /** Main result: whatever the interleaving, the tasks taken out of a queue, of the list carried over or of the
      list left over are the first ones put into it, in that order, and the others still wait there. */
  lemma FirstInFirstOut(cfg: Config, size: nat, acts: seq<Action>, t: Pool, p: Place)
    requires Runs(cfg, Init(size), acts, t)
    ensures Puts(cfg, Init(size), acts, p) == Gots(cfg, Init(size), acts, p) + Waiting(t, p)
  {
    PoolCount.InitInv(size);
    PoolFlow.InitInv(size);
    RunOrder(cfg, Init(size), acts, t, p);
    assert Waiting(Init(size), p) + Puts(cfg, Init(size), acts, p) == Puts(cfg, Init(size), acts, p);
  }

  // ---- Capacity ----

  predicate WithinCapacity(ch: Channel) { |ch.buf| <= ch.capacity }

  predicate NoneOverfull(s: Pool) {
    s.current < |s.channels| && forall c :: 0 <= c < |s.channels| ==> WithinCapacity(s.channels[c])
  }

  function AskedSize(size: nat, a: Action): nat {
    if a.Manage? && a.m.Requeue? && a.m.size > 0 then a.m.size else size
  }

  /** The size the last queue change of a run asked for, or the size at its start. */
  function LastSize(size: nat, acts: seq<Action>): nat
    decreases |acts|
  {
    if acts == [] then size else LastSize(AskedSize(size, acts[0]), acts[1..])
  }

  lemma StepCapacity(cfg: Config, s: Pool, a: Action)
    requires NoneOverfull(s) && Enabled(s, a)
    ensures var t := Apply(cfg, s, a);
      NoneOverfull(t) && t.channels[t.current].capacity == AskedSize(s.channels[s.current].capacity, a)
  {
    match a {
      case Manage(m) => ManageCapacity(cfg, s, m);
      case Call(i, k) => CallCapacity(s, i, k);
      case Work(w, k) => WorkCapacity(s, w, k);
      case _ =>
    }
  }

  lemma CallCapacity(s: Pool, i: nat, k: CallStep)
    requires NoneOverfull(s) && CallEnabled(s, i, k)
    ensures var t := ApplyCall(s, i, k);
      NoneOverfull(t) && t.channels[t.current].capacity == s.channels[s.current].capacity
  {}

  lemma WorkCapacity(s: Pool, w: nat, k: WorkerStep)
    requires NoneOverfull(s) && WorkEnabled(s, w, k)
    ensures var t := ApplyWork(s, w, k);
      NoneOverfull(t) && t.channels[t.current].capacity == s.channels[s.current].capacity
  {}

  lemma ManageCapacity(cfg: Config, s: Pool, m: AdminStep)
    requires NoneOverfull(s) && AdminEnabled(s, m)
    ensures var t := ApplyAdmin(cfg, s, m);
      NoneOverfull(t) && t.channels[t.current].capacity == AskedSize(s.channels[s.current].capacity, Manage(m))
  {}

  /** No queue ever holds more than its capacity, and the current one has the size last asked for. */
  lemma {:induction false} CapacityHolds(cfg: Config, s: Pool, acts: seq<Action>, t: Pool)
    requires NoneOverfull(s) && Runs(cfg, s, acts, t)
    ensures NoneOverfull(t)
    ensures t.channels[t.current].capacity == LastSize(s.channels[s.current].capacity, acts)
    decreases |acts|
  {
    if acts != [] {
      StepCapacity(cfg, s, acts[0]);
      CapacityHolds(cfg, Apply(cfg, s, acts[0]), acts[1..], t);
    }
  }

  // ---- What the calls answer ----

  /** A look at the queue accepts the task exactly when there is room, whatever the kind of call; a call that
      does not wait is refused by a full queue at once, and any other waits. */
  lemma LookDecides(s: Pool, i: nat)
    requires Enabled(s, Call(i, TrySend))
    ensures var pc := ApplyCall(s, i, TrySend).submitters[i].pc;
      && (pc.Accepted? <==> !Full(s))
      && (pc.Refused? <==> Full(s) && s.submitters[i].kind.NonBlocking?)
      && (pc.Retrying? <==> Full(s) && !s.submitters[i].kind.NonBlocking?)
  {}

  /** A waiting call can always look again; it can give up when it is a timed one, or when the pool stops. */
  lemma WaitingGoesOn(s: Pool, i: nat)
    requires s.current < |s.channels| && i < |s.submitters| && s.submitters[i].pc.Retrying?
    ensures Enabled(s, Call(i, Tick)) && ApplyCall(s, i, Tick).submitters[i].pc.Ready?
    ensures Enabled(s, Call(i, GiveUp)) <==> s.quitClosed || s.submitters[i].kind.Timed?
  {}

  function Met(s: Pool, a: Action): set<nat> {
    if a.Call? && a.c.TrySend? && Full(s) then {a.i} else {}
  }

  /** The calls that have met a full queue in the course of a run. */
  ghost function MetFull(cfg: Config, s: Pool, acts: seq<Action>, was: set<nat>): set<nat>
    decreases |acts|
  {
    if acts == [] || !Enabled(s, acts[0]) then was
    else MetFull(cfg, Apply(cfg, s, acts[0]), acts[1..], was + Met(s, acts[0]))
  }

  /** Refusals have a reason, and so has waiting. */
  predicate Answers(s: Pool, met: set<nat>, i: nat)
    requires i < |s.submitters|
  {
    var sub := s.submitters[i];
    && (sub.pc.Refused? ==> s.stopped || (!sub.kind.Blocking? && i in met))
    && (sub.pc.Retrying? ==> !sub.kind.NonBlocking? && i in met)
  }

  ghost predicate AllAnswer(s: Pool, met: set<nat>) {
    forall i :: 0 <= i < |s.submitters| ==> Answers(s, met, i)
  }

  lemma StepAnswers(cfg: Config, s: Pool, a: Action, met: set<nat>)
    requires PoolCount.Phases(s) && Enabled(s, a) && AllAnswer(s, met)
    ensures AllAnswer(Apply(cfg, s, a), met + Met(s, a))
  {
    if a.Call? {
      CallAnswers(s, a.i, a.c, met);
    } else {
      var t := Apply(cfg, s, a);
      assert s.submitters <= t.submitters && (s.stopped ==> t.stopped);
      assert forall i :: 0 <= i < |s.submitters| ==> Answers(s, met, i) && t.submitters[i] == s.submitters[i];
    }
  }

  lemma CallAnswers(s: Pool, i: nat, c: CallStep, met: set<nat>)
    requires PoolCount.Phases(s) && CallEnabled(s, i, c) && AllAnswer(s, met)
    ensures AllAnswer(ApplyCall(s, i, c), met + Met(s, Call(i, c)))
  {
    var t := ApplyCall(s, i, c);
    PoolCount.CallFrame(s, i, c);
    forall j | 0 <= j < |t.submitters|
      ensures Answers(t, met + Met(s, Call(i, c)), j)
    {
      assert Answers(s, met, j);
      assert j != i ==> t.submitters[j] == s.submitters[j];
    }
  }

  lemma {:induction false} RunAnswers(cfg: Config, s: Pool, acts: seq<Action>, t: Pool, met: set<nat>)
    requires PoolCount.Inv(s) && AllAnswer(s, met) && Runs(cfg, s, acts, t)
    ensures AllAnswer(t, MetFull(cfg, s, acts, met))
    decreases |acts|
  {
    if acts != [] {
      StepAnswers(cfg, s, acts[0], met);
      PoolCount.StepInv(cfg, s, acts[0]);
      RunAnswers(cfg, Apply(cfg, s, acts[0]), acts[1..], t, met + Met(s, acts[0]));
    }
  }

  /** While the pool is not stopped, a call is refused only if it is not a blocking one and has met a full queue. */
  lemma RefusedForAReason(cfg: Config, size: nat, acts: seq<Action>, s: Pool, i: nat)
    requires Runs(cfg, Init(size), acts, s) && i < |s.submitters| && s.submitters[i].pc.Refused? && !s.stopped
    ensures !s.submitters[i].kind.Blocking? && i in MetFull(cfg, Init(size), acts, {})
  {
    PoolCount.InitInv(size);
    RunAnswers(cfg, Init(size), acts, s, {});
    assert Answers(s, MetFull(cfg, Init(size), acts, {}), i);
  }
}
