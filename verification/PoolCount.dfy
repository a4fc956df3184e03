/** How many workers the pool keeps: the counter is exact, never falls short of the target, and settles on it. */
module PoolCount {
  import opened Counting
  import opened WorkPool

  /** A live worker that has not given its place up. */
  predicate Counted(pc: Worker) {
    !pc.Deducted? && !pc.Returning? && !pc.Leaving? && !pc.Gone?
  }

  /** A worker that has given its place up but will take it back if the target is v. */
  predicate WillReturn(v: int, pc: Worker) {
    pc.Returning? || (pc.Deducted? && pc.a - 1 < v)
  }

  function BackAt(v: int): Worker -> bool { (pc: Worker) => WillReturn(v, pc) }

  /** Workers that startWorkers has counted but not launched. */
  function InLaunch(s: Pool): nat { if s.admin.Reserved? then 1 else 0 }

  /** Workers that startWorkers still has to count. */
  function Owed(s: Pool): nat {
    if s.admin.Starting? || s.admin.Reserved? then s.admin.owed else 0
  }

  /** The target the pool already answers for: a raise counts once activeWorkers was read for it. */
  function Effective(s: Pool): int { if s.admin.Raised? then s.admin.before else s.target }

  ghost predicate Covers(s: Pool, v: int) {
    s.active + Owed(s) + Count(s.workers, BackAt(v)) >= v
  }

  predicate InStop(s: Pool) {
    s.admin.StopClaimed? || s.admin.StopZeroed? || s.admin.StopWaiting? || s.admin.StopLocked?
    || s.admin.Collecting?
  }

  /** The phases of the mutex holder, the flags and the stored target fit together. */
  predicate Phases(s: Pool) {
    && s.current < |s.channels| && s.target >= 0
    && (s.admin.Raised? ==> s.admin.before <= s.admin.num == s.target)
    && (s.stopped ==> s.admin.Free? || InStop(s))
    && (InStop(s) ==> s.stopped)
    && (s.quitClosed ==> s.stopped && s.target == 0 && !s.admin.StopClaimed? && !s.admin.StopZeroed?)
    && (s.admin.StopZeroed? ==> s.target == 0)
    && (forall w :: 0 <= w < |s.workers| && s.workers[w].Quitting? ==> s.quitClosed)
  }

  ghost predicate Inv(s: Pool) {
    && Phases(s)
    && s.active == Count(s.workers, Counted) + InLaunch(s)
    && forall v :: 1 <= v <= Effective(s) ==> Covers(s, v)
  }

  lemma InitInv(size: nat)
    ensures Inv(Init(size))
  {}

  /** Replacing one worker's position moves each count by what that worker contributed. */
  lemma Moved(s: Pool, w: nat, pc: Worker)
    requires w < |s.workers|
    ensures Count(s.workers[w := pc], Counted) + (if Counted(s.workers[w]) then 1 else 0)
         == Count(s.workers, Counted) + (if Counted(pc) then 1 else 0)
    ensures forall v {:trigger BackAt(v)} ::
      Count(s.workers[w := pc], BackAt(v)) + (if WillReturn(v, s.workers[w]) then 1 else 0)
      == Count(s.workers, BackAt(v)) + (if WillReturn(v, pc) then 1 else 0)
  {
    CountUpdate(s.workers, w, pc, Counted);
    forall v {:trigger BackAt(v)}
      ensures Count(s.workers[w := pc], BackAt(v)) + (if WillReturn(v, s.workers[w]) then 1 else 0)
           == Count(s.workers, BackAt(v)) + (if WillReturn(v, pc) then 1 else 0)
    {
      CountUpdate(s.workers, w, pc, BackAt(v));
    }
  }

  /** What one worker's move must respect: the counter follows its own standing, and for every
      target answered for, it either leaves enough behind or
      will bring back what it takes. */
  ghost predicate FairMove(s: Pool, w: nat, t: Pool) {
    && w < |s.workers| && |t.workers| == |s.workers| && t.workers == s.workers[w := t.workers[w]]
    && (t.admin, t.target, t.started, t.stopped, t.quitClosed)
       == (s.admin, s.target, s.started, s.stopped, s.quitClosed)
    && t.current < |t.channels|
    && t.active - s.active == (if Counted(t.workers[w]) then 1 else 0) - (if Counted(s.workers[w]) then 1 else 0)
    && (forall v :: 1 <= v <= Effective(s) ==>
          t.active >= v ||
          t.active + (if WillReturn(v, t.workers[w]) then 1 else 0)
          >= s.active + (if WillReturn(v, s.workers[w]) then 1 else 0))
    && (t.workers[w].Quitting? ==> t.quitClosed)
  }

  lemma RetireMove(s: Pool, w: nat, k: WorkerStep)
    requires Phases(s) && WorkEnabled(s, w, k) && Retires(k)
    ensures FairMove(s, w, ApplyWork(s, w, k))
  {}

  lemma RunMove(s: Pool, w: nat, k: WorkerStep)
    requires Phases(s) && WorkEnabled(s, w, k) && !Retires(k)
    ensures FairMove(s, w, ApplyWork(s, w, k))
  {}

  lemma WorkerMove(s: Pool, w: nat, k: WorkerStep)
    requires Inv(s) && WorkEnabled(s, w, k)
    ensures FairMove(s, w, ApplyWork(s, w, k))
  {
    if Retires(k) {
      RetireMove(s, w, k);
    } else {
      RunMove(s, w, k);
    }
  }

  lemma FairMoveInv(s: Pool, w: nat, t: Pool)
    requires Inv(s) && FairMove(s, w, t)
    ensures Inv(t)
  {
    Moved(s, w, t.workers[w]);
    forall v | 1 <= v <= Effective(t)
      ensures Covers(t, v)
    {
      assert Covers(s, v);
      assert BackAt(v) == BackAt(v);
    }
  }

  /** The mutex holder's steps: phases stay consistent, and every target newly answered for is
      covered by what is counted or owed. */
  predicate AdminMoves(s: Pool, m: AdminStep, t: Pool) {
      && Phases(t)
      && t.workers == (if m.Launch? then s.workers + [Top] else s.workers)
      && t.active - InLaunch(t) == s.active - InLaunch(s) + (if m.Launch? then 1 else 0)
      && (Effective(t) > Effective(s) ==> t.active + Owed(t) >= Effective(t) || s.active < 0)
      && (Effective(t) <= Effective(s) ==> t.active + Owed(t) >= s.active + Owed(s))
  }

  lemma StartMove(cfg: Config, s: Pool, m: AdminStep)
    requires Starts(m) && Phases(s) && AdminEnabled(s, m)
    ensures AdminMoves(s, m, ApplyAdmin(cfg, s, m))
  {}

  lemma RequeueMove(cfg: Config, s: Pool, m: AdminStep)
    requires Requeues(m) && Phases(s) && AdminEnabled(s, m)
    ensures AdminMoves(s, m, ApplyAdmin(cfg, s, m))
  {}

  lemma StopMove(cfg: Config, s: Pool, m: AdminStep)
    requires Stops(m) && Phases(s) && AdminEnabled(s, m)
    ensures AdminMoves(s, m, ApplyAdmin(cfg, s, m))
  {}

  lemma AdminMove(cfg: Config, s: Pool, m: AdminStep)
    requires Phases(s) && AdminEnabled(s, m)
    ensures AdminMoves(s, m, ApplyAdmin(cfg, s, m))
  {
    if Starts(m) {
      StartMove(cfg, s, m);
    } else if Requeues(m) {
      RequeueMove(cfg, s, m);
    } else {
      StopMove(cfg, s, m);
    }
  }

  lemma AdminInv(cfg: Config, s: Pool, m: AdminStep)
    requires Inv(s) && AdminEnabled(s, m)
    ensures Inv(ApplyAdmin(cfg, s, m))
  {
    var t := ApplyAdmin(cfg, s, m);
    AdminMove(cfg, s, m);
    CountAppend(s.workers, Top, Counted);
    forall v | 1 <= v <= Effective(t)
      ensures Covers(t, v)
    {
      CountAppend(s.workers, Top, BackAt(v));
      assert v <= Effective(s) ==> Covers(s, v);
    }
  }

  lemma StepInv(cfg: Config, s: Pool, a: Action)
    requires Inv(s) && Enabled(s, a)
    ensures Inv(Apply(cfg, s, a))
  {
    match a {
      case Manage(m) =>
        AdminInv(cfg, s, m);
      case Work(w, k) =>
        WorkerMove(s, w, k);
        FairMoveInv(s, w, ApplyWork(s, w, k));
      case Call(i, c) =>
        CallFrame(s, i, c);
        SameWorkers(s, ApplyCall(s, i, c));
      case _ =>
        SameWorkers(s, Apply(cfg, s, a));
    }
  }

  /** Submitters touch their own position and the queue. */
  lemma CallFrame(s: Pool, i: nat, c: CallStep)
    requires s.current < |s.channels| && CallEnabled(s, i, c)
    ensures var t := ApplyCall(s, i, c);
      && (t.workers, t.admin, t.target, t.active, t.started, t.stopped, t.quitClosed, t.current)
         == (s.workers, s.admin, s.target, s.active, s.started, s.stopped, s.quitClosed, s.current)
      && |t.channels| == |s.channels|
      && forall k :: 0 <= k < |s.channels| ==> t.channels[k].capacity == s.channels[k].capacity
  {}

  lemma SameWorkers(s: Pool, t: Pool)
    requires Inv(s)
    requires (t.workers, t.active, t.admin, t.target, t.stopped, t.quitClosed)
          == (s.workers, s.active, s.admin, s.target, s.stopped, s.quitClosed)
    requires t.current < |t.channels|
    ensures Inv(t)
  {
    forall v | 1 <= v <= Effective(t)
      ensures Covers(t, v)
    {
      assert Covers(s, v);
    }
  }

  lemma {:induction false} RunInv(cfg: Config, s: Pool, acts: seq<Action>, t: Pool)
    requires Inv(s) && Runs(cfg, s, acts, t)
    ensures Inv(t)
    decreases |acts|
  {
    if |acts| > 0 {
      StepInv(cfg, s, acts[0]);
      RunInv(cfg, Apply(cfg, s, acts[0]), acts[1..], t);
    }
  }

  lemma ReachableInv(cfg: Config, s: Pool)
    requires Reachable(cfg, s)
    ensures Inv(s)
  {
    var size: nat, acts :| size > 0 && Runs(cfg, Init(size), acts, s);
    RunInv(cfg, Init(size), acts, s);
  }

  /** No worker is between its deduction and its decision. */
  predicate NoRetirement(s: Pool) {
    forall w :: 0 <= w < |s.workers| ==> !s.workers[w].Deducted? && !s.workers[w].Returning?
  }

  /** In every reachable state the counter is exactly the live workers that have not been deducted,
      plus one between its increment and the go statement. */
  lemma CounterExact(cfg: Config, s: Pool)
    requires Reachable(cfg, s)
    ensures s.active == Count(s.workers, Counted) + InLaunch(s)
    ensures s.active >= 0
  {
    ReachableInv(cfg, s);
  }

  /** Whatever the interleaving, once no resize and no retirement is under way there are enough workers. */
  lemma NeverShort(cfg: Config, s: Pool)
    requires Reachable(cfg, s) && s.admin.Free? && NoRetirement(s)
    ensures s.active >= s.target
    ensures Count(s.workers, Counted) >= s.target
  {
    ReachableInv(cfg, s);
    if s.target >= 1 {
      assert Covers(s, s.target);
      CountNone(s.workers, BackAt(s.target));
    }
  }

  /** The counter as it will stand when every pending deduction is decided at the present target. */
  ghost function Prospect(s: Pool): int { s.active + Count(s.workers, BackAt(s.target)) }

  /** A pool that runs and that nobody is resizing or stopping. */
  predicate Undisturbed(s: Pool) {
    && s.started && !s.stopped
    && (s.admin.Free? || s.admin.Swapped? || s.admin.Draining? || s.admin.Forwarding?)
  }

  lemma ProspectCovers(s: Pool)
    requires Inv(s) && Undisturbed(s)
    ensures Prospect(s) >= s.target
  {
    assert s.target >= 1 ==> Covers(s, s.target);
  }

  /** While nobody resizes, no worker or submitter step raises the prospect, and none takes it below target. */
  lemma ProspectFalls(cfg: Config, s: Pool, a: Action)
    requires Inv(s) && Undisturbed(s) && Enabled(s, a) && !a.Manage?
    ensures Inv(Apply(cfg, s, a)) && Undisturbed(Apply(cfg, s, a)) && Apply(cfg, s, a).target == s.target
    ensures s.target <= Prospect(Apply(cfg, s, a)) <= Prospect(s)
  {
    var t := Apply(cfg, s, a);
    StepInv(cfg, s, a);
    if a.Work? {
      WorkerMove(s, a.w, a.k);
      Moved(s, a.w, t.workers[a.w]);
      ProspectMove(s, a.w, a.k);
      assert BackAt(s.target) == BackAt(t.target);
    }
    ProspectCovers(t);
  }

  lemma ProspectMove(s: Pool, w: nat, k: WorkerStep)
    requires Inv(s) && Undisturbed(s) && WorkEnabled(s, w, k)
    ensures var t := ApplyWork(s, w, k);
      t.active + (if WillReturn(s.target, t.workers[w]) then 1 else 0)
      <= s.active + (if WillReturn(s.target, s.workers[w]) then 1 else 0)
  {}

  /** A pool whose prospect equals its target stays so through every interleaving of workers and
      submitters, and holds exactly the target whenever no retirement is under way. */
  lemma {:induction false} SettledStaysSettled(cfg: Config, s: Pool, acts: seq<Action>, t: Pool)
    requires Reachable(cfg, s) && Undisturbed(s) && Prospect(s) == s.target
    requires Runs(cfg, s, acts, t)
    requires forall k :: 0 <= k < |acts| ==> !acts[k].Manage?
    ensures t.target == s.target && Prospect(t) == t.target
    ensures NoRetirement(t) ==> t.active == t.target
  {
    ReachableInv(cfg, s);
    SettledRun(cfg, s, acts, t);
    if NoRetirement(t) {
      CountNone(t.workers, BackAt(t.target));
    }
  }

  lemma {:induction false} SettledRun(cfg: Config, s: Pool, acts: seq<Action>, t: Pool)
    requires Inv(s) && Undisturbed(s) && Prospect(s) == s.target
    requires Runs(cfg, s, acts, t)
    requires forall k :: 0 <= k < |acts| ==> !acts[k].Manage?
    ensures Inv(t) && t.target == s.target && Prospect(t) == t.target
    decreases |acts|
  {
    if |acts| > 0 {
      var u := Apply(cfg, s, acts[0]);
      ProspectFalls(cfg, s, acts[0]);
      SettledRun(cfg, u, acts[1..], t);
    }
  }

  lemma {:induction false} RunsConcat(cfg: Config, s: Pool, a: seq<Action>, t: Pool, b: seq<Action>, u: Pool)
    requires Runs(cfg, s, a, t) && Runs(cfg, t, b, u)
    ensures Runs(cfg, s, a + b, u)
    decreases |a|
  {
    if |a| == 0 {
      assert a + b == b;
    } else {
      assert (a + b)[0] == a[0] && (a + b)[1..] == a[1..] + b && |a + b| > 0;
      RunsConcat(cfg, Apply(cfg, s, a[0]), a[1..], t, b, u);
    }
  }

  /** A step of worker w leads from s to t. */
  lemma OneStep(cfg: Config, s: Pool, w: nat, k: WorkerStep, t: Pool)
    requires s.current < |s.channels| && WorkEnabled(s, w, k) && t == ApplyWork(s, w, k)
    ensures Runs(cfg, s, [Work(w, k)], t)
  {
    assert [Work(w, k)][1..] == [];
  }

  /** A schedule that moves workers only. */
  ghost predicate WorkersOnly(acts: seq<Action>) {
    forall k :: 0 <= k < |acts| ==> acts[k].Work?
  }

  /** While the counter is above target, a worker at its loop top that runs alone retires. */
  lemma RetireFromTop(cfg: Config, s: Pool, w: nat) returns (acts: seq<Action>, t: Pool)
    requires s.current < |s.channels| && w < |s.workers| && s.workers[w].Top? && s.active > s.target
    ensures Runs(cfg, s, acts, t) && WorkersOnly(acts)
    ensures t == s.(workers := s.workers[w := Leaving], active := s.active - 1)
  {
    var s1 := ApplyWork(s, w, LoadActive);
    var s2 := ApplyWork(s1, w, LoadTarget);
    var s3 := ApplyWork(s2, w, Swap);
    t := ApplyWork(s3, w, Recheck);
    assert t.workers == s.workers[w := Leaving];
    OneStep(cfg, s3, w, Recheck, t);
    OneStep(cfg, s2, w, Swap, s3);
    OneStep(cfg, s1, w, LoadTarget, s2);
    OneStep(cfg, s, w, LoadActive, s1);
    RunsConcat(cfg, s2, [Work(w, Swap)], s3, [Work(w, Recheck)], t);
    RunsConcat(cfg, s1, [Work(w, LoadTarget)], s2, [Work(w, Swap)] + [Work(w, Recheck)], t);
    acts := [Work(w, LoadActive)] + ([Work(w, LoadTarget)] + ([Work(w, Swap)] + [Work(w, Recheck)]));
    RunsConcat(cfg, s, [Work(w, LoadActive)], s1, acts[1..], t);
  }

  /** Extend a workers-only schedule at its front. */
  lemma Prepend(cfg: Config, s: Pool, w: nat, k: WorkerStep, u: Pool, acts: seq<Action>, t: Pool)
    requires s.current < |s.channels| && WorkEnabled(s, w, k) && u == ApplyWork(s, w, k)
    requires Runs(cfg, u, acts, t) && WorkersOnly(acts)
    ensures Runs(cfg, s, [Work(w, k)] + acts, t) && WorkersOnly([Work(w, k)] + acts)
  {
    OneStep(cfg, s, w, k, u);
    RunsConcat(cfg, s, [Work(w, k)], u, acts, t);
  }

  predicate Undecided(pc: Worker) { pc.Deducted? }

  predicate Deciding(pc: Worker) { pc.Deducted? || pc.Returning? }

  /** Some counted worker can be brought to retire. */
  lemma RetireOne(cfg: Config, s: Pool, w: nat) returns (acts: seq<Action>, t: Pool)
    requires Inv(s) && Undisturbed(s) && NoRetirement(s)
    requires w < |s.workers| && Counted(s.workers[w]) && s.active > s.target
    ensures Runs(cfg, s, acts, t) && WorkersOnly(acts)
    ensures t.active == s.active - 1 && t.target == s.target && NoRetirement(t)
    ensures Undisturbed(t)
    decreases match s.workers[w]
      case Top => 0
      case Waiting(_) => 1
      case Holding(_) => 1
      case Pick => 2
      case Swapping(_) => 3
      case _ => 4
  {
    var pc := s.workers[w];
    if pc.Top? {
      acts, t := RetireFromTop(cfg, s, w);
    } else {
      assert !pc.Quitting?;
      var k := match pc
        case LoadedActive(_) => LoadTarget
        case Swapping(_) => Swap
        case Pick => ReadQueue
        case Waiting(_) => Wake
        case _ => Execute;
      var u := ApplyWork(s, w, k);
      WorkerMove(s, w, k);
      FairMoveInv(s, w, u);
      if u.workers[w].Deducted? {
        t := ApplyWork(u, w, Recheck);
        OneStep(cfg, u, w, Recheck, t);
        acts := [Work(w, Recheck)];
      } else {
        acts, t := RetireOne(cfg, u, w);
      }
      Prepend(cfg, s, w, k, u, acts, t);
      acts := [Work(w, k)] + acts;
    }
  }

  /** From every reachable state in which nobody is resizing or stopping, the workers alone can bring
      the pool to rest with exactly the target in place: no execution can strand it above or below. */
  lemma CanSettle(cfg: Config, s: Pool) returns (acts: seq<Action>, t: Pool)
    requires Reachable(cfg, s) && Undisturbed(s)
    ensures Runs(cfg, s, acts, t) && WorkersOnly(acts)
    ensures NoRetirement(t) && t.target == s.target && t.active == t.target
    ensures Count(t.workers, Counted) == t.target
  {
    ReachableInv(cfg, s);
    var a, u := FinishDecisions(cfg, s);
    RunInv(cfg, s, a, u);
    var b;
    b, t := RetireSurplus(cfg, u);
    RunInv(cfg, u, b, t);
    RunsConcat(cfg, s, a, u, b, t);
    acts := a + b;
  }

  lemma RetireSurplus(cfg: Config, s: Pool) returns (acts: seq<Action>, t: Pool)
    requires Inv(s) && Undisturbed(s) && NoRetirement(s)
    ensures Runs(cfg, s, acts, t) && WorkersOnly(acts)
    ensures NoRetirement(t) && Undisturbed(t) && t.target == s.target && t.active == t.target
    decreases s.active - s.target
  {
    ProspectCovers(s);
    CountNone(s.workers, BackAt(s.target));
    if s.active == s.target {
      acts, t := [], s;
    } else {
      var w := CountWitness(s.workers, Counted);
      var a, u := RetireOne(cfg, s, w);
      RunInv(cfg, s, a, u);
      var b;
      b, t := RetireSurplus(cfg, u);
      RunsConcat(cfg, s, a, u, b, t);
      acts := a + b;
    }
  }

  /** Let every deducted worker decide: it leaves or takes its place back. */
  lemma FinishDecisions(cfg: Config, s: Pool) returns (acts: seq<Action>, t: Pool)
    requires Inv(s) && Undisturbed(s)
    ensures Runs(cfg, s, acts, t) && WorkersOnly(acts)
    ensures NoRetirement(t) && Undisturbed(t) && t.target == s.target
    decreases Count(s.workers, Deciding), Count(s.workers, Undecided)
  {
    if Count(s.workers, Deciding) == 0 {
      forall w | 0 <= w < |s.workers|
        ensures !Deciding(s.workers[w])
      {
        if Deciding(s.workers[w]) {
          CountPositive(s.workers, w, Deciding);
        }
      }
      acts, t := [], s;
    } else {
      var w := CountWitness(s.workers, Deciding);
      var k := if s.workers[w].Deducted? then Recheck else AddBack;
      var u := ApplyWork(s, w, k);
      WorkerMove(s, w, k);
      FairMoveInv(s, w, u);
      CountUpdate(s.workers, w, u.workers[w], Deciding);
      CountUpdate(s.workers, w, u.workers[w], Undecided);
      acts, t := FinishDecisions(cfg, u);
      Prepend(cfg, s, w, k, u, acts, t);
      acts := [Work(w, k)] + acts;
    }
  }
}
