/** Which number the pool aims at: that of the last resize, capped, or the initial one when there was none. */
module PoolTarget {
  import opened Counting
  import opened Options
  import opened WorkPool
  import PoolCount

  /** n is what a request for num workers amounts to: the number itself, or the cap where it is above it;
      not a positive number stands for two workers a processor. */
  predicate Amounts(cfg: Config, num: int, n: int) {
    var cap := cfg.maxWorkers;
    && (num >= 1 && (cap <= 0 || num <= cap) ==> n == num)
    && (num > cap > 0 ==> n == cap)
    && (num <= 0 && (cap <= 0 || 2 * cfg.cpus <= cap) ==> n == 2 * cfg.cpus)
    && (num <= 0 && 2 * cfg.cpus > cap > 0 ==> n == cap)
  }

  /** How a new pool is set up: as many workers as at least asked for, within the cap, and ten queue places
      for each of them when no queue size is given. */
  lemma NewIsWithinLimits(minWorkers: int, maxWorkers: int, queueSize: int, cpus: nat)
    requires cpus >= 1
    ensures var (cfg, size) := New(minWorkers, maxWorkers, queueSize, cpus);
      && cfg.initial >= 1 && cfg.maxWorkers == maxWorkers && cfg.cpus == cpus
      && Amounts(cfg, minWorkers, cfg.initial)
      && size == if queueSize > 0 then queueSize else 10 * cfg.initial
  {}

  /** The number the last resize of a run asked for. */
  function LastResize(acts: seq<Action>): Option<int> {
    if acts == [] then None
    else
      var a := acts[|acts| - 1];
      if a.Manage? && a.m.Resize? then Some(a.m.num) else LastResize(acts[..|acts| - 1])
  }

  /** Started, its initial target stored, and not stopped. */
  predicate Running(s: Pool) { s.started && !s.stopped && !s.admin.StartClaimed? }

  predicate Wished(cfg: Config, asked: Option<int>, n: int) {
    match asked
    case None => n == cfg.initial
    case Some(num) => Amounts(cfg, num, n)
  }

  predicate AimsRight(cfg: Config, asked: Option<int>, s: Pool) {
    && (!s.started || s.admin.StartClaimed? ==> asked == None)
    && (Running(s) ==> Wished(cfg, asked, s.target))
  }

  function AskedAfter(asked: Option<int>, a: Action): Option<int> {
    if a.Manage? && a.m.Resize? then Some(a.m.num) else asked
  }

  lemma ManageAims(cfg: Config, asked: Option<int>, s: Pool, m: AdminStep)
    requires PoolCount.Phases(s) && AdminEnabled(s, m) && AimsRight(cfg, asked, s)
    ensures AimsRight(cfg, AskedAfter(asked, Manage(m)), ApplyAdmin(cfg, s, m))
  {}

  lemma StepAims(cfg: Config, asked: Option<int>, s: Pool, a: Action)
    requires PoolCount.Phases(s) && Enabled(s, a) && AimsRight(cfg, asked, s)
    ensures AimsRight(cfg, AskedAfter(asked, a), Apply(cfg, s, a))
  {
    match a {
      case Manage(m) => ManageAims(cfg, asked, s, m);
      case Call(i, c) => PoolCount.CallFrame(s, i, c);
      case Work(w, k) => WorkLeaves(s, w, k);
      case _ =>
    }
  }

  lemma WorkLeaves(s: Pool, w: nat, k: WorkerStep)
    requires WorkEnabled(s, w, k)
    ensures var t := ApplyWork(s, w, k);
      (t.started, t.stopped, t.target, t.admin) == (s.started, s.stopped, s.target, s.admin)
  {}

  lemma AskedThen(before: seq<Action>, a: Action)
    ensures LastResize(before + [a]) == AskedAfter(LastResize(before), a)
  {
    var more := before + [a];
    assert more[..|more| - 1] == before && more[|more| - 1] == a;
  }

  lemma {:induction false} RunAims(cfg: Config, s: Pool, acts: seq<Action>, t: Pool, before: seq<Action>)
    requires PoolCount.Inv(s) && AimsRight(cfg, LastResize(before), s) && Runs(cfg, s, acts, t)
    ensures AimsRight(cfg, LastResize(before + acts), t)
    decreases |acts|
  {
    if |acts| == 0 {
      assert before + acts == before;
    } else {
      StepAims(cfg, LastResize(before), s, acts[0]);
      PoolCount.StepInv(cfg, s, acts[0]);
      AskedThen(before, acts[0]);
      RunAims(cfg, Apply(cfg, s, acts[0]), acts[1..], t, before + [acts[0]]);
      assert before + acts == before + [acts[0]] + acts[1..];
    }
  }

  /** Main result: whatever the interleaving, a running pool aims at what the last resize asked for - the very
      number when it is positive and within the cap, the cap when it is above it, and two workers a processor,
      capped, when it is not positive - and at the initial number when there was no resize. */
  lemma TargetIsAsked(cfg: Config, size: nat, acts: seq<Action>, s: Pool)
    requires Runs(cfg, Init(size), acts, s) && Running(s)
    ensures LastResize(acts).None? ==> s.target == cfg.initial
    ensures LastResize(acts).Some? ==>
      var (num, cap) := (LastResize(acts).value, cfg.maxWorkers);
      && (num >= 1 && (cap <= 0 || num <= cap) ==> s.target == num)
      && (num > cap > 0 ==> s.target == cap)
      && (num <= 0 && (cap <= 0 || 2 * cfg.cpus <= cap) ==> s.target == 2 * cfg.cpus)
      && (num <= 0 && 2 * cfg.cpus > cap > 0 ==> s.target == cap)
  {
    PoolCount.InitInv(size);
    RunAims(cfg, Init(size), acts, s, []);
    assert [] + acts == acts;
  }

  /** So the workers alone can bring an undisturbed pool to rest with exactly the number asked for. */
  lemma SettlesAsAsked(cfg: Config, size: nat, acts: seq<Action>, s: Pool) returns (more: seq<Action>, t: Pool)
    requires size > 0 && Runs(cfg, Init(size), acts, s) && PoolCount.Undisturbed(s)
    ensures Runs(cfg, s, more, t) && PoolCount.WorkersOnly(more)
    ensures t.active == Count(t.workers, PoolCount.Counted)
    ensures Wished(cfg, LastResize(acts), t.active)
  {
    TargetIsAsked(cfg, size, acts, s);
    more, t := PoolCount.CanSettle(cfg, s);
    PoolCount.RunsConcat(cfg, Init(size), acts, s, more, t);
  }
}
