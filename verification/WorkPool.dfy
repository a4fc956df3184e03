/** The goroutine pool as a machine whose steps are the atomic loads, stores, compare-and-swaps,
    channel operations and lock regions of the source. Any interleaving of workers, submitters and
    one holder of the state mutex is a sequence of these steps. */
module WorkPool {
  import opened Counting

  datatype Config = Config(initial: nat, maxWorkers: int, cpus: nat)

  datatype Channel = Channel(buf: seq<nat>, capacity: nat, closed: bool)

  /** Where a worker goroutine stands. */
  datatype Worker =
    | Top                        // loop top, about to load activeWorkers
    | LoadedActive(a: int)       // about to load targetWorkers
    | Swapping(a: int)           // saw a > target, about to compare-and-swap a to a-1
    | Deducted(a: int)           // swap done, about to look at the target again
    | Returning                  // about to add its deduction back
    | Pick                       // about to read the queue field under the read lock
    | Waiting(queue: nat)        // in select on the queue it read
    | Holding(task: nat)         // executing a task
    | Quitting                   // saw quit closed, deferred decrement still to run
    | Leaving                    // counter settled, wg.Done still to run
    | Gone

  datatype SubmitKind = Blocking | NonBlocking | Timed

  datatype SubmitPc =
    | Calling     // before the first look at stopped
    | Ready       // about to take the read lock
    | Locked      // read lock held, stopped not yet looked at again
    | Cleared     // read lock held, stopped seen false
    | Retrying    // queue was full, waiting for tick, quit or deadline
    | Accepted
    | Refused

  /** One call of Submit, TrySubmit or SubmitWithTimeout; id names its task. */
  datatype Submitter = Submitter(id: nat, kind: SubmitKind, pc: SubmitPc)

  /** What the holder of stateMutex is doing. */
  datatype Admin =
    | Free
    | StartClaimed
    | Starting(owed: nat)                  // workers still to start
    | Reserved(owed: nat)                  // activeWorkers raised, go statement next
    | Raised(before: int, num: int)        // larger target stored, activeWorkers not yet read
    | Swapped(retired: nat)                 // queue field replaced, old queue not yet closed
    | Draining(retired: nat, got: seq<nat>)    // old queue closed, being emptied
    | Forwarding(rest: seq<nat>)           // drained tasks being sent to the new queue
    | StopClaimed                          // stopped set
    | StopZeroed                           // target stored as 0
    | StopWaiting                          // quit closed, waiting for the workers
    | StopLocked                           // write lock held, queue not yet closed
    | Collecting(got: seq<nat>)            // queue closed, remaining tasks being taken out

  datatype Pool = Pool(
    started: bool, stopped: bool, quitClosed: bool,
    target: int, active: int,
    channels: seq<Channel>, current: nat,
    workers: seq<Worker>, submitters: seq<Submitter>, admin: Admin,
    remaining: seq<nat>, executed: seq<nat>)

  /** The settings of a new pool and the size of its queue, defaults filled in. */
  function New(minWorkers: int, maxWorkers: int, queueSize: int, cpus: nat): (Config, nat) {
    var n := if minWorkers <= 0 then cpus * 2 else minWorkers;
    var initial := if maxWorkers > 0 && n > maxWorkers then maxWorkers else n;
    (Config(initial, maxWorkers, cpus), if queueSize <= 0 then initial * 10 else queueSize)
  }

  function Init(queueSize: nat): Pool {
    Pool(false, false, false, 0, 0, [Channel([], queueSize, false)], 0, [], [], Free, [], [])
  }

  /** Steps of whoever holds stateMutex. */
  datatype AdminStep =
    | StartCall | StoreInitial | Reserve | Launch
    | Resize(num: int) | ReadActive
    | Requeue(size: int) | CloseOld | DrainOne | DrainEnd | ForwardOne | ForwardEnd
    | StopCall | StoreZero | CloseQuit | LockQueue | CloseQueue | CollectOne | CollectEnd
    | StopAgain                  // a later Stop finds stopped set, and returns

  predicate Starts(m: AdminStep) {
    m.StartCall? || m.StoreInitial? || m.Reserve? || m.Launch? || m.Resize? || m.ReadActive?
  }

  predicate Requeues(m: AdminStep) {
    m.Requeue? || m.CloseOld? || m.DrainOne? || m.DrainEnd? || m.ForwardOne? || m.ForwardEnd?
  }

  predicate Stops(m: AdminStep) {
    m.StopCall? || m.StoreZero? || m.CloseQuit? || m.LockQueue? || m.CloseQueue? || m.CollectOne?
    || m.CollectEnd? || m.StopAgain?
  }

  /** Steps by which a worker sees to its own number. */
  predicate Retires(k: WorkerStep) {
    k.LoadActive? || k.LoadTarget? || k.Swap? || k.Recheck? || k.AddBack?
  }

  datatype CallStep = FirstCheck | ReadLock | SecondCheck | TrySend | Tick | GiveUp

  datatype WorkerStep =
    | LoadActive | LoadTarget | Swap | Recheck | AddBack
    | ReadQueue | Receive | ReceiveClosed | SeeQuit | Wake | Execute
    | Decrement | WaitGroupDone

  datatype Action =
    | Manage(m: AdminStep)
    | Submit(kind: SubmitKind)
    | Call(i: nat, c: CallStep)
    | Work(w: nat, k: WorkerStep)
    | RunRemaining               // Stop, its locks released, executes one remaining task

  /** The number UpdateWorkers works with: a default for non-positive requests, capped when a cap is set. */
  function Normalize(cfg: Config, num: int): int {
    var n := if num <= 0 then cfg.cpus * 2 else num;
    if cfg.maxWorkers > 0 && n > cfg.maxWorkers then cfg.maxWorkers else n
  }

  predicate ReadsQueue(sub: Submitter) { sub.pc.Locked? || sub.pc.Cleared? }

  /** Nobody holds the read side of queueMutex. */
  predicate NoReaders(s: Pool) {
    forall i :: 0 <= i < |s.submitters| ==> !ReadsQueue(s.submitters[i])
  }

  /** The write side of queueMutex is free. */
  predicate NoWriter(s: Pool) { !s.admin.StopLocked? && !s.admin.Collecting? }

  predicate AdminEnabled(s: Pool, m: AdminStep)
    requires s.current < |s.channels|
  {
    match m
    case StartCall => s.admin.Free? && !s.stopped && !s.started
    case StoreInitial => s.admin.StartClaimed?
    case Reserve => s.admin.Starting? && s.admin.owed > 0
    case Launch => s.admin.Reserved?
    case Resize(_) => s.admin.Free? && !s.stopped && s.started
    case ReadActive => s.admin.Raised?
    case Requeue(size) =>
      s.admin.Free? && !s.stopped && s.started && size > 0 &&
      size != s.channels[s.current].capacity && NoReaders(s)
    case CloseOld => s.admin.Swapped? && s.admin.retired < |s.channels|
    case DrainOne =>
      s.admin.Draining? && s.admin.retired < |s.channels| && s.channels[s.admin.retired].buf != []
    case DrainEnd =>
      s.admin.Draining? && s.admin.retired < |s.channels| && s.channels[s.admin.retired].buf == []
    case ForwardOne =>
      s.admin.Forwarding? && s.admin.rest != [] &&
      |s.channels[s.current].buf| < s.channels[s.current].capacity
    case ForwardEnd => s.admin.Forwarding? && s.admin.rest == []
    case StopCall => s.admin.Free? && !s.stopped
    case StopAgain => s.admin.Free? && s.stopped
    case StoreZero => s.admin.StopClaimed?
    case CloseQuit => s.admin.StopZeroed?
    case LockQueue =>
      s.admin.StopWaiting? && NoReaders(s) &&
      forall w :: 0 <= w < |s.workers| ==> s.workers[w].Gone?
    case CloseQueue => s.admin.StopLocked?
    case CollectOne => s.admin.Collecting? && s.channels[s.current].buf != []
    case CollectEnd => s.admin.Collecting? && s.channels[s.current].buf == []
  }

  predicate CallEnabled(s: Pool, i: nat, c: CallStep) {
    i < |s.submitters| &&
    match c
    case FirstCheck => s.submitters[i].pc.Calling?
    case ReadLock => s.submitters[i].pc.Ready? && NoWriter(s)
    case SecondCheck => s.submitters[i].pc.Locked?
    case TrySend => s.submitters[i].pc.Cleared?
    case Tick => s.submitters[i].pc.Retrying?
    case GiveUp => s.submitters[i].pc.Retrying? && (s.quitClosed || s.submitters[i].kind.Timed?)
  }

  predicate WorkEnabled(s: Pool, w: nat, k: WorkerStep) {
    w < |s.workers| &&
    var pc := s.workers[w];
    match k
    case LoadActive => pc.Top?
    case LoadTarget => pc.LoadedActive?
    case Swap => pc.Swapping?
    case Recheck => pc.Deducted?
    case AddBack => pc.Returning?
    case ReadQueue => pc.Pick? && NoWriter(s)
    case Receive => pc.Waiting? && pc.queue < |s.channels| && s.channels[pc.queue].buf != []
    case ReceiveClosed =>
      pc.Waiting? && pc.queue < |s.channels| && s.channels[pc.queue].buf == [] && s.channels[pc.queue].closed
    case SeeQuit => pc.Waiting? && s.quitClosed
    case Wake => pc.Waiting?
    case Execute => pc.Holding?
    case Decrement => pc.Quitting?
    case WaitGroupDone => pc.Leaving?
  }

  predicate Enabled(s: Pool, a: Action) {
    s.current < |s.channels| &&
    match a
    case Manage(m) => AdminEnabled(s, m)
    case Submit(_) => true
    case Call(i, c) => CallEnabled(s, i, c)
    case Work(w, k) => WorkEnabled(s, w, k)
    case RunRemaining => s.remaining != []
  }

  function SetWorker(s: Pool, w: nat, pc: Worker): Pool
    requires w < |s.workers|
  {
    s.(workers := s.workers[w := pc])
  }

  function SetSubmitter(s: Pool, i: nat, pc: SubmitPc): Pool
    requires i < |s.submitters|
  {
    s.(submitters := s.submitters[i := s.submitters[i].(pc := pc)])
  }

  function Close(s: Pool, c: nat): Pool
    requires c < |s.channels|
  {
    s.(channels := s.channels[c := s.channels[c].(closed := true)])
  }

  function Pop(s: Pool, c: nat): Pool
    requires c < |s.channels| && s.channels[c].buf != []
  {
    s.(channels := s.channels[c := s.channels[c].(buf := s.channels[c].buf[1..])])
  }

  function Push(s: Pool, c: nat, task: nat): Pool
    requires c < |s.channels|
  {
    s.(channels := s.channels[c := s.channels[c].(buf := s.channels[c].buf + [task])])
  }

  function ApplyAdmin(cfg: Config, s: Pool, m: AdminStep): Pool
    requires s.current < |s.channels| && AdminEnabled(s, m)
  {
    match m
    case StartCall => s.(started := true, admin := StartClaimed)
    case StoreInitial =>
      s.(target := cfg.initial, admin := if cfg.initial == 0 then Free else Starting(cfg.initial))
    case Reserve => s.(active := s.active + 1, admin := Reserved(s.admin.owed - 1))
    case Launch =>
      s.(workers := s.workers + [Top], admin := if s.admin.owed == 0 then Free else Starting(s.admin.owed))
    case Resize(num) =>
      var n := Normalize(cfg, num);
      if n == s.target then s
      else if n > s.target then s.(target := n, admin := Raised(s.target, n))
      else s.(target := n)
    case ReadActive =>
      if s.active < s.admin.num then s.(admin := Starting(s.admin.num - s.active)) else s.(admin := Free)
    case Requeue(size) =>
      s.(channels := s.channels + [Channel([], size, false)], current := |s.channels|,
         admin := Swapped(s.current))
    case CloseOld => Close(s, s.admin.retired).(admin := Draining(s.admin.retired, []))
    case DrainOne =>
      Pop(s, s.admin.retired)
        .(admin := Draining(s.admin.retired, s.admin.got + [s.channels[s.admin.retired].buf[0]]))
    case DrainEnd => s.(admin := Forwarding(s.admin.got))
    case ForwardOne => Push(s, s.current, s.admin.rest[0]).(admin := Forwarding(s.admin.rest[1..]))
    case ForwardEnd => s.(admin := Free)
    case StopCall => s.(stopped := true, admin := StopClaimed)
    case StoreZero => s.(target := 0, admin := StopZeroed)
    case CloseQuit => s.(quitClosed := true, admin := StopWaiting)
    case LockQueue => s.(admin := StopLocked)
    case CloseQueue => Close(s, s.current).(admin := Collecting([]))
    case CollectOne =>
      Pop(s, s.current).(admin := Collecting(s.admin.got + [s.channels[s.current].buf[0]]))
    case CollectEnd => s.(remaining := s.admin.got, admin := Free)
    case StopAgain => s
  }

  function ApplyCall(s: Pool, i: nat, c: CallStep): Pool
    requires s.current < |s.channels| && CallEnabled(s, i, c)
  {
    match c
    case FirstCheck => SetSubmitter(s, i, if s.stopped then Refused else Ready)
    case ReadLock => SetSubmitter(s, i, Locked)
    case SecondCheck => SetSubmitter(s, i, if s.stopped then Refused else Cleared)
    case TrySend =>
      if |s.channels[s.current].buf| < s.channels[s.current].capacity then
        Push(SetSubmitter(s, i, Accepted), s.current, s.submitters[i].id)
      else
        SetSubmitter(s, i, if s.submitters[i].kind.NonBlocking? then Refused else Retrying)
    case Tick => SetSubmitter(s, i, Ready)
    case GiveUp => SetSubmitter(s, i, Refused)
  }

  function ApplyWork(s: Pool, w: nat, k: WorkerStep): Pool
    requires WorkEnabled(s, w, k)
  {
    var pc := s.workers[w];
    match k
    case LoadActive => SetWorker(s, w, LoadedActive(s.active))
    case LoadTarget => SetWorker(s, w, if pc.a <= s.target then Pick else Swapping(pc.a))
    case Swap =>
      if s.active == pc.a then SetWorker(s, w, Deducted(pc.a)).(active := s.active - 1)
      else SetWorker(s, w, Top)
    case Recheck => SetWorker(s, w, if pc.a - 1 < s.target then Returning else Leaving)
    case AddBack => SetWorker(s, w, Pick).(active := s.active + 1)
    case ReadQueue => SetWorker(s, w, Waiting(s.current))
    case Receive => Pop(SetWorker(s, w, Holding(s.channels[pc.queue].buf[0])), pc.queue)
    case ReceiveClosed => SetWorker(s, w, Top)
    case SeeQuit => SetWorker(s, w, Quitting)
    case Wake => SetWorker(s, w, Top)
    case Execute => SetWorker(s, w, Top).(executed := s.executed + [pc.task])
    case Decrement => SetWorker(s, w, Leaving).(active := s.active - 1)
    case WaitGroupDone => SetWorker(s, w, Gone)
  }

  function Apply(cfg: Config, s: Pool, a: Action): Pool
    requires Enabled(s, a)
  {
    match a
    case Manage(m) => ApplyAdmin(cfg, s, m)
    case Submit(kind) => s.(submitters := s.submitters + [Submitter(|s.submitters|, kind, Calling)])
    case Call(i, c) => ApplyCall(s, i, c)
    case Work(w, k) => ApplyWork(s, w, k)
    case RunRemaining => s.(executed := s.executed + [s.remaining[0]], remaining := s.remaining[1..])
  }

  /** acts is a possible interleaving from s to t. */
  ghost predicate Runs(cfg: Config, s: Pool, acts: seq<Action>, t: Pool)
    decreases |acts|
  {
    if |acts| == 0 then s == t
    else Enabled(s, acts[0]) && Runs(cfg, Apply(cfg, s, acts[0]), acts[1..], t)
  }

  lemma {:induction false} RunsThen(cfg: Config, s: Pool, acts: seq<Action>, t: Pool, a: Action)
    requires Runs(cfg, s, acts, t) && Enabled(t, a)
    ensures Runs(cfg, s, acts + [a], Apply(cfg, t, a))
    decreases |acts|
  {
    if acts == [] {
      assert [a][1..] == [] && acts + [a] == [a];
    } else {
      RunsThen(cfg, Apply(cfg, s, acts[0]), acts[1..], t, a);
      assert (acts + [a])[1..] == acts[1..] + [a];
    }
  }

  ghost predicate Reachable(cfg: Config, s: Pool) {
    exists size: nat, acts: seq<Action> :: size > 0 && Runs(cfg, Init(size), acts, s)
  }
}
