/** The health centre among its probe goroutines: every look-up under the registry's lock, every atomic store
    and swap, every channel operation of a probe task and every visit of a rebuild is a step of its own, and
    requests come and go in between. */
module HealthProtocol {
  import opened HealthCenter
  import opened Options
  import opened Registry

  /** One record object; a removed record lives on for those that looked it up. */
  datatype Cell = Cell(node: int, health: Health, inflight: int)

  /** Where a probe goroutine stands. */
  datatype ProbePc =
    | Requesting                       // about to probe, or waiting for the answer
    | Concluded(ok: bool)              // in SetHealth, before its look-up
    | Looked(ok: bool, cell: nat)      // has the record, about to store
    | Waiting                          // in select on stop and the ticker
    | Done                             // done is closed

  datatype Prober = Prober(key: TaskKey, stop: bool, pc: ProbePc)

  /** Where a request stands with the in-flight count of its node. */
  datatype Request =
    | Selected(node: int)
    | Adding(node: int, cell: nat)
    | Forwarded(node: int)
    | Releasing(cell: nat)
    | Swapping(cell: nat, cur: int)
    | Answered

  /** What the holder of the centre's mutex is doing. */
  datatype Phase =
    | Dropping                         // first pass
    | Stopping(id: int)                // stop closed, waiting for done
    | Clearing(id: int)                // about to forget the member, and its record unless it comes back
    | Admitting                        // second pass
    | Showing(id: int, cell: nat)      // in SetHealth, has the record, about to store OK
    | Ensuring(id: int, cell: nat)     // in Ensure, has the record, about to compare and swap
    | Launching(id: int)               // about to start the goroutine

  /** left: the members, or wanted members, the pass has not visited. */
  datatype Rebuilder = Idle | Busy(before: Members, wanted: Members, left: set<int>, at: Phase)

  datatype State = State(
    cells: seq<Cell>, table: map<int, nat>, requests: seq<Request>,
    probers: seq<Prober>, tasks: map<TaskKey, nat>, members: Members, rebuilder: Rebuilder)

  const Init := State([], map[], [], [], map[], map[], Idle)

  datatype TrafficStep = Select(node: int) | IncLook(r: nat) | IncAdd(r: nat) | DecLook(r: nat) | DecLoad(r: nat)
    | DecSwap(r: nat)

  /** A probe is answered with a status code, or by an error or not in time. */
  datatype ProbeStep = Respond(status: Option<int>) | LookUp | Store | Tick | SeeStop

  datatype RebuildStep =
    | Begin(g: GraphInput)
    | Visit(v: int) | SeeDone | Clear | DropEnd
    | Register(v: int) | ShowStore | EnsureSwap | Launch | RegisterEnd

  datatype Action =
    | Traffic(t: TrafficStep)
    | Probe(i: nat, p: ProbeStep)
    | Rebuild(b: RebuildStep)

  // ---- The registry ----

  function WithRecord(s: State, node: int): State {
    if node in s.table then s
    else s.(cells := s.cells + [Cell(node, Unknown, 0)], table := s.table[node := |s.cells|])
  }

  function SetInflight(s: State, c: nat, n: int): State
    requires c < |s.cells|
  {
    s.(cells := s.cells[c := s.cells[c].(inflight := n)])
  }

  function StoreHealth(s: State, c: nat, h: Health): State
    requires c < |s.cells|
  {
    s.(cells := s.cells[c := s.cells[c].(health := h)])
  }

  function HealthOf(s: State, id: int): Health {
    if id in s.table && s.table[id] < |s.cells| then s.cells[s.table[id]].health else Unknown
  }

  // ---- Requests ----

  predicate TrafficEnabled(s: State, t: TrafficStep) {
    match t
    case Select(_) => true
    case IncLook(r) => r < |s.requests| && s.requests[r].Selected?
    case IncAdd(r) => r < |s.requests| && s.requests[r].Adding? && s.requests[r].cell < |s.cells|
    case DecLook(r) => r < |s.requests| && s.requests[r].Forwarded?
    case DecLoad(r) => r < |s.requests| && s.requests[r].Releasing? && s.requests[r].cell < |s.cells|
    case DecSwap(r) => r < |s.requests| && s.requests[r].Swapping? && s.requests[r].cell < |s.cells|
  }

  function SetRequest(s: State, r: nat, q: Request): State
    requires r < |s.requests|
  {
    s.(requests := s.requests[r := q])
  }

  function ApplyTraffic(s: State, t: TrafficStep): State
    requires TrafficEnabled(s, t)
  {
    match t
    case Select(node) => s.(requests := s.requests + [Selected(node)])
    case IncLook(r) =>
      var node := s.requests[r].node;
      var u := WithRecord(s, node);
      SetRequest(u, r, Adding(node, u.table[node]))
    case IncAdd(r) =>
      var q := s.requests[r];
      SetRequest(SetInflight(s, q.cell, s.cells[q.cell].inflight + 1), r, Forwarded(q.node))
    case DecLook(r) =>
      var node := s.requests[r].node;
      SetRequest(s, r, if node in s.table then Releasing(s.table[node]) else Answered)
    case DecLoad(r) =>
      var cur := s.cells[s.requests[r].cell].inflight;
      SetRequest(s, r, if cur <= 0 then Answered else Swapping(s.requests[r].cell, cur))
    case DecSwap(r) =>
      var q := s.requests[r];
      if s.cells[q.cell].inflight == q.cur then SetRequest(SetInflight(s, q.cell, q.cur - 1), r, Answered)
      else SetRequest(s, r, Releasing(q.cell))
  }

  // ---- Probe goroutines ----

  predicate ProbeEnabled(s: State, i: nat, p: ProbeStep) {
    i < |s.probers| &&
    var pc := s.probers[i].pc;
    match p
    case Respond(_) => pc.Requesting?
    case LookUp => pc.Concluded?
    case Store => pc.Looked? && pc.cell < |s.cells|
    case Tick => pc.Waiting?
    case SeeStop => pc.Waiting? && s.probers[i].stop
  }

  predicate Healthy(status: Option<int>) { status.Some? && 200 <= status.value < 400 }

  function SetProber(s: State, i: nat, pc: ProbePc): State
    requires i < |s.probers|
  {
    s.(probers := s.probers[i := s.probers[i].(pc := pc)])
  }

  function ApplyProbe(s: State, i: nat, p: ProbeStep): State
    requires ProbeEnabled(s, i, p)
  {
    var pr := s.probers[i];
    match p
    case Respond(status) => SetProber(s, i, Concluded(Healthy(status)))
    case LookUp =>
      var u := WithRecord(s, pr.key.node);
      SetProber(u, i, Looked(pr.pc.ok, u.table[pr.key.node]))
    case Store => SetProber(StoreHealth(s, pr.pc.cell, if pr.pc.ok then OK else Bad), i, Waiting)
    case Tick => SetProber(s, i, Requesting)
    case SeeStop => SetProber(s, i, Done)
  }

  // ---- The rebuild ----

  predicate TaskDone(s: State, key: TaskKey) {
    key in s.tasks && s.tasks[key] < |s.probers| && s.probers[s.tasks[key]].pc.Done?
  }

  predicate RebuildEnabled(s: State, b: RebuildStep) {
    match b
    case Begin(_) => s.rebuilder.Idle?
    case Visit(v) =>
      s.rebuilder.Busy? && s.rebuilder.at.Dropping? && v in s.rebuilder.left && v in s.members
    case SeeDone =>
      s.rebuilder.Busy? && s.rebuilder.at.Stopping? && s.rebuilder.at.id in s.members
      && TaskDone(s, s.members[s.rebuilder.at.id])
    case Clear => s.rebuilder.Busy? && s.rebuilder.at.Clearing?
    case DropEnd => s.rebuilder.Busy? && s.rebuilder.at.Dropping? && s.rebuilder.left == {}
    case Register(v) =>
      s.rebuilder.Busy? && s.rebuilder.at.Admitting? && v in s.rebuilder.left && v in s.rebuilder.wanted
    case ShowStore => s.rebuilder.Busy? && s.rebuilder.at.Showing? && s.rebuilder.at.cell < |s.cells|
    case EnsureSwap => s.rebuilder.Busy? && s.rebuilder.at.Ensuring? && s.rebuilder.at.cell < |s.cells|
    case Launch => s.rebuilder.Busy? && s.rebuilder.at.Launching? && s.rebuilder.at.id in s.rebuilder.wanted
    case RegisterEnd => s.rebuilder.Busy? && s.rebuilder.at.Admitting? && s.rebuilder.left == {}
  }

  function SetPhase(s: State, at: Phase): State
    requires s.rebuilder.Busy?
  {
    s.(rebuilder := s.rebuilder.(at := at))
  }

  /** The pass goes on, id visited. */
  function Next(s: State, id: int, at: Phase): State
    requires s.rebuilder.Busy?
  {
    s.(rebuilder := s.rebuilder.(left := s.rebuilder.left - {id}, at := at))
  }

  function ApplyRebuild(s: State, b: RebuildStep): State
    requires RebuildEnabled(s, b)
  {
    match b
    case Begin(g) => s.(rebuilder := Busy(s.members, Wanted(g), s.members.Keys, Dropping))
    case Visit(v) =>
      var was := s.members[v];
      if v in s.rebuilder.wanted && s.rebuilder.wanted[v] == was then Next(s, v, Dropping)
      else if was in s.tasks && s.tasks[was] < |s.probers| then
        SetPhase(s, Stopping(v))
          .(probers := s.probers[s.tasks[was] := s.probers[s.tasks[was]].(stop := true)])
      else SetPhase(s, Clearing(v))
    case SeeDone =>
      var id := s.rebuilder.at.id;
      SetPhase(s, Clearing(id)).(tasks := s.tasks - {s.members[id]})
    case Clear =>
      var id := s.rebuilder.at.id;
      Next(s, id, Dropping)
        .(members := s.members - {id}, table := if id in s.rebuilder.wanted then s.table else s.table - {id})
    case DropEnd => s.(rebuilder := s.rebuilder.(left := s.rebuilder.wanted.Keys, at := Admitting))
    case Register(v) =>
      if v in s.members then Next(s, v, Admitting)
      else
        var key := s.rebuilder.wanted[v];
        var u := WithRecord(s, v).(members := s.members[v := key]);
        SetPhase(u, if key.path == "" then Showing(v, u.table[v]) else Ensuring(v, u.table[v]))
    case ShowStore => Next(StoreHealth(s, s.rebuilder.at.cell, OK), s.rebuilder.at.id, Admitting)
    case EnsureSwap =>
      var c := s.rebuilder.at.cell;
      SetPhase(if s.cells[c].health == Unknown then StoreHealth(s, c, Unknown) else s, Launching(s.rebuilder.at.id))
    case Launch =>
      var id := s.rebuilder.at.id;
      var key := s.rebuilder.wanted[id];
      Next(s, id, Admitting)
        .(probers := s.probers + [Prober(key, false, Requesting)], tasks := s.tasks[key := |s.probers|])
    case RegisterEnd => s.(rebuilder := Idle)
  }

  predicate Enabled(s: State, a: Action) {
    match a
    case Traffic(t) => TrafficEnabled(s, t)
    case Probe(i, p) => ProbeEnabled(s, i, p)
    case Rebuild(b) => RebuildEnabled(s, b)
  }

  function Apply(s: State, a: Action): State
    requires Enabled(s, a)
  {
    match a
    case Traffic(t) => ApplyTraffic(s, t)
    case Probe(i, p) => ApplyProbe(s, i, p)
    case Rebuild(b) => ApplyRebuild(s, b)
  }

  ghost predicate Runs(s: State, acts: seq<Action>, t: State)
    decreases |acts|
  {
    if acts == [] then s == t else Enabled(s, acts[0]) && Runs(Apply(s, acts[0]), acts[1..], t)
  }
}
