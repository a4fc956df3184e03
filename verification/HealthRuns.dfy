/** What every interleaving of rebuilds, probe goroutines and requests keeps: a stopped task's goroutine is
    gone before its record is cleared or shown healthy, kept members are left alone, and at rest everything
    follows from the latest input. */
module HealthRuns {
  import opened HealthCenter
  import opened HealthProtocol
  import opened Options
  import opened Registry

  /** The rebuild is between the member's last task and its next, if it is to have one. */
  predicate Moving(s: State, id: int) {
    s.rebuilder.Busy? &&
    match s.rebuilder.at
    case Clearing(x) => x == id
    case Showing(x, _) => x == id
    case Ensuring(x, _) => x == id
    case Launching(x) => x == id
    case _ => false
  }

  predicate BeingStopped(s: State, id: int) {
    s.rebuilder.Busy? && s.rebuilder.at == Stopping(id)
  }

  predicate Live(pr: Prober) { !pr.pc.Done? }

  /** A registered record is its node's own. */
  predicate Filed(s: State, n: int) {
    n in s.table ==> s.table[n] < |s.cells| && s.cells[s.table[n]].node == n
  }

  /** A live goroutine is that of a registered task, and holds no record but its own node's. */
  predicate ProberSound(s: State, i: nat)
    requires i < |s.probers|
  {
    var pr := s.probers[i];
    && (pr.pc.Looked? ==> pr.pc.cell < |s.cells| && s.cells[pr.pc.cell].node == pr.key.node)
    && (if Live(pr) then pr.key in s.tasks && s.tasks[pr.key] == i else pr.stop)
  }

  /** A task is its member's, and is not stopped but while a rebuild waits for it. */
  predicate TaskSound(s: State, k: TaskKey) {
    k in s.tasks ==>
      && s.tasks[k] < |s.probers| && s.probers[s.tasks[k]].key == k && k.path != ""
      && k.node in s.members && s.members[k.node] == k && !Moving(s, k.node)
      && (s.probers[s.tasks[k]].stop ==> BeingStopped(s, k.node))
  }

  predicate MemberSound(s: State, id: int) {
    id in s.members ==>
      s.members[id].node == id && (s.members[id].path != "" && !Moving(s, id) ==> s.members[id] in s.tasks)
  }

  /** Members without a probe path read healthy; nodes that are not members read unknown. */
  predicate HealthSound(s: State, id: int) {
    if id in s.members then
      s.members[id].path == "" ==> HealthOf(s, id) == OK || (Moving(s, id) && s.rebuilder.at.Showing?)
    else HealthOf(s, id) == Unknown || (s.rebuilder.Busy? && id in s.rebuilder.wanted)
  }

  predicate FirstPass(at: Phase) { at.Dropping? || at.Stopping? || at.Clearing? }

  predicate Stays(before: Members, wanted: Members, id: int) {
    id in before && id in wanted && before[id] == wanted[id]
  }

  /** How far the rebuild has come with one node. */
  predicate Progress(s: State, id: int) {
    s.rebuilder.Busy? ==>
      var r := s.rebuilder;
      && (id in r.wanted ==> r.wanted[id].node == id)
      && (Stays(r.before, r.wanted, id) ==> id in s.members)
      && (if FirstPass(r.at) then
            && (id in r.left ==> id in s.members)
            && (id in s.members ==>
                  id in r.before && s.members[id] == r.before[id]
                  && (id in r.left || Stays(r.before, r.wanted, id)))
          else
            && (id in r.left ==> id in r.wanted)
            && (id in s.members ==> id in r.wanted && s.members[id] == r.wanted[id])
            && (id in r.wanted ==> id in r.left || id in s.members)
            && (id in r.left && id in s.members ==> Stays(r.before, r.wanted, id) || Moving(s, id)))
  }

  /** What the step the rebuild is at relies on. */
  predicate PhaseSound(s: State) {
    s.rebuilder.Busy? ==>
      var r := s.rebuilder;
      match r.at
      case Stopping(id) =>
        id in r.left && !Stays(r.before, r.wanted, id) && id in s.members && s.members[id] in s.tasks
        && s.tasks[s.members[id]] < |s.probers| && s.probers[s.tasks[s.members[id]]].stop
      case Clearing(id) => id in r.left && !Stays(r.before, r.wanted, id)
      case Showing(id, c) =>
        id in r.left && !Stays(r.before, r.wanted, id) && id in s.members && s.members[id].path == ""
        && id in s.table && s.table[id] == c
      case Ensuring(id, c) =>
        id in r.left && !Stays(r.before, r.wanted, id) && id in s.members && s.members[id].path != ""
        && id in s.table && s.table[id] == c
      case Launching(id) =>
        id in r.left && !Stays(r.before, r.wanted, id) && id in s.members && s.members[id].path != ""
      case _ => true
  }

  ghost predicate Inv(s: State) {
    && (forall n :: Filed(s, n))
    && (forall i :: 0 <= i < |s.probers| ==> ProberSound(s, i))
    && (forall k :: TaskSound(s, k))
    && (forall id :: MemberSound(s, id))
    && (forall id :: HealthSound(s, id))
    && (forall id :: Progress(s, id))
    && PhaseSound(s)
  }

  // ---- Steps on the registry ----

  /** Records and their health as before, but for new records that read unknown; all else untouched. */
  ghost predicate Quiet(s: State, t: State) {
    && (t.probers, t.tasks, t.members, t.rebuilder) == (s.probers, s.tasks, s.members, s.rebuilder)
    && |s.cells| <= |t.cells|
    && (forall c :: 0 <= c < |s.cells| ==> SameNodeHealth(s.cells[c], t.cells[c]))
    && (forall n :: n in s.table ==> n in t.table && t.table[n] == s.table[n])
    && (forall n :: n in t.table && n !in s.table ==>
          |s.cells| <= t.table[n] < |t.cells| && t.cells[t.table[n]] == Cell(n, Unknown, 0))
  }

  predicate SameNodeHealth(a: Cell, b: Cell) { a.node == b.node && a.health == b.health }

  lemma QuietHealth(s: State, t: State, id: int)
    requires Quiet(s, t) && Filed(s, id)
    ensures Filed(t, id) && HealthOf(t, id) == HealthOf(s, id)
  {
    assert id in s.table ==> SameNodeHealth(s.cells[s.table[id]], t.cells[s.table[id]]);
  }

  lemma QuietInv(s: State, t: State)
    requires Inv(s) && Quiet(s, t)
    ensures Inv(t)
  {
    forall id
      ensures Filed(t, id) && HealthSound(t, id) && MemberSound(t, id) && Progress(t, id)
    {
      QuietHealth(s, t, id);
      assert Filed(s, id) && HealthSound(s, id) && MemberSound(s, id) && Progress(s, id);
    }
    forall i | 0 <= i < |t.probers|
      ensures ProberSound(t, i)
    {
      assert ProberSound(s, i);
    }
    forall k
      ensures TaskSound(t, k)
    {
      assert TaskSound(s, k);
    }
  }

  lemma TrafficIsQuiet(s: State, t: TrafficStep)
    requires TrafficEnabled(s, t)
    ensures Quiet(s, ApplyTraffic(s, t))
  {}

  lemma WithRecordIsQuiet(s: State, node: int)
    ensures Quiet(s, WithRecord(s, node)) && node in WithRecord(s, node).table
  {}

  // ---- Steps of a probe goroutine ----

  /** A goroutine moves on, without changing its task or its stop channel. */
  lemma MoveOn(s: State, i: nat, pc: ProbePc)
    requires Inv(s) && i < |s.probers| && ProberSound(SetProber(s, i, pc), i)
    ensures Inv(SetProber(s, i, pc))
  {
    var t := SetProber(s, i, pc);
    forall j | 0 <= j < |t.probers|
      ensures ProberSound(t, j)
    {
      assert ProberSound(s, j);
    }
    forall k
      ensures TaskSound(t, k)
    {
      assert TaskSound(s, k);
    }
    forall id
      ensures Filed(t, id) && HealthSound(t, id) && MemberSound(t, id) && Progress(t, id)
    {
      assert Filed(s, id) && HealthSound(s, id) && MemberSound(s, id) && Progress(s, id);
    }
  }

  /** A conclusion is stored for a member that is probed: no health that matters otherwise changes. */
  lemma StoreInv(s: State, i: nat, h: Health)
    requires Inv(s) && i < |s.probers| && s.probers[i].pc.Looked? && s.probers[i].pc.cell < |s.cells|
    ensures Inv(StoreHealth(s, s.probers[i].pc.cell, h))
  {
    var c, key := s.probers[i].pc.cell, s.probers[i].key;
    var t := StoreHealth(s, c, h);
    assert ProberSound(s, i) && TaskSound(s, key);
    forall j | 0 <= j < |t.probers|
      ensures ProberSound(t, j)
    {
      assert ProberSound(s, j);
    }
    forall k
      ensures TaskSound(t, k)
    {
      assert TaskSound(s, k);
    }
    forall id
      ensures Filed(t, id) && HealthSound(t, id) && MemberSound(t, id) && Progress(t, id)
    {
      assert Filed(s, id) && HealthSound(s, id) && MemberSound(s, id) && Progress(s, id);
      assert id in s.table && s.table[id] == c ==> id == key.node;
    }
  }

  lemma ProbeInv(s: State, i: nat, p: ProbeStep)
    requires Inv(s) && ProbeEnabled(s, i, p)
    ensures Inv(ApplyProbe(s, i, p))
  {
    var pr := s.probers[i];
    assert ProberSound(s, i);
    match p
    case Respond(status) => MoveOn(s, i, Concluded(Healthy(status)));
    case LookUp =>
      var u := WithRecord(s, pr.key.node);
      WithRecordIsQuiet(s, pr.key.node);
      QuietInv(s, u);
      assert Filed(u, pr.key.node);
      MoveOn(u, i, Looked(pr.pc.ok, u.table[pr.key.node]));
    case Store =>
      var u := StoreHealth(s, pr.pc.cell, if pr.pc.ok then OK else Bad);
      StoreInv(s, i, if pr.pc.ok then OK else Bad);
      assert ProberSound(u, i);
      MoveOn(u, i, Waiting);
    case Tick => MoveOn(s, i, Requesting);
    case SeeStop => MoveOn(s, i, Done);
  }

  // ---- Steps of a rebuild ----

  /** The rebuild's position changes, and nothing else. */
  lemma BeginInv(s: State, g: GraphInput)
    requires Inv(s) && RebuildEnabled(s, Begin(g))
    ensures Inv(ApplyRebuild(s, Begin(g)))
  {
    var t := ApplyRebuild(s, Begin(g));
    Elsewhere(s, t);
    forall id
      ensures HealthSound(t, id) && MemberSound(t, id) && Progress(t, id)
    {
      assert HealthSound(s, id) && MemberSound(s, id) && Progress(s, id);
    }
    forall k
      ensures TaskSound(t, k)
    {
      assert TaskSound(s, k);
    }
  }

  /** Records and goroutines as before. */
  lemma Elsewhere(s: State, t: State)
    requires Inv(s) && (t.cells, t.table, t.probers, t.tasks) == (s.cells, s.table, s.probers, s.tasks)
    ensures forall n :: Filed(t, n)
    ensures forall i :: 0 <= i < |t.probers| ==> ProberSound(t, i)
  {
    forall n
      ensures Filed(t, n)
    {
      assert Filed(s, n);
    }
    forall i | 0 <= i < |t.probers|
      ensures ProberSound(t, i)
    {
      assert ProberSound(s, i);
    }
  }

  lemma VisitInv(s: State, v: int)
    requires Inv(s) && RebuildEnabled(s, Visit(v))
    ensures Inv(ApplyRebuild(s, Visit(v)))
  {
    var t, key := ApplyRebuild(s, Visit(v)), s.members[v];
    assert MemberSound(s, v) && Progress(s, v) && TaskSound(s, key);
    forall i | 0 <= i < |t.probers|
      ensures ProberSound(t, i)
    {
      assert ProberSound(s, i);
    }
    forall id
      ensures Filed(t, id) && HealthSound(t, id) && MemberSound(t, id) && Progress(t, id)
    {
      assert Filed(s, id) && HealthSound(s, id) && MemberSound(s, id) && Progress(s, id);
    }
    forall k
      ensures TaskSound(t, k)
    {
      assert TaskSound(s, k);
    }
  }

  lemma SeeDoneInv(s: State)
    requires Inv(s) && RebuildEnabled(s, SeeDone)
    ensures Inv(ApplyRebuild(s, SeeDone))
  {
    var t, v := ApplyRebuild(s, SeeDone), s.rebuilder.at.id;
    var key := s.members[v];
    assert MemberSound(s, v) && TaskSound(s, key);
    forall i | 0 <= i < |t.probers|
      ensures ProberSound(t, i)
    {
      assert ProberSound(s, i);
    }
    forall id
      ensures Filed(t, id) && HealthSound(t, id) && MemberSound(t, id) && Progress(t, id)
    {
      assert Filed(s, id) && HealthSound(s, id) && MemberSound(s, id) && Progress(s, id);
    }
    forall k
      ensures TaskSound(t, k)
    {
      assert TaskSound(s, k);
    }
  }

  lemma ClearInv(s: State)
    requires Inv(s) && RebuildEnabled(s, Clear)
    ensures Inv(ApplyRebuild(s, Clear))
  {
    var t := ApplyRebuild(s, Clear);
    forall i | 0 <= i < |t.probers|
      ensures ProberSound(t, i)
    {
      assert ProberSound(s, i);
    }
    forall id
      ensures Filed(t, id) && HealthSound(t, id) && MemberSound(t, id) && Progress(t, id)
    {
      assert Filed(s, id) && HealthSound(s, id) && MemberSound(s, id) && Progress(s, id);
    }
    forall k
      ensures TaskSound(t, k)
    {
      assert TaskSound(s, k);
    }
  }

  lemma PassEnds(s: State, b: RebuildStep)
    requires Inv(s) && RebuildEnabled(s, b) && (b.DropEnd? || b.RegisterEnd?)
    ensures Inv(ApplyRebuild(s, b))
  {
    var t := ApplyRebuild(s, b);
    Elsewhere(s, t);
    forall id
      ensures HealthSound(t, id) && MemberSound(t, id) && Progress(t, id)
    {
      assert HealthSound(s, id) && MemberSound(s, id) && Progress(s, id);
    }
    forall k
      ensures TaskSound(t, k)
    {
      assert TaskSound(s, k);
    }
  }

  /** A member comes in, its record looked up before. */
  lemma AdmitInv(s: State, v: int)
    requires Inv(s) && RebuildEnabled(s, Register(v)) && v !in s.members && v in s.table
    ensures Inv(ApplyRebuild(s, Register(v)))
  {
    var t := ApplyRebuild(s, Register(v));
    assert Filed(s, v) && Progress(s, v);
    forall i | 0 <= i < |t.probers|
      ensures ProberSound(t, i)
    {
      assert ProberSound(s, i);
    }
    forall id
      ensures Filed(t, id) && HealthSound(t, id) && MemberSound(t, id) && Progress(t, id)
    {
      assert Filed(s, id) && HealthSound(s, id) && MemberSound(s, id) && Progress(s, id);
    }
    forall k
      ensures TaskSound(t, k)
    {
      assert TaskSound(s, k);
    }
  }

  lemma RegisterInv(s: State, v: int)
    requires Inv(s) && RebuildEnabled(s, Register(v))
    ensures Inv(ApplyRebuild(s, Register(v)))
  {
    if v in s.members {
      var t := ApplyRebuild(s, Register(v));
      assert Progress(s, v);
      Elsewhere(s, t);
      forall id
        ensures HealthSound(t, id) && MemberSound(t, id) && Progress(t, id)
      {
        assert HealthSound(s, id) && MemberSound(s, id) && Progress(s, id);
      }
      forall k
        ensures TaskSound(t, k)
      {
        assert TaskSound(s, k);
      }
    } else {
      WithRecordIsQuiet(s, v);
      QuietInv(s, WithRecord(s, v));
      AdmitInv(WithRecord(s, v), v);
      assert ApplyRebuild(s, Register(v)) == ApplyRebuild(WithRecord(s, v), Register(v));
    }
  }

  lemma ShowStoreInv(s: State)
    requires Inv(s) && RebuildEnabled(s, ShowStore)
    ensures Inv(ApplyRebuild(s, ShowStore))
  {
    var t, v := ApplyRebuild(s, ShowStore), s.rebuilder.at.id;
    assert Filed(s, v) && MemberSound(s, v) && Progress(s, v);
    forall i | 0 <= i < |t.probers|
      ensures ProberSound(t, i)
    {
      assert ProberSound(s, i);
    }
    forall id
      ensures Filed(t, id) && HealthSound(t, id) && MemberSound(t, id) && Progress(t, id)
    {
      assert Filed(s, id) && HealthSound(s, id) && MemberSound(s, id) && Progress(s, id);
    }
    forall k
      ensures TaskSound(t, k)
    {
      assert TaskSound(s, k);
    }
  }

  lemma EnsureSwapInv(s: State)
    requires Inv(s) && RebuildEnabled(s, EnsureSwap)
    ensures Inv(ApplyRebuild(s, EnsureSwap))
  {
    var t := ApplyRebuild(s, EnsureSwap);
    assert t.cells == s.cells;
    Elsewhere(s, t);
    forall id
      ensures HealthSound(t, id) && MemberSound(t, id) && Progress(t, id)
    {
      assert HealthSound(s, id) && MemberSound(s, id) && Progress(s, id);
    }
    forall k
      ensures TaskSound(t, k)
    {
      assert TaskSound(s, k);
    }
  }

  lemma LaunchInv(s: State)
    requires Inv(s) && RebuildEnabled(s, Launch)
    ensures Inv(ApplyRebuild(s, Launch))
  {
    var t, v := ApplyRebuild(s, Launch), s.rebuilder.at.id;
    var key := s.rebuilder.wanted[v];
    assert MemberSound(s, v) && Progress(s, v) && TaskSound(s, key);
    forall i | 0 <= i < |t.probers|
      ensures ProberSound(t, i)
    {
      assert i < |s.probers| ==> ProberSound(s, i);
    }
    forall id
      ensures Filed(t, id) && HealthSound(t, id) && MemberSound(t, id) && Progress(t, id)
    {
      assert Filed(s, id) && HealthSound(s, id) && MemberSound(s, id) && Progress(s, id);
    }
    forall k
      ensures TaskSound(t, k)
    {
      assert TaskSound(s, k);
    }
  }

  lemma RebuildInv(s: State, b: RebuildStep)
    requires Inv(s) && RebuildEnabled(s, b)
    ensures Inv(ApplyRebuild(s, b))
  {
    match b
    case Begin(g) => BeginInv(s, g);
    case Visit(v) => VisitInv(s, v);
    case SeeDone => SeeDoneInv(s);
    case Clear => ClearInv(s);
    case DropEnd => PassEnds(s, b);
    case Register(v) => RegisterInv(s, v);
    case ShowStore => ShowStoreInv(s);
    case EnsureSwap => EnsureSwapInv(s);
    case Launch => LaunchInv(s);
    case RegisterEnd => PassEnds(s, b);
  }

  lemma StepInv(s: State, a: Action)
    requires Inv(s) && Enabled(s, a)
    ensures Inv(Apply(s, a))
  {
    match a
    case Traffic(t) =>
      TrafficIsQuiet(s, t);
      QuietInv(s, ApplyTraffic(s, t));
    case Probe(i, p) => ProbeInv(s, i, p);
    case Rebuild(b) => RebuildInv(s, b);
  }

  lemma {:induction false} RunInv(s: State, acts: seq<Action>, t: State)
    requires Inv(s) && Runs(s, acts, t)
    ensures Inv(t)
    decreases |acts|
  {
    if acts != [] {
      StepInv(s, acts[0]);
      RunInv(Apply(s, acts[0]), acts[1..], t);
    }
  }

  // ---- What follows ----

  /** When a record is about to be cleared, or shown healthy, no goroutine that could write it is left. */
  lemma GoneBefore(acts: seq<Action>, s: State, i: nat)
    requires Runs(Init, acts, s) && i < |s.probers|
    requires (Enabled(s, Rebuild(Clear)) || Enabled(s, Rebuild(ShowStore))) && s.probers[i].key.node == s.rebuilder.at.id
    ensures s.probers[i].pc.Done?
  {
    RunInv(Init, acts, s);
    assert ProberSound(s, i) && TaskSound(s, s.probers[i].key);
  }

  /** The members asked for by the last rebuild begun, if the acts hold one. */
  function LastAsked(acts: seq<Action>): Members {
    if acts == [] then map[]
    else
      var a := acts[|acts| - 1];
      if a.Rebuild? && a.b.Begin? then Wanted(a.b.g) else LastAsked(acts[..|acts| - 1])
  }

  ghost predicate Follows(s: State, asked: Members) {
    if s.rebuilder.Busy? then s.rebuilder.wanted == asked else s.members == asked
  }

  lemma StepFollows(s: State, a: Action, asked: Members)
    requires Inv(s) && Enabled(s, a) && Follows(s, asked)
    ensures Follows(Apply(s, a), if a.Rebuild? && a.b.Begin? then Wanted(a.b.g) else asked)
  {
    if !a.Rebuild? {
      assert (Apply(s, a).members, Apply(s, a).rebuilder) == (s.members, s.rebuilder);
    } else if a.b.RegisterEnd? {
      forall id
        ensures (id in s.members <==> id in asked) && (id in asked ==> s.members[id] == asked[id])
      {
        assert Progress(s, id);
      }
      SameMembers(s.members, asked);
    }
  }

  lemma {:induction false} RunFollows(start: State, acts: seq<Action>, s: State, before: seq<Action>)
    requires Inv(start) && Follows(start, LastAsked(before)) && Runs(start, acts, s)
    ensures Follows(s, LastAsked(before + acts))
    decreases |acts|
  {
    if acts == [] {
      assert before + acts == before;
    } else {
      StepInv(start, acts[0]);
      StepFollows(start, acts[0], LastAsked(before));
      AskedThen(before, acts[0]);
      RunFollows(Apply(start, acts[0]), acts[1..], s, before + [acts[0]]);
      assert before + acts == before + [acts[0]] + acts[1..];
    }
  }

  lemma AskedThen(before: seq<Action>, a: Action)
    ensures LastAsked(before + [a]) == if a.Rebuild? && a.b.Begin? then Wanted(a.b.g) else LastAsked(before)
  {
    var more := before + [a];
    assert more[..|more| - 1] == before && more[|more| - 1] == a;
  }

  lemma InitInv()
    ensures Inv(Init)
  {}

  /** Main result, for every interleaving: whenever no rebuild is under way, the members are those the last
      input asks for; each member with a probe path has its one goroutine, running and not stopped, and no
      other goroutine is live; members without a probe path read healthy; all other nodes read unknown. */
  lemma AtRest(acts: seq<Action>, s: State, id: int)
    requires Runs(Init, acts, s) && s.rebuilder.Idle?
    ensures s.members == LastAsked(acts)
    ensures id in s.members && s.members[id].path != "" ==> HasGoroutine(s, s.members[id])
    ensures id in s.members && s.members[id].path == "" ==> HealthOf(s, id) == OK
    ensures id !in s.members ==> HealthOf(s, id) == Unknown
    ensures forall i :: 0 <= i < |s.probers| && Live(s.probers[i]) ==>
              var key := s.probers[i].key; key.node in s.members && s.members[key.node] == key && key.path != ""
  {
    InitInv();
    RunInv(Init, acts, s);
    RunFollows(Init, acts, s, []);
    assert [] + acts == acts;
    assert MemberSound(s, id) && HealthSound(s, id);
    if id in s.members && s.members[id].path != "" {
      OneGoroutine(s, s.members[id]);
    }
    forall i | 0 <= i < |s.probers| && Live(s.probers[i])
      ensures var key := s.probers[i].key; key.node in s.members && s.members[key.node] == key && key.path != ""
    {
      assert ProberSound(s, i) && TaskSound(s, s.probers[i].key);
    }
  }

  /** Exactly one live goroutine probes for the task, and nobody has asked it to stop. */
  ghost predicate HasGoroutine(s: State, key: TaskKey) {
    exists i :: 0 <= i < |s.probers| && OnlyLive(s, key, i)
  }

  /** Goroutine i is the task's only live one. */
  ghost predicate OnlyLive(s: State, key: TaskKey, i: nat)
    requires i < |s.probers|
  {
    && s.probers[i].key == key && Live(s.probers[i]) && !s.probers[i].stop
    && forall j :: 0 <= j < |s.probers| && s.probers[j].key == key && Live(s.probers[j]) ==> j == i
  }

  lemma OneGoroutine(s: State, key: TaskKey)
    requires Inv(s) && key in s.tasks && !BeingStopped(s, key.node)
    ensures HasGoroutine(s, key)
  {
    assert TaskSound(s, key);
    var i := s.tasks[key];
    assert ProberSound(s, i);
    forall j | 0 <= j < |s.probers| && s.probers[j].key == key && Live(s.probers[j])
      ensures j == i
    {
      assert ProberSound(s, j);
    }
    assert OnlyLive(s, key, i);
  }

  /** A rebuild leaves a member whose parameters do not change alone: no step of its own touches the member,
      its record or its goroutine. */
  lemma KeptIsLeftAlone(acts: seq<Action>, s: State, b: RebuildStep, id: int)
    requires Runs(Init, acts, s) && Enabled(s, Rebuild(b)) && s.rebuilder.Busy?
    requires Stays(s.rebuilder.before, s.rebuilder.wanted, id)
    ensures var t := ApplyRebuild(s, b);
      && id in s.members && id in t.members && t.members[id] == s.members[id]
      && (id in t.table <==> id in s.table)
      && (id in s.table && s.table[id] < |s.cells| ==>
            t.table[id] == s.table[id] && t.cells[t.table[id]] == s.cells[s.table[id]])
      && (s.members[id] in s.tasks ==> TaskKept(s, t, s.members[id]))
  {
    InitInv();
    RunInv(Init, acts, s);
    assert Progress(s, id) && Filed(s, id) && TaskSound(s, s.members[id]) && MemberSound(s, id);
    KeptMember(s, b, id);
    KeptRecord(s, b, id);
    KeptTask(s, b, id);
  }

  lemma KeptMember(s: State, b: RebuildStep, id: int)
    requires RebuildEnabled(s, b) && s.rebuilder.Busy? && id in s.members
    requires PhaseSound(s) && Stays(s.rebuilder.before, s.rebuilder.wanted, id)
    ensures var t := ApplyRebuild(s, b); id in t.members && t.members[id] == s.members[id]
  {}

  lemma KeptRecord(s: State, b: RebuildStep, id: int)
    requires RebuildEnabled(s, b) && s.rebuilder.Busy? && Filed(s, id) && id in s.members
    requires Inv(s) && Stays(s.rebuilder.before, s.rebuilder.wanted, id)
    ensures var t := ApplyRebuild(s, b);
      && (id in t.table <==> id in s.table)
      && (id in s.table ==>
            && t.table[id] == s.table[id] && t.table[id] < |t.cells|
            && t.cells[t.table[id]] == s.cells[s.table[id]])
  {
    match s.rebuilder.at
    case Showing(x, _) => assert Filed(s, x);
    case Ensuring(x, _) => assert Filed(s, x);
    case _ =>
  }

  lemma KeptTask(s: State, b: RebuildStep, id: int)
    requires RebuildEnabled(s, b) && s.rebuilder.Busy? && Progress(s, id) && id in s.members
    requires Inv(s) && Stays(s.rebuilder.before, s.rebuilder.wanted, id)
    ensures s.members[id] in s.tasks ==> TaskKept(s, ApplyRebuild(s, b), s.members[id])
  {
    assert MemberSound(s, id) && TaskSound(s, s.members[id]);
    match s.rebuilder.at
    case Dropping =>
      if b.Visit? {
        assert Progress(s, b.v) && MemberSound(s, b.v) && TaskSound(s, s.members[b.v]);
      }
    case Stopping(x) => assert MemberSound(s, x);
    case Launching(x) => assert Progress(s, x);
    case _ =>
  }

  predicate TaskKept(s: State, t: State, key: TaskKey)
    requires key in s.tasks
  {
    key in t.tasks && t.tasks[key] == s.tasks[key] && s.tasks[key] < |s.probers| <= |t.probers|
    && t.probers[t.tasks[key]] == s.probers[s.tasks[key]]
  }

  // ---- Waiting for a goroutine ends ----

  /** Steps of one goroutine. */
  predicate Own(acts: seq<Action>, i: nat) {
    forall k :: 0 <= k < |acts| ==> acts[k].Probe? && acts[k].i == i
  }

  function Steps(pc: ProbePc): nat {
    match pc
    case Requesting => 4
    case Concluded(_) => 3
    case Looked(_, _) => 2
    case Waiting => 1
    case Done => 0
  }

  /** Whatever it is doing, a goroutine asked to stop gets to its end by itself: it waits for no lock the
      rebuild holds. */
  lemma {:induction false} GoroutineEnds(s: State, i: nat) returns (acts: seq<Action>, t: State)
    requires Inv(s) && i < |s.probers| && s.probers[i].stop
    ensures Runs(s, acts, t) && Own(acts, i) && t.rebuilder == s.rebuilder
    ensures (t.tasks, t.members) == (s.tasks, s.members) && i < |t.probers| && t.probers[i].pc.Done?
    decreases Steps(s.probers[i].pc)
  {
    if s.probers[i].pc.Done? {
      acts, t := [], s;
    } else {
      assert ProberSound(s, i);
      var p := match s.probers[i].pc
        case Requesting => Respond(None)
        case Concluded(_) => LookUp
        case Looked(_, _) => Store
        case _ => SeeStop;
      var u := ApplyProbe(s, i, p);
      ProbeInv(s, i, p);
      var rest;
      rest, t := GoroutineEnds(u, i);
      acts := [Probe(i, p)] + rest;
      assert acts[1..] == rest;
    }
  }

  /** So a rebuild that waits for a stopped task goes on in the end. */
  lemma WaitEnds(acts: seq<Action>, s: State) returns (more: seq<Action>, t: State)
    requires Runs(Init, acts, s) && s.rebuilder.Busy? && s.rebuilder.at.Stopping?
    ensures Runs(s, more, t) && Enabled(t, Rebuild(SeeDone))
  {
    InitInv();
    RunInv(Init, acts, s);
    var i := s.tasks[s.members[s.rebuilder.at.id]];
    more, t := GoroutineEnds(s, i);
  }
}
