/** What a node reads: the last conclusion stored into its record. And what its record counts: the requests added
    to it less those taken off. */
module HealthVerdicts {
  import opened HealthCenter
  import opened HealthProtocol
  import opened Options
  import opened Registry
  import opened HealthRuns

  /** A run told by its steps alone: the last answer each goroutine got, what was last stored into each record,
      and how many requests each record has gained. */
  datatype History = History(answers: map<nat, Option<int>>, stored: map<nat, Health>, gained: map<nat, int>)

  const Nothing := History(map[], map[], map[])

  function GainOf(h: History, c: nat): int { if c in h.gained then h.gained[c] else 0 }

  /** A status from 200 to 399 stands for a healthy node, any other and no answer for a bad one. */
  function Verdict(answer: Option<int>): Health {
    match answer
    case None => Bad
    case Some(status) => if status < 200 || status >= 400 then Bad else OK
  }

  /** What a step adds to the history: it stores its goroutine's last answer, whatever it carries itself. */
  function Noted(h: History, s: State, a: Action): History
    requires Enabled(s, a)
  {
    match a
    case Probe(i, Respond(status)) => h.(answers := h.answers[i := status])
    case Probe(i, Store) =>
      if i in h.answers then h.(stored := h.stored[s.probers[i].pc.cell := Verdict(h.answers[i])]) else h
    case Rebuild(ShowStore) => h.(stored := h.stored[s.rebuilder.at.cell := OK])
    case Traffic(IncAdd(r)) =>
      var c := s.requests[r].cell;
      h.(gained := h.gained[c := GainOf(h, c) + 1])
    case Traffic(DecSwap(r)) =>
      var q := s.requests[r];
      if s.cells[q.cell].inflight == q.cur then h.(gained := h.gained[q.cell := GainOf(h, q.cell) - 1]) else h
    case _ => h
  }

  ghost function Told(s: State, acts: seq<Action>, h: History): History
    decreases |acts|
  {
    if acts == [] || !Enabled(s, acts[0]) then h
    else Told(Apply(s, acts[0]), acts[1..], Noted(h, s, acts[0]))
  }

  // ---- Records follow the history ----

  predicate CellTrue(s: State, h: History, c: nat)
    requires c < |s.cells|
  {
    && s.cells[c].health == (if c in h.stored then h.stored[c] else Unknown)
    && 0 <= s.cells[c].inflight == GainOf(h, c)
  }

  predicate ProberTrue(s: State, h: History, i: nat)
    requires i < |s.probers|
  {
    var pc := s.probers[i].pc;
    pc.Concluded? || pc.Looked? ==> i in h.answers && (pc.ok <==> Verdict(h.answers[i]) == OK)
  }

  predicate RequestTrue(q: Request) { q.Swapping? ==> q.cur > 0 }

  ghost predicate True(s: State, h: History) {
    && (forall c :: 0 <= c < |s.cells| ==> CellTrue(s, h, c))
    && (forall i :: 0 <= i < |s.probers| ==> ProberTrue(s, h, i))
    && (forall r :: 0 <= r < |s.requests| ==> RequestTrue(s.requests[r]))
    && (forall c :: c in h.stored || c in h.gained ==> c < |s.cells|)
  }

  lemma TrafficTrue(s: State, h: History, t: TrafficStep)
    requires True(s, h) && TrafficEnabled(s, t)
    ensures True(ApplyTraffic(s, t), Noted(h, s, Traffic(t)))
  {
    var u, h' := ApplyTraffic(s, t), Noted(h, s, Traffic(t));
    forall c | 0 <= c < |u.cells|
      ensures CellTrue(u, h', c)
    {
      TrafficCell(s, h, t, c);
    }
    forall i | 0 <= i < |u.probers|
      ensures ProberTrue(u, h', i)
    {
      assert ProberTrue(s, h, i);
    }
  }

  lemma ProbeTrue(s: State, h: History, i: nat, p: ProbeStep)
    requires True(s, h) && ProbeEnabled(s, i, p)
    ensures True(ApplyProbe(s, i, p), Noted(h, s, Probe(i, p)))
  {
    var u, h' := ApplyProbe(s, i, p), Noted(h, s, Probe(i, p));
    assert ProberTrue(s, h, i);
    forall c | 0 <= c < |u.cells|
      ensures CellTrue(u, h', c)
    {
      if c < |s.cells| {
        assert CellTrue(s, h, c);
      }
    }
    forall j | 0 <= j < |u.probers|
      ensures ProberTrue(u, h', j)
    {
      assert ProberTrue(s, h, j);
    }
  }

  lemma RebuildCell(s: State, h: History, b: RebuildStep, c: nat)
    requires True(s, h) && RebuildEnabled(s, b) && c < |ApplyRebuild(s, b).cells|
    ensures CellTrue(ApplyRebuild(s, b), Noted(h, s, Rebuild(b)), c)
    ensures |s.cells| <= |ApplyRebuild(s, b).cells|
  {
    assert c < |s.cells| ==> CellTrue(s, h, c);
  }

  lemma TrafficCell(s: State, h: History, t: TrafficStep, c: nat)
    requires True(s, h) && TrafficEnabled(s, t) && c < |ApplyTraffic(s, t).cells|
    ensures CellTrue(ApplyTraffic(s, t), Noted(h, s, Traffic(t)), c)
    ensures |s.cells| <= |ApplyTraffic(s, t).cells|
  {
    assert c < |s.cells| ==> CellTrue(s, h, c);
    assert forall r :: 0 <= r < |s.requests| ==> RequestTrue(s.requests[r]);
  }

  lemma RebuildTrue(s: State, h: History, b: RebuildStep)
    requires True(s, h) && RebuildEnabled(s, b)
    ensures True(ApplyRebuild(s, b), Noted(h, s, Rebuild(b)))
  {
    var u, h' := ApplyRebuild(s, b), Noted(h, s, Rebuild(b));
    forall c | 0 <= c < |u.cells|
      ensures CellTrue(u, h', c)
    {
      RebuildCell(s, h, b, c);
    }
    forall j | 0 <= j < |u.probers|
      ensures ProberTrue(u, h', j)
    {
      if j < |s.probers| {
        assert ProberTrue(s, h, j);
      }
    }
  }

  lemma {:induction false} RunTrue(s: State, acts: seq<Action>, t: State, h: History)
    requires True(s, h) && Runs(s, acts, t)
    ensures True(t, Told(s, acts, h))
    decreases |acts|
  {
    if acts != [] {
      match acts[0] {
        case Traffic(step) => TrafficTrue(s, h, step);
        case Probe(i, p) => ProbeTrue(s, h, i, p);
        case Rebuild(b) => RebuildTrue(s, h, b);
      }
      RunTrue(Apply(s, acts[0]), acts[1..], t, Noted(h, s, acts[0]));
    }
  }

  /** Main result, for every interleaving: a node reads what was last stored into its present record - the
      verdict on the last answer its goroutine got, or healthy when a rebuild has shown it so - and unknown when
      nothing was stored there; and it reports exactly the requests added to that record and not taken off. */
  lemma ReadsLastVerdict(acts: seq<Action>, s: State, id: int)
    requires Runs(Init, acts, s)
    ensures var h := Told(Init, acts, Nothing);
      if id in s.table && s.table[id] in h.stored then HealthOf(s, id) == h.stored[s.table[id]]
      else HealthOf(s, id) == Unknown
    ensures id in s.table ==>
      && s.table[id] < |s.cells|
      && 0 <= s.cells[s.table[id]].inflight == GainOf(Told(Init, acts, Nothing), s.table[id])
  {
    RunTrue(Init, acts, s, Nothing);
    InitInv();
    RunInv(Init, acts, s);
    assert Filed(s, id);
    if id in s.table {
      assert CellTrue(s, Told(Init, acts, Nothing), s.table[id]);
    }
  }

  /** A goroutine stores what its last answer says into the record of its own node, and nowhere else: when that
      is the node's present record, the node reads it at once. */
  lemma VerdictIsShown(acts: seq<Action>, s: State, i: nat)
    requires Runs(Init, acts, s) && Enabled(s, Probe(i, Store))
    ensures var (t, h, node) := (Apply(s, Probe(i, Store)), Told(Init, acts, Nothing), s.probers[i].key.node);
      && i in h.answers
      && (node in s.table && s.table[node] == s.probers[i].pc.cell ==> HealthOf(t, node) == Verdict(h.answers[i]))
      && (forall id :: id != node ==> HealthOf(t, id) == HealthOf(s, id))
  {
    RunTrue(Init, acts, s, Nothing);
    InitInv();
    RunInv(Init, acts, s);
    assert ProberTrue(s, Told(Init, acts, Nothing), i) && ProberSound(s, i);
    forall id | id != s.probers[i].key.node
      ensures HealthOf(Apply(s, Probe(i, Store)), id) == HealthOf(s, id)
    {
      assert Filed(s, id);
    }
  }
}
