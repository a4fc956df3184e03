/** In-flight counting as a concurrent protocol: every request looks a node's record up under the lock and
    then works on that record with atomics, while records may be removed and registered anew in between. */
module Inflight {
  import opened Counting

  /** One record object; a removed record lives on for those that looked it up. */
  datatype Cell = Cell(node: int, count: int)

  /** A request from selection to the end of its response. own is the record it was counted on. */
  datatype Request =
    | Selected(node: int)
    | Looked(node: int, own: nat)                           // IncInflight has the record, add pending
    | Counted(node: int, own: nat)                          // being forwarded
    | Found(node: int, own: nat, target: nat)               // DecInflight has a record
    | Loaded(node: int, own: nat, target: nat, cur: int)    // and has read its count
    | Answered(node: int)

  datatype State = State(cells: seq<Cell>, table: map<int, nat>, requests: seq<Request>, removed: set<int>)

  const Init := State([], map[], [], {})

  datatype Action =
    | Select(node: int)
    | Look(i: nat) | Add(i: nat)
    | Find(i: nat) | Load(i: nat) | CompareAndSwap(i: nat)
    | Register(node: int) | Remove(node: int)

  predicate Enabled(s: State, a: Action) {
    match a
    case Look(i) => i < |s.requests| && s.requests[i].Selected?
    case Add(i) => i < |s.requests| && s.requests[i].Looked? && s.requests[i].own < |s.cells|
    case Find(i) => i < |s.requests| && s.requests[i].Counted?
    case Load(i) => i < |s.requests| && s.requests[i].Found? && s.requests[i].target < |s.cells|
    case CompareAndSwap(i) => i < |s.requests| && s.requests[i].Loaded? && s.requests[i].target < |s.cells|
    case _ => true
  }

  /** The table with a record for the node, created when missing. */
  function WithRecord(s: State, node: int): State {
    if node in s.table then s
    else s.(cells := s.cells + [Cell(node, 0)], table := s.table[node := |s.cells|])
  }

  function SetRequest(s: State, i: nat, r: Request): State
    requires i < |s.requests|
  {
    s.(requests := s.requests[i := r])
  }

  function SetCount(s: State, c: nat, n: int): State
    requires c < |s.cells|
  {
    s.(cells := s.cells[c := s.cells[c].(count := n)])
  }

  function Apply(s: State, a: Action): State
    requires Enabled(s, a)
  {
    match a
    case Select(node) => s.(requests := s.requests + [Selected(node)])
    case Look(i) =>
      var t := WithRecord(s, s.requests[i].node);
      SetRequest(t, i, Looked(s.requests[i].node, t.table[s.requests[i].node]))
    case Add(i) =>
      var r := s.requests[i];
      SetRequest(SetCount(s, r.own, s.cells[r.own].count + 1), i, Counted(r.node, r.own))
    case Find(i) =>
      var r := s.requests[i];
      SetRequest(s, i, if r.node in s.table then Found(r.node, r.own, s.table[r.node]) else Answered(r.node))
    case Load(i) =>
      var r := s.requests[i];
      var cur := s.cells[r.target].count;
      SetRequest(s, i, if cur <= 0 then Answered(r.node) else Loaded(r.node, r.own, r.target, cur))
    case CompareAndSwap(i) =>
      var r := s.requests[i];
      if s.cells[r.target].count == r.cur
      then SetRequest(SetCount(s, r.target, r.cur - 1), i, Answered(r.node))
      else SetRequest(s, i, Found(r.node, r.own, r.target))
    case Register(node) => WithRecord(s, node)
    case Remove(node) => s.(table := s.table - {node}, removed := s.removed + {node})
  }

  /** Counted somewhere and not yet answered. */
  predicate Open(r: Request) { r.Counted? || r.Found? || r.Loaded? }

  function OpenOn(c: nat): Request -> bool { (r: Request) => Open(r) && r.own == c }

  function OpenFor(node: int): Request -> bool { (r: Request) => Open(r) && r.node == node }

  /** What a request remembers is in range and of its own node. */
  predicate Remembers(s: State, r: Request) {
    && ((r.Looked? || Open(r)) ==> r.own < |s.cells| && s.cells[r.own].node == r.node)
    && ((r.Found? || r.Loaded?) ==> r.target < |s.cells| && s.cells[r.target].node == r.node)
    && (r.Loaded? ==> r.cur > 0)
  }

  /** A request whose own record is still the node's record aims at that record. */
  predicate AimsTrue(s: State, r: Request) {
    (r.Found? || r.Loaded?) && r.node in s.table && s.table[r.node] == r.own ==> r.target == r.own
  }

  /** On a node never removed there is one record only, and everybody uses it. */
  predicate OneRecord(s: State, r: Request) {
    r.node !in s.removed && !r.Selected? && !r.Answered? ==> r.node in s.table && s.table[r.node] == r.own
  }

  ghost predicate Shape(s: State) {
    && (forall c :: 0 <= c < |s.cells| ==> s.cells[c].count >= 0)
    && (forall n :: n in s.table ==> s.table[n] < |s.cells| && s.cells[s.table[n]].node == n)
    && (forall i :: 0 <= i < |s.requests| ==>
          Remembers(s, s.requests[i]) && AimsTrue(s, s.requests[i]) && OneRecord(s, s.requests[i]))
  }

  /** The record in the table never counts more than its open requests, and exactly as many on a node
      never removed. */
  ghost predicate Bounded(s: State, n: int) {
    n in s.table && s.table[n] < |s.cells| ==>
      && s.cells[s.table[n]].count <= Count(s.requests, OpenOn(s.table[n]))
      && (n !in s.removed ==> s.cells[s.table[n]].count == Count(s.requests, OpenOn(s.table[n])))
  }

  ghost predicate Inv(s: State) {
    Shape(s) && forall n :: n in s.table ==> Bounded(s, n)
  }

  predicate Sound(s: State, r: Request) { Remembers(s, r) && AimsTrue(s, r) && OneRecord(s, r) }

  lemma WithRecordShape(s: State, node: int)
    requires Shape(s)
    ensures Shape(WithRecord(s, node)) && node in WithRecord(s, node).table
  {}

  lemma SetRequestShape(s: State, i: nat, r: Request)
    requires Shape(s) && i < |s.requests| && Sound(s, r)
    ensures Shape(SetRequest(s, i, r))
  {}

  lemma SetCountShape(s: State, c: nat, n: nat)
    requires Shape(s) && c < |s.cells|
    ensures Shape(SetCount(s, c, n))
  {}

  lemma AddShape(s: State, i: nat)
    requires Shape(s) && Enabled(s, Add(i))
    ensures Shape(Apply(s, Add(i)))
  {
    var r := s.requests[i];
    SetCountShape(s, r.own, s.cells[r.own].count + 1);
    SetRequestShape(SetCount(s, r.own, s.cells[r.own].count + 1), i, Counted(r.node, r.own));
  }

  lemma SwapShape(s: State, i: nat)
    requires Shape(s) && Enabled(s, CompareAndSwap(i))
    ensures Shape(Apply(s, CompareAndSwap(i)))
  {
    var r := s.requests[i];
    if s.cells[r.target].count == r.cur {
      SetCountShape(s, r.target, r.cur - 1);
      SetRequestShape(SetCount(s, r.target, r.cur - 1), i, Answered(r.node));
    } else {
      SetRequestShape(s, i, Found(r.node, r.own, r.target));
    }
  }

  lemma StepShape(s: State, a: Action)
    requires Shape(s) && Enabled(s, a)
    ensures Shape(Apply(s, a))
  {
    match a {
      case Look(i) =>
        var node := s.requests[i].node;
        WithRecordShape(s, node);
        var t := WithRecord(s, node);
        SetRequestShape(t, i, Looked(node, t.table[node]));
      case Add(i) =>
        AddShape(s, i);
      case Find(i) =>
        SetRequestShape(s, i, Apply(s, a).requests[i]);
      case Load(i) =>
        SetRequestShape(s, i, Apply(s, a).requests[i]);
      case CompareAndSwap(i) =>
        SwapShape(s, i);
      case Register(node) =>
        WithRecordShape(s, node);
      case _ =>
    }
  }

  /** How a request's move changes the open requests on a record. */
  lemma Moved(s: State, i: nat, r: Request, c: nat)
    requires i < |s.requests|
    ensures Count(s.requests[i := r], OpenOn(c)) + (if OpenOn(c)(s.requests[i]) then 1 else 0)
         == Count(s.requests, OpenOn(c)) + (if OpenOn(c)(r) then 1 else 0)
  {
    CountUpdate(s.requests, i, r, OpenOn(c));
  }

  /** A new record starts with no open request. */
  lemma NewRecordUnused(s: State)
    requires Shape(s)
    ensures Count(s.requests, OpenOn(|s.cells|)) == 0
  {
    CountNone(s.requests, OpenOn(|s.cells|));
  }

  /** A step that moves one request and touches at most one count. */
  lemma MoveBounded(s: State, i: nat, r: Request, touched: nat, delta: int, n: int)
    requires Shape(s) && Bounded(s, n) && i < |s.requests| && touched < |s.cells|
    requires n in s.table
    requires var c := s.table[n];
      var change := (if OpenOn(c)(r) then 1 else 0) - (if OpenOn(c)(s.requests[i]) then 1 else 0);
      var moved := if touched == c then delta else 0;
      moved <= change && (n !in s.removed ==> moved == change)
    ensures Bounded(SetRequest(SetCount(s, touched, s.cells[touched].count + delta), i, r), n)
  {
    Moved(s, i, r, s.table[n]);
  }

  lemma LookBounded(s: State, i: nat, n: int)
    requires Inv(s) && Enabled(s, Look(i)) && n in Apply(s, Look(i)).table
    ensures Bounded(Apply(s, Look(i)), n)
  {
    var t := Apply(s, Look(i));
    assert n in s.table ==> Bounded(s, n);
    NewRecordUnused(s);
    Moved(s, i, t.requests[i], t.table[n]);
  }

  lemma DecBounded(s: State, a: Action, n: int)
    requires Inv(s) && Enabled(s, a) && n in s.table && (a.Load? || a.CompareAndSwap?)
    ensures Bounded(Apply(s, a), n)
  {
    var r, c := s.requests[a.i], s.table[n];
    var t := Apply(s, a);
    assert Bounded(s, n) && Sound(s, r);
    if a.Load? && t.requests[a.i].Answered? {
      if r.own == c {
        CountPositive(s.requests, a.i, OpenOn(c));
      }
      Moved(s, a.i, t.requests[a.i], c);
    } else if a.CompareAndSwap? && t.requests[a.i].Answered? {
      MoveBounded(s, a.i, Answered(r.node), r.target, -1, n);
    } else {
      Moved(s, a.i, t.requests[a.i], c);
    }
  }

  lemma StepBounded(s: State, a: Action, n: int)
    requires Inv(s) && Enabled(s, a) && n in Apply(s, a).table
    ensures Bounded(Apply(s, a), n)
  {
    assert n in s.table ==> Bounded(s, n);
    match a {
      case Select(node) =>
        CountAppend(s.requests, Selected(node), OpenOn(s.table[n]));
      case Look(i) =>
        LookBounded(s, i, n);
      case Add(i) =>
        var r := s.requests[i];
        MoveBounded(s, i, Counted(r.node, r.own), r.own, 1, n);
      case Find(i) =>
        Moved(s, i, Apply(s, a).requests[i], s.table[n]);
      case Register(_) =>
        NewRecordUnused(s);
      case Remove(_) =>
      case _ =>
        DecBounded(s, a, n);
    }
  }

  lemma StepInv(s: State, a: Action)
    requires Inv(s) && Enabled(s, a)
    ensures Inv(Apply(s, a))
  {
    StepShape(s, a);
    forall n | n in Apply(s, a).table
      ensures Bounded(Apply(s, a), n)
    {
      StepBounded(s, a, n);
    }
  }

  ghost predicate Runs(s: State, acts: seq<Action>, t: State)
    decreases |acts|
  {
    if acts == [] then s == t else Enabled(s, acts[0]) && Runs(Apply(s, acts[0]), acts[1..], t)
  }

  lemma {:induction false} RunInv(s: State, acts: seq<Action>, t: State)
    requires Inv(s) && Runs(s, acts, t)
    ensures Inv(t)
    decreases |acts|
  {
    if acts != [] {
      StepInv(s, acts[0]);
      RunInv(Apply(s, acts[0]), acts[1..], t);
    }
  }

  /** What Inflight reports: 0 without a record. */
  function Reported(s: State, n: int): int {
    if n in s.table && s.table[n] < |s.cells| then s.cells[s.table[n]].count else 0
  }

  /** However selections, responses, removals and registrations interleave, a node reports no negative
      count and never more than its requests still open; until its record is first removed, exactly those. */
  lemma CountsAreBounded(acts: seq<Action>, s: State, n: int)
    requires Runs(Init, acts, s)
    ensures 0 <= Reported(s, n) <= Count(s.requests, OpenFor(n))
    ensures n !in s.removed ==> Reported(s, n) == Count(s.requests, OpenFor(n))
  {
    RunInv(Init, acts, s);
    if n in s.table {
      var c := s.table[n];
      assert Bounded(s, n);
      CountMonotone(s.requests, OpenOn(c), OpenFor(n));
      if n !in s.removed {
        CountMonotone(s.requests, OpenFor(n), OpenOn(c));
      }
    } else if n !in s.removed {
      CountNone(s.requests, OpenFor(n));
    }
  }
}
