/** The task centre: submissions under mutual exclusion rules, settling of finished tasks, cancellation. */
module TaskCenter {
  import opened Options

  const KEEP_LIMIT := 500

  datatype Status = Running | Done | Failed | Cancelled

  datatype Verdict = Pending | Completed | CancelNote | Error(text: string)

  /** A task's record. Clock readings are integers; None is the zero time. */
  datatype Entry = Entry(id: nat, creator: string, status: Status, verdict: Verdict, progress: Option<int>,
                         cancelReqAt: Option<int>, finishAt: Option<int>)

  /** What the centre was set up with: allowed creators, the common exclusion list, pairwise exclusions. */
  datatype Mutex = Mutex(allowed: set<string>, common: seq<string>, pairs: map<string, seq<string>>)

  /** settled is the record of every task ever settled, oldest first; terminal is what is kept of it. */
  datatype State = State(running: seq<Entry>, terminal: seq<Entry>, issued: nat, settled: seq<Entry>)

  const Fresh := State([], [], 0, [])

  // ---- Exclusion ----

  /** The empty creator is in no list. */
  predicate Contains(list: seq<string>, v: string) { v != "" && v in list }

  function Listed(m: Mutex, key: string): seq<string> { if key in m.pairs then m.pairs[key] else [] }

  predicate Conflict(m: Mutex, a: string, b: string) {
    || a == b
    || (Contains(m.common, a) && Contains(m.common, b))
    || Contains(Listed(m, b), a)
    || Contains(Listed(m, a), b)
  }

  ghost predicate Blocked(m: Mutex, running: seq<Entry>, creator: string) {
    exists e :: e in running && Conflict(m, e.creator, creator)
  }

  // ---- Steps ----

  datatype Action =
    | Submit(creator: string)
    | Finish(id: nat, now: int)                   // the task's function returned or panicked
    | Settle(id: nat, failure: Option<string>)    // its record is closed under the lock
    | Cancel(id: nat, now: int)
    | Report(id: nat, progress: Option<int>)

  /** Where the task stands in a list, or the list's length. */
  function Place(list: seq<Entry>, id: nat): (i: nat)
    ensures i <= |list|
    ensures i < |list| ==> list[i].id == id
    ensures forall k :: 0 <= k < i ==> list[k].id != id
  {
    if list == [] || list[0].id == id then 0 else 1 + Place(list[1..], id)
  }

  predicate In(list: seq<Entry>, id: nat) { Place(list, id) < |list| }

  function Without<T>(s: seq<T>, i: nat): seq<T>
    requires i < |s|
  {
    s[..i] + s[i + 1..]
  }

  function Recent(s: seq<Entry>): seq<Entry> { if |s| > KEEP_LIMIT then s[|s| - KEEP_LIMIT..] else s }

  /** A cancellation counts when it was asked no later than the task ended. */
  predicate InTime(cancelled: Option<int>, finished: Option<int>) {
    cancelled.Some? && finished.Some? && cancelled.value <= finished.value
  }

  function Closed(e: Entry, failure: Option<string>): Entry {
    var status := if InTime(e.cancelReqAt, e.finishAt) then Cancelled else if failure.Some? then Failed else Done;
    e.(status := status,
       verdict := if failure.Some? then Error(failure.value) else if status == Cancelled then CancelNote else Completed)
  }

  function NewEntry(id: nat, creator: string): Entry { Entry(id, creator, Running, Pending, None, None, None) }

  /** What a finish, cancel request or progress report writes into the record of a running task. */
  function Written(e: Entry, a: Action): Entry
    requires !a.Submit? && !a.Settle?
  {
    match a
    case Finish(_, now) => if e.finishAt.Some? then e else e.(finishAt := Some(now))
    case Cancel(_, now) => e.(cancelReqAt := Some(now))
    case Report(_, progress) => if progress.None? then e else e.(progress := progress)
  }

  ghost predicate Admitted(m: Mutex, s: State, creator: string) {
    creator in m.allowed && !Blocked(m, s.running, creator)
  }

  /** Steps on tasks that are not running change nothing. */
  ghost function Apply(m: Mutex, s: State, a: Action): State {
    if a.Submit? then
      if !Admitted(m, s, a.creator) then s
      else s.(running := s.running + [NewEntry(s.issued + 1, a.creator)], issued := s.issued + 1)
    else
      var i := Place(s.running, a.id);
      if i == |s.running| then s
      else if !a.Settle? then s.(running := s.running[i := Written(s.running[i], a)])
      else if s.running[i].finishAt.None? then s
      else
        var e := Closed(s.running[i], a.failure);
        State(Without(s.running, i), Recent(s.terminal + [e]), s.issued, s.settled + [e])
  }

  ghost function Run(m: Mutex, log: seq<Action>): State {
    if log == [] then Fresh else Apply(m, Run(m, log[..|log| - 1]), log[|log| - 1])
  }

  // ---- What every run keeps ----

  ghost predicate Ordered(running: seq<Entry>) {
    forall i, j :: 0 <= i < j < |running| ==> running[i].id < running[j].id
  }

  ghost predicate Apart(m: Mutex, running: seq<Entry>) {
    forall i, j :: 0 <= i < j < |running| ==> !Conflict(m, running[i].creator, running[j].creator)
  }

  ghost predicate Unique(list: seq<Entry>) {
    forall i, j :: 0 <= i < j < |list| ==> list[i].id != list[j].id
  }

  ghost predicate Disjoint(a: seq<Entry>, b: seq<Entry>) {
    forall x, y :: x in a && y in b ==> x.id != y.id
  }

  ghost predicate Numbered(list: seq<Entry>, issued: nat) {
    forall e :: e in list ==> 0 < e.id <= issued
  }

  ghost predicate RunningInv(m: Mutex, running: seq<Entry>, issued: nat) {
    && Ordered(running) && Apart(m, running) && Numbered(running, issued)
    && (forall e :: e in running ==> e.status == Running)
  }

  ghost predicate SettledInv(settled: seq<Entry>, issued: nat) {
    && Unique(settled) && Numbered(settled, issued)
    && (forall e :: e in settled ==> e.status != Running)
  }

  ghost predicate Inv(m: Mutex, s: State) {
    && RunningInv(m, s.running, s.issued) && SettledInv(s.settled, s.issued)
    && Disjoint(s.running, s.settled) && s.terminal == Recent(s.settled)
  }

  /** Rewriting one running record without touching its number, creator or status keeps everything. */
  lemma RewriteInv(m: Mutex, s: State, i: nat, e: Entry)
    requires Inv(m, s) && i < |s.running|
    requires e.id == s.running[i].id && e.creator == s.running[i].creator && e.status == s.running[i].status
    ensures Inv(m, s.(running := s.running[i := e]))
  {
    var t := s.running[i := e];
    forall x | x in t
      ensures x.status == Running && 0 < x.id <= s.issued && forall y :: y in s.settled ==> x.id != y.id
    {
      var k :| 0 <= k < |t| && t[k] == x;
      assert s.running[k] in s.running;
    }
  }

  lemma SubmitInv(m: Mutex, s: State, creator: string)
    requires Inv(m, s) && !Blocked(m, s.running, creator)
    ensures Inv(m, s.(running := s.running + [NewEntry(s.issued + 1, creator)], issued := s.issued + 1))
  {
    var t := s.running + [NewEntry(s.issued + 1, creator)];
    forall i, j | 0 <= i < j < |t|
      ensures t[i].id < t[j].id && !Conflict(m, t[i].creator, t[j].creator)
    {
      assert t[i] == s.running[i] && s.running[i] in s.running;
    }
  }

  lemma RecentAppend(settled: seq<Entry>, e: Entry)
    ensures Recent(Recent(settled) + [e]) == Recent(settled + [e])
  {}

  lemma RemoveInv(m: Mutex, running: seq<Entry>, issued: nat, i: nat)
    requires RunningInv(m, running, issued) && i < |running|
    ensures RunningInv(m, Without(running, i), issued)
    ensures forall x :: x in Without(running, i) ==> x in running && x.id != running[i].id
  {
    var w := Without(running, i);
    assert forall k :: 0 <= k < |w| ==> w[k] == running[if k < i then k else k + 1];
  }

  lemma RecordInv(settled: seq<Entry>, issued: nat, e: Entry)
    requires SettledInv(settled, issued) && 0 < e.id <= issued && e.status != Running
    requires forall x :: x in settled ==> x.id != e.id
    ensures SettledInv(settled + [e], issued)
  {}

  lemma SettleInv(m: Mutex, s: State, i: nat, failure: Option<string>)
    requires Inv(m, s) && i < |s.running|
    ensures var e := Closed(s.running[i], failure);
            Inv(m, State(Without(s.running, i), Recent(s.terminal + [e]), s.issued, s.settled + [e]))
  {
    var e := Closed(s.running[i], failure);
    RecentAppend(s.settled, e);
    RemoveInv(m, s.running, s.issued, i);
    assert s.running[i] in s.running;
    RecordInv(s.settled, s.issued, e);
  }

  lemma StepInv(m: Mutex, s: State, a: Action)
    requires Inv(m, s)
    ensures Inv(m, Apply(m, s, a))
  {
    if a.Submit? {
      AdmitStepInv(m, s, a.creator);
    } else if In(s.running, a.id) {
      var i := Place(s.running, a.id);
      if a.Settle? {
        SettleInv(m, s, i, a.failure);
      } else {
        RewriteInv(m, s, i, Written(s.running[i], a));
      }
    }
  }

  lemma AdmitStepInv(m: Mutex, s: State, creator: string)
    requires Inv(m, s)
    ensures Inv(m, Apply(m, s, Submit(creator)))
  {
    if !Blocked(m, s.running, creator) {
      SubmitInv(m, s, creator);
    }
  }

  lemma {:induction false} RunInv(m: Mutex, log: seq<Action>)
    ensures Inv(m, Run(m, log))
  {
    if log != [] {
      RunInv(m, log[..|log| - 1]);
      StepInv(m, Run(m, log[..|log| - 1]), log[|log| - 1]);
    }
  }

  // ---- Settling ----

  lemma {:induction false} SettledGrows(m: Mutex, log: seq<Action>, more: seq<Action>)
    ensures Run(m, log).settled <= Run(m, log + more).settled
  {
    if more == [] {
      assert log + more == log;
    } else {
      var n := |more| - 1;
      SettledGrows(m, log, more[..n]);
      assert (log + more)[..|log + more| - 1] == log + more[..n];
    }
  }

  // ---- One task's record through a run ----

  function View(list: seq<Entry>, id: nat): Option<Entry> {
    var i := Place(list, id);
    if i < |list| then Some(list[i]) else None
  }

  lemma ViewIs(list: seq<Entry>, k: nat, e: Entry)
    requires Unique(list) && k < |list| && list[k] == e
    ensures View(list, e.id) == Some(e)
  {}

  lemma ViewIsNone(list: seq<Entry>, id: nat)
    requires forall k :: 0 <= k < |list| ==> list[k].id != id
    ensures View(list, id) == None
  {}

  lemma ViewAppend(list: seq<Entry>, e: Entry, id: nat)
    requires Unique(list + [e])
    ensures View(list + [e], id) == if e.id == id then Some(e) else View(list, id)
  {
    var t, i := list + [e], Place(list, id);
    assert t[|list|] == e;
    if e.id == id {
      ViewIs(t, |list|, e);
    } else if i < |list| {
      ViewIs(t, i, list[i]);
    } else {
      ViewIsNone(t, id);
    }
  }

  lemma ViewUpdate(list: seq<Entry>, i: nat, e: Entry, id: nat)
    requires Unique(list) && i < |list| && e.id == list[i].id
    ensures View(list[i := e], id) == if e.id == id then Some(e) else View(list, id)
  {
    var t, k := list[i := e], Place(list, id);
    if e.id == id {
      ViewIs(t, i, e);
    } else if k < |list| {
      ViewIs(t, k, list[k]);
    } else {
      ViewIsNone(t, id);
    }
  }

  lemma ViewWithout(list: seq<Entry>, i: nat, id: nat)
    requires Unique(list) && i < |list|
    ensures View(Without(list, i), id) == if list[i].id == id then None else View(list, id)
  {
    var t, k := Without(list, i), Place(list, id);
    assert forall j :: 0 <= j < |t| ==> t[j] == list[if j < i then j else j + 1];
    if list[i].id == id || k == |list| {
      ViewIsNone(t, id);
    } else {
      ViewIs(t, if k < i then k else k - 1, list[k]);
    }
  }

  lemma OrderedIsUnique(list: seq<Entry>)
    requires Ordered(list)
    ensures Unique(list)
  {}

  /** A step touches the record it names and no other. */
  lemma StepView(m: Mutex, s: State, a: Action, id: nat)
    requires Inv(m, s)
    ensures var t := Apply(m, s, a);
            var e := View(s.running, id);
            if a.Submit? then
              && View(t.settled, id) == View(s.settled, id)
              && (View(t.running, id)
                  == if Admitted(m, s, a.creator) && id == t.issued then Some(NewEntry(id, a.creator)) else e)
            else if a.id != id || e.None? || (a.Settle? && e.value.finishAt.None?) then
              View(t.running, id) == e && View(t.settled, id) == View(s.settled, id)
            else if a.Settle? then
              View(t.running, id) == None && View(t.settled, id) == Some(Closed(e.value, a.failure))
            else
              View(t.running, id) == Some(Written(e.value, a)) && View(t.settled, id) == View(s.settled, id)
  {
    StepInv(m, s, a);
    var t := Apply(m, s, a);
    OrderedIsUnique(s.running);
    OrderedIsUnique(t.running);
    if a.Submit? {
      if Admitted(m, s, a.creator) {
        ViewAppend(s.running, NewEntry(s.issued + 1, a.creator), id);
      }
    } else if In(s.running, a.id) {
      var i := Place(s.running, a.id);
      if !a.Settle? {
        ViewUpdate(s.running, i, Written(s.running[i], a), id);
      } else if s.running[i].finishAt.Some? {
        ViewWithout(s.running, i, id);
        ViewAppend(s.settled, Closed(s.running[i], a.failure), id);
      }
    }
  }

  ghost predicate Accounted(s: State, id: nat) { In(s.running, id) != In(s.settled, id) }

  /** Every number given out is that of a running or of a settled task, never of both; none disappears. */
  lemma {:induction false} EveryTaskAccounted(m: Mutex, log: seq<Action>, id: nat)
    requires 0 < id <= Run(m, log).issued
    ensures Accounted(Run(m, log), id)
  {
    if log != [] {
      var s, a := Run(m, log[..|log| - 1]), log[|log| - 1];
      RunInv(m, log[..|log| - 1]);
      StepView(m, s, a, id);
      if id <= s.issued {
        EveryTaskAccounted(m, log[..|log| - 1], id);
      } else {
        UnknownYet(s, id);
      }
    }
  }

  lemma UnknownYet(s: State, id: nat)
    requires Numbered(s.running, s.issued) && Numbered(s.settled, s.issued) && id > s.issued
    ensures View(s.running, id) == None && View(s.settled, id) == None
  {
    ViewIsNone(s.running, id);
    ViewIsNone(s.settled, id);
  }

  // ---- Cancellation ----

  /** The time of the last cancel request that met the task running. */
  ghost function LastCancel(m: Mutex, log: seq<Action>, id: nat): Option<int> {
    if log == [] then None
    else
      var before, a := log[..|log| - 1], log[|log| - 1];
      if a.Cancel? && a.id == id && In(Run(m, before).running, id) then Some(a.now) else LastCancel(m, before, id)
  }

  /** The time at which the task's function ended. */
  ghost function EndTime(m: Mutex, log: seq<Action>, id: nat): Option<int> {
    if log == [] then None
    else
      var before, a := log[..|log| - 1], log[|log| - 1];
      if EndTime(m, before, id).None? && a.Finish? && a.id == id && In(Run(m, before).running, id) then Some(a.now)
      else EndTime(m, before, id)
  }

  lemma {:induction false} NothingBeforeIssue(m: Mutex, log: seq<Action>, id: nat)
    requires id > Run(m, log).issued
    ensures LastCancel(m, log, id) == None && EndTime(m, log, id) == None
  {
    if log != [] {
      var before := log[..|log| - 1];
      RunInv(m, before);
      NothingBeforeIssue(m, before, id);
      UnknownYet(Run(m, before), id);
    }
  }

  lemma ViewNumber(list: seq<Entry>, id: nat)
    ensures View(list, id).Some? ==> View(list, id).value.id == id && In(list, id)
  {}

  ghost predicate Traced(m: Mutex, log: seq<Action>, e: Entry) {
    e.cancelReqAt == LastCancel(m, log, e.id) && e.finishAt == EndTime(m, log, e.id)
  }

  /** A record's two times are those of the log: of the last cancel request and of the end of its function. */
  lemma {:induction false} RunningAreTraced(m: Mutex, log: seq<Action>, id: nat)
    ensures View(Run(m, log).running, id).Some? ==> Traced(m, log, View(Run(m, log).running, id).value)
  {
    if log != [] {
      var before, a := log[..|log| - 1], log[|log| - 1];
      RunInv(m, before);
      StepView(m, Run(m, before), a, id);
      if id > Run(m, before).issued {
        NothingBeforeIssue(m, before, id);
        UnknownYet(Run(m, before), id);
      } else {
        RunningAreTraced(m, before, id);
        ViewNumber(Run(m, before).running, id);
      }
    }
  }

  /** And stay so once it is settled. */
  lemma {:induction false} SettledAreTraced(m: Mutex, log: seq<Action>, id: nat)
    ensures View(Run(m, log).settled, id).Some? ==>
              Traced(m, log, View(Run(m, log).settled, id).value) && View(Run(m, log).running, id).None?
  {
    if log != [] {
      var before, a := log[..|log| - 1], log[|log| - 1];
      RunInv(m, before);
      StepView(m, Run(m, before), a, id);
      RunningAreTraced(m, before, id);
      SettledAreTraced(m, before, id);
      ViewNumber(Run(m, before).running, id);
      ViewNumber(Run(m, before).settled, id);
      NotGivenAgain(Run(m, before), id);
    }
  }

  lemma NotGivenAgain(s: State, id: nat)
    requires Numbered(s.settled, s.issued)
    ensures View(s.settled, id).Some? ==> id <= s.issued
  {
    var k := Place(s.settled, id);
    assert k < |s.settled| ==> s.settled[k] in s.settled;
  }

  ghost predicate Judged(e: Entry) {
    && e.finishAt.Some?
    && (e.status == Cancelled <==> InTime(e.cancelReqAt, e.finishAt))
    && (e.status == Failed <==> !InTime(e.cancelReqAt, e.finishAt) && e.verdict.Error?)
  }

  lemma {:induction false} SettledAreJudged(m: Mutex, log: seq<Action>)
    ensures forall e :: e in Run(m, log).settled ==> Judged(e)
  {
    if log != [] {
      SettledAreJudged(m, log[..|log| - 1]);
    }
  }

  /** A settled task counts as cancelled exactly when its last cancel request came no later than its end. */
  lemma CancelledExactly(m: Mutex, log: seq<Action>, e: Entry)
    requires e in Run(m, log).settled
    ensures e.status == Cancelled <==> InTime(LastCancel(m, log, e.id), EndTime(m, log, e.id))
  {
    var s := Run(m, log);
    RunInv(m, log);
    var k :| 0 <= k < |s.settled| && s.settled[k] == e;
    ViewIs(s.settled, k, e);
    SettledAreTraced(m, log, e.id);
    SettledAreJudged(m, log);
  }

  /** Some cancel request met the task running, no later than its end. */
  ghost predicate AskedInTime(m: Mutex, log: seq<Action>, id: nat, end: int) {
    exists k :: 0 <= k < |log| && Asks(m, log, k, id) && log[k].now <= end
  }

  ghost predicate Asks(m: Mutex, log: seq<Action>, k: nat, id: nat)
    requires k < |log|
  {
    log[k].Cancel? && log[k].id == id && In(Run(m, log[..k]).running, id)
  }

  /** The last request is one of the requests, and there is one as soon as one was made. */
  lemma {:induction false} LastIsARequest(m: Mutex, log: seq<Action>, id: nat)
    ensures LastCancel(m, log, id).Some? <==> exists k :: 0 <= k < |log| && Asks(m, log, k, id)
    ensures LastCancel(m, log, id).Some? ==>
              exists k :: 0 <= k < |log| && Asks(m, log, k, id) && log[k].now == LastCancel(m, log, id).value
  {
    if log != [] {
      var n := |log| - 1;
      LastIsARequest(m, log[..n], id);
      assert forall k :: 0 <= k <= n ==> log[..n][..k] == log[..k];
      assert forall k :: 0 <= k < n ==> Asks(m, log[..n], k, id) == Asks(m, log, k, id);
      if Asks(m, log, n, id) {
        assert LastCancel(m, log, id) == Some(log[n].now);
      } else {
        assert LastCancel(m, log, id) == LastCancel(m, log[..n], id);
      }
    }
  }

  /** A cancelled task was asked in time; and of those asked in time exactly the ones whose last request came
      after their end are not cancelled. */
  lemma UndoneExactly(m: Mutex, log: seq<Action>, e: Entry)
    requires e in Run(m, log).settled
    ensures EndTime(m, log, e.id).Some?
    ensures var end := EndTime(m, log, e.id).value;
      && (e.status == Cancelled ==> AskedInTime(m, log, e.id, end))
      && (AskedInTime(m, log, e.id, end) ==>
            LastCancel(m, log, e.id).Some? &&
            (e.status != Cancelled <==> LastCancel(m, log, e.id).value > end))
  {
    var s := Run(m, log);
    RunInv(m, log);
    var k :| 0 <= k < |s.settled| && s.settled[k] == e;
    ViewIs(s.settled, k, e);
    SettledAreTraced(m, log, e.id);
    SettledAreJudged(m, log);
    LastIsARequest(m, log, e.id);
  }

  /** One step more. */
  lemma RunThen(m: Mutex, before: seq<Action>, a: Action, id: nat)
    ensures Run(m, before + [a]) == Apply(m, Run(m, before), a)
    ensures EndTime(m, before + [a], id)
         == if EndTime(m, before, id).None? && a.Finish? && a.id == id && In(Run(m, before).running, id)
            then Some(a.now) else EndTime(m, before, id)
  {
    var log := before + [a];
    assert log[..|log| - 1] == before && log[|log| - 1] == a;
  }

  /** A request before the end, and one after it that undoes the first: the task settles as done. */
  lemma LateCancelUndoes(m: Mutex, creator: string) returns (log: seq<Action>)
    requires creator in m.allowed
    ensures log == [Submit(creator), Cancel(1, 1), Finish(1, 2), Cancel(1, 3), Settle(1, None)]
    ensures |Run(m, log).settled| == 1 && Run(m, log).settled[0].status == Done
    ensures AskedInTime(m, log, 1, 2) && EndTime(m, log, 1) == Some(2)
  {
    var e := NewEntry(1, creator);
    var start := [Submit(creator)];
    var asked := start + [Cancel(1, 1)];
    var over := asked + [Finish(1, 2)];
    var late := over + [Cancel(1, 3)];
    log := late + [Settle(1, None)];
    RunThen(m, [], Submit(creator), 1);
    assert [] + start == start && Run(m, start).running == [e];
    RunThen(m, start, Cancel(1, 1), 1);
    assert Run(m, asked).running == [e.(cancelReqAt := Some(1))];
    RunThen(m, asked, Finish(1, 2), 1);
    assert Run(m, over).running == [e.(cancelReqAt := Some(1), finishAt := Some(2))];
    RunThen(m, over, Cancel(1, 3), 1);
    assert Run(m, late).running == [e.(cancelReqAt := Some(3), finishAt := Some(2))];
    RunThen(m, late, Settle(1, None), 1);
    assert log[..1] == start && Asks(m, log, 1, 1);
  }

  // ---- The centre itself ----

  datatype Receipt = Accepted(id: nat) | UnknownCreator | Busy(id: nat)

  class Center {
    const rules: Mutex
    var running: seq<Entry>
    var terminal: seq<Entry>
    var counter: nat
    ghost var settled: seq<Entry>

    ghost function Now(): State
      reads this
    {
      State(running, terminal, counter, settled)
    }

    ghost predicate Valid()
      reads this
    {
      Inv(rules, Now())
    }

    constructor (rules: Mutex)
      ensures Valid() && Now() == Fresh && this.rules == rules
    {
      this.rules := rules;
      running, terminal, counter, settled := [], [], 0, [];
    }

    /** The first running task the creator's tasks may not run beside. */
    method ConflictWith(creator: string) returns (r: Option<Entry>)
      ensures r.None? ==> !Blocked(rules, running, creator)
      ensures r.Some? ==> exists k :: 0 <= k < |running| && running[k] == r.value
                            && Conflict(rules, running[k].creator, creator)
                            && forall j :: 0 <= j < k ==> !Conflict(rules, running[j].creator, creator)
    {
      var i := 0;
      while i < |running|
        invariant i <= |running|
        invariant forall k :: 0 <= k < i ==> !Conflict(rules, running[k].creator, creator)
      {
        var e := running[i];
        if e.creator == creator {
          return Some(e);
        } else if Contains(rules.common, e.creator) && Contains(rules.common, creator) {
          return Some(e);
        } else if Contains(Listed(rules, creator), e.creator) || Contains(Listed(rules, e.creator), creator) {
          return Some(e);
        }
        i := i + 1;
      }
      r := None;
    }

    method Submit(creator: string) returns (r: Receipt)
      requires Valid()
      modifies this
      ensures Valid() && Now() == Apply(rules, old(Now()), Action.Submit(creator))
      ensures r.Accepted? <==> Admitted(rules, old(Now()), creator)
      ensures r.Accepted? ==> r.id == counter == old(counter) + 1
      ensures r.UnknownCreator? <==> creator !in rules.allowed
      ensures r.Busy? ==> exists k :: 0 <= k < |running| && running[k].id == r.id
                            && Conflict(rules, running[k].creator, creator)
                            && forall j :: 0 <= j < k ==> !Conflict(rules, running[j].creator, creator)
    {
      ghost var next := Apply(rules, Now(), Action.Submit(creator));
      StepInv(rules, Now(), Action.Submit(creator));
      if creator !in rules.allowed {
        return UnknownCreator;
      }
      var cur := ConflictWith(creator);
      if cur.Some? {
        return Busy(cur.value.id);
      }
      counter := counter + 1;
      running := running + [NewEntry(counter, creator)];
      assert Now() == next;
      r := Accepted(counter);
    }

    /** The task's function has returned: its end is noted before the lock is taken. */
    method NoteEnd(id: nat, now: int)
      requires Valid() && View(running, id).Some? && View(running, id).value.finishAt.None?
      modifies this`running
      ensures Valid() && Now() == Apply(rules, old(Now()), Finish(id, now))
    {
      ghost var next := Apply(rules, Now(), Finish(id, now));
      StepInv(rules, Now(), Finish(id, now));
      var i := FindIn(running, id);
      running := running[i := running[i].(finishAt := Some(now))];
      assert Now() == next;
    }

    /** Closing the record: its final status, the bounded history, and the release of the exclusion. */
    method Close(id: nat, failure: Option<string>)
      requires Valid() && View(running, id).Some? && View(running, id).value.finishAt.Some?
      modifies this
      ensures Valid() && Now() == Apply(rules, old(Now()), Settle(id, failure))
    {
      StepInv(rules, Now(), Settle(id, failure));
      var i := FindIn(running, id);
      MoveToHistory(i, failure);
    }

    method MoveToHistory(i: nat, failure: Option<string>)
      requires i < |running|
      modifies this
      ensures var e := Closed(old(running[i]), failure);
        Now() == State(Without(old(running), i), Recent(old(terminal) + [e]), old(counter), old(settled) + [e])
    {
      var e := Resolved(running[i], failure);
      terminal := terminal + [e];
      if |terminal| > KEEP_LIMIT {
        terminal := terminal[|terminal| - KEEP_LIMIT..];
      }
      settled := settled + [e];
      running := running[..i] + running[i + 1..];
    }

    static method Resolved(before: Entry, failure: Option<string>) returns (e: Entry)
      ensures e == Closed(before, failure)
    {
      e := before;
      e := e.(status := ResolveFinalStatus(e, failure));
      if failure.Some? {
        e := e.(verdict := Error(failure.value));
      } else if e.status == Cancelled {
        e := e.(verdict := CancelNote);
      } else {
        e := e.(verdict := Completed);
      }
    }

    static function ResolveFinalStatus(e: Entry, failure: Option<string>): Status {
      if e.cancelReqAt.Some? && e.finishAt.Some? && !(e.cancelReqAt.value > e.finishAt.value) then Cancelled
      else if failure.Some? then Failed
      else Done
    }

    static method FindIn(list: seq<Entry>, id: nat) returns (i: nat)
      ensures i == Place(list, id)
    {
      i := 0;
      while i < |list| && list[i].id != id
        invariant i <= |list|
        invariant Place(list, id) == i + Place(list[i..], id)
      {
        assert list[i..][1..] == list[i + 1..];
        i := i + 1;
      }
    }

    /** Running tasks first, then the kept history; a request for a settled task changes nothing. */
    method Cancel(id: nat, now: int) returns (r: Option<Entry>)
      requires Valid()
      modifies this`running
      ensures Valid() && Now() == Apply(rules, old(Now()), Action.Cancel(id, now))
      ensures r == if View(running, id).Some? then View(running, id) else View(terminal, id)
    {
      ghost var s, a := Now(), Action.Cancel(id, now);
      StepInv(rules, s, a);
      StepView(rules, s, a, id);
      var i := FindIn(running, id);
      if i < |running| {
        var e := running[i].(cancelReqAt := Some(now));
        running := running[i := e];
        assert Now() == Apply(rules, s, a);
        return Some(e);
      }
      var k := FindIn(terminal, id);
      r := if k < |terminal| then Some(terminal[k]) else None;
    }

    method SetProgress(id: nat, progress: Option<int>)
      requires Valid()
      modifies this`running
      ensures Valid() && Now() == Apply(rules, old(Now()), Report(id, progress))
    {
      StepInv(rules, Now(), Report(id, progress));
      Store(id, progress);
    }

    method Store(id: nat, progress: Option<int>)
      modifies this`running
      ensures Now() == Apply(rules, old(Now()), Report(id, progress))
    {
      if progress.None? {
        return;
      }
      var i := FindIn(running, id);
      if i < |running| {
        running := running[i := running[i].(progress := progress)];
      }
    }
  }
}
