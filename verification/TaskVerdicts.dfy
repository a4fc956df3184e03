/** What the task centre promises in plain terms: who may run beside whom, how a task is judged, what of it is
    kept, and which progress it shows. */
module TaskVerdicts {
  import opened Options
  import opened TaskCenter

  // ---- Who may run ----

  /** Neither name is empty, and the list under one holds the other. */
  predicate Lists(m: Mutex, owner: string, other: string) {
    other != "" && owner in m.pairs && other in m.pairs[owner]
  }

  /** No two running tasks have the same creator, both a creator of the common list, or one that the other's
      list excludes. */
  lemma RunningApart(m: Mutex, log: seq<Action>, i: nat, j: nat)
    requires i < j < |Run(m, log).running|
    ensures var (a, b) := (Run(m, log).running[i].creator, Run(m, log).running[j].creator);
      && a != b
      && !(a != "" && a in m.common && b != "" && b in m.common)
      && !Lists(m, a, b) && !Lists(m, b, a)
  {
    RunInv(m, log);
  }

  /** A submission is admitted exactly when its creator is allowed and none of the running tasks stands in its
      way, and then runs under the next number. */
  lemma AdmittedExactly(m: Mutex, log: seq<Action>, creator: string)
    ensures var (s, t) := (Run(m, log), Run(m, log + [Submit(creator)]));
      && (t.issued == s.issued + 1 <==>
            && creator in m.allowed
            && forall e :: e in s.running ==>
                 && e.creator != creator
                 && !(e.creator != "" && e.creator in m.common && creator != "" && creator in m.common)
                 && !Lists(m, e.creator, creator) && !Lists(m, creator, e.creator))
      && (t.issued == s.issued ==> t == s)
      && (t.issued != s.issued ==>
            t == s.(issued := t.issued, running := s.running +
                      [Entry(t.issued, creator, Running, Pending, None, None, None)]))
  {
    RunThen(m, log, Submit(creator), 0);
  }

  // ---- What is kept ----

  /** The history is all settled tasks, or the last 500 of them, oldest first. */
  lemma LastFiveHundred(m: Mutex, log: seq<Action>)
    ensures var s := Run(m, log);
      && |s.terminal| == (if |s.settled| > 500 then 500 else |s.settled|)
      && s.settled[|s.settled| - |s.terminal|..] == s.terminal
  {
    RunInv(m, log);
  }

  // ---- How a task is judged ----

  /** Step k of the run settles the task: it runs before, and no longer after. */
  ghost predicate Settles(m: Mutex, log: seq<Action>, k: nat, id: nat)
    requires k < |log|
  {
    log[k].Settle? && log[k].id == id && In(Run(m, log[..k]).running, id) && !In(Run(m, log[..k + 1]).running, id)
  }

  /** The verdict on a task that ended with this failure, cancelled in time or not. */
  predicate JudgedBy(e: Entry, inTime: bool, failure: Option<string>) {
    match failure
    case Some(text) => e.verdict == Error(text) && (if inTime then e.status == Cancelled else e.status == Failed)
    case None => if inTime then e.status == Cancelled && e.verdict == CancelNote
                 else e.status == Done && e.verdict == Completed
  }

  lemma ClosedIsJudged(e: Entry, failure: Option<string>)
    ensures JudgedBy(Closed(e, failure), InTime(e.cancelReqAt, e.finishAt), failure)
    ensures (Closed(e, failure).cancelReqAt, Closed(e, failure).finishAt, Closed(e, failure).id)
         == (e.cancelReqAt, e.finishAt, e.id)
  {}

  ghost predicate HasCloser(m: Mutex, log: seq<Action>, e: Entry) {
    exists k :: 0 <= k < |log| && Settles(m, log, k, e.id)
      && JudgedBy(e, InTime(e.cancelReqAt, e.finishAt), log[k].failure)
  }

  lemma CloserStays(m: Mutex, before: seq<Action>, a: Action, e: Entry)
    requires HasCloser(m, before, e)
    ensures HasCloser(m, before + [a], e)
  {
    var log := before + [a];
    var k :| 0 <= k < |before| && Settles(m, before, k, e.id)
      && JudgedBy(e, InTime(e.cancelReqAt, e.finishAt), before[k].failure);
    assert log[k] == before[k] && log[..k] == before[..k] && log[..k + 1] == before[..k + 1];
  }

  lemma CloserIsLast(m: Mutex, before: seq<Action>, a: Action, e: Entry)
    requires e in Run(m, before + [a]).settled && e !in Run(m, before).settled
    ensures HasCloser(m, before + [a], e)
  {
    var log, s := before + [a], Run(m, before);
    var n := |before|;
    RunInv(m, before);
    RunThen(m, before, a, e.id);
    var i := Place(s.running, a.id);
    assert a.Settle? && e == Closed(s.running[i], a.failure);
    ClosedIsJudged(s.running[i], a.failure);
    StepView(m, s, a, e.id);
    assert log[..n] == before && log[..n + 1] == log && log[n] == a;
    assert Settles(m, log, n, e.id);
  }

  lemma {:induction false} SettledHaveClosers(m: Mutex, log: seq<Action>, e: Entry)
    requires e in Run(m, log).settled
    ensures HasCloser(m, log, e)
  {
    var n := |log| - 1;
    var before, a := log[..n], log[n];
    assert log == before + [a];
    if e in Run(m, before).settled {
      SettledHaveClosers(m, before, e);
      CloserStays(m, before, a, e);
    } else {
      CloserIsLast(m, before, a, e);
    }
  }

  /** Main result: every settled task was closed by a step that told how its function ended. When the last
      cancel request was not in time, the task is failed with the error's text if there was an error, and done
      and completed if there was none; when it was in time, the task is cancelled, with the error's text if there
      was one and the note of the cancellation otherwise. */
  lemma JudgedAsEnded(m: Mutex, log: seq<Action>, e: Entry) returns (k: nat)
    requires e in Run(m, log).settled
    ensures k < |log| && Settles(m, log, k, e.id)
    ensures var (inTime, failure) := (InTime(LastCancel(m, log, e.id), EndTime(m, log, e.id)), log[k].failure);
      && (!inTime && failure.Some? ==> e.status == Failed && e.verdict == Error(failure.value))
      && (!inTime && failure.None? ==> e.status == Done && e.verdict == Completed)
      && (inTime && failure.Some? ==> e.status == Cancelled && e.verdict == Error(failure.value))
      && (inTime && failure.None? ==> e.status == Cancelled && e.verdict == CancelNote)
  {
    var s := Run(m, log);
    RunInv(m, log);
    var i :| 0 <= i < |s.settled| && s.settled[i] == e;
    ViewIs(s.settled, i, e);
    SettledAreTraced(m, log, e.id);
    SettledHaveClosers(m, log, e);
    k :| 0 <= k < |log| && Settles(m, log, k, e.id)
      && JudgedBy(e, InTime(e.cancelReqAt, e.finishAt), log[k].failure);
  }

  /** And only one step closed it: once a number is settled, it does not run again. */
  lemma {:induction false} ClosedOnce(m: Mutex, log: seq<Action>, j: nat, k: nat, id: nat)
    requires j < k < |log| && Settles(m, log, j, id)
    ensures !Settles(m, log, k, id)
  {
    RunInv(m, log[..j]);
    var s := Run(m, log[..j]);
    assert log[..j + 1] == log[..j] + [log[j]];
    RunThen(m, log[..j], log[j], id);
    StepView(m, s, log[j], id);
    StaysSettled(m, log, j + 1, k, id);
  }

  lemma {:induction false} StaysSettled(m: Mutex, log: seq<Action>, j: nat, k: nat, id: nat)
    requires j <= k <= |log| && View(Run(m, log[..j]).settled, id).Some?
    ensures View(Run(m, log[..k]).settled, id).Some? && View(Run(m, log[..k]).running, id).None?
  {
    SettledAreTraced(m, log[..k], id);
    if j < k {
      StaysSettled(m, log, j, k - 1, id);
      RunInv(m, log[..k - 1]);
      assert log[..k] == log[..k - 1] + [log[k - 1]];
      RunThen(m, log[..k - 1], log[k - 1], id);
      StepView(m, Run(m, log[..k - 1]), log[k - 1], id);
      SettledAreTraced(m, log[..k], id);
    }
  }

  // ---- Progress ----

  /** The last progress reported while the task was running. */
  ghost function LastReport(m: Mutex, log: seq<Action>, id: nat): Option<int> {
    if log == [] then None
    else
      var before, a := log[..|log| - 1], log[|log| - 1];
      if a.Report? && a.id == id && a.progress.Some? && In(Run(m, before).running, id) then a.progress
      else LastReport(m, before, id)
  }

  lemma {:induction false} NoReportBeforeIssue(m: Mutex, log: seq<Action>, id: nat)
    requires id > Run(m, log).issued
    ensures LastReport(m, log, id) == None
  {
    if log != [] {
      var before := log[..|log| - 1];
      RunInv(m, before);
      NoReportBeforeIssue(m, before, id);
      UnknownYet(Run(m, before), id);
    }
  }

  ghost predicate ShowsLast(m: Mutex, log: seq<Action>, id: nat) {
    var s := Run(m, log);
    && (View(s.running, id).Some? ==> View(s.running, id).value.progress == LastReport(m, log, id))
    && (View(s.settled, id).Some? ==> View(s.settled, id).value.progress == LastReport(m, log, id))
  }

  /** A task shows the last progress reported while it ran, and goes on showing it when settled. */
  lemma {:induction false} ProgressIsLast(m: Mutex, log: seq<Action>, id: nat)
    ensures ShowsLast(m, log, id)
  {
    if log != [] {
      var before, a := log[..|log| - 1], log[|log| - 1];
      var s := Run(m, before);
      RunInv(m, before);
      ProgressIsLast(m, before, id);
      SettledAreTraced(m, before, id);
      StepView(m, s, a, id);
      ViewNumber(s.running, id);
      ViewNumber(s.settled, id);
      if id > s.issued {
        NoReportBeforeIssue(m, before, id);
        UnknownYet(s, id);
      }
    }
  }
}
