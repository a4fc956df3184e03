/** What Stop leaves behind: the tasks it has taken out run after its locks are released, and a later Stop
    does not wait for them. */
module PoolStop {
  import opened Counting
  import opened WorkPool
  import PoolFlow

  /** With its locks released, the first Stop has all accepted tasks executed exactly when its list is empty. */
  lemma AllExecutedExactly(cfg: Config, s: Pool)
    requires Reachable(cfg, s) && PoolFlow.Collected(s)
    ensures (forall task: nat :: PoolFlow.WasAccepted(s, task) ==> task in s.executed) <==> s.remaining == []
  {
    if s.remaining == [] {
      forall task: nat | PoolFlow.WasAccepted(s, task)
        ensures task in s.executed
      {
        PoolFlow.ExecutedExactlyOnce(cfg, s, task);
        assert multiset(s.executed)[task] == 1;
      }
    } else {
      var task := s.remaining[0];
      PoolFlow.OnePlace(cfg, s, task);
      assert task in multiset(s.remaining);
      assert multiset(s.executed)[task] == 0;
    }
  }

  /** One step more on a run already found. */
  lemma Then(cfg: Config, s: Pool, acts: seq<Action>, t: Pool, a: Action) returns (more: seq<Action>, u: Pool)
    requires Runs(cfg, s, acts, t) && Enabled(t, a)
    ensures Runs(cfg, s, more, u) && u == Apply(cfg, t, a)
  {
    RunsThen(cfg, s, acts, t, a);
    more, u := acts + [a], Apply(cfg, t, a);
  }

  /** A pool never started can take a task. */
  lemma OneAccepted(cfg: Config, s: Pool) returns (acts: seq<Action>, t: Pool)
    requires s == Init(1)
    ensures Runs(cfg, s, acts, t) && Full(t) && !t.stopped
  {
    acts, t := [], s;
    acts, t := Then(cfg, s, acts, t, Submit(Blocking));
    assert t.submitters == [Submitter(0, Blocking, Calling)];
    acts, t := Then(cfg, s, acts, t, Call(0, FirstCheck));
    assert t.submitters == [Submitter(0, Blocking, Ready)];
    acts, t := Then(cfg, s, acts, t, Call(0, ReadLock));
    assert t.submitters == [Submitter(0, Blocking, Locked)];
    acts, t := Then(cfg, s, acts, t, Call(0, SecondCheck));
    assert t.submitters == [Submitter(0, Blocking, Cleared)] && t.channels == [Channel([], 1, false)];
    acts, t := Then(cfg, s, acts, t, Call(0, TrySend));
    assert t.channels == [Channel([] + [0], 1, false)];
  }

  /** One task accepted and queued, nobody to run it. */
  ghost predicate Full(s: Pool) {
    && s.admin.Free? && s.workers == [] && s.executed == [] && s.current == 0
    && |s.channels| == 1 && s.channels[0].buf == [0]
    && s.submitters == [Submitter(0, Blocking, Accepted)]
  }

  /** The state of a full pool stopped as far as waiting for its workers. */
  ghost predicate Awaiting(s: Pool, full: Pool) {
    s == full.(stopped := true, target := 0, quitClosed := true, admin := StopWaiting)
  }

  lemma StopBegins(cfg: Config, s: Pool, start: seq<Action>, full: Pool) returns (acts: seq<Action>, t: Pool)
    requires Runs(cfg, s, start, full) && Full(full) && !full.stopped
    ensures Runs(cfg, s, acts, t) && Awaiting(t, full)
  {
    acts, t := Then(cfg, s, start, full, Manage(StopCall));
    acts, t := Then(cfg, s, acts, t, Manage(StoreZero));
    acts, t := Then(cfg, s, acts, t, Manage(CloseQuit));
  }

  lemma QueueCloses(cfg: Config, s: Pool, start: seq<Action>, full: Pool, wait: Pool)
    returns (acts: seq<Action>, t: Pool)
    requires Runs(cfg, s, start, wait) && Full(full) && Awaiting(wait, full)
    ensures Runs(cfg, s, acts, t)
    ensures t == wait.(admin := Collecting([]), channels := [wait.channels[0].(closed := true)])
  {
    acts, t := Then(cfg, s, start, wait, Manage(LockQueue));
    acts, t := Then(cfg, s, acts, t, Manage(CloseQueue));
    assert t.channels == [wait.channels[0].(closed := true)];
  }

  lemma QueueEmpties(cfg: Config, s: Pool, start: seq<Action>, shut: Pool) returns (acts: seq<Action>, t: Pool)
    requires Runs(cfg, s, start, shut) && shut.current == 0 && |shut.channels| == 1
    requires shut.admin == Collecting([]) && shut.channels[0].buf == [0]
    ensures Runs(cfg, s, acts, t) && t.current < |t.channels| && t.admin.Free? && t.remaining == [0]
    ensures (t.submitters, t.stopped, t.executed) == (shut.submitters, shut.stopped, shut.executed)
  {
    acts, t := Then(cfg, s, start, shut, Manage(CollectOne));
    assert t.channels[0].buf == [] && t.admin == Collecting([] + [0]);
    acts, t := Then(cfg, s, acts, t, Manage(CollectEnd));
  }

  /** A second Stop can return while the task the first has taken out has not run. */
  lemma SecondStopReturnsEarly(cfg: Config) returns (acts: seq<Action>, t: Pool)
    ensures Runs(cfg, Init(1), acts, t) && Enabled(t, Manage(StopAgain))
    ensures PoolFlow.Collected(t) && PoolFlow.WasAccepted(t, 0) && t.executed == [] && t.remaining == [0]
  {
    var start, full := OneAccepted(cfg, Init(1));
    var wait;
    acts, wait := StopBegins(cfg, Init(1), start, full);
    var shut;
    acts, shut := QueueCloses(cfg, Init(1), acts, full, wait);
    acts, t := QueueEmpties(cfg, Init(1), acts, shut);
  }
}
