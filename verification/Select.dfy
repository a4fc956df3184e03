/** Choosing a node: priority fallback over healthy nodes, smooth weighted round robin over a shared
    cursor, and least connections with the round robin breaking ties. */
module Select {
  import opened Wrr
  import opened Registry

  datatype Algo = RoundRobin | LeastConn

  datatype Priority = Primary | Backup

  class NodeRT {
    const id: int
    const weight: int
    const priority: Priority

    constructor (id: int, weight: int, priority: Priority)
      ensures this.id == id && this.weight == weight && this.priority == priority
    {
      this.id, this.weight, this.priority := id, weight, priority;
    }
  }

  // ---- What the loops compute ----

  ghost predicate DistinctNodes(nodes: seq<NodeRT>) {
    forall i, j :: 0 <= i < j < |nodes| ==> nodes[i] != nodes[j]
  }

  predicate Eligible(m: Records, p: Priority, n: NodeRT) {
    n.priority == p && HealthIn(m, n.id) == OK
  }

  /** The eligible nodes among the first k, in list order. */
  function Cands(m: Records, p: Priority, nodes: seq<NodeRT>, k: nat): (r: seq<NodeRT>)
    requires k <= |nodes|
    ensures forall x :: x in r ==> x in nodes[..k] && Eligible(m, p, x)
    ensures forall x :: x in nodes[..k] && Eligible(m, p, x) ==> x in r
  {
    if k == 0 then []
    else
      var r := Cands(m, p, nodes, k - 1);
      assert nodes[..k] == nodes[..k - 1] + [nodes[k - 1]];
      if Eligible(m, p, nodes[k - 1]) then r + [nodes[k - 1]] else r
  }

  lemma {:induction false} CandsDistinct(m: Records, p: Priority, nodes: seq<NodeRT>, k: nat)
    requires k <= |nodes| && DistinctNodes(nodes)
    ensures DistinctNodes(Cands(m, p, nodes, k))
  {
    if k > 0 {
      CandsDistinct(m, p, nodes, k - 1);
      var r := Cands(m, p, nodes, k - 1);
      assert forall i :: 0 <= i < |r| ==> r[i] in r && r[i] in nodes[..k - 1];
    }
  }

  /** The fewest in-flight requests among the first k candidates. */
  function Fewest(m: Records, cands: seq<NodeRT>, k: nat): (f: int)
    requires 0 < k <= |cands|
    ensures exists i :: 0 <= i < k && InflightIn(m, cands[i].id) == f
    ensures forall i :: 0 <= i < k ==> f <= InflightIn(m, cands[i].id)
  {
    var x := InflightIn(m, cands[k - 1].id);
    if k == 1 then x
    else
      var f := Fewest(m, cands, k - 1);
      if x < f then x else f
  }

  /** The candidates among the first k that carry exactly f requests, in list order. */
  function Carrying(m: Records, cands: seq<NodeRT>, k: nat, f: int): seq<NodeRT>
    requires k <= |cands|
  {
    if k == 0 then []
    else
      var r := Carrying(m, cands, k - 1, f);
      if InflightIn(m, cands[k - 1].id) == f then r + [cands[k - 1]] else r
  }

  lemma {:induction false} CarryingMeans(m: Records, cands: seq<NodeRT>, k: nat, f: int)
    requires k <= |cands|
    ensures forall x :: x in Carrying(m, cands, k, f) ==> x in cands[..k] && InflightIn(m, x.id) == f
    ensures forall x :: x in cands[..k] && InflightIn(m, x.id) == f ==> x in Carrying(m, cands, k, f)
  {
    if k > 0 {
      CarryingMeans(m, cands, k - 1, f);
      assert cands[..k] == cands[..k - 1] + [cands[k - 1]];
    }
  }

  lemma {:induction false} CarryingDistinct(m: Records, cands: seq<NodeRT>, k: nat, f: int)
    requires k <= |cands| && DistinctNodes(cands)
    ensures DistinctNodes(Carrying(m, cands, k, f))
  {
    if k > 0 {
      CarryingDistinct(m, cands, k - 1, f);
      CarryingMeans(m, cands, k - 1, f);
      var r := Carrying(m, cands, k - 1, f);
      assert forall i :: 0 <= i < |r| ==> r[i] in r && r[i] in cands[..k - 1];
    }
  }

  /** The nodes the round robin step runs over: all candidates, or those tied for fewest requests. */
  function Field(algo: Algo, m: Records, cands: seq<NodeRT>): (r: seq<NodeRT>)
    requires cands != []
    ensures r != [] && forall x :: x in r ==> x in cands
    ensures algo.LeastConn? ==> forall x, y :: x in r && y in cands ==> InflightIn(m, x.id) <= InflightIn(m, y.id)
  {
    if algo.LeastConn? then
      var f := Fewest(m, cands, |cands|);
      var r := Carrying(m, cands, |cands|, f);
      CarryingMeans(m, cands, |cands|, f);
      assert cands[..|cands|] == cands;
      assert forall y :: y in cands ==> f <= InflightIn(m, y.id);
      r
    else cands
  }

  /** Round robin runs over all candidates; least connections over exactly those nobody undercuts. */
  lemma FieldMeans(algo: Algo, m: Records, cands: seq<NodeRT>, x: NodeRT)
    requires cands != [] && x in cands
    ensures algo.RoundRobin? ==> Field(algo, m, cands) == cands
    ensures algo.LeastConn? ==>
      (x in Field(algo, m, cands) <==> forall y :: y in cands ==> InflightIn(m, x.id) <= InflightIn(m, y.id))
  {
    var f := Fewest(m, cands, |cands|);
    CarryingMeans(m, cands, |cands|, f);
    assert cands[..|cands|] == cands;
    var i :| 0 <= i < |cands| && InflightIn(m, cands[i].id) == f;
    assert cands[i] in cands;
  }

  lemma FieldDistinct(algo: Algo, m: Records, cands: seq<NodeRT>)
    requires cands != [] && DistinctNodes(cands)
    ensures DistinctNodes(Field(algo, m, cands))
  {
    CarryingDistinct(m, cands, |cands|, Fewest(m, cands, |cands|));
  }

  /** The nodes served at all: healthy primaries, or healthy backups when no primary is healthy. */
  function Served(m: Records, nodes: seq<NodeRT>): (r: seq<NodeRT>)
    ensures forall x :: x in r ==> x in nodes && HealthIn(m, x.id) == OK
    ensures r == [] <==> forall x :: x in nodes ==> HealthIn(m, x.id) != OK
  {
    var p := Cands(m, Primary, nodes, |nodes|);
    var b := Cands(m, Backup, nodes, |nodes|);
    assert nodes[..|nodes|] == nodes;
    assert forall x :: x in nodes && HealthIn(m, x.id) == OK ==> x in p || x in b;
    assert (p != [] ==> p[0] in p) && (b != [] ==> b[0] in b);
    if p != [] then p else b
  }

  /** Healthy backups are served exactly when no primary is healthy. */
  lemma ServedMeans(m: Records, nodes: seq<NodeRT>, x: NodeRT)
    requires x in nodes
    ensures x in Served(m, nodes) <==>
      && HealthIn(m, x.id) == OK
      && (x.priority == Primary || forall y :: y in nodes && y.priority == Primary ==> HealthIn(m, y.id) != OK)
  {
    var p := Cands(m, Primary, nodes, |nodes|);
    assert nodes[..|nodes|] == nodes;
    assert p != [] ==> p[0] in p;
  }

  function Weights(nodes: seq<NodeRT>): (w: seq<int>)
    ensures |w| == |nodes|
  {
    seq(|nodes|, i requires 0 <= i < |nodes| => nodes[i].weight)
  }

  /** A node's place in the list, 0 when it is not there. */
  function IndexFrom(nodes: seq<NodeRT>, n: NodeRT, i: nat): (r: nat)
    requires i <= |nodes|
    ensures n in nodes[i..] ==> i <= r < |nodes| && nodes[r] == n
    ensures nodes != [] ==> r < |nodes|
    decreases |nodes| - i
  {
    if i == |nodes| then 0
    else if nodes[i] == n then i
    else
      assert nodes[i..] == [nodes[i]] + nodes[i + 1..];
      IndexFrom(nodes, n, i + 1)
  }

  function Places(nodes: seq<NodeRT>, cands: seq<NodeRT>): (r: seq<nat>)
    ensures |r| == |cands| && (nodes != [] ==> InRange(|nodes|, r))
  {
    assert nodes[0..] == nodes;
    seq(|cands|, k requires 0 <= k < |cands| => IndexFrom(nodes, cands[k], 0))
  }

  lemma PlacesAreCandidates(nodes: seq<NodeRT>, cands: seq<NodeRT>)
    requires cands != [] && DistinctNodes(cands)
    requires forall x :: x in cands ==> x in nodes
    ensures Candidates(|nodes|, Places(nodes, cands))
    ensures forall k :: 0 <= k < |cands| ==> nodes[Places(nodes, cands)[k]] == cands[k]
  {
    assert nodes[0..] == nodes;
  }

  /** The entry the scan compares at candidate i is the one just raised. */
  lemma RaisedEntry(w: seq<int>, idx: seq<nat>, i: nat, was: seq<int>)
    requires |w| == |was| && i < |idx| && InRange(|was|, idx) && Distinct(idx)
    ensures Raised(w, idx, was)[idx[i]] == Raise(w, idx, i, was)[idx[i]] + Weight(w[idx[i]])
  {
    RaiseKept(w, idx, i + 1, was);
  }

  lemma ScanOne(r: seq<int>, idx: seq<nat>, i: nat, cur: int)
    requires i < |idx| && InRange(|r|, idx) && r[idx[i]] == cur
    ensures Scan(r, idx, i + 1) == if cur > Scan(r, idx, i).1 then (i, cur) else Scan(r, idx, i)
  {}

  /** What any algorithm chooses among the healthy nodes of a priority is a list of nodes, each once. */
  lemma FieldIsPickable(algo: Algo, m: Records, p: Priority, nodes: seq<NodeRT>)
    requires DistinctNodes(nodes) && Cands(m, p, nodes, |nodes|) != []
    ensures var field := Field(algo, m, Cands(m, p, nodes, |nodes|));
      DistinctNodes(field) && (forall x :: x in field ==> x in nodes) && Candidates(|nodes|, Places(nodes, field))
  {
    var cands := Cands(m, p, nodes, |nodes|);
    CandsDistinct(m, p, nodes, |nodes|);
    assert nodes[..|nodes|] == nodes;
    FieldDistinct(algo, m, cands);
    PlacesAreCandidates(nodes, Field(algo, m, cands));
  }

  /** n is the pick of one step over the field, and the cursor has moved by that step. */
  ghost predicate Chosen(n: NodeRT, field: seq<NodeRT>, nodes: seq<NodeRT>, was: seq<int>, now: seq<int>) {
    var idx := Places(nodes, field);
    && n in field && Candidates(|nodes|, idx) && |was| == |nodes|
    && IndexFrom(nodes, n, 0) == Pick(Weights(nodes), idx, was)
    && now == Step(Weights(nodes), idx, was)
  }

  class UpstreamRT {
    const nodes: seq<NodeRT>
    const algo: Algo
    var current: array<int>

    ghost predicate Shaped()
      reads this
    {
      current.Length == |nodes| && DistinctNodes(nodes)
    }

    /** All cursors of the upstream sum to zero, before and after every pick. */
    ghost predicate Valid()
      reads this, current
    {
      Shaped() && Balance(current[..]) == 0
    }

    /** A candidate list: nodes of this upstream, each once, at least one. */
    ghost predicate Pickable(cands: seq<NodeRT>)
      reads this
    {
      cands != [] && DistinctNodes(cands) && forall x :: x in cands ==> x in nodes
    }

    /** A fresh snapshot starts with a fresh cursor. */
    constructor (nodes: seq<NodeRT>, algo: Algo)
      requires DistinctNodes(nodes)
      ensures Valid() && this.nodes == nodes && this.algo == algo && fresh(current)
      ensures Zeros(current[..])
    {
      this.nodes, this.algo := nodes, algo;
      current := new int[|nodes|](i => 0);
      new;
      ZeroSum(current[..], current.Length);
    }

    method IndexOf(n: NodeRT) returns (r: nat)
      ensures r == IndexFrom(nodes, n, 0)
    {
      var i := 0;
      while i < |nodes|
        invariant 0 <= i <= |nodes|
        invariant IndexFrom(nodes, n, 0) == IndexFrom(nodes, n, i)
      {
        if nodes[i] == n {
          return i;
        }
        i := i + 1;
      }
      return 0;
    }

    method CollectCands(reg: NodeRegistry, p: Priority) returns (cands: seq<NodeRT>)
      ensures cands == Cands(reg.nodes, p, nodes, |nodes|)
    {
      cands := [];
      for i := 0 to |nodes|
        invariant cands == Cands(reg.nodes, p, nodes, i)
      {
        if nodes[i].priority == p && HealthIn(reg.nodes, nodes[i].id) == OK {
          cands := cands + [nodes[i]];
        }
      }
    }

    method LeastConnSet(reg: NodeRegistry, cands: seq<NodeRT>) returns (minCands: seq<NodeRT>)
      requires cands != [] && NonNegative(reg.nodes)
      ensures minCands == Field(LeastConn, reg.nodes, cands)
    {
      minCands := [];
      var minInflight := -1;
      for i := 0 to |cands|
        invariant i == 0 ==> minInflight == -1
        invariant i > 0 ==> minInflight == Fewest(reg.nodes, cands, i)
        invariant minCands == Carrying(reg.nodes, cands, i, minInflight)
      {
        var inflight := InflightIn(reg.nodes, cands[i].id);
        if minInflight < 0 || inflight < minInflight {
          NoneBelow(reg.nodes, cands, i, inflight);
          minInflight := inflight;
          minCands := [cands[i]];
        } else if inflight == minInflight {
          minCands := minCands + [cands[i]];
        }
      }
    }

    /** Adds a node's weight, at least 1, to its entry of the cursor. */
    method Lift(cursor: array<int>, n: NodeRT) returns (weight: int, cur: int)
      requires Shaped() && cursor.Length == |nodes| && n in nodes
      modifies cursor
      ensures var at := IndexFrom(nodes, n, 0);
        && at < |nodes| && weight == Weight(Weights(nodes)[at]) && cur == old(cursor[at]) + weight
        && cursor[..] == old(cursor[..])[at := cur]
    {
      weight := n.weight;
      if weight <= 0 {
        weight := 1;
      }
      var at := IndexOf(n);
      assert nodes[0..] == nodes;
      cur := cursor[at] + weight;
      cursor[at] := cur;
    }

    /** The scan: every candidate's entry raised in place, the first strict best kept, the weights summed. */
    method RaiseAll(cursor: array<int>, cands: seq<NodeRT>) returns (best: NodeRT, total: int, ghost place: nat)
      requires Shaped() && cursor.Length == |nodes| && Pickable(cands)
      modifies cursor
      ensures cursor[..] == Raised(Weights(nodes), Places(nodes, cands), old(cursor[..]))
      ensures total == Total(Weights(nodes), Places(nodes, cands), |cands|)
      ensures place == Scan(Raised(Weights(nodes), Places(nodes, cands), old(cursor[..])), Places(nodes, cands), |cands|).0
      ensures place < |cands| && best == cands[place]
    {
      ghost var was, w, idx := cursor[..], Weights(nodes), Places(nodes, cands);
      PlacesAreCandidates(nodes, cands);
      total := 0;
      best := cands[0];
      var bestCur := 0;
      place := 0;
      for i := 0 to |cands|
        invariant cursor[..] == Raise(w, idx, i, was)
        invariant total == Total(w, idx, i)
        invariant place < |cands| && best == cands[place]
        invariant (place, bestCur) == Scan(Raised(w, idx, was), idx, i)
      {
        var n := cands[i];
        RaisedEntry(w, idx, i, was);
        var weight, cur := Lift(cursor, n);
        ScanOne(Raised(w, idx, was), idx, i, cur);
        total := total + weight;
        if cur > bestCur {
          best, bestCur, place := n, cur, i;
        }
      }
    }

    /** One step in place over the given cursor. */
    method WrrStep(cursor: array<int>, cands: seq<NodeRT>) returns (best: NodeRT)
      requires Shaped() && cursor.Length == |nodes| && Pickable(cands)
      modifies cursor
      ensures cursor[..] == Step(Weights(nodes), Places(nodes, cands), old(cursor[..]))
      ensures best in cands
      ensures IndexFrom(nodes, best, 0) == Pick(Weights(nodes), Places(nodes, cands), old(cursor[..]))
    {
      ghost var place;
      var total;
      PlacesAreCandidates(nodes, cands);
      best, total, place := RaiseAll(cursor, cands);
      var at := IndexOf(best);
      assert at == Places(nodes, cands)[place];
      cursor[at] := cursor[at] - total;
    }

    /** The live pick. The one-candidate shortcut leaves the cursor as a full step would. */
    method PickRR(cands: seq<NodeRT>) returns (best: NodeRT)
      requires Valid() && Pickable(cands)
      modifies current
      ensures Valid()
      ensures current[..] == Step(Weights(nodes), Places(nodes, cands), old(current[..]))
      ensures best in cands
      ensures IndexFrom(nodes, best, 0) == Pick(Weights(nodes), Places(nodes, cands), old(current[..]))
    {
      PlacesAreCandidates(nodes, cands);
      StepKeepsBalance(Weights(nodes), Places(nodes, cands), current[..]);
      if |cands| == 1 {
        best := cands[0];
        SingleCandidate(Weights(nodes), IndexFrom(nodes, best, 0), current[..]);
        assert Places(nodes, cands) == [IndexFrom(nodes, best, 0)];
        return;
      }
      best := WrrStep(current, cands);
    }

    /** The trial pick works on a copy: it names the node the next live pick on the same candidates
        returns and leaves the cursor alone. */
    method PeekRR(cands: seq<NodeRT>) returns (best: NodeRT)
      requires Valid() && Pickable(cands)
      ensures current[..] == old(current[..])
      ensures best in cands
      ensures IndexFrom(nodes, best, 0) == Pick(Weights(nodes), Places(nodes, cands), current[..])
    {
      if |cands| == 1 {
        best := cands[0];
        SingleCandidate(Weights(nodes), IndexFrom(nodes, best, 0), current[..]);
        assert Places(nodes, cands) == [IndexFrom(nodes, best, 0)];
        return;
      }
      var cur := new int[current.Length];
      forall i | 0 <= i < current.Length {
        cur[i] := current[i];
      }
      assert cur[..] == current[..];
      best := WrrStep(cur, cands);
    }

    /** The node picked among the healthy nodes of one priority; null, and no change, when there are none. */
    method PickHealthy(reg: NodeRegistry, p: Priority) returns (n: NodeRT?)
      requires Valid() && NonNegative(reg.nodes)
      modifies current
      ensures Valid()
      ensures var cands := Cands(reg.nodes, p, nodes, |nodes|);
        if cands == [] then n == null && current[..] == old(current[..])
        else n != null && Chosen(n, Field(algo, reg.nodes, cands), nodes, old(current[..]), current[..])
    {
      var cands := CollectCands(reg, p);
      if |cands| == 0 {
        return null;
      }
      FieldIsPickable(algo, reg.nodes, p, nodes);
      var field := cands;
      if algo.LeastConn? {
        field := LeastConnSet(reg, cands);
      }
      n := PickRR(field);
    }

    /** Select and count: the node the step picks among the served field, or nothing and no change when
        no node is healthy. */
    method SelectNode(reg: NodeRegistry) returns (n: NodeRT?)
      requires Valid() && NonNegative(reg.nodes)
      modifies current, reg
      ensures Valid() && NonNegative(reg.nodes)
      ensures var served := Served(old(reg.nodes), nodes);
        if served == [] then
          n == null && reg.nodes == old(reg.nodes) && current[..] == old(current[..])
        else
          && n != null && Chosen(n, Field(algo, old(reg.nodes), served), nodes, old(current[..]), current[..])
          && reg.nodes == old(reg.nodes)[n.id :=
               Registered(old(reg.nodes), n.id).(inflight := InflightIn(old(reg.nodes), n.id) + 1)]
    {
      n := PickHealthy(reg, Primary);
      if n == null {
        n := PickHealthy(reg, Backup);
        if n == null {
          return;
        }
      }
      reg.IncInflight(n.id);
    }
  }

  /** Raising further candidates leaves the ones already raised as they are. */
  lemma {:induction false} RaiseKept(w: seq<int>, idx: seq<nat>, i: nat, cur: seq<int>)
    requires |w| == |cur| && 0 < i <= |idx| && InRange(|cur|, idx) && Distinct(idx)
    ensures Raised(w, idx, cur)[idx[i - 1]] == Raise(w, idx, i, cur)[idx[i - 1]]
  {
    RaisedAt(w, idx, cur, idx[i - 1]);
    RaiseAt(w, idx, i, cur, idx[i - 1]);
    assert idx[..i][i - 1] == idx[i - 1];
  }

  /** Where every one of the first k carries more than f, none carries f. */
  lemma {:induction false} NoneBelow(m: Records, cands: seq<NodeRT>, k: nat, f: int)
    requires k <= |cands|
    requires forall i :: 0 <= i < k ==> InflightIn(m, cands[i].id) > f
    ensures Carrying(m, cands, k, f) == []
  {
    if k > 0 {
      NoneBelow(m, cands, k - 1, f);
    }
  }

  // ---- Order ----

  /** r keeps the order of the list. */
  ghost predicate InListOrder(nodes: seq<NodeRT>, r: seq<NodeRT>) {
    forall i, j :: 0 <= i < j < |r| ==> IndexFrom(nodes, r[i], 0) < IndexFrom(nodes, r[j], 0)
  }

  lemma PlaceOf(nodes: seq<NodeRT>, k: nat)
    requires DistinctNodes(nodes) && k < |nodes|
    ensures IndexFrom(nodes, nodes[k], 0) == k
  {
    assert nodes[0..] == nodes;
  }

  lemma PlaceBefore(nodes: seq<NodeRT>, k: nat, n: NodeRT)
    requires DistinctNodes(nodes) && k <= |nodes| && n in nodes[..k]
    ensures IndexFrom(nodes, n, 0) < k
  {
    var i :| 0 <= i < k && nodes[..k][i] == n;
    PlaceOf(nodes, i);
  }

  lemma {:induction false} CandsInOrder(m: Records, p: Priority, nodes: seq<NodeRT>, k: nat)
    requires k <= |nodes| && DistinctNodes(nodes)
    ensures InListOrder(nodes, Cands(m, p, nodes, k))
  {
    if k > 0 {
      CandsInOrder(m, p, nodes, k - 1);
      PlaceOf(nodes, k - 1);
      var r := Cands(m, p, nodes, k - 1);
      forall i | 0 <= i < |r|
        ensures IndexFrom(nodes, r[i], 0) < k - 1
      {
        assert r[i] in r;
        PlaceBefore(nodes, k - 1, r[i]);
      }
    }
  }

  lemma {:induction false} CarryingInOrder(m: Records, nodes: seq<NodeRT>, cands: seq<NodeRT>, k: nat, f: int)
    requires k <= |cands| && InListOrder(nodes, cands)
    ensures InListOrder(nodes, Carrying(m, cands, k, f))
  {
    if k > 0 {
      CarryingInOrder(m, nodes, cands, k - 1, f);
      CarryingMeans(m, cands, k - 1, f);
      var r := Carrying(m, cands, k - 1, f);
      forall i | 0 <= i < |r|
        ensures IndexFrom(nodes, r[i], 0) < IndexFrom(nodes, cands[k - 1], 0)
      {
        assert r[i] in r;
        var j :| 0 <= j < k - 1 && cands[..k - 1][j] == r[i];
        assert cands[j] == r[i];
      }
    }
  }

  /** The round robin meets the served nodes, and the least loaded among them, in upstream order. */
  lemma FieldInOrder(algo: Algo, m: Records, nodes: seq<NodeRT>)
    requires DistinctNodes(nodes) && Served(m, nodes) != []
    ensures InListOrder(nodes, Served(m, nodes))
    ensures InListOrder(nodes, Field(algo, m, Served(m, nodes)))
  {
    var served := Served(m, nodes);
    CandsInOrder(m, Primary, nodes, |nodes|);
    CandsInOrder(m, Backup, nodes, |nodes|);
    CarryingInOrder(m, nodes, served, |served|, Fewest(m, served, |served|));
  }

  // ---- A run of selections ----

  /** A run of picks over an unchanging field, each moving the cursor on to the next. */
  ghost predicate PickRun(field: seq<NodeRT>, nodes: seq<NodeRT>, picks: seq<NodeRT>, cursors: seq<seq<int>>) {
    && |cursors| == |picks| + 1
    && forall k :: 0 <= k < |picks| ==> Chosen(picks[k], field, nodes, cursors[k], cursors[k + 1])
  }

  /** How often n is among the picks from one place to another. */
  ghost function TimesPicked(picks: seq<NodeRT>, from: nat, to: nat, n: NodeRT): nat
    requires from <= to <= |picks|
  {
    if from == to then 0
    else TimesPicked(picks, from, to - 1, n) + (if picks[to - 1] == n then 1 else 0)
  }

  lemma {:induction false} CursorIterates(field: seq<NodeRT>, nodes: seq<NodeRT>, picks: seq<NodeRT>,
                                          cursors: seq<seq<int>>, k: nat)
    requires PickRun(field, nodes, picks, cursors) && k <= |picks| && Candidates(|nodes|, Places(nodes, field))
    requires |cursors[0]| == |nodes|
    ensures cursors[k] == Iterate(Weights(nodes), Places(nodes, field), k, cursors[0])
  {
    if k > 0 {
      CursorIterates(field, nodes, picks, cursors, k - 1);
      assert Chosen(picks[k - 1], field, nodes, cursors[k - 1], cursors[k]);
    }
  }

  lemma SamePlace(field: seq<NodeRT>, nodes: seq<NodeRT>, picks: seq<NodeRT>, cursors: seq<seq<int>>, k: nat, n: NodeRT)
    requires PickRun(field, nodes, picks, cursors) && k < |picks|
    requires Candidates(|nodes|, Places(nodes, field)) && |cursors[0]| == |nodes|
    requires n in nodes && forall x :: x in field ==> x in nodes
    ensures picks[k] == n <==>
      Pick(Weights(nodes), Places(nodes, field), Iterate(Weights(nodes), Places(nodes, field), k, cursors[0]))
      == IndexFrom(nodes, n, 0)
  {
    CursorIterates(field, nodes, picks, cursors, k);
    assert Chosen(picks[k], field, nodes, cursors[k], cursors[k + 1]);
    assert nodes[0..] == nodes;
  }

  /** The picks are n wherever the round robin's are x. */
  ghost predicate Follows(picks: seq<NodeRT>, n: NodeRT, w: seq<int>, idx: seq<nat>, cur: seq<int>, x: nat)
    requires |w| == |cur| && 0 < |idx| && InRange(|cur|, idx)
  {
    forall k :: 0 <= k < |picks| ==> (picks[k] == n <==> Pick(w, idx, Iterate(w, idx, k, cur)) == x)
  }

  lemma {:induction false} TimesArePicks(picks: seq<NodeRT>, n: NodeRT, w: seq<int>, idx: seq<nat>, cur: seq<int>,
                                         x: nat, from: nat, to: nat)
    requires |w| == |cur| && 0 < |idx| && InRange(|cur|, idx) && Follows(picks, n, w, idx, cur, x)
    requires from <= to <= |picks|
    ensures TimesPicked(picks, from, to, n) == Picks(w, idx, to, cur, x) - Picks(w, idx, from, cur, x)
  {
    if from < to {
      TimesArePicks(picks, n, w, idx, cur, x, from, to - 1);
    }
  }

  lemma RunFollows(field: seq<NodeRT>, nodes: seq<NodeRT>, picks: seq<NodeRT>, cursors: seq<seq<int>>, n: NodeRT)
    requires PickRun(field, nodes, picks, cursors)
    requires Candidates(|nodes|, Places(nodes, field)) && |cursors[0]| == |nodes|
    requires n in nodes && forall x :: x in field ==> x in nodes
    ensures Follows(picks, n, Weights(nodes), Places(nodes, field), cursors[0], IndexFrom(nodes, n, 0))
  {
    forall k | 0 <= k < |picks|
      ensures picks[k] == n <==>
        Pick(Weights(nodes), Places(nodes, field), Iterate(Weights(nodes), Places(nodes, field), k, cursors[0]))
        == IndexFrom(nodes, n, 0)
    {
      SamePlace(field, nodes, picks, cursors, k, n);
    }
  }

  lemma FieldPlace(field: seq<NodeRT>, nodes: seq<NodeRT>, n: NodeRT)
    requires n in field && n in nodes
    ensures var x := IndexFrom(nodes, n, 0);
      x in Places(nodes, field) && x < |nodes| && Weights(nodes)[x] == n.weight
  {
    var k :| 0 <= k < |field| && field[k] == n;
    assert nodes[0..] == nodes;
    assert Places(nodes, field)[k] == IndexFrom(nodes, n, 0);
  }

  lemma FieldTotal(field: seq<NodeRT>, nodes: seq<NodeRT>)
    requires forall x :: x in field ==> x in nodes && x.weight >= 1
    requires InRange(|nodes|, Places(nodes, field))
    ensures Total(Weights(nodes), Places(nodes, field), |field|) == SumOf(Weights(field), |field|)
  {
    var (w, idx, shares) := (Weights(nodes), Places(nodes, field), Weights(field));
    forall k | 0 <= k < |field|
      ensures shares[k] == w[idx[k]] >= 1
    {
      assert field[k] in field;
      FieldPlace(field, nodes, field[k]);
    }
    TotalIsSum(w, idx, shares, |idx|);
  }

  /** Main result: from a fresh cursor, with the same healthy nodes of positive weight, any run of consecutive
      selections as long as the weights' sum serves each of them exactly as often as its own weight says. */
  lemma ServedByWeight(field: seq<NodeRT>, nodes: seq<NodeRT>, picks: seq<NodeRT>, cursors: seq<seq<int>>,
                       start: nat, n: NodeRT)
    requires DistinctNodes(field) && n in field
    requires forall x :: x in field ==> x in nodes && x.weight >= 1
    requires PickRun(field, nodes, picks, cursors) && |cursors[0]| == |nodes| && Zeros(cursors[0])
    requires 0 <= SumOf(Weights(field), |field|) <= |picks| - start
    ensures TimesPicked(picks, start, start + SumOf(Weights(field), |field|), n) == n.weight
  {
    var (w, idx, x) := (Weights(nodes), Places(nodes, field), IndexFrom(nodes, n, 0));
    var t := SumOf(Weights(field), |field|);
    PlacesAreCandidates(nodes, field);
    FieldPlace(field, nodes, n);
    FieldTotal(field, nodes);
    RunFollows(field, nodes, picks, cursors, n);
    TimesArePicks(picks, n, w, idx, cursors[0], x, start, start + t);
    EveryWindow(w, idx, start, cursors[0], x);
  }
}
